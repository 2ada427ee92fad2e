/**
 * The JavaScript string operations the core relies on: `split` on one
 * separator, `join`, `trim`, the `\s` class, `split(/\s+/)`, ASCII
 * `toLowerCase`, `includes`/`startsWith`/`endsWith`, decimal `String(n)` and
 * the UTF-16 code units of a string, with `Math.max`/`Math.min` on lengths.
 * `Split` and `Join` are generic so that they serve both `string` and the
 * UTF-16 code-unit sequences of the Unicode module.
 */
module JsStrings {

  /** `Math.max` and `Math.min` on the lengths and counts the core applies them to. */
  function Max(x: nat, y: nat): nat {
    if x < y then y else x
  }

  function Min(x: nat, y: nat): nat {
    if x < y then x else y
  }

  // ---------------------------------------------------------------------
  // Whitespace and trim
  // ---------------------------------------------------------------------

  /** The WhiteSpace and LineTerminator code points: what `\s` and `trim` recognise. */
  predicate IsWhitespace(c: char) {
    c == '\t' || c == '\n' || c == '\U{000B}' || c == '\U{000C}' || c == '\r' || c == ' '
    || c == '\U{00A0}' || c == '\U{1680}' || ('\U{2000}' <= c <= '\U{200A}')
    || c == '\U{2028}' || c == '\U{2029}' || c == '\U{202F}' || c == '\U{205F}'
    || c == '\U{3000}' || c == '\U{FEFF}'
  }

  /** Every character is whitespace: `s.trim() === ''`. */
  predicate IsBlank(s: string) {
    forall i :: 0 <= i < |s| ==> IsWhitespace(s[i])
  }

  /** Drops the leading whitespace. */
  function TrimStart(s: string): (r: string)
    ensures |r| <= |s| && r == s[|s| - |r|..]
    ensures r == [] || !IsWhitespace(r[0])
    ensures forall i :: 0 <= i < |s| - |r| ==> IsWhitespace(s[i])
  {
    if s != [] && IsWhitespace(s[0]) then TrimStart(s[1..]) else s
  }

  /** Drops the trailing whitespace. */
  function TrimEnd(s: string): (r: string)
    ensures |r| <= |s| && r == s[..|r|]
    ensures r == [] || !IsWhitespace(r[|r| - 1])
    ensures forall i :: |r| <= i < |s| ==> IsWhitespace(s[i])
  {
    if s != [] && IsWhitespace(s[|s| - 1]) then TrimEnd(s[..|s| - 1]) else s
  }

  /** `s.trim()`. */
  function Trim(s: string): (r: string)
    ensures r == [] <==> IsBlank(s)
    ensures r != [] ==> !IsWhitespace(r[0]) && !IsWhitespace(r[|r| - 1])
    ensures |r| <= |s|
  {
    var t := TrimStart(s);
    var r := TrimEnd(t);
    assert r == [] ==> t == [] by {
      if t != [] {
        assert IsWhitespace(t[0]) ==> r != [];
      }
    }
    r
  }

  /** `s.replace(/\s/g, '')`: the non-whitespace characters, in order. */
  function NonWhitespace(s: string): (r: string)
    ensures |r| <= |s|
    ensures forall i :: 0 <= i < |r| ==> !IsWhitespace(r[i])
  {
    if s == [] then [] else (if IsWhitespace(s[0]) then [] else [s[0]]) + NonWhitespace(s[1..])
  }

  lemma {:induction false} NonWhitespaceConcat(a: string, b: string)
    ensures NonWhitespace(a + b) == NonWhitespace(a) + NonWhitespace(b)
  {
    if a != [] {
      assert (a + b)[1..] == a[1..] + b;
      NonWhitespaceConcat(a[1..], b);
    } else {
      assert a + b == b;
    }
  }

  lemma {:induction false} NonWhitespaceEmpty(s: string)
    ensures NonWhitespace(s) == [] <==> IsBlank(s)
  {
    if s != [] {
      NonWhitespaceEmpty(s[1..]);
      if IsBlank(s[1..]) && IsWhitespace(s[0]) {
        forall i | 0 <= i < |s| ensures IsWhitespace(s[i]) {
          if i > 0 { assert s[i] == s[1..][i - 1]; }
        }
      }
      if IsBlank(s) {
        forall i | 0 <= i < |s| - 1 ensures IsWhitespace(s[1..][i]) {
          assert s[1..][i] == s[i + 1];
        }
      }
    }
  }

  /** A blank string has no non-whitespace characters. */
  lemma {:induction false} BlankHasNoNonWhitespace(s: string)
    requires IsBlank(s)
    ensures NonWhitespace(s) == []
  {
    NonWhitespaceEmpty(s);
  }

  // ---------------------------------------------------------------------
  // split / join on a single separator
  // ---------------------------------------------------------------------

  /** `s.split(sep)` for a one-element separator: always at least one part. */
  function Split<T(==)>(s: seq<T>, sep: T): (parts: seq<seq<T>>)
    ensures |parts| >= 1
    ensures forall i :: 0 <= i < |parts| ==> sep !in parts[i]
  {
    if s == [] then [[]]
    else
      var rest := Split(s[1..], sep);
      if s[0] == sep then [[]] + rest
      else [[s[0]] + rest[0]] + rest[1..]
  }

  /** `parts.join(sep)`. */
  function Join<T>(parts: seq<seq<T>>, sep: T): seq<T> {
    if |parts| == 0 then []
    else if |parts| == 1 then parts[0]
    else parts[0] + [sep] + Join(parts[1..], sep)
  }

  /** The number of occurrences of `x` in `s`. */
  function Occurrences<T(==)>(s: seq<T>, x: T): nat {
    if s == [] then 0 else (if s[0] == x then 1 else 0) + Occurrences(s[1..], x)
  }

  /** Joining the parts with the separator gives back the string. */
  lemma {:induction false} JoinSplit<T>(s: seq<T>, sep: T)
    ensures Join(Split(s, sep), sep) == s
  {
    if s != [] {
      var rest := Split(s[1..], sep);
      JoinSplit(s[1..], sep);
      if s[0] != sep && |rest| > 1 {
        var parts := Split(s, sep);
        assert parts[1..] == rest[1..];
        assert Join(rest, sep) == rest[0] + [sep] + Join(rest[1..], sep);
      }
    }
  }

  /** There is one more part than there are separators. */
  lemma {:induction false} SplitCount<T>(s: seq<T>, sep: T)
    ensures |Split(s, sep)| == Occurrences(s, sep) + 1
  {
    if s != [] {
      SplitCount(s[1..], sep);
    }
  }

  lemma {:induction false} SplitWithoutSeparator<T>(x: seq<T>, sep: T)
    requires sep !in x
    ensures Split(x, sep) == [x]
  {
    if x != [] {
      SplitWithoutSeparator(x[1..], sep);
      assert x[0] != sep;
      assert [x[0]] + x[1..] == x;
    }
  }

  lemma {:induction false} SplitAtFirstSeparator<T>(x: seq<T>, sep: T, y: seq<T>)
    requires sep !in x
    ensures Split(x + [sep] + y, sep) == [x] + Split(y, sep)
  {
    if x == [] {
      assert x + [sep] + y == [sep] + y;
      assert ([sep] + y)[1..] == y;
    } else {
      assert (x + [sep] + y)[1..] == x[1..] + [sep] + y;
      SplitAtFirstSeparator(x[1..], sep, y);
      assert [x[0]] + x[1..] == x;
    }
  }

  /** Where part `i` starts in `Join(parts, sep)`. */
  function PartOffset<T>(parts: seq<seq<T>>, i: nat): nat
    requires i <= |parts|
  {
    if i == 0 then 0 else |parts[0]| + 1 + PartOffset(parts[1..], i - 1)
  }

  /** Every part is a contiguous stretch of the joined sequence. */
  lemma {:induction false} JoinPart<T>(parts: seq<seq<T>>, sep: T, i: nat)
    requires i < |parts|
    ensures PartOffset(parts, i) + |parts[i]| <= |Join(parts, sep)|
    ensures Join(parts, sep)[PartOffset(parts, i)..PartOffset(parts, i) + |parts[i]|] == parts[i]
  {
    var j := Join(parts, sep);
    if i == 0 {
      if |parts| > 1 {
        assert j == parts[0] + ([sep] + Join(parts[1..], sep));
      }
    } else {
      var head, rest := parts[0] + [sep], Join(parts[1..], sep);
      JoinPart(parts[1..], sep, i - 1);
      assert j == head + rest;
      var o := PartOffset(parts[1..], i - 1);
      assert j[|head| + o..|head| + o + |parts[i]|] == rest[o..o + |parts[i]|];
    }
  }

  /** Splitting undoes joining when no part contains the separator. */
  lemma {:induction false} SplitJoin<T>(parts: seq<seq<T>>, sep: T)
    requires |parts| >= 1
    requires forall i :: 0 <= i < |parts| ==> sep !in parts[i]
    ensures Split(Join(parts, sep), sep) == parts
  {
    if |parts| == 1 {
      SplitWithoutSeparator(parts[0], sep);
    } else {
      SplitJoin(parts[1..], sep);
      SplitAtFirstSeparator(parts[0], sep, Join(parts[1..], sep));
    }
  }

  // ---------------------------------------------------------------------
  // split(/\s+/)
  // ---------------------------------------------------------------------

  /** `t.split(/\s+/)`: each maximal run of whitespace separates two parts. */
  function WhitespaceSplit(t: string): (parts: seq<string>)
    ensures |parts| >= 1
    ensures forall i, j :: 0 <= i < |parts| && 0 <= j < |parts[i]| ==> !IsWhitespace(parts[i][j])
  {
    if t == [] then [[]]
    else if IsWhitespace(t[0]) then
      var u := TrimStart(t);
      assert |u| < |t|;
      [[]] + WhitespaceSplit(u)
    else
      var rest := WhitespaceSplit(t[1..]);
      [[t[0]] + rest[0]] + rest[1..]
  }

  /** The concatenation of a sequence of strings. */
  function Concat(parts: seq<string>): string {
    if parts == [] then [] else parts[0] + Concat(parts[1..])
  }

  lemma {:induction false} NonWhitespaceOfTrimStart(s: string)
    ensures NonWhitespace(TrimStart(s)) == NonWhitespace(s)
  {
    if s != [] && IsWhitespace(s[0]) {
      NonWhitespaceOfTrimStart(s[1..]);
    }
  }

  /** The parts of `split(/\s+/)`, put together, are exactly the non-whitespace characters. */
  lemma {:induction false} WhitespaceSplitKeepsText(t: string)
    ensures Concat(WhitespaceSplit(t)) == NonWhitespace(t)
  {
    if t != [] {
      if IsWhitespace(t[0]) {
        var u := TrimStart(t);
        assert |u| < |t|;
        WhitespaceSplitKeepsText(u);
        NonWhitespaceOfTrimStart(t);
        var parts := WhitespaceSplit(t);
        assert parts[1..] == WhitespaceSplit(u);
      } else {
        var rest := WhitespaceSplit(t[1..]);
        WhitespaceSplitKeepsText(t[1..]);
        var parts := WhitespaceSplit(t);
        assert parts[1..] == rest[1..];
        assert Concat(rest) == rest[0] + Concat(rest[1..]);
        assert Concat(parts) == [t[0]] + rest[0] + Concat(rest[1..]);
      }
    }
  }

  /** The first part of `split(/\s+/)` is non-empty when the string starts with a non-space. */
  lemma {:induction false} WhitespaceSplitFirstWord(t: string)
    requires t != [] && !IsWhitespace(t[0])
    ensures WhitespaceSplit(t)[0] != []
  {
  }

  // ---------------------------------------------------------------------
  // Case, search
  // ---------------------------------------------------------------------

  /** `toLowerCase` on one character, restricted to the ASCII letters. */
  function LowerChar(c: char): (r: char)
    ensures 'A' <= c <= 'Z' ==> 'a' <= r <= 'z' && r as int - c as int == 32
    ensures !('A' <= c <= 'Z') ==> r == c
  {
    if 'A' <= c <= 'Z' then (c as int + 32) as char else c
  }

  /** `s.toLowerCase()` for ASCII letters. */
  function Lower(s: string): (r: string)
    ensures |r| == |s|
    ensures forall i :: 0 <= i < |s| ==> r[i] == LowerChar(s[i])
  {
    seq(|s|, i requires 0 <= i < |s| => LowerChar(s[i]))
  }

  /** Lower-casing a word gives a word without upper-case letters. */
  lemma LowerWord(w: string)
    requires forall i :: 0 <= i < |w| ==> !IsWhitespace(w[i])
    ensures forall i :: 0 <= i < |w| ==> !IsWhitespace(Lower(w)[i]) && !('A' <= Lower(w)[i] <= 'Z')
  {
    forall i | 0 <= i < |w| ensures !IsWhitespace(Lower(w)[i]) && !('A' <= Lower(w)[i] <= 'Z') {
      var c := w[i];
      if 'A' <= c <= 'Z' {
        assert 'a' <= Lower(w)[i] <= 'z';
      } else {
        assert Lower(w)[i] == c;
      }
    }
  }

  lemma {:induction false} LowerIdempotent(s: string)
    ensures Lower(Lower(s)) == Lower(s)
  {
    assert forall i :: 0 <= i < |s| ==> LowerChar(LowerChar(s[i])) == LowerChar(s[i]);
  }

  /** `s.startsWith(p)`. */
  predicate StartsWith<T(==)>(s: seq<T>, p: seq<T>) {
    |p| <= |s| && s[..|p|] == p
  }

  /** `s.endsWith(p)`. */
  predicate EndsWith<T(==)>(s: seq<T>, p: seq<T>) {
    |p| <= |s| && s[|s| - |p|..] == p
  }

  /** `s.includes(p)`. */
  predicate Contains<T(==)>(s: seq<T>, p: seq<T>) {
    StartsWith(s, p) || (s != [] && Contains(s[1..], p))
  }

  // ---------------------------------------------------------------------
  // Decimal numerals
  // ---------------------------------------------------------------------

  predicate IsDigit(c: char) {
    '0' <= c <= '9'
  }

  function DigitChar(d: nat): (c: char)
    requires d < 10
    ensures IsDigit(c) && c as int - '0' as int == d
  {
    ('0' as int + d) as char
  }

  /** The value of a string of decimal digits. */
  function DecimalValue(s: string): nat
    requires forall i :: 0 <= i < |s| ==> IsDigit(s[i])
  {
    if s == [] then 0
    else
      assert IsDigit(s[|s| - 1]);
      10 * DecimalValue(s[..|s| - 1]) + (s[|s| - 1] as int - '0' as int)
  }

  /** `String(n)` for a non-negative integer: digits without leading zeros whose value is `n`. */
  function NatToDecimal(n: nat): (r: string)
    ensures |r| >= 1
    ensures forall i :: 0 <= i < |r| ==> IsDigit(r[i])
    ensures DecimalValue(r) == n
    ensures r[0] == '0' ==> n == 0
    ensures n < 10 <==> |r| == 1
    ensures 10 <= n < 100 ==> |r| == 2
  {
    if n < 10 then [DigitChar(n)]
    else
      var r := NatToDecimal(n / 10) + [DigitChar(n % 10)];
      assert r[..|r| - 1] == NatToDecimal(n / 10);
      r
  }

  /** `String(n)` for an integer: a minus sign for negative values. */
  function IntToDecimal(n: int): (r: string)
    ensures |r| >= 1
    ensures n < 0 <==> r[0] == '-'
  {
    if n < 0 then "-" + NatToDecimal(-n) else NatToDecimal(n)
  }

  // ---------------------------------------------------------------------
  // UTF-16 code units
  // ---------------------------------------------------------------------

  /** A JavaScript string is a sequence of 16-bit code units; `length`,
      indexing and `fromCharCode` work on those. */
  type CodeUnit = x: int | 0 <= x < 0x1_0000
  type Text = seq<CodeUnit>

  /** The code units of one character: the character itself up to 0xFFFF,
      a high and a low surrogate above it. */
  function CharUnits(c: char): (r: Text)
    ensures c as int < 0x1_0000 ==> r == [c as int]
    ensures c as int >= 0x1_0000 ==> |r| == 2 && 0xD800 <= r[0] < 0xDC00 && 0xDC00 <= r[1] < 0xE000
    ensures c as int >= 0x1_0000 ==> 0x1_0000 + (r[0] as int - 0xD800) * 0x400 + (r[1] as int - 0xDC00) == c as int
  {
    if c as int < 0x1_0000 then [c as int]
    else
      var v := c as int - 0x1_0000;
      [0xD800 + v / 0x400, 0xDC00 + v % 0x400]
  }

  /** The UTF-16 code units of a string, character by character. */
  function Utf16(s: string): (r: Text)
    ensures |s| <= |r| <= 2 * |s|
    ensures (forall i :: 0 <= i < |s| ==> s[i] as int < 0x1_0000) ==> |r| == |s|
  {
    if s == [] then [] else CharUnits(s[0]) + Utf16(s[1..])
  }

  lemma {:induction false} Utf16Concat(a: string, b: string)
    ensures Utf16(a + b) == Utf16(a) + Utf16(b)
  {
    if a != [] {
      assert (a + b)[1..] == a[1..] + b;
      Utf16Concat(a[1..], b);
    } else {
      assert a + b == b;
    }
  }

  /** A character outside the Basic Multilingual Plane is two code units long. */
  lemma AstralLength()
    ensures Utf16("\U{1F600}") == [0xD83D, 0xDE00]
    ensures |Utf16("\U{1F600}")| == 2 && |"\U{1F600}"| == 1
  {
    assert "\U{1F600}"[1..] == [];
  }

  /** Whitespace characters are one code unit each, so removing them shortens
      the code units by the number of whitespace characters. */
  lemma {:induction false} NonWhitespaceUnits(s: string)
    ensures |Utf16(s)| - |Utf16(NonWhitespace(s))| == |s| - |NonWhitespace(s)|
  {
    if s != [] {
      NonWhitespaceUnits(s[1..]);
      var head := if IsWhitespace(s[0]) then [] else [s[0]];
      Utf16Concat(head, NonWhitespace(s[1..]));
      assert head == [] || head[1..] == [];
    }
  }
}
