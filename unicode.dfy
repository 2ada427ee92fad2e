/**
 * Escaping and unescaping of non-ASCII text: `chineseToUnicode` writes every
 * UTF-16 code unit above 127 as `\uXXXX` or `U+XXXX`, `unicodeToChinese`
 * reads both forms back, and the batch variants work line by line.
 * A JavaScript string is a sequence of 16-bit code units.
 */
module Unicode {
  import opened JsStrings

  const Backslash: CodeUnit := 0x5C
  const SmallU: CodeUnit := 0x75
  const CapitalU: CodeUnit := 0x55
  const Plus: CodeUnit := 0x2B
  const Newline: CodeUnit := 0x0A

  datatype Format = Slash | PlusSign

  // ---------------------------------------------------------------------
  // Hexadecimal digits
  // ---------------------------------------------------------------------

  /** `[0-9a-fA-F]`. */
  predicate IsHex(u: CodeUnit) {
    0x30 <= u <= 0x39 || 0x41 <= u <= 0x46 || 0x61 <= u <= 0x66
  }

  function HexDigitValue(u: CodeUnit): (d: nat)
    requires IsHex(u)
    ensures d < 16
  {
    if u <= 0x39 then u - 0x30 else if u <= 0x46 then u - 0x41 + 10 else u - 0x61 + 10
  }

  predicate AllHex(s: Text) {
    forall i :: 0 <= i < |s| ==> IsHex(s[i])
  }

  /** `parseInt(hex, 16)` of a sequence of hex digits. */
  function HexValue(s: Text): nat
    requires AllHex(s)
  {
    if s == [] then 0 else HexValue(s[..|s| - 1]) * 16 + HexDigitValue(s[|s| - 1])
  }

  /** The uppercase digit of `toString(16).toUpperCase()`. */
  function UpperHexDigit(d: nat): (u: CodeUnit)
    requires d < 16
    ensures IsHex(u) && HexDigitValue(u) == d
    ensures !(0x61 <= u <= 0x66)
  {
    if d < 10 then 0x30 + d else 0x41 + d - 10
  }

  /** `code.toString(16).toUpperCase().padStart(4, '0')` for a code unit. */
  function Hex4(c: CodeUnit): (r: Text)
    ensures |r| == 4 && AllHex(r)
    ensures forall i :: 0 <= i < 4 ==> !(0x61 <= r[i] <= 0x66)
  {
    [UpperHexDigit(c / 16 / 16 / 16), UpperHexDigit(c / 16 / 16 % 16), UpperHexDigit(c / 16 % 16), UpperHexDigit(c % 16)]
  }

  /** The value of four hex digits, spelled out. */
  lemma HexValueOf4(h: Text)
    requires |h| == 4 && AllHex(h)
    ensures HexValue(h) == ((HexDigitValue(h[0]) * 16 + HexDigitValue(h[1])) * 16 + HexDigitValue(h[2])) * 16 + HexDigitValue(h[3])
    ensures HexValue(h) < 0x1_0000
  {
    assert h[..1][..0] == [];
    assert HexValue(h[..1]) == HexDigitValue(h[0]);
    assert h[..2][..1] == h[..1];
    assert HexValue(h[..2]) == HexValue(h[..1]) * 16 + HexDigitValue(h[1]);
    assert h[..3][..2] == h[..2];
    assert HexValue(h[..3]) == HexValue(h[..2]) * 16 + HexDigitValue(h[2]);
    assert h[..4] == h;
  }

  /** The four digits read back give the code unit. */
  lemma Hex4Value(c: CodeUnit)
    ensures HexValue(Hex4(c)) == c
  {
    var a := c / 16;
    var b := a / 16;
    HexValueOf4(Hex4(c));
    assert b / 16 * 16 + b % 16 == b;
    assert a / 16 * 16 + a % 16 == a;
    assert c / 16 * 16 + c % 16 == c;
  }

  // ---------------------------------------------------------------------
  // chineseToUnicode
  // ---------------------------------------------------------------------

  /** The escape of one code unit. */
  function EncodeUnit(c: CodeUnit, format: Format): (r: Text)
    ensures c <= 127 ==> r == [c]
    ensures c > 127 ==> (|r| == 6 && r[2..] == Hex4(c)
      && r[..2] == (if format == Slash then [Backslash, SmallU] else [CapitalU, Plus]))
    ensures forall i :: 0 <= i < |r| ==> r[i] <= 127
  {
    if c > 127 then
      (if format == Slash then [Backslash, SmallU] else [CapitalU, Plus]) + Hex4(c)
    else [c]
  }

  /** The escape of a whole text, one code unit after the other. */
  function Encode(s: Text, format: Format): (r: Text)
    ensures forall i :: 0 <= i < |r| ==> r[i] <= 127
    ensures |s| <= |r| <= 6 * |s|
  {
    if s == [] then [] else
      var head, tail := EncodeUnit(s[0], format), Encode(s[1..], format);
      assert forall i :: |head| <= i < |head + tail| ==> (head + tail)[i] == tail[i - |head|];
      head + tail
  }

  lemma {:induction false} EncodeSnoc(s: Text, c: CodeUnit, format: Format)
    ensures Encode(s + [c], format) == Encode(s, format) + EncodeUnit(c, format)
  {
    if s == [] {
      assert [c][1..] == [];
    } else {
      assert (s + [c])[1..] == s[1..] + [c];
      EncodeSnoc(s[1..], c, format);
    }
  }

  /** `chineseToUnicode(input, format)`: a loop appending each code unit's escape. */
  method ChineseToUnicode(input: Text, format: Format) returns (result: Text)
    ensures result == Encode(input, format)
    ensures forall i :: 0 <= i < |result| ==> result[i] <= 127
  {
    result := [];
    for i := 0 to |input|
      invariant result == Encode(input[..i], format)
    {
      assert input[..i + 1] == input[..i] + [input[i]];
      EncodeSnoc(input[..i], input[i], format);
      result := result + EncodeUnit(input[i], format);
    }
    assert input[..|input|] == input;
  }

  /** A text without code units above 127 is left as it is. */
  lemma {:induction false} EncodeAscii(s: Text, format: Format)
    requires forall i :: 0 <= i < |s| ==> s[i] <= 127
    ensures Encode(s, format) == s
  {
    if s != [] {
      EncodeAscii(s[1..], format);
      assert [s[0]] + s[1..] == s;
    }
  }

  // ---------------------------------------------------------------------
  // unicodeToChinese
  // ---------------------------------------------------------------------

  /** `\u` followed by four hex digits starts at the front of `s`. */
  predicate SlashEscapeAtFront(s: Text) {
    |s| >= 6 && s[0] == Backslash && s[1] == SmallU && AllHex(s[2..6])
  }

  /** `s.replace(/\\u([0-9a-fA-F]{4})/g, ...)`: each match becomes its code
      unit and the scan resumes after it; everything else is copied. */
  function DecodeSlash(s: Text): (r: Text)
    ensures |r| <= |s|
    ensures |r| == |s| ==> r == s
    decreases |s|
  {
    if s == [] then []
    else if SlashEscapeAtFront(s) then
      assert HexValue(s[2..6]) < 0x1_0000 by { HexValueOf4(s[2..6]); }
      [HexValue(s[2..6])] + DecodeSlash(s[6..])
    else
      assert [s[0]] + s[1..] == s;
      [s[0]] + DecodeSlash(s[1..])
  }

  /** How many hex digits, at most `limit`, `s` starts with: the greedy `{4,6}`. */
  function HexRun(s: Text, limit: nat): (n: nat)
    ensures n <= limit && n <= |s| && AllHex(s[..n])
    ensures n < limit && n < |s| ==> !IsHex(s[n])
  {
    if limit == 0 || s == [] || !IsHex(s[0]) then 0
    else
      var n := 1 + HexRun(s[1..], limit - 1);
      assert s[..n] == [s[0]] + s[1..][..n - 1];
      n
  }

  /** `U+` or `u+` (the `i` flag) followed by at least four hex digits starts at the front of `s`. */
  predicate PlusEscapeAtFront(s: Text) {
    |s| >= 2 && (s[0] == CapitalU || s[0] == SmallU) && s[1] == Plus && HexRun(s[2..], 6) >= 4
  }

  /** `s.replace(/U\+([0-9a-fA-F]{4,6})/gi, ...)`: `fromCharCode` keeps the low 16 bits of the value. */
  function DecodePlus(s: Text): (r: Text)
    ensures |r| <= |s|
    ensures |r| == |s| ==> r == s
    decreases |s|
  {
    if s == [] then []
    else if PlusEscapeAtFront(s) then
      var n := HexRun(s[2..], 6);
      [HexValue(s[2..][..n]) % 0x1_0000] + DecodePlus(s[2 + n..])
    else
      assert [s[0]] + s[1..] == s;
      [s[0]] + DecodePlus(s[1..])
  }

  /** `unicodeToChinese(input)`: the slash pass, then the plus pass over its result. */
  function UnicodeToChinese(input: Text): (r: Text)
    ensures |r| <= |input|
    ensures |r| == |input| ==> r == input
    ensures NoSlashMarker(input) && NoPlusMarker(input) ==> r == input
  {
    assert NoSlashMarker(input) && NoPlusMarker(input) ==> DecodePlus(DecodeSlash(input)) == input by {
      if NoSlashMarker(input) && NoPlusMarker(input) {
        DecodeSlashLeavesPlainText(input);
        DecodePlusLeavesPlainText(input);
      }
    }
    DecodePlus(DecodeSlash(input))
  }

  /** No `\u` anywhere. */
  predicate NoSlashMarker(s: Text) {
    forall i :: 0 <= i < |s| - 1 ==> !(s[i] == Backslash && s[i + 1] == SmallU)
  }

  /** No `U+` or `u+` anywhere. */
  predicate NoPlusMarker(s: Text) {
    forall i :: 0 <= i < |s| - 1 ==> !((s[i] == CapitalU || s[i] == SmallU) && s[i + 1] == Plus)
  }

  /** Text without `\u` passes the slash pass unchanged. */
  lemma {:induction false} DecodeSlashLeavesPlainText(s: Text)
    requires NoSlashMarker(s)
    ensures DecodeSlash(s) == s
  {
    if s != [] {
      assert !SlashEscapeAtFront(s) by {
        if |s| >= 2 { assert !(s[0] == Backslash && s[1] == SmallU); }
      }
      assert NoSlashMarker(s[1..]) by {
        forall i | 0 <= i < |s[1..]| - 1 ensures !(s[1..][i] == Backslash && s[1..][i + 1] == SmallU) {
          assert s[1..][i] == s[i + 1] && s[1..][i + 1] == s[i + 2];
        }
      }
      DecodeSlashLeavesPlainText(s[1..]);
      assert [s[0]] + s[1..] == s;
    }
  }

  /** Text without `U+` or `u+` passes the plus pass unchanged. */
  lemma {:induction false} DecodePlusLeavesPlainText(s: Text)
    requires NoPlusMarker(s)
    ensures DecodePlus(s) == s
  {
    if s != [] {
      assert !PlusEscapeAtFront(s) by {
        if |s| >= 2 { assert !((s[0] == CapitalU || s[0] == SmallU) && s[1] == Plus); }
      }
      assert NoPlusMarker(s[1..]) by {
        forall i | 0 <= i < |s[1..]| - 1
          ensures !((s[1..][i] == CapitalU || s[1..][i] == SmallU) && s[1..][i + 1] == Plus)
        {
          assert s[1..][i] == s[i + 1] && s[1..][i + 1] == s[i + 2];
        }
      }
      DecodePlusLeavesPlainText(s[1..]);
      assert [s[0]] + s[1..] == s;
    }
  }

  /** The slash pass undoes the slash escapes of a text without backslashes. */
  lemma {:induction false} DecodeSlashOfEncode(s: Text)
    requires Backslash !in s
    ensures DecodeSlash(Encode(s, Slash)) == s
  {
    if s != [] {
      var c := s[0];
      var head, tail := EncodeUnit(c, Slash), Encode(s[1..], Slash);
      assert Encode(s, Slash) == head + tail;
      assert Backslash !in s[1..] by {
        forall i | 0 <= i < |s[1..]| ensures s[1..][i] != Backslash {
          assert s[1..][i] == s[i + 1];
        }
      }
      DecodeSlashOfEncode(s[1..]);
      if c > 127 {
        var t := head + tail;
        assert t[..6] == head && t[6..] == tail;
        assert t[2..6] == Hex4(c);
        assert SlashEscapeAtFront(t);
        Hex4Value(c);
      } else {
        assert (head + tail)[0] == c && (head + tail)[1..] == tail;
      }
      assert [c] + s[1..] == s;
    }
  }

  /** Round trip of the slash form for text that holds no backslash and no `U+` or `u+`. */
  lemma SlashRoundTrip(s: Text)
    requires Backslash !in s && NoPlusMarker(s)
    ensures UnicodeToChinese(Encode(s, Slash)) == s
  {
    DecodeSlashOfEncode(s);
    DecodePlusLeavesPlainText(s);
  }

  /** A non-ASCII code unit is followed by a hex digit. */
  predicate EscapeFollowedByHex(s: Text) {
    exists i :: 0 <= i < |s| - 1 && s[i] > 127 && IsHex(s[i + 1])
  }

  /** Escapes hold no backslash, so the slash pass leaves the plus form alone. */
  lemma {:induction false} PlusFormHasNoBackslash(s: Text)
    requires Backslash !in s
    ensures Backslash !in Encode(s, PlusSign)
  {
    if s != [] {
      assert Backslash !in s[1..] by {
        forall i | 0 <= i < |s[1..]| ensures s[1..][i] != Backslash {
          assert s[1..][i] == s[i + 1];
        }
      }
      PlusFormHasNoBackslash(s[1..]);
    }
  }

  lemma NoBackslashNoSlashMarker(s: Text)
    requires Backslash !in s
    ensures NoSlashMarker(s)
  {
    forall i | 0 <= i < |s| - 1 ensures !(s[i] == Backslash && s[i + 1] == SmallU) {
      assert s[i] in s;
    }
  }

  /** The first code unit of an encoded text is not a hex digit, unless it
      is the text's own ASCII first unit. */
  lemma EncodeFront(s: Text, format: Format)
    requires s != []
    ensures Encode(s, format)[0] == (if s[0] > 127 then (if format == Slash then Backslash else CapitalU) else s[0])
  {
    assert Encode(s, format) == EncodeUnit(s[0], format) + Encode(s[1..], format);
  }

  /** The plus pass undoes the plus escapes unless an escape is followed by a hex digit. */
  lemma {:induction false} DecodePlusOfEncode(s: Text)
    requires NoPlusMarker(s) && !EscapeFollowedByHex(s)
    ensures DecodePlus(Encode(s, PlusSign)) == s
  {
    if s != [] {
      var c, rest := s[0], s[1..];
      var tail := Encode(rest, PlusSign);
      assert Encode(s, PlusSign) == EncodeUnit(c, PlusSign) + tail;
      assert NoPlusMarker(rest) by {
        forall i | 0 <= i < |rest| - 1
          ensures !((rest[i] == CapitalU || rest[i] == SmallU) && rest[i + 1] == Plus)
        {
          assert rest[i] == s[i + 1] && rest[i + 1] == s[i + 2];
        }
      }
      assert !EscapeFollowedByHex(rest) by {
        forall i | 0 <= i < |rest| - 1 ensures !(rest[i] > 127 && IsHex(rest[i + 1])) {
          assert rest[i] == s[i + 1] && rest[i + 1] == s[i + 2];
        }
      }
      DecodePlusOfEncode(rest);
      if rest != [] {
        EncodeFront(rest, PlusSign);
      }
      if c > 127 {
        assert tail != [] ==> !IsHex(tail[0]) by {
          if rest != [] && rest[0] <= 127 {
            assert !(s[0] > 127 && IsHex(s[1]));
          }
        }
        PlusStepEscape(c, tail);
      } else {
        assert !((c == CapitalU || c == SmallU) && tail != [] && tail[0] == Plus) by {
          if rest != [] && rest[0] <= 127 {
            assert !((s[0] == CapitalU || s[0] == SmallU) && s[1] == Plus);
          }
        }
        PlusStepCopy(c, tail);
      }
      assert [c] + rest == s;
    }
  }

  /** A plus escape not followed by a hex digit decodes to its code unit. */
  lemma PlusStepEscape(c: CodeUnit, tail: Text)
    requires c > 127 && (tail != [] ==> !IsHex(tail[0]))
    ensures DecodePlus(EncodeUnit(c, PlusSign) + tail) == [c] + DecodePlus(tail)
  {
    var h := Hex4(c);
    var t := [CapitalU, Plus] + h + tail;
    assert EncodeUnit(c, PlusSign) + tail == t;
    var digits := t[2..];
    assert digits == h + tail;
    HexRunOfDigits(h, tail);
    assert t[2..6] == digits[..4] == h;
    assert t[6..] == tail;
    Hex4Value(c);
    DecodePlusEscape(t, c);
  }

  /** A `U+` escape with exactly four digits decodes to their value and the decoding goes on after them. */
  lemma DecodePlusEscape(t: Text, c: CodeUnit)
    requires |t| >= 6 && t[0] == CapitalU && t[1] == Plus && HexRun(t[2..], 6) == 4
    requires AllHex(t[2..6]) && HexValue(t[2..6]) == c
    ensures DecodePlus(t) == [c] + DecodePlus(t[6..])
  {
    var n := HexRun(t[2..], 6);
    var u, rest := t[2..][..n], t[2 + n..];
    assert u == t[2..6] && rest == t[6..];
    assert HexValue(u) % 0x1_0000 == c;
    assert PlusEscapeAtFront(t);
    assert DecodePlus(t) == [HexValue(u) % 0x1_0000] + DecodePlus(rest);
  }

  /** An ASCII unit that does not start `U+` or `u+` is copied. */
  lemma PlusStepCopy(c: CodeUnit, tail: Text)
    requires c <= 127 && !((c == CapitalU || c == SmallU) && tail != [] && tail[0] == Plus)
    ensures DecodePlus(EncodeUnit(c, PlusSign) + tail) == [c] + DecodePlus(tail)
  {
    var t := [c] + tail;
    assert t[1..] == tail;
    assert !PlusEscapeAtFront(t) by {
      if |t| >= 2 { assert t[1] == tail[0]; }
    }
  }

  /** Four hex digits followed by a non-hex unit (or nothing) make a run of four. */
  lemma HexRunOfDigits(d: Text, tail: Text)
    requires |d| == 4 && AllHex(d)
    requires tail != [] ==> !IsHex(tail[0])
    ensures HexRun(d + tail, 6) == 4
  {
    var s := d + tail;
    assert s[1..][1..][1..][1..] == tail;
  }

  /** Round trip of the plus form, for text with no backslash, no `U+` or `u+`,
      and no non-ASCII unit followed by a hex digit. */
  lemma PlusRoundTrip(s: Text)
    requires Backslash !in s && NoPlusMarker(s) && !EscapeFollowedByHex(s)
    ensures UnicodeToChinese(Encode(s, PlusSign)) == s
  {
    PlusFormHasNoBackslash(s);
    NoBackslashNoSlashMarker(Encode(s, PlusSign));
    DecodeSlashLeavesPlainText(Encode(s, PlusSign));
    DecodePlusOfEncode(s);
  }

  /** The plus form is not reversible in general: `中1` becomes `U+4E2D1`,
      whose five digits decode to the single unit 0xE2D1. */
  lemma PlusFormAmbiguous()
    ensures Encode([0x4E2D, 0x31], PlusSign) == [CapitalU, Plus, 0x34, 0x45, 0x32, 0x44, 0x31]
    ensures UnicodeToChinese(Encode([0x4E2D, 0x31], PlusSign)) == [0xE2D1]
  {
    EncodeHanOne();
    DecodeFiveDigits();
  }

  /** `中1` in the plus form. */
  lemma EncodeHanOne()
    ensures Encode([0x4E2D, 0x31], PlusSign) == [CapitalU, Plus, 0x34, 0x45, 0x32, 0x44, 0x31]
  {
    assert Hex4(0x4E2D) == [0x34, 0x45, 0x32, 0x44];
    assert Encode([0x31], PlusSign) == [0x31] by {
      EncodeAscii([0x31], PlusSign);
    }
    assert [0x4E2D, 0x31][1..] == [0x31];
    assert Encode([0x4E2D, 0x31], PlusSign) == EncodeUnit(0x4E2D, PlusSign) + Encode([0x31], PlusSign);
  }

  /** `U+4E2D1` decodes to the low 16 bits of 0x4E2D1. */
  lemma DecodeFiveDigits()
    ensures UnicodeToChinese([CapitalU, Plus, 0x34, 0x45, 0x32, 0x44, 0x31]) == [0xE2D1]
  {
    var e := [CapitalU, Plus, 0x34, 0x45, 0x32, 0x44, 0x31];
    NoBackslashNoSlashMarker(e);
    DecodeSlashLeavesPlainText(e);
    DecodePlusFiveDigits();
  }

  /** The plus pass reads the five digits `4E2D1` as one escape. */
  lemma DecodePlusFiveDigits()
    ensures DecodePlus([CapitalU, Plus, 0x34, 0x45, 0x32, 0x44, 0x31]) == [0xE2D1]
  {
    var e := [CapitalU, Plus, 0x34, 0x45, 0x32, 0x44, 0x31];
    var digits := e[2..];
    assert HexRun(digits, 6) == 5 by {
      assert digits[1..][1..][1..][1..][1..] == [];
    }
    assert HexValue(digits[..5]) == 0x4E2D1 by {
      var h := digits[..5];
      assert h[..4] == [0x34, 0x45, 0x32, 0x44];
      HexValueOf4(h[..4]);
    }
    assert PlusEscapeAtFront(e);
    assert e[2 + 5..] == [];
    assert HexValue(digits[..5]) % 0x1_0000 == 0xE2D1;
  }

  // ---------------------------------------------------------------------
  // Batch conversion
  // ---------------------------------------------------------------------

  function MapEncode(lines: seq<Text>, format: Format): (r: seq<Text>)
    ensures |r| == |lines|
    ensures forall i :: 0 <= i < |r| ==> r[i] == Encode(lines[i], format)
  {
    if lines == [] then [] else [Encode(lines[0], format)] + MapEncode(lines[1..], format)
  }

  function MapDecode(lines: seq<Text>): (r: seq<Text>)
    ensures |r| == |lines|
    ensures forall i :: 0 <= i < |r| ==> r[i] == UnicodeToChinese(lines[i])
  {
    if lines == [] then [] else [UnicodeToChinese(lines[0])] + MapDecode(lines[1..])
  }

  /** `batchChineseToUnicode(input, format)`. */
  function BatchChineseToUnicode(input: Text, format: Format): (r: Text)
    ensures Split(r, Newline) == MapEncode(Split(input, Newline), format)
    ensures |Split(r, Newline)| == |Split(input, Newline)|
  {
    var encoded := MapEncode(Split(input, Newline), format);
    assert Split(Join(encoded, Newline), Newline) == encoded by {
      forall i | 0 <= i < |encoded| ensures Newline !in encoded[i] {
        EncodeKeepsNewlines(Split(input, Newline)[i], format);
      }
      SplitJoin(encoded, Newline);
    }
    Join(encoded, Newline)
  }

  /** `batchUnicodeToChinese(input)`. */
  function BatchUnicodeToChinese(input: Text): (r: Text)
    ensures Newline !in input ==> r == UnicodeToChinese(input)
  {
    assert Newline !in input ==> Split(input, Newline) == [input] by {
      if Newline !in input { SplitWithoutSeparator(input, Newline); }
    }
    Join(MapDecode(Split(input, Newline)), Newline)
  }

  /** Escapes introduce no newline. */
  lemma {:induction false} EncodeKeepsNewlines(s: Text, format: Format)
    requires Newline !in s
    ensures Newline !in Encode(s, format)
  {
    if s != [] {
      assert Newline !in s[1..] by {
        forall i | 0 <= i < |s[1..]| ensures s[1..][i] != Newline {
          assert s[1..][i] == s[i + 1];
        }
      }
      EncodeKeepsNewlines(s[1..], format);
    }
  }

  /** The batch decoder does not keep the line count: the one line `\u000A` decodes to a newline. */
  lemma BatchDecodeSplitsLines()
    ensures Split([Backslash, SmallU, 0x30, 0x30, 0x30, 0x41], Newline) == [[Backslash, SmallU, 0x30, 0x30, 0x30, 0x41]]
    ensures BatchUnicodeToChinese([Backslash, SmallU, 0x30, 0x30, 0x30, 0x41]) == [Newline]
    ensures |Split(BatchUnicodeToChinese([Backslash, SmallU, 0x30, 0x30, 0x30, 0x41]), Newline)| == 2
  {
    var line := [Backslash, SmallU, 0x30, 0x30, 0x30, 0x41];
    SplitWithoutSeparator(line, Newline);
    HexValueOf4(line[2..6]);
    assert SlashEscapeAtFront(line);
    assert DecodeSlash(line) == [Newline] + DecodeSlash([]);
    assert DecodePlus([Newline]) == [Newline] + DecodePlus([]);
    assert UnicodeToChinese(line) == [Newline];
    assert MapDecode([line]) == [UnicodeToChinese(line)] + MapDecode([]);
    assert Split([Newline], Newline) == [[]] + Split([], Newline);
  }

  /** The batch round trip of the slash form, for text that holds no backslash and no `U+` or `u+`. */
  lemma BatchSlashRoundTrip(input: Text)
    requires Backslash !in input && NoPlusMarker(input)
    ensures BatchUnicodeToChinese(BatchChineseToUnicode(input, Slash)) == input
  {
    var lines := Split(input, Newline);
    var encoded := MapEncode(lines, Slash);
    forall i | 0 <= i < |lines| ensures UnicodeToChinese(encoded[i]) == lines[i] {
      LineOfPlainText(input, lines, i);
      SlashRoundTrip(lines[i]);
    }
    assert MapDecode(encoded) == lines;
    JoinSplit(input, Newline);
  }

  /** A line of a text without backslash, `U+` or `u+` has none either. */
  lemma LineOfPlainText(input: Text, lines: seq<Text>, i: nat)
    requires Backslash !in input && NoPlusMarker(input)
    requires lines == Split(input, Newline) && i < |lines|
    ensures Backslash !in lines[i] && NoPlusMarker(lines[i])
  {
    JoinSplit(input, Newline);
    JoinPart(lines, Newline, i);
    var a := PartOffset(lines, i);
    var line := input[a..a + |lines[i]|];
    assert line == lines[i];
    forall k | 0 <= k < |line| ensures line[k] != Backslash {
      assert line[k] == input[a + k];
    }
    forall k | 0 <= k < |line| - 1
      ensures !((line[k] == CapitalU || line[k] == SmallU) && line[k + 1] == Plus)
    {
      assert line[k] == input[a + k] && line[k + 1] == input[a + k + 1];
    }
  }
}
