/**
 * The line tools of the text panel: `removeDuplicates`, `sortLines` and
 * `getTextStats`. Lines are the parts of `input.split('\n')`.
 */
module TextTools {
  import opened JsStrings
  import opened JsArrays
  import opened Wrappers

  // ---------------------------------------------------------------------
  // removeDuplicates
  // ---------------------------------------------------------------------

  /** Each line at its first occurrence, in input order. */
  function FirstOccurrences(lines: seq<string>): (r: seq<string>)
    ensures Distinct(r)
    ensures forall x :: x in r <==> x in lines
    ensures |r| <= |lines|
    ensures |lines| > 0 ==> |r| > 0
  {
    if lines == [] then []
    else
      var seen := FirstOccurrences(lines[..|lines| - 1]);
      var line := lines[|lines| - 1];
      assert forall x :: x in lines <==> x in lines[..|lines| - 1] || x == line by {
        assert lines == lines[..|lines| - 1] + [line];
      }
      if line in seen then seen else seen + [line]
  }

  /** The index of the first occurrence of `x` in `s`. */
  function FirstIndex<T(==)>(s: seq<T>, x: T): (k: nat)
    requires x in s
    ensures k < |s| && s[k] == x && x !in s[..k]
  {
    if s[0] == x then 0
    else
      var k := 1 + FirstIndex(s[1..], x);
      assert s[..k] == [s[0]] + s[1..][..k - 1];
      k
  }

  lemma {:induction false} FirstIndexInPrefix<T>(s: seq<T>, m: nat, x: T)
    requires m <= |s| && x in s[..m]
    ensures FirstIndex(s, x) == FirstIndex(s[..m], x)
  {
    if s[0] != x {
      assert s[..m][1..] == s[1..][..m - 1];
      FirstIndexInPrefix(s[1..], m - 1, x);
    }
  }

  /** The output keeps the order of first occurrences. */
  lemma {:induction false} FirstOccurrencesOrder(lines: seq<string>)
    ensures forall i, j :: 0 <= i < j < |FirstOccurrences(lines)| ==>
      FirstIndex(lines, FirstOccurrences(lines)[i]) < FirstIndex(lines, FirstOccurrences(lines)[j])
  {
    if lines != [] {
      var n := |lines| - 1;
      var prefix := lines[..n];
      var seen := FirstOccurrences(prefix);
      var r := FirstOccurrences(lines);
      FirstOccurrencesOrder(prefix);
      forall x | x in seen ensures FirstIndex(lines, x) == FirstIndex(prefix, x) < n {
        FirstIndexInPrefix(lines, n, x);
      }
      forall i, j | 0 <= i < j < |r| ensures FirstIndex(lines, r[i]) < FirstIndex(lines, r[j]) {
        assert r[i] == seen[i];
        if j < |seen| {
          assert r[j] == seen[j];
        } else {
          assert r[j] == lines[n] && lines[n] !in prefix;
          assert forall k :: 0 <= k < n ==> lines[k] == prefix[k];
          assert FirstIndex(lines, r[j]) == n;
        }
      }
    }
  }

  /** De-duplicating distinct lines changes nothing. */
  lemma {:induction false} FirstOccurrencesOfDistinct(lines: seq<string>)
    requires Distinct(lines)
    ensures FirstOccurrences(lines) == lines
  {
    if lines != [] {
      var prefix := lines[..|lines| - 1];
      FirstOccurrencesOfDistinct(prefix);
      assert lines[|lines| - 1] !in prefix;
      assert prefix + [lines[|lines| - 1]] == lines;
    }
  }

  /** `removeDuplicates` as a function of the text: its lines are the first
      occurrences of the input's lines. */
  function DedupText(input: string): (r: string)
    ensures Split(r, '\n') == FirstOccurrences(Split(input, '\n'))
    ensures Distinct(Split(r, '\n'))
    ensures forall x :: x in Split(r, '\n') <==> x in Split(input, '\n')
  {
    var lines := Split(input, '\n');
    var kept := FirstOccurrences(lines);
    assert Split(Join(kept, '\n'), '\n') == kept by {
      forall i | 0 <= i < |kept| ensures '\n' !in kept[i] {
        assert kept[i] in lines;
      }
      SplitJoin(kept, '\n');
    }
    Join(kept, '\n')
  }

  /** De-duplicating twice is de-duplicating once. */
  lemma DedupTextIdempotent(input: string)
    ensures DedupText(DedupText(input)) == DedupText(input)
  {
    FirstOccurrencesOfDistinct(FirstOccurrences(Split(input, '\n')));
  }

  /** `removeDuplicates(input)`: a loop over the lines with a set of lines already seen. */
  method RemoveDuplicates(input: string) returns (output: string)
    ensures output == DedupText(input)
    ensures Distinct(Split(output, '\n'))
    ensures forall x :: x in Split(output, '\n') <==> x in Split(input, '\n')
  {
    var lines := Split(input, '\n');
    var seen: set<string> := {};
    var result: seq<string> := [];
    for i := 0 to |lines|
      invariant result == FirstOccurrences(lines[..i])
      invariant seen == set x | x in result
    {
      var line := lines[i];
      assert lines[..i + 1][..i] == lines[..i];
      if line !in seen {
        seen := seen + {line};
        result := result + [line];
      }
    }
    assert lines[..|lines|] == lines;
    output := Join(result, '\n');
  }

  // ---------------------------------------------------------------------
  // sortLines
  // ---------------------------------------------------------------------

  /** The filter's test, `line.trim() !== ''`. */
  predicate Kept(line: string) {
    Trim(line) != []
  }

  /** The comparator handed to `sort`: `descending` negates the comparison. */
  function LineOrder(compare: (string, string) -> int, descending: bool): (string, string) -> int {
    (x, y) => if descending then -compare(x, y) else compare(x, y)
  }

  /** Negating a consistent comparator gives a consistent comparator. */
  lemma LineOrderIsComparator(compare: (string, string) -> int, descending: bool)
    requires IsComparator(compare)
    ensures IsComparator(LineOrder(compare, descending))
  {
    var order := LineOrder(compare, descending);
    forall x, y, z | order(x, y) <= 0 && order(y, z) <= 0 ensures order(x, z) <= 0 {
      if descending {
        assert compare(y, x) <= 0 && compare(z, y) <= 0;
      }
    }
  }

  /** The lines of a joined text; the empty text has none. */
  function LinesOf(text: string): seq<string> {
    if text == [] then [] else Split(text, '\n')
  }

  /** Joining non-empty lines without newlines and splitting again gives the lines back. */
  lemma LinesOfJoin(parts: seq<string>)
    requires forall i :: 0 <= i < |parts| ==> parts[i] != [] && '\n' !in parts[i]
    ensures LinesOf(Join(parts, '\n')) == parts
  {
    if |parts| > 0 {
      SplitJoin(parts, '\n');
      assert |Join(parts, '\n')| >= |parts[0]| by {
        if |parts| > 1 {
          assert Join(parts, '\n') == parts[0] + ['\n'] + Join(parts[1..], '\n');
        }
      }
    }
  }

  /** A kept line is a line of the input that is not blank. */
  lemma KeptLinesShape(input: string, sorted: seq<string>)
    requires multiset(sorted) == multiset(Filter(Split(input, '\n'), Kept))
    ensures forall i :: 0 <= i < |sorted| ==> sorted[i] != [] && '\n' !in sorted[i]
  {
    var lines := Filter(Split(input, '\n'), Kept);
    forall i | 0 <= i < |sorted| ensures sorted[i] != [] && '\n' !in sorted[i] {
      var line := sorted[i];
      assert line in multiset(lines);
      assert line in lines;
      assert Kept(line) && line in Split(input, '\n');
    }
  }

  /** `sortLines(input, descending)` with `compare` standing for `localeCompare`. */
  method SortLines(input: string, descending: bool, compare: (string, string) -> int)
    returns (output: string, ghost perm: seq<nat>)
    requires IsComparator(compare)
    ensures forall x :: multiset(LinesOf(output))[x] == if Kept(x) then multiset(Split(input, '\n'))[x] else 0
    ensures forall i, j :: 0 <= i < j < |LinesOf(output)| ==>
      if descending then compare(LinesOf(output)[i], LinesOf(output)[j]) >= 0
      else compare(LinesOf(output)[i], LinesOf(output)[j]) <= 0
    ensures forall i, j :: 0 <= i < j < |LinesOf(output)| && compare(LinesOf(output)[i], LinesOf(output)[j]) == 0 ==>
      Before(Filter(Split(input, '\n'), Kept), LinesOf(output)[i], LinesOf(output)[j])
    ensures Rearranged(Filter(Split(input, '\n'), Kept), LinesOf(output), perm)
    ensures StableUpTo(LinesOf(output), perm, |LinesOf(output)|, LineOrder(compare, descending))
  {
    var lines := Filter(Split(input, '\n'), Kept);
    var a := new string[|lines|](i requires 0 <= i < |lines| => lines[i]);
    assert a[..] == lines;
    perm := InsertionSort(a, LineOrder(compare, descending));
    output := Join(a[..], '\n');
    SortedLinesJoined(input, descending, compare, a[..], perm);
  }

  /** The kept lines, stably sorted under the line order and joined, split
      back into the kept lines, ordered by `compare` and with ties in input order. */
  lemma SortedLinesJoined(input: string, descending: bool, compare: (string, string) -> int,
                          sorted: seq<string>, perm: seq<nat>)
    requires IsComparator(compare)
    requires Sorted(sorted, LineOrder(compare, descending))
    requires multiset(sorted) == multiset(Filter(Split(input, '\n'), Kept))
    requires Rearranged(Filter(Split(input, '\n'), Kept), sorted, perm)
    requires StableUpTo(sorted, perm, |sorted|, LineOrder(compare, descending))
    ensures forall x :: multiset(LinesOf(Join(sorted, '\n')))[x] == if Kept(x) then multiset(Split(input, '\n'))[x] else 0
    ensures forall i, j :: 0 <= i < j < |LinesOf(Join(sorted, '\n'))| ==>
      if descending then compare(LinesOf(Join(sorted, '\n'))[i], LinesOf(Join(sorted, '\n'))[j]) >= 0
      else compare(LinesOf(Join(sorted, '\n'))[i], LinesOf(Join(sorted, '\n'))[j]) <= 0
    ensures forall i, j ::
      0 <= i < j < |LinesOf(Join(sorted, '\n'))| && compare(LinesOf(Join(sorted, '\n'))[i], LinesOf(Join(sorted, '\n'))[j]) == 0 ==>
      Before(Filter(Split(input, '\n'), Kept), LinesOf(Join(sorted, '\n'))[i], LinesOf(Join(sorted, '\n'))[j])
    ensures Rearranged(Filter(Split(input, '\n'), Kept), LinesOf(Join(sorted, '\n')), perm)
    ensures StableUpTo(LinesOf(Join(sorted, '\n')), perm, |LinesOf(Join(sorted, '\n'))|, LineOrder(compare, descending))
  {
    KeptLinesShape(input, sorted);
    LinesOfJoin(sorted);
    SortedKeptLines(input, descending, compare, sorted, perm);
  }

  /** The kept lines, stably sorted under the line order: each non-blank
      input line as often as in the input, every pair ordered by `compare`,
      and lines that compare equal in input order. */
  lemma SortedKeptLines(input: string, descending: bool, compare: (string, string) -> int,
                        sorted: seq<string>, perm: seq<nat>)
    requires IsComparator(compare)
    requires Sorted(sorted, LineOrder(compare, descending))
    requires multiset(sorted) == multiset(Filter(Split(input, '\n'), Kept))
    requires Rearranged(Filter(Split(input, '\n'), Kept), sorted, perm)
    requires StableUpTo(sorted, perm, |sorted|, LineOrder(compare, descending))
    ensures forall x :: multiset(sorted)[x] == if Kept(x) then multiset(Split(input, '\n'))[x] else 0
    ensures forall i, j :: 0 <= i < j < |sorted| ==>
      if descending then compare(sorted[i], sorted[j]) >= 0 else compare(sorted[i], sorted[j]) <= 0
    ensures forall i, j :: 0 <= i < j < |sorted| && compare(sorted[i], sorted[j]) == 0 ==>
      Before(Filter(Split(input, '\n'), Kept), sorted[i], sorted[j])
  {
    var order := LineOrder(compare, descending);
    StableTies(Filter(Split(input, '\n'), Kept), sorted, perm, order);
    forall x ensures multiset(sorted)[x] == if Kept(x) then multiset(Split(input, '\n'))[x] else 0 {
      FilterCount(Split(input, '\n'), Kept, x);
    }
    LineOrderIsComparator(compare, descending);
    SortedAllPairs(sorted, order);
  }

  // ---------------------------------------------------------------------
  // getTextStats
  // ---------------------------------------------------------------------

  datatype TextStats = TextStats(
    characters: nat,
    charactersNoSpaces: nat,
    words: nat,
    lines: nat,
    paragraphs: nat)

  /** Adds the break at `i`, if `s[i]` is a newline, to the last break
      seen so far while the whitespace run that starts after `q` lasts. */
  function LastBreakInRun(s: string, q: nat, i: nat, last: Option<nat>): (e: Option<nat>)
    requires q < i <= |s| && s[q] == '\n'
    requires forall j :: q <= j < i ==> IsWhitespace(s[j])
    requires last.Some? ==> q + 2 <= last.value <= i && s[last.value - 1] == '\n'
    ensures e.Some? ==> q + 2 <= e.value <= |s| && s[e.value - 1] == '\n'
    ensures e.Some? ==> forall j :: q <= j < e.value ==> IsWhitespace(s[j])
    decreases |s| - i
  {
    if i < |s| && IsWhitespace(s[i]) then
      LastBreakInRun(s, q, i + 1, if s[i] == '\n' then Some(i + 1) else last)
    else last
  }

  /** The end of the match of `/\n\s*\n/` at `q`, if one starts there: the
      greedy `\s*` backs off to the last newline of the whitespace run. */
  function ParagraphBreakAt(s: string, q: nat): (e: Option<nat>)
    requires q < |s|
    ensures e.Some? ==> q + 2 <= e.value <= |s| && s[q] == '\n' && s[e.value - 1] == '\n'
    ensures e.Some? ==> forall j :: q <= j < e.value ==> IsWhitespace(s[j])
  {
    if s[q] != '\n' then None else LastBreakInRun(s, q, q + 1, None)
  }

  /** `s.split(/\n\s*\n/)`, for the part starting at `p` and the scan at `q`. */
  function ParagraphParts(s: string, p: nat, q: nat): seq<string>
    requires p <= q <= |s|
    decreases |s| - q
  {
    if q == |s| then [s[p..]]
    else
      match ParagraphBreakAt(s, q)
      case Some(e) => [s[p..q]] + ParagraphParts(s, e, e)
      case None => ParagraphParts(s, p, q + 1)
  }

  /** The number of parts that are not blank after trimming. */
  function CountNonBlank(parts: seq<string>): nat {
    if parts == [] then 0 else (if Trim(parts[0]) != [] then 1 else 0) + CountNonBlank(parts[1..])
  }

  /** The number of places where a word begins: a non-whitespace character
      with whitespace, or nothing, before it. `afterSpace` says whether the
      character before `s` was whitespace or missing. */
  function WordStarts(s: string, afterSpace: bool): nat {
    if s == [] then 0
    else (if afterSpace && !IsWhitespace(s[0]) then 1 else 0) + WordStarts(s[1..], IsWhitespace(s[0]))
  }

  /** No two newlines: the text holds no paragraph break. */
  predicate AtMostOneNewline(s: string) {
    forall i, j :: 0 <= i < j < |s| && s[i] == '\n' ==> s[j] != '\n'
  }

  /** `input.trim() === '' ? 0 : input.trim().split(/\s+/).length`: the number of word starts. */
  function WordCount(input: string): (r: nat)
    ensures r == WordStarts(input, true)
    ensures IsBlank(input) <==> r == 0
  {
    WordsCounted(input);
    if Trim(input) == [] then 0 else |WhitespaceSplit(Trim(input))|
  }

  /** `input === '' ? 0 : input.split('\n').length`: one more than the newlines of a non-empty text. */
  function LineCount(input: string): (r: nat)
    ensures input == [] ==> r == 0
    ensures input != [] ==> r == Occurrences(input, '\n') + 1
  {
    SplitCount(input, '\n');
    if input == [] then 0 else |Split(input, '\n')|
  }

  /** `input.trim() === '' ? 0 : input.split(/\n\s*\n/).filter(p => p.trim()).length`. */
  function ParagraphCount(input: string): (r: nat)
    ensures IsBlank(input) ==> r == 0
    ensures !IsBlank(input) ==> r == CountNonBlank(ParagraphParts(input, 0, 0)) >= 1
    ensures !IsBlank(input) && AtMostOneNewline(input) ==> r == 1
  {
    ParagraphsCounted(input);
    if Trim(input) == [] then 0 else CountNonBlank(ParagraphParts(input, 0, 0))
  }

  /** `getTextStats(input)`. Lengths are counted in UTF-16 code units. */
  function GetTextStats(input: string): (r: TextStats)
    ensures r.characters == |Utf16(input)| && r.charactersNoSpaces == |Utf16(NonWhitespace(input))|
    ensures r.characters - r.charactersNoSpaces == |input| - |NonWhitespace(input)|
    ensures input == [] ==> r.lines == 0
    ensures input != [] ==> r.lines == Occurrences(input, '\n') + 1
    ensures r.words == WordStarts(input, true)
    ensures IsBlank(input) ==> r.words == 0 && r.paragraphs == 0
    ensures !IsBlank(input) ==> r.words >= 1 && r.paragraphs == CountNonBlank(ParagraphParts(input, 0, 0)) >= 1
    ensures !IsBlank(input) && AtMostOneNewline(input) ==> r.paragraphs == 1
  {
    NonWhitespaceUnits(input);
    TextStats(|Utf16(input)|, |Utf16(NonWhitespace(input))|, WordCount(input), LineCount(input), ParagraphCount(input))
  }

  /** One emoji is two code units long and one word. */
  lemma AstralStats()
    ensures GetTextStats("\U{1F600}").characters == 2
    ensures GetTextStats("\U{1F600}").charactersNoSpaces == 2
    ensures GetTextStats("\U{1F600}").words == 1
  {
    AstralLength();
    assert NonWhitespace("\U{1F600}") == "\U{1F600}" by {
      assert "\U{1F600}"[1..] == [];
    }
    assert WordStarts("\U{1F600}", true) == 1 by {
      assert "\U{1F600}"[1..] == [];
    }
  }

  /** A text that is not blank has a paragraph, and exactly one when it has no paragraph break. */
  lemma ParagraphsCounted(input: string)
    ensures !IsBlank(input) ==> CountNonBlank(ParagraphParts(input, 0, 0)) >= 1
    ensures !IsBlank(input) && AtMostOneNewline(input) ==> CountNonBlank(ParagraphParts(input, 0, 0)) == 1
  {
    if !IsBlank(input) {
      ParagraphsOfNonBlank(input);
      if AtMostOneNewline(input) {
        OneParagraph(input);
      }
    }
  }

  /** `input.trim().split(/\s+/).length` for a text that is not blank counts its word starts. */
  lemma WordsCounted(input: string)
    ensures IsBlank(input) ==> WordStarts(input, true) == 0
    ensures !IsBlank(input) ==> |WhitespaceSplit(Trim(input))| == WordStarts(input, true) >= 1
  {
    if IsBlank(input) {
      BlankNoStarts(input, true);
    } else {
      NonBlankWordsCounted(input);
    }
  }

  lemma NonBlankWordsCounted(input: string)
    requires !IsBlank(input)
    ensures |WhitespaceSplit(Trim(input))| == WordStarts(input, true) >= 1
  {
    var t := Trim(input);
    TrimmedWords(t);
    TrimKeepsStarts(input);
  }

  /** A trimmed text that is not empty has one part per word start, and at least one. */
  lemma TrimmedWords(t: string)
    requires t != [] && !IsWhitespace(t[0]) && !IsWhitespace(t[|t| - 1])
    ensures |WhitespaceSplit(t)| == WordStarts(t, true) >= 1
  {
    SplitCountsStarts(t);
    assert WordStarts(t, true) == 1 + WordStarts(t[1..], false);
  }

  lemma {:induction false} BlankNoStarts(s: string, afterSpace: bool)
    requires IsBlank(s)
    ensures WordStarts(s, afterSpace) == 0
  {
    if s != [] {
      BlankNoStarts(s[1..], true);
    }
  }

  /** A character after whitespace starts a word exactly when it is not whitespace itself. */
  lemma AfterSpaceStarts(s: string)
    ensures WordStarts(s, true) == WordStarts(s, false) + (if s != [] && !IsWhitespace(s[0]) then 1 else 0)
  {
  }

  /** Leading whitespace starts no word. */
  lemma {:induction false} TrimStartKeepsStarts(s: string)
    ensures WordStarts(TrimStart(s), true) == WordStarts(s, true)
  {
    if s != [] && IsWhitespace(s[0]) {
      TrimStartKeepsStarts(s[1..]);
    }
  }

  /** Trailing whitespace starts no word. */
  lemma {:induction false} BlankTailKeepsStarts(a: string, w: string, afterSpace: bool)
    requires IsBlank(w)
    ensures WordStarts(a + w, afterSpace) == WordStarts(a, afterSpace)
  {
    if a == [] {
      assert a + w == w;
      BlankNoStarts(w, afterSpace);
    } else {
      assert (a + w)[1..] == a[1..] + w;
      BlankTailKeepsStarts(a[1..], w, IsWhitespace(a[0]));
    }
  }

  /** Trailing whitespace starts no word. */
  lemma {:induction false} TrimEndKeepsStarts(s: string, afterSpace: bool)
    ensures WordStarts(TrimEnd(s), afterSpace) == WordStarts(s, afterSpace)
    decreases |s|
  {
    if s != [] && IsWhitespace(s[|s| - 1]) {
      var front := s[..|s| - 1];
      TrimEndKeepsStarts(front, afterSpace);
      assert front + [s[|s| - 1]] == s;
      BlankTailKeepsStarts(front, [s[|s| - 1]], afterSpace);
    }
  }

  lemma TrimKeepsStarts(s: string)
    ensures WordStarts(Trim(s), true) == WordStarts(s, true)
  {
    assert Trim(s) == TrimEnd(TrimStart(s));
    TrimStartKeepsStarts(s);
    TrimEndKeepsStarts(TrimStart(s), true);
  }

  /** `split(/\s+/)` of a text ending in a non-space has one part per word,
      and an empty first part when it starts with whitespace. */
  lemma {:induction false} SplitCountsStarts(t: string)
    requires t != [] && !IsWhitespace(t[|t| - 1])
    ensures |WhitespaceSplit(t)| == WordStarts(t, true) + (if IsWhitespace(t[0]) then 1 else 0)
    decreases |t|
  {
    if IsWhitespace(t[0]) {
      var u := TrimStart(t);
      assert u != [] && u[|u| - 1] == t[|t| - 1];
      SplitCountsStarts(u);
      TrimStartKeepsStarts(t);
    } else if |t| > 1 {
      SplitCountsStarts(t[1..]);
      AfterSpaceStarts(t[1..]);
    }
  }

  /** Without two newlines there is no paragraph break, so the text is one part. */
  lemma {:induction false} NoBreakOnePart(s: string, p: nat, q: nat)
    requires p <= q <= |s| && AtMostOneNewline(s)
    ensures ParagraphParts(s, p, q) == [s[p..]]
    decreases |s| - q
  {
    if q < |s| {
      assert ParagraphBreakAt(s, q).None?;
      NoBreakOnePart(s, p, q + 1);
    }
  }

  lemma OneParagraph(s: string)
    requires !IsBlank(s) && AtMostOneNewline(s)
    ensures CountNonBlank(ParagraphParts(s, 0, 0)) == 1
  {
    NoBreakOnePart(s, 0, 0);
    assert s[0..] == s;
    assert [s][1..] == [];
  }

  /** The paragraph separators are whitespace, so the parts keep every other character. */
  lemma {:induction false} ParagraphPartsKeepText(s: string, p: nat, q: nat)
    requires p <= q <= |s|
    ensures NonWhitespace(Concat(ParagraphParts(s, p, q))) == NonWhitespace(s[p..])
    decreases |s| - q
  {
    if q == |s| {
      assert ParagraphParts(s, p, q) == [s[p..]];
      ConcatSingle(s[p..]);
    } else {
      var m := ParagraphBreakAt(s, q);
      if m.Some? {
        var e := m.value;
        ParagraphPartsKeepText(s, e, e);
        var rest := ParagraphParts(s, e, e);
        assert ParagraphParts(s, p, q) == [s[p..q]] + rest;
        assert Concat([s[p..q]] + rest) == s[p..q] + Concat(rest);
        NonWhitespaceConcat(s[p..q], Concat(rest));
        SkipBlank(s, p, q, e);
      } else {
        ParagraphPartsKeepText(s, p, q + 1);
      }
    }
  }

  lemma ConcatSingle(x: string)
    ensures Concat([x]) == x
  {
    assert [x][1..] == [];
    assert x + [] == x;
  }

  /** Cutting a blank stretch `s[q..e]` out of `s[p..]` keeps its non-whitespace characters. */
  lemma SkipBlank(s: string, p: nat, q: nat, e: nat)
    requires p <= q <= e <= |s|
    requires forall j :: q <= j < e ==> IsWhitespace(s[j])
    ensures NonWhitespace(s[p..]) == NonWhitespace(s[p..q]) + NonWhitespace(s[e..])
  {
    assert s[p..] == s[p..q] + s[q..e] + s[e..];
    NonWhitespaceConcat(s[p..q] + s[q..e], s[e..]);
    NonWhitespaceConcat(s[p..q], s[q..e]);
    BlankHasNoNonWhitespace(s[q..e]);
    assert s[p..q] + [] == s[p..q];
  }

  /** Parts that together hold a non-whitespace character count at least one non-blank part. */
  lemma {:induction false} SomePartNonBlank(parts: seq<string>)
    requires NonWhitespace(Concat(parts)) != []
    ensures CountNonBlank(parts) >= 1
  {
    assert parts != [];
    NonWhitespaceConcat(parts[0], Concat(parts[1..]));
    if NonWhitespace(parts[0]) == [] {
      SomePartNonBlank(parts[1..]);
    } else {
      NonWhitespaceEmpty(parts[0]);
    }
  }

  /** A text that is not blank has at least one paragraph. */
  lemma ParagraphsOfNonBlank(input: string)
    requires !IsBlank(input)
    ensures CountNonBlank(ParagraphParts(input, 0, 0)) >= 1
  {
    ParagraphPartsKeepText(input, 0, 0);
    NonWhitespaceEmpty(input);
    assert input[0..] == input;
    SomePartNonBlank(ParagraphParts(input, 0, 0));
  }
}
