/**
 * `computeDiff` and `computeCharDiff`: a positional comparison of two
 * sequences, index by index. Position `i` of the longer sequence gives one
 * entry (added, removed or unchanged) or, when both sides have an element
 * there and they differ, a removed entry followed by an added one.
 */
module Diff {
  import opened JsStrings

  datatype ChangeKind = Added | Removed | Unchanged

  /** One entry of a line diff; `lineNumber` is the 1-based position it came from. */
  datatype Change<T> = Change(kind: ChangeKind, content: T, lineNumber: nat)

  type DiffLine = Change<string>

  /** One entry of a character diff, which carries no position; `ch` is the
      UTF-16 code unit `text[i]` reads. */
  datatype CharChange = CharChange(ch: CodeUnit, kind: ChangeKind)

  // ---------------------------------------------------------------------
  // Specification
  // ---------------------------------------------------------------------

  /** The entries for position `i`. */
  function ChangesAt<T(==)>(a: seq<T>, b: seq<T>, i: nat): seq<Change<T>>
    requires i < Max(|a|, |b|)
  {
    if i >= |a| then [Change(Added, b[i], i + 1)]
    else if i >= |b| then [Change(Removed, a[i], i + 1)]
    else if a[i] == b[i] then [Change(Unchanged, a[i], i + 1)]
    else [Change(Removed, a[i], i + 1), Change(Added, b[i], i + 1)]
  }

  /** The entries for positions `0 .. k-1`, in order. */
  function Positional<T(==)>(a: seq<T>, b: seq<T>, k: nat): seq<Change<T>>
    requires k <= Max(|a|, |b|)
  {
    if k == 0 then [] else Positional(a, b, k - 1) + ChangesAt(a, b, k - 1)
  }

  /** The whole positional diff of `a` and `b`: its old side is `a`, its new
      side `b`, and each position gives one or two entries. */
  function PositionalDiff<T(==)>(a: seq<T>, b: seq<T>): (r: seq<Change<T>>)
    ensures OldSide(r) == a && NewSide(r) == b
    ensures Max(|a|, |b|) <= |r| <= 2 * Max(|a|, |b|)
  {
    var k := Max(|a|, |b|);
    PositionalRebuilds(a, b, k);
    PositionalLength(a, b, k);
    assert a[..Min(k, |a|)] == a && b[..Min(k, |b|)] == b;
    Positional(a, b, k)
  }

  /** The old side: contents of the removed and unchanged entries, in order. */
  function OldSide<T>(d: seq<Change<T>>): seq<T> {
    if d == [] then []
    else OldSide(d[..|d| - 1]) + (if d[|d| - 1].kind == Added then [] else [d[|d| - 1].content])
  }

  /** The new side: contents of the added and unchanged entries, in order. */
  function NewSide<T>(d: seq<Change<T>>): seq<T> {
    if d == [] then []
    else NewSide(d[..|d| - 1]) + (if d[|d| - 1].kind == Removed then [] else [d[|d| - 1].content])
  }

  lemma {:induction false} SidesConcat<T>(x: seq<Change<T>>, y: seq<Change<T>>)
    ensures OldSide(x + y) == OldSide(x) + OldSide(y)
    ensures NewSide(x + y) == NewSide(x) + NewSide(y)
  {
    if y == [] {
      assert x + y == x;
    } else {
      assert (x + y)[..|x + y| - 1] == x + y[..|y| - 1];
      SidesConcat(x, y[..|y| - 1]);
    }
  }

  // ---------------------------------------------------------------------
  // Properties of the specification
  // ---------------------------------------------------------------------

  /** The removed and unchanged entries rebuild `a`; the added and unchanged ones rebuild `b`. */
  lemma {:induction false} PositionalRebuilds<T>(a: seq<T>, b: seq<T>, k: nat)
    requires k <= Max(|a|, |b|)
    ensures OldSide(Positional(a, b, k)) == a[..Min(k, |a|)]
    ensures NewSide(Positional(a, b, k)) == b[..Min(k, |b|)]
  {
    PositionalRebuildsOld(a, b, k);
    PositionalRebuildsNew(a, b, k);
  }

  lemma {:induction false} PositionalRebuildsOld<T>(a: seq<T>, b: seq<T>, k: nat)
    requires k <= Max(|a|, |b|)
    ensures OldSide(Positional(a, b, k)) == a[..Min(k, |a|)]
  {
    if k > 0 {
      PositionalRebuildsOld(a, b, k - 1);
      var prefix, step := Positional(a, b, k - 1), ChangesAt(a, b, k - 1);
      SidesConcat(prefix, step);
      StepSides(a, b, k - 1);
      PrefixGrows(OldSide(prefix), OldSide(step), a, k);
    }
  }

  lemma {:induction false} PositionalRebuildsNew<T>(a: seq<T>, b: seq<T>, k: nat)
    requires k <= Max(|a|, |b|)
    ensures NewSide(Positional(a, b, k)) == b[..Min(k, |b|)]
  {
    if k > 0 {
      PositionalRebuildsNew(a, b, k - 1);
      var prefix, step := Positional(a, b, k - 1), ChangesAt(a, b, k - 1);
      SidesConcat(prefix, step);
      StepSides(a, b, k - 1);
      PrefixGrows(NewSide(prefix), NewSide(step), b, k);
    }
  }

  /** Extending the first `k - 1` elements of `a` by the element at `k - 1`, if any. */
  lemma PrefixGrows<T>(x: seq<T>, y: seq<T>, a: seq<T>, k: nat)
    requires 0 < k
    requires x == a[..Min(k - 1, |a|)]
    requires y == if k - 1 < |a| then [a[k - 1]] else []
    ensures x + y == a[..Min(k, |a|)]
  {
    if k - 1 < |a| {
      assert a[..k] == a[..k - 1] + [a[k - 1]];
    }
  }

  lemma StepSides<T>(a: seq<T>, b: seq<T>, i: nat)
    requires i < Max(|a|, |b|)
    ensures OldSide(ChangesAt(a, b, i)) == if i < |a| then [a[i]] else []
    ensures NewSide(ChangesAt(a, b, i)) == if i < |b| then [b[i]] else []
  {
    var step := ChangesAt(a, b, i);
    if |step| == 1 {
      SidesOfOne(step[0]);
      assert step == [step[0]];
    } else {
      var removed, added := Change(Removed, a[i], i + 1), Change(Added, b[i], i + 1);
      assert step == [removed] + [added];
      SidesOfOne(removed);
      SidesOfOne(added);
      SidesConcat([removed], [added]);
    }
  }

  /** The sides of a single entry. */
  lemma SidesOfOne<T>(c: Change<T>)
    ensures OldSide([c]) == if c.kind == Added then [] else [c.content]
    ensures NewSide([c]) == if c.kind == Removed then [] else [c.content]
  {
    assert [c][..0] == [];
  }

  /** Each position gives one or two entries. */
  lemma {:induction false} PositionalLength<T>(a: seq<T>, b: seq<T>, k: nat)
    requires k <= Max(|a|, |b|)
    ensures k <= |Positional(a, b, k)| <= 2 * k
  {
    if k > 0 {
      PositionalLength(a, b, k - 1);
    }
  }

  /** Line numbers lie in `1..k` and never decrease along the diff. */
  lemma {:induction false} PositionalNumbering<T>(a: seq<T>, b: seq<T>, k: nat)
    requires k <= Max(|a|, |b|)
    ensures forall j :: 0 <= j < |Positional(a, b, k)| ==> 1 <= Positional(a, b, k)[j].lineNumber <= k
    ensures forall i, j :: 0 <= i <= j < |Positional(a, b, k)| ==>
      Positional(a, b, k)[i].lineNumber <= Positional(a, b, k)[j].lineNumber
  {
    if k > 0 {
      PositionalNumbering(a, b, k - 1);
      var prefix, step := Positional(a, b, k - 1), ChangesAt(a, b, k - 1);
      assert forall j :: 0 <= j < |step| ==> step[j].lineNumber == k;
      assert Positional(a, b, k) == prefix + step;
    }
  }

  /** Past the end of the shorter side every entry is added (`b` longer) or removed (`a` longer). */
  lemma {:induction false} PositionalTail<T>(a: seq<T>, b: seq<T>, k: nat)
    requires k <= Max(|a|, |b|)
    ensures forall j :: 0 <= j < |Positional(a, b, k)| && Positional(a, b, k)[j].lineNumber > |a| ==>
      Positional(a, b, k)[j].kind == Added
    ensures forall j :: 0 <= j < |Positional(a, b, k)| && Positional(a, b, k)[j].lineNumber > |b| ==>
      Positional(a, b, k)[j].kind == Removed
  {
    if k > 0 {
      PositionalTail(a, b, k - 1);
      var prefix, step := Positional(a, b, k - 1), ChangesAt(a, b, k - 1);
      assert Positional(a, b, k) == prefix + step;
      assert forall j :: 0 <= j < |step| ==> step[j].lineNumber == k;
    }
  }

  /** Every removed entry at a position that `b` also has is immediately followed by the added entry for that position. */
  ghost predicate PairedChanges<T>(d: seq<Change<T>>, b: seq<T>) {
    && (forall j :: 0 <= j < |d| && d[j].kind == Removed && 1 <= d[j].lineNumber <= |b| ==> j + 1 < |d|)
    && (forall j, k :: 0 <= j < k < |d| && k == j + 1 && d[j].kind == Removed && 1 <= d[j].lineNumber <= |b| ==>
          && d[k].kind == Added
          && d[k].lineNumber == d[j].lineNumber
          && d[k].content == b[d[j].lineNumber - 1])
  }

  /** A changed position of both sides is reported as its removal followed by its addition. */
  lemma {:induction false} PositionalPairsChanges<T>(a: seq<T>, b: seq<T>, k: nat)
    requires k <= Max(|a|, |b|)
    ensures PairedChanges(Positional(a, b, k), b)
  {
    if k > 0 {
      PositionalPairsChanges(a, b, k - 1);
      PairedStep(a, b, k);
    }
  }

  /** The pairing of the first `k - 1` positions carries over to the first `k`. */
  lemma PairedStep<T>(a: seq<T>, b: seq<T>, k: nat)
    requires 0 < k <= Max(|a|, |b|)
    requires PairedChanges(Positional(a, b, k - 1), b)
    ensures PairedChanges(Positional(a, b, k), b)
  {
    var prefix := Positional(a, b, k - 1);
    assert forall j :: 0 <= j < |prefix| ==> prefix[j].lineNumber <= k - 1 by {
      PositionalNumbering(a, b, k - 1);
    }
    PairedAppend(a, b, k - 1, prefix);
    assert Positional(a, b, k) == prefix + ChangesAt(a, b, k - 1);
  }

  /** Appending the entries of position `i` keeps the pairing of a prefix numbered up to `i`. */
  lemma PairedAppend<T>(a: seq<T>, b: seq<T>, i: nat, prefix: seq<Change<T>>)
    requires i < Max(|a|, |b|)
    requires PairedChanges(prefix, b)
    requires forall j :: 0 <= j < |prefix| ==> prefix[j].lineNumber <= i
    ensures PairedChanges(prefix + ChangesAt(a, b, i), b)
  {
    var step := ChangesAt(a, b, i);
    var d := prefix + step;
    forall j | 0 <= j < |d| && d[j].kind == Removed && 1 <= d[j].lineNumber <= |b|
      ensures j + 1 < |d|
    {
      if j < |prefix| {
        assert d[j] == prefix[j];
      } else {
        StepPaired(a, b, i, j - |prefix|);
      }
    }
    forall j, k | 0 <= j < k < |d| && k == j + 1 && d[j].kind == Removed && 1 <= d[j].lineNumber <= |b|
      ensures d[k].kind == Added && d[k].lineNumber == d[j].lineNumber && d[k].content == b[d[j].lineNumber - 1]
    {
      if j < |prefix| {
        assert d[j] == prefix[j];
        assert j + 1 < |prefix|;
        assert d[k] == prefix[k];
      } else {
        StepPaired(a, b, i, j - |prefix|);
        assert d[j] == step[j - |prefix|];
        assert d[k] == step[1];
      }
    }
  }

  /** Within the entries of one position, a removal that `b` also has a line for is followed by the addition. */
  lemma StepPaired<T>(a: seq<T>, b: seq<T>, i: nat, j: nat)
    requires i < Max(|a|, |b|) && j < |ChangesAt(a, b, i)|
    requires ChangesAt(a, b, i)[j].kind == Removed && ChangesAt(a, b, i)[j].lineNumber <= |b|
    ensures j == 0 && |ChangesAt(a, b, i)| == 2
    ensures ChangesAt(a, b, i)[1] == Change(Added, b[i], i + 1) && ChangesAt(a, b, i)[0].lineNumber == i + 1
  {
  }

  /** Identical inputs give one unchanged entry per element, numbered from 1. */
  lemma {:induction false} PositionalIdentical<T>(a: seq<T>, k: nat)
    requires k <= |a|
    ensures Positional(a, a, k) == seq(k, i requires 0 <= i < k => Change(Unchanged, a[i], i + 1))
  {
    if k > 0 {
      PositionalIdentical(a, k - 1);
    }
  }

  // ---------------------------------------------------------------------
  // computeDiff
  // ---------------------------------------------------------------------

  /** `computeDiff(text1, text2)` over the lines `text.split('\n')`. */
  method ComputeDiff(text1: string, text2: string) returns (result: seq<DiffLine>)
    ensures result == PositionalDiff(Split(text1, '\n'), Split(text2, '\n'))
    ensures OldSide(result) == Split(text1, '\n') && NewSide(result) == Split(text2, '\n')
    ensures Max(|Split(text1, '\n')|, |Split(text2, '\n')|) <= |result|
              <= 2 * Max(|Split(text1, '\n')|, |Split(text2, '\n')|)
  {
    var lines1 := Split(text1, '\n');
    var lines2 := Split(text2, '\n');
    result := [];
    var maxLen := Max(|lines1|, |lines2|);
    for i := 0 to maxLen
      invariant result == Positional(lines1, lines2, i)
    {
      if i >= |lines1| {
        result := result + [Change(Added, lines2[i], i + 1)];
      } else if i >= |lines2| {
        result := result + [Change(Removed, lines1[i], i + 1)];
      } else if lines1[i] == lines2[i] {
        result := result + [Change(Unchanged, lines1[i], i + 1)];
      } else {
        result := result + [Change(Removed, lines1[i], i + 1)];
        result := result + [Change(Added, lines2[i], i + 1)];
      }
    }
    PositionalRebuilds(lines1, lines2, maxLen);
    PositionalLength(lines1, lines2, maxLen);
    assert lines1[..Min(maxLen, |lines1|)] == lines1;
    assert lines2[..Min(maxLen, |lines2|)] == lines2;
  }

  /** The identical-inputs case of `computeDiff`: every line unchanged. */
  lemma DiffOfIdenticalTexts(text: string)
    ensures PositionalDiff(Split(text, '\n'), Split(text, '\n'))
      == seq(|Split(text, '\n')|, i requires 0 <= i < |Split(text, '\n')| =>
               Change(Unchanged, Split(text, '\n')[i], i + 1))
  {
    PositionalIdentical(Split(text, '\n'), |Split(text, '\n')|);
  }

  // ---------------------------------------------------------------------
  // computeCharDiff
  // ---------------------------------------------------------------------

  /** Drops the positions: the shape `computeCharDiff` returns. */
  function Unnumbered(d: seq<Change<CodeUnit>>): (r: seq<CharChange>)
    ensures |r| == |d|
    ensures forall j :: 0 <= j < |d| ==> r[j] == CharChange(d[j].content, d[j].kind)
  {
    seq(|d|, j requires 0 <= j < |d| => CharChange(d[j].content, d[j].kind))
  }

  /** The removed and unchanged characters of a character diff. */
  function OldChars(d: seq<CharChange>): Text {
    if d == [] then []
    else OldChars(d[..|d| - 1]) + (if d[|d| - 1].kind == Added then [] else [d[|d| - 1].ch])
  }

  /** The added and unchanged characters of a character diff. */
  function NewChars(d: seq<CharChange>): Text {
    if d == [] then []
    else NewChars(d[..|d| - 1]) + (if d[|d| - 1].kind == Removed then [] else [d[|d| - 1].ch])
  }

  lemma {:induction false} UnnumberedSides(d: seq<Change<CodeUnit>>)
    ensures OldChars(Unnumbered(d)) == OldSide(d)
    ensures NewChars(Unnumbered(d)) == NewSide(d)
  {
    if d != [] {
      UnnumberedSides(d[..|d| - 1]);
      assert Unnumbered(d)[..|d| - 1] == Unnumbered(d[..|d| - 1]);
    }
  }

  /** Dropping the positions commutes with appending the entries of one more position. */
  lemma UnnumberedStep(a: Text, b: Text, i: nat)
    requires i < Max(|a|, |b|)
    ensures Unnumbered(Positional(a, b, i + 1)) == Unnumbered(Positional(a, b, i)) + Unnumbered(ChangesAt(a, b, i))
  {
    var p, c := Positional(a, b, i), ChangesAt(a, b, i);
    assert Positional(a, b, i + 1) == p + c;
  }

  /** The character diff gives back the code units of both texts and has one or two entries per position. */
  lemma CharDiffSides(text1: Text, text2: Text)
    ensures OldChars(Unnumbered(PositionalDiff(text1, text2))) == text1
    ensures NewChars(Unnumbered(PositionalDiff(text1, text2))) == text2
    ensures Max(|text1|, |text2|) <= |Unnumbered(PositionalDiff(text1, text2))| <= 2 * Max(|text1|, |text2|)
  {
    var maxLen := Max(|text1|, |text2|);
    PositionalRebuilds(text1, text2, maxLen);
    PositionalLength(text1, text2, maxLen);
    UnnumberedSides(Positional(text1, text2, maxLen));
    assert text1[..Min(maxLen, |text1|)] == text1;
    assert text2[..Min(maxLen, |text2|)] == text2;
  }

  /** `computeCharDiff(text1, text2)`: the positional diff of the two code-unit sequences. */
  method ComputeCharDiff(text1: Text, text2: Text) returns (result: seq<CharChange>)
    ensures result == Unnumbered(PositionalDiff(text1, text2))
    ensures OldChars(result) == text1 && NewChars(result) == text2
    ensures Max(|text1|, |text2|) <= |result| <= 2 * Max(|text1|, |text2|)
  {
    result := [];
    var maxLen := Max(|text1|, |text2|);
    for i := 0 to maxLen
      invariant result == Unnumbered(Positional(text1, text2, i))
    {
      var step: seq<CharChange>;
      if i >= |text1| {
        step := [CharChange(text2[i], Added)];
      } else if i >= |text2| {
        step := [CharChange(text1[i], Removed)];
      } else if text1[i] == text2[i] {
        step := [CharChange(text1[i], Unchanged)];
      } else {
        step := [CharChange(text1[i], Removed), CharChange(text2[i], Added)];
      }
      assert step == Unnumbered(ChangesAt(text1, text2, i));
      UnnumberedStep(text1, text2, i);
      result := result + step;
    }
    CharDiffSides(text1, text2);
  }

  /** The diff runs over code units, so two emoji that share their high
      surrogate give three entries: the shared surrogate and the two low ones. */
  lemma AstralCharDiff()
    ensures Unnumbered(PositionalDiff(Utf16("\U{1F600}"), Utf16("\U{1F601}")))
      == [CharChange(0xD83D, Unchanged), CharChange(0xDE00, Removed), CharChange(0xDE01, Added)]
  {
    assert "\U{1F600}"[1..] == [] && "\U{1F601}"[1..] == [];
    var a, b := Utf16("\U{1F600}"), Utf16("\U{1F601}");
    assert a == [0xD83D, 0xDE00] && b == [0xD83D, 0xDE01];
    assert PositionalDiff(a, b) == Positional(a, b, 2);
    assert Positional(a, b, 1) == [Change(Unchanged, 0xD83D, 1)];
    assert Positional(a, b, 2) == [Change(Unchanged, 0xD83D, 1), Change(Removed, 0xDE00, 2), Change(Added, 0xDE01, 2)];
  }
}
