/**
 * The array operations the core relies on: `Array.prototype.filter`, and
 * `Array.prototype.sort(compare)` as an in-place insertion sort over an
 * array, for a comparator that returns a negative, zero or positive number.
 * Both sorts of the core (`sortLines` and the command ranking) use it.
 */
module JsArrays {

  /** `s.filter(keep)`: the elements that pass, in order. */
  function Filter<T>(s: seq<T>, keep: T -> bool): (r: seq<T>)
    ensures |r| <= |s|
    ensures forall i :: 0 <= i < |r| ==> keep(r[i]) && r[i] in s
  {
    if s == [] then []
    else
      var rest := Filter(s[..|s| - 1], keep);
      if keep(s[|s| - 1]) then rest + [s[|s| - 1]] else rest
  }

  /** The filter keeps every passing element as often as it occurs and drops every other one. */
  lemma {:induction false} FilterCount<T>(s: seq<T>, keep: T -> bool, x: T)
    ensures multiset(Filter(s, keep))[x] == if keep(x) then multiset(s)[x] else 0
  {
    if s != [] {
      var prefix, last := s[..|s| - 1], s[|s| - 1];
      FilterCount(prefix, keep, x);
      CountSnoc(prefix, last, x);
      assert prefix + [last] == s;
      if keep(last) {
        CountSnoc(Filter(prefix, keep), last, x);
      }
    }
  }

  /** Appending `y` adds one occurrence of `y` and none of anything else. */
  lemma CountSnoc<T>(s: seq<T>, y: T, x: T)
    ensures multiset(s + [y])[x] == multiset(s)[x] + if x == y then 1 else 0
  {
    assert multiset(s + [y]) == multiset(s) + multiset{y};
  }

  /** `x` passes the filter exactly when it is an element that passes the test. */
  lemma FilterMember<T>(s: seq<T>, keep: T -> bool, x: T)
    ensures x in Filter(s, keep) <==> x in s && keep(x)
  {
    FilterCount(s, keep, x);
    assert x in Filter(s, keep) <==> multiset(Filter(s, keep))[x] > 0;
    assert x in s <==> multiset(s)[x] > 0;
  }

  /** The elements of `s` are pairwise distinct. */
  predicate Distinct<T(==)>(s: seq<T>) {
    forall i, j :: 0 <= i < j < |s| ==> s[i] != s[j]
  }

  /** In a sequence of distinct elements every element occurs once. */
  lemma {:induction false} DistinctCount<T>(s: seq<T>, x: T)
    requires Distinct(s)
    ensures multiset(s)[x] <= 1
  {
    if s != [] {
      var prefix, last := s[..|s| - 1], s[|s| - 1];
      assert Distinct(prefix);
      DistinctCount(prefix, x);
      CountSnoc(prefix, last, x);
      assert prefix + [last] == s;
      if x == last {
        assert x !in prefix;
      }
    }
  }

  /** A sequence in which nothing occurs twice is distinct. */
  lemma CountDistinct<T>(s: seq<T>)
    requires forall x :: multiset(s)[x] <= 1
    ensures Distinct(s)
  {
    forall i, j | 0 <= i < j < |s| ensures s[i] != s[j] {
      EqualPairCount(s, i, j);
    }
  }

  /** Two equal elements at different places count twice. */
  lemma EqualPairCount<T>(s: seq<T>, i: nat, j: nat)
    requires i < j < |s|
    ensures s[i] == s[j] ==> multiset(s)[s[i]] >= 2
  {
    var x := s[j];
    assert s == s[..j] + [x] + s[j + 1..];
    assert multiset(s) == multiset(s[..j]) + multiset{x} + multiset(s[j + 1..]);
    assert s[i] == s[..j][i];
  }

  /** A consistent comparator, which `Array.prototype.sort` requires: the
      sign flips when the arguments are swapped, and "not after" is transitive. */
  ghost predicate IsComparator<T(!new)>(cmp: (T, T) -> int) {
    && (forall x, y :: cmp(x, y) > 0 <==> cmp(y, x) < 0)
    && (forall x, y, z :: cmp(x, y) <= 0 && cmp(y, z) <= 0 ==> cmp(x, z) <= 0)
  }

  /** Every element is not after its successor. */
  ghost predicate Sorted<T>(s: seq<T>, cmp: (T, T) -> int) {
    forall i :: 0 <= i < |s| - 1 ==> cmp(s[i], s[i + 1]) <= 0
  }

  /** Under a consistent comparator, sorted neighbours give a sorted sequence. */
  lemma {:induction false} SortedAllPairs<T(!new)>(s: seq<T>, cmp: (T, T) -> int)
    requires IsComparator(cmp)
    requires Sorted(s, cmp)
    ensures forall i, j :: 0 <= i < j < |s| ==> cmp(s[i], s[j]) <= 0
  {
    forall i, j | 0 <= i < j < |s| ensures cmp(s[i], s[j]) <= 0 {
      var k := i + 1;
      while k < j
        invariant i < k <= j
        invariant cmp(s[i], s[k]) <= 0
      {
        assert cmp(s[k], s[k + 1]) <= 0;
        k := k + 1;
      }
    }
  }

  /** The state of one insertion pass: the element being inserted sits at
      `j`, the part before it and the part from it up to `i` are sorted, and
      its two neighbours are in order with each other. */
  ghost predicate Inserting<T>(s: seq<T>, j: nat, i: nat, cmp: (T, T) -> int) {
    && j <= i < |s|
    && Sorted(s[..j], cmp)
    && Sorted(s[j..i + 1], cmp)
    && (0 < j < i ==> cmp(s[j - 1], s[j + 1]) <= 0)
  }

  lemma InsertingStart<T>(s: seq<T>, i: nat, cmp: (T, T) -> int)
    requires i < |s| && Sorted(s[..i], cmp)
    ensures Inserting(s, i, i, cmp)
  {
  }

  /** Swapping the inserted element with a predecessor that is after it keeps the pass's state. */
  lemma {:induction false} InsertingSwap<T(!new)>(s: seq<T>, j: nat, i: nat, cmp: (T, T) -> int)
    requires forall x, y :: cmp(x, y) > 0 ==> cmp(y, x) < 0
    requires Inserting(s, j, i, cmp) && 0 < j && cmp(s[j - 1], s[j]) > 0
    ensures Inserting(s[j - 1 := s[j]][j := s[j - 1]], j - 1, i, cmp)
  {
    var t := s[j - 1 := s[j]][j := s[j - 1]];
    var segment := s[j..i + 1];
    assert t[..j - 1] == s[..j - 1];
    var front, back := t[..j - 1], t[j - 1..i + 1];
    forall k | 0 <= k < |front| - 1 ensures cmp(front[k], front[k + 1]) <= 0 {
      assert s[..j][k] == s[k] && s[..j][k + 1] == s[k + 1];
    }
    forall k | 0 <= k < |back| - 1 ensures cmp(back[k], back[k + 1]) <= 0 {
      if k == 1 {
        assert segment[1] == s[j + 1];
      } else if k > 1 {
        assert cmp(segment[k - 1], segment[k]) <= 0;
      }
    }
    if 0 < j - 1 {
      assert cmp(s[..j][j - 2], s[..j][j - 1]) <= 0;
    }
  }

  /** A pass stops once the inserted element is at the front or after its predecessor. */
  lemma {:induction false} InsertingDone<T>(s: seq<T>, j: nat, i: nat, cmp: (T, T) -> int)
    requires Inserting(s, j, i, cmp) && (j == 0 || cmp(s[j - 1], s[j]) <= 0)
    ensures Sorted(s[..i + 1], cmp)
  {
    var done := s[..i + 1];
    forall k | 0 <= k < |done| - 1 ensures cmp(done[k], done[k + 1]) <= 0 {
      if k < j - 1 {
        assert s[..j][k] == s[k] && s[..j][k + 1] == s[k + 1];
      } else if k >= j {
        assert s[j..i + 1][k - j] == s[k] && s[j..i + 1][k - j + 1] == s[k + 1];
      }
    }
  }

  /** Swapping two neighbours keeps the elements. */
  lemma SwapPermutes<T>(s: seq<T>, j: nat)
    requires 0 < j < |s|
    ensures multiset(s[j - 1 := s[j]][j := s[j - 1]]) == multiset(s)
  {
    var u := s[j - 1 := s[j]];
    assert multiset(u) == multiset(s) - multiset{s[j - 1]} + multiset{s[j]};
    assert multiset(u[j := s[j - 1]]) == multiset(u) - multiset{u[j]} + multiset{s[j - 1]};
  }

  /** `x` occurs before `y` in `s`. */
  predicate Before<T(==)>(s: seq<T>, x: T, y: T) {
    exists i, j :: 0 <= i < j < |s| && s[i] == x && s[j] == y
  }

  /** What occurs in order among the filtered elements occurs in that order in the input. */
  lemma {:induction false} FilterBefore<T>(s: seq<T>, keep: T -> bool, x: T, y: T)
    requires Before(Filter(s, keep), x, y)
    ensures Before(s, x, y)
  {
    var prefix, last := s[..|s| - 1], s[|s| - 1];
    var rest := Filter(prefix, keep);
    var i, j :| 0 <= i < j < |Filter(s, keep)| && Filter(s, keep)[i] == x && Filter(s, keep)[j] == y;
    if j < |rest| {
      assert rest[i] == x && rest[j] == y;
      FilterBefore(prefix, keep, x, y);
      var i', j' :| 0 <= i' < j' < |prefix| && prefix[i'] == x && prefix[j'] == y;
      assert s[i'] == x && s[j'] == y;
    } else {
      assert rest[i] == x;
      var i' :| 0 <= i' < |prefix| && prefix[i'] == x;
      assert s[i'] == x && s[|s| - 1] == y;
    }
  }

  /** `t` holds the elements of `s` rearranged by `perm`: its element `k`
      is element `perm[k]` of `s`, and no element of `s` is used twice. */
  ghost predicate Rearranged<T>(s: seq<T>, t: seq<T>, perm: seq<nat>) {
    && |s| == |t| == |perm|
    && Distinct(perm)
    && (forall k :: 0 <= k < |t| ==> perm[k] < |s| && t[k] == s[perm[k]])
  }

  /** Among the first `n` elements of `t`, two are out of their original
      order only where the comparator puts the later one strictly first:
      elements the comparator ties keep their original order. */
  ghost predicate StableUpTo<T>(t: seq<T>, perm: seq<nat>, n: nat, cmp: (T, T) -> int) {
    && n <= |t| && n <= |perm|
    && forall k, l :: 0 <= k < l < n && perm[k] > perm[l] ==> cmp(t[k], t[l]) < 0
  }

  /** A stable rearrangement leaves elements the comparator ties in their order in `s`. */
  lemma StableTies<T>(s: seq<T>, t: seq<T>, perm: seq<nat>, cmp: (T, T) -> int)
    requires Rearranged(s, t, perm) && StableUpTo(t, perm, |t|, cmp)
    ensures forall i, j :: 0 <= i < j < |t| && cmp(t[i], t[j]) == 0 ==> Before(s, t[i], t[j])
  {
    forall i, j | 0 <= i < j < |t| && cmp(t[i], t[j]) == 0 ensures Before(s, t[i], t[j]) {
      assert perm[i] != perm[j];
      assert s[perm[i]] == t[i] && s[perm[j]] == t[j];
    }
  }

  /** The state after `i` passes: the first `i` elements are a stable
      arrangement of the first `i` input elements, the rest are untouched. */
  ghost predicate Passes<T>(orig: seq<T>, s: seq<T>, perm: seq<nat>, i: nat, cmp: (T, T) -> int) {
    && Rearranged(orig, s, perm)
    && i <= |s|
    && (forall k :: i <= k < |s| ==> perm[k] == k)
    && (forall k :: 0 <= k < i ==> perm[k] < i)
    && StableUpTo(s, perm, i, cmp)
  }

  /** The state of pass `i` with input element `i` at `j`: every other pair
      up to `i` is stable, and the inserted element is strictly before every
      element it has passed. */
  ghost predicate Tracking<T>(orig: seq<T>, s: seq<T>, perm: seq<nat>, j: nat, i: nat, cmp: (T, T) -> int) {
    && Rearranged(orig, s, perm)
    && j <= i < |s|
    && perm[j] == i
    && (forall k :: i < k < |s| ==> perm[k] == k)
    && (forall k :: 0 <= k <= i && k != j ==> perm[k] < i)
    && (forall k, l :: 0 <= k < l <= i && k != j && l != j && perm[k] > perm[l] ==> cmp(s[k], s[l]) < 0)
    && (forall l :: j < l <= i ==> cmp(s[j], s[l]) < 0)
  }

  lemma TrackingStart<T>(orig: seq<T>, s: seq<T>, perm: seq<nat>, i: nat, cmp: (T, T) -> int)
    requires Passes(orig, s, perm, i, cmp) && i < |s|
    ensures Tracking(orig, s, perm, i, i, cmp)
  {
  }

  /** Swapping the inserted element with a predecessor that is after it keeps the tracking state. */
  lemma TrackingSwap<T(!new)>(orig: seq<T>, s: seq<T>, perm: seq<nat>, j: nat, i: nat, cmp: (T, T) -> int)
    requires forall x, y :: cmp(x, y) > 0 ==> cmp(y, x) < 0
    requires Tracking(orig, s, perm, j, i, cmp) && 0 < j && cmp(s[j - 1], s[j]) > 0
    ensures Tracking(orig, s[j - 1 := s[j]][j := s[j - 1]], perm[j - 1 := perm[j]][j := perm[j - 1]], j - 1, i, cmp)
  {
    var t, q := s[j - 1 := s[j]][j := s[j - 1]], perm[j - 1 := perm[j]][j := perm[j - 1]];
    SwapRearranged(orig, s, perm, j);
    forall k, l | 0 <= k < l <= i && k != j - 1 && l != j - 1 && q[k] > q[l] ensures cmp(t[k], t[l]) < 0 {
      var k', l' := Swapped(k, j), Swapped(l, j);
      assert t[k] == s[k'] && t[l] == s[l'] && q[k] == perm[k'] && q[l] == perm[l'];
    }
  }

  /** Swapping two neighbours of a rearrangement and of its permutation gives a rearrangement. */
  lemma SwapRearranged<T>(orig: seq<T>, s: seq<T>, perm: seq<nat>, j: nat)
    requires Rearranged(orig, s, perm) && 0 < j < |s|
    ensures Rearranged(orig, s[j - 1 := s[j]][j := s[j - 1]], perm[j - 1 := perm[j]][j := perm[j - 1]])
  {
    var q := perm[j - 1 := perm[j]][j := perm[j - 1]];
    forall k, l | 0 <= k < l < |q| ensures q[k] != q[l] {
      var k', l' := Swapped(k, j), Swapped(l, j);
      assert q[k] == perm[k'] && q[l] == perm[l'];
    }
  }

  /** The position that the swap of `j - 1` and `j` sends `k` to. */
  function Swapped(k: nat, j: nat): (r: nat)
    requires 0 < j
    ensures r == k <==> k != j - 1 && k != j
  {
    if k == j - 1 then j else if k == j then j - 1 else k
  }

  /** A pass that stops leaves a stable arrangement of one more element. */
  lemma TrackingDone<T>(orig: seq<T>, s: seq<T>, perm: seq<nat>, j: nat, i: nat, cmp: (T, T) -> int)
    requires Tracking(orig, s, perm, j, i, cmp)
    ensures Passes(orig, s, perm, i + 1, cmp)
  {
  }

  /** Sorts `a` in place: the result is sorted, a permutation of the input,
      and stable: elements the comparator ties keep their order. */
  method InsertionSort<T(!new)>(a: array<T>, cmp: (T, T) -> int) returns (ghost perm: seq<nat>)
    requires forall x, y :: cmp(x, y) > 0 ==> cmp(y, x) < 0
    modifies a
    ensures Sorted(a[..], cmp)
    ensures multiset(a[..]) == multiset(old(a[..]))
    ensures Rearranged(old(a[..]), a[..], perm)
    ensures StableUpTo(a[..], perm, a.Length, cmp)
  {
    ghost var orig := a[..];
    perm := seq(a.Length, k => k);
    var i := 0;
    while i < a.Length
      invariant 0 <= i <= a.Length
      invariant Sorted(a[..i], cmp)
      invariant multiset(a[..]) == multiset(old(a[..]))
      invariant Passes(orig, a[..], perm, i, cmp)
    {
      perm := Insert(a, i, cmp, orig, perm);
      i := i + 1;
    }
    assert a[..a.Length] == a[..];
  }

  /** One swap of a pass keeps the pass's state, the elements and the tracking of the permutation. */
  lemma SwapStep<T(!new)>(orig: seq<T>, s: seq<T>, perm: seq<nat>, j: nat, i: nat, cmp: (T, T) -> int)
    requires forall x, y :: cmp(x, y) > 0 ==> cmp(y, x) < 0
    requires Inserting(s, j, i, cmp) && Tracking(orig, s, perm, j, i, cmp)
    requires 0 < j && cmp(s[j - 1], s[j]) > 0
    ensures Inserting(s[j - 1 := s[j]][j := s[j - 1]], j - 1, i, cmp)
    ensures multiset(s[j - 1 := s[j]][j := s[j - 1]]) == multiset(s)
    ensures Tracking(orig, s[j - 1 := s[j]][j := s[j - 1]], perm[j - 1 := perm[j]][j := perm[j - 1]], j - 1, i, cmp)
  {
    InsertingSwap(s, j, i, cmp);
    SwapPermutes(s, j);
    TrackingSwap(orig, s, perm, j, i, cmp);
  }

  /** Exchanges `a[j - 1]` and `a[j]`. */
  method SwapNeighbours<T>(a: array<T>, j: nat)
    requires 0 < j < a.Length
    modifies a
    ensures a[..] == old(a[..])[j - 1 := old(a[j])][j := old(a[j - 1])]
  {
    a[j - 1], a[j] := a[j], a[j - 1];
  }

  /** One pass: moves `a[i]` back past every greater predecessor. */
  method Insert<T(!new)>(a: array<T>, i: nat, cmp: (T, T) -> int, ghost orig: seq<T>, ghost perm: seq<nat>)
    returns (ghost perm': seq<nat>)
    requires forall x, y :: cmp(x, y) > 0 ==> cmp(y, x) < 0
    requires i < a.Length && Sorted(a[..i], cmp)
    requires Passes(orig, a[..], perm, i, cmp)
    modifies a
    ensures Sorted(a[..i + 1], cmp)
    ensures multiset(a[..]) == multiset(old(a[..]))
    ensures Passes(orig, a[..], perm', i + 1, cmp)
  {
    InsertingStart(a[..], i, cmp);
    TrackingStart(orig, a[..], perm, i, cmp);
    perm' := perm;
    var j: nat := i;
    while j > 0 && cmp(a[j - 1], a[j]) > 0
      invariant Inserting(a[..], j, i, cmp)
      invariant multiset(a[..]) == multiset(old(a[..]))
      invariant Tracking(orig, a[..], perm', j, i, cmp)
    {
      ghost var s := a[..];
      SwapStep(orig, s, perm', j, i, cmp);
      SwapNeighbours(a, j);
      perm' := perm'[j - 1 := perm'[j]][j := perm'[j - 1]];
      j := j - 1;
    }
    InsertingDone(a[..], j, i, cmp);
    TrackingDone(orig, a[..], perm', j, i, cmp);
  }
}
