/** The row ordering of `applySort`. Each body row is keyed by its
    original position and by the derived value read back from it; the
    comparator puts unavailable values last and breaks ties by position.
    `Array.prototype.sort` is modelled by an insertion sort; because the
    comparator is a strict total order, every sorting algorithm yields the
    same order (`SortedUnique`). */
module Sorting {
  import opened Options

  /** The comparator passed to `rows.sort`, on the positions `a` and `b`
      of two rows whose read-back values are `vals[a]` and `vals[b]`.
      Negative means `a` goes first. */
  function Compare(vals: seq<Option<real>>, dir: string, a: nat, b: nat): real
    requires a < |vals| && b < |vals|
  {
    if vals[a].None? && vals[b].None? then a as real - b as real
    else if vals[a].None? then 1.0
    else if vals[b].None? then -1.0
    else
      var d := vals[a].value - vals[b].value;
      if d == 0.0 then a as real - b as real
      else if dir == "asc" then d
      else -d
  }

  predicate Before(vals: seq<Option<real>>, dir: string, a: nat, b: nat)
    requires a < |vals| && b < |vals|
  {
    Compare(vals, dir, a, b) < 0.0
  }

  // ---------------------------------------------------------------------
  // The comparator is consistent and a strict total order

  /** Swapping the arguments negates the result, as `sort` demands. */
  lemma CompareAntisymmetric(vals: seq<Option<real>>, dir: string, a: nat, b: nat)
    requires a < |vals| && b < |vals|
    ensures Compare(vals, dir, b, a) == -Compare(vals, dir, a, b)
  {
  }

  lemma Irreflexive(vals: seq<Option<real>>, dir: string, a: nat)
    requires a < |vals|
    ensures !Before(vals, dir, a, a)
  {
  }

  lemma Asymmetric(vals: seq<Option<real>>, dir: string, a: nat, b: nat)
    requires a < |vals| && b < |vals|
    ensures Before(vals, dir, a, b) ==> !Before(vals, dir, b, a)
  {
  }

  lemma Total(vals: seq<Option<real>>, dir: string, a: nat, b: nat)
    requires a < |vals| && b < |vals| && a != b
    ensures Before(vals, dir, a, b) || Before(vals, dir, b, a)
  {
  }

  lemma Transitive(vals: seq<Option<real>>, dir: string, a: nat, b: nat, c: nat)
    requires a < |vals| && b < |vals| && c < |vals|
    requires Before(vals, dir, a, b) && Before(vals, dir, b, c)
    ensures Before(vals, dir, a, c)
  {
  }

  // ---------------------------------------------------------------------
  // Sorted permutations

  /** The positions `0 .. n-1` in order. */
  function Range(n: nat): (r: seq<nat>)
    ensures |r| == n
    ensures forall k :: 0 <= k < n ==> r[k] == k
  {
    if n == 0 then [] else Range(n - 1) + [n - 1]
  }

  /** `perm` lists every position below `n` exactly once. */
  predicate IsPermutation(perm: seq<nat>, n: nat) {
    multiset(perm) == multiset(Range(n))
  }

  predicate InBounds(perm: seq<nat>, n: nat) {
    forall k :: 0 <= k < |perm| ==> perm[k] < n
  }

  /** Every position in `perm` comes before every later one. */
  predicate Sorted(vals: seq<Option<real>>, dir: string, perm: seq<nat>) {
    InBounds(perm, |vals|) &&
    forall p, q :: 0 <= p < q < |perm| ==> Before(vals, dir, perm[p], perm[q])
  }

  /** What a sorted order means for the rows: unavailable values come after
      all available ones, available values follow the direction, and rows
      with equal values or both unavailable keep their original order. */
  lemma SortedMeans(vals: seq<Option<real>>, dir: string, perm: seq<nat>, p: nat, q: nat)
    requires Sorted(vals, dir, perm) && p < q < |perm|
    ensures vals[perm[p]].None? ==> vals[perm[q]].None? && perm[p] < perm[q]
    ensures vals[perm[p]].Some? && vals[perm[q]].Some? && dir == "asc" ==>
      vals[perm[p]].value <= vals[perm[q]].value
    ensures vals[perm[p]].Some? && vals[perm[q]].Some? && dir != "asc" ==>
      vals[perm[p]].value >= vals[perm[q]].value
    ensures vals[perm[p]] == vals[perm[q]] ==> perm[p] < perm[q]
  {
    assert Before(vals, dir, perm[p], perm[q]);
  }

  /** Inserting `x` between the positions that go before it and those that
      go after it keeps the order sorted. */
  lemma InsertSorted(vals: seq<Option<real>>, dir: string, perm: seq<nat>, pos: nat, x: nat)
    requires Sorted(vals, dir, perm) && pos <= |perm| && x < |vals|
    requires forall k :: 0 <= k < pos ==> Before(vals, dir, perm[k], x)
    requires forall k :: pos <= k < |perm| ==> Before(vals, dir, x, perm[k])
    ensures Sorted(vals, dir, perm[..pos] + [x] + perm[pos..])
  {
    var r := perm[..pos] + [x] + perm[pos..];
    forall p, q | 0 <= p < q < |r| ensures Before(vals, dir, r[p], r[q]) {
      if q < pos {
        assert r[p] == perm[p] && r[q] == perm[q];
      } else if q == pos {
        assert r[p] == perm[p];
      } else if p < pos {
        assert r[p] == perm[p] && r[q] == perm[q - 1];
      } else if p == pos {
        assert r[q] == perm[q - 1];
      } else {
        assert r[p] == perm[p - 1] && r[q] == perm[q - 1];
      }
    }
  }

  /** The insertion point found by scanning from the back: everything
      before it goes before `x`. */
  lemma BeforeInsertion(vals: seq<Option<real>>, dir: string, perm: seq<nat>, pos: nat, x: nat)
    requires Sorted(vals, dir, perm) && 0 < pos <= |perm| && x < |vals|
    requires x != perm[pos - 1] && !Before(vals, dir, x, perm[pos - 1])
    ensures forall k :: 0 <= k < pos ==> Before(vals, dir, perm[k], x)
  {
    Total(vals, dir, x, perm[pos - 1]);
    forall k | 0 <= k < pos - 1 ensures Before(vals, dir, perm[k], x) {
      Transitive(vals, dir, perm[k], perm[pos - 1], x);
    }
  }

  /** Scanning from the back, the place where `x` goes: everything after it
      goes after `x`, and the position just before it does not. */
  method InsertionPoint(vals: seq<Option<real>>, dir: string, perm: seq<nat>, x: nat) returns (pos: nat)
    requires InBounds(perm, |vals|) && x < |vals|
    ensures pos <= |perm|
    ensures forall k :: pos <= k < |perm| ==> Before(vals, dir, x, perm[k])
    ensures pos > 0 ==> !Before(vals, dir, x, perm[pos - 1])
  {
    pos := |perm|;
    while pos > 0 && Before(vals, dir, x, perm[pos - 1])
      invariant 0 <= pos <= |perm|
      invariant forall k :: pos <= k < |perm| ==> Before(vals, dir, x, perm[k])
    {
      pos := pos - 1;
    }
  }

  /** `perm` is the sorted order of the first `i` positions. */
  predicate SortedPrefix(vals: seq<Option<real>>, dir: string, perm: seq<nat>, i: nat) {
    i <= |vals| && IsPermutation(perm, i) && InBounds(perm, i) && Sorted(vals, dir, perm)
  }

  /** The stable order `rows.sort` produces: a permutation of the row
      positions, sorted by the comparator. */
  method StableOrder(vals: seq<Option<real>>, dir: string) returns (perm: seq<nat>)
    ensures IsPermutation(perm, |vals|)
    ensures Sorted(vals, dir, perm)
  {
    perm := [];
    var i := 0;
    while i < |vals|
      invariant SortedPrefix(vals, dir, perm, i)
      decreases |vals| - i
    {
      perm := InsertNext(vals, dir, perm, i);
      i := i + 1;
    }
  }

  /** Inserts position `i` into the sorted order of the positions before it. */
  method InsertNext(vals: seq<Option<real>>, dir: string, perm: seq<nat>, i: nat) returns (next: seq<nat>)
    requires SortedPrefix(vals, dir, perm, i) && i < |vals|
    ensures SortedPrefix(vals, dir, next, i + 1)
  {
    var pos := InsertionPoint(vals, dir, perm, i);
    InsertStep(vals, dir, perm, pos, i);
    next := perm[..pos] + [i] + perm[pos..];
  }

  /** One step of the insertion sort keeps its invariant. */
  lemma InsertStep(vals: seq<Option<real>>, dir: string, perm: seq<nat>, pos: nat, i: nat)
    requires SortedPrefix(vals, dir, perm, i) && i < |vals|
    requires pos <= |perm|
    requires forall k :: pos <= k < |perm| ==> Before(vals, dir, i, perm[k])
    requires pos > 0 ==> !Before(vals, dir, i, perm[pos - 1])
    ensures SortedPrefix(vals, dir, perm[..pos] + [i] + perm[pos..], i + 1)
  {
    if pos > 0 {
      BeforeInsertion(vals, dir, perm, pos, i);
    }
    InsertSorted(vals, dir, perm, pos, i);
    InsertPermutation(perm, pos, i);
  }

  lemma InsertPermutation(perm: seq<nat>, pos: nat, n: nat)
    requires IsPermutation(perm, n) && InBounds(perm, n) && pos <= |perm|
    ensures IsPermutation(perm[..pos] + [n] + perm[pos..], n + 1)
    ensures InBounds(perm[..pos] + [n] + perm[pos..], n + 1)
  {
    assert perm == perm[..pos] + perm[pos..];
    assert Range(n + 1) == Range(n) + [n];
  }

  /** Two sorted permutations of the same positions are equal: the
      comparator fixes the order completely. */
  lemma {:induction false} SortedUnique(vals: seq<Option<real>>, dir: string, p: seq<nat>, q: seq<nat>)
    requires Sorted(vals, dir, p) && Sorted(vals, dir, q)
    requires multiset(p) == multiset(q)
    ensures p == q
  {
    assert |p| == |multiset(p)| == |multiset(q)| == |q|;
    if p != [] {
      SameFirst(vals, dir, p, q);
      SameRest(p, q);
      SortedTail(vals, dir, p);
      SortedTail(vals, dir, q);
      SortedUnique(vals, dir, p[1..], q[1..]);
      assert p == [p[0]] + p[1..] && q == [q[0]] + q[1..];
    }
  }

  /** Both sorted orders start with the position that goes before all others. */
  lemma SameFirst(vals: seq<Option<real>>, dir: string, p: seq<nat>, q: seq<nat>)
    requires Sorted(vals, dir, p) && Sorted(vals, dir, q)
    requires multiset(p) == multiset(q) && p != [] && q != []
    ensures p[0] == q[0]
  {
    assert p[0] in multiset(q) && q[0] in multiset(p);
    var j :| 0 <= j < |q| && q[j] == p[0];
    var i :| 0 <= i < |p| && p[i] == q[0];
    assert p[0] == q[0] || Before(vals, dir, q[0], p[0]) by {
      if j > 0 { assert Before(vals, dir, q[0], q[j]); }
    }
    assert p[0] == q[0] || Before(vals, dir, p[0], q[0]) by {
      if i > 0 { assert Before(vals, dir, p[0], p[i]); }
    }
    Asymmetric(vals, dir, p[0], q[0]);
  }

  lemma SameRest(p: seq<nat>, q: seq<nat>)
    requires multiset(p) == multiset(q) && p != [] && q != [] && p[0] == q[0]
    ensures multiset(p[1..]) == multiset(q[1..])
  {
    assert p == [p[0]] + p[1..] && q == [q[0]] + q[1..];
    assert multiset(p) == multiset{p[0]} + multiset(p[1..]);
    assert multiset(q) == multiset{q[0]} + multiset(q[1..]);
    assert multiset(p[1..]) == multiset(p) - multiset{p[0]};
    assert multiset(q[1..]) == multiset(q) - multiset{q[0]};
  }

  lemma SortedTail(vals: seq<Option<real>>, dir: string, p: seq<nat>)
    requires Sorted(vals, dir, p) && p != []
    ensures Sorted(vals, dir, p[1..])
  {
    forall a, b | 0 <= a < b < |p| - 1 ensures Before(vals, dir, p[1..][a], p[1..][b]) {
      assert p[1..][a] == p[a + 1] && p[1..][b] == p[b + 1];
    }
  }

  /** The rows in the order `perm` lists them. */
  function Reorder<T>(rows: seq<T>, perm: seq<nat>): (r: seq<T>)
    requires InBounds(perm, |rows|)
    ensures |r| == |perm|
    ensures forall k :: 0 <= k < |perm| ==> r[k] == rows[perm[k]]
  {
    seq(|perm|, k requires 0 <= k < |perm| => rows[perm[k]])
  }

  /** Concatenated orders give concatenated rows. */
  lemma ReorderAppend<T>(rows: seq<T>, a: seq<nat>, b: seq<nat>)
    requires InBounds(a, |rows|) && InBounds(b, |rows|)
    ensures InBounds(a + b, |rows|)
    ensures Reorder(rows, a + b) == Reorder(rows, a) + Reorder(rows, b)
  {
  }

  lemma RemoveAt(q: seq<nat>, j: nat)
    requires j < |q|
    ensures multiset(q[..j] + q[j + 1..]) == multiset(q) - multiset{q[j]}
  {
    assert q == q[..j] + [q[j]] + q[j + 1..];
  }

  lemma ReorderRemoveAt<T>(rows: seq<T>, q: seq<nat>, j: nat)
    requires InBounds(q, |rows|) && j < |q|
    ensures InBounds(q[..j] + q[j + 1..], |rows|)
    ensures multiset(Reorder(rows, q)) == multiset(Reorder(rows, q[..j] + q[j + 1..])) + multiset{rows[q[j]]}
  {
    assert q == q[..j] + [q[j]] + q[j + 1..];
    ReorderAppend(rows, q[..j], q[j + 1..]);
    ReorderAppend(rows, q[..j], [q[j]]);
    ReorderAppend(rows, q[..j] + [q[j]], q[j + 1..]);
  }

  /** Orders listing the same positions, each as often, give the same rows. */
  lemma {:induction false} ReorderSameMultiset<T>(rows: seq<T>, p: seq<nat>, q: seq<nat>)
    requires InBounds(p, |rows|) && InBounds(q, |rows|) && multiset(p) == multiset(q)
    ensures multiset(Reorder(rows, p)) == multiset(Reorder(rows, q))
  {
    if p != [] {
      var j := PickMatch(p, q);
      ReorderRemoveAt(rows, q, j);
      ReorderDropFirst(rows, p);
      ReorderSameMultiset(rows, p[1..], q[..j] + q[j + 1..]);
    } else {
      assert |q| == |multiset(q)| == 0;
    }
  }

  /** A place in `q` holding `p`'s first position, matching the rest of `p`
      with the rest of `q`. */
  lemma PickMatch(p: seq<nat>, q: seq<nat>) returns (j: nat)
    requires p != [] && multiset(p) == multiset(q)
    ensures j < |q| && q[j] == p[0]
    ensures multiset(p[1..]) == multiset(q[..j] + q[j + 1..])
  {
    assert p[0] in multiset(q);
    j :| 0 <= j < |q| && q[j] == p[0];
    RemoveAt(q, j);
    RemoveAt(p, 0);
    assert p[..0] + p[1..] == p[1..];
  }

  lemma ReorderDropFirst<T>(rows: seq<T>, p: seq<nat>)
    requires InBounds(p, |rows|) && p != []
    ensures InBounds(p[1..], |rows|)
    ensures multiset(Reorder(rows, p)) == multiset(Reorder(rows, p[1..])) + multiset{rows[p[0]]}
  {
    ReorderRemoveAt(rows, p, 0);
    assert p[..0] + p[1..] == p[1..];
  }

  lemma RangeBounds(n: nat, x: nat)
    requires x in multiset(Range(n))
    ensures x < n
  {
  }

  /** Reordering the rows by a permutation of their positions keeps every
      row, each exactly once. */
  lemma ReorderPermutes<T>(rows: seq<T>, perm: seq<nat>)
    requires IsPermutation(perm, |rows|)
    ensures InBounds(perm, |rows|)
    ensures multiset(Reorder(rows, perm)) == multiset(rows)
  {
    forall k | 0 <= k < |perm| ensures perm[k] < |rows| {
      assert perm[k] in multiset(perm);
      RangeBounds(|rows|, perm[k]);
    }
    ReorderSameMultiset(rows, perm, Range(|rows|));
    assert Reorder(rows, Range(|rows|)) == rows;
  }
}
