/** Sequence helpers: list removal and insertion, and sequences without repetitions. */
module Sequences {
  /** Python's `list.pop(index)`, the remaining list. */
  function Popped<T>(xs: seq<T>, index: nat): seq<T>
    requires index < |xs|
  {
    xs[..index] + xs[index + 1..]
  }

  /** Python's `list.insert(index, x)`, which appends when the index is past the end. */
  function Inserted<T>(xs: seq<T>, index: nat, x: T): seq<T> {
    if index >= |xs| then xs + [x] else xs[..index] + [x] + xs[index..]
  }

  lemma PoppingTwice<T>(xs: seq<T>, low: nat, high: nat)
    requires low < high < |xs|
    ensures Popped(Popped(xs, high), low) == Popped(Popped(xs, low), high - 1)
  {
    var left, right := Popped(Popped(xs, high), low), Popped(Popped(xs, low), high - 1);
    forall i | 0 <= i < |xs| - 2
      ensures left[i] == right[i]
    {
      assert left[i] == Popped(xs, high)[if i < low then i else i + 1];
      assert right[i] == Popped(xs, low)[if i < high - 1 then i else i + 1];
    }
  }

  lemma PoppingKeepsTheOthers<T>(xs: seq<T>, index: nat)
    requires index < |xs|
    ensures multiset(Popped(xs, index)) + multiset{xs[index]} == multiset(xs)
  {
    assert xs == xs[..index] + [xs[index]] + xs[index + 1..];
  }

  lemma InsertingAddsOne<T>(xs: seq<T>, index: nat, x: T)
    ensures multiset(Inserted(xs, index, x)) == multiset(xs) + multiset{x}
  {
    if index < |xs| {
      assert xs == xs[..index] + xs[index..];
    }
  }

  lemma TwiceInASequence<T>(xs: seq<T>, x: T) returns (i: nat, j: nat)
    requires multiset(xs)[x] >= 2
    ensures i < j < |xs| && xs[i] == xs[j] == x
  {
    assert x in xs;
    var a :| 0 <= a < |xs| && xs[a] == x;
    PoppingKeepsTheOthers(xs, a);
    var rest := Popped(xs, a);
    assert x in multiset(rest);
    assert x in rest;
    var b :| 0 <= b < |rest| && rest[b] == x;
    if b < a {
      i, j := b, a;
    } else {
      i, j := a, b + 1;
    }
  }

  lemma LastOfConcatenation<T>(xs: seq<T>, ys: seq<T>)
    requires ys != []
    ensures xs + ys == (xs + ys[..|ys| - 1]) + [ys[|ys| - 1]]
    ensures ys == ys[..|ys| - 1] + [ys[|ys| - 1]]
  {
  }

  /** No element occurs twice. */
  predicate Distinct<T(==)>(xs: seq<T>) {
    forall i, j | 0 <= i < j < |xs| :: xs[i] != xs[j]
  }

  lemma {:induction false} DistinctIffNoneCollapse<T>(xs: seq<T>)
    ensures |set x | x in xs| <= |xs|
    ensures Distinct(xs) <==> |set x | x in xs| == |xs|
    decreases |xs|
  {
    if xs != [] {
      var init, last := xs[..|xs| - 1], xs[|xs| - 1];
      DistinctIffNoneCollapse(init);
      var all, some := (set x | x in xs), (set x | x in init);
      assert xs == init + [last];
      assert all == some + {last};
      if last in some {
        assert all == some;
        var i :| 0 <= i < |init| && init[i] == last;
        assert xs[i] == xs[|xs| - 1];
      } else if Distinct(init) {
        assert forall i, j | 0 <= i < j < |xs| :: xs[i] != xs[j];
      } else {
        var i, j :| 0 <= i < j < |init| && init[i] == init[j];
        assert xs[i] == xs[j];
      }
    }
  }

  lemma DistinctOfOneMore<T>(xs: seq<T>, x: T)
    ensures Distinct(xs + [x]) <==> Distinct(xs) && x !in xs
  {
    var more := xs + [x];
    if Distinct(more) {
      assert forall i | 0 <= i < |xs| :: more[i] == xs[i] && more[i] != more[|xs|];
    }
  }

  /** The indices, in ascending order, of exactly the elements of a kind. */
  ghost predicate PicksOut<T>(indices: seq<nat>, xs: seq<T>, kind: T -> bool) {
    && (forall j, k | 0 <= j < k < |indices| :: indices[j] < indices[k])
    && (forall j | 0 <= j < |indices| :: indices[j] < |xs| && kind(xs[indices[j]]))
    && (forall i | 0 <= i < |xs| && kind(xs[i]) :: i in indices)
  }

  lemma PicksOutOfOneMore<T>(indices: seq<nat>, xs: seq<T>, kind: T -> bool, x: T)
    requires PicksOut(indices, xs, kind)
    ensures PicksOut(if kind(x) then indices + [|xs|] else indices, xs + [x], kind)
  {
    var more, longer := xs + [x], if kind(x) then indices + [|xs|] else indices;
    assert forall i | 0 <= i < |xs| :: more[i] == xs[i];
    forall i | 0 <= i < |more| && kind(more[i])
      ensures i in longer
    {
      if i == |xs| {
        assert longer[|indices|] == i;
      } else {
        assert i in indices;
      }
    }
  }

  /** Indices moved along by `n`. */
  function MovedBy(indices: seq<nat>, n: nat): (r: seq<nat>)
    ensures |r| == |indices|
  {
    seq(|indices|, k requires 0 <= k < |indices| => indices[k] + n)
  }

  lemma PicksOutTogether<T>(left: seq<nat>, xs: seq<T>, right: seq<nat>, ys: seq<T>, kind: T -> bool)
    requires PicksOut(left, xs, kind) && PicksOut(right, ys, kind)
    ensures PicksOut(left + MovedBy(right, |xs|), xs + ys, kind)
  {
    var all, both := xs + ys, left + MovedBy(right, |xs|);
    forall j | 0 <= j < |both|
      ensures both[j] < |all| && kind(all[both[j]])
    {
      if j >= |left| {
        assert both[j] == right[j - |left|] + |xs| && all[both[j]] == ys[right[j - |left|]];
      }
    }
    forall i | 0 <= i < |all| && kind(all[i])
      ensures i in both
    {
      if i < |xs| {
        assert kind(xs[i]) && i in left;
      } else {
        assert kind(ys[i - |xs|]);
        var k :| 0 <= k < |right| && right[k] == i - |xs|;
        assert both[|left| + k] == i;
      }
    }
  }
}
