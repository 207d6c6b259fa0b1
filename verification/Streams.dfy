/** The stream rewritings: moving an event and delivering it twice. */
module Streams {
  import opened Sequences

  /** Where the event now at `k` stood before the event at `source` was moved to `target`. */
  function MovedFrom(source: nat, target: nat, k: nat): nat {
    if k == target then source
    else if source <= k < target then k + 1
    else if target < k <= source then k - 1
    else k
  }

  function Moved<T>(xs: seq<T>, source: nat, target: nat): (r: seq<T>)
    requires source < |xs| && target < |xs|
    ensures |r| == |xs|
  {
    seq(|xs|, k requires 0 <= k < |xs| => xs[MovedFrom(source, target, k)])
  }

  function Duplicated<T>(xs: seq<T>, target: nat): (r: seq<T>)
    requires target < |xs|
    ensures |r| == |xs| + 1
  {
    seq(|xs| + 1, k requires 0 <= k < |xs| + 1 => if k <= target then xs[k] else xs[k - 1])
  }

  lemma PopThenInsertMoves<T>(xs: seq<T>, source: nat, target: nat)
    requires source < |xs| && target < |xs|
    ensures Inserted(Popped(xs, source), target, xs[source]) == Moved(xs, source, target)
  {
    var popped := Popped(xs, source);
    assert |Inserted(popped, target, xs[source])| == |xs|;
    forall k | 0 <= k < |xs|
      ensures Inserted(popped, target, xs[source])[k] == xs[MovedFrom(source, target, k)]
    {
      assert forall i | 0 <= i < |popped| :: popped[i] == xs[if i < source then i else i + 1];
    }
  }

  lemma InsertAfterDuplicates<T>(xs: seq<T>, target: nat)
    requires target < |xs|
    ensures Inserted(xs, target + 1, xs[target]) == Duplicated(xs, target)
  {
  }

  /** Moving back undoes a move. */
  lemma MovingBackRestores<T>(xs: seq<T>, source: nat, target: nat)
    requires source < |xs| && target < |xs|
    ensures Moved(Moved(xs, source, target), target, source) == xs
  {
    forall k | 0 <= k < |xs|
      ensures Moved(Moved(xs, source, target), target, source)[k] == xs[k]
    {
      assert MovedFrom(source, target, MovedFrom(target, source, k)) == k;
    }
  }

  lemma MovingConserves<T>(xs: seq<T>, source: nat, target: nat)
    requires source < |xs| && target < |xs|
    ensures multiset(Moved(xs, source, target)) == multiset(xs)
  {
    PopThenInsertMoves(xs, source, target);
    PoppingKeepsTheOthers(xs, source);
    InsertingAddsOne(Popped(xs, source), target, xs[source]);
  }

  lemma DuplicatingAddsOneCopy<T>(xs: seq<T>, target: nat)
    requires target < |xs|
    ensures multiset(Duplicated(xs, target)) == multiset(xs) + multiset{xs[target]}
  {
    InsertAfterDuplicates(xs, target);
    InsertingAddsOne(xs, target + 1, xs[target]);
  }
}
