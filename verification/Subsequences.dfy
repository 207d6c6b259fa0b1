/** Order-preserving subsequences, witnessed by a strictly increasing index map. */
module Subsequences {

  ghost predicate Embeds<T>(indices: seq<nat>, xs: seq<T>, ys: seq<T>) {
    && |indices| == |xs|
    && (forall i | 0 <= i < |xs| :: indices[i] < |ys| && xs[i] == ys[indices[i]])
    && (forall i, j | 0 <= i < j < |xs| :: indices[i] < indices[j])
  }

  ghost predicate SubsequenceOf<T>(xs: seq<T>, ys: seq<T>) {
    exists indices: seq<nat> :: Embeds(indices, xs, ys)
  }

  lemma SubsequenceReflexive<T>(xs: seq<T>)
    ensures SubsequenceOf(xs, xs)
  {
    assert Embeds(seq(|xs|, i => i), xs, xs);
  }

  lemma SubsequenceTransitive<T>(xs: seq<T>, ys: seq<T>, zs: seq<T>)
    requires SubsequenceOf(xs, ys) && SubsequenceOf(ys, zs)
    ensures SubsequenceOf(xs, zs)
  {
    var f: seq<nat> :| Embeds(f, xs, ys);
    var g: seq<nat> :| Embeds(g, ys, zs);
    assert Embeds(seq(|xs|, i requires 0 <= i < |xs| => g[f[i]]), xs, zs);
  }

  /** Cutting a contiguous block out of a sequence leaves a subsequence. */
  lemma CutIsSubsequence<T>(xs: seq<T>, start: nat, size: nat)
    requires start + size <= |xs|
    ensures SubsequenceOf(xs[..start] + xs[start + size..], xs)
  {
    var cut := xs[..start] + xs[start + size..];
    assert Embeds(seq(|cut|, i => if i < start then i else i + size), cut, xs);
  }

  lemma SubsequenceMembers<T>(xs: seq<T>, ys: seq<T>, x: T)
    requires SubsequenceOf(xs, ys) && x in xs
    ensures x in ys
  {
  }

  /** A proper subsequence misses some index: it is a subsequence of the sequence without that element. */
  lemma ProperSubsequenceMissesAnIndex<T>(xs: seq<T>, ys: seq<T>) returns (k: nat)
    requires SubsequenceOf(xs, ys) && xs != ys
    ensures k < |ys| && SubsequenceOf(xs, ys[..k] + ys[k + 1..])
  {
    var f: seq<nat> :| Embeds(f, xs, ys);
    IncreasingIndices(f);
    k := FirstMoved(f);
    assert k == |f| == |ys| ==> xs == ys;
    if |f| > 0 {
      assert |f| - 1 <= f[|f| - 1] < |ys|;
    }
    var cut := ys[..k] + ys[k + 1..];
    assert Embeds(seq(|f|, i requires 0 <= i < |f| => if i < k then f[i] else f[i] - 1), xs, cut);
  }

  lemma {:induction false} IncreasingIndices(f: seq<nat>)
    requires forall i, j | 0 <= i < j < |f| :: f[i] < f[j]
    ensures forall i | 0 <= i < |f| :: i <= f[i]
    decreases |f|
  {
    if |f| > 0 {
      IncreasingIndices(f[..|f| - 1]);
      assert forall i | 0 <= i < |f| - 1 :: f[..|f| - 1][i] == f[i];
      if |f| > 1 {
        assert f[|f| - 2] < f[|f| - 1];
      }
    }
  }

  lemma FirstMoved(f: seq<nat>) returns (k: nat)
    requires forall i | 0 <= i < |f| :: i <= f[i]
    ensures k <= |f| && (forall i | 0 <= i < k :: f[i] == i)
    ensures k < |f| ==> k < f[k]
  {
    k := 0;
    while k < |f| && f[k] == k
      invariant k <= |f| && forall i | 0 <= i < k :: f[i] == i
    {
      k := k + 1;
    }
  }
}
