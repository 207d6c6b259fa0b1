/** Python's stable `sorted` on keys that are pairs of an integer and a string. */
module Sorting {

  type Key = (int, string)

  /** Lexicographic order of strings by code point. */
  predicate StringAtMost(a: string, b: string) {
    a == "" || (b != "" && (a[0] < b[0] || (a[0] == b[0] && StringAtMost(a[1..], b[1..]))))
  }

  /** The strings agree on `k` characters, and the first then ends or has the smaller character. */
  predicate PrecedesAt(a: string, b: string, k: nat) {
    && k <= |a| && k < |b|
    && (forall i | 0 <= i < k :: a[i] == b[i])
    && (k == |a| || a[k] < b[k])
  }

  /** One string precedes another: it ends first, or has the smaller character where they first differ. */
  ghost predicate Precedes(a: string, b: string) {
    exists k: nat :: PrecedesAt(a, b, k)
  }

  lemma PrecedingDiffers(a: string, b: string)
    requires Precedes(a, b)
    ensures a != b
  {
  }

  lemma TailsPrecedeAlike(a: string, b: string)
    requires a != "" && b != "" && a[0] == b[0]
    ensures Precedes(a, b) <==> Precedes(a[1..], b[1..])
  {
    if Precedes(a, b) {
      var k: nat :| PrecedesAt(a, b, k);
      assert k > 0 && PrecedesAt(a[1..], b[1..], k - 1);
    }
    if Precedes(a[1..], b[1..]) {
      var k: nat :| PrecedesAt(a[1..], b[1..], k);
      assert forall i | 0 < i < k + 1 :: a[i] == a[1..][i - 1] && b[i] == b[1..][i - 1];
      assert PrecedesAt(a, b, k + 1);
    }
  }

  /** A string is at most another exactly when it precedes it or is the same. */
  lemma {:induction false} StringAtMostMeansPrecedes(a: string, b: string)
    ensures StringAtMost(a, b) <==> a == b || Precedes(a, b)
    decreases |a|
  {
    if a != "" && b != "" && a[0] == b[0] {
      StringAtMostMeansPrecedes(a[1..], b[1..]);
      TailsPrecedeAlike(a, b);
      assert a == [a[0]] + a[1..] && b == [b[0]] + b[1..];
    } else if b != "" {
      assert PrecedesAt(a, b, 0) <==> a == "" || a[0] < b[0];
      assert a != "" ==> forall k: nat :: PrecedesAt(a, b, k) ==> k == 0;
    }
  }

  predicate AtMost(a: Key, b: Key) {
    a.0 < b.0 || (a.0 == b.0 && StringAtMost(a.1, b.1))
  }

  lemma {:induction false} StringsAreTotallyOrdered(a: string, b: string)
    ensures StringAtMost(a, b) || StringAtMost(b, a)
    ensures StringAtMost(a, b) && StringAtMost(b, a) ==> a == b
    decreases |a|
  {
    if a != "" && b != "" {
      StringsAreTotallyOrdered(a[1..], b[1..]);
      assert a == [a[0]] + a[1..] && b == [b[0]] + b[1..];
    }
  }

  lemma {:induction false} StringOrderIsTransitive(a: string, b: string, c: string)
    requires StringAtMost(a, b) && StringAtMost(b, c)
    ensures StringAtMost(a, c)
    decreases |a|
  {
    if a != "" && a[0] == b[0] == c[0] {
      StringOrderIsTransitive(a[1..], b[1..], c[1..]);
    }
  }

  lemma KeysAreTotallyOrdered(a: Key, b: Key)
    ensures AtMost(a, b) || AtMost(b, a)
    ensures AtMost(a, b) && AtMost(b, a) ==> a == b
  {
    StringsAreTotallyOrdered(a.1, b.1);
  }

  lemma KeyOrderIsTransitive(a: Key, b: Key, c: Key)
    requires AtMost(a, b) && AtMost(b, c)
    ensures AtMost(a, c)
  {
    if a.0 == b.0 == c.0 {
      StringOrderIsTransitive(a.1, b.1, c.1);
    }
  }

  /** `x` placed before the first element whose key is not smaller. */
  function Placed<T>(x: T, xs: seq<T>, key: T -> Key): seq<T> {
    if xs == [] || AtMost(key(x), key(xs[0])) then [x] + xs
    else [xs[0]] + Placed(x, xs[1..], key)
  }

  function Sorted<T>(xs: seq<T>, key: T -> Key): seq<T> {
    if xs == [] then [] else Placed(xs[0], Sorted(xs[1..], key), key)
  }

  predicate InOrder<T>(xs: seq<T>, key: T -> Key) {
    forall i, j | 0 <= i < j < |xs| :: AtMost(key(xs[i]), key(xs[j]))
  }

  /** The elements with one key, in order. */
  function OfKey<T>(xs: seq<T>, key: T -> Key, k: Key): seq<T> {
    if xs == [] then []
    else (if key(xs[0]) == k then [xs[0]] else []) + OfKey(xs[1..], key, k)
  }

  lemma {:induction false} PlacingAddsOne<T>(x: T, xs: seq<T>, key: T -> Key)
    ensures multiset(Placed(x, xs, key)) == multiset(xs) + multiset{x}
    decreases |xs|
  {
    if xs != [] {
      PlacingAddsOne(x, xs[1..], key);
      assert xs == [xs[0]] + xs[1..];
    }
  }

  lemma {:induction false} SortingPermutes<T>(xs: seq<T>, key: T -> Key)
    ensures multiset(Sorted(xs, key)) == multiset(xs)
    ensures |Sorted(xs, key)| == |xs|
    decreases |xs|
  {
    if xs != [] {
      SortingPermutes(xs[1..], key);
      PlacingAddsOne(xs[0], Sorted(xs[1..], key), key);
      assert xs == [xs[0]] + xs[1..];
    }
    assert |Sorted(xs, key)| == |multiset(Sorted(xs, key))| == |multiset(xs)| == |xs|;
  }

  lemma SameElements<T>(xs: seq<T>, ys: seq<T>, x: T)
    requires multiset(xs) == multiset(ys)
    ensures x in xs <==> x in ys
  {
    assert x in xs <==> x in multiset(xs);
    assert x in ys <==> x in multiset(ys);
  }

  lemma {:induction false} PlacingKeepsOrder<T>(x: T, xs: seq<T>, key: T -> Key)
    requires InOrder(xs, key)
    ensures InOrder(Placed(x, xs, key), key)
    decreases |xs|
  {
    if xs != [] {
      if AtMost(key(x), key(xs[0])) {
        forall j | 0 <= j < |xs|
          ensures AtMost(key(x), key(xs[j]))
        {
          if j > 0 {
            KeyOrderIsTransitive(key(x), key(xs[0]), key(xs[j]));
          }
        }
      } else {
        KeysAreTotallyOrdered(key(x), key(xs[0]));
        var rest := Placed(x, xs[1..], key);
        PlacingKeepsOrder(x, xs[1..], key);
        PlacingAddsOne(x, xs[1..], key);
        forall j | 0 <= j < |rest|
          ensures AtMost(key(xs[0]), key(rest[j]))
        {
          assert rest[j] in multiset(rest);
          if rest[j] != x {
            assert rest[j] in multiset(xs[1..]);
            var i :| 0 <= i < |xs[1..]| && xs[1..][i] == rest[j];
            assert xs[i + 1] == rest[j];
          }
        }
      }
    }
  }

  lemma {:induction false} SortingSorts<T>(xs: seq<T>, key: T -> Key)
    ensures InOrder(Sorted(xs, key), key)
    decreases |xs|
  {
    if xs != [] {
      SortingSorts(xs[1..], key);
      PlacingKeepsOrder(xs[0], Sorted(xs[1..], key), key);
    }
  }

  lemma {:induction false} PlacingIsStable<T>(x: T, xs: seq<T>, key: T -> Key, k: Key)
    ensures OfKey(Placed(x, xs, key), key, k) == (if key(x) == k then [x] else []) + OfKey(xs, key, k)
    decreases |xs|
  {
    if xs == [] || AtMost(key(x), key(xs[0])) {
      assert ([x] + xs)[1..] == xs;
    } else {
      var rest := Placed(x, xs[1..], key);
      PlacingIsStable(x, xs[1..], key, k);
      assert ([xs[0]] + rest)[1..] == rest;
      KeysAreTotallyOrdered(key(x), key(xs[0]));
    }
  }

  /** Elements with equal keys keep their order. */
  lemma {:induction false} SortingIsStable<T>(xs: seq<T>, key: T -> Key, k: Key)
    ensures OfKey(Sorted(xs, key), key, k) == OfKey(xs, key, k)
    decreases |xs|
  {
    if xs != [] {
      SortingIsStable(xs[1..], key, k);
      PlacingIsStable(xs[0], Sorted(xs[1..], key), key, k);
    }
  }

  /** No two different elements of the list share a key. */
  predicate KeysIdentify<T(==)>(xs: seq<T>, key: T -> Key) {
    forall i, j | 0 <= i < |xs| && 0 <= j < |xs| && key(xs[i]) == key(xs[j]) :: xs[i] == xs[j]
  }

  lemma SmallestIsFirst<T>(xs: seq<T>, key: T -> Key, x: T)
    requires InOrder(xs, key) && x in xs
    ensures AtMost(key(xs[0]), key(x))
  {
    var i :| 0 <= i < |xs| && xs[i] == x;
    KeysAreTotallyOrdered(key(x), key(x));
  }

  lemma TailsOfPermutations<T>(xs: seq<T>, ys: seq<T>)
    requires multiset(xs) == multiset(ys) && xs != [] && ys != [] && xs[0] == ys[0]
    ensures multiset(xs[1..]) == multiset(ys[1..])
  {
    assert xs == [xs[0]] + xs[1..] && ys == [ys[0]] + ys[1..];
    assert multiset(xs[1..]) == multiset(xs) - multiset{xs[0]};
    assert multiset(ys[1..]) == multiset(ys) - multiset{ys[0]};
  }

  lemma FirstElementsAgree<T>(xs: seq<T>, ys: seq<T>, key: T -> Key)
    requires InOrder(xs, key) && InOrder(ys, key)
    requires multiset(xs) == multiset(ys) && xs != [] && ys != []
    requires KeysIdentify(xs, key)
    ensures xs[0] == ys[0]
  {
    SameElements(xs, ys, xs[0]);
    SameElements(xs, ys, ys[0]);
    SmallestIsFirst(xs, key, ys[0]);
    SmallestIsFirst(ys, key, xs[0]);
    KeysAreTotallyOrdered(key(xs[0]), key(ys[0]));
    var j :| 0 <= j < |xs| && xs[j] == ys[0];
    assert xs[0] == xs[j];
  }

  lemma TailsKeepOrder<T>(xs: seq<T>, key: T -> Key)
    requires xs != [] && InOrder(xs, key)
    ensures InOrder(xs[1..], key) && (KeysIdentify(xs, key) ==> KeysIdentify(xs[1..], key))
  {
    assert forall i | 0 <= i < |xs| - 1 :: xs[1..][i] == xs[i + 1];
  }

  /** Two ordered lists of the same elements are equal when keys identify elements. */
  lemma {:induction false} OrderedListsOfTheSameElementsAgree<T>(xs: seq<T>, ys: seq<T>, key: T -> Key)
    requires InOrder(xs, key) && InOrder(ys, key)
    requires multiset(xs) == multiset(ys)
    requires KeysIdentify(xs, key)
    ensures xs == ys
    decreases |xs|
  {
    assert |xs| == |multiset(xs)| == |multiset(ys)| == |ys|;
    if xs != [] {
      FirstElementsAgree(xs, ys, key);
      TailsOfPermutations(xs, ys);
      TailsKeepOrder(xs, key);
      TailsKeepOrder(ys, key);
      OrderedListsOfTheSameElementsAgree(xs[1..], ys[1..], key);
      assert xs == [xs[0]] + xs[1..] && ys == [ys[0]] + ys[1..];
    }
  }

  lemma {:induction false} OfKeyOfConcatenation<T>(xs: seq<T>, ys: seq<T>, key: T -> Key, k: Key)
    ensures OfKey(xs + ys, key, k) == OfKey(xs, key, k) + OfKey(ys, key, k)
    decreases |xs|
  {
    if xs == [] {
      assert xs + ys == ys;
    } else {
      OfKeyOfConcatenation(xs[1..], ys, key, k);
      assert (xs + ys)[1..] == xs[1..] + ys;
    }
  }

  /** Replacing an element by another one with the same key changes that key's list. */
  lemma ReplacementShowsInTheKeysList<T>(xs: seq<T>, ys: seq<T>, i: nat, key: T -> Key)
    requires |xs| == |ys| && i < |xs| && xs[..i] == ys[..i]
    requires xs[i] != ys[i] && key(xs[i]) == key(ys[i])
    ensures OfKey(xs, key, key(xs[i])) != OfKey(ys, key, key(xs[i]))
  {
    var k := key(xs[i]);
    var common := OfKey(xs[..i], key, k);
    assert xs == xs[..i] + xs[i..] && ys == ys[..i] + ys[i..];
    OfKeyOfConcatenation(xs[..i], xs[i..], key, k);
    OfKeyOfConcatenation(ys[..i], ys[i..], key, k);
    assert OfKey(xs, key, k)[|common|] == xs[i];
    assert OfKey(ys, key, k)[|common|] == ys[i];
  }
}
