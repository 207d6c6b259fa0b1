/** Sets of strings listed in order. */
module StringSets {
  import opened Sorting

  /** Strings sort by themselves. */
  function StringKey(s: string): Key { (0, s) }

  function SetOf(xs: seq<string>): set<string> {
    set x | x in xs
  }

  predicate IsSmallest(s: set<string>, m: string) {
    m in s && forall x | x in s :: StringAtMost(m, x)
  }

  lemma {:induction false} SmallestExists(s: set<string>)
    requires s != {}
    ensures exists m :: m in s && IsSmallest(s, m)
    decreases |s|
  {
    var x :| x in s;
    var rest := s - {x};
    assert s == rest + {x};
    StringsAreTotallyOrdered(x, x);
    if rest == {} {
      assert forall y | y in s :: y == x;
      assert IsSmallest(s, x);
    } else {
      SmallestExists(rest);
      var m :| m in rest && IsSmallest(rest, m);
      StringsAreTotallyOrdered(m, x);
      if StringAtMost(m, x) {
        assert IsSmallest(s, m);
      } else {
        forall y | y in s
          ensures StringAtMost(x, y)
        {
          if y != x {
            StringOrderIsTransitive(x, m, y);
          }
        }
        assert IsSmallest(s, x);
      }
    }
  }

  function Smallest(s: set<string>): (m: string)
    requires s != {}
    ensures m in s
  {
    SmallestExists(s);
    assert forall a, b | IsSmallest(s, a) && IsSmallest(s, b) :: a == b by {
      forall a, b | IsSmallest(s, a) && IsSmallest(s, b)
        ensures a == b
      {
        StringsAreTotallyOrdered(a, b);
      }
    }
    var m :| m in s && IsSmallest(s, m);
    m
  }

  /** Python's `sorted` on a set of strings. */
  function SortedSet(s: set<string>): (r: seq<string>)
    ensures SetOf(r) == s
    decreases |s|
  {
    if s == {} then []
    else
      var m := Smallest(s);
      var rest := SortedSet(s - {m});
      assert SetOf([m] + rest) == s by {
        forall x
          ensures x in SetOf([m] + rest) <==> x in s
        {
          assert x in [m] + rest <==> x == m || x in rest;
          assert x in rest <==> x in SetOf(rest);
        }
      }
      [m] + rest
  }

  /** The listing is in order and free of repetitions. */
  lemma {:induction false} SortedSetIsInOrder(s: set<string>)
    ensures InOrder(SortedSet(s), StringKey)
    ensures |SortedSet(s)| == |s|
    decreases |s|
  {
    if s != {} {
      var m := Smallest(s);
      var rest := SortedSet(s - {m});
      SortedSetIsInOrder(s - {m});
      SmallestExists(s);
      assert IsSmallest(s, m);
      forall j | 0 <= j < |rest|
        ensures AtMost(StringKey(m), StringKey(rest[j]))
      {
        assert rest[j] in SetOf(rest);
      }
    }
  }
}
