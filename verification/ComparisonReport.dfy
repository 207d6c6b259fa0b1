/** What a comparison of snapshots says of them, item by item, and the order in which it says it. */
module ComparisonReport {
  import opened Results
  import opened Sorting
  import opened StringSets
  import opened Sequences
  import opened Comparison

  /** In strictly ascending order, so without repetitions. */
  ghost predicate Ascending(xs: seq<string>) {
    forall i, j | 0 <= i < j < |xs| :: Precedes(xs[i], xs[j])
  }

  lemma ListingsAscend(s: set<string>)
    ensures Ascending(SortedSet(s)) && Distinct(SortedSet(s))
    ensures forall x :: x in SortedSet(s) <==> x in s
  {
    var listed := SortedSet(s);
    SortedSetIsInOrder(s);
    DistinctIffNoneCollapse(listed);
    assert forall x :: x in listed <==> x in SetOf(listed);
    forall i, j | 0 <= i < j < |listed|
      ensures Precedes(listed[i], listed[j])
    {
      assert AtMost(StringKey(listed[i]), StringKey(listed[j]));
      StringAtMostMeansPrecedes(listed[i], listed[j]);
    }
  }

  /** Ids and versions are those of the arguments in turn, and a regression is a violation that is new. */
  lemma ComparisonNamesItsSnapshots<V>(before: Snapshot<V>, after: Snapshot<V>)
    ensures var c := Compared(before, after);
            && c.beforeId == before.snapshotId && c.afterId == after.snapshotId
            && (!c.contractVersionChanged <==> before.contractVersion == after.contractVersion)
            && (!c.systemVersionChanged <==> before.systemVersion == after.systemVersion)
            && (c.regressionDetected <==> exists v :: v in after.violations && v !in before.violations)
  {
    var introduced := SetOf(after.violations) - SetOf(before.violations);
    if v :| v in after.violations && v !in before.violations {
      assert v in introduced;
    }
  }

  /** Every list is ascending and has exactly the members of one side that the other side lacks. */
  lemma ListsAreAscendingDifferences<V>(before: Snapshot<V>, after: Snapshot<V>, x: string)
    ensures var c := Compared(before, after);
            && Ascending(c.addedChanges) && Ascending(c.removedChanges)
            && Ascending(c.introducedViolations) && Ascending(c.resolvedViolations)
            && Ascending(c.addedCounterexampleIds) && Ascending(c.removedCounterexampleIds)
            && (x in c.addedChanges <==> x in after.baseline && x !in before.baseline)
            && (x in c.removedChanges <==> x in before.baseline && x !in after.baseline)
            && (x in c.introducedViolations <==> x in after.violations && x !in before.violations)
            && (x in c.resolvedViolations <==> x in before.violations && x !in after.violations)
            && (x in c.addedCounterexampleIds <==> x in after.counterexampleIds && x !in before.counterexampleIds)
            && (x in c.removedCounterexampleIds <==> x in before.counterexampleIds && x !in after.counterexampleIds)
  {
    ListingsAscend(after.baseline.Keys - before.baseline.Keys);
    ListingsAscend(before.baseline.Keys - after.baseline.Keys);
    ListingsAscend(SetOf(after.violations) - SetOf(before.violations));
    ListingsAscend(SetOf(before.violations) - SetOf(after.violations));
    ListingsAscend(SetOf(after.counterexampleIds) - SetOf(before.counterexampleIds));
    ListingsAscend(SetOf(before.counterexampleIds) - SetOf(after.counterexampleIds));
  }

  /** A change carries a field's two values, or shows a violation as absent before and present after, or conversely. */
  ghost predicate Shows<V(!new)>(c: Change<V>, before: Snapshot<V>, after: Snapshot<V>) {
    match c.changeType
    case BaselineFieldChanged =>
      && c.before == Field(if c.field in before.baseline then before.baseline[c.field] else None)
      && c.after == Field(if c.field in after.baseline then after.baseline[c.field] else None)
      && c.before != c.after
    case ViolationIntroduced =>
      exists v :: v in after.violations && v !in before.violations
                  && c.field == "violation:" + v && c.before == Flag(false) && c.after == Flag(true)
    case ViolationResolved =>
      exists v :: v in before.violations && v !in after.violations
                  && c.field == "violation:" + v && c.before == Flag(true) && c.after == Flag(false)
  }

  lemma ChangesShowTheDifferences<V(!new)>(before: Snapshot<V>, after: Snapshot<V>, c: Change<V>)
    ensures c in Compared(before, after).changes <==> Shows(c, before, after)
  {
    ChangesAreExactlyTheDifferences(before, after, c);
    if c.changeType == ViolationIntroduced && Shows(c, before, after) {
      var v :| v in after.violations && v !in before.violations
        && c.field == "violation:" + v && c.before == Flag(false) && c.after == Flag(true);
      assert c == Introduced(v);
    }
    if c.changeType == ViolationResolved && Shows(c, before, after) {
      var v :| v in before.violations && v !in after.violations
        && c.field == "violation:" + v && c.before == Flag(true) && c.after == Flag(false);
      assert c == Resolved(v);
    }
  }

  /** A snapshot compared with itself: nothing is listed, no flag is raised, and verification passes. */
  lemma ComparingWithItselfFindsNothing<V(!new)>(s: Snapshot<V>)
    ensures var c := Compared(s, s);
            && c.changes == [] && c.addedChanges == [] && c.removedChanges == []
            && c.introducedViolations == [] && c.resolvedViolations == []
            && c.addedCounterexampleIds == [] && c.removedCounterexampleIds == []
            && !c.contractVersionChanged && !c.systemVersionChanged && !c.regressionDetected
            && Verified(c).passed
  {
    var changes := Compared(s, s).changes;
    if changes != [] {
      ChangesAreExactlyTheDifferences(s, s, changes[0]);
      assert false;
    }
    assert SetOf(s.violations) - SetOf(s.violations) == {} && s.baseline.Keys - s.baseline.Keys == {};
    assert SetOf(s.counterexampleIds) - SetOf(s.counterexampleIds) == {};
    PassingMeansNoNewViolation(s, s);
  }

  /** Fields that are all different. */
  predicate FieldsDiffer<V>(changes: seq<Change<V>>) {
    forall i, j | 0 <= i < j < |changes| :: changes[i].field != changes[j].field
  }

  lemma {:induction false} BaselineFieldsDiffer<V>(before: Baseline<V>, after: Baseline<V>, fields: seq<string>)
    requires Distinct(fields)
    ensures FieldsDiffer(BaselineChanges(before, after, fields))
    ensures forall c | c in BaselineChanges(before, after, fields) ::
              c.changeType == BaselineFieldChanged && c.field in fields
    decreases |fields|
  {
    if fields != [] {
      var init, last := fields[..|fields| - 1], fields[|fields| - 1];
      BaselineFieldsDiffer(before, after, init);
      assert last !in init;
      assert fields == init + [last];
    }
  }

  lemma ViolationFieldsDiffer<V>(introduced: seq<string>, resolved: seq<string>)
    requires Distinct(introduced) && Distinct(resolved) && forall v | v in introduced :: v !in resolved
    ensures FieldsDiffer(IntroducedChanges<V>(introduced) + ResolvedChanges<V>(resolved))
    ensures forall c | c in IntroducedChanges<V>(introduced) + ResolvedChanges<V>(resolved) ::
              c.changeType != BaselineFieldChanged
  {
    var all := introduced + resolved;
    var changes := IntroducedChanges<V>(introduced) + ResolvedChanges<V>(resolved);
    assert forall i | 0 <= i < |all| :: changes[i].field == "violation:" + all[i];
    forall i, j | 0 <= i < j < |changes|
      ensures changes[i].field != changes[j].field
    {
      if i < |introduced| <= j {
        assert all[i] in introduced && all[j] in resolved;
      }
      assert all[i] != all[j];
      assert changes[i].field[|"violation:"|..] == all[i] && changes[j].field[|"violation:"|..] == all[j];
    }
  }

  lemma {:induction false} AtMostOnePerField<V>(changes: seq<Change<V>>, k: Key)
    requires FieldsDiffer(changes)
    ensures |OfKey(changes, ChangeKey, k)| <= 1
    ensures forall c | c in OfKey(changes, ChangeKey, k) :: c in changes && ChangeKey(c) == k
    decreases |changes|
  {
    if changes != [] {
      var rest := changes[1..];
      AtMostOnePerField(rest, k);
      assert forall i | 0 <= i < |rest| :: rest[i] == changes[i + 1];
      assert forall c | c in rest :: c.field != changes[0].field;
      if OfKey(rest, ChangeKey, k) != [] {
        assert OfKey(rest, ChangeKey, k)[0] in rest;
      }
    }
  }

  lemma {:induction false} PairsOfOneKeyKeepTheirOrder<T>(xs: seq<T>, key: T -> Key, i: nat, j: nat)
    requires i < j < |xs| && key(xs[i]) == key(xs[j])
    ensures exists p, q :: 0 <= p < q < |OfKey(xs, key, key(xs[i]))|
              && OfKey(xs, key, key(xs[i]))[p] == xs[i] && OfKey(xs, key, key(xs[i]))[q] == xs[j]
    decreases |xs|
  {
    var k, rest := key(xs[i]), xs[1..];
    var tail := OfKey(rest, key, k);
    if i == 0 {
      OnesOfAKeyAreListed(rest, key, j - 1);
      var q :| 0 <= q < |tail| && tail[q] == xs[j];
      assert OfKey(xs, key, k) == [xs[0]] + tail;
      assert OfKey(xs, key, k)[0] == xs[i] && OfKey(xs, key, k)[q + 1] == xs[j];
    } else {
      PairsOfOneKeyKeepTheirOrder(rest, key, i - 1, j - 1);
      var p, q :| 0 <= p < q < |tail| && tail[p] == xs[i] && tail[q] == xs[j];
      var head := if key(xs[0]) == k then [xs[0]] else [];
      assert OfKey(xs, key, k) == head + tail;
      assert OfKey(xs, key, k)[p + |head|] == xs[i] && OfKey(xs, key, k)[q + |head|] == xs[j];
    }
  }

  lemma {:induction false} OnesOfAKeyAreListed<T>(xs: seq<T>, key: T -> Key, i: nat)
    requires i < |xs|
    ensures xs[i] in OfKey(xs, key, key(xs[i]))
    decreases |xs|
  {
    if i > 0 {
      OnesOfAKeyAreListed(xs[1..], key, i - 1);
    }
  }

  function BaselinePart<V(==)>(before: Snapshot<V>, after: Snapshot<V>): seq<Change<V>> {
    BaselineChanges(before.baseline, after.baseline, SortedSet(before.baseline.Keys + after.baseline.Keys))
  }

  function ViolationPart<V>(before: Snapshot<V>, after: Snapshot<V>): seq<Change<V>> {
    IntroducedChanges<V>(SortedSet(SetOf(after.violations) - SetOf(before.violations)))
    + ResolvedChanges<V>(SortedSet(SetOf(before.violations) - SetOf(after.violations)))
  }

  lemma ChangesInTwoParts<V>(before: Snapshot<V>, after: Snapshot<V>)
    ensures UnsortedChanges(before, after) == BaselinePart(before, after) + ViolationPart(before, after)
  {
  }

  /** At most one change of the baseline has a given field. */
  lemma OneBaselineChange<V>(before: Snapshot<V>, after: Snapshot<V>, k: Key)
    ensures var found := OfKey(BaselinePart(before, after), ChangeKey, k);
            |found| <= 1 && forall c | c in found :: c.changeType == BaselineFieldChanged
  {
    ListingsAscend(before.baseline.Keys + after.baseline.Keys);
    BaselineFieldsDiffer(
      before.baseline, after.baseline, SortedSet(before.baseline.Keys + after.baseline.Keys));
    AtMostOnePerField(BaselinePart(before, after), k);
  }

  lemma OneViolationChange<V>(before: Snapshot<V>, after: Snapshot<V>, k: Key)
    ensures var found := OfKey(ViolationPart(before, after), ChangeKey, k);
            |found| <= 1 && forall c | c in found :: c.changeType != BaselineFieldChanged
  {
    ListingsAscend(SetOf(after.violations) - SetOf(before.violations));
    ListingsAscend(SetOf(before.violations) - SetOf(after.violations));
    ViolationFieldsDiffer<V>(
      SortedSet(SetOf(after.violations) - SetOf(before.violations)),
      SortedSet(SetOf(before.violations) - SetOf(after.violations)));
    AtMostOnePerField(ViolationPart(before, after), k);
  }

  lemma OneBeforeTheOther<V>(left: seq<Change<V>>, right: seq<Change<V>>)
    requires |left| <= 1 && forall c | c in left :: c.changeType == BaselineFieldChanged
    requires |right| <= 1 && forall c | c in right :: c.changeType != BaselineFieldChanged
    ensures BaselineFirst(left + right)
  {
  }

  predicate BaselineFirst<V>(changes: seq<Change<V>>) {
    forall p, q | 0 <= p < q < |changes| ::
      changes[p].changeType == BaselineFieldChanged && changes[q].changeType != BaselineFieldChanged
  }

  /** The changes of one field: its new value first, then a violation that happens to have its name. */
  lemma OneFieldsChanges<V>(before: Snapshot<V>, after: Snapshot<V>, k: Key)
    ensures BaselineFirst(OfKey(UnsortedChanges(before, after), ChangeKey, k))
  {
    var baseline, violations := BaselinePart(before, after), ViolationPart(before, after);
    OneBaselineChange(before, after, k);
    OneViolationChange(before, after, k);
    ChangesInTwoParts(before, after);
    OfKeyOfConcatenation(baseline, violations, ChangeKey<V>, k);
    OneBeforeTheOther(OfKey(baseline, ChangeKey<V>, k), OfKey(violations, ChangeKey<V>, k));
  }

  /** The changes ascend by field; at one field the baseline's change comes before a violation's. So none is repeated. */
  lemma ChangesAscendByField<V>(before: Snapshot<V>, after: Snapshot<V>)
    ensures var changes := Compared(before, after).changes;
            forall i, j | 0 <= i < j < |changes| ::
              || Precedes(changes[i].field, changes[j].field)
              || (changes[i].field == changes[j].field
                  && changes[i].changeType == BaselineFieldChanged && changes[j].changeType != BaselineFieldChanged)
  {
    var unsorted, changes := UnsortedChanges(before, after), Compared(before, after).changes;
    SortingSorts(unsorted, ChangeKey<V>);
    forall i, j | 0 <= i < j < |changes|
      ensures || Precedes(changes[i].field, changes[j].field)
              || (changes[i].field == changes[j].field
                  && changes[i].changeType == BaselineFieldChanged && changes[j].changeType != BaselineFieldChanged)
    {
      assert AtMost(ChangeKey(changes[i]), ChangeKey(changes[j]));
      StringAtMostMeansPrecedes(changes[i].field, changes[j].field);
      if changes[i].field == changes[j].field {
        var k := ChangeKey(changes[i]);
        SortingIsStable(unsorted, ChangeKey<V>, k);
        PairsOfOneKeyKeepTheirOrder(changes, ChangeKey<V>, i, j);
        OneFieldsChanges(before, after, k);
      }
    }
  }

  /** Verification names the snapshots and lists the new violations in ascending order. */
  lemma VerificationListsTheIntroducedViolations<V>(before: Snapshot<V>, after: Snapshot<V>)
    ensures var c := Compared(before, after);
            && Verified(c).beforeId == before.snapshotId && Verified(c).afterId == after.snapshotId
            && Verified(c).violations == c.introducedViolations && Ascending(Verified(c).violations)
  {
    var introduced := Compared(before, after).introducedViolations;
    ListingsAscend(SetOf(after.violations) - SetOf(before.violations));
    SortedSetIsInOrder(SetOf(after.violations) - SetOf(before.violations));
    SortingSorts(introduced, StringKey);
    SortingPermutes(introduced, StringKey);
    OrderedListsOfTheSameElementsAgree(introduced, Sorted(introduced, StringKey), StringKey);
  }
}
