/** Comparison of two verification snapshots, and the regression decision on it. */
module Comparison {
  import opened Results
  import opened Payments
  import opened Sorting
  import opened StringSets

  /** A baseline value is Python's `None` or some other value, with Python's equality. */
  type Baseline<V> = map<string, Option<V>>

  datatype Snapshot<V> = Snapshot(
    snapshotId: Uuid, contractVersion: string, systemVersion: string,
    baseline: Baseline<V>, violations: seq<string>, counterexampleIds: seq<string>)

  datatype ChangeType = BaselineFieldChanged | ViolationIntroduced | ViolationResolved

  datatype ChangeValue<V> = Field(value: Option<V>) | Flag(on: bool)

  datatype Change<V> = Change(field: string, before: ChangeValue<V>, after: ChangeValue<V>, changeType: ChangeType)

  datatype SnapshotComparison<V> = SnapshotComparison(
    beforeId: Uuid, afterId: Uuid, contractVersionChanged: bool, systemVersionChanged: bool,
    changes: seq<Change<V>>, addedChanges: seq<string>, removedChanges: seq<string>,
    introducedViolations: seq<string>, resolvedViolations: seq<string>,
    addedCounterexampleIds: seq<string>, removedCounterexampleIds: seq<string>, regressionDetected: bool)

  datatype VerificationResult = VerificationResult(
    beforeId: Uuid, afterId: Uuid, passed: bool, regressionDetected: bool, violations: seq<string>)

  function ChangeKey<V>(c: Change<V>): Key { (0, c.field) }

  /** `dict.get`: a missing key reads as `None`. */
  function Get<V>(baseline: Baseline<V>, field: string): Option<V> {
    if field in baseline then baseline[field] else None
  }

  function BaselineChanges<V(==)>(before: Baseline<V>, after: Baseline<V>, fields: seq<string>): seq<Change<V>> {
    if fields == [] then []
    else
      var field := fields[|fields| - 1];
      BaselineChanges(before, after, fields[..|fields| - 1])
      + if Get(before, field) == Get(after, field) then []
        else [Change(field, Field(Get(before, field)), Field(Get(after, field)), BaselineFieldChanged)]
  }

  function Introduced<V>(violation: string): Change<V> {
    Change("violation:" + violation, Flag(false), Flag(true), ViolationIntroduced)
  }

  function Resolved<V>(violation: string): Change<V> {
    Change("violation:" + violation, Flag(true), Flag(false), ViolationResolved)
  }

  function IntroducedChanges<V>(violations: seq<string>): (r: seq<Change<V>>)
    ensures |r| == |violations|
  {
    seq(|violations|, i requires 0 <= i < |violations| => Introduced<V>(violations[i]))
  }

  function ResolvedChanges<V>(violations: seq<string>): (r: seq<Change<V>>)
    ensures |r| == |violations|
  {
    seq(|violations|, i requires 0 <= i < |violations| => Resolved<V>(violations[i]))
  }

  function UnsortedChanges<V(==)>(before: Snapshot<V>, after: Snapshot<V>): seq<Change<V>> {
    BaselineChanges(before.baseline, after.baseline, SortedSet(before.baseline.Keys + after.baseline.Keys))
    + IntroducedChanges(SortedSet(SetOf(after.violations) - SetOf(before.violations)))
    + ResolvedChanges(SortedSet(SetOf(before.violations) - SetOf(after.violations)))
  }

  function Compared<V(==)>(before: Snapshot<V>, after: Snapshot<V>): SnapshotComparison<V> {
    var introduced := SetOf(after.violations) - SetOf(before.violations);
    SnapshotComparison(
      before.snapshotId, after.snapshotId,
      before.contractVersion != after.contractVersion, before.systemVersion != after.systemVersion,
      Sorted(UnsortedChanges(before, after), ChangeKey),
      SortedSet(after.baseline.Keys - before.baseline.Keys), SortedSet(before.baseline.Keys - after.baseline.Keys),
      SortedSet(introduced), SortedSet(SetOf(before.violations) - SetOf(after.violations)),
      SortedSet(SetOf(after.counterexampleIds) - SetOf(before.counterexampleIds)),
      SortedSet(SetOf(before.counterexampleIds) - SetOf(after.counterexampleIds)),
      introduced != {})
  }

  method CompareBaselines<V(==)>(before: Baseline<V>, after: Baseline<V>) returns (changes: seq<Change<V>>)
    ensures changes == BaselineChanges(before, after, SortedSet(before.Keys + after.Keys))
  {
    changes := [];
    var fields := SortedSet(before.Keys + after.Keys);
    for i := 0 to |fields|
      invariant changes == BaselineChanges(before, after, fields[..i])
    {
      var field := fields[i];
      assert fields[..i + 1][..i] == fields[..i];
      var beforeValue, afterValue := Get(before, field), Get(after, field);
      if beforeValue != afterValue {
        changes := changes + [Change(field, Field(beforeValue), Field(afterValue), BaselineFieldChanged)];
      }
    }
    assert fields[..|fields|] == fields;
  }

  method AppendViolationChanges<V>(before: seq<Change<V>>, introduced: seq<string>, resolved: seq<string>)
    returns (changes: seq<Change<V>>)
    ensures changes == before + IntroducedChanges(introduced) + ResolvedChanges(resolved)
  {
    changes := before;
    for i := 0 to |introduced|
      invariant changes == before + IntroducedChanges(introduced[..i])
    {
      changes := changes + [Introduced(introduced[i])];
    }
    ghost var introducedChanges := changes;
    for i := 0 to |resolved|
      invariant changes == introducedChanges + ResolvedChanges(resolved[..i])
    {
      changes := changes + [Resolved(resolved[i])];
    }
    assert introduced[..|introduced|] == introduced && resolved[..|resolved|] == resolved;
  }

  lemma NonEmptyListing(s: set<string>)
    ensures SortedSet(s) != [] <==> s != {}
  {
    if SortedSet(s) != [] {
      assert SortedSet(s)[0] in SetOf(SortedSet(s));
    }
  }

  method Compare<V(==)>(before: Snapshot<V>, after: Snapshot<V>) returns (r: SnapshotComparison<V>)
    ensures r == Compared(before, after)
  {
    var changes := CompareBaselines(before.baseline, after.baseline);
    var beforeViolations, afterViolations := SetOf(before.violations), SetOf(after.violations);
    var introduced := SortedSet(afterViolations - beforeViolations);
    var resolved := SortedSet(beforeViolations - afterViolations);
    changes := AppendViolationChanges(changes, introduced, resolved);
    changes := Sorted(changes, ChangeKey);
    NonEmptyListing(afterViolations - beforeViolations);
    r := SnapshotComparison(
      before.snapshotId, after.snapshotId,
      before.contractVersion != after.contractVersion, before.systemVersion != after.systemVersion,
      changes,
      SortedSet(after.baseline.Keys - before.baseline.Keys), SortedSet(before.baseline.Keys - after.baseline.Keys),
      introduced, resolved,
      SortedSet(SetOf(after.counterexampleIds) - SetOf(before.counterexampleIds)),
      SortedSet(SetOf(before.counterexampleIds) - SetOf(after.counterexampleIds)),
      introduced != []);
  }

  /** The value that a comparison gives a baseline field, if it lists the field as changed. */
  function NewValue<V>(changes: seq<Change<V>>, field: string): Option<ChangeValue<V>> {
    if changes == [] then None
    else if changes[0].changeType == BaselineFieldChanged && changes[0].field == field then Some(changes[0].after)
    else NewValue(changes[1..], field)
  }

  /** A baseline with the comparison applied as a patch. */
  function Patched<V>(baseline: Baseline<V>, c: SnapshotComparison<V>): Baseline<V> {
    map field | field in baseline.Keys + SetOf(c.addedChanges) - SetOf(c.removedChanges) ::
      match NewValue(c.changes, field)
      case Some(Field(value)) => value
      case _ => Get(baseline, field)
  }

  lemma {:induction false} BaselineChangesListTheDifferences<V>(
    before: Baseline<V>, after: Baseline<V>, fields: seq<string>, c: Change<V>)
    ensures c in BaselineChanges(before, after, fields)
            <==> c.field in fields && Get(before, c.field) != Get(after, c.field)
                 && c == Change(c.field, Field(Get(before, c.field)), Field(Get(after, c.field)), BaselineFieldChanged)
    decreases |fields|
  {
    if fields != [] {
      BaselineChangesListTheDifferences(before, after, fields[..|fields| - 1], c);
      assert fields == fields[..|fields| - 1] + [fields[|fields| - 1]];
    }
  }

  /** The three kinds of change that a comparison lists, and nothing else. */
  ghost predicate IsChange<V(!new)>(before: Snapshot<V>, after: Snapshot<V>, c: Change<V>) {
    match c.changeType
    case BaselineFieldChanged =>
      && Get(before.baseline, c.field) != Get(after.baseline, c.field)
      && c.before == Field(Get(before.baseline, c.field)) && c.after == Field(Get(after.baseline, c.field))
    case ViolationIntroduced =>
      exists v :: v in after.violations && v !in before.violations && c == Introduced(v)
    case ViolationResolved =>
      exists v :: v in before.violations && v !in after.violations && c == Resolved(v)
  }

  lemma IntroducedChangesMembers<V>(violations: seq<string>, c: Change<V>)
    ensures c in IntroducedChanges<V>(violations) <==> exists v :: v in violations && c == Introduced<V>(v)
  {
    if v :| v in violations && c == Introduced<V>(v) {
      var i :| 0 <= i < |violations| && violations[i] == v;
      assert IntroducedChanges<V>(violations)[i] == c;
    }
  }

  lemma ResolvedChangesMembers<V>(violations: seq<string>, c: Change<V>)
    ensures c in ResolvedChanges<V>(violations) <==> exists v :: v in violations && c == Resolved<V>(v)
  {
    if v :| v in violations && c == Resolved<V>(v) {
      var i :| 0 <= i < |violations| && violations[i] == v;
      assert ResolvedChanges<V>(violations)[i] == c;
    }
  }

  lemma MembersOfDifference(xs: seq<string>, ys: seq<string>, v: string)
    ensures v in SortedSet(SetOf(xs) - SetOf(ys)) <==> v in xs && v !in ys
  {
    var listed := SortedSet(SetOf(xs) - SetOf(ys));
    assert v in listed <==> v in SetOf(listed);
  }

  lemma UnsortedChangesAreTheDifferences<V(!new)>(before: Snapshot<V>, after: Snapshot<V>, c: Change<V>)
    ensures c in UnsortedChanges(before, after) <==> IsChange(before, after, c)
  {
    var fields := SortedSet(before.baseline.Keys + after.baseline.Keys);
    BaselineChangesListTheDifferences(before.baseline, after.baseline, fields, c);
    assert c.field in fields <==> c.field in SetOf(fields);
    var introduced := SortedSet(SetOf(after.violations) - SetOf(before.violations));
    var resolved := SortedSet(SetOf(before.violations) - SetOf(after.violations));
    IntroducedChangesMembers(introduced, c);
    ResolvedChangesMembers(resolved, c);
    forall v
      ensures v in introduced <==> v in after.violations && v !in before.violations
      ensures v in resolved <==> v in before.violations && v !in after.violations
    {
      MembersOfDifference(after.violations, before.violations, v);
      MembersOfDifference(before.violations, after.violations, v);
    }
  }

  lemma ChangesAreExactlyTheDifferences<V(!new)>(before: Snapshot<V>, after: Snapshot<V>, c: Change<V>)
    ensures c in Compared(before, after).changes <==> IsChange(before, after, c)
  {
    var changes := UnsortedChanges(before, after);
    SortingPermutes(changes, ChangeKey<V>);
    SameElements(changes, Sorted(changes, ChangeKey<V>), c);
    UnsortedChangesAreTheDifferences(before, after, c);
  }

  lemma {:induction false} NewValueIsListed<V>(changes: seq<Change<V>>, field: string)
    ensures NewValue(changes, field).Some? ==>
              exists c :: c in changes && c.changeType == BaselineFieldChanged && c.field == field
                          && NewValue(changes, field) == Some(c.after)
    ensures NewValue(changes, field).None? ==>
              forall c | c in changes :: c.changeType != BaselineFieldChanged || c.field != field
    decreases |changes|
  {
    if changes != [] {
      NewValueIsListed(changes[1..], field);
      assert changes == [changes[0]] + changes[1..];
    }
  }

  /** The listed new value of a field is its value afterwards; a field without one kept its value. */
  lemma NewValueIsTheValueAfter<V(!new)>(before: Snapshot<V>, after: Snapshot<V>, field: string)
    ensures NewValue(Compared(before, after).changes, field)
            == if Get(before.baseline, field) == Get(after.baseline, field) then None
               else Some(Field(Get(after.baseline, field)))
  {
    var changes := Compared(before, after).changes;
    NewValueIsListed(changes, field);
    if NewValue(changes, field).Some? {
      var change :| change in changes && change.changeType == BaselineFieldChanged && change.field == field
        && NewValue(changes, field) == Some(change.after);
      ChangesAreExactlyTheDifferences(before, after, change);
    } else {
      var valueBefore, valueAfter := Get(before.baseline, field), Get(after.baseline, field);
      var change := Change(field, Field(valueBefore), Field(valueAfter), BaselineFieldChanged);
      ChangesAreExactlyTheDifferences(before, after, change);
    }
  }

  /** The comparison is an exact patch: applied to the old baseline it gives the new one, `None` values included. */
  lemma ComparisonIsAPatch<V(!new)>(before: Snapshot<V>, after: Snapshot<V>)
    ensures Patched(before.baseline, Compared(before, after)) == after.baseline
  {
    var patched := Patched(before.baseline, Compared(before, after));
    assert patched.Keys == after.baseline.Keys;
    forall field | field in after.baseline
      ensures patched[field] == after.baseline[field]
    {
      NewValueIsTheValueAfter(before, after, field);
    }
  }

  /** The violation and counterexample lists turn the old sets into the new ones. */
  lemma ComparisonPatchesTheSets<V>(before: Snapshot<V>, after: Snapshot<V>)
    ensures var c := Compared(before, after);
            && SetOf(before.violations) + SetOf(c.introducedViolations) - SetOf(c.resolvedViolations)
               == SetOf(after.violations)
            && SetOf(c.introducedViolations) !! SetOf(before.violations)
            && SetOf(c.resolvedViolations) <= SetOf(before.violations)
            && SetOf(before.counterexampleIds) + SetOf(c.addedCounterexampleIds) - SetOf(c.removedCounterexampleIds)
               == SetOf(after.counterexampleIds)
  {
  }

  function Reversed<V>(c: Change<V>): Change<V> {
    Change(c.field, c.after, c.before,
           match c.changeType
           case BaselineFieldChanged => BaselineFieldChanged
           case ViolationIntroduced => ViolationResolved
           case ViolationResolved => ViolationIntroduced)
  }

  lemma DifferencesReverse<V(!new)>(before: Snapshot<V>, after: Snapshot<V>, c: Change<V>)
    requires IsChange(before, after, c)
    ensures IsChange(after, before, Reversed(c))
  {
    if c.changeType == ViolationIntroduced {
      var v :| v in after.violations && v !in before.violations && c == Introduced(v);
      assert Reversed(c) == Resolved(v);
    } else if c.changeType == ViolationResolved {
      var v :| v in before.violations && v !in after.violations && c == Resolved(v);
      assert Reversed(c) == Introduced(v);
    }
  }

  /** Comparing the other way round lists every change reversed. */
  lemma ComparingBackwardsReversesChanges<V(!new)>(before: Snapshot<V>, after: Snapshot<V>, c: Change<V>)
    ensures c in Compared(before, after).changes <==> Reversed(c) in Compared(after, before).changes
  {
    ChangesAreExactlyTheDifferences(before, after, c);
    ChangesAreExactlyTheDifferences(after, before, Reversed(c));
    if IsChange(before, after, c) {
      DifferencesReverse(before, after, c);
    }
    if IsChange(after, before, Reversed(c)) {
      DifferencesReverse(after, before, Reversed(c));
      assert Reversed(Reversed(c)) == c;
    }
  }

  /** Comparing the other way round swaps the lists, keeps the version flags and undoes the patch. */
  lemma ComparingBackwardsSwaps<V(!new)>(before: Snapshot<V>, after: Snapshot<V>)
    ensures var forth, back := Compared(before, after), Compared(after, before);
            && back.introducedViolations == forth.resolvedViolations
            && back.resolvedViolations == forth.introducedViolations
            && back.addedChanges == forth.removedChanges && back.removedChanges == forth.addedChanges
            && back.addedCounterexampleIds == forth.removedCounterexampleIds
            && back.removedCounterexampleIds == forth.addedCounterexampleIds
            && back.contractVersionChanged == forth.contractVersionChanged
            && back.systemVersionChanged == forth.systemVersionChanged
            && back.beforeId == forth.afterId && back.afterId == forth.beforeId
            && Patched(Patched(before.baseline, forth), back) == before.baseline
  {
    ComparisonIsAPatch(before, after);
    ComparisonIsAPatch(after, before);
  }

  function Verified<V>(c: SnapshotComparison<V>): VerificationResult {
    var violations := Sorted(c.introducedViolations, StringKey);
    var regression := c.regressionDetected || violations != [];
    VerificationResult(c.beforeId, c.afterId, !regression, regression, violations)
  }

  /** Verification passes exactly when the new snapshot violates nothing that the old one did not. */
  lemma PassingMeansNoNewViolation<V>(before: Snapshot<V>, after: Snapshot<V>)
    ensures var r := Verified(Compared(before, after));
            && (r.passed <==> SetOf(after.violations) <= SetOf(before.violations))
            && SetOf(r.violations) == SetOf(after.violations) - SetOf(before.violations)
            && r.regressionDetected == !r.passed
  {
    var introduced := Compared(before, after).introducedViolations;
    SortingPermutes(introduced, StringKey);
    assert SetOf(introduced) == {} <==> SetOf(after.violations) <= SetOf(before.violations) by {
      assert SetOf(introduced) == SetOf(after.violations) - SetOf(before.violations);
      forall v | v in SetOf(after.violations)
        ensures v in SetOf(before.violations) || v in SetOf(introduced)
      {
      }
    }
    NonEmptyListing(SetOf(after.violations) - SetOf(before.violations));
    forall v
      ensures v in introduced <==> v in Sorted(introduced, StringKey)
    {
      SameElements(introduced, Sorted(introduced, StringKey), v);
    }
  }

  /** Passing carries along a chain of snapshots. */
  lemma {:induction false} PassingIsTransitive<V>(chain: seq<Snapshot<V>>)
    requires chain != []
    requires forall i | 0 <= i < |chain| - 1 :: Verified(Compared(chain[i], chain[i + 1])).passed
    ensures Verified(Compared(chain[0], chain[|chain| - 1])).passed
    decreases |chain|
  {
    var last := |chain| - 1;
    if last > 0 {
      PassingIsTransitive(chain[..last]);
      PassingMeansNoNewViolation(chain[0], chain[last - 1]);
      PassingMeansNoNewViolation(chain[last - 1], chain[last]);
      assert Verified(Compared(chain[last - 1], chain[last - 1 + 1])).passed;
    }
    PassingMeansNoNewViolation(chain[0], chain[last]);
  }
}
