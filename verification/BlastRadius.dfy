/** Financial exposure of a contract evaluation, and its totals by currency. */
module BlastRadius {
  import opened Results
  import opened Contracts
  import opened ContractMeanings
  import opened Sequences
  import opened StringSets

  datatype Exposure = Exposure(
    field: Option<string>, amount: real, currency: Option<string>,
    directLoss: real, duplicateCharge: real, duplicateFulfillment: real, refund: real, unauthorizedAction: real,
    actual: real, maximum: real)

  /** What the exposure constructor demands of its amounts. */
  predicate ExposureIsConsistent(e: Exposure) {
    && e.amount >= 0.0 && e.directLoss >= 0.0 && e.duplicateCharge >= 0.0 && e.duplicateFulfillment >= 0.0
    && e.refund >= 0.0 && e.unauthorizedAction >= 0.0 && e.actual >= 0.0 && e.maximum >= 0.0
    && e.actual == e.directLoss + e.duplicateCharge + e.duplicateFulfillment + e.refund + e.unauthorizedAction
    && e.maximum >= e.actual
  }

  function Abs(x: real): (r: real)
    ensures r >= 0.0 && (r == x || r == -x)
  {
    if x < 0.0 then -x else x
  }

  /** The dictionary from fields to constraints, in which a later constraint replaces an earlier one. */
  function ConstraintsByField(constraints: seq<Constraint>): map<string, Constraint> {
    if constraints == [] then map[]
    else
      var last := constraints[|constraints| - 1];
      ConstraintsByField(constraints[..|constraints| - 1])[last.field := last]
  }

  /** The exposures that one violation gives: one, or none when any of the analyzer's checks skips it. */
  function ExposuresOfOne(violation: Violation, byField: map<string, Constraint>, context: Context): seq<Exposure> {
    if violation.reasonCode != FinancialConstraintFailed || violation.field.None? then []
    else
      var field := violation.field.value;
      if field !in byField || field !in context || !context[field].Decimal? || byField[field].currency.None? then []
      else
        var amount := Abs(context[field].amount);
        [Exposure(Some(field), amount, byField[field].currency, amount, 0.0, 0.0, 0.0, 0.0, amount, amount)]
  }

  function Exposures(violations: seq<Violation>, byField: map<string, Constraint>, context: Context): seq<Exposure> {
    if violations == [] then []
    else
      Exposures(violations[..|violations| - 1], byField, context)
      + ExposuresOfOne(violations[|violations| - 1], byField, context)
  }

  method Analyze(contract: FinancialContract, evaluation: Evaluation, context: Context)
    returns (exposures: seq<Exposure>)
    ensures exposures == Exposures(evaluation.violations, ConstraintsByField(contract.constraints), context)
    ensures forall e | e in exposures :: ExposureIsConsistent(e) && e.currency.Some? && e.field.Some?
  {
    exposures := [];
    var constraintsByField := ConstraintsByField(contract.constraints);
    var violations := evaluation.violations;
    for i := 0 to |violations|
      invariant exposures == Exposures(violations[..i], constraintsByField, context)
      invariant forall e | e in exposures :: ExposureIsConsistent(e) && e.currency.Some? && e.field.Some?
    {
      var violation := violations[i];
      assert violations[..i + 1][..i] == violations[..i];
      if violation.reasonCode != FinancialConstraintFailed {
        continue;
      }
      if violation.field.None? {
        continue;
      }
      var field := violation.field.value;
      if field !in constraintsByField {
        continue;
      }
      if field !in context || !context[field].Decimal? {
        continue;
      }
      var currency := constraintsByField[field].currency;
      if currency.None? {
        continue;
      }
      var amount := Abs(context[field].amount);
      exposures := exposures
        + [Exposure(Some(field), amount, currency, amount, 0.0, 0.0, 0.0, 0.0, amount, amount)];
    }
    assert violations[..|violations|] == violations;
  }

  /** The sum of all amounts. */
  function TotalExposure(exposures: seq<Exposure>): real {
    if exposures == [] then 0.0
    else TotalExposure(exposures[..|exposures| - 1]) + exposures[|exposures| - 1].amount
  }

  /** The sum of the amounts in one currency, or of those without any. */
  function TotalIn(exposures: seq<Exposure>, currency: Option<string>): real {
    if exposures == [] then 0.0
    else
      var last := exposures[|exposures| - 1];
      TotalIn(exposures[..|exposures| - 1], currency) + if last.currency == currency then last.amount else 0.0
  }

  /** The sum of a dictionary's values at the listed keys. */
  function SumAlong(keys: seq<string>, totals: map<string, real>): real
    requires forall k | k in keys :: k in totals
  {
    if keys == [] then 0.0
    else SumAlong(keys[..|keys| - 1], totals) + totals[keys[|keys| - 1]]
  }

  /** The sum of all values of a dictionary. */
  function SumOfValues(totals: map<string, real>): real {
    var keys := SortedSet(totals.Keys);
    assert forall k | k in keys :: k in SetOf(keys);
    SumAlong(keys, totals)
  }

  /** A dictionary from exactly the currencies that occur to the sums of their amounts. */
  ghost predicate AreTotals(totals: map<string, real>, exposures: seq<Exposure>) {
    && (forall c :: c in totals <==> Occurs(exposures, c))
    && (forall c | c in totals :: totals[c] == TotalIn(exposures, Some(c)))
  }

  predicate Occurs(exposures: seq<Exposure>, currency: string) {
    exists i :: 0 <= i < |exposures| && exposures[i].currency == Some(currency)
  }

  method TotalsByCurrency(exposures: seq<Exposure>) returns (totals: map<string, real>)
    ensures AreTotals(totals, exposures)
    ensures SumOfValues(totals) + TotalIn(exposures, None) == TotalExposure(exposures)
  {
    totals := map[];
    for i := 0 to |exposures|
      invariant forall c :: c in totals <==> exists k :: 0 <= k < i && exposures[k].currency == Some(c)
      invariant forall c :: TotalIn(exposures[..i], Some(c)) == if c in totals then totals[c] else 0.0
    {
      var exposure := exposures[i];
      assert exposures[..i + 1][..i] == exposures[..i];
      if exposure.currency.None? {
        continue;
      }
      var currency := exposure.currency.value;
      totals := totals[currency := (if currency in totals then totals[currency] else 0.0) + exposure.amount];
    }
    assert exposures[..|exposures|] == exposures;
    ValuesAddUp(totals, exposures);
  }

  function SumOf(currencies: seq<string>, exposures: seq<Exposure>): real {
    if currencies == [] then 0.0
    else SumOf(currencies[..|currencies| - 1], exposures) + TotalIn(exposures, Some(currencies[|currencies| - 1]))
  }

  lemma {:induction false} SumOfOneMore(currencies: seq<string>, exposures: seq<Exposure>)
    requires Distinct(currencies) && exposures != []
    ensures var init, last := exposures[..|exposures| - 1], exposures[|exposures| - 1];
            SumOf(currencies, exposures)
            == SumOf(currencies, init)
               + if last.currency.Some? && last.currency.value in currencies then last.amount else 0.0
    decreases |currencies|
  {
    if currencies != [] {
      SumOfOneMore(currencies[..|currencies| - 1], exposures);
      assert currencies == currencies[..|currencies| - 1] + [currencies[|currencies| - 1]];
    }
  }

  lemma {:induction false} NothingSumsToZero(currencies: seq<string>)
    ensures SumOf(currencies, []) == 0.0
    decreases |currencies|
  {
    if currencies != [] {
      NothingSumsToZero(currencies[..|currencies| - 1]);
    }
  }

  /** The totals of the currencies, each listed once, and of the exposures without one add up to the whole. */
  lemma {:induction false} CurrencyTotalsAddUp(currencies: seq<string>, exposures: seq<Exposure>)
    requires Distinct(currencies)
    requires forall i | 0 <= i < |exposures| && exposures[i].currency.Some? :: exposures[i].currency.value in currencies
    ensures SumOf(currencies, exposures) + TotalIn(exposures, None) == TotalExposure(exposures)
    decreases |exposures|
  {
    if exposures == [] {
      NothingSumsToZero(currencies);
    } else {
      SumOfOneMore(currencies, exposures);
      CurrencyTotalsAddUp(currencies, exposures[..|exposures| - 1]);
    }
  }

  lemma {:induction false} SumAlongIsSumOf(keys: seq<string>, totals: map<string, real>, exposures: seq<Exposure>)
    requires forall k | k in keys :: k in totals && totals[k] == TotalIn(exposures, Some(k))
    ensures SumAlong(keys, totals) == SumOf(keys, exposures)
    decreases |keys|
  {
    if keys != [] {
      SumAlongIsSumOf(keys[..|keys| - 1], totals, exposures);
    }
  }

  /** The values of the dictionary and the amounts without a currency add up to the whole. */
  lemma ValuesAddUp(totals: map<string, real>, exposures: seq<Exposure>)
    requires AreTotals(totals, exposures)
    ensures SumOfValues(totals) + TotalIn(exposures, None) == TotalExposure(exposures)
  {
    var keys := SortedSet(totals.Keys);
    SortedSetIsInOrder(totals.Keys);
    DistinctIffNoneCollapse(keys);
    assert forall k :: k in keys <==> k in SetOf(keys);
    forall i | 0 <= i < |exposures| && exposures[i].currency.Some?
      ensures exposures[i].currency.value in keys
    {
      assert Occurs(exposures, exposures[i].currency.value);
    }
    SumAlongIsSumOf(keys, totals, exposures);
    CurrencyTotalsAddUp(keys, exposures);
  }

  /** A constraint that failed on a Decimal value, in the given currency. */
  predicate Exposes(c: Constraint, context: Context, currency: string) {
    && ConstraintHolds(c, context) == Ok(false)
    && c.currency == Some(currency)
    && c.field in context && context[c.field].Decimal?
  }

  /** The direct sum of |actual| over the failed constraints in a currency, each counted once. */
  function DirectExposure(constraints: seq<Constraint>, context: Context, currency: string): real {
    if constraints == [] then 0.0
    else
      var last := constraints[|constraints| - 1];
      DirectExposure(constraints[..|constraints| - 1], context, currency)
      + if Exposes(last, context, currency) then Abs(context[last.field].amount) else 0.0
  }

  lemma {:induction false} TotalOfConcatenation(xs: seq<Exposure>, ys: seq<Exposure>, currency: Option<string>)
    ensures TotalIn(xs + ys, currency) == TotalIn(xs, currency) + TotalIn(ys, currency)
    decreases |ys|
  {
    if ys == [] {
      assert xs + ys == xs;
    } else {
      TotalOfConcatenation(xs, ys[..|ys| - 1], currency);
      assert (xs + ys)[..|xs + ys| - 1] == xs + ys[..|ys| - 1];
    }
  }

  lemma ExposuresOfOneMore(
    violations: seq<Violation>, violation: Violation, byField: map<string, Constraint>, context: Context)
    ensures Exposures(violations + [violation], byField, context)
            == Exposures(violations, byField, context) + ExposuresOfOne(violation, byField, context)
  {
    assert (violations + [violation])[..|violations|] == violations;
  }

  lemma {:induction false} ExposuresOfConcatenation(
    vs: seq<Violation>, ws: seq<Violation>, byField: map<string, Constraint>, context: Context)
    ensures Exposures(vs + ws, byField, context) == Exposures(vs, byField, context) + Exposures(ws, byField, context)
    decreases |ws|
  {
    if ws == [] {
      assert vs + ws == vs;
    } else {
      var init, last := ws[..|ws| - 1], ws[|ws| - 1];
      ExposuresOfConcatenation(vs, init, byField, context);
      LastOfConcatenation(vs, ws);
      ExposuresOfOneMore(vs + init, last, byField, context);
      ExposuresOfOneMore(init, last, byField, context);
    }
  }

  /** Violations of other kinds expose nothing. */
  lemma {:induction false} OtherViolationsExposeNothing(
    violations: seq<Violation>, byField: map<string, Constraint>, context: Context)
    requires forall v | v in violations :: v.reasonCode != FinancialConstraintFailed
    ensures Exposures(violations, byField, context) == []
    decreases |violations|
  {
    if violations != [] {
      assert violations[|violations| - 1] in violations;
      OtherViolationsExposeNothing(violations[..|violations| - 1], byField, context);
    }
  }

  lemma {:induction false} OtherSectionsReportOtherReasons(
    rules: seq<Rule>, authorizations: seq<Authorization>, temporalRules: seq<TemporalRule>, context: Context)
    ensures ConditionViolations(rules, context).Ok? ==>
              forall v | v in ConditionViolations(rules, context).value :: v.reasonCode != FinancialConstraintFailed
    ensures forall v | v in AuthorizationViolations(authorizations, context) :: v.reasonCode != FinancialConstraintFailed
    ensures forall v | v in TemporalViolations(temporalRules, context) :: v.reasonCode != FinancialConstraintFailed
    decreases |rules| + |authorizations| + |temporalRules|
  {
    if rules != [] {
      OtherSectionsReportOtherReasons(rules[..|rules| - 1], authorizations, temporalRules, context);
    }
    if authorizations != [] {
      OtherSectionsReportOtherReasons(rules, authorizations[..|authorizations| - 1], temporalRules, context);
    }
    if temporalRules != [] {
      OtherSectionsReportOtherReasons(rules, authorizations, temporalRules[..|temporalRules| - 1], context);
    }
  }

  lemma {:induction false} FieldsFindTheirConstraint(constraints: seq<Constraint>, i: nat)
    requires forall j, k | 0 <= j < k < |constraints| :: constraints[j].field != constraints[k].field
    requires i < |constraints|
    ensures constraints[i].field in ConstraintsByField(constraints)
    ensures ConstraintsByField(constraints)[constraints[i].field] == constraints[i]
    decreases |constraints|
  {
    if i < |constraints| - 1 {
      FieldsFindTheirConstraint(constraints[..|constraints| - 1], i);
    }
  }

  lemma ContractFieldsFindTheirConstraints(contract: FinancialContract)
    ensures var constraints, byField := contract.constraints, ConstraintsByField(contract.constraints);
            forall i | 0 <= i < |constraints| ::
              constraints[i].field in byField && byField[constraints[i].field] == constraints[i]
  {
    forall i | 0 <= i < |contract.constraints| {
      FieldsFindTheirConstraint(contract.constraints, i);
    }
  }

  /** A failed constraint's violation exposes what the constraint itself exposes. */
  lemma FailedConstraintExposesItsAmount(
    c: Constraint, byField: map<string, Constraint>, context: Context, currency: string)
    requires c.field in byField && byField[c.field] == c && ConstraintHolds(c, context) == Ok(false)
    ensures var violation := Violation("financial_constraint", Some(c.field), FinancialConstraintFailed);
            TotalIn(ExposuresOfOne(violation, byField, context), Some(currency))
            == if Exposes(c, context, currency) then Abs(context[c.field].amount) else 0.0
  {
    var violation := Violation("financial_constraint", Some(c.field), FinancialConstraintFailed);
    var one := ExposuresOfOne(violation, byField, context);
    assert one != [] ==> one[..|one| - 1] == [];
  }

  lemma {:induction false} FailedConstraintsExposeTheirAmounts(
    constraints: seq<Constraint>, byField: map<string, Constraint>, context: Context, currency: string)
    requires forall i | 0 <= i < |constraints| ::
               constraints[i].field in byField && byField[constraints[i].field] == constraints[i]
    requires ConstraintViolations(constraints, context).Ok?
    ensures TotalIn(Exposures(ConstraintViolations(constraints, context).value, byField, context), Some(currency))
            == DirectExposure(constraints, context, currency)
    decreases |constraints|
  {
    if constraints != [] {
      var init, last := constraints[..|constraints| - 1], constraints[|constraints| - 1];
      FailedConstraintsExposeTheirAmounts(init, byField, context, currency);
      var before := ConstraintViolations(init, context).value;
      if ConstraintHolds(last, context) == Ok(false) {
        var violation := Violation("financial_constraint", Some(last.field), FinancialConstraintFailed);
        assert ConstraintViolations(constraints, context).value == before + [violation];
        ExposuresOfOneMore(before, violation, byField, context);
        FailedConstraintExposesItsAmount(last, byField, context, currency);
        TotalOfConcatenation(
          Exposures(before, byField, context), ExposuresOfOne(violation, byField, context), Some(currency));
      } else {
        assert ConstraintViolations(constraints, context).value == before;
      }
    }
  }

  lemma OnlyConstraintViolationsExpose(contract: FinancialContract, context: Context, validator: Validator)
    requires Evaluated(contract, context, validator).Ok? && validator(contract) == []
    ensures var byField := ConstraintsByField(contract.constraints);
            && ConstraintViolations(contract.constraints, context).Ok?
            && Exposures(Evaluated(contract, context, validator).value.violations, byField, context)
               == Exposures(ConstraintViolations(contract.constraints, context).value, byField, context)
  {
    var byField := ConstraintsByField(contract.constraints);
    var rules := contract.preconditions + contract.invariants + contract.postconditions;
    var conditions := ConditionViolations(rules, context).value;
    var constraints := ConstraintViolations(contract.constraints, context).value;
    var authorizations := AuthorizationViolations(contract.authorizations, context);
    var temporal := TemporalViolations(contract.temporalRules, context);
    OtherSectionsReportOtherReasons(rules, contract.authorizations, contract.temporalRules, context);
    OtherViolationsExposeNothing(conditions, byField, context);
    OtherViolationsExposeNothing(authorizations, byField, context);
    OtherViolationsExposeNothing(temporal, byField, context);
    ExposuresOfConcatenation(conditions + constraints + authorizations, temporal, byField, context);
    ExposuresOfConcatenation(conditions + constraints, authorizations, byField, context);
    ExposuresOfConcatenation(conditions, constraints, byField, context);
  }

  /**
   * Evaluate, then analyze: in every currency the exposure is the direct sum over the failed constraints,
   * and a contract that its validator refuses exposes nothing.
   */
  lemma EvaluateThenAnalyze(contract: FinancialContract, context: Context, validator: Validator, currency: string)
    requires Evaluated(contract, context, validator).Ok?
    ensures var evaluation := Evaluated(contract, context, validator).value;
            var exposures := Exposures(evaluation.violations, ConstraintsByField(contract.constraints), context);
            TotalIn(exposures, Some(currency))
            == if validator(contract) == [] then DirectExposure(contract.constraints, context, currency) else 0.0
  {
    var byField := ConstraintsByField(contract.constraints);
    if validator(contract) != [] {
      OtherViolationsExposeNothing(ValidationViolations(validator(contract)), byField, context);
    } else {
      OnlyConstraintViolationsExpose(contract, context, validator);
      ContractFieldsFindTheirConstraints(contract);
      FailedConstraintsExposeTheirAmounts(contract.constraints, byField, context, currency);
    }
  }

  lemma {:induction false} NothingWithoutACurrency(exposures: seq<Exposure>)
    requires forall e | e in exposures :: e.currency.Some?
    ensures TotalIn(exposures, None) == 0.0
    decreases |exposures|
  {
    if exposures != [] {
      assert exposures[|exposures| - 1] in exposures;
      NothingWithoutACurrency(exposures[..|exposures| - 1]);
    }
  }

  /** Some constraint failed on a Decimal value in the currency. */
  predicate ExposesIn(constraints: seq<Constraint>, context: Context, currency: string) {
    exists i :: 0 <= i < |constraints| && Exposes(constraints[i], context, currency)
  }

  lemma OccursInConcatenation(xs: seq<Exposure>, ys: seq<Exposure>, currency: string)
    ensures Occurs(xs + ys, currency) <==> Occurs(xs, currency) || Occurs(ys, currency)
  {
    var all := xs + ys;
    if Occurs(xs, currency) {
      var i :| 0 <= i < |xs| && xs[i].currency == Some(currency);
      assert all[i] == xs[i];
    }
    if Occurs(ys, currency) {
      var i :| 0 <= i < |ys| && ys[i].currency == Some(currency);
      assert all[|xs| + i] == ys[i];
    }
  }

  lemma ExposesInOneMore(constraints: seq<Constraint>, last: Constraint, context: Context, currency: string)
    ensures ExposesIn(constraints + [last], context, currency)
            <==> ExposesIn(constraints, context, currency) || Exposes(last, context, currency)
  {
    var all := constraints + [last];
    assert all[|constraints|] == last;
    if ExposesIn(constraints, context, currency) {
      var i :| 0 <= i < |constraints| && Exposes(constraints[i], context, currency);
      assert all[i] == constraints[i];
    }
  }

  lemma FailedConstraintExposesItsCurrency(
    c: Constraint, byField: map<string, Constraint>, context: Context, currency: string)
    requires c.field in byField && byField[c.field] == c && ConstraintHolds(c, context) == Ok(false)
    ensures var violation := Violation("financial_constraint", Some(c.field), FinancialConstraintFailed);
            Occurs(ExposuresOfOne(violation, byField, context), currency) <==> Exposes(c, context, currency)
  {
    var violation := Violation("financial_constraint", Some(c.field), FinancialConstraintFailed);
    var one := ExposuresOfOne(violation, byField, context);
    assert one != [] ==> |one| == 1 && one[0].currency == c.currency;
  }

  lemma {:induction false} FailedConstraintsExposeTheirCurrencies(
    constraints: seq<Constraint>, byField: map<string, Constraint>, context: Context, currency: string)
    requires forall i | 0 <= i < |constraints| ::
               constraints[i].field in byField && byField[constraints[i].field] == constraints[i]
    requires ConstraintViolations(constraints, context).Ok?
    ensures Occurs(Exposures(ConstraintViolations(constraints, context).value, byField, context), currency)
            <==> ExposesIn(constraints, context, currency)
    decreases |constraints|
  {
    if constraints != [] {
      var init, last := constraints[..|constraints| - 1], constraints[|constraints| - 1];
      FailedConstraintsExposeTheirCurrencies(init, byField, context, currency);
      assert constraints == init + [last];
      ExposesInOneMore(init, last, context, currency);
      var before := ConstraintViolations(init, context).value;
      if ConstraintHolds(last, context) == Ok(false) {
        var violation := Violation("financial_constraint", Some(last.field), FinancialConstraintFailed);
        assert ConstraintViolations(constraints, context).value == before + [violation];
        ExposuresOfOneMore(before, violation, byField, context);
        FailedConstraintExposesItsCurrency(last, byField, context, currency);
        OccursInConcatenation(
          Exposures(before, byField, context), ExposuresOfOne(violation, byField, context), currency);
      } else {
        assert ConstraintViolations(constraints, context).value == before;
      }
    }
  }

  /** The currencies exposed are those of the constraints that failed on a Decimal value. */
  lemma ExposedCurrencies(contract: FinancialContract, context: Context, validator: Validator, currency: string)
    requires Evaluated(contract, context, validator).Ok?
    ensures var evaluation := Evaluated(contract, context, validator).value;
            var exposures := Exposures(evaluation.violations, ConstraintsByField(contract.constraints), context);
            Occurs(exposures, currency)
            <==> validator(contract) == [] && ExposesIn(contract.constraints, context, currency)
  {
    var byField := ConstraintsByField(contract.constraints);
    if validator(contract) != [] {
      OtherViolationsExposeNothing(ValidationViolations(validator(contract)), byField, context);
    } else {
      OnlyConstraintViolationsExpose(contract, context, validator);
      ContractFieldsFindTheirConstraints(contract);
      FailedConstraintsExposeTheirCurrencies(contract.constraints, byField, context, currency);
    }
  }

  /**
   * Evaluates a contract, analyzes the result and sums it by currency: the dictionary has the currencies of the
   * constraints that failed on a Decimal value, each with their direct sum, and its values add up to the whole.
   */
  method CalculateFinancialExposure(contract: FinancialContract, context: Context, validator: Validator)
    returns (r: Result<map<string, real>, EvaluationError>, exposures: seq<Exposure>)
    ensures r.Err? <==> Evaluated(contract, context, validator).Err?
    ensures r.Err? ==> Evaluated(contract, context, validator) == Err(r.error)
    ensures r.Ok? ==>
              forall c :: c in r.value
                          <==> validator(contract) == [] && ExposesIn(contract.constraints, context, c)
    ensures r.Ok? ==> forall c | c in r.value :: r.value[c] == DirectExposure(contract.constraints, context, c)
    ensures r.Ok? ==> SumOfValues(r.value) == TotalExposure(exposures)
    ensures r.Ok? ==> exposures == Exposures(Evaluated(contract, context, validator).value.violations,
                                             ConstraintsByField(contract.constraints), context)
  {
    var evaluation := Contracts.Evaluate(contract, context, validator);
    if evaluation.Err? {
      return Err(evaluation.error), [];
    }
    exposures := Analyze(contract, evaluation.value, context);
    var totals := TotalsByCurrency(exposures);
    NothingWithoutACurrency(exposures);
    forall c
      ensures c in totals <==> validator(contract) == [] && ExposesIn(contract.constraints, context, c)
      ensures c in totals ==> totals[c] == DirectExposure(contract.constraints, context, c)
    {
      ExposedCurrencies(contract, context, validator, c);
      EvaluateThenAnalyze(contract, context, validator, c);
    }
    r := Ok(totals);
  }

  /** A constraint with a currency that a Decimal value does not meet. */
  ghost predicate Loses(c: Constraint, context: Context) {
    !ConstraintMet(c, context) && c.field in context && context[c.field].Decimal? && c.currency.Some?
  }

  /** The exposure is the constraint's: the value's magnitude, all of it a direct loss. */
  predicate IsLossOf(e: Exposure, c: Constraint, context: Context) {
    && c.field in context && context[c.field].Decimal?
    && e.field == Some(c.field) && e.currency == c.currency
    && e.amount >= 0.0 && (e.amount == context[c.field].amount || e.amount == -context[c.field].amount)
    && e.directLoss == e.amount && e.actual == e.amount && e.maximum == e.amount
    && e.duplicateCharge == 0.0 && e.duplicateFulfillment == 0.0 && e.refund == 0.0 && e.unauthorizedAction == 0.0
  }

  /** The exposures are those of the losing constraints, each once and in order; `indices` tells where they stand. */
  ghost predicate ListsLosses(
    exposures: seq<Exposure>, constraints: seq<Constraint>, context: Context, indices: seq<nat>)
  {
    && PicksOut(indices, constraints, (c: Constraint) => Loses(c, context))
    && |indices| == |exposures|
    && forall j | 0 <= j < |indices| :: IsLossOf(exposures[j], constraints[indices[j]], context)
  }

  lemma ListsLossesOfOneMore(
    exposures: seq<Exposure>, constraints: seq<Constraint>, context: Context, indices: seq<nat>,
    c: Constraint, more: seq<Exposure>)
    returns (longer: seq<nat>)
    requires ListsLosses(exposures, constraints, context, indices)
    requires if Loses(c, context) then |more| == 1 && IsLossOf(more[0], c, context) else more == []
    ensures ListsLosses(exposures + more, constraints + [c], context, longer)
  {
    PicksOutOfOneMore(indices, constraints, (d: Constraint) => Loses(d, context), c);
    if Loses(c, context) {
      longer := indices + [|constraints|];
      forall j | 0 <= j < |longer|
        ensures IsLossOf((exposures + more)[j], (constraints + [c])[longer[j]], context)
      {
        assert j < |indices| ==> longer[j] == indices[j] < |constraints|;
      }
    } else {
      longer := indices;
      assert exposures + more == exposures;
    }
  }

  lemma FailedConstraintExposesItsLoss(c: Constraint, byField: map<string, Constraint>, context: Context)
    requires c.field in byField && byField[c.field] == c && ConstraintHolds(c, context).Ok?
    ensures var violation := Violation("financial_constraint", Some(c.field), FinancialConstraintFailed);
            var one := if ConstraintHolds(c, context).value then [] else ExposuresOfOne(violation, byField, context);
            if Loses(c, context) then |one| == 1 && IsLossOf(one[0], c, context) else one == []
  {
    ConstraintsMeanWhatTheirOperatorsSay(c, context);
  }

  lemma LastConstraintIsExposed(constraints: seq<Constraint>, byField: map<string, Constraint>, context: Context)
    returns (more: seq<Exposure>)
    requires constraints != []
    requires var last := constraints[|constraints| - 1]; last.field in byField && byField[last.field] == last
    requires ConstraintViolations(constraints, context).Ok?
    ensures ConstraintViolations(constraints[..|constraints| - 1], context).Ok?
    ensures Exposures(ConstraintViolations(constraints, context).value, byField, context)
            == Exposures(ConstraintViolations(constraints[..|constraints| - 1], context).value, byField, context) + more
    ensures var last := constraints[|constraints| - 1];
            if Loses(last, context) then |more| == 1 && IsLossOf(more[0], last, context) else more == []
  {
    var last := constraints[|constraints| - 1];
    var before := ConstraintViolations(constraints[..|constraints| - 1], context).value;
    var violation := Violation("financial_constraint", Some(last.field), FinancialConstraintFailed);
    FailedConstraintExposesItsLoss(last, byField, context);
    if ConstraintHolds(last, context).value {
      more := [];
      assert before + [] == before;
    } else {
      more := ExposuresOfOne(violation, byField, context);
      ExposuresOfOneMore(before, violation, byField, context);
    }
  }

  lemma LastConstraintIsListed(
    constraints: seq<Constraint>, byField: map<string, Constraint>, context: Context, indices: seq<nat>)
    returns (longer: seq<nat>)
    requires constraints != []
    requires var last := constraints[|constraints| - 1]; last.field in byField && byField[last.field] == last
    requires ConstraintViolations(constraints, context).Ok?
    requires var init := constraints[..|constraints| - 1];
             && ConstraintViolations(init, context).Ok?
             && ListsLosses(
                  Exposures(ConstraintViolations(init, context).value, byField, context), init, context, indices)
    ensures ListsLosses(
              Exposures(ConstraintViolations(constraints, context).value, byField, context),
              constraints, context, longer)
  {
    var init, last := constraints[..|constraints| - 1], constraints[|constraints| - 1];
    var before := Exposures(ConstraintViolations(init, context).value, byField, context);
    var more := LastConstraintIsExposed(constraints, byField, context);
    longer := ListsLossesOfOneMore(before, init, context, indices, last, more);
    assert init + [last] == constraints;
  }

  lemma {:induction false} FailedConstraintsAreExposedInOrder(
    constraints: seq<Constraint>, byField: map<string, Constraint>, context: Context)
    returns (indices: seq<nat>)
    requires forall i | 0 <= i < |constraints| ::
               constraints[i].field in byField && byField[constraints[i].field] == constraints[i]
    requires ConstraintViolations(constraints, context).Ok?
    ensures ListsLosses(
              Exposures(ConstraintViolations(constraints, context).value, byField, context),
              constraints, context, indices)
    decreases |constraints|
  {
    if constraints == [] {
      indices := [];
    } else {
      indices := FailedConstraintsAreExposedInOrder(constraints[..|constraints| - 1], byField, context);
      indices := LastConstraintIsListed(constraints, byField, context, indices);
    }
  }

  /** Evaluate, then analyze: each losing constraint gives one exposure, its direct loss, in the contract's order. */
  lemma AnalysisListsTheLosses(contract: FinancialContract, context: Context, validator: Validator)
    returns (indices: seq<nat>)
    requires Evaluated(contract, context, validator).Ok? && validator(contract) == []
    ensures var evaluation := Evaluated(contract, context, validator).value;
            ListsLosses(Exposures(evaluation.violations, ConstraintsByField(contract.constraints), context),
                        contract.constraints, context, indices)
  {
    OnlyConstraintViolationsExpose(contract, context, validator);
    ContractFieldsFindTheirConstraints(contract);
    indices := FailedConstraintsAreExposedInOrder(
      contract.constraints, ConstraintsByField(contract.constraints), context);
  }
}
