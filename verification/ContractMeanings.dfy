/** What the parts of a contract mean for the values of a context, and what an evaluation reports of them. */
module ContractMeanings {
  import opened Results
  import opened Sorting
  import opened Sequences
  import opened Contracts

  /** The value counts as the number: a Decimal or an integer of that amount, true as one, false as zero. */
  predicate Amounts(v: Value, x: real) {
    || v == Decimal(x)
    || (v.Integer? && v.number as real == x)
    || (v == Boolean(true) && x == 1.0)
    || (v == Boolean(false) && x == 0.0)
  }

  predicate IsNumber(v: Value) { v.Decimal? || v.Integer? || v.Boolean? }

  /** Values that Python compares as equal: the same value, or numbers of one amount. */
  ghost predicate Equal(a: Value, b: Value) {
    a == b || exists x :: Amounts(a, x) && Amounts(b, x)
  }

  /** Values that Python can order: two numbers, two texts or two datetimes. */
  predicate Comparable(a: Value, b: Value) {
    (IsNumber(a) && IsNumber(b)) || (a.Text? && b.Text?) || (a.Moment? && b.Moment?)
  }

  /** One value is smaller than the other: by amount, by code points or by time. */
  ghost predicate Below(a: Value, b: Value) {
    || (exists x, y :: Amounts(a, x) && Amounts(b, y) && x < y)
    || (a.Text? && b.Text? && Precedes(a.text, b.text))
    || (a.Moment? && b.Moment? && a.time < b.time)
  }

  /** The condition is satisfied in the context. */
  ghost predicate ConditionMet(c: Condition, context: Context) {
    match c.operator
    case Exists => c.field in context
    case NotExists => c.field !in context
    case In => c.field in context && exists v :: v in c.expected.values && Equal(context[c.field], v)
    case NotIn => c.field in context && forall v | v in c.expected.values :: !Equal(context[c.field], v)
    case Equals => c.field in context && c.expected.Scalar? && Equal(context[c.field], c.expected.value)
    case NotEquals => c.field in context && !(c.expected.Scalar? && Equal(context[c.field], c.expected.value))
    case GreaterThan => Ordered(c, context) && Below(c.expected.value, context[c.field])
    case GreaterThanOrEqual =>
      Ordered(c, context) && (Below(c.expected.value, context[c.field]) || Equal(c.expected.value, context[c.field]))
    case LessThan => Ordered(c, context) && Below(context[c.field], c.expected.value)
    case LessThanOrEqual =>
      Ordered(c, context) && (Below(context[c.field], c.expected.value) || Equal(context[c.field], c.expected.value))
  }

  /** The field has a value that can be ordered against the condition's. */
  predicate Ordered(c: Condition, context: Context) {
    c.field in context && c.expected.Scalar? && Comparable(context[c.field], c.expected.value)
  }

  /** An ordering of a present field against a value of another kind or a collection. */
  predicate ConditionRaises(c: Condition, context: Context) {
    && c.field in context
    && c.operator in {GreaterThan, GreaterThanOrEqual, LessThan, LessThanOrEqual}
    && !Ordered(c, context)
  }

  /** The constraint is satisfied in the context. */
  ghost predicate ConstraintMet(c: Constraint, context: Context) {
    && c.field in context
    && ((exists x :: Amounts(context[c.field], x) && AmountFits(x, c.operator, c.value))
        || (!IsNumber(context[c.field]) && c.operator == NotEquals))
  }

  predicate AmountFits(x: real, operator: Operator, bound: real) {
    || (x > bound && operator in {GreaterThan, GreaterThanOrEqual, NotEquals})
    || (x == bound && operator in {GreaterThanOrEqual, LessThanOrEqual, Equals})
    || (x < bound && operator in {LessThan, LessThanOrEqual, NotEquals})
  }

  predicate ConstraintRaises(c: Constraint, context: Context) {
    && c.field in context && !IsNumber(context[c.field])
    && c.operator in {GreaterThan, GreaterThanOrEqual, LessThan, LessThanOrEqual}
  }

  /** Actor, action and resource of the context are those of the authorization. */
  predicate AuthorizationMet(a: Authorization, context: Context) {
    Names(context, "actor", a.actor) && Names(context, "action", a.action) && Names(context, "resource", a.resource)
  }

  predicate Names(context: Context, field: string, text: string) {
    field in context && context[field].Text? && context[field].text == text
  }

  /** The context's datetime stands before, at or after the start as the relation allows, and not behind an end. */
  predicate TemporalRuleMet(rule: TemporalRule, context: Context) {
    && rule.field in context && context[rule.field].Moment?
    && var t := context[rule.field].time;
       && (t < rule.start ==> rule.relation in {Before, OnOrBefore})
       && (t == rule.start ==> rule.relation in {OnOrBefore, OnOrAfter, Between})
       && (t > rule.start ==> rule.relation in {After, OnOrAfter, Between})
       && (rule.relation == Between ==> rule.end.Some? && t <= rule.end.value)
  }

  lemma NumbersAmount(v: Value)
    ensures IsNumber(v) <==> Number(v).Some?
    ensures forall x :: Amounts(v, x) <==> Number(v) == Some(x)
  {
  }

  lemma SameMeansEqual(a: Value, b: Value)
    ensures Same(a, b) <==> Equal(a, b)
  {
    NumbersAmount(a);
    NumbersAmount(b);
    if Same(a, b) && Number(a).Some? {
      assert Amounts(a, Number(a).value) && Amounts(b, Number(a).value);
    }
  }

  /** Comparable values are ordered one way, the other way, or equal. */
  lemma LessMeansBelow(a: Value, b: Value)
    ensures Less(a, b) == if Comparable(a, b) then Ok(Below(a, b)) else Err(UnorderedValues)
    ensures Comparable(a, b) ==> (!Below(a, b) <==> Below(b, a) || Equal(a, b))
  {
    NumbersAmount(a);
    NumbersAmount(b);
    if Number(a).Some? && Number(b).Some? {
      assert Amounts(a, Number(a).value) && Amounts(b, Number(b).value);
    } else if a.Text? && b.Text? {
      StringsAreTotallyOrdered(a.text, b.text);
      StringAtMostMeansPrecedes(a.text, b.text);
      StringAtMostMeansPrecedes(b.text, a.text);
      if Precedes(a.text, b.text) {
        PrecedingDiffers(a.text, b.text);
      }
      if Precedes(b.text, a.text) {
        PrecedingDiffers(b.text, a.text);
      }
    }
  }

  /** A condition is evaluated as its operator says, and raises exactly on an ordering of values without one. */
  lemma ConditionsMeanWhatTheirOperatorsSay(c: Condition, context: Context)
    ensures ConditionHolds(c, context).Err? <==> ConditionRaises(c, context)
    ensures ConditionHolds(c, context) == Ok(true) <==> ConditionMet(c, context)
  {
    if c.field in context {
      var actual := context[c.field];
      match c.expected
      case Scalar(expected) =>
        SameMeansEqual(actual, expected);
        LessMeansBelow(actual, expected);
        LessMeansBelow(expected, actual);
      case Members(values) =>
        forall v
          ensures Same(actual, v) <==> Equal(actual, v)
        {
          SameMeansEqual(actual, v);
        }
      case NoValue =>
    }
  }

  /** On two numbers a condition compares the context's amount with its own. */
  lemma ConditionsCompareAmounts(c: Condition, context: Context, actual: real, expected: real)
    requires c.field in context && Amounts(context[c.field], actual)
    requires c.expected.Scalar? && Amounts(c.expected.value, expected)
    ensures ConditionHolds(c, context) == Ok(AmountFits(actual, c.operator, expected))
  {
    NumbersAmount(context[c.field]);
    NumbersAmount(c.expected.value);
  }

  lemma ConstraintsMeanWhatTheirOperatorsSay(c: Constraint, context: Context)
    ensures ConstraintHolds(c, context).Err? <==> ConstraintRaises(c, context)
    ensures ConstraintHolds(c, context) == Ok(true) <==> ConstraintMet(c, context)
  {
    if c.field in context {
      NumbersAmount(context[c.field]);
      if IsNumber(context[c.field]) {
        assert Amounts(context[c.field], Number(context[c.field]).value);
      }
    }
  }

  lemma AuthorizationsMeanTheirThreeParts(a: Authorization, context: Context)
    ensures AuthorizationMatches(a, context) <==> AuthorizationMet(a, context)
  {
  }

  lemma TemporalRulesMeanTheirRelations(rule: TemporalRule, context: Context)
    ensures (rule.field in context && context[rule.field].Moment?
             && TemporalRuleMatches(rule, context[rule.field].time))
            <==> TemporalRuleMet(rule, context)
  {
  }

  /** A part of a contract that an evaluation looks at. */
  datatype Part =
    | RulePart(rule: Rule) | ConstraintPart(constraint: Constraint)
    | AuthorizationPart(authorization: Authorization) | TemporalPart(temporal: TemporalRule)

  ghost predicate PartMet(p: Part, context: Context) {
    match p
    case RulePart(rule) => ConditionMet(rule.condition, context)
    case ConstraintPart(constraint) => ConstraintMet(constraint, context)
    case AuthorizationPart(authorization) => AuthorizationMet(authorization, context)
    case TemporalPart(temporal) => TemporalRuleMet(temporal, context)
  }

  /** What is reported of an unmet part. */
  predicate Reports(v: Violation, p: Part, context: Context) {
    match p
    case RulePart(rule) =>
      v.rule == rule.name && v.field == Some(rule.condition.field) && v.reasonCode == RuleFailed(rule.ruleType)
    case ConstraintPart(constraint) =>
      v.rule == "financial_constraint" && v.field == Some(constraint.field) && v.reasonCode == FinancialConstraintFailed
    case AuthorizationPart(_) =>
      v.rule == "authorization" && v.field == Some("actor") && v.reasonCode == AuthorizationFailed
    case TemporalPart(temporal) =>
      && v.rule == "temporal_rule" && v.field == Some(temporal.field)
      && v.reasonCode == if temporal.field in context && context[temporal.field].Moment? then TemporalRuleFailed
                         else TemporalValueMissing
  }

  function RuleParts(rules: seq<Rule>): (r: seq<Part>)
    ensures |r| == |rules|
  {
    seq(|rules|, i requires 0 <= i < |rules| => RulePart(rules[i]))
  }

  function ConstraintParts(constraints: seq<Constraint>): (r: seq<Part>)
    ensures |r| == |constraints|
  {
    seq(|constraints|, i requires 0 <= i < |constraints| => ConstraintPart(constraints[i]))
  }

  function AuthorizationParts(authorizations: seq<Authorization>): (r: seq<Part>)
    ensures |r| == |authorizations|
  {
    seq(|authorizations|, i requires 0 <= i < |authorizations| => AuthorizationPart(authorizations[i]))
  }

  function TemporalParts(rules: seq<TemporalRule>): (r: seq<Part>)
    ensures |r| == |rules|
  {
    seq(|rules|, i requires 0 <= i < |rules| => TemporalPart(rules[i]))
  }

  /** The parts of a contract in the order of its evaluation. */
  function Parts(contract: FinancialContract): seq<Part> {
    RuleParts(contract.preconditions) + RuleParts(contract.invariants) + RuleParts(contract.postconditions)
    + ConstraintParts(contract.constraints) + AuthorizationParts(contract.authorizations)
    + TemporalParts(contract.temporalRules)
  }

  /** The violations report the unmet parts, each once and in order; `indices` tells where they stand. */
  ghost predicate ReportsUnmet(violations: seq<Violation>, parts: seq<Part>, context: Context, indices: seq<nat>) {
    && PicksOut(indices, parts, (p: Part) => !PartMet(p, context))
    && |indices| == |violations|
    && forall j | 0 <= j < |indices| :: Reports(violations[j], parts[indices[j]], context)
  }

  lemma ReportsUnmetOfOneMore(
    violations: seq<Violation>, parts: seq<Part>, context: Context, indices: seq<nat>, p: Part, more: seq<Violation>)
    returns (longer: seq<nat>)
    requires ReportsUnmet(violations, parts, context, indices)
    requires if PartMet(p, context) then more == [] else |more| == 1 && Reports(more[0], p, context)
    ensures ReportsUnmet(violations + more, parts + [p], context, longer)
  {
    PicksOutOfOneMore(indices, parts, (q: Part) => !PartMet(q, context), p);
    if PartMet(p, context) {
      longer := indices;
      assert violations + more == violations;
    } else {
      longer := indices + [|parts|];
      forall j | 0 <= j < |longer|
        ensures Reports((violations + more)[j], (parts + [p])[longer[j]], context)
      {
        assert j < |indices| ==> longer[j] == indices[j] < |parts|;
      }
    }
  }

  lemma ReportsUnmetTogether(
    vs: seq<Violation>, ps: seq<Part>, left: seq<nat>, ws: seq<Violation>, qs: seq<Part>, right: seq<nat>,
    context: Context)
    returns (both: seq<nat>)
    requires ReportsUnmet(vs, ps, context, left) && ReportsUnmet(ws, qs, context, right)
    ensures ReportsUnmet(vs + ws, ps + qs, context, both)
  {
    both := left + MovedBy(right, |ps|);
    PicksOutTogether(left, ps, right, qs, (p: Part) => !PartMet(p, context));
    forall j | 0 <= j < |both|
      ensures Reports((vs + ws)[j], (ps + qs)[both[j]], context)
    {
      if j >= |left| {
        assert both[j] == right[j - |left|] + |ps|;
      }
    }
  }

  lemma {:induction false} ConditionsAreReported(rules: seq<Rule>, context: Context) returns (indices: seq<nat>)
    ensures ConditionViolations(rules, context).Err?
            <==> exists i :: 0 <= i < |rules| && ConditionRaises(rules[i].condition, context)
    ensures ConditionViolations(rules, context).Ok? ==>
              ReportsUnmet(ConditionViolations(rules, context).value, RuleParts(rules), context, indices)
    decreases |rules|
  {
    if rules == [] {
      indices := [];
    } else {
      var init, last := rules[..|rules| - 1], rules[|rules| - 1];
      indices := ConditionsAreReported(init, context);
      ConditionsMeanWhatTheirOperatorsSay(last.condition, context);
      assert forall i | 0 <= i < |init| :: init[i] == rules[i];
      if ConditionViolations(rules, context).Ok? {
        var before := ConditionViolations(init, context).value;
        var more := if ConditionHolds(last.condition, context).value then []
                    else [Violation(last.name, Some(last.condition.field), RuleFailed(last.ruleType))];
        indices := ReportsUnmetOfOneMore(before, RuleParts(init), context, indices, RulePart(last), more);
        assert RuleParts(init) + [RulePart(last)] == RuleParts(rules);
      }
    }
  }

  lemma {:induction false} ConstraintsAreReported(constraints: seq<Constraint>, context: Context)
    returns (indices: seq<nat>)
    ensures ConstraintViolations(constraints, context).Err?
            <==> exists i :: 0 <= i < |constraints| && ConstraintRaises(constraints[i], context)
    ensures ConstraintViolations(constraints, context).Ok? ==>
              ReportsUnmet(
                ConstraintViolations(constraints, context).value, ConstraintParts(constraints), context, indices)
    decreases |constraints|
  {
    if constraints == [] {
      indices := [];
    } else {
      var init, last := constraints[..|constraints| - 1], constraints[|constraints| - 1];
      indices := ConstraintsAreReported(init, context);
      ConstraintsMeanWhatTheirOperatorsSay(last, context);
      assert forall i | 0 <= i < |init| :: init[i] == constraints[i];
      if ConstraintViolations(constraints, context).Ok? {
        var before := ConstraintViolations(init, context).value;
        var more := if ConstraintHolds(last, context).value then []
                    else [Violation("financial_constraint", Some(last.field), FinancialConstraintFailed)];
        indices := ReportsUnmetOfOneMore(before, ConstraintParts(init), context, indices, ConstraintPart(last), more);
        assert ConstraintParts(init) + [ConstraintPart(last)] == ConstraintParts(constraints);
      }
    }
  }

  lemma {:induction false} AuthorizationsAreReported(authorizations: seq<Authorization>, context: Context)
    returns (indices: seq<nat>)
    ensures ReportsUnmet(
              AuthorizationViolations(authorizations, context), AuthorizationParts(authorizations), context, indices)
    decreases |authorizations|
  {
    if authorizations == [] {
      indices := [];
    } else {
      var init, last := authorizations[..|authorizations| - 1], authorizations[|authorizations| - 1];
      indices := AuthorizationsAreReported(init, context);
      AuthorizationsMeanTheirThreeParts(last, context);
      var more := if AuthorizationMatches(last, context) then []
                  else [Violation("authorization", Some("actor"), AuthorizationFailed)];
      indices := ReportsUnmetOfOneMore(
        AuthorizationViolations(init, context), AuthorizationParts(init), context, indices,
        AuthorizationPart(last), more);
      assert AuthorizationParts(init) + [AuthorizationPart(last)] == AuthorizationParts(authorizations);
    }
  }

  lemma {:induction false} TemporalRulesAreReported(rules: seq<TemporalRule>, context: Context)
    returns (indices: seq<nat>)
    ensures ReportsUnmet(TemporalViolations(rules, context), TemporalParts(rules), context, indices)
    decreases |rules|
  {
    if rules == [] {
      indices := [];
    } else {
      var init, last := rules[..|rules| - 1], rules[|rules| - 1];
      indices := TemporalRulesAreReported(init, context);
      TemporalRulesMeanTheirRelations(last, context);
      var before := TemporalViolations(init, context);
      var isMoment := last.field in context && context[last.field].Moment?;
      var more := if !isMoment then [Violation("temporal_rule", Some(last.field), TemporalValueMissing)]
                  else if TemporalRuleMatches(last, context[last.field].time) then []
                  else [Violation("temporal_rule", Some(last.field), TemporalRuleFailed)];
      assert TemporalViolations(rules, context) == before + more;
      indices := ReportsUnmetOfOneMore(before, TemporalParts(init), context, indices, TemporalPart(last), more);
      assert TemporalParts(init) + [TemporalPart(last)] == TemporalParts(rules);
    }
  }

  lemma RulePartsTogether(contract: FinancialContract)
    ensures RuleParts(contract.preconditions + contract.invariants + contract.postconditions)
            == RuleParts(contract.preconditions) + RuleParts(contract.invariants) + RuleParts(contract.postconditions)
  {
  }

  /** An accepted contract's evaluation reports exactly its unmet parts, in order. */
  lemma EvaluationReportsTheUnmetParts(contract: FinancialContract, context: Context, validator: Validator)
    returns (indices: seq<nat>)
    requires validator(contract) == [] && Evaluated(contract, context, validator).Ok?
    ensures var evaluation := Evaluated(contract, context, validator).value;
            ReportsUnmet(evaluation.violations, Parts(contract), context, indices)
  {
    var rules := contract.preconditions + contract.invariants + contract.postconditions;
    var conditions := ConditionViolations(rules, context).value;
    var constraints := ConstraintViolations(contract.constraints, context).value;
    var authorizations := AuthorizationViolations(contract.authorizations, context);
    indices := ConditionsAreReported(rules, context);
    var more := ConstraintsAreReported(contract.constraints, context);
    RulePartsTogether(contract);
    indices := ReportsUnmetTogether(
      conditions, RuleParts(rules), indices, constraints, ConstraintParts(contract.constraints), more, context);
    more := AuthorizationsAreReported(contract.authorizations, context);
    indices := ReportsUnmetTogether(
      conditions + constraints, RuleParts(rules) + ConstraintParts(contract.constraints), indices,
      authorizations, AuthorizationParts(contract.authorizations), more, context);
    more := TemporalRulesAreReported(contract.temporalRules, context);
    indices := ReportsUnmetTogether(
      conditions + constraints + authorizations,
      RuleParts(rules) + ConstraintParts(contract.constraints) + AuthorizationParts(contract.authorizations), indices,
      TemporalViolations(contract.temporalRules, context), TemporalParts(contract.temporalRules), more, context);
  }

  /** An evaluation raises exactly when the contract is accepted and orders values that have no order. */
  lemma EvaluationRaisesIffSomethingHasNoOrder(contract: FinancialContract, context: Context, validator: Validator)
    ensures Evaluated(contract, context, validator).Err?
            <==> validator(contract) == []
                 && ((exists rule :: rule in contract.preconditions + contract.invariants + contract.postconditions
                                     && ConditionRaises(rule.condition, context))
                     || (exists c :: c in contract.constraints && ConstraintRaises(c, context)))
  {
    var rules := contract.preconditions + contract.invariants + contract.postconditions;
    var _ := ConditionsAreReported(rules, context);
    var _ := ConstraintsAreReported(contract.constraints, context);
  }

  /** A refused contract's evaluation fails with one violation for each of the validator's errors. */
  lemma RefusedContractsReportTheirErrors(contract: FinancialContract, context: Context, validator: Validator)
    requires validator(contract) != []
    ensures Evaluated(contract, context, validator).Ok?
    ensures var evaluation := Evaluated(contract, context, validator).value;
            && !evaluation.passed && |evaluation.violations| == |validator(contract)|
            && forall v | v in evaluation.violations :: v == Violation("contract_validation", None, ContractValidation)
  {
  }

  /** An evaluation passes exactly when the validator finds nothing and every part means what the context says. */
  lemma EvaluationPassesIffEverythingIsMet(contract: FinancialContract, context: Context, validator: Validator)
    ensures (Evaluated(contract, context, validator).Ok? && Evaluated(contract, context, validator).value.passed)
            <==> && validator(contract) == []
                 && (forall rule | rule in contract.preconditions + contract.invariants + contract.postconditions ::
                       ConditionMet(rule.condition, context))
                 && (forall c | c in contract.constraints :: ConstraintMet(c, context))
                 && (forall a | a in contract.authorizations :: AuthorizationMet(a, context))
                 && (forall rule | rule in contract.temporalRules :: TemporalRuleMet(rule, context))
  {
    var rules := contract.preconditions + contract.invariants + contract.postconditions;
    EvaluationPassesIffEverythingHolds(contract, context, validator);
    forall i | 0 <= i < |rules|
      ensures ConditionHolds(rules[i].condition, context) == Ok(true) <==> ConditionMet(rules[i].condition, context)
    {
      ConditionsMeanWhatTheirOperatorsSay(rules[i].condition, context);
    }
    forall i | 0 <= i < |contract.constraints|
      ensures ConstraintHolds(contract.constraints[i], context) == Ok(true)
              <==> ConstraintMet(contract.constraints[i], context)
    {
      ConstraintsMeanWhatTheirOperatorsSay(contract.constraints[i], context);
    }
    forall i | 0 <= i < |contract.authorizations|
      ensures AuthorizationMatches(contract.authorizations[i], context)
              <==> AuthorizationMet(contract.authorizations[i], context)
    {
      AuthorizationsMeanTheirThreeParts(contract.authorizations[i], context);
    }
    forall i | 0 <= i < |contract.temporalRules|
      ensures TemporalRuleMet(contract.temporalRules[i], context)
              <==> contract.temporalRules[i].field in context && context[contract.temporalRules[i].field].Moment?
                   && TemporalRuleMatches(contract.temporalRules[i], context[contract.temporalRules[i].field].time)
    {
      TemporalRulesMeanTheirRelations(contract.temporalRules[i], context);
    }
  }
}
