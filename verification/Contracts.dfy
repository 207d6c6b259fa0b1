/** Financial contracts and their evaluation against a context. */
module Contracts {
  import opened Results
  import opened Payments
  import opened Sorting

  /** A context value. Decimals, integers and booleans compare as numbers, as in Python. */
  datatype Value =
    | Decimal(amount: real) | Integer(number: int) | Boolean(truth: bool)
    | Text(text: string) | Moment(time: Timestamp) | Nothing

  type Context = map<string, Value>

  datatype Operator =
    | Equals | NotEquals | GreaterThan | GreaterThanOrEqual | LessThan | LessThanOrEqual
    | Exists | NotExists | In | NotIn

  datatype Expected = Scalar(value: Value) | Members(values: seq<Value>) | NoValue

  datatype ConditionFields = Condition(field: string, operator: Operator, expected: Expected)

  /** What the condition constructor demands of operator and value. */
  predicate HasItsOperand(c: ConditionFields) {
    if c.operator in {Exists, NotExists} then c.expected.NoValue?
    else if c.operator in {In, NotIn} then c.expected.Members? && c.expected.values != []
    else c.expected.Members? || (c.expected.Scalar? && c.expected.value != Nothing)
  }

  /** A condition that its constructor accepts. */
  type Condition = c: ConditionFields | HasItsOperand(c) witness Condition("field", Exists, NoValue)

  datatype RuleType = Precondition | Invariant | Postcondition

  datatype Rule = Rule(name: string, condition: Condition, ruleType: RuleType)

  datatype Constraint = Constraint(field: string, operator: Operator, value: real, currency: Option<string>)

  datatype Authorization = Authorization(actor: string, action: string, resource: string)

  datatype TimeRelation = Before | After | OnOrBefore | OnOrAfter | Between

  datatype TemporalRule = TemporalRule(field: string, relation: TimeRelation, start: Timestamp, end: Option<Timestamp>)

  datatype ContractFields = ContractFields(
    inputs: seq<string>, constraints: seq<Constraint>,
    preconditions: seq<Rule>, invariants: seq<Rule>, postconditions: seq<Rule>,
    authorizations: seq<Authorization>, temporalRules: seq<TemporalRule>)

  /** The constructor's checks on constraints: one per field, and each on a declared input. */
  predicate ConstraintsAreUnique(f: ContractFields) {
    && (forall i, j | 0 <= i < j < |f.constraints| :: f.constraints[i].field != f.constraints[j].field)
    && (forall i | 0 <= i < |f.constraints| :: f.constraints[i].field in f.inputs)
  }

  type FinancialContract = f: ContractFields | ConstraintsAreUnique(f) witness ContractFields([], [], [], [], [], [], [])

  datatype ReasonCode =
    | ContractValidation | RuleFailed(ruleType: RuleType) | FinancialConstraintFailed
    | AuthorizationFailed | TemporalValueMissing | TemporalRuleFailed

  datatype Violation = Violation(rule: string, field: Option<string>, reasonCode: ReasonCode)

  datatype Evaluation = Evaluation(passed: bool, violations: seq<Violation>)

  /** An ordering between values of different kinds raises. */
  datatype EvaluationError = UnorderedValues

  type Validator = FinancialContract -> seq<string>

  function Number(v: Value): Option<real> {
    match v
    case Decimal(amount) => Some(amount)
    case Integer(number) => Some(number as real)
    case Boolean(truth) => Some(if truth then 1.0 else 0.0)
    case _ => None
  }

  predicate Same(a: Value, b: Value) {
    if Number(a).Some? && Number(b).Some? then Number(a) == Number(b) else a == b
  }

  function Less(a: Value, b: Value): Result<bool, EvaluationError> {
    if Number(a).Some? && Number(b).Some? then Ok(Number(a).value < Number(b).value)
    else if a.Text? && b.Text? then Ok(!StringAtMost(b.text, a.text))
    else if a.Moment? && b.Moment? then Ok(a.time < b.time)
    else Err(UnorderedValues)
  }

  function Not(r: Result<bool, EvaluationError>): Result<bool, EvaluationError> {
    match r
    case Ok(b) => Ok(!b)
    case Err(e) => Err(e)
  }

  /** A comparison operator between two present values. */
  function Holds(operator: Operator, actual: Value, expected: Value): Result<bool, EvaluationError> {
    match operator
    case Equals => Ok(Same(actual, expected))
    case NotEquals => Ok(!Same(actual, expected))
    case GreaterThan => Less(expected, actual)
    case GreaterThanOrEqual => Not(Less(actual, expected))
    case LessThan => Less(actual, expected)
    case LessThanOrEqual => Not(Less(expected, actual))
    case _ => Ok(false)
  }

  function ConditionHolds(c: Condition, context: Context): Result<bool, EvaluationError> {
    if c.operator == Exists then Ok(c.field in context)
    else if c.operator == NotExists then Ok(c.field !in context)
    else if c.field !in context then Ok(false)
    else
      var actual := context[c.field];
      match c.expected
      case Members(values) =>
        (match c.operator
         case In => Ok(exists v :: v in values && Same(actual, v))
         case NotIn => Ok(!exists v :: v in values && Same(actual, v))
         case Equals => Ok(false)
         case NotEquals => Ok(true)
         case _ => Err(UnorderedValues))
      case Scalar(expected) => Holds(c.operator, actual, expected)
      case NoValue => Ok(false)
  }

  function ConstraintHolds(c: Constraint, context: Context): Result<bool, EvaluationError> {
    if c.field !in context then Ok(false) else Holds(c.operator, context[c.field], Decimal(c.value))
  }

  predicate AuthorizationMatches(a: Authorization, context: Context) {
    && "actor" in context && context["actor"] == Text(a.actor)
    && "action" in context && context["action"] == Text(a.action)
    && "resource" in context && context["resource"] == Text(a.resource)
  }

  predicate TemporalRuleMatches(rule: TemporalRule, actual: Timestamp) {
    match rule.relation
    case Before => actual < rule.start
    case After => actual > rule.start
    case OnOrBefore => actual <= rule.start
    case OnOrAfter => actual >= rule.start
    case Between => rule.end.Some? && rule.start <= actual <= rule.end.value
  }

  function ConditionViolations(rules: seq<Rule>, context: Context): Result<seq<Violation>, EvaluationError> {
    if rules == [] then Ok([])
    else
      var rule := rules[|rules| - 1];
      match ConditionViolations(rules[..|rules| - 1], context)
      case Err(e) => Err(e)
      case Ok(found) =>
        match ConditionHolds(rule.condition, context)
        case Err(e) => Err(e)
        case Ok(holds) =>
          Ok(found + if holds then [] else [Violation(rule.name, Some(rule.condition.field), RuleFailed(rule.ruleType))])
  }

  function ConstraintViolations(constraints: seq<Constraint>, context: Context): Result<seq<Violation>, EvaluationError> {
    if constraints == [] then Ok([])
    else
      var constraint := constraints[|constraints| - 1];
      match ConstraintViolations(constraints[..|constraints| - 1], context)
      case Err(e) => Err(e)
      case Ok(found) =>
        match ConstraintHolds(constraint, context)
        case Err(e) => Err(e)
        case Ok(holds) =>
          Ok(found + if holds then []
                     else [Violation("financial_constraint", Some(constraint.field), FinancialConstraintFailed)])
  }

  function AuthorizationViolations(authorizations: seq<Authorization>, context: Context): seq<Violation> {
    if authorizations == [] then []
    else
      AuthorizationViolations(authorizations[..|authorizations| - 1], context)
      + if AuthorizationMatches(authorizations[|authorizations| - 1], context) then []
        else [Violation("authorization", Some("actor"), AuthorizationFailed)]
  }

  function TemporalViolations(rules: seq<TemporalRule>, context: Context): seq<Violation> {
    if rules == [] then []
    else
      var rule := rules[|rules| - 1];
      TemporalViolations(rules[..|rules| - 1], context)
      + if rule.field !in context || !context[rule.field].Moment?
        then [Violation("temporal_rule", Some(rule.field), TemporalValueMissing)]
        else if TemporalRuleMatches(rule, context[rule.field].time) then []
        else [Violation("temporal_rule", Some(rule.field), TemporalRuleFailed)]
  }

  function ValidationViolations(errors: seq<string>): (r: seq<Violation>)
    ensures |r| == |errors|
  {
    seq(|errors|, i => Violation("contract_validation", None, ContractValidation))
  }

  /** An invalid contract is not evaluated further; a valid one is evaluated section by section. */
  function Evaluated(contract: FinancialContract, context: Context, validator: Validator)
    : Result<Evaluation, EvaluationError>
  {
    var errors := validator(contract);
    if errors != [] then Ok(Evaluation(false, ValidationViolations(errors)))
    else
      match ConditionViolations(contract.preconditions + contract.invariants + contract.postconditions, context)
      case Err(e) => Err(e)
      case Ok(conditions) =>
        match ConstraintViolations(contract.constraints, context)
        case Err(e) => Err(e)
        case Ok(constraints) =>
          var all := conditions + constraints
                     + AuthorizationViolations(contract.authorizations, context)
                     + TemporalViolations(contract.temporalRules, context);
          Ok(Evaluation(all == [], all))
  }

  lemma {:induction false} ConditionErrorsAreSticky(rules: seq<Rule>, context: Context, k: nat)
    requires k <= |rules|
    ensures ConditionViolations(rules[..k], context).Err?
            ==> ConditionViolations(rules, context) == ConditionViolations(rules[..k], context)
    decreases |rules|
  {
    if k == |rules| {
      assert rules[..k] == rules;
    } else {
      ConditionErrorsAreSticky(rules[..|rules| - 1], context, k);
      assert rules[..|rules| - 1][..k] == rules[..k];
    }
  }

  lemma {:induction false} ConstraintErrorsAreSticky(constraints: seq<Constraint>, context: Context, k: nat)
    requires k <= |constraints|
    ensures ConstraintViolations(constraints[..k], context).Err?
            ==> ConstraintViolations(constraints, context) == ConstraintViolations(constraints[..k], context)
    decreases |constraints|
  {
    if k == |constraints| {
      assert constraints[..k] == constraints;
    } else {
      ConstraintErrorsAreSticky(constraints[..|constraints| - 1], context, k);
      assert constraints[..|constraints| - 1][..k] == constraints[..k];
    }
  }

  method EvaluateConditions(rules: seq<Rule>, context: Context, before: seq<Violation>)
    returns (r: Result<seq<Violation>, EvaluationError>)
    ensures r == match ConditionViolations(rules, context)
                 case Err(e) => Err(e)
                 case Ok(found) => Ok(before + found)
  {
    var violations := before;
    ghost var found := [];
    for i := 0 to |rules|
      invariant ConditionViolations(rules[..i], context) == Ok(found)
      invariant violations == before + found
    {
      var rule := rules[i];
      assert rules[..i + 1][..i] == rules[..i];
      ConditionErrorsAreSticky(rules, context, i + 1);
      match ConditionHolds(rule.condition, context)
      case Err(e) => return Err(e);
      case Ok(holds) =>
        assert found + [] == found;
        if !holds {
          var violation := Violation(rule.name, Some(rule.condition.field), RuleFailed(rule.ruleType));
          violations := violations + [violation];
          found := found + [violation];
        }
    }
    assert rules[..|rules|] == rules;
    r := Ok(violations);
  }

  method EvaluateFinancialConstraints(constraints: seq<Constraint>, context: Context, before: seq<Violation>)
    returns (r: Result<seq<Violation>, EvaluationError>)
    ensures r == match ConstraintViolations(constraints, context)
                 case Err(e) => Err(e)
                 case Ok(found) => Ok(before + found)
  {
    var violations := before;
    ghost var found := [];
    for i := 0 to |constraints|
      invariant ConstraintViolations(constraints[..i], context) == Ok(found)
      invariant violations == before + found
    {
      var constraint := constraints[i];
      assert constraints[..i + 1][..i] == constraints[..i];
      ConstraintErrorsAreSticky(constraints, context, i + 1);
      match ConstraintHolds(constraint, context)
      case Err(e) => return Err(e);
      case Ok(holds) =>
        assert found + [] == found;
        if !holds {
          var violation := Violation("financial_constraint", Some(constraint.field), FinancialConstraintFailed);
          violations := violations + [violation];
          found := found + [violation];
        }
    }
    assert constraints[..|constraints|] == constraints;
    r := Ok(violations);
  }

  method EvaluateAuthorizations(authorizations: seq<Authorization>, context: Context, before: seq<Violation>)
    returns (violations: seq<Violation>)
    ensures violations == before + AuthorizationViolations(authorizations, context)
  {
    violations := before;
    for i := 0 to |authorizations|
      invariant violations == before + AuthorizationViolations(authorizations[..i], context)
    {
      assert authorizations[..i + 1][..i] == authorizations[..i];
      if !AuthorizationMatches(authorizations[i], context) {
        violations := violations + [Violation("authorization", Some("actor"), AuthorizationFailed)];
      }
    }
    assert authorizations[..|authorizations|] == authorizations;
  }

  method EvaluateTemporalRules(rules: seq<TemporalRule>, context: Context, before: seq<Violation>)
    returns (violations: seq<Violation>)
    ensures violations == before + TemporalViolations(rules, context)
  {
    violations := before;
    for i := 0 to |rules|
      invariant violations == before + TemporalViolations(rules[..i], context)
    {
      var rule := rules[i];
      assert rules[..i + 1][..i] == rules[..i];
      if rule.field !in context || !context[rule.field].Moment? {
        violations := violations + [Violation("temporal_rule", Some(rule.field), TemporalValueMissing)];
        continue;
      }
      if !TemporalRuleMatches(rule, context[rule.field].time) {
        violations := violations + [Violation("temporal_rule", Some(rule.field), TemporalRuleFailed)];
      }
    }
    assert rules[..|rules|] == rules;
  }

  method Evaluate(contract: FinancialContract, context: Context, validator: Validator)
    returns (r: Result<Evaluation, EvaluationError>)
    ensures r == Evaluated(contract, context, validator)
  {
    var errors := validator(contract);
    var violations := ValidationViolations(errors);
    if errors == [] {
      assert violations == [];
      var conditions := EvaluateConditions(
        contract.preconditions + contract.invariants + contract.postconditions, context, violations);
      if conditions.Err? {
        return Err(conditions.error);
      }
      ghost var rules := contract.preconditions + contract.invariants + contract.postconditions;
      assert conditions.value == ConditionViolations(rules, context).value;
      var constraints := EvaluateFinancialConstraints(contract.constraints, context, conditions.value);
      if constraints.Err? {
        return Err(constraints.error);
      }
      violations := EvaluateAuthorizations(contract.authorizations, context, constraints.value);
      violations := EvaluateTemporalRules(contract.temporalRules, context, violations);
    }
    r := Ok(Evaluation(violations == [], violations));
  }

  /** On a number a constraint compares the amounts; on a missing field it fails; on another kind an ordering raises. */
  lemma ConstraintsCompareAmounts(c: Constraint, context: Context)
    requires c.operator !in {Exists, NotExists, In, NotIn}
    ensures c.field !in context ==> ConstraintHolds(c, context) == Ok(false)
    ensures c.field in context && Number(context[c.field]).Some? ==>
              var actual := Number(context[c.field]).value;
              && ConstraintHolds(c, context).Ok?
              && (ConstraintHolds(c, context).value <==>
                    || (actual > c.value && c.operator in {GreaterThan, GreaterThanOrEqual, NotEquals})
                    || (actual == c.value && c.operator in {GreaterThanOrEqual, LessThanOrEqual, Equals})
                    || (actual < c.value && c.operator in {LessThan, LessThanOrEqual, NotEquals}))
    ensures c.field in context && Number(context[c.field]).None? ==>
              ConstraintHolds(c, context)
              == if c.operator == Equals then Ok(false) else if c.operator == NotEquals then Ok(true)
                 else Err(UnorderedValues)
  {
  }

  predicate AllConditionsHold(rules: seq<Rule>, context: Context) {
    forall i | 0 <= i < |rules| :: ConditionHolds(rules[i].condition, context) == Ok(true)
  }

  predicate AllConstraintsHold(constraints: seq<Constraint>, context: Context) {
    forall i | 0 <= i < |constraints| :: ConstraintHolds(constraints[i], context) == Ok(true)
  }

  predicate AllAuthorizationsMatch(authorizations: seq<Authorization>, context: Context) {
    forall i | 0 <= i < |authorizations| :: AuthorizationMatches(authorizations[i], context)
  }

  predicate AllTemporalRulesMatch(rules: seq<TemporalRule>, context: Context) {
    forall i | 0 <= i < |rules| ::
      && rules[i].field in context && context[rules[i].field].Moment?
      && TemporalRuleMatches(rules[i], context[rules[i].field].time)
  }

  lemma {:induction false} NoConditionViolationMeansAllHold(rules: seq<Rule>, context: Context)
    ensures ConditionViolations(rules, context) == Ok([]) <==> AllConditionsHold(rules, context)
    decreases |rules|
  {
    if rules != [] {
      NoConditionViolationMeansAllHold(rules[..|rules| - 1], context);
    }
  }

  lemma {:induction false} NoConstraintViolationMeansAllHold(constraints: seq<Constraint>, context: Context)
    ensures ConstraintViolations(constraints, context) == Ok([]) <==> AllConstraintsHold(constraints, context)
    decreases |constraints|
  {
    if constraints != [] {
      var init, last := constraints[..|constraints| - 1], constraints[|constraints| - 1];
      NoConstraintViolationMeansAllHold(init, context);
      assert AllConstraintsHold(constraints, context)
        <==> AllConstraintsHold(init, context) && ConstraintHolds(last, context) == Ok(true) by {
        assert constraints == init + [last];
      }
      if ConstraintViolations(constraints, context).Ok? {
        var before, found := ConstraintViolations(init, context).value, ConstraintViolations(constraints, context).value;
        assert if ConstraintHolds(last, context).value then found == before else |found| == |before| + 1;
      }
    }
  }

  lemma {:induction false} NoAuthorizationViolationMeansAllMatch(authorizations: seq<Authorization>, context: Context)
    ensures AuthorizationViolations(authorizations, context) == [] <==> AllAuthorizationsMatch(authorizations, context)
    decreases |authorizations|
  {
    if authorizations != [] {
      NoAuthorizationViolationMeansAllMatch(authorizations[..|authorizations| - 1], context);
    }
  }

  lemma {:induction false} NoTemporalViolationMeansAllMatch(rules: seq<TemporalRule>, context: Context)
    ensures TemporalViolations(rules, context) == [] <==> AllTemporalRulesMatch(rules, context)
    decreases |rules|
  {
    if rules != [] {
      NoTemporalViolationMeansAllMatch(rules[..|rules| - 1], context);
    }
  }

  /** An evaluation passes exactly when the validator finds nothing and every part of the contract is met. */
  lemma EvaluationPassesIffEverythingHolds(contract: FinancialContract, context: Context, validator: Validator)
    ensures (Evaluated(contract, context, validator).Ok? && Evaluated(contract, context, validator).value.passed)
            <==> && validator(contract) == []
                 && AllConditionsHold(contract.preconditions + contract.invariants + contract.postconditions, context)
                 && AllConstraintsHold(contract.constraints, context)
                 && AllAuthorizationsMatch(contract.authorizations, context)
                 && AllTemporalRulesMatch(contract.temporalRules, context)
  {
    NoConditionViolationMeansAllHold(contract.preconditions + contract.invariants + contract.postconditions, context);
    NoConstraintViolationMeansAllHold(contract.constraints, context);
    NoAuthorizationViolationMeansAllMatch(contract.authorizations, context);
    NoTemporalViolationMeansAllMatch(contract.temporalRules, context);
  }
}
