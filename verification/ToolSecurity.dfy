/** The bounds on arguments that an investigation tool may be given. */
module ToolSecurity {
  import opened Results

  datatype ArgumentKey = Name(name: string) | OtherKey

  datatype Argument =
    | Text(text: string) | Scalar | Unsupported
    | Mapping(entries: seq<Entry>) | Sequence(items: seq<Argument>)

  datatype Entry = Entry(key: ArgumentKey, value: Argument)

  datatype Tool =
    | InspectContract | InspectExecution | InspectState | InspectViolation
    | InspectFinancialImpact | ReplayScenario | CompareExpectedActual

  datatype SecurityError =
    | TooManyArguments | NameNotString | InvalidName | NotAllowed
    | TooDeep | StringTooLong | TooManyItems | NestedKeyNotString | InvalidNestedKey | UnsupportedType

  const MAX_ARGUMENTS := 16
  const MAX_KEY_LENGTH := 64
  const MAX_STRING_LENGTH := 512
  const MAX_COLLECTION_ITEMS := 32
  const MAX_DEPTH := 3

  predicate ValidName(name: string) {
    0 < |name| <= MAX_KEY_LENGTH
  }

  /** The first check that refuses a value, looking at items in order. */
  function ValueError(value: Argument, depth: nat): Option<SecurityError>
    decreases value, 1
  {
    if depth > MAX_DEPTH then Some(TooDeep)
    else
      match value
      case Text(text) => if |text| > MAX_STRING_LENGTH then Some(StringTooLong) else None
      case Scalar => None
      case Mapping(entries) =>
        if |entries| > MAX_COLLECTION_ITEMS then Some(TooManyItems) else EntriesError(entries, depth + 1)
      case Sequence(items) =>
        if |items| > MAX_COLLECTION_ITEMS then Some(TooManyItems) else ItemsError(items, depth + 1)
      case Unsupported => Some(UnsupportedType)
  }

  function ItemsError(items: seq<Argument>, depth: nat): Option<SecurityError>
    decreases items, 0
  {
    if items == [] then None
    else
      match ValueError(items[0], depth)
      case Some(error) => Some(error)
      case None => ItemsError(items[1..], depth)
  }

  function EntriesError(entries: seq<Entry>, depth: nat): Option<SecurityError>
    decreases entries, 0
  {
    if entries == [] then None
    else if entries[0].key.OtherKey? then Some(NestedKeyNotString)
    else if !ValidName(entries[0].key.name) then Some(InvalidNestedKey)
    else
      assert entries[0].value < entries[0];
      match ValueError(entries[0].value, depth)
      case Some(error) => Some(error)
      case None => EntriesError(entries[1..], depth)
  }

  /** The nodes of a value: itself and everything inside it. */
  function Nodes(value: Argument): nat
    decreases value, 1
  {
    match value
    case Mapping(entries) => 1 + NodesOfEntries(entries)
    case Sequence(items) => 1 + NodesOfItems(items)
    case _ => 1
  }

  function NodesOfItems(items: seq<Argument>): nat
    decreases items, 0
  {
    if items == [] then 0 else Nodes(items[0]) + NodesOfItems(items[1..])
  }

  function NodesOfEntries(entries: seq<Entry>): nat
    decreases entries, 0
  {
    if entries == [] then 0
    else
      assert entries[0].value < entries[0];
      Nodes(entries[0].value) + NodesOfEntries(entries[1..])
  }

  /** Some value lies `depth` levels inside. */
  predicate Reaches(value: Argument, depth: nat)
    decreases depth
  {
    depth == 0
    || (value.Mapping? && exists i | 0 <= i < |value.entries| :: Reaches(value.entries[i].value, depth - 1))
    || (value.Sequence? && exists i | 0 <= i < |value.items| :: Reaches(value.items[i], depth - 1))
  }

  /** The nodes of a full tree with `width` items in each collection: 1 at depth 3, 1 + width * ... above. */
  function FullTree(depth: nat, width: nat): nat
    requires depth <= MAX_DEPTH
    decreases MAX_DEPTH - depth
  {
    if depth == MAX_DEPTH then 1 else 1 + width * FullTree(depth + 1, width)
  }

  /** The most nodes that fit at a depth. */
  function Budget(depth: nat): nat
    requires depth <= MAX_DEPTH
  {
    FullTree(depth, MAX_COLLECTION_ITEMS)
  }

  lemma {:induction false} AcceptedValuesFitTheBudget(value: Argument, depth: nat)
    requires ValueError(value, depth).None?
    ensures depth <= MAX_DEPTH && Nodes(value) <= Budget(depth)
    decreases value, 1
  {
    match value
    case Mapping(entries) => AcceptedEntriesFitTheBudget(entries, depth + 1);
    case Sequence(items) => AcceptedItemsFitTheBudget(items, depth + 1);
    case _ =>
  }

  lemma {:induction false} AcceptedItemsFitTheBudget(items: seq<Argument>, depth: nat)
    requires ItemsError(items, depth).None?
    ensures items != [] ==> depth <= MAX_DEPTH
    ensures NodesOfItems(items) <= |items| * if depth <= MAX_DEPTH then Budget(depth) else 0
    decreases items, 0
  {
    if items != [] {
      AcceptedValuesFitTheBudget(items[0], depth);
      AcceptedItemsFitTheBudget(items[1..], depth);
    }
  }

  lemma {:induction false} AcceptedEntriesFitTheBudget(entries: seq<Entry>, depth: nat)
    requires EntriesError(entries, depth).None?
    ensures entries != [] ==> depth <= MAX_DEPTH
    ensures NodesOfEntries(entries) <= |entries| * if depth <= MAX_DEPTH then Budget(depth) else 0
    decreases entries, 0
  {
    if entries != [] {
      assert entries[0].value < entries[0];
      AcceptedValuesFitTheBudget(entries[0].value, depth);
      AcceptedEntriesFitTheBudget(entries[1..], depth);
    }
  }

  lemma LargestBudget()
    ensures Budget(0) == 33825
  {
    assert Budget(3) == 1 && Budget(2) == 33 && Budget(1) == 1057;
  }

  /** No accepted value has more than 33,825 nodes. */
  lemma AcceptedValuesAreSmall(value: Argument)
    requires ValueError(value, 0).None?
    ensures Nodes(value) <= 33825
  {
    AcceptedValuesFitTheBudget(value, 0);
    LargestBudget();
  }

  function Repeated(value: Argument, n: nat): (r: seq<Argument>)
    ensures |r| == n
  {
    if n == 0 then [] else [value] + Repeated(value, n - 1)
  }

  lemma {:induction false} RepeatedItems(value: Argument, n: nat, depth: nat)
    requires ValueError(value, depth).None?
    ensures ItemsError(Repeated(value, n), depth).None?
    ensures NodesOfItems(Repeated(value, n)) == n * Nodes(value)
    decreases n
  {
    if n > 0 {
      RepeatedItems(value, n - 1, depth);
      assert Repeated(value, n)[1..] == Repeated(value, n - 1);
      assert n * Nodes(value) == Nodes(value) + (n - 1) * Nodes(value);
    }
  }

  /** Nested lists of `width` items from a depth down to the deepest one allowed. */
  function Full(depth: nat, width: nat): Argument
    requires depth <= MAX_DEPTH
    decreases MAX_DEPTH - depth
  {
    if depth == MAX_DEPTH then Scalar else Sequence(Repeated(Full(depth + 1, width), width))
  }

  lemma {:induction false} FullValuesAreAccepted(depth: nat, width: nat)
    requires depth <= MAX_DEPTH && width <= MAX_COLLECTION_ITEMS
    ensures ValueError(Full(depth, width), depth).None? && Nodes(Full(depth, width)) == FullTree(depth, width)
    decreases MAX_DEPTH - depth
  {
    if depth < MAX_DEPTH {
      FullValuesAreAccepted(depth + 1, width);
      RepeatedItems(Full(depth + 1, width), width, depth + 1);
    }
  }

  /** The bound is tight: some accepted value has exactly that many nodes. */
  lemma SomeValueMeetsTheBound() returns (value: Argument)
    ensures ValueError(value, 0).None? && Nodes(value) == 33825
  {
    var width := MAX_COLLECTION_ITEMS;
    value := Full(0, width);
    FullValuesAreAccepted(0, width);
    LargestBudget();
  }

  /** Every string, name, collection and type inside a value is within the limits, whatever its depth. */
  predicate WithinLimits(value: Argument)
    decreases value
  {
    match value
    case Text(text) => |text| <= 512
    case Scalar => true
    case Unsupported => false
    case Mapping(entries) =>
      && |entries| <= 32
      && forall i | 0 <= i < |entries| ::
           entries[i].key.Name? && 0 < |entries[i].key.name| <= 64 && WithinLimits(entries[i].value)
    case Sequence(items) => |items| <= 32 && forall i | 0 <= i < |items| :: WithinLimits(items[i])
  }

  lemma {:induction false} ItemsAreAcceptedTogether(items: seq<Argument>, depth: nat)
    ensures ItemsError(items, depth).None? <==> forall i | 0 <= i < |items| :: ValueError(items[i], depth).None?
    decreases |items|
  {
    if items != [] {
      ItemsAreAcceptedTogether(items[1..], depth);
      assert forall i | 0 <= i < |items| - 1 :: items[1..][i] == items[i + 1];
      assert forall i | 0 < i < |items| :: items[i] == items[1..][i - 1];
    }
  }

  lemma {:induction false} EntriesAreAcceptedTogether(entries: seq<Entry>, depth: nat)
    ensures EntriesError(entries, depth).None?
            <==> forall i | 0 <= i < |entries| ::
                   entries[i].key.Name? && ValidName(entries[i].key.name) && ValueError(entries[i].value, depth).None?
    decreases |entries|
  {
    if entries != [] {
      EntriesAreAcceptedTogether(entries[1..], depth);
      assert forall i | 0 <= i < |entries| - 1 :: entries[1..][i] == entries[i + 1];
      assert forall i | 0 < i < |entries| :: entries[i] == entries[1..][i - 1];
    }
  }

  /** A value is accepted exactly when it is within the limits and nothing in it lies more than three levels deep. */
  lemma {:induction false} AcceptedIffWithinLimitsAndShallow(value: Argument, depth: nat)
    requires depth <= MAX_DEPTH + 1
    ensures ValueError(value, depth).None?
            <==> depth <= MAX_DEPTH && WithinLimits(value) && !Reaches(value, MAX_DEPTH + 1 - depth)
    decreases MAX_DEPTH + 1 - depth
  {
    if depth <= MAX_DEPTH {
      match value
      case Mapping(entries) =>
        EntriesAreAcceptedTogether(entries, depth + 1);
        forall i | 0 <= i < |entries|
          ensures ValueError(entries[i].value, depth + 1).None?
                  <==> depth < MAX_DEPTH && WithinLimits(entries[i].value) && !Reaches(entries[i].value, MAX_DEPTH - depth)
        {
          AcceptedIffWithinLimitsAndShallow(entries[i].value, depth + 1);
        }
      case Sequence(items) =>
        ItemsAreAcceptedTogether(items, depth + 1);
        forall i | 0 <= i < |items|
          ensures ValueError(items[i], depth + 1).None?
                  <==> depth < MAX_DEPTH && WithinLimits(items[i]) && !Reaches(items[i], MAX_DEPTH - depth)
        {
          AcceptedIffWithinLimitsAndShallow(items[i], depth + 1);
        }
      case _ =>
    }
  }

  /** The allow-list of a tool. */
  function Allowed(tool: Tool): set<string> {
    if tool == InspectContract then {"include_constraints"} else {}
  }

  /** The first check that refuses one of a request's arguments. */
  function ArgumentsError(tool: Tool, arguments: seq<Entry>): Option<SecurityError> {
    if arguments == [] then None
    else
      var argument := arguments[0];
      if argument.key.OtherKey? then Some(NameNotString)
      else if !ValidName(argument.key.name) then Some(InvalidName)
      else if argument.key.name !in Allowed(tool) then Some(NotAllowed)
      else
        match ValueError(argument.value, 0)
        case Some(error) => Some(error)
        case None => ArgumentsError(tool, arguments[1..])
  }

  function RequestError(tool: Tool, arguments: seq<Entry>): Option<SecurityError> {
    if |arguments| > MAX_ARGUMENTS then Some(TooManyArguments) else ArgumentsError(tool, arguments)
  }

  /** The keys of a mapping are distinct. */
  predicate DistinctKeys(arguments: seq<Entry>) {
    forall i, j | 0 <= i < j < |arguments| :: arguments[i].key != arguments[j].key
  }

  lemma FirstTwoAreIncludeConstraints(tool: Tool, arguments: seq<Entry>)
    requires arguments != [] && ArgumentsError(tool, arguments).None?
    ensures tool == InspectContract && arguments[0].key == Name("include_constraints")
    ensures |arguments| > 1 ==> arguments[1].key == arguments[0].key
  {
    if |arguments| > 1 {
      assert arguments[1..][0] == arguments[1];
    }
  }

  /** An accepted request carries nothing, or one bounded value for the contract inspection. */
  lemma AcceptedRequestsCarryAtMostOneValue(tool: Tool, arguments: seq<Entry>)
    requires DistinctKeys(arguments)
    requires RequestError(tool, arguments).None?
    ensures arguments == []
            || (|arguments| == 1 && tool == InspectContract && arguments[0].key == Name("include_constraints")
                && Nodes(arguments[0].value) <= 33825 && !Reaches(arguments[0].value, MAX_DEPTH + 1))
  {
    if arguments != [] {
      assert arguments[0].key == Name("include_constraints");
      FirstTwoAreIncludeConstraints(tool, arguments);
      AcceptedValuesAreSmall(arguments[0].value);
      AcceptedIffWithinLimitsAndShallow(arguments[0].value, 0);
    }
  }

  /** The argument is one that the tool takes: the contract inspection's flag, with a bounded value. */
  predicate Takes(tool: Tool, argument: Entry) {
    && tool == InspectContract && argument.key == Name("include_constraints")
    && WithinLimits(argument.value) && !Reaches(argument.value, 4)
  }

  lemma {:induction false} ArgumentsAreAcceptedTogether(tool: Tool, arguments: seq<Entry>)
    ensures ArgumentsError(tool, arguments).None? <==> forall i | 0 <= i < |arguments| :: Takes(tool, arguments[i])
    decreases |arguments|
  {
    if arguments != [] {
      ArgumentsAreAcceptedTogether(tool, arguments[1..]);
      AcceptedIffWithinLimitsAndShallow(arguments[0].value, 0);
      assert forall i | 0 < i < |arguments| :: arguments[i] == arguments[1..][i - 1];
    }
  }

  /** A request is accepted exactly when it has at most sixteen arguments and the tool takes each of them. */
  lemma RequestsAreAcceptedIffEveryArgumentIsTaken(tool: Tool, arguments: seq<Entry>)
    ensures RequestError(tool, arguments).None?
            <==> |arguments| <= 16 && forall i | 0 <= i < |arguments| :: Takes(tool, arguments[i])
  {
    ArgumentsAreAcceptedTogether(tool, arguments);
  }

  /** Something at or inside a value that lies `depth` levels deep is as the error says. */
  predicate Suffers(value: Argument, depth: nat, error: SecurityError)
    decreases value
  {
    match error
    case TooDeep => depth > 3 || SomethingInside(value, depth, error)
    case StringTooLong => (value.Text? && |value.text| > 512) || SomethingInside(value, depth, error)
    case UnsupportedType => value.Unsupported? || SomethingInside(value, depth, error)
    case TooManyItems =>
      || (value.Mapping? && |value.entries| > 32) || (value.Sequence? && |value.items| > 32)
      || SomethingInside(value, depth, error)
    case NestedKeyNotString =>
      || (value.Mapping? && exists i :: 0 <= i < |value.entries| && value.entries[i].key.OtherKey?)
      || SomethingInside(value, depth, error)
    case InvalidNestedKey =>
      || (value.Mapping? && exists i :: 0 <= i < |value.entries| && value.entries[i].key.Name?
                                        && !(0 < |value.entries[i].key.name| <= 64))
      || SomethingInside(value, depth, error)
    case _ => false
  }

  predicate SomethingInside(value: Argument, depth: nat, error: SecurityError)
    decreases value, 0
  {
    || (value.Mapping? && exists i | 0 <= i < |value.entries| :: Suffers(value.entries[i].value, depth + 1, error))
    || (value.Sequence? && exists i | 0 <= i < |value.items| :: Suffers(value.items[i], depth + 1, error))
  }

  lemma {:induction false} ValueErrorsAreSuffered(value: Argument, depth: nat)
    ensures ValueError(value, depth).Some? ==> Suffers(value, depth, ValueError(value, depth).value)
    decreases value, 1
  {
    match value
    case Mapping(entries) => EntryErrorsAreSuffered(entries, depth + 1);
    case Sequence(items) => ItemErrorsAreSuffered(items, depth + 1);
    case _ =>
  }

  lemma {:induction false} ItemErrorsAreSuffered(items: seq<Argument>, depth: nat)
    ensures ItemsError(items, depth).Some? ==>
              exists i | 0 <= i < |items| :: Suffers(items[i], depth, ItemsError(items, depth).value)
    decreases items, 0
  {
    if items != [] {
      ValueErrorsAreSuffered(items[0], depth);
      ItemErrorsAreSuffered(items[1..], depth);
      assert forall i | 0 <= i < |items| - 1 :: items[1..][i] == items[i + 1];
    }
  }

  /** The error is about an entry's key, or about something in its value. */
  predicate EntrySuffers(entry: Entry, depth: nat, error: SecurityError) {
    || (error == NestedKeyNotString && entry.key.OtherKey?)
    || (error == InvalidNestedKey && entry.key.Name? && !(0 < |entry.key.name| <= 64))
    || Suffers(entry.value, depth, error)
  }

  lemma {:induction false} EntryErrorsAreSuffered(entries: seq<Entry>, depth: nat)
    ensures EntriesError(entries, depth).Some? ==>
              exists i | 0 <= i < |entries| :: EntrySuffers(entries[i], depth, EntriesError(entries, depth).value)
    decreases entries, 0
  {
    if entries != [] {
      assert entries[0].value < entries[0];
      ValueErrorsAreSuffered(entries[0].value, depth);
      EntryErrorsAreSuffered(entries[1..], depth);
      assert forall i | 0 <= i < |entries| - 1 :: entries[1..][i] == entries[i + 1];
    }
  }

  /** What is wrong with an argument: its name first, then its value. */
  predicate IsRefused(tool: Tool, argument: Entry, error: SecurityError) {
    if argument.key.OtherKey? then error == NameNotString
    else if !(0 < |argument.key.name| <= 64) then error == InvalidName
    else if !(tool == InspectContract && argument.key.name == "include_constraints") then error == NotAllowed
    else Suffers(argument.value, 0, error)
  }

  lemma {:induction false} FirstBadArgument(tool: Tool, arguments: seq<Entry>)
    ensures ArgumentsError(tool, arguments).Some? ==>
              exists i | 0 <= i < |arguments| ::
                (forall j | 0 <= j < i :: Takes(tool, arguments[j]))
                && IsRefused(tool, arguments[i], ArgumentsError(tool, arguments).value)
    decreases |arguments|
  {
    if ArgumentsError(tool, arguments).Some? {
      var rest, error := arguments[1..], ArgumentsError(tool, arguments).value;
      ValueErrorsAreSuffered(arguments[0].value, 0);
      if !IsRefused(tool, arguments[0], error) {
        FirstBadArgument(tool, rest);
        var i :| 0 <= i < |rest| && (forall j | 0 <= j < i :: Takes(tool, rest[j])) && IsRefused(tool, rest[i], error);
        AcceptedIffWithinLimitsAndShallow(arguments[0].value, 0);
        assert arguments[i + 1] == rest[i];
        assert forall j | 0 < j < i + 1 :: arguments[j] == rest[j - 1];
      }
    }
  }

  /** A refused request has too many arguments, or an argument that the tool does not take after ones that it takes. */
  lemma RefusalsNameTheFirstBadArgument(tool: Tool, arguments: seq<Entry>)
    requires RequestError(tool, arguments).Some?
    ensures var error := RequestError(tool, arguments).value;
            if |arguments| > 16 then error == TooManyArguments
            else
              exists i | 0 <= i < |arguments| ::
                (forall j | 0 <= j < i :: Takes(tool, arguments[j])) && IsRefused(tool, arguments[i], error)
  {
    FirstBadArgument(tool, arguments);
  }
}
