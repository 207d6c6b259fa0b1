/** The counterexample record and the demo pipeline's way of shrinking one. */
module Counterexamples {
  import opened Results
  import opened Text
  import opened Payments
  import opened Simulations
  import opened Runner
  import opened PrefixShrinker
  import opened MinimalFailures

  datatype CounterexampleFields = CounterexampleFields(
    simulationId: Uuid, simulation: PaymentSimulation, violationCode: string,
    originalEventCount: int, minimizedEventCount: int)

  datatype CounterexampleError =
    | SimulationIdMismatch | EmptyViolationCode | NegativeOriginalCount | NegativeMinimizedCount
    | MinimizedExceedsOriginal | MinimizedCountMismatch

  datatype PipelineError = NotShrinkable(shrink: ShrinkError) | NotConstructible(construction: CounterexampleError)

  /** The constructor's checks, in their order. */
  function ConstructionError(f: CounterexampleFields): Option<CounterexampleError> {
    if f.simulationId != f.simulation.id then Some(SimulationIdMismatch)
    else if Blank(f.violationCode) then Some(EmptyViolationCode)
    else if f.originalEventCount < 0 then Some(NegativeOriginalCount)
    else if f.minimizedEventCount < 0 then Some(NegativeMinimizedCount)
    else if f.minimizedEventCount > f.originalEventCount then Some(MinimizedExceedsOriginal)
    else if f.minimizedEventCount != |f.simulation.events| then Some(MinimizedCountMismatch)
    else None
  }

  type Counterexample = f: CounterexampleFields | ConstructionError(f).None?
    witness CounterexampleFields(
              0, SimulationFields(
                0, Payment(0, 1, "INR", PaymentState.Created, 0, 0),
                PaymentOrder(1, "INR", OrderState.Created, 0, 0), [], 0), "x", 0, 0)

  function MakeCounterexample(f: CounterexampleFields): Result<Counterexample, CounterexampleError> {
    match ConstructionError(f)
    case Some(error) => Err(error)
    case None => Ok(f)
  }

  /**
   * Shrink a counterexample's simulation and record the result. The construction never raises: a failing
   * simulation always gives a counterexample, and only a passing one is refused.
   */
  method ShrinkCounterexample(counterexample: Counterexample, reproduces: FailurePredicate)
    returns (r: Result<Counterexample, PipelineError>)
    ensures r.Ok? <==> reproduces(counterexample.simulation)
    ensures r.Err? ==> r.error == NotShrinkable(InputDoesNotReproduce)
    ensures r.Ok? ==>
              && r.value.simulation == PrefixShrunk(counterexample.simulation, reproduces)
              && r.value.minimizedEventCount <= counterexample.minimizedEventCount
              && r.value.originalEventCount == counterexample.originalEventCount
              && r.value.violationCode == counterexample.violationCode
    ensures r.Ok? && reproduces == Rejects ==>
              r.value.minimizedEventCount == OutcomeOf(counterexample.simulation).index + 1
  {
    var shrunk, _ := ShrinkPrefix(counterexample.simulation, reproduces);
    if shrunk.Err? {
      return Err(NotShrinkable(shrunk.error));
    }
    var minimized := shrunk.value;
    ShrinkingStopsAtTheFirstGap(counterexample.simulation, reproduces);
    if reproduces == Rejects {
      PrefixShrunkEndsAtTheRejectedEvent(counterexample.simulation);
    }
    match MakeCounterexample(CounterexampleFields(
                               minimized.id, minimized, counterexample.violationCode,
                               counterexample.originalEventCount, |minimized.events|))
    case Err(error) => r := Err(NotConstructible(error));
    case Ok(made) => r := Ok(made);
  }

  /** A counterexample is of its own simulation, named, and counts its events; else the first fault is raised. */
  lemma CounterexamplesAreCheckedInOrder(f: CounterexampleFields)
    ensures var ofItsSimulation := f.simulationId == f.simulation.id;
            var named := exists i :: 0 <= i < |f.violationCode| && !IsWhitespace(f.violationCode[i]);
            match ConstructionError(f)
            case Some(SimulationIdMismatch) => !ofItsSimulation
            case Some(EmptyViolationCode) => ofItsSimulation && !named
            case Some(NegativeOriginalCount) => ofItsSimulation && named && f.originalEventCount < 0
            case Some(NegativeMinimizedCount) =>
              ofItsSimulation && named && f.minimizedEventCount < 0 <= f.originalEventCount
            case Some(MinimizedExceedsOriginal) =>
              ofItsSimulation && named && 0 <= f.originalEventCount < f.minimizedEventCount
            case Some(MinimizedCountMismatch) =>
              && ofItsSimulation && named && 0 <= f.minimizedEventCount <= f.originalEventCount
              && f.minimizedEventCount != |f.simulation.events|
            case None =>
              ofItsSimulation && named && f.minimizedEventCount == |f.simulation.events| <= f.originalEventCount
  {
    BlankMeansAllWhitespace(f.violationCode);
  }
}
