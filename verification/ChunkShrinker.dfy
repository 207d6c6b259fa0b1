/** The chunk-removing shrinker of failing simulations. */
module ChunkShrinker {
  import opened Results
  import opened Simulations
  import opened Subsequences
  import opened PrefixShrinker

  /** The simulation without the `size` events that start at `start`. */
  function Without(simulation: PaymentSimulation, start: nat, size: nat): PaymentSimulation
    requires start + size <= |simulation.events|
  {
    WithEvents(simulation, simulation.events[..start] + simulation.events[start + size..])
  }

  /** The first position, from `start` on, whose chunk can be removed without losing the failure. */
  function FirstRemovable(simulation: PaymentSimulation, reproduces: FailurePredicate, size: nat, start: nat)
    : (r: Option<nat>)
    ensures r.Some? ==> start <= r.value && r.value + size <= |simulation.events|
    ensures r.Some? ==> reproduces(Without(simulation, r.value, size))
    ensures forall k | start <= k && k + size <= |simulation.events| ::
              (r.None? || k < r.value) ==> !reproduces(Without(simulation, k, size))
    decreases |simulation.events| - start
  {
    if start + size > |simulation.events| then None
    else if reproduces(Without(simulation, start, size)) then Some(start)
    else if start == |simulation.events| then None
    else FirstRemovable(simulation, reproduces, size, start + 1)
  }

  /** Remove the first removable chunk; when there is none, halve the chunk size. */
  function ChunkShrunk(simulation: PaymentSimulation, reproduces: FailurePredicate, size: nat): PaymentSimulation
    requires size > 0
    decreases |simulation.events|, size
  {
    match FirstRemovable(simulation, reproduces, size, 0)
    case Some(start) => ChunkShrunk(Without(simulation, start, size), reproduces, size)
    case None => if size == 1 then simulation else ChunkShrunk(simulation, reproduces, size / 2)
  }

  function FirstChunkSize(simulation: PaymentSimulation): (size: nat)
    ensures size > 0
  {
    if |simulation.events| / 2 > 1 then |simulation.events| / 2 else 1
  }

  function Shrunk(simulation: PaymentSimulation, reproduces: FailurePredicate): PaymentSimulation {
    var start := PrefixShrunk(simulation, reproduces);
    ChunkShrunk(start, reproduces, FirstChunkSize(start))
  }

  /** How often a chunk size is halved on its way to one. */
  function Halvings(size: nat): (r: nat)
    ensures size > 0 ==> r < size
  {
    if size <= 1 then 0 else 1 + Halvings(size / 2)
  }

  function PowerOfTwo(n: nat): nat {
    if n == 0 then 1 else 2 * PowerOfTwo(n - 1)
  }

  /** The number of halvings is the binary logarithm, rounded down. */
  lemma {:induction false} HalvingsAreTheLogarithm(size: nat)
    requires size > 0
    ensures PowerOfTwo(Halvings(size)) <= size < 2 * PowerOfTwo(Halvings(size))
    decreases size
  {
    if size > 1 {
      HalvingsAreTheLogarithm(size / 2);
    }
  }

  /** No single event can be removed without losing the failure. */
  ghost predicate OneMinimal(simulation: PaymentSimulation, reproduces: FailurePredicate) {
    forall k | 0 <= k < |simulation.events| :: !reproduces(Without(simulation, k, 1))
  }

  /** The same simulation with a subsequence of the events, kept by kind, time and id. */
  ghost predicate ReducedFrom(r: PaymentSimulation, simulation: PaymentSimulation) {
    && r == simulation.(events := r.events)
    && SubsequenceOf(Payloads(r.events), Payloads(simulation.events))
  }

  lemma WithoutIsReduced(simulation: PaymentSimulation, start: nat, size: nat)
    requires start + size <= |simulation.events|
    ensures ReducedFrom(Without(simulation, start, size), simulation)
  {
    var payloads := Payloads(simulation.events);
    CutIsSubsequence(payloads, start, size);
    assert Payloads(simulation.events[..start] + simulation.events[start + size..])
      == payloads[..start] + payloads[start + size..];
  }

  lemma ReducedTransitive(a: PaymentSimulation, b: PaymentSimulation, c: PaymentSimulation)
    requires ReducedFrom(a, b) && ReducedFrom(b, c)
    ensures ReducedFrom(a, c)
  {
    SubsequenceTransitive(Payloads(a.events), Payloads(b.events), Payloads(c.events));
  }

  lemma {:induction false} ChunkShrinkingIsSound(
    simulation: PaymentSimulation, reproduces: FailurePredicate, size: nat)
    requires size > 0 && reproduces(simulation)
    ensures var r := ChunkShrunk(simulation, reproduces, size);
            reproduces(r) && ReducedFrom(r, simulation) && OneMinimal(r, reproduces)
    decreases |simulation.events|, size
  {
    match FirstRemovable(simulation, reproduces, size, 0)
    case Some(start) =>
      var candidate := Without(simulation, start, size);
      ChunkShrinkingIsSound(candidate, reproduces, size);
      WithoutIsReduced(simulation, start, size);
      ReducedTransitive(ChunkShrunk(simulation, reproduces, size), candidate, simulation);
    case None =>
      if size == 1 {
        SubsequenceReflexive(Payloads(simulation.events));
      } else {
        ChunkShrinkingIsSound(simulation, reproduces, size / 2);
      }
  }

  lemma PrefixIsReduced(simulation: PaymentSimulation, k: nat)
    requires k <= |simulation.events|
    ensures ReducedFrom(Prefix(simulation, k), simulation)
  {
    RebuildingAPrefixIsTheIdentity(simulation, k);
    WithoutIsReduced(simulation, k, |simulation.events| - k);
    assert simulation.events[..k] + simulation.events[|simulation.events|..] == simulation.events[..k];
  }

  /**
   * For every failure predicate the result reproduces the failure, keeps a subsequence of the events
   * in a renumbered stream, and loses the failure when any one of its events is deleted.
   */
  lemma ShrunkIsOneMinimal(simulation: PaymentSimulation, reproduces: FailurePredicate)
    requires reproduces(simulation)
    ensures var r := Shrunk(simulation, reproduces);
            reproduces(r) && ReducedFrom(r, simulation) && OneMinimal(r, reproduces)
  {
    var start := PrefixShrunk(simulation, reproduces);
    ShrinkingStopsAtTheFirstGap(simulation, reproduces);
    assert reproduces(Prefix(simulation, |start.events|));
    PrefixIsReduced(simulation, |start.events|);
    ChunkShrinkingIsSound(start, reproduces, FirstChunkSize(start));
    ReducedTransitive(Shrunk(simulation, reproduces), start, simulation);
  }

  /** One pass over the chunks of a size, up to the first that can go. */
  method TryChunks(current: PaymentSimulation, reproduces: FailurePredicate, size: nat)
    returns (removable: Option<nat>, ghost calls: nat)
    requires size > 0
    ensures removable == FirstRemovable(current, reproduces, size, 0)
    ensures calls <= |current.events|
  {
    calls := 0;
    var start := 0;
    while start + size <= |current.events|
      invariant start == 0 || start + size <= |current.events| + 1
      invariant calls == start
      invariant FirstRemovable(current, reproduces, size, start) == FirstRemovable(current, reproduces, size, 0)
      decreases |current.events| - start
    {
      var candidate := Without(current, start, size);
      calls := calls + 1;
      if reproduces(candidate) {
        return Some(start), calls;
      }
      start := start + 1;
    }
    removable := None;
  }

  /** Multiplication as repeated addition. */
  ghost function Times(m: nat, p: nat): nat {
    if p == 0 then 0 else Times(m, p - 1) + m
  }

  lemma {:induction false} TimesMultiplies(m: nat, p: nat)
    ensures Times(m, p) == m * p
    decreases p
  {
    if p > 0 {
      TimesMultiplies(m, p - 1);
      assert m * p == m * (p - 1) + m;
    }
  }

  /** The removal passes: every pass but the last shortens the stream or halves the chunk size. */
  method RemoveChunks(start: PaymentSimulation, reproduces: FailurePredicate)
    returns (current: PaymentSimulation, ghost calls: nat, ghost passes: nat)
    ensures current == ChunkShrunk(start, reproduces, FirstChunkSize(start))
    ensures |current.events| <= |start.events|
    ensures passes <= |start.events| - |current.events| + Halvings(FirstChunkSize(start)) + 1
    ensures calls <= Times(|start.events|, passes)
  {
    current, calls, passes := start, 0, 0;
    var size := FirstChunkSize(start);
    while size > 0
      invariant size > 0
      invariant ChunkShrunk(current, reproduces, size) == ChunkShrunk(start, reproduces, FirstChunkSize(start))
      invariant |current.events| <= |start.events|
      invariant passes <= |start.events| - |current.events| + Halvings(FirstChunkSize(start)) - Halvings(size)
      invariant calls <= Times(|start.events|, passes)
      decreases |current.events|, size
    {
      var begin, tried := TryChunks(current, reproduces, size);
      calls, passes := calls + tried, passes + 1;
      if begin.Some? {
        current := Without(current, begin.value, size);
      } else {
        if size == 1 {
          break;
        }
        size := size / 2;
      }
    }
  }

  method Shrink(simulation: PaymentSimulation, reproduces: FailurePredicate)
    returns (r: Result<PaymentSimulation, ShrinkError>, ghost calls: nat)
    ensures r == if reproduces(simulation) then Ok(Shrunk(simulation, reproduces)) else Err(InputDoesNotReproduce)
    ensures r.Err? ==> calls == 1
    ensures r.Ok? ==>
              var start := PrefixShrunk(simulation, reproduces);
              var n, m, k := |simulation.events|, |start.events|, |r.value.events|;
              && k <= m <= n
              && calls <= n + 2 + m * (m - k + Halvings(FirstChunkSize(start)) + 1)
              && calls <= n + 2 + m * (m + FirstChunkSize(start))
  {
    calls := 1;
    if !reproduces(simulation) {
      return Err(InputDoesNotReproduce), calls;
    }
    var shrunk, prefixCalls := ShrinkPrefix(simulation, reproduces);
    var current, removalCalls, passes := RemoveChunks(shrunk.value, reproduces);
    calls := calls + prefixCalls + removalCalls;
    r := Ok(current);
    var start := shrunk.value;
    PassesFitTheBudget(|start.events|, |current.events|, Halvings(FirstChunkSize(start)), FirstChunkSize(start), passes);
  }

  lemma MultiplyMonotone(m: nat, low: int, high: int)
    requires low <= high
    ensures m * low <= m * high
  {
  }

  lemma PassesFitTheBudget(m: nat, k: nat, h: nat, size: nat, passes: nat)
    requires k <= m && h < size && passes <= m - k + h + 1
    ensures Times(m, passes) <= m * (m - k + h + 1) <= m * (m + size)
  {
    TimesMultiplies(m, passes);
    MultiplyMonotone(m, passes, m - k + h + 1);
    MultiplyMonotone(m, m - k + h + 1, m + size);
  }

  /** One pass over a simulation with a chunk size: the first removable chunk goes, if there is one. */
  datatype Pass = Pass(simulation: PaymentSimulation, size: nat, removed: Option<nat>)

  ghost predicate IsPass(p: Pass, reproduces: FailurePredicate) {
    && p.size > 0
    && match p.removed
       case Some(start) =>
         && start + p.size <= |p.simulation.events| && reproduces(Without(p.simulation, start, p.size))
         && forall k | 0 <= k < start :: !reproduces(Without(p.simulation, k, p.size))
       case None =>
         forall k | 0 <= k && k + p.size <= |p.simulation.events| :: !reproduces(Without(p.simulation, k, p.size))
  }

  /** After a removal the size stays; after none it is halved, rounding down. */
  predicate Follows(next: Pass, p: Pass) {
    match p.removed
    case Some(start) =>
      start + p.size <= |p.simulation.events| && next.size == p.size
      && next.simulation == Without(p.simulation, start, p.size)
    case None => 2 * next.size <= p.size <= 2 * next.size + 1 && next.simulation == p.simulation
  }

  /** A whole run of passes, to one of size one that removes nothing. */
  ghost predicate IsRun(passes: seq<Pass>, reproduces: FailurePredicate, result: PaymentSimulation) {
    && passes != []
    && (forall i | 0 <= i < |passes| :: IsPass(passes[i], reproduces))
    && (forall i | 0 <= i < |passes| - 1 :: Follows(passes[i + 1], passes[i]))
    && passes[|passes| - 1] == Pass(result, 1, None)
  }

  lemma {:induction false} RemovalMakesARun(simulation: PaymentSimulation, reproduces: FailurePredicate, size: nat)
    returns (passes: seq<Pass>)
    requires size > 0
    ensures IsRun(passes, reproduces, ChunkShrunk(simulation, reproduces, size))
    ensures passes[0].simulation == simulation && passes[0].size == size
    decreases |simulation.events|, size
  {
    var removed := FirstRemovable(simulation, reproduces, size, 0);
    var first := Pass(simulation, size, removed);
    if removed.None? && size == 1 {
      passes := [first];
    } else {
      var rest := if removed.Some? then Without(simulation, removed.value, size) else simulation;
      var more := RemovalMakesARun(rest, reproduces, if removed.Some? then size else size / 2);
      passes := [first] + more;
      forall i | 0 <= i < |passes| - 1
        ensures Follows(passes[i + 1], passes[i])
      {
        assert i > 0 ==> passes[i] == more[i - 1] && passes[i + 1] == more[i - 1 + 1];
      }
    }
  }

  lemma {:induction false} RunsAreTheRemoval(
    passes: seq<Pass>, reproduces: FailurePredicate, result: PaymentSimulation)
    requires IsRun(passes, reproduces, result)
    ensures result == ChunkShrunk(passes[0].simulation, reproduces, passes[0].size)
    decreases |passes|
  {
    var p := passes[0];
    var removed := FirstRemovable(p.simulation, reproduces, p.size, 0);
    assert removed == p.removed by {
      assert IsPass(p, reproduces);
    }
    if |passes| > 1 {
      assert Follows(passes[0 + 1], passes[0]);
      assert IsPass(passes[1], reproduces);
      var rest := passes[1..];
      forall i | 0 <= i < |rest| - 1
        ensures Follows(rest[i + 1], rest[i])
      {
        assert Follows(passes[i + 1 + 1], passes[i + 1]);
      }
      RunsAreTheRemoval(rest, reproduces, result);
    }
  }

  /** The first pass is over the simulation, with chunks of half its events, rounded down, but of at least one. */
  predicate BeginsOn(passes: seq<Pass>, simulation: PaymentSimulation) {
    && passes != [] && passes[0].simulation == simulation
    && var size, n := passes[0].size, |simulation.events|;
       if n < 2 then size == 1 else 2 * size <= n <= 2 * size + 1
  }

  /** The shrinker's result is what a run of passes ends in that begins on the prefix-shrunk simulation. */
  lemma ShrunkIsTheEndOfARun(simulation: PaymentSimulation, reproduces: FailurePredicate, result: PaymentSimulation)
    ensures result == Shrunk(simulation, reproduces)
            <==> exists passes: seq<Pass> ::
                   BeginsOn(passes, PrefixShrunk(simulation, reproduces)) && IsRun(passes, reproduces, result)
  {
    var start := PrefixShrunk(simulation, reproduces);
    var passes := RemovalMakesARun(start, reproduces, FirstChunkSize(start));
    assert BeginsOn(passes, start);
    forall other: seq<Pass> | BeginsOn(other, start) && IsRun(other, reproduces, result)
      ensures result == Shrunk(simulation, reproduces)
    {
      RunsAreTheRemoval(other, reproduces, result);
    }
  }
}
