/** The suffix-dropping shrinker of failing simulations. */
module PrefixShrinker {
  import opened Results
  import opened Simulations

  type FailurePredicate = PaymentSimulation -> bool

  datatype ShrinkError = InputDoesNotReproduce

  /** Drop the last event for as long as the failure survives. */
  function PrefixShrunk(simulation: PaymentSimulation, reproduces: FailurePredicate): PaymentSimulation
    decreases |simulation.events|
  {
    if simulation.events == [] then simulation
    else
      var candidate := WithEvents(simulation, simulation.events[..|simulation.events| - 1]);
      if reproduces(candidate) then PrefixShrunk(candidate, reproduces) else simulation
  }

  method ShrinkPrefix(simulation: PaymentSimulation, reproduces: FailurePredicate)
    returns (r: Result<PaymentSimulation, ShrinkError>, ghost calls: nat)
    ensures r == if reproduces(simulation) then Ok(PrefixShrunk(simulation, reproduces)) else Err(InputDoesNotReproduce)
    ensures r.Ok? ==> |r.value.events| <= |simulation.events| && calls <= |simulation.events| - |r.value.events| + 2
    ensures r.Ok? && r.value.events == [] ==> calls == |simulation.events| + 1
  {
    calls := 1;
    if !reproduces(simulation) {
      return Err(InputDoesNotReproduce), calls;
    }
    var current := simulation;
    while current.events != []
      invariant PrefixShrunk(current, reproduces) == PrefixShrunk(simulation, reproduces)
      invariant |current.events| <= |simulation.events|
      invariant calls == 1 + |simulation.events| - |current.events|
      decreases |current.events|
    {
      var candidate := WithEvents(current, current.events[..|current.events| - 1]);
      calls := calls + 1;
      if !reproduces(candidate) {
        break;
      }
      current := candidate;
    }
    r := Ok(current);
  }

  /**
   * For every predicate: the result is a prefix, every longer prefix reproduces the failure too,
   * and the next shorter one does not.
   */
  lemma {:induction false} ShrinkingStopsAtTheFirstGap(simulation: PaymentSimulation, reproduces: FailurePredicate)
    requires reproduces(simulation)
    ensures var r := PrefixShrunk(simulation, reproduces);
            && |r.events| <= |simulation.events|
            && r == Prefix(simulation, |r.events|)
            && (forall k | |r.events| <= k <= |simulation.events| :: reproduces(Prefix(simulation, k)))
            && (r.events != [] ==> !reproduces(Prefix(simulation, |r.events| - 1)))
    decreases |simulation.events|
  {
    assert Prefix(simulation, |simulation.events|) == simulation;
    if simulation.events != [] {
      var n := |simulation.events| - 1;
      var candidate := WithEvents(simulation, simulation.events[..n]);
      RebuildingAPrefixIsTheIdentity(simulation, n);
      if reproduces(candidate) {
        ShrinkingStopsAtTheFirstGap(candidate, reproduces);
        forall k | 0 <= k <= n
          ensures Prefix(candidate, k) == Prefix(simulation, k)
        {
          assert simulation.events[..n][..k] == simulation.events[..k];
        }
      }
    }
  }

  /** The prefix of `k` events does not start to pass when the next event is appended. */
  ghost predicate StableAt(simulation: PaymentSimulation, reproduces: FailurePredicate, k: nat)
    requires k < |simulation.events|
  {
    reproduces(Prefix(simulation, k)) ==> reproduces(Prefix(simulation, k + 1))
  }

  /** No failing prefix becomes passing when its next event is appended. */
  ghost predicate StableUnderAppend(simulation: PaymentSimulation, reproduces: FailurePredicate) {
    forall k | 0 <= k < |simulation.events| :: StableAt(simulation, reproduces, k)
  }

  ghost predicate IsShortestFailingPrefix(
    r: PaymentSimulation, simulation: PaymentSimulation, reproduces: FailurePredicate)
  {
    && |r.events| <= |simulation.events|
    && r == Prefix(simulation, |r.events|)
    && reproduces(r)
    && forall k | 0 <= k < |r.events| :: !reproduces(Prefix(simulation, k))
  }

  lemma StableUpTo(simulation: PaymentSimulation, reproduces: FailurePredicate, k: nat, m: nat)
    requires StableUnderAppend(simulation, reproduces)
    requires k <= m <= |simulation.events| && reproduces(Prefix(simulation, k))
    ensures reproduces(Prefix(simulation, m))
    decreases m - k
  {
    if k < m {
      assert StableAt(simulation, reproduces, k);
      StableUpTo(simulation, reproduces, k + 1, m);
    }
  }

  lemma NoShorterPrefixFails(simulation: PaymentSimulation, reproduces: FailurePredicate, k: nat, m: nat)
    requires StableUnderAppend(simulation, reproduces)
    requires k < m <= |simulation.events| && !reproduces(Prefix(simulation, m - 1))
    ensures !reproduces(Prefix(simulation, k))
  {
    if reproduces(Prefix(simulation, k)) {
      StableUpTo(simulation, reproduces, k, m - 1);
    }
  }

  lemma FirstGapIsShortest(r: PaymentSimulation, simulation: PaymentSimulation, reproduces: FailurePredicate)
    requires StableUnderAppend(simulation, reproduces)
    requires |r.events| <= |simulation.events| && r == Prefix(simulation, |r.events|) && reproduces(r)
    requires r.events != [] ==> !reproduces(Prefix(simulation, |r.events| - 1))
    ensures IsShortestFailingPrefix(r, simulation, reproduces)
  {
    forall k | 0 <= k < |r.events|
      ensures !reproduces(Prefix(simulation, k))
    {
      NoShorterPrefixFails(simulation, reproduces, k, |r.events|);
    }
  }

  lemma StableFailuresShrinkToTheShortest(simulation: PaymentSimulation, reproduces: FailurePredicate)
    requires reproduces(simulation) && StableUnderAppend(simulation, reproduces)
    ensures IsShortestFailingPrefix(PrefixShrunk(simulation, reproduces), simulation, reproduces)
  {
    var r := PrefixShrunk(simulation, reproduces);
    assert |r.events| <= |simulation.events| && r == Prefix(simulation, |r.events|) && reproduces(r)
      && (r.events != [] ==> !reproduces(Prefix(simulation, |r.events| - 1))) by {
      ShrinkingStopsAtTheFirstGap(simulation, reproduces);
      assert reproduces(Prefix(simulation, |r.events|));
    }
    FirstGapIsShortest(r, simulation, reproduces);
  }

  /** A stable failure shrinks to the length at which it starts. */
  lemma StableFailuresShrinkToTheirStart(simulation: PaymentSimulation, reproduces: FailurePredicate, m: nat)
    requires reproduces(simulation) && StableUnderAppend(simulation, reproduces)
    requires 0 < m <= |simulation.events|
    requires reproduces(Prefix(simulation, m)) && !reproduces(Prefix(simulation, m - 1))
    ensures PrefixShrunk(simulation, reproduces) == Prefix(simulation, m)
    ensures IsShortestFailingPrefix(Prefix(simulation, m), simulation, reproduces)
  {
    var r := PrefixShrunk(simulation, reproduces);
    StableFailuresShrinkToTheShortest(simulation, reproduces);
    if |r.events| < m {
      NoShorterPrefixFails(simulation, reproduces, |r.events|, m);
    }
  }

  lemma ShortestResultsComeFromStableFailures(simulation: PaymentSimulation, reproduces: FailurePredicate)
    requires reproduces(simulation)
    requires IsShortestFailingPrefix(PrefixShrunk(simulation, reproduces), simulation, reproduces)
    ensures StableUnderAppend(simulation, reproduces)
  {
    var r := PrefixShrunk(simulation, reproduces);
    ShrinkingStopsAtTheFirstGap(simulation, reproduces);
    forall k | 0 <= k < |simulation.events|
      ensures StableAt(simulation, reproduces, k)
    {
      assert reproduces(Prefix(simulation, k)) ==> |r.events| <= k;
    }
  }

  /** The result is the shortest failing prefix exactly when failure is stable under appending. */
  lemma ResultIsShortestIffStable(simulation: PaymentSimulation, reproduces: FailurePredicate)
    requires reproduces(simulation)
    ensures IsShortestFailingPrefix(PrefixShrunk(simulation, reproduces), simulation, reproduces)
            <==> StableUnderAppend(simulation, reproduces)
  {
    if StableUnderAppend(simulation, reproduces) {
      StableFailuresShrinkToTheShortest(simulation, reproduces);
    } else if IsShortestFailingPrefix(PrefixShrunk(simulation, reproduces), simulation, reproduces) {
      ShortestResultsComeFromStableFailures(simulation, reproduces);
    }
  }

  /** Without that condition the docstring's promise fails: here the empty prefix reproduces too. */
  lemma ResultNeedNotBeShortest(simulation: PaymentSimulation)
    requires |simulation.events| == 2
    ensures var reproduces := (s: PaymentSimulation) => |s.events| != 1;
            && reproduces(simulation)
            && PrefixShrunk(simulation, reproduces) == simulation
            && !IsShortestFailingPrefix(simulation, simulation, reproduces)
  {
    var reproduces := (s: PaymentSimulation) => |s.events| != 1;
    assert reproduces(Prefix(simulation, 0));
  }
}
