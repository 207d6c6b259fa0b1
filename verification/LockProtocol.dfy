/** Any number of threads calling services that share one registry, step by step. */
module LockProtocol {
  import opened Results
  import opened Text
  import opened Idempotency

  type ThreadId = nat
  type ServiceId = nat

  /** Which threads call which services. Each service has its own lock, and all share one registry. */
  datatype Deployment = Deployment(calls: set<(ThreadId, ServiceId)>)

  /** Where a thread stands in a call on a service. */
  datatype Position =
    | Idle
    | Waiting(service: ServiceId, key: IdempotencyKey, fingerprint: string)    // before the lock
    | Holding(service: ServiceId, key: IdempotencyKey, fingerprint: string)    // before the lookup
    | Recording(service: ServiceId, key: IdempotencyKey, fingerprint: string)  // before `record` reads
    | Writing(service: ServiceId, key: IdempotencyKey, fingerprint: string)    // before `record` writes
    | Finishing(service: ServiceId, key: IdempotencyKey, fingerprint: string, outcome: Outcome)  // before the release
  {
    predicate InsideLock() { !Idle? && !Waiting? }
  }

  datatype State = State(
    registry: Registry, holders: map<ServiceId, ThreadId>, positions: map<ThreadId, Position>, log: seq<Entry>)
  {
    /** A thread that never called is idle. */
    function PositionOf(t: ThreadId): Position {
      if t in positions then positions[t] else Idle
    }

    function At(t: ThreadId, position: Position): State {
      this.(positions := positions[t := position])
    }

    /** The thread gives its lock back, and its call is finished. */
    function Released(service: ServiceId, entry: Entry): State {
      this.(holders := holders - {service}, log := log + [entry])
    }
  }

  /** A scheduler's choice: a thread starts a call, or takes its next step. */
  datatype Action =
    | Begin(thread: ThreadId, service: ServiceId, key: IdempotencyKey, fingerprint: string)
    | Run(thread: ThreadId)

  /** One step of a thread in a call; `None` when it is idle or has to wait for the lock. */
  function Step(s: State, t: ThreadId): Option<State> {
    match s.PositionOf(t)
    case Idle => None
    case Waiting(service, key, fingerprint) =>
      if service in s.holders then None
      else Some(s.At(t, Holding(service, key, fingerprint)).(holders := s.holders[service := t]))
    case Holding(service, key, fingerprint) =>
      (match Found(s.registry, key)
       case Some(existing) =>
         var outcome := if existing.fingerprint == fingerprint then Replayed(existing.fingerprint)
                        else ReusedWithDifferentResponse;
         Some(s.At(t, Finishing(service, key, fingerprint, outcome)))
       case None =>
         if Blank(fingerprint) then Some(s.At(t, Finishing(service, key, fingerprint, EmptyFingerprint)))
         else Some(s.At(t, Recording(service, key, fingerprint))))
    case Recording(service, key, fingerprint) =>
      (match Found(s.registry, key)
       case Some(existing) =>
         var outcome := if existing == IdempotencyRecord(key, fingerprint) then Executed(existing.fingerprint)
                        else DuplicateKey;
         Some(s.At(t, Finishing(service, key, fingerprint, outcome)))
       case None => Some(s.At(t, Writing(service, key, fingerprint))))
    case Writing(service, key, fingerprint) =>
      Some(s.At(t, Finishing(service, key, fingerprint, Executed(fingerprint)))
           .(registry := s.registry[key := IdempotencyRecord(key, fingerprint)]))
    case Finishing(service, key, fingerprint, outcome) =>
      Some(s.At(t, Idle).Released(service, Entry(key, fingerprint, outcome)))
  }

  function Next(d: Deployment, s: State, a: Action): Option<State> {
    match a
    case Begin(t, service, key, fingerprint) =>
      if (t, service) in d.calls && s.PositionOf(t).Idle? then Some(s.At(t, Waiting(service, key, fingerprint)))
      else None
    case Run(t) => Step(s, t)
  }

  /** The state after a schedule, `None` when some action of it is not enabled. */
  function After(d: Deployment, schedule: seq<Action>): Option<State> {
    if schedule == [] then Some(State(map[], map[], map[], []))
    else
      match After(d, schedule[..|schedule| - 1])
      case None => None
      case Some(s) => Next(d, s, schedule[|schedule| - 1])
  }

  /** What the thread inside the lock has done of its call, counted from the registry of the finished calls. */
  predicate InFlight(base: Registry, registry: Registry, position: Position) {
    match position
    case Idle => true
    case Waiting(_, _, _) => true
    case Holding(_, _, _) => registry == base
    case Recording(_, key, fingerprint) => registry == base && key !in base && !Blank(fingerprint)
    case Writing(_, key, fingerprint) => registry == base && key !in base && !Blank(fingerprint)
    case Finishing(_, key, fingerprint, outcome) => (registry, outcome) == Call(base, key, fingerprint)
  }

  /** A thread is inside the lock of the service it calls exactly when it holds it. */
  ghost predicate LocksAreExclusive(d: Deployment, s: State) {
    && (forall t: ThreadId | s.PositionOf(t).InsideLock() ::
          s.PositionOf(t).service in s.holders && s.holders[s.PositionOf(t).service] == t)
    && (forall v | v in s.holders ::
          s.PositionOf(s.holders[v]).InsideLock() && s.PositionOf(s.holders[v]).service == v)
    && (forall t: ThreadId | !s.PositionOf(t).Idle? :: (t, s.PositionOf(t).service) in d.calls)
  }

  /** The finished calls ran one after the other, and the registry is theirs up to the call in flight. */
  ghost predicate CallsAreSequential(s: State) {
    && Sequential(s.log)
    && (forall t: ThreadId :: InFlight(RegistryAfter(s.log), s.registry, s.PositionOf(t)))
    && ((forall t: ThreadId :: !s.PositionOf(t).InsideLock()) ==> s.registry == RegistryAfter(s.log))
  }

  /** A step moves one thread, and touches the locks only to take or to release that thread's own. */
  lemma StepMovesOneThread(d: Deployment, s: State, a: Action)
    requires Next(d, s, a).Some?
    ensures var s' := Next(d, s, a).value;
            var was, now := s.PositionOf(a.thread), s'.PositionOf(a.thread);
            && (forall u: ThreadId | u != a.thread :: s'.PositionOf(u) == s.PositionOf(u))
            && (!was.Idle? && !now.Idle? ==> now.service == was.service)
            && (was.Idle? && !now.Idle? ==> (a.thread, now.service) in d.calls)
            && (was.InsideLock() == now.InsideLock() ==> s'.holders == s.holders)
            && (!was.InsideLock() && now.InsideLock() ==>
                  was.Waiting? && was.service !in s.holders && s'.holders == s.holders[was.service := a.thread])
            && (was.InsideLock() && !now.InsideLock() ==> now.Idle? && s'.holders == s.holders - {was.service})
  {
    if a.Run? {
      match s.PositionOf(a.thread)
      case Idle =>
      case Waiting(_, _, _) =>
      case Holding(_, key, _) =>
      case Recording(_, key, _) =>
      case Writing(_, _, _) =>
      case Finishing(_, _, _, _) =>
    }
  }

  lemma StepKeepsLocksExclusive(d: Deployment, s: State, a: Action)
    requires LocksAreExclusive(d, s) && Next(d, s, a).Some?
    ensures LocksAreExclusive(d, Next(d, s, a).value)
  {
    var s' := Next(d, s, a).value;
    StepMovesOneThread(d, s, a);
    forall u: ThreadId | s'.PositionOf(u).InsideLock()
      ensures s'.PositionOf(u).service in s'.holders && s'.holders[s'.PositionOf(u).service] == u
    {
      assert u != a.thread ==> s'.PositionOf(u) == s.PositionOf(u);
    }
    forall v | v in s'.holders
      ensures s'.PositionOf(s'.holders[v]).InsideLock() && s'.PositionOf(s'.holders[v]).service == v
    {
      var u := s'.holders[v];
      assert u != a.thread ==> s'.PositionOf(u) == s.PositionOf(u);
    }
  }

  lemma {:induction false} LocksStayExclusive(d: Deployment, schedule: seq<Action>)
    requires After(d, schedule).Some?
    ensures LocksAreExclusive(d, After(d, schedule).value)
    decreases |schedule|
  {
    if schedule != [] {
      LocksStayExclusive(d, schedule[..|schedule| - 1]);
      StepKeepsLocksExclusive(d, After(d, schedule[..|schedule| - 1]).value, schedule[|schedule| - 1]);
    }
  }

  /** In every deployment, as long as some thread is in a call some thread can take a step. */
  lemma NoDeadlock(d: Deployment, schedule: seq<Action>, t: ThreadId)
    requires After(d, schedule).Some? && !After(d, schedule).value.PositionOf(t).Idle?
    ensures exists u: ThreadId :: Next(d, After(d, schedule).value, Run(u)).Some?
  {
    LocksStayExclusive(d, schedule);
    var s := After(d, schedule).value;
    var v := s.PositionOf(t).service;
    if v in s.holders {
      assert s.PositionOf(s.holders[v]).InsideLock();
      assert Next(d, s, Run(s.holders[v])).Some?;
    } else {
      assert Next(d, s, Run(t)).Some?;
    }
  }

  /** No two locks are held. */
  predicate OneLockHeld(s: State) {
    forall v, w | v in s.holders && w in s.holders :: v == w
  }

  /** No state on the way through a schedule has two locks held. */
  ghost predicate HandsOver(d: Deployment, schedule: seq<Action>) {
    forall k | 0 <= k <= |schedule| :: After(d, schedule[..k]).Some? ==> OneLockHeld(After(d, schedule[..k]).value)
  }

  lemma OtherThreadsAreOutside(d: Deployment, s: State, a: Action)
    requires LocksAreExclusive(d, s) && a.Run? && Next(d, s, a).Some?
    requires OneLockHeld(s) && OneLockHeld(Next(d, s, a).value)
    ensures forall u: ThreadId | u != a.thread :: !s.PositionOf(u).InsideLock()
  {
    var was, s' := s.PositionOf(a.thread), Next(d, s, a).value;
    if was.InsideLock() {
      assert was.service in s.holders && s.holders[was.service] == a.thread;
    } else {
      assert was.service !in s.holders && was.service in s'.holders && s.holders.Keys <= s'.holders.Keys;
    }
    forall u: ThreadId | u != a.thread && s.PositionOf(u).InsideLock()
      ensures false
    {
      assert false;
    }
  }

  lemma LogOfOneMore(log: seq<Entry>, entry: Entry)
    requires Sequential(log)
    requires entry.outcome == Call(RegistryAfter(log), entry.key, entry.fingerprint).1
    ensures Sequential(log + [entry])
    ensures RegistryAfter(log + [entry]) == Call(RegistryAfter(log), entry.key, entry.fingerprint).0
  {
    var more := log + [entry];
    assert more[..|log|] == log;
    assert forall i | 0 <= i < |log| :: more[..i] == log[..i];
  }

  /** The thread that moves inside the lock keeps its part of the invariant. */
  lemma MoverStaysInFlight(s: State, t: ThreadId)
    requires Step(s, t).Some?
    requires Sequential(s.log) && InFlight(RegistryAfter(s.log), s.registry, s.PositionOf(t))
    requires s.PositionOf(t).Waiting? ==> s.registry == RegistryAfter(s.log)
    ensures var s' := Step(s, t).value;
            && Sequential(s'.log)
            && InFlight(RegistryAfter(s'.log), s'.registry, s'.PositionOf(t))
            && (!s'.PositionOf(t).InsideLock() ==> s'.registry == RegistryAfter(s'.log))
  {
    match s.PositionOf(t)
    case Idle =>
    case Waiting(_, _, _) =>
    case Holding(_, key, _) =>
    case Recording(_, key, _) =>
    case Writing(_, _, _) =>
    case Finishing(_, key, fingerprint, outcome) => LogOfOneMore(s.log, Entry(key, fingerprint, outcome));
  }

  lemma StepKeepsCallsSequential(d: Deployment, s: State, a: Action)
    requires LocksAreExclusive(d, s) && CallsAreSequential(s) && Next(d, s, a).Some?
    requires OneLockHeld(s) && OneLockHeld(Next(d, s, a).value)
    ensures CallsAreSequential(Next(d, s, a).value)
  {
    var s' := Next(d, s, a).value;
    StepMovesOneThread(d, s, a);
    if a.Run? {
      OtherThreadsAreOutside(d, s, a);
      MoverStaysInFlight(s, a.thread);
      forall u: ThreadId
        ensures InFlight(RegistryAfter(s'.log), s'.registry, s'.PositionOf(u))
      {
        assert u != a.thread ==> s'.PositionOf(u) == s.PositionOf(u) && !s.PositionOf(u).InsideLock();
      }
    } else {
      forall u: ThreadId
        ensures InFlight(RegistryAfter(s'.log), s'.registry, s'.PositionOf(u))
        ensures s.PositionOf(u).InsideLock() <==> s'.PositionOf(u).InsideLock()
      {
        assert u != a.thread ==> s'.PositionOf(u) == s.PositionOf(u);
      }
    }
  }

  /**
   * In every deployment, a schedule that never has two locks held is linearizable: the finished calls, in the
   * order they released their locks, are what a sequential caller would have seen, whichever services ran them.
   */
  lemma {:induction false} HandoverIsLinearizable(d: Deployment, schedule: seq<Action>)
    requires After(d, schedule).Some? && HandsOver(d, schedule)
    ensures CallsAreSequential(After(d, schedule).value)
    decreases |schedule|
  {
    if schedule != [] {
      var last := |schedule| - 1;
      var before := schedule[..last];
      assert forall k | 0 <= k <= last :: before[..k] == schedule[..k];
      HandoverIsLinearizable(d, before);
      LocksStayExclusive(d, before);
      assert schedule[..last + 1] == schedule;
      StepKeepsCallsSequential(d, After(d, before).value, schedule[last]);
    }
  }

  /** Different threads never call different services. */
  predicate ThreadsShareOneLock(d: Deployment) {
    forall c, e | c in d.calls && e in d.calls :: c.0 != e.0 ==> c.1 == e.1
  }

  lemma SharingThreadsHandOver(d: Deployment, schedule: seq<Action>)
    requires ThreadsShareOneLock(d)
    ensures HandsOver(d, schedule)
  {
    forall k | 0 <= k <= |schedule| && After(d, schedule[..k]).Some?
      ensures OneLockHeld(After(d, schedule[..k]).value)
    {
      var s := After(d, schedule[..k]).value;
      LocksStayExclusive(d, schedule[..k]);
      forall v, w | v in s.holders && w in s.holders
        ensures v == w
      {
        var t, u := s.holders[v], s.holders[w];
        assert s.PositionOf(t).service == v && s.PositionOf(u).service == w;
        assert (t, v) in d.calls && (u, w) in d.calls;
      }
    }
  }

  /** When all threads share one lock, every schedule is linearizable. */
  lemma OneLockIsLinearizable(d: Deployment, schedule: seq<Action>)
    requires ThreadsShareOneLock(d) && After(d, schedule).Some?
    ensures CallsAreSequential(After(d, schedule).value)
  {
    SharingThreadsHandOver(d, schedule);
    HandoverIsLinearizable(d, schedule);
  }

  /** While no two locks are held the duplicate-key error is unreachable, and `record` never finds an earlier record. */
  lemma DuplicateKeyIsUnreachable(d: Deployment, schedule: seq<Action>, t: ThreadId)
    requires After(d, schedule).Some? && HandsOver(d, schedule)
    ensures var s := After(d, schedule).value;
            && (s.PositionOf(t).Finishing? ==> s.PositionOf(t).outcome != DuplicateKey)
            && (s.PositionOf(t).Recording? ==> s.PositionOf(t).key !in s.registry)
  {
    HandoverIsLinearizable(d, schedule);
    var s := After(d, schedule).value;
    assert InFlight(RegistryAfter(s.log), s.registry, s.PositionOf(t));
  }

  /** No two finished calls on one key report that they executed it. */
  ghost predicate ExecutesOncePerKey(log: seq<Entry>) {
    forall i, j | 0 <= i < j < |log| && log[i].key == log[j].key ::
      !(log[i].outcome.Executed? && log[j].outcome.Executed?)
  }

  ghost predicate AlwaysExecutesOnce(d: Deployment) {
    forall schedule | After(d, schedule).Some? :: ExecutesOncePerKey(After(d, schedule).value.log)
  }

  lemma ScheduleOfOneMore(d: Deployment, schedule: seq<Action>, a: Action)
    requires After(d, schedule).Some?
    ensures After(d, schedule + [a]) == Next(d, After(d, schedule).value, a)
  {
    assert (schedule + [a])[..|schedule|] == schedule;
  }

  /** Where two threads stand, what is recorded and what has finished. */
  ghost predicate Stands(
    s: Option<State>, t: ThreadId, u: ThreadId, ofT: Position, ofU: Position, registry: Registry, log: seq<Entry>)
  {
    && s.Some?
    && s.value.PositionOf(t) == ofT && s.value.PositionOf(u) == ofU
    && s.value.registry == registry && s.value.log == log
  }

  /** Two threads race on two locks: both look the key up before either records it. */
  lemma BothLookUpFirst(
    d: Deployment, t: ThreadId, v: ServiceId, u: ThreadId, w: ServiceId, key: IdempotencyKey,
    fingerprint: string, other: string)
    returns (schedule: seq<Action>)
    requires (t, v) in d.calls && (u, w) in d.calls && t != u && v != w && !Blank(fingerprint) && !Blank(other)
    ensures Stands(After(d, schedule), t, u, Recording(v, key, fingerprint), Recording(w, key, other), map[], [])
  {
    schedule := [];
    var begunT, begunU, runT, runU := Begin(t, v, key, fingerprint), Begin(u, w, key, other), Run(t), Run(u);
    ScheduleOfOneMore(d, schedule, begunT);
    schedule := schedule + [begunT];
    ScheduleOfOneMore(d, schedule, begunU);
    schedule := schedule + [begunU];
    assert Stands(After(d, schedule), t, u, Waiting(v, key, fingerprint), Waiting(w, key, other), map[], []);
    ScheduleOfOneMore(d, schedule, runT);
    schedule := schedule + [runT];
    ScheduleOfOneMore(d, schedule, runU);
    schedule := schedule + [runU];
    assert Stands(After(d, schedule), t, u, Holding(v, key, fingerprint), Holding(w, key, other), map[], []);
    ScheduleOfOneMore(d, schedule, runT);
    schedule := schedule + [runT];
    ScheduleOfOneMore(d, schedule, runU);
    schedule := schedule + [runU];
  }

  /** The first thread records and leaves. */
  lemma FirstRecords(
    d: Deployment, t: ThreadId, v: ServiceId, u: ThreadId, w: ServiceId, key: IdempotencyKey,
    fingerprint: string, other: string, before: seq<Action>)
    returns (schedule: seq<Action>)
    requires t != u
    requires Stands(After(d, before), t, u, Recording(v, key, fingerprint), Recording(w, key, other), map[], [])
    ensures Stands(After(d, schedule), t, u, Idle, Recording(w, key, other),
                   map[key := IdempotencyRecord(key, fingerprint)], [Entry(key, fingerprint, Executed(fingerprint))])
  {
    schedule := before;
    ScheduleOfOneMore(d, schedule, Run(t));
    schedule := schedule + [Run(t)];
    assert Stands(After(d, schedule), t, u, Writing(v, key, fingerprint), Recording(w, key, other), map[], []);
    ScheduleOfOneMore(d, schedule, Run(t));
    schedule := schedule + [Run(t)];
    ScheduleOfOneMore(d, schedule, Run(t));
    schedule := schedule + [Run(t)];
  }

  /** The second then finds its own record already stored, and reports an execution too. */
  lemma BothThenExecute(
    d: Deployment, t: ThreadId, v: ServiceId, u: ThreadId, w: ServiceId, key: IdempotencyKey, fingerprint: string,
    before: seq<Action>)
    returns (schedule: seq<Action>)
    requires t != u
    requires Stands(After(d, before), t, u, Recording(v, key, fingerprint), Recording(w, key, fingerprint), map[], [])
    ensures Stands(After(d, schedule), t, u, Idle, Idle, map[key := IdempotencyRecord(key, fingerprint)],
                   [Entry(key, fingerprint, Executed(fingerprint)), Entry(key, fingerprint, Executed(fingerprint))])
  {
    schedule := FirstRecords(d, t, v, u, w, key, fingerprint, fingerprint, before);
    var recorded: Registry := map[key := IdempotencyRecord(key, fingerprint)];
    var entry := Entry(key, fingerprint, Executed(fingerprint));
    ScheduleOfOneMore(d, schedule, Run(u));
    schedule := schedule + [Run(u)];
    assert Stands(
        After(d, schedule), t, u, Idle, Finishing(w, key, fingerprint, Executed(fingerprint)), recorded, [entry]);
    ScheduleOfOneMore(d, schedule, Run(u));
    schedule := schedule + [Run(u)];
  }

  /** Every schedule executes each key at most once if and only if different threads never call different services. */
  lemma ExecutesOnceIffOneLock(d: Deployment)
    ensures AlwaysExecutesOnce(d) <==> ThreadsShareOneLock(d)
  {
    if ThreadsShareOneLock(d) {
      forall schedule | After(d, schedule).Some?
        ensures ExecutesOncePerKey(After(d, schedule).value.log)
      {
        OneLockIsLinearizable(d, schedule);
        ExactlyOnce(After(d, schedule).value.log);
      }
    } else {
      var c, e :| c in d.calls && e in d.calls && c.0 != e.0 && c.1 != e.1;
      var before := BothLookUpFirst(d, c.0, c.1, e.0, e.1, "k", "f", "f");
      var schedule := BothThenExecute(d, c.0, c.1, e.0, e.1, "k", "f", before);
      var log := After(d, schedule).value.log;
      assert log[0].key == log[1].key;
      assert !ExecutesOncePerKey(log);
    }
  }

  /** The second finds another record than its own already stored: the duplicate-key error. */
  lemma SecondFindsAnotherRecord(
    d: Deployment, t: ThreadId, v: ServiceId, u: ThreadId, w: ServiceId, key: IdempotencyKey,
    fingerprint: string, other: string, before: seq<Action>)
    returns (schedule: seq<Action>)
    requires t != u && fingerprint != other
    requires Stands(After(d, before), t, u, Recording(v, key, fingerprint), Recording(w, key, other), map[], [])
    ensures Stands(After(d, schedule), t, u, Idle, Idle, map[key := IdempotencyRecord(key, fingerprint)],
                   [Entry(key, fingerprint, Executed(fingerprint)), Entry(key, other, DuplicateKey)])
  {
    schedule := FirstRecords(d, t, v, u, w, key, fingerprint, other, before);
    var recorded: Registry := map[key := IdempotencyRecord(key, fingerprint)];
    var entry := Entry(key, fingerprint, Executed(fingerprint));
    ScheduleOfOneMore(d, schedule, Run(u));
    schedule := schedule + [Run(u)];
    assert Stands(After(d, schedule), t, u, Idle, Finishing(w, key, other, DuplicateKey), recorded, [entry]);
    ScheduleOfOneMore(d, schedule, Run(u));
    schedule := schedule + [Run(u)];
  }

  ghost predicate NeverRaisesDuplicateKey(d: Deployment) {
    forall schedule | After(d, schedule).Some? ::
      forall entry | entry in After(d, schedule).value.log :: entry.outcome != DuplicateKey
  }

  /** No schedule ends a call in the duplicate-key error if and only if threads never call different services. */
  lemma DuplicateKeyNeverRaisedIffOneLock(d: Deployment)
    ensures NeverRaisesDuplicateKey(d) <==> ThreadsShareOneLock(d)
  {
    if ThreadsShareOneLock(d) {
      forall schedule | After(d, schedule).Some?
        ensures forall entry | entry in After(d, schedule).value.log :: entry.outcome != DuplicateKey
      {
        OneLockIsLinearizable(d, schedule);
      }
    } else {
      var c, e :| c in d.calls && e in d.calls && c.0 != e.0 && c.1 != e.1;
      var before := BothLookUpFirst(d, c.0, c.1, e.0, e.1, "k", "f", "g");
      var schedule := SecondFindsAnotherRecord(d, c.0, c.1, e.0, e.1, "k", "f", "g", before);
      assert After(d, schedule).value.log[1].outcome == DuplicateKey;
    }
  }
}
