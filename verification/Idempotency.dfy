/** The write-once registry and the service that executes a keyed operation at most once. */
module Idempotency {
  import opened Results
  import opened Text

  /** A key that its constructor accepts. */
  type IdempotencyKey = s: string | !Blank(s) witness "k"

  datatype IdempotencyRecord = IdempotencyRecord(key: IdempotencyKey, fingerprint: string)

  type Registry = map<IdempotencyKey, IdempotencyRecord>

  /** What a call returns (executed or replayed, with the stored fingerprint) or raises. */
  datatype Outcome =
    | Executed(fingerprint: string) | Replayed(fingerprint: string)
    | ReusedWithDifferentResponse | EmptyFingerprint | DuplicateKey
  {
    predicate Returns() { Executed? || Replayed? }
  }

  function Found(registry: Registry, key: IdempotencyKey): Option<IdempotencyRecord> {
    if key in registry then Some(registry[key]) else None
  }

  /** The effect of one uninterrupted call. */
  function Call(registry: Registry, key: IdempotencyKey, fingerprint: string): (Registry, Outcome) {
    if key in registry then
      (registry, if registry[key].fingerprint == fingerprint then Replayed(fingerprint) else ReusedWithDifferentResponse)
    else if Blank(fingerprint) then (registry, EmptyFingerprint)
    else (registry[key := IdempotencyRecord(key, fingerprint)], Executed(fingerprint))
  }

  class IdempotencyService {
    var records: Registry

    constructor ()
      ensures records == map[]
    {
      records := map[];
    }

    method Lookup(key: IdempotencyKey) returns (r: Option<IdempotencyRecord>)
      ensures r.Some? <==> key in records
      ensures r.Some? ==> r.value == records[key]
    {
      r := Found(records, key);
    }

    /** Store a record under a new key; a stored record is never overwritten. */
    method Record(record: IdempotencyRecord) returns (r: Result<IdempotencyRecord, Outcome>)
      modifies this
      ensures record.key !in old(records) ==> records == old(records)[record.key := record] && r == Ok(record)
      ensures record.key in old(records) ==> records == old(records)
      ensures record.key in old(records) && old(records)[record.key] == record ==> r == Ok(record)
      ensures record.key in old(records) && old(records)[record.key] != record ==> r == Err(DuplicateKey)
    {
      var existing := Found(records, record.key);
      if existing.Some? {
        if existing.value == record {
          return Ok(existing.value);
        }
        return Err(DuplicateKey);
      }
      records := records[record.key := record];
      r := Ok(record);
    }
  }

  class IdempotentExecutionService {
    const idempotency: IdempotencyService

    constructor (idempotency: IdempotencyService)
      ensures this.idempotency == idempotency
    {
      this.idempotency := idempotency;
    }

    /** The body that runs under the service's lock; the duplicate-key error of `Record` never escapes. */
    method Execute(key: IdempotencyKey, fingerprint: string) returns (outcome: Outcome)
      modifies idempotency
      ensures (idempotency.records, outcome) == Call(old(idempotency.records), key, fingerprint)
    {
      var existing := idempotency.Lookup(key);
      if existing.Some? {
        if existing.value.fingerprint != fingerprint {
          return ReusedWithDifferentResponse;
        }
        return Replayed(existing.value.fingerprint);
      }
      if Blank(fingerprint) {
        return EmptyFingerprint;
      }
      var stored := idempotency.Record(IdempotencyRecord(key, fingerprint));
      match stored
      case Err(error) => outcome := error;
      case Ok(record) => outcome := Executed(record.fingerprint);
    }
  }

  /** A finished call: its request and how it ended. */
  datatype Entry = Entry(key: IdempotencyKey, fingerprint: string, outcome: Outcome)

  /** The registry after the requests of a log, starting empty. */
  function RegistryAfter(log: seq<Entry>): Registry {
    if log == [] then map[]
    else
      var last := log[|log| - 1];
      Call(RegistryAfter(log[..|log| - 1]), last.key, last.fingerprint).0
  }

  /** The log of calls that ran one after the other. */
  ghost predicate Sequential(log: seq<Entry>) {
    forall i | 0 <= i < |log| ::
      log[i].outcome == Call(RegistryAfter(log[..i]), log[i].key, log[i].fingerprint).1
  }

  /** Records are never changed or dropped by later calls. */
  lemma {:induction false} RecordsPersist(log: seq<Entry>, i: nat, key: IdempotencyKey)
    requires i <= |log| && key in RegistryAfter(log[..i])
    ensures key in RegistryAfter(log) && RegistryAfter(log)[key] == RegistryAfter(log[..i])[key]
    decreases |log|
  {
    if i == |log| {
      assert log[..i] == log;
    } else {
      var init := log[..|log| - 1];
      assert init[..i] == log[..i];
      RecordsPersist(init, i, key);
    }
  }

  /** After a call that returns, its fingerprint is the one on record. */
  lemma ReturningCallsMatchTheRecord(log: seq<Entry>, i: nat)
    requires Sequential(log) && i < |log| && log[i].outcome.Returns()
    ensures log[i].key in RegistryAfter(log[..i + 1])
    ensures RegistryAfter(log[..i + 1])[log[i].key].fingerprint == log[i].outcome.fingerprint == log[i].fingerprint
  {
    assert log[..i + 1][..i] == log[..i];
  }

  /** A call that returned leaves its fingerprint on record for all later calls on its key. */
  lemma SettledFingerprintsStay(log: seq<Entry>, j: nat, i: nat)
    requires Sequential(log) && j < i <= |log| && log[j].outcome.Returns()
    ensures log[j].key in RegistryAfter(log[..i])
    ensures RegistryAfter(log[..i])[log[j].key].fingerprint == log[j].outcome.fingerprint == log[j].fingerprint
  {
    ReturningCallsMatchTheRecord(log, j);
    assert log[..i][..j + 1] == log[..j + 1];
    RecordsPersist(log[..i], j + 1, log[j].key);
  }

  /** One key executes at most once, and every call on it that returns gives the executed fingerprint. */
  lemma ExactlyOnce(log: seq<Entry>)
    requires Sequential(log)
    ensures forall i, j | 0 <= i < j < |log| && log[i].key == log[j].key
                          && log[i].outcome.Returns() && log[j].outcome.Returns() ::
              log[j].outcome == Replayed(log[i].outcome.fingerprint)
  {
    forall i, j | 0 <= i < j < |log| && log[i].key == log[j].key
                  && log[i].outcome.Returns() && log[j].outcome.Returns()
      ensures log[j].outcome == Replayed(log[i].outcome.fingerprint)
    {
      SettledFingerprintsStay(log, i, j);
    }
  }

  /** The first call that returns on a key is the one that executed it. */
  lemma {:induction false} ReplaysFollowAnExecution(log: seq<Entry>, j: nat) returns (i: nat)
    requires Sequential(log) && j < |log| && log[j].outcome.Replayed?
    ensures i < j && log[i].key == log[j].key && log[i].outcome == Executed(log[j].outcome.fingerprint)
  {
    i := WhoRecorded(log, j, log[j].key);
  }

  lemma {:induction false} WhoRecorded(log: seq<Entry>, k: nat, key: IdempotencyKey) returns (i: nat)
    requires Sequential(log) && k <= |log| && key in RegistryAfter(log[..k])
    ensures i < k && log[i].key == key
    ensures log[i].outcome == Executed(RegistryAfter(log[..k])[key].fingerprint)
    decreases k
  {
    assert log[..k][..k - 1] == log[..k - 1];
    if key in RegistryAfter(log[..k - 1]) {
      i := WhoRecorded(log, k - 1, key);
    } else {
      i := k - 1;
    }
  }

  /** A call that raises leaves the registry as it was, and the duplicate-key error is never what it raises. */
  lemma RaisingCallsChangeNothing(log: seq<Entry>, i: nat)
    requires Sequential(log) && i < |log| && !log[i].outcome.Returns()
    ensures RegistryAfter(log[..i + 1]) == RegistryAfter(log[..i])
    ensures log[i].outcome != DuplicateKey
    ensures log[i].outcome == ReusedWithDifferentResponse ==> log[i].key in RegistryAfter(log[..i])
  {
    assert log[..i + 1][..i] == log[..i];
  }

  /** Some earlier call on the key returned. */
  predicate Settled(log: seq<Entry>, i: nat, key: IdempotencyKey)
    requires i <= |log|
  {
    exists j :: 0 <= j < i && log[j].key == key && log[j].outcome.Returns()
  }

  lemma RecordedKeysAreSettled(log: seq<Entry>, i: nat, key: IdempotencyKey)
    requires Sequential(log) && i <= |log| && key in RegistryAfter(log[..i])
    ensures Settled(log, i, key)
  {
    var j := WhoRecorded(log, i, key);
    assert log[j].key == key && log[j].outcome.Returns();
  }

  /**
   * How a call ends follows from the calls before it: the first one on a key executes unless its fingerprint is
   * blank, and a later one replays the settled fingerprint or is refused for carrying another.
   */
  lemma OutcomesFollowFromTheEarlierCalls(log: seq<Entry>, i: nat)
    requires Sequential(log) && i < |log|
    ensures !Settled(log, i, log[i].key) ==>
              log[i].outcome == if Blank(log[i].fingerprint) then EmptyFingerprint else Executed(log[i].fingerprint)
    ensures forall j | 0 <= j < i && log[j].key == log[i].key && log[j].outcome.Returns() ::
              log[i].outcome == if log[j].fingerprint == log[i].fingerprint then Replayed(log[j].fingerprint)
                                else ReusedWithDifferentResponse
  {
    if log[i].key in RegistryAfter(log[..i]) {
      RecordedKeysAreSettled(log, i, log[i].key);
    }
    forall j | 0 <= j < i && log[j].key == log[i].key && log[j].outcome.Returns()
      ensures log[i].outcome == if log[j].fingerprint == log[i].fingerprint then Replayed(log[j].fingerprint)
                                else ReusedWithDifferentResponse
    {
      SettledFingerprintsStay(log, j, i);
    }
  }
}
