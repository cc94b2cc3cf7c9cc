/** The pay-once protocol: any number of requests, each checking, settling and recording one payment, with
every step of every request interleaved in any order and every outside call free to fail. */
module PayOnce {
  import opened Words
  import opened Bytes
  import opened Options
  import opened Hex

  datatype Domain = Domain(separator: string, chainId: u256, asset: Address)

  datatype Authorization = Authorization(from: Address, to: Address, value: u256, nonce: Bytes32)

  /** What one priced request is about: the domain its process is configured with, its payment, the resource's price
      and the wallet to be paid. */
  datatype Job = Job(domain: Domain, auth: Authorization, price: u256, wallet: Address)

  /** Where a request is. `Unwinding` still holds the lock; `Granted` holds the facilitator's response. */
  datatype Phase =
    | Arrived | Validated | Locked | Checked | Calling | Answered | Unwinding(granted: bool)
    | Granted | Fetched | Refused

  datatype Proc = Proc(job: Job, phase: Phase)

  datatype RowKey = RowKey(from: Address, chainId: u256, asset: Address, nonce: Bytes32)

  /** A row of the payments table. `writer` says which request inserted it; rows of earlier runs have none. */
  datatype Row = Row(key: RowKey, to: Address, value: u256, writer: Option<nat>)

  /** One process: the domain of its configured network, its requests, its locks, and its table. */
  datatype State = State(domain: Domain, procs: map<nat, Proc>, locks: set<string>, rows: seq<Row>, fetches: seq<nat>,
                         checkFailed: bool)

  function LockKey(j: Job): string {
    UniquePaymentKey(j.domain.separator, j.auth.from, j.auth.nonce)
  }

  function KeyOf(j: Job): RowKey {
    RowKey(j.auth.from, j.domain.chainId, j.domain.asset, j.auth.nonce)
  }

  predicate Exists(rows: seq<Row>, k: RowKey) {
    exists i | 0 <= i < |rows| :: rows[i].key == k
  }

  /** INSERT under the unique index: refused for a key that is there. */
  function Inserted(rows: seq<Row>, j: Job, id: nat): seq<Row> {
    if Exists(rows, KeyOf(j)) then rows else rows + [Row(KeyOf(j), j.auth.to, j.auth.value, Some(id))]
  }

  /** The check of recipient and value; signature and time window are left to chance. */
  predicate Valid(j: Job) {
    j.auth.to == j.wallet && j.auth.value == j.price
  }

  datatype Event =
    | Arrive(id: nat, job: Job)
    | Validate(id: nat)
    | Reject(id: nat)
    | TryLock(id: nat)
    | Check(id: nat)
    | StartCall(id: nat)
    | CallReturns(id: nat)
    | Record(id: nat)
      /** The insert reports failure; the row may have been written all the same. */
    | RecordThrows(id: nat, written: bool)
      /** Any other exception or error between lock and record. */
    | Throw(id: nat)
    | Unlock(id: nat)
    | Fetch(id: nat)

  predicate At(s: State, id: nat, phase: Phase) {
    id in s.procs && s.procs[id].phase == phase
  }

  predicate Enabled(s: State, e: Event) {
    match e
    case Arrive(id, job) => id !in s.procs && job.domain == s.domain
    case Validate(id) => At(s, id, Arrived) && Valid(s.procs[id].job)
    case Reject(id) => At(s, id, Arrived)
    case TryLock(id) => At(s, id, Validated)
    case Check(id) => At(s, id, Locked)
    case StartCall(id) => At(s, id, Checked)
    case CallReturns(id) => At(s, id, Calling)
    case Record(id) => At(s, id, Answered)
    case RecordThrows(id, _) => At(s, id, Answered)
    case Throw(id) => At(s, id, Locked) || At(s, id, Checked) || At(s, id, Calling) || At(s, id, Answered)
    case Unlock(id) => id in s.procs && s.procs[id].phase.Unwinding?
    case Fetch(id) => At(s, id, Granted)
  }

  function Moved(s: State, id: nat, phase: Phase): State
    requires id in s.procs
  {
    s.(procs := s.procs[id := Proc(s.procs[id].job, phase)])
  }

  function Apply(s: State, e: Event): State
    requires Enabled(s, e)
  {
    match e
    case Arrive(id, job) => s.(procs := s.procs[id := Proc(job, Arrived)])
    case Validate(id) => Moved(s, id, Validated)
    case Reject(id) => Moved(s, id, Refused)
    case TryLock(id) =>
      var key := LockKey(s.procs[id].job);
      if key in s.locks then Moved(s, id, Refused)
      else Moved(s.(locks := s.locks + {key}), id, Locked)
    case Check(id) =>
      if Exists(s.rows, KeyOf(s.procs[id].job)) then Moved(s, id, Unwinding(false)) else Moved(s, id, Checked)
    case StartCall(id) => Moved(s, id, Calling)
    case CallReturns(id) => Moved(s, id, Answered)
    case Record(id) =>
      var j := s.procs[id].job;
      if Exists(s.rows, KeyOf(j)) then Moved(s, id, Unwinding(false))
      else Moved(s.(rows := Inserted(s.rows, j, id)), id, Unwinding(true))
    case RecordThrows(id, written) =>
      var rows := if written then Inserted(s.rows, s.procs[id].job, id) else s.rows;
      Moved(s.(rows := rows), id, Unwinding(false))
    case Throw(id) => Moved(s, id, Unwinding(false))
    case Unlock(id) =>
      var key := LockKey(s.procs[id].job);
      Moved(s.(locks := s.locks - {key}, checkFailed := s.checkFailed || key !in s.locks), id,
            if s.procs[id].phase.granted then Granted else Refused)
    case Fetch(id) => Moved(s.(fetches := s.fetches + [id]), id, Fetched)
  }

  // Runs.

  predicate UniqueKeys(rows: seq<Row>) {
    forall i, j | 0 <= i < j < |rows| :: rows[i].key != rows[j].key
  }

  /** Nothing in flight, and a table left by earlier processes. */
  predicate Initial(s: State) {
    && s.procs == map[] && s.locks == {} && s.fetches == [] && !s.checkFailed
    && UniqueKeys(s.rows)
    && forall i | 0 <= i < |s.rows| :: s.rows[i].writer.None?
  }

  /** Every event of the run is enabled where it happens. */
  predicate IsRun(s: State, events: seq<Event>)
    decreases |events|
  {
    events == [] || (Enabled(s, events[0]) && IsRun(Apply(s, events[0]), events[1..]))
  }

  function After(s: State, events: seq<Event>): State
    requires IsRun(s, events)
    decreases |events|
  {
    if events == [] then s else After(Apply(s, events[0]), events[1..])
  }

  // The invariant.

  /** Between taking the lock and giving it back. */
  predicate Holds(p: Phase) {
    p.Locked? || p.Checked? || p.Calling? || p.Answered? || p.Unwinding?
  }

  ghost predicate LocksOk(s: State) {
    && !s.checkFailed
    && (forall id | id in s.procs && Holds(s.procs[id].phase) :: LockKey(s.procs[id].job) in s.locks)
    && (forall k | k in s.locks :: Held(s, k))
    && (forall a, b | a in s.procs && b in s.procs && a != b && Holds(s.procs[a].phase) && Holds(s.procs[b].phase) ::
          LockKey(s.procs[a].job) != LockKey(s.procs[b].job))
  }

  /** A row says what its writer's payment says, and its writer is past the point of writing. */
  predicate RowOk(s: State, r: Row) {
    r.writer.Some? ==>
      && r.writer.value in s.procs
      && var p := s.procs[r.writer.value];
         r == Row(KeyOf(p.job), p.job.auth.to, p.job.auth.value, r.writer) && Valid(p.job)
         && (p.phase.Unwinding? || p.phase.Granted? || p.phase.Fetched? || p.phase.Refused?)
  }

  predicate RowsOk(s: State) {
    UniqueKeys(s.rows) && forall i | 0 <= i < |s.rows| :: RowOk(s, s.rows[i])
  }

  predicate Paid(p: Phase) { p == Unwinding(true) || p.Granted? || p.Fetched? }

  predicate HasRow(s: State, id: nat)
    requires id in s.procs
  {
    var j := s.procs[id].job;
    exists i | 0 <= i < |s.rows| :: s.rows[i] == Row(KeyOf(j), j.auth.to, j.auth.value, Some(id))
  }

  /** A request that has checked the table and may still call or write. */
  predicate Fresh(p: Phase) { p.Checked? || p.Calling? || p.Answered? }

  predicate ProcOk(s: State, id: nat)
    requires id in s.procs
  {
    var p := s.procs[id];
    && p.job.domain == s.domain
    && (!p.phase.Arrived? && !p.phase.Refused? ==> Valid(p.job))
    && (Paid(p.phase) ==> HasRow(s, id))
    && (Fresh(p.phase) ==> NotRecorded(s.rows, p.job))
  }

  predicate NotRecorded(rows: seq<Row>, j: Job) {
    forall i | 0 <= i < |rows| :: rows[i].key != KeyOf(j)
  }

  predicate ProcsOk(s: State) {
    forall id | id in s.procs :: ProcOk(s, id)
  }

  predicate FetchesOk(s: State) {
    && (forall i, j | 0 <= i < j < |s.fetches| :: s.fetches[i] != s.fetches[j])
    && (forall i | 0 <= i < |s.fetches| :: At(s, s.fetches[i], Fetched))
  }

  ghost predicate Inv(s: State) {
    LocksOk(s) && RowsOk(s) && ProcsOk(s) && FetchesOk(s)
  }

  lemma InitialOk(s: State)
    requires Initial(s)
    ensures Inv(s)
  {
  }

  function Subject(e: Event): nat { e.id }

  /** Only the subject of an event moves, and no request ever changes its job. */
  lemma OnlySubjectMoves(s: State, e: Event, id: nat)
    requires Enabled(s, e)
    ensures Apply(s, e).domain == s.domain
    ensures id in s.procs ==> id in Apply(s, e).procs && Apply(s, e).procs[id].job == s.procs[id].job
    ensures id != Subject(e) ==> (id in s.procs <==> id in Apply(s, e).procs)
    ensures id != Subject(e) && id in s.procs ==> Apply(s, e).procs[id] == s.procs[id]
    ensures Subject(e) in Apply(s, e).procs
    ensures e.Arrive? <==> Subject(e) !in s.procs
  {
  }

  /** Some request holds key k. */
  ghost predicate Held(s: State, k: string) {
    exists id :: id in s.procs && Holds(s.procs[id].phase) && LockKey(s.procs[id].job) == k
  }

  /** What one step does to the lock set: nothing, or its subject's key comes or goes with the subject's hold. */
  lemma LocksMove(s: State, e: Event)
    requires Enabled(s, e)
    ensures var (s', id) := (Apply(s, e), e.id);
            && id in s'.procs
            && (e.Arrive? ==> !Holds(s'.procs[id].phase))
            && (if e.TryLock? && LockKey(s.procs[id].job) !in s.locks
                then s'.locks == s.locks + {LockKey(s.procs[id].job)} && Holds(s'.procs[id].phase)
                else if e.Unlock? then s'.locks == s.locks - {LockKey(s.procs[id].job)} && !Holds(s'.procs[id].phase)
                else s'.locks == s.locks && (id in s.procs ==> (Holds(s'.procs[id].phase) <==> Holds(s.procs[id].phase))))
            && (e.Unlock? ==> Holds(s.procs[id].phase))
            && (s'.checkFailed ==> s.checkFailed || (e.Unlock? && LockKey(s.procs[id].job) !in s.locks))
  {
    hide LockKey, KeyOf, Valid, Inserted, Exists;
  }

  lemma LocksStep(s: State, e: Event)
    requires LocksOk(s) && Enabled(s, e)
    ensures LocksOk(Apply(s, e))
  {
    hide Apply, Enabled, LockKey, Holds;
    var (s', id) := (Apply(s, e), e.id);
    LocksMove(s, e);
    OnlySubjectMoves(s, e, id);
    forall a | a in s'.procs && a != id
      ensures a in s.procs && s'.procs[a] == s.procs[a]
    {
      OnlySubjectMoves(s, e, a);
    }
    forall k | k in s'.locks
      ensures Held(s', k)
    {
      if k in s.locks {
        var a :| a in s.procs && Holds(s.procs[a].phase) && LockKey(s.procs[a].job) == k;
        OnlySubjectMoves(s, e, a);
        assert a in s'.procs && Holds(s'.procs[a].phase) && LockKey(s'.procs[a].job) == k;
      } else {
        assert id in s'.procs && Holds(s'.procs[id].phase) && LockKey(s'.procs[id].job) == k;
      }
    }
  }

  /** The rows only ever grow, and only by the subject of a recording event. */
  lemma RowsGrow(s: State, e: Event)
    requires Enabled(s, e)
    ensures var s' := Apply(s, e);
            s'.rows == s.rows
            || ((e.Record? || e.RecordThrows?) && s'.rows == s.rows + [Row(KeyOf(s.procs[e.id].job), s.procs[e.id].job.auth.to,
                                                                          s.procs[e.id].job.auth.value, Some(e.id))]
                && !Exists(s.rows, KeyOf(s.procs[e.id].job)) && s.procs[e.id].phase == Answered
                && s'.procs[e.id].phase.Unwinding?)
  {
    hide LockKey;
  }

  lemma RowsStep(s: State, e: Event)
    requires RowsOk(s) && ProcsOk(s) && Enabled(s, e)
    ensures RowsOk(Apply(s, e))
  {
    hide LockKey, KeyOf, Inserted, Apply, Enabled, HasRow, NotRecorded;
    RowsGrow(s, e);
    var s' := Apply(s, e);
    forall i | 0 <= i < |s'.rows|
      ensures RowOk(s', s'.rows[i])
    {
      if i < |s.rows| {
        assert s'.rows[i] == s.rows[i];
        RowStays(s, e, s.rows[i]);
      } else {
        OnlySubjectMoves(s, e, e.id);
      }
    }
    forall i, j | 0 <= i < j < |s'.rows|
      ensures s'.rows[i].key != s'.rows[j].key
    {
      assert s'.rows[i] == s.rows[i];
    }
  }

  lemma RowStays(s: State, e: Event, r: Row)
    requires RowOk(s, r) && Enabled(s, e)
    ensures RowOk(Apply(s, e), r)
  {
    hide LockKey, KeyOf, Inserted, Exists;
    if r.writer.Some? {
      OnlySubjectMoves(s, e, r.writer.value);
    }
  }

  /** In one domain a payment has one lock key. */
  lemma SameKeySameLock(a: Job, b: Job)
    requires a.domain == b.domain && KeyOf(a) == KeyOf(b)
    ensures LockKey(a) == LockKey(b)
  {
  }

  /** Requests other than the subject keep their promises; a row written meanwhile is not theirs. */
  lemma OthersStep(s: State, e: Event, id: nat)
    requires LocksOk(s) && ProcOkIfKnown(s, id) && ProcOkIfKnown(s, e.id) && Enabled(s, e)
    requires id != Subject(e)
    ensures ProcOkIfKnown(Apply(s, e), id)
  {
    hide LockKey, KeyOf, Inserted, Apply, Enabled, Valid, Exists;
    OnlySubjectMoves(s, e, id);
    OnlySubjectMoves(s, e, e.id);
    RowsGrow(s, e);
    var s' := Apply(s, e);
    if id in s.procs {
      var p := s.procs[id];
      if Paid(p.phase) {
        var i :| 0 <= i < |s.rows| && s.rows[i] == Row(KeyOf(p.job), p.job.auth.to, p.job.auth.value, Some(id));
        assert s'.rows[i] == s.rows[i];
      }
      if s'.rows != s.rows && Fresh(p.phase) && KeyOf(s.procs[e.id].job) == KeyOf(p.job) {
        SameKeySameLock(s.procs[e.id].job, p.job);
        assert false;
      }
    }
  }

  predicate ProcOkIfKnown(s: State, id: nat) {
    id in s.procs ==> ProcOk(s, id)
  }

  lemma SubjectStep(s: State, e: Event)
    requires ProcOkIfKnown(s, e.id) && Enabled(s, e)
    ensures ProcOkIfKnown(Apply(s, e), e.id)
  {
    hide LockKey, KeyOf;
    var s' := Apply(s, e);
    if e.Record? && s'.rows != s.rows {
      assert s'.rows[|s.rows|].writer == Some(e.id);
    }
  }

  lemma FetchesStep(s: State, e: Event)
    requires FetchesOk(s) && Enabled(s, e)
    ensures FetchesOk(Apply(s, e))
  {
    hide LockKey, KeyOf, Inserted, Exists;
    var s' := Apply(s, e);
    forall i | 0 <= i < |s'.fetches|
      ensures At(s', s'.fetches[i], Fetched)
    {
      if i < |s.fetches| {
        assert At(s, s.fetches[i], Fetched);
      }
    }
  }

  lemma StepKeeps(s: State, e: Event)
    requires Inv(s) && Enabled(s, e)
    ensures Inv(Apply(s, e))
  {
    hide Apply, Enabled, RowsOk, FetchesOk, LocksOk, ProcOk;
    LocksStep(s, e);
    RowsStep(s, e);
    FetchesStep(s, e);
    forall id | id in Apply(s, e).procs
      ensures ProcOk(Apply(s, e), id)
    {
      if id == Subject(e) {
        SubjectStep(s, e);
      } else {
        OnlySubjectMoves(s, e, id);
        OthersStep(s, e, id);
      }
    }
  }

  lemma {:induction false} RunKeeps(s: State, events: seq<Event>)
    requires Inv(s) && IsRun(s, events)
    ensures Inv(After(s, events))
    decreases |events|
  {
    hide Apply, Inv, Enabled;
    if events != [] {
      StepKeeps(s, events[0]);
      RunKeeps(Apply(s, events[0]), events[1..]);
    }
  }
}
