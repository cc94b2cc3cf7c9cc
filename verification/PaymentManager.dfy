/** The payments table and the settlement of one payment, as the code runs them between the outside calls.
Every method is proved to do what a function of the old state says, and an uninterrupted settlement is proved to
be a run of the protocol in `PayOnce`. */
module PaymentManagement {
  import opened Words
  import opened Bytes
  import opened Options
  import opened Hex
  import opened PayOnce

  // The table stores text.

  datatype Stored = Stored(from: string, to: string, chainId: u256, asset: string, nonce: string, value: u256)

  function ToDbString(bytes: seq<byte>): string {
    ToHex(bytes, false)
  }

  /** The row that is written for a payment record. */
  function Store(r: Row): Stored {
    Stored(ToDbString(r.key.from), ToDbString(r.to), r.key.chainId, ToDbString(r.key.asset), ToDbString(r.key.nonce), r.value)
  }

  /** The lookup compares text with text. */
  predicate Matches(t: Stored, k: RowKey) {
    && t.from == ToHex(k.from, false) && t.nonce == ToHex(k.nonce, false)
    && t.asset == ToHex(k.asset, false) && t.chainId == k.chainId
  }

  ghost predicate Stores(table: seq<Stored>, rows: seq<Row>) {
    |table| == |rows| && forall i | 0 <= i < |rows| :: table[i] == Store(rows[i])
  }

  /** Text and key agree: a stored row matches a payment exactly when it is that payment's row. */
  lemma MatchesIffSameKey(r: Row, k: RowKey)
    ensures Matches(Store(r), k) <==> r.key == k
  {
    hide HexOf;
    if Matches(Store(r), k) {
      HexIsInjective(r.key.from, k.from);
      HexIsInjective(r.key.nonce, k.nonce);
      HexIsInjective(r.key.asset, k.asset);
    }
  }

  predicate Found(table: seq<Stored>, k: RowKey) {
    exists i | 0 <= i < |table| :: Matches(table[i], k)
  }

  lemma FoundIffExists(table: seq<Stored>, rows: seq<Row>, k: RowKey)
    requires Stores(table, rows)
    ensures Found(table, k) <==> Exists(rows, k)
  {
    hide Matches, Store;
    forall i | 0 <= i < |rows|
      ensures Matches(table[i], k) <==> rows[i].key == k
    {
      MatchesIffSameKey(rows[i], k);
    }
    if Exists(rows, k) {
      var i :| 0 <= i < |rows| && rows[i].key == k;
      assert Matches(table[i], k);
    }
  }

  /** What an INSERT does when the database is asked to perform it: it is done, it fails, or it is done and the
      connection fails before the answer arrives. */
  datatype Insert = Done | Fails | DoneButFails

  function RowOf(j: Job, id: nat): Row {
    Row(KeyOf(j), j.auth.to, j.auth.value, Some(id))
  }

  class MachinePalDb {
    var payments: seq<Stored>
    ghost var rows: seq<Row>

    ghost predicate Valid()
      reads this
    {
      Stores(payments, rows)
    }

    constructor ()
      ensures Valid() && rows == []
    {
      payments := [];
      rows := [];
    }

    /** Refuses a second row for one payment, as the unique index does. */
    method SaveSettledPayment(j: Job, ghost id: nat, insert: Insert) returns (saved: bool)
      requires Valid()
      modifies this
      ensures Valid()
      ensures saved <==> insert.Done? && !Exists(old(rows), KeyOf(j))
      ensures rows == if insert.Fails? then old(rows) else Inserted(old(rows), j, id)
      ensures saved ==> Exists(rows, KeyOf(j))
    {
      hide Matches;
      FoundIffExists(payments, rows, KeyOf(j));
      if insert.Fails? || Found(payments, KeyOf(j)) {
        return false;
      }
      payments := payments + [Stored(ToDbString(j.auth.from), ToDbString(j.auth.to), j.domain.chainId, ToDbString(j.domain.asset),
                                    ToDbString(j.auth.nonce), j.auth.value)];
      rows := rows + [RowOf(j, id)];
      assert rows[|rows| - 1].key == KeyOf(j);
      return insert.Done?;
    }

    method SettledPaymentExists(j: Job) returns (found: bool)
      requires Valid()
      ensures found <==> Exists(rows, KeyOf(j))
    {
      FoundIffExists(payments, rows, KeyOf(j));
      found := exists i | 0 <= i < |payments| :: Matches(payments[i], KeyOf(j));
    }
  }

  // One settlement.

  datatype Header = NotBase64 | NotJson | Unparsable | Readable

  datatype Answer = Responds(hashReadable: bool) | Declines(internal: bool) | Breaks

  /** Everything outside that one settlement meets: the header; what the checks of version, schemes, network, clock
      and signature say; whether an exception comes between these steps; and the database and the facilitator. */
  datatype World = World(header: Header, throwsBefore: bool, versionOk: bool, schemeSupported: bool, schemeMatches: bool,
                         networkMatches: bool, inTime: bool, signed: bool, throwsAfter: bool,
                         checkThrows: bool, requirementsThrow: bool, answer: Answer, insert: Insert)

  datatype Reason = WrongVersion | WrongScheme | WrongNetwork | WrongRecipient | WrongValue | OutOfTime | BadSignature

  datatype Outcome =
    | Settled | BadHeader | HeaderError | EarlyError | Rejected(reason: Reason)
    | BeingSettled | AlreadySpent | Declined(internal: bool) | InternalError

  /** The outcomes that are answered as server errors; the other refusals ask for payment again. */
  predicate IsInternal(o: Outcome) {
    o.HeaderError? || o.EarlyError? || o.InternalError? || (o.Declined? && o.internal)
  }

  /** What stops a payment before the lock, if anything does. */
  function Refusal(j: Job, w: World): Option<Outcome> {
    if w.header.NotBase64? || w.header.NotJson? then Some(BadHeader)
    else if w.header.Unparsable? then Some(HeaderError)
    else if w.throwsBefore then Some(EarlyError)
    else if !w.versionOk then Some(Rejected(WrongVersion))
    else if !w.schemeSupported || !w.schemeMatches then Some(Rejected(WrongScheme))
    else if !w.networkMatches then Some(Rejected(WrongNetwork))
    else if j.auth.to != j.wallet then Some(Rejected(WrongRecipient))
    else if j.auth.value != j.price then Some(Rejected(WrongValue))
    else if !w.inTime then Some(Rejected(OutOfTime))
    else if !w.signed then Some(Rejected(BadSignature))
    else if w.throwsAfter then Some(EarlyError)
    else None
  }

  /** The settlement of a locked payment; `None` when it throws. */
  function SettleLocked(rows: seq<Row>, j: Job, id: nat, w: World): (seq<Row>, Option<Outcome>) {
    if w.checkThrows || w.requirementsThrow then (rows, None)
    else if Exists(rows, KeyOf(j)) then (rows, Some(AlreadySpent))
    else if w.answer.Declines? then (rows, Some(Declined(w.answer.internal)))
    else if w.answer.Breaks? || !w.answer.hashReadable || w.insert.Fails? then (rows, None)
    else (rows + [RowOf(j, id)], if w.insert.Done? then Some(Settled) else None)
  }

  function Settle(locks: set<string>, rows: seq<Row>, j: Job, id: nat, w: World): (seq<Row>, Outcome) {
    if Refusal(j, w).Some? then (rows, Refusal(j, w).value)
    else if LockKey(j) in locks then (rows, BeingSettled)
    else
      var (rows', outcome) := SettleLocked(rows, j, id, w);
      (rows', if outcome.Some? then outcome.value else InternalError)
  }

  /** Once a payment is settled, no later settlement of it is, whatever it meets and whatever was recorded since. */
  lemma SettledOnce(locks: set<string>, rows: seq<Row>, j: Job, id: nat, w: World,
                    locks': set<string>, later: seq<Row>, j': Job, id': nat, w': World)
    requires Settle(locks, rows, j, id, w).1 == Settled
    requires Settle(locks, rows, j, id, w).0 <= later && KeyOf(j') == KeyOf(j)
    ensures Settle(locks', later, j', id', w').1 != Settled
    ensures Settle(locks', later, j', id', w').0 == later
  {
    hide LockKey, KeyOf;
    assert later[|rows|] == RowOf(j, id);
    assert Exists(later, KeyOf(j'));
  }

  class PaymentManager {
    const db: MachinePalDb
    var currentlySettling: set<string>

    constructor (db: MachinePalDb)
      ensures this.db == db && currentlySettling == {}
    {
      this.db := db;
      currentlySettling := {};
    }

    method LockPaymentAsBeingSettled(j: Job) returns (locked: bool)
      modifies this
      ensures locked <==> LockKey(j) !in old(currentlySettling)
      ensures currentlySettling == old(currentlySettling) + {LockKey(j)}
    {
      locked := LockKey(j) !in currentlySettling;
      currentlySettling := currentlySettling + {LockKey(j)};
    }

    /** Says whether the check that exactly one key was erased holds. */
    method UnlockPaymentAsBeingSettled(j: Job) returns (erased: bool)
      modifies this
      ensures erased <==> LockKey(j) in old(currentlySettling)
      ensures currentlySettling == old(currentlySettling) - {LockKey(j)}
    {
      erased := LockKey(j) in currentlySettling;
      currentlySettling := currentlySettling - {LockKey(j)};
    }

    method CheckPaymentIsNewAndSettleItUnsafe(j: Job, ghost id: nat, w: World) returns (outcome: Option<Outcome>)
      requires db.Valid()
      modifies db
      ensures db.Valid()
      ensures (db.rows, outcome) == SettleLocked(old(db.rows), j, id, w)
    {
      if w.checkThrows {
        return None;
      }
      var spent := db.SettledPaymentExists(j);
      if w.requirementsThrow {
        return None;
      }
      if spent {
        return Some(AlreadySpent);
      }
      match w.answer
      case Breaks => return None;
      case Declines(internal) => return Some(Declined(internal));
      case Responds(hashReadable) =>
        if !hashReadable {
          return None;
        }
        var saved := db.SaveSettledPayment(j, id, w.insert);
        return if saved then Some(Settled) else None;
    }

    /** The lock is given back on every way out, and the erase check holds. */
    method CheckPaymentIsNewAndSettleIt(j: Job, ghost id: nat, w: World) returns (outcome: Outcome)
      requires db.Valid() && Refusal(j, w).None?
      modifies this, db
      ensures db.Valid()
      ensures (db.rows, outcome) == Settle(old(currentlySettling), old(db.rows), j, id, w)
      ensures currentlySettling == old(currentlySettling)
    {
      hide LockKey, KeyOf, Exists;
      var locked := LockPaymentAsBeingSettled(j);
      if !locked {
        return BeingSettled;
      }
      var result := CheckPaymentIsNewAndSettleItUnsafe(j, id, w);
      var erased := UnlockPaymentAsBeingSettled(j);
      assert erased;
      return if result.Some? then result.value else InternalError;
    }

    method ValidateAndVerifySignature(j: Job, w: World) returns (error: Option<Reason>)
      ensures w.header.Readable? && !w.throwsBefore ==>
                Refusal(j, w) == match error
                                 case None => if w.throwsAfter then Some(EarlyError) else None
                                 case Some(reason) => Some(Rejected(reason))
      ensures error.None? ==> Valid(j)
    {
      if !w.versionOk {
        return Some(WrongVersion);
      }
      if !w.schemeSupported {
        return Some(WrongScheme);
      }
      if !w.schemeMatches {
        return Some(WrongScheme);
      }
      if !w.networkMatches {
        return Some(WrongNetwork);
      }
      if j.auth.to != j.wallet {
        return Some(WrongRecipient);
      }
      if j.auth.value != j.price {
        return Some(WrongValue);
      }
      if !w.inTime {
        return Some(OutOfTime);
      }
      if !w.signed {
        return Some(BadSignature);
      }
      return None;
    }

    method DecodePreValidateAndSettleWithFacilitator(j: Job, ghost id: nat, w: World) returns (outcome: Outcome)
      requires db.Valid()
      modifies this, db
      ensures db.Valid()
      ensures (db.rows, outcome) == Settle(old(currentlySettling), old(db.rows), j, id, w)
      ensures currentlySettling == old(currentlySettling)
    {
      match w.header {
        case NotBase64 => return BadHeader;
        case NotJson => return BadHeader;
        case Unparsable => return HeaderError;
        case Readable =>
      }
      if w.throwsBefore {
        return EarlyError;
      }
      var error := ValidateAndVerifySignature(j, w);
      if error.Some? {
        return Rejected(error.value);
      }
      if w.throwsAfter {
        return EarlyError;
      }
      outcome := CheckPaymentIsNewAndSettleIt(j, id, w);
    }
  }

  // An uninterrupted settlement is a run of the protocol.

  function AnsweredSteps(id: nat, w: World): seq<Event> {
    match w.answer
    case Responds(hashReadable) =>
      [CallReturns(id)] + (if !hashReadable then [Throw(id)]
                           else if w.insert.Done? then [Record(id)]
                           else [RecordThrows(id, w.insert.DoneButFails?)])
    case _ => [Throw(id)]
  }

  function LockedSteps(id: nat, w: World, spent: bool): seq<Event> {
    if w.checkThrows then [Throw(id)]
    else
      [Check(id)] + (if spent then []
                     else if w.requirementsThrow then [Throw(id)]
                     else [StartCall(id)] + AnsweredSteps(id, w))
  }

  function Steps(s: State, j: Job, id: nat, w: World): seq<Event> {
    [Arrive(id, j)] +
    (if Refusal(j, w).Some? then [Reject(id)]
     else
       [Validate(id), TryLock(id)] +
       (if LockKey(j) in s.locks then [] else LockedSteps(id, w, Exists(s.rows, KeyOf(j))) + [Unlock(id)]))
  }

  ghost predicate Leads(s: State, events: seq<Event>, s': State) {
    IsRun(s, events) && After(s, events) == s'
  }

  lemma Single(s: State, e: Event)
    requires Enabled(s, e)
    ensures Leads(s, [e], Apply(s, e))
  {
    hide Enabled, Apply;
    assert [e][1..] == [];
    assert IsRun(Apply(s, e), []) && After(Apply(s, e), []) == Apply(s, e);
    assert IsRun(s, [e]) && After(s, [e]) == After(Apply(s, e), [e][1..]);
  }

  lemma {:induction false} Then(s: State, a: seq<Event>, s': State, b: seq<Event>, s'': State)
    requires Leads(s, a, s') && Leads(s', b, s'')
    ensures Leads(s, a + b, s'')
    decreases |a|
  {
    hide Enabled, Apply;
    if a == [] {
      assert a + b == b;
    } else {
      assert (a + b)[1..] == a[1..] + b;
      Then(Apply(s, a[0]), a[1..], s', b, s'');
    }
  }

  function Placed(s: State, j: Job, id: nat, phase: Phase, locks: set<string>, rows: seq<Row>): State {
    s.(procs := s.procs[id := Proc(j, phase)], locks := locks, rows := rows)
  }

  /** One step of a request that alone moves. */
  lemma StepTo(s: State, j: Job, id: nat, phase: Phase, locks: set<string>, rows: seq<Row>, e: Event)
    requires Enabled(Placed(s, j, id, phase, locks, rows), e) && e.id == id && !e.Fetch?
    requires e.Unlock? ==> LockKey(j) in locks
    ensures var s' := Apply(Placed(s, j, id, phase, locks, rows), e);
            && id in s'.procs
            && s' == Placed(s, j, id, s'.procs[id].phase, s'.locks, s'.rows)
            && Leads(Placed(s, j, id, phase, locks, rows), [e], s')
  {
    hide LockKey, KeyOf, Exists, Leads;
    Single(Placed(s, j, id, phase, locks, rows), e);
  }

  lemma AnsweredRun(s: State, j: Job, id: nat, w: World, locks: set<string>)
    requires !w.checkThrows && !w.requirementsThrow && !Exists(s.rows, KeyOf(j))
    ensures var (rows, outcome) := SettleLocked(s.rows, j, id, w);
            Leads(Placed(s, j, id, Calling, locks, s.rows), AnsweredSteps(id, w),
                  Placed(s, j, id, Unwinding(outcome == Some(Settled)), locks, rows))
  {
    hide LockKey, KeyOf, Exists, Leads;
    var here := Placed(s, j, id, Calling, locks, s.rows);
    if w.answer.Responds? {
      StepTo(s, j, id, Calling, locks, s.rows, CallReturns(id));
      var there := Placed(s, j, id, Answered, locks, s.rows);
      var last := if !w.answer.hashReadable then Throw(id) else if w.insert.Done? then Record(id) else RecordThrows(id, w.insert.DoneButFails?);
      StepTo(s, j, id, Answered, locks, s.rows, last);
      Then(here, [CallReturns(id)], there, [last], Apply(there, last));
    } else {
      StepTo(s, j, id, Calling, locks, s.rows, Throw(id));
    }
  }

  lemma LockedRun(s: State, j: Job, id: nat, w: World, locks: set<string>)
    ensures var (rows, outcome) := SettleLocked(s.rows, j, id, w);
            Leads(Placed(s, j, id, Locked, locks, s.rows), LockedSteps(id, w, Exists(s.rows, KeyOf(j))),
                  Placed(s, j, id, Unwinding(outcome == Some(Settled)), locks, rows))
  {
    hide LockKey, KeyOf, Exists, Leads, AnsweredSteps;
    var here := Placed(s, j, id, Locked, locks, s.rows);
    if w.checkThrows {
      StepTo(s, j, id, Locked, locks, s.rows, Throw(id));
    } else {
      StepTo(s, j, id, Locked, locks, s.rows, Check(id));
      var there := Placed(s, j, id, Checked, locks, s.rows);
      if Exists(s.rows, KeyOf(j)) {
        assert [Check(id)] + [] == [Check(id)];
      } else if w.requirementsThrow {
        StepTo(s, j, id, Checked, locks, s.rows, Throw(id));
        Then(here, [Check(id)], there, [Throw(id)], Apply(there, Throw(id)));
      } else {
        StepTo(s, j, id, Checked, locks, s.rows, StartCall(id));
        var calling := Placed(s, j, id, Calling, locks, s.rows);
        AnsweredRun(s, j, id, w, locks);
        var (rows, outcome) := SettleLocked(s.rows, j, id, w);
        var end := Placed(s, j, id, Unwinding(outcome == Some(Settled)), locks, rows);
        Then(there, [StartCall(id)], calling, AnsweredSteps(id, w), end);
        Then(here, [Check(id)], there, [StartCall(id)] + AnsweredSteps(id, w), end);
      }
    }
  }

  lemma UnlockedRun(s: State, j: Job, id: nat, w: World)
    requires Refusal(j, w).None? && LockKey(j) !in s.locks
    ensures var (rows, outcome) := Settle(s.locks, s.rows, j, id, w);
            Leads(Placed(s, j, id, Locked, s.locks + {LockKey(j)}, s.rows),
                  LockedSteps(id, w, Exists(s.rows, KeyOf(j))) + [Unlock(id)],
                  Placed(s, j, id, if outcome.Settled? then Granted else Refused, s.locks, rows))
  {
    hide LockKey, KeyOf, Exists, Valid, Leads, LockedSteps, Refusal;
    var locks := s.locks + {LockKey(j)};
    LockedRun(s, j, id, w, locks);
    var (rows, outcome) := SettleLocked(s.rows, j, id, w);
    var phase := Unwinding(outcome == Some(Settled));
    StepTo(s, j, id, phase, locks, rows, Unlock(id));
    assert locks - {LockKey(j)} == s.locks;
    Then(Placed(s, j, id, Locked, locks, s.rows), LockedSteps(id, w, Exists(s.rows, KeyOf(j))),
         Placed(s, j, id, phase, locks, rows), [Unlock(id)], Apply(Placed(s, j, id, phase, locks, rows), Unlock(id)));
  }

  /** In any state of the protocol, a new request that nothing interrupts takes these steps, ends with the rows
      and the outcome that `Settle` gives, and leaves the locks as they were. */
  lemma SettlementIsARun(s: State, j: Job, id: nat, w: World)
    requires id !in s.procs && j.domain == s.domain
    ensures var (rows, outcome) := Settle(s.locks, s.rows, j, id, w);
            Leads(s, Steps(s, j, id, w), Placed(s, j, id, if outcome.Settled? then Granted else Refused, s.locks, rows))
  {
    hide LockKey, KeyOf, Exists, Valid, Leads, LockedSteps, Settle, Refusal;
    var (arrive, lock) := ([Arrive(id, j)], [Validate(id), TryLock(id)]);
    var (rows, outcome) := Settle(s.locks, s.rows, j, id, w);
    var end := Placed(s, j, id, if outcome.Settled? then Granted else Refused, s.locks, rows);
    var arrived := Placed(s, j, id, Arrived, s.locks, s.rows);
    Single(s, Arrive(id, j));
    if Refusal(j, w).Some? {
      assert outcome == Refusal(j, w).value && rows == s.rows && !outcome.Settled? by { NotSettled(s, j, id, w); }
      StepTo(s, j, id, Arrived, s.locks, s.rows, Reject(id));
      Then(s, arrive, arrived, [Reject(id)], end);
    } else {
      assert Valid(j) by { OnlyValidPass(j, w); }
      StepTo(s, j, id, Arrived, s.locks, s.rows, Validate(id));
      StepTo(s, j, id, Validated, s.locks, s.rows, TryLock(id));
      var validated := Placed(s, j, id, Validated, s.locks, s.rows);
      var tried := Apply(validated, TryLock(id));
      Then(arrived, [Validate(id)], validated, [TryLock(id)], tried);
      assert [Validate(id)] + [TryLock(id)] == lock;
      if LockKey(j) in s.locks {
        assert outcome == BeingSettled && rows == s.rows by { NotSettled(s, j, id, w); }
        assert lock + [] == lock;
        Then(s, arrive, arrived, lock, end);
      } else {
        UnlockedRun(s, j, id, w);
        var rest := LockedSteps(id, w, Exists(s.rows, KeyOf(j))) + [Unlock(id)];
        Then(arrived, lock, tried, rest, end);
        Then(s, arrive, arrived, lock + rest, end);
      }
    }
  }

  lemma OnlyValidPass(j: Job, w: World)
    requires Refusal(j, w).None?
    ensures Valid(j)
  {
  }

  lemma NotSettled(s: State, j: Job, id: nat, w: World)
    requires Refusal(j, w).Some? || LockKey(j) in s.locks
    ensures Settle(s.locks, s.rows, j, id, w) == (s.rows, if Refusal(j, w).Some? then Refusal(j, w).value else BeingSettled)
    ensures !Settle(s.locks, s.rows, j, id, w).1.Settled?
  {
  }
}
