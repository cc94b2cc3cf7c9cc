/** What every interleaving of the pay-once protocol keeps. */
module PayOncePromises {
  import opened Options
  import opened PayOnce

  /** In every reachable state the lock set is exactly the keys of the requests between lock and release, one
      holder each, so the check that a release erased one key has never failed. */
  lemma LockDiscipline(s0: State, events: seq<Event>)
    requires Initial(s0) && IsRun(s0, events)
    ensures var s := After(s0, events);
            && !s.checkFailed
            && (forall k :: k in s.locks <==> exists id :: id in s.procs && Holds(s.procs[id].phase) && LockKey(s.procs[id].job) == k)
            && (forall a, b | a in s.procs && b in s.procs && Holds(s.procs[a].phase) && Holds(s.procs[b].phase) ::
                  LockKey(s.procs[a].job) == LockKey(s.procs[b].job) ==> a == b)
  {
    hide LockKey;
    InitialOk(s0);
    RunKeeps(s0, events);
  }

  /** No facilitator call ever starts for a recorded payment, whoever recorded it. */
  lemma NoCallForARecordedPayment(s0: State, events: seq<Event>, id: nat)
    requires Initial(s0) && IsRun(s0, events)
    requires Enabled(After(s0, events), StartCall(id))
    ensures !Exists(After(s0, events).rows, KeyOf(After(s0, events).procs[id].job))
  {
    hide LockKey, KeyOf;
    InitialOk(s0);
    RunKeeps(s0, events);
    assert ProcOk(After(s0, events), id);
  }

  lemma {:induction false} RowsOnlyGrow(s: State, events: seq<Event>)
    requires IsRun(s, events)
    ensures s.rows <= After(s, events).rows
    decreases |events|
  {
    hide Apply, Enabled, KeyOf;
    if events != [] {
      RowsGrow(s, events[0]);
      RowsOnlyGrow(Apply(s, events[0]), events[1..]);
    }
  }

  /** A recorded payment stays visible: however long the run, the next check of its key finds it. */
  lemma RecordedStaysVisible(s: State, events: seq<Event>, k: RowKey, id: nat)
    requires IsRun(s, events)
    requires Exists(s.rows, k)
    requires Enabled(After(s, events), Check(id)) && KeyOf(After(s, events).procs[id].job) == k
    ensures Exists(After(s, events).rows, k)
    ensures At(Apply(After(s, events), Check(id)), id, Unwinding(false))
  {
    RowsOnlyGrow(s, events);
    var i :| 0 <= i < |s.rows| && s.rows[i].key == k;
    assert After(s, events).rows[i] == s.rows[i];
  }

  /** At most one request per payer, nonce, chain and asset ever holds a facilitator's response. */
  lemma PaidOnce(s0: State, events: seq<Event>, a: nat, b: nat)
    requires Initial(s0) && IsRun(s0, events)
    requires var s := After(s0, events);
             && a in s.procs && b in s.procs && Paid(s.procs[a].phase) && Paid(s.procs[b].phase)
             && KeyOf(s.procs[a].job) == KeyOf(s.procs[b].job)
    ensures a == b
  {
    hide LockKey, KeyOf;
    InitialOk(s0);
    RunKeeps(s0, events);
    var s := After(s0, events);
    OneRowEach(s, a, b);
  }

  lemma OneRowEach(s: State, a: nat, b: nat)
    requires RowsOk(s)
    requires a in s.procs && b in s.procs && HasRow(s, a) && HasRow(s, b)
    requires KeyOf(s.procs[a].job) == KeyOf(s.procs[b].job)
    ensures a == b
  {
    hide KeyOf, RowOk;
    var (j, l) := (s.procs[a].job, s.procs[b].job);
    var i :| 0 <= i < |s.rows| && s.rows[i] == Row(KeyOf(j), j.auth.to, j.auth.value, Some(a));
    var k :| 0 <= k < |s.rows| && s.rows[k] == Row(KeyOf(l), l.auth.to, l.auth.value, Some(b));
    assert i == k;
  }

  /** The row that paid for a request. */
  ghost function ReceiptOf(s: State, id: nat): (i: int)
    requires id in s.procs && HasRow(s, id)
    ensures 0 <= i < |s.rows|
    ensures var j := s.procs[id].job; s.rows[i] == Row(KeyOf(j), j.auth.to, j.auth.value, Some(id))
  {
    var j := s.procs[id].job;
    var i :| 0 <= i < |s.rows| && s.rows[i] == Row(KeyOf(j), j.auth.to, j.auth.value, Some(id));
    i
  }

  /** The toll booth: every fetch of a priced resource has its own row in the payments table, written by the
      same request, for the resource's price and to the configured wallet; no row and no payment pays twice. */
  lemma TollBooth(s0: State, events: seq<Event>)
    requires Initial(s0) && IsRun(s0, events)
    ensures var s := After(s0, events);
            && (forall i | 0 <= i < |s.fetches| ::
                  && s.fetches[i] in s.procs && HasRow(s, s.fetches[i])
                  && var (r, j) := (s.rows[ReceiptOf(s, s.fetches[i])], s.procs[s.fetches[i]].job);
                     r.writer == Some(s.fetches[i]) && r.value == j.price && r.to == j.wallet)
            && (forall i, k | 0 <= i < k < |s.fetches| ::
                  && ReceiptOf(s, s.fetches[i]) != ReceiptOf(s, s.fetches[k])
                  && KeyOf(s.procs[s.fetches[i]].job) != KeyOf(s.procs[s.fetches[k]].job))
  {
    hide LockKey, KeyOf;
    InitialOk(s0);
    RunKeeps(s0, events);
    var s := After(s0, events);
    forall i | 0 <= i < |s.fetches|
      ensures s.fetches[i] in s.procs && HasRow(s, s.fetches[i]) && Valid(s.procs[s.fetches[i]].job)
    {
      assert At(s, s.fetches[i], Fetched);
      assert ProcOk(s, s.fetches[i]);
    }
    forall i, k | 0 <= i < k < |s.fetches|
      ensures ReceiptOf(s, s.fetches[i]) != ReceiptOf(s, s.fetches[k])
      ensures KeyOf(s.procs[s.fetches[i]].job) != KeyOf(s.procs[s.fetches[k]].job)
    {
      if KeyOf(s.procs[s.fetches[i]].job) == KeyOf(s.procs[s.fetches[k]].job) {
        OneRowEach(s, s.fetches[i], s.fetches[k]);
      }
    }
  }
}
