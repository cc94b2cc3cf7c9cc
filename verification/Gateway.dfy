/** The reply machine and the payment protocol together: what a success status for a priced resource proves. */
module Gateway {
  import opened Options
  import opened PayOnce
  import opened PayOncePromises
  import M = PaymentManagement
  import opened Bodies
  import R = Replies

  /** Everything one conversation meets besides its settlement. `refusal` is the branch taken when the settlement
      does not return a facilitator's response. */
  datatype Talk = Talk(setup: R.Setup, opening: R.Opening, chunks: seq<R.Chunk>, offer: Offer, refusal: R.Priced,
                       backend: R.Backend, reply: R.Attempt, innerAlive: bool, lastAlive: bool)

  /** The branch a priced request takes: only with the facilitator's response in hand is the backend asked. */
  function BranchOf(phase: Phase, t: Talk): R.Priced {
    if phase.Granted? || phase.Fetched? then R.Settled(t.backend) else t.refusal
  }

  function ClosingOf(phase: Phase, t: Talk): R.Closing {
    R.Closing(R.Resource(t.offer, BranchOf(phase, t)), t.reply, t.innerAlive, t.lastAlive)
  }

  function ServedAt(phase: Phase, t: Talk): R.Handler {
    R.Served(t.setup, t.opening, t.chunks, ClosingOf(phase, t))
  }

  predicate IsSuccess(status: nat) { 200 <= status < 300 }

  /** The conversation is answered with a success status. */
  predicate Succeeds(phase: Phase, t: Talk) {
    exists i | 0 <= i < |ServedAt(phase, t).p.sent| :: IsSuccess(ServedAt(phase, t).p.sent[i])
  }

  lemma SuccessIsGranted(phase: Phase, t: Talk)
    requires !t.refusal.Settled? && Succeeds(phase, t)
    ensures phase.Granted? || phase.Fetched?
  {
    hide R.Served;
    var i :| 0 <= i < |ServedAt(phase, t).p.sent| && IsSuccess(ServedAt(phase, t).p.sent[i]);
    R.SuccessNeedsSettlement(t.setup, t.opening, t.chunks, ClosingOf(phase, t), i);
  }

  /** Over all interleavings: every success status for a priced resource has its own row in the payments table, written
      by the same request, for the resource's price and to the configured wallet; no payment serves two. */
  lemma EverySuccessIsPaid(s0: State, events: seq<Event>, talks: map<nat, Talk>)
    requires Initial(s0) && IsRun(s0, events)
    requires forall id | id in talks :: id in After(s0, events).procs && !talks[id].refusal.Settled?
    ensures var s := After(s0, events);
            && (forall id | id in talks && Succeeds(s.procs[id].phase, talks[id]) ::
                  && HasRow(s, id)
                  && var (r, j) := (s.rows[ReceiptOf(s, id)], s.procs[id].job);
                     r.writer == Some(id) && r.key == KeyOf(j) && r.value == j.price && r.to == j.wallet)
            && (forall a, b | a in talks && b in talks && a != b
                              && Succeeds(s.procs[a].phase, talks[a]) && Succeeds(s.procs[b].phase, talks[b]) ::
                  ReceiptOf(s, a) != ReceiptOf(s, b) && KeyOf(s.procs[a].job) != KeyOf(s.procs[b].job))
  {
    hide LockKey, KeyOf, Succeeds, IsRun, After;
    InitialOk(s0);
    RunKeeps(s0, events);
    var s := After(s0, events);
    forall id | id in talks && Succeeds(s.procs[id].phase, talks[id])
      ensures HasRow(s, id) && Valid(s.procs[id].job) && Paid(s.procs[id].phase)
    {
      SuccessIsGranted(s.procs[id].phase, talks[id]);
      assert ProcOk(s, id);
    }
    forall a, b | a in talks && b in talks && a != b
                  && Succeeds(s.procs[a].phase, talks[a]) && Succeeds(s.procs[b].phase, talks[b])
      ensures ReceiptOf(s, a) != ReceiptOf(s, b) && KeyOf(s.procs[a].job) != KeyOf(s.procs[b].job)
    {
      if KeyOf(s.procs[a].job) == KeyOf(s.procs[b].job) {
        OneRowEach(s, a, b);
      }
    }
  }

  // One conversation with its own settlement.

  /** What the processor makes of the settlement's outcome. */
  function BranchAfter(outcome: M.Outcome, backend: R.Backend): R.Priced {
    if outcome.Settled? then R.Settled(backend)
    else if M.IsInternal(outcome) then R.SettlementFails
    else R.PaymentRefused
  }

  /** A success status after an uninterrupted settlement: the payment was new, is for the price and to the wallet, and
      its row was written by this very call. */
  lemma SuccessWroteItsRow(locks: set<string>, rows: seq<Row>, j: Job, id: nat, w: M.World, offer: Offer,
                           backend: R.Backend, setup: R.Setup, o: R.Opening, chunks: seq<R.Chunk>, c: R.Closing, i: nat)
    requires c.lookup == R.Resource(offer, BranchAfter(M.Settle(locks, rows, j, id, w).1, backend))
    requires i < |R.Served(setup, o, chunks, c).p.sent| && IsSuccess(R.Served(setup, o, chunks, c).p.sent[i])
    ensures Valid(j) && !Exists(rows, KeyOf(j)) && LockKey(j) !in locks
    ensures M.Settle(locks, rows, j, id, w).0 == rows + [M.RowOf(j, id)]
    ensures M.RowOf(j, id).value == j.price && M.RowOf(j, id).to == j.wallet
  {
    hide R.Served, LockKey, KeyOf, Exists;
    R.SuccessNeedsSettlement(setup, o, chunks, c, i);
  }
}
