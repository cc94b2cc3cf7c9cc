/** Whole runs of the EasyNet ledger, with database failures anywhere. */
module LedgerRuns {
  import opened Words
  import opened Bytes
  import opened EasyNetLedger

  type Account = (Address, Address)

  datatype Request = Request(transfer: Transfer, fault: Fault)

  const EMPTY: Ledger := Ledger([], [])

  function Run(requests: seq<Request>): Ledger {
    if requests == [] then EMPTY
    else
      var n := |requests| - 1;
      ProcessTransfer(Run(requests[..n]), requests[n].transfer, requests[n].fault).0
  }

  /** The account a request funds, if it funds one. */
  function FundedBy(l: Ledger, r: Request): set<Account> {
    if r.fault.FundingFails? || Select(l.rows, r.transfer.from, r.transfer.asset).Some? then {}
    else {(r.transfer.from, r.transfer.asset)}
  }

  function Funded(requests: seq<Request>): set<Account> {
    if requests == [] then {}
    else
      var n := |requests| - 1;
      Funded(requests[..n]) + FundedBy(Run(requests[..n]), requests[n])
  }

  // Reading the journal.

  function Received(j: seq<Transfer>, w: Address, a: Address): int {
    if j == [] then 0
    else
      var (front, t) := (j[..|j| - 1], j[|j| - 1]);
      Received(front, w, a) + if (t.to, t.asset) == (w, a) then t.value else 0
  }

  function Sent(j: seq<Transfer>, w: Address, a: Address): int {
    if j == [] then 0
    else
      var (front, t) := (j[..|j| - 1], j[|j| - 1]);
      Sent(front, w, a) + if (t.from, t.asset) == (w, a) then t.value else 0
  }

  /** What an account sent to itself. */
  function SelfSent(j: seq<Transfer>, w: Address, a: Address): int {
    if j == [] then 0
    else
      var (front, t) := (j[..|j| - 1], j[|j| - 1]);
      SelfSent(front, w, a) + if t.from == t.to && (t.from, t.asset) == (w, a) then t.value else 0
  }

  lemma JournalStep(j: seq<Transfer>, t: Transfer, w: Address, a: Address)
    ensures Received(j + [t], w, a) - Sent(j + [t], w, a) + SelfSent(j + [t], w, a)
            == Received(j, w, a) - Sent(j, w, a) + SelfSent(j, w, a) + Change(t, w, a)
  {
    assert (j + [t])[..|j|] == j;
  }

  function Expected(funded: set<Account>, j: seq<Transfer>, w: Address, a: Address): int {
    (if (w, a) in funded then FUNDING else 0) + Received(j, w, a) - Sent(j, w, a)
  }

  ghost predicate Accounted(l: Ledger, funded: set<Account>) {
    && (forall w, a :: (w, a) in funded ==> Select(l.rows, w, a).Some?)
    && (forall w, a :: Balance(l.rows, w, a) == Expected(funded, l.journal, w, a) + SelfSent(l.journal, w, a))
  }

  lemma TransferAccounted(l: Ledger, t: Transfer, funded: set<Account>)
    requires Accounted(l, funded)
    ensures Accounted(TransferValue(l, t).0, funded)
  {
    hide TransferValue, Select, Balance, Received, Sent, SelfSent;
    var (l', reply) := TransferValue(l, t);
    if reply.Done? {
      forall w, a
        ensures Balance(l'.rows, w, a) == Expected(funded, l'.journal, w, a) + SelfSent(l'.journal, w, a)
        ensures Select(l.rows, w, a).Some? ==> Select(l'.rows, w, a).Some?
      {
        TransferEffect(l, t, w, a);
        JournalStep(l.journal, t, w, a);
      }
      TransferEffect(l, t, t.from, t.asset);
    } else {
      TransferEffect(l, t, t.from, t.asset);
    }
  }

  lemma FundingAccounted(l: Ledger, wallet: Address, asset: Address, funded: set<Account>)
    requires Accounted(l, funded)
    ensures Accounted(Ledger(Fund(l.rows, wallet, asset), l.journal),
                      funded + if Select(l.rows, wallet, asset).Some? then {} else {(wallet, asset)})
  {
    hide Fund, Select, Received, Sent, SelfSent;
    var rows := Fund(l.rows, wallet, asset);
    var more := funded + if Select(l.rows, wallet, asset).Some? then {} else {(wallet, asset)};
    forall w, a
      ensures (w, a) in more ==> Select(rows, w, a).Some?
      ensures Balance(rows, w, a) == Expected(more, l.journal, w, a) + SelfSent(l.journal, w, a)
    {
      FundEffect(l.rows, wallet, asset, w, a);
      assert Balance(l.rows, w, a) == Expected(funded, l.journal, w, a) + SelfSent(l.journal, w, a);
    }
  }

  /** Over any run, failures and refusals included: one row per account, and each balance is its funding plus
      what the journal says it received, minus what it sent, plus what it sent to itself. */
  lemma {:induction false} RunsAreAccounted(requests: seq<Request>)
    ensures Unique(Run(requests).rows)
    ensures Accounted(Run(requests), Funded(requests))
  {
    hide ProcessTransfer, TransferValue, Accounted, Unique, Fund;
    if requests == [] {
      NothingAccounted();
    } else {
      var n := |requests| - 1;
      var (l, r) := (Run(requests[..n]), requests[n]);
      RunsAreAccounted(requests[..n]);
      ProcessStaysUnique(l, r.transfer, r.fault);
      ProcessAccounted(l, r, Funded(requests[..n]));
    }
  }

  lemma NothingAccounted()
    ensures Unique(EMPTY.rows) && Accounted(EMPTY, {})
  {
  }

  lemma ProcessAccounted(l: Ledger, r: Request, funded: set<Account>)
    requires Accounted(l, funded)
    ensures Accounted(ProcessTransfer(l, r.transfer, r.fault).0, funded + FundedBy(l, r))
  {
    hide TransferValue, Accounted, Fund, Select;
    assert funded + {} == funded;
    FundingAccounted(l, r.transfer.from, r.transfer.asset, funded);
    if r.fault.NoFault? {
      TransferAccounted(Ledger(Fund(l.rows, r.transfer.from, r.transfer.asset), l.journal), r.transfer, funded + FundedBy(l, r));
    }
  }

  predicate SelfTransferOf(t: Transfer, w: Address, a: Address) {
    t.from == t.to == w && t.asset == a && t.value != 0
  }

  lemma {:induction false} SelfSentIsZeroIff(j: seq<Transfer>, w: Address, a: Address)
    ensures 0 <= SelfSent(j, w, a)
    ensures SelfSent(j, w, a) == 0 <==> forall i | 0 <= i < |j| :: !SelfTransferOf(j[i], w, a)
  {
    if j != [] {
      var n := |j| - 1;
      SelfSentIsZeroIff(j[..n], w, a);
      assert forall i | 0 <= i < n :: j[..n][i] == j[i];
    }
  }

  /** The ledger agrees with its journal for an account exactly when that account never sent itself anything. */
  lemma BalanceAgreesIff(requests: seq<Request>, w: Address, a: Address)
    ensures var l := Run(requests);
            Balance(l.rows, w, a) == Expected(Funded(requests), l.journal, w, a)
            <==> forall i | 0 <= i < |l.journal| :: !SelfTransferOf(l.journal[i], w, a)
  {
    RunsAreAccounted(requests);
    SelfSentIsZeroIff(Run(requests).journal, w, a);
  }

  /** The transfers of the requests that were carried out, in order. */
  function CarriedOut(requests: seq<Request>): seq<Transfer> {
    if requests == [] then []
    else
      var n := |requests| - 1;
      CarriedOut(requests[..n])
      + if ProcessTransfer(Run(requests[..n]), requests[n].transfer, requests[n].fault).1 == Done then [requests[n].transfer] else []
  }

  /** Over any run the journal is exactly the transfers that were carried out; a refused or failed request left nothing
      but possibly its sender's funding. */
  lemma {:induction false} JournalIsCarriedOut(requests: seq<Request>)
    ensures Run(requests).journal == CarriedOut(requests)
  {
    hide ProcessTransfer, Fund;
    if requests != [] {
      var n := |requests| - 1;
      JournalIsCarriedOut(requests[..n]);
      var (l, r) := (Run(requests[..n]), requests[n]);
      if ProcessTransfer(l, r.transfer, r.fault).1 == Done {
        DoneJournals(l, r);
      } else {
        RefusalOnlyFunds(l, r.transfer, r.fault);
      }
    }
  }

  lemma DoneJournals(l: Ledger, r: Request)
    requires ProcessTransfer(l, r.transfer, r.fault).1 == Done
    ensures ProcessTransfer(l, r.transfer, r.fault).0.journal == l.journal + [r.transfer]
  {
    TransferEffect(Ledger(Fund(l.rows, r.transfer.from, r.transfer.asset), l.journal), r.transfer, r.transfer.from, r.transfer.asset);
  }

  // Totals per asset.

  function RowSum(rows: seq<StateRow>, a: Address): int {
    if rows == [] then 0 else (if rows[0].asset == a then rows[0].value else 0) + RowSum(rows[1..], a)
  }

  lemma UniqueTail(rows: seq<StateRow>)
    requires rows != [] && Unique(rows)
    ensures Unique(rows[1..])
    ensures Select(rows[1..], rows[0].wallet, rows[0].asset).None?
  {
    var tail := rows[1..];
    forall j, k | 0 <= j < k < |tail|
      ensures !Matches(tail[j], tail[k].wallet, tail[k].asset)
    {
      assert !Matches(rows[j + 1], rows[k + 1].wallet, rows[k + 1].asset);
    }
    SelectFindsSome(tail, rows[0].wallet, rows[0].asset);
    forall i | 0 <= i < |tail|
      ensures !Matches(tail[i], rows[0].wallet, rows[0].asset)
    {
      assert !Matches(rows[0], rows[i + 1].wallet, rows[i + 1].asset);
    }
  }

  lemma {:induction false} UpdateAbsent(rows: seq<StateRow>, w: Address, a: Address, value: u256)
    requires Select(rows, w, a).None?
    ensures Update(rows, w, a, value) == rows
  {
    if rows != [] {
      UpdateAbsent(rows[1..], w, a, value);
    }
  }

  lemma {:induction false} RowSumAfterUpdate(rows: seq<StateRow>, w: Address, a: Address, value: u256, asset: Address)
    requires Unique(rows)
    ensures RowSum(Update(rows, w, a, value), asset)
            == RowSum(rows, asset)
               + (if a == asset && Select(rows, w, a).Some? then value as int - Select(rows, w, a).value else 0)
  {
    if rows != [] {
      UniqueTail(rows);
      var updated := Update(rows, w, a, value);
      assert updated[1..] == Update(rows[1..], w, a, value);
      if Matches(rows[0], w, a) {
        UpdateAbsent(rows[1..], w, a, value);
      } else {
        RowSumAfterUpdate(rows[1..], w, a, value, asset);
      }
    }
  }

  lemma {:induction false} RowSumAfterInsert(rows: seq<StateRow>, w: Address, a: Address, value: u256, asset: Address)
    ensures RowSum(Insert(rows, w, a, value), asset) == RowSum(rows, asset) + (if a == asset then value else 0)
  {
    if rows != [] {
      RowSumAfterInsert(rows[1..], w, a, value, asset);
      assert Insert(rows, w, a, value)[1..] == Insert(rows[1..], w, a, value);
    }
  }

  /** What a carried-out transfer adds to the total of an asset: nothing, unless the sender pays itself. */
  function Created(t: Transfer, asset: Address): int {
    if t.from == t.to && t.asset == asset then t.value else 0
  }

  lemma TransferMovesTotal(l: Ledger, t: Transfer, asset: Address)
    requires Unique(l.rows)
    requires TransferValue(l, t).1.Done?
    ensures RowSum(TransferValue(l, t).0.rows, asset) == RowSum(l.rows, asset) + Created(t, asset)
  {
    hide Unique, RowSum, Insert, Update;
    var sender := Balance(l.rows, t.from, t.asset);
    var receiver := Balance(l.rows, t.to, t.asset);
    var paid := Update(l.rows, t.from, t.asset, sender - t.value);
    UpdateStaysUnique(l.rows, t.from, t.asset, sender - t.value);
    SelectAfterUpdate(l.rows, t.from, t.asset, sender - t.value, t.to, t.asset);
    RowSumAfterUpdate(l.rows, t.from, t.asset, sender - t.value, asset);
    RowSumAfterUpdate(paid, t.to, t.asset, receiver + t.value, asset);
    RowSumAfterInsert(paid, t.to, t.asset, receiver + t.value, asset);
  }

  /** A transfer conserves the total of its asset exactly when it is not a positive payment to oneself. */
  lemma TransferConservesIff(l: Ledger, t: Transfer)
    requires Unique(l.rows)
    requires TransferValue(l, t).1.Done?
    ensures RowSum(TransferValue(l, t).0.rows, t.asset) == RowSum(l.rows, t.asset) <==> t.from != t.to || t.value == 0
  {
    TransferMovesTotal(l, t, t.asset);
  }

  /** A wallet that pays itself all it was funded with ends with twice that. */
  lemma PayingOneselfDoubles(w: Address, a: Address)
    ensures var l := Run([Request(Transfer(w, w, a, FUNDING), NoFault)]);
            l.journal == [Transfer(w, w, a, FUNDING)] && Balance(l.rows, w, a) == 2 * FUNDING
  {
    var r := Request(Transfer(w, w, a, FUNDING), NoFault);
    assert [r][..0] == [];
    var funded := Ledger(Fund([], w, a), []);
    FundEffect([], w, a, w, a);
    assert Run([r]) == TransferValue(funded, r.transfer).0;
    TransferEffect(funded, r.transfer, w, a);
  }

  function SelfTotal(j: seq<Transfer>, a: Address): int {
    if j == [] then 0
    else SelfTotal(j[..|j| - 1], a) + Created(j[|j| - 1], a)
  }

  function FundedFor(funded: set<Account>, a: Address): set<Account> {
    set k | k in funded && k.1 == a
  }

  lemma FundedForGrows(funded: set<Account>, wallet: Address, asset: Address, a: Address)
    requires (wallet, asset) !in funded
    ensures |FundedFor(funded + {(wallet, asset)}, a)| == |FundedFor(funded, a)| + if asset == a then 1 else 0
  {
    assert FundedFor(funded + {(wallet, asset)}, a) == FundedFor(funded, a) + if asset == a then {(wallet, asset)} else {};
  }

  ghost predicate Totalled(l: Ledger, funded: set<Account>, a: Address) {
    RowSum(l.rows, a) == FUNDING * |FundedFor(funded, a)| + SelfTotal(l.journal, a)
  }

  /** Over any run the balances of an asset add up to 10^27 per funded wallet, plus what wallets paid
      themselves. */
  lemma {:induction false} TotalsOverRuns(requests: seq<Request>, a: Address)
    ensures Totalled(Run(requests), Funded(requests), a)
  {
    hide ProcessTransfer, TransferValue, Unique, Accounted, RowSum, SelfTotal, FundedFor;
    if requests == [] {
      NothingTotalled(a);
    } else {
      var n := |requests| - 1;
      TotalsOverRuns(requests[..n], a);
      RunsAreAccounted(requests[..n]);
      ProcessTotalled(Run(requests[..n]), requests[n], Funded(requests[..n]), a);
    }
  }

  lemma NothingTotalled(a: Address)
    ensures Totalled(EMPTY, {}, a)
  {
    assert FundedFor({}, a) == {};
  }

  lemma ProcessTotalled(l: Ledger, r: Request, funded: set<Account>, a: Address)
    requires Unique(l.rows) && Accounted(l, funded) && Totalled(l, funded, a)
    ensures Totalled(ProcessTransfer(l, r.transfer, r.fault).0, funded + FundedBy(l, r), a)
  {
    hide TransferValue, RowSum, FundedFor, Unique, Select, SelfTotal;
    var t := r.transfer;
    assert funded + {} == funded;
    if !r.fault.FundingFails? {
      var mid := Ledger(Fund(l.rows, t.from, t.asset), l.journal);
      FundingTotalled(l, t.from, t.asset, funded, a);
      if Select(l.rows, t.from, t.asset).None? {
        InsertStaysUnique(l.rows, t.from, t.asset, FUNDING);
      }
      TransferTotalled(mid, t, funded + FundedBy(l, r), a);
    }
  }

  lemma FundingTotalled(l: Ledger, wallet: Address, asset: Address, funded: set<Account>, a: Address)
    requires Accounted(l, funded) && Totalled(l, funded, a)
    ensures Totalled(Ledger(Fund(l.rows, wallet, asset), l.journal),
                     funded + if Select(l.rows, wallet, asset).Some? then {} else {(wallet, asset)}, a)
  {
    hide RowSum, FundedFor, SelfTotal, Select, Expected, SelfSent;
    assert funded + {} == funded;
    if Select(l.rows, wallet, asset).None? {
      RowSumAfterInsert(l.rows, wallet, asset, FUNDING, a);
      FundedForGrows(funded, wallet, asset, a);
    }
  }

  lemma TransferTotalled(l: Ledger, t: Transfer, funded: set<Account>, a: Address)
    requires Unique(l.rows) && Totalled(l, funded, a)
    ensures Totalled(TransferValue(l, t).0, funded, a)
  {
    TransferEffect(l, t, t.from, t.asset);
    if TransferValue(l, t).1.Done? {
      TransferMovesTotal(l, t, a);
      assert (l.journal + [t])[..|l.journal|] == l.journal;
    }
  }
}
