/** The EasyNet database and facilitator as the code runs them, one call at a time under their locks. */
module EasyNet {
  import opened Words
  import opened Bytes
  import opened Options
  import opened EasyNetLedger

  datatype Verdict = Accepted | InvalidPayload | NotEnough

  /** What the verify step reports about a parsed request whose signature check gave `valid`. */
  function Verify(rows: seq<StateRow>, t: Transfer, valid: bool): Verdict {
    if !valid then InvalidPayload else if PreCheckRefuses(rows, t) then NotEnough else Accepted
  }

  datatype SettleReply = Success | RefusedAtCheck(verdict: Verdict) | RefusedAtTransfer | Unexpected

  /** What settling a request does. `readable` is false when parsing or the balance queries throw. */
  function Settle(l: Ledger, t: Transfer, readable: bool, valid: bool, fault: Fault): (Ledger, SettleReply) {
    if !readable then (l, Unexpected)
    else if Verify(l.rows, t, valid) != Accepted then (l, RefusedAtCheck(Verify(l.rows, t, valid)))
    else
      var (l', reply) := ProcessTransfer(l, t, fault);
      (l', match reply case Done => Success case InsufficientFunds => RefusedAtTransfer case Failed => Unexpected)
  }

  /** Under the facilitator's lock a request that passed the check is never refused by the transfer, and it
      succeeds whenever the database does. */
  lemma NeverRefusedAtTransfer(l: Ledger, t: Transfer, readable: bool, valid: bool, fault: Fault)
    ensures Settle(l, t, readable, valid, fault).1 != RefusedAtTransfer
    ensures Settle(l, t, readable, valid, fault).1 == Success
            <==> readable && Verify(l.rows, t, valid) == Accepted && fault == NoFault
  {
    hide ProcessTransfer, PreCheckRefuses;
    PreCheckIsExact(l, t);
    FaultsNeverRefuse(l, t, fault);
  }

  lemma FaultsNeverRefuse(l: Ledger, t: Transfer, fault: Fault)
    ensures fault != NoFault ==> ProcessTransfer(l, t, fault).1 == Failed
  {
  }

  class EasyNetDb {
    var state: seq<StateRow>
    var transactions: seq<Transfer>

    ghost function Contents(): Ledger
      reads this
    {
      Ledger(state, transactions)
    }

    constructor ()
      ensures Contents() == Ledger([], [])
    {
      state, transactions := [], [];
    }

    method GetBalance(wallet: Address, asset: Address) returns (balance: Option<u256>)
      ensures balance == Select(state, wallet, asset)
      ensures Unique(state) ==> forall v: u256 :: balance == Some(v) <==> StateRow(wallet, asset, v) in state
      ensures Unique(state) && balance.None? ==> forall v: u256 :: StateRow(wallet, asset, v) !in state
    {
      balance := Select(state, wallet, asset);
      assert Unique(state) ==> forall v: u256 :: balance == Some(v) <==> StateRow(wallet, asset, v) in state by {
        if Unique(state) {
          LookupIff(state, wallet, asset);
        }
      }
    }

    method FundUserWalletWithFundsIfNewWalletUnsafe(wallet: Address, asset: Address)
      modifies this`state
      ensures state == Fund(old(state), wallet, asset)
    {
      var existing := Select(state, wallet, asset);
      if existing.Some? {
        return;
      }
      state := Insert(state, wallet, asset, FUNDING);
    }

    /** The transfer inside its database transaction; `throws` says whether the database fails before commit. */
    method TransferValueUnsafe(t: Transfer, throws: bool) returns (reply: Reply)
      modifies this
      ensures (Contents(), reply) == if throws then (old(Contents()), Failed) else TransferValue(old(Contents()), t)
    {
      var rows, journal := state, transactions;
      var sender := Select(rows, t.from, t.asset);
      if throws || sender.None? {
        return Failed;
      }
      if t.value > sender.value {
        return InsufficientFunds;
      }
      var receiver := Select(rows, t.to, t.asset);
      var receiverBalance: u256 := 0;
      if receiver.Some? {
        receiverBalance := receiver.value;
      }
      if t.value > Wrapping.Sub(MODULUS - 1, receiverBalance) {
        return InsufficientFunds;
      }
      var senderUpdated := Wrapping.Sub(sender.value, t.value);
      var receiverUpdated := Wrapping.Add(receiverBalance, t.value);
      rows := Update(rows, t.from, t.asset, senderUpdated);
      if receiver.Some? {
        rows := Update(rows, t.to, t.asset, receiverUpdated);
      } else {
        rows := Insert(rows, t.to, t.asset, receiverUpdated);
      }
      journal := journal + [t];
      state, transactions := rows, journal;
      return Done;
    }

    method ProcessTransferRequest(t: Transfer, fault: Fault) returns (reply: Reply)
      modifies this
      ensures (Contents(), reply) == ProcessTransfer(old(Contents()), t, fault)
    {
      if fault.FundingFails? {
        return Failed;
      }
      FundUserWalletWithFundsIfNewWalletUnsafe(t.from, t.asset);
      reply := TransferValueUnsafe(t, fault.TransferFails?);
    }
  }

  class EasyNetFacilitator {
    const db: EasyNetDb

    constructor (db: EasyNetDb)
      ensures this.db == db
    {
      this.db := db;
    }

    method ProcessVerifyRequestUnsafe(t: Transfer, valid: bool) returns (verdict: Verdict)
      ensures verdict == Verify(db.state, t, valid)
    {
      if !valid {
        return InvalidPayload;
      }
      var currentBalance := FUNDING;
      var sender := db.GetBalance(t.from, t.asset);
      if sender.Some? {
        currentBalance := sender.value;
      }
      var receiver := db.GetBalance(t.to, t.asset);
      if receiver.Some? {
        if t.value > Wrapping.Sub(MODULUS - 1, receiver.value) {
          return NotEnough;
        }
      }
      if t.value > currentBalance {
        return NotEnough;
      }
      return Accepted;
    }

    method ProcessSettleRequest(t: Transfer, readable: bool, valid: bool, fault: Fault) returns (reply: SettleReply)
      modifies db
      ensures (db.Contents(), reply) == Settle(old(db.Contents()), t, readable, valid, fault)
      ensures reply != RefusedAtTransfer
    {
      NeverRefusedAtTransfer(db.Contents(), t, readable, valid, fault);
      if !readable {
        return Unexpected;
      }
      var verdict := ProcessVerifyRequestUnsafe(t, valid);
      if verdict != Accepted {
        return RefusedAtCheck(verdict);
      }
      var outcome := db.ProcessTransferRequest(t, fault);
      match outcome
      case Done => return Success;
      case InsufficientFunds => return RefusedAtTransfer;
      case Failed => return Unexpected;
    }
  }
}
