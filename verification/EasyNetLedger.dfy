/** The EasyNet ledger as functions on values: a table of balance rows without any uniqueness constraint, and a
journal of transfers. */
module EasyNetLedger {
  import opened Words
  import opened Bytes
  import opened Options

  datatype StateRow = StateRow(wallet: Address, asset: Address, value: u256)

  datatype Transfer = Transfer(from: Address, to: Address, asset: Address, value: u256)

  datatype Ledger = Ledger(rows: seq<StateRow>, journal: seq<Transfer>)

  /** 10^27: what a wallet that has never been seen as a sender starts with. */
  const FUNDING: u256 := 1_000_000_000_000_000_000_000_000_000

  predicate Matches(r: StateRow, wallet: Address, asset: Address) {
    r.wallet == wallet && r.asset == asset
  }

  /** SELECT: the first row that matches. */
  function Select(rows: seq<StateRow>, wallet: Address, asset: Address): Option<u256> {
    if rows == [] then None
    else if Matches(rows[0], wallet, asset) then Some(rows[0].value)
    else Select(rows[1..], wallet, asset)
  }

  /** UPDATE: every row that matches. */
  function Update(rows: seq<StateRow>, wallet: Address, asset: Address, value: u256): seq<StateRow> {
    if rows == [] then []
    else [if Matches(rows[0], wallet, asset) then StateRow(wallet, asset, value) else rows[0]]
         + Update(rows[1..], wallet, asset, value)
  }

  /** INSERT. */
  function Insert(rows: seq<StateRow>, wallet: Address, asset: Address, value: u256): seq<StateRow> {
    rows + [StateRow(wallet, asset, value)]
  }

  function Balance(rows: seq<StateRow>, wallet: Address, asset: Address): u256 {
    match Select(rows, wallet, asset) case Some(v) => v case None => 0
  }

  function Fund(rows: seq<StateRow>, wallet: Address, asset: Address): seq<StateRow> {
    if Select(rows, wallet, asset).None? then Insert(rows, wallet, asset, FUNDING) else rows
  }

  datatype Reply = Done | InsufficientFunds | Failed

  /** The body of one transfer; a missing sender row is an exception. */
  function TransferValue(l: Ledger, t: Transfer): (Ledger, Reply) {
    match Select(l.rows, t.from, t.asset)
    case None => (l, Failed)
    case Some(sender) =>
      var receiver := Balance(l.rows, t.to, t.asset);
      if sender < t.value || MODULUS - 1 - receiver < t.value then (l, InsufficientFunds)
      else
        var paid := Update(l.rows, t.from, t.asset, sender - t.value);
        var rows := if Select(l.rows, t.to, t.asset).Some? then Update(paid, t.to, t.asset, receiver + t.value)
                    else Insert(paid, t.to, t.asset, receiver + t.value);
        (Ledger(rows, l.journal + [t]), Done)
  }

  /** Where the database throws, if it does: before the funding row, or inside the transfer's transaction. */
  datatype Fault = NoFault | FundingFails | TransferFails

  function ProcessTransfer(l: Ledger, t: Transfer, fault: Fault): (Ledger, Reply) {
    if fault.FundingFails? then (l, Failed)
    else
      var funded := Ledger(Fund(l.rows, t.from, t.asset), l.journal);
      if fault.TransferFails? then (funded, Failed) else TransferValue(funded, t)
  }

  // The statements of the table, one by one.

  lemma {:induction false} SelectAfterUpdate(rows: seq<StateRow>, w: Address, a: Address, value: u256, w': Address, a': Address)
    ensures Select(Update(rows, w, a, value), w', a')
            == if w == w' && a == a' && Select(rows, w, a).Some? then Some(value) else Select(rows, w', a')
  {
    if rows != [] {
      SelectAfterUpdate(rows[1..], w, a, value, w', a');
      assert Update(rows, w, a, value)[1..] == Update(rows[1..], w, a, value);
    }
  }

  lemma {:induction false} SelectAfterInsert(rows: seq<StateRow>, w: Address, a: Address, value: u256, w': Address, a': Address)
    ensures Select(Insert(rows, w, a, value), w', a')
            == if Select(rows, w', a').Some? then Select(rows, w', a')
               else if w == w' && a == a' then Some(value) else None
  {
    if rows != [] {
      SelectAfterInsert(rows[1..], w, a, value, w', a');
      assert Insert(rows, w, a, value)[1..] == Insert(rows[1..], w, a, value);
    }
  }

  /** At most one row per wallet and asset. */
  predicate Unique(rows: seq<StateRow>) {
    forall i, j | 0 <= i < j < |rows| :: !Matches(rows[i], rows[j].wallet, rows[j].asset)
  }

  lemma {:induction false} SelectFindsSome(rows: seq<StateRow>, w: Address, a: Address)
    ensures Select(rows, w, a).Some? <==> exists i | 0 <= i < |rows| :: Matches(rows[i], w, a)
  {
    if rows != [] {
      SelectFindsSome(rows[1..], w, a);
      if i :| 0 <= i < |rows[1..]| && Matches(rows[1..][i], w, a) {
        assert Matches(rows[i + 1], w, a);
      }
      if i :| 0 <= i < |rows| && Matches(rows[i], w, a) && i != 0 {
        assert Matches(rows[1..][i - 1], w, a);
      }
    }
  }

  lemma {:induction false} UpdateRows(rows: seq<StateRow>, w: Address, a: Address, value: u256)
    ensures |Update(rows, w, a, value)| == |rows|
    ensures forall i | 0 <= i < |rows| ::
              Update(rows, w, a, value)[i] == if Matches(rows[i], w, a) then StateRow(w, a, value) else rows[i]
  {
    if rows != [] {
      UpdateRows(rows[1..], w, a, value);
    }
  }

  lemma UpdateStaysUnique(rows: seq<StateRow>, w: Address, a: Address, value: u256)
    requires Unique(rows)
    ensures Unique(Update(rows, w, a, value))
  {
    UpdateRows(rows, w, a, value);
  }

  lemma InsertStaysUnique(rows: seq<StateRow>, w: Address, a: Address, value: u256)
    requires Unique(rows)
    requires Select(rows, w, a).None?
    ensures Unique(Insert(rows, w, a, value))
  {
    SelectFindsSome(rows, w, a);
  }

  /** In a table with unique rows every row says what a lookup says: the table is a finite map. */
  lemma {:induction false} UniqueIsAMap(rows: seq<StateRow>, i: nat)
    requires Unique(rows)
    requires i < |rows|
    ensures Select(rows, rows[i].wallet, rows[i].asset) == Some(rows[i].value)
  {
    if i > 0 {
      assert !Matches(rows[0], rows[i].wallet, rows[i].asset);
      var tail := rows[1..];
      forall j, k | 0 <= j < k < |tail|
        ensures !Matches(tail[j], tail[k].wallet, tail[k].asset)
      {
        assert !Matches(rows[j + 1], rows[k + 1].wallet, rows[k + 1].asset);
      }
      UniqueIsAMap(tail, i - 1);
    }
  }

  /** On such a table a lookup returns v exactly when the account's row holds v, and nothing exactly when the account
      has no row. */
  lemma LookupIff(rows: seq<StateRow>, w: Address, a: Address)
    requires Unique(rows)
    ensures forall v: u256 :: Select(rows, w, a) == Some(v) <==> StateRow(w, a, v) in rows
    ensures Select(rows, w, a).None? <==> forall v: u256 :: StateRow(w, a, v) !in rows
  {
    SelectFindsSome(rows, w, a);
    forall i | 0 <= i < |rows|
      ensures Select(rows, rows[i].wallet, rows[i].asset) == Some(rows[i].value)
    {
      UniqueIsAMap(rows, i);
    }
    if Select(rows, w, a).Some? {
      var i :| 0 <= i < |rows| && Matches(rows[i], w, a);
      assert rows[i] == StateRow(w, a, rows[i].value);
    }
    forall v: u256 | StateRow(w, a, v) in rows
      ensures Select(rows, w, a) == Some(v)
    {
      var i :| 0 <= i < |rows| && rows[i] == StateRow(w, a, v);
      assert Matches(rows[i], w, a);
    }
  }

  // One request.

  /** What a carried-out transfer does to one balance. A transfer to oneself credits without debiting: its
      second update writes a balance read before the first. */
  function Change(t: Transfer, w: Address, a: Address): int {
    if (w, a) == (t.to, t.asset) then t.value
    else if (w, a) == (t.from, t.asset) then -(t.value as int)
    else 0
  }

  /** What a request leaves in the table, entry by entry. */
  lemma TransferEffect(l: Ledger, t: Transfer, w: Address, a: Address)
    ensures var (l', reply) := TransferValue(l, t);
            && (reply != Done ==> l' == l)
            && (reply.Done? ==>
                  && l'.journal == l.journal + [t]
                  && t.value <= Balance(l.rows, t.from, t.asset)
                  && Balance(l.rows, t.to, t.asset) + t.value < MODULUS
                  && Balance(l'.rows, w, a) == Balance(l.rows, w, a) + Change(t, w, a)
                  && (Select(l'.rows, w, a).Some? <==> Select(l.rows, w, a).Some? || (w, a) == (t.to, t.asset)))
  {
    hide Select, Update, Insert;
    var (l', reply) := TransferValue(l, t);
    if reply.Done? {
      var sender := Balance(l.rows, t.from, t.asset);
      var receiver := Balance(l.rows, t.to, t.asset);
      var paid := Update(l.rows, t.from, t.asset, sender - t.value);
      SelectAfterUpdate(l.rows, t.from, t.asset, sender - t.value, w, a);
      SelectAfterUpdate(l.rows, t.from, t.asset, sender - t.value, t.to, t.asset);
      SelectAfterUpdate(paid, t.to, t.asset, receiver + t.value, w, a);
      SelectAfterInsert(paid, t.to, t.asset, receiver + t.value, w, a);
    }
  }

  lemma FundEffect(rows: seq<StateRow>, wallet: Address, asset: Address, w: Address, a: Address)
    ensures Select(Fund(rows, wallet, asset), w, a)
            == if (w, a) == (wallet, asset) && Select(rows, w, a).None? then Some(FUNDING) else Select(rows, w, a)
  {
    SelectAfterInsert(rows, wallet, asset, FUNDING, w, a);
  }

  lemma TransferStaysUnique(l: Ledger, t: Transfer)
    requires Unique(l.rows)
    ensures Unique(TransferValue(l, t).0.rows)
  {
    hide Select, Update, Unique, Insert;
    if TransferValue(l, t).1.Done? {
      var sender := Balance(l.rows, t.from, t.asset);
      var receiver := Balance(l.rows, t.to, t.asset);
      var paid := Update(l.rows, t.from, t.asset, sender - t.value);
      UpdateStaysUnique(l.rows, t.from, t.asset, sender - t.value);
      SelectAfterUpdate(l.rows, t.from, t.asset, sender - t.value, t.to, t.asset);
      if Select(l.rows, t.to, t.asset).Some? {
        UpdateStaysUnique(paid, t.to, t.asset, receiver + t.value);
      } else {
        InsertStaysUnique(paid, t.to, t.asset, receiver + t.value);
      }
    }
  }

  lemma ProcessStaysUnique(l: Ledger, t: Transfer, fault: Fault)
    requires Unique(l.rows)
    ensures Unique(ProcessTransfer(l, t, fault).0.rows)
  {
    if Select(l.rows, t.from, t.asset).None? {
      InsertStaysUnique(l.rows, t.from, t.asset, FUNDING);
    }
    TransferStaysUnique(Ledger(Fund(l.rows, t.from, t.asset), l.journal), t);
  }

  // The pre-check of the facilitator.

  /** The verify step's verdict on balances: the sender's row or the funding it would get, and the receiver's
      row if there is one. */
  predicate PreCheckRefuses(rows: seq<StateRow>, t: Transfer) {
    || (Select(rows, t.to, t.asset).Some? && MODULUS - 1 - Select(rows, t.to, t.asset).value < t.value)
    || (match Select(rows, t.from, t.asset) case Some(v) => v case None => FUNDING) < t.value
  }

  /** The pre-check is exact: on every table and for every request, transfers to oneself included, it refuses
      exactly when funding and then transferring would. */
  lemma PreCheckIsExact(l: Ledger, t: Transfer)
    ensures PreCheckRefuses(l.rows, t) <==> ProcessTransfer(l, t, NoFault).1 == InsufficientFunds
    ensures !PreCheckRefuses(l.rows, t) <==> ProcessTransfer(l, t, NoFault).1 == Done
  {
    FundEffect(l.rows, t.from, t.asset, t.from, t.asset);
    FundEffect(l.rows, t.from, t.asset, t.to, t.asset);
  }

  /** A refused or failed request changes nothing but possibly the sender's funding. */
  lemma RefusalOnlyFunds(l: Ledger, t: Transfer, fault: Fault)
    requires ProcessTransfer(l, t, fault).1 != Done
    ensures var l' := ProcessTransfer(l, t, fault).0;
            l'.journal == l.journal && (l'.rows == l.rows || l'.rows == Fund(l.rows, t.from, t.asset))
  {
  }
}
