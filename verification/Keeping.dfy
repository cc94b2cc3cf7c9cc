/** Exactly which calls, and which runs, keep everything. */
module Keeping {
  import opened Words
  import opened Market
  import opened Liquidity
  import opened Totals
  import opened Paths
  import opened Exchange
  import opened Width
  import opened Swaps
  import opened Runs
  import opened Promises
  import opened Names

  /** Exactly the careful calls keep order, share values, totals and atomicity: a swap that throws half-way has moved
      tokens, one whose net effect lowers a product lowers the value of shares, and a call that moves tokens it does
      not name changes totals. */
  lemma KeptIff(m: Market, c: Call)
    requires Sound(m, c)
    ensures KeptWrapping(m, c) <==> Careful(m, c)
  {
    hide Inv, Bounded, Step, Harmless, Conserving;
    if Careful(m, c) {
      WrappingStepKeeps(m, c);
    } else if !Harmless(Wrapping, m, c) {
      HarmfulBreaks(m, c);
    } else {
      DriftingBreaks(m, c);
    }
  }

  lemma HarmfulBreaks(m: Market, c: Call)
    requires Sound(m, c) && !Harmless(Wrapping, m, c)
    ensures !KeptWrapping(m, c)
  {
    hide Inv, Bounded, Total, Payable, NetsKeep, PathExists, Step, Quoted, ShareKept, Debit;
    EnteredSwap(m, c);
    if Step(Wrapping, m, c).1.Ok? {
      SharesKeptIff(m, c);
    }
  }

  lemma DriftingBreaks(m: Market, c: Call)
    requires Sound(m, c) && Harmless(Wrapping, m, c) && !Conserving(Wrapping, m, c)
    ensures !KeptWrapping(m, c)
  {
    hide Inv, Bounded, Total, Step, Quoted, Entered, ShareKept, Payable, NetsKeep, PathExists, NoDrift, Clear;
    if IsSwap(c) {
      ThrowsMidwayIff(m, c);
      SwapConservesIff(m, c);
    } else if c.AddCall? {
      AddConservesIff(m, c);
    } else if c.RemoveCall? {
      RemoveConservesIff(m, c);
    }
    assert !TotalsStay(m, Step(Wrapping, m, c).0);
  }

  ghost predicate AllKept(calls: seq<Call>) {
    forall i: nat | i < |calls| :: KeptWrapping(Run(calls[..i]), calls[i])
  }

  /** A run keeps all that at every call exactly when each of its calls is careful on the state it finds. */
  lemma EveryCallKeepsIff(calls: seq<Call>)
    requires AllProper(calls) && FewMinted(calls)
    ensures AllKept(calls) <==> AllCareful(calls)
  {
    hide KeptWrapping, Careful, Run;
    if AllCareful(calls) {
      forall i: nat | i < |calls|
        ensures KeptWrapping(Run(calls[..i]), calls[i])
      {
        EveryCallKeeps(calls, i);
      }
    }
    if AllKept(calls) {
      KeptPrefixIsCareful(calls, |calls|);
      assert calls[..|calls|] == calls;
    }
  }

  lemma {:induction false} KeptPrefixIsCareful(calls: seq<Call>, n: nat)
    requires n <= |calls|
    requires AllProper(calls) && FewMinted(calls) && AllKept(calls)
    ensures AllCareful(calls[..n])
  {
    hide KeptWrapping, Careful, Run, Sound;
    if n > 0 {
      KeptPrefixIsCareful(calls, n - 1);
      PrefixSound(calls, n - 1);
      KeptIff(Run(calls[..n - 1]), calls[n - 1]);
      var front := calls[..n];
      forall i: nat | i < n
        ensures Careful(Run(front[..i]), front[i])
      {
        assert front[..i] == calls[..i];
        assert i < n - 1 ==> calls[..n - 1][..i] == calls[..i] && calls[..n - 1][i] == calls[i];
      }
    }
  }
}
