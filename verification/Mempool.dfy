/** The list of pending transactions (src/node/sync_server.cpp, revalidateMempoolLocked). */
module Mempool {
  import opened ProtocolAddresses
  import opened Records
  import opened Money
  import opened Transactions
  import opened Conservation
  import opened Ledger
  import opened LedgerInvariant
  import opened LedgerReplay
  import opened Acceptance

  /** validatePendingTransactions: the list applies as a batch at the next integer, its fees
      paid to no one. */
  predicate Pending(v: Verifier, s: State, txs: seq<Transaction>) {
    ApplyTransactions(v.signatures, TxContext(s, s.frontier + 1), s.accounts, txs, "").Some?
  }

  /** What revalidation keeps: each transaction that is young enough and still applies after
      the ones kept before it. */
  function Retained(v: Verifier, s: State, txs: seq<Transaction>, aged: Transaction -> bool): seq<Transaction> {
    if txs == [] then []
    else
      var before, last := Retained(v, s, txs[..|txs| - 1], aged), txs[|txs| - 1];
      if !aged(last) && Pending(v, s, before + [last]) then before + [last] else before
  }

  method RevalidateMempool(v: Verifier, s: State, mempool: seq<Transaction>, aged: Transaction -> bool)
    returns (retained: seq<Transaction>)
    ensures retained == Retained(v, s, mempool, aged)
    ensures Pending(v, s, retained)
  {
    retained := [];
    var i := 0;
    while i < |mempool|
      invariant 0 <= i <= |mempool|
      invariant retained == Retained(v, s, mempool[..i], aged) && Pending(v, s, retained)
    {
      assert mempool[..i + 1][..i] == mempool[..i];
      if !aged(mempool[i]) {
        var candidate := retained + [mempool[i]];
        if Pending(v, s, candidate) {
          retained := candidate;
        }
      }
      i := i + 1;
    }
    assert mempool[..i] == mempool;
  }

  /** A prefix of a valid list is valid: the order of arrival can be kept. */
  lemma {:induction false} PrefixesStayValid(v: Verifier, s: State, txs: seq<Transaction>, n: nat)
    requires Pending(v, s, txs) && n <= |txs|
    ensures Pending(v, s, txs[..n])
    decreases |txs|
  {
    hide ApplyTx;
    if n == |txs| {
      assert txs[..n] == txs;
    } else {
      PrefixesStayValid(v, s, txs[..|txs| - 1], n);
      assert txs[..|txs| - 1][..n] == txs[..n];
    }
  }

  /** Revalidating again keeps everything. */
  lemma {:induction false} RevalidationIsStable(v: Verifier, s: State, txs: seq<Transaction>)
    requires Pending(v, s, txs)
    ensures Retained(v, s, txs, _ => false) == txs
  {
    hide ApplyTransactions;
    if txs != [] {
      var n := |txs| - 1;
      PrefixesStayValid(v, s, txs, n);
      RevalidationIsStable(v, s, txs[..n]);
      assert txs[..n] + [txs[n]] == txs;
    }
  }

  /** Mempool soundness: a list accepted as pending also applies when mined at the next
      integer with its fees paid to the pool, in a record of either kind. */
  lemma PendingCanBeMined(v: Verifier, s: State, r: Record)
    requires StartedOk(s) && Pending(v, s, r.body.transactions) && r.header.integer == s.frontier + 1
    ensures Execute(v, s, r).Some?
    ensures ApplyTransactions(v.signatures, TxContext(s, s.frontier + 1), s.accounts, r.body.transactions,
                              FeePoolAddress(s.epoch)).Some?
  {
    hide ApplyAll, HoldersOk, EpochsOk, NamesOk, Consistent, AssetsArePrimes;
    OnlyTransactionsRefuse(v, s, r, s.frontier);
    SoundAssets(s.accounts.money, s.frontier);
    BatchConserves(v.signatures, TxContext(s, s.frontier + 1), s.accounts, r.body.transactions, FeePoolAddress(s.epoch));
  }

  /** Nothing that is too old is kept, nothing is made up, what came later displaces nothing,
      and what is dropped though young enough did not apply after what came before it. */
  lemma {:induction false} RetainedExact(v: Verifier, s: State, txs: seq<Transaction>, aged: Transaction -> bool, i: nat)
    requires i < |txs|
    ensures forall tx :: tx in Retained(v, s, txs, aged) ==> tx in txs && !aged(tx)
    ensures Retained(v, s, txs[..i], aged) <= Retained(v, s, txs, aged)
    ensures aged(txs[i]) || txs[i] in Retained(v, s, txs, aged) || !Pending(v, s, Retained(v, s, txs[..i], aged) + [txs[i]])
  {
    hide Pending;
    var n := |txs| - 1;
    var init := txs[..n];
    assert txs == init + [txs[n]];
    if i < n {
      RetainedExact(v, s, init, aged, i);
      assert init[..i] == txs[..i] && init[i] == txs[i];
    } else if n > 0 {
      RetainedExact(v, s, init, aged, 0);
    }
  }

  lemma SortedSets(s: State, integer: nat)
    requires EpochsOk(s)
    ensures SetsSorted(TxContext(s, integer))
  {
  }

  /** On a node in order, a list that applies can be extended by exactly the transactions that
      are authorised and in form, add up, are funded by what the list leaves, and carry the next
      nonce of their sender. */
  lemma ExtensionIff(v: Verifier, s: State, txs: seq<Transaction>, tx: Transaction)
    requires StartedOk(s) && Pending(v, s, txs)
    ensures ApplyAll(v.signatures, TxContext(s, s.frontier + 1), s.accounts, txs).Some?
    ensures var ctx := TxContext(s, s.frontier + 1);
            var left := ApplyAll(v.signatures, ctx, s.accounts, txs).value.accounts;
            Pending(v, s, txs + [tx]) <==>
              && Authorised(v.signatures, ctx, tx) && InForm(ctx, left.money.balances, tx)
              && AddsUp(tx) && Funded(left.money.balances, tx)
              && tx.nonce == NonceOf(left.nonces, tx.sender) + 1
  {
    hide ApplyTx, HoldersOk, NamesOk, Consistent, AssetsArePrimes, EpochsOk, Authorised, InForm, AddsUp, Funded, SetsSorted, Accounted;
    var ctx := TxContext(s, s.frontier + 1);
    assert (txs + [tx])[..|txs|] == txs;
    SoundAssets(s.accounts.money, s.frontier);
    ApplyAllAccounted(v.signatures, ctx, s.accounts, txs);
    SortedSets(s, s.frontier + 1);
    var batch := ApplyAll(v.signatures, ctx, s.accounts, txs).value;
    AcceptedIff(v.signatures, ctx, batch, tx, s.accounts.money.supply);
  }
}
