/**
 Who pays and who is paid (src/node/sequential_node.cpp, applyTransactions): the balance of
 every account after a transaction, a batch and a pool distribution.
 */
module Payments {
  import opened Machine
  import opened Addresses
  import opened ProtocolAddresses
  import opened Records
  import opened Money
  import opened Transactions
  import opened Conservation
  import opened Distribution

  // ---------------------------------------------------------------- amounts

  /** What the inputs take of an asset. */
  function Spent(inputs: seq<TxInput>, p: nat): nat {
    if inputs == [] then 0
    else (if inputs[0].prime == p then inputs[0].amount.numerator else 0) + Spent(inputs[1..], p)
  }

  /** What the outputs give to an account. */
  function Received(outputs: seq<TxOutput>, k: Asset): nat {
    if outputs == [] then 0
    else (if outputs[0].receiver == k.owner && outputs[0].prime == k.prime then outputs[0].amount.numerator else 0)
         + Received(outputs[1..], k)
  }

  /** What the outputs give of an asset, to anyone. */
  function Given(outputs: seq<TxOutput>, p: nat): nat {
    if outputs == [] then 0
    else (if outputs[0].prime == p then outputs[0].amount.numerator else 0) + Given(outputs[1..], p)
  }

  lemma {:induction false} SpentOneMore(inputs: seq<TxInput>, x: TxInput, p: nat)
    ensures Spent(inputs + [x], p) == Spent(inputs, p) + if x.prime == p then x.amount.numerator else 0
  {
    if inputs == [] {
      assert ([] + [x])[1..] == [];
    } else {
      SpentOneMore(inputs[1..], x, p);
      assert (inputs + [x])[1..] == inputs[1..] + [x];
    }
  }

  lemma {:induction false} ReceivedOneMore(outputs: seq<TxOutput>, x: TxOutput, k: Asset)
    ensures Received(outputs + [x], k)
         == Received(outputs, k) + if x.receiver == k.owner && x.prime == k.prime then x.amount.numerator else 0
  {
    if outputs == [] {
      assert ([] + [x])[1..] == [];
    } else {
      ReceivedOneMore(outputs[1..], x, k);
      assert (outputs + [x])[1..] == outputs[1..] + [x];
    }
  }

  lemma {:induction false} GivenOneMore(outputs: seq<TxOutput>, x: TxOutput, p: nat)
    ensures Given(outputs + [x], p) == Given(outputs, p) + if x.prime == p then x.amount.numerator else 0
  {
    if outputs == [] {
      assert ([] + [x])[1..] == [];
    } else {
      GivenOneMore(outputs[1..], x, p);
      assert (outputs + [x])[1..] == outputs[1..] + [x];
    }
  }

  /** Whole micro-units, at least one. */
  predicate Whole(a: Amount) {
    a.denominator == 1 && a.numerator >= 1
  }

  /** The totals of the inputs are their sums; they are whole amounts. */
  lemma {:induction false} InputTotalsAre(inputs: seq<TxInput>, p: nat)
    requires InputTotals(inputs).Some?
    ensures SupplyOf(InputTotals(inputs).value, p) == Spent(inputs, p) < TWO_64
    ensures forall i :: 0 <= i < |inputs| ==> Whole(inputs[i].amount)
  {
    if inputs != [] {
      var n := |inputs| - 1;
      InputTotalsAre(inputs[..n], p);
      assert inputs == inputs[..n] + [inputs[n]];
      SpentOneMore(inputs[..n], inputs[n], p);
    }
  }

  lemma {:induction false} OutputTotalsAre(outputs: seq<TxOutput>, p: nat)
    requires OutputTotals(outputs).Some?
    ensures SupplyOf(OutputTotals(outputs).value, p) == Given(outputs, p)
    ensures forall i :: 0 <= i < |outputs| ==> Whole(outputs[i].amount) && IsProtocolAddress(outputs[i].receiver)
  {
    hide IsProtocolAddress;
    if outputs != [] {
      var n := |outputs| - 1;
      OutputTotalsAre(outputs[..n], p);
      assert outputs == outputs[..n] + [outputs[n]];
      GivenOneMore(outputs[..n], outputs[n], p);
    }
  }

  lemma {:induction false} CreditOutputsBalance(m: Money, outputs: seq<TxOutput>, k: Asset)
    requires CreditOutputs(m, outputs).Some?
    ensures BalanceOf(CreditOutputs(m, outputs).value.balances, k) == BalanceOf(m.balances, k) + Received(outputs, k)
  {
    if outputs != [] {
      var n := |outputs| - 1;
      CreditOutputsBalance(m, outputs[..n], k);
      assert outputs == outputs[..n] + [outputs[n]];
      ReceivedOneMore(outputs[..n], outputs[n], k);
    }
  }

  // ---------------------------------------------------------------- one transaction

  /** Who pays: the sender, or its reserve when it unlocks it. */
  function Payer(tx: Transaction): Address {
    if tx.version == 8 then ReserveAddress(tx.sender) else tx.sender
  }

  lemma PayerSpends(sigs: Signatures, ctx: Context, tx: Transaction)
    requires SignatureOk(sigs, ctx, tx)
    ensures Spender(tx) == Payer(tx)
  {
  }

  lemma MoveBalance(m: Money, tx: Transaction, k: Asset)
    requires InputTotals(tx.inputs).Some? && Move(m, tx).Some?
    ensures BalanceOf(Move(m, tx).value.balances, k) + (if k.owner == Spender(tx) then Spent(tx.inputs, k.prime) else 0)
         == BalanceOf(m.balances, k) + Received(tx.outputs, k)
  {
    var totals := InputTotals(tx.inputs).value;
    var debited := DebitAll(m, Spender(tx), totals).value;
    InputTotalsAre(tx.inputs, k.prime);
    CreditOutputsBalance(debited, tx.outputs, k);
    if k.owner == Spender(tx) && k.prime in totals {
      assert Asset(Spender(tx), k.prime) == k;
    }
  }

  /** Every balance after an accepted transaction: what it was, less what the transaction takes
      if the account pays, and what its outputs give to the account. */
  lemma TransactionMoves(sigs: Signatures, ctx: Context, batch: Batch, tx: Transaction, k: Asset)
    requires ApplyTx(sigs, ctx, batch, tx).Some?
    ensures var next := ApplyTx(sigs, ctx, batch, tx).value.accounts.money.balances;
            BalanceOf(next, k) + (if k.owner == Payer(tx) then Spent(tx.inputs, k.prime) else 0)
            == BalanceOf(batch.accounts.money.balances, k) + Received(tx.outputs, k)
  {
    PayerSpends(sigs, ctx, tx);
    MoveBalance(batch.accounts.money, tx, k);
  }

  /** An accepted transaction takes of every asset what it gives and pays as fee, in whole
      amounts, and its fee is set aside. */
  lemma TransactionBalances(sigs: Signatures, ctx: Context, batch: Batch, tx: Transaction, p: nat)
    requires ApplyTx(sigs, ctx, batch, tx).Some?
    ensures Spent(tx.inputs, p) == Given(tx.outputs, p) + if tx.fee.prime == p then tx.fee.amount.numerator else 0
    ensures SupplyOf(ApplyTx(sigs, ctx, batch, tx).value.fees, p)
         == SupplyOf(batch.fees, p) + if tx.fee.prime == p then tx.fee.amount.numerator else 0
    ensures forall i :: 0 <= i < |tx.inputs| ==> Whole(tx.inputs[i].amount)
    ensures forall i :: 0 <= i < |tx.outputs| ==> Whole(tx.outputs[i].amount) && IsProtocolAddress(tx.outputs[i].receiver)
    ensures tx.fee.amount.denominator == 1
  {
    hide IsProtocolAddress, Admissible, Move;
    BalancedTotals(tx, p);
    InputTotalsAre(tx.inputs, p);
    OutputTotalsAre(tx.outputs, p);
    FeeAdds(batch.fees, tx, ApplyTx(sigs, ctx, batch, tx).value.fees, p);
    FeeIsWhole(sigs, ctx, batch.accounts, tx);
  }

  lemma FeeIsWhole(sigs: Signatures, ctx: Context, accounts: Accounts, tx: Transaction)
    requires Admissible(sigs, ctx, accounts, tx)
    ensures tx.fee.amount.denominator == 1
  {
  }

  // ---------------------------------------------------------------- a batch

  /** What a batch takes from an account. */
  function TakenFrom(txs: seq<Transaction>, k: Asset): nat {
    if txs == [] then 0
    else (if Payer(txs[0]) == k.owner then Spent(txs[0].inputs, k.prime) else 0) + TakenFrom(txs[1..], k)
  }

  /** What the outputs of a batch give to an account. */
  function GivenTo(txs: seq<Transaction>, k: Asset): nat {
    if txs == [] then 0 else Received(txs[0].outputs, k) + GivenTo(txs[1..], k)
  }

  /** The fees of a batch in an asset. */
  function Fees(txs: seq<Transaction>, p: nat): nat {
    if txs == [] then 0 else (if txs[0].fee.prime == p then txs[0].fee.amount.numerator else 0) + Fees(txs[1..], p)
  }

  lemma {:induction false} BatchOneMore(txs: seq<Transaction>, tx: Transaction, k: Asset)
    ensures TakenFrom(txs + [tx], k) == TakenFrom(txs, k) + if Payer(tx) == k.owner then Spent(tx.inputs, k.prime) else 0
    ensures GivenTo(txs + [tx], k) == GivenTo(txs, k) + Received(tx.outputs, k)
    ensures Fees(txs + [tx], k.prime) == Fees(txs, k.prime) + if tx.fee.prime == k.prime then tx.fee.amount.numerator else 0
  {
    if txs == [] {
      assert ([] + [tx])[1..] == [];
    } else {
      BatchOneMore(txs[1..], tx, k);
      assert (txs + [tx])[1..] == txs[1..] + [tx];
    }
  }

  lemma {:induction false} ApplyAllBalance(sigs: Signatures, ctx: Context, accounts: Accounts, txs: seq<Transaction>, k: Asset)
    requires ApplyAll(sigs, ctx, accounts, txs).Some?
    ensures var batch := ApplyAll(sigs, ctx, accounts, txs).value;
            && BalanceOf(batch.accounts.money.balances, k) + TakenFrom(txs, k)
               == BalanceOf(accounts.money.balances, k) + GivenTo(txs, k)
            && SupplyOf(batch.fees, k.prime) == Fees(txs, k.prime)
  {
    hide ApplyTx, Spent, Received, Payer;
    if txs != [] {
      var n := |txs| - 1;
      var before := ApplyAll(sigs, ctx, accounts, txs[..n]).value;
      ApplyAllBalance(sigs, ctx, accounts, txs[..n], k);
      assert txs == txs[..n] + [txs[n]];
      BatchOneMore(txs[..n], txs[n], k);
      TransactionMoves(sigs, ctx, before, txs[n], k);
      TransactionBalances(sigs, ctx, before, txs[n], k.prime);
    }
  }

  /** Every balance after an accepted batch: what it was, less what its transactions take from
      the account, what their outputs give it, and all their fees if it is the recipient's. */
  lemma BatchMoves(sigs: Signatures, ctx: Context, accounts: Accounts, txs: seq<Transaction>, to: Address, k: Asset)
    requires ApplyTransactions(sigs, ctx, accounts, txs, to).Some?
    ensures var next := ApplyTransactions(sigs, ctx, accounts, txs, to).value.money.balances;
            BalanceOf(next, k) + TakenFrom(txs, k)
            == BalanceOf(accounts.money.balances, k) + GivenTo(txs, k)
               + if to != "" && k.owner == to then Fees(txs, k.prime) else 0
  {
    hide ApplyAll, TakenFrom, GivenTo, Fees;
    ApplyAllBalance(sigs, ctx, accounts, txs, k);
  }

  // ---------------------------------------------------------------- distributions

  /** An account named by no output receives nothing; one named once receives that output. */
  lemma {:induction false} ReceivedNothing(outputs: seq<TxOutput>, k: Asset)
    requires forall i :: 0 <= i < |outputs| ==> outputs[i].receiver != k.owner || outputs[i].prime != k.prime
    ensures Received(outputs, k) == 0
  {
    if outputs != [] {
      ReceivedNothing(outputs[1..], k);
    }
  }

  lemma {:induction false} ReceivedOnce(outputs: seq<TxOutput>, k: Asset, i: nat)
    requires i < |outputs| && outputs[i].receiver == k.owner && outputs[i].prime == k.prime
    requires forall j :: 0 <= j < |outputs| && j != i ==> outputs[j].receiver != k.owner
    ensures Received(outputs, k) == outputs[i].amount.numerator
  {
    if i == 0 {
      ReceivedNothing(outputs[1..], k);
    } else {
      assert outputs[0].receiver != k.owner;
      ReceivedOnce(outputs[1..], k, i - 1);
    }
  }

  lemma ReceiversDiffer(outputs: seq<TxOutput>, i: nat, j: nat)
    requires Ascending(Receivers(outputs)) && i < |outputs| && j < |outputs| && i != j
    ensures outputs[i].receiver != outputs[j].receiver
  {
    var rs := Receivers(outputs);
    if i < j {
      AscendingOrders(rs, i, j);
    } else {
      AscendingOrders(rs, j, i);
    }
    LessIrreflexive(rs[i]);
  }

  /** A distribution of a pool among n receivers raises the balance of the i-th by the n-th
      part of the pool, and by one more if i is below the remainder; it takes the whole pool,
      and changes no other balance. */
  lemma DistributionRaises(sigs: Signatures, ctx: Context, batch: Batch, tx: Transaction, k: Asset)
    requires ApplyTx(sigs, ctx, batch, tx).Some? && IsDistribution(tx, ctx) && CanonicalSet(Members(ctx, tx))
    ensures tx.inputs != [] && tx.outputs != []
    ensures var before, next := batch.accounts.money.balances, ApplyTx(sigs, ctx, batch, tx).value.accounts.money.balances;
            var p, n := tx.inputs[0].prime, |tx.outputs|;
            var pool := BalanceOf(before, Asset(tx.sender, p));
            && (forall i :: 0 <= i < n && k == Asset(tx.outputs[i].receiver, p) ==>
                  BalanceOf(next, k) == BalanceOf(before, k) + pool / n + if i < pool % n then 1 else 0)
            && (k == Asset(tx.sender, p) ==> BalanceOf(next, k) == 0)
            && (k != Asset(tx.sender, p) && (forall i :: 0 <= i < n ==> k != Asset(tx.outputs[i].receiver, p)) ==>
                  BalanceOf(next, k) == BalanceOf(before, k))
  {
    var p, n := tx.inputs[0].prime, |tx.outputs|;
    DistributionShape(sigs, ctx, batch, tx);
    DistributionPays(sigs, ctx, batch, tx);
    DistributionMoves(sigs, ctx, batch, tx, k);
    hide ApplyTx, IsSignatureAddress, InOrder;
    if exists i :: 0 <= i < n && k == Asset(tx.outputs[i].receiver, p) {
      var i :| 0 <= i < n && k == Asset(tx.outputs[i].receiver, p);
      forall j | 0 <= j < n && j != i
        ensures tx.outputs[j].receiver != k.owner
      {
        ReceiversDiffer(tx.outputs, i, j);
      }
      ReceivedOnce(tx.outputs, k, i);
    } else {
      forall i | 0 <= i < n
        ensures tx.outputs[i].receiver != k.owner || tx.outputs[i].prime != k.prime
      {
        assert k != Asset(tx.outputs[i].receiver, p);
      }
      ReceivedNothing(tx.outputs, k);
    }
  }

  /** What a distribution moves, the receivers being members and so no pool. */
  lemma DistributionMoves(sigs: Signatures, ctx: Context, batch: Batch, tx: Transaction, k: Asset)
    requires ApplyTx(sigs, ctx, batch, tx).Some? && IsDistribution(tx, ctx) && CanonicalSet(Members(ctx, tx)) && |tx.inputs| == 1
    ensures var before, next := batch.accounts.money.balances, ApplyTx(sigs, ctx, batch, tx).value.accounts.money.balances;
            var pool := Asset(tx.sender, tx.inputs[0].prime);
            BalanceOf(next, k) == (if k == pool then 0 else BalanceOf(before, k)) + Received(tx.outputs, k)
    ensures forall i :: 0 <= i < |tx.outputs| ==> tx.outputs[i].receiver != tx.sender
  {
    DistributionShape(sigs, ctx, batch, tx);
    DistributionPays(sigs, ctx, batch, tx);
    PoolIsNoSigner(tx, ctx);
    TransactionMoves(sigs, ctx, batch, tx, k);
    hide ApplyTx, IsSignatureAddress, InOrder;
    forall i | 0 <= i < |tx.outputs|
      ensures tx.outputs[i].receiver != tx.sender
    {
      assert Receivers(tx.outputs)[i] in Receivers(tx.outputs);
    }
    assert tx.inputs[1..] == [] && Payer(tx) == tx.sender;
  }
}
