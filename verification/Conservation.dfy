/**
 Transactions neither create nor destroy assets, and the overflow checks on their way never
 fire once the supply of every asset fits 64 bits.
 */
module Conservation {
  import opened Machine
  import opened Addresses
  import opened Records
  import opened Money
  import opened Transactions

  /** The books balance and every supply fits 64 bits. */
  ghost predicate Sound(m: Money) {
    Consistent(m) && forall p :: p in m.supply ==> m.supply[p] < TWO_64
  }

  // ---------------------------------------------------------------- debits

  lemma HeldOneChanged(b: Balances, c: Balances, k: Asset)
    requires b.Keys == c.Keys && k in b
    requires forall j :: j in b && j.prime == k.prime && j != k ==> b[j] == c[j]
    ensures Held(c, k.prime) == Held(b, k.prime) - b[k] + c[k]
  {
    var keys := Holders(b, k.prime);
    assert keys == Holders(c, k.prime);
    SumOverRemove(b, keys, k);
    SumOverRemove(c, keys, k);
    SumOverAgree(b, c, keys - {k});
  }

  lemma HeldUnchanged(b: Balances, c: Balances, p: nat)
    requires b.Keys == c.Keys
    requires forall j :: j in b && j.prime == p ==> b[j] == c[j]
    ensures Held(c, p) == Held(b, p)
  {
    assert Holders(b, p) == Holders(c, p);
    SumOverAgree(b, c, Holders(b, p));
  }

  /** No debit takes a supply below zero. */
  lemma DebitAllSupply(m: Money, owner: Address, totals: Supply, p: nat)
    requires Consistent(m) && Affords(m.balances, owner, totals)
    ensures p in totals ==> p in m.supply && totals[p] <= m.supply[p]
    ensures SupplyOf(LoweredSupply(m.supply, totals), p) == SupplyOf(m.supply, p) - SupplyOf(totals, p)
  {
    if p in totals {
      assert Asset(owner, p) in m.balances;
      BalanceWithinHeld(m.balances, Asset(owner, p));
    }
  }

  lemma LoweredHeld(b: Balances, owner: Address, totals: Supply, p: nat)
    requires Affords(b, owner, totals)
    ensures Held(Lowered(b, owner, totals), p) == Held(b, p) - SupplyOf(totals, p)
  {
    var c := Lowered(b, owner, totals);
    if p in totals {
      HeldOneChanged(b, c, Asset(owner, p));
    } else {
      HeldUnchanged(b, c, p);
    }
  }

  /** Taking the totals from one owner: the books still balance. */
  lemma DebitAllConsistent(m: Money, owner: Address, totals: Supply)
    requires Consistent(m) && DebitAll(m, owner, totals).Some?
    ensures Consistent(DebitAll(m, owner, totals).value)
    ensures DebitAll(m, owner, totals).value.supply.Keys == m.supply.Keys && totals.Keys <= m.supply.Keys
  {
    var next := DebitAll(m, owner, totals).value;
    forall p | p in totals
      ensures p in m.supply
    {
      DebitAllSupply(m, owner, totals, p);
    }
    forall p | p in next.supply
      ensures next.supply[p] == Held(next.balances, p)
    {
      DebitAllSupply(m, owner, totals, p);
      LoweredHeld(m.balances, owner, totals, p);
    }
    SameKeysSameAssets(m, next);
  }

  lemma SameKeysSameAssets(m: Money, next: Money)
    requires SameAssets(m) && next.balances.Keys == m.balances.Keys && next.supply.Keys == m.supply.Keys
    ensures SameAssets(next)
  {
    forall p | p in next.supply
      ensures exists k :: k in next.balances && k.prime == p
    {
      var k :| k in m.balances && k.prime == p;
      assert k in next.balances;
    }
  }

  // ---------------------------------------------------------------- credits

  lemma {:induction false} CreditOutputsConsistent(m: Money, outputs: seq<TxOutput>)
    requires Consistent(m) && CreditOutputs(m, outputs).Some?
    ensures Consistent(CreditOutputs(m, outputs).value)
  {
    if outputs != [] {
      var init, last := outputs[..|outputs| - 1], outputs[|outputs| - 1];
      CreditOutputsConsistent(m, init);
      CreditConsistent(CreditOutputs(m, init).value, Asset(last.receiver, last.prime), last.amount.numerator);
    }
  }

  /** Crediting outputs adds their totals to the supply. */
  lemma {:induction false} CreditOutputsSupply(m: Money, outputs: seq<TxOutput>, p: nat)
    requires CreditOutputs(m, outputs).Some? && OutputTotals(outputs).Some?
    ensures SupplyOf(CreditOutputs(m, outputs).value.supply, p) == SupplyOf(m.supply, p) + SupplyOf(OutputTotals(outputs).value, p)
    ensures p in CreditOutputs(m, outputs).value.supply <==> p in m.supply || p in OutputTotals(outputs).value
  {
    if outputs != [] {
      CreditOutputsSupply(m, outputs[..|outputs| - 1], p);
    }
  }

  /** It fails only when a supply would overflow. */
  lemma {:induction false} CreditOutputsFits(m: Money, outputs: seq<TxOutput>)
    requires Consistent(m) && OutputTotals(outputs).Some?
    requires forall p :: p in OutputTotals(outputs).value ==> SupplyOf(m.supply, p) + OutputTotals(outputs).value[p] < TWO_64
    ensures CreditOutputs(m, outputs).Some?
  {
    if outputs != [] {
      var init, last := outputs[..|outputs| - 1], outputs[|outputs| - 1];
      var before, totals := OutputTotals(init).value, OutputTotals(outputs).value;
      assert totals == before[last.prime := SupplyOf(before, last.prime) + last.amount.numerator];
      forall p | p in before
        ensures SupplyOf(m.supply, p) + before[p] < TWO_64
      {
        assert p in totals && before[p] <= totals[p];
      }
      CreditOutputsFits(m, init);
      CreditOutputsConsistent(m, init);
      CreditOutputsSupply(m, init, last.prime);
      CreditFits(CreditOutputs(m, init).value, Asset(last.receiver, last.prime), last.amount.numerator);
    }
  }

  // ---------------------------------------------------------------- one transaction

  /** The fee a transaction pays in an asset. */
  function FeeIn(tx: Transaction, p: nat): nat {
    if tx.fee.amount.numerator != 0 && tx.fee.prime == p then tx.fee.amount.numerator else 0
  }

  /** In a balanced transaction the inputs of an asset are its outputs and fee. */
  lemma BalancedTotals(tx: Transaction, p: nat)
    requires Balanced(tx)
    ensures OutputTotals(tx.outputs).Some?
    ensures SupplyOf(InputTotals(tx.inputs).value, p) == SupplyOf(OutputTotals(tx.outputs).value, p) + FeeIn(tx, p)
    ensures p in OutputTotals(tx.outputs).value ==> p in InputTotals(tx.inputs).value
    ensures FeeIn(tx, p) != 0 ==> p in InputTotals(tx.inputs).value
  {
  }

  /** Only an insufficient balance can refuse a balanced transaction. */
  lemma MoveSucceeds(m: Money, tx: Transaction)
    requires Sound(m) && Balanced(tx)
    ensures Move(m, tx).Some? <==> Affords(m.balances, Spender(tx), InputTotals(tx.inputs).value)
  {
    var totals := InputTotals(tx.inputs).value;
    var debited := DebitAll(m, Spender(tx), totals);
    if debited.Some? {
      DebitAllConsistent(m, Spender(tx), totals);
      BalancedTotals(tx, 0);
      var outputs := OutputTotals(tx.outputs).value;
      forall p | p in outputs
        ensures SupplyOf(debited.value.supply, p) + outputs[p] < TWO_64
      {
        BalancedTotals(tx, p);
        DebitAllSupply(m, Spender(tx), totals, p);
      }
      CreditOutputsFits(debited.value, tx.outputs);
    }
  }

  /** The fee is what the supply loses, nothing else. */
  lemma MoveSupply(m: Money, tx: Transaction, p: nat)
    requires Consistent(m) && Balanced(tx) && Move(m, tx).Some?
    ensures SupplyOf(Move(m, tx).value.supply, p) + FeeIn(tx, p) == SupplyOf(m.supply, p)
    ensures p in Move(m, tx).value.supply <==> p in m.supply
    ensures FeeIn(tx, p) != 0 ==> p in m.supply
  {
    var totals := InputTotals(tx.inputs).value;
    BalancedTotals(tx, p);
    DebitAllSupply(m, Spender(tx), totals, p);
    CreditOutputsSupply(DebitAll(m, Spender(tx), totals).value, tx.outputs, p);
  }

  lemma MoveConsistent(m: Money, tx: Transaction)
    requires Consistent(m) && Balanced(tx) && Move(m, tx).Some?
    ensures Consistent(Move(m, tx).value)
  {
    DebitAllConsistent(m, Spender(tx), InputTotals(tx.inputs).value);
    CreditOutputsConsistent(DebitAll(m, Spender(tx), InputTotals(tx.inputs).value).value, tx.outputs);
  }

  /** Supply and collected fees of an asset during a batch. */
  function Outstanding(batch: Batch, p: nat): nat {
    SupplyOf(batch.accounts.money.supply, p) + SupplyOf(batch.fees, p)
  }

  /** Supply and collected fees of an asset together are what its supply was. */
  ghost predicate AssetAccounted(batch: Batch, start: Supply, p: nat) {
    && Outstanding(batch, p) == SupplyOf(start, p)
    && (p in batch.accounts.money.supply <==> p in start)
    && (p in batch.fees ==> p in start)
  }

  /** A batch under way. */
  ghost predicate Accounted(batch: Batch, start: Supply) {
    Consistent(batch.accounts.money) && forall p :: AssetAccounted(batch, start, p)
  }

  ghost predicate Fits(start: Supply) {
    forall p :: p in start ==> start[p] < TWO_64
  }

  lemma SoundUnderWay(batch: Batch, start: Supply)
    requires Accounted(batch, start) && Fits(start)
    ensures Sound(batch.accounts.money)
  {
    forall p | p in batch.accounts.money.supply
      ensures batch.accounts.money.supply[p] < TWO_64
    {
      assert AssetAccounted(batch, start, p);
    }
  }

  /** Collecting a fee never overflows. */
  lemma FeeCollected(batch: Batch, tx: Transaction, start: Supply)
    requires Accounted(batch, start) && Fits(start) && Balanced(tx) && Move(batch.accounts.money, tx).Some?
    ensures CollectFee(batch.fees, tx).Some?
  {
    var p := tx.fee.prime;
    if tx.fee.amount.numerator != 0 {
      MoveSupply(batch.accounts.money, tx, p);
      assert AssetAccounted(batch, start, p);
    }
  }

  lemma FeeAdds(before: Supply, tx: Transaction, fees: Supply, p: nat)
    requires CollectFee(before, tx) == Some(fees)
    ensures SupplyOf(fees, p) == SupplyOf(before, p) + FeeIn(tx, p)
    ensures p in fees ==> p in before || FeeIn(tx, p) != 0
  {
  }

  lemma TxKeepsOutstanding(m: Money, before: Supply, tx: Transaction, next: Money, fees: Supply, p: nat)
    requires Consistent(m) && Balanced(tx) && Move(m, tx) == Some(next) && CollectFee(before, tx) == Some(fees)
    ensures SupplyOf(next.supply, p) + SupplyOf(fees, p) == SupplyOf(m.supply, p) + SupplyOf(before, p)
    ensures p in next.supply <==> p in m.supply
    ensures p in fees ==> p in before || p in m.supply
  {
    var fee, supply, left := FeeIn(tx, p), SupplyOf(m.supply, p), SupplyOf(next.supply, p);
    assert left + fee == supply && (p in next.supply <==> p in m.supply) && (fee != 0 ==> p in m.supply) by {
      MoveSupply(m, tx, p);
    }
    FeeAdds(before, tx, fees, p);
  }

  lemma MoveAccounted(batch: Batch, tx: Transaction, next: Batch, start: Supply)
    requires Accounted(batch, start) && Balanced(tx)
    requires Move(batch.accounts.money, tx) == Some(next.accounts.money) && CollectFee(batch.fees, tx) == Some(next.fees)
    ensures Accounted(next, start)
  {
    var m := batch.accounts.money;
    MoveConsistent(m, tx);
    forall p: nat
      ensures AssetAccounted(next, start, p)
    {
      assert AssetAccounted(batch, start, p);
      TxKeepsOutstanding(m, batch.fees, tx, next.accounts.money, next.fees, p);
    }
  }

  lemma ApplyTxAccounted(sigs: Signatures, ctx: Context, batch: Batch, tx: Transaction, start: Supply)
    requires Accounted(batch, start) && ApplyTx(sigs, ctx, batch, tx).Some?
    ensures Accounted(ApplyTx(sigs, ctx, batch, tx).value, start)
  {
    MoveAccounted(batch, tx, ApplyTx(sigs, ctx, batch, tx).value, start);
  }

  /** Given the checks on its form, only an insufficient balance refuses a transaction: the
      overflow checks of its credits and of the fee collection never fire. */
  lemma OnlyBalanceRefuses(sigs: Signatures, ctx: Context, batch: Batch, tx: Transaction, start: Supply)
    requires Accounted(batch, start) && Fits(start)
    ensures ApplyTx(sigs, ctx, batch, tx).Some?
      <==> Admissible(sigs, ctx, batch.accounts, tx) && Balanced(tx)
           && Affords(batch.accounts.money.balances, Spender(tx), InputTotals(tx.inputs).value)
  {
    if Balanced(tx) {
      SoundUnderWay(batch, start);
      MoveSucceeds(batch.accounts.money, tx);
      if Move(batch.accounts.money, tx).Some? {
        FeeCollected(batch, tx, start);
      }
    }
  }

  lemma {:induction false} ApplyAllAccounted(sigs: Signatures, ctx: Context, accounts: Accounts, txs: seq<Transaction>)
    requires Sound(accounts.money) && ApplyAll(sigs, ctx, accounts, txs).Some?
    ensures Accounted(ApplyAll(sigs, ctx, accounts, txs).value, accounts.money.supply)
  {
    if txs != [] {
      ApplyAllAccounted(sigs, ctx, accounts, txs[..|txs| - 1]);
      ApplyTxAccounted(sigs, ctx, ApplyAll(sigs, ctx, accounts, txs[..|txs| - 1]).value, txs[|txs| - 1], accounts.money.supply);
    }
  }

  // ---------------------------------------------------------------- fees

  lemma RaisedHeld(b: Balances, to: Address, fees: Supply, p: nat)
    ensures Held(Raised(b, to, fees), p) == Held(b, p) + SupplyOf(fees, p)
  {
    var c, k := Raised(b, to, fees), Asset(to, p);
    if p in fees {
      var alone := b[k := BalanceOf(b, k) + fees[p]];
      HeldUpdate(b, k, BalanceOf(b, k) + fees[p], p);
      assert Holders(c, p) == Holders(alone, p);
      SumOverAgree(c, alone, Holders(alone, p));
    } else {
      assert Holders(c, p) == Holders(b, p);
      SumOverAgree(c, b, Holders(b, p));
    }
  }

  /** Paying the collected fees cannot overflow. */
  lemma CreditFeesFits(batch: Batch, to: Address, start: Supply)
    requires Accounted(batch, start) && Fits(start)
    ensures CreditFees(batch.accounts.money, to, batch.fees).Some?
  {
    var m, fees := batch.accounts.money, batch.fees;
    forall p | p in fees
      ensures Credit(m, Asset(to, p), fees[p]).Some?
    {
      CreditFits(m, Asset(to, p), fees[p]);
      assert AssetAccounted(batch, start, p);
    }
  }

  /** Paying the collected fees restores the supply. */
  lemma CreditFeesRestores(batch: Batch, to: Address, start: Supply)
    requires Accounted(batch, start) && CreditFees(batch.accounts.money, to, batch.fees).Some?
    ensures CreditFees(batch.accounts.money, to, batch.fees).value.supply == start
    ensures Consistent(CreditFees(batch.accounts.money, to, batch.fees).value)
  {
    SupplyRestored(batch, start);
    RaisedConsistent(batch.accounts.money, to, batch.fees);
  }

  lemma SupplyRestored(batch: Batch, start: Supply)
    requires forall p :: AssetAccounted(batch, start, p)
    ensures RaisedSupply(batch.accounts.money.supply, batch.fees) == start
  {
    var next := RaisedSupply(batch.accounts.money.supply, batch.fees);
    forall p: nat
      ensures p in next <==> p in start
      ensures p in start ==> next[p] == start[p]
    {
      assert AssetAccounted(batch, start, p);
    }
  }

  lemma RaisedConsistent(m: Money, to: Address, fees: Supply)
    requires Consistent(m)
    ensures Consistent(Money(Raised(m.balances, to, fees), RaisedSupply(m.supply, fees)))
  {
    var next := Money(Raised(m.balances, to, fees), RaisedSupply(m.supply, fees));
    forall p | p in next.supply
      ensures next.supply[p] == Held(next.balances, p)
    {
      RaisedHeld(m.balances, to, fees, p);
      ConsistentSupply(m, p);
    }
    MoreAssets(m, next, to, fees);
  }

  lemma MoreAssets(m: Money, next: Money, to: Address, fees: Supply)
    requires SameAssets(m) && next.balances == Raised(m.balances, to, fees) && next.supply == RaisedSupply(m.supply, fees)
    ensures SameAssets(next)
  {
    forall p | p in next.supply
      ensures exists k :: k in next.balances && k.prime == p
    {
      if p in m.supply {
        var k :| k in m.balances && k.prime == p;
        assert k in next.balances;
      } else {
        assert Asset(to, p) in next.balances;
      }
    }
  }

  /** Conservation: a batch with a fee recipient leaves the supply of every asset exactly as
      it was and the books balanced; paying the fees never refuses it. */
  lemma BatchConserves(sigs: Signatures, ctx: Context, accounts: Accounts, txs: seq<Transaction>, to: Address)
    requires Sound(accounts.money) && to != ""
    ensures ApplyTransactions(sigs, ctx, accounts, txs, to).Some? <==> ApplyAll(sigs, ctx, accounts, txs).Some?
    ensures ApplyTransactions(sigs, ctx, accounts, txs, to).Some? ==>
              var next := ApplyTransactions(sigs, ctx, accounts, txs, to).value;
              next.money.supply == accounts.money.supply && Consistent(next.money)
  {
    if ApplyAll(sigs, ctx, accounts, txs).Some? {
      ApplyAllAccounted(sigs, ctx, accounts, txs);
      CreditFeesFits(ApplyAll(sigs, ctx, accounts, txs).value, to, accounts.money.supply);
      CreditFeesRestores(ApplyAll(sigs, ctx, accounts, txs).value, to, accounts.money.supply);
    }
  }
}
