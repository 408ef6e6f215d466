/**
 Exactly which transactions are accepted (src/node/sequential_node.cpp, applyTransactions):
 who may send which kind, what it must add up to, and what the payer must own.
 */
module Acceptance {
  import opened Machine
  import opened Addresses
  import opened Divisibility
  import opened ProtocolAddresses
  import opened Records
  import opened Money
  import opened Transactions
  import opened Conservation
  import opened Distribution
  import opened Payments

  // ---------------------------------------------------------------- sums

  predicate InputsWhole(inputs: seq<TxInput>) {
    forall i :: 0 <= i < |inputs| ==> Whole(inputs[i].amount)
  }

  predicate OutputsWhole(outputs: seq<TxOutput>) {
    forall i :: 0 <= i < |outputs| ==> Whole(outputs[i].amount) && IsProtocolAddress(outputs[i].receiver)
  }

  predicate NamesInput(inputs: seq<TxInput>, p: nat) {
    exists i :: 0 <= i < |inputs| && inputs[i].prime == p
  }

  predicate NamesOutput(outputs: seq<TxOutput>, p: nat) {
    exists i :: 0 <= i < |outputs| && outputs[i].prime == p
  }

  lemma InputOneMore(init: seq<TxInput>, x: TxInput)
    ensures forall p :: Spent(init + [x], p) == Spent(init, p) + if x.prime == p then x.amount.numerator else 0
    ensures forall p :: NamesInput(init + [x], p) <==> NamesInput(init, p) || x.prime == p
    ensures InputsWhole(init + [x]) <==> InputsWhole(init) && Whole(x.amount)
    ensures (forall p :: Spent(init + [x], p) < TWO_64)
       <==> (forall p :: Spent(init, p) < TWO_64) && Spent(init + [x], x.prime) < TWO_64
  {
    var n := |init|;
    forall p: nat
      ensures Spent(init + [x], p) == Spent(init, p) + if x.prime == p then x.amount.numerator else 0
      ensures NamesInput(init + [x], p) <==> NamesInput(init, p) || x.prime == p
    {
      SpentOneMore(init, x, p);
      assert (init + [x])[n] == x;
      if NamesInput(init, p) {
        var i :| 0 <= i < n && init[i].prime == p;
        assert (init + [x])[i].prime == p;
      }
    }
    if InputsWhole(init + [x]) {
      assert (init + [x])[n] == x;
      assert forall i :: 0 <= i < n ==> init[i] == (init + [x])[i];
    }
    if forall p :: Spent(init + [x], p) < TWO_64 {
      forall p: nat
        ensures Spent(init, p) < TWO_64
      {
        assert Spent(init + [x], p) < TWO_64;
      }
    }
  }

  /** The inputs can be added up exactly when they are whole and no sum reaches 64 bits. */
  lemma {:induction false} InputTotalsIff(inputs: seq<TxInput>)
    ensures InputTotals(inputs).Some? <==> InputsWhole(inputs) && forall p :: Spent(inputs, p) < TWO_64
    ensures InputTotals(inputs).Some? ==> forall p :: p in InputTotals(inputs).value <==> NamesInput(inputs, p)
  {
    if inputs != [] {
      var n := |inputs| - 1;
      var init, x := inputs[..n], inputs[n];
      InputTotalsIff(init);
      assert inputs == init + [x];
      InputOneMore(init, x);
      if InputTotals(init).Some? {
        InputTotalsAre(init, x.prime);
        assert Spent(init + [x], x.prime) == Spent(init, x.prime) + x.amount.numerator;
      }
    }
  }


  lemma OutputOneMore(init: seq<TxOutput>, x: TxOutput)
    ensures forall p :: Given(init + [x], p) == Given(init, p) + if x.prime == p then x.amount.numerator else 0
    ensures forall p :: NamesOutput(init + [x], p) <==> NamesOutput(init, p) || x.prime == p
    ensures OutputsWhole(init + [x]) <==> OutputsWhole(init) && Whole(x.amount) && IsProtocolAddress(x.receiver)
    ensures (forall p :: Given(init + [x], p) < TWO_64)
       <==> (forall p :: Given(init, p) < TWO_64) && Given(init + [x], x.prime) < TWO_64
  {
    hide IsProtocolAddress;
    var n := |init|;
    forall p: nat
      ensures Given(init + [x], p) == Given(init, p) + if x.prime == p then x.amount.numerator else 0
      ensures NamesOutput(init + [x], p) <==> NamesOutput(init, p) || x.prime == p
    {
      GivenOneMore(init, x, p);
      assert (init + [x])[n] == x;
      if NamesOutput(init, p) {
        var i :| 0 <= i < n && init[i].prime == p;
        assert (init + [x])[i].prime == p;
      }
    }
    if OutputsWhole(init + [x]) {
      assert (init + [x])[n] == x;
      assert forall i :: 0 <= i < n ==> init[i] == (init + [x])[i];
    }
    if forall p :: Given(init + [x], p) < TWO_64 {
      forall p: nat
        ensures Given(init, p) < TWO_64
      {
        assert Given(init + [x], p) < TWO_64;
      }
    }
  }

  lemma {:induction false} OutputTotalsIff(outputs: seq<TxOutput>)
    ensures OutputTotals(outputs).Some? <==> OutputsWhole(outputs) && forall p :: Given(outputs, p) < TWO_64
    ensures OutputTotals(outputs).Some? ==> forall p :: p in OutputTotals(outputs).value <==> NamesOutput(outputs, p)
  {
    hide IsProtocolAddress;
    if outputs != [] {
      var n := |outputs| - 1;
      var init, x := outputs[..n], outputs[n];
      OutputTotalsIff(init);
      assert outputs == init + [x];
      OutputOneMore(init, x);
      if OutputTotals(init).Some? {
        OutputTotalsAre(init, x.prime);
        assert Given(init + [x], x.prime) == Given(init, x.prime) + x.amount.numerator;
      }
    }
  }


  lemma {:induction false} NamedIsSpent(inputs: seq<TxInput>, p: nat)
    requires InputsWhole(inputs)
    ensures Spent(inputs, p) > 0 <==> NamesInput(inputs, p)
  {
    if inputs != [] {
      NamedIsSpent(inputs[1..], p);
      assert Whole(inputs[0].amount);
      if NamesInput(inputs, p) && inputs[0].prime != p {
        var i :| 0 <= i < |inputs| && inputs[i].prime == p;
        assert inputs[1..][i - 1].prime == p;
      }
      if NamesInput(inputs[1..], p) {
        var i :| 0 <= i < |inputs[1..]| && inputs[1..][i].prime == p;
        assert inputs[i + 1].prime == p;
      }
    }
  }

  lemma {:induction false} NamedIsGiven(outputs: seq<TxOutput>, p: nat)
    requires forall i :: 0 <= i < |outputs| ==> Whole(outputs[i].amount)
    ensures Given(outputs, p) > 0 <==> NamesOutput(outputs, p)
  {
    if outputs != [] {
      NamedIsGiven(outputs[1..], p);
      assert Whole(outputs[0].amount);
      if NamesOutput(outputs, p) && outputs[0].prime != p {
        var i :| 0 <= i < |outputs| && outputs[i].prime == p;
        assert outputs[1..][i - 1].prime == p;
      }
      if NamesOutput(outputs[1..], p) {
        var i :| 0 <= i < |outputs[1..]| && outputs[1..][i].prime == p;
        assert outputs[i + 1].prime == p;
      }
    }
  }

  function FeePaid(tx: Transaction, p: nat): nat {
    if tx.fee.prime == p then tx.fee.amount.numerator else 0
  }

  /** Whole amounts to protocol addresses, and of every asset as much spent as given and paid
      in fees. */
  ghost predicate AddsUp(tx: Transaction) {
    && InputsWhole(tx.inputs) && OutputsWhole(tx.outputs)
    && forall p :: Spent(tx.inputs, p) == Given(tx.outputs, p) + FeePaid(tx, p) < TWO_64
  }

  lemma CreditTotalsAre(tx: Transaction)
    requires OutputTotals(tx.outputs).Some?
    ensures CreditTotals(tx).Some? <==> forall p :: Given(tx.outputs, p) + FeePaid(tx, p) < TWO_64
    ensures CreditTotals(tx).Some? ==>
              forall p :: && SupplyOf(CreditTotals(tx).value, p) == Given(tx.outputs, p) + FeePaid(tx, p)
                          && (p in CreditTotals(tx).value <==> NamesOutput(tx.outputs, p) || FeePaid(tx, p) > 0)
  {
    OutputTotalsIff(tx.outputs);
    forall p: nat
      ensures SupplyOf(OutputTotals(tx.outputs).value, p) == Given(tx.outputs, p)
    {
      OutputTotalsAre(tx.outputs, p);
    }
    assert Given(tx.outputs, tx.fee.prime) + FeePaid(tx, tx.fee.prime)
        == SupplyOf(OutputTotals(tx.outputs).value, tx.fee.prime) + tx.fee.amount.numerator;
  }

  lemma SameTotals(a: Supply, b: Supply)
    requires forall p :: (p in a <==> p in b) && SupplyOf(a, p) == SupplyOf(b, p)
    ensures a == b
  {
    forall p | p in a
      ensures p in b && a[p] == b[p]
    {
      assert SupplyOf(a, p) == SupplyOf(b, p);
    }
    assert forall p :: p in b ==> p in a;
  }

  /** The balance check on a transaction is that it adds up. */
  lemma BalancedIff(tx: Transaction)
    ensures Balanced(tx) <==> AddsUp(tx)
  {
    InputTotalsIff(tx.inputs);
    OutputTotalsIff(tx.outputs);
    if InputTotals(tx.inputs).Some? && OutputTotals(tx.outputs).Some? {
      BalancedWhenWhole(tx);
    }
    if Balanced(tx) {
      BalancedTotals(tx, 0);
    }
    if AddsUp(tx) {
      forall p
        ensures Spent(tx.inputs, p) < TWO_64 && Given(tx.outputs, p) < TWO_64
      {
        assert Spent(tx.inputs, p) == Given(tx.outputs, p) + FeePaid(tx, p);
      }
    }
  }

  lemma BalancedWhenWhole(tx: Transaction)
    requires InputTotals(tx.inputs).Some? && OutputTotals(tx.outputs).Some?
    ensures Balanced(tx) <==> forall p :: Spent(tx.inputs, p) == Given(tx.outputs, p) + FeePaid(tx, p) < TWO_64
  {
    InputTotalsIff(tx.inputs);
    OutputTotalsIff(tx.outputs);
    CreditTotalsAre(tx);
    forall p: nat
      ensures SupplyOf(InputTotals(tx.inputs).value, p) == Spent(tx.inputs, p)
      ensures Spent(tx.inputs, p) > 0 <==> NamesInput(tx.inputs, p)
      ensures Given(tx.outputs, p) > 0 <==> NamesOutput(tx.outputs, p)
    {
      InputTotalsAre(tx.inputs, p);
      NamedIsSpent(tx.inputs, p);
      NamedIsGiven(tx.outputs, p);
    }
    if forall p :: Spent(tx.inputs, p) == Given(tx.outputs, p) + FeePaid(tx, p) < TWO_64 {
      SameTotals(InputTotals(tx.inputs).value, CreditTotals(tx).value);
    }
    if Balanced(tx) {
      forall p: nat
        ensures Spent(tx.inputs, p) == Given(tx.outputs, p) + FeePaid(tx, p)
      {
        assert SupplyOf(CreditTotals(tx).value, p) == Given(tx.outputs, p) + FeePaid(tx, p);
      }
    }
  }

  /** The payer owns at least what is spent, of every asset. */
  ghost predicate Funded(b: Balances, tx: Transaction) {
    forall p :: Spent(tx.inputs, p) <= BalanceOf(b, Asset(Payer(tx), p))
  }

  lemma AffordsIff(b: Balances, owner: Address, inputs: seq<TxInput>)
    requires InputTotals(inputs).Some?
    ensures Affords(b, owner, InputTotals(inputs).value) <==> forall p :: Spent(inputs, p) <= BalanceOf(b, Asset(owner, p))
  {
    var totals := InputTotals(inputs).value;
    InputTotalsIff(inputs);
    forall p: nat
      ensures SupplyOf(totals, p) == Spent(inputs, p) < TWO_64
      ensures p in totals <==> Spent(inputs, p) > 0
    {
      InputTotalsAre(inputs, p);
      NamedIsSpent(inputs, p);
    }
  }

  // ---------------------------------------------------------------- even shares

  function Sum(a: seq<nat>): nat {
    if a == [] then 0 else Sum(a[..|a| - 1]) + a[|a| - 1]
  }

  lemma {:induction false} SumOfSteps(a: seq<nat>, q: nat, c: nat)
    requires forall i :: 0 <= i < |a| ==> a[i] == if i < c then q + 1 else q
    ensures Sum(a) == |a| * q + if |a| <= c then |a| else c
  {
    if a != [] {
      var n := |a| - 1;
      SumOfSteps(a[..n], q, c);
      MulSucc(n, q);
    }
  }

  /** The greater shares first, and no two further apart than one. */
  predicate Even(a: seq<nat>) {
    && (forall i, j :: 0 <= i < j < |a| ==> a[j] <= a[i])
    && (forall i, j :: 0 <= i < j < |a| ==> a[i] <= a[j] + 1)
  }

  lemma EvenAreShares(a: seq<nat>)
    requires a != [] && Even(a)
    ensures forall i :: 0 <= i < |a| ==> a[i] == Share(Sum(a), |a|, i)
  {
    var n := |a|;
    var q := a[n - 1];
    var c := StepsUp(a);
    SumOfSteps(a, q, c);
    ModUnique(Sum(a), n, q, c);
  }

  lemma StepsAreEven(a: seq<nat>, q: nat, c: nat)
    requires forall i :: 0 <= i < |a| ==> a[i] == if i < c then q + 1 else q
    ensures Even(a)
  {
  }

  lemma SharesAreEven(a: seq<nat>, total: nat)
    requires a != [] && forall i :: 0 <= i < |a| ==> a[i] == Share(total, |a|, i)
    ensures Even(a) && Sum(a) == total
  {
    hide Even, Sum;
    var n: nat, q: nat, c: nat := |a|, total / |a|, total % |a|;
    assert total == n * q + c;
    StepsAreEven(a, q, c);
    SumOfSteps(a, q, c);
  }

  /** There is one way to split a total evenly. */
  lemma EvenIsShares(a: seq<nat>, total: nat)
    requires a != []
    ensures Even(a) && Sum(a) == total <==> forall i :: 0 <= i < |a| ==> a[i] == Share(total, |a|, i)
  {
    hide Even, Sum, Share;
    if Even(a) {
      EvenAreShares(a);
    }
    if forall i :: 0 <= i < |a| ==> a[i] == Share(total, |a|, i) {
      SharesAreEven(a, total);
    }
  }

  /** How many shares are greater than the last. */
  lemma StepsUp(a: seq<nat>) returns (c: nat)
    requires a != [] && Even(a)
    ensures c < |a| && forall i :: 0 <= i < |a| ==> a[i] == if i < c then a[|a| - 1] + 1 else a[|a| - 1]
  {
    c := 0;
    while c < |a| - 1 && a[c] != a[|a| - 1]
      invariant c < |a| && forall i :: 0 <= i < c ==> a[i] != a[|a| - 1]
    {
      c := c + 1;
    }
  }

  // ---------------------------------------------------------------- distributions

  function Amounts(outputs: seq<TxOutput>): (a: seq<nat>)
    ensures |a| == |outputs|
  {
    seq(|outputs|, i requires 0 <= i < |outputs| => outputs[i].amount.numerator)
  }

  /** The whole pool goes, free of charge, to distinct members in sorted order and evenly. */
  ghost predicate Splits(tx: Transaction, members: seq<Address>, pool: nat, everyone: bool) {
    && tx.outputs != [] && |tx.inputs| == 1
    && tx.inputs[0].amount == Amount(tx.inputs[0].amount.numerator, 1) && tx.inputs[0].amount.numerator == pool != 0
    && tx.fee == FeeSpec(tx.inputs[0].prime, Amount(0, 1))
    && Ascending(Receivers(tx.outputs)) && (forall a :: a in Receivers(tx.outputs) ==> a in members)
    && (everyone ==> Receivers(tx.outputs) == members)
    && (forall i :: 0 <= i < |tx.outputs| ==> tx.outputs[i].prime == tx.inputs[0].prime && tx.outputs[i].amount.denominator == 1)
    && Even(Amounts(tx.outputs)) && Sum(Amounts(tx.outputs)) == pool
  }

  lemma EvenOutputs(tx: Transaction, pool: nat)
    requires tx.outputs != []
    ensures Even(Amounts(tx.outputs)) && Sum(Amounts(tx.outputs)) == pool
       <==> forall i :: 0 <= i < |tx.outputs| ==> tx.outputs[i].amount.numerator == Share(pool, |tx.outputs|, i)
  {
    EvenIsShares(Amounts(tx.outputs), pool);
    assert forall i :: 0 <= i < |tx.outputs| ==> Amounts(tx.outputs)[i] == tx.outputs[i].amount.numerator;
  }

  lemma SplitsIff(tx: Transaction, members: seq<Address>, pool: nat, everyone: bool)
    requires Ascending(members)
    ensures PoolShape(tx, members, pool, everyone)
       <==> Splits(tx, members, pool, everyone) && tx.publicKey == [] && tx.signature == []
  {
    hide Even, Sum, Share, Ascending;
    var rs := Receivers(tx.outputs);
    InOrderExact(rs, members);
    if tx.outputs != [] {
      EvenOutputs(tx, pool);
      assert rs[0] in rs;
    }
    if InOrder(rs, members) {
      InOrderShort(rs, members);
      if |rs| == |members| {
        FullListIsEveryone(rs, members);
      }
    }
  }

  // ---------------------------------------------------------------- acceptance

  /** Who may send which kind of transaction. */
  predicate Authorised(sigs: Signatures, ctx: Context, tx: Transaction) {
    || (tx.version in {2, 4, 8} && IsSignatureAddress(tx.sender) && sigs.authenticated(tx))
    || (tx.version == 3 && tx.sender == FeePoolAddress(ctx.epoch) && tx.publicKey == [] && tx.signature == [])
    || (tx.version == 5 && IsRewardPool(tx.sender) && tx.publicKey == [] && tx.signature == [])
    || (tx.version == 0 && ctx.validators == [] && !IsSignatureAddress(tx.sender)
        && tx.sender == "pcdev1_" + sigs.keyDigest(tx.publicKey) && tx.signature == sigs.development(tx))
  }

  lemma AuthorisedIff(sigs: Signatures, ctx: Context, tx: Transaction)
    ensures SignatureOk(sigs, ctx, tx) <==> Authorised(sigs, ctx, tx)
  {
    hide IsSignatureAddress, IsRewardPool;
    PoolsDoNotSign(ctx, tx);
  }

  lemma PoolsDoNotSign(ctx: Context, tx: Transaction)
    ensures IsFeeDistribution(tx, ctx) || IsRewardDistribution(tx) ==> !IsSignatureAddress(tx.sender)
  {
    if IsDistribution(tx, ctx) {
      PoolIsNoSigner(tx, ctx);
    }
  }

  /** One asset from one account to one account, for exactly the fee in force. */
  predicate OnePayment(tx: Transaction, fee: nat) {
    && |tx.inputs| == 1 && |tx.outputs| == 1
    && tx.inputs[0].prime == tx.outputs[0].prime == tx.fee.prime
    && tx.fee.amount.numerator == fee && tx.fee.amount.denominator == 1
  }

  /** What the transaction is for: transfer, lock, unlock, distribution of fees or rewards, or
      a transaction of a chain without validators. */
  ghost predicate InForm(ctx: Context, b: Balances, tx: Transaction) {
    && tx.inputs != [] && tx.outputs != []
    && tx.fee.amount.denominator == 1 && (tx.fee.amount.numerator != 0 ==> tx.fee.prime >= 2)
    && var pool := BalanceOf(b, Asset(tx.sender, tx.inputs[0].prime));
       && (tx.version == 2 ==> OnePayment(tx, ctx.transferFee))
       && (tx.version == 4 ==> OnePayment(tx, ctx.transferFee) && IsReserve(tx.outputs[0].receiver))
       && (tx.version == 8 ==> OnePayment(tx, ctx.transferFee) && tx.sender !in ctx.validators)
       && (tx.version == 3 ==> Splits(tx, ctx.validators, pool, false))
       && (tx.version == 5 ==>
             && IsRewardPool(tx.sender) && RewardPoolEpoch(tx.sender).Some?
             && var e := RewardPoolEpoch(tx.sender).value;
                e in ctx.epochs && Splits(tx, ctx.epochs[e], pool, ctx.integer >= 26488))
  }

  /** Sets of members are sorted. */
  ghost predicate SetsSorted(ctx: Context) {
    Ascending(ctx.validators) && forall e :: e in ctx.epochs ==> Ascending(ctx.epochs[e])
  }

  lemma NobodyToPay(tx: Transaction, pool: nat, everyone: bool)
    ensures !PoolShape(tx, [], pool, everyone)
  {
  }

  lemma InFormIff(sigs: Signatures, ctx: Context, b: Balances, tx: Transaction)
    requires Authorised(sigs, ctx, tx) && SetsSorted(ctx)
    ensures tx.inputs != [] && tx.outputs != [] && DistributionOk(ctx, b, tx) && ShapeOk(ctx, tx) && FeeOk(tx) <==> InForm(ctx, b, tx)
  {
    hide IsSignatureAddress, IsRewardPool, PoolShape, Splits, IsReserve;
    PoolsDoNotSign(ctx, tx);
    if tx.inputs != [] {
      var pool := BalanceOf(b, Asset(tx.sender, tx.inputs[0].prime));
      if tx.version == 3 {
        SplitsIff(tx, ctx.validators, pool, false);
      } else if tx.version == 5 && RewardPoolEpoch(tx.sender).Some? {
        SplitsIff(tx, EpochMembers(ctx, RewardPoolEpoch(tx.sender).value), pool, ctx.integer >= FULL_REWARD_DISTRIBUTION);
        NobodyToPay(tx, pool, ctx.integer >= FULL_REWARD_DISTRIBUTION);
      }
    }
  }

  /** A transaction is accepted exactly when it is authorised and in form, adds up, is funded
      and carries the next nonce of its sender. */
  lemma AcceptedIff(sigs: Signatures, ctx: Context, batch: Batch, tx: Transaction, start: Supply)
    requires Accounted(batch, start) && Fits(start) && SetsSorted(ctx)
    ensures ApplyTx(sigs, ctx, batch, tx).Some?
       <==> && Authorised(sigs, ctx, tx) && InForm(ctx, batch.accounts.money.balances, tx)
            && AddsUp(tx) && Funded(batch.accounts.money.balances, tx)
            && tx.nonce == NonceOf(batch.accounts.nonces, tx.sender) + 1
  {
    hide Authorised, InForm, AddsUp, SetsSorted, Accounted, Fits, SignatureOk, DistributionOk, ShapeOk, FeeOk, CreditTotals,
         Affords, ApplyTx;
    OnlyBalanceRefuses(sigs, ctx, batch, tx, start);
    AuthorisedIff(sigs, ctx, tx);
    BalancedIff(tx);
    if Authorised(sigs, ctx, tx) {
      InFormIff(sigs, ctx, batch.accounts.money.balances, tx);
      PayerSpends(sigs, ctx, tx);
    }
    if Balanced(tx) {
      AffordsIff(batch.accounts.money.balances, Spender(tx), tx.inputs);
    }
  }
}
