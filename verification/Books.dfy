/**
 Balances and supply updated in place, asset by asset
 (src/node/sequential_node.cpp): the loops behind the batch functions of the ledger
 model.
 */
module BookKeeping {
  import opened Machine
  import opened Sets
  import opened Addresses
  import opened ProtocolAddresses
  import opened Records
  import opened Money
  import opened Transactions

  // ---------------------------------------------------------------- totals

  method SumInputs(inputs: seq<TxInput>) returns (totals: Option<Supply>)
    ensures totals == InputTotals(inputs)
  {
    var sums: Supply := map[];
    var i := 0;
    while i < |inputs|
      invariant 0 <= i <= |inputs| && InputTotals(inputs[..i]) == Some(sums)
    {
      assert inputs[..i + 1][..i] == inputs[..i];
      if MicroUnits(inputs[i].amount).None? || SupplyOf(sums, inputs[i].prime) + inputs[i].amount.numerator >= TWO_64 {
        InputFailureStays(inputs, i + 1);
        return None;
      }
      sums := sums[inputs[i].prime := SupplyOf(sums, inputs[i].prime) + inputs[i].amount.numerator];
      i := i + 1;
    }
    assert inputs[..i] == inputs;
    return Some(sums);
  }

  lemma {:induction false} InputFailureStays(inputs: seq<TxInput>, i: nat)
    requires i <= |inputs| && InputTotals(inputs[..i]).None?
    ensures InputTotals(inputs).None?
    decreases |inputs| - i
  {
    if i < |inputs| {
      assert inputs[..i + 1][..i] == inputs[..i];
      InputFailureStays(inputs, i + 1);
    } else {
      assert inputs[..i] == inputs;
    }
  }

  method SumOutputs(outputs: seq<TxOutput>) returns (totals: Option<Supply>)
    ensures totals == OutputTotals(outputs)
  {
    var sums: Supply := map[];
    var i := 0;
    while i < |outputs|
      invariant 0 <= i <= |outputs| && OutputTotals(outputs[..i]) == Some(sums)
    {
      assert outputs[..i + 1][..i] == outputs[..i];
      if || !IsProtocolAddress(outputs[i].receiver) || MicroUnits(outputs[i].amount).None?
         || SupplyOf(sums, outputs[i].prime) + outputs[i].amount.numerator >= TWO_64
      {
        OutputFailureStays(outputs, i + 1);
        return None;
      }
      sums := sums[outputs[i].prime := SupplyOf(sums, outputs[i].prime) + outputs[i].amount.numerator];
      i := i + 1;
    }
    assert outputs[..i] == outputs;
    return Some(sums);
  }

  lemma {:induction false} OutputFailureStays(outputs: seq<TxOutput>, i: nat)
    requires i <= |outputs| && OutputTotals(outputs[..i]).None?
    ensures OutputTotals(outputs).None?
    decreases |outputs| - i
  {
    if i < |outputs| {
      assert outputs[..i + 1][..i] == outputs[..i];
      OutputFailureStays(outputs, i + 1);
    } else {
      assert outputs[..i] == outputs;
    }
  }

  /** Inputs equal outputs plus fee for every asset. */
  method CheckBalanced(tx: Transaction) returns (debits: Option<Supply>)
    ensures debits.Some? <==> Balanced(tx)
    ensures debits.Some? ==> debits == InputTotals(tx.inputs)
  {
    var inputs := SumInputs(tx.inputs);
    var credits := SumOutputs(tx.outputs);
    if inputs.None? || credits.None? {
      return None;
    }
    if tx.fee.amount.numerator != 0 {
      credits := AddTotal(credits.value, tx.fee.prime, tx.fee.amount.numerator);
    }
    return if inputs == credits then inputs else None;
  }

  lemma {:induction false} CreditFailureStays(m: Money, outputs: seq<TxOutput>, i: nat)
    requires i <= |outputs| && CreditOutputs(m, outputs[..i]).None?
    ensures CreditOutputs(m, outputs).None?
    decreases |outputs| - i
  {
    if i < |outputs| {
      assert outputs[..i + 1][..i] == outputs[..i];
      CreditFailureStays(m, outputs, i + 1);
    } else {
      assert outputs[..i] == outputs;
    }
  }

  lemma {:induction false} BatchFailureStays(sigs: Signatures, ctx: Context, accounts: Accounts, txs: seq<Transaction>, i: nat)
    requires i <= |txs| && ApplyAll(sigs, ctx, accounts, txs[..i]).None?
    ensures ApplyAll(sigs, ctx, accounts, txs).None?
    decreases |txs| - i
  {
    hide ApplyTx;
    if i < |txs| {
      assert txs[..i + 1][..i] == txs[..i];
      BatchFailureStays(sigs, ctx, accounts, txs, i + 1);
    } else {
      assert txs[..i] == txs;
    }
  }

  /** The balances and supply of a node, with their in-place updates. */
  class Books {
    var balances: Balances
    var supply: Supply

    constructor ()
      ensures Value() == Money(map[], map[])
    {
      balances, supply := map[], map[];
    }

    function Value(): Money
      reads this
    {
      Money(balances, supply)
    }

    /** Adds to a balance, then to the supply; a failure may leave the balance changed. */
    method CreditAsset(k: Asset, amount: nat) returns (ok: bool)
      modifies this
      ensures ok <==> Credit(old(Value()), k, amount).Some?
      ensures ok ==> Credit(old(Value()), k, amount) == Some(Value())
    {
      var balance := BalanceOf(balances, k);
      if balance + amount >= TWO_64 {
        return false;
      }
      balances := balances[k := balance + amount];
      var total := SupplyOf(supply, k.prime);
      if total + amount >= TWO_64 {
        return false;
      }
      supply := supply[k.prime := total + amount];
      return true;
    }

    method DebitAsset(k: Asset, amount: nat) returns (ok: bool)
      requires amount < TWO_64
      modifies this
      ensures ok <==> Debit(old(Value()), k, amount).Some?
      ensures ok ==> Debit(old(Value()), k, amount) == Some(Value())
      ensures !ok ==> Value() == old(Value())
    {
      if k !in balances || balances[k] < amount {
        return false;
      }
      balances := balances[k := balances[k] - amount];
      supply := supply[k.prime := SubWrap(SupplyOf(supply, k.prime), amount)];
      return true;
    }

    /** Takes every total from one owner, asset by asset. */
    method DebitTotals(owner: Address, totals: Supply) returns (ok: bool)
      requires forall p :: p in totals ==> totals[p] < TWO_64
      modifies this
      ensures ok <==> DebitAll(old(Value()), owner, totals).Some?
      ensures ok ==> DebitAll(old(Value()), owner, totals) == Some(Value())
    {
      hide DebitAll, Debit;
      ghost var start := Value();
      ghost var part: Supply := map[];
      NoDebits(start, owner);
      var primes := InSomeOrder(totals.Keys);
      var i := 0;
      while i < |primes|
        invariant 0 <= i <= |primes| && PartOf(part, totals, primes[..i])
        invariant DebitAll(start, owner, part) == Some(Value())
      {
        var p := primes[i];
        NextPart(part, totals, primes, i);
        DebitAllStep(start, owner, part, p, totals[p]);
        part := part[p := totals[p]];
        var done := DebitAsset(Asset(owner, p), totals[p]);
        if !done {
          DebitFailureStays(start, owner, part, totals);
          return false;
        }
        i := i + 1;
      }
      assert primes[..i] == primes;
      assert part == totals;
      return true;
    }

    method CreditReceivers(outputs: seq<TxOutput>) returns (ok: bool)
      modifies this
      ensures ok <==> CreditOutputs(old(Value()), outputs).Some?
      ensures ok ==> CreditOutputs(old(Value()), outputs) == Some(Value())
    {
      ghost var start := Value();
      var i := 0;
      while i < |outputs|
        invariant 0 <= i <= |outputs| && CreditOutputs(start, outputs[..i]) == Some(Value())
      {
        assert outputs[..i + 1][..i] == outputs[..i];
        var done := CreditAsset(Asset(outputs[i].receiver, outputs[i].prime), outputs[i].amount.numerator);
        if !done {
          CreditFailureStays(start, outputs, i + 1);
          return false;
        }
        i := i + 1;
      }
      assert outputs[..i] == outputs;
      return true;
    }

    method CreditCollectedFees(to: Address, fees: Supply) returns (ok: bool)
      modifies this
      ensures ok <==> CreditFees(old(Value()), to, fees).Some?
      ensures ok ==> CreditFees(old(Value()), to, fees) == Some(Value())
    {
      hide CreditFees, Credit;
      ghost var start := Value();
      ghost var part: Supply := map[];
      NoFees(start, to);
      var primes := InSomeOrder(fees.Keys);
      var i := 0;
      while i < |primes|
        invariant 0 <= i <= |primes| && PartOf(part, fees, primes[..i])
        invariant CreditFees(start, to, part) == Some(Value())
      {
        var p := primes[i];
        NextPart(part, fees, primes, i);
        CreditFeesStep(start, to, part, p, fees[p]);
        part := part[p := fees[p]];
        var done := CreditAsset(Asset(to, p), fees[p]);
        if !done {
          FeeFailureStays(start, to, part, fees);
          return false;
        }
        i := i + 1;
      }
      assert primes[..i] == primes;
      assert part == fees;
      return true;
    }
  }

  /** The totals of the listed assets. */
  ghost predicate PartOf(part: Supply, totals: Supply, primes: seq<nat>) {
    && (forall p :: p in part <==> p in primes)
    && (forall p :: p in part ==> p in totals && part[p] == totals[p])
  }

  lemma NextPart(part: Supply, totals: Supply, primes: seq<nat>, i: nat)
    requires i < |primes| && PartOf(part, totals, primes[..i]) && (forall p :: p in primes <==> p in totals)
    requires forall j, k :: 0 <= j < k < |primes| ==> primes[j] != primes[k]
    ensures primes[i] in totals && primes[i] !in part
    ensures PartOf(part[primes[i] := totals[primes[i]]], totals, primes[..i + 1])
  {
    assert primes[i] in primes;
    assert primes[..i + 1] == primes[..i] + [primes[i]];
  }

  lemma NoDebits(m: Money, owner: Address)
    ensures DebitAll(m, owner, map[]) == Some(m)
  {
    assert Lowered(m.balances, owner, map[]) == m.balances;
    assert LoweredSupply(m.supply, map[]) == m.supply;
  }

  lemma LoweredStep(b: Balances, owner: Address, part: Supply, p: nat, amount: nat)
    requires p !in part && Affords(b, owner, part) && Affords(b, owner, part[p := amount])
    ensures Asset(owner, p) in b
    ensures var k, c := Asset(owner, p), Lowered(b, owner, part);
            c[k] == b[k] && amount <= c[k] && Lowered(b, owner, part[p := amount]) == c[k := c[k] - amount]
  {
    var more := part[p := amount];
    assert p in more;
    var k, c, d := Asset(owner, p), Lowered(b, owner, part), Lowered(b, owner, more);
    forall j | j in b
      ensures d[j] == c[k := c[k] - amount][j]
    {
      assert SupplyOf(more, j.prime) == if j.prime == p then amount else SupplyOf(part, j.prime);
    }
    assert d.Keys == c[k := c[k] - amount].Keys;
  }

  lemma LoweredSupplyStep(s: Supply, part: Supply, p: nat, amount: nat)
    requires p !in part && amount < TWO_64 && forall q :: q in part ==> part[q] < TWO_64
    ensures var t := LoweredSupply(s, part);
            LoweredSupply(s, part[p := amount]) == t[p := SubWrap(SupplyOf(t, p), amount)]
  {
  }

  /** Debiting one more asset is debiting the larger totals. */
  lemma DebitAllStep(m: Money, owner: Address, part: Supply, p: nat, amount: nat)
    requires p !in part && amount < TWO_64 && DebitAll(m, owner, part).Some?
    ensures DebitAll(m, owner, part[p := amount]) == Debit(DebitAll(m, owner, part).value, Asset(owner, p), amount)
  {
    hide Lowered, LoweredSupply;
    var k, more := Asset(owner, p), part[p := amount];
    AffordsStep(m.balances, owner, part, p, amount);
    if Affords(m.balances, owner, more) {
      LoweredStep(m.balances, owner, part, p, amount);
      LoweredSupplyStep(m.supply, part, p, amount);
    }
  }

  lemma AffordsStep(b: Balances, owner: Address, part: Supply, p: nat, amount: nat)
    requires p !in part && amount < TWO_64 && Affords(b, owner, part)
    ensures Affords(b, owner, part[p := amount]) <==> Asset(owner, p) in b && amount <= b[Asset(owner, p)]
    ensures Asset(owner, p) in b ==> Lowered(b, owner, part)[Asset(owner, p)] == b[Asset(owner, p)]
  {
    var more := part[p := amount];
    assert p in more && more[p] == amount;
    forall q | q in part
      ensures q in more && more[q] == part[q]
    {
    }
  }

  lemma DebitFailureStays(m: Money, owner: Address, part: Supply, totals: Supply)
    requires forall p :: p in part ==> p in totals && part[p] == totals[p]
    requires DebitAll(m, owner, part).None?
    ensures DebitAll(m, owner, totals).None?
  {
  }

  lemma NoFees(m: Money, to: Address)
    ensures CreditFees(m, to, map[]) == Some(m)
  {
    assert Raised(m.balances, to, map[]) == m.balances;
    assert RaisedSupply(m.supply, map[]) == m.supply;
  }

  lemma RaisedStep(b: Balances, to: Address, part: Supply, p: nat, amount: nat)
    requires p !in part
    ensures var k, c := Asset(to, p), Raised(b, to, part);
            && BalanceOf(c, k) == BalanceOf(b, k)
            && Raised(b, to, part[p := amount]) == c[k := BalanceOf(c, k) + amount]
  {
    hide Raised, FeeAssets;
    var more := part[p := amount];
    var k, c, d := Asset(to, p), Raised(b, to, part), Raised(b, to, more);
    var e := c[k := BalanceOf(c, k) + amount];
    assert forall j :: j in d <==> j in e;
    forall j | j in d
      ensures d[j] == e[j]
    {
      assert SupplyOf(more, j.prime) == if j.prime == p then amount else SupplyOf(part, j.prime);
    }
  }

  lemma RaisedSupplyStep(s: Supply, part: Supply, p: nat, amount: nat)
    requires p !in part
    ensures var t := RaisedSupply(s, part);
            SupplyOf(t, p) == SupplyOf(s, p) && RaisedSupply(s, part[p := amount]) == t[p := SupplyOf(t, p) + amount]
  {
  }

  /** Paying the fee of one more asset is paying the larger fees. */
  lemma CreditFeesStep(m: Money, to: Address, part: Supply, p: nat, amount: nat)
    requires p !in part && CreditFees(m, to, part).Some?
    ensures CreditFees(m, to, part[p := amount]) == Credit(CreditFees(m, to, part).value, Asset(to, p), amount)
  {
    hide Raised, RaisedSupply;
    FeesFit(m, to, part, p, amount);
    RaisedStep(m.balances, to, part, p, amount);
    RaisedSupplyStep(m.supply, part, p, amount);
  }

  lemma FeesFit(m: Money, to: Address, part: Supply, p: nat, amount: nat)
    requires p !in part && CreditFees(m, to, part).Some?
    ensures CreditFees(m, to, part[p := amount]).Some? <==> Credit(m, Asset(to, p), amount).Some?
  {
    var more := part[p := amount];
    forall q | q in part
      ensures Credit(m, Asset(to, q), more[q]).Some?
    {
      assert more[q] == part[q];
    }
    assert p in more && more[p] == amount;
  }

  lemma FeeFailureStays(m: Money, to: Address, part: Supply, fees: Supply)
    requires forall p :: p in part ==> p in fees && part[p] == fees[p]
    requires CreditFees(m, to, part).None?
    ensures CreditFees(m, to, fees).None?
  {
    var p :| p in part && Credit(m, Asset(to, p), part[p]).None?;
    assert p in fees;
  }
}
