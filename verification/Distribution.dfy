/**
 Pool distributions (src/node/sequential_node.cpp, validateValidatorPoolDistributionShape):
 who is paid, how much, and what is left.
 */
module Distribution {
  import opened Machine
  import opened Addresses
  import opened ProtocolAddresses
  import opened Records
  import opened Money
  import opened Transactions
  import opened Conservation

  // ---------------------------------------------------------------- the search

  /** The source's loop over the outputs, with the member index it carries along. */
  method MatchReceivers(receivers: seq<Address>, members: seq<Address>) returns (ok: bool)
    ensures ok <==> InOrder(receivers, members)
  {
    var index, i := 0, 0;
    while i < |receivers|
      invariant 0 <= i <= |receivers| && 0 <= index <= |members|
      invariant InOrder(receivers, members) <==> InOrder(receivers[i..], members[index..])
    {
      var found := false;
      while index < |members| && !found
        invariant 0 <= index <= |members|
        invariant InOrder(receivers, members) <==>
                    InOrder(if found then receivers[i + 1..] else receivers[i..], members[index..])
        decreases |members| - index, if found then 0 else 1
      {
        assert receivers[i..][1..] == receivers[i + 1..] && members[index..][1..] == members[index + 1..];
        found := members[index] == receivers[i];
        index := index + 1;
      }
      if !found {
        return false;
      }
      i := i + 1;
    }
    return true;
  }

  lemma AscendingTail(s: seq<Address>)
    requires Ascending(s) && s != []
    ensures Ascending(s[1..])
    ensures forall x :: x in s[1..] ==> Less(s[0], x)
    ensures forall x :: x in s <==> x == s[0] || x in s[1..]
  {
    forall x | x in s[1..]
      ensures Less(s[0], x)
    {
      var j :| 0 <= j < |s[1..]| && s[1..][j] == x;
      AscendingOrders(s, 0, j + 1);
    }
    assert s == [s[0]] + s[1..];
  }

  lemma AscendingCons(a: Address, s: seq<Address>)
    requires Ascending(s) && (s != [] ==> Less(a, s[0]))
    ensures Ascending([a] + s)
  {
  }

  /** For sorted members the greedy search finds exactly the sorted lists of members: no one
      twice, no outsider. */
  lemma {:induction false} InOrderExact(receivers: seq<Address>, members: seq<Address>)
    requires Ascending(members)
    ensures InOrder(receivers, members) <==> Ascending(receivers) && forall r :: r in receivers ==> r in members
    decreases |members|
  {
    if receivers != [] && members != [] {
      AscendingTail(members);
      if members[0] == receivers[0] {
        InOrderExact(receivers[1..], members[1..]);
        if InOrder(receivers, members) {
          if |receivers| > 1 {
            assert receivers[1..][0] in receivers[1..];
          }
          AscendingCons(receivers[0], receivers[1..]);
          assert receivers == [receivers[0]] + receivers[1..];
        }
        if Ascending(receivers) && forall r :: r in receivers ==> r in members {
          AscendingTail(receivers);
          forall r | r in receivers[1..]
            ensures r in members[1..]
          {
            LessIrreflexive(members[0]);
            assert r in members && Less(receivers[0], r);
          }
        }
      } else {
        InOrderExact(receivers, members[1..]);
        if Ascending(receivers) && forall r :: r in receivers ==> r in members {
          SkipsFirst(receivers, members);
        }
      }
    } else if receivers != [] {
      assert receivers[0] in receivers;
    }
  }

  lemma SkipsFirst(receivers: seq<Address>, members: seq<Address>)
    requires Ascending(members) && members != [] && Ascending(receivers) && receivers != []
    requires members[0] != receivers[0] && forall r :: r in receivers ==> r in members
    ensures forall r :: r in receivers ==> r in members[1..]
  {
    AscendingTail(members);
    AscendingTail(receivers);
    assert receivers[0] in receivers;
    forall r | r in receivers
      ensures r in members[1..]
    {
      if r == members[0] {
        assert Less(members[0], receivers[0]) && Less(receivers[0], r);
        LessTransitive(members[0], receivers[0], r);
        LessIrreflexive(r);
        assert false;
      }
    }
  }

  /** A sorted list of members as long as the members is the members. */
  lemma {:induction false} FullListIsEveryone(receivers: seq<Address>, members: seq<Address>)
    requires InOrder(receivers, members) && |receivers| == |members|
    ensures receivers == members
    decreases |members|
  {
    if members != [] {
      if members[0] == receivers[0] {
        FullListIsEveryone(receivers[1..], members[1..]);
        assert receivers == [receivers[0]] + receivers[1..] && members == [members[0]] + members[1..];
      } else {
        InOrderShort(receivers, members[1..]);
        assert false;
      }
    }
  }

  lemma {:induction false} InOrderShort(receivers: seq<Address>, members: seq<Address>)
    requires InOrder(receivers, members)
    ensures |receivers| <= |members|
    decreases |members|
  {
    if receivers != [] {
      InOrderShort(if members[0] == receivers[0] then receivers[1..] else receivers, members[1..]);
    }
  }

  // ---------------------------------------------------------------- shares

  function SumShares(total: nat, n: nat, k: nat): nat
    requires n >= 1
  {
    if k == 0 then 0 else SumShares(total, n, k - 1) + Share(total, n, k - 1)
  }

  lemma {:induction false} SumSharesPrefix(total: nat, n: nat, k: nat)
    requires n >= 1 && k <= n
    ensures SumShares(total, n, k) == k * (total / n) + if k <= total % n then k else total % n
  {
    if k > 0 {
      SumSharesPrefix(total, n, k - 1);
      MulSucc(k - 1, total / n);
    }
  }

  lemma MulSucc(a: nat, b: nat)
    ensures (a + 1) * b == a * b + b
  {
  }

  /** The shares add up to the whole, and differ by at most one. */
  lemma SharesAddUp(total: nat, n: nat)
    requires n >= 1
    ensures SumShares(total, n, n) == total
    ensures forall i, j :: 0 <= i < n && 0 <= j < n ==> Share(total, n, i) <= Share(total, n, j) + 1
  {
    SumSharesPrefix(total, n, n);
  }

  // ---------------------------------------------------------------- an accepted distribution

  function Paid(outputs: seq<TxOutput>): nat {
    if outputs == [] then 0 else Paid(outputs[..|outputs| - 1]) + outputs[|outputs| - 1].amount.numerator
  }

  lemma {:induction false} PaidIsShares(outputs: seq<TxOutput>, total: nat, n: nat, k: nat)
    requires n >= 1 && k <= |outputs|
    requires forall i :: 0 <= i < |outputs| ==> outputs[i].amount.numerator == Share(total, n, i)
    ensures Paid(outputs[..k]) == SumShares(total, n, k)
  {
    if k > 0 {
      PaidIsShares(outputs, total, n, k - 1);
      assert outputs[..k][..k - 1] == outputs[..k - 1];
    }
  }

  /** Crediting others leaves a balance alone. */
  lemma {:induction false} CreditOthers(m: Money, outputs: seq<TxOutput>, k: Asset)
    requires CreditOutputs(m, outputs).Some? && forall i :: 0 <= i < |outputs| ==> outputs[i].receiver != k.owner
    ensures BalanceOf(CreditOutputs(m, outputs).value.balances, k) == BalanceOf(m.balances, k)
  {
    if outputs != [] {
      CreditOthers(m, outputs[..|outputs| - 1], k);
    }
  }

  lemma OneInputTotals(tx: Transaction)
    requires |tx.inputs| == 1 && MicroUnits(tx.inputs[0].amount).Some?
    ensures InputTotals(tx.inputs) == Some(map[tx.inputs[0].prime := tx.inputs[0].amount.numerator])
  {
    assert tx.inputs[..0] == [];
  }

  /** The members a distribution pays, and the asset it empties. */
  function Members(ctx: Context, tx: Transaction): seq<Address> {
    if IsRewardDistribution(tx) && RewardPoolEpoch(tx.sender).Some? then EpochMembers(ctx, RewardPoolEpoch(tx.sender).value)
    else ctx.validators
  }

  ghost predicate IsDistribution(tx: Transaction, ctx: Context) {
    IsFeeDistribution(tx, ctx) || IsRewardDistribution(tx)
  }

  ghost predicate PaysEveryone(tx: Transaction, ctx: Context) {
    IsRewardDistribution(tx) && ctx.integer >= FULL_REWARD_DISTRIBUTION
  }

  /** What an accepted distribution was checked against. */
  lemma DistributionShape(sigs: Signatures, ctx: Context, batch: Batch, tx: Transaction)
    requires ApplyTx(sigs, ctx, batch, tx).Some? && IsDistribution(tx, ctx)
    ensures |tx.inputs| == 1 && OutputTotals(tx.outputs).Some?
    ensures PoolShape(tx, Members(ctx, tx), BalanceOf(batch.accounts.money.balances, Asset(tx.sender, tx.inputs[0].prime)),
                      PaysEveryone(tx, ctx))
  {
    if IsFeeDistribution(tx, ctx) {
      FeePoolIsNoRewardPool(ctx, tx);
    }
  }

  /** Distinct members in sorted order, in positive shares that differ by at most one and add
      up to the whole pool. */
  ghost predicate PaysFairly(tx: Transaction, members: seq<Address>, pool: nat) {
    && Ascending(Receivers(tx.outputs))
    && (forall r :: r in Receivers(tx.outputs) ==> r in members)
    && (forall i, j :: 0 <= i < |tx.outputs| && 0 <= j < |tx.outputs| ==>
          1 <= tx.outputs[i].amount.numerator <= tx.outputs[j].amount.numerator + 1)
    && Paid(tx.outputs) == pool
  }

  lemma ShapePaysFairly(tx: Transaction, members: seq<Address>, pool: nat, everyone: bool)
    requires PoolShape(tx, members, pool, everyone) && Ascending(members) && OutputTotals(tx.outputs).Some?
    ensures PaysFairly(tx, members, pool)
    ensures everyone ==> Receivers(tx.outputs) == members
  {
    var n := |tx.outputs|;
    InOrderExact(Receivers(tx.outputs), members);
    SharesAddUp(pool, n);
    PaidIsShares(tx.outputs, pool, n, n);
    assert tx.outputs[..n] == tx.outputs;
    forall i | 0 <= i < n
      ensures tx.outputs[i].amount.numerator >= 1
    {
      OutputsPositive(tx.outputs, i);
    }
    if everyone {
      FullListIsEveryone(Receivers(tx.outputs), members);
    }
  }

  /** An accepted distribution pays distinct members of the right epoch in sorted order, in
      positive shares that differ by at most one and add up to the whole pool balance. From
      integer 26488 on a reward distribution pays every member of the epoch. */
  lemma DistributionPays(sigs: Signatures, ctx: Context, batch: Batch, tx: Transaction)
    requires ApplyTx(sigs, ctx, batch, tx).Some? && IsDistribution(tx, ctx) && CanonicalSet(Members(ctx, tx))
    ensures tx.inputs != []
    ensures PaysFairly(tx, Members(ctx, tx), BalanceOf(batch.accounts.money.balances, Asset(tx.sender, tx.inputs[0].prime)))
    ensures PaysEveryone(tx, ctx) ==> Receivers(tx.outputs) == Members(ctx, tx)
  {
    DistributionShape(sigs, ctx, batch, tx);
    ShapePaysFairly(tx, Members(ctx, tx), BalanceOf(batch.accounts.money.balances, Asset(tx.sender, tx.inputs[0].prime)),
                    PaysEveryone(tx, ctx));
  }

  lemma FeePoolIsNoRewardPool(ctx: Context, tx: Transaction)
    requires IsFeeDistribution(tx, ctx)
    ensures !IsRewardDistribution(tx) && Members(ctx, tx) == ctx.validators
  {
  }

  lemma {:induction false} OutputsPositive(outputs: seq<TxOutput>, i: nat)
    requires OutputTotals(outputs).Some? && i < |outputs|
    ensures outputs[i].amount.numerator >= 1
  {
    if i < |outputs| - 1 {
      OutputsPositive(outputs[..|outputs| - 1], i);
    }
  }

  /** Moving a distribution empties the pool asset. */
  lemma ShapeEmptiesPool(m: Money, tx: Transaction, members: seq<Address>, everyone: bool)
    requires |tx.inputs| == 1 && CanonicalSet(members) && !IsSignatureAddress(tx.sender)
    requires PoolShape(tx, members, BalanceOf(m.balances, Asset(tx.sender, tx.inputs[0].prime)), everyone)
    requires Balanced(tx) && Move(m, tx).Some?
    ensures BalanceOf(Move(m, tx).value.balances, Asset(tx.sender, tx.inputs[0].prime)) == 0
  {
    var k := Asset(tx.sender, tx.inputs[0].prime);
    OneInputTotals(tx);
    var totals := InputTotals(tx.inputs).value;
    var debited := DebitAll(m, tx.sender, totals).value;
    assert k.prime in totals && Asset(tx.sender, k.prime) in m.balances;
    assert debited.balances[k] == 0;
    BalancedTotals(tx, 0);
    ShapePaysFairly(tx, members, BalanceOf(m.balances, k), everyone);
    forall i | 0 <= i < |tx.outputs|
      ensures tx.outputs[i].receiver != k.owner
    {
      assert Receivers(tx.outputs)[i] in Receivers(tx.outputs);
    }
    CreditOthers(debited, tx.outputs, k);
  }

  /** Right after a distribution the pool asset is at zero and every supply is what it was. */
  lemma DistributionEmptiesPool(sigs: Signatures, ctx: Context, batch: Batch, tx: Transaction)
    requires ApplyTx(sigs, ctx, batch, tx).Some? && IsDistribution(tx, ctx) && CanonicalSet(Members(ctx, tx))
    requires Consistent(batch.accounts.money)
    ensures tx.inputs != []
    ensures var next := ApplyTx(sigs, ctx, batch, tx).value;
            && BalanceOf(next.accounts.money.balances, Asset(tx.sender, tx.inputs[0].prime)) == 0
            && next.fees == batch.fees
            && forall p :: SupplyOf(next.accounts.money.supply, p) == SupplyOf(batch.accounts.money.supply, p)
  {
    var m := batch.accounts.money;
    DistributionShape(sigs, ctx, batch, tx);
    PoolIsNoSigner(tx, ctx);
    ShapeEmptiesPool(m, tx, Members(ctx, tx), PaysEveryone(tx, ctx));
    forall p: nat
      ensures SupplyOf(Move(m, tx).value.supply, p) == SupplyOf(m.supply, p)
    {
      MoveSupply(m, tx, p);
    }
  }

  lemma PoolIsNoSigner(tx: Transaction, ctx: Context)
    requires IsDistribution(tx, ctx)
    ensures !IsSignatureAddress(tx.sender)
  {
    if IsRewardDistribution(tx) {
      assert tx.sender[..|REWARD_POOL|][3] == 'o';
      assert |tx.sender| == 46 ==> tx.sender[..6][3] == 'o';
      assert "pcpq1_"[3] == 'q';
    }
  }
}
