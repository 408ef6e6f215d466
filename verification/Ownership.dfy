/**
 Who can spend what (src/node/sequential_node.cpp): balances of a signing address go down
 only by its own signed transactions, and the reserve of a validator not at all while it is
 active.
 */
module Ownership {
  import opened Addresses
  import opened ProtocolAddresses
  import opened Records
  import opened Money
  import opened Transactions
  import opened Distribution
  import opened Ledger
  import opened LedgerHistory

  // ---------------------------------------------------------------- only spenders lose

  lemma CreditLeaves(m: Money, to: Asset, amount: nat, k: Asset)
    requires Credit(m, to, amount).Some?
    ensures BalanceOf(m.balances, k) <= BalanceOf(Credit(m, to, amount).value.balances, k)
  {
  }

  lemma {:induction false} OutputsLeave(m: Money, outputs: seq<TxOutput>, k: Asset)
    requires CreditOutputs(m, outputs).Some?
    ensures BalanceOf(m.balances, k) <= BalanceOf(CreditOutputs(m, outputs).value.balances, k)
  {
    if outputs != [] {
      var n := |outputs| - 1;
      OutputsLeave(m, outputs[..n], k);
      CreditLeaves(CreditOutputs(m, outputs[..n]).value, Asset(outputs[n].receiver, outputs[n].prime),
                   outputs[n].amount.numerator, k);
    }
  }

  lemma MoveLeaves(m: Money, tx: Transaction, k: Asset)
    requires InputTotals(tx.inputs).Some? && Move(m, tx).Some? && Spender(tx) != k.owner
    ensures BalanceOf(m.balances, k) <= BalanceOf(Move(m, tx).value.balances, k)
  {
    OutputsLeave(DebitAll(m, Spender(tx), InputTotals(tx.inputs).value).value, tx.outputs, k);
  }

  /** Nobody but the spenders of a batch loses by it. */
  lemma {:induction false} BatchLeaves(sigs: Signatures, ctx: Context, accounts: Accounts, txs: seq<Transaction>, k: Asset)
    requires ApplyAll(sigs, ctx, accounts, txs).Some? && forall tx :: tx in txs ==> Spender(tx) != k.owner
    ensures BalanceOf(accounts.money.balances, k)
         <= BalanceOf(ApplyAll(sigs, ctx, accounts, txs).value.accounts.money.balances, k)
  {
    hide Admissible, Move, InputTotals, CreditTotals;
    if txs != [] {
      var n := |txs| - 1;
      BatchLeaves(sigs, ctx, accounts, txs[..n], k);
      MoveLeaves(ApplyAll(sigs, ctx, accounts, txs[..n]).value.accounts.money, txs[n], k);
    }
  }

  lemma {:induction false} EachLeaves(m: Money, owners: seq<Address>, p: nat, amount: nat, k: Asset)
    requires CreditEach(m, owners, p, amount).Some?
    ensures BalanceOf(m.balances, k) <= BalanceOf(CreditEach(m, owners, p, amount).value.balances, k)
  {
    if owners != [] {
      var n := |owners| - 1;
      EachLeaves(m, owners[..n], p, amount, k);
      CreditLeaves(CreditEach(m, owners[..n], p, amount).value, Asset(owners[n], p), amount, k);
    }
  }

  lemma RewardLeaves(m: Money, finder: Address, pending: seq<Address>, p: nat, first: nat, second: nat, k: Asset)
    requires Reward(m, finder, pending, p, first, second).Some?
    ensures BalanceOf(m.balances, k) <= BalanceOf(Reward(m, finder, pending, p, first, second).value.balances, k)
  {
    if pending == [] {
      CreditLeaves(m, Asset(finder, p), first + second, k);
    } else {
      var amount := first + second % |pending|;
      CreditLeaves(m, Asset(finder, p), amount, k);
      EachLeaves(Credit(m, Asset(finder, p), amount).value, pending, p, second / |pending|, k);
    }
  }

  lemma MintLeaves(s: State, m: Money, finder: Address, height: nat, p: nat, k: Asset)
    requires Mint(s, m, finder, height, p).Some?
    ensures BalanceOf(m.balances, k) <= BalanceOf(Mint(s, m, finder, height, p).value.balances, k)
  {
    hide Reward;
    if s.validators == [] || height == 0 {
      RewardLeaves(m, finder, s.pending, p, ASSET / 2, ASSET / 2, k);
    } else {
      var pool := Asset(RewardPoolAddress(s.epoch), p);
      CreditLeaves(m, pool, VALIDATOR_REWARD, k);
      RewardLeaves(Credit(m, pool, VALIDATOR_REWARD).value, finder, s.pending, p, PRIME_REWARD, COMPOSITE_REWARD, k);
    }
  }

  lemma ExecuteLeaves(v: Verifier, s: State, r: Record, k: Asset)
    requires Execute(v, s, r).Some? && forall tx :: tx in r.body.transactions ==> Spender(tx) != k.owner
    ensures BalanceOf(s.accounts.money.balances, k) <= BalanceOf(Execute(v, s, r).value.accounts.money.balances, k)
  {
    hide ApplyAll, Mint;
    var ctx := TxContext(s, r.header.integer);
    BatchLeaves(v.signatures, ctx, s.accounts, r.body.transactions, k);
    if r.PrimeRecord? {
      var accounts := ApplyTransactions(v.signatures, ctx, s.accounts, r.body.transactions, FeePoolAddress(s.epoch)).value;
      MintLeaves(s, accounts.money, r.pratt.provider, r.header.height, r.header.integer, k);
    }
  }

  // ---------------------------------------------------------------- who the spenders are

  /** Every transaction of an accepted batch passed its signature and shape checks. */
  lemma {:induction false} BatchChecked(sigs: Signatures, ctx: Context, accounts: Accounts, txs: seq<Transaction>)
    requires ApplyAll(sigs, ctx, accounts, txs).Some?
    ensures forall tx :: tx in txs ==> SignatureOk(sigs, ctx, tx) && ShapeOk(ctx, tx)
  {
    hide SignatureOk, ShapeOk, DistributionOk, NonceOk, FeeOk, Balanced, Move;
    if txs != [] {
      BatchChecked(sigs, ctx, accounts, txs[..|txs| - 1]);
      assert txs == txs[..|txs| - 1] + [txs[|txs| - 1]];
    }
  }

  /** No sender address begins like a reserve. */
  lemma SenderLetter(sigs: Signatures, ctx: Context, tx: Transaction)
    requires SignatureOk(sigs, ctx, tx)
    ensures |tx.sender| > 2 && tx.sender[2] != 'r'
  {
    if IsFeeDistribution(tx, ctx) {
      assert tx.sender[..|FEE_POOL|][2] == 'p';
    } else if IsRewardDistribution(tx) {
      assert tx.sender[..|REWARD_POOL|][2] == 'p';
    } else if IsSignatureAddress(tx.sender) {
      assert tx.sender[..6][2] == 'p';
    } else {
      assert tx.sender[2] == DEVELOPMENT[2];
    }
  }

  /** A reserve is spent by its own validator, signed, and only when it is not active. */
  lemma ReserveSpender(sigs: Signatures, ctx: Context, tx: Transaction, w: Address)
    requires SignatureOk(sigs, ctx, tx) && ShapeOk(ctx, tx) && IsSignatureAddress(w)
    requires Spender(tx) == ReserveAddress(w)
    ensures tx.sender == w && sigs.authenticated(tx) && w !in ctx.validators
  {
    SenderLetter(sigs, ctx, tx);
    assert ReserveAddress(w)[2] == 'r';
    assert ReserveAddress(tx.sender)[|RESERVE|..] == tx.sender && ReserveAddress(w)[|RESERVE|..] == w;
  }

  /** A signing address is spent from only by transactions it signed. */
  lemma SignerSpender(sigs: Signatures, ctx: Context, tx: Transaction, a: Address)
    requires SignatureOk(sigs, ctx, tx) && IsSignatureAddress(a) && Spender(tx) == a
    ensures tx.sender == a && sigs.authenticated(tx)
  {
    assert a[..6][2] == 'p' && ReserveAddress(tx.sender)[2] == 'r';
    if IsDistribution(tx, ctx) {
      PoolIsNoSigner(tx, ctx);
    }
  }

  // ---------------------------------------------------------------- whole records and chains

  lemma Replay1Leaves(v: Verifier, s: State, r: Record, k: Asset)
    requires Replay1(v, s, r).Some? && forall tx :: tx in r.body.transactions ==> Spender(tx) != k.owner
    ensures BalanceOf(s.accounts.money.balances, k)
         <= BalanceOf(Replay1(v, s, r).value.accounts.money.balances, k)
  {
    hide Execute, PayloadOk, MetadataOk, Spender;
    ExecuteLeaves(v, Install(s, r), r, k);
  }

  lemma RecordChecked(v: Verifier, s: State, r: Record)
    requires Replay1(v, s, r).Some?
    ensures var ctx := TxContext(Install(s, r), r.header.integer);
            forall tx :: tx in r.body.transactions ==> SignatureOk(v.signatures, ctx, tx) && ShapeOk(ctx, tx)
  {
    hide PayloadOk, MetadataOk, ApplyAll, Mint, SignatureOk, ShapeOk, CreditFees;
    BatchChecked(v.signatures, TxContext(Install(s, r), r.header.integer), s.accounts, r.body.transactions);
  }

  /** A record never lowers the reserve of a validator that is active when it runs. */
  lemma ReserveStaysLocked(v: Verifier, s: State, r: Record, w: Address, p: nat)
    requires Replay1(v, s, r).Some? && IsSignatureAddress(w) && w in Install(s, r).validators
    ensures var k := Asset(ReserveAddress(w), p);
            BalanceOf(s.accounts.money.balances, k) <= BalanceOf(Replay1(v, s, r).value.accounts.money.balances, k)
  {
    hide Replay1, SignatureOk, ShapeOk, Spender;
    var ctx := TxContext(Install(s, r), r.header.integer);
    RecordChecked(v, s, r);
    forall tx | tx in r.body.transactions
      ensures Spender(tx) != ReserveAddress(w)
    {
      if Spender(tx) == ReserveAddress(w) {
        ReserveSpender(v.signatures, ctx, tx, w);
        assert false;
      }
    }
    Replay1Leaves(v, s, r, Asset(ReserveAddress(w), p));
  }

  predicate SignedBy(sigs: Signatures, r: Record, a: Address) {
    exists tx :: tx in r.body.transactions && tx.sender == a && sigs.authenticated(tx)
  }

  /** A record without a transaction signed by an address never lowers its balances. */
  lemma SpendingIsSigned(v: Verifier, s: State, r: Record, a: Address, p: nat)
    requires Replay1(v, s, r).Some? && IsSignatureAddress(a) && !SignedBy(v.signatures, r, a)
    ensures BalanceOf(s.accounts.money.balances, Asset(a, p))
         <= BalanceOf(Replay1(v, s, r).value.accounts.money.balances, Asset(a, p))
  {
    hide Replay1, SignatureOk, ShapeOk, Spender;
    var ctx := TxContext(Install(s, r), r.header.integer);
    RecordChecked(v, s, r);
    forall tx | tx in r.body.transactions
      ensures Spender(tx) != a
    {
      if Spender(tx) == a {
        SignerSpender(v.signatures, ctx, tx, a);
        assert false;
      }
    }
    Replay1Leaves(v, s, r, Asset(a, p));
  }

  ghost function BalanceAfter(v: Verifier, records: seq<Record>, k: Asset): nat
    requires Replay(v, records).Some?
  {
    BalanceOf(Replay(v, records).value.accounts.money.balances, k)
  }

  lemma ShorterReplays(v: Verifier, records: seq<Record>)
    requires records != [] && Replay(v, records).Some?
    ensures var n := |records| - 1;
            && Replay(v, records[..n]).Some?
            && Replay(v, records) == Replay1(v, Replay(v, records[..n]).value, records[n])
  {
  }

  /** The validator is active when each of the records from n on runs. */
  ghost predicate ActiveFrom(v: Verifier, records: seq<Record>, n: nat, w: Address) {
    forall i :: n <= i < |records| && Replay(v, records[..i]).Some? ==> w in Replay(v, records[..i]).value.validators
  }

  /** Over whole chains: as long as a validator is active its reserve never goes down. */
  lemma {:induction false} ReserveLockedWhileActive(v: Verifier, records: seq<Record>, n: nat, w: Address, p: nat)
    requires 1 <= n <= |records| && Replay(v, records).Some? && Replay(v, records[..n]).Some?
    requires IsSignatureAddress(w) && ActiveFrom(v, records, n, w)
    ensures BalanceAfter(v, records[..n], Asset(ReserveAddress(w), p))
         <= BalanceAfter(v, records, Asset(ReserveAddress(w), p))
    decreases |records|
  {
    hide Replay, Replay1;
    if n == |records| {
      assert records[..n] == records;
    } else {
      var m := |records| - 1;
      ShorterReplays(v, records);
      assert records[..m][..n] == records[..n];
      assert forall i :: n <= i < m ==> records[..m][..i] == records[..i];
      ReserveLockedWhileActive(v, records[..m], n, w, p);
      InstallOnlyOnce(v, records[..m], records[m]);
      ReserveStaysLocked(v, Replay(v, records[..m]).value, records[m], w, p);
    }
  }

  /** Over whole chains: without a transaction it signed, an address never loses anything. */
  lemma {:induction false} NothingSpentUnsigned(v: Verifier, records: seq<Record>, n: nat, a: Address, p: nat)
    requires n <= |records| && Replay(v, records).Some? && Replay(v, records[..n]).Some?
    requires IsSignatureAddress(a) && forall i :: n <= i < |records| ==> !SignedBy(v.signatures, records[i], a)
    ensures BalanceAfter(v, records[..n], Asset(a, p)) <= BalanceAfter(v, records, Asset(a, p))
    decreases |records|
  {
    hide Replay, Replay1, SignedBy;
    if n == |records| {
      assert records[..n] == records;
    } else {
      var m := |records| - 1;
      ShorterReplays(v, records);
      assert records[..m][..n] == records[..n];
      NothingSpentUnsigned(v, records[..m], n, a, p);
      SpendingIsSigned(v, Replay(v, records[..m]).value, records[m], a, p);
    }
  }
}
