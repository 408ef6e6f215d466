/**
 Who owns a new asset, and every balance after a record (src/node/sequential_node.cpp,
 applyPrimeLedger).
 */
module Rewards {
  import opened Addresses
  import opened ProtocolAddresses
  import opened Records
  import opened Money
  import opened Transactions
  import opened Conservation
  import opened Payments
  import opened Ledger
  import opened LedgerInvariant
  import opened LedgerReplay

  // ---------------------------------------------------------------- parts

  /** One part for every time an address is listed. */
  lemma {:induction false} EachBalance(m: Money, owners: seq<Address>, p: nat, amount: nat, k: Asset)
    requires CreditEach(m, owners, p, amount).Some?
    ensures BalanceOf(CreditEach(m, owners, p, amount).value.balances, k)
         == BalanceOf(m.balances, k) + if k.prime == p then multiset(owners)[k.owner] * amount else 0
  {
    if owners != [] {
      var n := |owners| - 1;
      var init := owners[..n];
      EachBalance(m, init, p, amount, k);
      assert owners == init + [owners[n]];
      assert multiset(owners) == multiset(init) + multiset{owners[n]};
      if owners[n] == k.owner {
        assert multiset(owners)[k.owner] == multiset(init)[k.owner] + 1;
        MulOneMore(multiset(init)[k.owner], amount);
      }
    }
  }

  lemma MulOneMore(n: nat, amount: nat)
    ensures (n + 1) * amount == n * amount + amount
  {
  }

  /** The parts of the finder and of the providers, added up for an address. */
  function Parts(a: Address, finder: Address, pending: seq<Address>, first: nat, second: nat): nat {
    (if a != finder then 0 else if pending == [] then first + second else first + second % |pending|)
    + if pending == [] then 0 else multiset(pending)[a] * (second / |pending|)
  }

  lemma PartsBalance(m: Money, finder: Address, pending: seq<Address>, p: nat, x: nat, y: nat, k: Asset)
    requires Credit(m, Asset(finder, p), x).Some? && CreditEach(Credit(m, Asset(finder, p), x).value, pending, p, y).Some?
    ensures BalanceOf(CreditEach(Credit(m, Asset(finder, p), x).value, pending, p, y).value.balances, k)
         == BalanceOf(m.balances, k) + if k.prime == p then (if k.owner == finder then x else 0) + multiset(pending)[k.owner] * y else 0
  {
    hide CreditEach;
    EachBalance(Credit(m, Asset(finder, p), x).value, pending, p, y, k);
  }

  lemma RewardBalance(m: Money, finder: Address, pending: seq<Address>, p: nat, first: nat, second: nat, k: Asset)
    requires Reward(m, finder, pending, p, first, second).Some?
    ensures BalanceOf(Reward(m, finder, pending, p, first, second).value.balances, k)
         == BalanceOf(m.balances, k) + if k.prime == p then Parts(k.owner, finder, pending, first, second) else 0
  {
    hide CreditEach;
    if pending != [] {
      var x, y := first + second % |pending|, second / |pending|;
      PartsBalance(m, finder, pending, p, x, y, k);
    }
  }

  lemma MintBalance(s: State, m: Money, finder: Address, height: nat, p: nat, k: Asset)
    requires Mint(s, m, finder, height, p).Some?
    ensures BalanceOf(Mint(s, m, finder, height, p).value.balances, k)
         == BalanceOf(m.balances, k)
            + if k.prime != p then 0
              else if s.validators == [] || height == 0 then Parts(k.owner, finder, s.pending, 500_000, 500_000)
              else (if k.owner == RewardPoolAddress(s.epoch) then 100_000 else 0)
                   + Parts(k.owner, finder, s.pending, 450_000, 450_000)
  {
    hide Reward, Parts, RewardPoolAddress;
    if s.validators == [] || height == 0 {
      RewardBalance(m, finder, s.pending, p, 500_000, 500_000, k);
    } else {
      var pool := Credit(m, Asset(RewardPoolAddress(s.epoch), p), 100_000).value;
      RewardBalance(pool, finder, s.pending, p, 450_000, 450_000, k);
    }
  }

  // ---------------------------------------------------------------- a record

  /** Every balance after an accepted record: what it was, less what its transactions take from
      the account, what they give it, their fees if it is the fee pool of the epoch, and its
      parts of the new asset. */
  lemma RecordMoves(v: Verifier, s: State, r: Record, k: Asset)
    requires Execute(v, s, r).Some?
    ensures var txs, p := r.body.transactions, r.header.integer;
            BalanceOf(Execute(v, s, r).value.accounts.money.balances, k) + TakenFrom(txs, k)
            == BalanceOf(s.accounts.money.balances, k) + GivenTo(txs, k)
               + (if k.owner == FeePoolAddress(s.epoch) then Fees(txs, k.prime) else 0)
               + if r.Composite? || k.prime != p then 0
                 else if s.validators == [] || r.header.height == 0 then Parts(k.owner, r.pratt.provider, s.pending, 500_000, 500_000)
                 else (if k.owner == RewardPoolAddress(s.epoch) then 100_000 else 0)
                      + Parts(k.owner, r.pratt.provider, s.pending, 450_000, 450_000)
  {
    hide ApplyTransactions, Mint, Parts, TakenFrom, GivenTo, Fees, RewardPoolAddress;
    var ctx, to := TxContext(s, r.header.integer), FeePoolAddress(s.epoch);
    BatchMoves(v.signatures, ctx, s.accounts, r.body.transactions, to, k);
    var accounts := ApplyTransactions(v.signatures, ctx, s.accounts, r.body.transactions, to).value;
    if r.PrimeRecord? {
      MintBalance(s, accounts.money, r.pratt.provider, r.header.height, r.header.integer, k);
    }
  }

  // ---------------------------------------------------------------- a new asset

  lemma NobodyHolds(m: Money, k: Asset)
    requires Consistent(m) && k.prime !in m.supply
    ensures BalanceOf(m.balances, k) == 0
  {
  }

  /** Whatever transactions come with it, a new asset is not in circulation before it is
      minted. */
  lemma NotYetHeld(v: Verifier, s: State, r: Record, frontier: nat, k: Asset)
    requires AssetsOk(s.accounts.money, frontier) && k.prime == r.header.integer == frontier + 1
    requires ApplyTransactions(v.signatures, TxContext(s, r.header.integer), s.accounts, r.body.transactions,
                               FeePoolAddress(s.epoch)).Some?
    ensures BalanceOf(ApplyTransactions(v.signatures, TxContext(s, r.header.integer), s.accounts, r.body.transactions,
                                        FeePoolAddress(s.epoch)).value.money.balances, k) == 0
  {
    hide Consistent, ApplyAll, ApplyTransactions;
    var ctx, to := TxContext(s, r.header.integer), FeePoolAddress(s.epoch);
    SoundAssets(s.accounts.money, frontier);
    BatchConserves(v.signatures, ctx, s.accounts, r.body.transactions, to);
    NobodyHolds(ApplyTransactions(v.signatures, ctx, s.accounts, r.body.transactions, to).value.money, k);
  }

  lemma MintedBalances(v: Verifier, s: State, r: Record, frontier: nat, a: Address)
    requires AssetsOk(s.accounts.money, frontier) && r.PrimeRecord? && r.header.integer == frontier + 1 && Execute(v, s, r).Some?
    ensures BalanceOf(Execute(v, s, r).value.accounts.money.balances, Asset(a, r.header.integer))
         == if s.validators == [] || r.header.height == 0 then Parts(a, r.pratt.provider, s.pending, 500_000, 500_000)
            else (if a == RewardPoolAddress(s.epoch) then 100_000 else 0) + Parts(a, r.pratt.provider, s.pending, 450_000, 450_000)
  {
    hide ApplyTransactions, Mint, Parts, RewardPoolAddress, AssetsOk;
    var ctx, to, k := TxContext(s, r.header.integer), FeePoolAddress(s.epoch), Asset(a, r.header.integer);
    NotYetHeld(v, s, r, frontier, k);
    var accounts := ApplyTransactions(v.signatures, ctx, s.accounts, r.body.transactions, to).value;
    MintBalance(s, accounts.money, r.pratt.provider, r.header.height, r.header.integer, k);
  }

  lemma ExecutedBalances(v: Verifier, s: State, r: Record)
    requires Replay1(v, s, r).Some?
    ensures var i := Install(s, r);
            && Execute(v, i, r).Some? && Replay1(v, s, r).value.accounts == Execute(v, i, r).value.accounts
            && i.pending == s.pending && i.epoch == s.epoch && i.accounts == s.accounts
            && (i.validators == [] || r.header.height == 0 <==> s.validators == [] || r.header.height == 0)
  {
    hide Execute, PayloadOk, MetadataOk, Advance;
    AdvanceFields(v, Install(s, r), Execute(v, Install(s, r), r).value, r);
  }

  /** Who owns a new asset: after an accepted prime record on a chain with validators, 100,000
      of its units are in the reward pool of the epoch in force; the finder has 450,000 and
      what 450,000 leaves when divided among the pending providers, or 900,000 when there are
      none; each provider has its part as often as it is pending; parts add up, and nobody else
      has any. At genesis and without validators it is half and half, and no pool. */
  lemma NewAsset(v: Verifier, s: State, r: Record, a: Address)
    requires LedgerOk(s) && Replay1(v, s, r).Some? && r.PrimeRecord?
    ensures var held := BalanceOf(Replay1(v, s, r).value.accounts.money.balances, Asset(a, r.header.integer));
            var n, times, finder := |s.pending|, multiset(s.pending)[a], a == r.pratt.provider;
            if s.validators == [] || r.header.height == 0 then
              if n == 0 then held == if finder then 1_000_000 else 0
              else held == (if finder then 500_000 + 500_000 % n else 0) + times * (500_000 / n)
            else
              var pool := if a == RewardPoolAddress(s.epoch) then 100_000 else 0;
              if n == 0 then held == pool + if finder then 900_000 else 0
              else held == pool + (if finder then 450_000 + 450_000 % n else 0) + times * (450_000 / n)
  {
    hide Execute, PayloadOk, MetadataOk, AssetsOk, HoldersOk, EpochsOk, NamesOk, RewardPoolAddress, Replay1;
    ExecutedBalances(v, s, r);
    ReplayedIsExpected(v, s, r);
    InstalledOk(v, s, r);
    MintedBalances(v, Install(s, r), r, r.header.integer - 1, a);
  }

  lemma ReplayedIsExpected(v: Verifier, s: State, r: Record)
    requires Replay1(v, s, r).Some?
    ensures Expected(s, r) && PayloadOk(v, s, r)
  {
    hide Execute, MetadataOk, Advance, PayloadOk;
  }
}
