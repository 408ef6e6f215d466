/**
 What holds in every state a node can replay to: exact minting, balanced books, the epoch
 history, and the shape a snapshot is checked for.
 */
module LedgerInvariant {
  import opened Machine
  import opened Addresses
  import opened ProtocolAddresses
  import opened Divisibility
  import opened Records
  import opened Money
  import opened Transactions
  import opened Conservation
  import opened Ledger
  import opened Minting
  import NumberTheory

  // ---------------------------------------------------------------- assets

  /** Every asset in circulation is whole and not beyond the frontier. */
  ghost predicate SupplyExact(supply: Supply, frontier: nat) {
    forall p :: p in supply ==> supply[p] == ASSET && 2 <= p <= frontier
  }

  /** The assets are the primes up to the frontier. */
  ghost predicate AssetsArePrimes(supply: Supply, frontier: nat) {
    frontier <= TWO_63 ==> forall p: nat :: p in supply <==> Prime(p) && p <= frontier
  }

  ghost predicate AssetsOk(m: Money, frontier: nat) {
    Consistent(m) && SupplyExact(m.supply, frontier) && AssetsArePrimes(m.supply, frontier)
  }

  lemma SoundAssets(m: Money, frontier: nat)
    requires AssetsOk(m, frontier)
    ensures Sound(m)
  {
    hide Consistent;
  }

  /** On a ledger in order, only the transactions can refuse a record at the next integer:
      the fee payment, the "already minted" check and the conservation check never do. */
  lemma OnlyTransactionsRefuse(v: Verifier, s: State, r: Record, frontier: nat)
    requires AssetsOk(s.accounts.money, frontier) && r.header.integer == frontier + 1
    ensures Execute(v, s, r).Some?
      <==> ApplyAll(v.signatures, TxContext(s, r.header.integer), s.accounts, r.body.transactions).Some?
  {
    hide Consistent, AssetsArePrimes, ApplyAll;
    var ctx, txs, to := TxContext(s, r.header.integer), r.body.transactions, FeePoolAddress(s.epoch);
    SoundAssets(s.accounts.money, frontier);
    BatchConserves(v.signatures, ctx, s.accounts, txs, to);
    var accounts := ApplyTransactions(v.signatures, ctx, s.accounts, txs, to);
    if accounts.Some? && r.PrimeRecord? {
      MintExact(s, accounts.value.money, r.pratt.provider, r.header.height, r.header.integer);
    }
  }

  /** A record at the next integer leaves the supply alone or adds one whole asset. */
  lemma ExecuteSupply(v: Verifier, s: State, r: Record, frontier: nat)
    requires AssetsOk(s.accounts.money, frontier) && r.header.integer == frontier + 1 && Execute(v, s, r).Some?
    ensures Consistent(Execute(v, s, r).value.accounts.money)
    ensures Execute(v, s, r).value.accounts.money.supply
         == if r.Composite? then s.accounts.money.supply else s.accounts.money.supply[r.header.integer := ASSET]
  {
    hide Consistent, AssetsArePrimes, ApplyAll;
    var ctx, txs, to := TxContext(s, r.header.integer), r.body.transactions, FeePoolAddress(s.epoch);
    SoundAssets(s.accounts.money, frontier);
    BatchConserves(v.signatures, ctx, s.accounts, txs, to);
    var accounts := ApplyTransactions(v.signatures, ctx, s.accounts, txs, to);
    if r.PrimeRecord? {
      MintExact(s, accounts.value.money, r.pratt.provider, r.header.height, r.header.integer);
    }
  }

  /** What a record says about its integer is true, up to 2^63. */
  lemma RecordTruthful(v: Verifier, s: State, r: Record)
    requires PayloadOk(v, s, r)
    ensures r.Composite? ==> !Prime(r.header.integer)
    ensures r.PrimeRecord? && r.header.integer <= TWO_63 ==> Prime(r.header.integer)
  {
    hide NumberTheory.PrattAccepts, NumberTheory.VerifyCompositeProof;
    if r.Composite? {
      NumberTheory.CompositeProofNotPrime(NumberTheory.CompositeProof(r.division.g, r.division.d, r.division.e));
    } else if r.header.integer <= TWO_63 {
      NumberTheory.PrattSound(PrattProofOf(r.pratt));
    }
  }

  /** The frontier moves by one integer, classified truthfully. */
  lemma PrimesExtended(supply: Supply, supply': Supply, frontier: nat, prime: bool)
    requires frontier + 1 <= TWO_63
    requires forall p: nat :: p in supply <==> Prime(p) && p <= frontier
    requires supply' == if prime then supply[frontier + 1 := ASSET] else supply
    requires prime <==> Prime(frontier + 1)
    ensures forall p: nat :: p in supply' <==> Prime(p) && p <= frontier + 1
  {
  }

  /** The assets after a record whose payload was checked, in the state it runs in. */
  lemma AssetsStep(v: Verifier, s: State, r: Record, frontier: nat)
    requires AssetsOk(s.accounts.money, frontier) && r.header.integer == frontier + 1 && Execute(v, s, r).Some?
    requires r.Composite? ==> !Prime(r.header.integer)
    requires r.PrimeRecord? && r.header.integer <= TWO_63 ==> Prime(r.header.integer)
    ensures AssetsOk(Execute(v, s, r).value.accounts.money, r.header.integer)
  {
    hide Consistent, Execute;
    ExecuteSupply(v, s, r, frontier);
    if r.header.integer <= TWO_63 {
      PrimesExtended(s.accounts.money.supply, Execute(v, s, r).value.accounts.money.supply, frontier, r.PrimeRecord?);
    }
  }

  // ---------------------------------------------------------------- owners

  /** Balances belong to protocol addresses. */
  predicate OwnersOk(b: Balances) {
    forall k :: k in b ==> IsProtocolAddress(k.owner)
  }

  predicate SendersOk(nonces: map<Address, nat>) {
    forall a :: a in nonces ==> IsProtocolAddress(a)
  }

  predicate ProvidersOk(pending: seq<Address>) {
    forall i :: 0 <= i < |pending| ==> IsProtocolAddress(pending[i])
  }

  lemma {:induction false} CreditOutputsOwners(m: Money, outputs: seq<TxOutput>)
    requires OwnersOk(m.balances) && OutputTotals(outputs).Some? && CreditOutputs(m, outputs).Some?
    ensures OwnersOk(CreditOutputs(m, outputs).value.balances)
  {
    hide IsProtocolAddress;
    if outputs != [] {
      CreditOutputsOwners(m, outputs[..|outputs| - 1]);
    }
  }

  lemma SenderIsProtocol(sigs: Signatures, ctx: Context, tx: Transaction)
    requires SignatureOk(sigs, ctx, tx)
    ensures IsProtocolAddress(tx.sender)
  {
    if !IsFeeDistribution(tx, ctx) && !IsRewardDistribution(tx) && !IsSignatureAddress(tx.sender) {
      var digest := sigs.keyDigest(tx.publicKey);
      assert tx.sender == DEVELOPMENT + digest;
      assert tx.sender[..|DEVELOPMENT|] == DEVELOPMENT;
      assert forall i :: 0 <= i < |DEVELOPMENT| ==> '!' <= DEVELOPMENT[i] <= '~';
      assert IsDevelopmentAddress(tx.sender);
    }
  }

  lemma ApplyTxOwners(sigs: Signatures, ctx: Context, batch: Batch, tx: Transaction)
    requires OwnersOk(batch.accounts.money.balances) && SendersOk(batch.accounts.nonces)
    requires ApplyTx(sigs, ctx, batch, tx).Some?
    ensures OwnersOk(ApplyTx(sigs, ctx, batch, tx).value.accounts.money.balances)
    ensures SendersOk(ApplyTx(sigs, ctx, batch, tx).value.accounts.nonces)
  {
    hide IsProtocolAddress, SignatureOk, DistributionOk, ShapeOk;
    SenderIsProtocol(sigs, ctx, tx);
    BalancedTotals(tx, 0);
    var debited := DebitAll(batch.accounts.money, Spender(tx), InputTotals(tx.inputs).value).value;
    CreditOutputsOwners(debited, tx.outputs);
  }

  lemma {:induction false} ApplyAllOwners(sigs: Signatures, ctx: Context, accounts: Accounts, txs: seq<Transaction>)
    requires OwnersOk(accounts.money.balances) && SendersOk(accounts.nonces) && ApplyAll(sigs, ctx, accounts, txs).Some?
    ensures OwnersOk(ApplyAll(sigs, ctx, accounts, txs).value.accounts.money.balances)
    ensures SendersOk(ApplyAll(sigs, ctx, accounts, txs).value.accounts.nonces)
  {
    hide IsProtocolAddress, ApplyTx;
    if txs != [] {
      ApplyAllOwners(sigs, ctx, accounts, txs[..|txs| - 1]);
      ApplyTxOwners(sigs, ctx, ApplyAll(sigs, ctx, accounts, txs[..|txs| - 1]).value, txs[|txs| - 1]);
    }
  }

  lemma BatchOwners(sigs: Signatures, ctx: Context, accounts: Accounts, txs: seq<Transaction>, to: Address)
    requires OwnersOk(accounts.money.balances) && SendersOk(accounts.nonces) && IsProtocolAddress(to)
    requires ApplyTransactions(sigs, ctx, accounts, txs, to).Some?
    ensures OwnersOk(ApplyTransactions(sigs, ctx, accounts, txs, to).value.money.balances)
    ensures SendersOk(ApplyTransactions(sigs, ctx, accounts, txs, to).value.nonces)
  {
    hide IsProtocolAddress, ApplyAll;
    ApplyAllOwners(sigs, ctx, accounts, txs);
  }

  lemma {:induction false} CreditEachOwners(m: Money, owners: seq<Address>, p: nat, amount: nat)
    requires OwnersOk(m.balances) && ProvidersOk(owners) && CreditEach(m, owners, p, amount).Some?
    ensures OwnersOk(CreditEach(m, owners, p, amount).value.balances)
  {
    hide IsProtocolAddress;
    if owners != [] {
      CreditEachOwners(m, owners[..|owners| - 1], p, amount);
    }
  }

  lemma RewardOwners(m: Money, finder: Address, pending: seq<Address>, p: nat, a: nat, b: nat)
    requires OwnersOk(m.balances) && ProvidersOk(pending) && IsProtocolAddress(finder)
    requires Reward(m, finder, pending, p, a, b).Some?
    ensures OwnersOk(Reward(m, finder, pending, p, a, b).value.balances)
  {
    hide IsProtocolAddress;
    if pending != [] {
      CreditEachOwners(Credit(m, Asset(finder, p), a + b % |pending|).value, pending, p, b / |pending|);
    }
  }

  lemma MintOwners(s: State, m: Money, finder: Address, height: nat, p: nat)
    requires OwnersOk(m.balances) && ProvidersOk(s.pending) && IsProtocolAddress(finder)
    requires Mint(s, m, finder, height, p).Some?
    ensures OwnersOk(Mint(s, m, finder, height, p).value.balances)
  {
    var k := Asset(RewardPoolAddress(s.epoch), p);
    assert IsProtocolAddress(k.owner);
    hide IsProtocolAddress, Reward;
    if s.validators == [] || height == 0 {
      RewardOwners(m, finder, s.pending, p, ASSET / 2, ASSET / 2);
    } else {
      RewardOwners(Credit(m, k, VALIDATOR_REWARD).value, finder, s.pending, p, PRIME_REWARD, COMPOSITE_REWARD);
    }
  }

  ghost predicate HoldersOk(s: State) {
    OwnersOk(s.accounts.money.balances) && SendersOk(s.accounts.nonces) && ProvidersOk(s.pending)
  }

  lemma ProviderIsProtocol(v: Verifier, s: State, r: Record)
    requires PayloadOk(v, s, r)
    ensures IsProtocolAddress(if r.Composite? then r.division.provider else r.pratt.provider)
  {
    hide IsProtocolAddress, NumberTheory.PrattAccepts, NumberTheory.VerifyCompositeProof, GenesisOk, BatchOk;
  }

  lemma HoldersStep(v: Verifier, s: State, r: Record)
    requires HoldersOk(s) && Execute(v, s, r).Some?
    requires IsProtocolAddress(if r.Composite? then r.division.provider else r.pratt.provider)
    ensures HoldersOk(Execute(v, s, r).value)
  {
    var ctx, txs, to := TxContext(s, r.header.integer), r.body.transactions, FeePoolAddress(s.epoch);
    assert IsProtocolAddress(to);
    hide IsProtocolAddress, ApplyTransactions, Mint;
    BatchOwners(v.signatures, ctx, s.accounts, txs, to);
    var accounts := ApplyTransactions(v.signatures, ctx, s.accounts, txs, to).value;
    if r.PrimeRecord? {
      MintOwners(s, accounts.money, r.pratt.provider, r.header.height, r.header.integer);
    }
  }

  // ---------------------------------------------------------------- participants

  predicate NamesOk(names: seq<Address>) {
    Ascending(names) && forall a :: a in names ==> IsSignatureAddress(a)
  }

  lemma {:induction false} AddSortedOk(names: seq<Address>, a: Address)
    requires Ascending(names)
    ensures Ascending(AddSorted(names, a))
    ensures forall x :: x in AddSorted(names, a) <==> x in names || x == a
    ensures names != [] ==> AddSorted(names, a)[0] == names[0] || AddSorted(names, a)[0] == a
  {
    if names != [] {
      assert names == [names[0]] + names[1..];
      LessTotal(a, names[0]);
      if Less(names[0], a) {
        LessAsymmetric(names[0], a);
        AddSortedOk(names[1..], a);
      }
    }
  }

  lemma LessAsymmetric(a: Address, b: Address)
    requires Less(a, b)
    ensures !Less(b, a) && a != b
  {
    LessIrreflexive(a);
    if Less(b, a) {
      LessTransitive(a, b, a);
    }
  }

  /** The noted names are the old ones and the signing addresses among the signers, sorted. */
  lemma {:induction false} AddSignersOk(names: seq<Address>, signers: seq<Address>)
    requires Ascending(names)
    ensures Ascending(AddSigners(names, signers))
    ensures forall x :: x in AddSigners(names, signers) <==> x in names || (x in signers && IsSignatureAddress(x))
    decreases |signers|
  {
    hide IsSignatureAddress;
    if signers != [] {
      var a := signers[0];
      AddSortedOk(names, a);
      assert signers == [a] + signers[1..];
      AddSignersOk(if IsSignatureAddress(a) then AddSorted(names, a) else names, signers[1..]);
    }
  }

  lemma NotedOk(names: seq<Address>, reset: bool, r: Record)
    requires NamesOk(names)
    ensures NamesOk(Noted(names, reset, r))
  {
    hide IsSignatureAddress, Signers;
    AddSignersOk(names, Signers(r));
  }
}
