/**
 Histories: how epochs and nonces come about, and the separate replay of validator
 membership (src/node/validator_registry.cpp).
 */
module LedgerHistory {
  import opened Addresses
  import opened Records
  import opened Money
  import opened Transactions
  import opened Distribution
  import opened Ledger
  import opened LedgerInvariant
  import opened LedgerReplay

  // ---------------------------------------------------------------- epochs

  /** A replayed record moves the epoch on by a transition of the set in force before it. */
  lemma EpochStep(v: Verifier, s: State, r: Record)
    requires Replay1(v, s, r).Some?
    ensures var i, n, t := Install(s, r), Replay1(v, s, r).value, r.metadata.epoch;
            if HasTransition(t) then
              && t.epoch == i.epoch + 1 && n.epoch == t.epoch && n.validators == t.next
              && n.epochs == i.epochs[t.epoch := t.next] && QuorumOf(t.votes, i.validators)
            else n.epoch == i.epoch && n.validators == i.validators && n.epochs == i.epochs
  {
    hide PayloadOk, Execute, Noted, DistributesFees, DistributesRewards, RecordHash, QuorumOf, CanonicalSet, PolicyOk, VersionOk;
    ExecuteFields(v, Install(s, r), r);
  }

  /** Record i of the chain installed epoch e, signed by a quorum of the epoch before. */
  ghost predicate Elected(records: seq<Record>, epochs: map<nat, seq<Address>>, e: nat, i: nat) {
    && 1 <= e && e in epochs && e - 1 in epochs && i < |records|
    && HasTransition(records[i].metadata.epoch)
    && records[i].metadata.epoch.epoch == e && records[i].metadata.epoch.next == epochs[e]
    && QuorumOf(records[i].metadata.epoch.votes, epochs[e - 1])
  }

  ghost predicate WasElected(records: seq<Record>, epochs: map<nat, seq<Address>>, e: nat) {
    exists i :: Elected(records, epochs, e, i)
  }

  /** Epoch history: the epochs are exactly 0 to the current one, the current set is the last,
      later sets are canonical, and each was signed by distinct members of the set before it,
      at least ceil(2n/3) of them. */
  lemma {:induction false} EpochHistory(v: Verifier, records: seq<Record>)
    requires records != [] && Replay(v, records).Some?
    ensures var s := Replay(v, records).value;
            && EpochsOk(s)
            && (forall e :: 1 <= e <= s.epoch ==> CanonicalSet(s.epochs[e]) && WasElected(records, s.epochs, e))
    decreases |records|, 0
  {
    hide Replay1, QuorumOf, CanonicalSet, HasTransition, AssetsOk, HoldersOk, NamesOk;
    var n := |records| - 1;
    var init, last := records[..n], records[n];
    ReplayOk(v, records);
    var before, s := Replay(v, init).value, Replay(v, records).value;
    var i := Install(before, last);
    EpochStep(v, before, last);
    EarlierEpochs(v, init, last);
    forall e | 1 <= e <= s.epoch
      ensures CanonicalSet(s.epochs[e]) && WasElected(records, s.epochs, e)
    {
      assert e in s.epochs && e - 1 in s.epochs;
      assert s.epochs[e] != [] && CanonicalSet(s.epochs[e]);
      if e <= i.epoch {
        assert WasElected(init, i.epochs, e);
        var k :| Elected(init, i.epochs, e, k);
        assert s.epochs[e] == i.epochs[e] && s.epochs[e - 1] == i.epochs[e - 1];
        assert Elected(records, s.epochs, e, k);
      } else {
        assert s.epochs[e - 1] == i.epochs[i.epoch] == i.validators;
        assert Elected(records, s.epochs, e, n);
      }
    }
  }

  lemma EarlierEpochs(v: Verifier, init: seq<Record>, last: Record)
    requires Replay(v, init).Some? && Replay1(v, Replay(v, init).value, last).Some?
    ensures var i := Install(Replay(v, init).value, last);
            EpochsOk(i) && forall e :: 1 <= e <= i.epoch ==> WasElected(init, i.epochs, e)
    decreases |init|, 1
  {
    hide Replay1, QuorumOf, CanonicalSet, HasTransition;
    ReplayOk(v, init);
    GenesisEpochs(v, Replay(v, init).value, last);
    if init != [] {
      EpochHistory(v, init);
      InstallOnlyOnce(v, init, last);
    }
  }

  lemma GenesisEpochs(v: Verifier, s: State, r: Record)
    requires LedgerOk(s) && Replay1(v, s, r).Some?
    ensures EpochsOk(Install(s, r)) && (!s.started ==> Install(s, r).epoch == 0)
  {
    hide PayloadOk, MetadataOk, Execute, Advance, AssetsOk, HoldersOk, NamesOk, EpochsOk;
    InstalledOk(v, s, r);
  }

  lemma InstallOnlyOnce(v: Verifier, init: seq<Record>, last: Record)
    requires init != [] && Replay(v, init).Some? && Replay1(v, Replay(v, init).value, last).Some?
    ensures Install(Replay(v, init).value, last) == Replay(v, init).value
  {
    hide PayloadOk, MetadataOk, Execute, Advance, AssetsOk, HoldersOk, NamesOk, EpochsOk;
    ReplayOk(v, init);
  }

  // ---------------------------------------------------------------- the validator registry

  datatype Event =
    | GenesisEvent(height: nat, activation: nat, validators: seq<Address>)
    | EpochEvent(height: nat, epoch: nat, activation: nat, validators: seq<Address>)

  datatype Registry = Registry(
    started: bool, active: seq<Address>, epoch: nat, activation: nat, events: seq<Event>)

  const NO_REGISTRY := Registry(false, [], 0, 0, [])

  function ApplyGenesis(g: Registry, r: Record): Registry {
    if r.Composite? || r.header.height != 0 || r.genesis.validators == [] then g
    else Registry(true, r.genesis.validators, 0, r.header.integer,
                  g.events + [GenesisEvent(r.header.height, r.header.integer, r.genesis.validators)])
  }

  function ApplyTransition(g: Registry, r: Record): Registry {
    var t := r.metadata.epoch;
    if !HasTransition(t) then g
    else Registry(g.started, t.next, t.epoch, t.activation,
                  g.events + [EpochEvent(r.header.height, t.epoch, t.activation, t.next)])
  }

  function RegistryOf(records: seq<Record>): Registry {
    if records == [] then NO_REGISTRY
    else
      var last := records[|records| - 1];
      ApplyTransition(ApplyGenesis(RegistryOf(records[..|records| - 1]), last), last)
  }

  method LoadValidatorRegistry(records: seq<Record>) returns (g: Registry)
    ensures g == RegistryOf(records)
  {
    g := NO_REGISTRY;
    var i := 0;
    while i < |records|
      invariant 0 <= i <= |records| && g == RegistryOf(records[..i])
    {
      assert records[..i + 1][..i] == records[..i];
      g := ApplyGenesis(g, records[i]);
      g := ApplyTransition(g, records[i]);
      i := i + 1;
    }
    assert records[..i] == records;
  }

  /** The simple replay of membership agrees with the full one: same active set, same epoch,
      and one event for the genesis set and each epoch since. */
  lemma {:induction false} RegistryAgrees(v: Verifier, records: seq<Record>)
    requires Replay(v, records).Some?
    ensures var s, g := Replay(v, records).value, RegistryOf(records);
            && g.active == s.validators && g.epoch == s.epoch
            && |g.events| == s.epoch + (if g.started then 1 else 0)
  {
    hide Replay1, QuorumOf, CanonicalSet;
    if records != [] {
      var n := |records| - 1;
      RegistryAgrees(v, records[..n]);
      EpochStep(v, Replay(v, records[..n]).value, records[n]);
      RegistryStep(v, records[..n], records[n]);
    }
  }

  lemma RegistryStep(v: Verifier, init: seq<Record>, last: Record)
    requires Replay(v, init).Some? && Replay1(v, Replay(v, init).value, last).Some?
    requires var s, g := Replay(v, init).value, RegistryOf(init);
             g.active == s.validators && g.epoch == s.epoch && |g.events| == s.epoch + (if g.started then 1 else 0)
    ensures var i, g := Install(Replay(v, init).value, last), ApplyGenesis(RegistryOf(init), last);
            g.active == i.validators && g.epoch == i.epoch && |g.events| == i.epoch + (if g.started then 1 else 0)
  {
    hide PayloadOk, MetadataOk, Execute, Advance, AssetsOk, HoldersOk, NamesOk, EpochsOk;
    if init == [] {
    } else {
      ReplayOk(v, init);
    }
  }

  // ---------------------------------------------------------------- nonces

  /** lo + 1, ..., hi. */
  function Upto(lo: nat, hi: nat): seq<nat> {
    if hi <= lo then [] else Upto(lo, hi - 1) + [hi]
  }

  lemma {:induction false} UptoJoins(a: nat, b: nat, c: nat)
    requires a <= b <= c
    ensures Upto(a, b) + Upto(b, c) == Upto(a, c)
  {
    if b < c {
      UptoJoins(a, b, c - 1);
      assert Upto(a, b) + (Upto(b, c - 1) + [c]) == Upto(a, b) + Upto(b, c - 1) + [c];
    }
  }

  /** The nonces one sender uses, in order. */
  function NoncesIn(txs: seq<Transaction>, a: Address): seq<nat> {
    if txs == [] then []
    else
      var last := txs[|txs| - 1];
      NoncesIn(txs[..|txs| - 1], a) + if last.sender == a then [last.nonce] else []
  }

  lemma {:induction false} BatchNonces(sigs: Signatures, ctx: Context, accounts: Accounts, txs: seq<Transaction>, a: Address)
    requires ApplyAll(sigs, ctx, accounts, txs).Some?
    ensures var after := ApplyAll(sigs, ctx, accounts, txs).value.accounts.nonces;
            && NonceOf(accounts.nonces, a) <= NonceOf(after, a)
            && NoncesIn(txs, a) == Upto(NonceOf(accounts.nonces, a), NonceOf(after, a))
  {
    hide SignatureOk, DistributionOk, ShapeOk, Balanced, Move;
    if txs != [] {
      BatchNonces(sigs, ctx, accounts, txs[..|txs| - 1], a);
    }
  }

  function AllNonces(records: seq<Record>, a: Address): seq<nat> {
    if records == [] then []
    else AllNonces(records[..|records| - 1], a) + NoncesIn(records[|records| - 1].body.transactions, a)
  }

  lemma StepNonces(v: Verifier, s: State, r: Record, a: Address)
    requires Replay1(v, s, r).Some?
    ensures var before, after := NonceOf(s.accounts.nonces, a), NonceOf(Replay1(v, s, r).value.accounts.nonces, a);
            before <= after && NoncesIn(r.body.transactions, a) == Upto(before, after)
  {
    hide PayloadOk, MetadataOk, ApplyAll, Mint, Advance;
    var i := Install(s, r);
    BatchNonces(v.signatures, TxContext(i, r.header.integer), s.accounts, r.body.transactions, a);
    AdvanceFields(v, i, Execute(v, i, r).value, r);
  }

  /** Over any chain the nonces of a sender are exactly 1, 2, 3, ... */
  lemma {:induction false} NoncesCountUp(v: Verifier, records: seq<Record>, a: Address)
    requires Replay(v, records).Some?
    ensures AllNonces(records, a) == Upto(0, NonceOf(Replay(v, records).value.accounts.nonces, a))
  {
    hide Replay1;
    if records != [] {
      var n := |records| - 1;
      NoncesCountUp(v, records[..n], a);
      var s := Replay(v, records[..n]).value;
      StepNonces(v, s, records[n], a);
      UptoJoins(0, NonceOf(s.accounts.nonces, a), NonceOf(Replay(v, records).value.accounts.nonces, a));
    }
  }

  // ---------------------------------------------------------------- pools

  /** On any chain the members a distribution is accepted for are a canonical set. */
  lemma MembersAreCanonical(sigs: Signatures, s: State, integer: nat, batch: Batch, tx: Transaction)
    requires EpochsOk(s) && IsDistribution(tx, TxContext(s, integer))
    requires ApplyTx(sigs, TxContext(s, integer), batch, tx).Some?
    ensures CanonicalSet(Members(TxContext(s, integer), tx))
  {
    hide CanonicalSet, ApplyTx;
    DistributionShape(sigs, TxContext(s, integer), batch, tx);
    assert Members(TxContext(s, integer), tx) != [];
  }

  /** Pool distribution over whole chains: whatever the chain, a distribution accepted next
      pays sorted members of the right epoch in positive shares that differ by at most one
      and add up to the pool, everyone from integer 26488 on in the case of rewards, and
      empties the pool without changing any supply. */
  lemma ChainDistributes(v: Verifier, records: seq<Record>, integer: nat, batch: Batch, tx: Transaction)
    requires records != [] && Replay(v, records).Some? && Consistent(batch.accounts.money)
    requires var ctx := TxContext(Replay(v, records).value, integer);
             IsDistribution(tx, ctx) && ApplyTx(v.signatures, ctx, batch, tx).Some?
    ensures tx.inputs != []
    ensures var ctx := TxContext(Replay(v, records).value, integer);
            var pool := Asset(tx.sender, tx.inputs[0].prime);
            var next := ApplyTx(v.signatures, ctx, batch, tx).value.accounts.money;
            && PaysFairly(tx, Members(ctx, tx), BalanceOf(batch.accounts.money.balances, pool))
            && (PaysEveryone(tx, ctx) ==> Receivers(tx.outputs) == Members(ctx, tx))
            && BalanceOf(next.balances, pool) == 0
            && forall p :: SupplyOf(next.supply, p) == SupplyOf(batch.accounts.money.supply, p)
  {
    hide ApplyTx, PaysFairly, Consistent, Replay, AssetsOk, HoldersOk, EpochsOk, CanonicalSet, IsDistribution, Members;
    ReplayOk(v, records);
    var s := Replay(v, records).value;
    MembersAreCanonical(v.signatures, s, integer, batch, tx);
    DistributionPays(v.signatures, TxContext(s, integer), batch, tx);
    DistributionEmptiesPool(v.signatures, TxContext(s, integer), batch, tx);
  }
}
