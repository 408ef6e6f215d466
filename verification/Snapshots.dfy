/**
 The replay snapshot (src/node/sequential_node.cpp, saveSnapshot and restoreSnapshot): a
 shortcut that refines replay from the first record.
 */
module Snapshots {
  import opened Machine
  import opened Sets
  import opened Addresses
  import opened ProtocolAddresses
  import opened Records
  import opened FieldFormats
  import opened StoreFile
  import opened StoreRecovery
  import opened RecordStore
  import opened Money
  import opened Transactions
  import opened Ledger
  import opened LedgerInvariant
  import opened LedgerReplay
  import opened LedgerStore

  ghost function PrimesHeld(b: Balances): set<nat> {
    set k | k in b :: k.prime
  }

  /** The supply as the sums of the balances. */
  ghost function Rebuilt(b: Balances): Supply {
    map p | p in PrimesHeld(b) :: Held(b, p)
  }

  /** The file a node writes of its state. */
  datatype Snapshot = Snapshot(
    height: nat,
    frontier: nat,
    hash: Hash256,
    balances: Balances,
    supply: Supply,
    nonces: map<Address, nat>,
    pending: seq<Address>,
    validators: seq<Address>,
    epochs: map<nat, seq<Address>>,
    epoch: nat,
    fee: nat,
    reserve: nat,
    feeParticipants: seq<Address>,
    rewardParticipants: seq<Address>)

  function Save(s: State): Snapshot {
    Snapshot(s.height, s.frontier, s.tip, s.accounts.money.balances, s.accounts.money.supply, s.accounts.nonces,
             s.pending, s.validators, s.epochs, s.epoch, s.fee, s.reserve, s.feeParticipants, s.rewardParticipants)
  }

  predicate EpochSetsOk(p: Snapshot) {
    && p.epoch in p.epochs && p.epochs[p.epoch] == p.validators
    && (forall k :: k in p.epochs ==>
          if p.epochs[k] == [] then p.validators == [] && p.epoch == 0 && k == 0 else CanonicalSet(p.epochs[k]))
  }

  /** The checks on a snapshot before it is taken over. */
  ghost predicate RestoreOk(p: Snapshot) {
    && OwnersOk(p.balances) && (forall k :: k in p.balances ==> k.prime >= 2)
    && (forall q :: q in PrimesHeld(p.balances) ==> Held(p.balances, q) < TWO_64)
    && EpochSetsOk(p)
    && Rebuilt(p.balances) == p.supply
    && (if p.validators == [] then p.epoch == 0 else CanonicalSet(p.validators))
    && ProvidersOk(p.pending) && SendersOk(p.nonces)
    && NamesOk(p.feeParticipants) && NamesOk(p.rewardParticipants)
    && p.fee != 0 && p.reserve != 0
  }

  function Restored(p: Snapshot): State {
    State(true, p.height, p.frontier, p.hash, Accounts(Money(p.balances, p.supply), p.nonces), p.pending,
          p.validators, p.epochs, p.epoch, p.fee, p.reserve, p.feeParticipants, p.rewardParticipants)
  }

  /** restoreSnapshot. */
  ghost function Restore(p: Snapshot): Option<State> {
    if RestoreOk(p) then Some(Restored(p)) else None
  }

  /** The part of the balances of one asset seen so far. */
  ghost function HeldBy(b: Balances, keys: seq<Asset>, p: nat): nat
    requires forall k :: k in keys ==> k in b
  {
    SumOver(b, set k | k in keys && k.prime == p)
  }

  lemma NothingHeld(b: Balances, keys: seq<Asset>)
    ensures forall p: nat :: HeldBy(b, keys[..0], p) == 0
  {
    forall p: nat
      ensures HeldBy(b, keys[..0], p) == 0
    {
      assert (set k | k in keys[..0] && k.prime == p) == {};
    }
  }

  lemma HeldByOneMore(b: Balances, keys: seq<Asset>, i: nat, p: nat)
    requires i < |keys| && (forall k :: k in keys ==> k in b)
    requires forall j, k :: 0 <= j < k < |keys| ==> keys[j] != keys[k]
    ensures keys[i] in b
    ensures HeldBy(b, keys[..i + 1], p) == HeldBy(b, keys[..i], p) + if keys[i].prime == p then b[keys[i]] else 0
  {
    assert keys[i] in keys;
    var before, after := set k | k in keys[..i] && k.prime == p, set k | k in keys[..i + 1] && k.prime == p;
    assert keys[..i + 1] == keys[..i] + [keys[i]];
    if keys[i].prime == p {
      assert after == before + {keys[i]} && keys[i] !in before;
      SumOverRemove(b, after, keys[i]);
      assert after - {keys[i]} == before;
    } else {
      assert after == before;
    }
  }

  lemma {:induction false} HeldByGrows(b: Balances, keys: seq<Asset>, i: nat, p: nat)
    requires i <= |keys| && (forall k :: k in keys ==> k in b)
    requires forall j, k :: 0 <= j < k < |keys| ==> keys[j] != keys[k]
    ensures HeldBy(b, keys[..i], p) <= HeldBy(b, keys, p)
    decreases |keys| - i
  {
    if i < |keys| {
      HeldByOneMore(b, keys, i, p);
      HeldByGrows(b, keys, i + 1, p);
    } else {
      assert keys[..i] == keys;
    }
  }

  lemma HeldByAll(b: Balances, keys: seq<Asset>, p: nat)
    requires forall k :: k in keys <==> k in b
    ensures HeldBy(b, keys, p) == Held(b, p)
  {
    assert (set k | k in keys && k.prime == p) == Holders(b, p);
  }

  /** The loop that adds up the balances of a snapshot, checked against 64 bits. */
  method RebuildSupply(b: Balances) returns (supply: Option<Supply>)
    ensures supply.Some? <==> forall p :: p in PrimesHeld(b) ==> Held(b, p) < TWO_64
    ensures supply.Some? ==> supply.value == Rebuilt(b)
  {
    hide Held, SumOver;
    var sums: Supply := map[];
    var keys := InSomeOrder(b.Keys);
    var i := 0;
    NothingHeld(b, keys);
    while i < |keys|
      invariant 0 <= i <= |keys|
      invariant forall p :: p in sums <==> exists j :: 0 <= j < i && keys[j].prime == p
      invariant forall p :: p in sums ==> sums[p] == HeldBy(b, keys[..i], p) < TWO_64
      invariant forall p :: p !in sums ==> HeldBy(b, keys[..i], p) == 0
    {
      var k := keys[i];
      var total := SupplyOf(sums, k.prime);
      HeldByOneMore(b, keys, i, k.prime);
      if b[k] + total >= TWO_64 {
        HeldByGrows(b, keys, i + 1, k.prime);
        HeldByAll(b, keys, k.prime);
        assert k.prime in PrimesHeld(b);
        return None;
      }
      forall p: nat
        ensures HeldBy(b, keys[..i + 1], p) == HeldBy(b, keys[..i], p) + if k.prime == p then b[k] else 0
      {
        HeldByOneMore(b, keys, i, p);
      }
      sums := sums[k.prime := total + b[k]];
      i := i + 1;
    }
    assert keys[..i] == keys;
    forall p: nat
      ensures HeldBy(b, keys, p) == Held(b, p)
    {
      HeldByAll(b, keys, p);
    }
    SumsAreRebuilt(b, keys, sums);
    return Some(sums);
  }

  lemma SumsAreRebuilt(b: Balances, keys: seq<Asset>, sums: Supply)
    requires forall k :: k in keys <==> k in b
    requires forall p :: p in sums <==> exists j :: 0 <= j < |keys| && keys[j].prime == p
    requires forall p :: p in sums ==> sums[p] == Held(b, p) < TWO_64
    ensures sums == Rebuilt(b)
  {
    hide Held;
    forall p: nat
      ensures p in sums <==> p in PrimesHeld(b)
    {
      if p in sums {
        var j :| 0 <= j < |keys| && keys[j].prime == p;
        assert keys[j] in keys && keys[j] in b;
      }
      if p in PrimesHeld(b) {
        var k :| k in b && k.prime == p;
        assert k in keys;
        var j :| 0 <= j < |keys| && keys[j] == k;
      }
    }
  }

  /** The checks of restoreSnapshot. */
  method CheckSnapshot(p: Snapshot) returns (ok: bool)
    ensures ok <==> RestoreOk(p)
  {
    hide Held, CanonicalSet, IsProtocolAddress, IsSignatureAddress;
    if !OwnersOk(p.balances) || exists k :: k in p.balances && k.prime < 2 {
      return false;
    }
    var supply := RebuildSupply(p.balances);
    if supply.None? || !EpochSetsOk(p) || supply.value != p.supply {
      return false;
    }
    return && (if p.validators == [] then p.epoch == 0 else CanonicalSet(p.validators))
           && ProvidersOk(p.pending) && SendersOk(p.nonces)
           && NamesOk(p.feeParticipants) && NamesOk(p.rewardParticipants)
           && p.fee != 0 && p.reserve != 0;
  }

  lemma RebuiltIsSupply(m: Money)
    requires Consistent(m)
    ensures Rebuilt(m.balances) == m.supply
  {
    hide Held;
    forall p | p in m.supply
      ensures p in PrimesHeld(m.balances)
    {
      var k :| k in m.balances && k.prime == p;
    }
  }

  /** The snapshot of every state in order passes all the checks and restores that state. */
  lemma SnapshotRestores(s: State)
    requires StartedOk(s)
    ensures Restore(Save(s)) == Some(s)
  {
    hide Held, CanonicalSet, IsProtocolAddress, IsSignatureAddress;
    var m := s.accounts.money;
    RebuiltIsSupply(m);
    forall p | p in PrimesHeld(m.balances)
      ensures Held(m.balances, p) < TWO_64
    {
      assert p in Rebuilt(m.balances) && m.supply[p] == ASSET;
    }
    assert EpochSetsOk(Save(s));
  }

  lemma RebuiltIsConsistent(m: Money)
    requires Rebuilt(m.balances) == m.supply
    ensures Consistent(m)
  {
    hide Held;
    forall k | k in m.balances
      ensures k.prime in m.supply
    {
      assert k.prime in PrimesHeld(m.balances);
    }
    forall p | p in m.supply
      ensures exists k :: k in m.balances && k.prime == p
    {
      assert p in PrimesHeld(m.balances);
    }
  }

  /** Exactly what the checks establish: balanced books of assets from 2 on within 64 bits,
      protocol addresses, sorted participants, a policy, and for every epoch a canonical set, the
      last one in force; only a chain without validators has an empty one. */
  lemma RestoreIff(p: Snapshot)
    ensures Restore(p).Some?
       <==> && Consistent(Money(p.balances, p.supply)) && (forall q :: q in p.supply ==> q >= 2 && p.supply[q] < TWO_64)
            && HoldersOk(Restored(p)) && NamesOk(p.feeParticipants) && NamesOk(p.rewardParticipants)
            && p.fee >= 1 && p.reserve >= 1 && p.epoch in p.epochs && p.epochs[p.epoch] == p.validators
            && forall e :: e in p.epochs ==> CanonicalSet(p.epochs[e]) || (p.epochs[e] == [] && e == p.epoch == 0)
  {
    hide Held, CanonicalSet, OwnersOk, SendersOk, ProvidersOk, NamesOk;
    var m := Money(p.balances, p.supply);
    if Rebuilt(p.balances) == p.supply {
      RebuiltIsConsistent(m);
      forall q | q in p.supply
        ensures q in PrimesHeld(p.balances) && p.supply[q] == Held(p.balances, q)
        ensures exists k :: k in p.balances && k.prime == q
      {
      }
    }
    if Consistent(m) {
      RebuiltIsSupply(m);
    }
    EmptySetIsNotCanonical();
  }

  lemma EmptySetIsNotCanonical()
    ensures !CanonicalSet([])
  {
  }

  // ---------------------------------------------------------------- load from a snapshot

  /** The stored record a snapshot stands for: its own integer, height and identity. */
  predicate Anchored(p: Snapshot, store: seq<Entry>) {
    && p.frontier < TWO_64 && p.frontier == p.height + 2
    && var e := LinearFind(store, p.frontier);
       e.Some? && e.value.height == p.height && e.value.hash == p.hash
  }

  /** The records after the snapshot. */
  function Later(p: Snapshot, store: seq<Entry>): seq<Entry>
    requires store != []
  {
    var latest := store[|store| - 1].integer;
    if latest > p.frontier then LinearRange(store, p.frontier + 1, latest) else []
  }

  ghost function LoadFrom(v: Verifier, s: State, store: seq<Entry>): (x: Option<State>)
    requires LawfulSchema(v.schema)
  {
    if store == [] then Some(s)
    else
      var before := LoadFrom(v, s, store[..|store| - 1]);
      if before.None? then None else LoadEntry(v, before.value, store[|store| - 1])
  }

  /** The snapshot load starts from, if there is one that is anchored and restores. */
  ghost predicate Usable(store: seq<Entry>, snapshot: Option<Snapshot>) {
    store != [] && snapshot.Some? && Anchored(snapshot.value, store) && Restore(snapshot.value).Some?
  }

  /** load: from the snapshot when it is usable, and otherwise from the first record. A refused
      record fails it either way: the second load after a refusal behind a snapshot finds the
      error of the first and returns. */
  ghost function LoadWith(v: Verifier, store: seq<Entry>, snapshot: Option<Snapshot>): (x: Option<State>)
    requires LawfulSchema(v.schema)
  {
    if Usable(store, snapshot) then LoadFrom(v, Restore(snapshot.value).value, Later(snapshot.value, store))
    else LoadStore(v, store)
  }

  lemma {:induction false} FoundIsStored(store: seq<Entry>, n: u64)
    requires LinearFind(store, n).Some?
    ensures LinearFind(store, n).value in store && LinearFind(store, n).value.integer == n
  {
    if store[0].integer != n {
      FoundIsStored(store[1..], n);
    }
  }

  /** A snapshot of a record that is not in the store, by integer, height and hash, has no effect
      on load, whatever it holds. */
  lemma ForeignSnapshotIgnored(v: Verifier, store: seq<Entry>, p: Snapshot)
    requires LawfulSchema(v.schema)
    requires forall e :: e in store ==> !(e.integer == p.frontier && e.height == p.height && e.hash == p.hash)
    ensures LoadWith(v, store, Some(p)) == LoadStore(v, store)
  {
    hide LoadFrom, LoadStore, Restore, LawfulSchema, LinearFind;
    if p.frontier < TWO_64 && LinearFind(store, p.frontier).Some? {
      FoundIsStored(store, p.frontier);
    }
  }

  lemma {:induction false} LoadSplits(v: Verifier, a: seq<Entry>, b: seq<Entry>)
    requires LawfulSchema(v.schema) && LoadStore(v, a).Some?
    ensures LoadStore(v, a + b) == LoadFrom(v, LoadStore(v, a).value, b)
  {
    hide LoadEntry, LawfulSchema;
    if b == [] {
      assert a + b == a;
    } else {
      var n := |b| - 1;
      LoadSplits(v, a, b[..n]);
      assert (a + b)[..|a + b| - 1] == a + b[..n] && (a + b)[|a + b| - 1] == b[n];
    }
  }

  /** The state is that of the store up to here: same height, integer and identity. */
  ghost predicate AtTip(s: State, store: seq<Entry>) {
    && store != [] && s.frontier == s.height + 2
    && store[|store| - 1].integer == s.frontier && store[|store| - 1].height == s.height && store[|store| - 1].hash == s.tip
  }

  /** A snapshot of the state a node was in at some record continues from exactly that state,
      however the node got there. */
  lemma SnapshotContinues(v: Verifier, s: State, a: seq<Entry>, b: seq<Entry>)
    requires LawfulSchema(v.schema) && StartedOk(s) && AtTip(s, a) && IntegersAscend(a + b)
    ensures LoadWith(v, a + b, Some(Save(s))) == LoadFrom(v, s, b)
  {
    hide LoadFrom, LoadStore, Restore, StartedOk, LawfulSchema;
    var store, n := a + b, |a|;
    SnapshotRestores(s);
    LinearFindAt(store, n - 1);
    assert store[n - 1] == a[n - 1];
    assert Anchored(Save(s), store);
    LaterRecords(s, a, b);
  }

  lemma LaterRecords(s: State, a: seq<Entry>, b: seq<Entry>)
    requires AtTip(s, a) && IntegersAscend(a + b)
    ensures Later(Save(s), a + b) == b
  {
    hide LinearRange, IntegersAscend;
    var store, n := a + b, |a|;
    assert store[n - 1] == a[n - 1];
    if b == [] {
      assert store == a;
    } else {
      SplitAtTip(store, n, s.frontier);
      RangeIsSlice(store, s.frontier + 1, store[|store| - 1].integer, n, |store|);
      assert store[n..] == b;
    }
  }

  /** Integers of ascending entries lie on either side of the one at n - 1. */
  lemma SplitAtTip(store: seq<Entry>, n: nat, frontier: nat)
    requires IntegersAscend(store) && 0 < n < |store| && store[n - 1].integer == frontier
    ensures forall k :: 0 <= k < n ==> store[k].integer <= frontier
    ensures forall k :: n <= k < |store| ==> frontier < store[k].integer <= store[|store| - 1].integer
  {
    hide IntegersAscend;
    var last := |store| - 1;
    forall k | 0 <= k < n
      ensures store[k].integer <= frontier
    {
      if k < n - 1 {
        AscendOrders(store, k, n - 1);
      }
    }
    forall k | n <= k < |store|
      ensures frontier < store[k].integer <= store[last].integer
    {
      AscendOrders(store, n - 1, k);
      if k < last {
        AscendOrders(store, k, last);
      }
    }
  }

  lemma LoadedAtTip(v: Verifier, store: seq<Entry>)
    requires LawfulSchema(v.schema) && store != [] && LoadStore(v, store).Some?
    ensures StartedOk(LoadStore(v, store).value) && AtTip(LoadStore(v, store).value, store)
  {
    hide LoadStore, StartedOk, LedgerOk, Replay1, LawfulSchema, RecordHash;
    var n := |store| - 1;
    var s, r := LastLoaded(v, store);
    LoadedOk(v, store);
    LoadedOk(v, store[..n]);
    AnchorFields(v, s, r);
  }

  lemma AnchorFields(v: Verifier, s: State, r: Record)
    requires LedgerOk(s) && Replay1(v, s, r).Some?
    ensures var n := Replay1(v, s, r).value;
            && n.height == r.header.height && n.frontier == r.header.integer && n.frontier == n.height + 2
            && n.tip == RecordHash(v, r)
  {
    hide PayloadOk, Execute, MetadataOk, Advance, AssetsOk, HoldersOk, EpochsOk, NamesOk, RecordHash;
    AdvanceFields(v, Install(s, r), Execute(v, Install(s, r), r).value, r);
  }

  /** Snapshot refinement: with the snapshot a node wrote after loading some records, load
      gives what loading everything gives. */
  lemma SnapshotRefines(v: Verifier, a: seq<Entry>, b: seq<Entry>)
    requires LawfulSchema(v.schema) && a != [] && LoadStore(v, a).Some? && IntegersAscend(a + b)
    ensures LoadWith(v, a + b, Some(Save(LoadStore(v, a).value))) == LoadStore(v, a + b)
  {
    hide LoadWith, LoadStore, StartedOk, LoadFrom, LawfulSchema;
    LoadedAtTip(v, a);
    SnapshotContinues(v, LoadStore(v, a).value, a, b);
    LoadSplits(v, a, b);
  }
}
