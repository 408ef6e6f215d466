/**
 The node that holds the ledger in memory and updates it in place
 (src/node/sequential_node.cpp). Every method is proved against the functions of the ledger
 model, including what is restored when something fails.
 */
module SequentialNode {
  import opened Machine
  import opened Addresses
  import opened ProtocolAddresses
  import opened Records
  import opened Money
  import opened Transactions
  import opened FieldFormats
  import opened RecordForm
  import opened StoreFile
  import opened BookKeeping
  import opened Ledger
  import opened LedgerReplay
  import opened LedgerStore
  import opened Snapshots
  import NumberTheory

  lemma {:induction false} EachFailureStays(m: Money, owners: seq<Address>, p: nat, amount: nat, i: nat)
    requires i <= |owners| && CreditEach(m, owners[..i], p, amount).None?
    ensures CreditEach(m, owners, p, amount).None?
    decreases |owners| - i
  {
    if i < |owners| {
      assert owners[..i + 1][..i] == owners[..i];
      EachFailureStays(m, owners, p, amount, i + 1);
    } else {
      assert owners[..i] == owners;
    }
  }

  lemma {:induction false} LoadFailureStays(v: Verifier, s: State, store: seq<Entry>, i: nat)
    requires LawfulSchema(v.schema) && i <= |store| && LoadFrom(v, s, store[..i]).None?
    ensures LoadFrom(v, s, store).None?
    decreases |store| - i
  {
    hide LoadEntry, LawfulSchema;
    if i < |store| {
      assert store[..i + 1][..i] == store[..i];
      LoadFailureStays(v, s, store, i + 1);
    } else {
      assert store[..i] == store;
    }
  }

  lemma LoadOneFrom(v: Verifier, s: State, store: seq<Entry>, i: nat)
    requires LawfulSchema(v.schema) && i < |store|
    ensures var before := LoadFrom(v, s, store[..i]);
            LoadFrom(v, s, store[..i + 1]) == if before.None? then None else LoadEntry(v, before.value, store[i])
  {
    hide LoadEntry, LawfulSchema;
    assert store[..i + 1][..i] == store[..i];
  }

  lemma LoadNothing(v: Verifier, s: State, store: seq<Entry>)
    requires LawfulSchema(v.schema) && store == []
    ensures LoadFrom(v, s, store) == Some(s)
  {
  }

  lemma LoadFromEmpty(v: Verifier, store: seq<Entry>)
    requires LawfulSchema(v.schema)
    ensures LoadStore(v, store) == LoadFrom(v, EMPTY, store)
  {
    hide LoadEntry, LawfulSchema;
    LoadSplits(v, [], store);
    assert [] + store == store;
  }

  class Node {
    const books: Books
    var nonces: map<Address, nat>
    var pending: seq<Address>
    var started: bool
    var height: nat
    var frontier: nat
    var tip: Hash256
    var validators: seq<Address>
    var epochs: map<nat, seq<Address>>
    var epoch: nat
    var fee: nat
    var reserve: nat
    var feeParticipants: seq<Address>
    var rewardParticipants: seq<Address>
    var store: seq<Entry>

    constructor (stored: seq<Entry>)
      ensures State() == EMPTY && store == stored && fresh(books)
    {
      store := stored;
      books := new Books();
      nonces, pending := map[], [];
      started, height, frontier, tip := false, 0, 0, NULL_HASH;
      validators, epochs, epoch := [], map[], 0;
      fee, reserve := DEFAULT_FEE, DEFAULT_RESERVE;
      feeParticipants, rewardParticipants := [], [];
    }

    function State(): State
      reads this, books
    {
      Ledger.State(started, height, frontier, tip, Accounts(books.Value(), nonces), pending, validators, epochs, epoch,
                   fee, reserve, feeParticipants, rewardParticipants)
    }

    /** One transaction of a batch. */
    method ApplyTransaction(v: Verifier, ctx: Context, tx: Transaction, fees: Supply) returns (r: Option<Supply>)
      modifies books, this`nonces
      ensures var x := ApplyTx(v.signatures, ctx, Batch(old(State()).accounts, fees), tx);
              && (r.Some? <==> x.Some?)
              && (r.Some? ==> x.value == Batch(State().accounts, r.value))
    {
      hide SignatureOk, DistributionOk, ShapeOk, DebitAll, CreditOutputs, Balanced;
      ghost var start := Batch(State().accounts, fees);
      if !SignatureOk(v.signatures, ctx, tx) || tx.inputs == [] || tx.outputs == [] {
        return None;
      }
      if !DistributionOk(ctx, books.balances, tx) || !ShapeOk(ctx, tx) || !NonceOk(nonces, tx) || !FeeOk(tx) {
        return None;
      }
      var debits := CheckBalanced(tx);
      if debits.None? {
        return None;
      }
      InputTotalsFit(tx.inputs);
      var ok := books.DebitTotals(Spender(tx), debits.value);
      if !ok {
        return None;
      }
      ok := books.CreditReceivers(tx.outputs);
      if !ok {
        return None;
      }
      r := CollectFee(fees, tx);
      if r.Some? {
        nonces := nonces[tx.sender := tx.nonce];
      }
    }

    method ApplyBatch(v: Verifier, txs: seq<Transaction>, to: Address, integer: nat) returns (ok: bool)
      modifies books, this`nonces
      ensures var x := ApplyTransactions(v.signatures, TxContext(old(State()), integer), old(State()).accounts, txs, to);
              && (ok <==> x.Some?) && (ok ==> x.value == State().accounts)
      ensures State() == old(State()).(accounts := State().accounts)
    {
      hide ApplyTx, CreditFees;
      ghost var start := State();
      var ctx := TxContext(State(), integer);
      var fees: Supply := map[];
      var i := 0;
      while i < |txs|
        invariant 0 <= i <= |txs|
        invariant ApplyAll(v.signatures, ctx, start.accounts, txs[..i]) == Some(Batch(State().accounts, fees))
      {
        assert txs[..i + 1][..i] == txs[..i];
        var collected := ApplyTransaction(v, ctx, txs[i], fees);
        if collected.None? {
          BatchFailureStays(v.signatures, ctx, start.accounts, txs, i + 1);
          return false;
        }
        fees, i := collected.value, i + 1;
      }
      assert txs[..i] == txs;
      if to == "" {
        return true;
      }
      ok := books.CreditCollectedFees(to, fees);
    }

    method CreditProviders(p: nat, amount: nat) returns (ok: bool)
      modifies books
      ensures var x := CreditEach(old(books.Value()), pending, p, amount);
              (ok <==> x.Some?) && (ok ==> x.value == books.Value())
    {
      ghost var start := books.Value();
      var i := 0;
      while i < |pending|
        invariant 0 <= i <= |pending| && CreditEach(start, pending[..i], p, amount) == Some(books.Value())
      {
        assert pending[..i + 1][..i] == pending[..i];
        var done := books.CreditAsset(Asset(pending[i], p), amount);
        if !done {
          EachFailureStays(start, pending, p, amount, i + 1);
          return false;
        }
        i := i + 1;
      }
      assert pending[..i] == pending;
      return true;
    }

    method PayReward(finder: Address, p: nat, finderPart: nat, compositePart: nat) returns (ok: bool)
      modifies books
      ensures var x := Reward(old(books.Value()), finder, pending, p, finderPart, compositePart);
              (ok <==> x.Some?) && (ok ==> x.value == books.Value())
    {
      if pending == [] {
        ok := books.CreditAsset(Asset(finder, p), finderPart + compositePart);
        return;
      }
      var each, remainder := compositePart / |pending|, compositePart % |pending|;
      ok := books.CreditAsset(Asset(finder, p), finderPart + remainder);
      if ok {
        ok := CreditProviders(p, each);
      }
    }

    /** applyPrimeLedger: a new asset for finder, providers and validators. */
    method MintAsset(finder: Address, recordHeight: nat, p: nat) returns (ok: bool)
      modifies books, this`pending
      ensures var x := Mint(old(State()), old(books.Value()), finder, recordHeight, p);
              (ok <==> x.Some?) && (ok ==> x.value == books.Value() && pending == [])
    {
      hide Reward, Credit;
      if SupplyOf(books.supply, p) != 0 {
        return false;
      }
      if validators == [] || recordHeight == 0 {
        ok := PayReward(finder, p, ASSET / 2, ASSET / 2);
      } else {
        ok := books.CreditAsset(Asset(RewardPoolAddress(epoch), p), VALIDATOR_REWARD);
        if ok {
          ok := PayReward(finder, p, PRIME_REWARD, COMPOSITE_REWARD);
        }
      }
      if !ok {
        return false;
      }
      pending := [];
      return SupplyOf(books.supply, p) == ASSET;
    }

    /** Transactions, then the provider or the new asset. A failure may leave them half done;
        the callers restore what they saved. */
    method ExecuteRecord(v: Verifier, r: Record) returns (ok: bool)
      modifies books, this`nonces, this`pending
      ensures var x := Execute(v, old(State()), r); (ok <==> x.Some?) && (ok ==> x.value == State())
      ensures State() == old(State()).(accounts := State().accounts, pending := pending)
    {
      hide ApplyTransactions, Mint;
      ok := ApplyBatch(v, r.body.transactions, FeePoolAddress(epoch), r.header.integer);
      if !ok {
        return false;
      }
      if r.Composite? {
        pending := pending + [r.division.provider];
        return true;
      }
      ghost var before := State();
      ghost var money := books.Value();
      ok := MintAsset(r.pratt.provider, r.header.height, r.header.integer);
      MintIgnoresAccounts(before, money, r.pratt.provider, r.header.height, r.header.integer, old(State()));
    }

    method Restore(money: Money, savedNonces: map<Address, nat>, savedPending: seq<Address>)
      modifies books, this`nonces, this`pending
      ensures State() == old(State()).(accounts := Accounts(money, savedNonces), pending := savedPending)
    {
      books.balances, books.supply := money.balances, money.supply;
      nonces, pending := savedNonces, savedPending;
    }

    /** The checks on a candidate that do not touch the ledger. */
    method CheckCandidate(v: Verifier, r: Record) returns (ok: bool)
      ensures ok <==> CandidateOk(v, State(), r)
    {
      hide BatchOk, MetadataOk, DivisionOk, CommitPhaseOk, CertificateSetOk, PrattSignatureOk, GenesisOk, NumberTheory.PrattAccepts;
      if !Follows(State(), r) || !BatchOk(v, r) || !MetadataOk(v, State(), r) {
        return false;
      }
      if r.Composite? {
        return DivisionOk(v, r) && CommitPhaseOk(v, r) && LotteryOk(v, r, validators) && CertificateSetOk(State(), r);
      }
      if r.pratt.p != r.header.integer || !IsProtocolAddress(r.pratt.provider) {
        return false;
      }
      var proven := NumberTheory.VerifyPrattProof(PrattProofOf(r.pratt));
      return && proven && PrattSignatureOk(v, r.pratt, r.header.previous, validators == [])
             && GenesisOk(r) && SupplyOf(books.supply, r.header.integer) == 0;
    }

    /** validateCompositeCandidate and validatePrimeCandidate: the ledger is tried and put
        back. */
    method ValidateCandidate(v: Verifier, r: Record) returns (ok: bool)
      modifies books, this`nonces, this`pending
      ensures ok <==> ValidCandidate(v, old(State()), r)
      ensures State() == old(State())
    {
      hide CandidateOk, Execute;
      ok := CheckCandidate(v, r);
      if !ok {
        return false;
      }
      var money, savedNonces, savedPending := books.Value(), nonces, pending;
      ok := ExecuteRecord(v, r);
      Restore(money, savedNonces, savedPending);
    }

    /** validatePendingTransactions: leaves the node as it was. */
    method ValidatePending(v: Verifier, txs: seq<Transaction>) returns (ok: bool)
      modifies books, this`nonces, this`pending
      ensures ok <==> ApplyTransactions(v.signatures, TxContext(old(State()), old(frontier) + 1), old(State()).accounts, txs, "").Some?
      ensures State() == old(State())
    {
      hide ApplyTransactions;
      var money, savedNonces, savedPending := books.Value(), nonces, pending;
      ok := ApplyBatch(v, txs, "", frontier + 1);
      Restore(money, savedNonces, savedPending);
    }

    method NoteRecord(v: Verifier, r: Record)
      modifies this
      ensures State() == MoveTip(v, old(State()), old(State()), r) && store == old(store)
    {
      hide Noted, RecordHash, DistributesFees, DistributesRewards, HasTransition;
      var resetFees := DistributesFees(State(), r) || HasTransition(r.metadata.epoch);
      var resetRewards := DistributesRewards(r) || HasTransition(r.metadata.epoch);
      var fees, rewards := Noted(feeParticipants, resetFees, r), Noted(rewardParticipants, resetRewards, r);
      SetTip(r.header.height, r.header.integer, RecordHash(v, r));
      SetParticipants(fees, rewards);
    }

    method SetTip(recordHeight: nat, integer: nat, hash: Hash256)
      modifies this
      ensures State() == old(State()).(started := true, height := recordHeight, frontier := integer, tip := hash)
      ensures store == old(store)
    {
      started, height, frontier, tip := true, recordHeight, integer, hash;
    }

    method SetParticipants(fees: seq<Address>, rewards: seq<Address>)
      modifies this
      ensures State() == old(State()).(feeParticipants := fees, rewardParticipants := rewards)
      ensures store == old(store)
    {
      feeParticipants, rewardParticipants := fees, rewards;
    }

    method EnactMetadata(t: EpochTransition, p: PolicyUpdate)
      modifies this
      ensures State() == Enact(old(State()), t, p) && store == old(store)
    {
      if HasTransition(t) {
        epochs := epochs[t.epoch := t.next];
        validators, epoch := t.next, t.epoch;
      }
      if HasPolicy(p) {
        fee, reserve := p.fee, p.reserve;
      }
    }

    /** appendComposite and appendPrime. `io` tells whether the files could be read and
        written. A failure, of the ledger or of the store, leaves both exactly as they were. */
    method Append(v: Verifier, r: Record, io: bool) returns (ok: bool)
      requires LawfulSchema(v.schema)
      modifies this, books
      ensures ok <==> Ledger.Append(v, old(State()), r).Some? && io
                      && StoreAppend(old(store), EntryOf(v, r), Matches(v)).Some?
      ensures ok ==> Ledger.Append(v, old(State()), r) == Some(State())
                     && StoreAppend(old(store), EntryOf(v, r), Matches(v)) == Some(store)
      ensures !ok ==> State() == old(State()) && store == old(store)
    {
      hide Execute, CandidateOk, MoveTip, Enact, StoreAppend, EntryOf, FinalizationOk, LawfulSchema;
      ghost var start := State();
      ok := ValidateCandidate(v, r);
      if !ok || !FinalizationOk(v, r, validators) {
        return false;
      }
      PolicyNeverLate(v, start, r);
      var money, savedNonces, savedPending := books.Value(), nonces, pending;
      ok := ExecuteRecord(v, r);
      var longer := StoreAppend(store, EntryOf(v, r), Matches(v));
      if !ok || longer.None? || !io {
        Restore(money, savedNonces, savedPending);
        return false;
      }
      store := longer.value;
      ghost var done := State();
      SameFeeDistribution(start, done, r);
      NoteRecord(v, r);
      EnactMetadata(r.metadata.epoch, r.metadata.policy);
      return true;
    }

    /** The payload checks of a stored record. */
    method CheckPayload(v: Verifier, r: Record) returns (ok: bool)
      ensures ok <==> PayloadOk(v, State(), r)
    {
      hide BatchOk, DivisionOk, CommitPhaseOk, CertificateSetOk, PrattSignatureOk, GenesisOk, NumberTheory.PrattAccepts;
      if !BatchOk(v, r) || !(FinalizationOk(v, r, validators) || v.legacyFinalization(r, validators)) {
        return false;
      }
      if r.Composite? {
        return && DivisionOk(v, r) && CommitPhaseOk(v, r) && LotteryOk(v, r, validators)
               && !(r.header.version == 1 && r.commitPhase.validators == []) && CertificateSetOk(State(), r);
      }
      if r.pratt.p != r.header.integer || !IsProtocolAddress(r.pratt.provider) {
        return false;
      }
      var proven := NumberTheory.VerifyPrattProof(PrattProofOf(r.pratt));
      var genesis := r.header.height == 0 && r.header.integer == 2;
      return && proven && (genesis || PrattSignatureOk(v, r.pratt, r.header.previous, validators == [])) && GenesisOk(r);
    }

    /** One stored record. */
    method ReplayRecord(v: Verifier, r: Record) returns (ok: bool)
      modifies this, books
      ensures ok <==> Replay1(v, old(State()), r).Some?
      ensures ok ==> Replay1(v, old(State()), r) == Some(State())
      ensures store == old(store)
    {
      hide Execute, PayloadOk, MetadataOk, MoveTip, Enact;
      if !Expected(State(), r) {
        return false;
      }
      ok := CheckPayload(v, r);
      if !ok {
        return false;
      }
      if r.PrimeRecord? && r.header.height == 0 {
        validators, epochs := r.genesis.validators, epochs[0 := r.genesis.validators];
      }
      ghost var installed := State();
      if !MetadataOk(v, State(), r) {
        return false;
      }
      ok := ExecuteRecord(v, r);
      if !ok || !PolicyApplies(r.metadata.policy, r.header.integer) {
        return false;
      }
      ghost var done := State();
      SameFeeDistribution(installed, done, r);
      NoteRecord(v, r);
      EnactMetadata(r.metadata.epoch, r.metadata.policy);
      return true;
    }

    /** Takes up stored records one after the other. */
    method LoadEntries(v: Verifier, entries: seq<Entry>) returns (ok: bool)
      requires LawfulSchema(v.schema)
      modifies this, books
      ensures ok <==> LoadFrom(v, old(State()), entries).Some?
      ensures ok ==> LoadFrom(v, old(State()), entries) == Some(State())
      ensures store == old(store)
    {
      hide Replay1, Deserialize, LawfulSchema, LoadFrom;
      ghost var start := State();
      LoadNothing(v, start, entries[..0]);
      var i := 0;
      while i < |entries|
        invariant 0 <= i <= |entries| && store == old(store)
        invariant LoadFrom(v, start, entries[..i]) == Some(State())
      {
        LoadOneFrom(v, start, entries, i);
        var done := LoadOne(v, entries[i]);
        if !done {
          LoadFailureStays(v, start, entries, i + 1);
          return false;
        }
        i := i + 1;
      }
      assert entries[..i] == entries;
      return true;
    }

    method LoadOne(v: Verifier, e: Entry) returns (ok: bool)
      requires LawfulSchema(v.schema)
      modifies this, books
      ensures ok <==> LoadEntry(v, old(State()), e).Some?
      ensures ok ==> LoadEntry(v, old(State()), e) == Some(State())
      ensures store == old(store)
    {
      hide Replay1, Deserialize, LawfulSchema, RecordHash;
      if !Good(e, Matches(v)) {
        return false;
      }
      var r := Decoded(v, e).value;
      if r.header.height != e.height || r.header.integer != e.integer {
        return false;
      }
      ok := ReplayRecord(v, r);
    }

    /** restoreSnapshot: takes the fields over when all checks pass. */
    method RestoreSnapshot(p: Snapshot) returns (ok: bool)
      modifies this, books
      ensures ok <==> Snapshots.Restore(p).Some?
      ensures ok ==> Snapshots.Restore(p) == Some(State())
      ensures !ok ==> State() == old(State())
      ensures store == old(store)
    {
      hide RestoreOk, Restored;
      ok := CheckSnapshot(p);
      if !ok {
        return false;
      }
      TakeOver(Restored(p));
    }

    method TakeOver(s: State)
      modifies this, books
      ensures State() == s && store == old(store)
    {
      Restore(s.accounts.money, s.accounts.nonces, s.pending);
      SetParticipants(s.feeParticipants, s.rewardParticipants);
      started, height, frontier, tip := s.started, s.height, s.frontier, s.tip;
      validators, epochs, epoch := s.validators, s.epochs, s.epoch;
      fee, reserve := s.fee, s.reserve;
    }

    /** saveSnapshot. */
    method SaveSnapshot() returns (p: Snapshot)
      ensures p == Save(State())
      ensures StartedOk(State()) ==> Snapshots.Restore(p) == Some(State())
    {
      hide StartedOk, Snapshots.Restore;
      p := Snapshot(height, frontier, tip, books.balances, books.supply, nonces, pending, validators, epochs, epoch,
                    fee, reserve, feeParticipants, rewardParticipants);
      if StartedOk(State()) {
        SnapshotRestores(State());
      }
    }

    /** load, with the snapshot that was found. A record refused behind a snapshot leaves the
        node empty. */
    method Load(v: Verifier, snapshot: Option<Snapshot>) returns (ok: bool)
      requires LawfulSchema(v.schema)
      modifies this, books
      ensures ok <==> LoadWith(v, store, snapshot).Some?
      ensures ok ==> LoadWith(v, store, snapshot) == Some(State())
      ensures !ok && Usable(store, snapshot) ==> State() == EMPTY
      ensures store == old(store)
    {
      hide LoadFrom, LoadStore, LawfulSchema, Anchored, Later, Snapshots.Restore;
      Reset();
      if store != [] && snapshot.Some? && Anchored(snapshot.value, store) {
        var restored := RestoreSnapshot(snapshot.value);
        if restored {
          ok := LoadEntries(v, Later(snapshot.value, store));
          if !ok {
            Reset();
          }
          return;
        }
      }
      LoadFromEmpty(v, store);
      ok := LoadEntries(v, store);
    }

    method Reset()
      modifies this, books
      ensures State() == EMPTY && store == old(store)
    {
      TakeOver(EMPTY);
    }
  }

  lemma SameFeeDistribution(s: State, t: State, r: Record)
    requires t == s.(accounts := t.accounts, pending := t.pending)
    ensures DistributesFees(s, r) == DistributesFees(t, r)
    ensures forall v: Verifier, x: State :: MoveTip(v, s, x, r) == MoveTip(v, t, x, r)
  {
    hide Noted, RecordHash, DistributesRewards;
    forall i | 0 <= i < |r.body.transactions|
      ensures IsFeeDistribution(r.body.transactions[i], TxContext(s, r.header.integer))
           == IsFeeDistribution(r.body.transactions[i], TxContext(t, r.header.integer))
    {
    }
  }

  lemma MintIgnoresAccounts(s: State, m: Money, finder: Address, height: nat, p: nat, t: State)
    requires s.validators == t.validators && s.pending == t.pending && s.epoch == t.epoch
    ensures Mint(s, m, finder, height, p) == Mint(t, m, finder, height, p)
  {
    hide Reward, Credit;
  }

  lemma {:induction false} InputTotalsFit(inputs: seq<TxInput>)
    requires InputTotals(inputs).Some?
    ensures forall p :: p in InputTotals(inputs).value ==> InputTotals(inputs).value[p] < TWO_64
  {
    if inputs != [] {
      InputTotalsFit(inputs[..|inputs| - 1]);
    }
  }
}
