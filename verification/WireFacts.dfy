/**
 The formats of the protocol: what they leave out, what they limit, and records at which
 their limits show (src/protocol/records.cpp).
 */
module WireFacts {
  import opened Machine
  import opened Records
  import opened Formats
  import opened FieldFormats
  import opened FieldLayouts
  import opened RecordForm
  import opened WrittenForm

  // ---------------------------------------------------------------- what is left out

  lemma LockNotWritten(c: RoundChangeVote)
    ensures RoundChangeFormat(false).render(WithoutLock(c)) == RoundChangeFormat(false).render(c)
  {
    hide RoundChangeFormat;
    RoundChangeLayout(c, false);
    RoundChangeLayout(WithoutLock(c), false);
  }

  lemma {:induction false} LocksNotWritten(cs: seq<RoundChangeVote>)
    ensures PrintAll(RoundChangeFormat(false), WithoutLocks(cs)) == PrintAll(RoundChangeFormat(false), cs)
  {
    hide RoundChangeFormat;
    if cs != [] {
      LockNotWritten(cs[0]);
      LocksNotWritten(cs[1..]);
      assert WithoutLocks(cs)[1..] == WithoutLocks(cs[1..]);
    }
  }

  lemma FinalizationOmits(f: Finalization)
    ensures FinalizationFormat().render(WrittenFinalization(f)) == FinalizationFormat().render(f)
  {
    hide FinalizationFormat, RoundChangeFormat, VoteFormat, TextBytes;
    FinalizationLayout(f);
    FinalizationLayout(WrittenFinalization(f));
    LocksNotWritten(f.roundChanges);
    assert LOCKED_ROUNDS_RULE != ROUNDS_RULE by {
      assert |LOCKED_ROUNDS_RULE| != |ROUNDS_RULE|;
    }
  }

  lemma TransitionOmits(t: EpochTransition, version: u64)
    requires version >= 2
    ensures TransitionFormat(version).render(WrittenTransition(t, version)) == TransitionFormat(version).render(t)
  {
    hide TransitionFormat, ListBytes, LittleEndian;
    TransitionLayout(t, version);
    TransitionLayout(WrittenTransition(t, version), version);
  }

  lemma PolicyOmits(p: PolicyUpdate, version: u64)
    requires version >= 4
    ensures PolicyFormat(version).render(WrittenPolicy(p, version)) == PolicyFormat(version).render(p)
  {
    hide PolicyFormat, ListBytes, LittleEndian;
    PolicyLayout(p, version);
    PolicyLayout(WrittenPolicy(p, version), version);
  }

  lemma GenesisOmits(g: GenesisConfig, h: Header)
    requires h.height == 0
    ensures GenesisFormat(h.version).render(WrittenGenesis(g, h)) == GenesisFormat(h.version).render(g)
  {
    hide GenesisFormat, ListBytes, TextBytes;
    GenesisLayout(g, h.version);
    GenesisLayout(WrittenGenesis(g, h), h.version);
  }

  lemma PartFields(sc: Schema)
    requires sc == Wire()
    ensures sc.parts.transaction == TransactionFormat() && sc.parts.division == DivisionFormat()
    ensures sc.parts.body == BodyFormat() && sc.parts.commitPhase == CommitPhaseFormat()
    ensures sc.parts.pratt == PrattFormat() && sc.parts.lottery == LotteryFormat()
    ensures sc.parts.finalization == FinalizationFormat()
  {
    hide TransactionFormat, DivisionFormat, BodyFormat, CommitPhaseFormat, PrattFormat, LotteryFormat, FinalizationFormat,
         WireMetadata, Lawful;
  }

  lemma MetadataFields(sc: Schema)
    requires sc == Wire()
    ensures sc.metadata.transition == TransitionFormat && sc.metadata.policy == PolicyFormat
    ensures sc.metadata.genesis == GenesisFormat
  {
    hide WireParts, Lawful, EndpointList, ApplicationList, BindingList;
  }

  lemma EndpointField(sc: Schema)
    requires sc == Wire()
    ensures sc.metadata.endpoints == EndpointList() && sc.metadata.applications == ApplicationList()
    ensures sc.metadata.bindings == BindingList()
  {
    hide WireParts, Lawful, EndpointList, ApplicationList, BindingList;
  }

  /** The formats of the protocol leave out exactly what Written puts back to its default. */
  lemma WireOmitsUnwritten(sc: Schema)
    requires sc == Wire()
    ensures OmitsUnwritten(sc)
  {
    hide Wire, FinalizationFormat, TransitionFormat, PolicyFormat, GenesisFormat, WrittenFinalization, WrittenTransition,
         WrittenPolicy, WrittenGenesis, Lawful;
    PartFields(sc);
    MetadataFields(sc);
    forall f: Finalization {
      FinalizationOmits(f);
    }
    forall t: EpochTransition, v: u64 | v >= 2
      ensures sc.metadata.transition(v).render(t) == sc.metadata.transition(v).render(WrittenTransition(t, v))
    {
      TransitionOmits(t, v);
    }
    forall p: PolicyUpdate, v: u64 | v >= 4
      ensures sc.metadata.policy(v).render(p) == sc.metadata.policy(v).render(WrittenPolicy(p, v))
    {
      PolicyOmits(p, v);
    }
    forall g: GenesisConfig, h: Header | h.height == 0
      ensures sc.metadata.genesis(h.version).render(g) == sc.metadata.genesis(h.version).render(WrittenGenesis(g, h))
    {
      GenesisOmits(g, h);
    }
  }

  // ---------------------------------------------------------------- decode limits

  lemma TransitionLimit(t: EpochTransition, version: u64)
    requires TransitionFormat(version).valid(t)
    ensures |t.next| <= 16
  {
  }

  /** More than 16 validators in a transition are written but never read: the record does not
      read back, and what its bytes say is refused. */
  lemma TooManyValidators(sc: Schema, r: Record)
    requires sc == Wire() && r.header.version >= 2 && |r.metadata.epoch.next| > 16
    ensures !Storable(sc, r) && Deserialize(sc, r.Composite?, Serialize(sc, r, true)) != Some(r)
    ensures Representable(sc, r) && r.header.version != 3 ==>
              Deserialize(sc, r.Composite?, Serialize(sc, r, true)) == None
  {
    hide Wire, Serialize, Deserialize, RecordFormat, TransitionFormat, Representable, OmitsUnwritten, LawfulSchema;
    WireAdmitsAbsent(sc);
    WireOmitsUnwritten(sc);
    LongTransition(sc, r);
    LongTransition(sc, Written(r));
    StorableIff(sc, r);
    if Representable(sc, r) && r.header.version != 3 {
      DecodesWritten(sc, r);
    }
  }

  lemma LongTransition(sc: Schema, r: Record)
    requires sc == Wire() && r.header.version >= 2 && |r.metadata.epoch.next| > 16
    ensures !Storable(sc, r) && |Written(r).metadata.epoch.next| > 16
  {
    hide Wire, TransitionFormat, LawfulSchema, CompositeFormat, PrimeFormat, MetadataValid, WrittenFinalization, WrittenGenesis;
    if r.Composite? {
      CompositeValidIff(sc, true, r);
    } else {
      PrimeValidIff(sc, true, r);
    }
    LongMetadata(sc, r.header.version, r.metadata);
  }

  lemma LongMetadata(sc: Schema, version: u64, m: Metadata)
    requires sc == Wire() && version >= 2 && |m.epoch.next| > 16
    ensures !MetadataValid(sc, version, true, m)
  {
    hide Wire, TransitionFormat;
    MetadataFields(sc);
    if TransitionFormat(version).valid(m.epoch) {
      TransitionLimit(m.epoch, version);
    }
  }
}
