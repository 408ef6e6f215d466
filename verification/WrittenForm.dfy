/**
 What of a record is written (src/protocol/records.cpp): a record in memory may carry fields
 its version does not write. They are at their defaults when it is read back.
 */
module WrittenForm {
  import opened Machine
  import opened Records
  import opened Formats
  import opened FieldFormats
  import opened RecordForm
  import opened SubjectIdentity

  function WrittenTransition(t: EpochTransition, version: u64): EpochTransition {
    if version < 2 then NO_TRANSITION
    else if version < EPOCH_VOTE_ANCHOR then EpochTransition(t.epoch, NULL_HASH, 0, t.activation, t.next, t.votes)
    else t
  }

  function WrittenPolicy(p: PolicyUpdate, version: u64): PolicyUpdate {
    if version < 4 then NO_POLICY
    else if version < 7 then PolicyUpdate(p.fee, 0, p.effective, p.sequence, p.votes)
    else p
  }

  function WrittenMetadata(m: Metadata, version: u64): Metadata {
    Metadata(
      WrittenTransition(m.epoch, version),
      if version < 3 then [] else m.endpoints,
      WrittenPolicy(m.policy, version),
      if version < 5 then [] else m.applications,
      if version < 6 then [] else m.bindings)
  }

  function WrittenGenesis(g: GenesisConfig, h: Header): GenesisConfig {
    if h.height != 0 then NO_GENESIS
    else if h.version < SUBJECT_IDENTITY then GenesisConfig(g.validators, "")
    else g
  }

  /** A round change of the older rule is written without the lock. */
  function WithoutLock(c: RoundChangeVote): RoundChangeVote {
    RoundChangeVote(c.validator, c.publicKey, c.previous, c.integer, c.newRound, 0, "", NULL_HASH, [], c.signature)
  }

  function WithoutLocks(cs: seq<RoundChangeVote>): seq<RoundChangeVote> {
    seq(|cs|, i requires 0 <= i < |cs| => WithoutLock(cs[i]))
  }

  function WrittenFinalization(f: Finalization): Finalization {
    Finalization(
      f.rule,
      if f.rule == LOCKED_ROUNDS_RULE then f.roundChanges
      else if f.rule == ROUNDS_RULE then WithoutLocks(f.roundChanges)
      else [],
      f.votes)
  }

  /** The record as it is read back. */
  function Written(r: Record): (q: Record)
    ensures q.Composite? == r.Composite? && q.header == r.header && q.body == r.body
  {
    var v := r.header.version;
    if r.Composite? then
      Composite(r.header, r.division, r.body, if 1 <= v < DIRECT_COMPOSITE then r.commitPhase else NO_COMMIT_PHASE,
                WrittenMetadata(r.metadata, v), if v < COMPOSITE_LOTTERY then NO_LOTTERY else r.lottery,
                WrittenFinalization(r.finalization))
    else
      PrimeRecord(r.header, r.pratt, r.body, WrittenGenesis(r.genesis, r.header),
                  WrittenMetadata(r.metadata, v), WrittenFinalization(r.finalization))
  }

  /** The formats of the parts do not write these fields either. */
  ghost predicate OmitsUnwritten(sc: Schema) {
    && (forall f {:trigger WrittenFinalization(f)} ::
          sc.parts.finalization.render(f) == sc.parts.finalization.render(WrittenFinalization(f)))
    && (forall t, v: u64 {:trigger WrittenTransition(t, v)} :: v >= 2 ==>
          sc.metadata.transition(v).render(t) == sc.metadata.transition(v).render(WrittenTransition(t, v)))
    && (forall p, v: u64 {:trigger WrittenPolicy(p, v)} :: v >= 4 ==>
          sc.metadata.policy(v).render(p) == sc.metadata.policy(v).render(WrittenPolicy(p, v)))
    && (forall g, h: Header {:trigger WrittenGenesis(g, h)} :: h.height == 0 ==>
          sc.metadata.genesis(h.version).render(g) == sc.metadata.genesis(h.version).render(WrittenGenesis(g, h)))
  }

  lemma MetadataWritten(sc: Schema, m: Metadata, version: u64)
    requires OmitsUnwritten(sc)
    ensures SerializeMetadata(sc, WrittenMetadata(m, version), version) == SerializeMetadata(sc, m, version)
  {
    assert WrittenTransition(m.epoch, version) == WrittenMetadata(m, version).epoch;
    assert WrittenPolicy(m.policy, version) == WrittenMetadata(m, version).policy;
  }

  /** The bytes of a record are those of its written form. */
  lemma SerializeWritten(sc: Schema, r: Record, certified: bool)
    requires OmitsUnwritten(sc)
    ensures Serialize(sc, Written(r), certified) == Serialize(sc, r, certified)
  {
    hide SerializeMetadata, SerializeHeader, WrittenMetadata, WrittenFinalization, WrittenGenesis;
    MetadataWritten(sc, r.metadata, r.header.version);
    FinalizationWritten(sc, r.finalization);
    if r.PrimeRecord? && r.header.height == 0 {
      GenesisWritten(sc, r.genesis, r.header);
    }
  }

  lemma FinalizationWritten(sc: Schema, f: Finalization)
    requires OmitsUnwritten(sc)
    ensures sc.parts.finalization.render(WrittenFinalization(f)) == sc.parts.finalization.render(f)
  {
  }

  lemma GenesisWritten(sc: Schema, g: GenesisConfig, h: Header)
    requires OmitsUnwritten(sc) && h.height == 0
    ensures sc.metadata.genesis(h.version).render(WrittenGenesis(g, h)) == sc.metadata.genesis(h.version).render(g)
  {
  }

  /** So are the bytes of its subject. */
  lemma SubjectWritten(sc: Schema, r: Record)
    requires OmitsUnwritten(sc)
    ensures Subject(Written(r)) == Written(Subject(r))
    ensures SubjectBytes(sc, Written(r)) == SubjectBytes(sc, r)
  {
    hide WrittenMetadata, Serialize;
    assert WrittenFinalization(NO_FINALIZATION) == NO_FINALIZATION;
    SerializeWritten(sc, Subject(r), false);
  }

  // ---------------------------------------------------------------- reading back

  /** A record as it can be in memory: sizes below 2^64 and one byte per character. */
  predicate Representable(sc: Schema, r: Record)
    requires LawfulSchema(sc)
  {
    RecordFormat(sc, r.Composite?, true, true).holds(Written(r))
  }

  /** Its bytes read as its written form if that is within the decode limits, and not at all
      otherwise, as long as the endpoint list is read. */
  lemma FullDecides(sc: Schema, r: Record)
    requires LawfulSchema(sc) && OmitsUnwritten(sc) && Representable(sc, r)
    ensures ParseAll(RecordFormat(sc, r.Composite?, true, true), Serialize(sc, r, true))
         == if Storable(sc, Written(r)) then Some(Written(r)) else None
  {
    hide Serialize, RecordFormat, Written;
    var q := Written(r);
    SerializeWritten(sc, r, true);
    Rendered(sc, q, true);
    AllDecides(RecordFormat(sc, r.Composite?, true, true), q);
  }

  /** What is within the limits reads back as its written form. */
  lemma WrittenReadsBack(sc: Schema, r: Record)
    requires LawfulSchema(sc) && OmitsUnwritten(sc) && Storable(sc, Written(r))
    ensures Deserialize(sc, r.Composite?, Serialize(sc, r, true)) == Some(Written(r))
  {
    hide Serialize, Deserialize, Written, Storable;
    SerializeWritten(sc, r, true);
    RoundTrip(sc, Written(r));
  }

  // ---------------------------------------------------------------- the header comes first

  function Tag(composite: bool): u64 {
    if composite then COMPOSITE_TAG else PRIME_TAG
  }

  lemma HeaderValid(tag: u64, h: Header)
    ensures HeaderFormat(tag).valid(h)
  {
  }

  lemma SameHeader(tag: u64, a: Header, b: Header)
    requires SerializeHeader(tag, a) == SerializeHeader(tag, b)
    ensures a == b
  {
    hide HeaderFormat, SerializeHeader, Lawful;
    HeaderRendered(tag, a);
    HeaderRendered(tag, b);
    HeaderValid(tag, a);
    HeaderValid(tag, b);
    AllReadsBack(HeaderFormat(tag), a);
    AllReadsBack(HeaderFormat(tag), b);
  }

  lemma SerializedHeader(sc: Schema, r: Record) returns (rest: Bytes)
    ensures Serialize(sc, r, true) == SerializeHeader(Tag(r.Composite?), r.header) + rest
  {
    hide SerializeHeader, SerializeMetadata;
    rest := Serialize(sc, r, true)[|SerializeHeader(Tag(r.Composite?), r.header)|..];
  }

  lemma RenderedHeader(sc: Schema, q: Record, endpoints: bool) returns (rest: Bytes)
    requires LawfulSchema(sc)
    ensures RecordFormat(sc, q.Composite?, endpoints, true).render(q) == SerializeHeader(Tag(q.Composite?), q.header) + rest
  {
    HeaderRendered(Tag(q.Composite?), q.header);
    if q.Composite? {
      rest := CompositeRest(sc, q.header.version, MetadataFormat(sc, q.header.version, endpoints), true).render(FromComposite(q).1);
    } else {
      rest := PrimeRest(sc, q.header, MetadataFormat(sc, q.header.version, endpoints), true).render(FromPrime(q).1);
    }
  }

  lemma HeaderSize(tag: u64, h: Header)
    ensures |SerializeHeader(tag, h)| == 64
  {
  }

  lemma PrefixOfBoth(a: Bytes, b: Bytes, x: Bytes, y: Bytes)
    requires a + x == b + y && |a| == |b|
    ensures a == b
  {
    assert a == (a + x)[..|a|] && b == (b + y)[..|b|];
  }

  /** Bytes of a record never decode to one with another header. */
  lemma DecodedHeader(sc: Schema, r: Record)
    requires LawfulSchema(sc) && Deserialize(sc, r.Composite?, Serialize(sc, r, true)).Some?
    ensures var q := Deserialize(sc, r.Composite?, Serialize(sc, r, true)).value;
            q.Composite? == r.Composite? && q.header == r.header
  {
    hide Serialize, SerializeHeader, RecordFormat;
    var b, composite := Serialize(sc, r, true), r.Composite?;
    var q := Deserialize(sc, composite, b).value;
    var endpoints := ParseAll(RecordFormat(sc, composite, true, true), b).Some?;
    var f := RecordFormat(sc, composite, endpoints, true);
    AllCanonical(f, b);
    KindOfFormat(sc, composite, endpoints, true, q);
    var x := SerializedHeader(sc, r);
    var y := RenderedHeader(sc, q, endpoints);
    HeaderSize(Tag(composite), r.header);
    HeaderSize(Tag(composite), q.header);
    PrefixOfBoth(SerializeHeader(Tag(composite), r.header), SerializeHeader(Tag(composite), q.header), x, y);
    SameHeader(Tag(composite), r.header, q.header);
  }

  // ---------------------------------------------------------------- exact conditions

  /** At every version but 3 the bytes of a record decode to its written form if that is
      within the decode limits, and are refused otherwise. */
  lemma DecodesWritten(sc: Schema, r: Record)
    requires LawfulSchema(sc) && OmitsUnwritten(sc) && Representable(sc, r) && r.header.version != 3
    ensures Deserialize(sc, r.Composite?, Serialize(sc, r, true))
         == if Storable(sc, Written(r)) then Some(Written(r)) else None
  {
    hide Serialize, Storable, Written, RecordFormat, Representable;
    FullDecides(sc, r);
    if Deserialize(sc, r.Composite?, Serialize(sc, r, true)).Some? {
      DecodedHeader(sc, r);
    }
  }

  /** A record reads back as itself exactly when it is storable. */
  lemma StorableIff(sc: Schema, r: Record)
    requires LawfulSchema(sc) && sc.metadata.endpoints.valid([])
    ensures Storable(sc, r) <==> Deserialize(sc, r.Composite?, Serialize(sc, r, true)) == Some(r)
  {
    hide Serialize, RecordFormat, Deserialize;
    var b := Serialize(sc, r, true);
    if Storable(sc, r) {
      RoundTrip(sc, r);
    }
    if Deserialize(sc, r.Composite?, b) == Some(r) {
      DecodedIsCanonical(sc, r.Composite?, b);
      CanonicalIsStorable(sc, r.Composite?, b);
    }
  }

  lemma CanonicalIsStorable(sc: Schema, composite: bool, b: Bytes)
    requires LawfulSchema(sc) && Deserialize(sc, composite, b).Some?
    requires ParseAll(RecordFormat(sc, composite, true, true), b).Some?
    ensures Storable(sc, Deserialize(sc, composite, b).value)
  {
    hide RecordFormat;
    AllCanonical(RecordFormat(sc, composite, true, true), b);
    KindOfFormat(sc, composite, true, true, Deserialize(sc, composite, b).value);
  }

  // ---------------------------------------------------------------- storable, part by part

  predicate ValidSome<T(==)>(present: bool, f: Format<T>, default: T, t: T) {
    if present then f.valid(t) else t == default
  }

  lemma WhenValid<T(!new)>(present: bool, f: Format<T>, default: T, t: T)
    requires Lawful(f)
    ensures When(present, f, default).valid(t) <==> ValidSome(present, f, default, t)
  {
  }

  predicate MetadataValid(sc: Schema, version: u64, endpoints: bool, m: Metadata) {
    && ValidSome(version >= 2, sc.metadata.transition(version), NO_TRANSITION, m.epoch)
    && ValidSome(version >= 3 && endpoints, sc.metadata.endpoints, [], m.endpoints)
    && ValidSome(version >= 4, sc.metadata.policy(version), NO_POLICY, m.policy)
    && ValidSome(version >= 5, sc.metadata.applications, [], m.applications)
    && ValidSome(version >= 6, sc.metadata.bindings, [], m.bindings)
  }

  lemma MetadataValidIff(sc: Schema, version: u64, endpoints: bool, m: Metadata)
    requires LawfulSchema(sc)
    ensures MetadataFormat(sc, version, endpoints).valid(m) <==> MetadataValid(sc, version, endpoints, m)
  {
    hide Pair, When, Lawful, ValidSome;
    var f1 := When(version >= 2, sc.metadata.transition(version), NO_TRANSITION);
    var f2 := When(version >= 3 && endpoints, sc.metadata.endpoints, []);
    var f3 := When(version >= 4, sc.metadata.policy(version), NO_POLICY);
    var f4 := When(version >= 5, sc.metadata.applications, []);
    var f5 := When(version >= 6, sc.metadata.bindings, []);
    PairRenders(f1, Pair(f2, Pair(f3, Pair(f4, f5))), FromMetadata(m));
    PairRenders(f2, Pair(f3, Pair(f4, f5)), FromMetadata(m).1);
    PairRenders(f3, Pair(f4, f5), FromMetadata(m).1.1);
    PairRenders(f4, f5, FromMetadata(m).1.1.1);
    WhenValid(version >= 2, sc.metadata.transition(version), NO_TRANSITION, m.epoch);
    WhenValid(version >= 3 && endpoints, sc.metadata.endpoints, [], m.endpoints);
    WhenValid(version >= 4, sc.metadata.policy(version), NO_POLICY, m.policy);
    WhenValid(version >= 5, sc.metadata.applications, [], m.applications);
    WhenValid(version >= 6, sc.metadata.bindings, [], m.bindings);
  }

  predicate CompositePartsValid(sc: Schema, endpoints: bool, r: Record)
    requires r.Composite?
  {
    var v := r.header.version;
    && sc.parts.division.valid(r.division) && sc.parts.body.valid(r.body)
    && ValidSome(1 <= v < DIRECT_COMPOSITE, sc.parts.commitPhase, NO_COMMIT_PHASE, r.commitPhase)
    && MetadataValid(sc, v, endpoints, r.metadata)
    && ValidSome(v >= COMPOSITE_LOTTERY, sc.parts.lottery, NO_LOTTERY, r.lottery)
    && sc.parts.finalization.valid(r.finalization)
  }

  /** Which composite records a layout can hold. */
  lemma CompositeValidIff(sc: Schema, endpoints: bool, r: Record)
    requires LawfulSchema(sc) && r.Composite?
    ensures CompositeFormat(sc, endpoints, true).valid(r) <==> CompositePartsValid(sc, endpoints, r)
  {
    hide Pair, When, Lawful, ValidSome, MetadataFormat, MetadataValid, HeaderFormat, CompositeFormat;
    var v, p := r.header.version, FromComposite(r).1;
    CompositeValid(sc, endpoints, true, r);
    HeaderValid(COMPOSITE_TAG, r.header);
    var m := MetadataFormat(sc, v, endpoints);
    MetadataValidIff(sc, v, endpoints, r.metadata);
    var c := When(1 <= v < DIRECT_COMPOSITE, sc.parts.commitPhase, NO_COMMIT_PHASE);
    var l := When(v >= COMPOSITE_LOTTERY, sc.parts.lottery, NO_LOTTERY);
    var f := When(true, sc.parts.finalization, NO_FINALIZATION);
    PairRenders(sc.parts.division, Pair(sc.parts.body, Pair(c, Pair(m, Pair(l, f)))), p);
    PairRenders(sc.parts.body, Pair(c, Pair(m, Pair(l, f))), p.1);
    PairRenders(c, Pair(m, Pair(l, f)), p.1.1);
    PairRenders(m, Pair(l, f), p.1.1.1);
    PairRenders(l, f, p.1.1.1.1);
    WhenValid(1 <= v < DIRECT_COMPOSITE, sc.parts.commitPhase, NO_COMMIT_PHASE, r.commitPhase);
    WhenValid(v >= COMPOSITE_LOTTERY, sc.parts.lottery, NO_LOTTERY, r.lottery);
    WhenPresentValid(sc.parts.finalization, NO_FINALIZATION, r.finalization);
  }

  lemma WhenPresentValid<T(!new)>(f: Format<T>, default: T, t: T)
    requires Lawful(f)
    ensures When(true, f, default).valid(t) <==> f.valid(t)
  {
  }

  predicate PrimePartsValid(sc: Schema, endpoints: bool, r: Record)
    requires r.PrimeRecord?
  {
    var v := r.header.version;
    && sc.parts.pratt.valid(r.pratt) && sc.parts.body.valid(r.body)
    && ValidSome(r.header.height == 0, sc.metadata.genesis(v), NO_GENESIS, r.genesis)
    && MetadataValid(sc, v, endpoints, r.metadata)
    && sc.parts.finalization.valid(r.finalization)
  }

  /** Which prime records a layout can hold. */
  lemma PrimeValidIff(sc: Schema, endpoints: bool, r: Record)
    requires LawfulSchema(sc) && r.PrimeRecord?
    ensures PrimeFormat(sc, endpoints, true).valid(r) <==> PrimePartsValid(sc, endpoints, r)
  {
    hide Pair, When, Lawful, ValidSome, MetadataFormat, MetadataValid, HeaderFormat, PrimeFormat;
    var v, p := r.header.version, FromPrime(r).1;
    PrimeValid(sc, endpoints, true, r);
    HeaderValid(PRIME_TAG, r.header);
    var m := MetadataFormat(sc, v, endpoints);
    MetadataValidIff(sc, v, endpoints, r.metadata);
    var g := When(r.header.height == 0, sc.metadata.genesis(v), NO_GENESIS);
    var f := When(true, sc.parts.finalization, NO_FINALIZATION);
    PairRenders(sc.parts.pratt, Pair(sc.parts.body, Pair(g, Pair(m, f))), p);
    PairRenders(sc.parts.body, Pair(g, Pair(m, f)), p.1);
    PairRenders(g, Pair(m, f), p.1.1);
    PairRenders(m, f, p.1.1.1);
    WhenValid(r.header.height == 0, sc.metadata.genesis(v), NO_GENESIS, r.genesis);
    WhenPresentValid(sc.parts.finalization, NO_FINALIZATION, r.finalization);
  }
}
