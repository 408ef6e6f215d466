/**
 The layout of records by version (src/protocol/records.cpp), for any lawful formats of
 their parts.
 */
module RecordForm {
  import opened Machine
  import opened Records
  import opened Formats
  import opened FieldFormats

  type MetadataParts =
    (EpochTransition, (seq<EndpointUpdate>, (PolicyUpdate, (seq<Application>, seq<WorkBinding>))))

  function ToMetadata(p: MetadataParts): Metadata {
    Metadata(p.0, p.1.0, p.1.1.0, p.1.1.1.0, p.1.1.1.1)
  }

  function FromMetadata(x: Metadata): MetadataParts {
    (x.epoch, (x.endpoints, (x.policy, (x.applications, x.bindings))))
  }

  /** The metadata of a version. Version 3 also reads records written without the endpoint
      list. */
  function MetadataFormat(sc: Schema, version: u64, endpoints: bool): (f: Format<Metadata>)
    requires LawfulSchema(sc)
    ensures Lawful(f)
  {
    Map(Pair(When(version >= 2, sc.metadata.transition(version), NO_TRANSITION),
             Pair(When(version >= 3 && endpoints, sc.metadata.endpoints, []),
             Pair(When(version >= 4, sc.metadata.policy(version), NO_POLICY),
             Pair(When(version >= 5, sc.metadata.applications, []),
                  When(version >= 6, sc.metadata.bindings, []))))),
        ToMetadata, FromMetadata)
  }

  const COMPOSITE_TAG: u64 := 1
  const PRIME_TAG: u64 := 2

  type HeaderParts = (u64, (u64, (u64, (Hash256, u64))))

  function HeaderFormat(tag: u64): (f: Format<Header>)
    ensures Lawful(f)
  {
    Select(Pair(Only(Word(), tag), Pair(Word(), Pair(Word(), Pair(Digest(), Word())))),
           (p: HeaderParts) => Header(p.1.0, p.1.1.0, p.1.1.1.0, p.1.1.1.1),
           (x: Header) => (tag, (x.version, (x.height, (x.previous, x.integer)))))
  }

  type CompositeParts = (Division, (Body, (CommitPhase, (Metadata, (Lottery, Finalization)))))

  /** Everything after the header of a composite record. Subjects are not certified. */
  function CompositeRest(sc: Schema, version: u64, metadata: Format<Metadata>, certified: bool): (f: Format<CompositeParts>)
    requires LawfulSchema(sc) && Lawful(metadata)
    ensures Lawful(f)
  {
    Pair(sc.parts.division, Pair(sc.parts.body,
      Pair(When(1 <= version < DIRECT_COMPOSITE, sc.parts.commitPhase, NO_COMMIT_PHASE),
      Pair(metadata,
      Pair(When(version >= COMPOSITE_LOTTERY, sc.parts.lottery, NO_LOTTERY),
           When(certified, sc.parts.finalization, NO_FINALIZATION))))))
  }

  type PrimeParts = (Pratt, (Body, (GenesisConfig, (Metadata, Finalization))))

  function PrimeRest(sc: Schema, h: Header, metadata: Format<Metadata>, certified: bool): (f: Format<PrimeParts>)
    requires LawfulSchema(sc) && Lawful(metadata)
    ensures Lawful(f)
  {
    Pair(sc.parts.pratt, Pair(sc.parts.body,
      Pair(When(h.height == 0, sc.metadata.genesis(h.version), NO_GENESIS),
      Pair(metadata, When(certified, sc.parts.finalization, NO_FINALIZATION)))))
  }

  const NO_HEADER := Header(0, 0, NULL_HASH, 0)
  const NO_BODY := Body(TransactionBatch(0, NULL_HASH), [], NULL_HASH)
  const NO_METADATA := Metadata(NO_TRANSITION, [], NO_POLICY, [], [])

  function ToComposite(p: (Header, CompositeParts)): Record {
    Composite(p.0, p.1.0, p.1.1.0, p.1.1.1.0, p.1.1.1.1.0, p.1.1.1.1.1.0, p.1.1.1.1.1.1)
  }

  function FromComposite(r: Record): (Header, CompositeParts) {
    if r.Composite? then
      (r.header, (r.division, (r.body, (r.commitPhase, (r.metadata, (r.lottery, r.finalization))))))
    else
      (NO_HEADER, (Division(0, 0, 0, "", []),
        (NO_BODY, (NO_COMMIT_PHASE, (NO_METADATA, (NO_LOTTERY, NO_FINALIZATION))))))
  }

  function ToPrime(p: (Header, PrimeParts)): Record {
    PrimeRecord(p.0, p.1.0, p.1.1.0, p.1.1.1.0, p.1.1.1.1.0, p.1.1.1.1.1)
  }

  function FromPrime(r: Record): (Header, PrimeParts) {
    if r.PrimeRecord? then
      (r.header, (r.pratt, (r.body, (r.genesis, (r.metadata, r.finalization)))))
    else
      (NO_HEADER, (Pratt(0, 0, [], "", []), (NO_BODY, (NO_GENESIS, (NO_METADATA, NO_FINALIZATION)))))
  }

  function CompositeFormat(sc: Schema, endpoints: bool, certified: bool): (f: Format<Record>)
    requires LawfulSchema(sc)
    ensures Lawful(f)
  {
    Map(Then(HeaderFormat(COMPOSITE_TAG),
             (h: Header) => CompositeRest(sc, h.version, MetadataFormat(sc, h.version, endpoints), certified)),
        ToComposite, FromComposite)
  }

  function PrimeFormat(sc: Schema, endpoints: bool, certified: bool): (f: Format<Record>)
    requires LawfulSchema(sc)
    ensures Lawful(f)
  {
    Map(Then(HeaderFormat(PRIME_TAG),
             (h: Header) => PrimeRest(sc, h, MetadataFormat(sc, h.version, endpoints), certified)),
        ToPrime, FromPrime)
  }

  function RecordFormat(sc: Schema, composite: bool, endpoints: bool, certified: bool): (f: Format<Record>)
    requires LawfulSchema(sc)
    ensures Lawful(f)
  {
    if composite then CompositeFormat(sc, endpoints, certified) else PrimeFormat(sc, endpoints, certified)
  }

  lemma CompositeValid(sc: Schema, endpoints: bool, certified: bool, r: Record)
    requires LawfulSchema(sc)
    ensures CompositeFormat(sc, endpoints, certified).valid(r)
      <==> r.Composite? && HeaderFormat(COMPOSITE_TAG).valid(r.header)
           && CompositeRest(sc, r.header.version, MetadataFormat(sc, r.header.version, endpoints), certified).valid(FromComposite(r).1)
  {
    assert r.Composite? <==> ToComposite(FromComposite(r)) == r;
  }

  lemma PrimeValid(sc: Schema, endpoints: bool, certified: bool, r: Record)
    requires LawfulSchema(sc)
    ensures PrimeFormat(sc, endpoints, certified).valid(r)
      <==> r.PrimeRecord? && HeaderFormat(PRIME_TAG).valid(r.header)
           && PrimeRest(sc, r.header, MetadataFormat(sc, r.header.version, endpoints), certified).valid(FromPrime(r).1)
  {
    assert r.PrimeRecord? <==> ToPrime(FromPrime(r)) == r;
  }

  // ---------------------------------------------------------------- serialization

  function Part<T>(present: bool, f: Format<T>, t: T): Bytes {
    if present then f.render(t) else []
  }

  function SerializeHeader(tag: u64, h: Header): Bytes {
    LittleEndian(tag, 8)
    + (LittleEndian(h.version, 8) + (LittleEndian(h.height, 8) + (h.previous + LittleEndian(h.integer, 8))))
  }

  function SerializeMetadata(sc: Schema, m: Metadata, version: u64): Bytes {
    Part(version >= 2, sc.metadata.transition(version), m.epoch)
    + (Part(version >= 3, sc.metadata.endpoints, m.endpoints)
    + (Part(version >= 4, sc.metadata.policy(version), m.policy)
    + (Part(version >= 5, sc.metadata.applications, m.applications)
    + Part(version >= 6, sc.metadata.bindings, m.bindings))))
  }

  /** The bytes of a record, field by field; subjects leave out the certificate. */
  function Serialize(sc: Schema, r: Record, certified: bool): Bytes {
    var v := r.header.version;
    if r.Composite? then
      SerializeHeader(COMPOSITE_TAG, r.header)
      + (sc.parts.division.render(r.division)
      + (sc.parts.body.render(r.body)
      + (Part(1 <= v < DIRECT_COMPOSITE, sc.parts.commitPhase, r.commitPhase)
      + (SerializeMetadata(sc, r.metadata, v)
      + (Part(v >= COMPOSITE_LOTTERY, sc.parts.lottery, r.lottery)
      + Part(certified, sc.parts.finalization, r.finalization))))))
    else
      SerializeHeader(PRIME_TAG, r.header)
      + (sc.parts.pratt.render(r.pratt)
      + (sc.parts.body.render(r.body)
      + (Part(r.header.height == 0, sc.metadata.genesis(v), r.genesis)
      + (SerializeMetadata(sc, r.metadata, v)
      + Part(certified, sc.parts.finalization, r.finalization)))))
  }

  lemma HeaderRendered(tag: u64, h: Header)
    ensures HeaderFormat(tag).render(h) == SerializeHeader(tag, h)
  {
  }

  lemma MetadataRendered(sc: Schema, m: Metadata, version: u64)
    requires LawfulSchema(sc)
    ensures MetadataFormat(sc, version, true).render(m) == SerializeMetadata(sc, m, version)
  {
    var f1 := When(version >= 2, sc.metadata.transition(version), NO_TRANSITION);
    var f2 := When(version >= 3 && true, sc.metadata.endpoints, []);
    var f3 := When(version >= 4, sc.metadata.policy(version), NO_POLICY);
    var f4 := When(version >= 5, sc.metadata.applications, []);
    var f5 := When(version >= 6, sc.metadata.bindings, []);
    assert MetadataFormat(sc, version, true).render(m)
      == f1.render(m.epoch) + (f2.render(m.endpoints) + (f3.render(m.policy)
         + (f4.render(m.applications) + f5.render(m.bindings)))) by {
      PairRenders(f1, Pair(f2, Pair(f3, Pair(f4, f5))), FromMetadata(m));
      PairRenders(f2, Pair(f3, Pair(f4, f5)), FromMetadata(m).1);
      PairRenders(f3, Pair(f4, f5), FromMetadata(m).1.1);
      PairRenders(f4, f5, FromMetadata(m).1.1.1);
    }
    WhenRenders(version >= 2, sc.metadata.transition(version), NO_TRANSITION, m.epoch);
    WhenRenders(version >= 3 && true, sc.metadata.endpoints, [], m.endpoints);
    WhenRenders(version >= 4, sc.metadata.policy(version), NO_POLICY, m.policy);
    WhenRenders(version >= 5, sc.metadata.applications, [], m.applications);
    WhenRenders(version >= 6, sc.metadata.bindings, [], m.bindings);
  }

  lemma PairRenders<A(!new), B(!new)>(f: Format<A>, g: Format<B>, p: (A, B))
    requires Lawful(f) && Lawful(g)
    ensures Pair(f, g).render(p) == f.render(p.0) + g.render(p.1)
    ensures Pair(f, g).valid(p) <==> f.valid(p.0) && g.valid(p.1)
  {
  }

  lemma WhenRenders<T(!new)>(present: bool, f: Format<T>, default: T, t: T)
    requires Lawful(f)
    ensures When(present, f, default).render(t) == Part(present, f, t)
  {
  }

  lemma CompositeRestRendered(sc: Schema, r: Record, f: Format<Metadata>, certified: bool)
    requires LawfulSchema(sc) && Lawful(f) && r.Composite?
    requires f.render(r.metadata) == SerializeMetadata(sc, r.metadata, r.header.version)
    ensures SerializeHeader(COMPOSITE_TAG, r.header)
            + CompositeRest(sc, r.header.version, f, certified).render(FromComposite(r).1) == Serialize(sc, r, certified)
  {
  }

  lemma PrimeRestRendered(sc: Schema, r: Record, f: Format<Metadata>, certified: bool)
    requires LawfulSchema(sc) && Lawful(f) && r.PrimeRecord?
    requires f.render(r.metadata) == SerializeMetadata(sc, r.metadata, r.header.version)
    ensures SerializeHeader(PRIME_TAG, r.header)
            + PrimeRest(sc, r.header, f, certified).render(FromPrime(r).1) == Serialize(sc, r, certified)
  {
  }

  /** The printer of the format writes the fields as the source does. */
  lemma Rendered(sc: Schema, r: Record, certified: bool)
    requires LawfulSchema(sc)
    ensures RecordFormat(sc, r.Composite?, true, certified).render(r) == Serialize(sc, r, certified)
  {
    var f := MetadataFormat(sc, r.header.version, true);
    MetadataRendered(sc, r.metadata, r.header.version);
    if r.Composite? {
      HeaderRendered(COMPOSITE_TAG, r.header);
      CompositeRestRendered(sc, r, f, certified);
    } else {
      HeaderRendered(PRIME_TAG, r.header);
      PrimeRestRendered(sc, r, f, certified);
    }
  }

  // ---------------------------------------------------------------- deserialization

  /** Reads a stored record. Version 3 first tries the layout with an endpoint list, then the
      one without. */
  function Deserialize(sc: Schema, composite: bool, b: Bytes): (r: Option<Record>)
    requires LawfulSchema(sc)
  {
    var full := ParseAll(RecordFormat(sc, composite, true, true), b);
    if full.Some? then full
    else
      var bare := ParseAll(RecordFormat(sc, composite, false, true), b);
      if bare.Some? && bare.value.header.version == 3 then bare else None
  }

  /** Within the decode limits, with the fields its version does not write at their
      defaults. */
  predicate Storable(sc: Schema, r: Record)
    requires LawfulSchema(sc)
  {
    RecordFormat(sc, r.Composite?, true, true).valid(r)
  }

  /** Round trip: a storable record of any version reads back as itself. */
  lemma RoundTrip(sc: Schema, r: Record)
    requires LawfulSchema(sc) && Storable(sc, r)
    ensures Deserialize(sc, r.Composite?, Serialize(sc, r, true)) == Some(r)
  {
    Rendered(sc, r, true);
    AllReadsBack(RecordFormat(sc, r.Composite?, true, true), r);
  }

  lemma KindOfFormat(sc: Schema, composite: bool, endpoints: bool, certified: bool, r: Record)
    requires LawfulSchema(sc) && RecordFormat(sc, composite, endpoints, certified).valid(r)
    ensures r.Composite? == composite
  {
    CompositeValid(sc, endpoints, certified, r);
    PrimeValid(sc, endpoints, certified, r);
  }

  lemma MetadataBareIsFull(sc: Schema, version: u64, m: Metadata)
    requires LawfulSchema(sc) && sc.metadata.endpoints.valid([])
    requires MetadataFormat(sc, version, false).valid(m)
    ensures MetadataFormat(sc, version, true).valid(m)
  {
    var p := FromMetadata(m);
    assert When(version >= 3 && false, sc.metadata.endpoints, []).valid(p.1.0);
    assert p.1.0 == [];
    assert When(version >= 3 && true, sc.metadata.endpoints, []).valid(p.1.0);
  }

  /** What the short version 3 layout can hold, the full one can hold too. */
  lemma BareIsFull(sc: Schema, r: Record)
    requires LawfulSchema(sc) && RecordFormat(sc, r.Composite?, false, true).valid(r)
    requires sc.metadata.endpoints.valid([])
    ensures RecordFormat(sc, r.Composite?, true, true).valid(r)
  {
    var h, m := r.header, r.metadata;
    var short, long := MetadataFormat(sc, h.version, false), MetadataFormat(sc, h.version, true);
    if r.Composite? {
      CompositeValid(sc, false, true, r);
      CompositeValid(sc, true, true, r);
      CompositeRestValid(sc, h.version, short, long, FromComposite(r).1);
      MetadataBareIsFull(sc, h.version, m);
    } else {
      PrimeValid(sc, false, true, r);
      PrimeValid(sc, true, true, r);
      PrimeRestValid(sc, h, short, long, FromPrime(r).1);
      MetadataBareIsFull(sc, h.version, m);
    }
  }

  lemma CompositeRestValid(sc: Schema, version: u64, f: Format<Metadata>, g: Format<Metadata>, p: CompositeParts)
    requires LawfulSchema(sc) && Lawful(f) && Lawful(g) && CompositeRest(sc, version, f, true).valid(p)
    ensures f.valid(p.1.1.1.0)
    ensures g.valid(p.1.1.1.0) ==> CompositeRest(sc, version, g, true).valid(p)
  {
  }

  lemma PrimeRestValid(sc: Schema, h: Header, f: Format<Metadata>, g: Format<Metadata>, p: PrimeParts)
    requires LawfulSchema(sc) && Lawful(f) && Lawful(g) && PrimeRest(sc, h, f, true).valid(p)
    ensures f.valid(p.1.1.1.0)
    ensures g.valid(p.1.1.1.0) ==> PrimeRest(sc, h, g, true).valid(p)
  {
  }

  /** Conversely, bytes that decode are exactly what their record serializes to, unless they
      are version 3 bytes without an endpoint list. */
  lemma DecodedIsCanonical(sc: Schema, composite: bool, b: Bytes)
    requires LawfulSchema(sc) && sc.metadata.endpoints.valid([])
    requires Deserialize(sc, composite, b).Some?
    ensures var r := Deserialize(sc, composite, b).value;
            && r.Composite? == composite
            && (r.header.version != 3 ==> Storable(sc, r) && Serialize(sc, r, true) == b)
            && (Serialize(sc, r, true) == b <==> ParseAll(RecordFormat(sc, composite, true, true), b).Some?)
  {
    var r := Deserialize(sc, composite, b).value;
    var full := RecordFormat(sc, composite, true, true);
    var bare := RecordFormat(sc, composite, false, true);
    if ParseAll(full, b).Some? {
      AllCanonical(full, b);
      KindOfFormat(sc, composite, true, true, r);
      Rendered(sc, r, true);
    } else {
      AllCanonical(bare, b);
      KindOfFormat(sc, composite, false, true, r);
      if Serialize(sc, r, true) == b {
        Rendered(sc, r, true);
        BareIsFull(sc, r);
        AllReadsBack(full, r);
        assert false;
      }
    }
  }
}
