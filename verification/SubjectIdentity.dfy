/**
 Subjects: what the record hash of versions 11 and later covers, and what the short version
 3 layout loses (src/protocol/records.cpp).
 */
module SubjectIdentity {
  import opened Machine
  import opened Records
  import opened Formats
  import opened FieldFormats
  import opened RecordForm

  /** The record without its certificate and lottery evidence. */
  function Subject(r: Record): Record {
    if r.Composite? then
      Composite(r.header, r.division, r.body, r.commitPhase, r.metadata, NO_LOTTERY, NO_FINALIZATION)
    else
      PrimeRecord(r.header, r.pratt, r.body, r.genesis, r.metadata, NO_FINALIZATION)
  }

  function SubjectBytes(sc: Schema, r: Record): Bytes {
    Serialize(sc, Subject(r), false)
  }

  ghost predicate Encodable(sc: Schema, s: Record)
    requires LawfulSchema(sc)
  {
    RecordFormat(sc, s.Composite?, true, false).valid(s)
  }

  lemma TagsDiffer(sc: Schema, r: Record, s: Record)
    requires r.Composite? && s.PrimeRecord?
    ensures Serialize(sc, r, false) != Serialize(sc, s, false)
  {
    SerializedAfterHeader(sc, r);
    SerializedAfterHeader(sc, s);
    FirstByte(COMPOSITE_TAG, r.header, Serialize(sc, r, false)[64..]);
    FirstByte(PRIME_TAG, s.header, Serialize(sc, s, false)[64..]);
  }

  lemma FirstByte(tag: u64, h: Header, rest: Bytes)
    ensures (SerializeHeader(tag, h) + rest)[0] == tag % 256
  {
    assert LittleEndian(tag, 8)[0] == tag % 256;
  }

  lemma SerializedAfterHeader(sc: Schema, r: Record)
    ensures |Serialize(sc, r, false)| >= 64
    ensures Serialize(sc, r, false)
         == SerializeHeader(if r.Composite? then COMPOSITE_TAG else PRIME_TAG, r.header) + Serialize(sc, r, false)[64..]
  {
    var header := SerializeHeader(if r.Composite? then COMPOSITE_TAG else PRIME_TAG, r.header);
    assert |header| == 64;
  }

  /** Equal subject encodings come from equal subjects. */
  lemma SubjectInjective(sc: Schema, r: Record, s: Record)
    requires LawfulSchema(sc) && Encodable(sc, Subject(r)) && Encodable(sc, Subject(s))
    requires SubjectBytes(sc, r) == SubjectBytes(sc, s)
    ensures Subject(r) == Subject(s)
  {
    if r.Composite? && s.PrimeRecord? {
      TagsDiffer(sc, Subject(r), Subject(s));
    } else if s.Composite? && r.PrimeRecord? {
      TagsDiffer(sc, Subject(s), Subject(r));
    } else {
      var f := RecordFormat(sc, r.Composite?, true, false);
      Rendered(sc, Subject(r), false);
      Rendered(sc, Subject(s), false);
      AllReadsBack(f, Subject(r));
      AllReadsBack(f, Subject(s));
    }
  }

  /** Every record that can be stored has an encodable subject. */
  lemma StorableSubject(sc: Schema, r: Record)
    requires LawfulSchema(sc) && Storable(sc, r) && sc.parts.lottery.valid(NO_LOTTERY)
    ensures Encodable(sc, Subject(r))
  {
    var h := r.header;
    var f := MetadataFormat(sc, h.version, true);
    if r.Composite? {
      CompositeValid(sc, true, true, r);
      UncertifiedComposite(sc, h.version, f, FromComposite(r).1);
      CompositeValid(sc, true, false, Subject(r));
    } else {
      PrimeValid(sc, true, true, r);
      UncertifiedPrime(sc, h, f, FromPrime(r).1);
      PrimeValid(sc, true, false, Subject(r));
    }
  }

  lemma UncertifiedComposite(sc: Schema, version: u64, f: Format<Metadata>, p: CompositeParts)
    requires LawfulSchema(sc) && Lawful(f) && CompositeRest(sc, version, f, true).valid(p)
    requires sc.parts.lottery.valid(NO_LOTTERY)
    ensures CompositeRest(sc, version, f, false).valid(
              (p.0, (p.1.0, (p.1.1.0, (p.1.1.1.0, (NO_LOTTERY, NO_FINALIZATION))))))
  {
  }

  lemma UncertifiedPrime(sc: Schema, h: Header, f: Format<Metadata>, p: PrimeParts)
    requires LawfulSchema(sc) && Lawful(f) && PrimeRest(sc, h, f, true).valid(p)
    ensures PrimeRest(sc, h, f, false).valid((p.0, (p.1.0, (p.1.1.0, (p.1.1.1.0, NO_FINALIZATION)))))
  {
  }

  // ---------------------------------------------------------------- version 3

  lemma PairStops<A(!new), B(!new)>(f: Format<A>, g: Format<B>, a: A, rest: Bytes)
    requires Lawful(f) && Lawful(g) && f.valid(a) && g.parse(rest).None?
    ensures Pair(f, g).parse(f.render(a) + rest).None?
  {
    ReadBack(f, a, rest);
  }

  /** Version 3 metadata with an endpoint list does not parse where the list is missing and
      the certificate cannot be read as one. */
  lemma MetadataStops(sc: Schema, t: EpochTransition, rest: Bytes)
    requires LawfulSchema(sc) && sc.metadata.transition(3).valid(t) && sc.metadata.endpoints.parse(rest).None?
    ensures MetadataFormat(sc, 3, true).parse(sc.metadata.transition(3).render(t) + rest).None?
  {
    var f1: Format<EpochTransition> := When(3 >= 2, sc.metadata.transition(3), NO_TRANSITION);
    var f2 := When(3 >= 3 && true, sc.metadata.endpoints, []);
    var f3 := When(3 >= 4, sc.metadata.policy(3), NO_POLICY);
    var f4 := When(3 >= 5, sc.metadata.applications, []);
    var f5 := When(3 >= 6, sc.metadata.bindings, []);
    assert Pair(f2, Pair(f3, Pair(f4, f5))).parse(rest).None?;
    PairStops(f1, Pair(f2, Pair(f3, Pair(f4, f5))), t, rest);
  }

  /** The bytes of a version 3 composite record after its header, without endpoint list. */
  ghost function ShortRest(sc: Schema, r: Record): Bytes
    requires r.Composite?
  {
    sc.parts.division.render(r.division)
    + (sc.parts.body.render(r.body)
    + (sc.parts.commitPhase.render(r.commitPhase)
    + (sc.metadata.transition(3).render(r.metadata.epoch)
    + sc.parts.finalization.render(r.finalization))))
  }

  ghost predicate PartsValid(sc: Schema, r: Record)
    requires r.Composite?
  {
    && sc.parts.division.valid(r.division) && sc.parts.body.valid(r.body)
    && sc.parts.commitPhase.valid(r.commitPhase) && sc.metadata.transition(3).valid(r.metadata.epoch)
  }

  lemma RestStops(sc: Schema, r: Record, f: Format<Metadata>)
    requires LawfulSchema(sc) && Lawful(f) && r.Composite? && PartsValid(sc, r)
    requires f.parse(sc.metadata.transition(3).render(r.metadata.epoch) + sc.parts.finalization.render(r.finalization)).None?
    ensures CompositeRest(sc, 3, f, true).parse(ShortRest(sc, r)).None?
  {
    var tail := sc.metadata.transition(3).render(r.metadata.epoch) + sc.parts.finalization.render(r.finalization);
    var f6 := When(true, sc.parts.finalization, NO_FINALIZATION);
    var f5 := Pair(When(3 >= COMPOSITE_LOTTERY, sc.parts.lottery, NO_LOTTERY), f6);
    var f4 := Pair(f, f5);
    var commit: Format<CommitPhase> := When(1 <= 3 < DIRECT_COMPOSITE, sc.parts.commitPhase, NO_COMMIT_PHASE);
    assert f4.parse(tail).None?;
    PairStops(commit, f4, r.commitPhase, tail);
    PairStops(sc.parts.body, Pair(commit, f4), r.body, commit.render(r.commitPhase) + tail);
    PairStops(sc.parts.division, Pair(sc.parts.body, Pair(commit, f4)), r.division,
              sc.parts.body.render(r.body) + (commit.render(r.commitPhase) + tail));
  }

  lemma ThenStops<A(!new), B(!new)>(f: Format<A>, g: A -> Format<B>, a: A, rest: Bytes)
    requires Lawful(f) && (forall x: A :: Lawful(g(x))) && f.valid(a) && g(a).parse(rest).None?
    ensures Then(f, g).parse(f.render(a) + rest).None?
  {
    ReadBack(f, a, rest);
  }

  /** The bytes of the short layout. */
  ghost function ShortBytes(sc: Schema, r: Record): Bytes
    requires r.Composite?
  {
    HeaderFormat(COMPOSITE_TAG).render(r.header) + ShortRest(sc, r)
  }

  lemma FullStops(sc: Schema, r: Record)
    requires LawfulSchema(sc) && r.Composite? && r.header.version == 3 && PartsValid(sc, r)
    requires HeaderFormat(COMPOSITE_TAG).valid(r.header)
    requires sc.metadata.endpoints.parse(sc.parts.finalization.render(r.finalization)).None?
    ensures CompositeFormat(sc, true, true).parse(ShortBytes(sc, r)).None?
  {
    MetadataStops(sc, r.metadata.epoch, sc.parts.finalization.render(r.finalization));
    RestStops(sc, r, MetadataFormat(sc, 3, true));
    var g := (h: Header) => CompositeRest(sc, h.version, MetadataFormat(sc, h.version, true), true);
    ThenStops(HeaderFormat(COMPOSITE_TAG), g, r.header, ShortRest(sc, r));
  }

  lemma ShortRendered(sc: Schema, r: Record)
    requires LawfulSchema(sc) && r.Composite? && r.header.version == 3 && CompositeFormat(sc, false, true).valid(r)
    ensures CompositeFormat(sc, false, true).render(r) == ShortBytes(sc, r)
    ensures PartsValid(sc, r) && HeaderFormat(COMPOSITE_TAG).valid(r.header)
  {
    CompositeValid(sc, false, true, r);
    var f := MetadataFormat(sc, 3, false);
    ShortMetadata(sc, r.metadata);
    ShortComposite(sc, r, f);
  }

  lemma ShortMetadata(sc: Schema, m: Metadata)
    requires LawfulSchema(sc)
    ensures MetadataFormat(sc, 3, false).render(m) == sc.metadata.transition(3).render(m.epoch)
    ensures MetadataFormat(sc, 3, false).valid(m) ==> sc.metadata.transition(3).valid(m.epoch)
  {
    var f1: Format<EpochTransition> := When(3 >= 2, sc.metadata.transition(3), NO_TRANSITION);
    var f2 := When(3 >= 3 && false, sc.metadata.endpoints, []);
    var f3 := When(3 >= 4, sc.metadata.policy(3), NO_POLICY);
    var f4 := When(3 >= 5, sc.metadata.applications, []);
    var f5 := When(3 >= 6, sc.metadata.bindings, []);
    PairRenders(f1, Pair(f2, Pair(f3, Pair(f4, f5))), FromMetadata(m));
    PairRenders(f2, Pair(f3, Pair(f4, f5)), FromMetadata(m).1);
    PairRenders(f3, Pair(f4, f5), FromMetadata(m).1.1);
    PairRenders(f4, f5, FromMetadata(m).1.1.1);
    var bytes := sc.metadata.transition(3).render(m.epoch);
    assert bytes + ([] + ([] + ([] + []))) == bytes;
  }

  lemma ShortComposite(sc: Schema, r: Record, f: Format<Metadata>)
    requires LawfulSchema(sc) && Lawful(f) && r.Composite?
    requires f.render(r.metadata) == sc.metadata.transition(3).render(r.metadata.epoch)
    ensures CompositeRest(sc, 3, f, true).render(FromComposite(r).1) == ShortRest(sc, r)
    ensures CompositeRest(sc, 3, f, true).valid(FromComposite(r).1) ==>
              && sc.parts.division.valid(r.division) && sc.parts.body.valid(r.body)
              && sc.parts.commitPhase.valid(r.commitPhase) && f.valid(r.metadata)
  {
    var certificate := sc.parts.finalization.render(r.finalization);
    assert [] + certificate == certificate;
  }

  /** Version 3 without an endpoint list: the bytes decode, but their record serializes to
      other bytes. */
  lemma Version3NotCanonical(sc: Schema, r: Record)
    requires LawfulSchema(sc) && sc.metadata.endpoints.valid([])
    requires r.Composite? && r.header.version == 3 && CompositeFormat(sc, false, true).valid(r)
    requires sc.metadata.endpoints.parse(sc.parts.finalization.render(r.finalization)).None?
    ensures Deserialize(sc, true, ShortBytes(sc, r)) == Some(r)
    ensures Serialize(sc, r, true) != ShortBytes(sc, r)
  {
    hide Serialize, ShortBytes, CompositeFormat, PartsValid, LawfulSchema;
    ShortRendered(sc, r);
    FullStops(sc, r);
    AllReadsBack(RecordFormat(sc, true, false, true), r);
    DecodedIsCanonical(sc, true, ShortBytes(sc, r));
  }

  lemma CountTooLarge<T(!new)>(f: Format<T>, limit: nat, n: nat, tail: Bytes)
    requires Lawful(f) && limit < n < TWO_64
    ensures ListOf(f, limit).parse(LittleEndian(n, 8) + tail).None?
  {
    CountReadBack(n, tail);
  }

  lemma TextRenders(t: string)
    ensures Text().render(t) == LittleEndian(|t|, 8) + CharBytes(t)
  {
    assert |CharBytes(t)| == |t|;
  }

  lemma RuleComesFirst(certificate: string -> Format<Certificate>, f: Finalization) returns (tail: Bytes)
    requires forall rule: string :: Lawful(certificate(rule))
    ensures FinalizationOf(certificate).render(f) == LittleEndian(|f.rule|, 8) + tail
  {
    TextRenders(f.rule);
    tail := CharBytes(f.rule) + certificate(f.rule).render((f.roundChanges, f.votes));
    assert FinalizationOf(certificate).render(f)
        == Text().render(f.rule) + certificate(f.rule).render((f.roundChanges, f.votes));
  }

  /** A rule of more than 64 characters is no endpoint count. */
  lemma LongRuleIsNoEndpointList(
    endpoint: Format<EndpointUpdate>, certificate: string -> Format<Certificate>, f: Finalization)
    requires Lawful(endpoint) && (forall rule: string :: Lawful(certificate(rule))) && 64 < |f.rule| < TWO_64
    ensures ListOf(endpoint, 64).parse(FinalizationOf(certificate).render(f)).None?
  {
    var tail := RuleComesFirst(certificate, f);
    CountTooLarge(endpoint, 64, |f.rule|, tail);
  }
}
