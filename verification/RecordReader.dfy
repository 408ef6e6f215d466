/**
 The readers of records (src/protocol/records.cpp): part after part from a cursor, with the
 two attempts of version 3. What they read is what the formats parse.
 */
module RecordReader {
  import opened Machine
  import opened Records
  import opened Formats
  import opened FieldFormats
  import opened RecordForm
  import opened WrittenForm
  import opened ByteReading

  // ---------------------------------------------------------------- parsing step by step

  /** A part that only some versions have. */
  function ParseSome<T>(present: bool, f: Format<T>, default: T, b: Bytes): Option<(T, Bytes)> {
    if present then f.parse(b) else Some((default, b))
  }

  /** Everything after the epoch transition. */
  datatype Tail = Tail(
    endpoints: seq<EndpointUpdate>,
    policy: PolicyUpdate,
    applications: seq<Application>,
    bindings: seq<WorkBinding>,
    lottery: Lottery,
    finalization: Finalization)

  function ParseTail(sc: Schema, version: u64, endpoints: bool, composite: bool, b: Bytes): Option<(Tail, Bytes)> {
    var e := ParseSome(version >= 3 && endpoints, sc.metadata.endpoints, [], b);
    if e.None? then None else
    var p := ParseSome(version >= 4, sc.metadata.policy(version), NO_POLICY, e.value.1);
    if p.None? then None else
    var a := ParseSome(version >= 5, sc.metadata.applications, [], p.value.1);
    if a.None? then None else
    var w := ParseSome(version >= 6, sc.metadata.bindings, [], a.value.1);
    if w.None? then None else
    var l := ParseSome(composite && version >= COMPOSITE_LOTTERY, sc.parts.lottery, NO_LOTTERY, w.value.1);
    if l.None? then None else
    var f := sc.parts.finalization.parse(l.value.1);
    if f.None? then None
    else Some((Tail(e.value.0, p.value.0, a.value.0, w.value.0, l.value.0, f.value.0), f.value.1))
  }

  function MetadataOf(t: EpochTransition, tail: Tail): Metadata {
    Metadata(t, tail.endpoints, tail.policy, tail.applications, tail.bindings)
  }

  function ParseComposite(sc: Schema, endpoints: bool, b: Bytes): Option<(Record, Bytes)> {
    var h := HeaderFormat(COMPOSITE_TAG).parse(b);
    if h.None? then None else
    var version := h.value.0.version;
    var d := sc.parts.division.parse(h.value.1);
    if d.None? then None else
    var x := sc.parts.body.parse(d.value.1);
    if x.None? then None else
    var c := ParseSome(1 <= version < DIRECT_COMPOSITE, sc.parts.commitPhase, NO_COMMIT_PHASE, x.value.1);
    if c.None? then None else
    var t := ParseSome(version >= 2, sc.metadata.transition(version), NO_TRANSITION, c.value.1);
    if t.None? then None else
    var tail := ParseTail(sc, version, endpoints, true, t.value.1);
    if tail.None? then None
    else
      Some((Composite(h.value.0, d.value.0, x.value.0, c.value.0, MetadataOf(t.value.0, tail.value.0),
                      tail.value.0.lottery, tail.value.0.finalization), tail.value.1))
  }

  function ParsePrime(sc: Schema, endpoints: bool, b: Bytes): Option<(Record, Bytes)> {
    var h := HeaderFormat(PRIME_TAG).parse(b);
    if h.None? then None else
    var version := h.value.0.version;
    var d := sc.parts.pratt.parse(h.value.1);
    if d.None? then None else
    var x := sc.parts.body.parse(d.value.1);
    if x.None? then None else
    var g := ParseSome(h.value.0.height == 0, sc.metadata.genesis(version), NO_GENESIS, x.value.1);
    if g.None? then None else
    var t := ParseSome(version >= 2, sc.metadata.transition(version), NO_TRANSITION, g.value.1);
    if t.None? then None else
    var tail := ParseTail(sc, version, endpoints, false, t.value.1);
    if tail.None? then None
    else
      Some((PrimeRecord(h.value.0, d.value.0, x.value.0, g.value.0, MetadataOf(t.value.0, tail.value.0),
                        tail.value.0.finalization), tail.value.1))
  }

  function ParseRecord(sc: Schema, composite: bool, endpoints: bool, b: Bytes): Option<(Record, Bytes)> {
    if composite then ParseComposite(sc, endpoints, b) else ParsePrime(sc, endpoints, b)
  }

  // ---------------------------------------------------------------- the formats parse in these steps

  lemma PairSteps<A(!new), B(!new)>(f: Format<A>, g: Format<B>, b: Bytes)
    requires Lawful(f) && Lawful(g)
    ensures Pair(f, g).parse(b) == ParsePair(f, g, b)
  {
  }

  lemma MapSteps<A(!new), B(!new)>(f: Format<A>, to: A -> B, from: B -> A, b: Bytes)
    requires Lawful(f) && forall a: A :: from(to(a)) == a
    ensures Map(f, to, from).parse(b)
         == var r := f.parse(b); if r.None? then None else Some((to(r.value.0), r.value.1))
  {
  }

  lemma WhenSteps<T(!new)>(present: bool, f: Format<T>, default: T, b: Bytes)
    requires Lawful(f)
    ensures When(present, f, default).parse(b) == ParseSome(present, f, default, b)
  {
  }

  function ParseMetadata(sc: Schema, version: u64, endpoints: bool, b: Bytes): Option<(Metadata, Bytes)> {
    var t := ParseSome(version >= 2, sc.metadata.transition(version), NO_TRANSITION, b);
    if t.None? then None else
    var e := ParseSome(version >= 3 && endpoints, sc.metadata.endpoints, [], t.value.1);
    if e.None? then None else
    var p := ParseSome(version >= 4, sc.metadata.policy(version), NO_POLICY, e.value.1);
    if p.None? then None else
    var a := ParseSome(version >= 5, sc.metadata.applications, [], p.value.1);
    if a.None? then None else
    var w := ParseSome(version >= 6, sc.metadata.bindings, [], a.value.1);
    if w.None? then None
    else Some((Metadata(t.value.0, e.value.0, p.value.0, a.value.0, w.value.0), w.value.1))
  }

  lemma MetadataSteps(sc: Schema, version: u64, endpoints: bool, b: Bytes)
    requires LawfulSchema(sc)
    ensures MetadataFormat(sc, version, endpoints).parse(b) == ParseMetadata(sc, version, endpoints, b)
  {
    hide Pair, When, Map, Lawful, ParseSome;
    var f1 := When(version >= 2, sc.metadata.transition(version), NO_TRANSITION);
    var f2 := When(version >= 3 && endpoints, sc.metadata.endpoints, []);
    var f3 := When(version >= 4, sc.metadata.policy(version), NO_POLICY);
    var f4 := When(version >= 5, sc.metadata.applications, []);
    var f5 := When(version >= 6, sc.metadata.bindings, []);
    MapSteps(Pair(f1, Pair(f2, Pair(f3, Pair(f4, f5)))), ToMetadata, FromMetadata, b);
    PairSteps(f1, Pair(f2, Pair(f3, Pair(f4, f5))), b);
    WhenSteps(version >= 2, sc.metadata.transition(version), NO_TRANSITION, b);
    if f1.parse(b).Some? {
      var b1 := f1.parse(b).value.1;
      PairSteps(f2, Pair(f3, Pair(f4, f5)), b1);
      WhenSteps(version >= 3 && endpoints, sc.metadata.endpoints, [], b1);
      if f2.parse(b1).Some? {
        var b2 := f2.parse(b1).value.1;
        PairSteps(f3, Pair(f4, f5), b2);
        WhenSteps(version >= 4, sc.metadata.policy(version), NO_POLICY, b2);
        if f3.parse(b2).Some? {
          var b3 := f3.parse(b2).value.1;
          PairSteps(f4, f5, b3);
          WhenSteps(version >= 5, sc.metadata.applications, [], b3);
          if f4.parse(b3).Some? {
            WhenSteps(version >= 6, sc.metadata.bindings, [], f4.parse(b3).value.1);
          }
        }
      }
    }
  }

  /** Metadata, lottery and certificate: the transition and the tail. */
  function ParseEnd(sc: Schema, version: u64, endpoints: bool, composite: bool, b: Bytes)
    : Option<((Metadata, (Lottery, Finalization)), Bytes)>
  {
    var t := ParseSome(version >= 2, sc.metadata.transition(version), NO_TRANSITION, b);
    if t.None? then None else
    var tail := ParseTail(sc, version, endpoints, composite, t.value.1);
    if tail.None? then None
    else Some(((MetadataOf(t.value.0, tail.value.0), (tail.value.0.lottery, tail.value.0.finalization)), tail.value.1))
  }

  lemma EndSteps(sc: Schema, version: u64, endpoints: bool, composite: bool, b: Bytes)
    ensures var m := ParseMetadata(sc, version, endpoints, b);
            ParseEnd(sc, version, endpoints, composite, b)
            == if m.None? then None else
               var l := ParseSome(composite && version >= COMPOSITE_LOTTERY, sc.parts.lottery, NO_LOTTERY, m.value.1);
               if l.None? then None else
               var f := sc.parts.finalization.parse(l.value.1);
               if f.None? then None else Some(((m.value.0, (l.value.0, f.value.0)), f.value.1))
  {
    hide ParseSome;
  }

  lemma CompositeEndSteps(sc: Schema, version: u64, endpoints: bool, b: Bytes)
    requires LawfulSchema(sc)
    ensures Pair(MetadataFormat(sc, version, endpoints),
                 Pair(When(version >= COMPOSITE_LOTTERY, sc.parts.lottery, NO_LOTTERY),
                      When(true, sc.parts.finalization, NO_FINALIZATION))).parse(b)
         == ParseEnd(sc, version, endpoints, true, b)
  {
    hide Pair, When, Lawful, ParseSome, MetadataFormat, ParseMetadata, ParseEnd;
    var m := MetadataFormat(sc, version, endpoints);
    var l := When(version >= COMPOSITE_LOTTERY, sc.parts.lottery, NO_LOTTERY);
    var f := When(true, sc.parts.finalization, NO_FINALIZATION);
    EndSteps(sc, version, endpoints, true, b);
    PairSteps(m, Pair(l, f), b);
    MetadataSteps(sc, version, endpoints, b);
    if m.parse(b).Some? {
      var b1 := m.parse(b).value.1;
      PairSteps(l, f, b1);
      WhenSteps(version >= COMPOSITE_LOTTERY, sc.parts.lottery, NO_LOTTERY, b1);
      if l.parse(b1).Some? {
        WhenPresent(sc.parts.finalization, NO_FINALIZATION, l.parse(b1).value.1);
      }
    }
  }

  lemma WhenPresent<T(!new)>(f: Format<T>, default: T, b: Bytes)
    requires Lawful(f)
    ensures When(true, f, default).parse(b) == f.parse(b)
  {
  }

  lemma PrimeEndSteps(sc: Schema, version: u64, endpoints: bool, b: Bytes)
    requires LawfulSchema(sc)
    ensures var x := Pair(MetadataFormat(sc, version, endpoints), When(true, sc.parts.finalization, NO_FINALIZATION)).parse(b);
            var y := ParseEnd(sc, version, endpoints, false, b);
            && (x.None? <==> y.None?)
            && (x.Some? ==> y.value == ((x.value.0.0, (NO_LOTTERY, x.value.0.1)), x.value.1))
  {
    hide Pair, When, Lawful, MetadataFormat, ParseMetadata, ParseEnd;
    var m := MetadataFormat(sc, version, endpoints);
    var f := When(true, sc.parts.finalization, NO_FINALIZATION);
    EndSteps(sc, version, endpoints, false, b);
    PairSteps(m, f, b);
    MetadataSteps(sc, version, endpoints, b);
    if m.parse(b).Some? {
      WhenPresent(sc.parts.finalization, NO_FINALIZATION, m.parse(b).value.1);
    }
  }

  lemma ThenSteps<A(!new), B(!new)>(f: Format<A>, g: A -> Format<B>, b: Bytes)
    requires Lawful(f) && forall a: A :: Lawful(g(a))
    ensures Then(f, g).parse(b) == ParseThen(f, g, b)
  {
  }

  function ParseCompositeRest(sc: Schema, version: u64, endpoints: bool, b: Bytes): Option<(CompositeParts, Bytes)> {
    var d := sc.parts.division.parse(b);
    if d.None? then None else
    var x := sc.parts.body.parse(d.value.1);
    if x.None? then None else
    var c := ParseSome(1 <= version < DIRECT_COMPOSITE, sc.parts.commitPhase, NO_COMMIT_PHASE, x.value.1);
    if c.None? then None else
    var e := ParseEnd(sc, version, endpoints, true, c.value.1);
    if e.None? then None
    else Some(((d.value.0, (x.value.0, (c.value.0, e.value.0))), e.value.1))
  }

  lemma CompositeRestSteps(sc: Schema, version: u64, endpoints: bool, b: Bytes)
    requires LawfulSchema(sc)
    ensures CompositeRest(sc, version, MetadataFormat(sc, version, endpoints), true).parse(b)
         == ParseCompositeRest(sc, version, endpoints, b)
  {
    hide Pair, When, Lawful, ParseSome, MetadataFormat, ParseEnd;
    var end := Pair(MetadataFormat(sc, version, endpoints),
                    Pair(When(version >= COMPOSITE_LOTTERY, sc.parts.lottery, NO_LOTTERY),
                         When(true, sc.parts.finalization, NO_FINALIZATION)));
    var commit := When(1 <= version < DIRECT_COMPOSITE, sc.parts.commitPhase, NO_COMMIT_PHASE);
    PairSteps(sc.parts.division, Pair(sc.parts.body, Pair(commit, end)), b);
    if sc.parts.division.parse(b).Some? {
      var b1 := sc.parts.division.parse(b).value.1;
      PairSteps(sc.parts.body, Pair(commit, end), b1);
      if sc.parts.body.parse(b1).Some? {
        var b2 := sc.parts.body.parse(b1).value.1;
        PairSteps(commit, end, b2);
        WhenSteps(1 <= version < DIRECT_COMPOSITE, sc.parts.commitPhase, NO_COMMIT_PHASE, b2);
        if commit.parse(b2).Some? {
          CompositeEndSteps(sc, version, endpoints, commit.parse(b2).value.1);
        }
      }
    }
  }

  function ParsePrimeRest(sc: Schema, h: Header, endpoints: bool, b: Bytes): Option<(PrimeParts, Bytes)> {
    var d := sc.parts.pratt.parse(b);
    if d.None? then None else
    var x := sc.parts.body.parse(d.value.1);
    if x.None? then None else
    var g := ParseSome(h.height == 0, sc.metadata.genesis(h.version), NO_GENESIS, x.value.1);
    if g.None? then None else
    var e := ParseEnd(sc, h.version, endpoints, false, g.value.1);
    if e.None? then None
    else Some(((d.value.0, (x.value.0, (g.value.0, (e.value.0.0, e.value.0.1.1)))), e.value.1))
  }

  lemma PrimeRestSteps(sc: Schema, h: Header, endpoints: bool, b: Bytes)
    requires LawfulSchema(sc)
    ensures PrimeRest(sc, h, MetadataFormat(sc, h.version, endpoints), true).parse(b)
         == ParsePrimeRest(sc, h, endpoints, b)
  {
    hide Pair, When, Lawful, ParseSome, MetadataFormat, ParseEnd;
    var end := Pair(MetadataFormat(sc, h.version, endpoints), When(true, sc.parts.finalization, NO_FINALIZATION));
    var genesis := When(h.height == 0, sc.metadata.genesis(h.version), NO_GENESIS);
    PairSteps(sc.parts.pratt, Pair(sc.parts.body, Pair(genesis, end)), b);
    if sc.parts.pratt.parse(b).Some? {
      var b1 := sc.parts.pratt.parse(b).value.1;
      PairSteps(sc.parts.body, Pair(genesis, end), b1);
      if sc.parts.body.parse(b1).Some? {
        var b2 := sc.parts.body.parse(b1).value.1;
        PairSteps(genesis, end, b2);
        WhenSteps(h.height == 0, sc.metadata.genesis(h.version), NO_GENESIS, b2);
        if genesis.parse(b2).Some? {
          PrimeEndSteps(sc, h.version, endpoints, genesis.parse(b2).value.1);
        }
      }
    }
  }

  /** The format of records parses exactly these steps. */
  lemma RecordSteps(sc: Schema, composite: bool, endpoints: bool, b: Bytes)
    requires LawfulSchema(sc)
    ensures RecordFormat(sc, composite, endpoints, true).parse(b) == ParseRecord(sc, composite, endpoints, b)
  {
    hide Map, Then, Lawful, CompositeRest, PrimeRest, MetadataFormat, HeaderFormat, ParseTail, ParseSome;
    var tag := if composite then COMPOSITE_TAG else PRIME_TAG;
    var header := HeaderFormat(tag).parse(b);
    if composite {
      var rest := (h: Header) => CompositeRest(sc, h.version, MetadataFormat(sc, h.version, endpoints), true);
      MapSteps(Then(HeaderFormat(tag), rest), ToComposite, FromComposite, b);
      ThenSteps(HeaderFormat(tag), rest, b);
      if header.Some? {
        CompositeRestSteps(sc, header.value.0.version, endpoints, header.value.1);
      }
    } else {
      var rest := (h: Header) => PrimeRest(sc, h, MetadataFormat(sc, h.version, endpoints), true);
      MapSteps(Then(HeaderFormat(tag), rest), ToPrime, FromPrime, b);
      ThenSteps(HeaderFormat(tag), rest, b);
      if header.Some? {
        PrimeRestSteps(sc, header.value.0, endpoints, header.value.1);
      }
    }
  }

  // ---------------------------------------------------------------- reading

  method ReadSome<T(!new)>(reader: ByteReader, present: bool, f: Format<T>, default: T) returns (x: Option<T>)
    requires reader.Valid() && Lawful(f)
    modifies reader
    ensures reader.Valid() && Took(ParseSome(present, f, default, old(reader.Rest())), x, reader.Rest())
  {
    if present {
      x := reader.Read(f);
    } else {
      x := Some(default);
    }
  }

  /** What was read before, then the rest. */
  function Prepended<T>(read: seq<T>, rest: Option<(seq<T>, Bytes)>): Option<(seq<T>, Bytes)> {
    if rest.None? then None else Some((read + rest.value.0, rest.value.1))
  }

  lemma NothingPrepended<T>(rest: Option<(seq<T>, Bytes)>)
    ensures Prepended([], rest) == rest
  {
    if rest.Some? {
      assert [] + rest.value.0 == rest.value.0;
    }
  }

  lemma OneMoreRead<T>(f: Format<T>, read: seq<T>, n: nat, b: Bytes)
    requires n > 0
    ensures var x := f.parse(b);
            Prepended(read, ParseMany(f, n, b))
            == if x.None? then None else Prepended(read + [x.value.0], ParseMany(f, n - 1, x.value.1))
  {
    var x := f.parse(b);
    if x.Some? {
      var others := ParseMany(f, n - 1, x.value.1);
      if others.Some? {
        assert read + ([x.value.0] + others.value.0) == read + [x.value.0] + others.value.0;
      }
    }
  }

  lemma ListSteps<T(!new)>(f: Format<T>, limit: nat, b: Bytes)
    requires Lawful(f) && limit < TWO_64
    ensures ListOf(f, limit).parse(b) == ParseList(f, limit, b)
  {
  }

  /** A count, refused beyond the limit, and that many items. */
  method ReadList<T(!new)>(reader: ByteReader, f: Format<T>, limit: nat) returns (x: Option<seq<T>>)
    requires reader.Valid() && Lawful(f) && limit < TWO_64
    modifies reader
    ensures reader.Valid() && Got(ListOf(f, limit), old(reader.Rest()), x, reader.Rest())
  {
    hide WORD, ListOf, ParseMany, Lawful;
    ListSteps(f, limit, reader.Rest());
    var count := reader.ReadUint64();
    if count.None? || count.value > limit {
      return None;
    }
    ghost var all := ParseMany(f, count.value, reader.Rest());
    var items: seq<T> := [];
    NothingPrepended(all);
    var i := 0;
    while i < count.value
      invariant 0 <= i <= count.value && reader.Valid()
      invariant all == Prepended(items, ParseMany(f, count.value - i, reader.Rest()))
    {
      OneMoreRead(f, items, count.value - i, reader.Rest());
      var item := reader.Read(f);
      if item.None? {
        return None;
      }
      items, i := items + [item.value], i + 1;
    }
    NoneLeft(f, items, reader.Rest());
    return Some(items);
  }

  lemma NoneLeft<T>(f: Format<T>, items: seq<T>, b: Bytes)
    ensures Prepended(items, ParseMany(f, 0, b)) == Some((items, b))
  {
    assert items + [] == items;
  }

  function ParseFinalization(b: Bytes): Option<(Finalization, Bytes)> {
    var t := TEXT.parse(b);
    if t.None? then None else
    var rule := t.value.0;
    var c := ParseSome(CarriesRoundChanges(rule), ListOf(RoundChangeFormat(rule == LOCKED_ROUNDS_RULE), 16), [], t.value.1);
    if c.None? then None else
    var v := ListOf(VoteFormat(), 16).parse(c.value.1);
    if v.None? then None else Some((Finalization(rule, c.value.0, v.value.0), v.value.1))
  }

  lemma CertificateSteps(rule: string, b: Bytes)
    ensures var c := ParseSome(CarriesRoundChanges(rule), ListOf(RoundChangeFormat(rule == LOCKED_ROUNDS_RULE), 16), [], b);
            CertificateFormat(rule).parse(b)
            == if c.None? then None else
               var v := ListOf(VoteFormat(), 16).parse(c.value.1);
               if v.None? then None else Some(((c.value.0, v.value.0), v.value.1))
  {
    hide Pair, When, ListOf, RoundChangeFormat, VoteFormat, CarriesRoundChanges, ParseSome, Lawful;
    var changes := ListOf(RoundChangeFormat(rule == LOCKED_ROUNDS_RULE), 16);
    PairSteps(When(CarriesRoundChanges(rule), changes, []), ListOf(VoteFormat(), 16), b);
    WhenSteps(CarriesRoundChanges(rule), changes, [], b);
  }

  lemma FinalizationSteps(b: Bytes)
    ensures FinalizationFormat().parse(b) == ParseFinalization(b)
  {
    hide CertificateFormat, RoundChangeFormat, VoteFormat, CarriesRoundChanges, ParseSome, Lawful, ListOf, Map, Then, TEXT, Text;
    TextIsTEXT();
    var to := (p: (string, Certificate)) => Finalization(p.0, p.1.0, p.1.1);
    var from := (x: Finalization) => (x.rule, (x.roundChanges, x.votes));
    MapSteps(Then(Text(), CertificateFormat), to, from, b);
    ThenSteps(Text(), CertificateFormat, b);
    if TEXT.parse(b).Some? {
      CertificateSteps(TEXT.parse(b).value.0, TEXT.parse(b).value.1);
    }
  }

  lemma TextIsTEXT()
    ensures Text() == TEXT
  {
  }

  /** readFinalizationProof: the rule decides whether and how round changes follow. */
  method ReadFinalization(reader: ByteReader) returns (x: Option<Finalization>)
    requires reader.Valid()
    modifies reader
    ensures reader.Valid() && Got(FinalizationFormat(), old(reader.Rest()), x, reader.Rest())
  {
    hide ListOf, RoundChangeFormat, VoteFormat, FinalizationFormat, TEXT, Lawful, CarriesRoundChanges;
    FinalizationSteps(reader.Rest());
    var rule := reader.ReadString();
    if rule.None? {
      return None;
    }
    var changes: Option<seq<RoundChangeVote>> := Some([]);
    if CarriesRoundChanges(rule.value) {
      changes := ReadList(reader, RoundChangeFormat(rule.value == LOCKED_ROUNDS_RULE), 16);
      if changes.None? {
        return None;
      }
    }
    var votes := ReadList(reader, VoteFormat(), 16);
    if votes.None? {
      return None;
    }
    return Some(Finalization(rule.value, changes.value, votes.value));
  }

  /** The parts after the transition, one after the other. */
  method ReadParts(reader: ByteReader, sc: Schema, version: u64, endpoints: bool, composite: bool) returns (x: Option<Tail>)
    requires reader.Valid() && LawfulSchema(sc)
    modifies reader
    ensures reader.Valid() && Took(ParseTail(sc, version, endpoints, composite, old(reader.Rest())), x, reader.Rest())
  {
    hide ParseSome, Lawful;
    var e := ReadSome(reader, version >= 3 && endpoints, sc.metadata.endpoints, []);
    if e.None? {
      return None;
    }
    var p := ReadSome(reader, version >= 4, sc.metadata.policy(version), NO_POLICY);
    if p.None? {
      return None;
    }
    var a := ReadSome(reader, version >= 5, sc.metadata.applications, []);
    if a.None? {
      return None;
    }
    var w := ReadSome(reader, version >= 6, sc.metadata.bindings, []);
    if w.None? {
      return None;
    }
    var l := ReadSome(reader, composite && version >= COMPOSITE_LOTTERY, sc.parts.lottery, NO_LOTTERY);
    if l.None? {
      return None;
    }
    var f := reader.Read(sc.parts.finalization);
    if f.None? {
      return None;
    }
    return Some(Tail(e.value, p.value, a.value, w.value, l.value, f.value));
  }

  /** Whether a tail of version 3 with an endpoint list takes up all the bytes. */
  predicate FullTail(sc: Schema, composite: bool, b: Bytes) {
    var full := ParseTail(sc, 3, true, composite, b);
    full.Some? && full.value.1 == []
  }

  /** readOptionalMetadataAndFinalization: version 3 is first read with an endpoint list, on a
      copy of the cursor, and without one when that does not come out even. */
  method ReadTail(reader: ByteReader, sc: Schema, version: u64, composite: bool) returns (x: Option<Tail>)
    requires reader.Valid() && LawfulSchema(sc)
    modifies reader
    ensures reader.Valid()
    ensures var b := old(reader.Rest());
            Took(ParseTail(sc, version, version != 3 || FullTail(sc, composite, b), composite, b), x, reader.Rest())
  {
    hide ParseTail, LawfulSchema;
    if version != 3 {
      x := ReadParts(reader, sc, version, true, composite);
      return;
    }
    var copy := new ByteReader.At(reader.bytes, reader.offset);
    x := ReadParts(copy, sc, version, true, composite);
    var done := copy.Consumed();
    if x.Some? && done {
      reader.offset := copy.offset;
      return;
    }
    x := ReadParts(reader, sc, version, false, composite);
  }

  lemma SelectSteps<A(!new), B(!new)>(f: Format<A>, to: A -> B, from: B -> A, b: Bytes)
    requires Lawful(f) && forall a: A :: f.valid(a) ==> from(to(a)) == a
    ensures Select(f, to, from).parse(b)
         == var r := f.parse(b); if r.None? then None else Some((to(r.value.0), r.value.1))
  {
  }

  lemma OnlySteps(tag: u64, b: Bytes)
    ensures var r := WORD.parse(b);
            Only(Word(), tag).parse(b) == if r.Some? && r.value.0 == tag then r else None
    ensures Word() == WORD && Digest() == DIGEST
    ensures forall t :: Only(Word(), tag).valid(t) ==> t == tag
  {
  }

  lemma HeaderSteps(tag: u64, b: Bytes)
    ensures HeaderFormat(tag).parse(b) == ParseHeader(tag, b)
  {
    hide Pair, Lawful, Only, Word, Digest, WORD, DIGEST, Select;
    OnlySteps(tag, b);
    var f0, f1 := Only(Word(), tag), Word();
    var f4 := Pair(Digest(), Word());
    var f3 := Pair(Word(), f4);
    var f2 := Pair(Word(), f3);
    var to := (p: HeaderParts) => Header(p.1.0, p.1.1.0, p.1.1.1.0, p.1.1.1.1);
    var from := (x: Header) => (tag, (x.version, (x.height, (x.previous, x.integer))));
    forall p: HeaderParts | Pair(f0, f2).valid(p)
      ensures from(to(p)) == p
    {
      PairRenders(f0, f2, p);
    }
    SelectSteps(Pair(f0, f2), to, from, b);
    PairSteps(f0, f2, b);
    if f0.parse(b).Some? {
      var b1 := f0.parse(b).value.1;
      PairSteps(Word(), f3, b1);
      if Word().parse(b1).Some? {
        var b2 := Word().parse(b1).value.1;
        PairSteps(Word(), f4, b2);
        if Word().parse(b2).Some? {
          PairSteps(Digest(), Word(), Word().parse(b2).value.1);
        }
      }
    }
  }

  function ParseHeader(tag: u64, b: Bytes): Option<(Header, Bytes)> {
    var t := WORD.parse(b);
    if t.None? || t.value.0 != tag then None else
    var v := WORD.parse(t.value.1);
    if v.None? then None else
    var h := WORD.parse(v.value.1);
    if h.None? then None else
    var p := DIGEST.parse(h.value.1);
    if p.None? then None else
    var n := WORD.parse(p.value.1);
    if n.None? then None else Some((Header(v.value.0, h.value.0, p.value.0, n.value.0), n.value.1))
  }

  method ReadHeader(reader: ByteReader, tag: u64) returns (x: Option<Header>)
    requires reader.Valid()
    modifies reader
    ensures reader.Valid() && Got(HeaderFormat(tag), old(reader.Rest()), x, reader.Rest())
  {
    hide WORD, DIGEST, HeaderFormat;
    HeaderSteps(tag, reader.Rest());
    var t := reader.ReadUint64();
    if t.None? || t.value != tag {
      return None;
    }
    var version := reader.ReadUint64();
    if version.None? {
      return None;
    }
    var height := reader.ReadUint64();
    if height.None? {
      return None;
    }
    var previous := reader.ReadHash();
    if previous.None? {
      return None;
    }
    var integer := reader.ReadUint64();
    if integer.None? {
      return None;
    }
    return Some(Header(version.value, height.value, previous.value, integer.value));
  }

  /** The reading the source settles on: with the endpoint list, except where a record of
      version 3 comes out even only without. */
  function ParseChosen(sc: Schema, composite: bool, b: Bytes): Option<(Record, Bytes)> {
    var h := HeaderFormat(Tag(composite)).parse(b);
    var full := ParseRecord(sc, composite, true, b);
    if h.None? then None
    else if h.value.0.version != 3 || (full.Some? && full.value.1 == []) then full
    else ParseRecord(sc, composite, false, b)
  }

  /** A record of version 3 comes out even exactly when its tail does. */
  lemma EvenTail(sc: Schema, composite: bool, b: Bytes, rest: Bytes, endpoints: bool, record: Option<(Record, Bytes)>)
    requires HeaderFormat(Tag(composite)).parse(b).Some? && record == ParseRecord(sc, composite, true, b)
    requires HeaderFormat(Tag(composite)).parse(b).value.0.version == 3 && endpoints == FullTail(sc, composite, rest)
    requires ParseTail(sc, 3, true, composite, rest).None? ==> record.None?
    requires record.Some? ==> ParseTail(sc, 3, true, composite, rest).Some?
                              && record.value.1 == ParseTail(sc, 3, true, composite, rest).value.1
    requires ParseTail(sc, 3, true, composite, rest).Some? ==> record.Some?
    ensures ParseChosen(sc, composite, b) == ParseRecord(sc, composite, endpoints, b)
  {
    hide ParseRecord, ParseTail, HeaderFormat;
  }

  /** deserializeCompositeRecord, up to the check that all bytes were used. */
  method ReadComposite(reader: ByteReader, sc: Schema) returns (x: Option<Record>)
    requires reader.Valid() && LawfulSchema(sc)
    modifies reader
    ensures reader.Valid() && Took(ParseChosen(sc, true, old(reader.Rest())), x, reader.Rest())
  {
    hide ParseSome, ParseTail, Lawful, HeaderFormat;
    ghost var b := reader.Rest();
    var h := ReadHeader(reader, COMPOSITE_TAG);
    if h.None? {
      return None;
    }
    var version := h.value.version;
    var d := reader.Read(sc.parts.division);
    if d.None? {
      return None;
    }
    var body := reader.Read(sc.parts.body);
    if body.None? {
      return None;
    }
    var c := ReadSome(reader, 1 <= version < DIRECT_COMPOSITE, sc.parts.commitPhase, NO_COMMIT_PHASE);
    if c.None? {
      return None;
    }
    var t := ReadSome(reader, version >= 2, sc.metadata.transition(version), NO_TRANSITION);
    if t.None? {
      return None;
    }
    ghost var rest := reader.Rest();
    if version == 3 {
      EvenTail(sc, true, b, rest, FullTail(sc, true, rest), ParseRecord(sc, true, true, b));
    }
    var tail := ReadTail(reader, sc, version, true);
    if tail.None? {
      return None;
    }
    return Some(Composite(h.value, d.value, body.value, c.value, MetadataOf(t.value, tail.value),
                          tail.value.lottery, tail.value.finalization));
  }

  /** deserializePrimeRecord, up to the check that all bytes were used. */
  method ReadPrime(reader: ByteReader, sc: Schema) returns (x: Option<Record>)
    requires reader.Valid() && LawfulSchema(sc)
    modifies reader
    ensures reader.Valid() && Took(ParseChosen(sc, false, old(reader.Rest())), x, reader.Rest())
  {
    hide ParseSome, ParseTail, Lawful, HeaderFormat;
    ghost var b := reader.Rest();
    var h := ReadHeader(reader, PRIME_TAG);
    if h.None? {
      return None;
    }
    var version := h.value.version;
    var d := reader.Read(sc.parts.pratt);
    if d.None? {
      return None;
    }
    var body := reader.Read(sc.parts.body);
    if body.None? {
      return None;
    }
    var g := ReadSome(reader, h.value.height == 0, sc.metadata.genesis(version), NO_GENESIS);
    if g.None? {
      return None;
    }
    var t := ReadSome(reader, version >= 2, sc.metadata.transition(version), NO_TRANSITION);
    if t.None? {
      return None;
    }
    ghost var rest := reader.Rest();
    if version == 3 {
      EvenTail(sc, false, b, rest, FullTail(sc, false, rest), ParseRecord(sc, false, true, b));
    }
    var tail := ReadTail(reader, sc, version, false);
    if tail.None? {
      return None;
    }
    return Some(PrimeRecord(h.value, d.value, body.value, g.value, MetadataOf(t.value, tail.value), tail.value.finalization));
  }

  lemma ParsedHeader(sc: Schema, composite: bool, endpoints: bool, b: Bytes)
    requires ParseRecord(sc, composite, endpoints, b).Some?
    ensures HeaderFormat(Tag(composite)).parse(b).Some?
    ensures ParseRecord(sc, composite, endpoints, b).value.0.header == HeaderFormat(Tag(composite)).parse(b).value.0
  {
    hide HeaderFormat, ParseTail, ParseSome;
  }

  lemma ChosenIsDeserialized(sc: Schema, composite: bool, b: Bytes)
    requires LawfulSchema(sc)
    ensures var x := ParseChosen(sc, composite, b);
            Deserialize(sc, composite, b) == if x.Some? && x.value.1 == [] then Some(x.value.0) else None
  {
    hide ParseRecord, RecordFormat, HeaderFormat, LawfulSchema;
    RecordSteps(sc, composite, true, b);
    RecordSteps(sc, composite, false, b);
    if ParseRecord(sc, composite, true, b).Some? {
      ParsedHeader(sc, composite, true, b);
    }
    if ParseRecord(sc, composite, false, b).Some? {
      ParsedHeader(sc, composite, false, b);
    }
  }

  /** The decoders of the source, attempts and all, compute Deserialize. */
  method ReadRecord(sc: Schema, composite: bool, bytes: Bytes) returns (x: Option<Record>)
    requires LawfulSchema(sc)
    ensures x == Deserialize(sc, composite, bytes)
  {
    hide ParseChosen, Deserialize, LawfulSchema;
    var reader := new ByteReader(bytes);
    if composite {
      x := ReadComposite(reader, sc);
    } else {
      x := ReadPrime(reader, sc);
    }
    ChosenIsDeserialized(sc, composite, bytes);
    var done := reader.Consumed();
    if !done {
      x := None;
    }
  }
}
