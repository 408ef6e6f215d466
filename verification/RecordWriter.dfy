/**
 The writers of records (src/protocol/records.cpp). What they write is what the formats of
 FieldFormats and RecordForm render, so the round trips proved there are those of these bytes.
 */
module RecordWriter {
  import opened Machine
  import opened Records
  import opened Formats
  import opened FieldFormats
  import opened FieldLayouts
  import opened RecordForm

  lemma Nest2(out: Bytes, a: Bytes, b: Bytes)
    ensures out + a + b == out + (a + b)
  {
  }

  lemma Nest3(out: Bytes, a: Bytes, b: Bytes, c: Bytes)
    ensures out + a + b + c == out + (a + (b + c))
  {
    Nest2(out + a, b, c);
    Nest2(out, a, b + c);
  }

  lemma Nest4(out: Bytes, a: Bytes, b: Bytes, c: Bytes, d: Bytes)
    ensures out + a + b + c + d == out + (a + (b + (c + d)))
  {
    Nest3(out + a, b, c, d);
    Nest2(out, a, b + (c + d));
  }

  lemma Nest5(out: Bytes, a: Bytes, b: Bytes, c: Bytes, d: Bytes, e: Bytes)
    ensures out + a + b + c + d + e == out + (a + (b + (c + (d + e))))
  {
    Nest4(out + a, b, c, d, e);
    Nest2(out, a, b + (c + (d + e)));
  }

  lemma Nest6(out: Bytes, a: Bytes, b: Bytes, c: Bytes, d: Bytes, e: Bytes, f: Bytes)
    ensures out + a + b + c + d + e + f == out + (a + (b + (c + (d + (e + f)))))
  {
    Nest5(out + a, b, c, d, e, f);
    Nest2(out, a, b + (c + (d + (e + f))));
  }

  lemma Nest7(out: Bytes, a: Bytes, b: Bytes, c: Bytes, d: Bytes, e: Bytes, f: Bytes, g: Bytes)
    ensures out + a + b + c + d + e + f + g == out + (a + (b + (c + (d + (e + (f + g))))))
  {
    Nest6(out + a, b, c, d, e, f, g);
    Nest2(out, a, b + (c + (d + (e + (f + g)))));
  }

  lemma Nest8(out: Bytes, a: Bytes, b: Bytes, c: Bytes, d: Bytes, e: Bytes, f: Bytes, g: Bytes, h: Bytes)
    ensures out + a + b + c + d + e + f + g + h == out + (a + (b + (c + (d + (e + (f + (g + h)))))))
  {
    Nest7(out + a, b, c, d, e, f, g, h);
    Nest2(out, a, b + (c + (d + (e + (f + (g + h))))));
  }

  lemma {:induction false} OneMore<T>(f: Format<T>, ts: seq<T>, i: nat)
    requires i < |ts|
    ensures PrintAll(f, ts[..i + 1]) == PrintAll(f, ts[..i]) + f.render(ts[i])
  {
    if i == 0 {
    } else {
      OneMore(f, ts[1..], i - 1);
      assert ts[..i + 1][1..] == ts[1..][..i] && ts[..i][1..] == ts[1..][..i - 1];
    }
  }

  ghost function ListUpTo<T>(f: Format<T>, out: Bytes, ts: seq<T>, i: nat): Bytes
    requires i <= |ts|
  {
    out + LittleEndian(|ts|, 8) + PrintAll(f, ts[..i])
  }

  lemma NoItems<T>(f: Format<T>, out: Bytes, ts: seq<T>)
    ensures out + LittleEndian(|ts|, 8) == ListUpTo(f, out, ts, 0)
  {
  }

  lemma NextItem<T>(f: Format<T>, out: Bytes, ts: seq<T>, i: nat)
    requires i < |ts|
    ensures ListUpTo(f, out, ts, i) + f.render(ts[i]) == ListUpTo(f, out, ts, i + 1)
  {
    OneMore(f, ts, i);
    Nest2(out + LittleEndian(|ts|, 8), PrintAll(f, ts[..i]), f.render(ts[i]));
  }

  lemma AllItems<T>(f: Format<T>, out: Bytes, ts: seq<T>)
    ensures ListUpTo(f, out, ts, |ts|) == out + ListBytes(f, ts)
  {
    assert ts[..|ts|] == ts;
    Nest2(out, LittleEndian(|ts|, 8), PrintAll(f, ts));
  }

  lemma FirstByte(value: nat, n: nat)
    ensures LittleEndian(value, 0) == []
    ensures LittleEndian(value, n + 1) == [value % 256] + LittleEndian(value / 256, n)
  {
  }

  /** Eight bytes, least significant first. */
  method AppendUint64(out: Bytes, value: nat) returns (r: Bytes)
    ensures r == out + LittleEndian(value, 8)
  {
    hide LittleEndian;
    r := out;
    var rest := value;
    for i := 0 to 8
      invariant r + LittleEndian(rest, 8 - i) == out + LittleEndian(value, 8)
    {
      FirstByte(rest, 7 - i);
      Nest2(r, [rest % 256], LittleEndian(rest / 256, 7 - i));
      r := r + [rest % 256];
      rest := rest / 256;
    }
    FirstByte(rest, 0);
  }

  method AppendHash(out: Bytes, h: Hash256) returns (r: Bytes)
    ensures r == out + h
  {
    r := out + h;
  }

  method AppendBytes(out: Bytes, b: Bytes) returns (r: Bytes)
    ensures r == out + BlobBytes(b)
  {
    r := AppendUint64(out, |b|);
    r := r + b;
  }

  method AppendString(out: Bytes, t: string) returns (r: Bytes)
    ensures r == out + TextBytes(t)
  {
    r := AppendUint64(out, |t|);
    r := r + CharBytes(t);
  }

  /** A count, then every item. */
  method AppendList<T(!new)>(out: Bytes, f: Format<T>, ts: seq<T>) returns (r: Bytes)
    ensures r == out + ListBytes(f, ts)
  {
    hide *;
    r := AppendUint64(out, |ts|);
    NoItems(f, out, ts);
    for i := 0 to |ts|
      invariant r == ListUpTo(f, out, ts, i)
    {
      r := r + f.render(ts[i]);
      NextItem(f, out, ts, i);
    }
    AllItems(f, out, ts);
  }

  lemma NoBytes(out: Bytes)
    ensures out + LittleEndian(0, 8) == out + BlobBytes([]) && [] + out == out
  {
  }

  /** What is signed is the transaction with an empty signature. */
  method SerializeTransaction(x: Transaction, signed: bool) returns (r: Bytes)
    ensures r == TransactionFormat().render(if signed then x else x.(signature := []))
  {
    hide *;
    var written := if signed then x else x.(signature := []);
    r := AppendUint64([], x.version);
    r := AppendList(r, InputFormat(), x.inputs);
    r := AppendList(r, OutputFormat(), x.outputs);
    r := r + FeeFormat().render(x.fee);
    r := AppendUint64(r, x.nonce);
    r := AppendString(r, x.sender);
    r := AppendBytes(r, x.publicKey);
    if signed {
      r := AppendBytes(r, x.signature);
    } else {
      NoBytes(r);
      r := AppendUint64(r, 0);
    }
    TransactionLayout(written);
    NoBytes(TransactionFormat().render(written));
    Nest8([], LittleEndian(x.version, 8), ListBytes(InputFormat(), x.inputs), ListBytes(OutputFormat(), x.outputs),
          FeeFormat().render(x.fee), LittleEndian(x.nonce, 8), TextBytes(x.sender), BlobBytes(x.publicKey),
          BlobBytes(written.signature));
  }

  lemma NoVotes(out: Bytes)
    ensures out + LittleEndian(0, 8) == out + ListBytes(VoteFormat(), [])
  {
  }

  /** The rule, the round-change votes under the rules that carry them, and the votes. */
  method AppendFinalization(out: Bytes, x: Finalization, votes: bool) returns (r: Bytes)
    ensures r == out + FinalizationFormat().render(if votes then x else x.(votes := []))
  {
    hide *;
    var written := if votes then x else x.(votes := []);
    r := AppendString(out, x.rule);
    if CarriesRoundChanges(x.rule) {
      r := AppendList(r, RoundChangeFormat(x.rule == LOCKED_ROUNDS_RULE), x.roundChanges);
    }
    if votes {
      r := AppendList(r, VoteFormat(), x.votes);
    } else {
      NoVotes(r);
      r := AppendUint64(r, 0);
    }
    FinalizationLayout(written);
    Nest3(out, TextBytes(x.rule),
          (if CarriesRoundChanges(x.rule)
           then ListBytes(RoundChangeFormat(x.rule == LOCKED_ROUNDS_RULE), x.roundChanges) else []),
          ListBytes(VoteFormat(), written.votes));
  }

  method AppendHeader(out: Bytes, tag: u64, h: Header) returns (r: Bytes)
    ensures r == out + SerializeHeader(tag, h)
  {
    r := AppendUint64(out, tag);
    r := AppendUint64(r, h.version);
    r := AppendUint64(r, h.height);
    r := AppendHash(r, h.previous);
    r := AppendUint64(r, h.integer);
    Nest5(out, LittleEndian(tag, 8), LittleEndian(h.version, 8), LittleEndian(h.height, 8), h.previous,
          LittleEndian(h.integer, 8));
  }

  method AppendMetadata(out: Bytes, m: Metadata, version: u64) returns (r: Bytes)
    ensures r == out + SerializeMetadata(Wire(), m, version)
  {
    hide *;
    r := out;
    if version >= 2 {
      r := r + TransitionFormat(version).render(m.epoch);
    }
    if version >= 3 {
      r := AppendList(r, EndpointFormat(), m.endpoints);
    }
    if version >= 4 {
      r := r + PolicyFormat(version).render(m.policy);
    }
    if version >= 5 {
      r := AppendList(r, ApplicationFormat(), m.applications);
    }
    if version >= 6 {
      r := AppendList(r, BindingFormat(), m.bindings);
    }
    MetadataLayout(m, version);
    Nest5(out, (if version >= 2 then TransitionFormat(version).render(m.epoch) else []),
          (if version >= 3 then ListBytes(EndpointFormat(), m.endpoints) else []),
          (if version >= 4 then PolicyFormat(version).render(m.policy) else []),
          (if version >= 5 then ListBytes(ApplicationFormat(), m.applications) else []),
          (if version >= 6 then ListBytes(BindingFormat(), m.bindings) else []));
  }

  lemma MetadataLayout(m: Metadata, version: u64)
    ensures SerializeMetadata(Wire(), m, version)
      == (if version >= 2 then TransitionFormat(version).render(m.epoch) else [])
         + ((if version >= 3 then ListBytes(EndpointFormat(), m.endpoints) else [])
         + ((if version >= 4 then PolicyFormat(version).render(m.policy) else [])
         + ((if version >= 5 then ListBytes(ApplicationFormat(), m.applications) else [])
         + (if version >= 6 then ListBytes(BindingFormat(), m.bindings) else []))))
  {
    hide TransitionFormat, EndpointFormat, PolicyFormat, ApplicationFormat, BindingFormat, WireParts, ListOf, Lawful;
    ListLayout(EndpointFormat(), 64, m.endpoints);
    ListLayout(ApplicationFormat(), 64, m.applications);
    ListLayout(BindingFormat(), 64, m.bindings);
  }

  lemma CompositeLayout(r: Record)
    requires r.Composite?
    ensures Serialize(Wire(), r, true)
      == SerializeHeader(COMPOSITE_TAG, r.header) + (DivisionFormat().render(r.division) + (BodyFormat().render(r.body)
         + (Part(1 <= r.header.version < DIRECT_COMPOSITE, CommitPhaseFormat(), r.commitPhase)
         + (SerializeMetadata(Wire(), r.metadata, r.header.version)
         + (Part(r.header.version >= COMPOSITE_LOTTERY, LotteryFormat(), r.lottery)
         + FinalizationFormat().render(r.finalization))))))
  {
    hide SerializeHeader, DivisionFormat, BodyFormat, CommitPhaseFormat, SerializeMetadata, LotteryFormat,
      FinalizationFormat, PrattFormat, WireMetadata, LawfulSchema;
  }

  /** The bytes of a composite record. */
  method SerializeComposite(r: Record) returns (out: Bytes)
    requires r.Composite?
    ensures out == Serialize(Wire(), r, true)
  {
    hide *;
    out := AppendHeader([], COMPOSITE_TAG, r.header);
    out := out + DivisionFormat().render(r.division);
    out := out + BodyFormat().render(r.body);
    out := out + Part(1 <= r.header.version < DIRECT_COMPOSITE, CommitPhaseFormat(), r.commitPhase);
    out := AppendMetadata(out, r.metadata, r.header.version);
    out := out + Part(r.header.version >= COMPOSITE_LOTTERY, LotteryFormat(), r.lottery);
    out := AppendFinalization(out, r.finalization, true);
    CompositeLayout(r);
    NoBytes(Serialize(Wire(), r, true));
    Nest7([], SerializeHeader(COMPOSITE_TAG, r.header), DivisionFormat().render(r.division), BodyFormat().render(r.body),
          Part(1 <= r.header.version < DIRECT_COMPOSITE, CommitPhaseFormat(), r.commitPhase),
          SerializeMetadata(Wire(), r.metadata, r.header.version),
          Part(r.header.version >= COMPOSITE_LOTTERY, LotteryFormat(), r.lottery),
          FinalizationFormat().render(r.finalization));
  }

  lemma PrimeLayout(r: Record)
    requires r.PrimeRecord?
    ensures Serialize(Wire(), r, true)
      == SerializeHeader(PRIME_TAG, r.header) + (PrattFormat().render(r.pratt) + (BodyFormat().render(r.body)
         + ((if r.header.height == 0 then GenesisFormat(r.header.version).render(r.genesis) else [])
         + (SerializeMetadata(Wire(), r.metadata, r.header.version) + FinalizationFormat().render(r.finalization)))))
  {
    hide SerializeHeader, DivisionFormat, BodyFormat, CommitPhaseFormat, SerializeMetadata, LotteryFormat,
      FinalizationFormat, PrattFormat, GenesisFormat, LawfulSchema;
  }

  /** The bytes of a prime record. */
  method SerializePrime(r: Record) returns (out: Bytes)
    requires r.PrimeRecord?
    ensures out == Serialize(Wire(), r, true)
  {
    hide *;
    out := AppendHeader([], PRIME_TAG, r.header);
    out := out + PrattFormat().render(r.pratt);
    out := out + BodyFormat().render(r.body);
    if r.header.height == 0 {
      out := out + GenesisFormat(r.header.version).render(r.genesis);
    }
    out := AppendMetadata(out, r.metadata, r.header.version);
    out := AppendFinalization(out, r.finalization, true);
    PrimeLayout(r);
    NoBytes(Serialize(Wire(), r, true));
    Nest6([], SerializeHeader(PRIME_TAG, r.header), PrattFormat().render(r.pratt), BodyFormat().render(r.body),
          (if r.header.height == 0 then GenesisFormat(r.header.version).render(r.genesis) else []),
          SerializeMetadata(Wire(), r.metadata, r.header.version), FinalizationFormat().render(r.finalization));
  }
}
