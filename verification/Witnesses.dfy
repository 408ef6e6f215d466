/**
 Records at which the code falls short of what one might expect of it, at the protocol's own
 formats.
 */
module Witnesses {
  import opened Machine
  import opened Addresses
  import opened Records
  import opened Formats
  import opened FieldFormats
  import opened FieldLayouts
  import opened RecordForm
  import opened SubjectIdentity
  import opened WrittenForm
  import opened WireFacts

  // ---------------------------------------------------------------- validators

  function HexDigit(d: nat): char
    requires d < 16
  {
    if d < 10 then '0' + d as char else 'a' + (d - 10) as char
  }

  function Validator(i: nat): (a: Address)
    requires i < 256
    ensures |a| == 46
  {
    "pcpq1_" + [HexDigit(i / 16), HexDigit(i % 16)] + seq(38, _ => '0')
  }

  function Validators(n: nat): (vs: seq<Address>)
    requires n <= 256
    ensures |vs| == n
  {
    seq(n, i requires 0 <= i < n => Validator(i))
  }

  lemma {:induction false} LessAt(prefix: string, x: char, y: char, s: string, t: string)
    requires x < y
    ensures Less(prefix + [x] + s, prefix + [y] + t)
  {
    if prefix != "" {
      LessAt(prefix[1..], x, y, s, t);
      assert (prefix + [x] + s)[1..] == prefix[1..] + [x] + s && (prefix + [y] + t)[1..] == prefix[1..] + [y] + t;
    }
  }

  lemma ValidatorsOrdered(i: nat)
    requires i + 1 < 256
    ensures Less(Validator(i), Validator(i + 1))
  {
    var tail := seq(38, _ => '0');
    var a, b := HexDigit(i / 16), HexDigit((i + 1) / 16);
    var c, d := HexDigit(i % 16), HexDigit((i + 1) % 16);
    if i % 16 < 15 {
      assert a == b && c < d;
      LessAt("pcpq1_" + [a], c, d, tail, tail);
      assert Validator(i) == "pcpq1_" + [a] + [c] + tail && Validator(i + 1) == "pcpq1_" + [a] + [d] + tail;
    } else {
      assert a < b;
      LessAt("pcpq1_", a, b, [c] + tail, [d] + tail);
      assert Validator(i) == "pcpq1_" + [a] + ([c] + tail) && Validator(i + 1) == "pcpq1_" + [b] + ([d] + tail);
    }
  }

  lemma ValidatorSigns(i: nat)
    requires i < 256
    ensures IsSignatureAddress(Validator(i))
  {
    assert Validator(i)[..6] == "pcpq1_";
  }

  lemma ValidatorsCanonical(n: nat)
    requires 1 <= n <= 256
    ensures CanonicalSet(Validators(n))
  {
    var vs := Validators(n);
    forall i | 0 < i < |vs|
      ensures Less(vs[i - 1], vs[i])
    {
      ValidatorsOrdered(i - 1);
    }
    forall v | v in vs
      ensures IsSignatureAddress(v)
    {
      var i :| 0 <= i < |vs| && vs[i] == v;
      ValidatorSigns(i);
    }
  }

  // ---------------------------------------------------------------- valid parts

  lemma PlainText(t: string)
    requires |t| < TWO_64 && forall i :: 0 <= i < |t| ==> t[i] < 256 as char
    ensures Text().valid(t)
  {
    assert |CharBytes(t)| == |t|;
    assert Chars(CharBytes(t)) == t;
  }

  lemma ValidatorText(i: nat)
    requires i < 256
    ensures Text().valid(Validator(i))
  {
    ValidatorSigns(i);
    var a := Validator(i);
    forall k | 0 <= k < |a|
      ensures a[k] < 256 as char
    {
      if k < 6 {
        assert a[k] == "pcpq1_"[k];
      }
    }
    PlainText(a);
  }

  const PLAIN_BODY := Body(TransactionBatch(0, NULL_HASH), [], NULL_HASH)

  lemma DivisionValid(d: Division)
    requires Text().valid(d.provider) && |d.signature| < TWO_64
    ensures DivisionFormat().valid(d)
  {
    hide Text;
  }

  lemma BodyValid()
    ensures BodyFormat().valid(PLAIN_BODY)
  {
    hide TransactionFormat;
  }

  lemma CommitPhaseValid()
    ensures CommitPhaseFormat().valid(NO_COMMIT_PHASE)
  {
    hide CommitEntryFormat, BallotFormat, Text;
  }

  lemma {:induction false} NamesValid(names: seq<Address>)
    requires forall i :: 0 <= i < |names| ==> Text().valid(names[i])
    requires |names| <= 16
    ensures ListOf(Text(), 16).valid(names)
  {
    hide Text;
  }

  lemma BallotValid(b: Ballot)
    requires Text().valid(b.validator) && |b.publicKey| < TWO_64 && |b.signature| < TWO_64
    ensures BallotFormat().valid(b)
  {
    hide Text;
  }

  lemma TransitionValid(t: EpochTransition, version: u64)
    requires version >= EPOCH_VOTE_ANCHOR || (t.anchorHash == NULL_HASH && t.anchorInteger == 0)
    requires ListOf(Text(), 16).valid(t.next) && ListOf(BallotFormat(), 16).valid(t.votes)
    ensures TransitionFormat(version).valid(t)
  {
    hide Text, BallotFormat, ListOf;
  }

  lemma NoTransitionValid(version: u64)
    ensures TransitionFormat(version).valid(NO_TRANSITION)
  {
    hide Text, BallotFormat, TransitionFormat;
    TransitionValid(NO_TRANSITION, version);
  }

  lemma NoPolicyValid(version: u64)
    ensures PolicyFormat(version).valid(NO_POLICY)
  {
    hide BallotFormat;
  }

  lemma ListsValid()
    ensures EndpointList().valid([]) && ApplicationList().valid([]) && BindingList().valid([])
  {
    hide EndpointFormat, ApplicationFormat, BindingFormat, Lawful;
  }

  /** A vote with nothing but its names, enough where signatures are for an oracle. */
  function BareVote(a: Address, target: Hash256): FinalizationVote {
    FinalizationVote(a, [], target, 1, [])
  }

  function BareVotes(names: seq<Address>, target: Hash256): (vs: seq<FinalizationVote>)
    ensures |vs| == |names|
  {
    seq(|names|, i requires 0 <= i < |names| => BareVote(names[i], target))
  }

  lemma BareVoteValid(a: Address, target: Hash256)
    requires Text().valid(a)
    ensures VoteFormat().valid(BareVote(a, target))
  {
    hide Text;
  }

  lemma CertificateValid(rule: string, votes: seq<FinalizationVote>)
    requires !CarriesRoundChanges(rule) && ListOf(VoteFormat(), 16).valid(votes)
    ensures CertificateFormat(rule).valid(([], votes))
  {
    hide VoteFormat, RoundChangeFormat, ListOf;
  }

  lemma BareVotesValid(names: seq<Address>, target: Hash256)
    requires |names| <= 16 && forall i :: 0 <= i < |names| ==> Text().valid(names[i])
    ensures ListOf(VoteFormat(), 16).valid(BareVotes(names, target))
  {
    hide Text, VoteFormat;
    var votes := BareVotes(names, target);
    forall i | 0 <= i < |votes|
      ensures VoteFormat().valid(votes[i])
    {
      BareVoteValid(names[i], target);
    }
  }

  lemma VotesValid(rule: string, votes: seq<FinalizationVote>)
    requires !CarriesRoundChanges(rule) && Text().valid(rule) && ListOf(VoteFormat(), 16).valid(votes)
    ensures FinalizationFormat().valid(Finalization(rule, [], votes))
  {
    hide VoteFormat, CertificateFormat, Text, ListOf;
    CertificateValid(rule, votes);
  }

  lemma RulesWithoutChanges()
    ensures !CarriesRoundChanges(SIGNED_RULE) && !CarriesRoundChanges(DEVELOPMENT_RULE)
    ensures Text().valid(SIGNED_RULE) && Text().valid(DEVELOPMENT_RULE)
  {
    hide Text;
    assert |SIGNED_RULE| != |ROUNDS_RULE| && |SIGNED_RULE| != |LOCKED_ROUNDS_RULE|;
    assert |DEVELOPMENT_RULE| != |ROUNDS_RULE| && |DEVELOPMENT_RULE| != |LOCKED_ROUNDS_RULE|;
    PlainText(SIGNED_RULE);
    PlainText(DEVELOPMENT_RULE);
  }

  // ---------------------------------------------------------------- seventeen validators

  /** A transition to a canonical set of 17 validators is written, and not read. */
  lemma SeventeenValidators(sc: Schema) returns (r: Record)
    requires sc == Wire()
    ensures r.Composite? && r.header.version == 9 && CanonicalSet(r.metadata.epoch.next)
    ensures Deserialize(sc, true, Serialize(sc, r, true)) != Some(r)
  {
    hide Wire, Serialize, Deserialize, LawfulSchema;
    var next := Validators(17);
    ValidatorsCanonical(17);
    r := Composite(Header(9, 2, NULL_HASH, 4), Division(4, 2, 2, "", []), PLAIN_BODY, NO_COMMIT_PHASE,
                   Metadata(EpochTransition(1, NULL_HASH, 0, 5, next, []), [], NO_POLICY, [], []), NO_LOTTERY, NO_FINALIZATION);
    TooManyValidators(sc, r);
  }

  // ---------------------------------------------------------------- version 3 without endpoints

  const RULE_PREFIX := "fixed-2-"
  const PREFIX_WORD := 0x2d322d6465786966

  predicate ProtocolRule(rule: string) {
    8 <= |rule| < TWO_64 && rule[..8] == RULE_PREFIX
  }

  /** Rules that no endpoint list begins with: all of the protocol's, and long ones. */
  predicate UnlikeEndpoints(rule: string) {
    ProtocolRule(rule) || 64 < |rule| < TWO_64
  }

  lemma RulesAreProtocolRules()
    ensures ProtocolRule(SIGNED_RULE) && ProtocolRule(ROUNDS_RULE) && ProtocolRule(LOCKED_ROUNDS_RULE)
    ensures ProtocolRule(DEVELOPMENT_RULE)
  {
  }

  const PREFIX_BYTES: Bytes := [0x66, 0x69, 0x78, 0x65, 0x64, 0x2d, 0x32, 0x2d]

  lemma RuleBytes(rule: string, tail: Bytes)
    requires ProtocolRule(rule)
    ensures |CharBytes(rule) + tail| >= 8 && (CharBytes(rule) + tail)[..8] == PREFIX_BYTES
  {
    var b := CharBytes(rule) + tail;
    forall k | 0 <= k < 8
      ensures b[k] == PREFIX_BYTES[k]
    {
      assert rule[k] == rule[..8][k] == RULE_PREFIX[k];
    }
  }

  lemma TooLong(b: Bytes)
    requires |b| >= 8 && Value(b[..8]) > |b|
    ensures Text().parse(b).None?
  {
    hide Value;
    assert WORD.parse(b) == Some((ToWord(b[..8]), b[8..]));
    assert BLOB.parse(b).None?;
  }

  /** Read as a length, the first eight characters of a rule are enormous. */
  lemma RuleAsLength(rule: string, tail: Bytes)
    requires ProtocolRule(rule) && |CharBytes(rule) + tail| < PREFIX_WORD
    ensures Text().parse(CharBytes(rule) + tail).None?
  {
    hide Value, Text, CharBytes;
    RuleBytes(rule, tail);
    PrefixValue();
    TooLong(CharBytes(rule) + tail);
  }

  lemma PrefixValue()
    ensures Value([0x66, 0x69, 0x78, 0x65, 0x64, 0x2d, 0x32, 0x2d]) == PREFIX_WORD
  {
    assert Value([0x2d]) == 0x2d;
    assert Value([0x32, 0x2d]) == 0x2d32 by { assert [0x32, 0x2d][1..] == [0x2d]; }
    assert Value([0x2d, 0x32, 0x2d]) == 0x2d322d by { assert [0x2d, 0x32, 0x2d][1..] == [0x32, 0x2d]; }
    assert Value([0x64, 0x2d, 0x32, 0x2d]) == 0x2d322d64 by { assert [0x64, 0x2d, 0x32, 0x2d][1..] == [0x2d, 0x32, 0x2d]; }
    assert Value([0x65, 0x64, 0x2d, 0x32, 0x2d]) == 0x2d322d6465 by {
      assert [0x65, 0x64, 0x2d, 0x32, 0x2d][1..] == [0x64, 0x2d, 0x32, 0x2d];
    }
    assert Value([0x78, 0x65, 0x64, 0x2d, 0x32, 0x2d]) == 0x2d322d646578 by {
      assert [0x78, 0x65, 0x64, 0x2d, 0x32, 0x2d][1..] == [0x65, 0x64, 0x2d, 0x32, 0x2d];
    }
    assert Value([0x69, 0x78, 0x65, 0x64, 0x2d, 0x32, 0x2d]) == 0x2d322d64657869 by {
      assert [0x69, 0x78, 0x65, 0x64, 0x2d, 0x32, 0x2d][1..] == [0x78, 0x65, 0x64, 0x2d, 0x32, 0x2d];
    }
    assert [0x66, 0x69, 0x78, 0x65, 0x64, 0x2d, 0x32, 0x2d][1..] == [0x69, 0x78, 0x65, 0x64, 0x2d, 0x32, 0x2d];
  }

  lemma EndpointNeedsText(b: Bytes)
    requires Text().parse(b).None?
    ensures EndpointFormat().parse(b).None?
  {
    hide Text;
  }

  lemma ListNeedsItem<T(!new)>(f: Format<T>, limit: nat, n: nat, b: Bytes)
    requires Lawful(f) && limit < TWO_64 && 0 < n < TWO_64 && f.parse(b).None?
    ensures ListOf(f, limit).parse(LittleEndian(n, 8) + b).None?
  {
    CountReadBack(n, b);
  }

  lemma ProtocolCertificate(f: Finalization)
    requires ProtocolRule(f.rule) && |FinalizationFormat().render(f)| < PREFIX_WORD
    ensures EndpointList().parse(FinalizationFormat().render(f)).None?
  {
    hide FinalizationFormat, EndpointFormat, Text, ListBytes, RoundChangeFormat, VoteFormat, ListOf, Lawful;
    FinalizationLayout(f);
    var tail := (if CarriesRoundChanges(f.rule)
                 then ListBytes(RoundChangeFormat(f.rule == LOCKED_ROUNDS_RULE), f.roundChanges) else [])
                + ListBytes(VoteFormat(), f.votes);
    var b := CharBytes(f.rule) + tail;
    assert LittleEndian(|f.rule|, 8) + CharBytes(f.rule) + tail == LittleEndian(|f.rule|, 8) + b;
    RuleAsLength(f.rule, tail);
    EndpointNeedsText(b);
    ListNeedsItem(EndpointFormat(), 64, |f.rule|, b);
  }

  /** Under these rules a certificate is never read as an endpoint list. */
  lemma CertificateIsNoEndpointList(f: Finalization)
    requires UnlikeEndpoints(f.rule) && |FinalizationFormat().render(f)| < PREFIX_WORD
    ensures EndpointList().parse(FinalizationFormat().render(f)).None?
  {
    hide EndpointFormat, CertificateFormat, FinalizationOf, ListOf, Lawful;
    if ProtocolRule(f.rule) {
      ProtocolCertificate(f);
    } else {
      LongRuleIsNoEndpointList(EndpointFormat(), CertificateFormat, f);
    }
  }

  lemma CertificateIsNoEndpointListOf(sc: Schema, f: Finalization)
    requires sc == Wire() && UnlikeEndpoints(f.rule) && |sc.parts.finalization.render(f)| < PREFIX_WORD
    ensures sc.metadata.endpoints.parse(sc.parts.finalization.render(f)).None?
  {
    hide *;
    PartFields(sc);
    EndpointField(sc);
    CertificateIsNoEndpointList(f);
  }

  lemma BareValid(sc: Schema, r: Record)
    requires sc == Wire() && r.Composite? && CompositePartsValid(sc, false, r)
    ensures CompositeFormat(sc, false, true).valid(r)
  {
    hide Wire, CompositePartsValid, CompositeFormat, LawfulSchema;
    CompositeValidIff(sc, false, r);
  }

  /** The whole family at the protocol's own formats: composite records of version 3 without
      endpoint list, under every rule of the protocol and every longer one, decode and
      re-encode to other bytes. */
  lemma ShortBytesNotCanonical(sc: Schema, r: Record)
    requires sc == Wire() && r.Composite? && r.header.version == 3 && CompositePartsValid(sc, false, r)
    requires UnlikeEndpoints(r.finalization.rule) && |sc.parts.finalization.render(r.finalization)| < PREFIX_WORD
    ensures Deserialize(sc, true, ShortBytes(sc, r)) == Some(r)
    ensures Serialize(sc, r, true) != ShortBytes(sc, r)
  {
    hide *;
    WireAdmitsAbsent(sc);
    CertificateIsNoEndpointListOf(sc, r.finalization);
    BareValid(sc, r);
    Version3NotCanonical(sc, r);
  }

  lemma BareVoteSize(a: Address, target: Hash256)
    requires |a| <= 46
    ensures |VoteFormat().render(BareVote(a, target))| <= 110
  {
    hide VoteFormat;
    VoteLayout(BareVote(a, target));
  }

  lemma {:induction false} BareVotesSize(names: seq<Address>, target: Hash256)
    requires forall i :: 0 <= i < |names| ==> |names[i]| <= 46
    ensures |PrintAll(VoteFormat(), BareVotes(names, target))| <= 110 * |names|
  {
    hide VoteFormat, BareVote;
    if names != [] {
      BareVoteSize(names[0], target);
      BareVotesSize(names[1..], target);
      assert BareVotes(names, target)[1..] == BareVotes(names[1..], target);
    }
  }

  /** A certificate with the votes of these names. */
  function VotedCertificate(rule: string, names: seq<Address>, target: Hash256): Finalization {
    Finalization(rule, [], BareVotes(names, target))
  }

  /** Under the rule of the first round. */
  function SignedCertificate(names: seq<Address>, target: Hash256): Finalization {
    VotedCertificate(SIGNED_RULE, names, target)
  }

  lemma CertificateSmall(rule: string, names: seq<Address>, target: Hash256)
    requires !CarriesRoundChanges(rule) && |rule| < 100
    requires |names| <= 16 && forall i :: 0 <= i < |names| ==> |names[i]| <= 46
    ensures |FinalizationFormat().render(VotedCertificate(rule, names, target))| < 2000
  {
    hide FinalizationFormat, VoteFormat, BareVotes;
    FinalizationLayout(VotedCertificate(rule, names, target));
    BareVotesSize(names, target);
    assert |TextBytes(rule)| == 8 + |rule|;
  }

  lemma CertificateFits(rule: string, names: seq<Address>, target: Hash256)
    requires !CarriesRoundChanges(rule) && Text().valid(rule)
    requires |names| <= 16 && forall i :: 0 <= i < |names| ==> Text().valid(names[i])
    ensures FinalizationFormat().valid(VotedCertificate(rule, names, target))
  {
    hide FinalizationFormat, VoteFormat, BareVotes, Text, ListOf;
    BareVotesValid(names, target);
    VotesValid(rule, BareVotes(names, target));
  }

  lemma ValidatorTexts(n: nat)
    requires n <= 256
    ensures forall i :: 0 <= i < n ==> Text().valid(Validators(n)[i])
  {
    hide Text, Validator;
    forall i | 0 <= i < n
      ensures Text().valid(Validators(n)[i])
    {
      ValidatorText(i);
    }
  }

  const PLAIN_DIVISION := Division(4, 2, 2, "pcdev1_a", [])

  /** A composite record with the given header, commit phase, transition and certificate. */
  function PlainComposite(h: Header, c: CommitPhase, t: EpochTransition, f: Finalization): Record {
    Composite(h, PLAIN_DIVISION, PLAIN_BODY, c, Metadata(t, [], NO_POLICY, [], []), NO_LOTTERY, f)
  }

  /** The formats admit the parts of plain records. */
  ghost predicate AdmitsPlain(sc: Schema) {
    && sc.parts.division.valid(PLAIN_DIVISION) && sc.parts.body.valid(PLAIN_BODY)
    && sc.parts.commitPhase.valid(NO_COMMIT_PHASE) && sc.parts.lottery.valid(NO_LOTTERY)
    && sc.metadata.endpoints.valid([]) && sc.metadata.applications.valid([]) && sc.metadata.bindings.valid([])
    && forall v: u64 :: sc.metadata.policy(v).valid(NO_POLICY)
  }

  lemma WireAdmitsPlain(sc: Schema)
    requires sc == Wire()
    ensures AdmitsPlain(sc)
  {
    hide Wire, DivisionFormat, BodyFormat, CommitPhaseFormat, LotteryFormat, PolicyFormat, Text, EndpointList, ApplicationList,
         BindingList, FinalizationFormat, TransactionFormat, PrattFormat;
    PartFields(sc);
    MetadataFields(sc);
    EndpointField(sc);
    PlainText("pcdev1_a");
    DivisionValid(PLAIN_DIVISION);
    BodyValid();
    CommitPhaseValid();
    AbsentLotteryValid();
    ListsValid();
    forall v: u64 {
      NoPolicyValid(v);
    }
  }

  lemma PlainCompositeValid(sc: Schema, endpoints: bool, h: Header, t: EpochTransition, f: Finalization)
    requires AdmitsPlain(sc) && sc.parts.finalization.valid(f)
    requires ValidSome(h.version >= 2, sc.metadata.transition(h.version), NO_TRANSITION, t)
    ensures CompositePartsValid(sc, endpoints, PlainComposite(h, NO_COMMIT_PHASE, t, f))
  {
  }

  lemma CertificateAtWire(sc: Schema, f: Finalization)
    requires sc == Wire() && FinalizationFormat().valid(f)
    ensures sc.parts.finalization.valid(f)
    ensures |sc.parts.finalization.render(f)| == |FinalizationFormat().render(f)|
  {
    hide *;
    PartFields(sc);
  }

  lemma TransitionAtWire(sc: Schema, t: EpochTransition, version: u64)
    requires sc == Wire() && TransitionFormat(version).valid(t)
    ensures sc.metadata.transition(version).valid(t)
  {
    hide *;
    MetadataFields(sc);
  }

  /** One of the family, certified by three validators under the rule of the first round. */
  lemma Version3Witness(sc: Schema) returns (r: Record)
    requires sc == Wire()
    ensures r.Composite? && r.header.version == 3 && r.finalization.rule == SIGNED_RULE && |r.finalization.votes| == 3
    ensures Deserialize(sc, true, ShortBytes(sc, r)) == Some(r)
    ensures Serialize(sc, r, true) != ShortBytes(sc, r)
  {
    hide Wire, FinalizationFormat, Serialize, Deserialize, ShortBytes, CompositePartsValid, TransitionFormat, LawfulSchema, Text,
         AdmitsPlain, Validators, BareVotes;
    var f := SignedCertificate(Validators(3), NULL_HASH);
    r := PlainComposite(Header(3, 2, NULL_HASH, 4), NO_COMMIT_PHASE, NO_TRANSITION, f);
    ThreeValidators(f);
    NoTransitionValid(3);
    WireAdmitsPlain(sc);
    CertificateAtWire(sc, f);
    TransitionAtWire(sc, NO_TRANSITION, 3);
    PlainCompositeValid(sc, false, r.header, NO_TRANSITION, f);
    ShortBytesNotCanonical(sc, r);
  }

  lemma ThreeValidators(f: Finalization)
    requires f == SignedCertificate(Validators(3), NULL_HASH)
    ensures FinalizationFormat().valid(f) && |FinalizationFormat().render(f)| < 2000 && ProtocolRule(f.rule)
  {
    hide FinalizationFormat, Text, Validator;
    ValidatorTexts(3);
    RulesWithoutChanges();
    CertificateFits(SIGNED_RULE, Validators(3), NULL_HASH);
    CertificateSmall(SIGNED_RULE, Validators(3), NULL_HASH);
    RulesAreProtocolRules();
  }

  // ---------------------------------------------------------------- sizes

  lemma {:induction false} ListSize<T>(f: Format<T>, ts: seq<T>, size: nat)
    requires forall i :: 0 <= i < |ts| ==> |f.render(ts[i])| == size
    ensures |ListBytes(f, ts)| == 8 + size * |ts|
  {
    if ts != [] {
      ListSize(f, ts[1..], size);
      assert size * |ts| == size + size * (|ts| - 1);
    }
  }

  lemma NamesSize(names: seq<Address>)
    requires forall i :: 0 <= i < |names| ==> |names[i]| == 46
    ensures |ListBytes(Text(), names)| == 8 + 54 * |names|
  {
    hide Text, ListBytes;
    forall i | 0 <= i < |names|
      ensures |Text().render(names[i])| == 54
    {
      TextLayout(names[i]);
    }
    ListSize(Text(), names, 54);
  }

  function BareBallot(a: Address): Ballot {
    Ballot(a, [], [])
  }

  function BareBallots(names: seq<Address>): (bs: seq<Ballot>)
    ensures |bs| == |names|
  {
    seq(|names|, i requires 0 <= i < |names| => BareBallot(names[i]))
  }

  lemma BallotsSize(names: seq<Address>)
    requires forall i :: 0 <= i < |names| ==> |names[i]| == 46
    ensures |ListBytes(BallotFormat(), BareBallots(names))| == 8 + 70 * |names|
  {
    hide BallotFormat, ListBytes;
    forall i | 0 <= i < |names|
      ensures |BallotFormat().render(BareBallots(names)[i])| == 70
    {
      BallotLayout(BareBallot(names[i]));
    }
    ListSize(BallotFormat(), BareBallots(names), 70);
  }

  lemma BareBallotsValid(names: seq<Address>)
    requires |names| <= 16 && forall i :: 0 <= i < |names| ==> Text().valid(names[i])
    ensures ListOf(BallotFormat(), 16).valid(BareBallots(names))
  {
    hide Text, BallotFormat;
    forall i | 0 <= i < |names|
      ensures BallotFormat().valid(BareBallots(names)[i])
    {
      BallotValid(BareBallot(names[i]));
    }
  }

  /** A transition voted for by these names. */
  function PlainTransition(epoch: u64, anchor: Hash256, integer: u64, activation: u64, next: seq<Address>, names: seq<Address>)
    : EpochTransition
  {
    EpochTransition(epoch, anchor, integer, activation, next, BareBallots(names))
  }

  lemma TransitionSize(t: EpochTransition, version: u64, names: seq<Address>)
    requires t.votes == BareBallots(names) && |t.next| <= 16 && |names| <= 16
    requires (forall i :: 0 <= i < |t.next| ==> |t.next[i]| == 46) && (forall i :: 0 <= i < |names| ==> |names[i]| == 46)
    ensures |TransitionFormat(version).render(t)| < 3000
  {
    hide TransitionFormat, ListBytes, BallotFormat, Text, BareBallots;
    TransitionLayout(t, version);
    NamesSize(t.next);
    BallotsSize(names);
  }

  lemma PartSizes()
    ensures |DivisionFormat().render(PLAIN_DIVISION)| < 1000 && |BodyFormat().render(PLAIN_BODY)| < 1000
    ensures |LotteryFormat().render(NO_LOTTERY)| < 1000
  {
    hide DivisionFormat, BodyFormat, LotteryFormat, BatchFormat, TransactionFormat;
    DivisionLayout(PLAIN_DIVISION);
    BodyLayout(PLAIN_BODY);
    BatchLayout(PLAIN_BODY.batch);
    LotteryLayout(NO_LOTTERY);
  }

  lemma MetadataSizes(version: u64)
    ensures |PolicyFormat(version).render(NO_POLICY)| < 1000 && |EndpointList().render([])| < 1000
    ensures |ApplicationList().render([])| < 1000 && |BindingList().render([])| < 1000
  {
    hide PolicyFormat, EndpointFormat, ApplicationFormat, BindingFormat, BallotFormat, ListOf, Lawful;
    PolicyLayout(NO_POLICY, version);
    ListLayout(EndpointFormat(), 64, []);
    ListLayout(ApplicationFormat(), 64, []);
    ListLayout(BindingFormat(), 64, []);
  }

  // ---------------------------------------------------------------- prime records

  /** A prime record without transactions and metadata. */
  function PlainPrime(h: Header, p: Pratt, g: GenesisConfig, f: Finalization): Record {
    PrimeRecord(h, p, PLAIN_BODY, g, Metadata(NO_TRANSITION, [], NO_POLICY, [], []), f)
  }

  lemma PlainPrimeValid(sc: Schema, endpoints: bool, h: Header, p: Pratt, g: GenesisConfig, f: Finalization)
    requires AdmitsPlain(sc) && sc.parts.pratt.valid(p) && sc.parts.finalization.valid(f)
    requires ValidSome(h.version >= 2, sc.metadata.transition(h.version), NO_TRANSITION, NO_TRANSITION)
    requires ValidSome(h.height == 0, sc.metadata.genesis(h.version), NO_GENESIS, g)
    ensures PrimePartsValid(sc, endpoints, PlainPrime(h, p, g, f))
  {
  }

  lemma PrattFits(p: Pratt)
    requires |p.factors| <= 1 && Text().valid(p.provider) && |p.provider| <= 46 && p.signature == []
    ensures PrattFormat().valid(p) && |PrattFormat().render(p)| < 1000
  {
    hide Text, PrattFormat, FactorFormat, ListBytes;
    PrattValid(p);
    PrattLayout(p);
    forall i | 0 <= i < |p.factors|
      ensures |FactorFormat().render(p.factors[i])| == 16
    {
      FactorLayout(p.factors[i]);
    }
    ListSize(FactorFormat(), p.factors, 16);
  }

  lemma PrattValid(p: Pratt)
    requires |p.factors| <= 1 && Text().valid(p.provider) && p.signature == []
    ensures PrattFormat().valid(p)
  {
    hide Text;
  }

  lemma GenesisFits(g: GenesisConfig, version: u64)
    requires version >= SUBJECT_IDENTITY && |g.validators| <= 16 && Text().valid(g.message) && |g.message| < 1000
    requires forall i :: 0 <= i < |g.validators| ==> |g.validators[i]| == 46 && Text().valid(g.validators[i])
    ensures GenesisFormat(version).valid(g) && |GenesisFormat(version).render(g)| < 3000
  {
    hide Text, GenesisFormat, ListBytes, ListOf;
    NamesValid(g.validators);
    GenesisValid(g, version);
    GenesisLayout(g, version);
    NamesSize(g.validators);
  }

  lemma GenesisValid(g: GenesisConfig, version: u64)
    requires version >= SUBJECT_IDENTITY && ListOf(Text(), 16).valid(g.validators) && Text().valid(g.message)
    ensures GenesisFormat(version).valid(g)
  {
    hide Text, ListOf;
  }
}
