/**
 The bytes of each part of a record, field by field in the order the source appends and
 reads them (src/protocol/records.cpp). The formats are built from these fields.
 */
module FieldLayouts {
  import opened Machine
  import opened Records
  import opened Formats
  import opened FieldFormats
  import opened RecordForm

  function TextBytes(t: string): Bytes {
    LittleEndian(|t|, 8) + CharBytes(t)
  }

  function BlobBytes(b: Bytes): Bytes {
    LittleEndian(|b|, 8) + b
  }

  function ListBytes<T>(f: Format<T>, ts: seq<T>): Bytes {
    LittleEndian(|ts|, 8) + PrintAll(f, ts)
  }

  lemma TextLayout(t: string)
    ensures Text().render(t) == TextBytes(t)
  {
  }

  lemma ListLayout<T(!new)>(f: Format<T>, limit: nat, ts: seq<T>)
    requires Lawful(f) && limit < TWO_64
    ensures ListOf(f, limit).render(ts) == ListBytes(f, ts)
  {
  }

  lemma TransactionLayout(x: Transaction)
    ensures TransactionFormat().render(x)
      == LittleEndian(x.version, 8) + (ListBytes(InputFormat(), x.inputs) + (ListBytes(OutputFormat(), x.outputs)
         + (FeeFormat().render(x.fee) + (LittleEndian(x.nonce, 8) + (TextBytes(x.sender)
         + (BlobBytes(x.publicKey) + BlobBytes(x.signature)))))))
  {
  }

  lemma BatchLayout(x: TransactionBatch)
    ensures BatchFormat().render(x) == LittleEndian(x.count, 8) + x.root
  {
  }

  lemma BodyLayout(x: Body)
    ensures BodyFormat().render(x)
      == BatchFormat().render(x.batch) + (ListBytes(Nested(TransactionFormat()), x.transactions) + x.stateRoot)
  {
  }

  lemma DivisionLayout(x: Division)
    ensures DivisionFormat().render(x)
      == LittleEndian(x.g, 8) + (LittleEndian(x.d, 8) + (LittleEndian(x.e, 8) + (TextBytes(x.provider)
         + BlobBytes(x.signature))))
  {
  }

  lemma FactorLayout(x: Factor)
    ensures FactorFormat().render(x) == LittleEndian(x.prime, 8) + LittleEndian(x.exponent, 8)
  {
  }

  lemma PrattLayout(x: Pratt)
    ensures PrattFormat().render(x)
      == LittleEndian(x.p, 8) + (LittleEndian(x.base, 8) + (ListBytes(FactorFormat(), x.factors)
         + (TextBytes(x.provider) + BlobBytes(x.signature))))
  {
  }

  lemma BallotLayout(x: Ballot)
    ensures BallotFormat().render(x)
      == TextBytes(x.validator) + (BlobBytes(x.publicKey) + BlobBytes(x.signature))
  {
  }

  lemma VoteLayout(x: FinalizationVote)
    ensures VoteFormat().render(x)
      == TextBytes(x.validator) + (BlobBytes(x.publicKey) + (x.target + (LittleEndian(x.round, 8)
         + BlobBytes(x.signature))))
  {
  }

  lemma RoundChangeLayout(x: RoundChangeVote, locks: bool)
    ensures RoundChangeFormat(locks).render(x)
      == TextBytes(x.validator) + (BlobBytes(x.publicKey) + (x.previous + (LittleEndian(x.integer, 8)
         + (LittleEndian(x.newRound, 8) + ((if locks then LittleEndian(x.lockedRound, 8) else [])
         + ((if locks then TextBytes(x.lockedKind) else []) + ((if locks then x.lockedHash else [])
         + ((if locks then BlobBytes(x.lockedPayload) else []) + BlobBytes(x.signature)))))))))
  {
  }

  lemma LotteryLayout(x: Lottery)
    ensures LotteryFormat().render(x)
      == LittleEndian(x.round, 8) + (LittleEndian(x.winBps, 8) + (x.subject + (TextBytes(x.drawn)
         + (BlobBytes(x.publicKey) + BlobBytes(x.signature)))))
  {
  }

  lemma GenesisLayout(x: GenesisConfig, version: u64)
    ensures GenesisFormat(version).render(x)
      == ListBytes(Text(), x.validators) + (if version >= SUBJECT_IDENTITY then TextBytes(x.message) else [])
  {
  }

  lemma TransitionLayout(x: EpochTransition, version: u64)
    ensures TransitionFormat(version).render(x)
      == LittleEndian(x.epoch, 8) + ((if version >= EPOCH_VOTE_ANCHOR then x.anchorHash else [])
         + ((if version >= EPOCH_VOTE_ANCHOR then LittleEndian(x.anchorInteger, 8) else [])
         + (LittleEndian(x.activation, 8) + (ListBytes(Text(), x.next) + ListBytes(BallotFormat(), x.votes)))))
  {
  }

  lemma PolicyLayout(x: PolicyUpdate, version: u64)
    ensures PolicyFormat(version).render(x)
      == LittleEndian(x.fee, 8) + ((if version >= 7 then LittleEndian(x.reserve, 8) else [])
         + (LittleEndian(x.effective, 8) + (LittleEndian(x.sequence, 8) + ListBytes(BallotFormat(), x.votes))))
  {
  }

  lemma CertificateLayout(rule: string, c: Certificate)
    ensures CertificateFormat(rule).render(c)
      == (if CarriesRoundChanges(rule) then ListBytes(RoundChangeFormat(rule == LOCKED_ROUNDS_RULE), c.0) else [])
         + ListBytes(VoteFormat(), c.1)
  {
    hide RoundChangeFormat, VoteFormat, Pair, When, ListOf, Lawful, CarriesRoundChanges, ListBytes;
    var changes := ListOf(RoundChangeFormat(rule == LOCKED_ROUNDS_RULE), 16);
    PairRenders(When(CarriesRoundChanges(rule), changes, []), ListOf(VoteFormat(), 16), c);
    WhenRenders(CarriesRoundChanges(rule), changes, [], c.0);
    ListLayout(RoundChangeFormat(rule == LOCKED_ROUNDS_RULE), 16, c.0);
    ListLayout(VoteFormat(), 16, c.1);
  }

  lemma FinalizationLayout(x: Finalization)
    ensures FinalizationFormat().render(x)
      == TextBytes(x.rule)
         + ((if CarriesRoundChanges(x.rule)
             then ListBytes(RoundChangeFormat(x.rule == LOCKED_ROUNDS_RULE), x.roundChanges) else [])
         + ListBytes(VoteFormat(), x.votes))
  {
    hide CertificateFormat, Text, TextBytes, ListBytes, RoundChangeFormat, VoteFormat, CarriesRoundChanges, Lawful;
    CertificateLayout(x.rule, (x.roundChanges, x.votes));
    TextLayout(x.rule);
  }
}
