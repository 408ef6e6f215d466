/**
 Finalization gets on (src/node/sync_server.cpp, collectFinalizationVotes): when the committee
 of the first round is honest and undecided, asking its members one after the other gives a
 certificate, and every honest node with the same chain appends the record.
 */
module Progress {
  import opened Machine
  import opened Addresses
  import opened Quorum
  import opened Certificates
  import opened Committee
  import opened VoteRules
  import opened VoterSafety
  import opened Agreement
  import opened VoteGiven

  // ---------------------------------------------------------------- something to write

  ghost predicate HasSlot(file: seq<SignedRecord>, r: SignedRecord) {
    exists i :: 0 <= i < |file| && SameSlot(file[i], r)
  }

  lemma OneMoreSlot(file: seq<SignedRecord>, r: SignedRecord)
    requires SlotsDistinct(file) && !HasSlot(file, r)
    ensures SlotsDistinct(file + [r]) && HasSlot(file + [r], r)
    ensures forall x :: HasSlot(file, x) ==> HasSlot(file + [r], x)
  {
    var next := file + [r];
    assert next[|file|] == r;
    forall x | HasSlot(file, x)
      ensures HasSlot(next, x)
    {
      var i :| 0 <= i < |file| && SameSlot(file[i], x);
      assert SameSlot(next[i], x);
    }
  }

  ghost predicate From(file: seq<SignedRecord>, signed: SignedCandidates, locks: Locks) {
    forall r :: r in file ==> IsSigned(r, signed) || IsLock(r, locks)
  }

  /** The signed candidates as a list. */
  lemma SignedList(signed: SignedCandidates) returns (file: seq<SignedRecord>)
    requires forall k :: k in signed ==> k == (signed[k].integer, signed[k].vote.round)
    ensures SlotsDistinct(file) && From(file, signed, map[]) && forall k :: k in signed ==> signed[k] in file
  {
    file := [];
    var rest := signed.Keys;
    while rest != {}
      invariant rest <= signed.Keys && SlotsDistinct(file) && From(file, signed, map[])
      invariant forall k :: k in signed && k !in rest ==> signed[k] in file
      invariant forall i :: 0 <= i < |file| ==> (file[i].integer, file[i].vote.round) !in rest
      decreases |rest|
    {
      var k :| k in rest;
      assert IsSigned(signed[k], signed);
      OneMoreSlot(file, signed[k]);
      file, rest := file + [signed[k]], rest - {k};
    }
  }

  /** There is always a file to write. */
  lemma SnapshotExists(signed: SignedCandidates, locks: Locks) returns (file: seq<SignedRecord>)
    requires forall k :: k in signed ==> k == (signed[k].integer, signed[k].vote.round)
    ensures SnapshotOf(file, signed, locks)
  {
    file := SignedList(signed);
    var rest := locks.Keys;
    while rest != {}
      invariant rest <= locks.Keys && SlotsDistinct(file) && From(file, signed, locks)
      invariant forall k :: k in signed ==> signed[k] in file
      invariant forall k :: k in locks && k !in rest ==> HasSlot(file, locks[k])
      decreases |rest|
    {
      var k :| k in rest;
      if !HasSlot(file, locks[k]) {
        assert IsLock(locks[k], locks);
        OneMoreSlot(file, locks[k]);
        file := file + [locks[k]];
      }
      rest := rest - {k};
    }
    assert forall k :: k in locks ==> HasSlot(file, locks[k]);
  }

  // ---------------------------------------------------------------- one vote

  /** The candidate of the first round. */
  function FirstRound(s: Subject): Candidate {
    Candidate(s, Proof(SignedRule, [], []))
  }

  /** The validator has this chain, no later round is open, and it has voted for nothing else. */
  ghost predicate Undecided(w: World, a: Address, chain: seq<Subject>, s: Subject) {
    && a in w.nodes && w.nodes[a].chain == chain && Active(w.nodes[a]) == 1
    && VotedOnlyFor(a, s, w.net)
  }

  /** What is signed does not depend on what the file holds. */
  lemma StepWrites(
    cfg: Config, self: Address, node: Node, s: Subject, proposal: Option<Vote>, net: set<Message>, a: seq<SignedRecord>,
    b: seq<SignedRecord>)
    ensures var x, y := VoteStep(cfg, self, node, FirstRound(s), proposal, net, true, Some(a)).node,
                        VoteStep(cfg, self, node, FirstRound(s), proposal, net, true, Some(b)).node;
            x.signed == y.signed && x.locks == y.locks && x.changes == node.changes
  {
    hide MayVote, LockPermits, ValidCandidate, RaisedLock;
  }

  lemma StepIsKeyed(
    cfg: Config, self: Address, node: Node, s: Subject, proposal: Option<Vote>, net: set<Message>, file: seq<SignedRecord>)
    requires VoterOk(self, node, net)
    ensures var signed := VoteStep(cfg, self, node, FirstRound(s), proposal, net, true, Some(file)).node.signed;
            forall k :: k in signed ==> k == (signed[k].integer, signed[k].vote.round)
  {
    hide MayVote, LockPermits, ValidCandidate, RaisedLock, VoterOk;
    SignedIsKeyed(self, node, net);
  }

  lemma SignedIsKeyed(self: Address, node: Node, net: set<Message>)
    requires VoterOk(self, node, net)
    ensures forall k :: k in node.signed ==> k == (node.signed[k].integer, node.signed[k].vote.round)
  {
  }

  lemma FirstRoundInOrder(cfg: Config, self: Address, node: Node, s: Subject, proposal: Option<Vote>, net: set<Message>)
    requires ValidCandidate(cfg, node.chain, s) && Active(node) == 1
    requires var vs := SetAfter(Tip(node.chain));
             && self in vs && self in CommitteeOf(vs, cfg.selector(s.prev, s.integer), 1)
             && ProposedBy(cfg, self, vs, s, 1, proposal, net)
    ensures InOrder(cfg, self, node, FirstRound(s), proposal, net, true, 1)
  {
    hide ValidCandidate, CommitteeOf, ActiveRound, SetAfter;
  }

  /** A member that is asked in order votes, and nobody else changes. */
  lemma MemberVotes(cfg: Config, genesis: Subject, w: World, self: Address, chain: seq<Subject>, s: Subject, proposal: Option<Vote>)
    returns (step: Step)
    requires WorldOk(cfg, genesis, w) && Undecided(w, self, chain, s) && ValidCandidate(cfg, chain, s)
    requires var vs := SetAfter(Tip(chain));
             && self in vs && self in CommitteeOf(vs, cfg.selector(s.prev, s.integer), 1)
             && ProposedBy(cfg, self, vs, s, 1, proposal, w.net)
    ensures var next := Apply(cfg, w, step);
            && WorldOk(cfg, genesis, next) && next.net == w.net + {VoteMsg(Vote(self, Of(s), 1))}
            && next.nodes.Keys == w.nodes.Keys && (forall a :: a in w.nodes && a != self ==> next.nodes[a] == w.nodes[a])
            && next.nodes[self].chain == chain && next.nodes[self].changes == w.nodes[self].changes
  {
    hide VoteStep, InOrder, VotedOnlyFor, VoterOk, WorldOk, SnapshotOf, ProposedBy, CommitteeOf, ValidCandidate, ActiveRound;
    var node, net, u := w.nodes[self], w.net, Vote(self, Of(s), 1);
    HonestNodeOk(cfg, genesis, w, self);
    StepIsKeyed(cfg, self, node, s, proposal, net, []);
    var drafted := VoteStep(cfg, self, node, FirstRound(s), proposal, net, true, Some([])).node;
    var file := SnapshotExists(drafted.signed, drafted.locks);
    StepWrites(cfg, self, node, s, proposal, net, [], file);
    step := CastVote(self, FirstRound(s), proposal, true, Some(file));
    FirstRoundInOrder(cfg, self, node, s, proposal, net);
    VoteGivenIff(cfg, self, node, FirstRound(s), proposal, net, true, Some(file), u);
    StepKeepsChain(cfg, self, node, FirstRound(s), proposal, net, true, Some(file));
    CastVoteKeeps(cfg, genesis, w, step);
  }

  // ---------------------------------------------------------------- the committee

  /** The committee of the first round. */
  function FirstCommittee(cfg: Config, chain: seq<Subject>, s: Subject): seq<Address> {
    CommitteeOf(SetAfter(Tip(chain)), cfg.selector(s.prev, s.integer), 1)
  }

  ghost predicate AllUndecided(cfg: Config, w: World, chain: seq<Subject>, s: Subject) {
    forall a :: a in FirstCommittee(cfg, chain, s) ==> Undecided(w, a, chain, s)
  }

  lemma MembersSit(cfg: Config, chain: seq<Subject>, s: Subject)
    requires SetAfter(Tip(chain)) != []
    ensures FirstCommittee(cfg, chain, s) != []
    ensures FirstCommittee(cfg, chain, s)[0] == Proposer(SetAfter(Tip(chain)), cfg.selector(s.prev, s.integer), 1)
    ensures forall a :: a in FirstCommittee(cfg, chain, s) ==> a in SetAfter(Tip(chain))
  {
  }

  lemma StillUndecided(cfg: Config, w: World, next: World, self: Address, chain: seq<Subject>, s: Subject)
    requires AllUndecided(cfg, w, chain, s) && self in w.nodes && next.nodes.Keys == w.nodes.Keys
    requires next.net == w.net + {VoteMsg(Vote(self, Of(s), 1))}
    requires forall a :: a in w.nodes ==> next.nodes[a].chain == w.nodes[a].chain && next.nodes[a].changes == w.nodes[a].changes
    ensures AllUndecided(cfg, next, chain, s)
  {
    hide FirstCommittee, ActiveRound;
    forall a | a in FirstCommittee(cfg, chain, s)
      ensures Undecided(next, a, chain, s)
    {
      assert Undecided(w, a, chain, s);
    }
  }

  /** Nothing but votes was added. */
  ghost predicate Later(w: World, end: World) {
    && end.nodes.Keys == w.nodes.Keys && w.net <= end.net
    && forall a :: a in w.nodes ==> end.nodes[a].chain == w.nodes[a].chain
  }

  /** The first n members of the committee vote, one after the other. */
  lemma {:induction false} CommitteeVotes(cfg: Config, genesis: Subject, w: World, chain: seq<Subject>, s: Subject, n: nat)
    returns (steps: seq<Step>)
    requires WorldOk(cfg, genesis, w) && ValidCandidate(cfg, chain, s) && SetAfter(Tip(chain)) != []
    requires AllUndecided(cfg, w, chain, s) && n <= |FirstCommittee(cfg, chain, s)|
    ensures var end := Run(cfg, w, steps);
            && WorldOk(cfg, genesis, end) && Later(w, end) && AllUndecided(cfg, end, chain, s)
            && forall j :: 0 <= j < n ==> VoteMsg(Vote(FirstCommittee(cfg, chain, s)[j], Of(s), 1)) in end.net
  {
    hide WorldOk, ValidCandidate, CommitteeOf, Apply, VotedOnlyFor, ActiveRound;
    steps := [];
    if n > 0 {
      var c, vs := FirstCommittee(cfg, chain, s), SetAfter(Tip(chain));
      MembersSit(cfg, chain, s);
      steps := CommitteeVotes(cfg, genesis, w, chain, s, n - 1);
      var now := Run(cfg, w, steps);
      var self := c[n - 1];
      assert self in c;
      var step := MemberVotes(cfg, genesis, now, self, chain, s, if n == 1 then None else Some(Vote(c[0], Of(s), 1)));
      var next := Apply(cfg, now, step);
      assert Undecided(now, self, chain, s);
      StillUndecided(cfg, now, next, self, chain, s);
      RunOneMore(cfg, w, steps, step);
      steps := steps + [step];
    }
  }

  lemma RunOneMore(cfg: Config, w: World, steps: seq<Step>, step: Step)
    ensures Run(cfg, w, steps + [step]) == Apply(cfg, Run(cfg, w, steps), step)
  {
    hide Apply;
    assert (steps + [step])[..|steps|] == steps;
  }

  lemma {:induction false} RunJoins(cfg: Config, w: World, a: seq<Step>, b: seq<Step>)
    ensures Run(cfg, w, a + b) == Run(cfg, Run(cfg, w, a), b)
  {
    hide Apply;
    if b == [] {
      assert a + b == a;
    } else {
      var n := |b| - 1;
      RunJoins(cfg, w, a, b[..n]);
      assert (a + b)[..|a + b| - 1] == a + b[..n];
    }
  }

  // ---------------------------------------------------------------- the certificate

  /** Those of a list that are members, in its order. */
  function Among(vs: seq<Address>, members: seq<Address>): seq<Address> {
    if vs == [] then []
    else Among(vs[..|vs| - 1], members) + if vs[|vs| - 1] in members then [vs[|vs| - 1]] else []
  }

  lemma {:induction false} AmongExact(vs: seq<Address>, members: seq<Address>)
    requires Ascending(vs)
    ensures Ascending(Among(vs, members))
    ensures forall a :: a in Among(vs, members) <==> a in vs && a in members
  {
    if vs != [] {
      var n := |vs| - 1;
      var init, last := vs[..n], vs[n];
      AmongExact(init, members);
      assert vs == init + [last];
      var names := Among(init, members);
      if names != [] {
        var x := names[|names| - 1];
        assert x in names;
        var i :| 0 <= i < n && vs[i] == x;
        AscendingOrders(vs, i, n);
      }
    }
  }

  lemma {:induction false} DistinctSize(c: seq<Address>)
    requires forall i, j :: 0 <= i < j < |c| ==> c[i] != c[j]
    ensures |Elements(c)| == |c|
  {
    if c != [] {
      var n := |c| - 1;
      DistinctSize(c[..n]);
      assert c == c[..n] + [c[n]];
      assert Elements(c) == Elements(c[..n]) + {c[n]};
    }
  }

  lemma CommitteeWithin(vs: seq<Address>, selector: nat)
    requires CanonicalSet(vs)
    ensures var c := CommitteeOf(vs, selector, 1);
            && |c| == |Elements(c)| == RequiredQuorum(|vs|)
            && forall a :: a in c ==> a in vs
  {
    var c := CommitteeOf(vs, selector, 1);
    forall i, j | 0 <= i < j < |c|
      ensures c[i] != c[j]
    {
      CommitteeDistinct(vs, selector, 1, i, j);
    }
    DistinctSize(c);
  }

  lemma CommitteeIsQuorum(vs: seq<Address>, selector: nat)
    requires CanonicalSet(vs)
    ensures RequiredQuorum(|vs|) == |Among(vs, CommitteeOf(vs, selector, 1))| <= |vs|
  {
    hide CommitteeOf, RequiredQuorum, Among;
    var c := CommitteeOf(vs, selector, 1);
    CommitteeWithin(vs, selector);
    AmongExact(vs, c);
    AscendingSize(Among(vs, c));
    assert Elements(Among(vs, c)) == Elements(c);
  }

  function VotesFor(names: seq<Address>, s: Subject): (votes: seq<Vote>)
    ensures |votes| == |names|
  {
    seq(|names|, i requires 0 <= i < |names| => Vote(names[i], Of(s), 1))
  }

  lemma CommitteeCertifies(cfg: Config, chain: seq<Subject>, s: Subject, net: set<Message>)
    requires CanonicalSet(SetAfter(Tip(chain)))
    requires forall a :: a in FirstCommittee(cfg, chain, s) ==> VoteMsg(Vote(a, Of(s), 1)) in net
    ensures var vs := SetAfter(Tip(chain));
            Finalizes(Proof(SignedRule, [], VotesFor(Among(vs, FirstCommittee(cfg, chain, s)), s)), Of(s), s.prev, s.integer, vs, net)
  {
    hide CommitteeOf, Among, SetAfter;
    var vs, c := SetAfter(Tip(chain)), FirstCommittee(cfg, chain, s);
    var names := Among(vs, c);
    AmongExact(vs, c);
    CommitteeIsQuorum(vs, cfg.selector(s.prev, s.integer));
    forall i | 0 <= i < |names|
      ensures names[i] in vs && names[i] in c
    {
      assert names[i] in names;
    }
  }

  /** In every reachable state: if the members of the first committee are honest, share a chain
      and have voted for nothing else at this position, they can go on to certify any candidate
      the ledger accepts, and then every honest node with this chain appends it. */
  lemma HonestCommitteeFinalizes(cfg: Config, genesis: Subject, w: World, steps: seq<Step>, chain: seq<Subject>, s: Subject)
    returns (more: seq<Step>, proof: Proof)
    requires Initial(genesis, w) && CanonicalSet(SetAfter(Tip(chain))) && ValidCandidate(cfg, chain, s)
    requires AllUndecided(cfg, Run(cfg, w, steps), chain, s)
    ensures var now, end := Run(cfg, w, steps), Run(cfg, w, steps + more);
            && Later(now, end)
            && forall a :: a in end.nodes && end.nodes[a].chain == chain ==> Appends(cfg, end.nodes[a], s, proof, end.net)
  {
    hide Run, WorldOk, ValidCandidate, CommitteeOf, SetAfter, AllUndecided, Later, Among;
    RunKeeps(cfg, genesis, w, steps);
    var now, c := Run(cfg, w, steps), FirstCommittee(cfg, chain, s);
    more := CommitteeVotes(cfg, genesis, now, chain, s, |c|);
    RunJoins(cfg, w, steps, more);
    var end := Run(cfg, w, steps + more);
    CommitteeCertifies(cfg, chain, s, end.net);
    proof := Proof(SignedRule, [], VotesFor(Among(SetAfter(Tip(chain)), c), s));
  }
}
