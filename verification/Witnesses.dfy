/** Concrete inputs at which a property that one might expect does not hold; the exact conditions are proved beside the
    operations themselves. */
module Witnesses {
  import opened Types
  import opened Safety
  import opened Rosters
  import opened Ledgers
  import opened LedgerRuns
  import opened QuorumCerts
  import opened HeightVotes
  import opened Kbft
  import CommitCerts
  import KbftRuns
  import opened SlotAllocator
  import W = Wal

  // ---------- one node with two indices ----------

  /** Two contexts that share node 0, and a random set. */
  function Sharing(a: KramaID, b: KramaID, c: KramaID): Roster {
    [[NodeInfo(0, 0), NodeInfo(a, a), NodeInfo(b, b), NodeInfo(c, c)],
     [NodeInfo(0, 0), NodeInfo(21, 21), NodeInfo(22, 22), NodeInfo(23, 23)],
     [NodeInfo(31, 31)]]
  }

  /** Node 0 signs with both of its indices, two more nodes of the first context, and one of the second. */
  function Doubled(first: bool): seq<bool> {
    [true, true, true, false, true, first, !first, false, true]
  }

  lemma {:induction false} TallyTriple(r: Roster, bits: seq<bool>, i: nat, j: nat, l: nat, k: nat)
    requires |bits| <= Total(r) && i < j < l < |bits| && bits[i] && bits[j] && bits[l]
    ensures Tally(r, bits, k) >= Weight(r, i, k) + Weight(r, j, k) + Weight(r, l, k)
  {
    var none := NoBits(|bits|);
    var one := none[i := true];
    var two := one[j := true];
    TallySet(r, none, i, k);
    TallySet(r, one, j, k);
    TallySet(r, two, l, k);
    TallyMonotone(r, two[l := true], bits, k);
  }

  lemma SharingPlaces(a: KramaID, b: KramaID, c: KramaID)
    ensures var r := Sharing(a, b, c);
            && Total(r) == 9
            && (forall i :: 0 <= i < 4 ==> Locate(r, i) == Place(0, i))
            && (forall i :: 4 <= i < 8 ==> Locate(r, i) == Place(1, i - 4))
            && Locate(r, 8) == Place(2, 0)
  {
    var r: Roster := Sharing(a, b, c);
    assert Offset(r, 0) == 0 && Offset(r, 1) == 4 && Offset(r, 2) == 8 && Offset(r, 3) == 9;
    forall i | 0 <= i < 4
      ensures Locate(r, i) == Place(0, i)
    {
      LocateUnique(r, Place(0, i));
    }
    forall i | 4 <= i < 8
      ensures Locate(r, i) == Place(1, i - 4)
    {
      LocateUnique(r, Place(1, i - 4));
    }
    LocateUnique(r, Place(2, 0));
  }

  lemma SharingProper(a: KramaID, b: KramaID, c: KramaID)
    requires 0 < a < b < c < 20
    ensures Proper(Sharing(a, b, c))
  {
    var r: Roster := Sharing(a, b, c);
    forall k: int, i: int, j: int | 0 <= k < |r| && 0 <= i < j < |r[k]|
      ensures r[k][i].id != r[k][j].id
    {
    }
    forall k, id | 0 <= k < |r| - 1 && Holds(r[k], id)
      ensures !Holds(r[2], id)
    {
    }
  }

  lemma SharingWeights(a: KramaID, b: KramaID, c: KramaID)
    requires 0 < a < b < c < 20
    ensures var r := Sharing(a, b, c);
            && Total(r) == 9
            && Weight(r, 0, 0) == Weight(r, 1, 0) == Weight(r, 2, 0) == 1
            && Weight(r, 0, 1) == Weight(r, 4, 1) == Weight(r, 5, 1) == Weight(r, 6, 1) == 1
            && Weight(r, 8, 2) == 1
  {
    var r: Roster := Sharing(a, b, c);
    SharingPlaces(a, b, c);
    SharingProper(a, b, c);
    OccurrencesUnique(r[1], 0);
    assert r[1][0].id == 0 && Holds(r[1], 0);
    WeightIs(r, 0, 0);
    WeightIs(r, 1, 0);
    WeightIs(r, 2, 0);
    WeightIs(r, 0, 1);
    WeightIs(r, 4, 1);
    WeightIs(r, 5, 1);
    WeightIs(r, 6, 1);
    WeightIs(r, 8, 2);
  }

  lemma DoubledMeets(a: KramaID, b: KramaID, c: KramaID, first: bool)
    requires 0 < a < b < c < 20
    ensures var r := Sharing(a, b, c); |Doubled(first)| == Total(r) && Meets(r, [3, 3, 1], Doubled(first))
  {
    SharingWeights(a, b, c);
    ThreeTallies(Sharing(a, b, c), Doubled(first), if first then 5 else 6);
  }

  lemma ThreeTallies(r: Roster, bits: seq<bool>, extra: nat)
    requires |r| == 3 && |bits| == Total(r) == 9 && 5 <= extra <= 6 && bits[extra]
    requires bits[0] && bits[1] && bits[2] && bits[4] && bits[8]
    requires Weight(r, 0, 0) == Weight(r, 1, 0) == Weight(r, 2, 0) == 1
    requires Weight(r, 0, 1) == Weight(r, 4, 1) == Weight(r, extra, 1) == 1 && Weight(r, 8, 2) == 1
    ensures Meets(r, [3, 3, 1], bits)
  {
    TallyTriple(r, bits, 0, 1, 2, 0);
    TallyTriple(r, bits, 0, 4, extra, 1);
    TallyTriple(r, bits, 0, 1, 8, 2);
  }

  lemma DoubledSigners(a: KramaID, b: KramaID, c: KramaID, first: bool)
    ensures var r := Sharing(a, b, c);
            && |Doubled(first)| == Total(r) && !SignsOnce(r, Doubled(first))
            && SignerIds(r, Doubled(first)) <= {0, a, b, if first then 21 else 22, 31}
  {
    var r: Roster, bits := Sharing(a, b, c), Doubled(first);
    SharingPlaces(a, b, c);
    assert bits[0] && bits[4] && At(r, 0).id == At(r, 4).id;
    forall i | 0 <= i < |bits| && bits[i]
      ensures At(r, i).id in {0, a, b, if first then 21 else 22, 31}
    {
      assert i == 0 || i == 1 || i == 2 || i == 4 || i == 5 || i == 6 || i == 8;
    }
  }

  /** Signers that meet the quorum of every set of a committee, although one of them signed twice. */
  ghost predicate MetTwice(r: Roster, bits: seq<bool>) {
    && Proper(r) && |r| == 3 && |bits| <= Total(r) && !SignsOnce(r, bits)
    && Meets(r, [QuorumOf(|r[0]|), QuorumOf(|r[1]|), QuorumOf(|r[2]|)], bits)
  }

  lemma SharingQuorums(a: KramaID, b: KramaID, c: KramaID)
    ensures var r := Sharing(a, b, c); [QuorumOf(|r[0]|), QuorumOf(|r[1]|), QuorumOf(|r[2]|)] == [3, 3, 1]
  {
    assert QuorumOf(4) == 3 && QuorumOf(1) == 1;
  }

  lemma DoubledMeetsTwice(a: KramaID, b: KramaID, c: KramaID, first: bool)
    requires 0 < a < b < c < 20
    ensures MetTwice(Sharing(a, b, c), Doubled(first))
  {
    SharingProper(a, b, c);
    SharingQuorums(a, b, c);
    DoubledMeets(a, b, c, first);
    DoubledSigners(a, b, c, first);
  }

  lemma OnlyShared(x: set<KramaID>, y: set<KramaID>, ctx: set<KramaID>)
    requires x <= {0, 11, 12, 21, 31} && y <= {0, 14, 15, 22, 31} && 31 !in ctx
    ensures x * y * ctx <= {0}
  {
  }

  lemma ContextIds(a: KramaID, b: KramaID, c: KramaID)
    ensures Sharing(a, b, c)[1] == Sharing(0, 0, 0)[1] && 31 !in Ids(Sharing(a, b, c)[1])
  {
  }

  /** Two committees that share a context of four: with one node that signs twice, both collect signers that meet every
      threshold, although that node is the only member of the shared context that signed for both. */
  lemma DoubleSignerSplitsAContext() returns (r1: Roster, s1: seq<bool>, r2: Roster, s2: seq<bool>)
    ensures MetTwice(r1, s1) && MetTwice(r2, s2) && r1[1] == r2[1]
    ensures SignerIds(r1, s1) * SignerIds(r2, s2) * Ids(r1[1]) <= {0}
  {
    DoubledMeetsTwice(11, 12, 13, true);
    DoubledMeetsTwice(14, 15, 16, false);
    DoubledSigners(11, 12, 13, true);
    DoubledSigners(14, 15, 16, false);
    ContextIds(11, 12, 13);
    ContextIds(14, 15, 16);
    r1, s1, r2, s2 := Sharing(11, 12, 13), Doubled(true), Sharing(14, 15, 16), Doubled(false);
    OnlyShared(SignerIds(r1, s1), SignerIds(r2, s2), Ids(r1[1]));
  }

  // ---------- certificates that do not verify ----------

  /** Two validators, either of which is enough. */
  function EitherOf(): Setup {
    Setup([[NodeInfo(1, 7), NodeInfo(2, 8)]], [1], map[], 1, Prevote)
  }

  lemma EitherFacts()
    ensures var s := EitherOf();
            && ValidSetup(s) && Total(s.roster) == 2
            && At(s.roster, 0) == NodeInfo(1, 7) && At(s.roster, 1) == NodeInfo(2, 8)
  {
    var r := EitherOf().roster;
    assert Offset(r, 1) == Offset(r, 0) + 2;
    LocateUnique(r, Place(0, 0));
    LocateUnique(r, Place(0, 1));
  }

  lemma EitherMeets(bits: seq<bool>)
    requires |bits| == 2 && bits[0]
    ensures var s := EitherOf(); |bits| == Total(s.roster) && Meets(s.roster, s.quorum, bits)
  {
    var r := EitherOf().roster;
    EitherFacts();
    LocateUnique(r, Place(0, 0));
    WeightIs(r, 0, 0);
    TallySet(r, NoBits(2), 0, 0);
    TallyMonotone(r, NoBits(2)[0 := true], bits, 0);
  }

  lemma BothIndices()
    ensures TrueIndices([true, true]) == [0, 1]
  {
    assert [true, true][..1] == [true] && [true][..0] == [];
  }

  /** A certificate with one signer more than needed: what is stored of it does not verify. */
  lemma SurplusSignerBreaksStoredQc() returns (s: Setup, v: Vote)
    ensures ValidSetup(s) && ProperQc(s, v) && v.kind == s.kind && v.view == s.view
    ensures Meets(s.roster, s.quorum, Clip(v.signers, Total(s.roster)))
    ensures var m := AddQc(s, Empty(s), v).0.majority;
            m.Some? && |m.value.bits| <= Total(s.roster) && !CertifiedSignature(s, m.value)
  {
    s, v := EitherOf(), SurplusQc();
    SurplusFacts();
    StoredQcVerifiesIffMinimal(s, v);
  }

  function SurplusQc(): Vote {
    Vote(Prevote, true, 1, 0, map[], NilHash, [true, true],
         Signature(CanonicalVote(Prevote, 1, NilHash), multiset([7, 8])))
  }

  lemma SurplusFacts()
    ensures var s, v := EitherOf(), SurplusQc();
            && ValidSetup(s) && ProperQc(s, v) && Meets(s.roster, s.quorum, Clip(v.signers, Total(s.roster)))
            && |TrueIndices(v.signers)| == 2 && MeetsFirst(s, TrueIndices(v.signers), 1)
  {
    var s, v := EitherOf(), SurplusQc();
    EitherFacts();
    BothIndices();
    assert KeysAt(s.roster, [0, 1]) == [7, 8];
    assert Clip(v.signers, 2) == [true, true];
    EitherMeets([true, true]);
    assert [0, 1][..1] == [0];
    EitherMeets(Marked(2, [0]));
  }

  function EitherVote(index: nat, key: Key): Vote {
    Vote(Prevote, false, 1, index, map[], NilHash, [], Signature(CanonicalVote(Prevote, 1, NilHash), multiset{key}))
  }

  lemma FirstVoteDecides(s: Setup, v: Vote, responded: seq<bool>)
    requires ValidSetup(s) && |responded| == Total(s.roster) && Genuine(s, responded, v)
    requires Meets(s.roster, s.quorum, Bits(NoBallots(Total(s.roster))[v.signerIndex := Some(v)]))
    ensures var r := AddVote(s, responded, Empty(s), v);
            && r.1 == Ok(true) && SuperMajority(r.0) == Some(v.hash)
            && forall i :: 0 <= i < Total(s.roster) && i != v.signerIndex ==> r.0.votes[i].None?
  {
  }

  /** Two votes for the same hash where one was enough: the certificate that is broadcast then does not verify. */
  lemma LateVoterBreaksBroadcast() returns (s: Setup, es: seq<Event>)
    ensures ValidSetup(s) && VotesOnly(s, es)
    ensures var l := After(s, es, |es|);
            && l.majority.Some? && |Bits(l.votes)| <= Total(s.roster)
            && var m := l.majority.value;
               !SignedBy(m.sig, CanonicalVote(s.kind, s.view, m.hash), s.roster, Bits(l.votes))
  {
    s := EitherOf();
    EitherFacts();
    var v0, v1 := EitherVote(0, 7), EitherVote(1, 8);
    var yes := [true, true];
    es := [VoteIn(v0, yes), VoteIn(v1, yes)];
    AfterNext(s, es, 0);
    AfterNext(s, es, 1);
    assert es[..0] == [] && After(s, es, 0) == Empty(s);
    EitherMeets(Bits(NoBallots(2)[0 := Some(v0)]));
    FirstVoteDecides(s, v0, yes);
    SecondVoteCounts(s, After(s, es, 1), v1, yes);
    assert CompletedAt(s, es, 0);
    BroadcastQcVerifiesIffNoOtherVoter(s, es, 0);
    assert Bits(After(s, es, 2).votes)[1] && !Bits(After(s, es, 1).votes)[1];
    assert !NoNewVoter(s, es, 1);
  }

  lemma SecondVoteCounts(s: Setup, l: Ledger, v: Vote, responded: seq<bool>)
    requires LedgerOk(s, l) && |responded| == Total(s.roster) && Genuine(s, responded, v)
    requires l.votes[v.signerIndex].None?
    ensures AddVote(s, responded, l, v).0.votes[v.signerIndex].Some?
  {
    assert forall h :: h in l.byHash ==> CountedAs(l, h);
    assert GetVote(s, l, v.signerIndex, v.hash).None?;
  }

  // ---------- runs of an instance ----------

  /** A committee of one validator, which is not the operator. */
  function Lonely(view: nat): Cfg {
    var t := Tesseract(0, map[], map[], map[], {}, 0, view);
    Cfg(HeightSetup([[NodeInfo(1, 7)]], [1], map[]), view, 1, 9, 0, true, 7, Proposal(view, t))
  }

  function LonelyPrecommit(t: Tesseract): Vote {
    Vote(Precommit, false, 0, 0, map[], HashOf(t), [], Signature(CanonicalVote(Precommit, 0, HashOf(t)), multiset{7}))
  }

  lemma LonelyFacts(view: nat)
    requires view + 2 < TWO_64
    ensures var r := Lonely(view).height.roster;
            ValidCfg(Lonely(view)) && Total(r) == 1 && At(r, 0) == NodeInfo(1, 7) && Meets(r, [1], [true])
  {
    var r := Lonely(view).height.roster;
    OneValidator(r, NodeInfo(1, 7));
  }

  lemma OneValidator(r: Roster, only: NodeInfo)
    requires r == [[only]]
    ensures Total(r) == 1 && At(r, 0) == only && Meets(r, [1], [true])
  {
    assert Offset(r, 1) == Offset(r, 0) + 1;
    LocateUnique(r, Place(0, 0));
    WeightIs(r, 0, 0);
    TallySet(r, NoBits(1), 0, 0);
    assert NoBits(1)[0 := true] == [true];
  }

  /** The vote of the only validator. */
  lemma OnlyVoteBits(v: Vote)
    ensures Bits(NoBallots(1)[0 := Some(v)]) == [true]
  {
  }

  /** A precommit of view zero on a new instance completes a majority of view zero. */
  lemma LonelyMajority(view: nat, db: Db, t: Tesseract)
    requires view + 2 < TWO_64
    ensures var c, m, v := Lonely(view), Init(Lonely(view), db), LonelyPrecommit(t);
            && ValidCfg(c) && Shaped(c.height, m.votes) && Total(c.height.roster) == 1
            && var o := AddAt(c.height, m.votes, VoteIn(v, [true]), 1);
               && o.Done? && o.result == Ok(true) && o.hvs.views.Keys == {0}
               && MajorityOf(o.hvs, 0, Precommit) == Some(HashOf(t))
  {
    var c, m, v := Lonely(view), Init(Lonely(view), db), LonelyPrecommit(t);
    LonelyFacts(view);
    KbftRuns.InitKeeps(c, db);
    var s := SetupFor(c.height, 0, Precommit);
    assert Genuine(s, [true], v);
    assert Empty(s) == m.votes.views[0].precommits;
    OnlyVoteBits(v);
    FirstVoteDecides(s, v, [true]);
  }

  function LonelyInput(t: Tesseract): Input {
    FromPeer(VoteMsg(LonelyPrecommit(t)), 1, [true])
  }

  /** The machine after that precommit is its reaction to it. */
  lemma LonelyRun(view: nat, db: Db, t: Tesseract) returns (h: Hvs)
    requires view + 2 < TWO_64
    ensures var c, m := Lonely(view), Init(Lonely(view), db);
            && KbftRuns.FittingAll(c, [LonelyInput(t)])
            && KbftRuns.Run(c, db, [LonelyInput(t)]) == React(c, m.(votes := h), LonelyPrecommit(t))
            && KbftRuns.Inv(c, db, m) && Extended(m.votes, h, 0, Precommit)
            && h.views.Keys == {0} && MajorityOf(h, 0, Precommit) == Some(HashOf(t))
  {
    var c, m, i := Lonely(view), Init(Lonely(view), db), LonelyInput(t);
    LonelyMajority(view, db, t);
    KbftRuns.InitKeeps(c, db);
    AddAtExtends(c.height, m.votes, VoteIn(LonelyPrecommit(t), [true]), 1);
    h := AddAt(c.height, m.votes, VoteIn(LonelyPrecommit(t), [true]), 1).hvs;
    assert KbftRuns.FittingAll(c, [i]);
    assert [i][..0] == [] && KbftRuns.Run(c, db, []) == m;
    assert KbftRuns.Run(c, db, [i]) == Step(c, m, i);
  }

  /** A precommit quorum of the instance's own view before its proposal: the commit panics. */
  lemma {:induction false} CommitBeforeProposalPanics(db: Db, t: Tesseract)
    ensures var c := Lonely(0);
            KbftRuns.FittingAll(c, [LonelyInput(t)]) && KbftRuns.Run(c, db, [LonelyInput(t)]).halted
  {
    var h := LonelyRun(0, db, t);
    KbftRuns.ReactKeeps(Lonely(0), db, Init(Lonely(0), db), h, LonelyPrecommit(t));
  }

  /** A precommit quorum of another view: the instance is at its last step, without a panic and without a proposal. */
  lemma {:induction false} OffViewCommitHasNoProposal(db: Db, t: Tesseract)
    ensures var c := Lonely(1);
            && KbftRuns.FittingAll(c, [LonelyInput(t)])
            && var m := KbftRuns.Run(c, db, [LonelyInput(t)]);
               !m.halted && m.step == COMMIT && m.commitView != c.view && m.proposal.None?
  {
    var c, m := Lonely(1), Init(Lonely(1), db);
    var h := LonelyRun(1, db, t);
    KbftRuns.ReactKeeps(c, db, m, h, LonelyPrecommit(t));
    OffViewReaction(c, m.(votes := h), LonelyPrecommit(t));
  }

  lemma OffViewReaction(c: Cfg, m: Machine, v: Vote)
    requires v.kind == Precommit && v.view == 0 && m.view == 1 && m.step == NEW_HEIGHT && m.proposal.None?
    requires m.votes.views.Keys == {0} && MajorityOf(m.votes, 0, Precommit).Some? &&
             MajorityOf(m.votes, 0, Precommit) != Some(NilHash)
    ensures var m' := React(c, m, v); m'.step == COMMIT && m'.commitView == 0 && m'.proposal.None?
  {
    assert 1 !in m.votes.views;
  }

  // ---------- two proposals in one view ----------

  function Told(view: nat, t: Tesseract): Input {
    FromPeer(ProposalMsg(Proposal(view, t)), 9, [true])
  }

  lemma {:induction false} OneInput(c: Cfg, db: Db, i: Input)
    requires KbftRuns.FittingAll(c, [i])
    ensures Shaped(c.height, Init(c, db).votes) && FittingInput(c, i)
    ensures KbftRuns.Run(c, db, [i]) == Step(c, Init(c, db), i)
  {
    KbftRuns.InitKeeps(c, db);
    assert [i][0] == i && [i][..0] == [] && KbftRuns.Run(c, db, []) == Init(c, db);
  }

  lemma ToldFits(view: nat, t: Tesseract)
    requires view + 2 < TWO_64
    ensures KbftRuns.FittingAll(Lonely(view), [Told(view, t)])
  {
    LonelyFacts(view);
  }

  /** A proposal on an instance that has none is prevoted at once. */
  lemma ProposalPrevoted(c: Cfg, m: Machine, t: Tesseract)
    requires t.heights == c.height.heights && m.view == c.view && m.proposal.None? && m.step <= PROPOSE
    requires !Leads(c) && CanVote(c)
    ensures SetProposal(c, m, Proposal(c.view, t)) ==
            m.(proposal := Some(Proposal(c.view, t)), step := PREVOTE,
               log := m.log + [Sent(VoteMsg(OwnVote(c, c.view, Prevote, HashOf(t))))])
  {
  }

  lemma {:induction false} ProposalRun(c: Cfg, db: Db, i: Input, t: Tesseract)
    requires KbftRuns.FittingAll(c, [i]) && i.FromPeer? && i.msg == ProposalMsg(Proposal(c.view, t))
    requires t.heights == c.height.heights && !Leads(c) && CanVote(c)
    ensures KbftRuns.Run(c, db, [i]).log == [Sent(VoteMsg(OwnVote(c, c.view, Prevote, HashOf(t))))]
  {
    OneInput(c, db, i);
    ProposalPrevoted(c, Init(c, db), t);
  }

  /** Every proposal message starts a new instance: two proposals of one view are both prevoted, each by an instance
      that votes once. */
  lemma {:induction false} TwoProposalsTwoPrevotes(view: nat, db: Db, t1: Tesseract, t2: Tesseract)
    requires view + 2 < TWO_64 && t1.heights == t2.heights == map[] && t1 != t2
    ensures var c := Lonely(view);
            && KbftRuns.FittingAll(c, [Told(view, t1)]) && KbftRuns.FittingAll(c, [Told(view, t2)])
            && !KbftRuns.PrevotesAgree(KbftRuns.Run(c, db, [Told(view, t1)]).log,
                 KbftRuns.Run(c, db, [Told(view, t2)]).log)
  {
    ToldFits(view, t1);
    ToldFits(view, t2);
    DifferentPrevotes(Lonely(view), db, Told(view, t1), t1, Told(view, t2), t2);
  }

  lemma {:induction false} DifferentPrevotes(c: Cfg, db: Db, i1: Input, t1: Tesseract, i2: Input, t2: Tesseract)
    requires KbftRuns.FittingAll(c, [i1]) && i1.FromPeer? && i1.msg == ProposalMsg(Proposal(c.view, t1))
    requires KbftRuns.FittingAll(c, [i2]) && i2.FromPeer? && i2.msg == ProposalMsg(Proposal(c.view, t2))
    requires t1.heights == t2.heights == c.height.heights && t1 != t2 && !Leads(c) && CanVote(c)
    ensures !KbftRuns.PrevotesAgree(KbftRuns.Run(c, db, [i1]).log, KbftRuns.Run(c, db, [i2]).log)
  {
    ProposalRun(c, db, i1, t1);
    ProposalRun(c, db, i2, t2);
    var a, b := KbftRuns.Run(c, db, [i1]).log, KbftRuns.Run(c, db, [i2]).log;
    assert KbftRuns.Casts(a[0], Prevote) && KbftRuns.Casts(b[0], Prevote);
  }

  // ---------- a finalization after a panic ----------

  /** A vote that is refused, but not before its view was opened. */
  function Malformed(): Vote {
    Vote(Prevote, false, 1, -1, map[], NilHash, [], Signature(CanonicalVote(Prevote, 1, NilHash), multiset{}))
  }

  /** View one is open and nobody has precommitted in it or in view zero. */
  ghost predicate BothOpen(h: Hvs) {
    h.views == map[0 := NewViewVotes(Lonely(1).height), 1 := NewViewVotes(Lonely(1).height)]
  }

  lemma MalformedOpens(db: Db)
    ensures var c, m := Lonely(1), Init(Lonely(1), db);
            && ValidCfg(c) && Shaped(c.height, m.votes) && Total(c.height.roster) == 1
            && var h := TakeVote(c, m, Malformed(), 1, [true]).votes;
               BothOpen(h) && TakeVote(c, m, Malformed(), 1, [true]) == m.(votes := h)
  {
    var c, m := Lonely(1), Init(Lonely(1), db);
    LonelyFacts(1);
    KbftRuns.InitKeeps(c, db);
    OpenedShaped(c.height, m.votes, VoteIn(Malformed(), [true]), 1);
    var o := AddAt(c.height, m.votes, VoteIn(Malformed(), [true]), 1);
    assert o.result == Err(InvalidVote);
    assert o.hvs.views == map[0 := NewViewVotes(c.height), 1 := NewViewVotes(c.height)];
  }

  /** With both views open, a precommit of view zero makes the only majority there is. */
  lemma OffViewMajority(h: Hvs, t: Tesseract)
    requires BothOpen(h)
    ensures var c := Lonely(1).height;
            && Shaped(c, h) && Total(c.roster) == 1
            && var o := AddAt(c, h, VoteIn(LonelyPrecommit(t), [true]), 1);
               && o.Done? && o.result == Ok(true) && 1 in o.hvs.views
               && MajorityOf(o.hvs, 0, Precommit) == Some(HashOf(t)) && MajorityOf(o.hvs, 1, Precommit) == None
  {
    var c, v := Lonely(1).height, LonelyPrecommit(t);
    LonelyFacts(1);
    NewViewOfSize(c, 0);
    NewViewOfSize(c, 1);
    var s := SetupFor(c, 0, Precommit);
    assert Genuine(s, [true], v);
    assert Empty(s) == h.views[0].precommits;
    OnlyVoteBits(v);
    FirstVoteDecides(s, v, [true]);
  }

  /** The commit panics for want of a majority in the own view, and its deferred part still finalizes. */
  lemma PanickedCommit(c: Cfg, m: Machine, v: Vote)
    requires v.kind == Precommit && m.view == c.view && m.view != v.view && m.step < COMMIT && m.proposal.Some?
    requires MajorityOf(m.votes, v.view, Precommit) == Some(HashOf(m.proposal.value.t))
    requires KbftRuns.Undecided(m.votes, c.view)
    ensures var m' := React(c, m, v);
            && m'.halted && m'.commitView == v.view && m'.votes == m.votes
            && |m'.log| == |m.log| + 1 && m'.log[|m.log|].Finalized? && m'.log[|m.log|].t == m.proposal.value.t
  {
  }

  function PanicInputs(t: Tesseract): seq<Input> {
    [FromPeer(VoteMsg(Malformed()), 1, [true]), Told(1, t), LonelyInput(t)]
  }

  lemma {:induction false} ThreeInputs(c: Cfg, db: Db, i: Input, j: Input, k: Input)
    requires KbftRuns.FittingAll(c, [i, j, k])
    ensures KbftRuns.FittingAll(c, [i]) && KbftRuns.FittingAll(c, [i, j])
    ensures KbftRuns.Run(c, db, []) == Init(c, db)
    ensures KbftRuns.Run(c, db, [i]) == Step(c, KbftRuns.Run(c, db, []), i)
    ensures KbftRuns.Run(c, db, [i, j]) == Step(c, KbftRuns.Run(c, db, [i]), j)
    ensures KbftRuns.Run(c, db, [i, j, k]) == Step(c, KbftRuns.Run(c, db, [i, j]), k)
  {
    assert [i][..0] == [] && [i, j][..1] == [i] && [i, j, k][..2] == [i, j];
    assert [i, j, k][0] == i && [i, j, k][1] == j && [i, j, k][2] == k;
  }

  lemma PanicFits(t: Tesseract)
    ensures KbftRuns.FittingAll(Lonely(1), PanicInputs(t))
  {
    LonelyFacts(1);
  }

  /** A refused vote, then the proposal. */
  lemma TwoSteps(c: Cfg, db: Db, i: Input, j: Input, k: Input, h: Hvs, t: Tesseract) returns (m: Machine)
    requires KbftRuns.FittingAll(c, [i, j, k]) && Shaped(c.height, Init(c, db).votes)
    requires i.FromPeer? && FittingInput(c, i) && Handle(c, Init(c, db), i.msg, i.peer, i.responded) ==
             Init(c, db).(votes := h)
    requires j.FromPeer? && j.msg == ProposalMsg(Proposal(c.view, t)) && t.heights == c.height.heights
    requires !Leads(c) && CanVote(c)
    ensures m.view == c.view && m.step == PREVOTE && m.proposal == Some(Proposal(c.view, t)) && !m.halted &&
            m.votes == h
    ensures Shaped(c.height, m.votes) && m.votes.view < TWO_64 && FittingInput(c, k)
    ensures KbftRuns.Run(c, db, [i, j, k]) == Step(c, m, k)
  {
    ThreeInputs(c, db, i, j, k);
    assert [i, j, k][0] == i && [i, j, k][1] == j && [i, j, k][2] == k;
    ProposalPrevoted(c, Init(c, db).(votes := h), t);
    m := KbftRuns.Run(c, db, [i, j]);
  }

  lemma BeforePanic(db: Db, t: Tesseract) returns (m: Machine)
    requires t.heights == map[]
    ensures var c, inputs := Lonely(1), PanicInputs(t);
            && KbftRuns.FittingAll(c, inputs) && Shaped(c.height, m.votes) && m.votes.view < TWO_64 &&
                 FittingInput(c, LonelyInput(t))
            && KbftRuns.Run(c, db, inputs) == Step(c, m, LonelyInput(t))
            && m.view == 1 && m.step == PREVOTE && m.proposal == Some(Proposal(1, t)) && !m.halted && BothOpen(m.votes)
  {
    var c := Lonely(1);
    PanicFits(t);
    MalformedOpens(db);
    var h := TakeVote(c, Init(c, db), Malformed(), 1, [true]).votes;
    m := TwoSteps(c, db, FromPeer(VoteMsg(Malformed()), 1, [true]), Told(1, t), LonelyInput(t), h, t);
  }

  /** A precommit quorum of another view, while the own view is open and undecided: the commit panics, the proposal is
      finalized all the same, and there is no nil majority of the own view. */
  lemma {:induction false} PanickedCommitFinalizes(db: Db, t: Tesseract)
    requires t.heights == map[]
    ensures var c, inputs := Lonely(1), PanicInputs(t);
            && KbftRuns.FittingAll(c, inputs)
            && var m := KbftRuns.Run(c, db, inputs);
               && m.halted && m.commitView != c.view && MajorityOf(m.votes, c.view, Precommit) == None
               && exists i :: 0 <= i < |m.log| && m.log[i].Finalized? && m.log[i].t == t
  {
    var c, inputs := Lonely(1), PanicInputs(t);
    var m := BeforePanic(db, t);
    OffViewMajority(m.votes, t);
    var h := AddAt(c.height, m.votes, VoteIn(LonelyPrecommit(t), [true]), 1).hvs;
    PanickedCommit(c, m.(votes := h), LonelyPrecommit(t));
    assert KbftRuns.Run(c, db, inputs) == React(c, m.(votes := h), LonelyPrecommit(t));
    assert KbftRuns.Run(c, db, inputs).log[|m.log|].Finalized?;
  }

  /** The certificate that this finalization stores does not pass the check of any other node. */
  lemma {:induction false} FinalizedQcFails(db: Db, t: Tesseract)
    requires t.heights == map[]
    ensures var c, inputs := Lonely(1), PanicInputs(t);
            && KbftRuns.FittingAll(c, inputs)
            && var m := KbftRuns.Run(c, db, inputs);
               exists i ::
                 && 0 <= i < |m.log| && m.log[i].Finalized? && m.log[i].t == t
                 && !PassesCheck(c.height.roster, c.height.quorum, c.view, m.log[i].qc)
  {
    var c, inputs := Lonely(1), PanicInputs(t);
    PanickedCommitFinalizes(db, t);
    var m := KbftRuns.Run(c, db, inputs);
    var i :| 0 <= i < |m.log| && m.log[i].Finalized? && m.log[i].t == t;
    var k := CommitCerts.FinalizedQcPassesIff(c, db, inputs, i);
  }

  // ---------- slots and records ----------

  /** A cluster id that is used again while it is live: one slot is lost for good. */
  lemma ReusedClusterLosesASlot() returns (t: Table)
    ensures NonEmpty(t.active) && Inverse(t)
    ensures Capacity(Create(t, 1, OperatorSlot, map[]), OperatorSlot) == Capacity(t, OperatorSlot) - 1
  {
    t := Create(NewTable(5, 5), 1, OperatorSlot, map[]);
    assert t.slots == map[1 := Slot(OperatorSlot, map[])];
    LiveAfter(t.slots, 1, Slot(OperatorSlot, map[]), OperatorSlot);
  }

  function Written(t: Table, id: ClusterID, lock: LockType): Table
    requires NonEmpty(t.active)
  {
    Create(t, id, OperatorSlot, map[7 := lock])
  }

  lemma WrittenIs(t: Table, id: ClusterID, lock: LockType)
    requires NonEmpty(t.active) && !Blocks(t.active, 7, lock)
    ensures var r := Written(t, id, lock);
            && r.slots == t.slots[id := Slot(OperatorSlot, map[7 := lock])]
            && r.active == t.active[7 := HoldersOf(t.active, 7) + [LockInfo(lock, id)]]
  {
  }

  lemma TwoReaders(t: Table)
    requires t.slots == map[1 := Slot(OperatorSlot, map[7 := ReadLock]), 2 := Slot(OperatorSlot, map[7 := ReadLock])]
    requires t.active.Keys == {7} && t.active[7] == [LockInfo(ReadLock, 1), LockInfo(ReadLock, 2)]
    ensures Orderly(t) && !Alone(t, 1)
  {
    assert HeldBy(t, 7, 1) && HeldBy(t, 7, 2);
  }

  function Readers(): (t: Table)
    ensures NonEmpty(t.active)
  {
    Written(Written(NewTable(5, 5), 1, ReadLock), 2, ReadLock)
  }

  lemma ReadersAre()
    ensures var t := Readers();
            && t.slots == map[1 := Slot(OperatorSlot, map[7 := ReadLock]), 2 := Slot(OperatorSlot, map[7 := ReadLock])]
            && t.active.Keys == {7} && t.active[7] == [LockInfo(ReadLock, 1), LockInfo(ReadLock, 2)]
  {
    WrittenIs(NewTable(5, 5), 1, ReadLock);
    WrittenIs(Written(NewTable(5, 5), 1, ReadLock), 2, ReadLock);
  }

  /** Two readers, one released: a writer is let in beside the other. */
  lemma ForgottenReader()
    ensures Orderly(Readers()) && !Alone(Readers(), 1)
    ensures var t := Written(Cleanup(Readers(), 1), 3, MutateLock);
            HoldsAs(t, 7, 2, ReadLock) && HoldsAs(t, 7, 3, MutateLock)
  {
    ReadersAre();
    TwoReaders(Readers());
    WrittenIs(Cleanup(Readers(), 1), 3, MutateLock);
  }

  /** A first holder without a lock hides the writer behind it: two writers hold one account. */
  lemma HiddenWriter()
    ensures var t := Written(Written(Written(NewTable(5, 5), 1, NoLock), 2, MutateLock), 3, MutateLock);
            HoldsAs(t, 7, 2, MutateLock) && HoldsAs(t, 7, 3, MutateLock)
  {
    var t1 := Written(NewTable(5, 5), 1, NoLock);
    WrittenIs(NewTable(5, 5), 1, NoLock);
    WrittenIs(t1, 2, MutateLock);
    WrittenIs(Written(t1, 2, MutateLock), 3, MutateLock);
  }

  /** An empty payload is written as a record and read back as a corrupt one. */
  lemma EmptyPayloadIsLost(f: W.Format, rest: seq<W.byte>)
    ensures W.Accepts([]) && W.DecodeAt(f, W.Frame(f, []) + rest, 0).0 != W.Record([])
  {
    W.ReadBackIff(f, [], rest);
  }
}
