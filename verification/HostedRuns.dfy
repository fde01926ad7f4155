/** A committee of one, from its first report to the finalized tesseract: a run that hosts an instance. */
module HostedRuns {
  import opened Types
  import opened Safety
  import opened Prepare
  import opened Rosters
  import opened Ledgers
  import opened LedgerRuns
  import opened HeightVotes
  import opened Kbft
  import opened Bridge
  import Authenticity
  import KbftRuns
  import Witnesses
  import S = SampleRuns
  import P = Protocol

  // ---------- an instance on its own ----------

  /** The only validator of its committee, which somebody else operates. */
  ghost predicate Solo(c: Cfg) {
    && ValidCfg(c) && Total(c.height.roster) == 1 && At(c.height.roster, 0) == NodeInfo(c.self, c.key)
    && c.index == 0 && c.responded && !Leads(c) && c.view != 0
    && Meets(c.height.roster, c.height.quorum, [true])
  }

  function OwnInput(c: Cfg, kind: MsgType, t: Tesseract): Input {
    FromPeer(VoteMsg(OwnVote(c, c.view, kind, HashOf(t))), c.self, [true])
  }

  /** The proposal, and then the instance's own votes as they come back. */
  function SoloInputs(c: Cfg, t: Tesseract): seq<Input> {
    [FromPeer(ProposalMsg(Proposal(c.view, t)), c.operator, [true]), OwnInput(c, Prevote, t), OwnInput(c, Precommit, t)]
  }

  lemma SoloVote(c: Cfg, l: Ledger, kind: MsgType, t: Tesseract)
    requires Solo(c) && l == Empty(SetupFor(c.height, c.view, kind))
    ensures var s := SetupFor(c.height, c.view, kind);
            && ValidSetup(s) && Sized(s, l) && Total(s.roster) == 1
            && var r := AddVote(s, [true], l, OwnVote(c, c.view, kind, HashOf(t)));
               r.1 == Ok(true) && SuperMajority(r.0) == Some(HashOf(t))
  {
    var s, v := SetupFor(c.height, c.view, kind), OwnVote(c, c.view, kind, HashOf(t));
    assert Genuine(s, [true], v);
    Witnesses.OnlyVoteBits(v);
    Witnesses.FirstVoteDecides(s, v, [true]);
  }

  /** The own prevote opens the view and is a majority at once. */
  lemma SoloPrevotes(c: Cfg, h: Hvs, t: Tesseract)
    requires Solo(c) && Shaped(c.height, h) && h == NewHvs(c.height)
    ensures var o := AddAt(c.height, h, VoteIn(OwnVote(c, c.view, Prevote, HashOf(t)), [true]), c.self);
            && o.Done? && o.result == Ok(true) && c.view in o.hvs.views
            && MajorityOf(o.hvs, c.view, Prevote) == Some(HashOf(t))
            && o.hvs.views[c.view].precommits == Empty(SetupFor(c.height, c.view, Precommit))
  {
    var e := VoteIn(OwnVote(c, c.view, Prevote, HashOf(t)), [true]);
    OpenedShaped(c.height, h, e, c.self);
    SoloVote(c, NewViewVotes(c.height).prevotes, Prevote, t);
  }

  lemma SoloPrecommits(c: Cfg, h: Hvs, t: Tesseract)
    requires Solo(c) && Shaped(c.height, h) && c.view in h.views
    requires h.views[c.view].precommits == Empty(SetupFor(c.height, c.view, Precommit))
    ensures var o := AddAt(c.height, h, VoteIn(OwnVote(c, c.view, Precommit, HashOf(t)), [true]), c.self);
            o.Done? && o.result == Ok(true) && MajorityOf(o.hvs, c.view, Precommit) == Some(HashOf(t))
  {
    SoloVote(c, h.views[c.view].precommits, Precommit, t);
  }

  ghost predicate EndsWith(log: seq<Effect>, e: Effect) {
    log != [] && log[|log| - 1] == e
  }

  /** A prevote majority for the proposal locks it and sends the precommit. */
  lemma LocksAndPrecommits(c: Cfg, m: Machine, v: Vote)
    requires Solo(c) && v.kind == Prevote && v.view == c.view == m.view && m.step == PREVOTE && m.proposal.Some?
    requires !m.halted && MajorityOf(m.votes, c.view, Prevote) == Some(HashOf(m.proposal.value.t))
    ensures var m' := React(c, m, v);
            && m'.view == c.view && m'.step == PRECOMMIT && m'.votes == m.votes && m'.proposal == m.proposal
            && !m'.halted && EndsWith(m'.log, Sent(VoteMsg(OwnVote(c, c.view, Precommit, HashOf(m.proposal.value.t)))))
  {
    CertificateIffMajority(m.votes, HashOf(m.proposal.value.t), c.view, Prevote);
  }

  ghost predicate EndsFinal(log: seq<Effect>, t: Tesseract) {
    log != [] && log[|log| - 1].Finalized? && log[|log| - 1].t == t
  }

  /** A precommit majority for the proposal finalizes it. */
  lemma Finalizes(c: Cfg, m: Machine, v: Vote)
    requires Solo(c) && v.kind == Precommit && v.view == c.view == m.view && m.step == PRECOMMIT && m.proposal.Some?
    requires MajorityOf(m.votes, c.view, Precommit) == Some(HashOf(m.proposal.value.t))
    ensures var m' := React(c, m, v);
            && m'.proposal == m.proposal
            && EndsFinal(m'.log, m.proposal.value.t)
  {
    CertificateIffMajority(m.votes, HashOf(m.proposal.value.t), c.view, Precommit);
  }

  lemma SoloFits(c: Cfg, t: Tesseract)
    requires Solo(c)
    ensures KbftRuns.FittingAll(c, SoloInputs(c, t)) && KbftRuns.FittingAll(c, SoloInputs(c, t)[..2])
    ensures KbftRuns.FittingAll(c, SoloInputs(c, t)[..1]) && KbftRuns.FittingAll(c, SoloInputs(c, t)[..0])
  {
  }

  lemma AfterProposal(c: Cfg, db: Db, t: Tesseract) returns (m: Machine)
    requires Solo(c) && t.heights == c.height.heights
    ensures KbftRuns.FittingAll(c, SoloInputs(c, t)[..1]) && m == KbftRuns.Run(c, db, SoloInputs(c, t)[..1])
    ensures m.view == c.view && m.step == PREVOTE && m.proposal == Some(Proposal(c.view, t)) && !m.halted
    ensures m.votes == NewHvs(c.height) && m.log == [Sent(VoteMsg(OwnVote(c, c.view, Prevote, HashOf(t))))]
  {
    var i := SoloInputs(c, t)[0];
    SoloFits(c, t);
    assert SoloInputs(c, t)[..1] == [i];
    Witnesses.OneInput(c, db, i);
    Witnesses.ProposalPrevoted(c, Init(c, db), t);
    m := KbftRuns.Run(c, db, [i]);
  }

  lemma AfterPrevote(c: Cfg, db: Db, t: Tesseract) returns (m: Machine)
    requires Solo(c) && t.heights == c.height.heights
    ensures KbftRuns.FittingAll(c, SoloInputs(c, t)[..2]) && m == KbftRuns.Run(c, db, SoloInputs(c, t)[..2])
    ensures m.view == c.view && m.step == PRECOMMIT && m.proposal == Some(Proposal(c.view, t)) && !m.halted
    ensures c.view in m.votes.views && m.votes.views[c.view].precommits == Empty(SetupFor(c.height, c.view, Precommit))
    ensures EndsWith(m.log, Sent(VoteMsg(OwnVote(c, c.view, Precommit, HashOf(t)))))
  {
    var before := AfterProposal(c, db, t);
    var inputs := SoloInputs(c, t);
    SoloFits(c, t);
    assert inputs[..2][..1] == inputs[..1] && inputs[..2][1] == OwnInput(c, Prevote, t);
    SoloPrevotes(c, before.votes, t);
    var v := OwnVote(c, c.view, Prevote, HashOf(t));
    var o := AddAt(c.height, before.votes, VoteIn(v, [true]), c.self);
    LocksAndPrecommits(c, before.(votes := o.hvs), v);
    m := KbftRuns.Run(c, db, inputs[..2]);
    assert m == Step(c, before, OwnInput(c, Prevote, t));
  }

  lemma AfterPrecommit(c: Cfg, db: Db, t: Tesseract) returns (m: Machine)
    requires Solo(c) && t.heights == c.height.heights
    ensures KbftRuns.FittingAll(c, SoloInputs(c, t)) && m == KbftRuns.Run(c, db, SoloInputs(c, t))
    ensures m.proposal == Some(Proposal(c.view, t))
    ensures EndsFinal(m.log, t)
  {
    var before := AfterPrevote(c, db, t);
    var inputs := SoloInputs(c, t);
    SoloFits(c, t);
    assert inputs[2] == OwnInput(c, Precommit, t);
    SoloPrecommits(c, before.votes, t);
    var v := OwnVote(c, c.view, Precommit, HashOf(t));
    var o := AddAt(c.height, before.votes, VoteIn(v, [true]), c.self);
    Finalizes(c, before.(votes := o.hvs), v);
    m := KbftRuns.Run(c, db, inputs);
    assert m == Step(c, before, OwnInput(c, Precommit, t));
  }

  // ---------- its turns in a protocol run ----------

  /** One context, of one honest node. */
  function Net(c: Cfg): P.Config {
    P.Config(map[S.ACCOUNT := {c.self}], {}, true)
  }

  lemma InputsAppend(turns: seq<Turn>, last: Turn)
    ensures Inputs(turns + [last]) == Inputs(turns) + [last.input]
  {
  }

  /** A proposal on which the committee of one votes. */
  ghost predicate OnCommittee(c: Cfg, t: Tesseract) {
    && Solo(c) && t.heights == c.height.heights && OwnKey(c)
    && Seated(Net(c), c.height.roster, c.height.quorum, t)
  }

  lemma SoloSeating(c: Cfg, m: Machine, t: Tesseract)
    requires OnCommittee(c, t) && m.proposal.Some? && m.proposal.value.t == t && HvsOk(c.height, m.votes)
    ensures Seating(Net(c), c, m)
  {
    forall view, kind | (view == c.view || view == m.commitView) && MajorityAt(m.votes, view, kind).Some?
      ensures Clean(Net(c), c.height.roster, MajorityAt(m.votes, view, kind).value.bits, t)
    {
      SetOk(m.votes, view, kind, Sound(c.height));
      MajorityMeetsAlone(SetupFor(c.height, view, kind), GetVoteSet(m.votes, view, kind).value);
    }
  }

  /** A turn without other nodes, on a vote that was sent or on the proposal. */
  lemma QuietTurn(s: P.State, c: Cfg, m: Machine, m': Machine, turn: Turn, t: Tesseract)
    requires OnCommittee(c, t) && turn.env == [] && HvsOk(c.height, m'.votes)
    requires m'.proposal.Some? && m'.proposal.value.t == t
    requires Honored(c, s.ballots, turn.input) && Lawful(Net(c), s, c, turn.ev, m, m')
    ensures TurnPlayed(Net(c), s, c, m, m', turn)
  {
    SoloSeating(c, m', t);
  }

  /** A vote of the instance that shows in the protocol state is not forged. */
  lemma OwnVoteHonored(s: P.State, c: Cfg, kind: MsgType, t: Tesseract)
    requires Solo(c) && OwnKey(c) && P.Ballot(c.self, kind, c.view, HashOf(t)) in s.ballots
    ensures Honored(c, s.ballots, OwnInput(c, kind, t))
  {
    var v := OwnVote(c, c.view, kind, HashOf(t));
    assert Authenticity.Unforged(c.height.roster, s.ballots, v);
  }

  /** Once it has prevoted, an instance does not prevote again. */
  lemma NoSecondPrevote(s: P.State, c: Cfg, ev: P.Evidence, m: Machine, m': Machine)
    requires KbftRuns.Once(c, m) && KbftRuns.Once(c, m') && PREVOTE <= m.step <= PRECOMMIT && CanVote(c)
    ensures Lawful(Net(c), s, c, ev, m, m')
  {
  }

  lemma {:induction false} PlayOne(cfg: P.Config, s: P.State, c: Cfg, db: Db, turns: seq<Turn>)
    requires FittingTurns(c, turns) && turns != [] && FittingTurns(c, turns[..|turns| - 1])
    requires Played(cfg, s, c, db, turns[..|turns| - 1])
    requires P.AllEnabled(cfg, s, Script(c, db, turns[..|turns| - 1])) ==>
               TurnPlayed(cfg, P.Run(cfg, s, Script(c, db, turns[..|turns| - 1])), c,
                          MachineAfter(c, db, turns[..|turns| - 1]), MachineAfter(c, db, turns), turns[|turns| - 1])
    ensures Played(cfg, s, c, db, turns)
  {
  }

  /** The first turn: the proposal, and the prevote on it. */
  lemma FirstTurn(s: P.State, c: Cfg, db: Db, t: Tesseract, ev: P.Evidence) returns (turns: seq<Turn>)
    requires OnCommittee(c, t) && P.Enabled(Net(c), s, P.CastPrevote(c.self, t, ev))
    ensures FittingTurns(c, turns) && Inputs(turns) == SoloInputs(c, t)[..1] && Played(Net(c), s, c, db, turns)
  {
    turns := [Turn([], SoloInputs(c, t)[0], ev)];
    SoloFits(c, t);
    assert Inputs(turns) == SoloInputs(c, t)[..1];
    assert turns[..0] == [] && Inputs([]) == SoloInputs(c, t)[..0];
    var m := AfterProposal(c, db, t);
    RunIsSane(c, db, turns);
    QuietTurn(s, c, MachineAfter(c, db, []), m, turns[0], t);
    PlayOne(Net(c), s, c, db, turns);
  }

  /** What an own vote that comes back needs to know of the machines before and after it. */
  lemma RunIsOnce(c: Cfg, db: Db, turns: seq<Turn>)
    requires FittingTurns(c, turns)
    ensures KbftRuns.Once(c, MachineAfter(c, db, turns)) && HvsOk(c.height, MachineAfter(c, db, turns).votes)
  {
    RunIsSane(c, db, turns);
  }

  lemma VoteTurn(s: P.State, c: Cfg, db: Db, m: Machine, m': Machine, turn: Turn, kind: MsgType, t: Tesseract, j: nat)
    requires OnCommittee(c, t) && KbftRuns.Once(c, m) && KbftRuns.Once(c, m') && HvsOk(c.height, m'.votes)
    requires Embedded(s, c, db, m.commitView, m.log) && turn.env == [] && turn.input == OwnInput(c, kind, t)
    requires PREVOTE <= m.step <= PRECOMMIT && j < |m.log| &&
             m.log[j] == Sent(VoteMsg(OwnVote(c, c.view, kind, HashOf(t))))
    requires m'.proposal.Some? && m'.proposal.value.t == t
    ensures TurnPlayed(Net(c), s, c, m, m', turn)
  {
    assert Shown(s, c, m.commitView, m.log[j]);
    OwnVoteHonored(s, c, kind, t);
    NoSecondPrevote(s, c, turn.ev, m, m');
    QuietTurn(s, c, m, m', turn, t);
  }

  /** An own vote that has been sent comes back: one more turn is played. */
  lemma {:induction false} VoteReturns(s: P.State, c: Cfg, db: Db, before: seq<Turn>, last: Turn, kind: MsgType,
                                       t: Tesseract, m: Machine, j: nat)
    requires OnCommittee(c, t) && Starts(s, c, db) && FittingTurns(c, before) && FittingTurns(c, before + [last])
    requires Played(Net(c), s, c, db, before) && m == MachineAfter(c, db, before)
    requires last.env == [] && last.input == OwnInput(c, kind, t)
    requires PREVOTE <= m.step <= PRECOMMIT && j < |m.log| &&
             m.log[j] == Sent(VoteMsg(OwnVote(c, c.view, kind, HashOf(t))))
    requires MachineAfter(c, db, before + [last]).proposal == Some(Proposal(c.view, t))
    ensures Played(Net(c), s, c, db, before + [last])
  {
    var turns := before + [last];
    assert turns[..|turns| - 1] == before;
    RunIsOnce(c, db, before);
    RunIsOnce(c, db, turns);
    RunSimulated(Net(c), s, c, db, before);
    VoteTurn(P.Run(Net(c), s, Script(c, db, before)), c, db, m, MachineAfter(c, db, turns), last, kind, t, j);
    PlayOne(Net(c), s, c, db, turns);
  }

  /** The second turn: the prevote comes back, the proposal is locked and precommitted. */
  lemma SecondTurn(s: P.State, c: Cfg, db: Db, t: Tesseract, ev: P.Evidence) returns (turns: seq<Turn>)
    requires OnCommittee(c, t) && Starts(s, c, db) && P.Enabled(Net(c), s, P.CastPrevote(c.self, t, ev))
    ensures FittingTurns(c, turns) && Inputs(turns) == SoloInputs(c, t)[..2] && Played(Net(c), s, c, db, turns)
  {
    var before := FirstTurn(s, c, db, t, ev);
    var last := Turn([], OwnInput(c, Prevote, t), ev);
    turns := before + [last];
    InputsAppend(before, last);
    assert SoloInputs(c, t)[..2] == SoloInputs(c, t)[..1] + [last.input];
    SoloFits(c, t);
    var m := AfterProposal(c, db, t);
    var m' := AfterPrevote(c, db, t);
    VoteReturns(s, c, db, before, last, Prevote, t, m, 0);
  }

  lemma ThirdInputs(c: Cfg, t: Tesseract, before: seq<Turn>, last: Turn)
    requires Solo(c) && Inputs(before) == SoloInputs(c, t)[..2] && last.input == OwnInput(c, Precommit, t)
    ensures FittingTurns(c, before) && FittingTurns(c, before + [last]) && Inputs(before + [last]) == SoloInputs(c, t)
  {
    InputsAppend(before, last);
    assert SoloInputs(c, t) == SoloInputs(c, t)[..2] + [last.input];
    SoloFits(c, t);
  }

  lemma {:induction false} SameInputs(c: Cfg, db: Db, turns: seq<Turn>, inputs: seq<Input>)
    requires FittingTurns(c, turns) && Inputs(turns) == inputs
    ensures KbftRuns.FittingAll(c, inputs) && MachineAfter(c, db, turns) == KbftRuns.Run(c, db, inputs)
  {
  }

  /** The machines before and after the third turn. */
  lemma ThirdMachines(c: Cfg, db: Db, t: Tesseract, before: seq<Turn>, last: Turn)
    requires Solo(c) && t.heights == c.height.heights
    requires Inputs(before) == SoloInputs(c, t)[..2] && last.input == OwnInput(c, Precommit, t)
    ensures FittingTurns(c, before) && FittingTurns(c, before + [last])
    ensures var m := MachineAfter(c, db, before);
            m.step == PRECOMMIT && EndsWith(m.log, Sent(VoteMsg(OwnVote(c, c.view, Precommit, HashOf(t)))))
    ensures var m' := MachineAfter(c, db, before + [last]);
            m'.proposal == Some(Proposal(c.view, t)) && EndsFinal(m'.log, t)
  {
    ThirdInputs(c, t, before, last);
    SameInputs(c, db, before, SoloInputs(c, t)[..2]);
    SameInputs(c, db, before + [last], SoloInputs(c, t));
    var m := AfterPrevote(c, db, t);
    var m' := AfterPrecommit(c, db, t);
  }

  /** The third turn: the precommit comes back, and the proposal is finalized. */
  lemma ThirdTurn(s: P.State, c: Cfg, db: Db, t: Tesseract, ev: P.Evidence) returns (turns: seq<Turn>)
    requires OnCommittee(c, t) && Starts(s, c, db) && P.Enabled(Net(c), s, P.CastPrevote(c.self, t, ev))
    ensures FittingTurns(c, turns) && Played(Net(c), s, c, db, turns) && EndsFinal(MachineAfter(c, db, turns).log, t)
  {
    var before := SecondTurn(s, c, db, t, ev);
    var last := Turn([], OwnInput(c, Precommit, t), ev);
    turns := before + [last];
    ThirdMachines(c, db, t, before, last);
    var m := MachineAfter(c, db, before);
    VoteReturns(s, c, db, before, last, Precommit, t, m, |m.log| - 1);
  }

  // ---------- the run ----------

  /** Node 1 is the only validator of the account, node 9 its operator. */
  function OnlyOne(): Cfg {
    Cfg(HeightSetup([[NodeInfo(1, 7)]], [1], map[S.ACCOUNT := 1]), 1, 1, 9, 0, true, 7, Proposal(1, S.Committed()))
  }

  lemma OnlyOneCommittee()
    ensures OnCommittee(OnlyOne(), S.Committed())
  {
    var c, t := OnlyOne(), S.Committed();
    var r := c.height.roster;
    Witnesses.OneValidator(r, NodeInfo(1, 7));
    assert r[0][0] in r[0] && Ids(r[0]) == {1};
    assert Proper(r);
    assert |{c.self}| == 1 && QuorumOf(1) == 1;
    forall p | p in P.Governed(Net(c), t)
      ensures 0 <= 0 < |r| && Ids(r[0]) == Net(c).contexts[p] && c.height.quorum[0] >= QuorumOf(|Net(c).contexts[p]|)
    {
    }
  }

  function Genesis(): ViewInfo { S.InfoOn(Precommit, GENESIS_VIEW, S.Opening()) }

  function Alone(): P.State {
    P.State({}, {}, map[1 := P.Node(1, S.FirstDb())], map[], {}, {})
  }

  function OnlyReport(): P.Report { P.Report(1, 1, [Genesis()]) }

  function OnlyEvidence(): P.Evidence { P.Evidence([S.ACCOUNT], [Genesis()], [OnlyReport()]) }

  /** After the node's own report it may prevote. */
  function Reporting(): P.State {
    Alone().(reports := {OnlyReport()})
  }

  lemma AloneFacts()
    ensures P.ValidConfig(Net(OnlyOne())) && P.Init(Net(OnlyOne()), Alone())
    ensures P.Enabled(Net(OnlyOne()), Alone(), P.SendReport(1, [S.ACCOUNT]))
    ensures P.Next(Net(OnlyOne()), Alone(), P.SendReport(1, [S.ACCOUNT])) == Reporting()
  {
    var cfg := Net(OnlyOne());
    assert cfg.byzantine * cfg.contexts[S.ACCOUNT] == {} && |cfg.contexts[S.ACCOUNT]| == 1;
    assert P.NodeOk(cfg, P.Node(1, S.FirstDb()));
    S.LoadsOne(S.FirstDb(), Genesis());
  }

  lemma OnlyPeers()
    ensures var ctx := Net(OnlyOne()).contexts[S.ACCOUNT]; |P.PeerIds([OnlyReport()]) * ctx| >= QuorumOf(|ctx|)
  {
    var ctx := Net(OnlyOne()).contexts[S.ACCOUNT];
    assert [OnlyReport()][0] in [OnlyReport()];
    assert |ctx| == 1 && QuorumOf(1) == 1;
    SubsetSize({1}, P.PeerIds([OnlyReport()]) * ctx);
  }

  lemma MayPrevote()
    ensures P.Enabled(Net(OnlyOne()), Reporting(), P.CastPrevote(1, S.Committed(), OnlyEvidence()))
  {
    var cfg, s, vi, peers := Net(OnlyOne()), Reporting(), Genesis(), [OnlyReport()];
    OnlyPeers();
    assert forall r :: r in peers ==> r == peers[0];
    assert P.PeerInfos(peers)[0] == [vi];
    FoldIsHighest([vi], P.PeerInfos(peers), 0);
    assert P.Justified(cfg, s.ballots, S.Committed(), S.ACCOUNT, vi);
    S.OneAccountAccepts(cfg, s.ballots, s.reports, 1, S.Committed(), vi, peers);
    S.LoadsOne(S.FirstDb(), vi);
  }

  /** A reachable run that hosts an instance which ends by finalizing its proposal. */
  ghost predicate HostsFinalization(cfg: P.Config, init: P.State, actions: seq<P.Action>, lo: nat,
                                    c: Cfg, db: Db, turns: seq<Turn>, t: Tesseract) {
    && P.ValidConfig(cfg) && cfg.checked && P.Init(cfg, init) && P.AllEnabled(cfg, init, actions)
    && Hosted(cfg, init, actions, lo, |actions|, c, db, turns)
    && EndsFinal(MachineAfter(c, db, turns).log, t)
  }

  lemma {:induction false} Compose(cfg: P.Config, init: P.State, a: P.Action, s: P.State, c: Cfg, db: Db,
                                   turns: seq<Turn>, t: Tesseract)
    requires P.ValidConfig(cfg) && cfg.checked && P.Init(cfg, init) && P.Enabled(cfg, init, a) &&
             P.Next(cfg, init, a) == s
    requires FittingTurns(c, turns) && Starts(s, c, db) && Played(cfg, s, c, db, turns)
    requires EndsFinal(MachineAfter(c, db, turns).log, t)
    ensures HostsFinalization(cfg, init, [a] + Script(c, db, turns), 1, c, db, turns, t)
  {
    var script := Script(c, db, turns);
    OneAction(cfg, init, a);
    RunSimulated(cfg, s, c, db, turns);
    AppendRuns(cfg, init, [a], script);
    SplitHead(a, script);
  }

  lemma SplitHead(a: P.Action, rest: seq<P.Action>)
    ensures ([a] + rest)[..1] == [a] && ([a] + rest)[1..|[a] + rest|] == rest
  {
  }

  /** What is said of hosted instances is not empty: in this run one finalizes. */
  lemma InstanceFinalizes()
    ensures exists actions, turns ::
              HostsFinalization(Net(OnlyOne()), Alone(), actions, 1, OnlyOne(), S.FirstDb(), turns, S.Committed())
  {
    var c, t, ev := OnlyOne(), S.Committed(), OnlyEvidence();
    AloneFacts();
    MayPrevote();
    OnlyOneCommittee();
    var turns := ThirdTurn(Reporting(), c, S.FirstDb(), t, ev);
    Compose(Net(c), Alone(), P.SendReport(1, [S.ACCOUNT]), Reporting(), c, S.FirstDb(), turns, t);
  }
}
