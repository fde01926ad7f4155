/** What the signature checks are for: every vote that an instance has counted was sent by the node it is counted for.
    */
module Authenticity {
  import opened Types
  import opened Safety
  import opened Rosters
  import opened Ledgers
  import opened LedgerRuns
  import opened HeightVotes
  import opened Kbft
  import KbftRuns
  import P = Protocol

  // ---------- counted votes were sent ----------

  /** Every vote the set has counted was sent by the node that sits at its index. */
  ghost predicate Heard(r: Roster, l: Ledger, ballots: set<P.Ballot>, kind: MsgType, view: nat) {
    forall i: nat, h :: Ledgers.Counted(l, i, h) && i < Total(r) ==> P.Ballot(At(r, i).id, kind, view, h) in ballots
  }

  /** Signatures cannot be forged: whoever holds a key in a signature has sent the ballot that was signed. */
  ghost predicate UnforgedSig(r: Roster, ballots: set<P.Ballot>, sig: Signature) {
    forall i: nat :: i < Total(r) && At(r, i).key in sig.keys ==>
      P.Ballot(At(r, i).id, sig.msg.kind, sig.msg.view, sig.msg.hash) in ballots
  }

  ghost predicate Unforged(r: Roster, ballots: set<P.Ballot>, v: Vote) {
    UnforgedSig(r, ballots, v.sig)
  }

  /** A certificate reaches the vote set of its own view and kind; a vote is refused by any other. */
  predicate Routed(s: Setup, e: Event) {
    e.QcIn? ==> e.vote.view == s.view && e.vote.kind == s.kind
  }

  lemma VerifiedHeard(s: Setup, l: Ledger, ballots: set<P.Ballot>, v: Vote, index: nat, isQc: bool)
    requires ValidSetup(s) && Sized(s, l) && index < Total(s.roster) && Heard(s.roster, l, ballots, s.kind, s.view)
    requires P.Ballot(At(s.roster, index).id, s.kind, s.view, v.hash) in ballots
    ensures Heard(s.roster, AddVerified(s, l, v, index, isQc).ledger, ballots, s.kind, s.view)
  {
    var r := AddVerified(s, l, v, index, isQc).ledger;
    if l.votes[index].None? {
      CountCounts(s, l, v, index, isQc);
    } else {
      assert forall i: nat, h :: Ledgers.Counted(r, i, h) <==> Ledgers.Counted(l, i, h);
    }
  }

  lemma {:induction false} EachHeard(s: Setup, l: Ledger, ballots: set<P.Ballot>, v: Vote, indices: seq<nat>)
    requires ValidSetup(s) && Sized(s, l) && Below(indices, Total(s.roster))
    requires Heard(s.roster, l, ballots, s.kind, s.view)
    requires forall k :: 0 <= k < |indices| ==> P.Ballot(At(s.roster, indices[k]).id, s.kind, s.view, v.hash) in ballots
    ensures Heard(s.roster, AddEach(s, l, v, indices), ballots, s.kind, s.view)
    decreases |indices|
  {
    if indices != [] {
      var n := |indices| - 1;
      EachHeard(s, l, ballots, v, indices[..n]);
      VerifiedHeard(s, AddEach(s, l, v, indices[..n]), ballots, v, indices[n], true);
    }
  }

  lemma SignersSent(s: Setup, ballots: set<P.Ballot>, v: Vote, indices: seq<nat>)
    requires Below(indices, Total(s.roster)) && Unforged(s.roster, ballots, v) && v.view == s.view && v.kind == s.kind
    requires v.sig == Signature(Canon(v), multiset(KeysAt(s.roster, indices)))
    ensures forall k :: 0 <= k < |indices| ==> P.Ballot(At(s.roster, indices[k]).id, s.kind, s.view, v.hash) in ballots
  {
    forall k | 0 <= k < |indices|
      ensures P.Ballot(At(s.roster, indices[k]).id, s.kind, s.view, v.hash) in ballots
    {
      assert KeysAt(s.roster, indices)[k] in multiset(KeysAt(s.roster, indices));
    }
  }

  lemma CertificateHeard(s: Setup, l: Ledger, ballots: set<P.Ballot>, v: Vote)
    requires ValidSetup(s) && Sized(s, l) && Heard(s.roster, l, ballots, s.kind, s.view)
    requires Unforged(s.roster, ballots, v) && v.view == s.view && v.kind == s.kind
    ensures Heard(s.roster, AddQc(s, l, v).0, ballots, s.kind, s.view)
  {
    var signed := TrueIndices(v.signers);
    if AddQc(s, l, v).1 == Ok(true) {
      SignersSent(s, ballots, v, signed);
      EachHeard(s, l, ballots, v, signed);
    }
  }

  lemma VoteHeard(s: Setup, l: Ledger, ballots: set<P.Ballot>, v: Vote, responded: seq<bool>)
    requires ValidSetup(s) && Sized(s, l) && |responded| == Total(s.roster)
    requires Heard(s.roster, l, ballots, s.kind, s.view) && Unforged(s.roster, ballots, v)
    ensures Heard(s.roster, AddVote(s, responded, l, v).0, ballots, s.kind, s.view)
  {
    if AddVote(s, responded, l, v).0 != l {
      assert At(s.roster, v.signerIndex).key in v.sig.keys;
      VerifiedHeard(s, l, ballots, v, v.signerIndex, false);
    }
  }

  /** The signature checks keep it so: what an unforged vote or certificate adds to a vote set was sent. */
  lemma ReceiveHeard(s: Setup, l: Ledger, ballots: set<P.Ballot>, e: Event)
    requires ValidSetup(s) && Sized(s, l) && Fitting(s, e) && Routed(s, e)
    requires Heard(s.roster, l, ballots, s.kind, s.view) && Unforged(s.roster, ballots, e.vote)
    ensures Heard(s.roster, Receive(s, l, e), ballots, s.kind, s.view)
  {
    match e
    case VoteIn(v, responded) => VoteHeard(s, l, ballots, v, responded);
    case QcIn(v) => CertificateHeard(s, l, ballots, v);
  }

  ghost predicate Delivered(s: Setup, ballots: set<P.Ballot>, es: seq<Event>) {
    forall i :: 0 <= i < |es| ==> Fitting(s, es[i]) && Routed(s, es[i]) && Unforged(s.roster, ballots, es[i].vote)
  }

  /** After any unforged votes and certificates, every counted vote was sent. */
  lemma {:induction false} AllHeard(s: Setup, ballots: set<P.Ballot>, es: seq<Event>)
    requires ValidSetup(s) && Delivered(s, ballots, es)
    ensures Heard(s.roster, ReceiveAll(s, Empty(s), es), ballots, s.kind, s.view)
    decreases |es|
  {
    if es != [] {
      var n := |es| - 1;
      AllHeard(s, ballots, es[..n]);
      ReceiveHeard(s, ReceiveAll(s, Empty(s), es[..n]), ballots, es[n]);
    }
  }

  // ---------- the votes of a height were sent ----------

  ghost function KnownTo(c: HeightSetup, ballots: set<P.Ballot>): (nat, MsgType, Ledger) -> bool {
    (view: nat, kind: MsgType, l: Ledger) => Heard(c.roster, l, ballots, kind, view)
  }

  /** Every vote of every view and kind was sent. */
  ghost predicate AllKnown(c: HeightSetup, h: Hvs, ballots: set<P.Ballot>) {
    All(h, KnownTo(c, ballots))
  }

  lemma NewViewKnown(c: HeightSetup, view: nat, ballots: set<P.Ballot>)
    ensures KnownTo(c, ballots)(view, Prevote, NewViewVotes(c).prevotes)
    ensures KnownTo(c, ballots)(view, Precommit, NewViewVotes(c).precommits)
  {
    assert Heard(c.roster, NewViewVotes(c).prevotes, ballots, Prevote, view);
    assert Heard(c.roster, NewViewVotes(c).precommits, ballots, Precommit, view);
  }

  lemma HeardGrows(r: Roster, l: Ledger, some: set<P.Ballot>, all: set<P.Ballot>, kind: MsgType, view: nat)
    requires Heard(r, l, some, kind, view) && some <= all
    ensures Heard(r, l, all, kind, view)
  {
  }

  lemma KnownGrows(c: HeightSetup, h: Hvs, some: set<P.Ballot>, all: set<P.Ballot>)
    requires AllKnown(c, h, some) && some <= all
    ensures AllKnown(c, h, all)
  {
    forall view | view in h.views
      ensures KnownTo(c, all)(view, Prevote, h.views[view].prevotes)
      ensures KnownTo(c, all)(view, Precommit, h.views[view].precommits)
    {
      assert KnownTo(c, some)(view, Prevote, h.views[view].prevotes);
      HeardGrows(c.roster, h.views[view].prevotes, some, all, Prevote, view);
      HeardGrows(c.roster, h.views[view].precommits, some, all, Precommit, view);
    }
  }

  lemma AddToOpenKnown(c: HeightSetup, h: Hvs, ballots: set<P.Ballot>, e: Event)
    requires Shaped(c, h) && AllKnown(c, h, ballots) && FittingHere(c, e) && Unforged(c.roster, ballots, e.vote)
    requires GetVoteSet(h, e.vote.view, e.vote.kind).Some?
    ensures AllKnown(c, AddToOpen(c, h, e).hvs, ballots)
  {
    var v := e.vote;
    var s := SetupFor(c, v.view, v.kind);
    var l := GetVoteSet(h, v.view, v.kind).value;
    SetOk(h, v.view, v.kind, KnownTo(c, ballots));
    SetOk(h, v.view, v.kind, OfSize(c));
    ReceiveHeard(s, l, ballots, e);
    assert Add(s, l, e).0 == Receive(s, l, e);
    PutKeeps(h, v.view, v.kind, Add(s, l, e).0, KnownTo(c, ballots));
  }

  /** An unforged message keeps the counted votes of every view and kind sent ones. */
  lemma AddAtKnown(c: HeightSetup, h: Hvs, ballots: set<P.Ballot>, e: Event, peer: KramaID)
    requires Shaped(c, h) && AllKnown(c, h, ballots) && FittingHere(c, e) && Unforged(c.roster, ballots, e.vote)
    requires AddAt(c, h, e, peer).Done?
    ensures AllKnown(c, AddAt(c, h, e, peer).hvs, ballots)
  {
    var v := e.vote;
    if GetVoteSet(h, v.view, v.kind).Some? {
      AddToOpenKnown(c, h, ballots, e);
    } else if v.view !in h.views && v.kind != OtherMsg {
      OpenedShaped(c, h, e, peer);
      NewViewKnown(c, v.view, ballots);
      OpenKeeps(c, h, e, peer, KnownTo(c, ballots));
      AddToOpenKnown(c, Opened(c, h, e, peer), ballots, e);
    }
  }

  // ---------- the votes of an instance were sent ----------

  ghost predicate UnforgedMessage(c: Cfg, ballots: set<P.Ballot>, msg: Message) {
    msg.VoteMsg? ==> Unforged(c.height.roster, ballots, msg.v)
  }

  lemma HandleKnown(c: Cfg, m: Machine, ballots: set<P.Ballot>, msg: Message, peer: KramaID, responded: seq<bool>)
    requires Shaped(c.height, m.votes) && |responded| == Total(c.height.roster)
    requires AllKnown(c.height, m.votes, ballots) && UnforgedMessage(c, ballots, msg)
    ensures AllKnown(c.height, Handle(c, m, msg, peer, responded).votes, ballots)
  {
    if msg.VoteMsg? {
      var e := KbftRuns.EventOf(msg.v, responded);
      var o := AddAt(c.height, m.votes, e, peer);
      if o.Done? {
        AddAtKnown(c.height, m.votes, ballots, e, peer);
        KbftRuns.ReactVotes(c, m.(votes := o.hvs), msg.v);
      }
    }
  }

  lemma SetViewKnown(c: HeightSetup, h: Hvs, ballots: set<P.Ballot>, next: nat)
    requires AllKnown(c, h, ballots) && h.view < TWO_64
    ensures SetViewTo(c, h, next).Some? ==> AllKnown(c, SetViewTo(c, h, next).value, ballots)
  {
    forall w: nat
      ensures KnownTo(c, ballots)(w, Prevote, NewViewVotes(c).prevotes)
      ensures KnownTo(c, ballots)(w, Precommit, NewViewVotes(c).precommits)
    {
      NewViewKnown(c, w, ballots);
    }
    assert All(Hvs(0, h.views, map[]), KnownTo(c, ballots));
    WithViewsKeeps(c, h.views, NextRound(h), next + 1, KnownTo(c, ballots));
  }

  /** The message an input brings: a peer's, or the next one of the instance's own. */
  function Brings(m: Machine, i: Input): Option<Message> {
    match i
    case Timeout => None
    case FromPeer(msg, _, _) => Some(msg)
    case FromSelf(_) => if m.queue == [] then None else Some(m.queue[0])
  }

  /** One step keeps the votes of an instance sent ones. */
  lemma StepKnown(c: Cfg, m: Machine, ballots: set<P.Ballot>, i: Input)
    requires ValidCfg(c) && Shaped(c.height, m.votes) && m.votes.view < TWO_64 && FittingInput(c, i)
    requires AllKnown(c.height, m.votes, ballots)
    requires Brings(m, i).Some? ==> UnforgedMessage(c, ballots, Brings(m, i).value)
    ensures AllKnown(c.height, Step(c, m, i).votes, ballots)
  {
    if !m.halted {
      match i
      case Timeout =>
        KbftRuns.TimeoutVotes(c, m);
        SetViewKnown(c.height, m.votes, ballots, c.view + 1);
      case FromPeer(msg, peer, responded) =>
        HandleKnown(c, m, ballots, msg, peer, responded);
      case FromSelf(responded) =>
        if m.queue != [] {
          HandleKnown(c, m.(queue := m.queue[1..]), ballots, m.queue[0], c.self, responded);
        }
    }
  }

  lemma InitKnown(c: Cfg, db: Db, ballots: set<P.Ballot>)
    ensures AllKnown(c.height, Init(c, db).votes, ballots)
  {
    NewViewKnown(c.height, 0, ballots);
  }

  // ---------- an instance's own votes ----------

  /** A message an instance has queued for itself: logged, and a vote only as its own signed vote. */
  ghost predicate Pending(c: Cfg, log: seq<Effect>, msg: Message) {
    Queued(msg) in log && (msg.VoteMsg? ==> msg.v == OwnVote(c, msg.v.view, msg.v.kind, msg.v.hash))
  }

  ghost predicate Waiting(c: Cfg, m: Machine) {
    forall msg :: msg in m.queue ==> Pending(c, m.log, msg)
  }

  lemma PostWaits(c: Cfg, m: Machine, internal: bool, msg: Message)
    requires Waiting(c, m) && (internal && msg.VoteMsg? ==> msg.v == OwnVote(c, msg.v.view, msg.v.kind, msg.v.hash))
    ensures Waiting(c, Post(m, internal, msg))
  {
    var m' := Post(m, internal, msg);
    forall q | q in m'.queue
      ensures Pending(c, m'.log, q)
    {
      if q in m.queue {
        assert Pending(c, m.log, q);
      } else {
        assert m'.log[|m.log|] == Queued(q);
      }
    }
  }

  lemma VoteWaits(c: Cfg, m: Machine, kind: MsgType, hash: Hash)
    requires Waiting(c, m)
    ensures Waiting(c, SendVote(c, m, kind, hash))
  {
    if CanVote(c) {
      PostWaits(c, m, Leads(c), VoteMsg(OwnVote(c, m.view, kind, hash)));
    }
  }

  lemma QcWaits(c: Cfg, m: Machine, kind: MsgType, hash: Hash)
    requires Waiting(c, m)
    ensures Waiting(c, SendQc(c, m, kind, hash))
  {
  }

  lemma SaveWaits(c: Cfg, m: Machine, t: Tesseract, qc: Qc)
    requires Waiting(c, m)
    ensures Waiting(c, Save(m, t, qc))
  {
  }

  lemma PrevoteWaits(c: Cfg, m: Machine, view: nat)
    requires Waiting(c, m)
    ensures Waiting(c, EnterPrevote(c, m, view))
  {
    VoteWaits(c, m, Prevote, if m.proposal.None? then NilHash else HashOf(m.proposal.value.t));
  }

  lemma ProposalWaits(c: Cfg, m: Machine, p: Proposal)
    requires Waiting(c, m)
    ensures Waiting(c, SetProposal(c, m, p))
  {
    var taken := m.(proposal := Some(p));
    PostWaits(c, taken, false, ProposalMsg(p));
    PrevoteWaits(c, if Leads(c) then Post(taken, false, ProposalMsg(p)) else taken, m.view);
  }

  lemma TimeoutWaits(c: Cfg, m: Machine)
    requires Waiting(c, m) && m.votes.view < TWO_64
    ensures Waiting(c, HandleTimeout(c, m))
  {
    var m' := m.(view := c.view, step := NEW_VIEW, proposal := if c.view != 0 then None else m.proposal);
    var o := SetViewTo(c.height, m.votes, c.view + 1);
    if o.Some? {
      ProposeWaits(c, m'.(votes := o.value), c.view);
    }
  }

  lemma ProposeWaits(c: Cfg, m: Machine, view: nat)
    requires Waiting(c, m)
    ensures Waiting(c, EnterPropose(c, m, view))
  {
    PostWaits(c, m, true, ProposalMsg(c.proposal));
    var told := if Leads(c) then Post(m, true, ProposalMsg(c.proposal)) else m;
    PrevoteWaits(c, told.(view := view, step := PROPOSE), view);
  }

  lemma PreCommitWaits(c: Cfg, m: Machine, view: nat)
    requires Waiting(c, m)
    ensures Waiting(c, EnterPreCommit(c, m, view))
  {
    var majority := MajorityOf(m.votes, view, Prevote);
    if majority.Some? {
      var hash := majority.value;
      QcWaits(c, m, Prevote, hash);
      var told := if Leads(c) then SendQc(c, m, Prevote, hash) else m;
      var o := GetQC(m.votes, hash, m.view, Prevote);
      if m.proposal.Some? && o.Got? {
        SaveWaits(c, told, m.proposal.value.t, o.qc);
        VoteWaits(c, Save(told, m.proposal.value.t, o.qc), Precommit, hash);
      }
    }
  }

  lemma FinalizeWaits(c: Cfg, m: Machine)
    requires Waiting(c, m)
    ensures Waiting(c, FinalizeCommit(m))
  {
  }

  lemma CommitWaits(c: Cfg, m: Machine, view: nat)
    requires Waiting(c, m)
    ensures Waiting(c, EnterCommit(c, m, view))
  {
    var majority := MajorityOf(m.votes, view, Precommit);
    if majority.Some? {
      var o := GetQC(m.votes, majority.value, m.view, Precommit);
      if o.Got? && m.proposal.Some? {
        SaveWaits(c, m, m.proposal.value.t, o.qc);
        QcWaits(c, Save(m, m.proposal.value.t, o.qc), Precommit, majority.value);
      }
    }
    FinalizeWaits(c, Committing(c, m, view).(step := COMMIT, commitView := view));
  }

  lemma HandleWaits(c: Cfg, m: Machine, msg: Message, peer: KramaID, responded: seq<bool>)
    requires Shaped(c.height, m.votes) && |responded| == Total(c.height.roster) && Waiting(c, m)
    ensures Waiting(c, Handle(c, m, msg, peer, responded))
  {
    match msg
    case ProposalMsg(p) => ProposalWaits(c, m, p);
    case VoteMsg(v) =>
      var o := AddAt(c.height, m.votes, KbftRuns.EventOf(v, responded), peer);
      if o.Done? {
        PreCommitWaits(c, m.(votes := o.hvs), v.view);
        CommitWaits(c, m.(votes := o.hvs), v.view);
      }
  }

  /** Whatever an instance has queued for itself it has logged before. */
  lemma StepWaits(c: Cfg, m: Machine, i: Input)
    requires Shaped(c.height, m.votes) && m.votes.view < TWO_64 && FittingInput(c, i) && Waiting(c, m)
    ensures Waiting(c, Step(c, m, i))
  {
    if !m.halted {
      match i
      case Timeout => TimeoutWaits(c, m);
      case FromPeer(msg, peer, responded) => HandleWaits(c, m, msg, peer, responded);
      case FromSelf(responded) =>
        if m.queue != [] {
          HandleWaits(c, m.(queue := m.queue[1..]), m.queue[0], c.self, responded);
        }
    }
  }
}
