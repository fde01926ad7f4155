/** One KBFT instance: the step machine that turns proposals and votes into locks, votes and a finalized tesseract. */
module Kbft {
  import opened Types
  import opened Safety
  import opened Rosters
  import opened Ledgers
  import opened LedgerRuns
  import opened HeightVotes

  const NEW_HEIGHT: nat := 1
  const NEW_VIEW: nat := 2
  const PROPOSE: nat := 3
  const PREVOTE: nat := 4
  const PRECOMMIT: nat := 5
  const COMMIT: nat := 6

  /** A proposal: the view of its prepare certificate, and the tesseract. */
  datatype Proposal = Proposal(view: nat, t: Tesseract)

  datatype Message = ProposalMsg(p: Proposal) | VoteMsg(v: Vote)

  /** What an instance does besides changing its own fields, in the order it does it. */
  datatype Effect =
    | Queued(msg: Message)
    | Sent(msg: Message)
    | Persisted(t: Tesseract, qc: Qc)
    | Finalized(t: Tesseract, qc: Qc)

  /** What the cluster fixes for an instance; `index` and `responded` are what the committee says about itself. */
  datatype Cfg = Cfg(
    height: HeightSetup,
    view: nat,
    self: KramaID,
    operator: KramaID,
    index: int,
    responded: bool,
    key: Key,
    proposal: Proposal)

  predicate ValidCfg(c: Cfg) {
    ValidHeight(c.height) && c.view + 2 < TWO_64
  }

  datatype Machine = Machine(
    view: nat,
    step: nat,
    proposal: Option<Proposal>,
    votes: Hvs,
    commitView: nat,
    queue: seq<Message>,
    log: seq<Effect>,
    db: Db,
    halted: bool)

  function Init(c: Cfg, db: Db): Machine {
    Machine(c.view, NEW_HEIGHT, None, NewHvs(c.height), 0, [], [], db, false)
  }

  predicate Leads(c: Cfg) {
    c.operator == c.self
  }

  // ---------- effects ----------

  function Halt(m: Machine): Machine {
    m.(halted := true)
  }

  function Post(m: Machine, internal: bool, msg: Message): Machine {
    if internal then m.(queue := m.queue + [msg], log := m.log + [Queued(msg)])
    else m.(log := m.log + [Sent(msg)])
  }

  function OwnVote(c: Cfg, view: nat, kind: MsgType, hash: Hash): Vote {
    Vote(kind, false, view, c.index, c.height.heights, hash, [],
      Signature(CanonicalVote(kind, view, hash), multiset{c.key}))
  }

  predicate CanVote(c: Cfg) {
    c.responded && c.index >= 0
  }

  function SendVote(c: Cfg, m: Machine, kind: MsgType, hash: Hash): Machine {
    if !CanVote(c) then m else Post(m, Leads(c), VoteMsg(OwnVote(c, m.view, kind, hash)))
  }

  function SigOf(l: Ledger, msg: CanonicalVote): Signature {
    if l.majority.Some? then l.majority.value.sig else Signature(msg, multiset{})
  }

  /** The leader's certificate names everybody whose vote it holds. */
  function SendQc(c: Cfg, m: Machine, kind: MsgType, hash: Hash): Machine {
    var l := GetVoteSet(m.votes, m.view, kind);
    if l.None? then Halt(m)
    else
      var sig := SigOf(l.value, CanonicalVote(kind, m.view, hash));
      Post(m, false, VoteMsg(Vote(kind, true, m.view, 0, c.height.heights, hash, Bits(l.value.votes), sig)))
  }

  function Save(m: Machine, t: Tesseract, qc: Qc): Machine {
    m.(db := Persist(m.db, t, qc), log := m.log + [Persisted(t, qc)])
  }

  // ---------- the steps ----------

  function EnterPrevote(c: Cfg, m: Machine, view: nat): Machine {
    if m.view > view || (m.view == view && m.step >= PREVOTE) then m
    else
      var hash := if m.proposal.None? then NilHash else HashOf(m.proposal.value.t);
      SendVote(c, m, Prevote, hash).(view := view, step := PREVOTE)
  }

  function EnterPropose(c: Cfg, m: Machine, view: nat): Machine {
    if m.view > view || (m.view == view && m.step >= PROPOSE) then m
    else
      var told := if Leads(c) then Post(m, true, ProposalMsg(c.proposal)) else m;
      var m' := told.(view := view, step := PROPOSE);
      if m'.proposal.Some? then EnterPrevote(c, m', m'.view) else m'
  }

  function EnterNewView(c: Cfg, m: Machine, view: nat): Machine
    requires m.votes.view < TWO_64
  {
    if view < m.view || (m.view == view && m.step != NEW_HEIGHT) then m
    else
      var m' := m.(view := view, step := NEW_VIEW, proposal := if view != 0 then None else m.proposal);
      match SetViewTo(c.height, m.votes, view + 1)
      case None => Halt(m')
      case Some(h) => EnterPropose(c, m'.(votes := h), view)
  }

  /** The only timeout an instance schedules is the one that starts its own view. */
  function HandleTimeout(c: Cfg, m: Machine): Machine
    requires m.votes.view < TWO_64
  {
    if m.view > c.view || (c.view == m.view && NEW_HEIGHT < m.step) then m
    else EnterNewView(c, m, c.view)
  }

  function SetProposal(c: Cfg, m: Machine, p: Proposal): Machine {
    if m.proposal.Some? || p.t.heights != c.height.heights || p.view != m.view then m
    else
      var taken := m.(proposal := Some(p));
      var told := if Leads(c) then Post(taken, false, ProposalMsg(p)) else taken;
      if told.step <= PROPOSE then EnterPrevote(c, told, told.view) else told
  }

  /** Lock the proposal and vote to commit it, when the prevotes agree on it. */
  function Precommitting(c: Cfg, m: Machine, view: nat): Machine {
    match MajorityOf(m.votes, view, Prevote)
    case None => m
    case Some(hash) =>
      var told := if Leads(c) then SendQc(c, m, Prevote, hash) else m;
      if told.halted || m.proposal.None? then Halt(told)
      else if HashOf(m.proposal.value.t) != hash then told
      else
        match GetQC(m.votes, hash, m.view, Prevote)
        case QcPanic => Halt(told)
        case Missing(_) => told
        case Got(qc) => SendVote(c, Save(told, m.proposal.value.t, qc), Precommit, hash)
  }

  function EnterPreCommit(c: Cfg, m: Machine, view: nat): Machine {
    if m.view > view || (m.view == view && m.step >= PRECOMMIT) then m
    else Precommitting(c, m, view).(view := view, step := PRECOMMIT)
  }

  function Committing(c: Cfg, m: Machine, view: nat): Machine {
    match MajorityOf(m.votes, view, Precommit)
    case None => Halt(m)
    case Some(hash) =>
      match GetQC(m.votes, hash, m.view, Precommit)
      case QcPanic => Halt(m)
      case Missing(_) => m
      case Got(qc) =>
        if m.proposal.None? then Halt(m)
        else
          var saved := Save(m, m.proposal.value.t, qc);
          if Leads(c) then SendQc(c, saved, Precommit, hash) else saved
  }

  function FinalizeCommit(m: Machine): Machine {
    var majority := MajorityOf(m.votes, m.commitView, Precommit);
    if majority.None? || majority.value == NilHash then m
    else if m.proposal.None? || HashOf(m.proposal.value.t) != majority.value then m
    else if m.step != COMMIT then m
    else
      var t := m.proposal.value.t;
      match GetVoteSet(m.votes, m.view, Precommit)
      case None => Halt(m)
      case Some(l) =>
        var qc :=
          Qc(Precommit, m.view, HashOf(t), Bits(l.votes), SigOf(l, CanonicalVote(Precommit, m.view, HashOf(t))));
        m.(db := Finalize(m.db, t, qc), log := m.log + [Finalized(t, qc)])
  }

  /** The deferred part runs even when the first part panics. */
  function EnterCommit(c: Cfg, m: Machine, view: nat): Machine {
    if m.step >= COMMIT then m
    else FinalizeCommit(Committing(c, m, view).(step := COMMIT, commitView := view))
  }

  /** What a vote that was added can set off. */
  function React(c: Cfg, m: Machine, v: Vote): Machine {
    var majority := MajorityOf(m.votes, v.view, v.kind);
    match v.kind
    case Prevote =>
      if m.view == v.view && m.step >= PREVOTE && majority.Some? && (m.proposal.Some? || majority.value != NilHash)
      then EnterPreCommit(c, m, v.view) else m
    case Precommit =>
      if majority.Some? && majority.value != NilHash then EnterCommit(c, m, v.view) else m
    case OtherMsg => m
  }

  function TakeVote(c: Cfg, m: Machine, v: Vote, peer: KramaID, responded: seq<bool>): Machine
    requires Shaped(c.height, m.votes) && |responded| == Total(c.height.roster)
  {
    if v.heights != c.height.heights || (v.isQC && c.operator != peer) then m
    else
      match AddAt(c.height, m.votes, if v.isQC then QcIn(v) else VoteIn(v, responded), peer)
      case Panic => Halt(m)
      case Done(h, result) =>
        var m' := m.(votes := h);
        if result == Ok(true) then React(c, m', v) else m'
  }

  // ---------- runs ----------

  /** The timeout fires, a peer's message arrives, or the instance takes up its own next message. */
  datatype Input =
    | Timeout
    | FromPeer(msg: Message, peer: KramaID, responded: seq<bool>)
    | FromSelf(responded: seq<bool>)

  predicate FittingInput(c: Cfg, i: Input) {
    !i.Timeout? ==> |i.responded| == Total(c.height.roster)
  }

  function Handle(c: Cfg, m: Machine, msg: Message, peer: KramaID, responded: seq<bool>): Machine
    requires Shaped(c.height, m.votes) && |responded| == Total(c.height.roster)
  {
    match msg
    case ProposalMsg(p) => SetProposal(c, m, p)
    case VoteMsg(v) => TakeVote(c, m, v, peer, responded)
  }

  function Step(c: Cfg, m: Machine, i: Input): Machine
    requires Shaped(c.height, m.votes) && m.votes.view < TWO_64 && FittingInput(c, i)
  {
    if m.halted then m
    else
      match i
      case Timeout => HandleTimeout(c, m)
      case FromPeer(msg, peer, responded) => Handle(c, m, msg, peer, responded)
      case FromSelf(responded) =>
        if m.queue == [] then m
        else Handle(c, m.(queue := m.queue[1..]), m.queue[0], c.self, responded)
  }
}
