/** What an instance does on each input, effect by effect, in any state that a run can reach. */
module Reactions {
  import opened Types
  import opened Safety
  import opened Rosters
  import opened Ledgers
  import opened LedgerRuns
  import opened HeightVotes
  import opened Kbft
  import KbftRuns

  // ---------- the effects ----------

  /** The own vote, signed with the own key: queued by the operator, sent by the others, and withheld by a node that has
      not responded or has no index. */
  function OwnBallot(c: Cfg, kind: MsgType, hash: Hash): seq<Message> {
    if c.responded && c.index >= 0 then
      [VoteMsg(Vote(kind, false, c.view, c.index, c.height.heights, hash, [],
                    Signature(CanonicalVote(kind, c.view, hash), multiset{c.key})))]
    else []
  }

  function AsQueued(msgs: seq<Message>): (r: seq<Effect>)
    ensures |r| == |msgs|
  {
    seq(|msgs|, i requires 0 <= i < |msgs| => Queued(msgs[i]))
  }

  function AsSent(msgs: seq<Message>): (r: seq<Effect>)
    ensures |r| == |msgs|
  {
    seq(|msgs|, i requires 0 <= i < |msgs| => Sent(msgs[i]))
  }

  function OwnEffect(c: Cfg, kind: MsgType, hash: Hash): seq<Effect> {
    if c.operator == c.self then AsQueued(OwnBallot(c, kind, hash)) else AsSent(OwnBallot(c, kind, hash))
  }

  /** The operator's certificate: the majority's hash and signature, and everybody whose vote is on record. */
  function OperatorQc(c: Cfg, kind: MsgType, l: Ledger): seq<Effect>
    requires l.majority.Some?
  {
    if c.operator != c.self then []
    else
      var m := l.majority.value;
      [Sent(VoteMsg(Vote(kind, true, c.view, 0, c.height.heights, m.hash, Bits(l.votes), m.sig)))]
  }

  /** The certificate of a majority, as it is persisted. */
  function StoredQc(c: Cfg, kind: MsgType, m: Majority): Qc {
    Qc(kind, c.view, m.hash, m.bits, m.sig)
  }

  // ---------- the start of the view ----------

  /** The timeout starts the own view once: the operator queues its proposal, nothing is opened or dropped. */
  lemma TimeoutReacts(c: Cfg, db: Db, m: Machine)
    requires ValidCfg(c) && KbftRuns.Inv(c, db, m) && !m.halted
    ensures var own := if c.operator == c.self then [ProposalMsg(c.proposal)] else [];
            HandleTimeout(c, m) ==
            if m.step != NEW_HEIGHT then m
            else m.(step := PROPOSE, votes := m.votes.(view := c.view + 1),
                    queue := m.queue + own, log := m.log + AsQueued(own))
  {
    if m.step == NEW_HEIGHT {
      KbftRuns.FirstSetView(c.height, m.votes, c.view + 1);
    }
  }

  /** A proposal is taken exactly when there is none yet and it is for the own heights and view. The operator passes it
      on, and it is prevoted at once unless the instance has committed already. */
  lemma ProposalReacts(c: Cfg, db: Db, m: Machine, p: Proposal)
    requires KbftRuns.Inv(c, db, m) && !m.halted
    ensures var m' := SetProposal(c, m, p);
            if m.proposal.Some? || p.t.heights != c.height.heights || p.view != c.view then m' == m
            else
              var told := if c.operator == c.self then [Sent(ProposalMsg(p))] else [];
              var votes := m.step <= PROPOSE;
              && m'.proposal == Some(p) && m'.step == (if votes then PREVOTE else m.step)
              && m'.log == m.log + told + (if votes then OwnEffect(c, Prevote, HashOf(p.t)) else [])
              && m'.queue == m.queue +
                   (if votes && c.operator == c.self then OwnBallot(c, Prevote, HashOf(p.t)) else [])
              && m' == m.(proposal := m'.proposal, step := m'.step, log := m'.log, queue := m'.queue)
  {
    if m.proposal.None? && p.t.heights == c.height.heights && p.view == c.view {
      var told := if c.operator == c.self then [Sent(ProposalMsg(p))] else [];
      assert m.log + told + [] == m.log + told;
      assert m.queue + [] == m.queue;
      BallotIs(c, Prevote, HashOf(p.t));
    }
  }

  lemma BallotIs(c: Cfg, kind: MsgType, hash: Hash)
    ensures CanVote(c) ==> OwnBallot(c, kind, hash) == [VoteMsg(OwnVote(c, c.view, kind, hash))]
    ensures var msg := VoteMsg(OwnVote(c, c.view, kind, hash));
            CanVote(c) ==> OwnEffect(c, kind, hash) == [if Leads(c) then Queued(msg) else Sent(msg)]
    ensures !CanVote(c) ==> OwnBallot(c, kind, hash) == [] && OwnEffect(c, kind, hash) == []
  {
  }

  // ---------- majorities ----------

  /** A prevote majority for the proposal is persisted, as it is stored, before the own precommit; one for anything else
      only ends the step. The operator sends the certificate in either case. */
  lemma PrevoteMajorityReacts(c: Cfg, db: Db, m: Machine)
    requires KbftRuns.Inv(c, db, m) && !m.halted && m.step == PREVOTE && MajorityAt(m.votes, c.view, Prevote).Some?
    ensures var m' := EnterPreCommit(c, m, c.view);
            var t, l := m.proposal.value.t, GetVoteSet(m.votes, c.view, Prevote).value;
            var major := l.majority.value;
            var agreed := major.hash == HashOf(t);
            var qc := StoredQc(c, Prevote, major);
            && m'.step == PRECOMMIT
            && m'.log == m.log + OperatorQc(c, Prevote, l)
                         + (if agreed then [Persisted(t, qc)] + OwnEffect(c, Precommit, HashOf(t)) else [])
            && m'.db == (if agreed then Persist(m.db, t, qc) else m.db)
            && m' == m.(step := m'.step, log := m'.log, db := m'.db, queue := m'.queue)
  {
    var t, l := m.proposal.value.t, GetVoteSet(m.votes, c.view, Prevote).value;
    var major := l.majority.value;
    CertificateIffMajority(m.votes, major.hash, c.view, Prevote);
    BallotIs(c, Precommit, HashOf(t));
    var told := if Leads(c) then SendQc(c, m, Prevote, major.hash) else m;
    assert told.log == m.log + OperatorQc(c, Prevote, l);
    assert told.log + [] == told.log;
    if major.hash == HashOf(t) {
      var qc := StoredQc(c, Prevote, major);
      assert GetQC(m.votes, major.hash, m.view, Prevote) == Got(qc);
      PersistAndVote(c, told, t, qc);
    }
  }

  lemma PersistAndVote(c: Cfg, m: Machine, t: Tesseract, qc: Qc)
    requires m.view == c.view && qc.hash == HashOf(t)
    ensures var m' := SendVote(c, Save(m, t, qc), Precommit, qc.hash);
            && m'.log == m.log + ([Persisted(t, qc)] + OwnEffect(c, Precommit, HashOf(t)))
            && m'.db == Persist(m.db, t, qc)
            && m' == m.(log := m'.log, db := m'.db, queue := m'.queue)
  {
    BallotIs(c, Precommit, HashOf(t));
    var own := OwnEffect(c, Precommit, HashOf(t));
    assert m.log + [Persisted(t, qc)] + own == m.log + ([Persisted(t, qc)] + own);
    assert m.log + [Persisted(t, qc)] + [] == m.log + [Persisted(t, qc)];
  }

  /** The certificate a finalized tesseract gets: the own view's precommit voters, and the majority's signature. */
  function CommitQc(c: Cfg, t: Tesseract, l: Ledger): Qc {
    Qc(Precommit, c.view, HashOf(t), Bits(l.votes),
       if l.majority.Some? then l.majority.value.sig
       else Signature(CanonicalVote(Precommit, c.view, HashOf(t)), multiset{}))
  }

  /** A precommit majority of the own view: its certificate is persisted for the proposal, the operator sends it, and
      the proposal is finalized exactly when the majority is for it. */
  lemma CommitReacts(c: Cfg, db: Db, m: Machine)
    requires KbftRuns.Ready(c, db, m, c.view) && m.proposal.Some?
    ensures var m' := EnterCommit(c, m, c.view);
            var t, l := m.proposal.value.t, GetVoteSet(m.votes, c.view, Precommit).value;
            var qc := StoredQc(c, Precommit, l.majority.value);
            && !m'.halted && m'.step == COMMIT && m'.commitView == c.view
            && m'.log == m.log + [Persisted(t, qc)] + OperatorQc(c, Precommit, l)
                         + (if l.majority.value.hash == HashOf(t) then [Finalized(t, CommitQc(c, t, l))] else [])
            && m'.db == (if l.majority.value.hash == HashOf(t) then Finalize(Persist(m.db, t, qc), t, CommitQc(c, t, l))
                         else Persist(m.db, t, qc))
  {
    var t, l := m.proposal.value.t, GetVoteSet(m.votes, c.view, Precommit).value;
    var major := l.majority.value;
    CertificateIffMajority(m.votes, major.hash, c.view, Precommit);
    var qc := StoredQc(c, Precommit, major);
    var half := Committing(c, m, c.view);
    assert half.log == m.log + [Persisted(t, qc)] + OperatorQc(c, Precommit, l);
    assert half.log + [] == half.log;
  }

  /** A precommit majority of another view: nothing is persisted or sent, and the proposal is finalized exactly when the
      majority is for it and the own view has a vote set. */
  lemma OffViewCommitReacts(c: Cfg, db: Db, m: Machine, view: nat)
    requires KbftRuns.Ready(c, db, m, view) && view != c.view
    ensures var m' := EnterCommit(c, m, view);
            var own := GetVoteSet(m.votes, c.view, Precommit);
            var agreed := m.proposal.Some? && MajorityOf(m.votes, view, Precommit) == Some(HashOf(m.proposal.value.t));
            && m'.step == COMMIT && m'.commitView == view
            && m'.log == m.log +
                 (if agreed && own.Some?
                  then [Finalized(m.proposal.value.t, CommitQc(c, m.proposal.value.t, own.value))] else [])
  {
    var hash := MajorityOf(m.votes, view, Precommit).value;
    CertificateIffMajority(m.votes, hash, c.view, Precommit);
    assert m.log + [] == m.log;
  }

  // ---------- votes ----------

  /** A vote for other heights, or a certificate that is not the operator's, is ignored. One that is not added changes
      the vote sets at most. One that is added makes the instance lock when it completes, or adds to, a prevote majority
      of the own view after the prevote, commit when there is a majority of its view for some tesseract and the instance
      has not committed, and do nothing else. */
  lemma VoteReacts(c: Cfg, db: Db, m: Machine, v: Vote, peer: KramaID, responded: seq<bool>)
    requires KbftRuns.Inv(c, db, m) && !m.halted && Shaped(c.height, m.votes) && |responded| == Total(c.height.roster)
    ensures var m' := TakeVote(c, m, v, peer, responded);
            if v.heights != c.height.heights || (v.isQC && peer != c.operator) then m' == m
            else
              match AddAt(c.height, m.votes, if v.isQC then QcIn(v) else VoteIn(v, responded), peer)
              case Panic => m' == m.(halted := true)
              case Done(h, result) =>
                var majority := MajorityOf(h, v.view, v.kind);
                if result == Ok(true) && v.kind == Prevote && v.view == c.view && m.step == PREVOTE && majority.Some?
                then m' == EnterPreCommit(c, m.(votes := h), c.view)
                else if result == Ok(true) && v.kind == Precommit && m.step < COMMIT && majority.Some? &&
                        majority.value.HashOf?
                then m' == EnterCommit(c, m.(votes := h), v.view)
                else m' == m.(votes := h)
  {
    AddAtExtends(c.height, m.votes, KbftRuns.EventOf(v, responded), peer);
  }

  // ---------- the instance's own messages ----------

  /** The messages an instance has queued for itself, in order. */
  function QueuedIn(log: seq<Effect>): seq<Message> {
    if log == [] then []
    else
      var n := |log| - 1;
      QueuedIn(log[..n]) + if log[n].Queued? then [log[n].msg] else []
  }

  /** What waits is the end of what was queued. */
  ghost predicate Fifo(m: Machine) {
    EndOf(m.queue, QueuedIn(m.log))
  }

  ghost predicate EndOf(queue: seq<Message>, all: seq<Message>) {
    |queue| <= |all| && queue == all[|all| - |queue|..]
  }

  lemma EndGrows(queue: seq<Message>, all: seq<Message>, msg: Message)
    requires EndOf(queue, all)
    ensures EndOf(queue + [msg], all + [msg])
  {
  }

  lemma {:induction false} QueuedAppend(log: seq<Effect>, e: Effect)
    ensures QueuedIn(log + [e]) == QueuedIn(log) + if e.Queued? then [e.msg] else []
  {
    assert (log + [e])[..|log|] == log;
  }

  /** Kept by everything an instance logs, queued or not. */
  ghost predicate Grows(ok: (seq<Message>, seq<Effect>) -> bool) {
    && (forall queue, log, e: Effect :: ok(queue, log) && !e.Queued? ==> ok(queue, log + [e]))
    && (forall queue, log, msg :: ok(queue, log) ==> ok(queue + [msg], log + [Queued(msg)]))
  }

  ghost predicate Holds(m: Machine, ok: (seq<Message>, seq<Effect>) -> bool) {
    ok(m.queue, m.log)
  }

  lemma VoteHolds(c: Cfg, m: Machine, kind: MsgType, hash: Hash, ok: (seq<Message>, seq<Effect>) -> bool)
    requires Grows(ok) && Holds(m, ok)
    ensures Holds(SendVote(c, m, kind, hash), ok)
  {
  }

  lemma QcHolds(c: Cfg, m: Machine, kind: MsgType, hash: Hash, ok: (seq<Message>, seq<Effect>) -> bool)
    requires Grows(ok) && Holds(m, ok)
    ensures Holds(SendQc(c, m, kind, hash), ok)
  {
  }

  lemma PrevoteHolds(c: Cfg, m: Machine, view: nat, ok: (seq<Message>, seq<Effect>) -> bool)
    requires Grows(ok) && Holds(m, ok)
    ensures Holds(EnterPrevote(c, m, view), ok)
  {
    VoteHolds(c, m, Prevote, if m.proposal.None? then NilHash else HashOf(m.proposal.value.t), ok);
  }

  lemma ProposalHolds(c: Cfg, m: Machine, p: Proposal, ok: (seq<Message>, seq<Effect>) -> bool)
    requires Grows(ok) && Holds(m, ok)
    ensures Holds(SetProposal(c, m, p), ok)
  {
    var taken := m.(proposal := Some(p));
    PrevoteHolds(c, if Leads(c) then Post(taken, false, ProposalMsg(p)) else taken, m.view, ok);
  }

  lemma ProposeHolds(c: Cfg, m: Machine, view: nat, ok: (seq<Message>, seq<Effect>) -> bool)
    requires Grows(ok) && Holds(m, ok)
    ensures Holds(EnterPropose(c, m, view), ok)
  {
    var told := if Leads(c) then Post(m, true, ProposalMsg(c.proposal)) else m;
    PrevoteHolds(c, told.(view := view, step := PROPOSE), view, ok);
  }

  lemma TimeoutHolds(c: Cfg, m: Machine, ok: (seq<Message>, seq<Effect>) -> bool)
    requires Grows(ok) && Holds(m, ok) && m.votes.view < TWO_64
    ensures Holds(HandleTimeout(c, m), ok)
  {
    var m' := m.(view := c.view, step := NEW_VIEW, proposal := if c.view != 0 then None else m.proposal);
    var o := SetViewTo(c.height, m.votes, c.view + 1);
    if o.Some? {
      ProposeHolds(c, m'.(votes := o.value), c.view, ok);
    }
  }

  lemma PreCommitHolds(c: Cfg, m: Machine, view: nat, ok: (seq<Message>, seq<Effect>) -> bool)
    requires Grows(ok) && Holds(m, ok)
    ensures Holds(EnterPreCommit(c, m, view), ok)
  {
    var majority := MajorityOf(m.votes, view, Prevote);
    if majority.Some? {
      var hash := majority.value;
      QcHolds(c, m, Prevote, hash, ok);
      var told := if Leads(c) then SendQc(c, m, Prevote, hash) else m;
      var o := GetQC(m.votes, hash, m.view, Prevote);
      if m.proposal.Some? && o.Got? {
        VoteHolds(c, Save(told, m.proposal.value.t, o.qc), Precommit, hash, ok);
      }
    }
  }

  lemma CommitHolds(c: Cfg, m: Machine, view: nat, ok: (seq<Message>, seq<Effect>) -> bool)
    requires Grows(ok) && Holds(m, ok)
    ensures Holds(EnterCommit(c, m, view), ok)
  {
    var majority := MajorityOf(m.votes, view, Precommit);
    if majority.Some? {
      var o := GetQC(m.votes, majority.value, m.view, Precommit);
      if o.Got? && m.proposal.Some? {
        QcHolds(c, Save(m, m.proposal.value.t, o.qc), Precommit, majority.value, ok);
      }
    }
  }

  lemma HandleHolds(c: Cfg, m: Machine, msg: Message, peer: KramaID, responded: seq<bool>,
                    ok: (seq<Message>, seq<Effect>) -> bool)
    requires Shaped(c.height, m.votes) && |responded| == Total(c.height.roster) && Grows(ok) && Holds(m, ok)
    ensures Holds(Handle(c, m, msg, peer, responded), ok)
  {
    match msg
    case ProposalMsg(p) => ProposalHolds(c, m, p, ok);
    case VoteMsg(v) =>
      var o := AddAt(c.height, m.votes, KbftRuns.EventOf(v, responded), peer);
      if o.Done? {
        PreCommitHolds(c, m.(votes := o.hvs), v.view, ok);
        CommitHolds(c, m.(votes := o.hvs), v.view, ok);
      }
  }

  /** A step takes the first message from the queue or none, and then only logs, and queues what it logs as queued. */
  lemma StepHolds(c: Cfg, m: Machine, i: Input, ok: (seq<Message>, seq<Effect>) -> bool)
    requires Shaped(c.height, m.votes) && m.votes.view < TWO_64 && FittingInput(c, i) && Grows(ok)
    requires Holds(m, ok) && (m.queue != [] ==> ok(m.queue[1..], m.log))
    ensures Holds(Step(c, m, i), ok)
  {
    if !m.halted {
      match i
      case Timeout => TimeoutHolds(c, m, ok);
      case FromPeer(msg, peer, responded) => HandleHolds(c, m, msg, peer, responded, ok);
      case FromSelf(responded) =>
        if m.queue != [] {
          HandleHolds(c, m.(queue := m.queue[1..]), m.queue[0], c.self, responded, ok);
        }
    }
  }

  lemma FifoGrows()
    ensures Grows((queue, log) => EndOf(queue, QueuedIn(log)))
  {
    forall queue, log, e: Effect | EndOf(queue, QueuedIn(log)) && !e.Queued?
      ensures EndOf(queue, QueuedIn(log + [e]))
    {
      QueuedAppend(log, e);
      assert QueuedIn(log) + [] == QueuedIn(log);
    }
    forall queue, log, msg | EndOf(queue, QueuedIn(log))
      ensures EndOf(queue + [msg], QueuedIn(log + [Queued(msg)]))
    {
      QueuedAppend(log, Queued(msg));
      EndGrows(queue, QueuedIn(log), msg);
    }
  }

  lemma StepFifo(c: Cfg, m: Machine, i: Input)
    requires Shaped(c.height, m.votes) && m.votes.view < TWO_64 && FittingInput(c, i) && Fifo(m)
    ensures Fifo(Step(c, m, i))
  {
    FifoGrows();
    if m.queue != [] {
      assert EndOf(m.queue[1..], QueuedIn(m.log));
    }
    StepHolds(c, m, i, (queue, log) => EndOf(queue, QueuedIn(log)));
  }

  /** Over every run an instance takes up its own messages in the order it queued them. */
  lemma {:induction false} RunFifo(c: Cfg, db: Db, inputs: seq<Input>)
    requires KbftRuns.FittingAll(c, inputs)
    ensures Fifo(KbftRuns.Run(c, db, inputs))
    decreases |inputs|
  {
    if inputs != [] {
      var n := |inputs| - 1;
      RunFifo(c, db, inputs[..n]);
      StepFifo(c, KbftRuns.Run(c, db, inputs[..n]), inputs[n]);
    }
  }
}
