/** What holds of a KBFT instance after any sequence of timeouts and messages. */
module KbftRuns {
  import opened Types
  import opened Safety
  import opened Rosters
  import opened Ledgers
  import opened LedgerRuns
  import opened HeightVotes
  import opened Kbft

  // ---------- reading the log ----------

  /** The instance's own vote, when the effect sends one. */
  function Ballot(e: Effect): Option<Vote> {
    match e
    case Queued(VoteMsg(v)) => if v.isQC then None else Some(v)
    case Sent(VoteMsg(v)) => if v.isQC then None else Some(v)
    case _ => None
  }

  predicate Casts(e: Effect, kind: MsgType) {
    Ballot(e).Some? && Ballot(e).value.kind == kind
  }

  function Cast(log: seq<Effect>, kind: MsgType): nat {
    if log == [] then 0 else Cast(log[..|log| - 1], kind) + if Casts(log[|log| - 1], kind) then 1 else 0
  }

  function Finals(log: seq<Effect>): nat {
    if log == [] then 0 else Finals(log[..|log| - 1]) + if log[|log| - 1].Finalized? then 1 else 0
  }

  function Written(db: Db, e: Effect): Db {
    if e.Persisted? then Persist(db, e.t, e.qc) else if e.Finalized? then Finalize(db, e.t, e.qc) else db
  }

  /** The store that the logged writes lead to. */
  function Replay(db: Db, log: seq<Effect>): Db {
    if log == [] then db else Written(Replay(db, log[..|log| - 1]), log[|log| - 1])
  }

  lemma {:induction false} Appended(db: Db, log: seq<Effect>, e: Effect)
    ensures forall kind :: Cast(log + [e], kind) == Cast(log, kind) + if Casts(e, kind) then 1 else 0
    ensures Finals(log + [e]) == Finals(log) + if e.Finalized? then 1 else 0
    ensures Replay(db, log + [e]) == Written(Replay(db, log), e)
  {
    assert (log + [e])[..|log|] == log;
  }

  // ---------- the invariant ----------

  /** Where an instance is, what it has accepted by then, and which majorities it has seen. */
  ghost predicate Phase(c: Cfg, m: Machine) {
    && m.view == c.view && NEW_HEIGHT <= m.step <= COMMIT
    && m.votes.view < TWO_64 && (m.step == NEW_HEIGHT ==> m.votes.view == 0)
    && (m.proposal.Some? ==>
          m.step >= PREVOTE && m.proposal.value.view == c.view && m.proposal.value.t.heights == c.height.heights)
    && (PREVOTE <= m.step <= PRECOMMIT ==> m.proposal.Some?)
    && (m.step == COMMIT && m.commitView == c.view && !m.halted ==> m.proposal.Some?)
  }

  predicate IsNil(h: Option<Hash>) {
    h.None? || h.value == NilHash
  }

  /** An instance that has not committed has seen no precommit majority of its view; one that has saw one somewhere. */
  ghost predicate Tracked(c: Cfg, m: Machine) {
    && (m.step < COMMIT ==> IsNil(MajorityOf(m.votes, c.view, Precommit)))
    && (m.step >= COMMIT ==> !IsNil(MajorityOf(m.votes, m.commitView, Precommit)))
  }

  predicate LockFor(e: Effect, t: Tesseract, view: nat) {
    e.Persisted? && e.t == t && e.qc.kind == Prevote && e.qc.view == view && e.qc.hash == HashOf(t)
  }

  /** What an entry of the log says about the instance's only proposal, and what came before it. */
  ghost predicate EntryOk(c: Cfg, p: Option<Proposal>, log: seq<Effect>, i: nat)
    requires i < |log|
  {
    var ballot := Ballot(log[i]);
    && (ballot.Some? ==>
          && p.Some? && CanVote(c) && ballot.value.kind != OtherMsg
          && ballot.value.view == c.view && ballot.value.hash == HashOf(p.value.t))
    && (Casts(log[i], Precommit) ==>
          i > 0 && LockFor(log[i - 1], p.value.t, c.view) && Cast(log[..i], Prevote) == 1)
    && (log[i].Persisted? || log[i].Finalized? ==>
          && p.Some? && log[i].t == p.value.t && log[i].qc.view == c.view
          && (CanVote(c) ==> Cast(log[..i], Prevote) == 1))
    && (log[i].Persisted? && log[i].qc.kind == Prevote ==> log[i].qc.hash == HashOf(p.value.t))
    && (log[i].Finalized? ==> log[i].qc.kind == Precommit && log[i].qc.hash == HashOf(p.value.t))
  }

  ghost predicate LogOk(c: Cfg, p: Option<Proposal>, log: seq<Effect>) {
    forall i :: 0 <= i < |log| ==> EntryOk(c, p, log, i)
  }

  /** How often the instance has voted and finalized by the time it is at a step. */
  ghost predicate Once(c: Cfg, m: Machine) {
    && (CanVote(c) && (PREVOTE <= m.step <= PRECOMMIT || (m.step == COMMIT && m.commitView == c.view && !m.halted)) ==>
          Cast(m.log, Prevote) == 1)
    && Cast(m.log, Prevote) <= (if m.step >= PREVOTE then 1 else 0)
    && Cast(m.log, Precommit) <= (if m.step >= PRECOMMIT then 1 else 0)
    && Finals(m.log) <= (if m.step >= COMMIT then 1 else 0)
  }

  /** A finalized tesseract is the proposal, certified in the commit view; off its own view only past a nil majority. */
  ghost predicate FinalOk(c: Cfg, m: Machine) {
    Finals(m.log) > 0 ==>
      && m.step == COMMIT && m.proposal.Some?
      && MajorityOf(m.votes, m.commitView, Precommit) == Some(HashOf(m.proposal.value.t))
      && (m.commitView == c.view || m.halted || MajorityOf(m.votes, c.view, Precommit) == Some(NilHash))
  }

  ghost predicate Inv(c: Cfg, db: Db, m: Machine) {
    && Phase(c, m)
    && Tracked(c, m)
    && LogOk(c, m.proposal, m.log)
    && Once(c, m)
    && FinalOk(c, m)
    && m.db == Replay(db, m.log)
  }

  /** What no step takes back. */
  ghost predicate Progress(m: Machine, m': Machine) {
    && m'.view == m.view && m'.step >= m.step
    && (m.proposal.Some? ==> m'.proposal == m.proposal)
    && m.log <= m'.log
    && (m.halted ==> m'.halted)
    && (m.step == COMMIT ==> m'.commitView == m.commitView)
  }

  // ---------- appending to the log ----------

  lemma LogGrows(c: Cfg, p: Option<Proposal>, log: seq<Effect>, e: Effect)
    requires LogOk(c, p, log) && EntryOk(c, p, log + [e], |log|)
    ensures LogOk(c, p, log + [e])
  {
    var after := log + [e];
    forall i | 0 <= i < |after|
      ensures EntryOk(c, p, after, i)
    {
      if i < |log| {
        assert EntryOk(c, p, log, i);
        assert after[..i] == log[..i];
      }
    }
  }

  /** A message other than an own vote changes nothing that is counted. */
  lemma {:induction false} PlainEffect(c: Cfg, db: Db, p: Option<Proposal>, log: seq<Effect>, e: Effect)
    requires LogOk(c, p, log) && Ballot(e).None? && (e.Queued? || e.Sent?)
    ensures LogOk(c, p, log + [e])
    ensures forall kind :: Cast(log + [e], kind) == Cast(log, kind)
    ensures Finals(log + [e]) == Finals(log) && Replay(db, log + [e]) == Replay(db, log)
  {
    LogGrows(c, p, log, e);
    Appended(db, log, e);
  }

  lemma NoProposalNoVotes(c: Cfg, log: seq<Effect>, p: Option<Proposal>)
    requires LogOk(c, None, log)
    ensures LogOk(c, p, log)
  {
    forall i | 0 <= i < |log|
      ensures EntryOk(c, p, log, i)
    {
      assert EntryOk(c, None, log, i);
    }
  }

  // ---------- the steps keep the invariant ----------

  /** The log in figures: what is in it, what it leads to, and how many votes and finalizations it holds. */
  ghost predicate Sheet(c: Cfg, db: Db, m: Machine, prevotes: nat, precommits: nat, finals: nat) {
    && LogOk(c, m.proposal, m.log) && m.db == Replay(db, m.log)
    && Cast(m.log, Prevote) == prevotes && Cast(m.log, Precommit) == precommits && Finals(m.log) == finals
  }

  ghost predicate Acceptable(c: Cfg, p: Proposal) {
    p.view == c.view && p.t.heights == c.height.heights
  }

  /** The first prevote in the log. */
  lemma {:induction false} PrevoteEntry(c: Cfg, db: Db, p: Proposal, log: seq<Effect>, e: Effect)
    requires LogOk(c, Some(p), log) && CanVote(c) && Ballot(e) == Some(OwnVote(c, c.view, Prevote, HashOf(p.t)))
    ensures LogOk(c, Some(p), log + [e])
    ensures Cast(log + [e], Prevote) == Cast(log, Prevote) + 1 && Cast(log + [e], Precommit) == Cast(log, Precommit)
    ensures Finals(log + [e]) == Finals(log) && Replay(db, log + [e]) == Replay(db, log)
  {
    LogGrows(c, Some(p), log, e);
    Appended(db, log, e);
  }

  lemma SentPrevote(c: Cfg, m: Machine, hash: Hash) returns (e: Effect)
    requires m.view == c.view && CanVote(c)
    ensures Ballot(e) == Some(OwnVote(c, c.view, Prevote, hash))
    ensures var m' := SendVote(c, m, Prevote, hash);
            m'.log == m.log + [e] && m'.db == m.db && m'.proposal == m.proposal
  {
    var msg := VoteMsg(OwnVote(c, c.view, Prevote, hash));
    e := if Leads(c) then Queued(msg) else Sent(msg);
  }

  lemma PrevoteSheet(c: Cfg, db: Db, m: Machine)
    requires m.view == c.view && m.proposal.Some? && Sheet(c, db, m, 0, 0, 0)
    ensures var m' := SendVote(c, m, Prevote, HashOf(m.proposal.value.t));
            Sheet(c, db, m', if CanVote(c) then 1 else 0, 0, 0) && m.log <= m'.log
  {
    if CanVote(c) {
      var e := SentPrevote(c, m, HashOf(m.proposal.value.t));
      PrevoteEntry(c, db, m.proposal.value, m.log, e);
    }
  }

  lemma PrevoteKeeps(c: Cfg, db: Db, m: Machine)
    requires m.view == c.view && PROPOSE >= m.step && m.proposal.Some? && Acceptable(c, m.proposal.value)
    requires Sheet(c, db, m, 0, 0, 0) && m.votes.view < TWO_64 && Tracked(c, m)
    ensures Inv(c, db, EnterPrevote(c, m, m.view)) && m.log <= EnterPrevote(c, m, m.view).log
  {
    PrevoteSheet(c, db, m);
  }

  lemma AcceptKeeps(c: Cfg, db: Db, m: Machine, p: Proposal)
    requires Inv(c, db, m) && !m.halted && m.proposal.None? && Acceptable(c, p)
    ensures var taken := m.(proposal := Some(p));
            var told := if Leads(c) then Post(taken, false, ProposalMsg(p)) else taken;
            Sheet(c, db, told, 0, 0, 0) && m.log <= told.log
  {
    NoProposalNoVotes(c, m.log, Some(p));
    NothingYet(c, m.log);
    PlainEffect(c, db, Some(p), m.log, Sent(ProposalMsg(p)));
  }

  lemma {:induction false} NothingYet(c: Cfg, log: seq<Effect>)
    requires LogOk(c, None, log)
    ensures Cast(log, Prevote) == Cast(log, Precommit) == Finals(log) == 0
    decreases |log|
  {
    if log != [] {
      var n := |log| - 1;
      assert EntryOk(c, None, log, n);
      forall i | 0 <= i < n
        ensures EntryOk(c, None, log[..n], i)
      {
        assert EntryOk(c, None, log, i);
        assert log[..n][..i] == log[..i];
      }
      NothingYet(c, log[..n]);
    }
  }

  lemma ProposalKeeps(c: Cfg, db: Db, m: Machine, p: Proposal)
    requires Inv(c, db, m) && !m.halted
    ensures Inv(c, db, SetProposal(c, m, p)) && Progress(m, SetProposal(c, m, p))
  {
    if m.proposal.None? && p.t.heights == c.height.heights && p.view == m.view {
      AcceptKeeps(c, db, m, p);
      var taken := m.(proposal := Some(p));
      var told := if Leads(c) then Post(taken, false, ProposalMsg(p)) else taken;
      if told.step <= PROPOSE {
        PrevoteKeeps(c, db, told);
      }
    }
  }

  lemma FirstSetView(c: HeightSetup, h: Hvs, next: nat)
    requires h.view == 0 && next + 1 < TWO_64
    ensures SetViewTo(c, h, next) == Some(h.(view := next))
  {
  }

  lemma TimeoutKeeps(c: Cfg, db: Db, m: Machine)
    requires ValidCfg(c) && Inv(c, db, m) && !m.halted
    ensures Inv(c, db, HandleTimeout(c, m)) && Progress(m, HandleTimeout(c, m))
  {
    if m.step == NEW_HEIGHT {
      FirstSetView(c.height, m.votes, c.view + 1);
      PlainEffect(c, db, None, m.log, Queued(ProposalMsg(c.proposal)));
    }
  }

  /** Persisting the certificate and then voting adds one lock and at most one precommit to the log. */
  lemma {:induction false} LockKeeps(c: Cfg, db: Db, m: Machine, log: seq<Effect>, t: Tesseract, qc: Qc)
    requires m.proposal.Some? && t == m.proposal.value.t && LockFor(Persisted(t, qc), t, c.view)
    requires LogOk(c, m.proposal, log) && (CanVote(c) ==> Cast(log, Prevote) == 1)
    ensures var saved := log + [Persisted(t, qc)];
            && LogOk(c, m.proposal, saved)
            && (forall kind :: Cast(saved, kind) == Cast(log, kind)) && Finals(saved) == Finals(log)
            && Replay(db, saved) == Persist(Replay(db, log), t, qc)
            && forall e :: Ballot(e) == Some(OwnVote(c, c.view, Precommit, HashOf(t))) && CanVote(c) ==>
                 && LogOk(c, m.proposal, saved + [e])
                 && Cast(saved + [e], Prevote) == Cast(log, Prevote) &&
                      Cast(saved + [e], Precommit) == Cast(log, Precommit) + 1
                 && Finals(saved + [e]) == Finals(log) && Replay(db, saved + [e]) == Persist(Replay(db, log), t, qc)
  {
    var saved := log + [Persisted(t, qc)];
    assert saved[..|log|] == log;
    LogGrows(c, m.proposal, log, Persisted(t, qc));
    Appended(db, log, Persisted(t, qc));
    forall e | Ballot(e) == Some(OwnVote(c, c.view, Precommit, HashOf(t))) && CanVote(c)
      ensures LogOk(c, m.proposal, saved + [e])
      ensures Cast(saved + [e], Prevote) == Cast(log, Prevote) &&
              Cast(saved + [e], Precommit) == Cast(log, Precommit) + 1
      ensures Finals(saved + [e]) == Finals(log) && Replay(db, saved + [e]) == Persist(Replay(db, log), t, qc)
    {
      assert (saved + [e])[..|saved|] == saved;
      LogGrows(c, m.proposal, saved, e);
      Appended(db, saved, e);
    }
  }

  ghost predicate SameFields(m: Machine, m': Machine) {
    m' == m.(queue := m'.queue, log := m'.log, db := m'.db) && m.log <= m'.log
  }

  lemma SendQcKeeps(c: Cfg, db: Db, m: Machine, kind: MsgType, hash: Hash, prevotes: nat, precommits: nat)
    requires Sheet(c, db, m, prevotes, precommits, 0) && GetVoteSet(m.votes, m.view, kind).Some?
    ensures var m' := SendQc(c, m, kind, hash);
            SameFields(m, m') && Sheet(c, db, m', prevotes, precommits, 0)
  {
    var m' := SendQc(c, m, kind, hash);
    PlainEffect(c, db, m.proposal, m.log, m'.log[|m.log|]);
  }

  lemma SaveAndVoteKeeps(c: Cfg, db: Db, m: Machine, qc: Qc, prevotes: nat)
    requires m.view == c.view && m.proposal.Some? &&
             LockFor(Persisted(m.proposal.value.t, qc), m.proposal.value.t, c.view)
    requires Sheet(c, db, m, prevotes, 0, 0) && (CanVote(c) ==> prevotes == 1)
    ensures var m' := SendVote(c, Save(m, m.proposal.value.t, qc), Precommit, qc.hash);
            && SameFields(m, m')
            && Sheet(c, db, m', prevotes, if CanVote(c) then 1 else 0, 0)
  {
    var t := m.proposal.value.t;
    LockKeeps(c, db, m, m.log, t, qc);
    var m' := SendVote(c, Save(m, t, qc), Precommit, qc.hash);
    if CanVote(c) {
      var saved := m.log + [Persisted(t, qc)];
      assert m'.log == saved + [m'.log[|saved|]];
    }
  }

  lemma PrecommittingKeeps(c: Cfg, db: Db, m: Machine, prevotes: nat)
    requires m.view == c.view && m.proposal.Some? && !m.halted
    requires Sheet(c, db, m, prevotes, 0, 0) && (CanVote(c) ==> prevotes == 1)
    ensures var m' := Precommitting(c, m, c.view);
            SameFields(m, m') && exists n: nat :: n <= 1 && Sheet(c, db, m', prevotes, n, 0)
  {
    var majority := MajorityOf(m.votes, m.view, Prevote);
    if majority.None? {
      assert Sheet(c, db, m, prevotes, 0, 0);
    } else {
      var hash := majority.value;
      var told := if Leads(c) then SendQc(c, m, Prevote, hash) else m;
      SendQcKeeps(c, db, m, Prevote, hash, prevotes, 0);
      CertificateIffMajority(m.votes, hash, m.view, Prevote);
      if HashOf(m.proposal.value.t) == hash {
        SaveAndVoteKeeps(c, db, told, GetQC(m.votes, hash, m.view, Prevote).qc, prevotes);
      }
    }
  }

  lemma PreCommitKeeps(c: Cfg, db: Db, m: Machine)
    requires Inv(c, db, m) && !m.halted && m.step == PREVOTE
    ensures Inv(c, db, EnterPreCommit(c, m, m.view)) && Progress(m, EnterPreCommit(c, m, m.view))
    ensures !EnterPreCommit(c, m, m.view).halted
  {
    PrecommittingKeeps(c, db, m, Cast(m.log, Prevote));
  }

  ghost predicate SameButHalt(m: Machine, m': Machine) {
    m' == m.(queue := m'.queue, log := m'.log, db := m'.db, halted := m'.halted) && m.log <= m'.log
  }

  /** A vote set of a view without a majority in it is what makes the certificate lookup of a commit panic. */
  predicate Undecided(h: Hvs, view: nat) {
    view in h.views && MajorityOf(h, view, Precommit).None?
  }

  predicate SameMajority(h: Hvs, v: nat, w: nat) {
    MajorityOf(h, v, Precommit) == MajorityOf(h, w, Precommit)
  }

  lemma SaveKeeps(c: Cfg, db: Db, m: Machine, qc: Qc, prevotes: nat, precommits: nat)
    requires m.proposal.Some? && qc.view == c.view && qc.kind == Precommit && Sheet(c, db, m, prevotes, precommits, 0)
    requires CanVote(c) ==> prevotes == 1
    ensures Sheet(c, db, Save(m, m.proposal.value.t, qc), prevotes, precommits, 0)
  {
    assert (m.log + [Persisted(m.proposal.value.t, qc)])[..|m.log|] == m.log;
    LogGrows(c, m.proposal, m.log, Persisted(m.proposal.value.t, qc));
    Appended(db, m.log, Persisted(m.proposal.value.t, qc));
  }

  lemma CommittingKeeps(c: Cfg, db: Db, m: Machine, view: nat, prevotes: nat, precommits: nat)
    requires m.view == c.view && !m.halted && MajorityOf(m.votes, view, Precommit).Some?
    requires Sheet(c, db, m, prevotes, precommits, 0) && (CanVote(c) && m.proposal.Some? ==> prevotes == 1)
    ensures var m' := Committing(c, m, view);
            && SameButHalt(m, m') && Sheet(c, db, m', prevotes, precommits, 0)
            && (m'.halted <==> Undecided(m.votes, c.view) || (m.proposal.None? && SameMajority(m.votes, c.view, view)))
  {
    var hash := MajorityOf(m.votes, view, Precommit).value;
    CertificateIffMajority(m.votes, hash, m.view, Precommit);
    var o := GetQC(m.votes, hash, m.view, Precommit);
    if o.Got? && m.proposal.Some? {
      SaveKeeps(c, db, m, o.qc, prevotes, precommits);
      var saved := Save(m, m.proposal.value.t, o.qc);
      SendQcKeeps(c, db, saved, Precommit, hash, prevotes, precommits);
    }
  }

  /** The majority of the commit view is for the instance's own proposal. */
  predicate Agreed(m: Machine) {
    m.proposal.Some? && MajorityOf(m.votes, m.commitView, Precommit) == Some(HashOf(m.proposal.value.t))
  }

  lemma FinalizeKeeps(c: Cfg, db: Db, m: Machine, prevotes: nat, precommits: nat)
    requires m.view == c.view && m.step == COMMIT && Sheet(c, db, m, prevotes, precommits, 0)
    requires CanVote(c) && m.proposal.Some? ==> prevotes == 1
    ensures var m' := FinalizeCommit(m);
            && SameButHalt(m, m')
            && (m'.halted <==> m.halted || (Agreed(m) && c.view !in m.votes.views))
            && Sheet(c, db, m', prevotes, precommits, if Agreed(m) && c.view in m.votes.views then 1 else 0)
  {
    if Agreed(m) && c.view in m.votes.views {
      var l, t := GetVoteSet(m.votes, m.view, Precommit).value, m.proposal.value.t;
      var qc := Qc(Precommit, m.view, HashOf(t), Bits(l.votes), SigOf(l, CanonicalVote(Precommit, m.view, HashOf(t))));
      assert FinalizeCommit(m) == m.(db := Finalize(m.db, t, qc), log := m.log + [Finalized(t, qc)]);
      FinalEntry(c, db, m.proposal.value, m.log, qc);
    } else {
      NotFinalized(c, m);
    }
  }

  lemma NotFinalized(c: Cfg, m: Machine)
    requires m.view == c.view && m.step == COMMIT && !(Agreed(m) && c.view in m.votes.views)
    ensures FinalizeCommit(m) == if Agreed(m) then Halt(m) else m
  {
  }

  /** The finalization in the log. */
  lemma {:induction false} FinalEntry(c: Cfg, db: Db, p: Proposal, log: seq<Effect>, qc: Qc)
    requires LogOk(c, Some(p), log) && qc.view == c.view && qc.kind == Precommit && qc.hash == HashOf(p.t)
    requires CanVote(c) ==> Cast(log, Prevote) == 1
    ensures var after := log + [Finalized(p.t, qc)];
            && LogOk(c, Some(p), after) && Finals(after) == Finals(log) + 1
            && Cast(after, Prevote) == Cast(log, Prevote) && Cast(after, Precommit) == Cast(log, Precommit)
            && Replay(db, after) == Finalize(Replay(db, log), p.t, qc)
  {
    var e := Finalized(p.t, qc);
    assert (log + [e])[..|log|] == log;
    LogGrows(c, Some(p), log, e);
    Appended(db, log, e);
  }

  /** A commit panics exactly when the instance's own view has votes but no precommit majority, or has no votes
      although the majority is for its proposal, or has this very majority while there is no proposal. */
  ghost predicate CommitPanics(c: Cfg, m: Machine, view: nat) {
    var hash := MajorityOf(m.votes, view, Precommit);
    || Undecided(m.votes, c.view)
    || (m.proposal.None? && SameMajority(m.votes, c.view, view))
    || (m.proposal.Some? && c.view !in m.votes.views && hash == Some(HashOf(m.proposal.value.t)))
  }

  /** What is known of an instance on the way to a commit. */
  ghost predicate Ready(c: Cfg, db: Db, m: Machine, view: nat) {
    && Phase(c, m) && LogOk(c, m.proposal, m.log) && Once(c, m) && m.db == Replay(db, m.log)
    && !m.halted && m.step < COMMIT
    && !IsNil(MajorityOf(m.votes, view, Precommit))
    && (view != c.view ==> IsNil(MajorityOf(m.votes, c.view, Precommit)))
  }

  lemma CommitKeeps(c: Cfg, db: Db, m: Machine, view: nat)
    requires Ready(c, db, m, view)
    ensures Inv(c, db, EnterCommit(c, m, view)) && Progress(m, EnterCommit(c, m, view))
    ensures EnterCommit(c, m, view).halted <==> CommitPanics(c, m, view)
  {
    var np, nc := Cast(m.log, Prevote), Cast(m.log, Precommit);
    CommittingKeeps(c, db, m, view, np, nc);
    var half := Committing(c, m, view).(step := COMMIT, commitView := view);
    FinalizeKeeps(c, db, half, np, nc);
  }

  /** More votes keep the invariant as long as no precommit majority forms unnoticed. */
  lemma VotesKeep(c: Cfg, db: Db, m: Machine, h: Hvs, view: nat, kind: MsgType)
    requires Inv(c, db, m) && Extended(m.votes, h, view, kind)
    requires m.step < COMMIT ==> IsNil(MajorityOf(h, c.view, Precommit))
    ensures Inv(c, db, m.(votes := h))
  {
    assert m.step >= COMMIT ==> MajorityOf(h, m.commitView, Precommit) == MajorityOf(m.votes, m.commitView, Precommit);
    assert !IsNil(MajorityOf(m.votes, c.view, Precommit)) || MajorityOf(m.votes, c.view, Precommit) == Some(NilHash) ==>
        MajorityOf(h, c.view, Precommit) == MajorityOf(m.votes, c.view, Precommit);
  }

  function EventOf(v: Vote, responded: seq<bool>): Event {
    if v.isQC then QcIn(v) else VoteIn(v, responded)
  }

  lemma PrevoteReactKeeps(c: Cfg, db: Db, m: Machine, v: Vote)
    requires Inv(c, db, m) && !m.halted && v.kind == Prevote
    ensures Inv(c, db, React(c, m, v)) && Progress(m, React(c, m, v)) && !React(c, m, v).halted
  {
    if m.step == PREVOTE && m.view == v.view {
      PreCommitKeeps(c, db, m);
    }
  }

  /** A vote that was added completes a precommit majority that the instance has not acted on. */
  ghost predicate Completes(m: Machine, v: Vote) {
    v.kind == Precommit && m.step < COMMIT && !IsNil(MajorityOf(m.votes, v.view, Precommit))
  }

  lemma ReactKeeps(c: Cfg, db: Db, m: Machine, h: Hvs, v: Vote)
    requires Inv(c, db, m) && !m.halted && Extended(m.votes, h, v.view, v.kind)
    ensures var m' := React(c, m.(votes := h), v); Inv(c, db, m') && Progress(m, m')
    ensures React(c, m.(votes := h), v).halted <==>
            Completes(m.(votes := h), v) && CommitPanics(c, m.(votes := h), v.view)
  {
    if Completes(m.(votes := h), v) {
      CommitKeeps(c, db, m.(votes := h), v.view);
    } else {
      VotesKeep(c, db, m, h, v.view, v.kind);
      if v.kind == Prevote {
        PrevoteReactKeeps(c, db, m.(votes := h), v);
      }
    }
  }

  lemma TakeVoteKeeps(c: Cfg, db: Db, m: Machine, v: Vote, peer: KramaID, responded: seq<bool>)
    requires Inv(c, db, m) && !m.halted && Shaped(c.height, m.votes) && |responded| == Total(c.height.roster)
    ensures var m' := TakeVote(c, m, v, peer, responded); Inv(c, db, m') && Progress(m, m')
  {
    if !(v.heights != c.height.heights || (v.isQC && c.operator != peer)) {
      AddAtExtends(c.height, m.votes, EventOf(v, responded), peer);
      var o := AddAt(c.height, m.votes, EventOf(v, responded), peer);
      if o.Done? {
        if o.result == Ok(true) {
          ReactKeeps(c, db, m, o.hvs, v);
        } else {
          VotesKeep(c, db, m, o.hvs, v.view, v.kind);
        }
      }
    }
  }

  // ---------- the votes of a run ----------

  /** A step leaves the votes alone, moves them to the next view, or adds one vote or certificate. */
  ghost predicate VotesFollow(c: Cfg, m: Machine, h: Hvs)
    requires Shaped(c.height, m.votes)
  {
    || h.views == m.votes.views
    || exists e, peer :: FittingHere(c.height, e) && AddAt(c.height, m.votes, e, peer).Done? &&
                         h == AddAt(c.height, m.votes, e, peer).hvs
  }

  lemma TimeoutVotes(c: Cfg, m: Machine)
    requires ValidCfg(c) && m.votes.view < TWO_64
    ensures var h := HandleTimeout(c, m).votes;
            h == m.votes || SetViewTo(c.height, m.votes, c.view + 1) == Some(h)
  {
  }

  lemma StepVotes(c: Cfg, db: Db, m: Machine, i: Input)
    requires ValidCfg(c) && Inv(c, db, m) && Shaped(c.height, m.votes) && FittingInput(c, i)
    ensures VotesFollow(c, m, Step(c, m, i).votes)
  {
    if !m.halted {
      match i
      case Timeout =>
        if m.step == NEW_HEIGHT {
          FirstSetView(c.height, m.votes, c.view + 1);
        }
      case FromPeer(msg, peer, responded) =>
        HandleVotes(c, m, msg, peer, responded);
      case FromSelf(responded) =>
        if m.queue != [] {
          HandleVotes(c, m.(queue := m.queue[1..]), m.queue[0], c.self, responded);
        }
    }
  }

  lemma HandleShaped(c: Cfg, m: Machine, msg: Message, peer: KramaID, responded: seq<bool>)
    requires Shaped(c.height, m.votes) && m.votes.view < TWO_64 && |responded| == Total(c.height.roster)
    ensures var h := Handle(c, m, msg, peer, responded).votes; Shaped(c.height, h) && h.view < TWO_64
  {
    if msg.VoteMsg? {
      var e := EventOf(msg.v, responded);
      var o := AddAt(c.height, m.votes, e, peer);
      if o.Done? {
        AddAtShaped(c.height, m.votes, e, peer);
        AddAtExtends(c.height, m.votes, e, peer);
        ReactVotes(c, m.(votes := o.hvs), msg.v);
      }
    }
  }

  lemma StepShaped(c: Cfg, m: Machine, i: Input)
    requires ValidCfg(c) && Shaped(c.height, m.votes) && m.votes.view < TWO_64 && FittingInput(c, i)
    ensures Shaped(c.height, Step(c, m, i).votes) && Step(c, m, i).votes.view < TWO_64
  {
    if !m.halted {
      match i
      case Timeout =>
        TimeoutVotes(c, m);
        SetViewShaped(c.height, m.votes, c.view + 1);
      case FromPeer(msg, peer, responded) =>
        HandleShaped(c, m, msg, peer, responded);
      case FromSelf(responded) =>
        if m.queue != [] {
          HandleShaped(c, m.(queue := m.queue[1..]), m.queue[0], c.self, responded);
        }
    }
  }

  lemma ReactVotes(c: Cfg, m: Machine, v: Vote)
    ensures React(c, m, v).votes == m.votes
  {
  }

  lemma HandleVotes(c: Cfg, m: Machine, msg: Message, peer: KramaID, responded: seq<bool>)
    requires Shaped(c.height, m.votes) && |responded| == Total(c.height.roster)
    ensures VotesFollow(c, m, Handle(c, m, msg, peer, responded).votes)
  {
    if msg.VoteMsg? {
      var e := EventOf(msg.v, responded);
      assert FittingHere(c.height, e);
      var o := AddAt(c.height, m.votes, e, peer);
      if o.Done? {
        ReactVotes(c, m.(votes := o.hvs), msg.v);
      }
    }
  }

  lemma FollowOk(c: Cfg, m: Machine, h: Hvs)
    requires Shaped(c.height, m.votes) && VotesFollow(c, m, h) && HvsOk(c.height, m.votes)
    ensures HvsOk(c.height, h)
  {
    if h.views != m.votes.views {
      var e, peer :| FittingHere(c.height, e) && AddAt(c.height, m.votes, e, peer).Done? &&
                     h == AddAt(c.height, m.votes, e, peer).hvs;
      AddAtOk(c.height, m.votes, e, peer);
    }
  }

  lemma HandleKeeps(c: Cfg, db: Db, m: Machine, msg: Message, peer: KramaID, responded: seq<bool>)
    requires Inv(c, db, m) && !m.halted && Shaped(c.height, m.votes) && |responded| == Total(c.height.roster)
    ensures var m' := Handle(c, m, msg, peer, responded); Inv(c, db, m') && Progress(m, m')
  {
    match msg
    case ProposalMsg(p) => ProposalKeeps(c, db, m, p);
    case VoteMsg(v) => TakeVoteKeeps(c, db, m, v, peer, responded);
  }

  /** Every step keeps the invariant and takes nothing back. */
  lemma StepKeeps(c: Cfg, db: Db, m: Machine, i: Input)
    requires ValidCfg(c) && Inv(c, db, m) && Shaped(c.height, m.votes) && FittingInput(c, i)
    ensures Inv(c, db, Step(c, m, i)) && Progress(m, Step(c, m, i))
  {
    if !m.halted {
      match i
      case Timeout => TimeoutKeeps(c, db, m);
      case FromPeer(msg, peer, responded) => HandleKeeps(c, db, m, msg, peer, responded);
      case FromSelf(responded) =>
        if m.queue != [] {
          HandleKeeps(c, db, m.(queue := m.queue[1..]), m.queue[0], c.self, responded);
        }
    }
  }

  lemma InitKeeps(c: Cfg, db: Db)
    requires ValidCfg(c)
    ensures Inv(c, db, Init(c, db)) && Shaped(c.height, Init(c, db).votes) && HvsOk(c.height, Init(c, db).votes)
  {
    NewViewOfSize(c.height, 0);
    NewViewOk(c.height, 0);
  }

  // ---------- whole runs ----------

  ghost predicate FittingAll(c: Cfg, inputs: seq<Input>) {
    ValidCfg(c) && forall i :: 0 <= i < |inputs| ==> FittingInput(c, inputs[i])
  }

  ghost function Run(c: Cfg, db: Db, inputs: seq<Input>): (m: Machine)
    requires FittingAll(c, inputs)
    ensures Shaped(c.height, m.votes) && m.votes.view < TWO_64
    decreases |inputs|
  {
    if inputs == [] then InitKeeps(c, db); Init(c, db)
    else
      var n := |inputs| - 1;
      StepShaped(c, Run(c, db, inputs[..n]), inputs[n]);
      Step(c, Run(c, db, inputs[..n]), inputs[n])
  }

  /** The run invariant holds after any inputs. */
  lemma {:induction false} RunInv(c: Cfg, db: Db, inputs: seq<Input>)
    requires FittingAll(c, inputs)
    ensures Inv(c, db, Run(c, db, inputs))
    decreases |inputs|
  {
    if inputs == [] {
      InitKeeps(c, db);
    } else {
      var n := |inputs| - 1;
      RunInv(c, db, inputs[..n]);
      StepKeeps(c, db, Run(c, db, inputs[..n]), inputs[n]);
    }
  }

  /** The accounts of every view and kind stay in order over the whole run. */
  lemma {:induction false} RunKeepsAccounts(c: Cfg, db: Db, inputs: seq<Input>)
    requires FittingAll(c, inputs)
    ensures HvsOk(c.height, Run(c, db, inputs).votes)
    decreases |inputs|
  {
    if inputs == [] {
      InitKeeps(c, db);
    } else {
      var n := |inputs| - 1;
      RunKeepsAccounts(c, db, inputs[..n]);
      RunInv(c, db, inputs[..n]);
      var m := Run(c, db, inputs[..n]);
      StepVotes(c, db, m, inputs[n]);
      FollowOk(c, m, Step(c, m, inputs[n]).votes);
    }
  }

  /** A step leaves the catch-up rounds alone, or adds one vote or certificate. */
  lemma StepRounds(c: Cfg, db: Db, m: Machine, i: Input)
    requires ValidCfg(c) && Inv(c, db, m) && Shaped(c.height, m.votes) && FittingInput(c, i) && RoundsOk(m.votes)
    ensures RoundsOk(Step(c, m, i).votes)
  {
    if !m.halted {
      match i
      case Timeout =>
        if m.step == NEW_HEIGHT {
          FirstSetView(c.height, m.votes, c.view + 1);
        }
      case FromPeer(msg, peer, responded) => HandleRounds(c, m, msg, peer, responded);
      case FromSelf(responded) =>
        if m.queue != [] {
          HandleRounds(c, m.(queue := m.queue[1..]), m.queue[0], c.self, responded);
        }
    }
  }

  lemma HandleRounds(c: Cfg, m: Machine, msg: Message, peer: KramaID, responded: seq<bool>)
    requires Shaped(c.height, m.votes) && |responded| == Total(c.height.roster) && RoundsOk(m.votes)
    ensures RoundsOk(Handle(c, m, msg, peer, responded).votes)
  {
    if msg.VoteMsg? {
      var e := EventOf(msg.v, responded);
      var o := AddAt(c.height, m.votes, e, peer);
      if o.Done? {
        AddAtRoundsOk(c.height, m.votes, e, peer);
        ReactVotes(c, m.(votes := o.hvs), msg.v);
      }
    }
  }

  /** Whoever sent the message of an input: the peer, or the instance itself for what it had queued. */
  ghost predicate SentBy(c: Cfg, i: Input, peer: KramaID) {
    match i
    case Timeout => false
    case FromPeer(_, sender, _) => sender == peer
    case FromSelf(_) => c.self == peer
  }

  /** A message costs at most its sender a round. */
  lemma OnlySenderPays(c: Cfg, db: Db, m: Machine, i: Input, peer: KramaID)
    requires ValidCfg(c) && Inv(c, db, m) && Shaped(c.height, m.votes) && FittingInput(c, i)
    ensures RoundsOf(Step(c, m, i).votes, peer) != RoundsOf(m.votes, peer) ==> SentBy(c, i, peer)
  {
    if !m.halted {
      match i
      case Timeout =>
        if m.step == NEW_HEIGHT {
          FirstSetView(c.height, m.votes, c.view + 1);
        }
      case FromPeer(msg, sender, responded) =>
        if sender != peer {
          HandleCharges(c, m, msg, sender, responded, peer);
        }
      case FromSelf(responded) =>
        if m.queue != [] && c.self != peer {
          HandleCharges(c, m.(queue := m.queue[1..]), m.queue[0], c.self, responded, peer);
        }
    }
  }

  lemma HandleCharges(c: Cfg, m: Machine, msg: Message, sender: KramaID, responded: seq<bool>, peer: KramaID)
    requires Shaped(c.height, m.votes) && |responded| == Total(c.height.roster) && peer != sender
    ensures RoundsOf(Handle(c, m, msg, sender, responded).votes, peer) == RoundsOf(m.votes, peer)
  {
    if msg.VoteMsg? {
      var e := EventOf(msg.v, responded);
      var o := AddAt(c.height, m.votes, e, sender);
      if o.Done? {
        AddAtRounds(c.height, m.votes, e, sender);
        ReactVotes(c, m.(votes := o.hvs), msg.v);
      }
    }
  }

  /** Over every run no peer makes an instance open more than two views by its votes. */
  lemma {:induction false} RunKeepsRounds(c: Cfg, db: Db, inputs: seq<Input>)
    requires FittingAll(c, inputs)
    ensures RoundsOk(Run(c, db, inputs).votes)
    decreases |inputs|
  {
    if inputs != [] {
      var n := |inputs| - 1;
      RunKeepsRounds(c, db, inputs[..n]);
      RunInv(c, db, inputs[..n]);
      StepRounds(c, db, Run(c, db, inputs[..n]), inputs[n]);
    }
  }

  lemma ProgressTransitive(a: Machine, b: Machine, c: Machine)
    requires Progress(a, b) && Progress(b, c) && c.step <= COMMIT
    ensures Progress(a, c)
  {
  }

  lemma {:induction false} LastStepProgresses(c: Cfg, db: Db, inputs: seq<Input>)
    requires FittingAll(c, inputs) && inputs != []
    ensures Progress(Run(c, db, inputs[..|inputs| - 1]), Run(c, db, inputs))
  {
    var n := |inputs| - 1;
    RunInv(c, db, inputs[..n]);
    StepKeeps(c, db, Run(c, db, inputs[..n]), inputs[n]);
  }

  /** View and step never go back, an accepted proposal is never replaced or cleared, and nothing logged is undone. */
  lemma {:induction false} RunProgresses(c: Cfg, db: Db, inputs: seq<Input>, k: nat)
    requires FittingAll(c, inputs) && k <= |inputs|
    ensures Progress(Run(c, db, inputs[..k]), Run(c, db, inputs))
    decreases |inputs|
  {
    if k == |inputs| {
      assert inputs[..k] == inputs;
    } else {
      var n := |inputs| - 1;
      RunProgresses(c, db, inputs[..n], k);
      assert inputs[..n][..k] == inputs[..k];
      LastStepProgresses(c, db, inputs);
      RunInv(c, db, inputs);
      ProgressTransitive(Run(c, db, inputs[..k]), Run(c, db, inputs[..n]), Run(c, db, inputs));
    }
  }

  /** A proposal is present exactly from the prevote on, unless votes of another view committed without one. */
  lemma {:induction false} ProposalIffPrevoted(c: Cfg, db: Db, inputs: seq<Input>)
    requires FittingAll(c, inputs)
    ensures var m := Run(c, db, inputs);
            !m.halted && (m.step < COMMIT || m.commitView == c.view) ==> (m.proposal.Some? <==> m.step >= PREVOTE)
  {
    RunInv(c, db, inputs);
  }

  lemma {:induction false} CastAtMost(log: seq<Effect>, kind: MsgType, i: nat, j: nat)
    requires i < j < |log| && Casts(log[i], kind) && Casts(log[j], kind)
    ensures Cast(log, kind) >= 2
    decreases |log|
  {
    var n := |log| - 1;
    if j < n {
      CastAtMost(log[..n], kind, i, j);
    } else {
      CastOne(log[..n], kind, i);
    }
  }

  lemma {:induction false} CastOne(log: seq<Effect>, kind: MsgType, i: nat)
    requires i < |log| && Casts(log[i], kind)
    ensures Cast(log, kind) >= 1
    decreases |log|
  {
    if i < |log| - 1 {
      CastOne(log[..|log| - 1], kind, i);
    }
  }

  lemma {:induction false} FinalOne(log: seq<Effect>, i: nat)
    requires i < |log| && log[i].Finalized?
    ensures Finals(log) >= 1
    ensures forall j :: i < j < |log| && log[j].Finalized? ==> Finals(log) >= 2
    decreases |log|
  {
    if i < |log| - 1 {
      FinalOne(log[..|log| - 1], i);
      assert forall j :: i < j < |log| - 1 ==> log[..|log| - 1][j] == log[j];
    }
  }

  /** Both finalize, or both cast a vote of the same kind. */
  predicate Alike(a: Effect, b: Effect) {
    || (a.Finalized? && b.Finalized?)
    || (Ballot(a).Some? && Ballot(b).Some? && Ballot(a).value.kind == Ballot(b).value.kind)
  }

  lemma NeverAlike(c: Cfg, m: Machine, i: nat, j: nat)
    requires LogOk(c, m.proposal, m.log) && Once(c, m) && i < j < |m.log|
    ensures !Alike(m.log[i], m.log[j])
  {
    assert EntryOk(c, m.proposal, m.log, i);
    if m.log[i].Finalized? && m.log[j].Finalized? {
      FinalOne(m.log, i);
      assert false;
    } else if Alike(m.log[i], m.log[j]) {
      CastAtMost(m.log, Ballot(m.log[i]).value.kind, i, j);
      assert false;
    }
  }

  /** At most one prevote, one precommit and one finalization are ever emitted. */
  lemma {:induction false} VotesOnce(c: Cfg, db: Db, inputs: seq<Input>)
    requires FittingAll(c, inputs)
    ensures var log := Run(c, db, inputs).log; forall i, j :: 0 <= i < j < |log| ==> !Alike(log[i], log[j])
  {
    var m := Run(c, db, inputs);
    RunInv(c, db, inputs);
    forall i, j | 0 <= i < j < |m.log|
      ensures !Alike(m.log[i], m.log[j])
    {
      NeverAlike(c, m, i, j);
    }
  }

  lemma {:induction false} CastSomewhere(log: seq<Effect>, kind: MsgType) returns (j: nat)
    requires Cast(log, kind) >= 1
    ensures j < |log| && Casts(log[j], kind)
    decreases |log|
  {
    var n := |log| - 1;
    if Casts(log[n], kind) {
      j := n;
    } else {
      j := CastSomewhere(log[..n], kind);
    }
  }

  // ---------- two instances of one view ----------

  ghost predicate PrevotesAgree(a: seq<Effect>, b: seq<Effect>) {
    forall i, j :: 0 <= i < |a| && 0 <= j < |b| && Casts(a[i], Prevote) && Casts(b[j], Prevote) ==>
      Ballot(a[i]).value.hash == Ballot(b[j]).value.hash
  }

  lemma PrevoteIsProposal(c: Cfg, m: Machine)
    requires LogOk(c, m.proposal, m.log)
    ensures forall i :: 0 <= i < |m.log| && Casts(m.log[i], Prevote) ==>
              && Cast(m.log, Prevote) >= 1
              && m.proposal.Some? && Ballot(m.log[i]).value.hash == HashOf(m.proposal.value.t)
  {
    forall i | 0 <= i < |m.log| && Casts(m.log[i], Prevote)
      ensures Cast(m.log, Prevote) >= 1
      ensures m.proposal.Some? && Ballot(m.log[i]).value.hash == HashOf(m.proposal.value.t)
    {
      CastOne(m.log, Prevote, i);
      assert EntryOk(c, m.proposal, m.log, i);
    }
  }

  /** Voting once holds for each instance, and nothing more: the prevotes of two instances of one configuration agree
      if and only if they accepted the same tesseract, or one of them cast none. */
  lemma {:induction false} PrevotesAgreeIff(c: Cfg, db1: Db, inputs1: seq<Input>, db2: Db, inputs2: seq<Input>)
    requires FittingAll(c, inputs1) && FittingAll(c, inputs2)
    ensures var m1, m2 := Run(c, db1, inputs1), Run(c, db2, inputs2);
            PrevotesAgree(m1.log, m2.log) <==>
              || Cast(m1.log, Prevote) == 0
              || Cast(m2.log, Prevote) == 0
              || (m1.proposal.Some? && m2.proposal.Some? && m1.proposal.value.t == m2.proposal.value.t)
  {
    var m1, m2 := Run(c, db1, inputs1), Run(c, db2, inputs2);
    RunInv(c, db1, inputs1);
    RunInv(c, db2, inputs2);
    PrevoteIsProposal(c, m1);
    PrevoteIsProposal(c, m2);
    if Cast(m1.log, Prevote) >= 1 && Cast(m2.log, Prevote) >= 1 {
      var i := CastSomewhere(m1.log, Prevote);
      var j := CastSomewhere(m2.log, Prevote);
    }
  }

  lemma PersistReaches(db: Db, t: Tesseract, qc: Qc, a: Address)
    requires a in t.heights
    ensures var safety := Persist(db, t, qc).safety; a in safety && safety[a].qcs != [] && Last(safety[a]) == qc
  {
  }

  /** A store in which every address is locked on `t` in this view, with the proposal to show for it. */
  ghost predicate LockedOn(store: Db, addrs: set<Address>, t: Tesseract, view: nat) {
    && HashOf(t) in store.proposals && store.proposals[HashOf(t)] == t
    && forall a :: a in addrs ==>
         && a in store.safety && store.safety[a].qcs != []
         && var qc := Last(store.safety[a]); qc.kind == Prevote && qc.view == view && qc.hash == HashOf(t)
  }

  lemma PersistLocks(db: Db, t: Tesseract, qc: Qc, view: nat)
    requires qc.kind == Prevote && qc.view == view && qc.hash == HashOf(t)
    ensures LockedOn(Persist(db, t, qc), t.heights.Keys, t, view)
  {
    forall a | a in t.heights
      ensures var safety := Persist(db, t, qc).safety; a in safety && safety[a].qcs != [] && Last(safety[a]) == qc
    {
      PersistReaches(db, t, qc, a);
    }
  }

  lemma {:induction false} LockedWhenCast(c: Cfg, db: Db, m: Machine, i: nat)
    requires LogOk(c, m.proposal, m.log) && i < |m.log| && Casts(m.log[i], Precommit)
    ensures m.proposal.Some? && Cast(m.log[..i], Prevote) == 1
    ensures var v := Ballot(m.log[i]).value; v.view == c.view && v.hash == HashOf(m.proposal.value.t)
    ensures LockedOn(Replay(db, m.log[..i]), m.proposal.value.t.heights.Keys, m.proposal.value.t, c.view)
  {
    assert EntryOk(c, m.proposal, m.log, i);
    var e := m.log[i - 1];
    assert m.log[..i] == m.log[..i - 1] + [e];
    Appended(db, m.log[..i - 1], e);
    PersistLocks(Replay(db, m.log[..i - 1]), e.t, e.qc, c.view);
  }

  /** When a precommit is sent, the instance has prevoted its hash, and the store is locked on it, with a prevote
      certificate of this view, at every address of the proposal. */
  lemma {:induction false} LockBeforePrecommit(c: Cfg, db: Db, inputs: seq<Input>, i: nat)
    requires FittingAll(c, inputs)
    requires i < |Run(c, db, inputs).log| && Casts(Run(c, db, inputs).log[i], Precommit)
    ensures var m := Run(c, db, inputs);
            var v := Ballot(m.log[i]).value;
            && m.proposal.Some? && v.view == c.view && v.hash == HashOf(m.proposal.value.t)
            && Cast(m.log[..i], Prevote) == 1
            && LockedOn(Replay(db, m.log[..i]), c.height.heights.Keys, m.proposal.value.t, c.view)
  {
    RunInv(c, db, inputs);
    LockedWhenCast(c, db, Run(c, db, inputs), i);
  }

  /** Whatever an instance finalizes is its own proposal, with a precommit majority in the commit view; that view is its
      own unless its own has a nil majority or the commit panicked. The store is what the log says. */
  lemma {:induction false} FinalizedIsCertified(c: Cfg, db: Db, inputs: seq<Input>, i: nat)
    requires FittingAll(c, inputs)
    requires i < |Run(c, db, inputs).log| && Run(c, db, inputs).log[i].Finalized?
    ensures var m := Run(c, db, inputs);
            && m.proposal.Some? && m.log[i].t == m.proposal.value.t
            && MajorityOf(m.votes, m.commitView, Precommit) == Some(HashOf(m.log[i].t))
            && (m.commitView == c.view || m.halted || MajorityOf(m.votes, c.view, Precommit) == Some(NilHash))
            && m.db == Replay(db, m.log)
  {
    var m := Run(c, db, inputs);
    RunInv(c, db, inputs);
    assert EntryOk(c, m.proposal, m.log, i);
    FinalOne(m.log, i);
  }

  // ---------- what is persisted is certified ----------

  /** Every certificate written since `n` is the one the votes still hand out. */
  ghost predicate Certificates(m: Machine, n: nat) {
    forall j :: n <= j < |m.log| && m.log[j].Persisted? ==>
      var qc := m.log[j].qc; GetQC(m.votes, qc.hash, qc.view, qc.kind) == Got(qc)
  }

  lemma PreCommitCertificates(c: Cfg, m: Machine, view: nat)
    ensures Certificates(EnterPreCommit(c, m, view), |m.log|)
  {
  }

  lemma CommittingCertificates(c: Cfg, m: Machine, view: nat)
    ensures var m' := Committing(c, m, view); Certificates(m', |m.log|) && m.log <= m'.log && m'.votes == m.votes
  {
  }

  lemma CommitCertificates(c: Cfg, m: Machine, view: nat)
    ensures Certificates(EnterCommit(c, m, view), |m.log|)
  {
    CommittingCertificates(c, m, view);
  }

  lemma ReactCertificates(c: Cfg, m: Machine, v: Vote)
    ensures Certificates(React(c, m, v), |m.log|)
  {
    PreCommitCertificates(c, m, v.view);
    CommitCertificates(c, m, v.view);
  }

  lemma CertificatesStand(m: Machine, m': Machine, view: nat, kind: MsgType)
    requires Certificates(m, 0) && Extended(m.votes, m'.votes, view, kind)
    requires m.log <= m'.log && Certificates(m', |m.log|)
    ensures Certificates(m', 0)
  {
    forall j | 0 <= j < |m'.log| && m'.log[j].Persisted?
      ensures var qc := m'.log[j].qc; GetQC(m'.votes, qc.hash, qc.view, qc.kind) == Got(qc)
    {
      if j < |m.log| {
        var qc := m.log[j].qc;
        assert GetQC(m.votes, qc.hash, qc.view, qc.kind) == Got(qc);
        assert MajorityAt(m.votes, qc.view, qc.kind).Some?;
        assert MajorityAt(m'.votes, qc.view, qc.kind) == MajorityAt(m.votes, qc.view, qc.kind);
      }
    }
  }

  lemma ProposalCertificates(c: Cfg, m: Machine, p: Proposal)
    requires Certificates(m, 0)
    ensures Certificates(SetProposal(c, m, p), 0)
  {
  }

  lemma StartCertificates(c: Cfg, m: Machine, view: nat)
    requires Certificates(m, 0)
    ensures Certificates(EnterPropose(c, m, view), 0)
  {
  }

  lemma TimeoutCertificates(c: Cfg, m: Machine)
    requires ValidCfg(c) && Certificates(m, 0) && m.view == c.view && m.votes.view < TWO_64
    requires m.step == NEW_HEIGHT ==> m.votes.view == 0
    ensures Certificates(HandleTimeout(c, m), 0)
  {
    if m.step == NEW_HEIGHT {
      FirstSetView(c.height, m.votes, c.view + 1);
      var m' := m.(view := c.view, step := NEW_VIEW, proposal := if c.view != 0 then None else m.proposal,
                   votes := m.votes.(view := c.view + 1));
      StartCertificates(c, m', c.view);
      assert HandleTimeout(c, m) == EnterPropose(c, m', c.view);
    }
  }

  lemma HandleCertificates(c: Cfg, db: Db, m: Machine, msg: Message, peer: KramaID, responded: seq<bool>)
    requires Inv(c, db, m) && !m.halted && Certificates(m, 0)
    requires Shaped(c.height, m.votes) && |responded| == Total(c.height.roster)
    ensures Certificates(Handle(c, m, msg, peer, responded), 0)
  {
    match msg
    case ProposalMsg(p) => ProposalCertificates(c, m, p);
    case VoteMsg(v) =>
      HandleKeeps(c, db, m, msg, peer, responded);
      var e := EventOf(v, responded);
      AddAtExtends(c.height, m.votes, e, peer);
      var o := AddAt(c.height, m.votes, e, peer);
      if o.Done? {
        ReactVotes(c, m.(votes := o.hvs), v);
        ReactCertificates(c, m.(votes := o.hvs), v);
        CertificatesStand(m, Handle(c, m, msg, peer, responded), v.view, v.kind);
      }
  }

  lemma StepCertificates(c: Cfg, db: Db, m: Machine, i: Input)
    requires ValidCfg(c) && Inv(c, db, m) && Shaped(c.height, m.votes) && FittingInput(c, i) && Certificates(m, 0)
    ensures Certificates(Step(c, m, i), 0)
  {
    if !m.halted {
      match i
      case Timeout => TimeoutCertificates(c, m);
      case FromPeer(msg, peer, responded) => HandleCertificates(c, db, m, msg, peer, responded);
      case FromSelf(responded) =>
        if m.queue != [] {
          HandleCertificates(c, db, m.(queue := m.queue[1..]), m.queue[0], c.self, responded);
        }
    }
  }

  lemma {:induction false} RunCertificates(c: Cfg, db: Db, inputs: seq<Input>)
    requires FittingAll(c, inputs)
    ensures Certificates(Run(c, db, inputs), 0)
    decreases |inputs|
  {
    if inputs != [] {
      var n := |inputs| - 1;
      RunCertificates(c, db, inputs[..n]);
      RunInv(c, db, inputs[..n]);
      StepCertificates(c, db, Run(c, db, inputs[..n]), inputs[n]);
    }
  }

  /** Every certificate an instance persists is signed by validators who alone meet every threshold of the committee. */
  lemma {:induction false} LocksAreCertified(c: Cfg, db: Db, inputs: seq<Input>, i: nat)
    requires FittingAll(c, inputs)
    requires i < |Run(c, db, inputs).log| && Run(c, db, inputs).log[i].Persisted?
    ensures var qc := Run(c, db, inputs).log[i].qc;
            |qc.signers| == Total(c.height.roster) && Meets(c.height.roster, c.height.quorum, qc.signers)
  {
    var m := Run(c, db, inputs);
    var qc := m.log[i].qc;
    RunCertificates(c, db, inputs);
    RunKeepsAccounts(c, db, inputs);
    CertificateMeets(c.height, m.votes, qc.hash, qc.view, qc.kind);
  }

  // ---------- runs that never panic ----------

  /** Votes are of a known kind, and precommits arrive for the instance's own view, after its proposal. */
  predicate OrderlyMessage(c: Cfg, m: Machine, msg: Message) {
    msg.VoteMsg? ==> msg.v.kind != OtherMsg && (msg.v.kind == Precommit ==> msg.v.view == c.view && m.proposal.Some?)
  }

  predicate OrderlyInput(c: Cfg, m: Machine, i: Input) {
    match i
    case Timeout => true
    case FromPeer(msg, _, _) => OrderlyMessage(c, m, msg)
    case FromSelf(_) => m.queue != [] ==> OrderlyMessage(c, m, m.queue[0])
  }

  ghost predicate Orderly(c: Cfg, db: Db, inputs: seq<Input>)
    requires FittingAll(c, inputs)
    decreases |inputs|
  {
    inputs != [] ==>
      var n := |inputs| - 1;
      Orderly(c, db, inputs[..n]) && OrderlyInput(c, Run(c, db, inputs[..n]), inputs[n])
  }

  lemma OrderlyHandles(c: Cfg, db: Db, m: Machine, msg: Message, peer: KramaID, responded: seq<bool>)
    requires Inv(c, db, m) && !m.halted && OrderlyMessage(c, m, msg)
    requires Shaped(c.height, m.votes) && |responded| == Total(c.height.roster)
    ensures !Handle(c, m, msg, peer, responded).halted
  {
    if msg.VoteMsg? {
      var v := msg.v;
      AddAtExtends(c.height, m.votes, EventOf(v, responded), peer);
      var o := AddAt(c.height, m.votes, EventOf(v, responded), peer);
      if o.Done? {
        ReactKeeps(c, db, m, o.hvs, v);
      }
    }
  }

  lemma OrderlySteps(c: Cfg, db: Db, m: Machine, i: Input)
    requires ValidCfg(c) && Inv(c, db, m) && Shaped(c.height, m.votes) && FittingInput(c, i)
    requires !m.halted && OrderlyInput(c, m, i)
    ensures !Step(c, m, i).halted
  {
    match i
    case Timeout =>
      if m.step == NEW_HEIGHT {
        FirstSetView(c.height, m.votes, c.view + 1);
      }
    case FromPeer(msg, peer, responded) => OrderlyHandles(c, db, m, msg, peer, responded);
    case FromSelf(responded) =>
      if m.queue != [] {
        OrderlyHandles(c, db, m.(queue := m.queue[1..]), m.queue[0], c.self, responded);
      }
  }

  /** An instance that gets its messages in order never panics. */
  lemma {:induction false} OrderlyNeverHalts(c: Cfg, db: Db, inputs: seq<Input>)
    requires FittingAll(c, inputs) && Orderly(c, db, inputs)
    ensures !Run(c, db, inputs).halted
    decreases |inputs|
  {
    if inputs != [] {
      var n := |inputs| - 1;
      OrderlyNeverHalts(c, db, inputs[..n]);
      RunInv(c, db, inputs[..n]);
      OrderlySteps(c, db, Run(c, db, inputs[..n]), inputs[n]);
    }
  }

  // ---------- the order of the writes ----------

  /** Before a commit only locks are written, and a lock is all that comes before another write. */
  ghost predicate LocksFirst(c: Cfg, m: Machine) {
    && (m.step < COMMIT ==> AllLocks(c, m.proposal, m.log, |m.log|))
    && forall i :: 0 <= i < |m.log| && m.log[i].Persisted? ==> AllLocks(c, m.proposal, m.log, i)
  }

  ghost predicate AllLocks(c: Cfg, p: Option<Proposal>, log: seq<Effect>, n: nat) {
    forall k :: 0 <= k < n && k < |log| && log[k].Persisted? ==> p.Some? && LockFor(log[k], p.value.t, c.view)
  }

  /** Nothing was written since `n`. */
  ghost predicate NoWrites(log: seq<Effect>, n: nat) {
    forall k :: n <= k < |log| ==> !log[k].Persisted?
  }

  lemma NoWritesKeeps(c: Cfg, m: Machine, m': Machine)
    requires LocksFirst(c, m) && LogOk(c, m.proposal, m.log) && Progress(m, m') && NoWrites(m'.log, |m.log|)
    ensures LocksFirst(c, m')
  {
    forall k | 0 <= k < |m'.log| && m'.log[k].Persisted?
      ensures k < |m.log| && m.log[k] == m'.log[k] && m'.proposal == m.proposal
    {
      assert EntryOk(c, m.proposal, m.log, k);
    }
  }

  lemma PrecommittingWrites(c: Cfg, m: Machine)
    requires m.view == c.view && m.proposal.Some?
    ensures var m' := Precommitting(c, m, c.view);
            forall k :: |m.log| <= k < |m'.log| && m'.log[k].Persisted? ==>
              LockFor(m'.log[k], m.proposal.value.t, c.view)
  {
    var majority := MajorityOf(m.votes, c.view, Prevote);
    if majority.Some? {
      CertificateIffMajority(m.votes, majority.value, m.view, Prevote);
    }
  }

  lemma PreCommitLocksFirst(c: Cfg, m: Machine, m': Machine)
    requires LocksFirst(c, m) && m.step < COMMIT && m.proposal.Some? && Progress(m, m')
    requires forall k :: |m.log| <= k < |m'.log| && m'.log[k].Persisted? ==>
             LockFor(m'.log[k], m.proposal.value.t, c.view)
    ensures LocksFirst(c, m')
  {
    forall k | 0 <= k < |m'.log| && m'.log[k].Persisted?
      ensures LockFor(m'.log[k], m'.proposal.value.t, c.view)
    {
      assert k < |m.log| ==> m.log[k] == m'.log[k];
    }
  }

  /** A commit writes at most one certificate, after everything else. */
  lemma CommitWrites(c: Cfg, m: Machine, view: nat)
    ensures var m' := EnterCommit(c, m, view);
            && m.log <= m'.log
            && forall k :: |m.log| <= k < |m'.log| && m'.log[k].Persisted? ==> k == |m.log|
  {
    CommittingCertificates(c, m, view);
  }

  lemma CommitLocksFirst(c: Cfg, m: Machine, m': Machine)
    requires LocksFirst(c, m) && LogOk(c, m.proposal, m.log) && m.step < COMMIT && m'.step == COMMIT && Progress(m, m')
    requires forall k :: |m.log| <= k < |m'.log| && m'.log[k].Persisted? ==> k == |m.log|
    ensures LocksFirst(c, m')
  {
    forall i, k | 0 <= k < i < |m'.log| && m'.log[i].Persisted? && m'.log[k].Persisted?
      ensures m'.proposal.Some? && LockFor(m'.log[k], m'.proposal.value.t, c.view)
    {
      assert k < |m.log| && m.log[k] == m'.log[k];
      assert EntryOk(c, m.proposal, m.log, k);
    }
  }

  lemma ReactLocksFirst(c: Cfg, m: Machine, v: Vote)
    requires LocksFirst(c, m) && LogOk(c, m.proposal, m.log) && Phase(c, m) && Progress(m, React(c, m, v))
    ensures LocksFirst(c, React(c, m, v))
  {
    var m' := React(c, m, v);
    if v.kind == Precommit && m.step < COMMIT && m' != m {
      CommitWrites(c, m, v.view);
      CommitStep(c, m, v.view);
      CommitLocksFirst(c, m, m');
    } else if v.kind == Prevote && m.step == PREVOTE && m' != m {
      PrecommittingWrites(c, m);
      PreCommitLocksFirst(c, m, m');
    }
  }

  lemma CommitStep(c: Cfg, m: Machine, view: nat)
    requires m.step < COMMIT
    ensures EnterCommit(c, m, view).step == COMMIT
  {
  }

  lemma TakeVoteLocksFirst(c: Cfg, db: Db, m: Machine, v: Vote, peer: KramaID, responded: seq<bool>)
    requires Inv(c, db, m) && !m.halted && LocksFirst(c, m)
    requires Shaped(c.height, m.votes) && |responded| == Total(c.height.roster)
    ensures LocksFirst(c, TakeVote(c, m, v, peer, responded))
  {
    AddAtExtends(c.height, m.votes, EventOf(v, responded), peer);
    var o := AddAt(c.height, m.votes, EventOf(v, responded), peer);
    if o.Done? && o.result == Ok(true) {
      ReactKeeps(c, db, m, o.hvs, v);
      ReactLocksFirst(c, m.(votes := o.hvs), v);
    }
  }

  lemma ProposalWritesNothing(c: Cfg, m: Machine, p: Proposal)
    ensures NoWrites(SetProposal(c, m, p).log, |m.log|)
  {
  }

  lemma HandleLocksFirst(c: Cfg, db: Db, m: Machine, msg: Message, peer: KramaID, responded: seq<bool>)
    requires Inv(c, db, m) && !m.halted && LocksFirst(c, m)
    requires Shaped(c.height, m.votes) && |responded| == Total(c.height.roster)
    ensures LocksFirst(c, Handle(c, m, msg, peer, responded))
  {
    match msg
    case ProposalMsg(p) =>
      ProposalKeeps(c, db, m, p);
      ProposalWritesNothing(c, m, p);
      NoWritesKeeps(c, m, SetProposal(c, m, p));
    case VoteMsg(v) =>
      TakeVoteLocksFirst(c, db, m, v, peer, responded);
  }

  lemma TimeoutWritesNothing(c: Cfg, m: Machine)
    requires m.votes.view < TWO_64
    ensures NoWrites(HandleTimeout(c, m).log, |m.log|)
  {
  }

  lemma StepLocksFirst(c: Cfg, db: Db, m: Machine, i: Input)
    requires ValidCfg(c) && Inv(c, db, m) && Shaped(c.height, m.votes) && FittingInput(c, i) && LocksFirst(c, m)
    ensures LocksFirst(c, Step(c, m, i))
  {
    if !m.halted {
      match i
      case Timeout =>
        TimeoutKeeps(c, db, m);
        TimeoutWritesNothing(c, m);
        NoWritesKeeps(c, m, HandleTimeout(c, m));
      case FromPeer(msg, peer, responded) => HandleLocksFirst(c, db, m, msg, peer, responded);
      case FromSelf(responded) =>
        if m.queue != [] {
          HandleLocksFirst(c, db, m.(queue := m.queue[1..]), m.queue[0], c.self, responded);
        }
    }
  }

  lemma {:induction false} RunLocksFirst(c: Cfg, db: Db, inputs: seq<Input>)
    requires FittingAll(c, inputs)
    ensures LocksFirst(c, Run(c, db, inputs))
    decreases |inputs|
  {
    if inputs != [] {
      var n := |inputs| - 1;
      RunLocksFirst(c, db, inputs[..n]);
      RunInv(c, db, inputs[..n]);
      StepLocksFirst(c, db, Run(c, db, inputs[..n]), inputs[n]);
    }
  }

  /** Whatever is locked at these addresses is from an earlier view, or is `t` in this one. */
  ghost predicate OnTrack(store: Db, addrs: set<Address>, t: Tesseract, view: nat) {
    forall a :: a in addrs && a in store.safety && store.safety[a].qcs != [] ==>
      var qc := Last(store.safety[a]); qc.view < view || (qc.view == view && qc.hash == HashOf(t))
  }

  /** The node enters the view with locks of earlier views only. */
  ghost predicate Older(db: Db, c: Cfg) {
    forall a :: a in c.height.heights && a in db.safety && db.safety[a].qcs != [] ==> LastView(db.safety[a]) < c.view
  }

  lemma WriteOnTrack(store: Db, addrs: set<Address>, t: Tesseract, view: nat, e: Effect)
    requires OnTrack(store, addrs, t, view) && t.heights.Keys == addrs
    requires e.Persisted? ==> LockFor(e, t, view)
    requires e.Finalized? ==> e.t == t
    ensures OnTrack(Written(store, e), addrs, t, view)
  {
    if e.Persisted? {
      forall a | a in addrs
        ensures var safety := Persist(store, t, e.qc).safety;
                a in safety && safety[a].qcs != [] && Last(safety[a]) == e.qc
      {
        PersistReaches(store, t, e.qc, a);
      }
    }
  }

  lemma {:induction false} StoreOnTrack(c: Cfg, db: Db, p: Proposal, log: seq<Effect>, n: nat)
    requires Older(db, c) && p.t.heights == c.height.heights && LogOk(c, Some(p), log) && n <= |log|
    requires AllLocks(c, Some(p), log, n)
    ensures OnTrack(Replay(db, log[..n]), c.height.heights.Keys, p.t, c.view)
    decreases n
  {
    if n > 0 {
      StoreOnTrack(c, db, p, log, n - 1);
      assert EntryOk(c, Some(p), log, n - 1);
      assert log[..n] == log[..n - 1] + [log[n - 1]];
      Appended(db, log[..n - 1], log[n - 1]);
      WriteOnTrack(Replay(db, log[..n - 1]), c.height.heights.Keys, p.t, c.view, log[n - 1]);
    }
  }

  /** A write of a run keeps the order the lock store relies on exactly when its certificate is for the proposal. A
      prevote lock always is; the precommit certificate of a commit is persisted without that comparison. */
  lemma {:induction false} WriteInOrderIff(c: Cfg, db: Db, inputs: seq<Input>, i: nat)
    requires FittingAll(c, inputs) && Older(db, c)
    requires i < |Run(c, db, inputs).log| && Run(c, db, inputs).log[i].Persisted?
    ensures InOrderIffOwn(db, Run(c, db, inputs).log, i)
  {
    RunInv(c, db, inputs);
    RunLocksFirst(c, db, inputs);
    RunCertificates(c, db, inputs);
    WriteOrder(c, db, Run(c, db, inputs), i);
  }

  ghost predicate InOrderIffOwn(db: Db, log: seq<Effect>, i: nat)
    requires i < |log| && log[i].Persisted?
  {
    && (InOrder(Replay(db, log[..i]), Update(log[i].t, log[i].qc)) <==> log[i].qc.hash == HashOf(log[i].t))
    && (log[i].qc.kind == Prevote ==> log[i].qc.hash == HashOf(log[i].t))
  }

  lemma WriteOrder(c: Cfg, db: Db, m: Machine, i: nat)
    requires Older(db, c) && Phase(c, m) && LogOk(c, m.proposal, m.log) && LocksFirst(c, m) && Certificates(m, 0)
    requires i < |m.log| && m.log[i].Persisted?
    ensures InOrderIffOwn(db, m.log, i)
  {
    assert EntryOk(c, m.proposal, m.log, i);
    StoreOnTrack(c, db, m.proposal.value, m.log, i);
    assert GetQC(m.votes, m.log[i].qc.hash, m.log[i].qc.view, m.log[i].qc.kind) == Got(m.log[i].qc);
  }

  /** Every account holds nothing of this view, or one prevote certificate of it. */
  ghost predicate OneLock(store: Db, addrs: set<Address>, view: nat) {
    forall a :: a in addrs && a in store.safety && store.safety[a].qcs != [] ==>
      var qcs := store.safety[a].qcs;
      qcs[|qcs| - 1].view < view || (|qcs| == 1 && qcs[0].view == view && qcs[0].kind == Prevote)
  }

  lemma WriteReplaces(store: Db, t: Tesseract, qc: Qc, a: Address)
    requires OneLock(store, t.heights.Keys, qc.view) && a in t.heights
    ensures var safety := Persist(store, t, qc).safety; a in safety && safety[a].qcs == [qc]
  {
    if a in store.safety {
      UpdateQcShape(store.safety[a], qc);
    }
  }

  lemma {:induction false} StoreHasOneLock(c: Cfg, db: Db, p: Proposal, log: seq<Effect>, n: nat)
    requires Older(db, c) && p.t.heights == c.height.heights && LogOk(c, Some(p), log) && n <= |log|
    requires AllLocks(c, Some(p), log, n)
    ensures OneLock(Replay(db, log[..n]), c.height.heights.Keys, c.view)
    decreases n
  {
    if n > 0 {
      StoreHasOneLock(c, db, p, log, n - 1);
      assert EntryOk(c, Some(p), log, n - 1);
      assert log[..n] == log[..n - 1] + [log[n - 1]];
      Appended(db, log[..n - 1], log[n - 1]);
      if log[n - 1].Persisted? {
        forall a | a in p.t.heights
          ensures var safety := Replay(db, log[..n]).safety; a in safety && safety[a].qcs == [log[n - 1].qc]
        {
          WriteReplaces(Replay(db, log[..n - 1]), p.t, log[n - 1].qc, a);
        }
      }
    }
  }

  /** In every run of a node that enters the view with older locks only, whatever is written is all that is left: a lock
      replaces the older ones at every address, and the certificate of a commit replaces the lock. */
  lemma {:induction false} WriteIsAllThatIsLeft(c: Cfg, db: Db, inputs: seq<Input>, i: nat, a: Address)
    requires FittingAll(c, inputs) && Older(db, c) && a in c.height.heights
    requires i < |Run(c, db, inputs).log| && Run(c, db, inputs).log[i].Persisted?
    ensures var log := Run(c, db, inputs).log;
            var safety := Replay(db, log[..i + 1]).safety; a in safety && safety[a].qcs == [log[i].qc]
  {
    var m := Run(c, db, inputs);
    RunInv(c, db, inputs);
    RunLocksFirst(c, db, inputs);
    assert EntryOk(c, m.proposal, m.log, i);
    StoreHasOneLock(c, db, m.proposal.value, m.log, i);
    WriteReplaces(Replay(db, m.log[..i]), m.log[i].t, m.log[i].qc, a);
    assert m.log[..i + 1] == m.log[..i] + [m.log[i]];
    Appended(db, m.log[..i], m.log[i]);
  }

  // ---------- what a caller can rely on ----------

  /** The log of an instance: one vote of each kind and one finalization at most, a lock at every address before the
      precommit, only the own proposal finalized, and the store is what the log says. */
  ghost predicate Promises(c: Cfg, db: Db, m: Machine) {
    && (forall i, j :: 0 <= i < j < |m.log| ==> !Alike(m.log[i], m.log[j]))
    && (forall i :: 0 <= i < |m.log| && Casts(m.log[i], Precommit) ==>
          && m.proposal.Some?
          && LockedOn(Replay(db, m.log[..i]), m.proposal.value.t.heights.Keys, m.proposal.value.t, c.view))
    && (forall i :: 0 <= i < |m.log| && m.log[i].Finalized? ==>
          && m.proposal.Some? && m.log[i].t == m.proposal.value.t
          && MajorityOf(m.votes, m.commitView, Precommit) == Some(HashOf(m.log[i].t)))
    && m.db == Replay(db, m.log)
  }

  lemma InvPromises(c: Cfg, db: Db, m: Machine)
    requires Inv(c, db, m)
    ensures Promises(c, db, m)
  {
    forall i, j | 0 <= i < j < |m.log|
      ensures !Alike(m.log[i], m.log[j])
    {
      NeverAlike(c, m, i, j);
    }
    forall i | 0 <= i < |m.log| && Casts(m.log[i], Precommit)
      ensures m.proposal.Some?
      ensures LockedOn(Replay(db, m.log[..i]), m.proposal.value.t.heights.Keys, m.proposal.value.t, c.view)
    {
      LockedWhenCast(c, db, m, i);
    }
    forall i | 0 <= i < |m.log| && m.log[i].Finalized?
      ensures m.proposal.Some? && m.log[i].t == m.proposal.value.t
      ensures MajorityOf(m.votes, m.commitView, Precommit) == Some(HashOf(m.log[i].t))
    {
      assert EntryOk(c, m.proposal, m.log, i);
      FinalOne(m.log, i);
    }
  }
}
