/** The certificates an instance gives away: whom they name, whose signature they carry, when they pass the check. */
module CommitCerts {
  import opened Types
  import opened Safety
  import opened Rosters
  import opened Ledgers
  import opened LedgerRuns
  import opened QuorumCerts
  import opened HeightVotes
  import opened Kbft
  import KbftRuns
  import Authenticity

  // ---------- what the entries of one step carry ----------

  /** The signers are exactly the validators whose vote is on record. */
  ghost predicate NamesVoters(l: Ledger, signers: seq<bool>) {
    |signers| == |l.votes| && forall i :: 0 <= i < |signers| ==> (signers[i] <==> l.votes[i].Some?)
  }

  /** A certificate for the majority of a vote set: its hash, its signature, and everybody who voted. */
  ghost predicate ForMajority(l: Ledger, hash: Hash, signers: seq<bool>, sig: Signature) {
    l.majority.Some? && hash == l.majority.value.hash && sig == l.majority.value.sig && NamesVoters(l, signers)
  }

  /** A finalized tesseract carries the precommit voters of the own view; a certificate that is sent is for a majority
      of the own view; none is queued. */
  ghost predicate Carries(c: Cfg, m: Machine, e: Effect) {
    && (e.Finalized? ==>
          var own := GetVoteSet(m.votes, c.view, Precommit);
          && own.Some? && NamesVoters(own.value, e.qc.signers)
          && e.qc.sig == if own.value.majority.Some? then own.value.majority.value.sig
                         else Signature(CanonicalVote(Precommit, c.view, HashOf(e.t)), multiset{}))
    && (e.Sent? && e.msg.VoteMsg? && e.msg.v.isQC ==>
          var own, v := GetVoteSet(m.votes, c.view, e.msg.v.kind), e.msg.v;
          && v.view == c.view && v.heights == c.height.heights && v.signerIndex == 0
          && own.Some? && ForMajority(own.value, v.hash, v.signers, v.sig))
    && (e.Queued? && e.msg.VoteMsg? ==> !e.msg.v.isQC)
  }

  /** All entries since `n` carry what they should, by the votes of the machine. */
  ghost predicate AllCarry(c: Cfg, m: Machine, n: nat) {
    forall j :: n <= j < |m.log| ==> Carries(c, m, m.log[j])
  }

  lemma SendQcCarries(c: Cfg, m: Machine, kind: MsgType, hash: Hash, n: nat)
    requires AllCarry(c, m, n) && m.view == c.view && n <= |m.log|
    requires MajorityOf(m.votes, c.view, kind) == Some(hash)
    ensures var m' := SendQc(c, m, kind, hash); AllCarry(c, m', n) && m'.votes == m.votes && m.log <= m'.log
  {
    var m' := SendQc(c, m, kind, hash);
    assert m'.log == m.log + [m'.log[|m.log|]];
    forall j | n <= j < |m'.log|
      ensures Carries(c, m', m'.log[j])
    {
      assert j < |m.log| ==> Carries(c, m, m.log[j]);
    }
  }

  lemma OwnVoteCarries(c: Cfg, m: Machine, kind: MsgType, hash: Hash, n: nat)
    requires AllCarry(c, m, n) && n <= |m.log|
    ensures var m' := SendVote(c, m, kind, hash); AllCarry(c, m', n) && m'.votes == m.votes && m.log <= m'.log
  {
    var m' := SendVote(c, m, kind, hash);
    forall j | n <= j < |m'.log|
      ensures Carries(c, m', m'.log[j])
    {
      assert j < |m.log| ==> Carries(c, m, m.log[j]);
    }
  }

  lemma SaveCarries(c: Cfg, m: Machine, t: Tesseract, qc: Qc, n: nat)
    requires AllCarry(c, m, n) && n <= |m.log|
    ensures AllCarry(c, Save(m, t, qc), n)
  {
    forall j | n <= j < |Save(m, t, qc).log|
      ensures Carries(c, Save(m, t, qc), Save(m, t, qc).log[j])
    {
      assert j < |m.log| ==> Carries(c, m, m.log[j]);
    }
  }

  lemma NothingCarried(c: Cfg, m: Machine)
    ensures AllCarry(c, m, |m.log|)
  {
  }

  lemma PreCommitCarries(c: Cfg, m: Machine)
    requires m.view == c.view
    ensures AllCarry(c, EnterPreCommit(c, m, c.view), |m.log|)
  {
    var majority := MajorityOf(m.votes, c.view, Prevote);
    NothingCarried(c, m);
    if majority.Some? && m.step < PRECOMMIT {
      var hash := majority.value;
      SendQcCarries(c, m, Prevote, hash, |m.log|);
      var told := if Leads(c) then SendQc(c, m, Prevote, hash) else m;
      var o := GetQC(m.votes, hash, m.view, Prevote);
      if m.proposal.Some? && o.Got? {
        SaveCarries(c, told, m.proposal.value.t, o.qc, |m.log|);
        OwnVoteCarries(c, Save(told, m.proposal.value.t, o.qc), Precommit, hash, |m.log|);
      }
    }
  }

  lemma CommittingCarries(c: Cfg, m: Machine, view: nat)
    requires m.view == c.view
    ensures var m' := Committing(c, m, view); AllCarry(c, m', |m.log|) && m'.votes == m.votes && m.log <= m'.log
  {
    var majority := MajorityOf(m.votes, view, Precommit);
    NothingCarried(c, m);
    if majority.Some? {
      CertificateIffMajority(m.votes, majority.value, m.view, Precommit);
      var o := GetQC(m.votes, majority.value, m.view, Precommit);
      if o.Got? && m.proposal.Some? {
        SaveCarries(c, m, m.proposal.value.t, o.qc, |m.log|);
        SendQcCarries(c, Save(m, m.proposal.value.t, o.qc), Precommit, majority.value, |m.log|);
      }
    }
  }

  lemma FinalizeCarries(c: Cfg, m: Machine, n: nat)
    requires AllCarry(c, m, n) && m.view == c.view && n <= |m.log|
    ensures AllCarry(c, FinalizeCommit(m), n)
  {
    var m' := FinalizeCommit(m);
    forall j | n <= j < |m'.log|
      ensures Carries(c, m', m'.log[j])
    {
      assert j < |m.log| ==> Carries(c, m, m.log[j]);
    }
  }

  lemma CommitCarries(c: Cfg, m: Machine, view: nat)
    requires m.view == c.view
    ensures AllCarry(c, EnterCommit(c, m, view), |m.log|)
  {
    CommittingCarries(c, m, view);
    var half := Committing(c, m, view).(step := COMMIT, commitView := view);
    assert forall j :: |m.log| <= j < |half.log| ==> Carries(c, Committing(c, m, view), half.log[j]);
    CommittingView(c, m, view);
    FinalizeCarries(c, half, |m.log|);
  }

  lemma CommittingView(c: Cfg, m: Machine, view: nat)
    ensures Committing(c, m, view).view == m.view
  {
  }

  lemma ReactCarries(c: Cfg, m: Machine, v: Vote)
    requires m.view == c.view
    ensures AllCarry(c, React(c, m, v), |m.log|)
  {
    NothingCarried(c, m);
    PreCommitCarries(c, m);
    CommitCarries(c, m, v.view);
  }

  lemma ProposalCarries(c: Cfg, m: Machine, p: Proposal)
    ensures AllCarry(c, SetProposal(c, m, p), |m.log|)
  {
  }

  lemma ProposeCarries(c: Cfg, m: Machine, view: nat)
    ensures AllCarry(c, EnterPropose(c, m, view), |m.log|)
  {
  }

  lemma TimeoutCarries(c: Cfg, m: Machine)
    requires m.votes.view < TWO_64
    ensures AllCarry(c, HandleTimeout(c, m), |m.log|)
  {
    var o := SetViewTo(c.height, m.votes, c.view + 1);
    if o.Some? {
      var m' := m.(view := c.view, step := NEW_VIEW, proposal := if c.view != 0 then None else m.proposal);
      ProposeCarries(c, m'.(votes := o.value), c.view);
    }
  }

  lemma HandleCarries(c: Cfg, m: Machine, msg: Message, peer: KramaID, responded: seq<bool>)
    requires m.view == c.view && Shaped(c.height, m.votes) && |responded| == Total(c.height.roster)
    ensures AllCarry(c, Handle(c, m, msg, peer, responded), |m.log|)
  {
    match msg
    case ProposalMsg(p) => ProposalCarries(c, m, p);
    case VoteMsg(v) =>
      NothingCarried(c, m);
      var o := AddAt(c.height, m.votes, KbftRuns.EventOf(v, responded), peer);
      if o.Done? {
        ReactCarries(c, m.(votes := o.hvs), v);
      }
  }

  lemma StepCarries(c: Cfg, m: Machine, i: Input)
    requires m.view == c.view && Shaped(c.height, m.votes) && m.votes.view < TWO_64 && FittingInput(c, i)
    ensures AllCarry(c, Step(c, m, i), |m.log|)
  {
    NothingCarried(c, m);
    if !m.halted {
      match i
      case Timeout => TimeoutCarries(c, m);
      case FromPeer(msg, peer, responded) => HandleCarries(c, m, msg, peer, responded);
      case FromSelf(responded) =>
        if m.queue != [] {
          HandleCarries(c, m.(queue := m.queue[1..]), m.queue[0], c.self, responded);
        }
    }
  }

  // ---------- over every run ----------

  /** The machine before the step that logged entry `i`, and the machine after it. */
  ghost predicate LoggedAt(c: Cfg, db: Db, inputs: seq<Input>, i: nat, k: nat)
    requires KbftRuns.FittingAll(c, inputs)
  {
    && k < |inputs| && KbftRuns.FittingAll(c, inputs[..k]) && KbftRuns.FittingAll(c, inputs[..k + 1])
    && var before, at := KbftRuns.Run(c, db, inputs[..k]), KbftRuns.Run(c, db, inputs[..k + 1]);
       && FittingInput(c, inputs[k]) && at == Step(c, before, inputs[k])
       && |before.log| <= i < |at.log| && at.log <= KbftRuns.Run(c, db, inputs).log
  }

  lemma LoggedEarlier(c: Cfg, db: Db, inputs: seq<Input>, before: seq<Input>, i: nat, k: nat)
    requires KbftRuns.FittingAll(c, inputs) && inputs != [] && before == inputs[..|inputs| - 1]
    requires KbftRuns.FittingAll(c, before) && LoggedAt(c, db, before, i, k)
    ensures LoggedAt(c, db, inputs, i, k)
  {
    KbftRuns.LastStepProgresses(c, db, inputs);
    assert before[..k] == inputs[..k] && before[..k + 1] == inputs[..k + 1] && before[k] == inputs[k];
  }

  lemma {:induction false} LoggedLast(c: Cfg, db: Db, inputs: seq<Input>, before: seq<Input>, i: nat)
    requires KbftRuns.FittingAll(c, inputs) && inputs != [] && before == inputs[..|inputs| - 1]
    requires KbftRuns.FittingAll(c, before)
    requires |KbftRuns.Run(c, db, before).log| <= i < |KbftRuns.Run(c, db, inputs).log|
    ensures LoggedAt(c, db, inputs, i, |inputs| - 1)
  {
    assert inputs[..|inputs| - 1 + 1] == inputs;
  }

  lemma {:induction false} LoggedSomewhere(c: Cfg, db: Db, inputs: seq<Input>, i: nat) returns (k: nat)
    requires KbftRuns.FittingAll(c, inputs) && i < |KbftRuns.Run(c, db, inputs).log|
    ensures LoggedAt(c, db, inputs, i, k)
    decreases |inputs|
  {
    var before := inputs[..|inputs| - 1];
    if i < |KbftRuns.Run(c, db, before).log| {
      k := LoggedSomewhere(c, db, before, i);
      LoggedEarlier(c, db, inputs, before, i, k);
    } else {
      k := |inputs| - 1;
      LoggedLast(c, db, inputs, before, i);
    }
  }

  /** Everything an instance sends or finalizes carries the votes it had at that moment. */
  lemma EntryCarries(c: Cfg, db: Db, inputs: seq<Input>, i: nat) returns (k: nat)
    requires KbftRuns.FittingAll(c, inputs) && i < |KbftRuns.Run(c, db, inputs).log|
    ensures LoggedAt(c, db, inputs, i, k)
    ensures Carries(c, KbftRuns.Run(c, db, inputs[..k + 1]), KbftRuns.Run(c, db, inputs).log[i])
  {
    k := LoggedSomewhere(c, db, inputs, i);
    var before, at := KbftRuns.Run(c, db, inputs[..k]), KbftRuns.Run(c, db, inputs[..k + 1]);
    KbftRuns.RunInv(c, db, inputs[..k]);
    StepCarries(c, before, inputs[k]);
    assert at.log[i] == KbftRuns.Run(c, db, inputs).log[i];
  }

  // ---------- what set off a finalization ----------

  ghost predicate NoFinal(log: seq<Effect>, n: nat) {
    forall k :: n <= k < |log| ==> !log[k].Finalized?
  }

  lemma ProposalFinalizesNothing(c: Cfg, m: Machine, p: Proposal)
    ensures NoFinal(SetProposal(c, m, p).log, |m.log|)
  {
  }

  lemma TimeoutFinalizesNothing(c: Cfg, m: Machine)
    requires m.votes.view < TWO_64
    ensures NoFinal(HandleTimeout(c, m).log, |m.log|)
  {
  }

  lemma PreCommitFinalizesNothing(c: Cfg, m: Machine, view: nat)
    ensures NoFinal(EnterPreCommit(c, m, view).log, |m.log|)
  {
  }

  lemma ReactFinalizes(c: Cfg, m: Machine, v: Vote)
    requires !NoFinal(React(c, m, v).log, |m.log|)
    ensures v.kind == Precommit && m.step < COMMIT && React(c, m, v).commitView == v.view
    ensures !KbftRuns.IsNil(MajorityOf(m.votes, v.view, Precommit)) && React(c, m, v).step == COMMIT
  {
    PreCommitFinalizesNothing(c, m, v.view);
    if v.kind == Precommit && m.step < COMMIT {
      KbftRuns.CommitStep(c, m, v.view);
      CommitViewIs(c, m, v.view);
    }
  }

  lemma CommitViewIs(c: Cfg, m: Machine, view: nat)
    requires m.step < COMMIT
    ensures EnterCommit(c, m, view).commitView == view
  {
  }

  /** The vote or certificate that was added, and by whom it came. */
  ghost predicate Prompted(c: Cfg, m: Machine, m': Machine, e: Event, peer: KramaID)
    requires Shaped(c.height, m.votes)
  {
    && FittingHere(c.height, e) && e.vote.kind == Precommit && m.step < COMMIT && m'.commitView == e.vote.view
    && (e.QcIn? <==> e.vote.isQC)
    && !KbftRuns.IsNil(MajorityOf(m'.votes, e.vote.view, Precommit))
    && var o := AddAt(c.height, m.votes, e, peer); o.Done? && m'.votes == o.hvs
  }

  lemma HandleFinalizes(c: Cfg, m: Machine, msg: Message, peer: KramaID, responded: seq<bool>)
    requires Shaped(c.height, m.votes) && |responded| == Total(c.height.roster)
    requires !NoFinal(Handle(c, m, msg, peer, responded).log, |m.log|)
    ensures msg.VoteMsg? && Handle(c, m, msg, peer, responded).step == COMMIT
    ensures Prompted(c, m, Handle(c, m, msg, peer, responded), KbftRuns.EventOf(msg.v, responded), peer)
  {
    match msg
    case ProposalMsg(p) => ProposalFinalizesNothing(c, m, p);
    case VoteMsg(v) =>
      var o := AddAt(c.height, m.votes, KbftRuns.EventOf(v, responded), peer);
      if o.Done? {
        ReactFinalizes(c, m.(votes := o.hvs), v);
        KbftRuns.ReactVotes(c, m.(votes := o.hvs), v);
      }
  }

  /** Only a precommit, or a certificate of precommits, makes an instance finalize. */
  lemma StepFinalizes(c: Cfg, m: Machine, i: Input) returns (e: Event, peer: KramaID)
    requires Shaped(c.height, m.votes) && m.votes.view < TWO_64 && FittingInput(c, i)
    requires !NoFinal(Step(c, m, i).log, |m.log|)
    ensures Prompted(c, m, Step(c, m, i), e, peer) && Step(c, m, i).step == COMMIT
    ensures Authenticity.Brings(m, i) == Some(VoteMsg(e.vote))
  {
    match i
    case Timeout =>
      TimeoutFinalizesNothing(c, m);
      assert false;
    case FromPeer(msg, from, responded) =>
      HandleFinalizes(c, m, msg, from, responded);
      e, peer := KbftRuns.EventOf(msg.v, responded), from;
    case FromSelf(responded) =>
      HandleFinalizes(c, m.(queue := m.queue[1..]), m.queue[0], c.self, responded);
      e, peer := KbftRuns.EventOf(m.queue[0].v, responded), c.self;
  }

  // ---------- what a majority's signature signs ----------

  /** The signature of a majority is for its hash, in the vote set's view and kind. */
  ghost predicate Worded(s: Setup, l: Ledger) {
    l.majority.Some? ==> l.majority.value.sig.msg == CanonicalVote(s.kind, s.view, l.majority.value.hash)
  }

  lemma VerifiedWorded(s: Setup, l: Ledger, v: Vote, index: nat, isQc: bool)
    requires ValidSetup(s) && Sized(s, l) && index < Total(s.roster) && Worded(s, l)
    requires v.kind == s.kind && v.view == s.view && v.sig.msg == Canon(v)
    ensures Worded(s, AddVerified(s, l, v, index, isQc).ledger)
  {
  }

  lemma {:induction false} EachWorded(s: Setup, l: Ledger, v: Vote, indices: seq<nat>)
    requires ValidSetup(s) && Sized(s, l) && Below(indices, Total(s.roster)) && Worded(s, l)
    requires v.kind == s.kind && v.view == s.view && v.sig.msg == Canon(v)
    ensures Worded(s, AddEach(s, l, v, indices))
    decreases |indices|
  {
    if indices != [] {
      var n := |indices| - 1;
      EachWorded(s, l, v, indices[..n]);
      VerifiedWorded(s, AddEach(s, l, v, indices[..n]), v, indices[n], true);
    }
  }

  lemma AddWorded(s: Setup, l: Ledger, e: Event)
    requires LedgerOk(s, l) && Fitting(s, e) && Worded(s, l) && e.vote.kind == s.kind && e.vote.view == s.view
    ensures Worded(s, Add(s, l, e).0)
  {
    match e
    case VoteIn(v, responded) =>
      OnlyGenuineAdded(s, responded, l, v);
      if AddVote(s, responded, l, v).0 != l {
        VerifiedWorded(s, l, v, v.signerIndex, false);
      }
    case QcIn(v) =>
      OnlySignedQcAdded(s, l, v);
      if AddQc(s, l, v).1 == Ok(true) {
        EachWorded(s, l, v, TrueIndices(v.signers));
      }
  }

  ghost function WordedFor(c: HeightSetup): (nat, MsgType, Ledger) -> bool {
    (view: nat, kind: MsgType, l: Ledger) => Worded(SetupFor(c, view, kind), l)
  }

  lemma NewViewWorded(c: HeightSetup, view: nat)
    ensures WordedFor(c)(view, Prevote, NewViewVotes(c).prevotes)
    ensures WordedFor(c)(view, Precommit, NewViewVotes(c).precommits)
  {
    assert Worded(SetupFor(c, view, Prevote), NewViewVotes(c).prevotes);
  }

  lemma AddToOpenWorded(c: HeightSetup, h: Hvs, e: Event)
    requires HvsOk(c, h) && Shaped(c, h) && All(h, WordedFor(c))
    requires FittingHere(c, e) && GetVoteSet(h, e.vote.view, e.vote.kind).Some?
    ensures All(AddToOpen(c, h, e).hvs, WordedFor(c))
  {
    var v := e.vote;
    var s := SetupFor(c, v.view, v.kind);
    var l := GetVoteSet(h, v.view, v.kind).value;
    SetOk(h, v.view, v.kind, Sound(c));
    SetOk(h, v.view, v.kind, WordedFor(c));
    AddWorded(s, l, e);
    PutKeeps(h, v.view, v.kind, Add(s, l, e).0, WordedFor(c));
  }

  lemma AddAtWorded(c: HeightSetup, h: Hvs, e: Event, peer: KramaID)
    requires HvsOk(c, h) && Shaped(c, h) && All(h, WordedFor(c)) && FittingHere(c, e) && AddAt(c, h, e, peer).Done?
    ensures All(AddAt(c, h, e, peer).hvs, WordedFor(c))
  {
    var v := e.vote;
    if GetVoteSet(h, v.view, v.kind).Some? {
      AddToOpenWorded(c, h, e);
    } else if v.view !in h.views && v.kind != OtherMsg {
      OpenedShaped(c, h, e, peer);
      NewViewWorded(c, v.view);
      NewViewOk(c, v.view);
      OpenKeeps(c, h, e, peer, WordedFor(c));
      OpenKeeps(c, h, e, peer, Sound(c));
      AddToOpenWorded(c, Opened(c, h, e, peer), e);
    }
  }

  lemma {:induction false} RunWorded(c: Cfg, db: Db, inputs: seq<Input>)
    requires KbftRuns.FittingAll(c, inputs)
    ensures All(KbftRuns.Run(c, db, inputs).votes, WordedFor(c.height))
    decreases |inputs|
  {
    if inputs == [] {
      NewViewWorded(c.height, 0);
    } else {
      var n := |inputs| - 1;
      var m := KbftRuns.Run(c, db, inputs[..n]);
      RunWorded(c, db, inputs[..n]);
      KbftRuns.RunInv(c, db, inputs[..n]);
      KbftRuns.RunKeepsAccounts(c, db, inputs[..n]);
      KbftRuns.StepVotes(c, db, m, inputs[n]);
      FollowWorded(c, m, Step(c, m, inputs[n]).votes);
    }
  }

  lemma FollowWorded(c: Cfg, m: Machine, h: Hvs)
    requires Shaped(c.height, m.votes) && KbftRuns.VotesFollow(c, m, h) && HvsOk(c.height, m.votes)
    requires All(m.votes, WordedFor(c.height))
    ensures All(h, WordedFor(c.height))
  {
    if h.views != m.votes.views {
      var e, peer :| FittingHere(c.height, e) && AddAt(c.height, m.votes, e, peer).Done? &&
                     h == AddAt(c.height, m.votes, e, peer).hvs;
      AddAtWorded(c.height, m.votes, e, peer);
    }
  }

  // ---------- when the certificate of a finalized tesseract passes ----------

  /** A certificate of the vote set's kind and view for `h`, naming its voters, with its majority's signature if any. */
  ghost predicate DrawnFrom(s: Setup, l: Ledger, h: Hash, qc: Qc) {
    && qc.kind == s.kind && qc.view == s.view && qc.hash == h && NamesVoters(l, qc.signers)
    && qc.sig == if l.majority.Some? then l.majority.value.sig
                 else Signature(CanonicalVote(s.kind, s.view, h), multiset{})
  }

  lemma ClipWhole(bits: seq<bool>)
    ensures Clip(bits, |bits|) == bits
  {
  }

  lemma VotersMeet(s: Setup, l: Ledger, signers: seq<bool>)
    requires LedgerOk(s, l) && l.majority.Some? && NamesVoters(l, signers)
    ensures Meets(s.roster, s.quorum, signers)
  {
    var bits := l.majority.value.bits;
    FormedCovered(s, l);
    assert signers == Bits(l.votes);
    MeetsMonotone(s, bits, signers);
  }

  /** With a majority for `h`, the voters meet the thresholds, and the rest is a matter of keys. */
  lemma OwnPassesIff(s: Setup, l: Ledger, h: Hash, qc: Qc)
    requires LedgerOk(s, l) && Worded(s, l) && SuperMajority(l) == Some(h) && DrawnFrom(s, l, h, qc)
    ensures |qc.signers| == Total(s.roster) && Meets(s.roster, s.quorum, qc.signers)
    ensures PassesCheck(s.roster, s.quorum, s.view, qc) <==> multiset(KeysOf(s.roster, qc.signers)) == qc.sig.keys
  {
    VotersMeet(s, l, qc.signers);
    ClipWhole(qc.signers);
  }

  lemma {:induction false} UnsignedCountsNothing(r: Roster, signers: seq<bool>, k: nat)
    requires |signers| == Total(r) && k < |r| && multiset(KeysOf(r, signers)) == multiset{}
    ensures Tally(r, signers, k) == 0
  {
    var keys := KeysOf(r, signers);
    assert |multiset(keys)| == |keys| == |TrueIndices(signers)|;
    forall i | 0 <= i < |signers|
      ensures !signers[i]
    {
      assert i !in TrueIndices(signers);
    }
    TallyNone(r, signers, k);
  }

  /** Without a majority for `h` it does not pass: there is no signature, or one for another hash. */
  lemma ForeignFails(s: Setup, l: Ledger, h: Hash, qc: Qc)
    requires LedgerOk(s, l) && Worded(s, l) && SuperMajority(l) != Some(h) && DrawnFrom(s, l, h, qc)
    ensures |qc.signers| == Total(s.roster) && !PassesCheck(s.roster, s.quorum, s.view, qc)
  {
    ClipWhole(qc.signers);
    if l.majority.None? && PassesCheck(s.roster, s.quorum, s.view, qc) {
      UnsignedCountsNothing(s.roster, qc.signers, |s.roster| - 1);
      assert false;
    }
  }

  /** The own view's precommits at a machine. */
  ghost function Precommits(c: Cfg, m: Machine): Option<Ledger> {
    GetVoteSet(m.votes, c.view, Precommit)
  }

  /** Everybody who is counted for some hash. */
  ghost predicate NamesCounted(l: Ledger, signers: seq<bool>) {
    |signers| == |l.votes| && forall i :: 0 <= i < |signers| ==> (signers[i] <==> exists h :: Counted(l, i, h))
  }

  lemma VotersAreCounted(l: Ledger, signers: seq<bool>)
    requires Partition(l) && NamesVoters(l, signers)
    ensures NamesCounted(l, signers)
  {
    forall i, h | 0 <= i < |signers| && Counted(l, i, h)
      ensures l.votes[i].Some?
    {
      assert CountedAs(l, h);
    }
  }

  /** What is known of a finalization at the moment it happens. */
  ghost predicate FinalizedAt(c: Cfg, m: Machine, t: Tesseract, qc: Qc) {
    && Precommits(c, m).Some?
    && var s, l := SetupFor(c.height, c.view, Precommit), Precommits(c, m).value;
       && LedgerOk(s, l) && Worded(s, l) && DrawnFrom(s, l, HashOf(t), qc)
       && (m.commitView == c.view <==> SuperMajority(l) == Some(HashOf(t)))
  }

  lemma OwnMajorityIff(c: Cfg, db: Db, m: Machine, m': Machine, e: Event, peer: KramaID, t: Tesseract)
    requires KbftRuns.Inv(c, db, m) && KbftRuns.Inv(c, db, m') && Shaped(c.height, m.votes)
    requires Prompted(c, m, m', e, peer) && m'.proposal.Some? && m'.proposal.value.t == t && KbftRuns.Finals(m'.log) > 0
    ensures m'.commitView == c.view <==> MajorityOf(m'.votes, c.view, Precommit) == Some(HashOf(t))
  {
    AddAtExtends(c.height, m.votes, e, peer);
    assert e.vote.view != c.view ==>
        MajorityAt(m'.votes, c.view, Precommit) == MajorityAt(m.votes, c.view, Precommit);
  }

  /** The step that logged a finalization, and what the votes were then. */
  lemma FinalizedMoment(c: Cfg, db: Db, inputs: seq<Input>, i: nat) returns (k: nat, e: Event, peer: KramaID)
    requires KbftRuns.FittingAll(c, inputs) && i < |KbftRuns.Run(c, db, inputs).log|
    requires KbftRuns.Run(c, db, inputs).log[i].Finalized?
    ensures LoggedAt(c, db, inputs, i, k)
    ensures var before, at := KbftRuns.Run(c, db, inputs[..k]), KbftRuns.Run(c, db, inputs[..k + 1]);
            && Prompted(c, before, at, e, peer) && Authenticity.Brings(before, inputs[k]) == Some(VoteMsg(e.vote))
            && FinalizedAt(c, at, at.log[i].t, at.log[i].qc) && at.commitView == KbftRuns.Run(c, db, inputs).commitView
  {
    k := EntryCarries(c, db, inputs, i);
    var before, at := KbftRuns.Run(c, db, inputs[..k]), KbftRuns.Run(c, db, inputs[..k + 1]);
    assert at.log[i] == KbftRuns.Run(c, db, inputs).log[i];
    e, peer := StepFinalizes(c, before, inputs[k]);
    KbftRuns.RunInv(c, db, inputs[..k]);
    KbftRuns.RunInv(c, db, inputs[..k + 1]);
    KbftRuns.RunProgresses(c, db, inputs, k + 1);
    EntryIsFinal(c, db, at, i);
    OwnMajorityIff(c, db, before, at, e, peer, at.log[i].t);
    KbftRuns.RunKeepsAccounts(c, db, inputs[..k + 1]);
    RunWorded(c, db, inputs[..k + 1]);
    SetOk(at.votes, c.view, Precommit, Sound(c.height));
    SetOk(at.votes, c.view, Precommit, WordedFor(c.height));
  }

  lemma EntryIsFinal(c: Cfg, db: Db, m: Machine, i: nat)
    requires KbftRuns.Inv(c, db, m) && i < |m.log| && m.log[i].Finalized?
    ensures m.proposal.Some? && m.log[i].t == m.proposal.value.t && KbftRuns.Finals(m.log) > 0
    ensures var qc := m.log[i].qc; qc.kind == Precommit && qc.view == c.view && qc.hash == HashOf(m.log[i].t)
  {
    assert KbftRuns.EntryOk(c, m.proposal, m.log, i);
    KbftRuns.FinalOne(m.log, i);
  }

  /** Over every run: the certificate of a finalized tesseract names exactly the validators counted in the own view's
      precommits at that moment. Committed on the own view, they meet every threshold, the signature is the majority's,
      and it passes the check exactly when the keys that signed are the keys of all of them. Committed on the votes of
      another view, it never passes. */
  lemma FinalizedQcPassesIff(c: Cfg, db: Db, inputs: seq<Input>, i: nat) returns (k: nat)
    requires KbftRuns.FittingAll(c, inputs) && i < |KbftRuns.Run(c, db, inputs).log|
    requires KbftRuns.Run(c, db, inputs).log[i].Finalized?
    ensures LoggedAt(c, db, inputs, i, k)
    ensures var m, at := KbftRuns.Run(c, db, inputs), KbftRuns.Run(c, db, inputs[..k + 1]);
            var r, qc := c.height.roster, m.log[i].qc;
            && |qc.signers| == Total(r) && Precommits(c, at).Some? && NamesCounted(Precommits(c, at).value, qc.signers)
            && (m.commitView == c.view ==>
                  && ForMajority(Precommits(c, at).value, HashOf(m.log[i].t), qc.signers, qc.sig)
                  && Meets(r, c.height.quorum, qc.signers))
            && (PassesCheck(r, c.height.quorum, c.view, qc) <==>
                  m.commitView == c.view && multiset(KeysOf(r, qc.signers)) == qc.sig.keys)
  {
    var e, peer;
    k, e, peer := FinalizedMoment(c, db, inputs, i);
    var at := KbftRuns.Run(c, db, inputs[..k + 1]);
    assert at.log[i] == KbftRuns.Run(c, db, inputs).log[i];
    var s, l := SetupFor(c.height, c.view, Precommit), Precommits(c, at).value;
    var h, qc := HashOf(at.log[i].t), at.log[i].qc;
    VotersAreCounted(l, qc.signers);
    if at.commitView == c.view {
      OwnPassesIff(s, l, h, qc);
    } else {
      ForeignFails(s, l, h, qc);
    }
  }

  // ---------- the two ways a majority is completed ----------

  /** The own view's vote set before the vote or certificate that completed its majority. */
  lemma OwnAdded(c: Cfg, db: Db, m: Machine, m': Machine, e: Event, peer: KramaID,
                 ok: (nat, MsgType, Ledger) -> bool)
    returns (l: Ledger)
    requires KbftRuns.Inv(c, db, m) && HvsOk(c.height, m.votes) && Shaped(c.height, m.votes)
    requires Prompted(c, m, m', e, peer) && e.vote.view == c.view && Precommits(c, m').Some? && All(m.votes, ok)
    requires ok(c.view, Precommit, NewViewVotes(c.height).precommits)
    ensures var s := SetupFor(c.height, c.view, Precommit);
            && LedgerOk(s, l) && l.majority.None? && Fitting(s, e) && ok(c.view, Precommit, l)
            && Precommits(c, m') == Some(Add(s, l, e).0)
  {
    AddAtExtends(c.height, m.votes, e, peer);
    if Precommits(c, m).Some? {
      l := Precommits(c, m).value;
      SetOk(m.votes, c.view, Precommit, Sound(c.height));
      SetOk(m.votes, c.view, Precommit, ok);
    } else {
      l := NewViewVotes(c.height).precommits;
      NewViewOk(c.height, c.view);
    }
  }

  /** Completed by a certificate: it passes exactly when nobody but the signers of that certificate had voted. */
  lemma CertificatePassesIff(s: Setup, l: Ledger, v: Vote, h: Hash, qc: Qc)
    requires LedgerOk(s, l) && l.majority.None? && v.kind == s.kind && v.view == s.view
    requires var after := AddQc(s, l, v).0;
             Worded(s, after) && SuperMajority(after) == Some(h) && DrawnFrom(s, after, h, qc)
    ensures PassesCheck(s.roster, s.quorum, s.view, qc) <==> qc.signers == Clip(v.signers, Total(s.roster))
  {
    var after := AddQc(s, l, v).0;
    OnlySignedQcAdded(s, l, v);
    QcKeeps(s, l, v);
    QcMajority(s, l, v, TrueIndices(v.signers));
    OwnPassesIff(s, after, h, qc);
    var named := Clip(v.signers, Total(s.roster));
    SignersOfClip(s.roster, v.signers);
    FewerSigners(named, qc.signers);
    assert |multiset(KeysOf(s.roster, named))| == |TrueIndices(named)|;
    assert |multiset(KeysOf(s.roster, qc.signers))| == |TrueIndices(qc.signers)|;
  }

  lemma {:induction false} SignersOfClip(r: Roster, signers: seq<bool>)
    requires Below(TrueIndices(signers), Total(r))
    ensures KeysOf(r, Clip(signers, Total(r))) == KeysAt(r, TrueIndices(signers))
  {
    MarkedIsClip(Total(r), signers);
    TrueIndicesOfMarked(Total(r), TrueIndices(signers));
  }

  /** Completed by a vote, after votes alone: it passes exactly when everybody who had voted had voted for it. */
  lemma VotePassesIff(s: Setup, l: Ledger, v: Vote, responded: seq<bool>, h: Hash, qc: Qc)
    requires LedgerOk(s, l) && SinglySigned(s, l) && l.majority.None? && |responded| == Total(s.roster)
    requires var after := AddVote(s, responded, l, v).0;
             Worded(s, after) && SuperMajority(after) == Some(h) && DrawnFrom(s, after, h, qc)
    ensures PassesCheck(s.roster, s.quorum, s.view, qc) <==> AllFor(AddVote(s, responded, l, v).0, h)
  {
    var after := AddVote(s, responded, l, v).0;
    VoteKeeps(s, l, v, responded);
    VoteKeepsSingleSignatures(s, l, v, responded);
    VoteAddsVoters(s, l, v, responded);
    OwnPassesIff(s, after, h, qc);
    AllForIff(s, after);
    assert qc.signers == Bits(after.votes);
    BroadcastVerifiesIffStored(s, after);
  }

  // ---------- runs without certificates ----------

  ghost function SingleFor(c: HeightSetup): (nat, MsgType, Ledger) -> bool {
    (view: nat, kind: MsgType, l: Ledger) =>
      Sized(SetupFor(c, view, kind), l) && SinglySigned(SetupFor(c, view, kind), l)
  }

  lemma NewViewSingle(c: HeightSetup, view: nat)
    ensures SingleFor(c)(view, Prevote, NewViewVotes(c).prevotes)
    ensures SingleFor(c)(view, Precommit, NewViewVotes(c).precommits)
  {
    assert SinglySigned(SetupFor(c, view, Prevote), NewViewVotes(c).prevotes);
    assert SinglySigned(SetupFor(c, view, Precommit), NewViewVotes(c).precommits);
  }

  lemma AddToOpenSingle(c: HeightSetup, h: Hvs, e: Event)
    requires HvsOk(c, h) && Shaped(c, h) && All(h, SingleFor(c)) && e.VoteIn?
    requires FittingHere(c, e) && GetVoteSet(h, e.vote.view, e.vote.kind).Some?
    ensures All(AddToOpen(c, h, e).hvs, SingleFor(c))
  {
    var v := e.vote;
    var s := SetupFor(c, v.view, v.kind);
    var l := GetVoteSet(h, v.view, v.kind).value;
    SetOk(h, v.view, v.kind, Sound(c));
    SetOk(h, v.view, v.kind, SingleFor(c));
    VoteKeepsSingleSignatures(s, l, v, e.responded);
    PutKeeps(h, v.view, v.kind, Add(s, l, e).0, SingleFor(c));
  }

  lemma AddAtSingle(c: HeightSetup, h: Hvs, e: Event, peer: KramaID)
    requires HvsOk(c, h) && Shaped(c, h) && All(h, SingleFor(c)) && e.VoteIn?
    requires FittingHere(c, e) && AddAt(c, h, e, peer).Done?
    ensures All(AddAt(c, h, e, peer).hvs, SingleFor(c))
  {
    var v := e.vote;
    if GetVoteSet(h, v.view, v.kind).Some? {
      AddToOpenSingle(c, h, e);
    } else if v.view !in h.views && v.kind != OtherMsg {
      OpenedShaped(c, h, e, peer);
      NewViewSingle(c, v.view);
      NewViewOk(c, v.view);
      OpenKeeps(c, h, e, peer, SingleFor(c));
      OpenKeeps(c, h, e, peer, Sound(c));
      AddToOpenSingle(c, Opened(c, h, e, peer), e);
    }
  }

  lemma HandleSingle(c: Cfg, m: Machine, msg: Message, peer: KramaID, responded: seq<bool>)
    requires HvsOk(c.height, m.votes) && Shaped(c.height, m.votes) && |responded| == Total(c.height.roster)
    requires All(m.votes, SingleFor(c.height)) && (msg.VoteMsg? && msg.v.isQC ==> peer != c.operator)
    ensures All(Handle(c, m, msg, peer, responded).votes, SingleFor(c.height))
  {
    if msg.VoteMsg? && !msg.v.isQC {
      var o := AddAt(c.height, m.votes, VoteIn(msg.v, responded), peer);
      if o.Done? {
        AddAtSingle(c.height, m.votes, VoteIn(msg.v, responded), peer);
        KbftRuns.ReactVotes(c, m.(votes := o.hvs), msg.v);
      }
    }
  }

  lemma SetViewSingle(c: HeightSetup, h: Hvs, next: nat)
    requires All(h, SingleFor(c)) && h.view < TWO_64
    ensures SetViewTo(c, h, next).Some? ==> All(SetViewTo(c, h, next).value, SingleFor(c))
  {
    forall w: nat
      ensures SingleFor(c)(w, Prevote, NewViewVotes(c).prevotes)
      ensures SingleFor(c)(w, Precommit, NewViewVotes(c).precommits)
    {
      NewViewSingle(c, w);
    }
    assert All(Hvs(0, h.views, map[]), SingleFor(c));
    WithViewsKeeps(c, h.views, NextRound(h), next + 1, SingleFor(c));
  }

  /** The input is no certificate that the instance would take: those come from the operator. */
  predicate NoCertificate(c: Cfg, i: Input) {
    i.FromPeer? && i.msg.VoteMsg? && i.msg.v.isQC ==> i.peer != c.operator
  }

  lemma StepSingle(c: Cfg, m: Machine, i: Input)
    requires ValidCfg(c) && HvsOk(c.height, m.votes) && Shaped(c.height, m.votes) && m.votes.view < TWO_64
    requires FittingInput(c, i) && NoCertificate(c, i)
    requires All(m.votes, SingleFor(c.height)) && Authenticity.Waiting(c, m)
    ensures All(Step(c, m, i).votes, SingleFor(c.height))
  {
    if !m.halted {
      match i
      case Timeout =>
        KbftRuns.TimeoutVotes(c, m);
        SetViewSingle(c.height, m.votes, c.view + 1);
      case FromPeer(msg, peer, responded) =>
        HandleSingle(c, m, msg, peer, responded);
      case FromSelf(responded) =>
        if m.queue != [] {
          assert Authenticity.Pending(c, m.log, m.queue[0]);
          HandleSingle(c, m.(queue := m.queue[1..]), m.queue[0], c.self, responded);
        }
    }
  }

  lemma {:induction false} RunSingle(c: Cfg, db: Db, inputs: seq<Input>)
    requires KbftRuns.FittingAll(c, inputs) && forall j :: 0 <= j < |inputs| ==> NoCertificate(c, inputs[j])
    ensures All(KbftRuns.Run(c, db, inputs).votes, SingleFor(c.height))
    ensures Authenticity.Waiting(c, KbftRuns.Run(c, db, inputs))
    decreases |inputs|
  {
    if inputs == [] {
      NewViewSingle(c.height, 0);
    } else {
      var n := |inputs| - 1;
      var m := KbftRuns.Run(c, db, inputs[..n]);
      RunSingle(c, db, inputs[..n]);
      KbftRuns.RunKeepsAccounts(c, db, inputs[..n]);
      StepSingle(c, m, inputs[n]);
      Authenticity.StepWaits(c, m, inputs[n]);
    }
  }

  // ---------- the exact conditions ----------

  lemma AfterCertificate(c: Cfg, db: Db, m: Machine, at: Machine, e: Event, peer: KramaID, t: Tesseract, qc: Qc)
    requires KbftRuns.Inv(c, db, m) && HvsOk(c.height, m.votes) && Shaped(c.height, m.votes)
    requires Prompted(c, m, at, e, peer) && e.QcIn? && FinalizedAt(c, at, t, qc) && at.commitView == c.view
    ensures PassesCheck(c.height.roster, c.height.quorum, c.view, qc) <==>
            qc.signers == Clip(e.vote.signers, Total(c.height.roster))
  {
    NewViewOk(c.height, c.view);
    var l := OwnAdded(c, db, m, at, e, peer, Sound(c.height));
    CertificatePassesIff(SetupFor(c.height, c.view, Precommit), l, e.vote, HashOf(t), qc);
  }

  lemma AfterVotes(c: Cfg, db: Db, m: Machine, at: Machine, e: Event, peer: KramaID, t: Tesseract, qc: Qc)
    requires KbftRuns.Inv(c, db, m) && HvsOk(c.height, m.votes) && Shaped(c.height, m.votes)
    requires Prompted(c, m, at, e, peer) && e.VoteIn? && FinalizedAt(c, at, t, qc) && at.commitView == c.view
    requires All(m.votes, SingleFor(c.height))
    ensures PassesCheck(c.height.roster, c.height.quorum, c.view, qc) <==> AllFor(Precommits(c, at).value, HashOf(t))
  {
    NewViewSingle(c.height, c.view);
    var l := OwnAdded(c, db, m, at, e, peer, SingleFor(c.height));
    VotePassesIff(SetupFor(c.height, c.view, Precommit), l, e.vote, e.responded, HashOf(t), qc);
  }

  /** The certificate of a finalized tesseract that was committed on the own view passes the check exactly when: nobody
      but the signers of the operator's certificate had precommitted, if that completed the majority; and everybody who
      had precommitted had precommitted this tesseract, if no certificate had been taken. */
  lemma FinalizedQcExact(c: Cfg, db: Db, inputs: seq<Input>, i: nat) returns (k: nat, v: Vote)
    requires KbftRuns.FittingAll(c, inputs) && i < |KbftRuns.Run(c, db, inputs).log|
    requires KbftRuns.Run(c, db, inputs).log[i].Finalized? && KbftRuns.Run(c, db, inputs).commitView == c.view
    ensures LoggedAt(c, db, inputs, i, k)
    ensures Authenticity.Brings(KbftRuns.Run(c, db, inputs[..k]), inputs[k]) == Some(VoteMsg(v))
    ensures var at := KbftRuns.Run(c, db, inputs[..k + 1]);
            var r, t, qc := c.height.roster, at.log[i].t, at.log[i].qc;
            && Precommits(c, at).Some? && v.kind == Precommit && v.view == c.view
            && (v.isQC ==>
                  (PassesCheck(r, c.height.quorum, c.view, qc) <==> qc.signers == Clip(v.signers, Total(r))))
            && (!v.isQC && (forall j :: 0 <= j <= k ==> NoCertificate(c, inputs[j])) ==>
                  (PassesCheck(r, c.height.quorum, c.view, qc) <==> AllFor(Precommits(c, at).value, HashOf(t))))
  {
    var e, peer;
    k, e, peer := FinalizedMoment(c, db, inputs, i);
    v := e.vote;
    var m, at := KbftRuns.Run(c, db, inputs[..k]), KbftRuns.Run(c, db, inputs[..k + 1]);
    KbftRuns.RunInv(c, db, inputs[..k]);
    KbftRuns.RunKeepsAccounts(c, db, inputs[..k]);
    if v.isQC {
      AfterCertificate(c, db, m, at, e, peer, at.log[i].t, at.log[i].qc);
    } else if forall j :: 0 <= j <= k ==> NoCertificate(c, inputs[j]) {
      RunSingle(c, db, inputs[..k]);
      AfterVotes(c, db, m, at, e, peer, at.log[i].t, at.log[i].qc);
    }
  }
}
