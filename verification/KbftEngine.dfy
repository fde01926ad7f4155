/** The KBFT instance as an object: guarded methods that update its fields in place, proved against the step machine. */
module KbftEngine {
  import opened Types
  import opened Safety
  import opened Rosters
  import opened Ledgers
  import opened LedgerRuns
  import opened HeightVotes
  import opened Kbft
  import KbftRuns

  /** The machine after a vote; a panic for a vote of unknown kind leaves the view behind that was opened for it. */
  ghost function LeftBy(c: Cfg, m: Machine, v: Vote, peer: KramaID, responded: seq<bool>): Machine
    requires Shaped(c.height, m.votes) && |responded| == Total(c.height.roster)
  {
    var m' := TakeVote(c, m, v, peer, responded);
    var e := KbftRuns.EventOf(v, responded);
    var ignored := v.heights != c.height.heights || (v.isQC && c.operator != peer);
    if ignored || AddAt(c.height, m.votes, e, peer).Done? then m'
    else m'.(votes := AfterPanic(c.height, m.votes, e, peer))
  }

  class KBFT {
    const cfg: Cfg
    const votes: HeightVoteSet
    var view: nat
    var step: nat
    var proposal: Option<Proposal>
    var commitView: nat
    var selfMessages: seq<Message>
    var log: seq<Effect>
    var db: Db
    var halted: bool

    ghost function Value(): Machine
      reads this, votes
    {
      Machine(view, step, proposal, votes.Value(), commitView, selfMessages, log, db, halted)
    }

    ghost predicate Valid()
      reads this, votes
    {
      votes.setup == cfg.height && Shaped(cfg.height, votes.Value()) && votes.view < TWO_64
    }

    constructor (cfg: Cfg, db: Db)
      requires ValidCfg(cfg)
      ensures Valid() && fresh(votes) && this.cfg == cfg && Value() == Init(cfg, db)
    {
      this.cfg := cfg;
      votes := new HeightVoteSet(cfg.height);
      view, step, proposal, commitView := cfg.view, NEW_HEIGHT, None, 0;
      selfMessages, log := [], [];
      this.db := db;
      halted := false;
      new;
      OkIsShaped(cfg.height, votes.Value());
    }

    method Emit(internal: bool, msg: Message)
      modifies this
      ensures Value() == Post(old(Value()), internal, msg)
    {
      if internal {
        selfMessages := selfMessages + [msg];
        log := log + [Queued(msg)];
      } else {
        log := log + [Sent(msg)];
      }
    }

    method CastVote(kind: MsgType, hash: Hash)
      modifies this
      ensures Value() == SendVote(cfg, old(Value()), kind, hash)
    {
      if cfg.responded && cfg.index >= 0 {
        Emit(cfg.operator == cfg.self, VoteMsg(OwnVote(cfg, view, kind, hash)));
      }
    }

    method CastQc(kind: MsgType, hash: Hash)
      modifies this
      ensures Value() == SendQc(cfg, old(Value()), kind, hash)
    {
      var l := votes.Get(view, kind);
      if l.None? {
        halted := true;
        return;
      }
      var sig := SigOf(l.value, CanonicalVote(kind, view, hash));
      Emit(false, VoteMsg(Vote(kind, true, view, 0, cfg.height.heights, hash, Bits(l.value.votes), sig)));
    }

    method UpdateSafetyInfo(t: Tesseract, qc: Qc)
      modifies this
      ensures Value() == Save(old(Value()), t, qc)
    {
      db := Persist(db, t, qc);
      log := log + [Persisted(t, qc)];
    }

    method EnterPrevote(v: nat)
      modifies this
      ensures Value() == Kbft.EnterPrevote(cfg, old(Value()), v)
    {
      if view > v || (view == v && step >= PREVOTE) {
        return;
      }
      if proposal.None? {
        CastVote(Prevote, NilHash);
      } else {
        CastVote(Prevote, HashOf(proposal.value.t));
      }
      view, step := v, PREVOTE;
    }

    method EnterPropose(v: nat)
      modifies this
      ensures Value() == Kbft.EnterPropose(cfg, old(Value()), v)
    {
      if view > v || (view == v && step >= PROPOSE) {
        return;
      }
      if cfg.operator == cfg.self {
        Emit(true, ProposalMsg(cfg.proposal));
      }
      view, step := v, PROPOSE;
      if proposal.Some? {
        EnterPrevote(view);
      }
    }

    method EnterNewView(v: nat)
      requires Valid() && v + 2 < TWO_64
      modifies this, votes
      ensures Value() == Kbft.EnterNewView(cfg, old(Value()), v)
    {
      if v < view || (view == v && step != NEW_HEIGHT) {
        return;
      }
      view, step := v, NEW_VIEW;
      if v != 0 {
        proposal := None;
      }
      var panicked := votes.SetView(v + 1);
      if panicked {
        halted := true;
        return;
      }
      EnterPropose(v);
    }

    method HandleTimeout()
      requires Valid() && ValidCfg(cfg)
      modifies this, votes
      ensures Value() == Kbft.HandleTimeout(cfg, old(Value()))
    {
      if view > cfg.view || (cfg.view == view && NEW_HEIGHT < step) {
        return;
      }
      EnterNewView(cfg.view);
    }

    method SetProposal(p: Proposal)
      modifies this
      ensures Value() == Kbft.SetProposal(cfg, old(Value()), p)
    {
      if proposal.Some? || p.t.heights != cfg.height.heights || p.view != view {
        return;
      }
      proposal := Some(p);
      if cfg.operator == cfg.self {
        Emit(false, ProposalMsg(p));
      }
      if step <= PROPOSE {
        EnterPrevote(view);
      }
    }

    /** The part of EnterPreCommit before its deferred step change. */
    method LockAndVote(v: nat)
      modifies this
      ensures Value() == Precommitting(cfg, old(Value()), v)
    {
      var majority := votes.Majority(v, Prevote);
      if majority.None? {
        return;
      }
      var hash := majority.value;
      if cfg.operator == cfg.self {
        CastQc(Prevote, hash);
      }
      if halted || proposal.None? {
        halted := true;
        return;
      }
      if HashOf(proposal.value.t) != hash {
        return;
      }
      var o := votes.Certificate(hash, view, Prevote);
      match o
      case QcPanic => halted := true;
      case Missing(_) =>
      case Got(qc) =>
        UpdateSafetyInfo(proposal.value.t, qc);
        CastVote(Precommit, hash);
    }

    method EnterPreCommit(v: nat)
      modifies this
      ensures Value() == Kbft.EnterPreCommit(cfg, old(Value()), v)
    {
      if view > v || (view == v && step >= PRECOMMIT) {
        return;
      }
      LockAndVote(v);
      view, step := v, PRECOMMIT;
    }

    /** The part of EnterCommit before its deferred finalization. */
    method RecordCommit(v: nat)
      modifies this
      ensures Value() == Committing(cfg, old(Value()), v)
    {
      var majority := votes.Majority(v, Precommit);
      if majority.None? {
        halted := true;
        return;
      }
      var o := votes.Certificate(majority.value, view, Precommit);
      match o
      case QcPanic => halted := true;
      case Missing(_) =>
      case Got(qc) =>
        if proposal.None? {
          halted := true;
          return;
        }
        UpdateSafetyInfo(proposal.value.t, qc);
        if cfg.operator == cfg.self {
          CastQc(Precommit, majority.value);
        }
    }

    method FinalizeCommit()
      modifies this
      ensures Value() == Kbft.FinalizeCommit(old(Value()))
    {
      var majority := votes.Majority(commitView, Precommit);
      if majority.None? || majority.value == NilHash {
        return;
      }
      if proposal.None? || HashOf(proposal.value.t) != majority.value {
        return;
      }
      if step != COMMIT {
        return;
      }
      var t := proposal.value.t;
      var l := votes.Get(view, Precommit);
      if l.None? {
        halted := true;
        return;
      }
      var sig := SigOf(l.value, CanonicalVote(Precommit, view, HashOf(t)));
      var qc := Qc(Precommit, view, HashOf(t), Bits(l.value.votes), sig);
      db := Finalize(db, t, qc);
      log := log + [Finalized(t, qc)];
    }

    method EnterCommit(v: nat)
      modifies this
      ensures Value() == Kbft.EnterCommit(cfg, old(Value()), v)
    {
      if step >= COMMIT {
        return;
      }
      RecordCommit(v);
      step, commitView := COMMIT, v;
      FinalizeCommit();
    }

    method AfterVote(v: Vote)
      modifies this
      ensures Value() == React(cfg, old(Value()), v)
    {
      var majority := votes.Majority(v.view, v.kind);
      if v.kind == Prevote {
        if view == v.view && step >= PREVOTE && majority.Some? && (proposal.Some? || majority.value != NilHash) {
          EnterPreCommit(v.view);
        }
      } else if v.kind == Precommit {
        if majority.Some? && majority.value != NilHash {
          EnterCommit(v.view);
        }
      }
    }

    method AddVote(v: Vote, peer: KramaID, responded: seq<bool>)
      requires Valid() && |responded| == Total(cfg.height.roster)
      modifies this, votes
      ensures Value() == LeftBy(cfg, old(Value()), v, peer, responded)
    {
      if v.heights != cfg.height.heights || (v.isQC && cfg.operator != peer) {
        return;
      }
      var added;
      if v.isQC {
        added := votes.AddQC(v, peer);
      } else {
        added := votes.AddVote(v, responded, peer);
      }
      if added.None? {
        halted := true;
      } else if added.value == Ok(true) {
        AfterVote(v);
      }
    }

    method HandleMsg(msg: Message, peer: KramaID, responded: seq<bool>)
      requires Valid() && |responded| == Total(cfg.height.roster)
      modifies this, votes
      ensures match msg
              case ProposalMsg(p) => Value() == Kbft.SetProposal(cfg, old(Value()), p)
              case VoteMsg(v) => Value() == LeftBy(cfg, old(Value()), v, peer, responded)
    {
      match msg
      case ProposalMsg(p) => SetProposal(p);
      case VoteMsg(v) => AddVote(v, peer, responded);
    }

    method Take(i: Input)
      requires Valid() && ValidCfg(cfg) && FittingInput(cfg, i) && !halted
      modifies this, votes
      ensures var m := Step(cfg, old(Value()), i); Value() == m || (m.halted && halted)
    {
      match i
      case Timeout => HandleTimeout();
      case FromPeer(msg, peer, responded) => HandleMsg(msg, peer, responded);
      case FromSelf(responded) =>
        if selfMessages != [] {
          var msg := selfMessages[0];
          selfMessages := selfMessages[1..];
          HandleMsg(msg, cfg.self, responded);
        }
    }

    /** The instance is where the machine's run is, or has panicked with it. */
    ghost predicate Follows(db0: Db, inputs: seq<Input>)
      requires KbftRuns.FittingAll(cfg, inputs)
      reads this, votes
    {
      var m := KbftRuns.Run(cfg, db0, inputs);
      votes.setup == cfg.height && halted == m.halted && (!halted ==> Value() == m)
    }

    method TakeNext(ghost db0: Db, inputs: seq<Input>, k: nat)
      requires k < |inputs| && KbftRuns.FittingAll(cfg, inputs) && Follows(db0, inputs[..k]) && !halted
      modifies this, votes
      ensures Follows(db0, inputs[..k + 1])
    {
      assert inputs[..k + 1][..k] == inputs[..k];
      Take(inputs[k]);
    }

    /** The message loop of a new instance; it ends early only by a panic. */
    method Handler(inputs: seq<Input>)
      requires votes.setup == cfg.height && KbftRuns.FittingAll(cfg, inputs) && Value() == Init(cfg, db)
      modifies this, votes
      ensures Follows(old(db), inputs)
      ensures !halted ==> KbftRuns.Promises(cfg, old(db), Value())
    {
      ghost var db0 := db;
      var k := 0;
      assert inputs[..0] == [];
      while k < |inputs| && !halted
        invariant 0 <= k <= |inputs| && Follows(db0, inputs[..k])
      {
        TakeNext(db0, inputs, k);
        k := k + 1;
      }
      KbftRuns.RunProgresses(cfg, db0, inputs, k);
      assert k == |inputs| ==> inputs[..k] == inputs;
      KbftRuns.RunInv(cfg, db0, inputs);
      KbftRuns.InvPromises(cfg, db0, KbftRuns.Run(cfg, db0, inputs));
    }
  }
}
