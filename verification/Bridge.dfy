/** How KBFT instances take part in the protocol: their runs, with whatever the other nodes do, are protocol runs. */
module Bridge {
  import opened Types
  import opened Safety
  import opened Rosters
  import opened Ledgers
  import opened LedgerRuns
  import opened QuorumCerts
  import opened HeightVotes
  import opened Kbft
  import opened Authenticity
  import KbftRuns
  import P = Protocol

  // ---------- majorities are certificates ----------

  /** Every participant that governs `t` has its context seated in the committee, with that context's threshold. */
  ghost predicate Seated(cfg: P.Config, r: Roster, quorum: seq<nat>, t: Tesseract)
    requires |quorum| == |r|
  {
    Proper(r) && forall p :: p in P.Governed(cfg, t) ==>
      exists k :: 0 <= k < |r| && Ids(r[k]) == cfg.contexts[p] && quorum[k] >= QuorumOf(|cfg.contexts[p]|)
  }

  /** The committee of a proposal as it is convened: one position per participant, in the order of `addrs`, with the
      participant's context and its size, and the random set last. */
  ghost predicate Convened(cfg: P.Config, addrs: seq<Address>, r: Roster, sizes: seq<nat>, excluded: seq<bool>,
                           t: Tesseract) {
    && |r| == |sizes| == |excluded| + 1 == |addrs| + 1 && Proper(r) && (forall a :: a in t.heights ==> a in addrs)
    && forall k :: 0 <= k < |addrs| ==>
         && (excluded[k] <==> addrs[k] in t.excluded) && sizes[k] == |r[k]|
         && (addrs[k] in cfg.contexts ==> Ids(r[k]) == cfg.contexts[addrs[k]])
  }

  /** The thresholds that the cluster state computes seat every governed context. */
  lemma ThresholdsSeat(cfg: P.Config, addrs: seq<Address>, r: Roster, sizes: seq<nat>, excluded: seq<bool>,
                       t: Tesseract)
    requires P.ValidConfig(cfg) && Convened(cfg, addrs, r, sizes, excluded, t)
    ensures Seated(cfg, r, Thresholds(sizes, excluded), t)
  {
    var quorum := Thresholds(sizes, excluded);
    forall p | p in P.Governed(cfg, t)
      ensures exists k :: 0 <= k < |r| && Ids(r[k]) == cfg.contexts[p] && quorum[k] >= QuorumOf(|cfg.contexts[p]|)
    {
      assert p in addrs;
      var k :| 0 <= k < |addrs| && addrs[k] == p;
      UniqueSize(r[k]);
      ThresholdsAre(sizes, excluded, k);
      QuorumsOverlap(sizes[k]);
      assert quorum[k] >= QuorumOf(|cfg.contexts[p]|);
    }
  }

  /** Counted by their first indices, the signers reach the threshold of every governed context. */
  ghost predicate Recounted(cfg: P.Config, r: Roster, bits: seq<bool>, t: Tesseract)
    requires |bits| <= Total(r)
  {
    forall p, k :: p in P.Governed(cfg, t) && 0 <= k < |r| && Ids(r[k]) == cfg.contexts[p] ==>
      Tally(r, Firsts(r, bits), k) >= QuorumOf(|cfg.contexts[p]|)
  }

  /** The ballots behind a list of signers. */
  ghost function SignedBallots(r: Roster, bits: seq<bool>, msg: CanonicalVote): set<P.Ballot>
    requires |bits| <= Total(r)
  {
    set i | 0 <= i < |bits| && bits[i] :: P.Ballot(At(r, i).id, msg.kind, msg.view, msg.hash)
  }

  lemma SignersAreVoters(r: Roster, bits: seq<bool>, msg: CanonicalVote, ctx: set<KramaID>)
    requires |bits| <= Total(r)
    ensures P.Voters(SignedBallots(r, bits, msg), ctx, msg.kind, msg.view, msg.hash) == SignerIds(r, bits) * ctx
  {
    var ballots := SignedBallots(r, bits, msg);
    forall n | n in SignerIds(r, bits)
      ensures P.Ballot(n, msg.kind, msg.view, msg.hash) in ballots
    {
      var i :| 0 <= i < |bits| && bits[i] && At(r, i).id == n;
    }
  }

  /** Signers that meet the thresholds, none of them with two indices, still reach them when counted by first indices.
      */
  lemma OnceIsRecounted(cfg: P.Config, r: Roster, quorum: seq<nat>, bits: seq<bool>, t: Tesseract)
    requires |quorum| == |r| && |bits| <= Total(r) && SignsOnce(r, bits) && Meets(r, quorum, bits)
    requires Seated(cfg, r, quorum, t)
    ensures Recounted(cfg, r, bits, t)
  {
    forall p, k | p in P.Governed(cfg, t) && 0 <= k < |r| && Ids(r[k]) == cfg.contexts[p]
      ensures Tally(r, Firsts(r, bits), k) >= QuorumOf(|cfg.contexts[p]|)
    {
      var l :| 0 <= l < |r| && Ids(r[l]) == cfg.contexts[p] && quorum[l] >= QuorumOf(|cfg.contexts[p]|);
      TallyAtMostHeads(r, bits, l);
      FirstsCountHeads(r, bits, k);
    }
  }

  /** The signers of `t` are a quorum of every governed context if and only if they reach the thresholds counted by
      their first indices; signers that meet the committee's thresholds do, unless a node signed with two indices. */
  lemma SignersCertifyIff(cfg: P.Config, r: Roster, quorum: seq<nat>, bits: seq<bool>, kind: MsgType, view: nat,
                          t: Tesseract)
    requires |quorum| == |r| && |bits| <= Total(r) && Seated(cfg, r, quorum, t)
    ensures P.Certified(cfg, SignedBallots(r, bits, CanonicalVote(kind, view, HashOf(t))), kind, view, HashOf(t))
            <==> Recounted(cfg, r, bits, t)
    ensures Meets(r, quorum, bits) && SignsOnce(r, bits) ==> Recounted(cfg, r, bits, t)
  {
    var ballots := SignedBallots(r, bits, CanonicalVote(kind, view, HashOf(t)));
    forall p | p in P.Governed(cfg, t)
      ensures |P.Voters(ballots, cfg.contexts[p], kind, view, HashOf(t))| == |SignerIds(r, bits) * cfg.contexts[p]|
    {
      SignersAreVoters(r, bits, CanonicalVote(kind, view, HashOf(t)), cfg.contexts[p]);
    }
    forall k | 0 <= k < |r|
      ensures Tally(r, Firsts(r, bits), k) == |SignerIds(r, bits) * Ids(r[k])|
    {
      FirstsCountHeads(r, bits, k);
    }
    if Meets(r, quorum, bits) && SignsOnce(r, bits) {
      OnceIsRecounted(cfg, r, quorum, bits, t);
    }
  }

  /** No node signed with two indices, or the thresholds are reached without the repetitions. */
  ghost predicate Clean(cfg: P.Config, r: Roster, bits: seq<bool>, t: Tesseract) {
    |bits| <= Total(r) && (SignsOnce(r, bits) || Recounted(cfg, r, bits, t))
  }

  lemma MajorityCertifies(cfg: P.Config, ballots: set<P.Ballot>, s: Setup, l: Ledger, t: Tesseract)
    requires LedgerOk(s, l) && l.majority.Some? && l.majority.value.hash == HashOf(t)
    requires Heard(s.roster, l, ballots, s.kind, s.view) && Seated(cfg, s.roster, s.quorum, t)
    requires Clean(cfg, s.roster, l.majority.value.bits, t)
    ensures P.Certified(cfg, ballots, s.kind, s.view, HashOf(t))
  {
    var bits := l.majority.value.bits;
    var signed := SignedBallots(s.roster, bits, CanonicalVote(s.kind, s.view, HashOf(t)));
    forall i | 0 <= i < |bits| && bits[i]
      ensures P.Ballot(At(s.roster, i).id, s.kind, s.view, HashOf(t)) in ballots
    {
      assert Ledgers.Counted(l, i, HashOf(t));
    }
    SignersCertifyIff(cfg, s.roster, s.quorum, bits, s.kind, s.view, t);
    P.CertifiedMonotone(cfg, signed, ballots, s.kind, s.view, HashOf(t));
  }

  /** A certificate that passes the batch check, was not forged and needs no node twice. */
  ghost predicate Verified(cfg: P.Config, ballots: set<P.Ballot>, addrs: seq<Address>, r: Roster, sizes: seq<nat>,
                           excluded: seq<bool>, view: nat, qc: Qc, t: Tesseract) {
    && Convened(cfg, addrs, r, sizes, excluded, t) && qc.hash == HashOf(t) && qc.kind != OtherMsg
    && PassesCheck(r, Thresholds(sizes, excluded), view, qc)
    && UnforgedSig(r, ballots, qc.sig) && Clean(cfg, r, Clip(qc.signers, Total(r)), t)
  }

  /** What the batch check lets through was signed by a quorum of every governed context. */
  lemma VerifiedIsCertified(cfg: P.Config, ballots: set<P.Ballot>, addrs: seq<Address>, r: Roster, sizes: seq<nat>,
                            excluded: seq<bool>, view: nat, qc: Qc, t: Tesseract)
    requires P.ValidConfig(cfg) && Verified(cfg, ballots, addrs, r, sizes, excluded, view, qc, t)
    ensures P.Certified(cfg, ballots, qc.kind, view, HashOf(t))
  {
    var bits := Clip(qc.signers, Total(r));
    var signed := SignedBallots(r, bits, CanonicalVote(qc.kind, view, HashOf(t)));
    forall i | 0 <= i < |bits| && bits[i]
      ensures P.Ballot(At(r, i).id, qc.kind, view, HashOf(t)) in ballots
    {
      SignerKey(r, bits, i);
    }
    ThresholdsSeat(cfg, addrs, r, sizes, excluded, t);
    SignersCertifyIff(cfg, r, Thresholds(sizes, excluded), bits, qc.kind, view, t);
    P.CertifiedMonotone(cfg, signed, ballots, qc.kind, view, HashOf(t));
  }

  lemma {:induction false} SignerKey(r: Roster, bits: seq<bool>, i: nat)
    requires |bits| <= Total(r) && i < |bits| && bits[i]
    ensures At(r, i).key in multiset(KeysAt(r, TrueIndices(bits)))
  {
    var indices := TrueIndices(bits);
    assert i in indices;
    var k :| 0 <= k < |indices| && indices[k] == i;
    assert KeysAt(r, indices)[k] == At(r, i).key;
  }

  /** In every reachable state two certificates of one view that pass the batch check, of prevotes or precommits, and
      share a governed participant are for one tesseract. */
  lemma VerifiedAgree(cfg: P.Config, init: P.State, actions: seq<P.Action>, st: P.State, p: Address, view: nat,
                      addrs1: seq<Address>, r1: Roster, sizes1: seq<nat>, ex1: seq<bool>, qc1: Qc, t1: Tesseract,
                      addrs2: seq<Address>, r2: Roster, sizes2: seq<nat>, ex2: seq<bool>, qc2: Qc, t2: Tesseract)
    requires P.Reached(cfg, init, actions, st) && p in P.Governed(cfg, t1) && p in P.Governed(cfg, t2)
    requires Verified(cfg, st.ballots, addrs1, r1, sizes1, ex1, view, qc1, t1)
    requires Verified(cfg, st.ballots, addrs2, r2, sizes2, ex2, view, qc2, t2)
    ensures t1 == t2
  {
    P.ReachedInv(cfg, init, actions, st);
    VerifiedIsCertified(cfg, st.ballots, addrs1, r1, sizes1, ex1, view, qc1, t1);
    VerifiedIsCertified(cfg, st.ballots, addrs2, r2, sizes2, ex2, view, qc2, t2);
    if qc1.kind == Precommit {
      P.PrecommitsFollowPrevotes(cfg, st, view, HashOf(t1), p);
    }
    if qc2.kind == Precommit {
      P.PrecommitsFollowPrevotes(cfg, st, view, HashOf(t2), p);
    }
    P.SameViewAgreement(cfg, st, view, HashOf(t1), HashOf(t2), p);
  }

  /** A vote set filled by unforged votes and certificates, and the tesseract its majority is for. */
  ghost predicate Collected(cfg: P.Config, ballots: set<P.Ballot>, s: Setup, es: seq<Event>, t: Tesseract) {
    && ValidSetup(s) && s.kind != OtherMsg && Delivered(s, ballots, es)
    && var l := ReceiveAll(s, Empty(s), es);
       && l.majority.Some? && l.majority.value.hash == HashOf(t)
       && Seated(cfg, s.roster, s.quorum, t) && Clean(cfg, s.roster, l.majority.value.bits, t)
  }

  lemma CollectedIsPrevoted(cfg: P.Config, st: P.State, s: Setup, es: seq<Event>, t: Tesseract, p: Address)
    requires P.ValidConfig(cfg) && P.Inv(cfg, st) && Collected(cfg, st.ballots, s, es, t) && p in P.Governed(cfg, t)
    ensures P.Certified(cfg, st.ballots, Prevote, s.view, HashOf(t))
  {
    EmptyOk(s);
    RunKeepsLedger(s, Empty(s), es);
    AllHeard(s, st.ballots, es);
    MajorityCertifies(cfg, st.ballots, s, ReceiveAll(s, Empty(s), es), t);
    if s.kind == Precommit {
      P.PrecommitsFollowPrevotes(cfg, st, s.view, HashOf(t), p);
    }
  }

  /** In every reachable state, two vote sets of one view that share a participant, whatever unforged votes and
      certificates they were given, never hold majorities for different tesseracts, whether of prevotes or of
      precommits, unless a node signed one of them with two indices and was needed twice. */
  lemma MajoritiesAgree(cfg: P.Config, init: P.State, actions: seq<P.Action>, st: P.State, p: Address,
                        s1: Setup, es1: seq<Event>, t1: Tesseract, s2: Setup, es2: seq<Event>, t2: Tesseract)
    requires P.Reached(cfg, init, actions, st) && s1.view == s2.view
    requires Collected(cfg, st.ballots, s1, es1, t1) && p in P.Governed(cfg, t1)
    requires Collected(cfg, st.ballots, s2, es2, t2) && p in P.Governed(cfg, t2)
    ensures t1 == t2
  {
    P.ReachedInv(cfg, init, actions, st);
    CollectedIsPrevoted(cfg, st, s1, es1, t1, p);
    CollectedIsPrevoted(cfg, st, s2, es2, t2, p);
    P.SameViewAgreement(cfg, st, s1.view, HashOf(t1), HashOf(t2), p);
  }

  // ---------- what an instance does, as protocol actions ----------

  /** The action of one logged effect; `w` is the view of the precommits behind a commit. Certificates and proposals
      that are passed on are none. */
  function DeedOf(c: Cfg, ev: P.Evidence, w: nat, e: Effect): seq<P.Action> {
    var ballot := KbftRuns.Ballot(e);
    if ballot.Some? && ballot.value.hash.HashOf? then
      match ballot.value.kind
      case Prevote => [P.CastPrevote(c.self, ballot.value.hash.t, ev)]
      case Precommit => [P.CastPrecommit(c.self, ballot.value.hash.t)]
      case OtherMsg => []
    else if e.Persisted? then [P.Record(c.self, e.t, e.qc)]
    else if e.Finalized? then [P.Commit(c.self, e.t, e.qc, w)]
    else []
  }

  function Deeds(c: Cfg, ev: P.Evidence, w: nat, effects: seq<Effect>): seq<P.Action> {
    if effects == [] then [] else DeedOf(c, ev, w, effects[0]) + Deeds(c, ev, w, effects[1..])
  }

  /** A logged effect shows in the protocol state. */
  ghost predicate Shown(s: P.State, c: Cfg, w: nat, e: Effect) {
    var ballot := KbftRuns.Ballot(e);
    && (ballot.Some? ==> P.Ballot(c.self, ballot.value.kind, ballot.value.view, ballot.value.hash) in s.ballots)
    && (e.Persisted? ==> P.Deed(c.self, c.view, HashOf(e.t)) in s.locks)
    && (e.Finalized? ==> P.Deed(c.self, w, HashOf(e.t)) in s.commits)
  }

  /** The node of an instance in a protocol state: its view, the store that its logged writes lead to, and all it has
      done. */
  ghost predicate Embedded(s: P.State, c: Cfg, db: Db, w: nat, log: seq<Effect>) {
    && c.self in s.nodes && s.nodes[c.self] == P.Node(c.view, KbftRuns.Replay(db, log))
    && forall i :: 0 <= i < |log| ==> Shown(s, c, w, log[i])
  }

  // ---------- sequences of actions ----------

  lemma {:induction false} AppendRuns(cfg: P.Config, s: P.State, a: seq<P.Action>, b: seq<P.Action>)
    requires P.AllEnabled(cfg, s, a) && P.AllEnabled(cfg, P.Run(cfg, s, a), b)
    ensures P.AllEnabled(cfg, s, a + b) && P.Run(cfg, s, a + b) == P.Run(cfg, P.Run(cfg, s, a), b)
    decreases |a|
  {
    if a == [] {
      assert a + b == b;
    } else {
      assert (a + b)[0] == a[0] && (a + b)[1..] == a[1..] + b;
      AppendRuns(cfg, P.Next(cfg, s, a[0]), a[1..], b);
    }
  }

  lemma {:induction false} OneAction(cfg: P.Config, s: P.State, a: P.Action)
    requires P.Enabled(cfg, s, a)
    ensures P.AllEnabled(cfg, s, [a]) && P.Run(cfg, s, [a]) == P.Next(cfg, s, a)
  {
    assert [a][1..] == [];
    assert P.AllEnabled(cfg, P.Next(cfg, s, a), []);
  }

  /** Nothing that was sent, locked or committed is taken back. */
  ghost predicate Grows(s: P.State, s': P.State) {
    s.ballots <= s'.ballots && s.locks <= s'.locks && s.commits <= s'.commits
  }

  lemma {:induction false} RunGrows(cfg: P.Config, s: P.State, actions: seq<P.Action>)
    requires P.AllEnabled(cfg, s, actions)
    ensures Grows(s, P.Run(cfg, s, actions))
    decreases |actions|
  {
    if actions != [] {
      RunGrows(cfg, P.Next(cfg, s, actions[0]), actions[1..]);
    }
  }

  lemma EmbeddedAppends(s: P.State, s': P.State, c: Cfg, db: Db, w: nat, log: seq<Effect>, e: Effect)
    requires Embedded(s, c, db, w, log) && Grows(s, s') && Shown(s', c, w, e)
    requires c.self in s'.nodes && s'.nodes[c.self] == P.Node(c.view, KbftRuns.Written(s.nodes[c.self].db, e))
    ensures Embedded(s', c, db, w, log + [e])
  {
    KbftRuns.Appended(db, log, e);
    forall i | 0 <= i < |log + [e]|
      ensures Shown(s', c, w, (log + [e])[i])
    {
      assert i < |log| ==> Shown(s, c, w, log[i]);
    }
  }

  /** An effect whose action is enabled keeps the instance embedded. */
  lemma {:induction false} EffectSimulated(cfg: P.Config, s: P.State, c: Cfg, db: Db, ev: P.Evidence, w: nat,
                                           log: seq<Effect>, e: Effect)
    requires Embedded(s, c, db, w, log) && P.AllEnabled(cfg, s, DeedOf(c, ev, w, e))
    requires KbftRuns.Ballot(e).Some? ==>
               var v := KbftRuns.Ballot(e).value; v.view == c.view && v.hash.HashOf? && v.kind != OtherMsg
    ensures Embedded(P.Run(cfg, s, DeedOf(c, ev, w, e)), c, db, w, log + [e])
    ensures Grows(s, P.Run(cfg, s, DeedOf(c, ev, w, e)))
    ensures DeedOf(c, ev, w, e) == [] ==> P.Run(cfg, s, DeedOf(c, ev, w, e)) == s
  {
    var deeds := DeedOf(c, ev, w, e);
    var s' := P.Run(cfg, s, deeds);
    if deeds != [] {
      OneAction(cfg, s, deeds[0]);
      assert deeds == [deeds[0]];
    }
    EmbeddedAppends(s, s', c, db, w, log, e);
  }

  // ---------- the effects of a run ----------

  /** What the protocol state must know for the effects from `n` on: certificates for a precommit and for a commit,
      and the voting rule for a prevote. */
  ghost predicate Grounded(cfg: P.Config, s: P.State, c: Cfg, ev: P.Evidence, w: nat, t: Tesseract,
                           log: seq<Effect>, n: nat) {
    && (forall i :: n <= i < |log| && KbftRuns.Casts(log[i], Precommit) ==>
          P.Certified(cfg, s.ballots, Prevote, c.view, HashOf(t)))
    && (forall i :: n <= i < |log| && log[i].Finalized? ==> P.Certified(cfg, s.ballots, Precommit, w, HashOf(t)))
    && (forall i :: n <= i < |log| && KbftRuns.Casts(log[i], Prevote) ==>
          P.Enabled(cfg, s, P.CastPrevote(c.self, t, ev)))
  }

  /** The tesseract an instance is about: its proposal, once it has one. */
  function Target(c: Cfg, m: Machine): Tesseract {
    if m.proposal.Some? then m.proposal.value.t else c.proposal.t
  }

  /** Nothing but passing on messages comes before the prevote. */
  lemma PlainBefore(c: Cfg, ev: P.Evidence, w: nat, m: Machine, i: nat, j: nat)
    requires KbftRuns.LogOk(c, m.proposal, m.log) && KbftRuns.Once(c, m)
    requires i < j < |m.log| && KbftRuns.Casts(m.log[j], Prevote)
    ensures DeedOf(c, ev, w, m.log[i]) == []
  {
    assert KbftRuns.EntryOk(c, m.proposal, m.log, i) && KbftRuns.EntryOk(c, m.proposal, m.log, j);
    KbftRuns.NeverAlike(c, m, i, j);
    if KbftRuns.Cast(m.log[..i], Prevote) == 1 {
      var k := KbftRuns.CastSomewhere(m.log[..i], Prevote);
      KbftRuns.NeverAlike(c, m, k, j);
    }
  }

  /** The next effect's action is enabled. */
  lemma {:induction false} NextDeedEnabled(cfg: P.Config, s: P.State, c: Cfg, db: Db, ev: P.Evidence, w: nat,
                                           m: Machine, n: nat)
    requires KbftRuns.LogOk(c, m.proposal, m.log) && n < |m.log|
    requires Embedded(s, c, db, w, m.log[..n]) && Grounded(cfg, s, c, ev, w, Target(c, m), m.log, n)
    ensures P.AllEnabled(cfg, s, DeedOf(c, ev, w, m.log[n]))
  {
    var e := m.log[n];
    assert KbftRuns.EntryOk(c, m.proposal, m.log, n);
    var deeds := DeedOf(c, ev, w, e);
    if deeds != [] {
      if KbftRuns.Casts(e, Precommit) {
        assert m.log[..n][n - 1] == m.log[n - 1];
        assert Shown(s, c, w, m.log[n - 1]);
      }
      assert P.Enabled(cfg, s, deeds[0]);
      OneAction(cfg, s, deeds[0]);
      assert deeds == [deeds[0]];
    }
  }

  /** What the state must know survives the instance's own actions. */
  lemma GroundedOn(cfg: P.Config, s: P.State, s': P.State, c: Cfg, ev: P.Evidence, w: nat, m: Machine, n: nat)
    requires KbftRuns.LogOk(c, m.proposal, m.log) && KbftRuns.Once(c, m) && n < |m.log|
    requires Grounded(cfg, s, c, ev, w, Target(c, m), m.log, n) && Grows(s, s')
    requires DeedOf(c, ev, w, m.log[n]) == [] ==> s' == s
    ensures Grounded(cfg, s', c, ev, w, Target(c, m), m.log, n + 1)
  {
    var h := HashOf(Target(c, m));
    if P.Certified(cfg, s.ballots, Prevote, c.view, h) {
      P.CertifiedMonotone(cfg, s.ballots, s'.ballots, Prevote, c.view, h);
    }
    if P.Certified(cfg, s.ballots, Precommit, w, h) {
      P.CertifiedMonotone(cfg, s.ballots, s'.ballots, Precommit, w, h);
    }
    forall i | n + 1 <= i < |m.log| && KbftRuns.Casts(m.log[i], Prevote)
      ensures P.Enabled(cfg, s', P.CastPrevote(c.self, Target(c, m), ev))
    {
      PlainBefore(c, ev, w, m, n, i);
    }
  }

  /** One more effect. */
  lemma {:induction false} NextSimulated(cfg: P.Config, s: P.State, c: Cfg, db: Db, ev: P.Evidence, w: nat, m: Machine,
                                         n: nat)
    requires KbftRuns.LogOk(c, m.proposal, m.log) && KbftRuns.Once(c, m) && n < |m.log|
    requires Embedded(s, c, db, w, m.log[..n]) && Grounded(cfg, s, c, ev, w, Target(c, m), m.log, n)
    ensures P.AllEnabled(cfg, s, DeedOf(c, ev, w, m.log[n]))
    ensures var s' := P.Run(cfg, s, DeedOf(c, ev, w, m.log[n]));
            Embedded(s', c, db, w, m.log[..n + 1]) && Grounded(cfg, s', c, ev, w, Target(c, m), m.log, n + 1)
  {
    assert KbftRuns.EntryOk(c, m.proposal, m.log, n);
    NextDeedEnabled(cfg, s, c, db, ev, w, m, n);
    EffectSimulated(cfg, s, c, db, ev, w, m.log[..n], m.log[n]);
    assert m.log[..n] + [m.log[n]] == m.log[..n + 1];
    GroundedOn(cfg, s, P.Run(cfg, s, DeedOf(c, ev, w, m.log[n])), c, ev, w, m, n);
  }

  lemma {:induction false} DeedsFrom(c: Cfg, ev: P.Evidence, w: nat, log: seq<Effect>, n: nat)
    requires n < |log|
    ensures Deeds(c, ev, w, log[n..]) == DeedOf(c, ev, w, log[n]) + Deeds(c, ev, w, log[n + 1..])
  {
    assert log[n..][0] == log[n] && log[n..][1..] == log[n + 1..];
  }

  /** The effects from `n` on are enabled protocol actions, one after the other, and the instance stays embedded. */
  lemma {:induction false} EffectsSimulated(cfg: P.Config, s: P.State, c: Cfg, db: Db, ev: P.Evidence, w: nat,
                                            m: Machine, n: nat)
    requires KbftRuns.LogOk(c, m.proposal, m.log) && KbftRuns.Once(c, m) && n <= |m.log|
    requires Embedded(s, c, db, w, m.log[..n]) && Grounded(cfg, s, c, ev, w, Target(c, m), m.log, n)
    ensures P.AllEnabled(cfg, s, Deeds(c, ev, w, m.log[n..]))
    ensures Embedded(P.Run(cfg, s, Deeds(c, ev, w, m.log[n..])), c, db, w, m.log)
    decreases |m.log| - n
  {
    if n == |m.log| {
      assert m.log[..n] == m.log && m.log[n..] == [];
    } else {
      NextSimulated(cfg, s, c, db, ev, w, m, n);
      var s' := P.Run(cfg, s, DeedOf(c, ev, w, m.log[n]));
      EffectsSimulated(cfg, s', c, db, ev, w, m, n + 1);
      DeedsFrom(c, ev, w, m.log, n);
      AppendRuns(cfg, s, DeedOf(c, ev, w, m.log[n]), Deeds(c, ev, w, m.log[n + 1..]));
    }
  }

  // ---------- one step ----------

  /** The committee seats the contexts of the proposal, and the majorities for it of the own view and of the view that
      was committed do not need a node twice. */
  ghost predicate Seating(cfg: P.Config, c: Cfg, m: Machine)
    requires ValidHeight(c.height)
  {
    m.proposal.Some? ==>
      && Seated(cfg, c.height.roster, c.height.quorum, m.proposal.value.t)
      && forall view, kind :: (view == c.view || view == m.commitView) && MajorityAt(m.votes, view, kind).Some? ==>
           Clean(cfg, c.height.roster, MajorityAt(m.votes, view, kind).value.bits, m.proposal.value.t)
  }

  lemma OwnMajorityCertifies(cfg: P.Config, ballots: set<P.Ballot>, c: Cfg, m: Machine, view: nat, kind: MsgType)
    requires HvsOk(c.height, m.votes) && AllKnown(c.height, m.votes, ballots) && Seating(cfg, c, m)
    requires m.proposal.Some? && (view == c.view || view == m.commitView)
    requires MajorityOf(m.votes, view, kind) == Some(HashOf(m.proposal.value.t))
    ensures P.Certified(cfg, ballots, kind, view, HashOf(m.proposal.value.t))
  {
    SetOk(m.votes, view, kind, Sound(c.height));
    SetOk(m.votes, view, kind, KnownTo(c.height, ballots));
    var l := GetVoteSet(m.votes, view, kind).value;
    MajorityCertifies(cfg, ballots, SetupFor(c.height, view, kind), l, m.proposal.value.t);
  }

  /** A new prevote is allowed by the voting rule. */
  ghost predicate Lawful(cfg: P.Config, s: P.State, c: Cfg, ev: P.Evidence, m: Machine, m': Machine) {
    KbftRuns.Cast(m'.log, Prevote) > KbftRuns.Cast(m.log, Prevote) ==>
      P.Enabled(cfg, s, P.CastPrevote(c.self, Target(c, m'), ev))
  }

  lemma {:induction false} CastGrows(log: seq<Effect>, n: nat, i: nat, kind: MsgType)
    requires n <= i < |log| && KbftRuns.Casts(log[i], kind)
    ensures KbftRuns.Cast(log, kind) > KbftRuns.Cast(log[..n], kind)
    decreases |log|
  {
    var k := |log| - 1;
    if i < k {
      CastGrows(log[..k], n, i, kind);
      assert log[..k][..n] == log[..n];
    } else {
      CastMonotone(log[..k], n, kind);
      assert log[..k][..n] == log[..n];
    }
  }

  lemma {:induction false} CastMonotone(log: seq<Effect>, n: nat, kind: MsgType)
    requires n <= |log|
    ensures KbftRuns.Cast(log[..n], kind) <= KbftRuns.Cast(log, kind)
    decreases |log|
  {
    if n == |log| {
      assert log[..n] == log;
    } else {
      CastMonotone(log[..|log| - 1], n, kind);
      assert log[..|log| - 1][..n] == log[..n];
    }
  }

  /** What holds of an instance after any run. */
  ghost predicate Sane(c: Cfg, db: Db, m: Machine) {
    && ValidCfg(c) && KbftRuns.Inv(c, db, m) && KbftRuns.Certificates(m, 0)
    && HvsOk(c.height, m.votes) && Shaped(c.height, m.votes)
  }

  lemma PrecommitGrounded(cfg: P.Config, ballots: set<P.Ballot>, c: Cfg, db: Db, m: Machine, i: nat)
    requires Sane(c, db, m) && AllKnown(c.height, m.votes, ballots) && Seating(cfg, c, m)
    requires i < |m.log| && KbftRuns.Casts(m.log[i], Precommit)
    ensures P.Certified(cfg, ballots, Prevote, c.view, HashOf(Target(c, m)))
  {
    assert KbftRuns.EntryOk(c, m.proposal, m.log, i);
    var qc := m.log[i - 1].qc;
    CertificateIffMajority(m.votes, qc.hash, qc.view, qc.kind);
    OwnMajorityCertifies(cfg, ballots, c, m, c.view, Prevote);
  }

  lemma CommitGrounded(cfg: P.Config, ballots: set<P.Ballot>, c: Cfg, db: Db, m: Machine, i: nat)
    requires Sane(c, db, m) && AllKnown(c.height, m.votes, ballots) && Seating(cfg, c, m)
    requires i < |m.log| && m.log[i].Finalized?
    ensures P.Certified(cfg, ballots, Precommit, m.commitView, HashOf(Target(c, m)))
  {
    KbftRuns.FinalOne(m.log, i);
    OwnMajorityCertifies(cfg, ballots, c, m, m.commitView, Precommit);
  }

  lemma MachineGrounded(cfg: P.Config, s: P.State, c: Cfg, db: Db, ev: P.Evidence, m: Machine, m': Machine)
    requires Sane(c, db, m') && m.log <= m'.log && AllKnown(c.height, m'.votes, s.ballots)
    requires Seating(cfg, c, m') && Lawful(cfg, s, c, ev, m, m')
    ensures Grounded(cfg, s, c, ev, m'.commitView, Target(c, m'), m'.log, |m.log|)
  {
    var log := m'.log;
    forall i | |m.log| <= i < |log| && KbftRuns.Casts(log[i], Precommit)
      ensures P.Certified(cfg, s.ballots, Prevote, c.view, HashOf(Target(c, m')))
    {
      PrecommitGrounded(cfg, s.ballots, c, db, m', i);
    }
    forall i | |m.log| <= i < |log| && log[i].Finalized?
      ensures P.Certified(cfg, s.ballots, Precommit, m'.commitView, HashOf(Target(c, m')))
    {
      CommitGrounded(cfg, s.ballots, c, db, m', i);
    }
    forall i | |m.log| <= i < |log| && KbftRuns.Casts(log[i], Prevote)
      ensures P.Enabled(cfg, s, P.CastPrevote(c.self, Target(c, m'), ev))
    {
      CastGrows(log, |m.log|, i, Prevote);
      assert log[..|m.log|] == m.log;
    }
  }

  lemma StepIsSane(c: Cfg, db: Db, m: Machine, i: Input)
    requires Sane(c, db, m) && FittingInput(c, i)
    ensures Sane(c, db, Step(c, m, i)) && KbftRuns.Progress(m, Step(c, m, i))
  {
    KbftRuns.StepKeeps(c, db, m, i);
    KbftRuns.StepCertificates(c, db, m, i);
    KbftRuns.StepVotes(c, db, m, i);
    KbftRuns.FollowOk(c, m, Step(c, m, i).votes);
    OkIsShaped(c.height, Step(c, m, i).votes);
  }

  /** An instance in a protocol state: embedded, everything it has counted was sent, what it has queued is its own. */
  ghost predicate Joined(s: P.State, c: Cfg, db: Db, m: Machine) {
    && Embedded(s, c, db, m.commitView, m.log)
    && AllKnown(c.height, m.votes, s.ballots)
    && Waiting(c, m)
  }

  /** Until an instance commits, the view it will commit in does not matter. */
  lemma CommitViewOpen(s: P.State, c: Cfg, db: Db, m: Machine, w: nat)
    requires KbftRuns.Once(c, m) && Embedded(s, c, db, m.commitView, m.log)
    requires m.step == COMMIT ==> w == m.commitView
    requires m.step <= COMMIT
    ensures Embedded(s, c, db, w, m.log)
  {
    forall i | 0 <= i < |m.log|
      ensures Shown(s, c, w, m.log[i])
    {
      assert Shown(s, c, m.commitView, m.log[i]);
      if m.log[i].Finalized? {
        KbftRuns.FinalOne(m.log, i);
      }
    }
  }

  /** The key an instance signs with is nobody else's. */
  ghost predicate OwnKey(c: Cfg) {
    forall i: nat :: i < Total(c.height.roster) && At(c.height.roster, i).key == c.key ==>
      At(c.height.roster, i).id == c.self
  }

  /** What an instance has queued for itself is not forged either. */
  lemma OwnIsUnforged(s: P.State, c: Cfg, db: Db, m: Machine, msg: Message)
    requires Joined(s, c, db, m) && OwnKey(c) && msg in m.queue
    ensures UnforgedMessage(c, s.ballots, msg)
  {
    assert Pending(c, m.log, msg);
    var j :| 0 <= j < |m.log| && m.log[j] == Queued(msg);
    assert Shown(s, c, m.commitView, m.log[j]);
  }

  /** The peers of an instance do not forge signatures. */
  ghost predicate Honored(c: Cfg, ballots: set<P.Ballot>, i: Input) {
    i.FromPeer? ==> UnforgedMessage(c, ballots, i.msg)
  }

  lemma StepJoins(s: P.State, c: Cfg, db: Db, m: Machine, i: Input)
    requires Sane(c, db, m) && FittingInput(c, i) && OwnKey(c) && Joined(s, c, db, m) && Honored(c, s.ballots, i)
    ensures AllKnown(c.height, Step(c, m, i).votes, s.ballots) && Waiting(c, Step(c, m, i))
  {
    if i.FromSelf? && m.queue != [] {
      OwnIsUnforged(s, c, db, m, m.queue[0]);
    }
    StepKnown(c, m, s.ballots, i);
    StepWaits(c, m, i);
  }

  /** One step of an instance in a protocol state, on any input that is not forged: what it does (prevote, lock,
      precommit, commit) are enabled protocol actions in that order, and after them the instance is in the protocol
      state again. */
  lemma {:induction false} StepSimulated(cfg: P.Config, s: P.State, c: Cfg, db: Db, ev: P.Evidence, m: Machine,
                                         i: Input)
    requires Sane(c, db, m) && FittingInput(c, i) && OwnKey(c) && Joined(s, c, db, m) && Honored(c, s.ballots, i)
    requires Seating(cfg, c, Step(c, m, i)) && Lawful(cfg, s, c, ev, m, Step(c, m, i))
    ensures var m' := Step(c, m, i);
            && Sane(c, db, m') && m.log <= m'.log
            && P.AllEnabled(cfg, s, Deeds(c, ev, m'.commitView, m'.log[|m.log|..]))
            && Joined(P.Run(cfg, s, Deeds(c, ev, m'.commitView, m'.log[|m.log|..])), c, db, m')
  {
    var m' := Step(c, m, i);
    StepIsSane(c, db, m, i);
    StepJoins(s, c, db, m, i);
    StepEffects(cfg, s, c, db, ev, m, m');
  }

  lemma {:induction false} StepEffects(cfg: P.Config, s: P.State, c: Cfg, db: Db, ev: P.Evidence, m: Machine,
                                       m': Machine)
    requires Sane(c, db, m) && Sane(c, db, m') && KbftRuns.Progress(m, m')
    requires Embedded(s, c, db, m.commitView, m.log) && AllKnown(c.height, m'.votes, s.ballots) && Waiting(c, m')
    requires Seating(cfg, c, m') && Lawful(cfg, s, c, ev, m, m')
    ensures P.AllEnabled(cfg, s, Deeds(c, ev, m'.commitView, m'.log[|m.log|..]))
    ensures Joined(P.Run(cfg, s, Deeds(c, ev, m'.commitView, m'.log[|m.log|..])), c, db, m')
  {
    CommitViewOpen(s, c, db, m, m'.commitView);
    MachineGrounded(cfg, s, c, db, ev, m, m');
    assert m'.log[..|m.log|] == m.log;
    EffectsSimulated(cfg, s, c, db, ev, m'.commitView, m', |m.log|);
    var deeds := Deeds(c, ev, m'.commitView, m'.log[|m.log|..]);
    RunGrows(cfg, s, deeds);
    KnownGrows(c.height, m'.votes, s.ballots, P.Run(cfg, s, deeds).ballots);
  }

  // ---------- whole runs ----------

  /** What the other nodes do, then one input of the instance, and the evidence for a prevote on it. */
  datatype Turn = Turn(env: seq<P.Action>, input: Input, ev: P.Evidence)

  function Inputs(turns: seq<Turn>): (r: seq<Input>)
    ensures |r| == |turns|
  {
    seq(|turns|, i requires 0 <= i < |turns| => turns[i].input)
  }

  ghost predicate FittingTurns(c: Cfg, turns: seq<Turn>) {
    KbftRuns.FittingAll(c, Inputs(turns))
  }

  ghost function MachineAfter(c: Cfg, db: Db, turns: seq<Turn>): Machine
    requires FittingTurns(c, turns)
  {
    KbftRuns.Run(c, db, Inputs(turns))
  }

  lemma FittingPrefix(c: Cfg, turns: seq<Turn>)
    requires FittingTurns(c, turns) && turns != []
    ensures FittingTurns(c, turns[..|turns| - 1])
    ensures Inputs(turns[..|turns| - 1]) == Inputs(turns)[..|turns| - 1]
  {
    var n := |turns| - 1;
    assert Inputs(turns[..n]) == Inputs(turns)[..n];
    assert forall i :: 0 <= i < n ==> Inputs(turns)[..n][i] == Inputs(turns)[i];
  }

  lemma RunIsSane(c: Cfg, db: Db, turns: seq<Turn>)
    requires FittingTurns(c, turns)
    ensures Sane(c, db, MachineAfter(c, db, turns))
  {
    KbftRuns.RunInv(c, db, Inputs(turns));
    KbftRuns.RunCertificates(c, db, Inputs(turns));
    KbftRuns.RunKeepsAccounts(c, db, Inputs(turns));
  }

  lemma LastInput(c: Cfg, db: Db, turns: seq<Turn>)
    requires FittingTurns(c, turns) && turns != [] && FittingTurns(c, turns[..|turns| - 1])
    ensures var m := MachineAfter(c, db, turns[..|turns| - 1]);
            var i := turns[|turns| - 1].input;
            && FittingInput(c, i) && Sane(c, db, m)
            && MachineAfter(c, db, turns) == Step(c, m, i) && m.log <= Step(c, m, i).log
  {
    FittingPrefix(c, turns);
    RunIsSane(c, db, turns[..|turns| - 1]);
    assert Inputs(turns)[|turns| - 1] == turns[|turns| - 1].input;
    KbftRuns.LastStepProgresses(c, db, Inputs(turns));
  }

  /** The actions of one turn: the others', then the instance's. */
  ghost function TurnActions(c: Cfg, turn: Turn, m: Machine, m': Machine): seq<P.Action>
    requires m.log <= m'.log
  {
    turn.env + Deeds(c, turn.ev, m'.commitView, m'.log[|m.log|..])
  }

  /** The protocol actions of a run of the instance among the others. */
  ghost function Script(c: Cfg, db: Db, turns: seq<Turn>): seq<P.Action>
    requires FittingTurns(c, turns)
    decreases |turns|
  {
    if turns == [] then []
    else
      FittingPrefix(c, turns);
      LastInput(c, db, turns);
      var before := turns[..|turns| - 1];
      Script(c, db, before) +
      TurnActions(c, turns[|turns| - 1], MachineAfter(c, db, before), MachineAfter(c, db, turns))
  }

  predicate ByOthers(c: Cfg, env: seq<P.Action>) {
    forall i :: 0 <= i < |env| ==> env[i].ByzantineBallot? || env[i].ByzantineReport? || env[i].n != c.self
  }

  lemma OthersKeep(cfg: P.Config, s: P.State, c: Cfg, db: Db, w: nat, log: seq<Effect>, a: P.Action)
    requires Embedded(s, c, db, w, log) && P.Enabled(cfg, s, a) && ByOthers(c, [a])
    ensures Embedded(P.Next(cfg, s, a), c, db, w, log)
  {
    var s' := P.Next(cfg, s, a);
    assert [a][0] == a;
    assert Grows(s, s') && s'.nodes[c.self] == s.nodes[c.self];
    forall i | 0 <= i < |log|
      ensures Shown(s', c, w, log[i])
    {
      assert Shown(s, c, w, log[i]);
    }
  }

  lemma {:induction false} EnvKeeps(cfg: P.Config, s: P.State, c: Cfg, db: Db, w: nat, log: seq<Effect>,
                                    env: seq<P.Action>)
    requires Embedded(s, c, db, w, log) && P.AllEnabled(cfg, s, env) && ByOthers(c, env)
    ensures Embedded(P.Run(cfg, s, env), c, db, w, log)
    decreases |env|
  {
    if env != [] {
      OthersKeep(cfg, s, c, db, w, log, env[0]);
      EnvKeeps(cfg, P.Next(cfg, s, env[0]), c, db, w, log, env[1..]);
    }
  }

  lemma {:induction false} EnvJoins(cfg: P.Config, s: P.State, c: Cfg, db: Db, m: Machine, env: seq<P.Action>)
    requires Joined(s, c, db, m) && P.AllEnabled(cfg, s, env) && ByOthers(c, env)
    ensures Joined(P.Run(cfg, s, env), c, db, m)
  {
    EnvKeeps(cfg, s, c, db, m.commitView, m.log, env);
    RunGrows(cfg, s, env);
    KnownGrows(c.height, m.votes, s.ballots, P.Run(cfg, s, env).ballots);
  }

  /** In one turn the others do what the protocol lets them, the input is not forged, the committee fits the proposal,
      and a prevote keeps the voting rule. */
  ghost predicate TurnPlayed(cfg: P.Config, s: P.State, c: Cfg, m: Machine, m': Machine, turn: Turn)
    requires ValidHeight(c.height)
  {
    && ByOthers(c, turn.env) && P.AllEnabled(cfg, s, turn.env)
    && var s' := P.Run(cfg, s, turn.env);
       Honored(c, s'.ballots, turn.input) && Seating(cfg, c, m') && Lawful(cfg, s', c, turn.ev, m, m')
  }

  /** Every turn is played in the state the turns before it led to. */
  ghost predicate Played(cfg: P.Config, s: P.State, c: Cfg, db: Db, turns: seq<Turn>)
    requires FittingTurns(c, turns)
    decreases |turns|
  {
    if turns == [] then true
    else
      FittingPrefix(c, turns);
      var before, last := turns[..|turns| - 1], turns[|turns| - 1];
      && Played(cfg, s, c, db, before)
      && (P.AllEnabled(cfg, s, Script(c, db, before)) ==>
            TurnPlayed(cfg, P.Run(cfg, s, Script(c, db, before)), c,
                       MachineAfter(c, db, before), MachineAfter(c, db, turns), last))
  }

  lemma {:induction false} TurnSimulated(cfg: P.Config, s: P.State, c: Cfg, db: Db, m: Machine, turn: Turn)
    requires Sane(c, db, m) && FittingInput(c, turn.input) && OwnKey(c) && Joined(s, c, db, m)
    requires TurnPlayed(cfg, s, c, m, Step(c, m, turn.input), turn)
    ensures var m' := Step(c, m, turn.input);
            && m.log <= m'.log && P.AllEnabled(cfg, s, TurnActions(c, turn, m, m'))
            && Joined(P.Run(cfg, s, TurnActions(c, turn, m, m')), c, db, m')
  {
    var m' := Step(c, m, turn.input);
    EnvJoins(cfg, s, c, db, m, turn.env);
    StepSimulated(cfg, P.Run(cfg, s, turn.env), c, db, turn.ev, m, turn.input);
    AppendRuns(cfg, s, turn.env, Deeds(c, turn.ev, m'.commitView, m'.log[|m.log|..]));
  }

  /** The node of the instance is where the instance starts. */
  ghost predicate Starts(s: P.State, c: Cfg, db: Db) {
    OwnKey(c) && c.self in s.nodes && s.nodes[c.self] == P.Node(c.view, db)
  }

  /** Every run of an instance, among whatever the other nodes do, is a run of the protocol: all its prevotes, locks,
      precommits and commits are enabled actions where they happen, its node's store is the instance's store, and every
      vote it has counted was sent. */
  lemma {:induction false} RunSimulated(cfg: P.Config, s: P.State, c: Cfg, db: Db, turns: seq<Turn>)
    requires FittingTurns(c, turns) && Starts(s, c, db) && Played(cfg, s, c, db, turns)
    ensures P.AllEnabled(cfg, s, Script(c, db, turns))
    ensures Joined(P.Run(cfg, s, Script(c, db, turns)), c, db, MachineAfter(c, db, turns))
    decreases |turns|
  {
    if turns == [] {
      InitKnown(c, db, s.ballots);
    } else {
      FittingPrefix(c, turns);
      var before := turns[..|turns| - 1];
      RunSimulated(cfg, s, c, db, before);
      LastInput(c, db, turns);
      LastTurn(cfg, s, c, db, Script(c, db, before), MachineAfter(c, db, before), turns[|turns| - 1]);
    }
  }

  lemma {:induction false} LastTurn(cfg: P.Config, s: P.State, c: Cfg, db: Db, done: seq<P.Action>, m: Machine,
                                    turn: Turn)
    requires P.AllEnabled(cfg, s, done) && Joined(P.Run(cfg, s, done), c, db, m)
    requires Sane(c, db, m) && FittingInput(c, turn.input) && OwnKey(c)
    requires TurnPlayed(cfg, P.Run(cfg, s, done), c, m, Step(c, m, turn.input), turn)
    ensures var m' := Step(c, m, turn.input);
            && m.log <= m'.log && P.AllEnabled(cfg, s, done + TurnActions(c, turn, m, m'))
            && Joined(P.Run(cfg, s, done + TurnActions(c, turn, m, m')), c, db, m')
  {
    TurnSimulated(cfg, P.Run(cfg, s, done), c, db, m, turn);
    AppendRuns(cfg, s, done, TurnActions(c, turn, m, Step(c, m, turn.input)));
  }

  // ---------- two instances ----------

  /** An instance runs as the stretch from `lo` to `hi` of a protocol run, the other nodes' actions in between
      included. */
  ghost predicate Hosted(cfg: P.Config, init: P.State, actions: seq<P.Action>, lo: nat, hi: nat,
                         c: Cfg, db: Db, turns: seq<Turn>) {
    && lo <= hi <= |actions| && P.AllEnabled(cfg, init, actions[..lo]) && FittingTurns(c, turns)
    && actions[lo..hi] == Script(c, db, turns)
    && var s := P.Run(cfg, init, actions[..lo]);
       Starts(s, c, db) && Played(cfg, s, c, db, turns)
  }

  lemma {:induction false} PrefixRuns(cfg: P.Config, s: P.State, a: seq<P.Action>, b: seq<P.Action>)
    requires P.AllEnabled(cfg, s, a + b)
    ensures P.AllEnabled(cfg, s, a) && P.AllEnabled(cfg, P.Run(cfg, s, a), b)
    ensures P.Run(cfg, s, a + b) == P.Run(cfg, P.Run(cfg, s, a), b)
    decreases |a|
  {
    if a == [] {
      assert a + b == b;
    } else {
      assert (a + b)[0] == a[0] && (a + b)[1..] == a[1..] + b;
      PrefixRuns(cfg, P.Next(cfg, s, a[0]), a[1..], b);
    }
  }

  /** A run, cut at two places. */
  lemma {:induction false} CutRun(cfg: P.Config, init: P.State, actions: seq<P.Action>, lo: nat, hi: nat)
    requires P.AllEnabled(cfg, init, actions) && lo <= hi <= |actions|
    ensures P.AllEnabled(cfg, init, actions[..lo])
    ensures var start := P.Run(cfg, init, actions[..lo]);
            && P.AllEnabled(cfg, start, actions[lo..hi])
            && Grows(P.Run(cfg, start, actions[lo..hi]), P.Run(cfg, init, actions))
  {
    var script, rest := actions[lo..hi], actions[hi..];
    assert actions == actions[..lo] + (script + rest);
    PrefixRuns(cfg, init, actions[..lo], script + rest);
    var start := P.Run(cfg, init, actions[..lo]);
    PrefixRuns(cfg, start, script, rest);
    RunGrows(cfg, P.Run(cfg, start, script), rest);
  }

  /** What a hosted instance finalizes is a commit of its node, of the view whose precommits it committed on. */
  lemma {:induction false} FinalizedIsCommitted(cfg: P.Config, init: P.State, actions: seq<P.Action>, lo: nat, hi: nat,
                                                c: Cfg, db: Db, turns: seq<Turn>, i: nat)
    requires P.AllEnabled(cfg, init, actions) && Hosted(cfg, init, actions, lo, hi, c, db, turns)
    requires var log := MachineAfter(c, db, turns).log; i < |log| && log[i].Finalized?
    ensures var m := MachineAfter(c, db, turns);
            P.Deed(c.self, m.commitView, HashOf(m.log[i].t)) in P.Run(cfg, init, actions).commits
  {
    var m := MachineAfter(c, db, turns);
    var start := P.Run(cfg, init, actions[..lo]);
    CutRun(cfg, init, actions, lo, hi);
    RunSimulated(cfg, start, c, db, turns);
    assert Shown(P.Run(cfg, start, actions[lo..hi]), c, m.commitView, m.log[i]);
  }

  /** Two instances of one protocol run, of one node or of two, at the same time or one after the other: if what they
      finalize shares a governed participant, it is of one chain, and it is the same tesseract when they committed in
      one view or at one height. */
  lemma {:induction false} FinalizationsAgree(cfg: P.Config, init: P.State, actions: seq<P.Action>, p: Address,
                                              lo1: nat, hi1: nat, c1: Cfg, db1: Db, turns1: seq<Turn>, i: nat,
                                              lo2: nat, hi2: nat, c2: Cfg, db2: Db, turns2: seq<Turn>, j: nat)
    requires P.ValidConfig(cfg) && cfg.checked && P.Init(cfg, init) && P.AllEnabled(cfg, init, actions)
    requires Hosted(cfg, init, actions, lo1, hi1, c1, db1, turns1) &&
             Hosted(cfg, init, actions, lo2, hi2, c2, db2, turns2)
    requires var log := MachineAfter(c1, db1, turns1).log;
             i < |log| && log[i].Finalized? && p in P.Governed(cfg, log[i].t)
    requires var log := MachineAfter(c2, db2, turns2).log;
             j < |log| && log[j].Finalized? && p in P.Governed(cfg, log[j].t)
    requires MachineAfter(c1, db1, turns1).commitView <= MachineAfter(c2, db2, turns2).commitView
    ensures var m1, m2 := MachineAfter(c1, db1, turns1), MachineAfter(c2, db2, turns2);
            var t1, t2 := m1.log[i].t, m2.log[j].t;
            && P.Extends(HashOf(t1), HashOf(t2), p)
            && (m1.commitView == m2.commitView || t1.heights[p] == t2.heights[p] ==> t1 == t2)
  {
    var m1, m2 := MachineAfter(c1, db1, turns1), MachineAfter(c2, db2, turns2);
    FinalizedIsCommitted(cfg, init, actions, lo1, hi1, c1, db1, turns1, i);
    FinalizedIsCommitted(cfg, init, actions, lo2, hi2, c2, db2, turns2, j);
    var d := P.Deed(c1.self, m1.commitView, HashOf(m1.log[i].t));
    var e := P.Deed(c2.self, m2.commitView, HashOf(m2.log[j].t));
    P.Agreement(cfg, init, actions, P.Run(cfg, init, actions), d, e, p);
  }
}
