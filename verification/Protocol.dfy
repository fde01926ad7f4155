/** The protocol as a distributed system: honest nodes that keep the rules, Byzantine nodes that send anything. */
module Protocol {
  import opened Types
  import opened Safety
  import opened Prepare

  // ---------- the system ----------

  /** The context of every account, the nodes that may misbehave, and whether a validator checks that the highest
      reported certificate was really signed. */
  datatype Config = Config(contexts: map<Address, set<KramaID>>, byzantine: set<KramaID>, checked: bool)

  ghost predicate ValidConfig(cfg: Config) {
    forall p :: p in cfg.contexts ==>
      Fits(|cfg.contexts[p]|) && 3 * |cfg.byzantine * cfg.contexts[p]| < |cfg.contexts[p]|
  }

  datatype Ballot = Ballot(node: KramaID, kind: MsgType, view: nat, hash: Hash)

  datatype Report = Report(node: KramaID, view: nat, infos: seq<ViewInfo>)

  datatype Node = Node(view: nat, db: Db)

  datatype Deed = Deed(node: KramaID, view: nat, hash: Hash)

  /** What a validator looked at when it prevoted: the participants, its own locks, and the prepare quorum. */
  datatype Evidence = Evidence(addrs: seq<Address>, local: seq<ViewInfo>, peers: seq<Report>)

  /** Everything ever sent, and the state of the honest nodes. */
  datatype State = State(
    ballots: set<Ballot>,
    reports: set<Report>,
    nodes: map<KramaID, Node>,
    evidence: map<Deed, Evidence>,
    locks: set<Deed>,
    commits: set<Deed>)

  /** The participants of a tesseract whose contexts have to agree. */
  function Governed(cfg: Config, t: Tesseract): set<Address> {
    (t.heights.Keys - t.excluded) * cfg.contexts.Keys
  }

  ghost function Voters(ballots: set<Ballot>, ctx: set<KramaID>, kind: MsgType, view: nat, hash: Hash): set<KramaID> {
    set n | n in ctx && Ballot(n, kind, view, hash) in ballots
  }

  /** A quorum of every governed context has signed this view and hash. */
  ghost predicate Certified(cfg: Config, ballots: set<Ballot>, kind: MsgType, view: nat, hash: Hash) {
    hash.HashOf? &&
    forall p :: p in Governed(cfg, hash.t) ==>
      |Voters(ballots, cfg.contexts[p], kind, view, hash)| >= QuorumOf(|cfg.contexts[p]|)
  }

  // ---------- the voting rule ----------

  /** `t` proposes the tesseract `h` of participant `p` again, or is its next one. */
  ghost predicate Follows(t: Tesseract, p: Address, h: Hash) {
    && h.HashOf? && p in h.t.heights && p in t.heights
    && (HashOf(t) == h || (p in t.links && t.links[p] == h && t.heights[p] == h.t.heights[p] + 1))
  }

  ghost predicate Justified(cfg: Config, ballots: set<Ballot>, t: Tesseract, p: Address, vi: ViewInfo) {
    && vi.qcs != []
    && var qc := vi.qcs[0];
       && qc.view == vi.lastView && qc.kind != OtherMsg
       && (cfg.checked && qc.view != GENESIS_VIEW ==> Certified(cfg, ballots, qc.kind, qc.view, qc.hash))
       && Follows(t, p, qc.hash)
       && p in Governed(cfg, qc.hash.t)
  }

  ghost predicate Aligned(infos: seq<ViewInfo>, addrs: seq<Address>, view: nat) {
    |infos| == |addrs| && forall i :: 0 <= i < |addrs| ==> infos[i].addr == addrs[i] && infos[i].lastView < view
  }

  ghost function PeerIds(peers: seq<Report>): set<KramaID> {
    set r | r in peers :: r.node
  }

  function PeerInfos(peers: seq<Report>): (infos: seq<seq<ViewInfo>>)
    ensures |infos| == |peers| && forall i :: 0 <= i < |peers| ==> infos[i] == peers[i].infos
  {
    seq(|peers|, i requires 0 <= i < |peers| => peers[i].infos)
  }

  ghost predicate Accepts(cfg: Config, ballots: set<Ballot>, reports: set<Report>, view: nat, t: Tesseract,
                          ev: Evidence) {
    && (forall a :: a in ev.addrs <==> a in t.heights)
    && Aligned(ev.local, ev.addrs, view)
    && (forall r :: r in ev.peers ==> r in reports && r.view == view && Aligned(r.infos, ev.addrs, view))
    && (forall p :: p in Governed(cfg, t) ==> |PeerIds(ev.peers) * cfg.contexts[p]| >= QuorumOf(|cfg.contexts[p]|))
    && (forall i :: 0 <= i < |ev.addrs| && ev.addrs[i] in Governed(cfg, t) ==>
          Justified(cfg, ballots, t, ev.addrs[i], Fold(ev.local, PeerInfos(ev.peers))[i]))
  }

  // ---------- steps ----------

  // A node records a certificate of its view at the addresses of its proposal, votes to commit a tesseract it has
  // recorded and that is prevote-certified, and commits one that is precommit-certified. The certificate it keeps of a
  // commit names its own view, whatever view the precommits were of.

  datatype Action =
    | Advance(n: KramaID, view: nat)
    | SendReport(n: KramaID, addrs: seq<Address>)
    | CastPrevote(n: KramaID, t: Tesseract, ev: Evidence)
    | Record(n: KramaID, t: Tesseract, qc: Qc)
    | CastPrecommit(n: KramaID, t: Tesseract)
    | Commit(n: KramaID, t: Tesseract, qc: Qc, view: nat)
    | ByzantineBallot(ballot: Ballot)
    | ByzantineReport(report: Report)

  /** Nothing was prevoted in this view on any participant of `t`. */
  ghost predicate NotPrevoted(s: State, n: KramaID, view: nat, t: Tesseract) {
    forall b :: b in s.ballots && b.node == n && b.kind == Prevote && b.view == view && b.hash.HashOf? ==>
      b.hash.t.heights.Keys !! t.heights.Keys
  }

  ghost predicate CertificateFor(qc: Qc, kind: MsgType, view: nat, t: Tesseract) {
    qc.kind == kind && qc.view == view && qc.hash == HashOf(t)
  }

  ghost predicate Enabled(cfg: Config, s: State, a: Action) {
    match a
    case Advance(n, view) => n in s.nodes && view > s.nodes[n].view
    case SendReport(n, addrs) => n in s.nodes && LoadViewInfo(s.nodes[n].db, addrs).Some?
    case CastPrevote(n, t, ev) =>
      && n in s.nodes
      && var node := s.nodes[n];
         && LoadViewInfo(node.db, ev.addrs) == Some(ev.local)
         && NotPrevoted(s, n, node.view, t)
         && Accepts(cfg, s.ballots, s.reports, node.view, t, ev)
    case Record(n, t, qc) => n in s.nodes && qc.view == s.nodes[n].view
    case CastPrecommit(n, t) =>
      && n in s.nodes
      && var view := s.nodes[n].view;
         Deed(n, view, HashOf(t)) in s.locks && Certified(cfg, s.ballots, Prevote, view, HashOf(t))
    case Commit(n, t, qc, view) =>
      && n in s.nodes
      && CertificateFor(qc, Precommit, s.nodes[n].view, t) && Certified(cfg, s.ballots, Precommit, view, HashOf(t))
    case ByzantineBallot(b) => b.node in cfg.byzantine
    case ByzantineReport(r) => r.node in cfg.byzantine
  }

  ghost function Next(cfg: Config, s: State, a: Action): State
    requires Enabled(cfg, s, a)
  {
    match a
    case Advance(n, view) => s.(nodes := s.nodes[n := s.nodes[n].(view := view)])
    case SendReport(n, addrs) =>
      s.(reports := s.reports + {Report(n, s.nodes[n].view, LoadViewInfo(s.nodes[n].db, addrs).value)})
    case CastPrevote(n, t, ev) =>
      var view, h := s.nodes[n].view, HashOf(t);
      s.(ballots := s.ballots + {Ballot(n, Prevote, view, h)}, evidence := s.evidence[Deed(n, view, h) := ev])
    case Record(n, t, qc) =>
      var node := s.nodes[n];
      s.(nodes := s.nodes[n := node.(db := Persist(node.db, t, qc))],
        locks := s.locks + {Deed(n, node.view, HashOf(t))})
    case CastPrecommit(n, t) =>
      s.(ballots := s.ballots + {Ballot(n, Precommit, s.nodes[n].view, HashOf(t))})
    case Commit(n, t, qc, view) =>
      var node := s.nodes[n];
      s.(nodes := s.nodes[n := node.(db := Finalize(node.db, t, qc))],
        commits := s.commits + {Deed(n, view, HashOf(t))})
    case ByzantineBallot(b) => s.(ballots := s.ballots + {b})
    case ByzantineReport(r) => s.(reports := s.reports + {r})
  }

  /** Everybody starts above the genesis view, knows the head of every account with a context, and holds no lock. */
  ghost predicate Init(cfg: Config, s: State) {
    && s.ballots == {} && s.reports == {} && s.evidence == map[] && s.locks == {} && s.commits == {}
    && s.nodes.Keys !! cfg.byzantine
    && forall n :: n in s.nodes ==>
         s.nodes[n].view > GENESIS_VIEW && s.nodes[n].db.safety == map[] && NodeOk(cfg, s.nodes[n])
  }

  ghost predicate AllEnabled(cfg: Config, s: State, actions: seq<Action>)
    decreases |actions|
  {
    actions != [] ==> Enabled(cfg, s, actions[0]) && AllEnabled(cfg, Next(cfg, s, actions[0]), actions[1..])
  }

  ghost function Run(cfg: Config, s: State, actions: seq<Action>): State
    requires AllEnabled(cfg, s, actions)
    decreases |actions|
  {
    if actions == [] then s else Run(cfg, Next(cfg, s, actions[0]), actions[1..])
  }

  // ---------- the invariant ----------

  /** Accounts with a context have a head with a commit record, and no record is ahead of the node's view. */
  ghost predicate NodeOk(cfg: Config, node: Node) {
    var db := node.db;
    && cfg.contexts.Keys <= db.meta.Keys
    && (forall a :: a in db.safety ==> db.safety[a].qcs != [] && LastView(db.safety[a]) <= node.view)
    && (forall a :: a in db.meta ==> db.meta[a] in db.commits)
    && (forall h :: h in db.commits ==> db.commits[h].view <= node.view)
  }

  ghost function ReportedView(db: Db, a: Address): nat
    requires a in db.meta && (a in db.safety ==> db.safety[a].qcs != []) && db.meta[a] in db.commits
  {
    if a in db.safety then LastView(db.safety[a]) else db.commits[db.meta[a]].view
  }

  ghost predicate NodesOk(cfg: Config, s: State) {
    s.nodes.Keys !! cfg.byzantine && forall n :: n in s.nodes ==> NodeOk(cfg, s.nodes[n])
  }

  /** Honest messages come from known nodes and are not ahead of their view. */
  ghost predicate SentOk(cfg: Config, s: State) {
    && (forall b :: b in s.ballots && b.node !in cfg.byzantine ==>
          b.node in s.nodes && GENESIS_VIEW < b.view <= s.nodes[b.node].view)
    && (forall r :: r in s.reports && r.node !in cfg.byzantine ==> r.node in s.nodes && r.view <= s.nodes[r.node].view)
    && (forall n :: n in s.nodes ==> s.nodes[n].view > GENESIS_VIEW)
  }

  /** Two prevotes of one node in one view that share a participant. */
  ghost predicate Overlapping(b: Ballot, c: Ballot) {
    && b.node == c.node && b.kind == Prevote && c.kind == Prevote && b.view == c.view
    && b.hash.HashOf? && c.hash.HashOf? && !(b.hash.t.heights.Keys !! c.hash.t.heights.Keys)
  }

  /** Honest nodes prevote one tesseract per view and participant. */
  ghost predicate PrevoteOnce(cfg: Config, s: State) {
    forall b, c :: b in s.ballots && c in s.ballots && b.node !in cfg.byzantine && Overlapping(b, c) ==>
      b.hash == c.hash
  }

  ghost predicate PrevoteJustified(cfg: Config, s: State, b: Ballot) {
    && b.hash.HashOf?
    && Deed(b.node, b.view, b.hash) in s.evidence
    && Accepts(cfg, s.ballots, s.reports, b.view, b.hash.t, s.evidence[Deed(b.node, b.view, b.hash)])
  }

  ghost predicate PrevotesJustified(cfg: Config, s: State) {
    forall b :: b in s.ballots && b.kind == Prevote && b.node !in cfg.byzantine ==> PrevoteJustified(cfg, s, b)
  }

  /** An honest precommit comes with a persisted lock on a certified tesseract. */
  ghost predicate PrecommitsLocked(cfg: Config, s: State) {
    forall b :: b in s.ballots && b.kind == Precommit && b.node !in cfg.byzantine ==>
      Deed(b.node, b.view, b.hash) in s.locks && Certified(cfg, s.ballots, Prevote, b.view, b.hash)
  }

  ghost predicate ReportsAtLeast(cfg: Config, r: Report, t: Tesseract, view: nat) {
    forall i :: 0 <= i < |r.infos| && r.infos[i].addr in Governed(cfg, t) ==> r.infos[i].lastView >= view
  }

  /** A lock is never forgotten: the node's state shows it, and so does every later report. */
  ghost predicate LockKept(cfg: Config, s: State, d: Deed) {
    && d.hash.HashOf? && d.node in s.nodes && d.view <= s.nodes[d.node].view
    && (NodeOk(cfg, s.nodes[d.node]) ==>
          forall p :: p in Governed(cfg, d.hash.t) ==> ReportedView(s.nodes[d.node].db, p) >= d.view)
    && (forall r :: r in s.reports && r.node == d.node && r.view > d.view ==> ReportsAtLeast(cfg, r, d.hash.t, d.view))
  }

  ghost predicate LocksKept(cfg: Config, s: State) {
    forall d :: d in s.locks ==> LockKept(cfg, s, d)
  }

  ghost predicate CommitsCertified(cfg: Config, s: State) {
    forall d :: d in s.commits ==> d.node in s.nodes && Certified(cfg, s.ballots, Precommit, d.view, d.hash)
  }

  ghost predicate Inv(cfg: Config, s: State) {
    && NodesOk(cfg, s) && SentOk(cfg, s) && PrevoteOnce(cfg, s) && PrevotesJustified(cfg, s)
    && PrecommitsLocked(cfg, s) && LocksKept(cfg, s) && CommitsCertified(cfg, s)
  }

  // ---------- every step keeps the invariant ----------

  lemma CertifiedMonotone(cfg: Config, some: set<Ballot>, all: set<Ballot>, kind: MsgType, view: nat, hash: Hash)
    requires some <= all && Certified(cfg, some, kind, view, hash)
    ensures Certified(cfg, all, kind, view, hash)
  {
    forall p | p in Governed(cfg, hash.t)
      ensures |Voters(all, cfg.contexts[p], kind, view, hash)| >= QuorumOf(|cfg.contexts[p]|)
    {
      var ctx := cfg.contexts[p];
      SubsetSize(Voters(some, ctx, kind, view, hash), Voters(all, ctx, kind, view, hash));
    }
  }

  lemma AcceptsMonotone(cfg: Config, s: State, s': State, view: nat, t: Tesseract, ev: Evidence)
    requires s.ballots <= s'.ballots && s.reports <= s'.reports
    requires Accepts(cfg, s.ballots, s.reports, view, t, ev)
    ensures Accepts(cfg, s'.ballots, s'.reports, view, t, ev)
  {
    var hv := Fold(ev.local, PeerInfos(ev.peers));
    forall i | 0 <= i < |ev.addrs| && ev.addrs[i] in Governed(cfg, t)
      ensures Justified(cfg, s'.ballots, t, ev.addrs[i], hv[i])
    {
      assert Justified(cfg, s.ballots, t, ev.addrs[i], hv[i]);
      var qc := hv[i].qcs[0];
      if cfg.checked && qc.view != GENESIS_VIEW {
        CertifiedMonotone(cfg, s.ballots, s'.ballots, qc.kind, qc.view, qc.hash);
      }
    }
  }

  lemma UpdateQcLastView(sd: SafetyData, qc: Qc)
    ensures UpdateQc(sd, qc).qcs != [] && LastView(UpdateQc(sd, qc)) == qc.view
  {
  }

  /** Persisting a certificate of the current view makes it the report of every address it is for. */
  lemma PersistReports(cfg: Config, node: Node, t: Tesseract, qc: Qc)
    requires NodeOk(cfg, node) && qc.view == node.view
    ensures var after := node.(db := Persist(node.db, t, qc));
            && NodeOk(cfg, after)
            && forall a :: a in node.db.meta ==>
                ReportedView(after.db, a) == if a in t.heights then qc.view else ReportedView(node.db, a)
  {
    var after := Persist(node.db, t, qc);
    forall a | a in after.safety
      ensures after.safety[a].qcs != []
      ensures LastView(after.safety[a]) == if a in t.heights then qc.view else LastView(node.db.safety[a])
    {
      if a in t.heights && a in node.db.safety {
        UpdateQcLastView(node.db.safety[a], qc);
      }
    }
  }

  /** After finalization the commit certificate takes over from the deleted locks, at the same view or a later one. */
  lemma FinalizeReports(cfg: Config, node: Node, t: Tesseract, qc: Qc)
    requires NodeOk(cfg, node) && qc.view == node.view
    ensures var after := node.(db := Finalize(node.db, t, qc));
            && NodeOk(cfg, after)
            && forall a :: a in node.db.meta ==>
                ReportedView(after.db, a) >= if a in t.heights then qc.view else ReportedView(node.db, a)
  {
    var after := Finalize(node.db, t, qc);
    assert after.commits[HashOf(t)] == qc;
    forall h | h in after.commits
      ensures after.commits[h].view <= node.view
      ensures h in node.db.commits ==> after.commits[h].view >= node.db.commits[h].view
    {
    }
  }

  lemma ReportWithinView(cfg: Config, node: Node)
    requires NodeOk(cfg, node)
    ensures forall a :: a in node.db.meta ==> ReportedView(node.db, a) <= node.view
  {
    forall a | a in node.db.meta
      ensures ReportedView(node.db, a) <= node.view
    {
      if a !in node.db.safety {
        assert node.db.meta[a] in node.db.commits;
      }
    }
  }

  /** A node moves on: its view does not fall, and neither does what it reports about any account. */
  ghost predicate NodeGrows(cfg: Config, node: Node, node': Node)
    requires NodeOk(cfg, node)
  {
    && node.view <= node'.view && NodeOk(cfg, node')
    && forall p :: p in cfg.contexts ==> ReportedView(node.db, p) <= ReportedView(node'.db, p)
  }

  lemma LockGrows(cfg: Config, node: Node, t: Tesseract, qc: Qc)
    requires NodeOk(cfg, node) && qc.view == node.view
    ensures NodeGrows(cfg, node, node.(db := Persist(node.db, t, qc)))
  {
    PersistReports(cfg, node, t, qc);
    ReportWithinView(cfg, node);
  }

  lemma CommitGrows(cfg: Config, node: Node, t: Tesseract, qc: Qc)
    requires NodeOk(cfg, node) && qc.view == node.view
    ensures NodeGrows(cfg, node, node.(db := Finalize(node.db, t, qc)))
  {
    FinalizeReports(cfg, node, t, qc);
    ReportWithinView(cfg, node);
  }

  lemma NodeKeptBy(cfg: Config, s: State, a: Action, n: KramaID)
    requires NodesOk(cfg, s) && Enabled(cfg, s, a) && n in s.nodes
    ensures NodeOk(cfg, s.nodes[n]) && n in Next(cfg, s, a).nodes
    ensures NodeGrows(cfg, s.nodes[n], Next(cfg, s, a).nodes[n])
  {
    var node := s.nodes[n];
    assert NodeOk(cfg, node);
    if a.Record? && a.n == n {
      LockGrows(cfg, node, a.t, a.qc);
    } else if a.Commit? && a.n == n {
      CommitGrows(cfg, node, a.t, a.qc);
    }
  }

  /** What a step can add: messages of Byzantine nodes, or of an honest node in its current view. */
  lemma StepAdds(cfg: Config, s: State, a: Action)
    requires Enabled(cfg, s, a)
    ensures var s' := Next(cfg, s, a);
            && s.ballots <= s'.ballots && s.reports <= s'.reports && s.nodes.Keys == s'.nodes.Keys
            && (forall b :: b in s'.ballots ==>
                  b in s.ballots || b.node in cfg.byzantine || (b.node in s.nodes && b.view == s.nodes[b.node].view))
            && (forall r :: r in s'.reports ==>
                  r in s.reports || r.node in cfg.byzantine || (r.node in s.nodes && r.view == s.nodes[r.node].view))
  {
  }

  lemma KeepsNodes(cfg: Config, s: State, a: Action)
    requires NodesOk(cfg, s) && Enabled(cfg, s, a)
    ensures NodesOk(cfg, Next(cfg, s, a))
    ensures forall n :: n in s.nodes ==> n in Next(cfg, s, a).nodes && s.nodes[n].view <= Next(cfg, s, a).nodes[n].view
  {
    StepAdds(cfg, s, a);
    forall n | n in s.nodes
      ensures n in Next(cfg, s, a).nodes && NodeOk(cfg, Next(cfg, s, a).nodes[n])
      ensures s.nodes[n].view <= Next(cfg, s, a).nodes[n].view
    {
      NodeKeptBy(cfg, s, a, n);
    }
  }

  lemma KeepsSent(cfg: Config, s: State, a: Action)
    requires NodesOk(cfg, s) && SentOk(cfg, s) && Enabled(cfg, s, a)
    ensures SentOk(cfg, Next(cfg, s, a))
  {
    KeepsNodes(cfg, s, a);
    StepAdds(cfg, s, a);
  }

  lemma KeepsPrevoteOnce(cfg: Config, s: State, a: Action)
    requires PrevoteOnce(cfg, s) && NodesOk(cfg, s) && Enabled(cfg, s, a)
    ensures PrevoteOnce(cfg, Next(cfg, s, a))
  {
    var s' := Next(cfg, s, a);
    forall b, c | b in s'.ballots && c in s'.ballots && b.node !in cfg.byzantine && Overlapping(b, c)
      ensures b.hash == c.hash
    {
      assert a.CastPrevote? || (b in s.ballots && c in s.ballots);
    }
  }

  lemma KeepsPrevotes(cfg: Config, s: State, a: Action)
    requires PrevotesJustified(cfg, s) && NodesOk(cfg, s) && Enabled(cfg, s, a)
    ensures PrevotesJustified(cfg, Next(cfg, s, a))
  {
    var s' := Next(cfg, s, a);
    StepAdds(cfg, s, a);
    forall b | b in s'.ballots && b.kind == Prevote && b.node !in cfg.byzantine
      ensures PrevoteJustified(cfg, s', b)
    {
      if a.CastPrevote? && b == Ballot(a.n, Prevote, s.nodes[a.n].view, HashOf(a.t)) {
        AcceptsMonotone(cfg, s, s', b.view, a.t, a.ev);
      } else {
        assert b in s.ballots;
        assert PrevoteJustified(cfg, s, b);
        var d := Deed(b.node, b.view, b.hash);
        AcceptsMonotone(cfg, s, s', b.view, b.hash.t, s.evidence[d]);
        assert s'.evidence[d] == s.evidence[d];
      }
    }
  }

  lemma KeepsCertificates(cfg: Config, s: State, a: Action)
    requires PrecommitsLocked(cfg, s) && CommitsCertified(cfg, s) && NodesOk(cfg, s) && Enabled(cfg, s, a)
    ensures PrecommitsLocked(cfg, Next(cfg, s, a)) && CommitsCertified(cfg, Next(cfg, s, a))
  {
    var s' := Next(cfg, s, a);
    forall b | b in s'.ballots && b.kind == Precommit && b.node !in cfg.byzantine
      ensures Deed(b.node, b.view, b.hash) in s'.locks && Certified(cfg, s'.ballots, Prevote, b.view, b.hash)
    {
      CertifiedMonotone(cfg, s.ballots, s'.ballots, Prevote, b.view, b.hash);
    }
    forall d | d in s'.commits
      ensures d.node in s'.nodes && Certified(cfg, s'.ballots, Precommit, d.view, d.hash)
    {
      CertifiedMonotone(cfg, s.ballots, s'.ballots, Precommit, d.view, d.hash);
    }
  }

  /** A report shows what the node's store holds. */
  lemma {:induction false} ReportShowsStore(cfg: Config, node: Node, addrs: seq<Address>, i: nat)
    requires NodeOk(cfg, node) && LoadViewInfo(node.db, addrs).Some? && i < |addrs|
    requires var infos := LoadViewInfo(node.db, addrs).value; infos[i].addr in cfg.contexts
    ensures var infos := LoadViewInfo(node.db, addrs).value;
            infos[i].lastView == ReportedView(node.db, infos[i].addr)
  {
    var infos := LoadViewInfo(node.db, addrs).value;
    assert ViewInfoOf(node.db, addrs[i]) == Some(infos[i]);
  }

  lemma OldLockKept(cfg: Config, s: State, a: Action, d: Deed)
    requires NodesOk(cfg, s) && Enabled(cfg, s, a) && LockKept(cfg, s, d)
    ensures LockKept(cfg, Next(cfg, s, a), d)
  {
    var s' := Next(cfg, s, a);
    NodeKeptBy(cfg, s, a, d.node);
    var node := s.nodes[d.node];
    assert NodeOk(cfg, node);
    forall r | r in s'.reports && r.node == d.node && r.view > d.view
      ensures ReportsAtLeast(cfg, r, d.hash.t, d.view)
    {
      if r !in s.reports {
        assert a.SendReport? && a.n == d.node && r.infos == LoadViewInfo(node.db, a.addrs).value;
        forall i | 0 <= i < |r.infos| && r.infos[i].addr in Governed(cfg, d.hash.t)
          ensures r.infos[i].lastView >= d.view
        {
          ReportShowsStore(cfg, node, a.addrs, i);
        }
      }
    }
  }

  lemma NewLockKept(cfg: Config, s: State, a: Action, d: Deed)
    requires NodesOk(cfg, s) && SentOk(cfg, s) && Enabled(cfg, s, a)
    requires d in Next(cfg, s, a).locks && d !in s.locks
    ensures LockKept(cfg, Next(cfg, s, a), d)
  {
    var node := s.nodes[a.n];
    assert NodeOk(cfg, node);
    PersistReports(cfg, node, a.t, a.qc);
  }

  lemma KeepsLocks(cfg: Config, s: State, a: Action)
    requires NodesOk(cfg, s) && SentOk(cfg, s) && LocksKept(cfg, s) && Enabled(cfg, s, a)
    ensures LocksKept(cfg, Next(cfg, s, a))
  {
    forall d | d in Next(cfg, s, a).locks
      ensures LockKept(cfg, Next(cfg, s, a), d)
    {
      if d in s.locks {
        OldLockKept(cfg, s, a, d);
      } else {
        NewLockKept(cfg, s, a, d);
      }
    }
  }

  lemma StepKeepsInv(cfg: Config, s: State, a: Action)
    requires Inv(cfg, s) && Enabled(cfg, s, a)
    ensures Inv(cfg, Next(cfg, s, a))
  {
    KeepsNodes(cfg, s, a);
    KeepsSent(cfg, s, a);
    KeepsPrevoteOnce(cfg, s, a);
    KeepsPrevotes(cfg, s, a);
    KeepsCertificates(cfg, s, a);
    KeepsLocks(cfg, s, a);
  }

  lemma {:induction false} InvHolds(cfg: Config, s: State, actions: seq<Action>)
    requires Inv(cfg, s) && AllEnabled(cfg, s, actions)
    ensures Inv(cfg, Run(cfg, s, actions))
    decreases |actions|
  {
    if actions != [] {
      StepKeepsInv(cfg, s, actions[0]);
      InvHolds(cfg, Next(cfg, s, actions[0]), actions[1..]);
    }
  }

  // ---------- safety of one view ----------

  lemma HonestVoter(cfg: Config, s: State, kind: MsgType, view: nat, hash: Hash, p: Address) returns (n: KramaID)
    requires ValidConfig(cfg) && Certified(cfg, s.ballots, kind, view, hash) && p in Governed(cfg, hash.t)
    ensures n !in cfg.byzantine && n in cfg.contexts[p] && Ballot(n, kind, view, hash) in s.ballots
  {
    var voters := Voters(s.ballots, cfg.contexts[p], kind, view, hash);
    n := QuorumIntersection(cfg.contexts[p], cfg.byzantine, voters, voters);
  }

  lemma PrecommitsFollowPrevotes(cfg: Config, s: State, view: nat, hash: Hash, p: Address)
    requires ValidConfig(cfg) && PrecommitsLocked(cfg, s) && Certified(cfg, s.ballots, Precommit, view, hash)
    requires p in Governed(cfg, hash.t)
    ensures Certified(cfg, s.ballots, Prevote, view, hash)
  {
    var n := HonestVoter(cfg, s, Precommit, view, hash, p);
  }

  /** Within one view, tesseracts that share a governed participant are not both certified. */
  lemma SameViewAgreement(cfg: Config, s: State, view: nat, g: Hash, h: Hash, p: Address)
    requires ValidConfig(cfg) && PrevoteOnce(cfg, s)
    requires Certified(cfg, s.ballots, Prevote, view, g) && Certified(cfg, s.ballots, Prevote, view, h)
    requires p in Governed(cfg, g.t) && p in Governed(cfg, h.t)
    ensures g == h
  {
    var ctx := cfg.contexts[p];
    var n := QuorumIntersection(ctx, cfg.byzantine,
      Voters(s.ballots, ctx, Prevote, view, g), Voters(s.ballots, ctx, Prevote, view, h));
    assert p in g.t.heights.Keys && p in h.t.heights.Keys;
    assert Overlapping(Ballot(n, Prevote, view, g), Ballot(n, Prevote, view, h));
  }

  // ---------- lock discovery ----------

  /** The members of a context that persisted the lock, or at least claim so by their precommit. */
  ghost function Holders(cfg: Config, s: State, view: nat, hash: Hash, p: Address): set<KramaID>
    requires p in cfg.contexts
  {
    set n | n in cfg.contexts[p] && (Ballot(n, Precommit, view, hash) in s.ballots || Deed(n, view, hash) in s.locks)
  }

  /** The reports an operator or a validator counts: all of one view, all for the same addresses. */
  ghost predicate Counted(s: State, later: nat, addrs: seq<Address>, peers: seq<Report>) {
    forall r :: r in peers ==>
      && r in s.reports && r.view == later
      && |r.infos| == |addrs| && forall i :: 0 <= i < |addrs| ==> r.infos[i].addr == addrs[i]
  }

  /** The nodes whose reports were taken at entry `i`. */
  ghost function TakenIds(peers: seq<Report>, taken: seq<Taken>, i: nat): set<KramaID>
    requires |taken| == |peers|
  {
    set j | 0 <= j < |peers| && Covers(taken[j], i) :: peers[j].node
  }

  /** Two quorums of one context meet in an honest node that holds the lock and whose report was taken. */
  lemma HolderReported(cfg: Config, s: State, view: nat, hash: Hash, p: Address, peers: seq<Report>, taken: seq<Taken>,
                       i: nat)
    returns (j: nat)
    requires ValidConfig(cfg) && PrecommitsLocked(cfg, s) && p in cfg.contexts && |taken| == |peers|
    requires |Holders(cfg, s, view, hash, p)| >= QuorumOf(|cfg.contexts[p]|)
    requires |TakenIds(peers, taken, i) * cfg.contexts[p]| >= QuorumOf(|cfg.contexts[p]|)
    ensures j < |peers| && Covers(taken[j], i) && Deed(peers[j].node, view, hash) in s.locks
  {
    var ctx := cfg.contexts[p];
    var m := QuorumIntersection(ctx, cfg.byzantine, Holders(cfg, s, view, hash, p), TakenIds(peers, taken, i) * ctx);
    j :| 0 <= j < |peers| && Covers(taken[j], i) && peers[j].node == m;
  }

  lemma {:induction false} LockDiscovered(
    cfg: Config, s: State, view: nat, hash: Hash, later: nat,
    addrs: seq<Address>, local: seq<ViewInfo>, peers: seq<Report>, taken: seq<Taken>, i: nat)
    requires ValidConfig(cfg) && PrecommitsLocked(cfg, s) && LocksKept(cfg, s) && hash.HashOf? && view < later
    requires i < |addrs| == |local| && addrs[i] in Governed(cfg, hash.t) && Counted(s, later, addrs, peers)
    requires |taken| == |peers| && forall j :: 0 <= j < |peers| ==> taken[j].infos == peers[j].infos
    requires |Holders(cfg, s, view, hash, addrs[i])| >= QuorumOf(|cfg.contexts[addrs[i]]|)
    requires |TakenIds(peers, taken, i) * cfg.contexts[addrs[i]]| >= QuorumOf(|cfg.contexts[addrs[i]]|)
    ensures FoldTaken(local, taken)[i].lastView >= view
  {
    var j := HolderReported(cfg, s, view, hash, addrs[i], peers, taken, i);
    assert peers[j] in peers;
    assert LockKept(cfg, s, Deed(peers[j].node, view, hash));
    assert ReportsAtLeast(cfg, peers[j], hash.t, view);
    FoundIff(local, taken, i, view);
  }

  /** Reports that are taken whole are taken at every entry. */
  lemma WholeTakesAll(s: State, later: nat, addrs: seq<Address>, local: seq<ViewInfo>, peers: seq<Report>, i: nat)
    requires i < |addrs| == |local| && Counted(s, later, addrs, peers)
    ensures TakenIds(peers, Whole(local, PeerInfos(peers)), i) == PeerIds(peers)
  {
    var taken := Whole(local, PeerInfos(peers));
    forall r | r in peers
      ensures r.node in TakenIds(peers, taken, i)
    {
      var j :| 0 <= j < |peers| && peers[j] == r;
      assert Covers(taken[j], i);
    }
  }

  // ---------- safety across views ----------

  /** `h` is `g` or a later tesseract of participant `p` on the same chain. */
  ghost predicate Extends(g: Hash, h: Hash, p: Address) {
    && g.HashOf? && h.HashOf? && p in g.t.heights && p in h.t.heights
    && Ancestor(g, h, p)
    && (g == h || g.t.heights[p] < h.t.heights[p])
  }

  lemma FollowsExtends(g: Hash, h: Hash, t: Tesseract, p: Address)
    requires Extends(g, h, p) && Follows(t, p, h)
    ensures Extends(g, HashOf(t), p)
  {
  }

  /** The highest entry of accepted evidence was reported before the view of the vote. */
  lemma HighestIsEarlier(cfg: Config, ballots: set<Ballot>, reports: set<Report>, view: nat, t: Tesseract,
                         ev: Evidence, i: nat)
    requires Accepts(cfg, ballots, reports, view, t, ev) && i < |ev.addrs|
    ensures Fold(ev.local, PeerInfos(ev.peers))[i].lastView < view
  {
    FoldIsHighest(ev.local, PeerInfos(ev.peers), i);
    forall j | 0 <= j < |ev.peers|
      ensures PeerInfos(ev.peers)[j][i].lastView < view
    {
      assert ev.peers[j] in ev.peers;
    }
  }

  lemma AcceptedAreCounted(cfg: Config, s: State, view: nat, t: Tesseract, ev: Evidence)
    requires Accepts(cfg, s.ballots, s.reports, view, t, ev)
    ensures Counted(s, view, ev.addrs, ev.peers)
  {
  }

  /** The tesseract a later prevote had to follow was certified in between, or is the committed one itself. */
  lemma HighestIsBetween(cfg: Config, s: State, view: nat, hash: Hash, n: KramaID, later: nat, next: Hash, p: Address)
    returns (qc: Qc)
    requires ValidConfig(cfg) && cfg.checked
    requires PrecommitsLocked(cfg, s) && LocksKept(cfg, s) && PrevotesJustified(cfg, s)
    requires GENESIS_VIEW < view < later && n !in cfg.byzantine && Ballot(n, Prevote, later, next) in s.ballots
    requires Certified(cfg, s.ballots, Precommit, view, hash) && p in Governed(cfg, hash.t)
    requires next.HashOf? && p in Governed(cfg, next.t)
    ensures view <= qc.view < later && qc.kind != OtherMsg
    ensures Certified(cfg, s.ballots, qc.kind, qc.view, qc.hash) && p in Governed(cfg, qc.hash.t)
    ensures Follows(next.t, p, qc.hash)
  {
    assert PrevoteJustified(cfg, s, Ballot(n, Prevote, later, next));
    var ev := s.evidence[Deed(n, later, next)];
    AcceptedAreCounted(cfg, s, later, next.t, ev);
    assert p in ev.addrs;
    var i :| 0 <= i < |ev.addrs| && ev.addrs[i] == p;
    HoldersOfCertified(cfg, s, view, hash, p);
    WholeTakesAll(s, later, ev.addrs, ev.local, ev.peers, i);
    LockDiscovered(cfg, s, view, hash, later, ev.addrs, ev.local, ev.peers, Whole(ev.local, PeerInfos(ev.peers)), i);
    HighestIsEarlier(cfg, s.ballots, s.reports, later, next.t, ev, i);
    var highest := Fold(ev.local, PeerInfos(ev.peers))[i];
    assert Justified(cfg, s.ballots, next.t, p, highest);
    qc := highest.qcs[0];
  }

  lemma HoldersOfCertified(cfg: Config, s: State, view: nat, hash: Hash, p: Address)
    requires Certified(cfg, s.ballots, Precommit, view, hash) && p in Governed(cfg, hash.t)
    ensures |Holders(cfg, s, view, hash, p)| >= QuorumOf(|cfg.contexts[p]|)
  {
    SubsetSize(Voters(s.ballots, cfg.contexts[p], Precommit, view, hash), Holders(cfg, s, view, hash, p));
  }

  lemma CertifiedAboveGenesis(cfg: Config, s: State, kind: MsgType, view: nat, hash: Hash, p: Address)
    requires ValidConfig(cfg) && SentOk(cfg, s) && Certified(cfg, s.ballots, kind, view, hash) &&
             p in Governed(cfg, hash.t)
    ensures view > GENESIS_VIEW
  {
    var n := HonestVoter(cfg, s, kind, view, hash, p);
  }

  /** By induction on views: whatever is certified after a commit extends the committed tesseract. */
  lemma {:induction false} LaterCertifiedExtends(
    cfg: Config, s: State, view: nat, hash: Hash, later: nat, next: Hash, p: Address)
    requires ValidConfig(cfg) && cfg.checked && Inv(cfg, s) && view < later
    requires Certified(cfg, s.ballots, Precommit, view, hash) && p in Governed(cfg, hash.t)
    requires Certified(cfg, s.ballots, Prevote, later, next) && p in Governed(cfg, next.t)
    ensures Extends(hash, next, p)
    decreases later
  {
    CertifiedAboveGenesis(cfg, s, Precommit, view, hash, p);
    var n := HonestVoter(cfg, s, Prevote, later, next, p);
    var qc := HighestIsBetween(cfg, s, view, hash, n, later, next, p);
    if qc.kind == Precommit {
      PrecommitsFollowPrevotes(cfg, s, qc.view, qc.hash, p);
    }
    if qc.view == view {
      PrecommitsFollowPrevotes(cfg, s, view, hash, p);
      SameViewAgreement(cfg, s, view, hash, qc.hash, p);
    } else {
      LaterCertifiedExtends(cfg, s, view, hash, qc.view, qc.hash, p);
    }
    FollowsExtends(hash, qc.hash, next.t, p);
  }

  // ---------- the theorems, over every run ----------

  ghost predicate Reached(cfg: Config, init: State, actions: seq<Action>, s: State) {
    ValidConfig(cfg) && Init(cfg, init) && AllEnabled(cfg, init, actions) && s == Run(cfg, init, actions)
  }

  lemma ReachedInv(cfg: Config, init: State, actions: seq<Action>, s: State)
    requires Reached(cfg, init, actions, s)
    ensures Inv(cfg, s)
  {
    assert Inv(cfg, init);
    InvHolds(cfg, init, actions);
  }

  /** Once a quorum of a context holds a lock, every later prepare quorum of that context brings up its view or a
      higher one, provided that the reports taken at the context's entry, refused ones up to where they stopped, are of
      a quorum. In any case the view is found exactly when the own entry or one that was taken shows it, and with
      entries that all validate nothing is refused. */
  lemma {:induction false} LockDiscovery(
    cfg: Config, init: State, actions: seq<Action>, s: State, view: nat, hash: Hash, later: nat,
    addrs: seq<Address>, local: seq<ViewInfo>, peers: seq<Report>, valid: ViewInfo -> bool, i: nat)
    requires Reached(cfg, init, actions, s) && hash.HashOf? && view < later
    requires i < |addrs| == |local| && addrs[i] in Governed(cfg, hash.t) && Counted(s, later, addrs, peers)
    requires |Holders(cfg, s, view, hash, addrs[i])| >= QuorumOf(|cfg.contexts[addrs[i]]|)
    ensures var taken := Processed(local, PeerInfos(peers), valid);
            && (|TakenIds(peers, taken, i) * cfg.contexts[addrs[i]]| >= QuorumOf(|cfg.contexts[addrs[i]]|) ==>
                  FoldTaken(local, taken)[i].lastView >= view)
            && (FoldTaken(local, taken)[i].lastView >= view <==>
                  || local[i].lastView >= view
                  || exists j :: 0 <= j < |peers| && Covers(taken[j], i) && peers[j].infos[i].lastView >= view)
            && (SameOrder(local, PeerInfos(peers)) && AllValid(local, PeerInfos(peers), valid) ==>
                  TakenIds(peers, taken, i) == PeerIds(peers))
  {
    var taken := Processed(local, PeerInfos(peers), valid);
    ReachedInv(cfg, init, actions, s);
    if |TakenIds(peers, taken, i) * cfg.contexts[addrs[i]]| >= QuorumOf(|cfg.contexts[addrs[i]]|) {
      LockDiscovered(cfg, s, view, hash, later, addrs, local, peers, taken, i);
    }
    FoundIff(local, taken, i, view);
    if SameOrder(local, PeerInfos(peers)) && AllValid(local, PeerInfos(peers), valid) {
      ValidTakenWhole(local, PeerInfos(peers), valid);
      WholeTakesAll(s, later, addrs, local, peers, i);
    }
  }

  /** Once an honest node committed a tesseract, every prevote certificate of a later view on a shared participant
      is for the same tesseract or for a later one on its chain. */
  lemma CrossViewSafety(cfg: Config, init: State, actions: seq<Action>, s: State, d: Deed, later: nat, next: Hash,
                        p: Address)
    requires Reached(cfg, init, actions, s) && cfg.checked
    requires d in s.commits && d.view < later && Certified(cfg, s.ballots, Prevote, later, next)
    requires d.hash.HashOf? && p in Governed(cfg, d.hash.t) && p in Governed(cfg, next.t)
    ensures Extends(d.hash, next, p)
  {
    ReachedInv(cfg, init, actions, s);
    LaterCertifiedExtends(cfg, s, d.view, d.hash, later, next, p);
  }

  /** Two honest commits that share a participant are on one chain, and equal when they are at the same height. */
  lemma Agreement(cfg: Config, init: State, actions: seq<Action>, s: State, d: Deed, e: Deed, p: Address)
    requires Reached(cfg, init, actions, s) && cfg.checked
    requires d in s.commits && e in s.commits && d.view <= e.view && d.hash.HashOf? && e.hash.HashOf?
    requires p in Governed(cfg, d.hash.t) && p in Governed(cfg, e.hash.t)
    ensures Extends(d.hash, e.hash, p)
    ensures d.view == e.view || d.hash.t.heights[p] == e.hash.t.heights[p] ==> d.hash == e.hash
  {
    ReachedInv(cfg, init, actions, s);
    PrecommitsFollowPrevotes(cfg, s, e.view, e.hash, p);
    if d.view == e.view {
      PrecommitsFollowPrevotes(cfg, s, d.view, d.hash, p);
      SameViewAgreement(cfg, s, d.view, d.hash, e.hash, p);
    } else {
      LaterCertifiedExtends(cfg, s, d.view, d.hash, e.view, e.hash, p);
    }
  }
}
