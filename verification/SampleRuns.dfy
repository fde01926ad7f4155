/** Concrete runs of the protocol: one that commits and goes on, and one that leaves the chain because reported
    certificates are not checked. */
module SampleRuns {
  import opened Types
  import opened Safety
  import opened Prepare
  import opened Protocol
  import Bridge

  // ---------- four nodes and one account ----------

  const ACCOUNT: Address := 7

  /** Nodes 0 to 3, the last of them Byzantine. */
  function FourNodes(checked: bool): Config {
    Config(map[ACCOUNT := {0, 1, 2, 3}], {3}, checked)
  }

  function Opening(): Tesseract {
    Tesseract(0, map[ACCOUNT := 0], map[], map[], {}, 0, 0)
  }

  /** The next tesseract of the account after `t`, told apart by its interactions. */
  function Successor(t: Tesseract, height: nat, ixns: nat, view: nat): Tesseract {
    Tesseract(ixns, map[ACCOUNT := height], map[ACCOUNT := HashOf(t)], map[], {}, 0, view)
  }

  function Committed(): Tesseract { Successor(Opening(), 1, 1, 1) }

  function Continued(): Tesseract { Successor(Committed(), 2, 2, 3) }

  function Fabricated(): Tesseract { Successor(Opening(), 1, 3, 2) }

  function Misled(): Tesseract { Successor(Fabricated(), 2, 4, 3) }

  function QcOn(kind: MsgType, view: nat, t: Tesseract): Qc {
    Qc(kind, view, HashOf(t), [], Signature(CanonicalVote(kind, view, HashOf(t)), multiset{}))
  }

  function InfoOn(kind: MsgType, view: nat, t: Tesseract): ViewInfo {
    ViewInfo(ACCOUNT, view, [QcOn(kind, view, t)])
  }

  /** A store that knows the opening tesseract as the head of the account. */
  function FirstDb(): Db {
    Db(map[], map[], map[ACCOUNT := HashOf(Opening())],
      map[HashOf(Opening()) := QcOn(Precommit, GENESIS_VIEW, Opening())])
  }

  function Start(): State {
    State({}, {}, map[0 := Node(1, FirstDb()), 1 := Node(1, FirstDb()), 2 := Node(1, FirstDb())], map[], {}, {})
  }

  lemma StartFacts(checked: bool)
    ensures ValidConfig(FourNodes(checked)) && Init(FourNodes(checked), Start())
    ensures Reached(FourNodes(checked), Start(), [], Start())
  {
    var cfg := FourNodes(checked);
    assert cfg.byzantine * cfg.contexts[ACCOUNT] == {3};
    assert |cfg.contexts[ACCOUNT]| == 4;
    assert NodeOk(cfg, Node(1, FirstDb()));
  }

  /** A tesseract of the account alone. */
  predicate Plain(t: Tesseract) {
    t.heights.Keys == {ACCOUNT} && t.excluded == {}
  }

  lemma Governs(checked: bool, t: Tesseract)
    requires Plain(t)
    ensures Governed(FourNodes(checked), t) == {ACCOUNT}
  {
  }

  // ---------- building a run ----------

  /** The actions are enabled one after the other and lead from one state to the other. */
  ghost predicate Leads(cfg: Config, s0: State, actions: seq<Action>, s: State) {
    AllEnabled(cfg, s0, actions) && Run(cfg, s0, actions) == s
  }

  lemma Chain(cfg: Config, s0: State, a: seq<Action>, s1: State, b: seq<Action>, s2: State)
    requires Leads(cfg, s0, a, s1) && Leads(cfg, s1, b, s2)
    ensures Leads(cfg, s0, a + b, s2)
  {
    Bridge.AppendRuns(cfg, s0, a, b);
  }

  lemma ChainThree(cfg: Config, s0: State, a: seq<Action>, s1: State, b: seq<Action>, s2: State, c: seq<Action>,
                   s3: State)
    requires Leads(cfg, s0, a, s1) && Leads(cfg, s1, b, s2) && Leads(cfg, s2, c, s3)
    ensures Leads(cfg, s0, a + b + c, s3)
  {
    Chain(cfg, s0, a, s1, b, s2);
    Chain(cfg, s0, a + b, s2, c, s3);
  }

  /** The honest nodes are in this view and report these entries. */
  ghost predicate At(nodes: map<KramaID, Node>, view: nat, infos: map<KramaID, ViewInfo>) {
    nodes.Keys == {0, 1, 2} == infos.Keys && forall n :: n in nodes ==> Shows(nodes[n], view, infos[n])
  }

  ghost predicate Shows(node: Node, view: nat, vi: ViewInfo) {
    node.view == view && LoadViewInfo(node.db, [ACCOUNT]) == Some([vi])
  }

  lemma {:induction false} LoadsOne(db: Db, vi: ViewInfo)
    requires ViewInfoOf(db, ACCOUNT) == Some(vi)
    ensures LoadViewInfo(db, [ACCOUNT]) == Some([vi])
  {
    assert forall i :: 0 <= i < |[ACCOUNT]| ==> ViewInfoOf(db, [ACCOUNT][i]).Some?;
    var r := LoadViewInfo(db, [ACCOUNT]);
    assert ViewInfoOf(db, [ACCOUNT][0]) == Some(r.value[0]);
    assert r.value == [vi];
  }

  lemma ReportOne(cfg: Config, s0: State, n: KramaID, vi: ViewInfo)
    returns (actions: seq<Action>, s: State)
    requires n in s0.nodes && LoadViewInfo(s0.nodes[n].db, [ACCOUNT]) == Some([vi])
    ensures Leads(cfg, s0, actions, s) && s == s0.(reports := s0.reports + {Report(n, s0.nodes[n].view, [vi])})
  {
    var a := SendReport(n, [ACCOUNT]);
    Bridge.OneAction(cfg, s0, a);
    actions, s := [a], Next(cfg, s0, a);
  }

  lemma AllReport(cfg: Config, s0: State, view: nat, infos: map<KramaID, ViewInfo>)
    returns (actions: seq<Action>, s: State)
    requires At(s0.nodes, view, infos)
    ensures Leads(cfg, s0, actions, s) && s == s0.(reports := s.reports)
    ensures Report(0, view, [infos[0]]) in s.reports && Report(1, view, [infos[1]]) in s.reports
    ensures Report(2, view, [infos[2]]) in s.reports
  {
    var first, s1 := ReportOne(cfg, s0, 0, infos[0]);
    var second, s2 := ReportOne(cfg, s1, 1, infos[1]);
    var third;
    third, s := ReportOne(cfg, s2, 2, infos[2]);
    actions := first + second + third;
    ChainThree(cfg, s0, first, s1, second, s2, third, s);
  }

  function ByThree(kind: MsgType, view: nat, t: Tesseract): set<Ballot> {
    {Ballot(0, kind, view, HashOf(t)), Ballot(1, kind, view, HashOf(t)), Ballot(2, kind, view, HashOf(t))}
  }

  lemma ThreeCertify(checked: bool, ballots: set<Ballot>, kind: MsgType, view: nat, t: Tesseract)
    requires ByThree(kind, view, t) <= ballots
    ensures Certified(FourNodes(checked), ballots, kind, view, HashOf(t))
  {
    var cfg := FourNodes(checked);
    forall p | p in Governed(cfg, t)
      ensures |Voters(ballots, cfg.contexts[p], kind, view, HashOf(t))| >= QuorumOf(|cfg.contexts[p]|)
    {
      assert |cfg.contexts[p]| == 4 && QuorumOf(4) == 3;
      SubsetSize({0, 1, 2}, Voters(ballots, cfg.contexts[p], kind, view, HashOf(t)));
    }
  }

  /** The entries of the first `n` nodes and these reports allow them to prevote `t`. */
  ghost predicate AllAccept(cfg: Config, s: State, view: nat, infos: map<KramaID, ViewInfo>, t: Tesseract,
                            peers: seq<Report>, n: nat) {
    n > 0 ==>
      && n - 1 in infos && Accepts(cfg, s.ballots, s.reports, view, t, Evidence([ACCOUNT], [infos[n - 1]], peers))
      && AllAccept(cfg, s, view, infos, t, peers, n - 1)
  }

  lemma {:induction false} AcceptedOn(cfg: Config, s: State, s': State, view: nat, infos: map<KramaID, ViewInfo>,
                                      t: Tesseract, peers: seq<Report>, n: nat)
    requires AllAccept(cfg, s, view, infos, t, peers, n) && s.ballots <= s'.ballots && s.reports <= s'.reports
    ensures AllAccept(cfg, s', view, infos, t, peers, n)
  {
    if n > 0 {
      AcceptsMonotone(cfg, s, s', view, t, Evidence([ACCOUNT], [infos[n - 1]], peers));
      AcceptedOn(cfg, s, s', view, infos, t, peers, n - 1);
    }
  }

  lemma {:induction false} AcceptsAt(cfg: Config, s: State, view: nat, infos: map<KramaID, ViewInfo>, t: Tesseract,
                                     peers: seq<Report>, n: nat, k: nat)
    requires AllAccept(cfg, s, view, infos, t, peers, n) && k < n
    ensures k in infos && Accepts(cfg, s.ballots, s.reports, view, t, Evidence([ACCOUNT], [infos[k]], peers))
  {
    if k < n - 1 {
      AcceptsAt(cfg, s, view, infos, t, peers, n - 1, k);
    }
  }

  lemma {:induction false} AllThreeAccept(cfg: Config, s: State, view: nat, infos: map<KramaID, ViewInfo>,
                                          t: Tesseract, peers: seq<Report>)
    requires infos.Keys == {0, 1, 2}
    requires forall k :: k in infos ==>
             Accepts(cfg, s.ballots, s.reports, view, t, Evidence([ACCOUNT], [infos[k]], peers))
    ensures AllAccept(cfg, s, view, infos, t, peers, 3)
  {
    assert AllAccept(cfg, s, view, infos, t, peers, 0);
    assert AllAccept(cfg, s, view, infos, t, peers, 1);
    assert AllAccept(cfg, s, view, infos, t, peers, 2);
  }

  /** Nothing was sent in this view by the nodes from `n` on. */
  ghost predicate Silent(s: State, view: nat, n: KramaID) {
    forall b :: b in s.ballots && b.node >= n ==> b.view != view
  }

  lemma PrevoteOne(cfg: Config, s0: State, view: nat, infos: map<KramaID, ViewInfo>,
                   t: Tesseract, peers: seq<Report>, n: KramaID)
    returns (actions: seq<Action>, s: State)
    requires At(s0.nodes, view, infos) && AllAccept(cfg, s0, view, infos, t, peers, 3)
    requires n < 3 && Silent(s0, view, n)
    ensures Leads(cfg, s0, actions, s) && AllAccept(cfg, s, view, infos, t, peers, 3)
    ensures s == s0.(ballots := s0.ballots + {Ballot(n, Prevote, view, HashOf(t))}, evidence := s.evidence)
    ensures Silent(s, view, n + 1)
  {
    AcceptsAt(cfg, s0, view, infos, t, peers, 3, n);
    var a := CastPrevote(n, t, Evidence([ACCOUNT], [infos[n]], peers));
    assert NotPrevoted(s0, n, view, t);
    Bridge.OneAction(cfg, s0, a);
    actions, s := [a], Next(cfg, s0, a);
    AcceptedOn(cfg, s0, s, view, infos, t, peers, 3);
  }

  lemma AddThree(ballots: set<Ballot>, view: nat, t: Tesseract)
    ensures ballots + {Ballot(0, Prevote, view, HashOf(t))} + {Ballot(1, Prevote, view, HashOf(t))} +
            {Ballot(2, Prevote, view, HashOf(t))} == ballots + ByThree(Prevote, view, t)
  {
  }

  lemma AllPrevote(cfg: Config, s0: State, view: nat, infos: map<KramaID, ViewInfo>,
                   t: Tesseract, peers: seq<Report>)
    returns (actions: seq<Action>, s: State)
    requires At(s0.nodes, view, infos) && AllAccept(cfg, s0, view, infos, t, peers, 3)
    requires Silent(s0, view, 0)
    ensures Leads(cfg, s0, actions, s) &&
            s == s0.(ballots := s0.ballots + ByThree(Prevote, view, t), evidence := s.evidence)
  {
    var first, s1 := PrevoteOne(cfg, s0, view, infos, t, peers, 0);
    var second, s2 := PrevoteOne(cfg, s1, view, infos, t, peers, 1);
    var third;
    third, s := PrevoteOne(cfg, s2, view, infos, t, peers, 2);
    actions := first + second + third;
    ChainThree(cfg, s0, first, s1, second, s2, third, s);
    AddThree(s0.ballots, view, t);
  }

  /** Three prevotes certify `t`. */
  lemma CertifyRound(checked: bool, s0: State, view: nat, infos: map<KramaID, ViewInfo>,
                     t: Tesseract, peers: seq<Report>)
    returns (actions: seq<Action>, s: State)
    requires At(s0.nodes, view, infos)
    requires AllAccept(FourNodes(checked), s0, view, infos, t, peers, 3) && Silent(s0, view, 0)
    ensures Leads(FourNodes(checked), s0, actions, s) && s.commits == s0.commits
    ensures Certified(FourNodes(checked), s.ballots, Prevote, view, HashOf(t))
  {
    actions, s := AllPrevote(FourNodes(checked), s0, view, infos, t, peers);
    ThreeCertify(checked, s.ballots, Prevote, view, t);
  }

  lemma LockOne(cfg: Config, s0: State, n: KramaID, t: Tesseract, qc: Qc)
    returns (actions: seq<Action>, s: State)
    requires n in s0.nodes && qc.view == s0.nodes[n].view
    ensures Leads(cfg, s0, actions, s)
    ensures s == s0.(nodes := s0.nodes[n := Node(qc.view, Persist(s0.nodes[n].db, t, qc))],
                     locks := s0.locks + {Deed(n, qc.view, HashOf(t))})
  {
    var a := Record(n, t, qc);
    Bridge.OneAction(cfg, s0, a);
    actions, s := [a], Next(cfg, s0, a);
  }

  /** All honest nodes are in this view and have this store. */
  ghost predicate Alike(s: State, view: nat, db: Db) {
    s.nodes == map[0 := Node(view, db), 1 := Node(view, db), 2 := Node(view, db)]
  }

  lemma ThreeUpdates(nodes: map<KramaID, Node>, was: Node, now: Node)
    requires nodes == map[0 := was, 1 := was, 2 := was]
    ensures nodes[0 := now][1 := now][2 := now] == map[0 := now, 1 := now, 2 := now]
  {
  }

  lemma AllLock(cfg: Config, s0: State, view: nat, db: Db, t: Tesseract, qc: Qc)
    returns (actions: seq<Action>, s: State)
    requires Alike(s0, view, db) && qc.view == view
    ensures Leads(cfg, s0, actions, s) && Alike(s, view, Persist(db, t, qc))
    ensures s == s0.(nodes := s.nodes, locks := s.locks)
    ensures forall n :: n in s.nodes ==> Deed(n, view, HashOf(t)) in s.locks
  {
    var first, s1 := LockOne(cfg, s0, 0, t, qc);
    var second, s2 := LockOne(cfg, s1, 1, t, qc);
    var third;
    third, s := LockOne(cfg, s2, 2, t, qc);
    actions := first + second + third;
    ThreeUpdates(s0.nodes, Node(view, db), Node(view, Persist(db, t, qc)));
    ChainThree(cfg, s0, first, s1, second, s2, third, s);
  }

  lemma PrecommitOne(cfg: Config, s0: State, n: KramaID, t: Tesseract)
    returns (actions: seq<Action>, s: State)
    requires n in s0.nodes && Deed(n, s0.nodes[n].view, HashOf(t)) in s0.locks
    requires Certified(cfg, s0.ballots, Prevote, s0.nodes[n].view, HashOf(t))
    ensures Leads(cfg, s0, actions, s)
    ensures s == s0.(ballots := s0.ballots + {Ballot(n, Precommit, s0.nodes[n].view, HashOf(t))})
    ensures Certified(cfg, s.ballots, Prevote, s0.nodes[n].view, HashOf(t))
  {
    var a := CastPrecommit(n, t);
    Bridge.OneAction(cfg, s0, a);
    actions, s := [a], Next(cfg, s0, a);
    CertifiedMonotone(cfg, s0.ballots, s.ballots, Prevote, s0.nodes[n].view, HashOf(t));
  }

  lemma AllPrecommit(cfg: Config, s0: State, view: nat, db: Db, t: Tesseract)
    returns (actions: seq<Action>, s: State)
    requires Alike(s0, view, db)
    requires forall n :: n in s0.nodes ==> Deed(n, view, HashOf(t)) in s0.locks
    requires Certified(cfg, s0.ballots, Prevote, view, HashOf(t))
    ensures Leads(cfg, s0, actions, s) && s == s0.(ballots := s0.ballots + ByThree(Precommit, view, t))
  {
    var first, s1 := PrecommitOne(cfg, s0, 0, t);
    var second, s2 := PrecommitOne(cfg, s1, 1, t);
    var third;
    third, s := PrecommitOne(cfg, s2, 2, t);
    actions := first + second + third;
    ChainThree(cfg, s0, first, s1, second, s2, third, s);
  }

  lemma AdvanceOne(cfg: Config, s0: State, n: KramaID, view: nat)
    returns (actions: seq<Action>, s: State)
    requires n in s0.nodes && s0.nodes[n].view < view
    ensures Leads(cfg, s0, actions, s) && s == s0.(nodes := s0.nodes[n := Node(view, s0.nodes[n].db)])
  {
    var a := Advance(n, view);
    Bridge.OneAction(cfg, s0, a);
    actions, s := [a], Next(cfg, s0, a);
  }

  lemma AllAdvance(cfg: Config, s0: State, view: nat)
    returns (actions: seq<Action>, s: State)
    requires s0.nodes.Keys == {0, 1, 2}
    requires forall n :: n in s0.nodes ==> s0.nodes[n].view < view
    ensures Leads(cfg, s0, actions, s) && s == s0.(nodes := s.nodes) && s.nodes.Keys == {0, 1, 2}
    ensures forall n :: n in s.nodes ==> s.nodes[n] == Node(view, s0.nodes[n].db)
  {
    var first, s1 := AdvanceOne(cfg, s0, 0, view);
    var second, s2 := AdvanceOne(cfg, s1, 1, view);
    var third;
    third, s := AdvanceOne(cfg, s2, 2, view);
    actions := first + second + third;
    ChainThree(cfg, s0, first, s1, second, s2, third, s);
  }

  // ---------- the voting rule for one account ----------

  /** Reports of one entry on the account, of this view. */
  ghost predicate OnAccount(reports: set<Report>, view: nat, r: Report) {
    r in reports && r.view == view && |r.infos| == 1 && r.infos[0].addr == ACCOUNT && r.infos[0].lastView < view
  }

  lemma OneAccountAccepts(cfg: Config, ballots: set<Ballot>, reports: set<Report>, view: nat, t: Tesseract,
                          own: ViewInfo, peers: seq<Report>)
    requires t.heights.Keys == {ACCOUNT} && ACCOUNT in cfg.contexts && own.addr == ACCOUNT && own.lastView < view
    requires forall r :: r in peers ==> OnAccount(reports, view, r)
    requires |PeerIds(peers) * cfg.contexts[ACCOUNT]| >= QuorumOf(|cfg.contexts[ACCOUNT]|)
    requires Justified(cfg, ballots, t, ACCOUNT, Fold([own], PeerInfos(peers))[0])
    ensures Accepts(cfg, ballots, reports, view, t, Evidence([ACCOUNT], [own], peers))
  {
    var ev := Evidence([ACCOUNT], [own], peers);
    forall r | r in peers
      ensures r in reports && r.view == view && Aligned(r.infos, ev.addrs, view)
    {
      AccountAligned(r.infos, view);
    }
    AccountAligned([own], view);
    assert forall q :: q in Governed(cfg, t) ==> q == ACCOUNT;
    assert forall a :: a in ev.addrs <==> a == ACCOUNT;
    forall i | 0 <= i < |ev.addrs|
      ensures Justified(cfg, ballots, t, ev.addrs[i], Fold(ev.local, PeerInfos(ev.peers))[i])
    {
      assert i == 0;
    }
  }

  lemma AccountAligned(infos: seq<ViewInfo>, view: nat)
    requires |infos| == 1 && infos[0].addr == ACCOUNT && infos[0].lastView < view
    ensures Aligned(infos, [ACCOUNT], view)
  {
  }

  lemma ThreePeers(checked: bool, a: Report, b: Report, c: Report)
    requires a.node < b.node < c.node < 4
    ensures var ctx := FourNodes(checked).contexts[ACCOUNT]; |PeerIds([a, b, c]) * ctx| >= QuorumOf(|ctx|)
  {
    var ctx := FourNodes(checked).contexts[ACCOUNT];
    var peers := [a, b, c];
    assert |ctx| == 4 && QuorumOf(4) == 3;
    assert peers[0] in peers && peers[1] in peers && peers[2] in peers;
    SubsetSize({a.node, b.node, c.node}, PeerIds(peers) * ctx);
  }

  // ---------- the first view ----------

  function SameInfos(vi: ViewInfo): map<KramaID, ViewInfo> {
    map[0 := vi, 1 := vi, 2 := vi]
  }

  function Reports(view: nat, infos: map<KramaID, ViewInfo>): seq<Report>
    requires infos.Keys == {0, 1, 2}
  {
    [Report(0, view, [infos[0]]), Report(1, view, [infos[1]]), Report(2, view, [infos[2]])]
  }

  /** An entry on the account that was reported in this view and that `t` may follow. */
  ghost predicate Followed(cfg: Config, s: State, view: nat, t: Tesseract, n: KramaID, vi: ViewInfo) {
    && Report(n, view, [vi]) in s.reports && vi.addr == ACCOUNT && vi.lastView < view
    && Justified(cfg, s.ballots, t, ACCOUNT, vi)
  }

  lemma FollowedIsHighest(cfg: Config, s: State, view: nat, t: Tesseract, own: ViewInfo, peers: seq<Report>)
    requires Justified(cfg, s.ballots, t, ACCOUNT, own)
    requires forall j :: 0 <= j < |peers| ==>
               |peers[j].infos| == 1 && Justified(cfg, s.ballots, t, ACCOUNT, peers[j].infos[0])
    ensures Justified(cfg, s.ballots, t, ACCOUNT, Fold([own], PeerInfos(peers))[0])
  {
    FoldIsHighest([own], PeerInfos(peers), 0);
  }

  lemma ThreeFollowed(cfg: Config, s: State, view: nat, t: Tesseract, infos: map<KramaID, ViewInfo>)
    requires infos.Keys == {0, 1, 2} && forall n :: n in infos ==> Followed(cfg, s, view, t, n, infos[n])
    ensures forall r :: r in Reports(view, infos) ==> OnAccount(s.reports, view, r)
    ensures var peers := Reports(view, infos);
            forall j :: 0 <= j < |peers| ==>
              |peers[j].infos| == 1 && Justified(cfg, s.ballots, t, ACCOUNT, peers[j].infos[0])
  {
    assert Followed(cfg, s, view, t, 0, infos[0]) && Followed(cfg, s, view, t, 1, infos[1]);
    assert Followed(cfg, s, view, t, 2, infos[2]);
  }

  lemma FollowingOne(checked: bool, s: State, view: nat, infos: map<KramaID, ViewInfo>, t: Tesseract, k: KramaID)
    requires infos.Keys == {0, 1, 2} && t.heights.Keys == {ACCOUNT} && k in infos
    requires forall n :: n in infos ==> Followed(FourNodes(checked), s, view, t, n, infos[n])
    ensures Accepts(FourNodes(checked), s.ballots, s.reports, view, t,
            Evidence([ACCOUNT], [infos[k]], Reports(view, infos)))
  {
    var cfg, peers := FourNodes(checked), Reports(view, infos);
    ThreeFollowed(cfg, s, view, t, infos);
    ThreePeers(checked, peers[0], peers[1], peers[2]);
    FollowedIsHighest(cfg, s, view, t, infos[k], peers);
    OneAccountAccepts(cfg, s.ballots, s.reports, view, t, infos[k], peers);
  }

  /** When every entry is one a node may follow, all nodes accept. */
  lemma {:induction false} FollowingAccepts(checked: bool, s: State, view: nat, infos: map<KramaID, ViewInfo>,
                                            t: Tesseract)
    requires infos.Keys == {0, 1, 2} && t.heights.Keys == {ACCOUNT}
    requires forall n :: n in infos ==> Followed(FourNodes(checked), s, view, t, n, infos[n])
    ensures AllAccept(FourNodes(checked), s, view, infos, t, Reports(view, infos), 3)
  {
    forall k | k in infos
      ensures Accepts(FourNodes(checked), s.ballots, s.reports, view, t,
              Evidence([ACCOUNT], [infos[k]], Reports(view, infos)))
    {
      FollowingOne(checked, s, view, infos, t, k);
    }
    AllThreeAccept(FourNodes(checked), s, view, infos, t, Reports(view, infos));
  }

  lemma {:induction false} GenesisAccepted(checked: bool, s: State)
    requires var infos := SameInfos(InfoOn(Precommit, GENESIS_VIEW, Opening()));
             && Report(0, 1, [infos[0]]) in s.reports && Report(1, 1, [infos[1]]) in s.reports
             && Report(2, 1, [infos[2]]) in s.reports
    ensures var infos := SameInfos(InfoOn(Precommit, GENESIS_VIEW, Opening()));
            AllAccept(FourNodes(checked), s, 1, infos, Committed(), Reports(1, infos), 3)
  {
    Governs(checked, Opening());
    FollowingAccepts(checked, s, 1, SameInfos(InfoOn(Precommit, GENESIS_VIEW, Opening())), Committed());
  }

  lemma FirstInfos()
    ensures At(Start().nodes, 1, SameInfos(InfoOn(Precommit, GENESIS_VIEW, Opening())))
  {
    LoadsOne(FirstDb(), InfoOn(Precommit, GENESIS_VIEW, Opening()));
  }

  /** A view in which everybody prevotes, locks and precommits `t`. */
  lemma VoteRound(checked: bool, s0: State, view: nat, db: Db, vi: ViewInfo,
                  t: Tesseract, peers: seq<Report>, qc: Qc)
    returns (actions: seq<Action>, s: State)
    requires Alike(s0, view, db) && qc.view == view
    requires At(s0.nodes, view, SameInfos(vi)) && AllAccept(FourNodes(checked), s0, view, SameInfos(vi), t, peers, 3)
    requires s0.ballots == {} && s0.commits == {}
    ensures Leads(FourNodes(checked), s0, actions, s) && Alike(s, view, Persist(db, t, qc)) && s.commits == {}
    ensures s.ballots == ByThree(Prevote, view, t) + ByThree(Precommit, view, t)
  {
    var cfg := FourNodes(checked);
    var first, s1 := AllPrevote(cfg, s0, view, SameInfos(vi), t, peers);
    var second, s2 := AllLock(cfg, s1, view, db, t, qc);
    ThreeCertify(checked, s2.ballots, Prevote, view, t);
    var third;
    third, s := AllPrecommit(cfg, s2, view, Persist(db, t, qc), t);
    actions := first + second + third;
    ChainThree(cfg, s0, first, s1, second, s2, third, s);
  }

  /** The first view: everybody reports, prevotes, locks and precommits. */
  lemma FirstVotes(checked: bool) returns (actions: seq<Action>, s: State)
    ensures Leads(FourNodes(checked), Start(), actions, s) && s.commits == {}
    ensures Alike(s, 1, Persist(FirstDb(), Committed(), QcOn(Prevote, 1, Committed())))
    ensures s.ballots == ByThree(Prevote, 1, Committed()) + ByThree(Precommit, 1, Committed())
  {
    var vi := InfoOn(Precommit, GENESIS_VIEW, Opening());
    StartFacts(checked);
    FirstInfos();
    var first, s1 := AllReport(FourNodes(checked), Start(), 1, SameInfos(vi));
    GenesisAccepted(checked, s1);
    var second;
    second, s := VoteRound(checked, s1, 1, FirstDb(), vi, Committed(), Reports(1, SameInfos(vi)),
                           QcOn(Prevote, 1, Committed()));
    actions := first + second;
    Chain(FourNodes(checked), Start(), first, s1, second, s);
  }

  lemma FinalizedInfo(qc: Qc)
    requires qc == QcOn(Precommit, 1, Committed())
    ensures var locked := Persist(FirstDb(), Committed(), QcOn(Prevote, 1, Committed()));
            && LoadViewInfo(locked, [ACCOUNT]) == Some([InfoOn(Prevote, 1, Committed())])
            && LoadViewInfo(Finalize(locked, Committed(), qc), [ACCOUNT]) == Some([InfoOn(Precommit, 1, Committed())])
  {
    var locked := Persist(FirstDb(), Committed(), QcOn(Prevote, 1, Committed()));
    LoadsOne(locked, InfoOn(Prevote, 1, Committed()));
    LoadsOne(Finalize(locked, Committed(), qc), InfoOn(Precommit, 1, Committed()));
  }

  /** What the honest nodes report afterwards: node 0 has committed, the others hold the lock. */
  function LaterInfos(): map<KramaID, ViewInfo> {
    map[0 := InfoOn(Precommit, 1, Committed()), 1 := InfoOn(Prevote, 1, Committed()),
      2 := InfoOn(Prevote, 1, Committed())]
  }

  lemma CommitOne(cfg: Config, s0: State, n: KramaID, t: Tesseract, qc: Qc)
    returns (actions: seq<Action>, s: State)
    requires n in s0.nodes && CertificateFor(qc, Precommit, s0.nodes[n].view, t)
    requires Certified(cfg, s0.ballots, Precommit, qc.view, HashOf(t))
    ensures Leads(cfg, s0, actions, s)
    ensures s == s0.(nodes := s0.nodes[n := Node(qc.view, Finalize(s0.nodes[n].db, t, qc))],
                     commits := s0.commits + {Deed(n, qc.view, HashOf(t))})
  {
    var a := Commit(n, t, qc, qc.view);
    Bridge.OneAction(cfg, s0, a);
    actions, s := [a], Next(cfg, s0, a);
  }

  /** After node 0 commits it shows the commit, and the others their locks. */
  lemma AfterCommit(before: map<KramaID, Node>, after: map<KramaID, Node>, view: nat, db: Db, done: Db,
                    infos: map<KramaID, ViewInfo>)
    requires before == map[0 := Node(view, db), 1 := Node(view, db), 2 := Node(view, db)]
    requires after == before[0 := Node(view, done)] && infos.Keys == {0, 1, 2}
    requires Shows(Node(view, done), view, infos[0])
    requires Shows(Node(view, db), view, infos[1]) && Shows(Node(view, db), view, infos[2])
    ensures At(after, view, infos)
  {
  }

  /** Everybody goes on to a later view with the stores they have. */
  lemma AdvanceWith(cfg: Config, s0: State, now: nat, view: nat, infos: map<KramaID, ViewInfo>)
    returns (actions: seq<Action>, s: State)
    requires At(s0.nodes, now, infos) && now < view
    ensures Leads(cfg, s0, actions, s) && s == s0.(nodes := s.nodes) && At(s.nodes, view, infos)
  {
    actions, s := AllAdvance(cfg, s0, view);
  }

  /** Node 0 commits, and everybody goes on to a later view and reports. */
  lemma CommitAndReport(cfg: Config, s0: State, db: Db, t: Tesseract, qc: Qc, view: nat,
                        infos: map<KramaID, ViewInfo>)
    returns (actions: seq<Action>, s: State)
    requires Alike(s0, qc.view, db) && CertificateFor(qc, Precommit, qc.view, t)
    requires Certified(cfg, s0.ballots, Precommit, qc.view, HashOf(t)) && qc.view < view && infos.Keys == {0, 1, 2}
    requires Shows(Node(qc.view, Finalize(db, t, qc)), qc.view, infos[0])
    requires Shows(Node(qc.view, db), qc.view, infos[1]) && Shows(Node(qc.view, db), qc.view, infos[2])
    ensures Leads(cfg, s0, actions, s) && At(s.nodes, view, infos) && s.ballots == s0.ballots
    ensures Deed(0, qc.view, HashOf(t)) in s.commits
    ensures Report(0, view, [infos[0]]) in s.reports && Report(1, view, [infos[1]]) in s.reports
    ensures Report(2, view, [infos[2]]) in s.reports
  {
    var first, s1 := CommitOne(cfg, s0, 0, t, qc);
    AfterCommit(s0.nodes, s1.nodes, qc.view, db, Finalize(db, t, qc), infos);
    var second, s2 := AdvanceWith(cfg, s1, qc.view, view, infos);
    var third;
    third, s := AllReport(cfg, s2, view, infos);
    actions := first + second + third;
    ChainThree(cfg, s0, first, s1, second, s2, third, s);
  }

  function FirstCommit(): Deed {
    Deed(0, 1, HashOf(Committed()))
  }

  function LockedDb(): Db {
    Persist(FirstDb(), Committed(), QcOn(Prevote, 1, Committed()))
  }

  /** The commit of the first view, and the reports of view 3. */
  lemma CommitFirst(checked: bool, s1: State) returns (actions: seq<Action>, s: State)
    requires Alike(s1, 1, LockedDb()) && ByThree(Precommit, 1, Committed()) <= s1.ballots
    ensures Leads(FourNodes(checked), s1, actions, s) && At(s.nodes, 3, LaterInfos()) && s.ballots == s1.ballots
    ensures FirstCommit() in s.commits && Reported(s)
  {
    var t, qc := Committed(), QcOn(Precommit, 1, Committed());
    ThreeCertify(checked, s1.ballots, Precommit, 1, t);
    FinalizedInfo(qc);
    actions, s := CommitAndReport(FourNodes(checked), s1, LockedDb(), t, qc, 3, LaterInfos());
  }

  /** The first view, its commit, and the reports of view 3. */
  lemma CommitAndAdvance(checked: bool) returns (actions: seq<Action>, s: State)
    ensures Leads(FourNodes(checked), Start(), actions, s) && At(s.nodes, 3, LaterInfos())
    ensures FirstCommit() in s.commits
    ensures s.ballots == ByThree(Prevote, 1, Committed()) + ByThree(Precommit, 1, Committed())
    ensures Reported(s) && Silent(s, 3, 0)
  {
    var first, s1 := FirstVotes(checked);
    var second;
    second, s := CommitFirst(checked, s1);
    actions := first + second;
    Chain(FourNodes(checked), Start(), first, s1, second, s);
    SilentAfter(s, Committed(), 1, 3);
  }

  lemma SilentAfter(s: State, t: Tesseract, view: nat, later: nat)
    requires s.ballots == ByThree(Prevote, view, t) + ByThree(Precommit, view, t) && view != later
    ensures Silent(s, later, 0)
  {
  }

  ghost predicate Reported(s: State) {
    && Report(0, 3, [LaterInfos()[0]]) in s.reports && Report(1, 3, [LaterInfos()[1]]) in s.reports
    && Report(2, 3, [LaterInfos()[2]]) in s.reports
  }

  // ---------- going on, and being misled ----------

  lemma {:induction false} ContinuedAccepted(s: State)
    requires s.ballots == ByThree(Prevote, 1, Committed()) + ByThree(Precommit, 1, Committed())
    requires Reported(s)
    ensures AllAccept(FourNodes(true), s, 3, LaterInfos(), Continued(), Reports(3, LaterInfos()), 3)
  {
    Governs(true, Committed());
    ThreeCertify(true, s.ballots, Prevote, 1, Committed());
    ThreeCertify(true, s.ballots, Precommit, 1, Committed());
    FollowingAccepts(true, s, 3, LaterInfos(), Continued());
  }

  /** A run with a commit and a certificate of a later view, both governed by one participant. */
  ghost predicate CertifiedLater(cfg: Config, init: State, actions: seq<Action>, s: State, d: Deed, later: nat,
                                 next: Tesseract, p: Address) {
    && Reached(cfg, init, actions, s) && d in s.commits && d.view < later && d.hash.HashOf?
    && Certified(cfg, s.ballots, Prevote, later, HashOf(next))
    && p in Governed(cfg, d.hash.t) && p in Governed(cfg, next)
  }

  /** One more round of prevotes completes a run. */
  lemma Finish(checked: bool, init: State, first: seq<Action>, s1: State, d: Deed, view: nat,
               infos: map<KramaID, ViewInfo>,
               t: Tesseract, peers: seq<Report>)
    returns (actions: seq<Action>, s: State)
    requires ValidConfig(FourNodes(checked)) && Init(FourNodes(checked), init) &&
             Leads(FourNodes(checked), init, first, s1)
    requires At(s1.nodes, view, infos) && Silent(s1, view, 0)
    requires AllAccept(FourNodes(checked), s1, view, infos, t, peers, 3)
    requires d in s1.commits && d.view < view && d.hash.HashOf? && Plain(d.hash.t) && Plain(t)
    ensures CertifiedLater(FourNodes(checked), init, actions, s, d, view, t, ACCOUNT)
  {
    var second;
    second, s := CertifyRound(checked, s1, view, infos, t, peers);
    actions := first + second;
    Chain(FourNodes(checked), init, first, s1, second, s);
    Governs(checked, d.hash.t);
    Governs(checked, t);
  }

  /** A run that has committed and is ready for another round of prevotes on `t`. */
  ghost predicate ReadyFor(checked: bool, init: State, actions: seq<Action>, s: State, t: Tesseract,
                           infos: map<KramaID, ViewInfo>, peers: seq<Report>) {
    && ValidConfig(FourNodes(checked)) && Init(FourNodes(checked), init) && Leads(FourNodes(checked), init, actions, s)
    && FirstCommit() in s.commits && At(s.nodes, 3, infos) && Silent(s, 3, 0)
    && AllAccept(FourNodes(checked), s, 3, infos, t, peers, 3)
  }

  lemma ReadyToExtend()
    returns (init: State, actions: seq<Action>, s: State, infos: map<KramaID, ViewInfo>, peers: seq<Report>)
    ensures ReadyFor(true, init, actions, s, Continued(), infos, peers)
  {
    init, infos, peers := Start(), LaterInfos(), Reports(3, LaterInfos());
    StartFacts(true);
    actions, s := CommitAndAdvance(true);
    ContinuedAccepted(s);
  }

  /** A run in which a tesseract is committed and its successor is certified in a later view. */
  lemma CommitThenExtend()
    ensures exists init, actions, s ::
            CertifiedLater(FourNodes(true), init, actions, s, FirstCommit(), 3, Continued(), ACCOUNT)
    ensures Continued() != Committed()
  {
    var init, first, s1, infos, peers := ReadyToExtend();
    var actions, s := Finish(true, init, first, s1, FirstCommit(), 3, infos, Continued(), peers);
  }

  /** The Byzantine node reports a certificate of view 2 that nobody signed. */
  function Liar(): Report { Report(3, 3, [InfoOn(Prevote, 2, Fabricated())]) }

  function MisledPeers(): seq<Report> {
    [Report(0, 3, [LaterInfos()[0]]), Report(1, 3, [LaterInfos()[1]]), Liar()]
  }

  lemma LiarIsHighest(own: ViewInfo)
    requires own.lastView == 1
    ensures Fold([own], PeerInfos(MisledPeers()))[0] == InfoOn(Prevote, 2, Fabricated())
  {
    var infos := PeerInfos(MisledPeers());
    FoldIsHighest([own], infos, 0);
    assert infos[0][0].lastView == 1 && infos[1][0].lastView == 1;
    assert infos[2][0] == InfoOn(Prevote, 2, Fabricated());
  }

  lemma {:induction false} MisledAccepted(s: State)
    requires Reported(s) && Liar() in s.reports
    ensures AllAccept(FourNodes(false), s, 3, LaterInfos(), Misled(), MisledPeers(), 3)
  {
    var cfg, infos := FourNodes(false), LaterInfos();
    ThreePeers(false, MisledPeers()[0], MisledPeers()[1], MisledPeers()[2]);
    Governs(false, Fabricated());
    forall k | k in infos
      ensures Accepts(cfg, s.ballots, s.reports, 3, Misled(), Evidence([ACCOUNT], [infos[k]], MisledPeers()))
    {
      LiarIsHighest(infos[k]);
      OneAccountAccepts(cfg, s.ballots, s.reports, 3, Misled(), infos[k], MisledPeers());
    }
    AllThreeAccept(cfg, s, 3, infos, Misled(), MisledPeers());
  }

  lemma MisledLeavesTheChain()
    ensures !Extends(HashOf(Committed()), HashOf(Misled()), ACCOUNT)
  {
    assert !Ancestor(HashOf(Committed()), HashOf(Opening()), ACCOUNT);
    assert !Ancestor(HashOf(Committed()), HashOf(Fabricated()), ACCOUNT);
  }

  lemma LieOnce(cfg: Config, s0: State, r: Report) returns (actions: seq<Action>, s: State)
    requires r.node in cfg.byzantine
    ensures Leads(cfg, s0, actions, s) && s == s0.(reports := s0.reports + {r})
  {
    var a := ByzantineReport(r);
    Bridge.OneAction(cfg, s0, a);
    actions, s := [a], Next(cfg, s0, a);
  }

  lemma ReadyToMislead()
    returns (init: State, actions: seq<Action>, s: State, infos: map<KramaID, ViewInfo>, peers: seq<Report>)
    ensures ReadyFor(false, init, actions, s, Misled(), infos, peers)
  {
    init, infos, peers := Start(), LaterInfos(), MisledPeers();
    StartFacts(false);
    var first, s1 := CommitAndAdvance(false);
    var second;
    second, s := LieOnce(FourNodes(false), s1, Liar());
    actions := first + second;
    Chain(FourNodes(false), Start(), first, s1, second, s);
    MisledAccepted(s);
  }

  /** When reported certificates are not checked, the rest of the voting rule is not enough: in some run one fabricated
      report of a higher view makes every honest node prevote, and so certify, a tesseract off the chain of a committed
      one. */
  lemma FabricatedReportMisleads()
    ensures exists init, actions, s ::
            CertifiedLater(FourNodes(false), init, actions, s, FirstCommit(), 3, Misled(), ACCOUNT)
    ensures !Extends(FirstCommit().hash, HashOf(Misled()), ACCOUNT)
  {
    var init, first, s1, infos, peers := ReadyToMislead();
    var actions, s := Finish(false, init, first, s1, FirstCommit(), 3, infos, Misled(), peers);
    MisledLeavesTheChain();
  }
}
