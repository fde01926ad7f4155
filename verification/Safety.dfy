/** The lock store of a node: persisted certificates, locked proposals, and the commit records it falls back on. */
module Safety {
  import opened Types

  // ---------- one account ----------

  datatype SafetyData = SafetyData(qcs: seq<Qc>, hashes: seq<Hash>)

  function Fresh(qc: Qc): SafetyData {
    SafetyData([qc], [qc.hash])
  }

  function Last(sd: SafetyData): Qc
    requires sd.qcs != []
  {
    sd.qcs[|sd.qcs| - 1]
  }

  function LastView(sd: SafetyData): nat
    requires sd.qcs != []
  {
    Last(sd).view
  }

  /** A newer view replaces everything, a prevote certificate of the same view is overwritten, anything else is
      appended. */
  function UpdateQc(sd: SafetyData, qc: Qc): SafetyData {
    if sd.qcs != [] && LastView(sd) < qc.view then
      Fresh(qc)
    else if sd.qcs != [] && LastView(sd) == qc.view && Last(sd).kind == Prevote then
      sd.(qcs := sd.qcs[|sd.qcs| - 1 := qc])
    else
      SafetyData(sd.qcs + [qc], sd.hashes + [qc.hash])
  }

  /** All certificates of one account belong to one view and one tesseract, and the recorded hashes say so. */
  ghost predicate SingleView(sd: SafetyData) {
    && sd.qcs != []
    && |sd.hashes| == |sd.qcs|
    && forall i :: 0 <= i < |sd.qcs| ==>
        sd.qcs[i].view == LastView(sd) && sd.qcs[i].hash == Last(sd).hash == sd.hashes[i]
  }

  /** The account keeps one view, and its last view does not fall, exactly when certificates arrive in order. */
  lemma UpdateQcInOrder(sd: SafetyData, qc: Qc)
    requires SingleView(sd)
    ensures LastView(UpdateQc(sd, qc)) == qc.view
    ensures LastView(UpdateQc(sd, qc)) >= LastView(sd) <==> qc.view >= LastView(sd)
    ensures SingleView(UpdateQc(sd, qc)) <==>
            qc.view > LastView(sd) || (qc.view == LastView(sd) && qc.hash == Last(sd).hash)
  {
    var after := UpdateQc(sd, qc);
    if !(LastView(sd) < qc.view) {
      assert sd.hashes[|sd.qcs| - 1] == Last(sd).hash;
      if LastView(sd) == qc.view && Last(sd).kind == Prevote {
        assert after.hashes[|sd.qcs| - 1] == Last(sd).hash;
      } else {
        assert after.qcs[0] == sd.qcs[0];
        assert forall i :: 0 <= i < |sd.qcs| ==> after.qcs[i] == sd.qcs[i] && after.hashes[i] == sd.hashes[i];
      }
    }
  }

  /** What an update leaves: a newer view leaves its certificate alone, over a prevote certificate of the same view it
      takes that one's place, and in every other case it is one more. Nothing else of the account changes. */
  lemma UpdateQcShape(sd: SafetyData, qc: Qc)
    ensures var after := UpdateQc(sd, qc);
            var n := |sd.qcs|;
            && (n > 0 && sd.qcs[n - 1].view < qc.view ==> after.qcs == [qc] && after.hashes == [qc.hash])
            && (n > 0 && sd.qcs[n - 1].view == qc.view && sd.qcs[n - 1].kind == Prevote ==>
                  && |after.qcs| == n && after.qcs[n - 1] == qc && after.hashes == sd.hashes
                  && forall i :: 0 <= i < n - 1 ==> after.qcs[i] == sd.qcs[i])
            && (n == 0 || sd.qcs[n - 1].view > qc.view ||
                (sd.qcs[n - 1].view == qc.view && sd.qcs[n - 1].kind != Prevote)
                ==> && |after.qcs| == n + 1 && after.qcs[n] == qc && after.qcs[..n] == sd.qcs
                    && |after.hashes| == |sd.hashes| + 1 && after.hashes[|sd.hashes|] == qc.hash
                    && after.hashes[..|sd.hashes|] == sd.hashes)
  {
  }

  /** A prevote certificate is only ever the last one of its account. */
  ghost predicate PrevoteLast(sd: SafetyData) {
    forall i :: 0 <= i < |sd.qcs| - 1 ==> sd.qcs[i].kind != Prevote
  }

  /** An account keeps no replaced lock, exactly unless an older certificate arrives after a prevote certificate. */
  lemma PrevoteLastIff(sd: SafetyData, qc: Qc)
    requires PrevoteLast(sd)
    ensures PrevoteLast(UpdateQc(sd, qc)) <==>
            !(sd.qcs != [] && Last(sd).kind == Prevote && qc.view < LastView(sd))
  {
    UpdateQcShape(sd, qc);
    var after, n := UpdateQc(sd, qc), |sd.qcs|;
    if sd.qcs != [] && Last(sd).kind == Prevote && qc.view < LastView(sd) {
      assert after.qcs[n - 1] == after.qcs[..n][n - 1] == Last(sd);
    } else if |after.qcs| == n + 1 && n > 0 {
      assert forall i :: 0 <= i < n ==> after.qcs[i] == after.qcs[..n][i] == sd.qcs[i];
    }
  }

  // ---------- the whole store ----------

  datatype Db = Db(
    safety: map<Address, SafetyData>,
    proposals: map<Hash, Tesseract>,
    meta: map<Address, Hash>,
    commits: map<Hash, Qc>)

  function UpdatedSafety(safety: map<Address, SafetyData>, addrs: set<Address>, qc: Qc): map<Address, SafetyData> {
    map a | a in safety.Keys + addrs ::
      if a !in addrs then safety[a]
      else if a in safety then UpdateQc(safety[a], qc)
      else Fresh(qc)
  }

  function UpdatedProposals(proposals: map<Hash, Tesseract>, t: Tesseract, kind: MsgType): map<Hash, Tesseract> {
    match kind
    case Prevote => proposals[HashOf(t) := t]
    case Precommit => proposals - {HashOf(t)}
    case OtherMsg => proposals
  }

  /** Persist `qc` at every address of the proposal `t`. */
  function Persist(db: Db, t: Tesseract, qc: Qc): Db {
    db.(safety := UpdatedSafety(db.safety, t.heights.Keys, qc),
        proposals := UpdatedProposals(db.proposals, t, qc.kind))
  }

  /** A finalized tesseract becomes the head of its accounts, and their locks are dropped. */
  function Finalize(db: Db, t: Tesseract, qc: Qc): Db {
    db.(meta := map a | a in db.meta.Keys + t.heights.Keys :: if a in t.heights then HashOf(t) else db.meta[a],
        commits := db.commits[HashOf(t) := qc],
        safety := db.safety - t.heights.Keys)
  }

  /** The lock of an account, or the commit certificate of its head when there is no lock. */
  function Latest(db: Db, a: Address): (r: Result<SafetyData>)
    ensures r.Ok? <==> a in db.meta && (a in db.safety || db.meta[a] in db.commits)
  {
    if a !in db.meta then Err(KeyNotFound)
    else if a in db.safety then Ok(db.safety[a])
    else if db.meta[a] in db.commits then Ok(SafetyData([db.commits[db.meta[a]]], [db.meta[a]]))
    else Err(KeyNotFound)
  }

  // ---------- runs ----------

  datatype StoreOp = Update(t: Tesseract, qc: Qc) | Delete(a: Address)

  function ApplyOp(db: Db, op: StoreOp): Db {
    match op
    case Update(t, qc) => Persist(db, t, qc)
    case Delete(a) => db.(safety := db.safety - {a})
  }

  function RunOps(db: Db, ops: seq<StoreOp>): Db
    decreases |ops|
  {
    if ops == [] then db else RunOps(ApplyOp(db, ops[0]), ops[1..])
  }

  /** Certificates are for the proposal they come with, arrive with non-decreasing views, and agree within a view. */
  ghost predicate InOrder(db: Db, op: StoreOp) {
    op.Update? ==>
      && op.qc.hash == HashOf(op.t)
      && op.qc.kind != OtherMsg
      && forall a :: a in op.t.heights && a in db.safety && db.safety[a].qcs != [] ==>
          || LastView(db.safety[a]) < op.qc.view
          || (LastView(db.safety[a]) == op.qc.view && Last(db.safety[a]).hash == op.qc.hash)
  }

  ghost predicate AllInOrder(db: Db, ops: seq<StoreOp>)
    decreases |ops|
  {
    ops != [] ==> InOrder(db, ops[0]) && AllInOrder(ApplyOp(db, ops[0]), ops[1..])
  }

  /** One account is in order: one view, and a proposal to show for a lock that is not yet committed. */
  ghost predicate AccountOk(db: Db, a: Address)
    requires a in db.safety
  {
    var sd := db.safety[a];
    && SingleView(sd) && PrevoteLast(sd)
    && Last(sd).hash.HashOf?
    && a in Last(sd).hash.t.heights
    && (Last(sd).kind == Prevote ==>
          Last(sd).hash in db.proposals && HashOf(db.proposals[Last(sd).hash]) == Last(sd).hash)
  }

  ghost predicate StoreOk(db: Db) {
    forall a :: a in db.safety ==> AccountOk(db, a)
  }

  lemma UpdateKeepsAccount(db: Db, t: Tesseract, qc: Qc, a: Address)
    requires InOrder(db, Update(t, qc)) && a in t.heights && (a in db.safety ==> AccountOk(db, a))
    ensures var db' := Persist(db, t, qc);
            a in db'.safety && AccountOk(db', a) &&
              (a in db.safety ==> LastView(db.safety[a]) <= LastView(db'.safety[a]))
  {
    if a in db.safety {
      UpdateQcInOrder(db.safety[a], qc);
      PrevoteLastIff(db.safety[a], qc);
    }
    assert Last(Persist(db, t, qc).safety[a]) == qc;
  }

  lemma OpKeepsStore(db: Db, op: StoreOp)
    requires StoreOk(db) && InOrder(db, op)
    ensures StoreOk(ApplyOp(db, op))
    ensures forall a :: a in db.safety && a in ApplyOp(db, op).safety ==>
              LastView(db.safety[a]) <= LastView(ApplyOp(db, op).safety[a])
  {
    var db' := ApplyOp(db, op);
    forall a | a in db'.safety
      ensures AccountOk(db', a)
      ensures a in db.safety ==> LastView(db.safety[a]) <= LastView(db'.safety[a])
    {
      if op.Update? && a in op.t.heights {
        UpdateKeepsAccount(db, op.t, op.qc, a);
      } else {
        assert AccountOk(db, a) && db'.safety[a] == db.safety[a];
      }
    }
  }

  /** Over every run in order: the store stays in order and no surviving lock falls back to an older view. */
  lemma {:induction false} RunKeepsStore(db: Db, ops: seq<StoreOp>)
    requires StoreOk(db) && AllInOrder(db, ops)
    ensures StoreOk(RunOps(db, ops))
    ensures forall a ::
              a in db.safety && a in RunOps(db, ops).safety && (forall op :: op in ops ==> op != Delete(a)) ==>
              LastView(db.safety[a]) <= LastView(RunOps(db, ops).safety[a])
    decreases |ops|
  {
    if ops != [] {
      OpKeepsStore(db, ops[0]);
      var db1 := ApplyOp(db, ops[0]);
      RunKeepsStore(db1, ops[1..]);
      forall a | a in db.safety && a in RunOps(db, ops).safety && (forall op :: op in ops ==> op != Delete(a))
        ensures LastView(db.safety[a]) <= LastView(RunOps(db, ops).safety[a])
      {
        assert ops[0] in ops && forall op :: op in ops[1..] ==> op in ops;
        assert a in db1.safety;
      }
    }
  }

  /** An account without a lock of this view or a later one. */
  ghost predicate Behind(db: Db, a: Address, view: nat) {
    a in db.safety ==> db.safety[a].qcs != [] && LastView(db.safety[a]) < view
  }

  /** Locked and then committed in one view: at every address exactly the precommit certificate is left, and the
      proposal is no longer kept. */
  lemma CommitReplacesLock(db: Db, t: Tesseract, lock: Qc, commit: Qc, a: Address)
    requires lock.kind == Prevote && commit.kind == Precommit && lock.view == commit.view
    requires lock.hash == commit.hash == HashOf(t) && a in t.heights && Behind(db, a, lock.view)
    ensures var locked := Persist(db, t, lock);
            && a in locked.safety && locked.safety[a] == SafetyData([lock], [HashOf(t)])
            && HashOf(t) in locked.proposals && locked.proposals[HashOf(t)] == t
            && var after := Persist(locked, t, commit);
               && a in after.safety && after.safety[a] == SafetyData([commit], [HashOf(t)])
               && HashOf(t) !in after.proposals
  {
    var locked := Persist(db, t, lock);
    if a in db.safety {
      UpdateQcShape(db.safety[a], lock);
    }
    UpdateQcShape(locked.safety[a], commit);
  }

  /** After finalization the accounts of the tesseract show exactly its commit certificate, and no other account changes
      unless the same tesseract was its head. */
  lemma FinalizeShows(db: Db, t: Tesseract, qc: Qc, a: Address)
    ensures var after := Finalize(db, t, qc);
            && (a in t.heights ==> Latest(after, a) == Ok(SafetyData([qc], [HashOf(t)])))
            && (a !in t.heights && (a in db.meta ==> db.meta[a] != HashOf(t)) ==> Latest(after, a) == Latest(db, a))
            && after.proposals == db.proposals
  {
  }

  // ---------- the mutable store ----------

  lemma UpdatedSafetyStep(safety: map<Address, SafetyData>, addrs: set<Address>, a: Address, qc: Qc)
    requires a !in addrs
    ensures var before := UpdatedSafety(safety, addrs, qc);
            UpdatedSafety(safety, addrs + {a}, qc)
            == before[a := if a in before then UpdateQc(before[a], qc) else Fresh(qc)]
  {
  }

  class ConsensusSafety {
    var safety: map<Address, SafetyData>
    var proposals: map<Hash, Tesseract>
    var meta: map<Address, Hash>
    var commits: map<Hash, Qc>

    ghost function Contents(): Db
      reads this
    {
      Db(safety, proposals, meta, commits)
    }

    constructor (meta: map<Address, Hash>, commits: map<Hash, Qc>)
      ensures Contents() == Db(map[], map[], meta, commits) && StoreOk(Contents())
    {
      this.safety := map[];
      this.proposals := map[];
      this.meta := meta;
      this.commits := commits;
    }

    method UpdateSafetyInfo(t: Tesseract, qc: Qc)
      modifies this`safety, this`proposals
      ensures Contents() == Persist(old(Contents()), t, qc)
    {
      var pending := t.heights.Keys;
      ghost var done: set<Address> := {};
      while pending != {}
        invariant done == t.heights.Keys - pending && pending <= t.heights.Keys
        invariant safety == UpdatedSafety(old(safety), done, qc)
        invariant proposals == old(proposals)
        decreases pending
      {
        var addr :| addr in pending;
        ghost var prior := done;
        UpdatedSafetyStep(old(safety), prior, addr, qc);
        safety := safety[addr := if addr in safety then UpdateQc(safety[addr], qc) else Fresh(qc)];
        pending, done := pending - {addr}, prior + {addr};
      }
      if qc.kind == Prevote {
        proposals := proposals[HashOf(t) := t];
      }
      if qc.kind == Precommit {
        proposals := proposals - {HashOf(t)};
      }
    }

    method DeleteSafetyData(addr: Address)
      modifies this`safety
      ensures Contents() == ApplyOp(old(Contents()), Delete(addr))
    {
      safety := safety - {addr};
    }

    /** A lock is reported with its proposal at hand until the matching precommit certificate. */
    method GetLatestSafetyInfo(addr: Address) returns (r: Result<SafetyData>)
      ensures r == Latest(Contents(), addr)
      ensures StoreOk(Contents()) && r.Ok? && addr in safety && Last(r.value).kind == Prevote ==>
                Last(r.value).hash in proposals
    {
      if addr !in meta {
        return Err(KeyNotFound);
      }
      if addr in safety {
        assert StoreOk(Contents()) ==> AccountOk(Contents(), addr);
        return Ok(safety[addr]);
      }
      if meta[addr] !in commits {
        return Err(KeyNotFound);
      }
      return Ok(SafetyData([commits[meta[addr]]], [meta[addr]]));
    }
  }
}
