/** What a vote set has to remember, without any counters: who voted what, and the first certified tesseract. */
module Ledgers {
  import opened Types
  import opened Rosters

  datatype Vote = Vote(
    kind: MsgType,
    isQC: bool,
    view: nat,
    signerIndex: int,
    heights: map<Address, nat>,
    hash: Hash,
    signers: seq<bool>,
    sig: Signature)

  function Canon(v: Vote): CanonicalVote {
    CanonicalVote(v.kind, v.view, v.hash)
  }

  /** The committee, the thresholds, and the height, view and kind of the votes that are collected. */
  datatype Setup = Setup(roster: Roster, quorum: seq<nat>, heights: map<Address, nat>, view: nat, kind: MsgType)

  predicate ValidSetup(s: Setup) {
    s.roster != [] && |s.quorum| == |s.roster| && s.quorum[|s.quorum| - 1] > 0
  }

  type Ballots = seq<Option<Vote>>

  datatype Majority = Majority(hash: Hash, bits: seq<bool>, sig: Signature)

  datatype Ledger = Ledger(votes: Ballots, byHash: map<Hash, Ballots>, majority: Option<Majority>)

  function Bits(b: Ballots): (bits: seq<bool>)
    ensures |bits| == |b| && forall i :: 0 <= i < |b| ==> bits[i] == b[i].Some?
  {
    seq(|b|, i requires 0 <= i < |b| => b[i].Some?)
  }

  function NoBallots(n: nat): (b: Ballots)
    ensures |b| == n && forall i :: 0 <= i < n ==> b[i] == None
  {
    seq(n, _ => None)
  }

  function Empty(s: Setup): Ledger {
    Ledger(NoBallots(Total(s.roster)), map[], None)
  }

  function BallotsOf(s: Setup, l: Ledger, h: Hash): Ballots {
    if h in l.byHash then l.byHash[h] else NoBallots(Total(s.roster))
  }

  function SumKeys(b: Ballots): multiset<Key> {
    if b == [] then multiset{}
    else SumKeys(b[..|b| - 1]) + if b[|b| - 1].Some? then b[|b| - 1].value.sig.keys else multiset{}
  }

  function Aggregate(msg: CanonicalVote, b: Ballots): Signature {
    Signature(msg, SumKeys(b))
  }

  function Overlay(votes: Ballots, b: Ballots): (r: Ballots)
    requires |votes| == |b|
    ensures |r| == |votes|
  {
    seq(|votes|, i requires 0 <= i < |votes| => if b[i].Some? then b[i] else votes[i])
  }

  // ---------- adding one verified vote ----------

  ghost predicate Sized(s: Setup, l: Ledger) {
    && |l.votes| == Total(s.roster)
    && forall h :: h in l.byHash ==> |l.byHash[h]| == Total(s.roster)
  }

  datatype Added = Added(ledger: Ledger, added: bool, conflicting: Option<Vote>)

  /** A first vote is recorded and counted under its hash. */
  function Count(s: Setup, l: Ledger, v: Vote, index: nat): (r: Ledger)
    requires Sized(s, l) && index < Total(s.roster)
    ensures Sized(s, r)
  {
    l.(votes := l.votes[index := Some(v)], byHash := l.byHash[v.hash := BallotsOf(s, l, v.hash)[index := Some(v)]])
  }

  /** The first hash that meets every threshold becomes the majority, with the signers it has at that moment. */
  function Crown(s: Setup, l: Ledger, v: Vote, isQc: bool): (r: Ledger)
    requires ValidSetup(s) && Sized(s, l) && v.hash in l.byHash
    ensures Sized(s, r)
  {
    var b := l.byHash[v.hash];
    if l.majority.None? && Meets(s.roster, s.quorum, Bits(b)) then
      var sig := if isQc then v.sig else Aggregate(Canon(v), b);
      l.(votes := Overlay(l.votes, b), majority := Some(Majority(v.hash, Bits(b), sig)))
    else l
  }

  function AddVerified(s: Setup, l: Ledger, v: Vote, index: nat, isQc: bool): (r: Added)
    requires ValidSetup(s) && Sized(s, l) && index < Total(s.roster)
    ensures Sized(s, r.ledger)
  {
    var existing := l.votes[index];
    if existing.None? then
      Added(Crown(s, Count(s, l, v, index), v, isQc), true, None)
    else if existing.value.hash == v.hash then
      Added(l, true, existing)
    else if l.majority.Some? && l.majority.value.hash == v.hash then
      Added(l.(votes := l.votes[index := Some(v)]), false, existing)
    else
      Added(l, false, existing)
  }

  // ---------- votes and certificates ----------

  function GetVote(s: Setup, l: Ledger, index: nat, h: Hash): Option<Vote>
    requires Sized(s, l) && index < Total(s.roster)
  {
    if l.votes[index].Some? && l.votes[index].value.hash == h then l.votes[index]
    else BallotsOf(s, l, h)[index]
  }

  function AddVote(s: Setup, responded: seq<bool>, l: Ledger, v: Vote): (Ledger, Result<bool>)
    requires ValidSetup(s) && Sized(s, l) && |responded| == Total(s.roster)
  {
    if v.signerIndex < 0 then (l, Err(InvalidVote))
    else if v.heights != s.heights || v.view != s.view || v.kind != s.kind then (l, Err(InvalidViewOrHeight))
    else if v.signerIndex >= Total(s.roster) || !responded[v.signerIndex] then (l, Err(InvalidValidator))
    else
      var found := GetVote(s, l, v.signerIndex, v.hash);
      if found.Some? then (l, if found.value.sig == v.sig then Ok(false) else Err(DifferentSignature))
      else if v.sig != Signature(Canon(v), multiset{At(s.roster, v.signerIndex).key}) then
        (l, Err(SignatureVerificationFailed))
      else
        var cast := AddVerified(s, l, v, v.signerIndex, false);
        (cast.ledger, if cast.conflicting.Some? then Err(ConflictingVote) else Ok(cast.added))
  }

  predicate Below(indices: seq<nat>, n: nat) {
    forall i :: 0 <= i < |indices| ==> indices[i] < n
  }

  function TrueIndices(bits: seq<bool>): (r: seq<nat>)
    ensures Below(r, |bits|)
    ensures forall i, j :: 0 <= i < j < |r| ==> r[i] < r[j]
    ensures forall i :: i in r <==> 0 <= i < |bits| && bits[i]
  {
    if bits == [] then []
    else TrueIndices(bits[..|bits| - 1]) + if bits[|bits| - 1] then [|bits| - 1] else []
  }

  function KeysAt(r: Roster, indices: seq<nat>): seq<Key>
    requires Below(indices, Total(r))
  {
    seq(|indices|, i requires 0 <= i < |indices| => At(r, indices[i]).key)
  }

  function AddEach(s: Setup, l: Ledger, v: Vote, indices: seq<nat>): (r: Ledger)
    requires ValidSetup(s) && Sized(s, l) && Below(indices, Total(s.roster))
    ensures Sized(s, r)
    decreases |indices|
  {
    if indices == [] then l
    else AddVerified(s, AddEach(s, l, v, indices[..|indices| - 1]), v, indices[|indices| - 1], true).ledger
  }

  function AddQc(s: Setup, l: Ledger, v: Vote): (Ledger, Result<bool>)
    requires ValidSetup(s) && Sized(s, l)
  {
    var signed := TrueIndices(v.signers);
    if v.signerIndex < 0 then (l, Err(InvalidVote))
    else if l.majority.Some? && l.majority.value.hash != v.hash then (l, Err(ConflictingVote))
    else if !Below(signed, Total(s.roster)) then (l, Err(PublicKeyNotFound))
    else if v.sig != Signature(Canon(v), multiset(KeysAt(s.roster, signed))) then (l, Ok(false))
    else (AddEach(s, l, v, signed), Ok(true))
  }

  function SuperMajority(l: Ledger): Option<Hash> {
    if l.majority.Some? then Some(l.majority.value.hash) else None
  }

  // ---------- the accounting invariant ----------

  ghost predicate Counted(l: Ledger, i: nat, h: Hash) {
    h in l.byHash && i < |l.byHash[h]| && l.byHash[h][i].Some?
  }

  ghost predicate CountedAs(l: Ledger, h: Hash)
    requires h in l.byHash
  {
    forall i :: 0 <= i < |l.byHash[h]| && l.byHash[h][i].Some? ==>
      l.byHash[h][i].value.hash == h && i < |l.votes| && l.votes[i].Some?
  }

  /** Every validator that voted is counted under exactly one hash. */
  ghost predicate Partition(l: Ledger) {
    && (forall h :: h in l.byHash ==> CountedAs(l, h))
    && (forall i, g, h :: Counted(l, i, g) && Counted(l, i, h) ==> g == h)
    && (forall i :: 0 <= i < |l.votes| && l.votes[i].Some? ==> exists h :: Counted(l, i, h))
  }

  /** The vote on record is the counted one, unless a conflicting vote for the majority replaced it. */
  ghost predicate OnRecord(l: Ledger) {
    forall i :: 0 <= i < |l.votes| && l.votes[i].Some? ==>
      || Counted(l, i, l.votes[i].value.hash)
      || (l.majority.Some? && l.votes[i].value.hash == l.majority.value.hash)
  }

  /** The majority is absent exactly when no hash meets the thresholds; its stored signers meet them alone. */
  ghost predicate MajorityExact(s: Setup, l: Ledger)
    requires ValidSetup(s) && Sized(s, l)
  {
    && (l.majority.None? <==> forall h :: h in l.byHash ==> !Meets(s.roster, s.quorum, Bits(l.byHash[h])))
    && (l.majority.Some? ==>
          var m := l.majority.value;
          && m.hash in l.byHash
          && |m.bits| == Total(s.roster)
          && (forall i :: 0 <= i < |m.bits| && m.bits[i] ==> l.byHash[m.hash][i].Some?)
          && Meets(s.roster, s.quorum, m.bits))
  }

  ghost predicate LedgerOk(s: Setup, l: Ledger) {
    ValidSetup(s) && Sized(s, l) && Partition(l) && OnRecord(l) && MajorityExact(s, l)
  }

  lemma EmptyOk(s: Setup)
    requires ValidSetup(s)
    ensures LedgerOk(s, Empty(s))
  {
  }

  lemma MeetsMonotone(s: Setup, a: seq<bool>, b: seq<bool>)
    requires ValidSetup(s) && |a| == |b| <= Total(s.roster)
    requires forall i :: 0 <= i < |a| && a[i] ==> b[i]
    requires Meets(s.roster, s.quorum, a)
    ensures Meets(s.roster, s.quorum, b)
  {
    forall k | 0 <= k < |s.roster|
      ensures Tally(s.roster, b, k) >= s.quorum[k]
    {
      TallyMonotone(s.roster, a, b, k);
    }
  }

  lemma CountOk(s: Setup, l: Ledger, v: Vote, index: nat)
    requires Sized(s, l) && Partition(l) && OnRecord(l) && index < Total(s.roster) && l.votes[index].None?
    ensures Partition(Count(s, l, v, index)) && OnRecord(Count(s, l, v, index))
    ensures Counted(Count(s, l, v, index), index, v.hash)
  {
    var r := Count(s, l, v, index);
    forall h
      ensures !Counted(l, index, h)
    {
      assert h in l.byHash ==> CountedAs(l, h);
    }
    assert forall i, h :: Counted(r, i, h) <==> Counted(l, i, h) || (i == index && h == v.hash);
    forall h | h in r.byHash
      ensures CountedAs(r, h)
    {
      assert h in l.byHash ==> CountedAs(l, h);
    }
    forall i | 0 <= i < |r.votes| && r.votes[i].Some?
      ensures exists h :: Counted(r, i, h)
    {
      if i == index {
        assert Counted(r, i, v.hash);
      } else {
        var h :| Counted(l, i, h);
        assert Counted(r, i, h);
      }
    }
  }

  lemma CrownOk(s: Setup, l: Ledger, v: Vote, isQc: bool)
    requires ValidSetup(s) && Sized(s, l) && Partition(l) && OnRecord(l) && v.hash in l.byHash
    ensures Partition(Crown(s, l, v, isQc)) && OnRecord(Crown(s, l, v, isQc))
  {
    var r := Crown(s, l, v, isQc);
    assert CountedAs(l, v.hash);
    assert forall i, h :: Counted(r, i, h) <==> Counted(l, i, h);
    assert forall i :: 0 <= i < |l.votes| ==> r.votes[i].Some? == l.votes[i].Some?;
    forall h | h in r.byHash
      ensures CountedAs(r, h)
    {
      assert CountedAs(l, h);
    }
    forall i | 0 <= i < |r.votes| && r.votes[i].Some?
      ensures exists h :: Counted(r, i, h)
    {
      var h :| Counted(l, i, h);
      assert Counted(r, i, h);
    }
  }

  lemma ReplaceOk(s: Setup, l: Ledger, v: Vote, index: nat)
    requires LedgerOk(s, l) && index < Total(s.roster) && l.votes[index].Some?
    requires l.majority.Some? && l.majority.value.hash == v.hash
    ensures LedgerOk(s, l.(votes := l.votes[index := Some(v)]))
  {
    var r := l.(votes := l.votes[index := Some(v)]);
    assert forall i, h :: Counted(r, i, h) <==> Counted(l, i, h);
    forall h | h in r.byHash
      ensures CountedAs(r, h)
    {
      assert CountedAs(l, h);
    }
    forall i | 0 <= i < |r.votes| && r.votes[i].Some?
      ensures exists h :: Counted(r, i, h)
    {
      assert l.votes[i].Some?;
      var h :| Counted(l, i, h);
      assert Counted(r, i, h);
    }
  }

  lemma CastMajority(s: Setup, l: Ledger, v: Vote, index: nat, isQc: bool)
    requires LedgerOk(s, l) && index < Total(s.roster) && l.votes[index].None?
    ensures MajorityExact(s, Crown(s, Count(s, l, v, index), v, isQc))
  {
    var c := Count(s, l, v, index);
    var r := Crown(s, c, v, isQc);
    if l.majority.Some? {
      var m := l.majority.value;
      assert r.majority == l.majority;
      forall i | 0 <= i < |m.bits| && m.bits[i]
        ensures r.byHash[m.hash][i].Some?
      {
        assert l.byHash[m.hash][i].Some?;
      }
      MeetsMonotone(s, m.bits, Bits(r.byHash[m.hash]));
    }
  }

  /** One verified vote keeps the accounts, never changes a majority, and is refused only with a conflicting vote. */
  lemma AddVerifiedKeeps(s: Setup, l: Ledger, v: Vote, index: nat, isQc: bool)
    requires LedgerOk(s, l) && index < Total(s.roster)
    ensures var r := AddVerified(s, l, v, index, isQc);
            && LedgerOk(s, r.ledger)
            && (l.majority.Some? ==> r.ledger.majority == l.majority)
            && (!r.added ==> r.conflicting.Some?)
            && (l.votes[index].None? ==> r.added && r.conflicting.None? && Counted(r.ledger, index, v.hash))
  {
    if l.votes[index].None? {
      CountOk(s, l, v, index);
      CrownOk(s, Count(s, l, v, index), v, isQc);
      CastMajority(s, l, v, index, isQc);
    } else if l.votes[index].value.hash != v.hash && l.majority.Some? && l.majority.value.hash == v.hash {
      ReplaceOk(s, l, v, index);
    }
  }
}
