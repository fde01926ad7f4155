/** What holds of a vote set after any sequence of votes and certificates. */
module LedgerRuns {
  import opened Types
  import opened Rosters
  import opened Ledgers

  // ---------- runs ----------

  datatype Event = VoteIn(vote: Vote, responded: seq<bool>) | QcIn(vote: Vote)

  predicate Fitting(s: Setup, e: Event) {
    e.VoteIn? ==> |e.responded| == Total(s.roster)
  }

  function Receive(s: Setup, l: Ledger, e: Event): (r: Ledger)
    requires ValidSetup(s) && Sized(s, l) && Fitting(s, e)
    ensures Sized(s, r)
  {
    match e
    case VoteIn(v, responded) => AddVote(s, responded, l, v).0
    case QcIn(v) => AddQc(s, l, v).0
  }

  function ReceiveAll(s: Setup, l: Ledger, es: seq<Event>): (r: Ledger)
    requires ValidSetup(s) && Sized(s, l) && forall i :: 0 <= i < |es| ==> Fitting(s, es[i])
    ensures Sized(s, r)
    decreases |es|
  {
    if es == [] then l
    else Receive(s, ReceiveAll(s, l, es[..|es| - 1]), es[|es| - 1])
  }

  lemma {:induction false} AddEachKeeps(s: Setup, l: Ledger, v: Vote, indices: seq<nat>)
    requires LedgerOk(s, l) && Below(indices, Total(s.roster))
    ensures LedgerOk(s, AddEach(s, l, v, indices))
    ensures l.majority.Some? ==> AddEach(s, l, v, indices).majority == l.majority
    decreases |indices|
  {
    if indices != [] {
      var n := |indices| - 1;
      AddEachKeeps(s, l, v, indices[..n]);
      AddVerifiedKeeps(s, AddEach(s, l, v, indices[..n]), v, indices[n], true);
    }
  }

  lemma VoteOutcome(s: Setup, l: Ledger, v: Vote, responded: seq<bool>)
    requires ValidSetup(s) && Sized(s, l) && |responded| == Total(s.roster)
    ensures var r := AddVote(s, responded, l, v).0;
            r == l || (0 <= v.signerIndex < Total(s.roster) && r == AddVerified(s, l, v, v.signerIndex, false).ledger)
  {
  }

  lemma VoteKeeps(s: Setup, l: Ledger, v: Vote, responded: seq<bool>)
    requires LedgerOk(s, l) && |responded| == Total(s.roster)
    ensures LedgerOk(s, AddVote(s, responded, l, v).0)
    ensures l.majority.Some? ==> AddVote(s, responded, l, v).0.majority == l.majority
  {
    VoteOutcome(s, l, v, responded);
    if AddVote(s, responded, l, v).0 != l {
      AddVerifiedKeeps(s, l, v, v.signerIndex, false);
    }
  }

  lemma QcKeeps(s: Setup, l: Ledger, v: Vote)
    requires LedgerOk(s, l)
    ensures LedgerOk(s, AddQc(s, l, v).0)
    ensures l.majority.Some? ==> AddQc(s, l, v).0.majority == l.majority
  {
    if Below(TrueIndices(v.signers), Total(s.roster)) {
      AddEachKeeps(s, l, v, TrueIndices(v.signers));
    }
  }

  lemma ReceiveKeeps(s: Setup, l: Ledger, e: Event)
    requires LedgerOk(s, l) && Fitting(s, e)
    ensures LedgerOk(s, Receive(s, l, e))
    ensures l.majority.Some? ==> Receive(s, l, e).majority == l.majority
  {
    match e
    case VoteIn(v, responded) => VoteKeeps(s, l, v, responded);
    case QcIn(v) => QcKeeps(s, l, v);
  }

  /** After any votes and certificates the accounts are in order, and a majority that was there before still stands. */
  lemma {:induction false} RunKeepsLedger(s: Setup, l: Ledger, es: seq<Event>)
    requires LedgerOk(s, l) && forall i :: 0 <= i < |es| ==> Fitting(s, es[i])
    ensures LedgerOk(s, ReceiveAll(s, l, es))
    ensures l.majority.Some? ==> ReceiveAll(s, l, es).majority == l.majority
    decreases |es|
  {
    if es != [] {
      RunKeepsLedger(s, l, es[..|es| - 1]);
      ReceiveKeeps(s, ReceiveAll(s, l, es[..|es| - 1]), es[|es| - 1]);
    }
  }

  /** A verified vote that is not on record is either added or conflicts, never neither and never both. */
  lemma NoUnexpectedRefusal(s: Setup, l: Ledger, v: Vote, index: nat)
    requires LedgerOk(s, l) && index < Total(s.roster) && GetVote(s, l, index, v.hash).None?
    ensures var r := AddVerified(s, l, v, index, false); r.added <==> r.conflicting.None?
    ensures AddVerified(s, l, v, index, false).added ==> !exists h :: Counted(l, index, h)
  {
    if exists h :: Counted(l, index, h) {
      var h :| Counted(l, index, h);
      assert CountedAs(l, h);
    }
  }

  // ---------- conservation ----------

  ghost function SumOverHashes(s: Setup, l: Ledger, hs: set<Hash>, k: nat): nat
    requires Sized(s, l) && hs <= l.byHash.Keys
  {
    if hs == {} then 0
    else
      var h :| h in hs;
      Tally(s.roster, Bits(l.byHash[h]), k) + SumOverHashes(s, l, hs - {h}, k)
  }

  ghost function Union(l: Ledger, hs: set<Hash>): (bits: seq<bool>)
    requires hs <= l.byHash.Keys
    ensures |bits| == |l.votes|
  {
    seq(|l.votes|, i requires 0 <= i < |l.votes| => exists h :: h in hs && Counted(l, i, h))
  }

  lemma {:induction false} TallyDisjoint(r: Roster, a: seq<bool>, b: seq<bool>, c: seq<bool>, k: nat)
    requires |a| == |b| == |c| <= Total(r)
    requires forall i :: 0 <= i < |a| ==> !(a[i] && b[i]) && c[i] == (a[i] || b[i])
    ensures Tally(r, c, k) == Tally(r, a, k) + Tally(r, b, k)
    decreases |a|
  {
    if a != [] {
      var n := |a| - 1;
      TallyDisjoint(r, a[..n], b[..n], c[..n], k);
    }
  }

  lemma {:induction false} SumIsUnion(s: Setup, l: Ledger, hs: set<Hash>, k: nat)
    requires Sized(s, l) && Partition(l) && hs <= l.byHash.Keys
    ensures SumOverHashes(s, l, hs, k) == Tally(s.roster, Union(l, hs), k)
    decreases hs
  {
    if hs == {} {
      TallyNone(s.roster, Union(l, hs), k);
    } else {
      var h :| h in hs && SumOverHashes(s, l, hs, k)
                          == Tally(s.roster, Bits(l.byHash[h]), k) + SumOverHashes(s, l, hs - {h}, k);
      SumIsUnion(s, l, hs - {h}, k);
      assert forall i, g :: Counted(l, i, h) && Counted(l, i, g) ==> g == h;
      forall i | 0 <= i < |l.votes|
        ensures !(Bits(l.byHash[h])[i] && Union(l, hs - {h})[i])
        ensures Union(l, hs)[i] == (Bits(l.byHash[h])[i] || Union(l, hs - {h})[i])
      {
        assert Bits(l.byHash[h])[i] <==> Counted(l, i, h);
      }
      TallyDisjoint(s.roster, Bits(l.byHash[h]), Union(l, hs - {h}), Union(l, hs), k);
    }
  }

  /** At every position the votes seen are the votes counted under all hashes together. */
  lemma {:induction false} VotesConserved(s: Setup, l: Ledger, k: nat)
    requires LedgerOk(s, l)
    ensures Tally(s.roster, Bits(l.votes), k) == SumOverHashes(s, l, l.byHash.Keys, k)
  {
    SumIsUnion(s, l, l.byHash.Keys, k);
    forall i | 0 <= i < |l.votes|
      ensures Union(l, l.byHash.Keys)[i] == l.votes[i].Some?
    {
      if l.votes[i].Some? {
        var h :| Counted(l, i, h);
      }
      forall h | Counted(l, i, h)
        ensures l.votes[i].Some?
      {
        assert CountedAs(l, h);
      }
    }
    assert Union(l, l.byHash.Keys) == Bits(l.votes);
  }

  // ---------- delivery order ----------

  /** A vote that passes every check of its vote set. */
  ghost predicate Genuine(s: Setup, responded: seq<bool>, v: Vote)
    requires |responded| == Total(s.roster)
  {
    && v.heights == s.heights && v.view == s.view && v.kind == s.kind
    && 0 <= v.signerIndex < Total(s.roster) && responded[v.signerIndex]
    && v.sig == Signature(Canon(v), multiset{At(s.roster, v.signerIndex).key})
  }

  /** A vote changes the vote set only if it is genuine, and one that is not on record and not genuine is an error; each
      check answers with its own error, in order. */
  lemma OnlyGenuineAdded(s: Setup, responded: seq<bool>, l: Ledger, v: Vote)
    requires LedgerOk(s, l) && |responded| == Total(s.roster)
    ensures var (r, res) := AddVote(s, responded, l, v);
            && (r != l || res == Ok(true) ==> Genuine(s, responded, v))
            && (!Genuine(s, responded, v) && !OnRecordAt(l, v.signerIndex, v.hash) ==> res.Err? && r == l)
            && (Genuine(s, responded, v) && !VotedAt(l, v.signerIndex) ==> res == Ok(true))
            && (Genuine(s, responded, v) && VotedAt(l, v.signerIndex) && !OnRecordAt(l, v.signerIndex, v.hash) ==>
                  res == Err(ConflictingVote))
            && (res == Err(InvalidVote) <==> v.signerIndex < 0)
            && (res == Err(InvalidViewOrHeight) <==>
                  v.signerIndex >= 0 && (v.heights != s.heights || v.view != s.view || v.kind != s.kind))
            && (res == Err(InvalidValidator) <==>
                  && v.signerIndex >= 0 && v.heights == s.heights && v.view == s.view && v.kind == s.kind
                  && (v.signerIndex < Total(s.roster) ==> !responded[v.signerIndex]))
            && (Placed(s, responded, v) && OnRecordAt(l, v.signerIndex, v.hash) ==>
                  r == l && res == if KnownVote(l, v.signerIndex, v.hash).sig == v.sig then Ok(false)
                                   else Err(DifferentSignature))
            && (res == Err(SignatureVerificationFailed) <==>
                  Placed(s, responded, v) && !OnRecordAt(l, v.signerIndex, v.hash) && !Genuine(s, responded, v))
  {
    if 0 <= v.signerIndex < Total(s.roster) {
      RecordIs(s, l, v.signerIndex, v.hash);
      if GetVote(s, l, v.signerIndex, v.hash).None? {
        NoUnexpectedRefusal(s, l, v, v.signerIndex);
      }
    }
  }

  /** The validator's vote for this hash is known: as its vote on record, or as one counted under the hash. */
  ghost predicate OnRecordAt(l: Ledger, index: int, h: Hash) {
    0 <= index < |l.votes| && ((l.votes[index].Some? && l.votes[index].value.hash == h) || Counted(l, index, h))
  }

  /** The known vote: the one on record when it is for this hash, otherwise the one counted under the hash. */
  ghost function KnownVote(l: Ledger, index: nat, h: Hash): Vote
    requires OnRecordAt(l, index, h)
  {
    if l.votes[index].Some? && l.votes[index].value.hash == h then l.votes[index].value else l.byHash[h][index].value
  }

  /** Of this height, view and kind, by a validator of the committee that has responded. */
  ghost predicate Placed(s: Setup, responded: seq<bool>, v: Vote)
    requires |responded| == Total(s.roster)
  {
    && v.heights == s.heights && v.view == s.view && v.kind == s.kind
    && 0 <= v.signerIndex < Total(s.roster) && responded[v.signerIndex]
  }

  ghost predicate VotedAt(l: Ledger, index: int) {
    0 <= index < |l.votes| && l.votes[index].Some?
  }

  lemma RecordIs(s: Setup, l: Ledger, index: nat, h: Hash)
    requires LedgerOk(s, l) && index < Total(s.roster)
    ensures GetVote(s, l, index, h).Some? <==> OnRecordAt(l, index, h)
    ensures OnRecordAt(l, index, h) ==> VotedAt(l, index)
  {
    if Counted(l, index, h) {
      assert CountedAs(l, h);
    }
  }

  /** A certificate whose signers are known and have signed it, each as often as it is named. */
  ghost predicate Signed(s: Setup, v: Vote) {
    && v.signerIndex >= 0 && (forall i :: 0 <= i < |v.signers| && v.signers[i] ==> i < Total(s.roster))
    && Below(TrueIndices(v.signers), Total(s.roster))
    && v.sig == Signature(Canon(v), multiset(KeysAt(s.roster, TrueIndices(v.signers))))
  }

  ghost predicate Rivals(l: Ledger, h: Hash) {
    l.majority.Some? && l.majority.value.hash != h
  }

  lemma {:induction false} EachVotes(s: Setup, l: Ledger, v: Vote, indices: seq<nat>)
    requires LedgerOk(s, l) && Below(indices, Total(s.roster))
    ensures var r := AddEach(s, l, v, indices);
            && (forall i :: 0 <= i < Total(s.roster) ==> (r.votes[i].Some? <==> l.votes[i].Some? || i in indices))
            && (forall i: nat, h :: Counted(r, i, h) ==> Counted(l, i, h) || (i in indices && h == v.hash))
            && (forall i: nat :: i in indices && l.votes[i].None? ==> Counted(r, i, v.hash))
            && (forall i: nat, h :: Counted(l, i, h) ==> Counted(r, i, h))
    decreases |indices|
  {
    if indices != [] {
      var n := |indices| - 1;
      var rest := AddEach(s, l, v, indices[..n]);
      EachVotes(s, l, v, indices[..n]);
      AddEachKeeps(s, l, v, indices[..n]);
      BecomesVoter(s, rest, v, indices[n], true);
      assert indices == indices[..n] + [indices[n]];
    }
  }

  /** A verified vote makes its validator a voter, is counted exactly when the validator had not voted, and touches
      nobody else. */
  lemma BecomesVoter(s: Setup, l: Ledger, v: Vote, index: nat, isQc: bool)
    requires LedgerOk(s, l) && index < Total(s.roster)
    ensures var r := AddVerified(s, l, v, index, isQc).ledger;
            && (forall i :: 0 <= i < Total(s.roster) ==> (r.votes[i].Some? <==> l.votes[i].Some? || i == index))
            && (forall i: nat, h :: Counted(r, i, h) <==>
                  Counted(l, i, h) || (i == index && h == v.hash && l.votes[index].None?))
  {
    var r := AddVerified(s, l, v, index, isQc).ledger;
    if l.votes[index].None? {
      CountCounts(s, l, v, index, isQc);
    } else {
      assert r.byHash == l.byHash;
      assert forall i: nat, h :: Counted(r, i, h) <==> Counted(l, i, h);
    }
  }

  /** A certificate is taken exactly when its known signers signed it and no other hash has the majority. It then makes
      every signer a voter, and counts those of them who had not voted. */
  lemma OnlySignedQcAdded(s: Setup, l: Ledger, v: Vote)
    requires LedgerOk(s, l)
    ensures var (r, res) := AddQc(s, l, v);
            && (res == Ok(true) <==> Signed(s, v) && !Rivals(l, v.hash))
            && (res != Ok(true) ==> r == l)
            && (res == Ok(true) ==>
                  && (forall i :: 0 <= i < Total(s.roster) ==>
                        (r.votes[i].Some? <==> l.votes[i].Some? || (i < |v.signers| && v.signers[i])))
                  && (forall i: nat :: i < |v.signers| && v.signers[i] && l.votes[i].None? ==> Counted(r, i, v.hash)))
            && (res == Err(ConflictingVote) <==> v.signerIndex >= 0 && Rivals(l, v.hash))
            && (res == Err(InvalidVote) <==> v.signerIndex < 0)
            && (res == Err(PublicKeyNotFound) <==>
                  && v.signerIndex >= 0 && !Rivals(l, v.hash)
                  && exists i :: 0 <= i < |v.signers| && v.signers[i] && i >= Total(s.roster))
            && (res.Err? ==> res.error in {ConflictingVote, InvalidVote, PublicKeyNotFound})
  {
    var signed := TrueIndices(v.signers);
    if Below(signed, Total(s.roster)) {
      EachVotes(s, l, v, signed);
      forall i | 0 <= i < |v.signers| && v.signers[i]
        ensures i < Total(s.roster)
      {
        assert i in signed;
      }
    } else {
      var k :| 0 <= k < |signed| && signed[k] >= Total(s.roster);
      assert signed[k] in signed;
    }
  }

  /** The message behind a counted vote: the validator's own, sent when it had responded, or a certificate it signed. */
  ghost predicate Backs(s: Setup, e: Event, i: nat, h: Hash)
    requires Fitting(s, e)
  {
    match e
    case VoteIn(v, responded) => Genuine(s, responded, v) && v.signerIndex == i && v.hash == h
    case QcIn(v) => Signed(s, v) && v.hash == h && i < |v.signers| && v.signers[i]
  }

  lemma {:induction false} ReceiveBacked(s: Setup, l: Ledger, e: Event, i: nat, h: Hash)
    requires LedgerOk(s, l) && Fitting(s, e) && Counted(Receive(s, l, e), i, h) && !Counted(l, i, h)
    ensures Backs(s, e, i, h)
  {
    match e
    case VoteIn(v, responded) =>
      OnlyGenuineAdded(s, responded, l, v);
      BecomesVoter(s, l, v, v.signerIndex, false);
    case QcIn(v) =>
      OnlySignedQcAdded(s, l, v);
      EachVotes(s, l, v, TrueIndices(v.signers));
  }

  /** After any votes and certificates, whoever is counted had responded when its genuine vote arrived, or is one of the
      signers of a certificate that was signed. */
  lemma {:induction false} CountedIsBacked(s: Setup, es: seq<Event>, i: nat, h: Hash)
    requires ValidSetup(s) && forall k :: 0 <= k < |es| ==> Fitting(s, es[k])
    requires Counted(ReceiveAll(s, Empty(s), es), i, h)
    ensures exists k :: 0 <= k < |es| && Backs(s, es[k], i, h)
    decreases |es|
  {
    EmptyOk(s);
    if es != [] {
      var n := |es| - 1;
      var l := ReceiveAll(s, Empty(s), es[..n]);
      RunKeepsLedger(s, Empty(s), es[..n]);
      if Counted(l, i, h) {
        CountedIsBacked(s, es[..n], i, h);
        var k :| 0 <= k < n && Backs(s, es[..n][k], i, h);
        assert es[..n][k] == es[k];
      } else {
        ReceiveBacked(s, l, es[n], i, h);
      }
    }
  }

  /** The vote on record: a first vote is, the same vote again changes nothing, and a conflicting one replaces it
      exactly when it is for the majority, without being counted. */
  lemma RecordFollows(s: Setup, l: Ledger, v: Vote, index: nat, isQc: bool)
    requires LedgerOk(s, l) && index < Total(s.roster)
    ensures var a := AddVerified(s, l, v, index, isQc);
            && a.conflicting == l.votes[index]
            && (a.added <==> l.votes[index].None? || l.votes[index].value.hash == v.hash)
    ensures var r := AddVerified(s, l, v, index, isQc).ledger;
            && (l.votes[index].None? ==> r.votes[index] == Some(v))
            && (l.votes[index].Some? ==>
                  && r.byHash == l.byHash && r.majority == l.majority
                  && r.votes == if l.votes[index].value.hash != v.hash && SuperMajority(l) == Some(v.hash)
                                then l.votes[index := Some(v)] else l.votes)
  {
  }

  /** When a majority forms, the record of everybody counted for it is the counted vote, and nobody else's changes. */
  lemma CrownedRecord(s: Setup, l: Ledger, v: Vote, index: nat, isQc: bool)
    requires LedgerOk(s, l) && index < Total(s.roster) && l.majority.None?
    requires AddVerified(s, l, v, index, isQc).ledger.majority.Some?
    ensures var r := AddVerified(s, l, v, index, isQc).ledger;
            && SuperMajority(r) == Some(v.hash) && |r.majority.value.bits| == Total(s.roster)
            && (forall i :: 0 <= i < Total(s.roster) ==>
                  && (r.majority.value.bits[i] <==> Counted(r, i, v.hash))
                  && r.votes[i] == if Counted(r, i, v.hash) then r.byHash[v.hash][i] else l.votes[i])
            && r.majority.value.sig == if isQc then v.sig else Signature(Canon(v), SumKeys(r.byHash[v.hash]))
  {
  }

  ghost predicate OnePerIndex(vs: seq<Vote>) {
    forall i, j :: 0 <= i < j < |vs| ==> vs[i].signerIndex != vs[j].signerIndex
  }

  function Deliver(s: Setup, responded: seq<bool>, vs: seq<Vote>): (r: Ledger)
    requires ValidSetup(s) && |responded| == Total(s.roster)
    ensures Sized(s, r)
    decreases |vs|
  {
    if vs == [] then Empty(s)
    else AddVote(s, responded, Deliver(s, responded, vs[..|vs| - 1]), vs[|vs| - 1]).0
  }

  ghost predicate Voted(vs: seq<Vote>, i: nat, h: Hash) {
    vs != [] && (Voted(vs[..|vs| - 1], i, h) || (vs[|vs| - 1].signerIndex == i && vs[|vs| - 1].hash == h))
  }

  lemma {:induction false} VotedIffMember(vs: seq<Vote>, i: nat, h: Hash)
    ensures Voted(vs, i, h) <==> exists v :: v in vs && v.signerIndex == i && v.hash == h
    decreases |vs|
  {
    if vs != [] {
      var n := |vs| - 1;
      VotedIffMember(vs[..n], i, h);
      assert vs == vs[..n] + [vs[n]];
    }
  }

  lemma NotVotedYet(vs: seq<Vote>, index: nat)
    requires forall j :: 0 <= j < |vs| ==> vs[j].signerIndex != index
    ensures forall h :: !Voted(vs, index, h)
  {
    forall h
      ensures !Voted(vs, index, h)
    {
      VotedIffMember(vs, index, h);
    }
  }

  lemma CountCounts(s: Setup, l: Ledger, v: Vote, index: nat, isQc: bool)
    requires ValidSetup(s) && Sized(s, l) && index < Total(s.roster)
    ensures var r := Crown(s, Count(s, l, v, index), v, isQc);
            forall i, h :: Counted(r, i, h) <==> Counted(l, i, h) || (index == i && v.hash == h)
  {
    var r := Crown(s, Count(s, l, v, index), v, isQc);
    assert r.byHash == l.byHash[v.hash := BallotsOf(s, l, v.hash)[index := Some(v)]];
  }

  lemma UncountedMeansNoVote(s: Setup, l: Ledger, index: nat, hash: Hash)
    requires LedgerOk(s, l) && index < Total(s.roster) && forall h :: !Counted(l, index, h)
    ensures l.votes[index].None? && GetVote(s, l, index, hash).None?
  {
    assert l.votes[index].Some? ==> exists h :: Counted(l, index, h);
    assert !Counted(l, index, hash);
  }

  /** A genuine vote of a validator that has not voted is counted, and nothing else changes. */
  lemma FirstVoteCounts(s: Setup, responded: seq<bool>, l: Ledger, v: Vote)
    requires LedgerOk(s, l) && |responded| == Total(s.roster) && Genuine(s, responded, v)
    requires forall h :: !Counted(l, v.signerIndex, h)
    ensures var r := AddVote(s, responded, l, v).0;
            && LedgerOk(s, r)
            && forall i, h :: Counted(r, i, h) <==> Counted(l, i, h) || (v.signerIndex == i && v.hash == h)
  {
    UncountedMeansNoVote(s, l, v.signerIndex, v.hash);
    VoteKeeps(s, l, v, responded);
    CountCounts(s, l, v, v.signerIndex, false);
  }

  /** Whatever the order, exactly the delivered votes are counted. */
  lemma {:induction false} DeliverCounts(s: Setup, responded: seq<bool>, vs: seq<Vote>)
    requires ValidSetup(s) && |responded| == Total(s.roster) && OnePerIndex(vs)
    requires forall i :: 0 <= i < |vs| ==> Genuine(s, responded, vs[i])
    ensures LedgerOk(s, Deliver(s, responded, vs))
    ensures forall i, h :: Counted(Deliver(s, responded, vs), i, h) <==> Voted(vs, i, h)
    decreases |vs|
  {
    if vs == [] {
      EmptyOk(s);
    } else {
      var n := |vs| - 1;
      var v, rest := vs[n], vs[..n];
      DeliverCounts(s, responded, rest);
      NotVotedYet(rest, v.signerIndex);
      FirstVoteCounts(s, responded, Deliver(s, responded, rest), v);
    }
  }

  /** Some context keeps its own threshold, so that two disjoint groups of voters cannot both pass. */
  ghost predicate HasContext(s: Setup) {
    exists k :: 0 <= k < |s.roster| && k < |s.quorum| && s.quorum[k] == QuorumOf(|s.roster[k]|) && Fits(|s.roster[k]|)
  }

  ghost predicate CanonicalVotes(s: Setup, vs: seq<Vote>) {
    forall i :: 0 <= i < |vs| ==> 0 <= vs[i].signerIndex < Total(s.roster) && Canonical(s.roster, vs[i].signerIndex)
  }

  /** In one ledger of canonical votes at most one hash meets the thresholds. */
  lemma OneHashMeets(s: Setup, l: Ledger, g: Hash, h: Hash)
    requires LedgerOk(s, l) && Proper(s.roster) && HasContext(s)
    requires forall i: nat, f :: Counted(l, i, f) ==> i < Total(s.roster) && Canonical(s.roster, i)
    requires g in l.byHash && h in l.byHash
    requires Meets(s.roster, s.quorum, Bits(l.byHash[g])) && Meets(s.roster, s.quorum, Bits(l.byHash[h]))
    ensures g == h
  {
    var a, b := Bits(l.byHash[g]), Bits(l.byHash[h]);
    assert forall i :: 0 <= i < |a| ==> (a[i] <==> Counted(l, i, g)) && (b[i] <==> Counted(l, i, h));
    if g != h {
      var k :| 0 <= k < |s.roster| && s.quorum[k] == QuorumOf(|s.roster[k]|) && Fits(|s.roster[k]|);
      AtMostOneQuorum(s.roster, s.quorum, a, b, k);
    }
  }

  lemma SameCountsSameBits(s: Setup, l: Ledger, m: Ledger, h: Hash)
    requires ValidSetup(s) && Sized(s, l) && Sized(s, m) && h in l.byHash
    requires forall i: nat :: Counted(l, i, h) <==> Counted(m, i, h)
    requires Meets(s.roster, s.quorum, Bits(l.byHash[h]))
    ensures h in m.byHash && Meets(s.roster, s.quorum, Bits(m.byHash[h]))
  {
    var a := Bits(l.byHash[h]);
    forall i | 0 <= i < |a|
      ensures a[i] == (h in m.byHash && m.byHash[h][i].Some?)
    {
      assert a[i] <==> Counted(l, i, h);
    }
    if h !in m.byHash {
      TallyNone(s.roster, a, |s.roster| - 1);
    } else {
      assert a == Bits(m.byHash[h]);
    }
  }

  lemma MajorityMeets(s: Setup, l: Ledger)
    requires LedgerOk(s, l) && l.majority.Some?
    ensures var h := l.majority.value.hash; h in l.byHash && Meets(s.roster, s.quorum, Bits(l.byHash[h]))
  {
    MeetsMonotone(s, l.majority.value.bits, Bits(l.byHash[l.majority.value.hash]));
  }

  lemma SameCountsSameMajority(s: Setup, l: Ledger, m: Ledger)
    requires LedgerOk(s, l) && LedgerOk(s, m) && Proper(s.roster) && HasContext(s)
    requires forall i: nat, h :: Counted(l, i, h) <==> Counted(m, i, h)
    requires forall i: nat, h :: Counted(m, i, h) ==> i < Total(s.roster) && Canonical(s.roster, i)
    ensures SuperMajority(l) == SuperMajority(m)
  {
    if l.majority.Some? {
      var h := l.majority.value.hash;
      MajorityMeets(s, l);
      SameCountsSameBits(s, l, m, h);
      MajorityMeets(s, m);
      OneHashMeets(s, m, h, m.majority.value.hash);
    } else if m.majority.Some? {
      MajorityMeets(s, m);
      SameCountsSameBits(s, m, l, m.majority.value.hash);
      assert false;
    }
  }

  /** One vote per canonical index: the super majority does not depend on the order of delivery. */
  lemma {:induction false} OrderIndependence(s: Setup, responded: seq<bool>, vs: seq<Vote>, ws: seq<Vote>)
    requires ValidSetup(s) && Proper(s.roster) && HasContext(s) && |responded| == Total(s.roster)
    requires OnePerIndex(vs) && OnePerIndex(ws) && multiset(vs) == multiset(ws)
    requires CanonicalVotes(s, vs) && forall i :: 0 <= i < |vs| ==> Genuine(s, responded, vs[i])
    ensures SuperMajority(Deliver(s, responded, vs)) == SuperMajority(Deliver(s, responded, ws))
  {
    forall i | 0 <= i < |ws|
      ensures Genuine(s, responded, ws[i])
    {
      assert ws[i] in multiset(vs);
    }
    DeliverCounts(s, responded, vs);
    DeliverCounts(s, responded, ws);
    forall i: nat, h
      ensures Voted(vs, i, h) <==> Voted(ws, i, h)
      ensures Voted(vs, i, h) ==> i < Total(s.roster) && Canonical(s.roster, i)
    {
      VotedIffMember(vs, i, h);
      VotedIffMember(ws, i, h);
      assert forall v :: v in vs <==> v in multiset(ws);
    }
    SameCountsSameMajority(s, Deliver(s, responded, vs), Deliver(s, responded, ws));
  }
}
