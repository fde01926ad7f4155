/** Quorum certificates: the batch recount that checks them, and how it relates to incremental counting. */
module QuorumCerts {
  import opened Types
  import opened Rosters
  import opened Ledgers
  import opened LedgerRuns

  // ---------- thresholds ----------

  /** The threshold of a context; an absent or empty one has none. */
  function ParticipantQuorum(size: nat): nat {
    if size == 0 then 0 else QuorumOf(size)
  }

  /** Per position: nothing for an excluded participant, its context's quorum otherwise; the random quorum last. */
  function Thresholds(sizes: seq<nat>, excluded: seq<bool>): (q: seq<nat>)
    requires |sizes| == |excluded| + 1
    ensures |q| == |sizes| && q[|q| - 1] > 0
  {
    seq(|excluded|, k requires 0 <= k < |excluded| => if excluded[k] then 0 else ParticipantQuorum(sizes[k]))
    + [QuorumOf(sizes[|sizes| - 1])]
  }

  /** The vector in plain arithmetic: nothing for an excluded or absent context, the smallest number above two thirds of
      the size for every other one, and for the random set, unless the product wraps around. */
  lemma ThresholdsAre(sizes: seq<nat>, excluded: seq<bool>, k: nat)
    requires |sizes| == |excluded| + 1 && k < |sizes|
    ensures var q := Thresholds(sizes, excluded)[k];
            && (k < |excluded| && (excluded[k] || sizes[k] == 0) ==> q == 0)
            && (Fits(sizes[k]) && (k == |excluded| || (!excluded[k] && sizes[k] > 0)) ==>
                  q == sizes[k] * 2 / 3 + 1 && 3 * q > 2 * sizes[k] >= 3 * (q - 1))
  {
    if Fits(sizes[k]) {
      assert sizes[k] * 2 % TWO_32 == sizes[k] * 2;
    }
  }

  /** More than two thirds of every context that is present and not excluded signed, and of the random set. */
  ghost predicate TwoThirds(r: Roster, sizes: seq<nat>, excluded: seq<bool>, bits: seq<bool>)
    requires |r| == |sizes| == |excluded| + 1 && |bits| <= Total(r)
  {
    && (forall k :: 0 <= k < |excluded| && !excluded[k] && sizes[k] > 0 ==> 3 * Tally(r, bits, k) > 2 * sizes[k])
    && 3 * Tally(r, bits, |excluded|) > 2 * sizes[|excluded|]
  }

  ghost predicate AllFit(sizes: seq<nat>) {
    forall k :: 0 <= k < |sizes| ==> Fits(sizes[k])
  }

  /** Meeting the vector is having more than two thirds everywhere. */
  lemma MeetsIffTwoThirds(r: Roster, sizes: seq<nat>, excluded: seq<bool>, bits: seq<bool>)
    requires |r| == |sizes| == |excluded| + 1 && |bits| <= Total(r) && AllFit(sizes)
    ensures Meets(r, Thresholds(sizes, excluded), bits) <==> TwoThirds(r, sizes, excluded, bits)
  {
    forall k | 0 <= k < |r|
      ensures Tally(r, bits, k) >= Thresholds(sizes, excluded)[k] <==>
              (k < |excluded| && (excluded[k] || sizes[k] == 0)) || 3 * Tally(r, bits, k) > 2 * sizes[k]
    {
      ThresholdsAre(sizes, excluded, k);
    }
  }

  /** A participant as the cluster state holds it. */
  datatype Participant = Participant(position: nat, isGenesis: bool, excluded: bool, consensusQuorum: nat)

  /** Participants as they are fetched: positions in address order, and a quorum for every account that exists. */
  ghost predicate Fetched(ps: seq<Participant>, sizes: seq<nat>) {
    && |sizes| == |ps| + 1
    && forall k :: 0 <= k < |ps| ==>
        && ps[k].position == k
        && (ps[k].isGenesis ==> sizes[k] == 0)
        && ps[k].consensusQuorum == if ps[k].isGenesis then 0 else ParticipantQuorum(sizes[k])
  }

  function Excluded(ps: seq<Participant>): (ex: seq<bool>)
    ensures |ex| == |ps|
  {
    seq(|ps|, k requires 0 <= k < |ps| => ps[k].excluded)
  }

  method GetQuorum(ps: seq<Participant>, sizes: seq<nat>) returns (quorum: array<nat>)
    requires Fetched(ps, sizes)
    ensures quorum[..] == Thresholds(sizes, Excluded(ps))
    ensures quorum.Length == |ps| + 1
    ensures forall k :: 0 <= k < |ps| && (ps[k].excluded || sizes[k] == 0) ==> quorum[k] == 0
    ensures forall k :: 0 <= k < |ps| && !ps[k].excluded && sizes[k] > 0 && Fits(sizes[k]) ==>
              quorum[k] == sizes[k] * 2 / 3 + 1
    ensures Fits(sizes[|ps|]) ==> quorum[|ps|] == sizes[|ps|] * 2 / 3 + 1
  {
    forall k | 0 <= k < |sizes|
      ensures var q := Thresholds(sizes, Excluded(ps))[k];
              && (k < |ps| && (ps[k].excluded || sizes[k] == 0) ==> q == 0)
              && (Fits(sizes[k]) && (k == |ps| || (!ps[k].excluded && sizes[k] > 0)) ==> q == sizes[k] * 2 / 3 + 1)
    {
      ThresholdsAre(sizes, Excluded(ps), k);
    }
    quorum := new nat[|ps| + 1](_ => 0);
    for i := 0 to |ps|
      invariant quorum.Length == |ps| + 1
      invariant forall k :: 0 <= k < i ==> quorum[k] == Thresholds(sizes, Excluded(ps))[k]
      invariant forall k :: i <= k < quorum.Length ==> quorum[k] == 0
    {
      if !ps[i].excluded {
        quorum[ps[i].position] := ps[i].consensusQuorum;
      }
    }
    quorum[quorum.Length - 1] := QuorumOf(sizes[|sizes| - 1]);
  }

  // ---------- the batch check ----------

  /** The signers a committee of `n` nodes knows. */
  function Clip(signers: seq<bool>, n: nat): (bits: seq<bool>)
    ensures |bits| == n
  {
    seq(n, i requires 0 <= i < n => i < |signers| && signers[i])
  }

  ghost predicate SignedBy(sig: Signature, msg: CanonicalVote, r: Roster, bits: seq<bool>)
    requires |bits| <= Total(r)
  {
    sig == Signature(msg, multiset(KeysAt(r, TrueIndices(bits))))
  }

  method CountSlots(counter: array<nat>, slots: seq<nat>)
    requires forall i :: 0 <= i < |slots| ==> slots[i] < counter.Length
    modifies counter
    ensures forall k :: 0 <= k < counter.Length ==> counter[k] == old(counter[k]) + multiset(slots)[k]
  {
    for i := 0 to |slots|
      invariant forall k :: 0 <= k < counter.Length ==> counter[k] == old(counter[k]) + multiset(slots[..i])[k]
    {
      counter[slots[i]] := counter[slots[i]] + 1;
      assert slots[..i + 1] == slots[..i] + [slots[i]];
    }
    assert slots[..|slots|] == slots;
  }

  ghost predicate Counts(counter: seq<nat>, r: Roster, bits: seq<bool>)
    requires |bits| <= Total(r)
  {
    |counter| == |r| && forall k :: 0 <= k < |r| ==> counter[k] == Tally(r, bits, k)
  }

  ghost function KeysOf(r: Roster, bits: seq<bool>): seq<Key>
    requires |bits| <= Total(r)
  {
    KeysAt(r, TrueIndices(bits))
  }

  method CountSigner(r: Roster, counter: array<nat>, ghost bits: seq<bool>, i: nat)
    requires i < |bits| <= Total(r) && bits[i] && Counts(counter[..], r, bits[..i])
    modifies counter
    ensures Counts(counter[..], r, bits[..i + 1])
  {
    FirstStep(r, bits, i);
    SlotsInRange(r, i);
    CountSlots(counter, Slots(r, i));
  }

  /** Position by position how many known signers count, and their keys in index order. */
  method Recount(r: Roster, signers: seq<bool>) returns (counter: array<nat>, keys: seq<Key>)
    ensures fresh(counter) && Counts(counter[..], r, Clip(signers, Total(r)))
    ensures keys == KeysOf(r, Clip(signers, Total(r)))
  {
    var n := Total(r);
    ghost var bits := Clip(signers, n);
    counter := new nat[|r|](_ => 0);
    keys := [];
    var i := 0;
    while i < |signers|
      invariant 0 <= i <= |signers| && fresh(counter)
      invariant Counts(counter[..], r, First(bits, i))
      invariant keys == KeysOf(r, First(bits, i))
    {
      FirstStep(r, bits, i);
      if signers[i] && i < n {
        CountSigner(r, counter, bits, i);
        keys := keys + [At(r, i).key];
      }
      i := i + 1;
    }
    RestUnsigned(r, bits, i, counter[..]);
  }

  ghost function First(bits: seq<bool>, i: nat): seq<bool> {
    if i < |bits| then bits[..i] else bits
  }

  lemma {:induction false} FirstStep(r: Roster, bits: seq<bool>, i: nat)
    requires |bits| <= Total(r)
    ensures i >= |bits| ==> First(bits, i + 1) == First(bits, i)
    ensures i < |bits| ==> First(bits, i) == bits[..i] && First(bits, i + 1) == bits[..i + 1]
    ensures i < |bits| && !bits[i] ==>
              forall counter :: Counts(counter, r, bits[..i]) ==> Counts(counter, r, bits[..i + 1])
    ensures i < |bits| && bits[i] ==> forall k: nat ::
              Tally(r, bits[..i + 1], k) == Tally(r, bits[..i], k) + multiset(Slots(r, i))[k]
    ensures i < |bits| ==> KeysOf(r, bits[..i + 1]) == KeysOf(r, bits[..i]) + if bits[i] then [At(r, i).key] else []
  {
    if i < |bits| {
      assert bits[..i + 1][..i] == bits[..i];
    }
  }

  /** A certificate that passes: its known signers meet the thresholds, and all of them and nobody else signed it. */
  ghost predicate PassesCheck(r: Roster, quorum: seq<nat>, view: nat, qc: Qc)
    requires |quorum| == |r|
  {
    var bits := Clip(qc.signers, Total(r));
    Meets(r, quorum, bits) && SignedBy(qc.sig, CanonicalVote(qc.kind, view, qc.hash), r, bits)
  }

  /** Checks every threshold against a recount of the signers, then the signature of the known ones. */
  method VerifyQc(r: Roster, sizes: seq<nat>, excluded: seq<bool>, view: nat, qc: Qc) returns (res: Result<bool>)
    requires |r| == |sizes| == |excluded| + 1
    ensures var bits := Clip(qc.signers, Total(r));
            && (res.Ok? <==> Meets(r, Thresholds(sizes, excluded), bits))
            && (AllFit(sizes) ==> (res.Ok? <==> TwoThirds(r, sizes, excluded, bits)))
            && (res.Ok? ==> (res.value <==> SignedBy(qc.sig, CanonicalVote(qc.kind, view, qc.hash), r, bits)))
            && (res == Ok(true) <==> PassesCheck(r, Thresholds(sizes, excluded), view, qc))
            && (res == Err(ContextQuorumFailed) <==>
                  exists k :: 0 <= k < |excluded| && Tally(r, bits, k) < Thresholds(sizes, excluded)[k])
            && (res.Err? ==> res.error == ContextQuorumFailed || res.error == RandomQuorumFailed)
  {
    ghost var bits := Clip(qc.signers, Total(r));
    ghost var q := Thresholds(sizes, excluded);
    if AllFit(sizes) {
      MeetsIffTwoThirds(r, sizes, excluded, bits);
    }
    var counter, keys := Recount(r, qc.signers);
    for j := 0 to |excluded|
      invariant forall k :: 0 <= k < j ==> Tally(r, bits, k) >= q[k]
    {
      if !excluded[j] && counter[j] < ParticipantQuorum(sizes[j]) {
        assert Tally(r, bits, j) < q[j];
        return Err(ContextQuorumFailed);
      }
    }
    if counter[|excluded|] < QuorumOf(sizes[|excluded|]) {
      assert Tally(r, bits, |excluded|) < q[|excluded|];
      return Err(RandomQuorumFailed);
    }
    res := Ok(qc.sig == Signature(CanonicalVote(qc.kind, view, qc.hash), multiset(keys)));
  }

  lemma {:induction false} RestUnsigned(r: Roster, bits: seq<bool>, i: nat, counter: seq<nat>)
    requires |bits| <= Total(r) && forall j :: i <= j < |bits| ==> !bits[j]
    ensures KeysOf(r, First(bits, i)) == KeysOf(r, bits)
    ensures Counts(counter, r, First(bits, i)) ==> Counts(counter, r, bits)
    decreases |bits|
  {
    if i < |bits| {
      RestUnsigned(r, bits[..|bits| - 1], i, counter);
      assert First(bits[..|bits| - 1], i) == First(bits, i);
    }
  }

  // ---------- a certificate fed into an empty vote set ----------

  ghost function Marked(n: nat, indices: seq<nat>): (bits: seq<bool>)
    ensures |bits| == n
  {
    seq(n, i requires 0 <= i < n => i in indices)
  }

  ghost predicate MeetsFirst(s: Setup, indices: seq<nat>, j: nat)
    requires ValidSetup(s) && j <= |indices|
  {
    Meets(s.roster, s.quorum, Marked(Total(s.roster), indices[..j]))
  }

  ghost predicate Ascending(indices: seq<nat>) {
    forall i, j :: 0 <= i < j < |indices| ==> indices[i] < indices[j]
  }

  /** The signers are counted under one hash; the first prefix of them that meets the thresholds is crowned. */
  ghost predicate Absorbed(s: Setup, l: Ledger, v: Vote, indices: seq<nat>, j: nat)
    requires ValidSetup(s) && Sized(s, l) && j <= |indices|
  {
    var n := Total(s.roster);
    && l.byHash.Keys == (if indices == [] then {} else {v.hash})
    && (indices != [] ==> Bits(l.byHash[v.hash]) == Marked(n, indices))
    && Bits(l.votes) == Marked(n, indices)
    && (l.majority.None? <==> j == 0)
    && (j > 0 ==> l.majority == Some(Majority(v.hash, Marked(n, indices[..j]), v.sig)))
  }

  ghost predicate FirstMeeting(s: Setup, indices: seq<nat>, j: nat)
    requires ValidSetup(s) && j <= |indices|
  {
    if j == 0 then !MeetsFirst(s, indices, |indices|)
    else MeetsFirst(s, indices, j) && !MeetsFirst(s, indices, j - 1)
  }

  lemma MarkedNone(s: Setup)
    requires ValidSetup(s)
    ensures !Meets(s.roster, s.quorum, Marked(Total(s.roster), []))
  {
    TallyNone(s.roster, Marked(Total(s.roster), []), |s.roster| - 1);
  }

  /** Counting one more signer, before any majority is looked at. */
  lemma AbsorbCount(s: Setup, l: Ledger, v: Vote, rest: seq<nat>, x: nat, j: nat)
    requires ValidSetup(s) && Sized(s, l) && x < Total(s.roster) && Ascending(rest + [x])
    requires j <= |rest| && Absorbed(s, l, v, rest, j)
    ensures var c := Count(s, l, v, x);
            var all := Marked(Total(s.roster), rest + [x]);
            && l.votes[x].None? && c.byHash.Keys == {v.hash} && c.majority == l.majority
            && Bits(c.byHash[v.hash]) == all && Bits(c.votes) == all
  {
    MarkOneMore(Total(s.roster), rest, x);
    assert !Bits(l.votes)[x];
    var b := BallotsOf(s, l, v.hash);
    assert Bits(b) == Marked(Total(s.roster), rest);
    BitsSet(b, x, v);
    BitsSet(l.votes, x, v);
  }

  lemma AbsorbOne(s: Setup, l: Ledger, v: Vote, indices: seq<nat>, j: nat)
    requires ValidSetup(s) && Sized(s, l) && indices != [] && Ascending(indices) && Below(indices, Total(s.roster))
    requires j < |indices| && Absorbed(s, l, v, indices[..|indices| - 1], j)
    ensures var n := |indices| - 1;
            var j' := if j == 0 && MeetsFirst(s, indices, |indices|) then |indices| else j;
            Absorbed(s, AddVerified(s, l, v, indices[n], true).ledger, v, indices, j')
  {
    var n := |indices| - 1;
    var x, rest := indices[n], indices[..n];
    assert indices == rest + [x] && indices[..|indices|] == indices && (j > 0 ==> indices[..j] == rest[..j]);
    AbsorbCount(s, l, v, rest, x, j);
    AbsorbCrown(s, Count(s, l, v, x), v, indices, j);
  }

  /** The majority is set when all signers so far meet the thresholds for the first time. */
  lemma AbsorbCrown(s: Setup, c: Ledger, v: Vote, indices: seq<nat>, j: nat)
    requires ValidSetup(s) && Sized(s, c) && indices != [] && j < |indices| && c.byHash.Keys == {v.hash}
    requires Bits(c.byHash[v.hash]) == Marked(Total(s.roster), indices) &&
             Bits(c.votes) == Marked(Total(s.roster), indices)
    requires if j == 0 then c.majority.None?
             else c.majority == Some(Majority(v.hash, Marked(Total(s.roster), indices[..j]), v.sig))
    ensures var j' := if j == 0 && MeetsFirst(s, indices, |indices|) then |indices| else j;
            Absorbed(s, Crown(s, c, v, true), v, indices, j')
  {
    assert indices[..|indices|] == indices;
    assert forall i :: 0 <= i < |c.votes| ==> Bits(c.votes)[i] == Bits(c.byHash[v.hash])[i];
    assert Bits(Crown(s, c, v, true).votes) == Bits(c.votes);
  }

  lemma BitsSet(b: Ballots, x: nat, v: Vote)
    requires x < |b|
    ensures Bits(b[x := Some(v)]) == Bits(b)[x := true]
  {
  }

  lemma MarkOneMore(total: nat, rest: seq<nat>, x: nat)
    requires x < total && Ascending(rest + [x])
    ensures x !in rest && Marked(total, rest + [x]) == Marked(total, rest)[x := true]
  {
    var indices := rest + [x];
    forall i | 0 <= i < |rest|
      ensures rest[i] < x
    {
      assert indices[i] < indices[|rest|];
    }
  }

  lemma {:induction false} Absorb(s: Setup, v: Vote, indices: seq<nat>) returns (j: nat)
    requires ValidSetup(s) && Ascending(indices) && Below(indices, Total(s.roster))
    ensures j <= |indices| && FirstMeeting(s, indices, j)
    ensures Absorbed(s, AddEach(s, Empty(s), v, indices), v, indices, j)
    decreases |indices|
  {
    if indices == [] {
      j := 0;
      MarkedNone(s);
      assert Bits(Empty(s).votes) == Marked(Total(s.roster), []);
    } else {
      var n := |indices| - 1;
      var rest := indices[..n];
      j := Absorb(s, v, rest);
      assert rest[..|rest|] == indices[..n] &&
        (j > 0 ==> rest[..j] == indices[..j] && rest[..j - 1] == indices[..j - 1]);
      AbsorbOne(s, AddEach(s, Empty(s), v, rest), v, indices, j);
      if j == 0 && MeetsFirst(s, indices, |indices|) {
        j := |indices|;
      }
    }
  }

  lemma MeetsPrefix(s: Setup, indices: seq<nat>, i: nat, j: nat)
    requires ValidSetup(s) && i <= j <= |indices| && MeetsFirst(s, indices, i)
    ensures MeetsFirst(s, indices, j)
  {
    forall x | x in indices[..i]
      ensures x in indices[..j]
    {
      assert indices[..i] == indices[..j][..i];
    }
    MeetsMonotone(s, Marked(Total(s.roster), indices[..i]), Marked(Total(s.roster), indices[..j]));
  }

  lemma {:induction false} MarkedIsClip(n: nat, signers: seq<bool>)
    ensures Marked(n, TrueIndices(signers)) == Clip(signers, n)
  {
  }

  /** A vote that carries a well-formed certificate for its set. */
  ghost predicate ProperQc(s: Setup, v: Vote) {
    && v.signerIndex >= 0
    && Below(TrueIndices(v.signers), Total(s.roster))
    && v.sig == Signature(Canon(v), multiset(KeysAt(s.roster, TrueIndices(v.signers))))
  }

  /** Feeding a certificate to an empty vote set yields a majority exactly when the batch recount passes. */
  lemma AddQcRefinesRecount(s: Setup, v: Vote)
    requires ValidSetup(s) && ProperQc(s, v)
    ensures SuperMajority(AddQc(s, Empty(s), v).0)
            == if Meets(s.roster, s.quorum, Clip(v.signers, Total(s.roster))) then Some(v.hash) else None
  {
    var indices := TrueIndices(v.signers);
    var j := Absorb(s, v, indices);
    MeetsIffCrowned(s, v.signers, j);
    assert AddQc(s, Empty(s), v).0 == AddEach(s, Empty(s), v, indices);
  }

  lemma {:induction false} MeetsIffCrowned(s: Setup, signers: seq<bool>, j: nat)
    requires ValidSetup(s) && j <= |TrueIndices(signers)| && FirstMeeting(s, TrueIndices(signers), j)
    ensures Meets(s.roster, s.quorum, Clip(signers, Total(s.roster))) <==> j > 0
  {
    var indices := TrueIndices(signers);
    MarkedIsClip(Total(s.roster), signers);
    assert indices[..|indices|] == indices;
    if j > 0 {
      MeetsPrefix(s, indices, j, |indices|);
    }
  }

  /** The certificate a vote set hands out, checked with its own signers. */
  ghost predicate CertifiedSignature(s: Setup, m: Majority)
    requires |m.bits| <= Total(s.roster)
  {
    SignedBy(m.sig, CanonicalVote(s.kind, s.view, m.hash), s.roster, m.bits)
  }

  /** The last bit tells whether the greatest index is the last one. */
  lemma MarkedLast(n: nat, indices: seq<nat>)
    requires n > 0 && Ascending(indices) && Below(indices, n)
    ensures var rest := if Marked(n, indices)[n - 1] then indices[..|indices| - 1] else indices;
            && (Marked(n, indices)[n - 1] ==> indices == rest + [n - 1])
            && Ascending(rest) && Below(rest, n - 1) && Marked(n, indices)[..n - 1] == Marked(n - 1, rest)
  {
    if n - 1 in indices {
      var last := |indices| - 1;
      assert forall i :: 0 <= i < |indices| ==> indices[i] <= indices[last];
      assert indices[last] == n - 1;
    }
  }

  lemma {:induction false} TrueIndicesOfMarked(n: nat, indices: seq<nat>)
    requires Ascending(indices) && Below(indices, n)
    ensures TrueIndices(Marked(n, indices)) == indices
    decreases n
  {
    assert indices != [] ==> indices[0] < n;
    if n > 0 {
      MarkedLast(n, indices);
      var bits := Marked(n, indices);
      if bits[n - 1] {
        TrueIndicesOfMarked(n - 1, indices[..|indices| - 1]);
      } else {
        TrueIndicesOfMarked(n - 1, indices);
      }
      assert TrueIndices(bits) == TrueIndices(bits[..n - 1]) + if bits[n - 1] then [n - 1] else [];
    }
  }

  lemma PrefixKeys(r: Roster, indices: seq<nat>, j: nat)
    requires Below(indices, Total(r)) && j <= |indices|
    ensures multiset(KeysAt(r, indices[..j])) == multiset(KeysAt(r, indices)) <==> j == |indices|
  {
    var some, all := KeysAt(r, indices[..j]), KeysAt(r, indices);
    assert |multiset(some)| == j && |multiset(all)| == |indices|;
    if j == |indices| {
      assert indices[..j] == indices;
    }
  }

  /** The signers up to position `j` with the full signature verify only when they are all the signers. */
  lemma PrefixVerifies(s: Setup, v: Vote, indices: seq<nat>, j: nat)
    requires Ascending(indices) && Below(indices, Total(s.roster)) && j <= |indices| && v.kind == s.kind &&
             v.view == s.view
    requires v.sig == Signature(Canon(v), multiset(KeysAt(s.roster, indices)))
    ensures CertifiedSignature(s, Majority(v.hash, Marked(Total(s.roster), indices[..j]), v.sig)) <==> j == |indices|
  {
    TrueIndicesOfMarked(Total(s.roster), indices[..j]);
    PrefixKeys(s.roster, indices, j);
  }

  /** What is stored: the signers up to the one that met the thresholds, with the signature of all. */
  lemma StoredQc(s: Setup, v: Vote) returns (j: nat)
    requires ValidSetup(s) && ProperQc(s, v) && Meets(s.roster, s.quorum, Clip(v.signers, Total(s.roster)))
    ensures var indices := TrueIndices(v.signers);
            && 0 < j <= |indices| && (j == |indices| <==> !MeetsFirst(s, indices, |indices| - 1))
            && AddQc(s, Empty(s), v).0.majority == Some(Majority(v.hash, Marked(Total(s.roster), indices[..j]), v.sig))
  {
    var indices := TrueIndices(v.signers);
    j := Absorb(s, v, indices);
    MarkedIsClip(Total(s.roster), v.signers);
    assert indices[..|indices|] == indices;
    assert j > 0;
    if j < |indices| {
      MeetsPrefix(s, indices, j, |indices| - 1);
    }
  }

  /** The stored certificate keeps the full signature but only the signers up to the threshold: it verifies exactly
      when the certificate had no signer beyond the one that met the thresholds. */
  lemma StoredQcVerifiesIffMinimal(s: Setup, v: Vote)
    requires ValidSetup(s) && ProperQc(s, v) && v.kind == s.kind && v.view == s.view
    requires Meets(s.roster, s.quorum, Clip(v.signers, Total(s.roster)))
    ensures var m := AddQc(s, Empty(s), v).0.majority;
            var indices := TrueIndices(v.signers);
            && m.Some? && |m.value.bits| == Total(s.roster) && indices != []
            && (CertifiedSignature(s, m.value) <==> !MeetsFirst(s, indices, |indices| - 1))
  {
    var j := StoredQc(s, v);
    PrefixVerifies(s, v, TrueIndices(v.signers), j);
  }

  lemma {:induction false} QcMajority(s: Setup, l: Ledger, v: Vote, indices: seq<nat>)
    requires LedgerOk(s, l) && l.majority.None? && Below(indices, Total(s.roster))
    ensures var r := AddEach(s, l, v, indices);
            r.majority.Some? ==> r.majority.value.hash == v.hash && r.majority.value.sig == v.sig
    decreases |indices|
  {
    if indices != [] {
      QcMajority(s, l, v, indices[..|indices| - 1]);
    }
  }

  /** On any vote set, whatever votes and certificates it has seen: the certificate stored when a certificate completes
      the majority verifies exactly when the keys of the stored signers are the keys that signed, each as often. */
  lemma CompletingQcVerifiesIff(s: Setup, l: Ledger, v: Vote)
    requires LedgerOk(s, l) && l.majority.None? && ProperQc(s, v) && v.kind == s.kind && v.view == s.view
    requires AddQc(s, l, v).0.majority.Some?
    ensures var m := AddQc(s, l, v).0.majority.value;
            && m.hash == v.hash && |m.bits| == Total(s.roster)
            && (CertifiedSignature(s, m) <==>
                  multiset(KeysOf(s.roster, m.bits)) == multiset(KeysAt(s.roster, TrueIndices(v.signers))))
  {
    QcMajority(s, l, v, TrueIndices(v.signers));
    QcKeeps(s, l, v);
  }

  // ---------- certificates formed from single votes ----------

  ghost predicate OwnSignature(s: Setup, h: Hash, b: Ballots)
    requires |b| <= Total(s.roster)
  {
    forall i :: 0 <= i < |b| && b[i].Some? ==>
      b[i].value.sig == Signature(CanonicalVote(s.kind, s.view, h), multiset{At(s.roster, i).key})
  }

  ghost predicate AllOwn(s: Setup, l: Ledger)
    requires Sized(s, l)
  {
    forall h :: h in l.byHash ==> OwnSignature(s, h, l.byHash[h])
  }

  /** Every counted vote carries its validator's own signature, and the majority's aggregate checks out. */
  ghost predicate SinglySigned(s: Setup, l: Ledger)
    requires Sized(s, l)
  {
    && AllOwn(s, l)
    && (l.majority.Some? ==> |l.majority.value.bits| == Total(s.roster) && CertifiedSignature(s, l.majority.value))
  }

  lemma KeysOfLast(r: Roster, bits: seq<bool>)
    requires 0 < |bits| <= Total(r)
    ensures var n := |bits| - 1;
            multiset(KeysOf(r, bits)) ==
              multiset(KeysOf(r, bits[..n])) + if bits[n] then multiset{At(r, n).key} else multiset{}
  {
    var n := |bits| - 1;
    FirstStep(r, bits, n);
    assert bits[..n + 1] == bits;
  }

  lemma {:induction false} SumOfOwnKeys(s: Setup, h: Hash, b: Ballots)
    requires |b| <= Total(s.roster) && OwnSignature(s, h, b)
    ensures SumKeys(b) == multiset(KeysOf(s.roster, Bits(b)))
    decreases |b|
  {
    if b != [] {
      var n := |b| - 1;
      SumOfOwnKeys(s, h, b[..n]);
      KeysOfLast(s.roster, Bits(b));
      assert Bits(b)[..n] == Bits(b[..n]);
    }
  }

  lemma CountKeepsOwn(s: Setup, l: Ledger, v: Vote, index: nat)
    requires Sized(s, l) && AllOwn(s, l) && index < Total(s.roster)
    requires v.sig == Signature(CanonicalVote(s.kind, s.view, v.hash), multiset{At(s.roster, index).key})
    ensures AllOwn(s, Count(s, l, v, index))
  {
    var b := BallotsOf(s, l, v.hash);
    assert OwnSignature(s, v.hash, b);
    assert OwnSignature(s, v.hash, b[index := Some(v)]);
  }

  lemma CrownIsCertified(s: Setup, l: Ledger, v: Vote)
    requires ValidSetup(s) && Sized(s, l) && AllOwn(s, l) && v.hash in l.byHash && v.kind == s.kind && v.view == s.view
    requires SinglySigned(s, l)
    ensures SinglySigned(s, Crown(s, l, v, false))
  {
    SumOfOwnKeys(s, v.hash, l.byHash[v.hash]);
  }

  lemma VoteKeepsSingleSignatures(s: Setup, l: Ledger, v: Vote, responded: seq<bool>)
    requires LedgerOk(s, l) && SinglySigned(s, l) && |responded| == Total(s.roster)
    ensures Sized(s, AddVote(s, responded, l, v).0) && SinglySigned(s, AddVote(s, responded, l, v).0)
  {
    var r := AddVote(s, responded, l, v).0;
    if r != l && 0 <= v.signerIndex < Total(s.roster) && l.votes[v.signerIndex].None? {
      CountKeepsOwn(s, l, v, v.signerIndex);
      CrownIsCertified(s, Count(s, l, v, v.signerIndex), v);
    }
  }

  ghost predicate VotesOnly(s: Setup, es: seq<Event>) {
    forall i :: 0 <= i < |es| ==> es[i].VoteIn? && Fitting(s, es[i])
  }

  /** A majority reached through votes alone has a certificate that passes the thresholds and the signature check. */
  lemma {:induction false} VotesYieldCertificate(s: Setup, es: seq<Event>)
    requires ValidSetup(s) && VotesOnly(s, es)
    ensures var l := ReceiveAll(s, Empty(s), es);
            && LedgerOk(s, l) && SinglySigned(s, l)
            && (l.majority.Some? ==>
                  Meets(s.roster, s.quorum, l.majority.value.bits) && CertifiedSignature(s, l.majority.value))
    decreases |es|
  {
    EmptyOk(s);
    RunKeepsLedger(s, Empty(s), es);
    if es != [] {
      var n := |es| - 1;
      VotesYieldCertificate(s, es[..n]);
      VoteKeepsSingleSignatures(s, ReceiveAll(s, Empty(s), es[..n]), es[n].vote, es[n].responded);
    }
  }

  lemma {:induction false} OnesAreIndices(bits: seq<bool>)
    ensures |TrueIndices(bits)| == CountTrue(bits)
    decreases |bits|
  {
    if bits != [] {
      OnesAreIndices(bits[..|bits| - 1]);
    }
  }

  lemma {:induction false} FewerOnes(a: seq<bool>, b: seq<bool>)
    requires |a| == |b| && forall i :: 0 <= i < |a| && a[i] ==> b[i]
    ensures CountTrue(a) <= CountTrue(b)
    ensures CountTrue(a) == CountTrue(b) ==> a == b
    decreases |a|
  {
    if a != [] {
      var n := |a| - 1;
      FewerOnes(a[..n], b[..n]);
      assert a == a[..n] + [a[n]] && b == b[..n] + [b[n]];
    }
  }

  lemma {:induction false} FewerSigners(a: seq<bool>, b: seq<bool>)
    requires |a| == |b| && forall i :: 0 <= i < |a| && a[i] ==> b[i]
    ensures |TrueIndices(a)| == |TrueIndices(b)| ==> a == b
  {
    OnesAreIndices(a);
    OnesAreIndices(b);
    FewerOnes(a, b);
  }

  /** The certificate the leader broadcasts names everybody who voted: it verifies exactly when those are the stored
      signers of the majority. */
  lemma BroadcastVerifiesIffStored(s: Setup, l: Ledger)
    requires LedgerOk(s, l) && SinglySigned(s, l) && l.majority.Some?
    ensures SignedBy(l.majority.value.sig, CanonicalVote(s.kind, s.view, l.majority.value.hash), s.roster,
            Bits(l.votes))
            <==> Bits(l.votes) == l.majority.value.bits
  {
    var m := l.majority.value;
    forall i | 0 <= i < |m.bits| && m.bits[i]
      ensures l.votes[i].Some?
    {
      assert Counted(l, i, m.hash) && CountedAs(l, m.hash);
    }
    FewerSigners(m.bits, Bits(l.votes));
    assert |multiset(KeysOf(s.roster, m.bits))| == |TrueIndices(m.bits)|;
    assert |multiset(KeysOf(s.roster, Bits(l.votes)))| == |TrueIndices(Bits(l.votes))|;
  }

  // ---------- what makes a broadcast certificate verify ----------

  /** The vote set after the first `k` deliveries. */
  ghost function After(s: Setup, es: seq<Event>, k: nat): Ledger
    requires ValidSetup(s) && VotesOnly(s, es) && k <= |es|
  {
    ReceiveAll(s, Empty(s), es[..k])
  }

  /** Delivery `k` completed the majority. */
  ghost predicate CompletedAt(s: Setup, es: seq<Event>, k: nat)
    requires ValidSetup(s) && VotesOnly(s, es) && k < |es|
  {
    After(s, es, k).majority.None? && After(s, es, k + 1).majority.Some?
  }

  ghost predicate AllFor(l: Ledger, h: Hash) {
    forall i :: 0 <= i < |l.votes| && l.votes[i].Some? ==> Counted(l, i, h)
  }

  /** No delivery from `k` on brings in a new voter. */
  ghost predicate NoNewVoter(s: Setup, es: seq<Event>, k: nat)
    requires ValidSetup(s) && VotesOnly(s, es) && k <= |es|
  {
    forall j :: k <= j < |es| ==> Bits(After(s, es, j + 1).votes) == Bits(After(s, es, j).votes)
  }

  ghost predicate Covered(a: seq<bool>, b: seq<bool>) {
    |a| == |b| && forall i :: 0 <= i < |a| && a[i] ==> b[i]
  }

  /** One more verified vote drops no voter; the majority it completes has the signers counted under its hash. */
  lemma AddedVoters(s: Setup, l: Ledger, v: Vote, index: nat)
    requires ValidSetup(s) && Sized(s, l) && index < Total(s.roster)
    ensures var r := AddVerified(s, l, v, index, false).ledger;
            && Covered(Bits(l.votes), Bits(r.votes))
            && (l.majority.None? && r.majority.Some? ==>
                  var m := r.majority.value; m.hash in r.byHash && m.bits == Bits(r.byHash[m.hash]))
  {
  }

  lemma VoteAddsVoters(s: Setup, l: Ledger, v: Vote, responded: seq<bool>)
    requires ValidSetup(s) && Sized(s, l) && |responded| == Total(s.roster)
    ensures var r := AddVote(s, responded, l, v).0;
            && Covered(Bits(l.votes), Bits(r.votes))
            && (l.majority.None? && r.majority.Some? ==>
                  var m := r.majority.value; m.hash in r.byHash && m.bits == Bits(r.byHash[m.hash]))
  {
    VoteOutcome(s, l, v, responded);
    if AddVote(s, responded, l, v).0 != l {
      AddedVoters(s, l, v, v.signerIndex);
    }
  }

  lemma AfterOk(s: Setup, es: seq<Event>, k: nat)
    requires ValidSetup(s) && VotesOnly(s, es) && k <= |es|
    ensures LedgerOk(s, After(s, es, k)) && SinglySigned(s, After(s, es, k))
  {
    VotesYieldCertificate(s, es[..k]);
  }

  lemma AfterNext(s: Setup, es: seq<Event>, k: nat)
    requires ValidSetup(s) && VotesOnly(s, es) && k < |es|
    ensures LedgerOk(s, After(s, es, k)) && |es[k].responded| == Total(s.roster)
    ensures After(s, es, k + 1) == AddVote(s, es[k].responded, After(s, es, k), es[k].vote).0
  {
    AfterOk(s, es, k);
    assert es[..k + 1][..k] == es[..k] && es[..k + 1][k] == es[k];
  }

  lemma {:induction false} VotersOnlyGrow(s: Setup, es: seq<Event>, k: nat, n: nat)
    requires ValidSetup(s) && VotesOnly(s, es) && k <= n <= |es|
    ensures Covered(Bits(After(s, es, k).votes), Bits(After(s, es, n).votes))
    ensures After(s, es, k).majority.Some? ==> After(s, es, n).majority == After(s, es, k).majority
    decreases n
  {
    if k < n {
      VotersOnlyGrow(s, es, k, n - 1);
      AfterNext(s, es, n - 1);
      VoteAddsVoters(s, After(s, es, n - 1), es[n - 1].vote, es[n - 1].responded);
      VoteKeeps(s, After(s, es, n - 1), es[n - 1].vote, es[n - 1].responded);
    }
  }

  lemma {:induction false} SameVoters(s: Setup, es: seq<Event>, k: nat, n: nat)
    requires ValidSetup(s) && VotesOnly(s, es) && k <= n <= |es| && NoNewVoter(s, es, k)
    ensures Bits(After(s, es, n).votes) == Bits(After(s, es, k).votes)
    decreases n
  {
    if k < n {
      SameVoters(s, es, k, n - 1);
    }
  }

  lemma NoNewVoterIff(s: Setup, es: seq<Event>, k: nat)
    requires ValidSetup(s) && VotesOnly(s, es) && k <= |es|
    ensures NoNewVoter(s, es, k) <==> Bits(After(s, es, |es|).votes) == Bits(After(s, es, k).votes)
  {
    if NoNewVoter(s, es, k) {
      SameVoters(s, es, k, |es|);
    }
    if Bits(After(s, es, |es|).votes) == Bits(After(s, es, k).votes) {
      forall j | k <= j < |es|
        ensures Bits(After(s, es, j + 1).votes) == Bits(After(s, es, j).votes)
      {
        VotersOnlyGrow(s, es, k, j);
        VotersOnlyGrow(s, es, j, j + 1);
        VotersOnlyGrow(s, es, j + 1, |es|);
      }
    }
  }

  lemma AllForIff(s: Setup, l: Ledger)
    requires LedgerOk(s, l) && l.majority.Some? && l.majority.value.bits == Bits(l.byHash[l.majority.value.hash])
    ensures AllFor(l, l.majority.value.hash) <==> Bits(l.votes) == l.majority.value.bits
  {
    var m := l.majority.value;
    assert CountedAs(l, m.hash);
    assert forall i :: 0 <= i < |m.bits| ==> (m.bits[i] <==> Counted(l, i, m.hash));
  }

  /** After votes alone, the certificate the leader broadcasts verifies exactly when everybody who had voted by the
      time the majority formed voted for it, and nobody new has voted since, not even for the majority. */
  lemma BroadcastQcVerifiesIffNoOtherVoter(s: Setup, es: seq<Event>, k: nat)
    requires ValidSetup(s) && VotesOnly(s, es) && k < |es| && CompletedAt(s, es, k)
    ensures var l := After(s, es, |es|);
            && l.majority.Some? && |Bits(l.votes)| <= Total(s.roster)
            && var m := l.majority.value;
               (SignedBy(m.sig, CanonicalVote(s.kind, s.view, m.hash), s.roster, Bits(l.votes)) <==>
                 AllFor(After(s, es, k + 1), m.hash) && NoNewVoter(s, es, k + 1))
  {
    var formed, l := After(s, es, k + 1), After(s, es, |es|);
    AfterNext(s, es, k);
    VoteAddsVoters(s, After(s, es, k), es[k].vote, es[k].responded);
    VotersOnlyGrow(s, es, k + 1, |es|);
    AfterOk(s, es, k + 1);
    AfterOk(s, es, |es|);
    AllForIff(s, formed);
    NoNewVoterIff(s, es, k + 1);
    BroadcastVerifiesIffStored(s, l);
    FormedCovered(s, formed);
  }

  lemma FormedCovered(s: Setup, l: Ledger)
    requires LedgerOk(s, l) && l.majority.Some?
    ensures Covered(l.majority.value.bits, Bits(l.votes))
  {
    assert CountedAs(l, l.majority.value.hash);
  }
}
