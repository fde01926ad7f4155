/** The vote set as it is kept in memory: running counters that always equal a recount of the ledger. */
module VoteSets {
  import opened Types
  import opened Rosters
  import opened Ledgers
  import opened LedgerRuns
  import opened QuorumCerts

  // ---------- comparators ----------

  method AreVoteHeightsEqual(voteHeights: map<Address, nat>, systemHeights: map<Address, nat>) returns (equal: bool)
    ensures equal <==> voteHeights == systemHeights
  {
    if |voteHeights| != |systemHeights| {
      return false;
    }
    var pending := voteHeights.Keys;
    while pending != {}
      invariant pending <= voteHeights.Keys
      invariant forall a :: a in voteHeights.Keys - pending ==> a in systemHeights && systemHeights[a] == voteHeights[a]
      decreases pending
    {
      var a :| a in pending;
      if a !in systemHeights || voteHeights[a] != systemHeights[a] {
        return false;
      }
      pending := pending - {a};
    }
    SameSizeSubset(voteHeights.Keys, systemHeights.Keys);
    return true;
  }

  method AreGreater(values: seq<nat>, thresholds: seq<nat>) returns (all: bool)
    requires |values| == |thresholds|
    ensures all <==> forall k :: 0 <= k < |values| ==> values[k] >= thresholds[k]
  {
    for i := 0 to |values|
      invariant forall k :: 0 <= k < i ==> values[k] >= thresholds[k]
    {
      if values[i] < thresholds[i] {
        return false;
      }
    }
    return true;
  }

  method AddAtSlots(sum: seq<nat>, slots: seq<nat>) returns (r: seq<nat>)
    requires forall i :: 0 <= i < |slots| ==> slots[i] < |sum|
    ensures |r| == |sum| && forall k :: 0 <= k < |r| ==> r[k] == sum[k] + multiset(slots)[k]
  {
    r := sum;
    for i := 0 to |slots|
      invariant |r| == |sum| && forall k :: 0 <= k < |r| ==> r[k] == sum[k] + multiset(slots[..i])[k]
    {
      r := r[slots[i] := r[slots[i]] + 1];
      assert slots[..i + 1] == slots[..i] + [slots[i]];
    }
    assert slots[..|slots|] == slots;
  }

  // ---------- votes for one tesseract ----------

  datatype TesseractVotes = TesseractVotes(bits: seq<bool>, votes: Ballots, sum: seq<nat>)

  ghost predicate Faithful(s: Setup, tv: TesseractVotes) {
    && |tv.votes| == Total(s.roster)
    && tv.bits == Bits(tv.votes)
    && Counts(tv.sum, s.roster, tv.bits)
  }

  lemma CountsSet(s: Setup, sum: seq<nat>, bits: seq<bool>, index: nat, after: seq<nat>)
    requires index < |bits| <= Total(s.roster) && !bits[index] && Counts(sum, s.roster, bits)
    requires |after| == |sum| && forall k :: 0 <= k < |sum| ==> after[k] == sum[k] + multiset(Slots(s.roster, index))[k]
    ensures Counts(after, s.roster, bits[index := true])
  {
    forall k | 0 <= k < |s.roster|
      ensures after[k] == Tally(s.roster, bits[index := true], k)
    {
      TallySet(s.roster, bits, index, k);
    }
  }

  method AddToTesseract(s: Setup, tv: TesseractVotes, v: Vote, index: nat, slots: seq<nat>) returns (r: TesseractVotes)
    requires Faithful(s, tv) && index < Total(s.roster) && slots == Slots(s.roster, index)
    ensures Faithful(s, r)
    ensures r.votes == if tv.votes[index].None? then tv.votes[index := Some(v)] else tv.votes
  {
    r := tv;
    if tv.votes[index].None? {
      SlotsInRange(s.roster, index);
      var sum := AddAtSlots(tv.sum, slots);
      CountsSet(s, tv.sum, tv.bits, index, sum);
      r := TesseractVotes(tv.bits[index := true], tv.votes[index := Some(v)], sum);
      assert r.bits == Bits(r.votes);
    }
  }

  method NewTesseractVotes(s: Setup) returns (r: TesseractVotes)
    ensures Faithful(s, r) && r.votes == NoBallots(Total(s.roster))
  {
    var n := Total(s.roster);
    r := TesseractVotes(seq(n, _ => false), NoBallots(n), seq(|s.roster|, _ => 0));
    assert r.bits == Bits(r.votes);
    forall k | 0 <= k < |s.roster|
      ensures r.sum[k] == Tally(s.roster, r.bits, k)
    {
      TallyNone(s.roster, r.bits, k);
    }
  }

  ghost function BallotsByHash(byTesseract: map<Hash, TesseractVotes>): map<Hash, Ballots> {
    map h | h in byTesseract :: byTesseract[h].votes
  }

  ghost predicate AllFaithful(s: Setup, byTesseract: map<Hash, TesseractVotes>) {
    forall h :: h in byTesseract ==> Faithful(s, byTesseract[h])
  }

  /** A vote is filed under its hash, in a new entry when there is none. */
  method FileVote(s: Setup, byTesseract: map<Hash, TesseractVotes>, v: Vote, index: nat, slots: seq<nat>)
    returns (r: map<Hash, TesseractVotes>)
    requires AllFaithful(s, byTesseract) && index < Total(s.roster) && slots == Slots(s.roster, index)
    requires v.hash in byTesseract ==> byTesseract[v.hash].votes[index].None?
    ensures AllFaithful(s, r)
    ensures var was := if v.hash in byTesseract then byTesseract[v.hash].votes else NoBallots(Total(s.roster));
            BallotsByHash(r) == BallotsByHash(byTesseract)[v.hash := was[index := Some(v)]]
  {
    var tv: TesseractVotes;
    if v.hash in byTesseract {
      tv := byTesseract[v.hash];
    } else {
      tv := NewTesseractVotes(s);
    }
    tv := AddToTesseract(s, tv, v, index, slots);
    r := byTesseract[v.hash := tv];
  }

  method CountVote(s: Setup, sum: seq<nat>, votes: Ballots, index: nat, slots: seq<nat>) returns (r: seq<nat>)
    requires index < |votes| == Total(s.roster) && votes[index].None? && slots == Slots(s.roster, index)
    requires Counts(sum, s.roster, Bits(votes))
    ensures forall v :: Counts(r, s.roster, Bits(votes[index := Some(v)]))
  {
    SlotsInRange(s.roster, index);
    r := AddAtSlots(sum, slots);
    CountsSet(s, sum, Bits(votes), index, r);
    assert forall v :: Bits(votes[index := Some(v)]) == Bits(votes)[index := true];
  }

  method CopyVotes(votes: Ballots, b: Ballots) returns (r: Ballots)
    requires |votes| == |b|
    ensures r == Overlay(votes, b)
  {
    r := votes;
    for i := 0 to |b|
      invariant |r| == |votes|
      invariant forall k :: 0 <= k < i ==> r[k] == Overlay(votes, b)[k]
      invariant forall k :: i <= k < |r| ==> r[k] == votes[k]
    {
      if b[i].Some? {
        r := r[i := b[i]];
      }
    }
  }

  /** The keys of the signers, unless one of them is not in the committee. */
  method CollectKeys(r: Roster, signed: seq<nat>) returns (keys: Option<seq<Key>>)
    ensures keys.Some? <==> Below(signed, Total(r))
    ensures keys.Some? ==> keys.value == KeysAt(r, signed)
  {
    var found: seq<Key> := [];
    for i := 0 to |signed|
      invariant Below(signed[..i], Total(r)) && found == KeysAt(r, signed[..i])
    {
      if signed[i] >= Total(r) {
        return None;
      }
      found := found + [At(r, signed[i]).key];
      assert signed[..i + 1] == signed[..i] + [signed[i]];
    }
    assert signed[..|signed|] == signed;
    return Some(found);
  }

  // ---------- the vote set ----------

  class VoteSet {
    const setup: Setup
    var sum: seq<nat>
    var votes: Ballots
    var votesBitArray: seq<bool>
    var votesByTesseract: map<Hash, TesseractVotes>
    var maj23: Option<Majority>

    ghost function Contents(): Ledger
      reads this
    {
      Ledger(votes, BallotsByHash(votesByTesseract), maj23)
    }

    ghost predicate CountersExact()
      reads this
    {
      && |votes| == Total(setup.roster)
      && votesBitArray == Bits(votes)
      && Counts(sum, setup.roster, votesBitArray)
      && AllFaithful(setup, votesByTesseract)
    }

    ghost predicate Valid()
      reads this
    {
      CountersExact() && LedgerOk(setup, Contents())
    }

    constructor (s: Setup)
      requires ValidSetup(s)
      ensures setup == s && Valid() && Contents() == Empty(s)
    {
      var n := Total(s.roster);
      setup := s;
      sum := seq(|s.roster|, _ => 0);
      votes := NoBallots(n);
      votesBitArray := seq(n, _ => false);
      votesByTesseract := map[];
      maj23 := None;
      new;
      forall k | 0 <= k < |s.roster|
        ensures sum[k] == Tally(s.roster, votesBitArray, k)
      {
        TallyNone(s.roster, votesBitArray, k);
      }
      EmptyOk(s);
      assert Contents() == Empty(s);
    }

    /** The hash a super majority agreed on, with signers that alone meet every threshold. */
    method SuperMajority() returns (hash: Option<Hash>)
      requires Valid()
      ensures hash == Ledgers.SuperMajority(Contents())
      ensures hash.None? <==> forall h :: h in votesByTesseract ==>
              !Meets(setup.roster, setup.quorum, votesByTesseract[h].bits)
    {
      assert forall h :: h in votesByTesseract ==> Contents().byHash[h] == votesByTesseract[h].votes;
      hash := if maj23.Some? then Some(maj23.value.hash) else None;
    }

    /** Whether the votes seen, for whatever hash, meet every threshold. */
    method HasMajorityAny() returns (any: bool)
      requires Valid()
      ensures any <==> Meets(setup.roster, setup.quorum, Bits(votes))
    {
      any := AreGreater(sum, setup.quorum);
    }

    method RecordFirst(v: Vote, index: nat, slots: seq<nat>)
      requires CountersExact() && index < Total(setup.roster) && votes[index].None? &&
               slots == Slots(setup.roster, index)
      requires v.hash in votesByTesseract ==> votesByTesseract[v.hash].votes[index].None?
      modifies this`votes, this`votesBitArray, this`sum, this`votesByTesseract
      ensures CountersExact() && Contents() == Count(setup, old(Contents()), v, index)
    {
      sum := CountVote(setup, sum, votes, index, slots);
      votesByTesseract := FileVote(setup, votesByTesseract, v, index, slots);
      votes, votesBitArray := votes[index := Some(v)], votesBitArray[index := true];
      assert votesBitArray == Bits(votes);
    }

    method CrownIfMet(v: Vote, isQc: bool)
      requires CountersExact() && ValidSetup(setup) && v.hash in votesByTesseract
      requires CountedAs(Contents(), v.hash)
      modifies this`votes, this`maj23
      ensures CountersExact() && Contents() == Crown(setup, old(Contents()), v, isQc)
    {
      var tv := votesByTesseract[v.hash];
      assert Contents().byHash[v.hash] == tv.votes;
      if maj23.None? {
        var met := AreGreater(tv.sum, setup.quorum);
        if met {
          var sig := if isQc then v.sig else Aggregate(Canon(v), tv.votes);
          maj23 := Some(Majority(v.hash, tv.bits, sig));
          votes := CopyVotes(votes, tv.votes);
          assert votesBitArray == Bits(votes);
        }
      }
    }

    /** A validator's first vote is counted, and may complete the majority. */
    method CastFirst(v: Vote, index: nat, slots: seq<nat>, isQc: bool)
      requires Valid() && index < Total(setup.roster) && slots == Slots(setup.roster, index) && votes[index].None?
      modifies this
      ensures Valid() && Contents() == Crown(setup, Count(setup, old(Contents()), v, index), v, isQc)
    {
      AddVerifiedKeeps(setup, Contents(), v, index, isQc);
      assert v.hash in votesByTesseract ==> CountedAs(Contents(), v.hash);
      CountOk(setup, Contents(), v, index);
      RecordFirst(v, index, slots);
      CrownIfMet(v, isQc);
    }

    /** A conflicting vote replaces the one on record only when it is for the majority. */
    method ReplaceIfMajority(v: Vote, index: nat)
      requires Valid() && index < Total(setup.roster) && votes[index].Some? && votes[index].value.hash != v.hash
      modifies this`votes
      ensures Valid()
      ensures var was := old(Contents());
              var replace := maj23.Some? && maj23.value.hash == v.hash;
              Contents() == if replace then was.(votes := was.votes[index := Some(v)]) else was
    {
      if maj23.Some? && maj23.value.hash == v.hash {
        ReplaceOk(setup, Contents(), v, index);
        votes := votes[index := Some(v)];
        assert Bits(votes) == votesBitArray;
      }
    }

    method AddVerifiedVote(v: Vote, index: nat, slots: seq<nat>, isQc: bool)
      returns (added: bool, conflicting: Option<Vote>)
      requires Valid() && index < Total(setup.roster) && slots == Slots(setup.roster, index)
      modifies this
      ensures Valid()
      ensures Added(Contents(), added, conflicting) == AddVerified(setup, old(Contents()), v, index, isQc)
    {
      conflicting := votes[index];
      if conflicting.None? {
        CastFirst(v, index, slots, isQc);
        return true, None;
      }
      if conflicting.value.hash == v.hash {
        return true, conflicting;
      }
      ReplaceIfMajority(v, index);
      return false, conflicting;
    }

    method GetVote(index: nat, hash: Hash) returns (found: Option<Vote>)
      requires Valid() && index < Total(setup.roster)
      ensures found == Ledgers.GetVote(setup, Contents(), index, hash)
    {
      if votes[index].Some? && votes[index].value.hash == hash {
        return votes[index];
      }
      if hash in votesByTesseract {
        return votesByTesseract[hash].votes[index];
      }
      return None;
    }

    /** Adds a vote after every check; a vote that passes them is added or reported as conflicting, never dropped. */
    method AddVote(v: Vote, responded: seq<bool>) returns (r: Result<bool>)
      requires Valid() && |responded| == Total(setup.roster)
      modifies this
      ensures Valid()
      ensures (Contents(), r) == Ledgers.AddVote(setup, responded, old(Contents()), v)
      ensures r == Ok(true) || Contents() != old(Contents()) ==> Genuine(setup, responded, v)
    {
      OnlyGenuineAdded(setup, responded, Contents(), v);
      if v.signerIndex < 0 {
        return Err(InvalidVote);
      }
      var heightsMatch := AreVoteHeightsEqual(v.heights, setup.heights);
      if !heightsMatch || v.view != setup.view || v.kind != setup.kind {
        return Err(InvalidViewOrHeight);
      }
      if v.signerIndex >= Total(setup.roster) || !responded[v.signerIndex] {
        return Err(InvalidValidator);
      }
      var found := GetVote(v.signerIndex, v.hash);
      if found.Some? {
        return if found.value.sig == v.sig then Ok(false) else Err(DifferentSignature);
      }
      if v.sig != Signature(Canon(v), multiset{At(setup.roster, v.signerIndex).key}) {
        return Err(SignatureVerificationFailed);
      }
      NoUnexpectedRefusal(setup, Contents(), v, v.signerIndex);
      var added, conflicting := AddVerifiedVote(v, v.signerIndex, Slots(setup.roster, v.signerIndex), false);
      if conflicting.Some? {
        return Err(ConflictingVote);
      }
      assert added;
      return Ok(added);
    }

    method AddSigners(v: Vote, signed: seq<nat>)
      requires Valid() && Below(signed, Total(setup.roster))
      modifies this
      ensures Valid() && Contents() == AddEach(setup, old(Contents()), v, signed)
    {
      for i := 0 to |signed|
        invariant Valid() && Contents() == AddEach(setup, old(Contents()), v, signed[..i])
      {
        var added, conflicting := AddVerifiedVote(v, signed[i], Slots(setup.roster, signed[i]), true);
        assert signed[..i + 1][..i] == signed[..i];
      }
      assert signed[..|signed|] == signed;
    }

    method AddQc(v: Vote) returns (r: Result<bool>)
      requires Valid()
      modifies this
      ensures Valid()
      ensures (Contents(), r) == Ledgers.AddQc(setup, old(Contents()), v)
      ensures r == Ok(true) <==> Signed(setup, v) && !Rivals(old(Contents()), v.hash)
    {
      OnlySignedQcAdded(setup, Contents(), v);
      if v.signerIndex < 0 {
        return Err(InvalidVote);
      }
      if maj23.Some? && maj23.value.hash != v.hash {
        return Err(ConflictingVote);
      }
      var signed := TrueIndices(v.signers);
      var keys := CollectKeys(setup.roster, signed);
      if keys.None? {
        return Err(PublicKeyNotFound);
      }
      if v.sig != Signature(Canon(v), multiset(keys.value)) {
        return Ok(false);
      }
      AddSigners(v, signed);
      return Ok(true);
    }
  }
}
