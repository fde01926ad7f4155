/** The committee of a cluster: node sets by position, the random set last, and who has responded. */
module Committees {
  import opened Types
  import opened Rosters
  import opened Ledgers

  datatype NodeSet = NodeSet(infos: seq<NodeInfo>, responses: seq<bool>, respCount: nat, size: nat)

  // An absent set is skipped by every scan.
  type Sets = seq<Option<NodeSet>>

  function NewNodeSet(infos: seq<NodeInfo>, required: nat): NodeSet {
    NodeSet(infos, seq(|infos|, _ => false), 0, required)
  }

  function InfosOf(o: Option<NodeSet>): seq<NodeInfo> {
    if o.Some? then o.value.infos else []
  }

  function RosterOf(sets: Sets): (r: Roster)
    ensures |r| == |sets|
  {
    seq(|sets|, k requires 0 <= k < |sets| => InfosOf(sets[k]))
  }

  ghost predicate WellFormed(sets: Sets) {
    sets != [] && forall k :: 0 <= k < |sets| && sets[k].Some? ==> |sets[k].value.responses| == |sets[k].value.infos|
  }

  function Bit(sets: Sets, p: Place): bool
    requires WellFormed(sets) && InRoster(RosterOf(sets), p)
  {
    sets[p.set_].value.responses[p.pos]
  }

  /** The response bits of the whole committee in flat order. */
  function VoteBits(sets: Sets): (bits: seq<bool>)
    requires WellFormed(sets)
    ensures |bits| == Total(RosterOf(sets))
  {
    var r := RosterOf(sets);
    seq(Total(r), i requires 0 <= i < Total(r) => Bit(sets, Locate(r, i)))
  }

  /** Every response counter is the number of response bits that are set. */
  ghost predicate ExactCounts(sets: Sets) {
    forall k :: 0 <= k < |sets| && sets[k].Some? ==> sets[k].value.respCount == CountTrue(sets[k].value.responses)
  }

  // ---------- marking one validator ----------

  function MarkedSet(o: Option<NodeSet>, j: nat): Option<NodeSet> {
    if o.None? || j >= |o.value.responses| then o
    else Some(o.value.(responses := o.value.responses[j := true], respCount := o.value.respCount + 1))
  }

  function MarkAt(sets: Sets, p: Place): (r: Sets)
    requires WellFormed(sets) && InRoster(RosterOf(sets), p)
    ensures WellFormed(r) && RosterOf(r) == RosterOf(sets)
  {
    sets[p.set_ := MarkedSet(sets[p.set_], p.pos)]
  }

  function MarkEach(sets: Sets, indices: seq<nat>): (r: Sets)
    requires WellFormed(sets) && Below(indices, Total(RosterOf(sets)))
    ensures WellFormed(r) && RosterOf(r) == RosterOf(sets)
    decreases |indices|
  {
    if indices == [] then sets
    else
      var n := |indices| - 1;
      var before := MarkEach(sets, indices[..n]);
      MarkAt(before, Locate(RosterOf(before), indices[n]))
  }

  // ---------- rebuilding the operator's committee from its bits ----------

  function ClearedSet(o: Option<NodeSet>): Option<NodeSet> {
    if o.None? then None else Some(o.value.(responses := seq(|o.value.infos|, _ => false), respCount := 0))
  }

  /** The same committee before anybody responded. */
  function Cleared(sets: Sets): (r: Sets)
    requires WellFormed(sets)
    ensures WellFormed(r) && RosterOf(r) == RosterOf(sets)
  {
    var r := seq(|sets|, k requires 0 <= k < |sets| => ClearedSet(sets[k]));
    assert RosterOf(r) == RosterOf(sets);
    r
  }

  ghost function Masked(bits: seq<bool>, keep: int): (r: seq<bool>)
    ensures |r| == |bits|
  {
    seq(|bits|, j requires 0 <= j < |bits| => bits[j] && j < keep)
  }

  ghost function UptoSet(sets: Sets, k: nat, m: nat): Option<NodeSet>
    requires k < |sets|
  {
    if sets[k].None? then None
    else
      var bits := Masked(sets[k].value.responses, m - Offset(RosterOf(sets), k));
      Some(sets[k].value.(responses := bits, respCount := CountTrue(bits)))
  }

  /** The committee in which only flat indices below `m` have responded. */
  ghost function Upto(sets: Sets, m: nat): (r: Sets)
    requires WellFormed(sets)
    ensures WellFormed(r) && RosterOf(r) == RosterOf(sets)
  {
    var r := seq(|sets|, k requires 0 <= k < |sets| => UptoSet(sets, k, m));
    assert RosterOf(r) == RosterOf(sets);
    r
  }

  lemma {:induction false} CountTrueSet(bits: seq<bool>, j: nat)
    requires j < |bits| && !bits[j]
    ensures CountTrue(bits[j := true]) == CountTrue(bits) + 1
    decreases |bits|
  {
    var n := |bits| - 1;
    if j == n {
      assert bits[j := true][..n] == bits[..n];
    } else {
      CountTrueSet(bits[..n], j);
      assert bits[j := true][..n] == bits[..n][j := true];
    }
  }

  lemma {:induction false} CountTrueNone(bits: seq<bool>)
    requires forall j :: 0 <= j < |bits| ==> !bits[j]
    ensures CountTrue(bits) == 0
    decreases |bits|
  {
    if bits != [] {
      CountTrueNone(bits[..|bits| - 1]);
    }
  }

  lemma MaskStep(bits: seq<bool>, keep: int)
    ensures !(0 <= keep < |bits| && bits[keep]) ==> Masked(bits, keep + 1) == Masked(bits, keep)
    ensures 0 <= keep < |bits| && bits[keep] ==>
              && Masked(bits, keep + 1) == Masked(bits, keep)[keep := true]
              && CountTrue(Masked(bits, keep + 1)) == CountTrue(Masked(bits, keep)) + 1
  {
    if 0 <= keep < |bits| && bits[keep] {
      assert Masked(bits, keep + 1) == Masked(bits, keep)[keep := true];
      CountTrueSet(Masked(bits, keep), keep);
    }
  }

  lemma UptoOtherSet(sets: Sets, m: nat, k: nat)
    requires WellFormed(sets) && m < Total(RosterOf(sets)) && k < |sets| && k != Locate(RosterOf(sets), m).set_
    ensures UptoSet(sets, k, m + 1) == UptoSet(sets, k, m)
  {
    var r := RosterOf(sets);
    if sets[k].Some? {
      var keep := m - Offset(r, k);
      if 0 <= keep < |r[k]| {
        LocateUnique(r, Place(k, keep));
      }
      MaskStep(sets[k].value.responses, keep);
    }
  }

  lemma UptoOwnSet(sets: Sets, m: nat)
    requires WellFormed(sets) && m < Total(RosterOf(sets))
    ensures var p := Locate(RosterOf(sets), m);
            var before := UptoSet(sets, p.set_, m);
            && (!Bit(sets, p) ==> UptoSet(sets, p.set_, m + 1) == before)
            && (Bit(sets, p) ==> UptoSet(sets, p.set_, m + 1) == MarkedSet(before, p.pos))
  {
    var p := Locate(RosterOf(sets), m);
    MaskStep(sets[p.set_].value.responses, p.pos);
  }

  lemma UptoStep(sets: Sets, m: nat)
    requires WellFormed(sets) && m < Total(RosterOf(sets))
    ensures var p := Locate(RosterOf(sets), m);
            Upto(sets, m + 1) == if Bit(sets, p) then MarkAt(Upto(sets, m), p) else Upto(sets, m)
  {
    var p := Locate(RosterOf(sets), m);
    var after := if Bit(sets, p) then MarkAt(Upto(sets, m), p) else Upto(sets, m);
    UptoOwnSet(sets, m);
    assert after[p.set_] == UptoSet(sets, p.set_, m + 1);
    forall k | 0 <= k < |sets| && k != p.set_
      ensures Upto(sets, m + 1)[k] == Upto(sets, m)[k]
    {
      UptoOtherSet(sets, m, k);
    }
    assert Upto(sets, m + 1) == after;
  }

  lemma UptoNone(sets: Sets)
    requires WellFormed(sets)
    ensures Upto(sets, 0) == Cleared(sets)
  {
    forall k | 0 <= k < |sets|
      ensures UptoSet(sets, k, 0) == ClearedSet(sets[k])
    {
      if sets[k].Some? {
        var masked := Masked(sets[k].value.responses, 0 - Offset(RosterOf(sets), k));
        CountTrueNone(masked);
        assert masked == seq(|sets[k].value.infos|, _ => false);
      }
    }
  }

  lemma UptoAllOfSet(sets: Sets, k: nat)
    requires WellFormed(sets) && ExactCounts(sets) && k < |sets|
    ensures UptoSet(sets, k, Total(RosterOf(sets))) == sets[k]
  {
    var r := RosterOf(sets);
    if sets[k].Some? {
      OffsetMonotone(r, k, |r|);
      assert Masked(sets[k].value.responses, Total(r) - Offset(r, k)) == sets[k].value.responses;
    }
  }

  lemma UptoAll(sets: Sets)
    requires WellFormed(sets) && ExactCounts(sets)
    ensures Upto(sets, Total(RosterOf(sets))) == sets
  {
    forall k | 0 <= k < |sets|
      ensures UptoSet(sets, k, Total(RosterOf(sets))) == sets[k]
    {
      UptoAllOfSet(sets, k);
    }
  }

  lemma TrueIndicesNext(bits: seq<bool>, m: nat)
    requires m < |bits|
    ensures TrueIndices(bits[..m + 1]) == TrueIndices(bits[..m]) + if bits[m] then [m] else []
  {
    assert bits[..m + 1][..m] == bits[..m];
  }

  lemma {:induction false} MarkEachSnoc(sets: Sets, indices: seq<nat>, x: nat)
    requires WellFormed(sets) && Below(indices, Total(RosterOf(sets))) && x < Total(RosterOf(sets))
    ensures MarkEach(sets, indices + [x]) == MarkAt(MarkEach(sets, indices), Locate(RosterOf(sets), x))
  {
    assert (indices + [x])[..|indices|] == indices;
  }

  ghost function Replayed(sets: Sets, m: nat): Sets
    requires WellFormed(sets) && m <= Total(RosterOf(sets))
  {
    MarkEach(Cleared(sets), TrueIndices(VoteBits(sets)[..m]))
  }

  lemma ReplayedNext(sets: Sets, m: nat)
    requires WellFormed(sets) && m < Total(RosterOf(sets))
    ensures WellFormed(Replayed(sets, m)) && RosterOf(Replayed(sets, m)) == RosterOf(sets)
    ensures var p := Locate(RosterOf(sets), m);
            Replayed(sets, m + 1) == if Bit(sets, p) then MarkAt(Replayed(sets, m), p) else Replayed(sets, m)
  {
    var bits := VoteBits(sets);
    var earlier := TrueIndices(bits[..m]);
    TrueIndicesNext(bits, m);
    if bits[m] {
      assert TrueIndices(bits[..m + 1]) == earlier + [m];
      MarkEachSnoc(Cleared(sets), earlier, m);
    } else {
      assert TrueIndices(bits[..m + 1]) == earlier;
    }
  }

  lemma ReplayedKeepsUp(sets: Sets, m: nat)
    requires WellFormed(sets) && m < Total(RosterOf(sets)) && Replayed(sets, m) == Upto(sets, m)
    ensures Replayed(sets, m + 1) == Upto(sets, m + 1)
  {
    UptoStep(sets, m);
    ReplayedNext(sets, m);
  }

  lemma {:induction false} ReplayedIsUpto(sets: Sets, m: nat)
    requires WellFormed(sets) && m <= Total(RosterOf(sets))
    ensures Replayed(sets, m) == Upto(sets, m)
    decreases m
  {
    if m == 0 {
      UptoNone(sets);
    } else {
      ReplayedIsUpto(sets, m - 1);
      ReplayedKeepsUp(sets, m - 1);
    }
  }

  /** A fresh committee of the same shape that is fed the true bits becomes the operator's: same bits, same counts. */
  lemma RebuildFromBits(sets: Sets)
    requires WellFormed(sets) && ExactCounts(sets)
    ensures MarkEach(Cleared(sets), TrueIndices(VoteBits(sets))) == sets
  {
    var n := Total(RosterOf(sets));
    ReplayedIsUpto(sets, n);
    UptoAll(sets);
    assert VoteBits(sets)[..n] == VoteBits(sets);
  }

  // ---------- marking indices without looking ----------

  /** No counter is below the number of bits that are set. */
  ghost predicate NoneMissed(sets: Sets) {
    forall k :: 0 <= k < |sets| && sets[k].Some? ==> sets[k].value.respCount >= CountTrue(sets[k].value.responses)
  }

  /** A place that is marked again is counted again, and no later mark makes up for it. */
  lemma MarkAtCounts(sets: Sets, p: Place)
    requires WellFormed(sets) && NoneMissed(sets) && InRoster(RosterOf(sets), p)
    ensures NoneMissed(MarkAt(sets, p))
    ensures ExactCounts(MarkAt(sets, p)) <==> ExactCounts(sets) && !Bit(sets, p)
  {
    var after := MarkAt(sets, p);
    var was, now := sets[p.set_].value, after[p.set_].value;
    if Bit(sets, p) {
      assert now.responses == was.responses;
    } else {
      CountTrueSet(was.responses, p.pos);
    }
    assert forall k :: 0 <= k < |sets| && k != p.set_ ==> after[k] == sets[k];
    if !ExactCounts(sets) {
      var k :| 0 <= k < |sets| && sets[k].Some? && sets[k].value.respCount > CountTrue(sets[k].value.responses);
      assert after[k].value.respCount > CountTrue(after[k].value.responses);
    }
  }

  lemma MarkAtBit(sets: Sets, x: nat, y: nat)
    requires WellFormed(sets) && x < Total(RosterOf(sets)) && y < Total(RosterOf(sets))
    ensures var r := RosterOf(sets);
            Bit(MarkAt(sets, Locate(r, x)), Locate(r, y)) <==> Bit(sets, Locate(r, y)) || x == y
  {
  }

  lemma {:induction false} MarkEachBits(sets: Sets, indices: seq<nat>, y: nat)
    requires WellFormed(sets) && Below(indices, Total(RosterOf(sets))) && y < Total(RosterOf(sets))
    ensures Bit(MarkEach(sets, indices), Locate(RosterOf(sets), y)) <==>
            Bit(sets, Locate(RosterOf(sets), y)) || y in indices
    decreases |indices|
  {
    if indices != [] {
      var n := |indices| - 1;
      MarkEachBits(sets, indices[..n], y);
      MarkAtBit(MarkEach(sets, indices[..n]), indices[n], y);
      assert indices == indices[..n] + [indices[n]];
    }
  }

  ghost predicate NewIndices(sets: Sets, indices: seq<nat>)
    requires WellFormed(sets) && Below(indices, Total(RosterOf(sets)))
  {
    && (forall i, j :: 0 <= i < j < |indices| ==> indices[i] != indices[j])
    && forall i :: 0 <= i < |indices| ==> !VoteBits(sets)[indices[i]]
  }

  lemma NewIndicesNext(sets: Sets, indices: seq<nat>)
    requires WellFormed(sets) && Below(indices, Total(RosterOf(sets))) && indices != []
    ensures var n := |indices| - 1;
            NewIndices(sets, indices) <==>
            NewIndices(sets, indices[..n]) && indices[n] !in indices[..n] && !VoteBits(sets)[indices[n]]
  {
    var n := |indices| - 1;
    assert forall i :: 0 <= i < n ==> indices[..n][i] == indices[i];
    if NewIndices(sets, indices[..n]) && indices[n] !in indices[..n] && !VoteBits(sets)[indices[n]] {
      forall i, j | 0 <= i < j < |indices|
        ensures indices[i] != indices[j]
      {
        assert indices[i] == indices[..n][i];
      }
    }
  }

  /** Marking a list of indices keeps the counters exact if and only if they are distinct and nobody of them had
      responded; a proposal marks its signers without looking, so a repeated one is counted again. */
  lemma {:induction false} MarkEachExactIff(sets: Sets, indices: seq<nat>)
    requires WellFormed(sets) && ExactCounts(sets) && Below(indices, Total(RosterOf(sets)))
    ensures NoneMissed(MarkEach(sets, indices))
    ensures ExactCounts(MarkEach(sets, indices)) <==> NewIndices(sets, indices)
    decreases |indices|
  {
    if indices != [] {
      var n := |indices| - 1;
      MarkEachExactIff(sets, indices[..n]);
      MarkAtCounts(MarkEach(sets, indices[..n]), Locate(RosterOf(sets), indices[n]));
      MarkEachBits(sets, indices[..n], indices[n]);
      NewIndicesNext(sets, indices);
    }
  }

  // ---------- the operator's prepare phase ----------

  function MarkedId(o: Option<NodeSet>, id: KramaID): Option<NodeSet> {
    if o.None? then None
    else
      var ns := o.value;
      Some(ns.(responses := seq(|ns.responses|, j requires 0 <= j < |ns.responses| =>
                                  ns.responses[j] || (j < |ns.infos| && ns.infos[j].id == id)),
               respCount := ns.respCount + Occurrences(ns.infos, id)))
  }

  /** A prepared message counts at every place that holds its sender. */
  function MarkId(sets: Sets, id: KramaID): (r: Sets)
    requires WellFormed(sets)
    ensures WellFormed(r) && RosterOf(r) == RosterOf(sets)
  {
    var r := seq(|sets|, k requires 0 <= k < |sets| => MarkedId(sets[k], id));
    assert RosterOf(r) == RosterOf(sets);
    r
  }

  ghost predicate Responded(sets: Sets, k: nat, j: nat)
    requires k < |sets|
  {
    sets[k].Some? && j < |sets[k].value.responses| && sets[k].value.responses[j]
  }

  /** All places of one node carry the same response bit. */
  ghost predicate SameBit(sets: Sets)
    requires WellFormed(sets)
  {
    forall k, j, l, i ::
      0 <= k < |sets| && 0 <= j < |InfosOf(sets[k])| && 0 <= l < |sets| && 0 <= i < |InfosOf(sets[l])| &&
      InfosOf(sets[k])[j].id == InfosOf(sets[l])[i].id ==>
        (Responded(sets, k, j) <==> Responded(sets, l, i))
  }

  ghost predicate HasResponded(sets: Sets, id: KramaID)
    requires WellFormed(sets)
  {
    exists k, j :: 0 <= k < |sets| && 0 <= j < |InfosOf(sets[k])| && InfosOf(sets[k])[j].id == id &&
      Responded(sets, k, j)
  }

  /** A node's message, where `accepted` stands for the signature check and the update of the highest views; or the
      operator's own answer, which is marked when the request goes out, without looking at earlier marks. */
  datatype PrepareEvent = Prepared(sender: KramaID, accepted: bool) | OwnPrepared(sender: KramaID)

  ghost function HandlePrepared(sets: Sets, e: PrepareEvent): (r: Sets)
    requires WellFormed(sets)
    ensures WellFormed(r) && RosterOf(r) == RosterOf(sets)
  {
    match e
    case Prepared(sender, accepted) => if HasResponded(sets, sender) || !accepted then sets else MarkId(sets, sender)
    case OwnPrepared(self) => MarkId(sets, self)
  }

  ghost function RunPrepare(sets: Sets, es: seq<PrepareEvent>): (r: Sets)
    requires WellFormed(sets)
    ensures WellFormed(r) && RosterOf(r) == RosterOf(sets)
    decreases |es|
  {
    if es == [] then sets else HandlePrepared(RunPrepare(sets, es[..|es| - 1]), es[|es| - 1])
  }

  /** The places of a node that have not responded. */
  ghost function Unanswered(infos: seq<NodeInfo>, responses: seq<bool>, id: KramaID): nat
    requires |infos| == |responses|
  {
    if infos == [] then 0
    else
      var n := |infos| - 1;
      Unanswered(infos[..n], responses[..n], id) + if infos[n].id == id && !responses[n] then 1 else 0
  }

  lemma {:induction false} CountTrueOr(infos: seq<NodeInfo>, old_: seq<bool>, new_: seq<bool>, id: KramaID)
    requires |infos| == |old_| == |new_|
    requires forall j :: 0 <= j < |infos| ==> new_[j] == (old_[j] || infos[j].id == id)
    ensures CountTrue(new_) == CountTrue(old_) + Unanswered(infos, old_, id)
    ensures Unanswered(infos, old_, id) <= Occurrences(infos, id)
    ensures Unanswered(infos, old_, id) == Occurrences(infos, id) <==>
            forall j :: 0 <= j < |infos| && infos[j].id == id ==> !old_[j]
    decreases |infos|
  {
    if infos != [] {
      var n := |infos| - 1;
      CountTrueOr(infos[..n], old_[..n], new_[..n], id);
      assert forall j :: 0 <= j < n ==> infos[..n][j] == infos[j] && old_[..n][j] == old_[j];
    }
  }

  lemma MarkedCount(sets: Sets, id: KramaID, k: nat)
    requires WellFormed(sets) && ExactCounts(sets) && k < |sets| && sets[k].Some?
    ensures var after := MarkedId(sets[k], id).value;
            after.respCount == CountTrue(after.responses) <==>
            forall j :: 0 <= j < |InfosOf(sets[k])| && InfosOf(sets[k])[j].id == id ==> !Responded(sets, k, j)
  {
    var ns := sets[k].value;
    assert InfosOf(sets[k]) == ns.infos;
    assert forall j :: 0 <= j < |ns.infos| ==> (Responded(sets, k, j) <==> ns.responses[j]);
    CountTrueOr(ns.infos, ns.responses, MarkedId(sets[k], id).value.responses, id);
  }

  /** Marking all places of a node keeps the counters exact if and only if the node had not responded. */
  lemma MarkIdExactIff(sets: Sets, id: KramaID)
    requires WellFormed(sets) && ExactCounts(sets)
    ensures ExactCounts(MarkId(sets, id)) <==> !HasResponded(sets, id)
  {
    var after := MarkId(sets, id);
    forall k | 0 <= k < |sets| && sets[k].Some?
      ensures after[k] == MarkedId(sets[k], id)
      ensures after[k].value.respCount == CountTrue(after[k].value.responses) <==>
              forall j :: 0 <= j < |InfosOf(sets[k])| && InfosOf(sets[k])[j].id == id ==> !Responded(sets, k, j)
    {
      MarkedCount(sets, id, k);
    }
  }

  lemma MarkIdSameBit(sets: Sets, id: KramaID)
    requires WellFormed(sets) && SameBit(sets)
    ensures SameBit(MarkId(sets, id))
  {
    var after := MarkId(sets, id);
    forall k, j | 0 <= k < |sets| && 0 <= j < |InfosOf(sets[k])|
      ensures Responded(after, k, j) <==> Responded(sets, k, j) || InfosOf(sets[k])[j].id == id
    {
      assert after[k] == MarkedId(sets[k], id);
    }
    assert forall k :: 0 <= k < |sets| ==> InfosOf(after[k]) == InfosOf(sets[k]);
  }

  /** The operator marks its own answer before it has responded in any other way. */
  ghost predicate OwnFirst(sets: Sets, es: seq<PrepareEvent>)
    requires WellFormed(sets)
  {
    forall i :: 0 <= i < |es| && es[i].OwnPrepared? ==> !HasResponded(RunPrepare(sets, es[..i]), es[i].sender)
  }

  lemma {:induction false} OwnFirstBefore(sets: Sets, es: seq<PrepareEvent>)
    requires WellFormed(sets) && OwnFirst(sets, es) && es != []
    ensures var n := |es| - 1;
            && OwnFirst(sets, es[..n])
            && (es[n].OwnPrepared? ==> !HasResponded(RunPrepare(sets, es[..n]), es[n].sender))
  {
    var n := |es| - 1;
    assert forall i :: 0 <= i < n ==> es[..n][..i] == es[..i] && es[..n][i] == es[i];
  }

  lemma HandledExactly(sets: Sets, e: PrepareEvent)
    requires WellFormed(sets) && ExactCounts(sets) && SameBit(sets)
    requires e.OwnPrepared? ==> !HasResponded(sets, e.sender)
    ensures ExactCounts(HandlePrepared(sets, e)) && SameBit(HandlePrepared(sets, e))
  {
    MarkIdExactIff(sets, e.sender);
    MarkIdSameBit(sets, e.sender);
  }

  /** Over every run of the prepare phase the counters equal the set bits and every node has one answer. */
  lemma {:induction false} PrepareCountsExact(sets: Sets, es: seq<PrepareEvent>)
    requires WellFormed(sets) && ExactCounts(sets) && SameBit(sets) && OwnFirst(sets, es)
    ensures ExactCounts(RunPrepare(sets, es)) && SameBit(RunPrepare(sets, es))
    decreases |es|
  {
    if es != [] {
      var n := |es| - 1;
      var before := RunPrepare(sets, es[..n]);
      OwnFirstBefore(sets, es);
      PrepareCountsExact(sets, es[..n]);
      HandledExactly(before, es[n]);
    }
  }

  lemma MarkIdAnswers(sets: Sets, id: KramaID, k: nat, j: nat)
    requires WellFormed(sets) && k < |sets| && j < |InfosOf(sets[k])| && InfosOf(sets[k])[j].id == id
    ensures HasResponded(MarkId(sets, id), id)
  {
    var after := MarkId(sets, id);
    assert after[k] == MarkedId(sets[k], id);
    assert InfosOf(after[k])[j].id == id && Responded(after, k, j);
  }

  ghost predicate IsMember(sets: Sets, id: KramaID) {
    exists k, j :: 0 <= k < |sets| && 0 <= j < |InfosOf(sets[k])| && InfosOf(sets[k])[j].id == id
  }

  /** The event is an answer of this node: its own mark, or a message that was accepted. */
  ghost predicate Answers(e: PrepareEvent, id: KramaID) {
    e.sender == id && (e.Prepared? ==> e.accepted)
  }

  lemma MarkIdRespondedIff(sets: Sets, marked: KramaID, id: KramaID)
    requires WellFormed(sets)
    ensures HasResponded(MarkId(sets, marked), id) <==>
            HasResponded(sets, id) || (marked == id && IsMember(sets, id))
  {
    var after := MarkId(sets, marked);
    forall k, j | 0 <= k < |sets| && 0 <= j < |InfosOf(sets[k])|
      ensures InfosOf(after[k]) == InfosOf(sets[k])
      ensures Responded(after, k, j) <==> Responded(sets, k, j) || InfosOf(sets[k])[j].id == marked
    {
      assert after[k] == MarkedId(sets[k], marked);
    }
    assert forall k :: 0 <= k < |sets| ==> InfosOf(after[k]) == InfosOf(sets[k]);
  }

  lemma SameMembers(sets: Sets, others: Sets, id: KramaID)
    requires RosterOf(sets) == RosterOf(others)
    ensures IsMember(sets, id) <==> IsMember(others, id)
  {
    forall k | 0 <= k < |sets|
      ensures InfosOf(sets[k]) == InfosOf(others[k])
    {
      assert RosterOf(sets)[k] == RosterOf(others)[k];
    }
  }

  lemma HandledRespondedIff(sets: Sets, e: PrepareEvent, id: KramaID)
    requires WellFormed(sets)
    ensures HasResponded(HandlePrepared(sets, e), id) <==>
            HasResponded(sets, id) || (Answers(e, id) && IsMember(sets, id))
  {
    MarkIdRespondedIff(sets, e.sender, id);
  }

  ghost predicate AnsweredIn(es: seq<PrepareEvent>, id: KramaID) {
    exists i :: 0 <= i < |es| && Answers(es[i], id)
  }

  lemma AnsweredLast(es: seq<PrepareEvent>, id: KramaID)
    requires es != []
    ensures AnsweredIn(es, id) <==> AnsweredIn(es[..|es| - 1], id) || Answers(es[|es| - 1], id)
  {
    var before := es[..|es| - 1];
    if i :| 0 <= i < |before| && Answers(before[i], id) {
      assert Answers(es[i], id);
    }
    if i :| 0 <= i < |before| && Answers(es[i], id) {
      assert Answers(before[i], id);
    }
  }

  /** After any run of the prepare phase a node has responded exactly when it had before, or is a member and one of the
      events is its answer. */
  lemma {:induction false} RespondedIffAnswered(sets: Sets, es: seq<PrepareEvent>, id: KramaID)
    requires WellFormed(sets)
    ensures HasResponded(RunPrepare(sets, es), id) <==>
            HasResponded(sets, id) || (IsMember(sets, id) && AnsweredIn(es, id))
    decreases |es|
  {
    if es != [] {
      var n := |es| - 1;
      var before := RunPrepare(sets, es[..n]);
      RespondedIffAnswered(sets, es[..n], id);
      HandledRespondedIff(before, es[n], id);
      SameMembers(before, sets, id);
      AnsweredLast(es, id);
    }
  }

  /** A repeated prepared message of a committee member changes nothing, so it raises no quorum. */
  lemma RepeatedPreparedIsIgnored(sets: Sets, e: PrepareEvent, again: PrepareEvent)
    requires WellFormed(sets) && (e.Prepared? ==> e.accepted) && again.Prepared? && again.sender == e.sender
    requires exists k, j :: 0 <= k < |sets| && 0 <= j < |InfosOf(sets[k])| && InfosOf(sets[k])[j].id == e.sender
    ensures var once := HandlePrepared(sets, e); HandlePrepared(once, again) == once
  {
    var k, j :| 0 <= k < |sets| && 0 <= j < |InfosOf(sets[k])| && InfosOf(sets[k])[j].id == e.sender;
    MarkIdAnswers(sets, e.sender, k, j);
    assert HasResponded(HandlePrepared(sets, e), e.sender);
  }

  // ---------- verdicts ----------

  ghost function Answered(infos: seq<NodeInfo>, responses: seq<bool>): set<KramaID>
    requires |responses| == |infos|
  {
    set j | 0 <= j < |infos| && responses[j] :: infos[j].id
  }

  ghost function Responders(ns: NodeSet): set<KramaID>
    requires |ns.responses| == |ns.infos|
  {
    Answered(ns.infos, ns.responses)
  }

  lemma AnsweredStep(infos: seq<NodeInfo>, responses: seq<bool>)
    requires |responses| == |infos| > 0
    ensures var n := |infos| - 1;
            Answered(infos, responses)
            == Answered(infos[..n], responses[..n]) + if responses[n] then {infos[n].id} else {}
  {
    var n := |infos| - 1;
    forall x | x in Answered(infos[..n], responses[..n])
      ensures x in Answered(infos, responses)
    {
      var j :| 0 <= j < n && responses[..n][j] && infos[..n][j].id == x;
      assert responses[j] && infos[j].id == x;
    }
    forall x | x in Answered(infos, responses) && !(responses[n] && x == infos[n].id)
      ensures x in Answered(infos[..n], responses[..n])
    {
      var j :| 0 <= j <= n && responses[j] && infos[j].id == x;
      assert responses[..n][j] && infos[..n][j].id == x;
    }
  }

  lemma {:induction false} CountIsAnswered(infos: seq<NodeInfo>, responses: seq<bool>)
    requires |responses| == |infos|
    requires forall i, j :: 0 <= i < j < |infos| ==> infos[i].id != infos[j].id
    ensures CountTrue(responses) == |Answered(infos, responses)|
    decreases |infos|
  {
    if infos == [] {
      assert Answered(infos, responses) == {};
    } else {
      var n := |infos| - 1;
      var rest := Answered(infos[..n], responses[..n]);
      CountIsAnswered(infos[..n], responses[..n]);
      AnsweredStep(infos, responses);
      assert infos[n].id !in rest;
      if !responses[n] {
        assert rest + {} == rest;
      }
    }
  }

  ghost predicate ContextQuorum(sets: Sets) {
    forall k :: 0 <= k < |sets| - 1 && sets[k].Some? && sets[k].value.size > 0 ==>
      sets[k].value.respCount >= sets[k].value.size * 2 / 3 + 1
  }

  predicate IsContext(sets: Sets, k: nat)
    requires k < |sets|
  {
    k + 1 < |sets| && sets[k].Some? && sets[k].value.size > 0
  }

  lemma CountIsResponders(sets: Sets, k: nat)
    requires WellFormed(sets) && ExactCounts(sets) && UniqueIds(RosterOf(sets))
    requires k < |sets| && IsContext(sets, k) && Fits(sets[k].value.size)
    ensures sets[k].value.respCount == |Responders(sets[k].value)|
    ensures QuorumOf(sets[k].value.size) == sets[k].value.size * 2 / 3 + 1
  {
    assert RosterOf(sets)[k] == sets[k].value.infos;
    CountIsAnswered(sets[k].value.infos, sets[k].value.responses);
    QuorumsOverlap(sets[k].value.size);
  }

  /** The context check passes exactly with a quorum of distinct nodes in every context that is present. */
  lemma ContextQuorumIsHeadCount(sets: Sets)
    requires WellFormed(sets) && ExactCounts(sets) && UniqueIds(RosterOf(sets))
    requires forall k :: 0 <= k < |sets| && IsContext(sets, k) ==> Fits(sets[k].value.size)
    ensures ContextQuorum(sets) <==>
            forall k :: 0 <= k < |sets| && IsContext(sets, k) ==>
              |Responders(sets[k].value)| >= QuorumOf(sets[k].value.size)
  {
    forall k | 0 <= k < |sets| && IsContext(sets, k)
      ensures sets[k].value.respCount == |Responders(sets[k].value)|
      ensures QuorumOf(sets[k].value.size) == sets[k].value.size * 2 / 3 + 1
    {
      CountIsResponders(sets, k);
    }
  }

  ghost predicate Copied(indices: seq<int>, done: seq<nat>) {
    |done| <= |indices| && forall j :: 0 <= j < |done| ==> done[j] == indices[j]
  }

  lemma CopiedStep(indices: seq<int>, done: seq<nat>)
    requires Copied(indices, done) && |done| < |indices| && indices[|done|] >= 0
    ensures Copied(indices, done + [indices[|done|]])
  {
  }

  /** The valid indices before the first invalid one were marked, and nothing else. */
  ghost predicate StoppedAfter(before: Sets, after: Sets, indices: seq<int>, done: seq<nat>) {
    && WellFormed(before) && Copied(indices, done) && |done| < |indices|
    && !(0 <= indices[|done|] < Total(RosterOf(before)))
    && Below(done, Total(RosterOf(before))) && after == MarkEach(before, done)
  }

  /** The loop of UpdateValidatorResponse, on the node sets. */
  method MarkAll(sets: Sets, total: nat, indices: seq<int>) returns (marked: Sets, keys: Result<seq<Key>>)
    requires WellFormed(sets) && total == Total(RosterOf(sets))
    ensures WellFormed(marked) && RosterOf(marked) == RosterOf(sets)
    ensures keys.Ok? <==> forall i :: 0 <= i < |indices| ==> 0 <= indices[i] < total
    ensures keys.Ok? ==>
              && Below(indices, total) && marked == MarkEach(sets, indices)
              && keys.value == KeysAt(RosterOf(sets), indices)
    ensures keys.Err? ==> exists done :: StoppedAfter(sets, marked, indices, done)
  {
    var found: seq<Key> := [];
    marked := sets;
    ghost var done: seq<nat> := [];
    for i := 0 to |indices|
      invariant |done| == i && Copied(indices, done) && Marking(sets, done, marked, found)
    {
      if indices[i] < 0 || indices[i] >= total {
        assert StoppedAfter(sets, marked, indices, done);
        return marked, Err(InvalidValidator);
      }
      MarkingStep(sets, done, marked, found, indices[i]);
      CopiedStep(indices, done);
      var key;
      marked, key := MarkOne(marked, indices[i]);
      done, found := done + [indices[i]], found + [key];
    }
    assert done == indices;
    return marked, Ok(found);
  }

  // ---------- the committee in memory ----------

  /** What a lookup by index finds. */
  datatype Found = Found(slots: seq<nat>, slotIndex: nat, info: NodeInfo)

  class ICSCommittee {
    var sets: Sets
    var totalNodes: nat

    ghost predicate Valid()
      reads this
    {
      WellFormed(sets) && totalNodes == Total(RosterOf(sets))
    }

    constructor (size: nat)
      requires size > 0
      ensures Valid() && sets == seq(size, _ => None) && totalNodes == 0
    {
      sets := seq(size, _ => None);
      totalNodes := 0;
      new;
      EmptyTotal(RosterOf(sets), size);
    }

    /** The node total stays right exactly when a position is filled for the first time. */
    method UpdateNodeSet(position: nat, infos: seq<NodeInfo>, required: nat)
      requires Valid() && position < |sets|
      modifies this
      ensures sets == old(sets)[position := Some(NewNodeSet(infos, required))]
      ensures Valid() <==> InfosOf(old(sets)[position]) == []
    {
      TotalReplace(RosterOf(sets), position, infos);
      sets := sets[position := Some(NewNodeSet(infos, required))];
      assert RosterOf(sets) == RosterOf(old(sets))[position := infos];
      totalNodes := totalNodes + |infos|;
    }

    method GetKramaID(index: int) returns (found: Option<Found>)
      requires Valid()
      ensures found.Some? <==> 0 <= index < Total(RosterOf(sets))
      ensures found.Some? ==>
                var r := RosterOf(sets);
                found.value == Found(Slots(r, index), Locate(r, index).pos, At(r, index))
    {
      if index < 0 || index >= totalNodes {
        return None;
      }
      ghost var r := RosterOf(sets);
      var rest: nat := index;
      for v := 0 to |sets|
        invariant Offset(r, v) + rest == index && LocateFrom(r, v, rest) == Locate(r, index)
      {
        var infos := InfosOf(sets[v]);
        assert infos == r[v];
        if rest < |infos| {
          var later := LaterSlots(sets, v + 1, infos[rest].id);
          return Some(Found([v] + later, rest, infos[rest]));
        }
        rest := rest - |infos|;
      }
      assert false;
    }

    /** The index a node votes with, its key, and whether that place has responded; -1 for a stranger. */
    method HasKramaID(id: KramaID) returns (index: int, key: Key, responded: bool)
      requires Valid()
      ensures index == -1 <==> forall k :: 0 <= k < |sets| ==> !Holds(InfosOf(sets[k]), id)
      ensures index == -1 || 0 <= index < Total(RosterOf(sets))
      ensures index >= 0 ==>
                var r := RosterOf(sets);
                && Canonical(r, index) && At(r, index) == NodeInfo(id, key) && responded == VoteBits(sets)[index]
    {
      var p := FindNode(sets, id);
      if p.None? {
        return -1, 0, false;
      }
      FirstAtIsCanonical(sets, id, p.value);
      var offset := SumSizes(sets, p.value.set_);
      index := offset + p.value.pos;
      var ns := sets[p.value.set_].value;
      return index, ns.infos[p.value.pos].key, ns.responses[p.value.pos];
    }

    /** Marks the given validators one by one and returns their keys; an invalid index stops it half way. */
    method UpdateValidatorResponse(indices: seq<int>) returns (keys: Result<seq<Key>>)
      requires Valid()
      modifies this`sets
      ensures Valid() && RosterOf(sets) == old(RosterOf(sets))
      ensures keys.Ok? <==> forall i :: 0 <= i < |indices| ==> 0 <= indices[i] < Total(RosterOf(sets))
      ensures keys.Ok? ==> Below(indices, Total(RosterOf(sets)))
                           && sets == MarkEach(old(sets), indices) && keys.value == KeysAt(RosterOf(sets), indices)
      ensures keys.Err? ==> exists done :: StoppedAfter(old(sets), sets, indices, done)
    {
      var marked;
      marked, keys := MarkAll(sets, totalNodes, indices);
      sets := marked;
    }

    method GetVoteset() returns (bits: seq<bool>)
      requires Valid()
      ensures bits == VoteBits(sets)
    {
      ghost var r := RosterOf(sets);
      bits := [];
      for k := 0 to |sets|
        invariant |bits| == Offset(r, k)
        invariant forall p :: InRoster(r, p) && p.set_ < k ==>
                    Offset(r, p.set_) + p.pos < |bits| && bits[Offset(r, p.set_) + p.pos] == Bit(sets, p)
      {
        if sets[k].Some? {
          ghost var before := bits;
          bits := bits + sets[k].value.responses;
          forall p | InRoster(r, p) && p.set_ < k + 1
            ensures Offset(r, p.set_) + p.pos < |bits| && bits[Offset(r, p.set_) + p.pos] == Bit(sets, p)
          {
            if p.set_ < k {
              assert bits[Offset(r, p.set_) + p.pos] == before[Offset(r, p.set_) + p.pos];
            }
          }
        }
      }
    }

    /** A prepared message is counted once per node, however often it arrives. */
    method RecordPrepared(sender: KramaID, accepted: bool)
      requires Valid() && ExactCounts(sets) && SameBit(sets)
      modifies this`sets
      ensures Valid() && ExactCounts(sets) && SameBit(sets)
      ensures sets == HandlePrepared(old(sets), Prepared(sender, accepted))
    {
      var index, key, responded := HasKramaID(sender);
      FirstAnswerDecides(sets, sender, index, responded);
      if responded || index == -1 || !accepted {
        return;
      }
      MarkIdExactIff(sets, sender);
      MarkIdSameBit(sets, sender);
      sets := MarkEverywhere(sets, sender);
    }

    method IsContextQuorum() returns (ok: bool)
      requires Valid()
      ensures ok <==> ContextQuorum(sets)
    {
      for j := 0 to |sets| - 1
        invariant forall k :: 0 <= k < j && sets[k].Some? && sets[k].value.size > 0 ==>
                    sets[k].value.respCount >= sets[k].value.size * 2 / 3 + 1
      {
        if sets[j].Some? {
          var size := sets[j].value.size;
          if size > 0 && sets[j].value.respCount < size * 2 / 3 + 1 {
            return false;
          }
        }
      }
      return true;
    }
  }

  /** The answer at a node's first place is the answer of the node; a stranger has none. */
  lemma FirstAnswerDecides(sets: Sets, id: KramaID, index: int, responded: bool)
    requires WellFormed(sets) && SameBit(sets)
    requires index == -1 <==> forall k :: 0 <= k < |sets| ==> !Holds(InfosOf(sets[k]), id)
    requires index == -1 || 0 <= index < Total(RosterOf(sets))
    requires index >= 0 ==> At(RosterOf(sets), index).id == id && responded == VoteBits(sets)[index]
    ensures index >= 0 ==> (responded <==> HasResponded(sets, id))
    ensures index == -1 ==> !HasResponded(sets, id) && MarkId(sets, id) == sets
  {
    if index >= 0 {
      var p := Locate(RosterOf(sets), index);
      assert InfosOf(sets[p.set_])[p.pos].id == id;
      assert responded == Responded(sets, p.set_, p.pos);
    } else {
      forall k | 0 <= k < |sets|
        ensures MarkedId(sets[k], id) == sets[k]
      {
        assert !Holds(InfosOf(sets[k]), id);
        if sets[k].Some? {
          NoOccurrence(sets[k].value.infos, id);
          assert MarkedId(sets[k], id).value.responses == sets[k].value.responses;
        }
      }
    }
  }

  lemma {:induction false} NoOccurrence(infos: seq<NodeInfo>, id: KramaID)
    requires !Holds(infos, id)
    ensures Occurrences(infos, id) == 0
    decreases |infos|
  {
    if infos != [] {
      var n := |infos| - 1;
      assert infos[n].id != id;
      assert forall j :: 0 <= j < n ==> infos[..n][j] == infos[j];
      NoOccurrence(infos[..n], id);
    }
  }

  /** Where marking a list of validators has come to. */
  ghost predicate Marking(sets: Sets, done: seq<nat>, marked: Sets, keys: seq<Key>) {
    && WellFormed(sets)
    && Below(done, Total(RosterOf(sets)))
    && marked == MarkEach(sets, done)
    && keys == KeysAt(RosterOf(sets), done)
  }

  lemma KeysAtSnoc(r: Roster, done: seq<nat>, index: nat)
    requires Below(done, Total(r)) && index < Total(r)
    ensures Below(done + [index], Total(r)) && KeysAt(r, done + [index]) == KeysAt(r, done) + [At(r, index).key]
  {
  }

  lemma MarkingStep(sets: Sets, done: seq<nat>, marked: Sets, keys: seq<Key>, index: nat)
    requires Marking(sets, done, marked, keys) && index < Total(RosterOf(sets))
    ensures var r := RosterOf(sets);
            && WellFormed(marked) && RosterOf(marked) == r
            && Marking(sets, done + [index], MarkAt(marked, Locate(r, index)), keys + [At(r, index).key])
  {
    KeysAtSnoc(RosterOf(sets), done, index);
    MarkEachSnoc(sets, done, index);
  }

  method MarkOne(marked: Sets, index: nat) returns (marked': Sets, key: Key)
    requires WellFormed(marked) && index < Total(RosterOf(marked))
    ensures var r := RosterOf(marked); marked' == MarkAt(marked, Locate(r, index)) && key == At(r, index).key
  {
    var p := FindPlace(marked, index);
    marked' := MarkAt(marked, p);
    key := InfosOf(marked[p.set_])[p.pos].key;
  }

  /** Nobody before place `p` is node `id`, and `p` is. */
  ghost predicate FirstAt(sets: Sets, id: KramaID, p: Place) {
    && p.set_ < |sets| && p.pos < |InfosOf(sets[p.set_])| && InfosOf(sets[p.set_])[p.pos].id == id
    && (forall k :: 0 <= k < p.set_ ==> !Holds(InfosOf(sets[k]), id))
    && (forall j :: 0 <= j < p.pos ==> InfosOf(sets[p.set_])[j].id != id)
  }

  lemma FirstAtIsCanonical(sets: Sets, id: KramaID, p: Place)
    requires FirstAt(sets, id, p)
    ensures var r := RosterOf(sets);
            var i := Offset(r, p.set_) + p.pos;
            i < Total(r) && Locate(r, i) == p && Canonical(r, i) && At(r, i).id == id
  {
    var r := RosterOf(sets);
    forall k | 0 <= k < p.set_
      ensures !Holds(r[k], id)
    {
      assert r[k] == InfosOf(sets[k]);
    }
    FirstHolder(r, id, p);
  }

  method FindNode(sets: Sets, id: KramaID) returns (p: Option<Place>)
    ensures p.None? <==> forall k :: 0 <= k < |sets| ==> !Holds(InfosOf(sets[k]), id)
    ensures p.Some? ==> FirstAt(sets, id, p.value)
  {
    for k := 0 to |sets|
      invariant forall l :: 0 <= l < k ==> !Holds(InfosOf(sets[l]), id)
    {
      var infos := InfosOf(sets[k]);
      var j := FindId(infos, id);
      if j < |infos| {
        assert Holds(infos, id);
        return Some(Place(k, j));
      }
      assert !Holds(infos, id);
    }
    return None;
  }

  method SumSizes(sets: Sets, k: nat) returns (offset: nat)
    requires k <= |sets|
    ensures offset == Offset(RosterOf(sets), k)
  {
    offset := 0;
    for l := 0 to k
      invariant offset == Offset(RosterOf(sets), l)
    {
      offset := offset + |InfosOf(sets[l])|;
    }
  }

  method MarkEverywhere(sets: Sets, id: KramaID) returns (marked: Sets)
    requires WellFormed(sets)
    ensures marked == MarkId(sets, id)
  {
    marked := [];
    for k := 0 to |sets|
      invariant |marked| == k
      invariant forall l :: 0 <= l < k ==> marked[l] == MarkedId(sets[l], id)
    {
      var ns := MarkInSet(sets[k], id);
      marked := marked + [ns];
    }
  }

  method MarkInSet(o: Option<NodeSet>, id: KramaID) returns (r: Option<NodeSet>)
    requires o.Some? ==> |o.value.responses| == |o.value.infos|
    ensures r == MarkedId(o, id)
  {
    if o.None? {
      return None;
    }
    var ns := o.value;
    var responses, count := ns.responses, ns.respCount;
    for j := 0 to |ns.infos|
      invariant |responses| == |ns.infos|
      invariant forall i :: 0 <= i < j ==> responses[i] == (ns.responses[i] || ns.infos[i].id == id)
      invariant forall i :: j <= i < |responses| ==> responses[i] == ns.responses[i]
      invariant count == ns.respCount + Occurrences(ns.infos[..j], id)
    {
      assert ns.infos[..j + 1][..j] == ns.infos[..j];
      if ns.infos[j].id == id {
        responses := responses[j := true];
        count := count + 1;
      }
    }
    assert ns.infos[..|ns.infos|] == ns.infos;
    r := Some(ns.(responses := responses, respCount := count));
    assert r.value.responses == MarkedId(o, id).value.responses;
  }

  method FindPlace(sets: Sets, index: nat) returns (p: Place)
    requires WellFormed(sets) && index < Total(RosterOf(sets))
    ensures p == Locate(RosterOf(sets), index)
  {
    ghost var r := RosterOf(sets);
    var rest: nat := index;
    for v := 0 to |sets|
      invariant Offset(r, v) + rest == index && LocateFrom(r, v, rest) == Locate(r, index)
    {
      var infos := InfosOf(sets[v]);
      assert infos == r[v];
      if rest < |infos| {
        return Place(v, rest);
      }
      rest := rest - |infos|;
    }
    assert false;
  }

  lemma {:induction false} EmptyTotal(r: Roster, k: nat)
    requires k <= |r| && forall i :: 0 <= i < |r| ==> r[i] == []
    ensures Offset(r, k) == 0
    decreases k
  {
    if k > 0 {
      EmptyTotal(r, k - 1);
    }
  }

  lemma {:induction false} OffsetReplace(r: Roster, position: nat, infos: seq<NodeInfo>, k: nat)
    requires position < |r| && k <= |r|
    ensures Offset(r[position := infos], k) == Offset(r, k) + if position < k then |infos| - |r[position]| else 0
    decreases k
  {
    if k > 0 {
      OffsetReplace(r, position, infos, k - 1);
    }
  }

  lemma TotalReplace(r: Roster, position: nat, infos: seq<NodeInfo>)
    requires position < |r|
    ensures Total(r[position := infos]) == Total(r) + |infos| - |r[position]|
  {
    OffsetReplace(r, position, infos, |r|);
  }

  lemma {:induction false} FirstHolder(r: Roster, id: KramaID, p: Place)
    requires InRoster(r, p) && r[p.set_][p.pos].id == id
    requires forall k :: 0 <= k < p.set_ ==> !Holds(r[k], id)
    requires forall j :: 0 <= j < p.pos ==> r[p.set_][j].id != id
    ensures var i := Offset(r, p.set_) + p.pos;
            i < Total(r) && Locate(r, i) == p && Canonical(r, i)
  {
    LocateUnique(r, p);
    var i := Offset(r, p.set_) + p.pos;
    forall i' | 0 <= i' < i
      ensures At(r, i').id != id
    {
      var q := Locate(r, i');
      if q.set_ > p.set_ {
        OffsetMonotone(r, p.set_, q.set_);
      } else if q.set_ < p.set_ {
        assert !Holds(r[q.set_], id);
      }
    }
  }

  method FindId(infos: seq<NodeInfo>, id: KramaID) returns (j: nat)
    ensures j <= |infos| && (j < |infos| ==> infos[j].id == id)
    ensures forall i :: 0 <= i < j ==> infos[i].id != id
  {
    j := 0;
    while j < |infos| && infos[j].id != id
      invariant j <= |infos| && forall i :: 0 <= i < j ==> infos[i].id != id
    {
      j := j + 1;
    }
  }

  method CountId(infos: seq<NodeInfo>, id: KramaID) returns (times: nat)
    ensures times == Occurrences(infos, id)
  {
    times := 0;
    for i := 0 to |infos|
      invariant times == Occurrences(infos[..i], id)
    {
      assert infos[..i + 1][..i] == infos[..i];
      if infos[i].id == id {
        times := times + 1;
      }
    }
    assert infos[..|infos|] == infos;
  }

  /** The later contexts that hold `id`, once per occurrence. */
  method LaterSlots(sets: Sets, start: nat, id: KramaID) returns (slots: seq<nat>)
    ensures slots == Later(RosterOf(sets), start, id)
  {
    ghost var r := RosterOf(sets);
    slots := [];
    var j := start;
    while j + 1 < |sets|
      invariant start <= j
      invariant slots + Later(r, j, id) == Later(r, start, id)
    {
      var times := CountId(InfosOf(sets[j]), id);
      assert Later(r, j, id) == Repeat(j, times) + Later(r, j + 1, id);
      assert slots + Later(r, j, id) == (slots + Repeat(j, times)) + Later(r, j + 1, id);
      slots := slots + Repeat(j, times);
      j := j + 1;
    }
  }
}
