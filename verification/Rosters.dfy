/** The flat validator index: the node sets of a committee concatenated in order. */
module Rosters {
  import opened Types

  datatype NodeInfo = NodeInfo(id: KramaID, key: Key)

  // One list per committee position, the random set last; an absent set holds nobody.
  type Roster = seq<seq<NodeInfo>>

  // ---------- flat positions ----------

  function Offset(r: Roster, k: nat): nat
    requires k <= |r|
  {
    if k == 0 then 0 else Offset(r, k - 1) + |r[k - 1]|
  }

  function Total(r: Roster): nat {
    Offset(r, |r|)
  }

  lemma {:induction false} OffsetMonotone(r: Roster, k: nat, l: nat)
    requires k <= l <= |r|
    ensures Offset(r, k) <= Offset(r, l)
    ensures k < l ==> Offset(r, k) + |r[k]| <= Offset(r, l)
    decreases l
  {
    if k < l {
      OffsetMonotone(r, k, l - 1);
    }
  }

  datatype Place = Place(set_: nat, pos: nat)

  ghost predicate InRoster(r: Roster, p: Place) {
    p.set_ < |r| && p.pos < |r[p.set_]|
  }

  /** The place of a flat index, counted from set `k` on. */
  function LocateFrom(r: Roster, k: nat, index: nat): (p: Place)
    requires k <= |r| && Offset(r, k) + index < Total(r)
    ensures InRoster(r, p) && p.set_ >= k
    ensures Offset(r, p.set_) + p.pos == Offset(r, k) + index
    decreases |r| - k
  {
    if index < |r[k]| then Place(k, index) else LocateFrom(r, k + 1, index - |r[k]|)
  }

  function Locate(r: Roster, index: nat): (p: Place)
    requires index < Total(r)
    ensures InRoster(r, p) && Offset(r, p.set_) + p.pos == index
  {
    LocateFrom(r, 0, index)
  }

  function At(r: Roster, index: nat): NodeInfo
    requires index < Total(r)
  {
    var p := Locate(r, index);
    r[p.set_][p.pos]
  }

  /** A flat index names one place and a place has one flat index. */
  lemma {:induction false} LocateUnique(r: Roster, p: Place)
    requires InRoster(r, p)
    ensures Offset(r, p.set_) + p.pos < Total(r)
    ensures Locate(r, Offset(r, p.set_) + p.pos) == p
  {
    OffsetMonotone(r, p.set_, |r|);
    var q := Locate(r, Offset(r, p.set_) + p.pos);
    if q.set_ < p.set_ {
      OffsetMonotone(r, q.set_, p.set_);
    } else if p.set_ < q.set_ {
      OffsetMonotone(r, p.set_, q.set_);
    }
  }

  // ---------- slots of a validator ----------

  function Occurrences(infos: seq<NodeInfo>, id: KramaID): nat {
    if infos == [] then 0
    else Occurrences(infos[..|infos| - 1], id) + if infos[|infos| - 1].id == id then 1 else 0
  }

  function Repeat(k: nat, times: nat): (s: seq<nat>)
    ensures |s| == times && forall i :: 0 <= i < times ==> s[i] == k
  {
    seq(times, _ => k)
  }

  /** The context positions from `j` on that hold `id`; the last position, the random set, is never listed. */
  function Later(r: Roster, j: nat, id: KramaID): seq<nat>
    decreases |r| - j
  {
    if j + 1 >= |r| then [] else Repeat(j, Occurrences(r[j], id)) + Later(r, j + 1, id)
  }

  /** The committee positions a vote of validator `index` counts for. */
  function Slots(r: Roster, index: nat): seq<nat>
    requires index < Total(r)
  {
    [Locate(r, index).set_] + Later(r, Locate(r, index).set_ + 1, At(r, index).id)
  }

  function Weight(r: Roster, index: nat, k: nat): nat
    requires index < Total(r)
  {
    multiset(Slots(r, index))[k]
  }

  lemma {:induction false} RepeatCount(k: nat, times: nat, l: nat)
    ensures multiset(Repeat(k, times))[l] == if k == l then times else 0
    decreases times
  {
    if times > 0 {
      RepeatCount(k, times - 1, l);
      assert Repeat(k, times) == Repeat(k, times - 1) + [k];
    }
  }

  lemma {:induction false} LaterCount(r: Roster, j: nat, id: KramaID, k: nat)
    ensures multiset(Later(r, j, id))[k] == if j <= k && k + 1 < |r| then Occurrences(r[k], id) else 0
    decreases |r| - j
  {
    if j + 1 < |r| {
      LaterCount(r, j + 1, id, k);
      RepeatCount(j, Occurrences(r[j], id), k);
    }
  }

  lemma CountWithHead(head: nat, rest: seq<nat>, k: nat)
    ensures multiset([head] + rest)[k] == multiset(rest)[k] + if k == head then 1 else 0
  {
    assert multiset([head] + rest) == multiset([head]) + multiset(rest);
  }

  lemma WeightParts(r: Roster, index: nat, k: nat, v: nat, id: KramaID)
    requires index < Total(r) && v == Locate(r, index).set_ && id == At(r, index).id
    ensures Weight(r, index, k) == multiset(Later(r, v + 1, id))[k] + if k == v then 1 else 0
  {
    CountWithHead(v, Later(r, v + 1, id), k);
    assert Slots(r, index) == [v] + Later(r, v + 1, id);
  }

  /** What one vote adds at position `k`, without the list of slots. */
  lemma WeightIs(r: Roster, index: nat, k: nat)
    requires index < Total(r)
    ensures var v := Locate(r, index).set_;
            Weight(r, index, k) ==
            if k == v then 1
            else if v < k && k + 1 < |r| then Occurrences(r[k], At(r, index).id)
            else 0
  {
    var v, id := Locate(r, index).set_, At(r, index).id;
    WeightParts(r, index, k, v, id);
    LaterCount(r, v + 1, id, k);
  }

  lemma SlotsInRange(r: Roster, index: nat)
    requires index < Total(r)
    ensures forall i :: 0 <= i < |Slots(r, index)| ==> Slots(r, index)[i] < |r|
  {
    var slots := Slots(r, index);
    forall i | 0 <= i < |slots|
      ensures slots[i] < |r|
    {
      assert slots[i] in multiset(slots);
      WeightIs(r, index, slots[i]);
    }
  }

  // ---------- tallies ----------

  /** The recount of a bit array at position `k`. */
  function Tally(r: Roster, bits: seq<bool>, k: nat): nat
    requires |bits| <= Total(r)
  {
    if bits == [] then 0
    else
      var n := |bits| - 1;
      Tally(r, bits[..n], k) + if bits[n] then Weight(r, n, k) else 0
  }

  lemma {:induction false} TallyLast(r: Roster, bits: seq<bool>, k: nat)
    requires 0 < |bits| <= Total(r)
    ensures var n := |bits| - 1; Tally(r, bits, k) == Tally(r, bits[..n], k) + if bits[n] then Weight(r, n, k) else 0
  {
  }

  lemma {:induction false} TallySet(r: Roster, bits: seq<bool>, i: nat, k: nat)
    requires |bits| <= Total(r) && i < |bits| && !bits[i]
    ensures Tally(r, bits[i := true], k) == Tally(r, bits, k) + Weight(r, i, k)
    decreases |bits|
  {
    var n, after := |bits| - 1, bits[i := true];
    TallyLast(r, bits, k);
    TallyLast(r, after, k);
    if i == n {
      assert after[..n] == bits[..n];
      assert after[n];
    } else {
      TallySet(r, bits[..n], i, k);
      assert after[..n] == bits[..n][i := true];
      assert after[n] == bits[n];
    }
  }

  lemma {:induction false} TallyNone(r: Roster, bits: seq<bool>, k: nat)
    requires |bits| <= Total(r) && forall i :: 0 <= i < |bits| ==> !bits[i]
    ensures Tally(r, bits, k) == 0
    decreases |bits|
  {
    if bits != [] {
      TallyNone(r, bits[..|bits| - 1], k);
    }
  }

  lemma {:induction false} TallyMonotone(r: Roster, a: seq<bool>, b: seq<bool>, k: nat)
    requires |a| == |b| <= Total(r) && forall i :: 0 <= i < |a| && a[i] ==> b[i]
    ensures Tally(r, a, k) <= Tally(r, b, k)
    decreases |a|
  {
    if a != [] {
      TallyMonotone(r, a[..|a| - 1], b[..|b| - 1], k);
    }
  }

  predicate Meets(r: Roster, quorum: seq<nat>, bits: seq<bool>)
    requires |bits| <= Total(r) && |quorum| == |r|
  {
    forall k :: 0 <= k < |r| ==> Tally(r, bits, k) >= quorum[k]
  }

  // ---------- who is counted ----------

  ghost predicate Holds(infos: seq<NodeInfo>, id: KramaID) {
    exists j :: 0 <= j < |infos| && infos[j].id == id
  }

  function Ids(infos: seq<NodeInfo>): set<KramaID> {
    set info | info in infos :: info.id
  }

  lemma IdsHolds(infos: seq<NodeInfo>, id: KramaID)
    ensures id in Ids(infos) <==> Holds(infos, id)
  {
    if Holds(infos, id) {
      var j :| 0 <= j < |infos| && infos[j].id == id;
      assert infos[j] in infos;
    }
  }

  /** Nobody is listed twice in one set. */
  ghost predicate UniqueIds(r: Roster) {
    forall k, i, j :: 0 <= k < |r| && 0 <= i < j < |r[k]| ==> r[k][i].id != r[k][j].id
  }

  /** The random set is drawn from outside the contexts. */
  ghost predicate RandomApart(r: Roster) {
    r != [] && forall k, id :: 0 <= k < |r| - 1 && Holds(r[k], id) ==> !Holds(r[|r| - 1], id)
  }

  ghost predicate Proper(r: Roster) {
    UniqueIds(r) && RandomApart(r)
  }

  /** The index a node votes with: its first one. */
  ghost predicate Canonical(r: Roster, index: nat)
    requires index < Total(r)
  {
    forall i :: 0 <= i < index ==> At(r, i).id != At(r, index).id
  }

  lemma {:induction false} OccurrencesUnique(infos: seq<NodeInfo>, id: KramaID)
    requires forall i, j :: 0 <= i < j < |infos| ==> infos[i].id != infos[j].id
    ensures Occurrences(infos, id) == if Holds(infos, id) then 1 else 0
    decreases |infos|
  {
    if infos != [] {
      var n := |infos| - 1;
      OccurrencesUnique(infos[..n], id);
      if infos[n].id == id {
        assert !Holds(infos[..n], id);
      } else {
        assert Holds(infos, id) ==> Holds(infos[..n], id);
      }
    }
  }

  /** A set before the canonical index does not hold its node. */
  lemma CanonicalIsFirst(r: Roster, index: nat, k: nat)
    requires index < Total(r) && Canonical(r, index) && k < Locate(r, index).set_
    ensures !Holds(r[k], At(r, index).id)
  {
    forall j | 0 <= j < |r[k]|
      ensures r[k][j].id != At(r, index).id
    {
      LocateUnique(r, Place(k, j));
      OffsetMonotone(r, k, Locate(r, index).set_);
      assert At(r, Offset(r, k) + j) == r[k][j];
    }
  }

  /** A canonical vote counts once at every position that holds the node, and nowhere else. */
  lemma CanonicalWeight(r: Roster, index: nat, k: nat)
    requires Proper(r) && index < Total(r) && Canonical(r, index) && k < |r|
    ensures Weight(r, index, k) == if Holds(r[k], At(r, index).id) then 1 else 0
  {
    var p := Locate(r, index);
    var id := At(r, index).id;
    WeightIs(r, index, k);
    assert Holds(r[p.set_], id);
    if k < p.set_ {
      CanonicalIsFirst(r, index, k);
    } else if p.set_ < k {
      OccurrencesUnique(r[k], id);
    }
  }

  ghost predicate AllCanonical(r: Roster, bits: seq<bool>)
    requires |bits| <= Total(r)
  {
    forall i :: 0 <= i < |bits| && bits[i] ==> Canonical(r, i)
  }

  ghost function SignerIds(r: Roster, bits: seq<bool>): set<KramaID>
    requires |bits| <= Total(r)
  {
    set i | 0 <= i < |bits| && bits[i] :: At(r, i).id
  }

  lemma SignerIdsStep(r: Roster, bits: seq<bool>)
    requires 0 < |bits| <= Total(r)
    ensures var n := |bits| - 1;
            SignerIds(r, bits) == SignerIds(r, bits[..n]) + if bits[n] then {At(r, n).id} else {}
  {
    var n := |bits| - 1;
    forall x | x in SignerIds(r, bits[..n])
      ensures x in SignerIds(r, bits)
    {
      var i :| 0 <= i < n && bits[..n][i] && At(r, i).id == x;
      assert bits[i];
    }
    forall x | x in SignerIds(r, bits) && !(bits[n] && x == At(r, n).id)
      ensures x in SignerIds(r, bits[..n])
    {
      var i :| 0 <= i <= n && bits[i] && At(r, i).id == x;
      assert bits[..n][i];
    }
  }

  lemma CardinalityStep(s: set<KramaID>, t: set<KramaID>, id: KramaID)
    requires id !in s
    ensures |(s + {id}) * t| == |s * t| + if id in t then 1 else 0
  {
    assert (s + {id}) * t == (s * t) + if id in t then {id} else {};
  }

  /** Votes with canonical indices are a head count: every position counts its distinct signers. */
  lemma {:induction false} TallyIsHeadCount(r: Roster, bits: seq<bool>, k: nat)
    requires Proper(r) && |bits| <= Total(r) && k < |r| && AllCanonical(r, bits)
    ensures Tally(r, bits, k) == |SignerIds(r, bits) * Ids(r[k])|
    decreases |bits|
  {
    if bits == [] {
      assert SignerIds(r, bits) * Ids(r[k]) == {};
    } else {
      var n := |bits| - 1;
      var rest := SignerIds(r, bits[..n]);
      TallyIsHeadCount(r, bits[..n], k);
      SignerIdsStep(r, bits);
      if bits[n] {
        assert Canonical(r, n);
        CanonicalWeight(r, n, k);
        IdsHolds(r[k], At(r, n).id);
        CardinalityStep(rest, Ids(r[k]), At(r, n).id);
      } else {
        assert rest + {} == rest;
      }
    }
  }

  // ---------- exactness of the head count ----------

  ghost function OfNode(r: Roster, bits: seq<bool>, id: KramaID): seq<bool>
    requires |bits| <= Total(r)
  {
    seq(|bits|, i requires 0 <= i < |bits| => bits[i] && At(r, i).id == id)
  }

  lemma {:induction false} TallyZero(r: Roster, bits: seq<bool>, k: nat)
    requires |bits| <= Total(r) && forall i :: 0 <= i < |bits| && bits[i] ==> Weight(r, i, k) == 0
    ensures Tally(r, bits, k) == 0
    decreases |bits|
  {
    if bits != [] {
      TallyZero(r, bits[..|bits| - 1], k);
    }
  }

  function NoBits(n: nat): (bits: seq<bool>)
    ensures |bits| == n && forall i :: 0 <= i < n ==> !bits[i]
  {
    seq(n, _ => false)
  }

  lemma {:induction false} TallyPair(r: Roster, bits: seq<bool>, i: nat, j: nat, k: nat)
    requires |bits| <= Total(r) && i < j < |bits| && bits[i] && bits[j]
    ensures Tally(r, bits, k) >= Weight(r, i, k) + Weight(r, j, k)
  {
    var none := NoBits(|bits|);
    var one := none[i := true];
    TallySet(r, none, i, k);
    TallySet(r, one, j, k);
    TallyMonotone(r, one[j := true], bits, k);
  }

  lemma {:induction false} FirstIndexOf(r: Roster, i: nat) returns (c: nat)
    requires i < Total(r)
    ensures c <= i && At(r, c).id == At(r, i).id && Canonical(r, c)
    decreases i
  {
    if Canonical(r, i) {
      c := i;
    } else {
      var j :| 0 <= j < i && At(r, j).id == At(r, i).id;
      c := FirstIndexOf(r, j);
    }
  }

  ghost predicate CountedOnce(r: Roster, bits: seq<bool>, id: KramaID)
    requires |bits| <= Total(r)
  {
    forall k :: 0 <= k < |r| ==> Tally(r, OfNode(r, bits, id), k) == if Holds(r[k], id) then 1 else 0
  }

  lemma CanonicalCountsOnce(r: Roster, bits: seq<bool>, id: KramaID)
    requires Proper(r) && |bits| <= Total(r) && AllCanonical(r, bits) && id in SignerIds(r, bits)
    ensures CountedOnce(r, bits, id)
  {
    var own := OfNode(r, bits, id);
    var w :| 0 <= w < |bits| && bits[w] && At(r, w).id == id;
    assert own[w];
    assert SignerIds(r, own) == {id};
    forall k | 0 <= k < |r|
      ensures Tally(r, own, k) == if Holds(r[k], id) then 1 else 0
    {
      TallyIsHeadCount(r, own, k);
      IdsHolds(r[k], id);
      assert {id} * Ids(r[k]) == if id in Ids(r[k]) then {id} else {};
    }
  }

  /** Next to the node's first index, a second one counts twice at its own position. */
  lemma {:induction false} StrayCountsTwice(r: Roster, own: seq<bool>, c: nat, i: nat)
    requires Proper(r) && |own| <= Total(r) && c < i < |own| && own[c] && own[i]
    requires At(r, c).id == At(r, i).id && Locate(r, c).set_ <= Locate(r, i).set_
    ensures Tally(r, own, Locate(r, i).set_) >= 2
  {
    var k := Locate(r, i).set_;
    assert Holds(r[k], At(r, i).id);
    WeightIs(r, c, k);
    WeightIs(r, i, k);
    OccurrencesUnique(r[k], At(r, i).id);
    assert k + 1 == |r| && Locate(r, c).set_ < k ==> Holds(r[Locate(r, c).set_], At(r, i).id);
    TallyPair(r, own, c, i, k);
  }

  /** Without the node's first index, the others count nothing at its first position. */
  lemma {:induction false} StrayCountsNothing(r: Roster, own: seq<bool>, c: nat)
    requires |own| <= Total(r) && c < |own| && !own[c] && Canonical(r, c) && UniqueIds(r)
    requires forall j :: 0 <= j < |own| && own[j] ==> At(r, j).id == At(r, c).id
    ensures Tally(r, own, Locate(r, c).set_) == 0
  {
    var k := Locate(r, c).set_;
    forall j | 0 <= j < |own| && own[j]
      ensures Weight(r, j, k) == 0
    {
      var pj := Locate(r, j);
      WeightIs(r, j, k);
      assert r[pj.set_][pj.pos].id == At(r, c).id;
      if pj.set_ < k {
        CanonicalIsFirst(r, c, pj.set_);
      }
    }
    TallyZero(r, own, k);
  }

  lemma SetsInOrder(r: Roster, c: nat, i: nat)
    requires c <= i < Total(r)
    ensures Locate(r, c).set_ <= Locate(r, i).set_
  {
    if Locate(r, i).set_ < Locate(r, c).set_ {
      OffsetMonotone(r, Locate(r, i).set_, Locate(r, c).set_);
    }
  }

  /** A signer that is not canonical miscounts its node at its own position or at the node's first one. */
  lemma StrayCountsWrong(r: Roster, bits: seq<bool>, i: nat)
    requires Proper(r) && |bits| <= Total(r) && i < |bits| && bits[i] && !Canonical(r, i)
    ensures !CountedOnce(r, bits, At(r, i).id)
  {
    var id := At(r, i).id;
    var own := OfNode(r, bits, id);
    var c := FirstIndexOf(r, i);
    SetsInOrder(r, c, i);
    if bits[c] {
      StrayCountsTwice(r, own, c, i);
      assert Tally(r, own, Locate(r, i).set_) >= 2;
    } else {
      StrayCountsNothing(r, own, c);
      assert Holds(r[Locate(r, c).set_], id);
    }
  }

  /** Every signing node is counted exactly once where it belongs if and only if all signer indices are canonical. */
  lemma HeadCountIffCanonical(r: Roster, bits: seq<bool>)
    requires Proper(r) && |bits| <= Total(r)
    ensures (forall id :: id in SignerIds(r, bits) ==> CountedOnce(r, bits, id)) <==> AllCanonical(r, bits)
  {
    if AllCanonical(r, bits) {
      forall id | id in SignerIds(r, bits)
        ensures CountedOnce(r, bits, id)
      {
        CanonicalCountsOnce(r, bits, id);
      }
    } else {
      var i :| 0 <= i < |bits| && bits[i] && !Canonical(r, i);
      StrayCountsWrong(r, bits, i);
      assert At(r, i).id in SignerIds(r, bits);
    }
  }

  // ---------- signers with a later index ----------

  /** No node signs with two of its indices. */
  ghost predicate SignsOnce(r: Roster, bits: seq<bool>)
    requires |bits| <= Total(r)
  {
    forall i, j :: 0 <= i < j < |bits| && bits[i] && bits[j] ==> At(r, i).id != At(r, j).id
  }

  /** A node counts at most once at every position. */
  ghost predicate AtMostOnce(r: Roster, bits: seq<bool>, id: KramaID)
    requires |bits| <= Total(r)
  {
    forall k :: 0 <= k < |r| ==> Tally(r, OfNode(r, bits, id), k) <= 1
  }

  /** One index counts at most once at a position, and only where its node sits. */
  lemma WeightAtMostOne(r: Roster, index: nat, k: nat)
    requires UniqueIds(r) && index < Total(r) && k < |r|
    ensures Weight(r, index, k) <= if At(r, index).id in Ids(r[k]) then 1 else 0
  {
    var id := At(r, index).id;
    var p := Locate(r, index);
    WeightIs(r, index, k);
    OccurrencesUnique(r[k], id);
    IdsHolds(r[k], id);
    assert k == p.set_ ==> r[k][p.pos].id == id;
  }

  lemma {:induction false} TallyAtMostHeads(r: Roster, bits: seq<bool>, k: nat)
    requires UniqueIds(r) && |bits| <= Total(r) && k < |r| && SignsOnce(r, bits)
    ensures Tally(r, bits, k) <= |SignerIds(r, bits) * Ids(r[k])|
    decreases |bits|
  {
    if bits != [] {
      var n := |bits| - 1;
      var rest := SignerIds(r, bits[..n]);
      TallyAtMostHeads(r, bits[..n], k);
      SignerIdsStep(r, bits);
      if bits[n] {
        WeightAtMostOne(r, n, k);
        assert At(r, n).id !in rest;
        CardinalityStep(rest, Ids(r[k]), At(r, n).id);
      } else {
        assert rest + {} == rest;
      }
    }
  }

  /** The same signers by their first indices. */
  ghost function Firsts(r: Roster, bits: seq<bool>): (firsts: seq<bool>)
    requires |bits| <= Total(r)
    ensures |firsts| == Total(r)
  {
    seq(Total(r), i requires 0 <= i < Total(r) => Canonical(r, i) && At(r, i).id in SignerIds(r, bits))
  }

  /** Recounting the signers by their first indices counts heads, whatever indices they signed with. */
  lemma {:induction false} FirstsCountHeads(r: Roster, bits: seq<bool>, k: nat)
    requires Proper(r) && |bits| <= Total(r) && k < |r|
    ensures Tally(r, Firsts(r, bits), k) == |SignerIds(r, bits) * Ids(r[k])|
  {
    var firsts := Firsts(r, bits);
    forall id | id in SignerIds(r, bits)
      ensures id in SignerIds(r, firsts)
    {
      var i :| 0 <= i < |bits| && bits[i] && At(r, i).id == id;
      var c := FirstIndexOf(r, i);
      assert firsts[c];
    }
    assert SignerIds(r, firsts) == SignerIds(r, bits);
    TallyIsHeadCount(r, firsts, k);
  }

  lemma OnceMeansAtMostOnce(r: Roster, bits: seq<bool>, id: KramaID)
    requires UniqueIds(r) && |bits| <= Total(r) && SignsOnce(r, bits)
    ensures AtMostOnce(r, bits, id)
  {
    var own := OfNode(r, bits, id);
    forall k | 0 <= k < |r|
      ensures Tally(r, own, k) <= 1
    {
      TallyAtMostHeads(r, own, k);
      SubsetSize(SignerIds(r, own) * Ids(r[k]), {id});
    }
  }

  /** Every node counts at most once at every position if and only if no node signs with two indices. */
  lemma AtMostOnceIffSignsOnce(r: Roster, bits: seq<bool>)
    requires Proper(r) && |bits| <= Total(r)
    ensures (forall id :: AtMostOnce(r, bits, id)) <==> SignsOnce(r, bits)
  {
    if SignsOnce(r, bits) {
      forall id
        ensures AtMostOnce(r, bits, id)
      {
        OnceMeansAtMostOnce(r, bits, id);
      }
    } else {
      var i, j :| 0 <= i < j < |bits| && bits[i] && bits[j] && At(r, i).id == At(r, j).id;
      SetsInOrder(r, i, j);
      StrayCountsTwice(r, OfNode(r, bits, At(r, i).id), i, j);
      assert !AtMostOnce(r, bits, At(r, i).id);
    }
  }

  /** Two disjoint groups of canonical voters cannot both reach the quorum of one context. */
  lemma AtMostOneQuorum(r: Roster, quorum: seq<nat>, a: seq<bool>, b: seq<bool>, k: nat)
    requires Proper(r) && |a| == |b| <= Total(r) && |quorum| == |r|
    requires AllCanonical(r, a) && AllCanonical(r, b)
    requires forall i :: 0 <= i < |a| ==> !(a[i] && b[i])
    requires k < |r| && quorum[k] == QuorumOf(|r[k]|) && Fits(|r[k]|)
    ensures !(Meets(r, quorum, a) && Meets(r, quorum, b))
  {
    TallyIsHeadCount(r, a, k);
    TallyIsHeadCount(r, b, k);
    var ids := Ids(r[k]);
    var va, vb := SignerIds(r, a), SignerIds(r, b);
    forall i, j | 0 <= i < |a| && 0 <= j < |b| && a[i] && b[j]
      ensures At(r, i).id != At(r, j).id
    {
      assert Canonical(r, i) && Canonical(r, j) && i != j;
    }
    var x, y := va * ids, vb * ids;
    assert x !! y && |x + y| == |x| + |y|;
    SubsetSize(x + y, ids);
    IdsSize(r[k]);
    QuorumsOverlap(|r[k]|);
  }

  /** A set that lists nobody twice has as many members as entries. */
  lemma {:induction false} UniqueSize(infos: seq<NodeInfo>)
    requires forall i, j :: 0 <= i < j < |infos| ==> infos[i].id != infos[j].id
    ensures |Ids(infos)| == |infos|
    decreases |infos|
  {
    if infos == [] {
      assert Ids(infos) == {};
    } else {
      var n := |infos| - 1;
      UniqueSize(infos[..n]);
      assert infos == infos[..n] + [infos[n]];
      assert Ids(infos) == Ids(infos[..n]) + {infos[n].id};
    }
  }

  lemma {:induction false} IdsSize(infos: seq<NodeInfo>)
    ensures |Ids(infos)| <= |infos|
    decreases |infos|
  {
    if infos != [] {
      var n := |infos| - 1;
      IdsSize(infos[..n]);
      assert infos == infos[..n] + [infos[n]];
      assert Ids(infos) == Ids(infos[..n]) + {infos[n].id};
    } else {
      assert Ids(infos) == {};
    }
  }
}
