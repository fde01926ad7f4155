/** The prepare phase: what a node reports about its locks, and how the highest view per participant is found. */
module Prepare {
  import opened Types
  import opened Safety

  // ---------- reporting ----------

  /** A new account reports nothing; any other reports its lock or, without one, the commit of its head. */
  function ViewInfoOf(db: Db, a: Address): Option<ViewInfo> {
    if a !in db.meta then Some(ViewInfo(a, 0, []))
    else
      match Latest(db, a)
      case Ok(sd) => if sd.qcs == [] then None else Some(ViewInfo(a, LastView(sd), sd.qcs))
      case Err(_) => None
  }

  /** The reports for a list of addresses in order. */
  function LoadViewInfo(db: Db, addrs: seq<Address>): (r: Option<seq<ViewInfo>>)
    ensures r.Some? ==> |r.value| == |addrs| &&
                        forall i :: 0 <= i < |addrs| ==> ViewInfoOf(db, addrs[i]) == Some(r.value[i])
    ensures r.None? ==> exists i :: 0 <= i < |addrs| && ViewInfoOf(db, addrs[i]).None?
  {
    if addrs == [] then Some([])
    else
      var n := |addrs| - 1;
      var rest, last := LoadViewInfo(db, addrs[..n]), ViewInfoOf(db, addrs[n]);
      if rest.None? || last.None? then None else Some(rest.value + [last.value])
  }

  /** A new account reports view zero and nothing; any other account its lock, or without one the commit certificate of
      its head; and nothing can be reported exactly when neither is there. */
  lemma ReportIs(db: Db, a: Address)
    ensures a !in db.meta ==> ViewInfoOf(db, a) == Some(ViewInfo(a, 0, []))
    ensures a in db.meta && a in db.safety && db.safety[a].qcs != [] ==>
              var qcs := db.safety[a].qcs; ViewInfoOf(db, a) == Some(ViewInfo(a, qcs[|qcs| - 1].view, qcs))
    ensures a in db.meta && a !in db.safety && db.meta[a] in db.commits ==>
              var qc := db.commits[db.meta[a]]; ViewInfoOf(db, a) == Some(ViewInfo(a, qc.view, [qc]))
    ensures ViewInfoOf(db, a).None? <==>
            a in db.meta && if a in db.safety then db.safety[a].qcs == [] else db.meta[a] !in db.commits
  {
  }

  // ---------- reports in address order ----------

  function InsertInfo(vi: ViewInfo, s: seq<ViewInfo>): (r: seq<ViewInfo>)
    ensures |r| == |s| + 1 && multiset(r) == multiset(s) + multiset{vi}
  {
    if s == [] || s[|s| - 1].addr <= vi.addr then s + [vi]
    else
      var n := |s| - 1;
      assert s == s[..n] + [s[n]];
      InsertInfo(vi, s[..n]) + [s[n]]
  }

  /** A report as it is sent: the same entries, ordered by address. */
  function ByAddress(infos: seq<ViewInfo>): (r: seq<ViewInfo>)
    ensures |r| == |infos| && multiset(r) == multiset(infos)
  {
    if infos == [] then []
    else
      var n := |infos| - 1;
      assert infos == infos[..n] + [infos[n]];
      InsertInfo(infos[n], ByAddress(infos[..n]))
  }

  function AddrsOf(infos: seq<ViewInfo>): (addrs: seq<Address>)
    ensures |addrs| == |infos| && forall i :: 0 <= i < |infos| ==> addrs[i] == infos[i].addr
  {
    seq(|infos|, i requires 0 <= i < |infos| => infos[i].addr)
  }

  ghost predicate Ascending(addrs: seq<Address>) {
    forall i, j :: 0 <= i < j < |addrs| ==> addrs[i] <= addrs[j]
  }

  lemma AddrsAppend(s: seq<ViewInfo>, vi: ViewInfo)
    ensures AddrsOf(s + [vi]) == AddrsOf(s) + [vi.addr]
  {
  }

  /** Inserting keeps the order, and adds one address. */
  lemma {:induction false} InsertAscends(vi: ViewInfo, s: seq<ViewInfo>)
    requires Ascending(AddrsOf(s))
    ensures Ascending(AddrsOf(InsertInfo(vi, s)))
    ensures multiset(AddrsOf(InsertInfo(vi, s))) == multiset(AddrsOf(s)) + multiset{vi.addr}
    decreases |s|
  {
    if s == [] || s[|s| - 1].addr <= vi.addr {
      AddrsAppend(s, vi);
    } else {
      var n := |s| - 1;
      var rest := InsertInfo(vi, s[..n]);
      var last := s[n].addr;
      assert s == s[..n] + [s[n]];
      AddrsAppend(s[..n], s[n]);
      AddrsAppend(rest, s[n]);
      PrefixAscends(AddrsOf(s[..n]), last);
      InsertAscends(vi, s[..n]);
      AddOneMore(AddrsOf(s[..n]), vi.addr, AddrsOf(rest), last);
      AppendAscends(AddrsOf(s[..n]), vi.addr, AddrsOf(rest), last);
    }
  }

  lemma PrefixAscends(addrs: seq<Address>, last: Address)
    requires Ascending(addrs + [last])
    ensures Ascending(addrs)
  {
    assert forall i :: 0 <= i < |addrs| ==> (addrs + [last])[i] == addrs[i];
  }

  lemma AppendAscends(addrs: seq<Address>, a: Address, all: seq<Address>, last: Address)
    requires Ascending(addrs + [last]) && a <= last && multiset(all) == multiset(addrs) + multiset{a} && Ascending(all)
    ensures Ascending(all + [last])
  {
    LastIsHighest(addrs, a, all, last);
  }

  lemma AddOneMore(addrs: seq<Address>, a: Address, all: seq<Address>, last: Address)
    requires multiset(all) == multiset(addrs) + multiset{a}
    ensures multiset(all + [last]) == multiset(addrs + [last]) + multiset{a}
  {
  }

  lemma LastIsHighest(addrs: seq<Address>, a: Address, all: seq<Address>, last: Address)
    requires Ascending(addrs + [last]) && a <= last && multiset(all) == multiset(addrs) + multiset{a}
    ensures forall i :: 0 <= i < |all| ==> all[i] <= last
  {
    forall i | 0 <= i < |all|
      ensures all[i] <= last
    {
      assert all[i] in multiset(all);
      if all[i] != a {
        assert all[i] in addrs;
        var k :| 0 <= k < |addrs| && addrs[k] == all[i];
        assert (addrs + [last])[k] <= (addrs + [last])[|addrs|];
      }
    }
  }

  lemma {:induction false} ByAddressAscends(infos: seq<ViewInfo>)
    ensures Ascending(AddrsOf(ByAddress(infos)))
    ensures multiset(AddrsOf(ByAddress(infos))) == multiset(AddrsOf(infos))
    decreases |infos|
  {
    if infos != [] {
      var n := |infos| - 1;
      ByAddressAscends(infos[..n]);
      InsertAscends(infos[n], ByAddress(infos[..n]));
      AddrsLast(infos);
    }
  }

  lemma AddrsLast(infos: seq<ViewInfo>)
    requires infos != []
    ensures var n := |infos| - 1;
            multiset(AddrsOf(infos)) == multiset(AddrsOf(infos[..n])) + multiset{infos[n].addr}
  {
    var n := |infos| - 1;
    assert AddrsOf(infos) == AddrsOf(infos[..n]) + [infos[n].addr];
  }

  lemma AtMostLast(a: seq<Address>, b: seq<Address>)
    requires Ascending(b) && multiset(a) == multiset(b) && |a| == |b| > 0
    ensures a[|a| - 1] <= b[|b| - 1]
  {
    assert a[|a| - 1] in multiset(b);
    var k :| 0 <= k < |b| && b[k] == a[|a| - 1];
  }

  /** Two ascending lists of the same addresses are the same list. */
  lemma {:induction false} AscendingUnique(a: seq<Address>, b: seq<Address>)
    requires Ascending(a) && Ascending(b) && multiset(a) == multiset(b)
    ensures a == b
    decreases |a|
  {
    SameLength(a, b);
    if a != [] {
      var n := |a| - 1;
      AtMostLast(a, b);
      AtMostLast(b, a);
      SameRest(a, b);
      PrefixAscends(a[..n], a[n]);
      PrefixAscends(b[..n], b[n]);
      AscendingUnique(a[..n], b[..n]);
    }
  }

  lemma SameRest(a: seq<Address>, b: seq<Address>)
    requires |a| == |b| > 0 && a[|a| - 1] == b[|a| - 1] && multiset(a) == multiset(b)
    ensures var n := |a| - 1;
            multiset(a[..n]) == multiset(b[..n]) && a == a[..n] + [a[n]] && b == b[..n] + [b[n]]
  {
    DropLast(a);
    DropLast(b);
  }

  lemma SameLength(a: seq<Address>, b: seq<Address>)
    requires multiset(a) == multiset(b)
    ensures |a| == |b|
  {
    assert |multiset(a)| == |a| && |multiset(b)| == |b|;
  }

  lemma DropLast(a: seq<Address>)
    requires a != []
    ensures var n := |a| - 1; a == a[..n] + [a[n]] && multiset(a[..n]) == multiset(a) - multiset{a[n]}
  {
    var n := |a| - 1;
    assert a == a[..n] + [a[n]];
  }

  /** Whatever order the addresses were given in, any two nodes' reports on them list the same addresses in the same
      order, and each report holds exactly the entries of its node. */
  lemma {:induction false} ReportsAlign(db1: Db, addrs1: seq<Address>, db2: Db, addrs2: seq<Address>)
    requires LoadViewInfo(db1, addrs1).Some? && LoadViewInfo(db2, addrs2).Some? && multiset(addrs1) == multiset(addrs2)
    ensures var r1, r2 := LoadViewInfo(db1, addrs1).value, LoadViewInfo(db2, addrs2).value;
            AddrsOf(ByAddress(r1)) == AddrsOf(ByAddress(r2)) && multiset(ByAddress(r1)) == multiset(r1)
  {
    var r1, r2 := LoadViewInfo(db1, addrs1).value, LoadViewInfo(db2, addrs2).value;
    assert AddrsOf(r1) == addrs1 && AddrsOf(r2) == addrs2;
    ByAddressAscends(r1);
    ByAddressAscends(r2);
    AscendingUnique(AddrsOf(ByAddress(r1)), AddrsOf(ByAddress(r2)));
  }

  // ---------- the highest view ----------

  function Higher(mine: ViewInfo, peer: ViewInfo): ViewInfo {
    if peer.lastView > mine.lastView then peer else mine
  }

  /** The first `k` entries raised to what a peer reports. */
  function Raised(highest: seq<ViewInfo>, peer: seq<ViewInfo>, k: nat): (r: seq<ViewInfo>)
    ensures |r| == |highest|
  {
    seq(|highest|, i requires 0 <= i < |highest| =>
      if i < k && i < |peer| then Higher(highest[i], peer[i]) else highest[i])
  }

  /** A raise is refused for the wrong address, or when the entry held so far does not validate. */
  predicate Refused(highest: seq<ViewInfo>, peer: seq<ViewInfo>, valid: ViewInfo -> bool, i: nat)
    requires i < |highest|
  {
    i < |peer| && peer[i].lastView > highest[i].lastView && (peer[i].addr != highest[i].addr || !valid(highest[i]))
  }

  /** The first entry from `i` on that is refused, or the number of entries. */
  function StopFrom(highest: seq<ViewInfo>, peer: seq<ViewInfo>, valid: ViewInfo -> bool, i: nat): (stop: nat)
    requires i <= |highest|
    ensures i <= stop <= |highest| && (stop < |highest| ==> Refused(highest, peer, valid, stop))
    ensures forall k :: i <= k < stop ==> !Refused(highest, peer, valid, k)
    decreases |highest| - i
  {
    if i == |highest| || Refused(highest, peer, valid, i) then i else StopFrom(highest, peer, valid, i + 1)
  }

  function StopOf(highest: seq<ViewInfo>, peer: seq<ViewInfo>, valid: ViewInfo -> bool): nat {
    StopFrom(highest, peer, valid, 0)
  }

  method UpdateHighestVI(highest: array<ViewInfo>, peer: seq<ViewInfo>, valid: ViewInfo -> bool) returns (r: Result<()>)
    modifies highest
    ensures var before := old(highest[..]);
            var stop := StopOf(before, peer, valid);
            && highest[..] == Raised(before, peer, stop)
            && (r.Ok? <==> stop == highest.Length)
            && (r.Err? ==> r.error == if peer[stop].addr != before[stop].addr then ViewOrderMismatch else InvalidQc)
    ensures var before := old(highest[..]);
            && (forall i :: 0 <= i < highest.Length && highest[i] != before[i] ==>
                  && i < |peer| && highest[i] == peer[i] && peer[i].lastView > before[i].lastView
                  && peer[i].addr == before[i].addr && valid(before[i]))
            && (r.Ok? ==> forall i :: 0 <= i < highest.Length && i < |peer| && peer[i].lastView > before[i].lastView ==>
                  highest[i] == peer[i])
  {
    ghost var before := highest[..];
    for i := 0 to highest.Length
      invariant forall k :: 0 <= k < i ==> highest[k] == Raised(before, peer, i)[k] && !Refused(before, peer, valid, k)
      invariant forall k :: i <= k < highest.Length ==> highest[k] == before[k]
    {
      if |peer| <= i {
        assert forall k :: i <= k < highest.Length ==> !Refused(before, peer, valid, k);
        assert highest[..] == Raised(before, peer, highest.Length);
        return Ok(());
      }
      if peer[i].lastView > highest[i].lastView {
        if peer[i].addr != highest[i].addr {
          assert Refused(before, peer, valid, i);
          assert highest[..] == Raised(before, peer, i);
          return Err(ViewOrderMismatch);
        }
        if !valid(highest[i]) {
          assert Refused(before, peer, valid, i);
          assert highest[..] == Raised(before, peer, i);
          return Err(InvalidQc);
        }
        highest[i] := peer[i];
      }
    }
    assert highest[..] == Raised(before, peer, highest.Length);
    return Ok(());
  }

  /** A report, and the entry at which its update stopped: the number of entries when none was refused. */
  datatype Taken = Taken(infos: seq<ViewInfo>, stop: nat)

  /** The highest views after a list of reports, each taken up to where it stopped. */
  function FoldTaken(highest: seq<ViewInfo>, taken: seq<Taken>): (r: seq<ViewInfo>)
    ensures |r| == |highest|
    decreases |taken|
  {
    if taken == [] then highest
    else
      var n := |taken| - 1;
      Raised(FoldTaken(highest, taken[..n]), taken[n].infos, taken[n].stop)
  }

  /** What is taken of a list of reports, one after the other, when refusals are logged and passed over. */
  function Processed(highest: seq<ViewInfo>, peers: seq<seq<ViewInfo>>, valid: ViewInfo -> bool): (taken: seq<Taken>)
    ensures |taken| == |peers| && forall j :: 0 <= j < |peers| ==> taken[j].infos == peers[j]
    decreases |peers|
  {
    if peers == [] then []
    else
      var n := |peers| - 1;
      var earlier := Processed(highest, peers[..n], valid);
      earlier + [Taken(peers[n], StopOf(FoldTaken(highest, earlier), peers[n], valid))]
  }

  predicate Covers(t: Taken, i: nat) {
    i < t.stop && i < |t.infos|
  }

  /** One more report changes an entry only to the report's, and only when that is higher and was taken. */
  lemma {:induction false} LastTaken(highest: seq<ViewInfo>, taken: seq<Taken>, i: nat)
    requires i < |highest| && taken != []
    ensures var last := taken[|taken| - 1];
            var before := FoldTaken(highest, taken[..|taken| - 1])[i];
            FoldTaken(highest, taken)[i] == if Covers(last, i) then Higher(before, last.infos[i]) else before
  {
  }

  /** `top` is at least the own entry and every entry that was taken at `i`, and is one of them. */
  ghost predicate IsHighest(own: ViewInfo, taken: seq<Taken>, i: nat, top: ViewInfo) {
    && own.lastView <= top.lastView
    && (forall j :: 0 <= j < |taken| && Covers(taken[j], i) ==> taken[j].infos[i].lastView <= top.lastView)
    && (top == own || exists j :: 0 <= j < |taken| && Covers(taken[j], i) && top == taken[j].infos[i])
  }

  lemma HighestOn(own: ViewInfo, rest: seq<Taken>, last: Taken, i: nat, top: ViewInfo)
    requires IsHighest(own, rest, i, top)
    ensures IsHighest(own, rest + [last], i, if Covers(last, i) then Higher(top, last.infos[i]) else top)
  {
    var taken := rest + [last];
    assert taken[|rest|] == last;
    if top != own {
      var j :| 0 <= j < |rest| && Covers(rest[j], i) && top == rest[j].infos[i];
      assert taken[j] == rest[j];
    }
  }

  /** The own entry when nothing that was taken at `i` exceeds it, otherwise the first taken one of the highest view. */
  ghost predicate IsFirstHighest(own: ViewInfo, taken: seq<Taken>, i: nat, top: ViewInfo) {
    && IsHighest(own, taken, i, top)
    && (top != own ==> top.lastView > own.lastView)
    && (top != own ==>
          exists j ::
            0 <= j < |taken| && Covers(taken[j], i) && top == taken[j].infos[i] && NoneEarlier(taken, i, top, j))
  }

  ghost predicate NoneEarlier(taken: seq<Taken>, i: nat, top: ViewInfo, j: nat) {
    forall l :: 0 <= l < j && l < |taken| && Covers(taken[l], i) ==> taken[l].infos[i].lastView < top.lastView
  }

  lemma FirstHighestOn(own: ViewInfo, rest: seq<Taken>, last: Taken, i: nat, top: ViewInfo)
    requires IsFirstHighest(own, rest, i, top)
    ensures IsFirstHighest(own, rest + [last], i, if Covers(last, i) then Higher(top, last.infos[i]) else top)
  {
    var taken := rest + [last];
    var next := if Covers(last, i) then Higher(top, last.infos[i]) else top;
    HighestOn(own, rest, last, i, top);
    if next != top {
      assert taken[|rest|] == last && NoneEarlier(taken, i, next, |rest|);
    } else if top != own {
      var j :| 0 <= j < |rest| && Covers(rest[j], i) && top == rest[j].infos[i] && NoneEarlier(rest, i, top, j);
      assert taken[j] == rest[j] && NoneEarlier(taken, i, top, j);
    }
  }

  /** Whatever was taken of the reports, an entry is kept against every entry of the same view, and otherwise replaced
      by the first one of the highest view. */
  lemma {:induction false} TakenIsFirstHighest(highest: seq<ViewInfo>, taken: seq<Taken>, i: nat)
    requires i < |highest|
    ensures IsFirstHighest(highest[i], taken, i, FoldTaken(highest, taken)[i])
    decreases |taken|
  {
    if taken != [] {
      var n := |taken| - 1;
      TakenIsFirstHighest(highest, taken[..n], i);
      LastTaken(highest, taken, i);
      FirstHighestOn(highest[i], taken[..n], taken[n], i, FoldTaken(highest, taken[..n])[i]);
      assert taken[..n] + [taken[n]] == taken;
    }
  }

  /** No entry that was taken exceeds the result, and the result is one of them, refused reports included. */
  lemma {:induction false} TakenIsHighest(highest: seq<ViewInfo>, taken: seq<Taken>, i: nat)
    requires i < |highest|
    ensures IsHighest(highest[i], taken, i, FoldTaken(highest, taken)[i])
    decreases |taken|
  {
    if taken != [] {
      var n := |taken| - 1;
      TakenIsHighest(highest, taken[..n], i);
      LastTaken(highest, taken, i);
      HighestOn(highest[i], taken[..n], taken[n], i, FoldTaken(highest, taken[..n])[i]);
      assert taken[..n] + [taken[n]] == taken;
    }
  }

  function Whole(highest: seq<ViewInfo>, peers: seq<seq<ViewInfo>>): (taken: seq<Taken>)
    ensures |taken| == |peers| && forall j :: 0 <= j < |peers| ==> taken[j] == Taken(peers[j], |highest|)
  {
    seq(|peers|, j requires 0 <= j < |peers| => Taken(peers[j], |highest|))
  }

  /** The highest views after a list of reports that were all accepted. */
  function Fold(highest: seq<ViewInfo>, peers: seq<seq<ViewInfo>>): (r: seq<ViewInfo>)
    ensures |r| == |highest|
  {
    FoldTaken(highest, Whole(highest, peers))
  }

  /** No report exceeds the result, and the result is one of the reports. */
  lemma FoldIsHighest(highest: seq<ViewInfo>, peers: seq<seq<ViewInfo>>, i: nat)
    requires i < |highest|
    ensures highest[i].lastView <= Fold(highest, peers)[i].lastView
    ensures forall j :: 0 <= j < |peers| && i < |peers[j]| ==> peers[j][i].lastView <= Fold(highest, peers)[i].lastView
    ensures || Fold(highest, peers)[i] == highest[i]
            || exists j :: 0 <= j < |peers| && i < |peers[j]| && Fold(highest, peers)[i] == peers[j][i]
  {
    var taken := Whole(highest, peers);
    TakenIsHighest(highest, taken, i);
    forall j | 0 <= j < |peers| && i < |peers[j]|
      ensures peers[j][i].lastView <= Fold(highest, peers)[i].lastView
    {
      assert Covers(taken[j], i);
    }
    if Fold(highest, peers)[i] != highest[i] {
      var j :| 0 <= j < |taken| && Covers(taken[j], i) && FoldTaken(highest, taken)[i] == taken[j].infos[i];
      assert i < |peers[j]| && Fold(highest, peers)[i] == peers[j][i];
    }
  }

  // ---------- reports that are cut short ----------

  /** An entry reaches a view exactly when the own one did, or one that was taken. */
  lemma {:induction false} FoundIff(highest: seq<ViewInfo>, taken: seq<Taken>, i: nat, view: nat)
    requires i < |highest|
    ensures FoldTaken(highest, taken)[i].lastView >= view <==>
            || highest[i].lastView >= view
            || exists j :: 0 <= j < |taken| && Covers(taken[j], i) && taken[j].infos[i].lastView >= view
  {
    TakenIsHighest(highest, taken, i);
  }

  /** All reports list the same addresses in the same order. */
  ghost predicate SameOrder(highest: seq<ViewInfo>, peers: seq<seq<ViewInfo>>) {
    forall j :: 0 <= j < |peers| ==>
      |peers[j]| == |highest| && forall k :: 0 <= k < |highest| ==> peers[j][k].addr == highest[k].addr
  }

  ghost predicate AllValid(highest: seq<ViewInfo>, peers: seq<seq<ViewInfo>>, valid: ViewInfo -> bool)
    requires SameOrder(highest, peers)
  {
    forall k :: 0 <= k < |highest| ==> valid(highest[k]) && forall j :: 0 <= j < |peers| ==> valid(peers[j][k])
  }

  lemma NoneRefused(highest: seq<ViewInfo>, peers: seq<seq<ViewInfo>>, peer: seq<ViewInfo>, valid: ViewInfo -> bool)
    requires SameOrder(highest, peers) && AllValid(highest, peers, valid) && SameOrder(highest, [peer])
    ensures StopOf(Fold(highest, peers), peer, valid) == |highest|
  {
    assert [peer][0] == peer;
    var held := Fold(highest, peers);
    forall k | 0 <= k < |highest|
      ensures !Refused(held, peer, valid, k)
    {
      FoldIsHighest(highest, peers, k);
    }
  }

  /** Nothing is refused when the addresses agree and every entry validates. */
  lemma {:induction false} ValidTakenWhole(highest: seq<ViewInfo>, peers: seq<seq<ViewInfo>>, valid: ViewInfo -> bool)
    requires SameOrder(highest, peers) && AllValid(highest, peers, valid)
    ensures Processed(highest, peers, valid) == Whole(highest, peers)
    decreases |peers|
  {
    if peers != [] {
      var n := |peers| - 1;
      ValidBefore(highest, peers, valid);
      ValidTakenWhole(highest, peers[..n], valid);
      NoneRefused(highest, peers[..n], peers[n], valid);
      WholeLast(highest, peers);
    }
  }

  lemma WholeLast(highest: seq<ViewInfo>, peers: seq<seq<ViewInfo>>)
    requires peers != []
    ensures var n := |peers| - 1; Whole(highest, peers) == Whole(highest, peers[..n]) + [Taken(peers[n], |highest|)]
  {
  }

  lemma ValidBefore(highest: seq<ViewInfo>, peers: seq<seq<ViewInfo>>, valid: ViewInfo -> bool)
    requires SameOrder(highest, peers) && AllValid(highest, peers, valid) && peers != []
    ensures var n := |peers| - 1;
            SameOrder(highest, peers[..n]) && AllValid(highest, peers[..n], valid) && SameOrder(highest, [peers[n]])
  {
  }

  /** A report can be cut short: one entry that does not validate keeps a peer's later entries out, whatever they show.
      */
  lemma RefusedReportIsCut(old_: ViewInfo, low: ViewInfo, new_: ViewInfo, high: ViewInfo)
    requires old_.addr == new_.addr && old_.lastView < new_.lastView && low.addr == high.addr &&
             low.lastView < high.lastView
    ensures FoldTaken([old_, low], Processed([old_, low], [[new_, high]], vi => vi != old_))[1] == low
  {
    var valid := vi => vi != old_;
    assert Refused([old_, low], [new_, high], valid, 0);
    assert [[new_, high]][..0] == [];
    assert Processed([old_, low], [[new_, high]], valid) == [Taken([new_, high], 0)];
    assert [Taken([new_, high], 0)][..0] == [];
  }
}
