/** The array diff of the state viewer: longest common subsequence, backtracking, and the merged view. */
module Diff {

  // ---------- what is computed ----------

  /** The length of a longest common subsequence of the first `i` and the first `j` elements. */
  function Lcs<T>(prev: seq<T>, curr: seq<T>, eq: (T, T) -> bool, i: nat, j: nat): nat
    requires i <= |prev| && j <= |curr|
    decreases i + j
  {
    if i == 0 || j == 0 then 0
    else if eq(prev[i - 1], curr[j - 1]) then Lcs(prev, curr, eq, i - 1, j - 1) + 1
    else
      var up, left := Lcs(prev, curr, eq, i - 1, j), Lcs(prev, curr, eq, i, j - 1);
      if up > left then up else left
  }

  type Pairs = seq<(nat, nat)>

  /** Pairs of equal elements, strictly increasing on both sides, within the first `i` and `j` elements. */
  ghost predicate Matching<T>(prev: seq<T>, curr: seq<T>, eq: (T, T) -> bool, ps: Pairs, i: nat, j: nat)
    requires i <= |prev| && j <= |curr|
  {
    && (forall k :: 0 <= k < |ps| ==> ps[k].0 < i && ps[k].1 < j && eq(prev[ps[k].0], curr[ps[k].1]))
    && (forall k, l :: 0 <= k < l < |ps| ==> ps[k].0 < ps[l].0 && ps[k].1 < ps[l].1)
  }

  lemma {:induction false} LcsSteps<T>(prev: seq<T>, curr: seq<T>, eq: (T, T) -> bool, i: nat, j: nat)
    requires i <= |prev| && j <= |curr|
    ensures i > 0 ==> Lcs(prev, curr, eq, i - 1, j) <= Lcs(prev, curr, eq, i, j) <= Lcs(prev, curr, eq, i - 1, j) + 1
    ensures j > 0 ==> Lcs(prev, curr, eq, i, j - 1) <= Lcs(prev, curr, eq, i, j) <= Lcs(prev, curr, eq, i, j - 1) + 1
    decreases i + j
  {
    if i > 0 && j > 0 {
      LcsSteps(prev, curr, eq, i - 1, j);
      LcsSteps(prev, curr, eq, i, j - 1);
    }
  }

  /** No matching is longer, whatever relation the elements are compared with. */
  lemma {:induction false} LcsIsLongest<T>(prev: seq<T>, curr: seq<T>, eq: (T, T) -> bool, ps: Pairs, i: nat, j: nat)
    requires i <= |prev| && j <= |curr| && Matching(prev, curr, eq, ps, i, j)
    ensures |ps| <= Lcs(prev, curr, eq, i, j)
    decreases i + j
  {
    if ps != [] {
      var n := |ps| - 1;
      var last := ps[n];
      if last.0 == i - 1 && last.1 == j - 1 {
        LcsIsLongest(prev, curr, eq, ps[..n], i - 1, j - 1);
      } else if last.0 < i - 1 {
        LcsIsLongest(prev, curr, eq, ps, i - 1, j);
        LcsSteps(prev, curr, eq, i, j);
      } else {
        LcsIsLongest(prev, curr, eq, ps, i, j - 1);
        LcsSteps(prev, curr, eq, i, j);
      }
    }
  }

  // ---------- the table and the way back ----------

  ghost predicate Filled<T>(dp: array2<nat>, prev: seq<T>, curr: seq<T>, eq: (T, T) -> bool, rows: nat)
    requires dp.Length0 == |prev| + 1 && dp.Length1 == |curr| + 1 && rows <= |prev| + 1
    reads dp
  {
    forall i, j :: 0 <= i < rows && 0 <= j <= |curr| ==> dp[i, j] == Lcs(prev, curr, eq, i, j)
  }

  /** The first `n` cells of a row. */
  ghost predicate RowFilled<T>(dp: array2<nat>, prev: seq<T>, curr: seq<T>, eq: (T, T) -> bool, i: nat, n: nat)
    requires dp.Length0 == |prev| + 1 && dp.Length1 == |curr| + 1 && i <= |prev| && n <= |curr| + 1
    reads dp
  {
    forall j :: 0 <= j < n ==> dp[i, j] == Lcs(prev, curr, eq, i, j)
  }

  /** Fills one row of the table from the row above it. */
  method FillRow<T>(dp: array2<nat>, prev: seq<T>, curr: seq<T>, eq: (T, T) -> bool, i: nat)
    requires dp.Length0 == |prev| + 1 && dp.Length1 == |curr| + 1 && 1 <= i <= |prev|
    requires RowFilled(dp, prev, curr, eq, i - 1, |curr| + 1) && dp[i, 0] == 0
    modifies dp
    ensures RowFilled(dp, prev, curr, eq, i, |curr| + 1)
    ensures forall a, b :: 0 <= a <= |prev| && a != i && 0 <= b <= |curr| ==> dp[a, b] == old(dp[a, b])
  {
    var j := 1;
    while j <= |curr|
      invariant 1 <= j <= |curr| + 1 && RowFilled(dp, prev, curr, eq, i, j)
      invariant forall a, b :: 0 <= a <= |prev| && a != i && 0 <= b <= |curr| ==> dp[a, b] == old(dp[a, b])
    {
      var diagonal, up, left := dp[i - 1, j - 1], dp[i - 1, j], dp[i, j - 1];
      assert diagonal == Lcs(prev, curr, eq, i - 1, j - 1) && up == Lcs(prev, curr, eq, i - 1, j);
      assert left == Lcs(prev, curr, eq, i, j - 1);
      var cell := if eq(prev[i - 1], curr[j - 1]) then diagonal + 1 else if up > left then up else left;
      assert cell == Lcs(prev, curr, eq, i, j);
      dp[i, j] := cell;
      j := j + 1;
    }
  }

  method BuildTable<T>(prev: seq<T>, curr: seq<T>, eq: (T, T) -> bool) returns (dp: array2<nat>)
    ensures fresh(dp) && dp.Length0 == |prev| + 1 && dp.Length1 == |curr| + 1
    ensures Filled(dp, prev, curr, eq, |prev| + 1)
  {
    var m, n := |prev|, |curr|;
    dp := new nat[m + 1, n + 1]((_, _) => 0);
    var i := 1;
    while i <= m
      invariant 1 <= i <= m + 1 && Filled(dp, prev, curr, eq, i)
      invariant forall a :: i <= a <= m ==> dp[a, 0] == 0
    {
      assert RowFilled(dp, prev, curr, eq, i - 1, n + 1);
      FillRow(dp, prev, curr, eq, i);
      i := i + 1;
    }
  }

  /** Pairs that lie entirely behind the first `i` and `j` elements. */
  ghost predicate Behind(ps: Pairs, i: nat, j: nat) {
    forall k :: 0 <= k < |ps| ==> i <= ps[k].0 && j <= ps[k].1
  }

  lemma Prepend<T>(prev: seq<T>, curr: seq<T>, eq: (T, T) -> bool, ps: Pairs, i: nat, j: nat)
    requires i < |prev| && j < |curr| && eq(prev[i], curr[j])
    requires Matching(prev, curr, eq, ps, |prev|, |curr|) && Behind(ps, i + 1, j + 1)
    ensures Matching(prev, curr, eq, [(i, j)] + ps, |prev|, |curr|) && Behind([(i, j)] + ps, i, j)
  {
  }

  // ---------- which longest matching ----------

  ghost predicate Longest<T>(prev: seq<T>, curr: seq<T>, eq: (T, T) -> bool, ps: Pairs) {
    Matching(prev, curr, eq, ps, |prev|, |curr|) && |ps| == Lcs(prev, curr, eq, |prev|, |curr|)
  }

  /** Rank by rank from the end, another matching keeps no later old element; its next one is among the first `i`. */
  ghost predicate NoLater(other: Pairs, ps: Pairs, i: nat) {
    && |ps| <= |other|
    && (forall k :: 0 <= k < |ps| ==> other[|other| - |ps| + k].0 <= ps[k].0)
    && (|ps| < |other| ==> other[|other| - |ps| - 1].0 < i)
  }

  lemma {:induction false} LcsReached<T>(prev: seq<T>, curr: seq<T>, eq: (T, T) -> bool, i: nat, j: nat)
    returns (ps: Pairs)
    requires i <= |prev| && j <= |curr|
    ensures Matching(prev, curr, eq, ps, i, j) && |ps| == Lcs(prev, curr, eq, i, j)
    decreases i + j
  {
    if i == 0 || j == 0 {
      ps := [];
    } else if eq(prev[i - 1], curr[j - 1]) {
      ps := LcsReached(prev, curr, eq, i - 1, j - 1);
      ps := ps + [(i - 1, j - 1)];
    } else if Lcs(prev, curr, eq, i - 1, j) > Lcs(prev, curr, eq, i, j - 1) {
      ps := LcsReached(prev, curr, eq, i - 1, j);
    } else {
      ps := LcsReached(prev, curr, eq, i, j - 1);
    }
  }

  lemma Join<T>(prev: seq<T>, curr: seq<T>, eq: (T, T) -> bool, ps: Pairs, qs: Pairs, i: nat, j: nat)
    requires i <= |prev| && j <= |curr| && Matching(prev, curr, eq, ps, i, j)
    requires Matching(prev, curr, eq, qs, |prev|, |curr|) && Behind(qs, i, j)
    ensures Matching(prev, curr, eq, ps + qs, |prev|, |curr|)
  {
  }

  /** When only the longer table entry above is followed, no longest matching has its next pair in the row left out. */
  lemma RowUnused<T>(prev: seq<T>, curr: seq<T>, eq: (T, T) -> bool, other: Pairs, r: nat, i: nat, j: nat)
    requires 0 < i <= |prev| && 0 < j <= |curr| && !eq(prev[i - 1], curr[j - 1])
    requires Lcs(prev, curr, eq, i - 1, j) > Lcs(prev, curr, eq, i, j - 1)
    requires Longest(prev, curr, eq, other) && r == Lcs(prev, curr, eq, i, j) && 0 < r <= |other|
    ensures other[r - 1].0 != i - 1
  {
    if other[r - 1].0 == i - 1 {
      var c := other[r - 1].1;
      if c < j {
        assert c != j - 1;
        LcsIsLongest(prev, curr, eq, other[..r], i, j - 1);
      } else {
        var ps := LcsReached(prev, curr, eq, i - 1, j);
        Join(prev, curr, eq, ps, other[r - 1..], i - 1, j);
        LcsIsLongest(prev, curr, eq, ps + other[r - 1..], |prev|, |curr|);
      }
    }
  }

  ghost predicate NoneLater<T>(prev: seq<T>, curr: seq<T>, eq: (T, T) -> bool, ps: Pairs, i: nat) {
    forall other: Pairs :: Longest(prev, curr, eq, other) ==> NoLater(other, ps, i)
  }

  lemma RowLeftOut<T>(prev: seq<T>, curr: seq<T>, eq: (T, T) -> bool, ps: Pairs, i: nat, j: nat)
    requires 0 < i <= |prev| && 0 < j <= |curr| && !eq(prev[i - 1], curr[j - 1])
    requires Lcs(prev, curr, eq, i - 1, j) > Lcs(prev, curr, eq, i, j - 1)
    requires |ps| + Lcs(prev, curr, eq, i, j) == Lcs(prev, curr, eq, |prev|, |curr|) && NoneLater(prev, curr, eq, ps, i)
    ensures NoneLater(prev, curr, eq, ps, i - 1)
  {
    forall other: Pairs | Longest(prev, curr, eq, other)
      ensures NoLater(other, ps, i - 1)
    {
      RowUnused(prev, curr, eq, other, Lcs(prev, curr, eq, i, j), i, j);
    }
  }

  lemma OneMoreRank(other: Pairs, ps: Pairs, i: nat, j: nat)
    requires NoLater(other, ps, i + 1) && |ps| < |other|
    requires forall k, l :: 0 <= k < l < |other| ==> other[k].0 < other[l].0
    ensures NoLater(other, [(i, j)] + ps, i)
  {
    var all := [(i, j)] + ps;
    forall k | 0 <= k < |all|
      ensures other[|other| - |all| + k].0 <= all[k].0
    {
      if k > 0 {
        assert all[k] == ps[k - 1];
      }
    }
  }

  lemma {:induction false} PairTaken<T>(prev: seq<T>, curr: seq<T>, eq: (T, T) -> bool, ps: Pairs, longer: Pairs,
                                        i: nat, j: nat)
    requires longer == [(i, j)] + ps
    requires NoneLater(prev, curr, eq, ps, i + 1) && |ps| < Lcs(prev, curr, eq, |prev|, |curr|)
    ensures NoneLater(prev, curr, eq, longer, i)
  {
    forall other: Pairs | Longest(prev, curr, eq, other)
      ensures NoLater(other, longer, i)
    {
      OneMoreRank(other, ps, i, j);
    }
  }

  ghost predicate AtMost(other: Pairs, ps: Pairs) {
    |other| == |ps| && forall k :: 0 <= k < |ps| ==> other[k].0 <= ps[k].0
  }

  lemma RanksAtMost(other: Pairs, ps: Pairs, i: nat)
    requires NoLater(other, ps, i) && |other| == |ps|
    ensures AtMost(other, ps)
  {
    forall k | 0 <= k < |ps|
      ensures other[k].0 <= ps[k].0
    {
      assert other[|other| - |ps| + k].0 <= ps[k].0;
    }
  }

  /** No longest matching keeps a later old element at any rank. */
  ghost predicate KeepsLatest<T>(prev: seq<T>, curr: seq<T>, eq: (T, T) -> bool, ps: Pairs) {
    forall other: Pairs :: Longest(prev, curr, eq, other) ==> AtMost(other, ps)
  }

  lemma {:induction false} LatestKept<T>(prev: seq<T>, curr: seq<T>, eq: (T, T) -> bool, ps: Pairs, i: nat)
    requires NoneLater(prev, curr, eq, ps, i) && |ps| == Lcs(prev, curr, eq, |prev|, |curr|)
    ensures KeepsLatest(prev, curr, eq, ps)
  {
    forall other: Pairs | Longest(prev, curr, eq, other)
      ensures AtMost(other, ps)
    {
      RanksAtMost(other, ps, i);
    }
  }

  /** What is chosen so far is the end of a longest matching, behind the first `i` and `j` elements. */
  ghost predicate OnTheWay<T>(prev: seq<T>, curr: seq<T>, eq: (T, T) -> bool, ps: Pairs, i: nat, j: nat) {
    && i <= |prev| && j <= |curr|
    && Matching(prev, curr, eq, ps, |prev|, |curr|) && Behind(ps, i, j)
    && |ps| + Lcs(prev, curr, eq, i, j) == Lcs(prev, curr, eq, |prev|, |curr|)
    && NoneLater(prev, curr, eq, ps, i)
  }

  lemma TakePair<T>(prev: seq<T>, curr: seq<T>, eq: (T, T) -> bool, ps: Pairs, longer: Pairs, i: nat, j: nat)
    requires i < |prev| && j < |curr| && eq(prev[i], curr[j]) && longer == [(i, j)] + ps
    requires OnTheWay(prev, curr, eq, ps, i + 1, j + 1)
    ensures OnTheWay(prev, curr, eq, longer, i, j)
  {
    Prepend(prev, curr, eq, ps, i, j);
    PairTaken(prev, curr, eq, ps, longer, i, j);
  }

  lemma SkipOne<T>(prev: seq<T>, curr: seq<T>, eq: (T, T) -> bool, ps: Pairs, i: nat, j: nat)
    requires 0 < i <= |prev| && 0 < j <= |curr| && !eq(prev[i - 1], curr[j - 1]) && OnTheWay(prev, curr, eq, ps, i, j)
    ensures if Lcs(prev, curr, eq, i - 1, j) > Lcs(prev, curr, eq, i, j - 1)
            then OnTheWay(prev, curr, eq, ps, i - 1, j) else OnTheWay(prev, curr, eq, ps, i, j - 1)
  {
    if Lcs(prev, curr, eq, i - 1, j) > Lcs(prev, curr, eq, i, j - 1) {
      RowLeftOut(prev, curr, eq, ps, i, j);
    }
  }

  /** A longest common subsequence, as pairs of indices: of all the longest, the one with the latest old elements. */
  method ComputeLCS<T>(prev: seq<T>, curr: seq<T>, eq: (T, T) -> bool) returns (lcs: Pairs)
    ensures Matching(prev, curr, eq, lcs, |prev|, |curr|)
    ensures |lcs| == Lcs(prev, curr, eq, |prev|, |curr|)
    ensures KeepsLatest(prev, curr, eq, lcs)
  {
    var dp := BuildTable(prev, curr, eq);
    lcs := [];
    var i, j := |prev|, |curr|;
    while i > 0 && j > 0
      invariant 0 <= i <= |prev| && 0 <= j <= |curr|
      invariant Filled(dp, prev, curr, eq, |prev| + 1)
      invariant OnTheWay(prev, curr, eq, lcs, i, j)
      decreases i + j
    {
      if eq(prev[i - 1], curr[j - 1]) {
        var longer: Pairs := [(i - 1, j - 1)] + lcs;
        TakePair(prev, curr, eq, lcs, longer, i - 1, j - 1);
        lcs, i, j := longer, i - 1, j - 1;
      } else {
        SkipOne(prev, curr, eq, lcs, i, j);
        assert dp[i - 1, j] == Lcs(prev, curr, eq, i - 1, j) && dp[i, j - 1] == Lcs(prev, curr, eq, i, j - 1);
        if dp[i - 1, j] > dp[i, j - 1] {
          i := i - 1;
        } else {
          j := j - 1;
        }
      }
    }
    LatestKept(prev, curr, eq, lcs, i);
  }

  // ---------- the merged view ----------

  datatype Status = Unchanged | Added | Removed

  datatype Merged<T> = Merged(element: T, status: Status)

  /** The new array: everything that was not removed. */
  function NewSide<T>(view: seq<Merged<T>>): seq<T> {
    if view == [] then []
    else
      var last := view[|view| - 1];
      NewSide(view[..|view| - 1]) + if last.status == Removed then [] else [last.element]
  }

  /** The entries that stand for the old array: everything that was not added. */
  function OldSide<T>(view: seq<Merged<T>>): seq<Merged<T>> {
    if view == [] then []
    else
      var last := view[|view| - 1];
      OldSide(view[..|view| - 1]) + if last.status == Added then [] else [last]
  }

  function Edits<T>(view: seq<Merged<T>>): nat {
    if view == [] then 0 else Edits(view[..|view| - 1]) + if view[|view| - 1].status == Unchanged then 0 else 1
  }

  /** An entry stands for an old element: itself when removed, an equal one when unchanged. */
  predicate StandsFor<T(==)>(e: Merged<T>, was: T, eq: (T, T) -> bool) {
    if e.status == Removed then e.element == was else eq(was, e.element)
  }

  /** A script that turns the old array into the new one. */
  ghost predicate Script<T>(prev: seq<T>, curr: seq<T>, eq: (T, T) -> bool, view: seq<Merged<T>>) {
    && NewSide(view) == curr
    && |OldSide(view)| == |prev|
    && forall k :: 0 <= k < |prev| ==> StandsFor(OldSide(view)[k], prev[k], eq)
  }

  lemma {:induction false} LastEntry<T>(view: seq<Merged<T>>, e: Merged<T>)
    ensures NewSide(view + [e]) == NewSide(view) + if e.status == Removed then [] else [e.element]
    ensures OldSide(view + [e]) == OldSide(view) + if e.status == Added then [] else [e]
    ensures Edits(view + [e]) == Edits(view) + if e.status == Unchanged then 0 else 1
  {
    assert (view + [e])[..|view|] == view;
  }

  /** The view so far: a script for the first `i` and `j` elements with this many edits. */
  ghost predicate Covers<T>(prev: seq<T>, curr: seq<T>, eq: (T, T) -> bool, view: seq<Merged<T>>, i: nat, j: nat,
                            edits: int) {
    i <= |prev| && j <= |curr| && Script(prev[..i], curr[..j], eq, view) && Edits(view) == edits
  }

  lemma Remove<T>(prev: seq<T>, curr: seq<T>, eq: (T, T) -> bool, view: seq<Merged<T>>, i: nat, j: nat, edits: int)
    requires Covers(prev, curr, eq, view, i, j, edits) && i < |prev|
    ensures Covers(prev, curr, eq, view + [Merged(prev[i], Removed)], i + 1, j, edits + 1)
  {
    LastEntry(view, Merged(prev[i], Removed));
  }

  lemma Add<T>(prev: seq<T>, curr: seq<T>, eq: (T, T) -> bool, view: seq<Merged<T>>, i: nat, j: nat, edits: int)
    requires Covers(prev, curr, eq, view, i, j, edits) && j < |curr|
    ensures Covers(prev, curr, eq, view + [Merged(curr[j], Added)], i, j + 1, edits + 1)
  {
    LastEntry(view, Merged(curr[j], Added));
  }

  lemma Keep<T>(prev: seq<T>, curr: seq<T>, eq: (T, T) -> bool, view: seq<Merged<T>>, i: nat, j: nat, edits: int)
    requires Covers(prev, curr, eq, view, i, j, edits) && i < |prev| && j < |curr| && eq(prev[i], curr[j])
    ensures Covers(prev, curr, eq, view + [Merged(curr[j], Unchanged)], i + 1, j + 1, edits)
  {
    LastEntry(view, Merged(curr[j], Unchanged));
  }

  lemma NextIsBehind(lcs: Pairs, k: nat, m: nat, n: nat)
    requires k < |lcs| && Behind(lcs[k..], m, n)
    ensures m <= lcs[k].0
  {
    assert lcs[k..][0] == lcs[k];
  }

  lemma RestIsBehind<T>(prev: seq<T>, curr: seq<T>, eq: (T, T) -> bool, lcs: Pairs, k: nat)
    requires k < |lcs| && Matching(prev, curr, eq, lcs, |prev|, |curr|)
    ensures Behind(lcs[k + 1..], lcs[k].0 + 1, lcs[k].1 + 1)
  {
    var rest := lcs[k + 1..];
    forall l | 0 <= l < |rest|
      ensures lcs[k].0 < rest[l].0 && lcs[k].1 < rest[l].1
    {
      assert rest[l] == lcs[k + 1 + l];
    }
  }

  /** At the next match, or at the end when there is none. */
  predicate AtMatch(lcs: Pairs, k: nat, i: nat, j: nat, m: nat, n: nat) {
    if k < |lcs| then i == lcs[k].0 && j == lcs[k].1 else i == m && j == n
  }

  /** Pairs that lie within both arrays cannot lie behind them. */
  lemma NoneLeft(lcs: Pairs, k: nat, m: nat, n: nat)
    requires k <= |lcs| && Behind(lcs[k..], m, n) && forall l :: 0 <= l < |lcs| ==> lcs[l].0 < m
    ensures k == |lcs|
  {
    if k < |lcs| {
      NextIsBehind(lcs, k, m, n);
      assert false;
    }
  }

  /** Between two matches the removals come first: no added entry directly precedes a removed one. */
  ghost predicate RemovalsFirst<T>(view: seq<Merged<T>>) {
    forall k :: 0 < k < |view| ==> !(view[k - 1].status == Added && view[k].status == Removed)
  }

  ghost predicate EndsAdded<T>(view: seq<Merged<T>>) {
    view != [] && view[|view| - 1].status == Added
  }

  /** Merges both arrays along a longest common subsequence. */
  method ComputeMergedView<T>(prev: seq<T>, curr: seq<T>, eq: (T, T) -> bool) returns (view: seq<Merged<T>>)
    ensures Script(prev, curr, eq, view)
    ensures Edits(view) == |prev| + |curr| - 2 * Lcs(prev, curr, eq, |prev|, |curr|)
    ensures RemovalsFirst(view)
  {
    var lcs := ComputeLCS(prev, curr, eq);
    view := MergeAlong(prev, curr, eq, lcs);
  }

  /** The loop of the merge, along any matching. */
  method MergeAlong<T>(prev: seq<T>, curr: seq<T>, eq: (T, T) -> bool, lcs: Pairs) returns (view: seq<Merged<T>>)
    requires Matching(prev, curr, eq, lcs, |prev|, |curr|)
    ensures Script(prev, curr, eq, view)
    ensures Edits(view) == |prev| + |curr| - 2 * |lcs|
    ensures RemovalsFirst(view)
  {
    view := [];
    var i, j, k := 0, 0, 0;
    while i < |prev| || j < |curr|
      invariant k <= |lcs| && Behind(lcs[k..], i, j)
      invariant Covers(prev, curr, eq, view, i, j, i + j - 2 * k)
      invariant RemovalsFirst(view)
      invariant EndsAdded(view) ==> AtMatch(lcs, k, i, j, |prev|, |curr|)
      decreases |prev| + |curr| - i - j
    {
      if k < |lcs| {
        assert lcs[k] == lcs[k..][0];
      }
      if k < |lcs| && i == lcs[k].0 && j == lcs[k].1 {
        Keep(prev, curr, eq, view, i, j, i + j - 2 * k);
        view := view + [Merged(curr[j], Unchanged)];
        RestIsBehind(prev, curr, eq, lcs, k);
        i, j, k := i + 1, j + 1, k + 1;
      } else {
        var nextPrev := if k < |lcs| then lcs[k].0 else |prev|;
        var nextCurr := if k < |lcs| then lcs[k].1 else |curr|;
        view, i := EmitRemoved(prev, curr, eq, view, i, j, nextPrev, i + j - 2 * k);
        view, j := EmitAdded(prev, curr, eq, view, i, j, nextCurr, i + j - 2 * k);
      }
    }
    NoneLeft(lcs, k, |prev|, |curr|);
    assert prev[..i] == prev && curr[..j] == curr;
  }

  /** All removals up to the next match. */
  method EmitRemoved<T>(prev: seq<T>, curr: seq<T>, eq: (T, T) -> bool, start: seq<Merged<T>>, from: nat, j: nat,
                        next: nat, ghost edits: int)
    returns (view: seq<Merged<T>>, i: nat)
    requires Covers(prev, curr, eq, start, from, j, edits) && from <= next <= |prev|
    requires RemovalsFirst(start) && !EndsAdded(start)
    ensures i == next && Covers(prev, curr, eq, view, i, j, edits + next - from)
    ensures RemovalsFirst(view) && !EndsAdded(view)
  {
    view, i := start, from;
    while i < next
      invariant from <= i <= next && Covers(prev, curr, eq, view, i, j, edits + i - from)
      invariant RemovalsFirst(view) && !EndsAdded(view)
    {
      Remove(prev, curr, eq, view, i, j, edits + i - from);
      view, i := view + [Merged(prev[i], Removed)], i + 1;
    }
  }

  /** All additions up to the next match. */
  method EmitAdded<T>(prev: seq<T>, curr: seq<T>, eq: (T, T) -> bool, start: seq<Merged<T>>, i: nat, from: nat,
                      next: nat, ghost edits: int)
    returns (view: seq<Merged<T>>, j: nat)
    requires Covers(prev, curr, eq, start, i, from, edits) && from <= next <= |curr| && RemovalsFirst(start)
    ensures j == next && Covers(prev, curr, eq, view, i, j, edits + next - from) && RemovalsFirst(view)
  {
    view, j := start, from;
    while j < next
      invariant from <= j <= next && Covers(prev, curr, eq, view, i, j, edits + j - from) && RemovalsFirst(view)
    {
      Add(prev, curr, eq, view, i, j, edits + j - from);
      view, j := view + [Merged(curr[j], Added)], j + 1;
    }
  }

  // ---------- no script is shorter ----------

  lemma DropLast<T>(prev: seq<T>, curr: seq<T>, eq: (T, T) -> bool, view: seq<Merged<T>>, i: nat, j: nat)
    requires view != [] && i <= |prev| && j <= |curr| && Script(prev[..i], curr[..j], eq, view)
    ensures var last := view[|view| - 1];
            var rest := view[..|view| - 1];
            match last.status
            case Removed => i > 0 && Script(prev[..i - 1], curr[..j], eq, rest)
            case Added => j > 0 && Script(prev[..i], curr[..j - 1], eq, rest)
            case Unchanged =>
              i > 0 && j > 0 && eq(prev[i - 1], curr[j - 1]) && Script(prev[..i - 1], curr[..j - 1], eq, rest)
  {
    var last := view[|view| - 1];
    var rest := view[..|view| - 1];
    assert view == rest + [last];
    LastEntry(rest, last);
    if last.status != Added {
      assert OldSide(view)[i - 1] == last && prev[..i][i - 1] == prev[i - 1];
      assert OldSide(rest) == OldSide(view)[..i - 1];
    }
    if last.status != Removed {
      assert curr[..j][j - 1] == last.element;
      assert NewSide(rest) == curr[..j][..j - 1] == curr[..j - 1];
    }
  }

  lemma {:induction false} EditsBound<T>(prev: seq<T>, curr: seq<T>, eq: (T, T) -> bool, view: seq<Merged<T>>, i: nat,
                                         j: nat)
    requires i <= |prev| && j <= |curr| && Script(prev[..i], curr[..j], eq, view)
    ensures Edits(view) >= i + j - 2 * Lcs(prev, curr, eq, i, j)
    decreases |view|
  {
    if view != [] {
      var rest := view[..|view| - 1];
      DropLast(prev, curr, eq, view, i, j);
      LcsSteps(prev, curr, eq, i, j);
      match view[|view| - 1].status
      case Removed => EditsBound(prev, curr, eq, rest, i - 1, j);
      case Added => EditsBound(prev, curr, eq, rest, i, j - 1);
      case Unchanged => EditsBound(prev, curr, eq, rest, i - 1, j - 1);
    }
  }

  /** Every script that turns the old array into the new one has at least as many edits as the merged view. */
  lemma {:induction false} MergedViewIsMinimal<T>(prev: seq<T>, curr: seq<T>, eq: (T, T) -> bool, view: seq<Merged<T>>)
    requires Script(prev, curr, eq, view)
    ensures Edits(view) >= |prev| + |curr| - 2 * Lcs(prev, curr, eq, |prev|, |curr|)
  {
    assert prev[..|prev|] == prev && curr[..|curr|] == curr;
    EditsBound(prev, curr, eq, view, |prev|, |curr|);
  }
}
