/** Votes of one height across views: a pair of vote sets per view, opened on demand. */
module HeightVotes {
  import opened Types
  import opened Rosters
  import opened Ledgers
  import opened LedgerRuns

  /** What all vote sets of one height have in common. */
  datatype HeightSetup = HeightSetup(roster: Roster, quorum: seq<nat>, heights: map<Address, nat>)

  function SetupFor(c: HeightSetup, view: nat, kind: MsgType): Setup {
    Setup(c.roster, c.quorum, c.heights, view, kind)
  }

  predicate ValidHeight(c: HeightSetup) {
    c.roster != [] && |c.quorum| == |c.roster| && c.quorum[|c.quorum| - 1] > 0
  }

  datatype ViewVotes = ViewVotes(prevotes: Ledger, precommits: Ledger)

  datatype Hvs = Hvs(view: nat, views: map<nat, ViewVotes>, catchup: map<KramaID, seq<nat>>)

  function NewViewVotes(c: HeightSetup): ViewVotes {
    ViewVotes(Empty(SetupFor(c, 0, Prevote)), Empty(SetupFor(c, 0, Precommit)))
  }

  function NewHvs(c: HeightSetup): Hvs {
    Hvs(0, map[0 := NewViewVotes(c)], map[])
  }

  function GetVoteSet(h: Hvs, view: nat, kind: MsgType): Option<Ledger> {
    if view !in h.views then None
    else
      match kind
      case Prevote => Some(h.views[view].prevotes)
      case Precommit => Some(h.views[view].precommits)
      case OtherMsg => None
  }

  function PutVoteSet(h: Hvs, view: nat, kind: MsgType, l: Ledger): Hvs
    requires view in h.views
  {
    match kind
    case Prevote => h.(views := h.views[view := h.views[view].(prevotes := l)])
    case Precommit => h.(views := h.views[view := h.views[view].(precommits := l)])
    case OtherMsg => h
  }

  function AddView(c: HeightSetup, h: Hvs, view: nat): Hvs {
    h.(views := h.views[view := NewViewVotes(c)])
  }

  function MajorityAt(h: Hvs, view: nat, kind: MsgType): Option<Majority> {
    var l := GetVoteSet(h, view, kind);
    if l.None? then None else l.value.majority
  }

  function MajorityOf(h: Hvs, view: nat, kind: MsgType): Option<Hash> {
    var m := MajorityAt(h, view, kind);
    if m.None? then None else Some(m.value.hash)
  }

  function RoundsOf(h: Hvs, peer: KramaID): seq<nat> {
    if peer in h.catchup then h.catchup[peer] else []
  }

  // ---------- conditions on every view ----------

  /** A condition on all vote sets, whatever the condition is. */
  ghost predicate All(h: Hvs, ok: (nat, MsgType, Ledger) -> bool) {
    forall view :: view in h.views ==>
      ok(view, Prevote, h.views[view].prevotes) && ok(view, Precommit, h.views[view].precommits)
  }

  ghost function OfSize(c: HeightSetup): (nat, MsgType, Ledger) -> bool {
    (view: nat, kind: MsgType, l: Ledger) => Sized(SetupFor(c, view, kind), l)
  }

  ghost predicate Shaped(c: HeightSetup, h: Hvs) {
    ValidHeight(c) && All(h, OfSize(c))
  }

  ghost function Sound(c: HeightSetup): (nat, MsgType, Ledger) -> bool {
    (view: nat, kind: MsgType, l: Ledger) => LedgerOk(SetupFor(c, view, kind), l)
  }

  /** The accounts of every view and kind are in order. */
  ghost predicate HvsOk(c: HeightSetup, h: Hvs) {
    ValidHeight(c) && All(h, Sound(c))
  }

  // ---------- adding votes and certificates ----------

  /** The outcome of a call, or a panic: a view opened twice, or no vote set for the kind of the message. */
  datatype Outcome = Done(hvs: Hvs, result: Result<bool>) | Panic

  predicate FittingHere(c: HeightSetup, e: Event) {
    e.VoteIn? ==> |e.responded| == Total(c.roster)
  }

  function Add(s: Setup, l: Ledger, e: Event): (Ledger, Result<bool>)
    requires ValidSetup(s) && Sized(s, l) && Fitting(s, e)
  {
    match e
    case VoteIn(v, responded) => AddVote(s, responded, l, v)
    case QcIn(v) => AddQc(s, l, v)
  }

  function AddToOpen(c: HeightSetup, h: Hvs, e: Event): Outcome
    requires Shaped(c, h) && FittingHere(c, e) && GetVoteSet(h, e.vote.view, e.vote.kind).Some?
  {
    var v := e.vote;
    var r := Add(SetupFor(c, v.view, v.kind), GetVoteSet(h, v.view, v.kind).value, e);
    Done(PutVoteSet(h, v.view, v.kind, r.0), r.1)
  }

  /** The height's votes with one more view; a vote, unlike a certificate, uses up one of its sender's two rounds. */
  function Opened(c: HeightSetup, h: Hvs, e: Event, peer: KramaID): Hvs {
    var h' := AddView(c, h, e.vote.view);
    if e.QcIn? then h' else h'.(catchup := h.catchup[peer := RoundsOf(h, peer) + [e.vote.view]])
  }

  lemma PutKeeps(h: Hvs, view: nat, kind: MsgType, l: Ledger, ok: (nat, MsgType, Ledger) -> bool)
    requires All(h, ok) && view in h.views && ok(view, kind, l)
    ensures All(PutVoteSet(h, view, kind, l), ok)
  {
  }

  lemma OpenKeeps(c: HeightSetup, h: Hvs, e: Event, peer: KramaID, ok: (nat, MsgType, Ledger) -> bool)
    requires All(h, ok)
    requires ok(e.vote.view, Prevote, NewViewVotes(c).prevotes) &&
             ok(e.vote.view, Precommit, NewViewVotes(c).precommits)
    ensures All(Opened(c, h, e, peer), ok)
  {
  }

  lemma NewViewOfSize(c: HeightSetup, view: nat)
    ensures OfSize(c)(view, Prevote, NewViewVotes(c).prevotes)
    ensures OfSize(c)(view, Precommit, NewViewVotes(c).precommits)
  {
    assert Sized(SetupFor(c, view, Prevote), NewViewVotes(c).prevotes);
    assert Sized(SetupFor(c, view, Precommit), NewViewVotes(c).precommits);
  }

  lemma OpenedShaped(c: HeightSetup, h: Hvs, e: Event, peer: KramaID)
    requires Shaped(c, h)
    ensures Shaped(c, Opened(c, h, e, peer))
  {
    NewViewOfSize(c, e.vote.view);
    OpenKeeps(c, h, e, peer, OfSize(c));
  }

  function AddAt(c: HeightSetup, h: Hvs, e: Event, peer: KramaID): Outcome
    requires Shaped(c, h) && FittingHere(c, e)
  {
    var v := e.vote;
    if GetVoteSet(h, v.view, v.kind).Some? then AddToOpen(c, h, e)
    else if e.VoteIn? && |RoundsOf(h, peer)| >= 2 then Done(h, Err(TooManyCatchupRounds))
    else if v.view in h.views || v.kind == OtherMsg then Panic
    else
      OpenedShaped(c, h, e, peer);
      AddToOpen(c, Opened(c, h, e, peer), e)
  }

  /** What a panic leaves behind: the view that was opened for a message of unknown kind. */
  function AfterPanic(c: HeightSetup, h: Hvs, e: Event, peer: KramaID): Hvs {
    if e.vote.view in h.views then h else Opened(c, h, e, peer)
  }

  /** A certificate for a majority: none without a vote set, a panic without a majority. */
  datatype QcOutcome = Got(qc: Qc) | Missing(error: Error) | QcPanic

  function GetQC(h: Hvs, hash: Hash, view: nat, kind: MsgType): QcOutcome {
    var l := GetVoteSet(h, view, kind);
    if l.None? then Missing(NoVoteSet)
    else if l.value.majority.None? then QcPanic
    else
      var m := l.value.majority.value;
      if m.hash != hash then Missing(HashMismatch)
      else Got(Qc(kind, view, m.hash, m.bits, m.sig))
  }

  // ---------- moving to a view ----------

  /** The first view SetView looks at; one below the current view, which wraps around at view zero. */
  function NextRound(h: Hvs): nat
    requires h.view < TWO_64
  {
    (h.view + TWO_64 - 1) % TWO_64
  }

  /** The views from lo up to hi, opened where they are missing. */
  function WithViews(c: HeightSetup, views: map<nat, ViewVotes>, lo: nat, hi: nat): map<nat, ViewVotes>
    decreases hi
  {
    if hi <= lo then views
    else
      var rest := WithViews(c, views, lo, hi - 1);
      if hi - 1 in rest then rest else rest[hi - 1 := NewViewVotes(c)]
  }

  lemma {:induction false} WithViewsOpens(c: HeightSetup, views: map<nat, ViewVotes>, lo: nat, hi: nat)
    ensures var r := WithViews(c, views, lo, hi);
            && (forall w :: w in r <==> w in views || lo <= w < hi)
            && (forall w :: w in r ==> r[w] == if w in views then views[w] else NewViewVotes(c))
    decreases hi
  {
    if hi > lo {
      WithViewsOpens(c, views, lo, hi - 1);
    }
  }

  /** None is a panic: the height is already two views further on. */
  function SetViewTo(c: HeightSetup, h: Hvs, next: nat): Option<Hvs>
    requires h.view < TWO_64
  {
    if h.view != 0 && next < NextRound(h) then None
    else Some(h.(view := next, views := WithViews(c, h.views, NextRound(h), next + 1)))
  }

  /** From a view above zero: a panic exactly for a view two behind or more, otherwise the views from one below the
      current one up to the new one are open. From view zero nothing is opened. */
  lemma SetViewOpens(c: HeightSetup, h: Hvs, next: nat)
    requires h.view < TWO_64 && next + 1 < TWO_64
    ensures SetViewTo(c, h, next).None? <==> h.view > 0 && next + 1 < h.view
    ensures h.view == 0 ==> SetViewTo(c, h, next) == Some(h.(view := next))
    ensures h.view > 0 && next + 1 >= h.view ==>
              var h' := SetViewTo(c, h, next).value;
              && h'.view == next && h'.catchup == h.catchup
              && (forall w :: w in h'.views <==> w in h.views || h.view - 1 <= w <= next)
              && (forall w :: w in h.views ==> h'.views[w] == h.views[w])
              && (forall w :: w in h'.views && w !in h.views ==> h'.views[w] == NewViewVotes(c))
  {
    WithViewsOpens(c, h.views, NextRound(h), next + 1);
  }

  // ---------- the rounds a peer may open ----------

  lemma AddToOpenLeaves(c: HeightSetup, h: Hvs, e: Event)
    requires Shaped(c, h) && FittingHere(c, e) && GetVoteSet(h, e.vote.view, e.vote.kind).Some?
    ensures var h' := AddToOpen(c, h, e).hvs; h'.views.Keys == h.views.Keys && h'.catchup == h.catchup
  {
    var v := e.vote;
    PutLeaves(h, v.view, v.kind, Add(SetupFor(c, v.view, v.kind), GetVoteSet(h, v.view, v.kind).value, e).0);
  }

  lemma PutLeaves(h: Hvs, view: nat, kind: MsgType, l: Ledger)
    requires view in h.views
    ensures var h' := PutVoteSet(h, view, kind, l); h'.views.Keys == h.views.Keys && h'.catchup == h.catchup
  {
  }

  /** Which views are open, and which rounds are used up: a vote for an unknown view opens it and costs its sender a
      round, the third time it is refused; a certificate opens its view at no cost; nothing else opens a view. */
  lemma AddAtRounds(c: HeightSetup, h: Hvs, e: Event, peer: KramaID)
    requires Shaped(c, h) && FittingHere(c, e) && AddAt(c, h, e, peer).Done?
    ensures var o := AddAt(c, h, e, peer);
            var rounds := RoundsOf(h, peer);
            if e.vote.view in h.views then o.hvs.views.Keys == h.views.Keys && o.hvs.catchup == h.catchup
            else if e.VoteIn? && |rounds| >= 2 then o.hvs == h && o.result == Err(TooManyCatchupRounds)
            else
              && o.hvs.views.Keys == h.views.Keys + {e.vote.view}
              && o.hvs.catchup == if e.VoteIn? then h.catchup[peer := rounds + [e.vote.view]] else h.catchup
  {
    var v := e.vote;
    if GetVoteSet(h, v.view, v.kind).Some? {
      AddToOpenLeaves(c, h, e);
    } else if v.view !in h.views && v.kind != OtherMsg {
      OpenedShaped(c, h, e, peer);
      AddToOpenLeaves(c, Opened(c, h, e, peer), e);
    }
  }

  /** No peer has opened more than two views, and all of them are open and different. */
  ghost predicate RoundsOk(h: Hvs) {
    forall peer :: peer in h.catchup ==>
      && |h.catchup[peer]| <= 2 && (forall i :: 0 <= i < |h.catchup[peer]| ==> h.catchup[peer][i] in h.views)
      && (forall i, j :: 0 <= i < j < |h.catchup[peer]| ==> h.catchup[peer][i] != h.catchup[peer][j])
  }

  lemma AddAtRoundsOk(c: HeightSetup, h: Hvs, e: Event, peer: KramaID)
    requires Shaped(c, h) && FittingHere(c, e) && AddAt(c, h, e, peer).Done? && RoundsOk(h)
    ensures RoundsOk(AddAt(c, h, e, peer).hvs)
  {
    AddAtRounds(c, h, e, peer);
  }

  // ---------- what one message can change ----------

  /** Only the vote set of this view and kind may gain a majority; none is lost or changed, no view is dropped. */
  ghost predicate Extended(h: Hvs, h': Hvs, view: nat, kind: MsgType) {
    && h.view == h'.view && h.views.Keys <= h'.views.Keys
    && (forall w, k :: w != view || k != kind ==> MajorityAt(h', w, k) == MajorityAt(h, w, k))
    && (MajorityAt(h, view, kind).Some? ==> MajorityAt(h', view, kind) == MajorityAt(h, view, kind))
  }

  lemma {:induction false} AddEachStands(s: Setup, l: Ledger, v: Vote, indices: seq<nat>)
    requires ValidSetup(s) && Sized(s, l) && Below(indices, Total(s.roster)) && l.majority.Some?
    ensures AddEach(s, l, v, indices).majority == l.majority
    decreases |indices|
  {
    if indices != [] {
      AddEachStands(s, l, v, indices[..|indices| - 1]);
    }
  }

  lemma MajorityStands(s: Setup, l: Ledger, e: Event)
    requires ValidSetup(s) && Sized(s, l) && Fitting(s, e)
    ensures var r := Add(s, l, e); l.majority.Some? || r.1 != Ok(true) ==> r.0.majority == l.majority
  {
    if e.QcIn? && l.majority.Some? && Below(TrueIndices(e.vote.signers), Total(s.roster)) {
      AddEachStands(s, l, e.vote, TrueIndices(e.vote.signers));
    }
  }

  lemma PutExtends(h: Hvs, view: nat, kind: MsgType, l: Ledger)
    requires view in h.views && kind != OtherMsg
    requires var was := GetVoteSet(h, view, kind).value; was.majority.Some? ==> l.majority == was.majority
    ensures Extended(h, PutVoteSet(h, view, kind, l), view, kind)
  {
  }

  lemma {:induction false} WithViewsKeeps(c: HeightSetup, views: map<nat, ViewVotes>, lo: nat, hi: nat,
                                          ok: (nat, MsgType, Ledger) -> bool)
    requires All(Hvs(0, views, map[]), ok)
    requires forall w: nat :: ok(w, Prevote, NewViewVotes(c).prevotes) && ok(w, Precommit, NewViewVotes(c).precommits)
    ensures All(Hvs(0, WithViews(c, views, lo, hi), map[]), ok)
    decreases hi
  {
    if hi > lo {
      WithViewsKeeps(c, views, lo, hi - 1, ok);
    }
  }

  lemma SetViewShaped(c: HeightSetup, h: Hvs, next: nat)
    requires Shaped(c, h) && h.view < TWO_64
    ensures SetViewTo(c, h, next).Some? ==> Shaped(c, SetViewTo(c, h, next).value)
  {
    forall w: nat
      ensures OfSize(c)(w, Prevote, NewViewVotes(c).prevotes) && OfSize(c)(w, Precommit, NewViewVotes(c).precommits)
    {
      NewViewOfSize(c, w);
    }
    assert All(Hvs(0, h.views, map[]), OfSize(c));
    WithViewsKeeps(c, h.views, NextRound(h), next + 1, OfSize(c));
  }

  lemma AddToOpenExtends(c: HeightSetup, h: Hvs, e: Event)
    requires Shaped(c, h) && FittingHere(c, e) && GetVoteSet(h, e.vote.view, e.vote.kind).Some?
    ensures var o := AddToOpen(c, h, e);
            && Extended(h, o.hvs, e.vote.view, e.vote.kind)
            && (o.result != Ok(true) ==>
                  MajorityAt(o.hvs, e.vote.view, e.vote.kind) == MajorityAt(h, e.vote.view, e.vote.kind))
  {
    var v := e.vote;
    var s := SetupFor(c, v.view, v.kind);
    var l := GetVoteSet(h, v.view, v.kind).value;
    MajorityStands(s, l, e);
    PutExtends(h, v.view, v.kind, Add(s, l, e).0);
  }

  lemma AddToOpenShaped(c: HeightSetup, h: Hvs, e: Event)
    requires Shaped(c, h) && FittingHere(c, e) && GetVoteSet(h, e.vote.view, e.vote.kind).Some?
    ensures Shaped(c, AddToOpen(c, h, e).hvs)
  {
    var v := e.vote;
    var s := SetupFor(c, v.view, v.kind);
    var l := GetVoteSet(h, v.view, v.kind).value;
    assert Add(s, l, e).0 == Receive(s, l, e);
    PutKeeps(h, v.view, v.kind, Add(s, l, e).0, OfSize(c));
  }

  lemma OpenedMajorities(c: HeightSetup, h: Hvs, e: Event, peer: KramaID)
    requires e.vote.view !in h.views
    ensures forall w, k :: MajorityAt(Opened(c, h, e, peer), w, k) == MajorityAt(h, w, k)
  {
  }

  lemma AddAtShaped(c: HeightSetup, h: Hvs, e: Event, peer: KramaID)
    requires Shaped(c, h) && FittingHere(c, e) && AddAt(c, h, e, peer).Done?
    ensures Shaped(c, AddAt(c, h, e, peer).hvs)
  {
    var v := e.vote;
    if GetVoteSet(h, v.view, v.kind).Some? {
      AddToOpenShaped(c, h, e);
    } else if v.view !in h.views && v.kind != OtherMsg {
      OpenedShaped(c, h, e, peer);
      AddToOpenShaped(c, Opened(c, h, e, peer), e);
    }
  }

  /** What a message may do: it touches one vote set, loses no majority, and makes one only when it is added. */
  ghost predicate OnlyAdds(h: Hvs, e: Event, o: Outcome) {
    match o
    case Panic => e.vote.kind == OtherMsg
    case Done(h', result) =>
      && Extended(h, h', e.vote.view, e.vote.kind)
      && (result == Ok(true) ==> e.vote.view in h'.views && e.vote.kind != OtherMsg)
      && (result != Ok(true) ==> MajorityAt(h', e.vote.view, e.vote.kind) == MajorityAt(h, e.vote.view, e.vote.kind))
  }

  lemma NewViewOnlyAdds(c: HeightSetup, h: Hvs, e: Event, peer: KramaID)
    requires Shaped(c, Opened(c, h, e, peer)) && FittingHere(c, e) && e.vote.view !in h.views && e.vote.kind != OtherMsg
    ensures OnlyAdds(h, e, AddToOpen(c, Opened(c, h, e, peer), e))
  {
    OpenedMajorities(c, h, e, peer);
    AddToOpenExtends(c, Opened(c, h, e, peer), e);
  }

  /** Messages only add: a majority stands, and only a message that was added can make one. */
  lemma AddAtExtends(c: HeightSetup, h: Hvs, e: Event, peer: KramaID)
    requires Shaped(c, h) && FittingHere(c, e)
    ensures OnlyAdds(h, e, AddAt(c, h, e, peer))
  {
    var v := e.vote;
    if GetVoteSet(h, v.view, v.kind).Some? {
      AddToOpenExtends(c, h, e);
    } else if v.view !in h.views && v.kind != OtherMsg {
      OpenedShaped(c, h, e, peer);
      NewViewOnlyAdds(c, h, e, peer);
    }
  }

  // ---------- the accounts stay in order ----------

  lemma NewViewOk(c: HeightSetup, view: nat)
    requires ValidHeight(c)
    ensures Sound(c)(view, Prevote, NewViewVotes(c).prevotes)
    ensures Sound(c)(view, Precommit, NewViewVotes(c).precommits)
  {
    EmptyOk(SetupFor(c, view, Prevote));
    EmptyOk(SetupFor(c, view, Precommit));
  }

  lemma SetOk(h: Hvs, view: nat, kind: MsgType, ok: (nat, MsgType, Ledger) -> bool)
    requires All(h, ok) && GetVoteSet(h, view, kind).Some?
    ensures ok(view, kind, GetVoteSet(h, view, kind).value)
  {
  }

  lemma OkIsShaped(c: HeightSetup, h: Hvs)
    requires HvsOk(c, h)
    ensures Shaped(c, h)
  {
  }

  lemma AddToOpenOk(c: HeightSetup, h: Hvs, e: Event)
    requires HvsOk(c, h) && Shaped(c, h)
    requires FittingHere(c, e) && GetVoteSet(h, e.vote.view, e.vote.kind).Some?
    ensures HvsOk(c, AddToOpen(c, h, e).hvs)
  {
    var v := e.vote;
    var s := SetupFor(c, v.view, v.kind);
    var l := GetVoteSet(h, v.view, v.kind).value;
    SetOk(h, v.view, v.kind, Sound(c));
    ReceiveKeeps(s, l, e);
    PutKeeps(h, v.view, v.kind, Add(s, l, e).0, Sound(c));
  }

  /** A vote or certificate keeps the accounts of every view and kind in order. */
  lemma AddAtOk(c: HeightSetup, h: Hvs, e: Event, peer: KramaID)
    requires HvsOk(c, h) && Shaped(c, h) && FittingHere(c, e) && AddAt(c, h, e, peer).Done?
    ensures HvsOk(c, AddAt(c, h, e, peer).hvs)
  {
    var v := e.vote;
    if GetVoteSet(h, v.view, v.kind).Some? {
      AddToOpenOk(c, h, e);
    } else if v.view !in h.views && v.kind != OtherMsg {
      OpenedShaped(c, h, e, peer);
      NewViewOk(c, v.view);
      OpenKeeps(c, h, e, peer, Sound(c));
      AddToOpenOk(c, Opened(c, h, e, peer), e);
    }
  }

  lemma MajorityMeetsAlone(s: Setup, l: Ledger)
    requires LedgerOk(s, l) && l.majority.Some?
    ensures |l.majority.value.bits| == Total(s.roster) && Meets(s.roster, s.quorum, l.majority.value.bits)
  {
  }

  /** A certificate is handed out exactly for a majority; a vote set without one panics. */
  lemma CertificateIffMajority(h: Hvs, hash: Hash, view: nat, kind: MsgType)
    ensures var o := GetQC(h, hash, view, kind);
            && (o.Got? <==> MajorityOf(h, view, kind) == Some(hash))
            && (o.Got? ==> o.qc.kind == kind && o.qc.view == view && o.qc.hash == hash)
            && (o.Got? ==> var m := MajorityAt(h, view, kind).value; o.qc.signers == m.bits && o.qc.sig == m.sig)
            && (o.QcPanic? <==> view in h.views && kind != OtherMsg && MajorityOf(h, view, kind) == None)
  {
  }

  /** The signers of every certificate handed out meet every threshold alone. */
  lemma CertificateMeets(c: HeightSetup, h: Hvs, hash: Hash, view: nat, kind: MsgType)
    requires HvsOk(c, h) && GetQC(h, hash, view, kind).Got?
    ensures var qc := GetQC(h, hash, view, kind).qc;
            |qc.signers| == Total(c.roster) && Meets(c.roster, c.quorum, qc.signers)
  {
    SetOk(h, view, kind, Sound(c));
    MajorityMeetsAlone(SetupFor(c, view, kind), GetVoteSet(h, view, kind).value);
  }

  /** The loop of SetView, on the map of views. */
  method OpenViews(c: HeightSetup, was: map<nat, ViewVotes>, lo: nat, hi: nat) returns (views: map<nat, ViewVotes>)
    ensures views == WithViews(c, was, lo, hi + 1)
  {
    views := was;
    var r := lo;
    while r <= hi
      invariant lo <= r && (r <= hi + 1 || hi < lo)
      invariant views == WithViews(c, was, lo, if hi < lo then hi + 1 else r)
    {
      if r !in views {
        views := views[r := NewViewVotes(c)];
      }
      r := r + 1;
    }
  }

  /** The votes of one height, as the engine keeps them. */
  class HeightVoteSet {
    const setup: HeightSetup
    var view: nat
    var viewVoteSet: map<nat, ViewVotes>
    var peerCatchupRounds: map<KramaID, seq<nat>>

    ghost function Value(): Hvs
      reads this
    {
      Hvs(view, viewVoteSet, peerCatchupRounds)
    }

    constructor (setup: HeightSetup)
      requires ValidHeight(setup)
      ensures this.setup == setup && Value() == NewHvs(setup) && HvsOk(setup, Value())
    {
      this.setup := setup;
      view := 0;
      viewVoteSet := map[0 := NewViewVotes(setup)];
      peerCatchupRounds := map[];
      NewViewOk(setup, 0);
    }

    method Get(view: nat, kind: MsgType) returns (l: Option<Ledger>)
      ensures l == GetVoteSet(Value(), view, kind)
    {
      if view !in viewVoteSet {
        return None;
      }
      match kind
      case Prevote => return Some(viewVoteSet[view].prevotes);
      case Precommit => return Some(viewVoteSet[view].precommits);
      case OtherMsg => return None;
    }

    method Majority(view: nat, kind: MsgType) returns (hash: Option<Hash>)
      ensures hash == MajorityOf(Value(), view, kind)
    {
      var l := Get(view, kind);
      return if l.None? || l.value.majority.None? then None else Some(l.value.majority.value.hash);
    }

    method Certificate(hash: Hash, view: nat, kind: MsgType) returns (o: QcOutcome)
      ensures o == GetQC(Value(), hash, view, kind)
    {
      var l := Get(view, kind);
      if l.None? {
        return Missing(NoVoteSet);
      }
      if l.value.majority.None? {
        return QcPanic;
      }
      var m := l.value.majority.value;
      return if m.hash != hash then Missing(HashMismatch) else Got(Qc(kind, view, m.hash, m.bits, m.sig));
    }

    /** None is a panic. */
    method AddVote(v: Vote, responded: seq<bool>, peer: KramaID) returns (result: Option<Result<bool>>)
      requires Shaped(setup, Value()) && FittingHere(setup, VoteIn(v, responded))
      modifies this
      ensures var o := AddAt(setup, old(Value()), VoteIn(v, responded), peer);
              match o
              case Done(h, r) => Value() == h && result == Some(r)
              case Panic => result == None && Value() == AfterPanic(setup, old(Value()), VoteIn(v, responded), peer)
    {
      var h := Hvs(view, viewVoteSet, peerCatchupRounds);
      var e := VoteIn(v, responded);
      if GetVoteSet(h, v.view, v.kind).None? {
        var rounds := RoundsOf(h, peer);
        if |rounds| >= 2 {
          return Some(Err(TooManyCatchupRounds));
        }
        if v.view in viewVoteSet {
          return None;
        }
        OpenedShaped(setup, h, e, peer);
        viewVoteSet := viewVoteSet[v.view := NewViewVotes(setup)];
        peerCatchupRounds := peerCatchupRounds[peer := rounds + [v.view]];
        if v.kind == OtherMsg {
          return None;
        }
        h := Hvs(view, viewVoteSet, peerCatchupRounds);
      }
      var o := AddToOpen(setup, h, e);
      viewVoteSet := o.hvs.views;
      return Some(o.result);
    }

    method AddQC(v: Vote, peer: KramaID) returns (result: Option<Result<bool>>)
      requires Shaped(setup, Value())
      modifies this
      ensures var o := AddAt(setup, old(Value()), QcIn(v), peer);
              match o
              case Done(h, r) => Value() == h && result == Some(r)
              case Panic => result == None && Value() == AfterPanic(setup, old(Value()), QcIn(v), peer)
    {
      var h := Hvs(view, viewVoteSet, peerCatchupRounds);
      if GetVoteSet(h, v.view, v.kind).None? {
        if v.view in viewVoteSet {
          return None;
        }
        OpenedShaped(setup, h, QcIn(v), peer);
        viewVoteSet := viewVoteSet[v.view := NewViewVotes(setup)];
        if v.kind == OtherMsg {
          return None;
        }
        h := Hvs(view, viewVoteSet, peerCatchupRounds);
      }
      var o := AddToOpen(setup, h, QcIn(v));
      viewVoteSet := o.hvs.views;
      return Some(o.result);
    }

    /** Opens the missing views from one below the current view on; at view zero that start wraps and opens none. */
    method SetView(next: nat) returns (panicked: bool)
      requires view < TWO_64 && next < TWO_64 - 1
      modifies this
      ensures match SetViewTo(setup, old(Value()), next)
              case Some(h) => !panicked && Value() == h
              case None => panicked && Value() == old(Value())
      ensures old(view) == 0 ==> viewVoteSet == old(viewVoteSet)
      ensures panicked <==> old(view) > 0 && next + 1 < old(view)
      ensures old(view) > 0 && !panicked ==>
                forall w :: w in viewVoteSet <==> w in old(viewVoteSet) || old(view) - 1 <= w <= next
    {
      SetViewOpens(setup, Value(), next);
      var round := (view + TWO_64 - 1) % TWO_64;
      if view != 0 && next < round {
        return true;
      }
      viewVoteSet := OpenViews(setup, viewVoteSet, round, next);
      view := next;
      return false;
    }
  }
}
