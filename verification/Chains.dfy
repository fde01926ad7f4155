/** Participant chains: what validation lets into a node's history, and the order that follows from it. */
module Chains {
  import opened Types
  import opened Rosters
  import opened Ledgers
  import opened QuorumCerts

  /** A node's history: the tesseracts it can look up. */
  type Store = set<Tesseract>

  /** Checks that other components answer: the seal, the certificate, and whether a tesseract opens an account. */
  datatype Checks = Checks(
    sealed: Tesseract -> bool,
    signed: Tesseract -> Result<bool>,
    initial: (Tesseract, Address) -> Option<bool>)

  // A missing participant reads as height zero and a nil link.
  function HeightOf(t: Tesseract, a: Address): nat {
    if a in t.heights then t.heights[a] else 0
  }

  function LinkOf(t: Tesseract, a: Address): Hash {
    if a in t.links then t.links[a] else NilHash
  }

  predicate KnownAt(store: Store, a: Address, h: nat) {
    exists t :: t in store && a in t.heights && t.heights[a] == h
  }

  predicate CanFetch(store: Store, h: Hash) {
    h.HashOf? && h.t in store
  }

  // ---------- validation ----------

  /** What is wrong with the step of one participant, if anything. */
  function Transition(store: Store, checks: Checks, t: Tesseract, a: Address): Option<Error> {
    var initial := checks.initial(t, a);
    if initial.None? then Some(KeyNotFound)
    else if initial.value then None
    else if a in t.locks && t.locks[a] != MutateLock then None
    else if !CanFetch(store, LinkOf(t, a)) then Some(PreviousTesseractNotFound)
    else
      var parent := LinkOf(t, a).t;
      if HeightOf(parent, a) != (HeightOf(t, a) + TWO_64 - 1) % TWO_64 then Some(InvalidHeight)
      else if t.timestamp < parent.timestamp then Some(InvalidBlockTime)
      else None
  }

  /** The participant's account lookup answers, and it either opens its account, or is not locked for change, or has a
      known parent one height below, in 64-bit arithmetic, and no younger than itself. */
  ghost predicate RightStep(store: Store, checks: Checks, t: Tesseract, a: Address) {
    && checks.initial(t, a).Some?
    && (!checks.initial(t, a).value && (a !in t.locks || t.locks[a] == MutateLock) ==>
          && a in t.links && t.links[a].HashOf? && t.links[a].t in store
          && HeightOf(t.links[a].t, a) == (if HeightOf(t, a) == 0 then TWO_64 - 1 else HeightOf(t, a) - 1)
          && t.links[a].t.timestamp <= t.timestamp)
  }

  /** A step is right exactly when nothing is found wrong with it; in particular a participant that is not locked for
      change is never at fault once its account lookup answers, and each fault has its own error. */
  lemma TransitionIff(store: Store, checks: Checks, t: Tesseract, a: Address)
    requires HeightOf(t, a) < TWO_64
    ensures Transition(store, checks, t, a).None? <==> RightStep(store, checks, t, a)
    ensures a in t.locks && t.locks[a] != MutateLock && checks.initial(t, a).Some? ==>
              Transition(store, checks, t, a).None?
    ensures Transition(store, checks, t, a) == Some(KeyNotFound) <==> checks.initial(t, a).None?
    ensures Transition(store, checks, t, a) == Some(InvalidBlockTime) ==>
              LinkOf(t, a).HashOf? && LinkOf(t, a).t in store && t.timestamp < LinkOf(t, a).t.timestamp
  {
  }

  function Checked(t: Tesseract, addr: Address, addrs: seq<Address>, all: bool): seq<Address> {
    if t.view == GENESIS_VIEW then [] else if all then addrs else [addr]
  }

  ghost predicate Passes(store: Store, checks: Checks, t: Tesseract, pending: seq<Address>) {
    forall i :: 0 <= i < |pending| ==> Transition(store, checks, t, pending[i]).None?
  }

  /** The original tesseract is not looked at; otherwise every listed participant, or only the given one, takes a right
      step. */
  lemma PassesIff(store: Store, checks: Checks, t: Tesseract, addr: Address, addrs: seq<Address>, all: bool)
    requires forall a :: a in t.heights ==> t.heights[a] < TWO_64
    ensures Passes(store, checks, t, Checked(t, addr, addrs, all)) <==>
            || t.view == GENESIS_VIEW
            || if all then forall i :: 0 <= i < |addrs| ==> RightStep(store, checks, t, addrs[i])
               else RightStep(store, checks, t, addr)
  {
    forall a | HeightOf(t, a) < TWO_64
      ensures Transition(store, checks, t, a).None? <==> RightStep(store, checks, t, a)
    {
      TransitionIff(store, checks, t, a);
    }
    if t.view != GENESIS_VIEW && !all {
      assert Checked(t, addr, addrs, all)[0] == addr;
    }
  }

  ghost predicate FirstWrong(store: Store, checks: Checks, t: Tesseract, pending: seq<Address>, i: int) {
    && 0 <= i < |pending| && Transition(store, checks, t, pending[i]).Some?
    && forall j :: 0 <= j < i ==> Transition(store, checks, t, pending[j]).None?
  }

  /** Reports the first participant whose step is wrong. */
  method VerifyEach(store: Store, checks: Checks, t: Tesseract, pending: seq<Address>) returns (err: Option<Error>)
    ensures err.None? <==> Passes(store, checks, t, pending)
    ensures err.Some? ==>
              exists i :: FirstWrong(store, checks, t, pending, i) && Transition(store, checks, t, pending[i]) == err
  {
    for i := 0 to |pending|
      invariant forall j :: 0 <= j < i ==> Transition(store, checks, t, pending[j]).None?
    {
      var a := pending[i];
      assert Transition(store, checks, t, a).Some? ==> FirstWrong(store, checks, t, pending, i);
      var initial := checks.initial(t, a);
      if initial.None? {
        return Some(KeyNotFound);
      }
      if initial.value {
        continue;
      }
      if a in t.locks && t.locks[a] != MutateLock {
        continue;
      }
      var link := LinkOf(t, a);
      if !(link.HashOf? && link.t in store) {
        return Some(PreviousTesseractNotFound);
      }
      if HeightOf(link.t, a) != (HeightOf(t, a) + TWO_64 - 1) % TWO_64 {
        return Some(InvalidHeight);
      }
      if t.timestamp < link.t.timestamp {
        return Some(InvalidBlockTime);
      }
    }
    return None;
  }

  method VerifyTransitions(store: Store, checks: Checks, t: Tesseract, addr: Address, addrs: seq<Address>, all: bool)
    returns (err: Option<Error>)
    ensures (forall a :: a in t.heights ==> t.heights[a] < TWO_64) ==>
              (err.None? <==>
                 || t.view == GENESIS_VIEW
                 || if all then forall i :: 0 <= i < |addrs| ==> RightStep(store, checks, t, addrs[i])
                    else RightStep(store, checks, t, addr))
    ensures var pending := Checked(t, addr, addrs, all);
            && (err.None? <==> Passes(store, checks, t, pending))
            && (err.Some? ==>
                  exists i ::
                    FirstWrong(store, checks, t, pending, i) && Transition(store, checks, t, pending[i]) == err)
  {
    if forall a :: a in t.heights ==> t.heights[a] < TWO_64 {
      PassesIff(store, checks, t, addr, addrs, all);
    }
    if t.view == GENESIS_VIEW {
      return None;
    }
    err := VerifyEach(store, checks, t, if all then addrs else [addr]);
  }

  /** A tesseract as it is offered: the account it is validated for, and whether all its participants are checked. */
  datatype Offer = Offer(t: Tesseract, addr: Address, addrs: seq<Address>, all: bool)

  // A certificate that fails its signature check without an error is wrapped into no error, and so is let through.
  ghost predicate Admits(store: Store, checks: Checks, o: Offer) {
    && !KnownAt(store, o.addr, HeightOf(o.t, o.addr))
    && checks.sealed(o.t)
    && Passes(store, checks, o.t, Checked(o.t, o.addr, o.addrs, o.all))
    && checks.signed(o.t).Ok?
  }

  method ValidateTesseract(store: Store, checks: Checks, o: Offer) returns (err: Option<Error>)
    ensures err.None? <==> Admits(store, checks, o)
    ensures err == Some(AlreadyKnown) <==> KnownAt(store, o.addr, HeightOf(o.t, o.addr))
  {
    var h := HeightOf(o.t, o.addr);
    if exists t :: t in store && o.addr in t.heights && t.heights[o.addr] == h {
      return Some(AlreadyKnown);
    }
    if !checks.sealed(o.t) {
      return Some(InvalidSeal);
    }
    err := VerifyTransitions(store, checks, o.t, o.addr, o.addrs, o.all);
    if err.None? {
      match checks.signed(o.t)
      case Ok(_) =>
      case Err(_) => return Some(SignatureVerificationFailed);
    }
  }

  /** The answer of the batch check for a tesseract's commit certificate. */
  ghost predicate AnswersFor(answer: Result<bool>, r: Roster, sizes: seq<nat>, excluded: seq<bool>, view: nat, qc: Qc)
    requires |r| == |sizes| == |excluded| + 1
  {
    var bits := Clip(qc.signers, Total(r));
    && (answer.Ok? <==> Meets(r, Thresholds(sizes, excluded), bits))
    && (answer.Ok? ==> (answer.value <==> SignedBy(qc.sig, CanonicalVote(qc.kind, view, qc.hash), r, bits)))
  }

  /** The certificate of an admitted tesseract meets every threshold, and is signed exactly when the check said so. */
  lemma AdmittedCertificate(store: Store, checks: Checks, o: Offer, r: Roster, sizes: seq<nat>, excluded: seq<bool>,
                            qc: Qc)
    requires |r| == |sizes| == |excluded| + 1 && Admits(store, checks, o)
    requires AnswersFor(checks.signed(o.t), r, sizes, excluded, o.t.view, qc)
    ensures var bits := Clip(qc.signers, Total(r));
            && Meets(r, Thresholds(sizes, excluded), bits)
            && (SignedBy(qc.sig, CanonicalVote(qc.kind, o.t.view, qc.hash), r, bits) <==>
                  checks.signed(o.t) == Ok(true))
  {
    assert checks.signed(o.t).Ok?;
  }

  /** The second case is real: a certificate of the only validator with nobody's signature is let through. */
  lemma UnsignedIsAdmitted() returns (checks: Checks, o: Offer, r: Roster, qc: Qc)
    ensures Admits({}, checks, o)
    ensures |r| == 1 && AnswersFor(checks.signed(o.t), r, [1], [], o.t.view, qc) && checks.signed(o.t) == Ok(false)
  {
    var t := Tesseract(0, map[1 := 0], map[], map[], {}, 0, GENESIS_VIEW);
    var msg := CanonicalVote(Precommit, t.view, HashOf(t));
    r := [[NodeInfo(1, 7)]];
    qc := Qc(Precommit, t.view, HashOf(t), [true], Signature(msg, multiset{}));
    checks := Checks(_ => true, _ => Ok(false), (_, _) => Some(true));
    o := Offer(t, 1, [1], false);
    var bits := Clip(qc.signers, Total(r));
    assert Offset(r, 1) == Offset(r, 0) + 1;
    assert bits == [true] && bits[..0] == [];
    assert Locate(r, 0).set_ == 0;
    WeightIs(r, 0, 0);
    assert Tally(r, bits, 0) == Tally(r, [], 0) + Weight(r, 0, 0);
    assert 0 in TrueIndices(bits);
    assert |KeysAt(r, TrueIndices(bits))| > 0;
    assert |multiset(KeysAt(r, TrueIndices(bits)))| > 0;
  }

  // ---------- one step ----------

  /** The edge of `t` for participant `p` leads one height down, into the store, and not forward in time. */
  ghost predicate Linked(store: Store, t: Tesseract, p: Address) {
    p in t.heights && t.heights[p] > 0 ==>
      && CanFetch(store, LinkOf(t, p))
      && var parent := LinkOf(t, p).t;
         p in parent.heights && parent.heights[p] + 1 == t.heights[p] && parent.timestamp <= t.timestamp
  }

  /** What is fixed outside the check: heights are 64-bit, an account is opened at height zero and only there,
      the genesis view only opens accounts, the account is locked for change, and it is the one validated. */
  ghost predicate Regular(checks: Checks, o: Offer, p: Address) {
    p in o.t.heights ==>
      && o.addr == p && (o.all ==> p in o.addrs)
      && o.t.heights[p] < TWO_64
      && (checks.initial(o.t, p) == Some(true) <==> o.t.heights[p] == 0)
      && (o.t.view == GENESIS_VIEW ==> o.t.heights[p] == 0)
      && (p in o.t.locks ==> o.t.locks[p] == MutateLock)
  }

  /** The second tesseract of an account links to a tesseract of that account. */
  ghost predicate StartsOwnChain(t: Tesseract, p: Address) {
    p in t.heights && t.heights[p] == 1 && LinkOf(t, p).HashOf? ==> p in LinkOf(t, p).t.heights
  }

  /** Validation makes the edge of a participant right, except that a tesseract at height one may point to a tesseract
      the participant is not part of, which reads as height zero. */
  lemma LinkedIffOwn(store: Store, checks: Checks, o: Offer, p: Address)
    requires Admits(store, checks, o) && Regular(checks, o, p)
    ensures Linked(store, o.t, p) <==> StartsOwnChain(o.t, p)
  {
    if p in o.t.heights && o.t.heights[p] > 0 {
      var pending := Checked(o.t, o.addr, o.addrs, o.all);
      var i :| 0 <= i < |pending| && pending[i] == p;
      assert Transition(store, checks, o.t, p).None?;
    }
  }

  /** The exception is real: an account's second tesseract that links to a stranger's first one is admitted. */
  lemma StrangerParentIsAdmitted() returns (store: Store, checks: Checks, o: Offer, p: Address)
    ensures Admits(store, checks, o) && Regular(checks, o, p) && !Linked(store, o.t, p)
  {
    p := 1;
    var stranger := Tesseract(0, map[2 := 0], map[], map[], {}, 0, GENESIS_VIEW);
    var t := Tesseract(0, map[p := 1], map[p := HashOf(stranger)], map[], {}, 0, 5);
    store := {stranger};
    checks := Checks(_ => true, _ => Ok(true), (u: Tesseract, a: Address) => Some(a in u.heights && u.heights[a] == 0));
    o := Offer(t, p, [p], false);
    assert LinkOf(t, p) == HashOf(stranger);
  }

  // ---------- whole histories ----------

  ghost function Grow(checks: Checks, offers: seq<Offer>): Store
    decreases |offers|
  {
    if offers == [] then {}
    else
      var store := Grow(checks, offers[..|offers| - 1]);
      var o := offers[|offers| - 1];
      if Admits(store, checks, o) then store + {o.t} else store
  }

  ghost predicate AllRegular(checks: Checks, offers: seq<Offer>, p: Address) {
    forall i :: 0 <= i < |offers| ==> Regular(checks, offers[i], p) && StartsOwnChain(offers[i].t, p)
  }

  ghost predicate SameHeight(t: Tesseract, u: Tesseract, p: Address) {
    p in t.heights && p in u.heights && t.heights[p] == u.heights[p]
  }

  ghost predicate OnePerHeight(store: Store, p: Address) {
    forall t, u :: t in store && u in store && SameHeight(t, u, p) ==> t == u
  }

  ghost predicate AllLinked(store: Store, p: Address) {
    forall t :: t in store ==> Linked(store, t, p)
  }

  /** One tesseract per height, and every edge leads one height down. */
  ghost predicate Linear(store: Store, p: Address) {
    OnePerHeight(store, p) && AllLinked(store, p)
  }

  lemma AdmittedIsOnlyOne(store: Store, t: Tesseract, p: Address)
    requires OnePerHeight(store, p) && (p in t.heights ==> !KnownAt(store, p, t.heights[p]))
    ensures OnePerHeight(store + {t}, p)
  {
  }

  lemma AdmittedKeepsLinear(store: Store, checks: Checks, o: Offer, p: Address)
    requires Linear(store, p) && Admits(store, checks, o) && Regular(checks, o, p) && StartsOwnChain(o.t, p)
    ensures Linear(store + {o.t}, p)
  {
    LinkedIffOwn(store, checks, o, p);
    AdmittedIsOnlyOne(store, o.t, p);
  }

  lemma {:induction false} HistoriesAreLinear(checks: Checks, offers: seq<Offer>, p: Address)
    requires AllRegular(checks, offers, p)
    ensures Linear(Grow(checks, offers), p)
    decreases |offers|
  {
    if offers != [] {
      var n := |offers| - 1;
      HistoriesAreLinear(checks, offers[..n], p);
      if Admits(Grow(checks, offers[..n]), checks, offers[n]) {
        AdmittedKeepsLinear(Grow(checks, offers[..n]), checks, offers[n], p);
      }
    }
  }

  /** The number of edges labelled `p` down to the tesseract that opened the account. */
  ghost function PathLength(t: Tesseract, p: Address): nat
    decreases t
  {
    if p in t.heights && t.heights[p] > 0 && p in t.links &&
      t.links[p].HashOf? then PathLength(t.links[p].t, p) + 1 else 0
  }

  /** The tesseract `k` edges down. */
  ghost function Down(t: Tesseract, p: Address, k: nat): Tesseract
    decreases k
  {
    if k == 0 || !(p in t.links && t.links[p].HashOf?) then t else Down(t.links[p].t, p, k - 1)
  }

  lemma {:induction false} WalkDown(store: Store, t: Tesseract, p: Address, k: nat)
    requires Linear(store, p) && t in store && p in t.heights && k <= t.heights[p]
    ensures var u := Down(t, p, k);
            && u in store && p in u.heights && u.heights[p] == t.heights[p] - k
            && u.timestamp <= t.timestamp && Ancestor(HashOf(u), HashOf(t), p)
    decreases k
  {
    if k > 0 {
      assert Linked(store, t, p);
      WalkDown(store, t.links[p].t, p, k - 1);
    }
  }

  lemma {:induction false} HeightIsPathLength(store: Store, t: Tesseract, p: Address)
    requires Linear(store, p) && t in store && p in t.heights
    ensures PathLength(t, p) == t.heights[p]
    decreases t
  {
    assert Linked(store, t, p);
    if t.heights[p] > 0 {
      HeightIsPathLength(store, t.links[p].t, p);
    }
  }

  lemma {:induction false} LowerIsAncestor(store: Store, a: Tesseract, b: Tesseract, p: Address)
    requires Linear(store, p) && a in store && b in store && p in a.heights && p in b.heights
    requires a.heights[p] <= b.heights[p]
    ensures Ancestor(HashOf(a), HashOf(b), p) && a.timestamp <= b.timestamp
  {
    WalkDown(store, b, p, b.heights[p] - a.heights[p]);
  }

  ghost function LinkDepth(h: Hash, p: Address): nat
    decreases h
  {
    if h.HashOf? && p in h.t.links then LinkDepth(h.t.links[p], p) + 1 else 0
  }

  lemma {:induction false} AncestorIsShallower(a: Hash, b: Hash, p: Address)
    requires Ancestor(a, b, p)
    ensures a == b || LinkDepth(a, p) < LinkDepth(b, p)
    decreases b
  {
    if a != b {
      AncestorIsShallower(a, b.t.links[p], p);
    }
  }

  /** The ancestor relation never runs in a circle; with AncestorTransitive it is a partial order. */
  lemma {:induction false} AncestorAntisymmetric(a: Hash, b: Hash, p: Address)
    requires Ancestor(a, b, p) && Ancestor(b, a, p)
    ensures a == b
  {
    AncestorIsShallower(a, b, p);
    AncestorIsShallower(b, a, p);
  }

  /** In every history of a participant that is locked for change: one tesseract per height, the height is the length
      of the path to the tesseract that opened the account, time does not run backwards along it, and of any two
      tesseracts the lower one is an ancestor of the higher one. */
  lemma {:induction false} ParticipantChain(checks: Checks, offers: seq<Offer>, p: Address, t: Tesseract, u: Tesseract)
    requires AllRegular(checks, offers, p)
    requires t in Grow(checks, offers) && u in Grow(checks, offers)
    requires p in t.heights && p in u.heights && t.heights[p] <= u.heights[p]
    ensures t.heights[p] == u.heights[p] ==> t == u
    ensures PathLength(t, p) == t.heights[p]
    ensures t.timestamp <= u.timestamp
    ensures Ancestor(HashOf(t), HashOf(u), p)
  {
    var store := Grow(checks, offers);
    HistoriesAreLinear(checks, offers, p);
    HeightIsPathLength(store, t, p);
    LowerIsAncestor(store, t, u, p);
  }
}
