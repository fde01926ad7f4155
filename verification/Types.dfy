/** Values shared by every layer of the consensus model. */
module Types {

  datatype Option<+T> = None | Some(value: T)

  datatype Result<+T> = Ok(value: T) | Err(error: Error)

  datatype Error =
    | InvalidVote
    | InvalidViewOrHeight
    | InvalidValidator
    | DifferentSignature
    | SignatureVerificationFailed
    | ConflictingVote
    | PublicKeyNotFound
    | ContextQuorumFailed
    | RandomQuorumFailed
    | TooManyCatchupRounds
    | NoVoteSet
    | HashMismatch
    | KeyNotFound
    | ViewOrderMismatch
    | InvalidQc
    | AlreadyKnown
    | PreviousTesseractNotFound
    | InvalidHeight
    | InvalidBlockTime
    | InvalidSeal

  // Addresses are ordered by their bytes, node ids and keys only compared.
  type Address = nat
  type KramaID = nat
  type Key = nat
  type ClusterID = nat

  const GENESIS_VIEW: nat := 0

  datatype MsgType = Prevote | Precommit | OtherMsg

  // From the strongest lock to none: only a mutate lock lets an interaction change the account.
  datatype LockType = MutateLock | ReadLock | NoLock

  /** An ideal hash: two tesseracts have the same hash only when they are the same tesseract. */
  datatype Hash = NilHash | HashOf(t: Tesseract)

  /** One entry of the multi-linked DAG. `links` holds, per participant, the hash of its p-parent. */
  datatype Tesseract = Tesseract(
    ixns: nat,
    heights: map<Address, nat>,
    links: map<Address, Hash>,
    locks: map<Address, LockType>,
    excluded: set<Address>,
    timestamp: nat,
    view: nat)

  /** The part of a vote that is signed: neither the heights nor the signer are covered. */
  datatype CanonicalVote = CanonicalVote(kind: MsgType, view: nat, hash: Hash)

  /** An ideal aggregate signature: the signed content and how often each key signed it. */
  datatype Signature = Signature(msg: CanonicalVote, keys: multiset<Key>)

  datatype Qc = Qc(kind: MsgType, view: nat, hash: Hash, signers: seq<bool>, sig: Signature)

  /** What a node reports about one participant in the prepare phase. */
  datatype ViewInfo = ViewInfo(addr: Address, lastView: nat, qcs: seq<Qc>)

  /** `a` is reached from `b` by following the p-labelled edges towards genesis. */
  ghost predicate Ancestor(a: Hash, b: Hash, p: Address)
    decreases b
  {
    a == b || (b.HashOf? && p in b.t.links && Ancestor(a, b.t.links[p], p))
  }

  lemma {:induction false} AncestorTransitive(a: Hash, b: Hash, c: Hash, p: Address)
    requires Ancestor(a, b, p) && Ancestor(b, c, p)
    ensures Ancestor(a, c, p)
    decreases c
  {
    if b != c {
      AncestorTransitive(a, b, c.t.links[p], p);
    }
  }

  const TWO_32: nat := 0x1_0000_0000
  const TWO_64: nat := 0x1_0000_0000_0000_0000

  /** The threshold of a node set of `n` nodes, computed in 32-bit arithmetic. */
  function QuorumOf(n: nat): nat {
    (n * 2 % TWO_32) / 3 + 1
  }

  // A set the 32-bit product does not wrap around for.
  predicate Fits(n: nat) {
    n < 0x8000_0000
  }

  /** Two quorums of one set share more nodes than a third of the set, exactly when nothing wraps around. */
  lemma QuorumsOverlap(n: nat)
    requires n < TWO_32
    ensures Fits(n) <==> QuorumOf(n) == n * 2 / 3 + 1
    ensures Fits(n) <==> 3 * (2 * QuorumOf(n) - n) > n
  {
    if Fits(n) {
      assert n * 2 % TWO_32 == n * 2;
    } else {
      assert n * 2 % TWO_32 == n * 2 - TWO_32;
    }
  }

  /** A quorum and a faulty minority leave an honest member in any two quorums. */
  lemma QuorumIntersection(nodes: set<KramaID>, faulty: set<KramaID>, a: set<KramaID>, b: set<KramaID>)
    returns (honest: KramaID)
    requires Fits(|nodes|) && 3 * |faulty * nodes| < |nodes|
    requires a <= nodes && b <= nodes && |a| >= QuorumOf(|nodes|) && |b| >= QuorumOf(|nodes|)
    ensures honest in a && honest in b && honest !in faulty
  {
    var n := |nodes|;
    QuorumsOverlap(n);
    SubsetSize(a + b, nodes);
    assert |a + b| == |a| + |b| - |a * b|;
    if a * b <= faulty {
      assert a * b <= faulty * nodes;
      SubsetSize(a * b, faulty * nodes);
      assert false;
    }
    honest :| honest in a * b && honest !in faulty;
  }

  lemma {:induction false} SubsetSize<T>(a: set<T>, b: set<T>)
    requires a <= b
    ensures |a| <= |b|
  {
    assert b == a + (b - a);
  }

  lemma SameSizeSubset<T>(a: set<T>, b: set<T>)
    requires a <= b && |a| == |b|
    ensures a == b
  {
    var rest := b - a;
    assert b == a + rest;
    assert |rest| == 0;
  }

  function CountTrue(bits: seq<bool>): nat {
    if bits == [] then 0 else CountTrue(bits[..|bits| - 1]) + if bits[|bits| - 1] then 1 else 0
  }
}
