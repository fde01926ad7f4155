/** The slot allocator: which clusters are live, and which accounts they hold. */
module SlotAllocator {
  import opened Types

  datatype SlotType = OperatorSlot | ValidatorSlot

  datatype Slot = Slot(kind: SlotType, ps: map<Address, LockType>)

  datatype LockInfo = LockInfo(lock: LockType, cluster: ClusterID)

  /** Availability is a plain counter: creating a slot does not check that it stays above zero. */
  datatype Table = Table(
    slots: map<ClusterID, Slot>,
    operators: int,
    validators: int,
    active: map<Address, seq<LockInfo>>)

  function NewTable(operators: int, validators: int): Table {
    Table(map[], operators, validators, map[])
  }

  // Only the first holder of an account is looked at.
  predicate Blocks(active: map<Address, seq<LockInfo>>, a: Address, required: LockType)
    requires a in active ==> active[a] != []
  {
    a in active &&
    (active[a][0].lock == MutateLock || (active[a][0].lock == ReadLock && required == MutateLock))
  }

  ghost predicate NonEmpty(active: map<Address, seq<LockInfo>>) {
    forall a :: a in active ==> active[a] != []
  }

  predicate AnyBlocked(active: map<Address, seq<LockInfo>>, locks: map<Address, LockType>)
    requires NonEmpty(active)
  {
    exists a :: a in locks && Blocks(active, a, locks[a])
  }

  function HoldersOf(active: map<Address, seq<LockInfo>>, a: Address): seq<LockInfo> {
    if a in active then active[a] else []
  }

  function Locked(active: map<Address, seq<LockInfo>>, locks: map<Address, LockType>, done: set<Address>, id: ClusterID)
    : (r: map<Address, seq<LockInfo>>)
    requires done <= locks.Keys
  {
    map a | a in active.Keys + done :: if a in done then HoldersOf(active, a) + [LockInfo(locks[a], id)] else active[a]
  }

  function Counted(t: Table, kind: SlotType, change: int): Table {
    match kind
    case OperatorSlot => t.(operators := t.operators + change)
    case ValidatorSlot => t.(validators := t.validators + change)
  }

  /** A request is refused, changing nothing, when one of its accounts is held; otherwise it gets its slot. */
  function Create(t: Table, id: ClusterID, kind: SlotType, locks: map<Address, LockType>): (r: Table)
    requires NonEmpty(t.active)
    ensures NonEmpty(r.active)
  {
    if AnyBlocked(t.active, locks) then t
    else
      var active := Locked(t.active, locks, locks.Keys, id);
      Counted(t.(slots := t.slots[id := Slot(kind, locks)], active := active), kind, -1)
  }

  /** Releasing a slot drops the entries of its accounts altogether. */
  function Cleanup(t: Table, id: ClusterID): (r: Table)
    ensures NonEmpty(t.active) ==> NonEmpty(r.active)
  {
    if id !in t.slots then t
    else Counted(t.(slots := t.slots - {id}, active := t.active - t.slots[id].ps.Keys), t.slots[id].kind, 1)
  }

  // ---------- the allocator ----------

  method AddActiveAccount(active: map<Address, seq<LockInfo>>, a: Address, info: LockInfo)
    returns (r: map<Address, seq<LockInfo>>)
    ensures r == active[a := HoldersOf(active, a) + [info]]
  {
    r := active;
    if a !in r {
      r := r[a := []];
    }
    r := r[a := r[a] + [info]];
  }

  /** The locks of all addresses but `pending` are taken. */
  ghost predicate LockedBut(r: map<Address, seq<LockInfo>>, active: map<Address, seq<LockInfo>>,
                            locks: map<Address, LockType>, pending: set<Address>, id: ClusterID) {
    pending <= locks.Keys && r == Locked(active, locks, locks.Keys - pending, id)
  }

  lemma LockOneMore(r: map<Address, seq<LockInfo>>, active: map<Address, seq<LockInfo>>,
                    locks: map<Address, LockType>, pending: set<Address>, id: ClusterID, a: Address)
    requires LockedBut(r, active, locks, pending, id) && a in pending
    ensures LockedBut(r[a := HoldersOf(r, a) + [LockInfo(locks[a], id)]], active, locks, pending - {a}, id)
  {
  }

  lemma LockNoneYet(active: map<Address, seq<LockInfo>>, locks: map<Address, LockType>, id: ClusterID)
    ensures LockedBut(active, active, locks, locks.Keys, id)
  {
  }

  method LockAll(active: map<Address, seq<LockInfo>>, locks: map<Address, LockType>, id: ClusterID)
    returns (r: map<Address, seq<LockInfo>>)
    ensures LockedBut(r, active, locks, {}, id)
  {
    r := active;
    var pending := locks.Keys;
    LockNoneYet(active, locks, id);
    while pending != {}
      invariant LockedBut(r, active, locks, pending, id)
      decreases |pending|
    {
      var a :| a in pending;
      LockOneMore(r, active, locks, pending, id, a);
      r := AddActiveAccount(r, a, LockInfo(locks[a], id));
      pending := pending - {a};
    }
  }

  method ReleaseAll(active: map<Address, seq<LockInfo>>, addrs: set<Address>) returns (r: map<Address, seq<LockInfo>>)
    ensures r == active - addrs
  {
    r := active;
    var pending := addrs;
    while pending != {}
      invariant pending <= addrs && r == active - (addrs - pending)
      decreases |pending|
    {
      var a :| a in pending;
      r := r - {a};
      assert addrs - (pending - {a}) == (addrs - pending) + {a};
      pending := pending - {a};
    }
    assert addrs - pending == addrs;
  }

  class Slots {
    var slots: map<ClusterID, Slot>
    var availableOperatorSlots: int
    var availableValidatorSlots: int
    var activeAccounts: map<Address, seq<LockInfo>>

    ghost function Value(): Table
      reads this
    {
      Table(slots, availableOperatorSlots, availableValidatorSlots, activeAccounts)
    }

    constructor (operatorSlots: int, validatorSlots: int)
      ensures Value() == NewTable(operatorSlots, validatorSlots) && NonEmpty(activeAccounts)
    {
      slots, activeAccounts := map[], map[];
      availableOperatorSlots, availableValidatorSlots := operatorSlots, validatorSlots;
    }

    method AreAccountsActive(addrs: map<Address, LockType>) returns (held: bool)
      requires NonEmpty(activeAccounts)
      ensures held == AnyBlocked(activeAccounts, addrs)
      ensures held <==>
              exists a ::
                && a in addrs && a in activeAccounts
                && (activeAccounts[a][0].lock == MutateLock ||
                    (activeAccounts[a][0].lock == ReadLock && addrs[a] == MutateLock))
    {
      var pending := addrs.Keys;
      while pending != {}
        invariant pending <= addrs.Keys
        invariant forall a :: a in addrs.Keys - pending ==> !Blocks(activeAccounts, a, addrs[a])
        decreases |pending|
      {
        var a :| a in pending;
        pending := pending - {a};
        if a in activeAccounts {
          var first := activeAccounts[a][0].lock;
          if first == MutateLock || (first == ReadLock && addrs[a] == MutateLock) {
            assert Blocks(activeAccounts, a, addrs[a]);
            return true;
          }
        }
      }
      return false;
    }

    method CreateSlotAndLockAccounts(id: ClusterID, kind: SlotType, locks: map<Address, LockType>)
      returns (slot: Option<Slot>)
      requires NonEmpty(activeAccounts)
      modifies this
      ensures Value() == Create(old(Value()), id, kind, locks) && NonEmpty(activeAccounts)
      ensures slot == if AnyBlocked(old(activeAccounts), locks) then None else Some(Slot(kind, locks))
    {
      var held := AreAccountsActive(locks);
      if held {
        return None;
      }
      slots := slots[id := Slot(kind, locks)];
      if kind == OperatorSlot {
        availableOperatorSlots := availableOperatorSlots - 1;
      } else {
        availableValidatorSlots := availableValidatorSlots - 1;
      }
      activeAccounts := LockAll(activeAccounts, locks, id);
      assert locks.Keys - {} == locks.Keys;
      return Some(slots[id]);
    }

    method CleanupSlot(id: ClusterID)
      modifies this
      ensures Value() == Cleanup(old(Value()), id)
    {
      if id in slots {
        var slot := slots[id];
        activeAccounts := ReleaseAll(activeAccounts, slot.ps.Keys);
        slots := slots - {id};
        if slot.kind == OperatorSlot {
          availableOperatorSlots := availableOperatorSlots + 1;
        } else {
          availableValidatorSlots := availableValidatorSlots + 1;
        }
      }
    }
  }

  // ---------- the invariant ----------

  ghost function Live(slots: map<ClusterID, Slot>, kind: SlotType): set<ClusterID> {
    set id | id in slots && slots[id].kind == kind
  }

  function Available(t: Table, kind: SlotType): int {
    if kind == OperatorSlot then t.operators else t.validators
  }

  /** Available and live slots of a type together. */
  ghost function Capacity(t: Table, kind: SlotType): int {
    Available(t, kind) + |Live(t.slots, kind)|
  }

  predicate AllMutate(locks: map<Address, LockType>) {
    forall a :: a in locks ==> locks[a] == MutateLock
  }

  predicate HeldBy(t: Table, a: Address, id: ClusterID) {
    id in t.slots && a in t.slots[id].ps
  }

  /** The active table is exactly the inverse of the live slots' lock maps. */
  ghost predicate Inverse(t: Table) {
    && (forall a, id :: HeldBy(t, a, id) ==> a in t.active && t.active[a] == [LockInfo(MutateLock, id)])
    && (forall a :: a in t.active ==> exists id :: HeldBy(t, a, id))
  }

  /** No account is held by two live slots: it follows from the table being an inverse. */
  lemma NoSharedAccount(t: Table, a: Address, i: ClusterID, j: ClusterID)
    requires Inverse(t) && HeldBy(t, a, i) && HeldBy(t, a, j)
    ensures i == j
  {
    assert t.active[a] == [LockInfo(MutateLock, i)];
  }

  lemma ActiveBlocks(t: Table, a: Address, required: LockType)
    requires Inverse(t) && NonEmpty(t.active)
    ensures Blocks(t.active, a, required) <==> a in t.active
  {
    if a in t.active {
      var j :| HeldBy(t, a, j);
    }
  }

  /** A request is refused exactly when a live slot holds one of its accounts, and then nothing changes. */
  lemma RefusedIffHeld(t: Table, id: ClusterID, kind: SlotType, locks: map<Address, LockType>)
    requires Inverse(t) && NonEmpty(t.active)
    ensures AnyBlocked(t.active, locks) <==> exists a, j :: a in locks && HeldBy(t, a, j)
    ensures (exists a, j :: a in locks && HeldBy(t, a, j)) ==> Create(t, id, kind, locks) == t
  {
    if a, j :| a in locks && HeldBy(t, a, j) {
      ActiveBlocks(t, a, locks[a]);
      assert Blocks(t.active, a, locks[a]);
    }
    if AnyBlocked(t.active, locks) {
      var a :| a in locks && Blocks(t.active, a, locks[a]);
      var j :| HeldBy(t, a, j);
    }
  }

  lemma CreateKeepsInverse(t: Table, id: ClusterID, kind: SlotType, locks: map<Address, LockType>)
    requires Inverse(t) && NonEmpty(t.active) && id !in t.slots && AllMutate(locks)
    ensures Inverse(Create(t, id, kind, locks))
  {
    if !AnyBlocked(t.active, locks) {
      var r := Create(t, id, kind, locks);
      forall a | a in locks
        ensures a !in t.active
      {
        assert !Blocks(t.active, a, locks[a]);
        ActiveBlocks(t, a, locks[a]);
      }
      forall a, j | HeldBy(r, a, j)
        ensures a in r.active && r.active[a] == [LockInfo(MutateLock, j)]
      {
        if j != id {
          assert HeldBy(t, a, j);
        }
      }
      forall a | a in r.active
        ensures exists j :: HeldBy(r, a, j)
      {
        if a in locks {
          assert HeldBy(r, a, id);
        } else {
          var j :| HeldBy(t, a, j);
          assert HeldBy(r, a, j);
        }
      }
    }
  }

  lemma CleanupKeepsInverse(t: Table, id: ClusterID)
    requires Inverse(t)
    ensures Inverse(Cleanup(t, id))
  {
    if id in t.slots {
      var r := Cleanup(t, id);
      forall a, j | HeldBy(r, a, j)
        ensures a in r.active && r.active[a] == [LockInfo(MutateLock, j)]
      {
        assert HeldBy(t, a, j);
        if a in t.slots[id].ps {
          NoSharedAccount(t, a, id, j);
        }
      }
      forall a | a in r.active
        ensures exists j :: HeldBy(r, a, j)
      {
        var j :| HeldBy(t, a, j);
        assert HeldBy(r, a, j);
      }
    }
  }

  lemma Without(ids: set<ClusterID>, id: ClusterID)
    ensures |ids| == |ids - {id}| + if id in ids then 1 else 0
  {
    if id !in ids {
      assert ids - {id} == ids;
    }
  }

  lemma LiveElsewhere(slots: map<ClusterID, Slot>, id: ClusterID, slot: Slot, kind: SlotType)
    ensures Live(slots, kind) - {id} == Live(slots[id := slot], kind) - {id}
    ensures id in Live(slots, kind) <==> id in slots && slots[id].kind == kind
    ensures id in Live(slots[id := slot], kind) <==> slot.kind == kind
  {
  }

  lemma LiveAfter(slots: map<ClusterID, Slot>, id: ClusterID, slot: Slot, kind: SlotType)
    ensures |Live(slots[id := slot], kind)|
            == |Live(slots, kind)| + (if slot.kind == kind then 1 else 0)
               - (if id in slots && slots[id].kind == kind then 1 else 0)
  {
    LiveElsewhere(slots, id, slot, kind);
    Without(Live(slots, kind), id);
    Without(Live(slots[id := slot], kind), id);
  }

  /** A request that is granted keeps both capacities exactly when its cluster is not live already. */
  lemma CapacityKeptIffFresh(t: Table, id: ClusterID, kind: SlotType, locks: map<Address, LockType>)
    requires NonEmpty(t.active) && !AnyBlocked(t.active, locks)
    ensures var r := Create(t, id, kind, locks);
            (forall k :: Capacity(r, k) == Capacity(t, k)) <==> id !in t.slots
  {
    var r := Create(t, id, kind, locks);
    forall k
      ensures Capacity(r, k) == Capacity(t, k) - if id in t.slots && t.slots[id].kind == k then 1 else 0
    {
      LiveAfter(t.slots, id, Slot(kind, locks), k);
    }
    assert id in t.slots ==> Capacity(r, t.slots[id].kind) == Capacity(t, t.slots[id].kind) - 1;
  }

  lemma CleanupKeepsCapacity(t: Table, id: ClusterID, kind: SlotType)
    ensures Capacity(Cleanup(t, id), kind) == Capacity(t, kind)
  {
    if id in t.slots {
      assert Live(t.slots - {id}, kind) == Live(t.slots, kind) - {id};
    }
  }

  // ---------- runs ----------

  datatype Op = CreateOp(id: ClusterID, kind: SlotType, locks: map<Address, LockType>) | CleanupOp(id: ClusterID)

  ghost predicate Allowed(t: Table, op: Op) {
    op.CreateOp? ==> op.id !in t.slots && AllMutate(op.locks)
  }

  ghost function Apply(t: Table, op: Op): (r: Table)
    requires NonEmpty(t.active)
    ensures NonEmpty(r.active)
  {
    match op
    case CreateOp(id, kind, locks) => Create(t, id, kind, locks)
    case CleanupOp(id) => Cleanup(t, id)
  }

  ghost predicate AllAllowed(t: Table, ops: seq<Op>)
    requires NonEmpty(t.active)
    decreases |ops|
  {
    ops != [] ==> Allowed(t, ops[0]) && AllAllowed(Apply(t, ops[0]), ops[1..])
  }

  ghost function RunAll(t: Table, ops: seq<Op>): Table
    requires NonEmpty(t.active) && AllAllowed(t, ops)
    decreases |ops|
  {
    if ops == [] then t else RunAll(Apply(t, ops[0]), ops[1..])
  }

  /** Over every run with fresh clusters and mutate locks: the active table is the inverse of the live slots' locks,
      no account is in two live slots, and available plus live slots of each type stay constant. */
  lemma {:induction false} AllocatorInvariant(t: Table, ops: seq<Op>)
    requires Inverse(t) && NonEmpty(t.active) && AllAllowed(t, ops)
    ensures var r := RunAll(t, ops);
            && Inverse(r)
            && (forall a, i, j :: HeldBy(r, a, i) && HeldBy(r, a, j) ==> i == j)
            && (forall kind :: Capacity(r, kind) == Capacity(t, kind))
    decreases |ops|
  {
    if ops == [] {
      forall a, i, j | HeldBy(t, a, i) && HeldBy(t, a, j)
        ensures i == j
      {
        NoSharedAccount(t, a, i, j);
      }
    } else {
      var next := Apply(t, ops[0]);
      match ops[0] {
        case CreateOp(id, kind, locks) =>
          CreateKeepsInverse(t, id, kind, locks);
          if !AnyBlocked(t.active, locks) {
            CapacityKeptIffFresh(t, id, kind, locks);
          }
        case CleanupOp(id) =>
          CleanupKeepsInverse(t, id);
          forall kind
            ensures Capacity(next, kind) == Capacity(t, kind)
          {
            CleanupKeepsCapacity(t, id, kind);
          }
      }
      AllocatorInvariant(next, ops[1..]);
    }
  }

  // ---------- read locks ----------

  predicate HoldsAs(t: Table, a: Address, id: ClusterID, lock: LockType) {
    HeldBy(t, a, id) && t.slots[id].ps[a] == lock
  }

  /** The active table lists exactly the live holders of every account, each with its lock. */
  ghost predicate Tracked(t: Table) {
    && NonEmpty(t.active)
    && (forall a, id :: HeldBy(t, a, id) ==> a in t.active && LockInfo(t.slots[id].ps[a], id) in t.active[a])
    && (forall a, info :: a in t.active && info in t.active[a] ==> HoldsAs(t, a, info.cluster, info.lock))
  }

  /** Accounts are held for reading or writing, and a writer holds alone. */
  ghost predicate Exclusive(t: Table) {
    && (forall a, id :: HeldBy(t, a, id) ==> t.slots[id].ps[a] != NoLock)
    && (forall a, i, j :: i != j && HeldBy(t, a, j) ==> !HoldsAs(t, a, i, MutateLock))
  }

  ghost predicate Orderly(t: Table) {
    Tracked(t) && Exclusive(t)
  }

  predicate Locking(locks: map<Address, LockType>) {
    forall a :: a in locks ==> locks[a] != NoLock
  }

  ghost predicate Conflicts(t: Table, a: Address, j: ClusterID, required: LockType) {
    HeldBy(t, a, j) && (t.slots[j].ps[a] == MutateLock || required == MutateLock)
  }

  lemma BlocksIffConflicts(t: Table, a: Address, required: LockType)
    requires Orderly(t)
    ensures Blocks(t.active, a, required) <==> exists j :: Conflicts(t, a, j, required)
  {
    if a in t.active {
      var first := t.active[a][0];
      assert first in t.active[a] && HoldsAs(t, a, first.cluster, first.lock);
      if Blocks(t.active, a, required) {
        assert Conflicts(t, a, first.cluster, required);
      }
      if j :| Conflicts(t, a, j, required) {
        assert j != first.cluster ==> !HoldsAs(t, a, j, MutateLock);
      }
    }
  }

  /** With readers and writers, a request is refused exactly when a live slot writes one of its accounts, or holds one
      that it wants to write. */
  lemma RefusedIffConflict(t: Table, id: ClusterID, kind: SlotType, locks: map<Address, LockType>)
    requires Orderly(t)
    ensures AnyBlocked(t.active, locks) <==> exists a, j :: a in locks && Conflicts(t, a, j, locks[a])
  {
    forall a | a in locks
      ensures Blocks(t.active, a, locks[a]) <==> exists j :: Conflicts(t, a, j, locks[a])
    {
      BlocksIffConflicts(t, a, locks[a]);
    }
    if AnyBlocked(t.active, locks) {
      var a :| a in locks && Blocks(t.active, a, locks[a]);
      var j :| Conflicts(t, a, j, locks[a]);
    }
  }

  lemma CreateTracks(t: Table, id: ClusterID, kind: SlotType, locks: map<Address, LockType>)
    requires Tracked(t) && id !in t.slots
    ensures Tracked(Create(t, id, kind, locks))
  {
    if !AnyBlocked(t.active, locks) {
      var r := Create(t, id, kind, locks);
      forall a, j | HeldBy(r, a, j)
        ensures a in r.active && LockInfo(r.slots[j].ps[a], j) in r.active[a]
      {
        if j == id {
          assert r.active[a][|r.active[a]| - 1] == LockInfo(locks[a], id);
        } else {
          assert HeldBy(t, a, j);
        }
      }
      forall a, info | a in r.active && info in r.active[a]
        ensures HoldsAs(r, a, info.cluster, info.lock)
      {
        if info in HoldersOf(t.active, a) {
          assert HoldsAs(t, a, info.cluster, info.lock);
        }
      }
    }
  }

  lemma CreateStaysExclusive(t: Table, id: ClusterID, kind: SlotType, locks: map<Address, LockType>)
    requires Orderly(t) && id !in t.slots && Locking(locks)
    ensures Exclusive(Create(t, id, kind, locks))
  {
    if !AnyBlocked(t.active, locks) {
      var r := Create(t, id, kind, locks);
      RefusedIffConflict(t, id, kind, locks);
      forall a, i, j | i != j && HeldBy(r, a, j)
        ensures !HoldsAs(r, a, i, MutateLock)
      {
        if i == id && a in locks {
          assert HeldBy(t, a, j) && !Conflicts(t, a, j, locks[a]);
        } else if j == id {
          assert a in locks && !Conflicts(t, a, i, locks[a]);
        } else {
          assert HeldBy(t, a, j) && !HoldsAs(t, a, i, MutateLock);
        }
      }
    }
  }

  /** No other live slot holds one of its accounts. */
  ghost predicate Alone(t: Table, id: ClusterID) {
    forall a, j :: j != id && HeldBy(t, a, id) ==> !HeldBy(t, a, j)
  }

  /** A release keeps the table true exactly when the slot shares no account: other readers are forgotten with it. */
  lemma CleanupTracksIffAlone(t: Table, id: ClusterID)
    requires Tracked(t)
    ensures Tracked(Cleanup(t, id)) <==> Alone(t, id)
  {
    var r := Cleanup(t, id);
    if id in t.slots {
      if Tracked(r) {
        forall a, j | j != id && HeldBy(t, a, id)
          ensures !HeldBy(t, a, j)
        {
          assert a !in r.active && !HeldBy(r, a, j);
        }
      }
      if Alone(t, id) {
        forall a, j | HeldBy(r, a, j)
          ensures a in r.active && LockInfo(r.slots[j].ps[a], j) in r.active[a]
        {
          assert HeldBy(t, a, j) && !HeldBy(t, a, id);
        }
        forall a, info | a in r.active && info in r.active[a]
          ensures HoldsAs(r, a, info.cluster, info.lock)
        {
          assert HoldsAs(t, a, info.cluster, info.lock) && !HeldBy(t, a, id);
        }
      }
    }
  }

  lemma CleanupStaysExclusive(t: Table, id: ClusterID)
    requires Exclusive(t)
    ensures Exclusive(Cleanup(t, id))
  {
    var r := Cleanup(t, id);
    forall a, j | HeldBy(r, a, j)
      ensures r.slots[j].ps[a] != NoLock
    {
      assert HeldBy(t, a, j);
    }
    forall a, i, j | i != j && HeldBy(r, a, j)
      ensures !HoldsAs(r, a, i, MutateLock)
    {
      assert HeldBy(t, a, j) && !HoldsAs(t, a, i, MutateLock);
    }
  }

  ghost predicate AllOrderly(t: Table, ops: seq<Op>)
    requires NonEmpty(t.active)
    decreases |ops|
  {
    ops != [] ==>
      && (match ops[0]
          case CreateOp(id, _, locks) => id !in t.slots && Locking(locks)
          case CleanupOp(id) => Alone(t, id))
      && AllOrderly(Apply(t, ops[0]), ops[1..])
  }

  ghost function Final(t: Table, ops: seq<Op>): Table
    requires NonEmpty(t.active)
    decreases |ops|
  {
    if ops == [] then t else Final(Apply(t, ops[0]), ops[1..])
  }

  /** Over every run of readers and writers with fresh clusters, in which no slot is released while another one reads
      one of its accounts: the table lists exactly the live holders, and a writer holds alone. */
  lemma {:induction false} ReadersAndWriters(t: Table, ops: seq<Op>)
    requires Orderly(t) && AllOrderly(t, ops)
    ensures Orderly(Final(t, ops))
    decreases |ops|
  {
    if ops != [] {
      match ops[0] {
        case CreateOp(id, kind, locks) =>
          CreateTracks(t, id, kind, locks);
          CreateStaysExclusive(t, id, kind, locks);
        case CleanupOp(id) =>
          CleanupTracksIffAlone(t, id);
          CleanupStaysExclusive(t, id);
      }
      ReadersAndWriters(Apply(t, ops[0]), ops[1..]);
    }
  }
}
