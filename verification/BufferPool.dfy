// Registered buffer slots and the connections that borrow them: who holds what, and where in
// the arena it lies.
module BufferPools {
  const MAX_BUFFERS: nat := 16384

  type Conn = nat

  // Free and held slots together are all slots, none of them twice.
  ghost predicate Partition(free: seq<int>, held: map<Conn, int>, capacity: nat) {
    && (forall i {:trigger free[i]} :: 0 <= i < |free| ==> 0 <= free[i] < capacity && free[i] !in held.Values)
    && (forall i, j :: 0 <= i < j < |free| ==> free[i] != free[j])
    && (forall c {:trigger c in held} :: c in held ==> -1 <= held[c] < capacity)
    && (forall c, d :: c in held && d in held && held[c] == held[d] && held[c] >= 0 ==> c == d)
    && (forall s: int {:trigger s in free} :: 0 <= s < capacity ==> s in free || s in held.Values)
  }

  lemma AllHeld(held: map<Conn, int>, capacity: nat)
    requires Partition([], held, capacity)
    ensures forall s: int :: 0 <= s < capacity ==> s in held.Values
  {
    forall s: int | 0 <= s < capacity
      ensures s in held.Values
    {
      assert s !in [];
    }
  }

  lemma SlotTaken(free: seq<int>, held: map<Conn, int>, capacity: nat, c: Conn)
    requires Partition(free, held, capacity) && free != [] && c !in held
    ensures Partition(free[..|free| - 1], held[c := free[|free| - 1]], capacity)
  {
    var n := |free| - 1;
    var slot := free[n];
    var r := held[c := slot];
    assert free == free[..n] + [slot];
    forall s | s in held.Values
      ensures s in r.Values
    {
      var d :| d in held && held[d] == s;
      assert r[d] == s;
    }
    assert r[c] == slot;
    forall s | s in r.Values && s != slot
      ensures s in held.Values
    {
      var d :| d in r && r[d] == s;
      assert d in held && held[d] == s;
    }
    forall s: int {:trigger s in free[..n]} | 0 <= s < capacity && s !in free[..n]
      ensures s in r.Values
    {
      assert s in free ==> s == slot;
    }
  }

  lemma SlotReturned(free: seq<int>, held: map<Conn, int>, capacity: nat, c: Conn)
    requires Partition(free, held, capacity) && c in held && held[c] >= 0
    ensures Partition(free + [held[c]], held - {c}, capacity)
  {
    var slot := held[c];
    var r := held - {c};
    assert slot in held.Values;
    assert slot !in r.Values;
    forall s | s in held.Values && s != slot
      ensures s in r.Values
    {
      var d :| d in held && held[d] == s;
      assert d in r && r[d] == s;
    }
  }

  lemma NobodyHolds(free: seq<int>, held: map<Conn, int>, capacity: nat, c: Conn)
    requires Partition(free, held, capacity) && c !in held
    ensures Partition(free, held[c := -1], capacity)
  {
    forall s | s in held.Values
      ensures s in held[c := -1].Values
    {
      var d :| d in held && held[d] == s;
      assert held[c := -1][d] == s;
    }
  }

  lemma NobodyReturns(free: seq<int>, held: map<Conn, int>, capacity: nat, c: Conn)
    requires Partition(free, held, capacity) && c in held && held[c] < 0
    ensures Partition(free, held - {c}, capacity)
  {
    forall s | s in held.Values && s >= 0
      ensures s in (held - {c}).Values
    {
      var d :| d in held && held[d] == s;
      assert d in held - {c} && (held - {c})[d] == s;
    }
  }

  // Slots that differ lie apart, and all of them inside the arena.
  lemma SlotsAreDisjoint(a: nat, b: nat, capacity: nat, slotSize: nat)
    requires a < capacity && b < capacity && a != b
    ensures a * slotSize + slotSize <= capacity * slotSize
    ensures a * slotSize + slotSize <= b * slotSize || b * slotSize + slotSize <= a * slotSize
  {
    Product(a + 1, capacity, slotSize);
    if a < b {
      Product(a + 1, b, slotSize);
    } else {
      Product(b + 1, a, slotSize);
    }
  }

  lemma Product(a: int, b: int, c: nat)
    requires a <= b
    ensures a * c <= b * c
    ensures (a - 1) * c + c == a * c
  {
  }

  class RegisteredBufferPool {
    const slotSize: nat
    const capacity: nat
    const enabled: bool
    var freeList: seq<int>

    // granted: memory was had and the kernel registered the buffers.
    constructor (capacity: nat, slotSize: nat, granted: bool)
      ensures this.slotSize == slotSize
      ensures this.capacity == if capacity > 16384 && slotSize > 0 then 16384 else capacity
      ensures enabled <==> capacity > 0 && slotSize > 0 && granted
      ensures !enabled ==> freeList == []
      ensures enabled ==> Partition(freeList, map[], this.capacity)
    {
      this.slotSize := slotSize;
      var cap := if capacity > MAX_BUFFERS && slotSize > 0 then MAX_BUFFERS else capacity;
      this.capacity := cap;
      this.enabled := capacity > 0 && slotSize > 0 && granted;
      var free: seq<int> := [];
      if capacity > 0 && slotSize > 0 && granted {
        var i := cap - 1;
        while i >= 0
          invariant -1 <= i < cap && |free| == cap - 1 - i
          invariant forall k :: 0 <= k < |free| ==> free[k] == cap - 1 - k
        {
          free := free + [i];
          i := i - 1;
        }
        forall s: int | 0 <= s < cap
          ensures s in free
        {
          assert free[cap - 1 - s] == s;
        }
      }
      this.freeList := free;
    }

    method Acquire() returns (idx: int)
      modifies this`freeList
      ensures idx == if !enabled || old(freeList) == [] then -1 else old(freeList)[|old(freeList)| - 1]
      ensures freeList == if !enabled || old(freeList) == [] then old(freeList)
                          else old(freeList)[..|old(freeList)| - 1]
    {
      if !enabled || freeList == [] {
        return -1;
      }
      idx := freeList[|freeList| - 1];
      freeList := freeList[..|freeList| - 1];
    }

    method Release(idx: int)
      modifies this`freeList
      ensures freeList == if idx < 0 then old(freeList) else old(freeList) + [idx]
    {
      if idx >= 0 {
        freeList := freeList + [idx];
      }
    }
  }

  // The connections of one worker, each with buf_index_.
  class Connections {
    const pool: RegisteredBufferPool
    var held: map<Conn, int>

    ghost predicate Valid()
      reads this, pool
    {
      if pool.enabled then Partition(pool.freeList, held, pool.capacity)
      else pool.freeList == [] && forall c {:trigger c in held} :: c in held ==> held[c] == -1
    }

    constructor (capacity: nat, slotSize: nat, granted: bool)
      ensures Valid() && held == map[] && fresh(pool)
    {
      pool := new RegisteredBufferPool(capacity, slotSize, granted);
      held := map[];
    }

    // A connection is made: it gets a slot unless every slot is held or there are none.
    method Open(c: Conn) returns (idx: int)
      requires Valid() && c !in held
      modifies this`held, pool`freeList
      ensures Valid() && held == old(held)[c := idx]
      ensures idx == -1 <==> !pool.enabled || forall s: int :: 0 <= s < pool.capacity ==> s in old(held).Values
      ensures idx >= 0 ==> idx < pool.capacity && idx !in old(held).Values
    {
      ghost var free := pool.freeList;
      idx := pool.Acquire();
      held := held[c := idx];
      if pool.enabled {
        if free != [] {
          assert free[|free| - 1] !in old(held).Values;
          SlotTaken(free, old(held), pool.capacity, c);
        } else {
          AllHeld(old(held), pool.capacity);
          NobodyHolds(free, old(held), pool.capacity, c);
        }
      }
    }

    // The connection's destructor.
    method Close(c: Conn)
      requires Valid() && c in held
      modifies this`held, pool`freeList
      ensures Valid() && held == old(held) - {c}
    {
      if pool.enabled {
        if held[c] >= 0 {
          SlotReturned(pool.freeList, held, pool.capacity, c);
        } else {
          NobodyReturns(pool.freeList, held, pool.capacity, c);
        }
      }
      pool.Release(held[c]);
      held := held - {c};
    }
  }

  // The slots of two connections never overlap.
  lemma HeldSlotsAreDisjoint(free: seq<int>, held: map<Conn, int>, capacity: nat, slotSize: nat, c: Conn, d: Conn)
    requires Partition(free, held, capacity) && c in held && d in held && c != d && held[c] >= 0 && held[d] >= 0
    ensures 0 <= held[c] * slotSize && held[c] * slotSize + slotSize <= capacity * slotSize
    ensures || held[c] * slotSize + slotSize <= held[d] * slotSize
            || held[d] * slotSize + slotSize <= held[c] * slotSize
  {
    SlotsAreDisjoint(held[c], held[d], capacity, slotSize);
  }
}
