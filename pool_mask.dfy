/** The 32-bit reservation masks g_SemaphoresInUse and g_MutexesInUse, and the
    lowest-free-slot scan that semaphore_create and mutex_create run over them. */
module PoolMask {
  import opened OsTypes

  /** SEMAPHORE_POOL_SIZE and MUTEX_POOL_SIZE. */
  const POOL_SIZE: nat := 32

  /** `1 << idx`, taken on an unsigned 32-bit word. */
  function Bit(i: nat): bv32
    requires i < POOL_SIZE
  {
    (1 as bv32) << (i as bv5)
  }

  /** IS_OBJ_RESERVED(pool, idx) */
  predicate IsReserved(mask: bv32, i: nat)
    requires i < POOL_SIZE
  {
    mask & Bit(i) != 0
  }

  /** RESERVE_OBJ(pool, idx): sets bit `i` and no other. */
  function Reserve(mask: bv32, i: nat): (r: bv32)
    requires i < POOL_SIZE
    ensures IsReserved(r, i)
    ensures forall j | 0 <= j < POOL_SIZE && j != i :: IsReserved(r, j) == IsReserved(mask, j)
  {
    ReserveKeepsOthers(mask, i);
    mask | Bit(i)
  }

  /** UNRESERVE_OBJ(pool, idx): clears bit `i` and no other. */
  function Unreserve(mask: bv32, i: nat): (r: bv32)
    requires i < POOL_SIZE
    ensures !IsReserved(r, i)
    ensures forall j | 0 <= j < POOL_SIZE && j != i :: IsReserved(r, j) == IsReserved(mask, j)
  {
    UnreserveKeepsOthers(mask, i);
    mask & !Bit(i)
  }

  // Two distinct slot numbers select two distinct bits.
  lemma DistinctShifts(i: nat, j: nat)
    requires i < POOL_SIZE && j < POOL_SIZE && i != j
    ensures (i as bv5) != (j as bv5)
  {
    assert (i as bv5) as int == i;
    assert (j as bv5) as int == j;
  }

  // Distinct slots own disjoint bits; the facts below are what Reserve and
  // Unreserve rest on, stated one slot at a time.
  lemma DisjointBits(i: nat, j: nat)
    requires i < POOL_SIZE && j < POOL_SIZE && i != j
    ensures Bit(i) & Bit(j) == 0
  {
    DistinctShifts(i, j);
    var a, b := i as bv5, j as bv5;
    assert ((1 as bv32) << a) & ((1 as bv32) << b) == 0;
  }

  lemma SetDisjoint(mask: bv32, x: bv32, y: bv32)
    requires x & y == 0
    ensures (mask | x) & y == mask & y
  {
  }

  lemma ClearDisjoint(mask: bv32, x: bv32, y: bv32)
    requires x & y == 0
    ensures (mask & !x) & y == mask & y
  {
  }

  lemma SetOtherBit(mask: bv32, i: nat, j: nat)
    requires i < POOL_SIZE && j < POOL_SIZE && i != j
    ensures IsReserved(mask | Bit(i), j) == IsReserved(mask, j)
  {
    DisjointBits(i, j);
    SetDisjoint(mask, Bit(i), Bit(j));
  }

  lemma ClearOtherBit(mask: bv32, i: nat, j: nat)
    requires i < POOL_SIZE && j < POOL_SIZE && i != j
    ensures IsReserved(mask & !Bit(i), j) == IsReserved(mask, j)
  {
    DisjointBits(i, j);
    ClearDisjoint(mask, Bit(i), Bit(j));
  }

  lemma ReserveKeepsOthers(mask: bv32, i: nat)
    requires i < POOL_SIZE
    ensures IsReserved(mask | Bit(i), i)
    ensures forall j | 0 <= j < POOL_SIZE && j != i :: IsReserved(mask | Bit(i), j) == IsReserved(mask, j)
  {
    forall j | 0 <= j < POOL_SIZE && j != i
      ensures IsReserved(mask | Bit(i), j) == IsReserved(mask, j)
    {
      SetOtherBit(mask, i, j);
    }
  }

  lemma UnreserveKeepsOthers(mask: bv32, i: nat)
    requires i < POOL_SIZE
    ensures !IsReserved(mask & !Bit(i), i)
    ensures forall j | 0 <= j < POOL_SIZE && j != i :: IsReserved(mask & !Bit(i), j) == IsReserved(mask, j)
  {
    forall j | 0 <= j < POOL_SIZE && j != i
      ensures IsReserved(mask & !Bit(i), j) == IsReserved(mask, j)
    {
      ClearOtherBit(mask, i, j);
    }
  }

  /** Every one of the 32 slots is reserved. */
  predicate AllReserved(mask: bv32)
  {
    forall j | 0 <= j < POOL_SIZE :: IsReserved(mask, j)
  }

  /** The lowest unreserved slot at index `i` or above, if any. */
  function FirstFreeFrom(mask: bv32, i: nat): (r: Option<nat>)
    requires i <= POOL_SIZE
    ensures r.Some? ==> i <= r.value < POOL_SIZE && !IsReserved(mask, r.value)
    ensures r.Some? ==> forall j | i <= j < r.value :: IsReserved(mask, j)
    ensures r.None? <==> forall j | i <= j < POOL_SIZE :: IsReserved(mask, j)
    decreases POOL_SIZE - i
  {
    if i == POOL_SIZE then None
    else if !IsReserved(mask, i) then Some(i)
    else FirstFreeFrom(mask, i + 1)
  }

  /** The slot the allocation scan settles on: the lowest unreserved one. */
  function FirstFree(mask: bv32): (r: Option<nat>)
    ensures r.None? <==> AllReserved(mask)
    ensures r.Some? ==> r.value < POOL_SIZE && !IsReserved(mask, r.value)
    ensures r.Some? ==> forall j | 0 <= j < r.value :: IsReserved(mask, j)
  {
    FirstFreeFrom(mask, 0)
  }

  /** The do-while scan of semaphore_create / mutex_create: walk the mask from
      slot 0, reserve the first free slot met, stop there or after slot 31.
      (The do-while's first test is always true, so a while loop is the same.) */
  method ScanAndReserve(mask: bv32) returns (newMask: bv32, slot: Option<nat>)
    ensures slot == FirstFree(mask)
    ensures slot.None? ==> newMask == mask
    ensures slot.Some? ==> newMask == Reserve(mask, slot.value)
  {
    var idx: nat := 0;
    slot := None;
    newMask := mask;
    while slot.None? && idx < POOL_SIZE
      invariant idx <= POOL_SIZE
      invariant slot.None? ==> newMask == mask && FirstFree(mask) == FirstFreeFrom(mask, idx)
      invariant slot.Some? ==> slot == FirstFree(mask) && newMask == Reserve(mask, slot.value)
      decreases POOL_SIZE - idx
    {
      if !IsReserved(newMask, idx) {
        slot := Some(idx);
        newMask := Reserve(newMask, idx);
      }
      idx := idx + 1;
    }
  }

  /** The empty mask written by os_init_sync reserves nothing. */
  lemma EmptyMaskReservesNothing(i: nat)
    requires i < POOL_SIZE
    ensures !IsReserved(0, i)
  {
  }
}
