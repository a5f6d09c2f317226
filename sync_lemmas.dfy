/** Properties of the synchronisation services that relate several calls. */
module SyncLemmas {
  import opened OsTypes
  import opened PoolMask
  import opened SyncSpec

  /** Slots 0 .. m-1 are reserved and no other. */
  predicate ReservedBelow(mask: bv32, m: nat)
  {
    forall j | 0 <= j < POOL_SIZE :: IsReserved(mask, j) <==> j < m
  }

  /** On a pool whose first `m` slots are taken, create hands out slot `m`. */
  lemma CreateNext(p: Pool, lvl: ExecLevel, initial: int, m: nat)
    requires WellFormed(p) && lvl != Isr && m < POOL_SIZE && ReservedBelow(p.inUse, m)
    ensures CreateObject(p, lvl, initial).1 == Return(Slot(m))
    ensures ReservedBelow(CreateObject(p, lvl, initial).0.inUse, m + 1)
  {
    assert !IsReserved(p.inUse, m);
    var (q, out) := CreateObject(p, lvl, initial);
    assert CreatedLowest(p, q, out.value, initial);
  }

  /** `n` creates in a row at the same execution level. */
  function CreateMany(p: Pool, lvl: ExecLevel, initial: int, n: nat): (r: (Pool, seq<Outcome<Handle>>))
    requires WellFormed(p)
    ensures WellFormed(r.0) && |r.1| == n
  {
    if n == 0 then (p, [])
    else
      var (q, outs) := CreateMany(p, lvl, initial, n - 1);
      var (q', out) := CreateObject(q, lvl, initial);
      (q', outs + [out])
  }

  lemma {:induction false} CreateManyFromPrefix(p: Pool, lvl: ExecLevel, initial: int, m: nat, n: nat)
    requires WellFormed(p) && lvl != Isr && ReservedBelow(p.inUse, m) && m + n <= POOL_SIZE
    ensures ReservedBelow(CreateMany(p, lvl, initial, n).0.inUse, m + n)
    ensures forall i | 0 <= i < n :: CreateMany(p, lvl, initial, n).1[i] == Return(Slot(m + i))
  {
    if n > 0 {
      CreateManyFromPrefix(p, lvl, initial, m, n - 1);
      var (q, outs) := CreateMany(p, lvl, initial, n - 1);
      CreateNext(q, lvl, initial, m + n - 1);
    }
  }

  /** From an initialised pool, N <= 32 creates in a row return the N distinct
      handles of slots 0 .. N-1, all valid afterwards; once all 32 are handed
      out, the next create panics with E_OS_ERR. */
  lemma CreateFromEmptyPool(p: Pool, lvl: ExecLevel, initial: int, n: nat)
    requires WellFormed(p) && p.inUse == 0 && lvl != Isr && n <= POOL_SIZE
    ensures var (q, outs) := CreateMany(p, lvl, initial, n);
      && (forall i | 0 <= i < n :: outs[i] == Return(Slot(i)) && IsValid(q, Slot(i)))
      && (forall i, j | 0 <= i < j < n :: outs[i] != outs[j])
      && (n == POOL_SIZE ==> CreateObject(q, lvl, initial).1 == Panic(Err))
  {
    forall j | 0 <= j < POOL_SIZE
      ensures !IsReserved(p.inUse, j)
    {
      EmptyMaskReservesNothing(j);
    }
    assert ReservedBelow(p.inUse, 0);
    CreateManyFromPrefix(p, lvl, initial, 0, n);
    var (q, outs) := CreateMany(p, lvl, initial, n);
    assert ReservedBelow(q.inUse, n);
    forall i | 0 <= i < n
      ensures outs[i] == Return(Slot(i)) && IsValid(q, Slot(i))
    {
      assert IsReserved(q.inUse, i);
    }
    if n == POOL_SIZE {
      assert AllReserved(q.inUse);
    }
  }

  /** Deleting what create returned reserves exactly what was reserved before. */
  lemma CreateThenDelete(p: Pool, lvl: ExecLevel, initial: int)
    requires WellFormed(p) && lvl != Isr && !AllReserved(p.inUse)
    ensures var (q, out) := CreateObject(p, lvl, initial);
      && out.Return?
      && var (q', done) := DeleteObject(q, lvl, out.value);
      && done == Return(())
      && forall j | 0 <= j < POOL_SIZE :: IsReserved(q'.inUse, j) == IsReserved(p.inUse, j)
  {
    var (q, out) := CreateObject(p, lvl, initial);
    assert CreatedLowest(p, q, out.value, initial);
  }

  /** A deleted handle is rejected by every service that checks validity. */
  lemma DeletedHandleIsRejected(p: Pool, lvl: ExecLevel, h: Handle, lvl2: ExecLevel, t: Timeout, env: TimerEnv)
    requires WellFormed(p) && lvl != Isr && IsValid(p, h)
    ensures var q := DeleteObject(p, lvl, h).0;
      && SemaphoreTake(q, h, lvl2, t, env) == (q, Err)
      && SemaphoreGive(q, h) == (q, Err)
      && SemaphoreGetCount(q, h) == (0, Err)
      && (lvl2 != Isr ==> MutexLock(q, h, lvl2, t, env) == (q, Err))
      && (lvl2 != Isr ==> MutexUnlock(q, h, lvl2) == (q, Panic(Err)))
      && (lvl2 != Isr ==> DeleteObject(q, lvl2, h) == (q, Panic(Err)))
  {
  }

  /** `k` gives in a row. */
  function GiveMany(p: Pool, h: Handle, k: nat): (q: Pool)
    requires WellFormed(p)
    ensures WellFormed(q) && q.inUse == p.inUse
  {
    if k == 0 then p else SemaphoreGive(GiveMany(p, h, k - 1), h).0
  }

  /** `k` non-blocking takes in a row, with their results. */
  function TakeMany(p: Pool, h: Handle, lvl: ExecLevel, k: nat): (r: (Pool, seq<OsErr>))
    requires WellFormed(p)
    ensures WellFormed(r.0) && r.0.inUse == p.inUse && |r.1| == k
  {
    if k == 0 then (p, [])
    else
      var (q, errs) := TakeMany(p, h, lvl, k - 1);
      var (q', e) := SemaphoreTake(q, h, lvl, NoWait, TimerEnv(false, false));
      (q', errs + [e])
  }

  lemma {:induction false} GiveManyAddsSignals(p: Pool, h: Handle, k: nat)
    requires WellFormed(p) && IsValid(p, h)
    ensures Count(GiveMany(p, h, k), h) == Count(p, h) + k
  {
    if k > 0 {
      GiveManyAddsSignals(p, h, k - 1);
    }
  }

  lemma {:induction false} TakeManySucceeds(p: Pool, h: Handle, lvl: ExecLevel, k: nat)
    requires WellFormed(p) && IsValid(p, h) && lvl != Isr && Count(p, h) >= k
    ensures forall i | 0 <= i < k :: TakeMany(p, h, lvl, k).1[i] == Ok
    ensures Count(TakeMany(p, h, lvl, k).0, h) == Count(p, h) - k
  {
    if k > 0 {
      TakeManySucceeds(p, h, lvl, k - 1);
    }
  }

  /** K gives followed by K non-blocking takes: every take succeeds without
      waiting, and the count is back where it started. */
  lemma GiveThenTake(p: Pool, h: Handle, lvl: ExecLevel, k: nat)
    requires WellFormed(p) && IsValid(p, h) && lvl != Isr && Count(p, h) >= 0
    ensures var (q, errs) := TakeMany(GiveMany(p, h, k), h, lvl, k);
      (forall i | 0 <= i < k :: errs[i] == Ok) && Count(q, h) == Count(p, h)
  {
    GiveManyAddsSignals(p, h, k);
    TakeManySucceeds(GiveMany(p, h, k), h, lvl, k);
  }

  /** Every mutex count is 0 (locked) or 1 (unlocked). */
  predicate BinaryCounts(p: Pool)
  {
    WellFormed(p) && forall i | 0 <= i < POOL_SIZE :: p.nsig[i] == 0 || p.nsig[i] == 1
  }

  /** The mutex services keep every count binary. */
  lemma MutexOpsKeepCountsBinary(p: Pool, h: Handle, lvl: ExecLevel, t: Timeout, env: TimerEnv)
    requires BinaryCounts(p)
    ensures BinaryCounts(MutexCreate(p, lvl).0)
    ensures BinaryCounts(MutexLock(p, h, lvl, t, env).0)
    ensures BinaryCounts(MutexUnlock(p, h, lvl).0)
    ensures BinaryCounts(DeleteObject(p, lvl, h).0)
  {
    var (q, out) := MutexCreate(p, lvl);
    if out.Return? {
      assert q.nsig == p.nsig[out.value.index := 1];
    }
  }

  /** A mutex is not recursive: once locked, a second non-blocking lock is
      refused as busy; one unlock frees it and a second unlock panics. */
  lemma MutexIsNotRecursive(p: Pool, h: Handle, lvl: ExecLevel, env: TimerEnv)
    requires WellFormed(p) && IsValid(p, h) && lvl != Isr && Count(p, h) == 1
    ensures var (q, e) := MutexLock(p, h, lvl, NoWait, env);
      && e == Ok && Count(q, h) == 0
      && MutexLock(q, h, lvl, NoWait, env) == (q, ErrBusy)
      && var (q', u) := MutexUnlock(q, h, lvl);
      && u == Return(()) && q' == p
      && MutexUnlock(q', h, lvl) == (q', Panic(Err))
  {
    var (q, e) := MutexLock(p, h, lvl, NoWait, env);
    assert q.nsig == p.nsig[h.index := 0];
    assert q.nsig[h.index := 1] == p.nsig;
  }

  /** The inline test after a non-blocking take agrees with the nanokernel arm
      of _ZephyrErrToOsErr on the two codes the kernel returns. */
  lemma TryTakeStatusAgreesWithMapping(n: int)
    ensures TryTakeStatus(KernelTryTake(n).0) == NanoErrToOsErr(KernelTryTake(n).0)
  {
  }
}
