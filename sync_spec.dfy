/** What the nanokernel branch of the synchronisation services does to one pool
    of 32 `nano_sem` objects, stated as functions of the pool's value.

    The semaphore pool and the mutex pool have the same shape: a reservation
    mask and the signal count `nsig` of each slot. A mutex is a nano_sem used
    as a binary semaphore (1 = unlocked, 0 = locked).

    Each kernel primitive is one atomic step on a count:
    - a give adds one signal;
    - a non-blocking take consumes a signal if there is one;
    - a blocking take always ends holding one signal. If the count was
      positive it consumes one. If it was not, the give that wakes the waiter
      (another party's, or the timeout callback's) is the one it consumes, so
      the count it returns to is unchanged. */
module SyncSpec {
  import opened OsTypes
  import opened PoolMask

  /** T_SEMAPHORE / T_MUTEX: null, or the object at a slot of the pool. */
  datatype Handle = Null | Slot(index: nat)

  /** The `timeout` argument: OS_NO_WAIT, OS_WAIT_FOREVER, or a number of milliseconds. */
  datatype Timeout = NoWait | WaitForever | Millis(ms: nat)

  /** What the timer gives a bounded wait: was a timer available to arm, and
      did its callback run (setting `timedout`) before the waiter resumed. */
  datatype TimerEnv = TimerEnv(available: bool, fired: bool)

  /** One pool: its in-use mask and the `nsig` field of each of its 32 objects. */
  datatype Pool = Pool(inUse: bv32, nsig: seq<int>)

  predicate WellFormed(p: Pool)
  {
    |p.nsig| == POOL_SIZE
  }

  /** _IsSemaphoreValid / _IsMutexValid: non-null, index below 32, reserved. */
  predicate IsValid(p: Pool, h: Handle)
  {
    h.Slot? && h.index < POOL_SIZE && IsReserved(p.inUse, h.index)
  }

  /** The count of a valid handle's object. */
  function Count(p: Pool, h: Handle): int
    requires WellFormed(p) && IsValid(p, h)
  {
    p.nsig[h.index]
  }

  /** The same pool with slot `k`'s count replaced. */
  function WithCount(p: Pool, k: nat, n: int): (q: Pool)
    requires WellFormed(p) && k < POOL_SIZE
    ensures WellFormed(q) && q.inUse == p.inUse && q.nsig[k] == n
    ensures forall j | 0 <= j < POOL_SIZE && j != k :: q.nsig[j] == p.nsig[j]
    ensures n == p.nsig[k] ==> q == p
  {
    assert n == p.nsig[k] ==> p.nsig[k := n] == p.nsig;
    p.(nsig := p.nsig[k := n])
  }

  /** The assignment of a uint32_t value to the int field `nsig`: values of
      2^31 and above come out negative (two's complement). */
  function Int32Of(u: nat): (r: int)
    requires u < 0x1_0000_0000
    ensures -0x8000_0000 <= r < 0x8000_0000
    ensures r == u || r == u - 0x1_0000_0000
  {
    if u < 0x8000_0000 then u else u - 0x1_0000_0000
  }

  /** Slot `h` was the lowest free slot of `p`; `q` reserves it, keeps every
      other bit, and gives it the count `initial`. */
  predicate CreatedLowest(p: Pool, q: Pool, h: Handle, initial: int)
  {
    && WellFormed(p) && WellFormed(q) && h.Slot?
    && var k := h.index;
    && k < POOL_SIZE
    && !IsReserved(p.inUse, k)
    && (forall j | 0 <= j < k :: IsReserved(p.inUse, j))
    && IsReserved(q.inUse, k)
    && (forall j | 0 <= j < POOL_SIZE && j != k :: IsReserved(q.inUse, j) == IsReserved(p.inUse, j))
    && q.nsig == p.nsig[k := initial]
  }

  /** The body shared by semaphore_create and mutex_create: refuse ISR level,
      take the lowest free slot, panic when all 32 are reserved. */
  function CreateObject(p: Pool, lvl: ExecLevel, initial: int): (r: (Pool, Outcome<Handle>))
    requires WellFormed(p)
    ensures WellFormed(r.0)
    ensures lvl == Isr ==> r.1 == Panic(ErrNotAllowed) && r.0 == p
    ensures lvl != Isr && AllReserved(p.inUse) ==> r.1 == Panic(Err) && r.0 == p
    ensures lvl != Isr && !AllReserved(p.inUse) ==>
      r.1.Return? && CreatedLowest(p, r.0, r.1.value, initial) && IsValid(r.0, r.1.value)
  {
    if lvl == Isr then (p, Panic(ErrNotAllowed))
    else match FirstFree(p.inUse)
      case None => (p, Panic(Err))
      case Some(k) =>
        var q := Pool(Reserve(p.inUse, k), p.nsig[k := initial]);
        ReserveLowestFree(p, q, k, initial);
        (q, Return(Slot(k)))
  }

  lemma ReserveLowestFree(p: Pool, q: Pool, k: nat, initial: int)
    requires WellFormed(p) && FirstFree(p.inUse) == Some(k)
    requires q == Pool(Reserve(p.inUse, k), p.nsig[k := initial])
    ensures CreatedLowest(p, q, Slot(k), initial) && IsValid(q, Slot(k))
  {
  }

  /** semaphore_create(initialCount) */
  function SemaphoreCreate(p: Pool, lvl: ExecLevel, initialCount: nat): (r: (Pool, Outcome<Handle>))
    requires WellFormed(p) && initialCount < 0x1_0000_0000
    ensures WellFormed(r.0)
    ensures r.1.Return? ==> IsValid(r.0, r.1.value)
    ensures r.1.Return? && initialCount < 0x8000_0000 ==> Count(r.0, r.1.value) == initialCount
    ensures r.1.Panic? <==> lvl == Isr || AllReserved(p.inUse)
  {
    CreateObject(p, lvl, Int32Of(initialCount))
  }

  /** mutex_create(): a binary semaphore created unlocked. */
  function MutexCreate(p: Pool, lvl: ExecLevel): (r: (Pool, Outcome<Handle>))
    requires WellFormed(p)
    ensures WellFormed(r.0)
    ensures r.1.Return? ==> IsValid(r.0, r.1.value) && Count(r.0, r.1.value) == 1
    ensures r.1.Panic? <==> lvl == Isr || AllReserved(p.inUse)
  {
    CreateObject(p, lvl, 1)
  }

  /** semaphore_delete / mutex_delete: refuse ISR level, panic on an invalid
      handle, otherwise clear that slot's bit. (semaphore_delete tests the
      index against the pool size a second time; validity already implies it.) */
  function DeleteObject(p: Pool, lvl: ExecLevel, h: Handle): (r: (Pool, Outcome<()>))
    requires WellFormed(p)
    ensures WellFormed(r.0) && r.0.nsig == p.nsig
    ensures lvl == Isr ==> r == (p, Panic(ErrNotAllowed))
    ensures lvl != Isr && !IsValid(p, h) ==> r == (p, Panic(Err))
    ensures lvl != Isr && IsValid(p, h) ==>
      && r.1 == Return(())
      && !IsValid(r.0, h)
      && forall j | 0 <= j < POOL_SIZE && j != h.index :: IsReserved(r.0.inUse, j) == IsReserved(p.inUse, j)
  {
    if lvl == Isr then (p, Panic(ErrNotAllowed))
    else if !IsValid(p, h) then (p, Panic(Err))
    else (p.(inUse := Unreserve(p.inUse, h.index)), Return(()))
  }

  /** One blocking kernel take (nano_fiber_sem_take / nano_task_sem_take with
      TICKS_UNLIMITED): see the module comment. */
  function Taken(n: int): (r: int)
    ensures n > 0 ==> r == n - 1
    ensures n <= 0 ==> r == n
  {
    if n > 0 then n - 1 else n
  }

  /** nano_isr_sem_take(sem, TICKS_NONE): 1 and one signal fewer, or 0 and no change. */
  function KernelTryTake(n: int): (r: (int, int))
    ensures r.0 == 1 <==> n > 0
    ensures r.0 == 0 <==> n <= 0
    ensures r.1 == if n > 0 then n - 1 else n
  {
    if n > 0 then (1, n - 1) else (0, n)
  }

  /** The inline status test after a non-blocking take: 1 is success, anything else busy. */
  function TryTakeStatus(code: int): (e: OsErr)
    ensures e == Ok <==> code == 1
    ensures e == ErrBusy <==> code != 1
  {
    if code == 1 then Ok else ErrBusy
  }

  /** _WaitForSemaphore on a count `n`: the result and the count afterwards.
      Any timeout other than WAIT_FOREVER arms a timer, and the timer is deleted
      once the wait ends. The `lvl` argument of the source only chooses between
      the fiber and task forms of the kernel take, which act alike here. */
  function WaitForSemaphore(n: int, t: Timeout, env: TimerEnv): (r: (OsErr, int))
    ensures t == WaitForever ==> r.0 == Ok
    ensures t != WaitForever && !env.available ==> r == (Err, n)
    ensures t != WaitForever && env.available ==> (r.0 == ErrTimeout <==> env.fired)
    ensures t != WaitForever && env.available ==> (r.0 == Ok <==> !env.fired)
    ensures r.0 == Ok ==> r.1 == Taken(n)
    ensures r.0 != Ok ==> r.1 == n
  {
    if t == WaitForever then (Ok, Taken(n))
    else if !env.available then (Err, n)
    else if env.fired then (ErrTimeout, n)
    else (Ok, Taken(n))
  }

  /** The part of semaphore_take and mutex_lock after the handle and execution
      level have been accepted. */
  function TakeAccepted(p: Pool, k: nat, t: Timeout, env: TimerEnv): (r: (Pool, OsErr))
    requires WellFormed(p) && k < POOL_SIZE
    ensures WellFormed(r.0) && r.0.inUse == p.inUse
    ensures forall j | 0 <= j < POOL_SIZE && j != k :: r.0.nsig[j] == p.nsig[j]
    ensures t == NoWait && p.nsig[k] > 0 ==> r.1 == Ok && r.0.nsig[k] == p.nsig[k] - 1
    ensures t == NoWait && p.nsig[k] <= 0 ==> r == (p, ErrBusy)
    ensures t != NoWait ==> (r.1, r.0.nsig[k]) == WaitForSemaphore(p.nsig[k], t, env)
  {
    if t == NoWait then
      var (code, n) := KernelTryTake(p.nsig[k]);
      (WithCount(p, k, n), TryTakeStatus(code))
    else
      var (e, n) := WaitForSemaphore(p.nsig[k], t, env);
      (WithCount(p, k, n), e)
  }

  /** semaphore_take: the handle is checked first, then the execution level. */
  function SemaphoreTake(p: Pool, h: Handle, lvl: ExecLevel, t: Timeout, env: TimerEnv): (r: (Pool, OsErr))
    requires WellFormed(p)
    ensures WellFormed(r.0) && r.0.inUse == p.inUse
    ensures !IsValid(p, h) ==> r == (p, Err)
    ensures IsValid(p, h) && lvl == Isr ==> r == (p, ErrNotAllowed)
    ensures IsValid(p, h) && lvl != Isr && t == NoWait && Count(p, h) > 0 ==>
      r == (WithCount(p, h.index, Count(p, h) - 1), Ok)
    ensures IsValid(p, h) && lvl != Isr && t == NoWait && Count(p, h) <= 0 ==> r == (p, ErrBusy)
    ensures r.1 != Ok ==> r.0 == p
  {
    if !IsValid(p, h) then (p, Err)
    else if lvl == Isr then (p, ErrNotAllowed)
    else TakeAccepted(p, h.index, t, env)
  }

  /** semaphore_give: any execution level may give; an invalid handle reports E_OS_ERR. */
  function SemaphoreGive(p: Pool, h: Handle): (r: (Pool, OsErr))
    requires WellFormed(p)
    ensures WellFormed(r.0) && r.0.inUse == p.inUse
    ensures !IsValid(p, h) ==> r == (p, Err)
    ensures IsValid(p, h) ==> r.1 == Ok && Count(r.0, h) == Count(p, h) + 1
    ensures IsValid(p, h) ==> forall j | 0 <= j < POOL_SIZE && j != h.index :: r.0.nsig[j] == p.nsig[j]
  {
    if !IsValid(p, h) then (p, Err)
    else (WithCount(p, h.index, p.nsig[h.index] + 1), Ok)
  }

  /** semaphore_get_count: the object's `nsig`, or 0 with E_OS_ERR. */
  function SemaphoreGetCount(p: Pool, h: Handle): (r: (int, OsErr))
    requires WellFormed(p)
    ensures r.1 == Ok <==> IsValid(p, h)
    ensures r.1 != Ok ==> r == (0, Err)
    ensures IsValid(p, h) ==> r.0 == p.nsig[h.index]
  {
    if IsValid(p, h) then (p.nsig[h.index], Ok) else (0, Err)
  }

  /** mutex_lock: unlike semaphore_take, the execution level is checked first. */
  function MutexLock(p: Pool, h: Handle, lvl: ExecLevel, t: Timeout, env: TimerEnv): (r: (Pool, OsErr))
    requires WellFormed(p)
    ensures WellFormed(r.0) && r.0.inUse == p.inUse
    ensures lvl == Isr ==> r == (p, ErrNotAllowed)
    ensures lvl != Isr && !IsValid(p, h) ==> r == (p, Err)
    ensures lvl != Isr && IsValid(p, h) && t == NoWait ==>
      (r.1 == Ok <==> Count(p, h) > 0) && (r.1 != Ok ==> r.1 == ErrBusy)
    ensures r.1 == Ok ==> IsValid(p, h) && Count(r.0, h) == Taken(Count(p, h))
    ensures r.1 != Ok ==> r.0 == p
  {
    if lvl == Isr then (p, ErrNotAllowed)
    else if !IsValid(p, h) then (p, Err)
    else TakeAccepted(p, h.index, t, env)
  }

  /** mutex_unlock: panics from ISR level, on an invalid handle, and on a mutex
      that is not locked (`nsig > 0`); otherwise gives the binary semaphore. */
  function MutexUnlock(p: Pool, h: Handle, lvl: ExecLevel): (r: (Pool, Outcome<()>))
    requires WellFormed(p)
    ensures WellFormed(r.0) && r.0.inUse == p.inUse
    ensures lvl == Isr ==> r == (p, Panic(ErrNotAllowed))
    ensures lvl != Isr && !IsValid(p, h) ==> r == (p, Panic(Err))
    ensures lvl != Isr && IsValid(p, h) && Count(p, h) > 0 ==> r == (p, Panic(Err))
    ensures r.1.Return? <==> lvl != Isr && IsValid(p, h) && Count(p, h) <= 0
    ensures r.1.Return? ==> r.0 == WithCount(p, h.index, Count(p, h) + 1)
    ensures r.1.Panic? ==> r.0 == p
  {
    if lvl == Isr then (p, Panic(ErrNotAllowed))
    else if !IsValid(p, h) then (p, Panic(Err))
    else if p.nsig[h.index] > 0 then (p, Panic(Err))
    else (WithCount(p, h.index, p.nsig[h.index] + 1), Return(()))
  }

  /** os_init_sync on one pool: every slot unreserved. */
  function InitPool(p: Pool): (q: Pool)
    ensures q.nsig == p.nsig
    ensures forall h :: !IsValid(q, h)
  {
    EmptyMaskHasNoValidHandle(p.nsig);
    Pool(0, p.nsig)
  }

  lemma EmptyMaskHasNoValidHandle(nsig: seq<int>)
    ensures forall h :: !IsValid(Pool(0, nsig), h)
  {
    forall h: Handle | h.Slot? && h.index < POOL_SIZE
      ensures !IsReserved(0, h.index)
    {
      EmptyMaskReservesNothing(h.index);
    }
  }

  /** _ZephyrErrToOsErr, nanokernel arm: 1 is OK, 0 is BUSY, anything else UNKNOWN. */
  function NanoErrToOsErr(code: int): (e: OsErr)
    ensures e == Ok <==> code == 1
    ensures e == ErrBusy <==> code == 0
    ensures e == ErrUnknown <==> code != 0 && code != 1
  {
    if code == 0 then ErrBusy
    else if code == 1 then Ok
    else ErrUnknown
  }

  /** Return codes of the microkernel's semaphore calls: RC_OK, RC_FAIL, RC_TIME, or another code. */
  datatype MicroRc = RcOk | RcFail | RcTime | RcOther(code: int)

  /** _ZephyrErrToOsErr, microkernel arm. */
  function MicroErrToOsErr(rc: MicroRc): (e: OsErr)
    ensures e == Ok <==> rc == RcOk
    ensures e == ErrBusy <==> rc == RcFail
    ensures e == ErrTimeout <==> rc == RcTime
    ensures e == ErrUnknown <==> rc.RcOther?
  {
    match rc
    case RcOk => Ok
    case RcFail => ErrBusy
    case RcTime => ErrTimeout
    case RcOther(_) => ErrUnknown
  }
}
