/** The synchronisation services of sync.c (nanokernel branch) as objects
    whose methods update their fields in place: the two reservation masks,
    the two pools of `nsig` counts, the scheduling nest counter with its
    saved key, and the reader/writer lock structure. Each method is proved to
    leave the state that the matching function of SyncSpec, SchedSpec or
    RwLockSpec computes from the old state. The execution level, the key that
    irq_lock returns and the timer's behaviour are parameters. */
module Sync {
  import opened OsTypes
  import opened PoolMask
  import opened SyncSpec
  import opened SchedSpec
  import RwLockSpec

  /** The create body shared by semaphore_create and mutex_create, on the
      pool array `a` whose reservation mask is `mask`. */
  method CreateIn(a: array<int>, mask: bv32, lvl: ExecLevel, initial: int) returns (newMask: bv32, o: Outcome<Handle>)
    requires a.Length == POOL_SIZE
    modifies a
    ensures (Pool(newMask, a[..]), o) == CreateObject(Pool(mask, old(a[..])), lvl, initial)
  {
    if lvl == Isr {
      newMask, o := mask, Panic(ErrNotAllowed);
      return;
    }
    var slot;
    newMask, slot := ScanAndReserve(mask);
    match slot {
      case None =>
        o := Panic(Err);
      case Some(k) =>
        a[k] := initial;
        o := Return(Slot(k));
    }
  }

  class SyncServices {
    /** g_SemaphoresInUse and g_MutexesInUse. */
    var semInUse: bv32
    var mutInUse: bv32
    /** The `nsig` field of each object of g_SemaphorePool and g_MutexPool. */
    const semPool: array<int>
    const mutPool: array<int>
    /** g_disableSchedNestCount and g_ItLockKey. */
    var nestCount: Int16
    var itLockKey: bv32

    ghost predicate Valid()
    {
      semPool.Length == POOL_SIZE && mutPool.Length == POOL_SIZE && semPool != mutPool
    }

    function SemPool(): Pool
      reads this, semPool
    {
      Pool(semInUse, semPool[..])
    }

    function MutPool(): Pool
      reads this, mutPool
    {
      Pool(mutInUse, mutPool[..])
    }

    function Sched(): SchedState
      reads this
    {
      SchedState(nestCount, itLockKey)
    }

    /** The zero-initialised static storage of the module. */
    constructor ()
      ensures Valid()
      ensures SemPool() == Pool(0, seq(POOL_SIZE, _ => 0))
      ensures MutPool() == Pool(0, seq(POOL_SIZE, _ => 0))
      ensures Sched() == SchedState(0, 0)
    {
      semInUse, mutInUse := 0, 0;
      semPool := new int[POOL_SIZE](_ => 0);
      mutPool := new int[POOL_SIZE](_ => 0);
      nestCount, itLockKey := 0, 0;
    }

    /** os_init_sync: both masks cleared. */
    method OsInitSync()
      requires Valid()
      modifies this
      ensures SemPool() == InitPool(old(SemPool())) && MutPool() == InitPool(old(MutPool()))
      ensures Sched() == old(Sched())
    {
      semInUse := 0;
      mutInUse := 0;
    }

    /** disable_scheduling; `irqKey` is what irq_lock returned. */
    method DisableScheduling(irqKey: bv32)
      modifies this
      ensures Sched() == SchedSpec.DisableScheduling(old(Sched()), irqKey)
      ensures semInUse == old(semInUse) && mutInUse == old(mutInUse)
    {
      if nestCount == 0 {
        itLockKey := irqKey;
      }
      nestCount := Wrap16(nestCount + 1);
    }

    /** enable_scheduling; `restored` is the key passed to irq_unlock, if any. */
    method EnableScheduling() returns (restored: Option<bv32>)
      modifies this
      ensures (Sched(), restored) == SchedSpec.EnableScheduling(old(Sched()))
      ensures semInUse == old(semInUse) && mutInUse == old(mutInUse)
    {
      nestCount := Wrap16(nestCount - 1);
      restored := None;
      if nestCount == 0 {
        restored := Some(itLockKey);
      }
    }

    /** _IsSemaphoreValid */
    predicate IsSemaphoreValid(h: Handle)
      reads this, semPool
    {
      IsValid(SemPool(), h)
    }

    /** _IsMutexValid */
    predicate IsMutexValid(h: Handle)
      reads this, mutPool
    {
      IsValid(MutPool(), h)
    }

    /** semaphore_create */
    method SemaphoreCreate(lvl: ExecLevel, initialCount: nat) returns (o: Outcome<Handle>)
      requires Valid() && initialCount < 0x1_0000_0000
      modifies this, semPool
      ensures (SemPool(), o) == SyncSpec.SemaphoreCreate(old(SemPool()), lvl, initialCount)
      ensures MutPool() == old(MutPool()) && Sched() == old(Sched())
    {
      var m;
      m, o := CreateIn(semPool, semInUse, lvl, Int32Of(initialCount));
      semInUse := m;
    }

    /** mutex_create */
    method MutexCreate(lvl: ExecLevel) returns (o: Outcome<Handle>)
      requires Valid()
      modifies this, mutPool
      ensures (MutPool(), o) == SyncSpec.MutexCreate(old(MutPool()), lvl)
      ensures SemPool() == old(SemPool()) && Sched() == old(Sched())
    {
      var m;
      m, o := CreateIn(mutPool, mutInUse, lvl, 1);
      mutInUse := m;
    }

    /** semaphore_delete, with its second test of the index against the pool size. */
    method SemaphoreDelete(lvl: ExecLevel, h: Handle) returns (o: Outcome<()>)
      requires Valid()
      modifies this
      ensures (SemPool(), o) == DeleteObject(old(SemPool()), lvl, h)
      ensures MutPool() == old(MutPool()) && Sched() == old(Sched())
    {
      if lvl == Isr {
        o := Panic(ErrNotAllowed);
      } else if !IsSemaphoreValid(h) {
        o := Panic(Err);
      } else {
        if h.index < POOL_SIZE {
          semInUse := Unreserve(semInUse, h.index);
        }
        o := Return(());
      }
    }

    /** mutex_delete */
    method MutexDelete(lvl: ExecLevel, h: Handle) returns (o: Outcome<()>)
      requires Valid()
      modifies this
      ensures (MutPool(), o) == DeleteObject(old(MutPool()), lvl, h)
      ensures SemPool() == old(SemPool()) && Sched() == old(Sched())
    {
      if lvl == Isr {
        o := Panic(ErrNotAllowed);
      } else if !IsMutexValid(h) {
        o := Panic(Err);
      } else {
        mutInUse := Unreserve(mutInUse, h.index);
        o := Return(());
      }
    }

    /** semaphore_give; the result is what error_management stores in `*err`. */
    method SemaphoreGive(h: Handle) returns (err: OsErr)
      requires Valid()
      modifies semPool
      ensures (SemPool(), err) == SyncSpec.SemaphoreGive(old(SemPool()), h)
    {
      if IsSemaphoreValid(h) {
        semPool[h.index] := semPool[h.index] + 1;
        err := Ok;
      } else {
        err := Err;
      }
    }

    /** The take of semaphore_take and mutex_lock on slot `k` of `a`, once
        the handle and the level have been accepted. */
    static method TakeIn(a: array<int>, inUse: bv32, k: nat, t: Timeout, env: TimerEnv) returns (err: OsErr)
      requires a.Length == POOL_SIZE && k < POOL_SIZE
      modifies a
      ensures (Pool(inUse, a[..]), err) == TakeAccepted(Pool(inUse, old(a[..])), k, t, env)
    {
      if t == NoWait {
        var (code, n) := KernelTryTake(a[k]);
        a[k] := n;
        err := if code == 1 then Ok else ErrBusy;
      } else {
        var (e, n) := WaitForSemaphore(a[k], t, env);
        a[k] := n;
        err := e;
      }
    }

    /** semaphore_take */
    method SemaphoreTake(h: Handle, lvl: ExecLevel, t: Timeout, env: TimerEnv) returns (err: OsErr)
      requires Valid()
      modifies semPool
      ensures (SemPool(), err) == SyncSpec.SemaphoreTake(old(SemPool()), h, lvl, t, env)
    {
      if !IsSemaphoreValid(h) {
        err := Err;
      } else if lvl == Isr {
        err := ErrNotAllowed;
      } else {
        err := TakeIn(semPool, semInUse, h.index, t, env);
      }
    }

    /** semaphore_get_count */
    method SemaphoreGetCount(h: Handle) returns (count: int, err: OsErr)
      requires Valid()
      ensures (count, err) == SyncSpec.SemaphoreGetCount(SemPool(), h)
      ensures err == Ok ==> count == Count(SemPool(), h)
    {
      count, err := 0, Err;
      if IsSemaphoreValid(h) {
        count, err := semPool[h.index], Ok;
      }
    }

    /** mutex_lock */
    method MutexLock(h: Handle, lvl: ExecLevel, t: Timeout, env: TimerEnv) returns (err: OsErr)
      requires Valid()
      modifies mutPool
      ensures (MutPool(), err) == SyncSpec.MutexLock(old(MutPool()), h, lvl, t, env)
    {
      if lvl == Isr {
        err := ErrNotAllowed;
      } else if !IsMutexValid(h) {
        err := Err;
      } else {
        err := TakeIn(mutPool, mutInUse, h.index, t, env);
      }
    }

    /** mutex_unlock */
    method MutexUnlock(h: Handle, lvl: ExecLevel) returns (o: Outcome<()>)
      requires Valid()
      modifies mutPool
      ensures (MutPool(), o) == SyncSpec.MutexUnlock(old(MutPool()), h, lvl)
    {
      if lvl == Isr {
        o := Panic(ErrNotAllowed);
      } else if !IsMutexValid(h) {
        o := Panic(Err);
      } else if mutPool[h.index] > 0 {
        o := Panic(Err);
      } else {
        mutPool[h.index] := mutPool[h.index] + 1;
        o := Return(());
      }
    }
  }

  /** struct rwlock_t */
  class RwLock {
    var rdmtx: Handle
    var wrmtx: Handle
    var readCount: int

    function View(): RwLockSpec.RwLock
      reads this
    {
      RwLockSpec.RwLock(rdmtx, wrmtx, readCount)
    }

    /** Storage for a lock, not yet initialised. */
    constructor ()
      ensures View() == RwLockSpec.RwLock(Null, Null, 0)
    {
      rdmtx, wrmtx, readCount := Null, Null, 0;
    }

    /** rwlock_init */
    method Init(s: SyncServices, lvl: ExecLevel) returns (o: Outcome<()>)
      requires s.Valid()
      modifies this, s, s.mutPool
      ensures (s.MutPool(), View(), o) == RwLockSpec.RwInit(old(s.MutPool()), old(View()), lvl)
      ensures s.SemPool() == old(s.SemPool()) && s.Sched() == old(s.Sched())
    {
      var c1 := s.MutexCreate(lvl);
      if c1.Panic? {
        o := Panic(c1.code);
        return;
      }
      rdmtx := c1.value;
      var c2 := s.MutexCreate(lvl);
      if c2.Panic? {
        o := Panic(c2.code);
        return;
      }
      wrmtx := c2.value;
      readCount := 0;
      o := Return(());
    }

    /** rwlock_delete */
    method Delete(s: SyncServices, lvl: ExecLevel) returns (o: Outcome<()>)
      requires s.Valid()
      modifies this, s
      ensures (s.MutPool(), View(), o) == RwLockSpec.RwDelete(old(s.MutPool()), old(View()), lvl)
      ensures s.SemPool() == old(s.SemPool()) && s.Sched() == old(s.Sched())
    {
      o := s.MutexDelete(lvl, rdmtx);
      if o.Panic? {
        return;
      }
      o := s.MutexDelete(lvl, wrmtx);
      if o.Panic? {
        return;
      }
      readCount := 0;
    }

    /** rwlock_rdlock */
    method RdLock(s: SyncServices, lvl: ExecLevel, t: Timeout, env1: TimerEnv, env2: TimerEnv) returns (o: Outcome<()>)
      requires s.Valid()
      modifies this, s.mutPool
      ensures (s.MutPool(), View(), o) == RwLockSpec.RdLock(old(s.MutPool()), old(View()), lvl, t, env1, env2)
    {
      var e1 := s.MutexLock(rdmtx, lvl, t, env1);
      if e1 != Ok {
        o := Return(());
        return;
      }
      readCount := readCount + 1;
      if readCount == 1 {
        var e2 := s.MutexLock(wrmtx, lvl, t, env2);
        if e2 != Ok {
          o := Return(());
          return;
        }
      }
      o := s.MutexUnlock(rdmtx, lvl);
    }

    /** rwlock_rdunlock */
    method RdUnlock(s: SyncServices, lvl: ExecLevel) returns (o: Outcome<()>)
      requires s.Valid()
      modifies this, s.mutPool
      ensures (s.MutPool(), View(), o) == RwLockSpec.RdUnlock(old(s.MutPool()), old(View()), lvl)
    {
      var _ := s.MutexLock(rdmtx, lvl, WaitForever, RwLockSpec.NoTimer);
      readCount := readCount - 1;
      if readCount == 0 {
        o := s.MutexUnlock(wrmtx, lvl);
        if o.Panic? {
          return;
        }
      }
      o := s.MutexUnlock(rdmtx, lvl);
    }

    /** rwlock_wrlock */
    method WrLock(s: SyncServices, lvl: ExecLevel, t: Timeout, env: TimerEnv)
      requires s.Valid()
      modifies s.mutPool
      ensures s.MutPool() == RwLockSpec.WrLock(old(s.MutPool()), View(), lvl, t, env)
    {
      var _ := s.MutexLock(wrmtx, lvl, t, env);
    }

    /** rwlock_wrunlock */
    method WrUnlock(s: SyncServices, lvl: ExecLevel) returns (o: Outcome<()>)
      requires s.Valid()
      modifies s.mutPool
      ensures (s.MutPool(), o) == RwLockSpec.WrUnlock(old(s.MutPool()), View(), lvl)
    {
      o := s.MutexUnlock(wrmtx, lvl);
    }
  }
}
