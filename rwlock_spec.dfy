/** The reader/writer lock built from two mutexes of the mutex pool and a
    reader count (rwlock_init .. rwlock_wrunlock), as functions of the mutex
    pool's value and the lock structure's value. */
module RwLockSpec {
  import opened OsTypes
  import opened PoolMask
  import opened SyncSpec

  /** struct rwlock_t: the read mutex, the write mutex and read_count. */
  datatype RwLock = RwLock(rd: Handle, wr: Handle, readCount: int)

  /** What a mutex_lock whose result is dropped meets: never a timer, since
      rwlock_rdunlock waits forever. */
  const NoTimer: TimerEnv := TimerEnv(false, false)

  /** rwlock_init: two mutex_create calls, then read_count := 0. A panic in
      either create stops there. */
  function RwInit(p: Pool, l: RwLock, lvl: ExecLevel): (r: (Pool, RwLock, Outcome<()>))
    requires WellFormed(p)
    ensures WellFormed(r.0)
    ensures r.2.Return? ==> r.1.readCount == 0 && IsValid(r.0, r.1.rd) && IsValid(r.0, r.1.wr)
    ensures r.2.Panic? ==> r.1.wr == l.wr && r.1.readCount == l.readCount
  {
    var (p1, o1) := MutexCreate(p, lvl);
    if o1.Panic? then (p1, l, Panic(o1.code))
    else
      var (p2, o2) := MutexCreate(p1, lvl);
      if o2.Panic? then (p2, l.(rd := o1.value), Panic(o2.code))
      else (p2, RwLock(o1.value, o2.value, 0), Return(()))
  }

  /** rwlock_delete: delete both mutexes, then read_count := 0. */
  function RwDelete(p: Pool, l: RwLock, lvl: ExecLevel): (r: (Pool, RwLock, Outcome<()>))
    requires WellFormed(p)
    ensures WellFormed(r.0) && r.0.nsig == p.nsig
    ensures r.1.rd == l.rd && r.1.wr == l.wr
    ensures r.2.Return? ==> r.1.readCount == 0 && !IsValid(r.0, l.wr)
    ensures r.2.Panic? ==> r.1 == l
  {
    var (p1, o1) := DeleteObject(p, lvl, l.rd);
    if o1.Panic? then (p1, l, o1)
    else
      var (p2, o2) := DeleteObject(p1, lvl, l.wr);
      if o2.Panic? then (p2, l, o2)
      else (p2, l.(readCount := 0), Return(()))
  }

  /** rwlock_rdlock. `env1` and `env2` are what the timer does during the two
      mutex_lock calls. If the write-mutex lock fails, the function returns
      with read_count already incremented and the read mutex still held. */
  function RdLock(p: Pool, l: RwLock, lvl: ExecLevel, t: Timeout, env1: TimerEnv, env2: TimerEnv): (r: (Pool, RwLock, Outcome<()>))
    requires WellFormed(p)
    ensures WellFormed(r.0) && r.0.inUse == p.inUse
    ensures r.1.rd == l.rd && r.1.wr == l.wr
    ensures r.1.readCount == l.readCount || r.1.readCount == l.readCount + 1
    ensures r.1.readCount == l.readCount ==> r.0 == p && r.2 == Return(())
  {
    var (p1, e1) := MutexLock(p, l.rd, lvl, t, env1);
    if e1 != Ok then (p1, l, Return(()))
    else
      var l1 := l.(readCount := l.readCount + 1);
      var (p2, e2) := if l1.readCount == 1 then MutexLock(p1, l.wr, lvl, t, env2) else (p1, Ok);
      if e2 != Ok then (p2, l1, Return(()))
      else
        var (p3, o) := MutexUnlock(p2, l.rd, lvl);
        (p3, l1, o)
  }

  /** rwlock_rdunlock: lock the read mutex (waiting forever, result dropped),
      decrement read_count, release the write mutex when it reaches 0, release
      the read mutex. */
  function RdUnlock(p: Pool, l: RwLock, lvl: ExecLevel): (r: (Pool, RwLock, Outcome<()>))
    requires WellFormed(p)
    ensures WellFormed(r.0) && r.0.inUse == p.inUse
    ensures r.1 == l.(readCount := l.readCount - 1)
  {
    var (p1, _) := MutexLock(p, l.rd, lvl, WaitForever, NoTimer);
    var l1 := l.(readCount := l.readCount - 1);
    var (p2, o2) := if l1.readCount == 0 then MutexUnlock(p1, l.wr, lvl) else (p1, Return(()));
    if o2.Panic? then (p2, l1, o2)
    else
      var (p3, o3) := MutexUnlock(p2, l.rd, lvl);
      (p3, l1, o3)
  }

  /** rwlock_wrlock: mutex_lock on the write mutex; its result is dropped. */
  function WrLock(p: Pool, l: RwLock, lvl: ExecLevel, t: Timeout, env: TimerEnv): (q: Pool)
    requires WellFormed(p)
    ensures WellFormed(q) && q.inUse == p.inUse
    ensures q != p ==> lvl != Isr && IsValid(p, l.wr) && Count(q, l.wr) == Taken(Count(p, l.wr))
  {
    MutexLock(p, l.wr, lvl, t, env).0
  }

  /** rwlock_wrunlock: mutex_unlock on the write mutex. */
  function WrUnlock(p: Pool, l: RwLock, lvl: ExecLevel): (r: (Pool, Outcome<()>))
    requires WellFormed(p)
    ensures WellFormed(r.0) && r.0.inUse == p.inUse
    ensures r.1.Return? <==> lvl != Isr && IsValid(p, l.wr) && Count(p, l.wr) <= 0
    ensures r.1.Return? ==> Count(r.0, l.wr) == Count(p, l.wr) + 1
    ensures r.1.Panic? ==> r.0 == p
  {
    MutexUnlock(p, l.wr, lvl)
  }

  /** The state between calls of a lock in use: two distinct live mutexes,
      the read mutex released, a non-negative reader count, and the write
      mutex held whenever there are readers. */
  predicate Inv(p: Pool, l: RwLock)
  {
    && WellFormed(p)
    && IsValid(p, l.rd) && IsValid(p, l.wr) && l.rd != l.wr
    && Count(p, l.rd) == 1
    && (Count(p, l.wr) == 0 || Count(p, l.wr) == 1)
    && l.readCount >= 0
    && (l.readCount > 0 ==> Count(p, l.wr) == 0)
  }
}
