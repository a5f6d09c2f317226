/** Properties of the reader/writer lock. */
module RwLockLemmas {
  import opened OsTypes
  import opened PoolMask
  import opened SyncSpec
  import opened RwLockSpec

  /** A second mutex_create keeps the first mutex live and unlocked. */
  lemma SecondCreateKeepsFirst(p1: Pool, p2: Pool, h1: Handle, h2: Handle)
    requires WellFormed(p1) && IsValid(p1, h1) && Count(p1, h1) == 1
    requires CreatedLowest(p1, p2, h2, 1)
    ensures IsValid(p2, h1) && IsValid(p2, h2) && h1 != h2
    ensures Count(p2, h1) == 1 && Count(p2, h2) == 1
  {
    assert h1.index != h2.index;
  }

  /** rwlock_init from fiber or task level on a pool with two free mutexes
      yields a lock in its invariant with no reader; it panics exactly when
      one of the two creates finds the pool full or the level is ISR. */
  lemma InitEstablishesInv(p: Pool, l: RwLock, lvl: ExecLevel)
    requires WellFormed(p)
    ensures var (q, l', o) := RwInit(p, l, lvl);
      && (o.Return? ==> Inv(q, l') && l'.readCount == 0)
      && (o.Panic? <==> lvl == Isr || AllReserved(p.inUse) || AllReserved(MutexCreate(p, lvl).0.inUse))
  {
    var (p1, o1) := MutexCreate(p, lvl);
    if o1.Return? {
      var (p2, o2) := MutexCreate(p1, lvl);
      if o2.Return? {
        SecondCreateKeepsFirst(p1, p2, o1.value, o2.value);
      }
    }
  }

  /** The write-mutex lock that rwlock_rdlock would attempt after the read
      mutex was taken fails. */
  predicate WrLockFails(p: Pool, l: RwLock, lvl: ExecLevel, t: Timeout, env1: TimerEnv, env2: TimerEnv)
    requires WellFormed(p)
  {
    MutexLock(MutexLock(p, l.rd, lvl, t, env1).0, l.wr, lvl, t, env2).1 != Ok
  }

  /** Every path of rwlock_rdlock from a lock in its invariant at fiber or task level:
      - the read-mutex lock fails: nothing changes;
      - a reader already holds the write mutex, or this first reader gets it:
        one more reader, the invariant kept, the write mutex held;
      - this first reader fails to get the write mutex: read_count is 1, the
        read mutex stays locked and the write mutex is as it was, so the
        invariant is broken. */
  lemma RdLockCases(p: Pool, l: RwLock, lvl: ExecLevel, t: Timeout, env1: TimerEnv, env2: TimerEnv)
    requires Inv(p, l) && lvl != Isr
    ensures var (q, l', o) := RdLock(p, l, lvl, t, env1, env2);
      var e1 := MutexLock(p, l.rd, lvl, t, env1).1;
      && o == Return(())
      && (e1 != Ok ==> q == p && l' == l)
      && (e1 == Ok ==> l' == l.(readCount := l.readCount + 1))
      && (e1 == Ok && (l.readCount > 0 || !WrLockFails(p, l, lvl, t, env1, env2)) ==>
            Inv(q, l') && Count(q, l.wr) == 0)
      && (e1 == Ok && l.readCount == 0 && WrLockFails(p, l, lvl, t, env1, env2) ==>
            Count(q, l.rd) == 0 && Count(q, l.wr) == Count(p, l.wr) && !Inv(q, l'))
  {
    var (p1, e1) := MutexLock(p, l.rd, lvl, t, env1);
    if e1 == Ok {
      assert p1 == WithCount(p, l.rd.index, 0);
      assert Count(p1, l.wr) == Count(p, l.wr);
      if l.readCount == 0 {
        var (p2, e2) := MutexLock(p1, l.wr, lvl, t, env2);
        if e2 == Ok {
          assert Count(p2, l.rd) == 0;
          assert Count(p2, l.wr) == 0;
        }
      }
    }
  }

  /** With a writer holding the lock, a non-blocking rwlock_rdlock takes the
      read mutex and keeps it; thereafter every non-blocking rwlock_rdlock is
      a no-op, even once the writer has unlocked. */
  lemma ReaderAgainstWriterKeepsReadMutex(p: Pool, l: RwLock, lvl: ExecLevel, env: TimerEnv)
    requires Inv(p, l) && lvl != Isr && l.readCount == 0 && Count(p, l.wr) == 0
    ensures var (q, l', o) := RdLock(p, l, lvl, NoWait, env, env);
      && o == Return(()) && l'.readCount == 1 && Count(q, l.rd) == 0
      && RdLock(q, l', lvl, NoWait, env, env) == (q, l', Return(()))
      && var (q', u) := WrUnlock(q, l', lvl);
      && u == Return(())
      && RdLock(q', l', lvl, NoWait, env, env) == (q', l', Return(()))
  {
    RdLockCases(p, l, lvl, NoWait, env, env);
    var (q, l', o) := RdLock(p, l, lvl, NoWait, env, env);
    var (q', u) := WrUnlock(q, l', lvl);
    assert Count(q', l.rd) == 0;
  }

  /** rwlock_rdunlock by one of the readers keeps the invariant, and releases
      the write mutex exactly when the last reader leaves. */
  lemma RdUnlockKeepsInv(p: Pool, l: RwLock, lvl: ExecLevel)
    requires Inv(p, l) && lvl != Isr && l.readCount > 0
    ensures var (q, l', o) := RdUnlock(p, l, lvl);
      && o == Return(())
      && l' == l.(readCount := l.readCount - 1)
      && Inv(q, l')
      && (Count(q, l.wr) == 1 <==> l'.readCount == 0)
  {
    var (p1, _) := MutexLock(p, l.rd, lvl, WaitForever, NoTimer);
    assert p1 == WithCount(p, l.rd.index, 0);
    if l.readCount == 1 {
      var (p2, o2) := MutexUnlock(p1, l.wr, lvl);
      assert Count(p2, l.rd) == 0;
    }
  }

  /** A reader entering and leaving an idle lock without waiting puts the
      mutex pool and the lock back exactly as they were. */
  lemma ReaderRoundTrip(p: Pool, l: RwLock, lvl: ExecLevel, env: TimerEnv)
    requires Inv(p, l) && lvl != Isr && l.readCount == 0 && Count(p, l.wr) == 1
    ensures var (q, l', o) := RdLock(p, l, lvl, NoWait, env, env);
      && o == Return(()) && l'.readCount == 1
      && RdUnlock(q, l', lvl) == (p, l, Return(()))
  {
    RdLockCases(p, l, lvl, NoWait, env, env);
    var (q, l', o) := RdLock(p, l, lvl, NoWait, env, env);
    RdUnlockKeepsInv(q, l', lvl);
    var (r, l'', o') := RdUnlock(q, l', lvl);
    assert r.nsig == p.nsig;
  }

  /** While there are readers, a non-blocking write lock leaves the pool as
      it is: the writer is kept out. */
  lemma ReadersExcludeWriter(p: Pool, l: RwLock, lvl: ExecLevel, env: TimerEnv)
    requires Inv(p, l) && lvl != Isr && l.readCount > 0
    ensures MutexLock(p, l.wr, lvl, NoWait, env) == (p, ErrBusy)
    ensures WrLock(p, l, lvl, NoWait, env) == p
  {
  }

  /** A writer on an idle lock takes the write mutex without waiting, keeps
      the invariant, and rwlock_wrunlock puts the pool back. */
  lemma WriterRoundTrip(p: Pool, l: RwLock, lvl: ExecLevel, env: TimerEnv)
    requires Inv(p, l) && lvl != Isr && l.readCount == 0 && Count(p, l.wr) == 1
    ensures var q := WrLock(p, l, lvl, NoWait, env);
      && Inv(q, l) && Count(q, l.wr) == 0
      && WrUnlock(q, l, lvl) == (p, Return(()))
  {
    var q := WrLock(p, l, lvl, NoWait, env);
    assert q.nsig == p.nsig[l.wr.index := 0];
    assert q.nsig[l.wr.index := 1] == p.nsig;
  }

  /** rwlock_delete at fiber or task level on a lock in its invariant frees
      both mutexes and clears read_count. */
  lemma DeleteFreesBoth(p: Pool, l: RwLock, lvl: ExecLevel)
    requires Inv(p, l) && lvl != Isr
    ensures var (q, l', o) := RwDelete(p, l, lvl);
      && o == Return(()) && l'.readCount == 0
      && !IsValid(q, l.rd) && !IsValid(q, l.wr)
      && forall j | 0 <= j < POOL_SIZE && j != l.rd.index && j != l.wr.index ::
           IsReserved(q.inUse, j) == IsReserved(p.inUse, j)
  {
    var (p1, o1) := DeleteObject(p, lvl, l.rd);
    assert IsValid(p1, l.wr);
  }
}
