/** disable_scheduling / enable_scheduling: a nesting counter over irq_lock.
    The counter g_disableSchedNestCount is an int16_t; g_ItLockKey holds the
    interrupt key of the outermost disable. */
module SchedSpec {
  import opened OsTypes

  const INT16_MAX: int := 0x7FFF

  /** The values of an int16_t. */
  type Int16 = x: int | -0x8000 <= x <= INT16_MAX

  /** The conversion of an int result back to int16_t (two's complement wrap). */
  function Wrap16(x: int): (r: Int16)
    ensures -0x8000 <= x <= INT16_MAX ==> r == x
    ensures (r - x) % 0x1_0000 == 0
  {
    (x + 0x8000) % 0x1_0000 - 0x8000
  }

  /** The nest counter and the saved interrupt key. */
  datatype SchedState = SchedState(nest: Int16, key: bv32)

  /** disable_scheduling, given the key that its irq_lock returned: the key is
      kept only when no disable is already in force, and the counter goes up. */
  function DisableScheduling(s: SchedState, irqKey: bv32): (r: SchedState)
    ensures s.nest < INT16_MAX ==> r.nest == s.nest + 1
    ensures s.nest == INT16_MAX ==> r.nest == -0x8000
    ensures r.key == (if s.nest == 0 then irqKey else s.key)
  {
    SchedState(Wrap16(s.nest + 1), if s.nest == 0 then irqKey else s.key)
  }

  /** enable_scheduling: the counter goes down, and when it reaches 0 the saved
      key is handed to irq_unlock (the `Some` result); the key is not touched. */
  function EnableScheduling(s: SchedState): (r: (SchedState, Option<bv32>))
    ensures r.0.key == s.key
    ensures s.nest > -0x8000 ==> r.0.nest == s.nest - 1
    ensures s.nest == -0x8000 ==> r.0.nest == INT16_MAX
    ensures r.1.Some? <==> s.nest == 1
    ensures r.1.Some? ==> r.1.value == s.key
  {
    var n := Wrap16(s.nest - 1);
    (SchedState(n, s.key), if n == 0 then Some(s.key) else None)
  }

  /** disable_scheduling called once per key of `ks`, in order. */
  function DisableAll(s: SchedState, ks: seq<bv32>): (r: SchedState)
  {
    if |ks| == 0 then s else DisableScheduling(DisableAll(s, ks[..|ks| - 1]), ks[|ks| - 1])
  }

  /** enable_scheduling called `n` times, with the key each call restores. */
  function EnableAll(s: SchedState, n: nat): (r: (SchedState, seq<Option<bv32>>))
    ensures |r.1| == n
    ensures r.0.key == s.key
    ensures forall i | 0 <= i < n :: r.1[i].Some? ==> r.1[i].value == s.key
  {
    if n == 0 then (s, [])
    else
      var (t, done) := EnableAll(s, n - 1);
      var (u, rel) := EnableScheduling(t);
      (u, done + [rel])
  }

  /** From a counter at 0, k <= 32767 disables leave the counter at k with the
      first key saved. */
  lemma {:induction false} DisableAllFromZero(s: SchedState, ks: seq<bv32>)
    requires s.nest == 0 && 1 <= |ks| <= INT16_MAX
    ensures DisableAll(s, ks) == SchedState(|ks|, ks[0])
  {
    if |ks| > 1 {
      var init := ks[..|ks| - 1];
      DisableAllFromZero(s, init);
      assert init[0] == ks[0];
    }
  }

  /** n enables from a counter of at least n: the counter drops by n, the key
      stays, and the only restore is of the saved key, at the call that brings
      the counter to 0. */
  lemma {:induction false} EnableAllFrom(s: SchedState, n: nat)
    requires n <= s.nest
    ensures EnableAll(s, n).0 == s.(nest := s.nest - n)
    ensures forall i | 0 <= i < n :: EnableAll(s, n).1[i] == (if i == s.nest - 1 then Some(s.key) else None)
  {
    if n > 0 {
      EnableAllFrom(s, n - 1);
    }
  }

  /** N nested disables followed by N enables, starting with no disable in
      force, leave the counter at 0 and hand irq_unlock exactly one key: the
      one returned by the outermost irq_lock, at the last enable. */
  lemma NestedCriticalSections(s: SchedState, ks: seq<bv32>)
    requires s.nest == 0 && 1 <= |ks| <= INT16_MAX
    ensures var (e, restores) := EnableAll(DisableAll(s, ks), |ks|);
      && e.nest == 0
      && restores[|ks| - 1] == Some(ks[0])
      && forall i | 0 <= i < |ks| - 1 :: restores[i] == None
  {
    DisableAllFromZero(s, ks);
    EnableAllFrom(DisableAll(s, ks), |ks|);
  }
}
