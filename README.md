# Synchronisation services and CFW service helpers, modelled in Dafny

This project models two parts of an embedded firmware framework.

The first part is the operating-system abstraction's synchronisation layer on
the Zephyr nanokernel (`bsp/src/os/zephyr/sync.c`, the `CONFIG_NANOKERNEL`
branch). It covers:

- two static pools of 32 `nano_sem` objects, one of semaphores and one of
  mutexes, each tracked by a 32-bit reservation mask;
- create, delete, give, take, get-count, lock and unlock on those pools;
- the timed wait that arms a timer to end a blocking take;
- the nesting counter behind `disable_scheduling` / `enable_scheduling`;
- the reader/writer lock built from two mutexes.

The second part is the client side of the component framework's service API
(`framework/src/cfw/service_api.c`). It covers:

- the message constructors (clone, response, event);
- the per-service deferred-message list;
- the connection-helper list that drives the open-service handshake;
- the dispatch of every message a client receives.

Modules:

- `OsTypes` holds the shared types: `OsErr` (the `OS_ERR_TYPE` codes),
  `ExecLevel` (ISR, fiber, task), `Option`, and `Outcome` (a return, or a
  `panic(code)`).
- `PoolMask` covers the bit macros and the lowest-free-slot scan.
  - `Reserve` and `Unreserve` are proved to touch only their own bit.
  - `ScanAndReserve` is the source's loop, proved against `FirstFree`.
- `SyncSpec` holds one pool as a value, `Pool(inUse, nsig)`, and every
  service as a function of it.
  - Every kernel primitive is one atomic step on a count.
    A give adds one. A non-blocking take consumes one if there is one. A
    blocking take consumes one if the count is positive, and otherwise
    consumes the give that wakes it.
  - What the timer does during a bounded wait is a parameter, `TimerEnv`:
    could a timer be armed, and did it fire first.
  - The execution level is a parameter too.
- `SyncLemmas` proves properties that relate several calls.
- `SchedSpec` covers the `int16_t` nest counter, with its two's-complement
  wrap, and the saved interrupt key.
- `RwLockSpec` / `RwLockLemmas` cover the reader/writer lock on the mutex
  pool. It follows the source's control flow, including the path of
  `rwlock_rdlock` that returns holding the read mutex. A blocking wait is
  always modelled as woken (see "## Left out").
- `Sync` holds the state the source updates in place:
  - class `SyncServices` has the two masks, the two pools as arrays of
    `nsig`, the nest counter and the key;
  - class `RwLock` is the lock structure.

  Every method is proved to leave exactly the state the matching function
  computes from the old state.
- `CfwMessages` models messages as records, and pointers as
  `Ref = Null | Ptr(addr)`. A freshly allocated block is passed in as
  `blank`, so the fields the source does not write keep whatever the block
  held.
- `CfwDeferral` holds the deferred list as a sequence, oldest first.
- `CfwHelpers` / `CfwLemmas` cover the helper list and
  `client_handle_message`.
  - Calls out of this code are recorded, in order, as `Effect`s:
    registrations, user callbacks and `bfree`.
  - Where the message ends up is a `Dispatch`.
- `Cfw` holds the classes `Service` and `Client`, whose methods update the
  lists in place and are proved equal to the functions.

## Model

| member | source | states |
|---|---|---|
| `PoolMask.Bit` | bsp/src/os/zephyr/sync.c:52 | `1 << idx` on an unsigned 32-bit word; a definition without a contract, whose meaning is stated by `PoolMask.DisjointBits`, `PoolMask.Reserve` and `PoolMask.Unreserve` |
| `PoolMask.IsReserved` | bsp/src/os/zephyr/sync.c:52 | IS_OBJ_RESERVED: the slot's bit is set in the mask; a definition without a contract, characterised by `PoolMask.Reserve`, `PoolMask.Unreserve` and `PoolMask.EmptyMaskReservesNothing` |
| `PoolMask.DisjointBits` | bsp/src/os/zephyr/sync.c:52-54 | The bits of two different slots have no bit in common, so a macro on one slot cannot touch another |
| `PoolMask.AllReserved` | bsp/src/os/zephyr/sync.c:535-542 | All 32 slots are reserved, the condition under which the scan finds no slot; a definition without a contract, tied to the scan by `PoolMask.FirstFree` |
| `PoolMask.Reserve` | bsp/src/os/zephyr/sync.c:52-53 | Setting a slot's bit reserves that slot and leaves the reservation of every other slot unchanged |
| `PoolMask.Unreserve` | bsp/src/os/zephyr/sync.c:54 | Clearing a slot's bit frees that slot and leaves every other slot unchanged |
| `PoolMask.FirstFreeFrom` | bsp/src/os/zephyr/sync.c:535-542 | The slot found from `i` upward is free, every slot between `i` and it is reserved, and none is found exactly when all slots from `i` up are reserved |
| `PoolMask.FirstFree` | bsp/src/os/zephyr/sync.c:535-542 | No slot is found exactly when all 32 are reserved; otherwise the lowest free slot is found |
| `PoolMask.ScanAndReserve` | bsp/src/os/zephyr/sync.c:535-542 | The do-while scan settles on the lowest free slot and reserves it and only it; a full mask is left unchanged |
| `PoolMask.EmptyMaskReservesNothing` | bsp/src/os/zephyr/sync.c:425-426 | The cleared mask that os_init_sync writes reserves no slot |
| `SyncSpec.IsValid` | bsp/src/os/zephyr/sync.c:268-280 | _IsSemaphoreValid and _IsMutexValid: the handle is non-null, its index is below 32 and its slot is reserved; a definition without a contract, characterised by `SyncSpec.EmptyMaskHasNoValidHandle`, `SyncSpec.CreateObject` and `SyncSpec.DeleteObject` |
| `SyncSpec.WithCount` | bsp/src/os/zephyr/sync.c:549 | Writing one object's `nsig` keeps the mask and every other object's count |
| `SyncSpec.Int32Of` | bsp/src/os/zephyr/sync.c:523-549 | The uint32_t initial count stored in the int `nsig` field is that value when below 2^31, and that value minus 2^32 otherwise |
| `SyncSpec.CreateObject` | bsp/src/os/zephyr/sync.c:523-566 | From ISR level: a panic with E_OS_ERR_NOT_ALLOWED and no change. With all 32 slots reserved: a panic with E_OS_ERR. Otherwise the lowest free slot is reserved, every other bit kept, its count set, and its handle is valid |
| `SyncSpec.SemaphoreCreate` | bsp/src/os/zephyr/sync.c:523-566 | semaphore_create panics exactly at ISR level or on a full pool; the handle it returns is valid and its count is the initial count (below 2^31) |
| `SyncSpec.MutexCreate` | bsp/src/os/zephyr/sync.c:821-869 | mutex_create panics exactly at ISR level or on a full pool; the mutex it returns is valid and unlocked (count 1) |
| `SyncSpec.DeleteObject` | bsp/src/os/zephyr/sync.c:590-614 | From ISR level: E_OS_ERR_NOT_ALLOWED. On an invalid handle: E_OS_ERR. Both panic and change nothing. Otherwise the handle becomes invalid, every other slot keeps its reservation, and no count changes |
| `SyncSpec.Taken` | bsp/src/os/zephyr/sync.c:381-387 | A blocking kernel take consumes a signal when there is one, and otherwise leaves the count unchanged |
| `SyncSpec.KernelTryTake` | bsp/src/os/zephyr/sync.c:705-708 | nano_isr_sem_take with TICKS_NONE returns 1 and consumes a signal when the count is positive, and returns 0 with no change otherwise |
| `SyncSpec.TryTakeStatus` | bsp/src/os/zephyr/sync.c:709-712 | A non-blocking take reports E_OS_OK exactly when the kernel returned 1, and E_OS_ERR_BUSY otherwise |
| `SyncSpec.WaitForSemaphore` | bsp/src/os/zephyr/sync.c:355-404 | Waiting forever succeeds. With no timer available the result is E_OS_ERR and nothing is taken. With a timer, the result is E_OS_ERR_TIMEOUT exactly when the timer fired first and E_OS_OK otherwise. A signal is consumed only on E_OS_OK |
| `SyncSpec.TakeAccepted` | bsp/src/os/zephyr/sync.c:703-723 | The take on an accepted handle touches only that object. Without waiting, it consumes a signal and reports OK, or reports BUSY with no change. With a timeout, it is the timed wait |
| `SyncSpec.SemaphoreTake` | bsp/src/os/zephyr/sync.c:691-749 | The handle is checked first: E_OS_ERR, unchanged. Then the level: E_OS_ERR_NOT_ALLOWED at ISR. A non-blocking take consumes a signal or reports BUSY. Any failure leaves the pool unchanged |
| `SyncSpec.SemaphoreGive` | bsp/src/os/zephyr/sync.c:631-666 | A give at any level adds exactly one signal to a valid semaphore and reports E_OS_OK; an invalid handle reports E_OS_ERR and changes nothing |
| `SyncSpec.SemaphoreGetCount` | bsp/src/os/zephyr/sync.c:777-793 | The status is E_OS_OK exactly for a valid handle, with that object's `nsig` as the count; otherwise the count is 0 and the status E_OS_ERR |
| `SyncSpec.MutexLock` | bsp/src/os/zephyr/sync.c:1016-1061 | The level is checked before the handle. A non-blocking lock succeeds exactly when the mutex is unlocked and reports BUSY otherwise. A success takes the mutex; a failure changes nothing |
| `SyncSpec.MutexUnlock` | bsp/src/os/zephyr/sync.c:935-990 | mutex_unlock returns exactly for a valid mutex at fiber or task level whose count is not positive, and then gives it one signal. Otherwise it panics (NOT_ALLOWED from ISR, E_OS_ERR on an invalid or unlocked mutex) with no change |
| `SyncSpec.InitPool` | bsp/src/os/zephyr/sync.c:423-436 | After os_init_sync no handle of the pool is valid and no count is touched |
| `SyncSpec.EmptyMaskHasNoValidHandle` | bsp/src/os/zephyr/sync.c:268-280 | No handle is valid against the cleared mask |
| `SyncSpec.NanoErrToOsErr` | bsp/src/os/zephyr/sync.c:120-132 | The nanokernel arm maps 1 to E_OS_OK, 0 to E_OS_ERR_BUSY and every other code to E_OS_ERR_UNKNOWN, each in both directions |
| `SyncSpec.MicroErrToOsErr` | bsp/src/os/zephyr/sync.c:134-151 | The microkernel arm maps RC_OK, RC_FAIL and RC_TIME to OK, BUSY and TIMEOUT, and any other code to UNKNOWN, each in both directions |
| `SyncLemmas.CreateNext` | bsp/src/os/zephyr/sync.c:535-542 | On a pool whose first m slots are the reserved ones, create returns slot m and leaves the first m+1 reserved |
| `SyncLemmas.CreateMany` | bsp/src/os/zephyr/sync.c:523-566 | A run of n creates yields n outcomes and a well-formed pool |
| `SyncLemmas.CreateManyFromPrefix` | bsp/src/os/zephyr/sync.c:535-542 | n creates after the first m slots are taken return slots m .. m+n-1 in order |
| `SyncLemmas.CreateFromEmptyPool` | bsp/src/os/zephyr/sync.c:423-566 | From a cleared pool, n <= 32 creates return the distinct valid handles of slots 0 .. n-1; after 32 the next create panics with E_OS_ERR |
| `SyncLemmas.CreateThenDelete` | bsp/src/os/zephyr/sync.c:523-614 | Deleting the object just created succeeds and restores the reservation mask exactly |
| `SyncLemmas.DeletedHandleIsRejected` | bsp/src/os/zephyr/sync.c:590-1061 | After a delete, take, give and get-count report E_OS_ERR. At fiber or task level, lock reports E_OS_ERR, and unlock and a second delete panic with E_OS_ERR. None changes anything |
| `SyncLemmas.GiveMany` | bsp/src/os/zephyr/sync.c:631-666 | Repeated gives keep the pool well formed and its mask unchanged |
| `SyncLemmas.TakeMany` | bsp/src/os/zephyr/sync.c:691-749 | Repeated non-blocking takes keep the mask and yield one status per take |
| `SyncLemmas.GiveManyAddsSignals` | bsp/src/os/zephyr/sync.c:631-666 | k gives raise a valid semaphore's count by exactly k |
| `SyncLemmas.TakeManySucceeds` | bsp/src/os/zephyr/sync.c:691-749 | k non-blocking takes on a count of at least k all succeed and lower the count by k |
| `SyncLemmas.GiveThenTake` | bsp/src/os/zephyr/sync.c:631-749 | k gives then k non-blocking takes: every take succeeds and the count is back where it started |
| `SyncLemmas.MutexOpsKeepCountsBinary` | bsp/src/os/zephyr/sync.c:821-1061 | Create, lock, unlock and delete keep every mutex count at 0 or 1 |
| `SyncLemmas.MutexIsNotRecursive` | bsp/src/os/zephyr/sync.c:935-1061 | A locked mutex refuses a second non-blocking lock as BUSY; one unlock restores the pool exactly and a second unlock panics |
| `SyncLemmas.TryTakeStatusAgreesWithMapping` | bsp/src/os/zephyr/sync.c:705-712 | The inline status test after a non-blocking take agrees with the nanokernel error mapping |
| `SchedSpec.Wrap16` | bsp/src/os/zephyr/sync.c:441 | Storing back into the int16_t counter keeps in-range values and otherwise wraps modulo 2^16 |
| `SchedSpec.DisableScheduling` | bsp/src/os/zephyr/sync.c:456-467 | The counter goes up by one, from 32767 it wraps to -32768, and the irq_lock key is saved only when no disable was in force |
| `SchedSpec.EnableScheduling` | bsp/src/os/zephyr/sync.c:483-490 | The counter goes down by one with wrap, the saved key is kept, and irq_unlock receives the saved key exactly when the counter reaches 0 |
| `SchedSpec.EnableAll` | bsp/src/os/zephyr/sync.c:483-490 | n enables yield one restore result per call, keep the saved key, and any key they hand back is the saved one |
| `SchedSpec.DisableAllFromZero` | bsp/src/os/zephyr/sync.c:456-467 | From 0, k <= 32767 disables leave the counter at k with the first key saved |
| `SchedSpec.EnableAllFrom` | bsp/src/os/zephyr/sync.c:483-490 | n enables from a counter of at least n lower it by n and restore the saved key only at the call that reaches 0 |
| `SchedSpec.NestedCriticalSections` | bsp/src/os/zephyr/sync.c:440-490 | N nested disables and N enables from 0 end at 0 and restore exactly one key, the outermost one, at the last enable |
| `RwLockSpec.RwInit` | bsp/src/os/zephyr/sync.c:1083-1088 | rwlock_init keeps the pool well formed. On return, read_count is 0 and both mutexes are valid in the new pool; on a panic the write mutex and read_count are those of the old lock. The full behaviour is proved in `RwLockLemmas.InitEstablishesInv` |
| `RwLockSpec.RwDelete` | bsp/src/os/zephyr/sync.c:1106-1111 | rwlock_delete changes no count and keeps both mutex fields. On return the write mutex is no longer valid and read_count is 0; on a panic the lock is unchanged. The full behaviour is proved in `RwLockLemmas.DeleteFreesBoth` |
| `RwLockSpec.RdLock` | bsp/src/os/zephyr/sync.c:1126-1141 | rwlock_rdlock keeps the reservation mask and both mutex fields, and raises read_count by one or not at all. When read_count is unchanged, the pool is unchanged and the result is success. Every path is proved in `RwLockLemmas.RdLockCases` |
| `RwLockSpec.RdUnlock` | bsp/src/os/zephyr/sync.c:1155-1164 | rwlock_rdunlock keeps the reservation mask and both mutex fields, and lowers read_count by exactly one. The write mutex release on the last reader is proved in `RwLockLemmas.RdUnlockKeepsInv` |
| `RwLockSpec.WrLock` | bsp/src/os/zephyr/sync.c:1179-1182 | rwlock_wrlock keeps the reservation mask. It changes the pool only when called below ISR level on a valid write mutex, and then the write mutex's count becomes its count after one take. Its interplay with readers is proved in `RwLockLemmas.ReadersExcludeWriter` and `RwLockLemmas.WriterRoundTrip` |
| `RwLockSpec.WrUnlock` | bsp/src/os/zephyr/sync.c:1192-1195 | rwlock_wrunlock keeps the reservation mask. It returns exactly when called below ISR level on a valid, locked write mutex, and then gives that mutex one signal. A panic leaves the pool unchanged |
| `RwLockLemmas.SecondCreateKeepsFirst` | bsp/src/os/zephyr/sync.c:1085-1086 | A second mutex_create keeps the first mutex valid and unlocked and returns a different, unlocked mutex |
| `RwLockLemmas.InitEstablishesInv` | bsp/src/os/zephyr/sync.c:1083-1088 | rwlock_init returns a lock with two distinct live mutexes, the read one free, no reader, in the lock invariant. It panics exactly at ISR level or when either create finds the pool full |
| `RwLockLemmas.RdLockCases` | bsp/src/os/zephyr/sync.c:1126-1141 | Every path of rwlock_rdlock. A failed read-mutex lock changes nothing. Otherwise read_count goes up; the invariant holds with the write mutex held, unless this first reader fails to get the write mutex. Then the read mutex stays locked and the invariant is broken |
| `RwLockLemmas.ReaderAgainstWriterKeepsReadMutex` | bsp/src/os/zephyr/sync.c:1126-1195 | A non-blocking reader meeting a writer is left holding the read mutex, so later non-blocking readers are no-ops, even after the writer unlocks |
| `RwLockLemmas.RdUnlockKeepsInv` | bsp/src/os/zephyr/sync.c:1155-1164 | rwlock_rdunlock by a reader keeps the invariant, lowers read_count by one, and frees the write mutex exactly when the last reader leaves |
| `RwLockLemmas.ReaderRoundTrip` | bsp/src/os/zephyr/sync.c:1126-1164 | A reader entering and leaving an idle lock puts the pool and the lock back exactly |
| `RwLockLemmas.ReadersExcludeWriter` | bsp/src/os/zephyr/sync.c:1179-1182 | While there are readers, a non-blocking write lock is refused as BUSY and changes nothing |
| `RwLockLemmas.WriterRoundTrip` | bsp/src/os/zephyr/sync.c:1179-1195 | A writer on an idle lock takes the write mutex, keeps the invariant, and rwlock_wrunlock restores the pool exactly |
| `RwLockLemmas.DeleteFreesBoth` | bsp/src/os/zephyr/sync.c:1106-1111 | rwlock_delete frees both mutexes, keeps every other reservation and clears read_count |
| `Sync.CreateIn` | bsp/src/os/zephyr/sync.c:527-565 | The in-place create on a pool array leaves the mask, the array and the outcome that CreateObject gives |
| `Sync.SyncServices.constructor` | bsp/src/os/zephyr/sync.c:85-97 | The static storage starts zeroed: both masks empty, every count 0, the nest counter 0 |
| `Sync.SyncServices.IsSemaphoreValid` | bsp/src/os/zephyr/sync.c:268-280 | _IsSemaphoreValid: `SyncSpec.IsValid` against the current semaphore pool; a predicate without a contract |
| `Sync.SyncServices.IsMutexValid` | bsp/src/os/zephyr/sync.c:292-304 | _IsMutexValid: `SyncSpec.IsValid` against the current mutex pool; a predicate without a contract |
| `Sync.SyncServices.OsInitSync` | bsp/src/os/zephyr/sync.c:423-436 | os_init_sync clears both masks and touches nothing else |
| `Sync.SyncServices.DisableScheduling` | bsp/src/os/zephyr/sync.c:456-467 | The counter and key become what SchedSpec.DisableScheduling gives; the pools are untouched |
| `Sync.SyncServices.EnableScheduling` | bsp/src/os/zephyr/sync.c:483-490 | The counter, key and restored key are what SchedSpec.EnableScheduling gives; the pools are untouched |
| `Sync.SyncServices.SemaphoreCreate` | bsp/src/os/zephyr/sync.c:523-566 | The semaphore pool and outcome are SyncSpec.SemaphoreCreate of the old pool; the mutex pool and scheduler state are untouched |
| `Sync.SyncServices.MutexCreate` | bsp/src/os/zephyr/sync.c:821-869 | The mutex pool and outcome are SyncSpec.MutexCreate of the old pool; the rest is untouched |
| `Sync.SyncServices.SemaphoreDelete` | bsp/src/os/zephyr/sync.c:590-614 | The semaphore pool and outcome are DeleteObject of the old pool, the second index test included |
| `Sync.SyncServices.MutexDelete` | bsp/src/os/zephyr/sync.c:890-913 | The mutex pool and outcome are DeleteObject of the old pool |
| `Sync.SyncServices.SemaphoreGive` | bsp/src/os/zephyr/sync.c:631-666 | The semaphore pool and the status are SyncSpec.SemaphoreGive of the old pool |
| `Sync.SyncServices.TakeIn` | bsp/src/os/zephyr/sync.c:703-723 | The in-place take on one array slot is TakeAccepted of the old array |
| `Sync.SyncServices.SemaphoreTake` | bsp/src/os/zephyr/sync.c:691-749 | The semaphore pool and the status are SyncSpec.SemaphoreTake of the old pool |
| `Sync.SyncServices.SemaphoreGetCount` | bsp/src/os/zephyr/sync.c:777-793 | The count and status are SyncSpec.SemaphoreGetCount of the current pool; on success the count is the object's `nsig` |
| `Sync.SyncServices.MutexLock` | bsp/src/os/zephyr/sync.c:1016-1061 | The mutex pool and the status are SyncSpec.MutexLock of the old pool |
| `Sync.SyncServices.MutexUnlock` | bsp/src/os/zephyr/sync.c:935-990 | The mutex pool and the outcome are SyncSpec.MutexUnlock of the old pool |
| `Sync.RwLock.constructor` | bsp/src/os/zephyr/sync.c:1083 | A lock structure before rwlock_init: null mutexes and no reader |
| `Sync.RwLock.Init` | bsp/src/os/zephyr/sync.c:1083-1088 | The mutex pool, the lock fields and the outcome are RwInit of the old ones |
| `Sync.RwLock.Delete` | bsp/src/os/zephyr/sync.c:1106-1111 | The mutex pool, the lock fields and the outcome are RwDelete of the old ones |
| `Sync.RwLock.RdLock` | bsp/src/os/zephyr/sync.c:1126-1141 | The mutex pool, the lock fields and the outcome are RwLockSpec.RdLock of the old ones |
| `Sync.RwLock.RdUnlock` | bsp/src/os/zephyr/sync.c:1155-1164 | The mutex pool, the lock fields and the outcome are RwLockSpec.RdUnlock of the old ones |
| `Sync.RwLock.WrLock` | bsp/src/os/zephyr/sync.c:1179-1182 | The mutex pool is RwLockSpec.WrLock of the old one |
| `Sync.RwLock.WrUnlock` | bsp/src/os/zephyr/sync.c:1192-1195 | The mutex pool and the outcome are RwLockSpec.WrUnlock of the old one |
| `CfwMessages.AllocRspMsg` | framework/src/cfw/service_api.c:134-154 | A response has type TYPE_RSP with the given id and length. It flows back: destination the request's source, source its destination. It carries the request's callback and tag, and the client-side handle of the request's connection, or null. The body is the block's |
| `CfwMessages.AllocEvtMsg` | framework/src/cfw/service_api.c:156-169 | An event has type TYPE_EVT with the given id and length, comes from the service's port, and has destination 0 and null tag and connection; the callback field keeps what the block held |
| `CfwMessages.CloneMessage` | framework/src/cfw/service_api.c:64-75 | The clone fails exactly when the allocation returns null; otherwise the new block holds an exact copy of the message |
| `CfwMessages.ResponseOfResponse` | framework/src/cfw/service_api.c:143-146 | A response to a response has the first message's source and destination again, and keeps its callback and tag |
| `CfwDeferral.Defer` | framework/src/cfw/service_api.c:82-97 | A null message is refused with E_OS_ERR and a failed allocation with its error, both leaving the list; otherwise the message, flagged queue-head, is appended at the tail and E_OS_OK returned |
| `CfwDeferral.DeferComplete` | framework/src/cfw/service_api.c:99-116 | An empty list gives E_OS_OK. Otherwise the head is removed and re-sent; on success its node is freed and E_OS_OK returned, and on a send failure the call panics without freeing |
| `CfwDeferral.CompleteAll` | framework/src/cfw/service_api.c:99-116 | k successful completions remove exactly the first k entries and send k messages |
| `CfwDeferral.DeferAllAppends` | framework/src/cfw/service_api.c:82-97 | Deferring a run of messages keeps the old list as a prefix and appends each message, flagged, in order |
| `CfwDeferral.CompleteAllTakesFromHead` | framework/src/cfw/service_api.c:99-116 | k completions leave the list without its first k entries and send their messages in order |
| `CfwDeferral.DeferredMessagesAreResentInOrder` | framework/src/cfw/service_api.c:82-116 | Messages deferred onto an empty list are all re-sent in the order they were deferred, and the list ends empty |
| `CfwDeferral.DeferTwoThenCompleteTwo` | framework/src/cfw/service_api.c:82-116 | Defer A then B; two completions send A then B, free their nodes in that order and empty the list |
| `CfwHelpers.Matches` | framework/src/cfw/service_api.c:216-220 | conn_helper_data_check: the record is the one the tag points at; a definition without a contract, whose use is characterised by `CfwHelpers.FindFrom` and `CfwHelpers.FindHelper` |
| `CfwHelpers.FindFrom` | framework/src/cfw/service_api.c:216-235 | The list search from position i returns the first record the tag points at, and nothing exactly when no record from i on matches |
| `CfwHelpers.FindHelper` | framework/src/cfw/service_api.c:222-235 | get_conn_helper finds nothing exactly when the tag points at no record; otherwise it finds a record the tag points at |
| `CfwHelpers.RemoveAt` | framework/src/cfw/service_api.c:241 | Unlinking a record keeps every other record in order |
| `CfwHelpers.OpenServiceHelperEvt` | framework/src/cfw/service_api.c:196-214 | The new record is appended, the old list kept as a prefix. It holds the service id, count, callback, its data, and a copy of the first event_count ids. Its registration request for service availability is tagged with it |
| `CfwHelpers.OpenServiceHelper` | framework/src/cfw/service_api.c:189-194 | Opening without events is the event form with no events |
| `CfwHelpers.HelperDone` | framework/src/cfw/service_api.c:237-243 | The callback is called with the record's connection and data, then the record is unlinked and freed |
| `CfwHelpers.HandleById` | framework/src/cfw/service_api.c:250-323 | The switch of client_handle_message handles the message exactly when its id is one of the four handshake ids (the service-available registration response, the service-available event, the open-service response and the event registration response) and its private tag names a helper record. An unknown tag leaves the helper list unchanged, and only an open-service response touches the connections |
| `CfwHelpers.HandleMessage` | framework/src/cfw/service_api.c:245-337 | A message the switch does not handle goes to its own callback when it has one, and otherwise to the client's handler with the client's data. A message with any other id changes nothing, emits no effect and is never consumed |
| `CfwLemmas.OpenAddsFindableRecord` | framework/src/cfw/service_api.c:196-235 | A record added at a fresh address is found by its own tag, keeps addresses distinct, and changes no other tag's lookup |
| `CfwLemmas.FirstMatchIsFound` | framework/src/cfw/service_api.c:216-235 | A match with no match before it is what get_conn_helper returns |
| `CfwLemmas.RemoveForgetsRecord` | framework/src/cfw/service_api.c:241-242 | After unlinking, the record's tag finds nothing, addresses stay distinct, and every other record is still listed |
| `CfwLemmas.SetConnKeepsDistinct` | framework/src/cfw/service_api.c:286-287 | Writing a record's service connection keeps the addresses distinct |
| `CfwLemmas.HandleMessageKeepsDistinct` | framework/src/cfw/service_api.c:245-337 | client_handle_message keeps the helper-list addresses distinct |
| `CfwLemmas.DispatchIsExclusive` | framework/src/cfw/service_api.c:245-337 | A message is freed exactly when it carries a handshake id and its tag finds a helper. Otherwise it goes to its own callback if it has one, else to the client's handler with the client's data |
| `CfwLemmas.UnmatchedTagIsPassedOn` | framework/src/cfw/service_api.c:245-337 | A tag that finds no helper changes no record, calls no helper callback, and the message is passed on |
| `CfwLemmas.CallbackFiresOnce` | framework/src/cfw/service_api.c:268-313 | The final handshake step calls the callback once, frees the record and the message. It is an open response with no events, or an event-registration response. A later message with the same tag calls no callback |
| `CfwLemmas.HandshakeWithEvents` | framework/src/cfw/service_api.c:196-313 | Opening with events, then its four responses: each is consumed. The service is opened, the events registered on the connection the open response named, and the callback called once with it. The helper list is restored, and the client connection holds the server handle and port the open response carried |
| `Cfw.Service.constructor` | framework/src/cfw/service_api.c:118-127 | A registered service has its port and an empty deferred list |
| `Cfw.Service.DeferMessage` | framework/src/cfw/service_api.c:82-97 | The list and the status are CfwDeferral.Defer of the old list; the port is unchanged |
| `Cfw.Service.DeferComplete` | framework/src/cfw/service_api.c:99-116 | The list, message sent, node freed and outcome are CfwDeferral.DeferComplete of the old list |
| `Cfw.Client.constructor` | framework/src/cfw/service_api.c:339-354 | cfw_client_init stores the handler and its data, an empty helper list and the allocated port |
| `Cfw.Client.OpenServiceHelperEvt` | framework/src/cfw/service_api.c:196-214 | The helper list and effects are CfwHelpers.OpenServiceHelperEvt of the old list; the other fields are unchanged |
| `Cfw.Client.OpenServiceHelper` | framework/src/cfw/service_api.c:189-194 | The helper list and effects are CfwHelpers.OpenServiceHelper of the old list |
| `Cfw.Client.OpenServiceHelperDone` | framework/src/cfw/service_api.c:237-243 | The helper list and effects are HelperDone of the old list |
| `Cfw.Client.HandleMessage` | framework/src/cfw/service_api.c:245-337 | The helper list, connections, effects and dispatch are CfwHelpers.HandleMessage of the old client |

The folds `CfwDeferral.DeferAll` and `SchedSpec.DisableAll`, and the invariant `RwLockSpec.Inv`, are helpers that the lemmas above are stated with; they model no source function of their own and have no row.

## Left out

- Microkernel branch of sync.c: left out except for the mapping of its return codes (`MicroErrToOsErr`). The whole of `_ZephyrErrToOsErr` sits inside `#ifdef CONFIG_MICROKERNEL`, so its nanokernel arm (`NanoErrToOsErr`) is unreachable in a nanokernel build. It is modelled as written.
- Concurrency:
  - interleavings, blocking order and which waiter a give wakes are not modelled, because every kernel primitive is one atomic step on a count;
  - the pool guard `_PoolLock` / `_PoolUnlock` on `_PoolLockSem` is left out. On a single thread it only takes and gives back. Note that os_init_sync at task level gives it twice, through `nano_task_sem_give` and then `_PoolUnlock`, so its count starts at 2.
- Timers:
  - a bounded wait gets what the timer did as the `TimerEnv` parameter;
  - the timeout in milliseconds, tick conversion and the race between the timer's give and `timer_delete` are not modelled.
- SyncSpec.Taken: a blocking take on a count of 0 or less is modelled as woken by some give, so it always returns. A wait that no party ever ends, which blocks forever in the source, is not represented.
- SyncSpec.WaitForSemaphore: with OS_WAIT_FOREVER it always returns E_OS_OK, through `Taken`. The model does not capture a wait that is never signalled.
- SyncSpec.SemaphoreTake: a take with OS_WAIT_FOREVER on an empty semaphore returns E_OS_OK in the model, where the source blocks until another party gives.
- SyncSpec.MutexLock: a blocking lock of a mutex that is already held returns E_OS_OK in the model, where the source blocks until the holder unlocks it. If nobody does, for example on a second lock by the holder itself, it blocks forever. `SyncLemmas.MutexIsNotRecursive` covers only OS_NO_WAIT, where the second lock fails with E_OS_ERR_BUSY.
- RwLockSpec.RdUnlock: its lock of the read mutex waits forever and is modelled as woken. After the partial-failure path of `rwlock_rdlock`, the read mutex stays held and no code path gives it back, so the source's `rwlock_rdunlock` blocks forever. The model instead returns and releases both mutexes. `RwLockLemmas.RdLockCases` proves that this state breaks the lock invariant.
- `_getExecLevel`: is a parameter. The unreachable `default` arms of the level switches (`error_management(err, E_OS_ERR_UNKNOWN)` in semaphore_give, `panic(E_OS_ERR_UNKNOWN)` in mutex_unlock) are left out, because `ExecLevel` has exactly the three levels.
- Handles: pointer arithmetic in GET_*_INDEX and the `uint8_t` truncation of the index are not modelled. A handle is a slot number or null, so a pointer into neither pool is not representable. A handle also carries no pool tag: a semaphore handle passed to a mutex operation acts on the mutex with the same slot number, whereas GET_MUTEX_INDEX of a semaphore pointer gives a different index; this cross-pool case is not modelled.
- CfwMessages.CloneMessage: the model copies the whole message record and assumes a message's `len` covers it, so a message whose length field is shorter than its record (the source copies only `len` bytes) is not modelled.
- `error_management`: its handling of a null `err` pointer is left out. Its value is returned instead.
- Counts:
  - `nsig` is an unbounded integer, so overflow of the counter after 2^31 gives is not modelled;
  - the initial count conversion from `uint32_t` is modelled (`Int32Of`).
- `disable_scheduling` / `enable_scheduling`: `irq_lock` is a parameter (the key it returned), and `irq_unlock` is the restore the function reports.
- `panic`: is modelled as `Outcome.Panic` that stops the operation. What `panic` does afterwards is not modelled.
- `read_count`: its C type is in a header that is not part of this model, so it is taken as an unbounded int.
- Transport and ports:
  - `cfw_send_message`'s result is a parameter of `DeferComplete`;
  - port allocation is a parameter of the constructors;
  - `port_set_handler` and `cfw_port_set_handler` are left out;
  - the cpu-id routing in the OPEN_SERVICE_RSP arm (`port_set_port_id` / `port_set_cpu_id`) is left out, being a call into the port layer with no effect on the client's state.
- Allocation:
  - is a parameter: the block `message_alloc` returned in `CloneMessage`, `balloc`'s result in `Defer`;
  - in `cfw_alloc_rsp_msg` / `cfw_alloc_evt_msg`, `cfw_open_service_helper_evt` and `cfw_client_init`, the source uses the block without a null check, and the model assumes the allocation succeeds.
- `OpenServiceHelperEvt`: the new record's `service_conn` is never written by the source before the open response arrives. The model sets it to null.
- `cfw_register_service`: beyond its list initialisation (`Cfw.Service.constructor`), `_cfw_register_service`, `cfw_unregister_service` and `_cfw_send_message` are left out.
- `default_msg_handler` and logging (`pr_debug`, `pr_error`, `cfw_dump_message`) are left out.
- `irq_lock` / `irq_unlock` around `get_conn_helper`'s search are left out, with the rest of concurrency.
- `CfwHelpers.OpenServiceHelperEvt`: requires `0 <= event_count <= |events|`. The source copies `event_count` ints from `events` and does not check the count.
- `Defer` on a null message returns E_OS_ERR, as the code does.
- Aliasing of the deferred message: the queue-head flag is set on the stored copy, and the caller's message value is not affected.
- Message bodies other than the available-service event and the open response are opaque. `WellTyped` states the layout the body casts of `client_handle_message` rely on.
