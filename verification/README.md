# ipclib in Dafny

A model of the core of ipclib, a C++ library that wraps three named POSIX
IPC facilities: message queues (`MsgQueue`), counting semaphores
(`Semaphore`) and shared-memory segments (`SharedMemory<T>`). All three
build on a common base, `PosixObject`, and report errors through a
`Result` value.

The library itself decides little. It translates names, builds open flags
and protection bits, keeps some initialisation bookkeeping, and turns the
outcome of every OS call into a `Result` or a sentinel. That logic is what
this project models and proves.

Each OS call (`mq_open`, `sem_open`, `shm_open`, `ftruncate`, `mmap`,
`close`, `munmap`, the `*_unlink` calls, `mq_getattr`, `sem_getvalue`,
`clock_gettime`, `mq_send` and the rest) is an oracle. Its outcome is a
parameter, `Ok(value)` or `Fail(errno, text)`, and `errno` is positive as
POSIX guarantees. Operations are pure functions. Each returns a
`Step(state, result, calls)`: the resource record afterwards, the `Result`
returned, and the OS calls issued, in order and with their arguments. That
call list is how the model states which name, flags, sizes, priorities and
deadlines reach the kernel, and which calls are never made.

Modules, one per component:

- `Results` (`result.dfy`): the `Result` value type.
- `Posix` (`posix.dfy`): outcomes, Linux constants, the open-flag encoding
  and its decoder, permission bits, the `mmap` access rule, timespecs and
  deadlines, handles, and the call record.
- `CStrings` (`cstring.dfy`): NUL-terminated strings.
- `PosixObjects` (`posix_object.dfy`): the name translation and the
  bookkeeping shared by all three resources.
- `MsgQueues` (`msg_queue.dfy`), `Semaphores` (`semaphore.dfy`) and
  `SharedMemories` (`shared_memory.dfy`): one module per resource.

Two facts about the code that the model relies on:

- The default permission is 0644: the group may read but not write.
- The initialisation flag is set before the OS call is made, so a failed
  `create` also leaves it set.

## Model

| member | source | states |
|---|---|---|
| Results.NewResult | src/result.cpp:5-8 | The constructor stores the given code and description unchanged. The defaults are `SUCCESS` and `""`. |
| Results.DefaultIsSuccess | include/result.h:14-16 | A default-constructed result counts as success under both the predicate and `operator bool`, and its description is empty. |
| Results.SuccessIsZeroCode | include/result.h:20-26 | `isSuccesful()` holds exactly when the code is 0. `operator bool` always agrees with it. |
| Results.Set | include/result.h:22 | `set` replaces both the code and the description. |
| Results.SetError | include/result.h:23 | `setError` replaces the code and leaves the description as it was. |
| Results.SetDescription | include/result.h:24 | `setDescription` replaces the description and leaves the code as it was. |
| Results.SetIsBothSetters | include/result.h:22-24 | `set` ignores the previous value: it equals a fresh `Result(e, d)`, and also `setError` then `setDescription` in either order. |
| Results.SuccessFollowsCode | include/result.h:20-24 | After `setError(e)` the result is a success exactly when `e == 0`. `setDescription` never changes success. |
| Posix.ResultOf | src/msg_queue.cpp:129-142 | The mapping used after every call: a successful call gives `Result(SUCCESS)`. A failed one gives a non-success result carrying its errno and text. |
| Posix.OpenFlagsRoundTrip | src/msg_queue.cpp:54-61 | The flag words are a faithful encoding. Decoding an encoded request gives that request back. Every decodable word is the encoding of what it decodes to. |
| Posix.DeadlineAsWritten | src/msg_queue.cpp:213-214 | The deadline as written: the seconds field is `now.sec + seconds` with no carry. It still denotes the intended instant, now plus the offset. |
| Posix.DeadlineAsWrittenValidity | src/posix_semaphore.cpp:126-127 | Take a valid clock reading and an in-range offset. The written deadline is valid (`tv_nsec < 10^9`) exactly when the two nanosecond fields sum to less than a second. |
| Posix.DeadlineAsWrittenOverflows | src/msg_queue.cpp:255-256 | Concrete input: a clock at 10^9-1 ns plus a 1 ns offset gives `tv_nsec == 10^9`. The timed calls reject that. |
| Posix.Deadline | src/msg_queue.cpp:203-214 | The corrected deadline. It denotes the same instant as now plus the offset, and it is always normalized. |
| Posix.DeadlinesAgreeWhenValid | src/msg_queue.cpp:213-214 | The corrected and the written deadline are equal exactly when the written one is valid. |
| CStrings.CString | src/msg_queue.cpp:192 | Assigning a `char*` to a `std::string` takes the longest NUL-free prefix of the buffer. It stops at the first NUL or at the end. |
| CStrings.CStringIsTheOnlyReading | src/msg_queue.cpp:192 | The characterisation of a C-string read (NUL-free prefix stopping only at a NUL or at the end) has exactly one solution, `CString`. |
| CStrings.TerminatedRoundTrip | src/msg_queue.cpp:150 | A NUL-free message followed by its terminator reads back as the message, whatever bytes come after. |
| CStrings.UnterminatedReadsOn | src/msg_queue.cpp:216 | Without a terminator, the read continues into the following bytes up to their first NUL. |
| PosixObjects.NewPosixObject | src/posix_object.cpp:3-5 | A fresh object is not initialised. Its names are empty and its initialisation result is the default success. |
| PosixObjects.PosixNameOf | src/posix_object.cpp:9 | The system name is `'/'` followed by the logical name, so its length is one more. |
| PosixObjects.Bind | src/posix_object.cpp:7-11 | Binding stores the logical name exactly. Through `getName`/`getPosixName`/`isAlreadyInitialized`/`getInitializationResult` it then shows a system name that translates back to that name, the flag set (binding cannot fail), and the initialisation result untouched. |
| PosixObjects.NameTranslationRoundTrip | src/posix_object.cpp:9 | The translation can be inverted, so two different logical names never share a system name. |
| PosixObjects.BindIdempotent | src/posix_object.cpp:7-11 | Binding establishes the translation invariant. Binding the same name a second time changes nothing. |
| PosixObjects.DefaultPermissionGrants | include/posix_object.h:12 | 0644: owner read and write, group and other read only, and no one may execute. |
| MsgQueues.NewMsgQueue | include/msg_queue.h:30 | The default constructor leaves the object uninitialised, with the descriptor and the protection unset. |
| MsgQueues.OpenFlags | src/msg_queue.cpp:53-61 | The flags decode to exactly one access mode: READ_ONLY→O_RDONLY, WRITE_ONLY→O_WRONLY, otherwise O_RDWR. O_CREAT is set iff `toCreate`, O_EXCL iff exclusive, O_NONBLOCK iff non-blocking. |
| MsgQueues.DeallocateResources | src/msg_queue.cpp:82-101 | `mq_close` on the stored descriptor. Returns `Result(SUCCESS)` iff the close succeeds, otherwise its errno and text. The record is unchanged. |
| MsgQueues.Create | src/msg_queue.cpp:44-80 | On an initialised queue, the old descriptor is closed first. Then `mq_open(“/”+name, flags, 0644)`. Afterwards the flag is set even on failure. The returned and stored result is `Result(SUCCESS)` with an empty description iff `mq_open` succeeded, otherwise its errno and text. The stored descriptor is the one `mq_open` returned, or the failure value. The queue stays consistent, holding a descriptor iff creation succeeded. |
| MsgQueues.Construct | src/msg_queue.cpp:12-14 | The named constructor issues only the `mq_open`: nothing is closed on a fresh object. |
| MsgQueues.CreateDiscardsRelease | src/msg_queue.cpp:45 | The state and result after re-creating do not depend on what closing the old descriptor reported. |
| MsgQueues.CreateDefaults | include/msg_queue.h:40 | With the default arguments the queue is opened read-write, created if missing, not exclusively, and blocking. |
| MsgQueues.GetMaxMsgSize | src/msg_queue.cpp:16-20 | Returns the queue's `mq_msgsize` when the attribute query succeeds, and -1 when it fails. |
| MsgQueues.GetMaxMsg | src/msg_queue.cpp:22-26 | Returns `mq_maxmsg` when the query succeeds, and -1 when it fails. |
| MsgQueues.GetMsgNumber | src/msg_queue.cpp:28-32 | Returns `mq_curmsgs` when the query succeeds, and -1 when it fails. |
| MsgQueues.IsNonBlocking | src/msg_queue.cpp:34-42 | True iff the query fails (the -1 sentinel converts to `true`) or `mq_flags` equals O_NONBLOCK exactly. |
| MsgQueues.IsEmpty | include/msg_queue.h:38 | True iff the query succeeds and reports 0 messages. A failed query (-1) therefore reads as not empty. |
| MsgQueues.SentinelIsAmbiguous | include/msg_queue.h:21 | The sentinel -1 overlaps the value range. A failed query and a queue reporting -1 give the same getter results. A failed query also looks non-blocking and not empty. |
| MsgQueues.SentinelExactForKernelValues | src/msg_queue.cpp:103-122 | For the non-negative values a kernel reports, each getter returns -1 iff the query failed. |
| MsgQueues.Send | src/msg_queue.cpp:145-164 | Sends `size()+1` bytes, the message followed by its NUL, at priority 0 on the stored descriptor. Returns `Result(SUCCESS)` iff `mq_send` succeeds, otherwise its errno and text. The record is unchanged. |
| MsgQueues.TimedSendAsWritten | src/msg_queue.cpp:198-230 | The timed send as written. The clock is read first, and a clock failure returns its errno with no send. Otherwise `mq_timedsend` gets `size()` bytes (no terminator) at priority 0 on the stored descriptor, with the carry-free deadline, and its outcome (errno on failure) is returned. |
| MsgQueues.TimedSend | src/msg_queue.cpp:198-230 | The timed send corrected. Same result mapping (clock errno, then `mq_timedsend` errno) and call order. It sends the same bytes as the untimed send, NUL included, with a normalized deadline for the same instant. |
| MsgQueues.Receive | src/msg_queue.cpp:166-196 | Every failure leaves the buffer empty. If the size query yields the sentinel, it returns code -1 and receives nothing. Otherwise it receives into max message size + 1 bytes, and a failed receive returns its errno. On success it returns `Result(SUCCESS)` and the buffer is the C string the receive buffer holds: NUL-free, a prefix, stopping only at a NUL or the end. |
| MsgQueues.TimedReceiveAsWritten | src/msg_queue.cpp:232-275 | The timed receive as written: the same steps and result mapping as the corrected one, but the deadline is now plus the offset field by field, with no carry (lines 255-256). |
| MsgQueues.TimedReceive | src/msg_queue.cpp:232-275 | The timed receive corrected. As `Receive`, with the clock read after the size query; a clock failure returns its errno with an empty buffer, a failed `mq_timedreceive` its errno. The receive gets max size + 1 bytes and a normalized deadline for now plus the offset. |
| MsgQueues.TimedReceiveAgreesWhenValid | src/msg_queue.cpp:255-258 | Once the size is known, the as-written and the corrected timed receive are identical exactly when the carry-free deadline is valid. |
| MsgQueues.Destroy | src/msg_queue.cpp:124-143 | Only `mq_unlink` of the system name is issued: nothing is closed. Returns `Result(SUCCESS)` iff it succeeds, otherwise its errno and text. The record (descriptor, flag, initialisation result) is unchanged. |
| MsgQueues.OperationsTargetCreatedQueue | src/msg_queue.cpp:44-192 | After `create`, `destroy` unlinks exactly the name `mq_open` was given. When `mq_open` returned a descriptor, `send` and `receive` act on that descriptor. |
| MsgQueues.SendReceiveRoundTrip | src/msg_queue.cpp:150-192 | Send a NUL-free message with `send`. If the kernel delivers those bytes, `receive` returns success and exactly the message, whatever the buffer held before. |
| MsgQueues.TimedSendReceiveRoundTrip | src/msg_queue.cpp:216-271 | The same round trip through the corrected timed send and the timed receive. |
| MsgQueues.TimedSendAsWrittenReadsStaleBytes | src/msg_queue.cpp:216 | The timed send as written delivers no terminator, so the receiver gets the message followed by the stale buffer bytes. It differs from the message whenever the byte after it is not NUL. |
| Semaphores.NewSemaphore | include/posix_semaphore.h:18 | The default constructor leaves the object uninitialised, with the handle `nullptr`. |
| Semaphores.OpenFlags | src/posix_semaphore.cpp:46-48 | The flags never hold an access mode and hold no bits other than O_CREAT and O_EXCL. O_CREAT is set iff `toCreate` and O_EXCL iff exclusive. |
| Semaphores.DeallocateResources | src/posix_semaphore.cpp:166-185 | `sem_close` on the stored handle. Returns `Result(SUCCESS)` iff the close succeeds, otherwise its errno and text. The record is unchanged. |
| Semaphores.Create | src/posix_semaphore.cpp:37-67 | On an initialised semaphore, the old handle is closed first. Then `sem_open(“/”+name, flags, 0644, value)` with the initial value passed unchanged. Afterwards the flag is set even on failure. The returned and stored result is `Result(SUCCESS)` with an empty description iff `sem_open` succeeded, otherwise its errno and text. The stored handle is the one `sem_open` returned, or `SEM_FAILED`. |
| Semaphores.Construct | src/posix_semaphore.cpp:10-12 | The named constructor issues only the `sem_open`, with the given initial value. |
| Semaphores.CreateDiscardsRelease | src/posix_semaphore.cpp:38 | The state and result after re-creating do not depend on what closing the old handle reported. |
| Semaphores.CreateDefaults | include/posix_semaphore.h:23 | With the default arguments the flags are just O_CREAT and the initial count is 1. |
| Semaphores.Count | src/posix_semaphore.cpp:20-26 | The count as an optional value: present iff the query succeeds, and then the reading clamped at 0 (the reading itself when non-negative, 0 otherwise). |
| Semaphores.GetValue | src/posix_semaphore.cpp:14-35 | The result is ≥ -1. It is -1 iff the query failed, the reading itself when that is non-negative, and 0 for a negative reading. |
| Semaphores.GetValueIsCountOrSentinel | src/posix_semaphore.cpp:24-33 | `getValue` is the optional count with -1 for "none". |
| Semaphores.GetValueSentinelIsExact | src/posix_semaphore.cpp:14-35 | Unlike the queue getters, this sentinel is unambiguous: two queries with the same `getValue` either both failed or both succeeded with the same clamped count. |
| Semaphores.Wait | src/posix_semaphore.cpp:90-109 | One `sem_wait` on the handle. Returns `Result(SUCCESS)` iff it succeeds, otherwise its errno and text. The record is unchanged. |
| Semaphores.TimedWaitAsWritten | src/posix_semaphore.cpp:111-143 | The timed wait as written: the same steps and result mapping, with the deadline now plus the offset field by field and no carry (lines 126-127). |
| Semaphores.TimedWait | src/posix_semaphore.cpp:111-143 | The timed wait corrected. The clock is read first, and a clock failure returns its errno with no wait. Otherwise one `sem_timedwait` runs on the handle, with a normalized deadline for now plus the offset, and its outcome is returned. The record is unchanged. |
| Semaphores.TimedWaitAgreesWhenValid | src/posix_semaphore.cpp:126-129 | The as-written and the corrected timed wait are identical exactly when the carry-free deadline is valid. |
| Semaphores.Signal | src/posix_semaphore.cpp:145-164 | One `sem_post` on the handle. Returns `Result(SUCCESS)` iff it succeeds, otherwise its errno and text. The record is unchanged. |
| Semaphores.Destroy | src/posix_semaphore.cpp:69-88 | Only `sem_unlink` of the system name is issued. Returns `Result(SUCCESS)` iff it succeeds, otherwise its errno and text. The record is unchanged. |
| Semaphores.OperationsTargetCreatedSemaphore | src/posix_semaphore.cpp:37-164 | After `create`, `destroy` unlinks exactly the name `sem_open` was given. When `sem_open` returned a handle, `wait` and `signal` act on that handle. |
| Semaphores.TimedWaitDefaultOffset | include/posix_semaphore.h:26 | With the default 0 ns offset, the deadline is the clock reading moved by whole seconds. |
| SharedMemories.NewSharedMemory | include/shared_memory.h:33 | The default constructor leaves the object uninitialised, with the address `nullptr`. |
| SharedMemories.OpenFlags | include/shared_memory.h:82-88 | READ_ONLY→O_RDONLY. WRITE_ONLY and READ_AND_WRITE both→O_RDWR. O_CREAT is set iff `toCreate`, O_EXCL iff exclusive, and O_NONBLOCK never. |
| SharedMemories.ProtectionBitsAsWritten | include/shared_memory.h:109-112 | As written, every mode gets PROT_WRITE, and PROT_READ is dropped only for WRITE_ONLY. So READ_ONLY ends as PROT_READ\|PROT_WRITE, and no bit other than these two is ever set. |
| SharedMemories.ReadOnlyAsWrittenIsRefused | include/shared_memory.h:109-114 | With the written bits, a READ_ONLY segment asks for a writable shared mapping of an O_RDONLY descriptor. That violates the `mmap` EACCES rule. |
| SharedMemories.ProtectionBits | include/shared_memory.h:109-112 | The corrected bits: PROT_READ iff the mode is not WRITE_ONLY, PROT_WRITE iff it is not READ_ONLY, nothing else. |
| SharedMemories.ProtectionBitsAlwaysPermitted | include/shared_memory.h:82-114 | With the corrected bits, every mode satisfies the `mmap` access rule for its descriptor. They differ from the written bits only for READ_ONLY. |
| SharedMemories.DeallocateResources | include/shared_memory.h:52-71 | `munmap` of `sizeof(T)` bytes at the stored address. Returns `Result(SUCCESS)` iff it succeeds, otherwise its errno and text. The record is unchanged. |
| SharedMemories.CreateWith | include/shared_memory.h:73-137 | `create` with the `mmap` protection as a parameter. On an initialised object, the old mapping is unmapped first. Afterwards the flag is set and the stored result is the returned one. Success iff open, truncate, map and close all succeed, and then the address is the new mapping. A `close` is issued only as the last call and only when open, truncate and map succeeded, so a truncate or map failure leaks the descriptor. Any `mmap` maps `sizeof(T)` shared bytes of the opened descriptor with the given protection. |
| SharedMemories.CreateAsWritten | include/shared_memory.h:73-137 | The `create` the code runs: for READ_ONLY every `mmap` it issues breaks the access rule for its O_RDONLY descriptor; for every other mode it is exactly the corrected `create`. |
| SharedMemories.ReadOnlyCreateAsWrittenNeverSucceeds | include/shared_memory.h:84-119 | Take a kernel that refuses every `mmap` call this `create` issues that breaks the access rule. Against it, the as-written READ_ONLY `create` never succeeds, and once open and truncate succeed it returns `mmap`'s error. |
| SharedMemories.ReadOnlyCreateFailsAtTruncate | include/shared_memory.h:84-107 | Take a kernel that refuses `ftruncate` on a descriptor not open for writing. Against it, no `create` of a READ_ONLY segment succeeds, as written or corrected: `ftruncate` on the O_RDONLY descriptor fails with its errno, and `mmap` is never issued. |
| SharedMemories.Create | include/shared_memory.h:73-137 | The corrected `create`: `CreateWith` with the corrected protection bits, so every `mmap` it issues satisfies the access rule for the descriptor it opened. |
| SharedMemories.CreateResultIsFirstFailure | include/shared_memory.h:91-136 | For any `mmap` protection, so for the as-written and the corrected `create` alike, compared with an independent first-failure definition: the result is the errno of the first failing step of open → truncate → map → close, or success when none fails. |
| SharedMemories.CreateCallsStopAtFirstFailure | include/shared_memory.h:91-130 | For any `mmap` protection: after the optional `munmap`, exactly the steps up to the first failing one are issued. Each gets the right arguments: the system name with the flags and 0644, `sizeof(T)`, the protection, and the new descriptor. |
| SharedMemories.EarlyFailureKeepsUnmappedAddress | include/shared_memory.h:74-107 | If `shm_open` or `ftruncate` fails on a re-create, the stored address is still the one this call has just unmapped. |
| SharedMemories.CreateDiscardsRelease | include/shared_memory.h:74 | The state and result after re-creating do not depend on what unmapping the old mapping reported. |
| SharedMemories.ConstructAsWritten | include/shared_memory.h:47-49 | The named constructor as written: the as-written `create` on an object whose address was never assigned. It starts with `shm_open` and never unmaps. After an open or truncate failure the address is still indeterminate. |
| SharedMemories.FailedConstructionUnmapsIndeterminate | include/shared_memory.h:44-57 | After a named construction whose open or truncate failed, releasing the object (the destructor) unmaps the indeterminate address. |
| SharedMemories.Construct | include/shared_memory.h:33-49 | The corrected named constructor starts from the `nullptr` address the default constructor uses. It starts with `shm_open` and never unmaps. After an open or truncate failure the address is `nullptr`, and it is never indeterminate. |
| SharedMemories.ConstructedReleaseIsDefined | include/shared_memory.h:44-57 | With the corrected constructor, releasing the object never unmaps an indeterminate address, whatever the creation steps reported. |
| SharedMemories.SetValue | include/shared_memory.h:39 | `setValue` writes at the mapped address and leaves every other address unchanged. |
| SharedMemories.SetThenGet | include/shared_memory.h:37-39 | `setValue(x)` followed by `getValue()` on the same object yields `x`. |
| SharedMemories.ValueLivesInCreatedMapping | include/shared_memory.h:37-137 | When every step of `create` succeeds, the object holds a mapped address: `setValue` writes at the address `mmap` returned, and `getValue` reads the value back from there. |
| SharedMemories.Destroy | include/shared_memory.h:139-158 | Only `shm_unlink` of the system name is issued, with no unmapping. The record is unchanged. |
| SharedMemories.DestroyUnlinksCreatedName | include/shared_memory.h:73-158 | After `create`, `destroy` unlinks exactly the name `shm_open` was given. |

## Findings

| source | as written | input that shows it | evidently intended | confidence | as-written member | corrected member |
|---|---|---|---|---|---|---|
| include/shared_memory.h:110-112 | The second `if` is not chained to the first, so its `else` overwrites `PROT_READ`. READ_ONLY gets `PROT_READ\|PROT_WRITE`. | `create(name, true, false, READ_ONLY)`, reached only if `ftruncate` (line 100) succeeds on the O_RDONLY descriptor, which POSIX forbids (EBADF/EINVAL). When it does, `mmap` is asked for a writable shared mapping of that descriptor, which POSIX refuses with EACCES. Against a POSIX kernel the defect is latent: READ_ONLY fails at `ftruncate` in both versions | READ_ONLY→PROT_READ, WRITE_ONLY→PROT_WRITE, READ_AND_WRITE→both | medium, not executed | SharedMemories.ProtectionBitsAsWritten, SharedMemories.ReadOnlyAsWrittenIsRefused, SharedMemories.CreateAsWritten, SharedMemories.ReadOnlyCreateAsWrittenNeverSucceeds, SharedMemories.ReadOnlyCreateFailsAtTruncate | SharedMemories.ProtectionBits, SharedMemories.ProtectionBitsAlwaysPermitted, SharedMemories.Create |
| include/shared_memory.h:47-49 | The named constructor never assigns `obj_address` (the default constructor at line 33 sets it to `nullptr`), and `create` assigns it only at line 114. | `SharedMemory<int>("q")` where `shm_open` fails: the destructor (line 44) calls `munmap` (line 57) on the uninitialised pointer | start the address at `nullptr`, as the default constructor does | medium, not executed | SharedMemories.ConstructAsWritten, SharedMemories.FailedConstructionUnmapsIndeterminate | SharedMemories.Construct, SharedMemories.ConstructedReleaseIsDefined |
| src/msg_queue.cpp:216 | The timed send passes `theMsg.size()` bytes, leaving out the NUL that the untimed send (line 150) includes. The receiver relies on that NUL (lines 192, 271). | `send("hi", 1)` received into a buffer whose next byte is `'!'`: the receiver reads `"hi!"` and beyond, from uninitialised memory | send `size()+1` bytes, as the untimed send does | medium, not executed | MsgQueues.TimedSendAsWritten, MsgQueues.TimedSendAsWrittenReadsStaleBytes | MsgQueues.TimedSend, MsgQueues.TimedSendReceiveRoundTrip |
| src/msg_queue.cpp:213-214 (also 255-256, src/posix_semaphore.cpp:126-127) | The nanosecond offset is added to `tv_nsec` with no carry into `tv_sec`. | clock at 0.999999999 s, offset 0 s + 1 ns: `tv_nsec == 10^9`, for which `mq_timedsend`, `mq_timedreceive` and `sem_timedwait` return EINVAL | a normalized timespec for the same instant | high, not executed | Posix.DeadlineAsWritten, Posix.DeadlineAsWrittenOverflows, MsgQueues.TimedSendAsWritten, MsgQueues.TimedReceiveAsWritten, Semaphores.TimedWaitAsWritten | Posix.Deadline, Posix.DeadlinesAgreeWhenValid, MsgQueues.TimedReceiveAgreesWhenValid, Semaphores.TimedWaitAgreesWhenValid |

These members use the corrected definitions:

- `SharedMemories.Create` uses `ProtectionBits`; `SharedMemories.CreateAsWritten` is the code as it stands.
- `SharedMemories.Construct` starts from a `nullptr` address; `SharedMemories.ConstructAsWritten` is the code as it stands.
- `MsgQueues.TimedSend` sends the terminator and uses `Deadline`.
- `MsgQueues.TimedReceive` and `Semaphores.TimedWait` use `Deadline`; `MsgQueues.TimedReceiveAsWritten` and `Semaphores.TimedWaitAsWritten` are the code as it stands.

The behaviour as written is kept in the members named in the "as written" column.

## Left out

- The POSIX calls' own semantics are not modelled: queue ordering and capacity, semaphore counting, page mapping, and visibility across processes. Each call is an oracle outcome, so properties such as "signal N times adds N" or "another mapping sees the value" are outside the model.
- Blocking, cancellation and real timeouts are left out. "Now" is the `clock_gettime` outcome, passed in as a parameter.
- `src/thread.cpp` and `include/thread.h` are not part of this model. They are a pthread wrapper that only adds concurrency.
- The `NDEBUG` diagnostic output to `std::cout` is left out because it is I/O only.
- `strerror` text is an opaque string carried by each failed outcome.
- Heap management in `receive` (`new[]`/`delete[]`) is not modelled. Neither is the leak of the receive buffer when the clock read fails in the timed receive (src/msg_queue.cpp:247-252). The buffer's uninitialised bytes appear only as the `stale` parameter.
- The destructors (`~MsgQueue`, `~Semaphore`, `~SharedMemory`) run at end of lifetime. They are left out as separate operations: each only calls `deallocateResources`, which is modelled.
- `getProtection` is left out: it returns the stored field, which the model keeps as `protection`.
- `getPosixAttribute` is left out as a separate member. The getters model it as the `mq_getattr` outcome converted through `operator bool`.
- C integer widths are not modelled. `Result::error`, the attribute fields (`long`), timespec fields and timeout offsets are unbounded integers, so overflow of `tv_sec + seconds` or of `mq_msgsize + 1` is not represented. The semaphore's initial value is the one bounded type (`unsigned int`).
- `sizeof(T)` is the parameter `objectSize`, and the mapped memory is a map from mapping addresses to values. Raw pointers and reinterpretation of memory are not modelled.
- Flag, permission and protection values are the Linux ones. Other platforms use other bit values, but the same structure.
- SharedMemories.GetValue: has no contract of its own, because it is a plain read through the mapped address. Its promise is stated by SharedMemories.SetThenGet.
