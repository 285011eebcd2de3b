/** `ipclib::Semaphore`: a named POSIX counting semaphore. Counting and
    blocking belong to the kernel; the model follows the calls and the
    mapping of their outcomes. */
module Semaphores {
  import opened Results
  import opened Posix
  import opened PosixObjects

  datatype Semaphore = Semaphore(base: PosixObject, handle: Handle)

  /** `Semaphore()`: the handle is `nullptr`. */
  function NewSemaphore(): (s: Semaphore)
    ensures !IsAlreadyInitialized(s.base) && s.handle == Null
  {
    Semaphore(NewPosixObject(), Null)
  }

  /** A created semaphore has its translated name, and holds a handle exactly
      when its recorded initialisation succeeded. */
  predicate Consistent(s: Semaphore)
  {
    && Translated(s.base)
    && (s.base.alreadyInitialized ==> (s.handle.Valid? <==> IsSuccessful(s.base.initializationResult)))
  }

  /** The `oflag` handed to `sem_open`: creation bits only, no access mode. */
  function OpenFlags(toCreate: bool, toCreateExclusively: bool): (f: bv32)
    ensures f & O_ACCMODE == 0
    ensures f & !(O_CREAT | O_EXCL) == 0
    ensures HasFlag(f, O_CREAT) <==> toCreate
    ensures HasFlag(f, O_EXCL) <==> toCreateExclusively
  {
    var withCreate: bv32 := if toCreate then O_CREAT else 0;
    if toCreateExclusively then withCreate | O_EXCL else withCreate
  }

  /** `deallocateResources`: `sem_close` on the handle. */
  function DeallocateResources(s: Semaphore, close: Status): (r: Step<Semaphore>)
    ensures r.state == s
    ensures r.calls == [SemClose(s.handle)]
    ensures r.result == ResultOf(close)
  {
    Step(s, ResultOf(close), [SemClose(s.handle)])
  }

  /** `create`, with the source's default arguments. `release` is the
      outcome of closing the previous handle, dropped by the source; `open`
      is the outcome of `sem_open`. */
  function Create(s: Semaphore, release: Status, open: Outcome<nat>, theName: string,
                  toCreate: bool := true, toCreateExclusively: bool := false, theValue: Uint32 := 1): (r: Step<Semaphore>)
    ensures Consistent(r.state)
    ensures IsAlreadyInitialized(r.state.base) && GetName(r.state.base) == theName
    ensures GetInitializationResult(r.state.base) == r.result
    ensures r.result == ResultOf(open)
    ensures r.state.handle == (if open.Ok? then Valid(open.value) else Failed)
    ensures |r.calls| == (if IsAlreadyInitialized(s.base) then 2 else 1)
    ensures IsAlreadyInitialized(s.base) ==> r.calls[0] == SemClose(s.handle)
    ensures r.calls[|r.calls| - 1]
         == SemOpen(PosixNameOf(theName), OpenFlags(toCreate, toCreateExclusively), DEFAULT_PERMISSION, theValue)
  {
    var released := if IsAlreadyInitialized(s.base) then DeallocateResources(s, release).calls else [];
    var base := Bind(s.base, theName);
    var openCall := SemOpen(GetPosixName(base), OpenFlags(toCreate, toCreateExclusively), DEFAULT_PERMISSION, theValue);
    var res := ResultOf(open);
    var handle := if open.Ok? then Valid(open.value) else Failed;
    Step(Semaphore(base.(initializationResult := res), handle), res, released + [openCall])
  }

  /** The constructor `Semaphore(name, ...)`: `create` on a fresh object
      whose handle was never given a value; `create` overwrites it. */
  function Construct(open: Outcome<nat>, theName: string,
                     toCreate: bool := true, toCreateExclusively: bool := false, theValue: Uint32 := 1): (r: Step<Semaphore>)
    ensures |r.calls| == 1 && r.calls[0].SemOpen? && r.calls[0].value == theValue
    ensures IsSuccessful(GetInitializationResult(r.state.base)) <==> open.Ok?
  {
    Create(Semaphore(NewPosixObject(), Indeterminate), Ok(()), open, theName, toCreate, toCreateExclusively, theValue)
  }

  /** Whatever closing the old handle reported, re-creating ends in the same
      state with the same result. */
  lemma CreateDiscardsRelease(s: Semaphore, release1: Status, release2: Status, open: Outcome<nat>, theName: string,
                              toCreate: bool, toCreateExclusively: bool, theValue: Uint32)
    ensures Create(s, release1, open, theName, toCreate, toCreateExclusively, theValue)
         == Create(s, release2, open, theName, toCreate, toCreateExclusively, theValue)
  {
  }

  /** With the default arguments the semaphore is created if missing, not
      exclusively, with count 1. */
  lemma CreateDefaults(s: Semaphore, release: Status, open: Outcome<nat>, theName: string)
    ensures var c := Create(s, release, open, theName).calls;
            c[|c| - 1].oflag == O_CREAT && c[|c| - 1].value == 1
  {
  }

  function Max(a: int, b: int): int { if a < b then b else a }

  /** The count as an optional value: `sem_getvalue`'s reading clamped at 0,
      or nothing when the query failed. */
  function Count(query: Outcome<int>): (c: Option<nat>)
    ensures c.Some? <==> query.Ok?
    ensures query.Ok? && query.value >= 0 ==> c.value == query.value
    ensures query.Ok? && query.value < 0 ==> c.value == 0
  {
    match query
    case Ok(reading) => Some(Max(reading, 0))
    case Fail(_, _) => None
  }

  /** `getValue`: a negative reading (some systems report waiters that way)
      becomes 0, and a failed query becomes -1. */
  function GetValue(query: Outcome<int>): (v: int)
    ensures v >= -1
    ensures v == -1 <==> query.Fail?
    ensures query.Ok? && query.value >= 0 ==> v == query.value
    ensures query.Ok? && query.value < 0 ==> v == 0
  {
    if ToBool(ResultOf(query)) then
      if query.value <= 0 then 0 else query.value
    else -1
  }

  /** `getValue` is the optional count with -1 standing for "none". */
  lemma GetValueIsCountOrSentinel(query: Outcome<int>)
    ensures GetValue(query) == (if Count(query).Some? then Count(query).value else -1)
  {
  }

  /** Unlike the message-queue getters, this sentinel is unambiguous: two
      queries that `getValue` maps to the same number either both failed or
      both succeeded, and then with the same clamped count. */
  lemma GetValueSentinelIsExact(q1: Outcome<int>, q2: Outcome<int>)
    requires GetValue(q1) == GetValue(q2)
    ensures q1.Fail? <==> q2.Fail?
    ensures Count(q1) == Count(q2)
  {
  }

  /** `wait()`. */
  function Wait(s: Semaphore, outcome: Status): (r: Step<Semaphore>)
    ensures r.state == s
    ensures r.calls == [SemWait(s.handle)]
    ensures r.result == ResultOf(outcome)
  {
    Step(s, ResultOf(outcome), [SemWait(s.handle)])
  }

  /** `wait(seconds, nanoseconds)` as written: reads the clock, then waits
      until the clock reading plus the offset, added field by field without
      carry. */
  function TimedWaitAsWritten(s: Semaphore, clock: Outcome<Timespec>, outcome: Status,
                              theSeconds: int, theNanoSeconds: int := 0): (r: Step<Semaphore>)
    ensures r.state == s
    ensures IsSuccessful(r.result) <==> clock.Ok? && outcome.Ok?
    ensures clock.Fail? ==> r.result == ResultOf(clock) && r.calls == [ClockGettime]
    ensures clock.Ok? ==> r.result == ResultOf(outcome)
    ensures clock.Ok? ==> |r.calls| == 2 && r.calls[0] == ClockGettime && r.calls[1].SemTimedWait?
    ensures clock.Ok? ==> r.calls[1].handle == s.handle
    ensures clock.Ok? ==> r.calls[1].deadline.sec == clock.value.sec + theSeconds
                          && r.calls[1].deadline.nsec == clock.value.nsec + theNanoSeconds
  {
    if clock.Fail? then Step(s, ResultOf(clock), [ClockGettime])
    else
      var deadline := DeadlineAsWritten(clock.value, theSeconds, theNanoSeconds);
      Step(s, ResultOf(outcome), [ClockGettime, SemTimedWait(s.handle, deadline)])
  }

  /** `wait(seconds, nanoseconds)` corrected: reads the clock, then waits
      until a normalized absolute deadline. */
  function TimedWait(s: Semaphore, clock: Outcome<Timespec>, outcome: Status,
                     theSeconds: int, theNanoSeconds: int := 0): (r: Step<Semaphore>)
    ensures r.state == s
    ensures IsSuccessful(r.result) <==> clock.Ok? && outcome.Ok?
    ensures clock.Fail? ==> r.result == ResultOf(clock) && r.calls == [ClockGettime]
    ensures clock.Ok? ==> r.result == ResultOf(outcome)
    ensures clock.Ok? ==> |r.calls| == 2 && r.calls[0] == ClockGettime && r.calls[1].SemTimedWait?
    ensures clock.Ok? ==> r.calls[1].handle == s.handle && Normalized(r.calls[1].deadline)
    ensures clock.Ok? ==> TotalNanos(r.calls[1].deadline)
                          == TotalNanos(clock.value) + theSeconds * NS_PER_SEC + theNanoSeconds
  {
    if clock.Fail? then Step(s, ResultOf(clock), [ClockGettime])
    else
      var deadline := Deadline(clock.value, theSeconds, theNanoSeconds);
      Step(s, ResultOf(outcome), [ClockGettime, SemTimedWait(s.handle, deadline)])
  }

  /** The two timed waits behave identically exactly when the library's
      carry-free deadline is already valid; otherwise the library hands
      `sem_timedwait` a timespec it rejects. */
  lemma TimedWaitAgreesWhenValid(s: Semaphore, now: Timespec, outcome: Status, theSeconds: int, theNanoSeconds: int)
    ensures Normalized(DeadlineAsWritten(now, theSeconds, theNanoSeconds))
        <==> (TimedWaitAsWritten(s, Ok(now), outcome, theSeconds, theNanoSeconds)
              == TimedWait(s, Ok(now), outcome, theSeconds, theNanoSeconds))
  {
    DeadlinesAgreeWhenValid(now, theSeconds, theNanoSeconds);
  }

  /** `signal()`. */
  function Signal(s: Semaphore, outcome: Status): (r: Step<Semaphore>)
    ensures r.state == s
    ensures r.calls == [SemPost(s.handle)]
    ensures r.result == ResultOf(outcome)
  {
    Step(s, ResultOf(outcome), [SemPost(s.handle)])
  }

  /** `destroy()`: unlinks the system name; the handle stays open. */
  function Destroy(s: Semaphore, unlink: Status): (r: Step<Semaphore>)
    ensures r.state == s
    ensures r.calls == [SemUnlink(GetPosixName(s.base))]
    ensures r.result == ResultOf(unlink)
  {
    Step(s, ResultOf(unlink), [SemUnlink(GetPosixName(s.base))])
  }

  /** What follows `create` acts on what it established: `destroy` unlinks
      exactly the name `sem_open` was given, and waits and signals use the
      handle it returned. */
  lemma OperationsTargetCreatedSemaphore(s: Semaphore, release: Status, open: Outcome<nat>, theName: string,
                                         toCreate: bool, toCreateExclusively: bool, theValue: Uint32,
                                         unlink: Status, outcome: Status)
    ensures var c := Create(s, release, open, theName, toCreate, toCreateExclusively, theValue);
            && Destroy(c.state, unlink).calls[0].name == c.calls[|c.calls| - 1].name
            && (open.Ok? ==> Wait(c.state, outcome).calls[0].handle == Valid(open.value))
            && (open.Ok? ==> Signal(c.state, outcome).calls[0].handle == Valid(open.value))
  {
  }

  /** A zero nanosecond offset (the default) leaves the clock's nanoseconds
      as they were, so the deadline differs from the clock reading by whole
      seconds only. */
  lemma TimedWaitDefaultOffset(s: Semaphore, now: Timespec, outcome: Status, theSeconds: int)
    requires Normalized(now)
    ensures TimedWait(s, Ok(now), outcome, theSeconds).calls[1].deadline == Timespec(now.sec + theSeconds, now.nsec)
  {
    var d := TimedWait(s, Ok(now), outcome, theSeconds).calls[1].deadline;
    TimespecUnique(d, Timespec(now.sec + theSeconds, now.nsec));
  }
}
