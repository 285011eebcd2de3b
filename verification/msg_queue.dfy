/** `ipclib::MsgQueue`: a named POSIX message queue. The kernel owns the
    messages; the model follows what the library passes to `mq_*` and what
    it makes of the outcomes. */
module MsgQueues {
  import opened Results
  import opened Posix
  import opened CStrings
  import opened PosixObjects

  /** `ATTRIBUTE_ERROR`, the sentinel of the attribute getters. */
  const ATTRIBUTE_ERROR: int := -1

  /** The description `receive` gives when the buffer size cannot be read. */
  const SIZE_ERROR: string := "Error in retrieving message buffer size"

  /** `struct mq_attr` as `mq_getattr` fills it. */
  datatype MqAttr = MqAttr(flags: int, maxMsg: int, msgSize: int, curMsgs: int)

  datatype MsgQueue = MsgQueue(base: PosixObject, handle: Handle, protection: Option<Protection>)

  /** What a receive produces: the returned result, the caller's buffer
      afterwards, and the OS calls issued. */
  datatype Reception = Reception(result: Result, buffer: string, calls: seq<Call>)

  /** `MsgQueue()`: neither the descriptor nor the protection is set. */
  function NewMsgQueue(): (q: MsgQueue)
    ensures !IsAlreadyInitialized(q.base)
    ensures q.handle == Indeterminate && q.protection == None
  {
    MsgQueue(NewPosixObject(), Indeterminate, None)
  }

  /** A created queue has its translated name, and holds a descriptor exactly
      when its recorded initialisation succeeded. */
  predicate Consistent(q: MsgQueue)
  {
    && Translated(q.base)
    && (q.base.alreadyInitialized ==> (q.handle.Valid? <==> IsSuccessful(q.base.initializationResult)))
  }

  function AccessFor(p: Protection): Access
  {
    match p
    case READ_ONLY => ReadOnly
    case WRITE_ONLY => WriteOnly
    case READ_AND_WRITE => ReadWrite
  }

  /** The `oflag` handed to `mq_open`. */
  function OpenFlags(theProtection: Protection, toCreate: bool, toCreateExclusively: bool, isNonBlocking: bool): (f: bv32)
    ensures DecodeOpenFlags(f).Some?
    ensures DecodeOpenFlags(f).value.access == AccessFor(theProtection)
    ensures DecodeOpenFlags(f).value.create == toCreate
    ensures DecodeOpenFlags(f).value.exclusive == toCreateExclusively
    ensures DecodeOpenFlags(f).value.nonBlocking == isNonBlocking
  {
    var access :=
      if theProtection == READ_ONLY then O_RDONLY
      else if theProtection == WRITE_ONLY then O_WRONLY
      else O_RDWR;
    var withCreate := if toCreate then access | O_CREAT else access;
    var withExclusive := if toCreateExclusively then withCreate | O_EXCL else withCreate;
    if isNonBlocking then withExclusive | O_NONBLOCK else withExclusive
  }

  /** `deallocateResources`: closes the descriptor; the queue record itself
      is not changed. */
  function DeallocateResources(q: MsgQueue, close: Status): (r: Step<MsgQueue>)
    ensures r.state == q
    ensures r.calls == [MqClose(q.handle)]
    ensures r.result == ResultOf(close)
  {
    Step(q, ResultOf(close), [MqClose(q.handle)])
  }

  /** `create`, with the source's default arguments. `release` is the outcome
      of closing the previous descriptor, which only happens on an already
      initialised queue and whose result is dropped; `open` is the outcome of
      `mq_open` (a descriptor or errno). */
  function Create(q: MsgQueue, release: Status, open: Outcome<nat>, theName: string,
                  toCreate: bool := true, toCreateExclusively: bool := false,
                  isNonBlocking: bool := false, theProtection: Protection := READ_AND_WRITE): (r: Step<MsgQueue>)
    ensures Consistent(r.state)
    ensures IsAlreadyInitialized(r.state.base) && GetName(r.state.base) == theName
    ensures GetInitializationResult(r.state.base) == r.result
    ensures r.result == ResultOf(open)
    ensures r.state.handle == (if open.Ok? then Valid(open.value) else Failed)
    ensures r.state.protection == Some(theProtection)
    ensures |r.calls| == (if IsAlreadyInitialized(q.base) then 2 else 1)
    ensures IsAlreadyInitialized(q.base) ==> r.calls[0] == MqClose(q.handle)
    ensures r.calls[|r.calls| - 1]
         == MqOpen(PosixNameOf(theName), OpenFlags(theProtection, toCreate, toCreateExclusively, isNonBlocking), DEFAULT_PERMISSION)
  {
    var released := if IsAlreadyInitialized(q.base) then DeallocateResources(q, release).calls else [];
    var base := Bind(q.base, theName);
    var openCall := MqOpen(GetPosixName(base), OpenFlags(theProtection, toCreate, toCreateExclusively, isNonBlocking), DEFAULT_PERMISSION);
    var res := ResultOf(open);
    var handle := if open.Ok? then Valid(open.value) else Failed;
    Step(MsgQueue(base.(initializationResult := res), handle, Some(theProtection)), res, released + [openCall])
  }

  /** The constructor `MsgQueue(name, ...)`: `create` on a fresh object. */
  function Construct(open: Outcome<nat>, theName: string,
                     toCreate: bool := true, toCreateExclusively: bool := false,
                     isNonBlocking: bool := false, theProtection: Protection := READ_AND_WRITE): (r: Step<MsgQueue>)
    ensures |r.calls| == 1 && r.calls[0].MqOpen?
    ensures IsSuccessful(GetInitializationResult(r.state.base)) <==> open.Ok?
  {
    Create(NewMsgQueue(), Ok(()), open, theName, toCreate, toCreateExclusively, isNonBlocking, theProtection)
  }

  /** Whatever closing the old descriptor reported, re-creating ends in the
      same state with the same result: that outcome is discarded. */
  lemma CreateDiscardsRelease(q: MsgQueue, release1: Status, release2: Status, open: Outcome<nat>, theName: string,
                              toCreate: bool, toCreateExclusively: bool, isNonBlocking: bool, theProtection: Protection)
    ensures Create(q, release1, open, theName, toCreate, toCreateExclusively, isNonBlocking, theProtection)
         == Create(q, release2, open, theName, toCreate, toCreateExclusively, isNonBlocking, theProtection)
  {
  }

  /** With the default arguments the queue is opened read-write, created if
      missing, not exclusively, in blocking mode. */
  lemma CreateDefaults(q: MsgQueue, release: Status, open: Outcome<nat>, theName: string)
    ensures var r := Create(q, release, open, theName);
            DecodeOpenFlags(r.calls[|r.calls| - 1].oflag) == Some(OpenRequest(ReadWrite, true, false, false))
  {
  }

  // ---------------------------------------------------------------------
  // Attribute queries. `attr` is the outcome of `mq_getattr`.

  /** The queue's attributes as an optional value, the form that keeps a
      failed query apart from every attribute value. */
  function Attributes(attr: Outcome<MqAttr>): Option<MqAttr>
  {
    if attr.Ok? then Some(attr.value) else None
  }

  /** The branch the getters take: `getPosixAttribute`'s result converted
      with `operator bool`. */
  predicate AttributeRead(attr: Outcome<MqAttr>)
  {
    ToBool(ResultOf(attr))
  }

  function GetMaxMsgSize(attr: Outcome<MqAttr>): (n: int)
    ensures Attributes(attr).Some? ==> n == Attributes(attr).value.msgSize
    ensures Attributes(attr).None? ==> n == ATTRIBUTE_ERROR
  {
    if AttributeRead(attr) then attr.value.msgSize else ATTRIBUTE_ERROR
  }

  function GetMaxMsg(attr: Outcome<MqAttr>): (n: int)
    ensures Attributes(attr).Some? ==> n == Attributes(attr).value.maxMsg
    ensures Attributes(attr).None? ==> n == ATTRIBUTE_ERROR
  {
    if AttributeRead(attr) then attr.value.maxMsg else ATTRIBUTE_ERROR
  }

  function GetMsgNumber(attr: Outcome<MqAttr>): (n: int)
    ensures Attributes(attr).Some? ==> n == Attributes(attr).value.curMsgs
    ensures Attributes(attr).None? ==> n == ATTRIBUTE_ERROR
  {
    if AttributeRead(attr) then attr.value.curMsgs else ATTRIBUTE_ERROR
  }

  /** C's conversion of an integer to `bool`. */
  predicate CBool(x: int) { x != 0 }

  /** `isNonBlocking`: on a failed query the function returns
      `ATTRIBUTE_ERROR`, which converts to `true`. */
  function IsNonBlocking(attr: Outcome<MqAttr>): (b: bool)
    ensures b <==> Attributes(attr).None? || Attributes(attr).value.flags == O_NONBLOCK as int
  {
    if AttributeRead(attr) then attr.value.flags == O_NONBLOCK as int
    else CBool(ATTRIBUTE_ERROR)
  }

  /** `isEmpty`, i.e. `!getMsgNumber()`. */
  function IsEmpty(attr: Outcome<MqAttr>): (b: bool)
    ensures b <==> Attributes(attr).Some? && Attributes(attr).value.curMsgs == 0
  {
    !CBool(GetMsgNumber(attr))
  }

  /** The sentinel overlaps the value range: a failed query and a queue that
      reports -1 are indistinguishable through the getters, and a failed
      query looks like a non-blocking, non-empty queue. */
  lemma SentinelIsAmbiguous(e: Errno, t: string, a: MqAttr)
    requires a.msgSize == -1 && a.maxMsg == -1 && a.curMsgs == -1 && a.flags == O_NONBLOCK as int
    ensures GetMaxMsgSize(Ok(a)) == GetMaxMsgSize(Fail(e, t))
    ensures GetMaxMsg(Ok(a)) == GetMaxMsg(Fail(e, t))
    ensures GetMsgNumber(Ok(a)) == GetMsgNumber(Fail(e, t))
    ensures IsNonBlocking(Ok(a)) == IsNonBlocking(Fail(e, t)) == true
    ensures !IsEmpty(Fail(e, t))
  {
  }

  /** For the non-negative attribute values a kernel reports, the sentinel
      does identify failure, in both directions. */
  lemma SentinelExactForKernelValues(attr: Outcome<MqAttr>)
    requires attr.Ok? ==> attr.value.msgSize >= 0 && attr.value.maxMsg >= 0 && attr.value.curMsgs >= 0
    ensures GetMaxMsgSize(attr) == ATTRIBUTE_ERROR <==> attr.Fail?
    ensures GetMaxMsg(attr) == ATTRIBUTE_ERROR <==> attr.Fail?
    ensures GetMsgNumber(attr) == ATTRIBUTE_ERROR <==> attr.Fail?
  {
  }

  // ---------------------------------------------------------------------
  // Sending. The payload recorded in the call is the bytes `mq_send` reads.

  /** `send(msg)`: `msg.c_str()` with `size()+1` bytes, terminator included,
      at priority 0. */
  function Send(q: MsgQueue, theMsg: string, send: Status): (r: Step<MsgQueue>)
    ensures r.state == q
    ensures r.result == ResultOf(send)
    ensures |r.calls| == 1 && r.calls[0].MqSend? && r.calls[0].handle == q.handle && r.calls[0].priority == 0
    ensures |r.calls[0].payload| == |theMsg| + 1
    ensures r.calls[0].payload[..|theMsg|] == theMsg && r.calls[0].payload[|theMsg|] == NUL
  {
    Step(q, ResultOf(send), [MqSend(q.handle, theMsg + [NUL], 0)])
  }

  /** `send(msg, seconds, nanoseconds)` as written: `size()` bytes, so the
      terminator is not sent, and the deadline is taken without carry. */
  function TimedSendAsWritten(q: MsgQueue, theMsg: string, clock: Outcome<Timespec>, send: Status,
                              theSeconds: int, theNanoSeconds: int := 0): (r: Step<MsgQueue>)
    ensures r.state == q
    ensures IsSuccessful(r.result) <==> clock.Ok? && send.Ok?
    ensures clock.Fail? ==> r.result == ResultOf(clock) && r.calls == [ClockGettime]
    ensures clock.Ok? ==> r.result == ResultOf(send)
    ensures clock.Ok? ==> |r.calls| == 2 && r.calls[0] == ClockGettime && r.calls[1].MqTimedSend?
    ensures clock.Ok? ==> r.calls[1].handle == q.handle
    ensures clock.Ok? ==> r.calls[1].payload == theMsg && r.calls[1].priority == 0
    ensures clock.Ok? ==> r.calls[1].deadline == DeadlineAsWritten(clock.value, theSeconds, theNanoSeconds)
  {
    if clock.Fail? then Step(q, ResultOf(clock), [ClockGettime])
    else
      var deadline := DeadlineAsWritten(clock.value, theSeconds, theNanoSeconds);
      Step(q, ResultOf(send), [ClockGettime, MqTimedSend(q.handle, theMsg, 0, deadline)])
  }

  /** `send(msg, seconds, nanoseconds)` corrected: the terminator is sent, as
      by the untimed `send`, and the deadline is normalized. */
  function TimedSend(q: MsgQueue, theMsg: string, clock: Outcome<Timespec>, send: Status,
                     theSeconds: int, theNanoSeconds: int := 0): (r: Step<MsgQueue>)
    ensures r.state == q
    ensures IsSuccessful(r.result) <==> clock.Ok? && send.Ok?
    ensures clock.Fail? ==> r.result == ResultOf(clock) && r.calls == [ClockGettime]
    ensures clock.Ok? ==> r.result == ResultOf(send)
    ensures clock.Ok? ==> |r.calls| == 2 && r.calls[0] == ClockGettime && r.calls[1].MqTimedSend?
    ensures clock.Ok? ==> r.calls[1].handle == q.handle
    ensures clock.Ok? ==> r.calls[1].payload == Send(q, theMsg, Ok(())).calls[0].payload && r.calls[1].priority == 0
    ensures clock.Ok? ==> Normalized(r.calls[1].deadline)
    ensures clock.Ok? ==> TotalNanos(r.calls[1].deadline)
                          == TotalNanos(clock.value) + theSeconds * NS_PER_SEC + theNanoSeconds
  {
    if clock.Fail? then Step(q, ResultOf(clock), [ClockGettime])
    else
      var deadline := Deadline(clock.value, theSeconds, theNanoSeconds);
      Step(q, ResultOf(send), [ClockGettime, MqTimedSend(q.handle, theMsg + [NUL], 0, deadline)])
  }

  // ---------------------------------------------------------------------
  // Receiving. `recv` is what the kernel wrote into the receive buffer;
  // `stale` is what follows it there: the buffer comes from `new char[]`
  // and is never initialised.

  /** `receive(buffer)`: the caller's buffer is cleared first; a receive
      buffer of max message size + 1 bytes is used, and on success the
      caller's buffer gets the C string it holds. */
  function Receive(q: MsgQueue, attr: Outcome<MqAttr>, recv: Outcome<seq<char>>, stale: seq<char>): (r: Reception)
    ensures IsSuccessful(r.result) <==> GetMaxMsgSize(attr) != ATTRIBUTE_ERROR && recv.Ok?
    ensures !IsSuccessful(r.result) ==> r.buffer == []
    ensures GetMaxMsgSize(attr) == ATTRIBUTE_ERROR ==> r.result == NewResult(-1, SIZE_ERROR) && r.calls == [MqGetattr(q.handle)]
    ensures GetMaxMsgSize(attr) != ATTRIBUTE_ERROR ==>
              r.calls == [MqGetattr(q.handle), MqReceive(q.handle, GetMaxMsgSize(attr) + 1)]
    ensures recv.Fail? && GetMaxMsgSize(attr) != ATTRIBUTE_ERROR ==> r.result == ResultOf(recv)
    ensures IsSuccessful(r.result) ==> r.result == NewResult() && ReadsCString(r.buffer, recv.value + stale)
  {
    var size := GetMaxMsgSize(attr);
    if size == ATTRIBUTE_ERROR then
      Reception(NewResult(-1, SIZE_ERROR), [], [MqGetattr(q.handle)])
    else
      var calls := [MqGetattr(q.handle), MqReceive(q.handle, size + 1)];
      if recv.Fail? then Reception(ResultOf(recv), [], calls)
      else Reception(NewResult(), CString(recv.value + stale), calls)
  }

  /** `receive(buffer, seconds, nanoseconds)` as written: as `receive`, with
      the clock read after the buffer size and the deadline taken without
      carry. */
  function TimedReceiveAsWritten(q: MsgQueue, attr: Outcome<MqAttr>, clock: Outcome<Timespec>, recv: Outcome<seq<char>>,
                                 stale: seq<char>, theSeconds: int, theNanoSeconds: int := 0): (r: Reception)
    ensures IsSuccessful(r.result) <==> GetMaxMsgSize(attr) != ATTRIBUTE_ERROR && clock.Ok? && recv.Ok?
    ensures !IsSuccessful(r.result) ==> r.buffer == []
    ensures GetMaxMsgSize(attr) == ATTRIBUTE_ERROR ==> r.result == NewResult(ATTRIBUTE_ERROR, SIZE_ERROR) && r.calls == [MqGetattr(q.handle)]
    ensures GetMaxMsgSize(attr) != ATTRIBUTE_ERROR && clock.Fail? ==>
              r.result == ResultOf(clock) && r.calls == [MqGetattr(q.handle), ClockGettime]
    ensures GetMaxMsgSize(attr) != ATTRIBUTE_ERROR && clock.Ok? ==>
              && |r.calls| == 3 && r.calls[0] == MqGetattr(q.handle) && r.calls[1] == ClockGettime
              && r.calls[2].MqTimedReceive? && r.calls[2].handle == q.handle
              && r.calls[2].capacity == GetMaxMsgSize(attr) + 1
              && r.calls[2].deadline.sec == clock.value.sec + theSeconds
              && r.calls[2].deadline.nsec == clock.value.nsec + theNanoSeconds
    ensures GetMaxMsgSize(attr) != ATTRIBUTE_ERROR && clock.Ok? && recv.Fail? ==> r.result == ResultOf(recv)
    ensures IsSuccessful(r.result) ==> r.result == NewResult() && ReadsCString(r.buffer, recv.value + stale)
  {
    var size := GetMaxMsgSize(attr);
    if size == ATTRIBUTE_ERROR then
      Reception(NewResult(ATTRIBUTE_ERROR, SIZE_ERROR), [], [MqGetattr(q.handle)])
    else if clock.Fail? then
      Reception(ResultOf(clock), [], [MqGetattr(q.handle), ClockGettime])
    else
      var deadline := DeadlineAsWritten(clock.value, theSeconds, theNanoSeconds);
      var calls := [MqGetattr(q.handle), ClockGettime, MqTimedReceive(q.handle, size + 1, deadline)];
      if recv.Fail? then Reception(ResultOf(recv), [], calls)
      else Reception(NewResult(), CString(recv.value + stale), calls)
  }

  /** `receive(buffer, seconds, nanoseconds)` corrected: the same steps, with
      a normalized deadline. */
  function TimedReceive(q: MsgQueue, attr: Outcome<MqAttr>, clock: Outcome<Timespec>, recv: Outcome<seq<char>>,
                        stale: seq<char>, theSeconds: int, theNanoSeconds: int := 0): (r: Reception)
    ensures IsSuccessful(r.result) <==> GetMaxMsgSize(attr) != ATTRIBUTE_ERROR && clock.Ok? && recv.Ok?
    ensures !IsSuccessful(r.result) ==> r.buffer == []
    ensures GetMaxMsgSize(attr) == ATTRIBUTE_ERROR ==> r.result == NewResult(ATTRIBUTE_ERROR, SIZE_ERROR) && r.calls == [MqGetattr(q.handle)]
    ensures GetMaxMsgSize(attr) != ATTRIBUTE_ERROR && clock.Fail? ==>
              r.result == ResultOf(clock) && r.calls == [MqGetattr(q.handle), ClockGettime]
    ensures GetMaxMsgSize(attr) != ATTRIBUTE_ERROR && clock.Ok? ==>
              && |r.calls| == 3 && r.calls[0] == MqGetattr(q.handle) && r.calls[1] == ClockGettime
              && r.calls[2].MqTimedReceive? && r.calls[2].handle == q.handle
              && r.calls[2].capacity == GetMaxMsgSize(attr) + 1
              && Normalized(r.calls[2].deadline)
              && TotalNanos(r.calls[2].deadline) == TotalNanos(clock.value) + theSeconds * NS_PER_SEC + theNanoSeconds
    ensures GetMaxMsgSize(attr) != ATTRIBUTE_ERROR && clock.Ok? && recv.Fail? ==> r.result == ResultOf(recv)
    ensures IsSuccessful(r.result) ==> r.result == NewResult() && ReadsCString(r.buffer, recv.value + stale)
  {
    var size := GetMaxMsgSize(attr);
    if size == ATTRIBUTE_ERROR then
      Reception(NewResult(ATTRIBUTE_ERROR, SIZE_ERROR), [], [MqGetattr(q.handle)])
    else if clock.Fail? then
      Reception(ResultOf(clock), [], [MqGetattr(q.handle), ClockGettime])
    else
      var deadline := Deadline(clock.value, theSeconds, theNanoSeconds);
      var calls := [MqGetattr(q.handle), ClockGettime, MqTimedReceive(q.handle, size + 1, deadline)];
      if recv.Fail? then Reception(ResultOf(recv), [], calls)
      else Reception(NewResult(), CString(recv.value + stale), calls)
  }

  /** The two timed receives behave identically exactly when the library's
      carry-free deadline is already valid; otherwise the library hands
      `mq_timedreceive` a timespec it rejects. */
  lemma TimedReceiveAgreesWhenValid(q: MsgQueue, attr: Outcome<MqAttr>, now: Timespec, recv: Outcome<seq<char>>,
                                    stale: seq<char>, theSeconds: int, theNanoSeconds: int)
    requires GetMaxMsgSize(attr) != ATTRIBUTE_ERROR
    ensures Normalized(DeadlineAsWritten(now, theSeconds, theNanoSeconds))
        <==> (TimedReceiveAsWritten(q, attr, Ok(now), recv, stale, theSeconds, theNanoSeconds)
              == TimedReceive(q, attr, Ok(now), recv, stale, theSeconds, theNanoSeconds))
  {
    DeadlinesAgreeWhenValid(now, theSeconds, theNanoSeconds);
  }

  /** `destroy`: unlinks the system name; the descriptor stays open and the
      queue record is unchanged. */
  function Destroy(q: MsgQueue, unlink: Status): (r: Step<MsgQueue>)
    ensures r.state == q
    ensures r.calls == [MqUnlink(GetPosixName(q.base))]
    ensures r.result == ResultOf(unlink)
  {
    Step(q, ResultOf(unlink), [MqUnlink(GetPosixName(q.base))])
  }

  /** What follows `create` acts on what it established: `destroy` unlinks
      exactly the name `mq_open` was given, and sends and receives use the
      descriptor it returned. */
  lemma OperationsTargetCreatedQueue(q: MsgQueue, release: Status, open: Outcome<nat>, theName: string,
                                     toCreate: bool, toCreateExclusively: bool, isNonBlocking: bool,
                                     theProtection: Protection, unlink: Status, theMsg: string, send: Status,
                                     attr: Outcome<MqAttr>, recv: Outcome<seq<char>>, stale: seq<char>)
    ensures var c := Create(q, release, open, theName, toCreate, toCreateExclusively, isNonBlocking, theProtection);
            && Destroy(c.state, unlink).calls[0].name == c.calls[|c.calls| - 1].name
            && (open.Ok? ==> Send(c.state, theMsg, send).calls[0].handle == Valid(open.value))
            && (open.Ok? ==> Receive(c.state, attr, recv, stale).calls[0] == MqGetattr(Valid(open.value)))
  {
  }

  // ---------------------------------------------------------------------
  // Send and receive together

  /** A message without NUL bytes sent by `send` is read back unchanged by
      `receive`, whatever the receive buffer held before. */
  lemma SendReceiveRoundTrip(q: MsgQueue, theMsg: string, a: MqAttr, stale: seq<char>)
    requires NUL !in theMsg
    requires a.msgSize != ATTRIBUTE_ERROR
    ensures var sent := Send(q, theMsg, Ok(())).calls[0].payload;
            var got := Receive(q, Ok(a), Ok(sent), stale);
            IsSuccessful(got.result) && got.buffer == theMsg
  {
    TerminatedRoundTrip(theMsg, stale);
  }

  /** The same for the corrected timed operations. */
  lemma TimedSendReceiveRoundTrip(q: MsgQueue, theMsg: string, now: Timespec, later: Timespec, a: MqAttr,
                                  stale: seq<char>, s1: int, ns1: int, s2: int, ns2: int)
    requires NUL !in theMsg
    requires a.msgSize != ATTRIBUTE_ERROR
    ensures var sent := TimedSend(q, theMsg, Ok(now), Ok(()), s1, ns1).calls[1].payload;
            var got := TimedReceive(q, Ok(a), Ok(later), Ok(sent), stale, s2, ns2);
            IsSuccessful(got.result) && got.buffer == theMsg
  {
    TerminatedRoundTrip(theMsg, stale);
  }

  /** The timed send as written transmits no terminator, so the receiver's
      string runs on into the stale bytes of its buffer: whenever the byte
      after the message is not NUL, the message is not read back as sent. */
  lemma TimedSendAsWrittenReadsStaleBytes(q: MsgQueue, theMsg: string, now: Timespec, a: MqAttr,
                                          stale: seq<char>, theSeconds: int, theNanoSeconds: int)
    requires NUL !in theMsg
    requires a.msgSize != ATTRIBUTE_ERROR
    ensures var sent := TimedSendAsWritten(q, theMsg, Ok(now), Ok(()), theSeconds, theNanoSeconds).calls[1].payload;
            var got := Receive(q, Ok(a), Ok(sent), stale);
            && got.buffer == theMsg + CString(stale)
            && (|stale| > 0 && stale[0] != NUL ==> got.buffer != theMsg)
  {
    UnterminatedReadsOn(theMsg, stale);
    if |stale| > 0 && stale[0] != NUL {
      assert CString(stale) != [];
    }
  }
}
