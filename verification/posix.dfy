/** The operating-system side of the model. Every POSIX call the library makes
    is an oracle: the model never computes what the kernel does, it receives
    the call's outcome as a parameter. This module holds the outcome type, the
    platform constants (Linux values), the open-flag and permission bit
    layouts, absolute deadlines, and the record of calls an operation issues. */
module Posix {
  import opened Results

  datatype Option<T> = None | Some(value: T)

  /** POSIX error numbers are positive. */
  type Errno = e: int | e > 0 witness 1

  /** `unsigned int`, the type of a semaphore's initial value. */
  type Uint32 = x: int | 0 <= x < 0x1_0000_0000

  /** What an OS call reported: a value on success, or `errno` together with
      its `strerror` text on failure (the text is opaque here). */
  datatype Outcome<T> = Ok(value: T) | Fail(errno: Errno, text: string)

  /** Calls that return 0 or -1 and carry no value. */
  type Status = Outcome<()>

  function StatusOf<T>(o: Outcome<T>): (s: Status)
    ensures s.Ok? <==> o.Ok?
    ensures o.Fail? ==> s.errno == o.errno && s.text == o.text
  {
    match o
    case Ok(_) => Ok(())
    case Fail(e, t) => Fail(e, t)
  }

  /** The library's one error-mapping pattern: a successful call becomes
      `Result(SUCCESS)`, a failed one `Result(errno, strerror(errno))`. */
  function ResultOf<T>(o: Outcome<T>): (r: Result)
    ensures IsSuccessful(r) <==> o.Ok?
    ensures o.Ok? ==> r == NewResult()
    ensures o.Fail? ==> GetError(r) == o.errno && GetDescription(r) == o.text
  {
    match o
    case Ok(_) => NewResult()
    case Fail(e, t) => NewResult(e, t)
  }

  // ---------------------------------------------------------------------
  // Open flags (<fcntl.h>, Linux values)

  const O_RDONLY: bv32 := 0x0
  const O_WRONLY: bv32 := 0x1
  const O_RDWR: bv32 := 0x2
  const O_ACCMODE: bv32 := 0x3
  const O_CREAT: bv32 := 0x40
  const O_EXCL: bv32 := 0x80
  const O_NONBLOCK: bv32 := 0x800

  /** Every bit the library ever puts into an open flag word. */
  const KNOWN_OPEN_FLAGS: bv32 := O_ACCMODE | O_CREAT | O_EXCL | O_NONBLOCK

  /** The access-mode choice shared by `MsgQueue::Protection` and
      `SharedMemory<T>::Protection` (both declare the same three values). */
  datatype Protection = READ_ONLY | WRITE_ONLY | READ_AND_WRITE

  /** The access mode an open flag word asks for. */
  datatype Access = ReadOnly | WriteOnly | ReadWrite

  /** An open flag word, read field by field. */
  datatype OpenRequest = OpenRequest(access: Access, create: bool, exclusive: bool, nonBlocking: bool)

  predicate HasFlag(f: bv32, flag: bv32) { f & flag != 0 }

  function AccessBits(a: Access): bv32
  {
    match a
    case ReadOnly => O_RDONLY
    case WriteOnly => O_WRONLY
    case ReadWrite => O_RDWR
  }

  function EncodeOpenFlags(q: OpenRequest): (f: bv32)
    ensures f & O_ACCMODE == AccessBits(q.access)
    ensures HasFlag(f, O_CREAT) <==> q.create
    ensures HasFlag(f, O_EXCL) <==> q.exclusive
    ensures HasFlag(f, O_NONBLOCK) <==> q.nonBlocking
    ensures f & !KNOWN_OPEN_FLAGS == 0
  {
    AccessBits(q.access)
    | (if q.create then O_CREAT else 0)
    | (if q.exclusive then O_EXCL else 0)
    | (if q.nonBlocking then O_NONBLOCK else 0)
  }

  /** Reads a flag word back; `None` for words with unknown bits or with the
      access-mode value 3, which names no access mode. */
  function DecodeOpenFlags(f: bv32): Option<OpenRequest>
  {
    if f & !KNOWN_OPEN_FLAGS != 0 then None
    else
      var acc := f & O_ACCMODE;
      var access :=
        if acc == O_RDONLY then Some(ReadOnly)
        else if acc == O_WRONLY then Some(WriteOnly)
        else if acc == O_RDWR then Some(ReadWrite)
        else None;
      if access.None? then None
      else Some(OpenRequest(access.value, HasFlag(f, O_CREAT), HasFlag(f, O_EXCL), HasFlag(f, O_NONBLOCK)))
  }

  /** Encoding and decoding are inverse: every request survives the round
      trip, and every decodable word is the encoding of what it decodes to. */
  lemma OpenFlagsRoundTrip(q: OpenRequest, f: bv32)
    ensures DecodeOpenFlags(EncodeOpenFlags(q)) == Some(q)
    ensures DecodeOpenFlags(f).Some? ==> EncodeOpenFlags(DecodeOpenFlags(f).value) == f
  {
    var e := EncodeOpenFlags(q);
    assert e & O_ACCMODE != O_ACCMODE;
    if DecodeOpenFlags(f).Some? {
      assert f == (f & O_ACCMODE) | (f & O_CREAT) | (f & O_EXCL) | (f & O_NONBLOCK);
    }
  }

  // ---------------------------------------------------------------------
  // Permission bits (<sys/stat.h>)

  datatype Who = Owner | Group | Other
  datatype Perm = Read | Write | Execute

  /** The `S_I{R,W,X}{USR,GRP,OTH}` bit for one class and one permission. */
  function PermissionBit(w: Who, p: Perm): bv32
  {
    var bit: bv32 := match p case Read => 4 case Write => 2 case Execute => 1;
    match w
    case Owner => bit << 6
    case Group => bit << 3
    case Other => bit
  }

  predicate Grants(mode: bv32, w: Who, p: Perm) { mode & PermissionBit(w, p) != 0 }

  // ---------------------------------------------------------------------
  // Memory protection and mapping (<sys/mman.h>)

  const PROT_READ: bv32 := 0x1
  const PROT_WRITE: bv32 := 0x2
  const MAP_SHARED: bv32 := 0x1

  /** The EACCES rule of `mmap` in POSIX.1-2017: the descriptor must be open
      for reading, and a shared mapping with `PROT_WRITE` needs a descriptor
      opened `O_RDWR`. */
  predicate MmapPermitted(oflag: bv32, prot: bv32, mapFlags: bv32)
  {
    var acc := oflag & O_ACCMODE;
    && (acc == O_RDONLY || acc == O_RDWR)
    && (HasFlag(mapFlags, MAP_SHARED) && HasFlag(prot, PROT_WRITE) ==> acc == O_RDWR)
  }

  /** The EBADF/EINVAL rule of `ftruncate` in POSIX.1-2017: the descriptor
      must be open for writing. */
  predicate FtruncatePermitted(oflag: bv32)
  {
    oflag & O_ACCMODE != O_RDONLY
  }

  // ---------------------------------------------------------------------
  // Absolute deadlines (`struct timespec` from `clock_gettime(CLOCK_REALTIME)`)

  const NS_PER_SEC: int := 1_000_000_000

  datatype Timespec = Timespec(sec: int, nsec: int)

  /** The instant a timespec denotes, in nanoseconds. */
  function TotalNanos(t: Timespec): int { t.sec * NS_PER_SEC + t.nsec }

  /** The form every timed POSIX call accepts: `0 <= tv_nsec < 10^9`;
      `mq_timedsend`, `mq_timedreceive` and `sem_timedwait` fail with EINVAL
      on anything else when they have to block. */
  predicate Normalized(t: Timespec) { 0 <= t.nsec < NS_PER_SEC }

  /** The deadline as the library computes it: seconds and nanoseconds are
      added field by field and no carry is taken into the seconds. */
  function DeadlineAsWritten(now: Timespec, seconds: int, nanos: int): (d: Timespec)
    ensures TotalNanos(d) == TotalNanos(now) + seconds * NS_PER_SEC + nanos
    ensures d.sec == now.sec + seconds
  {
    Timespec(now.sec + seconds, now.nsec + nanos)
  }

  /** For a valid clock reading and an in-range offset, the library's deadline
      is valid exactly when the nanosecond fields do not sum past a second. */
  lemma DeadlineAsWrittenValidity(now: Timespec, seconds: int, nanos: int)
    requires Normalized(now) && 0 <= nanos < NS_PER_SEC
    ensures Normalized(DeadlineAsWritten(now, seconds, nanos)) <==> now.nsec + nanos < NS_PER_SEC
  {
  }

  /** A clock reading 1 ns before a second boundary plus an offset of 1 ns
      already yields `tv_nsec == 10^9`, which the timed calls reject. */
  lemma DeadlineAsWrittenOverflows()
    ensures !Normalized(DeadlineAsWritten(Timespec(0, NS_PER_SEC - 1), 0, 1))
  {
  }

  /** The deadline with the carry taken: the same instant as the library's,
      always in the form the timed calls accept. */
  function Deadline(now: Timespec, seconds: int, nanos: int): (d: Timespec)
    ensures TotalNanos(d) == TotalNanos(now) + seconds * NS_PER_SEC + nanos
    ensures Normalized(d)
  {
    var total := TotalNanos(now) + seconds * NS_PER_SEC + nanos;
    Timespec(total / NS_PER_SEC, total % NS_PER_SEC)
  }

  /** Where the library's deadline is already valid, the corrected deadline is
      the very same value; the two differ only where the library's is invalid. */
  lemma DeadlinesAgreeWhenValid(now: Timespec, seconds: int, nanos: int)
    ensures Normalized(DeadlineAsWritten(now, seconds, nanos))
        <==> Deadline(now, seconds, nanos) == DeadlineAsWritten(now, seconds, nanos)
  {
    var d := Deadline(now, seconds, nanos);
    var w := DeadlineAsWritten(now, seconds, nanos);
    if Normalized(w) {
      TimespecUnique(d, w);
    }
  }

  /** A normalized timespec is the quotient and remainder of its instant. */
  lemma NormalizedIsDivMod(t: Timespec)
    requires Normalized(t)
    ensures t.sec == TotalNanos(t) / NS_PER_SEC
    ensures t.nsec == TotalNanos(t) % NS_PER_SEC
  {
  }

  /** Two normalized timespecs that denote the same instant are equal. */
  lemma TimespecUnique(a: Timespec, b: Timespec)
    requires Normalized(a) && Normalized(b)
    requires TotalNanos(a) == TotalNanos(b)
    ensures a == b
  {
    NormalizedIsDivMod(a);
    NormalizedIsDivMod(b);
  }

  // ---------------------------------------------------------------------
  // Handles and the calls the library issues

  /** An OS handle as the library stores it: a message-queue descriptor, a
      `sem_t*` or a mapping address. `Indeterminate` is a field the
      constructor leaves uninitialised, `Null` is `nullptr`, `Failed` is the
      call's failure value (`(mqd_t)-1`, `SEM_FAILED`, `MAP_FAILED`). */
  datatype Handle = Indeterminate | Null | Failed | Valid(id: nat)

  /** One POSIX call, with the arguments the library passes. For sends,
      `payload` is exactly the bytes handed to the kernel. */
  datatype Call =
    | MqOpen(name: string, oflag: bv32, mode: bv32)
    | MqClose(handle: Handle)
    | MqGetattr(handle: Handle)
    | MqUnlink(name: string)
    | MqSend(handle: Handle, payload: seq<char>, priority: int)
    | MqTimedSend(handle: Handle, payload: seq<char>, priority: int, deadline: Timespec)
    | MqReceive(handle: Handle, capacity: int)
    | MqTimedReceive(handle: Handle, capacity: int, deadline: Timespec)
    | ClockGettime
    | SemOpen(name: string, oflag: bv32, mode: bv32, value: Uint32)
    | SemClose(handle: Handle)
    | SemGetvalue(handle: Handle)
    | SemWait(handle: Handle)
    | SemTimedWait(handle: Handle, deadline: Timespec)
    | SemPost(handle: Handle)
    | SemUnlink(name: string)
    | ShmOpen(name: string, oflag: bv32, mode: bv32)
    | Ftruncate(fd: nat, length: nat)
    | Mmap(length: nat, prot: bv32, mapFlags: bv32, fd: nat)
    | Close(fd: nat)
    | Munmap(handle: Handle, length: nat)
    | ShmUnlink(name: string)
}
