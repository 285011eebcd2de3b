/** `ipclib::SharedMemory<T>`: one value of type `T` in a named POSIX
    shared-memory object, mapped into the process. `sizeof(T)` is the
    parameter `objectSize`; the mapped memory is a map from mapping addresses
    to the values stored there. */
module SharedMemories {
  import opened Results
  import opened Posix
  import opened PosixObjects

  datatype SharedMemory = SharedMemory(base: PosixObject, address: Handle, protection: Option<Protection>)

  /** The outcomes of the OS calls `create` may issue, in order: `munmap` of
      the old mapping, `shm_open`, `ftruncate`, `mmap`, `close`. */
  datatype ShmOracle = ShmOracle(unmap: Status, open: Outcome<nat>, truncate: Status, mmap: Outcome<nat>, close: Status)

  /** `SharedMemory()`: the address is `nullptr`. */
  function NewSharedMemory(): (s: SharedMemory)
    ensures !IsAlreadyInitialized(s.base) && s.address == Null && s.protection == None
  {
    SharedMemory(NewPosixObject(), Null, None)
  }

  /** The `oflag` handed to `shm_open`: read-only for `READ_ONLY`, read-write
      for both other modes, never non-blocking. */
  function OpenFlags(theProtection: Protection, toCreate: bool, toCreateExclusively: bool): (f: bv32)
    ensures DecodeOpenFlags(f).Some?
    ensures DecodeOpenFlags(f).value.access == (if theProtection == READ_ONLY then ReadOnly else ReadWrite)
    ensures DecodeOpenFlags(f).value.create == toCreate
    ensures DecodeOpenFlags(f).value.exclusive == toCreateExclusively
    ensures !DecodeOpenFlags(f).value.nonBlocking
  {
    var access := if theProtection == READ_ONLY then O_RDONLY else O_RDWR;
    var withCreate := if toCreate then access | O_CREAT else access;
    if toCreateExclusively then withCreate | O_EXCL else withCreate
  }

  /** The `mmap` protection as written: the second `if` is not chained to the
      first, so its `else` overwrites `PROT_READ` and every mode other than
      `WRITE_ONLY` gets read and write access. */
  function ProtectionBitsAsWritten(theProtection: Protection): (prot: bv32)
    ensures HasFlag(prot, PROT_WRITE)
    ensures HasFlag(prot, PROT_READ) <==> theProtection != WRITE_ONLY
    ensures prot & !(PROT_READ | PROT_WRITE) == 0
  {
    if theProtection == WRITE_ONLY then PROT_WRITE else PROT_READ | PROT_WRITE
  }

  /** The as-written protection makes a `READ_ONLY` segment unmappable: it
      asks for a writable shared mapping of a descriptor opened `O_RDONLY`,
      which `mmap` refuses with EACCES. */
  lemma ReadOnlyAsWrittenIsRefused(toCreate: bool, toCreateExclusively: bool)
    ensures !MmapPermitted(OpenFlags(READ_ONLY, toCreate, toCreateExclusively), ProtectionBitsAsWritten(READ_ONLY), MAP_SHARED)
  {
  }

  /** The `mmap` protection as evidently intended: a chained choice. */
  function ProtectionBits(theProtection: Protection): (prot: bv32)
    ensures HasFlag(prot, PROT_READ) <==> theProtection != WRITE_ONLY
    ensures HasFlag(prot, PROT_WRITE) <==> theProtection != READ_ONLY
    ensures prot & !(PROT_READ | PROT_WRITE) == 0
  {
    if theProtection == READ_ONLY then PROT_READ
    else if theProtection == WRITE_ONLY then PROT_WRITE
    else PROT_READ | PROT_WRITE
  }

  /** With the corrected protection the requested access always fits the
      descriptor `shm_open` was asked for, so `mmap` has no access reason to
      refuse it. The two mappings differ only for `READ_ONLY`. */
  lemma ProtectionBitsAlwaysPermitted(theProtection: Protection, toCreate: bool, toCreateExclusively: bool)
    ensures MmapPermitted(OpenFlags(theProtection, toCreate, toCreateExclusively), ProtectionBits(theProtection), MAP_SHARED)
    ensures ProtectionBits(theProtection) == ProtectionBitsAsWritten(theProtection) <==> theProtection != READ_ONLY
  {
  }

  /** `deallocateResources`: `munmap` of one object's worth at the stored
      address. */
  function DeallocateResources(s: SharedMemory, objectSize: nat, unmap: Status): (r: Step<SharedMemory>)
    ensures r.state == s
    ensures r.calls == [Munmap(s.address, objectSize)]
    ensures r.result == ResultOf(unmap)
  {
    Step(s, ResultOf(unmap), [Munmap(s.address, objectSize)])
  }

  /** Records `res` as the initialisation result and returns it. */
  function Finish(s: SharedMemory, res: Result, calls: seq<Call>): (r: Step<SharedMemory>)
    ensures r.result == res && GetInitializationResult(r.state.base) == res
    ensures r.calls == calls
  {
    Step(s.(base := s.base.(initializationResult := res)), res, calls)
  }

  /** The four creation steps as plain statuses. */
  function Steps(os: ShmOracle): (st: seq<Status>)
    ensures |st| == 4
  {
    [StatusOf(os.open), os.truncate, StatusOf(os.mmap), os.close]
  }

  /** The index of the first failing status, or the length when none fails. */
  function FirstFailure(st: seq<Status>): (k: nat)
    ensures k <= |st|
    ensures forall i :: 0 <= i < k ==> st[i].Ok?
    ensures k < |st| ==> st[k].Fail?
  {
    if st == [] || st[0].Fail? then 0 else 1 + FirstFailure(st[1..])
  }

  /** `create` with the `mmap` protection `prot` given: open, size to one
      object, map, close the descriptor; the first failing step ends it. The
      as-written and the corrected `create` differ only in `prot`. */
  function CreateWith(s: SharedMemory, os: ShmOracle, objectSize: nat, theName: string,
                      toCreate: bool, toCreateExclusively: bool, theProtection: Protection, prot: bv32): (r: Step<SharedMemory>)
    ensures IsAlreadyInitialized(r.state.base) && GetName(r.state.base) == theName && Translated(r.state.base)
    ensures GetInitializationResult(r.state.base) == r.result
    ensures r.state.protection == Some(theProtection)
    ensures IsSuccessful(r.result) <==> os.open.Ok? && os.truncate.Ok? && os.mmap.Ok? && os.close.Ok?
    ensures IsSuccessful(r.result) ==> r.state.address == Valid(os.mmap.value)
    ensures |r.calls| >= 1
    ensures IsAlreadyInitialized(s.base) ==> r.calls[0] == Munmap(s.address, objectSize)
    ensures !IsAlreadyInitialized(s.base) ==> r.calls[0].ShmOpen?
    ensures r.calls[|r.calls| - 1].Close? <==> os.open.Ok? && os.truncate.Ok? && os.mmap.Ok?
    ensures forall i :: 0 <= i < |r.calls| - 1 ==> !r.calls[i].Close?
    ensures forall i :: 0 <= i < |r.calls| && r.calls[i].Mmap? ==>
              os.open.Ok? && os.truncate.Ok? && r.calls[i] == Mmap(objectSize, prot, MAP_SHARED, os.open.value)
    ensures os.open.Ok? ==> |r.calls| > (if IsAlreadyInitialized(s.base) then 2 else 1)
    ensures os.open.Ok? ==> r.calls[if IsAlreadyInitialized(s.base) then 2 else 1] == Ftruncate(os.open.value, objectSize)
    ensures os.open.Ok? && os.truncate.Ok? ==> r.calls[|r.calls| - (if os.mmap.Ok? then 2 else 1)].Mmap?
    ensures os.open.Ok? && os.truncate.Ok? && os.mmap.Fail? ==> r.state.address == Failed
    ensures os.open.Fail? || os.truncate.Fail? ==> r.state.address == s.address
  {
    var released := if IsAlreadyInitialized(s.base) then DeallocateResources(s, objectSize, os.unmap).calls else [];
    var base := Bind(s.base, theName);
    var s1 := s.(base := base, protection := Some(theProtection));
    var openCall := ShmOpen(GetPosixName(base), OpenFlags(theProtection, toCreate, toCreateExclusively), DEFAULT_PERMISSION);
    if os.open.Fail? then Finish(s1, ResultOf(os.open), released + [openCall])
    else
      var fd := os.open.value;
      var calls1 := released + [openCall, Ftruncate(fd, objectSize)];
      if os.truncate.Fail? then Finish(s1, ResultOf(os.truncate), calls1)
      else
        var calls2 := calls1 + [Mmap(objectSize, prot, MAP_SHARED, fd)];
        if os.mmap.Fail? then Finish(s1.(address := Failed), ResultOf(os.mmap), calls2)
        else
          var s2 := s1.(address := Valid(os.mmap.value));
          var calls3 := calls2 + [Close(fd)];
          Finish(s2, ResultOf(os.close), calls3)
  }

  /** `create` as written, with the source's default arguments: `mmap` gets
      `ProtectionBitsAsWritten`. A `READ_ONLY` segment asks for a mapping the
      descriptor does not allow; every other mode behaves as corrected. */
  function CreateAsWritten(s: SharedMemory, os: ShmOracle, objectSize: nat, theName: string,
                           toCreate: bool := true, toCreateExclusively: bool := false,
                           theProtection: Protection := READ_AND_WRITE): (r: Step<SharedMemory>)
    ensures theProtection == READ_ONLY ==>
              forall i :: 0 <= i < |r.calls| && r.calls[i].Mmap? ==>
                !MmapPermitted(OpenFlags(READ_ONLY, toCreate, toCreateExclusively), r.calls[i].prot, r.calls[i].mapFlags)
    ensures theProtection != READ_ONLY ==>
              r == Create(s, os, objectSize, theName, toCreate, toCreateExclusively, theProtection)
  {
    ReadOnlyAsWrittenIsRefused(toCreate, toCreateExclusively);
    ProtectionBitsAlwaysPermitted(theProtection, toCreate, toCreateExclusively);
    CreateWith(s, os, objectSize, theName, toCreate, toCreateExclusively, theProtection, ProtectionBitsAsWritten(theProtection))
  }

  /** `create` corrected, with the source's default arguments: `mmap` gets
      `ProtectionBits`, so every mapping it asks for fits the descriptor
      `shm_open` was asked for. */
  function Create(s: SharedMemory, os: ShmOracle, objectSize: nat, theName: string,
                  toCreate: bool := true, toCreateExclusively: bool := false,
                  theProtection: Protection := READ_AND_WRITE): (r: Step<SharedMemory>)
    ensures forall i :: 0 <= i < |r.calls| && r.calls[i].Mmap? ==>
              MmapPermitted(OpenFlags(theProtection, toCreate, toCreateExclusively), r.calls[i].prot, r.calls[i].mapFlags)
  {
    ProtectionBitsAlwaysPermitted(theProtection, toCreate, toCreateExclusively);
    CreateWith(s, os, objectSize, theName, toCreate, toCreateExclusively, theProtection, ProtectionBits(theProtection))
  }

  /** The kernel enforces the `mmap` access rule: if the `mmap` outcome is a
      success, every `mmap` call among `calls` is permitted for a descriptor
      opened with `oflag`. */
  predicate KernelEnforcesMmapRule(os: ShmOracle, oflag: bv32, calls: seq<Call>)
  {
    os.mmap.Ok? ==>
      forall i :: 0 <= i < |calls| && calls[i].Mmap? ==> MmapPermitted(oflag, calls[i].prot, calls[i].mapFlags)
  }

  /** Against a kernel that enforces the `mmap` rule on the calls this very
      `create` issues, the as-written `create` of a `READ_ONLY` segment never
      succeeds: once `shm_open` and `ftruncate` succeed, the mapping it asks
      for is refused and it returns `mmap`'s error. */
  lemma ReadOnlyCreateAsWrittenNeverSucceeds(s: SharedMemory, os: ShmOracle, objectSize: nat, theName: string,
                                             toCreate: bool, toCreateExclusively: bool)
    requires KernelEnforcesMmapRule(os, OpenFlags(READ_ONLY, toCreate, toCreateExclusively),
                                    CreateAsWritten(s, os, objectSize, theName, toCreate, toCreateExclusively, READ_ONLY).calls)
    ensures var r := CreateAsWritten(s, os, objectSize, theName, toCreate, toCreateExclusively, READ_ONLY);
            && !IsSuccessful(r.result)
            && (os.open.Ok? && os.truncate.Ok? ==> r.result == ResultOf(os.mmap))
  {
    var r := CreateAsWritten(s, os, objectSize, theName, toCreate, toCreateExclusively, READ_ONLY);
    if os.open.Ok? && os.truncate.Ok? {
      var i := |r.calls| - (if os.mmap.Ok? then 2 else 1);
      assert r.calls[i].Mmap?;
      assert !MmapPermitted(OpenFlags(READ_ONLY, toCreate, toCreateExclusively), r.calls[i].prot, r.calls[i].mapFlags);
      assert os.mmap.Fail?;
    }
  }

  /** The kernel enforces the `ftruncate` rule: if the `ftruncate` outcome
      is a success, every `ftruncate` call among `calls` is on a descriptor
      opened for writing with `oflag`. */
  predicate KernelEnforcesFtruncateRule(os: ShmOracle, oflag: bv32, calls: seq<Call>)
  {
    os.truncate.Ok? ==> forall i :: 0 <= i < |calls| && calls[i].Ftruncate? ==> FtruncatePermitted(oflag)
  }

  /** Against a kernel that enforces the `ftruncate` rule on the calls this
      very `create` issues, no `create` of a `READ_ONLY` segment succeeds,
      whatever the `mmap` protection: sizing the `O_RDONLY` descriptor fails
      first, so `mmap` is never asked. The protection defect is therefore
      only reached by a kernel that lets such an `ftruncate` through. */
  lemma ReadOnlyCreateFailsAtTruncate(s: SharedMemory, os: ShmOracle, objectSize: nat, theName: string,
                                      toCreate: bool, toCreateExclusively: bool, prot: bv32)
    requires KernelEnforcesFtruncateRule(os, OpenFlags(READ_ONLY, toCreate, toCreateExclusively),
                                         CreateWith(s, os, objectSize, theName, toCreate, toCreateExclusively, READ_ONLY, prot).calls)
    ensures var r := CreateWith(s, os, objectSize, theName, toCreate, toCreateExclusively, READ_ONLY, prot);
            && !IsSuccessful(r.result)
            && (forall i :: 0 <= i < |r.calls| ==> !r.calls[i].Mmap?)
            && (os.open.Ok? ==> r.result == ResultOf(os.truncate))
  {
  }

  /** `create` against an independent description of a short-circuiting
      pipeline: the result is the first failing step's error, or success
      when none fails. */
  lemma {:induction false} CreateResultIsFirstFailure(s: SharedMemory, os: ShmOracle, objectSize: nat, theName: string,
                                                      toCreate: bool, toCreateExclusively: bool, theProtection: Protection, prot: bv32)
    ensures var k := FirstFailure(Steps(os));
            CreateWith(s, os, objectSize, theName, toCreate, toCreateExclusively, theProtection, prot).result
            == (if k < 4 then ResultOf(Steps(os)[k]) else NewResult())
  {
    var st := Steps(os);
    var k := FirstFailure(st);
    if os.open.Fail? {
      assert st[0].Fail?;
      assert k == 0;
    } else if os.truncate.Fail? {
      assert st[0].Ok? && st[1].Fail?;
      assert k == 1;
    } else if os.mmap.Fail? {
      assert st[0].Ok? && st[1].Ok? && st[2].Fail?;
      assert k == 2;
    } else if os.close.Fail? {
      assert st[0].Ok? && st[1].Ok? && st[2].Ok? && st[3].Fail?;
      assert k == 3;
    } else {
      assert st[0].Ok? && st[1].Ok? && st[2].Ok? && st[3].Ok?;
      assert k == 4;
    }
  }

  /** The same pipeline seen through the calls: after the optional `munmap`,
      exactly the steps up to and including the first failing one are
      issued, each on the right object. */
  lemma {:induction false} CreateCallsStopAtFirstFailure(s: SharedMemory, os: ShmOracle, objectSize: nat, theName: string,
                                                         toCreate: bool, toCreateExclusively: bool, theProtection: Protection, prot: bv32)
    ensures var r := CreateWith(s, os, objectSize, theName, toCreate, toCreateExclusively, theProtection, prot);
            var k := FirstFailure(Steps(os));
            var pre := if IsAlreadyInitialized(s.base) then 1 else 0;
            && |r.calls| == pre + (if k < 4 then k + 1 else 4)
            && r.calls[pre] == ShmOpen(PosixNameOf(theName), OpenFlags(theProtection, toCreate, toCreateExclusively), DEFAULT_PERMISSION)
            && (k >= 1 ==> r.calls[pre + 1] == Ftruncate(os.open.value, objectSize))
            && (k >= 2 ==> r.calls[pre + 2] == Mmap(objectSize, prot, MAP_SHARED, os.open.value))
            && (k >= 3 ==> r.calls[pre + 3] == Close(os.open.value))
  {
    var r := CreateWith(s, os, objectSize, theName, toCreate, toCreateExclusively, theProtection, prot);
    var st := Steps(os);
    var k := FirstFailure(st);
    var released := if IsAlreadyInitialized(s.base) then [Munmap(s.address, objectSize)] else [];
    var openCall := ShmOpen(PosixNameOf(theName), OpenFlags(theProtection, toCreate, toCreateExclusively), DEFAULT_PERMISSION);
    if os.open.Fail? {
      assert st[0].Fail?;
      assert k == 0;
      assert r.calls == released + [openCall];
    } else {
      var fd := os.open.value;
      var mapCall := Mmap(objectSize, prot, MAP_SHARED, fd);
      if os.truncate.Fail? {
        assert st[0].Ok? && st[1].Fail?;
        assert k == 1;
        assert r.calls == released + [openCall, Ftruncate(fd, objectSize)];
      } else if os.mmap.Fail? {
        assert st[0].Ok? && st[1].Ok? && st[2].Fail?;
        assert k == 2;
        assert r.calls == released + [openCall, Ftruncate(fd, objectSize)] + [mapCall];
      } else {
        assert st[0].Ok? && st[1].Ok? && st[2].Ok?;
        assert k >= 3;
        assert r.calls == released + [openCall, Ftruncate(fd, objectSize)] + [mapCall] + [Close(fd)];
      }
    }
  }

  /** When `shm_open` or `ftruncate` fails on a re-create, the stored address
      is the one the same call has just unmapped. */
  lemma EarlyFailureKeepsUnmappedAddress(s: SharedMemory, os: ShmOracle, objectSize: nat, theName: string,
                                         toCreate: bool, toCreateExclusively: bool, theProtection: Protection)
    requires IsAlreadyInitialized(s.base)
    requires os.open.Fail? || os.truncate.Fail?
    ensures var r := Create(s, os, objectSize, theName, toCreate, toCreateExclusively, theProtection);
            r.state.address == s.address && r.calls[0] == Munmap(r.state.address, objectSize)
  {
  }

  /** Whatever unmapping the old mapping reported, re-creating ends in the
      same state with the same result. */
  lemma CreateDiscardsRelease(s: SharedMemory, os: ShmOracle, unmap: Status, objectSize: nat, theName: string,
                              toCreate: bool, toCreateExclusively: bool, theProtection: Protection)
    ensures Create(s, os, objectSize, theName, toCreate, toCreateExclusively, theProtection)
         == Create(s, os.(unmap := unmap), objectSize, theName, toCreate, toCreateExclusively, theProtection)
  {
  }

  /** The object the named constructor hands to `create`: `PosixObject()`
      runs, but nothing gives `obj_address` a value. */
  function Unconstructed(): (s: SharedMemory)
    ensures !IsAlreadyInitialized(s.base) && s.address == Indeterminate
  {
    SharedMemory(NewPosixObject(), Indeterminate, None)
  }

  /** The constructor `SharedMemory(name, ...)` as written: the as-written
      `create` on an object whose address was never initialised. When `shm_open` or
      `ftruncate` fails, the address stays indeterminate, and the destructor's
      `deallocateResources` unmaps that indeterminate pointer. */
  function ConstructAsWritten(os: ShmOracle, objectSize: nat, theName: string,
                              toCreate: bool := true, toCreateExclusively: bool := false,
                              theProtection: Protection := READ_AND_WRITE): (r: Step<SharedMemory>)
    ensures |r.calls| >= 1 && r.calls[0].ShmOpen?
    ensures forall i :: 0 <= i < |r.calls| ==> !r.calls[i].Munmap?
    ensures os.open.Fail? || os.truncate.Fail? ==> r.state.address == Indeterminate
  {
    CreateAsWritten(Unconstructed(), os, objectSize, theName, toCreate, toCreateExclusively, theProtection)
  }

  /** After a named construction whose `shm_open` or `ftruncate` failed, the
      destructor unmaps an address that was never assigned. */
  lemma FailedConstructionUnmapsIndeterminate(os: ShmOracle, objectSize: nat, theName: string,
                                              toCreate: bool, toCreateExclusively: bool, theProtection: Protection,
                                              unmap: Status)
    requires os.open.Fail? || os.truncate.Fail?
    ensures var c := ConstructAsWritten(os, objectSize, theName, toCreate, toCreateExclusively, theProtection);
            DeallocateResources(c.state, objectSize, unmap).calls == [Munmap(Indeterminate, objectSize)]
  {
  }

  /** The constructor `SharedMemory(name, ...)` corrected: the address
      starts as `nullptr`, as the default constructor sets it, so an early
      failure leaves `nullptr` and no later unmap sees an indeterminate
      pointer. */
  function Construct(os: ShmOracle, objectSize: nat, theName: string,
                     toCreate: bool := true, toCreateExclusively: bool := false,
                     theProtection: Protection := READ_AND_WRITE): (r: Step<SharedMemory>)
    ensures |r.calls| >= 1 && r.calls[0].ShmOpen?
    ensures forall i :: 0 <= i < |r.calls| ==> !r.calls[i].Munmap?
    ensures os.open.Fail? || os.truncate.Fail? ==> r.state.address == Null
    ensures r.state.address != Indeterminate
  {
    Create(NewSharedMemory(), os, objectSize, theName, toCreate, toCreateExclusively, theProtection)
  }

  /** With the corrected constructor, releasing the object never unmaps an
      indeterminate pointer, whatever the creation steps reported. */
  lemma ConstructedReleaseIsDefined(os: ShmOracle, objectSize: nat, theName: string,
                                    toCreate: bool, toCreateExclusively: bool, theProtection: Protection,
                                    unmap: Status)
    ensures var c := Construct(os, objectSize, theName, toCreate, toCreateExclusively, theProtection);
            DeallocateResources(c.state, objectSize, unmap).calls[0].handle != Indeterminate
  {
  }

  /** `getValue`: reads through the mapped address. Dereferencing a null or
      failed address is undefined, so the source demands a mapping. */
  function GetValue<T>(s: SharedMemory, mem: map<nat, T>): T
    requires s.address.Valid? && s.address.id in mem
  {
    mem[s.address.id]
  }

  /** `setValue`: writes through the mapped address and nowhere else. */
  function SetValue<T>(s: SharedMemory, mem: map<nat, T>, theValue: T): (m: map<nat, T>)
    requires s.address.Valid?
    ensures m.Keys == mem.Keys + {s.address.id}
    ensures forall a :: a in mem && a != s.address.id ==> m[a] == mem[a]
  {
    mem[s.address.id := theValue]
  }

  /** Writing then reading on the same object yields the value written. */
  lemma SetThenGet<T>(s: SharedMemory, mem: map<nat, T>, theValue: T)
    requires s.address.Valid?
    ensures GetValue(s, SetValue(s, mem, theValue)) == theValue
  {
  }

  /** What follows a successful `create` acts on what it established:
      `setValue` writes at the address `mmap` returned, where `getValue` then
      finds the value. */
  lemma ValueLivesInCreatedMapping<T>(s: SharedMemory, os: ShmOracle, objectSize: nat, theName: string,
                                      toCreate: bool, toCreateExclusively: bool, theProtection: Protection,
                                      mem: map<nat, T>, theValue: T)
    requires os.open.Ok? && os.truncate.Ok? && os.mmap.Ok? && os.close.Ok?
    ensures var c := Create(s, os, objectSize, theName, toCreate, toCreateExclusively, theProtection);
            && c.state.address.Valid?
            && SetValue(c.state, mem, theValue)[os.mmap.value] == theValue
            && GetValue(c.state, SetValue(c.state, mem, theValue)) == theValue
  {
  }

  /** `destroy`: unlinks the system name; nothing is unmapped and the record
      is unchanged. */
  function Destroy(s: SharedMemory, unlink: Status): (r: Step<SharedMemory>)
    ensures r.state == s
    ensures r.calls == [ShmUnlink(GetPosixName(s.base))]
    ensures r.result == ResultOf(unlink)
  {
    Step(s, ResultOf(unlink), [ShmUnlink(GetPosixName(s.base))])
  }

  /** `destroy` unlinks exactly the name `shm_open` was given by `create`. */
  lemma DestroyUnlinksCreatedName(s: SharedMemory, os: ShmOracle, objectSize: nat, theName: string,
                                  toCreate: bool, toCreateExclusively: bool, theProtection: Protection, unlink: Status)
    ensures var c := Create(s, os, objectSize, theName, toCreate, toCreateExclusively, theProtection);
            var pre := if IsAlreadyInitialized(s.base) then 1 else 0;
            c.calls[pre].ShmOpen? && Destroy(c.state, unlink).calls[0].name == c.calls[pre].name
  {
  }
}
