/** `ipclib::PosixObject`: the name translation and initialisation
    bookkeeping every named resource shares. Each concrete resource embeds one
    of these records. */
module PosixObjects {
  import opened Results
  import opened Posix

  /** `DEFAULT_PERMISSION`, octal 0644. */
  const DEFAULT_PERMISSION: bv32 := 0x1A4

  datatype PosixObject = PosixObject(
    alreadyInitialized: bool,
    name: string,
    posixName: string,
    initializationResult: Result)

  /** What an operation on a resource of state type `S` produces: the state
      afterwards, the `Result` it returns and the OS calls it issued, in order. */
  datatype Step<S> = Step(state: S, result: Result, calls: seq<Call>)

  /** `PosixObject()`: not initialised; the strings and the result keep their
      default-constructed values. */
  function NewPosixObject(): (o: PosixObject)
    ensures !IsAlreadyInitialized(o)
    ensures GetName(o) == "" && GetPosixName(o) == ""
    ensures GetInitializationResult(o) == NewResult()
  {
    PosixObject(false, "", "", NewResult())
  }

  function GetName(o: PosixObject): string { o.name }
  function GetPosixName(o: PosixObject): string { o.posixName }
  predicate IsAlreadyInitialized(o: PosixObject) { o.alreadyInitialized }
  function GetInitializationResult(o: PosixObject): Result { o.initializationResult }

  /** The system name of a logical name. */
  function PosixNameOf(theName: string): (p: string)
    ensures |p| == |theName| + 1 && p[0] == '/' && p[1..] == theName
  {
    "/" + theName
  }

  /** The inverse of the translation: the logical name behind a system name. */
  function LogicalNameOf(posixName: string): Option<string>
  {
    if |posixName| > 0 && posixName[0] == '/' then Some(posixName[1..]) else None
  }

  /** `PosixObject::create(theName)`: records the logical name, derives the
      system name, marks the object initialised. It cannot fail and does not
      touch the recorded initialisation result. */
  function Bind(o: PosixObject, theName: string): (r: PosixObject)
    ensures GetName(r) == theName
    ensures LogicalNameOf(GetPosixName(r)) == Some(theName)
    ensures IsAlreadyInitialized(r)
    ensures GetInitializationResult(r) == GetInitializationResult(o)
  {
    o.(name := theName, posixName := PosixNameOf(theName), alreadyInitialized := true)
  }

  /** An initialised object's system name is its logical name behind a slash. */
  predicate Translated(o: PosixObject)
  {
    o.alreadyInitialized ==> o.posixName == PosixNameOf(o.name)
  }

  /** The translation is invertible and therefore injective: distinct logical
      names never share a system name. */
  lemma NameTranslationRoundTrip(n1: string, n2: string)
    ensures LogicalNameOf(PosixNameOf(n1)) == Some(n1)
    ensures PosixNameOf(n1) == PosixNameOf(n2) ==> n1 == n2
  {
    assert PosixNameOf(n1)[1..] == n1;
    assert PosixNameOf(n2)[1..] == n2;
  }

  /** Binding establishes the translation invariant, and binding the same name
      again changes nothing. */
  lemma BindIdempotent(o: PosixObject, theName: string)
    ensures Translated(Bind(o, theName))
    ensures Bind(Bind(o, theName), theName) == Bind(o, theName)
  {
  }

  /** 0644: the owner may read and write, group and others may only read, and
      nobody may execute. */
  lemma DefaultPermissionGrants()
    ensures forall w: Who, p: Perm :: Grants(DEFAULT_PERMISSION, w, p) <==> (p == Read || (w == Owner && p == Write))
  {
    forall w: Who, p: Perm
      ensures Grants(DEFAULT_PERMISSION, w, p) <==> (p == Read || (w == Owner && p == Write))
    {
      match w
      case Owner => match p { case Read => case Write => case Execute => }
      case Group => match p { case Read => case Write => case Execute => }
      case Other => match p { case Read => case Write => case Execute => }
    }
  }
}
