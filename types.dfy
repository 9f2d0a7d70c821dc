/** Declarations of the public header: result codes, the hook entry and
    handle records, the configuration payload, buffer capacities and the
    version triple. */
module HookTypes {

  datatype Option<+T> = None | Some(value: T)

  /** The C `uint32_t` used for hook ids and for `uid_t`/`gid_t`. */
  newtype uint32 = x: int | 0 <= x < 0x1_0000_0000

  /** The contents of a C string: the characters before its terminator,
      so no NUL can occur inside. */
  type CString = s: string | '\0' !in s

  /** An opaque, non-null code address (a function pointer). */
  datatype Addr = Addr(bits: nat)

  // Capacities of the fixed buffers, terminator included.
  const NameCapacity: nat := 256
  const MaxNameLength: nat := NameCapacity - 1
  const HostnameCapacity: nat := 256
  const SystemNameCapacity: nat := 256
  const MachineCapacity: nat := 256
  const ReleaseCapacity: nat := 256
  const VersionCapacity: nat := 512

  const VersionMajor: nat := 1
  const VersionMinor: nat := 0
  const VersionPatch: nat := 0

  /** The closed enumeration of result codes. */
  datatype PHResult =
    | Success
    | InvalidParam
    | FunctionNotFound
    | AlreadyHooked
    | NotHooked
    | MemoryError
    | PermissionDenied
    | UnsupportedPlatform
  {
    /** The integer value the enumerator has in the C ABI. */
    function Code(): (c: int)
      ensures -7 <= c <= 0
      ensures c == 0 <==> this == Success
    {
      match this
      case Success => 0
      case InvalidParam => -1
      case FunctionNotFound => -2
      case AlreadyHooked => -3
      case NotHooked => -4
      case MemoryError => -5
      case PermissionDenied => -6
      case UnsupportedPlatform => -7
    }
  }

  /** The enumerator with a given integer value, if there is one. */
  function FromCode(c: int): (r: Option<PHResult>)
    ensures r.Some? <==> -7 <= c <= 0
    ensures r.Some? ==> r.value.Code() == c
  {
    if c == 0 then Some(Success)
    else if c == -1 then Some(InvalidParam)
    else if c == -2 then Some(FunctionNotFound)
    else if c == -3 then Some(AlreadyHooked)
    else if c == -4 then Some(NotHooked)
    else if c == -5 then Some(MemoryError)
    else if c == -6 then Some(PermissionDenied)
    else if c == -7 then Some(UnsupportedPlatform)
    else None
  }

  /** Code and FromCode are inverse to each other. */
  lemma CodeRoundTrip(r: PHResult)
    ensures FromCode(r.Code()) == Some(r)
  {
  }

  /** The eight result codes are eight distinct integers. */
  lemma {:induction false} CodesDistinct(a: PHResult, b: PHResult)
    requires a != b
    ensures a.Code() != b.Code()
  {
    CodeRoundTrip(a);
    CodeRoundTrip(b);
  }

  /** The human-readable description of a result code; a C enum variable
      can hold any integer, and values outside the enumeration get a
      generic text. */
  function ErrorMessage(code: int): (m: string)
    ensures m == "Unknown error" <==> FromCode(code).None?
  {
    if code == 0 then "Success"
    else if code == -1 then "Invalid parameter"
    else if code == -2 then "Function not found"
    else if code == -3 then "Function already hooked"
    else if code == -4 then "Function not hooked"
    else if code == -5 then "Memory allocation error"
    else if code == -6 then "Permission denied"
    else if code == -7 then "Unsupported platform"
    else "Unknown error"
  }

  /** Distinct result codes are described by distinct messages. */
  lemma {:induction false} ErrorMessagesDistinct(a: PHResult, b: PHResult)
    requires a != b
    ensures ErrorMessage(a.Code()) != ErrorMessage(b.Code())
  {
    CodesDistinct(a, b);
  }

  /** The number a string of decimal digits denotes. */
  function DigitsValue(s: string): nat
    requires forall k :: 0 <= k < |s| ==> '0' <= s[k] <= '9'
  {
    if s == [] then 0
    else DigitsValue(s[..|s| - 1]) * 10 + ((s[|s| - 1] as int) - ('0' as int))
  }

  /** What `%d` prints for a natural number: its decimal digits, most
      significant first, which denote that number. */
  function DecimalString(n: nat): (s: string)
    ensures |s| >= 1
    ensures forall k :: 0 <= k < |s| ==> '0' <= s[k] <= '9'
    ensures DigitsValue(s) == n
    ensures n > 0 ==> s[0] != '0'
    decreases n
  {
    var d := ['0' + (n % 10) as char];
    if n < 10 then d
    else
      var hi := DecimalString(n / 10);
      assert (hi + d)[..|hi + d| - 1] == hi;
      hi + d
  }

  /** The library version in the form "major.minor.patch". */
  function VersionString(): (v: string)
    ensures v == "1.0.0"
  {
    DecimalString(VersionMajor) + "." + DecimalString(VersionMinor) + "." + DecimalString(VersionPatch)
  }

  /** One registered interception, as the registry stores it. */
  datatype Entry = Entry(
    functionName: CString,
    originalFunction: Addr,
    replacementFunction: Addr,
    isActive: bool)

  /** The configuration payload a caller hands to the convenience
      installers; each text field is the memory of the caller's buffer,
      read up to its first NUL. */
  datatype ConfigData = ConfigData(
    userId: uint32,
    groupId: uint32,
    hostname: string,
    systemName: string,
    machine: string,
    release: string,
    version: string)
}
