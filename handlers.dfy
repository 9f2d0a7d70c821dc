/** The spoof configuration store and the four canned replacement
    handlers that read it. */
module Handlers {
  import opened HookTypes
  import opened CStrings

  /** Stand-ins for the addresses of the four static replacement
      functions; only their being non-null matters to the registry. */
  const GetuidHandler := Addr(1)
  const GetgidHandler := Addr(2)
  const GethostnameHandler := Addr(3)
  const UnameHandler := Addr(4)

  /** `g_config_data`: two ids and five fixed-capacity text buffers. */
  class SpoofConfig {
    var userId: uint32
    var groupId: uint32
    const hostname: array<char>
    const systemName: array<char>
    const machine: array<char>
    const release: array<char>
    const version: array<char>

    ghost function Buffers(): set<object>
    {
      {hostname, systemName, machine, release, version}
    }

    /** Every buffer has its declared capacity, the five are distinct, and
        each ends in a NUL, so `strlen` on any of them stays in bounds. */
    ghost predicate Valid()
      reads Buffers()
    {
      && hostname.Length == HostnameCapacity
      && systemName.Length == SystemNameCapacity
      && machine.Length == MachineCapacity
      && release.Length == ReleaseCapacity
      && version.Length == VersionCapacity
      && hostname != systemName && hostname != machine && hostname != release && hostname != version
      && systemName != machine && systemName != release && systemName != version
      && machine != release && machine != version
      && release != version
      && hostname[HostnameCapacity - 1] == '\0'
      && systemName[SystemNameCapacity - 1] == '\0'
      && machine[MachineCapacity - 1] == '\0'
      && release[ReleaseCapacity - 1] == '\0'
      && version[VersionCapacity - 1] == '\0'
    }

    /** The zero-initialised static store. */
    constructor ()
      ensures Valid() && fresh(Buffers())
      ensures userId == 0 && groupId == 0
      ensures forall k :: 0 <= k < hostname.Length ==> hostname[k] == '\0'
      ensures forall k :: 0 <= k < systemName.Length ==> systemName[k] == '\0'
      ensures forall k :: 0 <= k < machine.Length ==> machine[k] == '\0'
      ensures forall k :: 0 <= k < release.Length ==> release[k] == '\0'
      ensures forall k :: 0 <= k < version.Length ==> version[k] == '\0'
    {
      userId, groupId := 0, 0;
      hostname := new char[HostnameCapacity](_ => '\0');
      systemName := new char[SystemNameCapacity](_ => '\0');
      machine := new char[MachineCapacity](_ => '\0');
      release := new char[ReleaseCapacity](_ => '\0');
      version := new char[VersionCapacity](_ => '\0');
    }
  }

  /** A caller's `struct utsname`: five character fields whose capacity is
      the platform's. */
  class UtsName {
    const sysname: array<char>
    const nodename: array<char>
    const release: array<char>
    const version: array<char>
    const machine: array<char>

    ghost function Buffers(): set<object>
    {
      {sysname, nodename, release, version, machine}
    }

    ghost predicate Valid()
    {
      && sysname.Length >= 1 && nodename.Length >= 1 && release.Length >= 1
      && version.Length >= 1 && machine.Length >= 1
      && sysname != nodename && sysname != release && sysname != version && sysname != machine
      && nodename != release && nodename != version && nodename != machine
      && release != version && release != machine
      && version != machine
    }

    constructor (capacity: nat)
      requires capacity >= 1
      ensures Valid() && fresh(Buffers())
      ensures sysname.Length == nodename.Length == release.Length == capacity
      ensures version.Length == machine.Length == capacity
    {
      sysname := new char[capacity];
      nodename := new char[capacity];
      release := new char[capacity];
      version := new char[capacity];
      machine := new char[capacity];
    }
  }

  /** `hooked_getuid`: the configured user id. */
  function HookedGetuid(cfg: SpoofConfig): uint32
    reads cfg
  {
    cfg.userId
  }

  /** `hooked_getgid`: the configured group id. */
  function HookedGetgid(cfg: SpoofConfig): uint32
    reads cfg
  {
    cfg.groupId
  }

  /** `hooked_gethostname(name, len)`: fails with -1, writing nothing,
      unless the configured hostname and its terminator fit in `len`
      characters; otherwise writes exactly `len` characters (the hostname,
      NUL padding, and a NUL in the last position) and returns 0. */
  method HookedGethostname(cfg: SpoofConfig, name: array<char>, len: nat) returns (r: int)
    requires cfg.Valid()
    requires len <= name.Length
    requires name !in cfg.Buffers()
    modifies name
    ensures r == 0 || r == -1
    ensures r == -1 <==> len <= StrLen(cfg.hostname[..])
    ensures r == -1 ==> name[..] == old(name[..])
    ensures r == 0 ==> name[..len] == Terminated(cfg.hostname[..], len) && name[len..] == old(name[len..])
    ensures r == 0 ==> CStr(name[..len]) == CStr(cfg.hostname[..])
  {
    var hostnameLen := StrLen(cfg.hostname[..]);
    if len <= hostnameLen {
      return -1;
    }
    StrNCopy(name, cfg.hostname[..], len - 1);
    Terminate(name, len);
    BoundedCopyKeepsShortString(cfg.hostname[..], len);
    r := 0;
  }

  /** `hooked_uname(buf)`: -1 for a null record; otherwise each field gets
      the matching configured string, truncated to the field's capacity
      less one and NUL-terminated, and the result is 0. The node name comes
      from the configured hostname. */
  method HookedUname(cfg: SpoofConfig, buf: UtsName?) returns (r: int)
    requires cfg.Valid()
    requires buf != null ==> buf.Valid() && buf.Buffers() !! cfg.Buffers()
    modifies if buf == null then {} else buf.Buffers()
    ensures buf == null <==> r == -1
    ensures buf != null ==> r == 0
    ensures buf != null ==>
      && buf.sysname[..] == Terminated(cfg.systemName[..], buf.sysname.Length)
      && buf.machine[..] == Terminated(cfg.machine[..], buf.machine.Length)
      && buf.release[..] == Terminated(cfg.release[..], buf.release.Length)
      && buf.version[..] == Terminated(cfg.version[..], buf.version.Length)
      && buf.nodename[..] == Terminated(cfg.hostname[..], buf.nodename.Length)
  {
    if buf == null {
      return -1;
    }
    StrNCopy(buf.sysname, cfg.systemName[..], buf.sysname.Length - 1);
    StrNCopy(buf.machine, cfg.machine[..], buf.machine.Length - 1);
    StrNCopy(buf.release, cfg.release[..], buf.release.Length - 1);
    StrNCopy(buf.version, cfg.version[..], buf.version.Length - 1);
    StrNCopy(buf.nodename, cfg.hostname[..], buf.nodename.Length - 1);

    Terminate(buf.sysname, buf.sysname.Length);
    Terminate(buf.machine, buf.machine.Length);
    Terminate(buf.release, buf.release.Length);
    Terminate(buf.version, buf.version.Length);
    Terminate(buf.nodename, buf.nodename.Length);
    assert buf.sysname[..] == buf.sysname[..buf.sysname.Length];
    assert buf.machine[..] == buf.machine[..buf.machine.Length];
    assert buf.release[..] == buf.release[..buf.release.Length];
    assert buf.version[..] == buf.version[..buf.version.Length];
    assert buf.nodename[..] == buf.nodename[..buf.nodename.Length];
    r := 0;
  }
}
