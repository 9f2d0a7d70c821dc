/** The public entry points that compose the configuration store with the
    registry: the four configuration-driven installers and the four
    fixed-name wrappers around `ph_install_hook`. */
module Api {
  import opened HookTypes
  import opened CStrings
  import opened HookRegistry
  import opened Handlers

  /** `ph_install_getuid_hook`: stores the user id, then installs the
      getuid handler. Only `user_id` of the store may change. */
  method InstallGetuidHook(reg: Registry, cfg: SpoofConfig, config: Option<ConfigData>, handle: HookHandle?,
                           symbols: map<string, Addr>, allocFails: bool) returns (r: PHResult)
    requires reg.Valid()
    modifies reg, handle, cfg`userId
    ensures reg.Valid()
    ensures config.None? || handle == null ==>
      && r == InvalidParam && reg.State() == old(reg.State())
      && cfg.userId == old(cfg.userId) && HandleOf(handle) == old(HandleOf(handle))
    ensures config.Some? && handle != null ==>
      && HookedGetuid(cfg) == config.value.userId
      && Installed(reg, Some("getuid"), Some(GetuidHandler), handle, symbols, allocFails, r)
  {
    if config.None? || handle == null {
      return InvalidParam;
    }
    cfg.userId := config.value.userId;
    r := reg.Install(Some("getuid"), Some(GetuidHandler), handle, symbols, allocFails);
  }

  /** `ph_install_getgid_hook`: stores the group id, then installs the
      getgid handler. Only `group_id` of the store may change. */
  method InstallGetgidHook(reg: Registry, cfg: SpoofConfig, config: Option<ConfigData>, handle: HookHandle?,
                           symbols: map<string, Addr>, allocFails: bool) returns (r: PHResult)
    requires reg.Valid()
    modifies reg, handle, cfg`groupId
    ensures reg.Valid()
    ensures config.None? || handle == null ==>
      && r == InvalidParam && reg.State() == old(reg.State())
      && cfg.groupId == old(cfg.groupId) && HandleOf(handle) == old(HandleOf(handle))
    ensures config.Some? && handle != null ==>
      && HookedGetgid(cfg) == config.value.groupId
      && Installed(reg, Some("getgid"), Some(GetgidHandler), handle, symbols, allocFails, r)
  {
    if config.None? || handle == null {
      return InvalidParam;
    }
    cfg.groupId := config.value.groupId;
    r := reg.Install(Some("getgid"), Some(GetgidHandler), handle, symbols, allocFails);
  }

  /** `ph_install_gethostname_hook`: bounded copy of the hostname into the
      store, then the install. The store is updated even when the install
      then fails. */
  method InstallGethostnameHook(reg: Registry, cfg: SpoofConfig, config: Option<ConfigData>, handle: HookHandle?,
                                symbols: map<string, Addr>, allocFails: bool) returns (r: PHResult)
    requires reg.Valid() && cfg.Valid()
    modifies reg, handle, cfg.hostname
    ensures reg.Valid() && cfg.Valid()
    ensures config.None? || handle == null ==>
      && r == InvalidParam && reg.State() == old(reg.State())
      && cfg.hostname[..] == old(cfg.hostname[..]) && HandleOf(handle) == old(HandleOf(handle))
    ensures config.Some? && handle != null ==>
      && cfg.hostname[..] == Terminated(config.value.hostname, HostnameCapacity)
      && Installed(reg, Some("gethostname"), Some(GethostnameHandler), handle, symbols, allocFails, r)
  {
    if config.None? || handle == null {
      return InvalidParam;
    }
    BoundedCopy(cfg.hostname, config.value.hostname);
    r := reg.Install(Some("gethostname"), Some(GethostnameHandler), handle, symbols, allocFails);
  }

  /** The five bounded copies of `ph_install_uname_hook`: every field is
      copied with `strncpy` to its capacity less one, and only then are the
      five last characters set to NUL. */
  method StoreUnameStrings(cfg: SpoofConfig, c: ConfigData)
    requires cfg.Valid()
    modifies cfg.Buffers()
    ensures cfg.Valid()
    ensures cfg.systemName[..] == Terminated(c.systemName, SystemNameCapacity)
    ensures cfg.machine[..] == Terminated(c.machine, MachineCapacity)
    ensures cfg.release[..] == Terminated(c.release, ReleaseCapacity)
    ensures cfg.version[..] == Terminated(c.version, VersionCapacity)
    ensures cfg.hostname[..] == Terminated(c.hostname, HostnameCapacity)
  {
    StrNCopy(cfg.systemName, c.systemName, SystemNameCapacity - 1);
    StrNCopy(cfg.machine, c.machine, MachineCapacity - 1);
    StrNCopy(cfg.release, c.release, ReleaseCapacity - 1);
    StrNCopy(cfg.version, c.version, VersionCapacity - 1);
    StrNCopy(cfg.hostname, c.hostname, HostnameCapacity - 1);

    Terminate(cfg.systemName, SystemNameCapacity);
    Terminate(cfg.machine, MachineCapacity);
    Terminate(cfg.release, ReleaseCapacity);
    Terminate(cfg.version, VersionCapacity);
    Terminate(cfg.hostname, HostnameCapacity);
    assert cfg.systemName[..] == cfg.systemName[..SystemNameCapacity];
    assert cfg.machine[..] == cfg.machine[..MachineCapacity];
    assert cfg.release[..] == cfg.release[..ReleaseCapacity];
    assert cfg.version[..] == cfg.version[..VersionCapacity];
    assert cfg.hostname[..] == cfg.hostname[..HostnameCapacity];
  }

  /** `ph_install_uname_hook`: bounded copies of the system name, machine,
      release, version and hostname into the store, then the install. */
  method InstallUnameHook(reg: Registry, cfg: SpoofConfig, config: Option<ConfigData>, handle: HookHandle?,
                          symbols: map<string, Addr>, allocFails: bool) returns (r: PHResult)
    requires reg.Valid() && cfg.Valid()
    modifies reg, handle, cfg.Buffers()
    ensures reg.Valid() && cfg.Valid()
    ensures config.None? || handle == null ==>
      && r == InvalidParam && reg.State() == old(reg.State()) && HandleOf(handle) == old(HandleOf(handle))
      && cfg.systemName[..] == old(cfg.systemName[..]) && cfg.machine[..] == old(cfg.machine[..])
      && cfg.release[..] == old(cfg.release[..]) && cfg.version[..] == old(cfg.version[..])
      && cfg.hostname[..] == old(cfg.hostname[..])
    ensures config.Some? && handle != null ==>
      && cfg.systemName[..] == Terminated(config.value.systemName, SystemNameCapacity)
      && cfg.machine[..] == Terminated(config.value.machine, MachineCapacity)
      && cfg.release[..] == Terminated(config.value.release, ReleaseCapacity)
      && cfg.version[..] == Terminated(config.value.version, VersionCapacity)
      && cfg.hostname[..] == Terminated(config.value.hostname, HostnameCapacity)
      && Installed(reg, Some("uname"), Some(UnameHandler), handle, symbols, allocFails, r)
  {
    if config.None? || handle == null {
      return InvalidParam;
    }
    StoreUnameStrings(cfg, config.value);
    r := reg.Install(Some("uname"), Some(UnameHandler), handle, symbols, allocFails);
  }

  /** `ph_hook_uname`: install a caller-supplied replacement for "uname". */
  method HookUname(reg: Registry, replacement: Option<Addr>, handle: HookHandle?,
                   symbols: map<string, Addr>, allocFails: bool) returns (r: PHResult)
    requires reg.Valid()
    modifies reg, handle
    ensures reg.Valid()
    ensures Installed(reg, Some("uname"), replacement, handle, symbols, allocFails, r)
  {
    r := reg.Install(Some("uname"), replacement, handle, symbols, allocFails);
  }

  /** `ph_hook_gethostname`. */
  method HookGethostname(reg: Registry, replacement: Option<Addr>, handle: HookHandle?,
                         symbols: map<string, Addr>, allocFails: bool) returns (r: PHResult)
    requires reg.Valid()
    modifies reg, handle
    ensures reg.Valid()
    ensures Installed(reg, Some("gethostname"), replacement, handle, symbols, allocFails, r)
  {
    r := reg.Install(Some("gethostname"), replacement, handle, symbols, allocFails);
  }

  /** `ph_hook_getuid`. */
  method HookGetuid(reg: Registry, replacement: Option<Addr>, handle: HookHandle?,
                    symbols: map<string, Addr>, allocFails: bool) returns (r: PHResult)
    requires reg.Valid()
    modifies reg, handle
    ensures reg.Valid()
    ensures Installed(reg, Some("getuid"), replacement, handle, symbols, allocFails, r)
  {
    r := reg.Install(Some("getuid"), replacement, handle, symbols, allocFails);
  }

  /** `ph_hook_getgid`. */
  method HookGetgid(reg: Registry, replacement: Option<Addr>, handle: HookHandle?,
                    symbols: map<string, Addr>, allocFails: bool) returns (r: PHResult)
    requires reg.Valid()
    modifies reg, handle
    ensures reg.Valid()
    ensures Installed(reg, Some("getgid"), replacement, handle, symbols, allocFails, r)
  {
    r := reg.Install(Some("getgid"), replacement, handle, symbols, allocFails);
  }
}
