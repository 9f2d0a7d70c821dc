/** The hook registry: an initialisation flag, the list of entries (head
    first) and the id counter, with the transition each public operation
    makes. The class `Registry` holds this state in fields and updates it
    in place; the functions on `RegistryState` are the specification its
    methods are proved against. */
module HookRegistry {
  import opened HookTypes
  import opened CStrings
  import opened NameListing

  /** The three globals of the registry. */
  datatype RegistryState = RegistryState(initialized: bool, entries: seq<Entry>, nextId: uint32)

  /** What a caller's `PHookHandle` holds. */
  datatype HandleState = HandleState(id: uint32, functionName: CString, isValid: bool)

  /** The result of an install: the code, the new registry and, on success,
      what is written into the caller's handle. */
  datatype InstallOutcome = InstallOutcome(code: PHResult, state: RegistryState, handle: Option<HandleState>)

  /** The static initial value of the globals. */
  const InitialState := RegistryState(false, [], 1)

  /** `g_next_hook_id++` on a `uint32_t`. */
  function NextId(n: uint32): (r: uint32)
    ensures r as int == (n as int + 1) % 0x1_0000_0000
  {
    if n == 0xFFFF_FFFF then 0 else n + 1
  }

  /** `ph_find_hook_by_name`: the position of the first entry with the
      given name. */
  function IndexOf(es: seq<Entry>, name: string): (r: Option<nat>)
    ensures r.Some? ==> r.value < |es| && es[r.value].functionName == name
    ensures r.Some? ==> forall k :: 0 <= k < r.value ==> es[k].functionName != name
    ensures r.None? <==> forall k :: 0 <= k < |es| ==> es[k].functionName != name
  {
    if es == [] then None
    else if es[0].functionName == name then Some(0)
    else match IndexOf(es[1..], name)
      case None => None
      case Some(i) => Some(i + 1)
  }

  ghost predicate UniqueNames(es: seq<Entry>)
  {
    forall i, j :: 0 <= i < j < |es| ==> es[i].functionName != es[j].functionName
  }

  /** The names for which `ph_is_hooked` answers true. */
  ghost function NameSet(es: seq<Entry>): set<string>
  {
    set i | 0 <= i < |es| :: es[i].functionName
  }

  /** The registry invariant: no entry while uninitialised, at most one
      entry per name, every entry active, every stored name within the
      256-byte field. */
  ghost predicate ValidState(s: RegistryState)
  {
    && (!s.initialized ==> s.entries == [])
    && UniqueNames(s.entries)
    && (forall i :: 0 <= i < |s.entries| ==>
          s.entries[i].isActive && |s.entries[i].functionName| <= MaxNameLength)
  }

  /** `ph_initialize`. */
  function InitializeSpec(s: RegistryState, platformSupported: bool): (r: (PHResult, RegistryState))
    ensures r.0 == Success || r.0 == UnsupportedPlatform
    ensures r.0 == Success <==> r.1.initialized
    ensures r.1.initialized && !s.initialized ==> r.1.entries == [] && r.1.nextId == 1
  {
    if s.initialized then (Success, s)
    else if !platformSupported then (UnsupportedPlatform, s)
    else (Success, RegistryState(true, [], 1))
  }

  /** `ph_cleanup`: the counter is left alone. */
  function CleanupSpec(s: RegistryState): (r: RegistryState)
    ensures !r.initialized && r.nextId == s.nextId
    ensures s.initialized ==> r.entries == []
  {
    if !s.initialized then s else s.(initialized := false, entries := [])
  }

  /** `ph_install_hook`, with names too long for the 256-byte field
      rejected as invalid (see the finding in README). `hasHandle` is false
      when the handle pointer is null; `symbols` is what `dlsym` resolves;
      `allocFails` is the outcome of `malloc`. */
  function InstallSpec(s: RegistryState, name: Option<CString>, replacement: Option<Addr>,
                       hasHandle: bool, symbols: map<string, Addr>, allocFails: bool): (out: InstallOutcome)
    ensures out.code == Success <==> out.handle.Some?
    ensures out.code != Success ==> out.state == s
    ensures out.code == Success ==>
      |out.state.entries| == |s.entries| + 1 && out.state.entries[1..] == s.entries && out.handle.value.id == s.nextId
  {
    if name.None? || replacement.None? || !hasHandle || |name.value| > MaxNameLength then
      InstallOutcome(InvalidParam, s, None)
    else if !s.initialized then InstallOutcome(InvalidParam, s, None)
    else if IndexOf(s.entries, name.value).Some? then InstallOutcome(AlreadyHooked, s, None)
    else if name.value !in symbols then InstallOutcome(FunctionNotFound, s, None)
    else if allocFails then InstallOutcome(MemoryError, s, None)
    else
      var e := Entry(name.value, symbols[name.value], replacement.value, true);
      InstallOutcome(Success, s.(entries := [e] + s.entries, nextId := NextId(s.nextId)),
                     Some(HandleState(s.nextId, name.value, true)))
  }

  /** The list with the entry at position i unlinked. */
  function Unlink(es: seq<Entry>, i: nat): seq<Entry>
    requires i < |es|
  {
    es[..i] + es[i + 1..]
  }

  /** `ph_remove_hook`: `handle` is None for a null pointer. The caller's
      handle is never written. */
  function RemoveSpec(s: RegistryState, handle: Option<HandleState>): (r: (PHResult, RegistryState))
    ensures r.1.initialized == s.initialized && r.1.nextId == s.nextId
    ensures r.0 != Success ==> r.1 == s
    ensures r.0 == Success ==> |r.1.entries| + 1 == |s.entries|
  {
    if handle.None? || !handle.value.isValid then (InvalidParam, s)
    else if !s.initialized then (InvalidParam, s)
    else match IndexOf(s.entries, handle.value.functionName)
      case None => (NotHooked, s)
      case Some(i) => (Success, s.(entries := Unlink(s.entries, i)))
  }

  // ---------------------------------------------------------------------
  // Properties of the transitions

  lemma InitialStateValid()
    ensures ValidState(InitialState)
  {
  }

  /** Initialize is idempotent once initialised, fails without effect on
      an unsupported platform, and otherwise yields an empty initialised
      registry whose counter restarts at 1. */
  lemma InitializeProperties(s: RegistryState, platformSupported: bool)
    requires ValidState(s)
    ensures ValidState(InitializeSpec(s, platformSupported).1)
    ensures s.initialized ==> InitializeSpec(s, platformSupported) == (Success, s)
    ensures InitializeSpec(s, platformSupported).0 == UnsupportedPlatform <==> !s.initialized && !platformSupported
    ensures InitializeSpec(s, platformSupported).0 == UnsupportedPlatform ==> InitializeSpec(s, platformSupported).1 == s
    ensures InitializeSpec(s, platformSupported).0 == Success ==>
      InitializeSpec(InitializeSpec(s, platformSupported).1, platformSupported) == InitializeSpec(s, platformSupported)
  {
  }

  /** Cleanup empties the registry and leaves the id counter alone; a
      second cleanup changes nothing; an initialize afterwards starts from
      a clean counter. */
  lemma CleanupProperties(s: RegistryState)
    requires ValidState(s)
    ensures ValidState(CleanupSpec(s))
    ensures CleanupSpec(s) == RegistryState(false, [], s.nextId)
    ensures CleanupSpec(CleanupSpec(s)) == CleanupSpec(s)
    ensures InitializeSpec(CleanupSpec(s), true) == (Success, RegistryState(true, [], 1))
  {
  }

  /** Every failing install leaves the registry and the handle as they
      were; a successful one prepends exactly one active entry carrying the
      resolved original, hands out the old counter value as id, and bumps
      the counter. */
  lemma InstallEffect(s: RegistryState, name: Option<CString>, replacement: Option<Addr>,
                      hasHandle: bool, symbols: map<string, Addr>, allocFails: bool)
    ensures var out := InstallSpec(s, name, replacement, hasHandle, symbols, allocFails);
      out.code != Success ==> out.state == s && out.handle.None?
    ensures var out := InstallSpec(s, name, replacement, hasHandle, symbols, allocFails);
      out.code == Success ==>
        && name.Some? && name.value in symbols && replacement.Some?
        && |out.state.entries| == |s.entries| + 1
        && out.state.entries[0] == Entry(name.value, symbols[name.value], replacement.value, true)
        && out.state.entries[1..] == s.entries
        && out.state.initialized == s.initialized
        && out.state.nextId == NextId(s.nextId)
        && out.handle == Some(HandleState(s.nextId, name.value, true))
  {
  }

  /** The error an install reports, case by case in the order the checks
      are made. */
  lemma {:induction false} InstallErrors(s: RegistryState, name: Option<CString>, replacement: Option<Addr>,
                                         hasHandle: bool, symbols: map<string, Addr>, allocFails: bool)
    ensures var code := InstallSpec(s, name, replacement, hasHandle, symbols, allocFails).code;
      && (code == InvalidParam <==>
            name.None? || replacement.None? || !hasHandle || |name.value| > MaxNameLength || !s.initialized)
      && (code == AlreadyHooked <==>
            name.Some? && replacement.Some? && hasHandle && |name.value| <= MaxNameLength && s.initialized
            && name.value in NameSet(s.entries))
      && (code == FunctionNotFound <==>
            name.Some? && replacement.Some? && hasHandle && |name.value| <= MaxNameLength && s.initialized
            && name.value !in NameSet(s.entries) && name.value !in symbols)
      && (code == MemoryError <==>
            name.Some? && replacement.Some? && hasHandle && |name.value| <= MaxNameLength && s.initialized
            && name.value !in NameSet(s.entries) && name.value in symbols && allocFails)
      && (code == Success <==>
            name.Some? && replacement.Some? && hasHandle && |name.value| <= MaxNameLength && s.initialized
            && name.value !in NameSet(s.entries) && name.value in symbols && !allocFails)
      && code != NotHooked && code != PermissionDenied && code != UnsupportedPlatform
  {
    if name.Some? {
      var r := IndexOf(s.entries, name.value);
      if r.Some? {
        assert s.entries[r.value].functionName == name.value;
      }
    }
  }

  /** Install keeps the invariant; in particular the duplicate check makes
      the prepended name new, so names stay unique. */
  lemma {:induction false} InstallPreservesValid(s: RegistryState, name: Option<CString>, replacement: Option<Addr>,
                                                 hasHandle: bool, symbols: map<string, Addr>, allocFails: bool)
    requires ValidState(s)
    ensures ValidState(InstallSpec(s, name, replacement, hasHandle, symbols, allocFails).state)
  {
    var out := InstallSpec(s, name, replacement, hasHandle, symbols, allocFails);
    if out.code == Success {
      var es := out.state.entries;
      assert es[1..] == s.entries;
      forall i, j | 0 <= i < j < |es| ensures es[i].functionName != es[j].functionName {
        if i == 0 {
          assert es[j] == s.entries[j - 1];
        } else {
          assert es[i] == s.entries[i - 1] && es[j] == s.entries[j - 1];
        }
      }
    }
  }

  /** After a successful install the name is hooked, and installing it a
      second time fails with AlreadyHooked, leaving the first entry (and
      its replacement) in place. */
  lemma SecondInstallIsRejected(s: RegistryState, name: CString, r1: Addr, r2: Option<Addr>,
                                symbols: map<string, Addr>, allocFails: bool)
    requires InstallSpec(s, Some(name), Some(r1), true, symbols, false).code == Success
    ensures var s1 := InstallSpec(s, Some(name), Some(r1), true, symbols, false).state;
      && name in NameSet(s1.entries)
      && (r2.Some? ==> InstallSpec(s1, Some(name), r2, true, symbols, allocFails)
                         == InstallOutcome(AlreadyHooked, s1, None))
      && s1.entries[0].replacementFunction == r1
  {
    var s1 := InstallSpec(s, Some(name), Some(r1), true, symbols, false).state;
    assert s1.entries[0].functionName == name;
  }

  /** Unlinking one entry keeps the invariant and removes exactly that
      entry's name. */
  lemma {:induction false} UnlinkProperties(es: seq<Entry>, i: nat)
    requires i < |es|
    requires UniqueNames(es)
    ensures UniqueNames(Unlink(es, i))
    ensures NameSet(Unlink(es, i)) == NameSet(es) - {es[i].functionName}
    ensures forall k :: 0 <= k < |Unlink(es, i)| ==>
      Unlink(es, i)[k] == if k < i then es[k] else es[k + 1]
  {
    var u := Unlink(es, i);
    assert forall k :: 0 <= k < |u| ==> u[k] == if k < i then es[k] else es[k + 1];
    forall n | n in NameSet(es) - {es[i].functionName} ensures n in NameSet(u) {
      var k :| 0 <= k < |es| && es[k].functionName == n;
      assert k != i;
      if k < i { assert u[k] == es[k]; } else { assert u[k - 1] == es[k]; }
    }
  }

  /** Remove keeps the invariant. On success exactly the entry with the
      handle's name is unlinked and the rest keep their order; otherwise
      the registry is unchanged. */
  lemma {:induction false} RemoveProperties(s: RegistryState, handle: Option<HandleState>)
    requires ValidState(s)
    ensures ValidState(RemoveSpec(s, handle).1)
    ensures RemoveSpec(s, handle).0 == Success <==>
      handle.Some? && handle.value.isValid && s.initialized && handle.value.functionName in NameSet(s.entries)
    ensures RemoveSpec(s, handle).0 != Success ==> RemoveSpec(s, handle).1 == s
    ensures RemoveSpec(s, handle).0 == Success ==>
      exists i :: 0 <= i < |s.entries| && s.entries[i].functionName == handle.value.functionName
        && RemoveSpec(s, handle).1 == s.(entries := Unlink(s.entries, i))
    ensures RemoveSpec(s, handle).0 == Success ==>
      NameSet(RemoveSpec(s, handle).1.entries) == NameSet(s.entries) - {handle.value.functionName}
  {
    if handle.Some? && handle.value.isValid && s.initialized {
      var r := IndexOf(s.entries, handle.value.functionName);
      if r.Some? {
        UnlinkProperties(s.entries, r.value);
        var u := Unlink(s.entries, r.value);
        forall i | 0 <= i < |u| ensures u[i].isActive && |u[i].functionName| <= MaxNameLength {
          assert u[i] == if i < r.value then s.entries[i] else s.entries[i + 1];
        }
      } else {
        assert handle.value.functionName !in NameSet(s.entries);
      }
    }
  }

  /** The error a remove reports: InvalidParam for a null or invalid handle
      or an uninitialised registry, NotHooked when no entry carries the
      handle's name, and no other failure. */
  lemma {:induction false} RemoveErrors(s: RegistryState, handle: Option<HandleState>)
    ensures RemoveSpec(s, handle).0 == InvalidParam <==>
      handle.None? || !handle.value.isValid || !s.initialized
    ensures RemoveSpec(s, handle).0 == NotHooked <==>
      handle.Some? && handle.value.isValid && s.initialized && handle.value.functionName !in NameSet(s.entries)
    ensures RemoveSpec(s, handle).0 in {Success, InvalidParam, NotHooked}
  {
    if handle.Some? && handle.value.isValid && s.initialized {
      var r := IndexOf(s.entries, handle.value.functionName);
      if r.Some? {
        assert s.entries[r.value].functionName == handle.value.functionName;
      }
    }
  }

  /** `ph_remove_hook` never clears the handle's valid flag, so removing
      with the same handle a second time reaches the search and reports
      NotHooked, leaving the registry alone. */
  lemma {:induction false} SecondRemoveIsNotHooked(s: RegistryState, handle: HandleState)
    requires ValidState(s)
    requires RemoveSpec(s, Some(handle)).0 == Success
    ensures RemoveSpec(RemoveSpec(s, Some(handle)).1, Some(handle))
              == (NotHooked, RemoveSpec(s, Some(handle)).1)
  {
    RemoveProperties(s, Some(handle));
    var s1 := RemoveSpec(s, Some(handle)).1;
    assert handle.functionName !in NameSet(s1.entries);
  }

  /** Removing with the handle a successful install produced restores the
      list exactly; only the counter differs, having moved past the id just
      handed out. */
  lemma {:induction false} InstallThenRemove(s: RegistryState, name: CString, replacement: Addr,
                                             symbols: map<string, Addr>)
    requires ValidState(s)
    requires InstallSpec(s, Some(name), Some(replacement), true, symbols, false).code == Success
    ensures var out := InstallSpec(s, Some(name), Some(replacement), true, symbols, false);
      RemoveSpec(out.state, out.handle) == (Success, s.(nextId := NextId(s.nextId)))
  {
    var out := InstallSpec(s, Some(name), Some(replacement), true, symbols, false);
    assert IndexOf(out.state.entries, name) == Some(0);
    assert Unlink(out.state.entries, 0) == s.entries;
  }

  /** With unique names, the list has exactly one entry per hooked name. */
  lemma {:induction false} NameSetSize(es: seq<Entry>)
    requires UniqueNames(es)
    ensures |NameSet(es)| == |es|
  {
    if es != [] {
      var rest := es[1..];
      assert UniqueNames(rest) by {
        forall i, j | 0 <= i < j < |rest| ensures rest[i].functionName != rest[j].functionName {
          assert rest[i] == es[i + 1] && rest[j] == es[j + 1];
        }
      }
      NameSetSize(rest);
      assert NameSet(es) == {es[0].functionName} + NameSet(rest) by {
        forall n | n in NameSet(es) ensures n in {es[0].functionName} + NameSet(rest) {
          var k :| 0 <= k < |es| && es[k].functionName == n;
          if k > 0 { assert rest[k - 1] == es[k]; }
        }
        forall n | n in NameSet(rest) ensures n in NameSet(es) {
          var k :| 0 <= k < |rest| && rest[k].functionName == n;
          assert es[k + 1] == rest[k];
        }
      }
      assert es[0].functionName !in NameSet(rest);
    }
  }

  /** When every entry is active, the active names are exactly the
      entries' names, in list order. */
  lemma {:induction false} AllActive(es: seq<Entry>)
    requires forall i :: 0 <= i < |es| ==> es[i].isActive
    ensures ActiveNames(es) == seq(|es|, i requires 0 <= i < |es| => es[i].functionName)
    ensures |ActiveNames(es)| == |es|
  {
    if es != [] {
      AllActive(es[1..]);
    }
  }

  /** The active count equals the list length and the number of hooked
      names, since install always sets the entry active. */
  lemma {:induction false} ActiveCountIsHookedNames(s: RegistryState)
    requires ValidState(s)
    ensures |ActiveNames(s.entries)| == |s.entries| == |NameSet(s.entries)|
  {
    AllActive(s.entries);
    NameSetSize(s.entries);
  }

  // ---------------------------------------------------------------------
  // The caller's handle and the registry object

  /** A caller-owned `PHookHandle`; install writes it, remove only reads it. */
  class HookHandle {
    var id: uint32
    var functionName: CString
    var isValid: bool

    constructor (id: uint32, functionName: CString, isValid: bool)
      ensures this.id == id && this.functionName == functionName && this.isValid == isValid
    {
      this.id := id;
      this.functionName := functionName;
      this.isValid := isValid;
    }

    function State(): HandleState
      reads this
    {
      HandleState(id, functionName, isValid)
    }
  }

  /** What a possibly-null handle pointer designates. */
  function HandleOf(h: HookHandle?): Option<HandleState>
    reads h
  {
    if h == null then None else Some(h.State())
  }

  /** The effect of one install on a registry and a caller's handle: the
      code and new registry are those of InstallSpec from the registry as it
      was, and the handle receives the new handle on success and is left
      alone otherwise. */
  twostate predicate Installed(reg: Registry, name: Option<CString>, replacement: Option<Addr>,
                               handle: HookHandle?, symbols: map<string, Addr>, allocFails: bool, r: PHResult)
    reads reg, handle
  {
    var out := InstallSpec(old(reg.State()), name, replacement, handle != null, symbols, allocFails);
    && r == out.code
    && reg.State() == out.state
    && HandleOf(handle) == (if out.handle.Some? then out.handle else old(HandleOf(handle)))
  }

  class Registry {
    var initialized: bool
    var entries: seq<Entry>
    var nextId: uint32

    function State(): RegistryState
      reads this
    {
      RegistryState(initialized, entries, nextId)
    }

    ghost predicate Valid()
      reads this
    {
      ValidState(State())
    }

    /** The globals as the program starts. */
    constructor ()
      ensures State() == InitialState && Valid()
    {
      initialized, entries, nextId := false, [], 1;
    }

    method Initialize(platformSupported: bool) returns (r: PHResult)
      requires Valid()
      modifies this
      ensures Valid()
      ensures (r, State()) == InitializeSpec(old(State()), platformSupported)
    {
      if initialized {
        return Success;
      }
      if !platformSupported {
        return UnsupportedPlatform;
      }
      entries := [];
      nextId := 1;
      initialized := true;
      r := Success;
    }

    method Cleanup()
      requires Valid()
      modifies this
      ensures Valid()
      ensures State() == CleanupSpec(old(State()))
    {
      if !initialized {
        return;
      }
      entries := [];
      initialized := false;
    }

    /** `ph_find_hook_by_name`: walk from the head to the first entry with
        the name. */
    method FindByName(name: string) returns (r: Option<nat>)
      ensures r == IndexOf(entries, name)
    {
      var i := 0;
      while i < |entries|
        invariant 0 <= i <= |entries|
        invariant forall k :: 0 <= k < i ==> entries[k].functionName != name
      {
        if entries[i].functionName == name {
          return Some(i);
        }
        i := i + 1;
      }
      r := None;
    }

    /** `ph_install_hook`. The argument checks come first, then the
        initialisation check, the duplicate search, symbol resolution and
        allocation; only then is the entry prepended and the handle
        filled in. A name that passed the length check is copied into the
        256-byte fields without truncation. */
    method Install(name: Option<CString>, replacement: Option<Addr>, handle: HookHandle?,
                   symbols: map<string, Addr>, allocFails: bool) returns (r: PHResult)
      requires Valid()
      modifies this, handle
      ensures Valid()
      ensures Installed(this, name, replacement, handle, symbols, allocFails, r)
    {
      InstallPreservesValid(State(), name, replacement, handle != null, symbols, allocFails);
      if name.None? || replacement.None? || handle == null || |name.value| > MaxNameLength {
        return InvalidParam;
      }
      if !initialized {
        return InvalidParam;
      }
      var existing := FindByName(name.value);
      if existing.Some? {
        return AlreadyHooked;
      }
      if name.value !in symbols {
        return FunctionNotFound;
      }
      var original := symbols[name.value];
      if allocFails {
        return MemoryError;
      }
      entries := [Entry(name.value, original, replacement.value, true)] + entries;
      handle.id := nextId;
      nextId := NextId(nextId);
      handle.functionName := name.value;
      handle.isValid := true;
      r := Success;
    }

    /** `ph_remove_hook`: the handle is read, never written. */
    method Remove(handle: HookHandle?) returns (r: PHResult)
      requires Valid()
      modifies this
      ensures Valid()
      ensures (r, State()) == RemoveSpec(old(State()), HandleOf(handle))
    {
      RemoveProperties(State(), HandleOf(handle));
      if handle == null || !handle.isValid {
        return InvalidParam;
      }
      if !initialized {
        return InvalidParam;
      }
      var found := FindByName(handle.functionName);
      if found.None? {
        return NotHooked;
      }
      entries := Unlink(entries, found.value);
      r := Success;
    }

    /** `ph_get_original`: the original address recorded for the handle's
        name, or None (NULL) for a null or invalid handle or an unknown
        name. */
    method GetOriginal(handle: HookHandle?) returns (r: Option<Addr>)
      ensures r.Some? <==> handle != null && handle.isValid && handle.functionName in NameSet(entries)
      ensures r.Some? ==>
        exists i :: 0 <= i < |entries| && entries[i].functionName == handle.functionName
                    && entries[i].originalFunction == r.value
      ensures r.Some? && Valid() ==>
        forall i :: 0 <= i < |entries| && entries[i].functionName == handle.functionName
                    ==> entries[i].originalFunction == r.value
    {
      if handle == null || !handle.isValid {
        return None;
      }
      var found := FindByName(handle.functionName);
      if found.None? {
        assert handle.functionName !in NameSet(entries);
        return None;
      }
      r := Some(entries[found.value].originalFunction);
    }

    /** `ph_is_hooked`: false for a null name. */
    method IsHooked(name: Option<CString>) returns (hooked: bool)
      ensures hooked <==> name.Some? && name.value in NameSet(entries)
    {
      if name.None? {
        return false;
      }
      var found := FindByName(name.value);
      hooked := found.Some?;
      if !hooked {
        assert name.value !in NameSet(entries);
      }
    }

    /** `ph_get_active_hook_count`: counts the active entries, which under
        the invariant are all entries, one per hooked name. */
    method ActiveHookCount() returns (count: nat)
      ensures count == |ActiveNames(entries)|
      ensures Valid() ==> count == |entries| == |NameSet(entries)|
    {
      count := 0;
      var i := 0;
      while i < |entries|
        invariant 0 <= i <= |entries|
        invariant count + |ActiveNames(entries[i..])| == |ActiveNames(entries)|
      {
        assert entries[i..][1..] == entries[i + 1..];
        if entries[i].isActive {
          count := count + 1;
        }
        i := i + 1;
      }
      if Valid() {
        ActiveCountIsHookedNames(State());
      }
    }

    /** `ph_get_active_hooks`: writes the active names, NUL-terminated and
        back to back, into the first `bufferSize` characters of `buffer`,
        and returns how many it wrote. */
    method GetActiveHooks(buffer: array?<char>, bufferSize: nat) returns (count: nat)
      requires buffer != null ==> bufferSize <= buffer.Length
      modifies buffer
      ensures buffer == null || bufferSize == 0 ==> count == 0
      ensures buffer != null && bufferSize == 0 ==> buffer[..] == old(buffer[..])
      ensures buffer != null && bufferSize > 0 ==>
        var written := Listed(entries, 0, bufferSize);
        && count == |written|
        && |Pack(written)| < bufferSize
        && buffer[..|Pack(written)|] == Pack(written)
        && buffer[|Pack(written)|..] == old(buffer[|Pack(written)|..])
    {
      if buffer == null || bufferSize == 0 {
        return 0;
      }
      ListedFits(entries, 0, bufferSize);
      count := 0;
      var offset := 0;
      var i := 0;
      ghost var written: seq<CString> := [];
      while i < |entries| && offset < bufferSize - 1
        invariant 0 <= i <= |entries|
        invariant offset == |Pack(written)| < bufferSize
        invariant count == |written|
        invariant Listed(entries, 0, bufferSize) == written + Listed(entries[i..], offset, bufferSize)
        invariant buffer[..offset] == Pack(written)
        invariant buffer[offset..] == old(buffer[offset..])
      {
        var e := entries[i];
        assert entries[i..][1..] == entries[i + 1..];
        if !e.isActive {
          assert Listed(entries[i..], offset, bufferSize) == Listed(entries[i + 1..], offset, bufferSize);
        } else {
          var nameLen := |e.functionName|;
          if offset + nameLen + 1 < bufferSize {
            ghost var before := buffer[..];
            ghost var rest := Listed(entries[i + 1..], offset + nameLen + 1, bufferSize);
            assert Listed(entries[i..], offset, bufferSize) == [e.functionName] + rest;
            assert written + ([e.functionName] + rest) == (written + [e.functionName]) + rest;
            WriteCString(buffer, offset, e.functionName);
            PackAppend(written, e.functionName);
            assert buffer[..offset + nameLen + 1] == buffer[..offset] + buffer[offset..offset + nameLen + 1];
            assert buffer[offset + nameLen + 1..] == before[offset + nameLen + 1..];
            written := written + [e.functionName];
            offset := offset + nameLen + 1;
            count := count + 1;
          } else {
            break;
          }
        }
        i := i + 1;
      }
      assert Listed(entries[i..], offset, bufferSize) == [];
      assert Listed(entries, 0, bufferSize) == written;
    }
  }
}
