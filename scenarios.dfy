/** Client programs that use only the contracts of the operations: they
    show what a caller of the public interface can rely on. */
module Scenarios {
  import opened HookTypes
  import opened CStrings
  import opened NameListing
  import opened HookRegistry
  import opened Handlers
  import opened Api

  /** Initialise, install the hostname hook for "test-host", check that
      it is hooked, remove it, and remove it once more with the same
      handle. */
  method HostnameHookInstallAndRemove()
  {
    var reg := new Registry();
    var cfg := new SpoofConfig();
    var r := reg.Initialize(true);
    var handle := new HookHandle(0, "", false);
    var symbols := map["gethostname" := Addr(0x1000)];
    var config := ConfigData(501, 20, "test-host", "Darwin", "arm64", "23.0.0", "Darwin Kernel");
    r := InstallGethostnameHook(reg, cfg, Some(config), handle, symbols, false);
    assert r == Success;
    assert handle.isValid && handle.functionName == "gethostname" && handle.id == 1;
    assert reg.entries[0].functionName == "gethostname";

    var hooked := reg.IsHooked(Some("gethostname"));
    assert hooked;

    r := reg.Remove(handle);
    assert r == Success;
    hooked := reg.IsHooked(Some("gethostname"));
    assert !hooked;

    // The handle is still marked valid, so the second removal reaches the
    // search and finds nothing.
    r := reg.Remove(handle);
    assert r == NotHooked;
  }

  /** With hostname "abc" a buffer of 4 characters suffices and one of 3
      does not, and the short buffer is left untouched. */
  method HostnameBufferSizes()
  {
    var reg := new Registry();
    var cfg := new SpoofConfig();
    var handle := new HookHandle(0, "", false);
    var config := ConfigData(0, 0, "abc", "", "", "", "");
    var _ := InstallGethostnameHook(reg, cfg, Some(config), handle, map[], false);
    BoundedCopyReadBack("abc", HostnameCapacity);
    StrLenOfCString("abc");

    var four := new char[4];
    var rc := HookedGethostname(cfg, four, 4);
    assert rc == 0 && CStr(four[..4]) == "abc";
    assert four[3] == '\0';

    var three := new char[3]['x', 'y', 'z'];
    rc := HookedGethostname(cfg, three, 3);
    assert rc == -1 && three[..] == ['x', 'y', 'z'];
  }

  /** Before initialisation every install is InvalidParam. */
  method InstallBeforeInitialize()
  {
    var reg := new Registry();
    var handle := new HookHandle(0, "", false);
    var r := reg.Install(Some("getuid"), Some(Addr(0x20)), handle, map["getuid" := Addr(0x10)], false);
    assert r == InvalidParam && reg.entries == [] && !handle.isValid;
  }

  /** A second install under the same name is AlreadyHooked, keeps the
      first replacement and leaves the second handle alone. */
  method SecondInstallSameName()
  {
    var reg := new Registry();
    var handle := new HookHandle(0, "", false);
    var symbols := map["getuid" := Addr(0x10)];
    var r := reg.Initialize(true);
    r := reg.Install(Some("getuid"), Some(Addr(0x20)), handle, symbols, false);
    assert r == Success;
    assert reg.entries[0].functionName == "getuid";
    var second := new HookHandle(7, "", false);
    r := reg.Install(Some("getuid"), Some(Addr(0x30)), second, symbols, false);
    assert r == AlreadyHooked;
    assert reg.entries[0].replacementFunction == Addr(0x20);
    assert second.id == 7 && !second.isValid;
  }

  /** A name the symbol table does not resolve is FunctionNotFound and
      the registry does not grow. */
  method UnresolvedName()
  {
    var reg := new Registry();
    var handle := new HookHandle(0, "", false);
    var symbols := map["getuid" := Addr(0x10)];
    var r := reg.Initialize(true);
    assert "nonexistent_symbol" !in symbols;
    r := reg.Install(Some("nonexistent_symbol"), Some(Addr(0x20)), handle, symbols, false);
    assert r == FunctionNotFound && reg.entries == [];
  }

  /** The listing never uses the last character of the buffer: the names
      "getgid" and "getuid" take 14 characters with their terminators, and
      a 14-character buffer receives only the first; 15 characters take
      both. */
  method ListingLeavesLastCharacter()
  {
    var reg := new Registry();
    var _ := reg.Initialize(true);
    var symbols := map["getuid" := Addr(0x10), "getgid" := Addr(0x11)];
    var h1 := new HookHandle(0, "", false);
    var h2 := new HookHandle(0, "", false);
    var _ := reg.Install(Some("getuid"), Some(Addr(0x20)), h1, symbols, false);
    assert reg.entries == [Entry("getuid", Addr(0x10), Addr(0x20), true)];
    var _ := reg.Install(Some("getgid"), Some(Addr(0x21)), h2, symbols, false);
    var es := reg.entries;
    assert es == [Entry("getgid", Addr(0x11), Addr(0x21), true), Entry("getuid", Addr(0x10), Addr(0x20), true)];
    assert es[1..] == [es[1]] && es[1..][1..] == [];

    var buffer := new char[15];
    var count := reg.GetActiveHooks(buffer, 14);
    assert Listed(es[1..], 7, 14) == [];
    assert count == 1;

    count := reg.GetActiveHooks(buffer, 15);
    assert Listed(es[1..][1..], 14, 15) == [];
    assert Listed(es[1..], 7, 15) == ["getuid"];
    assert count == 2;
    assert Listed(es, 0, 15) == ["getgid", "getuid"];
    assert Unpack(buffer[..14]) == ["getgid", "getuid"] by {
      UnpackPack(["getgid", "getuid"]);
    }
  }

  /** Cleanup drops every hook and keeps the counter; a new initialise
      starts the ids at 1 again. */
  method CleanupResetsOnReinitialize()
  {
    var reg := new Registry();
    var _ := reg.Initialize(true);
    var handle := new HookHandle(0, "", false);
    var r := reg.Install(Some("uname"), Some(Addr(0x20)), handle, map["uname" := Addr(0x10)], false);
    assert r == Success && reg.nextId == 2;

    reg.Cleanup();
    var count := reg.ActiveHookCount();
    assert count == 0 && reg.nextId == 2 && !reg.initialized;

    r := reg.Initialize(true);
    assert r == Success && reg.nextId == 1 && reg.entries == [];
  }
}
