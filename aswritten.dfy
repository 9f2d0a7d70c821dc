/** `ph_install_hook` exactly as written, including its treatment of names
    longer than the 256-byte name field: the duplicate search and `dlsym`
    use the caller's full name, but the entry keeps only its first 255
    characters. */
module InstallAsWritten {
  import opened HookTypes
  import opened CStrings
  import opened HookRegistry

  /** What `strncpy(field, name, 255); field[255] = '\0'` keeps of a name. */
  function Truncate(name: CString): (t: CString)
    ensures t == CStr(Terminated(name, NameCapacity))
    ensures |t| <= MaxNameLength && t <= name
    ensures |name| <= MaxNameLength ==> t == name
  {
    BoundedCopyReadBack(name, NameCapacity);
    StrLenOfCString(name);
    var t := name[..Min(|name|, MaxNameLength)];
    assert forall k :: 0 <= k < |t| ==> t[k] == name[k];
    t
  }

  /** The install transition with no length check on the name. */
  function InstallAsWritten(s: RegistryState, name: Option<CString>, replacement: Option<Addr>,
                            hasHandle: bool, symbols: map<string, Addr>, allocFails: bool): (out: InstallOutcome)
    ensures out.code != Success ==> out.state == s && out.handle.None?
    ensures out.code == Success ==>
      && name.Some? && name.value in symbols
      && |out.state.entries| == |s.entries| + 1
      && out.state.entries[1..] == s.entries
      && out.state.entries[0].functionName == Truncate(name.value)
      && out.handle == Some(HandleState(s.nextId, Truncate(name.value), true))
  {
    if name.None? || replacement.None? || !hasHandle then InstallOutcome(InvalidParam, s, None)
    else if !s.initialized then InstallOutcome(InvalidParam, s, None)
    else if IndexOf(s.entries, name.value).Some? then InstallOutcome(AlreadyHooked, s, None)
    else if name.value !in symbols then InstallOutcome(FunctionNotFound, s, None)
    else if allocFails then InstallOutcome(MemoryError, s, None)
    else
      var e := Entry(Truncate(name.value), symbols[name.value], replacement.value, true);
      InstallOutcome(Success, s.(entries := [e] + s.entries, nextId := NextId(s.nextId)),
                     Some(HandleState(s.nextId, Truncate(name.value), true)))
  }

  /** For every name that fits its field the code as written and the
      corrected install agree. */
  lemma AgreesOnNamesThatFit(s: RegistryState, name: CString, replacement: Option<Addr>,
                             hasHandle: bool, symbols: map<string, Addr>, allocFails: bool)
    requires |name| <= MaxNameLength
    ensures InstallAsWritten(s, Some(name), replacement, hasHandle, symbols, allocFails)
            == InstallSpec(s, Some(name), replacement, hasHandle, symbols, allocFails)
  {
  }

  /** A 256-character name that the symbol table resolves. */
  const LongName: CString := seq(256, _ => 'a')

  /** As written, installing LongName twice succeeds twice: the stored,
      truncated name never equals the full name the duplicate search looks
      for. The list then holds two entries with the same name, and
      `ph_is_hooked(LongName)` is false right after the first install. */
  lemma {:induction false} OverlongNameInstalledTwice()
    ensures var s0 := RegistryState(true, [], 1);
            var symbols := map[LongName := Addr(1)];
            var o1 := InstallAsWritten(s0, Some(LongName), Some(Addr(2)), true, symbols, false);
            var o2 := InstallAsWritten(o1.state, Some(LongName), Some(Addr(3)), true, symbols, false);
            && ValidState(s0)
            && o1.code == Success && LongName !in NameSet(o1.state.entries)
            && o2.code == Success && |o2.state.entries| == 2
            && !UniqueNames(o2.state.entries)
  {
    var s0 := RegistryState(true, [], 1);
    var symbols := map[LongName := Addr(1)];
    var t := Truncate(LongName);
    assert |t| == 255;
    var o1 := InstallAsWritten(s0, Some(LongName), Some(Addr(2)), true, symbols, false);
    assert o1.state.entries == [Entry(t, Addr(1), Addr(2), true)];
    assert IndexOf(o1.state.entries, LongName) == None;
    var o2 := InstallAsWritten(o1.state, Some(LongName), Some(Addr(3)), true, symbols, false);
    assert o2.state.entries[0].functionName == o2.state.entries[1].functionName;
  }

  /** The corrected install refuses the same name, and it never lets two
      entries share a name. */
  lemma {:induction false} CorrectedRejectsOverlongName(s: RegistryState, replacement: Option<Addr>,
                                                        symbols: map<string, Addr>, allocFails: bool)
    requires ValidState(s)
    ensures InstallSpec(s, Some(LongName), replacement, true, symbols, allocFails)
            == InstallOutcome(InvalidParam, s, None)
    ensures UniqueNames(InstallSpec(s, Some(LongName), replacement, true, symbols, allocFails).state.entries)
  {
  }
}
