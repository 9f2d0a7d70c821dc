# Privarion hook registry — a Dafny model

Privarion's native hook library (`privarion_hook.c` with its header
`privarion_hook.h`) keeps a process-wide registry of function
interceptions. The registry holds:

- an initialisation flag;
- a singly linked list of hook entries, newest first;
- a 32-bit id counter.

Each entry records a function name (in a 256-byte field), the original
address that `dlsym` resolved, the replacement address and an active flag.
Callers receive a `PHookHandle` holding the id, the name and a valid flag.

On top of the registry sit:

- a static configuration store: a user id, a group id and five fixed-size
  text buffers;
- four canned replacement handlers, for `getuid`, `getgid`, `gethostname`
  and `uname`, that answer from that store;
- four configuration-driven installers that fill the store and then
  install a handler;
- four fixed-name wrappers around the generic install;
- an error-message table and a version string.

The model has these parts:

- `HookTypes` (types.dfy): the result enumeration with its C values, the
  entry and configuration records, the buffer capacities, the version
  triple and the error-message table.
- `CStrings` (cstrings.dfy): `strlen`, `strncpy`, the
  "strncpy to capacity − 1, then terminate" idiom used for every fixed
  buffer, and `strcpy` into a buffer at an offset. `StrLen`, `CStr`,
  `StrNCopied` and `Terminated` are functions on `seq<char>`. `StrNCopy`,
  `BoundedCopy`, `Terminate` and `WriteCString` are methods that write an
  `array<char>` and are proved against those functions.
- `NameListing` (listing.dfy): the layout `ph_get_active_hooks` writes,
  NUL-terminated names back to back, and what it writes for a given list
  and buffer size.
- `HookRegistry` (registry.dfy): the registry as a class, `Registry`, whose
  fields are the three globals. Each public operation is a method that
  updates those fields in place. Each method is proved against a pure
  transition function on `RegistryState`, and the registry's properties
  are lemmas about those functions. The caller's handle is the class
  `HookHandle`.
- `Handlers` (handlers.dfy): the configuration store as a class of fixed
  arrays, the caller's `struct utsname`, and the four replacement
  handlers.
- `Api` (api.dfy): the configuration-driven installers and the
  fixed-name wrappers.
- `InstallAsWritten` (aswritten.dfy): `ph_install_hook` exactly as written,
  for the finding below.
- `Scenarios` (scenarios.dfy): short client programs that use only the
  contracts above.

The model represents the program's environment as follows:

- C strings are `CString`, a `seq<char>` without NUL.
- Null pointers are `None` or `null`.
- `dlsym` is a `map<string, Addr>` parameter.
- A failing `malloc` is the `allocFails` parameter.
- The compile-time platform test is the `platformSupported` parameter.
- The id counter is a `uint32` newtype that wraps from 0xFFFFFFFF to 0.

Some details of the code's behaviour that a reader might not expect, all
of which the model reproduces:

- `ph_install_hook` and `ph_remove_hook` called before `ph_initialize`
  report `InvalidParam`, and the result enumeration has no dedicated
  "not initialised" code. The queries (`ph_is_hooked`, `ph_get_original`,
  `ph_get_active_hook_count`, `ph_get_active_hooks`) make no
  initialisation test and answer from the empty list. `ph_cleanup` then
  does nothing. The four configuration installers write the store before
  the install reports `InvalidParam`.
- An empty function name is not rejected.
- `ph_remove_hook` does not clear the handle's valid flag, so removing
  twice reports `NotHooked` the second time.
- `ph_cleanup` does not reset the id counter; `ph_initialize` does.
- `ph_get_active_hooks` never writes the last character of the buffer,
  because its fit test is a strict `<`.

## Model

| member | source | states |
|---|---|---|
| HookTypes.PHResult.Code | Sources/PrivarionHook/include/privarion_hook.h:17-27 | Each result code has its C value, between −7 and 0; the value is 0 exactly for success |
| HookTypes.FromCode | Sources/PrivarionHook/include/privarion_hook.h:17-27 | An integer names an enumerator exactly when it lies in −7..0, and that enumerator carries the integer |
| HookTypes.CodeRoundTrip | Sources/PrivarionHook/include/privarion_hook.h:17-27 | Reading back the integer value of any result code gives that code |
| HookTypes.CodesDistinct | Sources/PrivarionHook/include/privarion_hook.h:17-27 | Different result codes have different integer values |
| HookTypes.ErrorMessage | Sources/PrivarionHook/privarion_hook.c:341-362 | `ph_get_error_message` returns "Unknown error" exactly for integers that are not one of the eight codes |
| HookTypes.ErrorMessagesDistinct | Sources/PrivarionHook/privarion_hook.c:341-362 | Different result codes get different messages |
| HookTypes.DecimalString | Sources/PrivarionHook/privarion_hook.c:366-369 | `%d` of a natural number is a non-empty string of decimal digits whose value (DigitsValue) is that number, with no leading zero unless the number is 0 |
| HookTypes.VersionString | Sources/PrivarionHook/include/privarion_hook.h:12-15 | The version string built from the major, minor and patch macros is "1.0.0" |
| CStrings.StrLen | Sources/PrivarionHook/privarion_hook.c:41 | `strlen` is the index of the first NUL: every earlier character is non-NUL, and the character there is NUL |
| CStrings.StrLenUnique | Sources/PrivarionHook/privarion_hook.c:41 | Any index with those properties equals `strlen` |
| CStrings.StrLenOfCString | Sources/PrivarionHook/privarion_hook.c:414 | A name without NUL has `strlen` equal to its length and reads back as itself |
| CStrings.BoundedCopyReadBack | Sources/PrivarionHook/privarion_hook.c:111-112 | A strncpy to capacity − 1 followed by a terminator fills the field exactly and always ends in NUL. The field then reads back as the source string truncated to capacity − 1 characters |
| CStrings.BoundedCopyKeepsShortString | Sources/PrivarionHook/privarion_hook.c:46-47 | A source string shorter than the capacity survives the bounded copy whole |
| CStrings.StrNCopy | Sources/PrivarionHook/privarion_hook.c:124-128 | `strncpy(dst, src, n)` writes the source string cut at n and NUL padding up to n, and no character beyond n |
| CStrings.BoundedCopy | Sources/PrivarionHook/privarion_hook.c:111-112 | The whole field afterwards equals `Terminated(src, capacity)` |
| CStrings.Terminate | Sources/PrivarionHook/privarion_hook.c:131-135 | Writing the terminator changes only position len − 1 |
| CStrings.WriteCString | Sources/PrivarionHook/privarion_hook.c:416 | `strcpy(buffer + offset, s)` writes s and its NUL at offset and nothing else |
| NameListing.UnpackPack | Sources/PrivarionHook/include/privarion_hook.h:204-210 | Splitting the packed buffer at its NULs gives back exactly the names written, in order |
| NameListing.PackAppend | Sources/PrivarionHook/privarion_hook.c:416-417 | Appending a name to the listing appends its characters and a NUL to the buffer |
| NameListing.ListedFits | Sources/PrivarionHook/privarion_hook.c:412-421 | Everything the listing writes lies strictly below the buffer size |
| NameListing.ListedIsPrefix | Sources/PrivarionHook/privarion_hook.c:410-424 | The names written are the first active names in list order, so there are at most as many as there are active entries |
| NameListing.ListedStopsAtFirstMisfit | Sources/PrivarionHook/privarion_hook.c:415-421 | When an active name is left out, the first one left out would not fit with its terminator |
| NameListing.ListedAllWhenRoom | Sources/PrivarionHook/privarion_hook.c:412-424 | When all active names fit with their terminators, all of them are written |
| NameListing.ActiveNames | Sources/PrivarionHook/privarion_hook.c:389-395 | The active names in list order, no more than there are entries; ActiveCountIsHookedNames relates them to the hooked names |
| NameListing.Pack | Sources/PrivarionHook/privarion_hook.c:416-417 | The back-to-back NUL-terminated layout of a list of names; UnpackPack proves that splitting it at its NULs gives the names back |
| NameListing.Listed | Sources/PrivarionHook/privarion_hook.c:408-424 | The names the buffer walk writes; ListedFits, ListedIsPrefix, ListedStopsAtFirstMisfit and ListedAllWhenRoom state what they are |
| HookRegistry.NextId | Sources/PrivarionHook/privarion_hook.c:244 | `g_next_hook_id++` on a `uint32_t`: the successor modulo 2^32 |
| HookRegistry.InitializeSpec | Sources/PrivarionHook/privarion_hook.c:144-168 | The result is Success or UnsupportedPlatform, and it is Success exactly when the registry is then initialised. A first successful initialisation leaves an empty list and the counter at 1 |
| HookRegistry.CleanupSpec | Sources/PrivarionHook/privarion_hook.c:170-193 | Afterwards the registry is uninitialised and the counter is unchanged; an initialised registry is emptied |
| HookRegistry.InstallSpec | Sources/PrivarionHook/privarion_hook.c:195-252 | A handle is produced exactly on Success. Any failure leaves the registry unchanged. Success adds exactly one entry in front of the old list, and the handle's id is the old counter |
| HookRegistry.RemoveSpec | Sources/PrivarionHook/privarion_hook.c:254-293 | The flag and counter never change. Any failure leaves the registry unchanged. Success shortens the list by exactly one entry |
| HookRegistry.RemoveErrors | Sources/PrivarionHook/privarion_hook.c:255-264 | InvalidParam exactly for a null or invalid handle or an uninitialised registry. NotHooked exactly when the handle is good but no entry carries its name (c:291-292). No other failure code occurs |
| HookRegistry.HookHandle.constructor | Sources/PrivarionHook/include/privarion_hook.h:39-43 | A caller's handle holds exactly the given id, name and valid flag |
| HookRegistry.IndexOf | Sources/PrivarionHook/privarion_hook.c:445-454 | The result is the first entry with the name; None exactly when no entry has it |
| HookRegistry.InitialStateValid | Sources/PrivarionHook/privarion_hook.c:12-16 | The static initial globals satisfy the registry invariant |
| HookRegistry.InitializeProperties | Sources/PrivarionHook/privarion_hook.c:144-168 | The invariant is kept. Initialising again is Success with no effect. An unsupported platform fails exactly when uninitialised, without effect. After Success a further call changes nothing |
| HookRegistry.CleanupProperties | Sources/PrivarionHook/privarion_hook.c:170-193 | Cleanup leaves an empty, uninitialised registry with the counter kept. It is idempotent, and a later initialise starts the ids at 1 |
| HookRegistry.InstallEffect | Sources/PrivarionHook/privarion_hook.c:195-252 | A failing install changes neither registry nor handle. A successful one prepends exactly one active entry with the resolved original, returns the old counter as the id, and bumps the counter |
| HookRegistry.InstallErrors | Sources/PrivarionHook/privarion_hook.c:198-230 | For the corrected install (see Findings), each result code under exactly the condition that produces it, in the order the checks are made. InvalidParam: a null argument, an uninitialised registry, or a name over 255 characters (the added test). AlreadyHooked: the name is registered. FunctionNotFound: the name does not resolve. MemoryError: the allocation fails. Success: every check passes. No other code occurs |
| HookRegistry.InstallPreservesValid | Sources/PrivarionHook/privarion_hook.c:209-241 | Install keeps the invariant; in particular names stay unique |
| HookRegistry.SecondInstallIsRejected | Sources/PrivarionHook/privarion_hook.c:209-213 | After a successful install the name is hooked, and a second install of it is AlreadyHooked and keeps the first replacement |
| HookRegistry.UnlinkProperties | Sources/PrivarionHook/privarion_hook.c:275-279 | Unlinking one entry keeps names unique, removes exactly that name and keeps the order of the rest |
| HookRegistry.RemoveProperties | Sources/PrivarionHook/privarion_hook.c:254-293 | Remove keeps the invariant. It succeeds exactly for a valid handle whose name is registered in an initialised registry, and then unlinks exactly that entry. Otherwise nothing changes |
| HookRegistry.SecondRemoveIsNotHooked | Sources/PrivarionHook/privarion_hook.c:254-293 | The handle stays valid after a remove, so removing again reports NotHooked and changes nothing |
| HookRegistry.InstallThenRemove | Sources/PrivarionHook/privarion_hook.c:195-293 | Removing with the handle from a successful install restores the list exactly; only the counter differs, having moved past the id just handed out |
| HookRegistry.NameSetSize | Sources/PrivarionHook/privarion_hook.c:209-213 | With unique names there is one entry per hooked name |
| HookRegistry.AllActive | Sources/PrivarionHook/privarion_hook.c:237 | When every entry is active, the active names are exactly the entries' names in list order, so their number is the list length |
| HookRegistry.ActiveCountIsHookedNames | Sources/PrivarionHook/privarion_hook.c:385-399 | Under the invariant the number of active entries is the list length and the number of hooked names |
| HookRegistry.Registry.constructor | Sources/PrivarionHook/privarion_hook.c:12-16 | The registry starts uninitialised and empty, with the counter at 1 |
| HookRegistry.Registry.Initialize | Sources/PrivarionHook/privarion_hook.c:144-168 | The new fields and the code are InitializeSpec of the old fields; the invariant is kept |
| HookRegistry.Registry.Cleanup | Sources/PrivarionHook/privarion_hook.c:170-193 | The new fields are CleanupSpec of the old fields; the invariant is kept |
| HookRegistry.Registry.FindByName | Sources/PrivarionHook/privarion_hook.c:445-454 | The walk from the head returns the first entry with the name (IndexOf) |
| HookRegistry.Registry.Install | Sources/PrivarionHook/privarion_hook.c:195-252 | The code, the new fields and the caller's handle are those of InstallSpec; the handle is untouched on failure and the invariant is kept |
| HookRegistry.Registry.Remove | Sources/PrivarionHook/privarion_hook.c:254-293 | The code and the new fields are RemoveSpec of the old fields and the handle; the invariant is kept |
| HookRegistry.Registry.GetOriginal | Sources/PrivarionHook/privarion_hook.c:295-307 | Returns an address exactly for a valid handle whose name is registered, and it is that entry's original. Under the invariant it is the only such entry |
| HookRegistry.Registry.IsHooked | Sources/PrivarionHook/privarion_hook.c:309-319 | True exactly for a non-null name that some entry carries |
| HookRegistry.Registry.ActiveHookCount | Sources/PrivarionHook/privarion_hook.c:385-399 | The count of active entries; under the invariant, the list length and the number of hooked names |
| HookRegistry.Registry.GetActiveHooks | Sources/PrivarionHook/privarion_hook.c:401-428 | Null buffer or size 0: 0 and nothing written. Otherwise the count is the number of names in `Listed(entries, 0, size)`. The buffer then starts with those names packed, stays below the size, and is unchanged beyond them |
| Handlers.SpoofConfig.constructor | Sources/PrivarionHook/privarion_hook.c:19 | The configuration store starts zero-filled, with every buffer at its capacity |
| Handlers.UtsName.constructor | Sources/PrivarionHook/privarion_hook.c:51-71 | Five distinct fields of the given capacity |
| Handlers.HookedGetuid | Sources/PrivarionHook/privarion_hook.c:29-32 | The configured user id; Api.InstallGetuidHook proves it is the id last configured |
| Handlers.HookedGetgid | Sources/PrivarionHook/privarion_hook.c:34-37 | The configured group id; Api.InstallGetgidHook proves it is the id last configured |
| Handlers.HookedGethostname | Sources/PrivarionHook/privarion_hook.c:39-49 | −1 with nothing written exactly when `len` ≤ the hostname's length. Otherwise 0: the first len characters are the bounded copy, the caller reads back the whole hostname, and nothing beyond len changes |
| Handlers.HookedUname | Sources/PrivarionHook/privarion_hook.c:51-71 | −1 exactly for a null record. Otherwise 0, and each field is the bounded copy of its configured string, with the node name taken from the hostname |
| Api.InstallGetuidHook | Sources/PrivarionHook/privarion_hook.c:75-88 | Null config or handle: InvalidParam and nothing changes. Otherwise `hooked_getuid` returns the configured user id, and the registry and handle are as after installing "getuid" |
| Api.InstallGetgidHook | Sources/PrivarionHook/privarion_hook.c:90-103 | The same for the group id and "getgid" |
| Api.InstallGethostnameHook | Sources/PrivarionHook/privarion_hook.c:105-116 | Null config or handle: nothing changes. Otherwise the stored hostname is the bounded copy of the configured one, even when the install then fails, and "gethostname" is installed |
| Api.StoreUnameStrings | Sources/PrivarionHook/privarion_hook.c:123-135 | Each of the five buffers is the bounded copy of its configured string, and the store stays valid |
| Api.InstallUnameHook | Sources/PrivarionHook/privarion_hook.c:118-140 | Null config or handle: nothing changes. Otherwise all five buffers are the bounded copies, and "uname" is installed |
| Api.HookUname | Sources/PrivarionHook/privarion_hook.c:323-325 | The same transition as installing "uname" with the given replacement |
| Api.HookGethostname | Sources/PrivarionHook/privarion_hook.c:327-329 | The same transition as installing "gethostname" |
| Api.HookGetuid | Sources/PrivarionHook/privarion_hook.c:331-333 | The same transition as installing "getuid" |
| Api.HookGetgid | Sources/PrivarionHook/privarion_hook.c:335-337 | The same transition as installing "getgid" |
| InstallAsWritten.Truncate | Sources/PrivarionHook/privarion_hook.c:233-234 | What the 256-byte field reads back after the bounded copy of the name: a prefix of the name of at most 255 characters, and the whole name when it fits |
| InstallAsWritten.InstallAsWritten | Sources/PrivarionHook/privarion_hook.c:195-252 | As written, a failure changes nothing. A success adds exactly one entry in front, and both the entry and the handle carry the truncated name
| InstallAsWritten.AgreesOnNamesThatFit | Sources/PrivarionHook/privarion_hook.c:195-252 | For every name of at most 255 characters, the code as written and the corrected install agree |
| InstallAsWritten.OverlongNameInstalledTwice | Sources/PrivarionHook/privarion_hook.c:209-234 | As written, a resolvable 256-character name installs twice, leaving two entries with the same name. After the first install the name is not hooked |
| InstallAsWritten.CorrectedRejectsOverlongName | Sources/PrivarionHook/privarion_hook.c:198-200 | The corrected install rejects that name with InvalidParam and keeps names unique |

## Left out

- The mutex is not modelled: every operation is one atomic step. The gethostname and uname installers write the store without taking the lock, and concurrent readers of that store are not modelled either.
- `dlsym(RTLD_DEFAULT, name)` is the `symbols` map parameter; the dynamic linker is not modelled.
- `malloc` failure is the `allocFails` parameter, and `free` in `ph_cleanup`, `ph_remove_hook` and `ph_free_hook_entry` is not modelled: the sequence simply drops entries.
- `ph_is_platform_supported` is a compile-time test (`__APPLE__`). It is the `platformSupported` parameter of `Initialize`.
- The debug logging (`ph_log_debug`, `ph_set_debug_logging`) only writes to stderr, so it is left out.
- `ph_get_version` uses `snprintf` into a static buffer. The model gives the string it produces, not the buffer.
- `ph_find_hook_by_id` always returns NULL and nothing calls it, so it is left out.
- No function is actually redirected: the library only records entries. The handlers are modelled as functions a redirected call would reach.
- The list is a `seq<Entry>` with the head at index 0, not a linked list of heap nodes. `Registry.Remove` unlinks by position rather than through the prev/current pointer walk in the source.
- HookRegistry.Registry.ActiveHookCount: returns a `nat`, not a wrapping `uint32_t`. The two differ only with 2^32 live entries.
- HookRegistry.Registry.GetActiveHooks: returns a `nat`, not a `uint32_t`, for the same reason.
- Hook ids are not promised to be unique. The counter restarts at 1 on every `ph_initialize` after a cleanup and wraps after 2^32 installs, and the model reproduces both. No lemma states anything about ids beyond the next value of the counter.
- Names in entries and handles are their C-string contents, not 256-byte arrays. What follows the terminator in those fields is not modelled.
- `struct utsname` field capacities are left to the caller, because they are platform-dependent. The model requires at least one character per field.
- HookRegistry.Registry.Install: implements the corrected behaviour, which rejects names longer than 255 characters with InvalidParam. The code as written accepts them; it is `InstallAsWritten.InstallAsWritten` (see Findings).
- HookRegistry.InstallSpec: the same corrected length test; the code as written has no length check.
- HookRegistry.InstallErrors: describes the corrected install, so its InvalidParam condition includes the overlong name, which the code as written accepts.

## Findings

| source | as written | input that shows it | evidently intended | confidence | as-written member | corrected member |
|---|---|---|---|---|---|---|
| Sources/PrivarionHook/privarion_hook.c:209-252 | The duplicate check and `dlsym` use the caller's full name, but the entry stores only its first 255 characters | Initialise, then install a resolvable 256-character name twice: both succeed. The list then holds two entries with the same name, and `ph_is_hooked` on the name is false | At most one entry per name, and a successful install makes the name hooked | not executed | InstallAsWritten.OverlongNameInstalledTwice | InstallAsWritten.CorrectedRejectsOverlongName |
