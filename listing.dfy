/** The layout `ph_get_active_hooks` gives a caller's buffer: the names of
    the active entries, in list order, each followed by a NUL, as many as
    fit. */
module NameListing {
  import opened HookTypes
  import opened CStrings

  /** The names of the active entries, in list order. */
  function ActiveNames(es: seq<Entry>): (r: seq<CString>)
    ensures |r| <= |es|
  {
    if es == [] then []
    else if es[0].isActive then [es[0].functionName] + ActiveNames(es[1..])
    else ActiveNames(es[1..])
  }

  /** Consecutive NUL-terminated names. */
  function Pack(names: seq<CString>): seq<char>
  {
    if names == [] then [] else names[0] + ['\0'] + Pack(names[1..])
  }

  /** Split a buffer back into the strings its NULs terminate; a final run
      without a terminator counts as one more string. */
  function Unpack(s: seq<char>): seq<seq<char>>
    decreases |s|
  {
    if s == [] then []
    else
      var n := StrLen(s);
      if n == |s| then [s] else [s[..n]] + Unpack(s[n + 1..])
  }

  lemma {:induction false} PackAppend(names: seq<CString>, n: CString)
    ensures Pack(names + [n]) == Pack(names) + n + ['\0']
  {
    if names == [] {
      assert names + [n] == [n];
    } else {
      assert (names + [n])[1..] == names[1..] + [n];
      PackAppend(names[1..], n);
    }
  }

  /** Reading the NUL-separated names back yields exactly the names
      written. */
  lemma {:induction false} UnpackPack(names: seq<CString>)
    ensures Unpack(Pack(names)) == names
  {
    if names != [] {
      var n, rest := names[0], Pack(names[1..]);
      var s := n + ['\0'] + rest;
      StrLenUnique(s, |n|);
      assert s[..|n|] == n;
      assert s[|n| + 1..] == rest;
      UnpackPack(names[1..]);
    }
  }

  /** The names `ph_get_active_hooks` writes when it walks `es` starting at
      `offset` in a buffer of `size` characters. The walk stops when
      `offset` reaches `size - 1` or at the first active name that does
      not fit with its terminator; inactive entries are skipped. */
  function Listed(es: seq<Entry>, offset: nat, size: nat): seq<CString>
    decreases |es|
  {
    if es == [] || offset + 1 >= size then []
    else if !es[0].isActive then Listed(es[1..], offset, size)
    else if offset + |es[0].functionName| + 1 < size then
      [es[0].functionName] + Listed(es[1..], offset + |es[0].functionName| + 1, size)
    else []
  }

  /** Every character written lies strictly below `size`, so the last
      position of the buffer is never touched. */
  lemma {:induction false} ListedFits(es: seq<Entry>, offset: nat, size: nat)
    requires offset < size
    ensures offset + |Pack(Listed(es, offset, size))| < size
  {
    if es == [] || offset + 1 >= size {
    } else if !es[0].isActive {
      ListedFits(es[1..], offset, size);
    } else if offset + |es[0].functionName| + 1 < size {
      var n := es[0].functionName;
      ListedFits(es[1..], offset + |n| + 1, size);
      assert Listed(es, offset, size) == [n] + Listed(es[1..], offset + |n| + 1, size);
      assert ([n] + Listed(es[1..], offset + |n| + 1, size))[1..] == Listed(es[1..], offset + |n| + 1, size);
    }
  }

  /** The names written are the first active names, in order: a prefix of
      ActiveNames, so there are at most as many as there are active
      entries. */
  lemma {:induction false} ListedIsPrefix(es: seq<Entry>, offset: nat, size: nat)
    ensures Listed(es, offset, size) <= ActiveNames(es)
    ensures |Listed(es, offset, size)| <= |ActiveNames(es)|
  {
    if es == [] || offset + 1 >= size {
    } else if !es[0].isActive {
      ListedIsPrefix(es[1..], offset, size);
    } else if offset + |es[0].functionName| + 1 < size {
      ListedIsPrefix(es[1..], offset + |es[0].functionName| + 1, size);
    }
  }

  /** The listing stops only at a name that does not fit: when some active
      name is left out, the first one left out would overrun the buffer
      together with its terminator. */
  lemma {:induction false} ListedStopsAtFirstMisfit(es: seq<Entry>, offset: nat, size: nat)
    requires offset < size
    requires |Listed(es, offset, size)| < |ActiveNames(es)|
    ensures offset + |Pack(Listed(es, offset, size))| + |ActiveNames(es)[|Listed(es, offset, size)|]| + 1 >= size
  {
    if es == [] || offset + 1 >= size {
    } else if !es[0].isActive {
      ListedStopsAtFirstMisfit(es[1..], offset, size);
    } else if offset + |es[0].functionName| + 1 < size {
      var n := es[0].functionName;
      var rest := Listed(es[1..], offset + |n| + 1, size);
      assert Listed(es, offset, size) == [n] + rest;
      assert ([n] + rest)[1..] == rest;
      ListedStopsAtFirstMisfit(es[1..], offset + |n| + 1, size);
    }
  }

  /** Conversely, when all active names fit, all of them are written. */
  lemma {:induction false} ListedAllWhenRoom(es: seq<Entry>, offset: nat, size: nat)
    requires offset + |Pack(ActiveNames(es))| < size
    ensures Listed(es, offset, size) == ActiveNames(es)
  {
    if es == [] {
    } else if !es[0].isActive {
      ListedAllWhenRoom(es[1..], offset, size);
    } else {
      var n := es[0].functionName;
      assert ActiveNames(es) == [n] + ActiveNames(es[1..]);
      assert ([n] + ActiveNames(es[1..]))[1..] == ActiveNames(es[1..]);
      ListedAllWhenRoom(es[1..], offset + |n| + 1, size);
    }
  }
}
