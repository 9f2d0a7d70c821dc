/** NUL-terminated character buffers: what `strlen` measures and what a
    bounded `strncpy` followed by an explicit terminator leaves in a
    fixed-capacity field. */
module CStrings {

  function Min(a: nat, b: nat): nat { if a <= b then a else b }

  /** `strlen`: the index of the first NUL, or the whole length of a
      buffer that holds none. */
  function StrLen(s: seq<char>): (n: nat)
    ensures n <= |s|
    ensures forall k :: 0 <= k < n ==> s[k] != '\0'
    ensures n < |s| ==> s[n] == '\0'
  {
    if s == [] || s[0] == '\0' then 0 else 1 + StrLen(s[1..])
  }

  /** The C string a buffer holds. */
  function CStr(s: seq<char>): seq<char>
  {
    s[..StrLen(s)]
  }

  /** The first NUL is the only index with the three properties that
      StrLen promises. */
  lemma {:induction false} StrLenUnique(s: seq<char>, n: nat)
    requires n <= |s|
    requires forall k :: 0 <= k < n ==> s[k] != '\0'
    requires n < |s| ==> s[n] == '\0'
    ensures StrLen(s) == n
  {
    if n > 0 {
      StrLenUnique(s[1..], n - 1);
    }
  }

  /** A string without NUL is its own C string. */
  lemma StrLenOfCString(s: seq<char>)
    requires '\0' !in s
    ensures StrLen(s) == |s| && CStr(s) == s
  {
    StrLenUnique(s, |s|);
  }

  /** The `n` characters `strncpy(dst, src, n)` writes: the C string of
      `src` cut at `n`, then NUL padding up to `n`. */
  function StrNCopied(src: seq<char>, n: nat): (r: seq<char>)
  {
    seq(n, i requires 0 <= i < n => if i < StrLen(src) then src[i] else '\0')
  }

  /** A field of capacity `cap` after `strncpy(f, src, cap - 1)` and
      `f[cap - 1] = '\0'`. */
  function Terminated(src: seq<char>, cap: nat): seq<char>
    requires cap >= 1
  {
    StrNCopied(src, cap - 1) + ['\0']
  }

  /** A bounded copy fills exactly its capacity, always ends in NUL, and
      reads back as the source string truncated to `cap - 1` characters. */
  lemma BoundedCopyReadBack(src: seq<char>, cap: nat)
    requires cap >= 1
    ensures |Terminated(src, cap)| == cap
    ensures Terminated(src, cap)[cap - 1] == '\0'
    ensures StrLen(Terminated(src, cap)) == Min(StrLen(src), cap - 1)
    ensures CStr(Terminated(src, cap)) == CStr(src)[..Min(StrLen(src), cap - 1)]
  {
    var t := Terminated(src, cap);
    var m := Min(StrLen(src), cap - 1);
    StrLenUnique(t, m);
  }

  /** When the source string is shorter than the capacity, the field
      holds all of it. */
  lemma BoundedCopyKeepsShortString(src: seq<char>, cap: nat)
    requires StrLen(src) < cap
    ensures CStr(Terminated(src, cap)) == CStr(src)
  {
    BoundedCopyReadBack(src, cap);
  }

  /** `strncpy(dst, src, n)` into a buffer of at least `n` characters. */
  method StrNCopy(dst: array<char>, src: seq<char>, n: nat)
    requires n <= dst.Length
    modifies dst
    ensures dst[..n] == StrNCopied(src, n)
    ensures dst[n..] == old(dst[n..])
  {
    var len := StrLen(src);
    for i := 0 to n
      invariant forall k :: 0 <= k < i ==> dst[k] == if k < len then src[k] else '\0'
      invariant forall k :: i <= k < dst.Length ==> dst[k] == old(dst[k])
    {
      dst[i] := if i < len then src[i] else '\0';
    }
  }

  /** `strncpy(dst, src, sizeof dst - 1)` followed by the explicit
      terminator `dst[sizeof dst - 1] = '\0'`. */
  method BoundedCopy(dst: array<char>, src: seq<char>)
    requires dst.Length >= 1
    modifies dst
    ensures dst[..] == Terminated(src, dst.Length)
  {
    StrNCopy(dst, src, dst.Length - 1);
    Terminate(dst, dst.Length);
  }

  /** `dst[len - 1] = '\0'` after a copy of `len - 1` characters. */
  method Terminate(dst: array<char>, len: nat)
    requires 1 <= len <= dst.Length
    modifies dst
    ensures dst[..len] == old(dst[..len - 1]) + ['\0']
    ensures dst[len..] == old(dst[len..])
  {
    dst[len - 1] := '\0';
    assert dst[..len] == dst[..len - 1] + [dst[len - 1]];
  }

  /** `strcpy(buffer + offset, s)`: the characters of `s`, then its NUL. */
  method WriteCString(buffer: array<char>, offset: nat, s: seq<char>)
    requires '\0' !in s
    requires offset + |s| + 1 <= buffer.Length
    modifies buffer
    ensures buffer[..offset] == old(buffer[..offset])
    ensures buffer[offset..offset + |s| + 1] == s + ['\0']
    ensures buffer[offset + |s| + 1..] == old(buffer[offset + |s| + 1..])
  {
    for i := 0 to |s|
      invariant forall k :: 0 <= k < offset ==> buffer[k] == old(buffer[k])
      invariant forall k :: 0 <= k < i ==> buffer[offset + k] == s[k]
      invariant forall k :: offset + i <= k < buffer.Length ==> buffer[k] == old(buffer[k])
    {
      buffer[offset + i] := s[i];
    }
    buffer[offset + |s|] := '\0';
    assert buffer[offset..offset + |s| + 1] == s + ['\0'];
  }
}
