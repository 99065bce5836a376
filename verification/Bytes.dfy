/**
 Bytes, fixed-width little-endian integers and NUL-terminated fields, as the
 kernel's own C library treats them (src/stdlib/string.c).
 */
module Bytes {
  type Byte = x: int | 0 <= x < 256

  const U16: int := 0x1_0000
  const U32: int := 0x1_0000_0000

  function Zeros(n: nat): (z: seq<Byte>)
    ensures |z| == n && forall i | 0 <= i < n :: z[i] == 0
  {
    seq(n, _ => 0)
  }

  function Le16(x: int): (b: seq<Byte>)
    requires 0 <= x < U16
    ensures |b| == 2
  {
    [x % 256, x / 256]
  }

  function FromLe16(b: seq<Byte>): (x: int)
    requires |b| == 2
    ensures 0 <= x < U16
  {
    b[0] as int + 256 * (b[1] as int)
  }

  function Le32(x: int): (b: seq<Byte>)
    requires 0 <= x < U32
    ensures |b| == 4
  {
    [x % 256, x / 256 % 256, x / 65536 % 256, x / 16777216]
  }

  function FromLe32(b: seq<Byte>): (x: int)
    requires |b| == 4
    ensures 0 <= x < U32
  {
    b[0] as int + 256 * (b[1] as int) + 65536 * (b[2] as int) + 16777216 * (b[3] as int)
  }

  lemma Le16RoundTrip(x: int)
    requires 0 <= x < U16
    ensures FromLe16(Le16(x)) == x
  {}

  lemma FromLe16RoundTrip(b: seq<Byte>)
    requires |b| == 2
    ensures Le16(FromLe16(b)) == b
  {
    var b0, b1 := b[0] as int, b[1] as int;
    assert (b0 + 256 * b1) % 256 == b0 && (b0 + 256 * b1) / 256 == b1;
  }

  lemma Le32RoundTrip(x: int)
    requires 0 <= x < U32
    ensures FromLe32(Le32(x)) == x
  {
    assert x / 65536 == x / 256 / 256 && x / 16777216 == x / 65536 / 256;
  }

  lemma FromLe32RoundTrip(b: seq<Byte>)
    requires |b| == 4
    ensures Le32(FromLe32(b)) == b
  {
    var b0, b1, b2, b3 := b[0] as int, b[1] as int, b[2] as int, b[3] as int;
    var x := FromLe32(b);
    var y := b1 + 256 * b2 + 65536 * b3;
    var z := b2 + 256 * b3;
    assert x == b0 + 256 * y && y == b1 + 256 * z;
    assert x % 256 == b0 && x / 256 == y;
    assert y % 256 == b1 && y / 256 == z;
    assert z % 256 == b2 && z / 256 == b3;
    assert x / 65536 == x / 256 / 256 && x / 16777216 == x / 65536 / 256;
  }

  // The bytes of a field up to, and without, its first NUL.
  function CStr(s: seq<Byte>): (r: seq<Byte>)
    ensures |r| <= |s| && r == s[..|r|] && 0 !in r
    ensures |r| < |s| ==> s[|r|] == 0
  {
    if s == [] || s[0] == 0 then [] else [s[0]] + CStr(s[1..])
  }

  // A field is canonical when nothing but NUL follows its first NUL.
  predicate Canonical(s: seq<Byte>) {
    forall i, j | 0 <= i < j < |s| && s[i] == 0 :: s[j] == 0
  }

  // What copyStringWithLength leaves in dst: the bytes after the NUL survive.
  function CopyCStr(dst: seq<Byte>, src: seq<Byte>): (r: seq<Byte>)
    requires |dst| == |src|
    ensures |r| == |dst|
  {
    CStr(src) + dst[|CStr(src)|..]
  }

  // Over a zeroed field the copy is the source itself, if that is canonical.
  lemma CopyIntoZeros(src: seq<Byte>)
    requires Canonical(src)
    ensures CopyCStr(Zeros(|src|), src) == src
  {
    var n := |CStr(src)|;
    forall i | n <= i < |src| ensures src[i] == 0 {
      assert src[n] == 0;
    }
  }

  // On canonical fields comparing C strings and comparing bytes are the same.
  lemma CanonicalAgree(a: seq<Byte>, b: seq<Byte>)
    requires |a| == |b| && Canonical(a) && Canonical(b)
    ensures CStr(a) == CStr(b) <==> a == b
  {
    if CStr(a) == CStr(b) {
      CopyIntoZeros(a);
      CopyIntoZeros(b);
    }
  }

  // A prefix without NUL that is followed by a NUL, or by nothing, is the C string.
  lemma {:induction false} CStrIs(s: seq<Byte>, n: nat)
    requires n <= |s| && 0 !in s[..n]
    requires n < |s| ==> s[n] == 0
    ensures CStr(s) == s[..n]
  {
    if n == 0 {
    } else {
      assert s[..n] == [s[0]] + s[1..][..n - 1];
      CStrIs(s[1..], n - 1);
    }
  }

  // Bounded comparison (string.c strcmp): 0 exactly when the C strings agree.
  method StrCmp(a: seq<Byte>, b: seq<Byte>) returns (r: int)
    requires |a| == |b|
    ensures r == 0 <==> CStr(a) == CStr(b)
  {
    var i := 0;
    while i < |a| && a[i] != 0 && b[i] != 0
      invariant i <= |a|
      invariant forall k | 0 <= k < i :: a[k] == b[k] && a[k] != 0
    {
      if a[i] != b[i] {
        return 1;
      }
      i := i + 1;
    }
    if i == |a| || (a[i] == 0 && b[i] == 0) {
      CStrIs(a, i);
      CStrIs(b, i);
      return 0;
    } else {
      if a[i] == 0 {
        CStrIs(a, i);
      } else {
        CStrIs(b, i);
      }
      return -1;
    }
  }

  // memcmp: byte-wise, the first difference decides the sign.
  method MemCmp(a: seq<Byte>, b: seq<Byte>) returns (r: int)
    requires |a| == |b|
    ensures r == 0 <==> a == b
    ensures r != 0 ==> exists i | 0 <= i < |a| :: a[..i] == b[..i] && a[i] != b[i] && r == if a[i] < b[i] then -1 else 1
  {
    for i := 0 to |a|
      invariant a[..i] == b[..i]
    {
      if a[i] < b[i] {
        return -1;
      } else if a[i] > b[i] {
        return 1;
      }
    }
    return 0;
  }

  // copyStringWithLength: stops at the NUL and does not pad.
  method CopyStringWithLength(dst: seq<Byte>, src: seq<Byte>) returns (r: seq<Byte>)
    requires |dst| == |src|
    ensures r == CopyCStr(dst, src)
    ensures r[..|CStr(src)|] == CStr(src) && r[|CStr(src)|..] == dst[|CStr(src)|..]
  {
    r := dst;
    var i := 0;
    while i < |src| && src[i] != 0
      invariant i <= |src| == |r|
      invariant forall k | 0 <= k < i :: src[k] != 0
      invariant forall k | 0 <= k < |r| :: r[k] == if k < i then src[k] else dst[k]
    {
      r := r[i := src[i]];
      i := i + 1;
    }
    CStrIs(src, i);
  }
}
