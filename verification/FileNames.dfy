/**
 The last part of a path as a name and an extension (src/usermode/util.c:144-174).
 */
module FileNames {
  import opened Bytes
  import opened Splitting
  import opened Forest

  const DOT: Byte := 46

  // The last dot in front of position n, or -1.
  function LastDot(p: seq<Byte>, n: nat): (i: int)
    requires n <= |p|
    ensures -1 <= i < n && (i >= 0 ==> p[i] == DOT) && forall k | i < k < n :: p[k] != DOT
  {
    if n == 0 || p[n - 1] == DOT then n - 1 else LastDot(p, n - 1)
  }

  // What is in front of the first dot, and what is behind the last one.
  function Base(p: seq<Byte>): seq<Byte> {
    p[..RunLength(p, DOT)]
  }

  function Extension(p: seq<Byte>): seq<Byte> {
    if LastDot(p, |p|) == -1 then [] else p[LastDot(p, |p|) + 1..]
  }

  // The buffers hold eight bytes, one of them for the terminator, and three.
  predicate NameFits(p: seq<Byte>) {
    0 !in p && |Base(p)| < 8 && |Extension(p)| <= 3
  }

  function KeyOfPart(p: seq<Byte>): (k: Key)
    requires NameFits(p)
    ensures |k.name| == 8 && |k.ext| == 3 && Canonical(k.name) && Canonical(k.ext)
    ensures k.ext[0] != 0 <==> Extension(p) != []
  {
    Key(Base(p) + Zeros(8 - |Base(p)|), Extension(p) + Zeros(3 - |Extension(p)|))
  }

  // A name written with its extension is taken apart into the two again.
  lemma KeyRoundTrip(base: seq<Byte>, ext: seq<Byte>)
    requires 0 !in base && 0 !in ext && Solid(base, DOT) && Solid(ext, DOT) && |base| < 8 && 0 < |ext| <= 3
    ensures NameFits(base + [DOT] + ext)
    ensures KeyOfPart(base + [DOT] + ext) == Key(base + Zeros(8 - |base|), ext + Zeros(3 - |ext|))
  {
    var p := base + [DOT] + ext;
    assert p[..|base|] == base && p[|base| + 1..] == ext;
    RunLengthIs(p, |base|, DOT);
    assert LastDot(p, |p|) == |base| by {
      assert p[|base|] == DOT && forall k | |base| < k < |p| :: p[k] == ext[k - |base| - 1];
    }
  }

  // With more dots, what lies between the first and the last one is dropped.
  lemma KeyDropsMiddle(base: seq<Byte>, middle: seq<Byte>, ext: seq<Byte>)
    requires 0 !in base && 0 !in middle && 0 !in ext && Solid(base, DOT) && Solid(ext, DOT) && |base| < 8 && |ext| <= 3
    ensures NameFits(base + [DOT] + middle + [DOT] + ext)
    ensures KeyOfPart(base + [DOT] + middle + [DOT] + ext) == Key(base + Zeros(8 - |base|), ext + Zeros(3 - |ext|))
  {
    var p, n := base + [DOT] + middle + [DOT] + ext, |base| + 1 + |middle|;
    assert p[..|base|] == base && p[n + 1..] == ext && p[n] == DOT;
    RunLengthIs(p, |base|, DOT);
    assert LastDot(p, |p|) == n by {
      assert forall k | n < k < |p| :: p[k] == ext[k - n - 1];
    }
  }

  // A name without a dot has no extension, and is taken for a folder.
  lemma KeyOfPlain(base: seq<Byte>)
    requires 0 !in base && Solid(base, DOT) && |base| < 8
    ensures NameFits(base) && KeyOfPart(base) == Key(base + Zeros(8 - |base|), Zeros(3))
  {
    assert base[..|base|] == base;
    RunLengthIs(base, |base|, DOT);
    assert LastDot(base, |base|) == -1;
  }

  // extract_filename: does not pad, and terminates.
  method ExtractFilename(filename: seq<Byte>, basename: array<Byte>)
    requires |Base(filename)| < basename.Length
    modifies basename
    ensures basename[..] == Base(filename) + [0] + old(basename[..])[|Base(filename)| + 1..]
  {
    var j := 0;
    while j < |filename| && filename[j] != DOT
      invariant j <= |Base(filename)| && j <= |filename|
      invariant forall k | 0 <= k < basename.Length :: basename[k] == if k < j then filename[k] else old(basename[k])
    {
      basename[j] := filename[j];
      j := j + 1;
    }
    assert j == |Base(filename)|;
    basename[j] := 0;
  }

  // extract_file_extension: does not pad, and terminates only when there is no dot.
  method ExtractFileExtension(filename: seq<Byte>, extension: array<Byte>)
    requires extension.Length > 0 && extension.Length >= |Extension(filename)|
    modifies extension
    ensures extension[..] == if LastDot(filename, |filename|) == -1 then [0] + old(extension[..])[1..]
                             else Extension(filename) + old(extension[..])[|Extension(filename)|..]
  {
    var i := |filename| - 1;
    while i >= 0 && filename[i] != DOT
      invariant -1 <= i < |filename| && LastDot(filename, i + 1) == LastDot(filename, |filename|)
    {
      i := i - 1;
    }
    if i == -1 {
      extension[0] := 0;
    } else {
      CopyBehind(filename, i, extension);
    }
  }

  method CopyBehind(filename: seq<Byte>, i: nat, extension: array<Byte>)
    requires i < |filename| <= i + 1 + extension.Length
    modifies extension
    ensures extension[..] == filename[i + 1..] + old(extension[..])[|filename| - i - 1..]
  {
    for z := 0 to |filename| - i - 1
      invariant forall k | 0 <= k < extension.Length ::
                  extension[k] == if k < z then filename[i + 1 + k] else old(extension[k])
    {
      extension[z] := filename[i + 1 + z];
    }
  }

  // Both, into the zeroed buffers of cp and mv.
  method ExtractKey(filename: seq<Byte>) returns (k: Key)
    requires NameFits(filename)
    ensures k == KeyOfPart(filename)
  {
    var name, ext := new Byte[8](_ => 0), new Byte[3](_ => 0);
    ExtractFilename(filename, name);
    ExtractFileExtension(filename, ext);
    k := Key(name[..], ext[..]);
  }
}
