/**
 Copying and moving by path, as compositions of read, write and delete
 (src/usermode/cp.c:38-148, src/usermode/mv.c:98-226).
 */
module Transfer {
  import opened Bytes
  import opened Splitting
  import opened Layout
  import opened Fat
  import opened Forest
  import opened Refinement
  import opened Volume
  import opened Driver
  import opened Paths
  import opened ShellState
  import opened FileNames

  // A name with an extension is taken for a file, any other for a folder.
  predicate IsFileKey(k: Key)
    requires |k.ext| == 3
  {
    k.ext[0] != 0
  }

  predicate KeyOk(k: Key) {
    |k.name| == 8 && |k.ext| == 3 && Canonical(k.name) && Canonical(k.ext)
  }

  function RequestFor(k: Key, dir: nat): (r: Request)
    requires KeyOk(k)
    ensures NameOk(r) && IsFolderRequest(r) == !IsFileKey(k) && KeyReq(r) == k
  {
    Request(k.name, k.ext, dir, if IsFileKey(k) then CLUSTER_SIZE else 0)
  }

  // The first system call: it must succeed for anything else to happen.
  function FetchCode(f: FileSystem, r: Request): int
    requires NameOk(r)
  {
    if IsFolderRequest(r) then ReadDirectoryCode(f, r) else ReadCode(f, r)
  }

  lemma OneCluster(f: FileSystem, r: Request)
    requires Inv(f) && NameOk(r) && ReadCode(f, r) == 0 && r.bufferSize == CLUSTER_SIZE
    ensures |ReadResult(f, r)| == 1
  {
    HeaderFirst(f, r);
    DeleteFinds(f, r);
    SlotInfo(f, (r.parent, FirstMatch(f.tabs[r.parent], 2, KeyReq(r))));
  }

  // What the buffer of one cluster holds after the first call.
  ghost function Fetched(f: FileSystem, r: Request): (data: seq<Byte>)
    requires Inv(f) && NameOk(r) && FetchCode(f, r) == 0 && (!IsFolderRequest(r) ==> r.bufferSize == CLUSTER_SIZE)
    ensures |data| == CLUSTER_SIZE
  {
    if IsFolderRequest(r) then ReadDirectoryCodes(f, r); EncodeTable(f.tabs[ReadDirectoryTarget(f, r)])
    else OneCluster(f, r); ReadResult(f, r)[0]
  }

  ghost function CopyNext(f: FileSystem, k: Key, src: nat, dst: nat): FileSystem
    requires Inv(f) && KeyOk(k)
  {
    var r := RequestFor(k, src);
    if FetchCode(f, r) != 0 then f else WriteNext(f, RequestFor(k, dst), Fetched(f, r))
  }

  ghost function MoveNext(f: FileSystem, k: Key, src: nat, dst: nat): FileSystem
    requires Inv(f) && KeyOk(k)
  {
    var r := RequestFor(k, src);
    if FetchCode(f, r) != 0 || WriteCode(f, RequestFor(k, dst)) != 0 then f
    else
      WriteRefines(f, RequestFor(k, dst), Fetched(f, r));
      DeleteNext(CopyNext(f, k, src, dst), r)
  }

  // ---------- What a copy and a move do to the tree ----------

  // The source is a file that fits one cluster and the target has room for it.
  ghost predicate Transferable(f: FileSystem, k: Key, src: nat, dst: nat)
    requires Inv(f) && KeyOk(k)
  {
    && src in f.tabs && (src, k) in TreeOf(f) && TreeOf(f)[(src, k)].File? && TreeOf(f)[(src, k)].size <= CLUSTER_SIZE
    && WriteCode(f, RequestFor(k, dst)) == 0
  }

  lemma FetchFile(f: FileSystem, k: Key, src: nat)
    requires Inv(f) && KeyOk(k) && IsFileKey(k)
    ensures var r := RequestFor(k, src);
            FetchCode(f, r) == 0 <==>
            src in f.tabs && (src, k) in TreeOf(f) && TreeOf(f)[(src, k)].File?
                && TreeOf(f)[(src, k)].size <= CLUSTER_SIZE
    ensures var r := RequestFor(k, src);
            FetchCode(f, r) == 0 ==> TreeOf(f)[(src, k)].content == [Fetched(f, r)]
  {
    hide Inv, TreeOf;
    var r := RequestFor(k, src);
    ReadCodes(f, r);
    if FetchCode(f, r) == 0 {
      OneCluster(f, r);
    }
  }

  // A copied file reads as the old content padded to the cluster; the source stays.
  lemma CopyFile(f: FileSystem, k: Key, src: nat, dst: nat)
    requires Inv(f) && KeyOk(k) && IsFileKey(k)
    ensures var g := CopyNext(f, k, src, dst);
            && Inv(g)
            && if Transferable(f, k, src, dst)
               then src != dst && (dst, k) !in TreeOf(f)
                    && TreeOf(g) == TreeOf(f)[(dst, k) := File(CLUSTER_SIZE, TreeOf(f)[(src, k)].content)]
                    && FreeCount(g.fat) == FreeCount(f.fat) - 1
               else g == f
  {
    hide Inv, TreeOf;
    FetchFile(f, k, src);
    var r, q := RequestFor(k, src), RequestFor(k, dst);
    if FetchCode(f, r) == 0 {
      WriteRefines(f, q, Fetched(f, r));
      if WriteCode(f, q) == 0 {
        OneBlock(Fetched(f, r), SizeOf(q));
        WriteTakes(f, q, Fetched(f, r));
      }
    }
  }

  // A move puts the file under the target and removes it from the source, or changes nothing.
  lemma MoveFile(f: FileSystem, k: Key, src: nat, dst: nat)
    requires Inv(f) && KeyOk(k) && IsFileKey(k)
    ensures var g := MoveNext(f, k, src, dst);
            && Inv(g)
            && if Transferable(f, k, src, dst)
               then src != dst && (dst, k) !in TreeOf(f)
                    && TreeOf(g) == TreeOf(f)[(dst, k) := File(CLUSTER_SIZE, TreeOf(f)[(src, k)].content)] - {(src, k)}
                    && FreeCount(g.fat) == FreeCount(f.fat)
               else g == f
  {
    hide Inv, TreeOf, CopyNext;
    CopyFile(f, k, src, dst);
    FetchFile(f, k, src);
    var r, h := RequestFor(k, src), CopyNext(f, k, src, dst);
    if Transferable(f, k, src, dst) {
      DeleteCodes(h, r);
      DeleteRefines(h, r);
      DeleteReturns(h, r);
    }
  }

  lemma ChildrenOf(t: Tree, key: (nat, Key), v: Obj, d: nat)
    ensures HasChildren(t[key := v], d) <==> HasChildren(t, d) || key.0 == d
  {
    if HasChildren(t, d) {
      var k :| (d, k) in t;
      assert (d, k) in t[key := v];
    }
    if key.0 == d {
      assert (d, key.1) in t[key := v];
    }
  }

  // READ_DIRECTORY finds a folder of that name, or else the header of the directory itself,
  // and the target takes the name.
  ghost predicate FolderMoves(f: FileSystem, k: Key, src: nat, dst: nat)
    requires Inv(f) && KeyOk(k)
  {
    && src in f.tabs
    && (IsHeaderName(f.tabs[src], k) || ((src, k) in TreeOf(f) && TreeOf(f)[(src, k)].Folder?))
    && WriteCode(f, RequestFor(k, dst)) == 0
  }

  lemma FetchFolder(f: FileSystem, k: Key, src: nat, dst: nat)
    requires Inv(f) && KeyOk(k) && !IsFileKey(k)
    ensures FolderMoves(f, k, src, dst) <==>
            FetchCode(f, RequestFor(k, src)) == 0 && WriteCode(f, RequestFor(k, dst)) == 0
  {
    hide Inv, TreeOf;
    ReadDirectoryCodes(f, RequestFor(k, src));
  }

  // A folder is not copied with what it holds: what is made is an empty namesake.
  lemma CopyFolder(f: FileSystem, k: Key, src: nat, dst: nat) returns (c: nat)
    requires Inv(f) && KeyOk(k) && !IsFileKey(k)
    ensures var g := CopyNext(f, k, src, dst);
            && Inv(g)
            && if FolderMoves(f, k, src, dst)
               then (dst, k) !in TreeOf(f) && dst in f.tabs && c !in f.tabs
                    && TreeOf(g) == TreeOf(f)[(dst, k) := Folder(c)]
               else g == f
  {
    hide Inv, TreeOf;
    FetchFolder(f, k, src, dst);
    c := 0;
    var r, q := RequestFor(k, src), RequestFor(k, dst);
    if FetchCode(f, r) == 0 {
      WriteRefines(f, q, Fetched(f, r));
      if WriteCode(f, q) == 0 {
        c := TreeOf(CopyNext(f, k, src, dst))[(dst, k)].dir;
      }
    }
  }

  // A move makes an empty namesake, too.  It takes the source away if that was an empty
  // folder other than the target, or a file that bears a header's name; and with a header's
  // name that binds nothing it makes a folder from nothing.
  lemma MoveFolder(f: FileSystem, k: Key, src: nat, dst: nat) returns (c: nat)
    requires Inv(f) && KeyOk(k) && !IsFileKey(k)
    ensures var g, t := MoveNext(f, k, src, dst), TreeOf(f);
            && Inv(g)
            && if !FolderMoves(f, k, src, dst) then g == f
               else && (dst, k) !in t && c !in f.tabs
                    && TreeOf(g) ==
                       if (src, k) !in t then (if src == dst then t else t[(dst, k) := Folder(c)])
                       else if t[(src, k)].Folder? && (HasChildren(t, t[(src, k)].dir) || t[(src, k)].dir == dst)
                       then t[(dst, k) := Folder(c)]
                       else t[(dst, k) := Folder(c)] - {(src, k)}
  {
    hide Inv, TreeOf, CopyNext, FolderMoves;
    c := CopyFolder(f, k, src, dst);
    FetchFolder(f, k, src, dst);
    if FolderMoves(f, k, src, dst) {
      var h, r, t := CopyNext(f, k, src, dst), RequestFor(k, src), TreeOf(f);
      DeleteCodes(h, r);
      DeleteRefines(h, r);
      if (src, k) in t && t[(src, k)].Folder? {
        ChildrenOf(t, (dst, k), Folder(c), t[(src, k)].dir);
      }
      if src == dst {
        NewIsChildless(f, (dst, k), c);
        AddThenDrop(t, (dst, k), Folder(c));
      }
    }
  }

  lemma NewIsChildless(f: FileSystem, key: (nat, Key), c: nat)
    requires Inv(f) && c !in f.tabs && key.0 in f.tabs
    ensures !HasChildren(TreeOf(f)[key := Folder(c)], c)
  {
    assert !HasChildren(TreeOf(f), c);
    ChildrenOf(TreeOf(f), key, Folder(c), c);
  }

  // ---------- The system calls of cp and mv ----------

  lemma DirLegal(f: FileSystem, k: Key, d: nat)
    requires Inv(f) && KeyOk(k) && d in f.tabs
    ensures Legal(f, RequestFor(k, d))
  {
    DirCluster(f, d);
  }

  // READ or READ_DIRECTORY into the zeroed buffer of one cluster.
  method Fetch(d: Fat32Driver, k: Key, src: nat, buf: array<Byte>) returns (code: int)
    requires d.Valid() && KeyOk(k) && src in d.fs.tabs && buf.Length == CLUSTER_SIZE
    modifies d.table, buf
    ensures d.Valid() && code == FetchCode(d.fs, RequestFor(k, src))
    ensures code == 0 ==> buf[..] == Fetched(d.fs, RequestFor(k, src))
  {
    hide Inv, OnDisk;
    var r := RequestFor(k, src);
    DirLegal(d.fs, k, src);
    if k.ext[0] != 0 {
      code := d.Read(r, buf);
      if code == 0 {
        OneCluster(d.fs, r);
        FlattenOne(ReadResult(d.fs, r));
      }
    } else {
      code := d.ReadDirectory(r, buf);
      TableRoundTripBack(buf[..]);
    }
  }

  lemma FlattenOne(bl: seq<Block>)
    requires |bl| == 1
    ensures Flatten(bl) == bl[0]
  {
    assert bl[..0] == [] && Flatten(bl[..0]) == [];
  }

  // The last part of cp.
  method CopyEntry(d: Fat32Driver, k: Key, src: nat, dst: nat)
    requires d.Valid() && KeyOk(k) && src in d.fs.tabs && dst in d.fs.tabs
    modifies d, d.disk, d.fat, d.table
    ensures d.Valid() && d.fs == old(CopyNext(d.fs, k, src, dst))
  {
    hide Inv, OnDisk, Fetched;
    var buf := new Byte[CLUSTER_SIZE](_ => 0);
    var readCode := Fetch(d, k, src, buf);
    if readCode == 0 {
      DirLegal(d.fs, k, dst);
      var _ := d.Write(RequestFor(k, dst), buf[..]);
    }
  }

  // The last part of mv: the source is deleted only after the copy was written.
  method MoveEntry(d: Fat32Driver, k: Key, src: nat, dst: nat)
    requires d.Valid() && KeyOk(k) && src in d.fs.tabs && dst in d.fs.tabs
    modifies d, d.disk, d.fat, d.table
    ensures d.Valid() && d.fs == old(MoveNext(d.fs, k, src, dst))
  {
    hide Inv, OnDisk, Fetched;
    var buf := new Byte[CLUSTER_SIZE](_ => 0);
    var readCode := Fetch(d, k, src, buf);
    if readCode == 0 {
      DirLegal(d.fs, k, dst);
      var writeCode := d.Write(RequestFor(k, dst), buf[..]);
      if writeCode == 0 {
        WriteKeepsDirs(old(d.fs), RequestFor(k, dst), buf[..]);
        DirLegal(d.fs, k, src);
        var _ := d.Delete(RequestFor(k, src));
      }
    }
  }

  lemma WriteKeepsDirs(f: FileSystem, r: Request, data: seq<Byte>)
    requires Inv(f) && NameOk(r) && WriteOk(r, data)
    ensures f.tabs.Keys <= WriteNext(f, r, data).tabs.Keys
  {
    WriteRefines(f, r, data);
  }

  // ---------- The commands ----------

  // The parts that the splitter keeps of a path text: the first ten.
  function PathParts(dir: seq<Byte>): seq<seq<Byte>> {
    Capped(Split(dir, SLASH))
  }

  // The texts of a transfer fit the buffers, and the source has a last part to name it.
  predicate ArgsFit(src: seq<Byte>, dest: seq<Byte>) {
    && PartsFit(src) && PartsFit(dest)
    && PathParts(src) != [] && NameFits(PathParts(src)[|PathParts(src)| - 1])
  }

  function SourceKey(src: seq<Byte>): (k: Key)
    requires PathParts(src) != [] && NameFits(PathParts(src)[|PathParts(src)| - 1])
    ensures KeyOk(k)
  {
    KeyOfPart(PathParts(src)[|PathParts(src)| - 1])
  }

  // The directory that the source text leads to: all of its parts but the last.
  ghost function SourceDir(f: FileSystem, here: nat, src: seq<Byte>): (r: Option<nat>)
    requires Inv(f) && here in f.tabs && PartsFit(src) && PathParts(src) != []
    ensures r.Some? ==> r.value in f.tabs
  {
    Resolve(f, here, PartNames(src)[..|PathParts(src)| - 1])
  }

  // A source that is not below a directory must have a name.
  predicate Named(src: seq<Byte>)
    requires PathParts(src) != [] && NameFits(PathParts(src)[|PathParts(src)| - 1])
  {
    |PathParts(src)| > 1 || IsFileKey(SourceKey(src)) || SourceKey(src).name[0] != 0
  }

  // directories holds what the splitter makes of dir.
  ghost predicate Parts(directories: seq<seq<Byte>>, num: nat, dir: seq<Byte>) {
    Buffered(directories, Split(dir, SLASH)) && num == |PathParts(dir)| && PartsFit(dir)
  }

  lemma PartAt(directories: seq<seq<Byte>>, num: nat, dir: seq<Byte>, i: nat)
    requires Parts(directories, num, dir) && i < num
    ensures num <= |directories| && |directories[i]| == PART_SIZE && directories[i][..8] == PartNames(dir)[i]
    ensures 0 !in PathParts(dir)[i] ==> CStr(directories[i]) == PathParts(dir)[i]
  {
    var p := PathParts(dir)[i];
    assert directories[i] == Padded(p) == p + Zeros(PART_SIZE - |p|);
    if 0 !in p {
      assert directories[i][..|p|] == p;
      CStrIs(directories[i], |p|);
    }
  }

  lemma PartsAre(directories: seq<seq<Byte>>, num: nat, dir: seq<Byte>)
    requires Parts(directories, num, dir)
    ensures num == |PartNames(dir)| <= |directories|
    ensures forall i | 0 <= i < num :: |directories[i]| == PART_SIZE && directories[i][..8] == PartNames(dir)[i]
  {
    forall i | 0 <= i < num ensures |directories[i]| == PART_SIZE && directories[i][..8] == PartNames(dir)[i] {
      PartAt(directories, num, dir, i);
    }
  }

  // The name of the last part (cp.c:26-33, mv.c:107-114).
  method LastKey(srcParts: array<seq<Byte>>, numSrc: nat, ghost src: seq<Byte>) returns (k: Key)
    requires Parts(srcParts[..], numSrc, src)
    requires PathParts(src) != [] && NameFits(PathParts(src)[|PathParts(src)| - 1])
    ensures k == SourceKey(src) && |k.name| == 8 && |k.ext| == 3
  {
    PartAt(srcParts[..], numSrc, src, numSrc - 1);
    k := ExtractKey(CStr(srcParts[numSrc - 1]));
  }

  method WalkBoth(sh: Shell, srcParts: array<seq<Byte>>, numSrc: nat, dstParts: array<seq<Byte>>, numDst: nat,
                  ghost srcNames: seq<Name>, ghost dstNames: seq<Name>) returns (ok: bool, from: nat, to: nat)
    requires sh.Valid() && numSrc == |srcNames| <= srcParts.Length && numDst == |dstNames| <= dstParts.Length
    requires forall i | 0 <= i < numSrc :: |srcParts[i]| == PART_SIZE && srcParts[i][..8] == srcNames[i]
    requires forall i | 0 <= i < numDst :: |dstParts[i]| == PART_SIZE && dstParts[i][..8] == dstNames[i]
    modifies sh`currDir
    ensures var f, here := sh.driver.fs, sh.currentDirectory;
            if ok then Resolve(f, here, srcNames) == Some(from) && Resolve(f, here, dstNames) == Some(to)
            else Resolve(f, here, srcNames) == None || Resolve(f, here, dstNames) == None
  {
    hide Inv, OnDisk;
    to := sh.currentDirectory;
    ok, from := sh.Walk(sh.currentDirectory, srcParts, numSrc, srcNames);
    if ok {
      ok, to := sh.Walk(sh.currentDirectory, dstParts, numDst, dstNames);
    }
  }

  // Walks both paths and takes the last part of the source for the name (cp.c:23-80,
  // mv.c:107-161).
  method Endpoints(sh: Shell, srcParts: array<seq<Byte>>, numSrc: nat, dstParts: array<seq<Byte>>, numDst: nat,
                   ghost src: seq<Byte>, ghost dest: seq<Byte>) returns (k: Key, ok: bool, from: nat, to: nat)
    requires sh.Valid() && ArgsFit(src, dest)
    requires Parts(srcParts[..], numSrc, src) && Parts(dstParts[..], numDst, dest)
    modifies sh`currDir
    ensures k == SourceKey(src)
    ensures var f, here := sh.driver.fs, sh.currentDirectory;
            if ok then SourceDir(f, here, src) == Some(from) && Resolve(f, here, PartNames(dest)) == Some(to)
            else SourceDir(f, here, src) == None || Resolve(f, here, PartNames(dest)) == None
  {
    hide Inv, OnDisk, Split, Buffered, Resolve, SourceKey;
    k := LastKey(srcParts, numSrc, src);
    PartsAre(srcParts[..], numSrc, src);
    PartsAre(dstParts[..], numDst, dest);
    ok, from, to := WalkBoth(sh, srcParts, numSrc - 1, dstParts, numDst, PartNames(src)[..numSrc - 1], PartNames(dest));
  }

  // cp
  method Copy(sh: Shell, src: seq<Byte>, dest: seq<Byte>)
    requires sh.Valid() && ArgsFit(src, dest)
    modifies sh`currDir, sh.driver, sh.driver.disk, sh.driver.fat, sh.driver.table
    ensures sh.Valid()
    ensures var f, here := old(sh.driver.fs), sh.currentDirectory;
            var from, to := SourceDir(f, here, src), Resolve(f, here, PartNames(dest));
            sh.driver.fs == if from.Some? && to.Some? && Named(src)
                then CopyNext(f, SourceKey(src), from.value, to.value) else f
    ensures var f, here := old(sh.driver.fs), sh.currentDirectory;
            SourceDir(f, here, src).Some? && Resolve(f, here, PartNames(dest)).Some? ==>
              sh.currDir == sh.driver.fs.tabs[here]
  {
    hide Inv, OnDisk, CopyNext, Resolve, DecodeTable, Split, SourceKey, SourceDir, PartNames, Buffered;
    var srcParts, numSrc := ExtractDir(src);
    var dstParts, numDst := ExtractDir(dest);
    var k, ok, from, to := Endpoints(sh, srcParts, numSrc, dstParts, numDst, src, dest);
    if !ok {
      return;
    }
    CopyNamed(sh, k, numSrc > 1, from, to);
    sh.UpdateDirectoryTable(sh.currentDirectory);
  }

  // The part of cp behind the walks (cp.c:82-136).
  method CopyNamed(sh: Shell, k: Key, below: bool, from: nat, to: nat)
    requires sh.Valid() && KeyOk(k) && from in sh.driver.fs.tabs && to in sh.driver.fs.tabs
    modifies sh.driver, sh.driver.disk, sh.driver.fat, sh.driver.table
    ensures sh.Valid()
    ensures sh.driver.fs == if below || IsFileKey(k) || k.name[0] != 0 then old(CopyNext(sh.driver.fs, k, from, to))
                            else old(sh.driver.fs)
  {
    hide Inv, OnDisk, CopyNext, DecodeTable, Fetched, FetchCode;
    if below || k.ext[0] != 0 || k.name[0] != 0 {
      CopyKeepsDirs(sh.driver.fs, k, from, to);
      CopyEntry(sh.driver, k, from, to);
    } else {
      var buf := new Byte[CLUSTER_SIZE](_ => 0);
      var _ := Fetch(sh.driver, k, from, buf);
    }
  }

  lemma CopyKeepsDirs(f: FileSystem, k: Key, src: nat, dst: nat)
    requires Inv(f) && KeyOk(k)
    ensures f.tabs.Keys <= CopyNext(f, k, src, dst).tabs.Keys
  {
    hide Inv;
    if FetchCode(f, RequestFor(k, src)) == 0 {
      WriteKeepsDirs(f, RequestFor(k, dst), Fetched(f, RequestFor(k, src)));
    }
  }

  // move: both paths must resolve, and the source must have a name.  The current directory
  // may itself be what is moved away.
  method Move(sh: Shell, srcParts: array<seq<Byte>>, numSrc: nat, dstParts: array<seq<Byte>>, numDst: nat,
              ghost src: seq<Byte>, ghost dest: seq<Byte>)
    requires sh.Valid() && ArgsFit(src, dest)
    requires Parts(srcParts[..], numSrc, src) && Parts(dstParts[..], numDst, dest)
    modifies sh`currDir, sh.driver, sh.driver.disk, sh.driver.fat, sh.driver.table
    ensures sh.driver.Valid()
    ensures var f, here := old(sh.driver.fs), sh.currentDirectory;
            var from, to := SourceDir(f, here, src), Resolve(f, here, PartNames(dest));
            sh.driver.fs == if from.Some? && to.Some? && Named(src)
                then MoveNext(f, SourceKey(src), from.value, to.value) else f
    ensures var f, here := old(sh.driver.fs), sh.currentDirectory;
            SourceDir(f, here, src).Some? && Resolve(f, here, PartNames(dest)).Some? ==>
              here < MAP_SIZE && sh.currDir == DecodeTable(sh.driver.disk[here])
  {
    hide Inv, OnDisk, MoveNext, Resolve, DecodeTable, Fetched, FetchCode, Split, SourceKey, SourceDir, PartNames;
    DirCluster(sh.driver.fs, sh.currentDirectory);
    var k, ok, from, to := Endpoints(sh, srcParts, numSrc, dstParts, numDst, src, dest);
    if !ok {
      return;
    }
    if numSrc > 1 || k.ext[0] != 0 || k.name[0] != 0 {
      MoveEntry(sh.driver, k, from, to);
    } else {
      var buf := new Byte[CLUSTER_SIZE](_ => 0);
      var _ := Fetch(sh.driver, k, from, buf);
    }
    sh.UpdateDirectoryTable(sh.currentDirectory);
  }

  // mv, for a target of two parts or more: with one part it may rename instead.
  method MoveByPath(sh: Shell, src: seq<Byte>, dest: seq<Byte>)
    requires sh.Valid() && ArgsFit(src, dest) && |PathParts(dest)| > 1
    modifies sh`currDir, sh.driver, sh.driver.disk, sh.driver.fat, sh.driver.table
    ensures sh.driver.Valid()
    ensures var f, here := old(sh.driver.fs), sh.currentDirectory;
            var from, to := SourceDir(f, here, src), Resolve(f, here, PartNames(dest));
            sh.driver.fs == if from.Some? && to.Some? && Named(src)
                then MoveNext(f, SourceKey(src), from.value, to.value) else f
    ensures var f, here := old(sh.driver.fs), sh.currentDirectory;
            SourceDir(f, here, src).Some? && Resolve(f, here, PartNames(dest)).Some? ==>
              here < MAP_SIZE && sh.currDir == DecodeTable(sh.driver.disk[here])
  {
    hide Inv, OnDisk, MoveNext, Resolve, Split, SourceKey;
    var srcParts, numSrc := ExtractDir(src);
    var dstParts, numDst := ExtractDir(dest);
    Move(sh, srcParts, numSrc, dstParts, numDst, src, dest);
  }

  // ---------- The commands by names ----------

  // A last part that the buffers hold, and the key that it names.
  predicate PartOk(p: seq<Byte>) {
    p != [] && Solid(p, SLASH) && |p| < PART_SIZE && NameFits(p)
  }

  lemma SolidNames(ns: seq<Name>)
    requires Printable(ns)
    ensures forall n | n in Strip(ns) :: n != [] && Solid(n, SLASH) && |n| <= 8
  {}

  lemma PartsOfText(ns: seq<Name>, p: seq<Byte>)
    requires Printable(ns) && |ns| < MAX_PARTS && PartOk(p)
    ensures var src := Segments(Strip(ns)) + [SLASH] + p; Split(src, SLASH) == PathParts(src) == Strip(ns) + [p]
  {
    hide Split;
    SolidNames(ns);
    var parts := Strip(ns) + [p];
    assert parts[..|ns|] == Strip(ns);
    SplitSegments(parts);
  }

  lemma TextNames(ns: seq<Name>, p: seq<Byte>)
    requires Printable(ns) && |ns| < MAX_PARTS && PartOk(p)
    ensures var src := Segments(Strip(ns)) + [SLASH] + p;
            PartsFit(src) && PathParts(src) == Strip(ns) + [p] && PartNames(src)[..|ns|] == ns
  {
    hide Split, PartOk, NameFits, Segments;
    SolidNames(ns);
    assert |p| < PART_SIZE by { PartSize(p); }
    PartsOfText(ns, p);
    var src := Segments(Strip(ns)) + [SLASH] + p;
    forall i | 0 <= i < |ns| ensures PartNames(src)[i] == ns[i] {
      PaddedName(ns[i]);
    }
  }

  lemma PartSize(p: seq<Byte>)
    requires PartOk(p)
    ensures |p| < PART_SIZE && NameFits(p)
  {}

  // Names and a last part, written as a path, lead where the names lead, and name what the
  // part names.
  lemma SourceText(f: FileSystem, here: nat, ns: seq<Name>, p: seq<Byte>)
    requires Inv(f) && here in f.tabs && Printable(ns) && |ns| < MAX_PARTS && PartOk(p)
    ensures var src := Segments(Strip(ns)) + [SLASH] + p;
            && PartsFit(src) && PathParts(src) != [] && NameFits(PathParts(src)[|PathParts(src)| - 1])
            && SourceKey(src) == KeyOfPart(p) && SourceDir(f, here, src) == Resolve(f, here, ns)
            && (Named(src) <==> ns != [] || p[0] != DOT || p[|p| - 1] != DOT)
  {
    hide Inv, Split, Resolve, PartOk, NameFits, PartNames, PartsFit, PathParts, Segments, KeyOfPart, Printable;
    PartSize(p);
    TextNames(ns, p);
    NamelessPart(p);
  }

  // Only a part that starts and ends with a dot names nothing.
  lemma NamelessPart(p: seq<Byte>)
    requires PartOk(p)
    ensures IsFileKey(KeyOfPart(p)) || KeyOfPart(p).name[0] != 0 <==> p[0] != DOT || p[|p| - 1] != DOT
  {
    assert Base(p) == [] <==> p[0] == DOT;
    assert Base(p) != [] ==> Base(p)[0] == p[0] && p[0] in p;
  }

  // "cp /ns/p /ms": copies what p names from where ns lead to where ms lead.
  method CopyByNames(sh: Shell, ns: seq<Name>, p: seq<Byte>, ms: seq<Name>)
    requires sh.Valid() && Printable(ns) && |ns| < MAX_PARTS && PartOk(p) && Printable(ms) && |ms| <= MAX_PARTS
    modifies sh`currDir, sh.driver, sh.driver.disk, sh.driver.fat, sh.driver.table
    ensures sh.Valid()
    ensures var f, here := old(sh.driver.fs), sh.currentDirectory;
            var from, to := Resolve(f, here, ns), Resolve(f, here, ms);
            sh.driver.fs == if from.Some? && to.Some? && (ns != [] || p[0] != DOT || p[|p| - 1] != DOT)
                then CopyNext(f, KeyOfPart(p), from.value, to.value) else f
  {
    hide Inv, OnDisk, CopyNext, Resolve, Split, KeyOfPart, SourceDir, PartNames, PartsFit, Printable;
    hide PathParts, SourceKey, Named, Segments, Strip, PathText;
    SourceText(sh.driver.fs, sh.currentDirectory, ns, p);
    PrintedParts(ms);
    Copy(sh, Segments(Strip(ns)) + [SLASH] + p, PathText(Strip(ms)));
  }

  // "mv /ns/p /ms", for a target of two names or more.
  method MoveByNames(sh: Shell, ns: seq<Name>, p: seq<Byte>, ms: seq<Name>)
    requires sh.Valid() && Printable(ns) && |ns| < MAX_PARTS && PartOk(p) && Printable(ms) && 1 < |ms| <= MAX_PARTS
    modifies sh`currDir, sh.driver, sh.driver.disk, sh.driver.fat, sh.driver.table
    ensures sh.driver.Valid()
    ensures var f, here := old(sh.driver.fs), sh.currentDirectory;
            var from, to := Resolve(f, here, ns), Resolve(f, here, ms);
            sh.driver.fs == if from.Some? && to.Some? && (ns != [] || p[0] != DOT || p[|p| - 1] != DOT)
                then MoveNext(f, KeyOfPart(p), from.value, to.value) else f
  {
    hide Inv, OnDisk, MoveNext, Resolve, Split, KeyOfPart, SourceDir, PartNames, PartsFit, Printable;
    hide PathParts, SourceKey, Named, Segments, Strip, PathText;
    SourceText(sh.driver.fs, sh.currentDirectory, ns, p);
    PrintedParts(ms);
    SizesAgree(PathText(Strip(ms)));
    MoveByPath(sh, Segments(Strip(ns)) + [SLASH] + p, PathText(Strip(ms)));
  }

  lemma SizesAgree(dir: seq<Byte>)
    requires PartsFit(dir)
    ensures |PathParts(dir)| == |PartNames(dir)|
  {}
}
