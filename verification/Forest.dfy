/**
 The file system as a typed value: the allocation table, the directory tables,
 and for every occupied slot its chain of clusters and, for a file, their
 contents.  The four driver operations are steps on this value
 (src/code/filesystem/fat32.c:161-502).
 */
module Forest {
  import opened Bytes
  import opened Layout
  import opened Fat

  // A slot of a directory, the directory being named by its cluster.
  type Loc = (nat, nat)

  datatype Key = Key(name: seq<Byte>, ext: seq<Byte>)
  datatype Obj = File(size: nat, content: seq<Block>) | Folder(dir: nat)

  // What the user sees: which object each name in each directory denotes.
  type Tree = map<(nat, Key), Obj>

  // home is the slot that holds a directory other than the root; depth its distance from the root.
  datatype FileSystem = FileSystem(fat: Links, tabs: map<nat, Table>, chains: map<Loc, Chain>,
                                   blocks: map<Loc, seq<Block>>, home: map<nat, Loc>, depth: map<nat, nat>)

  datatype Request = Request(name: seq<Byte>, ext: seq<Byte>, parent: nat, bufferSize: nat)

  // ---------- The invariant ----------

  const DOT_DOT: seq<Byte> := [46, 46, 0, 0, 0, 0, 0, 0]
  const ROOT_NAME: seq<Byte> := [114, 111, 111, 116, 0, 0, 0, 0]

  lemma FixedNamesCanonical()
    ensures Canonical(DOT_DOT) && Canonical(ROOT_NAME)
  {}

  predicate Matches(e: DirEntry, k: Key) {
    Live(e) && e.name == k.name && e.ext == k.ext
  }

  function KeyOf(e: DirEntry): Key {
    Key(e.name, e.ext)
  }

  predicate EntryOk(e: DirEntry) {
    && (e.userAttribute == UATTR_NOT_EMPTY || (e.userAttribute == 0 && e.name == Zeros(8) && e.ext == Zeros(3)))
    && Canonical(e.name) && Canonical(e.ext)
    && (Live(e) ==> e.clusterHigh == 0)
    && (Live(e) && IsDir(e) ==> e.ext == Zeros(3))
  }

  predicate HeaderOk(t: Table) {
    && Live(t[0]) && IsDir(t[0])
    && Live(t[1]) && IsDir(t[1]) && t[1].name == DOT_DOT
    && t[0].clusterLow == t[1].clusterLow
  }

  predicate NoTwins(t: Table) {
    forall i, j | 2 <= i < j < SLOTS && Live(t[i]) && Live(t[j]) :: KeyOf(t[i]) != KeyOf(t[j])
  }

  predicate TableOk(t: Table) {
    HeaderOk(t) && NoTwins(t) && forall s | 0 <= s < SLOTS :: EntryOk(t[s])
  }

  function Clusters(size: nat): nat {
    (size + CLUSTER_SIZE - 1) / CLUSTER_SIZE
  }

  ghost predicate Occupied(f: FileSystem, l: Loc) {
    l.0 in f.tabs && 2 <= l.1 < SLOTS && Live(f.tabs[l.0][l.1])
  }

  function At(f: FileSystem, l: Loc): DirEntry
    requires l.0 in f.tabs && l.1 < SLOTS
  {
    f.tabs[l.0][l.1]
  }

  ghost predicate SlotOk(f: FileSystem, l: Loc)
    requires l in f.chains && Occupied(f, l)
  {
    var e, ch := At(f, l), f.chains[l];
    && |ch| == Clusters(e.filesize) && |ch| > 0
    && e.clusterLow == ch[0]
    && (IsDir(e) ==> |ch| == 1 && ch[0] in f.home && f.home[ch[0]] == l && l !in f.blocks)
    && (!IsDir(e) ==> l in f.blocks && |f.blocks[l]| == |ch|)
  }

  ghost predicate HomeOk(f: FileSystem, d: nat)
    requires d in f.home && d in f.tabs && f.tabs.Keys == f.depth.Keys
  {
    var l := f.home[d];
    && l in f.chains && f.chains[l] == [d]
    && Occupied(f, l) && IsDir(At(f, l))
    && f.depth[d] == f.depth[l.0] + 1
    && f.tabs[d][0].name == At(f, l).name
    && f.tabs[d][0].clusterLow == l.0
  }

  ghost predicate RootOk(f: FileSystem) {
    && ROOT_CLUSTER in f.tabs && ROOT_CLUSTER in f.depth && f.depth[ROOT_CLUSTER] == 0
    && f.tabs[ROOT_CLUSTER][0].name == ROOT_NAME
    && f.tabs[ROOT_CLUSTER][0].clusterLow == ROOT_CLUSTER
  }

  ghost predicate Inv(f: FileSystem) {
    && Consistent(f.fat, f.chains)
    && (forall d {:trigger TableOk(f.tabs[d])} | d in f.tabs :: TableOk(f.tabs[d]))
    && (forall l: Loc {:trigger Occupied(f, l)} :: Occupied(f, l) <==> l in f.chains)
    && (forall l {:trigger SlotOk(f, l)} | l in f.chains && Occupied(f, l) :: SlotOk(f, l))
    && f.blocks.Keys <= f.chains.Keys
    && RootOk(f)
    && f.depth.Keys == f.tabs.Keys && f.home.Keys == f.tabs.Keys - {ROOT_CLUSTER}
    && (forall d {:trigger HomeOk(f, d)} | d in f.home && d in f.tabs :: HomeOk(f, d))
  }

  function ObjAt(f: FileSystem, l: Loc): Obj
    requires l in f.chains && |f.chains[l]| > 0 && l.0 in f.tabs && l.1 < SLOTS
    requires !IsDir(At(f, l)) ==> l in f.blocks
  {
    if IsDir(At(f, l)) then Folder(f.chains[l][0]) else File(At(f, l).filesize, f.blocks[l])
  }

  lemma SlotInfo(f: FileSystem, l: Loc)
    requires Inv(f) && l in f.chains
    ensures Occupied(f, l) && SlotOk(f, l) && IsChain(f.fat, f.chains[l])
  {
    assert Occupied(f, l) && SlotOk(f, l) && IsChain(f.fat, f.chains[l]);
  }

  lemma OneSlotPerKey(f: FileSystem, l: Loc, m: Loc)
    requires Inv(f) && l in f.chains && m in f.chains
    requires l.0 in f.tabs && m.0 in f.tabs && l.1 < SLOTS && m.1 < SLOTS
    requires l.0 == m.0 && KeyOf(At(f, l)) == KeyOf(At(f, m))
    ensures l == m
  {
    SlotInfo(f, l);
    SlotInfo(f, m);
    assert TableOk(f.tabs[l.0]);
  }

  ghost predicate Bound(f: FileSystem, l: Loc) {
    l in f.chains && |f.chains[l]| > 0 && l.0 in f.tabs && l.1 < SLOTS && (!IsDir(At(f, l)) ==> l in f.blocks)
  }

  ghost function TreeOf(f: FileSystem): Tree
    requires Inv(f)
  {
    assert forall l, m | Bound(f, l) && Bound(f, m) && l.0 == m.0 && KeyOf(At(f, l)) == KeyOf(At(f, m)) :: l == m by {
      forall l, m | Bound(f, l) && Bound(f, m) && l.0 == m.0 && KeyOf(At(f, l)) == KeyOf(At(f, m)) ensures l == m {
        OneSlotPerKey(f, l, m);
      }
    }
    map l | l in f.chains && Bound(f, l) :: (l.0, KeyOf(At(f, l))) := ObjAt(f, l)
  }

  lemma TreeAt(f: FileSystem, l: Loc)
    requires Inv(f) && l in f.chains
    ensures Occupied(f, l) && SlotOk(f, l)
    ensures (l.0, KeyOf(At(f, l))) in TreeOf(f) && TreeOf(f)[(l.0, KeyOf(At(f, l)))] == ObjAt(f, l)
  {
    SlotInfo(f, l);
    assert Bound(f, l);
    forall m | Bound(f, m) && l.0 == m.0 && KeyOf(At(f, l)) == KeyOf(At(f, m)) ensures l == m {
      OneSlotPerKey(f, l, m);
    }
  }

  // Every binding sits in exactly one slot.
  lemma TreeSlot(f: FileSystem, d: nat, k: Key) returns (s: nat)
    requires Inv(f) && (d, k) in TreeOf(f)
    ensures (d, s) in f.chains && Occupied(f, (d, s)) && Matches(f.tabs[d][s], k) && SlotOk(f, (d, s))
    ensures TreeOf(f)[(d, k)] == ObjAt(f, (d, s))
  {
    var l: Loc :| l in f.chains && Bound(f, l) && (d, k) == (l.0, KeyOf(At(f, l)));
    s := l.1;
    assert l == (d, s);
    TreeAt(f, l);
  }

  // A directory's cluster ends a chain, and no slot but its home owns that chain.
  lemma DirCluster(f: FileSystem, d: nat)
    requires Inv(f) && d in f.tabs
    ensures 2 <= d < MAP_SIZE && f.fat[d] == END_OF_FILE
    ensures forall l | l in f.chains && d in f.chains[l] :: d != ROOT_CLUSTER && f.home[d] == l && l !in f.blocks
  {
    if d != ROOT_CLUSTER {
      assert HomeOk(f, d);
      SlotInfo(f, f.home[d]);
      assert f.chains[f.home[d]][0] == d;
      assert f.fat[d] == NextLink(f.chains[f.home[d]], 0);
    }
    forall l | l in f.chains && d in f.chains[l] ensures d != ROOT_CLUSTER && f.home[d] == l && l !in f.blocks {
      SlotInfo(f, l);
      var i :| 0 <= i < |f.chains[l]| && f.chains[l][i] == d;
      assert f.chains[f.home[d]][0] == d;
    }
  }

  // ---------- Searching a directory table ----------

  function FirstMatch(t: Table, i: nat, k: Key): (s: nat)
    requires i <= SLOTS
    ensures i <= s <= SLOTS
    ensures s < SLOTS ==> Matches(t[s], k)
    ensures forall j | i <= j < s :: !Matches(t[j], k)
    decreases SLOTS - i
  {
    if i == SLOTS || Matches(t[i], k) then i else FirstMatch(t, i + 1, k)
  }

  function FirstFreeSlot(t: Table, i: nat): (s: nat)
    requires i <= SLOTS
    ensures i <= s <= SLOTS
    ensures s < SLOTS ==> !Live(t[s])
    ensures forall j | i <= j < s :: Live(t[j])
    decreases SLOTS - i
  {
    if i == SLOTS || !Live(t[i]) then i else FirstFreeSlot(t, i + 1)
  }

  predicate IsFolderRequest(r: Request)
    requires |r.ext| == 3
  {
    r.bufferSize == 0 && r.ext[0] == 0
  }

  // A folder's name must be new whatever the extension; a file's only together with it.
  predicate Clash(t: Table, r: Request)
    requires |r.ext| == 3
  {
    exists s | 2 <= s < SLOTS :: Live(t[s]) && t[s].name == r.name && (IsFolderRequest(r) || t[s].ext == r.ext)
  }

  predicate IsEmptyTable(t: Table) {
    forall s | 2 <= s < SLOTS :: !Live(t[s])
  }

  // ---------- Contents ----------

  function SizeOf(r: Request): nat {
    if r.bufferSize == 0 then CLUSTER_SIZE else r.bufferSize
  }

  // The i-th cluster of a file: the last one is padded with zeros.
  function BlockAt(data: seq<Byte>, size: nat, i: nat): Block
    requires |data| >= size && i < Clusters(size)
  {
    if size < CLUSTER_SIZE * (i + 1)
    then data[CLUSTER_SIZE * i..size] + Zeros(CLUSTER_SIZE * (i + 1) - size)
    else data[CLUSTER_SIZE * i..CLUSTER_SIZE * (i + 1)]
  }

  function BlocksOf(data: seq<Byte>, size: nat): (b: seq<Block>)
    requires |data| >= size
    ensures |b| == Clusters(size)
  {
    seq(Clusters(size), i requires 0 <= i < Clusters(size) => BlockAt(data, size, i))
  }

  function Flatten(bl: seq<Block>): (b: seq<Byte>)
    ensures |b| == CLUSTER_SIZE * |bl|
  {
    if bl == [] then [] else Flatten(bl[..|bl| - 1]) + bl[|bl| - 1]
  }

  // The clusters of a file are its bytes followed by zeros up to the cluster boundary.
  lemma {:induction false} FlattenPrefix(data: seq<Byte>, size: nat, n: nat)
    requires |data| >= size && n <= Clusters(size)
    ensures Flatten(BlocksOf(data, size)[..n]) == if n < Clusters(size) then data[..CLUSTER_SIZE * n]
                                                  else data[..size] + Zeros(CLUSTER_SIZE * n - size)
  {
    if n == 0 {
    } else {
      FlattenPrefix(data, size, n - 1);
      var bl := BlocksOf(data, size);
      assert bl[..n][..n - 1] == bl[..n - 1];
      assert bl[..n][n - 1] == BlockAt(data, size, n - 1);
    }
  }

  lemma FlattenBlocks(data: seq<Byte>, size: nat)
    requires |data| >= size
    ensures CLUSTER_SIZE * Clusters(size) >= size
    ensures Flatten(BlocksOf(data, size)) == data[..size] + Zeros(CLUSTER_SIZE * Clusters(size) - size)
  {
    FlattenPrefix(data, size, Clusters(size));
    assert BlocksOf(data, size)[..Clusters(size)] == BlocksOf(data, size);
  }

  // ---------- What a caller must respect ----------

  predicate Sized(r: Request) {
    |r.name| == 8 && |r.ext| == 3
  }

  predicate NameOk(r: Request) {
    Sized(r) && Canonical(r.name) && Canonical(r.ext)
  }

  // The parent check of the driver looks at the link and at one attribute byte, so it also
  // lets through the last cluster of a file whose twelfth byte looks like a directory's.
  ghost predicate Impostor(f: FileSystem, p: nat) {
    exists l :: l in f.blocks && l in f.chains && |f.chains[l]| == |f.blocks[l]| > 0
                && f.chains[l][|f.chains[l]| - 1] == p
                && f.blocks[l][|f.chains[l]| - 1][11] == ATTR_SUBDIRECTORY
  }

  ghost predicate Legal(f: FileSystem, r: Request) {
    NameOk(r) && r.parent < MAP_SIZE && !Impostor(f, r.parent)
  }

  predicate WriteOk(r: Request, data: seq<Byte>)
    requires |r.ext| == 3
  {
    r.bufferSize + CLUSTER_SIZE - 1 < U32 && (!IsFolderRequest(r) ==> |data| >= SizeOf(r))
  }

  // ---------- write ----------

  function NewEntry(prev: DirEntry, r: Request, first: nat): DirEntry
    requires Sized(r) && first < MAP_SIZE && SizeOf(r) < U32
  {
    prev.(userAttribute := UATTR_NOT_EMPTY, filesize := SizeOf(r),
         attribute := if IsFolderRequest(r) then ATTR_SUBDIRECTORY else 0,
         clusterLow := first % U16, clusterHigh := first / U16,
         name := CopyCStr(prev.name, r.name),
         ext := if IsFolderRequest(r) then prev.ext else r.ext)
  }

  function HeaderEntry(name: seq<Byte>, parent: nat): DirEntry
    requires |name| == 8 && parent < MAP_SIZE
  {
    ZeroEntry.(attribute := ATTR_SUBDIRECTORY, userAttribute := UATTR_NOT_EMPTY, clusterLow := parent % U16,
               clusterHigh := parent / U16, name := name)
  }

  function FreshTable(name: seq<Byte>, parent: nat): (t: Table)
    requires |name| == 8 && parent < MAP_SIZE
  {
    [HeaderEntry(CopyCStr(Zeros(8), name), parent), HeaderEntry(DOT_DOT, parent)] + seq(SLOTS - 2, _ => ZeroEntry)
  }

  function WriteCode(f: FileSystem, r: Request): int
    requires Sized(r)
  {
    if r.parent !in f.tabs then 2
    else if Clash(f.tabs[r.parent], r) then 1
    else if FirstFreeSlot(f.tabs[r.parent], 0) == SLOTS then -1
    else if |FirstFit(f.fat, 0, Clusters(SizeOf(r)))| < Clusters(SizeOf(r)) then -1
    else 0
  }

  function AddFile(f: FileSystem, l: Loc, e: DirEntry, cs: Chain, bl: seq<Block>): FileSystem
    requires l.0 in f.tabs && l.1 < SLOTS && InRange(cs)
  {
    f.(fat := Linked(f.fat, cs), tabs := f.tabs[l.0 := f.tabs[l.0][l.1 := e]],
       chains := f.chains[l := cs], blocks := f.blocks[l := bl])
  }

  function AddFolder(f: FileSystem, l: Loc, e: DirEntry, c: nat, t: Table): FileSystem
    requires l.0 in f.tabs && l.0 in f.depth && l.1 < SLOTS && InRange([c])
  {
    f.(fat := Linked(f.fat, [c]), tabs := f.tabs[l.0 := f.tabs[l.0][l.1 := e]][c := t],
       chains := f.chains[l := [c]], home := f.home[c := l], depth := f.depth[c := f.depth[l.0] + 1])
  }

  ghost function WriteNext(f: FileSystem, r: Request, data: seq<Byte>): FileSystem
    requires Inv(f) && Sized(r) && WriteOk(r, data)
  {
    if WriteCode(f, r) != 0 then f
    else
      var s := FirstFreeSlot(f.tabs[r.parent], 0);
      var cs := FirstFit(f.fat, 0, Clusters(SizeOf(r)));
      FitInRange(f, r);
      var e := NewEntry(f.tabs[r.parent][s], r, cs[0]);
      if IsFolderRequest(r) then AddFolder(f, (r.parent, s), e, cs[0], FreshTable(r.name, r.parent))
      else AddFile(f, (r.parent, s), e, cs, BlocksOf(data, SizeOf(r)))
  }

  lemma FitInRange(f: FileSystem, r: Request)
    requires Inv(f) && Sized(r) && r.bufferSize < U32 && WriteCode(f, r) == 0
    ensures InRange(FirstFit(f.fat, 0, Clusters(SizeOf(r)))) && |FirstFit(f.fat, 0, Clusters(SizeOf(r)))| > 0
    ensures 2 <= FirstFreeSlot(f.tabs[r.parent], 0) < SLOTS && r.parent < MAP_SIZE
  {
    FirstFitInRange(f.fat, Clusters(SizeOf(r)));
    DirCluster(f, r.parent);
    assert TableOk(f.tabs[r.parent]);
  }

  // ---------- delete ----------

  function Cleared(e: DirEntry): DirEntry {
    e.(userAttribute := 0, name := Zeros(8), ext := Zeros(3))
  }

  function DeleteCode(f: FileSystem, r: Request): int {
    if r.parent !in f.tabs then -1
    else
      var s := FirstMatch(f.tabs[r.parent], 2, Key(r.name, r.ext));
      if s == SLOTS then 1
      else
        var e := f.tabs[r.parent][s];
        if IsDir(e) && ClusterOf(e) in f.tabs && !IsEmptyTable(f.tabs[ClusterOf(e)]) then 2 else 0
  }

  ghost function Remove(f: FileSystem, l: Loc): FileSystem
    requires Inv(f) && l in f.chains
  {
    SlotInfo(f, l);
    var gone := if IsDir(At(f, l)) then {f.chains[l][0]} else {};
    f.(fat := Freed(f.fat, f.chains[l]), tabs := (f.tabs - gone)[l.0 := f.tabs[l.0][l.1 := Cleared(At(f, l))]],
       chains := f.chains - {l}, blocks := f.blocks - {l}, home := f.home - gone, depth := f.depth - gone)
  }

  ghost function DeleteNext(f: FileSystem, r: Request): FileSystem
    requires Inv(f)
  {
    if DeleteCode(f, r) != 0 then f
    else
      var l: Loc := (r.parent, FirstMatch(f.tabs[r.parent], 2, Key(r.name, r.ext)));
      assert Occupied(f, l);
      Remove(f, l)
  }

  // ---------- read and read_directory ----------

  function ReadCode(f: FileSystem, r: Request): int {
    if r.parent !in f.tabs then -1
    else
      var s := FirstMatch(f.tabs[r.parent], 0, Key(r.name, r.ext));
      if s == SLOTS then 2
      else if IsDir(f.tabs[r.parent][s]) then 1
      else if r.bufferSize < f.tabs[r.parent][s].filesize then -1
      else 0
  }

  ghost function ReadResult(f: FileSystem, r: Request): seq<Block>
    requires Inv(f) && ReadCode(f, r) == 0
  {
    var l: Loc := (r.parent, FirstMatch(f.tabs[r.parent], 0, Key(r.name, r.ext)));
    assert TableOk(f.tabs[r.parent]) && Occupied(f, l) && SlotOk(f, l);
    f.blocks[l]
  }

  function ReadDirectoryCode(f: FileSystem, r: Request): int {
    if r.parent !in f.tabs then -1
    else
      var s := FirstMatch(f.tabs[r.parent], 0, Key(r.name, r.ext));
      if s == SLOTS then 2 else if !IsDir(f.tabs[r.parent][s]) then 1 else 0
  }

  // The directory that read_directory shows: slots 0 and 1 lead to the parent.
  function ReadDirectoryTarget(f: FileSystem, r: Request): int
    requires ReadDirectoryCode(f, r) == 0
  {
    ClusterOf(f.tabs[r.parent][FirstMatch(f.tabs[r.parent], 0, Key(r.name, r.ext))])
  }
}
