/**
 The bytes on the disk and the file system they stand for
 (src/code/filesystem/fat32.c:10-18, 81-171, 313-422, 473-498).
 */
module Volume {
  import opened Bytes
  import opened Layout
  import opened Fat
  import opened Forest
  import opened Steps
  import opened Refinement

  type Disk = d: seq<Block> | |d| == MAP_SIZE witness ZeroBlocks(MAP_SIZE)

  const ZERO_BLOCK: Block := Zeros(CLUSTER_SIZE)

  function ZeroBlocks(n: nat): (z: seq<Block>)
    ensures |z| == n && forall i | 0 <= i < n :: z[i] == ZERO_BLOCK
  {
    if n == 0 then [] else ZeroBlocks(n - 1) + [ZERO_BLOCK]
  }

  const BLOCK_SIZE: nat := 512

  // "Course", "Designed by", "Lab Sister ITB", "Made with <3" and a rule, each padded to 16
  // characters, then zeros up to the closing "Ok".
  const SIGNATURE: seq<Byte> :=
    [67, 111, 117, 114, 115, 101, 32, 32, 32, 32, 32, 32, 32, 32, 32, 32]
    + [68, 101, 115, 105, 103, 110, 101, 100, 32, 98, 121, 32, 32, 32, 32, 32]
    + [76, 97, 98, 32, 83, 105, 115, 116, 101, 114, 32, 73, 84, 66, 32, 32]
    + [77, 97, 100, 101, 32, 119, 105, 116, 104, 32, 60, 51, 32, 32, 32, 32]
    + [45, 45, 45, 45, 45, 45, 45, 45, 45, 45, 45, 50, 48, 50, 52, 10]
    + Zeros(430) + [79, 107]

  predicate Signed(disk: Disk) {
    disk[0][..BLOCK_SIZE] == SIGNATURE
  }

  // disk holds f.
  ghost predicate OnDisk(disk: Disk, f: FileSystem) {
    && Signed(disk)
    && DecodeLinks(disk[FAT_CLUSTER]) == f.fat
    && (forall d | d in f.tabs && d < MAP_SIZE :: DecodeTable(disk[d]) == f.tabs[d])
    && (forall l | l in f.blocks && l in f.chains && |f.blocks[l]| == |f.chains[l]| ::
          Holds(disk, f.chains[l], f.blocks[l]))
  }

  ghost predicate Holds(disk: Disk, ch: Chain, bl: seq<Block>)
    requires |ch| == |bl|
  {
    forall i | 0 <= i < |ch| :: ch[i] < MAP_SIZE && disk[ch[i]] == bl[i]
  }

  // ---------- The parent check ----------

  // What get_dir_table_from_cluster really tests: the comma operator drops its first comparison.
  predicate Passes(fat: Links, disk: Disk, p: nat)
    requires p < MAP_SIZE
  {
    fat[p] == END_OF_FILE && DecodeTable(disk[p])[0].attribute == ATTR_SUBDIRECTORY
  }

  // It admits the directories and the impostors, and nothing else.
  lemma PassesIff(disk: Disk, f: FileSystem, p: nat)
    requires Inv(f) && OnDisk(disk, f) && p < MAP_SIZE
    ensures Passes(f.fat, disk, p) <==> p in f.tabs || Impostor(f, p)
  {
    AttributeByte(disk[p]);
    if p in f.tabs {
      DirCluster(f, p);
      assert TableOk(f.tabs[p]);
    }
    if Impostor(f, p) {
      var l: Loc :| l in f.blocks && l in f.chains && |f.chains[l]| == |f.blocks[l]| > 0
                    && f.chains[l][|f.chains[l]| - 1] == p && f.blocks[l][|f.chains[l]| - 1][11] == ATTR_SUBDIRECTORY;
      SlotInfo(f, l);
      assert Holds(disk, f.chains[l], f.blocks[l]);
      assert f.fat[p] == NextLink(f.chains[l], |f.chains[l]| - 1);
    }
    if Passes(f.fat, disk, p) && p !in f.tabs {
      PassesOnlyImpostor(disk, f, p);
    }
  }

  lemma PassesOnlyImpostor(disk: Disk, f: FileSystem, p: nat)
    requires Inv(f) && OnDisk(disk, f) && p < MAP_SIZE && Passes(f.fat, disk, p) && p !in f.tabs
    ensures Impostor(f, p)
  {
    AttributeByte(disk[p]);
    assert p >= 3;
    assert Owned(f.chains, p);
    var l :| l in f.chains && p in f.chains[l];
    SlotInfo(f, l);
    var ch := f.chains[l];
    var i :| 0 <= i < |ch| && ch[i] == p;
    assert f.fat[p] == NextLink(ch, i);
    assert i == |ch| - 1;
    assert !IsDir(At(f, l));
    assert Holds(disk, ch, f.blocks[l]);
  }

  // ---------- A new volume ----------

  function EmptyLinks(): Links {
    [CLUSTER_0_VALUE, CLUSTER_1_VALUE, END_OF_FILE] + Zeros(MAP_SIZE - 3)
  }

  function Formatted(): FileSystem {
    FileSystem(EmptyLinks(), map[ROOT_CLUSTER := FreshTable(ROOT_NAME, ROOT_CLUSTER)], map[], map[], map[],
        map[ROOT_CLUSTER := 0])
  }

  lemma EmptyConsistent(chains: map<Loc, Chain>)
    requires chains == map[]
    ensures Consistent(EmptyLinks(), chains)
  {}

  lemma OneTableOk(f: FileSystem, t: Table)
    requires f == FileSystem(EmptyLinks(), map[ROOT_CLUSTER := t], map[], map[], map[], map[ROOT_CLUSTER := 0])
    requires TableOk(t) && IsEmptyTable(t) && t[0].name == ROOT_NAME && t[0].clusterLow == ROOT_CLUSTER
    ensures Inv(f)
  {
    hide Consistent, TableOk, EmptyLinks;
    EmptyConsistent(f.chains);
    assert forall l: Loc :: !Occupied(f, l);
  }

  lemma FormattedOk()
    ensures Inv(Formatted()) && TreeOf(Formatted()) == map[] && FreeCount(Formatted().fat) == MAP_SIZE - 3
  {
    FixedNamesCanonical();
    FreshTableOk(ROOT_NAME, ROOT_CLUSTER);
    hide Inv, FreshTable, TableOk, IsEmptyTable;
    OneTableOk(Formatted(), FreshTable(ROOT_NAME, ROOT_CLUSTER));
    assert TreeOf(Formatted()) == map[];
    AllFree(EmptyLinks(), 3);
  }

  lemma FormattedOnDisk(disk: Disk)
    requires Signed(disk) && disk[FAT_CLUSTER] == EncodeLinks(EmptyLinks())
    requires disk[ROOT_CLUSTER] == EncodeTable(FreshTable(ROOT_NAME, ROOT_CLUSTER))
    ensures OnDisk(disk, Formatted())
  {
    LinksRoundTrip(EmptyLinks());
    TableRoundTrip(FreshTable(ROOT_NAME, ROOT_CLUSTER));
  }

  lemma {:induction false} AllFree(fat: seq<int>, i: nat)
    requires i <= |fat| && forall j | i <= j < |fat| :: fat[j] == EMPTY
    ensures FreeFrom(fat, i) == |fat| - i
    decreases |fat| - i
  {
    if i == |fat| {
    } else {
      AllFree(fat, i + 1);
    }
  }

  // A fresh volume has no file to read, so no shell either.
  lemma FreshReadsNothing(f: FileSystem, r: Request)
    requires f == Formatted() && NameOk(r)
    ensures ReadCode(f, r) == if r.parent != ROOT_CLUSTER then -1
                              else if IsHeaderName(f.tabs[ROOT_CLUSTER], KeyReq(r)) then 1 else 2
  {
    hide Inv, TreeOf, ReadCode, FreshTable;
    FormattedOk();
    ReadCodes(f, r);
  }

  // Whoever may write files can make an impostor: the last cluster of the file is one as
  // soon as its twelfth byte is the attribute of a directory.
  lemma WriteMakesImpostor(f: FileSystem, r: Request, data: seq<Byte>)
    requires Inv(f) && NameOk(r) && WriteOk(r, data) && WriteCode(f, r) == 0 && !IsFolderRequest(r)
    requires BlocksOf(data, SizeOf(r))[Clusters(SizeOf(r)) - 1][11] == ATTR_SUBDIRECTORY
    ensures var g, cs := WriteNext(f, r, data), FirstFit(f.fat, 0, Clusters(SizeOf(r)));
            Impostor(g, cs[|cs| - 1]) && cs[|cs| - 1] !in g.tabs
  {
    WriteShape(f, r, data);
    var g, cs := WriteNext(f, r, data), FirstFit(f.fat, 0, Clusters(SizeOf(r)));
    var l: Loc := (r.parent, FirstFreeSlot(f.tabs[r.parent], 0));
    assert g.chains[l] == cs && g.blocks[l] == BlocksOf(data, SizeOf(r));
    FreeIsNoDir(f, cs[|cs| - 1]);
  }

  lemma EmptyHasRoom(t: Table, r: Request)
    requires IsEmptyTable(t) && NameOk(r)
    ensures !Clash(t, r) && FirstFreeSlot(t, 0) < SLOTS
  {
    assert !Live(t[2]);
  }

  lemma RootHasRoom(f: FileSystem, r: Request)
    requires f == Formatted() && NameOk(r) && r.parent == ROOT_CLUSTER && SizeOf(r) == CLUSTER_SIZE
    ensures WriteCode(f, r) == 0
  {
    FixedNamesCanonical();
    FreshTableOk(ROOT_NAME, ROOT_CLUSTER);
    EmptyHasRoom(FreshTable(ROOT_NAME, ROOT_CLUSTER), r);
    hide Inv, TableOk, FreshTable, FirstFit, TreeOf, FreeFrom, IsEmptyTable, Clash, FirstFreeSlot;
    FirstFitCount(f.fat, 0, Clusters(SizeOf(r)));
    FormattedOk();
  }

  function DirectoryLike(): (b: Block)
    ensures b[11] == ATTR_SUBDIRECTORY
  {
    Zeros(11) + [ATTR_SUBDIRECTORY] + Zeros(CLUSTER_SIZE - 12)
  }

  lemma FooledBy(f: FileSystem, r: Request) returns (data: seq<Byte>, p: nat)
    requires Inv(f) && NameOk(r) && r.bufferSize == CLUSTER_SIZE && WriteCode(f, r) == 0
    ensures WriteOk(r, data) && Impostor(WriteNext(f, r, data), p) && p !in WriteNext(f, r, data).tabs
  {
    hide Inv;
    hide BlocksOf, WriteNext, FirstFit, DirectoryLike;
    data := DirectoryLike();
    OneBlock(data, SizeOf(r));
    WriteMakesImpostor(f, r, data);
    var cs := FirstFit(f.fat, 0, Clusters(SizeOf(r)));
    FitInRange(f, r);
    p := cs[|cs| - 1];
  }

  // On a new volume the parent check can be fooled by a single write.
  lemma GuardFooled(f: FileSystem) returns (r: Request, data: seq<Byte>, p: nat)
    requires f == Formatted()
    ensures Inv(f) && NameOk(r) && WriteOk(r, data) && WriteCode(f, r) == 0
    ensures Impostor(WriteNext(f, r, data), p) && p !in WriteNext(f, r, data).tabs
  {
    r := Request(Zeros(8), [98, 0, 0], ROOT_CLUSTER, CLUSTER_SIZE);
    RootHasRoom(f, r);
    FormattedOk();
    data, p := FooledBy(f, r);
  }

  // ---------- The disk after each operation ----------

  // Only cluster p, the allocation table and the clusters of cs were written.
  ghost predicate Touches(disk: Disk, disk': Disk, p: nat, cs: Chain) {
    && Signed(disk') == Signed(disk)
    && forall c | 0 <= c < MAP_SIZE && c != p && c != FAT_CLUSTER && c !in cs :: disk'[c] == disk[c]
  }

  lemma DirKept(disk: Disk, disk': Disk, f: FileSystem, p: nat, cs: Chain, d: nat)
    requires Inv(f) && OnDisk(disk, f) && Touches(disk, disk', p, cs)
    requires d in f.tabs && d != p && d !in cs
    ensures d < MAP_SIZE && DecodeTable(disk'[d]) == f.tabs[d]
  {
    DirCluster(f, d);
  }

  lemma FileKept(disk: Disk, disk': Disk, f: FileSystem, p: nat, cs: Chain, l: Loc)
    requires Inv(f) && OnDisk(disk, f) && Touches(disk, disk', p, cs)
    requires p in f.tabs && l in f.blocks && l in f.chains && forall c | c in f.chains[l] :: c !in cs
    ensures |f.blocks[l]| == |f.chains[l]| && Holds(disk', f.chains[l], f.blocks[l])
  {
    SlotInfo(f, l);
    assert Holds(disk, f.chains[l], f.blocks[l]);
    DirCluster(f, p);
  }

  lemma NotFree(f: FileSystem, l: Loc, cs: Chain)
    requires Inv(f) && l in f.chains && InRange(cs) && forall i | 0 <= i < |cs| :: f.fat[cs[i]] == EMPTY
    ensures forall c | c in f.chains[l] :: c !in cs
  {
    SlotInfo(f, l);
    var ch := f.chains[l];
    forall c | c in ch ensures c !in cs {
      var i :| 0 <= i < |ch| && ch[i] == c;
      assert f.fat[ch[i]] == NextLink(ch, i);
    }
  }

  lemma DirNotFree(f: FileSystem, d: nat, cs: Chain)
    requires Inv(f) && d in f.tabs && InRange(cs) && forall i | 0 <= i < |cs| :: f.fat[cs[i]] == EMPTY
    ensures d !in cs
  {
    DirCluster(f, d);
  }

  // The disk once the parent's table, the clusters and the allocation table have been written.
  function FilledDisk(disk: Disk, p: nat, t: Table, cs: Chain, bl: seq<Block>, fat: Links): Disk
    requires p < MAP_SIZE && InRange(cs) && |bl| == |cs|
  {
    Scatter(disk[p := EncodeTable(t)], cs, bl)[FAT_CLUSTER := EncodeLinks(fat)]
  }

  lemma FilledDiskHas(disk: Disk, f: FileSystem, p: nat, t: Table, cs: Chain, bl: seq<Block>, fat: Links)
    requires Inv(f) && OnDisk(disk, f) && p in f.tabs && p < MAP_SIZE && InRange(cs) && |bl| == |cs| && Distinct(cs)
             && p !in cs
    ensures var disk' := FilledDisk(disk, p, t, cs, bl, fat);
            && Touches(disk, disk', p, cs) && Signed(disk')
            && DecodeLinks(disk'[FAT_CLUSTER]) == fat && DecodeTable(disk'[p]) == t
            && Holds(disk', cs, bl)
  {
    DirCluster(f, p);
    ScatterAt(disk[p := EncodeTable(t)], cs, bl);
    LinksRoundTrip(fat);
    TableRoundTrip(t);
  }

  lemma FileOnDisk(disk: Disk, f: FileSystem, l: Loc, e: DirEntry, cs: Chain, bl: seq<Block>)
    requires Inv(f) && OnDisk(disk, f) && Fillable(f, l, e, cs) && l.0 < MAP_SIZE && |bl| == |cs|
    ensures OnDisk(FilledDisk(disk, l.0, f.tabs[l.0][l.1 := e], cs, bl, Linked(f.fat, cs)), AddFile(f, l, e, cs, bl))
  {
    var disk' := FilledDisk(disk, l.0, f.tabs[l.0][l.1 := e], cs, bl, Linked(f.fat, cs));
    var g := AddFile(f, l, e, cs, bl);
    DirNotFree(f, l.0, cs);
    FilledDiskHas(disk, f, l.0, f.tabs[l.0][l.1 := e], cs, bl, Linked(f.fat, cs));
    forall d | d in g.tabs && d < MAP_SIZE ensures DecodeTable(disk'[d]) == g.tabs[d] {
      if d != l.0 {
        DirNotFree(f, d, cs);
        DirKept(disk, disk', f, l.0, cs, d);
      }
    }
    forall m | m in g.blocks && m in g.chains && |g.blocks[m]| == |g.chains[m]|
      ensures Holds(disk', g.chains[m], g.blocks[m])
    {
      if m != l {
        NotFree(f, m, cs);
        FileKept(disk, disk', f, l.0, cs, m);
      }
    }
  }

  lemma FolderOnDisk(disk: Disk, f: FileSystem, l: Loc, e: DirEntry, c: nat, t: Table)
    requires Inv(f) && OnDisk(disk, f) && Fillable(f, l, e, [c]) && l.0 < MAP_SIZE && c !in f.tabs
    ensures OnDisk(FilledDisk(disk, l.0, f.tabs[l.0][l.1 := e], [c], [EncodeTable(t)], Linked(f.fat, [c])),
            AddFolder(f, l, e, c, t))
  {
    var disk' := FilledDisk(disk, l.0, f.tabs[l.0][l.1 := e], [c], [EncodeTable(t)], Linked(f.fat, [c]));
    var g := AddFolder(f, l, e, c, t);
    DirNotFree(f, l.0, [c]);
    FilledDiskHas(disk, f, l.0, f.tabs[l.0][l.1 := e], [c], [EncodeTable(t)], Linked(f.fat, [c]));
    assert disk'[[c][0]] == EncodeTable(t);
    TableRoundTrip(t);
    forall d | d in g.tabs && d < MAP_SIZE ensures DecodeTable(disk'[d]) == g.tabs[d] {
      if d != l.0 && d != c {
        DirKept(disk, disk', f, l.0, [c], d);
      }
    }
    forall m | m in g.blocks && m in g.chains && |g.blocks[m]| == |g.chains[m]|
      ensures Holds(disk', g.chains[m], g.blocks[m])
    {
      assert m != l by { assert !Occupied(f, l); }
      NotFree(f, m, [c]);
      FileKept(disk, disk', f, l.0, [c], m);
    }
  }

  // The disk that a successful write leaves holds the state that it leads to.
  function SourceOf(r: Request, data: seq<Byte>): seq<Byte>
    requires Sized(r) && r.parent < MAP_SIZE
  {
    if IsFolderRequest(r) then EncodeTable(FreshTable(r.name, r.parent)) else data
  }

  lemma OneBlock(b: Block, size: nat)
    requires size == CLUSTER_SIZE
    ensures BlocksOf(b, size) == [b]
  {
    assert BlockAt(b, size, 0) == b[CLUSTER_SIZE * 0..CLUSTER_SIZE * (0 + 1)] == b;
  }

  lemma WrittenOnDisk(disk: Disk, f: FileSystem, r: Request, data: seq<Byte>, s: nat, cs: Chain)
    requires Inv(f) && OnDisk(disk, f) && Sized(r) && WriteOk(r, data) && WriteCode(f, r) == 0 && Storable(f, r)
    requires s == FirstFreeSlot(f.tabs[r.parent], 0) && cs == FirstFit(f.fat, 0, Clusters(SizeOf(r)))
    ensures r.parent < MAP_SIZE && InRange(cs) && Distinct(cs) && |cs| == Clusters(SizeOf(r)) > 0
    ensures 2 <= s < SLOTS
    ensures var t := f.tabs[r.parent][s := NewEntry(f.tabs[r.parent][s], r, cs[0])];
            var g := WriteNext(f, r, data);
            && Inv(g) && g.fat == Linked(f.fat, cs)
            && OnDisk(FilledDisk(disk, r.parent, t, cs, BlocksOf(SourceOf(r, data), SizeOf(r)), Linked(f.fat, cs)), g)
  {
    hide Inv, OnDisk, TreeOf;
    StoreShape(f, r, data);
    StoreRefines(f, r, data);
    FreshFromPadded(r.name, r.parent);
    var e, l: Loc := NewEntry(f.tabs[r.parent][s], r, cs[0]), (r.parent, s);
    if IsFolderRequest(r) {
      var t := FreshTable(r.name, r.parent);
      OneBlock(EncodeTable(t), SizeOf(r));
      assert f.fat[cs[0]] == EMPTY;
      FreeIsNoDir(f, cs[0]);
      FolderOnDisk(disk, f, l, e, cs[0], t);
    } else {
      FileOnDisk(disk, f, l, e, cs, BlocksOf(data, SizeOf(r)));
    }
  }

  // delete wipes the chain, then writes the allocation table and the parent's table.
  function ClearedDisk(disk: Disk, p: nat, t: Table, cs: Chain, fat: Links): Disk
    requires p < MAP_SIZE && InRange(cs)
  {
    Scatter(disk, cs, ZeroBlocks(|cs|))[FAT_CLUSTER := EncodeLinks(fat)][p := EncodeTable(t)]
  }

  lemma ClearedDiskHas(disk: Disk, f: FileSystem, p: nat, t: Table, cs: Chain, fat: Links)
    requires Inv(f) && OnDisk(disk, f) && p in f.tabs && p < MAP_SIZE && InRange(cs) && Distinct(cs) && p !in cs
    ensures var disk' := ClearedDisk(disk, p, t, cs, fat);
            && Touches(disk, disk', p, cs) && Signed(disk')
            && DecodeLinks(disk'[FAT_CLUSTER]) == fat && DecodeTable(disk'[p]) == t
            && forall c | c in cs :: disk'[c] == ZERO_BLOCK
  {
    DirCluster(f, p);
    ScatterAt(disk, cs, ZeroBlocks(|cs|));
    LinksRoundTrip(fat);
    TableRoundTrip(t);
  }

  lemma DirNotRemoved(f: FileSystem, l: Loc, d: nat)
    requires Inv(f) && l in f.chains && d in f.tabs && d in f.chains[l]
    ensures d in f.home && l.0 in f.tabs && l.1 < SLOTS && IsDir(At(f, l)) && f.chains[l] == [d] && d != l.0
  {
    DirCluster(f, d);
    assert HomeOk(f, d);
  }

  lemma OtherChain(f: FileSystem, l: Loc, m: Loc)
    requires Inv(f) && l in f.chains && m in f.chains && l != m
    ensures forall c | c in f.chains[m] :: c !in f.chains[l]
  {}

  lemma OwnChain(f: FileSystem, l: Loc)
    requires Inv(f) && l in f.chains
    ensures IsChain(f.fat, f.chains[l]) && Distinct(f.chains[l])
  {
    SlotInfo(f, l);
    ChainDistinct(f.fat, f.chains, l);
  }

  lemma OtherDirKept(disk: Disk, disk': Disk, f: FileSystem, l: Loc, d: nat)
    requires Inv(f) && OnDisk(disk, f) && l in f.chains && Touches(disk, disk', l.0, f.chains[l])
    requires d in Remove(f, l).tabs && d != l.0
    ensures d in f.tabs && Remove(f, l).tabs[d] == f.tabs[d] && d < MAP_SIZE && DecodeTable(disk'[d]) == f.tabs[d]
  {
    SlotInfo(f, l);
    if d in f.chains[l] {
      DirNotRemoved(f, l, d);
    }
    DirKept(disk, disk', f, l.0, f.chains[l], d);
  }

  lemma OtherFileKept(disk: Disk, disk': Disk, f: FileSystem, l: Loc, m: Loc)
    requires Inv(f) && OnDisk(disk, f) && l in f.chains && Touches(disk, disk', l.0, f.chains[l])
    requires m in f.blocks && m in f.chains && m != l
    ensures |f.blocks[m]| == |f.chains[m]| && Holds(disk', f.chains[m], f.blocks[m])
  {
    SlotInfo(f, l);
    OtherChain(f, l, m);
    FileKept(disk, disk', f, l.0, f.chains[l], m);
  }

  lemma ParentNotRemoved(f: FileSystem, l: Loc)
    requires Inv(f) && l in f.chains
    ensures l.0 in f.tabs && l.0 !in f.chains[l]
  {
    SlotInfo(f, l);
    if l.0 in f.chains[l] {
      DirNotRemoved(f, l, l.0);
    }
  }

  lemma RemovedOnDisk(disk: Disk, f: FileSystem, l: Loc)
    requires Inv(f) && OnDisk(disk, f) && l in f.chains && Occupied(f, l) && SlotOk(f, l) && l.0 < MAP_SIZE
    ensures InRange(f.chains[l])
    ensures var g := Remove(f, l);
            && (forall c | c in f.chains[l] ::
                  ClearedDisk(disk, l.0, f.tabs[l.0][l.1 := Cleared(At(f, l))], f.chains[l], g.fat)[c] == ZERO_BLOCK)
            && l.0 !in f.chains[l]
            && OnDisk(ClearedDisk(disk, l.0, f.tabs[l.0][l.1 := Cleared(At(f, l))], f.chains[l], g.fat), g)
  {
    hide Inv, ClearedDisk, Touches, Holds, Cleared, SlotOk;
    OwnChain(f, l);
    var g, cs, t := Remove(f, l), f.chains[l], f.tabs[l.0][l.1 := Cleared(At(f, l))];
    var disk' := ClearedDisk(disk, l.0, t, cs, g.fat);
    ParentNotRemoved(f, l);
    ClearedDiskHas(disk, f, l.0, t, cs, g.fat);
    forall d | d in g.tabs && d < MAP_SIZE ensures DecodeTable(disk'[d]) == g.tabs[d] {
      if d != l.0 {
        OtherDirKept(disk, disk', f, l, d);
      }
    }
    forall m | m in g.blocks && m in g.chains && |g.blocks[m]| == |g.chains[m]|
      ensures Holds(disk', g.chains[m], g.blocks[m])
    {
      OtherFileKept(disk, disk', f, l, m);
    }
  }

  // The disk that a successful delete leaves holds the state that it leads to.
  lemma DeletedOnDisk(disk: Disk, f: FileSystem, r: Request, s: nat)
    requires Inv(f) && OnDisk(disk, f) && r.parent < MAP_SIZE && DeleteCode(f, r) == 0
    requires s == FirstMatch(f.tabs[r.parent], 2, KeyReq(r))
    ensures var l, g := (r.parent, s), DeleteNext(f, r);
            && s < SLOTS && l in f.chains && IsChain(f.fat, f.chains[l]) && Distinct(f.chains[l])
            && ClusterOf(At(f, l)) == f.chains[l][0]
            && Inv(g) && g.fat == Freed(f.fat, f.chains[l])
            && var disk' := ClearedDisk(disk, r.parent, f.tabs[r.parent][s := Cleared(At(f, l))], f.chains[l], g.fat);
               OnDisk(disk', g) && forall c | c in f.chains[l] :: disk'[c] == ZERO_BLOCK
  {
    hide Inv, OnDisk, TreeOf;
    DeleteFinds(f, r);
    DeleteRefines(f, r);
    OwnChain(f, (r.parent, s));
    RemovedOnDisk(disk, f, (r.parent, s));
  }

  lemma DirectoryTarget(disk: Disk, f: FileSystem, r: Request)
    requires Inv(f) && OnDisk(disk, f) && ReadDirectoryCode(f, r) == 0
    ensures var d := ReadDirectoryTarget(f, r);
            && d in f.tabs && d < MAP_SIZE && DecodeTable(disk[d]) == f.tabs[d]
    ensures var e := f.tabs[r.parent][FirstMatch(f.tabs[r.parent], 0, KeyReq(r))];
            e.clusterHigh == 0
  {
    assert TableOk(f.tabs[r.parent]);
    ReadDirectoryCodes(f, r);
    DirCluster(f, ReadDirectoryTarget(f, r));
  }

  lemma OnDiskTable(disk: Disk, f: FileSystem, d: nat)
    requires OnDisk(disk, f) && d in f.tabs && d < MAP_SIZE
    ensures DecodeTable(disk[d]) == f.tabs[d]
  {}

  lemma ReadOpensDir(f: FileSystem, r: Request)
    requires ReadCode(f, r) == 0
    ensures r.parent in f.tabs && FirstMatch(f.tabs[r.parent], 0, KeyReq(r)) < SLOTS
  {}

  // What a successful read finds behind the entry.
  lemma ReadableChain(disk: Disk, f: FileSystem, r: Request)
    requires Inv(f) && OnDisk(disk, f) && ReadCode(f, r) == 0
    ensures var l := (r.parent, FirstMatch(f.tabs[r.parent], 0, KeyReq(r)));
            && l in f.chains && l in f.blocks && f.blocks[l] == ReadResult(f, r)
            && IsChain(f.fat, f.chains[l]) && |f.chains[l]| == |f.blocks[l]| == Clusters(At(f, l).filesize)
            && |f.chains[l]| <= Clusters(r.bufferSize)
            && ClusterOf(At(f, l)) == f.chains[l][0]
            && Holds(disk, f.chains[l], f.blocks[l])
  {
    HeaderFirst(f, r);
    DeleteFinds(f, r);
    var l: Loc := (r.parent, FirstMatch(f.tabs[r.parent], 0, KeyReq(r)));
    SlotInfo(f, l);
    assert Holds(disk, f.chains[l], f.blocks[l]);
  }
}
