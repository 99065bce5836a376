/**
 When a write leaves no consistent file system: when its parent only looks like a
 directory, so that the clusters it links belong to no entry, and when it stores a key
 that is there already (src/code/filesystem/fat32.c:161-171, 264-425).
 */
module Impostors {
  import opened Bytes
  import opened Layout
  import opened Fat
  import opened Forest
  import opened Steps
  import opened Refinement
  import opened Volume
  import opened Requests

  // Some consistent file system lies on the disk.
  ghost predicate Mountable(disk: Disk) {
    exists f :: Inv(f) && OnDisk(disk, f)
  }

  lemma OneIsMountable(disk: Disk, f: FileSystem)
    requires Inv(f) && OnDisk(disk, f)
    ensures Mountable(disk)
  {}

  // disk' is disk with cs linked, and with nothing else changed but cluster p.
  ghost predicate LinkedBehind(disk: Disk, disk': Disk, f: FileSystem, g: FileSystem, p: nat, cs: Chain) {
    && Inv(f) && OnDisk(disk, f) && Inv(g) && OnDisk(disk', g)
    && InRange(cs) && Distinct(cs) && (forall i | 0 <= i < |cs| :: f.fat[cs[i]] == EMPTY)
    && g.fat == Linked(f.fat, cs) && p !in f.tabs
    && forall c | 0 <= c < MAP_SIZE && c != p && c != FAT_CLUSTER && c !in cs :: disk'[c] == disk[c]
  }

  // A directory of the old file system reads as it did.
  lemma SameTableStill(disk: Disk, disk': Disk, f: FileSystem, g: FileSystem, p: nat, cs: Chain, d: nat)
    requires LinkedBehind(disk, disk', f, g, p, cs) && d in f.tabs && d in g.tabs
    ensures g.tabs[d] == f.tabs[d]
  {
    hide Inv;
    DirCluster(f, d);
    DirNotFree(f, d, cs);
    OnDiskTable(disk, f, d);
    OnDiskTable(disk', g, d);
  }

  // The new file system has no directory that the old one did not have.
  lemma {:induction false} OldDirectory(disk: Disk, disk': Disk, f: FileSystem, g: FileSystem, p: nat, cs: Chain,
                                        d: nat)
    requires LinkedBehind(disk, disk', f, g, p, cs) && d in g.tabs
    ensures d in f.tabs && g.tabs[d] == f.tabs[d]
    decreases g.depth[d]
  {
    if d == ROOT_CLUSTER {
    } else {
      assert HomeOk(g, d);
      var l := g.home[d];
      OldDirectory(disk, disk', f, g, p, cs, l.0);
      SlotInfo(g, l);
      assert Occupied(f, l);
      SlotInfo(f, l);
    }
    SameTableStill(disk, disk', f, g, p, cs, d);
  }

  // Nor any entry, and each entry has the chain that it had.
  lemma OldChain(disk: Disk, disk': Disk, f: FileSystem, g: FileSystem, p: nat, cs: Chain, l: Loc)
    requires LinkedBehind(disk, disk', f, g, p, cs) && l in g.chains
    ensures l in f.chains && g.chains[l] == f.chains[l]
  {
    SlotInfo(g, l);
    OldDirectory(disk, disk', f, g, p, cs, l.0);
    assert Occupied(f, l);
    SlotInfo(f, l);
    NotFree(f, l, cs);
    StillChain(f.fat, cs, f.chains[l]);
    ChainUnique(g.fat, g.chains[l], f.chains[l]);
  }

  lemma StillChain(fat: Links, cs: Chain, ch: Chain)
    requires IsChain(fat, ch) && InRange(cs) && forall c | c in ch :: c !in cs
    ensures IsChain(Linked(fat, cs), ch)
  {
    forall i | 0 <= i < |ch| ensures Linked(fat, cs)[ch[i]] == NextLink(ch, i) {
      assert ch[i] in ch;
    }
  }

  // So the linked clusters have no owner.
  lemma NobodyOwns(disk: Disk, disk': Disk, f: FileSystem, g: FileSystem, p: nat, cs: Chain)
    requires LinkedBehind(disk, disk', f, g, p, cs)
    ensures cs == []
  {
    if cs != [] {
      ScatterAt(f.fat, cs, NextLinks(cs));
      assert g.fat[cs[0]] == NextLink(cs, 0) != EMPTY;
      assert Owned(g.chains, cs[0]);
      var l :| l in g.chains && cs[0] in g.chains[l];
      OldChain(disk, disk', f, g, p, cs, l);
      NotFree(f, l, cs);
    }
  }

  // A write that fills a table outside the tree leaves no consistent file system behind.
  lemma StrayWriteBreaks(disk: Disk, f: FileSystem, p: nat, t: Table, cs: Chain, bl: seq<Block>)
    requires Inv(f) && OnDisk(disk, f) && p < MAP_SIZE && p !in f.tabs
    requires InRange(cs) && Distinct(cs) && cs != [] && |bl| == |cs|
    requires forall i | 0 <= i < |cs| :: f.fat[cs[i]] == EMPTY
    ensures !Mountable(FilledDisk(disk, p, t, cs, bl, Linked(f.fat, cs)))
  {
    var disk' := FilledDisk(disk, p, t, cs, bl, Linked(f.fat, cs));
    LinksRoundTrip(Linked(f.fat, cs));
    if Mountable(disk') {
      var g :| Inv(g) && OnDisk(disk', g);
      NobodyOwns(disk, disk', f, g, p, cs);
    }
  }

  // The signature survives it: a remount takes such a disk for a good one.
  lemma StrayWriteStaysSigned(disk: Disk, f: FileSystem, p: nat, t: Table, cs: Chain, bl: seq<Block>)
    requires Inv(f) && OnDisk(disk, f) && p < MAP_SIZE && Impostor(f, p)
    requires InRange(cs) && Distinct(cs) && cs != [] && |bl| == |cs|
    requires forall i | 0 <= i < |cs| :: f.fat[cs[i]] == EMPTY
    ensures var disk' := FilledDisk(disk, p, t, cs, bl, Linked(f.fat, cs));
            Signed(disk') && !Mountable(disk')
  {
    ImpostorIsNoDir(f, p);
    StrayWriteBreaks(disk, f, p, t, cs, bl);
    hide Inv, OnDisk, Mountable, EncodeTable, EncodeLinks;
    assert 0 !in cs;
  }

  // A signature alone makes no file system.
  lemma SignedIsNotEnough(disk: Disk)
    requires Signed(disk) && disk[FAT_CLUSTER] == ZERO_BLOCK
    ensures !Mountable(disk)
  {
    assert DecodeLinks(ZERO_BLOCK)[0] == FromLe32(ZERO_BLOCK[0..4]) == 0;
  }

  lemma ImpostorIsNoDir(f: FileSystem, p: nat)
    requires Inv(f) && Impostor(f, p)
    ensures p !in f.tabs && p >= 3
  {
    var l: Loc :| l in f.blocks && l in f.chains && |f.chains[l]| == |f.blocks[l]| > 0
                  && f.chains[l][|f.chains[l]| - 1] == p && f.blocks[l][|f.chains[l]| - 1][11] == ATTR_SUBDIRECTORY;
    SlotInfo(f, l);
    if p in f.tabs {
      DirCluster(f, p);
    }
  }

  // What first fit hands to write, whatever the parent.
  lemma FitIsFree(f: FileSystem, n: nat)
    requires Inv(f)
    ensures var cs := FirstFit(f.fat, 0, n);
            InRange(cs) && Distinct(cs) && forall i | 0 <= i < |cs| :: f.fat[cs[i]] == EMPTY
  {
    FirstFitInRange(f.fat, n);
    FirstFitFree(f.fat, 0, n);
    var cs := FirstFit(f.fat, 0, n);
    assert forall i | 0 <= i < |cs| :: cs[i] in cs;
  }

  // ---------- A key that may not be stored ----------

  // The directories of the old file system are all there afterwards, with slot s of p filled.
  lemma {:induction false} DirectorySurvives(disk': Disk, f: FileSystem, g: FileSystem, p: nat, s: nat, e: DirEntry,
                                             d: nat)
    requires Inv(f) && Inv(g) && OnDisk(disk', g) && d in f.tabs
    requires p in f.tabs && 2 <= s < SLOTS && !Live(f.tabs[p][s])
    requires forall c | c in f.tabs && c < MAP_SIZE ::
               DecodeTable(disk'[c]) == if c == p then f.tabs[p][s := e] else f.tabs[c]
    ensures d in g.tabs && g.tabs[d] == if d == p then f.tabs[p][s := e] else f.tabs[d]
    decreases f.depth[d]
  {
    hide Inv, OnDisk, DecodeTable;
    DirCluster(f, d);
    HomeFacts(f, d);
    RootThere(g);
    if d == ROOT_CLUSTER {
    } else {
      DirectorySurvives(disk', f, g, p, s, e, f.home[d].0);
      HomeSurvives(f, g, d);
    }
    OnDiskTable(disk', g, d);
  }

  lemma HomeFacts(f: FileSystem, d: nat)
    requires Inv(f) && d in f.tabs
    ensures f.depth.Keys == f.tabs.Keys
    ensures d == ROOT_CLUSTER
            || (d in f.home && f.home[d].0 in f.tabs && f.home[d].1 < SLOTS && Live(At(f, f.home[d]))
                && f.depth[f.home[d].0] < f.depth[d])
  {
    assert d != ROOT_CLUSTER ==> HomeOk(f, d);
  }

  lemma RootThere(f: FileSystem)
    requires Inv(f)
    ensures ROOT_CLUSTER in f.tabs
  {}

  lemma HomeSurvives(f: FileSystem, g: FileSystem, d: nat)
    requires Inv(f) && Inv(g) && d in f.home
    requires f.home[d].0 in f.tabs && f.home[d].0 in g.tabs && f.home[d].1 < SLOTS
    requires At(g, f.home[d]) == At(f, f.home[d])
    ensures d in g.tabs
  {
    assert HomeOk(f, d);
    var l := f.home[d];
    SlotInfo(f, l);
    assert Occupied(g, l);
    SlotInfo(g, l);
  }

  // A table that is not canonical, or has twins, leaves no consistent file system.
  lemma BadTableBreaks(disk: Disk, f: FileSystem, p: nat, s: nat, e: DirEntry, cs: Chain, bl: seq<Block>)
    requires Inv(f) && OnDisk(disk, f) && p in f.tabs && p < MAP_SIZE
    requires 2 <= s < SLOTS && !Live(f.tabs[p][s]) && !TableOk(f.tabs[p][s := e])
    requires InRange(cs) && Distinct(cs) && |bl| == |cs| && forall i | 0 <= i < |cs| :: f.fat[cs[i]] == EMPTY
    ensures !Mountable(FilledDisk(disk, p, f.tabs[p][s := e], cs, bl, Linked(f.fat, cs)))
  {
    hide TableOk, Linked, EncodeTable, DecodeTable, EncodeLinks;
    var t, disk' := f.tabs[p][s := e], FilledDisk(disk, p, f.tabs[p][s := e], cs, bl, Linked(f.fat, cs));
    DirNotFree(f, p, cs);
    FilledDiskHas(disk, f, p, t, cs, bl, Linked(f.fat, cs));
    forall c | c in f.tabs && c < MAP_SIZE ensures DecodeTable(disk'[c]) == if c == p then t else f.tabs[c] {
      if c != p {
        DirNotFree(f, c, cs);
        DirKept(disk, disk', f, p, cs, c);
      }
    }
    if Mountable(disk') {
      var g :| Inv(g) && OnDisk(disk', g);
      DirectorySurvives(disk', f, g, p, s, e, p);
    }
  }

  // What write stores is a good table exactly when the key may be stored.
  lemma StoredTable(f: FileSystem, r: Request, s: nat, first: nat)
    requires Inv(f) && Sized(r) && r.parent in f.tabs && first < MAP_SIZE && SizeOf(r) < U32
    requires 2 <= s < SLOTS && !Live(f.tabs[r.parent][s])
    ensures TableOk(f.tabs[r.parent][s := NewEntry(f.tabs[r.parent][s], r, first)]) <==> Storable(f, r)
  {
    hide NewEntry, TreeOf;
    var t, e := f.tabs[r.parent], NewEntry(f.tabs[r.parent][s], r, first);
    assert TableOk(t);
    StoredEntry(t[s], r, first);
    if (r.parent, StoredKey(r)) in TreeOf(f) {
      var j := TreeSlot(f, r.parent, StoredKey(r));
      assert t[s := e][j] == t[j] && t[s := e][s] == e;
      assert KeyOf(t[s := e][j]) == KeyOf(t[s := e][s]);
    } else {
      forall j | 2 <= j < SLOTS && Live(t[j]) && j != s ensures KeyOf(t[j]) != KeyOf(e) {
        assert Occupied(f, (r.parent, j));
        TreeAt(f, (r.parent, j));
      }
      if Canonical(StoredKey(r).ext) {
        FilledTable(t, s, e);
      } else {
        assert t[s := e][s] == e;
      }
    }
  }

  // ---------- What a write leaves ----------

  lemma FailedWrite(f: FileSystem, r: Request, data: seq<Byte>)
    requires Inv(f) && Sized(r) && WriteOk(r, data)
    ensures WriteCode(f, r) != 0 ==> WriteNext(f, r, data) == f
  {}

  lemma GoodCommit(disk: Disk, f: FileSystem, r: Request, data: seq<Byte>, t: Table, s: nat, cs: Chain)
    requires Inv(f) && OnDisk(disk, f) && Sized(r) && r.parent < MAP_SIZE && WriteOk(r, data)
    requires RawWriteCode(f.fat, disk, r) == 0 && t == DecodeTable(disk[r.parent]) && s == FirstFreeSlot(t, 0)
    requires cs == FirstFit(f.fat, 0, Clusters(SizeOf(r))) && !Impostor(f, r.parent) && Storable(f, r)
    ensures s < SLOTS && |cs| == Clusters(SizeOf(r)) > 0 && InRange(cs)
    ensures var g := WriteNext(f, r, data);
            && Inv(g) && g.fat == Linked(f.fat, cs)
            && OnDisk(FilledDisk(disk, r.parent, t[s := NewEntry(t[s], r, cs[0])], cs,
                                 BlocksOf(SourceOf(r, data), SizeOf(r)), Linked(f.fat, cs)), g)
  {
    hide Inv, OnDisk, RawWriteCode, FilledDisk, NewEntry, Linked, BlocksOf, FirstFit, DecodeTable, Impostor, Storable;
    RawWriteAgrees(disk, f, r);
    WrittenOnDisk(disk, f, r, data, s, cs);
  }

  lemma BadCommit(disk: Disk, f: FileSystem, r: Request, data: seq<Byte>, t: Table, s: nat, cs: Chain)
    requires Inv(f) && OnDisk(disk, f) && Sized(r) && r.parent < MAP_SIZE && WriteOk(r, data)
    requires RawWriteCode(f.fat, disk, r) == 0 && t == DecodeTable(disk[r.parent]) && s == FirstFreeSlot(t, 0)
    requires cs == FirstFit(f.fat, 0, Clusters(SizeOf(r))) && (Impostor(f, r.parent) || !Storable(f, r))
    ensures s < SLOTS && |cs| == Clusters(SizeOf(r)) > 0 && InRange(cs)
    ensures !Mountable(FilledDisk(disk, r.parent, t[s := NewEntry(t[s], r, cs[0])], cs,
                                  BlocksOf(SourceOf(r, data), SizeOf(r)), Linked(f.fat, cs)))
  {
    FitIsFree(f, Clusters(SizeOf(r)));
    assert s < SLOTS && |cs| == Clusters(SizeOf(r)) > 0;
    hide Inv, OnDisk, FilledDisk, NewEntry, Linked, BlocksOf, FirstFit, DecodeTable, Impostor, Storable, Mountable,
         TableOk;
    var e, bl := NewEntry(t[s], r, cs[0]), BlocksOf(SourceOf(r, data), SizeOf(r));
    if Impostor(f, r.parent) {
      ImpostorIsNoDir(f, r.parent);
      StrayWriteBreaks(disk, f, r.parent, t[s := e], cs, bl);
    } else {
      RawWriteAgrees(disk, f, r);
      FitInRange(f, r);
      StoredTable(f, r, s, cs[0]);
      BadTableBreaks(disk, f, r.parent, s, e, cs, bl);
    }
  }

  // Whether the disk that a write commits holds a consistent file system.
  lemma CommitDecides(disk: Disk, f: FileSystem, r: Request, data: seq<Byte>, t: Table, s: nat, cs: Chain)
    requires Inv(f) && OnDisk(disk, f) && Sized(r) && r.parent < MAP_SIZE && WriteOk(r, data)
    requires RawWriteCode(f.fat, disk, r) == 0 && t == DecodeTable(disk[r.parent]) && s == FirstFreeSlot(t, 0)
    requires cs == FirstFit(f.fat, 0, Clusters(SizeOf(r)))
    ensures s < SLOTS && |cs| == Clusters(SizeOf(r)) > 0 && InRange(cs) && Distinct(cs)
    ensures NameOk(r) && !Impostor(f, r.parent) ==> Storable(f, r)
    ensures var disk' := FilledDisk(disk, r.parent, t[s := NewEntry(t[s], r, cs[0])], cs,
                                    BlocksOf(SourceOf(r, data), SizeOf(r)), Linked(f.fat, cs));
            && (Mountable(disk') <==> !Impostor(f, r.parent) && Storable(f, r))
            && (!Impostor(f, r.parent) && Storable(f, r) ==>
                  var g := WriteNext(f, r, data);
                  Inv(g) && g.fat == Linked(f.fat, cs) && OnDisk(disk', g))
  {
    hide Inv, OnDisk, RawWriteCode, FilledDisk, NewEntry, Linked, BlocksOf, FirstFit, DecodeTable, Impostor, Storable,
         Mountable, WriteNext;
    FitIsFree(f, Clusters(SizeOf(r)));
    if !Impostor(f, r.parent) {
      RawWriteAgrees(disk, f, r);
      if NameOk(r) {
        NameOkStores(f, r);
      }
    }
    if !Impostor(f, r.parent) && Storable(f, r) {
      GoodCommit(disk, f, r, data, t, s, cs);
      OneIsMountable(FilledDisk(disk, r.parent, t[s := NewEntry(t[s], r, cs[0])], cs,
                                BlocksOf(SourceOf(r, data), SizeOf(r)), Linked(f.fat, cs)), WriteNext(f, r, data));
    } else {
      BadCommit(disk, f, r, data, t, s, cs);
    }
  }

  // ---------- Names with bytes behind their NUL ----------

  // The duplicate check never sees a name with bytes after its NUL: none is ever stored.
  lemma UnpaddedNeverClashes(f: FileSystem, r: Request)
    requires Inv(f) && Sized(r) && r.parent in f.tabs && !Canonical(r.name)
    ensures !Clash(f.tabs[r.parent], r) && WriteCode(f, r) != 1
  {
    assert TableOk(f.tabs[r.parent]);
  }

  // So where a name is taken, the same name with a byte after its NUL makes a twin.
  lemma TwinCanBeMade(f: FileSystem, key: Key, parent: nat, size: nat) returns (r: Request)
    requires Inv(f) && (parent, key) in TreeOf(f) && |key.name| == 8 && |key.ext| == 3
    requires |CStr(key.name)| < 7
    ensures Sized(r) && r.parent == parent && r.bufferSize == size && r.ext == key.ext
    ensures parent in f.tabs && !Clash(f.tabs[parent], r)
    ensures StoredKey(r) == Key(key.name, if IsFolderRequest(r) then Zeros(3) else key.ext)
    ensures !IsFolderRequest(r) || key.ext == Zeros(3) ==> !Storable(f, r)
  {
    var s := TreeSlot(f, parent, key);
    assert TableOk(f.tabs[parent]) && EntryOk(f.tabs[parent][s]);
    r := Request(key.name[7 := 1], key.ext, parent, size);
    var n := |CStr(key.name)|;
    assert r.name[..n] == key.name[..n] == CStr(key.name);
    CStrIs(r.name, n);
    PadCanonical(key.name);
    assert r.name[n] == 0 && r.name[7] == 1;
    UnpaddedNeverClashes(f, r);
  }

  // ---------- The failing input ----------

  lemma TailOnDisk(disk: Disk, f: FileSystem, r: Request, data: Block)
    requires Inv(f) && NameOk(r) && r.bufferSize == CLUSTER_SIZE && WriteCode(f, r) == 0
    requires OnDisk(disk, WriteNext(f, r, data))
    ensures |FirstFit(f.fat, 0, 1)| == 1 && FirstFit(f.fat, 0, 1)[0] < MAP_SIZE
            && disk[FirstFit(f.fat, 0, 1)[0]] == data
  {
    WriteShape(f, r, data);
    OneBlock(data, SizeOf(r));
    var g, cs := WriteNext(f, r, data), FirstFit(f.fat, 0, Clusters(SizeOf(r)));
    var l: Loc := (r.parent, FirstFreeSlot(f.tabs[r.parent], 0));
    assert g.chains[l] == cs && g.blocks[l] == [data];
    assert Holds(disk, g.chains[l], g.blocks[l]);
  }

  lemma NothingLives(t: Table)
    requires t == DecodeTable(DirectoryLike())
    ensures forall s | 0 <= s < SLOTS :: !Live(t[s])
  {
    var b := DirectoryLike();
    forall s | 0 <= s < SLOTS ensures !Live(t[s]) {
      assert t[s] == DecodeEntry(b[32 * s..32 * s + 32]);
      assert b[32 * s..32 * s + 32][12] == b[32 * s + 12] == 0;
    }
  }

  // Two writes break a new volume: the first makes the impostor, the second goes through it.
  lemma StrayWriteSucceeds(disk: Disk, f: FileSystem, r: Request, q: Request)
    requires f == Formatted() && NameOk(r) && r.parent == ROOT_CLUSTER && r.bufferSize == CLUSTER_SIZE
    requires NameOk(q) && |FirstFit(f.fat, 0, 1)| == 1 && q.parent == FirstFit(f.fat, 0, 1)[0]
    requires Clusters(SizeOf(q)) < MAP_SIZE - 3
    ensures Inv(f) && WriteCode(f, r) == 0 && WriteOk(r, DirectoryLike())
    ensures var g := WriteNext(f, r, DirectoryLike());
            OnDisk(disk, g) ==> Impostor(g, q.parent) && q.parent < MAP_SIZE && RawWriteCode(g.fat, disk, q) == 0
  {
    hide Inv, TreeOf, WriteNext, WriteCode, DirectoryLike, Impostor, OnDisk, DecodeTable, Passes, Formatted, BlocksOf;
    FormattedOk();
    RootHasRoom(f, r);
    var data := DirectoryLike();
    var g := WriteNext(f, r, data);
    if OnDisk(disk, g) {
      OneBlock(data, SizeOf(r));
      WriteMakesImpostor(f, r, data);
      TailOnDisk(disk, f, r, data);
      WriteRefines(f, r, data);
      PassesIff(disk, g, q.parent);
      NothingLives(DecodeTable(disk[q.parent]));
      WriteTakes(f, r, data);
      FirstFitCount(g.fat, 0, Clusters(SizeOf(q)));
    }
  }
}
