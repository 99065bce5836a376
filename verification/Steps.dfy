/** Filling a slot and emptying a slot keep the invariant of the file system. */
module Steps {
  import opened Bytes
  import opened Layout
  import opened Fat
  import opened Forest

  // What the driver checked before it fills slot l with entry e and clusters cs.
  ghost predicate Fillable(f: FileSystem, l: Loc, e: DirEntry, cs: Chain) {
    && l.0 in f.tabs && 2 <= l.1 < SLOTS && !Live(f.tabs[l.0][l.1])
    && Live(e) && EntryOk(e)
    && (forall j | 2 <= j < SLOTS && Live(f.tabs[l.0][j]) :: KeyOf(f.tabs[l.0][j]) != KeyOf(e))
    && |cs| == Clusters(e.filesize) && |cs| > 0 && e.clusterLow == cs[0]
    && InRange(cs) && Distinct(cs) && (forall i | 0 <= i < |cs| :: f.fat[cs[i]] == EMPTY)
  }

  lemma FilledTable(t: Table, s: nat, e: DirEntry)
    requires TableOk(t) && 2 <= s < SLOTS && Live(e) && EntryOk(e)
    requires forall j | 2 <= j < SLOTS && Live(t[j]) && j != s :: KeyOf(t[j]) != KeyOf(e)
    ensures TableOk(t[s := e])
  {}

  lemma ClearedTable(t: Table, s: nat)
    requires TableOk(t) && 2 <= s < SLOTS
    ensures TableOk(t[s := Cleared(t[s])])
  {}

  // A slot, or a directory, of g that reads the same in f is as good in g as in f.
  ghost predicate SameSlot(f: FileSystem, g: FileSystem, m: Loc) {
    && m in f.chains && m in g.chains && Occupied(f, m) && m.0 in g.tabs
    && At(g, m) == At(f, m) && g.chains[m] == f.chains[m]
    && (m in g.blocks <==> m in f.blocks) && (m in g.blocks ==> g.blocks[m] == f.blocks[m])
  }

  lemma SlotKept(f: FileSystem, g: FileSystem, m: Loc)
    requires SameSlot(f, g, m) && SlotOk(f, m)
    requires IsDir(At(f, m)) ==> g.chains[m][0] in g.home && g.home[g.chains[m][0]] == m
    ensures Occupied(g, m) && SlotOk(g, m)
  {}

  lemma HomeKept(f: FileSystem, g: FileSystem, d: nat)
    requires f.tabs.Keys == f.depth.Keys && g.tabs.Keys == g.depth.Keys
    requires d in f.home && d in f.tabs && HomeOk(f, d)
    requires d in g.home && d in g.tabs && g.home[d] == f.home[d] && SameSlot(f, g, f.home[d])
    requires g.depth[d] == f.depth[d] && g.depth[f.home[d].0] == f.depth[f.home[d].0]
    requires g.tabs[d][0] == f.tabs[d][0]
    ensures HomeOk(g, d)
  {}

  lemma AddFileSlots(f: FileSystem, l: Loc, e: DirEntry, cs: Chain, bl: seq<Block>)
    requires Inv(f) && Fillable(f, l, e, cs) && !IsDir(e) && |bl| == |cs|
    ensures var g := AddFile(f, l, e, cs, bl);
            && (forall m: Loc {:trigger Occupied(g, m)} :: Occupied(g, m) <==> m in g.chains)
            && (forall m {:trigger SlotOk(g, m)} | m in g.chains && Occupied(g, m) :: SlotOk(g, m))
            && (forall m | m in f.chains :: SameSlot(f, g, m))
  {
    hide Consistent, TableOk, HomeOk, RootOk, Linked;
    var g := AddFile(f, l, e, cs, bl);
    assert !Occupied(f, l);
    forall m: Loc ensures Occupied(g, m) <==> m in g.chains {
      assert Occupied(f, m) <==> m in f.chains;
    }
    forall m | m in f.chains ensures SameSlot(f, g, m) && SlotOk(g, m) {
      SlotInfo(f, m);
      SlotKept(f, g, m);
    }
  }

  lemma AddFileKeeps(f: FileSystem, l: Loc, e: DirEntry, cs: Chain, bl: seq<Block>)
    requires Inv(f) && Fillable(f, l, e, cs) && !IsDir(e) && |bl| == |cs|
    ensures Inv(AddFile(f, l, e, cs, bl))
  {
    hide Consistent, SlotOk, TableOk;
    var g := AddFile(f, l, e, cs, bl);
    assert l !in f.chains by { assert !Occupied(f, l); }
    LinkKeeps(f.fat, f.chains, l, cs);
    AddFileSlots(f, l, e, cs, bl);
    forall d | d in g.tabs ensures TableOk(g.tabs[d]) {
      assert TableOk(f.tabs[d]);
      FilledTable(f.tabs[l.0], l.1, e);
    }
    forall d | d in g.home ensures HomeOk(g, d) {
      assert HomeOk(f, d);
      HomeKept(f, g, d);
    }
  }

  lemma FreshTableOk(name: seq<Byte>, parent: nat)
    requires |name| == 8 && Canonical(name) && parent < MAP_SIZE
    ensures TableOk(FreshTable(name, parent))
    ensures FreshTable(name, parent)[0].name == name && FreshTable(name, parent)[0].clusterLow == parent
    ensures IsEmptyTable(FreshTable(name, parent))
  {
    CopyIntoZeros(name);
  }

  lemma AddFolderOccupied(f: FileSystem, l: Loc, e: DirEntry, c: nat, t: Table)
    requires Inv(f) && Fillable(f, l, e, [c]) && c !in f.tabs && IsEmptyTable(t)
    ensures var g := AddFolder(f, l, e, c, t);
            forall m: Loc {:trigger Occupied(g, m)} :: Occupied(g, m) <==> m in g.chains
  {
    hide Consistent, TableOk, HomeOk, RootOk, SlotOk, Linked;
    var g := AddFolder(f, l, e, c, t);
    forall m: Loc ensures Occupied(g, m) <==> m in g.chains {
      assert Occupied(f, m) <==> m in f.chains;
    }
  }

  lemma AddFolderSlots(f: FileSystem, l: Loc, e: DirEntry, c: nat, t: Table)
    requires Inv(f) && Fillable(f, l, e, [c]) && IsDir(e) && c !in f.tabs && IsEmptyTable(t)
    ensures var g := AddFolder(f, l, e, c, t);
            && (forall m: Loc {:trigger Occupied(g, m)} :: Occupied(g, m) <==> m in g.chains)
            && (forall m {:trigger SlotOk(g, m)} | m in g.chains && Occupied(g, m) :: SlotOk(g, m))
            && (forall m | m in f.chains :: SameSlot(f, g, m))
  {
    hide Consistent, TableOk, HomeOk, RootOk, Linked;
    var g := AddFolder(f, l, e, c, t);
    assert !Occupied(f, l);
    AddFolderOccupied(f, l, e, c, t);
    forall m | m in f.chains ensures SameSlot(f, g, m) && SlotOk(g, m) {
      SlotInfo(f, m);
      SlotKept(f, g, m);
    }
  }

  lemma FreeIsNoDir(f: FileSystem, c: nat)
    requires Inv(f) && c < MAP_SIZE && f.fat[c] == EMPTY
    ensures c !in f.tabs
  {
    if c in f.tabs {
      DirCluster(f, c);
    }
  }

  lemma AddFolderTables(f: FileSystem, l: Loc, e: DirEntry, c: nat, t: Table)
    requires Inv(f) && Fillable(f, l, e, [c]) && TableOk(t)
    ensures var g := AddFolder(f, l, e, c, t);
            forall d {:trigger TableOk(g.tabs[d])} | d in g.tabs :: TableOk(g.tabs[d])
  {
    var g := AddFolder(f, l, e, c, t);
    forall d | d in g.tabs ensures TableOk(g.tabs[d]) {
      if d != c {
        assert TableOk(f.tabs[d]);
        FilledTable(f.tabs[l.0], l.1, e);
      }
    }
  }

  lemma AddFolderHomes(f: FileSystem, l: Loc, e: DirEntry, c: nat, t: Table)
    requires Inv(f) && Fillable(f, l, e, [c]) && IsDir(e) && c !in f.tabs && IsEmptyTable(t)
    requires t[0].name == e.name && t[0].clusterLow == l.0
    ensures var g := AddFolder(f, l, e, c, t);
            && g.tabs.Keys == g.depth.Keys
            && (forall d {:trigger HomeOk(g, d)} | d in g.home && d in g.tabs :: HomeOk(g, d))
  {
    var g := AddFolder(f, l, e, c, t);
    AddFolderSlots(f, l, e, c, t);
    forall d | d in g.home && d in g.tabs ensures HomeOk(g, d) {
      if d != c {
        assert HomeOk(f, d);
        HomeKept(f, g, d);
      }
    }
  }

  lemma AddFolderKeeps(f: FileSystem, l: Loc, e: DirEntry, c: nat)
    requires Inv(f) && Fillable(f, l, e, [c]) && IsDir(e) && l.0 < MAP_SIZE
    ensures Inv(AddFolder(f, l, e, c, FreshTable(e.name, l.0)))
    ensures c !in f.tabs
  {
    var t := FreshTable(e.name, l.0);
    assert f.fat[[c][0]] == EMPTY;
    FreeIsNoDir(f, c);
    FreshTableOk(e.name, l.0);
    assert l !in f.chains by { assert !Occupied(f, l); }
    LinkKeeps(f.fat, f.chains, l, [c]);
    AddFolderTables(f, l, e, c, t);
    AddFolderSlots(f, l, e, c, t);
    AddFolderHomes(f, l, e, c, t);
  }

  lemma RemoveSlots(f: FileSystem, l: Loc)
    requires Inv(f) && l in f.chains && Occupied(f, l) && SlotOk(f, l)
    requires IsDir(At(f, l)) ==> IsEmptyTable(f.tabs[f.chains[l][0]]) && f.chains[l][0] != l.0
    ensures var g := Remove(f, l);
            && (forall m: Loc {:trigger Occupied(g, m)} :: Occupied(g, m) <==> m in g.chains)
            && (forall m {:trigger SlotOk(g, m)} | m in g.chains && Occupied(g, m) :: SlotOk(g, m))
            && (forall m | m in g.chains :: SameSlot(f, g, m))
  {
    var g := Remove(f, l);
    forall m: Loc ensures Occupied(g, m) <==> m in g.chains {
      assert Occupied(f, m) <==> m in f.chains;
    }
    forall m | m in g.chains ensures SameSlot(f, g, m) && SlotOk(g, m) {
      SlotInfo(f, m);
      SlotKept(f, g, m);
    }
  }

  lemma DirIsElsewhere(f: FileSystem, l: Loc)
    requires Inv(f) && l in f.chains && Occupied(f, l) && SlotOk(f, l) && IsDir(At(f, l))
    ensures f.chains[l][0] in f.tabs && f.chains[l][0] != ROOT_CLUSTER && f.chains[l][0] != l.0
  {
    assert HomeOk(f, f.chains[l][0]);
  }

  lemma RemoveTables(f: FileSystem, l: Loc)
    requires Inv(f) && l in f.chains && Occupied(f, l) && SlotOk(f, l)
    ensures var g := Remove(f, l);
            forall d {:trigger TableOk(g.tabs[d])} | d in g.tabs :: TableOk(g.tabs[d])
  {
    hide Consistent, SlotOk, HomeOk;
    var g := Remove(f, l);
    forall d | d in g.tabs ensures TableOk(g.tabs[d]) {
      assert TableOk(f.tabs[d]) && TableOk(f.tabs[l.0]);
      ClearedTable(f.tabs[l.0], l.1);
    }
  }

  lemma RemoveHomes(f: FileSystem, l: Loc)
    requires Inv(f) && l in f.chains && Occupied(f, l) && SlotOk(f, l)
    requires IsDir(At(f, l)) ==> f.chains[l][0] in f.tabs && IsEmptyTable(f.tabs[f.chains[l][0]])
    ensures var g := Remove(f, l);
            && g.tabs.Keys == g.depth.Keys
            && (forall d {:trigger HomeOk(g, d)} | d in g.home && d in g.tabs :: HomeOk(g, d))
  {
    hide Consistent, TableOk;
    var g := Remove(f, l);
    if IsDir(At(f, l)) {
      DirIsElsewhere(f, l);
    }
    RemoveSlots(f, l);
    forall d | d in g.home && d in g.tabs ensures HomeOk(g, d) {
      assert HomeOk(f, d);
      HomeKept(f, g, d);
    }
  }

  // Only a directory without entries may be removed: nobody has it for a parent.
  lemma RemoveKeeps(f: FileSystem, l: Loc)
    requires Inv(f) && l in f.chains && Occupied(f, l) && SlotOk(f, l)
    requires IsDir(At(f, l)) ==> f.chains[l][0] in f.tabs && IsEmptyTable(f.tabs[f.chains[l][0]])
    ensures Inv(Remove(f, l))
  {
    hide Consistent, TableOk, HomeOk, Freed;
    FreeKeeps(f.fat, f.chains, l);
    if IsDir(At(f, l)) {
      DirIsElsewhere(f, l);
    }
    RemoveSlots(f, l);
    RemoveTables(f, l);
    RemoveHomes(f, l);
  }
}
