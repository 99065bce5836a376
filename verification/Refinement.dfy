/**
 The driver's operations, seen on the tree of names: a write adds one binding, a
 delete removes one, reads look one up, and return codes say exactly when each
 succeeds.
 */
module Refinement {
  import opened Bytes
  import opened Layout
  import opened Fat
  import opened Forest
  import opened Steps

  function KeyReq(r: Request): Key {
    Key(r.name, r.ext)
  }

  // ---------- One more slot is one more binding ----------

  lemma MapExtends<K, V>(a: map<K, V>, b: map<K, V>, k: K)
    requires k in b && k !in a
    requires forall x | x in a :: x in b && b[x] == a[x]
    requires forall x | x in b && x != k :: x in a
    ensures b == a[k := b[k]] && a == b - {k}
  {}

  lemma AddThenDrop<K, V>(a: map<K, V>, k: K, v: V)
    requires k !in a
    ensures a[k := v] - {k} == a
  {}

  lemma TreeKept(f: FileSystem, g: FileSystem)
    requires Inv(f) && Inv(g) && f.chains.Keys <= g.chains.Keys
    requires forall m | m in f.chains :: SameSlot(f, g, m)
    ensures forall k | k in TreeOf(f) :: k in TreeOf(g) && TreeOf(g)[k] == TreeOf(f)[k]
  {
    forall k | k in TreeOf(f) ensures k in TreeOf(g) && TreeOf(g)[k] == TreeOf(f)[k] {
      var s := TreeSlot(f, k.0, k.1);
      assert SameSlot(f, g, (k.0, s));
      TreeAt(g, (k.0, s));
    }
  }

  lemma TreeOther(f: FileSystem, g: FileSystem, l: Loc, k: (nat, Key))
    requires Inv(f) && Inv(g) && g.chains.Keys == f.chains.Keys + {l}
    requires l.0 in g.tabs && l.1 < SLOTS && k in TreeOf(g) && k != (l.0, KeyOf(At(g, l)))
    requires forall m | m in f.chains :: SameSlot(f, g, m)
    ensures k in TreeOf(f)
  {
    hide TreeOf;
    var s := TreeSlot(g, k.0, k.1);
    assert SameSlot(f, g, (k.0, s));
    TreeAt(f, (k.0, s));
  }

  lemma TreeExtends(f: FileSystem, g: FileSystem, l: Loc)
    requires Inv(f) && Inv(g) && l !in f.chains && g.chains.Keys == f.chains.Keys + {l}
    requires l.0 in g.tabs && l.1 < SLOTS
    requires forall m | m in f.chains :: SameSlot(f, g, m)
    ensures Bound(g, l) && (l.0, KeyOf(At(g, l))) !in TreeOf(f)
    ensures TreeOf(g) == TreeOf(f)[(l.0, KeyOf(At(g, l))) := ObjAt(g, l)]
    ensures TreeOf(f) == TreeOf(g) - {(l.0, KeyOf(At(g, l)))}
  {
    TreeAt(g, l);
    assert Bound(g, l);
    TreeKept(f, g);
    var key := (l.0, KeyOf(At(g, l)));
    if key in TreeOf(f) {
      var s := TreeSlot(f, key.0, key.1);
      assert SameSlot(f, g, (key.0, s));
      OneSlotPerKey(g, l, (key.0, s));
    }
    forall k | k in TreeOf(g) && k != key ensures k in TreeOf(f) {
      TreeOther(f, g, l, k);
    }
    MapExtends(TreeOf(f), TreeOf(g), key);
  }

  // ---------- write ----------

  // The tree's own reading of the duplicate check.
  ghost predicate Taken(t: Tree, r: Request)
    requires |r.ext| == 3
  {
    exists k :: (r.parent, k) in t && k.name == r.name && ((r.bufferSize == 0 && r.ext[0] == 0) || k.ext == r.ext)
  }

  lemma ClashIsTaken(f: FileSystem, r: Request)
    requires Inv(f) && NameOk(r) && r.parent in f.tabs
    ensures Clash(f.tabs[r.parent], r) <==> Taken(TreeOf(f), r)
  {
    var t := f.tabs[r.parent];
    if Clash(t, r) {
      var s: nat :| 2 <= s < SLOTS && Live(t[s]) && t[s].name == r.name && (IsFolderRequest(r) || t[s].ext == r.ext);
      assert Occupied(f, (r.parent, s));
      TreeAt(f, (r.parent, s));
    }
    if Taken(TreeOf(f), r) {
      var k :| (r.parent, k) in TreeOf(f) && k.name == r.name && (IsFolderRequest(r) || k.ext == r.ext);
      var s := TreeSlot(f, r.parent, k);
      assert Live(t[s]);
    }
  }

  // The name that write stores: it stops copying at the NUL, and compares all eight bytes.
  function PadName(s: seq<Byte>): (p: seq<Byte>)
    ensures |p| == |s|
  {
    CopyCStr(Zeros(|s|), s)
  }

  lemma PadCanonical(s: seq<Byte>)
    ensures Canonical(PadName(s)) && CStr(PadName(s)) == CStr(s)
    ensures Canonical(s) <==> PadName(s) == s
  {
    CStrIs(PadName(s), |CStr(s)|);
    if Canonical(s) {
      CopyIntoZeros(s);
    }
  }

  // What write binds: the padded name, and for a file the extension as it came.
  function StoredKey(r: Request): (k: Key)
    requires Sized(r)
    ensures |k.ext| == 3
  {
    Key(PadName(r.name), if IsFolderRequest(r) then Zeros(3) else r.ext)
  }

  ghost predicate Storable(f: FileSystem, r: Request)
    requires Inv(f) && Sized(r)
  {
    Canonical(StoredKey(r).ext) && (r.parent, StoredKey(r)) !in TreeOf(f)
  }

  // With a padded name the duplicate check sees to that.
  lemma NameOkStores(f: FileSystem, r: Request)
    requires Inv(f) && NameOk(r)
    ensures StoredKey(r) == KeyReq(r)
    ensures WriteCode(f, r) == 0 ==> Storable(f, r)
  {
    PadCanonical(r.name);
    assert IsFolderRequest(r) ==> r.ext == Zeros(3);
    if WriteCode(f, r) == 0 {
      ClashIsTaken(f, r);
    }
  }

  lemma FreshFromPadded(name: seq<Byte>, parent: nat)
    requires |name| == 8 && parent < MAP_SIZE
    ensures FreshTable(PadName(name), parent) == FreshTable(name, parent)
  {
    PadCanonical(name);
    PadCanonical(PadName(name));
  }

  lemma StoredEntry(e: DirEntry, r: Request, first: nat)
    requires EntryOk(e) && !Live(e) && Sized(r) && first < MAP_SIZE && SizeOf(r) < U32
    ensures var n := NewEntry(e, r, first);
            && Live(n) && KeyOf(n) == StoredKey(r) && n.clusterLow == first && n.filesize == SizeOf(r)
            && IsDir(n) == IsFolderRequest(r) && (EntryOk(n) <==> Canonical(StoredKey(r).ext))
  {
    PadCanonical(r.name);
  }

  lemma WriteFills(f: FileSystem, r: Request)
    requires Inv(f) && Sized(r) && r.bufferSize + CLUSTER_SIZE - 1 < U32 && WriteCode(f, r) == 0 && Storable(f, r)
    ensures InRange(FirstFit(f.fat, 0, Clusters(SizeOf(r)))) && |FirstFit(f.fat, 0, Clusters(SizeOf(r)))| > 0
    ensures 2 <= FirstFreeSlot(f.tabs[r.parent], 0) < SLOTS && r.parent < MAP_SIZE
    ensures var s, cs := FirstFreeSlot(f.tabs[r.parent], 0), FirstFit(f.fat, 0, Clusters(SizeOf(r)));
            Fillable(f, (r.parent, s), NewEntry(f.tabs[r.parent][s], r, cs[0]), cs)
  {
    FitInRange(f, r);
    FirstFitFree(f.fat, 0, Clusters(SizeOf(r)));
    var t := f.tabs[r.parent];
    var s, cs := FirstFreeSlot(t, 0), FirstFit(f.fat, 0, Clusters(SizeOf(r)));
    assert TableOk(t);
    StoredEntry(t[s], r, cs[0]);
    forall j | 2 <= j < SLOTS && Live(t[j]) ensures KeyOf(t[j]) != StoredKey(r) {
      assert Occupied(f, (r.parent, j));
      TreeAt(f, (r.parent, j));
    }
  }

  // What a successful write binds the name to.
  ghost predicate Written(f: FileSystem, g: FileSystem, r: Request, data: seq<Byte>)
    requires Sized(r) && WriteOk(r, data) && Inv(f) && Inv(g)
  {
    var key, n := (r.parent, StoredKey(r)), if r.bufferSize == 0 then 2048 else r.bufferSize;
    && key !in TreeOf(f) && key in TreeOf(g)
    && TreeOf(g) == TreeOf(f)[key := TreeOf(g)[key]]
    && (if r.bufferSize == 0 && r.ext[0] == 0
        then TreeOf(g)[key].Folder? && TreeOf(g)[key].dir !in f.tabs
             && g.tabs.Keys == f.tabs.Keys + {TreeOf(g)[key].dir}
             && IsEmptyTable(g.tabs[TreeOf(g)[key].dir])
        else TreeOf(g)[key] == File(n, BlocksOf(data, n)) && g.tabs.Keys == f.tabs.Keys)
  }

  lemma AddFileRefines(f: FileSystem, l: Loc, e: DirEntry, cs: Chain, bl: seq<Block>)
    requires Inv(f) && Fillable(f, l, e, cs) && !IsDir(e) && |bl| == |cs|
    ensures var g := AddFile(f, l, e, cs, bl);
            Inv(g) && (l.0, KeyOf(e)) !in TreeOf(f) && TreeOf(g) == TreeOf(f)[(l.0, KeyOf(e)) := File(e.filesize, bl)]
  {
    AddFileKeeps(f, l, e, cs, bl);
    AddFileSlots(f, l, e, cs, bl);
    assert l !in f.chains by { assert !Occupied(f, l); }
    TreeExtends(f, AddFile(f, l, e, cs, bl), l);
  }

  lemma AddFolderRefines(f: FileSystem, l: Loc, e: DirEntry, c: nat)
    requires Inv(f) && Fillable(f, l, e, [c]) && IsDir(e) && l.0 < MAP_SIZE
    ensures var g := AddFolder(f, l, e, c, FreshTable(e.name, l.0));
            Inv(g) && c !in f.tabs && (l.0, KeyOf(e)) !in TreeOf(f)
                && TreeOf(g) == TreeOf(f)[(l.0, KeyOf(e)) := Folder(c)]
  {
    AddFolderKeeps(f, l, e, c);
    FreshTableOk(e.name, l.0);
    AddFolderSlots(f, l, e, c, FreshTable(e.name, l.0));
    assert l !in f.chains by { assert !Occupied(f, l); }
    TreeExtends(f, AddFolder(f, l, e, c, FreshTable(e.name, l.0)), l);
  }

  // The parts of the state that a successful write replaces.
  lemma StoreShape(f: FileSystem, r: Request, data: seq<Byte>)
    requires Inv(f) && Sized(r) && WriteOk(r, data) && WriteCode(f, r) == 0 && Storable(f, r)
    ensures InRange(FirstFit(f.fat, 0, Clusters(SizeOf(r)))) && |FirstFit(f.fat, 0, Clusters(SizeOf(r)))| > 0
    ensures var s, cs := FirstFreeSlot(f.tabs[r.parent], 0), FirstFit(f.fat, 0, Clusters(SizeOf(r)));
            var e, l := NewEntry(f.tabs[r.parent][s], r, cs[0]), (r.parent, s);
            && Fillable(f, l, e, cs) && r.parent < MAP_SIZE
            && KeyOf(e) == StoredKey(r) && IsDir(e) == IsFolderRequest(r) && e.filesize == SizeOf(r)
            && (if IsFolderRequest(r)
                then cs == [cs[0]] && WriteNext(f, r, data) == AddFolder(f, l, e, cs[0], FreshTable(e.name, l.0))
                else WriteNext(f, r, data) == AddFile(f, l, e, cs, BlocksOf(data, SizeOf(r))))
  {
    WriteFills(f, r);
    var s, cs := FirstFreeSlot(f.tabs[r.parent], 0), FirstFit(f.fat, 0, Clusters(SizeOf(r)));
    assert TableOk(f.tabs[r.parent]);
    StoredEntry(f.tabs[r.parent][s], r, cs[0]);
    FreshFromPadded(r.name, r.parent);
  }

  lemma WriteShape(f: FileSystem, r: Request, data: seq<Byte>)
    requires Inv(f) && NameOk(r) && WriteOk(r, data) && WriteCode(f, r) == 0
    ensures InRange(FirstFit(f.fat, 0, Clusters(SizeOf(r)))) && |FirstFit(f.fat, 0, Clusters(SizeOf(r)))| > 0
    ensures var s, cs := FirstFreeSlot(f.tabs[r.parent], 0), FirstFit(f.fat, 0, Clusters(SizeOf(r)));
            var e, l := NewEntry(f.tabs[r.parent][s], r, cs[0]), (r.parent, s);
            && Fillable(f, l, e, cs) && r.parent < MAP_SIZE
            && KeyOf(e) == KeyReq(r) && IsDir(e) == IsFolderRequest(r) && e.filesize == SizeOf(r)
            && (if IsFolderRequest(r)
                then cs == [cs[0]] && WriteNext(f, r, data) == AddFolder(f, l, e, cs[0], FreshTable(e.name, l.0))
                else WriteNext(f, r, data) == AddFile(f, l, e, cs, BlocksOf(data, SizeOf(r))))
  {
    NameOkStores(f, r);
    StoreShape(f, r, data);
  }

  lemma WriteFileRefines(f: FileSystem, r: Request, data: seq<Byte>)
    requires Inv(f) && Sized(r) && WriteOk(r, data) && WriteCode(f, r) == 0 && Storable(f, r) && !IsFolderRequest(r)
    ensures Inv(WriteNext(f, r, data)) && Written(f, WriteNext(f, r, data), r, data)
  {
    StoreShape(f, r, data);
    var s, cs := FirstFreeSlot(f.tabs[r.parent], 0), FirstFit(f.fat, 0, Clusters(SizeOf(r)));
    AddFileRefines(f, (r.parent, s), NewEntry(f.tabs[r.parent][s], r, cs[0]), cs, BlocksOf(data, SizeOf(r)));
  }

  lemma FolderWritten(f: FileSystem, g: FileSystem, r: Request, data: seq<Byte>, c: nat)
    requires Inv(f) && Inv(g) && Sized(r) && WriteOk(r, data) && IsFolderRequest(r)
    requires c !in f.tabs && g.tabs.Keys == f.tabs.Keys + {c} && IsEmptyTable(g.tabs[c])
    requires (r.parent, StoredKey(r)) !in TreeOf(f) && TreeOf(g) == TreeOf(f)[(r.parent, StoredKey(r)) := Folder(c)]
    ensures Written(f, g, r, data)
  {
    hide Inv, TreeOf;
  }

  lemma FolderStored(f: FileSystem, r: Request, data: seq<Byte>, s: nat, e: DirEntry, c: nat)
    requires Inv(f) && Sized(r) && WriteOk(r, data) && IsFolderRequest(r) && r.parent < MAP_SIZE
    requires Fillable(f, (r.parent, s), e, [c]) && IsDir(e) && KeyOf(e) == StoredKey(r)
    ensures var g := AddFolder(f, (r.parent, s), e, c, FreshTable(e.name, r.parent));
            Inv(g) && Written(f, g, r, data)
  {
    assert r.parent in f.depth;
    hide Inv, TreeOf, Written;
    AddFolderRefines(f, (r.parent, s), e, c);
    FreshTableOk(e.name, r.parent);
    hide IsEmptyTable, FreshTable, Fillable;
    FolderWritten(f, AddFolder(f, (r.parent, s), e, c, FreshTable(e.name, r.parent)), r, data, c);
  }

  lemma WriteFolderRefines(f: FileSystem, r: Request, data: seq<Byte>)
    requires Inv(f) && Sized(r) && WriteOk(r, data) && WriteCode(f, r) == 0 && Storable(f, r) && IsFolderRequest(r)
    ensures Inv(WriteNext(f, r, data)) && Written(f, WriteNext(f, r, data), r, data)
  {
    hide Inv, TreeOf, Written, Fillable, WriteNext;
    StoreShape(f, r, data);
    var s, cs := FirstFreeSlot(f.tabs[r.parent], 0), FirstFit(f.fat, 0, Clusters(SizeOf(r)));
    FolderStored(f, r, data, s, NewEntry(f.tabs[r.parent][s], r, cs[0]), cs[0]);
  }

  // A write that stores a new key is one more binding, whatever follows the NUL of the name.
  lemma StoreRefines(f: FileSystem, r: Request, data: seq<Byte>)
    requires Inv(f) && Sized(r) && WriteOk(r, data) && WriteCode(f, r) == 0 && Storable(f, r)
    ensures Inv(WriteNext(f, r, data)) && Written(f, WriteNext(f, r, data), r, data)
  {
    if IsFolderRequest(r) {
      WriteFolderRefines(f, r, data);
    } else {
      WriteFileRefines(f, r, data);
    }
  }

  lemma WriteStores(f: FileSystem, r: Request, data: seq<Byte>)
    requires Inv(f) && Sized(r) && WriteOk(r, data) && (WriteCode(f, r) == 0 ==> Storable(f, r))
    ensures Inv(WriteNext(f, r, data))
    ensures if WriteCode(f, r) == 0 then Written(f, WriteNext(f, r, data), r, data) else WriteNext(f, r, data) == f
  {
    if WriteCode(f, r) == 0 {
      StoreRefines(f, r, data);
    }
  }

  lemma WriteRefines(f: FileSystem, r: Request, data: seq<Byte>)
    requires Inv(f) && NameOk(r) && WriteOk(r, data)
    ensures Inv(WriteNext(f, r, data)) && StoredKey(r) == KeyReq(r)
    ensures if WriteCode(f, r) == 0 then Written(f, WriteNext(f, r, data), r, data) else WriteNext(f, r, data) == f
  {
    NameOkStores(f, r);
    WriteStores(f, r, data);
  }

  // As many clusters as hold that many bytes, and no more.
  lemma ClustersCeil(n: nat)
    ensures 2048 * (Clusters(n) - 1) < n <= 2048 * Clusters(n)
    ensures forall free: nat :: free < Clusters(n) <==> 2048 * free < n
  {}

  lemma StoredShape(data: seq<Byte>, n: nat)
    requires |data| >= n
    ensures var read := Flatten(BlocksOf(data, n));
            && n <= |read| < n + 2048 && |read| % 2048 == 0
            && read[..n] == data[..n] && forall i | n <= i < |read| :: read[i] == 0
  {
    FlattenBlocks(data, n);
    ClustersCeil(n);
  }

  // A write stores all of the bytes, followed by zeros up to the cluster boundary, in as few
  // clusters as hold them.  A size of 0 makes a folder, or with an extension a file of 2048 bytes.
  lemma WriteStoresAll(f: FileSystem, r: Request, data: seq<Byte>)
    requires Inv(f) && |r.name| == 8 && |r.ext| == 3 && Canonical(r.name) && Canonical(r.ext)
    requires r.bufferSize + 2047 < 0x1_0000_0000 && WriteCode(f, r) == 0
    requires |data| >= if r.bufferSize > 0 then r.bufferSize else if r.ext[0] != 0 then 2048 else 0
    ensures WriteOk(r, data) && Inv(WriteNext(f, r, data))
    ensures var n := if r.bufferSize == 0 then 2048 else r.bufferSize;
            var g, key := WriteNext(f, r, data), (r.parent, KeyReq(r));
            && key !in TreeOf(f) && key in TreeOf(g) && TreeOf(g) == TreeOf(f)[key := TreeOf(g)[key]]
            && if r.bufferSize == 0 && r.ext[0] == 0
               then TreeOf(g)[key].Folder? && FreeCount(g.fat) == FreeCount(f.fat) - 1
               else TreeOf(g)[key].File? && TreeOf(g)[key].size == n
                    && var content := TreeOf(g)[key].content;
                       && 2048 * (|content| - 1) < n <= 2048 * |content|
                       && FreeCount(g.fat) == FreeCount(f.fat) - |content|
                       && |Flatten(content)| >= n && Flatten(content)[..n] == data[..n]
                       && forall i | n <= i < |Flatten(content)| :: Flatten(content)[i] == 0
  {
    hide Inv, TreeOf, WriteCode, WriteNext, FreeFrom, Flatten, BlocksOf;
    WriteRefines(f, r, data);
    WriteTakes(f, r, data);
    if !IsFolderRequest(r) {
      StoredShape(data, SizeOf(r));
      ClustersCeil(SizeOf(r));
    }
  }

  // When each return code of write is given.
  lemma WriteCodes(f: FileSystem, r: Request)
    requires Inv(f) && NameOk(r)
    ensures WriteCode(f, r) == 2 <==> r.parent !in f.tabs
    ensures WriteCode(f, r) == 1 <==> r.parent in f.tabs && Taken(TreeOf(f), r)
    ensures WriteCode(f, r) == -1 <==>
            r.parent in f.tabs && !Taken(TreeOf(f), r)
            && ((forall s: nat | 2 <= s < SLOTS :: (r.parent, s) in f.chains)
                || 2048 * FreeCount(f.fat) < if r.bufferSize == 0 then 2048 else r.bufferSize)
    ensures WriteCode(f, r) in {0, 1, 2, -1}
  {
    hide Inv, TreeOf, Taken, Clash, FirstFit, FirstFreeSlot;
    ClustersCeil(SizeOf(r));
    FirstFitCount(f.fat, 0, Clusters(SizeOf(r)));
    if r.parent in f.tabs {
      ClashIsTaken(f, r);
      FullTable(f, r.parent);
    }
  }

  lemma FullTable(f: FileSystem, d: nat)
    requires Inv(f) && d in f.tabs
    ensures FirstFreeSlot(f.tabs[d], 0) == SLOTS <==> forall s: nat | 2 <= s < SLOTS :: (d, s) in f.chains
  {
    var t := f.tabs[d];
    assert TableOk(t);
    NoFreeSlot(t);
    hide TableOk, FirstFreeSlot, Consistent, SlotOk, HomeOk, RootOk;
    forall s: nat | 2 <= s < SLOTS ensures (d, s) in f.chains <==> Live(t[s]) {
      assert Occupied(f, (d, s)) <==> (d, s) in f.chains;
    }
  }

  lemma NoFreeSlot(t: Table)
    requires Live(t[0]) && Live(t[1])
    ensures FirstFreeSlot(t, 0) == SLOTS <==> forall s: nat | 2 <= s < SLOTS :: Live(t[s])
  {}

  // ---------- delete ----------

  lemma DeleteFinds(f: FileSystem, r: Request)
    requires Inv(f) && r.parent in f.tabs
    ensures var s := FirstMatch(f.tabs[r.parent], 2, KeyReq(r));
            && (s < SLOTS <==> (r.parent, KeyReq(r)) in TreeOf(f))
            && (s < SLOTS ==> (r.parent, s) in f.chains && Occupied(f, (r.parent, s)) && SlotOk(f, (r.parent, s))
                              && TreeOf(f)[(r.parent, KeyReq(r))] == ObjAt(f, (r.parent, s))
                              && ClusterOf(At(f, (r.parent, s))) == f.chains[(r.parent, s)][0])
  {
    var t := f.tabs[r.parent];
    var s := FirstMatch(t, 2, KeyReq(r));
    if s < SLOTS {
      assert Occupied(f, (r.parent, s));
      TreeAt(f, (r.parent, s));
      assert TableOk(t);
    }
    if (r.parent, KeyReq(r)) in TreeOf(f) {
      var u := TreeSlot(f, r.parent, KeyReq(r));
    }
  }

  ghost predicate HasChildren(t: Tree, d: nat) {
    exists k :: (d, k) in t
  }

  lemma EmptyIsChildless(f: FileSystem, d: nat)
    requires Inv(f) && d in f.tabs
    ensures IsEmptyTable(f.tabs[d]) <==> !HasChildren(TreeOf(f), d)
  {
    if !IsEmptyTable(f.tabs[d]) {
      var s: nat :| 2 <= s < SLOTS && Live(f.tabs[d][s]);
      assert Occupied(f, (d, s));
      TreeAt(f, (d, s));
    }
    if HasChildren(TreeOf(f), d) {
      var k :| (d, k) in TreeOf(f);
      var s := TreeSlot(f, d, k);
    }
  }

  lemma RemoveRefines(f: FileSystem, l: Loc)
    requires Inv(f) && l in f.chains && Occupied(f, l) && SlotOk(f, l)
    requires IsDir(At(f, l)) ==> f.chains[l][0] in f.tabs && IsEmptyTable(f.tabs[f.chains[l][0]])
    ensures Inv(Remove(f, l))
    ensures (l.0, KeyOf(At(f, l))) in TreeOf(f) && TreeOf(Remove(f, l)) == TreeOf(f) - {(l.0, KeyOf(At(f, l)))}
  {
    var g := Remove(f, l);
    if IsDir(At(f, l)) {
      DirIsElsewhere(f, l);
    }
    RemoveKeeps(f, l);
    RemoveSlots(f, l);
    forall m | m in g.chains ensures SameSlot(g, f, m) {
      assert SameSlot(f, g, m);
      assert Occupied(g, m);
    }
    TreeExtends(g, f, l);
  }

  lemma DeleteRefines(f: FileSystem, r: Request)
    requires Inv(f)
    ensures Inv(DeleteNext(f, r))
    ensures if DeleteCode(f, r) == 0
            then (r.parent, KeyReq(r)) in TreeOf(f) && TreeOf(DeleteNext(f, r)) == TreeOf(f) - {(r.parent, KeyReq(r))}
                 && DeleteNext(f, r).tabs.Keys == f.tabs.Keys
                      - (match TreeOf(f)[(r.parent, KeyReq(r))] case Folder(d) => {d} case File(_, _) => {})
            else DeleteNext(f, r) == f
  {
    if DeleteCode(f, r) == 0 {
      DeleteFinds(f, r);
      var l: Loc := (r.parent, FirstMatch(f.tabs[r.parent], 2, KeyReq(r)));
      if IsDir(At(f, l)) {
        DirIsElsewhere(f, l);
      }
      RemoveRefines(f, l);
    }
  }

  // When each return code of delete is given.
  lemma DeleteCodes(f: FileSystem, r: Request)
    requires Inv(f)
    ensures var key := (r.parent, KeyReq(r));
            && (DeleteCode(f, r) == -1 <==> r.parent !in f.tabs)
            && (DeleteCode(f, r) == 1 <==> r.parent in f.tabs && key !in TreeOf(f))
            && (DeleteCode(f, r) == 2 <==>
                key in TreeOf(f) && TreeOf(f)[key].Folder? && HasChildren(TreeOf(f), TreeOf(f)[key].dir))
            && (DeleteCode(f, r) == 0 <==>
                key in TreeOf(f) && (TreeOf(f)[key].Folder? ==> !HasChildren(TreeOf(f), TreeOf(f)[key].dir)))
  {
    if r.parent in f.tabs {
      DeleteFinds(f, r);
      var l: Loc := (r.parent, FirstMatch(f.tabs[r.parent], 2, KeyReq(r)));
      if l.1 < SLOTS && IsDir(At(f, l)) {
        DirIsElsewhere(f, l);
        EmptyIsChildless(f, f.chains[l][0]);
      }
    } else if (r.parent, KeyReq(r)) in TreeOf(f) {
      var s := TreeSlot(f, r.parent, KeyReq(r));
    }
  }

  // ---------- read and read_directory ----------

  // Names that a search from slot 0 finds in the header of the table.
  predicate IsHeaderName(t: Table, k: Key) {
    k.ext == Zeros(3) && (k.name == t[0].name || k.name == DOT_DOT)
  }

  function ParentOf(f: FileSystem, d: nat): nat
    requires d in f.home || d == ROOT_CLUSTER
  {
    if d == ROOT_CLUSTER then ROOT_CLUSTER else f.home[d].0
  }

  lemma ParentIsDir(f: FileSystem, d: nat)
    requires Inv(f) && d in f.tabs
    ensures d == ROOT_CLUSTER || d in f.home
    ensures ParentOf(f, d) in f.tabs && ParentOf(f, d) == ClusterOf(f.tabs[d][0]) == ClusterOf(f.tabs[d][1])
    ensures d != ROOT_CLUSTER ==> f.depth[d] == f.depth[ParentOf(f, d)] + 1
  {
    assert TableOk(f.tabs[d]);
    if d != ROOT_CLUSTER {
      assert HomeOk(f, d);
    }
  }

  lemma HeaderFirst(f: FileSystem, r: Request)
    requires Inv(f) && r.parent in f.tabs
    ensures var t := f.tabs[r.parent];
            var s := FirstMatch(t, 0, KeyReq(r));
            if IsHeaderName(t, KeyReq(r)) then s < 2 && IsDir(t[s]) else s == FirstMatch(t, 2, KeyReq(r))
  {
    var t := f.tabs[r.parent];
    assert TableOk(t);
  }

  lemma ReadCodes(f: FileSystem, r: Request)
    requires Inv(f)
    ensures var key := (r.parent, KeyReq(r));
            if r.parent !in f.tabs then ReadCode(f, r) == -1
            else if IsHeaderName(f.tabs[r.parent], KeyReq(r)) then ReadCode(f, r) == 1
            else if key !in TreeOf(f) then ReadCode(f, r) == 2
            else match TreeOf(f)[key]
                 case Folder(_) => ReadCode(f, r) == 1
                 case File(size, content) =>
                   if r.bufferSize < size then ReadCode(f, r) == -1
                   else ReadCode(f, r) == 0 && ReadResult(f, r) == content
  {
    hide Inv, TreeOf, TableOk, FirstMatch;
    if r.parent in f.tabs {
      HeaderFirst(f, r);
      DeleteFinds(f, r);
    }
  }

  lemma ReadDirectoryCodes(f: FileSystem, r: Request)
    requires Inv(f)
    ensures var key := (r.parent, KeyReq(r));
            if r.parent !in f.tabs then ReadDirectoryCode(f, r) == -1
            else if IsHeaderName(f.tabs[r.parent], KeyReq(r))
            then ReadDirectoryCode(f, r) == 0 && ReadDirectoryTarget(f, r) in f.tabs
                 && (r.parent == ROOT_CLUSTER || r.parent in f.home)
                    && ReadDirectoryTarget(f, r) == ParentOf(f, r.parent)
            else if key !in TreeOf(f) then ReadDirectoryCode(f, r) == 2
            else match TreeOf(f)[key]
                 case File(_, _) => ReadDirectoryCode(f, r) == 1
                 case Folder(d) => ReadDirectoryCode(f, r) == 0 && ReadDirectoryTarget(f, r) == d && d in f.tabs
  {
    if r.parent in f.tabs {
      HeaderFirst(f, r);
      DeleteFinds(f, r);
      ParentIsDir(f, r.parent);
      var l: Loc := (r.parent, FirstMatch(f.tabs[r.parent], 2, KeyReq(r)));
      if l.1 < SLOTS && IsDir(At(f, l)) {
        DirIsElsewhere(f, l);
      }
    }
  }

  // ---------- Conservation ----------

  lemma FoundWhereFilled(t: Table, r: Request, s: nat, e: DirEntry)
    requires NameOk(r) && !Clash(t, r) && 2 <= s < SLOTS && Live(e) && KeyOf(e) == KeyReq(r)
    ensures FirstMatch(t[s := e], 2, KeyReq(r)) == s
  {
    var u := FirstMatch(t[s := e], 2, KeyReq(r));
    assert Matches(t[s := e][s], KeyReq(r));
    assert forall v | 2 <= v < SLOTS && v != s :: !Matches(t[v], KeyReq(r));
  }

  // Where write put the entry is where delete finds it again.
  lemma WriteIsFound(f: FileSystem, r: Request, data: seq<Byte>)
    requires Inv(f) && NameOk(r) && WriteOk(r, data) && WriteCode(f, r) == 0
    ensures var g := WriteNext(f, r, data);
            var l := (r.parent, FirstFreeSlot(f.tabs[r.parent], 0));
            && r.parent in g.tabs && FirstMatch(g.tabs[r.parent], 2, KeyReq(r)) == l.1
            && l in g.chains && g.chains[l] == FirstFit(f.fat, 0, Clusters(SizeOf(r)))
            && InRange(g.chains[l]) && g.fat == Linked(f.fat, g.chains[l])
  {
    hide TreeOf, Inv;
    WriteShape(f, r, data);
    var t, s, cs := f.tabs[r.parent], FirstFreeSlot(f.tabs[r.parent], 0), FirstFit(f.fat, 0, Clusters(SizeOf(r)));
    if IsFolderRequest(r) {
      assert f.fat[cs[0]] == EMPTY;
      FreeIsNoDir(f, cs[0]);
    }
    FoundWhereFilled(t, r, s, NewEntry(t[s], r, cs[0]));
  }

  lemma WriteThenDeleteCode(f: FileSystem, r: Request, data: seq<Byte>)
    requires Inv(f) && NameOk(r) && WriteOk(r, data) && WriteCode(f, r) == 0
    ensures Inv(WriteNext(f, r, data)) && DeleteCode(WriteNext(f, r, data), r) == 0
  {
    WriteRefines(f, r, data);
    var g := WriteNext(f, r, data);
    DeleteCodes(g, r);
    if IsFolderRequest(r) {
      EmptyIsChildless(g, TreeOf(g)[(r.parent, KeyReq(r))].dir);
    }
  }

  lemma WriteThenDeleteFat(f: FileSystem, r: Request, data: seq<Byte>)
    requires Inv(f) && NameOk(r) && WriteOk(r, data) && WriteCode(f, r) == 0
    requires Inv(WriteNext(f, r, data)) && DeleteCode(WriteNext(f, r, data), r) == 0
    ensures DeleteNext(WriteNext(f, r, data), r).fat == f.fat
  {
    WriteIsFound(f, r, data);
    NameOkStores(f, r);
    WriteFills(f, r);
    FreeUndoesLink(f.fat, FirstFit(f.fat, 0, Clusters(SizeOf(r))));
  }

  // Deleting what was just written gives back the allocation table and the tree.
  lemma WriteThenDelete(f: FileSystem, r: Request, data: seq<Byte>)
    requires Inv(f) && NameOk(r) && WriteOk(r, data) && WriteCode(f, r) == 0
    ensures var g := WriteNext(f, r, data);
            && Inv(g) && DeleteCode(g, r) == 0
            && DeleteNext(g, r).fat == f.fat
            && Inv(DeleteNext(g, r)) && TreeOf(DeleteNext(g, r)) == TreeOf(f)
            && DeleteNext(g, r).tabs.Keys == f.tabs.Keys
  {
    hide Inv, TreeOf, WriteCode, DeleteCode, WriteNext, DeleteNext;
    WriteThenDeleteCode(f, r, data);
    WriteThenDeleteFat(f, r, data);
    WriteRefines(f, r, data);
    DeleteRefines(WriteNext(f, r, data), r);
    AddThenDrop(TreeOf(f), (r.parent, KeyReq(r)), TreeOf(WriteNext(f, r, data))[(r.parent, KeyReq(r))]);
  }

  lemma WriteTakes(f: FileSystem, r: Request, data: seq<Byte>)
    requires Inv(f) && NameOk(r) && WriteOk(r, data) && WriteCode(f, r) == 0
    ensures FreeCount(WriteNext(f, r, data).fat) == FreeCount(f.fat) - Clusters(SizeOf(r))
    ensures var c, n := FreeCount(f.fat) - FreeCount(WriteNext(f, r, data).fat),
                        if r.bufferSize == 0 then 2048 else r.bufferSize;
            2048 * (c - 1) < n <= 2048 * c
  {
    WriteIsFound(f, r, data);
    NameOkStores(f, r);
    WriteFills(f, r);
    var cs := FirstFit(f.fat, 0, Clusters(SizeOf(r)));
    FreeCountScatter(f.fat, cs, NextLinks(cs), true);
    ClustersCeil(SizeOf(r));
  }

  lemma DeleteReturns(f: FileSystem, r: Request)
    requires Inv(f) && DeleteCode(f, r) == 0
    ensures (r.parent, KeyReq(r)) in TreeOf(f)
    ensures FreeCount(DeleteNext(f, r).fat) == FreeCount(f.fat)
              + match TreeOf(f)[(r.parent, KeyReq(r))] case Folder(_) => 1 case File(_, content) => |content|
  {
    DeleteFinds(f, r);
    var l: Loc := (r.parent, FirstMatch(f.tabs[r.parent], 2, KeyReq(r)));
    SlotInfo(f, l);
    ChainDistinct(f.fat, f.chains, l);
    assert forall i | 0 <= i < |f.chains[l]| :: f.fat[f.chains[l][i]] == NextLink(f.chains[l], i);
    FreeCountScatter(f.fat, f.chains[l], seq(|f.chains[l]|, _ => EMPTY), false);
  }
}
