/**
 Whole runs of the driver: what every run keeps, what survives until it is
 deleted, and that the disk alone determines the file system.
 */
module Runs {
  import opened Bytes
  import opened Layout
  import opened Fat
  import opened Forest
  import opened Steps
  import opened Refinement
  import opened Volume
  import opened Impostors
  import opened Driver

  datatype Op = Write(r: Request, data: seq<Byte>) | Delete(r: Request) | Read(r: Request) | ReadDirectory(r: Request)

  // The parent is no impostor, and a write stores no key that is there already.
  ghost predicate LegalOp(f: FileSystem, op: Op)
    requires Inv(f)
  {
    && Sized(op.r) && op.r.parent < MAP_SIZE && !Impostor(f, op.r.parent)
    && (op.Write? ==> WriteOk(op.r, op.data) && (WriteCode(f, op.r) == 0 ==> Storable(f, op.r)))
  }

  // Every legal operation keeps the invariant.
  ghost function Step(f: FileSystem, op: Op): (g: FileSystem)
    requires Inv(f) && LegalOp(f, op)
    ensures Inv(g)
  {
    match op
    case Write(r, data) => WriteStores(f, r, data); WriteNext(f, r, data)
    case Delete(r) => DeleteRefines(f, r); DeleteNext(f, r)
    case Read(_) => f
    case ReadDirectory(_) => f
  }

  // A run is legal when each of its operations is, in the state that it meets.
  ghost predicate LegalRun(f: FileSystem, ops: seq<Op>)
    requires Inv(f)
    decreases |ops|
  {
    ops == [] || (LegalOp(f, ops[0]) && LegalRun(Step(f, ops[0]), ops[1..]))
  }

  ghost function Run(f: FileSystem, ops: seq<Op>): (g: FileSystem)
    requires Inv(f) && LegalRun(f, ops)
    ensures Inv(g)
    decreases |ops|
  {
    if ops == [] then f else Run(Step(f, ops[0]), ops[1..])
  }

  // From a freshly formatted disk on, the file system is consistent after every run.
  lemma AlwaysConsistent(f: FileSystem, ops: seq<Op>)
    requires f == Formatted()
    ensures Inv(f)
    ensures LegalRun(f, ops) ==> Inv(Run(f, ops))
  {
    hide Inv;
    FormattedOk();
  }

  // ---------- What survives ----------

  predicate Deletes(op: Op, key: (nat, Key)) {
    op.Delete? && (op.r.parent, KeyReq(op.r)) == key
  }

  lemma StepKeepsBinding(f: FileSystem, op: Op, key: (nat, Key))
    requires Inv(f) && LegalOp(f, op) && key in TreeOf(f) && !Deletes(op, key)
    ensures Inv(Step(f, op)) && key in TreeOf(Step(f, op)) && TreeOf(Step(f, op))[key] == TreeOf(f)[key]
  {
    hide Inv, TreeOf;
    match op
    case Write(r, data) => WriteStores(f, r, data);
    case Delete(r) => DeleteRefines(f, r);
    case Read(_) =>
    case ReadDirectory(_) =>
  }

  lemma BoundDir(f: FileSystem, key: (nat, Key))
    requires Inv(f) && key in TreeOf(f)
    ensures key.0 in f.tabs
  {
    var s := TreeSlot(f, key.0, key.1);
  }

  lemma WriteKeepsHeader(f: FileSystem, r: Request, data: seq<Byte>, d: nat)
    requires Inv(f) && Sized(r) && WriteOk(r, data) && (WriteCode(f, r) == 0 ==> Storable(f, r)) && d in f.tabs
    ensures d in WriteNext(f, r, data).tabs && WriteNext(f, r, data).tabs[d][0] == f.tabs[d][0]
  {
    if WriteCode(f, r) == 0 {
      StoreShape(f, r, data);
      var cs := FirstFit(f.fat, 0, Clusters(SizeOf(r)));
      assert f.fat[cs[0]] == EMPTY;
      FreeIsNoDir(f, cs[0]);
    }
  }

  // The name a directory has for itself never changes.
  lemma StepKeepsHeader(f: FileSystem, op: Op, d: nat)
    requires Inv(f) && LegalOp(f, op) && d in f.tabs && d in Step(f, op).tabs
    ensures Step(f, op).tabs[d][0] == f.tabs[d][0]
  {
    match op
    case Write(r, data) => WriteKeepsHeader(f, r, data, d);
    case Delete(r) => if DeleteCode(f, r) == 0 { DeleteFinds(f, r); }
    case Read(_) =>
    case ReadDirectory(_) =>
  }

  // A binding lives, unchanged, until the run deletes it; so does its directory.
  lemma {:induction false} RunKeepsBinding(f: FileSystem, ops: seq<Op>, key: (nat, Key))
    requires Inv(f) && LegalRun(f, ops) && key in TreeOf(f)
    requires forall op | op in ops :: !Deletes(op, key)
    decreases |ops|
    ensures var g := Run(f, ops);
            key in TreeOf(g) && TreeOf(g)[key] == TreeOf(f)[key]
            && key.0 in f.tabs && key.0 in g.tabs && g.tabs[key.0][0] == f.tabs[key.0][0]
  {
    hide Inv, TreeOf, Step, LegalOp;
    BoundDir(f, key);
    if ops == [] {
    } else {
      var op, f' := ops[0], Step(f, ops[0]);
      StepKeepsBinding(f, op, key);
      BoundDir(f', key);
      StepKeepsHeader(f, op, key.0);
      RunKeepsBinding(f', ops[1..], key);
    }
  }

  // What was written is what is read, whatever happens in between short of deleting it: all
  // of the bytes, and zeros from there to the cluster boundary.
  lemma WrittenIsRead(f: FileSystem, r: Request, data: seq<Byte>, ops: seq<Op>, q: Request)
    requires Inv(f) && LegalOp(f, Write(r, data)) && WriteCode(f, r) == 0 && (r.bufferSize > 0 || r.ext[0] != 0)
    requires Inv(WriteNext(f, r, data)) && LegalRun(WriteNext(f, r, data), ops)
    requires forall op | op in ops :: !Deletes(op, (r.parent, StoredKey(r)))
    requires NameOk(q) && q.parent == r.parent && KeyReq(q) == StoredKey(r)
    requires q.bufferSize >= if r.bufferSize == 0 then 2048 else r.bufferSize
    requires !IsHeaderName(f.tabs[r.parent], StoredKey(r))
    ensures var g, n := Run(WriteNext(f, r, data), ops), if r.bufferSize == 0 then 2048 else r.bufferSize;
            && Inv(g) && ReadCode(g, q) == 0
            && var read := Flatten(ReadResult(g, q));
               && n <= |data| && n <= |read| < n + 2048 && |read| % 2048 == 0
               && read[..n] == data[..n] && forall i | n <= i < |read| :: read[i] == 0
  {
    hide Inv, TreeOf, Run, LegalRun, BlocksOf, Flatten, WriteCode;
    var h, g := WriteNext(f, r, data), Run(WriteNext(f, r, data), ops);
    var key := (r.parent, StoredKey(r));
    WriteStores(f, r, data);
    WriteKeepsHeader(f, r, data, r.parent);
    RunKeepsBinding(h, ops, key);
    ReadCodes(g, q);
    StoredShape(data, SizeOf(r));
  }

  // In a directory every request with padded names is legal, as long as the caller has the
  // bytes to write and their number does not wrap around.
  lemma OrdinaryIsLegal(f: FileSystem, r: Request, data: seq<Byte>)
    requires Inv(f) && |r.name| == 8 && |r.ext| == 3 && Canonical(r.name) && Canonical(r.ext)
    requires r.parent in f.tabs && r.bufferSize + 2047 < 0x1_0000_0000
    requires |data| >= if r.bufferSize > 0 then r.bufferSize else if r.ext[0] != 0 then 2048 else 0
    ensures LegalOp(f, Write(r, data)) && LegalOp(f, Delete(r)) && LegalOp(f, Read(r)) && LegalOp(f, ReadDirectory(r))
  {
    hide Inv, WriteCode, TreeOf;
    DirCluster(f, r.parent);
    if Impostor(f, r.parent) {
      ImpostorIsNoDir(f, r.parent);
    }
    NameOkStores(f, r);
  }

  // ---------- The disk determines the file system ----------

  lemma {:induction false} SameDirectory(disk: Disk, f: FileSystem, g: FileSystem, d: nat)
    requires Inv(f) && Inv(g) && OnDisk(disk, f) && OnDisk(disk, g) && d in f.tabs
    ensures d in g.tabs && f.tabs[d] == g.tabs[d] && f.depth[d] == g.depth[d]
    decreases f.depth[d]
  {
    DirCluster(f, d);
    if d == ROOT_CLUSTER {
    } else {
      assert HomeOk(f, d);
      var l := f.home[d];
      SameDirectory(disk, f, g, l.0);
      assert Occupied(g, l);
      SlotInfo(f, l);
      SlotInfo(g, l);
      assert HomeOk(g, d);
    }
  }

  lemma SameSlotOnDisk(disk: Disk, f: FileSystem, g: FileSystem, l: Loc)
    requires Inv(f) && Inv(g) && OnDisk(disk, f) && OnDisk(disk, g) && l in f.chains
    ensures l in g.chains && g.chains[l] == f.chains[l]
    ensures l in f.blocks ==> l in g.blocks && g.blocks[l] == f.blocks[l]
  {
    SlotInfo(f, l);
    SameDirectory(disk, f, g, l.0);
    assert Occupied(g, l);
    SlotInfo(g, l);
    ChainUnique(f.fat, f.chains[l], g.chains[l]);
    if l in f.blocks {
      assert Holds(disk, f.chains[l], f.blocks[l]) && Holds(disk, g.chains[l], g.blocks[l]);
    }
  }

  lemma SameHome(disk: Disk, f: FileSystem, g: FileSystem, d: nat)
    requires Inv(f) && Inv(g) && OnDisk(disk, f) && OnDisk(disk, g) && d in f.home
    ensures d in g.home && g.home[d] == f.home[d]
  {
    assert HomeOk(f, d);
    SameSlotOnDisk(disk, f, g, f.home[d]);
    SameDirectory(disk, f, g, f.home[d].0);
    SlotInfo(g, f.home[d]);
  }

  lemma Within(disk: Disk, f: FileSystem, g: FileSystem)
    requires Inv(f) && Inv(g) && OnDisk(disk, f) && OnDisk(disk, g)
    ensures forall d | d in f.tabs :: d in g.tabs && f.tabs[d] == g.tabs[d]
    ensures forall d | d in f.depth :: d in g.depth && f.depth[d] == g.depth[d]
    ensures forall d | d in f.home :: d in g.home && f.home[d] == g.home[d]
    ensures forall l | l in f.chains :: l in g.chains && f.chains[l] == g.chains[l]
    ensures forall l | l in f.blocks :: l in g.blocks && f.blocks[l] == g.blocks[l]
  {
    forall d | d in f.tabs ensures d in g.tabs && f.tabs[d] == g.tabs[d] && f.depth[d] == g.depth[d] {
      SameDirectory(disk, f, g, d);
    }
    forall d | d in f.home ensures d in g.home && f.home[d] == g.home[d] {
      SameHome(disk, f, g, d);
    }
    forall l | l in f.chains
      ensures l in g.chains && f.chains[l] == g.chains[l]
              && (l in f.blocks ==> l in g.blocks && f.blocks[l] == g.blocks[l])
    {
      SameSlotOnDisk(disk, f, g, l);
    }
  }

  // No two consistent file systems share a disk: every ghost part of the state can be
  // read off the bytes.
  lemma DiskDetermines(disk: Disk, f: FileSystem, g: FileSystem)
    requires Inv(f) && Inv(g) && OnDisk(disk, f) && OnDisk(disk, g)
    ensures f == g
  {
    hide Inv;
    Within(disk, f, g);
    Within(disk, g, f);
    assert f.tabs == g.tabs && f.depth == g.depth && f.home == g.home && f.chains == g.chains && f.blocks == g.blocks;
  }

  // Mounting the disk of a working driver again, in another driver, finds the same file
  // system and writes nothing.
  method Remount(d: Fat32Driver) returns (e: Fat32Driver)
    requires d.Valid()
    modifies d.disk
    ensures d.Valid() && d.disk[..] == old(d.disk[..])
    ensures e.Valid() && e.disk == d.disk && e.fs == d.fs && e.fat[..] == d.fat[..]
  {
    hide Inv;
    OneIsMountable(d.disk[..], d.fs);
    e := new Fat32Driver(d.disk);
    e.Initialize();
    DiskDetermines(d.disk[..], d.fs, e.fs);
  }
}
