/**
 States that ordinary requests lead to and that break something: a folder with a twin,
 and a file system too wide for the search, with sixty-two folders in the root and
 sixty-two in the first of them (src/code/filesystem/fat32.c:282-299,
 src/usermode/find.c:97-99).
 */
module Extremes {
  import opened Bytes
  import opened Layout
  import opened Fat
  import opened Forest
  import opened Steps
  import opened Refinement
  import opened Volume
  import opened Runs
  import opened CircularQueue
  import opened Search
  import opened Paths
  import opened Impostors

  const ROOM: nat := SLOTS - 2

  function NameOf(i: nat): (n: seq<Byte>)
    requires i < 100
    ensures |n| == 8 && Canonical(n)
  {
    [i + 100] + Zeros(7)
  }

  function FolderNamed(i: nat, d: nat): (r: Request)
    requires i < 100
    ensures NameOk(r) && WriteOk(r, []) && IsFolderRequest(r)
  {
    Request(NameOf(i), Zeros(3), d, 0)
  }

  // The first m slots hold folders by these names, and the others are free.
  predicate Filled(t: Table, m: nat) {
    && m <= ROOM
    && (forall s | 2 <= s < 2 + m :: Live(t[s]) && IsDir(t[s]) && t[s].name == NameOf(s - 2))
    && (forall s | 2 + m <= s < SLOTS :: !Live(t[s]))
  }

  lemma {:induction false} KidsOfFilled(t: Table, m: nat, i: nat)
    requires TableOk(t) && Filled(t, m) && 2 <= i <= SLOTS
    ensures |KidsTo(t, i)| == if i - 2 <= m then i - 2 else m
    ensures i > 2 && m > 0 ==> KidsTo(t, i)[0] == ClusterOf(t[2])
    decreases i
  {
    if i == 2 {
      assert KidsTo(t, 2) == [];
    } else {
      KidsOfFilled(t, m, i - 1);
    }
  }

  lemma OneMoreFits(f: FileSystem, d: nat, m: nat)
    requires Inv(f) && d in f.tabs && Filled(f.tabs[d], m) && m < ROOM && FreeCount(f.fat) > 0
    ensures WriteCode(f, FolderNamed(m, d)) == 0 && FirstFreeSlot(f.tabs[d], 0) == 2 + m
  {
    var t, r := f.tabs[d], FolderNamed(m, d);
    assert TableOk(t);
    assert FirstFreeSlot(t, 0) == 2 + m by {
      assert !Live(t[2 + m]);
    }
    forall s | 2 <= s < SLOTS && Live(t[s]) ensures t[s].name != r.name {
      assert t[s].name[0] != r.name[0];
    }
    FirstFitCount(f.fat, 0, 1);
    assert Clusters(SizeOf(r)) == 1;
  }

  // One more folder in d: d's table grows by one, no other changes, and the new one is empty.
  lemma FolderAdded(f: FileSystem, d: nat, m: nat)
    requires Inv(f) && d in f.tabs && Filled(f.tabs[d], m) && m < ROOM && FreeCount(f.fat) > 0
    ensures var g := WriteNext(f, FolderNamed(m, d), []);
            && Inv(g) && d in g.tabs && Filled(g.tabs[d], m + 1) && FreeCount(g.fat) == FreeCount(f.fat) - 1
            && (forall c | c in f.tabs && c != d :: c in g.tabs && g.tabs[c] == f.tabs[c])
            && (forall c | c in g.tabs && c !in f.tabs :: IsEmptyTable(g.tabs[c]))
  {
    hide Inv, TreeOf, WriteNext, FreshTable, Fillable, WriteCode, FirstFit, FirstFreeSlot, FreeFrom, Filled, Written;
    var r := FolderNamed(m, d);
    OneMoreFits(f, d, m);
    WriteRefines(f, r, []);
    WriteTakes(f, r, []);
    FolderShape(f, r);
    FilledGrows(f.tabs[d], WriteNext(f, r, []).tabs[d], m);
  }

  lemma FilledGrows(t: Table, t': Table, m: nat)
    requires Filled(t, m) && m < ROOM && forall i | 0 <= i < SLOTS && i != 2 + m :: t'[i] == t[i]
    requires Live(t'[2 + m]) && IsDir(t'[2 + m]) && t'[2 + m].name == NameOf(m)
    ensures Filled(t', m + 1)
  {}

  // The tables after making a folder.
  lemma FolderShape(f: FileSystem, r: Request)
    requires Inv(f) && NameOk(r) && WriteOk(r, []) && IsFolderRequest(r) && WriteCode(f, r) == 0
    ensures var g, s := WriteNext(f, r, []), FirstFreeSlot(f.tabs[r.parent], 0);
            && s < SLOTS && r.parent in g.tabs
            && (forall c | c in f.tabs && c != r.parent :: c in g.tabs && g.tabs[c] == f.tabs[c])
            && (forall c | c in g.tabs && c !in f.tabs :: IsEmptyTable(g.tabs[c]))
            && (forall i | 0 <= i < SLOTS && i != s :: g.tabs[r.parent][i] == f.tabs[r.parent][i])
            && Live(g.tabs[r.parent][s]) && IsDir(g.tabs[r.parent][s]) && g.tabs[r.parent][s].name == r.name
  {
    WriteShape(f, r, []);
    var cs := FirstFit(f.fat, 0, Clusters(SizeOf(r)));
    assert f.fat[cs[0]] == EMPTY;
    FreeIsNoDir(f, cs[0]);
    hide Inv, TreeOf, WriteNext;
    FreshTableOk(r.name, r.parent);
    var e := NewEntry(f.tabs[r.parent][FirstFreeSlot(f.tabs[r.parent], 0)], r, cs[0]);
    assert KeyOf(e).name == r.name;
  }

  lemma DirIsNoImpostor(f: FileSystem, d: nat)
    requires Inv(f) && d in f.tabs
    ensures d < MAP_SIZE && !Impostor(f, d)
  {
    DirCluster(f, d);
    if Impostor(f, d) {
      ImpostorIsNoDir(f, d);
    }
  }

  lemma {:induction false} RunAppend(f: FileSystem, a: seq<Op>, b: seq<Op>)
    requires Inv(f) && LegalRun(f, a) && LegalRun(Run(f, a), b)
    ensures LegalRun(f, a + b) && Run(f, a + b) == Run(Run(f, a), b)
    decreases |a|
  {
    hide Inv, LegalOp, Runs.Step;
    if a == [] {
      assert a + b == b;
    } else {
      RunAppend(Runs.Step(f, a[0]), a[1..], b);
      assert (a + b)[0] == a[0] && (a + b)[1..] == a[1..] + b;
    }
  }

  lemma OneFolder(f: FileSystem, d: nat, m: nat) returns (op: Op)
    requires Inv(f) && d in f.tabs && Filled(f.tabs[d], m) && m < ROOM && FreeCount(f.fat) > 0
    ensures LegalOp(f, op) && Runs.Step(f, op) == WriteNext(f, FolderNamed(m, d), [])
  {
    hide Inv, Filled, TreeOf;
    DirIsNoImpostor(f, d);
    NameOkStores(f, FolderNamed(m, d));
    op := Op.Write(FolderNamed(m, d), []);
  }

  // What filling a directory does to the others.
  ghost predicate Grew(f: FileSystem, g: FileSystem, d: nat) {
    && (forall c | c in f.tabs && c != d :: c in g.tabs && g.tabs[c] == f.tabs[c])
    && (forall c | c in g.tabs && c !in f.tabs :: IsEmptyTable(g.tabs[c]))
  }

  lemma {:induction false} FillUp(f: FileSystem, d: nat, m: nat) returns (ops: seq<Op>)
    requires Inv(f) && d in f.tabs && Filled(f.tabs[d], m) && FreeCount(f.fat) >= ROOM - m
    ensures LegalRun(f, ops)
    ensures var g := Run(f, ops);
            d in g.tabs && Filled(g.tabs[d], ROOM) && FreeCount(g.fat) == FreeCount(f.fat) - (ROOM - m) && Grew(f, g, d)
    decreases ROOM - m
  {
    hide Inv, Filled, LegalOp, Runs.Step, WriteNext, IsEmptyTable;
    ops := [];
    if m == ROOM {
    } else {
      AtMostRoom(f.tabs[d], m);
      var op := OneFolder(f, d, m);
      FolderAdded(f, d, m);
      var rest := FillUp(Runs.Step(f, op), d, m + 1);
      ops := [op] + rest;
      assert ops[1..] == rest;
    }
  }

  lemma AtMostRoom(t: Table, m: nat)
    requires Filled(t, m)
    ensures m <= ROOM
  {}

  lemma NeverFullStep(f: FileSystem, visited: seq<nat>, cn: nat, rest: seq<nat>)
    requires Inv(f) && Walking(f, visited, [cn] + rest) && NeverFull(f, visited, [cn] + rest)
    ensures cn in f.tabs && (forall s | 0 <= s < SLOTS :: EntryOk(f.tabs[cn][s]))
    ensures var next := rest + KidsTo(f.tabs[cn], SLOTS);
            |next| < CAPACITY && Walking(f, visited + [cn], next) && NeverFull(f, visited + [cn], next)
  {
    WalkStep(f, visited, cn, rest);
    assert ([cn] + rest)[0] == cn && ([cn] + rest)[1..] == rest;
  }

  lemma TwoRounds(f: FileSystem, first: nat, rest: seq<nat>)
    requires Inv(f) && Walking(f, [], [ROOT_CLUSTER] + []) && NeverFull(f, [], [ROOT_CLUSTER] + [])
    requires ROOT_CLUSTER in f.tabs && forall s | 0 <= s < SLOTS :: EntryOk(f.tabs[ROOT_CLUSTER][s])
    requires [] + KidsTo(f.tabs[ROOT_CLUSTER], SLOTS) == [first] + rest
    ensures first in f.tabs && (forall s | 0 <= s < SLOTS :: EntryOk(f.tabs[first][s]))
    ensures |rest + KidsTo(f.tabs[first], SLOTS)| < CAPACITY
  {
    hide Inv, Walking, NeverFull, KidsTo;
    NeverFullStep(f, [], ROOT_CLUSTER, []);
    NeverFullStep(f, [] + [ROOT_CLUSTER], first, rest);
  }

  lemma TwoFullNeverFit(f: FileSystem)
    requires Inv(f) && ROOT_CLUSTER in f.tabs && Filled(f.tabs[ROOT_CLUSTER], ROOM)
    requires ClusterOf(f.tabs[ROOT_CLUSTER][2]) in f.tabs && Filled(f.tabs[ClusterOf(f.tabs[ROOT_CLUSTER][2])], ROOM)
    ensures !SearchFits(f)
  {
    var t, c := f.tabs[ROOT_CLUSTER], ClusterOf(f.tabs[ROOT_CLUSTER][2]);
    assert TableOk(t) && TableOk(f.tabs[c]);
    KidsOfFilled(t, ROOM, SLOTS);
    KidsOfFilled(f.tabs[c], ROOM, SLOTS);
    WalkStarts(f);
    hide Inv, Walking, NeverFull, KidsTo, Filled, TableOk;
    var kids := KidsTo(t, SLOTS);
    var first: nat, rest := kids[0], kids[1..];
    assert [] + kids == [first] + rest && [ROOT_CLUSTER] + [] == [ROOT_CLUSTER];
    if NeverFull(f, [], [ROOT_CLUSTER]) {
      TwoRounds(f, first, rest);
    }
  }

  lemma FirstKid(f: FileSystem)
    requires Inv(f) && ROOT_CLUSTER in f.tabs && Filled(f.tabs[ROOT_CLUSTER], ROOM)
    ensures ClusterOf(f.tabs[ROOT_CLUSTER][2]) in f.tabs && ClusterOf(f.tabs[ROOT_CLUSTER][2]) != ROOT_CLUSTER
  {
    KidHome(f, ROOT_CLUSTER, 2);
  }

  lemma EmptyIsFilled(t: Table)
    requires IsEmptyTable(t)
    ensures Filled(t, 0)
  {}

  // From a new volume 124 ordinary requests lead to where the search leaves directories out.
  lemma TooWide(f: FileSystem) returns (ops: seq<Op>)
    requires f == Formatted()
    ensures Inv(f) && LegalRun(f, ops) && !SearchFits(Run(f, ops))
  {
    FormattedOk();
    FixedNamesCanonical();
    FreshTableOk(ROOT_NAME, ROOT_CLUSTER);
    EmptyIsFilled(f.tabs[ROOT_CLUSTER]);
    hide Inv, TreeOf, Filled, Run, LegalRun, FreshTable, EmptyLinks, FreeFrom, IsEmptyTable;
    var a := FillUp(f, ROOT_CLUSTER, 0);
    var g := Run(f, a);
    FirstKid(g);
    var c := ClusterOf(g.tabs[ROOT_CLUSTER][2]);
    assert c !in f.tabs;
    EmptyIsFilled(g.tabs[c]);
    var b := FillUp(g, c, 0);
    RunAppend(f, a, b);
    ops := a + b;
    TwoFullNeverFit(Run(g, b));
  }

  // On a new volume two requests make two folders by one name: bytes after the NUL of the
  // second escape the duplicate check, and are not stored.
  lemma TwinMade(f: FileSystem) returns (op: Op, q: Request)
    requires f == Formatted()
    ensures Inv(f) && LegalOp(f, op) && Sized(q) && q.parent < MAP_SIZE && WriteOk(q, [])
    ensures var g := Runs.Step(f, op);
            !Impostor(g, q.parent) && WriteCode(g, q) == 0 && !Storable(g, q) && (q.parent, StoredKey(q)) in TreeOf(g)
  {
    FormattedOk();
    FixedNamesCanonical();
    FreshTableOk(ROOT_NAME, ROOT_CLUSTER);
    EmptyIsFilled(f.tabs[ROOT_CLUSTER]);
    hide Inv, TreeOf, Filled, FreshTable, EmptyLinks, FreeFrom, IsEmptyTable, WriteNext, FirstFit, FirstFreeSlot,
         LegalOp, Impostor, Formatted;
    op := OneFolder(f, ROOT_CLUSTER, 0);
    OneMoreFits(f, ROOT_CLUSTER, 0);
    FolderAdded(f, ROOT_CLUSTER, 0);
    WriteRefines(f, FolderNamed(0, ROOT_CLUSTER), []);
    var g := Runs.Step(f, op);
    var key := Key(NameOf(0), Zeros(3));
    CStrIs(NameOf(0), 1);
    q := TwinCanBeMade(g, key, ROOT_CLUSTER, 0);
    DirIsNoImpostor(g, ROOT_CLUSTER);
    OneSlotLeft(g.tabs[ROOT_CLUSTER]);
    FirstFitCount(g.fat, 0, Clusters(SizeOf(q)));
  }

  lemma OneSlotLeft(t: Table)
    requires Filled(t, 1)
    ensures FirstFreeSlot(t, 0) < SLOTS
  {
    assert !Live(t[3]);
  }
}
