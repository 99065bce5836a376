/**
 Path texts and what they resolve to: the names from the root to a directory, and
 the descent by names (src/usermode/util.c:38-134, src/usermode/cd.c:20-43).
 */
module Paths {
  import opened Bytes
  import opened Splitting
  import opened Layout
  import opened Fat
  import opened Forest
  import opened Steps
  import opened Refinement
  import opened Volume

  const SLASH: Byte := 47
  const MAX_PARTS: nat := 10
  const PART_SIZE: nat := 12

  datatype Option<T> = None | Some(value: T)

  type Name = n: seq<Byte> | |n| == 8 witness Zeros(8)

  // ---------- Path texts ----------

  function Segments(names: seq<seq<Byte>>): seq<Byte> {
    if names == [] then [] else Segments(names[..|names| - 1]) + [SLASH] + names[|names| - 1]
  }

  // What print_curr_dir_helper writes for the directory below these names.
  function PathText(names: seq<seq<Byte>>): seq<Byte> {
    if names == [] then [SLASH] else Segments(names)
  }

  lemma {:induction false} SplitSegments(names: seq<seq<Byte>>)
    requires forall n | n in names :: n != [] && Solid(n, SLASH)
    ensures Split(Segments(names), SLASH) == names
  {
    hide Split;
    if names == [] {
      SplitNothing(SLASH);
    } else {
      var init, last := names[..|names| - 1], names[|names| - 1];
      assert forall n | n in init :: n in names;
      SplitSegments(init);
      SplitAppend(Segments(init), last, SLASH);
      assert last[..|last|] == last;
      SplitRun(last, |last|, SLASH);
    }
  }

  lemma SplitPathText(names: seq<seq<Byte>>)
    requires forall n | n in names :: n != [] && Solid(n, SLASH)
    ensures Split(PathText(names), SLASH) == names
  {
    SplitSegments(names);
  }

  // Starts with a slash, has no two in a row, and ends with none unless it is a slash alone.
  predicate Clean(text: seq<Byte>) {
    && text != [] && text[0] == 47 && (|text| > 1 ==> text[|text| - 1] != 47)
    && forall i | 0 <= i < |text| - 1 :: text[i] != 47 || text[i + 1] != 47
  }

  lemma {:induction false} SegmentsClean(names: seq<seq<Byte>>)
    requires names != [] && forall n | n in names :: n != [] && Solid(n, SLASH)
    ensures Clean(Segments(names)) && |Segments(names)| > 1
  {
    var init, last := names[..|names| - 1], names[|names| - 1];
    assert last in names && forall n | n in init :: n in names;
    if init == [] {
      SegmentsEmpty();
    } else {
      SegmentsClean(init);
    }
    CleanAppend(Segments(init), last);
  }

  lemma CleanAppend(text: seq<Byte>, last: seq<Byte>)
    requires text == [] || (Clean(text) && |text| > 1)
    requires last != [] && Solid(last, SLASH)
    ensures Clean(text + [SLASH] + last)
  {
    var all := text + [SLASH] + last;
    assert forall i | 0 <= i < |last| :: last[i] in last;
    assert forall i | |text| < i < |all| :: all[i] == last[i - |text| - 1];
  }

  lemma {:induction false} LastSlash(text: seq<Byte>) returns (i: nat)
    requires SLASH in text
    ensures i < |text| && text[i] == SLASH && Solid(text[i + 1..], SLASH)
    decreases |text|
  {
    var n := |text| - 1;
    if text[n] == SLASH {
      i := n;
    } else {
      assert text == text[..n] + [text[n]];
      i := LastSlash(text[..n]);
      assert text[i + 1..] == text[..n][i + 1..] + [text[n]];
    }
  }

  lemma {:induction false} CleanSegments(text: seq<Byte>)
    requires text == [] || (Clean(text) && |text| > 1)
    ensures Segments(Split(text, SLASH)) == text
    decreases |text|
  {
    hide Split;
    if text == [] {
      SplitNothing(SLASH);
    } else {
      var i := LastSlash(text);
      var init, last := text[..i], text[i + 1..];
      assert text == init + [SLASH] + last;
      CleanSegments(init);
      SplitAppend(init, last, SLASH);
      assert last[..|last|] == last;
      SplitRun(last, |last|, SLASH);
      assert Split(text, SLASH)[..|Split(init, SLASH)|] == Split(init, SLASH);
    }
  }

  // A printed path is the one clean text that splits into its names.
  lemma OnlyPathText(names: seq<seq<Byte>>, text: seq<Byte>)
    requires forall n | n in names :: n != [] && Solid(n, SLASH)
    ensures text == PathText(names) <==> Clean(text) && Split(text, SLASH) == names
  {
    hide Split, Segments;
    SplitPathText(names);
    if names != [] {
      SegmentsClean(names);
    }
    if Clean(text) && Split(text, SLASH) == names {
      if |text| > 1 {
        CleanSegments(text);
        SplitNothing(SLASH);
        SegmentsEmpty();
      } else {
        assert text == [] + [SLASH] + [];
        SplitNothing(SLASH);
        SplitAppend([], [], SLASH);
      }
    }
  }

  lemma SegmentsEmpty()
    ensures Segments([]) == []
  {}

  // ---------- Descending by names ----------

  // findEntryName: slot 0 is skipped, slot 1 is not, and the extension does not count.
  function FirstNamed(t: Table, i: nat, name: Name): (s: nat)
    requires i <= SLOTS
    ensures i <= s <= SLOTS
    ensures s < SLOTS ==> Live(t[s]) && t[s].name == name
    ensures forall j | i <= j < s :: !(Live(t[j]) && t[j].name == name)
    decreases SLOTS - i
  {
    if i == SLOTS || (Live(t[i]) && t[i].name == name) then i else FirstNamed(t, i + 1, name)
  }

  ghost function Descend(f: FileSystem, d: nat, name: Name): Option<nat>
    requires d in f.tabs
  {
    var s := FirstNamed(f.tabs[d], 1, name);
    if s == SLOTS || !IsDir(f.tabs[d][s]) then None else Some(ClusterOf(f.tabs[d][s]))
  }

  lemma DepthOfAll(f: FileSystem)
    requires Inv(f)
    ensures f.depth.Keys == f.tabs.Keys
  {}

  lemma EntriesOk(f: FileSystem, d: nat)
    requires Inv(f) && d in f.tabs
    ensures forall s | 0 <= s < SLOTS :: EntryOk(f.tabs[d][s])
  {
    assert TableOk(f.tabs[d]);
  }

  // A live directory slot is the home of the directory that it leads to.
  lemma KidHome(f: FileSystem, d: nat, s: nat)
    requires Inv(f) && d in f.tabs && 2 <= s < SLOTS && Live(f.tabs[d][s]) && IsDir(f.tabs[d][s])
    ensures var c := ClusterOf(f.tabs[d][s]);
            c in f.home && f.home[c] == (d, s) && c in f.tabs && f.depth[c] == f.depth[d] + 1
  {
    var l: Loc := (d, s);
    assert Occupied(f, l);
    SlotInfo(f, l);
    EntriesOk(f, d);
    assert HomeOk(f, f.chains[l][0]);
  }

  lemma DescendOk(f: FileSystem, d: nat, name: Name)
    requires Inv(f) && d in f.tabs && Descend(f, d, name).Some?
    ensures Descend(f, d, name).value in f.tabs
    ensures f.depth[Descend(f, d, name).value] <= f.depth[d] + 1
    ensures var s, c := FirstNamed(f.tabs[d], 1, name), Descend(f, d, name).value;
            if s == 1 then (d == ROOT_CLUSTER || d in f.home) && c == ParentOf(f, d)
            else c in f.home && f.home[c] == (d, s)
  {
    hide Inv;
    var s := FirstNamed(f.tabs[d], 1, name);
    DepthOfAll(f);
    ParentIsDir(f, d);
    if s >= 2 {
      KidHome(f, d, s);
    }
  }

  // The loop of cd: one component after the other.
  ghost function Resolve(f: FileSystem, d: nat, names: seq<Name>): (r: Option<nat>)
    requires Inv(f) && d in f.tabs
    ensures r.Some? ==> r.value in f.tabs
    decreases |names|
  {
    if names == [] then Some(d)
    else match Descend(f, d, names[0])
         case None => None
         case Some(c) => DescendOk(f, d, names[0]); Resolve(f, c, names[1..])
  }

  lemma {:induction false} ResolveLast(f: FileSystem, d: nat, names: seq<Name>, n: Name)
    requires Inv(f) && d in f.tabs
    ensures Resolve(f, d, names + [n]) == match Resolve(f, d, names) case None => None case Some(c) => Descend(f, c, n)
    decreases |names|
  {
    hide Inv;
    if names == [] {
      assert names + [n] == [n] && (names + [n])[1..] == [];
    } else {
      assert (names + [n])[0] == names[0] && (names + [n])[1..] == names[1..] + [n];
      match Descend(f, d, names[0])
      case None =>
      case Some(c) =>
        DescendOk(f, d, names[0]);
        ResolveLast(f, c, names[1..], n);
    }
  }

  // One step resolves exactly if some slot from 1 up is live with that name, and the earliest
  // such slot is a directory; s is that slot, or 64.
  lemma StepIs(f: FileSystem, d: nat, name: Name, s: nat)
    requires Inv(f) && d in f.tabs && 1 <= s <= SLOTS
    requires s < SLOTS ==> Live(f.tabs[d][s]) && f.tabs[d][s].name == name
    requires forall j | 1 <= j < s :: !Live(f.tabs[d][j]) || f.tabs[d][j].name != name
    ensures Resolve(f, d, [name]) ==
            if s < SLOTS && f.tabs[d][s].attribute == ATTR_SUBDIRECTORY then Some(f.tabs[d][s].clusterLow) else None
  {
    OneStep(f, d, name);
    hide Inv;
    EntriesOk(f, d);
    assert FirstNamed(f.tabs[d], 1, name) == s;
  }

  lemma OneStep(f: FileSystem, d: nat, name: Name)
    requires Inv(f) && d in f.tabs
    ensures Resolve(f, d, [name]) == Descend(f, d, name)
  {
    if Descend(f, d, name).Some? {
      DescendOk(f, d, name);
    }
    assert [name][1..] == [];
  }

  // ".." leads from the root to itself and from a folder to where the folder is.
  lemma DotDotIsParent(f: FileSystem, d: nat)
    requires Inv(f) && d in f.tabs
    ensures Resolve(f, d, [DOT_DOT]) == Some(ParentOf(f, d))
    ensures d == ROOT_CLUSTER ==> ParentOf(f, d) == ROOT_CLUSTER
    ensures forall p, k | (p, k) in TreeOf(f) && TreeOf(f)[(p, k)] == Folder(d) :: ParentOf(f, d) == p
  {
    OneStep(f, d, DOT_DOT);
    ParentIsDir(f, d);
    assert TableOk(f.tabs[d]);
    assert FirstNamed(f.tabs[d], 1, DOT_DOT) == 1;
    forall p, k | (p, k) in TreeOf(f) && TreeOf(f)[(p, k)] == Folder(d) ensures ParentOf(f, d) == p {
      var s := TreeSlot(f, p, k);
      DirIsElsewhere(f, (p, s));
    }
  }

  // Any other name leads into a folder of that name, and does so unless a file bears it too.
  lemma EntersFolder(f: FileSystem, d: nat, name: Name, c: nat)
    requires Inv(f) && d in f.tabs && name != DOT_DOT
    ensures var k := Key(name, Zeros(3));
            && (Resolve(f, d, [name]) == Some(c) ==> (d, k) in TreeOf(f) && TreeOf(f)[(d, k)] == Folder(c))
            && ((d, k) in TreeOf(f) && TreeOf(f)[(d, k)] == Folder(c)
                && (forall k' | (d, k') in TreeOf(f) && k'.name == name :: k' == k) ==>
                  Resolve(f, d, [name]) == Some(c))
  {
    OneStep(f, d, name);
    var t, s := f.tabs[d], FirstNamed(f.tabs[d], 1, name);
    assert TableOk(t);
    if s < SLOTS {
      assert Occupied(f, (d, s));
      TreeAt(f, (d, s));
      assert EntryOk(t[s]);
    }
    var k := Key(name, Zeros(3));
    if (d, k) in TreeOf(f) && TreeOf(f)[(d, k)] == Folder(c) {
      var u := TreeSlot(f, d, k);
      assert s <= u;
    }
  }

  // Each component leads at most one level down.
  lemma {:induction false} ResolveDepth(f: FileSystem, d: nat, names: seq<Name>)
    requires Inv(f) && d in f.tabs && Resolve(f, d, names).Some?
    ensures f.depth.Keys == f.tabs.Keys && f.depth[Resolve(f, d, names).value] <= f.depth[d] + |names|
    decreases |names|
  {
    if names == [] {
    } else {
      DescendOk(f, d, names[0]);
      ResolveDepth(f, Descend(f, d, names[0]).value, names[1..]);
    }
  }

  // ---------- The names of a directory ----------

  // The names from the root down to d, as the climb over slot 0 collects them.
  ghost function NamesOf(f: FileSystem, d: nat): (n: seq<Name>)
    requires Inv(f) && d in f.tabs
    ensures |n| == f.depth[d]
    decreases f.depth[d]
  {
    if d == ROOT_CLUSTER then []
    else ParentIsDir(f, d); NamesOf(f, ParentOf(f, d)) + [f.tabs[d][0].name]
  }

  lemma NamesStep(f: FileSystem, d: nat)
    requires Inv(f) && d in f.tabs
    ensures f.depth.Keys == f.tabs.Keys && (d == ROOT_CLUSTER ==> NamesOf(f, d) == [])
    ensures d != ROOT_CLUSTER ==>
              && ClusterOf(f.tabs[d][0]) in f.tabs && f.depth[d] == f.depth[ClusterOf(f.tabs[d][0])] + 1
              && NamesOf(f, d) == NamesOf(f, ClusterOf(f.tabs[d][0])) + [f.tabs[d][0].name]
  {
    ParentIsDir(f, d);
  }

  // No live entry before a directory's own slot, from slot 1 on, bears its name: neither
  // a file nor the parent link.  The same holds for its ancestors.
  ghost predicate Unshadowed(f: FileSystem, d: nat)
    requires Inv(f) && d in f.tabs
    decreases f.depth[d]
  {
    d == ROOT_CLUSTER
    || (ParentIsDir(f, d);
        Unshadowed(f, ParentOf(f, d)) && FirstNamed(f.tabs[ParentOf(f, d)], 1, f.tabs[d][0].name) == f.home[d].1)
  }

  lemma OwnSlot(f: FileSystem, d: nat)
    requires Inv(f) && d in f.home
    ensures d in f.tabs && f.home[d].0 in f.tabs && 2 <= f.home[d].1 < SLOTS
    ensures var e := At(f, f.home[d]);
            Live(e) && IsDir(e) && e.name == f.tabs[d][0].name && ClusterOf(e) == d
  {
    assert HomeOk(f, d);
    SlotInfo(f, f.home[d]);
    assert TableOk(f.tabs[f.home[d].0]);
  }

  // Following a directory's names from the root leads back to it exactly when none of
  // them is shadowed.
  lemma {:induction false} ResolveNames(f: FileSystem, d: nat)
    requires Inv(f) && d in f.tabs
    ensures ROOT_CLUSTER in f.tabs
    ensures Resolve(f, ROOT_CLUSTER, NamesOf(f, d)) == Some(d) <==> Unshadowed(f, d)
    decreases f.depth[d]
  {
    if d == ROOT_CLUSTER {
    } else {
      ParentIsDir(f, d);
      var p, n: Name := ParentOf(f, d), f.tabs[d][0].name;
      ResolveNames(f, p);
      ResolveLast(f, ROOT_CLUSTER, NamesOf(f, p), n);
      OwnSlot(f, d);
      var before := Resolve(f, ROOT_CLUSTER, NamesOf(f, p));
      if before.Some? && Descend(f, before.value, n) == Some(d) {
        ResolveDepth(f, ROOT_CLUSTER, NamesOf(f, p));
        ParentIsDir(f, before.value);
        DescendOk(f, before.value, n);
      }
    }
  }

  // A folder by the name of ".." may be made, and cannot be entered: the parent link
  // shadows it.
  lemma DotDotIsShadowed(f: FileSystem, r: Request, data: seq<Byte>) returns (d: nat)
    requires Inv(f) && NameOk(r) && WriteOk(r, data) && WriteCode(f, r) == 0
    requires IsFolderRequest(r) && r.name == DOT_DOT
    ensures var g := WriteNext(f, r, data);
            && Inv(g) && (r.parent, KeyReq(r)) in TreeOf(g) && TreeOf(g)[(r.parent, KeyReq(r))] == Folder(d)
            && d in g.tabs && !Unshadowed(g, d)
            && Resolve(g, ROOT_CLUSTER, NamesOf(g, d)) != Some(d)
  {
    WriteRefines(f, r, data);
    var g := WriteNext(f, r, data);
    d := TreeOf(g)[(r.parent, KeyReq(r))].dir;
    var s := TreeSlot(g, r.parent, KeyReq(r));
    KidHome(g, r.parent, s);
    OwnSlot(g, d);
    NamedDotDot(g, d);
    ResolveNames(g, d);
  }

  lemma NamedDotDot(g: FileSystem, d: nat)
    requires Inv(g) && d in g.home && d in g.tabs && g.tabs[d][0].name == DOT_DOT
    ensures !Unshadowed(g, d)
  {
    OwnSlot(g, d);
    ParentIsDir(g, d);
    assert TableOk(g.tabs[ParentOf(g, d)]);
    assert FirstNamed(g.tabs[ParentOf(g, d)], 1, DOT_DOT) == 1;
  }

  // On a new volume a single request makes such a folder.
  lemma ShadowedExists(f: FileSystem) returns (r: Request, d: nat)
    requires f == Formatted()
    ensures Inv(f) && NameOk(r) && WriteOk(r, []) && WriteCode(f, r) == 0
    ensures var g := WriteNext(f, r, []);
            Inv(g) && d in g.tabs && !Unshadowed(g, d)
  {
    hide Inv, TreeOf, WriteCode, WriteNext;
    r := Request(DOT_DOT, Zeros(3), ROOT_CLUSTER, 0);
    FixedNamesCanonical();
    FormattedOk();
    RootHasRoom(f, r);
    d := DotDotIsShadowed(f, r, []);
  }
}
