/**
 The shell's directory commands on top of the driver: entering a directory,
 printing where one is, and moving about by path (src/usermode/util.c,
 src/usermode/cd.c).
 */
module ShellState {
  import opened Bytes
  import opened Splitting
  import opened Layout
  import opened Fat
  import opened Forest
  import opened Refinement
  import opened Volume
  import opened Driver
  import opened Paths

  // A part as it lies in its zero-filled buffer of twelve bytes.
  function Padded(p: seq<Byte>): (b: seq<Byte>)
    requires |p| < PART_SIZE
    ensures |b| == PART_SIZE
  {
    p + Zeros(PART_SIZE - |p|)
  }

  predicate PartsFit(dir: seq<Byte>) {
    forall p | p in Split(dir, SLASH) :: |p| < PART_SIZE
  }

  function Capped<T>(s: seq<T>): (r: seq<T>)
    ensures |r| <= MAX_PARTS
  {
    if |s| <= MAX_PARTS then s else s[..MAX_PARTS]
  }

  // The names that a path text makes the shell look for: eight bytes of each part.
  function PartNames(dir: seq<Byte>): (n: seq<Name>)
    requires PartsFit(dir)
  {
    seq(|Capped(Split(dir, SLASH))|, i requires 0 <= i < |Capped(Split(dir, SLASH))| =>
        Padded(Capped(Split(dir, SLASH))[i])[..8])
  }

  function Strip(names: seq<Name>): (r: seq<seq<Byte>>)
    ensures |r| == |names|
  {
    seq(|names|, i requires 0 <= i < |names| => CStr(names[i]))
  }

  predicate Printable(names: seq<Name>) {
    forall n | n in names :: Canonical(n) && CStr(n) != [] && Solid(CStr(n), SLASH)
  }

  lemma PaddedName(n: Name)
    requires Canonical(n)
    ensures Padded(CStr(n))[..8] == n
  {
    CopyIntoZeros(n);
    assert CopyCStr(Zeros(8), n) == CStr(n) + Zeros(8)[|CStr(n)|..];
  }

  // Splitting a printed path gives back the names that it was printed from.
  lemma PrintedParts(names: seq<Name>)
    requires Printable(names) && |names| <= MAX_PARTS
    ensures PartsFit(PathText(Strip(names))) && PartNames(PathText(Strip(names))) == names
  {
    var parts := Strip(names);
    assert forall p | p in parts :: p != [] && Solid(p, SLASH) && |p| <= 8;
    SplitPathText(parts);
    forall i | 0 <= i < |names| ensures Padded(parts[i])[..8] == names[i] {
      PaddedName(names[i]);
    }
  }

  // The shell looks for the first ten parts of a path, by eight bytes of each, padded with zeros.
  lemma PartNamesAre(parts: seq<seq<Byte>>)
    requires forall p | p in parts :: p != [] && Solid(p, SLASH) && |p| < 12
    ensures PartsFit(PathText(parts))
    ensures var n := PartNames(PathText(parts));
            && |n| == (if |parts| < 10 then |parts| else 10)
            && forall i, j | 0 <= i < |n| && 0 <= j < 8 :: n[i][j] == if j < |parts[i]| then parts[i][j] else 0
  {
    hide Split;
    SplitPathText(parts);
  }

  // One round of the splitting loop: the run that ends at a slash or at the end of the text.
  lemma SplitStep(dir: seq<Byte>, start: nat, end: nat)
    requires start <= end <= |dir| && Solid(dir[start..end], SLASH) && (end < |dir| ==> dir[end] == SLASH)
    ensures Split(dir[start..], SLASH) == (if end > start then [dir[start..end]] else [])
                                          + if end < |dir| then Split(dir[end + 1..], SLASH) else []
  {
    var text := dir[start..];
    assert text[..end - start] == dir[start..end];
    assert end < |dir| ==> text[end - start + 1..] == dir[end + 1..];
    SplitRun(text, end - start, SLASH);
  }

  // The first ten parts found so far lie in the buffers; the rest are still zero.
  ghost predicate Buffered(buffers: seq<seq<Byte>>, parts: seq<seq<Byte>>) {
    && |buffers| == MAX_PARTS
    && (forall i | 0 <= i < |Capped(parts)| :: |parts[i]| < PART_SIZE && buffers[i] == Padded(parts[i]))
    && (forall i | |Capped(parts)| <= i < MAX_PARTS :: buffers[i] == Zeros(PART_SIZE))
  }

  // Copies a part into its buffer and terminates it; the eleventh and later ones are dropped.
  method StorePart(directories: array<seq<Byte>>, num: nat, p: seq<Byte>, ghost parts: seq<seq<Byte>>)
    returns (next: nat)
    requires Buffered(directories[..], parts) && num == |Capped(parts)| && |p| < PART_SIZE
    modifies directories
    ensures Buffered(directories[..], parts + [p]) && next == |Capped(parts + [p])|
  {
    next := num;
    if num < MAX_PARTS {
      assert p + [0] + Zeros(PART_SIZE)[|p| + 1..] == Padded(p);
      assert directories[..][num] == Zeros(PART_SIZE);
      directories[num] := p + [0] + directories[num][|p| + 1..];
      next := num + 1;
    }
  }

  lemma MovePart<T>(parts: seq<T>, p: T, next: seq<T>)
    ensures parts + ([p] + next) == (parts + [p]) + next && (parts + ([p] + next))[|parts|] == p
  {}

  lemma AllZero(buffers: seq<seq<Byte>>)
    requires |buffers| == MAX_PARTS && forall i | 0 <= i < MAX_PARTS :: buffers[i] == Zeros(PART_SIZE)
    ensures Buffered(buffers, [])
  {}

  lemma SolidNone(dir: seq<Byte>)
    ensures forall i | 0 <= i <= |dir| :: Solid(dir[i..i], SLASH)
    ensures dir[0..] == dir
  {}

  lemma SolidGrows(dir: seq<Byte>, start: nat, end: nat)
    requires start <= end < |dir| && Solid(dir[start..end], SLASH) && dir[end] != SLASH
    ensures Solid(dir[start..end + 1], SLASH)
  {
    assert dir[start..end + 1] == dir[start..end] + [dir[end]];
  }

  // extract_dir
  method ExtractDir(dir: seq<Byte>) returns (directories: array<seq<Byte>>, num: nat)
    requires PartsFit(dir)
    ensures fresh(directories) && Buffered(directories[..], Split(dir, SLASH)) && num == |Capped(Split(dir, SLASH))|
  {
    hide Split, Buffered, Solid;
    directories := new seq<Byte>[MAX_PARTS](_ => Zeros(PART_SIZE));
    num := 0;
    var start, end := 0, 0;
    ghost var all, parts: seq<seq<Byte>>, rest := Split(dir, SLASH), [], Split(dir, SLASH);
    AllZero(directories[..]);
    SolidNone(dir);
    while end <= |dir|
      invariant 0 <= start <= end <= |dir| + 1
      invariant end <= |dir| ==> Solid(dir[start..end], SLASH) && rest == Split(dir[start..], SLASH)
      invariant end == |dir| + 1 ==> rest == []
      invariant parts + rest == all && num == |Capped(parts)|
      invariant Buffered(directories[..], parts)
      modifies directories
    {
      if end == |dir| || dir[end] == SLASH {
        SplitStep(dir, start, end);
        ghost var p, next := dir[start..end], if end < |dir| then Split(dir[end + 1..], SLASH) else [];
        if end - start > 0 {
          MovePart(parts, p, next);
          assert p == all[|parts|];
          num := StorePart(directories, num, dir[start..end], parts);
          parts := parts + [p];
        }
        rest := next;
        start := end + 1;
        SolidNone(dir);
      } else {
        SolidGrows(dir, start, end);
      }
      end := end + 1;
    }
    assert parts == all;
  }

  // The second half of print_curr_dir_helper: the collected names, written downwards.
  method JoinNodes(nodes: array<seq<Byte>>, nodeCount: nat, ghost texts: seq<seq<Byte>>) returns (path: seq<Byte>)
    requires 0 < nodeCount == |texts| <= MAX_PARTS && nodeCount <= nodes.Length
    requires forall i | 0 <= i < nodeCount :: nodes[i] == texts[nodeCount - 1 - i] && |nodes[i]| <= 8
    ensures path == PathText(texts) && |path| < 128
  {
    path := [SLASH];
    var i := nodeCount - 1;
    while i >= 0
      invariant -1 <= i < nodeCount
      invariant path == Segments(texts[..nodeCount - 1 - i]) + if i >= 0 then [SLASH] else []
      invariant |path| <= 9 * (nodeCount - 1 - i) + 1
    {
      ghost var done := nodeCount - 1 - i;
      assert texts[..done + 1][..done] == texts[..done] && nodes[i] == texts[done];
      path := path + nodes[i];
      if i > 0 {
        path := path + [SLASH];
      }
      i := i - 1;
    }
    assert texts[..nodeCount] == texts;
  }

  class Shell {
    const driver: Fat32Driver
    var currentDirectory: nat
    var currDir: Table

    ghost predicate Valid()
      reads this, driver, driver.disk, driver.fat
    {
      driver.Valid() && currentDirectory in driver.fs.tabs
    }

    constructor (d: Fat32Driver)
      requires d.Valid()
      ensures Valid() && driver == d && currentDirectory == ROOT_CLUSTER
    {
      driver := d;
      currentDirectory := ROOT_CLUSTER;
      currDir := seq(SLOTS, _ => ZeroEntry);
    }

    // updateDirectoryTable: reads the cluster as it is, without any check.
    method UpdateDirectoryTable(c: nat)
      requires driver.Valid() && (c in driver.fs.tabs || c < MAP_SIZE)
      modifies this`currDir
      ensures c < MAP_SIZE && currDir == DecodeTable(driver.disk[c])
      ensures c in driver.fs.tabs ==> currDir == driver.fs.tabs[c]
    {
      if c in driver.fs.tabs {
        DirCluster(driver.fs, c);
      }
      currDir := DecodeTable(driver.disk[c]);
    }

    // findEntryName
    method FindEntryName(name: Name) returns (result: int)
      ensures result == if FirstNamed(currDir, 1, name) == SLOTS then -1 else FirstNamed(currDir, 1, name)
    {
      result := -1;
      var i := 1;
      var found := false;
      while i < SLOTS && !found
        invariant 1 <= i <= SLOTS
        invariant FirstNamed(currDir, i, name) == FirstNamed(currDir, 1, name)
        invariant found ==> i < SLOTS && result == i == FirstNamed(currDir, 1, name)
        invariant !found ==> result == -1
        decreases SLOTS - i, !found
      {
        var n := MemCmp(currDir[i].name, name);
        if n == 0 && currDir[i].userAttribute == UATTR_NOT_EMPTY {
          result := i;
          found := true;
        } else {
          i := i + 1;
        }
      }
    }

    // The loop over path components that cd, cp and mv share.
    method Walk(from: nat, directories: array<seq<Byte>>, num: nat, ghost names: seq<Name>) returns (ok: bool, d: nat)
      requires driver.Valid() && from in driver.fs.tabs && num == |names| <= directories.Length
      requires forall i | 0 <= i < num :: |directories[i]| == PART_SIZE && directories[i][..8] == names[i]
      modifies this`currDir
      ensures if ok then Resolve(driver.fs, from, names) == Some(d) else Resolve(driver.fs, from, names) == None
    {
      d := from;
      var i := 0;
      while i < num
        invariant i <= num && d in driver.fs.tabs
        invariant Resolve(driver.fs, d, names[i..]) == Resolve(driver.fs, from, names)
      {
        UpdateDirectoryTable(d);
        var entry := FindEntryName(directories[i][..8]);
        assert names[i..][0] == names[i] && names[i..][1..] == names[i + 1..];
        if entry == -1 || currDir[entry].attribute != ATTR_SUBDIRECTORY {
          return false, d;
        }
        DescendOk(driver.fs, d, names[i]);
        d := ClusterOf(currDir[entry]);
        i := i + 1;
      }
      assert names[i..] == [];
      return true, d;
    }

    // cd: a path that does not resolve leaves the current directory alone.
    method Cd(dir: seq<Byte>)
      requires Valid() && PartsFit(dir)
      modifies this
      ensures Valid()
      ensures match Resolve(driver.fs, old(currentDirectory), PartNames(dir))
              case Some(d) => currentDirectory == d && currDir == driver.fs.tabs[d]
              case None => currentDirectory == old(currentDirectory)
    {
      hide Inv, OnDisk, Split;
      var directories, num := ExtractDir(dir);
      var ok, d := Walk(currentDirectory, directories, num, PartNames(dir));
      if !ok {
        return;
      }
      currentDirectory := d;
      UpdateDirectoryTable(d);
    }

    // The climb of print_curr_dir_helper over slot 0; the names come out last first.
    method Climb(d: nat) returns (nodes: array<seq<Byte>>, nodeCount: nat)
      requires driver.Valid() && d in driver.fs.tabs && driver.fs.depth[d] <= MAX_PARTS
      modifies this`currDir
      ensures fresh(nodes) && nodeCount == |NamesOf(driver.fs, d)| <= nodes.Length
      ensures forall i | 0 <= i < nodeCount :: nodes[i] == CStr(NamesOf(driver.fs, d)[nodeCount - 1 - i])
    {
      hide Inv, OnDisk, NamesOf, DecodeTable, CStr;
      nodes := new seq<Byte>[MAX_PARTS](_ => []);
      nodeCount := 0;
      var parent := d;
      ghost var f, names := driver.fs, NamesOf(driver.fs, d);
      DepthOfAll(f);
      while parent != ROOT_CLUSTER
        invariant parent in f.tabs && f.depth.Keys == f.tabs.Keys && nodeCount + f.depth[parent] == f.depth[d]
        invariant NamesOf(f, parent) == names[..f.depth[parent]]
        invariant forall i | 0 <= i < nodeCount :: nodes[i] == CStr(names[|names| - 1 - i])
        decreases f.depth[parent]
        modifies this`currDir, nodes
      {
        NamesStep(f, parent);
        UpdateDirectoryTable(parent);
        nodes[nodeCount] := CStr(currDir[0].name);
        parent := ClusterOf(currDir[0]);
        nodeCount := nodeCount + 1;
      }
      NamesStep(f, parent);
    }

    // print_curr_dir_helper: climbs to the root and writes the names downwards.
    method PrintPath(d: nat) returns (path: seq<Byte>)
      requires driver.Valid() && d in driver.fs.tabs && driver.fs.depth[d] <= MAX_PARTS
      modifies this`currDir
      ensures path == PathText(Strip(NamesOf(driver.fs, d))) && |path| < 128
      ensures currDir == if d == ROOT_CLUSTER then old(currDir) else driver.fs.tabs[d]
    {
      hide Inv, OnDisk;
      if d == ROOT_CLUSTER {
        return [SLASH];
      }
      var nodes, nodeCount := Climb(d);
      UpdateDirectoryTable(d);
      path := JoinNodes(nodes, nodeCount, Strip(NamesOf(driver.fs, d)));
    }
  }

  lemma DotDotPath()
    ensures PartsFit([46, 46]) && PartNames([46, 46]) == [DOT_DOT]
  {
    hide Split;
    var text: seq<Byte> := [46, 46];
    assert text[..2] == text;
    SplitRun(text, 2, SLASH);
    assert Split(text, SLASH) == [text];
    assert Padded(text)[..8] == DOT_DOT;
  }

  // "cd .." leads to the directory that the current one is in; the root stays where it is.
  method GoUp(sh: Shell)
    requires sh.Valid()
    modifies sh
    ensures sh.Valid() && sh.currDir == sh.driver.fs.tabs[sh.currentDirectory]
    ensures old(sh.currentDirectory) == ROOT_CLUSTER ==> sh.currentDirectory == ROOT_CLUSTER
    ensures forall p, k | (p, k) in TreeOf(sh.driver.fs)
                          && TreeOf(sh.driver.fs)[(p, k)] == Folder(old(sh.currentDirectory)) ::
              sh.currentDirectory == p
  {
    hide Inv, OnDisk, Resolve, PartNames, PartsFit, ParentOf, TreeOf;
    DotDotPath();
    DotDotIsParent(sh.driver.fs, sh.currentDirectory);
    sh.Cd([46, 46]);
  }

  // Entering a path by its names.
  method GoTo(sh: Shell, names: seq<Name>)
    requires sh.Valid() && Printable(names) && |names| <= MAX_PARTS
    modifies sh
    ensures sh.Valid()
    ensures match Resolve(sh.driver.fs, old(sh.currentDirectory), names)
            case Some(d) => sh.currentDirectory == d && sh.currDir == sh.driver.fs.tabs[d]
            case None => sh.currentDirectory == old(sh.currentDirectory)
  {
    hide Inv, OnDisk, Resolve, PartNames;
    PrintedParts(names);
    sh.Cd(PathText(Strip(names)));
  }

  // Printing the path of a directory and entering that path from the root leads back to
  // the directory, unless one of its names is shadowed on the way down.
  method PrintThenCd(sh: Shell, d: nat)
    requires sh.Valid() && d in sh.driver.fs.tabs && sh.driver.fs.depth[d] <= MAX_PARTS
    requires Printable(NamesOf(sh.driver.fs, d))
    modifies sh
    ensures sh.Valid() && (sh.currentDirectory == d <==> Unshadowed(sh.driver.fs, d))
  {
    hide Inv, OnDisk, Resolve, NamesOf, PartNames;
    var path := sh.PrintPath(d);
    PrintedParts(NamesOf(sh.driver.fs, d));
    ResolveNames(sh.driver.fs, d);
    sh.currentDirectory := ROOT_CLUSTER;
    sh.Cd(path);
  }
}
