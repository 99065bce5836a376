/**
 What the four operations return for any request, with any bytes behind the NUL of a
 name and any parent below 512, from the cached table and the disk alone; and that this
 is the code in terms of the file system unless the parent is an impostor
 (src/code/filesystem/fat32.c:174-502).
 */
module Requests {
  import opened Bytes
  import opened Layout
  import opened Fat
  import opened Forest
  import opened Refinement
  import opened Volume

  // ---------- The matchers ----------

  // read compares C strings.
  predicate Readable(e: DirEntry, r: Request) {
    Live(e) && CStr(e.name) == CStr(r.name) && CStr(e.ext) == CStr(r.ext)
  }

  function FirstReadable(t: Table, i: nat, r: Request): (s: nat)
    requires i <= SLOTS
    ensures i <= s <= SLOTS
    ensures s < SLOTS ==> Readable(t[s], r)
    ensures forall j | i <= j < s :: !Readable(t[j], r)
    decreases SLOTS - i
  {
    if i == SLOTS || Readable(t[i], r) then i else FirstReadable(t, i + 1, r)
  }

  // read_directory compares bytes, and asks of the marker only a common bit.
  predicate Listed(e: DirEntry, r: Request) {
    SharesBit(e) && e.name == r.name && e.ext == r.ext
  }

  function FirstListed(t: Table, i: nat, r: Request): (s: nat)
    requires i <= SLOTS
    ensures i <= s <= SLOTS
    ensures s < SLOTS ==> Listed(t[s], r)
    ensures forall j | i <= j < s :: !Listed(t[j], r)
    decreases SLOTS - i
  {
    if i == SLOTS || Listed(t[i], r) then i else FirstListed(t, i + 1, r)
  }

  function Padded(r: Request): (p: Request)
    requires Sized(r)
    ensures NameOk(p) && p.parent == r.parent && p.bufferSize == r.bufferSize
  {
    PadCanonical(r.name);
    PadCanonical(r.ext);
    r.(name := PadName(r.name), ext := PadName(r.ext))
  }

  lemma PaddedIs(r: Request)
    requires NameOk(r)
    ensures Padded(r) == r
  {
    PadCanonical(r.name);
    PadCanonical(r.ext);
  }

  lemma ReadableIs(e: DirEntry, r: Request)
    requires EntryOk(e) && Sized(r)
    ensures Readable(e, r) <==> Matches(e, KeyReq(Padded(r)))
  {
    PadCanonical(r.name);
    PadCanonical(r.ext);
    CanonicalAgree(e.name, PadName(r.name));
    CanonicalAgree(e.ext, PadName(r.ext));
  }

  // In a good table comparing C strings finds the slot that has the padded name...
  lemma FirstReadableIs(t: Table, r: Request)
    requires TableOk(t) && Sized(r)
    ensures FirstReadable(t, 0, r) == FirstMatch(t, 0, KeyReq(Padded(r)))
  {
    hide Readable, Matches, Padded;
    forall s | 0 <= s < SLOTS ensures Readable(t[s], r) <==> Matches(t[s], KeyReq(Padded(r))) {
      ReadableIs(t[s], r);
    }
  }

  // ...and asking for a bit finds the slot that is live.
  lemma FirstListedIs(t: Table, r: Request)
    requires TableOk(t)
    ensures FirstListed(t, 0, r) == FirstMatch(t, 0, KeyReq(r))
  {
    forall s | 0 <= s < SLOTS ensures Listed(t[s], r) <==> Matches(t[s], KeyReq(r)) {
      LiveSharesBit(t[s]);
    }
    hide Listed, Matches;
  }

  // ---------- The codes ----------

  function RawWriteCode(fat: Links, disk: Disk, r: Request): int
    requires Sized(r) && r.parent < MAP_SIZE
  {
    if !Passes(fat, disk, r.parent) then 2
    else if Clash(DecodeTable(disk[r.parent]), r) then 1
    else if FirstFreeSlot(DecodeTable(disk[r.parent]), 0) == SLOTS then -1
    else if |FirstFit(fat, 0, Clusters(SizeOf(r)))| < Clusters(SizeOf(r)) then -1
    else 0
  }

  function RawReadCode(fat: Links, disk: Disk, r: Request): int
    requires r.parent < MAP_SIZE
  {
    if !Passes(fat, disk, r.parent) then -1
    else
      var t := DecodeTable(disk[r.parent]);
      var s := FirstReadable(t, 0, r);
      if s == SLOTS then 2
      else if IsDir(t[s]) then 1
      else if r.bufferSize < t[s].filesize then -1
      else 0
  }

  function RawReadDirectoryCode(fat: Links, disk: Disk, r: Request): int
    requires r.parent < MAP_SIZE
  {
    if !Passes(fat, disk, r.parent) then -1
    else
      var t := DecodeTable(disk[r.parent]);
      var s := FirstListed(t, 0, r);
      if s == SLOTS then 2 else if !IsDir(t[s]) then 1 else 0
  }

  // The cluster that read_directory goes on to read; here the high half is shifted left.
  function RawTarget(fat: Links, disk: Disk, r: Request): nat
    requires r.parent < MAP_SIZE && RawReadDirectoryCode(fat, disk, r) == 0
  {
    var t := DecodeTable(disk[r.parent]);
    var s := FirstListed(t, 0, r);
    t[s].clusterLow + t[s].clusterHigh * U16
  }

  // The code of delete as far as its search.
  function RawFindCode(fat: Links, disk: Disk, r: Request): int
    requires r.parent < MAP_SIZE
  {
    if !Passes(fat, disk, r.parent) then -1
    else if FirstMatch(DecodeTable(disk[r.parent]), 2, KeyReq(r)) == SLOTS then 1
    else 0
  }

  // ---------- They agree with the codes in terms of the file system ----------

  lemma ParentTable(disk: Disk, f: FileSystem, p: nat)
    requires Inv(f) && OnDisk(disk, f) && p < MAP_SIZE && !Impostor(f, p)
    ensures Passes(f.fat, disk, p) <==> p in f.tabs
    ensures p in f.tabs ==> DecodeTable(disk[p]) == f.tabs[p] && TableOk(f.tabs[p])
  {
    hide Passes, Impostor, DecodeTable;
    PassesIff(disk, f, p);
    if p in f.tabs {
      OnDiskTable(disk, f, p);
      assert TableOk(f.tabs[p]);
    }
  }

  lemma RawWriteAgrees(disk: Disk, f: FileSystem, r: Request)
    requires Inv(f) && OnDisk(disk, f) && Sized(r) && r.parent < MAP_SIZE && !Impostor(f, r.parent)
    ensures RawWriteCode(f.fat, disk, r) == WriteCode(f, r)
    ensures r.parent in f.tabs ==> DecodeTable(disk[r.parent]) == f.tabs[r.parent]
  {
    hide Inv, OnDisk, Passes, Impostor, DecodeTable, Clash, FirstFreeSlot, FirstFit;
    ParentTable(disk, f, r.parent);
  }

  lemma RawReadAgrees(disk: Disk, f: FileSystem, r: Request)
    requires Inv(f) && OnDisk(disk, f) && Sized(r) && r.parent < MAP_SIZE && !Impostor(f, r.parent)
    ensures RawReadCode(f.fat, disk, r) == ReadCode(f, Padded(r))
    ensures r.parent in f.tabs ==>
              && DecodeTable(disk[r.parent]) == f.tabs[r.parent]
              && FirstReadable(f.tabs[r.parent], 0, r) == FirstMatch(f.tabs[r.parent], 0, KeyReq(Padded(r)))
  {
    hide Inv, OnDisk, Passes, Impostor, DecodeTable, FirstReadable, FirstMatch, TableOk;
    ParentTable(disk, f, r.parent);
    if r.parent in f.tabs {
      FirstReadableIs(f.tabs[r.parent], r);
    }
  }

  lemma RawReadDirectoryAgrees(disk: Disk, f: FileSystem, r: Request)
    requires Inv(f) && OnDisk(disk, f) && r.parent < MAP_SIZE && !Impostor(f, r.parent)
    ensures RawReadDirectoryCode(f.fat, disk, r) == ReadDirectoryCode(f, r)
    ensures ReadDirectoryCode(f, r) == 0 ==> RawTarget(f.fat, disk, r) == ReadDirectoryTarget(f, r)
  {
    hide Inv, OnDisk, Passes, Impostor, DecodeTable, FirstListed, FirstMatch;
    ParentTable(disk, f, r.parent);
    if r.parent in f.tabs {
      FirstListedIs(f.tabs[r.parent], r);
    }
  }

  lemma RawFindAgrees(disk: Disk, f: FileSystem, r: Request)
    requires Inv(f) && OnDisk(disk, f) && r.parent < MAP_SIZE && !Impostor(f, r.parent)
    ensures RawFindCode(f.fat, disk, r) != 0 ==> DeleteCode(f, r) == RawFindCode(f.fat, disk, r)
    ensures RawFindCode(f.fat, disk, r) == 0 ==>
              && r.parent in f.tabs && DecodeTable(disk[r.parent]) == f.tabs[r.parent]
              && FirstMatch(f.tabs[r.parent], 2, KeyReq(r)) < SLOTS
  {
    hide Inv, OnDisk, Passes, Impostor, DecodeTable, FirstMatch;
    ParentTable(disk, f, r.parent);
  }
}
