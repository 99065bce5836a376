/**
 The driver itself: a cached allocation table, one buffer for a directory table
 and the disk, all updated in place (src/code/filesystem/fat32.c).
 */
module Driver {
  import opened Bytes
  import opened Layout
  import opened Fat
  import opened Forest
  import opened Steps
  import opened Refinement
  import opened Volume
  import opened Requests
  import opened Impostors

  // One step of the search: cluster c is taken if it is free, and passed over if not.
  lemma FirstFitStep(fat: Links, got: Chain, c: nat, k: nat)
    requires c < MAP_SIZE && k > 0
    ensures got + FirstFit(fat, c, k) ==
            if fat[c] == EMPTY then (got + [c]) + FirstFit(fat, c + 1, k - 1) else got + FirstFit(fat, c + 1, k)
  {
    if fat[c] == EMPTY {
      assert got + ([c] + FirstFit(fat, c + 1, k - 1)) == (got + [c]) + FirstFit(fat, c + 1, k - 1);
    }
  }

  lemma FirstFitEnds(fat: Links, k: nat)
    ensures FirstFit(fat, MAP_SIZE, k) == []
  {}

  lemma CopiedBlock(before: seq<Byte>, after: seq<Byte>, bl: seq<Block>, j: nat, whole: seq<Byte>)
    requires j < |bl| && |after| == |before| == |whole| >= CLUSTER_SIZE * |bl|
    requires before == Flatten(bl[..j]) + whole[CLUSTER_SIZE * j..]
    requires forall k | 0 <= k < |after| ::
               after[k] == if CLUSTER_SIZE * j <= k < CLUSTER_SIZE * (j + 1) then bl[j][k - CLUSTER_SIZE * j]
                           else before[k]
    ensures after == Flatten(bl[..j + 1]) + whole[CLUSTER_SIZE * (j + 1)..]
  {
    assert bl[..j + 1][..j] == bl[..j];
    assert Flatten(bl[..j + 1]) == Flatten(bl[..j]) + bl[j];
  }

  lemma BlockCases(src: seq<Byte>, size: nat, i: nat)
    requires |src| >= size && i < Clusters(size)
    ensures CLUSTER_SIZE * i + CLUSTER_SIZE <= size
            || (i + 1 == Clusters(size) && CLUSTER_SIZE * i + size % CLUSTER_SIZE == size)
    ensures BlockAt(src, size, i) == if i + 1 == Clusters(size) && size % CLUSTER_SIZE != 0
                                     then src[CLUSTER_SIZE * i..CLUSTER_SIZE * i + size % CLUSTER_SIZE]
                                          + Zeros(CLUSTER_SIZE - size % CLUSTER_SIZE)
                                     else src[CLUSTER_SIZE * i..CLUSTER_SIZE * i + CLUSTER_SIZE]
  {}

  // The bytes of the cluster at ptr; the last one is padded (fat32.c:402-413).
  method TakeBlock(src: seq<Byte>, size: nat, ptr: nat, last: bool, ghost i: nat) returns (block: Block)
    requires |src| >= size && i < Clusters(size) && ptr == CLUSTER_SIZE * i && last == (i + 1 == Clusters(size))
    ensures block == BlockAt(src, size, i)
  {
    BlockCases(src, size, i);
    var currentSize := size % CLUSTER_SIZE;
    if last && currentSize != 0 {
      return src[ptr..ptr + currentSize] + Zeros(CLUSTER_SIZE - currentSize);
    }
    return src[ptr..ptr + CLUSTER_SIZE];
  }

  // init_directory_table
  method InitTable(table: array<DirEntry>, name: seq<Byte>, parent: nat)
    requires table.Length == SLOTS && |name| == 8 && parent < MAP_SIZE
    modifies table
    ensures table[..] == FreshTable(name, parent)
  {
    forall s | 0 <= s < SLOTS {
      table[s] := ZeroEntry;
    }
    var n0 := CopyStringWithLength(table[0].name, name);
    table[0] := table[0].(name := n0, attribute := ATTR_SUBDIRECTORY, userAttribute := UATTR_NOT_EMPTY,
                          clusterLow := parent % U16, clusterHigh := parent / U16, filesize := 0);
    var n1 := CopyStringWithLength(table[1].name, DOT_DOT);
    FixedNamesCanonical();
    CopyIntoZeros(DOT_DOT);
    table[1] := table[1].(name := n1, attribute := ATTR_SUBDIRECTORY, userAttribute := UATTR_NOT_EMPTY,
                          clusterLow := parent % U16, clusterHigh := parent / U16, filesize := 0);
  }

  class Fat32Driver {
    const disk: array<Block>
    const fat: array<Word>        // fat_table.cluster_map
    const table: array<DirEntry>  // dir_table_buf
    ghost var fs: FileSystem      // what the disk holds

    ghost predicate Wired() {
      disk.Length == MAP_SIZE && fat.Length == MAP_SIZE && table.Length == SLOTS
    }

    ghost predicate Valid()
      reads this, disk, fat
    {
      Wired() && fat[..] == fs.fat && Inv(fs) && OnDisk(disk[..], fs)
    }

    // Static storage starts out zeroed; the disk is what the machine was given.
    constructor (d: array<Block>)
      requires d.Length == MAP_SIZE
      ensures Wired() && disk == d && fresh(fat) && fresh(table)
    {
      disk := d;
      fat := new Word[MAP_SIZE](_ => 0);
      table := new DirEntry[SLOTS](_ => ZeroEntry);
    }

    // ---------- Creating and mounting a volume ----------

    // create_fat32: formats the disk, but not the cached allocation table.
    method Create()
      requires Wired()
      modifies disk, table
      ensures OnDisk(disk[..], Formatted())
      ensures forall c | 3 <= c < MAP_SIZE :: disk[c] == old(disk[c])
      ensures disk[0][BLOCK_SIZE..] == old(disk[0][BLOCK_SIZE..])
    {
      hide OnDisk, Formatted;
      disk[0] := SIGNATURE + disk[0][BLOCK_SIZE..];
      var links := NewLinks();
      disk[FAT_CLUSTER] := EncodeLinks(links[..]);
      InitTable(table, ROOT_NAME, ROOT_CLUSTER);
      disk[ROOT_CLUSTER] := EncodeTable(table[..]);
      FormattedOnDisk(disk[..]);
    }

    // The allocation table of a new volume, in a buffer of its own (fat32.c:92-98).
    method NewLinks() returns (links: array<Word>)
      ensures fresh(links) && links[..] == EmptyLinks()
    {
      links := new Word[MAP_SIZE];
      var i := 0;
      while i < MAP_SIZE
        invariant i <= MAP_SIZE
        invariant forall j | 0 <= j < i :: links[j] == EMPTY
        modifies links
      {
        links[i] := EMPTY;
        i := i + 1;
      }
      links[0] := CLUSTER_0_VALUE;
      links[1] := CLUSTER_1_VALUE;
      links[2] := END_OF_FILE;
    }

    // is_empty_storage
    method IsEmptyStorage() returns (empty: bool)
      requires Wired()
      ensures empty == !Signed(disk[..])
      ensures empty == exists i | 0 <= i < 512 :: SIGNATURE[i] != disk[0][i]
    {
      var b := disk[0];
      for i := 0 to BLOCK_SIZE
        invariant b[..i] == SIGNATURE[..i]
      {
        if SIGNATURE[i] != b[i] {
          assert b[..BLOCK_SIZE][i] == b[i] == disk[0][i];
          return true;
        }
        assert b[..i + 1] == b[..i] + [b[i]] && SIGNATURE[..i + 1] == SIGNATURE[..i] + [SIGNATURE[i]];
      }
      assert forall i | 0 <= i < BLOCK_SIZE :: b[..BLOCK_SIZE][i] == b[i];
      return false;
    }

    // initialize_filesystem_fat32: a signed disk is mounted as it is, any other is formatted.
    // Nothing looks at what the signature stands in front of.
    method Initialize()
      requires Wired()
      modifies this, disk, fat, table
      ensures Valid() <==> !old(Signed(disk[..])) || old(Mountable(disk[..]))
      ensures if old(Signed(disk[..])) then disk[..] == old(disk[..]) else fs == Formatted()
      ensures fat[..] == DecodeLinks(disk[FAT_CLUSTER]) && table[..] == DecodeTable(disk[ROOT_CLUSTER])
    {
      hide Inv, TreeOf, Formatted, DecodeLinks;
      var empty := IsEmptyStorage();
      if empty {
        Create();
        FormattedOk();
        fs := Formatted();
      } else if Mountable(disk[..]) {
        ghost var found :| Inv(found) && OnDisk(disk[..], found);
        fs := found;
      }
      forall i | 0 <= i < MAP_SIZE {
        fat[i] := DecodeLinks(disk[FAT_CLUSTER])[i];
      }
      LoadTable(ROOT_CLUSTER);
      assert Valid() ==> Mountable(disk[..]);
    }

    // ---------- Shared steps ----------

    // read_clusters into the directory buffer
    method LoadTable(c: nat)
      requires Wired() && c < MAP_SIZE
      modifies table
      ensures table[..] == DecodeTable(disk[c])
    {
      forall s | 0 <= s < SLOTS {
        table[s] := DecodeTable(disk[c])[s];
      }
    }

    // get_dir_table_from_cluster
    method GetDirTable(c: nat) returns (ok: bool)
      requires Wired() && c < MAP_SIZE
      modifies table
      ensures ok == Passes(fat[..], disk[..], c)
      ensures fat[c] == END_OF_FILE ==> table[..] == DecodeTable(disk[c])
    {
      if fat[c] != END_OF_FILE {
        return false;
      }
      LoadTable(c);
      return table[0].attribute == ATTR_SUBDIRECTORY;
    }

    // The duplicate check of write (fat32.c:282-299).
    method HasClash(r: Request) returns (found: bool)
      requires Wired() && |r.name| == 8 && |r.ext| == 3
      ensures found == Clash(table[..], r)
    {
      var isFolder := IsFolderRequest(r);
      for i := 2 to SLOTS
        invariant forall j | 2 <= j < i ::
                    !(Live(table[j]) && table[j].name == r.name && (isFolder || table[j].ext == r.ext))
      {
        if table[i].userAttribute == UATTR_NOT_EMPTY {
          var n := MemCmp(table[i].name, r.name);
          var x := MemCmp(table[i].ext, r.ext);
          if n == 0 && (isFolder || x == 0) {
            assert Live(table[..][i]);
            return true;
          }
        }
      }
      return false;
    }

    // The first slot that is not in use (fat32.c:304-311).
    method FindFreeSlot() returns (s: nat)
      requires Wired()
      ensures s == FirstFreeSlot(table[..], 0)
    {
      s := 0;
      while s < SLOTS && table[s].userAttribute == UATTR_NOT_EMPTY
        invariant s <= SLOTS
        invariant FirstFreeSlot(table[..], s) == FirstFreeSlot(table[..], 0)
      {
        s := s + 1;
      }
    }

    // First-fit search for n free clusters (fat32.c:331-350).
    method CollectFree(n: nat) returns (clusters: array<nat>, count: nat)
      requires Wired()
      ensures fresh(clusters) && clusters.Length == n && count <= n
      ensures clusters[..count] == FirstFit(fat[..], 0, n)
    {
      hide FirstFit;
      clusters := new nat[n];
      count := 0;
      var curr := 0;
      ghost var links: Links, got: Chain, all := fat[..], [], FirstFit(fat[..], 0, n);
      while count < n && curr < MAP_SIZE
        invariant count <= n && curr <= MAP_SIZE && fat[..] == links
        invariant |got| == count && forall j | 0 <= j < count :: clusters[j] == got[j]
        invariant got + FirstFit(links, curr, n - count) == all
        modifies clusters
      {
        FirstFitStep(links, got, curr, n - count);
        if fat[curr] == EMPTY {
          clusters[count] := curr;
          got, count := got + [curr], count + 1;
        }
        curr := curr + 1;
      }
      FirstFitEnds(links, n - count);
      assert got + [] == got;
    }

    // Writes the clusters of a file or table and links them (fat32.c:399-421).
    method StoreChain(clusters: array<nat>, src: seq<Byte>, size: nat)
      requires Wired() && clusters.Length == Clusters(size) && |src| >= size
      requires InRange(clusters[..]) && Distinct(clusters[..])
      modifies disk, fat
      ensures disk[..] == old(Scatter(disk[..], clusters[..], BlocksOf(src, size)))
      ensures fat[..] == old(Linked(fat[..], clusters[..]))
    {
      ghost var cs, bl, next := clusters[..], BlocksOf(src, size), NextLinks(clusters[..]);
      hide BlockAt, Distinct;
      var ptr := 0;
      for i := 0 to clusters.Length
        invariant ptr == CLUSTER_SIZE * i && clusters[..] == cs
        invariant disk[..] == Scatter(old(disk[..]), cs[..i], bl[..i])
        invariant fat[..] == Scatter(old(fat[..]), cs[..i], next[..i])
        modifies disk, fat
      {
        var cluster := clusters[i];
        var link: Word := if i + 1 == clusters.Length then END_OF_FILE else clusters[i + 1];
        var block := TakeBlock(src, size, ptr, i + 1 == clusters.Length, i);
        disk[cluster] := block;
        ptr := ptr + CLUSTER_SIZE;
        fat[cluster] := link;
        assert cs[..i + 1][..i] == cs[..i] && bl[..i + 1][..i] == bl[..i] && next[..i + 1][..i] == next[..i];
      }
      assert cs[..|cs|] == cs && bl[..|cs|] == bl && next[..|cs|] == next;
    }

    // ---------- write ----------

    // Fills slot s of the buffered table for request r (fat32.c:360-381).
    method FillSlot(s: nat, r: Request, first: nat)
      requires Wired() && s < SLOTS && Sized(r) && first < MAP_SIZE && SizeOf(r) < U32
      modifies table
      ensures table[..] == old(table[..])[s := NewEntry(old(table[s]), r, first)]
    {
      var isFolder := IsFolderRequest(r);
      var name := CopyStringWithLength(table[s].name, r.name);
      table[s] := table[s].(userAttribute := 0, filesize := SizeOf(r));
      table[s] := table[s].(attribute := if isFolder then ATTR_SUBDIRECTORY else 0);
      table[s] := table[s].(userAttribute := UATTR_NOT_EMPTY);
      table[s] := table[s].(clusterLow := first % U16, clusterHigh := first / U16, name := name);
      if !isFolder {
        table[s] := table[s].(ext := r.ext);
      }
    }

    // Writes everything a successful write writes, in the order of fat32.c:382-422.
    method Commit(r: Request, data: seq<Byte>, clusters: array<nat>)
      requires Wired() && Sized(r) && WriteOk(r, data) && r.parent < MAP_SIZE
      requires clusters.Length == Clusters(SizeOf(r)) && InRange(clusters[..]) && Distinct(clusters[..])
      modifies disk, fat
      ensures fat[..] == old(Linked(fat[..], clusters[..]))
      ensures disk[..] == old(FilledDisk(disk[..], r.parent, table[..], clusters[..],
                                         BlocksOf(SourceOf(r, data), SizeOf(r)), Linked(fat[..], clusters[..])))
    {
      disk[r.parent] := EncodeTable(table[..]);
      var src := data;
      if IsFolderRequest(r) {
        var newTable := new DirEntry[SLOTS](_ => ZeroEntry);
        InitTable(newTable, r.name, r.parent);
        src := EncodeTable(newTable[..]);
      }
      assert disk[..] == old(disk[..])[r.parent := EncodeTable(table[..])];
      StoreChain(clusters, src, SizeOf(r));
      disk[FAT_CLUSTER] := EncodeLinks(fat[..]);
    }

    // Finds the slot and the clusters to fill, or the code to fail with (fat32.c:267-355).
    method Reserve(r: Request) returns (code: int, s: nat, clusters: array<nat>)
      requires Wired() && Sized(r) && r.parent < MAP_SIZE
      modifies table
      ensures code == RawWriteCode(fat[..], disk[..], r) && fresh(clusters)
      ensures code == 0 ==> table[..] == DecodeTable(disk[r.parent]) && s == FirstFreeSlot(table[..], 0) < SLOTS
                            && clusters[..] == FirstFit(fat[..], 0, Clusters(SizeOf(r)))
                            && |clusters[..]| == Clusters(SizeOf(r))
    {
      hide DecodeTable;
      s, clusters := SLOTS, new nat[0];
      var isParentValid := GetDirTable(r.parent);
      if !isParentValid {
        return 2, s, clusters;
      }
      var found := HasClash(r);
      if found {
        return 1, s, clusters;
      }
      s := FindFreeSlot();
      if s == SLOTS {
        return -1, s, clusters;
      }
      var count;
      clusters, count := CollectFree(Clusters(SizeOf(r)));
      if count < clusters.Length {
        return -1, s, clusters;
      }
      assert clusters[..count] == clusters[..];
      return 0, s, clusters;
    }

    // Fills slot s and writes everything, once nothing can fail any more (fat32.c:357-424).
    method Fill(r: Request, data: seq<Byte>, s: nat, clusters: array<nat>)
      requires Wired() && Sized(r) && WriteOk(r, data) && r.parent < MAP_SIZE && s < SLOTS
      requires clusters.Length == Clusters(SizeOf(r)) > 0 && InRange(clusters[..]) && Distinct(clusters[..])
      modifies disk, fat, table
      ensures fat[..] == old(Linked(fat[..], clusters[..]))
      ensures disk[..] == old(FilledDisk(disk[..], r.parent, table[..][s := NewEntry(table[s], r, clusters[0])],
                                         clusters[..], BlocksOf(SourceOf(r, data), SizeOf(r)),
                                         Linked(fat[..], clusters[..])))
    {
      hide FilledDisk, NewEntry, Linked, BlocksOf;
      FillSlot(s, r, clusters[0]);
      Commit(r, data, clusters);
    }

    // A write through a directory that stores a new key is the specified step; one through an
    // impostor, or one that stores a key already there, leaves no consistent file system.
    method Write(r: Request, data: seq<Byte>) returns (code: int)
      requires Valid() && Sized(r) && r.parent < MAP_SIZE && WriteOk(r, data)
      modifies this, disk, fat, table
      ensures code == old(RawWriteCode(fat[..], disk[..], r))
      ensures code != 0 ==> Valid() && fs == old(fs) && disk[..] == old(disk[..]) && fat[..] == old(fat[..])
      ensures code == 0 ==> (Mountable(disk[..]) <==> !old(Impostor(fs, r.parent)) && old(Storable(fs, r)))
      ensures !old(Impostor(fs, r.parent)) ==> code == old(WriteCode(fs, r))
      ensures !old(Impostor(fs, r.parent)) && old(Storable(fs, r)) ==> Valid() && fs == old(WriteNext(fs, r, data))
      ensures old(Legal(fs, r)) ==> Valid() && code == old(WriteCode(fs, r)) && fs == old(WriteNext(fs, r, data))
    {
      hide Inv, OnDisk, WriteCode, RawWriteCode, FilledDisk, NewEntry, Linked, BlocksOf, FirstFit, FirstFreeSlot,
           DecodeTable, Impostor, Mountable, Storable, WriteNext, Canonical;
      ghost var good := !Impostor(fs, r.parent) && Storable(fs, r);
      if !Impostor(fs, r.parent) {
        RawWriteAgrees(disk[..], fs, r);
      }
      var s, clusters;
      code, s, clusters := Reserve(r);
      if code != 0 {
        FailedWrite(fs, r, data);
        return;
      }
      CommitDecides(disk[..], fs, r, data, table[..], s, clusters[..]);
      Fill(r, data, s, clusters);
      if good {
        fs := WriteNext(fs, r, data);
      }
      return 0;
    }

    // ---------- delete ----------

    // The entry that memcmp finds from slot 2 on (fat32.c:439-448).
    method FindEntry(r: Request) returns (s: nat)
      requires Wired() && |r.name| == 8 && |r.ext| == 3
      ensures s == FirstMatch(table[..], 2, KeyReq(r))
    {
      s := 2;
      while s < SLOTS
        invariant 2 <= s <= SLOTS
        invariant FirstMatch(table[..], s, KeyReq(r)) == FirstMatch(table[..], 2, KeyReq(r))
      {
        var n := MemCmp(table[s].name, r.name);
        var x := MemCmp(table[s].ext, r.ext);
        if table[s].userAttribute == UATTR_NOT_EMPTY && n == 0 && x == 0 {
          return;
        }
        s := s + 1;
      }
    }

    // isKosong: no live entry from slot 2 on (fat32.c:458-465).
    method IsTableEmpty() returns (empty: bool)
      requires Wired()
      ensures empty == IsEmptyTable(table[..])
    {
      for i := 2 to SLOTS
        invariant forall j | 2 <= j < i :: !Live(table[j])
      {
        if table[i].userAttribute == UATTR_NOT_EMPTY {
          assert Live(table[..][i]);
          return false;
        }
      }
      return true;
    }

    // Zeroes and frees the chain that starts at first (fat32.c:484-494).
    method WipeChain(first: nat, ghost ch: Chain)
      requires Wired() && IsChain(fat[..], ch) && Distinct(ch) && ch[0] == first
      modifies disk, fat
      ensures disk[..] == old(Scatter(disk[..], ch, ZeroBlocks(|ch|)))
      ensures fat[..] == old(Freed(fat[..], ch))
    {
      ghost var zb, ze, links := ZeroBlocks(|ch|), seq(|ch|, _ => EMPTY), fat[..];
      ghost var i := 0;
      var cluster := first;
      assert links[ch[0]] == NextLink(ch, 0);
      while fat[cluster] != END_OF_FILE
        invariant 0 <= i < |ch| && cluster == ch[i] && links[ch[i]] == NextLink(ch, i) == fat[cluster]
        invariant disk[..] == Scatter(old(disk[..]), ch[..i], zb[..i])
        invariant fat[..] == Scatter(links, ch[..i], ze[..i])
        decreases |ch| - i
        modifies disk, fat
      {
        disk[cluster] := ZERO_BLOCK;
        var prev := cluster;
        cluster := fat[cluster];
        fat[prev] := EMPTY;
        assert ch[..i + 1][..i] == ch[..i] && zb[..i + 1][..i] == zb[..i] && ze[..i + 1][..i] == ze[..i];
        i := i + 1;
        assert links[ch[i]] == NextLink(ch, i) && ch[i] !in ch[..i];
      }
      disk[cluster] := ZERO_BLOCK;
      fat[cluster] := EMPTY;
      assert ch[..i + 1][..i] == ch[..i] && zb[..i + 1][..i] == zb[..i] && ze[..i + 1][..i] == ze[..i];
      assert i + 1 == |ch| && ch[..|ch|] == ch && zb[..|ch|] == zb && ze[..|ch|] == ze;
    }

    // Clears the name and extension of a slot byte by byte (fat32.c:475-481).
    method ClearSlot(s: nat)
      requires Wired() && s < SLOTS
      modifies table
      ensures table[..] == old(table[..])[s := Cleared(old(table[s]))]
    {
      table[s] := table[s].(userAttribute := 0);
      var name, ext := table[s].name, table[s].ext;
      for i := 0 to 8
        invariant |name| == 8 && forall k | 0 <= k < i :: name[k] == 0
      {
        name := name[i := 0];
      }
      for i := 0 to 3
        invariant |ext| == 3 && forall k | 0 <= k < i :: ext[k] == 0
      {
        ext := ext[i := 0];
      }
      assert name == Zeros(8) && ext == Zeros(3);
      table[s] := table[s].(name := name, ext := ext);
    }

    // Whether the entry in slot s may go: a folder is opened to see that it is empty.
    method MayRemove(r: Request, s: nat) returns (ok: bool)
      requires Valid() && r.parent in fs.tabs && 2 <= s < SLOTS && table[..] == fs.tabs[r.parent]
      requires Live(table[s])
      modifies table
      ensures table[..] == fs.tabs[r.parent]
      ensures ok <==> (IsDir(table[s]) ==> ClusterOf(table[s]) in fs.tabs && IsEmptyTable(fs.tabs[ClusterOf(table[s])]))
      ensures IsDir(table[s]) ==> ClusterOf(table[s]) in fs.tabs
    {
      if table[s].attribute == ATTR_SUBDIRECTORY {
        var folder := ClusterOf(table[s]);
        ghost var l: Loc := (r.parent, s);
        assert Occupied(fs, l);
        SlotInfo(fs, l);
        DirIsElsewhere(fs, l);
        DirCluster(fs, folder);
        DirCluster(fs, r.parent);
        var _ := GetDirTable(folder);
        ok := IsTableEmpty();
        var _ := GetDirTable(r.parent);
      } else {
        ok := true;
      }
    }

    // Everything a successful delete writes, in the order of fat32.c:473-498.
    method Unlink(r: Request, s: nat, ghost ch: Chain)
      requires Wired() && r.parent < MAP_SIZE && s < SLOTS
      requires IsChain(fat[..], ch) && Distinct(ch) && ch[0] == ClusterOf(table[s])
      modifies disk, fat, table
      ensures fat[..] == old(Freed(fat[..], ch))
      ensures disk[..] == old(ClearedDisk(disk[..], r.parent, table[..][s := Cleared(table[s])], ch,
              Freed(fat[..], ch)))
    {
      ClearSlot(s);
      WipeChain(ClusterOf(table[s]), ch);
      disk[FAT_CLUSTER] := EncodeLinks(fat[..]);
      disk[r.parent] := EncodeTable(table[..]);
    }

    // Finds the slot to clear, or the code to fail with (fat32.c:429-468).
    method LocateRemovable(r: Request) returns (code: int, s: nat)
      requires Valid() && Sized(r) && r.parent < MAP_SIZE
      requires Impostor(fs, r.parent) ==> RawFindCode(fat[..], disk[..], r) != 0
      modifies table
      ensures RawFindCode(fat[..], disk[..], r) != 0 ==> code == RawFindCode(fat[..], disk[..], r)
      ensures !Impostor(fs, r.parent) ==> code == DeleteCode(fs, r)
      ensures code == 0 ==> !Impostor(fs, r.parent) && table[..] == fs.tabs[r.parent]
                            && s == FirstMatch(fs.tabs[r.parent], 2, KeyReq(r)) < SLOTS
    {
      hide Inv, OnDisk, TableOk, Impostor, DecodeTable;
      s := SLOTS;
      if !Impostor(fs, r.parent) {
        RawFindAgrees(disk[..], fs, r);
      }
      var isParentValid := GetDirTable(r.parent);
      if !isParentValid {
        return -1, s;
      }
      s := FindEntry(r);
      if s == SLOTS {
        return 1, s;
      }
      var ok := MayRemove(r, s);
      return if ok then 0 else 2, s;
    }

    // Behind an impostor only a search that fails is defined: the entry found there would
    // be made of a file's bytes.
    method Delete(r: Request) returns (code: int)
      requires Valid() && Sized(r) && r.parent < MAP_SIZE
      requires Impostor(fs, r.parent) ==> RawFindCode(fat[..], disk[..], r) != 0
      modifies this, disk, fat, table
      ensures Valid()
      ensures old(RawFindCode(fat[..], disk[..], r)) != 0 ==>
                code == old(RawFindCode(fat[..], disk[..], r)) && fs == old(fs)
      ensures !old(Impostor(fs, r.parent)) ==> code == old(DeleteCode(fs, r)) && fs == old(DeleteNext(fs, r))
      ensures code != 0 ==> disk[..] == old(disk[..]) && fat[..] == old(fat[..])
      ensures forall c | 0 <= c < MAP_SIZE && old(fat[c]) != EMPTY && fat[c] == EMPTY :: disk[c] == Zeros(2048)
    {
      hide Inv, OnDisk, DeleteCode, ClearedDisk, FirstMatch, Cleared, Impostor, RawFindCode, DecodeTable;
      var s;
      code, s := LocateRemovable(r);
      if code != 0 {
        return;
      }
      DeletedOnDisk(disk[..], fs, r, s);
      Unlink(r, s, fs.chains[(r.parent, s)]);
      fs := DeleteNext(fs, r);
      return 0;
    }

    // ---------- read and read_directory ----------

    // read compares C strings (fat32.c:232-246).
    method FindReadable(r: Request) returns (s: nat)
      requires Wired() && Sized(r)
      ensures s == FirstReadable(table[..], 0, r)
    {
      s := 0;
      while s < SLOTS
        invariant s <= SLOTS
        invariant FirstReadable(table[..], s, r) == FirstReadable(table[..], 0, r)
      {
        var n := StrCmp(table[s].name, r.name);
        var x := StrCmp(table[s].ext, r.ext);
        if table[s].userAttribute == UATTR_NOT_EMPTY && n == 0 && x == 0 {
          return;
        }
        s := s + 1;
      }
    }

    // read_directory compares bytes and asks only for a common bit (fat32.c:187-197).
    method FindAny(r: Request) returns (s: nat)
      requires Wired() && Sized(r)
      ensures s == FirstListed(table[..], 0, r)
    {
      hide SharesBit;
      s := 0;
      while s < SLOTS
        invariant s <= SLOTS
        invariant FirstListed(table[..], s, r) == FirstListed(table[..], 0, r)
      {
        var n := MemCmp(table[s].name, r.name);
        var x := MemCmp(table[s].ext, r.ext);
        if SharesBit(table[s]) && n == 0 && x == 0 {
          return;
        }
        s := s + 1;
      }
    }

    // Copies the clusters of a chain into the caller's buffer (fat32.c:253-258).
    method CopyChain(first: int, buf: array<Byte>, ghost ch: Chain, ghost bl: seq<Block>)
      requires Wired() && IsChain(fat[..], ch) && ch[0] == first && |bl| == |ch|
      requires Holds(disk[..], ch, bl) && buf.Length >= CLUSTER_SIZE * |ch|
      modifies buf
      ensures buf[..] == Flatten(bl) + old(buf[..])[CLUSTER_SIZE * |ch|..]
    {
      ghost var links, whole := fat[..], buf[..];
      ghost var done: Chain := [];
      var cluster, j := first, 0;
      while cluster != END_OF_FILE
        invariant 0 <= j <= |ch| && cluster == if j < |ch| then ch[j] else END_OF_FILE
        invariant buf[..] == Flatten(bl[..j]) + whole[CLUSTER_SIZE * j..]
        decreases |ch| - j
        modifies buf
      {
        assert links[ch[j]] == NextLink(ch, j);
        ghost var before := buf[..];
        forall k | 0 <= k < CLUSTER_SIZE {
          buf[CLUSTER_SIZE * j + k] := disk[cluster][k];
        }
        CopiedBlock(before, buf[..], bl, j, whole);
        cluster := fat[cluster];
        j := j + 1;
      }
      assert bl[..j] == bl;
    }

    // Finds the file's slot, or the code to fail with (fat32.c:220-249).
    method LocateFile(r: Request) returns (code: int, s: nat)
      requires Wired() && Sized(r) && r.parent < MAP_SIZE
      modifies table
      ensures code == RawReadCode(fat[..], disk[..], r)
      ensures code == 0 ==> table[..] == DecodeTable(disk[r.parent]) && s == FirstReadable(table[..], 0, r) < SLOTS
    {
      hide DecodeTable, FirstReadable;
      s := SLOTS;
      var isParentValid := GetDirTable(r.parent);
      if !isParentValid {
        return -1, s;
      }
      LoadTable(r.parent);
      s := FindReadable(r);
      if s == SLOTS {
        return 2, s;
      }
      if table[s].attribute == ATTR_SUBDIRECTORY {
        return 1, s;
      }
      if r.bufferSize < table[s].filesize {
        return -1, s;
      }
      return 0, s;
    }

    // A name is read up to its NUL.  Behind an impostor only the failures are defined: the
    // chain found there would start anywhere.
    method Read(r: Request, buf: array<Byte>) returns (code: int)
      requires Valid() && Sized(r) && r.parent < MAP_SIZE && buf.Length >= CLUSTER_SIZE * Clusters(r.bufferSize)
      requires Impostor(fs, r.parent) ==> RawReadCode(fat[..], disk[..], r) != 0
      modifies table, buf
      ensures Valid() && code == RawReadCode(fat[..], disk[..], r)
      ensures !Impostor(fs, r.parent) ==> code == ReadCode(fs, Padded(r))
      ensures code == 0 ==> var read := Flatten(ReadResult(fs, Padded(r)));
                            |read| <= buf.Length && buf[..] == read + old(buf[..])[|read|..]
      ensures NameOk(r) ==> Padded(r) == r
      ensures code != 0 ==> buf[..] == old(buf[..])
    {
      hide Inv, OnDisk, Holds, IsChain, Flatten, Impostor, RawReadCode, ReadCode, DecodeTable, FirstReadable, Padded;
      if !Impostor(fs, r.parent) {
        RawReadAgrees(disk[..], fs, r);
      }
      if NameOk(r) {
        PaddedIs(r);
      }
      var s;
      code, s := LocateFile(r);
      if code != 0 {
        return;
      }
      ReadOpensDir(fs, Padded(r));
      ReadableChain(disk[..], fs, Padded(r));
      ghost var ch, bl := fs.chains[(r.parent, s)], fs.blocks[(r.parent, s)];
      CopyChain(ClusterOf(table[s]), buf, ch, bl);
    }

    // read_clusters into a caller's buffer
    method ReadCluster(c: nat, buf: array<Byte>)
      requires Wired() && c < MAP_SIZE && buf.Length == CLUSTER_SIZE
      modifies buf
      ensures buf[..] == disk[c]
    {
      forall k | 0 <= k < CLUSTER_SIZE {
        buf[k] := disk[c][k];
      }
    }

    // Finds the directory's slot, or the code to fail with (fat32.c:174-209).
    method LocateDirectory(r: Request) returns (code: int, s: nat)
      requires Wired() && Sized(r) && r.parent < MAP_SIZE
      modifies table
      ensures code == RawReadDirectoryCode(fat[..], disk[..], r)
      ensures code == 0 ==>
                s < SLOTS && table[s].clusterLow + table[s].clusterHigh * U16 == RawTarget(fat[..], disk[..], r)
    {
      hide DecodeTable, FirstListed;
      s := SLOTS;
      var isParentValid := GetDirTable(r.parent);
      if !isParentValid {
        return -1, s;
      }
      s := FindAny(r);
      if s == SLOTS {
        return 2, s;
      }
      if table[s].attribute != ATTR_SUBDIRECTORY {
        return 1, s;
      }
      return 0, s;
    }

    // Behind an impostor the cluster read is whatever the bytes of the file say, as long as
    // the disk has it.
    method ReadDirectory(r: Request, buf: array<Byte>) returns (code: int)
      requires Valid() && Sized(r) && r.parent < MAP_SIZE && buf.Length == CLUSTER_SIZE
      requires Impostor(fs, r.parent) && RawReadDirectoryCode(fat[..], disk[..], r) == 0 ==>
                 RawTarget(fat[..], disk[..], r) < MAP_SIZE
      modifies table, buf
      ensures Valid() && code == RawReadDirectoryCode(fat[..], disk[..], r)
      ensures code == 0 ==>
                RawTarget(fat[..], disk[..], r) < MAP_SIZE && buf[..] == disk[RawTarget(fat[..], disk[..], r)]
      ensures !Impostor(fs, r.parent) ==> code == ReadDirectoryCode(fs, r)
      ensures !Impostor(fs, r.parent) && code == 0 ==>
                ReadDirectoryTarget(fs, r) in fs.tabs && DecodeTable(buf[..]) == fs.tabs[ReadDirectoryTarget(fs, r)]
      ensures code != 0 ==> buf[..] == old(buf[..])
    {
      hide Inv, OnDisk, Impostor, RawReadDirectoryCode, ReadDirectoryCode, RawTarget, DecodeTable, ReadDirectoryTarget;
      if !Impostor(fs, r.parent) {
        RawReadDirectoryAgrees(disk[..], fs, r);
        if ReadDirectoryCode(fs, r) == 0 {
          DirectoryTarget(disk[..], fs, r);
        }
      }
      var s;
      code, s := LocateDirectory(r);
      if code != 0 {
        return;
      }
      ReadCluster(table[s].clusterLow + table[s].clusterHigh * U16, buf);
    }
  }
}
