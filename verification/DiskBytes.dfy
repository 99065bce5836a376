/**
 What lies on the disk byte by byte: a new volume, and what a write and a delete do to the
 cluster of the directory (src/header/filesystem/fat32.h:24-110,
 src/code/filesystem/fat32.c:10-114, 360-422, 473-498).
 */
module DiskBytes {
  import opened Bytes
  import opened Layout
  import opened Fat
  import opened Forest
  import opened Steps
  import opened Refinement
  import opened Volume
  import opened Requests

  // ---------- A new volume ----------

  lemma TableByte(b: Block, k: nat)
    requires k < CLUSTER_SIZE
    ensures b[k] == EncodeEntry(DecodeTable(b)[k / 32])[k % 32]
  {
    TableBytesAt(b, k / 32);
    assert b[k] == b[32 * (k / 32)..32 * (k / 32) + 32][k % 32];
  }

  lemma ZeroEntryBytes(k: nat)
    requires k < 32
    ensures EncodeEntry(ZeroEntry)[k] == 0
  {
    assert Le16(0) == [0, 0] && Le32(0) == [0, 0, 0, 0];
  }

  // The two entries of a header differ in their names alone, and are zero but for five bytes.
  lemma HeaderBytes(name: seq<Byte>, parent: nat, k: nat)
    requires |name| == 8 && parent < MAP_SIZE && k < 32
    ensures EncodeEntry(HeaderEntry(name, parent))[k] ==
            if k < 8 then name[k] else if k == 11 then 0x10 else if k == 12 then 0xAA
            else if k == 26 then parent % 256 else if k == 27 then parent / 256 else 0
  {
    assert Le16(0) == [0, 0] && Le32(0) == [0, 0, 0, 0] && Le16(parent) == [parent % 256, parent / 256];
    assert parent % U16 == parent && parent / U16 == 0;
  }

  // A new directory's cluster: its name and "..", each with the marker, the attribute and the
  // parent's number, and zeros.
  lemma FreshTableBytes(b: Block, name: seq<Byte>, parent: nat, k: nat)
    requires |name| == 8 && Canonical(name) && parent < MAP_SIZE && k < CLUSTER_SIZE
    requires DecodeTable(b) == FreshTable(name, parent)
    ensures b[k] ==
            if k < 8 then name[k] else if k == 32 || k == 33 then 46
            else if k == 11 || k == 43 then 0x10 else if k == 12 || k == 44 then 0xAA
            else if k == 26 || k == 58 then parent % 256 else if k == 27 || k == 59 then parent / 256 else 0
  {
    hide DecodeTable;
    TableByte(b, k);
    CopyIntoZeros(name);
    HeaderBytes(name, parent, k % 32);
    HeaderBytes(DOT_DOT, parent, k % 32);
    ZeroEntryBytes(k % 32);
    hide EncodeEntry, HeaderEntry, CopyCStr;
    assert b[k] == EncodeEntry(FreshTable(name, parent)[k / 32])[k % 32];
  }

  lemma SignatureStarts()
    ensures SIGNATURE[..6] == [67, 111, 117, 114, 115, 101]
  {
    assert SIGNATURE[0] == 67 && SIGNATURE[1] == 111 && SIGNATURE[2] == 117 && SIGNATURE[3] == 114;
    assert SIGNATURE[4] == 115 && SIGNATURE[5] == 101;
  }

  // The signature starts with "Course" and ends with "Ok"; the links of clusters 0, 1 and 2 are
  // reserved and all others free; the root is called "root" and is its own parent.
  lemma FormattedBytes(disk: Disk)
    requires OnDisk(disk, Formatted())
    ensures disk[0][..6] == [67, 111, 117, 114, 115, 101] && disk[0][510] == 79 && disk[0][511] == 107
    ensures forall k | 80 <= k < 510 :: disk[0][k] == 0
    ensures forall i | 0 <= i < 512 ::
              disk[1][4 * i] as int + 0x100 * disk[1][4 * i + 1] as int + 0x1_0000 * disk[1][4 * i + 2] as int
              + 0x100_0000 * disk[1][4 * i + 3] as int ==
              if i == 0 then 0x0FFF_FFF0 else if i < 3 then 0x0FFF_FFFF else 0
    ensures forall k | 0 <= k < 2048 ::
              disk[2][k] ==
              if k == 0 then 114 else if k == 1 || k == 2 then 111 else if k == 3 then 116
              else if k == 32 || k == 33 then 46
              else if k == 11 || k == 43 then 0x10 else if k == 12 || k == 44 then 0xAA
              else if k == 26 || k == 58 then 2 else 0
  {
    FixedNamesCanonical();
    hide DecodeTable, DecodeLinks, FreshTable;
    assert forall k | 0 <= k < 512 :: disk[0][k] == disk[0][..BLOCK_SIZE][k] == SIGNATURE[k];
    SignatureStarts();
    assert disk[0][..6] == disk[0][..BLOCK_SIZE][..6];
    forall i | 0 <= i < 512
      ensures disk[1][4 * i] as int + 0x100 * disk[1][4 * i + 1] as int + 0x1_0000 * disk[1][4 * i + 2] as int
              + 0x100_0000 * disk[1][4 * i + 3] as int == EmptyLinks()[i]
    {
      LinkBytesAt(disk[1], i);
    }
    forall k | 0 <= k < 2048
      ensures disk[2][k] ==
              if k == 0 then 114 else if k == 1 || k == 2 then 111 else if k == 3 then 116
              else if k == 32 || k == 33 then 46
              else if k == 11 || k == 43 then 0x10 else if k == 12 || k == 44 then 0xAA
              else if k == 26 || k == 58 then 2 else 0
    {
      FreshTableBytes(disk[2], ROOT_NAME, ROOT_CLUSTER, k);
    }
  }

  // ---------- write and delete ----------

  // All entries but one stay byte for byte when the tables agree.
  lemma OtherBytes(b: Block, b': Block, s: nat, k: nat)
    requires s < SLOTS && k < CLUSTER_SIZE && k / 32 != s
    requires forall i | 0 <= i < SLOTS && i != s :: DecodeTable(b')[i] == DecodeTable(b)[i]
    ensures b'[k] == b[k]
  {
    hide DecodeTable, EncodeEntry;
    TableByte(b, k);
    TableByte(b', k);
  }

  // A successful write changes one entry of 32 bytes of the directory's cluster: name and
  // extension, attribute, marker, first cluster and size, each where the layout has it.
  lemma WrittenBytes(disk: Disk, disk': Disk, f: FileSystem, r: Request, data: seq<Byte>, s: nat) returns (c: nat)
    requires Inv(f) && OnDisk(disk, f) && NameOk(r) && WriteOk(r, data) && WriteCode(f, r) == 0
    requires OnDisk(disk', WriteNext(f, r, data)) && s == FirstFreeSlot(f.tabs[r.parent], 0)
    ensures r.parent < MAP_SIZE && 2 <= s < SLOTS
    ensures 3 <= c < MAP_SIZE && f.fat[c] == EMPTY && forall e | 3 <= e < c :: f.fat[e] != EMPTY
    ensures forall k | 0 <= k < 2048 && !(32 * s <= k < 32 * s + 32) :: disk'[r.parent][k] == disk[r.parent][k]
    ensures disk'[r.parent][32 * s..32 * s + 8] == r.name && disk'[r.parent][32 * s + 8..32 * s + 11] == r.ext
    ensures disk'[r.parent][32 * s + 11] == if r.bufferSize == 0 && r.ext[0] == 0 then 0x10 else 0
    ensures disk'[r.parent][32 * s + 12] == 0xAA
    ensures disk'[r.parent][32 * s + 26] as int + 256 * disk'[r.parent][32 * s + 27] as int == c
    ensures disk'[r.parent][32 * s + 28] as int + 0x100 * disk'[r.parent][32 * s + 29] as int
            + 0x1_0000 * disk'[r.parent][32 * s + 30] as int + 0x100_0000 * disk'[r.parent][32 * s + 31] as int
            == if r.bufferSize == 0 then 2048 else r.bufferSize
  {
    hide Inv, OnDisk, DecodeTable, EncodeEntry, WriteNext, WriteCode, NewEntry, FirstFit, FirstFreeSlot, SizeOf,
         TableOk, Canonical;
    c := StoredTables(f, r, data, s);
    OnDiskTable(disk, f, r.parent);
    OnDiskTable(disk', WriteNext(f, r, data), r.parent);
    NewEntryIs(f, r, s, c);
    EntryIsNow(disk[r.parent], disk'[r.parent], s, NewEntry(f.tabs[r.parent][s], r, c));
  }

  // The table after the write, whose new entry points to the lowest free cluster.
  lemma StoredTables(f: FileSystem, r: Request, data: seq<Byte>, s: nat) returns (c: nat)
    requires Inv(f) && NameOk(r) && WriteOk(r, data) && WriteCode(f, r) == 0
    requires s == FirstFreeSlot(f.tabs[r.parent], 0)
    ensures r.parent in f.tabs && r.parent < MAP_SIZE && 2 <= s < SLOTS && !Live(f.tabs[r.parent][s]) && SizeOf(r) < U32
    ensures 3 <= c < MAP_SIZE && f.fat[c] == EMPTY && forall e | 3 <= e < c :: f.fat[e] != EMPTY
    ensures r.parent in WriteNext(f, r, data).tabs
    ensures WriteNext(f, r, data).tabs[r.parent] == f.tabs[r.parent][s := NewEntry(f.tabs[r.parent][s], r, c)]
  {
    WriteShape(f, r, data);
    FirstTaken(f, Clusters(SizeOf(r)));
    c := FirstFit(f.fat, 0, Clusters(SizeOf(r)))[0];
    if IsFolderRequest(r) {
      FreeIsNoDir(f, c);
    }
  }

  lemma NewEntryIs(f: FileSystem, r: Request, s: nat, first: nat)
    requires Inv(f) && NameOk(r) && r.parent in f.tabs && s < SLOTS && !Live(f.tabs[r.parent][s])
    requires first < MAP_SIZE && SizeOf(r) < U32
    ensures var e := NewEntry(f.tabs[r.parent][s], r, first);
            && e.name == r.name && e.ext == r.ext && e.userAttribute == 0xAA && e.clusterLow == first
            && e.attribute == (if r.bufferSize == 0 && r.ext[0] == 0 then 0x10 else 0)
            && e.filesize == if r.bufferSize == 0 then 2048 else r.bufferSize
  {
    assert TableOk(f.tabs[r.parent]) && EntryOk(f.tabs[r.parent][s]);
    CopyIntoZeros(r.name);
    assert IsFolderRequest(r) ==> r.ext == Zeros(3);
  }

  // First fit starts with the lowest free cluster.
  lemma FirstTaken(f: FileSystem, n: nat)
    requires Inv(f) && n > 0 && |FirstFit(f.fat, 0, n)| == n
    ensures var c := FirstFit(f.fat, 0, n)[0];
            3 <= c < MAP_SIZE && f.fat[c] == EMPTY && forall e | 3 <= e < c :: f.fat[e] != EMPTY
  {
    FirstFitInRange(f.fat, n);
    FirstFitFree(f.fat, 0, n);
    var cs := FirstFit(f.fat, 0, n);
    assert cs[0] in cs;
    forall e | 3 <= e < cs[0] ensures f.fat[e] != EMPTY {
      if f.fat[e] == EMPTY {
        FirstFitFirst(f.fat, 0, n, e);
      }
    }
  }

  // Replacing entry s of a table by e replaces its 32 bytes by those of e.
  lemma EntryIsNow(b: Block, b': Block, s: nat, e: DirEntry)
    requires s < SLOTS && DecodeTable(b') == DecodeTable(b)[s := e]
    ensures forall k | 0 <= k < 2048 && !(32 * s <= k < 32 * s + 32) :: b'[k] == b[k]
    ensures b'[32 * s..32 * s + 8] == e.name && b'[32 * s + 8..32 * s + 11] == e.ext
    ensures b'[32 * s + 11] == e.attribute && b'[32 * s + 12] == e.userAttribute
    ensures b'[32 * s + 13..32 * s + 20] == e.times && b'[32 * s + 22..32 * s + 26] == e.modified
    ensures b'[32 * s + 20] as int + 256 * b'[32 * s + 21] as int == e.clusterHigh
    ensures b'[32 * s + 26] as int + 256 * b'[32 * s + 27] as int == e.clusterLow
    ensures b'[32 * s + 28] as int + 0x100 * b'[32 * s + 29] as int + 0x1_0000 * b'[32 * s + 30] as int
            + 0x100_0000 * b'[32 * s + 31] as int == e.filesize
  {
    hide DecodeTable, EncodeEntry;
    forall k | 0 <= k < 2048 && !(32 * s <= k < 32 * s + 32) ensures b'[k] == b[k] {
      OtherBytes(b, b', s, k);
    }
    TableBytesAt(b', s);
    var w := b'[32 * s..32 * s + 32];
    EntryBytesAt(e, w);
    assert forall i | 0 <= i < 32 :: w[i] == b'[32 * s + i];
    assert w[..8] == b'[32 * s..32 * s + 8] && w[8..11] == b'[32 * s + 8..32 * s + 11];
    assert w[13..20] == b'[32 * s + 13..32 * s + 20] && w[22..26] == b'[32 * s + 22..32 * s + 26];
  }

  // The cluster that read_directory goes on to read, behind whatever parent: the two halves
  // of the number in the entry found, high half from byte 20 and low half from byte 26 on.
  lemma TargetBytes(fat: Links, disk: Disk, r: Request) returns (s: nat)
    requires Sized(r) && r.parent < MAP_SIZE && RawReadDirectoryCode(fat, disk, r) == 0
    ensures s < SLOTS
    ensures disk[r.parent][32 * s..32 * s + 8] == r.name && disk[r.parent][32 * s + 8..32 * s + 11] == r.ext
    ensures RawTarget(fat, disk, r) ==
            disk[r.parent][32 * s + 26] as int + 0x100 * disk[r.parent][32 * s + 27] as int
            + 0x1_0000 * disk[r.parent][32 * s + 20] as int + 0x100_0000 * disk[r.parent][32 * s + 21] as int
  {
    s := FirstListed(DecodeTable(disk[r.parent]), 0, r);
    var t := DecodeTable(disk[r.parent]);
    assert t == t[s := t[s]];
    hide DecodeTable, FirstListed;
    EntryIsNow(disk[r.parent], disk[r.parent], s, t[s]);
  }

  // A successful delete zeroes the name, the extension and the marker of one entry, and leaves
  // every other byte of the directory's cluster.
  lemma DeletedBytes(disk: Disk, disk': Disk, f: FileSystem, r: Request) returns (s: nat)
    requires Inv(f) && OnDisk(disk, f) && DeleteCode(f, r) == 0 && OnDisk(disk', DeleteNext(f, r))
    ensures r.parent in f.tabs && r.parent < MAP_SIZE
    ensures 2 <= s < SLOTS && Live(f.tabs[r.parent][s]) && KeyOf(f.tabs[r.parent][s]) == KeyReq(r)
    ensures forall k | 0 <= k < 2048 ::
              disk'[r.parent][k] == if 32 * s <= k < 32 * s + 11 || k == 32 * s + 12 then 0 else disk[r.parent][k]
  {
    s := FirstMatch(f.tabs[r.parent], 2, KeyReq(r));
    DirCluster(f, r.parent);
    DeletedTable(f, r, s);
    OnDiskTable(disk, f, r.parent);
    OnDiskTable(disk', DeleteNext(f, r), r.parent);
    hide Inv, OnDisk, DecodeTable, DeleteNext, DeleteCode, FirstMatch, Cleared;
    ClearedBytes(disk[r.parent], disk'[r.parent], s, f.tabs[r.parent][s]);
  }

  lemma DeletedTable(f: FileSystem, r: Request, s: nat)
    requires Inv(f) && DeleteCode(f, r) == 0 && s == FirstMatch(f.tabs[r.parent], 2, KeyReq(r))
    ensures r.parent in DeleteNext(f, r).tabs && s < SLOTS
    ensures DeleteNext(f, r).tabs[r.parent] == f.tabs[r.parent][s := Cleared(f.tabs[r.parent][s])]
  {
    DeleteFinds(f, r);
  }

  lemma ClearedBytes(b: Block, b': Block, s: nat, e: DirEntry)
    requires s < SLOTS && DecodeTable(b)[s] == e && DecodeTable(b') == DecodeTable(b)[s := Cleared(e)]
    ensures forall k | 0 <= k < 2048 ::
              b'[k] == if 32 * s <= k < 32 * s + 11 || k == 32 * s + 12 then 0 else b[k]
  {
    hide DecodeTable;
    forall k | 0 <= k < 2048
      ensures b'[k] == if 32 * s <= k < 32 * s + 11 || k == 32 * s + 12 then 0 else b[k]
    {
      TableByte(b, k);
      TableByte(b', k);
      ClearedByte(e, k % 32);
    }
  }

  lemma ClearedByte(e: DirEntry, k: nat)
    requires k < 32
    ensures EncodeEntry(Cleared(e))[k] == if k < 11 || k == 12 then 0 else EncodeEntry(e)[k]
  {}
}
