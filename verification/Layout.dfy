/**
 What the bytes of a cluster mean: the 32-byte directory entry, the directory
 table of 64 entries and the allocation table of 512 links
 (src/header/filesystem/fat32.h).
 */
module Layout {
  import opened Bytes

  const CLUSTER_SIZE: nat := 2048
  const MAP_SIZE: nat := 512
  const SLOTS: nat := 64

  const ATTR_SUBDIRECTORY: Byte := 0x10
  const UATTR_NOT_EMPTY: Byte := 0xAA

  // times: undelete, create time, create date and access date; modified: time and date.
  datatype EntryFields = Entry(name: seq<Byte>, ext: seq<Byte>, attribute: Byte, userAttribute: Byte,
                               times: seq<Byte>, clusterHigh: int, modified: seq<Byte>, clusterLow: int, filesize: int)

  predicate EntrySized(e: EntryFields) {
    && |e.name| == 8 && |e.ext| == 3 && |e.times| == 7 && |e.modified| == 4
    && 0 <= e.clusterHigh < U16 && 0 <= e.clusterLow < U16 && 0 <= e.filesize < U32
  }

  type DirEntry = e: EntryFields | EntrySized(e)
    witness Entry(Zeros(8), Zeros(3), 0, 0, Zeros(7), 0, Zeros(4), 0, 0)

  type Table = t: seq<DirEntry> | |t| == SLOTS witness seq(SLOTS, _ => ZeroEntry)
  type Block = b: seq<Byte> | |b| == CLUSTER_SIZE witness Zeros(CLUSTER_SIZE)
  type Word = x: int | 0 <= x < U32
  type Links = f: seq<Word> | |f| == MAP_SIZE witness seq(MAP_SIZE, _ => 0)

  const ZeroEntry: DirEntry := Entry(Zeros(8), Zeros(3), 0, 0, Zeros(7), 0, Zeros(4), 0, 0)

  // write, read and delete ask for equality; read_directory only for a common bit.
  predicate Live(e: DirEntry) {
    e.userAttribute == UATTR_NOT_EMPTY
  }

  predicate SharesBit(e: DirEntry) {
    e.userAttribute / 128 % 2 == 1 || e.userAttribute / 32 % 2 == 1 || e.userAttribute / 8 % 2 == 1
        || e.userAttribute / 2 % 2 == 1
  }

  lemma LiveSharesBit(e: DirEntry)
    requires e.userAttribute == UATTR_NOT_EMPTY || e.userAttribute == 0
    ensures SharesBit(e) <==> Live(e)
  {}

  // It asks for one of the bits of 0b10101010.
  lemma BitsOfLive(e: DirEntry)
    ensures SharesBit(e) <==> (e.userAttribute as int) as bv8 & 0xAA != 0
  {}

  predicate IsDir(e: DirEntry) {
    e.attribute == ATTR_SUBDIRECTORY
  }

  // The code shifts the high half right, which drops it (cluster_high >> 16).
  function ClusterOf(e: DirEntry): int {
    e.clusterLow + e.clusterHigh / U16
  }

  function EncodeEntry(e: DirEntry): (b: seq<Byte>)
    ensures |b| == 32
  {
    e.name + e.ext + [e.attribute, e.userAttribute] + e.times + Le16(e.clusterHigh)
    + e.modified + Le16(e.clusterLow) + Le32(e.filesize)
  }

  function DecodeEntry(b: seq<Byte>): DirEntry
    requires |b| == 32
  {
    Entry(b[..8], b[8..11], b[11], b[12], b[13..20], FromLe16(b[20..22]), b[22..26], FromLe16(b[26..28]),
        FromLe32(b[28..32]))
  }

  // The field offsets of the entry.
  lemma EntryOffsets<T>(a: seq<T>, b: seq<T>, c: seq<T>, d: seq<T>, e: seq<T>, f: seq<T>, g: seq<T>, h: seq<T>)
    requires |a| == 8 && |b| == 3 && |c| == 2 && |d| == 7 && |e| == 2 && |f| == 4 && |g| == 2 && |h| == 4
    ensures var s := a + b + c + d + e + f + g + h;
            && s[..8] == a && s[8..11] == b && s[11] == c[0] && s[12] == c[1] && s[13..20] == d
            && s[20..22] == e && s[22..26] == f && s[26..28] == g && s[28..32] == h
  {}

  // Where the fields of an entry lie in its 32 bytes, words with their low byte first.
  lemma EntryBytesAt(e: DirEntry, b: seq<Byte>)
    requires b == EncodeEntry(e)
    ensures b[..8] == e.name && b[8..11] == e.ext && b[11] == e.attribute && b[12] == e.userAttribute
    ensures b[13..20] == e.times && b[22..26] == e.modified
    ensures b[20] as int + 256 * b[21] as int == e.clusterHigh && b[26] as int + 256 * b[27] as int == e.clusterLow
    ensures b[28] as int + 0x100 * b[29] as int + 0x1_0000 * b[30] as int + 0x100_0000 * b[31] as int == e.filesize
  {
    EntryOffsets<Byte>(e.name, e.ext, [e.attribute, e.userAttribute], e.times, Le16(e.clusterHigh), e.modified,
                       Le16(e.clusterLow), Le32(e.filesize));
    assert b[20..22][0] == b[20] && b[20..22][1] == b[21] && b[26..28][0] == b[26] && b[26..28][1] == b[27];
    assert b[28..32][0] == b[28] && b[28..32][1] == b[29] && b[28..32][2] == b[30] && b[28..32][3] == b[31];
    Le32RoundTrip(e.filesize);
  }

  lemma EntryRoundTrip(e: DirEntry)
    ensures DecodeEntry(EncodeEntry(e)) == e
  {
    EntryOffsets<Byte>(e.name, e.ext, [e.attribute, e.userAttribute], e.times, Le16(e.clusterHigh), e.modified,
                       Le16(e.clusterLow), Le32(e.filesize));
    Le16RoundTrip(e.clusterHigh);
    Le16RoundTrip(e.clusterLow);
    Le32RoundTrip(e.filesize);
  }

  lemma EntryRoundTripBack(b: seq<Byte>)
    requires |b| == 32
    ensures EncodeEntry(DecodeEntry(b)) == b
  {
    FromLe16RoundTrip(b[20..22]);
    FromLe16RoundTrip(b[26..28]);
    FromLe32RoundTrip(b[28..32]);
  }

  function EncodeTable(t: Table): (b: Block) {
    seq(CLUSTER_SIZE, k requires 0 <= k < CLUSTER_SIZE => EncodeEntry(t[k / 32])[k % 32])
  }

  function DecodeTable(b: Block): (t: Table) {
    seq(SLOTS, i requires 0 <= i < SLOTS => DecodeEntry(b[32 * i..32 * i + 32]))
  }

  lemma EntryBytes(t: Table, i: nat)
    requires i < SLOTS
    ensures EncodeTable(t)[32 * i..32 * i + 32] == EncodeEntry(t[i])
  {
    hide EncodeEntry;
    var s := EncodeTable(t)[32 * i..32 * i + 32];
    forall k | 0 <= k < 32 ensures s[k] == EncodeEntry(t[i])[k] {
      assert s[k] == EncodeTable(t)[32 * i + k];
    }
  }

  // Entry i of a table is bytes 32 * i to 32 * i + 31 of its cluster.
  lemma TableBytesAt(b: Block, i: nat)
    requires i < SLOTS
    ensures EncodeEntry(DecodeTable(b)[i]) == b[32 * i..32 * i + 32]
  {
    EntryRoundTripBack(b[32 * i..32 * i + 32]);
  }

  lemma TableRoundTrip(t: Table)
    ensures DecodeTable(EncodeTable(t)) == t
  {
    hide EncodeEntry, DecodeEntry, EncodeTable;
    forall i | 0 <= i < SLOTS ensures DecodeTable(EncodeTable(t))[i] == t[i] {
      EntryBytes(t, i);
      EntryRoundTrip(t[i]);
    }
  }

  lemma TableRoundTripBack(b: Block)
    ensures EncodeTable(DecodeTable(b)) == b
  {
    var t := DecodeTable(b);
    forall k | 0 <= k < CLUSTER_SIZE ensures EncodeTable(t)[k] == b[k] {
      EntryRoundTripBack(b[32 * (k / 32)..32 * (k / 32) + 32]);
    }
  }

  function EncodeLinks(f: Links): (b: Block) {
    seq(CLUSTER_SIZE, k requires 0 <= k < CLUSTER_SIZE => Le32(f[k / 4])[k % 4])
  }

  function DecodeLinks(b: Block): (f: Links) {
    seq(MAP_SIZE, i requires 0 <= i < MAP_SIZE => FromLe32(b[4 * i..4 * i + 4]))
  }

  lemma LinksRoundTrip(f: Links)
    ensures DecodeLinks(EncodeLinks(f)) == f
  {
    var b := EncodeLinks(f);
    forall i | 0 <= i < MAP_SIZE ensures DecodeLinks(b)[i] == f[i] {
      assert b[4 * i..4 * i + 4] == Le32(f[i]);
      Le32RoundTrip(f[i]);
    }
  }

  // Link i of a table is the four bytes from 4 * i on, the low byte first.
  lemma LinkBytesAt(b: Block, i: nat)
    requires i < MAP_SIZE
    ensures DecodeLinks(b)[i] == b[4 * i] as int + 0x100 * b[4 * i + 1] as int + 0x1_0000 * b[4 * i + 2] as int
                                 + 0x100_0000 * b[4 * i + 3] as int
  {
    var w := b[4 * i..4 * i + 4];
    assert w[0] == b[4 * i] && w[1] == b[4 * i + 1] && w[2] == b[4 * i + 2] && w[3] == b[4 * i + 3];
  }

  // The attribute of slot 0 is byte 11 of the cluster, and so is the top byte of link 2.
  lemma AttributeByte(b: Block)
    ensures DecodeTable(b)[0].attribute == b[11]
    ensures b[11] == DecodeLinks(b)[2] / 16777216
  {
    assert DecodeTable(b)[0] == DecodeEntry(b[0..32]);
    assert DecodeLinks(b)[2] == FromLe32(b[8..12]);
    FromLe32RoundTrip(b[8..12]);
    assert Le32(DecodeLinks(b)[2])[3] == b[8..12][3];
  }
}
