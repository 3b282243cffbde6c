/** kernel/fs/fat32.c, the layer between bytes and clusters: FAT entries are 32-bit little
    endian words of which the low 28 bits count, kept in one or more copies of the table,
    and clusters are runs of sectors.  The device is a sequence of bytes that never fails;
    sectors have 512 bytes.
 */
module FatVolume {

  type Byte = b: nat | b < 256

  const SECTOR: nat := 512

  const FREE: nat := 0
  const BAD_CLUSTER: nat := 0x0FFFFFF7
  const EOC_MIN: nat := 0x0FFFFFF8
  const EOC_MAX: nat := 0x0FFFFFFF
  const MASK: nat := 0x10000000

  predicate IsEoc(c: nat) { c % MASK >= EOC_MIN }

  predicate IsBad(c: nat) { c % MASK == BAD_CLUSTER }

  predicate IsFree(c: nat) { c % MASK == FREE }

  /** The parameters of a mounted volume (struct fat32_fs_info). */
  datatype Geometry = Geometry(fatStart: nat, fatSize: nat, numFats: nat, dataStart: nat, spc: nat, total: nat)

  ghost function FatAddr(g: Geometry, c: nat): nat
  {
    SECTOR * g.fatStart + 4 * c
  }

  function ClusterSize(g: Geometry): nat
  {
    SECTOR * g.spc
  }

  /** Clusters lie side by side from the start of the data area. */
  ghost function ClusterAddr(g: Geometry, c: nat): nat
  {
    if c <= 2 then SECTOR * g.dataStart else ClusterAddr(g, c - 1) + ClusterSize(g)
  }

  /** cluster_to_sector, in bytes */
  method ClusterToByte(g: Geometry, c: nat) returns (a: nat)
    requires c >= 2
    ensures a == ClusterAddr(g, c)
  {
    var sector := g.dataStart + (c - 2) * g.spc;
    a := SECTOR * sector;
    Closed(g, c);
    assert SECTOR * ((c - 2) * g.spc) == (c - 2) * ClusterSize(g);
  }

  lemma {:induction false} Closed(g: Geometry, c: nat)
    requires c >= 2
    ensures ClusterAddr(g, c) == SECTOR * g.dataStart + (c - 2) * ClusterSize(g)
  {
    if c > 2 {
      Closed(g, c - 1);
      assert (c - 2) * ClusterSize(g) == (c - 3) * ClusterSize(g) + ClusterSize(g);
    }
  }

  ghost predicate Layout(g: Geometry, size: nat)
  {
    && 1 <= g.spc && 2 <= g.total <= BAD_CLUSTER && 4 * g.total <= SECTOR * g.fatSize
    && 1 <= g.numFats && g.dataStart >= g.fatStart + g.fatSize
    && (g.numFats > 1 ==> g.dataStart >= g.fatStart + 2 * g.fatSize)
    && size >= ClusterAddr(g, g.total)
  }

  /** Little endian numbers. */
  function Value(b: seq<Byte>): nat
  {
    if b == [] then 0 else b[0] as nat + 0x100 * Value(b[1..])
  }

  /** The 32-bit word at `a`. */
  function Word(disk: seq<Byte>, a: nat): (w: nat)
    requires a + 4 <= |disk|
  {
    Value(disk[a..a + 4])
  }

  ghost predicate WordIs(disk: seq<Byte>, a: nat, w: nat)
  {
    a + 4 <= |disk| && Word(disk, a) == w
  }

  lemma {:induction false} WordFits(b: seq<Byte>)
    requires |b| == 4
    ensures Value(b) ==
      b[0] as nat + 0x100 * b[1] as nat + 0x10000 * b[2] as nat + 0x1000000 * b[3] as nat < 0x100000000
  {
    assert b[1..][1..] == b[2..] && b[2..][1..] == b[3..] && b[3..][1..] == [];
    assert Value(b[3..]) == b[3] as nat;
    assert Value(b[2..]) == b[2] as nat + 0x100 * Value(b[3..]);
  }

  ghost predicate Encodes(b: seq<Byte>, w: nat)
  {
    |b| == 4 && Value(b) == w
  }

  /** The bytes of a word, least significant first. */
  method ToBytes(w: nat) returns (b: seq<Byte>)
    requires w < 0x100000000
    ensures Encodes(b, w)
  {
    var w1 := w / 0x100;
    var w2 := w1 / 0x100;
    b := [w % 0x100, w1 % 0x100, w2 % 0x100, w2 / 0x100];
    WordFits(b);
  }

  lemma {:induction false} WordRoundTrip(disk: seq<Byte>, a: nat, b: seq<Byte>, w: nat)
    requires Encodes(b, w) && Holds(disk, a, b)
    ensures Word(disk, a) == w
  {
    SliceHolds(disk, a, b);
  }

  /** What a volume holds: the successor and the bytes of every cluster. */
  datatype Volume = Volume(fat: map<nat, nat>, data: map<nat, seq<Byte>>)

  predicate InRange(g: Geometry, c: nat)
  {
    2 <= c < g.total
  }

  ghost predicate Shows(g: Geometry, disk: seq<Byte>, v: Volume)
  {
    && Layout(g, |disk|)
    && (forall c :: c in v.fat <==> InRange(g, c)) && (forall c :: c in v.data <==> InRange(g, c))
    && (forall c :: InRange(g, c) ==> EntryIs(g, disk, c, v.fat[c]))
    && (forall c :: InRange(g, c) ==> ClusterIs(g, disk, c, v.data[c]))
  }

  ghost predicate EntryIs(g: Geometry, disk: seq<Byte>, c: nat, value: nat)
  {
    FatAddr(g, c) + 4 <= |disk| && Word(disk, FatAddr(g, c)) % MASK == value
  }

  ghost predicate ClusterIs(g: Geometry, disk: seq<Byte>, c: nat, bytes: seq<Byte>)
    requires c >= 2
  {
    |bytes| == ClusterSize(g) && Holds(disk, ClusterAddr(g, c), bytes)
  }

  /** The bytes at `a` are `d`. */
  ghost predicate Holds(s: seq<Byte>, a: nat, d: seq<Byte>)
  {
    a + |d| <= |s| && forall i :: a <= i < a + |d| ==> s[i] == d[i - a]
  }

  ghost predicate Agree(r: seq<Byte>, s: seq<Byte>, lo: nat, hi: nat)
  {
    |r| == |s| && hi <= |s| && forall i :: lo <= i < hi ==> r[i] == s[i]
  }

  // ----- the device -----

  /** `r` is `s` with the bytes at `at` replaced by `d`. */
  ghost predicate PatchedAt(s: seq<Byte>, r: seq<Byte>, at: nat, d: seq<Byte>)
  {
    Holds(r, at, d) && Agree(r, s, 0, at) && Agree(r, s, at + |d|, |s|)
  }

  /** block_write_sectors */
  function Patch(s: seq<Byte>, at: nat, d: seq<Byte>): (r: seq<Byte>)
    requires at + |d| <= |s|
    ensures PatchedAt(s, r, at, d)
  {
    s[..at] + d + s[at + |d|..]
  }

  lemma {:induction false} WordElsewhere(s: seq<Byte>, r: seq<Byte>, a: nat)
    requires a + 4 <= |s| && Agree(r, s, a, a + 4)
    ensures Word(s, a) == Word(r, a)
  {
    assert s[a..a + 4] == r[a..a + 4];
  }

  /** Where things are: tables before data, clusters side by side. */
  lemma {:induction false} Places(g: Geometry, size: nat, c: nat, d: nat)
    requires Layout(g, size) && InRange(g, c) && InRange(g, d)
    ensures FatAddr(g, c) + 4 <= SECTOR * (g.fatStart + g.fatSize) <= SECTOR * g.dataStart <= ClusterAddr(g, c)
    ensures ClusterAddr(g, c) + ClusterSize(g) <= size
    ensures c < d ==> ClusterAddr(g, c) + ClusterSize(g) <= ClusterAddr(g, d)
  {
    Apart(g, c, g.total);
    Apart(g, 2, c + 1);
    if c < d { Apart(g, c, d); }
  }

  lemma {:induction false} Apart(g: Geometry, c: nat, d: nat)
    requires 2 <= c < d
    ensures ClusterAddr(g, c) + ClusterSize(g) <= ClusterAddr(g, d)
    decreases d
  {
    if c < d - 1 { Apart(g, c, d - 1); }
  }

  /** fat32_write_cluster and fat32_read_cluster keep to their own cluster. */
  lemma {:induction false} ClusterWritten(g: Geometry, disk: seq<Byte>, v: Volume, c: nat, d: seq<Byte>, r: seq<Byte>)
    requires Shows(g, disk, v) && InRange(g, c) && |d| == ClusterSize(g)
    requires PatchedAt(disk, r, ClusterAddr(g, c), d)
    ensures Shows(g, r, v.(data := v.data[c := d]))
  {
    forall x | InRange(g, x) ensures EntryIs(g, r, x, v.fat[x]) && ClusterIs(g, r, x, if x == c then d else v.data[x]) {
      assert EntryIs(g, disk, x, v.fat[x]) && ClusterIs(g, disk, x, v.data[x]);
      NotMet(g, disk, r, c, d, x, v.fat[x], v.data[x]);
    }
  }

  lemma {:induction false} NotMet(g: Geometry, disk: seq<Byte>, r: seq<Byte>, c: nat, d: seq<Byte>, x: nat, next: nat,
                                  bytes: seq<Byte>)
    requires Layout(g, |disk|) && InRange(g, c) && InRange(g, x) && |d| == ClusterSize(g)
      && PatchedAt(disk, r, ClusterAddr(g, c), d)
    requires EntryIs(g, disk, x, next) && ClusterIs(g, disk, x, bytes)
    ensures EntryIs(g, r, x, next) && ClusterIs(g, r, x, if x == c then d else bytes)
  {
    Places(g, |disk|, x, c);
    Places(g, |disk|, c, x);
    WordElsewhere(disk, r, FatAddr(g, x));
  }

  lemma {:induction false} SliceHolds(s: seq<Byte>, a: nat, d: seq<Byte>)
    requires Holds(s, a, d)
    ensures s[a..a + |d|] == d
  {
    var r := s[a..a + |d|];
    assert forall i :: 0 <= i < |r| ==> r[i] == s[a + i];
  }

  /** fat32_read_cluster */
  method ReadCluster(g: Geometry, disk: seq<Byte>, c: nat, ghost v: Volume) returns (ok: bool, buf: seq<Byte>)
    requires Shows(g, disk, v)
    ensures ok == InRange(g, c) && (ok ==> buf == v.data[c] && |buf| == ClusterSize(g))
  {
    if c < 2 || c >= g.total {
      return false, [];
    }
    Places(g, |disk|, c, c);
    assert ClusterIs(g, disk, c, v.data[c]);
    var a := ClusterToByte(g, c);
    ok, buf := true, disk[a..a + ClusterSize(g)];
    SliceHolds(disk, a, v.data[c]);
  }

  /** fat32_write_cluster: one cluster changes, and no table entry. */
  method WriteCluster(g: Geometry, disk0: seq<Byte>, c: nat, buf: seq<Byte>, ghost v0: Volume)
    returns (ok: bool, disk: seq<Byte>, ghost v: Volume)
    requires Shows(g, disk0, v0) && |buf| == ClusterSize(g)
    ensures Shows(g, disk, v) && ok == InRange(g, c)
    ensures v == if ok then v0.(data := v0.data[c := buf]) else v0
  {
    if c < 2 || c >= g.total {
      return false, disk0, v0;
    }
    Places(g, |disk0|, c, c);
    var a := ClusterToByte(g, c);
    ok, disk := true, Patch(disk0, a, buf);
    ClusterWritten(g, disk0, v0, c, buf, disk);
    v := v0.(data := v0.data[c := buf]);
  }

  // ----- table entries -----

  /** fat32_read_fat */
  method ReadFat(g: Geometry, disk: seq<Byte>, c: nat, ghost v: Volume) returns (next: nat)
    requires Shows(g, disk, v)
    ensures next == if InRange(g, c) then v.fat[c] else BAD_CLUSTER
    ensures next < MASK
  {
    if c < 2 || c >= g.total {
      return BAD_CLUSTER;
    }
    assert EntryIs(g, disk, c, v.fat[c]);
    Places(g, |disk|, c, c);
    var sector, entryOffset := SectorOf(g, c, |disk|);
    var buf := disk[sector..sector + SECTOR];
    WordInSector(disk, sector, entryOffset);
    next := Word(buf, entryOffset) % MASK;
  }

  /** The sector of an entry lies inside the table and the entry inside the sector. */
  method SectorOf(g: Geometry, c: nat, ghost size: nat) returns (s: nat, o: nat)
    requires Layout(g, size) && InRange(g, c)
    ensures s + o == FatAddr(g, c) && o + 4 <= SECTOR && SECTOR * g.fatStart <= s
    ensures s + SECTOR <= SECTOR * (g.fatStart + g.fatSize) <= size
    ensures g.numFats > 1 ==> s + SECTOR * g.fatSize + SECTOR <= SECTOR * g.dataStart <= size
  {
    Places(g, size, c, c);
    var fatOffset := c * 4;
    var q := fatOffset / SECTOR;
    s, o := SECTOR * (g.fatStart + q), fatOffset % SECTOR;
    InSector(c, g.fatSize, q, o);
  }

  lemma {:induction false} InSector(c: nat, n: nat, q: nat, o: nat)
    requires q == c * 4 / 512 && o == c * 4 % 512 && 4 * c + 4 <= 512 * n
    ensures 512 * q + o == 4 * c && o + 4 <= 512 && q < n
  {
    assert o == 4 * (c - 128 * q);
  }

  lemma {:induction false} WordInSector(disk: seq<Byte>, s: nat, o: nat)
    requires s + SECTOR <= |disk| && o + 4 <= SECTOR
    ensures WordIs(disk, s + o, Word(disk[s..s + SECTOR], o))
  {
    var b := disk[s..s + SECTOR];
    assert forall i :: 0 <= i < SECTOR ==> b[i] == disk[s + i];
    assert b[o..o + 4] == disk[s + o..s + o + 4];
  }

  /** Changing an entry in a sector and writing the sector changes the entry. */
  lemma {:induction false} PatchInSector(disk: seq<Byte>, s: nat, o: nat, d: seq<Byte>, buf: seq<Byte>, r: seq<Byte>)
    requires s + SECTOR <= |disk| && o + |d| <= SECTOR && PatchedAt(disk[s..s + SECTOR], buf, o, d)
      && PatchedAt(disk, r, s, buf)
    ensures PatchedAt(disk, r, s + o, d)
  {
    var was := disk[s..s + SECTOR];
    forall i | s <= i < s + SECTOR ensures r[i] == buf[i - s] && disk[i] == was[i - s] {
    }
  }

  /** The tables are copies of each other, except perhaps in the sector at `s`. */
  ghost predicate Mirrored(g: Geometry, disk: seq<Byte>, s: nat, n: nat)
  {
    var (a, e) := (SECTOR * g.fatStart, SECTOR * (g.fatStart + g.fatSize));
    g.numFats > 1 ==>
      forall i, j :: a <= i < e && (i < s || s + n <= i) && j == i + SECTOR * g.fatSize && j < |disk| ==>
        disk[i] == disk[j]
  }

  /** The effect of writing an entry: four bytes of the first table. */
  lemma {:induction false} EntryWritten(g: Geometry, disk: seq<Byte>, v: Volume, c: nat, r: seq<Byte>, value: nat,
                                        w: nat)
    requires Shows(g, disk, v) && InRange(g, c) && w % MASK == value && WordIs(r, FatAddr(g, c), w)
    requires Agree(r, disk, 0, FatAddr(g, c)) && Agree(r, disk, FatAddr(g, c) + 4, |r|)
    ensures Shows(g, r, v.(fat := v.fat[c := value]))
  {
    forall x | InRange(g, x)
      ensures EntryIs(g, r, x, if x == c then value else v.fat[x]) && ClusterIs(g, r, x, v.data[x])
    {
      assert EntryIs(g, disk, x, v.fat[x]) && ClusterIs(g, disk, x, v.data[x]);
      NotThis(g, disk, r, c, value, x, v.fat[x], v.data[x]);
    }
  }

  lemma {:induction false} NotThis(g: Geometry, disk: seq<Byte>, r: seq<Byte>, c: nat, value: nat, x: nat, next: nat,
                                   bytes: seq<Byte>)
    requires Layout(g, |disk|) && InRange(g, c) && InRange(g, x) && EntryIs(g, r, c, value)
    requires Agree(r, disk, 0, FatAddr(g, c)) && Agree(r, disk, FatAddr(g, c) + 4, |r|)
    requires EntryIs(g, disk, x, next) && ClusterIs(g, disk, x, bytes)
    ensures EntryIs(g, r, x, if x == c then value else next) && ClusterIs(g, r, x, bytes)
  {
    Places(g, |disk|, x, x);
    Places(g, |disk|, c, c);
    if x != c { WordElsewhere(disk, r, FatAddr(g, x)); }
  }

  /** The kept high four bits with a new 28-bit value. */
  method Combine(w: nat, value: nat) returns (entry: nat)
    requires w < 0x100000000
    ensures entry < 0x100000000 && entry % MASK == value % MASK && entry / MASK == w / MASK
  {
    entry := w / MASK * MASK + value % MASK;
  }

  /** The entry in the sector at `s` with a new value. */
  method NewEntry(disk: seq<Byte>, s: nat, o: nat, value: nat) returns (b: seq<Byte>, ghost entry: nat, ghost was: nat)
    requires s + SECTOR <= |disk| && o + 4 <= SECTOR
    ensures Encodes(b, entry) && entry % MASK == value % MASK && entry / MASK == was / MASK && WordIs(disk, s + o, was)
  {
    WordInSector(disk, s, o);
    WordFits(disk[s + o..s + o + 4]);
    was := Word(disk[s..s + SECTOR], o);
    var e := Combine(Word(disk[s..s + SECTOR], o), value);
    b := ToBytes(e);
    entry := e;
  }

  /** The first table gets a new entry; its reserved high bits are kept. */
  method WriteEntry(g: Geometry, disk0: seq<Byte>, c: nat, value: nat, ghost v0: Volume)
    returns (disk: seq<Byte>, s: nat, ghost v: Volume)
    requires Shows(g, disk0, v0) && InRange(g, c)
    ensures Shows(g, disk, v) && v == v0.(fat := v0.fat[c := value % MASK]) && |disk| == |disk0|
    ensures FatAddr(g, c) + 4 <= |disk| && Word(disk, FatAddr(g, c)) / MASK == Word(disk0, FatAddr(g, c)) / MASK
    ensures SECTOR * g.fatStart <= s && s + SECTOR <= SECTOR * (g.fatStart + g.fatSize)
    ensures s + SECTOR <= |disk| && Agree(disk, disk0, 0, s) && Agree(disk, disk0, s + SECTOR, |disk|)
    ensures Agree(disk, disk0, 0, FatAddr(g, c)) && Agree(disk, disk0, FatAddr(g, c) + 4, |disk|)
  {
    Places(g, |disk0|, c, c);
    var o;
    s, o := SectorOf(g, c, |disk0|);
    var bytes;
    ghost var entry, was;
    bytes, entry, was := NewEntry(disk0, s, o, value);
    assert WordIs(disk0, FatAddr(g, c), was);
    var buf := Patch(disk0[s..s + SECTOR], o, bytes);
    disk := Patch(disk0, s, buf);
    v := v0.(fat := v0.fat[c := value % MASK]);
    EntryStored(g, disk0, v0, c, value % MASK, s, o, bytes, entry, buf, disk);
  }

  lemma {:induction false} EntryStored(g: Geometry, disk: seq<Byte>, v: Volume, c: nat, value: nat, s: nat, o: nat,
                                       bytes: seq<Byte>, entry: nat, buf: seq<Byte>, r: seq<Byte>)
    requires Shows(g, disk, v) && InRange(g, c) && s + o == FatAddr(g, c) && entry % MASK == value
    requires s + SECTOR <= |disk| && o + 4 <= SECTOR && Encodes(bytes, entry)
    requires PatchedAt(disk[s..s + SECTOR], buf, o, bytes) && PatchedAt(disk, r, s, buf)
    ensures Shows(g, r, v.(fat := v.fat[c := value])) && |r| == |disk| && WordIs(r, FatAddr(g, c), entry)
    ensures Agree(r, disk, 0, s) && Agree(r, disk, s + SECTOR, |r|)
    ensures Agree(r, disk, 0, FatAddr(g, c)) && Agree(r, disk, FatAddr(g, c) + 4, |r|)
  {
    SectorStored(disk, s, o, bytes, entry, buf, r);
    assert WordIs(r, FatAddr(g, c), entry);
    EntryWritten(g, disk, v, c, r, value, entry);
  }

  lemma {:induction false} SectorStored(disk: seq<Byte>, s: nat, o: nat, bytes: seq<Byte>, entry: nat, buf: seq<Byte>,
                                        r: seq<Byte>)
    requires s + SECTOR <= |disk| && o + 4 <= SECTOR && Encodes(bytes, entry)
    requires PatchedAt(disk[s..s + SECTOR], buf, o, bytes) && PatchedAt(disk, r, s, buf)
    ensures |r| == |disk| && WordIs(r, s + o, entry) && Agree(r, disk, 0, s + o) && Agree(r, disk, s + o + 4, |r|)
    ensures Agree(r, disk, 0, s) && Agree(r, disk, s + SECTOR, |r|)
  {
    PatchInSector(disk, s, o, bytes, buf, r);
    WordRoundTrip(r, s + o, bytes, entry);
  }

  /** The sector at `s` of the first table is copied to the second. */
  method CopySector(g: Geometry, disk0: seq<Byte>, s: nat, ghost v: Volume) returns (disk: seq<Byte>)
    requires Shows(g, disk0, v) && g.numFats > 1 && SECTOR * g.fatStart <= s
      && s + SECTOR <= SECTOR * (g.fatStart + g.fatSize)
    ensures Shows(g, disk, v) && |disk| == |disk0| && Agree(disk, disk0, 0, SECTOR * (g.fatStart + g.fatSize))
    ensures Mirrored(g, disk0, s, SECTOR) ==> Mirrored(g, disk, 0, 0)
    ensures PatchedAt(disk0, disk, s + SECTOR * g.fatSize, disk0[s..s + SECTOR])
  {
    DataBehind(g, |disk0|, g.total);
    var buf := disk0[s..s + SECTOR];
    disk := Patch(disk0, s + SECTOR * g.fatSize, buf);
    TableCopied(g, disk0, v, s + SECTOR * g.fatSize, buf, disk);
    if Mirrored(g, disk0, s, SECTOR) {
      CopyMirrors(g, disk0, disk, s, buf);
    }
  }

  lemma {:induction false} DataBehind(g: Geometry, size: nat, c: nat)
    requires 2 <= c
    ensures SECTOR * g.dataStart <= ClusterAddr(g, c)
  {
    if c > 2 { DataBehind(g, size, c - 1); }
  }

  /** Writes between the first table and the data do not show. */
  lemma {:induction false} TableCopied(g: Geometry, disk: seq<Byte>, v: Volume, at: nat, d: seq<Byte>, r: seq<Byte>)
    requires Shows(g, disk, v) && PatchedAt(disk, r, at, d)
    requires SECTOR * (g.fatStart + g.fatSize) <= at && at + |d| <= SECTOR * g.dataStart
    ensures Shows(g, r, v)
  {
    forall x | InRange(g, x) ensures EntryIs(g, r, x, v.fat[x]) && ClusterIs(g, r, x, v.data[x]) {
      Places(g, |disk|, x, x);
      assert EntryIs(g, disk, x, v.fat[x]) && ClusterIs(g, disk, x, v.data[x]);
      WordElsewhere(disk, r, FatAddr(g, x));
    }
  }

  lemma {:induction false} CopyMirrors(g: Geometry, disk: seq<Byte>, r: seq<Byte>, s: nat, buf: seq<Byte>)
    requires g.numFats > 1 && Mirrored(g, disk, s, SECTOR) && SECTOR * g.fatStart <= s
      && s + SECTOR <= SECTOR * (g.fatStart + g.fatSize) <= |disk|
    requires buf == disk[s..s + SECTOR] && PatchedAt(disk, r, s + SECTOR * g.fatSize, buf)
    ensures Mirrored(g, r, 0, 0)
  {
    var a, e, n := SECTOR * g.fatStart, SECTOR * (g.fatStart + g.fatSize), SECTOR * g.fatSize;
    forall i, j | a <= i < e && j == i + n && j < |r| ensures r[i] == r[j] {
      assert r[i] == disk[i];
      if s <= i < s + SECTOR {
        assert r[j] == buf[j - (s + n)] == disk[i];
      } else {
        assert r[j] == disk[j] == disk[i];
      }
    }
  }

  /** fat32_write_fat: one entry changes, its reserved high bits do not, and the second
      table stays a copy of the first. */
  method WriteFat(g: Geometry, disk0: seq<Byte>, c: nat, value: nat, ghost v0: Volume)
    returns (ok: bool, disk: seq<Byte>, ghost v: Volume)
    requires Shows(g, disk0, v0)
    ensures Shows(g, disk, v) && ok == InRange(g, c) && |disk| == |disk0|
    ensures v == if ok then v0.(fat := v0.fat[c := value % MASK]) else v0
    ensures Mirrored(g, disk0, 0, 0) ==> Mirrored(g, disk, 0, 0)
    ensures ok ==>
      var a := 512 * g.fatStart + 4 * c;
      SameReserved(disk0, disk, a) && (Mirrored(g, disk0, 0, 0) ==> OnlyEntry(g, disk0, disk, a))
  {
    if c < 2 || c >= g.total {
      return false, disk0, v0;
    }
    var s;
    ok := true;
    disk, s, v := WriteEntry(g, disk0, c, value, v0);
    HighBits(disk0, disk, FatAddr(g, c));
    if g.numFats > 1 {
      ghost var d1 := disk;
      MirroredBut(g, disk0, disk, s);
      disk := CopySector(g, disk, s, v);
      StillReserved(g, disk0, d1, disk, c);
      if Mirrored(g, disk0, 0, 0) { BothEntries(g, disk0, d1, disk, FatAddr(g, c), s); }
    }
  }

  /** The four reserved bits of the entry at `a` are as they were: the high half of its last byte. */
  ghost predicate SameReserved(disk: seq<Byte>, r: seq<Byte>, a: nat)
  {
    a + 4 <= |r| == |disk| && r[a + 3] / 16 == disk[a + 3] / 16
  }

  lemma {:induction false} StillReserved(g: Geometry, disk: seq<Byte>, d1: seq<Byte>, r: seq<Byte>, c: nat)
    requires Layout(g, |disk|) && InRange(g, c) && SameReserved(disk, d1, FatAddr(g, c))
    requires Agree(r, d1, 0, SECTOR * (g.fatStart + g.fatSize))
    ensures SameReserved(disk, r, FatAddr(g, c))
  {
    Places(g, |disk|, c, c);
  }

  /** No byte has changed but those of the entry at `a` and of its copy in the second table. */
  ghost predicate OnlyEntry(g: Geometry, disk: seq<Byte>, r: seq<Byte>, a: nat)
  {
    && |r| == |disk|
    && forall i :: 0 <= i < |r| && !(a <= i < a + 4) && !(g.numFats > 1 && a <= i - 512 * g.fatSize < a + 4) ==>
      r[i] == disk[i]
  }

  lemma {:induction false} BothEntries(g: Geometry, disk: seq<Byte>, d1: seq<Byte>, r: seq<Byte>, a: nat, s: nat)
    requires g.numFats > 1 && Mirrored(g, disk, 0, 0) && SECTOR * g.fatStart <= s
      && s + SECTOR <= SECTOR * (g.fatStart + g.fatSize) && s + SECTOR <= |d1|
    requires Agree(d1, disk, 0, a) && Agree(d1, disk, a + 4, |d1|)
    requires PatchedAt(d1, r, s + SECTOR * g.fatSize, d1[s..s + SECTOR])
    ensures OnlyEntry(g, disk, r, a)
  {
    var n := SECTOR * g.fatSize;
    var buf := d1[s..s + SECTOR];
    forall i | 0 <= i < |r| && !(a <= i < a + 4) && !(a <= i - n < a + 4) ensures r[i] == disk[i] {
      if s + n <= i < s + n + SECTOR {
        var j := i - n;
        assert r[i] == buf[i - (s + n)] == d1[j] == disk[j];
      }
    }
  }

  /** The reserved bits are the high half of the last byte. */
  lemma {:induction false} HighBits(disk: seq<Byte>, r: seq<Byte>, a: nat)
    requires a + 4 <= |disk| == |r| && Word(r, a) / MASK == Word(disk, a) / MASK
    ensures SameReserved(disk, r, a)
  {
    Nibble(disk[a..a + 4]);
    Nibble(r[a..a + 4]);
  }

  lemma {:induction false} Nibble(b: seq<Byte>)
    requires |b| == 4
    ensures Value(b) / 0x10000000 == b[3] as nat / 16
  {
    WordFits(b);
    var (q, m) := (b[3] as nat / 16, b[3] as nat % 16);
    assert b[3] as nat == 16 * q + m;
  }

  // ----- where the bytes are -----

  /** The low 28 bits of the little endian word at `a`. */
  ghost predicate EntryAt(disk: seq<Byte>, a: nat, x: nat)
  {
    && a + 4 <= |disk|
    && x == LittleEndian(disk[a] as nat, disk[a + 1] as nat, disk[a + 2] as nat, disk[a + 3] as nat) % 0x10000000
  }

  /** The table of a volume in bytes of the disk: four for each cluster, counted from 0. */
  lemma {:induction false} EntryBytes(g: Geometry, disk: seq<Byte>, v: Volume, c: nat, a: nat)
    requires Shows(g, disk, v) && InRange(g, c) && a == 512 * g.fatStart + 4 * c
    ensures EntryAt(disk, a, v.fat[c])
  {
    assert EntryIs(g, disk, c, v.fat[c]);
    EntryIsAt(g, disk, c, v.fat[c], a);
  }

  lemma {:induction false} EntryIsAt(g: Geometry, disk: seq<Byte>, c: nat, x: nat, a: nat)
    requires EntryIs(g, disk, c, x) && a == 512 * g.fatStart + 4 * c
    ensures EntryAt(disk, a, x)
  {
    assert a == FatAddr(g, c);
    WordBytes(disk, a, x);
  }

  lemma {:induction false} WordBytes(disk: seq<Byte>, a: nat, x: nat)
    requires a + 4 <= |disk| && x == Word(disk, a) % MASK
    ensures EntryAt(disk, a, x)
  {
    WordFits(disk[a..a + 4]);
  }

  /** The clusters of a volume in bytes of the disk: they are counted from 2. */
  lemma {:induction false} ClusterBytes(g: Geometry, disk: seq<Byte>, v: Volume, c: nat, a: nat)
    requires Shows(g, disk, v) && InRange(g, c) && a == 512 * (g.dataStart + (c - 2) * g.spc)
    ensures a + 512 * g.spc <= |disk| && v.data[c] == disk[a..a + 512 * g.spc]
  {
    assert ClusterIs(g, disk, c, v.data[c]);
    AddressIs(g, c, a);
    SliceHolds(disk, a, v.data[c]);
  }

  lemma {:induction false} AddressIs(g: Geometry, c: nat, a: nat)
    requires c >= 2 && a == 512 * (g.dataStart + (c - 2) * g.spc)
    ensures ClusterAddr(g, c) == a
  {
    Closed(g, c);
    assert 512 * ((c - 2) * g.spc) == (c - 2) * (512 * g.spc);
  }

  ghost function LittleEndian(b0: nat, b1: nat, b2: nat, b3: nat): nat
  {
    b0 + 0x100 * b1 + 0x10000 * b2 + 0x1000000 * b3
  }

  lemma {:induction false} MirroredBut(g: Geometry, disk: seq<Byte>, r: seq<Byte>, s: nat)
    requires s + SECTOR <= SECTOR * (g.fatStart + g.fatSize) && SECTOR * g.fatStart <= s && Agree(r, disk, 0, s)
      && Agree(r, disk, s + SECTOR, |r|)
    ensures Mirrored(g, disk, 0, 0) ==> Mirrored(g, r, s, SECTOR)
  {
  }
}
