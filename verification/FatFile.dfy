/** kernel/fs/fat32.c and kernel/fs/fat32_file.c, the layers above bytes: cluster chains,
    their allocation and release, and files stored in them.
 */
module FatChains {
  import opened FatVolume
  import opened Sequences

  ghost predicate Linked(g: Geometry, fat: map<nat, nat>, s: seq<nat>)
  {
    && (forall x :: x in s ==> InRange(g, x) && x in fat)
    && (forall i, j :: 0 <= i < j < |s| && j == i + 1 ==> fat[s[i]] == s[j])
  }

  /** A cluster chain: in range, without repetitions, and ended by an end-of-chain mark. */
  ghost predicate IsChain(g: Geometry, fat: map<nat, nat>, s: seq<nat>)
  {
    s != [] && NoRepeats(s) && Linked(g, fat, s) && EOC_MIN <= fat[s[|s| - 1]] < MASK
  }

  /** The chains of the files of a volume: none for an empty file, and no cluster shared. */
  ghost predicate Sound(g: Geometry, fat: map<nat, nat>, files: seq<seq<nat>>)
  {
    && (forall k :: 0 <= k < |files| ==> files[k] == [] || IsChain(g, fat, files[k]))
    && (forall k, l, x :: 0 <= k < l < |files| && x in files[k] ==> x !in files[l])
  }

  /** Clusters on a chain are not free. */
  lemma {:induction false} InUse(g: Geometry, fat: map<nat, nat>, s: seq<nat>, x: nat)
    requires g.total <= BAD_CLUSTER && IsChain(g, fat, s) && x in s
    ensures x in fat && fat[x] != FREE
  {
    var i :| 0 <= i < |s| && s[i] == x;
    if i < |s| - 1 {
      assert fat[s[i]] == s[i + 1] && s[i + 1] in s;
    }
  }

  /** Changing the entry of a cluster that no chain contains leaves all chains alone. */
  lemma {:induction false} OffChain(g: Geometry, fat: map<nat, nat>, files: seq<seq<nat>>, c: nat, value: nat)
    requires Sound(g, fat, files) && forall k :: 0 <= k < |files| ==> c !in files[k]
    ensures Sound(g, fat[c := value], files)
  {
    forall k | 0 <= k < |files| && files[k] != [] ensures IsChain(g, fat[c := value], files[k]) {
      Elsewhere(g, fat, files[k], c, value);
    }
  }

  lemma {:induction false} Elsewhere(g: Geometry, fat: map<nat, nat>, s: seq<nat>, c: nat, value: nat)
    requires IsChain(g, fat, s) && c !in s
    ensures IsChain(g, fat[c := value], s)
  {
  }

  /** Entries have 28 bits already. */
  lemma {:induction false} Small(c: nat)
    requires c < MASK
    ensures c % MASK == c
  {
  }

  // ----- allocation -----

  ghost predicate Full(g: Geometry, fat: map<nat, nat>)
  {
    forall x :: x in fat ==> fat[x] != FREE
  }

  ghost predicate NoneFree(fat: map<nat, nat>, c: nat)
  {
    forall x :: x in fat && x < c ==> fat[x] != FREE
  }

  lemma {:induction false} NoneFreeMore(fat: map<nat, nat>, c: nat)
    requires NoneFree(fat, c) && c in fat && fat[c] != FREE
    ensures NoneFree(fat, c + 1)
  {
  }

  method TestFree(g: Geometry, disk: seq<Byte>, c: nat, ghost v: Volume) returns (free: bool)
    requires Shows(g, disk, v) && InRange(g, c)
    ensures free == (v.fat[c] == FREE)
  {
    var entry := ReadFat(g, disk, c, v);
    Small(entry);
    free := IsFree(entry);
  }

  method MarkEnd(g: Geometry, disk0: seq<Byte>, c: nat, ghost v0: Volume) returns (disk: seq<Byte>, ghost v: Volume)
    requires Shows(g, disk0, v0) && InRange(g, c)
    ensures Shows(g, disk, v) && v == v0.(fat := v0.fat[c := EOC_MAX])
  {
    var ok;
    ok, disk, v := WriteFat(g, disk0, c, EOC_MAX, v0);
  }

  /** fat32_alloc_cluster: the first free cluster, marked as the end of a chain. */
  method AllocCluster(g: Geometry, disk0: seq<Byte>, ghost v0: Volume)
    returns (c: nat, disk: seq<Byte>, ghost v: Volume)
    requires Shows(g, disk0, v0)
    ensures Shows(g, disk, v)
    ensures c == 0 ==> disk == disk0 && v == v0 && Full(g, v0.fat)
    ensures c != 0 ==> InRange(g, c) && v0.fat[c] == FREE && NoneFree(v0.fat, c)
    ensures c != 0 ==> v == v0.(fat := v0.fat[c := EOC_MAX])
  {
    var cluster: nat := 2;
    while cluster < g.total
      invariant 2 <= cluster <= g.total && NoneFree(v0.fat, cluster)
    {
      var free := TestFree(g, disk0, cluster, v0);
      if free {
        disk, v := MarkEnd(g, disk0, cluster, v0);
        return cluster, disk, v;
      }
      NoneFreeMore(v0.fat, cluster);
      cluster := cluster + 1;
    }
    return 0, disk0, v0;
  }

  /** Allocation keeps every chain, and the new cluster is on none of them. */
  lemma {:induction false} AllocKeeps(g: Geometry, fat: map<nat, nat>, files: seq<seq<nat>>, c: nat)
    requires g.total <= BAD_CLUSTER && Sound(g, fat, files) && c in fat && fat[c] == FREE
    ensures Sound(g, fat[c := EOC_MAX], files) && forall k :: 0 <= k < |files| ==> c !in files[k]
  {
    forall k | 0 <= k < |files| ensures c !in files[k] {
      if c in files[k] { InUse(g, fat, files[k], c); }
    }
    OffChain(g, fat, files, c, EOC_MAX);
  }

  /** Linking a fresh cluster behind a chain (or as the first one) extends it by one. */
  lemma {:induction false} Extend(g: Geometry, fat: map<nat, nat>, s: seq<nat>, c: nat)
    requires (s == [] || IsChain(g, fat, s)) && InRange(g, c) && c !in s && c in fat && EOC_MIN <= fat[c] < MASK
    ensures IsChain(g, if s == [] then fat else fat[s[|s| - 1] := c], s + [c])
  {
    var fat' := if s == [] then fat else fat[s[|s| - 1] := c];
    var r := s + [c];
    forall i, j | 0 <= i < j < |r| && j == i + 1 ensures fat'[r[i]] == r[j] {
      assert r[i] == s[i];
      if j < |s| { assert r[j] == s[j] && s[i] != s[|s| - 1]; }
    }
  }

  lemma {:induction false} ExtendKeeps(g: Geometry, fat: map<nat, nat>, files: seq<seq<nat>>, f: nat, c: nat)
    requires Sound(g, fat, files) && f < |files| && InRange(g, c) && c in fat && EOC_MIN <= fat[c] < MASK
    requires forall k :: 0 <= k < |files| ==> c !in files[k]
    ensures var s := files[f];
      Sound(g, if s == [] then fat else fat[s[|s| - 1] := c], files[f := s + [c]])
  {
    var s := files[f];
    var fat' := if s == [] then fat else fat[s[|s| - 1] := c];
    Extend(g, fat, s, c);
    forall k | 0 <= k < |files| && k != f && files[k] != [] ensures IsChain(g, fat', files[k]) {
      if s != [] {
        var l := s[|s| - 1];
        assert l in s;
        assert l !in files[k];
        Elsewhere(g, fat, files[k], l, c);
      }
    }
  }

  // ----- release -----

  ghost predicate Freed(fat: map<nat, nat>, s: seq<nat>, fat': map<nat, nat>)
  {
    fat'.Keys == fat.Keys && forall x :: x in fat ==> fat'[x] == if x in s then FREE else fat[x]
  }

  /** `s` is followed from its start until it cannot go on: at a mark, out of range, at a
      free cluster or at one already met. */
  ghost predicate Trail(g: Geometry, fat: map<nat, nat>, c: nat, s: seq<nat>)
  {
    && NoRepeats(s) && Linked(g, fat, s) && (s != [] ==> s[0] == c)
    && Stops(g, fat, s, if s == [] then c else fat[s[|s| - 1]])
  }

  ghost predicate Stops(g: Geometry, fat: map<nat, nat>, s: seq<nat>, next: nat)
  {
    !InRange(g, next) || (next in fat && fat[next] == FREE) || next in s
  }

  ghost function Used(fat: map<nat, nat>): set<nat>
  {
    set x | x in fat && fat[x] != FREE
  }

  /** The release loop has freed `s` and stands at `cluster`. */
  ghost predicate Following(g: Geometry, fat0: map<nat, nat>, c: nat, s: seq<nat>, fat: map<nat, nat>, cluster: nat)
  {
    && Freed(fat0, s, fat) && NoRepeats(s) && Linked(g, fat0, s) && (s != [] ==> s[0] == c)
    && (cluster == (if s == [] then c else fat0[s[|s| - 1]]) || (cluster == 0 && Trail(g, fat0, c, s)))
  }

  lemma {:induction false} Marks(g: Geometry, next: nat)
    requires g.total <= BAD_CLUSTER && next < MASK && (IsEoc(next) || IsBad(next))
    ensures !InRange(g, next) && next != FREE
  {
  }

  /** One step of the release: a cluster in use is freed, or the walk is over. */
  lemma {:induction false} FreeStep(g: Geometry, fat0: map<nat, nat>, c: nat, s: seq<nat>, fat: map<nat, nat>,
                                    cluster: nat, next: nat, s': seq<nat>, fat': map<nat, nat>)
    requires g.total <= BAD_CLUSTER && Following(g, fat0, c, s, fat, cluster) && InRange(g, cluster) && cluster in fat
    requires next == fat[cluster] < MASK && fat' == fat[cluster := FREE]
      && s' == if next != FREE then s + [cluster] else s
    ensures Following(g, fat0, c, s', fat', next)
    ensures IsEoc(next) || IsBad(next) ==> Trail(g, fat0, c, s')
    ensures Used(fat') < Used(fat) || (Used(fat') == Used(fat) && next == 0)
  {
    if next != FREE {
      assert cluster in Used(fat) && cluster !in Used(fat');
      assert cluster !in s && fat[cluster] == fat0[cluster];
      forall i, j | 0 <= i < j < |s'| && j == i + 1 ensures fat0[s'[i]] == s'[j] {
        assert s'[i] == s[i];
      }
      if IsEoc(next) || IsBad(next) { Marks(g, next); }
    }
  }

  /** fat32_free_cluster: ends on every table, since each step frees a cluster in use or is
      the last, and frees exactly the trail of its argument. */
  method FreeCluster(g: Geometry, disk0: seq<Byte>, c: nat, ghost v0: Volume)
    returns (disk: seq<Byte>, ghost v: Volume, ghost s: seq<nat>)
    requires Shows(g, disk0, v0)
    ensures Shows(g, disk, v) && v.data == v0.data && Trail(g, v0.fat, c, s) && Freed(v0.fat, s, v.fat)
    ensures !InRange(g, c) ==> s == []
  {
    disk, v, s := disk0, v0, [];
    var cluster: nat := c;
    while cluster >= 2 && cluster < g.total
      invariant Shows(g, disk, v) && v.data == v0.data && Following(g, v0.fat, c, s, v.fat, cluster)
      invariant !InRange(g, c) ==> s == [] && cluster == c
      decreases Used(v.fat), cluster
    {
      var next := ReadFat(g, disk, cluster, v);
      var ok;
      ghost var v1, s1 := v, s;
      ok, disk, v := WriteFat(g, disk, cluster, FREE, v);
      s := if next != FREE then s + [cluster] else s;
      FreeStep(g, v0.fat, c, s1, v1.fat, cluster, next, s, v.fat);
      if IsEoc(next) || IsBad(next) {
        break;
      }
      cluster := next;
    }
  }

  /** The trail of the first cluster of a chain is the chain, so releasing a file frees its
      clusters and no others. */
  lemma {:induction false} TrailOfChain(g: Geometry, fat: map<nat, nat>, s: seq<nat>, t: seq<nat>)
    requires g.total <= BAD_CLUSTER && IsChain(g, fat, s) && Trail(g, fat, s[0], t)
    ensures t == s
  {
    SameStart(g, fat, s, t, |t|);
    if |t| < |s| {
      assert s[|t|] in s;
      InUse(g, fat, s, s[|t|]);
    }
  }

  /** A trail cannot leave the chain it starts on. */
  lemma {:induction false} SameStart(g: Geometry, fat: map<nat, nat>, s: seq<nat>, t: seq<nat>, n: nat)
    requires g.total <= BAD_CLUSTER && IsChain(g, fat, s) && Trail(g, fat, s[0], t) && n <= |t|
    ensures n <= |s| && forall i :: 0 <= i < n ==> t[i] == s[i]
  {
    if n > 1 {
      SameStart(g, fat, s, t, n - 1);
      assert t[n - 2] == s[n - 2] && fat[t[n - 2]] == t[n - 1] && t[n - 1] in t;
    }
  }

  /** Releasing one file keeps the others. */
  lemma {:induction false} FreeKeeps(g: Geometry, fat: map<nat, nat>, files: seq<seq<nat>>, f: nat, fat': map<nat, nat>)
    requires Sound(g, fat, files) && f < |files| && Freed(fat, files[f], fat')
    ensures Sound(g, fat', files[f := []])
  {
    forall k | 0 <= k < |files| && k != f && files[k] != [] ensures IsChain(g, fat', files[k]) {
      forall x | x in files[k] ensures x !in files[f] {
      }
      var s := files[k];
      assert forall i :: 0 <= i < |s| ==> s[i] in s;
    }
  }
}

module FatFiles {
  import opened FatVolume
  import opened Sequences
  import opened FatChains

  // ----- the bytes of a chain -----

  ghost predicate Blocks(data: map<nat, seq<Byte>>, s: seq<nat>, size: nat)
  {
    forall x :: x in s ==> x in data && |data[x]| == size
  }

  /** The clusters of a chain, one after the other. */
  ghost function Bytes(data: map<nat, seq<Byte>>, s: seq<nat>): seq<Byte>
  {
    if s == [] then [] else (if s[0] in data then data[s[0]] else []) + Bytes(data, s[1..])
  }

  /** Where the cluster with index `j` starts. */
  ghost function Off(size: nat, j: nat): nat
  {
    if j == 0 then 0 else Off(size, j - 1) + size
  }

  lemma {:induction false} OffIs(size: nat, j: nat)
    ensures Off(size, j) == j * size
  {
    if j > 0 {
      OffIs(size, j - 1);
      assert j * size == (j - 1) * size + size;
    }
  }

  lemma {:induction false} OffMonotone(size: nat, i: nat, j: nat)
    requires i <= j
    ensures Off(size, i) <= Off(size, j) && (i < j ==> Off(size, i) + size <= Off(size, j))
    decreases j
  {
    if i < j { OffMonotone(size, i, j - 1); }
  }

  lemma {:induction false} OffShift(size: nat, j: nat)
    requires j > 0
    ensures Off(size, j) == size + Off(size, j - 1)
  {
  }

  /** Every position lies in one cluster. */
  lemma {:induction false} Locate(size: nat, pos: nat)
    requires size > 0
    ensures pos == Off(size, pos / size) + pos % size && pos % size < size
  {
    OffIs(size, pos / size);
  }

  lemma {:induction false} BytesLength(data: map<nat, seq<Byte>>, s: seq<nat>, size: nat)
    requires Blocks(data, s, size)
    ensures |Bytes(data, s)| == Off(size, |s|)
  {
    if s != [] {
      assert s[0] in s;
      BytesLength(data, s[1..], size);
    }
  }

  lemma {:induction false} BytesElsewhere(data: map<nat, seq<Byte>>, s: seq<nat>, c: nat, d: seq<Byte>)
    requires c !in s
    ensures Bytes(data[c := d], s) == Bytes(data, s)
  {
    if s != [] {
      assert s[0] in s;
      BytesElsewhere(data, s[1..], c, d);
    }
  }

  lemma {:induction false} BytesAppend(data: map<nat, seq<Byte>>, s: seq<nat>, c: nat)
    requires c in data
    ensures Bytes(data, s + [c]) == Bytes(data, s) + data[c]
  {
    var r := s + [c];
    if s == [] {
      assert r[1..] == [];
    } else {
      assert r[0] == s[0] && r[1..] == s[1..] + [c];
      BytesAppend(data, s[1..], c);
    }
  }

  /** Reading inside a cluster is reading the file at the cluster's place. */
  lemma {:induction false} BytesAt(data: map<nat, seq<Byte>>, s: seq<nat>, size: nat, j: nat, i: nat)
    requires Blocks(data, s, size) && j < |s| && i < size
    ensures Off(size, j) + i < |Bytes(data, s)| && Bytes(data, s)[Off(size, j) + i] == data[s[j]][i]
  {
    assert s[0] in s;
    if j > 0 {
      BytesAt(data, s[1..], size, j - 1, i);
      assert s[1..][j - 1] == s[j];
    }
  }

  ghost predicate IsSlice(d: seq<Byte>, b: seq<Byte>, pos: nat)
  {
    pos + |d| <= |b| && forall i :: 0 <= i < |d| ==> d[i] == b[pos + i]
  }

  lemma {:induction false} BytesSlice(data: map<nat, seq<Byte>>, s: seq<nat>, size: nat, j: nat, o: nat, d: seq<Byte>)
    requires Blocks(data, s, size) && j < |s| && o + |d| <= size && s[j] in data && |data[s[j]]| == size
      && d == data[s[j]][o..o + |d|]
    ensures IsSlice(d, Bytes(data, s), Off(size, j) + o)
  {
    BytesLength(data, s, size);
    OffMonotone(size, j, |s|);
    forall i | 0 <= i < |d| ensures d[i] == Bytes(data, s)[Off(size, j) + o + i] {
      BytesAt(data, s, size, j, o + i);
    }
  }

  /** Writing inside a cluster is writing the file at the cluster's place. */
  lemma {:induction false} BytesPatched(data: map<nat, seq<Byte>>, s: seq<nat>, size: nat, j: nat, o: nat,
                                        d: seq<Byte>, b: seq<Byte>)
    requires Blocks(data, s, size) && NoRepeats(s) && j < |s| && s[j] in data && PatchedAt(data[s[j]], b, o, d)
    ensures PatchedAt(Bytes(data, s), Bytes(data[s[j] := b], s), Off(size, j) + o, d)
    decreases j
  {
    assert s[0] in s && s[j] in s;
    var c, t := s[j], s[1..];
    if j == 0 {
      assert c !in t;
      BytesElsewhere(data, t, c, b);
      PatchFront(data[c], b, Bytes(data, t), o, d);
    } else {
      assert t[j - 1] == c && s[0] != c;
      assert NoRepeats(t);
      BytesPatched(data, t, size, j - 1, o, d, b);
      PatchBack(data[s[0]], Bytes(data, t), Bytes(data[c := b], t), Off(size, j - 1) + o, d);
    }
  }

  lemma {:induction false} PatchFront(x: seq<Byte>, x': seq<Byte>, y: seq<Byte>, o: nat, d: seq<Byte>)
    requires PatchedAt(x, x', o, d)
    ensures PatchedAt(x + y, x' + y, o, d)
  {
  }

  lemma {:induction false} PatchBack(x: seq<Byte>, y: seq<Byte>, y': seq<Byte>, o: nat, d: seq<Byte>)
    requires PatchedAt(y, y', o, d)
    ensures PatchedAt(x + y, x + y', |x| + o, d)
  {
    var r, s := x + y, x + y';
    forall i | 0 <= i < |r|
      ensures r[i] == (if i < |x| then x[i] else y[i - |x|]) && s[i] == (if i < |x| then x[i] else y'[i - |x|])
    {
    }
  }

  // ----- files -----

  /** A file: what its directory entry and its open file record. */
  datatype File = File(first: nat, size: nat, pos: nat)

  const WORD: nat := 0x100000000

  /** The file is stored in the chain `s`, which is long enough. */
  ghost predicate FileOn(g: Geometry, v: Volume, f: File, s: seq<nat>)
  {
    && (if s == [] then f.first == 0 else IsChain(g, v.fat, s) && f.first == s[0])
    && f.size <= Off(ClusterSize(g), |s|)
  }

  lemma {:induction false} ChainBlocks(g: Geometry, disk: seq<Byte>, v: Volume, s: seq<nat>)
    requires Shows(g, disk, v) && (s == [] || IsChain(g, v.fat, s))
    ensures Blocks(v.data, s, ClusterSize(g)) && |Bytes(v.data, s)| == Off(ClusterSize(g), |s|)
  {
    forall x | x in s ensures x in v.data && |v.data[x]| == ClusterSize(g) {
      assert ClusterIs(g, disk, x, v.data[x]);
    }
    BytesLength(v.data, s, ClusterSize(g));
  }

  /** The cluster with index `j`, or the mark behind the last one. */
  ghost function Nth(fat: map<nat, nat>, s: seq<nat>, j: nat): nat
    requires s != [] && s[|s| - 1] in fat
  {
    if j < |s| then s[j] else fat[s[|s| - 1]]
  }

  lemma {:induction false} NthStep(g: Geometry, fat: map<nat, nat>, s: seq<nat>, j: nat)
    requires g.total <= BAD_CLUSTER && IsChain(g, fat, s) && j <= |s|
    ensures s[|s| - 1] in fat && (IsEoc(Nth(fat, s, j)) <==> j == |s|)
    ensures j < |s| ==> InRange(g, s[j]) && s[j] in fat && fat[s[j]] == Nth(fat, s, j + 1)
  {
    assert s[|s| - 1] in s;
    if j < |s| {
      assert s[j] in s;
      if j + 1 < |s| { assert fat[s[j]] == s[j + 1]; }
    }
  }

  /** The loop that passes over the clusters before the position. */
  method Skip(g: Geometry, disk: seq<Byte>, first: nat, n: nat, ghost v: Volume, ghost s: seq<nat>)
    returns (cluster: nat, prev: nat)
    requires Shows(g, disk, v) && IsChain(g, v.fat, s) && first == s[0] && n <= |s|
    ensures s[|s| - 1] in v.fat && cluster == Nth(v.fat, s, n) && prev == if n == 0 then 0 else s[n - 1]
  {
    var i: nat := 0;
    cluster, prev := first, 0;
    NthStep(g, v.fat, s, 0);
    while i < n && !IsEoc(cluster)
      invariant i <= n && s[|s| - 1] in v.fat && cluster == Nth(v.fat, s, i) && prev == if i == 0 then 0 else s[i - 1]
    {
      NthStep(g, v.fat, s, i);
      prev := cluster;
      cluster := ReadFat(g, disk, cluster, v);
      i := i + 1;
    }
    NthStep(g, v.fat, s, i);
  }

  // ----- reading -----

  /** The file's contents. */
  ghost function Contents(v: Volume, s: seq<nat>, size: nat): seq<Byte>
  {
    if size <= |Bytes(v.data, s)| then Bytes(v.data, s)[..size] else Bytes(v.data, s)
  }

  /** Up to `count` bytes of `c` from `pos` on. */
  ghost function Slice(c: seq<Byte>, pos: nat, count: nat): seq<Byte>
    requires pos <= |c|
  {
    if count < |c| - pos then c[pos..pos + count] else c[pos..]
  }

  /** The count after it has been cut to the file, in 32-bit arithmetic. */
  function Clipped(pos: nat, size: nat, count: nat): nat
    requires pos < size
  {
    if (pos + count) % WORD > size then size - pos else count
  }

  /** What a read gives: the file is left at its end or at the end of its chain. */
  function ReadLength(pos: nat, size: nat, count: nat, capacity: nat): nat
    requires pos < size <= capacity
  {
    if Clipped(pos, size, count) < capacity - pos then Clipped(pos, size, count) else capacity - pos
  }

  /** It is what the file size allows exactly when the sum does not wrap or the chain ends
      where the file does. */
  lemma {:induction false} ReadLengthExact(pos: nat, size: nat, count: nat, capacity: nat)
    requires pos < size <= capacity && size < WORD && count < WORD
    ensures ReadLength(pos, size, count, capacity) == (if count < size - pos then count else size - pos) <==>
            pos + count < WORD || capacity == size
  {
  }

  /** A read of two bytes of contents that returns 511. */
  lemma {:induction false} ReadsTooFar()
    ensures ReadLength(1, 2, 0xFFFFFFFF, 512) == 511
  {
  }

  /** What is read is the file's contents under exactly that condition. */
  lemma {:induction false} ReadsContents(b: seq<Byte>, pos: nat, size: nat, count: nat)
    requires pos < size <= |b| && size < WORD && count < WORD
    ensures pos + ReadLength(pos, size, count, |b|) <= |b|
    ensures b[pos..pos + ReadLength(pos, size, count, |b|)] == Slice(b[..size], pos, count) <==>
      pos + count < WORD || |b| == size
  {
    ReadLengthExact(pos, size, count, |b|);
    var n := ReadLength(pos, size, count, |b|);
    var (out, c) := (b[pos..pos + n], Slice(b[..size], pos, count));
    assert |c| == if count < size - pos then count else size - pos;
    if n == |c| {
      Prefix(b, pos, n, size);
    }
  }

  lemma {:induction false} Prefix(b: seq<Byte>, pos: nat, n: nat, size: nat)
    requires pos + n <= size <= |b|
    ensures b[pos..pos + n] == b[..size][pos..pos + n]
      && (pos + n == size ==> b[..size][pos..] == b[..size][pos..pos + n])
  {
  }

  /** What a read with bytes left returns: the bytes of the chain from the position on, which
      are the file's contents exactly when the end does not wrap or is the end of the chain. */
  ghost predicate HasRead(g: Geometry, v: Volume, s: seq<nat>, f: File, count: nat, out: seq<Byte>)
  {
    var (b, c) := (Bytes(v.data, s), Contents(v, s, f.size));
    && f.pos < f.size <= |b| == Off(ClusterSize(g), |s|) && |c| == f.size
    && |out| == ReadLength(f.pos, f.size, count, |b|) && f.pos + |out| <= |b| && out == b[f.pos..f.pos + |out|]
    && (out == Slice(c, f.pos, count) <==> f.pos + count < WORD || |b| == f.size)
  }

  lemma {:induction false} ReadIs(g: Geometry, v: Volume, s: seq<nat>, f: File, count: nat, out: seq<Byte>)
    requires f.pos < f.size <= |Bytes(v.data, s)| == Off(ClusterSize(g), |s|) && f.size < WORD && count < WORD
    requires IsSlice(out, Bytes(v.data, s), f.pos) && |out| == ReadLength(f.pos, f.size, count, |Bytes(v.data, s)|)
    ensures HasRead(g, v, s, f, count, out)
  {
    SliceIs(out, Bytes(v.data, s), f.pos);
    ReadsContents(Bytes(v.data, s), f.pos, f.size, count);
  }

  /** The position `n` bytes further on, in 32-bit arithmetic. */
  function Advanced(f: File, n: nat): File
  {
    f.(pos := (f.pos + n) % WORD)
  }

  /** Only the position has changed, and it is `n` bytes further on unless that wraps. */
  ghost predicate HasAdvanced(f0: File, n: nat, f: File)
  {
    f.first == f0.first && f.size == f0.size && (f0.pos + n < 0x100000000 ==> f.pos == f0.pos + n)
  }

  lemma {:induction false} AdvancedTo(f: File, n: nat)
    ensures HasAdvanced(f, n, Advanced(f, n))
  {
  }

  datatype Outcome = Done(n: nat) | NoMemory | NoSpace

  /** fat32_file_read; `memory` says whether the cluster buffer can be allocated. */
  method FileRead(g: Geometry, disk: seq<Byte>, f0: File, count: nat, memory: bool, ghost v: Volume, ghost s: seq<nat>)
    returns (r: Outcome, out: seq<Byte>, f: File)
    requires Shows(g, disk, v) && FileOn(g, v, f0, s) && f0.size < WORD && count < WORD
    ensures f0.pos >= f0.size ==> r == Done(0) && out == [] && f == f0
    ensures f0.pos < f0.size && !memory ==> r == NoMemory && out == [] && f == f0
    ensures f0.pos < f0.size && memory ==>
      r == Done(|out|) && HasRead(g, v, s, f0, count, out) && f == Advanced(f0, |out|) && HasAdvanced(f0, |out|, f)
  {
    f, out := f0, [];
    if f.pos >= f.size {
      return Done(0), out, f;
    }
    var n := Clipped(f.pos, f.size, count);
    var j, o := Position(g, f.pos, |s|);
    var cluster, prev := Skip(g, disk, f.first, j, v, s);
    if !memory {
      return NoMemory, [], f;
    }
    BytesLengthOf(g, disk, v, s, j);
    out := ReadClusters(g, disk, cluster, o, n, v, s, j, f.pos);
    ReadIs(g, v, s, f0, count, out);
    f := Advanced(f, |out|);
    AdvancedTo(f0, |out|);
    r := Done(|out|);
  }

  lemma {:induction false} BytesLengthOf(g: Geometry, disk: seq<Byte>, v: Volume, s: seq<nat>, j: nat)
    requires Shows(g, disk, v) && IsChain(g, v.fat, s) && j <= |s|
    ensures Off(ClusterSize(g), j) <= |Bytes(v.data, s)| == Off(ClusterSize(g), |s|)
    ensures j < |s| ==> Off(ClusterSize(g), j) + ClusterSize(g) <= |Bytes(v.data, s)|
  {
    ChainBlocks(g, disk, v, s);
    OffMonotone(ClusterSize(g), j, |s|);
  }

  lemma {:induction false} SliceIs(d: seq<Byte>, b: seq<Byte>, pos: nat)
    requires IsSlice(d, b, pos)
    ensures d == b[pos..pos + |d|]
  {
  }

  /** The cluster index and the offset inside the cluster of a position of the file. */
  method Position(g: Geometry, pos: nat, ghost n: nat) returns (j: nat, o: nat)
    requires g.spc > 0 && pos <= Off(ClusterSize(g), n)
    ensures pos == Off(ClusterSize(g), j) + o && o < ClusterSize(g) && j <= n && (j == n ==> o == 0)
  {
    j, o := pos / ClusterSize(g), pos % ClusterSize(g);
    Locate(ClusterSize(g), pos);
    if j >= n { OffMonotone(ClusterSize(g), n, j); }
  }

  /** The reading loop has `out` and goes on at offset `o` of the cluster with index `j`. */
  ghost predicate Reading(g: Geometry, v: Volume, s: seq<nat>, n: nat, pos: nat, out: seq<Byte>, cluster: nat, j: nat,
                          o: nat)
  {
    && IsChain(g, v.fat, s) && s[|s| - 1] in v.fat && j <= |s| && cluster == Nth(v.fat, s, j) && o < ClusterSize(g)
    && |out| <= n && IsSlice(out, Bytes(v.data, s), pos)
    && (|out| < n ==> pos + |out| == Off(ClusterSize(g), j) + o && (j == |s| ==> o == 0))
  }

  lemma {:induction false} ReadStep(g: Geometry, v: Volume, s: seq<nat>, n: nat, pos: nat, out: seq<Byte>,
                                    cluster: nat, j: nat, o: nat, d: seq<Byte>, next: nat)
    requires g.total <= BAD_CLUSTER && Reading(g, v, s, n, pos, out, cluster, j, o) && |out| < n && j < |s|
    requires Blocks(v.data, s, ClusterSize(g)) && cluster in v.data && |v.data[cluster]| == ClusterSize(g)
    requires o + |d| <= ClusterSize(g) && d == v.data[cluster][o..o + |d|]
    requires |d| == if ClusterSize(g) - o > n - |out| then n - |out| else ClusterSize(g) - o
    requires cluster in v.fat && next == v.fat[cluster]
    ensures Reading(g, v, s, n, pos, out + d, next, j + 1, 0)
  {
    NthStep(g, v.fat, s, j);
    BytesSlice(v.data, s, ClusterSize(g), j, o, d);
    Append(Bytes(v.data, s), pos, out, d);
    OffShift(ClusterSize(g), j + 1);
  }

  /** The reading loop, from offset `o0` of the cluster with index `j0`. */
  method ReadClusters(g: Geometry, disk: seq<Byte>, cluster0: nat, o0: nat, n: nat, ghost v: Volume,
                      ghost s: seq<nat>, ghost j0: nat, ghost pos: nat)
    returns (out: seq<Byte>)
    requires Shows(g, disk, v) && Reading(g, v, s, n, pos, [], cluster0, j0, o0)
    ensures var b := Bytes(v.data, s);
      |b| == Off(ClusterSize(g), |s|) && IsSlice(out, b, pos) && |out| == if n < |b| - pos then n else |b| - pos
  {
    ghost var j: nat := j0;
    var cluster: nat, o: nat := cluster0, o0;
    out := [];
    ChainBlocks(g, disk, v, s);
    while |out| < n && !IsEoc(cluster)
      invariant Reading(g, v, s, n, pos, out, cluster, j, o)
      decreases |s| - j
    {
      NthStep(g, v.fat, s, j);
      var d := ReadSpan(g, disk, cluster, o, n - |out|, v);
      var next := ReadFat(g, disk, cluster, v);
      ReadStep(g, v, s, n, pos, out, cluster, j, o, d, next);
      out, o, cluster, j := out + d, 0, next, j + 1;
    }
    NthStep(g, v.fat, s, j);
  }

  /** The part of one cluster that is asked for. */
  method ReadSpan(g: Geometry, disk: seq<Byte>, c: nat, o: nat, wanted: nat, ghost v: Volume) returns (d: seq<Byte>)
    requires Shows(g, disk, v) && InRange(g, c) && o < ClusterSize(g)
    ensures |d| == (if ClusterSize(g) - o > wanted then wanted else ClusterSize(g) - o)
    ensures |v.data[c]| == ClusterSize(g) && d == v.data[c][o..o + |d|]
  {
    var ok, buf := ReadCluster(g, disk, c, v);
    var toRead: nat := ClusterSize(g) - o;
    if toRead > wanted {
      toRead := wanted;
    }
    d := buf[o..o + toRead];
  }

  lemma {:induction false} Append(b: seq<Byte>, pos: nat, out: seq<Byte>, d: seq<Byte>)
    requires IsSlice(out, b, pos) && IsSlice(d, b, pos + |out|)
    ensures IsSlice(out + d, b, pos)
  {
  }

  // ----- writing -----

  /** Only the chain that grew from `s0` to `s` has changed, by clusters that were free. */
  ghost predicate Confined(v0: Volume, s0: seq<nat>, v: Volume, s: seq<nat>)
  {
    && v.fat.Keys == v0.fat.Keys && v.data.Keys == v0.data.Keys && s0 <= s
    && (forall x :: x in v0.fat && x !in s ==> v.fat[x] == v0.fat[x])
    && (forall x :: x in v0.data && x !in s ==> v.data[x] == v0.data[x])
    && (forall x :: x in s && x !in s0 ==> x in v0.fat && v0.fat[x] == FREE)
  }

  /** The file `k` of the volume has chain `s`, the other files are as before. */
  ghost predicate Grown(g: Geometry, v0: Volume, files: seq<seq<nat>>, k: nat, v: Volume, s: seq<nat>)
    requires k < |files|
  {
    Sound(g, v.fat, files[k := s]) && Confined(v0, files[k], v, s)
  }

  lemma {:induction false} GrowthKept(g: Geometry, v0: Volume, files: seq<seq<nat>>, k: nat, v: Volume, s: seq<nat>,
                                      c: nat, d: seq<Byte>)
    requires k < |files| && Grown(g, v0, files, k, v, s) && c in s && c in v.data
    ensures Grown(g, v0, files, k, v.(data := v.data[c := d]), s)
  {
  }

  /** The table once `c` has been allocated and linked behind `tail`, if there is one. */
  ghost function Behind(fat: map<nat, nat>, tail: nat, c: nat): map<nat, nat>
  {
    if tail == 0 then fat[c := EOC_MAX] else fat[c := EOC_MAX][tail := c]
  }

  /** Allocation and linking of one more cluster. */
  lemma {:induction false} GrowthByOne(g: Geometry, v0: Volume, files: seq<seq<nat>>, k: nat, v: Volume, s: seq<nat>,
                                       c: nat, v': Volume)
    requires g.total <= BAD_CLUSTER && k < |files| && Grown(g, v0, files, k, v, s)
    requires InRange(g, c) && c in v.fat && v.fat[c] == FREE
    requires v' == v.(fat := Behind(v.fat, if s == [] then 0 else s[|s| - 1], c)) && 0 !in s
    ensures Grown(g, v0, files, k, v', s + [c]) && c !in s
  {
    SoundGrows(g, v.fat, files, k, s, c);
    ConfinedGrows(v0, files[k], v, s, c, v');
  }

  lemma {:induction false} SoundGrows(g: Geometry, fat: map<nat, nat>, files: seq<seq<nat>>, k: nat, s: seq<nat>,
                                      c: nat)
    requires g.total <= BAD_CLUSTER && k < |files| && Sound(g, fat, files[k := s])
    requires InRange(g, c) && c in fat && fat[c] == FREE && 0 !in s
    ensures Sound(g, Behind(fat, if s == [] then 0 else s[|s| - 1], c), files[k := s + [c]]) && c !in s
    ensures s != [] ==> s[|s| - 1] in fat
  {
    var now := files[k := s];
    AllocKeeps(g, fat, now, c);
    ExtendKeeps(g, fat[c := EOC_MAX], now, k, c);
    assert now[k] == s && now[k := s + [c]] == files[k := s + [c]];
    if s != [] { assert s[|s| - 1] in s; }
  }

  lemma {:induction false} ConfinedGrows(v0: Volume, s0: seq<nat>, v: Volume, s: seq<nat>, c: nat, v': Volume)
    requires Confined(v0, s0, v, s) && c in v.fat && c !in s && v.fat[c] == FREE && (s != [] ==> s[|s| - 1] in v.fat)
    requires v' == v.(fat := Behind(v.fat, if s == [] then 0 else s[|s| - 1], c)) && 0 !in s
    ensures Confined(v0, s0, v', s + [c])
  {
    var r := s + [c];
    assert s0 <= r by {
      assert forall i :: 0 <= i < |s0| ==> r[i] == s[i] == s0[i];
    }
    forall x | x in v0.fat && x !in r ensures v'.fat[x] == v0.fat[x] && x !in s {
      assert x !in s && x != c;
      if s != [] { assert s[|s| - 1] in s; }
    }
  }

  /** fat32_alloc_cluster and the fat32_write_fat that links the new cluster behind `tail`. */
  method AllocBehind(g: Geometry, disk0: seq<Byte>, tail: nat, ghost v0: Volume)
    returns (c: nat, disk: seq<Byte>, ghost v: Volume)
    requires Shows(g, disk0, v0) && (tail == 0 || InRange(g, tail))
    ensures Shows(g, disk, v)
    ensures c == 0 ==> disk == disk0 && v == v0 && Full(g, v0.fat)
    ensures c != 0 ==> InRange(g, c) && c in v0.fat && v0.fat[c] == FREE
    ensures c != 0 ==> v == v0.(fat := Behind(v0.fat, tail, c))
  {
    c, disk, v := AllocCluster(g, disk0, v0);
    if c != 0 && tail > 0 {
      var ok;
      Small(c);
      ok, disk, v := WriteFat(g, disk, tail, c, v);
    }
  }

  /** One more cluster for the file `k`. */
  method Grow(g: Geometry, disk0: seq<Byte>, tail: nat, ghost v1: Volume, ghost v0: Volume,
              ghost files: seq<seq<nat>>, ghost k: nat, ghost s0: seq<nat>)
    returns (c: nat, disk: seq<Byte>, ghost v: Volume)
    requires Shows(g, disk0, v0) && k < |files| && Grown(g, v1, files, k, v0, s0)
      && tail == if s0 == [] then 0 else s0[|s0| - 1]
    ensures Shows(g, disk, v) && v.data == v0.data
    ensures c == 0 ==> disk == disk0 && v == v0 && Full(g, v0.fat)
    ensures c != 0 ==> Grown(g, v1, files, k, v, s0 + [c]) && InRange(g, c) && c !in s0
  {
    TailInRange(g, v0.fat, files, k, s0);
    c, disk, v := AllocBehind(g, disk0, tail, v0);
    if c != 0 {
      GrowthByOne(g, v1, files, k, v0, s0, c, v);
    }
  }

  lemma {:induction false} TailInRange(g: Geometry, fat: map<nat, nat>, files: seq<seq<nat>>, k: nat, s: seq<nat>)
    requires k < |files| && Sound(g, fat, files[k := s])
    ensures s == [] || (IsChain(g, fat, s) && InRange(g, s[|s| - 1]))
    ensures 0 !in s
  {
    assert files[k := s][k] == s;
    if s != [] { assert s[|s| - 1] in s; }
  }

  /** The clusters of the file hold the old bytes with the first `w` of `buf` at `pos`. */
  ghost predicate Written(b: seq<Byte>, old0: seq<Byte>, pos: nat, w: nat, buf: seq<Byte>, size: nat)
  {
    && pos <= size <= |old0| && size <= |b| && pos + w <= |b| && w <= |buf|
    && (forall i :: 0 <= i < pos ==> b[i] == old0[i])
    && (forall i :: pos <= i < pos + w ==> b[i] == buf[i - pos])
    && (forall i :: pos + w <= i < size ==> b[i] == old0[i])
  }

  lemma {:induction false} WrittenMore(b: seq<Byte>, old0: seq<Byte>, pos: nat, w: nat, buf: seq<Byte>, size: nat,
                                       n: nat, b': seq<Byte>)
    requires Written(b, old0, pos, w, buf, size) && w + n <= |buf| && PatchedAt(b, b', pos + w, buf[w..w + n])
    ensures Written(b', old0, pos, w + n, buf, size)
  {
    var d := buf[w..w + n];
    forall i | pos + w <= i < pos + w + n ensures b'[i] == buf[i - pos] {
      assert b'[i] == d[i - (pos + w)];
    }
  }

  lemma {:induction false} WrittenLonger(b: seq<Byte>, old0: seq<Byte>, pos: nat, w: nat, buf: seq<Byte>, size: nat,
                                         d: seq<Byte>)
    requires Written(b, old0, pos, w, buf, size)
    ensures Written(b + d, old0, pos, w, buf, size)
  {
  }

  /** `c` with `d` laid over it at `pos`, longer if need be. */
  ghost function Overlay(c: seq<Byte>, pos: nat, d: seq<Byte>): seq<Byte>
    requires pos <= |c|
  {
    c[..pos] + d + if pos + |d| <= |c| then c[pos + |d|..] else []
  }

  ghost predicate Overwritten(c: seq<Byte>, pos: nat, d: seq<Byte>, c': seq<Byte>)
  {
    pos <= |c| && c' == Overlay(c, pos, d)
  }

  lemma {:induction false} WrittenIsOverlay(b: seq<Byte>, old0: seq<Byte>, pos: nat, w: nat, buf: seq<Byte>, size: nat)
    requires Written(b, old0, pos, w, buf, size)
    ensures var size' := if pos + w > size then pos + w else size;
      size' <= |b| && b[..size'] == Overlay(old0[..size], pos, buf[..w])
  {
    var size' := if pos + w > size then pos + w else size;
    var r := Overlay(old0[..size], pos, buf[..w]);
    assert |r| == size';
    forall i | 0 <= i < size' ensures b[i] == r[i] {
      if i < pos {
        assert r[i] == old0[..size][i];
      } else if i < pos + w {
        assert r[i] == buf[..w][i - pos];
      } else {
        assert r[i] == old0[..size][pos + w..][i - (pos + w)];
      }
    }
  }

  /** The part of the writing loop that changes one cluster.  The old contents are read only
      if they survive in part; otherwise the buffer holds `stale` bytes. */
  method WriteSpan(g: Geometry, disk0: seq<Byte>, c: nat, o: nat, d: seq<Byte>, partial: bool, stale: seq<Byte>,
                   ghost v0: Volume)
    returns (disk: seq<Byte>, ghost v: Volume, ghost b: seq<Byte>)
    requires Shows(g, disk0, v0) && InRange(g, c) && |stale| == ClusterSize(g) && o + |d| <= ClusterSize(g)
    requires !partial ==> o == 0 && |d| == ClusterSize(g)
    ensures Shows(g, disk, v) && c in v0.data && v == v0.(data := v0.data[c := b]) && PatchedAt(v0.data[c], b, o, d)
  {
    var ok, cluster := ReadCluster(g, disk0, c, v0);
    var buf := if partial then cluster else stale;
    buf := Patch(buf, o, d);
    b := buf;
    ok, disk, v := WriteCluster(g, disk0, c, buf, v0);
  }

  /** The writing loop has written `w` bytes and goes on at offset `o` of cluster `s[j]`. */
  ghost predicate Writing(g: Geometry, v0: Volume, files: seq<seq<nat>>, k: nat, pos: nat, size: nat, buf: seq<Byte>,
                          v: Volume, s: seq<nat>, w: nat, j: nat, o: nat)
    requires k < |files|
  {
    && Grown(g, v0, files, k, v, s) && Blocks(v.data, s, ClusterSize(g))
    && Written(Bytes(v.data, s), Bytes(v0.data, files[k]), pos, w, buf, size)
    && j < |s| && o < ClusterSize(g) && pos + w == Off(ClusterSize(g), j) + o
  }

  lemma {:induction false} WriteStep(g: Geometry, v0: Volume, files: seq<seq<nat>>, k: nat, pos: nat, size: nat,
                                     buf: seq<Byte>, v: Volume, s: seq<nat>, w: nat, j: nat, o: nat,
                                     n: nat, b: seq<Byte>, v': Volume)
    requires k < |files| && Writing(g, v0, files, k, pos, size, buf, v, s, w, j, o) && w + n <= |buf|
      && o + n <= ClusterSize(g)
    requires s[j] in v.data && PatchedAt(v.data[s[j]], b, o, buf[w..w + n]) && v' == v.(data := v.data[s[j] := b])
    ensures Grown(g, v0, files, k, v', s) && Blocks(v'.data, s, ClusterSize(g))
    ensures Written(Bytes(v'.data, s), Bytes(v0.data, files[k]), pos, w + n, buf, size)
  {
    assert s[j] in s;
    TailInRange(g, v.fat, files, k, s);
    GrowthKept(g, v0, files, k, v, s, s[j], b);
    SpanWritten(v.data, s, ClusterSize(g), j, o, b, Bytes(v0.data, files[k]), pos, w, buf, size, n);
  }

  lemma {:induction false} SpanWritten(data: map<nat, seq<Byte>>, s: seq<nat>, c: nat, j: nat, o: nat, b: seq<Byte>,
                                       old0: seq<Byte>, pos: nat, w: nat, buf: seq<Byte>, size: nat, n: nat)
    requires Blocks(data, s, c) && NoRepeats(s) && j < |s| && s[j] in data && w + n <= |buf| && pos + w == Off(c, j) + o
    requires PatchedAt(data[s[j]], b, o, buf[w..w + n]) && Written(Bytes(data, s), old0, pos, w, buf, size)
    ensures Blocks(data[s[j] := b], s, c) && Written(Bytes(data[s[j] := b], s), old0, pos, w + n, buf, size)
  {
    assert s[j] in s;
    BytesPatched(data, s, c, j, o, buf[w..w + n], b);
    WrittenMore(Bytes(data, s), old0, pos, w, buf, size, n, Bytes(data[s[j] := b], s));
  }

  lemma {:induction false} WriteGrows(g: Geometry, disk: seq<Byte>, v0: Volume, files: seq<seq<nat>>, k: nat,
                                      pos: nat, size: nat, buf: seq<Byte>, v: Volume, s: seq<nat>, w: nat,
                                      c: nat, v': Volume)
    requires k < |files| && Shows(g, disk, v') && Grown(g, v0, files, k, v', s + [c]) && v'.data == v.data
      && InRange(g, c)
    requires Blocks(v.data, s, ClusterSize(g)) && Written(Bytes(v.data, s), Bytes(v0.data, files[k]), pos, w, buf, size)
    ensures Blocks(v'.data, s + [c], ClusterSize(g))
      && Written(Bytes(v'.data, s + [c]), Bytes(v0.data, files[k]), pos, w, buf, size)
  {
    assert ClusterIs(g, disk, c, v'.data[c]);
    BytesAppend(v.data, s, c);
    WrittenLonger(Bytes(v.data, s), Bytes(v0.data, files[k]), pos, w, buf, size, v.data[c]);
  }

  /** What the writing loop keeps between its steps. */
  ghost predicate Stored(g: Geometry, v0: Volume, files: seq<seq<nat>>, k: nat, pos: nat, size: nat, buf: seq<Byte>,
                         v: Volume, s: seq<nat>, w: nat)
    requires k < |files|
  {
    && Grown(g, v0, files, k, v, s) && Blocks(v.data, s, ClusterSize(g))
    && Written(Bytes(v.data, s), Bytes(v0.data, files[k]), pos, w, buf, size)
  }

  /** The end of the loop body: the next cluster of the chain, or a new one behind it. */
  method Advance(g: Geometry, disk0: seq<Byte>, cluster0: nat, ghost v0: Volume, ghost files: seq<seq<nat>>,
                 ghost k: nat, ghost pos: nat, ghost size: nat, ghost buf: seq<Byte>,
                 ghost v1: Volume, ghost s1: seq<nat>, ghost w: nat, ghost j: nat)
    returns (cluster: nat, disk: seq<Byte>, ghost v: Volume, ghost s: seq<nat>)
    requires k < |files| && Shows(g, disk0, v1) && Stored(g, v0, files, k, pos, size, buf, v1, s1, w)
    requires j < |s1| && cluster0 == s1[j]
    ensures Shows(g, disk, v) && Stored(g, v0, files, k, pos, size, buf, v, s, w)
    ensures cluster == 0 ==> v == v1 && s == s1 && Full(g, v.fat) && j + 1 == |s|
    ensures cluster != 0 ==> j + 1 < |s| && cluster == s[j + 1] && s[0] == s1[0]
  {
    disk, v, s := disk0, v1, s1;
    TailInRange(g, v1.fat, files, k, s1);
    NthStep(g, v1.fat, s1, j);
    NthStep(g, v1.fat, s1, j + 1);
    cluster := ReadFat(g, disk, cluster0, v);
    if IsEoc(cluster) {
      cluster, disk, v := Grow(g, disk, cluster0, v0, v, files, k, s);
      if cluster != 0 {
        WriteGrows(g, disk, v0, files, k, pos, size, buf, v1, s, w, cluster, v);
        s := s + [cluster];
      }
    }
  }

  /** The first part of the loop body: as much as fits into the cluster. */
  method WriteOne(g: Geometry, disk0: seq<Byte>, cluster: nat, o: nat, buf: seq<Byte>, w: nat, stale: seq<Byte>,
                  ghost v0: Volume, ghost files: seq<seq<nat>>, ghost k: nat, ghost pos: nat, ghost size: nat,
                  ghost v1: Volume, ghost s: seq<nat>, ghost j: nat)
    returns (n: nat, disk: seq<Byte>, ghost v: Volume)
    requires k < |files| && Shows(g, disk0, v1) && Writing(g, v0, files, k, pos, size, buf, v1, s, w, j, o)
      && cluster == s[j] && w < |buf|
    requires |stale| == ClusterSize(g)
    ensures n == (if ClusterSize(g) - o > |buf| - w then |buf| - w else ClusterSize(g) - o)
    ensures Shows(g, disk, v) && Stored(g, v0, files, k, pos, size, buf, v, s, w + n)
  {
    var remaining := |buf| - w;
    var partial := o > 0 || remaining < ClusterSize(g) - o;
    n := ClusterSize(g) - o;
    if n > remaining {
      n := remaining;
    }
    ghost var b;
    TailInRange(g, v1.fat, files, k, s);
    NthStep(g, v1.fat, s, j);
    disk, v, b := WriteSpan(g, disk0, cluster, o, buf[w..w + n], partial, stale, v1);
    WriteStep(g, v0, files, k, pos, size, buf, v1, s, w, j, o, n, b, v);
  }

  /** One turn of the writing loop; the next cluster is 0 when all is written or the disk is full. */
  method WriteTurn(g: Geometry, disk0: seq<Byte>, cluster0: nat, o: nat, buf: seq<Byte>, w0: nat, stale: seq<Byte>,
                   ghost v0: Volume, ghost files: seq<seq<nat>>, ghost k: nat, ghost pos: nat, ghost size: nat,
                   ghost v1: Volume, ghost s1: seq<nat>, ghost j0: nat)
    returns (w: nat, cluster: nat, disk: seq<Byte>, ghost v: Volume, ghost s: seq<nat>, ghost j: nat)
    requires k < |files| && Shows(g, disk0, v1) && Writing(g, v0, files, k, pos, size, buf, v1, s1, w0, j0, o)
      && cluster0 == s1[j0] && w0 < |buf|
    requires |stale| == ClusterSize(g)
    ensures Shows(g, disk, v) && Stored(g, v0, files, k, pos, size, buf, v, s, w) && w0 < w <= |buf| && s != []
      && s[0] == s1[0]
    ensures cluster == 0 ==> w == |buf| || (w < |buf| && Full(g, v.fat) && pos + w == Off(ClusterSize(g), |s|))
    ensures cluster != 0 && w < |buf| ==> Writing(g, v0, files, k, pos, size, buf, v, s, w, j, 0) && cluster == s[j]
  {
    var n;
    n, disk, v := WriteOne(g, disk0, cluster0, o, buf, w0, stale, v0, files, k, pos, size, v1, s1, j0);
    w, cluster, s, j := w0 + n, 0, s1, j0 + 1;
    if w < |buf| {
      OffShift(ClusterSize(g), j);
      cluster, disk, v, s := Advance(g, disk, cluster0, v0, files, k, pos, size, buf, v, s, w, j0);
    }
  }

  /** The writing loop: everything is written, or the disk is full. */
  method WriteClusters(g: Geometry, disk0: seq<Byte>, cluster0: nat, o0: nat, buf: seq<Byte>, stale: seq<Byte>,
                       ghost v0: Volume, ghost files: seq<seq<nat>>, ghost k: nat, ghost pos: nat, ghost size: nat,
                       ghost v1: Volume, ghost s1: seq<nat>, ghost j0: nat)
    returns (w: nat, disk: seq<Byte>, ghost v: Volume, ghost s: seq<nat>)
    requires k < |files| && Shows(g, disk0, v1) && Writing(g, v0, files, k, pos, size, buf, v1, s1, 0, j0, o0)
      && cluster0 == s1[j0]
    requires |stale| == ClusterSize(g)
    ensures Shows(g, disk, v) && Stored(g, v0, files, k, pos, size, buf, v, s, w) && s != [] && s[0] == s1[0]
    ensures w == |buf| || (w < |buf| && Full(g, v.fat) && pos + w == Off(ClusterSize(g), |s|))
  {
    w, disk, v, s := 0, disk0, v1, s1;
    var cluster: nat, o: nat := cluster0, o0;
    ghost var j: nat := j0;
    while w < |buf|
      invariant Shows(g, disk, v) && Stored(g, v0, files, k, pos, size, buf, v, s, w) && w <= |buf| && s != []
        && s[0] == s1[0]
      invariant w < |buf| ==> Writing(g, v0, files, k, pos, size, buf, v, s, w, j, o) && cluster == s[j]
      decreases |buf| - w
    {
      w, cluster, disk, v, s, j := WriteTurn(g, disk, cluster, o, buf, w, stale, v0, files, k, pos, size, v, s, j);
      if cluster == 0 {
        break;
      }
      o := 0;
    }
  }

  lemma {:induction false} NothingWritten(g: Geometry, disk: seq<Byte>, v: Volume, files: seq<seq<nat>>, k: nat,
                                          f: File, buf: seq<Byte>)
    requires Shows(g, disk, v) && Sound(g, v.fat, files) && k < |files| && FileOn(g, v, f, files[k]) && f.pos <= f.size
    ensures Stored(g, v, files, k, f.pos, f.size, buf, v, files[k], 0)
  {
    assert files[k := files[k]] == files;
    ChainBlocks(g, disk, v, files[k]);
  }

  /** The first cluster, for a file that has none. */
  method FirstCluster(g: Geometry, disk0: seq<Byte>, f: File, ghost buf: seq<Byte>, ghost v0: Volume,
                      ghost files: seq<seq<nat>>, ghost k: nat)
    returns (first: nat, disk: seq<Byte>, ghost v: Volume, ghost s: seq<nat>)
    requires Shows(g, disk0, v0) && Sound(g, v0.fat, files) && k < |files| && FileOn(g, v0, f, files[k])
      && f.pos <= f.size
    ensures Shows(g, disk, v) && Stored(g, v0, files, k, f.pos, f.size, buf, v, s, 0)
    ensures first == 0 ==> disk == disk0 && v == v0 && s == files[k] && Full(g, v0.fat)
    ensures first != 0 ==> s != [] && first == s[0]
    ensures files[k] != [] ==> first != 0 && disk == disk0 && v == v0 && s == files[k]
  {
    first, disk, v, s := f.first, disk0, v0, files[k];
    NothingWritten(g, disk0, v0, files, k, f, buf);
    TailInRange(g, v0.fat, files, k, s);
    if first == 0 {
      first, disk, v := Grow(g, disk0, 0, v0, v0, files, k, s);
      if first != 0 {
        WriteGrows(g, disk, v0, files, k, f.pos, f.size, buf, v0, s, 0, first, v);
        s := s + [first];
      }
    }
  }

  /** The cluster of the position, which may have to be the first one behind the chain. */
  method Seek(g: Geometry, disk0: seq<Byte>, first: nat, pos: nat, ghost size: nat, ghost buf: seq<Byte>,
              ghost v0: Volume, ghost files: seq<seq<nat>>, ghost k: nat, ghost v1: Volume, ghost s1: seq<nat>)
    returns (cluster: nat, o: nat, disk: seq<Byte>, ghost v: Volume, ghost s: seq<nat>, ghost j: nat)
    requires k < |files| && Shows(g, disk0, v1) && Stored(g, v0, files, k, pos, size, buf, v1, s1, 0)
    requires s1 != [] && first == s1[0]
    ensures Shows(g, disk, v) && Stored(g, v0, files, k, pos, size, buf, v, s, 0) && s != [] && s[0] == first
    ensures cluster == 0 ==>
      disk == disk0 && v == v1 && s == s1 && Full(g, v1.fat) && |s1| > 0 && pos == Off(ClusterSize(g), |s1|)
    ensures cluster != 0 ==> j < |s| && cluster == s[j] && Writing(g, v0, files, k, pos, size, buf, v, s, 0, j, o)
  {
    disk, v, s := disk0, v1, s1;
    TailInRange(g, v1.fat, files, k, s1);
    BytesLengthOf(g, disk0, v1, s1, 0);
    var n;
    n, o := Position(g, pos, |s1|);
    j := n;
    var prev;
    cluster, prev := Skip(g, disk, first, n, v, s);
    NthStep(g, v1.fat, s1, j);
    if IsEoc(cluster) && n > 0 {
      cluster, disk, v := Grow(g, disk, prev, v0, v, files, k, s);
      if cluster != 0 {
        WriteGrows(g, disk, v0, files, k, pos, size, buf, v1, s, 0, cluster, v);
        s := s + [cluster];
      }
    }
  }

  /** Everything before the writing loop. */
  method Begin(g: Geometry, disk0: seq<Byte>, f0: File, ghost buf: seq<Byte>, ghost v0: Volume,
               ghost files: seq<seq<nat>>, ghost k: nat)
    returns (cluster: nat, o: nat, disk: seq<Byte>, f: File, ghost v: Volume, ghost s: seq<nat>, ghost j: nat)
    requires Shows(g, disk0, v0) && Sound(g, v0.fat, files) && k < |files| && FileOn(g, v0, f0, files[k])
      && f0.pos <= f0.size
    ensures Shows(g, disk, v) && Stored(g, v0, files, k, f0.pos, f0.size, buf, v, s, 0)
    ensures cluster == 0 ==> disk == disk0 && v == v0 && s == files[k] && f == f0 && Full(g, v0.fat)
    ensures cluster == 0 ==> f0.pos == Off(ClusterSize(g), |s|)
    ensures cluster != 0 ==> j < |s| && cluster == s[j] && Writing(g, v0, files, k, f0.pos, f0.size, buf, v, s, 0, j, o)
    ensures cluster != 0 ==> f == f0.(first := s[0])
  {
    o, j, f := 0, 0, f0;
    cluster, disk, v, s := FirstCluster(g, disk0, f0, buf, v0, files, k);
    if cluster != 0 {
      f := f.(first := cluster);
      cluster, o, disk, v, s, j := Seek(g, disk, f.first, f0.pos, f0.size, buf, v0, files, k, v, s);
      OffMonotone(ClusterSize(g), 1, |s|);
      assert Off(ClusterSize(g), 1) == Off(ClusterSize(g), 0) + ClusterSize(g);
    }
  }

  // ----- how much can be written -----

  ghost function FreeSet(fat: map<nat, nat>): set<nat>
  {
    set x | x in fat && fat[x] == FREE
  }

  /** The bytes from `pos` to the end of the chain `s` once all free clusters have been added. */
  ghost function Space(g: Geometry, fat: map<nat, nat>, s: seq<nat>, pos: nat): int
  {
    Off(ClusterSize(g), |s| + |FreeSet(fat)|) - pos
  }

  /** A chain grows by free clusters and by nothing else. */
  lemma {:induction false} ClustersConserved(g: Geometry, v0: Volume, files: seq<seq<nat>>, k: nat, v: Volume,
                                             s: seq<nat>)
    requires g.total <= BAD_CLUSTER && Sound(g, v0.fat, files) && k < |files| && Grown(g, v0, files, k, v, s)
    ensures |FreeSet(v.fat)| + |s| == |FreeSet(v0.fat)| + |files[k]|
  {
    var (s0, t) := (files[k], s[|files[k]|..]);
    TailInRange(g, v.fat, files, k, s);
    forall x | x in s ensures x in v.fat && v.fat[x] != FREE { InUse(g, v.fat, s, x); }
    forall x | x in s0 ensures x in v0.fat && v0.fat[x] != FREE { InUse(g, v0.fat, s0, x); }
    GrownTail(s0, s, t);
    assert FreeSet(v.fat) == FreeSet(v0.fat) - Elements(t) && Elements(t) <= FreeSet(v0.fat);
  }

  lemma {:induction false} GrownTail(s0: seq<nat>, s: seq<nat>, t: seq<nat>)
    requires s0 <= s && t == s[|s0|..] && (s == [] || NoRepeats(s))
    ensures |Elements(t)| == |s| - |s0|
    ensures forall x :: x in s <==> x in s0 || x in t
    ensures forall x :: x in t ==> x !in s0
  {
    assert s == s0 + t;
    assert NoRepeats(t);
    ElementCount(t);
    forall x | x in t ensures x !in s0 {
      var j :| 0 <= j < |t| && t[j] == x;
      assert s[|s0| + j] == x;
    }
  }

  /** `w` bytes are all that was asked for, or all there is space for. */
  lemma {:induction false} AllSpaceUsed(g: Geometry, v0: Volume, files: seq<seq<nat>>, k: nat, v: Volume, s: seq<nat>,
                                        pos: nat, w: nat, n: nat)
    requires g.total <= BAD_CLUSTER && Sound(g, v0.fat, files) && k < |files| && Grown(g, v0, files, k, v, s)
    requires pos + w <= Off(ClusterSize(g), |s|)
    requires w == n || (w < n && Full(g, v.fat) && pos + w == Off(ClusterSize(g), |s|))
    ensures w == if n < Space(g, v0.fat, files[k], pos) then n else Space(g, v0.fat, files[k], pos)
  {
    ClustersConserved(g, v0, files, k, v, s);
    OffMonotone(ClusterSize(g), |s|, |files[k]| + |FreeSet(v0.fat)|);
    if w < n { assert FreeSet(v.fat) == {}; }
  }

  lemma {:induction false} NoSpaceLeft(g: Geometry, fat: map<nat, nat>, s: seq<nat>, pos: nat)
    requires Full(g, fat) && pos == Off(ClusterSize(g), |s|)
    ensures Space(g, fat, s, pos) == 0
  {
    assert FreeSet(fat) == {};
  }

  lemma {:induction false} SomeSpaceLeft(g: Geometry, v0: Volume, files: seq<seq<nat>>, k: nat, v: Volume,
                                         s: seq<nat>, j: nat, o: nat, pos: nat)
    requires g.total <= BAD_CLUSTER && Sound(g, v0.fat, files) && k < |files| && Grown(g, v0, files, k, v, s)
    requires j < |s| && o < ClusterSize(g) && pos == Off(ClusterSize(g), j) + o
    ensures Space(g, v0.fat, files[k], pos) > 0
  {
    ClustersConserved(g, v0, files, k, v, s);
    OffMonotone(ClusterSize(g), j, |files[k]| + |FreeSet(v0.fat)|);
  }

  /** The file record after `w` bytes have been written, in 32-bit arithmetic. */
  function Moved(f: File, w: nat): File
  {
    var end := (f.pos + w) % WORD;
    File(f.first, if end > f.size then end else f.size, end)
  }

  lemma {:induction false} MovedTo(f: File, w: nat)
    ensures Moved(f, w).pos <= f.pos + w && (f.pos + w < WORD ==> Moved(f, w).pos == f.pos + w)
    ensures Moved(f, w).size == (if Moved(f, w).pos > f.size then Moved(f, w).pos else f.size)
      && Moved(f, w).first == f.first
  {
  }

  /** What a write of `buf` that reports `n` bytes has done: all of `buf` or all there is space for
      is in the chain at the position, and it is in the contents exactly when the end does not
      wrap. */
  ghost predicate HasWritten(g: Geometry, v0: Volume, s0: seq<nat>, f0: File, buf: seq<Byte>, v: Volume,
                             s: seq<nat>, f: File, n: nat)
  {
    var space := Space(g, v0.fat, s0, f0.pos);
    && n <= |buf| && n == (if |buf| < space then |buf| else space) && Holds(Bytes(v.data, s), f0.pos, buf[..n])
    && f == Moved(f0.(first := f.first), n)
    && (f0.size < WORD ==>
        (Overwritten(Contents(v0, s0, f0.size), f0.pos, buf[..n], Contents(v, s, f.size)) <==> f0.pos + n < WORD))
  }

  /** fat32_file_write, at a position inside the file or at its end.  `memory` says whether
      the cluster buffer can be allocated and `stale` what it then holds.  Without space for
      the position nothing changes; otherwise the contents are overlaid by what was written,
      which is everything there is space for, and no other cluster is touched. */
  method FileWrite(g: Geometry, disk0: seq<Byte>, f0: File, buf: seq<Byte>, memory: bool, stale: seq<Byte>,
                   ghost v0: Volume, ghost files: seq<seq<nat>>, ghost k: nat)
    returns (r: Outcome, disk: seq<Byte>, f: File, ghost v: Volume, ghost s: seq<nat>)
    requires Shows(g, disk0, v0) && Sound(g, v0.fat, files) && k < |files| && FileOn(g, v0, f0, files[k])
      && f0.pos <= f0.size
    requires |stale| == ClusterSize(g)
    ensures Shows(g, disk, v) && Grown(g, v0, files, k, v, s) && FileOn(g, v, f, s)
    ensures r.NoSpace? <==> Space(g, v0.fat, files[k], f0.pos) == 0
    ensures r.Done? ==> memory
    ensures r.NoSpace? ==> disk == disk0 && v == v0 && s == files[k] && f == f0
    ensures r.NoMemory? ==>
      !memory && f == f0.(first := f.first) && Contents(v, s, f.size) == Contents(v0, files[k], f0.size)
    ensures r.Done? ==> HasWritten(g, v0, files[k], f0, buf, v, s, f, r.n)
  {
    var cluster, o;
    ghost var j;
    cluster, o, disk, f, v, s, j := Begin(g, disk0, f0, buf, v0, files, k);
    if cluster == 0 {
      NoSpaceLeft(g, v0.fat, files[k], f0.pos);
      return NoSpace, disk, f, v, s;
    }
    SomeSpaceLeft(g, v0, files, k, v, s, j, o, f0.pos);
    if !memory {
      Fits(g, v0, files, k, f0.pos, f0.size, buf, v, s, 0);
      Unwritten(g, v0, files, k, f0.pos, f0.size, buf, v, s);
      return NoMemory, disk, f, v, s;
    }
    var w;
    w, disk, f, v, s := WriteRest(g, disk, f, cluster, o, buf, stale, f0, v0, files, k, v, s, j);
    r := Done(w);
  }

  /** The writing loop and what follows it. */
  method WriteRest(g: Geometry, disk0: seq<Byte>, f1: File, cluster: nat, o: nat, buf: seq<Byte>, stale: seq<Byte>,
                   ghost f0: File, ghost v0: Volume, ghost files: seq<seq<nat>>, ghost k: nat, ghost v1: Volume,
                   ghost s1: seq<nat>, ghost j: nat)
    returns (w: nat, disk: seq<Byte>, f: File, ghost v: Volume, ghost s: seq<nat>)
    requires k < |files| && Sound(g, v0.fat, files) && Shows(g, disk0, v1) && |stale| == ClusterSize(g)
    requires Writing(g, v0, files, k, f0.pos, f0.size, buf, v1, s1, 0, j, o) && cluster == s1[j]
    requires f1 == f0.(first := s1[0])
    ensures Shows(g, disk, v) && Grown(g, v0, files, k, v, s) && FileOn(g, v, f, s)
    ensures HasWritten(g, v0, files[k], f0, buf, v, s, f, w)
  {
    w, disk, v, s := WriteClusters(g, disk0, cluster, o, buf, stale, v0, files, k, f0.pos, f0.size, v1, s1, j);
    Fits(g, v0, files, k, f0.pos, f0.size, buf, v, s, w);
    AllSpaceUsed(g, v0, files, k, v, s, f0.pos, w, |buf|);
    MovedTo(f1, w);
    f := Moved(f1, w);
    Finished(g, v0, files, k, f0, buf, v, s, w, f);
  }

  lemma {:induction false} Fits(g: Geometry, v0: Volume, files: seq<seq<nat>>, k: nat, pos: nat, size: nat,
                                buf: seq<Byte>, v: Volume, s: seq<nat>, w: nat)
    requires k < |files| && Stored(g, v0, files, k, pos, size, buf, v, s, w) && s != []
    ensures IsChain(g, v.fat, s) && pos + w <= Off(ClusterSize(g), |s|) && size <= Off(ClusterSize(g), |s|)
  {
    TailInRange(g, v.fat, files, k, s);
    BytesLength(v.data, s, ClusterSize(g));
  }

  lemma {:induction false} Unwritten(g: Geometry, v0: Volume, files: seq<seq<nat>>, k: nat, pos: nat, size: nat,
                                     buf: seq<Byte>, v: Volume, s: seq<nat>)
    requires k < |files| && Stored(g, v0, files, k, pos, size, buf, v, s, 0)
    ensures Contents(v, s, size) == Contents(v0, files[k], size)
  {
    var a, b := Bytes(v.data, s), Bytes(v0.data, files[k]);
    assert a[..size] == b[..size];
  }

  lemma {:induction false} Finished(g: Geometry, v0: Volume, files: seq<seq<nat>>, k: nat, f0: File,
                                    buf: seq<Byte>, v: Volume, s: seq<nat>, w: nat, f: File)
    requires k < |files| && Stored(g, v0, files, k, f0.pos, f0.size, buf, v, s, w)
    requires f == Moved(f0.(first := f.first), w) && f.size <= |Bytes(v.data, s)|
    requires w == var n := Space(g, v0.fat, files[k], f0.pos); if |buf| < n then |buf| else n
    ensures HasWritten(g, v0, files[k], f0, buf, v, s, f, w)
  {
    var (b, old0) := (Bytes(v.data, s), Bytes(v0.data, files[k]));
    WrittenHolds(b, old0, f0.pos, w, buf, f0.size);
    if f0.size < WORD { EndMatters(b, old0, f0.pos, w, buf, f0.size, f.size); }
  }

  lemma {:induction false} WrittenHolds(b: seq<Byte>, old0: seq<Byte>, pos: nat, w: nat, buf: seq<Byte>, size: nat)
    requires Written(b, old0, pos, w, buf, size)
    ensures w <= |buf| && Holds(b, pos, buf[..w])
  {
  }

  /** The new size takes in what was written exactly when the end does not wrap. */
  lemma {:induction false} EndMatters(b: seq<Byte>, old0: seq<Byte>, pos: nat, w: nat, buf: seq<Byte>, size: nat,
                                      size': nat)
    requires Written(b, old0, pos, w, buf, size) && size < WORD && size' <= |b|
    requires size' == var end := (pos + w) % WORD; if end > size then end else size
    ensures Overwritten(old0[..size], pos, buf[..w], b[..size']) <==> pos + w < WORD
  {
    WrittenIsOverlay(b, old0, pos, w, buf, size);
    OverlayLength(old0[..size], pos, buf[..w], size);
    WrapsBelow(pos + w);
  }

  lemma {:induction false} WrapsBelow(end: nat)
    ensures end % WORD < WORD && (end < WORD ==> end % WORD == end)
  {
  }

  lemma {:induction false} OverlayLength(c: seq<Byte>, pos: nat, d: seq<Byte>, size: nat)
    requires pos <= |c| == size
    ensures |Overlay(c, pos, d)| == if pos + |d| > size then pos + |d| else size
  {
  }

  /** One byte more behind a file of 2^32 - 1 bytes: the position is 0 again and the size stays, so
      that the byte is not part of the contents. */
  lemma {:induction false} WriteWraps(first: nat, c: seq<Byte>, b: Byte)
    requires |c| == 0xFFFFFFFF
    ensures Moved(File(first, 0xFFFFFFFF, 0xFFFFFFFF), 1) == File(first, 0xFFFFFFFF, 0)
    ensures |Overlay(c, 0xFFFFFFFF, [b])| == 0x100000000
  {
  }

  // ----- files side by side -----

  /** A write to one file leaves the contents of every other file alone. */
  lemma {:induction false} OtherContents(g: Geometry, v0: Volume, files: seq<seq<nat>>, k: nat, v: Volume,
                                         s: seq<nat>, l: nat, size: nat)
    requires Sound(g, v0.fat, files) && k < |files| && l < |files| && k != l && Grown(g, v0, files, k, v, s)
    requires forall x :: x in v0.fat ==> x in v0.data
    ensures Contents(v, files[l], size) == Contents(v0, files[l], size)
  {
    var now := files[k := s];
    assert now[k] == s && now[l] == files[l];
    forall x | x in files[l] ensures x in v.data && x in v0.data && v.data[x] == v0.data[x] {
      assert x !in s;
      assert IsChain(g, v0.fat, files[l]);
    }
    SameBytes(v0.data, v.data, files[l]);
  }

  lemma {:induction false} SameBytes(a: map<nat, seq<Byte>>, b: map<nat, seq<Byte>>, s: seq<nat>)
    requires forall x :: x in s ==> x in a && x in b && a[x] == b[x]
    ensures Bytes(a, s) == Bytes(b, s)
  {
    if s != [] {
      assert s[0] in s;
      SameBytes(a, b, s[1..]);
    }
  }

  /** The end of a read of `n` bytes, as the code computes it, lies inside the file. */
  ghost predicate Reaches(f: File, n: nat)
  {
    (f.pos + n) % WORD <= f.size
  }

  lemma {:induction false} CameBack(g: Geometry, v: Volume, s: seq<nat>, f: File, d: seq<Byte>, n: nat, out: seq<Byte>)
    requires n == |d| && HasRead(g, v, s, f, n, out) && Holds(Bytes(v.data, s), f.pos, d)
    requires Reaches(f, n)
    ensures out == d
  {
    assert |out| == |d|;
  }

  /** fat32_file_write, a seek back and fat32_file_read of as many bytes as were written: the
      bytes come back exactly when the end does not wrap or the position was inside the file.
      (A write that wraps from inside the file leaves the size, and the read wraps likewise.) */
  method WriteThenRead(g: Geometry, disk0: seq<Byte>, f0: File, buf: seq<Byte>, memory: bool, stale: seq<Byte>,
                       ghost v0: Volume, ghost files: seq<seq<nat>>, ghost k: nat)
    returns (r: Outcome, out: seq<Byte>, disk: seq<Byte>, ghost v: Volume, ghost s: seq<nat>)
    requires Shows(g, disk0, v0) && Sound(g, v0.fat, files) && k < |files| && FileOn(g, v0, f0, files[k])
    requires f0.pos <= f0.size < WORD && |buf| < WORD && |stale| == ClusterSize(g)
    ensures Shows(g, disk, v) && Grown(g, v0, files, k, v, s)
    ensures r.Done? <==> memory && Space(g, v0.fat, files[k], f0.pos) > 0
    ensures r.Done? ==>
      var n := Space(g, v0.fat, files[k], f0.pos);
      r.n <= |buf| && r.n == if |buf| < n then |buf| else n
    ensures r.Done? ==> (out == buf[..r.n] <==> f0.pos + r.n < WORD || f0.pos < f0.size)
  {
    out := [];
    var f;
    r, disk, f, v, s := FileWrite(g, disk0, f0, buf, memory, stale, v0, files, k);
    if r.Done? {
      var r1, f1;
      WrapsOnce(f0, r.n, f);
      f := f.(pos := f0.pos);
      r1, out, f1 := FileRead(g, disk, f, r.n, memory, v, s);
      if f.pos < f.size {
        CameBack(g, v, s, f, buf[..r.n], r.n, out);
      }
    }
  }

  lemma {:induction false} WrapsOnce(f0: File, n: nat, f: File)
    requires f0.pos <= f0.size < WORD && n < WORD && f == Moved(f0.(first := f.first), n)
    ensures f.size < WORD && Reaches(f.(pos := f0.pos), n)
    ensures f0.pos + n < WORD ==> f.size >= f0.pos + n
    ensures f0.pos + n >= WORD ==> f.size == f0.size
  {
  }

  /** fat32_free_cluster on the first cluster of a file: exactly its clusters become free,
      no contents change, and the chains of the other files stay as they are. */
  method Release(g: Geometry, disk0: seq<Byte>, f: File, ghost v0: Volume, ghost files: seq<seq<nat>>, ghost k: nat)
    returns (disk: seq<Byte>, ghost v: Volume)
    requires Shows(g, disk0, v0) && Sound(g, v0.fat, files) && k < |files| && FileOn(g, v0, f, files[k])
    ensures Shows(g, disk, v) && v.data == v0.data && Freed(v0.fat, files[k], v.fat) && Sound(g, v.fat, files[k := []])
  {
    ghost var s;
    disk, v, s := FreeCluster(g, disk0, f.first, v0);
    if files[k] != [] {
      TrailOfChain(g, v0.fat, files[k], s);
    }
    FreeKeeps(g, v0.fat, files, k, v.fat);
  }
}
