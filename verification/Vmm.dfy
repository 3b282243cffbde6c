/** kernel/mm/vmm.c: two-level page tables living in physical frames.

    Memory is the sequence of all frames, each of 1024 words; kmap and the direct mapping
    become access to a frame by number.  A word holds a frame number and twelve flag bits,
    the lowest of which says that the entry is present (section 4.3 of the Intel 64 and
    IA-32 Architectures Software Developer's Manual, Volume 3A).
 */
module Vmm {
  import Pmm

  const PAGE_SIZE: nat := 4096

  /** Page directory entries 0 to 767 are user space. */
  const USER_PDES: nat := 768

  // ----- words -----

  predicate Present(w: nat) { w % 2 == 1 }

  function FrameOf(w: nat): nat { w / PAGE_SIZE }

  /** pte_create and pde_create */
  function Entry(phys: nat, flags: nat): nat
  {
    phys / PAGE_SIZE * PAGE_SIZE + flags % PAGE_SIZE
  }

  lemma {:induction false} EntryParts(phys: nat, flags: nat)
    ensures FrameOf(Entry(phys, flags)) == phys / PAGE_SIZE && Entry(phys, flags) % PAGE_SIZE == flags % PAGE_SIZE
    ensures Present(Entry(phys, flags)) <==> flags % 2 == 1
  {
  }

  // ----- the state -----

  type Frame = seq<nat>

  /** A store of word `i` of frame `f`. */
  function Store(ram: seq<Frame>, f: nat, i: nat, w: nat): seq<Frame>
    requires f < |ram| && i < |ram[f]|
  {
    var frame: Frame := ram[f][i := w];
    ram[f := frame]
  }

  datatype Machine = Machine(ram: seq<Frame>, pmm: Pmm.Pmm)

  /** A place in a page directory. */
  datatype Slot = Slot(dir: nat, index: nat)

  /** What the proof keeps: the directories, and for every page-table frame its place. */
  datatype Shadow = Shadow(dirs: set<nat>, owner: map<nat, Slot>)

  ghost predicate Frames(m: Machine)
  {
    Pmm.Valid(m.pmm) && |m.ram| == m.pmm.total && forall f :: 0 <= f < |m.ram| ==> |m.ram[f]| == 1024
  }

  /** An allocated frame that is not frame 0. */
  ghost predicate Allocated(m: Machine, f: nat)
    requires Frames(m)
  {
    0 < f < |m.ram| && f !in Pmm.FreeFrames(m.pmm)
  }

  /** Directories and page tables are allocated, and every present user entry of a directory
      leads to a page table of its own. */
  ghost predicate Valid(m: Machine, s: Shadow)
  {
    && Frames(m)
    && (forall d :: d in s.dirs ==> Allocated(m, d) && d !in s.owner)
    && (forall t :: t in s.owner ==> Allocated(m, t))
    && (forall d, i :: d in s.dirs && 0 <= i < USER_PDES && Present(m.ram[d][i]) ==> Owns(m, s, d, i))
  }

  ghost predicate Owns(m: Machine, s: Shadow, d: nat, i: nat)
    requires Frames(m) && d < |m.ram| && i < 1024
  {
    FrameOf(m.ram[d][i]) in s.owner && s.owner[FrameOf(m.ram[d][i])] == Slot(d, i)
  }

  /** What the tables mean: the entry of every user page, 0 where there is no page table. */
  ghost function Flat(m: Machine, s: Shadow, d: nat, i: nat, j: nat): nat
    requires Valid(m, s) && d in s.dirs && i < USER_PDES && j < 1024
  {
    if Present(m.ram[d][i]) then
      assert Owns(m, s, d, i);
      m.ram[FrameOf(m.ram[d][i])][j]
    else 0
  }

  /** The same user pages are mapped in the same way in every directory of `s0`. */
  ghost predicate SameMaps(m0: Machine, s0: Shadow, m: Machine, s: Shadow)
    requires Valid(m0, s0) && Valid(m, s) && s0.dirs <= s.dirs
  {
    forall d, i, j :: d in s0.dirs && 0 <= i < USER_PDES && 0 <= j < 1024 ==>
      Flat(m, s, d, i, j) == Flat(m0, s0, d, i, j)
  }

  /** Exactly the page (i, j) of `d` has a new entry. */
  ghost predicate OneMap(m0: Machine, s0: Shadow, m: Machine, s: Shadow, d: nat, i: nat, j: nat, w: nat)
    requires Valid(m0, s0) && Valid(m, s) && s0.dirs == s.dirs
  {
    forall d', i', j' :: d' in s0.dirs && 0 <= i' < USER_PDES && 0 <= j' < 1024 ==>
      Flat(m, s, d', i', j') == if (d', i', j') == (d, i, j) then w else Flat(m0, s0, d', i', j')
  }

  // ----- rights -----

  /** Bits 1 and 2 of an entry: PAGE_WRITE and PAGE_USER. */
  predicate Writable(w: nat) { w / 2 % 2 == 1 }

  predicate ForUser(w: nat) { w / 4 % 2 == 1 }

  /** What may be done with a page. */
  datatype Rights = Rights(access: bool, write: bool, user: bool)

  /** A page gives the rights that both its directory entry and its own entry give, and none when
      it is absent. */
  ghost function Both(pde: nat, pte: nat): Rights
  {
    Rights(Present(pte), Present(pte) && Writable(pde) && Writable(pte), Present(pte) && ForUser(pde) && ForUser(pte))
  }

  ghost function RightsOf(m: Machine, s: Shadow, d: nat, i: nat, j: nat): Rights
    requires Valid(m, s) && d in s.dirs && i < USER_PDES && j < 1024
  {
    assert Allocated(m, d);
    Both(m.ram[d][i], Flat(m, s, d, i, j))
  }

  /** Every user page of the directories of `s0` gives the same rights. */
  ghost predicate SameRights(m0: Machine, s0: Shadow, m: Machine, s: Shadow)
    requires Valid(m0, s0) && Valid(m, s) && s0.dirs <= s.dirs
  {
    forall d, i, j :: d in s0.dirs && 0 <= i < USER_PDES && 0 <= j < 1024 ==>
      RightsOf(m, s, d, i, j) == RightsOf(m0, s0, d, i, j)
  }

  /** The page (i, j) of `d` has the given rights, and every other page the ones it had. */
  ghost predicate OneRight(m0: Machine, s0: Shadow, m: Machine, s: Shadow, d: nat, i: nat, j: nat, r: Rights)
    requires Valid(m0, s0) && Valid(m, s) && s0.dirs == s.dirs
  {
    forall d', i', j' :: d' in s0.dirs && 0 <= i' < USER_PDES && 0 <= j' < 1024 ==>
      RightsOf(m, s, d', i', j') == if (d', i', j') == (d, i, j) then r else RightsOf(m0, s0, d', i', j')
  }

  /** No user entry of a directory has changed, except perhaps an absent one at (d, i). */
  ghost predicate SameEntries(m0: Machine, s0: Shadow, m: Machine, d: nat, i: nat)
    requires Valid(m0, s0) && Frames(m) && |m.ram| == |m0.ram|
  {
    forall e, k :: e in s0.dirs && 0 <= k < USER_PDES ==>
      Allocated(m0, e) && (((e, k) == (d, i) && !Present(m0.ram[e][k])) || m.ram[e][k] == m0.ram[e][k])
  }

  /** From the entries of the directories to the rights of the pages. */
  lemma {:induction false} RightsFollow(m0: Machine, s0: Shadow, m: Machine, s: Shadow, d: nat, i: nat, j: nat, w: nat)
    requires Valid(m0, s0) && Valid(m, s) && s0.dirs == s.dirs && |m.ram| == |m0.ram| && d in s.dirs
    requires i < USER_PDES && j < 1024 && OneMap(m0, s0, m, s, d, i, j, w) && SameEntries(m0, s0, m, d, i)
    ensures Allocated(m, d) && OneRight(m0, s0, m, s, d, i, j, Both(m.ram[d][i], w))
  {
    assert Allocated(m, d);
    forall e, k, l | e in s0.dirs && 0 <= k < USER_PDES && 0 <= l < 1024
      ensures RightsOf(m, s, e, k, l) ==
        if (e, k, l) == (d, i, j) then Both(m.ram[d][i], w) else RightsOf(m0, s0, e, k, l)
    {
      assert Allocated(m0, e) && Allocated(m, e);
      assert Flat(m, s, e, k, l) == if (e, k, l) == (d, i, j) then w else Flat(m0, s0, e, k, l);
    }
  }

  lemma {:induction false} RightsKept(m0: Machine, s0: Shadow, m: Machine, s: Shadow)
    requires Valid(m0, s0) && Valid(m, s) && s0.dirs <= s.dirs && |m.ram| == |m0.ram| && SameMaps(m0, s0, m, s)
    requires forall e :: e in s0.dirs ==> e < |m.ram| && m.ram[e] == m0.ram[e]
    ensures SameRights(m0, s0, m, s)
  {
    forall e, k, l | e in s0.dirs && 0 <= k < USER_PDES && 0 <= l < 1024
      ensures RightsOf(m, s, e, k, l) == RightsOf(m0, s0, e, k, l)
    {
      assert Allocated(m0, e) && Flat(m, s, e, k, l) == Flat(m0, s0, e, k, l);
    }
  }

  /** Frames that are neither directories nor page tables, and the kernel half of every
      directory, are not touched. */
  ghost predicate Respects(m0: Machine, s0: Shadow, m: Machine)
    requires Valid(m0, s0) && |m.ram| == |m0.ram|
  {
    && (forall f: nat :: Allocated(m0, f) && f !in s0.dirs && f !in s0.owner ==> m.ram[f] == m0.ram[f])
    && (forall d, i :: d in s0.dirs && USER_PDES <= i < 1024 && |m.ram[d]| == 1024 ==> m.ram[d][i] == m0.ram[d][i])
  }

  function Zeroes(n: nat): (z: seq<nat>)
    ensures |z| == n && forall i :: 0 <= i < n ==> z[i] == 0
  {
    if n == 0 then [] else Zeroes(n - 1) + [0]
  }

  /** A fresh, empty page table in frame `t` has been hung into the empty place (d, i). */
  ghost predicate HungIn(m0: Machine, s0: Shadow, d: nat, i: nat, t: nat, w: nat, m: Machine, s: Shadow)
  {
    && Valid(m0, s0) && d in s0.dirs && i < USER_PDES && d < |m0.ram| && !Present(m0.ram[d][i])
    && Frames(m) && |m.ram| == |m0.ram| && 0 < t < |m.ram| && t != d && t in Pmm.FreeFrames(m0.pmm)
    && Pmm.FreeFrames(m.pmm) == Pmm.FreeFrames(m0.pmm) - {t}
    && Present(w) && FrameOf(w) == t && m.ram == Store(m0.ram[t := Zeroes(1024)], d, i, w)
    && s == Shadow(s0.dirs, s0.owner[t := Slot(d, i)])
  }

  /** All other entries of directories are as they were. */
  lemma {:induction false} OtherEntry(m0: Machine, s0: Shadow, d: nat, i: nat, t: nat, w: nat, m: Machine, s: Shadow,
                                      e: nat, k: nat)
    requires HungIn(m0, s0, d, i, t, w, m, s) && e in s.dirs && k < 1024 && (e, k) != (d, i)
    ensures e < |m.ram| && m.ram[e][k] == m0.ram[e][k]
    ensures k < USER_PDES && Present(m0.ram[e][k]) ==> Owns(m0, s0, e, k) && Owns(m, s, e, k)
    ensures k < USER_PDES && Present(m0.ram[e][k]) ==>
      var u := FrameOf(m0.ram[e][k]); u < |m.ram| && m.ram[u] == m0.ram[u]
  {
    assert Allocated(m0, e) && e != t;
    if k < USER_PDES && Present(m0.ram[e][k]) {
      assert Owns(m0, s0, e, k);
      assert Allocated(m0, FrameOf(m0.ram[e][k]));
    }
  }

  lemma {:induction false} TableValid(m0: Machine, s0: Shadow, d: nat, i: nat, t: nat, w: nat, m: Machine, s: Shadow)
    requires HungIn(m0, s0, d, i, t, w, m, s)
    ensures Valid(m, s) && Respects(m0, s0, m) && m.ram[d][i] == w
  {
    assert t !in s0.owner && t !in s0.dirs;
    forall e | e in s.dirs ensures Allocated(m, e) && e !in s.owner { assert Allocated(m0, e); }
    forall e, k | e in s.dirs && 0 <= k < USER_PDES && Present(m.ram[e][k]) ensures Owns(m, s, e, k) {
      if (e, k) != (d, i) { OtherEntry(m0, s0, d, i, t, w, m, s, e, k); }
    }
  }

  /** A fresh page table changes no translation. */
  lemma {:induction false} TableAdded(m0: Machine, s0: Shadow, d: nat, i: nat, t: nat, w: nat, m: Machine, s: Shadow)
    requires HungIn(m0, s0, d, i, t, w, m, s)
    ensures Valid(m, s) && SameMaps(m0, s0, m, s) && Respects(m0, s0, m) && m.ram[d][i] == w
  {
    TableValid(m0, s0, d, i, t, w, m, s);
    forall e, k, j | e in s0.dirs && 0 <= k < USER_PDES && 0 <= j < 1024
      ensures Flat(m, s, e, k, j) == Flat(m0, s0, e, k, j)
    {
      if (e, k) != (d, i) { OtherEntry(m0, s0, d, i, t, w, m, s, e, k); }
    }
  }

  /** A new word in the page table of (d, i) shows in one page only. */
  lemma {:induction false} EntrySet(m0: Machine, s: Shadow, d: nat, i: nat, j: nat, w: nat, m: Machine)
    requires Valid(m0, s) && d in s.dirs && i < USER_PDES && j < 1024 && Present(m0.ram[d][i])
    requires var t := FrameOf(m0.ram[d][i]);
      t < |m0.ram| && m == m0.(ram := Store(m0.ram, t, j, w))
    ensures Valid(m, s) && OneMap(m0, s, m, s, d, i, j, w) && Respects(m0, s, m)
    ensures forall e :: e in s.dirs ==> e < |m.ram| && m.ram[e] == m0.ram[e]
  {
    var t := FrameOf(m0.ram[d][i]);
    assert Owns(m0, s, d, i);
    forall e | e in s.dirs ensures m.ram[e] == m0.ram[e] { assert e != t; }
    forall e, k | e in s.dirs && 0 <= k < USER_PDES && Present(m.ram[e][k]) ensures Owns(m, s, e, k) {
      assert Owns(m0, s, e, k);
    }
    forall e, k, l | e in s.dirs && 0 <= k < USER_PDES && 0 <= l < 1024
      ensures Flat(m, s, e, k, l) == if (e, k, l) == (d, i, j) then w else Flat(m0, s, e, k, l)
    {
      if Present(m0.ram[e][k]) { assert Owns(m0, s, e, k); }
    }
  }

  // ----- mapping -----

  /** The page table of (d, i): the one that is there, or a new empty one. */
  method EnsureTable(m0: Machine, d: nat, i: nat, flags: nat, ghost s0: Shadow)
    returns (ok: bool, m: Machine, ghost s: Shadow)
    requires Valid(m0, s0) && d in s0.dirs && i < USER_PDES && flags % 2 == 1
    ensures Valid(m, s) && s.dirs == s0.dirs && |m.ram| == |m0.ram| && SameMaps(m0, s0, m, s) && Respects(m0, s0, m)
    ensures ok ==> Present(m.ram[d][i]) && SameEntries(m0, s0, m, d, i)
    ensures ok && !Present(m0.ram[d][i]) ==> m.ram[d][i] % PAGE_SIZE == flags % PAGE_SIZE
    ensures !ok ==> m == m0 && s == s0 && Pmm.FreeFrames(m0.pmm) == {}
    ensures forall f :: f in s.owner ==> f in s0.owner || f in Pmm.FreeFrames(m0.pmm)
    ensures Pmm.FreeFrames(m.pmm) <= Pmm.FreeFrames(m0.pmm)
  {
    ok, m, s := true, m0, s0;
    assert Allocated(m0, d);
    if !Present(m.ram[d][i]) {
      var addr, pmm;
      ghost var f;
      addr, pmm, f := Pmm.AllocFrame(m.pmm);
      if addr == 0 {
        return false, m, s;
      }
      var t := Pmm.FrameNumber(addr, f, 0);
      EntryParts(addr, flags);
      m := Machine(Store(m.ram[t := Zeroes(1024)], d, i, Entry(addr, flags)), pmm);
      s := Shadow(s0.dirs, s0.owner[t := Slot(d, i)]);
      TableAdded(m0, s0, d, i, t, Entry(addr, flags), m, s);
      OnlyThisEntry(m0, s0, d, i, t, Entry(addr, flags), m, s);
    } else {
      AllEntries(m0, s0, d, i);
    }
  }

  lemma {:induction false} OnlyThisEntry(m0: Machine, s0: Shadow, d: nat, i: nat, t: nat, w: nat, m: Machine, s: Shadow)
    requires HungIn(m0, s0, d, i, t, w, m, s)
    ensures SameEntries(m0, s0, m, d, i)
  {
    forall e, k | e in s0.dirs && 0 <= k < USER_PDES
      ensures Allocated(m0, e) && (((e, k) == (d, i) && !Present(m0.ram[e][k])) || m.ram[e][k] == m0.ram[e][k])
    {
      if (e, k) != (d, i) { OtherEntry(m0, s0, d, i, t, w, m, s, e, k); }
    }
  }

  lemma {:induction false} AllEntries(m: Machine, s: Shadow, d: nat, i: nat)
    requires Valid(m, s)
    ensures SameEntries(m, s, m, d, i)
  {
  }

  /** A store into the page table of (d, i). */
  method PutEntry(m0: Machine, d: nat, i: nat, j: nat, w: nat, ghost s: Shadow) returns (m: Machine)
    requires Valid(m0, s) && d in s.dirs && i < USER_PDES && j < 1024 && Present(m0.ram[d][i])
    ensures Valid(m, s) && |m.ram| == |m0.ram| && OneMap(m0, s, m, s, d, i, j, w) && Respects(m0, s, m)
      && m.pmm == m0.pmm
    ensures forall e :: e in s.dirs ==> e < |m.ram| && m.ram[e] == m0.ram[e]
  {
    assert Owns(m0, s, d, i);
    m := m0.(ram := Store(m0.ram, FrameOf(m0.ram[d][i]), j, w));
    EntrySet(m0, s, d, i, j, w, m);
  }

  /** PD_INDEX, PT_INDEX and PAGE_OFFSET.  Below, an address is given by these. */
  method Split(virt: nat) returns (i: nat, j: nat, o: nat)
    ensures virt == i * 0x400000 + j * PAGE_SIZE + o && j < 1024 && o == virt % PAGE_SIZE < PAGE_SIZE
    ensures i < USER_PDES <==> virt < 0xC0000000
  {
    i, j, o := virt / 0x400000, virt / PAGE_SIZE % 1024, virt % PAGE_SIZE;
  }

  /** vmm_map_page_in_directory for a user address: this page of this directory gets the
      frame and the flags, and no other page of any directory changes.  When no frame is
      left for a page table nothing happens. */
  method MapPageInDirectory(m0: Machine, d: nat, i: nat, j: nat, phys: nat, flags: nat, ghost s0: Shadow)
    returns (m: Machine, ok: bool, ghost s: Shadow)
    requires Valid(m0, s0) && (d != 0 ==> d in s0.dirs) && i < USER_PDES && j < 1024
    ensures Valid(m, s) && s.dirs == s0.dirs && |m.ram| == |m0.ram| && Respects(m0, s0, m)
    ensures ok ==>
      d != 0 && OneMap(m0, s0, m, s, d, i, j, Entry(phys, flags)) && Granted(m0, s0, m, s, d, i, j, flags, true)
    ensures !ok ==> m == m0 && s == s0 && (d == 0 || Pmm.FreeFrames(m0.pmm) == {})
  {
    m, s := m0, s0;
    if d == 0 {
      return m, false, s;
    }
    ok, m, s := EnsureTable(m, d, i, 7, s);
    if ok {
      ghost var m1 := m;
      m := PutEntry(m, d, i, j, Entry(phys, flags), s);
      Composed(m0, s0, m1, s, m, d, i, j, Entry(phys, flags));
      Grants(m0, s0, m1, m, s, d, i, j, phys, flags, 7, true);
    }
  }

  /** The rights of a page that was mapped with `flags`: what they say, as far as a directory entry
      that was there before allows it; a new one allows writing, and access by the user if `open`.
      All other pages keep their rights. */
  ghost predicate Granted(m0: Machine, s0: Shadow, m: Machine, s: Shadow, d: nat, i: nat, j: nat, flags: nat,
                          open: bool)
    requires Valid(m0, s0) && Valid(m, s) && s0.dirs == s.dirs && d in s.dirs && i < USER_PDES
  {
    assert Allocated(m0, d);
    var (pde, p) := (m0.ram[d][i], Present(flags));
    OneRight(m0, s0, m, s, d, i, j,
             Rights(p, p && Writable(flags) && (Present(pde) ==> Writable(pde)),
                    p && ForUser(flags) && if Present(pde) then ForUser(pde) else open))
  }

  lemma {:induction false} Grants(m0: Machine, s0: Shadow, m1: Machine, m: Machine, s: Shadow, d: nat, i: nat, j: nat,
                                  phys: nat, flags: nat, table: nat, open: bool)
    requires Valid(m0, s0) && Valid(m1, s) && Valid(m, s) && s0.dirs == s.dirs && d in s.dirs && i < USER_PDES
      && j < 1024
    requires |m.ram| == |m1.ram| == |m0.ram| && Allocated(m0, d) && Allocated(m1, d)
    requires OneMap(m0, s0, m, s, d, i, j, Entry(phys, flags)) && SameEntries(m0, s0, m1, d, i)
    requires forall e :: e in s.dirs ==> e < |m.ram| && m.ram[e] == m1.ram[e]
    requires !Present(m0.ram[d][i]) ==> m1.ram[d][i] % PAGE_SIZE == table % PAGE_SIZE
    requires Writable(table) && (ForUser(flags) ==> (ForUser(table) <==> open))
    ensures Granted(m0, s0, m, s, d, i, j, flags, open)
  {
    StillSame(m0, s0, m1, m, d, i);
    RightsFollow(m0, s0, m, s, d, i, j, Entry(phys, flags));
    EntryParts(phys, flags);
    LowBits(Entry(phys, flags), flags);
    if !Present(m0.ram[d][i]) { LowBits(m.ram[d][i], table); }
  }

  lemma {:induction false} StillSame(m0: Machine, s0: Shadow, m1: Machine, m: Machine, d: nat, i: nat)
    requires Valid(m0, s0) && Frames(m1) && Frames(m) && |m.ram| == |m1.ram| == |m0.ram|
      && SameEntries(m0, s0, m1, d, i)
    requires forall e :: e in s0.dirs ==> e < |m.ram| && m.ram[e] == m1.ram[e]
    ensures SameEntries(m0, s0, m, d, i)
  {
  }

  /** Words with the same low bits give the same rights. */
  lemma {:induction false} LowBits(w: nat, flags: nat)
    requires w % PAGE_SIZE == flags % PAGE_SIZE
    ensures Present(w) == Present(flags) && Writable(w) == Writable(flags) && ForUser(w) == ForUser(flags)
  {
    LowBit(w);
    LowBit(flags);
  }

  lemma {:induction false} LowBit(w: nat)
    ensures w % 2 == w % 4096 % 2 && w / 2 % 2 == w % 4096 / 2 % 2 && w / 4 % 2 == w % 4096 / 4 % 2
  {
    var (q, r) := (w / 4096, w % 4096);
    Halved(2048 * q, r, w);
    Halved(1024 * q, r / 2, w / 2);
    Halved(512 * q, r / 2 / 2, w / 2 / 2);
    Quarter(w);
    Quarter(r);
  }

  lemma {:induction false} Halved(x: nat, r: nat, w: nat)
    requires w == 2 * x + r
    ensures w % 2 == r % 2 && w / 2 == x + r / 2
  {
  }

  lemma {:induction false} Quarter(w: nat)
    ensures w / 4 == w / 2 / 2
  {
  }

  lemma {:induction false} Composed(m0: Machine, s0: Shadow, m1: Machine, s: Shadow, m: Machine, d: nat, i: nat,
                                    j: nat, w: nat)
    requires Valid(m0, s0) && Valid(m1, s) && Valid(m, s) && s.dirs == s0.dirs && |m.ram| == |m1.ram| == |m0.ram|
    requires SameMaps(m0, s0, m1, s) && Respects(m0, s0, m1) && OneMap(m1, s, m, s, d, i, j, w) && Respects(m1, s, m)
    requires forall f :: f in s.owner ==> f in s0.owner || f in Pmm.FreeFrames(m0.pmm)
    requires Pmm.FreeFrames(m1.pmm) <= Pmm.FreeFrames(m0.pmm)
    ensures OneMap(m0, s0, m, s, d, i, j, w) && Respects(m0, s0, m)
  {
  }

  /** vmm_virt_to_phys_in_directory: what the flat map says, and 0 for an absent page. */
  method VirtToPhysInDirectory(m: Machine, d: nat, i: nat, j: nat, o: nat, ghost s: Shadow) returns (phys: nat)
    requires Valid(m, s) && (d != 0 ==> d in s.dirs) && i < USER_PDES && j < 1024 && o < PAGE_SIZE
    ensures phys == if d != 0 && Present(Flat(m, s, d, i, j)) then FrameOf(Flat(m, s, d, i, j)) * PAGE_SIZE + o else 0
  {
    if d == 0 {
      return 0;
    }
    assert Allocated(m, d);
    if !Present(m.ram[d][i]) {
      return 0;
    }
    assert Owns(m, s, d, i);
    var w := m.ram[FrameOf(m.ram[d][i])][j];
    if !Present(w) {
      return 0;
    }
    return FrameOf(w) * PAGE_SIZE + o;
  }

  lemma {:induction false} Translated(m: Machine, s: Shadow, d: nat, i: nat, j: nat, phys: nat, flags: nat, o: nat,
                                      r: nat)
    requires Valid(m, s) && d in s.dirs && i < USER_PDES && j < 1024 && Flat(m, s, d, i, j) == Entry(phys, flags)
    requires r == if Present(Flat(m, s, d, i, j)) then FrameOf(Flat(m, s, d, i, j)) * PAGE_SIZE + o else 0
    ensures r == if flags % 2 == 1 then phys / PAGE_SIZE * PAGE_SIZE + o else 0
  {
    EntryParts(phys, flags);
  }

  /** vmm_map_page_in_directory and then vmm_virt_to_phys_in_directory of the same address:
      the frame that was mapped, exactly when the flags say that the page is present, as they
      are stored as they are. */
  method MapThenTranslate(m0: Machine, d: nat, virt: nat, phys: nat, flags: nat, ghost s0: Shadow)
    returns (r: nat, m: Machine, ok: bool, ghost s: Shadow)
    requires Valid(m0, s0) && (d != 0 ==> d in s0.dirs) && virt < 0xC0000000
    ensures Valid(m, s) && s.dirs == s0.dirs && |m.ram| == |m0.ram| && Respects(m0, s0, m)
    ensures ok ==> d != 0 && r == if flags % 2 == 1 then phys / PAGE_SIZE * PAGE_SIZE + virt % PAGE_SIZE else 0
    ensures !ok ==> m == m0 && (d == 0 || Pmm.FreeFrames(m0.pmm) == {})
  {
    var i, j, o := Split(virt);
    m, ok, s := MapPageInDirectory(m0, d, i, j, phys, flags, s0);
    r := VirtToPhysInDirectory(m, d, i, j, o, s);
    if ok { Translated(m, s, d, i, j, phys, flags, o, r); }
  }

  // ----- the current directory -----

  /** PAGE_PRESENT | flags, and PAGE_PRESENT | PAGE_WRITE | flags */
  function OrPresent(flags: nat): nat { flags / 2 * 2 + 1 }

  function OrPresentWrite(flags: nat): nat { flags / 4 * 4 + 3 }

  /** The entry that vmm_map_page stores. */
  method PresentEntry(phys: nat, flags: nat) returns (w: nat)
    ensures w == Entry(phys, OrPresent(flags)) && Present(w)
    ensures w / 4096 == phys / 4096 && w % 4096 / 2 == flags % 4096 / 2
  {
    var f := OrPresent(flags);
    w := Entry(phys, f);
    EntryParts(phys, f);
    FlagsShown(flags, f, w);
  }

  lemma {:induction false} FlagsShown(flags: nat, f: nat, w: nat)
    requires f == OrPresent(flags) && w % 4096 == f % 4096
    ensures w % 4096 / 2 == flags % 4096 / 2
  {
    var (q, r) := (flags / 4096, flags % 4096);
    AllFlagsKept(flags, q, r, f);
  }

  lemma {:induction false} AllFlagsKept(flags: nat, q: nat, r: nat, f: nat)
    requires flags == 4096 * q + r && r < 4096 && f == OrPresent(flags)
    ensures f % 4096 / 2 == r / 2
  {
    Halved(2048 * q, r, flags);
    assert f == 4096 * q + (2 * (r / 2) + 1);
    Remainder(q, 2 * (r / 2) + 1);
  }

  lemma {:induction false} Remainder(q: nat, r: nat)
    requires r < 4096
    ensures (4096 * q + r) % 4096 == r
  {
  }

  /** The flags of a new page table. */
  method TableFlags(flags: nat) returns (f: nat)
    ensures f == OrPresentWrite(flags) && f % 2 == 1
  {
    f := OrPresentWrite(flags);
    Odd(2 * (flags / 4) + 1, f);
  }

  lemma {:induction false} Odd(x: nat, n: nat)
    requires n == 2 * x + 1
    ensures n % 2 == 1
  {
  }

  /** vmm_map_page, in the current directory; out of frames it panics. */
  method MapPage(m0: Machine, d: nat, i: nat, j: nat, phys: nat, flags: nat, ghost s0: Shadow)
    returns (m: Machine, panic: bool, ghost s: Shadow)
    requires Valid(m0, s0) && d in s0.dirs && i < USER_PDES && j < 1024
    ensures Valid(m, s) && s.dirs == s0.dirs && |m.ram| == |m0.ram| && Respects(m0, s0, m)
    ensures !panic ==> OneMap(m0, s0, m, s, d, i, j, Entry(phys, OrPresent(flags)))
    ensures !panic ==>
      var w := Flat(m, s, d, i, j);
      w / 4096 == phys / 4096 && w % 2 == 1 && w % 4096 / 2 == flags % 4096 / 2
    ensures !panic ==> Granted(m0, s0, m, s, d, i, j, OrPresent(flags), true)
    ensures panic ==> Pmm.FreeFrames(m0.pmm) == {}
  {
    var ok;
    var w := PresentEntry(phys, flags);
    var f := TableFlags(flags);
    ok, m, s := EnsureTable(m0, d, i, f, s0);
    panic := !ok;
    if ok {
      ghost var m1 := m;
      m := PutEntry(m, d, i, j, w, s);
      Composed(m0, s0, m1, s, m, d, i, j, w);
      KeptFlags(flags);
      Grants(m0, s0, m1, m, s, d, i, j, phys, OrPresent(flags), f, true);
    }
  }

  /** Setting the lowest bits keeps the others. */
  lemma {:induction false} KeptFlags(flags: nat)
    ensures var (f, t) := (OrPresent(flags), OrPresentWrite(flags));
      && Writable(t) && ForUser(t) == ForUser(flags) && ForUser(f) == ForUser(flags) && Writable(f) == Writable(flags)
  {
    var (f, t) := (OrPresent(flags), OrPresentWrite(flags));
    Halved(flags / 2, 1, f);
    Halved(flags / 4 * 2, 3, t);
    Halved(flags / 4, 1, t / 2);
    Quarter(flags);
    Quarter(f);
    Quarter(t);
  }

  /** vmm_unmap_page: this page is absent afterwards, all others are as they were. */
  method UnmapPage(m0: Machine, d: nat, i: nat, j: nat, ghost s: Shadow) returns (m: Machine)
    requires Valid(m0, s) && d in s.dirs && i < USER_PDES && j < 1024
    ensures Valid(m, s) && |m.ram| == |m0.ram| && Respects(m0, s, m) && m.pmm == m0.pmm && !Present(Flat(m, s, d, i, j))
    ensures OneMap(m0, s, m, s, d, i, j, if Present(Flat(m0, s, d, i, j)) then 0 else Flat(m0, s, d, i, j))
    ensures OneRight(m0, s, m, s, d, i, j, Rights(false, false, false))
  {
    m := m0;
    assert Allocated(m, d);
    if Present(m.ram[d][i]) {
      assert Owns(m, s, d, i);
      if Present(m.ram[FrameOf(m.ram[d][i])][j]) {
        m := PutEntry(m, d, i, j, 0, s);
        AllEntries(m0, s, d, i);
        StillSame(m0, s, m0, m, d, i);
        RightsFollow(m0, s, m, s, d, i, j, 0);
      }
    }
  }

  // ----- directories -----

  /** The contents of a new directory: no user page, the kernel half of the current one and
      the recursive entry. */
  method NewDirectory(current: Frame, addr: nat) returns (pd: Frame)
    requires |current| == 1024
    ensures |pd| == 1024 && pd[1023] == Entry(addr, 3)
    ensures forall i :: 0 <= i < 1023 ==> pd[i] == if i < USER_PDES then 0 else current[i]
  {
    pd := Zeroes(1024);
    var i: nat := USER_PDES;
    while i < 1023
      invariant USER_PDES <= i <= 1023 && |pd| == 1024
      invariant forall k :: 0 <= k < 1023 ==> pd[k] == if USER_PDES <= k < i then current[k] else 0
    {
      pd := pd[..i] + [current[i]] + pd[i + 1..];
      i := i + 1;
    }
    pd := pd[..1023] + [Entry(addr, 3)];
  }

  /** A new directory without user pages has been written to frame `d`; frame `temp` may have
      been written, too. */
  ghost predicate NewIn(m0: Machine, s0: Shadow, d: nat, temp: nat, m: Machine, s: Shadow)
  {
    && Valid(m0, s0) && Frames(m) && |m.ram| == |m0.ram| && s == Shadow(s0.dirs + {d}, s0.owner)
    && 0 < d < |m.ram| && temp < |m.ram| && d in Pmm.FreeFrames(m0.pmm) && temp in Pmm.FreeFrames(m0.pmm)
    && Pmm.FreeFrames(m.pmm) == Pmm.FreeFrames(m0.pmm) - {d}
    && (forall f :: 0 <= f < |m.ram| && f != d && f != temp ==> m.ram[f] == m0.ram[f])
    && (forall i :: 0 <= i < USER_PDES ==> m.ram[d][i] == 0)
  }

  lemma {:induction false} DirectoryValid(m0: Machine, s0: Shadow, d: nat, temp: nat, m: Machine, s: Shadow)
    requires NewIn(m0, s0, d, temp, m, s)
    ensures Valid(m, s) && Respects(m0, s0, m)
  {
    forall e | e in s.dirs ensures Allocated(m, e) && e !in s.owner {
      if e != d { assert Allocated(m0, e); }
    }
    forall e, k | e in s.dirs && 0 <= k < USER_PDES && Present(m.ram[e][k]) ensures Owns(m, s, e, k) {
      OldEntry(m0, s0, d, temp, m, s, e, k);
    }
  }

  lemma {:induction false} OldEntry(m0: Machine, s0: Shadow, d: nat, temp: nat, m: Machine, s: Shadow, e: nat, k: nat)
    requires NewIn(m0, s0, d, temp, m, s) && e in s.dirs && k < USER_PDES && e < |m.ram| && Present(m.ram[e][k])
    ensures e in s0.dirs && m.ram[e] == m0.ram[e] && Owns(m0, s0, e, k) && Owns(m, s, e, k)
    ensures var t := FrameOf(m0.ram[e][k]); t < |m.ram| && m.ram[t] == m0.ram[t]
  {
    assert e != d;
    assert Allocated(m0, e);
    assert Owns(m0, s0, e, k);
    assert Allocated(m0, FrameOf(m0.ram[e][k]));
  }

  lemma {:induction false} DirectoryAdded(m0: Machine, s0: Shadow, d: nat, temp: nat, m: Machine, s: Shadow)
    requires NewIn(m0, s0, d, temp, m, s)
    ensures Valid(m, s) && SameMaps(m0, s0, m, s) && SameRights(m0, s0, m, s) && Respects(m0, s0, m)
    ensures forall i, j :: 0 <= i < USER_PDES && 0 <= j < 1024 ==> Flat(m, s, d, i, j) == 0
  {
    DirectoryValid(m0, s0, d, temp, m, s);
    forall e, k, j | e in s0.dirs && 0 <= k < USER_PDES && 0 <= j < 1024
      ensures Flat(m, s, e, k, j) == Flat(m0, s0, e, k, j)
    {
      assert Allocated(m0, e);
      if Present(m.ram[e][k]) { OldEntry(m0, s0, d, temp, m, s, e, k); }
    }
    assert forall e :: e in s0.dirs ==> Allocated(m0, e);
    RightsKept(m0, s0, m, s);
  }

  /** vmm_create_page_directory: a directory without user pages.  The current directory
      `cur`, whose entry 767 is borrowed for a moment, the other directories and their pages
      are as before, and one frame is gone; without memory nothing has changed. */
  method CreatePageDirectory(m0: Machine, cur: nat, memory: bool, ghost s0: Shadow)
    returns (d: nat, m: Machine, ghost s: Shadow)
    requires Valid(m0, s0) && cur in s0.dirs
    ensures Valid(m, s) && |m.ram| == |m0.ram| && s == (if d == 0 then s0 else Shadow(s0.dirs + {d}, s0.owner))
    ensures SameMaps(m0, s0, m, s) && SameRights(m0, s0, m, s) && Respects(m0, s0, m)
    ensures d == 0 ==> Pmm.FreeFrames(m.pmm) == Pmm.FreeFrames(m0.pmm) && m.ram == m0.ram
    ensures d != 0 ==> d !in s0.dirs && Created(m0, cur, d, m, s)
  {
    d, m, s := 0, m0, s0;
    if !memory {
      return;
    }
    var addr, temp, pmm1, pmm2;
    ghost var f, u;
    addr, pmm1, f := Pmm.AllocFrame(m0.pmm);
    if addr == 0 {
      return;
    }
    temp, pmm2, u := Pmm.AllocFrame(pmm1);
    if temp == 0 {
      pmm2 := Pmm.FreeFrame(pmm1, addr, f, 0);
      GaveBack(m0.pmm, pmm1, pmm2, f);
      m := m0.(pmm := pmm2);
      SameTables(m0, m, s);
      RightsKept(m0, s, m, s);
      return;
    }
    d := Pmm.FrameNumber(addr, f, 0);
    var t := Pmm.FrameNumber(temp, u, 0);
    m, s := InstallDirectory(m0, cur, addr, d, temp, t, pmm2, s0);
  }

  /** The new directory `d`: its frame is taken, it has no user page, the kernel half of the
      current one and the recursive entry. */
  ghost predicate Created(m0: Machine, cur: nat, d: nat, m: Machine, s: Shadow)
    requires Frames(m0) && cur < |m0.ram| && Valid(m, s)
  {
    && d in s.dirs && d < |m.ram| && d in Pmm.FreeFrames(m0.pmm)
    && Pmm.FreeFrames(m.pmm) == Pmm.FreeFrames(m0.pmm) - {d}
    && (forall i, j :: 0 <= i < USER_PDES && 0 <= j < 1024 ==> Flat(m, s, d, i, j) == 0)
    && m.ram[d][1023] == Entry(d * PAGE_SIZE, 3) && forall i :: USER_PDES <= i < 1023 ==> m.ram[d][i] == m0.ram[cur][i]
  }

  /** The rest of vmm_create_page_directory, with the frames `d` and `t` taken. */
  method InstallDirectory(m0: Machine, cur: nat, addr: nat, d: nat, temp: nat, t: nat, pmm2: Pmm.Pmm, ghost s0: Shadow)
    returns (m: Machine, ghost s: Shadow)
    requires Valid(m0, s0) && cur in s0.dirs && addr == d * PAGE_SIZE && temp == t * PAGE_SIZE && d != 0 && t != 0
      && d != t
    requires d in Pmm.FreeFrames(m0.pmm) && t in Pmm.FreeFrames(m0.pmm) && Pmm.Valid(pmm2) && pmm2.total == m0.pmm.total
    requires Pmm.FreeFrames(pmm2) == Pmm.FreeFrames(m0.pmm) - {d} - {t}
    ensures Valid(m, s) && |m.ram| == |m0.ram| && s == Shadow(s0.dirs + {d}, s0.owner) && SameMaps(m0, s0, m, s)
      && SameRights(m0, s0, m, s) && Respects(m0, s0, m)
    ensures d !in s0.dirs && Created(m0, cur, d, m, s)
  {
    assert Allocated(m0, cur);
    var ram := BuildDirectory(m0.ram, d, t, cur, addr, temp);
    var pmm := Pmm.FreeFrame(pmm2, temp, t, 0);
    m := Machine(ram, pmm);
    s := Shadow(s0.dirs + {d}, s0.owner);
    assert Pmm.FreeFrames(m0.pmm) - {d} - {t} + {t} == Pmm.FreeFrames(m0.pmm) - {d};
    DirectoryAdded(m0, s0, d, t, m, s);
  }

  /** The stores of vmm_create_page_directory. */
  method BuildDirectory(ram0: seq<Frame>, d: nat, t: nat, cur: nat, addr: nat, temp: nat) returns (ram: seq<Frame>)
    requires d < |ram0| && t < |ram0| && cur < |ram0| && d != t && cur != d && cur != t
    requires forall f :: 0 <= f < |ram0| ==> |ram0[f]| == 1024
    ensures |ram| == |ram0| && forall f :: 0 <= f < |ram| && f != d && f != t ==> ram[f] == ram0[f]
    ensures |ram[t]| == 1024 && |ram[d]| == 1024 && ram[d][1023] == Entry(addr, 3)
    ensures forall i :: 0 <= i < 1023 ==> ram[d][i] == if i < USER_PDES then 0 else ram0[cur][i]
  {
    ram := Store(ram0[t := Zeroes(1024)], t, 0, Entry(addr, 3));
    var borrowed := ram[cur][767];
    ram := Store(ram, cur, 767, Entry(temp, 3));
    var pd := NewDirectory(ram[cur], addr);
    ram := ram[d := pd];
    ram := Store(ram, cur, 767, borrowed);
  }

  lemma {:induction false} GaveBack(p: Pmm.Pmm, q: Pmm.Pmm, r: Pmm.Pmm, f: nat)
    requires Pmm.Valid(p) && Pmm.Valid(q) && Pmm.Valid(r) && p.total == q.total == r.total
    requires f in Pmm.FreeFrames(p) && Pmm.FreeFrames(q) == Pmm.FreeFrames(p) - {f}
    requires Pmm.FreeFrames(r) == Pmm.FreeFrames(q) + {f}
    ensures Pmm.FreeFrames(r) == Pmm.FreeFrames(p)
  {
  }

  lemma {:induction false} SameTables(m0: Machine, m: Machine, s: Shadow)
    requires Valid(m0, s) && Frames(m) && m.ram == m0.ram && Pmm.FreeFrames(m.pmm) == Pmm.FreeFrames(m0.pmm)
    ensures Valid(m, s) && SameMaps(m0, s, m, s)
  {
    assert forall e :: e in s.dirs ==> Allocated(m0, e);
    forall e, k | e in s.dirs && 0 <= k < USER_PDES && Present(m.ram[e][k]) ensures Owns(m, s, e, k) {
      assert Owns(m0, s, e, k);
    }
  }

  /** vmm_destroy_page_directory: exactly the frame of the directory becomes free; its page
      tables stay allocated, and the other directories are as they were. */
  method DestroyPageDirectory(m0: Machine, d: nat, kernel: bool, ghost s0: Shadow) returns (m: Machine, ghost s: Shadow)
    requires Valid(m0, s0) && (d != 0 ==> d in s0.dirs)
    ensures Valid(m, s) && s == Shadow(if d == 0 || kernel then s0.dirs else s0.dirs - {d}, s0.owner) && m.ram == m0.ram
    ensures SameMaps(m, s, m0, s0)
    ensures Pmm.FreeFrames(m.pmm) == Pmm.FreeFrames(m0.pmm) + if d == 0 || kernel then {} else {d}
  {
    m, s := m0, s0;
    if d == 0 || kernel {
      return;
    }
    assert Allocated(m0, d);
    var pmm := Pmm.FreeFrame(m.pmm, d * PAGE_SIZE, d, 0);
    m := m.(pmm := pmm);
    s := Shadow(s0.dirs - {d}, s0.owner);
    DirectoryRemoved(m0, s0, d, m, s);
  }

  lemma {:induction false} DirectoryRemoved(m0: Machine, s0: Shadow, d: nat, m: Machine, s: Shadow)
    requires Valid(m0, s0) && d in s0.dirs && Frames(m) && m.ram == m0.ram && s == Shadow(s0.dirs - {d}, s0.owner)
    requires Pmm.FreeFrames(m.pmm) == Pmm.FreeFrames(m0.pmm) + {d}
    ensures Valid(m, s) && SameMaps(m, s, m0, s0)
  {
    assert forall e :: e in s0.dirs ==> Allocated(m0, e);
    assert forall t :: t in s0.owner ==> Allocated(m0, t);
    forall e, k | e in s.dirs && 0 <= k < USER_PDES && Present(m.ram[e][k]) ensures Owns(m, s, e, k) {
      assert Owns(m0, s0, e, k);
    }
  }
}
