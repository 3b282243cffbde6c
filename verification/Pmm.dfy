/** kernel/mm/pmm.c: the physical frame allocator.  Frames are bits of a bitmap, set when
    the frame is used; a frame is handed out as its address and 0 stands for none.
 */
module Pmm {
  import opened Bits

  const PAGE_SIZE: nat := 4096

  /** The frames that 32-bit addresses reach. */
  const FRAMES: nat := 0x100000

  // ----- the bitmap -----

  ghost predicate Used(bitmap: seq<nat>, f: nat)
    requires f < 32 * |bitmap|
  {
    Has(bitmap[f / 32], f % 32)
  }

  /** pmm_test_bit */
  method TestBit(bitmap: seq<nat>, f: nat) returns (used: bool)
    requires f < 32 * |bitmap|
    ensures used == Used(bitmap, f)
  {
    var index, bit := f / 32, f % 32;
    used := Has(bitmap[index], bit);
  }

  ghost predicate OnlyBit(bitmap0: seq<nat>, bitmap: seq<nat>, f: nat)
  {
    |bitmap| == |bitmap0| && forall x :: 0 <= x < 32 * |bitmap| && x != f ==> Used(bitmap, x) == Used(bitmap0, x)
  }

  lemma {:induction false} OneWord(bitmap0: seq<nat>, bitmap: seq<nat>, f: nat, set1: bool)
    requires f < 32 * |bitmap0|
    requires bitmap ==
      bitmap0[f / 32 := if set1 then With(bitmap0[f / 32], f % 32) else Cleared(bitmap0[f / 32], f % 32)]
    ensures OnlyBit(bitmap0, bitmap, f) && Used(bitmap, f) == set1
  {
    WordBits(bitmap0[f / 32], f % 32, f % 32);
    forall x | 0 <= x < 32 * |bitmap| && x != f ensures Used(bitmap, x) == Used(bitmap0, x) {
      if x / 32 == f / 32 { WordBits(bitmap0[f / 32], f % 32, x % 32); }
    }
  }

  /** pmm_set_bit */
  method SetBit(bitmap0: seq<nat>, f: nat) returns (bitmap: seq<nat>)
    requires f < 32 * |bitmap0|
    ensures OnlyBit(bitmap0, bitmap, f) && Used(bitmap, f)
  {
    bitmap := bitmap0[f / 32 := With(bitmap0[f / 32], f % 32)];
    OneWord(bitmap0, bitmap, f, true);
  }

  /** pmm_clear_bit */
  method ClearBit(bitmap0: seq<nat>, f: nat) returns (bitmap: seq<nat>)
    requires f < 32 * |bitmap0|
    ensures OnlyBit(bitmap0, bitmap, f) && !Used(bitmap, f)
  {
    bitmap := bitmap0[f / 32 := Cleared(bitmap0[f / 32], f % 32)];
    OneWord(bitmap0, bitmap, f, false);
  }

  // ----- the allocator -----

  /** The bitmap and the counters of pmm_stats. */
  datatype Pmm = Pmm(bitmap: seq<nat>, total: nat, used: nat, free: nat)

  ghost function FreeFrames(p: Pmm): set<nat>
    requires p.total <= 32 * |p.bitmap|
  {
    set f | 0 <= f < p.total && !Used(p.bitmap, f)
  }

  /** The counters are right. */
  ghost predicate Counted(p: Pmm)
  {
    p.total <= 32 * |p.bitmap| && p.total <= FRAMES && p.free == |FreeFrames(p)| && p.used + p.free == p.total
  }

  /** And frame 0 is never free: its address means failure. */
  ghost predicate Valid(p: Pmm)
  {
    Counted(p) && 0 !in FreeFrames(p)
  }

  lemma {:induction false} Taken(p: Pmm, q: Pmm, f: nat)
    requires Valid(p) && f < p.total && !Used(p.bitmap, f) && q.total == p.total && q.used == p.used + 1
      && q.free == p.free - 1
    requires OnlyBit(p.bitmap, q.bitmap, f) && Used(q.bitmap, f)
    ensures Valid(q) && FreeFrames(q) == FreeFrames(p) - {f}
  {
    assert f in FreeFrames(p);
    assert FreeFrames(q) == FreeFrames(p) - {f};
  }

  lemma {:induction false} GivenBack(p: Pmm, q: Pmm, f: nat)
    requires Counted(p) && f < p.total && Used(p.bitmap, f) && p.used > 0
      && q == Pmm(q.bitmap, p.total, p.used - 1, p.free + 1)
    requires OnlyBit(p.bitmap, q.bitmap, f) && !Used(q.bitmap, f)
    ensures Counted(q) && FreeFrames(q) == FreeFrames(p) + {f}
  {
    assert f !in FreeFrames(p);
    assert FreeFrames(q) == FreeFrames(p) + {f};
  }

  ghost function Below(n: nat): (s: set<nat>)
    ensures |s| == n && forall x :: x in s <==> 0 <= x < n
  {
    if n == 0 then {} else Below(n - 1) + {n - 1}
  }

  lemma {:induction false} SomeUsed(p: Pmm, f: nat)
    requires Counted(p) && f < p.total && Used(p.bitmap, f)
    ensures p.used > 0
  {
    var all := Below(p.total);
    Smaller(FreeFrames(p), all - {f});
  }

  lemma {:induction false} Smaller(a: set<nat>, b: set<nat>)
    requires a <= b
    ensures |a| <= |b|
  {
    assert b == a + (b - a);
  }

  /** pmm_alloc_frame: the lowest free frame, or 0 when there is none; `f` is its number. */
  method AllocFrame(p0: Pmm) returns (addr: nat, p: Pmm, ghost f: nat)
    requires Valid(p0)
    ensures Valid(p) && p.total == p0.total && addr == f * PAGE_SIZE
    ensures f == 0 ==> p == p0 && FreeFrames(p0) == {}
    ensures f != 0 ==>
      f in FreeFrames(p0) && FreeFrames(p) == FreeFrames(p0) - {f} && forall x :: x in FreeFrames(p0) ==> f <= x
  {
    p := p0;
    var i: nat := 0;
    while i < p.total
      invariant i <= p0.total && p == p0 && forall x :: 0 <= x < i ==> Used(p0.bitmap, x)
    {
      var used := TestBit(p.bitmap, i);
      if !used {
        Lowest(p, i);
        var bitmap := SetBit(p.bitmap, i);
        p := p.(bitmap := bitmap, used := p.used + 1, free := p.free - 1);
        Taken(p0, p, i);
        return i * PAGE_SIZE, p, i;
      }
      i := i + 1;
    }
    addr, f := 0, 0;
  }

  lemma {:induction false} Lowest(p: Pmm, f: nat)
    requires Valid(p) && f < p.total && !Used(p.bitmap, f) && forall x :: 0 <= x < f ==> Used(p.bitmap, x)
    ensures f > 0 && p.free > 0 && f in FreeFrames(p) && forall x :: x in FreeFrames(p) ==> f <= x
  {
    assert f in FreeFrames(p);
  }

  method FrameNumber(addr: nat, ghost f: nat, ghost o: nat) returns (n: nat)
    requires addr == f * PAGE_SIZE + o && o < PAGE_SIZE
    ensures n == f
  {
    n := addr / PAGE_SIZE;
  }

  /** pmm_free_frame, of an address with offset `o` in frame `f`: frames out of range and free
      frames are left alone; otherwise exactly this frame becomes free.  An address inside
      frame 0 other than 0 itself gives frame 0 away; that is the one way to break the
      allocator. */
  method FreeFrame(p0: Pmm, addr: nat, ghost f: nat, ghost o: nat) returns (p: Pmm)
    requires Counted(p0) && addr == f * PAGE_SIZE + o && o < PAGE_SIZE
    ensures Counted(p) && p.total == p0.total
      && FreeFrames(p) == FreeFrames(p0) + if addr != 0 && f < p0.total then {f} else {}
    ensures Valid(p) <==> Valid(p0) && (addr == 0 || addr >= PAGE_SIZE || p0.total == 0)
  {
    p := p0;
    if addr == 0 {
      return;
    }
    var frame := FrameNumber(addr, f, o);
    if frame >= p.total {
      return;
    }
    var used := TestBit(p.bitmap, frame);
    if !used {
      return;
    }
    var bitmap := ClearBit(p.bitmap, frame);
    SomeUsed(p, frame);
    p := p.(bitmap := bitmap, used := p.used - 1, free := p.free + 1);
    GivenBack(p0, p, frame);
  }

  // ----- runs of frames -----

  ghost function Range(a: nat, n: nat): (s: set<nat>)
    ensures |s| == n && forall x :: x in s <==> a <= x < a + n
  {
    if n == 0 then {} else Range(a, n - 1) + {a + n - 1}
  }

  ghost predicate AllFree(bitmap: seq<nat>, a: nat, n: nat)
    requires a + n <= 32 * |bitmap|
  {
    forall f :: a <= f < a + n ==> !Used(bitmap, f)
  }

  /** No run of `n` free frames lies below `end`. */
  ghost predicate NoRun(bitmap: seq<nat>, n: nat, end: nat)
    requires end <= 32 * |bitmap|
  {
    forall a :: 0 <= a && a + n <= end ==> !AllFree(bitmap, a, n)
  }

  /** The scan stands at `i` behind `found` free frames that begin at `start`. */
  ghost predicate Scanning(bitmap: seq<nat>, n: nat, i: nat, found: nat, start: nat)
    requires i <= 32 * |bitmap|
  {
    && found < n && found <= i && NoRun(bitmap, n, i) && (found > 0 ==> start == i - found)
    && AllFree(bitmap, i - found, found) && (found < i ==> Used(bitmap, i - found - 1))
  }

  lemma {:induction false} ScanStep(bitmap: seq<nat>, n: nat, i: nat, found: nat, start: nat)
    requires i < 32 * |bitmap| && Scanning(bitmap, n, i, found, start)
    ensures Used(bitmap, i) ==> Scanning(bitmap, n, i + 1, 0, 0)
    ensures !Used(bitmap, i) ==> AllFree(bitmap, i - found, found + 1)
    ensures !Used(bitmap, i) && found + 1 < n ==> Scanning(bitmap, n, i + 1, found + 1, i - found)
  {
    forall a | 0 <= a && a + n <= i + 1 && (Used(bitmap, i) || found + 1 < n) ensures !AllFree(bitmap, a, n) {
      if a + n == i + 1 {
        assert if Used(bitmap, i) then a <= i < a + n else a <= i - found - 1 < a + n;
      }
    }
  }

  /** Frames `a` to `a + n` have been taken. */
  lemma {:induction false} RunTaken(p: Pmm, q: Pmm, a: nat, n: nat)
    requires Valid(p) && n > 0 && a + n <= p.total && AllFree(p.bitmap, a, n) && |q.bitmap| == |p.bitmap|
    requires q.total == p.total && q.used == p.used + n && q.free == p.free - n
    requires forall x :: 0 <= x < 32 * |p.bitmap| ==> Used(q.bitmap, x) == (a <= x < a + n || Used(p.bitmap, x))
    ensures Valid(q) && FreeFrames(q) == FreeFrames(p) - Range(a, n) && Range(a, n) <= FreeFrames(p) && a > 0
  {
    assert FreeFrames(q) == FreeFrames(p) - Range(a, n);
    assert FreeFrames(p) == FreeFrames(q) + Range(a, n);
  }

  /** The inner loop of pmm_alloc_frames. */
  method SetBits(bitmap0: seq<nat>, a: nat, n: nat) returns (bitmap: seq<nat>)
    requires a + n <= 32 * |bitmap0|
    ensures |bitmap| == |bitmap0|
      && forall x :: 0 <= x < 32 * |bitmap0| ==> Used(bitmap, x) == (a <= x < a + n || Used(bitmap0, x))
  {
    bitmap := bitmap0;
    var j: nat := 0;
    while j < n
      invariant j <= n && |bitmap| == |bitmap0|
      invariant forall x :: 0 <= x < 32 * |bitmap0| ==> Used(bitmap, x) == (a <= x < a + j || Used(bitmap0, x))
    {
      bitmap := SetBit(bitmap, a + j);
      j := j + 1;
    }
  }

  /** The scan of pmm_alloc_frames. */
  method FindRun(bitmap: seq<nat>, total: nat, count: nat) returns (ok: bool, start: nat)
    requires total <= 32 * |bitmap| && count > 0
    ensures ok ==> start + count <= total && AllFree(bitmap, start, count) && NoRun(bitmap, count, start + count - 1)
    ensures !ok ==> NoRun(bitmap, count, total)
  {
    start := 0;
    var found: nat, i: nat := 0, 0;
    while i < total
      invariant i <= total && Scanning(bitmap, count, i, found, start)
    {
      ScanStep(bitmap, count, i, found, start);
      var used := TestBit(bitmap, i);
      if !used {
        if found == 0 {
          start := i;
        }
        found := found + 1;
        if found == count {
          return true, start;
        }
      } else {
        found := 0;
      }
      i := i + 1;
    }
    ok := false;
  }

  /** pmm_alloc_frames: the lowest run of `count` free frames, or 0 when there is none. */
  method AllocFrames(p0: Pmm, count: nat) returns (addr: nat, p: Pmm, ghost a: nat)
    requires Valid(p0)
    ensures Valid(p) && p.total == p0.total && addr == a * PAGE_SIZE
    ensures a == 0 ==> p == p0 && (count == 0 || NoRun(p0.bitmap, count, p0.total))
    ensures a != 0 ==> count > 0 && a + count <= p0.total && NoRun(p0.bitmap, count, a + count - 1)
    ensures a != 0 ==> Range(a, count) <= FreeFrames(p0) && FreeFrames(p) == FreeFrames(p0) - Range(a, count)
  {
    p, addr, a := p0, 0, 0;
    if count == 0 {
      return;
    }
    if count == 1 {
      addr, p, a := AllocFrame(p0);
      OneFrame(p0, a);
      return;
    }
    var ok, start := FindRun(p.bitmap, p.total, count);
    if ok {
      Enough(p0, start, count);
      var bitmap := SetBits(p.bitmap, start, count);
      p := p.(bitmap := bitmap, used := p.used + count, free := p.free - count);
      RunTaken(p0, p, start, count);
      addr, a := start * PAGE_SIZE, start;
    }
  }

  lemma {:induction false} Enough(p: Pmm, a: nat, n: nat)
    requires Valid(p) && a + n <= p.total && AllFree(p.bitmap, a, n)
    ensures n <= p.free
  {
    Smaller(Range(a, n), FreeFrames(p));
  }

  /** A run of one frame is a frame. */
  lemma {:induction false} OneFrame(p: Pmm, f: nat)
    requires Valid(p)
    requires if f == 0 then FreeFrames(p) == {} else f in FreeFrames(p) && forall x :: x in FreeFrames(p) ==> f <= x
    ensures NoRun(p.bitmap, 1, if f == 0 then p.total else f) && Range(f, 1) == {f}
  {
    forall a | 0 <= a && a + 1 <= (if f == 0 then p.total else f) ensures !AllFree(p.bitmap, a, 1) {
      assert a !in FreeFrames(p);
    }
  }

  /** The frame `i` steps behind frame `f`, in 32-bit arithmetic. */
  ghost function FrameAt(f: nat, i: nat): nat
  {
    (f + i) % FRAMES
  }

  ghost predicate Visited(f: nat, n: nat, x: nat)
  {
    exists i :: 0 <= i < n && FrameAt(f, i) == x
  }

  /** What freeing `n` frames from frame `f` on gives back: those that exist, and frame 0 only
      when it is not given by its own address. */
  ghost function Returned(f: nat, n: nat, total: nat, aligned: bool): (s: set<nat>)
  {
    set x | 0 <= x < total && Visited(f, n, x) && (x == 0 ==> !aligned)
  }

  ghost predicate Returning(p0: Pmm, p: Pmm, f: nat, n: nat, aligned: bool)
    requires Counted(p0)
  {
    Counted(p) && p.total == p0.total && FreeFrames(p) == FreeFrames(p0) + Returned(f, n, p0.total, aligned)
  }

  lemma {:induction false} OneMore(s: set<nat>, f: nat, n: nat, total: nat, aligned: bool, x: nat)
    requires x == FrameAt(f, n)
    ensures s + Returned(f, n + 1, total, aligned)
         == s + Returned(f, n, total, aligned) + if x < total && (x == 0 ==> !aligned) then {x} else {}
  {
    forall y ensures Visited(f, n + 1, y) <==> Visited(f, n, y) || y == x {
      if y == x { assert FrameAt(f, n) == y; }
      if Visited(f, n, y) {
        var i :| 0 <= i < n && FrameAt(f, i) == y;
      }
    }
  }

  /** The address of step `i`, which may pass the end of the address space. */
  lemma {:induction false} AddressAt(addr: nat, f: nat, o: nat, i: nat)
    requires addr == f * PAGE_SIZE + o && o < PAGE_SIZE
    ensures (addr + i * PAGE_SIZE) % 0x100000000 == FrameAt(f, i) * PAGE_SIZE + o
  {
    var q := (f + i) / FRAMES;
    assert f + i == q * FRAMES + FrameAt(f, i);
    assert addr + i * PAGE_SIZE == q * 0x100000000 + (FrameAt(f, i) * PAGE_SIZE + o);
    Remainder(q, FrameAt(f, i) * PAGE_SIZE + o);
  }

  lemma {:induction false} Remainder(q: nat, r: nat)
    requires r < 0x100000000
    ensures (q * 0x100000000 + r) % 0x100000000 == r
  {
  }

  /** One turn of the loop of pmm_free_frames. */
  method FreeNext(p: Pmm, addr: nat, i: nat, ghost p0: Pmm, ghost f: nat, ghost o: nat) returns (q: Pmm)
    requires Counted(p0) && addr == f * PAGE_SIZE + o && o < PAGE_SIZE && Returning(p0, p, f, i, o == 0)
    ensures Returning(p0, q, f, i + 1, o == 0)
  {
    AddressAt(addr, f, o, i);
    q := FreeFrame(p, (addr + i * PAGE_SIZE) % 0x100000000, FrameAt(f, i), o);
    OneMore(FreeFrames(p0), f, i, p0.total, o == 0, FrameAt(f, i));
  }

  /** The loop of pmm_free_frames. */
  method FreeEach(p0: Pmm, addr: nat, count: nat, ghost f: nat, ghost o: nat) returns (p: Pmm)
    requires Counted(p0) && addr == f * PAGE_SIZE + o && o < PAGE_SIZE
    ensures Returning(p0, p, f, count, o == 0)
  {
    p := p0;
    NoneYet(p0, f, o == 0);
    var i: nat := 0;
    while i < count
      invariant i <= count && Returning(p0, p, f, i, o == 0)
    {
      p := FreeNext(p, addr, i, p0, f, o);
      i := i + 1;
    }
  }

  /** pmm_free_frames, from an address with offset `o` in frame `f` on: every frame of the run,
      which goes on at frame 0 behind the last address, is free afterwards if it exists, apart
      from frame 0 when it is given by its address, and no other frame has changed.  The
      allocator is broken exactly when the run meets frame 0 with an offset: at its start or
      behind the last address. */
  method FreeRun(p0: Pmm, addr: nat, count: nat, ghost f: nat, ghost o: nat) returns (p: Pmm)
    requires Counted(p0) && addr == f * PAGE_SIZE + o < 0x100000000 && o < PAGE_SIZE
    ensures Returning(p0, p, f, count, o == 0)
    ensures Valid(p) <==>
      Valid(p0) && (o == 0 || p0.total == 0 || count == 0 || (addr >= PAGE_SIZE && f + count <= FRAMES))
  {
    p := FreeEach(p0, addr, count, f, o);
    RunMeets0(p0, p, addr, f, o, count);
  }

  lemma {:induction false} NoneYet(p: Pmm, f: nat, aligned: bool)
    requires Counted(p)
    ensures Returning(p, p, f, 0, aligned)
  {
    assert Returned(f, 0, p.total, aligned) == {};
  }

  lemma {:induction false} RunMeets0(p0: Pmm, p: Pmm, addr: nat, f: nat, o: nat, n: nat)
    requires Counted(p0) && addr == f * PAGE_SIZE + o < 0x100000000 && o < PAGE_SIZE
    requires Returning(p0, p, f, n, o == 0)
    ensures Valid(p) <==>
      Valid(p0) && (o == 0 || p0.total == 0 || n == 0 || (addr >= PAGE_SIZE && f + n <= FRAMES))
  {
    Meets0(f, n);
    assert 0 in Returned(f, n, p0.total, o == 0) <==> p0.total > 0 && Visited(f, n, 0) && o != 0;
  }

  lemma {:induction false} Meets0(f: nat, n: nat)
    requires f < FRAMES
    ensures Visited(f, n, 0) <==> n > 0 && (f == 0 || f + n > FRAMES)
  {
    if n > 0 && f == 0 {
      assert FrameAt(f, 0) == 0;
    } else if f + n > FRAMES {
      assert FrameAt(f, FRAMES - f) == 0;
    } else {
      forall i: nat | i < n ensures FrameAt(f, i) == f + i { Behind(f, i); }
    }
  }

  /** An address inside frame 0, and a run that reaches it behind the last address: both give
      frame 0 away. */
  method GivesAwayFrame0() returns (p: Pmm, q: Pmm)
    ensures Counted(p) && !Valid(p) && Counted(q) && !Valid(q)
  {
    var bitmap := FullBitmap(1);
    var p0 := Pmm(bitmap, 32, 32, 0);
    assert FreeFrames(p0) == {};
    p := FreeFrame(p0, 0x800, 0, 0x800);
    q := FreeRun(p0, 0xFFFFF800, 2, 0xFFFFF, 0x800);
  }

  /** What a run was allocated from is what freeing it gives back. */
  method RoundTrip(p0: Pmm, count: nat) returns (p: Pmm)
    requires Valid(p0)
    ensures Valid(p) && FreeFrames(p) == FreeFrames(p0)
  {
    var addr;
    ghost var a;
    addr, p, a := AllocFrames(p0, count);
    if addr != 0 {
      ghost var p1 := p;
      p := FreeRun(p, addr, count, a, 0);
      BackAgain(p0, p1, p, a, count);
    }
  }

  lemma {:induction false} BackAgain(p0: Pmm, p1: Pmm, p: Pmm, a: nat, count: nat)
    requires Valid(p0) && Valid(p1) && p1.total == p0.total && 0 < a && a + count <= p0.total
    requires Range(a, count) <= FreeFrames(p0) && FreeFrames(p1) == FreeFrames(p0) - Range(a, count)
      && Returning(p1, p, a, count, true)
    ensures FreeFrames(p) == FreeFrames(p0)
  {
    Straight(a, count, p0.total);
    assert FreeFrames(p0) - Range(a, count) + Range(a, count) == FreeFrames(p0);
  }

  /** A run that stays below the last address. */
  lemma {:induction false} Straight(a: nat, count: nat, total: nat)
    requires 0 < a && a + count <= total <= FRAMES
    ensures Returned(a, count, total, true) == Range(a, count)
  {
    forall x: nat ensures Visited(a, count, x) <==> a <= x < a + count {
      if a <= x < a + count {
        Behind(a, x - a);
      } else if Visited(a, count, x) {
        var i :| 0 <= i < count && FrameAt(a, i) == x;
        Behind(a, i);
      }
    }
  }

  lemma {:induction false} Behind(f: nat, i: nat)
    requires f + i < FRAMES
    ensures FrameAt(f, i) == f + i
  {
  }

  // ----- initialisation -----

  ghost function Ones(n: nat): nat
  {
    if n == 0 then 0 else 2 * Ones(n - 1) + 1
  }

  lemma {:induction false} OnesHas(n: nat, k: nat)
    requires k < n
    ensures Has(Ones(n), k)
  {
    assert Ones(n) / 2 == Ones(n - 1);
    if k > 0 { OnesHas(n - 1, k - 1); }
  }

  lemma {:induction false} FullWord()
    ensures Ones(32) == 0xFFFFFFFF
  {
    assert Ones(8) == 0xFF;
    assert Ones(16) == 0xFFFF;
    assert Ones(24) == 0xFFFFFF;
  }

  /** memset of the bitmap: every frame is used. */
  method FullBitmap(n: nat) returns (bitmap: seq<nat>)
    ensures |bitmap| == n && forall f :: 0 <= f < 32 * n ==> Used(bitmap, f)
  {
    bitmap := [];
    FullWord();
    while |bitmap| < n
      invariant |bitmap| <= n && forall i :: 0 <= i < |bitmap| ==> bitmap[i] == 0xFFFFFFFF
    {
      bitmap := bitmap + [0xFFFFFFFF];
    }
    forall f | 0 <= f < 32 * n ensures Used(bitmap, f) {
      OnesHas(32, f % 32);
    }
  }

  /** PAGE_ALIGN_UP, as a number of pages */
  method PagesFor(bytes: nat) returns (n: nat)
    ensures n * PAGE_SIZE >= bytes && (n > 0 ==> (n - 1) * PAGE_SIZE < bytes)
  {
    n := (bytes + PAGE_SIZE - 1) / PAGE_SIZE;
  }

  /** Where pmm_init puts things: `pages` pages of bitmap behind the kernel, and free frames from
      `first` on. */
  method Plan(memSize: nat, kernelEnd: nat) returns (total: nat, pages: nat, first: nat)
    requires memSize <= 0xFFFFF000 && kernelEnd <= 0xFFFDF000
    ensures total == memSize / PAGE_SIZE < FRAMES && total <= 32 * 1024 * pages && (total > 0 ==> first > 0)
    ensures first * PAGE_SIZE >= kernelEnd + pages * PAGE_SIZE && first <= FRAMES
    ensures first > 0 ==> (first - 1) * PAGE_SIZE < kernelEnd + pages * PAGE_SIZE
  {
    total := memSize / PAGE_SIZE;
    pages := PagesFor((total + 7) / 8);
    first := PagesFor(kernelEnd + pages * PAGE_SIZE);
  }

  /** The loop of pmm_init. */
  method FreeBehind(p0: Pmm, memSize: nat, first: nat) returns (p: Pmm)
    requires Valid(p0) && FreeFrames(p0) == {} && p0.total == memSize / PAGE_SIZE && (p0.total > 0 ==> first > 0)
    ensures Valid(p) && p.total == p0.total && |p.bitmap| == |p0.bitmap|
    ensures forall f :: f in FreeFrames(p) <==> first <= f < p.total
  {
    p := p0;
    var frame: nat := first;
    while frame * PAGE_SIZE < memSize
      invariant first <= frame && Valid(p) && p.total == p0.total && |p.bitmap| == |p0.bitmap|
      invariant forall f :: f in FreeFrames(p) <==> first <= f < frame && f < p.total
      decreases memSize - frame * PAGE_SIZE
    {
      if frame < p.total {
        ghost var q := p;
        assert frame !in FreeFrames(p);
        var words := ClearBit(p.bitmap, frame);
        SomeUsed(p, frame);
        p := p.(bitmap := words, used := p.used - 1, free := p.free + 1);
        GivenBack(q, p, frame);
      }
      frame := frame + 1;
    }
  }

  /** pmm_init: the bitmap lies behind the kernel, and exactly the frames behind the bitmap
      are free.  Above 0xFFFFF000 bytes of memory the loop does not end (NeverEnds). */
  method Init(memSize: nat, kernelEnd: nat) returns (p: Pmm, first: nat)
    requires memSize <= 0xFFFFF000 && kernelEnd <= 0xFFFDF000
    ensures Valid(p) && p.total == memSize / PAGE_SIZE && first * PAGE_SIZE >= kernelEnd + 4 * |p.bitmap|
    ensures first > 0 ==> (first - 1) * PAGE_SIZE < kernelEnd + 4 * |p.bitmap|
    ensures forall f :: f in FreeFrames(p) <==> first <= f < p.total
  {
    var total, pages;
    total, pages, first := Plan(memSize, kernelEnd);
    var bitmap := FullBitmap(pages * 1024);
    p := Pmm(bitmap, total, total, 0);
    assert FreeFrames(p) == {};
    p := FreeBehind(p, memSize, first);
  }

  /** With more than 0xFFFFF000 bytes of memory no address of a frame ends the loop of pmm_init,
      whose counter goes on at 0 behind the last one. */
  lemma {:induction false} NeverEnds(memSize: nat, first: nat, n: nat)
    requires 0xFFFFF000 < memSize < 0x100000000
    ensures (first * PAGE_SIZE + n * PAGE_SIZE) % 0x100000000 < memSize
  {
    AddressAt(first * PAGE_SIZE, first, 0, n);
  }
}
