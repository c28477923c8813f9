/** Anonymous memory for user programs: vmm_mmap of src/kernel/arch/memory/vmm.c. */
module Mmap {
  import opened Basics
  import opened PageTables
  import opened Paging
  import opened PageRuns
  import opened Isolation
  import Pmm

  const MAP_FIXED: nat := 4
  const MAP_ANONYMOUS: nat := 8
  const ALLOC_BASE: nat := 0x100_0000

  /** `flags & bit` is not zero, for a bit that is a power of two. */
  predicate HasFlag(flags: nat, bit: nat)
    requires bit > 0
  {
    flags / bit % 2 == 1
  }

  /** The two bits are among the low 32 that the kernel looks at. */
  lemma LowFlags(flags: nat)
    ensures HasFlag(flags % 0x1_0000_0000, MAP_FIXED) <==> flags / 4 % 2 == 1
    ensures HasFlag(flags % 0x1_0000_0000, MAP_ANONYMOUS) <==> flags / 8 % 2 == 1
  {
    var low, high := flags % 0x1_0000_0000, flags / 0x1_0000_0000;
    assert flags == high * 0x1_0000_0000 + low;
    HighPart(high, low);
    EvenPart(high * 0x2000_0000, low / 4);
    EvenPart(high * 0x1000_0000, low / 8);
  }

  lemma HighPart(high: nat, low: nat)
    ensures (high * 0x1_0000_0000 + low) / 4 == 2 * (high * 0x2000_0000) + low / 4
    ensures (high * 0x1_0000_0000 + low) / 8 == 2 * (high * 0x1000_0000) + low / 8
  {
  }

  lemma EvenPart(q: nat, y: nat)
    ensures (2 * q + y) % 2 == y % 2
  {
  }

  function PagesOf(size: nat): nat
  {
    (size + PAGE_SIZE - 1) / PAGE_SIZE
  }

  /** The least number of pages that hold `size` bytes. */
  lemma WholeSize(size: nat)
    ensures size <= PagesOf(size) * PAGE_SIZE < size + PAGE_SIZE
  {
  }

  /** The place the kernel chooses when `used` pages were handed out before. */
  function Place(used: nat): nat
  {
    used * PAGE_SIZE + ALLOC_BASE
  }

  ghost predicate Zeroed(phys: seq<nat>, w: Mem)
  {
    forall i :: 0 <= i < |phys| ==> phys[i] / PAGE_SIZE in w && w[phys[i] / PAGE_SIZE] == ZeroTable()
  }

  /** The pages from `virt` on are mapped to fresh zeroed frames `phys`. */
  ghost predicate ZeroedRun(w0: Mem, w: Mem, f0: Forest, f: Forest, c0: set<nat>, c: set<nat>, root: nat,
                            phys: seq<nat>, virt: nat)
  {
    FreshRun(w0, w, f0, f, c0, c, root, phys, virt) && Zeroed(phys, w)
  }

  /** One round of the loop: a zeroed frame, mapped at page `i` of `n`. */
  method MapFresh(m: Mapper, pagemap: nat, virt: nat, i: nat, ghost n: nat, ghost phys: seq<nat>, ghost w0: Mem,
                  ghost f0: Forest, ghost c0: set<nat>) returns (frame: nat)
    requires m.Valid() && pagemap in m.forest.roots && i == |phys| < n
    requires ZeroedRun(w0, m.words, f0, m.forest, c0, m.pmm.clear, pagemap, phys, virt)
    requires |c0| >= |RunTables(f0, pagemap, virt, n) - f0.node.Keys| + n
    modifies m`words, m`forest, m.pmm, m.pmm.data
    ensures m.Valid() && m.pmm.data == old(m.pmm.data) && m.pmm.size == old(m.pmm.size)
    ensures ZeroedRun(w0, m.words, f0, m.forest, c0, m.pmm.clear, pagemap, phys + [frame], virt)
  {
    ghost var w, f, c := m.words, m.forest, m.pmm.clear;
    FrameLeft(f0, c0, c, pagemap, virt, i, n);
    frame := m.AllocateOne();
    ghost var w1, c1 := m.words, m.pmm.clear;
    ghost var longer := phys + [frame];
    ghost var extra := |longer|;
    FrameTaken(w0, w, w1, f0, f, c0, c, c1, pagemap, phys, virt, frame / PAGE_SIZE, extra);
    UsualFlags();
    MapNext(m, pagemap, frame, virt, i, 7, w0, f0, c0, phys, longer, extra, n);
    FramesGrow(w, w1, m.words, f, m.forest, c0, c, c1, m.pmm.clear, pagemap, phys, frame);
  }

  lemma FrameLeft(f0: Forest, c0: set<nat>, c: set<nat>, root: nat, virt: nat, i: nat, n: nat)
    requires i < n && |c0| >= |RunTables(f0, root, virt, n) - f0.node.Keys| + n
    requires Trimmed(c0, c, i + |RunTables(f0, root, virt, i) - f0.node.Keys|)
    ensures |c| >= 1
  {
    RunTablesGrow(f0, root, virt, i, n);
    SubsetSize(RunTables(f0, root, virt, i) - f0.node.Keys, RunTables(f0, root, virt, n) - f0.node.Keys);
  }

  /** A frame taken and zeroed. */
  lemma FrameTaken(w0: Mem, w: Mem, w1: Mem, f0: Forest, f: Forest, c0: set<nat>, c: set<nat>, c1: set<nat>, root: nat,
                   phys: seq<nat>, virt: nat, fr: nat, extra: nat)
    requires extra == |phys| + 1 && RunDone(w0, w, f0, f, c0, c, root, phys, virt, 7, |phys|) && Grown(w, f, c)
    requires Grown(w1, f, c1)
    requires Pmm.IsLeast(fr, c) && c1 == c - {fr} && w1 == w[fr := ZeroTable()] && SameLookups(w, w1, f, f)
    ensures RunDone(w0, w1, f0, f, c0, c1, root, phys, virt, 7, extra)
  {
    LookupsAreWalks(w, w1, f, f, c, c1);
    RunKept(w0, w, w1, f0, root, phys, virt);
    OneTaken(c, fr);
    TrimmedTrans(c0, c, c1, |phys| + |RunTables(f0, root, virt, |phys|) - f0.node.Keys|, 1);
  }

  lemma RunKept(w0: Mem, w: Mem, w1: Mem, f0: Forest, root: nat, phys: seq<nat>, virt: nat)
    requires RunMapped(w0, w, f0, root, phys, virt, 7) && SameWalks(w, w1, f0.roots)
    ensures RunMapped(w0, w1, f0, root, phys, virt, 7)
  {
    forall r, p | r in f0.roots && InRange(p)
      ensures Walk(w1, r, p) ==
              if Sees(f0, root, r, p.a) then Leaves(phys, virt, 7, p, Walk(w0, r, p)) else Walk(w0, r, p)
    {
      assert Walk(w, r, p) ==
        if Sees(f0, root, r, p.a) then Leaves(phys, virt, 7, p, Walk(w0, r, p)) else Walk(w0, r, p);
    }
  }

  /** The frames mapped so far stay as they are, and the new one is as good. */
  lemma FramesGrow(w: Mem, w1: Mem, w2: Mem, f: Forest, f2: Forest, c0: set<nat>, c: set<nat>, c1: set<nat>,
                   c2: set<nat>, root: nat, phys: seq<nat>, frame: nat)
    requires OwnFrames(phys, f, c0, c) && Zeroed(phys, w) && Grown(w, f, c) && c2 <= c1 && c <= c0
    requires frame % PAGE_SIZE == 0 && frame / PAGE_SIZE in c && c1 == c - {frame / PAGE_SIZE}
    requires w1 == w[frame / PAGE_SIZE := ZeroTable()]
    requires Extended(f, f2, root, c1) && DataKept(w1, w2, f2, c1)
    ensures OwnFrames(phys + [frame], f2, c0, c2) && Zeroed(phys + [frame], w2)
  {
    assert frame / PAGE_SIZE !in f.owner;
  }

  /** vmm_mmap for anonymous mappings; other kinds never return. */
  method Map(m: Mapper, pagemap: nat, hint: nat, size: nat, flags: nat, usedPages: nat)
    returns (used: nat, ret: nat, ghost phys: seq<nat>)
    requires m.Valid() && pagemap in m.forest.roots && flags / 8 % 2 == 1
    requires var virt, pages := if flags / 4 % 2 == 1 then hint else Place(usedPages), PagesOf(size);
      |m.pmm.clear| >= |RunTables(m.forest, pagemap, virt, pages) - m.forest.node.Keys| + pages
    modifies m`words, m`forest, m.pmm, m.pmm.data
    ensures m.Valid() && m.pmm.data == old(m.pmm.data) && m.pmm.size == old(m.pmm.size)
    ensures ret == if flags / 4 % 2 == 1 then hint else usedPages * 4096 + 0x100_0000
    ensures used == usedPages + if flags / 4 % 2 == 1 then 0 else |phys|
    ensures |phys| == PagesOf(size) && size <= |phys| * PAGE_SIZE < size + PAGE_SIZE
    ensures ZeroedRun(old(m.words), m.words, old(m.forest), m.forest, old(m.pmm.clear), m.pmm.clear, pagemap, phys, ret)
    ensures Isolated(old(m.words), old(m.forest), old(m.pmm.clear)) ==> Isolated(m.words, m.forest, m.pmm.clear)
  {
    var actualFlags := flags % 0x1_0000_0000;
    var pages := PagesOf(size);
    var virt;
    used := usedPages;
    if HasFlag(actualFlags, MAP_FIXED) {
      virt := hint;
    } else {
      virt := used * PAGE_SIZE + ALLOC_BASE;
      used := used + pages;
    }
    WholeSize(size);
    LowFlags(flags);
    phys := MapPages(m, pagemap, virt, pages);
    ret := virt;
    FreshRunKeepsApart(old(m.words), m.words, old(m.forest), m.forest, old(m.pmm.clear), m.pmm.clear, pagemap, phys,
                       virt);
  }

  /** The loop. */
  method MapPages(m: Mapper, pagemap: nat, virt: nat, pages: nat) returns (ghost phys: seq<nat>)
    requires m.Valid() && pagemap in m.forest.roots
    requires |m.pmm.clear| >= |RunTables(m.forest, pagemap, virt, pages) - m.forest.node.Keys| + pages
    modifies m`words, m`forest, m.pmm, m.pmm.data
    ensures m.Valid() && m.pmm.data == old(m.pmm.data) && m.pmm.size == old(m.pmm.size) && |phys| == pages
    ensures ZeroedRun(old(m.words), m.words, old(m.forest), m.forest, old(m.pmm.clear), m.pmm.clear, pagemap, phys,
                      virt)
  {
    ghost var w0, f0, c0 := m.words, m.forest, m.pmm.clear;
    phys := [];
    NothingDone(w0, f0, c0, pagemap, virt, 7);
    for i := 0 to pages
      invariant m.Valid() && m.pmm.data == old(m.pmm.data) && m.pmm.size == old(m.pmm.size) && |phys| == i
      invariant ZeroedRun(w0, m.words, f0, m.forest, c0, m.pmm.clear, pagemap, phys, virt)
    {
      var frame := MapFresh(m, pagemap, virt, i, pages, phys, w0, f0, c0);
      phys := phys + [frame];
    }
  }

  // ----- A run of calls --------------------------------------------------------------------

  /** A call that leaves the place to the kernel, and the frames it mapped there. */
  datatype Call = Call(root: nat, size: nat, phys: seq<nat>)

  /** What memory, tables and clear frames are at one moment. */
  datatype Moment = Moment(w: Mem, f: Forest, c: set<nat>)

  /** used_pages of address space `root` before call `i`, when it was `first(root)` before all of them. */
  function UsedBefore(calls: seq<Call>, first: nat -> nat, root: nat, i: nat): nat
    requires i <= |calls|
  {
    if i == 0 then first(root)
    else UsedBefore(calls, first, root, i - 1) + if calls[i - 1].root == root then PagesOf(calls[i - 1].size) else 0
  }

  /** Where the range of call `i` starts. */
  function RangeAt(calls: seq<Call>, first: nat -> nat, i: nat): nat
    requires i < |calls|
  {
    Place(UsedBefore(calls, first, calls[i].root, i))
  }

  /** Call `i` is made at moment `i` and does what vmm_mmap does. */
  ghost predicate CallAt(ms: seq<Moment>, calls: seq<Call>, first: nat -> nat, i: nat)
    requires i < |calls| && |ms| == |calls| + 1
  {
    CallMade(ms[i], ms[i + 1], calls, first, i)
  }

  ghost predicate CallMade(a: Moment, b: Moment, calls: seq<Call>, first: nat -> nat, i: nat)
    requires i < |calls|
  {
    && calls[i].root in a.f.roots && |calls[i].phys| == PagesOf(calls[i].size)
    && ZeroedRun(a.w, b.w, a.f, b.f, a.c, b.c, calls[i].root, calls[i].phys, RangeAt(calls, first, i))
  }

  lemma CallIs(ms: seq<Moment>, calls: seq<Call>, first: nat -> nat, i: nat, next: nat)
    requires |ms| == |calls| + 1 && i < |calls| && next == i + 1 && CallAt(ms, calls, first, i)
    ensures CallMade(ms[i], ms[next], calls, first, i)
  {
  }

  /** No address space runs out of its lower half. */
  ghost predicate EnoughRoom(calls: seq<Call>, first: nat -> nat)
  {
    forall i: nat :: i < |calls| ==> Place(UsedBefore(calls, first, calls[i].root, |calls|)) <= 0x8000_0000_0000
  }

  lemma {:induction false} UsedGrows(calls: seq<Call>, first: nat -> nat, root: nat, i: nat, j: nat)
    requires i <= j <= |calls|
    ensures UsedBefore(calls, first, root, i) <= UsedBefore(calls, first, root, j)
    ensures i < j && calls[i].root == root ==>
              UsedBefore(calls, first, root, i) + PagesOf(calls[i].size) <= UsedBefore(calls, first, root, j)
    decreases j
  {
    if i < j {
      UsedGrows(calls, first, root, i, j - 1);
    }
  }

  /** The ranges handed out to one address space lie above ALLOC_BASE, each after the ones before. */
  lemma RangesDisjoint(calls: seq<Call>, first: nat -> nat, i: nat, j: nat)
    requires i < j < |calls| && calls[i].root == calls[j].root
    ensures ALLOC_BASE <= RangeAt(calls, first, i)
    ensures RangeAt(calls, first, i) + PagesOf(calls[i].size) * PAGE_SIZE <= RangeAt(calls, first, j)
    ensures RangeAt(calls, first, i) + calls[i].size <= RangeAt(calls, first, j)
  {
    WholeSize(calls[i].size);
    UsedGrows(calls, first, calls[i].root, i, j);
  }

  /** Pages of a range lie in the lower half. */
  lemma RangeLow(calls: seq<Call>, first: nat -> nat, i: nat, k: nat)
    requires i < |calls| && EnoughRoom(calls, first) && k < PagesOf(calls[i].size)
    ensures RangeAt(calls, first, i) / PAGE_SIZE + k < 0x8_0000_0000 && PageAt(RangeAt(calls, first, i), k).a < 256
  {
    UsedGrows(calls, first, calls[i].root, i, |calls|);
    var va := AddressAt(RangeAt(calls, first, i), k);
    assert Place(UsedBefore(calls, first, calls[i].root, |calls|)) <= 0x8000_0000_0000;
    assert va / 0x80_0000_0000 < 256;
  }

  lemma RangeLower(calls: seq<Call>, first: nat -> nat, i: nat)
    requires i < |calls| && EnoughRoom(calls, first)
    ensures Lower(RangeAt(calls, first, i), PagesOf(calls[i].size))
  {
    forall k: nat | k < PagesOf(calls[i].size) ensures PageAt(RangeAt(calls, first, i), k).a < 256 {
      RangeLow(calls, first, i, k);
    }
  }

  /** Pages of different ranges of one address space differ. */
  lemma RangePagesDiffer(calls: seq<Call>, first: nat -> nat, i: nat, k: nat, j: nat, l: nat)
    requires i < j < |calls| && calls[i].root == calls[j].root && EnoughRoom(calls, first)
    requires k < PagesOf(calls[i].size) && l < PagesOf(calls[j].size)
    ensures PageAt(RangeAt(calls, first, i), k) != PageAt(RangeAt(calls, first, j), l)
  {
    RangesDisjoint(calls, first, i, j);
    RangeLow(calls, first, i, k);
    RangeLow(calls, first, j, l);
    DifferentPages(RangeAt(calls, first, i), k, RangeAt(calls, first, j), l);
  }

  /** Page `k` of call `i`'s range leads to its own zeroed frame, which is taken and holds no table. */
  ghost predicate Kept(m: Moment, calls: seq<Call>, first: nat -> nat, i: nat, k: nat)
    requires i < |calls| && k < |calls[i].phys|
  {
    LeadsTo(m, calls[i].root, PageAt(RangeAt(calls, first, i), k), calls[i].phys[k])
  }

  ghost predicate LeadsTo(m: Moment, root: nat, p: Page, frame: nat)
  {
    root in m.f.roots && InRange(p) && Walk(m.w, root, p) == Some(frame + 7) && Blank(m, frame / PAGE_SIZE)
  }

  ghost predicate Blank(m: Moment, fr: nat)
  {
    fr in m.w && m.w[fr] == ZeroTable() && IsData(m.f, m.c, fr)
  }

  /** Whatever the calls and whichever address spaces they are for: every page of every range handed out so far leads
      to its own zeroed frame. */
  lemma {:induction false} RangesKept(ms: seq<Moment>, calls: seq<Call>, first: nat -> nat, n: nat, i: nat, k: nat)
    requires |ms| == |calls| + 1 && forall j: nat :: j < |calls| ==> CallAt(ms, calls, first, j)
    requires EnoughRoom(calls, first) && i < n <= |calls| && k < |calls[i].phys|
    ensures Kept(ms[n], calls, first, i, k)
    decreases n
  {
    var last: nat := n - 1;
    CallIs(ms, calls, first, last, n);
    if i == last {
      FewPages(calls, first, i);
      MadeNow(ms[last], ms[n], calls[i].root, calls[i].phys, RangeAt(calls, first, i), k);
    } else {
      assert CallAt(ms, calls, first, i);
      RangesKept(ms, calls, first, last, i, k);
      StaysKept(ms[last], ms[n], calls, first, last, i, k);
    }
  }

  lemma MadeNow(a: Moment, b: Moment, root: nat, phys: seq<nat>, virt: nat, k: nat)
    requires root in a.f.roots && k < |phys| < 0x10_0000_0000
    requires ZeroedRun(a.w, b.w, a.f, b.f, a.c, b.c, root, phys, virt)
    ensures LeadsTo(b, root, PageAt(virt, k), phys[k])
  {
    LeavesAt(phys, virt, 7, k, Walk(a.w, root, PageAt(virt, k)));
  }

  lemma FewPages(calls: seq<Call>, first: nat -> nat, i: nat)
    requires i < |calls| && EnoughRoom(calls, first)
    ensures PagesOf(calls[i].size) < 0x10_0000_0000
  {
    UsedGrows(calls, first, calls[i].root, i, |calls|);
    assert Place(UsedBefore(calls, first, calls[i].root, |calls|)) <= 0x8000_0000_0000;
  }

  lemma StaysKept(a: Moment, b: Moment, calls: seq<Call>, first: nat -> nat, last: nat, i: nat, k: nat)
    requires i < last < |calls| && EnoughRoom(calls, first) && k < |calls[i].phys| && k < PagesOf(calls[i].size)
    requires CallMade(a, b, calls, first, last) && Kept(a, calls, first, i, k)
    ensures Kept(b, calls, first, i, k)
  {
    var p, virt, phys := PageAt(RangeAt(calls, first, i), k), RangeAt(calls, first, last), calls[last].phys;
    RangeLower(calls, first, last);
    if calls[i].root == calls[last].root {
      forall l: nat | l < |phys| ensures PageAt(virt, l) != p {
        RangePagesDiffer(calls, first, i, k, last, l);
      }
    }
    StillLeads(a, b, calls[last].root, phys, virt, calls[i].root, p, calls[i].phys[k]);
  }

  lemma StillLeads(a: Moment, b: Moment, root: nat, phys: seq<nat>, virt: nat, r: nat, p: Page, frame: nat)
    requires ZeroedRun(a.w, b.w, a.f, b.f, a.c, b.c, root, phys, virt) && Lower(virt, |phys|)
    requires LeadsTo(a, r, p, frame) && (r == root ==> !Covers(virt, |phys|, p))
    ensures LeadsTo(b, r, p, frame)
  {
    LowerRun(a.w, b.w, a.f, root, phys, virt, 7, r, p);
    if r == root {
      LeavesOutside(phys, virt, 7, p, Walk(a.w, r, p));
    }
    StillBlank(a, b, frame / PAGE_SIZE);
  }

  lemma StillBlank(a: Moment, b: Moment, fr: nat)
    requires Blank(a, fr) && DataKept(a.w, b.w, b.f, a.c) && b.c <= a.c
    requires forall x :: x in b.f.owner ==> x in a.f.owner || x in a.c
    ensures Blank(b, fr)
  {
  }

  /** Byte `o` of the range from `virt` on is in frame number o / 4096 of `phys`, and zero. */
  ghost predicate ReadsZero(m: Moment, root: nat, virt: nat, phys: seq<nat>, o: nat)
  {
    && o / PAGE_SIZE < |phys| && Translate(m.w, root, virt + o) == Some(phys[o / PAGE_SIZE] + o % PAGE_SIZE)
    && ByteAt(m.w, phys[o / PAGE_SIZE] + o % PAGE_SIZE) == 0
  }

  /** So a process reads zeros from the whole range it asked for, until it writes there itself. */
  lemma BytesKept(ms: seq<Moment>, calls: seq<Call>, first: nat -> nat, n: nat, i: nat, o: nat)
    requires |ms| == |calls| + 1 && forall j: nat :: j < |calls| ==> CallAt(ms, calls, first, j)
    requires EnoughRoom(calls, first) && i < n <= |calls| && o < calls[i].size
    ensures ReadsZero(ms[n], calls[i].root, RangeAt(calls, first, i), calls[i].phys, o)
  {
    var k := o / PAGE_SIZE;
    assert CallAt(ms, calls, first, i);
    ByteOfCall(ms[i], ms[i + 1], calls, first, i, o, k);
    RangesKept(ms, calls, first, n, i, k);
    ZeroByte(ms[n], calls[i].root, RangeAt(calls, first, i), calls[i].phys, o, k);
  }

  lemma ByteOfCall(a: Moment, b: Moment, calls: seq<Call>, first: nat -> nat, i: nat, o: nat, k: nat)
    requires i < |calls| && CallMade(a, b, calls, first, i) && o < calls[i].size && k == o / PAGE_SIZE
    ensures k < |calls[i].phys| && calls[i].phys[k] % PAGE_SIZE == 0 && RangeAt(calls, first, i) % PAGE_SIZE == 0
  {
    PlaceAligned(UsedBefore(calls, first, calls[i].root, i));
    PageInside(calls[i].size, o, k);
  }

  lemma PlaceAligned(used: nat)
    ensures Place(used) % PAGE_SIZE == 0
  {
    assert Place(used) == (used + 0x1000) * PAGE_SIZE;
  }

  lemma PageInside(size: nat, o: nat, k: nat)
    requires o < size && k == o / PAGE_SIZE
    ensures k < PagesOf(size)
  {
  }

  lemma ZeroByte(m: Moment, root: nat, virt: nat, phys: seq<nat>, o: nat, k: nat)
    requires virt % PAGE_SIZE == 0 && k == o / PAGE_SIZE && k < |phys| && phys[k] % PAGE_SIZE == 0
    requires LeadsTo(m, root, PageAt(virt, k), phys[k])
    ensures ReadsZero(m, root, virt, phys, o)
  {
    var frame := phys[k];
    var fr := frame / PAGE_SIZE;
    InPage(virt, o);
    UsualFlags();
    LeafPresent(frame, 7);
    ByteOfZeros(m.w, fr, o % PAGE_SIZE);
    assert fr * PAGE_SIZE == frame;
  }

  lemma ByteOfZeros(w: Mem, fr: nat, o: nat)
    requires fr in w && w[fr] == ZeroTable() && o < PAGE_SIZE
    ensures ByteAt(w, fr * PAGE_SIZE + o) == 0
  {
    FrameAddress(fr, o);
    NoByte(o % 8);
  }

  lemma NoByte(k: nat)
    requires k < 8
    ensures ByteOf(0, k) == 0
  {
  }

  /** No frame is behind two pages of these ranges. */
  lemma RangeFramesDiffer(ms: seq<Moment>, calls: seq<Call>, first: nat -> nat, i: nat, k: nat, j: nat, l: nat)
    requires |ms| == |calls| + 1 && forall n: nat :: n < |calls| ==> CallAt(ms, calls, first, n)
    requires EnoughRoom(calls, first) && i <= j < |calls| && k < |calls[i].phys| && l < |calls[j].phys|
    requires i == j ==> k < l
    ensures calls[i].phys[k] / PAGE_SIZE != calls[j].phys[l] / PAGE_SIZE
  {
    assert CallAt(ms, calls, first, j);
    if i < j {
      assert CallAt(ms, calls, first, i);
      RangesKept(ms, calls, first, j, i, k);
    }
  }

  lemma CallKeepsApart(a: Moment, b: Moment, root: nat, phys: seq<nat>, virt: nat)
    requires ZeroedRun(a.w, b.w, a.f, b.f, a.c, b.c, root, phys, virt)
    ensures Isolated(a.w, a.f, a.c) ==> Isolated(b.w, b.f, b.c)
  {
    FreshRunKeepsApart(a.w, b.w, a.f, b.f, a.c, b.c, root, phys, virt);
  }

  /** And address spaces stay apart. */
  lemma {:induction false} CallsKeepApart(ms: seq<Moment>, calls: seq<Call>, first: nat -> nat, n: nat)
    requires |ms| == |calls| + 1 && forall i: nat :: i < |calls| ==> CallAt(ms, calls, first, i)
    requires n <= |calls| && Isolated(ms[0].w, ms[0].f, ms[0].c)
    ensures Isolated(ms[n].w, ms[n].f, ms[n].c)
  {
    if n > 0 {
      var last: nat := n - 1;
      CallsKeepApart(ms, calls, first, last);
      CallIs(ms, calls, first, last, n);
      CallKeepsApart(ms[last], ms[n], calls[last].root, calls[last].phys, RangeAt(calls, first, last));
    }
  }
}
