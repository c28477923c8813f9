/** The kernel's address space, as vmm_initialize of src/kernel/arch/memory/vmm.c builds it, and that of a
    new process, as task_init of src/kernel/sched.c does. */
module AddressSpaces {
  import opened Basics
  import opened PageTables
  import opened Paging
  import opened PageRuns
  import opened Isolation
  import Pmm

  const MMAP_IO_BASE: nat := 0xffff_8000_0000_0000
  const MMAP_KERNEL_BASE: nat := 0xffff_ffff_8000_0000

  // ----- The kernel's address space -----------------------------------------------------------

  /** Pages from MMAP_IO_BASE up to MMAP_KERNEL_BASE. */
  const IO_PAGES: nat := 0x7_fff8_0000
  /** Pages of the whole upper half and of the first 4 GiB. */
  const UPPER_PAGES: nat := 0x8_0000_0000
  const LOW_PAGES: nat := 0x10_0000

  /** How many pages of physical memory the direct map reaches: 4 GiB, or the longest usable range if that is
      more, for each range is mapped from address 0 on. */
  function DirectPages(es: seq<Pmm.Entry>): (n: nat)
    ensures n >= LOW_PAGES
  {
    if es == [] then LOW_PAGES
    else
      var n, e := DirectPages(es[..|es| - 1]), es[|es| - 1];
      Extent(e, n)
  }

  /** The end of the direct map after range `e`. */
  function Extent(e: Pmm.Entry, n: nat): (k: nat)
    ensures k >= n
  {
    if e.kind == Pmm.USABLE && PagesBetween(0, e.length) > n then PagesBetween(0, e.length) else n
  }

  /** The direct map ends at 4 GiB or at the longest usable range, whichever is more. */
  lemma {:induction false} DirectPagesIs(es: seq<Pmm.Entry>)
    ensures DirectPages(es) >= 0x10_0000
    ensures forall k :: 0 <= k < |es| && es[k].kind == 1 ==> es[k].length <= DirectPages(es) * 4096
    ensures DirectPages(es) > 0x10_0000 ==>
              exists k :: 0 <= k < |es| && es[k].kind == 1 && DirectPages(es) * 4096 < es[k].length + 4096
  {
    if es != [] {
      var init, e := es[..|es| - 1], es[|es| - 1];
      DirectPagesIs(init);
      assert forall k :: 0 <= k < |init| ==> init[k] == es[k];
      RoundedUp(e.length);
      if DirectPages(es) > DirectPages(init) {
        assert es[|es| - 1].kind == 1 && DirectPages(es) * 4096 < es[|es| - 1].length + 4096;
      }
    }
  }

  lemma RoundedUp(length: nat)
    ensures length <= PagesBetween(0, length) * 4096 < length + 4096
  {
  }

  /** Entry of page `i` from MMAP_IO_BASE on, when `n` pages are mapped directly. */
  function KernelEntry(n: nat, i: nat): Option<nat>
  {
    if i < n then Some(i * PAGE_SIZE + 3)
    else if IO_PAGES <= i < IO_PAGES + KERNEL_PAGES then Some((i - IO_PAGES) * PAGE_SIZE + 3)
    else None
  }

  /** The upper half of the kernel's address space, with `n` pages mapped directly. */
  ghost predicate KernelMapped(w: Mem, root: nat, n: nat)
  {
    forall i: nat {:trigger PageAt(MMAP_IO_BASE, i)} :: i < UPPER_PAGES ==>
      Walk(w, root, PageAt(MMAP_IO_BASE, i)) == KernelEntry(n, i)
  }

  /** Nothing is mapped in the lower half of address space `root`. */
  ghost predicate LowerEmpty(w: Mem, root: nat)
  {
    forall p {:trigger Walk(w, root, p)} :: InRange(p) && p.a < 256 ==> Walk(w, root, p) == None
  }

  lemma UpperPage(i: nat)
    requires i < UPPER_PAGES
    ensures PageAt(MMAP_IO_BASE, i).a >= 256
  {
    var slot := i / 0x800_0000;
    PageIndices(MMAP_IO_BASE, i, 0xf_fff8_0000_0000 + i);
    assert (0xf_fff8_0000_0000 + i) / 0x800_0000 == 0x1ff_ff00 + slot && slot < 256;
  }

  /** The kernel's ranges lie in the upper half. */
  lemma LowerStaysEmpty(w: Mem, w': Mem, f: Forest, root: nat, virt: nat, first: nat, k: nat)
    requires LowerEmpty(w, root) && root in f.roots && RunMapped(w, w', f, root, Consecutive(0, k), virt, 3)
    requires first + k <= UPPER_PAGES && forall i: nat :: i < k ==> PageAt(virt, i) == PageAt(MMAP_IO_BASE, first + i)
    ensures LowerEmpty(w', root)
  {
    forall p | InRange(p) && p.a < 256 ensures Walk(w', root, p) == None {
      forall i: nat | i < k ensures PageAt(virt, i) != p {
        UpperPage(first + i);
      }
      LeavesOutside(Consecutive(0, k), virt, 3, p, Walk(w, root, p));
    }
  }

  lemma BothStayEmpty(w: Mem, w': Mem, f: Forest, root: nat, k: nat)
    requires LowerEmpty(w, root) && root in f.roots
    ensures k <= IO_PAGES && RunMapped(w, w', f, root, Consecutive(0, k), MMAP_IO_BASE, 3) ==> LowerEmpty(w', root)
    ensures RunMapped(w, w', f, root, Consecutive(0, KERNEL_PAGES), MMAP_KERNEL_BASE, 3) ==> LowerEmpty(w', root)
  {
    if k <= IO_PAGES && RunMapped(w, w', f, root, Consecutive(0, k), MMAP_IO_BASE, 3) {
      LowerStaysEmpty(w, w', f, root, MMAP_IO_BASE, 0, k);
    }
    if RunMapped(w, w', f, root, Consecutive(0, KERNEL_PAGES), MMAP_KERNEL_BASE, 3) {
      forall i: nat | i < KERNEL_PAGES ensures PageAt(MMAP_KERNEL_BASE, i) == PageAt(MMAP_IO_BASE, IO_PAGES + i) {
        KernelPage(i);
      }
      LowerStaysEmpty(w, w', f, root, MMAP_KERNEL_BASE, IO_PAGES, KERNEL_PAGES);
    }
  }

  /** With no address space but the kernel's, nothing can be shared. */
  lemma KernelIsolated(w: Mem, f: Forest, c: set<nat>)
    requires f.roots == {f.kernel} && LowerEmpty(w, f.kernel)
    ensures Isolated(w, f, c)
  {
    forall r, p ensures LowerFrame(w, f, r, p) == None {
    }
  }

  lemma KernelPage(i: nat)
    ensures PageAt(MMAP_KERNEL_BASE, i) == PageAt(MMAP_IO_BASE, IO_PAGES + i)
  {
  }

  /** Mapping the first `k` pages of memory again extends the direct map if `k` is more. */
  lemma DirectMapGrows(w: Mem, w': Mem, f: Forest, root: nat, n: nat, k: nat)
    requires KernelMapped(w, root, n) && n <= IO_PAGES && k <= IO_PAGES && root in f.roots
    requires RunMapped(w, w', f, root, Consecutive(0, k), MMAP_IO_BASE, 3)
    ensures KernelMapped(w', root, if k > n then k else n)
  {
    forall i: nat | i < UPPER_PAGES
      ensures Walk(w', root, PageAt(MMAP_IO_BASE, i)) == KernelEntry(if k > n then k else n, i)
    {
      IoEntry(w, w', f, root, k, i);
    }
  }

  lemma IoEntry(w: Mem, w': Mem, f: Forest, root: nat, k: nat, i: nat)
    requires k <= IO_PAGES && i < UPPER_PAGES && root in f.roots
    requires RunMapped(w, w', f, root, Consecutive(0, k), MMAP_IO_BASE, 3)
    ensures Walk(w', root, PageAt(MMAP_IO_BASE, i)) ==
            if i < k then Some(i * PAGE_SIZE + 3) else Walk(w, root, PageAt(MMAP_IO_BASE, i))
  {
    var p := PageAt(MMAP_IO_BASE, i);
    if i < k {
      LeavesAt(Consecutive(0, k), MMAP_IO_BASE, 3, i, Walk(w, root, p));
    } else {
      forall j: nat | j < k ensures PageAt(MMAP_IO_BASE, j) != p {
        PagesDistinct(MMAP_IO_BASE, j, i);
      }
      LeavesOutside(Consecutive(0, k), MMAP_IO_BASE, 3, p, Walk(w, root, p));
    }
  }

  lemma KernelEntries(w: Mem, w': Mem, f: Forest, root: nat, i: nat)
    requires i < UPPER_PAGES && root in f.roots
    requires RunMapped(w, w', f, root, Consecutive(0, KERNEL_PAGES), MMAP_KERNEL_BASE, 3)
    ensures Walk(w', root, PageAt(MMAP_IO_BASE, i)) ==
            if IO_PAGES <= i < IO_PAGES + KERNEL_PAGES then Some((i - IO_PAGES) * PAGE_SIZE + 3)
            else Walk(w, root, PageAt(MMAP_IO_BASE, i))
  {
    var p := PageAt(MMAP_IO_BASE, i);
    if IO_PAGES <= i < IO_PAGES + KERNEL_PAGES {
      KernelPage(i - IO_PAGES);
      LeavesAt(Consecutive(0, KERNEL_PAGES), MMAP_KERNEL_BASE, 3, i - IO_PAGES, Walk(w, root, p));
    } else {
      forall j: nat | j < KERNEL_PAGES ensures PageAt(MMAP_KERNEL_BASE, j) != p {
        KernelPage(j);
        if i < IO_PAGES {
          PagesDistinct(MMAP_IO_BASE, i, IO_PAGES + j);
        } else {
          PagesDistinct(MMAP_IO_BASE, IO_PAGES + j, i);
        }
      }
      LeavesOutside(Consecutive(0, KERNEL_PAGES), MMAP_KERNEL_BASE, 3, p, Walk(w, root, p));
    }
  }

  /** After the two fixed ranges. */
  lemma FixedRanges(w0: Mem, w1: Mem, w2: Mem, f0: Forest, f1: Forest, root: nat)
    requires root in f0.roots && f1.roots == f0.roots && forall p :: Walk(w0, root, p) == None
    requires RunMapped(w0, w1, f0, root, Consecutive(0, KERNEL_PAGES), MMAP_KERNEL_BASE, 3)
    requires RunMapped(w1, w2, f1, root, Consecutive(0, LOW_PAGES), MMAP_IO_BASE, 3)
    ensures KernelMapped(w2, root, LOW_PAGES)
  {
    forall i: nat | i < UPPER_PAGES ensures Walk(w2, root, PageAt(MMAP_IO_BASE, i)) == KernelEntry(LOW_PAGES, i) {
      KernelEntries(w0, w1, f0, root, i);
      IoEntry(w1, w2, f1, root, LOW_PAGES, i);
    }
  }

  /** All tables that the kernel's address space needs below its top level. */
  ghost function KernelTables(f: Forest, n: nat): set<Key>
  {
    RunTables(f, f.kernel, MMAP_KERNEL_BASE, KERNEL_PAGES) + RunTables(f, f.kernel, MMAP_IO_BASE, n)
  }

  /** With the tables for `n` direct pages made, there are frames for those of `k` pages. */
  lemma MoreTablesFit(f0: Forest, f: Forest, c0: set<nat>, c: set<nat>, n: nat, k: nat, all: nat)
    requires f.kernel == f0.kernel && SameSight(f0, f, f0.kernel) && f.node.Keys == f0.node.Keys + KernelTables(f0, n)
    requires |c0| <= |c| + |KernelTables(f0, n) - f0.node.Keys| && |c0| >= |KernelTables(f0, all) - f0.node.Keys|
    requires n <= all && k <= all
    ensures var t := RunTables(f, f.kernel, MMAP_IO_BASE, k);
      var most := if k > n then k else n;
      && |c| >= |t - f.node.Keys| && f.node.Keys + t == f0.node.Keys + KernelTables(f0, most)
      && |KernelTables(f0, most) - f0.node.Keys| == |KernelTables(f0, n) - f0.node.Keys| + |t - f.node.Keys|
  {
    var t := RunTables(f0, f0.kernel, MMAP_IO_BASE, k);
    var most := if k > n then k else n;
    assert RunTables(f, f.kernel, MMAP_IO_BASE, k) == t by {
      SameRunTables(f0, f, f0.kernel, MMAP_IO_BASE, k);
    }
    assert KernelTables(f0, n) + t == KernelTables(f0, most) <= KernelTables(f0, all) by {
      KernelTablesGrow(f0, n, k, all);
    }
    TablesFit(f0.node.Keys, f.node.Keys, KernelTables(f0, n), t, KernelTables(f0, most), KernelTables(f0, all), c0, c);
  }

  lemma KernelTablesGrow(f: Forest, n: nat, k: nat, all: nat)
    requires n <= all && k <= all
    ensures var most := if k > n then k else n;
      KernelTables(f, n) + RunTables(f, f.kernel, MMAP_IO_BASE, k) == KernelTables(f, most) <= KernelTables(f, all)
  {
    RunTablesGrow(f, f.kernel, MMAP_IO_BASE, n, all);
    RunTablesGrow(f, f.kernel, MMAP_IO_BASE, k, all);
    if k > n {
      RunTablesGrow(f, f.kernel, MMAP_IO_BASE, n, k);
    } else {
      RunTablesGrow(f, f.kernel, MMAP_IO_BASE, k, n);
    }
  }

  lemma TablesFit(keys0: set<Key>, keys: set<Key>, done: set<Key>, t: set<Key>, most: set<Key>, all: set<Key>,
                  c0: set<nat>, c: set<nat>)
    requires keys == keys0 + done && done + t == most && most <= all
    requires |c0| <= |c| + |done - keys0| && |c0| >= |all - keys0|
    ensures |c| >= |t - keys| && keys + t == keys0 + most && |most - keys0| == |done - keys0| + |t - keys|
  {
    MissingSplit(keys0, done, t);
    SubsetSize(most - keys0, all - keys0);
  }

  /** The state of the kernel's address space on the way: `n` direct pages, their tables and no others. */
  ghost predicate KernelState(w: Mem, f0: Forest, f: Forest, c0: set<nat>, c: set<nat>, n: nat)
  {
    && Extended(f0, f, f0.kernel, c0) && f.node.Keys == f0.node.Keys + KernelTables(f0, n)
    && Trimmed(c0, c, |KernelTables(f0, n) - f0.node.Keys|) && KernelMapped(w, f0.kernel, n) && LowerEmpty(w, f0.kernel)
  }

  /** vmm_initialize after the allocation of the top-level table. */
  method MapKernel(m: Mapper, memmap: array<Pmm.Entry>)
    requires m.Valid() && m.forest == KernelForest(m.kernelPagemap)
    requires forall p :: Walk(m.words, m.kernelPagemap, p) == None
    requires DirectPages(memmap[..]) <= IO_PAGES && memmap as object != m.pmm.data
    requires |m.pmm.clear| >= |KernelTables(m.forest, DirectPages(memmap[..])) - m.forest.node.Keys|
    modifies m`words, m`forest, m.pmm, m.pmm.data
    ensures m.Valid() && m.pmm.data == old(m.pmm.data) && m.pmm.size == old(m.pmm.size)
    ensures KernelState(m.words, old(m.forest), m.forest, old(m.pmm.clear), m.pmm.clear, DirectPages(memmap[..]))
    ensures Isolated(m.words, m.forest, m.pmm.clear)
  {
    ghost var es, f0, c0 := memmap[..], m.forest, m.pmm.clear;
    MapFixed(m, DirectPages(es));
    ghost var n := LOW_PAGES;
    for i := 0 to memmap.Length
      invariant m.Valid() && memmap[..] == es && m.pmm.data == old(m.pmm.data) && m.pmm.size == old(m.pmm.size)
      invariant n == DirectPages(es[..i])
      invariant KernelState(m.words, f0, m.forest, c0, m.pmm.clear, n)
    {
      DirectPagesGrow(es, i);
      MapEntry(m, memmap[i], f0, c0, n, DirectPages(es));
      n := DirectPages(es[..i + 1]);
    }
    AllEntries(es);
    KernelIsolated(m.words, m.forest, m.pmm.clear);
  }

  lemma AllEntries(es: seq<Pmm.Entry>)
    ensures es[..|es|] == es
  {
  }

  /** The body of the loop over the memory map. */
  method MapEntry(m: Mapper, e: Pmm.Entry, ghost f0: Forest, ghost c0: set<nat>, ghost n: nat, ghost all: nat)
    requires m.Valid() && f0.kernel == m.kernelPagemap && f0.kernel in f0.roots && Extent(e, n) <= all <= IO_PAGES
    requires KernelState(m.words, f0, m.forest, c0, m.pmm.clear, n)
    requires |c0| >= |KernelTables(f0, all) - f0.node.Keys|
    modifies m`words, m`forest, m.pmm, m.pmm.data
    ensures m.Valid() && m.pmm.data == old(m.pmm.data) && m.pmm.size == old(m.pmm.size)
    ensures KernelState(m.words, f0, m.forest, c0, m.pmm.clear, Extent(e, n))
  {
    if e.kind == Pmm.USABLE {
      MapDirect(m, e.length, PagesBetween(0, e.length), f0, c0, n, all);
    }
  }

  lemma {:induction false} DirectPagesGrow(es: seq<Pmm.Entry>, i: nat)
    requires i < |es|
    ensures DirectPages(es[..i]) <= DirectPages(es[..i + 1]) <= DirectPages(es)
    ensures DirectPages(es[..i + 1]) == Extent(es[i], DirectPages(es[..i]))
  {
    var init := es[..|es| - 1];
    assert es[..i + 1][..i] == es[..i];
    if i < |init| {
      DirectPagesGrow(init, i);
      assert init[..i + 1] == es[..i + 1] && init[..i] == es[..i];
    } else {
      assert es[..i + 1] == es;
    }
  }

  /** `vmm_map_range(kernel_pagemap, 0, end, offset, 0b11)`. */
  method MapFirst(m: Mapper, end: nat, ghost n: nat, offset: nat)
    requires m.Valid() && n == PagesBetween(0, end) && RoomFor(m, m.kernelPagemap, offset, n)
    modifies m`words, m`forest, m.pmm, m.pmm.data
    ensures m.Valid() && m.pmm.data == old(m.pmm.data) && m.pmm.size == old(m.pmm.size)
    ensures RunDone(old(m.words), m.words, old(m.forest), m.forest, old(m.pmm.clear), m.pmm.clear, m.kernelPagemap,
                    Consecutive(0, n), offset, 3, 0)
  {
    assert 0 + offset == offset;
    UsualFlags();
    MapRange(m, m.kernelPagemap, 0, end, offset, 3);
  }

  /** The kernel's own 128 MiB and the first 4 GiB. */
  method MapFixed(m: Mapper, ghost all: nat)
    requires m.Valid() && m.forest == KernelForest(m.kernelPagemap) && all >= LOW_PAGES
    requires forall p :: Walk(m.words, m.kernelPagemap, p) == None
    requires |m.pmm.clear| >= |KernelTables(m.forest, all) - m.forest.node.Keys|
    modifies m`words, m`forest, m.pmm, m.pmm.data
    ensures m.Valid() && m.pmm.data == old(m.pmm.data) && m.pmm.size == old(m.pmm.size)
    ensures KernelState(m.words, old(m.forest), m.forest, old(m.pmm.clear), m.pmm.clear, LOW_PAGES)
  {
    ghost var w0, f0, c0 := m.words, m.forest, m.pmm.clear;
    SubsetSize(RunTables(f0, f0.kernel, MMAP_KERNEL_BASE, KERNEL_PAGES) - f0.node.Keys,
               KernelTables(f0, all) - f0.node.Keys);
    MapFirst(m, 0x800_0000, KERNEL_PAGES, MMAP_KERNEL_BASE);
    ghost var w1, f1, c1 := m.words, m.forest, m.pmm.clear;
    assert KernelTables(f0, 0) == RunTables(f0, f0.kernel, MMAP_KERNEL_BASE, KERNEL_PAGES);
    MoreTablesFit(f0, f1, c0, c1, 0, LOW_PAGES, all);
    MapFirst(m, 0x1_0000_0000, LOW_PAGES, MMAP_IO_BASE);
    FixedRanges(w0, w1, m.words, f0, f1, f0.kernel);
    BothStayEmpty(w0, w1, f0, f0.kernel, 0);
    BothStayEmpty(w1, m.words, f1, f0.kernel, LOW_PAGES);
    TablesJoined(f0, f1, m.forest, c0, c1, m.pmm.clear, 0, LOW_PAGES);
  }

  lemma TablesJoined(f0: Forest, f1: Forest, f2: Forest, c0: set<nat>, c1: set<nat>, c2: set<nat>, n: nat, k: nat)
    requires Extended(f0, f1, f0.kernel, c0) && Extended(f1, f2, f0.kernel, c1) && f1.kernel == f0.kernel
    requires Trimmed(c0, c1, |KernelTables(f0, n) - f0.node.Keys|)
    requires Trimmed(c1, c2, |RunTables(f1, f0.kernel, MMAP_IO_BASE, k) - f1.node.Keys|)
    requires f2.node.Keys == f1.node.Keys + RunTables(f1, f0.kernel, MMAP_IO_BASE, k)
    requires var t, most := RunTables(f1, f0.kernel, MMAP_IO_BASE, k), if k > n then k else n;
      && f1.node.Keys + t == f0.node.Keys + KernelTables(f0, most)
      && |KernelTables(f0, most) - f0.node.Keys| == |KernelTables(f0, n) - f0.node.Keys| + |t - f1.node.Keys|
    ensures var most := if k > n then k else n;
      && Extended(f0, f2, f0.kernel, c0) && f2.node.Keys == f0.node.Keys + KernelTables(f0, most)
      && Trimmed(c0, c2, |KernelTables(f0, most) - f0.node.Keys|)
  {
    ExtendedTrans(f0, f1, f2, f0.kernel, c0, c1);
    TrimmedTrans(c0, c1, c2, |KernelTables(f0, n) - f0.node.Keys|,
                 |RunTables(f1, f0.kernel, MMAP_IO_BASE, k) - f1.node.Keys|);
  }

  /** One usable range: its pages, counted from address 0. */
  method MapDirect(m: Mapper, length: nat, ghost k: nat, ghost f0: Forest, ghost c0: set<nat>, ghost n: nat,
                   ghost all: nat)
    requires m.Valid() && f0.kernel == m.kernelPagemap && f0.kernel in f0.roots && n <= all && k <= all <= IO_PAGES
    requires k == PagesBetween(0, length)
    requires KernelState(m.words, f0, m.forest, c0, m.pmm.clear, n)
    requires |c0| >= |KernelTables(f0, all) - f0.node.Keys|
    modifies m`words, m`forest, m.pmm, m.pmm.data
    ensures m.Valid() && m.pmm.data == old(m.pmm.data) && m.pmm.size == old(m.pmm.size)
    ensures KernelState(m.words, f0, m.forest, c0, m.pmm.clear, if k > n then k else n)
  {
    ghost var w1, f1, c1 := m.words, m.forest, m.pmm.clear;
    MoreTablesFit(f0, f1, c0, c1, n, k, all);
    MapFirst(m, length, k, MMAP_IO_BASE);
    DirectMapGrows(w1, m.words, f1, f0.kernel, n, k);
    BothStayEmpty(w1, m.words, f1, f0.kernel, k);
    TablesJoined(f0, f1, m.forest, c0, c1, m.pmm.clear, n, k);
  }

  /** A physical address can be reached through the direct map exactly when it lies below its end. */
  lemma DirectMap(w: Mem, root: nat, n: nat, x: nat)
    requires KernelMapped(w, root, n) && n <= IO_PAGES && x < IO_PAGES * PAGE_SIZE
    ensures Translate(w, root, 0xffff_8000_0000_0000 + x) == if x < n * PAGE_SIZE then Some(x) else None
    ensures x < n * PAGE_SIZE ==> Walk(w, root, PageOf(MMAP_IO_BASE + x)) == Some(x / PAGE_SIZE * PAGE_SIZE + 3)
  {
    InPage(MMAP_IO_BASE, x);
    assert Walk(w, root, PageAt(MMAP_IO_BASE, x / PAGE_SIZE)) == KernelEntry(n, x / PAGE_SIZE);
  }

  /** The frame at `fr` is reached at MMAP_KERNEL_BASE if and only if it lies in the first 128 MiB. */
  lemma KernelFrames(w: Mem, root: nat, n: nat, fr: nat)
    requires KernelMapped(w, root, n) && LowerEmpty(w, root) && n <= IO_PAGES && fr < UPPER_PAGES
    ensures Translate(w, root, MMAP_KERNEL_BASE + fr * PAGE_SIZE) == Some(fr * PAGE_SIZE) <==> fr < KERNEL_PAGES
    ensures Translate(w, root, MMAP_KERNEL_BASE + fr * PAGE_SIZE) == None <==> fr >= KERNEL_PAGES
  {
    if fr < KERNEL_PAGES {
      KernelImage(w, root, n, fr * PAGE_SIZE);
    } else if fr < UPPER_PAGES - IO_PAGES {
      KernelPage(fr);
      assert Walk(w, root, PageAt(MMAP_IO_BASE, IO_PAGES + fr)) == None;
    } else {
      WrappedPage(fr);
      assert Walk(w, root, PageAt(MMAP_KERNEL_BASE, fr)) == None;
    }
  }

  /** Addresses run over from MMAP_KERNEL_BASE + 2 GiB on, into the lower half. */
  lemma WrappedPage(fr: nat)
    requires UPPER_PAGES - IO_PAGES <= fr < UPPER_PAGES
    ensures PageAt(MMAP_KERNEL_BASE, fr).a < 256
  {
    PageIndices(MMAP_KERNEL_BASE, fr, 0x10_0000_0000_0000 + (fr - 0x8_0000));
  }

  /** The kernel's own addresses lead to the first 128 MiB. */
  lemma KernelImage(w: Mem, root: nat, n: nat, x: nat)
    requires KernelMapped(w, root, n) && n <= IO_PAGES && x < KERNEL_PAGES * PAGE_SIZE
    ensures Translate(w, root, 0xffff_ffff_8000_0000 + x) == Some(x)
    ensures Walk(w, root, PageOf(MMAP_KERNEL_BASE + x)) == Some(x / PAGE_SIZE * PAGE_SIZE + 3)
  {
    InPage(MMAP_KERNEL_BASE, x);
    KernelPage(x / PAGE_SIZE);
    assert Walk(w, root, PageAt(MMAP_IO_BASE, IO_PAGES + x / PAGE_SIZE)) == KernelEntry(n, IO_PAGES + x / PAGE_SIZE);
  }

  /** A machine with 256 MiB from 1 MiB on and 1 GiB from 4 GiB on. */
  function HighMap(): seq<Pmm.Entry>
  {
    [Pmm.Entry(0x10_0000, 0x1000_0000, Pmm.USABLE), Pmm.Entry(0x1_0000_0000, 0x4000_0000, Pmm.USABLE)]
  }

  lemma HighMapIsGood()
    ensures Pmm.GoodMap(HighMap())
  {
    assert Pmm.FramesOf(HighMap()[0]) == Pmm.Run(0x100, 0x1_0000);
    assert Pmm.FramesOf(HighMap()[1]) == Pmm.Run(0x10_0000, 0x4_0000);
  }

  lemma HighMapReach()
    ensures DirectPages(HighMap()) == LOW_PAGES
  {
    var es := HighMap();
    assert PagesBetween(0, 0x1000_0000) == 0x1_0000 && PagesBetween(0, 0x4000_0000) == 0x4_0000;
    assert es[..1][..0] == [] && es[..1] == [es[0]];
    assert DirectPages(es[..1]) == Extent(es[0], LOW_PAGES) == LOW_PAGES;
    assert DirectPages(es) == Extent(es[1], LOW_PAGES);
  }

  /** Usable memory that the kernel cannot reach: the range above 4 GiB is handed out as frames, but mapped as the
      first 1 GiB once more. */
  lemma HighMemoryUnreachable(w: Mem, root: nat)
    requires KernelMapped(w, root, DirectPages(HighMap()))
    ensures Pmm.GoodMap(HighMap()) && 0x10_0000 in Pmm.UsableFrames(HighMap())
    ensures Translate(w, root, MMAP_IO_BASE + 0x10_0000 * PAGE_SIZE) == None
  {
    HighMapIsGood();
    HighMapReach();
    assert 0x10_0000 in Pmm.FramesOf(HighMap()[1]) by {
      assert Pmm.InRun(0x10_0000, 0x10_0000, 0x4_0000);
    }
    Pmm.InUsable(HighMap(), 0x10_0000);
    DirectMap(w, root, LOW_PAGES, 0x1_0000_0000);
  }

  // ----- The address space of a new process ------------------------------------------------------

  /** Address space `root` shows nothing below and the kernel's mappings above. */
  ghost predicate RootShows(mem: Mem, mem': Mem, kernel: nat, root: nat)
  {
    forall p {:trigger Walk(mem', root, p)} :: InRange(p) ==>
      Walk(mem', root, p) == if p.a < 256 then None else Walk(mem, kernel, p)
  }

  /** The kernel reaches the new table and its own at MMAP_KERNEL_BASE. */
  predicate TablesReached(root: nat, kernel: nat)
  {
    root < KERNEL_PAGES && kernel < KERNEL_PAGES
  }

  /** A top-level table that shares the kernel's upper half, unless the kernel does not reach it: then it faults. */
  method AddRoot(m: Mapper) returns (root: nat, ok: bool)
    requires m.Valid() && |m.pmm.clear| >= 1
    modifies m`words, m`forest, m.pmm, m.pmm.data
    ensures m.Valid() && m.pmm.data == old(m.pmm.data) && m.pmm.size == old(m.pmm.size)
    ensures Pmm.IsLeast(root, old(m.pmm.clear)) && m.pmm.clear == old(m.pmm.clear) - {root}
    ensures ok <==> TablesReached(root, m.kernelPagemap)
    ensures root in m.words && m.words == old(m.words)[root := m.words[root]]
    ensures SameWalks(old(m.words), m.words, old(m.forest).roots)
    ensures !ok ==> m.forest == old(m.forest)
    ensures ok ==> root !in old(m.forest).roots && m.forest == WithRoot(old(m.forest), root)
    ensures ok ==> RootShows(old(m.words), m.words, m.forest.kernel, root)
  {
    ghost var w0, f0, c0 := m.words, m.forest, m.pmm.clear;
    var addr := m.AllocateOne();
    root, ok := addr / PAGE_SIZE, TablesReached(addr / PAGE_SIZE, m.kernelPagemap);
    if !ok {
      LookupsAreWalks(w0, m.words, f0, f0, c0, m.pmm.clear);
      return;
    }
    assert NodeOk(w0, f0, Key(f0.kernel, Top));
    CopyUpperHalf(m, root);
    assert m.words == w0[root := m.words[root]];
    RootAdded(w0, f0, c0, root, m.words[root]);
    m.forest := WithRoot(f0, root);
    RootWalks(w0, m.words, f0, m.forest, c0, m.pmm.clear, root);
  }

  method CopyUpperHalf(m: Mapper, root: nat)
    requires root in m.words && m.words[root] == ZeroTable() && m.kernelPagemap != root
    requires m.kernelPagemap in m.words && |m.words[m.kernelPagemap]| == ENTRIES
    modifies m`words
    ensures root in m.words && |m.words[root]| == ENTRIES && m.words == old(m.words)[root := m.words[root]]
    ensures forall i :: 0 <= i < ENTRIES ==>
              m.words[root][i] == if i < 256 then 0 else old(m.words)[m.kernelPagemap][i]
  {
    ghost var w := m.words;
    for i := 256 to 512
      invariant root in m.words && |m.words[root]| == ENTRIES && m.words == w[root := m.words[root]]
      invariant forall j :: 0 <= j < ENTRIES ==>
                  m.words[root][j] == if 256 <= j < i then w[m.kernelPagemap][j] else 0
    {
      m.words := WithWord(m.words, root, i, m.words[m.kernelPagemap][i]);
    }
  }

  lemma RootWalks(mem: Mem, mem': Mem, f: Forest, f': Forest, clear: set<nat>, clear': set<nat>, root: nat)
    requires Grown(mem, f, clear) && Grown(mem', f', clear') && f'.roots == f.roots + {root}
    requires SameLookups(mem, mem', f, f')
    requires forall p :: Lookup(mem', f', root, p) == if p.a < 256 then None else Lookup(mem, f, f.kernel, p)
    ensures SameWalks(mem, mem', f.roots)
    ensures RootShows(mem, mem', f.kernel, root)
  {
    LookupsAreWalks(mem, mem', f, f', clear, clear');
    forall p | InRange(p) ensures Walk(mem', root, p) == if p.a < 256 then None else Walk(mem, f.kernel, p) {
      WalkIsLookup(mem', f', clear', root, p);
      WalkIsLookup(mem, f, clear, f.kernel, p);
    }
  }

  const STACK_BOTTOM: nat := USER_STACK_TOP - STACK_SIZE

  /** The stack pages of a process lie in the lower half and need three tables in all. */
  lemma StackPages(f: Forest, root: nat)
    ensures Lower(STACK_BOTTOM, 4)
    ensures RunTables(f, root, STACK_BOTTOM, 4) ==
            {Key(root, Third(255)), Key(root, Second(255, 511)), Key(root, First(255, 511, 511))}
  {
    forall i: nat | i < 4 ensures PageAt(STACK_BOTTOM, i) == Page(255, 511, 511, 506 + i) {
    }
    var t := TablesFor(f, root, PageAt(STACK_BOTTOM, 0));
    assert TablesUpTo(f, root, STACK_BOTTOM, 1) == t;
    assert TablesUpTo(f, root, STACK_BOTTOM, 2) == t;
    assert TablesUpTo(f, root, STACK_BOTTOM, 3) == t;
    assert TablesUpTo(f, root, STACK_BOTTOM, 4) == t;
  }

  /** The address space of a new process: four zeroed stack pages in frames of its own at the top of the lower
      half, the kernel's upper half, and nothing else. */
  ghost predicate TaskSpace(w: Mem, w': Mem, f: Forest, f': Forest, c: set<nat>, c': set<nat>, stack: nat, root: nat)
  {
    && f'.roots == f.roots + {root} && root !in f.roots && f'.kernel == f.kernel && f'.own == f.own
    && TaskWalks(w, w', f, stack, root)
    && stack % PAGE_SIZE == 0 && OwnFrames(Consecutive(stack, 4), f', c, c')
    && (forall fr :: Pmm.InRun(fr, stack / PAGE_SIZE, 4) ==> fr in w' && w'[fr] == ZeroTable())
    && Trimmed(c, c', 8) && DataKept(w, w', f', c)
    && (Isolated(w, f, c) ==> Isolated(w', f', c'))
  }

  /** Four stack pages below, the kernel's upper half above, and all other address spaces as they were. */
  ghost predicate TaskWalks(w: Mem, w': Mem, f: Forest, stack: nat, root: nat)
  {
    && SameWalks(w, w', f.roots)
    && forall p {:trigger Walk(w', root, p)} :: InRange(p) ==>
         Walk(w', root, p) ==
         if p.a < 256 then Leaves(Consecutive(stack, 4), STACK_BOTTOM, 7, p, None) else Walk(w, f.kernel, p)
  }

  /** What is left when task_init faults: frames for a stack and a table that nobody uses, and nothing else changed. */
  ghost predicate Unfinished(w: Mem, w': Mem, f: Forest, c: set<nat>, c': set<nat>)
  {
    SameWalks(w, w', f.roots) && DataKept(w, w', f, c) && Trimmed(c, c', 5)
    && (Isolated(w, f, c) ==> Isolated(w', f, c'))
  }

  /** The part of task_init that builds the address space.  It is finished if and only if the kernel reaches the
      frame behind those of the stack. */
  method NewTask(m: Mapper) returns (stack: nat, root: nat, ok: bool)
    requires m.Valid() && RunReady(m.pmm.clear, 4) && |m.pmm.clear| >= 8 && 4 <= m.pmm.size
    modifies m`words, m`forest, m.pmm, m.pmm.data
    ensures m.Valid() && m.pmm.data == old(m.pmm.data) && m.pmm.size == old(m.pmm.size)
    ensures Pmm.IsLeast(stack / PAGE_SIZE, old(m.pmm.clear))
    ensures Pmm.IsLeast(root, old(m.pmm.clear) - Pmm.Run(stack / PAGE_SIZE, 4))
    ensures ok <==> TablesReached(root, m.kernelPagemap)
    ensures ok ==> TaskSpace(old(m.words), m.words, old(m.forest), m.forest, old(m.pmm.clear), m.pmm.clear, stack, root)
    ensures !ok ==> m.forest == old(m.forest)
                    && Unfinished(old(m.words), m.words, m.forest, old(m.pmm.clear), m.pmm.clear)
  {
    ghost var w0, f0, c0 := m.words, m.forest, m.pmm.clear;
    stack := m.AllocateRun(4);
    ghost var w1, c1 := m.words, m.pmm.clear;
    LookupsAreWalks(w0, w1, f0, f0, c0, c1);
    root, ok := AddRoot(m);
    ghost var w2, f2, c2 := m.words, m.forest, m.pmm.clear;
    if !ok {
      TaskLost(w0, w1, w2, f0, c0, c1, c2, stack, root);
      return;
    }
    MapStack(m, root, stack);
    TaskBuilt(w0, w1, w2, m.words, f0, f2, m.forest, c0, c1, c2, m.pmm.clear, stack, root);
  }

  /** When the clear frames begin at 0x7ffc, the stack takes those up to the end of the first 128 MiB, and task_init
      faults on the table behind it. */
  lemma TableOutOfReach(kernel: nat)
    ensures var c := Pmm.Run(0x7ffc, 16);
      && RunReady(c, 4) && |c| >= 8 && Pmm.IsLeast(0x7ffc, c)
      && Pmm.IsLeast(0x8000, c - Pmm.Run(0x7ffc, 4)) && !TablesReached(0x8000, kernel)
  {
    var c := Pmm.Run(0x7ffc, 16);
    Pmm.RunSize(0x7ffc, 16);
    assert Pmm.InRun(0x7ffc, 0x7ffc, 16) && Pmm.InRun(0x8000, 0x7ffc, 16);
    forall j | j in Pmm.Run(0x7ffc, 4) ensures j in c {
      assert Pmm.InRun(j, 0x7ffc, 16);
    }
    assert Pmm.IsLeast(0x7ffc, c);
    assert 0x8000 in c - Pmm.Run(0x7ffc, 4);
    forall j | j in c - Pmm.Run(0x7ffc, 4) ensures 0x8000 <= j {
      assert !Pmm.InRun(j, 0x7ffc, 4);
    }
  }

  lemma TaskLost(w0: Mem, w1: Mem, w2: Mem, f: Forest, c0: set<nat>, c1: set<nat>, c2: set<nat>, stack: nat, root: nat)
    requires SameWalks(w0, w1, f.roots) && SameWalks(w1, w2, f.roots)
    requires Filled(w0, w1, stack / PAGE_SIZE, 4, ZeroTable()) && Pmm.Run(stack / PAGE_SIZE, 4) <= c0
    requires Trimmed(c0, c1, 4) && Pmm.IsLeast(root, c1) && c2 == c1 - {root} && root in w2
    requires w2 == w1[root := w2[root]]
    ensures Unfinished(w0, w2, f, c0, c2)
  {
    SameWalksTrans(w0, w1, w2, f.roots);
    OneTaken(c1, root);
    TrimmedTrans(c0, c1, c2, 4, 1);
    forall fr | fr in w0 && fr !in c0 && fr !in f.owner ensures fr in w2 && w2[fr] == w0[fr] {
      assert fr !in Pmm.Run(stack / PAGE_SIZE, 4);
    }
    if Isolated(w0, f, c0) {
      QuietIsolated(w0, w2, f, f, c0, c2);
    }
  }

  method MapStack(m: Mapper, root: nat, stack: nat)
    requires m.Valid() && root in m.forest.roots && stack % PAGE_SIZE == 0 && |m.pmm.clear| >= 3
    modifies m`words, m`forest, m.pmm, m.pmm.data
    ensures m.Valid() && m.pmm.data == old(m.pmm.data) && m.pmm.size == old(m.pmm.size)
    ensures RunDone(old(m.words), m.words, old(m.forest), m.forest, old(m.pmm.clear), m.pmm.clear, root,
                    Consecutive(stack, 4), STACK_BOTTOM, 7, 0)
  {
    ThreeStackTables(m.forest, root);
    UsualFlags();
    MapRun(m, root, stack, STACK_BOTTOM, 4, 7);
  }

  lemma ThreeStackTables(f: Forest, root: nat)
    ensures |RunTables(f, root, STACK_BOTTOM, 4) - f.node.Keys| <= 3
  {
    StackPages(f, root);
    SubsetSize(RunTables(f, root, STACK_BOTTOM, 4) - f.node.Keys, RunTables(f, root, STACK_BOTTOM, 4));
  }

  /** None of them is there yet below a new top-level table. */
  lemma NewStackTables(w: Mem, f: Forest, f': Forest, c: set<nat>, root: nat)
    requires Grown(w, f, c) && root !in f.roots && f' == WithRoot(f, root)
    ensures |RunTables(f', root, STACK_BOTTOM, 4) - f'.node.Keys| == 3
  {
    StackPages(f', root);
    forall k: Key | k.root == root && !k.at.Top? ensures k !in f'.node {
      assert k in f.node ==> NodeOk(w, f, k);
    }
    ThreeNew(f'.node.Keys, Key(root, Third(255)), Key(root, Second(255, 511)), Key(root, First(255, 511, 511)));
  }

  lemma ThreeNew(keys: set<Key>, k3: Key, k2: Key, k1: Key)
    requires k3 !in keys && k2 !in keys && k1 !in keys && k3 != k2 && k2 != k1 && k3 != k1
    ensures |{k3, k2, k1} - keys| == 3
  {
    assert {k3, k2, k1} - keys == {k3, k2, k1};
  }

  /** Stack frames, top-level table, stack pages. */
  lemma TaskBuilt(w0: Mem, w1: Mem, w2: Mem, w3: Mem, f0: Forest, f2: Forest, f3: Forest, c0: set<nat>, c1: set<nat>,
                  c2: set<nat>, c3: set<nat>, stack: nat, root: nat)
    requires Grown(w0, f0, c0) && SameWalks(w0, w1, f0.roots) && Filled(w0, w1, stack / PAGE_SIZE, 4, ZeroTable())
    requires stack % PAGE_SIZE == 0 && Pmm.Run(stack / PAGE_SIZE, 4) <= c0 && c1 == c0 - Pmm.Run(stack / PAGE_SIZE, 4)
    requires Trimmed(c0, c1, 4) && Pmm.IsLeast(root, c1) && c2 == c1 - {root} && root !in f0.roots
    requires f2 == WithRoot(f0, root)
    requires root in w2 && w2 == w1[root := w2[root]] && SameWalks(w1, w2, f0.roots)
    requires RootShows(w1, w2, f0.kernel, root)
    requires RunDone(w2, w3, f2, f3, c2, c3, root, Consecutive(stack, 4), STACK_BOTTOM, 7, 0)
    ensures TaskSpace(w0, w3, f0, f3, c0, c3, stack, root)
  {
    StackPages(f2, root);
    assert TaskWalks(w0, w3, f0, stack, root) by {
      OthersSame(w0, w1, w2, w3, f0, f2, root, stack);
      TaskWalked(w0, w1, w2, w3, f0, f2, root, stack);
    }
    assert Trimmed(c0, c3, 8) by {
      NewStackTables(w0, f0, f2, c0, root);
      TaskTrimmed(c0, c1, c2, c3, root, 0 + |RunTables(f2, root, STACK_BOTTOM, 4) - f2.node.Keys|);
    }
    StackFrames(w0, w1, w2, w3, f0, f2, f3, c0, c1, c2, c3, stack, root);
    assert DataKept(w0, w3, f3, c0) by {
      OldDataKept(w0, w1, w2, w3, f0, f2, f3, c0, c2, stack / PAGE_SIZE, root);
    }
    TaskIsolated(w0, w1, w2, w3, f0, f2, f3, c0, c2, c3, stack, root);
  }

  lemma TaskTrimmed(c0: set<nat>, c1: set<nat>, c2: set<nat>, c3: set<nat>, root: nat, k: nat)
    requires Trimmed(c0, c1, 4) && Pmm.IsLeast(root, c1) && c2 == c1 - {root} && Trimmed(c2, c3, k) && k == 3
    ensures Trimmed(c0, c3, 8)
  {
    OneTaken(c1, root);
    TrimmedTrans(c0, c1, c2, 4, 1);
    TrimmedTrans(c0, c2, c3, 5, k);
  }

  lemma TaskIsolated(w0: Mem, w1: Mem, w2: Mem, w3: Mem, f0: Forest, f2: Forest, f3: Forest, c0: set<nat>, c2: set<nat>,
                     c3: set<nat>, stack: nat, root: nat)
    requires SameWalks(w0, w1, f0.roots) && SameWalks(w1, w2, f0.roots) && RootShows(w1, w2, f0.kernel, root)
    requires f2 == WithRoot(f0, root) && root in c0 && c3 <= c2 <= c0 - {root}
    requires RunMade(w2, w3, f2, f3, c2, root, Consecutive(stack, 4), STACK_BOTTOM, 7)
    requires OwnFrames(Consecutive(stack, 4), f3, c0 - {root}, c3)
    ensures Isolated(w0, f0, c0) ==> Isolated(w3, f3, c3)
  {
    if Isolated(w0, f0, c0) {
      SameWalksTrans(w0, w1, w2, f0.roots);
      QuietIsolated(w0, w2, f0, f2, c0, c0 - {root});
      RunSince(w2, w2, w3, f2, f3, c0 - {root}, c2, root, Consecutive(stack, 4), STACK_BOTTOM, 7);
      FreshRunIsolated(w2, w3, f2, f3, c0 - {root}, c3, root, Consecutive(stack, 4), STACK_BOTTOM, 7);
    }
  }

  lemma OthersSame(w0: Mem, w1: Mem, w2: Mem, w3: Mem, f0: Forest, f2: Forest, root: nat, stack: nat)
    requires SameWalks(w0, w1, f0.roots) && SameWalks(w1, w2, f0.roots) && f2.roots == f0.roots + {root}
    requires root !in f0.roots
    requires RunMapped(w2, w3, f2, root, Consecutive(stack, 4), STACK_BOTTOM, 7) && Lower(STACK_BOTTOM, 4)
    ensures SameWalks(w0, w3, f0.roots)
  {
    forall r, p | r in f0.roots && InRange(p) ensures Walk(w3, r, p) == Walk(w0, r, p) {
      assert Walk(w2, r, p) == Walk(w1, r, p) == Walk(w0, r, p);
      LowerRun(w2, w3, f2, root, Consecutive(stack, 4), STACK_BOTTOM, 7, r, p);
    }
  }

  lemma TaskWalked(w0: Mem, w1: Mem, w2: Mem, w3: Mem, f0: Forest, f2: Forest, root: nat, stack: nat)
    requires SameWalks(w0, w1, f0.roots) && f0.kernel in f0.roots && root in f2.roots
    requires RootShows(w1, w2, f0.kernel, root)
    requires RunMapped(w2, w3, f2, root, Consecutive(stack, 4), STACK_BOTTOM, 7) && Lower(STACK_BOTTOM, 4)
    requires SameWalks(w0, w3, f0.roots)
    ensures TaskWalks(w0, w3, f0, stack, root)
  {
    forall p | InRange(p)
      ensures Walk(w3, root, p) ==
              if p.a < 256 then Leaves(Consecutive(stack, 4), STACK_BOTTOM, 7, p, None) else Walk(w0, f0.kernel, p)
    {
      LowerRun(w2, w3, f2, root, Consecutive(stack, 4), STACK_BOTTOM, 7, root, p);
      assert Walk(w1, f0.kernel, p) == Walk(w0, f0.kernel, p);
      if p.a >= 256 {
        LeavesOutside(Consecutive(stack, 4), STACK_BOTTOM, 7, p, Walk(w2, root, p));
      }
    }
  }

  /** The stack's frames are zeroed, taken, and hold no table. */
  lemma StackFrames(w0: Mem, w1: Mem, w2: Mem, w3: Mem, f0: Forest, f2: Forest, f3: Forest, c0: set<nat>, c1: set<nat>,
                    c2: set<nat>, c3: set<nat>, stack: nat, root: nat)
    requires Grown(w0, f0, c0) && Filled(w0, w1, stack / PAGE_SIZE, 4, ZeroTable()) && c3 <= c2
    requires stack % PAGE_SIZE == 0 && Pmm.Run(stack / PAGE_SIZE, 4) <= c0 && c1 == c0 - Pmm.Run(stack / PAGE_SIZE, 4)
    requires root in c1 && c2 == c1 - {root} && f2 == WithRoot(f0, root) && root in w2 && w2 == w1[root := w2[root]]
    requires DataKept(w2, w3, f3, c2) && forall fr :: fr in f3.owner ==> fr in f2.owner || fr in c2
    ensures OwnFrames(Consecutive(stack, 4), f3, c0, c3) && OwnFrames(Consecutive(stack, 4), f3, c0 - {root}, c3)
    ensures forall fr :: Pmm.InRun(fr, stack / PAGE_SIZE, 4) ==> fr in w3 && w3[fr] == ZeroTable()
  {
    var first := stack / PAGE_SIZE;
    forall fr | Pmm.InRun(fr, first, 4)
      ensures fr in c0 && fr != root && IsData(f3, c3, fr) && fr in w3 && w3[fr] == ZeroTable()
    {
      assert fr in Pmm.Run(first, 4);
      assert fr !in f0.owner;
    }
    forall i | 0 <= i < 4
      ensures Consecutive(stack, 4)[i] % PAGE_SIZE == 0 && Consecutive(stack, 4)[i] / PAGE_SIZE == first + i
    {
      PageNumber(stack, i);
      PageAligned(stack, i);
    }
    forall i | 0 <= i < 4 ensures Pmm.InRun(Consecutive(stack, 4)[i] / PAGE_SIZE, first, 4) {
    }
  }

  lemma OldDataKept(w0: Mem, w1: Mem, w2: Mem, w3: Mem, f0: Forest, f2: Forest, f3: Forest, c0: set<nat>, c2: set<nat>,
                    first: nat, root: nat)
    requires Filled(w0, w1, first, 4, ZeroTable()) && Pmm.Run(first, 4) <= c0 && root in c0 && c2 <= c0
    requires root in w2 && w2 == w1[root := w2[root]] && DataKept(w2, w3, f3, c2)
    ensures DataKept(w0, w3, f3, c0)
  {
    forall fr | fr in w0 && fr !in c0 && fr !in f3.owner ensures fr in w3 && w3[fr] == w0[fr] {
      assert fr !in Pmm.Run(first, 4);
      assert !Pmm.InRun(fr, first, 4);
    }
  }
}
