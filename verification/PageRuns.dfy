/** Runs of pages mapped one after the other: vmm_map_range of src/kernel/arch/memory/vmm.c. */
module PageRuns {
  import opened Basics
  import opened PageTables
  import opened Paging

  // ----- A run of consecutive virtual pages -------------------------------------------

  /** The leaf for page `p` after the pages from `virt` on were mapped, in order, to `phys`. */
  ghost function Leaves(phys: seq<nat>, virt: nat, flags: nat, p: Page, before: Option<nat>): Option<nat>
  {
    LastLeaf(phys, virt, flags, p, before)
  }

  ghost function LastLeaf(phys: seq<nat>, virt: nat, flags: nat, p: Page, before: Option<nat>): Option<nat>
  {
    if phys == [] then before
    else
      var last := |phys| - 1;
      if PageOf(virt + last * PAGE_SIZE) == p then Some(phys[last] + flags)
      else LastLeaf(phys[..last], virt, flags, p, before)
  }

  /** Page `p` is one of the `n` pages from `virt` on. */
  ghost predicate Covers(virt: nat, n: nat, p: Page)
  {
    exists i: nat :: i < n && PageAt(virt, i) == p
  }

  function PageAt(virt: nat, i: nat): Page
  {
    PageOf(AddressAt(virt, i))
  }

  function AddressAt(virt: nat, i: nat): nat
  {
    virt + i * PAGE_SIZE
  }

  lemma PageNumber(virt: nat, i: nat)
    ensures (virt + i * PAGE_SIZE) / PAGE_SIZE == virt / PAGE_SIZE + i
  {
  }

  lemma InPage(virt: nat, x: nat)
    requires virt % PAGE_SIZE == 0
    ensures PageOf(virt + x) == PageAt(virt, x / PAGE_SIZE) && (virt + x) % PAGE_SIZE == x % PAGE_SIZE
    ensures x / PAGE_SIZE * PAGE_SIZE + x % PAGE_SIZE == x
    ensures FrameOf(x / PAGE_SIZE * PAGE_SIZE + 3) == x / PAGE_SIZE
  {
    PageNumber(virt, x / PAGE_SIZE);
    assert (virt + x) / PAGE_SIZE == virt / PAGE_SIZE + x / PAGE_SIZE;
    SamePage(virt + x, virt + x / PAGE_SIZE * PAGE_SIZE);
  }

  lemma PagesDistinct(virt: nat, i: nat, j: nat)
    requires i < j < i + 0x10_0000_0000
    ensures PageAt(virt, i) != PageAt(virt, j)
  {
    PageNumber(virt, i);
    PageNumber(virt, j);
    SamePage(virt + i * PAGE_SIZE, virt + j * PAGE_SIZE);
  }

  lemma DifferentPages(v: nat, j: nat, u: nat, i: nat)
    requires v / PAGE_SIZE + j != u / PAGE_SIZE + i
    requires v / PAGE_SIZE + j < 0x10_0000_0000 && u / PAGE_SIZE + i < 0x10_0000_0000
    ensures PageAt(v, j) != PageAt(u, i)
  {
    PageNumber(v, j);
    PageNumber(u, i);
    DifferentNumbers(v + j * PAGE_SIZE, u + i * PAGE_SIZE);
  }

  /** Every page of the run leads to its own frame. */
  lemma {:induction false} LeavesAt(phys: seq<nat>, virt: nat, flags: nat, i: nat, before: Option<nat>)
    requires i < |phys| <= 0x10_0000_0000
    ensures Leaves(phys, virt, flags, PageAt(virt, i), before) == Some(phys[i] + flags)
  {
    var last := |phys| - 1;
    if i < last {
      PagesDistinct(virt, i, last);
      LeavesAt(phys[..last], virt, flags, i, before);
    }
  }

  /** All other pages lead where they led. */
  lemma {:induction false} LeavesOutside(phys: seq<nat>, virt: nat, flags: nat, p: Page, before: Option<nat>)
    requires !Covers(virt, |phys|, p)
    ensures Leaves(phys, virt, flags, p, before) == before
  {
    if phys != [] {
      var last: nat := |phys| - 1;
      assert PageAt(virt, last) != p;
      assert forall i: nat :: i < last ==> PageAt(virt, i) != p;
      LeavesOutside(phys[..last], virt, flags, p, before);
    }
  }

  /** A page leads to one of the run's frames, or where it led. */
  lemma {:induction false} LeavesFrom(phys: seq<nat>, virt: nat, flags: nat, p: Page,
                                      before: Option<nat>) returns (i: nat)
    ensures i <= |phys|
    ensures i < |phys| ==> PageAt(virt, i) == p && Leaves(phys, virt, flags, p, before) == Some(phys[i] + flags)
    ensures i == |phys| ==> !Covers(virt, |phys|, p) && Leaves(phys, virt, flags, p, before) == before
  {
    if phys == [] {
      i := 0;
    } else {
      var last: nat := |phys| - 1;
      if PageAt(virt, last) == p {
        i := last;
      } else {
        i := LeavesFrom(phys[..last], virt, flags, p, before);
        if i == last {
          i := |phys|;
          assert forall j: nat :: j < |phys| && PageAt(virt, j) == p ==> j < last;
        }
      }
    }
  }

  /** The run was mapped in address space `root` and shows wherever that is seen; everything else is as before. */
  ghost predicate RunMapped(mem: Mem, mem': Mem, f: Forest, root: nat, phys: seq<nat>, virt: nat, flags: nat)
  {
    forall r, p {:trigger Walk(mem', r, p)} :: r in f.roots && InRange(p) ==>
      Walk(mem', r, p) ==
      if Sees(f, root, r, p.a) then Leaves(phys, virt, flags, p, Walk(mem, r, p)) else Walk(mem, r, p)
  }

  lemma RunGrows(mem: Mem, mem1: Mem, mem2: Mem, f: Forest, f1: Forest, root: nat, phys: seq<nat>, longer: seq<nat>,
                 virt: nat, p: Page, flags: nat, last: nat)
    requires RunMapped(mem, mem1, f, root, phys, virt, flags) && f1.roots == f.roots && SameSight(f, f1, root)
    requires longer == phys + [last] && p == PageAt(virt, |phys|)
    requires WalksBut(mem1, mem2, f1, root, p, Some(last + flags))
    ensures RunMapped(mem, mem2, f, root, longer, virt, flags)
  {
    assert longer[..|phys|] == phys;
    forall r, q | r in f.roots && InRange(q)
      ensures Walk(mem2, r, q) ==
              if Sees(f, root, r, q.a) then Leaves(longer, virt, flags, q, Walk(mem, r, q)) else Walk(mem, r, q)
    {
      assert Sees(f1, root, r, q.a) <==> Sees(f, root, r, q.a);
      assert Walk(mem1, r, q) ==
        if Sees(f, root, r, q.a) then Leaves(phys, virt, flags, q, Walk(mem, r, q)) else Walk(mem, r, q);
    }
  }

  /** In the lower half a run changes one address space only. */
  lemma LowerRun(mem: Mem, mem': Mem, f: Forest, root: nat, phys: seq<nat>, virt: nat, flags: nat, r: nat, p: Page)
    requires RunMapped(mem, mem', f, root, phys, virt, flags) && Lower(virt, |phys|) && r in f.roots && InRange(p)
    ensures Walk(mem', r, p) == if r == root then Leaves(phys, virt, flags, p, Walk(mem, r, p)) else Walk(mem, r, p)
  {
    var i := LeavesFrom(phys, virt, flags, p, Walk(mem, r, p));
    if i < |phys| {
      LowerSees(f, root, r, p.a);
    }
  }

  /** All pages of the run lie in the lower half. */
  ghost predicate Lower(virt: nat, n: nat)
  {
    forall i: nat :: i < n ==> PageAt(virt, i).a < 256
  }

  /** Mapping a page and taking it away again, where none was, restores every walk. */
  lemma MapThenUnmap(m0: Mem, m1: Mem, m2: Mem, f: Forest, f1: Forest, c: set<nat>, root: nat, p: Page, e: nat)
    requires Grown(m0, f, c) && root in f.roots && InRange(p) && f1.roots == f.roots && SameSight(f, f1, root)
    requires WalksBut(m0, m1, f, root, p, Some(e)) && WalksBut(m1, m2, f1, root, p, None)
    requires Walk(m0, root, p) == None
    ensures SameWalks(m0, m2, f.roots)
  {
    forall r, q | r in f.roots && InRange(q) ensures Walk(m2, r, q) == Walk(m0, r, q) {
      assert Sees(f1, root, r, p.a) <==> Sees(f, root, r, p.a);
      if q == p && Sees(f, root, r, p.a) {
        SeenAlike(m0, f, c, root, r, p);
      } else {
        assert Walk(m1, r, q) == Walk(m0, r, q);
      }
    }
  }

  /** Call `i` of a run set or cleared one page of the lower half of address space `root`. */
  ghost predicate LowerStep(ws: seq<Mem>, i: nat, roots: set<nat>, root: nat)
    requires i + 1 < |ws|
  {
    LowerChange(ws[i], ws[i + 1], roots, root)
  }

  ghost predicate LowerChange(w: Mem, w': Mem, roots: set<nat>, root: nat)
  {
    exists f: Forest, p, e :: f.roots == roots && InRange(p) && p.a < 256 && WalksBut(w, w', f, root, p, e)
  }

  /** However often the lower half of one address space is mapped and unmapped, its upper half and
      all other address spaces stay as they are. */
  lemma {:induction false} LowerRunsArePrivate(ws: seq<Mem>, roots: set<nat>, root: nat, r: nat, q: Page)
    requires ws != [] && forall i: nat :: i + 1 < |ws| ==> LowerStep(ws, i, roots, root)
    requires r in roots && InRange(q) && (r != root || q.a >= 256)
    ensures Walk(ws[|ws| - 1], r, q) == Walk(ws[0], r, q)
  {
    if |ws| > 1 {
      var n := |ws| - 2;
      var init := ws[..n + 1];
      forall i: nat | i + 1 < |init| ensures LowerStep(init, i, roots, root) {
        assert LowerStep(ws, i, roots, root);
        assert init[i] == ws[i] && init[i + 1] == ws[i + 1];
      }
      LowerRunsArePrivate(init, roots, root, r, q);
      assert LowerStep(ws, n, roots, root);
      LowerChangeIsPrivate(ws[n], ws[n + 1], roots, root, r, q);
    }
  }

  lemma LowerChangeIsPrivate(w: Mem, w': Mem, roots: set<nat>, root: nat, r: nat, q: Page)
    requires LowerChange(w, w', roots, root) && r in roots && InRange(q) && (r != root || q.a >= 256)
    ensures Walk(w', r, q) == Walk(w, r, q)
  {
    var f: Forest, p, e :| f.roots == roots && InRange(p) && p.a < 256 && WalksBut(w, w', f, root, p, e);
    LowerSees(f, root, r, p.a);
  }

  // ----- The tables of a run ------------------------------------------------------------------

  /** All tables below the top level through which the run is mapped. */
  ghost function RunTables(f: Forest, root: nat, virt: nat, n: nat): set<Key>
  {
    TablesUpTo(f, root, virt, n)
  }

  ghost function TablesUpTo(f: Forest, root: nat, virt: nat, n: nat): set<Key>
  {
    if n == 0 then {} else TablesUpTo(f, root, virt, n - 1) + TablesFor(f, root, PageAt(virt, n - 1))
  }

  lemma {:induction false} RunTablesGrow(f: Forest, root: nat, virt: nat, m: nat, n: nat)
    requires m <= n
    ensures RunTables(f, root, virt, m) <= RunTables(f, root, virt, n)
    decreases n
  {
    if m < n {
      RunTablesGrow(f, root, virt, m, n - 1);
    }
  }

  /** How many blocks of `d` pages the `n` pages from page `first` on touch. */
  function Blocks(first: nat, n: nat, d: nat): nat
    requires d > 0
  {
    if n == 0 then 0 else (first + n - 1) / d - first / d + 1
  }

  /** Page `first + n` lies in another block of `d` pages than those before it. */
  predicate NewBlock(first: nat, n: nat, d: nat)
    requires d > 0
  {
    n == 0 || (first + n) / d != (first + n - 1) / d
  }

  lemma BlocksStep(first: nat, n: nat, next: nat)
    requires next == n + 1
    ensures Blocks(first, next, 0x200) == Blocks(first, n, 0x200) + if NewBlock(first, n, 0x200) then 1 else 0
    ensures Blocks(first, next, 0x4_0000) == Blocks(first, n, 0x4_0000) + if NewBlock(first, n, 0x4_0000) then 1 else 0
    ensures Blocks(first, next, 0x800_0000) ==
            Blocks(first, n, 0x800_0000) + if NewBlock(first, n, 0x800_0000) then 1 else 0
  {
  }

  lemma BlocksBound(first: nat, n: nat)
    ensures Blocks(first, n, 0x200) <= n / 0x200 + 2
    ensures Blocks(first, n, 0x4_0000) <= n / 0x4_0000 + 2
    ensures Blocks(first, n, 0x800_0000) <= n / 0x800_0000 + 2
  {
  }

  /** Pages of one block share the table of that level. */
  lemma SameBlock(virt: nat, n: nat, first: nat)
    requires n > 0 && first == virt / PAGE_SIZE
    ensures var p, q := PageAt(virt, n - 1), PageAt(virt, n);
      && (!NewBlock(first, n, 0x200) ==> (q.a, q.b, q.c) == (p.a, p.b, p.c))
      && (!NewBlock(first, n, 0x4_0000) ==> (q.a, q.b) == (p.a, p.b))
      && (!NewBlock(first, n, 0x800_0000) ==> q.a == p.a)
  {
    PageIndices(virt, n, first + n);
    PageIndices(virt, n - 1, first + n - 1);
    Nested(first + n, first + n - 1);
  }

  lemma PageIndices(virt: nat, i: nat, number: nat)
    requires number == virt / PAGE_SIZE + i
    ensures var p := PageAt(virt, i);
      p.a == number / 0x800_0000 % ENTRIES && p.b == number / 0x4_0000 % ENTRIES && p.c == number / 0x200 % ENTRIES
  {
    PageNumber(virt, i);
    var va := AddressAt(virt, i);
    assert va / 0x20_0000 == number / 0x200 && va / 0x4000_0000 == number / 0x4_0000;
    assert va / 0x80_0000_0000 == number / 0x800_0000;
  }

  lemma Nested(x: nat, y: nat)
    ensures x / 0x200 == y / 0x200 ==> x / 0x4_0000 == y / 0x4_0000
    ensures x / 0x4_0000 == y / 0x4_0000 ==> x / 0x800_0000 == y / 0x800_0000
  {
    assert x / 0x4_0000 == x / 0x200 / 0x200 && y / 0x4_0000 == y / 0x200 / 0x200;
    assert x / 0x800_0000 == x / 0x4_0000 / 0x200 && y / 0x800_0000 == y / 0x4_0000 / 0x200;
  }

  /** The tables of a run: one for each block of 512 pages, of 512 such blocks, and of 512 of those. */
  lemma {:induction false} FewTables(f: Forest, root: nat, virt: nat, n: nat, all: set<Key>, first: nat)
    requires first == virt / PAGE_SIZE
    ensures |RunTables(f, root, virt, n) - all| <=
            Blocks(first, n, 0x200) + Blocks(first, n, 0x4_0000) + Blocks(first, n, 0x800_0000)
  {
    if n > 0 {
      var m: nat := n - 1;
      var before, t := RunTables(f, root, virt, m), TablesFor(f, root, PageAt(virt, m));
      FewTables(f, root, virt, m, all, first);
      BlocksStep(first, m, n);
      NewTables(f, root, virt, m, first);
      assert |before + t - all| <= |before - all| + |t - before| by {
        MissingSplit(all, before, t);
        SubsetSize(t - (all + before), t - before);
      }
    }
  }

  lemma NewTables(f: Forest, root: nat, virt: nat, n: nat, first: nat)
    requires first == virt / PAGE_SIZE
    ensures |TablesFor(f, root, PageAt(virt, n)) - RunTables(f, root, virt, n)| <=
            (if NewBlock(first, n, 0x200) then 1 else 0) + (if NewBlock(first, n, 0x4_0000) then 1 else 0)
            + if NewBlock(first, n, 0x800_0000) then 1 else 0
  {
    var p := PageAt(virt, n);
    var h := Holder(f, root, p.a);
    var k3, k2, k1 := Key(h, Third(p.a)), Key(h, Second(p.a, p.b)), Key(h, First(p.a, p.b, p.c));
    var x3: set<Key> := if NewBlock(first, n, 0x800_0000) then {k3} else {};
    var x2: set<Key> := if NewBlock(first, n, 0x4_0000) then {k2} else {};
    var x1: set<Key> := if NewBlock(first, n, 0x200) then {k1} else {};
    if n > 0 {
      SameBlock(virt, n, first);
      assert TablesFor(f, root, PageAt(virt, n - 1)) <= RunTables(f, root, virt, n);
    }
    SubsetSize(TablesFor(f, root, p) - RunTables(f, root, virt, n), x1 + x2 + x3);
  }

  /** In round numbers. */
  function TableBudget(n: nat): nat
  {
    n / 0x200 + n / 0x4_0000 + n / 0x800_0000 + 6
  }

  lemma TablesBound(f: Forest, root: nat, virt: nat, n: nat, all: set<Key>)
    ensures |RunTables(f, root, virt, n) - all| <= TableBudget(n)
  {
    FewTables(f, root, virt, n, all, virt / PAGE_SIZE);
    BlocksBound(virt / PAGE_SIZE, n);
  }

  /** The tables of `n` pages were made, or found, and the pages mapped; `c` are the clear frames before. */
  ghost predicate RunMade(w: Mem, w': Mem, f: Forest, f': Forest, c: set<nat>, root: nat, phys: seq<nat>, virt: nat,
                          flags: nat)
  {
    && Extended(f, f', root, c) && f'.node.Keys == f.node.Keys + RunTables(f, root, virt, |phys|)
    && RunMapped(w, w', f, root, phys, virt, flags) && DataKept(w, w', f', c)
    && (Lower(virt, |phys|) ==> f'.own == f.own)
  }

  /** A run seen from an earlier state: more frames were clear, and everything else showed the same. */
  lemma RunSince(w0: Mem, w1: Mem, w2: Mem, f: Forest, f': Forest, c0: set<nat>, c1: set<nat>, root: nat,
                 phys: seq<nat>, virt: nat, flags: nat)
    requires RunMade(w1, w2, f, f', c1, root, phys, virt, flags) && c1 <= c0
    requires SameWalks(w0, w1, f.roots) && DataKept(w0, w2, f', c0)
    ensures RunMade(w0, w2, f, f', c0, root, phys, virt, flags)
  {
    forall r, p | r in f.roots && InRange(p)
      ensures Walk(w2, r, p) ==
              if Sees(f, root, r, p.a) then Leaves(phys, virt, flags, p, Walk(w0, r, p)) else Walk(w0, r, p)
    {
      assert Walk(w1, r, p) == Walk(w0, r, p);
    }
  }

  /** The same, when a frame was taken for each table that was missing, and `extra` frames besides. */
  ghost predicate RunDone(w: Mem, w': Mem, f: Forest, f': Forest, c: set<nat>, c': set<nat>, root: nat, phys: seq<nat>,
                          virt: nat, flags: nat, extra: nat)
  {
    && RunMade(w, w', f, f', c, root, phys, virt, flags)
    && Trimmed(c, c', extra + |RunTables(f, root, virt, |phys|) - f.node.Keys|)
  }

  lemma NothingDone(w: Mem, f: Forest, c: set<nat>, root: nat, virt: nat, flags: nat)
    ensures RunDone(w, w, f, f, c, c, root, [], virt, flags, 0)
  {
  }

  lemma RunMadeGrows(w0: Mem, w1: Mem, w2: Mem, f0: Forest, f1: Forest, f2: Forest, c0: set<nat>, c1: set<nat>,
                     c2: set<nat>, root: nat, phys: seq<nat>, longer: seq<nat>, virt: nat, p: Page, flags: nat,
                     last: nat)
    requires longer == phys + [last] && p == PageAt(virt, |phys|) && c1 <= c0
    requires RunMade(w0, w1, f0, f1, c0, root, phys, virt, flags)
    requires PageMade(w1, w2, f1, f2, c1, c2, root, p, Some(last + flags))
    ensures RunMade(w0, w2, f0, f2, c0, root, longer, virt, flags)
  {
    assert Extended(f0, f2, root, c0) by {
      ExtendedTrans(f0, f1, f2, root, c0, c1);
    }
    assert RunMapped(w0, w2, f0, root, longer, virt, flags) by {
      RunGrows(w0, w1, w2, f0, f1, root, phys, longer, virt, p, flags, last);
    }
    assert DataKept(w0, w2, f2, c0) by {
      DataKeptTrans(w0, w1, w2, f1, f2, c0, c1);
    }
    OwnKept(f0, f1, f2, root, phys, longer, virt, p, last);
  }

  lemma OwnKept(f0: Forest, f1: Forest, f2: Forest, root: nat, phys: seq<nat>, longer: seq<nat>, virt: nat, p: Page,
                last: nat)
    requires longer == phys + [last] && p == PageAt(virt, |phys|) && SameSight(f0, f1, root)
    requires f1.node.Keys == f0.node.Keys + RunTables(f0, root, virt, |phys|)
    requires (Lower(virt, |phys|) ==> f1.own == f0.own)
    requires f2.node.Keys == f1.node.Keys + TablesFor(f1, root, p) && f2.own == f1.own + Parted(f1, root, p.a)
    ensures f2.node.Keys == f0.node.Keys + RunTables(f0, root, virt, |longer|)
    ensures (Lower(virt, |longer|) ==> f2.own == f0.own)
  {
    SameTables(f0, f1, root, p);
    assert Lower(virt, |longer|) ==> PageAt(virt, |phys|).a < 256 && Lower(virt, |phys|);
  }

  lemma SameTables(f: Forest, f': Forest, root: nat, p: Page)
    requires SameSight(f, f', root)
    ensures TablesFor(f', root, p) == TablesFor(f, root, p)
  {
    assert Holder(f', root, p.a) == Holder(f, root, p.a);
  }

  lemma {:induction false} SameRunTables(f: Forest, f': Forest, root: nat, virt: nat, n: nat)
    requires SameSight(f, f', root)
    ensures RunTables(f', root, virt, n) == RunTables(f, root, virt, n)
  {
    if n > 0 {
      SameRunTables(f, f', root, virt, n - 1);
      SameTables(f, f', root, PageAt(virt, n - 1));
    }
  }

  /** With frames for all missing tables of the run there are enough for the next page. */
  lemma NextPageFits(f0: Forest, f1: Forest, c0: set<nat>, c1: set<nat>, root: nat, virt: nat, i: nat, n: nat,
                     extra: nat)
    requires i < n && SameSight(f0, f1, root) && f1.node.Keys == f0.node.Keys + RunTables(f0, root, virt, i)
    requires |c0| <= |c1| + extra + |RunTables(f0, root, virt, i) - f0.node.Keys|
    requires |c0| >= |RunTables(f0, root, virt, n) - f0.node.Keys| + extra
    ensures var p := PageAt(virt, i);
      && |c1| >= |TablesFor(f1, root, p) - f1.node.Keys|
      && |RunTables(f0, root, virt, i + 1) - f0.node.Keys| ==
         |RunTables(f0, root, virt, i) - f0.node.Keys| + |TablesFor(f1, root, p) - f1.node.Keys|
  {
    var p := PageAt(virt, i);
    SameTables(f0, f1, root, p);
    MissingSplit(f0.node.Keys, RunTables(f0, root, virt, i), TablesFor(f0, root, p));
    RunTablesGrow(f0, root, virt, i + 1, n);
    SubsetSize(RunTables(f0, root, virt, i + 1) - f0.node.Keys, RunTables(f0, root, virt, n) - f0.node.Keys);
  }

  // ----- The loops ------------------------------------------------------------------------

  /** The addresses of `n` consecutive frames. */
  function Consecutive(phys: nat, n: nat): (l: seq<nat>)
    ensures |l| == n && forall i :: 0 <= i < n ==> l[i] == AddressAt(phys, i)
  {
    seq(n, i requires 0 <= i < n => AddressAt(phys, i))
  }

  lemma ConsecutiveGrows(phys: nat, i: nat)
    ensures Consecutive(phys, i) + [AddressAt(phys, i)] == Consecutive(phys, i + 1)
  {
  }

  lemma PageAligned(phys: nat, i: nat)
    requires phys % PAGE_SIZE == 0
    ensures AddressAt(phys, i) % PAGE_SIZE == 0
  {
  }

  /** What is needed to map `n` pages: a frame for each table that is missing. */
  ghost predicate RoomFor(m: Mapper, pagemap: nat, virt: nat, n: nat)
    reads m, m.pmm
  {
    |m.pmm.clear| >= |RunTables(m.forest, pagemap, virt, n) - m.forest.node.Keys|
  }

  /** Map `n` consecutive frames to consecutive pages. */
  method MapRun(m: Mapper, pagemap: nat, phys: nat, virt: nat, n: nat, flags: nat)
    requires m.Valid() && pagemap in m.forest.roots && phys % PAGE_SIZE == 0 && m.FlagsOk(flags)
    requires RoomFor(m, pagemap, virt, n)
    modifies m`words, m`forest, m.pmm, m.pmm.data
    ensures m.Valid() && m.pmm.data == old(m.pmm.data) && m.pmm.size == old(m.pmm.size)
    ensures RunDone(old(m.words), m.words, old(m.forest), m.forest, old(m.pmm.clear), m.pmm.clear, pagemap,
                    Consecutive(phys, n), virt, flags, 0)
  {
    ghost var w0, f0, c0 := m.words, m.forest, m.pmm.clear;
    NothingDone(w0, f0, c0, pagemap, virt, flags);
    for i := 0 to n
      invariant m.Valid() && m.pmm.data == old(m.pmm.data) && m.pmm.size == old(m.pmm.size)
      invariant RunDone(w0, m.words, f0, m.forest, c0, m.pmm.clear, pagemap, Consecutive(phys, i), virt, flags, 0)
    {
      PageAligned(phys, i);
      ConsecutiveGrows(phys, i);
      MapNext(m, pagemap, AddressAt(phys, i), virt, i, flags, w0, f0, c0, Consecutive(phys, i),
              Consecutive(phys, i + 1), 0, n);
    }
  }

  /** Page `i` of a run of `n`, of which those before are mapped to `phys`; `extra` other frames were taken
      meanwhile. */
  method MapNext(m: Mapper, pagemap: nat, frame: nat, virt: nat, i: nat, flags: nat, ghost w0: Mem, ghost f0: Forest,
                 ghost c0: set<nat>, ghost phys: seq<nat>, ghost longer: seq<nat>, ghost extra: nat, ghost n: nat)
    requires m.Valid() && pagemap in m.forest.roots && frame % PAGE_SIZE == 0 && m.FlagsOk(flags) && i == |phys| < n
    requires longer == phys + [frame]
    requires RunDone(w0, m.words, f0, m.forest, c0, m.pmm.clear, pagemap, phys, virt, flags, extra)
    requires |c0| >= |RunTables(f0, pagemap, virt, n) - f0.node.Keys| + extra
    modifies m`words, m`forest, m.pmm, m.pmm.data
    ensures m.Valid() && m.pmm.data == old(m.pmm.data) && m.pmm.size == old(m.pmm.size)
    ensures RunDone(w0, m.words, f0, m.forest, c0, m.pmm.clear, pagemap, longer, virt, flags, extra)
    ensures m.pmm.clear <= old(m.pmm.clear) && Extended(old(m.forest), m.forest, pagemap, old(m.pmm.clear))
    ensures DataKept(old(m.words), m.words, m.forest, old(m.pmm.clear))
  {
    ghost var w1, f1, c1 := m.words, m.forest, m.pmm.clear;
    NextPageFits(f0, f1, c0, c1, pagemap, virt, i, n, extra);
    m.Map(pagemap, frame, AddressAt(virt, i), flags);
    NextPageMade(w0, w1, m.words, f0, f1, m.forest, c0, c1, m.pmm.clear, pagemap, phys, longer, virt, PageAt(virt, i),
                 flags, frame, extra);
  }

  lemma NextPageMade(w0: Mem, w1: Mem, w2: Mem, f0: Forest, f1: Forest, f2: Forest, c0: set<nat>, c1: set<nat>,
                     c2: set<nat>, root: nat, phys: seq<nat>, longer: seq<nat>, virt: nat, p: Page, flags: nat,
                     frame: nat, extra: nat)
    requires longer == phys + [frame] && p == PageAt(virt, |phys|)
    requires RunDone(w0, w1, f0, f1, c0, c1, root, phys, virt, flags, extra)
    requires PageMade(w1, w2, f1, f2, c1, c2, root, p, Some(frame + flags))
    requires |RunTables(f0, root, virt, |phys| + 1) - f0.node.Keys| ==
             |RunTables(f0, root, virt, |phys|) - f0.node.Keys| + |TablesFor(f1, root, p) - f1.node.Keys|
    ensures RunDone(w0, w2, f0, f2, c0, c2, root, longer, virt, flags, extra)
  {
    assert Trimmed(c0, c2, extra + |RunTables(f0, root, virt, |longer|) - f0.node.Keys|) by {
      TrimmedTrans(c0, c1, c2, extra + |RunTables(f0, root, virt, |phys|) - f0.node.Keys|,
                   |TablesFor(f1, root, p) - f1.node.Keys|);
    }
    RunMadeGrows(w0, w1, w2, f0, f1, f2, c0, c1, c2, root, phys, longer, virt, p, flags, frame);
  }

  /** vmm_map_range. */
  method MapRange(m: Mapper, pagemap: nat, start: nat, end: nat, offset: nat, flags: nat)
    requires m.Valid() && pagemap in m.forest.roots && start % PAGE_SIZE == 0 && m.FlagsOk(flags)
    requires RoomFor(m, pagemap, start + offset, PagesBetween(start, end))
    modifies m`words, m`forest, m.pmm, m.pmm.data
    ensures m.Valid() && m.pmm.data == old(m.pmm.data) && m.pmm.size == old(m.pmm.size)
    ensures RunDone(old(m.words), m.words, old(m.forest), m.forest, old(m.pmm.clear), m.pmm.clear, pagemap,
                    Consecutive(start, PagesBetween(start, end)), start + offset, flags, 0)
  {
    MapRun(m, pagemap, start, start + offset, PagesBetween(start, end), flags);
  }

  /** How often a loop from `start` up to `end` in steps of a page runs. */
  function PagesBetween(start: nat, end: nat): nat
  {
    if end <= start then 0 else (end - start + PAGE_SIZE - 1) / PAGE_SIZE
  }
}
