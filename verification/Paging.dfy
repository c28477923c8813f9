/** The page mapper of src/kernel/arch/memory/vmm.c on the frame allocator. */
module Paging {
  import opened Basics
  import opened PageTables
  import Pmm

  /** Pages of the first 128 MiB, which are mapped at MMAP_KERNEL_BASE. */
  const KERNEL_PAGES: nat := 0x8000

  /** The mapper reads and writes frames at MMAP_IO_BASE, where `reach` pages are mapped, but the top-level
      table of a process at MMAP_KERNEL_BASE.  There it finds all tables, and all frames it may be given. */
  ghost predicate InReach(f: Forest, clear: set<nat>, reach: nat)
  {
    && (forall i :: i in clear ==> i < reach) && (forall fr :: fr in f.owner ==> fr < reach)
    && forall r :: r in f.roots && r != f.kernel ==> r < KERNEL_PAGES
  }

  class Mapper {
    const pmm: Pmm.FrameAllocator
    /** Pages of physical memory that are mapped from MMAP_IO_BASE on. */
    ghost const reach: nat
    /** Physical memory. */
    var words: Mem
    /** Frame of the kernel's top-level table. */
    var kernelPagemap: nat
    ghost var forest: Forest

    ghost predicate Valid()
      reads this, pmm, pmm.data
    {
      pmm.Valid() && Grown(words, forest, pmm.clear)
      && forest.kernel == kernelPagemap && InReach(forest, pmm.clear, reach)
    }

    /** The kernel's top-level table, empty. */
    constructor (pmm: Pmm.FrameAllocator, ghost reach: nat)
      requires pmm.Valid() && pmm.clear != {} && forall i :: i in pmm.clear ==> i < reach
      modifies pmm, pmm.data
      ensures Valid() && this.pmm == pmm && this.reach == reach && pmm.data == old(pmm.data)
      ensures pmm.size == old(pmm.size)
      ensures Pmm.IsLeast(kernelPagemap, old(pmm.clear)) && pmm.clear == old(pmm.clear) - {kernelPagemap}
      ensures forest == KernelForest(kernelPagemap)
      ensures forall p :: Walk(words, kernelPagemap, p) == None
    {
      this.pmm, this.reach := pmm, reach;
      var addr := pmm.Allocate(1);
      var f := addr / PAGE_SIZE;
      Pmm.OneFrame(f);
      kernelPagemap := f;
      words := map[f := ZeroTable()];
      forest := KernelForest(f);
      new;
      EmptyForest(f, pmm.clear);
    }

    /** pmm_allocate_zero.  It zeroes what pmm_allocate answers: frames that were taken already when only
        the first of the run was clear, and the first frames of memory when none was. */
    method AllocateZero(pages: nat) returns (addr: nat)
      requires Valid() && pages <= reach
      requires forall i: nat :: Pmm.IsLeast(i, pmm.clear) ==> i + pages <= 8 * pmm.data.Length && i + pages <= reach
      modifies this`words, pmm, pmm.data
      ensures pmm.Valid() && pmm.data == old(pmm.data) && pmm.size == old(pmm.size) && addr % PAGE_SIZE == 0
      ensures addr == 0 <==> pages == 0 || pages > pmm.size || old(pmm.clear) == {}
      ensures addr == 0 ==> pmm.clear == old(pmm.clear)
      ensures addr != 0 ==> Pmm.IsLeast(addr / PAGE_SIZE, old(pmm.clear))
                            && pmm.clear == old(pmm.clear) - Pmm.Run(addr / PAGE_SIZE, pages)
      ensures Filled(old(words), words, addr / PAGE_SIZE, pages, ZeroTable())
      ensures Pmm.Run(addr / PAGE_SIZE, pages) !! forest.owner.Keys ==>
                Valid() && SameLookups(old(words), words, forest, forest)
    {
      addr := pmm.Allocate(pages);
      ghost var w0 := words;
      ZeroFrames(addr / PAGE_SIZE, pages);
      if Pmm.Run(addr / PAGE_SIZE, pages) !! forest.owner.Keys {
        ApartFromTables(w0, words, forest, addr / PAGE_SIZE, pages);
        TablesKept(w0, words, forest, old(pmm.clear), pmm.clear);
      }
    }

    /** pmm_allocate_zero when the run it will take is clear. */
    method AllocateRun(pages: nat) returns (addr: nat)
      requires Valid() && 0 < pages <= pmm.size && pmm.clear != {} && RunReady(pmm.clear, pages)
      modifies this`words, pmm, pmm.data
      ensures Valid() && addr % PAGE_SIZE == 0 && Pmm.IsLeast(addr / PAGE_SIZE, old(pmm.clear))
      ensures pmm.data == old(pmm.data) && pmm.size == old(pmm.size)
      ensures Pmm.Run(addr / PAGE_SIZE, pages) <= old(pmm.clear)
      ensures pmm.clear == old(pmm.clear) - Pmm.Run(addr / PAGE_SIZE, pages)
      ensures Filled(old(words), words, addr / PAGE_SIZE, pages, ZeroTable())
      ensures Trimmed(old(pmm.clear), pmm.clear, pages) && SameLookups(old(words), words, forest, forest)
    {
      RunInBitmap(pages);
      ghost var c := pmm.clear;
      assert pages <= reach by {
        var least := HasLeast(c);
      }
      addr := AllocateZero(pages);
      assert Pmm.Run(addr / PAGE_SIZE, pages) !! forest.owner.Keys;
      RunTrimmed(c, addr / PAGE_SIZE, pages);
    }

    /** pmm_allocate_zero(1). */
    method AllocateOne() returns (addr: nat)
      requires Valid() && |pmm.clear| >= 1
      modifies this`words, pmm, pmm.data
      ensures Valid() && addr % PAGE_SIZE == 0 && Pmm.IsLeast(addr / PAGE_SIZE, old(pmm.clear))
      ensures pmm.clear == old(pmm.clear) - {addr / PAGE_SIZE} && pmm.data == old(pmm.data) && pmm.size == old(pmm.size)
      ensures words == old(words)[addr / PAGE_SIZE := ZeroTable()]
      ensures SameLookups(old(words), words, forest, forest)
    {
      OneFrameReady(pmm.clear);
      assert exists i :: i in pmm.clear && i < 8 * pmm.data.Length;
      addr := AllocateRun(1);
      Pmm.OneFrame(addr / PAGE_SIZE);
      FilledOne(old(words), words, addr / PAGE_SIZE, ZeroTable());
    }

    /** The memset of pmm_allocate_zero. */
    method ZeroFrames(first: nat, n: nat)
      modifies this`words
      ensures Filled(old(words), words, first, n, ZeroTable())
    {
      ghost var w0 := words;
      for i := 0 to n
        invariant Filled(w0, words, first, i, ZeroTable())
      {
        words := words[first + i := ZeroTable()];
      }
    }

    ghost predicate FlagsOk(flags: nat)
    {
      flags < FLAG_LIMIT && Present(flags)
    }

    /** The tables that mapping page `p` in address space `root` would have to make. */
    ghost function Missing(root: nat, p: Page): set<Key>
      reads this
    {
      TablesFor(forest, root, p) - forest.node.Keys
    }

    /** get_next_level: the table that entry `index` of the table in frame `table` leads to. */
    method GetNextLevel(table: nat, index: nat, flags: nat, ghost k: Key, ghost root: nat) returns (next: nat)
      requires Valid() && k in forest.node && forest.node[k] == table && !k.at.First? && index < ENTRIES
      requires root in forest.roots && (k.at.Top? ==> k.root == root) && FlagsOk(flags)
      requires Next(forest, k, index) !in forest.node ==> |pmm.clear| >= 1
      modifies this`words, this`forest, pmm, pmm.data
      ensures Valid() && pmm.data == old(pmm.data) && pmm.size == old(pmm.size)
      ensures Next(old(forest), k, index) in forest.node && forest.node[Next(old(forest), k, index)] == next
      ensures Grew(old(words), words, old(forest), forest, old(pmm.clear), pmm.clear, root,
                   {Next(old(forest), k, index)})
      ensures forest.own == old(forest).own +
                if Next(old(forest), k, index) in old(forest).node then {}
                else Divided(old(forest), Next(old(forest), k, index))
    {
      ghost var f, n := forest, Next(forest, k, index);
      NextIs(words, forest, pmm.clear, k, index);
      if !Present(words[table][index]) {
        AddTable(table, index, flags, k, root, n);
        NextSame(f, forest, root, k, index);
      } else {
        NothingGrew(words, forest, pmm.clear, root, n);
      }
      next := Follow(table, index, k, n);
    }

    /** The table that a present entry leads to. */
    method Follow(table: nat, index: nat, ghost k: Key, ghost n: Key) returns (next: nat)
      requires Valid() && k in forest.node && forest.node[k] == table && !k.at.First? && index < ENTRIES
      requires n == Next(forest, k, index) && n in forest.node
      ensures forest.node[n] == next
    {
      NextIs(words, forest, pmm.clear, k, index);
      var e := words[table][index];
      FlagsMasked(e);
      next := (e - e % FLAG_LIMIT) / PAGE_SIZE;
    }

    /** The branch of get_next_level for an entry that is not present. */
    method AddTable(table: nat, index: nat, flags: nat, ghost k: Key, ghost root: nat, ghost n: Key)
      requires Valid() && Room(words, forest, k, index) && forest.node[k] == table && n == Below(k, index)
      requires root in forest.roots && (k.at.Top? ==> k.root == root) && FlagsOk(flags) && |pmm.clear| >= 1
      modifies this`words, this`forest, pmm, pmm.data
      ensures Valid() && pmm.data == old(pmm.data) && pmm.size == old(pmm.size)
      ensures Grew(old(words), words, old(forest), forest, old(pmm.clear), pmm.clear, root, {n})
      ensures n !in old(forest).node && forest.own == old(forest).own + Divided(old(forest), n)
    {
      ghost var w0, clear0 := words, pmm.clear;
      var addr := AllocateOne();
      WriteEntry(table, index, addr, flags, k, root, w0, clear0);
    }

    /** Write the address of a zeroed frame, then its flags. */
    method WriteEntry(table: nat, index: nat, addr: nat, flags: nat, ghost k: Key, ghost root: nat, ghost w0: Mem,
                      ghost c0: set<nat>)
      requires Grown(w0, forest, c0) && Room(w0, forest, k, index) && forest.node[k] == table
      requires root in forest.roots && (k.at.Top? ==> k.root == root) && FlagsOk(flags)
      requires addr % PAGE_SIZE == 0 && Pmm.IsLeast(addr / PAGE_SIZE, c0)
      requires words == w0[addr / PAGE_SIZE := ZeroTable()]
      modifies this`words, this`forest
      ensures Grown(words, forest, c0 - {addr / PAGE_SIZE}) && forest.kernel == old(forest).kernel
      ensures Grew(w0, words, old(forest), forest, c0, c0 - {addr / PAGE_SIZE}, root, {Below(k, index)})
      ensures Below(k, index) !in old(forest).node
      ensures forest.own == old(forest).own + Divided(old(forest), Below(k, index))
    {
      ghost var f0, fr := forest, addr / PAGE_SIZE;
      EntryWritten(w0, words, f0, c0, root, k, table, index, addr, fr, flags);
      words := WithWord(words, table, index, addr);
      words := WithWord(words, table, index, words[table][index] + flags);
      forest := WithNode(f0, Below(k, index), fr);
    }

    /** One more level: with the tables `keys` made since a first state, the next one is found or made. */
    method Descend(table: nat, index: nat, flags: nat, ghost k: Key, ghost root: nat, ghost w0: Mem, ghost f0: Forest,
                   ghost c0: set<nat>, ghost keys: set<Key>, ghost all: set<Key>) returns (next: nat)
      requires Valid() && k in forest.node && forest.node[k] == table && !k.at.First? && index < ENTRIES
      requires root in forest.roots && (k.at.Top? ==> k.root == root) && FlagsOk(flags)
      requires Grew(w0, words, f0, forest, c0, pmm.clear, root, keys)
      requires |c0| >= |all - f0.node.Keys| && keys <= all && Next(forest, k, index) in all
      modifies this`words, this`forest, pmm, pmm.data
      ensures Valid() && pmm.data == old(pmm.data) && pmm.size == old(pmm.size)
      ensures Next(old(forest), k, index) in forest.node && forest.node[Next(old(forest), k, index)] == next
      ensures Grew(w0, words, f0, forest, c0, pmm.clear, root, keys + {Next(old(forest), k, index)})
      ensures forest.own == old(forest).own +
                if Next(old(forest), k, index) in old(forest).node then {}
                else Divided(old(forest), Next(old(forest), k, index))
    {
      ghost var w1, f1, c1, n := words, forest, pmm.clear, Next(forest, k, index);
      EnoughLeft(w0, w1, f0, f1, c0, c1, root, keys, n, all);
      next := GetNextLevel(table, index, flags, k, root);
      GrewTrans(w0, w1, words, f0, f1, forest, c0, c1, pmm.clear, root, keys, {n});
    }

    /** The table that holds the leaf entry of page `p`, made if need be. */
    method LeafTable(pagemap: nat, p: Page, flags: nat) returns (pml1: nat)
      requires Valid() && pagemap in forest.roots && InRange(p) && FlagsOk(flags)
      requires |pmm.clear| >= |Missing(pagemap, p)|
      modifies this`words, this`forest, pmm, pmm.data
      ensures Valid() && pmm.data == old(pmm.data) && pmm.size == old(pmm.size)
      ensures Key(Holder(old(forest), pagemap, p.a), First(p.a, p.b, p.c)) in forest.node
      ensures forest.node[Key(Holder(old(forest), pagemap, p.a), First(p.a, p.b, p.c))] == pml1
      ensures Grew(old(words), words, old(forest), forest, old(pmm.clear), pmm.clear, pagemap,
                   TablesFor(old(forest), pagemap, p))
      ensures forest.own == old(forest).own + Parted(old(forest), pagemap, p.a)
    {
      ghost var h := Holder(forest, pagemap, p.a);
      ghost var k3, k2, k1 := Key(h, Third(p.a)), Key(h, Second(p.a, p.b)), Key(h, First(p.a, p.b, p.c));
      ghost var w0, f0, c0, all := words, forest, pmm.clear, TablesFor(forest, pagemap, p);
      var pml2 := SecondTable(pagemap, p, flags, all);
      pml1 := Descend(pml2, p.c, flags, k2, pagemap, w0, f0, c0, {k3, k2}, all);
      assert {k3, k2} + {k1} == all;
    }

    /** The first two levels. */
    method SecondTable(pagemap: nat, p: Page, flags: nat, ghost all: set<Key>) returns (pml2: nat)
      requires Valid() && pagemap in forest.roots && InRange(p) && FlagsOk(flags)
      requires all == TablesFor(forest, pagemap, p) && |pmm.clear| >= |all - forest.node.Keys|
      modifies this`words, this`forest, pmm, pmm.data
      ensures Valid() && pmm.data == old(pmm.data) && pmm.size == old(pmm.size)
      ensures var h := Holder(old(forest), pagemap, p.a);
        && Key(h, Second(p.a, p.b)) in forest.node && forest.node[Key(h, Second(p.a, p.b))] == pml2
        && Grew(old(words), words, old(forest), forest, old(pmm.clear), pmm.clear, pagemap,
                {Key(h, Third(p.a)), Key(h, Second(p.a, p.b))})
      ensures forest.own == old(forest).own + Parted(old(forest), pagemap, p.a)
    {
      ghost var h := Holder(forest, pagemap, p.a);
      ghost var k3, k2 := Key(h, Third(p.a)), Key(h, Second(p.a, p.b));
      ghost var w0, f0, c0 := words, forest, pmm.clear;
      var pml3 := ThirdTable(pagemap, p, flags, all);
      pml2 := Descend(pml3, p.b, flags, k3, pagemap, w0, f0, c0, {k3}, all);
      assert {k3} + {k2} == {k3, k2};
    }

    method ThirdTable(pagemap: nat, p: Page, flags: nat, ghost all: set<Key>) returns (pml3: nat)
      requires Valid() && pagemap in forest.roots && InRange(p) && FlagsOk(flags)
      requires all == TablesFor(forest, pagemap, p) && |pmm.clear| >= |all - forest.node.Keys|
      modifies this`words, this`forest, pmm, pmm.data
      ensures Valid() && pmm.data == old(pmm.data) && pmm.size == old(pmm.size)
      ensures var k := Key(Holder(old(forest), pagemap, p.a), Third(p.a));
        && k in forest.node && forest.node[k] == pml3
        && Grew(old(words), words, old(forest), forest, old(pmm.clear), pmm.clear, pagemap, {k})
      ensures forest.own == old(forest).own + Parted(old(forest), pagemap, p.a)
    {
      ghost var k := Key(Holder(forest, pagemap, p.a), Third(p.a));
      ghost var w0, f0, c0 := words, forest, pmm.clear;
      assert NodeOk(words, forest, Key(pagemap, Top));
      NothingGrew(w0, f0, c0, pagemap, k);
      pml3 := Descend(pagemap, p.a, flags, Key(pagemap, Top), pagemap, w0, f0, c0, {}, all);
      assert {} + {k} == {k};
    }

    /** What vmm_map and vmm_unmap share: find or make the tables, write the leaf entry. */
    method SetLeaf(pagemap: nat, p: Page, flags: nat, entry: nat)
      requires Valid() && pagemap in forest.roots && InRange(p) && FlagsOk(flags)
      requires |pmm.clear| >= |Missing(pagemap, p)|
      modifies this`words, this`forest, pmm, pmm.data
      ensures PageMade(old(words), words, old(forest), forest, old(pmm.clear), pmm.clear, pagemap, p,
                       if Present(entry) then Some(entry) else None)
      ensures Valid() && pmm.data == old(pmm.data) && pmm.size == old(pmm.size)
    {
      ghost var w0, f0, clear0 := words, forest, pmm.clear;
      var pml1 := LeafTable(pagemap, p, flags);
      LeafWritten(w0, words, f0, forest, clear0, pmm.clear, pagemap, p, entry);
      words := WithWord(words, pml1, p.d, entry);
    }

    /** vmm_map: afterwards the page leads to the frame wherever the address space's table is shared, and
        no other page of any address space leads elsewhere than before. */
    method Map(pagemap: nat, phys: nat, virt: nat, flags: nat)
      requires Valid() && pagemap in forest.roots && phys % 4096 == 0 && flags < 0x200 && flags % 2 == 1
      requires |pmm.clear| >= |Missing(pagemap, PageOf(virt))|
      modifies this`words, this`forest, pmm, pmm.data
      ensures PageMade(old(words), words, old(forest), forest, old(pmm.clear), pmm.clear, pagemap, PageOf(virt),
                       Some(phys + flags))
      ensures Valid() && pmm.data == old(pmm.data) && pmm.size == old(pmm.size)
    {
      LeafPresent(phys, flags);
      SetLeaf(pagemap, PageOf(virt), flags, phys + flags);
    }

    /** vmm_unmap: it makes missing tables on the way, but takes only the one page away. */
    method Unmap(pagemap: nat, virt: nat, flags: nat)
      requires Valid() && pagemap in forest.roots && flags < 0x200 && flags % 2 == 1
      requires |pmm.clear| >= |Missing(pagemap, PageOf(virt))|
      modifies this`words, this`forest, pmm, pmm.data
      ensures PageMade(old(words), words, old(forest), forest, old(pmm.clear), pmm.clear, pagemap, PageOf(virt), None)
      ensures Valid() && pmm.data == old(pmm.data) && pmm.size == old(pmm.size)
    {
      SetLeaf(pagemap, PageOf(virt), flags, 0);
    }

    lemma RunInBitmap(n: nat)
      requires Valid() && RunReady(pmm.clear, n) && n > 0
      ensures forall i: nat :: Pmm.IsLeast(i, pmm.clear) ==> i + n <= 8 * pmm.data.Length && i + n <= reach
    {
      forall i: nat | Pmm.IsLeast(i, pmm.clear) ensures i + n <= 8 * pmm.data.Length && i + n <= reach {
        assert Pmm.InRun(i + n - 1, i, n);
        assert i + n - 1 in Pmm.Run(i, n);
      }
    }
  }

  /** What a change of page `p` in address space `root` does to memory, tables and clear frames: a frame was
      taken for each table that was missing, the page ends at `e` wherever it is seen, nothing else changed. */
  ghost predicate PageMade(w: Mem, w': Mem, f: Forest, f': Forest, c: set<nat>, c': set<nat>, root: nat, p: Page,
                           e: Option<nat>)
  {
    && Extended(f, f', root, c) && f'.node.Keys == f.node.Keys + TablesFor(f, root, p)
    && WalksBut(w, w', f, root, p, e) && DataKept(w, w', f', c)
    && Trimmed(c, c', |TablesFor(f, root, p) - f.node.Keys|) && f'.own == f.own + Parted(f, root, p.a)
  }

  ghost function KernelForest(fr: nat): Forest
  {
    Forest(map[Key(fr, Top) := fr], map[fr := Key(fr, Top)], fr, {fr}, {})
  }

  /** The slots in which address spaces part when slot `a` of address space `root` is mapped: none in the
      lower half, none when the slot has a table, none when there is one address space only. */
  ghost function Parted(f: Forest, root: nat, a: nat): set<(nat, nat)>
  {
    var n := Key(Holder(f, root, a), Third(a));
    if n in f.node then {} else Divided(f, n)
  }

  lemma PartedIs(mem: Mem, f: Forest, clear: set<nat>, root: nat, a: nat)
    requires Grown(mem, f, clear) && root in f.roots
    ensures Parted(f, root, a) <= f.own <==>
      a < 256 || Key(Holder(f, root, a), Third(a)) in f.node || (root != f.kernel && (root, a) in f.own)
      || (root == f.kernel && forall r :: r in f.roots && r != f.kernel ==> (r, a) in f.own)
  {
  }

  /** Masking the low nine bits off an entry whose bits 9 to 11 are clear gives its frame. */
  lemma FlagsMasked(e: nat)
    ensures e % PAGE_SIZE < FLAG_LIMIT ==> (e - e % FLAG_LIMIT) / PAGE_SIZE == FrameOf(e)
  {
    var q := e / 4096;
    assert e == 4096 * q + e % 4096;
    if e % 4096 < 0x200 {
      assert e == 0x200 * (8 * q) + e % 4096;
      assert e % 0x200 == e % 4096;
    }
  }

  /** A page address with flags is an entry that leads back to the page. */
  lemma LeafPresent(phys: nat, flags: nat)
    requires phys % PAGE_SIZE == 0 && flags < FLAG_LIMIT && Present(flags)
    ensures Present(phys + flags) && FrameOf(phys + flags) == phys / PAGE_SIZE && phys / PAGE_SIZE * PAGE_SIZE == phys
  {
    var q := phys / PAGE_SIZE;
    assert phys == 4096 * q;
    assert phys + flags == 2 * (2048 * q) + flags;
  }

  /** Kernel pages are present and writable, user pages may also be used by programs. */
  lemma UsualFlags()
    ensures 3 < FLAG_LIMIT && Present(3) && 7 < FLAG_LIMIT && Present(7)
  {
  }

  // ----- Data in frames -----------------------------------------------------------------------------

  /** Every frame that was taken and holds no table is what it was. */
  ghost predicate DataKept(w: Mem, w': Mem, f': Forest, clear: set<nat>)
  {
    forall fr :: fr in w && fr !in clear && fr !in f'.owner ==> fr in w' && w'[fr] == w[fr]
  }

  lemma DataKeptTrans(w0: Mem, w1: Mem, w2: Mem, f1: Forest, f2: Forest, c0: set<nat>, c1: set<nat>)
    requires DataKept(w0, w1, f1, c0) && DataKept(w1, w2, f2, c1) && c1 <= c0
    requires forall fr :: fr in f1.owner ==> fr in f2.owner
    ensures DataKept(w0, w2, f2, c0)
  {
  }

  // ----- Tables made ---------------------------------------------------------------------------------

  /** For address space `root`, the tables `keys` were found or made: no lookup changed, no data changed,
      and one frame was taken for each table that was missing. */
  ghost predicate Grew(w: Mem, w': Mem, f: Forest, f': Forest, c: set<nat>, c': set<nat>, root: nat, keys: set<Key>)
  {
    Made(f, f', c, c', root, keys) && Unseen(w, w', f, f', c)
  }

  ghost predicate Made(f: Forest, f': Forest, c: set<nat>, c': set<nat>, root: nat, keys: set<Key>)
  {
    Extended(f, f', root, c) && f'.node.Keys == f.node.Keys + keys && Trimmed(c, c', |keys - f.node.Keys|)
  }

  ghost predicate Unseen(w: Mem, w': Mem, f: Forest, f': Forest, c: set<nat>)
  {
    SameLookups(w, w', f, f') && DataKept(w, w', f', c)
  }

  lemma NextSame(f: Forest, f': Forest, root: nat, k: Key, index: nat)
    requires SameSight(f, f', root) && !k.at.First? && (k.at.Top? ==> k.root == root)
    ensures Next(f', k, index) == Next(f, k, index)
  {
    assert Holder(f', root, index) == Holder(f, root, index);
  }

  lemma NothingGrew(w: Mem, f: Forest, c: set<nat>, root: nat, k: Key)
    ensures Grew(w, w, f, f, c, c, root, {})
    ensures k in f.node ==> Grew(w, w, f, f, c, c, root, {k})
  {
    if k in f.node {
      assert f.node.Keys + {k} == f.node.Keys;
    }
  }

  lemma GrewTrans(w0: Mem, w1: Mem, w2: Mem, f0: Forest, f1: Forest, f2: Forest, c0: set<nat>, c1: set<nat>,
                  c2: set<nat>, root: nat, keys: set<Key>, more: set<Key>)
    requires Grew(w0, w1, f0, f1, c0, c1, root, keys) && Grew(w1, w2, f1, f2, c1, c2, root, more)
    ensures Grew(w0, w2, f0, f2, c0, c2, root, keys + more)
  {
    MadeTrans(f0, f1, f2, c0, c1, c2, root, keys, more);
    UnseenTrans(w0, w1, w2, f0, f1, f2, c0, c1, root);
  }

  lemma MadeTrans(f0: Forest, f1: Forest, f2: Forest, c0: set<nat>, c1: set<nat>, c2: set<nat>, root: nat,
                  keys: set<Key>, more: set<Key>)
    requires Made(f0, f1, c0, c1, root, keys) && Made(f1, f2, c1, c2, root, more)
    ensures Made(f0, f2, c0, c2, root, keys + more)
  {
    assert Extended(f0, f2, root, c0) by {
      ExtendedTrans(f0, f1, f2, root, c0, c1);
    }
    TablesJoin(f0.node.Keys, f1.node.Keys, keys, more);
    TrimmedTrans(c0, c1, c2, |keys - f0.node.Keys|, |more - f1.node.Keys|);
  }

  lemma UnseenTrans(w0: Mem, w1: Mem, w2: Mem, f0: Forest, f1: Forest, f2: Forest, c0: set<nat>, c1: set<nat>,
                    root: nat)
    requires Unseen(w0, w1, f0, f1, c0) && Unseen(w1, w2, f1, f2, c1)
    requires Extended(f0, f1, root, c0) && Extended(f1, f2, root, c1) && c1 <= c0
    ensures Unseen(w0, w2, f0, f2, c0)
  {
    SameLookupsTrans(w0, w1, w2, f0, f1, f2);
    DataKeptTrans(w0, w1, w2, f1, f2, c0, c1);
  }

  lemma MissingSplit(all: set<Key>, keys: set<Key>, more: set<Key>)
    ensures |keys + more - all| == |keys - all| + |more - (all + keys)|
  {
    assert keys + more - all == (keys - all) + (more - (all + keys));
  }

  lemma TablesJoin(all: set<Key>, all1: set<Key>, keys: set<Key>, more: set<Key>)
    requires all1 == all + keys
    ensures |keys + more - all| == |keys - all| + |more - all1| && all1 + more == all + (keys + more)
  {
    MissingSplit(all, keys, more);
  }

  /** After the tables `keys` there are frames for the others of `all`, so for table `k` in particular. */
  lemma EnoughLeft(w: Mem, w': Mem, f: Forest, f': Forest, c: set<nat>, c': set<nat>, root: nat, keys: set<Key>, k: Key,
                   all: set<Key>)
    requires Grew(w, w', f, f', c, c', root, keys) || (f' == f && c' == c && keys == {})
    requires |c| >= |all - f.node.Keys| && keys <= all && k in all
    ensures |c'| >= |all - f'.node.Keys|
    ensures k !in f'.node ==> |c'| >= 1
  {
    MissingSplit(f.node.Keys, keys, all);
    assert keys + all == all;
    assert f.node.Keys + keys == f'.node.Keys;
    if k !in f'.node {
      assert k in all - f'.node.Keys;
    }
  }

  /** A new table is one that was missing. */
  lemma TableGrew(w0: Mem, f: Forest, c: set<nat>, root: nat, k: Key, index: nat, fr: nat, flags: nat)
    requires Grown(w0, f, c) && Room(w0, f, k, index) && root in f.roots && (k.at.Top? ==> k.root == root)
    requires Pmm.IsLeast(fr, c) && flags < FLAG_LIMIT && Present(flags)
    ensures Below(k, index) !in f.node
    ensures Grown(WithTable(w0, f, k, index, fr, flags), WithNode(f, Below(k, index), fr), c - {fr})
    ensures Grew(w0, WithTable(w0, f, k, index, fr, flags), f, WithNode(f, Below(k, index), fr), c, c - {fr}, root,
                 {Below(k, index)})
  {
    NoTableYet(w0, f, c, k, index);
    TableAdded(w0, f, c, k, index, fr, flags);
    NodeExtends(w0, f, c, root, k, index, fr);
    TableMade(w0, f, c, k, index, fr, flags);
  }

  lemma TableMade(w0: Mem, f: Forest, c: set<nat>, k: Key, index: nat, fr: nat, flags: nat)
    requires Grown(w0, f, c) && Room(w0, f, k, index) && Pmm.IsLeast(fr, c) && Below(k, index) !in f.node
    ensures DataKept(w0, WithTable(w0, f, k, index, fr, flags), WithNode(f, Below(k, index), fr), c)
    ensures Trimmed(c, c - {fr}, |{Below(k, index)} - f.node.Keys|)
  {
    assert NodeOk(w0, f, k);
    assert {Below(k, index)} - f.node.Keys == {Below(k, index)};
    OneTaken(c, fr);
  }

  // ----- Clear frames ---------------------------------------------------------------------------------

  /** The `n` least frames were taken: those taken lie below all that are left. */
  ghost predicate Trimmed(c: set<nat>, c': set<nat>, n: nat)
  {
    c' <= c && |c| == |c'| + n && forall i, j :: i in c && i !in c' && j in c' ==> i < j
  }

  lemma OneTaken(c: set<nat>, fr: nat)
    requires Pmm.IsLeast(fr, c)
    ensures Trimmed(c, c - {fr}, 1)
  {
    assert c == (c - {fr}) + {fr};
  }

  lemma TrimmedTrans(c0: set<nat>, c1: set<nat>, c2: set<nat>, m: nat, n: nat)
    requires Trimmed(c0, c1, m) && Trimmed(c1, c2, n)
    ensures Trimmed(c0, c2, m + n)
  {
  }

  /** The `n` frames from the least clear one on are clear. */
  ghost predicate RunReady(c: set<nat>, n: nat)
  {
    forall i: nat :: Pmm.IsLeast(i, c) ==> Pmm.Run(i, n) <= c
  }

  lemma LessReady(c: set<nat>, m: nat, n: nat)
    requires RunReady(c, n) && m <= n
    ensures RunReady(c, m)
  {
    forall i: nat | Pmm.IsLeast(i, c) ensures Pmm.Run(i, m) <= c {
      forall j | j in Pmm.Run(i, m) ensures j in c {
        assert Pmm.InRun(j, i, n);
      }
    }
  }

  lemma OneFrameReady(c: set<nat>)
    ensures RunReady(c, 1)
  {
    forall i: nat | Pmm.IsLeast(i, c) ensures Pmm.Run(i, 1) <= c {
      Pmm.OneFrame(i);
    }
  }

  lemma {:induction false} HasLeast(c: set<nat>) returns (i: nat)
    requires c != {}
    ensures Pmm.IsLeast(i, c)
    decreases |c|
  {
    var some :| some in c;
    var rest := c - {some};
    assert forall j :: j in c ==> j == some || j in rest;
    if rest == {} {
      i := some;
    } else {
      i := HasLeast(rest);
      if some < i {
        i := some;
      }
    }
  }

  /** Frames taken from below shorten the run that is ready. */
  lemma TrimmedReady(c: set<nat>, c': set<nat>, k: nat, n: nat)
    requires RunReady(c, n) && Trimmed(c, c', k) && k <= n
    ensures RunReady(c', n - k)
  {
    forall i: nat | Pmm.IsLeast(i, c') ensures Pmm.Run(i, n - k) <= c' {
      if k < n {
        ReadyFrom(c, c', k, n, i);
      }
    }
  }

  lemma ReadyFrom(c: set<nat>, c': set<nat>, k: nat, n: nat, i: nat)
    requires RunReady(c, n) && Trimmed(c, c', k) && k < n && Pmm.IsLeast(i, c')
    ensures Pmm.Run(i, n - k) <= c'
  {
    var least := HasLeast(c);
    TakenFew(c, c', least, k, n, i);
    forall j | j in Pmm.Run(i, n - k) ensures j in c' {
      assert Pmm.InRun(j, i, n - k) && Pmm.InRun(j, least, n);
      assert j in Pmm.Run(least, n);
    }
  }

  /** The least clear frame moves up by no more than the frames taken. */
  lemma TakenFew(c: set<nat>, c': set<nat>, least: nat, k: nat, n: nat, i: nat)
    requires RunReady(c, n) && Trimmed(c, c', k) && k < n && Pmm.IsLeast(i, c') && Pmm.IsLeast(least, c)
    ensures least <= i <= least + k
  {
    var run := Pmm.Run(least, k + 1);
    assert c == (c - c') + c';
    LongRun(least, k + 1, c - c');
    forall j | j in run ensures j in c && j <= least + k {
      assert Pmm.InRun(j, least, k + 1) && Pmm.InRun(j, least, n) && j in Pmm.Run(least, n);
    }
    assert i > least + k ==> run <= c - c';
  }

  lemma LongRun(first: nat, n: nat, s: set<nat>)
    ensures Pmm.Run(first, n) <= s ==> n <= |s|
  {
    Pmm.RunSize(first, n);
    if Pmm.Run(first, n) <= s {
      SubsetSize(Pmm.Run(first, n), s);
    }
  }

  lemma RunTrimmed(c: set<nat>, least: nat, n: nat)
    requires Pmm.IsLeast(least, c) && Pmm.Run(least, n) <= c
    ensures Trimmed(c, c - Pmm.Run(least, n), n)
  {
    var r := Pmm.Run(least, n);
    Pmm.RunSize(least, n);
    assert c == (c - r) + r;
    forall i, j | i in r && j in c - r ensures i < j {
      assert Pmm.InRun(i, least, n) && !Pmm.InRun(j, least, n);
    }
  }

  lemma SubsetSize<T>(a: set<T>, b: set<T>)
    requires a <= b
    ensures |a| <= |b|
  {
    assert b == a + (b - a);
  }

  // ----- Frames written ---------------------------------------------------------------------------------

  /** Writing the address of a zeroed frame and then its flags makes it a table. */
  lemma TableWritten(w0: Mem, w1: Mem, f: Forest, k: Key, table: nat, index: nat, addr: nat, fr: nat, flags: nat)
    requires k in f.node && f.node[k] == table != fr && table in w0 && index < |w0[table]| && addr == fr * PAGE_SIZE
    requires w1 == w0[fr := ZeroTable()]
    ensures table in w1 && index < |w1[table]|
    ensures var w2 := WithWord(w1, table, index, addr);
      WithWord(w2, table, index, w2[table][index] + flags) == WithTable(w0, f, k, index, fr, flags)
  {
    var w2 := WithWord(w1, table, index, addr);
    assert w2[table][index := addr + flags] == w0[table][index := fr * PAGE_SIZE + flags];
  }

  lemma EntryWritten(w0: Mem, w1: Mem, f: Forest, c: set<nat>, root: nat, k: Key, table: nat, index: nat, addr: nat,
                     fr: nat, flags: nat)
    requires Grown(w0, f, c) && Room(w0, f, k, index) && f.node[k] == table && root in f.roots
    requires (k.at.Top? ==> k.root == root)
    requires addr % PAGE_SIZE == 0 && fr == addr / PAGE_SIZE && Pmm.IsLeast(fr, c) && w1 == w0[fr := ZeroTable()]
    requires flags < FLAG_LIMIT && Present(flags)
    ensures table in w1 && index < |w1[table]|
    ensures var w2 := WithWord(w1, table, index, addr);
      var w3, f' := WithWord(w2, table, index, w2[table][index] + flags), WithNode(f, Below(k, index), fr);
      Below(k, index) !in f.node && Grown(w3, f', c - {fr}) && Grew(w0, w3, f, f', c, c - {fr}, root, {Below(k, index)})
  {
    assert NodeOk(w0, f, k);
    TableGrew(w0, f, c, root, k, index, fr, flags);
    TableWritten(w0, w1, f, k, table, index, addr, fr, flags);
  }

  lemma FilledOne(m: Mem, m': Mem, f: nat, z: seq<nat>)
    requires Filled(m, m', f, 1, z)
    ensures m' == m[f := z]
  {
    assert Pmm.InRun(f, f, 1);
  }

  /** `m'` is `m` with `z` in each of the `n` frames from `first` on. */
  ghost predicate Filled(m: Mem, m': Mem, first: nat, n: nat, z: seq<nat>)
  {
    && (forall f :: f in m' <==> f in m || Pmm.InRun(f, first, n))
    && forall f :: f in m' ==> m'[f] == if Pmm.InRun(f, first, n) then z else m[f]
  }

  /** Zeroing a run that holds no table leaves the tables alone. */
  lemma ApartFromTables(m: Mem, m': Mem, f: Forest, first: nat, n: nat)
    requires Filled(m, m', first, n, ZeroTable()) && Pmm.Run(first, n) !! f.owner.Keys
    ensures forall fr :: fr in f.owner && fr in m ==> fr in m' && m'[fr] == m[fr]
  {
    forall fr | fr in f.owner && fr in m ensures fr in m' && m'[fr] == m[fr] {
      assert fr !in Pmm.Run(first, n);
    }
  }
}
