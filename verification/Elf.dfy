/** The program-header loop of src/kernel/elf.c: segments are mapped, filled from the file
    and zeroed behind it. */
module Elf {
  import opened Basics
  import opened PageTables
  import opened Paging
  import opened PageRuns
  import opened Isolation
  import Pmm

  const PT_LOAD := 1
  const PT_INTERP := 3
  const PT_PHDR := 6

  /** sizeof(Elf64ProgramHeader). */
  const HEADER_SIZE: nat := 56

  datatype ProgramHeader = ProgramHeader(kind: nat, fileOffset: nat, vaddr: nat, fileSize: nat, memorySize: nat)

  function Misalign(s: ProgramHeader): nat
  {
    s.vaddr % PAGE_SIZE
  }

  /** The segment's first address when the program is placed at `base`. */
  function Start(s: ProgramHeader, base: nat): nat
  {
    base + s.vaddr
  }

  function PageCount(s: ProgramHeader): nat
  {
    (Misalign(s) + s.memorySize + PAGE_SIZE - 1) / PAGE_SIZE
  }

  /** From the page of the segment's first byte to that of its last; an empty segment that does not begin on a page
      boundary has a page all the same. */
  lemma PageCountIs(s: ProgramHeader)
    ensures s.memorySize > 0 ==> PageCount(s) == (s.vaddr + s.memorySize - 1) / 4096 - s.vaddr / 4096 + 1
    ensures s.memorySize == 0 ==> PageCount(s) == if s.vaddr % 4096 == 0 then 0 else 1
  {
    assert s.vaddr == s.vaddr / 4096 * 4096 + Misalign(s);
    assert PageCount(s) == (Misalign(s) + s.memorySize + 4095) / 4096;
    if s.memorySize > 0 {
      SplitDivision(s.vaddr / 4096, Misalign(s) + s.memorySize - 1);
    }
  }

  lemma SplitDivision(q: nat, x: nat)
    ensures (q * 4096 + x) / 4096 == q + x / 4096 && (x + 4096) / 4096 == x / 4096 + 1
  {
  }

  /** The headers the loop looks at: without a place for the interpreter's path it stops
      at the first header that names one. */
  function Reached(hs: seq<ProgramHeader>, wantsInterpreter: bool): (r: seq<ProgramHeader>)
    ensures r <= hs
  {
    if hs == [] then []
    else if hs[0].kind == PT_INTERP && !wantsInterpreter then []
    else [hs[0]] + Reached(hs[1..], wantsInterpreter)
  }

  /** Every header is reached unless one names an interpreter that nobody asked for. */
  lemma {:induction false} ReachedAll(hs: seq<ProgramHeader>, wants: bool)
    ensures Reached(hs, wants) == hs <==> wants || forall k :: 0 <= k < |hs| ==> hs[k].kind != PT_INTERP
  {
    if hs != [] {
      ReachedAll(hs[1..], wants);
      assert forall k :: 1 <= k < |hs| ==> hs[k] == hs[1..][k - 1];
      assert forall k :: 0 <= k < |hs[1..]| ==> hs[1..][k] == hs[k + 1];
      assert hs == [hs[0]] + hs[1..];
      if Reached(hs, wants) == hs {
        assert Reached(hs[1..], wants) == hs[1..];
      }
    }
  }

  lemma {:induction false} ReachedIs(hs: seq<ProgramHeader>, wants: bool, i: nat)
    requires i <= |Reached(hs, wants)|
    ensures i < |Reached(hs, wants)| ==>
              i < |hs| && Reached(hs, wants)[i] == hs[i] && (hs[i].kind != PT_INTERP || wants)
    ensures i < |hs| && i == |Reached(hs, wants)| ==> hs[i].kind == PT_INTERP && !wants
  {
    if i > 0 {
      ReachedIs(hs[1..], wants, i - 1);
    }
  }

  /** Every loadable header is reached if and only if the interpreter's path is wanted or no loadable header stands
      behind one that names an interpreter. */
  lemma LoadsReached(hs: seq<ProgramHeader>, wants: bool)
    ensures (forall k: nat :: k < |hs| && hs[k].kind == PT_LOAD ==> k < |Reached(hs, wants)|) <==>
            wants || forall j, k :: 0 <= j < k < |hs| && hs[j].kind == PT_INTERP ==> hs[k].kind != PT_LOAD
  {
    var n := |Reached(hs, wants)|;
    ReachedIs(hs, wants, n);
    forall i: nat | i < n ensures hs[i].kind != PT_INTERP || wants {
      ReachedIs(hs, wants, i);
    }
    if j, k :| 0 <= j < k < |hs| && hs[j].kind == PT_INTERP && hs[k].kind == PT_LOAD && !wants {
      assert j >= n;
    }
  }

  /** Nothing of such a program is loaded: its interpreter comes first, and nobody asked for it. */
  lemma NothingReached(load: ProgramHeader, path: ProgramHeader)
    requires load.kind == PT_LOAD && path.kind == PT_INTERP
    ensures Reached([path, load], false) == [] && Reached([path, load], true) == [path, load]
  {
    assert [path, load][1..] == [load] && [load][1..] == [];
    assert Reached([load], true) == [load];
  }

  /** Where the program header table is in memory: what the last PT_PHDR says. */
  function PhdrAddress(hs: seq<ProgramHeader>, base: nat): nat
  {
    if hs == [] then 0
    else if hs[|hs| - 1].kind == PT_PHDR then base + hs[|hs| - 1].vaddr
    else PhdrAddress(hs[..|hs| - 1], base)
  }

  /** The interpreter's path: what the last PT_INTERP says. */
  function InterpreterPath(hs: seq<ProgramHeader>, file: seq<Byte>): seq<Byte>
  {
    if hs == [] then []
    else
      var h := hs[|hs| - 1];
      if h.kind == PT_INTERP && h.fileOffset + h.fileSize <= |file| then file[h.fileOffset..h.fileOffset + h.fileSize]
      else InterpreterPath(hs[..|hs| - 1], file)
  }

  /** at_phdr is 0 without a PT_PHDR header, and otherwise what the last of them says. */
  lemma {:induction false} PhdrAddressIs(hs: seq<ProgramHeader>, base: nat, k: nat)
    requires k <= |hs| && forall i :: k <= i < |hs| ==> hs[i].kind != 6
    ensures k == 0 ==> PhdrAddress(hs, base) == 0
    ensures k > 0 && hs[k - 1].kind == 6 ==> PhdrAddress(hs, base) == base + hs[k - 1].vaddr
  {
    if k < |hs| {
      var init := hs[..|hs| - 1];
      PhdrAddressIs(init, base, k);
    }
  }

  /** The path is empty without a PT_INTERP header, and otherwise the bytes of the file that the last of them names. */
  lemma {:induction false} InterpreterPathIs(hs: seq<ProgramHeader>, file: seq<Byte>, k: nat)
    requires k <= |hs| && forall i :: k <= i < |hs| ==> hs[i].kind != 3
    ensures k == 0 ==> InterpreterPath(hs, file) == []
    ensures k > 0 && hs[k - 1].kind == 3 && hs[k - 1].fileOffset + hs[k - 1].fileSize <= |file| ==>
              InterpreterPath(hs, file) == file[hs[k - 1].fileOffset..][..hs[k - 1].fileSize]
  {
    if k < |hs| {
      var init := hs[..|hs| - 1];
      InterpreterPathIs(init, file, k);
    }
  }

  lemma HeaderStep(hs: seq<ProgramHeader>, i: nat, base: nat, file: seq<Byte>)
    requires i < |hs|
    ensures PhdrAddress(hs[..i + 1], base) ==
            if hs[i].kind == PT_PHDR then base + hs[i].vaddr else PhdrAddress(hs[..i], base)
    ensures InterpreterPath(hs[..i + 1], file) ==
            if hs[i].kind == PT_INTERP && hs[i].fileOffset + hs[i].fileSize <= |file|
            then file[hs[i].fileOffset..hs[i].fileOffset + hs[i].fileSize] else InterpreterPath(hs[..i], file)
  {
    assert hs[..i + 1][..i] == hs[..i];
  }

  // ----- Writing to frames --------------------------------------------------------------

  /** The `n` frames from `first` on are in memory. */
  ghost predicate FullFrames(mem: Mem, first: nat, n: nat)
  {
    forall f :: Pmm.InRun(f, first, n) ==> f in mem && |mem[f]| == ENTRIES
  }

  /** Only the `n` frames from `first` on changed. */
  ghost predicate OnlyFrames(mem: Mem, mem': Mem, first: nat, n: nat)
  {
    forall f :: f in mem && !Pmm.InRun(f, first, n) ==> f in mem' && mem'[f] == mem[f]
  }

  /** `mem'` is `mem` with `data` written from `at` on; only the `n` frames from `first` on changed. */
  ghost predicate Written(mem: Mem, mem': Mem, at: nat, data: seq<Byte>, first: nat, n: nat)
  {
    && FullFrames(mem', first, n) && OnlyFrames(mem, mem', first, n)
    && forall c: nat {:trigger ByteAt(mem', c)} ::
         ByteAt(mem', c) == if at <= c < at + |data| then data[c - at] else ByteAt(mem, c)
  }

  /** memcpy and memset into physical memory, byte by byte. */
  method WriteBytes(m: Mapper, at: nat, data: seq<Byte>, ghost first: nat, ghost n: nat)
    requires FullFrames(m.words, first, n) && first * PAGE_SIZE <= at && at + |data| <= (first + n) * PAGE_SIZE
    modifies m`words
    ensures Written(old(m.words), m.words, at, data, first, n)
  {
    ghost var w := m.words;
    for o := 0 to |data|
      invariant Written(w, m.words, at, data[..o], first, n)
    {
      InsideRun(at + o, first, n);
      ghost var w1 := m.words;
      m.words := PutByte(m.words, at + o, data[o]);
      WrittenGrows(w, w1, m.words, at, data, o, first, n);
    }
    assert data[..|data|] == data;
  }

  lemma InsideRun(a: nat, first: nat, n: nat)
    requires first * PAGE_SIZE <= a < (first + n) * PAGE_SIZE
    ensures Pmm.InRun(a / PAGE_SIZE, first, n)
  {
  }

  lemma WrittenGrows(w: Mem, w1: Mem, w2: Mem, at: nat, data: seq<Byte>, o: nat, first: nat, n: nat)
    requires o < |data| && Written(w, w1, at, data[..o], first, n) && Pmm.InRun((at + o) / PAGE_SIZE, first, n)
    requires w2 == PutByte(w1, at + o, data[o])
    ensures Written(w, w2, at, data[..o + 1], first, n)
  {
    forall c: nat ensures ByteAt(w2, c) == if at <= c < at + (o + 1) then data[c - at] else ByteAt(w, c) {
      PutByteAt(w1, at + o, data[o], c);
      assert ByteAt(w1, c) == if at <= c < at + o then data[..o][c - at] else ByteAt(w, c);
    }
  }

  lemma SegmentPrivate(s: ProgramHeader, base: nat)
    requires base % PAGE_SIZE == 0 && Start(s, base) + s.memorySize < 0x7fff_ffff_f000
    ensures Lower(Start(s, base), PageCount(s))
  {
    var virt := Start(s, base);
    forall i: nat | i < PageCount(s) ensures PageAt(virt, i).a < 256 {
      SegmentLow(s, base, i);
    }
  }

  // ----- One segment ----------------------------------------------------------------------

  /** In address space `root`, address `va` reads as byte `b`, from a frame that is taken and holds no table. */
  ghost predicate Reads(w: Mem, f: Forest, clear: set<nat>, root: nat, va: nat, b: Byte)
  {
    Translate(w, root, va).Some? && Holds(w, f, clear, Translate(w, root, va).value, b)
  }

  ghost predicate Holds(w: Mem, f: Forest, clear: set<nat>, pa: nat, b: Byte)
  {
    pa / PAGE_SIZE in w && IsData(f, clear, pa / PAGE_SIZE) && ByteAt(w, pa) == b
  }

  /** Byte `o` of the segment as the file and the zero fill give it. */
  function SegmentByte(file: seq<Byte>, s: ProgramHeader, o: nat): Byte
  {
    if o < s.fileSize && s.fileOffset + o < |file| then file[s.fileOffset + o] else 0
  }

  /** The whole segment can be read at its virtual addresses. */
  ghost predicate Loaded(w: Mem, f: Forest, clear: set<nat>, root: nat, base: nat, file: seq<Byte>, s: ProgramHeader)
  {
    LoadedAt(w, f, clear, root, Start(s, base), file, s)
  }

  ghost predicate LoadedAt(w: Mem, f: Forest, clear: set<nat>, root: nat, at: nat, file: seq<Byte>, s: ProgramHeader)
  {
    forall o: nat {:trigger Nth(at, o)} :: o < s.memorySize ==>
      Reads(w, f, clear, root, Nth(at, o), SegmentByte(file, s, o))
  }

  /** The address of byte `o` from `at` on. */
  function Nth(at: nat, o: nat): nat
  {
    at + o
  }

  /** What the loader may rely on for a segment to load. */
  ghost predicate GoodSegment(file: seq<Byte>, s: ProgramHeader, base: nat, size: nat)
  {
    && s.fileSize <= s.memorySize && s.fileOffset + s.fileSize <= |file|
    && Start(s, base) + s.memorySize < 0x7fff_ffff_f000 && PageCount(s) <= size
  }

  /** Byte `o` of a segment lies on page (misalign + o) / 4096 of its run and in that frame. */
  lemma SegmentPlace(s: ProgramHeader, base: nat, o: nat)
    requires base % PAGE_SIZE == 0 && o < s.memorySize
    ensures var i := (Misalign(s) + o) / PAGE_SIZE;
            && i < PageCount(s) && PageOf(Start(s, base) + o) == PageAt(Start(s, base), i)
            && i * PAGE_SIZE + (Start(s, base) + o) % PAGE_SIZE == Misalign(s) + o
  {
    var i, v := (Misalign(s) + o) / PAGE_SIZE, Start(s, base);
    assert v % PAGE_SIZE == Misalign(s);
    assert v == v / PAGE_SIZE * PAGE_SIZE + Misalign(s);
    assert (v + o) / PAGE_SIZE == v / PAGE_SIZE + i;
    assert (v + i * PAGE_SIZE) / PAGE_SIZE == v / PAGE_SIZE + i;
    SamePage(v + o, v + i * PAGE_SIZE);
  }

  /** The pages of a good segment lie in the lower half. */
  lemma SegmentLow(s: ProgramHeader, base: nat, i: nat)
    requires base % PAGE_SIZE == 0 && Start(s, base) + s.memorySize < 0x7fff_ffff_f000 && i < PageCount(s)
    ensures PageAt(Start(s, base), i).a < 256
  {
    assert Start(s, base) + i * PAGE_SIZE < 0x8000_0000_0000;
  }

  /** The first half of a PT_LOAD: `n` zeroed frames, mapped from `virt` on. */
  method MapZeroed(m: Mapper, pagemap: nat, virt: nat, n: nat) returns (addr: nat)
    requires m.Valid() && pagemap in m.forest.roots && RunReady(m.pmm.clear, n) && 0 < n <= m.pmm.size
    requires |m.pmm.clear| >= |RunTables(m.forest, pagemap, virt, n) - m.forest.node.Keys| + n
    modifies m`words, m`forest, m.pmm, m.pmm.data
    ensures m.Valid() && m.pmm.size == old(m.pmm.size) && m.pmm.data == old(m.pmm.data) && addr % PAGE_SIZE == 0
    ensures FreshRun(old(m.words), m.words, old(m.forest), m.forest, old(m.pmm.clear), m.pmm.clear, pagemap,
                     Consecutive(addr, n), virt)
    ensures FullFrames(m.words, addr / PAGE_SIZE, n)
  {
    ghost var w0, f0, c0 := m.words, m.forest, m.pmm.clear;
    addr := m.AllocateRun(n);
    ghost var w1, c1 := m.words, m.pmm.clear;
    UsualFlags();
    MapRun(m, pagemap, addr, virt, n, 7);
    MappedFromZeroed(w0, w1, m.words, f0, m.forest, c0, c1, m.pmm.clear, pagemap, addr, n, virt);
  }

  lemma MappedFromZeroed(w0: Mem, w1: Mem, w2: Mem, f0: Forest, f2: Forest, c0: set<nat>, c1: set<nat>, c2: set<nat>,
                         root: nat, addr: nat, n: nat, virt: nat)
    requires Grown(w0, f0, c0) && Grown(w1, f0, c1) && SameLookups(w0, w1, f0, f0)
    requires addr % PAGE_SIZE == 0 && Filled(w0, w1, addr / PAGE_SIZE, n, ZeroTable()) && Trimmed(c0, c1, n)
    requires Pmm.Run(addr / PAGE_SIZE, n) <= c0 && c1 == c0 - Pmm.Run(addr / PAGE_SIZE, n)
    requires RunDone(w1, w2, f0, f2, c1, c2, root, Consecutive(addr, n), virt, 7, 0)
    ensures FreshRun(w0, w2, f0, f2, c0, c2, root, Consecutive(addr, n), virt) && FullFrames(w2, addr / PAGE_SIZE, n)
  {
    var phys := Consecutive(addr, n);
    assert Trimmed(c0, c2, |phys| + |RunTables(f0, root, virt, |phys|) - f0.node.Keys|) by {
      TrimmedTrans(c0, c1, c2, n, 0 + |RunTables(f0, root, virt, |phys|) - f0.node.Keys|);
    }
    ZeroedFrames(w0, w1, w2, f0, f2, c0, c1, c2, addr, n);
    LookupsAreWalks(w0, w1, f0, f0, c0, c1);
    RunSince(w0, w1, w2, f0, f2, c0, c1, root, phys, virt, 7);
  }

  lemma ZeroedFrames(w0: Mem, w1: Mem, w2: Mem, f0: Forest, f2: Forest, c0: set<nat>, c1: set<nat>, c2: set<nat>,
                     addr: nat, n: nat)
    requires Grown(w0, f0, c0) && addr % PAGE_SIZE == 0 && Filled(w0, w1, addr / PAGE_SIZE, n, ZeroTable()) && c2 <= c1
    requires Pmm.Run(addr / PAGE_SIZE, n) <= c0 && c1 == c0 - Pmm.Run(addr / PAGE_SIZE, n)
    requires DataKept(w1, w2, f2, c1) && forall fr :: fr in f2.owner ==> fr in f0.owner || fr in c1
    ensures OwnFrames(Consecutive(addr, n), f2, c0, c2) && FullFrames(w2, addr / PAGE_SIZE, n)
    ensures DataKept(w0, w2, f2, c0)
  {
    var first := addr / PAGE_SIZE;
    forall fr | Pmm.InRun(fr, first, n) ensures fr in c0 && IsData(f2, c2, fr) && fr in w2 && |w2[fr]| == ENTRIES {
      assert fr in Pmm.Run(first, n);
    }
    forall i: nat | i < n
      ensures Consecutive(addr, n)[i] % PAGE_SIZE == 0 && Consecutive(addr, n)[i] / PAGE_SIZE == first + i
      ensures Pmm.InRun(Consecutive(addr, n)[i] / PAGE_SIZE, first, n)
    {
      PageNumber(addr, i);
      PageAligned(addr, i);
    }
    forall fr | fr in w0 && fr !in c0 ensures !Pmm.InRun(fr, first, n) {
      assert fr !in Pmm.Run(first, n);
    }
  }

  /** Where byte `o` of segment `s` is in memory when the segment's frames start at `addr`. */
  function PlaceOf(addr: nat, s: ProgramHeader, o: nat): nat
  {
    addr + Misalign(s) + o
  }

  /** Byte `o` of a mapped segment is at its place in the segment's frames. */
  lemma SegmentTranslates(w0: Mem, w: Mem, f: Forest, root: nat, s: ProgramHeader, base: nat, addr: nat, o: nat)
    requires RunMapped(w0, w, f, root, Consecutive(addr, PageCount(s)), Start(s, base), 7)
    requires root in f.roots && base % PAGE_SIZE == 0 && addr % PAGE_SIZE == 0
    requires o < s.memorySize && Start(s, base) + s.memorySize < 0x7fff_ffff_f000
    ensures Translate(w, root, Nth(Start(s, base), o)) == Some(PlaceOf(addr, s, o))
    ensures Pmm.InRun(PlaceOf(addr, s, o) / PAGE_SIZE, addr / PAGE_SIZE, PageCount(s))
  {
    var v, n, i := Start(s, base), PageCount(s), (Misalign(s) + o) / PAGE_SIZE;
    var l := Consecutive(addr, n);
    SegmentPlace(s, base, o);
    SegmentLow(s, base, i);
    assert Walk(w, root, PageAt(v, i)) == Leaves(l, v, 7, PageAt(v, i), Walk(w0, root, PageAt(v, i)));
    LeavesAt(l, v, 7, i, Walk(w0, root, PageAt(v, i)));
    AtPlace(addr, i, Nth(v, o), Misalign(s) + o);
  }

  lemma AtPlace(addr: nat, i: nat, va: nat, o: nat)
    requires addr % PAGE_SIZE == 0 && i == o / PAGE_SIZE && i * PAGE_SIZE + va % PAGE_SIZE == o
    ensures FrameOf(AddressAt(addr, i) + 7) * PAGE_SIZE + va % PAGE_SIZE == addr + o
    ensures (addr + o) / PAGE_SIZE == addr / PAGE_SIZE + i
  {
    PageAligned(addr, i);
    UsualFlags();
    LeafPresent(AddressAt(addr, i), 7);
    FrameArithmetic(addr, i, o);
  }

  lemma FrameArithmetic(addr: nat, i: nat, o: nat)
    requires addr % PAGE_SIZE == 0 && i == o / PAGE_SIZE
    ensures (addr + o) / PAGE_SIZE == addr / PAGE_SIZE + i
  {
    assert addr == addr / PAGE_SIZE * PAGE_SIZE;
  }

  /** PT_LOAD: map the segment, copy its file part, zero the rest. */
  method LoadSegment(m: Mapper, file: seq<Byte>, s: ProgramHeader, base: nat,
                     pagemap: nat) returns (ghost phys: seq<nat>)
    requires m.Valid() && pagemap in m.forest.roots && base % PAGE_SIZE == 0 && GoodSegment(file, s, base, m.pmm.size)
    requires RunReady(m.pmm.clear, PageCount(s))
    requires |m.pmm.clear| >=
             |RunTables(m.forest, pagemap, Start(s, base), PageCount(s)) - m.forest.node.Keys| + PageCount(s)
    modifies m`words, m`forest, m.pmm, m.pmm.data
    ensures m.Valid() && m.pmm.size == old(m.pmm.size) && m.pmm.data == old(m.pmm.data) && |phys| == PageCount(s)
    ensures FreshRun(old(m.words), m.words, old(m.forest), m.forest, old(m.pmm.clear), m.pmm.clear, pagemap, phys,
                     Start(s, base))
    ensures Loaded(m.words, m.forest, m.pmm.clear, pagemap, base, file, s)
    ensures Isolated(old(m.words), old(m.forest), old(m.pmm.clear)) ==> Isolated(m.words, m.forest, m.pmm.clear)
  {
    if PageCount(s) == 0 {
      phys := [];
      NothingLoaded(m.words, m.forest, m.pmm.clear, pagemap, base, file, s);
    } else {
      phys := LoadPages(m, file, s, base, PageCount(s), Start(s, base), pagemap);
    }
  }

  lemma NothingLoaded(w: Mem, f: Forest, c: set<nat>, root: nat, base: nat, file: seq<Byte>, s: ProgramHeader)
    requires PageCount(s) == 0
    ensures FreshRun(w, w, f, f, c, c, root, [], Start(s, base)) && Loaded(w, f, c, root, base, file, s)
  {
    NothingDone(w, f, c, root, Start(s, base), 7);
    NoBytes(s);
  }

  method LoadPages(m: Mapper, file: seq<Byte>, s: ProgramHeader, base: nat, n: nat, virt: nat, pagemap: nat)
    returns (ghost phys: seq<nat>)
    requires m.Valid() && pagemap in m.forest.roots && base % PAGE_SIZE == 0 && GoodSegment(file, s, base, m.pmm.size)
    requires n == PageCount(s) > 0 && virt == Start(s, base) && RunReady(m.pmm.clear, n)
    requires |m.pmm.clear| >= |RunTables(m.forest, pagemap, virt, n) - m.forest.node.Keys| + n
    modifies m`words, m`forest, m.pmm, m.pmm.data
    ensures m.Valid() && m.pmm.size == old(m.pmm.size) && m.pmm.data == old(m.pmm.data) && |phys| == n
    ensures FreshRun(old(m.words), m.words, old(m.forest), m.forest, old(m.pmm.clear), m.pmm.clear, pagemap, phys, virt)
    ensures LoadedAt(m.words, m.forest, m.pmm.clear, pagemap, virt, file, s)
    ensures Isolated(old(m.words), old(m.forest), old(m.pmm.clear)) ==> Isolated(m.words, m.forest, m.pmm.clear)
  {
    ghost var w0, f0, c0 := m.words, m.forest, m.pmm.clear;
    var addr := MapZeroed(m, pagemap, virt, n);
    ghost var w1 := m.words;
    phys := Consecutive(addr, n);
    ghost var w2, zeros := FillSegment(m, file, s, addr);
    BothInRun(w1, w2, m.words, file, s, addr, zeros, n);
    FilledRun(w0, w1, m.words, f0, m.forest, c0, m.pmm.clear, pagemap, addr, n, virt);
    BytesLoaded(w0, w1, w2, m.words, f0, m.forest, m.pmm.clear, pagemap, base, virt, n, file, s, addr, zeros);
    FreshRunKeepsApart(w0, m.words, f0, m.forest, c0, m.pmm.clear, pagemap, phys, virt);
  }

  lemma NoBytes(s: ProgramHeader)
    requires PageCount(s) == 0
    ensures s.memorySize == 0
  {
  }

  /** The memcpy and the memset for one segment in frames of its own. */
  method FillSegment(m: Mapper, file: seq<Byte>, s: ProgramHeader, addr: nat)
    returns (ghost w1: Mem, ghost zeros: seq<Byte>)
    requires addr % PAGE_SIZE == 0 && FullFrames(m.words, addr / PAGE_SIZE, PageCount(s))
    requires s.fileSize <= s.memorySize && s.fileOffset + s.fileSize <= |file|
    modifies m`words
    ensures SegmentWritten(old(m.words), w1, m.words, file, s, addr, zeros)
  {
    ghost var first, n := addr / PAGE_SIZE, PageCount(s);
    var at := addr + Misalign(s);
    SegmentFits(s, addr);
    WriteBytes(m, at, file[s.fileOffset..s.fileOffset + s.fileSize], first, n);
    w1 := m.words;
    var zero := seq(s.memorySize - s.fileSize, _ => 0);
    WriteBytes(m, at + s.fileSize, zero, first, n);
    zeros := zero;
  }

  /** Both writes of a segment into its frames. */
  ghost predicate SegmentWritten(w: Mem, w1: Mem, w2: Mem, file: seq<Byte>, s: ProgramHeader, addr: nat,
                                 zeros: seq<Byte>)
  {
    && s.fileSize <= s.memorySize && s.fileOffset + s.fileSize <= |file|
    && |zeros| == s.memorySize - s.fileSize && (forall i :: 0 <= i < |zeros| ==> zeros[i] == 0)
    && Written(w, w1, addr + Misalign(s), file[s.fileOffset..s.fileOffset + s.fileSize], addr / PAGE_SIZE, PageCount(s))
    && Written(w1, w2, addr + Misalign(s) + s.fileSize, zeros, addr / PAGE_SIZE, PageCount(s))
  }

  lemma SegmentFits(s: ProgramHeader, addr: nat)
    requires addr % PAGE_SIZE == 0
    ensures addr / PAGE_SIZE * PAGE_SIZE <= addr
    ensures addr + Misalign(s) + s.memorySize <= (addr / PAGE_SIZE + PageCount(s)) * PAGE_SIZE
  {
  }

  /** The bytes of a segment after both writes. */
  lemma SegmentBytes(w: Mem, w1: Mem, w2: Mem, file: seq<Byte>, s: ProgramHeader, addr: nat, zeros: seq<Byte>, o: nat)
    requires SegmentWritten(w, w1, w2, file, s, addr, zeros) && o < s.memorySize
    ensures ByteAt(w2, PlaceOf(addr, s, o)) == SegmentByte(file, s, o)
  {
    var pa := PlaceOf(addr, s, o);
    assert ByteAt(w2, pa) == if o >= s.fileSize then zeros[o - s.fileSize] else ByteAt(w1, pa);
    assert o < s.fileSize ==> ByteAt(w1, pa) == file[s.fileOffset..s.fileOffset + s.fileSize][o];
  }

  /** Writing into fresh frames changes no table, no translation and no other data. */
  lemma FilledRun(w0: Mem, w1: Mem, w2: Mem, f0: Forest, f: Forest, c0: set<nat>, c: set<nat>, root: nat, addr: nat,
                  n: nat, virt: nat)
    requires Grown(w1, f, c) && FreshRun(w0, w1, f0, f, c0, c, root, Consecutive(addr, n), virt)
    requires addr % PAGE_SIZE == 0 && OnlyFrames(w1, w2, addr / PAGE_SIZE, n)
    ensures Grown(w2, f, c) && FreshRun(w0, w2, f0, f, c0, c, root, Consecutive(addr, n), virt)
    ensures FramesAreData(f, c, addr / PAGE_SIZE, n)
  {
    forall fr: nat | Pmm.InRun(fr, addr / PAGE_SIZE, n) ensures fr in c0 && IsData(f, c, fr) {
      var i := fr - addr / PAGE_SIZE;
      PageNumber(addr, i);
      assert Consecutive(addr, n)[i] / PAGE_SIZE == fr;
    }
    TablesKept(w1, w2, f, c, c);
    LookupsAreWalks(w1, w2, f, f, c, c);
    RunThenSame(w0, w1, w2, f0, f, root, Consecutive(addr, n), virt);
  }

  lemma RunThenSame(w0: Mem, w1: Mem, w2: Mem, f0: Forest, f: Forest, root: nat, phys: seq<nat>, virt: nat)
    requires RunMapped(w0, w1, f0, root, phys, virt, 7) && f.roots == f0.roots && SameWalks(w1, w2, f.roots)
    ensures RunMapped(w0, w2, f0, root, phys, virt, 7)
  {
    forall r, p | r in f0.roots && InRange(p)
      ensures Walk(w2, r, p) ==
              if Sees(f0, root, r, p.a) then Leaves(phys, virt, 7, p, Walk(w0, r, p)) else Walk(w0, r, p)
    {
      assert Walk(w1, r, p) ==
        if Sees(f0, root, r, p.a) then Leaves(phys, virt, 7, p, Walk(w0, r, p)) else Walk(w0, r, p);
    }
  }

  /** All bytes of a segment can be read through its pages. */
  lemma BytesLoaded(w0: Mem, w1: Mem, w2: Mem, w3: Mem, f0: Forest, f: Forest, c: set<nat>, root: nat, base: nat,
                    virt: nat, n: nat, file: seq<Byte>, s: ProgramHeader, addr: nat, zeros: seq<Byte>)
    requires n == PageCount(s) && virt == Start(s, base) && RunMapped(w0, w3, f0, root, Consecutive(addr, n), virt, 7)
    requires root in f0.roots && base % PAGE_SIZE == 0 && addr % PAGE_SIZE == 0
    requires Start(s, base) + s.memorySize < 0x7fff_ffff_f000
    requires SegmentWritten(w1, w2, w3, file, s, addr, zeros) && FramesAreData(f, c, addr / PAGE_SIZE, n)
    ensures LoadedAt(w3, f, c, root, virt, file, s)
  {
    forall o: nat | o < s.memorySize ensures Reads(w3, f, c, root, Nth(virt, o), SegmentByte(file, s, o)) {
      ByteLoaded(w0, w1, w2, w3, f0, f, c, root, base, virt, n, file, s, addr, zeros, o);
    }
  }

  ghost predicate FramesAreData(f: Forest, c: set<nat>, first: nat, n: nat)
  {
    forall fr :: Pmm.InRun(fr, first, n) ==> IsData(f, c, fr)
  }

  lemma BothInRun(w1: Mem, w2: Mem, w3: Mem, file: seq<Byte>, s: ProgramHeader, addr: nat, zeros: seq<Byte>, n: nat)
    requires SegmentWritten(w1, w2, w3, file, s, addr, zeros) && n == PageCount(s)
    ensures OnlyFrames(w1, w3, addr / PAGE_SIZE, n) && FullFrames(w3, addr / PAGE_SIZE, n)
  {
  }

  lemma ByteLoaded(w0: Mem, w1: Mem, w2: Mem, w3: Mem, f0: Forest, f: Forest, c: set<nat>, root: nat, base: nat,
                   virt: nat, n: nat, file: seq<Byte>, s: ProgramHeader, addr: nat, zeros: seq<Byte>, o: nat)
    requires n == PageCount(s) && virt == Start(s, base) && RunMapped(w0, w3, f0, root, Consecutive(addr, n), virt, 7)
    requires root in f0.roots && base % PAGE_SIZE == 0 && addr % PAGE_SIZE == 0
    requires Start(s, base) + s.memorySize < 0x7fff_ffff_f000
    requires SegmentWritten(w1, w2, w3, file, s, addr, zeros) && o < s.memorySize
    requires FramesAreData(f, c, addr / PAGE_SIZE, n)
    ensures Reads(w3, f, c, root, Nth(virt, o), SegmentByte(file, s, o))
  {
    BothInRun(w1, w2, w3, file, s, addr, zeros, n);
    SegmentTranslates(w0, w3, f0, root, s, base, addr, o);
    SegmentBytes(w1, w2, w3, file, s, addr, zeros, o);
    HeldInRun(w3, f, c, PlaceOf(addr, s, o), SegmentByte(file, s, o), addr / PAGE_SIZE, n);
  }

  lemma HeldInRun(w: Mem, f: Forest, c: set<nat>, pa: nat, b: Byte, first: nat, n: nat)
    requires FullFrames(w, first, n) && FramesAreData(f, c, first, n) && Pmm.InRun(pa / PAGE_SIZE, first, n)
    requires ByteAt(w, pa) == b
    ensures Holds(w, f, c, pa, b)
  {
  }

  // ----- All segments ------------------------------------------------------------------------

  function FirstPage(s: ProgramHeader, base: nat): nat
  {
    (Start(s, base)) / PAGE_SIZE
  }

  ghost predicate ApartFrom(s: ProgramHeader, t: ProgramHeader, base: nat)
  {
    FirstPage(s, base) + PageCount(s) <= FirstPage(t, base) || FirstPage(t, base) + PageCount(t) <= FirstPage(s, base)
  }

  ghost predicate PagesApart(hs: seq<ProgramHeader>, j: nat, k: nat, base: nat)
    requires j < |hs| && k < |hs|
  {
    hs[j].kind == PT_LOAD && hs[k].kind == PT_LOAD ==> ApartFrom(hs[j], hs[k], base)
  }

  /** The loadable segments are good and no page belongs to two of them. */
  ghost predicate GoodImage(file: seq<Byte>, hs: seq<ProgramHeader>, base: nat, size: nat)
  {
    && base % PAGE_SIZE == 0
    && (forall k :: 0 <= k < |hs| && hs[k].kind == PT_LOAD ==> GoodSegment(file, hs[k], base, size))
    && (forall k :: 0 <= k < |hs| && hs[k].kind == PT_INTERP ==> hs[k].fileOffset + hs[k].fileSize <= |file|)
    && (forall j: nat, k: nat {:trigger PagesApart(hs, j, k, base)} :: j < k < |hs| ==> PagesApart(hs, j, k, base))
  }

  function TotalPages(hs: seq<ProgramHeader>): nat
  {
    if hs == [] then 0
    else
      var h := hs[|hs| - 1];
      TotalPages(hs[..|hs| - 1]) + if h.kind == PT_LOAD then PageCount(h) else 0
  }

  lemma {:induction false} TotalPagesPrefix(hs: seq<ProgramHeader>, i: nat)
    requires i <= |hs|
    ensures TotalPages(hs[..i]) <= TotalPages(hs)
    ensures i < |hs| ==>
              TotalPages(hs[..i + 1]) == TotalPages(hs[..i]) + if hs[i].kind == PT_LOAD then PageCount(hs[i]) else 0
  {
    if i < |hs| {
      assert hs[..i + 1][..i] == hs[..i];
      var init := hs[..|hs| - 1];
      TotalPagesPrefix(init, i);
      assert init[..i] == hs[..i];
    } else {
      assert hs[..i] == hs;
    }
  }

  /** No page of segment `t` is mapped by a segment apart from it. */
  lemma OtherPages(s: ProgramHeader, t: ProgramHeader, base: nat, o: nat)
    requires base % PAGE_SIZE == 0 && ApartFrom(s, t, base) && o < t.memorySize
    requires Start(s, base) + s.memorySize < 0x7fff_ffff_f000 && Start(t, base) + t.memorySize < 0x7fff_ffff_f000
    ensures !Covers(Start(s, base), PageCount(s), PageOf(Start(t, base) + o))
  {
    SegmentPlace(t, base, o);
    var i, v, u := (Misalign(t) + o) / PAGE_SIZE, Start(s, base), Start(t, base);
    NumbersSmall(t, base, i);
    forall j: nat | j < PageCount(s) ensures PageAt(v, j) != PageAt(u, i) {
      NumbersSmall(s, base, j);
      DifferentPages(v, j, u, i);
    }
  }

  lemma NumbersSmall(s: ProgramHeader, base: nat, i: nat)
    requires base % PAGE_SIZE == 0 && i < PageCount(s) && Start(s, base) + s.memorySize < 0x7fff_ffff_f000
    ensures FirstPage(s, base) + i < 0x10_0000_0000
  {
    SegmentLow(s, base, i);
    assert Start(s, base) + i * PAGE_SIZE < 0x8000_0000_0000;
    PageNumber(Start(s, base), i);
  }

  /** Segments that share no page: no byte of `t` lies in a page of `s`. */
  lemma AllOutside(s: ProgramHeader, t: ProgramHeader, base: nat, n: nat)
    requires base % PAGE_SIZE == 0 && ApartFrom(s, t, base) && n == PageCount(s)
    requires Start(s, base) + s.memorySize < 0x7fff_ffff_f000 && Start(t, base) + t.memorySize < 0x7fff_ffff_f000
    ensures BytesOutside(Start(s, base), n, Start(t, base), t.memorySize)
  {
    var at := Start(t, base);
    forall o: nat | o < t.memorySize ensures !Covers(Start(s, base), n, PageOf(Nth(at, o))) {
      OtherPages(s, t, base, o);
    }
  }

  /** None of the `size` bytes from `at` on lies in one of the `n` pages from `virt` on. */
  ghost predicate BytesOutside(virt: nat, n: nat, at: nat, size: nat)
  {
    forall o: nat :: o < size ==> !Covers(virt, n, PageOf(Nth(at, o)))
  }

  /** Mapping a fresh run elsewhere leaves a loaded segment readable. */
  lemma StaysLoaded(w: Mem, w': Mem, f: Forest, f': Forest, c: set<nat>, c': set<nat>, root: nat, virt: nat,
                    phys: seq<nat>, at: nat, file: seq<Byte>, t: ProgramHeader)
    requires LoadedAt(w, f, c, root, at, file, t) && root in f.roots
    requires RunMade(w, w', f, f', c, root, phys, virt, 7) && c' <= c && BytesOutside(virt, |phys|, at, t.memorySize)
    ensures LoadedAt(w', f', c', root, at, file, t)
  {
    forall o: nat | o < t.memorySize ensures Reads(w', f', c', root, Nth(at, o), SegmentByte(file, t, o)) {
      StaysRead(w, w', f, f', c, c', root, virt, phys, Nth(at, o), PageOf(Nth(at, o)), SegmentByte(file, t, o));
    }
  }

  /** What is read through a page outside a fresh run is still read afterwards. */
  lemma StaysRead(w: Mem, w': Mem, f: Forest, f': Forest, c: set<nat>, c': set<nat>, root: nat, virt: nat,
                  phys: seq<nat>, va: nat, p: Page, b: Byte)
    requires Reads(w, f, c, root, va, b) && root in f.roots && p == PageOf(va) && !Covers(virt, |phys|, p)
    requires RunMade(w, w', f, f', c, root, phys, virt, 7) && c' <= c
    ensures Reads(w', f', c', root, va, b)
  {
    OutsideRun(w, w', f, root, virt, phys, p);
    SameTranslation(w, w', root, va);
    StaysHeld(w, w', f, f', c, c', Translate(w, root, va).value, b);
  }

  lemma OutsideRun(w: Mem, w': Mem, f: Forest, root: nat, virt: nat, phys: seq<nat>, p: Page)
    requires RunMapped(w, w', f, root, phys, virt, 7) && root in f.roots && InRange(p) && !Covers(virt, |phys|, p)
    ensures Walk(w', root, p) == Walk(w, root, p)
  {
    LeavesOutside(phys, virt, 7, p, Walk(w, root, p));
  }

  lemma SameTranslation(w: Mem, w': Mem, root: nat, va: nat)
    requires Walk(w', root, PageOf(va)) == Walk(w, root, PageOf(va))
    ensures Translate(w', root, va) == Translate(w, root, va)
  {
  }

  lemma StaysHeld(w: Mem, w': Mem, f: Forest, f': Forest, c: set<nat>, c': set<nat>, pa: nat, b: Byte)
    requires Holds(w, f, c, pa, b) && DataKept(w, w', f', c) && c' <= c
    requires forall fr :: fr in f'.owner ==> fr in f.owner || fr in c
    ensures Holds(w', f', c', pa, b)
  {
  }

  /** The first `n` headers of `hs` are loaded. */
  ghost predicate AllLoaded(w: Mem, f: Forest, clear: set<nat>, root: nat, base: nat, file: seq<Byte>,
                            hs: seq<ProgramHeader>, n: nat)
  {
    forall k :: 0 <= k < n && k < |hs| && hs[k].kind == PT_LOAD ==> Loaded(w, f, clear, root, base, file, hs[k])
  }

  /** What that says of one byte: at base + vaddr + o stands byte o of the segment in the file, or zero behind it. */
  lemma ImageReads(w: Mem, f: Forest, clear: set<nat>, root: nat, base: nat, file: seq<Byte>, hs: seq<ProgramHeader>,
                   k: nat, o: nat)
    requires AllLoaded(w, f, clear, root, base, file, hs, |hs|) && k < |hs| && hs[k].kind == 1
    requires o < hs[k].memorySize && hs[k].fileOffset + hs[k].fileSize <= |file|
    ensures var pa := Translate(w, root, base + hs[k].vaddr + o);
      && pa.Some? && IsData(f, clear, pa.value / 4096)
      && ByteAt(w, pa.value) == if o < hs[k].fileSize then file[hs[k].fileOffset + o] else 0
  {
    assert Loaded(w, f, clear, root, base, file, hs[k]);
    assert Reads(w, f, clear, root, Nth(Start(hs[k], base), o), SegmentByte(file, hs[k], o));
  }

  /** Page `p` belongs to none of the first `n` headers' segments. */
  ghost predicate OutsideImage(hs: seq<ProgramHeader>, n: nat, base: nat, p: Page)
  {
    forall k :: 0 <= k < n && k < |hs| && hs[k].kind == PT_LOAD ==> !Covers(Start(hs[k], base), PageCount(hs[k]), p)
  }

  /** Only pages of the first `n` headers' segments changed, and only in address space `root`. */
  ghost predicate OnlyImage(w: Mem, w': Mem, roots: set<nat>, root: nat, hs: seq<ProgramHeader>, n: nat, base: nat)
  {
    forall r, p {:trigger Walk(w', r, p)} :: r in roots && InRange(p) && (r != root || OutsideImage(hs, n, base, p)) ==>
      Walk(w', r, p) == Walk(w, r, p)
  }

  /** The tables through which the segments are mapped. */
  ghost function ImageTables(f: Forest, root: nat, base: nat, hs: seq<ProgramHeader>): set<Key>
  {
    TablesOf(f, root, base, hs)
  }

  ghost function TablesOf(f: Forest, root: nat, base: nat, hs: seq<ProgramHeader>): set<Key>
  {
    if hs == [] then {}
    else
      var h := hs[|hs| - 1];
      TablesOf(f, root, base, hs[..|hs| - 1]) +
      if h.kind == PT_LOAD then RunTables(f, root, Start(h, base), PageCount(h)) else {}
  }

  lemma {:induction false} ImageTablesPrefix(f: Forest, root: nat, base: nat, hs: seq<ProgramHeader>, i: nat)
    requires i <= |hs|
    ensures ImageTables(f, root, base, hs[..i]) <= ImageTables(f, root, base, hs)
    ensures i < |hs| ==> ImageTables(f, root, base, hs[..i + 1]) == ImageTables(f, root, base, hs[..i]) +
                         if hs[i].kind == PT_LOAD then RunTables(f, root, Start(hs[i], base), PageCount(hs[i])) else {}
  {
    if i < |hs| {
      assert hs[..i + 1][..i] == hs[..i];
      var init := hs[..|hs| - 1];
      ImageTablesPrefix(f, root, base, init, i);
      assert init[..i] == hs[..i];
    } else {
      assert hs[..i] == hs;
    }
  }

  /** The frames that loading the segments takes: one for each page and one for each missing table. */
  ghost function FramesFor(f: Forest, root: nat, base: nat, hs: seq<ProgramHeader>): nat
  {
    TotalPages(hs) + |ImageTables(f, root, base, hs) - f.node.Keys|
  }

  /** The first `i` headers' segments are in memory and mapped; nothing else changed. */
  ghost predicate ImageMade(w0: Mem, w: Mem, f0: Forest, f: Forest, c0: set<nat>, c: set<nat>, root: nat, base: nat,
                            file: seq<Byte>, rs: seq<ProgramHeader>, i: nat)
  {
    && i <= |rs| && TablesMade(f0, f, c0, c, root, base, rs[..i]) && DataKept(w0, w, f, c0)
    && AllLoaded(w, f, c, root, base, file, rs, i) && OnlyImage(w0, w, f0.roots, root, rs, i, base)
    && (Isolated(w0, f0, c0) ==> Isolated(w, f, c))
  }

  ghost predicate TablesMade(f0: Forest, f: Forest, c0: set<nat>, c: set<nat>, root: nat, base: nat,
                             rs: seq<ProgramHeader>)
  {
    && Extended(f0, f, root, c0) && f.own == f0.own && f.node.Keys == f0.node.Keys + ImageTables(f0, root, base, rs)
    && Trimmed(c0, c, FramesFor(f0, root, base, rs))
  }

  /** One PT_LOAD round of the loop: header `i` joins the loaded ones. */
  method LoadNext(m: Mapper, file: seq<Byte>, s: ProgramHeader, ghost rs: seq<ProgramHeader>, ghost i: nat, base: nat,
                  pagemap: nat, ghost w0: Mem, ghost f0: Forest, ghost c0: set<nat>)
    requires m.Valid() && pagemap in m.forest.roots && i < |rs| && s == rs[i] && s.kind == PT_LOAD
    requires GoodImage(file, rs, base, m.pmm.size)
    requires ImageMade(w0, m.words, f0, m.forest, c0, m.pmm.clear, pagemap, base, file, rs, i)
    requires RestReady(m.pmm.clear, m.forest.node.Keys, f0, pagemap, base, rs, i)
    modifies m`words, m`forest, m.pmm, m.pmm.data
    ensures m.Valid() && m.pmm.size == old(m.pmm.size) && m.pmm.data == old(m.pmm.data)
    ensures ImageMade(w0, m.words, f0, m.forest, c0, m.pmm.clear, pagemap, base, file, rs, i + 1)
    ensures RestReady(m.pmm.clear, m.forest.node.Keys, f0, pagemap, base, rs, i + 1)
  {
    ghost var w1, f1, c1 := m.words, m.forest, m.pmm.clear;
    FramesGrow(f0, f1, pagemap, base, rs, i, s);
    SegmentReady(c1, f0, f1, pagemap, base, rs, i, s);
    assert GoodSegment(file, rs[i], base, m.pmm.size);
    ghost var phys := LoadSegment(m, file, s, base, pagemap);
    SegmentJoins(w0, w1, m.words, f1, m.forest, c1, m.pmm.clear, pagemap, base, file, rs, i, s, m.pmm.size, phys);
    ReadyGrows(c1, m.pmm.clear, f0, f1, m.forest, pagemap, base, rs, i, s);
    ImageGrows(w0, w1, m.words, f0, f1, m.forest, c0, c1, m.pmm.clear, pagemap, base, Start(s, base), PageCount(s),
               file, rs, i, phys);
  }

  /** Each segment in turn finds a clear run for its pages at the least clear frame, and frames for the tables that
      are not among `keys` by then. */
  ghost predicate SegmentsReady(c: set<nat>, keys: set<Key>, f: Forest, root: nat, base: nat, rs: seq<ProgramHeader>)
    decreases |rs|
  {
    if rs == [] then true
    else if rs[0].kind != PT_LOAD then SegmentsReady(c, keys, f, root, base, rs[1..])
    else
      var n, t := PageCount(rs[0]), RunTables(f, root, Start(rs[0], base), PageCount(rs[0]));
      && RunReady(c, n) && |c| >= |t - keys| + n
      && forall c': set<nat> :: Trimmed(c, c', n + |t - keys|) ==> SegmentsReady(c', keys + t, f, root, base, rs[1..])
  }

  /** The same for the segments from header `i` on. */
  ghost predicate RestReady(c: set<nat>, keys: set<Key>, f: Forest, root: nat, base: nat, rs: seq<ProgramHeader>,
                            i: nat)
  {
    i <= |rs| && SegmentsReady(c, keys, f, root, base, rs[i..])
  }

  lemma SegmentReady(c: set<nat>, f0: Forest, f: Forest, root: nat, base: nat, rs: seq<ProgramHeader>, i: nat,
                     s: ProgramHeader)
    requires i < |rs| && s == rs[i] && s.kind == PT_LOAD && SameSight(f0, f, root)
    requires RestReady(c, f.node.Keys, f0, root, base, rs, i)
    ensures RunReady(c, PageCount(s))
    ensures |c| >= |RunTables(f, root, Start(s, base), PageCount(s)) - f.node.Keys| + PageCount(s)
  {
    assert rs[i..][0] == s;
    SameRunTables(f0, f, root, Start(s, base), PageCount(s));
  }

  lemma ReadyGrows(c: set<nat>, c': set<nat>, f0: Forest, f: Forest, f': Forest, root: nat, base: nat,
                   rs: seq<ProgramHeader>, i: nat, s: ProgramHeader)
    requires i < |rs| && s == rs[i] && s.kind == PT_LOAD && SameSight(f0, f, root)
    requires RestReady(c, f.node.Keys, f0, root, base, rs, i)
    requires var t := RunTables(f, root, Start(s, base), PageCount(s));
      f'.node.Keys == f.node.Keys + t && Trimmed(c, c', PageCount(s) + |t - f.node.Keys|)
    ensures RestReady(c', f'.node.Keys, f0, root, base, rs, i + 1)
  {
    assert rs[i..][0] == s && rs[i..][1..] == rs[i + 1..];
    SameRunTables(f0, f, root, Start(s, base), PageCount(s));
  }

  /** A run for all pages and all tables that the segments could need is enough. */
  lemma {:induction false} OneRunIsEnough(c: set<nat>, keys: set<Key>, f: Forest, root: nat, base: nat,
                                          rs: seq<ProgramHeader>)
    requires RunReady(c, Budget(rs)) && |c| >= Budget(rs)
    ensures SegmentsReady(c, keys, f, root, base, rs)
    decreases |rs|
  {
    if rs != [] {
      if rs[0].kind != PT_LOAD {
        OneRunIsEnough(c, keys, f, root, base, rs[1..]);
      } else {
        var n, t := PageCount(rs[0]), RunTables(f, root, Start(rs[0], base), PageCount(rs[0]));
        TablesBound(f, root, Start(rs[0], base), n, keys);
        LessReady(c, n, Budget(rs));
        forall c': set<nat> | Trimmed(c, c', n + |t - keys|)
          ensures SegmentsReady(c', keys + t, f, root, base, rs[1..])
        {
          TrimmedReady(c, c', n + |t - keys|, Budget(rs));
          LessReady(c', Budget(rs[1..]), Budget(rs) - (n + |t - keys|));
          OneRunIsEnough(c', keys + t, f, root, base, rs[1..]);
        }
      }
    }
  }

  /** Pages, and tables at most, of the segments. */
  function Budget(rs: seq<ProgramHeader>): nat
  {
    if rs == [] then 0
    else
      var n := PageCount(rs[0]);
      Budget(rs[1..]) + if rs[0].kind == PT_LOAD then n + TableBudget(n) else 0
  }

  /** What header `i` adds to the frames and tables of those before it. */
  ghost predicate NextFrames(f0: Forest, f1: Forest, root: nat, base: nat, rs: seq<ProgramHeader>, i: nat, virt: nat,
                             n: nat)
    requires i < |rs|
  {
    var t := RunTables(f1, root, virt, n);
    && FramesFor(f0, root, base, rs[..i + 1]) == FramesFor(f0, root, base, rs[..i]) + n + |t - f1.node.Keys|
    && f1.node.Keys + t == f0.node.Keys + ImageTables(f0, root, base, rs[..i + 1])
  }

  lemma FramesGrow(f0: Forest, f1: Forest, root: nat, base: nat, rs: seq<ProgramHeader>, i: nat, s: ProgramHeader)
    requires i < |rs| && s == rs[i] && s.kind == PT_LOAD && SameSight(f0, f1, root)
    requires f1.node.Keys == f0.node.Keys + ImageTables(f0, root, base, rs[..i])
    ensures NextFrames(f0, f1, root, base, rs, i, Start(s, base), PageCount(s))
  {
    var n := PageCount(s);
    var done, t := ImageTables(f0, root, base, rs[..i]), RunTables(f0, root, Start(s, base), n);
    SameRunTables(f0, f1, root, Start(s, base), n);
    assert ImageTables(f0, root, base, rs[..i + 1]) == done + t by {
      ImageTablesPrefix(f0, root, base, rs, i);
    }
    assert TotalPages(rs[..i + 1]) == TotalPages(rs[..i]) + n by {
      TotalPagesPrefix(rs, i);
    }
    TablesJoin(f0.node.Keys, f1.node.Keys, done, t);
  }

  lemma {:induction false} BudgetOfLast(rs: seq<ProgramHeader>)
    requires rs != []
    ensures var h := rs[|rs| - 1];
      Budget(rs) == Budget(rs[..|rs| - 1]) + if h.kind == PT_LOAD then PageCount(h) + TableBudget(PageCount(h)) else 0
  {
    if |rs| > 1 {
      var init, tail := rs[..|rs| - 1], rs[1..];
      BudgetOfLast(tail);
      assert tail[..|tail| - 1] == init[1..] && init[0] == rs[0];
    } else {
      assert rs[1..] == [] && rs[..0] == [];
    }
  }

  /** No more frames are taken than that. */
  lemma {:induction false} FramesInBudget(f: Forest, root: nat, base: nat, rs: seq<ProgramHeader>)
    ensures FramesFor(f, root, base, rs) <= Budget(rs)
    decreases |rs|
  {
    if rs == [] {
      assert {} - f.node.Keys == {};
    } else {
      var init, h := rs[..|rs| - 1], rs[|rs| - 1];
      FramesInBudget(f, root, base, init);
      BudgetOfLast(rs);
      var done := ImageTables(f, root, base, init);
      var t: set<Key> := if h.kind == PT_LOAD then RunTables(f, root, Start(h, base), PageCount(h)) else {};
      MissingSplit(f.node.Keys, done, t);
      SubsetSize(t - (f.node.Keys + done), t - f.node.Keys);
      if h.kind == PT_LOAD {
        TablesBound(f, root, Start(h, base), PageCount(h), f.node.Keys);
      }
    }
  }

  /** A segment loaded behind those of the headers before. */
  lemma SegmentJoins(w0: Mem, w1: Mem, w2: Mem, f1: Forest, f2: Forest, c1: set<nat>, c2: set<nat>, root: nat,
                     base: nat, file: seq<Byte>, rs: seq<ProgramHeader>, i: nat, s: ProgramHeader, size: nat,
                     phys: seq<nat>)
    requires i < |rs| && s == rs[i] && s.kind == PT_LOAD && GoodImage(file, rs, base, size) && root in f1.roots
    requires AllLoaded(w1, f1, c1, root, base, file, rs, i) && OnlyImage(w0, w1, f1.roots, root, rs, i, base)
    requires RunMade(w1, w2, f1, f2, c1, root, phys, Start(s, base), 7) && |phys| == PageCount(s) && c2 <= c1
    requires Loaded(w2, f2, c2, root, base, file, s)
    ensures AllLoaded(w2, f2, c2, root, base, file, rs, i + 1) && OnlyImage(w0, w2, f1.roots, root, rs, i + 1, base)
    ensures f2.own == f1.own
  {
    SegmentApart(file, rs, i, s, base, size, |phys|);
    MoreLoaded(w1, w2, f1, f2, c1, c2, root, base, Start(s, base), file, rs, i, phys);
    OnlyMore(w0, w1, w2, f1, root, base, rs, i, Start(s, base), |phys|, phys);
  }

  lemma ImageGrows(w0: Mem, w1: Mem, w2: Mem, f0: Forest, f1: Forest, f2: Forest, c0: set<nat>, c1: set<nat>,
                   c2: set<nat>, root: nat, base: nat, virt: nat, n: nat, file: seq<Byte>, rs: seq<ProgramHeader>,
                   i: nat, phys: seq<nat>)
    requires i < |rs| && n == |phys| && ImageMade(w0, w1, f0, f1, c0, c1, root, base, file, rs, i)
    requires RunDone(w1, w2, f1, f2, c1, c2, root, phys, virt, 7, |phys|) && f2.own == f1.own
    requires AllLoaded(w2, f2, c2, root, base, file, rs, i + 1) && OnlyImage(w0, w2, f1.roots, root, rs, i + 1, base)
    requires Isolated(w1, f1, c1) ==> Isolated(w2, f2, c2)
    requires NextFrames(f0, f1, root, base, rs, i, virt, n)
    ensures ImageMade(w0, w2, f0, f2, c0, c2, root, base, file, rs, i + 1)
  {
    assert TablesMade(f0, f2, c0, c2, root, base, rs[..i + 1]) by {
      ExtendedTrans(f0, f1, f2, root, c0, c1);
      TrimmedTrans(c0, c1, c2, FramesFor(f0, root, base, rs[..i]),
                   |phys| + |RunTables(f1, root, virt, |phys|) - f1.node.Keys|);
    }
    assert DataKept(w0, w2, f2, c0) by {
      DataKeptTrans(w0, w1, w2, f1, f2, c0, c1);
    }
  }

  /** The `n` pages from `virt` on are those of loadable header `i`. */
  ghost predicate PagesOfHeader(rs: seq<ProgramHeader>, i: nat, base: nat, virt: nat, n: nat)
    requires i < |rs|
  {
    rs[i].kind == PT_LOAD && virt == Start(rs[i], base) && n == PageCount(rs[i])
  }

  /** No byte of the first `i` headers' segments lies in one of the `n` pages from `virt` on. */
  ghost predicate ImageOutside(rs: seq<ProgramHeader>, i: nat, base: nat, virt: nat, n: nat)
  {
    forall k :: 0 <= k < i && k < |rs| && rs[k].kind == PT_LOAD ==>
      BytesOutside(virt, n, Start(rs[k], base), rs[k].memorySize)
  }

  /** Header `i` of a good image: its pages are in the lower half and apart from those before. */
  lemma SegmentApart(file: seq<Byte>, rs: seq<ProgramHeader>, i: nat, s: ProgramHeader, base: nat, size: nat, n: nat)
    requires i < |rs| && s == rs[i] && s.kind == PT_LOAD && GoodImage(file, rs, base, size) && n == PageCount(s)
    ensures ImageOutside(rs, i, base, Start(s, base), n) && Lower(Start(s, base), n)
  {
    assert GoodSegment(file, rs[i], base, size);
    SegmentPrivate(s, base);
    forall k | 0 <= k < i && rs[k].kind == PT_LOAD
      ensures BytesOutside(Start(s, base), n, Start(rs[k], base), rs[k].memorySize)
    {
      assert PagesApart(rs, k, i, base) && GoodSegment(file, rs[k], base, size);
      AllOutside(s, rs[k], base, n);
    }
  }

  lemma MoreLoaded(w1: Mem, w2: Mem, f1: Forest, f2: Forest, c1: set<nat>, c2: set<nat>, root: nat, base: nat,
                   virt: nat, file: seq<Byte>, rs: seq<ProgramHeader>, i: nat, phys: seq<nat>)
    requires i < |rs| && root in f1.roots && ImageOutside(rs, i, base, virt, |phys|)
    requires AllLoaded(w1, f1, c1, root, base, file, rs, i) && Loaded(w2, f2, c2, root, base, file, rs[i])
    requires RunMade(w1, w2, f1, f2, c1, root, phys, virt, 7) && c2 <= c1
    ensures AllLoaded(w2, f2, c2, root, base, file, rs, i + 1)
  {
    forall k | 0 <= k < i && rs[k].kind == PT_LOAD ensures Loaded(w2, f2, c2, root, base, file, rs[k]) {
      StaysLoaded(w1, w2, f1, f2, c1, c2, root, virt, phys, Start(rs[k], base), file, rs[k]);
    }
  }

  lemma OnlyMore(w0: Mem, w1: Mem, w2: Mem, f1: Forest, root: nat, base: nat, rs: seq<ProgramHeader>, i: nat, virt: nat,
                 n: nat, phys: seq<nat>)
    requires i < |rs| && OnlyImage(w0, w1, f1.roots, root, rs, i, base) && PagesOfHeader(rs, i, base, virt, n)
    requires n == |phys|
    requires RunMapped(w1, w2, f1, root, phys, virt, 7) && Lower(virt, |phys|)
    ensures OnlyImage(w0, w2, f1.roots, root, rs, i + 1, base)
  {
    forall r, p | r in f1.roots && InRange(p) && (r != root || OutsideImage(rs, i + 1, base, p))
      ensures Walk(w2, r, p) == Walk(w0, r, p)
    {
      assert r != root || OutsideImage(rs, i, base, p);
      assert Walk(w1, r, p) == Walk(w0, r, p);
      LowerRun(w1, w2, f1, root, phys, virt, 7, r, p);
      if r == root {
        LeavesOutside(phys, virt, 7, p, Walk(w1, r, p));
      }
    }
  }

  /** A header that is not loadable changes nothing. */
  lemma SkipHeader(w0: Mem, w: Mem, f0: Forest, f: Forest, c0: set<nat>, c: set<nat>, root: nat, base: nat,
                   file: seq<Byte>, rs: seq<ProgramHeader>, i: nat)
    requires i < |rs| && rs[i].kind != PT_LOAD && ImageMade(w0, w, f0, f, c0, c, root, base, file, rs, i)
    ensures ImageMade(w0, w, f0, f, c0, c, root, base, file, rs, i + 1)
  {
    TotalPagesPrefix(rs, i);
    ImageTablesPrefix(f0, root, base, rs, i);
    forall r, p | r in f0.roots && InRange(p) && (r != root || OutsideImage(rs, i + 1, base, p))
      ensures Walk(w, r, p) == Walk(w0, r, p)
    {
      assert r != root || OutsideImage(rs, i, base, p);
    }
  }

  lemma SkipReady(c: set<nat>, keys: set<Key>, f: Forest, root: nat, base: nat, rs: seq<ProgramHeader>, i: nat)
    requires i < |rs| && rs[i].kind != PT_LOAD && RestReady(c, keys, f, root, base, rs, i)
    ensures RestReady(c, keys, f, root, base, rs, i + 1)
  {
    assert rs[i..][0] == rs[i] && rs[i..][1..] == rs[i + 1..];
  }

  /** What the headers read so far say about PT_PHDR and PT_INTERP. */
  ghost predicate Read(rs: seq<ProgramHeader>, i: nat, base: nat, file: seq<Byte>, atPhdr: nat, ldPath: seq<Byte>)
  {
    i <= |rs| && atPhdr == PhdrAddress(rs[..i], base) && ldPath == InterpreterPath(rs[..i], file)
  }

  lemma AllRead(rs: seq<ProgramHeader>, base: nat, file: seq<Byte>, atPhdr: nat, ldPath: seq<Byte>)
    requires Read(rs, |rs|, base, file, atPhdr, ldPath)
    ensures atPhdr == PhdrAddress(rs, base) && ldPath == InterpreterPath(rs, file)
  {
    assert rs[..|rs|] == rs;
  }

  method ReadHeader(h: ProgramHeader, base: nat, file: seq<Byte>, atPhdr: nat, ldPath: seq<Byte>,
                    ghost rs: seq<ProgramHeader>, ghost i: nat)
    returns (atPhdr': nat, ldPath': seq<Byte>)
    requires i < |rs| && h == rs[i] && Read(rs, i, base, file, atPhdr, ldPath)
    requires h.kind == PT_INTERP ==> h.fileOffset + h.fileSize <= |file|
    ensures Read(rs, i + 1, base, file, atPhdr', ldPath')
  {
    atPhdr', ldPath' := atPhdr, ldPath;
    if h.kind == PT_INTERP {
      ldPath' := file[h.fileOffset..h.fileOffset + h.fileSize];
    } else if h.kind == PT_PHDR {
      atPhdr' := base + h.vaddr;
    }
    HeaderStep(rs, i, base, file);
  }

  /** The body of the loop for a header that does not end it. */
  method TakeHeader(m: Mapper, h: ProgramHeader, base: nat, file: seq<Byte>, pagemap: nat, atPhdr: nat,
                    ldPath: seq<Byte>, ghost rs: seq<ProgramHeader>, ghost i: nat, ghost next: nat, ghost w0: Mem,
                    ghost f0: Forest, ghost c0: set<nat>)
    returns (atPhdr': nat, ldPath': seq<Byte>)
    requires m.Valid() && pagemap in m.forest.roots && i < |rs| && next == i + 1 && h == rs[i]
    requires Read(rs, i, base, file, atPhdr, ldPath)
    requires GoodImage(file, rs, base, m.pmm.size)
    requires ImageMade(w0, m.words, f0, m.forest, c0, m.pmm.clear, pagemap, base, file, rs, i)
    requires RestReady(m.pmm.clear, m.forest.node.Keys, f0, pagemap, base, rs, i)
    modifies m`words, m`forest, m.pmm, m.pmm.data
    ensures m.Valid() && m.pmm.size == old(m.pmm.size) && m.pmm.data == old(m.pmm.data)
    ensures Read(rs, next, base, file, atPhdr', ldPath')
    ensures ImageMade(w0, m.words, f0, m.forest, c0, m.pmm.clear, pagemap, base, file, rs, next)
    ensures RestReady(m.pmm.clear, m.forest.node.Keys, f0, pagemap, base, rs, next)
  {
    atPhdr', ldPath' := ReadHeader(h, base, file, atPhdr, ldPath, rs, i);
    if h.kind == PT_LOAD {
      LoadNext(m, file, h, rs, i, base, pagemap, w0, f0, c0);
    } else {
      SkipHeader(w0, m.words, f0, m.forest, c0, m.pmm.clear, pagemap, base, file, rs, i);
      SkipReady(m.pmm.clear, m.forest.node.Keys, f0, pagemap, base, rs, i);
    }
  }

  /** The program-header loop of elf_load_program, on the headers it reaches. */
  method LoadProgram(m: Mapper, file: seq<Byte>, hs: seq<ProgramHeader>, entry: nat, base: nat, pagemap: nat,
                     wantsInterpreter: bool)
    returns (entryPoint: nat, atPhdr: nat, atPhent: nat, atPhnum: nat, ldPath: seq<Byte>)
    requires m.Valid() && pagemap in m.forest.roots && GoodImage(file, Reached(hs, wantsInterpreter), base, m.pmm.size)
    requires SegmentsReady(m.pmm.clear, m.forest.node.Keys, m.forest, pagemap, base, Reached(hs, wantsInterpreter))
    modifies m`words, m`forest, m.pmm, m.pmm.data
    ensures m.Valid() && m.pmm.size == old(m.pmm.size) && m.pmm.data == old(m.pmm.data) && entryPoint == base + entry
    ensures atPhdr == PhdrAddress(Reached(hs, wantsInterpreter), base) && atPhent == 56 && atPhnum == |hs|
    ensures ldPath == InterpreterPath(Reached(hs, wantsInterpreter), file)
    ensures ImageMade(old(m.words), m.words, old(m.forest), m.forest, old(m.pmm.clear), m.pmm.clear, pagemap, base,
                      file, Reached(hs, wantsInterpreter), |Reached(hs, wantsInterpreter)|)
  {
    ghost var rs := Reached(hs, wantsInterpreter);
    ghost var w0, f0, c0 := m.words, m.forest, m.pmm.clear;
    var i := 0;
    atPhdr, atPhent, atPhnum, ldPath := 0, HEADER_SIZE, |hs|, [];
    while i < |hs|
      invariant i <= |rs| && Read(rs, i, base, file, atPhdr, ldPath)
      invariant m.Valid() && m.pmm.size == old(m.pmm.size) && m.pmm.data == old(m.pmm.data)
      invariant ImageMade(w0, m.words, f0, m.forest, c0, m.pmm.clear, pagemap, base, file, rs, i)
      invariant RestReady(m.pmm.clear, m.forest.node.Keys, f0, pagemap, base, rs, i)
    {
      var h, next := hs[i], i + 1;
      ReachedIs(hs, wantsInterpreter, i);
      if h.kind == PT_INTERP && !wantsInterpreter {
        break;
      }
      atPhdr, ldPath := TakeHeader(m, h, base, file, pagemap, atPhdr, ldPath, rs, i, next, w0, f0, c0);
      i := next;
    }
    ReachedIs(hs, wantsInterpreter, i);
    AllRead(rs, base, file, atPhdr, ldPath);
    entryPoint := base + entry;
  }
}
