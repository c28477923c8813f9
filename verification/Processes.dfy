/** From power-up to a program that runs: pmm_initialize, vmm_initialize, sched_new_elf_process of
    src/kernel/sched.c, and a mapping of its own, in one memory. */
module Processes {
  import opened Basics
  import opened PageTables
  import opened Paging
  import opened PageRuns
  import opened Isolation
  import opened AddressSpaces
  import opened Elf
  import InitialStack
  import Mmap
  import Pmm

  // ----- Memory as a process sees it ---------------------------------------------------

  /** The byte that a process with top-level table `root` reads at `va`, if it is mapped. */
  function UserByte(w: Mem, root: nat, va: nat): Byte
  {
    match Translate(w, root, va)
    case None => 0
    case Some(pa) => ByteAt(w, pa)
  }

  function Fetched(w: Mem, root: nat, at: nat, n: nat): (img: seq<Byte>)
    ensures |img| == n && forall k :: 0 <= k < n ==> img[k] == UserByte(w, root, Nth(at, k))
  {
    seq(n, k requires 0 <= k < n => UserByte(w, root, Nth(at, k)))
  }

  /** At `p` the process finds the string `s` and its terminator. */
  ghost predicate UserString(w: Mem, root: nat, p: nat, s: InitialStack.Str)
  {
    (forall k: nat :: k < |s| ==> UserByte(w, root, Nth(p, k)) == s[k]) && UserByte(w, root, Nth(p, |s|)) == 0
  }

  // ----- The stack's pages -------------------------------------------------------------------

  /** The four stack pages lead to the four frames from `stack` on. */
  ghost predicate StackMapped(w: Mem, root: nat, stack: nat)
  {
    forall i: nat {:trigger PageAt(STACK_BOTTOM, i)} :: i < 4 ==>
      Walk(w, root, PageAt(STACK_BOTTOM, i)) == Some(AddressAt(stack, i) + 7)
  }

  lemma TaskStack(w: Mem, w': Mem, f: Forest, stack: nat, root: nat)
    requires TaskWalks(w, w', f, stack, root)
    ensures StackMapped(w', root, stack)
  {
    forall i: nat | i < 4 ensures Walk(w', root, PageAt(STACK_BOTTOM, i)) == Some(AddressAt(stack, i) + 7) {
      StackPage(i);
      LeavesAt(Consecutive(stack, 4), STACK_BOTTOM, 7, i, None);
    }
  }

  lemma StackPage(i: nat)
    requires i < 4
    ensures PageAt(STACK_BOTTOM, i) == Page(255, 511, 511, 506 + i)
  {
  }

  /** Byte `o` of the stack is at its place in the frames. */
  lemma StackPlace(w: Mem, root: nat, stack: nat, o: nat)
    requires StackMapped(w, root, stack) && stack % PAGE_SIZE == 0 && o < STACK_SIZE
    ensures Translate(w, root, Nth(STACK_BOTTOM, o)) == Some(Nth(stack, o))
    ensures Pmm.InRun(Nth(stack, o) / PAGE_SIZE, stack / PAGE_SIZE, 4)
  {
    var i := o / PAGE_SIZE;
    StackOffset(o);
    assert Walk(w, root, PageAt(STACK_BOTTOM, i)) == Some(AddressAt(stack, i) + 7);
    AtPlace(stack, i, Nth(STACK_BOTTOM, o), o);
  }

  lemma StackOffset(o: nat)
    requires o < STACK_SIZE
    ensures var i := o / PAGE_SIZE;
      && i < 4 && PageOf(Nth(STACK_BOTTOM, o)) == PageAt(STACK_BOTTOM, i)
      && i * PAGE_SIZE + Nth(STACK_BOTTOM, o) % PAGE_SIZE == o
  {
    InPage(STACK_BOTTOM, o);
  }

  /** A stack that was written into its frames is what the process reads. */
  lemma StackFetched(w1: Mem, w2: Mem, root: nat, stack: nat, img: seq<Byte>, s: nat)
    requires StackMapped(w2, root, stack) && stack % PAGE_SIZE == 0 && |img| == STACK_SIZE && s <= STACK_SIZE
    requires Written(w1, w2, stack, img, stack / PAGE_SIZE, 4)
    ensures Fetched(w2, root, Nth(STACK_BOTTOM, s), STACK_SIZE - s) == img[s..]
  {
    var got := Fetched(w2, root, Nth(STACK_BOTTOM, s), STACK_SIZE - s);
    forall k: nat | k < STACK_SIZE - s ensures got[k] == img[s..][k] {
      StackPlace(w2, root, stack, s + k);
      assert Nth(Nth(STACK_BOTTOM, s), k) == Nth(STACK_BOTTOM, s + k);
      assert ByteAt(w2, Nth(stack, s + k)) == img[s + k];
    }
  }

  /** What start-up code finds behind its stack pointer, through the process's own pages. */
  ghost predicate UserStack(w: Mem, root: nat, rsp: nat, argv: seq<InitialStack.Str>, envp: seq<InitialStack.Str>,
                            auxv: seq<(nat, nat)>)
  {
    && STACK_BOTTOM <= rsp <= USER_STACK_TOP && rsp % 16 == 0
    && InitialStack.Parse(Fetched(w, root, rsp, USER_STACK_TOP - rsp), rsp) ==
       Some(InitialStack.Startup(|argv|, argv, envp, auxv))
  }

  /** The words from `at` on are pointers, and what the process finds at them are the strings. */
  ghost predicate PointersRead(w: Mem, root: nat, img: seq<Byte>, at: nat, strs: seq<InitialStack.Str>)
  {
    match InitialStack.ReadPointers(img, at)
    case None => false
    case Some(ps) => |ps| == |strs| && forall i :: 0 <= i < |ps| ==> UserString(w, root, ps[i], strs[i])
  }

  /** The strings read back at the very addresses that argv and envp hold. */
  lemma StringsReadBack(w: Mem, root: nat, rsp: nat, argv: seq<InitialStack.Str>, envp: seq<InitialStack.Str>,
                        auxv: seq<(nat, nat)>)
    requires UserStack(w, root, rsp, argv, envp, auxv)
    ensures var img := Fetched(w, root, rsp, USER_STACK_TOP - rsp);
      PointersRead(w, root, img, 8, argv) && PointersRead(w, root, img, 8 * (2 + |argv|), envp)
  {
    var img := Fetched(w, root, rsp, USER_STACK_TOP - rsp);
    var args := InitialStack.ReadPointers(img, 8).value;
    var env := InitialStack.ReadPointers(img, 8 * (2 + |args|)).value;
    AllRead(w, root, rsp, img, args, argv);
    AllRead(w, root, rsp, img, env, envp);
  }

  lemma {:induction false} AllRead(w: Mem, root: nat, rsp: nat, img: seq<Byte>, ps: seq<nat>,
                                   strs: seq<InitialStack.Str>)
    requires img == Fetched(w, root, rsp, |img|) && InitialStack.ReadStrings(img, rsp, ps) == Some(strs)
    ensures |ps| == |strs| && forall i :: 0 <= i < |ps| ==> UserString(w, root, ps[i], strs[i])
  {
    if ps != [] {
      OneRead(w, root, rsp, img, ps[0], strs[0]);
      AllRead(w, root, rsp, img, ps[1..], strs[1..]);
    }
  }

  lemma OneRead(w: Mem, root: nat, rsp: nat, img: seq<Byte>, p: nat, s: InitialStack.Str)
    requires img == Fetched(w, root, rsp, |img|) && p >= rsp && InitialStack.StringAt(img, p - rsp) == Some(s)
    ensures UserString(w, root, p, s)
  {
    StringThere(img, p - rsp, s);
    StringFetched(w, root, rsp, img, p, p - rsp, s);
  }

  lemma StringThere(img: seq<Byte>, at: nat, s: InitialStack.Str)
    requires InitialStack.StringAt(img, at) == Some(s)
    ensures InitialStack.StringIn(img, at, s)
  {
    var end := InitialStack.StringEnd(img, at);
    assert s == img[at..end];
  }

  lemma StringFetched(w: Mem, root: nat, rsp: nat, img: seq<Byte>, p: nat, at: nat, s: InitialStack.Str)
    requires img == Fetched(w, root, rsp, |img|) && p == rsp + at && InitialStack.StringIn(img, at, s)
    ensures UserString(w, root, p, s)
  {
    var end := at + |s|;
    forall k: nat | k < |s| ensures UserByte(w, root, Nth(p, k)) == s[k] {
      ByteFetched(w, root, rsp, img, p, k, at + k);
      assert img[at..end][k] == s[k];
    }
    ByteFetched(w, root, rsp, img, p, |s|, end);
  }

  lemma ByteFetched(w: Mem, root: nat, rsp: nat, img: seq<Byte>, p: nat, k: nat, j: nat)
    requires img == Fetched(w, root, rsp, |img|) && j < |img| && p + k == rsp + j
    ensures UserByte(w, root, Nth(p, k)) == img[j]
  {
    assert Nth(p, k) == Nth(rsp, j);
  }

  /** The bytes of a pushed word are those that the processor makes of it. */
  lemma {:induction false} BytesOfWord(x: nat, n: nat, k: nat)
    requires k < n
    ensures InitialStack.Enc(x, n)[k] == ByteOf(x, k)
  {
    if k > 0 {
      BytesOfWord(x / 256, n - 1, k - 1);
    }
  }

  /** So where the eight bytes of a pushed word stand, the processor reads that word. */
  lemma WordStored(w: Mem, fr: nat, i: nat, x: nat)
    requires i < ENTRIES && x < InitialStack.WORD_LIMIT && Word(w, fr, i) < InitialStack.WORD_LIMIT
    requires forall k: nat :: k < 8 ==> ByteOf(Word(w, fr, i), k) == InitialStack.Enc(x, 8)[k]
    ensures Word(w, fr, i) == x
  {
    forall k: nat | k < 8 ensures InitialStack.Enc(Word(w, fr, i), 8)[k] == InitialStack.Enc(x, 8)[k] {
      BytesOfWord(Word(w, fr, i), 8, k);
    }
    InitialStack.WordRoundTrip(x);
    InitialStack.WordRoundTrip(Word(w, fr, i));
    assert InitialStack.Enc(Word(w, fr, i), 8) == InitialStack.Enc(x, 8);
  }

  // ----- Writing the stack ----------------------------------------------------------------------

  /** Writing into frames that hold no table changes no table and no translation, and keeps address spaces apart. */
  lemma DataWritten(w1: Mem, w2: Mem, f: Forest, c: set<nat>, first: nat, n: nat)
    requires Grown(w1, f, c) && FramesAreData(f, c, first, n) && OnlyFrames(w1, w2, first, n)
    ensures Grown(w2, f, c) && SameWalks(w1, w2, f.roots) && (Isolated(w1, f, c) ==> Isolated(w2, f, c))
  {
    TablesKept(w1, w2, f, c, c);
    LookupsAreWalks(w1, w2, f, f, c, c);
    if Isolated(w1, f, c) {
      QuietIsolated(w1, w2, f, f, c, c);
    }
  }

  /** No segment has a page of the stack. */
  ghost predicate StackApart(rs: seq<ProgramHeader>, base: nat)
  {
    forall i: nat :: i < 4 ==> OutsideImage(rs, |rs|, base, PageAt(STACK_BOTTOM, i))
  }

  /** The stack's frames are none of the image's. */
  lemma ImageStays(w1: Mem, w2: Mem, f: Forest, c: set<nat>, root: nat, stack: nat, base: nat, file: seq<Byte>,
                   rs: seq<ProgramHeader>, size: nat)
    requires AllLoaded(w1, f, c, root, base, file, rs, |rs|) && GoodImage(file, rs, base, size) && StackApart(rs, base)
    requires Isolated(w1, f, c) && root in f.roots && StackMapped(w1, root, stack) && stack % PAGE_SIZE == 0
    requires SameWalks(w1, w2, f.roots) && OnlyFrames(w1, w2, stack / PAGE_SIZE, 4)
    ensures AllLoaded(w2, f, c, root, base, file, rs, |rs|)
  {
    forall k | 0 <= k < |rs| && rs[k].kind == PT_LOAD ensures Loaded(w2, f, c, root, base, file, rs[k]) {
      assert GoodSegment(file, rs[k], base, size);
      SegmentStays(w1, w2, f, c, root, stack, base, file, rs, k);
    }
  }

  lemma SegmentStays(w1: Mem, w2: Mem, f: Forest, c: set<nat>, root: nat, stack: nat, base: nat, file: seq<Byte>,
                     rs: seq<ProgramHeader>, k: nat)
    requires k < |rs| && rs[k].kind == PT_LOAD && base % PAGE_SIZE == 0 && StackApart(rs, base)
    requires Start(rs[k], base) + rs[k].memorySize < 0x7fff_ffff_f000 && Loaded(w1, f, c, root, base, file, rs[k])
    requires Isolated(w1, f, c) && root in f.roots && StackMapped(w1, root, stack) && stack % PAGE_SIZE == 0
    requires SameWalks(w1, w2, f.roots) && OnlyFrames(w1, w2, stack / PAGE_SIZE, 4)
    ensures Loaded(w2, f, c, root, base, file, rs[k])
  {
    var s := rs[k];
    forall o: nat | o < s.memorySize
      ensures Reads(w2, f, c, root, Nth(Start(s, base), o), SegmentByte(file, s, o))
    {
      var va, i := Nth(Start(s, base), o), (Misalign(s) + o) / PAGE_SIZE;
      SegmentPlace(s, base, o);
      SegmentLow(s, base, i);
      forall j: nat | j < 4 ensures PageAt(STACK_BOTTOM, j) != PageOf(va) {
        assert OutsideImage(rs, |rs|, base, PageAt(STACK_BOTTOM, j));
      }
      ByteStays(w1, w2, f, c, root, stack, va, PageOf(va), SegmentByte(file, s, o));
    }
  }

  /** A byte on a page of the lower half that is no page of the stack. */
  lemma ByteStays(w1: Mem, w2: Mem, f: Forest, c: set<nat>, root: nat, stack: nat, va: nat, p: Page, b: Byte)
    requires Reads(w1, f, c, root, va, b) && p == PageOf(va) && p.a < 256
    requires forall j: nat :: j < 4 ==> PageAt(STACK_BOTTOM, j) != p
    requires Isolated(w1, f, c) && root in f.roots && StackMapped(w1, root, stack) && stack % PAGE_SIZE == 0
    requires SameWalks(w1, w2, f.roots) && OnlyFrames(w1, w2, stack / PAGE_SIZE, 4)
    ensures Reads(w2, f, c, root, va, b)
  {
    var fr := FrameOf(Walk(w1, root, p).value);
    NotTheStack(w1, f, c, root, stack, p);
    assert Walk(w2, root, p) == Walk(w1, root, p);
    SameTranslation(w1, w2, root, va);
    PlaceInFrame(w1, root, va, fr);
  }

  lemma PlaceInFrame(w: Mem, root: nat, va: nat, fr: nat)
    requires Walk(w, root, PageOf(va)).Some? && fr == FrameOf(Walk(w, root, PageOf(va)).value)
    ensures Translate(w, root, va).Some? && Translate(w, root, va).value / PAGE_SIZE == fr
  {
    FrameAddress(fr, va % PAGE_SIZE);
  }

  lemma NotTheStack(w: Mem, f: Forest, c: set<nat>, root: nat, stack: nat, p: Page)
    requires Isolated(w, f, c) && root in f.roots && StackMapped(w, root, stack) && stack % PAGE_SIZE == 0
    requires InRange(p) && p.a < 256 && Walk(w, root, p).Some?
    requires forall j: nat :: j < 4 ==> PageAt(STACK_BOTTOM, j) != p
    ensures !Pmm.InRun(FrameOf(Walk(w, root, p).value), stack / PAGE_SIZE, 4)
  {
    var fr := FrameOf(Walk(w, root, p).value);
    forall i: nat | i < 4 ensures fr != FrameAt(stack, i) {
      StackFrame(w, f, root, stack, i);
      assert LowerFrame(w, f, root, p) == Some(fr);
    }
    assert forall i: nat :: i < 4 ==> FrameAt(stack, i) == stack / PAGE_SIZE + i;
    assert !Pmm.InRun(fr, stack / PAGE_SIZE, 4) || FrameAt(stack, fr - stack / PAGE_SIZE) == fr;
  }

  function FrameAt(stack: nat, i: nat): nat
  {
    stack / PAGE_SIZE + i
  }

  lemma StackFrame(w: Mem, f: Forest, root: nat, stack: nat, i: nat)
    requires root in f.roots && StackMapped(w, root, stack) && stack % PAGE_SIZE == 0 && i < 4
    ensures InRange(PageAt(STACK_BOTTOM, i))
    ensures LowerFrame(w, f, root, PageAt(STACK_BOTTOM, i)) == Some(FrameAt(stack, i))
  {
    StackPage(i);
    PageAligned(stack, i);
    PageNumber(stack, i);
    UsualFlags();
    LeafPresent(AddressAt(stack, i), 7);
  }

  /** Program, arguments and environment of a process. */
  datatype Program = Program(file: seq<Byte>, headers: seq<ProgramHeader>, entry: nat, base: nat,
                             wantsInterpreter: bool, argv: seq<InitialStack.Str>, envp: seq<InitialStack.Str>)

  function HeadersOf(p: Program): seq<ProgramHeader>
  {
    Reached(p.headers, p.wantsInterpreter)
  }

  /** What elf_load_program answers: where to start, where the headers are, and the interpreter's path. */
  ghost predicate Described(p: Program, entryPoint: nat, atPhdr: nat, ldPath: seq<Byte>)
  {
    && entryPoint == p.base + p.entry && atPhdr == PhdrAddress(HeadersOf(p), p.base)
    && ldPath == InterpreterPath(HeadersOf(p), p.file)
  }

  /** What the loader may rely on. */
  ghost predicate GoodProgram(p: Program, size: nat)
  {
    && GoodImage(p.file, HeadersOf(p), p.base, size) && StackApart(HeadersOf(p), p.base)
    && InitialStack.Fits(p.argv, p.envp) && |p.headers| < InitialStack.WORD_LIMIT
    && p.base + p.entry < InitialStack.WORD_LIMIT && PhdrAddress(HeadersOf(p), p.base) < InitialStack.WORD_LIMIT
  }

  // ----- The stack afterwards -------------------------------------------------------------------

  /** Every byte of the stack is in a frame of data. */
  ghost predicate StackHeld(w: Mem, f: Forest, c: set<nat>, root: nat)
  {
    forall o: nat {:trigger Nth(STACK_BOTTOM, o)} :: o < STACK_SIZE ==>
      Reads(w, f, c, root, Nth(STACK_BOTTOM, o), UserByte(w, root, Nth(STACK_BOTTOM, o)))
  }

  lemma StackInData(w: Mem, f: Forest, c: set<nat>, root: nat, stack: nat)
    requires StackMapped(w, root, stack) && stack % PAGE_SIZE == 0
    requires FullFrames(w, stack / PAGE_SIZE, 4) && FramesAreData(f, c, stack / PAGE_SIZE, 4)
    ensures StackHeld(w, f, c, root)
  {
    forall o: nat | o < STACK_SIZE
      ensures Reads(w, f, c, root, Nth(STACK_BOTTOM, o), UserByte(w, root, Nth(STACK_BOTTOM, o)))
    {
      StackPlace(w, root, stack, o);
    }
  }

  /** Start-up code finds arguments, environment and these four pairs: AT_PHNUM (22) with the number of program headers,
      AT_PHENT (21) with the size of one, AT_PHDR (20) with their address, AT_ENTRY (10) with the entry point. */
  ghost predicate FindsArguments(w: Mem, root: nat, p: Program, rsp: nat, entry: nat, phdr: nat)
  {
    UserStack(w, root, rsp, p.argv, p.envp, [(22, |p.headers|), (21, 56), (20, phdr), (10, entry)])
  }

  /** What a new process needs to start. */
  ghost predicate CanStart(w: Mem, f: Forest, c: set<nat>, root: nat, p: Program, rsp: nat, entry: nat, phdr: nat)
  {
    && root in f.roots && AllLoaded(w, f, c, root, p.base, p.file, HeadersOf(p), |HeadersOf(p)|)
    && StackHeld(w, f, c, root) && FindsArguments(w, root, p, rsp, entry, phdr)
  }

  /** The `n` pages from `virt` on are none of the program's and none of its stack's. */
  ghost predicate RangeApart(p: Program, virt: nat, n: nat)
  {
    && (forall k {:trigger HeadersOf(p)[k]} :: 0 <= k < |HeadersOf(p)| && HeadersOf(p)[k].kind == PT_LOAD ==>
          BytesOutside(virt, n, Start(HeadersOf(p)[k], p.base), HeadersOf(p)[k].memorySize))
    && BytesOutside(virt, n, STACK_BOTTOM, STACK_SIZE)
  }

  /** Memory mapped elsewhere leaves program and stack as they are. */
  lemma StillStarts(w: Mem, w': Mem, f: Forest, f': Forest, c: set<nat>, c': set<nat>, root: nat, p: Program, rsp: nat,
                    entry: nat, phdr: nat, virt: nat, phys: seq<nat>)
    requires CanStart(w, f, c, root, p, rsp, entry, phdr) && RangeApart(p, virt, |phys|)
    requires RunMade(w, w', f, f', c, root, phys, virt, 7) && c' <= c
    ensures CanStart(w', f', c', root, p, rsp, entry, phdr)
  {
    var rs := HeadersOf(p);
    forall k | 0 <= k < |rs| && rs[k].kind == PT_LOAD ensures Loaded(w', f', c', root, p.base, p.file, rs[k]) {
      StaysLoaded(w, w', f, f', c, c', root, virt, phys, Start(rs[k], p.base), p.file, rs[k]);
    }
    forall o: nat | o < STACK_SIZE
      ensures UserByte(w', root, Nth(STACK_BOTTOM, o)) == UserByte(w, root, Nth(STACK_BOTTOM, o))
      ensures Reads(w', f', c', root, Nth(STACK_BOTTOM, o), UserByte(w', root, Nth(STACK_BOTTOM, o)))
    {
      var va := Nth(STACK_BOTTOM, o);
      StaysRead(w, w', f, f', c, c', root, virt, phys, va, PageOf(va), UserByte(w, root, va));
    }
    SameFetched(w, w', root, rsp);
  }

  lemma SameFetched(w: Mem, w': Mem, root: nat, rsp: nat)
    requires STACK_BOTTOM <= rsp <= USER_STACK_TOP
    requires forall o: nat {:trigger Nth(STACK_BOTTOM, o)} :: o < STACK_SIZE ==>
               UserByte(w', root, Nth(STACK_BOTTOM, o)) == UserByte(w, root, Nth(STACK_BOTTOM, o))
    ensures Fetched(w', root, rsp, USER_STACK_TOP - rsp) == Fetched(w, root, rsp, USER_STACK_TOP - rsp)
  {
    forall k: nat | k < USER_STACK_TOP - rsp ensures UserByte(w', root, Nth(rsp, k)) == UserByte(w, root, Nth(rsp, k)) {
      assert Nth(rsp, k) == Nth(STACK_BOTTOM, rsp - STACK_BOTTOM + k);
    }
  }

  // ----- A new process -----------------------------------------------------------------------------

  /** memcpy of a stack that was built elsewhere into its frames. */
  method StoreStack(m: Mapper, stack: nat, img: seq<Byte>)
    requires m.Valid() && stack % PAGE_SIZE == 0 && |img| == STACK_SIZE
    requires FullFrames(m.words, stack / PAGE_SIZE, 4) && FramesAreData(m.forest, m.pmm.clear, stack / PAGE_SIZE, 4)
    modifies m`words
    ensures m.Valid() && Written(old(m.words), m.words, stack, img, stack / PAGE_SIZE, 4)
    ensures SameWalks(old(m.words), m.words, m.forest.roots)
    ensures Isolated(old(m.words), m.forest, m.pmm.clear) ==> Isolated(m.words, m.forest, m.pmm.clear)
  {
    ghost var w := m.words;
    WriteBytes(m, stack, img, stack / PAGE_SIZE, 4);
    DataWritten(w, m.words, m.forest, m.pmm.clear, stack / PAGE_SIZE, 4);
  }

  /** The frames that a process takes, at most. */
  function ProcessBudget(p: Program): nat
  {
    8 + Budget(HeadersOf(p))
  }

  /** A new address space in which the program's segments read back, and start-up code recovers its arguments; all other
      address spaces are as they were. */
  ghost predicate ProcessMade(w0: Mem, w: Mem, f0: Forest, f: Forest, c: set<nat>, root: nat, p: Program, rsp: nat,
                              entry: nat, phdr: nat)
  {
    && f.kernel == f0.kernel && f.roots == f0.roots + {root} && root !in f0.roots && SameWalks(w0, w, f0.roots)
    && CanStart(w, f, c, root, p, rsp, entry, phdr)
  }

  /** sched_new_elf_process, as far as memory goes: task_init, elf_load_program, and the stack. */
  method NewProcess(m: Mapper, p: Program)
    returns (root: nat, rsp: nat, entryPoint: nat, atPhdr: nat, ldPath: seq<Byte>, ok: bool)
    requires m.Valid() && Isolated(m.words, m.forest, m.pmm.clear) && 4 <= m.pmm.size && GoodProgram(p, m.pmm.size)
    requires RunReady(m.pmm.clear, ProcessBudget(p)) && |m.pmm.clear| >= ProcessBudget(p)
    modifies m`words, m`forest, m.pmm, m.pmm.data
    ensures m.Valid() && m.pmm.data == old(m.pmm.data) && m.pmm.size == old(m.pmm.size)
    ensures Isolated(m.words, m.forest, m.pmm.clear)
    ensures m.pmm.clear <= old(m.pmm.clear) && |old(m.pmm.clear)| <= |m.pmm.clear| + ProcessBudget(p)
    ensures ok <==> TablesReached(root, m.kernelPagemap)
    ensures |FramesBelow(old(m.pmm.clear), root)| == 4
    ensures !ok ==> m.forest == old(m.forest) && SameWalks(old(m.words), m.words, m.forest.roots)
    ensures ok ==> ProcessMade(old(m.words), m.words, old(m.forest), m.forest, m.pmm.clear, root, p, rsp, entryPoint,
                               atPhdr)
    ensures ok ==> UserStack(m.words, root, rsp, p.argv, p.envp,
                             [(22, |p.headers|), (21, 56), (20, atPhdr), (10, entryPoint)])
    ensures ok ==> Described(p, entryPoint, atPhdr, ldPath)
  {
    ghost var w0, f0, c0 := m.words, m.forest, m.pmm.clear;
    var stack;
    LessReady(c0, 4, ProcessBudget(p));
    stack, root, ok := NewTask(m);
    FifthFrame(c0, stack, root);
    rsp, entryPoint, atPhdr, ldPath := 0, 0, 0, [];
    if ok {
      rsp, entryPoint, atPhdr, ldPath := FillProcess(m, p, stack, root, w0, f0, c0);
    }
  }

  /** What follows task_init. */
  method FillProcess(m: Mapper, p: Program, stack: nat, root: nat, ghost w0: Mem, ghost f0: Forest, ghost c0: set<nat>)
    returns (rsp: nat, entryPoint: nat, atPhdr: nat, ldPath: seq<Byte>)
    requires m.Valid() && Isolated(w0, f0, c0) && GoodProgram(p, m.pmm.size)
    requires TaskSpace(w0, m.words, f0, m.forest, c0, m.pmm.clear, stack, root)
    requires RunReady(c0, ProcessBudget(p)) && |c0| >= ProcessBudget(p)
    modifies m`words, m`forest, m.pmm, m.pmm.data
    ensures m.Valid() && m.pmm.data == old(m.pmm.data) && m.pmm.size == old(m.pmm.size)
    ensures Isolated(m.words, m.forest, m.pmm.clear)
    ensures m.pmm.clear <= c0 && |c0| <= |m.pmm.clear| + ProcessBudget(p)
    ensures ProcessMade(w0, m.words, f0, m.forest, m.pmm.clear, root, p, rsp, entryPoint, atPhdr)
    ensures Described(p, entryPoint, atPhdr, ldPath)
  {
    ghost var w1, f1, c1 := m.words, m.forest, m.pmm.clear;
    EnoughToLoad(c0, c1, f1, root, p);
    var aux;
    entryPoint, aux, ldPath := LoadImage(m, p, root);
    atPhdr := aux.phdr;
    ghost var w2 := m.words;
    StackStill(w0, w1, w2, f0, f1, m.forest, c0, c1, m.pmm.clear, stack, root, p);
    rsp := PlaceStack(m, p, stack, root, aux);
    ProcessBuilt(w0, w1, w2, m.words, f0, f1, m.forest, c0, c1, m.pmm.clear, stack, root, p, rsp,
                 entryPoint, atPhdr);
  }

  ghost function FramesBelow(c: set<nat>, x: nat): set<nat>
  {
    set i | i in c && i < x
  }

  /** The top-level table comes right behind the stack's four frames. */
  lemma FifthFrame(c: set<nat>, stack: nat, root: nat)
    requires Pmm.IsLeast(stack / PAGE_SIZE, c) && RunReady(c, 4)
    requires Pmm.IsLeast(root, c - Pmm.Run(stack / PAGE_SIZE, 4))
    ensures |FramesBelow(c, root)| == 4
  {
    var least := stack / PAGE_SIZE;
    var run := Pmm.Run(least, 4);
    Pmm.RunSize(least, 4);
    assert run <= c && root !in run && !Pmm.InRun(root, least, 4);
    forall i ensures i in FramesBelow(c, root) <==> i in run {
      if i in c && i < root {
        assert i !in c - run;
      }
    }
    assert FramesBelow(c, root) == run;
  }

  lemma EnoughToLoad(c0: set<nat>, c1: set<nat>, f1: Forest, root: nat, p: Program)
    requires RunReady(c0, ProcessBudget(p)) && |c0| >= ProcessBudget(p) && Trimmed(c0, c1, 8)
    ensures SegmentsReady(c1, f1.node.Keys, f1, root, p.base, HeadersOf(p))
  {
    TrimmedReady(c0, c1, 8, ProcessBudget(p));
    OneRunIsEnough(c1, f1.node.Keys, f1, root, p.base, HeadersOf(p));
  }

  /** elf_load_program also fills what the auxiliary vector is made of. */
  method LoadImage(m: Mapper, p: Program, root: nat)
    returns (entryPoint: nat, aux: InitialStack.Auxval, ldPath: seq<Byte>)
    requires m.Valid() && root in m.forest.roots && GoodProgram(p, m.pmm.size)
    requires SegmentsReady(m.pmm.clear, m.forest.node.Keys, m.forest, root, p.base, HeadersOf(p))
    modifies m`words, m`forest, m.pmm, m.pmm.data
    ensures m.Valid() && m.pmm.data == old(m.pmm.data) && m.pmm.size == old(m.pmm.size)
    ensures Described(p, entryPoint, aux.phdr, ldPath)
    ensures aux.entry == entryPoint && aux.phent == 56 && aux.phnum == |p.headers|
    ensures ImageMade(old(m.words), m.words, old(m.forest), m.forest, old(m.pmm.clear), m.pmm.clear, root, p.base,
                      p.file, HeadersOf(p), |HeadersOf(p)|)
  {
    var phdr, phent, phnum;
    entryPoint, phdr, phent, phnum, ldPath :=
      LoadProgram(m, p.file, p.headers, p.entry, p.base, root, p.wantsInterpreter);
    aux := InitialStack.Auxval(entryPoint, phdr, phent, phnum);
  }

  /** The stack's frames and pages, once the image is loaded. */
  lemma StackStill(w0: Mem, w1: Mem, w2: Mem, f0: Forest, f1: Forest, f2: Forest, c0: set<nat>, c1: set<nat>,
                   c2: set<nat>, stack: nat, root: nat, p: Program)
    requires TaskSpace(w0, w1, f0, f1, c0, c1, stack, root) && StackApart(HeadersOf(p), p.base)
    requires ImageMade(w1, w2, f1, f2, c1, c2, root, p.base, p.file, HeadersOf(p), |HeadersOf(p)|)
    ensures StackMapped(w2, root, stack) && FullFrames(w2, stack / PAGE_SIZE, 4)
    ensures FramesAreData(f2, c2, stack / PAGE_SIZE, 4)
  {
    TaskStack(w0, w1, f0, stack, root);
    forall i: nat | i < 4 ensures Walk(w2, root, PageAt(STACK_BOTTOM, i)) == Some(AddressAt(stack, i) + 7) {
      assert Walk(w1, root, PageAt(STACK_BOTTOM, i)) == Some(AddressAt(stack, i) + 7);
      StackPage(i);
    }
    forall fr: nat | Pmm.InRun(fr, stack / PAGE_SIZE, 4) ensures IsData(f2, c2, fr) && fr in w2 && |w2[fr]| == ENTRIES {
      var i := fr - stack / PAGE_SIZE;
      PageNumber(stack, i);
      assert Consecutive(stack, 4)[i] / PAGE_SIZE == fr;
    }
  }

  /** The stack is built and stored. */
  method PlaceStack(m: Mapper, p: Program, stack: nat, root: nat, aux: InitialStack.Auxval) returns (rsp: nat)
    requires m.Valid() && root in m.forest.roots && GoodProgram(p, m.pmm.size) && stack % PAGE_SIZE == 0
    requires InitialStack.InWord(aux) && aux.phent == 56 && aux.phnum == |p.headers|
    requires StackMapped(m.words, root, stack)
    requires FullFrames(m.words, stack / PAGE_SIZE, 4) && FramesAreData(m.forest, m.pmm.clear, stack / PAGE_SIZE, 4)
    modifies m`words
    ensures m.Valid() && SameWalks(old(m.words), m.words, m.forest.roots)
    ensures OnlyFrames(old(m.words), m.words, stack / PAGE_SIZE, 4)
    ensures FindsArguments(m.words, root, p, rsp, aux.entry, aux.phdr)
    ensures StackHeld(m.words, m.forest, m.pmm.clear, root)
    ensures Isolated(old(m.words), m.forest, m.pmm.clear) ==> Isolated(m.words, m.forest, m.pmm.clear)
  {
    ghost var w := m.words;
    var mem := new Byte[STACK_SIZE](_ => 0);
    ghost var s;
    rsp, s := InitialStack.BuildStack(mem, p.argv, p.envp, aux);
    StoreStack(m, stack, mem[..]);
    StackFound(w, m.words, root, stack, mem[..], s, rsp, p, aux, m.forest.roots);
    StackInData(m.words, m.forest, m.pmm.clear, root, stack);
  }

  lemma StackFound(w1: Mem, w2: Mem, root: nat, stack: nat, img: seq<Byte>, s: nat, rsp: nat, p: Program,
                   aux: InitialStack.Auxval, roots: set<nat>)
    requires StackMapped(w1, root, stack) && SameWalks(w1, w2, roots) && root in roots && stack % PAGE_SIZE == 0
    requires |img| == STACK_SIZE && s <= STACK_SIZE && Written(w1, w2, stack, img, stack / PAGE_SIZE, 4)
    requires rsp == USER_STACK_TOP - (STACK_SIZE - s) && rsp % 16 == 0
    requires InitialStack.Recovers(img[s..], rsp, p.argv, p.envp, aux)
    requires aux.phent == 56 && aux.phnum == |p.headers|
    ensures StackMapped(w2, root, stack) && FindsArguments(w2, root, p, rsp, aux.entry, aux.phdr)
  {
    forall i: nat | i < 4 ensures Walk(w2, root, PageAt(STACK_BOTTOM, i)) == Some(AddressAt(stack, i) + 7) {
      assert Walk(w1, root, PageAt(STACK_BOTTOM, i)) == Some(AddressAt(stack, i) + 7);
    }
    StackFetched(w1, w2, root, stack, img, s);
    assert Nth(STACK_BOTTOM, s) == rsp && STACK_SIZE - s == USER_STACK_TOP - rsp;
  }

  lemma ProcessBuilt(w0: Mem, w1: Mem, w2: Mem, w3: Mem, f0: Forest, f1: Forest, f2: Forest, c0: set<nat>, c1: set<nat>,
                     c2: set<nat>, stack: nat, root: nat, p: Program, rsp: nat, entry: nat, phdr: nat)
    requires TaskSpace(w0, w1, f0, f1, c0, c1, stack, root) && Isolated(w0, f0, c0) && StackMapped(w2, root, stack)
    requires ImageMade(w1, w2, f1, f2, c1, c2, root, p.base, p.file, HeadersOf(p), |HeadersOf(p)|)
    requires exists size :: GoodImage(p.file, HeadersOf(p), p.base, size)
    requires StackApart(HeadersOf(p), p.base) && SameWalks(w2, w3, f2.roots)
    requires OnlyFrames(w2, w3, stack / PAGE_SIZE, 4) && StackHeld(w3, f2, c2, root)
    requires FindsArguments(w3, root, p, rsp, entry, phdr)
    ensures ProcessMade(w0, w3, f0, f2, c2, root, p, rsp, entry, phdr) && Isolated(w2, f2, c2)
    ensures c2 <= c0 && |c0| <= |c2| + ProcessBudget(p)
  {
    var size :| GoodImage(p.file, HeadersOf(p), p.base, size);
    ImageStays(w2, w3, f2, c2, root, stack, p.base, p.file, HeadersOf(p), size);
    forall r, q | r in f0.roots && InRange(q) ensures Walk(w3, r, q) == Walk(w0, r, q) {
      assert Walk(w1, r, q) == Walk(w0, r, q) && Walk(w2, r, q) == Walk(w1, r, q);
    }
    assert HeadersOf(p)[..|HeadersOf(p)|] == HeadersOf(p);
    FramesInBudget(f1, root, p.base, HeadersOf(p));
  }

  // ----- From power-up on -----------------------------------------------------------------------------

  /** The frames that the kernel's own address space takes, at most, when `n` pages are mapped directly. */
  function KernelBudget(n: nat): nat
  {
    1 + TableBudget(KERNEL_PAGES) + TableBudget(n)
  }

  lemma KernelFits(f: Forest, n: nat)
    ensures |KernelTables(f, n) - f.node.Keys| + 1 <= KernelBudget(n)
  {
    var t, u := RunTables(f, f.kernel, MMAP_KERNEL_BASE, KERNEL_PAGES), RunTables(f, f.kernel, MMAP_IO_BASE, n);
    TablesBound(f, f.kernel, MMAP_KERNEL_BASE, KERNEL_PAGES, f.node.Keys);
    TablesBound(f, f.kernel, MMAP_IO_BASE, n, f.node.Keys + t);
    MissingSplit(f.node.Keys, t, u);
  }

  /** The kernel's upper half is mapped as far as the mapper relies on it, and address spaces are apart. */
  ghost predicate Sound(m: Mapper)
    reads m, m.pmm, m.pmm.data
  {
    && m.Valid() && Isolated(m.words, m.forest, m.pmm.clear) && m.reach <= IO_PAGES
    && KernelMapped(m.words, m.kernelPagemap, m.reach)
  }

  /** sched_new_elf_process keeps what the kernel relies on. */
  lemma KernelStays(w: Mem, w': Mem, root: nat, roots: set<nat>, n: nat)
    requires KernelMapped(w, root, n) && root in roots && SameWalks(w, w', roots)
    ensures KernelMapped(w', root, n)
  {
    forall i: nat | i < UPPER_PAGES ensures Walk(w', root, PageAt(MMAP_IO_BASE, i)) == KernelEntry(n, i) {
      assert Walk(w, root, PageAt(MMAP_IO_BASE, i)) == KernelEntry(n, i);
    }
  }

  /** A run in the lower half of another address space does so as well. */
  lemma KernelStaysBeside(w: Mem, w': Mem, f: Forest, kernel: nat, root: nat, phys: seq<nat>, virt: nat, n: nat)
    requires KernelMapped(w, kernel, n) && kernel in f.roots
    requires RunMapped(w, w', f, root, phys, virt, 7) && Lower(virt, |phys|)
    ensures KernelMapped(w', kernel, n)
  {
    forall i: nat | i < UPPER_PAGES ensures Walk(w', kernel, PageAt(MMAP_IO_BASE, i)) == KernelEntry(n, i) {
      var p := PageAt(MMAP_IO_BASE, i);
      assert Walk(w, kernel, p) == KernelEntry(n, i);
      UpperPage(i);
      LowerRun(w, w', f, root, phys, virt, 7, kernel, p);
      LeavesOutside(phys, virt, 7, p, Walk(w, kernel, p));
    }
  }

  /** The first mapping of a process: the pages from `at` on that `size` bytes take, and no more. */
  ghost predicate FirstRange(m: Mapper, root: nat, at: nat, phys: seq<nat>, size: nat)
    reads m, m.pmm
  {
    size <= |phys| * PAGE_SIZE < size + PAGE_SIZE && forall k: nat {:trigger PageAt(at, k)} :: k < |phys| ==>
      Mmap.LeadsTo(Mmap.Moment(m.words, m.forest, m.pmm.clear), root, PageAt(at, k), phys[k])
  }

  /** vmm_mmap for a process that has mapped nothing yet; `used` is what malloc left in its used_pages. */
  method MapFirstRange(m: Mapper, root: nat, size: nat, used: nat, ghost at: nat, ghost p: Program, ghost rsp: nat,
                       ghost entry: nat, ghost phdr: nat)
    returns (ghost phys: seq<nat>)
    requires Sound(m) && CanStart(m.words, m.forest, m.pmm.clear, root, p, rsp, entry, phdr)
    requires at == Mmap.Place(used) && at + Mmap.PagesOf(size) * PAGE_SIZE <= 0x8000_0000_0000
    requires |m.pmm.clear| >= TableBudget(Mmap.PagesOf(size)) + Mmap.PagesOf(size)
    modifies m`words, m`forest, m.pmm, m.pmm.data
    ensures Sound(m) && FirstRange(m, root, at, phys, size)
    ensures RangeApart(p, at, |phys|) ==>
              CanStart(m.words, m.forest, m.pmm.clear, root, p, rsp, entry, phdr)
  {
    ghost var w, f, c, n := m.words, m.forest, m.pmm.clear, Mmap.PagesOf(size);
    var flags := Mmap.MAP_ANONYMOUS;
    TablesBound(f, root, at, n, f.node.Keys);
    UnfixedFlag(used);
    var more, ret;
    more, ret, phys := Mmap.Map(m, root, 0, size, flags, used);
    RangeMade(m, w, f, c, root, at, phys, size);
    if RangeApart(p, at, n) {
      StillStarts(w, m.words, f, m.forest, c, m.pmm.clear, root, p, rsp, entry, phdr, at, phys);
    }
  }

  lemma StackCovered(at: nat, n: nat, i: nat, o: nat)
    requires i < n && o < STACK_SIZE && at + i * PAGE_SIZE == STACK_BOTTOM + o
    ensures !BytesOutside(at, n, STACK_BOTTOM, STACK_SIZE)
  {
    assert PageAt(at, i) == PageOf(Nth(STACK_BOTTOM, o));
  }

  /** Which ranges are no part of the stack. */
  lemma MissesStack(at: nat, n: nat)
    requires at % PAGE_SIZE == 0 && n > 0 && at + n * PAGE_SIZE <= 0x8000_0000_0000
    ensures BytesOutside(at, n, STACK_BOTTOM, STACK_SIZE) <==>
            at + n * PAGE_SIZE <= STACK_BOTTOM || USER_STACK_TOP <= at
  {
    var first, bottom := at / PAGE_SIZE, STACK_BOTTOM / PAGE_SIZE;
    if first + n <= bottom || bottom + 4 <= first {
      forall o: nat | o < STACK_SIZE ensures !Covers(at, n, PageOf(Nth(STACK_BOTTOM, o))) {
        StackOffset(o);
        forall i: nat | i < n ensures PageAt(at, i) != PageAt(STACK_BOTTOM, o / PAGE_SIZE) {
          DifferentPages(at, i, STACK_BOTTOM, o / PAGE_SIZE);
        }
      }
    } else if first <= bottom {
      StackCovered(at, n, bottom - first, 0);
    } else {
      StackCovered(at, n, 0, at - STACK_BOTTOM);
    }
  }

  /** A leftover used_pages with which the first mapping of a process replaces its stack. */
  lemma StackReplaced()
    ensures Mmap.Place(0x7_ffff_effa) == STACK_BOTTOM && !BytesOutside(STACK_BOTTOM, 1, STACK_BOTTOM, STACK_SIZE)
  {
    MissesStack(STACK_BOTTOM, 1);
  }

  lemma UnfixedFlag(used: nat)
    ensures Mmap.MAP_ANONYMOUS / 8 % 2 == 1 && Mmap.MAP_ANONYMOUS / 4 % 2 == 0
    ensures Mmap.Place(used) == used * 4096 + 0x100_0000
  {
  }

  lemma FirstRangeLow(at: nat, n: nat)
    requires at + n * PAGE_SIZE <= 0x8000_0000_0000
    ensures Lower(at, n) && n <= 0x10_0000_0000
  {
    forall k: nat | k < n ensures PageAt(at, k).a < 256 {
      assert AddressAt(at, k) / 0x80_0000_0000 < 256;
    }
  }

  lemma RangeMade(m: Mapper, w: Mem, f: Forest, c: set<nat>, root: nat, at: nat, phys: seq<nat>, size: nat)
    requires at + |phys| * PAGE_SIZE <= 0x8000_0000_0000 && root in f.roots
    requires size <= |phys| * PAGE_SIZE < size + PAGE_SIZE
    requires Mmap.ZeroedRun(w, m.words, f, m.forest, c, m.pmm.clear, root, phys, at)
    requires KernelMapped(w, m.kernelPagemap, m.reach) && m.kernelPagemap in f.roots
    ensures FirstRange(m, root, at, phys, size) && KernelMapped(m.words, m.kernelPagemap, m.reach)
  {
    FirstRangeLow(at, |phys|);
    KernelStaysBeside(w, m.words, f, m.kernelPagemap, root, phys, at, m.reach);
    var a, b := Mmap.Moment(w, f, c), Mmap.Moment(m.words, m.forest, m.pmm.clear);
    forall k: nat | k < |phys| ensures Mmap.LeadsTo(b, root, PageAt(at, k), phys[k]) {
      Mmap.MadeNow(a, b, root, phys, at, k);
    }
  }

  /** `rest` is what is left of the clear frames when the kernel's address space has its tables. */
  ghost predicate AfterKernel(clear: set<nat>, rest: set<nat>, kernel: nat, n: nat)
  {
    Trimmed(clear, rest, 1 + |KernelTables(KernelForest(kernel), n) - KernelForest(kernel).node.Keys|)
  }

  /** The kernel reaches all clear frames, there are enough of them, and those that the kernel leaves begin with a run
      of `second`. */
  ghost predicate Roomy(clear: set<nat>, n: nat, second: nat, third: nat)
  {
    && (forall i :: i in clear ==> i < n) && |clear| >= KernelBudget(n) + (second + third)
    && forall rest, kernel {:trigger AfterKernel(clear, rest, kernel, n)} ::
         Pmm.IsLeast(kernel, clear) && AfterKernel(clear, rest, kernel, n) ==> RunReady(rest, second)
  }

  /** A process with `pages` zeroed pages of its own, which can start unless they replace pages of its program or stack;
      `ok` says that task_init was finished. */
  ghost predicate Launched(m: Mapper, p: Program, at: nat, size: nat, root: nat, rsp: nat, entryPoint: nat,
                           atPhdr: nat, ok: bool, phys: seq<nat>)
    reads m, m.pmm
  {
    && (ok <==> TablesReached(root, m.kernelPagemap))
    && (ok ==> FirstRange(m, root, at, phys, size))
    && (ok ==> entryPoint == p.base + p.entry && atPhdr == PhdrAddress(HeadersOf(p), p.base))
    && (ok && RangeApart(p, at, |phys|) ==>
          CanStart(m.words, m.forest, m.pmm.clear, root, p, rsp, entryPoint, atPhdr))
  }

  /** A process and its first mapping. */
  method Launch(m: Mapper, p: Program, size: nat, used: nat, ghost at: nat)
    returns (root: nat, rsp: nat, entryPoint: nat, atPhdr: nat, ok: bool, ghost phys: seq<nat>)
    requires Sound(m) && 4 <= m.pmm.size && GoodProgram(p, m.pmm.size)
    requires RunReady(m.pmm.clear, ProcessBudget(p))
    requires |m.pmm.clear| >= ProcessBudget(p) + (TableBudget(Mmap.PagesOf(size)) + Mmap.PagesOf(size))
    requires at == Mmap.Place(used) && at + Mmap.PagesOf(size) * PAGE_SIZE <= 0x8000_0000_0000
    modifies m`words, m`forest, m.pmm, m.pmm.data
    ensures Sound(m) && Launched(m, p, at, size, root, rsp, entryPoint, atPhdr, ok, phys)
    ensures |FramesBelow(old(m.pmm.clear), root)| == 4
  {
    ghost var w, f := m.words, m.forest;
    var ldPath;
    root, rsp, entryPoint, atPhdr, ldPath, ok := NewProcess(m, p);
    KernelStays(w, m.words, m.kernelPagemap, f.roots, m.reach);
    phys := [];
    if ok {
      phys := MapFirstRange(m, root, size, used, at, p, rsp, entryPoint, atPhdr);
    }
  }

  /** The top-level table and then those below it. */
  lemma AfterPaging(kernel: nat, c0: set<nat>, c1: set<nat>, c2: set<nat>, n: nat, second: nat, third: nat)
    requires Roomy(c0, n, second, third) && Pmm.IsLeast(kernel, c0) && c1 == c0 - {kernel}
    requires Trimmed(c1, c2, |KernelTables(KernelForest(kernel), n) - KernelForest(kernel).node.Keys|)
    ensures RunReady(c2, second) && |c2| >= second + third && |c0 - c2| <= KernelBudget(n) && c2 <= c0
  {
    var tables := |KernelTables(KernelForest(kernel), n) - KernelForest(kernel).node.Keys|;
    OneTaken(c0, kernel);
    TrimmedTrans(c0, c1, c2, 1, tables);
    KernelFits(KernelForest(kernel), n);
    assert AfterKernel(c0, c2, kernel, n);
    TakenSize(c0, c2, 1 + tables);
  }

  lemma TakenSize(c: set<nat>, c': set<nat>, n: nat)
    requires Trimmed(c, c', n)
    ensures |c - c'| == n
  {
    assert c == (c - c') + c';
  }

  /** With enough clear frames below KERNEL_PAGES the kernel reaches both top-level tables. */
  lemma TablesNear(c0: set<nat>, c1: set<nat>, kernel: nat, root: nat, first: nat)
    requires Pmm.IsLeast(kernel, c0) && |c0 - c1| <= first && |FramesBelow(c1, root)| == 4
    ensures |FramesBelow(c0, KERNEL_PAGES)| > first + 4 ==> TablesReached(root, kernel)
  {
    SubsetSize(FramesBelow(c0, root), (c0 - c1) + FramesBelow(c1, root));
    if root >= KERNEL_PAGES {
      SubsetSize(FramesBelow(c0, KERNEL_PAGES), FramesBelow(c0, root));
    }
    if kernel >= KERNEL_PAGES {
      assert FramesBelow(c0, KERNEL_PAGES) == {};
    }
  }

  lemma BitmapPages(highest: nat)
    ensures Pmm.BitmapSize(highest) > 0 ==> Pmm.BitmapSize(highest) >= 4
  {
    Pmm.WholePages(highest);
  }

  /** vmm_initialize: `n` pages are mapped directly, and frames for `second + third` are left. */
  method InitializePaging(pmm: Pmm.FrameAllocator, memmap: array<Pmm.Entry>, ghost n: nat, ghost second: nat,
                          ghost third: nat)
    returns (m: Mapper)
    requires pmm.Valid() && memmap as object != pmm.data && n == DirectPages(memmap[..]) <= IO_PAGES
    requires second + third > 0 && Roomy(pmm.clear, n, second, third)
    modifies pmm, pmm.data
    ensures fresh(m) && m.pmm == pmm && pmm.data == old(pmm.data) && pmm.size == old(pmm.size)
    ensures Sound(m) && m.reach == n && RunReady(pmm.clear, second) && |pmm.clear| >= second + third
    ensures Pmm.IsLeast(m.kernelPagemap, old(pmm.clear)) && |old(pmm.clear) - pmm.clear| <= KernelBudget(n)
  {
    ghost var c0 := pmm.clear;
    m := new Mapper(pmm, n);
    ghost var kernel, c1 := m.kernelPagemap, pmm.clear;
    KernelFits(KernelForest(kernel), n);
    OneTaken(c0, kernel);
    MapKernel(m, memmap);
    AfterPaging(kernel, c0, c1, pmm.clear, n, second, third);
  }

  /** pmm_initialize and vmm_initialize. */
  method PowerUp(pmm: Pmm.FrameAllocator, memmap: array<Pmm.Entry>, ghost clear: set<nat>, ghost n: nat,
                 ghost second: nat, ghost third: nat) returns (m: Mapper)
    requires pmm.highestPage == 0 && Pmm.Bootable(memmap[..])
    requires n == DirectPages(Pmm.AfterBitmap(memmap[..])) <= IO_PAGES
    requires clear == Pmm.UsableFrames(Pmm.AfterBitmap(memmap[..])) && second + third > 0
    requires Roomy(clear, n, second, third)
    modifies pmm, memmap
    ensures fresh(m) && fresh(pmm.data) && m.pmm == pmm && pmm.size == Pmm.BitmapSize(Pmm.Top(old(memmap[..]))) >= 4
    ensures Sound(m) && m.reach == n && RunReady(pmm.clear, second) && |pmm.clear| >= second + third
    ensures Pmm.IsLeast(m.kernelPagemap, clear) && |clear - pmm.clear| <= KernelBudget(n)
  {
    BitmapPages(Pmm.Top(memmap[..]));
    var base := pmm.Initialize(memmap);
    m := InitializePaging(pmm, memmap, n, second, third);
  }

  /** pmm_initialize, vmm_initialize, a process, and a mapping for it, one after the other: nothing that one of them
      needs is spoiled by another. */
  method Boot(pmm: Pmm.FrameAllocator, memmap: array<Pmm.Entry>, p: Program, size: nat, used: nat, ghost at: nat)
    returns (m: Mapper, root: nat, rsp: nat, entryPoint: nat, atPhdr: nat, ok: bool, ghost phys: seq<nat>)
    requires pmm.highestPage == 0 && Pmm.Bootable(memmap[..]) && GoodProgram(p, Pmm.BitmapSize(Pmm.Top(memmap[..])))
    requires var es, pages := Pmm.AfterBitmap(memmap[..]), Mmap.PagesOf(size);
      && DirectPages(es) <= IO_PAGES
      && Roomy(Pmm.UsableFrames(es), DirectPages(es), ProcessBudget(p), TableBudget(pages) + pages)
    requires at == Mmap.Place(used) && at + Mmap.PagesOf(size) * PAGE_SIZE <= 0x8000_0000_0000
    modifies pmm, memmap
    ensures Sound(m) && m.pmm == pmm && m.reach == DirectPages(Pmm.AfterBitmap(old(memmap[..])))
    ensures Launched(m, p, at, size, root, rsp, entryPoint, atPhdr, ok, phys)
    ensures var clear := Pmm.UsableFrames(Pmm.AfterBitmap(old(memmap[..])));
      |FramesBelow(clear, KERNEL_PAGES)| > KernelBudget(m.reach) + 4 ==> ok
  {
    ghost var es, pages := Pmm.AfterBitmap(memmap[..]), Mmap.PagesOf(size);
    ghost var clear, n := Pmm.UsableFrames(es), DirectPages(es);
    m := PowerUp(pmm, memmap, clear, n, ProcessBudget(p), TableBudget(pages) + pages);
    ghost var rest := pmm.clear;
    root, rsp, entryPoint, atPhdr, ok, phys := Launch(m, p, size, used, at);
    TablesNear(clear, rest, m.kernelPagemap, root, KernelBudget(n));
  }
}
