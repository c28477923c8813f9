/** What keeps address spaces apart: no frame is reachable from the lower halves of two of them, and no
    reachable frame is clear or holds a page table. */
module Isolation {
  import opened Basics
  import opened PageTables
  import opened Paging
  import opened PageRuns

  /** The frame that a page of the lower half leads to. */
  ghost function LowerFrame(mem: Mem, f: Forest, r: nat, p: Page): Option<nat>
  {
    if r in f.roots && InRange(p) && p.a < 256 && Walk(mem, r, p).Some?
    then Some(FrameOf(Walk(mem, r, p).value))
    else None
  }

  /** A frame of data: taken, and not a table. */
  ghost predicate IsData(f: Forest, clear: set<nat>, fr: nat)
  {
    fr !in clear && fr !in f.owner
  }

  ghost predicate Isolated(mem: Mem, f: Forest, clear: set<nat>)
  {
    && (forall r, p {:trigger LowerFrame(mem, f, r, p)} ::
          LowerFrame(mem, f, r, p).Some? ==> IsData(f, clear, LowerFrame(mem, f, r, p).value))
    && (forall r, p, s, q {:trigger LowerFrame(mem, f, r, p), LowerFrame(mem, f, s, q)} ::
          LowerFrame(mem, f, r, p).Some? && LowerFrame(mem, f, r, p) == LowerFrame(mem, f, s, q) ==> r == s && p == q)
  }

  /** Each page has a frame of its own, one that was clear and now holds data. */
  ghost predicate OwnFrames(phys: seq<nat>, f': Forest, c: set<nat>, c': set<nat>)
  {
    && (forall i :: 0 <= i < |phys| ==>
          phys[i] % PAGE_SIZE == 0 && phys[i] / PAGE_SIZE in c && IsData(f', c', phys[i] / PAGE_SIZE))
    && (forall i, j :: 0 <= i < j < |phys| ==> phys[i] / PAGE_SIZE != phys[j] / PAGE_SIZE)
  }

  /** Mapping fresh frames, one to a page, keeps address spaces apart. */
  lemma FreshRunIsolated(w: Mem, w': Mem, f: Forest, f': Forest, c: set<nat>, c': set<nat>, root: nat, phys: seq<nat>,
                         virt: nat, flags: nat)
    requires Isolated(w, f, c) && RunMade(w, w', f, f', c, root, phys, virt, flags) && c' <= c
    requires OwnFrames(phys, f', c, c') && flags < FLAG_LIMIT && Present(flags)
    ensures Isolated(w', f', c')
  {
    forall r, p | LowerFrame(w', f', r, p).Some? ensures IsData(f', c', LowerFrame(w', f', r, p).value) {
      var i := FrameComesFrom(w, w', f, f', c, root, phys, virt, flags, r, p);
    }
    forall r, p, s, q | LowerFrame(w', f', r, p).Some? && LowerFrame(w', f', r, p) == LowerFrame(w', f', s, q)
      ensures r == s && p == q
    {
      var i := FrameComesFrom(w, w', f, f', c, root, phys, virt, flags, r, p);
      var j := FrameComesFrom(w, w', f, f', c, root, phys, virt, flags, s, q);
      assert LowerFrame(w, f, r, p).Some? ==> IsData(f, c, LowerFrame(w, f, r, p).value);
      assert LowerFrame(w, f, s, q).Some? ==> IsData(f, c, LowerFrame(w, f, s, q).value);
    }
  }

  /** A page leads to one of the run's frames, through the run's own page of `root`, or where it led. */
  lemma FrameComesFrom(w: Mem, w': Mem, f: Forest, f': Forest, c: set<nat>, root: nat, phys: seq<nat>, virt: nat,
                       flags: nat, r: nat, p: Page) returns (i: nat)
    requires RunMade(w, w', f, f', c, root, phys, virt, flags) && flags < FLAG_LIMIT && Present(flags)
    requires forall i :: 0 <= i < |phys| ==> phys[i] % PAGE_SIZE == 0
    requires LowerFrame(w', f', r, p).Some?
    ensures i <= |phys|
    ensures i < |phys| ==> r == root && PageAt(virt, i) == p && LowerFrame(w', f', r, p).value == phys[i] / PAGE_SIZE
    ensures i == |phys| ==> LowerFrame(w, f, r, p) == LowerFrame(w', f', r, p)
  {
    i := LeavesFrom(phys, virt, flags, p, Walk(w, r, p));
    LowerSees(f, root, r, p.a);
    if r != root {
      i := |phys|;
    } else if i < |phys| {
      LeafPresent(phys[i], flags);
    }
  }

  /** User pages from `virt` on were mapped to frames of their own, and no other frames were taken but for tables. */
  ghost predicate FreshRun(w0: Mem, w: Mem, f0: Forest, f: Forest, c0: set<nat>, c: set<nat>, root: nat, phys: seq<nat>,
                           virt: nat)
  {
    RunDone(w0, w, f0, f, c0, c, root, phys, virt, 7, |phys|) && OwnFrames(phys, f, c0, c)
  }

  lemma FreshRunKeepsApart(w0: Mem, w: Mem, f0: Forest, f: Forest, c0: set<nat>, c: set<nat>, root: nat, phys: seq<nat>,
                           virt: nat)
    requires FreshRun(w0, w, f0, f, c0, c, root, phys, virt)
    ensures Isolated(w0, f0, c0) ==> Isolated(w, f, c)
  {
    if Isolated(w0, f0, c0) {
      FreshRunIsolated(w0, w, f0, f, c0, c, root, phys, virt, 7);
    }
  }

  /** Making room without mapping anything in the lower half keeps address spaces apart. */
  lemma QuietIsolated(w: Mem, w': Mem, f: Forest, f': Forest, c: set<nat>, c': set<nat>)
    requires Isolated(w, f, c) && SameWalks(w, w', f.roots) && f.roots <= f'.roots && c' <= c
    requires forall fr :: fr in f'.owner ==> fr in f.owner || fr in c
    requires forall r, p {:trigger Walk(w', r, p)} ::
               r in f'.roots && r !in f.roots && InRange(p) && p.a < 256 ==> Walk(w', r, p) == None
    ensures Isolated(w', f', c')
  {
    forall r, p ensures LowerFrame(w', f', r, p) == LowerFrame(w, f, r, p) {
    }
    forall r, p | LowerFrame(w', f', r, p).Some? ensures IsData(f', c', LowerFrame(w', f', r, p).value) {
      assert IsData(f, c, LowerFrame(w, f, r, p).value);
    }
  }

  /** A byte written through a page of the lower half changes no table and no translation. */
  lemma WritesKeepTables(mem: Mem, f: Forest, clear: set<nat>, r: nat, p: Page, o: nat, b: Byte)
    requires Grown(mem, f, clear) && Isolated(mem, f, clear) && LowerFrame(mem, f, r, p).Some? && o < PAGE_SIZE
    requires LowerFrame(mem, f, r, p).value in mem && |mem[LowerFrame(mem, f, r, p).value]| == ENTRIES
    ensures var a := LowerFrame(mem, f, r, p).value * PAGE_SIZE + o;
      && a / PAGE_SIZE == LowerFrame(mem, f, r, p).value
      && var mem' := PutByte(mem, a, b);
      Grown(mem', f, clear) && SameWalks(mem, mem', f.roots) && Isolated(mem', f, clear)
  {
    var fr := LowerFrame(mem, f, r, p).value;
    FrameAddress(fr, o);
    var mem' := PutByte(mem, fr * PAGE_SIZE + o, b);
    assert IsData(f, clear, fr);
    TablesKept(mem, mem', f, clear, clear);
    LookupsAreWalks(mem, mem', f, f, clear, clear);
    QuietIsolated(mem, mem', f, f, clear, clear);
  }

  /** Nor does it change what is read through any other page of any lower half. */
  lemma WritesStayPrivate(mem: Mem, f: Forest, clear: set<nat>, r: nat, p: Page, o: nat, b: Byte, s: nat, q: Page,
                          i: nat)
    requires Grown(mem, f, clear) && Isolated(mem, f, clear) && o < PAGE_SIZE && i < PAGE_SIZE
    requires LowerFrame(mem, f, r, p).Some? && LowerFrame(mem, f, s, q).Some? && (s != r || q != p)
    requires LowerFrame(mem, f, r, p).value in mem && |mem[LowerFrame(mem, f, r, p).value]| == ENTRIES
    ensures var a, c := LowerFrame(mem, f, r, p).value * PAGE_SIZE + o, LowerFrame(mem, f, s, q).value * PAGE_SIZE + i;
      && a / PAGE_SIZE == LowerFrame(mem, f, r, p).value
      && ByteAt(PutByte(mem, a, b), c) == ByteAt(mem, c)
  {
    FrameAddress(LowerFrame(mem, f, r, p).value, o);
    FrameAddress(LowerFrame(mem, f, s, q).value, i);
  }

  lemma FrameAddress(fr: nat, o: nat)
    requires o < PAGE_SIZE
    ensures (fr * PAGE_SIZE + o) / PAGE_SIZE == fr && (fr * PAGE_SIZE + o) % PAGE_SIZE == o
  {
  }
}
