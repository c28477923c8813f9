/** Physical memory, and the four-level page tables in it: as the processor walks them and as a
    forest of tables, one tree for the kernel and one for the lower half of each process, whose
    upper half shares the kernel's tables. */
module PageTables {
  import opened Basics

  const ENTRIES: nat := 512
  /** Flag bits of an entry that the kernel uses. */
  const FLAG_LIMIT: nat := 0x200

  /** Physical memory: frame number to 512 words. */
  type Mem = map<nat, seq<nat>>

  /** The four table indices of a virtual page, topmost first. */
  datatype Page = Page(a: nat, b: nat, c: nat, d: nat)

  function PageOf(va: nat): (p: Page)
    ensures InRange(p)
  {
    Page(va / 0x80_0000_0000 % ENTRIES, va / 0x4000_0000 % ENTRIES, va / 0x20_0000 % ENTRIES, va / 0x1000 % ENTRIES)
  }

  predicate InRange(p: Page)
  {
    p.a < ENTRIES && p.b < ENTRIES && p.c < ENTRIES && p.d < ENTRIES
  }

  function Number(p: Page): nat
  {
    ((p.a * 512 + p.b) * 512 + p.c) * 512 + p.d
  }

  /** The four indices determine, and are determined by, address bits 12 to 47. */
  lemma SamePage(va: nat, vb: nat)
    ensures PageOf(va) == PageOf(vb) <==> va / 0x1000 % 0x10_0000_0000 == vb / 0x1000 % 0x10_0000_0000
  {
    var p, q := PageOf(va), PageOf(vb);
    IndicesAreBits(va);
    IndicesAreBits(vb);
    if Number(p) == Number(q) {
      SameDigit(((p.a * 512 + p.b) * 512 + p.c), p.d, ((q.a * 512 + q.b) * 512 + q.c), q.d);
      SameDigit(p.a * 512 + p.b, p.c, q.a * 512 + q.b, q.c);
      SameDigit(p.a, p.b, q.a, q.b);
    }
  }

  lemma SameDigit(x: nat, d: nat, y: nat, e: nat)
    requires x * 512 + d == y * 512 + e && d < 512 && e < 512
    ensures x == y && d == e
  {
  }

  lemma IndicesAreBits(va: nat)
    ensures va / 0x1000 % 0x10_0000_0000 == Number(PageOf(va))
  {
    var v1, v2, v3, v4 := va / 0x1000, va / 0x20_0000, va / 0x4000_0000, va / 0x80_0000_0000;
    assert v2 == v1 / 512 && v3 == v2 / 512 && v4 == v3 / 512;
    Digits(v1, v2, v3, v4);
  }

  lemma Digits(v1: nat, v2: nat, v3: nat, v4: nat)
    requires v2 == v1 / 512 && v3 == v2 / 512 && v4 == v3 / 512
    ensures v1 % 0x10_0000_0000 == ((v4 % 512 * 512 + v3 % 512) * 512 + v2 % 512) * 512 + v1 % 512
  {
    var d1, d2, d3, d4, v5 := v1 % 512, v2 % 512, v3 % 512, v4 % 512, v4 / 512;
    assert v1 == 512 * v2 + d1 && v2 == 512 * v3 + d2 && v3 == 512 * v4 + d3 && v4 == 512 * v5 + d4;
    Remainder(v1, v5, ((d4 * 512 + d3) * 512 + d2) * 512 + d1);
  }

  lemma Remainder(x: nat, q: nat, r: nat)
    requires x == 0x10_0000_0000 * q + r && r < 0x10_0000_0000
    ensures x % 0x10_0000_0000 == r
  {
  }

  lemma DifferentNumbers(va: nat, vb: nat)
    requires va / 0x1000 != vb / 0x1000 && va / 0x1000 < 0x10_0000_0000 && vb / 0x1000 < 0x10_0000_0000
    ensures PageOf(va) != PageOf(vb)
  {
    SamePage(va, vb);
  }

  // ----- The walk ---------------------------------------------------------------

  function Word(mem: Mem, frame: nat, i: nat): nat
  {
    if frame in mem && i < |mem[frame]| then mem[frame][i] else 0
  }

  predicate Present(e: nat)
  {
    e % 2 == 1
  }

  function FrameOf(e: nat): nat
  {
    e / PAGE_SIZE
  }

  /** The entry that maps page `p` under the top-level table `root`, if there is one. */
  function Walk(mem: Mem, root: nat, p: Page): Option<nat>
  {
    var e4 := Word(mem, root, p.a);
    if !Present(e4) then None
    else
      var e3 := Word(mem, FrameOf(e4), p.b);
      if !Present(e3) then None
      else
        var e2 := Word(mem, FrameOf(e3), p.c);
        if !Present(e2) then None
        else
          var e1 := Word(mem, FrameOf(e2), p.d);
          if Present(e1) then Some(e1) else None
  }

  /** The physical address behind a virtual one. */
  function Translate(mem: Mem, root: nat, va: nat): Option<nat>
  {
    match Walk(mem, root, PageOf(va))
    case None => None
    case Some(e) => Some(FrameOf(e) * PAGE_SIZE + va % PAGE_SIZE)
  }

  // ----- The forest of tables ------------------------------------------------------

  /** Where a table hangs below its top-level table. */
  datatype Place = Top | Third(a: nat) | Second(a: nat, b: nat) | First(a: nat, b: nat, c: nat)

  datatype Key = Key(root: nat, at: Place)

  function Below(k: Key, i: nat): Key
    requires !k.at.First?
  {
    match k.at
    case Top => Key(k.root, Third(i))
    case Third(a) => Key(k.root, Second(a, i))
    case Second(a, b) => Key(k.root, First(a, b, i))
  }

  function Above(k: Key): Key
    requires !k.at.Top?
  {
    match k.at
    case Third(a) => Key(k.root, Top)
    case Second(a, b) => Key(k.root, Third(a))
    case First(a, b, c) => Key(k.root, Second(a, b))
  }

  function LastIndex(k: Key): nat
    requires !k.at.Top?
  {
    match k.at
    case Third(a) => a
    case Second(a, b) => b
    case First(a, b, c) => c
  }

  /** Which frame holds which table, for every address space.  `own` are the slots of the upper half in
      which an address space no longer shows what the kernel's shows. */
  datatype Forest = Forest(node: map<Key, nat>, owner: map<nat, Key>, kernel: nat, roots: set<nat>,
                           own: set<(nat, nat)>)

  /** Entry `i` of table `k` belongs to the tree of its root; an upper entry of another top-level table
      than the kernel's belongs to the kernel's tree unless that address space went its own way there. */
  predicate Own(f: Forest, k: Key, i: nat)
  {
    k.at.Top? && k.root != f.kernel ==> i < 256 || (k.root, i) in f.own
  }

  /** The tree in which slot `a` of address space `r` is looked up. */
  function Owner(f: Forest, r: nat, a: nat): nat
  {
    if Own(f, Key(r, Top), a) then r else f.kernel
  }

  /** The tree in which the page mapper writes when it is given address space `root`: as it fills an
      empty slot in that very table, a slot that the kernel's does not have becomes its own. */
  function Holder(f: Forest, root: nat, a: nat): nat
  {
    if Own(f, Key(root, Top), a) || Key(f.kernel, Third(a)) !in f.node then root else f.kernel
  }

  /** A mapping made in slot `a` of address space `root` shows up in address space `r`. */
  predicate Sees(f: Forest, root: nat, r: nat, a: nat)
  {
    r == root || (Key(Holder(f, root, a), Third(a)) in f.node && Owner(f, r, a) == Holder(f, root, a))
  }

  ghost predicate NodeOk(mem: Mem, f: Forest, k: Key)
  {
    && k in f.node && k.root in f.roots
    && f.node[k] in mem && |mem[f.node[k]]| == ENTRIES
    && f.node[k] in f.owner && f.owner[f.node[k]] == k
    && (k.at.Top? ==> f.node[k] == k.root)
    && (!k.at.Top? ==> Above(k) in f.node && LastIndex(k) < ENTRIES && Own(f, Above(k), LastIndex(k)))
  }

  ghost predicate EntryOk(mem: Mem, f: Forest, k: Key, i: nat)
  {
    k in f.node && !k.at.First? && Own(f, k, i) ==>
      var e := Word(mem, f.node[k], i);
      && (Present(e) <==> Below(k, i) in f.node)
      && (Present(e) ==> FrameOf(e) == f.node[Below(k, i)] && e % PAGE_SIZE < FLAG_LIMIT)
  }

  ghost predicate SharedAt(mem: Mem, f: Forest, r: nat, i: nat)
  {
    r in f.roots && 256 <= i < ENTRIES && !Own(f, Key(r, Top), i) ==> Word(mem, r, i) == Word(mem, f.kernel, i)
  }

  /** Every table has one place, no table is in a clear frame, and memory says the same. */
  ghost predicate Grown(mem: Mem, f: Forest, clear: set<nat>)
  {
    && f.kernel in f.roots && (forall r :: r in f.roots ==> Key(r, Top) in f.node)
    && (forall s :: s in f.own ==> s.0 in f.roots && s.0 != f.kernel && 256 <= s.1 < ENTRIES)
    && (forall k {:trigger NodeOk(mem, f, k)} :: k in f.node ==> NodeOk(mem, f, k))
    && (forall fr {:trigger f.owner[fr]} :: fr in f.owner ==>
          f.owner[fr] in f.node && f.node[f.owner[fr]] == fr && fr !in clear)
    && (forall k, i: nat {:trigger EntryOk(mem, f, k, i)} :: k in f.node && i < ENTRIES ==> EntryOk(mem, f, k, i))
    && (forall r, i: nat {:trigger SharedAt(mem, f, r, i)} :: SharedAt(mem, f, r, i))
  }

  /** The entry for page `p` of address space `r`, found through the forest. */
  ghost function Lookup(mem: Mem, f: Forest, r: nat, p: Page): Option<nat>
  {
    var k := Key(Owner(f, r, p.a), First(p.a, p.b, p.c));
    if k in f.node && Present(Word(mem, f.node[k], p.d)) then Some(Word(mem, f.node[k], p.d)) else None
  }

  /** The processor's walk and the forest agree. */
  lemma WalkIsLookup(mem: Mem, f: Forest, clear: set<nat>, r: nat, p: Page)
    requires Grown(mem, f, clear) && r in f.roots && InRange(p)
    ensures Walk(mem, r, p) == Lookup(mem, f, r, p)
  {
    var o := Owner(f, r, p.a);
    var k4, k3, k2, k1 := Key(o, Top), Key(o, Third(p.a)), Key(o, Second(p.a, p.b)), Key(o, First(p.a, p.b, p.c));
    assert NodeOk(mem, f, k4) && NodeOk(mem, f, Key(r, Top));
    assert o != r ==> SharedAt(mem, f, r, p.a);
    assert EntryOk(mem, f, k4, p.a);
    assert k3 in f.node ==> EntryOk(mem, f, k3, p.b);
    assert k2 in f.node ==> EntryOk(mem, f, k2, p.c) && NodeOk(mem, f, k2);
    assert k1 in f.node ==> NodeOk(mem, f, k1);
  }

  /** No frame holds two tables. */
  lemma TablesDistinct(mem: Mem, f: Forest, clear: set<nat>, k: Key, l: Key)
    requires Grown(mem, f, clear) && k in f.node && l in f.node && k != l
    ensures f.node[k] != f.node[l]
  {
    assert NodeOk(mem, f, k) && NodeOk(mem, f, l);
  }

  /** An address space shows the upper half as the kernel's does, except in slots of its own. */
  lemma UpperHalfShared(mem: Mem, f: Forest, clear: set<nat>, r: nat, p: Page)
    requires Grown(mem, f, clear) && r in f.roots && InRange(p) && p.a >= 256 && (r, p.a) !in f.own
    ensures Walk(mem, r, p) == Walk(mem, f.kernel, p)
  {
    WalkIsLookup(mem, f, clear, r, p);
    WalkIsLookup(mem, f, clear, f.kernel, p);
  }

  // ----- What the writes of the page mapper do ----------------------------------------

  function ZeroTable(): (t: seq<nat>)
    ensures |t| == ENTRIES && forall i :: 0 <= i < ENTRIES ==> t[i] == 0
  {
    seq(ENTRIES, _ => 0)
  }

  /** A new table in frame `fr` below entry `i` of table `k`. */
  function WithTable(mem: Mem, f: Forest, k: Key, i: nat, fr: nat, flags: nat): Mem
    requires k in f.node && f.node[k] in mem && i < |mem[f.node[k]]|
  {
    var table: seq<nat> := mem[f.node[k]][i := fr * PAGE_SIZE + flags];
    mem[fr := ZeroTable()][f.node[k] := table]
  }

  /** The slots that stop being shared when table `n` is made. */
  ghost function Divided(f: Forest, n: Key): set<(nat, nat)>
  {
    if n.at.Third? && n.at.a >= 256 then
      if n.root == f.kernel then set r | r in f.roots && r != f.kernel :: (r, n.at.a) else {(n.root, n.at.a)}
    else {}
  }

  ghost function WithNode(f: Forest, k: Key, fr: nat): Forest
  {
    f.(node := f.node[k := fr], owner := f.owner[fr := k], own := f.own + Divided(f, k))
  }

  /** Entry `i` of table `k` is empty, and the tree of `k`'s root may grow there. */
  ghost predicate Room(mem: Mem, f: Forest, k: Key, i: nat)
  {
    && k in f.node && !k.at.First? && i < ENTRIES && f.node[k] in mem && |mem[f.node[k]]| == ENTRIES
    && !Present(mem[f.node[k]][i]) && (Own(f, k, i) || Key(f.kernel, Third(i)) !in f.node)
  }

  lemma TableAdded(mem: Mem, f: Forest, clear: set<nat>, k: Key, i: nat, fr: nat, flags: nat)
    requires Grown(mem, f, clear) && Room(mem, f, k, i)
    requires fr in clear && flags < FLAG_LIMIT && Present(flags)
    ensures Grown(WithTable(mem, f, k, i, fr, flags), WithNode(f, Below(k, i), fr), clear - {fr})
    ensures SameLookups(mem, WithTable(mem, f, k, i, fr, flags), f, WithNode(f, Below(k, i), fr))
  {
    var mem', f', n := WithTable(mem, f, k, i, fr, flags), WithNode(f, Below(k, i), fr), Below(k, i);
    NoTableYet(mem, f, clear, k, i);
    forall l | l in f'.node ensures NodeOk(mem', f', l) {
      assert NodeOk(mem, f, k) && (l != n ==> NodeOk(mem, f, l));
    }
    forall l, j: nat | l in f'.node && j < ENTRIES ensures EntryOk(mem', f', l, j) {
      TableAddedEntry(mem, f, clear, k, i, fr, flags, l, j);
    }
    forall r, j: nat ensures SharedAt(mem', f', r, j) {
      TableAddedShared(mem, f, clear, k, i, fr, flags, r, j);
    }
    assert NodeOk(mem, f, k);
    TableAddedLookups(mem, f, clear, k, i, fr, flags);
  }

  /** Where there is room there is no table. */
  lemma NoTableYet(mem: Mem, f: Forest, clear: set<nat>, k: Key, i: nat)
    requires Grown(mem, f, clear) && Room(mem, f, k, i)
    ensures Below(k, i) !in f.node
  {
    assert EntryOk(mem, f, k, i);
    assert Below(k, i) in f.node ==> NodeOk(mem, f, Below(k, i));
  }

  lemma TableAddedShared(mem: Mem, f: Forest, clear: set<nat>, k: Key, i: nat, fr: nat, flags: nat, r: nat, j: nat)
    requires Grown(mem, f, clear) && Room(mem, f, k, i) && fr in clear
    ensures SharedAt(WithTable(mem, f, k, i, fr, flags), WithNode(f, Below(k, i), fr), r, j)
  {
    assert SharedAt(mem, f, r, j) && NodeOk(mem, f, k) && NodeOk(mem, f, Key(f.kernel, Top));
    if r in f.roots {
      assert NodeOk(mem, f, Key(r, Top));
    }
  }

  /** A new table is empty: no lookup finds anything new in it. */
  lemma TableAddedLookups(mem: Mem, f: Forest, clear: set<nat>, k: Key, i: nat, fr: nat, flags: nat)
    requires Grown(mem, f, clear) && Room(mem, f, k, i) && fr in clear && Below(k, i) !in f.node
    ensures SameLookups(mem, WithTable(mem, f, k, i, fr, flags), f, WithNode(f, Below(k, i), fr))
  {
    var mem', f' := WithTable(mem, f, k, i, fr, flags), WithNode(f, Below(k, i), fr);
    assert NodeOk(mem, f, k);
    forall r, p | r in f.roots ensures Lookup(mem', f', r, p) == Lookup(mem, f, r, p) {
      var o, o' := Owner(f, r, p.a), Owner(f', r, p.a);
      var q := Key(o, First(p.a, p.b, p.c));
      assert q in f.node ==> NodeOk(mem, f, q);
      if o != o' {
        assert Key(o, Third(p.a)) in f.node ==> NodeOk(mem, f, Key(o, Third(p.a)));
        assert Key(o', Third(p.a)) in f.node ==> NodeOk(mem, f, Key(o', Third(p.a)));
        NoTablesBelow(mem, f, clear, o, p);
        NoTablesBelow(mem, f, clear, o', p);
      }
    }
  }

  /** Without a table in its slot, a page has no table at all. */
  lemma NoTablesBelow(mem: Mem, f: Forest, clear: set<nat>, o: nat, p: Page)
    requires Grown(mem, f, clear) && Key(o, Third(p.a)) !in f.node
    ensures Key(o, First(p.a, p.b, p.c)) !in f.node
  {
    var q, s := Key(o, First(p.a, p.b, p.c)), Key(o, Second(p.a, p.b));
    assert q in f.node ==> NodeOk(mem, f, q);
    assert s in f.node ==> NodeOk(mem, f, s);
  }

  /** An entry made of a frame and flags gives both back. */
  lemma EntryParts(fr: nat, flags: nat)
    requires flags < FLAG_LIMIT && Present(flags)
    ensures var e := fr * PAGE_SIZE + flags; Present(e) && FrameOf(e) == fr && e % PAGE_SIZE == flags
  {
    assert fr * PAGE_SIZE + flags == 2 * (2048 * fr) + flags;
  }

  lemma TableAddedEntry(mem: Mem, f: Forest, clear: set<nat>, k: Key, i: nat, fr: nat, flags: nat, l: Key, j: nat)
    requires Grown(mem, f, clear) && Room(mem, f, k, i) && Below(k, i) !in f.node
    requires fr in clear && flags < FLAG_LIMIT && Present(flags) && j < ENTRIES
    requires l in f.node || l == Below(k, i)
    ensures EntryOk(WithTable(mem, f, k, i, fr, flags), WithNode(f, Below(k, i), fr), l, j)
  {
    var mem', f', n := WithTable(mem, f, k, i, fr, flags), WithNode(f, Below(k, i), fr), Below(k, i);
    EntryParts(fr, flags);
    assert NodeOk(mem, f, k);
    if l == n {
      assert !l.at.First? && Below(l, j) in f.node ==> NodeOk(mem, f, Below(l, j));
    } else {
      assert NodeOk(mem, f, l) && EntryOk(mem, f, l, j);
      assert f.node[l] == f.node[k] ==> l == k;
      if Own(f', l, j) && !Own(f, l, j) {
        NewlyOwn(mem, f, clear, k, i, l, j);
      }
    }
  }

  /** A slot that stops being shared was empty. */
  lemma NewlyOwn(mem: Mem, f: Forest, clear: set<nat>, k: Key, i: nat, l: Key, j: nat)
    requires Grown(mem, f, clear) && Room(mem, f, k, i) && Below(k, i) !in f.node && l in f.node && j < ENTRIES
    requires (l.root, j) in Divided(f, Below(k, i)) && l.at.Top? && !Own(f, l, j)
    ensures j == i && !Present(Word(mem, f.node[l], j)) && Below(l, j) !in f.node
  {
    assert NodeOk(mem, f, l) && SharedAt(mem, f, l.root, j) && NodeOk(mem, f, Key(f.kernel, Top));
    assert EntryOk(mem, f, Key(f.kernel, Top), j);
    assert Below(l, j) in f.node ==> NodeOk(mem, f, Below(l, j));
  }

  function WithWord(mem: Mem, frame: nat, i: nat, e: nat): Mem
    requires frame in mem && i < |mem[frame]|
  {
    var table: seq<nat> := mem[frame][i := e];
    mem[frame := table]
  }

  lemma LeafSet(mem: Mem, f: Forest, clear: set<nat>, k: Key, d: nat, e: nat)
    requires Grown(mem, f, clear) && k in f.node && k.at.First? && d < ENTRIES
    requires f.node[k] in mem && |mem[f.node[k]]| == ENTRIES
    ensures Grown(WithWord(mem, f.node[k], d, e), f, clear)
    ensures forall r, p :: r in f.roots ==>
              Lookup(WithWord(mem, f.node[k], d, e), f, r, p) ==
              if k == Key(Owner(f, r, p.a), First(p.a, p.b, p.c)) && p.d == d
              then (if Present(e) then Some(e) else None) else Lookup(mem, f, r, p)
  {
    var mem' := WithWord(mem, f.node[k], d, e);
    assert NodeOk(mem, f, k);
    forall l | l in f.node ensures NodeOk(mem', f, l) {
      assert NodeOk(mem, f, l);
    }
    forall l, j: nat | l in f.node && j < ENTRIES ensures EntryOk(mem', f, l, j) {
      assert EntryOk(mem, f, l, j) && NodeOk(mem, f, l);
    }
    forall r, j: nat ensures SharedAt(mem', f, r, j) {
      assert SharedAt(mem, f, r, j) && NodeOk(mem, f, Key(f.kernel, Top));
      assert r in f.roots ==> NodeOk(mem, f, Key(r, Top));
    }
    forall r, p | r in f.roots
      ensures Lookup(mem', f, r, p) ==
              if k == Key(Owner(f, r, p.a), First(p.a, p.b, p.c)) && p.d == d
              then (if Present(e) then Some(e) else None) else Lookup(mem, f, r, p)
    {
      var q := Key(Owner(f, r, p.a), First(p.a, p.b, p.c));
      if q in f.node {
        assert NodeOk(mem, f, q);
      }
    }
  }

  /** What leaves the frames of all tables alone keeps the forest and every lookup. */
  lemma TablesKept(mem: Mem, mem': Mem, f: Forest, clear: set<nat>, clear': set<nat>)
    requires Grown(mem, f, clear) && clear' <= clear
    requires forall fr :: fr in f.owner && fr in mem ==> fr in mem' && mem'[fr] == mem[fr]
    ensures Grown(mem', f, clear')
    ensures SameLookups(mem, mem', f, f)
  {
    forall l | l in f.node ensures NodeOk(mem', f, l) {
      assert NodeOk(mem, f, l);
    }
    forall l, j: nat | l in f.node && j < ENTRIES ensures EntryOk(mem', f, l, j) {
      assert EntryOk(mem, f, l, j);
      assert NodeOk(mem, f, l);
    }
    forall r, j: nat ensures SharedAt(mem', f, r, j) {
      assert SharedAt(mem, f, r, j) && NodeOk(mem, f, Key(f.kernel, Top));
      assert r in f.roots ==> NodeOk(mem, f, Key(r, Top));
    }
    forall r, p | r in f.roots ensures Lookup(mem', f, r, p) == Lookup(mem, f, r, p) {
      var q := Key(Owner(f, r, p.a), First(p.a, p.b, p.c));
      assert q in f.node ==> NodeOk(mem, f, q);
    }
  }

  ghost function WithRoot(f: Forest, fr: nat): Forest
  {
    f.(node := f.node[Key(fr, Top) := fr], owner := f.owner[fr := Key(fr, Top)], roots := f.roots + {fr})
  }

  /** A top-level table for a new process, in frame `fr`: nothing below, the kernel's entries above. */
  lemma RootAdded(mem: Mem, f: Forest, clear: set<nat>, fr: nat, table: seq<nat>)
    requires Grown(mem, f, clear) && fr in clear && |table| == ENTRIES
    requires forall i :: 0 <= i < ENTRIES ==> table[i] == if i < 256 then 0 else Word(mem, f.kernel, i)
    ensures fr !in f.roots
    ensures Grown(mem[fr := table], WithRoot(f, fr), clear - {fr})
    ensures SameLookups(mem, mem[fr := table], f, WithRoot(f, fr))
    ensures forall p :: Lookup(mem[fr := table], WithRoot(f, fr), fr, p) ==
                        if p.a < 256 then None else Lookup(mem, f, f.kernel, p)
  {
    var k, mem', f' := Key(fr, Top), mem[fr := table], WithRoot(f, fr);
    forall r | r in f.roots ensures r != fr {
      assert NodeOk(mem, f, Key(r, Top));
    }
    forall l | l in f.node ensures l.root != fr && NodeOk(mem', f', l) {
      assert NodeOk(mem, f, l);
    }
    RootAddedEntries(mem, mem', f, f', clear, fr, table);
    RootAddedLookups(mem, f, clear, fr, table);
  }

  lemma RootAddedEntries(mem: Mem, mem': Mem, f: Forest, f': Forest, clear: set<nat>, fr: nat, table: seq<nat>)
    requires Grown(mem, f, clear) && fr in clear && |table| == ENTRIES && fr !in f.roots
    requires mem' == mem[fr := table] && f' == WithRoot(f, fr)
    requires forall l :: l in f.node ==> l.root != fr
    requires forall i :: 0 <= i < ENTRIES ==> table[i] == if i < 256 then 0 else Word(mem, f.kernel, i)
    ensures forall l, j: nat {:trigger EntryOk(mem', f', l, j)} ::
              l in f'.node && j < ENTRIES ==> EntryOk(mem', f', l, j)
    ensures forall r, j: nat {:trigger SharedAt(mem', f', r, j)} :: SharedAt(mem', f', r, j)
  {
    var k := Key(fr, Top);
    forall l, j: nat | l in f'.node && j < ENTRIES ensures EntryOk(mem', f', l, j) {
      if l != k {
        assert EntryOk(mem, f, l, j) && NodeOk(mem, f, l);
      }
    }
    forall r, j: nat ensures SharedAt(mem', f', r, j) {
      assert NodeOk(mem, f, Key(f.kernel, Top)) && SharedAt(mem, f, r, j);
      assert r in f.roots ==> NodeOk(mem, f, Key(r, Top));
    }
  }

  lemma RootAddedLookups(mem: Mem, f: Forest, clear: set<nat>, fr: nat, table: seq<nat>)
    requires Grown(mem, f, clear) && fr in clear && |table| == ENTRIES && fr !in f.roots
    ensures SameLookups(mem, mem[fr := table], f, WithRoot(f, fr))
    ensures forall p :: Lookup(mem[fr := table], WithRoot(f, fr), fr, p) ==
                        if p.a < 256 then None else Lookup(mem, f, f.kernel, p)
  {
    var mem', f' := mem[fr := table], WithRoot(f, fr);
    forall r, p | r in f.roots ensures Lookup(mem', f', r, p) == Lookup(mem, f, r, p) {
      var q := Key(Owner(f, r, p.a), First(p.a, p.b, p.c));
      assert q in f.node ==> NodeOk(mem, f, q);
    }
    forall l | l in f.node ensures l.root != fr {
      assert NodeOk(mem, f, l);
    }
    forall p ensures Lookup(mem', f', fr, p) == if p.a < 256 then None else Lookup(mem, f, f.kernel, p) {
      var q := Key(f.kernel, First(p.a, p.b, p.c));
      assert q in f.node ==> NodeOk(mem, f, q);
    }
  }

  /** All walks from `roots` end as they did. */
  ghost predicate SameWalks(mem: Mem, mem': Mem, roots: set<nat>)
  {
    forall r, p {:trigger Walk(mem', r, p)} :: r in roots && InRange(p) ==> Walk(mem', r, p) == Walk(mem, r, p)
  }

  lemma SameWalksTrans(m0: Mem, m1: Mem, m2: Mem, roots: set<nat>)
    requires SameWalks(m0, m1, roots) && SameWalks(m1, m2, roots)
    ensures SameWalks(m0, m2, roots)
  {
    forall r, p | r in roots && InRange(p) ensures Walk(m2, r, p) == Walk(m0, r, p) {
      assert Walk(m1, r, p) == Walk(m0, r, p);
    }
  }

  /** Page `page` ends at `e` in every address space that sees what is mapped in `root`; all other walks
      end as they did. */
  ghost predicate WalksBut(mem: Mem, mem': Mem, f: Forest, root: nat, page: Page, e: Option<nat>)
  {
    forall r, p {:trigger Walk(mem', r, p)} :: r in f.roots && InRange(p) ==>
      Walk(mem', r, p) == if p == page && Sees(f, root, r, page.a) then e else Walk(mem, r, p)
  }

  ghost predicate SameLookups(mem: Mem, mem': Mem, f: Forest, f': Forest)
  {
    forall r, p {:trigger Lookup(mem', f', r, p)} :: r in f.roots ==> Lookup(mem', f', r, p) == Lookup(mem, f, r, p)
  }

  lemma LookupsAreWalks(mem: Mem, mem': Mem, f: Forest, f': Forest, clear: set<nat>, clear': set<nat>)
    requires Grown(mem, f, clear) && Grown(mem', f', clear') && f.roots <= f'.roots && SameLookups(mem, mem', f, f')
    ensures SameWalks(mem, mem', f.roots)
  {
    forall r, p | r in f.roots && InRange(p) ensures Walk(mem', r, p) == Walk(mem, r, p) {
      WalkIsLookup(mem, f, clear, r, p);
      WalkIsLookup(mem', f', clear', r, p);
    }
  }

  lemma EmptyForest(fr: nat, clear: set<nat>)
    requires fr !in clear
    ensures Grown(map[fr := ZeroTable()], Forest(map[Key(fr, Top) := fr], map[fr := Key(fr, Top)], fr, {fr}, {}), clear)
    ensures forall p :: Walk(map[fr := ZeroTable()], fr, p) == None
  {
    var mem := map[fr := ZeroTable()];
    var f := Forest(map[Key(fr, Top) := fr], map[fr := Key(fr, Top)], fr, {fr}, {});
    assert NodeOk(mem, f, Key(fr, Top));
    forall k, i: nat | k in f.node && i < ENTRIES ensures EntryOk(mem, f, k, i) {}
  }

  lemma SameLookupsTrans(m0: Mem, m1: Mem, m2: Mem, f0: Forest, f1: Forest, f2: Forest)
    requires SameLookups(m0, m1, f0, f1) && SameLookups(m1, m2, f1, f2) && f0.roots <= f1.roots
    ensures SameLookups(m0, m2, f0, f2)
  {
    forall r, p | r in f0.roots ensures Lookup(m2, f2, r, p) == Lookup(m0, f0, r, p) {
      assert Lookup(m1, f1, r, p) == Lookup(m0, f0, r, p);
    }
  }

  // ----- Growing a forest for one address space -------------------------------------------------

  /** `f'` is `f` with more tables, all of them in frames of `clear`, made for address space `root`. */
  ghost predicate Extended(f: Forest, f': Forest, root: nat, clear: set<nat>)
  {
    && f'.kernel == f.kernel && f'.roots == f.roots
    && (forall k :: k in f.node ==> k in f'.node && f'.node[k] == f.node[k])
    && (forall fr :: fr in f'.owner ==> fr in f.owner || fr in clear)
    && (forall fr :: fr in f.owner ==> fr in f'.owner)
    && SameSight(f, f', root)
  }

  /** What is mapped in `root` goes into the same trees and is seen in the same address spaces. */
  ghost predicate SameSight(f: Forest, f': Forest, root: nat)
  {
    && (forall a: nat {:trigger Holder(f', root, a)} :: Holder(f', root, a) == Holder(f, root, a))
    && (forall r, a: nat {:trigger Sees(f', root, r, a)} ::
          r in f.roots ==> (Sees(f', root, r, a) <==> Sees(f, root, r, a)))
  }

  lemma ExtendedTrans(f0: Forest, f1: Forest, f2: Forest, root: nat, c0: set<nat>, c1: set<nat>)
    requires Extended(f0, f1, root, c0) && Extended(f1, f2, root, c1) && c1 <= c0
    ensures Extended(f0, f2, root, c0)
  {
    forall a: nat ensures Holder(f2, root, a) == Holder(f0, root, a) {
      assert Holder(f1, root, a) == Holder(f0, root, a);
    }
    forall r, a: nat | r in f0.roots ensures Sees(f2, root, r, a) <==> Sees(f0, root, r, a) {
      assert Sees(f1, root, r, a) <==> Sees(f0, root, r, a);
    }
  }

  /** The table that entry `i` of table `k` leads to, or will lead to once it is made. */
  function Next(f: Forest, k: Key, i: nat): Key
    requires !k.at.First?
  {
    if k.at.Top? then Key(Holder(f, k.root, i), Third(i)) else Below(k, i)
  }

  /** An entry is present exactly when the table it leads to exists. */
  lemma NextIs(mem: Mem, f: Forest, clear: set<nat>, k: Key, i: nat)
    requires Grown(mem, f, clear) && k in f.node && !k.at.First? && i < ENTRIES
    ensures NodeOk(mem, f, k)
    ensures var e := Word(mem, f.node[k], i);
      && (Present(e) <==> Next(f, k, i) in f.node)
      && (Present(e) ==> FrameOf(e) == f.node[Next(f, k, i)] && e % PAGE_SIZE < FLAG_LIMIT)
      && (!Present(e) ==> Room(mem, f, k, i) && Next(f, k, i) == Below(k, i))
  {
    assert NodeOk(mem, f, k) && EntryOk(mem, f, k, i);
    assert NodeOk(mem, f, Key(f.kernel, Top)) && EntryOk(mem, f, Key(f.kernel, Top), i);
    assert k.at.Top? ==> SharedAt(mem, f, k.root, i);
    assert Below(k, i) in f.node ==> NodeOk(mem, f, Below(k, i));
  }

  lemma NodeExtends(mem: Mem, f: Forest, clear: set<nat>, root: nat, k: Key, i: nat, fr: nat)
    requires Grown(mem, f, clear) && Room(mem, f, k, i) && fr in clear && i < ENTRIES
    requires k.at.Top? ==> k.root == root
    requires root in f.roots
    ensures Extended(f, WithNode(f, Below(k, i), fr), root, clear)
  {
    var f' := WithNode(f, Below(k, i), fr);
    NoTableYet(mem, f, clear, k, i);
    forall a: nat ensures Holder(f', root, a) == Holder(f, root, a) {
    }
    forall r, a: nat | r in f.roots ensures Sees(f', root, r, a) <==> Sees(f, root, r, a) {
      SeesSame(mem, f, clear, root, k, i, fr, r, a);
    }
  }

  lemma SeesSame(mem: Mem, f: Forest, clear: set<nat>, root: nat, k: Key, i: nat, fr: nat, r: nat, a: nat)
    requires Grown(mem, f, clear) && Room(mem, f, k, i) && fr in clear && i < ENTRIES && Below(k, i) !in f.node
    requires k.at.Top? ==> k.root == root
    requires root in f.roots && r in f.roots
    ensures Sees(WithNode(f, Below(k, i), fr), root, r, a) <==> Sees(f, root, r, a)
  {
    var f' := WithNode(f, Below(k, i), fr);
    assert Holder(f', root, a) == Holder(f, root, a);
  }

  /** The three tables below the top level through which page `p` of address space `root` is mapped. */
  function TablesFor(f: Forest, root: nat, p: Page): set<Key>
  {
    var h := Holder(f, root, p.a);
    {Key(h, Third(p.a)), Key(h, Second(p.a, p.b)), Key(h, First(p.a, p.b, p.c))}
  }

  /** Tables found or made without changing a lookup, then one leaf written. */
  lemma LeafWritten(mem: Mem, mem1: Mem, f: Forest, f1: Forest, clear: set<nat>, clear1: set<nat>, root: nat,
                    page: Page, e: nat)
    requires Grown(mem, f, clear) && Grown(mem1, f1, clear1) && SameLookups(mem, mem1, f, f1)
    requires Extended(f, f1, root, clear) && InRange(page) && root in f.roots
    requires TablesFor(f, root, page) <= f1.node.Keys
    ensures var t := f1.node[Key(Holder(f, root, page.a), First(page.a, page.b, page.c))];
            && t in mem1 && |mem1[t]| == ENTRIES && t in f1.owner
            && Grown(WithWord(mem1, t, page.d, e), f1, clear1)
            && WalksBut(mem, WithWord(mem1, t, page.d, e), f, root, page, if Present(e) then Some(e) else None)
  {
    var h := Holder(f, root, page.a);
    var k := Key(h, First(page.a, page.b, page.c));
    assert Key(h, Third(page.a)) in f1.node;
    assert NodeOk(mem1, f1, k);
    LeafSet(mem1, f1, clear1, k, page.d, e);
    var mem2 := WithWord(mem1, f1.node[k], page.d, e);
    forall r, p | r in f.roots && InRange(p)
      ensures Walk(mem2, r, p) ==
              if p == page && Sees(f, root, r, page.a) then (if Present(e) then Some(e) else None) else Walk(mem, r, p)
    {
      WalkIsLookup(mem, f, clear, r, p);
      WalkIsLookup(mem2, f1, clear1, r, p);
      assert Lookup(mem1, f1, r, p) == Lookup(mem, f, r, p);
      OwnersSee(mem1, f1, clear1, root, r, page.a);
      assert Sees(f1, root, r, page.a) <==> Sees(f, root, r, page.a);
    }
  }

  /** Where there is a table, exactly the address spaces that look the slot up in its tree see it. */
  lemma OwnersSee(mem: Mem, f: Forest, clear: set<nat>, root: nat, r: nat, a: nat)
    requires Grown(mem, f, clear) && root in f.roots && r in f.roots && Key(Holder(f, root, a), Third(a)) in f.node
    ensures Sees(f, root, r, a) <==> Owner(f, r, a) == Holder(f, root, a)
  {
    assert NodeOk(mem, f, Key(Holder(f, root, a), Third(a)));
  }

  /** All address spaces that see what is mapped in `root` show the same there. */
  lemma SeenAlike(mem: Mem, f: Forest, clear: set<nat>, root: nat, r: nat, p: Page)
    requires Grown(mem, f, clear) && root in f.roots && r in f.roots && InRange(p) && Sees(f, root, r, p.a)
    ensures Walk(mem, r, p) == Walk(mem, root, p)
  {
    WalkIsLookup(mem, f, clear, r, p);
    WalkIsLookup(mem, f, clear, root, p);
    if r != root {
      OwnersSee(mem, f, clear, root, root, p.a);
    }
  }

  /** In the lower half an address space sees its own mappings only. */
  lemma LowerSees(f: Forest, root: nat, r: nat, a: nat)
    requires a < 256
    ensures Sees(f, root, r, a) <==> r == root
  {
  }

  // ----- Bytes ------------------------------------------------------------------------------------

  /** Byte `k` of a word, least significant first. */
  function ByteOf(w: nat, k: nat): (b: Byte)
  {
    if k == 0 then w % 256 else ByteOf(w / 256, k - 1)
  }

  /** The least significant byte comes first. */
  lemma LittleEndian(w: nat)
    ensures ByteOf(w, 0) == w % 256 && ByteOf(w, 1) == w / 256 % 256 && ByteOf(w, 2) == w / 256 / 256 % 256
    ensures ByteOf(w, 3) == w / 256 / 256 / 256 % 256 && ByteOf(w, 7) == ByteOf(w / 256 / 256 / 256 / 256, 3)
  {
    assert ByteOf(w, 7) == ByteOf(w / 256, 6) == ByteOf(w / 256 / 256, 5) == ByteOf(w / 256 / 256 / 256, 4);
  }

  function WithByte(w: nat, k: nat, b: Byte): nat
  {
    if k == 0 then w / 256 * 256 + b else WithByte(w / 256, k - 1, b) * 256 + w % 256
  }

  lemma {:induction false} ByteOfWithByte(w: nat, k: nat, b: Byte, j: nat)
    ensures ByteOf(WithByte(w, k, b), j) == if j == k then b else ByteOf(w, j)
    decreases k
  {
    var w' := WithByte(w, k, b);
    if k == 0 {
      assert w' / 256 == w / 256 && w' % 256 == b;
    } else {
      assert w' / 256 == WithByte(w / 256, k - 1, b) && w' % 256 == w % 256;
      if j > 0 {
        ByteOfWithByte(w / 256, k - 1, b, j - 1);
      }
    }
  }

  /** The byte at a physical address. */
  function ByteAt(mem: Mem, a: nat): Byte
  {
    ByteOf(Word(mem, a / PAGE_SIZE, a % PAGE_SIZE / 8), a % PAGE_SIZE % 8)
  }

  function PutByte(mem: Mem, a: nat, b: Byte): Mem
    requires a / PAGE_SIZE in mem && |mem[a / PAGE_SIZE]| == ENTRIES
  {
    var i := a % PAGE_SIZE / 8;
    WithWord(mem, a / PAGE_SIZE, i, WithByte(mem[a / PAGE_SIZE][i], a % PAGE_SIZE % 8, b))
  }

  lemma PutByteAt(mem: Mem, a: nat, b: Byte, c: nat)
    requires a / PAGE_SIZE in mem && |mem[a / PAGE_SIZE]| == ENTRIES
    ensures ByteAt(PutByte(mem, a, b), c) == if c == a then b else ByteAt(mem, c)
  {
    var i := a % PAGE_SIZE / 8;
    SameByte(a, c);
    ByteOfWithByte(mem[a / PAGE_SIZE][i], a % PAGE_SIZE % 8, b, c % PAGE_SIZE % 8);
  }

  lemma SameByte(a: nat, c: nat)
    ensures a == c <==>
      a / PAGE_SIZE == c / PAGE_SIZE && a % PAGE_SIZE / 8 == c % PAGE_SIZE / 8 && a % PAGE_SIZE % 8 == c % PAGE_SIZE % 8
  {
    assert a == a / PAGE_SIZE * PAGE_SIZE + a % PAGE_SIZE && c == c / PAGE_SIZE * PAGE_SIZE + c % PAGE_SIZE;
    SameRest(a % PAGE_SIZE, c % PAGE_SIZE);
  }

  lemma SameRest(x: nat, y: nat)
    ensures x == y <==> x / 8 == y / 8 && x % 8 == y % 8
  {
  }
}
