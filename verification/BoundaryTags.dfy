/** The two linked structures that share the heap's boundary tags, and what
    each of them looks like when it is in order.

    A tag lives at an address; a pointer is an address and NULL is 0.  `home`
    maps the address of every current tag to the base of its page run.  The magic
    number, which anyone may find in or write to memory, is four bytes of it;
    the other fields of a tag are words of a memory of their own.  */
module BoundaryTags {
  import opened Basics

  const HEADER := 48
  const MIN_PAGES := 16
  const MAX_COMPLETE := 5
  const MAX_EXP := 32
  const MIN_EXP := 8
  /** Sizes stay below this bound, so a signed 32-bit cast never changes one. */
  const SIZE_LIMIT := 0x8000_0000

  type Addr = nat
  const NULL: Addr := 0

  datatype Tag = Tag(size: nat, realSize: nat, index: int,
                     splitLeft: Addr, splitRight: Addr, next: Addr, prev: Addr)

  type Tags = map<Addr, Tag>

  /** The tag in front of a block. */
  function TagOf(ptr: Addr): (t: Addr)
    ensures ptr >= HEADER ==> t + HEADER == ptr
  {
    if ptr < HEADER then NULL else ptr - HEADER
  }

  // ----- Size classes -------------------------------------------------------

  function Pow2(n: nat): (p: nat)
    ensures p > 0
  {
    if n == 0 then 1 else 2 * Pow2(n - 1)
  }

  function Log2(size: nat): (n: nat)
    requires size > 0
  {
    if size == 1 then 0 else Log2(size / 2) + 1
  }

  /** Log2 is the exponent n with 2^n <= size < 2^(n+1), and the only one. */
  lemma {:induction false} Log2Bounds(size: nat)
    requires size > 0
    ensures Pow2(Log2(size)) <= size < Pow2(Log2(size) + 1)
  {
    if size > 1 {
      Log2Bounds(size / 2);
    }
  }

  lemma {:induction false} Pow2Monotone(m: nat, n: nat)
    requires m <= n
    ensures Pow2(m) <= Pow2(n)
    decreases n - m
  {
    if m < n {
      Pow2Monotone(m + 1, n);
    }
  }

  lemma Log2Unique(size: nat, n: nat)
    requires size > 0
    ensures Pow2(n) <= size < Pow2(n + 1) <==> n == Log2(size)
  {
    Log2Bounds(size);
    if n < Log2(size) {
      Pow2Monotone(n + 1, Log2(size));
    } else if Log2(size) < n {
      Pow2Monotone(Log2(size) + 1, n);
    }
  }

  /** The free list a request or a block of `room` payload bytes belongs to. */
  function ClassOf(room: nat): (c: nat)
  {
    if room < 0x100 then MIN_EXP else Log2(room)
  }

  lemma ClassBounds(room: nat)
    requires room < SIZE_LIMIT
    ensures MIN_EXP <= ClassOf(room) < MAX_EXP - 1
  {
    assert Pow2(8) == 0x100;
    assert Pow2(16) == 0x1_0000;
    assert Pow2(24) == 0x100_0000;
    assert Pow2(31) == SIZE_LIMIT;
    if 0x100 <= room {
      Log2Bounds(room);
      if Log2(room) < MIN_EXP {
        Pow2Monotone(Log2(room) + 1, MIN_EXP);
      } else if 31 <= Log2(room) {
        Pow2Monotone(31, Log2(room));
      }
    }
  }

  /** List 8 holds everything below 512 bytes, list c everything from 2^c up to 2^(c+1) - 1. */
  lemma ClassIs(room: nat, c: nat)
    ensures room < 0x200 ==> ClassOf(room) == 8
    ensures room >= 0x200 ==> (ClassOf(room) == c <==> Pow2(c) <= room < Pow2(c + 1))
  {
    assert Pow2(8) == 0x100 && Pow2(9) == 0x200;
    if room >= 0x100 {
      Log2Unique(room, 8);
      Log2Unique(room, c);
    }
  }

  // ----- The physical chain -------------------------------------------------

  function RunEnd(regions: map<Addr, nat>, base: Addr): (e: nat)
    requires base in regions
  {
    base + regions[base] * PAGE_SIZE
  }

  ghost predicate GoodRuns(regions: map<Addr, nat>)
  {
    && (forall b :: b in regions ==> b > 0 && MIN_PAGES <= regions[b] && regions[b] * PAGE_SIZE < SIZE_LIMIT)
    && (forall b, c :: b in regions && c in regions && b < c ==> RunEnd(regions, b) <= c)
  }

  /** Tag `t` agrees with both of its physical neighbours and with its run. */
  ghost predicate LinkedAt(tags: Tags, regions: map<Addr, nat>, home: map<Addr, Addr>, t: Addr)
  {
    && t in tags && t in home && home[t] in regions
    && var g := tags[t];
    && HEADER <= g.realSize
    && 0 < home[t] <= t && t + g.realSize <= RunEnd(regions, home[t])
    && (g.splitLeft == NULL <==> t == home[t])
    && (g.splitLeft != NULL ==>
          && g.splitLeft in home && home[g.splitLeft] == home[t]
          && g.splitLeft in tags && tags[g.splitLeft].splitRight == t)
    && (g.splitRight == NULL <==> t + g.realSize == RunEnd(regions, home[t]))
    && (g.splitRight != NULL ==>
          && g.splitRight == t + g.realSize
          && g.splitRight in home && home[g.splitRight] == home[t]
          && g.splitRight in tags && tags[g.splitRight].splitLeft == t)
  }

  ghost predicate Apart(tags: Tags, home: map<Addr, Addr>)
    requires home.Keys <= tags.Keys
  {
    forall s, t {:trigger Before(tags, s, t)} :: s in home && t in home && s < t ==> Before(tags, s, t)
  }

  /** Tag `s` ends where `t` starts, or below. */
  ghost predicate Before(tags: Tags, s: Addr, t: Addr)
    requires s in tags
  {
    s + tags[s].realSize <= t
  }

  ghost predicate Chained(tags: Tags, regions: map<Addr, nat>, home: map<Addr, Addr>)
  {
    && GoodRuns(regions)
    && home.Keys <= tags.Keys && NULL !in home
    && (forall b :: b in regions ==> b in home && home[b] == b)
    && (forall t {:trigger LinkedAt(tags, regions, home, t)} :: t in home ==> LinkedAt(tags, regions, home, t))
    && Apart(tags, home)
  }

  /** Nothing the physical chain looks at differs between the two memories. */
  ghost predicate SameChain(tags: Tags, tags': Tags, home: map<Addr, Addr>)
  {
    home.Keys <= tags.Keys && home.Keys <= tags'.Keys &&
    forall t :: t in home ==>
      && tags'[t].realSize == tags[t].realSize
      && tags'[t].splitLeft == tags[t].splitLeft && tags'[t].splitRight == tags[t].splitRight
  }

  lemma ChainFrame(tags: Tags, tags': Tags, regions: map<Addr, nat>, home: map<Addr, Addr>)
    requires Chained(tags, regions, home) && SameChain(tags, tags', home)
    ensures Chained(tags', regions, home)
  {
    forall t | t in home ensures LinkedAt(tags', regions, home, t) {
      assert LinkedAt(tags, regions, home, t);
    }
    forall s, t | s in home && t in home && s < t ensures Before(tags', s, t) {
      assert Before(tags, s, t);
    }
  }

  // ----- The magic number --------------------------------------------------

  /** The four bytes from `a` on are the magic number 0xc001c0de, least significant first. */
  predicate HasMagic(m: seq<bv8>, a: Addr)
  {
    a + 4 <= |m| && m[a] == 0xde && m[a + 1] == 0xc0 && m[a + 2] == 0x01 && m[a + 3] == 0xc0
  }

  function Stamped(m: seq<bv8>, a: Addr): (m': seq<bv8>)
    requires a + 4 <= |m|
    ensures |m'| == |m| && HasMagic(m', a)
    ensures forall k :: 0 <= k < |m| && !(a <= k < a + 4) ==> m'[k] == m[k]
  {
    m[a := 0xde][a + 1 := 0xc0][a + 2 := 0x01][a + 3 := 0xc0]
  }

  /** Every current tag starts with the magic number. */
  ghost predicate Marked(home: map<Addr, Addr>, m: seq<bv8>)
  {
    forall t {:trigger HasMagic(m, t)} :: t in home ==> HasMagic(m, t)
  }

  ghost predicate InMemory(regions: map<Addr, nat>, limit: nat)
  {
    forall b :: b in regions ==> RunEnd(regions, b) <= limit
  }

  // ----- The free lists -----------------------------------------------------

  /** Tag `t` agrees with both of its neighbours in its free list, or is in none.
      `stamp` grows with every insertion, so following `next` goes back in time. */
  ghost predicate ListedAt(tags: Tags, home: map<Addr, Addr>, heads: seq<Addr>, stamp: map<Addr, nat>, t: Addr)
    requires |heads| == MAX_EXP
  {
    && t in tags && t in stamp && t != NULL
    && var g := tags[t];
    && (g.index == -1 || MIN_EXP <= g.index < MAX_EXP)
    && (g.index < 0 ==> g.next == NULL && g.prev == NULL)
    && (g.index >= 0 ==>
          && (g.next != NULL ==>
                && g.next in home && g.next in tags && g.next in stamp
                && tags[g.next].index == g.index && tags[g.next].prev == t
                && stamp[g.next] < stamp[t])
          && (g.prev != NULL ==>
                && g.prev in home && g.prev in tags
                && tags[g.prev].index == g.index && tags[g.prev].next == t)
          && (g.prev == NULL <==> heads[g.index] == t))
  }

  ghost predicate HeadAt(tags: Tags, home: map<Addr, Addr>, heads: seq<Addr>, i: nat)
  {
    && i < |heads|
    && (heads[i] != NULL ==> heads[i] in home && heads[i] in tags && tags[heads[i]].index == i)
  }

  ghost predicate Listed(tags: Tags, home: map<Addr, Addr>, heads: seq<Addr>, stamp: map<Addr, nat>)
  {
    && |heads| == MAX_EXP
    && (forall t {:trigger ListedAt(tags, home, heads, stamp, t)} :: t in home ==>
          ListedAt(tags, home, heads, stamp, t))
    && (forall i :: 0 <= i < MAX_EXP ==> HeadAt(tags, home, heads, i))
  }

  ghost predicate SameLists(tags: Tags, tags': Tags, home: map<Addr, Addr>)
  {
    home.Keys <= tags.Keys && home.Keys <= tags'.Keys &&
    forall t :: t in home ==>
      && tags'[t].index == tags[t].index && tags'[t].next == tags[t].next && tags'[t].prev == tags[t].prev
  }

  lemma ListFrame(tags: Tags, tags': Tags, home: map<Addr, Addr>, heads: seq<Addr>, stamp: map<Addr, nat>)
    requires Listed(tags, home, heads, stamp) && SameLists(tags, tags', home)
    ensures Listed(tags', home, heads, stamp)
  {
    forall t | t in home ensures ListedAt(tags', home, heads, stamp, t) {
      assert ListedAt(tags, home, heads, stamp, t);
    }
    forall i | 0 <= i < MAX_EXP ensures HeadAt(tags', home, heads, i) {
      assert HeadAt(tags, home, heads, i);
    }
  }

  // ----- Ownership and the cache of whole runs --------------------------------

  function GetTag(tags: Tags, a: Addr): (g: Tag)
  {
    if a != NULL && a in tags then tags[a] else Tag(0, 0, -1, NULL, NULL, NULL, NULL)
  }

  /** A listed tag is in the list of its class and has no listed right neighbour;
      an unlisted one is in the client's hands and holds what the client asked for. */
  ghost predicate SettledAt(tags: Tags, live: map<Addr, nat>, t: Addr)
  {
    && t in tags
    && var g := tags[t];
    && (g.index >= 0 ==>
          && HEADER <= g.realSize && g.index == ClassOf(g.realSize - HEADER) && t !in live
          && (g.splitRight != NULL ==> GetTag(tags, g.splitRight).index < 0))
    && (g.index < 0 ==> t in live && live[t] == g.size && HEADER + g.size <= g.realSize)
  }

  /** Every tag is settled except those in transit between the client and the lists. */
  ghost predicate Settled(tags: Tags, home: map<Addr, Addr>, live: map<Addr, nat>, transit: set<Addr>)
  {
    && live.Keys <= home.Keys && live.Keys !! transit
    && (forall t {:trigger SettledAt(tags, live, t)} :: t in home && t !in transit ==> SettledAt(tags, live, t))
  }

  ghost predicate IsWhole(g: Tag)
  {
    g.splitLeft == NULL && g.splitRight == NULL
  }

  /** The tags of list `i` that span a whole page run. */
  ghost function WholeFree(tags: Tags, home: map<Addr, Addr>, i: nat): set<Addr>
  {
    set t | t in home && t in tags && tags[t].index == i && IsWhole(tags[t])
  }

  ghost predicate Counted(tags: Tags, home: map<Addr, Addr>, complete: seq<int>)
  {
    && |complete| == MAX_EXP
    && forall i {:trigger WholeFree(tags, home, i)} :: 0 <= i < MAX_EXP ==>
         complete[i] == |WholeFree(tags, home, i)| <= MAX_COMPLETE
  }

  /** The heap's invariant but for the tags in transit and the cache counters. */
  ghost predicate Sound(tags: Tags, regions: map<Addr, nat>, home: map<Addr, Addr>, heads: seq<Addr>,
                        stamp: map<Addr, nat>, live: map<Addr, nat>, transit: set<Addr>)
  {
    && Chained(tags, regions, home)
    && Listed(tags, home, heads, stamp)
    && Settled(tags, home, live, transit)
  }

  /** No block of `live` was moved, resized or given to someone else. */
  ghost predicate Undisturbed(tags: Tags, tags': Tags, home: map<Addr, Addr>, home': map<Addr, Addr>,
                              live: map<Addr, nat>)
  {
    forall u {:trigger u in live} :: u in live ==>
      && u in home && u in home' && home'[u] == home[u]
      && u in tags && u in tags' && tags'[u].realSize == tags[u].realSize
  }

  /** The cache counts what it counted, apart from the tags of `gone`. */
  ghost predicate SameWhole(tags: Tags, tags': Tags, home: map<Addr, Addr>, home': map<Addr, Addr>, gone: set<Addr>)
  {
    forall i: nat {:trigger WholeFree(tags', home', i)} :: WholeFree(tags', home', i) == WholeFree(tags, home, i) - gone
  }

  /** The free list that starts at `a`, read through the `next` links. */
  ghost function ListFrom(tags: Tags, stamp: map<Addr, nat>, a: Addr): (l: seq<Addr>)
    decreases if a in stamp then stamp[a] else 0
  {
    if a == NULL || a !in tags || a !in stamp then []
    else
      var n := tags[a].next;
      [a] + if n in stamp && stamp[n] < stamp[a] then ListFrom(tags, stamp, n) else []
  }

  /** There is room in tag `t` for `size` bytes and another header. */
  ghost predicate Fits(tags: Tags, t: Addr, size: nat)
  {
    t in tags && size + HEADER <= tags[t].realSize - HEADER
  }

  /** `t` is the first tag of list `l` with enough room, or NULL when there is none. */
  ghost predicate FirstFit(tags: Tags, l: seq<Addr>, size: nat, t: Addr)
  {
    if t == NULL then forall k :: 0 <= k < |l| ==> !Fits(tags, l[k], size)
    else exists k :: 0 <= k < |l| && l[k] == t && Fits(tags, t, size)
                     && forall j :: 0 <= j < k ==> !Fits(tags, l[j], size)
  }

  /** A request for `size` bytes is served by tag `t`: the first fit in the list of
      its class, or a tag that did not exist when nothing there fits. */
  ghost predicate Chosen(tags: Tags, stamp: map<Addr, nat>, heads: seq<Addr>, home: map<Addr, Addr>, size: nat, t: Addr)
  {
    ClassOf(size) < |heads| &&
    FirstFit(tags, ListFrom(tags, stamp, heads[ClassOf(size)]), size, if t in home then t else NULL)
  }

  /** Every byte of every page run that the heap held is what it was. */
  ghost predicate SameRuns(regions: map<Addr, nat>, m: seq<bv8>, m': seq<bv8>)
  {
    && |m'| == |m|
    && forall b, a {:trigger b in regions, m'[a]} ::
         b in regions && b <= a < RunEnd(regions, b) && a < |m| ==> m'[a] == m[a]
  }

  /** Every byte of every block in the client's hands is what it was. */
  ghost predicate SameBlocks(live: map<Addr, nat>, m: seq<bv8>, m': seq<bv8>)
  {
    && |m'| == |m|
    && forall u, a {:trigger u in live, m'[a]} ::
         u in live && u + HEADER <= a < u + HEADER + live[u] && a < |m| ==> m'[a] == m[a]
  }

  /** The page runs the heap keeps after block `t` is freed: its run goes back when the client
      holds nothing else of it and the cache of runs of that size is full. */
  ghost function RunsWithout(regions: map<Addr, nat>, home: map<Addr, Addr>, live: map<Addr, nat>, complete: seq<int>,
                             t: Addr): map<Addr, nat>
  {
    if t in home && home[t] in regions && MIN_PAGES <= regions[home[t]] then
      var c := ClassOf(regions[home[t]] * PAGE_SIZE - HEADER);
      var alone := forall u :: u in live && u in home && u != t ==> home[u] != home[t];
      if alone && c < |complete| && complete[c] == MAX_COMPLETE then regions - {home[t]} else regions
    else regions
  }

  /** What Chosen says of the list `l` of the class: its first tag with room for `size` bytes and two headers of 48,
      or a new tag if there is no such tag. */
  lemma ChosenIs(tags: Tags, stamp: map<Addr, nat>, heads: seq<Addr>, home: map<Addr, Addr>, size: nat, t: Addr,
                 l: seq<Addr>)
    requires ClassOf(size) < |heads| && l == ListFrom(tags, stamp, heads[ClassOf(size)]) && NULL !in home
    requires forall k :: 0 <= k < |l| ==> l[k] in tags
    ensures Chosen(tags, stamp, heads, home, size, t) <==>
            if t in home then
              exists k :: 0 <= k < |l| && l[k] == t && tags[t].realSize >= size + 96
                          && forall j :: 0 <= j < k ==> tags[l[j]].realSize < size + 96
            else forall k :: 0 <= k < |l| ==> tags[l[k]].realSize < size + 96
  {
  }

  /** The run of block `t` goes back exactly when no other block is in it and five whole runs of its class are
      cached. */
  lemma RunsWithoutIs(regions: map<Addr, nat>, home: map<Addr, Addr>, live: map<Addr, nat>, complete: seq<int>,
                      t: Addr, u: Addr, c: nat)
    requires t in home && home[t] in regions && 16 <= regions[home[t]] && c < |complete|
    requires Pow2(c) <= regions[home[t]] * 4096 - 48 < Pow2(c + 1)
    ensures u in RunsWithout(regions, home, live, complete, t) <==>
            u in regions && (u == home[t] ==> complete[c] != 5
                                              || exists v :: v in live && v in home && v != t && home[v] == home[t])
    ensures u in RunsWithout(regions, home, live, complete, t) ==>
              RunsWithout(regions, home, live, complete, t)[u] == regions[u]
  {
    ClassIs(regions[home[t]] * 4096 - 48, c);
  }
}
