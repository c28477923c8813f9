/** What the heap's pointwise invariant says about whole page runs, whole free
    lists and the client's blocks. */
module HeapLayout {
  import opened Basics
  import opened BoundaryTags
  import opened TagSteps
  import opened ByteCopy

  // ----- A page run, read through its split_right links ------------------------

  ghost function ChainFrom(tags: Tags, t: Addr, end: nat): (l: seq<Addr>)
    decreases end - t
  {
    if t !in tags || end <= t then []
    else [t] + if t < tags[t].splitRight then ChainFrom(tags, tags[t].splitRight, end) else []
  }

  ghost function TotalSize(tags: Tags, l: seq<Addr>): nat
  {
    if l == [] then 0 else GetTag(tags, l[0]).realSize + TotalSize(tags, l[1..])
  }

  /** `l` covers the addresses from `start` to `end`, each tag starting where the one
      before it ends, and the split links of neighbours point at each other. */
  ghost predicate Tiles(tags: Tags, l: seq<Addr>, start: nat, end: nat)
  {
    && |l| > 0 && l[0] == start
    && l[|l| - 1] + GetTag(tags, l[|l| - 1]).realSize == end
    && forall i :: 0 <= i < |l| - 1 ==> Joined(tags, l, i)
  }

  ghost predicate Joined(tags: Tags, l: seq<Addr>, i: nat)
    requires i + 1 < |l|
  {
    && l[i + 1] == l[i] + GetTag(tags, l[i]).realSize
    && GetTag(tags, l[i]).splitRight == l[i + 1] && GetTag(tags, l[i + 1]).splitLeft == l[i]
  }

  lemma ChainStep(tags: Tags, regions: map<Addr, nat>, home: map<Addr, Addr>, t: Addr)
    requires Chained(tags, regions, home) && t in home
    ensures home[t] in regions && t < RunEnd(regions, home[t])
    ensures var end, r := RunEnd(regions, home[t]), tags[t].splitRight;
            && ChainFrom(tags, t, end) == [t] + (if r == NULL then [] else ChainFrom(tags, r, end))
            && (r == NULL ==> t + tags[t].realSize == end)
            && (r != NULL ==> r in home && home[r] == home[t] && t < r == t + tags[t].realSize < end
                              && tags[r].splitLeft == t)
  {
    assert LinkedAt(tags, regions, home, t);
    if tags[t].splitRight != NULL {
      assert LinkedAt(tags, regions, home, tags[t].splitRight);
    }
  }

  lemma {:induction false} ChainMembers(tags: Tags, regions: map<Addr, nat>, home: map<Addr, Addr>, t: Addr)
    requires Chained(tags, regions, home) && t in home && home[t] in regions
    ensures forall u :: u in ChainFrom(tags, t, RunEnd(regions, home[t])) ==> u in home && home[u] == home[t]
    decreases RunEnd(regions, home[t]) - t
  {
    ChainStep(tags, regions, home, t);
    if tags[t].splitRight != NULL {
      ChainMembers(tags, regions, home, tags[t].splitRight);
    }
  }

  lemma {:induction false} ChainTiles(tags: Tags, regions: map<Addr, nat>, home: map<Addr, Addr>, t: Addr)
    requires Chained(tags, regions, home) && t in home && home[t] in regions
    ensures Tiles(tags, ChainFrom(tags, t, RunEnd(regions, home[t])), t, RunEnd(regions, home[t]))
    decreases RunEnd(regions, home[t]) - t
  {
    ChainStep(tags, regions, home, t);
    var end, r := RunEnd(regions, home[t]), tags[t].splitRight;
    if r != NULL {
      ChainTiles(tags, regions, home, r);
      TilesPush(tags, ChainFrom(tags, r, end), t, r, end);
    }
  }

  lemma TilesPush(tags: Tags, l: seq<Addr>, t: Addr, r: Addr, end: nat)
    requires Tiles(tags, l, r, end) && r == t + GetTag(tags, t).realSize
    requires GetTag(tags, t).splitRight == r && GetTag(tags, r).splitLeft == t
    ensures Tiles(tags, [t] + l, t, end)
  {
    var l' := [t] + l;
    forall i | 0 <= i < |l'| - 1 ensures Joined(tags, l', i) {
      assert i > 0 ==> Joined(tags, l, i - 1);
    }
  }

  lemma {:induction false} ChainTotal(tags: Tags, regions: map<Addr, nat>, home: map<Addr, Addr>, t: Addr)
    requires Chained(tags, regions, home) && t in home && home[t] in regions
    ensures TotalSize(tags, ChainFrom(tags, t, RunEnd(regions, home[t]))) == RunEnd(regions, home[t]) - t
    decreases RunEnd(regions, home[t]) - t
  {
    ChainStep(tags, regions, home, t);
    if tags[t].splitRight != NULL {
      ChainTotal(tags, regions, home, tags[t].splitRight);
    }
  }

  lemma {:induction false} ChainComplete(tags: Tags, regions: map<Addr, nat>, home: map<Addr, Addr>, t: Addr, u: Addr)
    requires Chained(tags, regions, home) && t in home && home[t] in regions
    requires u in home && home[u] == home[t] && t <= u
    ensures u in ChainFrom(tags, t, RunEnd(regions, home[t]))
    decreases RunEnd(regions, home[t]) - t
  {
    ChainStep(tags, regions, home, t);
    ChainStep(tags, regions, home, u);
    if t < u {
      assert Before(tags, t, u);
      ChainComplete(tags, regions, home, tags[t].splitRight, u);
    }
  }

  /** Each page run is tiled exactly by the chain of its tags: the sizes add up to the run. */
  lemma RunsTiled(tags: Tags, regions: map<Addr, nat>, home: map<Addr, Addr>, base: Addr)
    requires Chained(tags, regions, home) && base in regions
    ensures var end := base + regions[base] * PAGE_SIZE;
            var l := ChainFrom(tags, base, end);
            && Tiles(tags, l, base, end) && TotalSize(tags, l) == regions[base] * PAGE_SIZE
            && (forall u :: u in l <==> u in home && home[u] == base)
  {
    ChainTiles(tags, regions, home, base);
    ChainTotal(tags, regions, home, base);
    RunComplete(tags, regions, home, base);
  }

  lemma RunComplete(tags: Tags, regions: map<Addr, nat>, home: map<Addr, Addr>, base: Addr)
    requires Chained(tags, regions, home) && base in regions
    ensures forall u :: u in ChainFrom(tags, base, RunEnd(regions, base)) <==> u in home && home[u] == base
  {
    ChainMembers(tags, regions, home, base);
    forall u | u in home && home[u] == base ensures u in ChainFrom(tags, base, RunEnd(regions, base)) {
      assert LinkedAt(tags, regions, home, u);
      ChainComplete(tags, regions, home, base, u);
    }
  }

  // ----- A free list, read through its next links -------------------------------

  function StampOf(stamp: map<Addr, nat>, t: Addr): nat
  {
    if t in stamp then stamp[t] else 0
  }

  /** Neighbours in `l` point at each other. */
  ghost predicate DoublyLinked(tags: Tags, l: seq<Addr>)
  {
    forall i :: 0 <= i < |l| - 1 ==> Follows(tags, l, i)
  }

  ghost predicate Follows(tags: Tags, l: seq<Addr>, i: nat)
    requires i + 1 < |l|
  {
    GetTag(tags, l[i]).next == l[i + 1] && GetTag(tags, l[i + 1]).prev == l[i]
  }

  lemma ListStep(tags: Tags, home: map<Addr, Addr>, heads: seq<Addr>, stamp: map<Addr, nat>, a: Addr)
    requires Listed(tags, home, heads, stamp) && a in home && GetTag(tags, a).index >= 0
    ensures var n := GetTag(tags, a).next;
            && ListFrom(tags, stamp, a) == [a] + ListFrom(tags, stamp, n)
            && (n == NULL ==> ListFrom(tags, stamp, n) == [])
            && (n != NULL ==> n in home && GetTag(tags, n).index == GetTag(tags, a).index
                              && GetTag(tags, n).prev == a && StampOf(stamp, n) < StampOf(stamp, a))
  {
    assert ListedAt(tags, home, heads, stamp, a);
    if GetTag(tags, a).next != NULL {
      assert ListedAt(tags, home, heads, stamp, GetTag(tags, a).next);
    }
  }

  lemma {:induction false} ListMembers(tags: Tags, home: map<Addr, Addr>, heads: seq<Addr>, stamp: map<Addr, nat>,
                                       a: Addr)
    requires Listed(tags, home, heads, stamp) && a in home && GetTag(tags, a).index >= 0
    ensures forall t :: t in ListFrom(tags, stamp, a) ==>
              && t in home && GetTag(tags, t).index == GetTag(tags, a).index && StampOf(stamp, t) <= StampOf(stamp, a)
              && (GetTag(tags, t).next != NULL ==> GetTag(tags, t).next in ListFrom(tags, stamp, a))
    decreases StampOf(stamp, a)
  {
    ListStep(tags, home, heads, stamp, a);
    var n := GetTag(tags, a).next;
    if n != NULL {
      ListMembers(tags, home, heads, stamp, n);
      ListStep(tags, home, heads, stamp, n);
    }
  }

  lemma {:induction false} ListOrdered(tags: Tags, home: map<Addr, Addr>, heads: seq<Addr>, stamp: map<Addr, nat>,
                                       a: Addr)
    requires Listed(tags, home, heads, stamp) && a in home && GetTag(tags, a).index >= 0
    ensures var l := ListFrom(tags, stamp, a);
            (forall i, j :: 0 <= i < j < |l| ==> l[i] != l[j]) && DoublyLinked(tags, l)
    decreases StampOf(stamp, a)
  {
    ListStep(tags, home, heads, stamp, a);
    var n := GetTag(tags, a).next;
    if n != NULL {
      ListStep(tags, home, heads, stamp, n);
      ListMembers(tags, home, heads, stamp, n);
      ListOrdered(tags, home, heads, stamp, n);
      LinkedPush(tags, ListFrom(tags, stamp, n), a, n);
    }
  }

  lemma LinkedPush(tags: Tags, l: seq<Addr>, a: Addr, n: Addr)
    requires DoublyLinked(tags, l) && |l| > 0 && l[0] == n
    requires GetTag(tags, a).next == n && GetTag(tags, n).prev == a
    ensures DoublyLinked(tags, [a] + l)
  {
    var l' := [a] + l;
    forall i | 0 <= i < |l'| - 1 ensures Follows(tags, l', i) {
      assert i > 0 ==> Follows(tags, l, i - 1);
    }
  }

  /** Walking back through prev from a listed tag ends at the head of its list. */
  lemma {:induction false} ListReaches(tags: Tags, home: map<Addr, Addr>, heads: seq<Addr>, stamp: map<Addr, nat>,
                                       t: Addr)
    requires Listed(tags, home, heads, stamp) && t in home && 0 <= GetTag(tags, t).index < |heads|
    ensures t in ListFrom(tags, stamp, heads[GetTag(tags, t).index])
    decreases After(stamp) - StampOf(stamp, t)
  {
    assert ListedAt(tags, home, heads, stamp, t);
    var g := GetTag(tags, t);
    assert HeadAt(tags, home, heads, g.index);
    if g.prev == NULL {
      ListStep(tags, home, heads, stamp, t);
    } else {
      assert ListedAt(tags, home, heads, stamp, g.prev);
      ListReaches(tags, home, heads, stamp, g.prev);
      assert ListedAt(tags, home, heads, stamp, heads[g.index]);
      ListMembers(tags, home, heads, stamp, heads[g.index]);
    }
  }

  /** Every free list is an acyclic doubly linked list that holds exactly the tags of its class. */
  lemma ListsExact(tags: Tags, home: map<Addr, Addr>, heads: seq<Addr>, stamp: map<Addr, nat>, i: nat)
    requires Listed(tags, home, heads, stamp) && i < MAX_EXP
    ensures var l := ListFrom(tags, stamp, heads[i]);
            && (forall t :: t in l <==> t in home && GetTag(tags, t).index == i)
            && (forall j, k :: 0 <= j < k < |l| ==> l[j] != l[k]) && DoublyLinked(tags, l)
            && (l != [] ==> GetTag(tags, l[0]).prev == NULL && GetTag(tags, l[|l| - 1]).next == NULL)
  {
    assert HeadAt(tags, home, heads, i);
    var l := ListFrom(tags, stamp, heads[i]);
    if heads[i] != NULL {
      assert ListedAt(tags, home, heads, stamp, heads[i]);
      ListStep(tags, home, heads, stamp, heads[i]);
      ListMembers(tags, home, heads, stamp, heads[i]);
      ListOrdered(tags, home, heads, stamp, heads[i]);
      LastHasNoNext(tags, home, heads, stamp, heads[i]);
    }
    forall t | t in home && GetTag(tags, t).index == i ensures t in l {
      ListReaches(tags, home, heads, stamp, t);
    }
  }

  lemma {:induction false} LastHasNoNext(tags: Tags, home: map<Addr, Addr>, heads: seq<Addr>, stamp: map<Addr, nat>,
                                         a: Addr)
    requires Listed(tags, home, heads, stamp) && a in home && GetTag(tags, a).index >= 0
    ensures var l := ListFrom(tags, stamp, a); l != [] && GetTag(tags, l[|l| - 1]).next == NULL
    decreases StampOf(stamp, a)
  {
    ListStep(tags, home, heads, stamp, a);
    if GetTag(tags, a).next != NULL {
      LastHasNoNext(tags, home, heads, stamp, GetTag(tags, a).next);
    }
  }

  // ----- The client's blocks ------------------------------------------------------

  /** The free tags are exactly those of class max(8, getexp(real_size - 48)) in the lists, the
      others are exactly the client's blocks, and no two neighbours are both free. */
  lemma FreeOrLive(tags: Tags, regions: map<Addr, nat>, home: map<Addr, Addr>, live: map<Addr, nat>, t: Addr)
    requires Chained(tags, regions, home) && Settled(tags, home, live, {}) && t in home
    ensures tags[t].index >= 0 <==> t !in live
    ensures t !in live ==> HEADER <= tags[t].realSize && tags[t].index == ClassOf(tags[t].realSize - HEADER)
    ensures t !in live && tags[t].splitRight != NULL ==> tags[t].splitRight in live
    ensures t !in live && tags[t].splitLeft != NULL ==> tags[t].splitLeft in live
  {
    assert LinkedAt(tags, regions, home, t) && SettledAt(tags, live, t);
    if tags[t].splitRight != NULL {
      assert SettledAt(tags, live, tags[t].splitRight);
    }
    if tags[t].splitLeft != NULL {
      assert SettledAt(tags, live, tags[t].splitLeft);
    }
  }

  /** The payload of a block overlaps neither another payload nor any header. */
  lemma PayloadsApart(tags: Tags, regions: map<Addr, nat>, home: map<Addr, Addr>, live: map<Addr, nat>, u: Addr,
                      t: Addr)
    requires Chained(tags, regions, home) && Settled(tags, home, live, {})
    requires u in live && t in home
    ensures u + HEADER + live[u] <= t || t + HEADER <= u + HEADER
    ensures t in live && t != u ==> u + HEADER + live[u] <= t + HEADER || t + HEADER + live[t] <= u + HEADER
  {
    assert SettledAt(tags, live, u);
    assert u < t ==> Before(tags, u, t);
    if t in live {
      assert SettledAt(tags, live, t);
      assert t < u ==> Before(tags, t, u);
    }
  }

  /** What keeps the page runs the heap held keeps the contents of every block. */
  lemma RunsKeepBlocks(tags: Tags, regions: map<Addr, nat>, home: map<Addr, Addr>, live: map<Addr, nat>, m: seq<bv8>,
                       m': seq<bv8>)
    requires Chained(tags, regions, home) && Settled(tags, home, live, {}) && SameRuns(regions, m, m')
    ensures SameBlocks(live, m, m')
  {
    forall u, a | u in live && u + HEADER <= a < u + HEADER + live[u] && a < |m| ensures m'[a] == m[a] {
      LiveInRun(tags, regions, home, live, {}, u);
    }
  }

  /** A write inside the payload of block `t` leaves every other block alone. */
  lemma WriteKeepsBlocks(tags: Tags, regions: map<Addr, nat>, home: map<Addr, Addr>, live: map<Addr, nat>, m: seq<bv8>,
                         t: Addr, src: nat, n: nat)
    requires Chained(tags, regions, home) && Settled(tags, home, live, {})
    requires t in live && n <= live[t] && t + HEADER + n <= |m| && src + n <= |m|
    ensures SameBlocks(live - {t}, m, Copied(m, t + HEADER, src, n))
  {
    forall u, a | u in live - {t} && u + HEADER <= a < u + HEADER + live[u] && a < |m|
      ensures Copied(m, t + HEADER, src, n)[a] == m[a]
    {
      assert LinkedAt(tags, regions, home, u) && LinkedAt(tags, regions, home, t);
      PayloadsApart(tags, regions, home, live, u, t);
    }
  }

  // ----- The magic numbers -----------------------------------------------------------

  /** Whatever the clients write into their own blocks, every tag keeps its magic number. */
  lemma ClientsKeepMarks(tags: Tags, regions: map<Addr, nat>, home: map<Addr, Addr>, live: map<Addr, nat>, m: seq<bv8>,
                         m': seq<bv8>)
    requires Chained(tags, regions, home) && Settled(tags, home, live, {}) && Marked(home, m) && |m'| == |m|
    requires forall a {:trigger m'[a]} :: 0 <= a < |m| && m'[a] != m[a] ==> InPayload(live, a)
    ensures Marked(home, m')
  {
    forall t | t in home ensures HasMagic(m', t) {
      assert HasMagic(m, t);
      forall a | t <= a < t + 4 ensures m'[a] == m[a] {
        if u :| u in live && u + HEADER <= a < u + HEADER + live[u] {
          PayloadsApart(tags, regions, home, live, u, t);
        }
      }
    }
  }

  /** Address `a` lies in one of the clients' blocks. */
  ghost predicate InPayload(live: map<Addr, nat>, a: nat)
  {
    exists u :: u in live && u + HEADER <= a < u + HEADER + live[u]
  }

  /** So does what a block is moved over. */
  lemma MoveKeepsMarks(tags: Tags, regions: map<Addr, nat>, home: map<Addr, Addr>, live: map<Addr, nat>, m: seq<bv8>,
                       t: Addr, src: nat, n: nat)
    requires Chained(tags, regions, home) && Settled(tags, home, live, {}) && Marked(home, m)
    requires t in live && n <= live[t] && t + HEADER + n <= |m| && src + n <= |m|
    ensures Marked(home, Copied(m, t + HEADER, src, n))
  {
    var m' := Copied(m, t + HEADER, src, n);
    forall a | 0 <= a < |m| && m'[a] != m[a] ensures InPayload(live, a) {
      CopiedAt(m, t + HEADER, src, n, a);
    }
    ClientsKeepMarks(tags, regions, home, live, m, m');
  }

  lemma TagInMemory(tags: Tags, regions: map<Addr, nat>, home: map<Addr, Addr>, t: Addr, limit: nat)
    requires Chained(tags, regions, home) && t in home && InMemory(regions, limit)
    ensures t + tags[t].realSize <= limit
  {
    assert LinkedAt(tags, regions, home, t);
  }

  /** A magic number written behind the bytes that tag `t` keeps touches no other tag's and no block. */
  lemma StampKeeps(tags: Tags, regions: map<Addr, nat>, home: map<Addr, Addr>, live: map<Addr, nat>, m: seq<bv8>,
                   t: Addr, n: Addr)
    requires Chained(tags, regions, home) && Settled(tags, home, live, {t}) && Marked(home, m)
    requires t in home && t + HEADER <= n && n + HEADER <= t + tags[t].realSize && InMemory(regions, |m|)
    ensures n + 4 <= |m| && Marked(home[n := home[t]], Stamped(m, n)) && SameBlocks(live, m, Stamped(m, n))
  {
    assert LinkedAt(tags, regions, home, t);
    var m' := Stamped(m, n);
    forall u | u in home && u != n ensures HasMagic(m', u) {
      assert HasMagic(m, u) && LinkedAt(tags, regions, home, u);
      assert (u < t ==> Before(tags, u, t)) && (t < u ==> Before(tags, t, u));
    }
    forall u, a | u in live && u + HEADER <= a < u + HEADER + live[u] && a < |m| ensures m'[a] == m[a] {
      assert SettledAt(tags, live, u) && LinkedAt(tags, regions, home, u);
      assert (u < t ==> Before(tags, u, t)) && (t < u ==> Before(tags, t, u));
    }
  }

  /** What keeps the page runs the heap held keeps its magic numbers. */
  lemma RunsKeepMarks(tags: Tags, regions: map<Addr, nat>, home: map<Addr, Addr>, m: seq<bv8>, m': seq<bv8>)
    requires Chained(tags, regions, home) && Marked(home, m) && SameRuns(regions, m, m')
    ensures Marked(home, m')
  {
    forall t | t in home ensures HasMagic(m', t) {
      assert LinkedAt(tags, regions, home, t) && HasMagic(m, t);
    }
  }

  lemma SameBlocksTrans(live: map<Addr, nat>, m0: seq<bv8>, m1: seq<bv8>, m2: seq<bv8>)
    requires SameBlocks(live, m0, m1) && SameBlocks(live, m1, m2)
    ensures SameBlocks(live, m0, m2)
  {
    forall u, a | u in live && u + HEADER <= a < u + HEADER + live[u] && a < |m0| ensures m2[a] == m0[a] {
      assert m1[a] == m0[a];
    }
  }

  /** The `n` bytes at `to` in `m'` are those at `from` in `m`. */
  ghost predicate SameBytes(m: seq<bv8>, from: nat, m': seq<bv8>, to: nat, n: nat)
  {
    from + n <= |m| && to + n <= |m'| && m'[to..to + n] == m[from..from + n]
  }

  /** Two blocks of the client's lie in memory and do not overlap. */
  lemma MoveReady(tags: Tags, regions: map<Addr, nat>, home: map<Addr, Addr>, live: map<Addr, nat>, limit: nat, t: Addr,
                  n: Addr)
    requires Chained(tags, regions, home) && Settled(tags, home, live, {})
    requires t in live && n in live && t != n && forall b :: b in regions ==> RunEnd(regions, b) <= limit
    ensures t + HEADER + live[t] <= limit && n + HEADER + live[n] <= limit
    ensures t + HEADER + live[t] <= n + HEADER || n + HEADER + live[n] <= t + HEADER
  {
    LiveInRun(tags, regions, home, live, {}, t);
    LiveInRun(tags, regions, home, live, {}, n);
    PayloadsApart(tags, regions, home, live, t, n);
  }

  /** malloc, copy, free: the block moved with its bytes, the others did not change. */
  lemma MovedBlocks(live0: map<Addr, nat>, live: map<Addr, nat>, m0: seq<bv8>, m1: seq<bv8>, m2: seq<bv8>, ptr: Addr,
                    p: Addr, k: nat)
    requires HEADER <= ptr && TagOf(ptr) in live0 && HEADER <= p && TagOf(p) !in live0 && TagOf(p) in live
    requires live == live0[TagOf(p) := live[TagOf(p)]]
    requires k <= live0[TagOf(ptr)] && ptr + k <= |m0| && p + k <= |m0|
    requires SameBlocks(live0, m0, m1) && m2 == Copied(m1, p, ptr, k) && SameBlocks(live - {TagOf(p)}, m1, m2)
    ensures SameBlocks(live0 - {TagOf(ptr)}, m0, m2) && SameBytes(m0, ptr, m2, p, k)
  {
    forall u, a | u in live0 - {TagOf(ptr)} && u + HEADER <= a < u + HEADER + live0[u] && a < |m0|
      ensures m2[a] == m0[a]
    {
      assert u in live0 && u in live - {TagOf(p)};
      assert m1[a] == m0[a];
    }
    var to, from := m2[p..p + k], m0[ptr..ptr + k];
    forall i | 0 <= i < k ensures to[i] == from[i] {
      CopiedAt(m1, p, ptr, k, p + i);
      assert TagOf(ptr) in live0 && m1[ptr + i] == m0[ptr + i];
    }
  }
}
