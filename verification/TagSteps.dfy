/** What each step on the boundary tags does to memory, and that it keeps the
    physical chain, the free lists, the ownership map and the cache counters. */
module TagSteps {
  import opened Basics
  import opened BoundaryTags

  /** `tags'` is `tags` after tag `t` was taken out of its free list. */
  ghost predicate Unlinked(tags: Tags, tags': Tags, home: map<Addr, Addr>, t: Addr)
  {
    && home.Keys <= tags.Keys && home.Keys <= tags'.Keys && t in home
    && tags'[t] == tags[t].(index := -1, next := NULL, prev := NULL)
    && forall u :: u in home && u != t ==>
         tags'[u] == tags[u].(
           next := if u == tags[t].prev then tags[t].next else tags[u].next,
           prev := if u == tags[t].next then tags[t].prev else tags[u].prev)
  }

  lemma UnlinkedListed(tags: Tags, tags': Tags, home: map<Addr, Addr>, heads: seq<Addr>, heads': seq<Addr>,
                       stamp: map<Addr, nat>, t: Addr)
    requires Listed(tags, home, heads, stamp)
    requires Unlinked(tags, tags', home, t) && 0 <= tags[t].index < |heads|
    requires heads' == if heads[tags[t].index] == t then heads[tags[t].index := tags[t].next] else heads
    ensures Listed(tags', home, heads', stamp)
  {
    var g := tags[t];
    assert ListedAt(tags, home, heads, stamp, t);
    forall u | u in home ensures ListedAt(tags', home, heads', stamp, u) {
      UnlinkedListedAt(tags, tags', home, heads, heads', stamp, t, u);
    }
    forall i | 0 <= i < MAX_EXP ensures HeadAt(tags', home, heads', i) {
      assert HeadAt(tags, home, heads, i);
    }
  }

  lemma UnlinkedListedAt(tags: Tags, tags': Tags, home: map<Addr, Addr>, heads: seq<Addr>, heads': seq<Addr>,
                         stamp: map<Addr, nat>, t: Addr, u: Addr)
    requires Listed(tags, home, heads, stamp)
    requires Unlinked(tags, tags', home, t) && tags[t].index >= 0 && u in home
    requires ListedAt(tags, home, heads, stamp, t)
    requires heads' == if heads[tags[t].index] == t then heads[tags[t].index := tags[t].next] else heads
    ensures ListedAt(tags', home, heads', stamp, u)
  {
    assert ListedAt(tags, home, heads, stamp, u);
    var g := tags[t];
    if u != t {
      assert tags[u].next == t <==> tags[u].index >= 0 && u == g.prev;
    }
  }

  /** `tags'` is `tags` after the unlisted tag `t` became the head of list `i`. */
  ghost predicate Linked(tags: Tags, tags': Tags, home: map<Addr, Addr>, heads: seq<Addr>, t: Addr, i: nat)
    requires i < |heads|
  {
    && home.Keys <= tags.Keys && home.Keys <= tags'.Keys && t in home
    && tags'[t] == tags[t].(index := i, next := if heads[i] != NULL then heads[i] else tags[t].next)
    && forall u :: u in home && u != t ==>
         tags'[u] == if u == heads[i] then tags[u].(prev := t) else tags[u]
  }

  /** A time stamp later than every stamp given out so far. */
  ghost function After(stamp: map<Addr, nat>): (c: nat)
    ensures forall u :: u in stamp ==> stamp[u] < c
    decreases |stamp|
  {
    if stamp == map[] then 0
    else
      var u :| u in stamp;
      var c := After(stamp - {u});
      assert forall v :: v in stamp ==> v == u || v in stamp - {u};
      if c <= stamp[u] then stamp[u] + 1 else c
  }

  lemma LinkedListed(tags: Tags, tags': Tags, home: map<Addr, Addr>, heads: seq<Addr>, stamp: map<Addr, nat>, t: Addr,
                     i: nat)
    requires Listed(tags, home, heads, stamp)
    requires t in home && t in tags && tags[t].index < 0 && MIN_EXP <= i < MAX_EXP
    requires Linked(tags, tags', home, heads, t, i)
    ensures Listed(tags', home, heads[i := t], stamp[t := After(stamp)])
  {
    assert ListedAt(tags, home, heads, stamp, t);
    assert HeadAt(tags, home, heads, i);
    forall u | u in home ensures ListedAt(tags', home, heads[i := t], stamp[t := After(stamp)], u) {
      LinkedListedAt(tags, tags', home, heads, stamp, t, i, u);
    }
    var heads' := heads[i := t];
    forall j | 0 <= j < MAX_EXP ensures HeadAt(tags', home, heads', j) {
      assert HeadAt(tags, home, heads, j);
    }
  }

  lemma LinkedListedAt(tags: Tags, tags': Tags, home: map<Addr, Addr>, heads: seq<Addr>, stamp: map<Addr, nat>, t: Addr,
                       i: nat, u: Addr)
    requires Listed(tags, home, heads, stamp)
    requires t in home && t in tags && tags[t].index < 0 && MIN_EXP <= i < MAX_EXP && u in home
    requires Linked(tags, tags', home, heads, t, i) && HeadAt(tags, home, heads, i)
    ensures ListedAt(tags', home, heads[i := t], stamp[t := After(stamp)], u)
  {
    assert ListedAt(tags, home, heads, stamp, t);
    assert ListedAt(tags, home, heads, stamp, u);
    if heads[i] != NULL {
      assert ListedAt(tags, home, heads, stamp, heads[i]);
    }
  }

  // ----- Merging two neighbours, splitting one tag ---------------------------

  /** `tags'` is `tags` after tag `t` was merged into its left neighbour `l`. */
  ghost predicate Merged(tags: Tags, tags': Tags, home: map<Addr, Addr>, l: Addr, t: Addr)
  {
    && home.Keys <= tags.Keys && home.Keys <= tags'.Keys && t in home && l in home && l != t
    && tags'[l] == tags[l].(realSize := tags[l].realSize + tags[t].realSize, splitRight := tags[t].splitRight)
    && forall u :: u in home && u != t && u != l ==>
         tags'[u] == if u == tags[t].splitRight then tags[u].(splitLeft := l) else tags[u]
  }

  lemma MergedChained(tags: Tags, tags': Tags, regions: map<Addr, nat>, home: map<Addr, Addr>, l: Addr, t: Addr)
    requires Chained(tags, regions, home)
    requires Merged(tags, tags', home, l, t) && tags[l].splitRight == t
    ensures Chained(tags', regions, home - {t})
  {
    assert LinkedAt(tags, regions, home, l) && LinkedAt(tags, regions, home, t);
    forall u | u in home - {t} ensures LinkedAt(tags', regions, home - {t}, u) {
      assert LinkedAt(tags, regions, home, u);
      MergedLinkedAt(tags, tags', regions, home, l, t, u);
    }
    forall b | b in regions ensures b in home - {t} && (home - {t})[b] == b {}
    MergedApart(tags, tags', home, l, t);
  }

  lemma MergedApart(tags: Tags, tags': Tags, home: map<Addr, Addr>, l: Addr, t: Addr)
    requires Merged(tags, tags', home, l, t) && Apart(tags, home) && t == l + tags[l].realSize
    ensures Apart(tags', home - {t})
  {
    forall a, b | a in home - {t} && b in home - {t} && a < b ensures Before(tags', a, b) {
      assert Before(tags, a, b);
      if a == l {
        assert Before(tags, t, b);
      }
    }
  }

  lemma MergedLinkedAt(tags: Tags, tags': Tags, regions: map<Addr, nat>, home: map<Addr, Addr>, l: Addr, t: Addr,
                       u: Addr)
    requires Merged(tags, tags', home, l, t) && tags[l].splitRight == t && u in home && u != t
    requires LinkedAt(tags, regions, home, l) && LinkedAt(tags, regions, home, t)
    requires LinkedAt(tags, regions, home, u)
    ensures LinkedAt(tags', regions, home - {t}, u)
  {
    var r := tags[t].splitRight;
    if u == l {
    } else if u == r {
    } else {
      assert tags'[u] == tags[u];
      assert tags[u].splitLeft != t && tags[u].splitRight != t;
    }
  }

  lemma MergedListed(tags: Tags, tags': Tags, home: map<Addr, Addr>, heads: seq<Addr>, stamp: map<Addr, nat>, l: Addr,
                     t: Addr)
    requires Listed(tags, home, heads, stamp)
    requires Merged(tags, tags', home, l, t) && tags[t].index < 0
    ensures Listed(tags', home - {t}, heads, stamp)
  {
    forall u | u in home - {t} ensures ListedAt(tags', home - {t}, heads, stamp, u) {
      assert ListedAt(tags, home, heads, stamp, u);
      assert ListedAt(tags, home, heads, stamp, t);
    }
    forall i | 0 <= i < MAX_EXP ensures HeadAt(tags', home - {t}, heads, i) {
      assert HeadAt(tags, home, heads, i);
    }
  }

  /** `tags'` is `tags` after a new, not yet listed tag `n` took the upper part of tag `t`. */
  ghost predicate Split(tags: Tags, tags': Tags, home: map<Addr, Addr>, t: Addr, n: Addr)
  {
    && home.Keys <= tags.Keys && home.Keys <= tags'.Keys && n in tags' && t in home && n !in home
    && t <= n <= t + tags[t].realSize
    && tags'[t] == tags[t].(realSize := n - t, splitRight := n)
    && tags'[n] == Tag(tags'[n].size, t + tags[t].realSize - n, -1, t, tags[t].splitRight, NULL, NULL)
    && forall u :: u in home && u != t ==>
         tags'[u] == if u == tags[t].splitRight then tags[u].(splitLeft := n) else tags[u]
  }

  lemma SplitChained(tags: Tags, tags': Tags, regions: map<Addr, nat>, home: map<Addr, Addr>, t: Addr, n: Addr)
    requires Chained(tags, regions, home)
    requires t in home && t + HEADER <= n && n + HEADER <= t + tags[t].realSize
    requires Split(tags, tags', home, t, n)
    ensures Chained(tags', regions, home[n := home[t]])
  {
    var home' := home[n := home[t]];
    forall u | u in home' ensures LinkedAt(tags', regions, home', u) {
      assert LinkedAt(tags, regions, home, t);
      assert u != n ==> LinkedAt(tags, regions, home, u);
      SplitLinkedAt(tags, tags', regions, home, t, n, u);
    }
    forall a | a in home ensures a <= t || n <= a {
      assert t < a ==> Before(tags, t, a);
    }
    SplitApart(tags, tags', home, t, n);
    SplitBases(regions, home, t, n);
  }

  lemma SplitBases(regions: map<Addr, nat>, home: map<Addr, Addr>, t: Addr, n: Addr)
    requires t in home && n !in home
    requires forall b :: b in regions ==> b in home && home[b] == b
    ensures forall b :: b in regions ==> b in home[n := home[t]] && home[n := home[t]][b] == b
  {
  }

  lemma SplitApart(tags: Tags, tags': Tags, home: map<Addr, Addr>, t: Addr, n: Addr)
    requires Split(tags, tags', home, t, n) && Apart(tags, home)
    requires forall a :: a in home ==> a <= t || n <= a
    ensures Apart(tags', home[n := home[t]])
  {
    var home' := home[n := home[t]];
    forall a, b | a in home' && b in home' && a < b ensures Before(tags', a, b) {
      if a == n {
        assert Before(tags, t, b);
      } else if b == n {
        assert a < t ==> Before(tags, a, t);
      } else {
        assert Before(tags, a, b);
      }
    }
  }

  lemma SplitLinkedAt(tags: Tags, tags': Tags, regions: map<Addr, nat>, home: map<Addr, Addr>, t: Addr, n: Addr,
                      u: Addr)
    requires Split(tags, tags', home, t, n) && u in home[n := home[t]]
    requires t + HEADER <= n && n + HEADER <= t + tags[t].realSize
    requires LinkedAt(tags, regions, home, t) && (u != n ==> LinkedAt(tags, regions, home, u))
    ensures LinkedAt(tags', regions, home[n := home[t]], u)
  {
    if u == n {
    } else if u == t {
    } else if u == tags[t].splitRight {
    } else {
      assert tags'[u] == tags[u];
    }
  }

  /** An address strictly inside a tag's extent is no tag, and its right neighbour is one. */
  lemma InsideNoTag(tags: Tags, regions: map<Addr, nat>, home: map<Addr, Addr>, t: Addr, n: Addr)
    requires Chained(tags, regions, home) && t in home && t < n < t + tags[t].realSize
    ensures n !in home
    ensures tags[t].splitRight != NULL ==> tags[t].splitRight in home && tags[t].splitRight != t
  {
    assert LinkedAt(tags, regions, home, t);
    assert n in home ==> Before(tags, t, n);
  }

  lemma SplitListed(tags: Tags, tags': Tags, home: map<Addr, Addr>, heads: seq<Addr>, stamp: map<Addr, nat>, t: Addr,
                    n: Addr, c: nat)
    requires Listed(tags, home, heads, stamp) && n != NULL && t in home
    requires Split(tags, tags', home, t, n)
    ensures Listed(tags', home[n := home[t]], heads, stamp[n := c])
  {
    var home' := home[n := home[t]];
    forall u | u in home' ensures ListedAt(tags', home', heads, stamp[n := c], u) {
      if u != n {
        assert ListedAt(tags, home, heads, stamp, u);
      }
    }
    forall i | 0 <= i < MAX_EXP ensures HeadAt(tags', home', heads, i) {
      assert HeadAt(tags, home, heads, i);
    }
  }

  // ----- Fresh and returned page runs -----------------------------------------

  ghost predicate FreshRun(regions: map<Addr, nat>, base: Addr, pages: nat)
  {
    && base > 0 && MIN_PAGES <= pages && pages * PAGE_SIZE < SIZE_LIMIT
    && forall b :: b in regions ==> RunEnd(regions, b) <= base || base + pages * PAGE_SIZE <= b
  }

  lemma FreshRunNoTag(tags: Tags, regions: map<Addr, nat>, home: map<Addr, Addr>, base: Addr, pages: nat)
    requires Chained(tags, regions, home) && FreshRun(regions, base, pages)
    ensures forall t :: t in home ==> t + tags[t].realSize <= base || base + pages * PAGE_SIZE <= t
    ensures base !in home
  {
    forall t | t in home
      ensures t != base && (t + tags[t].realSize <= base || base + pages * PAGE_SIZE <= t)
    {
      assert LinkedAt(tags, regions, home, t);
    }
  }

  function FreshTag(size: nat, pages: nat): (g: Tag)
  {
    Tag(size, pages * PAGE_SIZE, -1, NULL, NULL, NULL, NULL)
  }

  lemma GrownChained(tags: Tags, regions: map<Addr, nat>, home: map<Addr, Addr>, base: Addr, pages: nat, size: nat)
    requires Chained(tags, regions, home) && FreshRun(regions, base, pages)
    ensures Chained(tags[base := FreshTag(size, pages)], regions[base := pages], home[base := base])
  {
    FreshRunNoTag(tags, regions, home, base, pages);
    var tags', regions', home' := tags[base := FreshTag(size, pages)], regions[base := pages], home[base := base];
    forall t | t in home' ensures LinkedAt(tags', regions', home', t) {
      if t != base {
        assert LinkedAt(tags, regions, home, t);
        GrownLinkedAt(tags, regions, home, base, pages, size, t);
      }
    }
    GrownRuns(regions, base, pages);
    GrownApart(tags, home, base, pages, size);
  }

  lemma GrownLinkedAt(tags: Tags, regions: map<Addr, nat>, home: map<Addr, Addr>, base: Addr, pages: nat, size: nat,
                      t: Addr)
    requires LinkedAt(tags, regions, home, t) && base !in home && base !in regions
    ensures LinkedAt(tags[base := FreshTag(size, pages)], regions[base := pages], home[base := base], t)
  {
  }

  lemma GrownRuns(regions: map<Addr, nat>, base: Addr, pages: nat)
    requires GoodRuns(regions) && FreshRun(regions, base, pages)
    ensures GoodRuns(regions[base := pages]) && base !in regions
  {
    var regions' := regions[base := pages];
    forall b, c | b in regions' && c in regions' && b < c ensures RunEnd(regions', b) <= c {
      assert b != base ==> RunEnd(regions', b) == RunEnd(regions, b);
      assert c != base ==> RunEnd(regions', c) == RunEnd(regions, c);
    }
  }

  lemma GrownApart(tags: Tags, home: map<Addr, Addr>, base: Addr, pages: nat, size: nat)
    requires home.Keys <= tags.Keys && Apart(tags, home)
    requires forall t :: t in home ==> t + tags[t].realSize <= base || base + pages * PAGE_SIZE <= t
    ensures Apart(tags[base := FreshTag(size, pages)], home[base := base])
  {
    var tags', home' := tags[base := FreshTag(size, pages)], home[base := base];
    forall a, b | a in home' && b in home' && a < b ensures Before(tags', a, b) {
      assert a != base && b != base ==> Before(tags, a, b);
    }
  }

  lemma GrownListed(tags: Tags, home: map<Addr, Addr>, heads: seq<Addr>, stamp: map<Addr, nat>, base: Addr, g: Tag,
                    c: nat)
    requires Listed(tags, home, heads, stamp) && base !in home && base != NULL
    requires g.index == -1 && g.next == NULL && g.prev == NULL
    ensures Listed(tags[base := g], home[base := base], heads, stamp[base := c])
  {
    var tags', home', stamp' := tags[base := g], home[base := base], stamp[base := c];
    forall t | t in home' ensures ListedAt(tags', home', heads, stamp', t) {
      if t != base {
        assert ListedAt(tags, home, heads, stamp, t);
      }
    }
    forall i | 0 <= i < MAX_EXP ensures HeadAt(tags', home', heads, i) {
      assert HeadAt(tags, home, heads, i);
    }
  }

  lemma ReleasedChained(tags: Tags, regions: map<Addr, nat>, home: map<Addr, Addr>, t: Addr)
    requires Chained(tags, regions, home)
    requires t in home && IsWhole(tags[t])
    ensures t in regions && regions[t] * PAGE_SIZE == tags[t].realSize
    ensures Chained(tags, regions - {t}, home - {t})
  {
    assert LinkedAt(tags, regions, home, t);
    forall u | u in home - {t} ensures LinkedAt(tags, regions - {t}, home - {t}, u) {
      assert LinkedAt(tags, regions, home, u);
      ReleasedLinkedAt(tags, regions, home, t, u);
    }
  }

  lemma ReleasedLinkedAt(tags: Tags, regions: map<Addr, nat>, home: map<Addr, Addr>, t: Addr, u: Addr)
    requires LinkedAt(tags, regions, home, t) && IsWhole(tags[t]) && home.Keys <= tags.Keys && Apart(tags, home)
    requires LinkedAt(tags, regions, home, u) && u != t
    ensures home[u] != t
    ensures LinkedAt(tags, regions - {t}, home - {t}, u)
  {
    assert t < u ==> Before(tags, t, u);
  }

  lemma ReleasedListed(tags: Tags, home: map<Addr, Addr>, heads: seq<Addr>, stamp: map<Addr, nat>, t: Addr)
    requires Listed(tags, home, heads, stamp)
    requires t in home && t in tags && tags[t].index < 0
    ensures Listed(tags, home - {t}, heads, stamp)
  {
    forall u | u in home - {t} ensures ListedAt(tags, home - {t}, heads, stamp, u) {
      assert ListedAt(tags, home, heads, stamp, u);
    }
    forall i | 0 <= i < MAX_EXP ensures HeadAt(tags, home - {t}, heads, i) {
      assert HeadAt(tags, home, heads, i);
    }
  }

  // ----- Ownership -------------------------------------------------------------

  /** Taking a tag out of its list puts it in transit. */
  lemma UnlinkedSettled(tags: Tags, tags': Tags, regions: map<Addr, nat>, home: map<Addr, Addr>, live: map<Addr, nat>,
                        transit: set<Addr>, t: Addr)
    requires Chained(tags, regions, home) && Settled(tags, home, live, transit)
    requires Unlinked(tags, tags', home, t) && t !in live
    ensures Settled(tags', home, live, transit + {t})
  {
    forall u | u in home && u !in transit + {t} ensures SettledAt(tags', live, u) {
      assert SettledAt(tags, live, u);
      assert LinkedAt(tags, regions, home, u);
    }
  }

  /** A tag in transit settles in the list of its class when neither neighbour is free. */
  lemma LinkedSettled(tags: Tags, tags': Tags, regions: map<Addr, nat>, home: map<Addr, Addr>, heads: seq<Addr>,
                      live: map<Addr, nat>, transit: set<Addr>, t: Addr, i: nat)
    requires Chained(tags, regions, home) && Settled(tags, home, live, transit) && t in transit
    requires i < |heads| && Linked(tags, tags', home, heads, t, i)
    requires HEADER <= tags[t].realSize && i == ClassOf(tags[t].realSize - HEADER)
    requires GetTag(tags, tags[t].splitLeft).index < 0 && GetTag(tags, tags[t].splitRight).index < 0
    ensures Settled(tags', home, live, transit - {t})
  {
    forall u | u in home && u !in transit - {t} ensures SettledAt(tags', live, u) {
      assert LinkedAt(tags, regions, home, u) && LinkedAt(tags, regions, home, t);
      assert u != t ==> SettledAt(tags, live, u);
      LinkedSettledAt(tags, tags', regions, home, heads, live, t, i, u);
    }
  }

  lemma LinkedSettledAt(tags: Tags, tags': Tags, regions: map<Addr, nat>, home: map<Addr, Addr>, heads: seq<Addr>,
                        live: map<Addr, nat>, t: Addr, i: nat, u: Addr)
    requires i < |heads| && Linked(tags, tags', home, heads, t, i) && u in home && t !in live
    requires HEADER <= tags[t].realSize && i == ClassOf(tags[t].realSize - HEADER)
    requires GetTag(tags, tags[t].splitLeft).index < 0 && GetTag(tags, tags[t].splitRight).index < 0
    requires LinkedAt(tags, regions, home, t) && LinkedAt(tags, regions, home, u)
    requires u != t ==> SettledAt(tags, live, u)
    ensures SettledAt(tags', live, u)
  {
    var r := tags[u].splitRight;
    if r != NULL && r != t {
      assert tags'[r].index == tags[r].index;
    }
  }

  /** A tag in transit merges into its left neighbour, which is then in transit itself. */
  lemma MergedSettled(tags: Tags, tags': Tags, regions: map<Addr, nat>, home: map<Addr, Addr>, live: map<Addr, nat>,
                      transit: set<Addr>, l: Addr, t: Addr)
    requires Chained(tags, regions, home) && Settled(tags, home, live, transit)
    requires Merged(tags, tags', home, l, t) && tags[l].splitRight == t
    requires t in transit && l !in live
    ensures Settled(tags', home - {t}, live, transit - {t} + {l})
  {
    forall u | u in home - {t} && u !in transit - {t} + {l} ensures SettledAt(tags', live, u) {
      assert SettledAt(tags, live, u);
      assert LinkedAt(tags, regions, home, u) && LinkedAt(tags, regions, home, t) && LinkedAt(tags, regions, home, l);
      MergedSettledAt(tags, tags', regions, home, live, l, t, u);
    }
  }

  lemma MergedSettledAt(tags: Tags, tags': Tags, regions: map<Addr, nat>, home: map<Addr, Addr>, live: map<Addr, nat>,
                        l: Addr, t: Addr, u: Addr)
    requires Merged(tags, tags', home, l, t) && tags[t].splitLeft == l
    requires u in home && u != t && u != l
    requires LinkedAt(tags, regions, home, t) && LinkedAt(tags, regions, home, u)
    requires SettledAt(tags, live, u)
    ensures SettledAt(tags', live, u)
  {
    var r := tags[u].splitRight;
    assert r != t;
    assert r != NULL ==> tags'[r].index == tags[r].index;
  }

  lemma SplitSettled(tags: Tags, tags': Tags, regions: map<Addr, nat>, home: map<Addr, Addr>, live: map<Addr, nat>,
                     transit: set<Addr>, t: Addr, n: Addr)
    requires Chained(tags, regions, home) && Settled(tags, home, live, transit)
    requires Split(tags, tags', home, t, n) && t in transit
    ensures Settled(tags', home[n := home[t]], live, transit + {n})
  {
    forall u | u in home[n := home[t]] && u !in transit + {n} ensures SettledAt(tags', live, u) {
      assert SettledAt(tags, live, u);
      assert LinkedAt(tags, regions, home, u);
      SplitSettledAt(tags, tags', regions, home, live, t, n, u);
    }
  }

  lemma SplitSettledAt(tags: Tags, tags': Tags, regions: map<Addr, nat>, home: map<Addr, Addr>, live: map<Addr, nat>,
                       t: Addr, n: Addr, u: Addr)
    requires Split(tags, tags', home, t, n) && u in home && u != t
    requires LinkedAt(tags, regions, home, u) && SettledAt(tags, live, u)
    ensures SettledAt(tags', live, u)
  {
    var r := tags[u].splitRight;
    assert r != NULL ==> tags'[r].index == tags[r].index;
  }

  lemma GrownSettled(tags: Tags, regions: map<Addr, nat>, home: map<Addr, Addr>, live: map<Addr, nat>,
                     transit: set<Addr>, base: Addr, g: Tag)
    requires Chained(tags, regions, home) && Settled(tags, home, live, transit)
    requires base !in home
    ensures Settled(tags[base := g], home[base := base], live, transit + {base})
  {
    forall u | u in home[base := base] && u !in transit + {base} ensures SettledAt(tags[base := g], live, u) {
      assert SettledAt(tags, live, u);
      assert LinkedAt(tags, regions, home, u);
    }
  }

  // ----- The cache of whole runs -----------------------------------------------

  lemma UnlinkedWhole(tags: Tags, tags': Tags, home: map<Addr, Addr>, t: Addr, i: nat)
    requires Unlinked(tags, tags', home, t)
    ensures WholeFree(tags', home, i) == WholeFree(tags, home, i) - {t}
  {
  }

  lemma LinkedWhole(tags: Tags, tags': Tags, home: map<Addr, Addr>, heads: seq<Addr>, t: Addr, i: nat, j: nat)
    requires i < |heads| && Linked(tags, tags', home, heads, t, i) && tags[t].index < 0
    ensures t !in WholeFree(tags, home, j)
    ensures WholeFree(tags', home, j) == WholeFree(tags, home, j) + if IsWhole(tags[t]) && i == j then {t} else {}
  {
  }

  /** Merging can only make the left part whole. */
  lemma MergedWhole(tags: Tags, tags': Tags, home: map<Addr, Addr>, l: Addr, t: Addr, i: nat)
    requires Merged(tags, tags', home, l, t) && tags[l].splitRight == t && tags[t].splitLeft == l
    requires l != NULL && t != NULL && NULL !in home
    requires tags[t].splitRight != NULL ==> GetTag(tags, tags[t].splitRight).splitLeft != NULL
    ensures WholeFree(tags', home - {t}, i) - {l} == WholeFree(tags, home, i)
  {
  }

  lemma SplitWhole(tags: Tags, tags': Tags, home: map<Addr, Addr>, t: Addr, n: Addr, i: nat)
    requires Split(tags, tags', home, t, n) && tags[t].index < 0 && t != NULL && n != NULL && NULL !in home
    requires tags[t].splitRight != NULL ==> GetTag(tags, tags[t].splitRight).splitLeft != NULL
    ensures WholeFree(tags', home[n := home[t]], i) == WholeFree(tags, home, i)
  {
  }

  // ----- Each step on the whole invariant ---------------------------------------

  lemma UnlinkedSound(tags: Tags, tags': Tags, regions: map<Addr, nat>, home: map<Addr, Addr>, heads: seq<Addr>,
                      heads': seq<Addr>, stamp: map<Addr, nat>, live: map<Addr, nat>, transit: set<Addr>, t: Addr)
    requires Sound(tags, regions, home, heads, stamp, live, transit)
    requires Unlinked(tags, tags', home, t) && 0 <= tags[t].index < |heads| && t !in live
    requires heads' == if heads[tags[t].index] == t then heads[tags[t].index := tags[t].next] else heads
    ensures Sound(tags', regions, home, heads', stamp, live, transit + {t})
    ensures Undisturbed(tags, tags', home, home, live) && SameWhole(tags, tags', home, home, {t})
  {
    ChainFrame(tags, tags', regions, home);
    UnlinkedListed(tags, tags', home, heads, heads', stamp, t);
    UnlinkedSettled(tags, tags', regions, home, live, transit, t);
    forall i: nat ensures WholeFree(tags', home, i) == WholeFree(tags, home, i) - {t} {
      UnlinkedWhole(tags, tags', home, t, i);
    }
  }

  lemma LinkedSound(tags: Tags, tags': Tags, regions: map<Addr, nat>, home: map<Addr, Addr>, heads: seq<Addr>,
                    stamp: map<Addr, nat>, live: map<Addr, nat>, transit: set<Addr>, t: Addr, i: nat)
    requires Sound(tags, regions, home, heads, stamp, live, transit) && t in transit
    requires i < |heads| && Linked(tags, tags', home, heads, t, i) && tags[t].index < 0
    requires HEADER <= tags[t].realSize < SIZE_LIMIT && i == ClassOf(tags[t].realSize - HEADER)
    requires GetTag(tags, tags[t].splitLeft).index < 0 && GetTag(tags, tags[t].splitRight).index < 0
    ensures Sound(tags', regions, home, heads[i := t], stamp[t := After(stamp)], live, transit - {t})
    ensures Undisturbed(tags, tags', home, home, live)
  {
    ClassBounds(tags[t].realSize - HEADER);
    assert SameChain(tags, tags', home);
    ChainFrame(tags, tags', regions, home);
    LinkedListed(tags, tags', home, heads, stamp, t, i);
    LinkedSettled(tags, tags', regions, home, heads, live, transit, t, i);
  }

  lemma MergedSound(tags: Tags, tags': Tags, regions: map<Addr, nat>, home: map<Addr, Addr>, heads: seq<Addr>,
                    stamp: map<Addr, nat>, live: map<Addr, nat>, transit: set<Addr>, l: Addr, t: Addr)
    requires Sound(tags, regions, home, heads, stamp, live, transit)
    requires Merged(tags, tags', home, l, t) && tags[l].splitRight == t
    requires t in transit && l !in live && tags[t].index < 0
    ensures Sound(tags', regions, home - {t}, heads, stamp, live, transit - {t} + {l})
    ensures Undisturbed(tags, tags', home, home - {t}, live)
  {
    MergedChained(tags, tags', regions, home, l, t);
    MergedListed(tags, tags', home, heads, stamp, l, t);
    MergedSettled(tags, tags', regions, home, live, transit, l, t);
  }

  lemma MergedAllWhole(tags: Tags, tags': Tags, regions: map<Addr, nat>, home: map<Addr, Addr>, l: Addr, t: Addr)
    requires Chained(tags, regions, home)
    requires Merged(tags, tags', home, l, t) && tags[l].splitRight == t
    ensures SameWhole(tags', tags, home - {t}, home, {l})
  {
    assert LinkedAt(tags, regions, home, l) && LinkedAt(tags, regions, home, t);
    forall i: nat ensures WholeFree(tags', home - {t}, i) - {l} == WholeFree(tags, home, i) {
      MergedWhole(tags, tags', home, l, t, i);
    }
  }

  lemma SplitSound(tags: Tags, tags': Tags, regions: map<Addr, nat>, home: map<Addr, Addr>, heads: seq<Addr>,
                   stamp: map<Addr, nat>, live: map<Addr, nat>, transit: set<Addr>, t: Addr, n: Addr, c: nat)
    requires Sound(tags, regions, home, heads, stamp, live, transit) && t in transit
    requires t in home && t + HEADER <= n && n + HEADER <= t + tags[t].realSize
    requires Split(tags, tags', home, t, n) && tags[t].index < 0
    ensures Sound(tags', regions, home[n := home[t]], heads, stamp[n := c], live, transit + {n})
    ensures Undisturbed(tags, tags', home, home[n := home[t]], live)
  {
    SplitChained(tags, tags', regions, home, t, n);
    SplitListed(tags, tags', home, heads, stamp, t, n, c);
    SplitSettled(tags, tags', regions, home, live, transit, t, n);
  }

  lemma SplitAllWhole(tags: Tags, tags': Tags, regions: map<Addr, nat>, home: map<Addr, Addr>, t: Addr, n: Addr)
    requires Chained(tags, regions, home)
    requires Split(tags, tags', home, t, n) && tags[t].index < 0 && n != NULL
    ensures SameWhole(tags, tags', home, home[n := home[t]], {})
  {
    assert LinkedAt(tags, regions, home, t);
    forall i: nat ensures WholeFree(tags', home[n := home[t]], i) == WholeFree(tags, home, i) {
      SplitWhole(tags, tags', home, t, n, i);
    }
  }

  lemma GrownSound(tags: Tags, regions: map<Addr, nat>, home: map<Addr, Addr>, heads: seq<Addr>, stamp: map<Addr, nat>,
                   live: map<Addr, nat>, transit: set<Addr>, base: Addr, pages: nat, size: nat, c: nat)
    requires Sound(tags, regions, home, heads, stamp, live, transit) && FreshRun(regions, base, pages)
    ensures base !in home
    ensures var tags', home' := tags[base := FreshTag(size, pages)], home[base := base];
            && Sound(tags', regions[base := pages], home', heads, stamp[base := c], live, transit + {base})
            && Undisturbed(tags, tags', home, home', live)
            && SameWhole(tags, tags', home, home', {})
  {
    FreshRunNoTag(tags, regions, home, base, pages);
    GrownChained(tags, regions, home, base, pages, size);
    GrownListed(tags, home, heads, stamp, base, FreshTag(size, pages), c);
    GrownSettled(tags, regions, home, live, transit, base, FreshTag(size, pages));
  }

  lemma LinkedAllWhole(tags: Tags, tags': Tags, home: map<Addr, Addr>, heads: seq<Addr>, t: Addr, i: nat)
    requires i < |heads| && Linked(tags, tags', home, heads, t, i) && tags[t].index < 0 && !IsWhole(tags[t])
    ensures SameWhole(tags, tags', home, home, {})
  {
    forall j: nat ensures WholeFree(tags', home, j) == WholeFree(tags, home, j) {
      LinkedWhole(tags, tags', home, heads, t, i, j);
    }
  }

  /** Cutting a tag in transit in two and listing the upper part. */
  lemma CutSound(tags: Tags, tags1: Tags, tags2: Tags, regions: map<Addr, nat>, home: map<Addr, Addr>, heads: seq<Addr>,
                 stamp: map<Addr, nat>, live: map<Addr, nat>, t: Addr, n: Addr, i: nat)
    requires Sound(tags, regions, home, heads, stamp, live, {t})
    requires t in home && t + HEADER <= n && n + HEADER <= t + tags[t].realSize < t + SIZE_LIMIT
    requires GetTag(tags, tags[t].splitRight).index < 0
    requires Split(tags, tags1, home, t, n) && tags[t].index < 0
    requires i == ClassOf(tags1[n].realSize - HEADER) && i < |heads|
    requires Linked(tags1, tags2, home[n := home[t]], heads, n, i)
    ensures var home' := home[n := home[t]];
            && Sound(tags2, regions, home', heads[i := n], stamp[n := 0][n := After(stamp[n := 0])], live, {t})
            && Undisturbed(tags, tags2, home, home', live) && SameWhole(tags, tags2, home, home', {})
  {
    var home' := home[n := home[t]];
    var r := tags[t].splitRight;
    assert LinkedAt(tags, regions, home, t);
    SplitSound(tags, tags1, regions, home, heads, stamp, live, {t}, t, n, 0);
    SplitAllWhole(tags, tags1, regions, home, t, n);
    assert r != NULL ==> tags1[r].index == tags[r].index;
    LinkedSound(tags1, tags2, regions, home', heads, stamp[n := 0], live, {t} + {n}, n, i);
    LinkedAllWhole(tags1, tags2, home', heads, n, i);
    assert {t} + {n} - {n} == {t};
  }

  lemma SplitHead(tags: Tags, tags': Tags, home: map<Addr, Addr>, heads: seq<Addr>, stamp: map<Addr, nat>, t: Addr,
                  n: Addr)
    requires Listed(tags, home, heads, stamp) && Split(tags, tags', home, t, n)
    requires n + HEADER <= t + tags[t].realSize < n + SIZE_LIMIT
    ensures HeadAt(tags', home[n := home[t]], heads, ClassOf(tags'[n].realSize - HEADER))
    ensures home[n := home[t]].Keys <= tags'.Keys
  {
    ClassBounds(tags'[n].realSize - HEADER);
    assert HeadAt(tags, home, heads, ClassOf(tags'[n].realSize - HEADER));
  }

  /** The size field of a tag in transit is nobody's concern. */
  lemma ResizedSound(tags: Tags, regions: map<Addr, nat>, home: map<Addr, Addr>, heads: seq<Addr>,
                     stamp: map<Addr, nat>, live: map<Addr, nat>, t: Addr, size: nat)
    requires Sound(tags, regions, home, heads, stamp, live, {t}) && t in home && tags[t].index < 0
    ensures var tags' := tags[t := tags[t].(size := size)];
            && Sound(tags', regions, home, heads, stamp, live, {t})
            && Undisturbed(tags, tags', home, home, live) && SameWhole(tags, tags', home, home, {})
  {
    var tags' := tags[t := tags[t].(size := size)];
    ChainFrame(tags, tags', regions, home);
    ListFrame(tags, tags', home, heads, stamp);
    forall u | u in home && u !in {t} ensures SettledAt(tags', live, u) {
      assert SettledAt(tags, live, u);
    }
  }

  /** A tag in transit goes to the client. */
  lemma HandedOver(tags: Tags, home: map<Addr, Addr>, live: map<Addr, nat>, t: Addr)
    requires Settled(tags, home, live, {t}) && t in home && t in tags
    requires tags[t].index < 0 && HEADER + tags[t].size <= tags[t].realSize
    ensures Settled(tags, home, live[t := tags[t].size], {})
  {
    forall u | u in home ensures SettledAt(tags, live[t := tags[t].size], u) {
      assert u != t ==> SettledAt(tags, live, u);
    }
  }

  /** A client's tag goes into transit. */
  lemma TakenBack(tags: Tags, home: map<Addr, Addr>, live: map<Addr, nat>, t: Addr)
    requires Settled(tags, home, live, {}) && t in home
    ensures Settled(tags, home, live - {t}, {t})
  {
    forall u | u in home && u !in {t} ensures SettledAt(tags, live - {t}, u) {
      assert SettledAt(tags, live, u);
    }
  }

  lemma TakeReady(tags: Tags, regions: map<Addr, nat>, home: map<Addr, Addr>, heads: seq<Addr>, stamp: map<Addr, nat>,
                  live: map<Addr, nat>, t: Addr)
    requires Sound(tags, regions, home, heads, stamp, live, {}) && t in home && tags[t].index >= 0
    ensures ListedAt(tags, home, heads, stamp, t) && LinkedAt(tags, regions, home, t) && SettledAt(tags, live, t)
  {
  }

  lemma TakenCounted(tags: Tags, tags': Tags, home: map<Addr, Addr>, complete: seq<int>, t: Addr)
    requires Counted(tags, home, complete) && SameWhole(tags, tags', home, home, {t})
    requires t in home && t in tags && 0 <= tags[t].index < MAX_EXP
    ensures Counted(tags', home,
                    if IsWhole(tags[t]) then complete[tags[t].index := complete[tags[t].index] - 1] else complete)
  {
    var complete' := if IsWhole(tags[t]) then complete[tags[t].index := complete[tags[t].index] - 1] else complete;
    forall i | 0 <= i < MAX_EXP ensures complete'[i] == |WholeFree(tags', home, i)| <= MAX_COMPLETE {
      assert WholeFree(tags', home, i) == WholeFree(tags, home, i) - {t};
      assert t in WholeFree(tags, home, i) <==> IsWhole(tags[t]) && tags[t].index == i;
    }
  }

  lemma SameCounted(tags: Tags, tags': Tags, home: map<Addr, Addr>, home': map<Addr, Addr>, complete: seq<int>)
    requires Counted(tags, home, complete) && SameWhole(tags, tags', home, home', {})
    ensures Counted(tags', home', complete)
  {
    forall i | 0 <= i < MAX_EXP ensures complete[i] == |WholeFree(tags', home', i)| <= MAX_COMPLETE {
      assert WholeFree(tags', home', i) == WholeFree(tags, home, i) - {};
      assert WholeFree(tags, home, i) - {} == WholeFree(tags, home, i);
    }
  }

  /** Melting a tag in transit into its free left neighbour and unlisting that neighbour. */
  lemma MeltSound(tags: Tags, tags1: Tags, tags2: Tags, regions: map<Addr, nat>, home: map<Addr, Addr>,
                  heads: seq<Addr>, heads': seq<Addr>, stamp: map<Addr, nat>, live: map<Addr, nat>, l: Addr, t: Addr)
    requires Sound(tags, regions, home, heads, stamp, live, {t})
    requires Merged(tags, tags1, home, l, t) && tags[l].splitRight == t
    requires tags[t].index < 0 && 0 <= tags[l].index < |heads|
    requires Unlinked(tags1, tags2, home - {t}, l)
    requires heads' == if heads[tags1[l].index] == l then heads[tags1[l].index := tags1[l].next] else heads
    ensures Sound(tags2, regions, home - {t}, heads', stamp, live, {l})
    ensures Undisturbed(tags, tags2, home, home - {t}, live)
    ensures SameWhole(tags, tags2, home, home - {t}, {})
  {
    assert SettledAt(tags, live, l);
    MergedSound(tags, tags1, regions, home, heads, stamp, live, {t}, l, t);
    MergedAllWhole(tags, tags1, regions, home, l, t);
    assert {t} - {t} + {l} == {l} == {l} + {l};
    UnlinkedSound(tags1, tags2, regions, home - {t}, heads, heads', stamp, live, {l}, l);
    forall i: nat ensures WholeFree(tags2, home - {t}, i) == WholeFree(tags, home, i) - {} {
      assert WholeFree(tags2, home - {t}, i) == WholeFree(tags1, home - {t}, i) - {l};
    }
  }

  /** No free tag has a free left neighbour. */
  lemma LeftOfFree(tags: Tags, regions: map<Addr, nat>, home: map<Addr, Addr>, live: map<Addr, nat>, transit: set<Addr>,
                   t: Addr)
    requires Chained(tags, regions, home) && Settled(tags, home, live, transit)
    requires t in home && tags[t].index >= 0 && tags[t].splitLeft !in transit
    ensures GetTag(tags, tags[t].splitLeft).index < 0
  {
    assert LinkedAt(tags, regions, home, t);
    if tags[t].splitLeft != NULL {
      assert SettledAt(tags, live, tags[t].splitLeft);
    }
  }

  /** Unlisting the free right neighbour of a tag in transit and taking it in. */
  lemma AbsorbSound(tags: Tags, tags1: Tags, tags2: Tags, regions: map<Addr, nat>, home: map<Addr, Addr>,
                    heads: seq<Addr>, heads': seq<Addr>, stamp: map<Addr, nat>, live: map<Addr, nat>, t: Addr, r: Addr)
    requires Sound(tags, regions, home, heads, stamp, live, {t})
    requires t in home && r in home && tags[t].splitRight == r && tags[r].splitLeft == t
    requires tags[t].index < 0 && 0 <= tags[r].index < |heads|
    requires Unlinked(tags, tags1, home, r)
    requires heads' == if heads[tags[r].index] == r then heads[tags[r].index := tags[r].next] else heads
    requires Merged(tags1, tags2, home, t, r)
    ensures Sound(tags2, regions, home - {r}, heads', stamp, live, {t})
    ensures Undisturbed(tags, tags2, home, home - {r}, live)
    ensures SameWhole(tags, tags2, home, home - {r}, {})
  {
    assert SettledAt(tags, live, r);
    UnlinkedSound(tags, tags1, regions, home, heads, heads', stamp, live, {t}, r);
    MergedSound(tags1, tags2, regions, home, heads', stamp, live, {t} + {r}, t, r);
    assert {t} + {r} - {r} + {t} == {t};
    MergedAllWhole(tags1, tags2, regions, home, t, r);
    forall i: nat ensures WholeFree(tags2, home - {r}, i) == WholeFree(tags, home, i) - {} {
      AbsorbWhole(tags, tags1, tags2, home, t, r, i);
    }
  }

  lemma AbsorbWhole(tags: Tags, tags1: Tags, tags2: Tags, home: map<Addr, Addr>, t: Addr, r: Addr, i: nat)
    requires t in home && r in home && r in tags && tags[r].splitLeft == t && t != NULL
    requires SameWhole(tags, tags1, home, home, {r}) && SameWhole(tags2, tags1, home - {r}, home, {t})
    requires t in tags2 && tags2[t].index < 0
    ensures WholeFree(tags2, home - {r}, i) == WholeFree(tags, home, i) - {}
  {
    assert WholeFree(tags1, home, i) == WholeFree(tags, home, i) - {r};
    assert WholeFree(tags1, home, i) == WholeFree(tags2, home - {r}, i) - {t};
    assert r !in WholeFree(tags, home, i) && t !in WholeFree(tags2, home - {r}, i);
    assert WholeFree(tags, home, i) - {r} == WholeFree(tags, home, i);
    assert WholeFree(tags2, home - {r}, i) - {t} == WholeFree(tags2, home - {r}, i);
  }

  /** A tag between two taken neighbours spans its run iff the client holds nothing else of the run. */
  lemma WholeIffAlone(tags: Tags, regions: map<Addr, nat>, home: map<Addr, Addr>, live: map<Addr, nat>, t: Addr)
    requires Chained(tags, regions, home) && Settled(tags, home, live, {t}) && t in home
    requires GetTag(tags, tags[t].splitLeft).index < 0 && GetTag(tags, tags[t].splitRight).index < 0
    ensures IsWhole(tags[t]) <==> forall u :: u in live ==> home[u] != home[t]
    ensures IsWhole(tags[t]) ==> t == home[t] && t in regions && tags[t].realSize == regions[t] * PAGE_SIZE
  {
    var l, r := tags[t].splitLeft, tags[t].splitRight;
    assert LinkedAt(tags, regions, home, t);
    if IsWhole(tags[t]) {
      forall u | u in live ensures home[u] != home[t] {
        assert LinkedAt(tags, regions, home, u);
        assert t < u ==> Before(tags, t, u);
      }
    } else if l != NULL {
      assert LinkedAt(tags, regions, home, l);
      assert SettledAt(tags, live, l);
    } else {
      assert LinkedAt(tags, regions, home, r);
      assert SettledAt(tags, live, r);
    }
  }

  /** A block in the client's hands lies inside a page run that the allocator holds. */
  lemma LiveInRun(tags: Tags, regions: map<Addr, nat>, home: map<Addr, Addr>, live: map<Addr, nat>, transit: set<Addr>,
                  u: Addr)
    requires Chained(tags, regions, home) && Settled(tags, home, live, transit) && u in live
    ensures u in home && home[u] in regions
    ensures home[u] <= u && u + HEADER + live[u] <= u + tags[u].realSize <= RunEnd(regions, home[u])
  {
    assert LinkedAt(tags, regions, home, u) && SettledAt(tags, live, u);
  }

  lemma TagBounds(tags: Tags, regions: map<Addr, nat>, home: map<Addr, Addr>, t: Addr)
    requires Chained(tags, regions, home) && t in home
    ensures HEADER <= tags[t].realSize < SIZE_LIMIT
  {
    assert LinkedAt(tags, regions, home, t);
  }

  /** What free may rely on before it melts `t` into its free left neighbour `l`. */
  lemma LeftReady(tags: Tags, regions: map<Addr, nat>, home: map<Addr, Addr>, heads: seq<Addr>, stamp: map<Addr, nat>,
                  live: map<Addr, nat>, t: Addr, l: Addr)
    requires Sound(tags, regions, home, heads, stamp, live, {t}) && t in home
    requires l == tags[t].splitLeft && l != NULL && GetTag(tags, l).index >= 0
    ensures l in home && l != t && home[l] == home[t] && tags[l].splitRight == t && l !in live
    ensures tags[l].index < |heads|
    ensures GetTag(tags, tags[l].splitLeft).index < 0
    ensures tags[l].splitLeft != NULL ==> tags[l].splitLeft in home && tags[l].splitLeft != t
  {
    assert LinkedAt(tags, regions, home, t) && LinkedAt(tags, regions, home, l);
    assert SettledAt(tags, live, l) && ListedAt(tags, home, heads, stamp, l);
    LeftOfFree(tags, regions, home, live, {t}, l);
  }

  lemma MeltedLeft(tags: Tags, tags1: Tags, tags2: Tags, home: map<Addr, Addr>, l: Addr, t: Addr)
    requires Merged(tags, tags1, home, l, t) && Unlinked(tags1, tags2, home - {t}, l) && NULL !in home
    requires GetTag(tags, tags[l].splitLeft).index < 0
    requires tags[l].splitLeft != NULL ==> tags[l].splitLeft in home && tags[l].splitLeft != t
    ensures GetTag(tags2, tags2[l].splitLeft).index < 0
  {
    var ll := tags[l].splitLeft;
    if ll != NULL && ll != l {
      assert tags1[ll].index == tags[ll].index;
      assert tags2[ll].index == tags1[ll].index;
    }
  }

  /** What free may rely on before `t` takes its free right neighbour `r` in. */
  lemma RightReady(tags: Tags, regions: map<Addr, nat>, home: map<Addr, Addr>, heads: seq<Addr>, stamp: map<Addr, nat>,
                   live: map<Addr, nat>, t: Addr, r: Addr)
    requires Sound(tags, regions, home, heads, stamp, live, {t}) && t in home
    requires r == tags[t].splitRight && r != NULL && GetTag(tags, r).index >= 0
    ensures r in home && r != t && tags[r].splitLeft == t
    ensures GetTag(tags, tags[r].splitRight).index < 0
    ensures tags[r].splitRight != NULL ==>
              tags[r].splitRight in home && tags[r].splitRight != t && tags[r].splitRight != r
    ensures tags[t].splitLeft != NULL ==> tags[t].splitLeft in home && tags[t].splitLeft != t && tags[t].splitLeft != r
  {
    assert LinkedAt(tags, regions, home, t) && LinkedAt(tags, regions, home, r);
    assert SettledAt(tags, live, r);
    if tags[r].splitRight != NULL {
      assert LinkedAt(tags, regions, home, tags[r].splitRight);
    }
    if tags[t].splitLeft != NULL {
      assert LinkedAt(tags, regions, home, tags[t].splitLeft);
    }
  }

  lemma AbsorbedNeighbours(tags: Tags, tags1: Tags, tags2: Tags, home: map<Addr, Addr>, t: Addr, r: Addr)
    requires Unlinked(tags, tags1, home, r) && Merged(tags1, tags2, home, t, r)
    requires GetTag(tags, tags[t].splitLeft).index < 0 && GetTag(tags, tags[r].splitRight).index < 0
    requires tags[r].splitRight != NULL ==>
               tags[r].splitRight in home && tags[r].splitRight != t && tags[r].splitRight != r
    requires tags[t].splitLeft != NULL ==> tags[t].splitLeft in home && tags[t].splitLeft != t && tags[t].splitLeft != r
    ensures GetTag(tags2, tags2[t].splitLeft).index < 0 && GetTag(tags2, tags2[t].splitRight).index < 0
    ensures tags2[t].index == tags[t].index
  {
    assert tags2[t].splitRight == tags[r].splitRight && tags2[t].splitLeft == tags[t].splitLeft;
  }

  /** Listing a tag between two taken neighbours, with the cache counter kept up. */
  lemma ListedAgain(tags: Tags, tags': Tags, regions: map<Addr, nat>, home: map<Addr, Addr>, heads: seq<Addr>,
                    stamp: map<Addr, nat>, live: map<Addr, nat>, complete: seq<int>, t: Addr, i: nat)
    requires Sound(tags, regions, home, heads, stamp, live, {t}) && Counted(tags, home, complete)
    requires i < |heads| && Linked(tags, tags', home, heads, t, i) && tags[t].index < 0
    requires HEADER <= tags[t].realSize < SIZE_LIMIT && i == ClassOf(tags[t].realSize - HEADER)
    requires GetTag(tags, tags[t].splitLeft).index < 0 && GetTag(tags, tags[t].splitRight).index < 0
    requires IsWhole(tags[t]) ==> complete[i] != MAX_COMPLETE
    ensures Sound(tags', regions, home, heads[i := t], stamp[t := After(stamp)], live, {})
    ensures Counted(tags', home, if IsWhole(tags[t]) then complete[i := complete[i] + 1] else complete)
    ensures Undisturbed(tags, tags', home, home, live)
  {
    LinkedSound(tags, tags', regions, home, heads, stamp, live, {t}, t, i);
    assert {t} - {t} == {};
    ListedCounted(tags, tags', home, heads, complete, t, i);
  }

  lemma ListedCounted(tags: Tags, tags': Tags, home: map<Addr, Addr>, heads: seq<Addr>, complete: seq<int>, t: Addr,
                      i: nat)
    requires Counted(tags, home, complete)
    requires i < |heads| == MAX_EXP && Linked(tags, tags', home, heads, t, i) && tags[t].index < 0
    requires IsWhole(tags[t]) ==> complete[i] != MAX_COMPLETE
    ensures Counted(tags', home, if IsWhole(tags[t]) then complete[i := complete[i] + 1] else complete)
  {
    var complete' := if IsWhole(tags[t]) then complete[i := complete[i] + 1] else complete;
    forall j | 0 <= j < MAX_EXP ensures complete'[j] == |WholeFree(tags', home, j)| <= MAX_COMPLETE {
      LinkedWhole(tags, tags', home, heads, t, i, j);
    }
  }

  /** Giving a whole run back to the page allocator. */
  lemma ReleasedSound(tags: Tags, regions: map<Addr, nat>, home: map<Addr, Addr>, heads: seq<Addr>,
                      stamp: map<Addr, nat>, live: map<Addr, nat>, complete: seq<int>, t: Addr)
    requires Sound(tags, regions, home, heads, stamp, live, {t}) && Counted(tags, home, complete)
    requires t in home && IsWhole(tags[t]) && tags[t].index < 0
    ensures t in regions && regions[t] * PAGE_SIZE == tags[t].realSize
    ensures Sound(tags, regions - {t}, home - {t}, heads, stamp, live, {}) && Counted(tags, home - {t}, complete)
    ensures Undisturbed(tags, tags, home, home - {t}, live)
  {
    ReleasedChained(tags, regions, home, t);
    ReleasedListed(tags, home, heads, stamp, t);
    forall u | u in home - {t} ensures SettledAt(tags, live, u) {
      assert u in home && u !in {t};
    }
    assert SameWhole(tags, tags, home, home - {t}, {}) by {
      forall i: nat ensures WholeFree(tags, home - {t}, i) == WholeFree(tags, home, i) - {} {}
    }
    SameCounted(tags, tags, home, home - {t}, complete);
  }

  lemma LiveTag(tags: Tags, regions: map<Addr, nat>, home: map<Addr, Addr>, live: map<Addr, nat>, t: Addr)
    requires Chained(tags, regions, home) && Settled(tags, home, live, {})
    ensures t in live ==> t in home && GetTag(tags, t).index < 0
  {
    if t in live {
      assert LinkedAt(tags, regions, home, t) && SettledAt(tags, live, t);
    }
  }

  /** Whether the merged tag `m` goes back to the page allocator can be told before the call. */
  lemma RunsTold(tags: Tags, tags0: Tags, regions: map<Addr, nat>, home: map<Addr, Addr>, home0: map<Addr, Addr>,
                 live: map<Addr, nat>, live0: map<Addr, nat>, complete: seq<int>, m: Addr, t: Addr)
    requires Chained(tags, regions, home) && Settled(tags, home, live, {m}) && m in home
    requires GetTag(tags, tags[m].splitLeft).index < 0 && GetTag(tags, tags[m].splitRight).index < 0
    requires t in home0 && home0[t] == home[m] && live == live0 - {t} && Undisturbed(tags0, tags, home0, home, live)
    ensures HEADER <= tags[m].realSize
    ensures RunsWithout(regions, home0, live0, complete, t) ==
            var c := ClassOf(tags[m].realSize - HEADER);
            if IsWhole(tags[m]) && c < |complete| && complete[c] == MAX_COMPLETE then regions - {m} else regions
  {
    assert LinkedAt(tags, regions, home, m);
    WholeIffAlone(tags, regions, home, live, m);
    var alone := forall u :: u in live0 && u in home0 && u != t ==> home0[u] != home0[t];
    assert alone <==> forall u :: u in live ==> home[u] != home[m] by {
      assert forall u :: u in live0 && u != t <==> u in live;
    }
  }
}
