/** The kernel heap of src/lib/alloc.c: malloc and free over boundary tags. */
module LibAlloc {
  import opened Basics
  import opened BoundaryTags
  import opened TagSteps
  import opened HeapLayout
  import opened ByteCopy

  function PagesFor(size: nat): (pages: nat)
  {
    var usage := size + HEADER;
    var pages := usage / PAGE_SIZE + if usage % PAGE_SIZE != 0 then 1 else 0;
    if pages < MIN_PAGES then MIN_PAGES else pages
  }

  /** That is the least number of pages, no less than 16, with room for `size` bytes and a header. */
  lemma LeastPages(size: nat, p: nat)
    requires p >= 16
    ensures PagesFor(size) >= 16 && (p * 4096 >= size + 48 <==> p >= PagesFor(size))
  {
  }

  function Exponent(size: nat): (e: int)
  {
    if size < 0x100 then -1 else Log2(size)
  }

  function Min(a: nat, b: nat): nat
  {
    if a < b then a else b
  }

  /** The client's blocks without the one at `ptr`, if that is one. */
  ghost function Without(live: map<Addr, nat>, ptr: Addr): map<Addr, nat>
  {
    if ptr < HEADER then live else live - {TagOf(ptr)}
  }

  /** The cast from an unsigned to a signed 32-bit integer. */
  function AsInt32(x: int): (r: int)
    ensures -SIZE_LIMIT <= x < SIZE_LIMIT ==> r == x
  {
    var u := x % 0x1_0000_0000;
    if u < SIZE_LIMIT then u else u - 0x1_0000_0000
  }

  /** Tag `t` had `room` bytes and was given to a block of `size`: it keeps them all when what is left over, without a
      header for it, would be less than 256 bytes, and otherwise just what the block needs; then, and only then, there
      is one tag more, right behind it, free and filed under the class of the rest. */
  ghost predicate CutOff(room: nat, size: nat, t: Addr, tags: Tags, home0: map<Addr, Addr>, home: map<Addr, Addr>)
  {
    && t in tags && t in home0
    && if room < size + 2 * HEADER + 0x100 then tags[t].realSize == room && home == home0
       else
         var n := t + HEADER + size;
         && tags[t].realSize == HEADER + size && home == home0[n := home0[t]] && n !in home0 && n in tags
         && tags[n].realSize == room - HEADER - size && tags[n].index == ClassOf(room - 2 * HEADER - size)
  }

  class Heap {
    /** Header memory, by address.  Addresses that hold no current tag may hold stale ones. */
    var tags: Tags
    /** Heads of the free lists, by size class. */
    var freePages: seq<Addr>
    /** How many whole page runs each free list keeps. */
    var completePages: seq<int>
    var initialized: bool
    /** Byte memory, by address. */
    const mem: array<bv8>

    /** Page runs obtained from the page allocator and not yet given back, with their page counts. */
    ghost var regions: map<Addr, nat>
    ghost var home: map<Addr, Addr>
    ghost var stamp: map<Addr, nat>
    /** Blocks in the client's hands, with the size asked for. */
    ghost var live: map<Addr, nat>

    ghost predicate InOrder(transit: set<Addr>)
      reads this
    {
      Sound(tags, regions, home, freePages, stamp, live, transit)
    }

    ghost predicate Valid()
      reads this, mem
    {
      && InOrder({})
      && Counted(tags, home, completePages)
      && (!initialized ==> home == map[])
      && InMemory(regions, mem.Length) && Marked(home, mem[..])
    }

    /** The statics before the first call, on a byte memory given by the machine. */
    constructor (mem: array<bv8>)
      ensures Valid() && this.mem == mem && live == map[] && regions == map[]
    {
      this.mem := mem;
      tags, initialized := map[], false;
      freePages, completePages := seq(MAX_EXP, _ => NULL), seq(MAX_EXP, _ => 0);
      regions, home, stamp, live := map[], map[], map[], map[];
      new;
      forall i | 0 <= i < MAX_EXP ensures completePages[i] == |WholeFree(tags, home, i)| {
        assert WholeFree(tags, home, i) == {};
      }
    }

    /** Index of the highest bit of `size`, or -1 below the smallest class. */
    static method GetExp(size: nat) returns (e: int)
      requires size < SIZE_LIMIT
      ensures e == Exponent(size)
    {
      if size < 0x100 {
        return -1;
      }
      var shift := MIN_EXP;
      ClassBounds(size);
      Log2Bounds(size);
      Pow2Monotone(shift - 1, Log2(size));
      while shift < MAX_EXP
        invariant MIN_EXP <= shift <= Log2(size) + 1
        invariant Pow2(shift - 1) <= size
      {
        if Pow2(shift) > size {
          break;
        }
        shift := shift + 1;
      }
      Log2Unique(size, shift - 1);
      return shift - 1;
    }

    method RemoveTag(t: Addr)
      requires t in home && home.Keys <= tags.Keys && NULL !in home && |freePages| == MAX_EXP
      requires tags[t].index >= 0 && ListedAt(tags, home, freePages, stamp, t)
      modifies this`tags, this`freePages
      ensures Unlinked(old(tags), tags, home, t)
      ensures freePages == if old(freePages)[old(tags)[t].index] == t
                           then old(freePages)[old(tags)[t].index := old(tags)[t].next] else old(freePages)
    {
      if freePages[tags[t].index] == t {
        freePages := freePages[tags[t].index := tags[t].next];
      }
      if tags[t].prev != NULL {
        tags := tags[tags[t].prev := tags[tags[t].prev].(next := tags[t].next)];
      }
      if tags[t].next != NULL {
        tags := tags[tags[t].next := tags[tags[t].next].(prev := tags[t].prev)];
      }
      tags := tags[t := tags[t].(index := -1, next := NULL, prev := NULL)];
    }

    /** Put tag `t` at the head of the list of its class; a negative `index` stands for that class. */
    method InsertTag(t: Addr, index: int) returns (ghost i: nat)
      requires t in home && home.Keys <= tags.Keys && NULL !in home && |freePages| == MAX_EXP
      requires HEADER <= tags[t].realSize < SIZE_LIMIT && tags[t].index < 0
      requires index < 0 || index == ClassOf(tags[t].realSize - HEADER)
      requires HeadAt(tags, home, freePages, ClassOf(tags[t].realSize - HEADER))
      modifies this`tags, this`freePages
      ensures i == ClassOf(old(tags)[t].realSize - HEADER) < MAX_EXP
      ensures Linked(old(tags), tags, home, old(freePages), t, i)
      ensures freePages == old(freePages)[i := t]
    {
      ClassBounds(tags[t].realSize - HEADER);
      var realIndex;
      if index < 0 {
        realIndex := GetExp(tags[t].realSize - HEADER);
        if realIndex < MIN_EXP {
          realIndex := MIN_EXP;
        }
      } else {
        realIndex := index;
      }
      tags := tags[t := tags[t].(index := realIndex)];
      if freePages[realIndex] != NULL {
        tags := tags[freePages[realIndex] := tags[freePages[realIndex]].(prev := t)];
        tags := tags[t := tags[t].(next := freePages[realIndex])];
      }
      freePages := freePages[realIndex := t];
      i := realIndex;
    }

    /** Give tag `t` to its left neighbour. */
    method MeltLeft(t: Addr) returns (left: Addr)
      requires Chained(tags, regions, home) && t in home && tags[t].splitLeft != NULL
      modifies this`tags, this`home
      ensures left == old(tags)[t].splitLeft && left in old(home) && old(tags)[left].splitRight == t
      ensures Merged(old(tags), tags, old(home), left, t) && home == old(home) - {t}
    {
      assert LinkedAt(tags, regions, home, t);
      assert LinkedAt(tags, regions, home, tags[t].splitLeft);
      left := tags[t].splitLeft;
      tags := tags[left := tags[left].(realSize := tags[left].realSize + tags[t].realSize,
                                       splitRight := tags[t].splitRight)];
      if tags[t].splitRight != NULL {
        tags := tags[tags[t].splitRight := tags[tags[t].splitRight].(splitLeft := left)];
      }
      home := home - {t};
    }

    /** Take the free right neighbour of tag `t` out of its list and into `t`. */
    method AbsorbRight(t: Addr) returns (ghost right: Addr, ghost unlisted: Tags)
      requires Chained(tags, regions, home) && Listed(tags, home, freePages, stamp)
      requires t in home && tags[t].splitRight != NULL && tags[t].index < 0
      requires GetTag(tags, tags[t].splitRight).index >= 0
      modifies this`tags, this`home, this`freePages
      ensures right == old(tags)[t].splitRight && right in old(home) && old(tags)[right].splitLeft == t
      ensures 0 <= old(tags)[right].index < |old(freePages)|
      ensures Unlinked(old(tags), unlisted, old(home), right)
      ensures freePages == if old(freePages)[old(tags)[right].index] == right
                           then old(freePages)[old(tags)[right].index := old(tags)[right].next] else old(freePages)
      ensures Merged(unlisted, tags, old(home), t, right) && home == old(home) - {right}
    {
      assert LinkedAt(tags, regions, home, t);
      right := tags[t].splitRight;
      var r := tags[t].splitRight;
      assert LinkedAt(tags, regions, home, r);
      assert ListedAt(tags, home, freePages, stamp, r);
      RemoveTag(r);
      unlisted := tags;
      tags := tags[t := tags[t].(realSize := tags[t].realSize + tags[r].realSize,
                                 splitRight := tags[r].splitRight)];
      if tags[r].splitRight != NULL {
        tags := tags[tags[r].splitRight := tags[tags[r].splitRight].(splitLeft := t)];
      }
      home := home - {r};
    }

    /** Write a new header behind the `size` bytes that tag `t` keeps. */
    method CutTag(t: Addr) returns (n: Addr)
      requires home.Keys <= tags.Keys && NULL !in home && t in home
      requires 2 * HEADER + tags[t].size <= tags[t].realSize < SIZE_LIMIT
      requires t + HEADER + tags[t].size !in home
      requires tags[t].splitRight != NULL ==> tags[t].splitRight in home && tags[t].splitRight != t
      requires t + HEADER + tags[t].size + 4 <= mem.Length
      modifies this`tags, this`home, mem
      ensures n == t + HEADER + old(tags)[t].size && mem[..] == Stamped(old(mem[..]), n)
      ensures Split(old(tags), tags, old(home), t, n) && home == old(home)[n := old(home)[t]]
    {
      var remainder := tags[t].realSize - HEADER - tags[t].size;
      n := t + HEADER + tags[t].size;
      // The size field is whatever the bytes there say; the index is written by InsertTag.
      var stale: nat := *;
      WriteMagic(n);
      tags := tags[n := Tag(stale, remainder, -1, t, tags[t].splitRight, NULL, NULL)];
      if tags[n].splitRight != NULL {
        tags := tags[tags[n].splitRight := tags[tags[n].splitRight].(splitLeft := n)];
      }
      tags := tags[t := tags[t].(splitRight := n, realSize := tags[t].realSize - tags[n].realSize)];
      home := home[n := home[t]];
    }

    method WriteMagic(a: Addr)
      requires a + 4 <= mem.Length
      modifies mem
      ensures mem[..] == Stamped(old(mem[..]), a)
    {
      mem[a], mem[a + 1], mem[a + 2], mem[a + 3] := 0xde, 0xc0, 0x01, 0xc0;
    }

    /** Cut what tag `t` does not need off into a free tag of its own. */
    method SplitTag(t: Addr) returns (n: Addr)
      requires InOrder({t}) && t in home && tags[t].index < 0
      requires 2 * HEADER + tags[t].size <= tags[t].realSize < SIZE_LIMIT
      requires GetTag(tags, tags[t].splitRight).index < 0 && InMemory(regions, mem.Length) && Marked(home, mem[..])
      modifies this`tags, this`home, this`stamp, this`freePages, mem
      ensures InOrder({t}) && n == t + HEADER + old(tags)[t].size && home == old(home)[n := old(home)[t]]
      ensures n !in old(home) && tags[n].realSize == old(tags)[t].realSize - HEADER - old(tags)[t].size
      ensures tags[n].index == ClassOf(tags[n].realSize - HEADER)
      ensures Marked(home, mem[..]) && SameBlocks(live, old(mem[..]), mem[..])
      ensures tags[t] == old(tags)[t].(realSize := HEADER + old(tags)[t].size, splitRight := n)
      ensures Undisturbed(old(tags), tags, old(home), home, live)
      ensures SameWhole(old(tags), tags, old(home), home, {})
    {
      ghost var tags0, home0, heads0 := tags, home, freePages;
      InsideNoTag(tags, regions, home, t, t + HEADER + tags[t].size);
      TagInMemory(tags, regions, home, t, mem.Length);
      ghost var m := mem[..];
      n := CutTag(t);
      StampKeeps(tags0, regions, home0, live, m, t, n);
      ghost var tags1 := tags;
      SplitHead(tags0, tags1, home0, freePages, stamp, t, n);
      ghost var i := InsertTag(n, -1);
      CutSound(tags0, tags1, tags, regions, home0, heads0, stamp, live, t, n, i);
      stamp := stamp[n := 0][n := After(stamp[n := 0])];
    }

    /** Get a page run that can hold `size` bytes; `base` is the page allocator's answer. */
    method AllocateNewTag(size: nat, base: Addr) returns (t: Addr)
      requires InOrder({}) && FreshRun(regions, base, PagesFor(size))
      requires base + PagesFor(size) * PAGE_SIZE <= mem.Length
      modifies this`tags, this`home, this`regions, this`stamp, mem
      ensures t == base && base !in old(home)
      ensures tags == old(tags)[base := FreshTag(size, PagesFor(size))]
      ensures home == old(home)[base := base] && regions == old(regions)[base := PagesFor(size)]
      ensures InOrder({base})
      ensures Undisturbed(old(tags), tags, old(home), home, live)
      ensures SameWhole(old(tags), tags, old(home), home, {})
      ensures HasMagic(mem[..], base)
      ensures forall a :: 0 <= a < mem.Length && !(base <= a < base + 4) ==>
                mem[a] == if base <= a < base + PagesFor(size) * PAGE_SIZE then 0 else old(mem[a])
    {
      var pages := CountPages(size);
      ZeroFill(base, pages * PAGE_SIZE);
      GrownSound(tags, regions, home, freePages, stamp, live, {}, base, pages, size, 0);
      assert {} + {base} == {base};
      t := base;
      WriteMagic(t);
      tags := tags[t := Tag(size, pages * PAGE_SIZE, -1, NULL, NULL, NULL, NULL)];
      home, regions, stamp := home[base := base], regions[base := pages], stamp[base := 0];
    }

    static method CountPages(size: nat) returns (pages: nat)
      ensures pages == PagesFor(size)
    {
      var usage := size + HEADER;
      pages := usage / PAGE_SIZE;
      if usage % PAGE_SIZE != 0 {
        pages := pages + 1;
      }
      if pages < MIN_PAGES {
        pages := MIN_PAGES;
      }
    }

    /** The page allocator hands pages out zeroed. */
    method ZeroFill(from: Addr, n: nat)
      requires from + n <= mem.Length
      modifies mem
      ensures forall a :: 0 <= a < mem.Length ==> mem[a] == if from <= a < from + n then 0 else old(mem[a])
    {
      for i := 0 to n
        invariant forall a :: 0 <= a < mem.Length ==> mem[a] == if from <= a < from + i then 0 else old(mem[a])
      {
        mem[from + i] := 0;
      }
    }

    /** First fit in one free list. */
    method FindFit(index: nat, size: nat) returns (tag: Addr)
      requires InOrder({}) && MIN_EXP <= index < MAX_EXP
      ensures FirstFit(tags, ListFrom(tags, stamp, freePages[index]), size, tag)
      ensures tag != NULL ==> tag in home && tags[tag].index == index && Fits(tags, tag, size)
    {
      ghost var l, k := ListFrom(tags, stamp, freePages[index]), 0;
      assert HeadAt(tags, home, freePages, index);
      tag := freePages[index];
      while tag != NULL
        invariant tag != NULL ==> tag in home && tags[tag].index == index
        invariant k <= |l| && ListFrom(tags, stamp, tag) == l[k..]
        invariant forall j :: 0 <= j < k ==> !Fits(tags, l[j], size)
        decreases |l| - k
      {
        assert ListedAt(tags, home, freePages, stamp, tag);
        if tags[tag].realSize - HEADER >= size + HEADER {
          assert l[k] == tag;
          break;
        }
        tag, k := tags[tag].next, k + 1;
      }
    }

    /** Take a free tag out of its list for the client. */
    method TakeTag(t: Addr)
      requires InOrder({}) && Counted(tags, home, completePages) && t in home && tags[t].index >= 0
      modifies this`tags, this`freePages, this`completePages
      ensures InOrder({t}) && Counted(tags, home, completePages)
      ensures tags[t] == old(tags)[t].(index := -1, next := NULL, prev := NULL)
      ensures GetTag(tags, tags[t].splitRight).index < 0
      ensures Undisturbed(old(tags), tags, home, home, live)
    {
      var index := tags[t].index;
      ghost var tags0, heads0 := tags, freePages;
      TakeReady(tags, regions, home, freePages, stamp, live, t);
      RemoveTag(t);
      UnlinkedSound(tags0, tags, regions, home, heads0, freePages, stamp, live, {}, t);
      assert {} + {t} == {t};
      TakenCounted(tags0, tags, home, completePages, t);
      if tags[t].splitLeft == NULL && tags[t].splitRight == NULL {
        completePages := completePages[index := completePages[index] - 1];
      }
    }

    /** Give tag `t` its size and list what is left over, when it is worth a tag of its own. */
    method Carve(t: Addr, size: nat)
      requires InOrder({t}) && Counted(tags, home, completePages) && t in home && tags[t].index < 0
      requires HEADER + size <= tags[t].realSize < SIZE_LIMIT
      requires GetTag(tags, tags[t].splitRight).index < 0
      requires t !in live && InMemory(regions, mem.Length) && Marked(home, mem[..])
      modifies this`tags, this`home, this`stamp, this`freePages, this`live, mem
      ensures InOrder({}) && Counted(tags, home, completePages) && live == old(live)[t := size]
      ensures Marked(home, mem[..]) && SameBlocks(old(live), old(mem[..]), mem[..])
      ensures t in home && home[t] == old(home)[t] && CutOff(old(tags)[t].realSize, size, t, tags, old(home), home)
      ensures Undisturbed(old(tags), tags, old(home), home, old(live))
    {
      ghost var tags0, home0 := tags, home;
      ResizedSound(tags, regions, home, freePages, stamp, live, t, size);
      tags := tags[t := tags[t].(size := size)];
      SameCounted(tags0, tags, home, home, completePages);
      CutRest(t, size);
      HandedOver(tags, home, live, t);
      live := live[t := size];
    }

    /** What tag `t` has beyond its `size` bytes becomes a tag of its own, if it is worth one. */
    method CutRest(t: Addr, size: nat)
      requires InOrder({t}) && Counted(tags, home, completePages) && t in home && tags[t].index < 0
      requires tags[t].size == size && HEADER + size <= tags[t].realSize < SIZE_LIMIT
      requires GetTag(tags, tags[t].splitRight).index < 0
      requires InMemory(regions, mem.Length) && Marked(home, mem[..])
      modifies this`tags, this`home, this`stamp, this`freePages, mem
      ensures InOrder({t}) && Counted(tags, home, completePages) && t in home && home[t] == old(home)[t]
      ensures tags[t].index < 0 && tags[t].size == size
      ensures CutOff(old(tags)[t].realSize, size, t, tags, old(home), home)
      ensures Marked(home, mem[..]) && SameBlocks(live, old(mem[..]), mem[..])
      ensures Undisturbed(old(tags), tags, old(home), home, live)
    {
      var remainder := AsInt32(tags[t].realSize - size - HEADER * 2);
      if remainder > 0 {
        var childIndex := GetExp(remainder);
        if childIndex >= 0 {
          ghost var tags0, home0 := tags, home;
          var n := SplitTag(t);
          SameCounted(tags0, tags, home0, home, completePages);
        }
      }
    }

    /** A tag for `size` bytes: the first fit in the list of their class, else a fresh page run. */
    method Obtain(size: nat, base: Addr) returns (tag: Addr)
      requires InOrder({}) && Counted(tags, home, completePages)
      requires PagesFor(size) * PAGE_SIZE < SIZE_LIMIT
      requires FreshRun(regions, base, PagesFor(size)) && base + PagesFor(size) * PAGE_SIZE <= mem.Length
      requires Marked(home, mem[..])
      modifies this`tags, this`home, this`regions, this`stamp, this`freePages, this`completePages, mem
      ensures InOrder({tag}) && Counted(tags, home, completePages) && Marked(home, mem[..])
      ensures tag in home && tags[tag].index < 0 && HEADER + size <= tags[tag].realSize < SIZE_LIMIT
      ensures GetTag(tags, tags[tag].splitRight).index < 0 && tag !in live
      ensures Undisturbed(old(tags), tags, old(home), home, live)
      ensures Chosen(old(tags), old(stamp), old(freePages), old(home), size, tag)
      ensures tags[tag].realSize == if tag in old(home) then old(tags)[tag].realSize else PagesFor(size) * PAGE_SIZE
      ensures tag in old(home) ==> home == old(home) && regions == old(regions)
      ensures tag !in old(home) ==>
                tag == base && home == old(home)[base := base] && regions == old(regions)[base := PagesFor(size)]
      ensures SameRuns(old(regions), old(mem[..]), mem[..])
    {
      ClassBounds(size);
      var index := GetExp(size);
      if index < MIN_EXP {
        index := MIN_EXP;
      }
      tag := FindFit(index, size);
      if tag == NULL {
        ghost var tags0, home0 := tags, home;
        ghost var regions0, m := regions, mem[..];
        tag := AllocateNewTag(size, base);
        SameCounted(tags0, tags, home0, home, completePages);
        RunsKeepMarks(tags0, regions0, home0, m, mem[..]);
      } else {
        TagBounds(tags, regions, home, tag);
        TakeTag(tag);
      }
    }

    /** `base` is the page allocator's answer, should it be asked for a run. */
    method Malloc(size: nat, base: Addr) returns (ptr: Addr)
      requires Valid() && PagesFor(size) * PAGE_SIZE < SIZE_LIMIT
      requires FreshRun(regions, base, PagesFor(size)) && base + PagesFor(size) * PAGE_SIZE <= mem.Length
      modifies this, mem
      ensures Valid() && HEADER <= ptr
      ensures TagOf(ptr) !in old(live) && live == old(live)[TagOf(ptr) := size]
      ensures var t := TagOf(ptr);
        var room := if t in old(home) then old(tags)[t].realSize else PagesFor(size) * PAGE_SIZE;
        && tags[t].realSize == (if room < size + 2 * HEADER + 0x100 then room else HEADER + size)
        && CutOff(room, size, t, tags, if t in old(home) then old(home) else old(home)[base := base], home)
      ensures Chosen(old(tags), old(stamp), old(freePages), old(home), size, TagOf(ptr))
      ensures regions == if TagOf(ptr) in old(home) then old(regions) else old(regions)[base := PagesFor(size)]
      ensures Undisturbed(old(tags), tags, old(home), home, old(live))
      ensures SameBlocks(old(live), old(mem[..]), mem[..])
    {
      Initialize();
      ghost var m := mem[..];
      var tag := Obtain(size, base);
      RunsKeepBlocks(old(tags), old(regions), old(home), old(live), m, mem[..]);
      ghost var m1 := mem[..];
      Carve(tag, size);
      SameBlocksTrans(old(live), m, m1, mem[..]);
      ptr := tag + HEADER;
    }

    /** On the first call, empty the free lists and the cache counters. */
    method Initialize()
      requires Valid()
      modifies this`freePages, this`completePages, this`initialized
      ensures Valid() && initialized && freePages == old(freePages)
    {
      if initialized {
        return;
      }
      forall i | 0 <= i < MAX_EXP ensures freePages[i] == NULL {
        assert HeadAt(tags, home, freePages, i);
      }
      for index := 0 to MAX_EXP
        invariant |freePages| == MAX_EXP && |completePages| == MAX_EXP
        invariant freePages == old(freePages)
        invariant forall i :: 0 <= i < index ==> completePages[i] == 0
      {
        freePages := freePages[index := NULL];
        completePages := completePages[index := 0];
      }
      initialized := true;
      forall i | 0 <= i < MAX_EXP ensures completePages[i] == |WholeFree(tags, home, i)| {
        assert WholeFree(tags, home, i) == {};
      }
    }

    /** One round of the first loop of free: `t` and its free left neighbour become one tag. */
    method MeltStep(t: Addr) returns (left: Addr)
      requires InOrder({t}) && t in home && tags[t].index < 0
      requires tags[t].splitLeft != NULL && GetTag(tags, tags[t].splitLeft).index >= 0
      modifies this`tags, this`home, this`freePages
      ensures InOrder({left}) && left in home && tags[left].index < 0
      ensures GetTag(tags, tags[left].splitLeft).index < 0
      ensures home == old(home) - {t} && left != t && home[left] == old(home)[t]
      ensures Undisturbed(old(tags), tags, old(home), home, live)
      ensures SameWhole(old(tags), tags, old(home), home, {})
    {
      ghost var tags0, home0, heads0 := tags, home, freePages;
      LeftReady(tags, regions, home, freePages, stamp, live, t, tags[t].splitLeft);
      left := MeltLeft(t);
      ghost var tags1 := tags;
      MergedListed(tags0, tags1, home0, freePages, stamp, left, t);
      assert ListedAt(tags, home, freePages, stamp, left);
      RemoveTag(left);
      MeltSound(tags0, tags1, tags, regions, home0, heads0, freePages, stamp, live, left, t);
      MeltedLeft(tags0, tags1, tags, home0, left, t);
    }

    /** One round of the second loop of free: `t` takes its free right neighbour in. */
    method AbsorbStep(t: Addr)
      requires InOrder({t}) && t in home && tags[t].index < 0
      requires tags[t].splitRight != NULL && GetTag(tags, tags[t].splitRight).index >= 0
      requires GetTag(tags, tags[t].splitLeft).index < 0
      modifies this`tags, this`home, this`freePages
      ensures InOrder({t}) && t in home && tags[t].index < 0
      ensures GetTag(tags, tags[t].splitLeft).index < 0 && GetTag(tags, tags[t].splitRight).index < 0
      ensures home == old(home) - {old(tags)[t].splitRight}
      ensures Undisturbed(old(tags), tags, old(home), home, live)
      ensures SameWhole(old(tags), tags, old(home), home, {})
    {
      ghost var tags0, home0, heads0 := tags, home, freePages;
      RightReady(tags, regions, home, freePages, stamp, live, t, tags[t].splitRight);
      ghost var right, unlisted := AbsorbRight(t);
      AbsorbSound(tags0, unlisted, tags, regions, home0, heads0, freePages, stamp, live, t, right);
      AbsorbedNeighbours(tags0, unlisted, tags, home0, t, right);
    }

    /** The page allocator takes a run back, all of it and under the base it was handed out with. */
    method ReleaseRun(base: Addr, pages: nat)
      requires base in regions && regions[base] == pages
      modifies this`regions, this`home
      ensures regions == old(regions) - {base} && home == old(home) - {base}
    {
      regions, home := regions - {base}, home - {base};
    }

    /** Give the whole run of tag `t` back to the page allocator. */
    method Release(t: Addr)
      requires InOrder({t}) && Counted(tags, home, completePages) && t in home && tags[t].index < 0 && IsWhole(tags[t])
      modifies this`regions, this`home
      ensures InOrder({}) && Counted(tags, home, completePages) && home.Keys <= old(home).Keys
      ensures Undisturbed(tags, tags, old(home), home, live) && regions == old(regions) - {t}
    {
      ReleasedSound(tags, regions, home, freePages, stamp, live, completePages, t);
      var pages := tags[t].realSize / PAGE_SIZE;
      if tags[t].realSize % PAGE_SIZE != 0 {
        pages := pages + 1;
      }
      if pages < MIN_PAGES {
        pages := MIN_PAGES;
      }
      ReleaseRun(t, pages);
    }

    /** Put a merged tag back: in the list of its class, or, when it is a whole run
        and its class keeps enough of them, back to the page allocator. */
    method Retire(t: Addr)
      requires InOrder({t}) && Counted(tags, home, completePages) && t in home && tags[t].index < 0
      requires GetTag(tags, tags[t].splitLeft).index < 0 && GetTag(tags, tags[t].splitRight).index < 0
      requires HEADER <= tags[t].realSize
      modifies this`tags, this`regions, this`home, this`stamp, this`freePages, this`completePages
      ensures InOrder({}) && Counted(tags, home, completePages) && home.Keys <= old(home).Keys
      ensures Undisturbed(old(tags), tags, old(home), home, live)
      ensures var c := ClassOf(old(tags)[t].realSize - HEADER);
              regions == if IsWhole(old(tags)[t]) && c < |old(completePages)| && old(completePages)[c] == MAX_COMPLETE
                         then old(regions) - {t} else old(regions)
    {
      TagBounds(tags, regions, home, t);
      ClassBounds(tags[t].realSize - HEADER);
      var index := GetExp(tags[t].realSize - HEADER);
      if index < MIN_EXP {
        index := MIN_EXP;
      }
      ghost var tags0, heads0, complete0 := tags, freePages, completePages;
      if tags[t].splitLeft == NULL && tags[t].splitRight == NULL {
        if completePages[index] == MAX_COMPLETE {
          Release(t);
          return;
        }
        completePages := completePages[index := completePages[index] + 1];
      }
      assert HeadAt(tags, home, freePages, index);
      ghost var i := InsertTag(t, index);
      ListedAgain(tags0, tags, regions, home, heads0, stamp, live, complete0, t, i);
      stamp := stamp[t := After(stamp)];
    }

    /** Merge tag `t` with its free neighbours.  Each loop runs at most once. */
    method Coalesce(t: Addr) returns (m: Addr)
      requires InOrder({t}) && t in home && tags[t].index < 0
      modifies this`tags, this`home, this`freePages
      ensures InOrder({m}) && m in home && tags[m].index < 0 && home[m] == old(home)[t] && home.Keys <= old(home).Keys
      ensures GetTag(tags, tags[m].splitLeft).index < 0 && GetTag(tags, tags[m].splitRight).index < 0
      ensures Undisturbed(old(tags), tags, old(home), home, live)
      ensures SameWhole(old(tags), tags, old(home), home, {})
    {
      m := t;
      ghost var tags0, home0, melts := tags, home, 0;
      while tags[m].splitLeft != NULL && GetTag(tags, tags[m].splitLeft).index >= 0
        invariant InOrder({m}) && m in home && tags[m].index < 0 && home[m] == home0[t] && home.Keys <= home0.Keys
        invariant melts == 0 || (melts == 1 && GetTag(tags, tags[m].splitLeft).index < 0)
        invariant Undisturbed(tags0, tags, home0, home, live) && SameWhole(tags0, tags, home0, home, {})
        decreases 1 - melts
      {
        m := MeltStep(m);
        melts := melts + 1;
      }
      ghost var absorbs := 0;
      while tags[m].splitRight != NULL && GetTag(tags, tags[m].splitRight).index >= 0
        invariant InOrder({m}) && m in home && tags[m].index < 0 && home[m] == home0[t] && home.Keys <= home0.Keys
        invariant GetTag(tags, tags[m].splitLeft).index < 0
        invariant absorbs == 0 || (absorbs == 1 && GetTag(tags, tags[m].splitRight).index < 0)
        invariant Undisturbed(tags0, tags, home0, home, live) && SameWhole(tags0, tags, home0, home, {})
        decreases 1 - absorbs
      {
        AbsorbStep(m);
        absorbs := absorbs + 1;
      }
    }

    /** NULL and pointers without the magic number in front of them are let pass. */
    method Free(ptr: Addr)
      requires Valid()
      requires ptr == NULL
               || (HEADER <= ptr
                   && (TagOf(ptr) in live || (TagOf(ptr) + 4 <= mem.Length && !HasMagic(mem[..], TagOf(ptr)))))
      modifies this`tags, this`home, this`regions, this`stamp, this`freePages, this`completePages, this`live
      ensures Valid()
      ensures ptr == NULL || TagOf(ptr) !in old(live) ==> unchanged(this)
      ensures ptr != NULL && TagOf(ptr) in old(live) ==>
                && live == old(live) - {TagOf(ptr)}
                && Undisturbed(old(tags), tags, old(home), home, live)
                && regions == RunsWithout(old(regions), old(home), old(live), old(completePages), TagOf(ptr))
    {
      if ptr == NULL {
        return;
      }
      var tag: Addr := TagOf(ptr);
      LiveTag(tags, regions, home, live, tag);
      assert tag in live ==> HasMagic(mem[..], tag);
      if !HasMagic(mem[..], tag) {
        return;
      }
      ghost var tags0, home0, live0 := tags, home, live;
      TakenBack(tags, home, live, tag);
      live := live - {tag};
      var m := Coalesce(tag);
      SameCounted(tags0, tags, home0, home, completePages);
      RunsTold(tags, tags0, regions, home, home0, live, live0, completePages, m, tag);
      Retire(m);
    }

    /** The size the client asked for, as the header tells it. */
    method BlockSize(ptr: Addr) returns (size: nat)
      requires Valid() && HEADER <= ptr && TagOf(ptr) in live
      ensures size == live[TagOf(ptr)]
    {
      LiveTag(tags, regions, home, live, TagOf(ptr));
      assert SettledAt(tags, live, TagOf(ptr));
      size := tags[TagOf(ptr)].size;
    }

    /** Copy the first bytes of one block into another. */
    method CopyBlock(p: Addr, ptr: Addr, n: nat)
      requires Valid() && HEADER <= p && HEADER <= ptr && p != ptr && TagOf(p) in live && TagOf(ptr) in live
      requires n <= live[TagOf(p)] && n <= live[TagOf(ptr)]
      modifies mem
      ensures Valid() && p + n <= mem.Length && ptr + n <= mem.Length && mem[..] == Copied(old(mem[..]), p, ptr, n)
      ensures SameBlocks(live - {TagOf(p)}, old(mem[..]), mem[..])
    {
      MoveReady(tags, regions, home, live, mem.Length, TagOf(ptr), TagOf(p));
      WriteKeepsBlocks(tags, regions, home, live, mem[..], TagOf(p), ptr, n);
      MoveKeepsMarks(tags, regions, home, live, mem[..], TagOf(p), ptr, n);
      CopyWords(mem, p, ptr, n);
    }

    /** The part of realloc that moves a block. */
    method MoveBlock(ptr: Addr, size: nat, base: Addr) returns (p: Addr)
      requires Valid() && HEADER <= ptr && TagOf(ptr) in live
      requires PagesFor(size) * PAGE_SIZE < SIZE_LIMIT
      requires FreshRun(regions, base, PagesFor(size)) && base + PagesFor(size) * PAGE_SIZE <= mem.Length
      modifies this, mem
      ensures Valid() && HEADER <= p && TagOf(p) !in old(live)
      ensures live == old(live)[TagOf(p) := size] - {TagOf(ptr)}
      ensures SameBlocks(old(live) - {TagOf(ptr)}, old(mem[..]), mem[..])
      ensures SameBytes(old(mem[..]), ptr, mem[..], p, Min(old(live)[TagOf(ptr)], size))
    {
      var realSize := BlockSize(ptr);
      if realSize > size {
        realSize := size;
      }
      p := CloneBlock(ptr, size, realSize, base);
      Free(ptr);
    }

    /** A new block with the first bytes of an old one. */
    method CloneBlock(ptr: Addr, size: nat, n: nat, base: Addr) returns (p: Addr)
      requires Valid() && HEADER <= ptr && TagOf(ptr) in live
      requires n <= size && n <= live[TagOf(ptr)] && PagesFor(size) * PAGE_SIZE < SIZE_LIMIT
      requires FreshRun(regions, base, PagesFor(size)) && base + PagesFor(size) * PAGE_SIZE <= mem.Length
      modifies this, mem
      ensures Valid() && HEADER <= p && TagOf(p) !in old(live) && live == old(live)[TagOf(p) := size]
      ensures SameBlocks(old(live) - {TagOf(ptr)}, old(mem[..]), mem[..])
      ensures SameBytes(old(mem[..]), ptr, mem[..], p, n)
    {
      p := Malloc(size, base);
      ghost var m1 := mem[..];
      CopyBlock(p, ptr, n);
      MovedBlocks(old(live), live, old(mem[..]), m1, mem[..], ptr, p, n);
    }

    /** A size of zero frees, NULL allocates; otherwise the contents move to a new block. */
    method Realloc(ptr: Addr, size: nat, base: Addr) returns (p: Addr)
      requires Valid() && (ptr == NULL || (HEADER <= ptr && TagOf(ptr) in live))
      requires PagesFor(size) * PAGE_SIZE < SIZE_LIMIT
      requires FreshRun(regions, base, PagesFor(size)) && base + PagesFor(size) * PAGE_SIZE <= mem.Length
      modifies this, mem
      ensures Valid()
      ensures size == 0 ==> p == NULL && mem[..] == old(mem[..]) && live == Without(old(live), ptr)
      ensures size > 0 ==> HEADER <= p && TagOf(p) !in old(live) && live == Without(old(live)[TagOf(p) := size], ptr)
      ensures size > 0 ==> SameBlocks(Without(old(live), ptr), old(mem[..]), mem[..])
      ensures size > 0 && ptr != NULL ==>
                var n := if old(live)[TagOf(ptr)] < size then old(live)[TagOf(ptr)] else size;
                SameBytes(old(mem[..]), ptr, mem[..], p, n)
    {
      if size == 0 {
        Free(ptr);
        return NULL;
      }
      if ptr == NULL {
        p := Malloc(size, base);
      } else {
        p := MoveBlock(ptr, size, base);
      }
    }
  }
}
