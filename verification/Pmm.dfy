/** The page frame allocator of src/kernel/arch/memory/pmm.c: one bit per frame,
    set when the frame is taken. */
module Pmm {
  import opened Basics

  // ----- Bits of a byte --------------------------------------------------------

  function Mask(k: nat): (m: bv8)
    requires k < 8
  {
    1 << k
  }

  function Bit(b: bv8, k: nat): bool
    requires k < 8
  {
    (b >> k) & 1 == 1
  }

  lemma BitAfterSet(b: bv8, k: nat, j: nat)
    requires k < 8 && j < 8
    ensures Bit(b | Mask(k), j) <==> j == k || Bit(b, j)
  {
  }

  lemma BitAfterClear(b: bv8, k: nat, j: nat)
    requires k < 8 && j < 8
    ensures Bit(b & !Mask(k), j) <==> j != k && Bit(b, j)
  {
  }

  lemma SameBit(i: nat, j: nat)
    ensures i / 8 == j / 8 && i % 8 == j % 8 <==> i == j
  {
  }

  lemma BitmapAfterSet(b: seq<bv8>, i: nat, j: nat)
    requires i < 8 * |b| && j < 8 * |b|
    ensures Bit(b[i / 8 := b[i / 8] | Mask(i % 8)][j / 8], j % 8) <==> j == i || Bit(b[j / 8], j % 8)
  {
    SameBit(i, j);
    BitAfterSet(b[i / 8], i % 8, j % 8);
  }

  lemma BitmapAfterClear(b: seq<bv8>, i: nat, j: nat)
    requires i < 8 * |b| && j < 8 * |b|
    ensures Bit(b[i / 8 := b[i / 8] & !Mask(i % 8)][j / 8], j % 8) <==> j != i && Bit(b[j / 8], j % 8)
  {
    SameBit(i, j);
    BitAfterClear(b[i / 8], i % 8, j % 8);
  }

  predicate BitAt(b: seq<bv8>, i: nat)
    requires i < 8 * |b|
  {
    Bit(b[i / 8], i % 8)
  }

  lemma BitmapSet(b: seq<bv8>, b': seq<bv8>, i: nat)
    requires i < 8 * |b| && b' == b[i / 8 := b[i / 8] | Mask(i % 8)]
    ensures forall j: nat :: j < 8 * |b| ==> (BitAt(b', j) <==> j == i || BitAt(b, j))
  {
    forall j: nat | j < 8 * |b| ensures BitAt(b', j) <==> j == i || BitAt(b, j) {
      BitmapAfterSet(b, i, j);
    }
  }

  lemma BitmapCleared(b: seq<bv8>, b': seq<bv8>, i: nat)
    requires i < 8 * |b| && b' == b[i / 8 := b[i / 8] & !Mask(i % 8)]
    ensures forall j: nat :: j < 8 * |b| ==> (BitAt(b', j) <==> j != i && BitAt(b, j))
  {
    forall j: nat | j < 8 * |b| ensures BitAt(b', j) <==> j != i && BitAt(b, j) {
      BitmapAfterClear(b, i, j);
    }
  }

  // ----- Sets of frames ----------------------------------------------------------

  predicate InRun(i: nat, first: nat, n: nat)
  {
    first <= i < first + n
  }

  /** The `n` frames from `first` on. */
  ghost function Run(first: nat, n: nat): set<nat>
  {
    set i: nat | i < first + n && InRun(i, first, n)
  }

  lemma {:induction false} RunSize(first: nat, n: nat)
    ensures |Run(first, n)| == n
  {
    if n == 0 {
      assert Run(first, n) == {};
    } else {
      RunSize(first, n - 1);
      assert Run(first, n) == Run(first, n - 1) + {first + n - 1};
    }
  }

  lemma OneFrame(f: nat)
    ensures Run(f, 1) == {f}
  {
    assert InRun(f, f, 1);
  }

  ghost predicate IsLeast(i: nat, s: set<nat>)
  {
    i in s && forall j :: j in s ==> i <= j
  }

  // ----- The bootloader's memory map ------------------------------------------------

  const USABLE := 1
  const BOOTLOADER_RECLAIMABLE := 0x1000
  const KERNEL_AND_MODULES := 0x1001

  datatype Entry = Entry(base: nat, length: nat, kind: nat)

  ghost function FramesOf(e: Entry): set<nat>
  {
    if e.kind == USABLE then Run(e.base / PAGE_SIZE, e.length / PAGE_SIZE) else {}
  }

  ghost function UsableFrames(es: seq<Entry>): set<nat>
  {
    if es == [] then {} else UsableFrames(es[..|es| - 1]) + FramesOf(es[|es| - 1])
  }

  lemma {:induction false} InUsable(es: seq<Entry>, f: nat)
    ensures f in UsableFrames(es) <==> exists k :: 0 <= k < |es| && f in FramesOf(es[k])
  {
    if es != [] {
      var init := es[..|es| - 1];
      InUsable(init, f);
      assert forall k :: 0 <= k < |init| ==> init[k] == es[k];
      if exists k :: 0 <= k < |es| && f in FramesOf(es[k]) {
        var k :| 0 <= k < |es| && f in FramesOf(es[k]);
        assert k < |init| ==> f in FramesOf(init[k]);
      }
    }
  }

  /** The usable frames are the whole pages of the ranges of type 1. */
  lemma UsableIs(es: seq<Entry>, f: nat)
    ensures f in UsableFrames(es) <==>
            exists k :: 0 <= k < |es| && es[k].kind == 1
                        && es[k].base / 4096 <= f < es[k].base / 4096 + es[k].length / 4096
  {
    InUsable(es, f);
    if k :| 0 <= k < |es| && es[k].kind == 1 && es[k].base / 4096 <= f < es[k].base / 4096 + es[k].length / 4096 {
      assert f in FramesOf(es[k]) by {
        assert InRun(f, es[k].base / PAGE_SIZE, es[k].length / PAGE_SIZE);
      }
    }
  }

  /** Usable ranges consist of whole pages, do not overlap and leave frame 0 out. */
  ghost predicate GoodMap(es: seq<Entry>)
  {
    && (forall k :: 0 <= k < |es| && es[k].kind == USABLE ==>
          es[k].base > 0 && es[k].base % PAGE_SIZE == 0 && es[k].length % PAGE_SIZE == 0)
    && (forall j, k :: 0 <= j < k < |es| ==> FramesOf(es[j]) !! FramesOf(es[k]))
  }

  predicate CountsForTop(e: Entry)
  {
    e.kind == USABLE || e.kind == BOOTLOADER_RECLAIMABLE || e.kind == KERNEL_AND_MODULES
  }

  /** The end of the highest range that counts. */
  function Top(es: seq<Entry>): (t: nat)
    ensures forall k :: 0 <= k < |es| && CountsForTop(es[k]) ==> es[k].base + es[k].length <= t
  {
    if es == [] then 0
    else
      var t, e := Top(es[..|es| - 1]), es[|es| - 1];
      assert forall k :: 0 <= k < |es| - 1 ==> es[..|es| - 1][k] == es[k];
      if CountsForTop(e) && e.base + e.length > t then e.base + e.length else t
  }

  /** Some range that counts ends there, if there is one. */
  lemma {:induction false} TopIs(es: seq<Entry>)
    ensures Top(es) > 0 ==>
              exists k :: 0 <= k < |es| && es[k].kind in {1, 0x1000, 0x1001} && es[k].base + es[k].length == Top(es)
    ensures forall k :: 0 <= k < |es| && es[k].kind in {1, 0x1000, 0x1001} ==> es[k].base + es[k].length <= Top(es)
  {
    if es != [] {
      var init, e := es[..|es| - 1], es[|es| - 1];
      TopIs(init);
      assert forall k :: 0 <= k < |init| ==> init[k] == es[k];
      assert CountsForTop(e) <==> e.kind in {1, 0x1000, 0x1001};
      if Top(es) > Top(init) {
        assert es[|es| - 1].base + es[|es| - 1].length == Top(es);
      }
    }
  }

  function AlignUp(n: nat): nat
  {
    (n + PAGE_SIZE - 1) / PAGE_SIZE * PAGE_SIZE
  }

  function BitmapSize(highest: nat): nat
  {
    AlignUp(highest / PAGE_SIZE * PAGE_SIZE / PAGE_SIZE / 8)
  }

  /** The bitmap is the least number of whole pages that holds an eighth, rounded down, of the frames. */
  lemma BitmapSizeIs(highest: nat)
    ensures BitmapSize(highest) % 4096 == 0
    ensures highest / 4096 / 8 <= BitmapSize(highest) < highest / 4096 / 8 + 4096
  {
    assert highest / 4096 * 4096 / 4096 == highest / 4096;
  }

  /** The bitmap has a bit for every frame below `highest`, except when the frame
      count, divided by 8 and rounded down, already fills whole pages. */
  lemma BitmapCovers(highest: nat)
    ensures highest / PAGE_SIZE <= 8 * BitmapSize(highest) <==>
            highest / PAGE_SIZE % 8 == 0 || highest / PAGE_SIZE / 8 % PAGE_SIZE != 0
  {
    var frames := highest / PAGE_SIZE;
    assert highest / PAGE_SIZE * PAGE_SIZE / PAGE_SIZE == frames;
  }

  /** A range without its first `bytes`. */
  function Shrunk(e: Entry, bytes: nat): Entry
    requires bytes <= e.length
  {
    e.(base := e.base + bytes, length := e.length - bytes)
  }

  lemma UsableStep(es: seq<Entry>, i: nat)
    requires GoodMap(es) && i < |es|
    ensures UsableFrames(es[..i + 1]) == UsableFrames(es[..i]) + FramesOf(es[i])
    ensures FramesOf(es[i]) !! UsableFrames(es[..i])
  {
    assert es[..i + 1][..i] == es[..i];
    forall f | f in FramesOf(es[i]) ensures f !in UsableFrames(es[..i]) {
      InUsable(es[..i], f);
    }
  }

  lemma ShrunkFrames(e: Entry, bytes: nat)
    requires e.kind == USABLE && e.base % PAGE_SIZE == 0 && e.length % PAGE_SIZE == 0
    requires bytes % PAGE_SIZE == 0 && bytes <= e.length
    ensures FramesOf(Shrunk(e, bytes)) == FramesOf(e) - Run(e.base / PAGE_SIZE, bytes / PAGE_SIZE)
    ensures Run(e.base / PAGE_SIZE, bytes / PAGE_SIZE) <= FramesOf(e)
  {
    assert (e.base + bytes) / PAGE_SIZE == e.base / PAGE_SIZE + bytes / PAGE_SIZE;
    assert (e.length - bytes) / PAGE_SIZE == e.length / PAGE_SIZE - bytes / PAGE_SIZE;
  }

  /** Taking pages off one usable range takes exactly their frames off the map. */
  lemma ShrunkMap(es: seq<Entry>, k: nat, bytes: nat)
    requires GoodMap(es) && k < |es| && es[k].kind == USABLE
    requires bytes % PAGE_SIZE == 0 && bytes <= es[k].length
    ensures var es' := es[k := Shrunk(es[k], bytes)];
            var taken := Run(es[k].base / PAGE_SIZE, bytes / PAGE_SIZE);
            GoodMap(es') && taken <= UsableFrames(es) && UsableFrames(es') == UsableFrames(es) - taken
  {
    var es' := es[k := Shrunk(es[k], bytes)];
    var taken := Run(es[k].base / PAGE_SIZE, bytes / PAGE_SIZE);
    ShrunkFrames(es[k], bytes);
    forall f ensures f in UsableFrames(es') <==> f in UsableFrames(es) && f !in taken {
      InUsable(es, f);
      InUsable(es', f);
      ShrunkMember(es, k, bytes, f);
    }
    forall f | f in taken ensures f in UsableFrames(es) {
      InUsable(es, f);
    }
  }

  lemma ShrunkMember(es: seq<Entry>, k: nat, bytes: nat, f: nat)
    requires GoodMap(es) && k < |es| && bytes <= es[k].length
    requires FramesOf(Shrunk(es[k], bytes)) == FramesOf(es[k]) - Run(es[k].base / PAGE_SIZE, bytes / PAGE_SIZE)
    requires Run(es[k].base / PAGE_SIZE, bytes / PAGE_SIZE) <= FramesOf(es[k])
    ensures var es' := es[k := Shrunk(es[k], bytes)];
            (exists j :: 0 <= j < |es'| && f in FramesOf(es'[j])) <==>
            (exists j :: 0 <= j < |es| && f in FramesOf(es[j])) && f !in Run(es[k].base / PAGE_SIZE, bytes / PAGE_SIZE)
  {
    var es' := es[k := Shrunk(es[k], bytes)];
    if j :| 0 <= j < |es| && f in FramesOf(es[j]) {
      assert f in FramesOf(es'[j]) || j == k;
    }
    if j :| 0 <= j < |es'| && f in FramesOf(es'[j]) {
      assert f in FramesOf(es[j]);
    }
  }

  /** The bits of the shrunk map lie below the top of the original one. */
  lemma TopCovers(es': seq<Entry>, es: seq<Entry>, k: nat, bytes: nat)
    requires k < |es| && bytes <= es[k].length && es[k].kind == USABLE && es' == es[k := Shrunk(es[k], bytes)]
    ensures Below(es', Top(es) / PAGE_SIZE)
    ensures forall f :: f in UsableFrames(es') ==> f < Top(es) / PAGE_SIZE
    ensures GoodMap(es') ==> 0 !in UsableFrames(es')
  {
    forall i | 0 <= i < |es'| && es'[i].kind == USABLE
      ensures es'[i].base / PAGE_SIZE + es'[i].length / PAGE_SIZE <= Top(es) / PAGE_SIZE
    {
      assert CountsForTop(es[i]);
      assert es'[i].base + es'[i].length == es[i].base + es[i].length <= Top(es);
    }
    forall f | f in UsableFrames(es') ensures f < Top(es) / PAGE_SIZE {
      InUsable(es', f);
    }
    InUsable(es', 0);
  }

  /** The bootloader's map allows the allocator to start. */
  ghost predicate Bootable(es: seq<Entry>)
  {
    var bytes := BitmapSize(Top(es));
    && GoodMap(es) && 0 < bytes && Top(es) / PAGE_SIZE <= 8 * bytes
    && exists i :: 0 <= i < |es| && es[i].kind == USABLE && es[i].length >= bytes
  }

  /** The usable ranges end below frame `limit`. */
  ghost predicate Below(es: seq<Entry>, limit: nat)
  {
    forall i :: 0 <= i < |es| && es[i].kind == USABLE ==> es[i].base / PAGE_SIZE + es[i].length / PAGE_SIZE <= limit
  }

  /** `es'` is the map `es` without the usable frames in `taken`. */
  ghost predicate Remaining(es: seq<Entry>, es': seq<Entry>, taken: set<nat>)
  {
    && GoodMap(es') && taken <= UsableFrames(es) && UsableFrames(es') == UsableFrames(es) - taken
    && Below(es', Top(es) / PAGE_SIZE)
    && 0 !in UsableFrames(es') && forall f :: f in UsableFrames(es') ==> f < Top(es) / PAGE_SIZE
  }

  /** The first usable range from `i` on that holds `bytes`, or |es|. */
  function FirstFit(es: seq<Entry>, bytes: nat, i: nat): (k: nat)
    requires i <= |es|
    ensures i <= k <= |es| && (k < |es| ==> es[k].kind == USABLE && es[k].length >= bytes)
    ensures forall j :: i <= j < k ==> !(es[j].kind == USABLE && es[j].length >= bytes)
    decreases |es| - i
  {
    if i == |es| || (es[i].kind == USABLE && es[i].length >= bytes) then i else FirstFit(es, bytes, i + 1)
  }

  /** The map once the bitmap has its place: the first range that can hold it starts behind it. */
  function AfterBitmap(es: seq<Entry>): (es': seq<Entry>)
    ensures |es'| == |es|
  {
    var bytes := BitmapSize(Top(es));
    var k := FirstFit(es, bytes, 0);
    if k < |es| then es[k := Shrunk(es[k], bytes)] else es
  }

  /** Whole pages come off range `k`. */
  lemma PagesTaken(es: seq<Entry>, es': seq<Entry>, k: nat, bytes: nat)
    requires GoodMap(es) && k < |es| && es[k].kind == USABLE && bytes <= es[k].length && bytes % PAGE_SIZE == 0
    requires es' == es[k := Shrunk(es[k], bytes)]
    ensures es[k].base % PAGE_SIZE == 0 && Remaining(es, es', Run(es[k].base / PAGE_SIZE, bytes / PAGE_SIZE))
  {
    ShrunkMap(es, k, bytes);
    TopCovers(es', es, k, bytes);
  }

  lemma WholePages(highest: nat)
    ensures BitmapSize(highest) % PAGE_SIZE == 0
  {
  }

  /** What the allocator knows: the clear frames, its counter, and the frames that may ever be handed out. */
  datatype Frames = Frames(clear: set<nat>, usable: int, managed: set<nat>)

  class FrameAllocator {
    var data: array<bv8>
    /** Bytes in the bitmap. */
    var size: nat
    /** End of the highest memory range the bootloader reported. */
    var highestPage: nat
    var usablePages: int
    /** The frames whose bit is clear. */
    ghost var clear: set<nat>
    /** The frames that may ever be handed out. */
    ghost var managed: set<nat>

    predicate Taken(i: nat)
      requires i < 8 * data.Length
      reads `data, data
    {
      BitAt(data[..], i)
    }

    /** `clear` holds exactly the frames whose bit is clear. */
    ghost predicate Synced()
      reads `data, `clear, data
    {
      && (forall i :: i in clear ==> i < 8 * data.Length)
      && (forall i: nat {:trigger Taken(i)} :: i < 8 * data.Length ==> (Taken(i) <==> i !in clear))
    }

    ghost predicate Valid()
      reads this, data
    {
      && Synced() && size == data.Length && highestPage / PAGE_SIZE <= 8 * data.Length
      && 0 !in managed && (forall i :: i in managed ==> i < highestPage / PAGE_SIZE)
      && clear <= managed
    }

    ghost function State(): Frames
      reads `clear, `usablePages, `managed
    {
      Frames(clear, usablePages, managed)
    }

    ghost predicate Counted()
      reads `usablePages, `clear
    {
      usablePages == |clear|
    }

    method FindTop(memmap: array<Entry>)
      requires highestPage == 0
      modifies this`highestPage
      ensures highestPage == Top(memmap[..])
    {
      for i := 0 to memmap.Length
        invariant highestPage == Top(memmap[..i])
      {
        assert memmap[..i + 1][..i] == memmap[..i];
        if CountsForTop(memmap[i]) {
          var top := memmap[i].base + memmap[i].length;
          if top > highestPage {
            highestPage := top;
          }
        }
      }
      assert memmap[..memmap.Length] == memmap[..];
    }

    /** The first usable range that can hold the bitmap gives its first pages up for it. */
    method Reserve(memmap: array<Entry>, bytes: nat) returns (base: nat, ghost k: nat)
      requires exists i :: 0 <= i < memmap.Length && memmap[i].kind == USABLE && memmap[i].length >= bytes
      modifies memmap
      ensures k < memmap.Length && old(memmap[k]).kind == USABLE && old(memmap[k]).length >= bytes
      ensures forall i :: 0 <= i < k ==> !(old(memmap[i]).kind == USABLE && old(memmap[i]).length >= bytes)
      ensures base == old(memmap[k]).base
      ensures memmap[..] == old(memmap[..])[k := Shrunk(old(memmap[k]), bytes)]
    {
      var i := 0;
      while i < memmap.Length
        invariant i <= memmap.Length && memmap[..] == old(memmap[..])
        invariant forall j :: 0 <= j < i ==> !(memmap[j].kind == USABLE && memmap[j].length >= bytes)
      {
        if memmap[i].kind == USABLE && memmap[i].length >= bytes {
          base, k := memmap[i].base, i;
          memmap[i] := Shrunk(memmap[i], bytes);
          return;
        }
        i := i + 1;
      }
    }

    /** A bitmap with every bit set. */
    method FillOnes()
      modifies this`data, this`usablePages, this`clear
      ensures Synced() && fresh(data) && data.Length == size && clear == {} && usablePages == 0
    {
      data := new bv8[size](_ => 0xff);
      usablePages, clear := 0, {};
      forall i: nat | i < 8 * data.Length ensures Taken(i) {
        assert data[i / 8] == 0xff;
      }
    }

    method FreeUsable(memmap: array<Entry>, ghost limit: nat)
      requires GoodMap(memmap[..]) && clear == {} && usablePages == 0 && memmap as object != data as object
      requires limit <= 8 * data.Length && Below(memmap[..], limit)
      requires Synced()
      modifies this`usablePages, this`clear, data
      ensures Synced()
      ensures clear == UsableFrames(old(memmap[..])) && Counted()
    {
      ghost var es := memmap[..];
      for i := 0 to memmap.Length
        invariant Synced() && memmap[..] == es && clear == UsableFrames(es[..i]) && Counted()
      {
        UsableStep(es, i);
        if memmap[i].kind == USABLE {
          Free(memmap[i].base, memmap[i].length / PAGE_SIZE);
        }
      }
      assert es[..memmap.Length] == es;
    }

    /** Size the bitmap and take its pages off the map. */
    method ReserveBitmap(memmap: array<Entry>) returns (base: nat)
      requires highestPage == 0 && Bootable(memmap[..])
      modifies this`highestPage, this`size, memmap
      ensures highestPage == Top(old(memmap[..])) && size == BitmapSize(highestPage)
      ensures base % PAGE_SIZE == 0 && Remaining(old(memmap[..]), memmap[..], Run(base / PAGE_SIZE, size / PAGE_SIZE))
      ensures memmap[..] == AfterBitmap(old(memmap[..]))
    {
      FindTop(memmap);
      size := BitmapSize(highestPage);
      ghost var es, k := memmap[..], 0;
      base, k := Reserve(memmap, size);
      WholePages(highestPage);
      PagesTaken(es, memmap[..], k, size);
    }

    /** pmm_initialize: one clear bit for every usable frame but those that hold the bitmap. */
    method Initialize(memmap: array<Entry>) returns (bitmapBase: nat)
      requires highestPage == 0 && Bootable(memmap[..])
      modifies this, memmap
      ensures fresh(data) && Valid() && Counted() && size == BitmapSize(Top(old(memmap[..])))
      ensures bitmapBase % PAGE_SIZE == 0
      ensures Run(bitmapBase / PAGE_SIZE, size / PAGE_SIZE) <= UsableFrames(old(memmap[..]))
      ensures clear == managed == UsableFrames(old(memmap[..])) - Run(bitmapBase / PAGE_SIZE, size / PAGE_SIZE)
      ensures memmap[..] == AfterBitmap(old(memmap[..])) && clear == UsableFrames(memmap[..])
    {
      bitmapBase := ReserveBitmap(memmap);
      ghost var rest := memmap[..];
      managed := UsableFrames(rest);
      FillOnes();
      assert memmap[..] == rest;
      FreeUsable(memmap, highestPage / PAGE_SIZE);
    }

    method SetPage(addr: nat)
      requires addr / PAGE_SIZE < 8 * data.Length
      requires Synced()
      modifies this`usablePages, this`clear, data
      ensures Synced()
      ensures clear == old(clear) - {addr / PAGE_SIZE} && usablePages == old(usablePages) - 1
    {
      var i := addr / PAGE_SIZE;
      ghost var b := data[..];
      data[i / 8] := data[i / 8] | Mask(i % 8);
      usablePages, clear := usablePages - 1, clear - {i};
      BitmapSet(b, data[..], i);
      forall j: nat | j < 8 * data.Length ensures Taken(j) <==> j == i || old(Taken(j)) {
        assert old(Taken(j)) == BitAt(b, j);
      }
    }

    method ClearPage(addr: nat)
      requires addr / PAGE_SIZE < 8 * data.Length
      requires Synced()
      modifies this`usablePages, this`clear, data
      ensures Synced()
      ensures clear == old(clear) + {addr / PAGE_SIZE} && usablePages == old(usablePages) + 1
    {
      var i := addr / PAGE_SIZE;
      ghost var b := data[..];
      data[i / 8] := data[i / 8] & !Mask(i % 8);
      usablePages, clear := usablePages + 1, clear + {i};
      BitmapCleared(b, data[..], i);
      forall j: nat | j < 8 * data.Length ensures Taken(j) <==> j != i && old(Taken(j)) {
        assert old(Taken(j)) == BitAt(b, j);
      }
    }

    method SetPages(addr: nat, count: nat)
      requires addr % PAGE_SIZE == 0 && addr / PAGE_SIZE + count <= 8 * data.Length
      requires Synced()
      modifies this`usablePages, this`clear, data
      ensures Synced()
      ensures clear == old(clear) - Run(addr / PAGE_SIZE, count) && usablePages == old(usablePages) - count
    {
      for i := 0 to count
        invariant Synced() && clear == old(clear) - Run(addr / PAGE_SIZE, i) && usablePages == old(usablePages) - i
      {
        assert (addr + i * PAGE_SIZE) / PAGE_SIZE == addr / PAGE_SIZE + i;
        SetPage(addr + i * PAGE_SIZE);
      }
    }

    /** pmm_free: clears the bits of a run, whatever they were. */
    method Free(addr: nat, pages: nat)
      requires addr % PAGE_SIZE == 0 && addr / PAGE_SIZE + pages <= 8 * data.Length
      requires Synced()
      modifies this`usablePages, this`clear, data
      ensures Synced()
      ensures clear == old(clear) + Run(addr / PAGE_SIZE, pages) && usablePages == old(usablePages) + pages
      ensures old(Valid()) && Run(addr / PAGE_SIZE, pages) <= managed ==> Valid()
      ensures old(Counted()) ==> (Counted() <==> Run(addr / PAGE_SIZE, pages) !! old(clear))
      ensures pages == 1 ==> TakesBack(old(State()), State(), addr / PAGE_SIZE)
    {
      for i := 0 to pages
        invariant Synced() && clear == old(clear) + Run(addr / PAGE_SIZE, i) && usablePages == old(usablePages) + i
      {
        assert (addr + i * PAGE_SIZE) / PAGE_SIZE == addr / PAGE_SIZE + i;
        ClearPage(addr + i * PAGE_SIZE);
      }
      RunSize(addr / PAGE_SIZE, pages);
      UnionSize(old(clear), Run(addr / PAGE_SIZE, pages));
      OneFrame(addr / PAGE_SIZE);
    }

    /** pmm_allocate.  It looks for one clear bit only: the first page of the run is
        the least clear frame, the other pages are taken as they are. */
    method Allocate(pages: nat) returns (ret: nat)
      requires Valid()
      requires forall i: nat :: IsLeast(i, clear) ==> i + pages <= 8 * data.Length
      modifies this`usablePages, this`clear, data
      ensures Valid()
      ensures ret == 0 <==> pages == 0 || pages > size || old(clear) == {}
      ensures ret == 0 ==> clear == old(clear) && usablePages == old(usablePages)
      ensures ret != 0 ==>
                && ret % PAGE_SIZE == 0 && IsLeast(ret / PAGE_SIZE, old(clear))
                && clear == old(clear) - Run(ret / PAGE_SIZE, pages) && usablePages == old(usablePages) - pages
      ensures old(Counted()) && ret != 0 ==> (Counted() <==> Run(ret / PAGE_SIZE, pages) <= old(clear))
      ensures pages == 1 ==>
                if ret == 0 then Refuses(old(State()), State()) else HandsOut(old(State()), State(), ret / PAGE_SIZE)
    {
      if pages > size {
        return 0;
      }
      for i := 0 to highestPage / PAGE_SIZE
        invariant pages > 0 ==> forall k: nat :: k < i ==> k !in clear
        invariant Synced() && clear == old(clear) && usablePages == old(usablePages) && Valid()
      {
        for j := 0 to pages
          invariant j < pages || pages == 0
        {
          if Taken(i) {
            break;
          } else if j == pages - 1 {
            ret := i * PAGE_SIZE;
            assert i in clear && IsLeast(i, clear);
            RunWithin(clear, i, pages);
            OneFrame(i);
            SetPages(ret, pages);
            return;
          }
        }
      }
      return 0;
    }
  }

  lemma RunWithin(s: set<nat>, first: nat, n: nat)
    ensures |s - Run(first, n)| == |s| - n <==> Run(first, n) <= s
  {
    var r := Run(first, n);
    RunSize(first, n);
    assert |s - r| == |s| - |s * r| by {
      assert s == (s - r) + (s * r);
    }
    assert |r| == |r - s| + |s * r| by {
      assert r == (r - s) + (s * r);
    }
    EmptyDifference(r, s);
  }

  lemma EmptyDifference(a: set<nat>, b: set<nat>)
    ensures |a - b| == 0 <==> a <= b
  {
    if a - b == {} {
      forall x | x in a ensures x in b {
        assert x !in a - b;
      }
    }
  }

  lemma UnionSize(a: set<nat>, b: set<nat>)
    ensures |a + b| == |a| + |b| <==> a !! b
  {
    assert a + b == a + (b - a);
    assert |a + b| == |a| + |b - a|;
    assert b == (b - a) + (b * a);
    assert |b| == |b - a| + |b * a|;
    assert |b * a| == 0 <==> b * a == {};
    assert b * a == {} <==> a !! b;
  }

  // ----- Runs of single pages ---------------------------------------------------------------

  /** One frame is handed out, the least clear one. */
  ghost predicate HandsOut(s: Frames, s': Frames, f: nat)
  {
    IsLeast(f, s.clear) && s' == s.(clear := s.clear - {f}, usable := s.usable - 1)
  }

  /** No frame is clear, and nothing changes. */
  ghost predicate Refuses(s: Frames, s': Frames)
  {
    s.clear == {} && s' == s
  }

  ghost predicate TakesBack(s: Frames, s': Frames, f: nat)
  {
    s' == s.(clear := s.clear + {f}, usable := s.usable + 1)
  }

  /** One call for a single page, by callers that hold the frames `held` and free only those. */
  ghost predicate PageCall(s: Frames, held: set<nat>, s': Frames, held': set<nat>)
  {
    || (exists f :: HandsOut(s, s', f) && held' == held + {f})
    || (Refuses(s, s') && held' == held)
    || (exists f :: f in held && TakesBack(s, s', f) && held' == held - {f})
  }

  ghost predicate CallAt(states: seq<Frames>, held: seq<set<nat>>, i: nat)
    requires |states| == |held| && i + 1 < |states|
  {
    PageCall(states[i], held[i], states[i + 1], held[i + 1])
  }

  /** Every managed frame is either clear or in use, never both, and the counter counts the clear ones. */
  ghost predicate Shared(s: Frames, held: set<nat>)
  {
    s.clear !! held && s.clear + held == s.managed && s.usable == |s.clear|
  }

  /** From the state the allocator starts in, any run of single pages handed out and freed keeps the frames
      shared out: none is handed out twice, none of the bitmap's own is handed out, and the counter is right. */
  lemma {:induction false} PageRuns(states: seq<Frames>, held: seq<set<nat>>, bitmap: set<nat>)
    requires |states| == |held| > 0 && states[0].clear == states[0].managed && held[0] == {}
    requires states[0].usable == |states[0].clear| && states[0].managed !! bitmap
    requires forall i: nat :: i + 1 < |states| ==> CallAt(states, held, i)
    ensures var n := |states| - 1;
      && Shared(states[n], held[n]) && states[n].managed == states[0].managed && held[n] !! bitmap
      && |states[n].clear| == |states[n].managed| - |held[n]|
  {
    var n := |states| - 1;
    if n > 0 {
      var s, h := states[..n], held[..n];
      forall i: nat | i + 1 < |s| ensures CallAt(s, h, i) {
        assert CallAt(states, held, i);
      }
      PageRuns(s, h, bitmap);
      assert CallAt(states, held, n - 1);
      PageCallKeeps(states[n - 1], held[n - 1], states[n], held[n]);
    }
    UnionSize(states[n].clear, held[n]);
  }

  lemma HandsOutKeeps(s: Frames, held: set<nat>, s': Frames, f: nat)
    requires Shared(s, held) && HandsOut(s, s', f)
    ensures Shared(s', held + {f}) && s'.managed == s.managed
  {
    OneMoved(s.managed, s'.clear, held, s.clear, held + {f}, f);
  }

  lemma TakesBackKeeps(s: Frames, held: set<nat>, s': Frames, f: nat)
    requires Shared(s, held) && f in held && TakesBack(s, s', f)
    ensures Shared(s', held - {f}) && s'.managed == s.managed
  {
    OneMoved(s.managed, held - {f}, s.clear, held, s'.clear, f);
  }

  lemma PageCallKeeps(s: Frames, held: set<nat>, s': Frames, held': set<nat>)
    requires Shared(s, held) && PageCall(s, held, s', held')
    ensures Shared(s', held') && s'.managed == s.managed
  {
    if f :| HandsOut(s, s', f) && held' == held + {f} {
      HandsOutKeeps(s, held, s', f);
    } else if f :| f in held && TakesBack(s, s', f) && held' == held - {f} {
      TakesBackKeeps(s, held, s', f);
    }
  }

  /** One of `from` goes over to `to`. */
  lemma OneMoved(all: set<nat>, rest: set<nat>, to: set<nat>, from: set<nat>, more: set<nat>, f: nat)
    requires f in from && rest == from - {f} && more == to + {f} && from !! to && from + to == all
    ensures rest !! more && rest + more == all && |rest| == |from| - 1 && |more| == |to| + 1
  {
    assert from == rest + {f};
  }

  /** Why PageRuns is about single pages: with frames 1 and 3 clear, a request for two pages takes frames 1
      and 2, of which 2 is in use, and the counter no longer counts the clear frames. */
  lemma TwoPagesOverlap()
    ensures var clear: set<nat> := {1, 3};
      IsLeast(1, clear) && 2 in Run(1, 2) && 2 !in clear && |clear - Run(1, 2)| != |clear| - 2
  {
    var clear: set<nat> := {1, 3};
    assert InRun(1, 1, 2) && InRun(2, 1, 2) && !InRun(3, 1, 2);
    assert clear - Run(1, 2) == {3};
  }

  /** A bitmap that is too small: memory of 0x8001 frames gets bits for 0x8000. */
  lemma OneBitShort()
    ensures 8 * BitmapSize(0x8001 * PAGE_SIZE) == 0x8000
  {
  }
}
