/** The growable array of src/lib/vec.c and src/lib/vec.h: byte moves in one buffer that
    refine the sequence operations on its elements. */
module Vec {
  import opened Basics
  import opened ByteCopy

  type Item = seq<bv8>

  // ----- A buffer of bytes as a list of elements ------------------------------------------

  /** Byte offset of element `i`. */
  function Off(i: nat, sz: nat): nat
  {
    Times(i, sz)
  }

  function Times(i: nat, sz: nat): nat
  {
    if i == 0 then 0 else Times(i - 1, sz) + sz
  }

  lemma {:induction false} TimesIsProduct(i: nat, sz: nat)
    ensures Times(i, sz) == i * sz
  {
    if i > 0 {
      TimesIsProduct(i - 1, sz);
    }
  }

  function Chunk(b: seq<bv8>, sz: nat, i: nat): Item
  {
    if Off(i, sz) + sz <= |b| then b[Off(i, sz)..Off(i, sz) + sz] else []
  }

  function Items(b: seq<bv8>, sz: nat, n: nat): (s: seq<Item>)
    ensures |s| == n
  {
    seq(n, i requires 0 <= i < n => Chunk(b, sz, i))
  }

  lemma {:induction false} OffSum(i: nat, j: nat, sz: nat)
    ensures Off(i + j, sz) == Off(i, sz) + Off(j, sz)
    decreases j
  {
    if j > 0 {
      OffSum(i, j - 1, sz);
      assert i + j - 1 == i + (j - 1);
    }
  }

  lemma Ordered(i: nat, j: nat, sz: nat)
    requires i < j
    ensures Off(i, sz) + sz <= Off(j, sz)
  {
    OffSum(i, 1, sz);
    OffSum(i + 1, j - i - 1, sz);
    assert Times(1, sz) == Times(0, sz) + sz;
  }

  lemma ChunkIs(b: seq<bv8>, sz: nat, i: nat, x: Item)
    requires Off(i, sz) + sz <= |b| && b[Off(i, sz)..Off(i, sz) + sz] == x
    ensures Chunk(b, sz, i) == x
  {
  }

  lemma SliceStays(m: seq<bv8>, d: nat, s: nat, c: nat, at: nat, sz: nat)
    requires d + c <= |m| && s + c <= |m| && at + sz <= |m| && (at + sz <= d || d + c <= at)
    ensures Copied(m, d, s, c)[at..at + sz] == m[at..at + sz]
  {
    var m' := Copied(m, d, s, c);
    forall k | at <= k < at + sz ensures m'[k] == m[k] {
      CopiedAt(m, d, s, c, k);
    }
  }

  lemma SliceMoves(m: seq<bv8>, d: nat, s: nat, c: nat, at: nat, sz: nat)
    requires d + c <= |m| && s + c <= |m| && d <= at && at + sz <= d + c
    ensures Copied(m, d, s, c)[at..at + sz] == m[s + (at - d)..s + (at - d) + sz]
  {
    var m', from := Copied(m, d, s, c), s + (at - d);
    var x, y := m'[at..at + sz], m[from..from + sz];
    forall k | 0 <= k < sz ensures x[k] == y[k] {
      CopiedAt(m, d, s, c, at + k);
    }
  }

  lemma Reach(d: nat, c: nat, n: nat, sz: nat)
    requires d + c <= n
    ensures Off(d, sz) + Off(c, sz) <= Off(n, sz)
  {
    OffSum(d, c, sz);
    OffSum(d + c, n - (d + c), sz);
  }

  lemma ChunkStays(m: seq<bv8>, sz: nat, d: nat, s: nat, c: nat, k: nat)
    requires Off(d, sz) + Off(c, sz) <= |m| && Off(s, sz) + Off(c, sz) <= |m|
    requires Off(k, sz) + sz <= |m| && (k < d || d + c <= k)
    ensures Chunk(Copied(m, Off(d, sz), Off(s, sz), Off(c, sz)), sz, k) == Chunk(m, sz, k)
  {
    var at, m' := Off(k, sz), Copied(m, Off(d, sz), Off(s, sz), Off(c, sz));
    if k < d {
      Ordered(k, d, sz);
    } else {
      Reach(d, c, k, sz);
    }
    assert m'[at..at + sz] == m[at..at + sz] by {
      SliceStays(m, Off(d, sz), Off(s, sz), Off(c, sz), at, sz);
    }
    ChunkIs(m, sz, k, m[at..at + sz]);
    ChunkIs(m', sz, k, m[at..at + sz]);
  }

  lemma ChunkMoves(m: seq<bv8>, sz: nat, d: nat, s: nat, c: nat, k: nat)
    requires Off(d, sz) + Off(c, sz) <= |m| && Off(s, sz) + Off(c, sz) <= |m|
    requires Off(k, sz) + sz <= |m| && d <= k < d + c
    ensures Chunk(Copied(m, Off(d, sz), Off(s, sz), Off(c, sz)), sz, k) == Chunk(m, sz, s + (k - d))
  {
    Ordered(k - d, c, sz);
    OffSum(d, k - d, sz);
    OffSum(s, k - d, sz);
    var at, from, m' := Off(k, sz), Off(s + (k - d), sz), Copied(m, Off(d, sz), Off(s, sz), Off(c, sz));
    assert m'[at..at + sz] == m[from..from + sz] by {
      SliceMoves(m, Off(d, sz), Off(s, sz), Off(c, sz), at, sz);
    }
    ChunkIs(m, sz, s + (k - d), m[from..from + sz]);
    ChunkIs(m', sz, k, m[from..from + sz]);
  }

  /** A byte move between element boundaries is the move of the elements. */
  lemma MoveRefines(m: seq<bv8>, sz: nat, n: nat, d: nat, s: nat, c: nat)
    requires Off(n, sz) <= |m| && d + c <= n && s + c <= n
    ensures Off(d, sz) + Off(c, sz) <= |m| && Off(s, sz) + Off(c, sz) <= |m|
    ensures Items(Copied(m, Off(d, sz), Off(s, sz), Off(c, sz)), sz, n) == Copied(Items(m, sz, n), d, s, c)
  {
    Reach(d, c, n, sz);
    Reach(s, c, n, sz);
    var m' := Copied(m, Off(d, sz), Off(s, sz), Off(c, sz));
    forall k | 0 <= k < n ensures Items(m', sz, n)[k] == Copied(Items(m, sz, n), d, s, c)[k] {
      ItemMoved(m, m', sz, n, d, s, c, k);
    }
  }

  lemma ItemMoved(m: seq<bv8>, m': seq<bv8>, sz: nat, n: nat, d: nat, s: nat, c: nat, k: nat)
    requires Off(n, sz) <= |m| && d + c <= n && s + c <= n && k < n
    requires Off(d, sz) + Off(c, sz) <= |m| && Off(s, sz) + Off(c, sz) <= |m|
    requires m' == Copied(m, Off(d, sz), Off(s, sz), Off(c, sz))
    ensures Chunk(m', sz, k) == Copied(Items(m, sz, n), d, s, c)[k]
  {
    Ordered(k, n, sz);
    CopiedAt(Items(m, sz, n), d, s, c, k);
    if d <= k < d + c {
      ChunkMoves(m, sz, d, s, c, k);
    } else {
      ChunkStays(m, sz, d, s, c, k);
    }
  }

  /** Writing one element's bytes replaces that element. */
  lemma WriteRefines(m: seq<bv8>, m': seq<bv8>, sz: nat, n: nat, i: nat, x: Item)
    requires i < n && Off(n, sz) <= |m| && |x| == sz && |m'| == |m|
    requires Off(i, sz) + sz <= |m| && m' == m[..Off(i, sz)] + x + m[Off(i, sz) + sz..]
    ensures Items(m', sz, n) == Items(m, sz, n)[i := x]
  {
    forall k | 0 <= k < n ensures Items(m', sz, n)[k] == Items(m, sz, n)[i := x][k] {
      Ordered(k, n, sz);
      if k < i {
        Ordered(k, i, sz);
      } else if i < k {
        Ordered(i, k, sz);
      }
      SliceWritten(m, Off(i, sz), x, Off(k, sz));
    }
  }

  lemma SliceWritten(m: seq<bv8>, at: nat, x: Item, k: nat)
    requires at + |x| <= |m| && k + |x| <= |m|
    ensures var m' := m[..at] + x + m[at + |x|..];
      && m'[at..at + |x|] == x
      && (k + |x| <= at || at + |x| <= k ==> m'[k..k + |x|] == m[k..k + |x|])
  {
  }

  lemma PrefixItems(m: seq<bv8>, m': seq<bv8>, sz: nat, n: nat)
    requires Off(n, sz) <= |m| && m <= m'
    ensures Items(m, sz, n) == Items(m', sz, n)
  {
    forall k | 0 <= k < n ensures Chunk(m, sz, k) == Chunk(m', sz, k) {
      Ordered(k, n, sz);
      assert m == m'[..|m|];
    }
  }

  // ----- Growth ---------------------------------------------------------------------------

  function Doubled(capacity: nat): nat
  {
    if capacity == 0 then 1 else 2 * capacity
  }

  predicate PowerOfTwo(n: nat)
  {
    n == 1 || (n > 1 && n % 2 == 0 && PowerOfTwo(n / 2))
  }

  lemma DoubledPower(n: nat)
    requires PowerOfTwo(n)
    ensures PowerOfTwo(2 * n)
  {
    assert 2 * n / 2 == n;
  }

  /** The capacity after `n` pushes onto an empty vector. */
  function CapacityAfter(n: nat): nat
  {
    if n == 0 then 0
    else if n > CapacityAfter(n - 1) then Doubled(CapacityAfter(n - 1))
    else CapacityAfter(n - 1)
  }

  /** The elements that were copied to larger buffers during these pushes. */
  function CopiedAfter(n: nat): nat
  {
    if n == 0 then 0
    else CopiedAfter(n - 1) + if n > CapacityAfter(n - 1) then CapacityAfter(n - 1) else 0
  }

  /** Amortised cost: `n` pushes copy fewer than `2 * n` elements and waste less than half the room. */
  lemma {:induction false} PushesAreCheap(n: nat)
    requires n > 0
    ensures PowerOfTwo(CapacityAfter(n)) && n <= CapacityAfter(n) < 2 * n
    ensures CopiedAfter(n) == CapacityAfter(n) - 1 < 2 * n
  {
    if n > 1 {
      PushesAreCheap(n - 1);
      DoubledPower(CapacityAfter(n - 1));
    } else {
      assert CapacityAfter(0) == 0;
    }
  }

  // ----- Sequence operations ---------------------------------------------------------------

  function Reversed<T>(s: seq<T>): (r: seq<T>)
    ensures |r| == |s|
  {
    seq(|s|, i requires 0 <= i < |s| => s[|s| - 1 - i])
  }

  /** What vec_swapsplice leaves: the last `count` elements moved over the removed ones. */
  function SwapSpliced<T>(s: seq<T>, start: nat, count: nat): (r: seq<T>)
    requires start + count <= |s|
  {
    Copied(s, start, |s| - count, count)[..|s| - count]
  }

  function Spliced<T>(s: seq<T>, start: nat, count: nat): (r: seq<T>)
    requires start + count <= |s|
  {
    s[..start] + s[start + count..]
  }

  /** The tail that fills the hole must lie beyond the hole, or be the hole. */
  predicate Separate(n: nat, start: nat, count: nat)
  {
    2 * count + start <= n || start + count == n
  }

  lemma SwapSplicedAt<T>(s: seq<T>, start: nat, count: nat, k: nat)
    requires start + count <= |s| && k < |s| - count
    ensures SwapSpliced(s, start, count)[k] == if start <= k < start + count then s[|s| - count + (k - start)] else s[k]
  {
    CopiedAt(s, start, |s| - count, count, k);
  }

  lemma SwapSplicedAll<T>(s: seq<T>, start: nat, count: nat)
    requires start + count <= |s|
    ensures forall k :: 0 <= k < |s| - count ==>
              SwapSpliced(s, start, count)[k] == s[if start <= k < start + count then |s| - count + (k - start) else k]
  {
    forall k | 0 <= k < |s| - count
      ensures SwapSpliced(s, start, count)[k] == s[if start <= k < start + count then |s| - count + (k - start) else k]
    {
      SwapSplicedAt(s, start, count, k);
    }
  }

  /** Then exactly the chosen elements are gone. */
  lemma SwapSpliceRemoves<T>(s: seq<T>, start: nat, count: nat)
    requires start + count <= |s| && Separate(|s|, start, count)
    ensures multiset(SwapSpliced(s, start, count)) == multiset(Spliced(s, start, count))
  {
    var n, r := |s|, SwapSpliced(s, start, count);
    forall k | 0 <= k < n - count
      ensures r[k] == if start <= k < start + count then s[n - count + (k - start)] else s[k]
    {
      SwapSplicedAt(s, start, count, k);
    }
    if start + count == n {
      assert r == s[..start] == Spliced(s, start, count);
    } else {
      var a, mid, tail := s[..start], s[start + count..n - count], s[n - count..];
      assert r == a + tail + mid;
      assert s[start + count..] == mid + tail;
      assert multiset(Spliced(s, start, count)) == multiset(a) + multiset(mid + tail);
    }
  }

  /** With distinct elements the condition is exact: otherwise an element that was to go stays. */
  lemma SwapSpliceExact<T>(s: seq<T>, start: nat, count: nat)
    requires start + count <= |s| && Distinct(s)
    ensures multiset(SwapSpliced(s, start, count)) == multiset(Spliced(s, start, count))
            <==> Separate(|s|, start, count)
  {
    if Separate(|s|, start, count) {
      SwapSpliceRemoves(s, start, count);
    } else {
      var n, r, kept := |s|, SwapSpliced(s, start, count), Spliced(s, start, count);
      var x := s[n - count];
      SwapSplicedAt(s, start, count, start);
      assert r[start] == x;
      assert x in multiset(r);
      forall k | 0 <= k < |kept| ensures kept[k] != x {
        assert kept[k] == if k < start then s[k] else s[k + count];
      }
      assert x !in multiset(kept);
    }
  }

  /** Such a call: of a, b and c the first two are to go, but b stays and c goes. */
  lemma WrongOneStays<T>(a: T, b: T, c: T)
    ensures SwapSpliced([a, b, c], 0, 2) == [b] && Spliced([a, b, c], 0, 2) == [c]
  {
    CopiedAt([a, b, c], 0, 1, 2, 0);
  }

  // ----- What the moves do to the elements in use -----------------------------------------------

  lemma Inserted<T>(s: seq<T>, n: nat, idx: nat, x: T)
    requires idx <= n < |s|
    ensures Copied(s, idx + 1, idx, n - idx)[idx := x][..n + 1] == s[..n][..idx] + [x] + s[..n][idx..]
  {
    var l, r := Copied(s, idx + 1, idx, n - idx)[idx := x][..n + 1], s[..n][..idx] + [x] + s[..n][idx..];
    forall k | 0 <= k < n + 1 ensures l[k] == r[k] {
      CopiedAt(s, idx + 1, idx, n - idx, k);
    }
  }

  lemma Closed<T>(s: seq<T>, n: nat, start: nat, count: nat)
    requires start + count <= n <= |s|
    ensures Copied(s, start, start + count, n - start - count)[..n - count] == Spliced(s[..n], start, count)
  {
    var l, r := Copied(s, start, start + count, n - start - count)[..n - count], Spliced(s[..n], start, count);
    forall k | 0 <= k < n - count ensures l[k] == r[k] {
      CopiedAt(s, start, start + count, n - start - count, k);
    }
  }

  lemma Filled<T>(s: seq<T>, n: nat, start: nat, count: nat)
    requires start + count <= n <= |s|
    ensures Copied(s, start, n - count, count)[..n - count] == SwapSpliced(s[..n], start, count)
  {
    var l, r := Copied(s, start, n - count, count)[..n - count], SwapSpliced(s[..n], start, count);
    forall k | 0 <= k < n - count ensures l[k] == r[k] {
      CopiedAt(s, start, n - count, count, k);
      SwapSplicedAt(s[..n], start, count, k);
    }
  }

  /** Reversed but for the elements from `i` up to their mirror images, which are still in place. */
  ghost predicate Mirrored<T>(s: seq<T>, c: seq<T>, i: nat)
  {
    && |c| == |s|
    && forall k {:trigger c[k]} :: 0 <= k < |s| ==> c[k] == if i <= k < |s| - i then s[|s| - 1 - k] else s[k]
  }

  lemma MirrorStep<T>(s: seq<T>, c: seq<T>, i: nat)
    requires i < |s| / 2 && Mirrored(s, c, i + 1)
    ensures |c| == |s| && var j := |s| - (i + 1); Mirrored(s, c[i := c[j]][j := c[i]], i)
  {
  }

  lemma MirroredAll<T>(s: seq<T>, c: seq<T>)
    requires Mirrored(s, c, 0)
    ensures c == Reversed(s)
  {
    forall k | 0 <= k < |s| ensures c[k] == Reversed(s)[k] {
    }
  }

  lemma MirroredNone<T>(s: seq<T>)
    ensures Mirrored(s, s, |s| / 2)
  {
    forall k | |s| / 2 <= k < |s| - |s| / 2 ensures s[k] == s[|s| - 1 - k] {
      assert k == |s| - 1 - k;
    }
  }

  // ----- The vector --------------------------------------------------------------------------

  class Vector {
    const memsz: nat
    var data: array<bv8>
    var length: nat
    var capacity: nat
    ghost var copied: nat

    ghost predicate Valid()
      reads this
    {
      memsz > 0 && length <= capacity && data.Length == Off(capacity, memsz)
    }

    ghost function Contents(): (s: seq<Item>)
      reads this, data
      ensures |s| == length
    {
      Items(data[..], memsz, length)
    }

    /** The vector was built by pushes alone. */
    ghost predicate OnlyPushed()
      reads this
    {
      capacity == CapacityAfter(length) && copied == CopiedAfter(length)
    }

    /** vec_init. */
    constructor (memsz: nat)
      requires memsz > 0
      ensures Valid() && Contents() == [] && OnlyPushed() && this.memsz == memsz && fresh(data)
    {
      this.memsz := memsz;
      data := new bv8[0];
      length, capacity, copied := 0, 0, 0;
    }

    /** `data = realloc(data, n * memsz)`. */
    method Resize(n: nat)
      requires Valid() && n >= capacity
      modifies this
      ensures Valid() && capacity == n && fresh(data) && length == old(length)
      ensures Contents() == old(Contents()) && copied == old(copied) + old(capacity)
    {
      OffSum(capacity, n - capacity, memsz);
      OffSum(length, capacity - length, memsz);
      var larger, smaller := new bv8[Off(n, memsz)], data;
      for i := 0 to smaller.Length
        invariant unchanged(this) && unchanged(smaller) && larger[..i] == smaller[..i]
      {
        larger[i] := smaller[i];
      }
      assert smaller[..] <= larger[..];
      PrefixItems(smaller[..], larger[..], memsz, length);
      data := larger;
      copied := copied + capacity;
      capacity := n;
    }

    /** vec_expand_: room for one more. */
    method Expand()
      requires Valid()
      modifies this
      ensures Valid() && length < capacity && length == old(length) && Contents() == old(Contents())
      ensures data == old(data) || fresh(data)
      ensures capacity == if old(length) + 1 > old(capacity) then Doubled(old(capacity)) else old(capacity)
      ensures copied == old(copied) + if old(length) + 1 > old(capacity) then old(capacity) else 0
    {
      if length + 1 > capacity {
        var n := if capacity == 0 then 1 else 2 * capacity;
        Resize(n);
      }
    }

    /** vec_reserve_po2_. */
    method ReservePo2(n: nat)
      requires Valid()
      modifies this
      ensures Valid() && length == old(length) && Contents() == old(Contents()) && capacity >= n
      ensures data == old(data) || fresh(data)
      ensures capacity == old(capacity) || (PowerOfTwo(capacity) && capacity < 2 * n)
    {
      if n == 0 {
        return;
      }
      var n2 := 1;
      while n2 < n
        invariant PowerOfTwo(n2) && n2 < 2 * n && unchanged(this) && unchanged(data)
        decreases n - n2
      {
        DoubledPower(n2);
        n2 := 2 * n2;
      }
      if n2 > capacity {
        Resize(n2);
      }
    }

    /** `data[i] = x`. */
    method Put(i: nat, x: Item)
      requires Valid() && i < capacity && |x| == memsz
      modifies data
      ensures Items(data[..], memsz, capacity) == old(Items(data[..], memsz, capacity))[i := x]
    {
      Ordered(i, capacity, memsz);
      var at := Off(i, memsz);
      ghost var m := data[..];
      for k := 0 to memsz
        invariant forall q :: 0 <= q < data.Length ==> data[q] == if at <= q < at + k then x[q - at] else m[q]
      {
        data[at + k] := x[k];
      }
      assert data[..] == m[..at] + x + m[at + memsz..];
      WriteRefines(m, data[..], memsz, capacity, i, x);
    }

    ghost function Slots(): (s: seq<Item>)
      reads this, data
      ensures |s| == capacity
      ensures length <= capacity ==> Contents() == s[..length]
    {
      Items(data[..], memsz, capacity)
    }

    method Push(x: Item)
      requires Valid() && |x| == memsz
      modifies this, data
      ensures Valid() && Contents() == old(Contents()) + [x] && (data == old(data) || fresh(data))
      ensures old(OnlyPushed()) ==> OnlyPushed()
    {
      Expand();
      PutNext(x);
    }

    /** `data[length++] = x`. */
    method PutNext(x: Item)
      requires Valid() && length < capacity && |x| == memsz
      modifies this`length, data
      ensures Valid() && Contents() == old(Contents()) + [x] && length == old(length) + 1
    {
      ghost var s := Contents();
      Put(length, x);
      length := length + 1;
      assert Contents() == Slots()[..length] == s + [x];
    }

    /** vec_insert. */
    method Insert(idx: nat, x: Item)
      requires Valid() && idx <= length && |x| == memsz
      modifies this, data
      ensures Valid() && Contents() == old(Contents())[..idx] + [x] + old(Contents())[idx..]
      ensures data == old(data) || fresh(data)
    {
      Expand();
      ghost var slots := Slots();
      MoveItems(idx + 1, idx, length - idx);
      Put(idx, x);
      Inserted(slots, length, idx, x);
      length := length + 1;
    }

    /** memmove of `c` elements inside the buffer. */
    method MoveItems(d: nat, s: nat, c: nat)
      requires Valid() && d + c <= capacity && s + c <= capacity
      modifies data
      ensures Slots() == Copied(old(Slots()), d, s, c)
    {
      MoveRefines(data[..], memsz, capacity, d, s, c);
      MemMove(data, Off(d, memsz), Off(s, memsz), Off(c, memsz));
    }

    /** vec_splice. */
    method Splice(start: nat, count: nat)
      requires Valid() && start + count <= length
      modifies this, data
      ensures Valid() && data == old(data)
      ensures Contents() == old(Contents())[..start] + old(Contents())[start + count..]
    {
      Closed(Slots(), length, start, count);
      MoveItems(start, start + count, length - start - count);
      length := length - count;
    }

    /** vec_swapsplice. */
    method SwapSplice(start: nat, count: nat)
      requires Valid() && start + count <= length
      modifies this, data
      ensures Valid() && Contents() == SwapSpliced(old(Contents()), start, count) && data == old(data)
      ensures forall k :: 0 <= k < length ==>
                var from := if start <= k < start + count then old(length) - count + (k - start) else k;
                Contents()[k] == old(Contents())[from]
    {
      ghost var s := Contents();
      Filled(Slots(), length, start, count);
      MoveItems(start, length - count, count);
      length := length - count;
      SwapSplicedAll(s, start, count);
    }

    /** vec_swap_: byte by byte. */
    method Swap(i: nat, j: nat)
      requires Valid() && i < length && j < length
      modifies data
      ensures Contents() == old(Contents())[i := old(Contents())[j]][j := old(Contents())[i]]
    {
      if i == j {
        return;
      }
      SwapBytes(i, j);
    }

    method SwapBytes(i: nat, j: nat)
      requires Valid() && i < length && j < length && i != j
      modifies data
      ensures Contents() == old(Contents())[i := old(Contents())[j]][j := old(Contents())[i]]
    {
      ghost var m := data[..];
      var a, b := Off(i, memsz), Off(j, memsz);
      OffSum(length, capacity - length, memsz);
      SlotsApart(i, j, length, memsz);
      ExchangeBytes(data, a, b, memsz);
      SwapRefines(m, data[..], memsz, length, i, j);
    }

    /** vec_find. */
    method Find(x: Item) returns (idx: int)
      requires Valid() && |x| == memsz
      ensures -1 <= idx < length
      ensures idx == -1 ==> x !in Contents()
      ensures idx >= 0 ==> Contents()[idx] == x && x !in Contents()[..idx]
    {
      idx := 0;
      while idx < length
        invariant 0 <= idx <= length && x !in Contents()[..idx]
      {
        Ordered(idx, length, memsz);
        OffSum(length, capacity - length, memsz);
        if data[Off(idx, memsz)..Off(idx, memsz) + memsz] == x {
          break;
        }
        idx := idx + 1;
      }
      if idx == length {
        assert Contents()[..idx] == Contents();
        idx := -1;
      }
    }

    /** vec_remove. */
    method Remove(x: Item)
      requires Valid() && |x| == memsz
      modifies this, data
      ensures Valid() && Contents() == WithoutFirst(old(Contents()), x) && data == old(data)
    {
      var idx := Find(x);
      WithoutFirstIs(Contents(), x, if idx == -1 then length else idx);
      if idx != -1 {
        Splice(idx, 1);
      }
    }

    /** vec_reverse: swap from the middle outwards. */
    method Reverse()
      requires Valid()
      modifies data
      ensures Contents() == Reversed(old(Contents()))
      ensures forall k :: 0 <= k < length ==> Contents()[k] == old(Contents())[length - 1 - k]
    {
      ghost var s := Contents();
      MirroredNone(s);
      for i := length / 2 downto 0
        invariant unchanged(this) && Mirrored(s, Contents(), i)
      {
        SwapMirrored(i, s);
      }
      MirroredAll(s, Contents());
    }

    method SwapMirrored(i: nat, ghost s: seq<Item>)
      requires Valid() && i < length / 2 && |s| == length && Mirrored(s, Contents(), i + 1)
      modifies data
      ensures Mirrored(s, Contents(), i)
    {
      MirrorStep(s, Contents(), i);
      Swap(i, length - (i + 1));
    }

    /** vec_pusharr. */
    method PushArr(arr: seq<Item>)
      requires Valid() && forall x :: x in arr ==> |x| == memsz
      modifies this, data
      ensures Valid() && Contents() == old(Contents()) + arr
      ensures data == old(data) || fresh(data)
    {
      ghost var s, n0 := Contents(), length;
      ReservePo2(length + |arr|);
      for i := 0 to |arr|
        invariant Valid() && length == n0 + i && n0 + |arr| <= capacity && Contents() == s + arr[..i]
        invariant data == old(data) || fresh(data)
      {
        PutNext(arr[i]);
        assert arr[..i] + [arr[i]] == arr[..i + 1];
      }
      assert arr[..|arr|] == arr;
    }
  }

  // ----- Swapping bytes ------------------------------------------------------------------------

  lemma SlotsApart(i: nat, j: nat, n: nat, sz: nat)
    requires i < n && j < n && i != j
    ensures Off(i, sz) + sz <= Off(n, sz) && Off(j, sz) + sz <= Off(n, sz)
    ensures Off(i, sz) + sz <= Off(j, sz) || Off(j, sz) + sz <= Off(i, sz)
  {
    Ordered(i, n, sz);
    Ordered(j, n, sz);
    if i < j {
      Ordered(i, j, sz);
    } else {
      Ordered(j, i, sz);
    }
  }

  /** The first `k` bytes at `a` and `b` have changed places. */
  ghost predicate SwappedTo(m: seq<bv8>, m': seq<bv8>, a: nat, b: nat, k: nat)
  {
    && |m'| == |m| && a + k <= |m| && b + k <= |m|
    && forall i {:trigger m'[i]} :: 0 <= i < |m| ==> m'[i] == SwappedAt(m, a, b, k, i)
  }

  function SwappedAt(m: seq<bv8>, a: nat, b: nat, k: nat, i: nat): bv8
    requires i < |m| && a + k <= |m| && b + k <= |m|
  {
    if a <= i < a + k then m[b + (i - a)] else if b <= i < b + k then m[a + (i - b)] else m[i]
  }

  method ExchangeBytes(data: array<bv8>, a: nat, b: nat, count: nat)
    requires a + count <= data.Length && b + count <= data.Length && (a + count <= b || b + count <= a)
    modifies data
    ensures SwappedTo(old(data[..]), data[..], a, b, count)
  {
    for k := 0 to count
      invariant SwappedTo(old(data[..]), data[..], a, b, k)
    {
      data[a + k], data[b + k] := data[b + k], data[a + k];
    }
  }

  lemma SwapRefines(m: seq<bv8>, m': seq<bv8>, sz: nat, n: nat, i: nat, j: nat)
    requires i < n && j < n && i != j && Off(n, sz) <= |m|
    requires SwappedTo(m, m', Off(i, sz), Off(j, sz), sz)
    ensures var s := Items(m, sz, n); Items(m', sz, n) == s[i := s[j]][j := s[i]]
  {
    var s := Items(m, sz, n);
    forall k | 0 <= k < n ensures Items(m', sz, n)[k] == s[i := s[j]][j := s[i]][k] {
      ChunkSwapped(m, m', sz, n, i, j, k);
    }
  }

  lemma SliceSwapped(m: seq<bv8>, m': seq<bv8>, a: nat, b: nat, sz: nat, k: nat)
    requires SwappedTo(m, m', a, b, sz) && k + sz <= |m| && (a + sz <= b || b + sz <= a)
    ensures m'[a..a + sz] == m[b..b + sz] && m'[b..b + sz] == m[a..a + sz]
    ensures (k + sz <= a || a + sz <= k) && (k + sz <= b || b + sz <= k) ==> m'[k..k + sz] == m[k..k + sz]
  {
    var x, y, v, w := m'[a..a + sz], m[b..b + sz], m'[b..b + sz], m[a..a + sz];
    forall q | 0 <= q < sz ensures x[q] == y[q] && v[q] == w[q] {
      assert m'[a + q] == SwappedAt(m, a, b, sz, a + q) && m'[b + q] == SwappedAt(m, a, b, sz, b + q);
    }
  }

  lemma ChunkSwapped(m: seq<bv8>, m': seq<bv8>, sz: nat, n: nat, i: nat, j: nat, k: nat)
    requires i < n && j < n && k < n && i != j && Off(n, sz) <= |m|
    requires SwappedTo(m, m', Off(i, sz), Off(j, sz), sz)
    ensures Chunk(m', sz, k) == Chunk(m, sz, if k == i then j else if k == j then i else k)
  {
    SlotsApart(i, j, n, sz);
    Ordered(k, n, sz);
    if k != i {
      SlotsApart(k, i, n, sz);
    }
    if k != j {
      SlotsApart(k, j, n, sz);
    }
    SliceSwapped(m, m', Off(i, sz), Off(j, sz), sz, Off(k, sz));
    var from := if k == i then j else if k == j then i else k;
    ChunkIs(m, sz, from, m[Off(from, sz)..Off(from, sz) + sz]);
    ChunkIs(m', sz, k, m[Off(from, sz)..Off(from, sz) + sz]);
  }
}
