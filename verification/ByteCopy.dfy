/** The byte moves of src/lib: memcpy, memmove and the heap's word-wise copy. */
module ByteCopy {

  /** `m` after the `n` elements from `src` were copied to `dest`, all at once. */
  function Copied<T>(m: seq<T>, dest: nat, src: nat, n: nat): (m': seq<T>)
    requires dest + n <= |m| && src + n <= |m|
    ensures |m'| == |m|
  {
    m[..dest] + m[src..src + n] + m[dest + n..]
  }

  lemma CopiedAt<T>(m: seq<T>, dest: nat, src: nat, n: nat, k: nat)
    requires dest + n <= |m| && src + n <= |m| && k < |m|
    ensures Copied(m, dest, src, n)[k] == if dest <= k < dest + n then m[src + (k - dest)] else m[k]
  {
  }

  /** The first `n` elements of the move are done, the rest of `a` is still `m`. */
  ghost predicate Moved<T>(m: seq<T>, a: seq<T>, dest: nat, src: nat, from: nat, n: nat)
  {
    && |a| == |m| && dest + n <= |m| && src + n <= |m|
    && forall k {:trigger a[k]} :: 0 <= k < |m| ==>
         a[k] == if dest + from <= k < dest + n then m[src + (k - dest)] else m[k]
  }

  lemma MovedAll<T>(m: seq<T>, a: seq<T>, dest: nat, src: nat, n: nat)
    requires Moved(m, a, dest, src, 0, n)
    ensures a == Copied(m, dest, src, n)
  {
    forall k | 0 <= k < |m| ensures a[k] == Copied(m, dest, src, n)[k] {
      CopiedAt(m, dest, src, n, k);
    }
  }

  /** The next elements join the moved ones. */
  lemma MovedOn<T>(m: seq<T>, a: seq<T>, a': seq<T>, dest: nat, src: nat, n: nat, done: nat, next: nat)
    requires done <= next <= n && dest + n <= |m| && src + n <= |m| && (dest <= src || src + n <= dest)
    requires Moved(m, a, dest, src, 0, done) && |a'| == |m|
    requires forall k {:trigger a'[k]} :: 0 <= k < |m| ==>
               a'[k] == if dest + done <= k < dest + next then a[src + (k - dest)] else a[k]
    ensures Moved(m, a', dest, src, 0, next)
  {
  }

  /** liballoc_memcpy: four bytes at a time, then one at a time.  When the ranges do not
      overlap, or the copy moves data down, it is the simultaneous copy. */
  method CopyWords(a: array<bv8>, dest: nat, src: nat, n: nat)
    requires dest + n <= a.Length && src + n <= a.Length
    requires dest <= src || src + n <= dest
    modifies a
    ensures a[..] == Copied(old(a[..]), dest, src, n)
  {
    var d, s, left: nat := dest, src, n;
    ghost var m, done := a[..], 0;
    while left >= 4
      invariant done + left == n && d == dest + done && s == src + done
      invariant Moved(m, a[..], dest, src, 0, done)
    {
      ghost var before, next := a[..], done + 4;
      a[d], a[d + 1], a[d + 2], a[d + 3] := a[s], a[s + 1], a[s + 2], a[s + 3];
      MovedOn(m, before, a[..], dest, src, n, done, next);
      d, s, left, done := d + 4, s + 4, left - 4, next;
    }
    while left > 0
      invariant done + left == n && d == dest + done && s == src + done
      invariant Moved(m, a[..], dest, src, 0, done)
    {
      ghost var before, next := a[..], done + 1;
      a[d] := a[s];
      MovedOn(m, before, a[..], dest, src, n, done, next);
      d, s, left, done := d + 1, s + 1, left - 1, next;
    }
    MovedAll(m, a[..], dest, src, n);
  }

  /** memcpy of src/lib/mem.c. */
  method MemCpy<T>(a: array<T>, dest: nat, src: nat, n: nat)
    requires dest + n <= a.Length && src + n <= a.Length
    requires dest <= src || src + n <= dest
    modifies a
    ensures a[..] == Copied(old(a[..]), dest, src, n)
  {
    ghost var m := a[..];
    for i := 0 to n
      invariant Moved(m, a[..], dest, src, 0, i)
    {
      a[dest + i] := a[src + i];
    }
    MovedAll(m, a[..], dest, src, n);
  }

  /** memmove: upwards when the source lies above, downwards when it lies below.
      However the ranges overlap, it is the simultaneous copy. */
  method MemMove<T>(a: array<T>, dest: nat, src: nat, n: nat)
    requires dest + n <= a.Length && src + n <= a.Length
    modifies a
    ensures a[..] == Copied(old(a[..]), dest, src, n)
  {
    ghost var m := a[..];
    if src > dest {
      for i := 0 to n
        invariant Moved(m, a[..], dest, src, 0, i)
      {
        a[dest + i] := a[src + i];
      }
    } else if src < dest {
      for i := n downto 0
        invariant Moved(m, a[..], dest, src, i, n)
      {
        a[dest + i] := a[src + i];
      }
    }
    MovedAll(m, a[..], dest, src, n);
  }
}
