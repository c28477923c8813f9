/** Constants and small definitions that several modules share. */
module Basics {

  /** Bytes in a page, PAGE_SIZE of src/kernel/arch/arch.h. */
  const PAGE_SIZE: nat := 4096

  const STACK_SIZE: nat := 0x4000
  const USER_STACK_TOP: nat := 0x8000_0000_0000 - 8192

  type Byte = x: nat | x < 256

  datatype Option<+T> = None | Some(value: T)

  /** `l` without the first `x`. */
  function WithoutFirst<T(==)>(l: seq<T>, x: T): (r: seq<T>)
    ensures |r| == if x in l then |l| - 1 else |l|
  {
    if l == [] then [] else if l[0] == x then l[1..] else [l[0]] + WithoutFirst(l[1..], x)
  }

  /** The first occurrence is the one that goes. */
  lemma {:induction false} WithoutFirstIs<T>(l: seq<T>, x: T, i: nat)
    requires i <= |l| && x !in l[..i] && (i < |l| ==> l[i] == x)
    ensures WithoutFirst(l, x) == if i < |l| then l[..i] + l[i + 1..] else l
  {
    if l == [] {
    } else if i == 0 {
      assert l[..0] + l[1..] == l[1..];
    } else {
      assert l[0] == l[..i][0];
      assert l[..i][1..] == l[1..][..i - 1];
      WithoutFirstIs(l[1..], x, i - 1);
      HeadKept(l, i);
    }
  }

  lemma HeadKept<T>(l: seq<T>, i: nat)
    requires 0 < i <= |l|
    ensures [l[0]] + l[1..] == l
    ensures i < |l| ==> [l[0]] + (l[1..][..i - 1] + l[1..][i..]) == l[..i] + l[i + 1..]
  {
  }

  lemma {:induction false} OthersStay<T>(l: seq<T>, x: T)
    ensures forall y :: y in WithoutFirst(l, x) ==> y in l
    ensures forall y :: y in l && y != x ==> y in WithoutFirst(l, x)
  {
    if l != [] {
      OthersStay(l[1..], x);
    }
  }

  ghost predicate Distinct<T>(l: seq<T>)
  {
    forall i, j :: 0 <= i < j < |l| ==> l[i] != l[j]
  }
}
