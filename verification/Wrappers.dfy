/** Values that may be absent, as Go returns them (a nil pointer or a false `ok`), sequences, and machine integers. */
module Wrappers {
  datatype Option<+T> = None | Some(value: T)

  lemma AppendLast<T>(a: seq<T>, b: seq<T>, x: T)
    ensures a + b + [x] == a + (b + [x])
  {
  }

  lemma DropLast<T>(a: seq<T>, b: seq<T>)
    requires |b| > 0
    ensures (a + b)[..|a + b| - 1] == a + b[..|b| - 1]
  {
  }

  lemma AppendNothing<T>(a: seq<T>)
    ensures a + [] == a
  {
  }

  lemma Associative<T>(a: seq<T>, b: seq<T>, c: seq<T>)
    ensures a + b + c == a + (b + c)
  {
  }

  /** The positions below `n`. */
  function UpTo(n: nat): (r: set<nat>)
    ensures forall i: nat :: i in r <==> i < n
  {
    if n == 0 then {} else UpTo(n - 1) + {n - 1}
  }

  type int64 = x: int | -0x8000_0000_0000_0000 <= x < 0x8000_0000_0000_0000

  const MAX_INT64: int64 := 0x7FFF_FFFF_FFFF_FFFF

  /** The value of an integer in Go's 64-bit arithmetic. */
  function Int64(x: int): (r: int64)
    ensures -0x8000_0000_0000_0000 <= x < 0x8000_0000_0000_0000 ==> r == x
  {
    (x + 0x8000_0000_0000_0000) % 0x1_0000_0000_0000_0000 - 0x8000_0000_0000_0000
  }

  lemma SubsetSize<T>(small: set<T>, big: set<T>)
    requires small <= big
    ensures |small| <= |big|
    ensures |small| == |big| ==> small == big
  {
    assert |big| == |small| + |big - small|;
  }
}
