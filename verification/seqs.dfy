/** Generic sequence helpers shared by the byte and text layers. */
module Seqs {

  /** Position of the first occurrence of `x` in `xs`. */
  function IndexOf<T(==)>(xs: seq<T>, x: T): (i: nat)
    requires x in xs
    ensures i < |xs| && xs[i] == x
    ensures x !in xs[..i]
  {
    if xs[0] == x then 0
    else
      assert x in xs[1..] by { assert xs == [xs[0]] + xs[1..]; }
      1 + IndexOf(xs[1..], x)
  }

  lemma {:induction false} IndexOfAppend<T>(a: seq<T>, b: seq<T>, x: T)
    requires x in a + b
    ensures x in a ==> IndexOf(a + b, x) == IndexOf(a, x)
    ensures x !in a ==> x in b && IndexOf(a + b, x) == |a| + IndexOf(b, x)
  {
    if a == [] {
      assert a + b == b;
    } else if a[0] != x {
      assert (a + b)[1..] == a[1..] + b;
      assert x in a <==> x in a[1..] by { assert a == [a[0]] + a[1..]; }
      IndexOfAppend(a[1..], b, x);
    }
  }

  /** `a` is a prefix of `a + b`, and dropping it leaves `b`. */
  lemma AppendPrefix<T>(a: seq<T>, b: seq<T>)
    ensures a <= a + b && (a + b)[|a|..] == b
  {
  }

  /** The first `x` behind a different head is one place further on, and
      what precedes it gains that head. */
  lemma IndexOfCons<T>(y: T, ys: seq<T>, x: T)
    requires y != x && x in ys
    ensures x in [y] + ys
    ensures IndexOf([y] + ys, x) == IndexOf(ys, x) + 1
    ensures ([y] + ys)[..IndexOf(ys, x) + 1] == [y] + ys[..IndexOf(ys, x)]
  {
    IndexOfAppend([y], ys, x);
  }

  /** Nothing before `xs` leaves `xs`. */
  lemma EmptyAppend<T>(xs: seq<T>)
    ensures [] + xs == xs
  {
  }

  /** The first `n` elements of the suffix from `i` are the slice from `i`
      of length `n`. */
  lemma SliceOfSuffix<T>(s: seq<T>, i: nat, n: nat)
    requires i + n <= |s|
    ensures s[i..][..n] == s[i..i + n]
  {
  }

  lemma HeadTail<T>(xs: seq<T>)
    requires xs != []
    ensures [xs[0]] + xs[1..] == xs
  {
  }
}
