/** Facts about sequences that the other modules use as single steps. */
module Seqs {
  import opened Wrappers

  /** The position of the first element of `xs` that passes `p`, if any. */
  function FirstWhere<T>(xs: seq<T>, p: T -> bool): (r: Option<nat>)
    ensures r.None? <==> forall k :: 0 <= k < |xs| ==> !p(xs[k])
    ensures r.Some? ==> r.value < |xs| && p(xs[r.value])
    ensures r.Some? ==> forall k :: 0 <= k < r.value ==> !p(xs[k])
  {
    if xs == [] then None
    else if p(xs[0]) then Some(0)
    else match FirstWhere(xs[1..], p)
      case None => None
      case Some(k) => Some(k + 1)
  }
  lemma AppendEmpty<T>(s: seq<T>)
    ensures s + [] == s && [] + s == s
  {
  }

  /** Splitting off the head of the left operand of `+`. */
  lemma ConsAppend<T>(xs: seq<T>, rest: seq<T>)
    requires xs != []
    ensures xs + rest == [xs[0]] + (xs[1..] + rest)
  {
    assert xs == [xs[0]] + xs[1..];
  }

  /** Appending the head, then the tail, appends the whole. */
  lemma AppendHead<T>(t: seq<T>, xs: seq<T>)
    requires xs != []
    ensures t + [xs[0]] + xs[1..] == t + xs
  {
    assert xs == [xs[0]] + xs[1..];
  }

  /** The slices around position `k + 1` of `s`, read from its tail. */
  lemma ConsSlices<T>(s: seq<T>, k: nat)
    requires k + 1 < |s|
    ensures s[..k + 1] == [s[0]] + s[1..][..k]
    ensures s[k + 2..] == s[1..][k + 1..]
  {
  }

  /** A prefix of a suffix is a slice. */
  lemma SliceOfSuffix<T>(s: seq<T>, a: nat, n: nat)
    requires a + n <= |s|
    ensures s[a..][..n] == s[a..a + n]
  {
  }

  lemma AppendAssoc<T>(a: seq<T>, b: seq<T>, c: seq<T>)
    ensures a + b + c == a + (b + c)
  {
  }

  /** A non-empty sequence is its front followed by its last element. */
  lemma SnocSplit<T>(xs: seq<T>)
    requires xs != []
    ensures xs == xs[..|xs| - 1] + [xs[|xs| - 1]]
  {
  }

  lemma SnocParts<T>(init: seq<T>, x: T)
    ensures (init + [x])[..|init|] == init && (init + [x])[|init|] == x
  {
  }

  /** The head and tail of a concatenation with a non-empty left side. */
  lemma ConsConcat<T>(xs: seq<T>, ys: seq<T>)
    requires xs != []
    ensures (xs + ys)[0] == xs[0] && (xs + ys)[1..] == xs[1..] + ys
  {
  }

  /** A non-empty slice ends in the element before its upper bound, and
      its front is the slice one shorter. */
  lemma SliceLast<T>(s: seq<T>, a: nat, b: nat)
    requires a < b <= |s|
    ensures s[a..b][b - a - 1] == s[b - 1] && s[a..b][..b - a - 1] == s[a..b - 1]
  {
  }

  /** The head and tail of `a + [x] + c`, whether or not `a` is empty. */
  lemma ConsMiddle<T>(a: seq<T>, x: T, c: seq<T>)
    ensures a == [] ==> (a + [x] + c)[0] == x && (a + [x] + c)[1..] == c
    ensures a != [] ==> (a + [x] + c)[0] == a[0] && (a + [x] + c)[1..] == a[1..] + [x] + c
  {
    if a != [] {
      assert a + [x] + c == [a[0]] + (a[1..] + [x] + c);
    }
  }
}
