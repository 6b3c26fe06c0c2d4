/**
 * Boolean-mask row selection, as a data frame does it for `frame[mask]`:
 * the mask has one entry per row, and the rows whose entry is true are kept,
 * in their original order.
 */
module Masking {

  /** The rows of `xs` whose mask entry is true, in order. */
  function Select<T>(xs: seq<T>, mask: seq<bool>): (r: seq<T>)
    requires |mask| == |xs|
    ensures |r| <= |xs|
    ensures forall x :: x in r ==> x in xs
    ensures (forall i :: 0 <= i < |mask| ==> mask[i]) ==> r == xs
    ensures (forall i :: 0 <= i < |mask| ==> !mask[i]) ==> r == []
  {
    if xs == [] then []
    else (if mask[0] then [xs[0]] else []) + Select(xs[1..], mask[1..])
  }

  /**
   * The indices of the true entries of `mask`, in increasing order.  This is
   * the reference description of what a selection keeps; it is built from
   * the back of the mask, independently of Select.
   */
  function Positions(mask: seq<bool>): (p: seq<nat>)
    ensures forall k :: 0 <= k < |p| ==> p[k] < |mask| && mask[p[k]]
    ensures forall j, k :: 0 <= j < k < |p| ==> p[j] < p[k]
    ensures forall i :: 0 <= i < |mask| && mask[i] ==> i in p
    decreases |mask|
  {
    if mask == [] then []
    else
      var n := |mask| - 1;
      Positions(mask[..n]) + (if mask[n] then [n] else [])
  }

  /** Entry-wise conjunction of two masks of the same length. */
  function And(m1: seq<bool>, m2: seq<bool>): (m: seq<bool>)
    requires |m1| == |m2|
  {
    seq(|m1|, i requires 0 <= i < |m1| => m1[i] && m2[i])
  }

  /** Selecting from a concatenation selects from each part. */
  lemma {:induction false} SelectAppend<T>(a: seq<T>, b: seq<T>, ma: seq<bool>, mb: seq<bool>)
    requires |ma| == |a| && |mb| == |b|
    ensures Select(a + b, ma + mb) == Select(a, ma) + Select(b, mb)
  {
    if a == [] {
      assert a + b == b && ma + mb == mb;
    } else {
      assert (a + b)[1..] == a[1..] + b;
      assert (ma + mb)[1..] == ma[1..] + mb;
      SelectAppend(a[1..], b, ma[1..], mb);
    }
  }

  /**
   * The selection is exactly the rows at the mask's true positions, in
   * increasing position order: a subsequence of `xs`, nothing reordered,
   * nothing repeated, nothing true left out.
   */
  lemma {:induction false} SelectAt<T>(xs: seq<T>, mask: seq<bool>)
    requires |mask| == |xs|
    ensures |Select(xs, mask)| == |Positions(mask)|
    ensures forall k :: 0 <= k < |Positions(mask)| ==> Select(xs, mask)[k] == xs[Positions(mask)[k]]
    decreases |xs|
  {
    if xs != [] {
      var n := |xs| - 1;
      assert xs == xs[..n] + [xs[n]];
      assert mask == mask[..n] + [mask[n]];
      SelectAppend(xs[..n], [xs[n]], mask[..n], [mask[n]]);
      SelectAt(xs[..n], mask[..n]);
      assert Select([xs[n]], [mask[n]]) == if mask[n] then [xs[n]] else [];
    }
  }

  /** Two selections by the same mask have the same length. */
  lemma {:induction false} SelectLength<T, U>(xs: seq<T>, ys: seq<U>, mask: seq<bool>)
    requires |mask| == |xs| && |mask| == |ys|
    ensures |Select(xs, mask)| == |Select(ys, mask)|
  {
    if xs != [] {
      SelectLength(xs[1..], ys[1..], mask[1..]);
    }
  }

  /** Selecting again, with a mask that was itself selected alongside, selects by the conjunction. */
  lemma {:induction false} SelectSelect<T>(xs: seq<T>, m1: seq<bool>, m2: seq<bool>)
    requires |m1| == |xs| && |m2| == |xs|
    ensures |Select(m2, m1)| == |Select(xs, m1)|
    ensures Select(Select(xs, m1), Select(m2, m1)) == Select(xs, And(m1, m2))
  {
    SelectLength(m2, xs, m1);
    if xs != [] {
      SelectSelect(xs[1..], m1[1..], m2[1..]);
      assert And(m1, m2)[1..] == And(m1[1..], m2[1..]);
      var a, b := Select(xs[1..], m1[1..]), Select(m2[1..], m1[1..]);
      if m1[0] {
        assert Select(xs, m1) == [xs[0]] + a;
        assert Select(m2, m1) == [m2[0]] + b;
        assert ([xs[0]] + a)[1..] == a;
        assert ([m2[0]] + b)[1..] == b;
      } else {
        assert Select(xs, m1) == a;
        assert Select(m2, m1) == b;
      }
    }
  }
}
