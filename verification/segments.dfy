/** The segment codes and the two mask builders of the seven-segment glyph table.

    Layout of the seven segments:
         A
       F   B
         G
       E   C
         D
    Each segment is one bit of a mask. Masks are modelled as `bv8`, one bit wider
    than the seven segments, so that "no bit outside ALL" is a property to prove
    rather than a fact of the type. */
module Segments {

  const A: bv8 := 0x01
  const B: bv8 := 0x02
  const C: bv8 := 0x04
  const D: bv8 := 0x08
  const E: bv8 := 0x10
  const F: bv8 := 0x20
  const G: bv8 := 0x40

  /** The segments in the order the renderer walks them: A, B, C, D, E, F, G. */
  const Order: seq<bv8> := [A, B, C, D, E, F, G]

  /** `x` is one of the seven segment codes. */
  predicate IsSegment(x: bv8) {
    x in Order
  }

  /** Every element of `xs` is a segment code. */
  predicate AllSegments(xs: seq<bv8>) {
    forall i :: 0 <= i < |xs| ==> IsSegment(xs[i])
  }

  /** Every bit set in `x` is also set in `m`. */
  predicate Within(x: bv8, m: bv8) {
    x & !m == 0
  }

  /** Bit `i` of `m` is set, read off with a shift rather than a segment code. */
  predicate Bit(m: bv8, i: nat)
    requires i < 8
  {
    (m >> i) & 1 == 1
  }

  /** Python's `reduce(lambda x, y: x | y, args, acc)`: a left fold of `|`.
      The result is an upper bound of the accumulator and of every argument. */
  function FoldOr(acc: bv8, args: seq<bv8>): (r: bv8)
    ensures Within(acc, r)
    ensures forall i :: 0 <= i < |args| ==> Within(args[i], r)
    decreases |args|
  {
    if |args| == 0 then acc
    else
      var r := FoldOr(acc | args[0], args[1..]);
      assert forall i :: 1 <= i < |args| ==> args[i] == args[1..][i - 1];
      r
  }

  /** `on_segments(*args)`: the mask with every supplied segment switched on. */
  function OnSegments(args: seq<bv8>): (r: bv8)
    ensures forall i :: 0 <= i < |args| ==> Within(args[i], r)
  {
    FoldOr(0, args)
  }

  /** `ALL`: every one of the seven segments on. */
  const ALL: bv8 := OnSegments(Order)

  /** `off_segments(*args)`: every segment on except the supplied ones. */
  function OffSegments(args: seq<bv8>): (r: bv8)
    ensures Within(r, ALL)
    ensures forall i :: 0 <= i < |args| ==> args[i] & r == 0
  {
    ALL & !OnSegments(args)
  }

  /** ALL is the seven low bits. */
  lemma AllIsLowSevenBits()
    ensures ALL == 0x7F
  {
    SegmentWithinAll(A);
    SegmentWithinAll(B);
    SegmentWithinAll(C);
    SegmentWithinAll(D);
    SegmentWithinAll(E);
    SegmentWithinAll(F);
    SegmentWithinAll(G);
    OnSegmentsLeast(Order, 0x7F);
  }

  /** FoldOr is the LEAST upper bound: any mask covering the accumulator and
      every argument covers the result as well. */
  lemma {:induction false} FoldOrLeast(acc: bv8, args: seq<bv8>, m: bv8)
    requires Within(acc, m)
    requires forall i :: 0 <= i < |args| ==> Within(args[i], m)
    ensures Within(FoldOr(acc, args), m)
    decreases |args|
  {
    if |args| > 0 {
      assert Within(acc | args[0], m);
      FoldOrLeast(acc | args[0], args[1..], m);
    }
  }

  /** Together with the upper-bound half of its contract, OnSegments(args) is
      exactly the bitwise union of `args`. */
  lemma OnSegmentsLeast(args: seq<bv8>, m: bv8)
    requires forall i :: 0 <= i < |args| ==> Within(args[i], m)
    ensures Within(OnSegments(args), m)
  {
    FoldOrLeast(0, args, m);
  }

  /** A segment code has no bit outside ALL. */
  lemma SegmentWithinAll(x: bv8)
    requires IsSegment(x)
    ensures Within(x, ALL)
  {
    assert AllSegments(Order);
    FoldOrHas(x, 0, Order);
  }

  /** A mask built from segment codes never sets a bit outside ALL. */
  lemma OnSegmentsWithinAll(args: seq<bv8>)
    requires AllSegments(args)
    ensures Within(OnSegments(args), ALL)
  {
    forall i | 0 <= i < |args|
      ensures Within(args[i], ALL)
    {
      SegmentWithinAll(args[i]);
    }
    OnSegmentsLeast(args, ALL);
  }

  /** on_segments and off_segments of the same segments split ALL into two
      disjoint halves. */
  lemma OnOffPartition(args: seq<bv8>)
    requires AllSegments(args)
    ensures OnSegments(args) & OffSegments(args) == 0
    ensures OnSegments(args) | OffSegments(args) == ALL
  {
    OnSegmentsWithinAll(args);
  }

  /** Adding one segment code to a mask switches on exactly that segment. */
  lemma OrSegment(s: bv8, acc: bv8, a: bv8)
    requires IsSegment(s) && IsSegment(a)
    ensures Within(s, acc | a) <==> Within(s, acc) || s == a
  {
  }

  /** A segment is on in FoldOr(acc, args) iff it was on in `acc` or is named in `args`. */
  lemma {:induction false} FoldOrHas(s: bv8, acc: bv8, args: seq<bv8>)
    requires IsSegment(s) && AllSegments(args)
    ensures Within(s, FoldOr(acc, args)) <==> Within(s, acc) || s in args
    decreases |args|
  {
    if |args| > 0 {
      OrSegment(s, acc, args[0]);
      assert AllSegments(args[1..]);
      FoldOrHas(s, acc | args[0], args[1..]);
      assert args == [args[0]] + args[1..];
    }
  }

  /** on_segments switches on exactly the segments it is given. */
  lemma OnSegmentsHas(s: bv8, args: seq<bv8>)
    requires IsSegment(s) && AllSegments(args)
    ensures Within(s, OnSegments(args)) <==> s in args
  {
    FoldOrHas(s, 0, args);
  }

  /** off_segments switches on exactly the segments it is NOT given. */
  lemma OffSegmentsHas(s: bv8, args: seq<bv8>)
    requires IsSegment(s) && AllSegments(args)
    ensures Within(s, OffSegments(args)) <==> s !in args
  {
    OnSegmentsHas(s, args);
    SegmentWithinAll(s);
  }

  /** The i-th segment code is the single bit i: testing `Order[i] & m` is the
      same as reading bit i of `m`. */
  lemma SegmentTestIsBit(m: bv8, i: nat)
    requires i < 7
    ensures Order[i] & m != 0 <==> Bit(m, i)
  {
  }

  /** A mask with no bit outside ALL is determined by which of the seven
      segments it lights. */
  lemma SameSegments(m: bv8, v: bv8)
    requires Within(m, ALL) && Within(v, ALL)
    requires forall i :: 0 <= i < 7 ==> (Within(Order[i], m) <==> Within(Order[i], v))
    ensures m == v
  {
    AllIsLowSevenBits();
    assert Order[0] == A && Order[1] == B && Order[2] == C && Order[3] == D;
    assert Order[4] == E && Order[5] == F && Order[6] == G;
    assert Within(A, m) <==> Within(A, v);
    assert Within(B, m) <==> Within(B, v);
    assert Within(C, m) <==> Within(C, v);
    assert Within(D, m) <==> Within(D, v);
    assert Within(E, m) <==> Within(E, v);
    assert Within(F, m) <==> Within(F, v);
    assert Within(G, m) <==> Within(G, v);
  }
}
