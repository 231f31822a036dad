/** The six face-neighbour shift vectors of `LBPFeature.feature_vector`, in the
    order that fixes which bit each neighbour sets. */
module Offsets {

  datatype Offset = Offset(dx: int, dy: int, dz: int)

  /** The values each axis ranges over, in the order the x, y and z columns list them. */
  const Steps: seq<int> := [-1, 1, 0]

  function Abs(v: int): nat
  {
    if v < 0 then -v else v
  }

  /** Sum of the absolute components (the row sum of `shift_vec.abs()`). */
  function Norm(d: Offset): nat
  {
    Abs(d.dx) + Abs(d.dy) + Abs(d.dz)
  }

  /** The rows (a, b, z) for z in zs. */
  function Line(a: int, b: int, zs: seq<int>): seq<Offset>
  {
    if zs == [] then [] else [Offset(a, b, zs[0])] + Line(a, b, zs[1..])
  }

  /** The rows (a, y, z) for y in ys and z in zs, z varying fastest. */
  function Pairs(a: int, ys: seq<int>, zs: seq<int>): seq<Offset>
  {
    if ys == [] then [] else Line(a, ys[0], zs) + Pairs(a, ys[1..], zs)
  }

  /** The cartesian product of three columns in the row order that merging them
      on a common index produces: x varies slowest, z fastest. */
  function Product(xs: seq<int>, ys: seq<int>, zs: seq<int>): seq<Offset>
  {
    if xs == [] then [] else Pairs(xs[0], ys, zs) + Product(xs[1..], ys, zs)
  }

  /** The rows whose absolute components sum to 1, in their original order. */
  function KeepUnit(s: seq<Offset>): seq<Offset>
  {
    if s == [] then []
    else if Norm(s[0]) == 1 then [s[0]] + KeepUnit(s[1..])
    else KeepUnit(s[1..])
  }

  /** The shift vectors in generation order; bit j of a code belongs to FaceOffsets[j]. */
  const FaceOffsets: seq<Offset> :=
    [Offset(-1, 0, 0), Offset(1, 0, 0), Offset(0, -1, 0), Offset(0, 1, 0), Offset(0, 0, -1), Offset(0, 0, 1)]

  /** There are six shift vectors, pairwise distinct, and they are exactly the
      integer vectors with absolute components summing to 1. */
  lemma FaceOffsetsAreFaceNeighbours()
    ensures |FaceOffsets| == 6
    ensures forall i, j | 0 <= i < j < 6 :: FaceOffsets[i] != FaceOffsets[j]
    ensures forall d: Offset :: d in FaceOffsets <==> Norm(d) == 1
  {
    forall d: Offset
      ensures d in FaceOffsets <==> Norm(d) == 1
    {
      if Norm(d) == 1 {
        if d.dx != 0 {
          assert d.dy == 0 && d.dz == 0;
          assert d == FaceOffsets[if d.dx == -1 then 0 else 1];
        } else if d.dy != 0 {
          assert d.dz == 0;
          assert d == FaceOffsets[if d.dy == -1 then 2 else 3];
        } else {
          assert d == FaceOffsets[if d.dz == -1 then 4 else 5];
        }
      }
    }
  }

  /** Filtering the 27 generated rows yields exactly FaceOffsets, in that order. */
  lemma GeneratedOrder()
    ensures KeepUnit(Product(Steps, Steps, Steps)) == FaceOffsets
  {
    GeneratedFrom(Steps);
  }

  /** The three columns as the frame holds them, stated element by element. */
  predicate IsSteps(s: seq<int>)
  {
    |s| == 3 && s[0] == -1 && s[1] == 1 && s[2] == 0
  }

  lemma GeneratedFrom(s: seq<int>)
    requires IsSteps(s)
    ensures KeepUnit(Product(s, s, s)) == FaceOffsets
  {
    KeepProduct(s, s, s);
    KeepBlockSide(-1, s);
    KeepBlockSide(1, s);
    KeepBlockZero(s);
  }

  /** Filtering distributes over concatenation: the order is kept. */
  lemma {:induction false} KeepUnitAppend(a: seq<Offset>, b: seq<Offset>)
    ensures KeepUnit(a + b) == KeepUnit(a) + KeepUnit(b)
  {
    if a != [] {
      assert (a + b)[1..] == a[1..] + b;
      KeepUnitAppend(a[1..], b);
    } else {
      assert a + b == b;
    }
  }

  /** What filtering keeps of a single row. */
  function Keep1(d: Offset): seq<Offset>
  {
    if Norm(d) == 1 then [d] else []
  }

  /** Three rows of which none is kept. */
  lemma KeepNone(d0: Offset, d1: Offset, d2: Offset)
    requires Norm(d0) != 1 && Norm(d1) != 1 && Norm(d2) != 1
    ensures Keep1(d0) + Keep1(d1) + Keep1(d2) == []
  {
  }

  /** Three rows of which only the last is kept. */
  lemma KeepLast(d0: Offset, d1: Offset, d2: Offset)
    requires Norm(d0) != 1 && Norm(d1) != 1 && Norm(d2) == 1
    ensures Keep1(d0) + Keep1(d1) + Keep1(d2) == [d2]
  {
  }

  /** Three rows of which the first two are kept. */
  lemma KeepFirstTwo(d0: Offset, d1: Offset, d2: Offset)
    requires Norm(d0) == 1 && Norm(d1) == 1 && Norm(d2) != 1
    ensures Keep1(d0) + Keep1(d1) + Keep1(d2) == [d0] + [d1]
  {
  }

  lemma KeepLine(a: int, b: int, zs: seq<int>)
    requires IsSteps(zs)
    ensures KeepUnit(Line(a, b, zs)) == Keep1(Offset(a, b, -1)) + Keep1(Offset(a, b, 1)) + Keep1(Offset(a, b, 0))
  {
    var z1, z2 := zs[1..], zs[1..][1..];
    assert Line(a, b, z2[1..]) == [];
    assert Line(a, b, z2) == [Offset(a, b, 0)];
    assert Line(a, b, z1) == [Offset(a, b, 1)] + [Offset(a, b, 0)];
    assert Line(a, b, zs) == [Offset(a, b, -1)] + ([Offset(a, b, 1)] + [Offset(a, b, 0)]);
    KeepUnitAppend([Offset(a, b, -1)], [Offset(a, b, 1)] + [Offset(a, b, 0)]);
    KeepUnitAppend([Offset(a, b, 1)], [Offset(a, b, 0)]);
    assert KeepUnit([Offset(a, b, -1)]) == Keep1(Offset(a, b, -1));
    assert KeepUnit([Offset(a, b, 1)]) == Keep1(Offset(a, b, 1));
    assert KeepUnit([Offset(a, b, 0)]) == Keep1(Offset(a, b, 0));
  }

  lemma KeepPairs(a: int, ys: seq<int>, zs: seq<int>)
    requires IsSteps(ys) && IsSteps(zs)
    ensures KeepUnit(Pairs(a, ys, zs)) ==
      KeepUnit(Line(a, -1, zs)) + KeepUnit(Line(a, 1, zs)) + KeepUnit(Line(a, 0, zs))
  {
    var y1, y2 := ys[1..], ys[1..][1..];
    assert Pairs(a, y2[1..], zs) == [];
    assert Pairs(a, y2, zs) == Line(a, 0, zs);
    assert Pairs(a, y1, zs) == Line(a, 1, zs) + Line(a, 0, zs);
    assert Pairs(a, ys, zs) == Line(a, -1, zs) + (Line(a, 1, zs) + Line(a, 0, zs));
    KeepUnitAppend(Line(a, -1, zs), Line(a, 1, zs) + Line(a, 0, zs));
    KeepUnitAppend(Line(a, 1, zs), Line(a, 0, zs));
  }

  lemma KeepProduct(xs: seq<int>, ys: seq<int>, zs: seq<int>)
    requires IsSteps(xs) && IsSteps(ys) && IsSteps(zs)
    ensures KeepUnit(Product(xs, ys, zs)) ==
      KeepUnit(Pairs(-1, ys, zs)) + KeepUnit(Pairs(1, ys, zs)) + KeepUnit(Pairs(0, ys, zs))
  {
    var x1, x2 := xs[1..], xs[1..][1..];
    assert Product(x2[1..], ys, zs) == [];
    assert Product(x2, ys, zs) == Pairs(0, ys, zs);
    assert Product(x1, ys, zs) == Pairs(1, ys, zs) + Pairs(0, ys, zs);
    assert Product(xs, ys, zs) == Pairs(-1, ys, zs) + (Pairs(1, ys, zs) + Pairs(0, ys, zs));
    KeepUnitAppend(Pairs(-1, ys, zs), Pairs(1, ys, zs) + Pairs(0, ys, zs));
    KeepUnitAppend(Pairs(1, ys, zs), Pairs(0, ys, zs));
  }

  /** The nine rows with x = ±1 keep only (x, 0, 0). */
  lemma KeepBlockSide(a: int, s: seq<int>)
    requires IsSteps(s) && (a == -1 || a == 1)
    ensures KeepUnit(Pairs(a, s, s)) == [Offset(a, 0, 0)]
  {
    KeepPairs(a, s, s);
    KeepLineCorner(a, -1, s);
    KeepLineCorner(a, 1, s);
    KeepLineEdge(a, s);
  }

  lemma KeepLineCorner(a: int, b: int, s: seq<int>)
    requires IsSteps(s) && (a == -1 || a == 1) && (b == -1 || b == 1)
    ensures KeepUnit(Line(a, b, s)) == []
  {
    KeepLine(a, b, s);
    KeepNone(Offset(a, b, -1), Offset(a, b, 1), Offset(a, b, 0));
  }

  lemma KeepLineEdge(a: int, s: seq<int>)
    requires IsSteps(s) && (a == -1 || a == 1)
    ensures KeepUnit(Line(a, 0, s)) == [Offset(a, 0, 0)]
  {
    KeepLine(a, 0, s);
    KeepLast(Offset(a, 0, -1), Offset(a, 0, 1), Offset(a, 0, 0));
  }

  /** The nine rows with x = 0 keep (0, ±1, 0) and (0, 0, ±1). */
  lemma KeepBlockZero(s: seq<int>)
    requires IsSteps(s)
    ensures KeepUnit(Pairs(0, s, s)) ==
      [Offset(0, -1, 0)] + [Offset(0, 1, 0)] + [Offset(0, 0, -1)] + [Offset(0, 0, 1)]
  {
    KeepPairs(0, s, s);
    KeepLineZero(-1, s);
    KeepLineZero(1, s);
    KeepLineCentre(s);
  }

  lemma KeepLineZero(b: int, s: seq<int>)
    requires IsSteps(s) && (b == -1 || b == 1)
    ensures KeepUnit(Line(0, b, s)) == [Offset(0, b, 0)]
  {
    KeepLine(0, b, s);
    KeepLast(Offset(0, b, -1), Offset(0, b, 1), Offset(0, b, 0));
  }

  lemma KeepLineCentre(s: seq<int>)
    requires IsSteps(s)
    ensures KeepUnit(Line(0, 0, s)) == [Offset(0, 0, -1)] + [Offset(0, 0, 1)]
  {
    KeepLine(0, 0, s);
    KeepFirstTwo(Offset(0, 0, -1), Offset(0, 0, 1), Offset(0, 0, 0));
  }
}
