/**
 * `isInside`: the even-odd ray-casting test of a point against the square's
 * closed outline, with the interpolation written the way the service writes
 * it (integer division before the multiplication, truncating toward zero).
 */
module RayCasting {
  import opened JavaLang

  /** The vertex joined to vertex `i`: the one before it, wrapping to the last for the first. */
  function Prev(i: nat, n: nat): (j: nat)
    requires i < n
    ensures j < n
  {
    if i == 0 then n - 1 else i - 1
  }

  /** Line 91: exactly one endpoint of the edge lies strictly below the ray's height. */
  predicate Straddles(yi: int, yj: int, ty: int)
  {
    (yi < ty && yj >= ty) || (yj < ty && yi >= ty)
  }

  /**
   * Lines 91-92: the edge from vertex (xi, yi) to vertex (xj, yj) toggles the
   * result. The division is reached only when the straddle test holds, and
   * then the two heights differ.
   */
  predicate Crosses(tx: int, ty: int, xi: int, yi: int, xj: int, yj: int)
  {
    Straddles(yi, yj, ty) && xi + JavaDiv(ty - yi, yj - yi) * (xj - xi) < tx
  }

  /** Edge `i` of the outline, which joins vertex `i` to vertex `Prev(i)`, is crossed. */
  predicate EdgeCrosses(tx: int, ty: int, xs: seq<int>, ys: seq<int>, i: nat)
    requires i < |xs| <= |ys|
  {
    var j := Prev(i, |xs|);
    Crosses(tx, ty, xs[i], ys[i], xs[j], ys[j])
  }

  /** How many of the edges 0 .. k-1 are crossed. */
  function CrossCount(tx: int, ty: int, xs: seq<int>, ys: seq<int>, k: nat): nat
    requires k <= |xs| <= |ys|
  {
    if k == 0 then 0
    else CrossCount(tx, ty, xs, ys, k - 1) + (if EdgeCrosses(tx, ty, xs, ys, k - 1) then 1 else 0)
  }

  /**
   * What `isInside` returns or throws. With fewer Y than X values the first
   * iteration already reads past the end of the Y array (index 0 when it is
   * empty, otherwise index n-1 through `j`); otherwise the point is inside when
   * an odd number of edges is crossed.
   */
  function InsideResult(tx: int, ty: int, xs: seq<int>, ys: seq<int>): Result<bool, Exception>
  {
    if 0 < |xs| && |ys| < |xs| then
      Err(ArrayIndexOutOfBoundsException(if |ys| == 0 then 0 else |xs| - 1, |ys|))
    else
      Ok(CrossCount(tx, ty, xs, ys, |xs|) % 2 == 1)
  }

  /**
   * Lines 86-98. The square's parsed vertices are read-only arrays; the
   * vertex count is the length of the X array, as at the only call site.
   */
  method IsInside(testX: int, testY: int, xPoints: seq<int>, yPoints: seq<int>)
    returns (r: Result<bool, Exception>)
    ensures r == InsideResult(testX, testY, xPoints, yPoints)
  {
    var numPoints := |xPoints|;
    var inside := false;
    var j := numPoints - 1;
    var i := 0;
    while i < numPoints
      invariant 0 <= i <= numPoints
      invariant i < numPoints ==> j == Prev(i, numPoints)
      invariant i > 0 ==> numPoints <= |yPoints|
      invariant i > 0 ==> inside == (CrossCount(testX, testY, xPoints, yPoints, i) % 2 == 1)
      invariant i == 0 ==> !inside
    {
      // yPoints[i] is read before yPoints[j] in every evaluation of the test.
      if i >= |yPoints| {
        return Err(ArrayIndexOutOfBoundsException(i, |yPoints|));
      }
      if j >= |yPoints| {
        return Err(ArrayIndexOutOfBoundsException(j, |yPoints|));
      }
      ghost var crossed := EdgeCrosses(testX, testY, xPoints, yPoints, i);
      if ((yPoints[i] < testY && yPoints[j] >= testY) || (yPoints[j] < testY && yPoints[i] >= testY)) &&
         (xPoints[i] + JavaDiv(testY - yPoints[i], yPoints[j] - yPoints[i]) * (xPoints[j] - xPoints[i]) < testX)
      {
        assert crossed;
        inside := !inside;
      } else {
        assert !crossed;
      }
      j := i;
      i := i + 1;
    }
    return Ok(inside);
  }

  // ---------------------------------------------------------------------------
  // The interpolation

  /**
   * Under the straddle test the divisor is never zero, and the truncated
   * quotient is 0 or 1: it is 1 only when vertex i is below the ray and
   * vertex j lies exactly on it.
   */
  lemma StraddleQuotient(ty: int, yi: int, yj: int)
    requires Straddles(yi, yj, ty)
    ensures yj - yi != 0
    ensures JavaDiv(ty - yi, yj - yi) == if yi < ty && ty == yj then 1 else 0
  {
    var a, b := ty - yi, yj - yi;
    var q := JavaDiv(a, b);
    if yi < ty {
      // 0 < a <= b
      if ty == yj {
        assert a == b;
        assert Abs(q) * b <= b < Abs(q) * b + b;
        assert Abs(q) == 1;
      } else {
        assert Abs(q) * b <= a < b;
        assert Abs(q) == 0;
      }
    } else {
      // b < a <= 0, so |a| < |b|
      assert Abs(q) * Abs(b) <= Abs(a) < Abs(b);
      assert Abs(q) == 0;
    }
  }

  /**
   * The X value compared with the test point is always one of the edge's two
   * endpoints' X values, never a point strictly between them.
   */
  lemma CrossesAtEndpoint(tx: int, ty: int, xi: int, yi: int, xj: int, yj: int)
    ensures Crosses(tx, ty, xi, yi, xj, yj)
        <==> Straddles(yi, yj, ty) && (if yi < ty && ty == yj then xj else xi) < tx
  {
    if Straddles(yi, yj, ty) {
      StraddleQuotient(ty, yi, yj);
    }
  }

  /**
   * Because of the division before the multiplication, the point (2, 4), which
   * lies strictly inside the diamond (5,0) (10,5) (5,10) (0,5), is reported
   * outside: both straddling edges are compared at their lower endpoint's X.
   */
  lemma DiamondInteriorReportedOutside()
    ensures InsideResult(2, 4, [5, 10, 5, 0], [0, 5, 10, 5]) == Ok(false)
  {
    var xs, ys := [5, 10, 5, 0], [0, 5, 10, 5];
    CrossesAtEndpoint(2, 4, xs[0], ys[0], xs[3], ys[3]);
    CrossesAtEndpoint(2, 4, xs[1], ys[1], xs[0], ys[0]);
    assert !EdgeCrosses(2, 4, xs, ys, 0) && !EdgeCrosses(2, 4, xs, ys, 1);
    assert !EdgeCrosses(2, 4, xs, ys, 2) && !EdgeCrosses(2, 4, xs, ys, 3);
    assert CrossCount(2, 4, xs, ys, 4) == 0;
  }

  // ---------------------------------------------------------------------------
  // The count

  /** The crossed edges among 0 .. k-1. */
  ghost function CrossedEdges(tx: int, ty: int, xs: seq<int>, ys: seq<int>, k: nat): set<nat>
    requires k <= |xs| <= |ys|
  {
    set i: nat | i < k && EdgeCrosses(tx, ty, xs, ys, i)
  }

  /** The count is the number of crossed edges: `isInside` is true exactly when that number is odd. */
  lemma {:induction false} CrossCountIsCardinality(tx: int, ty: int, xs: seq<int>, ys: seq<int>, k: nat)
    requires k <= |xs| <= |ys|
    ensures CrossCount(tx, ty, xs, ys, k) == |CrossedEdges(tx, ty, xs, ys, k)|
  {
    if k > 0 {
      CrossCountIsCardinality(tx, ty, xs, ys, k - 1);
      CrossedEdgesStep(tx, ty, xs, ys, k);
    }
  }

  lemma CrossedEdgesStep(tx: int, ty: int, xs: seq<int>, ys: seq<int>, k: nat)
    requires 0 < k <= |xs| <= |ys|
    ensures k - 1 !in CrossedEdges(tx, ty, xs, ys, k - 1)
    ensures CrossedEdges(tx, ty, xs, ys, k)
         == CrossedEdges(tx, ty, xs, ys, k - 1) + if EdgeCrosses(tx, ty, xs, ys, k - 1) then {k - 1} else {}
  {
    var before, now := CrossedEdges(tx, ty, xs, ys, k - 1), CrossedEdges(tx, ty, xs, ys, k);
    var added: set<nat> := if EdgeCrosses(tx, ty, xs, ys, k - 1) then {k - 1} else {};
    forall i: nat ensures i in now <==> i in before + added {
    }
  }

  /** The count over the first k edges reads only the first |xs| Y values. */
  lemma {:induction false} CrossCountPrefix(tx: int, ty: int, xs: seq<int>, ys: seq<int>, k: nat)
    requires k <= |xs| <= |ys|
    ensures CrossCount(tx, ty, xs, ys, k) == CrossCount(tx, ty, xs, ys[..|xs|], k)
  {
    if k > 0 {
      CrossCountPrefix(tx, ty, xs, ys, k - 1);
    }
  }

  /** Y values beyond the number of X values are ignored. */
  lemma ExtraYIgnored(tx: int, ty: int, xs: seq<int>, ys: seq<int>)
    requires |ys| >= |xs|
    ensures InsideResult(tx, ty, xs, ys) == InsideResult(tx, ty, xs, ys[..|xs|])
  {
    CrossCountPrefix(tx, ty, xs, ys, |xs|);
  }

  /**
   * For an axis-aligned square or rectangle listed as (x0,y0) (x1,y0) (x1,y1)
   * (x0,y1), the test is exact up to its boundary: a point is inside exactly
   * when x0 < tx <= x1 and y0 < ty <= y1 (bottom and left sides excluded, top
   * and right sides included).
   */
  lemma AxisAlignedBox(tx: int, ty: int, x0: int, y0: int, x1: int, y1: int)
    requires x0 <= x1 && y0 <= y1
    ensures InsideResult(tx, ty, [x0, x1, x1, x0], [y0, y0, y1, y1])
         == Ok(x0 < tx <= x1 && y0 < ty <= y1)
  {
    var xs, ys := [x0, x1, x1, x0], [y0, y0, y1, y1];
    // edges 0 and 2 are the vertical sides x = x0 and x = x1; edges 1 and 3 are horizontal
    CrossesAtEndpoint(tx, ty, xs[0], ys[0], xs[3], ys[3]);
    CrossesAtEndpoint(tx, ty, xs[1], ys[1], xs[0], ys[0]);
    CrossesAtEndpoint(tx, ty, xs[2], ys[2], xs[1], ys[1]);
    CrossesAtEndpoint(tx, ty, xs[3], ys[3], xs[2], ys[2]);
    var band := y0 < ty <= y1;
    assert EdgeCrosses(tx, ty, xs, ys, 0) == (band && x0 < tx);
    assert !EdgeCrosses(tx, ty, xs, ys, 1);
    assert EdgeCrosses(tx, ty, xs, ys, 2) == (band && x1 < tx);
    assert !EdgeCrosses(tx, ty, xs, ys, 3);
    assert CrossCount(tx, ty, xs, ys, 0) == 0;
    assert CrossCount(tx, ty, xs, ys, 1) == (if band && x0 < tx then 1 else 0);
    assert CrossCount(tx, ty, xs, ys, 2) == (if band && x0 < tx then 1 else 0);
    assert CrossCount(tx, ty, xs, ys, 3) == (if band && x0 < tx then 1 else 0) + (if band && x1 < tx then 1 else 0);
    assert CrossCount(tx, ty, xs, ys, 4)
        == (if band && x0 < tx then 1 else 0) + (if band && x1 < tx then 1 else 0);
  }
}
