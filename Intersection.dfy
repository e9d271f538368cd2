/**
 * `findIntersectedPolygons`: which of the known polygons have a vertex inside
 * the square, by the ray-casting test, in the order the polygons are listed.
 */
module Intersection {
  import opened JavaLang
  import opened Coordinates
  import opened RayCasting

  /** A polygon as the polygon service lists it: its id and its coordinate texts. */
  datatype Polygon = Polygon(id: int, xPoints: string, yPoints: string)

  /** Vertex `i` of the polygon exists in both arrays and tests inside the square. */
  predicate VertexInside(px: seq<int>, py: seq<int>, sx: seq<int>, sy: seq<int>, i: nat)
  {
    i < |px| && i < |py| && InsideResult(px[i], py[i], sx, sy) == Ok(true)
  }

  /** The square has fewer Y than X values, so every call of `isInside` throws. */
  predicate SquareMalformed(sx: seq<int>, sy: seq<int>)
  {
    0 < |sx| && |sy| < |sx|
  }

  /**
   * Lines 75-80 from vertex `i` on: `polyYPoints[i]` is read first (and may be
   * out of bounds), then `isInside` runs; the first vertex inside ends the scan.
   */
  function FirstHit(px: seq<int>, py: seq<int>, sx: seq<int>, sy: seq<int>, i: nat): Result<bool, Exception>
    decreases |px| - i
  {
    if i >= |px| then Ok(false)
    else if i >= |py| then Err(ArrayIndexOutOfBoundsException(i, |py|))
    else
      match InsideResult(px[i], py[i], sx, sy)
      case Err(e) => Err(e)
      case Ok(inside) => if inside then Ok(true) else FirstHit(px, py, sx, sy, i + 1)
  }

  /** Lines 69-80 for one polygon: parse its X text, then its Y text, then scan its vertices. */
  function PolygonHit(sx: seq<int>, sy: seq<int>, p: Polygon): Result<bool, Exception>
  {
    match ParseCoordinates(p.xPoints)
    case Err(e) => Err(e)
    case Ok(px) =>
      match ParseCoordinates(p.yPoints)
      case Err(e) => Err(e)
      case Ok(py) => FirstHit(px, py, sx, sy, 0)
  }

  /**
   * Lines 68-81, with `hit` evaluating one polygon: the polygons taken in
   * order, each hit appending its id; the first polygon that throws ends the
   * whole computation with its exception.
   */
  function Collect(ps: seq<Polygon>, hit: Polygon -> Result<bool, Exception>): (r: Result<seq<int>, Exception>)
    ensures r.Ok? ==> |r.value| <= |ps|
  {
    if ps == [] then Ok([])
    else
      var init, p := ps[..|ps| - 1], ps[|ps| - 1];
      match Collect(init, hit)
      case Err(e) => Err(e)
      case Ok(ids) =>
        match hit(p)
        case Err(e) => Err(e)
        case Ok(b) => Ok(ids + if b then [p.id] else [])
  }

  /** Lines 69-80 as the evaluation of one polygon against the square (sx, sy). */
  function HitOf(sx: seq<int>, sy: seq<int>): Polygon -> Result<bool, Exception>
  {
    p => PolygonHit(sx, sy, p)
  }

  /** Lines 59-84: parse the square's X and Y texts, then evaluate every polygon. */
  function IntersectedPolygons(squareX: string, squareY: string, ps: seq<Polygon>): Result<seq<int>, Exception>
  {
    match ParseCoordinates(squareX)
    case Err(e) => Err(e)
    case Ok(sx) =>
      match ParseCoordinates(squareY)
      case Err(e) => Err(e)
      case Ok(sy) => Collect(ps, HitOf(sx, sy))
  }

  /**
   * Lines 59-84, with the square given by its two coordinate texts: the
   * square is parsed once, then every polygon is evaluated in order and the id
   * of each polygon found to intersect is appended.
   */
  method FindIntersectedPolygons(squareX: string, squareY: string, polygons: seq<Polygon>)
    returns (r: Result<seq<int>, Exception>)
    ensures r == IntersectedPolygons(squareX, squareY, polygons)
  {
    var rx := ParseCoordinates(squareX);
    if rx.Err? { return Err(rx.error); }
    var ry := ParseCoordinates(squareY);
    if ry.Err? { return Err(ry.error); }
    var xPoints, yPoints := rx.value, ry.value;

    var intersectedPolygonIds: seq<int> := [];
    var k := 0;
    while k < |polygons|
      invariant 0 <= k <= |polygons|
      invariant Collect(polygons[..k], HitOf(xPoints, yPoints)) == Ok(intersectedPolygonIds)
    {
      var polygon := polygons[k];
      assert polygons[..k + 1][..k] == polygons[..k] && polygons[..k + 1][k] == polygon;
      var hit := PolygonIntersects(polygon, xPoints, yPoints);
      if hit.Err? {
        ErrorPersists(polygons, HitOf(xPoints, yPoints), k + 1, hit.error);
        return Err(hit.error);
      }
      ghost var before := intersectedPolygonIds;
      if hit.value {
        intersectedPolygonIds := intersectedPolygonIds + [polygon.id];
      }
      assert Collect(polygons[..k + 1], HitOf(xPoints, yPoints))
          == Ok(before + if hit.value then [polygon.id] else []);
      assert intersectedPolygonIds == before + if hit.value then [polygon.id] else [];
      k := k + 1;
    }
    assert polygons[..k] == polygons;
    return Ok(intersectedPolygonIds);
  }

  /**
   * Lines 69-80, the body of the polygon loop: parse the polygon's texts, then
   * test its vertices one by one and leave the loop at the first one inside.
   */
  method PolygonIntersects(polygon: Polygon, xPoints: seq<int>, yPoints: seq<int>)
    returns (r: Result<bool, Exception>)
    ensures r == PolygonHit(xPoints, yPoints, polygon)
  {
    var rpx := ParseCoordinates(polygon.xPoints);
    if rpx.Err? { return Err(rpx.error); }
    var rpy := ParseCoordinates(polygon.yPoints);
    if rpy.Err? { return Err(rpy.error); }
    var polyXPoints, polyYPoints := rpx.value, rpy.value;

    var found := false;
    var i := 0;
    while i < |polyXPoints|
      invariant 0 <= i <= |polyXPoints|
      invariant !found
      invariant FirstHit(polyXPoints, polyYPoints, xPoints, yPoints, 0)
             == FirstHit(polyXPoints, polyYPoints, xPoints, yPoints, i)
    {
      if i >= |polyYPoints| {
        return Err(ArrayIndexOutOfBoundsException(i, |polyYPoints|));
      }
      var inside := IsInside(polyXPoints[i], polyYPoints[i], xPoints, yPoints);
      if inside.Err? {
        return Err(inside.error);
      }
      if inside.value {
        found := true;
        break;
      }
      i := i + 1;
    }
    return Ok(found);
  }

  /**
   * The evaluation succeeds exactly when every polygon evaluates without an
   * exception; otherwise it fails with the exception of the first polygon that
   * throws.
   */
  lemma {:induction false} CollectErrors(ps: seq<Polygon>, hit: Polygon -> Result<bool, Exception>)
    ensures Collect(ps, hit).Ok? <==> forall k :: 0 <= k < |ps| ==> hit(ps[k]).Ok?
    ensures Collect(ps, hit).Err? ==>
              exists k :: 0 <= k < |ps| && hit(ps[k]) == Err(Collect(ps, hit).error)
                          && forall m :: 0 <= m < k ==> hit(ps[m]).Ok?
    decreases |ps|
  {
    if ps != [] {
      var init, p := ps[..|ps| - 1], ps[|ps| - 1];
      CollectErrors(init, hit);
      assert forall k :: 0 <= k < |init| ==> init[k] == ps[k];
      if Collect(init, hit).Err? {
        var k :| 0 <= k < |init| && hit(init[k]) == Err(Collect(init, hit).error)
                 && forall m :: 0 <= m < k ==> hit(init[m]).Ok?;
        assert hit(ps[k]) == Err(Collect(ps, hit).error);
      } else if hit(p).Err? {
        assert hit(ps[|init|]) == Err(Collect(ps, hit).error);
      }
    }
  }

  /** Once a prefix of the polygon list fails, the whole list fails with the same exception. */
  lemma ErrorPersists(ps: seq<Polygon>, hit: Polygon -> Result<bool, Exception>, k: nat, e: Exception)
    requires 0 < k <= |ps|
    requires Collect(ps[..k - 1], hit).Ok? && hit(ps[k - 1]) == Err(e)
    ensures Collect(ps, hit) == Err(e)
  {
    assert ps[..k][..k - 1] == ps[..k - 1] && ps[..k][k - 1] == ps[k - 1];
    assert Collect(ps[..k], hit) == Err(e);
    ErrorPersistsFrom(ps, hit, k, e);
  }

  lemma {:induction false} ErrorPersistsFrom(ps: seq<Polygon>, hit: Polygon -> Result<bool, Exception>, k: nat, e: Exception)
    requires k <= |ps|
    requires Collect(ps[..k], hit) == Err(e)
    ensures Collect(ps, hit) == Err(e)
    decreases |ps| - k
  {
    if k == |ps| {
      assert ps[..k] == ps;
    } else {
      assert ps[..k + 1][..k] == ps[..k];
      ErrorPersistsFrom(ps, hit, k + 1, e);
    }
  }

  // ---------------------------------------------------------------------------
  // What the vertex scan computes

  /**
   * The vertex scan from `i` on answers whether some vertex from `i` on is
   * inside, and throws exactly when the square has fewer Y than X values (and
   * there is a vertex left to test), or when the polygon has fewer Y than X
   * values and none of the vertices it can read is inside.
   */
  lemma {:induction false} FirstHitMeaning(px: seq<int>, py: seq<int>, sx: seq<int>, sy: seq<int>, i: nat)
    ensures FirstHit(px, py, sx, sy, i).Ok? ==>
              (FirstHit(px, py, sx, sy, i).value <==> exists k :: i <= k && VertexInside(px, py, sx, sy, k))
    ensures FirstHit(px, py, sx, sy, i).Err? <==>
              i < |px| && (SquareMalformed(sx, sy) ||
                           (|py| < |px| && forall k :: i <= k < |py| ==> !VertexInside(px, py, sx, sy, k)))
    decreases |px| - i
  {
    if i < |px| && i < |py| {
      var inside := InsideResult(px[i], py[i], sx, sy);
      if inside == Ok(false) {
        FirstHitMeaning(px, py, sx, sy, i + 1);
        assert !VertexInside(px, py, sx, sy, i);
        if FirstHit(px, py, sx, sy, i).Ok? && FirstHit(px, py, sx, sy, i).value {
          var k :| i + 1 <= k && VertexInside(px, py, sx, sy, k);
        }
        if exists k :: i <= k && VertexInside(px, py, sx, sy, k) {
          var k :| i <= k && VertexInside(px, py, sx, sy, k);
          assert k != i;
        }
      } else if inside == Ok(true) {
        assert VertexInside(px, py, sx, sy, i);
      }
    }
  }

  /** The vertex scan reads only as many Y values as there are X values. */
  lemma {:induction false} FirstHitIgnoresExtraY(px: seq<int>, py: seq<int>, sx: seq<int>, sy: seq<int>, i: nat)
    requires |py| >= |px|
    ensures FirstHit(px, py, sx, sy, i) == FirstHit(px, py[..|px|], sx, sy, i)
    decreases |px| - i
  {
    if i < |px| {
      FirstHitIgnoresExtraY(px, py, sx, sy, i + 1);
    }
  }

  // ---------------------------------------------------------------------------
  // The list of ids is a filter of the polygon list

  /** The polygon's texts parse and some vertex of it tests inside the square. */
  ghost predicate HasInsideVertex(sx: seq<int>, sy: seq<int>, p: Polygon)
  {
    var rx, ry := ParseCoordinates(p.xPoints), ParseCoordinates(p.yPoints);
    rx.Ok? && ry.Ok? && exists k :: VertexInside(rx.value, ry.value, sx, sy, k)
  }

  /** The ids of the polygons that satisfy `keep`, in list order. */
  ghost function FilterIds(ps: seq<Polygon>, keep: Polygon -> bool): seq<int>
  {
    if ps == [] then [] else (if keep(ps[0]) then [ps[0].id] else []) + FilterIds(ps[1..], keep)
  }

  /** The ids of the polygons with a vertex inside the square, in list order. */
  ghost function HitIds(sx: seq<int>, sy: seq<int>, ps: seq<Polygon>): seq<int>
  {
    FilterIds(ps, InsideTest(sx, sy))
  }

  ghost function InsideTest(sx: seq<int>, sy: seq<int>): Polygon -> bool
  {
    p => HasInsideVertex(sx, sy, p)
  }

  lemma {:induction false} FilterIdsAppend(ps: seq<Polygon>, p: Polygon, keep: Polygon -> bool)
    ensures FilterIds(ps + [p], keep) == FilterIds(ps, keep) + (if keep(p) then [p.id] else [])
    decreases |ps|
  {
    if ps == [] {
      assert ps + [p] == [p];
      assert [p][1..] == [];
    } else {
      var q, h, t := ps + [p], (if keep(ps[0]) then [ps[0].id] else []), (if keep(p) then [p.id] else []);
      assert q[0] == ps[0] && q[1..] == ps[1..] + [p];
      assert FilterIds(q, keep) == h + FilterIds(ps[1..] + [p], keep);
      FilterIdsAppend(ps[1..], p, keep);
      assert FilterIds(ps, keep) == h + FilterIds(ps[1..], keep);
      assert h + (FilterIds(ps[1..], keep) + t) == (h + FilterIds(ps[1..], keep)) + t;
    }
  }

  /** A polygon that evaluates without an exception is a hit exactly when it has a vertex inside. */
  lemma PolygonHitMeaning(sx: seq<int>, sy: seq<int>, p: Polygon)
    requires PolygonHit(sx, sy, p).Ok?
    ensures PolygonHit(sx, sy, p).value <==> HasInsideVertex(sx, sy, p)
  {
    var px, py := ParseCoordinates(p.xPoints).value, ParseCoordinates(p.yPoints).value;
    FirstHitMeaning(px, py, sx, sy, 0);
  }

  /**
   * When no polygon throws, the result is exactly the ids of the polygons that
   * have a vertex inside the square, in list order, each at most once.
   */
  lemma {:induction false} IntersectedIsFilter(sx: seq<int>, sy: seq<int>, ps: seq<Polygon>)
    requires Collect(ps, HitOf(sx, sy)).Ok?
    ensures Collect(ps, HitOf(sx, sy)).value == HitIds(sx, sy, ps)
    decreases |ps|
  {
    if ps != [] {
      var init, p := ps[..|ps| - 1], ps[|ps| - 1];
      CollectStep(init, p, HitOf(sx, sy));
      IntersectedIsFilter(sx, sy, init);
      PolygonHitMeaning(sx, sy, p);
      FilterIdsAppend(init, p, InsideTest(sx, sy));
      assert init + [p] == ps;
    }
  }

  /** One more polygon that evaluates without an exception appends its id when it is a hit. */
  lemma CollectStep(init: seq<Polygon>, p: Polygon, hit: Polygon -> Result<bool, Exception>)
    requires Collect(init + [p], hit).Ok?
    ensures Collect(init, hit).Ok? && hit(p).Ok?
    ensures Collect(init + [p], hit).value == Collect(init, hit).value + if hit(p).value then [p.id] else []
  {
    var ps := init + [p];
    assert ps[..|ps| - 1] == init && ps[|ps| - 1] == p;
  }

  /** Every id kept by the filter is the id of a listed polygon that satisfies `keep`, and conversely. */
  lemma {:induction false} FilterIdsMembers(ps: seq<Polygon>, keep: Polygon -> bool, x: int)
    ensures x in FilterIds(ps, keep) <==> exists k :: 0 <= k < |ps| && ps[k].id == x && keep(ps[k])
    ensures |FilterIds(ps, keep)| <= |ps|
    decreases |ps|
  {
    if ps != [] {
      FilterIdsMembers(ps[1..], keep, x);
      if exists k :: 0 <= k < |ps| && ps[k].id == x && keep(ps[k]) {
        var k :| 0 <= k < |ps| && ps[k].id == x && keep(ps[k]);
        if k > 0 {
          assert ps[1..][k - 1] == ps[k];
        }
      }
      if exists k :: 0 <= k < |ps[1..]| && ps[1..][k].id == x && keep(ps[1..][k]) {
        var k :| 0 <= k < |ps[1..]| && ps[1..][k].id == x && keep(ps[1..][k]);
        assert ps[k + 1] == ps[1..][k];
      }
    }
  }

  /**
   * Lines 59-84, summarised: a result is returned only when both square texts
   * parse, and it lists, in order and at most once each, exactly the ids of the
   * polygons having a vertex inside the square; an empty polygon list yields
   * an empty result.
   */
  lemma IntersectedPolygonsMeaning(squareX: string, squareY: string, ps: seq<Polygon>, x: int)
    requires IntersectedPolygons(squareX, squareY, ps).Ok?
    ensures ParseCoordinates(squareX).Ok? && ParseCoordinates(squareY).Ok?
    ensures var sx, sy := ParseCoordinates(squareX).value, ParseCoordinates(squareY).value;
            && IntersectedPolygons(squareX, squareY, ps).value == HitIds(sx, sy, ps)
            && |HitIds(sx, sy, ps)| <= |ps|
            && (x in HitIds(sx, sy, ps) <==>
                  exists k :: 0 <= k < |ps| && ps[k].id == x && HasInsideVertex(sx, sy, ps[k]))
    ensures ps == [] ==> IntersectedPolygons(squareX, squareY, ps).value == []
  {
    var sx, sy := ParseCoordinates(squareX).value, ParseCoordinates(squareY).value;
    IntersectedIsFilter(sx, sy, ps);
    FilterIdsMembers(ps, InsideTest(sx, sy), x);
  }
}
