/**
 * `create`: save the square, work out which polygons it intersects, record
 * their ids in the square's `polygons` field and save it again when there are
 * any. The square repository and the polygon service are stubs whose
 * behaviour (which calls fail, which polygons are listed) is part of their
 * state.
 */
module SquareService {
  import opened JavaLang
  import opened Coordinates
  import opened Intersection

  /** The square entity: an id assigned by the first save, its coordinate texts and the joined ids. */
  class Square {
    var id: Option<int>
    var xPoints: string
    var yPoints: string
    var polygons: string

    constructor (xPoints: string, yPoints: string, polygons: string)
      ensures id == None
      ensures this.xPoints == xPoints && this.yPoints == yPoints && this.polygons == polygons
    {
      id := None;
      this.xPoints := xPoints;
      this.yPoints := yPoints;
      this.polygons := polygons;
    }
  }

  /** The values of a square at the moment it was saved. */
  datatype SquareRow = SquareRow(id: int, xPoints: string, yPoints: string, polygons: string)

  /**
   * The square repository. `rows` records every state written, in order;
   * `faults` maps the number of a call of `Save` (counting from 0) to the
   * message of the data-access exception that call throws.
   */
  class SquareRepo {
    var rows: seq<SquareRow>
    var calls: nat
    var nextId: int
    const faults: map<nat, string>

    constructor (faults: map<nat, string>, firstId: int)
      ensures rows == [] && calls == 0 && nextId == firstId && this.faults == faults
    {
      rows := [];
      calls := 0;
      nextId := firstId;
      this.faults := faults;
    }

    /**
     * `save`: a square without an id is given the next one; the square's
     * current values are stored and the same square is returned. A call the
     * fault script names throws instead and stores nothing.
     */
    method Save(s: Square) returns (r: Result<Square, Exception>)
      modifies this, s`id
      ensures calls == old(calls) + 1
      ensures old(calls) in faults ==>
                r == Err(DataAccessException(faults[old(calls)]))
                && rows == old(rows) && nextId == old(nextId) && s.id == old(s.id)
      ensures old(calls) !in faults ==>
                r == Ok(s)
                && s.id == Some(AssignedId(old(s.id), old(nextId)))
                && nextId == (if old(s.id).None? then old(nextId) + 1 else old(nextId))
                && rows == old(rows) + [SquareRow(s.id.value, s.xPoints, s.yPoints, s.polygons)]
    {
      if calls in faults {
        r := Err(DataAccessException(faults[calls]));
      } else {
        if s.id.None? {
          s.id := Some(nextId);
          nextId := nextId + 1;
        }
        rows := rows + [SquareRow(s.id.value, s.xPoints, s.yPoints, s.polygons)];
        r := Ok(s);
      }
      calls := calls + 1;
    }
  }

  /** The id a successful save leaves on a square: its own, or the next free one. */
  function AssignedId(id: Option<int>, nextId: int): int
  {
    if id.Some? then id.value else nextId
  }

  /** The polygon service: the polygons it lists, or the message of the exception listing throws. */
  class PolygonService {
    var polygons: seq<Polygon>
    var failure: Option<string>

    constructor (polygons: seq<Polygon>, failure: Option<string>)
      ensures this.polygons == polygons && this.failure == failure
    {
      this.polygons := polygons;
      this.failure := failure;
    }

    /** `list`: every polygon, or the configured exception. */
    method List() returns (r: Result<seq<Polygon>, Exception>)
      ensures r.Ok? <==> failure.None?
      ensures r.Ok? ==> r.value == polygons
      ensures r.Err? ==> r.error == DataAccessException(failure.value)
    {
      if failure.Some? {
        return Err(DataAccessException(failure.value));
      }
      return Ok(polygons);
    }
  }

  // ---------------------------------------------------------------------------
  // What `create` does, as a function of the state it starts in

  const ErrorPrefix: string := "Error al guardar en el cuadrado: "

  /** Line 54: the exception `create` throws for a cause `e`. */
  function Wrapped(e: Exception): (w: Exception)
    ensures w.RuntimeException? && ErrorPrefix <= w.message
    ensures w.message[|ErrorPrefix|..] == Message(e)
  {
    RuntimeException(ErrorPrefix + Message(e))
  }

  /** Line 43: the ids printed in decimal and joined with commas. */
  function JoinIds(ids: seq<int>): string
  {
    JoinComma(IdStrings(ids))
  }

  /**
   * The effect of one `create`: the rows it stores, the final `polygons` field
   * of the square, how many times it calls `save`, and the exception it throws,
   * if any.
   */
  datatype Outcome = Outcome(saved: seq<SquareRow>, polygons: string, saveCalls: nat, error: Option<Exception>)

  /** Lines 40-41: the polygons are listed, then evaluated against the square. */
  function FoundIds(xPoints: string, yPoints: string, listing: Result<seq<Polygon>, Exception>)
    : Result<seq<int>, Exception>
  {
    match listing
    case Err(e) => Err(e)
    case Ok(ps) => IntersectedPolygons(xPoints, yPoints, ps)
  }

  /**
   * Lines 33-56, for a square whose first save gives it the id `id`, with the
   * repository's next call numbered `calls` and the polygon service answering
   * `listing`: what the `try` block does, with its exception wrapped.
   */
  function CreateOutcome(id: int, xPoints: string, yPoints: string, polygons: string,
                         faults: map<nat, string>, calls: nat,
                         listing: Result<seq<Polygon>, Exception>): Outcome
  {
    var o := Attempt(id, xPoints, yPoints, polygons, faults, calls, listing);
    if o.error.Some? then o.(error := Some(Wrapped(o.error.value))) else o
  }

  /** Lines 36-51, the `try` block: its effect and the exception that leaves it, if any. */
  function Attempt(id: int, xPoints: string, yPoints: string, polygons: string,
                   faults: map<nat, string>, calls: nat,
                   listing: Result<seq<Polygon>, Exception>): Outcome
  {
    if calls in faults then
      Outcome([], polygons, 1, Some(DataAccessException(faults[calls])))
    else
      var first := SquareRow(id, xPoints, yPoints, polygons);
      var rest := AfterFirstSave(first, faults, calls + 1, FoundIds(xPoints, yPoints, listing));
      Outcome([first] + rest.saved, rest.polygons, 1 + rest.saveCalls, rest.error)
  }

  /**
   * Lines 41-51, after the first save has stored `first`, with `next` the
   * number of the repository's next call: a failure to find the ids ends the
   * block; otherwise the field is emptied, or set to the joined ids and saved
   * again. Only the rows and calls after the first save are counted.
   */
  function AfterFirstSave(first: SquareRow, faults: map<nat, string>, next: nat,
                          found: Result<seq<int>, Exception>): Outcome
  {
    match found
    case Err(e) => Outcome([], first.polygons, 0, Some(e))
    case Ok(ids) =>
      if ids == [] then Outcome([], "", 0, None)
      else
        var joined := JoinIds(ids);
        if next in faults then Outcome([], joined, 1, Some(DataAccessException(faults[next])))
        else Outcome([first.(polygons := joined)], joined, 1, None)
  }

  /** The service, wired to its repository and the polygon service. */
  class SquareServiceImpl {
    const squareRepo: SquareRepo
    const polygonService: PolygonService

    constructor (squareRepo: SquareRepo, polygonService: PolygonService)
      ensures this.squareRepo == squareRepo && this.polygonService == polygonService
    {
      this.squareRepo := squareRepo;
      this.polygonService := polygonService;
    }

    /** What the polygon service's `list` answers. */
    ghost function Listing(): Result<seq<Polygon>, Exception>
      reads polygonService
    {
      if polygonService.failure.Some? then Err(DataAccessException(polygonService.failure.value))
      else Ok(polygonService.polygons)
    }

    /**
     * Lines 33-56: the `try` block, and the RuntimeException that replaces any
     * exception leaving it. The rows stored, the number of saves, the final
     * field and the exception are those of `CreateOutcome`.
     */
    method Create(s: Square) returns (r: Result<Square, Exception>)
      modifies squareRepo, s
      ensures var o := CreateOutcome(AssignedId(old(s.id), old(squareRepo.nextId)),
                                     old(s.xPoints), old(s.yPoints), old(s.polygons),
                                     squareRepo.faults, old(squareRepo.calls), Listing());
              && squareRepo.rows == old(squareRepo.rows) + o.saved
              && squareRepo.calls == old(squareRepo.calls) + o.saveCalls
              && s.polygons == o.polygons
              && (r.Ok? <==> o.error.None?)
              && (r.Ok? ==> r.value == s)
              && (r.Err? ==> r.error == o.error.value)
      ensures s.xPoints == old(s.xPoints) && s.yPoints == old(s.yPoints)
      ensures old(squareRepo.calls) in squareRepo.faults ==>
                s.id == old(s.id) && squareRepo.nextId == old(squareRepo.nextId)
      ensures old(squareRepo.calls) !in squareRepo.faults ==>
                s.id == Some(AssignedId(old(s.id), old(squareRepo.nextId)))
                && squareRepo.nextId == (if old(s.id).None? then old(squareRepo.nextId) + 1
                                         else old(squareRepo.nextId))
    {
      r := SaveWithIntersections(s);
      if r.Err? {
        r := Err(Wrapped(r.error));
      }
    }

    /**
     * Lines 36-51, the body of the `try` block: save, list, evaluate, then
     * save again with the joined ids or empty the field.
     */
    method SaveWithIntersections(s: Square) returns (r: Result<Square, Exception>)
      modifies squareRepo, s
      ensures old(squareRepo.calls) in squareRepo.faults ==>
                squareRepo.rows == old(squareRepo.rows)
                && squareRepo.calls == old(squareRepo.calls) + 1
                && s.polygons == old(s.polygons)
                && r == Err(DataAccessException(squareRepo.faults[old(squareRepo.calls)]))
      ensures old(squareRepo.calls) !in squareRepo.faults ==>
                var first := SquareRow(AssignedId(old(s.id), old(squareRepo.nextId)),
                                       old(s.xPoints), old(s.yPoints), old(s.polygons));
                var o := AfterFirstSave(first, squareRepo.faults, old(squareRepo.calls) + 1,
                                        FoundIds(first.xPoints, first.yPoints, Listing()));
                && squareRepo.rows == old(squareRepo.rows) + [first] + o.saved
                && squareRepo.calls == old(squareRepo.calls) + 1 + o.saveCalls
                && s.polygons == o.polygons
                && (r.Ok? <==> o.error.None?)
                && (r.Ok? ==> r.value == s)
                && (r.Err? ==> r.error == o.error.value)
      ensures s.xPoints == old(s.xPoints) && s.yPoints == old(s.yPoints)
      ensures old(squareRepo.calls) in squareRepo.faults ==>
                s.id == old(s.id) && squareRepo.nextId == old(squareRepo.nextId)
      ensures old(squareRepo.calls) !in squareRepo.faults ==>
                s.id == Some(AssignedId(old(s.id), old(squareRepo.nextId)))
                && squareRepo.nextId == (if old(s.id).None? then old(squareRepo.nextId) + 1
                                         else old(squareRepo.nextId))
    {
      var saved := squareRepo.Save(s);
      if saved.Err? {
        return Err(saved.error);
      }
      r := ListAndRecord(saved.value, SquareRow(s.id.value, s.xPoints, s.yPoints, s.polygons));
    }

    /**
     * Lines 40-51 for a square the repository has saved: list the polygons,
     * then record the ones the square intersects.
     */
    method ListAndRecord(savedSquare: Square, ghost first: SquareRow) returns (r: Result<Square, Exception>)
      requires savedSquare.id.Some?
      requires first == SquareRow(savedSquare.id.value, savedSquare.xPoints, savedSquare.yPoints, savedSquare.polygons)
      modifies squareRepo, savedSquare
      ensures var o := AfterFirstSave(first, squareRepo.faults, old(squareRepo.calls),
                                      FoundIds(first.xPoints, first.yPoints, Listing()));
              && squareRepo.rows == old(squareRepo.rows) + o.saved
              && squareRepo.calls == old(squareRepo.calls) + o.saveCalls
              && savedSquare.polygons == o.polygons
              && (r.Ok? <==> o.error.None?)
              && (r.Ok? ==> r.value == savedSquare)
              && (r.Err? ==> r.error == o.error.value)
      ensures savedSquare.id == old(savedSquare.id)
      ensures savedSquare.xPoints == old(savedSquare.xPoints) && savedSquare.yPoints == old(savedSquare.yPoints)
      ensures squareRepo.nextId == old(squareRepo.nextId)
    {
      var polygons := polygonService.List();
      if polygons.Err? {
        return Err(polygons.error);
      }
      r := RecordIntersections(savedSquare, polygons.value);
    }

    /**
     * Lines 41-51 for a square the repository has saved: evaluate the
     * polygons, then save the square again with the joined ids, or empty the
     * field and return it.
     */
    method RecordIntersections(savedSquare: Square, polygons: seq<Polygon>) returns (r: Result<Square, Exception>)
      requires savedSquare.id.Some?
      modifies squareRepo, savedSquare
      ensures var first := SquareRow(old(savedSquare.id.value), old(savedSquare.xPoints),
                                     old(savedSquare.yPoints), old(savedSquare.polygons));
              var o := AfterFirstSave(first, squareRepo.faults, old(squareRepo.calls),
                                      IntersectedPolygons(first.xPoints, first.yPoints, polygons));
              && squareRepo.rows == old(squareRepo.rows) + o.saved
              && squareRepo.calls == old(squareRepo.calls) + o.saveCalls
              && savedSquare.polygons == o.polygons
              && (r.Ok? <==> o.error.None?)
              && (r.Ok? ==> r.value == savedSquare)
              && (r.Err? ==> r.error == o.error.value)
      ensures savedSquare.id == old(savedSquare.id)
      ensures savedSquare.xPoints == old(savedSquare.xPoints) && savedSquare.yPoints == old(savedSquare.yPoints)
      ensures squareRepo.nextId == old(squareRepo.nextId)
    {
      // The coordinate texts are read once: nothing below changes them.
      var xPoints, yPoints := savedSquare.xPoints, savedSquare.yPoints;
      var intersectedPolygonIds := FindIntersectedPolygons(xPoints, yPoints, polygons);
      if intersectedPolygonIds.Err? {
        return Err(intersectedPolygonIds.error);
      }
      if intersectedPolygonIds.value != [] {
        savedSquare.polygons := JoinIds(intersectedPolygonIds.value);
        var resaved := squareRepo.Save(savedSquare);
        if resaved.Err? {
          return Err(resaved.error);
        }
        return Ok(resaved.value);
      } else {
        savedSquare.polygons := "";
        return Ok(savedSquare);
      }
    }
  }

  // ---------------------------------------------------------------------------
  // Properties of `create`

  /**
   * The square is saved twice exactly when neither save fails, the polygons
   * are listed and evaluated without an exception, and at least one of them
   * intersects; the second row differs from the first only in its `polygons`
   * field, which holds the joined ids.
   */
  lemma TwoSavesWhenIntersecting(id: int, xPoints: string, yPoints: string, polygons: string,
                                 faults: map<nat, string>, calls: nat,
                                 listing: Result<seq<Polygon>, Exception>)
    ensures var o := CreateOutcome(id, xPoints, yPoints, polygons, faults, calls, listing);
            && |o.saved| <= 2
            && (|o.saved| == 2 <==>
                  calls !in faults && calls + 1 !in faults && listing.Ok?
                  && IntersectedPolygons(xPoints, yPoints, listing.value).Ok?
                  && IntersectedPolygons(xPoints, yPoints, listing.value).value != [])
            && (|o.saved| == 2 ==>
                  o.saved[0] == SquareRow(id, xPoints, yPoints, polygons)
                  && o.saved[1] == SquareRow(id, xPoints, yPoints,
                                             JoinIds(IntersectedPolygons(xPoints, yPoints, listing.value).value)))
  {
  }

  /**
   * When no polygon intersects, the square is saved once, with the `polygons`
   * field it came with, and returned with that field emptied.
   */
  lemma OneSaveWhenNoneIntersect(id: int, xPoints: string, yPoints: string, polygons: string,
                                 faults: map<nat, string>, calls: nat, ps: seq<Polygon>)
    requires calls !in faults
    requires IntersectedPolygons(xPoints, yPoints, ps) == Ok([])
    ensures CreateOutcome(id, xPoints, yPoints, polygons, faults, calls, Ok(ps))
         == Outcome([SquareRow(id, xPoints, yPoints, polygons)], "", 1, None)
  {
  }

  /**
   * Every failure is reported as a RuntimeException whose message is the
   * prefix followed by the cause's message; a failure after the first save
   * leaves that save in the repository, so the stored row then keeps the
   * square's original `polygons` field.
   */
  lemma FailuresAreWrapped(id: int, xPoints: string, yPoints: string, polygons: string,
                           faults: map<nat, string>, calls: nat,
                           listing: Result<seq<Polygon>, Exception>)
    ensures var o := CreateOutcome(id, xPoints, yPoints, polygons, faults, calls, listing);
            o.error.Some? ==>
              && o.error.value.RuntimeException?
              && ErrorPrefix <= o.error.value.message
              && (calls in faults <==> o.saved == [])
              && (calls !in faults ==> o.saved == [SquareRow(id, xPoints, yPoints, polygons)])
    ensures var o := CreateOutcome(id, xPoints, yPoints, polygons, faults, calls, listing);
            calls in faults ==> o.error == Some(Wrapped(DataAccessException(faults[calls])))
  {
  }

  /**
   * A successful `create` leaves in the square's `polygons` field exactly the
   * ids of the listed polygons with a vertex inside the square: the field is
   * empty when there are none, and otherwise reads back, with the service's
   * own coordinate parsing, as those ids when they are valid non-negative ints.
   */
  lemma CreatedPolygonsField(id: int, xPoints: string, yPoints: string, polygons: string,
                             faults: map<nat, string>, calls: nat, ps: seq<Polygon>)
    requires CreateOutcome(id, xPoints, yPoints, polygons, faults, calls, Ok(ps)).error.None?
    ensures ParseCoordinates(xPoints).Ok? && ParseCoordinates(yPoints).Ok?
    ensures var o := CreateOutcome(id, xPoints, yPoints, polygons, faults, calls, Ok(ps));
            var ids := HitIds(ParseCoordinates(xPoints).value, ParseCoordinates(yPoints).value, ps);
            && (o.polygons == "" <==> ids == [])
            && ((forall k :: 0 <= k < |ids| ==> 0 <= ids[k] <= MaxInt) ==>
                  (ids == [] || ParseCoordinates(o.polygons) == Ok(ids)))
  {
    IntersectedPolygonsMeaning(xPoints, yPoints, ps, 0);
    var ids := IntersectedPolygons(xPoints, yPoints, ps).value;
    JoinIdsEmpty(ids);
    if ids != [] && forall k :: 0 <= k < |ids| ==> 0 <= ids[k] <= MaxInt {
      JoinIdsParse(ids);
    }
  }

  // ---------------------------------------------------------------------------
  // The joined ids

  /** The joined text is empty only for an empty id list. */
  lemma JoinIdsEmpty(ids: seq<int>)
    ensures JoinIds(ids) == "" <==> ids == []
  {
    if ids != [] {
      var toks := IdStrings(ids);
      assert toks[0] == IntToString(ids[0]) && |toks[0]| >= 1;
      if |toks| > 1 {
        assert JoinIds(ids) == toks[0] + "," + JoinComma(toks[1..]);
      }
    }
  }

  /**
   * Reading the joined ids back with the coordinate parsing gives the ids:
   * the text stored by line 43 is in the format the service reads.
   */
  lemma JoinIdsParse(ids: seq<int>)
    requires |ids| >= 1
    requires forall k :: 0 <= k < |ids| ==> 0 <= ids[k] <= MaxInt
    ensures ParseCoordinates(JoinIds(ids)) == Ok(ids)
  {
    ParseJoinedDecimals(ids);
  }
}
