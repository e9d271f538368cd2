# Square/polygon intersection service, modelled in Dafny

This project models the square service of a Spring application that stores squares and polygons. When a square is created, the service:

- saves it;
- lists all known polygons;
- decides, by an even-odd ray-casting test, which polygons have a vertex inside the square;
- records the ids of those polygons, comma-joined, in the square's `polygons` field, and saves the square a second time when there are any.

The model has five modules:

- `JavaLang`: the parts of the Java platform the service relies on. These are exceptions and their messages, `Integer.parseInt` on unsigned digit tokens, `String.split(",")` including its rule for dropping trailing empty tokens, `Collectors.joining(",")`, `Integer.toString`, and `/` truncating toward zero (`JavaDiv`).
- `Coordinates`: the stream pipeline that turns a coordinate text such as `"[1, 2, 3]"` into integers. It strips every character except digits and commas, splits on commas and parses each token. It is modelled as a pure function.
- `RayCasting`: `isInside`, an imperative method whose loop is proved against a recursive crossing count (`InsideResult`).
- `Intersection`: `findIntersectedPolygons`, with its nested loops and the `break` on the first vertex inside. It is proved against a recursive specification, which lemmas then show to be a filter of the polygon list.
- `SquareService`: `create`, with classes for the square entity, a scripted repository stub that records every saved state and fails on chosen calls, and a polygon-service stub.

Exceptions are values (`Result`). For texts, polygons and ids that are not `null`, every exception the code can raise or propagate is modelled:

- `NumberFormatException` from parsing;
- `ArrayIndexOutOfBoundsException` when a Y array is shorter than its X array;
- data-access failures of the collaborators;
- the wrapping `RuntimeException` thrown by `create`.

Two points about the code:

- The result of the evaluation is an ordered list, not a set. A polygon id appears once for each listed polygon that carries it and has a vertex inside.
- A horizontal edge never divides by zero. The straddle test short-circuits, so the division runs only on edges whose two Y values differ (`RayCasting.StraddleQuotient`). The model follows the code.

## Model

| member | source | states |
|---|---|---|
| JavaLang.ParseInt | src/main/java/com/cibertec/assessment/service/imp/SquareServiceImpl.java:63-64 | `Integer::parseInt` on a token succeeds exactly when the token is a non-empty digit string whose value is at most 2147483647, returning that value; otherwise NumberFormatException naming the token |
| JavaLang.JoinSplitAll | src/main/java/com/cibertec/assessment/service/imp/SquareServiceImpl.java:63 | `SplitAll`, the split at every comma that keeps trailing empty pieces, is undone by joining with commas: the text comes back (`split(",")` itself drops trailing empty pieces, see `JavaSplit`) |
| JavaLang.SplitAllJoin | src/main/java/com/cibertec/assessment/service/imp/SquareServiceImpl.java:63 | splitting comma-joined comma-free pieces gives the pieces back |
| JavaLang.JavaSplit | src/main/java/com/cibertec/assessment/service/imp/SquareServiceImpl.java:63 | `split(",")`: a text without a comma is its own only token; otherwise the tokens are the pieces between commas, in order, up to a last non-empty piece, and every piece after them is empty |
| JavaLang.JoinComma | src/main/java/com/cibertec/assessment/service/imp/SquareServiceImpl.java:43 | `Collectors.joining(",")`: the text begins with the first piece, followed by a comma when more pieces follow, and has at least one character per separator |
| JavaLang.NatToString | src/main/java/com/cibertec/assessment/service/imp/SquareServiceImpl.java:43 | the decimal spelling of a natural number: a non-empty string of digits without a leading zero, except for 0 itself |
| JavaLang.IntToString | src/main/java/com/cibertec/assessment/service/imp/SquareServiceImpl.java:43 | `Object::toString` of an id is a non-empty text, and for a non-negative id it is `NatToString`, the shortest decimal spelling |
| JavaLang.IdStrings | src/main/java/com/cibertec/assessment/service/imp/SquareServiceImpl.java:43 | `map(Object::toString)`: one text per id, in order, each the id's `toString` |
| JavaLang.Message | src/main/java/com/cibertec/assessment/service/imp/SquareServiceImpl.java:53-54 | `getMessage()`: a data-access or runtime exception gives its own message, an index exception's message begins with "Index " |
| JavaLang.NumberFormatMessage | src/main/java/com/cibertec/assessment/service/imp/SquareServiceImpl.java:63-64 | the message of the NumberFormatException from `parseInt` spells out the failing token, so different tokens give different messages |
| JavaLang.NatToStringValue | src/main/java/com/cibertec/assessment/service/imp/SquareServiceImpl.java:43 | the decimal text `toString` prints for a non-negative value reads back as that value |
| JavaLang.JavaDiv | src/main/java/com/cibertec/assessment/service/imp/SquareServiceImpl.java:92 | the `/` at line 92 truncates toward zero: the quotient's magnitude is the largest whose multiple of the divisor does not exceed the dividend, and its sign is the product of the operands' signs |
| Coordinates.ParseAllMeaning | src/main/java/com/cibertec/assessment/service/imp/SquareServiceImpl.java:63-64 | `ParseAll`, mapping `parseInt` over the tokens succeeds exactly when every token parses and gives each token's value; otherwise the first failing token's exception is raised |
| Coordinates.ParseCoordinates | src/main/java/com/cibertec/assessment/service/imp/SquareServiceImpl.java:63-72 | every parsed coordinate lies in 0..2147483647 (the minus sign is stripped); every failure is a NumberFormatException |
| Coordinates.ParseFailure | src/main/java/com/cibertec/assessment/service/imp/SquareServiceImpl.java:63-72 | after stripping, the tokens are digit strings; the parse fails exactly when some token is empty or exceeds 2147483647, and the exception names such a token |
| Coordinates.Strip | src/main/java/com/cibertec/assessment/service/imp/SquareServiceImpl.java:63 | `replaceAll("[^\\d,]", "")` leaves only digits and commas and never lengthens the text |
| Coordinates.StripKept | src/main/java/com/cibertec/assessment/service/imp/SquareServiceImpl.java:63 | a text made only of digits and commas is left unchanged |
| Coordinates.StripAppend | src/main/java/com/cibertec/assessment/service/imp/SquareServiceImpl.java:63 | removing the characters from two texts joined is joining the two stripped texts |
| Coordinates.StripIdempotent | src/main/java/com/cibertec/assessment/service/imp/SquareServiceImpl.java:63 | removing `[^\d,]` a second time changes nothing |
| Coordinates.StrayCharacterIgnored | src/main/java/com/cibertec/assessment/service/imp/SquareServiceImpl.java:63-72 | inserting any character other than a digit or a comma anywhere in a coordinate text leaves the parse unchanged |
| Coordinates.ParseOfStripped | src/main/java/com/cibertec/assessment/service/imp/SquareServiceImpl.java:63-72 | a text parses exactly as its stripped form does |
| Coordinates.BracketedListExample | src/main/java/com/cibertec/assessment/service/imp/SquareServiceImpl.java:63-72 | `"[1, 2, 3]"` and `"1,2,3"` both parse to [1, 2, 3] |
| Coordinates.BlankFails | src/main/java/com/cibertec/assessment/service/imp/SquareServiceImpl.java:63-64 | a text with no digit or comma is the single empty token and fails with NumberFormatException for "" |
| Coordinates.EmptyInnerTokenFails | src/main/java/com/cibertec/assessment/service/imp/SquareServiceImpl.java:63-64 | an empty token that is not trailing (a leading comma, or two adjacent commas, followed later by a digit) makes the parse fail |
| Coordinates.FailingExamples | src/main/java/com/cibertec/assessment/service/imp/SquareServiceImpl.java:63-64 | `""`, `"1,,3"` and `",1"` fail to parse |
| Coordinates.TrailingCommaIgnored | src/main/java/com/cibertec/assessment/service/imp/SquareServiceImpl.java:63-64 | a trailing comma is dropped by `split` and does not change the parse of a non-blank text |
| Coordinates.SingleNumber | src/main/java/com/cibertec/assessment/service/imp/SquareServiceImpl.java:63-64 | a single number parses to itself exactly when it is at most 2147483647, and otherwise raises NumberFormatException naming it |
| Coordinates.ParseJoinedDecimals | src/main/java/com/cibertec/assessment/service/imp/SquareServiceImpl.java:63-72 | a non-empty list of values in 0..2147483647, printed with `IdStrings` and comma-joined, parses back to the list |
| RayCasting.IsInside | src/main/java/com/cibertec/assessment/service/imp/SquareServiceImpl.java:86-98 | the loop's result is `InsideResult`: true exactly when an odd number of edges (i, i-1 wrapping to n-1) pass both the straddle and the interpolation test; ArrayIndexOutOfBoundsException when Y has fewer values than X |
| RayCasting.StraddleQuotient | src/main/java/com/cibertec/assessment/service/imp/SquareServiceImpl.java:91-92 | whenever the division runs, its divisor is non-zero, and the truncated quotient is 1 when y[i] < testY == y[j] and 0 otherwise |
| RayCasting.CrossesAtEndpoint | src/main/java/com/cibertec/assessment/service/imp/SquareServiceImpl.java:91-92 | an edge is crossed exactly when it straddles the ray and the X of one of its endpoints (x[j] when y[j] == testY > y[i], else x[i]) is below testX |
| RayCasting.DiamondInteriorReportedOutside | src/main/java/com/cibertec/assessment/service/imp/SquareServiceImpl.java:92 | because it divides before multiplying, the test reports the point (2,4) outside the diamond (5,0) (10,5) (5,10) (0,5), although the point lies strictly inside it |
| RayCasting.CrossCountIsCardinality | src/main/java/com/cibertec/assessment/service/imp/SquareServiceImpl.java:88-96 | the number of toggles is the number of crossed edges |
| RayCasting.ExtraYIgnored | src/main/java/com/cibertec/assessment/service/imp/SquareServiceImpl.java:89-91 | Y values beyond the number of X values do not affect the result |
| RayCasting.AxisAlignedBox | src/main/java/com/cibertec/assessment/service/imp/SquareServiceImpl.java:86-98 | for a rectangle listed as (x0,y0) (x1,y0) (x1,y1) (x0,y1), a point is inside exactly when x0 < x <= x1 and y0 < y <= y1 |
| Intersection.PolygonIntersects | src/main/java/com/cibertec/assessment/service/imp/SquareServiceImpl.java:69-80 | one polygon's texts are parsed, then its vertices are tested in order until the first one inside (`PolygonHit`) |
| Intersection.FindIntersectedPolygons | src/main/java/com/cibertec/assessment/service/imp/SquareServiceImpl.java:59-84 | the square is parsed, then every polygon is evaluated in order and the id of each hit is appended (`IntersectedPolygons`) |
| Intersection.CollectErrors | src/main/java/com/cibertec/assessment/service/imp/SquareServiceImpl.java:68-81 | the loop over the polygons succeeds exactly when no polygon's evaluation throws, and otherwise fails with the exception of the first one that throws |
| Intersection.ErrorPersists | src/main/java/com/cibertec/assessment/service/imp/SquareServiceImpl.java:68-81 | an exception from one polygon ends the whole loop with that exception, whatever follows it |
| Intersection.CollectStep | src/main/java/com/cibertec/assessment/service/imp/SquareServiceImpl.java:68-81 | one more polygon that evaluates without an exception appends its id exactly when it is a hit |
| Intersection.FirstHitMeaning | src/main/java/com/cibertec/assessment/service/imp/SquareServiceImpl.java:75-80 | the vertex scan answers whether some vertex is inside; it throws exactly when the square's Y array is short, or when the polygon's Y array is short and none of the vertices it can read is inside |
| Intersection.FirstHitIgnoresExtraY | src/main/java/com/cibertec/assessment/service/imp/SquareServiceImpl.java:75-76 | polygon Y values beyond the number of X values do not affect the scan |
| Intersection.PolygonHitMeaning | src/main/java/com/cibertec/assessment/service/imp/SquareServiceImpl.java:69-80 | a polygon that evaluates without an exception is a hit exactly when its texts parse and one of its vertices tests inside |
| Intersection.IntersectedIsFilter | src/main/java/com/cibertec/assessment/service/imp/SquareServiceImpl.java:68-81 | when nothing throws, the ids are exactly those of the polygons with a vertex inside, in list order, one per polygon |
| Intersection.FilterIdsMembers | src/main/java/com/cibertec/assessment/service/imp/SquareServiceImpl.java:68-81 | an id is in the result exactly when some listed polygon with that id is kept, and the result is no longer than the list |
| Intersection.IntersectedPolygonsMeaning | src/main/java/com/cibertec/assessment/service/imp/SquareServiceImpl.java:59-84 | a result means that both square texts parse, that every returned id belongs to a listed polygon with a vertex inside and each such polygon contributes its id once, and that an empty list gives an empty result |
| SquareService.SquareRepo.Save | src/main/java/com/cibertec/assessment/service/imp/SquareServiceImpl.java:36 | the repository stub: an id is assigned if absent, the square's values are appended to the stored rows, and the same square is returned; a scripted call throws and stores nothing |
| SquareService.PolygonService.List | src/main/java/com/cibertec/assessment/service/imp/SquareServiceImpl.java:40 | the polygon-service stub returns its polygons or its scripted exception |
| SquareService.Wrapped | src/main/java/com/cibertec/assessment/service/imp/SquareServiceImpl.java:52-54 | the rethrown exception is a RuntimeException whose message is "Error al guardar en el cuadrado: " followed by the cause's message |
| SquareService.SquareServiceImpl.Create | src/main/java/com/cibertec/assessment/service/imp/SquareServiceImpl.java:33-56 | the rows stored, the number of saves, the final `polygons` field, the id and the exception thrown are those of `CreateOutcome` for the state `create` starts in: the `try` block's outcome with any exception replaced by the prefixed RuntimeException |
| SquareService.SquareServiceImpl.SaveWithIntersections | src/main/java/com/cibertec/assessment/service/imp/SquareServiceImpl.java:36-51 | a failing first save throws its exception and stores nothing; otherwise the square gets its id, its values are stored, and the rest is what `AfterFirstSave` gives for the listed polygons |
| SquareService.SquareServiceImpl.ListAndRecord | src/main/java/com/cibertec/assessment/service/imp/SquareServiceImpl.java:40-51 | the polygons are listed and the rest of the block runs on them; a listing failure ends it with that exception and nothing more is stored |
| SquareService.SquareServiceImpl.RecordIntersections | src/main/java/com/cibertec/assessment/service/imp/SquareServiceImpl.java:41-51 | with the ids found, the field is emptied and the square returned without a save, or set to the joined ids and saved again; a failure to find them, or of the second save, is thrown |
| SquareService.TwoSavesWhenIntersecting | src/main/java/com/cibertec/assessment/service/imp/SquareServiceImpl.java:36-46 | there are at most two saves; there are two exactly when nothing fails and some polygon intersects, and the second stores the joined ids |
| SquareService.OneSaveWhenNoneIntersect | src/main/java/com/cibertec/assessment/service/imp/SquareServiceImpl.java:47-50 | with no intersecting polygon, the square is saved once with its original field and returned with `polygons == ""` |
| SquareService.FailuresAreWrapped | src/main/java/com/cibertec/assessment/service/imp/SquareServiceImpl.java:52-55 | every failure is the prefixed RuntimeException; a failure after the first save leaves that save stored |
| SquareService.CreatedPolygonsField | src/main/java/com/cibertec/assessment/service/imp/SquareServiceImpl.java:40-50 | after a successful create, `polygons` is empty exactly when no polygon has a vertex inside, and otherwise parses back to the intersecting ids when they are non-negative ints |
| SquareService.JoinIdsEmpty | src/main/java/com/cibertec/assessment/service/imp/SquareServiceImpl.java:42-43 | the joined id text (`JoinIds`) is empty exactly when the id list is |
| SquareService.JoinIdsParse | src/main/java/com/cibertec/assessment/service/imp/SquareServiceImpl.java:43 | the comma-joined ids, when they lie in 0..2147483647, parse back to the ids under the service's own coordinate parsing |

## Left out

- Spring wiring (`@Service`, `@Autowired`) and SLF4J logging (lines 20-30, 37, 44, 49, 53). They have no behaviour to state.
- `list`, `update` and `delete` (lines 100-113). Each is a one-line pass-through to the repository, whose source is not part of this model.
- The `SquareService` interface. It declares signatures only.
- The unused constant `INVALID_COORDINATES_FORMAT`.
- The `Square` and `Polygon` entities and the repositories are not part of this model. Only the fields the service reads or writes are modelled. The repository and the polygon service are stubs whose faults are scripted in their state.
- SquareService.SquareRepo.Save: returns the instance it was given. A JPA `merge` of an already-saved square may return a different managed copy, which holds the same values.
- `null` values. Coordinate texts, the polygons in the list and their ids are never `null` in the model, so the `NullPointerException`s at lines 63, 65, 69 and 71 (`replaceAll` on a missing text), at line 69 (a missing polygon) and at line 43 (`map(Object::toString)` on a missing id) are not modelled.
- RayCasting.IsInside: takes the vertex count as the length of the X array rather than as a separate parameter. Its only call site passes `xPoints.length`.
- The coordinate arrays (`int[]`) are never written after `toArray()`, so they are modelled as sequences.
- 32-bit overflow in the interpolation at line 92. The parsed values lie in 0..2147483647, so the differences fit in an `int`, and the quotient is 0 or 1 (`RayCasting.StraddleQuotient`). The compared value is therefore one of the two endpoint X values. The 32-bit bound is modelled only where `parseInt` rejects values above 2147483647.
- `parseInt` on signed tokens. The stripping removes `+` and `-` before parsing, so no token can carry a sign.
- Regular-expression and Unicode details. `[^\d,]` is taken to keep exactly ASCII `0`-`9` and `,`.
- The text of `ArrayIndexOutOfBoundsException.getMessage()` varies with the JDK version. The model uses the form "Index i out of bounds for length n".
- Intersection.PolygonIntersects: the body of the polygon loop is a method of its own, where Java inlines it in `findIntersectedPolygons`.
- SquareService.SquareServiceImpl.SaveWithIntersections: the `try` block of `create` is split into three nested methods (`SaveWithIntersections`, `ListAndRecord` and `RecordIntersections`, one per step after the previous save or listing), where Java has it inline in one method.
