/**
 * Scoring one answer (`Question`) and a round of questions
 * (`QuestionSet`) in the second generation of the game.
 */
module Questions {
  import opened Base
  import opened Features
  import GeoData
  import Sampling

  const MAX_SCORE: int := 120
  /** Score for an answer at distance 0. */
  const MAX_PROXIMITY_SCORE: int := 100
  /** Bonus when the answered country borders the asked one. */
  const ADJACENCY_BONUS: int := 5
  /** Bonus when the answered country is the asked one. */
  const ACCURACY_BONUS: int := 20
  /** Quadratic score at distance pi/2, as a fraction of the maximum. */
  const QUADRATIC_PROXIMITY_SCALE_FACTOR: real := 1.0 / 20.0
  /** Exponential score at distance pi, as a fraction of the maximum. */
  const EXPONENTIAL_PROXIMITY_SCALE_FACTOR: real := 0.1
  const DEFAULT_NUM_QUESTIONS: int := 10

  /** What `getScore` reports. */
  datatype Score = Score(accuracy: int, proximity: int, adjacency: int, total: int)

  /** The `{point, distance}` object the closest-point search returns;
      `point` is `null` when no vertex is nearer than 2 pi. */
  datatype Closest = Closest(point: Option<LonLat>, distance: real)

  /** The outcome of a search that has seen no vertex yet. */
  const NOTHING_CLOSER: Closest := Closest(None, 2.0 * PI)

  /** `getClosestPointInPolygon`: the first vertex of the ring with the
      least distance to `point`; a vertex replaces the current best only
      when it is strictly nearer. */
  function ClosestPointInPolygon(geo: Geodesy, point: LonLat, ring: Ring): (r: Closest)
    ensures r.distance <= 2.0 * PI
    ensures r.point.None? ==> r == NOTHING_CLOSER
    ensures r.point.Some? ==> r.distance < 2.0 * PI
    decreases |ring|
  {
    if |ring| == 0 then NOTHING_CLOSER
    else
      var best := ClosestPointInPolygon(geo, point, ring[..|ring| - 1]);
      var last := ring[|ring| - 1];
      var d := geo.distance(point, last);
      if d < best.distance then Closest(Some(last), d) else best
  }

  /** The ring search returns a lower bound of the distance to every
      vertex, attained by the first vertex that reaches it; it finds
      nothing exactly when no vertex is nearer than 2 pi. */
  lemma {:induction false} ClosestInRing(geo: Geodesy, point: LonLat, ring: Ring)
    ensures var r := ClosestPointInPolygon(geo, point, ring);
            forall i :: 0 <= i < |ring| ==> r.distance <= geo.distance(point, ring[i])
    ensures var r := ClosestPointInPolygon(geo, point, ring);
            r.point.None? <==> forall i :: 0 <= i < |ring| ==> geo.distance(point, ring[i]) >= 2.0 * PI
    ensures var r := ClosestPointInPolygon(geo, point, ring);
            r.point.Some? ==> exists i :: 0 <= i < |ring| && ring[i] == r.point.value &&
                                          geo.distance(point, ring[i]) == r.distance &&
                                          (forall j :: 0 <= j < i ==> geo.distance(point, ring[j]) > r.distance)
    decreases |ring|
  {
    if |ring| > 0 {
      var n := |ring| - 1;
      var init := ring[..n];
      ClosestInRing(geo, point, init);
      assert forall i :: 0 <= i < n ==> init[i] == ring[i];
      var best := ClosestPointInPolygon(geo, point, init);
      var r := ClosestPointInPolygon(geo, point, ring);
      if geo.distance(point, ring[n]) < best.distance {
        assert ring[n] == r.point.value;
      } else if r.point.Some? {
        var i :| 0 <= i < |init| && init[i] == r.point.value &&
                 geo.distance(point, init[i]) == r.distance &&
                 (forall j :: 0 <= j < i ==> geo.distance(point, init[j]) > r.distance);
        assert ring[i] == r.point.value;
      }
    }
  }

  /** A geometry the closest-point search can handle without throwing:
      a polygon, or a multipolygon each of whose parts has an outer ring. */
  predicate Searchable(g: Geometry) {
    match g
    case Polygon(rings) => |rings| > 0
    case MultiPolygon(parts) => forall k :: 0 <= k < |parts| ==> |parts[k]| > 0
    case OtherGeometry(_) => false
  }

  /** One step of the search over parts: a part's result replaces the
      best so far only when it is strictly nearer. */
  function Nearer(best: Closest, c: Closest): (r: Closest)
    ensures r.distance <= best.distance && r.distance <= c.distance
    ensures r.distance < best.distance ==> r == c
    ensures r.distance == best.distance ==> r == best
  {
    if c.distance < best.distance then c else best
  }

  /** `d` is at most the search result of every part's outer ring. */
  predicate BelowParts(geo: Geodesy, point: LonLat, parts: seq<seq<Ring>>, d: real)
    requires forall k :: 0 <= k < |parts| ==> |parts[k]| > 0
  {
    forall k :: 0 <= k < |parts| ==> d <= ClosestPointInPolygon(geo, point, parts[k][0]).distance
  }

  /** Some part's outer ring yields `c`, and every earlier part's is
      strictly farther. */
  predicate FirstAttaining(geo: Geodesy, point: LonLat, parts: seq<seq<Ring>>, c: Closest)
    requires forall k :: 0 <= k < |parts| ==> |parts[k]| > 0
  {
    exists k :: 0 <= k < |parts| && ClosestPointInPolygon(geo, point, parts[k][0]) == c &&
                (forall j :: 0 <= j < k ==> ClosestPointInPolygon(geo, point, parts[j][0]).distance > c.distance)
  }

  /** The `forEach` over the parts of a multipolygon: the part whose outer
      ring comes nearest, the earliest part winning ties. Reading
      `polygon[0]` of a part without rings and iterating it throws. */
  function ClosestPart(geo: Geodesy, point: LonLat, parts: seq<seq<Ring>>): (r: Result<Closest>)
    ensures r.Ok? <==> forall k :: 0 <= k < |parts| ==> |parts[k]| > 0
    ensures r.Ok? ==> r.value.distance <= 2.0 * PI
    ensures r.Ok? && r.value.point.None? ==> r.value == NOTHING_CLOSER
    decreases |parts|
  {
    if |parts| == 0 then Ok(NOTHING_CLOSER)
    else
      var n := |parts| - 1;
      var best :- ClosestPart(geo, point, parts[..n]);
      if |parts[n]| == 0 then Throw("TypeError: polygon is undefined")
      else Ok(Nearer(best, ClosestPointInPolygon(geo, point, parts[n][0])))
  }

  /** The search over parts finds a lower bound of every part's nearest
      outer-ring vertex. */
  lemma {:induction false} ClosestPartIsLowerBound(geo: Geodesy, point: LonLat, parts: seq<seq<Ring>>)
    requires ClosestPart(geo, point, parts).Ok?
    ensures forall k :: 0 <= k < |parts| ==> |parts[k]| > 0
    ensures BelowParts(geo, point, parts, ClosestPart(geo, point, parts).value.distance)
    decreases |parts|
  {
    if |parts| > 0 {
      var n := |parts| - 1;
      var init := parts[..n];
      ClosestPartIsLowerBound(geo, point, init);
      var r := ClosestPart(geo, point, parts).value;
      forall k | 0 <= k < |parts| ensures r.distance <= ClosestPointInPolygon(geo, point, parts[k][0]).distance {
        if k < n {
          assert parts[k] == init[k];
        }
      }
    }
  }

  /** The search over parts ends on the first part that attains its
      result. */
  lemma {:induction false} ClosestPartIsFirst(geo: Geodesy, point: LonLat, parts: seq<seq<Ring>>)
    requires ClosestPart(geo, point, parts).Ok?
    requires ClosestPart(geo, point, parts).value.point.Some?
    ensures forall k :: 0 <= k < |parts| ==> |parts[k]| > 0
    ensures FirstAttaining(geo, point, parts, ClosestPart(geo, point, parts).value)
    decreases |parts|
  {
    var n := |parts| - 1;
    var init := parts[..n];
    var best := ClosestPart(geo, point, init).value;
    var c := ClosestPointInPolygon(geo, point, parts[n][0]);
    var r := ClosestPart(geo, point, parts).value;
    if c.distance < best.distance {
      ClosestPartIsLowerBound(geo, point, init);
      forall j | 0 <= j < n ensures ClosestPointInPolygon(geo, point, parts[j][0]).distance > r.distance {
        assert parts[j] == init[j];
      }
      assert ClosestPointInPolygon(geo, point, parts[n][0]) == r;
    } else {
      ClosestPartIsFirst(geo, point, init);
      var k :| 0 <= k < |init| && ClosestPointInPolygon(geo, point, init[k][0]) == best &&
               (forall j :: 0 <= j < k ==> ClosestPointInPolygon(geo, point, init[j][0]).distance > best.distance);
      assert parts[k] == init[k];
      forall j | 0 <= j < k ensures ClosestPointInPolygon(geo, point, parts[j][0]).distance > r.distance {
        assert parts[j] == init[j];
      }
    }
  }

  /** `getClosestPointInCountry`: the nearest outer-ring vertex of a
      polygon or multipolygon; inner rings are never looked at, and any
      other geometry type throws. */
  function ClosestPointInCountry(geo: Geodesy, point: LonLat, g: Geometry): (r: Result<Closest>)
    ensures r.Ok? <==> Searchable(g)
    ensures g.OtherGeometry? ==> r == Throw("unknown geomtery type")
    ensures r.Ok? ==> r.value.distance <= 2.0 * PI
    ensures r.Ok? && r.value.point.None? ==> r.value == NOTHING_CLOSER
  {
    match g
    case Polygon(rings) =>
      if |rings| == 0 then Throw("TypeError: polygon is undefined")
      else Ok(ClosestPointInPolygon(geo, point, rings[0]))
    case MultiPolygon(parts) => ClosestPart(geo, point, parts)
    case OtherGeometry(_) => Throw("unknown geomtery type")
  }

  /** The distance found is at most the distance to every outer-ring
      vertex of every part. */
  lemma ClosestIsLowerBound(geo: Geodesy, point: LonLat, g: Geometry)
    requires ClosestPointInCountry(geo, point, g).Ok?
    ensures var d := ClosestPointInCountry(geo, point, g).value.distance;
            match g
            case Polygon(rings) => forall i :: 0 <= i < |rings[0]| ==> d <= geo.distance(point, rings[0][i])
            case MultiPolygon(parts) =>
              forall k, i :: 0 <= k < |parts| && 0 <= i < |parts[k][0]| ==> d <= geo.distance(point, parts[k][0][i])
            case OtherGeometry(_) => false
  {
    match g
    case Polygon(rings) => ClosestInRing(geo, point, rings[0]);
    case MultiPolygon(parts) =>
      var d := ClosestPointInCountry(geo, point, g).value.distance;
      ClosestPartIsLowerBound(geo, point, parts);
      forall k, i | 0 <= k < |parts| && 0 <= i < |parts[k][0]| ensures d <= geo.distance(point, parts[k][0][i]) {
        ClosestInRing(geo, point, parts[k][0]);
        assert d <= ClosestPointInPolygon(geo, point, parts[k][0]).distance;
      }
  }

  /** Only the outer ring counts: a multipolygon of one part is searched
      exactly like the polygon it wraps. */
  lemma SinglePartLikePolygon(geo: Geodesy, point: LonLat, rings: seq<Ring>)
    requires |rings| > 0
    ensures ClosestPointInCountry(geo, point, MultiPolygon([rings])) == ClosestPointInCountry(geo, point, Polygon(rings))
  {
    var parts := [rings];
    assert parts[..0] == [];
    var c := ClosestPointInPolygon(geo, point, rings[0]);
    assert ClosestPart(geo, point, parts) == Ok(Nearer(NOTHING_CLOSER, c));
    if c.distance == 2.0 * PI {
      assert c.point.None?;
    }
  }

  /** The quadratic proximity curve before rounding, with coefficients
      fixed by a score of `MAX_PROXIMITY_SCORE` at 0,
      `MAX_PROXIMITY_SCORE * s` at pi/2 and 0 at pi. */
  function QuadraticCurve(dist: real): real {
    var s := QUADRATIC_PROXIMITY_SCALE_FACTOR;
    var pMax := MAX_PROXIMITY_SCORE as real;
    var a := pMax * (2.0 - 4.0 * s) / (PI * PI);
    var b := pMax * (4.0 * s - 3.0) / PI;
    var c := pMax;
    a * dist * dist + b * dist + c
  }

  /** `score < 0 ? 0 : score`: a negative score becomes 0, any other is kept. */
  function FloorAtZero(score: int): (r: int)
    ensures r >= 0
    ensures r > 0 ==> r == score
    ensures score >= 0 ==> r == score
  {
    if score < 0 then 0 else score
  }

  /** `computeProximityScoreQuadratic`: the curve, rounded, and floored at 0.
      What the score promises is stated by `QuadraticAnchors` and
      `QuadraticMonotone`. */
  function ProximityScoreQuadratic(dist: real): int {
    FloorAtZero(Round(QuadraticCurve(dist)))
  }

  lemma CurveFactors(p: real, d: real)
    requires p > 0.0
    ensures 100.0 * (2.0 - 4.0 * (1.0 / 20.0)) / (p * p) * d * d + 100.0 * (4.0 * (1.0 / 20.0) - 3.0) / p * d + 100.0
            == (180.0 / (p * p)) * (d - 5.0 * p / 9.0) * (d - p)
  {
    var a := 180.0 / (p * p);
    assert a * (5.0 * p / 9.0) * p == 100.0;
    assert a * (5.0 * p / 9.0 + p) == 280.0 / p;
  }

  lemma MulSigns(x: real, y: real)
    requires x >= 0.0 && y <= 0.0
    ensures x * y <= 0.0
  {
  }

  lemma RoundMonotone(x: real, y: real)
    requires x <= y
    ensures Round(x) <= Round(y)
  {
  }

  /** The quadratic score takes the three values its coefficients were
      chosen for. */
  lemma QuadraticAnchors()
    ensures ProximityScoreQuadratic(0.0) == MAX_PROXIMITY_SCORE
    ensures ProximityScoreQuadratic(PI / 2.0) == 5
    ensures ProximityScoreQuadratic(PI) == 0
  {
    CurveFactors(PI, 0.0);
    CurveFactors(PI, PI / 2.0);
    CurveFactors(PI, PI);
    var a := 180.0 / (PI * PI);
    assert a * (PI / 2.0 - 5.0 * PI / 9.0) * (PI / 2.0 - PI) == 5.0;
    assert a * (0.0 - 5.0 * PI / 9.0) * (0.0 - PI) == 100.0;
  }

  /** Between 0 and pi a nearer answer never scores less. */
  lemma {:induction false} QuadraticMonotone(d1: real, d2: real)
    requires 0.0 <= d1 <= d2 <= PI
    ensures ProximityScoreQuadratic(d1) >= ProximityScoreQuadratic(d2)
  {
    var p := PI;
    var a := 180.0 / (p * p);
    var r1 := 5.0 * p / 9.0;
    CurveFactors(p, d1);
    CurveFactors(p, d2);
    assert a > 0.0;
    if d2 >= r1 {
      MulSigns(d2 - r1, d2 - p);
      assert a * ((d2 - r1) * (d2 - p)) <= 0.0;
      assert QuadraticCurve(d2) <= 0.0;
      RoundMonotone(QuadraticCurve(d2), 0.0);
    } else {
      var f1 := a * (d1 - r1) * (d1 - p);
      var f2 := a * (d2 - r1) * (d2 - p);
      assert f1 - f2 == a * (d1 - d2) * (d1 + d2 - r1 - p);
      assert d1 + d2 - r1 - p <= 0.0;
      assert (d1 - d2) * (d1 + d2 - r1 - p) >= 0.0;
      assert f1 >= f2;
      RoundMonotone(QuadraticCurve(d2), QuadraticCurve(d1));
    }
  }

  /** Everything an answer is scored against besides the two countries:
      the d3 geometry, the exponential proximity curve
      `e^-(s1 * d + s2)` before rounding, and the adjacency table. */
  datatype Scorer = Scorer(geodesy: Geodesy, exponential: real -> real, adjacency: map<int, seq<int>>)

  /** `computeProximityScoreExponential`: the curve rounded to an integer. */
  function ProximityScoreExponential(sc: Scorer, dist: real): int {
    Round(sc.exponential(dist))
  }

  /** The state of one `Question`. `closesPoint` keeps the property's
      name as spelled in the game. */
  datatype Question = Question(
    questionCountry: Feature,
    centroid: LonLat,
    answered: bool,
    answerCountry: Option<Feature>,
    answerLonLat: Option<LonLat>,
    closesPoint: Slot<LonLat>,
    distanceToClosesPoint: real,
    correctCountry: bool,
    adjacentCountry: bool,
    proximityScore: int,
    adjacencyScore: int,
    accuracyScore: int,
    totalScore: int)

  /** `new Question(country)`: unanswered, with every score 0. */
  function NewQuestion(geo: Geodesy, country: Feature): (q: Question)
    ensures q.questionCountry == country && q.centroid == geo.centroid(country)
    ensures !q.answered && q.answerCountry.None? && q.answerLonLat.None? && q.closesPoint == Null
    ensures !q.correctCountry && GetScore(q) == Score(0, 0, 0, 0)
  {
    Question(country, geo.centroid(country), false, None, None, Null, 0.0, false, false, 0, 0, 0, 0)
  }

  function GetScore(q: Question): Score {
    Score(q.accuracyScore, q.proximityScore, q.adjacencyScore, q.totalScore)
  }

  /** A question after a scoring path ran: its new state, and the score
      returned or the exception that escaped (with the state as the
      exception left it). */
  datatype Answered = Answered(question: Question, score: Result<Score>)

  /** Fields a scoring path does not write are the ones it was given. */
  predicate SameAnswerFields(q: Question, q': Question) {
    q'.questionCountry == q.questionCountry && q'.centroid == q.centroid &&
    q'.answered == q.answered && q'.answerCountry == q.answerCountry &&
    q'.answerLonLat == q.answerLonLat && q'.adjacentCountry == q.adjacentCountry
  }

  /** `emptyAnswer`: no location was given, so nothing is earned. */
  function EmptyAnswer(q: Question): (r: Answered)
    ensures r.score == Ok(Score(0, 0, 0, 0)) && r.score.value == GetScore(r.question)
    ensures !r.question.correctCountry
    ensures SameAnswerFields(q, r.question)
    ensures r.question.closesPoint == q.closesPoint && r.question.distanceToClosesPoint == q.distanceToClosesPoint
  {
    var q' := q.(correctCountry := false, proximityScore := 0, accuracyScore := 0, adjacencyScore := 0, totalScore := 0);
    Answered(q', Ok(GetScore(q')))
  }

  /** `oceanAnswer`: a location outside every country earns proximity
      only. The bonuses are cleared before the search, so they stay
      cleared when the search throws. */
  function OceanAnswer(sc: Scorer, q: Question, lonLat: LonLat): (r: Answered)
    ensures r.score.Ok? <==> Searchable(q.questionCountry.geometry)
    ensures !r.question.correctCountry && r.question.accuracyScore == 0 && r.question.adjacencyScore == 0
    ensures SameAnswerFields(q, r.question)
    ensures r.score.Ok? ==> r.score.value == GetScore(r.question)
    ensures r.score.Ok? ==> r.score.value.total == r.score.value.proximity
    ensures r.score.Ok? ==>
              var c := ClosestPointInCountry(sc.geodesy, lonLat, q.questionCountry.geometry).value;
              r.question.closesPoint == Undefined && r.question.distanceToClosesPoint == c.distance &&
              r.score.value.proximity == ProximityScoreExponential(sc, c.distance)
    ensures r.score.Throw? ==> r.question.totalScore == q.totalScore && r.question.proximityScore == q.proximityScore
  {
    var q1 := q.(correctCountry := false, accuracyScore := 0, adjacencyScore := 0);
    match ClosestPointInCountry(sc.geodesy, lonLat, q.questionCountry.geometry)
    case Throw(e) => Answered(q1, Throw(e))
    case Ok(c) =>
      // The result has keys `point` and `distance`; destructuring
      // `closestPoint` out of it reads `undefined`.
      var prox := ProximityScoreExponential(sc, c.distance);
      var q2 := q1.(closesPoint := Undefined, distanceToClosesPoint := c.distance,
                    proximityScore := prox, totalScore := prox);
      Answered(q2, Ok(GetScore(q2)))
  }

  /** `computeScore`: an answer inside a country. The right country earns
      the full proximity score and the accuracy bonus; a wrong one earns
      the proximity curve and the adjacency bonus when it borders the
      asked country, and leaves `correctCountry` as it was. */
  function ComputeScore(sc: Scorer, q: Question, lonLat: LonLat, answer: Feature): (r: Answered)
    ensures r.score.Ok? <==> Searchable(q.questionCountry.geometry) && GeoData.IsSameCountry(answer, q.questionCountry).Ok?
    ensures SameAnswerFields(q, r.question)
    ensures r.score.Ok? ==> r.score.value == GetScore(r.question)
    ensures r.score.Ok? ==> r.score.value.total == r.score.value.accuracy + r.score.value.proximity + r.score.value.adjacency
    ensures Searchable(q.questionCountry.geometry) ==>
              var c := ClosestPointInCountry(sc.geodesy, lonLat, q.questionCountry.geometry).value;
              r.question.closesPoint == Undefined && r.question.distanceToClosesPoint == c.distance
    ensures r.score.Ok? && GeoData.IsSameCountry(answer, q.questionCountry).value ==>
              r.score.value == Score(ACCURACY_BONUS, MAX_PROXIMITY_SCORE, 0, MAX_SCORE) && r.question.correctCountry
    ensures r.score.Ok? && !GeoData.IsSameCountry(answer, q.questionCountry).value ==>
              var c := ClosestPointInCountry(sc.geodesy, lonLat, q.questionCountry.geometry).value;
              var adjacent := GeoData.Truthy(GeoData.IsAdjacentCountry(sc.adjacency, answer, q.questionCountry));
              r.score.value.accuracy == 0 &&
              r.score.value.adjacency == (if adjacent then ADJACENCY_BONUS else 0) &&
              r.score.value.proximity == ProximityScoreExponential(sc, c.distance) &&
              r.question.correctCountry == q.correctCountry
    ensures r.score.Throw? ==> GetScore(r.question) == GetScore(q) && r.question.correctCountry == q.correctCountry
  {
    match ClosestPointInCountry(sc.geodesy, lonLat, q.questionCountry.geometry)
    case Throw(e) => Answered(q, Throw(e))
    case Ok(c) =>
      var q1 := q.(closesPoint := Undefined, distanceToClosesPoint := c.distance);
      match GeoData.IsSameCountry(answer, q.questionCountry)
      case Throw(e) => Answered(q1, Throw(e))
      case Ok(same) =>
        var q2 :=
          if same then
            q1.(correctCountry := true, proximityScore := MAX_PROXIMITY_SCORE,
                accuracyScore := ACCURACY_BONUS, adjacencyScore := 0)
          else
            var adjacent := GeoData.Truthy(GeoData.IsAdjacentCountry(sc.adjacency, answer, q.questionCountry));
            q1.(proximityScore := ProximityScoreExponential(sc, c.distance),
                adjacencyScore := if adjacent then ADJACENCY_BONUS else 0, accuracyScore := 0);
        var q3 := q2.(totalScore := q2.adjacencyScore + q2.proximityScore + q2.accuracyScore);
        Answered(q3, Ok(GetScore(q3)))
  }

  /** `answer(lonLat, country)`: records the answer, then scores it as
      empty (no location), ocean (no country) or a country. */
  function Answer(sc: Scorer, q: Question, lonLat: Option<LonLat>, country: Option<Feature>): (r: Answered)
    ensures r.question.answered && r.question.answerLonLat == lonLat && r.question.answerCountry == country
    ensures r.question.questionCountry == q.questionCountry && r.question.centroid == q.centroid
    ensures r.score.Throw? <==>
              lonLat.Some? &&
              (!Searchable(q.questionCountry.geometry) ||
               (country.Some? && GeoData.IsSameCountry(country.value, q.questionCountry).Throw?))
    ensures r.score.Ok? ==> r.score.value == GetScore(r.question)
    ensures lonLat.None? ==> r.score == Ok(Score(0, 0, 0, 0)) && !r.question.correctCountry
    ensures lonLat.Some? && country.None? && r.score.Ok? ==>
              r.score.value.accuracy == 0 && r.score.value.adjacency == 0 &&
              r.score.value.total == r.score.value.proximity && !r.question.correctCountry
    ensures lonLat.Some? && country.Some? && r.score.Ok? ==>
              (GeoData.IsSameCountry(country.value, q.questionCountry).value <==> r.score.value.accuracy == ACCURACY_BONUS)
    ensures lonLat.Some? && r.score.Ok? ==> r.question.closesPoint == Undefined
    ensures r.score.Throw? && r.question.correctCountry ==> q.correctCountry
  {
    var q1 := q.(answered := true, answerCountry := country, answerLonLat := lonLat);
    match lonLat
    case None => EmptyAnswer(q1)
    case Some(p) =>
      match country
      case None => OceanAnswer(sc, q1, p)
      case Some(c) => ComputeScore(sc, q1, p, c)
  }

  /** The proximity curve stays within [0, `MAX_PROXIMITY_SCORE`] for
      every distance it can be given. */
  ghost predicate CurveBounded(sc: Scorer) {
    forall d :: 0.0 <= d ==> 0.0 <= sc.exponential(d) <= MAX_PROXIMITY_SCORE as real
  }

  ghost predicate DistanceNonNegative(geo: Geodesy) {
    forall a, b :: geo.distance(a, b) >= 0.0
  }

  lemma ClosestNonNegative(geo: Geodesy, point: LonLat, g: Geometry)
    requires DistanceNonNegative(geo)
    requires ClosestPointInCountry(geo, point, g).Ok?
    ensures ClosestPointInCountry(geo, point, g).value.distance >= 0.0
  {
    var c := ClosestPointInCountry(geo, point, g).value;
    if c.point.Some? {
      match g
      case Polygon(rings) => ClosestInRing(geo, point, rings[0]);
      case MultiPolygon(parts) =>
        ClosestPartIsFirst(geo, point, parts);
        var k :| 0 <= k < |parts| && ClosestPointInPolygon(geo, point, parts[k][0]) == c;
        ClosestInRing(geo, point, parts[k][0]);
    }
  }

  /** Every score a question hands out lies between 0 and `MAX_SCORE`,
      and the right country reaches it exactly. */
  lemma AnswerScoreBounded(sc: Scorer, q: Question, lonLat: Option<LonLat>, country: Option<Feature>)
    requires CurveBounded(sc) && DistanceNonNegative(sc.geodesy)
    ensures var r := Answer(sc, q, lonLat, country);
            r.score.Ok? ==> 0 <= r.score.value.total <= MAX_SCORE
    ensures var r := Answer(sc, q, lonLat, country);
            r.score.Ok? && r.question.correctCountry && lonLat.Some? && country.Some? ==>
              r.score.value.total == MAX_SCORE || !GeoData.IsSameCountry(country.value, q.questionCountry).value
  {
    var r := Answer(sc, q, lonLat, country);
    if r.score.Ok? && lonLat.Some? {
      var q1 := q.(answered := true, answerCountry := country, answerLonLat := lonLat);
      var c := ClosestPointInCountry(sc.geodesy, lonLat.value, q.questionCountry.geometry).value;
      ClosestNonNegative(sc.geodesy, lonLat.value, q.questionCountry.geometry);
      var e := sc.exponential(c.distance);
      assert 0.0 <= e <= 100.0;
      RoundMonotone(0.0, e);
      RoundMonotone(e, 100.0);
    }
  }

  /** The questions of one game. */
  datatype QuestionSet = QuestionSet(numQuestions: int, questions: seq<Question>)

  /** `new QuestionSet(numQuestions)`: one fresh question per country
      drawn, in the order drawn. `None` stands for a constructor that
      never returns because the sampler does not finish. */
  function NewQuestionSet(geo: Geodesy, pool: seq<Feature>, num: int, randoms: seq<real>): (r: Result<Option<QuestionSet>>)
    requires Sampling.IsRandomStream(randoms)
    ensures r.Throw? <==> num <= 0 || |pool| == 0
    ensures r.Ok? && r.value.Some? ==>
              var s := r.value.value;
              s.numQuestions == num && |s.questions| == num &&
              (forall i :: 0 <= i < num ==> !s.questions[i].answered && !s.questions[i].correctCountry &&
                                             GetScore(s.questions[i]) == Score(0, 0, 0, 0) &&
                                             s.questions[i].questionCountry in pool)
    ensures r.Ok? && r.value.Some? ==>
              var s := Sampling.UniqueRandomArr(num, |pool|, randoms).value;
              s.Sampled? && forall i :: 0 <= i < num ==> r.value.value.questions[i].questionCountry == pool[s.values[i]]
  {
    var picked :- GeoData.GetRandomCountries(pool, num, randoms);
    match picked
    case Hung => Ok(None)
    case Picked(countries) =>
      assert forall i :: 0 <= i < |countries| ==> countries[i] in pool by {
        var s := Sampling.UniqueRandomArr(num, |pool|, randoms).value;
        forall i | 0 <= i < |countries| ensures countries[i] in pool {
          assert countries[i] == pool[s.values[i]];
        }
      }
      Ok(Some(QuestionSet(num, seq(|countries|, i requires 0 <= i < |countries| => NewQuestion(geo, countries[i])))))
  }

  /** The sum of the per-question totals. */
  function SumTotals(qs: seq<Question>): int
    decreases |qs|
  {
    if |qs| == 0 then 0 else SumTotals(qs[..|qs| - 1]) + qs[|qs| - 1].totalScore
  }

  /** `getTotalScore`: the `forEach` that adds up every question's total. */
  method GetTotalScore(s: QuestionSet) returns (total: int)
    ensures total == SumTotals(s.questions)
  {
    total := 0;
    var i := 0;
    while i < |s.questions|
      invariant 0 <= i <= |s.questions|
      invariant total == SumTotals(s.questions[..i])
    {
      assert s.questions[..i + 1][..i] == s.questions[..i];
      total := total + s.questions[i].totalScore;
      i := i + 1;
    }
    assert s.questions[..i] == s.questions;
  }

  /** A set of questions each scored within bounds totals at most
      `MAX_SCORE` per question. */
  lemma {:induction false} SumTotalsBounded(qs: seq<Question>)
    requires forall i :: 0 <= i < |qs| ==> 0 <= qs[i].totalScore <= MAX_SCORE
    ensures 0 <= SumTotals(qs) <= MAX_SCORE * |qs|
    decreases |qs|
  {
    if |qs| > 0 {
      var init := qs[..|qs| - 1];
      assert forall i :: 0 <= i < |init| ==> init[i] == qs[i];
      SumTotalsBounded(init);
    }
  }

  /** `isAnswered` as written: the `return false` leaves only the
      `forEach` callback, whose result `forEach` discards, so the method
      reaches `return true` whatever the questions are. */
  function IsAnswered(s: QuestionSet): (r: bool)
    ensures r
    ensures r != AllAnswered(s) ==> exists i :: 0 <= i < |s.questions| && !s.questions[i].answered
  {
    true
  }

  /** The evidently intended `isAnswered`: a loop that stops at the first
      unanswered question. */
  function AllAnswered(s: QuestionSet): (r: bool)
    ensures r <==> forall i :: 0 <= i < |s.questions| ==> s.questions[i].answered
  {
    FirstUnanswered(s.questions).None?
  }

  function FirstUnanswered(qs: seq<Question>): (r: Option<nat>)
    ensures r.None? <==> forall i :: 0 <= i < |qs| ==> qs[i].answered
    ensures r.Some? ==> r.value < |qs| && !qs[r.value].answered
    decreases |qs|
  {
    if |qs| == 0 then None
    else if !qs[0].answered then Some(0)
    else
      match FirstUnanswered(qs[1..])
      case None => None
      case Some(i) => Some(i + 1)
  }

  /** A fresh set of one question already reports itself answered. */
  lemma IsAnsweredBeforeAnyAnswer(geo: Geodesy, country: Feature)
    ensures var s := QuestionSet(1, [NewQuestion(geo, country)]);
            IsAnswered(s) && !AllAnswered(s)
  {
    var s := QuestionSet(1, [NewQuestion(geo, country)]);
    assert !s.questions[0].answered;
  }
}
