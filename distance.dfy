/**
 * The edge-weight model of the salesman problem: the TSPLIB metrics ATT
 * (pseudo-Euclidean) and EUC_2D (Euclidean, rounded to the nearest integer),
 * chosen by the problem's edge-weight-type tag, over a table of city
 * coordinates. Arithmetic is on exact reals; the square root is a
 * parameter (`sqrt`), of which only non-negativity is ever assumed.
 */
module Distance {
  import opened Genes

  /** The coordinates of one city. */
  datatype Point = Point(x: real, y: real)

  /** The tags for which a distance formula exists. */
  predicate KnownMetric(edgeWeightType: string)
  {
    edgeWeightType == "ATT" || edgeWeightType == "EUC_2D"
  }

  /** The square root returns a non-negative value for every non-negative argument. */
  ghost predicate NonNegativeRoot(sqrt: real -> real)
  {
    forall q :: 0.0 <= q ==> 0.0 <= sqrt(q)
  }

  /** The squared Euclidean distance of two points (independent of orientation by construction). */
  function SquaredDistance(p: Point, q: Point): real
  {
    (p.x - q.x) * (p.x - q.x) + (p.y - q.y) * (p.y - q.y)
  }

  /** `Math.round`: the nearest integer, halves rounded up. */
  function Round(x: real): (n: int)
    ensures x - 0.5 < n as real <= x + 0.5
  {
    (x + 0.5).Floor
  }

  /** The least integer not below `x`; the reference for the ATT correction. */
  function Ceiling(x: real): (c: int)
    ensures x <= c as real < x + 1.0
  {
    if x.Floor as real == x then x.Floor else x.Floor + 1
  }

  /**
   * The ATT step after the square root: round `rij` to `tij`; if that fell
   * below `rij`, take `tij + 1`. The outcome is the ceiling of `rij`.
   */
  function AttCorrection(rij: real): (d: real)
    ensures d == Ceiling(rij) as real
  {
    var tij := Round(rij) as real;
    if tij < rij then
      OnlyIntegerInUnitInterval(rij, Round(rij) + 1, Ceiling(rij));
      tij + 1.0
    else
      OnlyIntegerInUnitInterval(rij, Round(rij), Ceiling(rij));
      tij
  }

  /** Two integers in the same half-open interval of width one are equal. */
  lemma OnlyIntegerInUnitInterval(x: real, m: int, n: int)
    requires x <= m as real < x + 1.0
    requires x <= n as real < x + 1.0
    ensures m == n
  {
    assert (m - n) as real < 1.0 && (n - m) as real < 1.0;
  }

  /**
   * The source reads coordinates only for two different cities under a
   * known metric; only then must both indices lie in the table.
   */
  predicate LooksUp(edgeWeightType: string, a: int, b: int)
  {
    a != b && KnownMetric(edgeWeightType)
  }

  predicate ValidLookup(cities: seq<Point>, edgeWeightType: string, a: int, b: int)
  {
    LooksUp(edgeWeightType, a, b) ==> 0 <= a < |cities| && 0 <= b < |cities|
  }

  /** `distance(int, int)`: the edge weight between cities `a` and `b`. */
  function CityDistance(cities: seq<Point>, edgeWeightType: string, sqrt: real -> real, a: int, b: int): (d: real)
    requires ValidLookup(cities, edgeWeightType, a, b)
    ensures !KnownMetric(edgeWeightType) ==> d == -1.0
    ensures KnownMetric(edgeWeightType) && a == b ==> d == 0.0
    ensures KnownMetric(edgeWeightType) ==> d == d.Floor as real
    ensures KnownMetric(edgeWeightType) && NonNegativeRoot(sqrt) ==> 0.0 <= d
    ensures edgeWeightType == "ATT" && a != b ==>
      d == Ceiling(sqrt(SquaredDistance(cities[a], cities[b]) / 10.0)) as real
    ensures edgeWeightType == "EUC_2D" && a != b ==>
      d == Round(sqrt(SquaredDistance(cities[a], cities[b]))) as real
  {
    if edgeWeightType == "ATT" then
      if a == b then 0.0
      else
        var xd := cities[a].x - cities[b].x;
        var yd := cities[b].y - cities[a].y;
        var q := (xd * xd + yd * yd) / 10.0;
        assert q == SquaredDistance(cities[a], cities[b]) / 10.0 by {
          assert yd * yd == (cities[a].y - cities[b].y) * (cities[a].y - cities[b].y);
        }
        AttCorrection(sqrt(q))
    else if edgeWeightType == "EUC_2D" then
      if a == b then 0.0
      else
        var xd := cities[a].x - cities[b].x;
        var yd := cities[a].y - cities[b].y;
        var q := xd * xd + yd * yd;
        assert q == SquaredDistance(cities[a], cities[b]);
        Round(sqrt(q)) as real
    else
      -1.0
  }

  /**
   * `distance(Gene, Gene)`: the same dispatch, reading the city index off
   * each integer gene once the metric is known.
   */
  function GeneDistance(cities: seq<Point>, edgeWeightType: string, sqrt: real -> real, from: Gene, to: Gene): (d: real)
    requires ValidLookup(cities, edgeWeightType, from.allele, to.allele)
    ensures d == CityDistance(cities, edgeWeightType, sqrt, from.allele, to.allele)
  {
    if edgeWeightType == "ATT" then
      var a := from.allele;
      var b := to.allele;
      if a == b then 0.0
      else
        var xd := cities[a].x - cities[b].x;
        var yd := cities[b].y - cities[a].y;
        var q := (xd * xd + yd * yd) / 10.0;
        assert q == SquaredDistance(cities[a], cities[b]) / 10.0 by {
          assert yd * yd == (cities[a].y - cities[b].y) * (cities[a].y - cities[b].y);
        }
        AttCorrection(sqrt(q))
    else if edgeWeightType == "EUC_2D" then
      var a := from.allele;
      var b := to.allele;
      if a == b then 0.0
      else
        var xd := cities[a].x - cities[b].x;
        var yd := cities[a].y - cities[b].y;
        var q := xd * xd + yd * yd;
        assert q == SquaredDistance(cities[a], cities[b]);
        Round(sqrt(q)) as real
    else
      -1.0
  }

  /** Only the squared coordinate differences enter the formula, so the order of the endpoints is irrelevant. */
  lemma DistanceSymmetric(cities: seq<Point>, edgeWeightType: string, sqrt: real -> real, a: int, b: int)
    requires ValidLookup(cities, edgeWeightType, a, b)
    ensures ValidLookup(cities, edgeWeightType, b, a)
    ensures CityDistance(cities, edgeWeightType, sqrt, a, b) == CityDistance(cities, edgeWeightType, sqrt, b, a)
  {
    if LooksUp(edgeWeightType, a, b) {
      var p, q := cities[a], cities[b];
      assert SquaredDistance(p, q) == SquaredDistance(q, p) by {
        assert (p.x - q.x) * (p.x - q.x) == (q.x - p.x) * (q.x - p.x);
        assert (p.y - q.y) * (p.y - q.y) == (q.y - p.y) * (q.y - p.y);
      }
    }
  }

  /** The worked ATT cases: 7.4 rounds down to 7 and is corrected to 8; 7.6 rounds to 8 and stays. */
  lemma AttCorrectionExamples()
    ensures Round(7.4) == 7 && AttCorrection(7.4) == 8.0
    ensures Round(7.6) == 8 && AttCorrection(7.6) == 8.0
    ensures AttCorrection(7.0) == 7.0
  {
  }
}
