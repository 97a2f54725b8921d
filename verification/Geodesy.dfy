/**
 Geodetic and Earth-centred coordinates over exact reals.

 A direction (latitude or longitude) is its unit vector, so `atan2` is the normalisation of a vector and
 doubling an angle is the double-angle formula. The square and cube roots of the standard library are
 parameters of which only their defining equations are used, and so are the axis and the eccentricity of the
 ellipsoid; `Wgs84` gives them the values of the source.
 */
module Geodesy {
  import opened Common

  /** A reference ellipsoid, and the root functions of the standard library. */
  datatype Ellipsoid = Ellipsoid(a: real, e2: real, sqrt: real -> real, cbrt: real -> real) {

    /** A mildly flattened ellipsoid, and what exact arithmetic promises of the two root functions. */
    ghost predicate Lawful() {
      && 0.0 < a
      && 0.0 < e2 < 0.5
      && (forall x :: 0.0 <= x ==> 0.0 <= sqrt(x) && sqrt(x) * sqrt(x) == x)
      && (forall x :: cbrt(x) * cbrt(x) * cbrt(x) == x)
    }
  }

  const SEMI_MAJOR_AXIS_M: real := 6378137.0
  const INVERSE_FLATTENING: real := 298.257223563
  const FLATTENING: real := 1.0 / INVERSE_FLATTENING

  /** The WGS-84 ellipsoid. */
  function Wgs84(sqrt: real -> real, cbrt: real -> real): (m: Ellipsoid)
    ensures 0.0066 < m.e2 < 0.0067
  {
    Ellipsoid(SEMI_MAJOR_AXIS_M, FLATTENING * (2.0 - FLATTENING), sqrt, cbrt)
  }

  /** An angle, as the vector of its cosine and sine. */
  datatype Direction = Direction(cos: real, sin: real) {

    predicate Unit() {
      Square(cos) + Square(sin) == 1.0
    }

    /** A latitude lies in [-90, 90]; its cosine vanishes exactly at the two poles. */
    predicate Latitude() {
      Unit() && 0.0 <= cos
    }
  }

  const ZERO_ANGLE := Direction(1.0, 0.0)

  function Square(x: real): (y: real)
    ensures 0.0 <= y
  {
    x * x
  }

  function Hypot(m: Ellipsoid, x: real, y: real): real {
    m.sqrt(Square(x) + Square(y))
  }

  /** `atan2`: the direction of a vector, zero for the null vector. */
  function Atan2(m: Ellipsoid, y: real, x: real): Direction {
    var h := Hypot(m, x, y);
    if h == 0.0 then ZERO_ANGLE else Direction(x / h, y / h)
  }

  /** Twice an angle. */
  function Doubled(d: Direction): Direction {
    Direction(Square(d.cos) - Square(d.sin), 2.0 * d.cos * d.sin)
  }

  /** x is the quotient of n and d. */
  predicate Ratio(n: real, d: real, x: real) {
    0.0 < d && x * d == n
  }

  datatype Ecef = Ecef(x: real, y: real, z: real)

  datatype Geodetic = Geodetic(latitude: Direction, longitude: Direction, altitude: real) {

    predicate Valid() {
      latitude.Latitude() && longitude.Unit()
    }

    predicate AtPole() {
      latitude.cos == 0.0
    }

    /** The same position, with the longitude that a pole is given by convention. */
    function Canonical(): Geodetic {
      if AtPole() then Geodetic(latitude, ZERO_ANGLE, altitude) else this
    }
  }

  // ----- the conversions -----

  /** Radius of curvature in the prime vertical. */
  function PrimeVertical(m: Ellipsoid, latitude: Direction): (n: real)
    requires m.Lawful() && latitude.Unit()
    ensures m.a <= n
    ensures Square(n) * (1.0 - m.e2 * Square(latitude.sin)) == Square(m.a)
  {
    var under := 1.0 - m.e2 * Square(latitude.sin);
    EccentricityIsSmall(m);
    UnderRoot(m.e2, latitude.cos, latitude.sin);
    var root := m.sqrt(under);
    InverseRoot(m.a, under, root);
    m.a / root
  }

  function GeodeticToEcef(m: Ellipsoid, g: Geodetic): Ecef
    requires m.Lawful() && g.Valid()
  {
    var n := PrimeVertical(m, g.latitude);
    var z := (n * (1.0 - m.e2) + g.altitude) * g.latitude.sin;
    if g.AtPole() then
      Ecef(0.0, 0.0, z)
    else
      var equatorial := (n + g.altitude) * g.latitude.cos;
      Ecef(equatorial * g.longitude.cos, equatorial * g.longitude.sin, z)
  }

  /** The normalised squares of the equatorial and polar distances. */
  function EquatorialShape(m: Ellipsoid, point: Ecef): real
    requires m.Lawful()
  {
    SquarePositive(m.a);
    (Square(point.x) + Square(point.y)) / Square(m.a)
  }

  function PolarShape(m: Ellipsoid, point: Ecef): real
    requires m.Lawful()
  {
    SquarePositive(m.a);
    (1.0 - m.e2) * Square(point.z) / Square(m.a)
  }

  /** The distance d of the closed form: the equatorial distance of the foot point, times k. */
  function FootDistance(m: Ellipsoid, point: Ecef, k: real): real
    requires m.Lawful() && 0.0 < k
  {
    EccentricityIsSmall(m);
    k * Hypot(m, point.x, point.y) / (k + m.e2)
  }

  function Meridional(m: Ellipsoid, point: Ecef, k: real): real
    requires m.Lawful() && 0.0 < k
  {
    Hypot(m, FootDistance(m, point, k), point.z)
  }

  /** The coordinates recovered from a point once the root k of its shape equation is known. */
  function Recovered(m: Ellipsoid, point: Ecef, k: real): Geodetic
    requires m.Lawful() && 0.0 < k
  {
    var meridional := Meridional(m, point, k);
    var altitude := (k + m.e2 - 1.0) / k * meridional;
    if Hypot(m, point.x, point.y) == 0.0 then
      Geodetic(Direction(0.0, if point.z < 0.0 then -1.0 else 1.0), ZERO_ANGLE, altitude)
    else
      Geodetic(Doubled(Atan2(m, point.z, FootDistance(m, point, k) + meridional)), Atan2(m, point.y, point.x), altitude)
  }

  /** The degeneracy guard: the point lies in the region around the centre. */
  predicate Degenerate(m: Ellipsoid, point: Ecef)
    requires m.Lawful()
  {
    var e4 := Square(m.e2);
    var p := EquatorialShape(m, point);
    var q := PolarShape(m, point);
    Inner(e4, p, q, (p + q - e4) / 6.0)
  }

  predicate Inner(e4: real, p: real, q: real, r: real) {
    r <= 0.0 || 8.0 * (r * r * r) + e4 * p * q <= 0.0
  }

  function EcefToGeodetic(m: Ellipsoid, point: Ecef): Option<Geodetic>
    requires m.Lawful()
  {
    if Degenerate(m, point) then
      None
    else
      Some(Recovered(m, point, PointRoot(m, point)))
  }

  /** The root k of the shape equation of a point outside the degenerate region. */
  function PointRoot(m: Ellipsoid, point: Ecef): (k: real)
    requires m.Lawful() && !Degenerate(m, point)
    ensures OnShape(m.e2, EquatorialShape(m, point), PolarShape(m, point), k)
  {
    var e2 := m.e2;
    var p := EquatorialShape(m, point);
    var q := PolarShape(m, point);
    EccentricityIsSmall(m);
    ShapesNonnegative(m, point);
    ShapeRoot(m, e2, p, q, (p + q - e2 * e2) / 6.0)
  }

  /**
   The point at which p / (k + e2)^2 + q / k^2 == 1, written without division. Geometrically 1 + h / N is
   k + e2, where h is the altitude and N the prime vertical.
   */
  predicate OnShape(e2: real, p: real, q: real, k: real) {
    0.0 < k && p * Square(k) + q * Square(k + e2) == Square(k) * Square(k + e2)
  }

  /** u is positive and solves the cubic resolvent of the shape equation. */
  predicate Resolvent(e2: real, p: real, q: real, u: real) {
    0.0 < u && 2.0 * (u * u * u) == (p + q - e2 * e2) * (u * u) + e2 * e2 * p * q
  }

  /** The real root of the cubic resolvent, in the closed form of Vermeille (2011). */
  function ResolventRoot(m: Ellipsoid, e2: real, p: real, q: real, r: real): (u: real)
    requires m.Lawful() && 0.0 < e2 && 0.0 <= p && 0.0 <= q
    requires 6.0 * r == p + q - e2 * e2 && 0.0 < r
    ensures Resolvent(e2, p, q, u)
  {
    hide *;
    var s := Proportion(e2, p, q, r);
    var t := CubeRoot(m, s);
    var u := r * (1.0 + t + 1.0 / t);
    CubicResolvent(e2, p, q, r, s, t, u);
    u
  }

  /** The quantity s of the closed form. */
  function Proportion(e2: real, p: real, q: real, r: real): (s: real)
    requires 0.0 < e2 && 0.0 <= p && 0.0 <= q && 0.0 < r
    ensures 0.0 <= s && Proportional(e2, p, q, r, s)
  {
    var e4pq := e2 * e2 * p * q;
    var scale := 4.0 * (r * r * r);
    RatioFacts(e2, p, q, r, e4pq, scale);
    e4pq / scale
  }

  predicate Proportional(e2: real, p: real, q: real, r: real, s: real) {
    4.0 * (r * r * r) * s == e2 * e2 * p * q
  }

  /** The quantity t of the closed form: its cube and the cube of its inverse add up to 2 + 2 s. */
  function CubeRoot(m: Ellipsoid, s: real): (t: real)
    requires m.Lawful() && 0.0 <= s
    ensures 0.0 < t && CubesAddUp(s, t, 1.0 / t)
  {
    var t := m.cbrt(1.0 + s + m.sqrt(s * (2.0 + s)));
    CubeRootFacts(m, s, t);
    t
  }

  predicate CubesAddUp(s: real, t: real, g: real) {
    0.0 < g && t * g == 1.0 && t * t * t + g * g * g == 2.0 + 2.0 * s
  }

  /** The quantity w of the closed form. */
  function Offset(e2: real, q: real, u: real, v: real): real
    requires 0.0 < v
  {
    e2 * (u + v - q) / (2.0 * v)
  }

  /** The positive root k of the quartic that the resolvent splits. */
  function ShapeRoot(m: Ellipsoid, e2: real, p: real, q: real, r: real): (k: real)
    requires m.Lawful() && 0.0 < e2 && 0.0 <= p && 0.0 <= q
    requires 6.0 * r == p + q - e2 * e2 && 0.0 < r
    ensures OnShape(e2, p, q, k)
  {
    hide *;
    var u := ResolventRoot(m, e2, p, q, r);
    var v := m.sqrt(Square(u) + Square(e2) * q);
    SecondRootPositive(m, e2, p, q, u, v);
    var w := Offset(e2, q, u, v);
    var k := m.sqrt(u + v + Square(w)) - w;
    ClosedFormIsRoot(m, e2, p, q, u, v, w, k);
    k
  }

  // ----- why the closed form is a root -----

  lemma EccentricityIsSmall(m: Ellipsoid)
    requires m.Lawful()
    ensures 0.0 < m.e2 < 0.5 && 0.0 < m.a
  {
  }

  lemma Cancel(c: real, x: real, y: real)
    requires c * x == c * y && c != 0.0
    ensures x == y
  {
  }

  lemma SquarePositive(x: real)
    requires x != 0.0
    ensures 0.0 < Square(x)
  {
    var size := if x < 0.0 then -x else x;
    PositiveProduct(size, size, Square(x));
  }

  lemma PositiveProduct(x: real, y: real, xy: real)
    requires 0.0 < x && 0.0 < y && xy == x * y
    ensures 0.0 < xy
  {
  }

  lemma ProductNonnegative(x: real, y: real)
    requires 0.0 <= x && 0.0 <= y
    ensures 0.0 <= x * y
  {
  }

  lemma RatioFacts(e2: real, p: real, q: real, r: real, e4pq: real, scale: real)
    requires 0.0 < r && 0.0 < e2 && 0.0 <= p && 0.0 <= q
    requires e4pq == e2 * e2 * p * q && scale == 4.0 * (r * r * r)
    ensures 0.0 <= e4pq && 0.0 < scale
    ensures 0.0 <= e4pq / scale && scale * (e4pq / scale) == e4pq
  {
    CubePositive(r);
    var pq := p * q;
    assert 0.0 <= pq && e4pq == Square(e2) * pq;
  }

  lemma CubePositive(r: real)
    requires 0.0 < r
    ensures 0.0 < r * r * r
  {
    SquarePositive(r);
    PositiveProduct(Square(r), r, r * r * r);
  }

  /** The cube root t of 1 + s + sqrt(s (2 + s)) and its inverse have cubes adding up to 2 + 2 s. */
  lemma CubeRootFacts(m: Ellipsoid, s: real, t: real)
    requires m.Lawful() && 0.0 <= s
    requires t == m.cbrt(1.0 + s + m.sqrt(s * (2.0 + s)))
    ensures 0.0 < t && CubesAddUp(s, t, 1.0 / t)
  {
    var under := s * (2.0 + s);
    assert 0.0 <= under;
    var rho := m.sqrt(under);
    var cube := 1.0 + s + rho;
    assert t * t * t == cube;
    PositiveFromCube(t, cube);
    var g := 1.0 / t;
    var inverse := g * g * g;
    assert cube * inverse == 1.0 by {
      assert cube * inverse == (t * g) * (t * g) * (t * g);
    }
    assert cube * (1.0 + s - rho) == 1.0;
    Cancel(cube, inverse, 1.0 + s - rho);
  }

  lemma PositiveFromCube(t: real, cube: real)
    requires t * t * t == cube && 0.0 < cube
    ensures 0.0 < t && 0.0 < 1.0 / t && t * (1.0 / t) == 1.0
  {
    var tt := Square(t);
    assert tt * t == cube;
  }

  /** u = r (1 + t + 1/t) is positive and solves the cubic resolvent of the quartic. */
  lemma CubicResolvent(e2: real, p: real, q: real, r: real, s: real, t: real, u: real)
    requires 6.0 * r == p + q - e2 * e2 && 0.0 < r
    requires Proportional(e2, p, q, r, s)
    requires 0.0 < t && CubesAddUp(s, t, 1.0 / t)
    requires u == r * (1.0 + t + 1.0 / t)
    ensures Resolvent(e2, p, q, u)
  {
    CubeOfSum(s, t, 1.0 / t);
    ScaledCube(e2, p, q, r, s, 1.0 + t + 1.0 / t, u);
  }

  /** o == 1 + t + 1/t. */
  predicate CubicIn(s: real, o: real) {
    0.0 < o && o * o * o == 3.0 * (o * o) + 2.0 * s
  }

  lemma CubeOfSum(s: real, t: real, g: real)
    requires 0.0 < t && CubesAddUp(s, t, g)
    ensures CubicIn(s, 1.0 + t + g)
  {
    var n := t + g;
    assert n * n * n == t * t * t + g * g * g + 3.0 * n * (t * g);
    var o := 1.0 + n;
    assert o * o * o == 1.0 + 3.0 * n + 3.0 * (n * n) + n * n * n;
  }

  lemma ScaledCube(e2: real, p: real, q: real, r: real, s: real, o: real, u: real)
    requires 6.0 * r == p + q - e2 * e2 && 0.0 < r
    requires Proportional(e2, p, q, r, s) && CubicIn(s, o) && u == r * o
    ensures Resolvent(e2, p, q, u)
  {
    PositiveProduct(r, o, u);
    calc {
      2.0 * (u * u * u);
      2.0 * (r * r * r) * (o * o * o);
      2.0 * (r * r * r) * (3.0 * (o * o) + 2.0 * s);
      6.0 * r * (u * u) + 4.0 * (r * r * r) * s;
      (p + q - e2 * e2) * (u * u) + e2 * e2 * p * q;
    }
  }

  lemma SecondRootPositive(m: Ellipsoid, e2: real, p: real, q: real, u: real, v: real)
    requires m.Lawful() && 0.0 <= q && Resolvent(e2, p, q, u)
    requires v == m.sqrt(Square(u) + Square(e2) * q)
    ensures 0.0 < v && Square(v) == Square(u) + Square(e2) * q
  {
    SquarePositive(u);
    var under := Square(u) + Square(e2) * q;
    assert 0.0 <= Square(e2) * q;
    RootPositive(m, under);
  }

  lemma RootPositive(m: Ellipsoid, under: real)
    requires m.Lawful() && 0.0 < under
    ensures 0.0 < m.sqrt(under) && Square(m.sqrt(under)) == under
  {
  }

  lemma ClosedFormIsRoot(m: Ellipsoid, e2: real, p: real, q: real, u: real, v: real, w: real, k: real)
    requires m.Lawful() && 0.0 <= q && Resolvent(e2, p, q, u)
    requires v == m.sqrt(Square(u) + Square(e2) * q) && 0.0 < v
    requires w == Offset(e2, q, u, v)
    requires k == m.sqrt(u + v + Square(w)) - w
    ensures OnShape(e2, p, q, k)
  {
    hide *;
    SecondRootPositive(m, e2, p, q, u, v);
    OffsetEquation(e2, q, u, v, w);
    ThirdRoot(m, e2, p, q, u, v, w, k);
    QuarticRoot(e2, p, q, u, v, w, k);
  }

  /** Twice v times the offset. */
  predicate Offsets(e2: real, q: real, u: real, v: real, w: real) {
    2.0 * (v * w) == e2 * (u + v - q)
  }

  lemma OffsetEquation(e2: real, q: real, u: real, v: real, w: real)
    requires 0.0 < v && w == Offset(e2, q, u, v)
    ensures Offsets(e2, q, u, v, w)
  {
    var n := e2 * (u + v - q);
    assert w == n / (2.0 * v);
    assert w * (2.0 * v) == n;
  }

  /** k is the positive root of one quadratic factor. */
  predicate Factor(u: real, v: real, w: real, k: real) {
    0.0 < k && k * k + 2.0 * w * k == u + v
  }

  lemma ThirdRoot(m: Ellipsoid, e2: real, p: real, q: real, u: real, v: real, w: real, k: real)
    requires m.Lawful() && Resolvent(e2, p, q, u) && 0.0 < v
    requires k == m.sqrt(u + v + Square(w)) - w
    ensures Factor(u, v, w, k)
  {
    var c := u + v;
    assert 0.0 < c;
    RootPositive(m, c + Square(w));
    LessShift(c, w, k + w);
  }

  lemma LessShift(c: real, w: real, root: real)
    requires 0.0 < c && 0.0 < root && Square(root) == c + Square(w)
    ensures 0.0 < root - w && (root - w) * (root - w) + 2.0 * w * (root - w) == c
  {
    assert root <= w ==> root * root <= w * w;
  }

  /** Ferrari's step: the resolvent splits the quartic, and k is a root of one factor. */
  lemma QuarticRoot(e2: real, p: real, q: real, u: real, v: real, w: real, k: real)
    requires Resolvent(e2, p, q, u)
    requires 0.0 < v && Square(v) == Square(u) + Square(e2) * q
    requires Offsets(e2, q, u, v, w)
    requires Factor(u, v, w, k)
    ensures OnShape(e2, p, q, k)
  {
    hide Resolvent, Offsets, Factor, OnShape, Square, Slopes, SlopeSquares;
    var a := e2 - 2.0 * w;
    SlopeTimesRoot(e2, q, u, v, w, a);
    SquarePositive(v);
    SlopeSquare(e2, p, q, u, v, a);
    FactorSplits(e2, p, q, u, v, w, k, a);
  }

  /** a, of which k^2 + e2 k - u == a k + v, times v. */
  predicate Slopes(e2: real, q: real, u: real, v: real, a: real) {
    a * v == e2 * (q - u)
  }

  predicate SlopeSquares(p: real, q: real, u: real, a: real) {
    a * a == p + q - 2.0 * u
  }

  lemma SlopeTimesRoot(e2: real, q: real, u: real, v: real, w: real, a: real)
    requires Offsets(e2, q, u, v, w) && a == e2 - 2.0 * w
    ensures Slopes(e2, q, u, v, a)
  {
  }

  lemma SlopeSquare(e2: real, p: real, q: real, u: real, v: real, a: real)
    requires Resolvent(e2, p, q, u) && 0.0 < Square(v) && Square(v) == Square(u) + Square(e2) * q
    requires Slopes(e2, q, u, v, a)
    ensures SlopeSquares(p, q, u, a)
  {
    SquareOfSlope(e2, p, q, u, Square(v), a * v, a * a);
  }

  lemma FactorSplits(e2: real, p: real, q: real, u: real, v: real, w: real, k: real, a: real)
    requires Factor(u, v, w, k) && a == e2 - 2.0 * w
    requires Slopes(e2, q, u, v, a) && SlopeSquares(p, q, u, a) && Square(v) == Square(u) + Square(e2) * q
    ensures OnShape(e2, p, q, k)
  {
    hide *;
    var b := k * k + e2 * k - u;
    FactorAsLine(e2, u, v, w, k, a);
    LineSquared(e2, p, q, u, v, a, k, b);
    SquaredSplits(e2, p, q, u, k, b);
  }

  lemma FactorAsLine(e2: real, u: real, v: real, w: real, k: real, a: real)
    requires Factor(u, v, w, k) && a == e2 - 2.0 * w
    ensures 0.0 < k && k * k + e2 * k - u == a * k + v
  {
  }

  /** The square of the line a k + v, where a and v have been eliminated. */
  predicate LineSquare(e2: real, p: real, q: real, u: real, k: real, bb: real) {
    bb == (p + q - 2.0 * u) * (k * k) + 2.0 * (e2 * (q - u)) * k + (u * u + e2 * e2 * q)
  }

  lemma LineSquared(e2: real, p: real, q: real, u: real, v: real, a: real, k: real, b: real)
    requires b == a * k + v
    requires Slopes(e2, q, u, v, a) && SlopeSquares(p, q, u, a) && Square(v) == Square(u) + Square(e2) * q
    ensures LineSquare(e2, p, q, u, k, b * b)
  {
    SquareOfLine(p + q - 2.0 * u, e2 * (q - u), u * u + e2 * e2 * q, a, v, k, b);
  }

  lemma SquareOfLine(aa: real, av: real, vv: real, a: real, v: real, k: real, b: real)
    requires b == a * k + v && aa == a * a && av == a * v && vv == v * v
    ensures b * b == aa * (k * k) + 2.0 * av * k + vv
  {
  }

  lemma SquaredSplits(e2: real, p: real, q: real, u: real, k: real, b: real)
    requires 0.0 < k && b == k * k + e2 * k - u && LineSquare(e2, p, q, u, k, b * b)
    ensures OnShape(e2, p, q, k)
  {
    assert b * b == (k * k) * ((k + e2) * (k + e2)) - 2.0 * u * (k * k) - 2.0 * e2 * u * k + u * u;
  }

  lemma SquareOfSlope(e2: real, p: real, q: real, u: real, vv: real, av: real, aa: real)
    requires 2.0 * (u * u * u) == (p + q - e2 * e2) * (u * u) + e2 * e2 * p * q
    requires vv == u * u + e2 * e2 * q && 0.0 < vv
    requires av == e2 * (q - u) && vv * aa == av * av
    ensures aa == p + q - 2.0 * u
  {
    calc {
      vv * aa;
      (e2 * e2) * ((q - u) * (q - u));
      (p + q - 2.0 * u) * (u * u + e2 * e2 * q);
      vv * (p + q - 2.0 * u);
    }
    Cancel(vv, aa, p + q - 2.0 * u);
  }

  // ----- uniqueness of the root -----

  /** The shape equation has at most one positive root. */
  lemma ShapeRootUnique(e2: real, p: real, q: real, k1: real, k2: real)
    requires 0.0 < e2 && 0.0 <= p && 0.0 <= q && 0.0 < p + q
    requires OnShape(e2, p, q, k1) && OnShape(e2, p, q, k2)
    ensures k1 == k2
  {
    RootsNotOrdered(e2, p, q, k1, k2);
    RootsNotOrdered(e2, p, q, k2, k1);
  }

  lemma SquareMonotone(x: real, y: real)
    requires 0.0 < x < y
    ensures 0.0 < Square(x) < Square(y)
  {
    SquarePositive(x);
    PositiveProduct(y - x, y + x, Square(y) - Square(x));
  }

  lemma RootsNotOrdered(e2: real, p: real, q: real, k1: real, k2: real)
    requires 0.0 < e2 && 0.0 <= p && 0.0 <= q && 0.0 < p + q
    requires OnShape(e2, p, q, k1) && OnShape(e2, p, q, k2)
    ensures k2 <= k1
  {
    hide Square;
    if k1 < k2 {
      SquareMonotone(k1, k2);
      SquareMonotone(k1 + e2, k2 + e2);
      LargerDenominators(p, q, Square(k1), Square(k1 + e2), Square(k2), Square(k2 + e2));
    }
  }

  lemma LargerDenominators(p: real, q: real, a1: real, b1: real, a2: real, b2: real)
    requires 0.0 <= p && 0.0 <= q && 0.0 < p + q
    requires 0.0 < a1 < a2 && 0.0 < b1 < b2
    requires p * a1 + q * b1 == a1 * b1
    ensures p * a2 + q * b2 != a2 * b2
  {
    if p * a2 + q * b2 == a2 * b2 {
      SumOfQuotients(p, q, a1, b1);
      SumOfQuotients(p, q, a2, b2);
      QuotientAntitone(p, b1, b2);
      QuotientAntitone(q, a1, a2);
      assert false;
    }
  }

  lemma SumOfQuotients(p: real, q: real, a: real, b: real)
    requires 0.0 < a && 0.0 < b && p * a + q * b == a * b
    ensures p / b + q / a == 1.0
  {
    var (x, y) := (p / b, q / a);
    assert p == x * b && q == y * a;
    assert p * a == x * (a * b);
    assert q * b == y * (a * b);
    assert (a * b) * (x + y) == x * (a * b) + y * (a * b);
    assert 0.0 < a * b;
    Cancel(a * b, x + y, 1.0);
  }

  lemma QuotientAntitone(p: real, b1: real, b2: real)
    requires 0.0 <= p && 0.0 < b1 < b2
    ensures p / b2 <= p / b1
    ensures 0.0 < p ==> p / b2 < p / b1
  {
    var (x1, x2) := (p / b1, p / b2);
    assert x1 * b1 == p && x2 * b2 == p;
    assert (x1 - x2) * b1 == x2 * (b2 - b1);
    assert 0.0 <= x2 && (0.0 < p ==> 0.0 < x2);
  }

  // ----- the prime vertical -----

  lemma UnderRoot(e2: real, cos: real, sin: real)
    requires 0.0 < e2 < 1.0 && Square(cos) + Square(sin) == 1.0
    ensures 0.0 < 1.0 - e2 * Square(sin) <= 1.0
  {
    var ss := Square(sin);
    assert 0.0 <= e2 * ss;
    assert 0.0 <= e2 * (1.0 - ss);
  }

  lemma InverseRoot(a: real, under: real, root: real)
    requires 0.0 < a && 0.0 < under <= 1.0 && 0.0 <= root && root * root == under
    ensures root != 0.0 && a <= a / root
    ensures Square(a / root) * under == Square(a)
  {
    assert 1.0 < root ==> 1.0 < root * root;
    var n := a / root;
    assert n * root == a;
    calc {
      Square(n) * under;
      (n * root) * (n * root);
      Square(a);
    }
    assert a <= n by {
      assert (n - a) * root == a * (1.0 - root);
    }
  }

  lemma ShapesNonnegative(m: Ellipsoid, point: Ecef)
    requires m.Lawful()
    ensures 0.0 <= EquatorialShape(m, point) && 0.0 <= PolarShape(m, point)
  {
    EccentricityIsSmall(m);
    SquarePositive(m.a);
    var polar := (1.0 - m.e2) * Square(point.z);
    assert 0.0 <= polar;
  }

  // ----- the degeneracy guard -----

  /** The second clause of the guard never decides: a point is refused exactly inside p + q <= e^4. */
  lemma DegenerateIffInner(m: Ellipsoid, point: Ecef)
    requires m.Lawful()
    ensures Degenerate(m, point) <==>
            EquatorialShape(m, point) + PolarShape(m, point) <= Square(m.e2)
  {
    EccentricityIsSmall(m);
    ShapesNonnegative(m, point);
    var e4, p, q := Square(m.e2), EquatorialShape(m, point), PolarShape(m, point);
    SquarePositive(m.e2);
    hide EquatorialShape, PolarShape, Square, Inner, Ellipsoid.Lawful;
    InnerGuard(e4, p, q, (p + q - e4) / 6.0);
  }

  lemma InnerGuard(e4: real, p: real, q: real, r: real)
    requires 0.0 < e4 && 0.0 <= p && 0.0 <= q && 6.0 * r == p + q - e4
    ensures Inner(e4, p, q, r) <==> p + q <= e4
  {
    if 0.0 < r {
      CubePositive(r);
      ProductNonnegative(e4, p);
      ProductNonnegative(e4 * p, q);
    }
  }

  // ----- roots and directions -----

  lemma RootOfSquare(m: Ellipsoid, x: real, y: real)
    requires m.Lawful() && 0.0 <= x && y == Square(x)
    ensures m.sqrt(y) == x
  {
    SquareInjective(m.sqrt(y), x);
  }

  lemma SquareInjective(x: real, y: real)
    requires 0.0 <= x && 0.0 <= y && Square(x) == Square(y)
    ensures x == y
  {
    if x < y {
      PositiveProduct(y - x, y + x, Square(y) - Square(x));
    } else if y < x {
      PositiveProduct(x - y, x + y, Square(x) - Square(y));
    }
  }

  lemma HypotFacts(m: Ellipsoid, x: real, y: real)
    requires m.Lawful()
    ensures 0.0 <= Hypot(m, x, y) && Square(Hypot(m, x, y)) == Square(x) + Square(y)
    ensures Hypot(m, x, y) == 0.0 <==> x == 0.0 && y == 0.0
  {
    var h := Hypot(m, x, y);
    assert Square(h) == Square(x) + Square(y);
    if x != 0.0 { SquarePositive(x); }
    if y != 0.0 { SquarePositive(y); }
    if h != 0.0 { SquarePositive(h); }
  }

  /** Dividing a vector by its length gives a unit vector. */
  lemma Normalised(x: real, y: real, h: real, direction: Direction)
    requires Ratio(x, h, direction.cos) && Ratio(y, h, direction.sin)
    requires Square(h) == Square(x) + Square(y)
    ensures direction.Unit()
  {
    SquarePositive(h);
    SquareOfProduct(direction.cos, h);
    SquareOfProduct(direction.sin, h);
    UnitSum(Square(direction.cos), Square(direction.sin), Square(h), Square(x), Square(y));
  }

  lemma UnitSum(a: real, b: real, h: real, x: real, y: real)
    requires a * h == x && b * h == y && h == x + y && 0.0 < h
    ensures a + b == 1.0
  {
    assert h * (a + b) == a * h + b * h;
    Cancel(h, a + b, 1.0);
  }

  lemma SquareOfProduct(x: real, y: real)
    ensures Square(x * y) == Square(x) * Square(y)
  {
  }

  /** Half the angle of (d, z) is the angle of (d + h, z) where h is the length of (d, z). */
  lemma HalfAngle(m: Ellipsoid, d: real, z: real, h: real)
    requires m.Lawful() && 0.0 <= d && 0.0 < h && Square(h) == Square(d) + Square(z)
    ensures var angle := Doubled(Atan2(m, z, d + h)); Ratio(d, h, angle.cos) && Ratio(z, h, angle.sin)
  {
    hide Square, Hypot, Doubled, Atan2, Ratio, Ellipsoid.Lawful;
    var x := d + h;
    HypotFacts(m, x, z);
    Atan2Ratios(m, x, z, Hypot(m, x, z));
    DoubledRatios(d, z, h, Hypot(m, x, z), Atan2(m, z, x));
  }

  lemma DoubledRatios(d: real, z: real, h: real, l: real, half: Direction)
    requires 0.0 <= d && 0.0 < h && Square(h) == Square(d) + Square(z) && Square(l) == Square(d + h) + Square(z)
    requires Ratio(d + h, l, half.cos) && Ratio(z, l, half.sin)
    ensures Ratio(d, h, Doubled(half).cos) && Ratio(z, h, Doubled(half).sin)
  {
    hide Square;
    var x := d + h;
    LengthIdentities(d, z, h, x, l);
    SquareOfQuotient(x, l, half.cos);
    SquareOfQuotient(z, l, half.sin);
    DoubledCosine(Square(half.cos), Square(half.sin), Square(l), Square(x), Square(z), d, h, x);
    QuotientProduct(x, z, l, half);
    DoubledSine(half.cos * half.sin, Square(l), z, h, x);
  }

  lemma LengthIdentities(d: real, z: real, h: real, x: real, l: real)
    requires Square(h) == Square(d) + Square(z) && x == d + h && Square(l) == Square(x) + Square(z)
    ensures Square(x) - Square(z) == 2.0 * d * x && Square(l) == 2.0 * h * x
  {
  }

  lemma QuotientProduct(x: real, z: real, l: real, half: Direction)
    requires Ratio(x, l, half.cos) && Ratio(z, l, half.sin)
    ensures half.cos * half.sin * Square(l) == x * z
  {
    assert half.cos * half.sin * Square(l) == (half.cos * l) * (half.sin * l);
  }

  lemma DoubledCosine(a: real, b: real, l: real, xx: real, zz: real, d: real, h: real, x: real)
    requires a * l == xx && b * l == zz && xx - zz == 2.0 * d * x && l == 2.0 * h * x && 0.0 < x && 0.0 < h
    ensures Ratio(d, h, a - b)
  {
    assert 2.0 * x * ((a - b) * h) == (a - b) * l == 2.0 * x * d;
    Cancel(2.0 * x, (a - b) * h, d);
  }

  lemma DoubledSine(ab: real, l: real, z: real, h: real, x: real)
    requires ab * l == x * z && l == 2.0 * h * x && 0.0 < x && 0.0 < h
    ensures Ratio(z, h, 2.0 * ab)
  {
    assert x * (2.0 * ab * h) == ab * l == x * z;
    Cancel(x, 2.0 * ab * h, z);
  }

  // ----- from Earth-centred to geodetic and back -----

  lemma FootFacts(m: Ellipsoid, point: Ecef, k: real)
    requires m.Lawful() && 0.0 < k
    ensures 0.0 <= FootDistance(m, point, k)
    ensures FootDistance(m, point, k) * (k + m.e2) == k * Hypot(m, point.x, point.y)
    ensures 0.0 <= Meridional(m, point, k)
    ensures Square(Meridional(m, point, k)) == Square(FootDistance(m, point, k)) + Square(point.z)
  {
    EccentricityIsSmall(m);
    HypotFacts(m, point.x, point.y);
    HypotFacts(m, FootDistance(m, point, k), point.z);
    ScaledDown(k, m.e2, Hypot(m, point.x, point.y), FootDistance(m, point, k));
  }

  /** The recovered latitude is the direction of (d, z), at a pole as elsewhere. */
  lemma RecoveredLatitude(m: Ellipsoid, point: Ecef, k: real)
    requires m.Lawful() && 0.0 < k && 0.0 < Meridional(m, point, k)
    ensures Ratio(FootDistance(m, point, k), Meridional(m, point, k), Recovered(m, point, k).latitude.cos)
    ensures Ratio(point.z, Meridional(m, point, k), Recovered(m, point, k).latitude.sin)
    ensures Recovered(m, point, k).latitude.Latitude()
  {
    hide Meridional, FootDistance, Hypot, Doubled, Atan2, Ratio, Ellipsoid.Lawful;
    var d, h := FootDistance(m, point, k), Meridional(m, point, k);
    var latitude := Recovered(m, point, k).latitude;
    EccentricityIsSmall(m);
    FootFacts(m, point, k);
    if Hypot(m, point.x, point.y) == 0.0 {
      PoleDirection(k + m.e2, d, point.z, h, latitude);
    } else {
      HalfAngle(m, d, point.z, h);
    }
    Normalised(d, point.z, h, latitude);
    RatioSign(d, h, latitude.cos);
  }

  lemma PoleDirection(scale: real, d: real, z: real, h: real, latitude: Direction)
    requires 0.0 < scale && d * scale == 0.0 && 0.0 < h && Square(h) == Square(d) + Square(z)
    requires latitude == Direction(0.0, if z < 0.0 then -1.0 else 1.0)
    ensures Ratio(d, h, latitude.cos) && Ratio(z, h, latitude.sin)
  {
    Cancel(scale, d, 0.0);
    var size := if z < 0.0 then -z else z;
    assert Square(z) == Square(size);
    SquareInjective(h, size);
  }

  lemma RatioSign(n: real, d: real, x: real)
    requires Ratio(n, d, x) && 0.0 <= n
    ensures 0.0 <= x
  {
  }

  lemma ScaledDown(k: real, e2: real, equatorial: real, d: real)
    requires 0.0 < k && 0.0 < e2 && 0.0 <= equatorial && d == k * equatorial / (k + e2)
    ensures 0.0 <= d && d * (k + e2) == k * equatorial
  {
    var n := k * equatorial;
    assert 0.0 <= n;
  }

  predicate Product(x: real, y: real, xy: real) {
    x * y == xy
  }

  predicate EqualProducts(x: real, y: real, u: real, v: real) {
    x * y == u * v
  }

  /** The shape equation of squares: kk of k, and l of k + e2. */
  predicate OnShapeSquares(p: real, q: real, kk: real, l: real) {
    p * kk + q * l == kk * l
  }

  /** d^2 + (1 - e2) z^2 == a^2 k^2, of squares. */
  predicate OnEllipse(aa: real, e2: real, dd: real, zz: real, kk: real) {
    dd + (1.0 - e2) * zz == aa * kk
  }

  lemma MeridionalEllipse(aa: real, e2: real, p: real, q: real, dd: real, zz: real, ee: real, l: real, kk: real)
    requires 0.0 < aa && 0.0 < l
    requires Product(p, aa, ee) && EqualProducts(q, aa, 1.0 - e2, zz)
    requires EqualProducts(dd, l, kk, ee) && OnShapeSquares(p, q, kk, l)
    ensures OnEllipse(aa, e2, dd, zz, kk)
  {
    calc {
      l * (dd + (1.0 - e2) * zz);
      dd * l + l * ((1.0 - e2) * zz);
      kk * (p * aa) + l * (q * aa);
      aa * (p * kk + q * l);
      aa * (kk * l);
      l * (aa * kk);
    }
    Cancel(l, dd + (1.0 - e2) * zz, aa * kk);
  }

  lemma ShapeTimesAxis(m: Ellipsoid, point: Ecef)
    requires m.Lawful()
    ensures Product(EquatorialShape(m, point), Square(m.a), Square(point.x) + Square(point.y))
    ensures EqualProducts(PolarShape(m, point), Square(m.a), 1.0 - m.e2, Square(point.z))
    ensures 0.0 < Square(m.a)
  {
    SquarePositive(m.a);
  }

  lemma ShapeEquation(e2: real, p: real, q: real, k: real)
    requires OnShape(e2, p, q, k)
    ensures OnShapeSquares(p, q, Square(k), Square(k + e2))
  {
  }

  lemma FootSquares(m: Ellipsoid, point: Ecef, k: real)
    requires m.Lawful() && 0.0 < k
    ensures EqualProducts(Square(FootDistance(m, point, k)), Square(k + m.e2),
                          Square(k), Square(point.x) + Square(point.y))
  {
    hide FootDistance, Hypot, Square, Ellipsoid.Lawful;
    FootScaled(m, point, k);
    HypotFacts(m, point.x, point.y);
    ScaledSquares(m.e2, k, FootDistance(m, point, k), Hypot(m, point.x, point.y));
  }

  lemma ScaledSquares(e2: real, k: real, d: real, equatorial: real)
    requires Scaled(e2, k, d, equatorial)
    ensures EqualProducts(Square(d), Square(k + e2), Square(k), Square(equatorial))
  {
    SquareOfProduct(d, k + e2);
    SquareOfProduct(k, equatorial);
  }

  /** With k on the shape, the foot distance and the height satisfy the equation of an ellipse of axis a k. */
  lemma FootEllipse(m: Ellipsoid, point: Ecef, k: real)
    requires m.Lawful() && OnShape(m.e2, EquatorialShape(m, point), PolarShape(m, point), k)
    ensures OnEllipse(Square(m.a), m.e2, Square(FootDistance(m, point, k)), Square(point.z), Square(k))
  {
    EccentricityIsSmall(m);
    assert 0.0 < k;
    hide *;
    ShapeEquation(m.e2, EquatorialShape(m, point), PolarShape(m, point), k);
    FootSquares(m, point, k);
    ShapeTimesAxis(m, point);
    SquarePositive(k + m.e2);
    MeridionalEllipse(Square(m.a), m.e2, EquatorialShape(m, point), PolarShape(m, point),
                      Square(FootDistance(m, point, k)), Square(point.z), Square(point.x) + Square(point.y),
                      Square(k + m.e2), Square(k));
  }

  lemma MeridionalPositive(m: Ellipsoid, point: Ecef, k: real)
    requires m.Lawful() && OnShape(m.e2, EquatorialShape(m, point), PolarShape(m, point), k)
    ensures 0.0 < Meridional(m, point, k)
  {
    assert 0.0 < k;
    EccentricityIsSmall(m);
    hide *;
    FootEllipse(m, point, k);
    MeridionalSquare(m, point, k);
    MeridionalNonnegative(m, point, k);
    SquarePositive(k);
    SquarePositive(m.a);
    PositiveLength(Square(m.a), m.e2, Square(FootDistance(m, point, k)), Square(point.z), Square(k),
                   Meridional(m, point, k));
  }

  lemma PositiveLength(aa: real, e2: real, dd: real, zz: real, kk: real, h: real)
    requires 0.0 < aa && 0.0 < kk && OnEllipse(aa, e2, dd, zz, kk)
    requires 0.0 < e2 < 1.0 && 0.0 <= dd && 0.0 <= zz
    requires 0.0 <= h && Square(h) == dd + zz
    ensures 0.0 < h
  {
    PositiveProduct(aa, kk, aa * kk);
    assert 0.0 <= e2 * zz;
  }

  /** The prime vertical of the recovered latitude is meridional / k. */
  lemma RecoveredPrimeVertical(m: Ellipsoid, point: Ecef, k: real, latitude: Direction)
    requires m.Lawful() && OnShape(m.e2, EquatorialShape(m, point), PolarShape(m, point), k)
    requires latitude.Unit() && 0.0 < Meridional(m, point, k)
    requires Ratio(point.z, Meridional(m, point, k), latitude.sin)
    ensures Ratio(Meridional(m, point, k), k, PrimeVertical(m, latitude))
  {
    assert 0.0 < k;
    hide *;
    EllipseRadius(m, point, k, latitude);
    RootOfSquares(PrimeVertical(m, latitude), k, Meridional(m, point, k));
  }

  lemma EllipseRadius(m: Ellipsoid, point: Ecef, k: real, latitude: Direction)
    requires m.Lawful() && OnShape(m.e2, EquatorialShape(m, point), PolarShape(m, point), k)
    requires latitude.Unit() && 0.0 < Meridional(m, point, k)
    requires Ratio(point.z, Meridional(m, point, k), latitude.sin)
    ensures Product(Square(PrimeVertical(m, latitude)), Square(k), Square(Meridional(m, point, k)))
  {
    EccentricityIsSmall(m);
    UnitParts(latitude);
    assert 0.0 < k;
    hide *;
    var h := Meridional(m, point, k);
    UnderRoot(m.e2, latitude.cos, latitude.sin);
    SquareOfQuotient(point.z, h, latitude.sin);
    MeridionalSquare(m, point, k);
    FootEllipse(m, point, k);
    PrimeVerticalSquared(m, latitude);
    SquareOfPrimeVertical(Square(m.a), m.e2, Square(PrimeVertical(m, latitude)),
                          Square(latitude.sin), Square(h), Square(k), Square(FootDistance(m, point, k)),
                          Square(point.z));
  }

  lemma PrimeVerticalSquared(m: Ellipsoid, latitude: Direction)
    requires m.Lawful() && latitude.Unit()
    ensures Product(Square(PrimeVertical(m, latitude)), 1.0 - m.e2 * Square(latitude.sin), Square(m.a))
  {
  }

  lemma MeridionalSquare(m: Ellipsoid, point: Ecef, k: real)
    requires m.Lawful() && 0.0 < k
    ensures Square(Meridional(m, point, k)) == Square(FootDistance(m, point, k)) + Square(point.z)
  {
    FootFacts(m, point, k);
  }

  lemma SquareOfQuotient(z: real, h: real, f: real)
    requires Ratio(z, h, f)
    ensures Product(Square(f), Square(h), Square(z))
  {
    SquareOfProduct(f, h);
  }

  lemma RootOfSquares(n: real, k: real, h: real)
    requires 0.0 < n && 0.0 < k && 0.0 < h && Product(Square(n), Square(k), Square(h))
    ensures Ratio(h, k, n)
  {
    PositiveProduct(n, k, n * k);
    SquareOfProduct(n, k);
    SquareInjective(n * k, h);
  }

  lemma UnitParts(d: Direction)
    requires d.Unit()
    ensures Square(d.cos) + Square(d.sin) == 1.0
  {
  }

  lemma SquareOfPrimeVertical(aa: real, e2: real, nn: real, ss: real, hh: real, kk: real, dd: real, zz: real)
    requires Product(nn, 1.0 - e2 * ss, aa) && 0.0 < 1.0 - e2 * ss
    requires hh == dd + zz && Product(ss, hh, zz)
    requires OnEllipse(aa, e2, dd, zz, kk)
    ensures Product(nn, kk, hh)
  {
    var under := 1.0 - e2 * ss;
    assert under * hh == hh - e2 * (ss * hh);
    assert under * (nn * kk) == (nn * under) * kk;
    Cancel(under, nn * kk, hh);
  }

  lemma RecoveredAltitude(m: Ellipsoid, point: Ecef, k: real)
    requires m.Lawful() && 0.0 < k
    ensures Rises(m.e2, k, Meridional(m, point, k), Recovered(m, point, k).altitude)
  {
    hide Meridional, Hypot, Doubled, Atan2;
    var f := (k + m.e2 - 1.0) / k;
    assert f * k == k + m.e2 - 1.0;
    AltitudeTimes(m.e2, k, Meridional(m, point, k), Recovered(m, point, k).altitude, f);
  }

  /** The altitude belongs to the root k and the meridional length h. */
  predicate Rises(e2: real, k: real, h: real, altitude: real) {
    altitude * k == (k + e2 - 1.0) * h
  }

  lemma AltitudeTimes(e2: real, k: real, h: real, altitude: real, f: real)
    requires f * k == k + e2 - 1.0 && altitude == f * h
    ensures Rises(e2, k, h, altitude)
  {
    assert altitude * k == (f * k) * h;
  }

  /** A position of prime vertical n at equatorial distance and height z, with 1 + altitude / n == k + e2. */
  predicate Reaches(e2: real, k: real, n: real, g: Geodetic, equatorial: real, z: real) {
    && (n + g.altitude) * g.latitude.cos == equatorial
    && (n * (1.0 - e2) + g.altitude) * g.latitude.sin == z
    && g.altitude == (k + e2 - 1.0) * n
  }

  /** The recovered position has the equatorial distance and the height it was recovered from. */
  lemma RecoveredLengths(m: Ellipsoid, point: Ecef, k: real, g: Geodetic)
    requires m.Lawful() && OnShape(m.e2, EquatorialShape(m, point), PolarShape(m, point), k)
    requires g.latitude.Unit() && g == Recovered(m, point, k)
    ensures Reaches(m.e2, k, PrimeVertical(m, g.latitude), g, Hypot(m, point.x, point.y), point.z)
  {
    assert 0.0 < k;
    hide *;
    FootScaled(m, point, k);
    MeridionalPositive(m, point, k);
    RecoveredLatitude(m, point, k);
    RecoveredPrimeVertical(m, point, k, g.latitude);
    RecoveredAltitude(m, point, k);
    LengthsFromRoot(m.e2, k, PrimeVertical(m, g.latitude), g,
                    FootDistance(m, point, k), Meridional(m, point, k), point.z, Hypot(m, point.x, point.y));
  }

  predicate Scaled(e2: real, k: real, d: real, equatorial: real) {
    d * (k + e2) == k * equatorial
  }

  lemma FootScaled(m: Ellipsoid, point: Ecef, k: real)
    requires m.Lawful() && 0.0 < k
    ensures Scaled(m.e2, k, FootDistance(m, point, k), Hypot(m, point.x, point.y))
  {
    FootFacts(m, point, k);
  }

  lemma LengthsFromRoot(e2: real, k: real, n: real, g: Geodetic, d: real, h: real, z: real, equatorial: real)
    requires Ratio(h, k, n) && Rises(e2, k, h, g.altitude) && Scaled(e2, k, d, equatorial)
    requires Ratio(d, h, g.latitude.cos) && Ratio(z, h, g.latitude.sin)
    ensures Reaches(e2, k, n, g, equatorial, z)
  {
    var cos, sin, altitude := g.latitude.cos, g.latitude.sin, g.altitude;
    assert k * altitude == k * ((k + e2 - 1.0) * n);
    Cancel(k, altitude, (k + e2 - 1.0) * n);
    assert (n * (1.0 - e2) + altitude) * sin == (n * k) * sin;
    assert k * ((n + altitude) * cos) == (k + e2) * (n * k * cos) == k * equatorial;
    Cancel(k, (n + altitude) * cos, equatorial);
  }

  /** The direction of a vector, stretched by its length, restores the vector. */
  lemma Atan2Ratios(m: Ellipsoid, x: real, y: real, h: real)
    requires m.Lawful() && h == Hypot(m, x, y) && h != 0.0
    ensures Ratio(x, h, Atan2(m, y, x).cos) && Ratio(y, h, Atan2(m, y, x).sin)
  {
  }

  lemma Atan2Unit(m: Ellipsoid, x: real, y: real)
    requires m.Lawful()
    ensures Atan2(m, y, x).Unit()
  {
    var h := Hypot(m, x, y);
    HypotFacts(m, x, y);
    if h != 0.0 {
      Atan2Ratios(m, x, y, h);
      Normalised(x, y, h, Atan2(m, y, x));
    }
  }

  lemma RecoveredLongitude(m: Ellipsoid, point: Ecef, k: real)
    requires m.Lawful() && 0.0 < k
    ensures Recovered(m, point, k).longitude.Unit()
    ensures Recovered(m, point, k).longitude
            == if Hypot(m, point.x, point.y) == 0.0 then ZERO_ANGLE else Atan2(m, point.y, point.x)
  {
    Atan2Unit(m, point.x, point.y);
  }

  /** A position on the polar axis, and only such a position, is recovered as a pole. */
  lemma RecoveredPole(m: Ellipsoid, point: Ecef, k: real)
    requires m.Lawful() && OnShape(m.e2, EquatorialShape(m, point), PolarShape(m, point), k)
    ensures Recovered(m, point, k).latitude.Latitude()
    ensures Recovered(m, point, k).AtPole() <==> Hypot(m, point.x, point.y) == 0.0
  {
    MeridionalPositive(m, point, k);
    FootFacts(m, point, k);
    RecoveredLatitude(m, point, k);
    EccentricityIsSmall(m);
    var d, h, equatorial := FootDistance(m, point, k), Meridional(m, point, k), Hypot(m, point.x, point.y);
    HypotFacts(m, point.x, point.y);
    if equatorial != 0.0 {
      PositiveProduct(k, equatorial, k * equatorial);
      assert d != 0.0;
    }
  }

  /**
   Every Earth-centred point outside the degenerate region, the polar axis included, has geodetic coordinates
   that convert back to it exactly.
   */
  lemma EcefRoundTrip(m: Ellipsoid, point: Ecef)
    requires m.Lawful() && EcefToGeodetic(m, point).Some?
    ensures EcefToGeodetic(m, point).value.Valid()
    ensures GeodeticToEcef(m, EcefToGeodetic(m, point).value) == point
  {
    hide Recovered, Hypot, EquatorialShape, PolarShape, PrimeVertical, FootDistance, Meridional, PointRoot, Atan2,
      GeodeticToEcef, Reaches, Degenerate, Square, Ellipsoid.Lawful;
    var k := PointRoot(m, point);
    RecoveredPole(m, point, k);
    RecoveredLengths(m, point, k, Recovered(m, point, k));
    RecoveredLongitude(m, point, k);
    HypotFacts(m, point.x, point.y);
    if Hypot(m, point.x, point.y) != 0.0 {
      Atan2Ratios(m, point.x, point.y, Hypot(m, point.x, point.y));
    }
    SamePoint(m, Recovered(m, point, k), point, Hypot(m, point.x, point.y), k);
  }

  lemma SamePoint(m: Ellipsoid, g: Geodetic, point: Ecef, equatorial: real, k: real)
    requires m.Lawful() && g.Valid()
    requires Reaches(m.e2, k, PrimeVertical(m, g.latitude), g, equatorial, point.z)
    requires g.AtPole() ==> point.x == point.y == 0.0
    requires equatorial * g.longitude.cos == point.x && equatorial * g.longitude.sin == point.y
    ensures GeodeticToEcef(m, g) == point
  {
    hide PrimeVertical, Square, Ellipsoid.Lawful;
  }

  // ----- from geodetic to Earth-centred and back -----

  /** The root k that belongs to given coordinates: 1 + altitude / n == k + e2. */
  function CoordinateRoot(m: Ellipsoid, g: Geodetic): real
    requires m.Lawful() && g.Valid()
  {
    var n := PrimeVertical(m, g.latitude);
    (n * (1.0 - m.e2) + g.altitude) / n
  }

  lemma CoordinateRootFacts(m: Ellipsoid, g: Geodetic)
    requires m.Lawful() && g.Valid()
    ensures var (n, k) := (PrimeVertical(m, g.latitude), CoordinateRoot(m, g));
            && m.a <= n
            && Square(n) * (1.0 - m.e2 * Square(g.latitude.sin)) == Square(m.a)
            && g.altitude == (k + m.e2 - 1.0) * n
  {
    hide Square;
    var n, k := PrimeVertical(m, g.latitude), CoordinateRoot(m, g);
    var z := n * (1.0 - m.e2) + g.altitude;
    assert k == z / n;
    RatioTimes(z, n, k);
    assert (k + m.e2 - 1.0) * n == k * n + m.e2 * n - n;
  }

  lemma RatioTimes(z: real, n: real, k: real)
    requires 0.0 < n && k == z / n
    ensures k * n == z
  {
  }

  /** The equatorial distance and the height of given coordinates, through their root. */
  function EquatorialReach(m: Ellipsoid, g: Geodetic): real
    requires m.Lawful() && g.Valid()
  {
    (CoordinateRoot(m, g) + m.e2) * PrimeVertical(m, g.latitude) * g.latitude.cos
  }

  function PolarReach(m: Ellipsoid, g: Geodetic): real
    requires m.Lawful() && g.Valid()
  {
    CoordinateRoot(m, g) * PrimeVertical(m, g.latitude) * g.latitude.sin
  }

  lemma ImagePoint(m: Ellipsoid, g: Geodetic)
    requires m.Lawful() && g.Valid()
    ensures var equatorial := EquatorialReach(m, g);
            GeodeticToEcef(m, g) == Ecef(equatorial * g.longitude.cos, equatorial * g.longitude.sin, PolarReach(m, g))
  {
    hide PrimeVertical, CoordinateRoot, Ellipsoid.Lawful, Square;
    var n, k, e2 := PrimeVertical(m, g.latitude), CoordinateRoot(m, g), m.e2;
    CoordinateRootFacts(m, g);
    assert n + g.altitude == (k + e2) * n;
    assert n * (1.0 - e2) + g.altitude == k * n;
  }

  predicate Triple(x: real, y: real, z: real, xyz: real) {
    xyz == x * y * z
  }

  lemma ReachTriples(m: Ellipsoid, g: Geodetic)
    requires m.Lawful() && g.Valid()
    ensures var (n, k) := (PrimeVertical(m, g.latitude), CoordinateRoot(m, g));
            && Triple(k + m.e2, n, g.latitude.cos, EquatorialReach(m, g))
            && Triple(k, n, g.latitude.sin, PolarReach(m, g))
  {
    hide PrimeVertical, CoordinateRoot, Ellipsoid.Lawful, Square;
  }

  lemma ImageLengths(m: Ellipsoid, g: Geodetic)
    requires m.Lawful() && g.Valid()
    ensures var (n, k, point) := (PrimeVertical(m, g.latitude), CoordinateRoot(m, g), GeodeticToEcef(m, g));
            && Triple(Square(k + m.e2), Square(n), Square(g.latitude.cos), Square(point.x) + Square(point.y))
            && Triple(Square(k), Square(n), Square(g.latitude.sin), Square(point.z))
  {
    assert g.latitude.Unit();
    hide *;
    var n, k := PrimeVertical(m, g.latitude), CoordinateRoot(m, g);
    ReachTriples(m, g);
    TripleSquare(k + m.e2, n, g.latitude.cos, EquatorialReach(m, g));
    TripleSquare(k, n, g.latitude.sin, PolarReach(m, g));
    ImageSquares(m, g);
  }

  lemma ImageSquares(m: Ellipsoid, g: Geodetic)
    requires m.Lawful() && g.Valid()
    ensures var point := GeodeticToEcef(m, g);
            && Square(point.x) + Square(point.y) == Square(EquatorialReach(m, g))
            && Square(point.z) == Square(PolarReach(m, g))
  {
    UnitParts(g.longitude);
    hide *;
    ImagePoint(m, g);
    SplitSquares(EquatorialReach(m, g), g.longitude.cos, g.longitude.sin);
  }

  lemma SplitSquares(x: real, cos: real, sin: real)
    requires Square(cos) + Square(sin) == 1.0
    ensures Square(x * cos) + Square(x * sin) == Square(x)
  {
    SquareOfProduct(x, cos);
    SquareOfProduct(x, sin);
    assert Square(x) * Square(cos) + Square(x) * Square(sin) == Square(x) * (Square(cos) + Square(sin));
  }

  lemma TripleSquare(x: real, y: real, z: real, xyz: real)
    requires Triple(x, y, z, xyz)
    ensures Triple(Square(x), Square(y), Square(z), Square(xyz))
  {
  }

  /** Valid coordinates lie on the shape of their image, with their own root. */
  lemma ImageOnShape(m: Ellipsoid, g: Geodetic)
    requires m.Lawful() && g.Valid()
    requires 0.0 < CoordinateRoot(m, g)
    ensures var point := GeodeticToEcef(m, g);
            OnShape(m.e2, EquatorialShape(m, point), PolarShape(m, point), CoordinateRoot(m, g))
  {
    assert g.latitude.Unit();
    UnitParts(g.latitude);
    hide *;
    var n, k, point := PrimeVertical(m, g.latitude), CoordinateRoot(m, g), GeodeticToEcef(m, g);
    PrimeVerticalSquared(m, g.latitude);
    ImageLengths(m, g);
    ShapeTimesAxis(m, point);
    ShapeOfImage(Square(m.a), m.e2, Square(n), Square(g.latitude.cos), Square(g.latitude.sin), Square(k),
                 Square(k + m.e2), EquatorialShape(m, point), PolarShape(m, point),
                 Square(point.x) + Square(point.y), Square(point.z));
    ShapeFromSquares(m.e2, EquatorialShape(m, point), PolarShape(m, point), k);
  }

  lemma ShapeFromSquares(e2: real, p: real, q: real, k: real)
    requires 0.0 < k && OnShapeSquares(p, q, Square(k), Square(k + e2))
    ensures OnShape(e2, p, q, k)
  {
  }

  lemma ShapeOfImage(aa: real, e2: real, nn: real, cc: real, ss: real, kk: real, l: real, p: real, q: real,
                     ee: real, zz: real)
    requires 0.0 < aa && cc + ss == 1.0 && Product(nn, 1.0 - e2 * ss, aa)
    requires Product(p, aa, ee) && EqualProducts(q, aa, 1.0 - e2, zz)
    requires Triple(l, nn, cc, ee) && Triple(kk, nn, ss, zz)
    ensures OnShapeSquares(p, q, kk, l)
  {
    calc {
      aa * (p * kk + q * l);
      (p * aa) * kk + (q * aa) * l;
      l * (nn * cc) * kk + (1.0 - e2) * (kk * (nn * ss)) * l;
      (kk * l) * (nn * (cc + (1.0 - e2) * ss));
      { assert cc + (1.0 - e2) * ss == 1.0 - e2 * ss; }
      (kk * l) * aa;
    }
    Cancel(aa, p * kk + q * l, kk * l);
  }

  /** Above the inner limit the image of valid coordinates is never refused. */
  lemma ImageAccepted(m: Ellipsoid, g: Geodetic)
    requires m.Lawful() && g.Valid()
    requires m.e2 < CoordinateRoot(m, g)
    ensures !Degenerate(m, GeodeticToEcef(m, g))
  {
    EccentricityIsSmall(m);
    ImageOnShape(m, g);
    var point, k, e2 := GeodeticToEcef(m, g), CoordinateRoot(m, g), m.e2;
    hide PrimeVertical, CoordinateRoot, GeodeticToEcef, Square, Degenerate, EquatorialShape,
      PolarShape, Ellipsoid.Lawful;
    DegenerateIffInner(m, point);
    ShapesNonnegative(m, point);
    SquareMonotone(e2, k);
    SquareMonotone(e2, k + e2);
    OutsideInner(Square(e2), Square(k), Square(k + e2), EquatorialShape(m, point), PolarShape(m, point));
  }

  lemma OutsideInner(e4: real, kk: real, l: real, p: real, q: real)
    requires 0.0 < e4 < kk && e4 < l && 0.0 <= p && 0.0 <= q
    requires p * kk + q * l == kk * l
    ensures e4 < p + q
  {
    var (x, y) := (p / l, q / kk);
    SumOfQuotients(p, q, kk, l);
    assert p == x * l && q == y * kk;
    assert 0.0 <= x && 0.0 <= y;
    assert x * (l - e4) + y * (kk - e4) == p + q - e4 * (x + y);
    ProductNonnegative(x, l - e4);
    ProductNonnegative(y, kk - e4);
    if x == 0.0 {
      PositiveProduct(y, kk - e4, y * (kk - e4));
    } else {
      PositiveProduct(x, l - e4, x * (l - e4));
    }
  }

  /** The equatorial distance of the image, without its sign. */
  lemma ImageHypot(m: Ellipsoid, g: Geodetic)
    requires m.Lawful() && g.Valid() && 0.0 < CoordinateRoot(m, g)
    ensures 0.0 <= EquatorialReach(m, g)
    ensures EquatorialReach(m, g) == 0.0 <==> g.AtPole()
    ensures var point := GeodeticToEcef(m, g); Hypot(m, point.x, point.y) == EquatorialReach(m, g)
  {
    ReachSigned(m, g);
    hide PrimeVertical, CoordinateRoot, Ellipsoid.Lawful, Square, GeodeticToEcef, EquatorialReach;
    ImageSquares(m, g);
    RootOfSquare(m, EquatorialReach(m, g), Square(EquatorialReach(m, g)));
  }

  lemma ReachSigned(m: Ellipsoid, g: Geodetic)
    requires m.Lawful() && g.Valid() && 0.0 < CoordinateRoot(m, g)
    ensures 0.0 <= EquatorialReach(m, g)
    ensures EquatorialReach(m, g) == 0.0 <==> g.AtPole()
  {
    EccentricityIsSmall(m);
    hide PrimeVertical, CoordinateRoot, Ellipsoid.Lawful, Square;
    ReachSign(CoordinateRoot(m, g) + m.e2, PrimeVertical(m, g.latitude), g.latitude.cos,
              EquatorialReach(m, g));
  }

  lemma ReachSign(scale: real, n: real, cos: real, reach: real)
    requires 0.0 < scale && 0.0 < n && 0.0 <= cos && reach == scale * n * cos
    ensures 0.0 <= reach && (reach == 0.0 <==> cos == 0.0)
  {
    PositiveProduct(scale, n, scale * n);
    ProductNonnegative(scale * n, cos);
    if cos != 0.0 {
      PositiveProduct(scale * n, cos, reach);
    }
  }

  /** The lengths of the closed form at the image: h == k n, with d and z along the latitude. */
  lemma ImageMeridional(m: Ellipsoid, g: Geodetic)
    requires m.Lawful() && g.Valid() && 0.0 < CoordinateRoot(m, g)
    ensures var (k, n, point) := (CoordinateRoot(m, g), PrimeVertical(m, g.latitude), GeodeticToEcef(m, g));
            var h := Meridional(m, point, k);
            && Ratio(h, k, n)
            && Ratio(FootDistance(m, point, k), h, g.latitude.cos)
            && Ratio(point.z, h, g.latitude.sin)
  {
    assert g.latitude.Unit();
    UnitParts(g.latitude);
    EccentricityIsSmall(m);
    hide *;
    var k, n, point := CoordinateRoot(m, g), PrimeVertical(m, g.latitude), GeodeticToEcef(m, g);
    ImageHypot(m, g);
    ImageHeight(m, g);
    ReachTriples(m, g);
    FootScaled(m, point, k);
    MeridionalSquare(m, point, k);
    MeridionalNonnegative(m, point, k);
    LengthsAlong(m.e2, k, n, FootDistance(m, point, k), Hypot(m, point.x, point.y), Meridional(m, point, k), point.z,
                 g.latitude);
  }

  lemma ImageHeight(m: Ellipsoid, g: Geodetic)
    requires m.Lawful() && g.Valid()
    ensures GeodeticToEcef(m, g).z == PolarReach(m, g)
  {
    hide *;
    ImagePoint(m, g);
  }

  lemma MeridionalNonnegative(m: Ellipsoid, point: Ecef, k: real)
    requires m.Lawful() && 0.0 < k
    ensures 0.0 <= Meridional(m, point, k)
  {
    FootFacts(m, point, k);
  }

  lemma LengthsAlong(e2: real, k: real, n: real, d: real, equatorial: real, h: real, z: real, direction: Direction)
    requires 0.0 < e2 && 0.0 < k && 0.0 < n && 0.0 <= h
    requires Triple(k + e2, n, direction.cos, equatorial) && Triple(k, n, direction.sin, z)
    requires Scaled(e2, k, d, equatorial) && Square(h) == Square(d) + Square(z)
    requires Square(direction.cos) + Square(direction.sin) == 1.0
    ensures Ratio(h, k, n) && Ratio(d, h, direction.cos) && Ratio(z, h, direction.sin)
  {
    hide *;
    FootAlong(e2, k, n, d, equatorial, direction.cos);
    LengthOfMultiple(k, n, h, d, z, direction);
    RatiosOfMultiple(k, n, h, d, z, direction);
  }

  lemma FootAlong(e2: real, k: real, n: real, d: real, equatorial: real, cos: real)
    requires 0.0 < e2 && 0.0 < k && Triple(k + e2, n, cos, equatorial) && Scaled(e2, k, d, equatorial)
    ensures Triple(k, n, cos, d)
  {
    assert (k + e2) * d == (k + e2) * (k * n * cos);
    Cancel(k + e2, d, k * n * cos);
  }

  lemma LengthOfMultiple(k: real, n: real, h: real, d: real, z: real, direction: Direction)
    requires 0.0 < k && 0.0 < n && 0.0 <= h && Square(h) == Square(d) + Square(z)
    requires Triple(k, n, direction.cos, d) && Triple(k, n, direction.sin, z)
    requires Square(direction.cos) + Square(direction.sin) == 1.0
    ensures 0.0 < h && Product(k, n, h)
  {
    PositiveProduct(k, n, k * n);
    SplitSquares(k * n, direction.cos, direction.sin);
    SquareInjective(h, k * n);
  }

  lemma RatiosOfMultiple(k: real, n: real, h: real, d: real, z: real, direction: Direction)
    requires 0.0 < k && 0.0 < h && Product(k, n, h)
    requires Triple(k, n, direction.cos, d) && Triple(k, n, direction.sin, z)
    ensures Ratio(h, k, n) && Ratio(d, h, direction.cos) && Ratio(z, h, direction.sin)
  {
  }

  lemma RatioUnique(n: real, d: real, x: real, y: real)
    requires Ratio(n, d, x) && Ratio(n, d, y)
    ensures x == y
  {
    Cancel(d, x, y);
  }

  lemma ImageAltitude(m: Ellipsoid, g: Geodetic)
    requires m.Lawful() && g.Valid() && 0.0 < CoordinateRoot(m, g)
    ensures Recovered(m, GeodeticToEcef(m, g), CoordinateRoot(m, g)).altitude == g.altitude
  {
    hide PrimeVertical, CoordinateRoot, Ellipsoid.Lawful, Square, GeodeticToEcef, Meridional,
      FootDistance, Recovered;
    var k, n, point, e2 := CoordinateRoot(m, g), PrimeVertical(m, g.latitude), GeodeticToEcef(m, g), m.e2;
    ImageMeridional(m, g);
    RecoveredAltitude(m, point, k);
    CoordinateRootFacts(m, g);
    SameAltitude(e2, k, n, Meridional(m, point, k), Recovered(m, point, k).altitude, g.altitude);
  }

  lemma SameAltitude(e2: real, k: real, n: real, h: real, altitude: real, original: real)
    requires Ratio(h, k, n) && Rises(e2, k, h, altitude) && original == (k + e2 - 1.0) * n
    ensures altitude == original
  {
    assert k * altitude == k * original;
    Cancel(k, altitude, original);
  }

  lemma ImageLongitude(m: Ellipsoid, g: Geodetic)
    requires m.Lawful() && g.Valid() && 0.0 < CoordinateRoot(m, g)
    ensures Recovered(m, GeodeticToEcef(m, g), CoordinateRoot(m, g)).longitude == g.Canonical().longitude
  {
    hide PrimeVertical, CoordinateRoot, Ellipsoid.Lawful, Square, GeodeticToEcef, Hypot, EquatorialReach, PolarReach,
      Recovered, Atan2;
    var k, point := CoordinateRoot(m, g), GeodeticToEcef(m, g);
    ImageHypot(m, g);
    ImagePoint(m, g);
    RecoveredLongitude(m, point, k);
    if !g.AtPole() {
      Atan2Ratios(m, point.x, point.y, EquatorialReach(m, g));
      SameDirection(EquatorialReach(m, g), Recovered(m, point, k).longitude, g.longitude, point.x, point.y);
    }
  }

  lemma SameDirection(length: real, a: Direction, b: Direction, x: real, y: real)
    requires length != 0.0
    requires length * a.cos == x == length * b.cos && length * a.sin == y == length * b.sin
    ensures a == b
  {
    Cancel(length, a.cos, b.cos);
    Cancel(length, a.sin, b.sin);
  }

  /** Recovering from the image with the root of the coordinates gives the coordinates back. */
  lemma RecoversCoordinates(m: Ellipsoid, g: Geodetic)
    requires m.Lawful() && g.Valid() && 0.0 < CoordinateRoot(m, g)
    ensures Recovered(m, GeodeticToEcef(m, g), CoordinateRoot(m, g)) == g.Canonical()
  {
    hide PrimeVertical, CoordinateRoot, Ellipsoid.Lawful, Square, GeodeticToEcef, Hypot, Meridional,
      FootDistance, Recovered, Ratio;
    var k, point := CoordinateRoot(m, g), GeodeticToEcef(m, g);
    var r, h := Recovered(m, point, k), Meridional(m, point, k);
    ImageOnShape(m, g);
    MeridionalPositive(m, point, k);
    RecoveredLatitude(m, point, k);
    ImageMeridional(m, g);
    RatioUnique(FootDistance(m, point, k), h, r.latitude.cos, g.latitude.cos);
    RatioUnique(point.z, h, r.latitude.sin, g.latitude.sin);
    ImageAltitude(m, g);
    ImageLongitude(m, g);
  }

  /** Accepted coordinates with a positive root are restored: that root is the one the closed form finds. */
  lemma AcceptedRoundTrip(m: Ellipsoid, g: Geodetic)
    requires m.Lawful() && g.Valid() && 0.0 < CoordinateRoot(m, g)
    requires !Degenerate(m, GeodeticToEcef(m, g))
    ensures EcefToGeodetic(m, GeodeticToEcef(m, g)) == Some(g.Canonical())
  {
    hide PrimeVertical, CoordinateRoot, GeodeticToEcef, Recovered, Degenerate, EquatorialShape, PolarShape, OnShape,
      Square, Ellipsoid.Lawful, PointRoot;
    var point := GeodeticToEcef(m, g);
    ImageOnShape(m, g);
    EccentricityIsSmall(m);
    ShapesNonnegative(m, point);
    DegenerateIffInner(m, point);
    SquarePositive(m.e2);
    ShapeRootUnique(m.e2, EquatorialShape(m, point), PolarShape(m, point), PointRoot(m, point),
                    CoordinateRoot(m, g));
    RecoversCoordinates(m, g);
  }

  /**
   Coordinates of any latitude and longitude, at any altitude above -(1 - 2 e2) a, convert to a point that is
   accepted and converts back to them; at a pole the longitude comes back as zero.
   */
  lemma GeodeticRoundTrip(m: Ellipsoid, g: Geodetic)
    requires m.Lawful() && g.Valid()
    requires -(1.0 - 2.0 * m.e2) * m.a < g.altitude
    ensures EcefToGeodetic(m, GeodeticToEcef(m, g)) == Some(g.Canonical())
  {
    hide PrimeVertical, CoordinateRoot, GeodeticToEcef, EcefToGeodetic, Square;
    EccentricityIsSmall(m);
    CoordinateRootFacts(m, g);
    RootAbove(m.e2, m.a, PrimeVertical(m, g.latitude), CoordinateRoot(m, g), g.altitude);
    ImageAccepted(m, g);
    AcceptedRoundTrip(m, g);
  }

  lemma RootAbove(e2: real, a: real, n: real, k: real, altitude: real)
    requires 0.0 < e2 < 0.5 && 0.0 < a <= n
    requires altitude == (k + e2 - 1.0) * n && -(1.0 - 2.0 * e2) * a < altitude
    ensures e2 < k
  {
    ProductNonnegative(1.0 - 2.0 * e2, n - a);
    assert 0.0 < (k - e2) * n;
  }

  /**
   The exact reach of the round trip: an accepted image converts back to its coordinates if and only if the
   altitude lies above the centre of curvature line, -(1 - e2) n.
   */
  lemma GeodeticRoundTripIff(m: Ellipsoid, g: Geodetic)
    requires m.Lawful() && g.Valid() && !Degenerate(m, GeodeticToEcef(m, g))
    ensures EcefToGeodetic(m, GeodeticToEcef(m, g)) == Some(g.Canonical())
            <==> -(1.0 - m.e2) * PrimeVertical(m, g.latitude) < g.altitude
  {
    hide PrimeVertical, CoordinateRoot, GeodeticToEcef, Square, Degenerate, Recovered, PointRoot;
    var point, n, k := GeodeticToEcef(m, g), PrimeVertical(m, g.latitude), CoordinateRoot(m, g);
    CoordinateRootFacts(m, g);
    RootPositiveIff(m.e2, n, k, g.altitude);
    if 0.0 < k {
      AcceptedRoundTrip(m, g);
    } else if EcefToGeodetic(m, point) == Some(g.Canonical()) {
      var found := PointRoot(m, point);
      var back := Recovered(m, point, found);
      RecoveredPole(m, point, found);
      RecoveredLengths(m, point, found, back);
      Cancel(n, found + m.e2 - 1.0, k + m.e2 - 1.0);
      assert false;
    }
  }

  lemma RootPositiveIff(e2: real, n: real, k: real, altitude: real)
    requires 0.0 < n && altitude == (k + e2 - 1.0) * n
    ensures 0.0 < k <==> -(1.0 - e2) * n < altitude
  {
    assert altitude + (1.0 - e2) * n == k * n;
  }

  lemma ScaleOne(nn: real, e2: real, one: real, aa: real)
    requires nn * (1.0 - e2 * one) == aa && one == 1.0
    ensures nn * (1.0 - e2) == aa
  {
  }

  lemma SquaresOfUnits()
    ensures Square(0.0) == 0.0 && Square(1.0) == 1.0
  {
  }

  /** What is used of the prime vertical radius n at the north pole. */
  predicate PolarVertical(m: Ellipsoid, pole: Direction, n: real)
    requires m.Lawful()
  {
    && pole.Latitude() && pole.cos == 0.0 && pole.sin == 1.0
    && n == PrimeVertical(m, pole)
    && PolarRadius(m.e2, m.a, n)
  }

  predicate PolarRadius(e2: real, a: real, n: real) {
    0.0 < n && Square(n) * (1.0 - e2) == Square(a)
  }

  lemma TripleIsBelow(e2: real, n: real, altitude: real)
    requires 0.0 < e2 < 0.5 && 0.0 < n && Product(-3.0, n, altitude)
    ensures AtMost(altitude, -(1.0 - e2), n)
  {
    assert 0.0 < e2 * n;
  }

  /** The height of the position three prime verticals below the pole. */
  predicate BelowPole(e2: real, n: real, z: real) {
    z == n * (1.0 - e2) - 3.0 * n
  }

  lemma PolarScale(e2: real, a: real, n: real, z: real)
    requires PolarRadius(e2, a, n) && BelowPole(e2, n, z)
    ensures (1.0 - e2) * Square(z) == Square(a) * Square(2.0 + e2)
  {
    assert z == -(2.0 + e2) * n;
    assert Square(z) == Square(2.0 + e2) * Square(n);
  }

  lemma OuterThanInner(e2: real)
    requires 0.0 < e2 < 0.5
    ensures Square(e2) < Square(2.0 + e2)
  {
    assert Square(2.0 + e2) == 4.0 + 4.0 * e2 + Square(e2);
  }

  lemma RadiusAtPole(e2: real, a: real, n: real, one: real)
    requires Square(n) * (1.0 - e2 * one) == Square(a) && one == 1.0 && 0.0 < a <= n
    ensures PolarRadius(e2, a, n)
  {
    hide Square;
    ScaleOne(Square(n), e2, one, Square(a));
  }

  lemma PoleVertical(m: Ellipsoid, pole: Direction)
    requires m.Lawful() && pole.Unit() && pole.sin == 1.0
    ensures PolarRadius(m.e2, m.a, PrimeVertical(m, pole))
  {
    hide *;
    EccentricityIsSmall(m);
    SquaresOfUnits();
    RadiusAtPole(m.e2, m.a, PrimeVertical(m, pole), Square(pole.sin));
  }

  lemma PoleImage(m: Ellipsoid, g: Geodetic)
    requires m.Lawful() && g.Valid() && g.latitude.cos == 0.0 && g.latitude.sin == 1.0
    ensures GeodeticToEcef(m, g) == Ecef(0.0, 0.0, PrimeVertical(m, g.latitude) * (1.0 - m.e2) + g.altitude)
  {
    hide PrimeVertical, Ellipsoid.Lawful, Square;
  }

  lemma PolarShapeIs(m: Ellipsoid, z: real, shape: real)
    requires m.Lawful() && (1.0 - m.e2) * Square(z) == Square(m.a) * shape
    ensures PolarShape(m, Ecef(0.0, 0.0, z)) == shape && EquatorialShape(m, Ecef(0.0, 0.0, z)) == 0.0
  {
    SquarePositive(m.a);
    var aa, zz := Square(m.a), (1.0 - m.e2) * Square(z);
    assert Square(0.0) == 0.0;
    hide Square;
    assert zz / aa == shape by {
      Cancel(aa, zz / aa, shape);
    }
  }

  lemma BelowPoleShape(m: Ellipsoid, n: real, z: real)
    requires m.Lawful() && PolarRadius(m.e2, m.a, n) && BelowPole(m.e2, n, z)
    ensures !Degenerate(m, Ecef(0.0, 0.0, z))
  {
    hide *;
    EccentricityIsSmall(m);
    PolarScale(m.e2, m.a, n, z);
    PolarShapeIs(m, z, Square(2.0 + m.e2));
    OuterThanInner(m.e2);
    DegenerateIffInner(m, Ecef(0.0, 0.0, z));
  }

  /** No higher than the centre of curvature. */
  predicate Low(m: Ellipsoid, g: Geodetic)
    requires m.Lawful() && g.Valid()
  {
    AtMost(g.altitude, -(1.0 - m.e2), PrimeVertical(m, g.latitude))
  }

  predicate AtMost(altitude: real, factor: real, n: real) {
    altitude <= factor * n
  }

  lemma LowIsLost(m: Ellipsoid, g: Geodetic)
    requires m.Lawful() && g.Valid() && !Degenerate(m, GeodeticToEcef(m, g)) && Low(m, g)
    ensures EcefToGeodetic(m, GeodeticToEcef(m, g)) != Some(g.Canonical())
  {
    hide Ellipsoid.Lawful, PrimeVertical, GeodeticToEcef, EcefToGeodetic, Degenerate, Square;
    GeodeticRoundTripIff(m, g);
  }

  /** A position three prime verticals below a pole. */
  predicate FarBelow(m: Ellipsoid, g: Geodetic, n: real)
    requires m.Lawful()
  {
    g.Valid() && PolarVertical(m, g.latitude, n) && Product(-3.0, n, g.altitude)
  }

  lemma FarBelowIsLow(m: Ellipsoid, g: Geodetic, n: real)
    requires m.Lawful() && FarBelow(m, g, n)
    ensures g.Valid() && Low(m, g)
  {
    hide *;
    EccentricityIsSmall(m);
    FarBelowFacts(m, g, n);
    TripleIsBelow(m.e2, n, g.altitude);
    LowFrom(m, g, n);
  }

  lemma FarBelowFacts(m: Ellipsoid, g: Geodetic, n: real)
    requires m.Lawful() && FarBelow(m, g, n)
    ensures g.Valid() && 0.0 < n == PrimeVertical(m, g.latitude) && Product(-3.0, n, g.altitude)
  {
  }

  lemma LowFrom(m: Ellipsoid, g: Geodetic, n: real)
    requires m.Lawful() && g.Valid() && n == PrimeVertical(m, g.latitude)
    requires AtMost(g.altitude, -(1.0 - m.e2), n)
    ensures Low(m, g)
  {
  }

  lemma FarBelowIsAccepted(m: Ellipsoid, g: Geodetic, n: real)
    requires m.Lawful() && FarBelow(m, g, n)
    ensures g.Valid() && !Degenerate(m, GeodeticToEcef(m, g))
  {
    hide Ellipsoid.Lawful, PrimeVertical, Square, Degenerate, GeodeticToEcef, Direction.Latitude, PolarRadius;
    PoleImage(m, g);
    BelowPoleShape(m, n, GeodeticToEcef(m, g).z);
  }

  lemma FarBelowExists(m: Ellipsoid) returns (g: Geodetic, n: real)
    requires m.Lawful()
    ensures FarBelow(m, g, n)
  {
    hide Ellipsoid.Lawful, PrimeVertical, Square, PolarRadius, Product;
    SquaresOfUnits();
    var pole := Direction(0.0, 1.0);
    PoleVertical(m, pole);
    n := PrimeVertical(m, pole);
    var altitude := Times(-3.0, n);
    g := Geodetic(pole, ZERO_ANGLE, altitude);
  }

  function Times(x: real, y: real): (xy: real)
    ensures Product(x, y, xy)
  {
    x * y
  }

  /** The other half is inhabited: a position far below a pole is accepted, and comes back as another. */
  lemma BelowTheBound(m: Ellipsoid) returns (g: Geodetic)
    requires m.Lawful()
    ensures g.Valid() && !Degenerate(m, GeodeticToEcef(m, g)) && Low(m, g)
    ensures EcefToGeodetic(m, GeodeticToEcef(m, g)) != Some(g.Canonical())
  {
    hide *;
    var n: real;
    g, n := FarBelowExists(m);
    FarBelowIsLow(m, g, n);
    FarBelowIsAccepted(m, g, n);
    LowIsLost(m, g);
  }

  // ----- velocities -----

  datatype Ned = Ned(north: real, east: real, down: real)

  function NedToEcefVelocity(latitude: Direction, longitude: Direction, v: Ned): Ecef {
    Ecef(
      -latitude.sin * longitude.cos * v.north - longitude.sin * v.east - latitude.cos * longitude.cos * v.down,
      -latitude.sin * longitude.sin * v.north + longitude.cos * v.east - latitude.cos * longitude.sin * v.down,
      latitude.cos * v.north - latitude.sin * v.down)
  }

  function EcefToNedVelocity(latitude: Direction, longitude: Direction, v: Ecef): Ned {
    Ned(
      -latitude.sin * longitude.cos * v.x - latitude.sin * longitude.sin * v.y + latitude.cos * v.z,
      -longitude.sin * v.x + longitude.cos * v.y,
      -latitude.cos * longitude.cos * v.x - latitude.cos * longitude.sin * v.y - latitude.sin * v.z)
  }

  datatype Planar = Planar(u: real, v: real)

  /** The planar turn of (a, b) by a direction, of which both velocity rotations are compositions. */
  function Turn(d: Direction, a: real, b: real): Planar {
    Planar(d.sin * a + d.cos * b, d.cos * a - d.sin * b)
  }

  /** A planar turn is its own inverse and keeps the length. */
  lemma TurnTwice(d: Direction, a: real, b: real)
    requires d.Unit()
    ensures var Planar(x, y) := Turn(d, a, b);
            Turn(d, x, y) == Planar(a, b) && Square(x) + Square(y) == Square(a) + Square(b)
  {
    UnitParts(d);
    hide *;
    var Planar(x, y) := Turn(d, a, b);
    TurnBack(d, a, b, x, y);
    TurnParts(d, a, b, x, y);
    TurnLength(d.cos, d.sin, a, b, x, y);
  }

  lemma TurnParts(d: Direction, a: real, b: real, x: real, y: real)
    requires Turn(d, a, b) == Planar(x, y)
    ensures x == d.sin * a + d.cos * b && y == d.cos * a - d.sin * b
  {
  }

  lemma TurnBack(d: Direction, a: real, b: real, x: real, y: real)
    requires Square(d.cos) + Square(d.sin) == 1.0 && Turn(d, a, b) == Planar(x, y)
    ensures Turn(d, x, y) == Planar(a, b)
  {
    hide Turn, Square;
    TurnParts(d, a, b, x, y);
    TurnIdentities(d.cos, d.sin, a, b, x, y);
    TurnIs(d, x, y, a, b);
  }

  lemma TurnIs(d: Direction, x: real, y: real, a: real, b: real)
    requires d.sin * x + d.cos * y == a && d.cos * x - d.sin * y == b
    ensures Turn(d, x, y) == Planar(a, b)
  {
  }

  lemma TurnIdentities(c: real, s: real, a: real, b: real, x: real, y: real)
    requires x == s * a + c * b && y == c * a - s * b && Square(c) + Square(s) == 1.0
    ensures s * x + c * y == a && c * x - s * y == b
  {
    assert s * x + c * y == (Square(c) + Square(s)) * a;
    assert c * x - s * y == (Square(c) + Square(s)) * b;
  }

  lemma TurnLength(c: real, s: real, a: real, b: real, x: real, y: real)
    requires x == s * a + c * b && y == c * a - s * b && Square(c) + Square(s) == 1.0
    ensures Square(x) + Square(y) == Square(a) + Square(b)
  {
    calc {
      x * x + y * y;
      (s * a + c * b) * (s * a + c * b) + (c * a - s * b) * (c * a - s * b);
      (Square(c) + Square(s)) * (a * a + b * b);
      a * a + b * b;
    }
  }

  lemma NedToEcefTurns(latitude: Direction, longitude: Direction, v: Ned)
    ensures var Planar(inward, z) := Turn(latitude, v.north, v.down);
            var Planar(y, x) := Turn(longitude, -inward, v.east);
            NedToEcefVelocity(latitude, longitude, v) == Ecef(x, y, z)
  {
  }

  lemma EcefToNedTurns(latitude: Direction, longitude: Direction, v: Ecef)
    ensures var Planar(outward, east) := Turn(longitude, v.y, v.x);
            var Planar(north, down) := Turn(latitude, -outward, v.z);
            EcefToNedVelocity(latitude, longitude, v) == Ned(north, east, down)
  {
  }

  /** The two rotations undo each other, whatever the velocity and the direction it is taken at. */
  lemma VelocityRoundTrips(latitude: Direction, longitude: Direction, ned: Ned, ecef: Ecef)
    requires latitude.Unit() && longitude.Unit()
    ensures EcefToNedVelocity(latitude, longitude, NedToEcefVelocity(latitude, longitude, ned)) == ned
    ensures NedToEcefVelocity(latitude, longitude, EcefToNedVelocity(latitude, longitude, ecef)) == ecef
  {
    hide NedToEcefVelocity, EcefToNedVelocity, Turn, Direction.Unit;
    NedToEcefTurns(latitude, longitude, ned);
    EcefToNedTurns(latitude, longitude, NedToEcefVelocity(latitude, longitude, ned));
    var Planar(inward, z) := Turn(latitude, ned.north, ned.down);
    TurnTwice(latitude, ned.north, ned.down);
    TurnTwice(longitude, -inward, ned.east);

    EcefToNedTurns(latitude, longitude, ecef);
    NedToEcefTurns(latitude, longitude, EcefToNedVelocity(latitude, longitude, ecef));
    var Planar(outward, east) := Turn(longitude, ecef.y, ecef.x);
    TurnTwice(longitude, ecef.y, ecef.x);
    TurnTwice(latitude, -outward, ecef.z);
  }

  /** Rotating a velocity into Earth-centred axes keeps the speed. */
  lemma VelocityKeepsSpeed(latitude: Direction, longitude: Direction, v: Ned)
    requires latitude.Unit() && longitude.Unit()
    ensures var r := NedToEcefVelocity(latitude, longitude, v);
            Square(r.x) + Square(r.y) + Square(r.z) == Square(v.north) + Square(v.east) + Square(v.down)
  {
    hide NedToEcefVelocity, Turn, Direction.Unit;
    NedToEcefTurns(latitude, longitude, v);
    var Planar(inward, z) := Turn(latitude, v.north, v.down);
    TurnTwice(latitude, v.north, v.down);
    TurnTwice(longitude, -inward, v.east);
    assert Square(-inward) == Square(inward);
  }

  /**
   On WGS-84 every latitude and longitude round-trips at any altitude above -6 292 000 metres: the bound
   -(1 - 2 e2) a of the general theorem lies below that.
   */
  lemma Wgs84RoundTrip(m: Ellipsoid, g: Geodetic)
    requires m == Wgs84(m.sqrt, m.cbrt) && m.Lawful() && g.Valid()
    requires -6292000.0 < g.altitude
    ensures EcefToGeodetic(m, GeodeticToEcef(m, g)) == Some(g.Canonical())
  {
    assert m.a == 6378137.0 && 0.0066 < m.e2 < 0.0067;
    assert -(1.0 - 2.0 * m.e2) * m.a == -m.a + 2.0 * m.e2 * 6378137.0;
    hide *;
    GeodeticRoundTrip(m, g);
  }

  // ----- what the coordinates and the axes mean -----

  /** The direction that is straight up at a latitude and longitude. */
  function Normal(latitude: Direction, longitude: Direction): Ecef {
    Ecef(latitude.cos * longitude.cos, latitude.cos * longitude.sin, latitude.sin)
  }

  function Along(from: Ecef, direction: Ecef, distance: real): Ecef {
    Ecef(from.x + distance * direction.x, from.y + distance * direction.y, from.z + distance * direction.z)
  }

  predicate OnEllipsoid(m: Ellipsoid, point: Ecef) {
    (1.0 - m.e2) * (Square(point.x) + Square(point.y)) + Square(point.z) == (1.0 - m.e2) * Square(m.a)
  }

  /** The gradient of the ellipsoid at a point of it is this positive multiple of a direction. */
  predicate NormalAt(m: Ellipsoid, point: Ecef, direction: Ecef, n: real) {
    0.0 < n && point.x == n * direction.x && point.y == n * direction.y
    && point.z == (1.0 - m.e2) * (n * direction.z)
  }

  lemma SquaresOfNormal(latitude: Direction, longitude: Direction)
    requires latitude.Unit() && longitude.Unit()
    ensures var d := Normal(latitude, longitude);
            Square(d.x) + Square(d.y) == 1.0 - Square(latitude.sin) && Square(d.z) == Square(latitude.sin)
  {
    UnitParts(latitude);
    UnitParts(longitude);
    hide Square, Direction.Unit;
    SquareOfProduct(latitude.cos, longitude.cos);
    SquareOfProduct(latitude.cos, longitude.sin);
    OneFactor(Square(latitude.cos), Square(longitude.cos), Square(longitude.sin));
  }

  lemma OneFactor(c: real, x: real, y: real)
    requires x + y == 1.0
    ensures c * x + c * y == c
  {
    assert c * x + c * y == c * (x + y);
  }

  lemma EllipsoidEquation(e2: real, nn: real, ss: real, aa: real, horizontal: real, zz: real)
    requires nn * (1.0 - e2 * ss) == aa
    requires horizontal == nn * (1.0 - ss) && zz == (1.0 - e2) * ((1.0 - e2) * (nn * ss))
    ensures (1.0 - e2) * horizontal + zz == (1.0 - e2) * aa
  {
    var f, x := 1.0 - e2, nn * ss;
    assert horizontal == nn - x && aa == nn - e2 * x;
    assert f * horizontal + f * (f * x) == f * (nn - x + f * x);
  }

  /** A multiple of the normal by the prime vertical, flattened, lies on the ellipsoid. */
  lemma FootOnEllipsoid(m: Ellipsoid, latitude: Direction, longitude: Direction, n: real, foot: Ecef)
    requires latitude.Unit() && longitude.Unit() && Square(n) * (1.0 - m.e2 * Square(latitude.sin)) == Square(m.a)
    requires NormalAt(m, foot, Normal(latitude, longitude), n)
    ensures OnEllipsoid(m, foot)
  {
    hide *;
    var d := Normal(latitude, longitude);
    SquaresOfNormal(latitude, longitude);
    SquaresOfFoot(m, foot, d, n);
    EllipsoidFrom(m.e2, Square(n), Square(latitude.sin), Square(m.a), Square(d.x), Square(d.y),
                  Square(foot.x), Square(foot.y), Square(foot.z));
    OnEllipsoidIs(m, foot);
  }

  lemma OnEllipsoidIs(m: Ellipsoid, point: Ecef)
    requires (1.0 - m.e2) * (Square(point.x) + Square(point.y)) + Square(point.z) == (1.0 - m.e2) * Square(m.a)
    ensures OnEllipsoid(m, point)
  {
    hide Square;
  }

  lemma SquaresOfFoot(m: Ellipsoid, foot: Ecef, d: Ecef, n: real)
    requires NormalAt(m, foot, d, n)
    ensures Square(foot.x) == Square(n) * Square(d.x) && Square(foot.y) == Square(n) * Square(d.y)
    ensures Square(foot.z) == (1.0 - m.e2) * ((1.0 - m.e2) * (Square(n) * Square(d.z)))
  {
    hide Square;
    SquareOfMultiple(n, d.x, foot.x);
    SquareOfMultiple(n, d.y, foot.y);
    PolarSquare(1.0 - m.e2, n, d.z, foot.z);
  }

  lemma SquareOfMultiple(n: real, x: real, y: real)
    requires y == n * x
    ensures Square(y) == Square(n) * Square(x)
  {
    SquareOfProduct(n, x);
  }

  lemma EllipsoidFrom(e2: real, nn: real, ss: real, aa: real, dxx: real, dyy: real, xx: real, yy: real, zz: real)
    requires nn * (1.0 - e2 * ss) == aa && dxx + dyy == 1.0 - ss
    requires xx == nn * dxx && yy == nn * dyy && zz == (1.0 - e2) * ((1.0 - e2) * (nn * ss))
    ensures (1.0 - e2) * (xx + yy) + zz == (1.0 - e2) * aa
  {
    HorizontalSquare(nn, dxx, dyy, 1.0 - ss);
    EllipsoidEquation(e2, nn, ss, aa, xx + yy, zz);
  }

  lemma PolarSquare(f: real, n: real, z: real, y: real)
    requires y == f * (n * z)
    ensures Square(y) == f * (f * (Square(n) * Square(z)))
  {
    SquareOfMultiple(f, n * z, y);
    SquareOfProduct(n, z);
    var x := Square(n * z);
    assert Square(f) * x == f * (f * x);
  }

  lemma HorizontalSquare(nn: real, xx: real, yy: real, cc: real)
    requires xx + yy == cc
    ensures nn * xx + nn * yy == nn * cc
  {
    assert nn * xx + nn * yy == nn * (xx + yy);
  }

  /**
   What the forward conversion computes: from the point of the ellipsoid whose outward normal is the direction of the
   latitude and longitude, go the altitude along that normal.
   */
  lemma PositionIsAlongNormal(m: Ellipsoid, g: Geodetic) returns (foot: Ecef, n: real)
    requires m.Lawful() && g.Valid()
    ensures foot == GeodeticToEcef(m, g.(altitude := 0.0)) && OnEllipsoid(m, foot)
    ensures NormalAt(m, foot, Normal(g.latitude, g.longitude), n)
    ensures GeodeticToEcef(m, g) == Along(foot, Normal(g.latitude, g.longitude), g.altitude)
  {
    hide *;
    GroundValid(g);
    n := PrimeVertical(m, g.latitude);
    foot := GeodeticToEcef(m, g.(altitude := 0.0));
    EccentricityIsSmall(m);
    ImageIs(m, g);
    ImageIs(m, g.(altitude := 0.0));
    FootIs(m, n, Normal(g.latitude, g.longitude), foot);
    AlongIs(m, n, Normal(g.latitude, g.longitude), foot, g.altitude, GeodeticToEcef(m, g));
    FootOnEllipsoid(m, g.latitude, g.longitude, n, foot);
  }

  lemma GroundValid(g: Geodetic)
    requires g.Valid()
    ensures g.(altitude := 0.0).Valid() && g.latitude.Unit() && g.longitude.Unit()
  {
  }

  /** The image of a position, by the prime vertical, the altitude and the normal. */
  predicate ImageOf(m: Ellipsoid, n: real, h: real, d: Ecef, point: Ecef) {
    && point.x == n * d.x + h * d.x && point.y == n * d.y + h * d.y
    && point.z == (1.0 - m.e2) * (n * d.z) + h * d.z
  }

  lemma ImageIs(m: Ellipsoid, g: Geodetic)
    requires m.Lawful() && g.Valid()
    ensures ImageOf(m, PrimeVertical(m, g.latitude), g.altitude, Normal(g.latitude, g.longitude), GeodeticToEcef(m, g))
  {
    hide *;
    GroundValid(g);
    var n := PrimeVertical(m, g.latitude);
    ForwardParts(m, g, n);
    ImageParts(m.e2, n, g.altitude, g.latitude, g.longitude);
    ImageOfIs(m, n, g.altitude, Normal(g.latitude, g.longitude), GeodeticToEcef(m, g));
  }

  lemma ForwardParts(m: Ellipsoid, g: Geodetic, n: real)
    requires m.Lawful() && g.Valid() && n == PrimeVertical(m, g.latitude)
    ensures var (point, c) := (GeodeticToEcef(m, g), (n + g.altitude) * g.latitude.cos);
            && point.z == (n * (1.0 - m.e2) + g.altitude) * g.latitude.sin
            && (g.latitude.cos == 0.0 ==> point.x == 0.0 && point.y == 0.0)
            && (g.latitude.cos != 0.0 ==> point.x == c * g.longitude.cos && point.y == c * g.longitude.sin)
  {
    hide PrimeVertical, Ellipsoid.Lawful, Square;
  }

  lemma ImageOfIs(m: Ellipsoid, n: real, h: real, d: Ecef, point: Ecef)
    requires point.x == n * d.x + h * d.x && point.y == n * d.y + h * d.y
    requires point.z == (1.0 - m.e2) * (n * d.z) + h * d.z
    ensures ImageOf(m, n, h, d, point)
  {
  }

  lemma ImageParts(e2: real, n: real, h: real, latitude: Direction, longitude: Direction)
    ensures var (d, c) := (Normal(latitude, longitude), (n + h) * latitude.cos);
            && c * longitude.cos == n * d.x + h * d.x && c * longitude.sin == n * d.y + h * d.y
            && (n * (1.0 - e2) + h) * latitude.sin == (1.0 - e2) * (n * d.z) + h * d.z
            && (latitude.cos == 0.0 ==> n * d.x + h * d.x == 0.0 && n * d.y + h * d.y == 0.0)
  {
    var c, s := latitude.cos, latitude.sin;
    ScaledBoth(n, h, c, longitude.cos);
    ScaledBoth(n, h, c, longitude.sin);
    assert n * (1.0 - e2) * s == (1.0 - e2) * (n * s);
  }

  lemma ScaledBoth(n: real, h: real, c: real, x: real)
    ensures (n + h) * c * x == n * (c * x) + h * (c * x)
  {
  }

  lemma FootIs(m: Ellipsoid, n: real, d: Ecef, foot: Ecef)
    requires 0.0 < n && ImageOf(m, n, 0.0, d, foot)
    ensures NormalAt(m, foot, d, n)
  {
  }

  lemma AlongIs(m: Ellipsoid, n: real, d: Ecef, foot: Ecef, h: real, point: Ecef)
    requires NormalAt(m, foot, d, n) && ImageOf(m, n, h, d, point)
    ensures point == Along(foot, d, h)
  {
  }

  function Dot(u: Ecef, v: Ecef): real {
    u.x * v.x + u.y * v.y + u.z * v.z
  }

  function Cross(u: Ecef, v: Ecef): Ecef {
    Ecef(u.y * v.z - u.z * v.y, u.z * v.x - u.x * v.z, u.x * v.y - u.y * v.x)
  }

  /** A frame that is right-handed, with its third axis straight down and its second one level, due east. */
  predicate NorthEastDown(latitude: Direction, longitude: Direction, north: Ecef, east: Ecef, down: Ecef) {
    && down == Along(Ecef(0.0, 0.0, 0.0), Normal(latitude, longitude), -1.0)
    && east.z == 0.0 && Dot(east, down) == 0.0 && Dot(east, east) == 1.0
    && Cross(north, east) == down && Cross(east, down) == north
  }

  /** A velocity is rotated by its components along the three axes, and those are north, east and down. */
  lemma VelocityAxes(latitude: Direction, longitude: Direction, v: Ned) returns (north: Ecef, east: Ecef, down: Ecef)
    requires latitude.Unit() && longitude.Unit()
    ensures NorthEastDown(latitude, longitude, north, east, down) && north.z == latitude.cos
    ensures NedToEcefVelocity(latitude, longitude, v)
            == Along(Along(Along(Ecef(0.0, 0.0, 0.0), north, v.north), east, v.east), down, v.down)
  {
    north := Ecef(-latitude.sin * longitude.cos, -latitude.sin * longitude.sin, latitude.cos);
    east := Ecef(-longitude.sin, longitude.cos, 0.0);
    down := Ecef(-(latitude.cos * longitude.cos), -(latitude.cos * longitude.sin), -latitude.sin);
    hide *;
    UnitParts(longitude);
    FrameIs(latitude, longitude, north, east, down);
    AxesSum(latitude, longitude, north, east, down, v);
  }

  lemma FrameIs(latitude: Direction, longitude: Direction, north: Ecef, east: Ecef, down: Ecef)
    requires Square(longitude.cos) + Square(longitude.sin) == 1.0
    requires north == Ecef(-latitude.sin * longitude.cos, -latitude.sin * longitude.sin, latitude.cos)
    requires east == Ecef(-longitude.sin, longitude.cos, 0.0)
    requires down == Ecef(-(latitude.cos * longitude.cos), -(latitude.cos * longitude.sin), -latitude.sin)
    ensures NorthEastDown(latitude, longitude, north, east, down)
  {
    hide *;
    var c, s, x, y := latitude.cos, latitude.sin, longitude.cos, longitude.sin;
    UnitSquares(x, y);
    OneFactor(s, x * x, y * y);
    OneFactor(c, x * x, y * y);
    CrossNorthEast(c, s, x, y, north, east, down);
    CrossEastDown(c, s, x, y, north, east, down);
    EastIsUnit(x, y, east);
    DownIs(latitude, longitude, down);
    FrameFrom(latitude, longitude, north, east, down);
  }

  lemma FrameFrom(latitude: Direction, longitude: Direction, north: Ecef, east: Ecef, down: Ecef)
    requires down == Along(Ecef(0.0, 0.0, 0.0), Normal(latitude, longitude), -1.0)
    requires east.z == 0.0 && Dot(east, down) == 0.0 && Dot(east, east) == 1.0
    requires Cross(north, east) == down && Cross(east, down) == north
    ensures NorthEastDown(latitude, longitude, north, east, down)
  {
    hide Along, Normal, Dot, Cross;
  }

  lemma DownIs(latitude: Direction, longitude: Direction, down: Ecef)
    requires down == Ecef(-(latitude.cos * longitude.cos), -(latitude.cos * longitude.sin), -latitude.sin)
    ensures down == Along(Ecef(0.0, 0.0, 0.0), Normal(latitude, longitude), -1.0)
  {
  }

  lemma EastIsUnit(x: real, y: real, east: Ecef)
    requires x * x + y * y == 1.0 && east == Ecef(-y, x, 0.0)
    ensures Dot(east, east) == 1.0
  {
  }

  lemma UnitSquares(x: real, y: real)
    requires Square(x) + Square(y) == 1.0
    ensures x * x + y * y == 1.0
  {
  }

  lemma CrossNorthEast(c: real, s: real, x: real, y: real, north: Ecef, east: Ecef, down: Ecef)
    requires s * (x * x) + s * (y * y) == s
    requires north == Ecef(-s * x, -s * y, c) && east == Ecef(-y, x, 0.0) && down == Ecef(-(c * x), -(c * y), -s)
    ensures Cross(north, east) == down
  {
    assert (-s * x) * x - (-s * y) * (-y) == -(s * (x * x) + s * (y * y));
  }

  lemma CrossEastDown(c: real, s: real, x: real, y: real, north: Ecef, east: Ecef, down: Ecef)
    requires c * (x * x) + c * (y * y) == c
    requires north == Ecef(-s * x, -s * y, c) && east == Ecef(-y, x, 0.0) && down == Ecef(-(c * x), -(c * y), -s)
    ensures Cross(east, down) == north && Dot(east, down) == 0.0
  {
    assert (-y) * (-(c * y)) - x * (-(c * x)) == c * (x * x) + c * (y * y);
  }

  lemma AxesSum(latitude: Direction, longitude: Direction, north: Ecef, east: Ecef, down: Ecef, v: Ned)
    requires north == Ecef(-latitude.sin * longitude.cos, -latitude.sin * longitude.sin, latitude.cos)
    requires east == Ecef(-longitude.sin, longitude.cos, 0.0)
    requires down == Ecef(-(latitude.cos * longitude.cos), -(latitude.cos * longitude.sin), -latitude.sin)
    ensures NedToEcefVelocity(latitude, longitude, v)
            == Along(Along(Along(Ecef(0.0, 0.0, 0.0), north, v.north), east, v.east), down, v.down)
  {
    Component(latitude.sin, longitude.cos, v.north, -longitude.sin * v.east, latitude.cos * longitude.cos, v.down);
    Component(latitude.sin, longitude.sin, v.north, longitude.cos * v.east, latitude.cos * longitude.sin, v.down);
  }

  lemma Component(s: real, x: real, north: real, east: real, level: real, down: real)
    ensures -s * x * north + east - level * down == 0.0 + north * (-s * x) + east + down * (-level)
  {
  }

  // ----- the ellipsoid of the source -----

  lemma SquareUnderRoot(m: Ellipsoid, x: real, y: real)
    requires m.Lawful() && 0.0 <= x && y == Square(x)
    ensures m.sqrt(y) == x
  {
    assert Square(m.sqrt(y)) == y;
    SquareInjective(m.sqrt(y), x);
  }

  /** The polar radius is the axis less its share of the flattening. */
  lemma NorthPoleImage(m: Ellipsoid, f: real, g: Geodetic)
    requires m.Lawful() && 0.0 < f < 1.0 && m.e2 == f * (2.0 - f)
    requires g.Valid() && g.latitude == Direction(0.0, 1.0) && g.altitude == 0.0
    ensures GeodeticToEcef(m, g) == Ecef(0.0, 0.0, m.a * (1.0 - f))
  {
    hide *;
    ForwardPole(m, g);
    Complement(f, m.e2);
    SquareUnderRoot(m, 1.0 - f, 1.0 - m.e2);
    PolarProduct(m.a, 1.0 - f, m.e2);
  }

  lemma Complement(f: real, e2: real)
    requires e2 == f * (2.0 - f)
    ensures 1.0 - e2 == (1.0 - f) * (1.0 - f) && Square(1.0 - f) == 1.0 - e2
  {
  }

  lemma ForwardPole(m: Ellipsoid, g: Geodetic)
    requires m.Lawful() && g.Valid() && g.latitude == Direction(0.0, 1.0) && g.altitude == 0.0
    ensures m.sqrt(1.0 - m.e2) != 0.0
    ensures GeodeticToEcef(m, g) == Ecef(0.0, 0.0, (m.a / m.sqrt(1.0 - m.e2) * (1.0 - m.e2) + 0.0) * 1.0)
  {
    hide *;
    EccentricityIsSmall(m);
    GroundValid(g);
    VerticalAtPole(m, g.latitude);
    ForwardParts(m, g, PrimeVertical(m, g.latitude));
  }

  lemma VerticalAtPole(m: Ellipsoid, latitude: Direction)
    requires m.Lawful() && latitude.Unit() && latitude.sin == 1.0
    ensures m.sqrt(1.0 - m.e2) != 0.0 && PrimeVertical(m, latitude) == m.a / m.sqrt(1.0 - m.e2)
  {
    ZeroAndOne();
    hide Square, Direction.Unit;
    var root := m.sqrt(1.0 - m.e2);
    assert root * root == 1.0 - m.e2;
    assert 1.0 - m.e2 * Square(latitude.sin) == 1.0 - m.e2;
  }

  lemma PolarProduct(a: real, root: real, e2: real)
    requires 0.0 < root && 1.0 - e2 == root * root
    ensures (a / root * (1.0 - e2) + 0.0) * 1.0 == a * root
  {
    var n := a / root;
    assert n * root == a;
    assert n * (root * root) == (n * root) * root;
  }

  /** The equatorial radius is the axis. */
  lemma EquatorImage(m: Ellipsoid, g: Geodetic)
    requires m.Lawful() && g.latitude == ZERO_ANGLE && g.longitude == ZERO_ANGLE && g.altitude == 0.0
    ensures g.Valid() && GeodeticToEcef(m, g) == Ecef(m.a, 0.0, 0.0)
  {
    hide *;
    VerticalAtEquator(m);
    EquatorValid(g);
    ImageIs(m, g);
    NormalAtEquator(g.latitude, g.longitude);
    EquatorPoint(m, m.a, Normal(g.latitude, g.longitude), GeodeticToEcef(m, g));
  }

  lemma EquatorValid(g: Geodetic)
    requires g.latitude == ZERO_ANGLE && g.longitude == ZERO_ANGLE
    ensures g.Valid()
  {
    ZeroAndOne();
    hide Square;
  }

  lemma NormalAtEquator(latitude: Direction, longitude: Direction)
    requires latitude == ZERO_ANGLE && longitude == ZERO_ANGLE
    ensures Normal(latitude, longitude) == Ecef(1.0, 0.0, 0.0)
  {
  }

  lemma EquatorPoint(m: Ellipsoid, n: real, d: Ecef, point: Ecef)
    requires ImageOf(m, n, 0.0, d, point) && d == Ecef(1.0, 0.0, 0.0)
    ensures point == Ecef(n, 0.0, 0.0)
  {
  }

  lemma VerticalAtEquator(m: Ellipsoid)
    requires m.Lawful()
    ensures ZERO_ANGLE.Unit() && PrimeVertical(m, ZERO_ANGLE) == m.a
  {
    ZeroAndOne();
    hide Square;
    assert 1.0 - m.e2 * 0.0 == 1.0;
    SquareUnderRoot(m, 1.0, 1.0);
  }

  /**
   On WGS-84 the equator at longitude zero lies 6 378 137 metres from the centre, and the north pole
   6 356 752.3142 metres.
   */
  lemma Wgs84Radii(m: Ellipsoid, equator: Geodetic, pole: Geodetic)
    requires m == Wgs84(m.sqrt, m.cbrt) && m.Lawful()
    requires equator == Geodetic(ZERO_ANGLE, ZERO_ANGLE, 0.0)
    requires pole == Geodetic(Direction(0.0, 1.0), ZERO_ANGLE, 0.0)
    ensures equator.Valid() && GeodeticToEcef(m, equator) == Ecef(6378137.0, 0.0, 0.0)
    ensures pole.Valid() && GeodeticToEcef(m, pole).x == GeodeticToEcef(m, pole).y == 0.0
    ensures 6356752.3142 < GeodeticToEcef(m, pole).z < 6356752.3143
  {
    hide *;
    Wgs84Is(m);
    EquatorImage(m, equator);
    PoleValid(pole);
    FlatteningBounds();
    NorthPoleImage(m, FLATTENING, pole);
    PolarBounds(m.a, FLATTENING, GeodeticToEcef(m, pole).z);
  }

  lemma PolarBounds(a: real, f: real, z: real)
    requires a == 6378137.0 && f == FLATTENING && z == a * (1.0 - f)
    ensures 6356752.3142 < z < 6356752.3143
  {
  }

  lemma ZeroAndOne()
    ensures Square(0.0) == 0.0 && Square(1.0) == 1.0
  {
  }

  lemma PoleValid(pole: Geodetic)
    requires pole == Geodetic(Direction(0.0, 1.0), ZERO_ANGLE, 0.0)
    ensures pole.Valid()
  {
    ZeroAndOne();
    hide Square;
  }

  lemma Wgs84Is(m: Ellipsoid)
    requires m == Wgs84(m.sqrt, m.cbrt)
    ensures m.a == 6378137.0 && m.e2 == FLATTENING * (2.0 - FLATTENING)
  {
  }

  lemma FlatteningBounds()
    ensures 0.0 < FLATTENING < 1.0
  {
  }
}
