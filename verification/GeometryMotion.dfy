// When is it safe to move a quad linearly from one shape to another? The code
// answers with the minima of a few quadratics; the reference answer quantifies
// over every instant of the motion.
module GeometryMotion {
  import opened GeometryOps

  const EPSILON: real := 0.000001

  datatype Point = Point(x: real, y: real)
  type Quad = q: seq<Point> | |q| == 4
    witness [Point(0.0, 0.0), Point(0.0, 0.0), Point(0.0, 0.0), Point(0.0, 0.0)]

  // a + b t + c t^2
  datatype Quadratic = Quadratic(a: real, b: real, c: real)

  // ------------------------------------------------------------ the code

  function QuadraticMin(f: Quadratic): real {
    var end := f.a + f.b + f.c;
    var value := if end < f.a then end else f.a;
    if f.c > 0.0 then
      var t := -f.b / (2.0 * f.c);
      if 0.0 < t < 1.0 then
        var at := f.a + t * (f.b + t * f.c);
        if at < value then at else value
      else value
    else value
  }

  function Sub(a: Point, b: Point): Point { Point(a.x - b.x, a.y - b.y) }

  function Delta(p: Quad, q: Quad): Quad {
    [Sub(q[0], p[0]), Sub(q[1], p[1]), Sub(q[2], p[2]), Sub(q[3], p[3])]
  }

  function Det(u: Point, v: Point): real { u.x * v.y - u.y * v.x }
  function Dot(u: Point, v: Point): real { u.x * v.x + u.y * v.y }
  function Squared(x: real): real { x * x }
  function Norm(u: Point): real { Squared(u.x) + Squared(u.y) }

  // Det(u, v) and Norm(u) while u moves by du and v by dv.
  function DetPath(u: Point, v: Point, du: Point, dv: Point): Quadratic {
    Quadratic(Det(u, v), Det(du, v) + Det(u, dv), Det(du, dv))
  }

  function NormPath(u: Point, du: Point): Quadratic {
    Quadratic(Norm(u), 2.0 * Dot(u, du), Norm(du))
  }

  function Plus(f: Quadratic, g: Quadratic): Quadratic {
    Quadratic(f.a + g.a, f.b + g.b, f.c + g.c)
  }

  function Times(s: real, f: Quadratic): Quadratic {
    Quadratic(s * f.a, s * f.b, s * f.c)
  }

  // The squared length of the edge a-b, the turn at a-b-c, and twice the area,
  // of the quad p moving by d.
  function EdgePath(p: Quad, d: Quad, a: int, b: int): Quadratic
    requires 0 <= a < 4 && 0 <= b < 4
  {
    NormPath(Sub(p[b], p[a]), Sub(d[b], d[a]))
  }

  function CrossPath(p: Quad, d: Quad, a: int, b: int, c: int): Quadratic
    requires 0 <= a < 4 && 0 <= b < 4 && 0 <= c < 4
  {
    DetPath(Sub(p[b], p[a]), Sub(p[c], p[a]), Sub(d[b], d[a]), Sub(d[c], d[a]))
  }

  function AreaTermPath(p: Quad, d: Quad, k: int): Quadratic
    requires 0 <= k < 4
  {
    DetPath(p[k], p[NextCorner(k)], d[k], d[NextCorner(k)])
  }

  function AreaPath(p: Quad, d: Quad): Quadratic {
    Plus(Plus(Plus(AreaTermPath(p, d, 0), AreaTermPath(p, d, 1)), AreaTermPath(p, d, 2)), AreaTermPath(p, d, 3))
  }

  // vertices[0..count): the corners that differ from the next one.
  function Corners(p: Quad): (vs: seq<int>)
    ensures |vs| <= 4 && forall i | 0 <= i < |vs| :: 0 <= vs[i] < 4
  {
    (if p[0] != p[1] then [0] else []) + (if p[1] != p[2] then [1] else []) +
    (if p[2] != p[3] then [2] else []) + (if p[3] != p[0] then [3] else [])
  }

  predicate SameCoincidences(p: Quad, q: Quad) {
    forall k, j | 0 <= j < k < 4 :: p[k] == p[j] <==> q[k] == q[j]
  }

  predicate AllFinite(o: Op) {
    forall k | 0 <= k < 8 :: XY(o, k).Finite?
  }

  function Points(o: Op): Quad
    requires AllFinite(o)
  {
    [Point(XY(o, 0).value, XY(o, 1).value), Point(XY(o, 2).value, XY(o, 3).value),
     Point(XY(o, 4).value, XY(o, 5).value), Point(XY(o, 6).value, XY(o, 7).value)]
  }

  predicate CornerValid(p: Quad, d: Quad, vs: seq<int>, sign: real, k: int)
    requires forall i | 0 <= i < |vs| :: 0 <= vs[i] < 4
    requires 0 <= k < |vs|
  {
    var a, b, c := vs[k], vs[(k + 1) % |vs|], vs[(k + 2) % |vs|];
    && QuadraticMin(EdgePath(p, d, a, b)) >= EPSILON
    && QuadraticMin(Times(sign, CrossPath(p, d, a, b, c))) >= -EPSILON
  }

  predicate ValidForSign(p: Quad, d: Quad, vs: seq<int>, sign: real)
    requires forall i | 0 <= i < |vs| :: 0 <= vs[i] < 4
  {
    && QuadraticMin(Times(sign, AreaPath(p, d))) >= EPSILON
    && forall k | 0 <= k < |vs| :: CornerValid(p, d, vs, sign, k)
  }

  predicate QuadsValid(p: Quad, q: Quad) {
    && SameCoincidences(p, q)
    && var d, vs := Delta(p, q), Corners(p);
    var area := AreaPath(p, d).a;
    && |vs| >= 3
    && !(-EPSILON < area < EPSILON)
    && ValidForSign(p, d, vs, if area < 0.0 then -1.0 else 1.0)
  }

  predicate PairValid(prev: Op, cur: Op) {
    AllFinite(prev) && AllFinite(cur) && QuadsValid(Points(prev), Points(cur))
  }

  // ------------------------------------------------------- the reference

  // The quad at instant t of the motion, the formula of `geometry_interpolate`.
  function Moved(u: Point, du: Point, t: real): Point { Point(u.x + du.x * t, u.y + du.y * t) }

  function Mix(a: Point, b: Point, t: real): Point { Moved(a, Sub(b, a), t) }

  function At(p: Quad, q: Quad, t: real): Quad {
    [Mix(p[0], q[0], t), Mix(p[1], q[1], t), Mix(p[2], q[2], t), Mix(p[3], q[3], t)]
  }

  // Twice the signed area.
  function Area(r: Quad): real { Det(r[0], r[1]) + Det(r[1], r[2]) + Det(r[2], r[3]) + Det(r[3], r[0]) }

  function SquaredLength(a: Point, b: Point): real { Norm(Sub(b, a)) }

  // Twice the signed area of the triangle a-b-c.
  function Turn(a: Point, b: Point, c: Point): real { Det(Sub(b, a), Sub(c, a)) }

  function Signed(sign: real, x: real): real { sign * x }

  // A shape that may be drawn: the orientation is `sign`, the edge leaving
  // every listed corner keeps some length, and no corner turns the wrong way.
  predicate ShapeSafe(r: Quad, corners: seq<int>, sign: real)
    requires forall i | 0 <= i < |corners| :: 0 <= corners[i] < 4
  {
    && Signed(sign, Area(r)) >= EPSILON
    && forall k | 0 <= k < |corners| :: CornerSafe(r, corners, sign, k)
  }

  predicate CornerSafe(r: Quad, corners: seq<int>, sign: real, k: int)
    requires forall i | 0 <= i < |corners| :: 0 <= corners[i] < 4
    requires 0 <= k < |corners|
  {
    var a, b, c := corners[k], corners[(k + 1) % |corners|], corners[(k + 2) % |corners|];
    && SquaredLength(r[a], r[NextCorner(a)]) >= EPSILON
    && Signed(sign, Turn(r[a], r[b], r[c])) >= -EPSILON
  }

  ghost predicate AlwaysSafe(p: Quad, q: Quad, corners: seq<int>, sign: real)
    requires forall i | 0 <= i < |corners| :: 0 <= corners[i] < 4
  {
    forall t: real | 0.0 <= t <= 1.0 :: ShapeSafe(At(p, q, t), corners, sign)
  }

  // The motion the code means to accept, said without any quadratic.
  ghost predicate MotionSafe(p: Quad, q: Quad) {
    && SameCoincidences(p, q)
    && |Corners(p)| >= 3
    && (AlwaysSafe(p, q, Corners(p), 1.0) || AlwaysSafe(p, q, Corners(p), -1.0))
  }

  // ------------------------------------- a quadratic's minimum on [0, 1]

  function Value(f: Quadratic, t: real): real { f.a + t * (f.b + t * f.c) }

  function Smaller(x: real, y: real): real { if y < x then y else x }

  lemma VertexForm(f: Quadratic, t: real, v: real)
    requires f.c > 0.0 && 2.0 * f.c * v == -f.b
    ensures Value(f, t) - Value(f, v) == f.c * ((t - v) * (t - v))
  {
    var b, c := f.b, f.c;
    assert b * (t - v) == -(2.0 * c * v) * (t - v);
    assert c * (t * t - v * v) == c * ((t - v) * (t + v));
    assert -(2.0 * c * v) * (t - v) == c * ((t - v) * (-2.0 * v));
    assert c * ((t - v) * (t + v)) + c * ((t - v) * (-2.0 * v)) == c * ((t - v) * (t - v));
  }

  lemma ProductNonNegative(x: real, y: real)
    requires x >= 0.0 && y >= 0.0
    ensures x * y >= 0.0
  {
  }

  // With c <= 0 the parabola lies above its chord.
  lemma ChordBelow(f: Quadratic, t: real)
    requires f.c <= 0.0 && 0.0 <= t <= 1.0
    ensures Value(f, t) >= Smaller(f.a, f.a + f.b + f.c)
  {
    var b, c, s := f.b, f.c, f.b + f.c;
    assert t * (b + t * c) == t * s + (-c) * (t * (1.0 - t)) by {
      assert (-c) * (t * (1.0 - t)) == t * (t * c - c);
      assert t * (b + t * c) - t * s == t * (t * c - c);
    }
    ProductNonNegative(t, 1.0 - t);
    ProductNonNegative(-c, t * (1.0 - t));
    if s >= 0.0 {
      ProductNonNegative(t, s);
    } else {
      ProductNonNegative(1.0 - t, -s);
      assert (1.0 - t) * -s == t * s - s;
    }
  }

  // A vertex outside (0, 1) leaves the parabola monotone on [0, 1].
  lemma MonotoneBelow(f: Quadratic, t: real)
    requires f.c > 0.0 && 0.0 <= t <= 1.0 && (f.b >= 0.0 || f.b + 2.0 * f.c <= 0.0)
    ensures Value(f, t) >= Smaller(f.a, f.a + f.b + f.c)
  {
    var a, b, c := f.a, f.b, f.c;
    if b >= 0.0 {
      ProductNonNegative(t, c);
      ProductNonNegative(t, b + t * c);
    } else {
      ProductNonNegative(c, 1.0 - t);
      assert c * (1.0 - t) == c - t * c;
      ProductNonNegative(1.0 - t, -(b + c + t * c));
      assert Value(f, t) - (a + b + c) == (1.0 - t) * -(b + c + t * c);
    }
  }

  lemma QuadraticMinIsLowerBound(f: Quadratic, t: real)
    requires 0.0 <= t <= 1.0
    ensures Value(f, t) >= QuadraticMin(f)
  {
    if f.c <= 0.0 {
      ChordBelow(f, t);
    } else {
      var c, v := f.c, -f.b / (2.0 * f.c);
      assert 2.0 * c * v == -f.b;
      if 0.0 < v < 1.0 {
        VertexForm(f, t, v);
        ProductNonNegative(if t < v then v - t else t - v, if t < v then v - t else t - v);
        assert (v - t) * (v - t) == (t - v) * (t - v);
        ProductNonNegative(c, (t - v) * (t - v));
      } else {
        if v <= 0.0 {
          ProductNonNegative(c, -v);
          assert 2.0 * (c * -v) == f.b;
        } else {
          ProductNonNegative(c, v - 1.0);
          assert c * (v - 1.0) == c * v - c;
        }
        MonotoneBelow(f, t);
      }
    }
  }

  lemma QuadraticMinIsReached(f: Quadratic) returns (t: real)
    ensures 0.0 <= t <= 1.0 && Value(f, t) == QuadraticMin(f)
  {
    t := if f.a + f.b + f.c < f.a then 1.0 else 0.0;
    if f.c > 0.0 {
      var v := -f.b / (2.0 * f.c);
      if 0.0 < v < 1.0 && Value(f, v) < Value(f, t) {
        t := v;
      }
    }
  }

  // So comparing the computed minimum decides a statement about every instant.
  lemma QuadraticMinDecides(f: Quadratic, bound: real)
    ensures QuadraticMin(f) >= bound <==> forall t: real | 0.0 <= t <= 1.0 :: Value(f, t) >= bound
  {
    forall t: real | 0.0 <= t <= 1.0
      ensures Value(f, t) >= QuadraticMin(f)
    {
      QuadraticMinIsLowerBound(f, t);
    }
    var t := QuadraticMinIsReached(f);
  }

  // ------------------------------ the quadratics measure the moving quad

  lemma DetAt(u: Point, v: Point, du: Point, dv: Point, t: real)
    ensures Det(Moved(u, du, t), Moved(v, dv, t)) == Value(DetPath(u, v, du, dv), t)
  {
    assert (u.x + du.x * t) * (v.y + dv.y * t) ==
           u.x * v.y + t * (du.x * v.y + u.x * dv.y) + t * (t * (du.x * dv.y));
    assert (u.y + du.y * t) * (v.x + dv.x * t) ==
           u.y * v.x + t * (du.y * v.x + u.y * dv.x) + t * (t * (du.y * dv.x));
  }

  function SquarePath(x: real, dx: real): Quadratic { Quadratic(Squared(x), 2.0 * (x * dx), Squared(dx)) }

  lemma SquareAt(x: real, dx: real, t: real, m: real)
    requires m == x + dx * t
    ensures Squared(m) == Value(SquarePath(x, dx), t)
  {
    assert (x + dx * t) * (x + dx * t) == x * x + 2.0 * (x * (dx * t)) + (dx * t) * (dx * t);
    assert x * (dx * t) == t * (x * dx);
    assert (dx * t) * (dx * t) == t * (t * (dx * dx));
  }

  lemma NormAt(u: Point, du: Point, t: real)
    ensures Norm(Moved(u, du, t)) == Value(NormPath(u, du), t)
  {
    hide Value, Squared;
    var m, f, g := Moved(u, du, t), SquarePath(u.x, du.x), SquarePath(u.y, du.y);
    SquareAt(u.x, du.x, t, m.x);
    SquareAt(u.y, du.y, t, m.y);
    assert Norm(m) == Value(f, t) + Value(g, t);
    PlusAt(f, g, t);
    assert Plus(f, g) == NormPath(u, du);
  }

  lemma PlusAt(f: Quadratic, g: Quadratic, t: real)
    ensures Value(f, t) + Value(g, t) == Value(Plus(f, g), t)
  {
    assert t * f.c + t * g.c == t * (f.c + g.c);
    assert t * (f.b + t * f.c) + t * (g.b + t * g.c) == t * ((f.b + g.b) + t * (f.c + g.c));
  }

  lemma TimesAt(s: real, f: Quadratic, t: real)
    ensures s * Value(f, t) == Value(Times(s, f), t)
  {
    assert s * (t * f.c) == t * (s * f.c);
    assert s * (f.b + t * f.c) == s * f.b + s * (t * f.c);
    assert s * (t * (f.b + t * f.c)) == t * (s * (f.b + t * f.c));
  }

  lemma SpreadAt(x: real, dx: real, y: real, dy: real, w: real, dw: real, t: real)
    requires w == y - x && dw == dy - dx
    ensures (y + dy * t) - (x + dx * t) == w + dw * t
  {
    assert dw * t == dy * t - dx * t;
  }

  lemma SideOfMoved(u: Point, du: Point, v: Point, dv: Point, t: real)
    ensures Sub(Moved(v, dv, t), Moved(u, du, t)) == Moved(Sub(v, u), Sub(dv, du), t)
  {
    var w, dw := Sub(v, u), Sub(dv, du);
    SpreadAt(u.x, du.x, v.x, dv.x, w.x, dw.x, t);
    SpreadAt(u.y, du.y, v.y, dv.y, w.y, dw.y, t);
  }

  lemma CornerAt(p: Quad, q: Quad, t: real, k: int)
    requires 0 <= k < 4
    ensures At(p, q, t)[k] == Moved(p[k], Delta(p, q)[k], t)
  {
    hide Moved, Sub;
    assert Delta(p, q)[k] == Sub(q[k], p[k]);
    assert At(p, q, t)[k] == Mix(p[k], q[k], t);
  }

  lemma SideAt(p: Quad, q: Quad, t: real, a: int, b: int)
    requires 0 <= a < 4 && 0 <= b < 4
    ensures Sub(At(p, q, t)[b], At(p, q, t)[a]) ==
            Moved(Sub(p[b], p[a]), Sub(Delta(p, q)[b], Delta(p, q)[a]), t)
  {
    hide Moved, Sub, Delta, At;
    CornerAt(p, q, t, a);
    CornerAt(p, q, t, b);
    SideOfMoved(p[a], Delta(p, q)[a], p[b], Delta(p, q)[b], t);
  }

  lemma EdgeLengthAt(p: Quad, q: Quad, a: int, b: int, t: real)
    requires 0 <= a < 4 && 0 <= b < 4
    ensures SquaredLength(At(p, q, t)[a], At(p, q, t)[b]) == Value(EdgePath(p, Delta(p, q), a, b), t)
  {
    hide Moved, Sub, Delta, At, Norm, Value, NormPath;
    SideAt(p, q, t, a, b);
    NormAt(Sub(p[b], p[a]), Sub(Delta(p, q)[b], Delta(p, q)[a]), t);
  }

  lemma TurnAt(p: Quad, q: Quad, a: int, b: int, c: int, t: real)
    requires 0 <= a < 4 && 0 <= b < 4 && 0 <= c < 4
    ensures Turn(At(p, q, t)[a], At(p, q, t)[b], At(p, q, t)[c]) ==
            Value(CrossPath(p, Delta(p, q), a, b, c), t)
  {
    hide Moved, Sub, Delta, At, Det, Value, DetPath;
    var d := Delta(p, q);
    SideAt(p, q, t, a, b);
    SideAt(p, q, t, a, c);
    DetAt(Sub(p[b], p[a]), Sub(p[c], p[a]), Sub(d[b], d[a]), Sub(d[c], d[a]), t);
  }

  lemma AreaTermAt(p: Quad, q: Quad, k: int, t: real)
    requires 0 <= k < 4
    ensures Det(At(p, q, t)[k], At(p, q, t)[NextCorner(k)]) == Value(AreaTermPath(p, Delta(p, q), k), t)
  {
    hide Moved, Delta, At, Det, Value, DetPath;
    var j, d := NextCorner(k), Delta(p, q);
    CornerAt(p, q, t, k);
    CornerAt(p, q, t, j);
    DetAt(p[k], p[j], d[k], d[j], t);
  }

  lemma AreaAt(p: Quad, q: Quad, t: real)
    ensures Area(At(p, q, t)) == Value(AreaPath(p, Delta(p, q)), t)
  {
    hide Delta, At, Det, Value, Plus, AreaTermPath;
    var d := Delta(p, q);
    AreaTermAt(p, q, 0, t);
    AreaTermAt(p, q, 1, t);
    AreaTermAt(p, q, 2, t);
    AreaTermAt(p, q, 3, t);
    var f0, f1, f2, f3 := AreaTermPath(p, d, 0), AreaTermPath(p, d, 1), AreaTermPath(p, d, 2), AreaTermPath(p, d, 3);
    PlusAt(f0, f1, t);
    PlusAt(Plus(f0, f1), f2, t);
    PlusAt(Plus(Plus(f0, f1), f2), f3, t);
  }

  // ------------------------------------------------------- the decisions

  lemma SignedAt(sign: real, x: real, f: Quadratic, t: real)
    requires x == Value(f, t)
    ensures Signed(sign, x) == Value(Times(sign, f), t)
  {
    TimesAt(sign, f, t);
  }

  lemma EdgeMinDecides(p: Quad, q: Quad, a: int, b: int)
    requires 0 <= a < 4 && 0 <= b < 4
    ensures QuadraticMin(EdgePath(p, Delta(p, q), a, b)) >= EPSILON <==>
            forall t: real | 0.0 <= t <= 1.0 :: SquaredLength(At(p, q, t)[a], At(p, q, t)[b]) >= EPSILON
  {
    hide QuadraticMin, SquaredLength, Value, EdgePath, At, Delta;
    var f := EdgePath(p, Delta(p, q), a, b);
    forall t: real
      ensures SquaredLength(At(p, q, t)[a], At(p, q, t)[b]) == Value(f, t)
    {
      EdgeLengthAt(p, q, a, b, t);
    }
    QuadraticMinDecides(f, EPSILON);
  }

  lemma TurnMinDecides(p: Quad, q: Quad, a: int, b: int, c: int, sign: real)
    requires 0 <= a < 4 && 0 <= b < 4 && 0 <= c < 4
    ensures QuadraticMin(Times(sign, CrossPath(p, Delta(p, q), a, b, c))) >= -EPSILON <==>
            forall t: real | 0.0 <= t <= 1.0 ::
              Signed(sign, Turn(At(p, q, t)[a], At(p, q, t)[b], At(p, q, t)[c])) >= -EPSILON
  {
    hide QuadraticMin, Turn, Value, CrossPath, Times, Signed, At, Delta;
    var f := CrossPath(p, Delta(p, q), a, b, c);
    forall t: real
      ensures Signed(sign, Turn(At(p, q, t)[a], At(p, q, t)[b], At(p, q, t)[c])) == Value(Times(sign, f), t)
    {
      TurnAt(p, q, a, b, c, t);
      SignedAt(sign, Turn(At(p, q, t)[a], At(p, q, t)[b], At(p, q, t)[c]), f, t);
    }
    QuadraticMinDecides(Times(sign, f), -EPSILON);
  }

  lemma AreaMinDecides(p: Quad, q: Quad, sign: real)
    ensures QuadraticMin(Times(sign, AreaPath(p, Delta(p, q)))) >= EPSILON <==>
            forall t: real | 0.0 <= t <= 1.0 :: Signed(sign, Area(At(p, q, t))) >= EPSILON
  {
    hide QuadraticMin, Area, Value, AreaPath, Times, Signed, At, Delta;
    var f := AreaPath(p, Delta(p, q));
    forall t: real
      ensures Signed(sign, Area(At(p, q, t))) == Value(Times(sign, f), t)
    {
      AreaAt(p, q, t);
      SignedAt(sign, Area(At(p, q, t)), f, t);
    }
    QuadraticMinDecides(Times(sign, f), EPSILON);
  }

  // Dropping a corner that coincides with the next one leaves the remaining
  // corners joined by the quad's own edges, at every instant.
  lemma ListedEdgeIsQuadEdge(p: Quad, q: Quad, k: int, t: real)
    requires SameCoincidences(p, q) && |Corners(p)| >= 3 && 0 <= k < |Corners(p)|
    ensures var vs := Corners(p);
            At(p, q, t)[vs[(k + 1) % |vs|]] == At(p, q, t)[NextCorner(vs[k])]
  {
    var vs := Corners(p);
    var a, b := vs[k], vs[(k + 1) % |vs|];
    CornerAt(p, q, t, b);
    CornerAt(p, q, t, NextCorner(a));
    assert p[b] == p[NextCorner(a)];
    assert q[b] == q[NextCorner(a)];
  }

  lemma CornerValidDecides(p: Quad, q: Quad, k: int, sign: real)
    requires SameCoincidences(p, q) && |Corners(p)| >= 3 && 0 <= k < |Corners(p)|
    ensures CornerValid(p, Delta(p, q), Corners(p), sign, k) <==>
            forall t: real | 0.0 <= t <= 1.0 :: CornerSafe(At(p, q, t), Corners(p), sign, k)
  {
    var vs := Corners(p);
    var a, b, c := vs[k], vs[(k + 1) % |vs|], vs[(k + 2) % |vs|];
    hide QuadraticMin, EdgePath, CrossPath, Times, Signed, SquaredLength, Turn, Corners, At, Delta;
    EdgeMinDecides(p, q, a, b);
    TurnMinDecides(p, q, a, b, c, sign);
    forall t: real | 0.0 <= t <= 1.0
      ensures CornerSafe(At(p, q, t), vs, sign, k) <==>
              && SquaredLength(At(p, q, t)[a], At(p, q, t)[b]) >= EPSILON
              && Signed(sign, Turn(At(p, q, t)[a], At(p, q, t)[b], At(p, q, t)[c])) >= -EPSILON
    {
      ListedEdgeIsQuadEdge(p, q, k, t);
    }
  }

  lemma ValidForSignDecides(p: Quad, q: Quad, sign: real)
    requires SameCoincidences(p, q) && |Corners(p)| >= 3
    ensures ValidForSign(p, Delta(p, q), Corners(p), sign) <==> AlwaysSafe(p, q, Corners(p), sign)
  {
    var vs, d := Corners(p), Delta(p, q);
    hide QuadraticMin, Area, AreaPath, Times, Signed, Corners, At, Delta, CornerValid, CornerSafe;
    AreaMinDecides(p, q, sign);
    forall k | 0 <= k < |vs|
      ensures CornerValid(p, d, vs, sign, k) <==>
              forall t: real | 0.0 <= t <= 1.0 :: CornerSafe(At(p, q, t), vs, sign, k)
    {
      CornerValidDecides(p, q, k, sign);
    }
    if ValidForSign(p, d, vs, sign) {
      forall t: real | 0.0 <= t <= 1.0
        ensures ShapeSafe(At(p, q, t), vs, sign)
      {
        forall k | 0 <= k < |vs|
          ensures CornerSafe(At(p, q, t), vs, sign, k)
        {
          assert CornerValid(p, d, vs, sign, k);
        }
      }
    }
    if AlwaysSafe(p, q, vs, sign) {
      forall t: real | 0.0 <= t <= 1.0
        ensures Signed(sign, Area(At(p, q, t))) >= EPSILON
        ensures forall k | 0 <= k < |vs| :: CornerSafe(At(p, q, t), vs, sign, k)
      {
        assert ShapeSafe(At(p, q, t), vs, sign);
      }
    }
  }

  lemma MotionStart(p: Quad, q: Quad)
    ensures At(p, q, 0.0) == p
    ensures Area(p) == AreaPath(p, Delta(p, q)).a
  {
  }

  // The finite test accepts exactly the motions that are safe at every instant.
  lemma QuadsValidDecidesMotion(p: Quad, q: Quad)
    ensures QuadsValid(p, q) <==> MotionSafe(p, q)
  {
    if SameCoincidences(p, q) && |Corners(p)| >= 3 {
      ValidForSignDecides(p, q, 1.0);
      ValidForSignDecides(p, q, -1.0);
      MotionStart(p, q);
      assert AlwaysSafe(p, q, Corners(p), 1.0) ==> ShapeSafe(At(p, q, 0.0), Corners(p), 1.0);
      assert AlwaysSafe(p, q, Corners(p), -1.0) ==> ShapeSafe(At(p, q, 0.0), Corners(p), -1.0);
    }
  }

  // ---------------------------------------------- the same without a list

  // The list has the corners that some side leaves: all four, or three when one
  // corner stands on the next.
  lemma CornersAre(p: Quad)
    ensures var z0, z1, z2, z3 := p[0] == p[1], p[1] == p[2], p[2] == p[3], p[3] == p[0];
            && (!z0 && !z1 && !z2 && !z3 ==> Corners(p) == [0, 1, 2, 3])
            && (z0 && !z1 && !z2 && !z3 ==> Corners(p) == [1, 2, 3])
            && (!z0 && z1 && !z2 && !z3 ==> Corners(p) == [0, 2, 3])
            && (!z0 && !z1 && z2 && !z3 ==> Corners(p) == [0, 1, 3])
            && (!z0 && !z1 && !z2 && z3 ==> Corners(p) == [0, 1, 2])
            && (|Corners(p)| >= 3 <==> ThreeSides(p))
  {
  }

  // At most one corner stands on the next.
  predicate ThreeSides(p: Quad) {
    forall k, j | 0 <= k < j < 4 :: p[k] != p[k + 1] || p[j] != p[if j == 3 then 0 else j + 1]
  }

  // Corner k of a quad that started as p: the side from it has some length, and the
  // next side, which is the one after that where p had none there, does not turn
  // the wrong way.
  predicate CornerSound(p: Quad, r: Quad, sign: real, k: int)
    requires 0 <= k < 4
  {
    var j, m, n := (k + 1) % 4, (k + 2) % 4, (k + 3) % 4;
    p[k] != p[j] ==>
      && SquaredLength(r[k], r[j]) >= 0.000001
      && Signed(sign, Turn(r[k], r[j], r[if p[j] != p[m] then m else n])) >= -0.000001
  }

  predicate ShapeSound(p: Quad, r: Quad, sign: real) {
    Signed(sign, Area(r)) >= 0.000001 && forall k | 0 <= k < 4 :: CornerSound(p, r, sign, k)
  }

  ghost predicate SoundMotion(p: Quad, q: Quad, sign: real) {
    forall t: real | 0.0 <= t <= 1.0 :: ShapeSound(p, At(p, q, t), sign)
  }

  // The list when corner z stands on the next one.
  predicate Without(p: Quad, z: int)
    requires 0 <= z < 4
  {
    forall k | 0 <= k < 4 :: p[k] == p[if k == 3 then 0 else k + 1] <==> k == z
  }

  lemma ListWithout(p: Quad, z: int, i: int)
    requires 0 <= z < 4 && Without(p, z) && 0 <= i < 3
    ensures |Corners(p)| == 3 && Corners(p)[i] == if i < z then i else i + 1
  {
    assert (p[0] == p[1] <==> z == 0) && (p[1] == p[2] <==> z == 1) && (p[2] == p[3] <==> z == 2);
    assert p[3] == p[0] <==> z == 3;
    CornersAre(p);
    hide Corners, Without;
  }

  // Where the listed corners after the i-th stand.
  predicate Places(p: Quad, a: int, b: int, c: int)
    requires 0 <= a < 4 && 0 <= b < 4 && 0 <= c < 4
  {
    var j, m, n := (a + 1) % 4, (a + 2) % 4, (a + 3) % 4;
    p[a] != p[j] && p[b] == p[j] && p[c] == p[if p[j] != p[m] then m else n]
  }

  lemma PlacesWithout(p: Quad, z: int, i: int)
    requires 0 <= z < 4 && Without(p, z) && 0 <= i < 3
    ensures var vs := Corners(p);
            |vs| == 3 && Places(p, vs[i], vs[(i + 1) % 3], vs[(i + 2) % 3])
  {
    ListWithout(p, z, i);
    ListWithout(p, z, (i + 1) % 3);
    ListWithout(p, z, (i + 2) % 3);
    hide Corners;
    assert (p[0] == p[1] <==> z == 0) && (p[1] == p[2] <==> z == 1) && (p[2] == p[3] <==> z == 2);
    assert p[3] == p[0] <==> z == 3;
  }

  lemma PlacesAll(p: Quad, i: int)
    requires |Corners(p)| == 4 && 0 <= i < 4
    ensures var vs := Corners(p);
            Places(p, vs[i], vs[(i + 1) % 4], vs[(i + 2) % 4])
  {
    CornersAre(p);
    assert p[0] != p[1] && p[1] != p[2] && p[2] != p[3] && p[3] != p[0];
    hide Corners;
    assert forall k | 0 <= k < 4 :: Corners(p)[k] == k;
  }

  lemma OneRepeated(p: Quad) returns (z: int)
    requires |Corners(p)| == 3
    ensures 0 <= z < 4 && Without(p, z)
  {
    z := if p[0] == p[1] then 0 else if p[1] == p[2] then 1 else if p[2] == p[3] then 2 else 3;
    CornersAre(p);
    hide Corners;
  }

  lemma CornerPlaces(p: Quad, i: int)
    requires |Corners(p)| >= 3 && 0 <= i < |Corners(p)|
    ensures var vs := Corners(p);
            Places(p, vs[i], vs[(i + 1) % |vs|], vs[(i + 2) % |vs|])
  {
    hide Corners, Places, Without;
    if |Corners(p)| == 3 {
      var z := OneRepeated(p);
      PlacesWithout(p, z, i);
    } else {
      PlacesAll(p, i);
    }
  }

  lemma CornerSafeMeans(p: Quad, r: Quad, sign: real, i: int)
    requires |Corners(p)| >= 3 && 0 <= i < |Corners(p)|
    requires forall a, b | 0 <= a < 4 && 0 <= b < 4 && p[a] == p[b] :: r[a] == r[b]
    ensures CornerSafe(r, Corners(p), sign, i) <==> CornerSound(p, r, sign, Corners(p)[i])
  {
    CornerPlaces(p, i);
    hide Corners, SquaredLength, Turn, Signed;
    var vs := Corners(p);
    var a, b, c := vs[i], vs[(i + 1) % |vs|], vs[(i + 2) % |vs|];
    var j, m, n := (a + 1) % 4, (a + 2) % 4, (a + 3) % 4;
    assert NextCorner(a) == j && r[b] == r[j] && r[c] == r[if p[j] != p[m] then m else n];
  }

  lemma ShapeSafeMeans(p: Quad, r: Quad, sign: real)
    requires |Corners(p)| >= 3
    requires forall a, b | 0 <= a < 4 && 0 <= b < 4 && p[a] == p[b] :: r[a] == r[b]
    ensures ShapeSafe(r, Corners(p), sign) <==> ShapeSound(p, r, sign)
  {
    hide Corners, CornerSafe, CornerSound, Signed, Area;
    forall i | 0 <= i < |Corners(p)|
      ensures CornerSafe(r, Corners(p), sign, i) <==> CornerSound(p, r, sign, Corners(p)[i])
    {
      CornerSafeMeans(p, r, sign, i);
    }
    forall k | 0 <= k < 4
      ensures k in Corners(p) || CornerSound(p, r, sign, k)
    {
      ListedOrNoSide(p, r, sign, k);
    }
  }

  lemma ListedOrNoSide(p: Quad, r: Quad, sign: real, k: int)
    requires |Corners(p)| >= 3 && 0 <= k < 4
    ensures k in Corners(p) || CornerSound(p, r, sign, k)
  {
    CornersAre(p);
    hide Corners, SquaredLength, Turn, Signed;
  }

  // What the test accepts, corner by corner: the same corners stand together at
  // both ends, at least three sides have a length, and there is an orientation in
  // which the shape is sound at every instant.
  lemma QuadsValidMeans(p: Quad, q: Quad)
    ensures QuadsValid(p, q) <==>
            && (forall k, j | 0 <= k < 4 && 0 <= j < 4 :: p[k] == p[j] <==> q[k] == q[j])
            && ThreeSides(p)
            && (SoundMotion(p, q, 1.0) || SoundMotion(p, q, -1.0))
  {
    hide QuadsValid, Corners, SoundMotion, ThreeSides, AlwaysSafe, SameCoincidences;
    QuadsValidDecidesMotion(p, q);
    CoincidencesBothWays(p, q);
    FewerSides(p);
    if SameCoincidences(p, q) && ThreeSides(p) {
      SoundThroughout(p, q, 1.0);
      SoundThroughout(p, q, -1.0);
    }
  }

  lemma FewerSides(p: Quad)
    ensures |Corners(p)| >= 3 <==> ThreeSides(p)
  {
    CornersAre(p);
  }

  lemma CoincidencesBothWays(p: Quad, q: Quad)
    ensures SameCoincidences(p, q) <==>
            forall k, j | 0 <= k < 4 && 0 <= j < 4 :: p[k] == p[j] <==> q[k] == q[j]
  {
  }

  lemma SoundThroughout(p: Quad, q: Quad, sign: real)
    requires SameCoincidences(p, q) && |Corners(p)| >= 3
    ensures AlwaysSafe(p, q, Corners(p), sign) <==> SoundMotion(p, q, sign)
  {
    hide Corners, ShapeSafe, ShapeSound, At;
    forall t: real | 0.0 <= t <= 1.0
      ensures ShapeSafe(At(p, q, t), Corners(p), sign) <==> ShapeSound(p, At(p, q, t), sign)
    {
      CoincidencesHold(p, q, t);
      ShapeSafeMeans(p, At(p, q, t), sign);
    }
  }

  // Corners that stand together do so at every instant.
  lemma CoincidencesHold(p: Quad, q: Quad, t: real)
    requires SameCoincidences(p, q)
    ensures forall a, b | 0 <= a < 4 && 0 <= b < 4 && p[a] == p[b] :: At(p, q, t)[a] == At(p, q, t)[b]
  {
    forall a, b | 0 <= a < 4 && 0 <= b < 4 && p[a] == p[b]
      ensures At(p, q, t)[a] == At(p, q, t)[b]
    {
      assert q[a] == q[b];
    }
  }

  // ------------------------------------------------------- native faces

  lemma RealProduct(x: int, y: int)
    ensures (x * y) as real == x as real * y as real
  {
  }

  lemma NativePoints(o: Op)
    requires o.pos.Native?
    ensures AllFinite(o)
    ensures forall k | 0 <= k < 4 :: Points(o)[k] == Point(o.pos.xy[2 * k] as real, o.pos.xy[2 * k + 1] as real)
  {
  }

  // The area in integers is that of the face.
  lemma NativeAreaIsArea(o: Op)
    requires o.pos.Native?
    ensures AllFinite(o) && NativeArea(o.pos.xy) as real == Area(Points(o))
  {
    NativePoints(o);
    var p, xy := Points(o), o.pos.xy;
    RealProduct(xy[0], xy[3]);
    RealProduct(xy[2], xy[1]);
    RealProduct(xy[2], xy[5]);
    RealProduct(xy[4], xy[3]);
    RealProduct(xy[4], xy[7]);
    RealProduct(xy[6], xy[5]);
    RealProduct(xy[6], xy[1]);
    RealProduct(xy[0], xy[7]);
    hide Points;
    assert p[0] == Point(xy[0] as real, xy[1] as real) && p[1] == Point(xy[2] as real, xy[3] as real);
    assert p[2] == Point(xy[4] as real, xy[5] as real) && p[3] == Point(xy[6] as real, xy[7] as real);
  }

  // Two faces are taken for the same exactly when both are quads of draw type 2 or
  // 4, differ in nothing that is compared but their place, and have areas of one
  // sign.
  lemma SameMeans(a: Op, b: Op)
    requires a.pos.Native? && b.pos.Native?
    ensures AllFinite(a) && AllFinite(b)
    ensures Same(a, b) <==>
            && a.kind == 1 && (a.material.drawType == 2 || a.material.drawType == 4)
            && b == a.(pos := b.pos, rest := b.rest)
            && ((Area(Points(a)) > 0.0 && Area(Points(b)) > 0.0) || (Area(Points(a)) < 0.0 && Area(Points(b)) < 0.0))
  {
    NativeAreaIsArea(a);
    NativeAreaIsArea(b);
    hide NativeArea, Area, Points;
  }
}
