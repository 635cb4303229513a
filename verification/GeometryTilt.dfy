// A boundary that two faces run along within one unit, and that the weld lets open.
module GeometryTilt {
  import opened GeometryOps
  import opened GeometryMotion
  import opened GeometryUnion
  import opened GeometryEdges
  import opened GeometryWeld
  import opened GeometryAudit
  import opened GeometryCorners

  function Face(pos: Position): Op { Op(VDP1_QUAD, pos, Material(0, 0, 0, 0, 0, 0, 0, 2, 0), {}, 0) }

  // Two squares side by side; the right one's left edge leans one unit.
  const CURRENT: seq<Op> := [Face(Native([0, 0, 0, 10, -10, 10, -10, 0])), Face(Native([1, 0, 11, 0, 11, 10, 0, 10]))]

  // The same, with the right one five units further on.
  const HISTORY: seq<Op> := [
    Face(Presented([Finite(0.0), Finite(0.0), Finite(0.0), Finite(10.0),
                    Finite(-10.0), Finite(10.0), Finite(-10.0), Finite(0.0)])),
    Face(Presented([Finite(6.0), Finite(0.0), Finite(16.0), Finite(0.0),
                    Finite(16.0), Finite(10.0), Finite(5.0), Finite(10.0)]))]

  // A convex quad with four corners that moves without turning is always safe.
  predicate Convex(p: Quad) {
    && Area(p) >= EPSILON
    && forall k | 0 <= k < 4 ::
         && SquaredLength(p[k], p[NextCorner(k)]) >= EPSILON
         && Turn(p[k], p[NextCorner(k)], p[NextCorner(NextCorner(k))]) >= -EPSILON
  }

  lemma ConstantPaths(u: Point, v: Point)
    ensures NormPath(u, Point(0.0, 0.0)) == Quadratic(Norm(u), 0.0, 0.0)
    ensures DetPath(u, v, Point(0.0, 0.0), Point(0.0, 0.0)) == Quadratic(Det(u, v), 0.0, 0.0)
  {
    hide Norm, Det;
    NoProduct(u);
    NoProduct(v);
  }

  lemma NoProduct(u: Point)
    ensures var o := Point(0.0, 0.0); Dot(u, o) == 0.0 && Norm(o) == 0.0 && Det(o, u) == Det(u, o) == Det(o, o) == 0.0
  {
    hide Det, Dot, Squared;
    var o := Point(0.0, 0.0);
    DotWith(u, o, 0.0);
    DetWith(u, o, 0.0);
    DetWith(o, o, 0.0);
    SquaredZero();
  }

  lemma DotWith(u: Point, v: Point, z: real)
    requires v.x == z && v.y == z && z == 0.0
    ensures Dot(u, v) == 0.0
  {
    TimesZero(u.x, v.x);
    TimesZero(u.y, v.y);
  }

  lemma DetWith(u: Point, v: Point, z: real)
    requires v.x == z && v.y == z && z == 0.0
    ensures Det(u, v) == 0.0 && Det(v, u) == 0.0
  {
    TimesZero(u.x, v.y);
    TimesZero(u.y, v.x);
  }

  lemma SquaredZero()
    ensures Squared(0.0) == 0.0
  {
  }

  lemma TimesZero(x: real, z: real)
    requires z == 0.0
    ensures x * z == 0.0 && z * x == 0.0
  {
  }

  lemma ConstantMin(x: real)
    ensures QuadraticMin(Quadratic(x, 0.0, 0.0)) == x && QuadraticMin(Times(1.0, Quadratic(x, 0.0, 0.0))) == x
  {
  }

  lemma ShiftedCorner(p: Quad, c: Point, k: int)
    requires 0 <= k < 4 && Convex(p)
    ensures CornerValid(p, [c, c, c, c], [0, 1, 2, 3], 1.0, k)
  {
    hide QuadraticMin, NormPath, DetPath, Det, Norm;
    var j := NextCorner(k);
    var m := NextCorner(j);
    assert [0, 1, 2, 3][k] == k && [0, 1, 2, 3][(k + 1) % 4] == j && [0, 1, 2, 3][(k + 2) % 4] == m;
    ConstantPaths(Sub(p[j], p[k]), Sub(p[m], p[k]));
    ConstantMin(Norm(Sub(p[j], p[k])));
    ConstantMin(Det(Sub(p[j], p[k]), Sub(p[m], p[k])));
    assert SquaredLength(p[k], p[j]) >= EPSILON && Turn(p[k], p[j], p[m]) >= -EPSILON;
  }

  lemma ShiftedArea(p: Quad, c: Point)
    ensures AreaPath(p, [c, c, c, c]) == Quadratic(Area(p), 0.0, 0.0)
  {
  }

  lemma ShiftIsValid(p: Quad, q: Quad, c: Point)
    requires Convex(p) && Delta(p, q) == [c, c, c, c] && Corners(p) == [0, 1, 2, 3] && SameCoincidences(p, q)
    ensures QuadsValid(p, q)
  {
    hide CornerValid, QuadraticMin, AreaPath, Convex, Corners, SameCoincidences, Delta;
    var d: Quad := [c, c, c, c];
    AreaIsLarge(p);
    ShiftedArea(p, c);
    ConstantMin(Area(p));
    forall k | 0 <= k < 4
      ensures CornerValid(p, d, [0, 1, 2, 3], 1.0, k)
    {
      ShiftedCorner(p, c, k);
    }
  }

  lemma AreaIsLarge(p: Quad)
    requires Convex(p)
    ensures Area(p) >= EPSILON
  {
  }

  const LEFT: Quad := [Point(0.0, 0.0), Point(0.0, 10.0), Point(-10.0, 10.0), Point(-10.0, 0.0)]
  const RIGHT: Quad := [Point(1.0, 0.0), Point(11.0, 0.0), Point(11.0, 10.0), Point(0.0, 10.0)]
  const MOVED: Quad := [Point(6.0, 0.0), Point(16.0, 0.0), Point(16.0, 10.0), Point(5.0, 10.0)]

  lemma LeftValid()
    ensures PairValid(HISTORY[0], CURRENT[0])
  {
    LeftPoints();
    LeftIsConvex();
    hide QuadsValid, Convex, Points;
    ShiftIsValid(LEFT, LEFT, Point(0.0, 0.0));
  }

  lemma LeftPoints()
    ensures AllFinite(HISTORY[0]) && AllFinite(CURRENT[0])
    ensures Points(HISTORY[0]) == LEFT == Points(CURRENT[0])
  {
  }

  lemma LeftIsConvex()
    ensures Convex(LEFT) && Corners(LEFT) == [0, 1, 2, 3] && SameCoincidences(LEFT, LEFT)
    ensures Delta(LEFT, LEFT) == [Point(0.0, 0.0), Point(0.0, 0.0), Point(0.0, 0.0), Point(0.0, 0.0)]
  {
  }

  lemma RightValid()
    ensures PairValid(HISTORY[1], CURRENT[1])
  {
    RightPoints();
    MovedIsConvex();
    hide QuadsValid, Convex, Points;
    ShiftIsValid(MOVED, RIGHT, Point(-5.0, 0.0));
  }

  lemma RightPoints()
    ensures AllFinite(HISTORY[1]) && AllFinite(CURRENT[1])
    ensures Points(HISTORY[1]) == MOVED && Points(CURRENT[1]) == RIGHT
  {
  }

  lemma MovedIsConvex()
    ensures Convex(MOVED) && Corners(MOVED) == [0, 1, 2, 3] && SameCoincidences(MOVED, RIGHT)
    ensures Delta(MOVED, RIGHT) == [Point(-5.0, 0.0), Point(-5.0, 0.0), Point(-5.0, 0.0), Point(-5.0, 0.0)]
  {
    hide Area, SquaredLength, Turn;
    MovedArea();
    forall k | 0 <= k < 4
      ensures SquaredLength(MOVED[k], MOVED[NextCorner(k)]) >= EPSILON
      ensures Turn(MOVED[k], MOVED[NextCorner(k)], MOVED[NextCorner(NextCorner(k))]) >= -EPSILON
    {
      MovedCorner(k);
    }
  }

  lemma MovedArea()
    ensures Area(MOVED) == 210.0
  {
  }

  lemma MovedCorner(k: int)
    requires 0 <= k < 4
    ensures SquaredLength(MOVED[k], MOVED[NextCorner(k)]) >= EPSILON
    ensures Turn(MOVED[k], MOVED[NextCorner(k)], MOVED[NextCorner(NextCorner(k))]) >= -EPSILON
  {
    hide SquaredLength, Turn;
    if k == 0 {
      SideAndTurn(MOVED[0], MOVED[1], MOVED[2], 10.0, 0.0, 10.0, 10.0);
    } else if k == 1 {
      SideAndTurn(MOVED[1], MOVED[2], MOVED[3], 0.0, 10.0, -11.0, 10.0);
    } else if k == 2 {
      SideAndTurn(MOVED[2], MOVED[3], MOVED[0], -11.0, 0.0, -10.0, -10.0);
    } else {
      SideAndTurn(MOVED[3], MOVED[0], MOVED[1], 1.0, -10.0, 11.0, -10.0);
    }
  }

  lemma SideAndTurn(a: Point, b: Point, c: Point, dx: real, dy: real, ex: real, ey: real)
    requires b.x - a.x == dx && b.y - a.y == dy && c.x - a.x == ex && c.y - a.y == ey
    ensures SquaredLength(a, b) == dx * dx + dy * dy && Turn(a, b, c) == dx * ey - dy * ex
  {
  }

  // -------------------------------------------------------- no two edges meet

  // The ends of all eight recorded edges, now and before.
  const LEFT_ENDS: seq<Ends> := [Ends(0.0, 0.0, 0.0, 10.0), Ends(-10.0, 10.0, 0.0, 10.0),
                                 Ends(-10.0, 0.0, -10.0, 10.0), Ends(-10.0, 0.0, 0.0, 0.0)]
  const RIGHT_ENDS: seq<Ends> := [Ends(1.0, 0.0, 11.0, 0.0), Ends(11.0, 0.0, 11.0, 10.0),
                                  Ends(0.0, 10.0, 11.0, 10.0), Ends(0.0, 10.0, 1.0, 0.0)]
  const MOVED_ENDS: seq<Ends> := [Ends(6.0, 0.0, 16.0, 0.0), Ends(16.0, 0.0, 16.0, 10.0),
                                  Ends(5.0, 10.0, 16.0, 10.0), Ends(5.0, 10.0, 6.0, 0.0)]

  lemma CurrentEdges(e: Edge)
    requires Recorded(CURRENT, false, e)
    ensures e.ends == if e.face == 0 then LEFT_ENDS[e.edge] else RIGHT_ENDS[e.edge]
  {
  }

  lemma HistoryEdges(e: Edge)
    requires Recorded(HISTORY, true, e)
    ensures e.ends == if e.face == 0 then LEFT_ENDS[e.edge] else MOVED_ENDS[e.edge]
  {
    hide EdgeAt;
    if e.face == 0 {
      LeftEdge(e.edge);
    } else {
      MovedEdge(e.edge);
    }
  }

  lemma LeftEdge(k: int)
    requires 0 <= k < 4
    ensures EdgeAt(HISTORY, 0, k, true).Some? ==> EdgeAt(HISTORY, 0, k, true).value.ends == LEFT_ENDS[k]
  {
    var o, j := HISTORY[0], NextCorner(k);
    assert XY(o, 2 * k) == Finite(LEFT[k].x) && XY(o, 2 * k + 1) == Finite(LEFT[k].y);
    assert XY(o, 2 * j) == Finite(LEFT[j].x) && XY(o, 2 * j + 1) == Finite(LEFT[j].y);
    hide XY;
  }

  lemma MovedEdge(k: int)
    requires 0 <= k < 4
    ensures EdgeAt(HISTORY, 1, k, true).Some? ==> EdgeAt(HISTORY, 1, k, true).value.ends == MOVED_ENDS[k]
  {
    var o, j := HISTORY[1], NextCorner(k);
    assert XY(o, 2 * k) == Finite(MOVED[k].x) && XY(o, 2 * k + 1) == Finite(MOVED[k].y);
    assert XY(o, 2 * j) == Finite(MOVED[j].x) && XY(o, 2 * j + 1) == Finite(MOVED[j].y);
    hide XY;
  }

  lemma NothingMeets(e: Edge, d: Edge)
    ensures !Coincide(CURRENT, false, e, d) && !Coincide(HISTORY, true, e, d) && !AdjacentEdges(CURRENT, e, d)
  {
    hide EdgeAt;
    if Recorded(CURRENT, false, e) && Recorded(CURRENT, false, d) {
      CurrentEdges(e);
      CurrentEdges(d);
    }
    if Recorded(HISTORY, true, e) && Recorded(HISTORY, true, d) {
      HistoryEdges(e);
      HistoryEdges(d);
    }
  }

  lemma NothingTouches(f: int, g: int)
    ensures !Touches(CURRENT, HISTORY, f, g)
  {
    hide Coincide, AdjacentEdges;
    forall e, d
      ensures !Coincide(CURRENT, false, e, d) && !Coincide(HISTORY, true, e, d) && !AdjacentEdges(CURRENT, e, d)
    {
      NothingMeets(e, d);
    }
  }

  lemma NothingHeld(f: int)
    requires 0 <= f < 2
    ensures !Held(CURRENT, HISTORY, f)
  {
    LeftValid();
    RightValid();
    hide Coincide, AdjacentEdges, PairValid;
    forall e, d
      ensures !Coincide(CURRENT, false, e, d) && !Coincide(HISTORY, true, e, d) && !AdjacentEdges(CURRENT, e, d)
    {
      NothingMeets(e, d);
    }
  }

  lemma NothingFrozen(f: int)
    requires 0 <= f < 2
    ensures !Frozen(CURRENT, HISTORY, f)
  {
    hide Held, Touches, Connected;
    forall g | 0 <= g < 2
      ensures !Held(CURRENT, HISTORY, g)
    {
      NothingHeld(g);
    }
  }

  // The two faces run along each other within one unit, neither is held, and they
  // are drawn six units apart: the weld does not see the boundary, because its
  // ends come in different orders on the two sides.
  lemma TiltedBoundaryOpens()
    ensures |CURRENT| == |HISTORY| == 2
    ensures DrawnWithin(CURRENT[0], 0, CURRENT[1], 0, 1.0) && DrawnWithin(CURRENT[0], 1, CURRENT[1], 3, 1.0)
    ensures Comes(CURRENT[0], 0, 1) && !Comes(CURRENT[1], 0, 3)
    ensures var after := After(CURRENT, HISTORY); !DrawnWithin(after[0], 0, after[1], 0, 5.99)
  {
    hide Frozen;
    NothingFrozen(0);
    NothingFrozen(1);
  }
}
