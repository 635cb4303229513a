// The weld's guarantees said of corners alone: where two faces meet, they are
// drawn meeting, whichever way each of them runs.
module GeometryCorners {
  import opened GeometryOps
  import opened GeometryEdges
  import opened GeometryWeld
  import opened GeometryAudit
  import GeometryMatch

  predicate Neighbours(k: int, j: int) {
    0 <= k < 4 && 0 <= j < 4 && (j == (k + 1) % 4 || k == (j + 1) % 4)
  }

  // Corner k of a and corner m of b stand in one place.
  predicate Meet(a: Op, k: int, b: Op, m: int)
    requires 0 <= k < 4 && 0 <= m < 4
  {
    XY(a, 2 * k) == XY(b, 2 * m) && XY(a, 2 * k + 1) == XY(b, 2 * m + 1)
  }

  predicate IsFinite(a: Op, k: int)
    requires 0 <= k < 4
  {
    XY(a, 2 * k).Finite? && XY(a, 2 * k + 1).Finite?
  }

  // They are drawn at most `limit` apart on each axis.
  predicate DrawnWithin(a: Op, k: int, b: Op, m: int, limit: real)
    requires 0 <= k < 4 && 0 <= m < 4
  {
    && IsFinite(a, k) && IsFinite(b, m)
    && -limit <= XY(a, 2 * k).value - XY(b, 2 * m).value <= limit
    && -limit <= XY(a, 2 * k + 1).value - XY(b, 2 * m + 1).value <= limit
  }

  // The edge between two neighbouring corners, and which of them it starts at.
  function EdgeNumber(k: int, j: int): (e: int)
    requires Neighbours(k, j)
    ensures 0 <= e < 4
  {
    if j == (k + 1) % 4 then k else j
  }

  // One corner is left of the other, or straight above it.
  predicate Comes(a: Op, k: int, j: int)
    requires 0 <= k < 4 && 0 <= j < 4 && IsFinite(a, k) && IsFinite(a, j)
  {
    var x, y, x', y' := XY(a, 2 * k).value, XY(a, 2 * k + 1).value, XY(a, 2 * j).value, XY(a, 2 * j + 1).value;
    x < x' || (x == x' && y < y')
  }

  // An edge is recorded from the corner that comes first to the other one.
  lemma EdgeRuns(ops: seq<Op>, f: int, k: int, j: int, history: bool) returns (e: Edge)
    requires 0 <= f < |ops| && Neighbours(k, j) && Eligible(ops[f]) && (history ==> IsPresented(ops[f]))
    requires IsFinite(ops[f], k) && IsFinite(ops[f], j) && Comes(ops[f], k, j)
    ensures Recorded(ops, history, e) && e.face == f && e.edge == EdgeNumber(k, j)
    ensures e.a == 4 * f + k && e.b == 4 * f + j
    ensures e.ends == Ends(XY(ops[f], 2 * k).value, XY(ops[f], 2 * k + 1).value,
                           XY(ops[f], 2 * j).value, XY(ops[f], 2 * j + 1).value)
  {
    e := EdgeAt(ops, f, EdgeNumber(k, j), history).value;
  }

  lemma VertexIsCorner(shape: seq<Op>, v: int, f: int, k: int)
    requires 0 <= f < |shape| && 0 <= k < 4 && v == 4 * f + k
    ensures VertexXY(shape, v, 0) == XY(shape[f], 2 * k) && VertexXY(shape, v, 1) == XY(shape[f], 2 * k + 1)
  {
    assert v / 4 == f && v % 4 == k;
  }

  lemma VerticesMean(shape: seq<Op>, v: int, f: int, k: int, w: int, g: int, m: int, limit: real)
    requires 0 <= f < |shape| && 0 <= k < 4 && v == 4 * f + k && 0 <= g < |shape| && 0 <= m < 4 && w == 4 * g + m
    ensures VerticesClose(shape, v, w, limit) <==> DrawnWithin(shape[f], k, shape[g], m, limit)
  {
    VertexIsCorner(shape, v, f, k);
    VertexIsCorner(shape, w, g, m);
    hide VertexXY, XY;
  }

  lemma CloseCorners(ops: seq<Op>, e: Edge, d: Edge, f: int, k: int, j: int, g: int, m: int, n: int, limit: real)
    requires InRange(e, |ops|) && InRange(d, |ops|) && Close(ops, e, d, limit)
    requires 0 <= f < |ops| && 0 <= g < |ops| && Neighbours(k, j) && Neighbours(m, n)
    requires e.a == 4 * f + k && e.b == 4 * f + j && d.a == 4 * g + m && d.b == 4 * g + n
    ensures DrawnWithin(ops[f], k, ops[g], m, limit) && DrawnWithin(ops[f], j, ops[g], n, limit)
  {
    hide VerticesClose, DrawnWithin;
    VerticesMean(ops, e.a, f, k, d.a, g, m, limit);
    VerticesMean(ops, e.b, f, j, d.b, g, n, limit);
  }

  // Where two neighbouring corners of one face stand where two neighbouring
  // corners of another stand, in either order, they are drawn there together.
  lemma MeetingCornersStay(cur: seq<Op>, hist: seq<Op>, f: int, k: int, j: int, g: int, m: int, n: int)
    requires |cur| == |hist| && 0 <= f < |cur| && 0 <= g < |cur| && f != g && Eligible(cur[f]) && Eligible(cur[g])
    requires Neighbours(k, j) && Neighbours(m, n) && Meet(cur[f], k, cur[g], m) && Meet(cur[f], j, cur[g], n)
    requires IsFinite(cur[f], k) && IsFinite(cur[f], j) && !Meet(cur[f], k, cur[f], j)
    ensures var after := After(cur, hist);
            DrawnWithin(after[f], k, after[g], m, 0.01) && DrawnWithin(after[f], j, after[g], n, 0.01)
  {
    hide After, Coincide, Close, DrawnWithin;
    var after := After(cur, hist);
    forall e, d | Coincide(cur, false, e, d) && e.face != d.face
      ensures InRange(e, |cur|) && InRange(d, |cur|) && Close(after, e, d, SHARED_LIMIT)
    {
      SharedEdgesStayTogether(cur, hist, e, d);
    }
    CracksAreCorners(cur, after);
    assert Shared(cur, f, k, j, g, m, n);
  }

  // Corners of two edges that come in the same order and stand within one unit.
  lemma OrderedCornersNear(cur: seq<Op>, hist: seq<Op>, f: int, k: int, j: int, g: int, m: int, n: int)
    requires |cur| == |hist| && 0 <= f < |cur| && 0 <= g < |cur| && f != g && Eligible(cur[f]) && Eligible(cur[g])
    requires Neighbours(k, j) && Neighbours(m, n)
    requires DrawnWithin(cur[f], k, cur[g], m, 1.0) && DrawnWithin(cur[f], j, cur[g], n, 1.0)
    requires Comes(cur[f], k, j) && Comes(cur[g], m, n)
    ensures var after := After(cur, hist);
            DrawnWithin(after[f], k, after[g], m, 1.01) && DrawnWithin(after[f], j, after[g], n, 1.01)
  {
    hide Close, EdgeAt, Frozen, Recorded;
    var e := EdgeRuns(cur, f, k, j, false);
    var d := EdgeRuns(cur, g, m, n, false);
    NoCrackAlongTouchingEdges(cur, hist, e, d);
    CloseCorners(After(cur, hist), e, d, f, k, j, g, m, n, ADJACENT_LIMIT);
  }

  // Two edges within one unit of each other are drawn within 1.01, provided
  // that their ends come in the same order.
  lemma NearCornersStay(cur: seq<Op>, hist: seq<Op>, f: int, k: int, j: int, g: int, m: int, n: int)
    requires |cur| == |hist| && 0 <= f < |cur| && 0 <= g < |cur| && f != g && Eligible(cur[f]) && Eligible(cur[g])
    requires Neighbours(k, j) && Neighbours(m, n)
    requires DrawnWithin(cur[f], k, cur[g], m, 1.0) && DrawnWithin(cur[f], j, cur[g], n, 1.0)
    requires !Meet(cur[f], k, cur[f], j) && !Meet(cur[g], m, cur[g], n)
    requires Comes(cur[f], k, j) == Comes(cur[g], m, n)
    ensures var after := After(cur, hist);
            DrawnWithin(after[f], k, after[g], m, 1.01) && DrawnWithin(after[f], j, after[g], n, 1.01)
  {
    hide After;
    if Comes(cur[f], k, j) {
      OrderedCornersNear(cur, hist, f, k, j, g, m, n);
    } else {
      OrderedCornersNear(cur, hist, f, j, k, g, n, m);
    }
  }

  // The weld takes two such edges for neighbours exactly when their ends come in
  // the same order, or are near crosswise as well.
  lemma NearEdgesCount(ops: seq<Op>, f: int, k: int, j: int, g: int, m: int, n: int) returns (e: Edge, d: Edge)
    requires 0 <= f < |ops| && 0 <= g < |ops| && f != g && Eligible(ops[f]) && Eligible(ops[g])
    requires Neighbours(k, j) && Neighbours(m, n)
    requires DrawnWithin(ops[f], k, ops[g], m, 1.0) && DrawnWithin(ops[f], j, ops[g], n, 1.0)
    requires !Meet(ops[f], k, ops[f], j) && !Meet(ops[g], m, ops[g], n)
    ensures Recorded(ops, false, e) && e.face == f && e.edge == EdgeNumber(k, j)
    ensures Recorded(ops, false, d) && d.face == g && d.edge == EdgeNumber(m, n)
    ensures e.ends == d.ends || Adjacent(e, d) <==>
            || Comes(ops[f], k, j) == Comes(ops[g], m, n)
            || (DrawnWithin(ops[f], k, ops[g], n, 1.0) && DrawnWithin(ops[f], j, ops[g], m, 1.0))
  {
    hide EdgeAt, Recorded;
    if Comes(ops[f], k, j) {
      e := EdgeRuns(ops, f, k, j, false);
    } else {
      e := EdgeRuns(ops, f, j, k, false);
    }
    if Comes(ops[g], m, n) {
      d := EdgeRuns(ops, g, m, n, false);
    } else {
      d := EdgeRuns(ops, g, n, m, false);
    }
  }

  // ------------------------------------------------------------ the audit

  // No two faces that meet at two neighbouring corners are drawn apart there.
  ghost predicate CornersHold(cur: seq<Op>, shape: seq<Op>)
    requires |cur| == |shape|
  {
    forall f, k, j, g, m, n | Shared(cur, f, k, j, g, m, n) ::
      DrawnWithin(shape[f], k, shape[g], m, 0.01) && DrawnWithin(shape[f], j, shape[g], n, 0.01)
  }

  predicate Shared(cur: seq<Op>, f: int, k: int, j: int, g: int, m: int, n: int) {
    && 0 <= f < |cur| && 0 <= g < |cur| && f != g && Eligible(cur[f]) && Eligible(cur[g])
    && Neighbours(k, j) && Neighbours(m, n) && Meet(cur[f], k, cur[g], m) && Meet(cur[f], j, cur[g], n)
    && IsFinite(cur[f], k) && IsFinite(cur[f], j) && !Meet(cur[f], k, cur[f], j)
  }

  // The audit's crack count is zero exactly when that is so, for any shape.
  lemma CracksAreCorners(cur: seq<Op>, shape: seq<Op>)
    requires |cur| == |shape|
    ensures NoCracks(cur, shape) <==> CornersHold(cur, shape)
  {
    hide EdgeAt, Close, DrawnWithin;
    if NoCracks(cur, shape) {
      forall f, k, j, g, m, n | Shared(cur, f, k, j, g, m, n)
        ensures DrawnWithin(shape[f], k, shape[g], m, 0.01) && DrawnWithin(shape[f], j, shape[g], n, 0.01)
      {
        if Comes(cur[f], k, j) {
          NoCrackAtCorners(cur, shape, f, k, j, g, m, n);
        } else {
          NoCrackAtCorners(cur, shape, f, j, k, g, n, m);
        }
      }
    }
    if CornersHold(cur, shape) {
      forall e, d | Coincide(cur, false, e, d) && e.face != d.face
        ensures InRange(e, |cur|) && InRange(d, |cur|) && Close(shape, e, d, SHARED_LIMIT)
      {
        CornersHoldEdge(cur, shape, e, d);
      }
    }
  }

  lemma NoCrackAtCorners(cur: seq<Op>, shape: seq<Op>, f: int, k: int, j: int, g: int, m: int, n: int)
    requires |cur| == |shape| && NoCracks(cur, shape) && Shared(cur, f, k, j, g, m, n) && Comes(cur[f], k, j)
    ensures DrawnWithin(shape[f], k, shape[g], m, 0.01) && DrawnWithin(shape[f], j, shape[g], n, 0.01)
  {
    hide Close, EdgeAt, Recorded;
    var e := EdgeRuns(cur, f, k, j, false);
    var d := EdgeRuns(cur, g, m, n, false);
    assert Coincide(cur, false, e, d);
    CloseCorners(shape, e, d, f, k, j, g, m, n, SHARED_LIMIT);
  }

  // The corners a recorded edge runs between.
  lemma EdgeCorners(cur: seq<Op>, e: Edge) returns (k: int, j: int)
    requires Recorded(cur, false, e)
    ensures InRange(e, |cur|) && Neighbours(k, j) && e.a == 4 * e.face + k && e.b == 4 * e.face + j
    ensures Eligible(cur[e.face]) && IsFinite(cur[e.face], k) && IsFinite(cur[e.face], j)
    ensures !Meet(cur[e.face], k, cur[e.face], j)
    ensures e.ends == Ends(XY(cur[e.face], 2 * k).value, XY(cur[e.face], 2 * k + 1).value,
                           XY(cur[e.face], 2 * j).value, XY(cur[e.face], 2 * j + 1).value)
  {
    k, j := e.a - 4 * e.face, e.b - 4 * e.face;
  }

  lemma CornersHoldEdge(cur: seq<Op>, shape: seq<Op>, e: Edge, d: Edge)
    requires |cur| == |shape| && CornersHold(cur, shape) && Coincide(cur, false, e, d) && e.face != d.face
    ensures InRange(e, |cur|) && InRange(d, |cur|) && Close(shape, e, d, SHARED_LIMIT)
  {
    hide EdgeAt, Recorded;
    var k, j := EdgeCorners(cur, e);
    var m, n := EdgeCorners(cur, d);
    assert Shared(cur, e.face, k, j, d.face, m, n);
    VerticesMean(shape, e.a, e.face, k, d.a, d.face, m, 0.01);
    VerticesMean(shape, e.b, e.face, j, d.b, d.face, n, 0.01);
    hide VerticesClose, DrawnWithin, Shared, Meet;
  }
}
