// What a weld guarantees about the frame that is presented: the exit test of
// `tools/audit_geometry_history.c`, for every input.
module GeometryAudit {
  import opened GeometryOps
  import opened GeometryMotion
  import opened GeometryUnion
  import opened GeometryEdges
  import opened GeometryWeld
  import GeometryMatch

  ghost function After(cur: seq<Op>, hist: seq<Op>): (after: seq<Op>)
    requires |cur| == |hist|
    ensures |after| == |cur|
  {
    seq(|cur|, f requires 0 <= f < |cur| => Welded(cur, hist, f))
  }

  // ------------------------------------------------ connected faces agree

  lemma ConnectedIsReflexive(links: set<Link>, f: int)
    ensures Connected(links, f, f)
  {
  }

  lemma ConnectedSharesFate(cur: seq<Op>, hist: seq<Op>, f: int, g: int)
    requires |cur| == |hist| && 0 <= f < |cur| && 0 <= g < |cur|
    requires Connected(Contacts(cur, hist), f, g)
    ensures Frozen(cur, hist, f) <==> Frozen(cur, hist, g)
  {
    hide Held, Contacts;
    var links := Contacts(cur, hist);
    ConnectedIsSymmetric(links, f, g);
    if h :| 0 <= h < |cur| && Connected(links, f, h) && Held(cur, hist, h) {
      assert Connected(links, g, h);
    }
    if h :| 0 <= h < |cur| && Connected(links, g, h) && Held(cur, hist, h) {
      assert Connected(links, f, h);
    }
  }

  lemma ConnectedIsSymmetric(links: set<Link>, f: int, g: int)
    requires Connected(links, f, g)
    ensures Connected(links, g, f)
  {
    forall s: set<int> | Closed(links, s) && g in s
      ensures f in s
    {
      if f !in s {
        var ends := (set l | l in links :: l.0) + (set l | l in links :: l.1) + {f, g};
        var rest := ends - s;
        assert Closed(links, rest);
      }
    }
  }

  lemma ContactConnects(cur: seq<Op>, hist: seq<Op>, f: int, g: int)
    requires |cur| == |hist| && 0 <= f < |cur| && 0 <= g < |cur| && Touches(cur, hist, f, g)
    ensures Connected(Contacts(cur, hist), f, g)
  {
    hide Touches;
    LinkConnects(Contacts(cur, hist), (f, g));
  }

  lemma UnfrozenIsNotHeld(cur: seq<Op>, hist: seq<Op>, f: int)
    requires |cur| == |hist| && 0 <= f < |cur| && !Frozen(cur, hist, f)
    ensures !Held(cur, hist, f)
  {
    hide Held;
    ConnectedIsReflexive(Contacts(cur, hist), f);
  }

  // ------------------------------------------------- edges and positions

  lemma RecordedEnds(ops: seq<Op>, history: bool, e: Edge)
    requires Recorded(ops, history, e)
    ensures InRange(e, |ops|) && e.a / 4 == e.face && e.b / 4 == e.face && Eligible(ops[e.face])
    ensures VertexXY(ops, e.a, 0) == Finite(e.ends.x0) && VertexXY(ops, e.a, 1) == Finite(e.ends.y0)
    ensures VertexXY(ops, e.b, 0) == Finite(e.ends.x1) && VertexXY(ops, e.b, 1) == Finite(e.ends.y1)
  {
    var k, j := e.edge, NextCorner(e.edge);
    assert (4 * e.face + k) / 4 == e.face && (4 * e.face + k) % 4 == k;
    assert (4 * e.face + j) / 4 == e.face && (4 * e.face + j) % 4 == j;
  }

  lemma CloseNeedsTwoFaces(ops: seq<Op>, ops': seq<Op>, e: Edge, d: Edge, limit: real)
    requires |ops| == |ops'| && InRange(e, |ops|) && InRange(d, |ops|)
    requires e.a / 4 == e.face == e.b / 4 && d.a / 4 == d.face == d.b / 4
    requires ops[e.face].pos == ops'[e.face].pos && ops[d.face].pos == ops'[d.face].pos
    ensures Close(ops, e, d, limit) == Close(ops', e, d, limit)
  {
  }

  // ----------------------------------------------------------- no cracks

  // Two faces sharing a current edge are drawn with that edge in one place.
  lemma SharedEdgesStayTogether(cur: seq<Op>, hist: seq<Op>, e: Edge, d: Edge)
    requires |cur| == |hist| && Coincide(cur, false, e, d) && e.face != d.face
    ensures InRange(e, |cur|) && InRange(d, |cur|) && Close(After(cur, hist), e, d, SHARED_LIMIT)
  {
    hide Touches, Frozen, Close, EdgeAt, Held, VertexXY;
    var f, g, after := e.face, d.face, After(cur, hist);
    RecordedEnds(cur, false, e);
    RecordedEnds(cur, false, d);
    SharedEdgeTouches(cur, hist, e, d);
    ContactConnects(cur, hist, f, g);
    ConnectedSharesFate(cur, hist, f, g);
    if Frozen(cur, hist, f) {
      EqualEndsAreClose(cur, e, d, SHARED_LIMIT);
      CloseNeedsTwoFaces(cur, after, e, d, SHARED_LIMIT);
    } else {
      UnfrozenIsNotHeld(cur, hist, f);
      SharedEdgeHadAgreed(cur, hist, e, d);
      CloseNeedsTwoFaces(hist, after, e, d, SHARED_LIMIT);
    }
  }

  lemma SharedEdgeTouches(cur: seq<Op>, hist: seq<Op>, e: Edge, d: Edge)
    requires Coincide(cur, false, e, d)
    ensures Touches(cur, hist, e.face, d.face)
  {
  }

  lemma EqualEndsAreClose(cur: seq<Op>, e: Edge, d: Edge, limit: real)
    requires Recorded(cur, false, e) && Recorded(cur, false, d) && InRange(e, |cur|) && InRange(d, |cur|)
    requires e.ends == d.ends && limit >= 0.0
    ensures Close(cur, e, d, limit)
  {
    hide EdgeAt, VertexXY;
    RecordedEnds(cur, false, e);
    RecordedEnds(cur, false, d);
  }

  lemma SharedEdgeHadAgreed(cur: seq<Op>, hist: seq<Op>, e: Edge, d: Edge)
    requires |cur| == |hist| && Coincide(cur, false, e, d) && InRange(e, |cur|) && InRange(d, |cur|)
    requires !Held(cur, hist, e.face)
    ensures Close(hist, e, d, SHARED_LIMIT)
  {
    hide EdgeAt, Close;
    assert !SharedConflict(cur, false, hist, SHARED_LIMIT, e.face);
    assert !Ambiguous(cur, false, hist, SHARED_LIMIT, e, d);
  }

  // Two faces running within a pixel of each other stay that way.
  lemma AdjacentEdgesStayTogether(cur: seq<Op>, hist: seq<Op>, e: Edge, d: Edge)
    requires |cur| == |hist| && AdjacentEdges(cur, e, d)
    ensures Close(After(cur, hist), e, d, ADJACENT_LIMIT)
  {
    hide Touches, Frozen, Close, EdgeAt, Held, VertexXY;
    var f, g, after := e.face, d.face, After(cur, hist);
    RecordedEnds(cur, false, e);
    RecordedEnds(cur, false, d);
    AdjacentEdgeTouches(cur, hist, e, d);
    ContactConnects(cur, hist, f, g);
    ConnectedSharesFate(cur, hist, f, g);
    if Frozen(cur, hist, f) {
      AdjacentEndsAreClose(cur, e, d);
      CloseNeedsTwoFaces(cur, after, e, d, ADJACENT_LIMIT);
    } else {
      UnfrozenIsNotHeld(cur, hist, f);
      AdjacentEdgeHadAgreed(cur, hist, e, d);
      CloseNeedsTwoFaces(hist, after, e, d, ADJACENT_LIMIT);
    }
  }

  lemma AdjacentEdgeTouches(cur: seq<Op>, hist: seq<Op>, e: Edge, d: Edge)
    requires AdjacentEdges(cur, e, d)
    ensures Touches(cur, hist, e.face, d.face)
  {
  }

  lemma AdjacentEndsAreClose(cur: seq<Op>, e: Edge, d: Edge)
    requires AdjacentEdges(cur, e, d)
    ensures Close(cur, e, d, ADJACENT_LIMIT)
  {
    hide EdgeAt, VertexXY;
    RecordedEnds(cur, false, e);
    RecordedEnds(cur, false, d);
  }

  lemma AdjacentEdgeHadAgreed(cur: seq<Op>, hist: seq<Op>, e: Edge, d: Edge)
    requires |cur| == |hist| && AdjacentEdges(cur, e, d) && !Held(cur, hist, e.face)
    ensures Close(hist, e, d, ADJACENT_LIMIT)
  {
    hide EdgeAt, Close;
    assert !AdjacentConflict(cur, hist, e.face);
  }

  // So no crack of more than a hundredth opens anywhere along two edges that
  // are drawn within one unit of each other.
  lemma NoCrackAlongTouchingEdges(cur: seq<Op>, hist: seq<Op>, e: Edge, d: Edge)
    requires |cur| == |hist| && Recorded(cur, false, e) && Recorded(cur, false, d) && e.face != d.face
    requires Within1(e.ends.x0, d.ends.x0) && Within1(e.ends.y0, d.ends.y0)
    requires Within1(e.ends.x1, d.ends.x1) && Within1(e.ends.y1, d.ends.y1)
    ensures InRange(e, |cur|) && InRange(d, |cur|) && Close(After(cur, hist), e, d, ADJACENT_LIMIT)
  {
    hide EdgeAt, After, VertexXY;
    RecordedInRange(cur, false, e);
    RecordedInRange(cur, false, d);
    if e.ends == d.ends {
      SharedEdgesStayTogether(cur, hist, e, d);
    } else {
      AdjacentEdgesStayTogether(cur, hist, e, d);
    }
  }

  // ------------------------------------------------------ whole surfaces

  // A face is put back exactly when its surface holds a held face, and never
  // half-way: it is drawn in its old place or in its current one.
  lemma RevertsIffFrozen(cur: seq<Op>, hist: seq<Op>, f: int)
    requires |cur| == |hist| && 0 <= f < |cur| && Eligible(cur[f]) && cur[f].pos.Native?
    ensures After(cur, hist)[f] == cur[f] <==> Frozen(cur, hist, f)
    ensures After(cur, hist)[f].pos == cur[f].pos || After(cur, hist)[f].pos == hist[f].pos
  {
    hide Held, Contacts, PairValid, SeamsOf;
    if !Frozen(cur, hist, f) {
      UnfrozenIsNotHeld(cur, hist, f);
      UnheldIsValid(cur, hist, f);
    }
  }

  lemma UnheldIsValid(cur: seq<Op>, hist: seq<Op>, f: int)
    requires |cur| == |hist| && 0 <= f < |cur| && Eligible(cur[f]) && !Held(cur, hist, f)
    ensures IsPresented(hist[f]) && PairValid(hist[f], cur[f])
  {
    hide PairValid;
  }

  lemma SurfaceMovesAsOne(cur: seq<Op>, hist: seq<Op>, f: int, g: int)
    requires |cur| == |hist| && 0 <= f < |cur| && 0 <= g < |cur|
    requires Eligible(cur[f]) && Eligible(cur[g]) && cur[f].pos.Native? && cur[g].pos.Native?
    requires Connected(Contacts(cur, hist), f, g)
    ensures After(cur, hist)[f] == cur[f] <==> After(cur, hist)[g] == cur[g]
  {
    hide Frozen, After, Contacts, Connected;
    RevertsIffFrozen(cur, hist, f);
    RevertsIffFrozen(cur, hist, g);
    ConnectedSharesFate(cur, hist, f, g);
  }

  // ------------------------------------------------------------ the audit

  // The four counters the audit adds up, each asked to be zero.
  ghost predicate NoCracks(cur: seq<Op>, shape: seq<Op>)
    requires |cur| == |shape|
  {
    forall e, d | Coincide(cur, false, e, d) && e.face != d.face ::
      InRange(e, |cur|) && InRange(d, |cur|) && Close(shape, e, d, SHARED_LIMIT)
  }

  predicate NotDeformed(cur: Op, before: Op, after: Op) {
    after.pos == before.pos || after.pos == cur.pos
  }

  predicate NotInverted(cur: Op, after: Op) {
    AllFinite(cur) && AllFinite(after) && Area(Points(after)) * Area(Points(cur)) >= 0.0
  }

  predicate PathSafe(cur: Op, after: Op) {
    IsPresented(after) ==> PairValid(after, cur)
  }

  ghost predicate AuditPasses(cur: seq<Op>, before: seq<Op>, after: seq<Op>)
    requires |cur| == |before| == |after|
  {
    && NoCracks(cur, after)
    && forall f | 0 <= f < |cur| && Eligible(cur[f]) ::
         NotDeformed(cur[f], before[f], after[f]) && NotInverted(cur[f], after[f]) && PathSafe(cur[f], after[f])
  }

  lemma ValidPairKeepsWinding(hist: Op, cur: Op)
    requires PairValid(hist, cur)
    ensures Area(Points(hist)) * Area(Points(cur)) >= 0.0
  {
    hide *;
    assert AllFinite(hist) && AllFinite(cur) && QuadsValid(Points(hist), Points(cur)) by { ValidParts(hist, cur); }
    WindingKept(Points(hist), Points(cur));
  }

  lemma ValidParts(hist: Op, cur: Op)
    requires PairValid(hist, cur)
    ensures AllFinite(hist) && AllFinite(cur) && QuadsValid(Points(hist), Points(cur))
  {
  }

  lemma WindingKept(p: Quad, q: Quad)
    requires QuadsValid(p, q)
    ensures Area(p) * Area(q) >= 0.0
  {
    QuadsValidDecidesMotion(p, q);
    MotionStart(p, q);
    GeometryMatch.MotionEnds(p, q);
    hide QuadsValid, At, Corners, CornerSafe, Area;
    var sign := if AlwaysSafe(p, q, Corners(p), 1.0) then 1.0 else -1.0;
    assert ShapeSafe(At(p, q, 0.0), Corners(p), sign) && ShapeSafe(At(p, q, 1.0), Corners(p), sign);
    var a, b := Area(p), Area(q);
    if sign == 1.0 {
      ProductNonNegative(a, b);
    } else {
      ProductNonNegative(-a, -b);
    }
  }

  lemma NativeIsFinite(o: Op)
    requires o.pos.Native?
    ensures AllFinite(o) && !IsPresented(o)
  {
  }

  lemma SquareNonNegative(x: real)
    ensures x * x >= 0.0
  {
  }

  lemma WeldPassesAudit(cur: seq<Op>, hist: seq<Op>)
    requires |cur| == |hist| && GeometryMatch.AllNative(cur)
    ensures AuditPasses(cur, hist, After(cur, hist))
  {
    var after := After(cur, hist);
    forall e, d | Coincide(cur, false, e, d) && e.face != d.face
      ensures InRange(e, |cur|) && InRange(d, |cur|) && Close(after, e, d, SHARED_LIMIT)
    {
      SharedEdgesStayTogether(cur, hist, e, d);
    }
    forall f | 0 <= f < |cur| && Eligible(cur[f])
      ensures NotDeformed(cur[f], hist[f], after[f]) && NotInverted(cur[f], after[f]) && PathSafe(cur[f], after[f])
    {
      WeldedFacePasses(cur, hist, f);
    }
  }

  lemma WeldedFacePasses(cur: seq<Op>, hist: seq<Op>, f: int)
    requires |cur| == |hist| && 0 <= f < |cur| && Eligible(cur[f]) && cur[f].pos.Native?
    ensures var after := Welded(cur, hist, f);
            NotDeformed(cur[f], hist[f], after) && NotInverted(cur[f], after) && PathSafe(cur[f], after)
  {
    hide Frozen, Held, Area, PairValid, SeamsOf, AllFinite, QuadsValid, Points;
    var after := Welded(cur, hist, f);
    NativeIsFinite(cur[f]);
    if Frozen(cur, hist, f) {
      SquareNonNegative(Area(Points(cur[f])));
    } else {
      UnfrozenIsNotHeld(cur, hist, f);
      UnheldIsValid(cur, hist, f);
      SamePlaceSamePair(hist[f], after, cur[f]);
      ValidParts(after, cur[f]);
      ValidPairKeepsWinding(after, cur[f]);
    }
  }

  lemma SamePlaceSamePair(o: Op, o': Op, cur: Op)
    requires o.pos == o'.pos
    ensures PairValid(o, cur) == PairValid(o', cur)
  {
    hide QuadsValid;
    assert forall k | 0 <= k < 8 :: XY(o, k) == XY(o', k);
  }
}
