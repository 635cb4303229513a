// Which faces the weld puts back, said of corners alone.
module GeometryReverts {
  import opened GeometryOps
  import opened GeometryMotion
  import opened GeometryUnion
  import opened GeometryEdges
  import opened GeometryWeld
  import opened GeometryAudit
  import opened GeometryCorners

  // A side of a face, from the corner that comes first to the other one.
  datatype Side = Side(face: int, from: int, to: int)

  predicate IsSide(ops: seq<Op>, history: bool, s: Side) {
    && 0 <= s.face < |ops| && Eligible(ops[s.face]) && (history ==> IsPresented(ops[s.face]))
    && Neighbours(s.from, s.to) && IsFinite(ops[s.face], s.from) && IsFinite(ops[s.face], s.to)
    && Comes(ops[s.face], s.from, s.to)
  }

  predicate Placed(n: nat, s: Side) { 0 <= s.face < n && Neighbours(s.from, s.to) }

  predicate SidesMeet(ops: seq<Op>, s: Side, t: Side)
    requires Placed(|ops|, s) && Placed(|ops|, t)
  {
    Meet(ops[s.face], s.from, ops[t.face], t.from) && Meet(ops[s.face], s.to, ops[t.face], t.to)
  }

  predicate DrawnTogether(ops: seq<Op>, s: Side, t: Side, limit: real)
    requires Placed(|ops|, s) && Placed(|ops|, t)
  {
    && DrawnWithin(ops[s.face], s.from, ops[t.face], t.from, limit)
    && DrawnWithin(ops[s.face], s.to, ops[t.face], t.to, limit)
  }

  // Two sides that run between the same two places.
  predicate OneLine(ops: seq<Op>, history: bool, s: Side, t: Side) {
    IsSide(ops, history, s) && IsSide(ops, history, t) && s != t && SidesMeet(ops, s, t)
  }

  // It is not clear that they stay together: they are of one face, `shape` draws
  // them apart, or a third side runs there.
  ghost predicate Unclear(ops: seq<Op>, history: bool, shape: seq<Op>, limit: real, s: Side, t: Side)
    requires |shape| == |ops|
  {
    && OneLine(ops, history, s, t)
    && (s.face == t.face || !DrawnTogether(shape, s, t, limit) || exists u :: u != t && OneLine(ops, history, s, u))
  }

  // Sides of two faces at most one unit apart.
  predicate Beside(cur: seq<Op>, s: Side, t: Side) {
    && IsSide(cur, false, s) && IsSide(cur, false, t) && s.face != t.face
    && !SidesMeet(cur, s, t) && DrawnTogether(cur, s, t, 1.0)
  }

  ghost predicate HasUnclear(ops: seq<Op>, history: bool, shape: seq<Op>, limit: real, f: int)
    requires |shape| == |ops|
  {
    exists s, t :: Unclear(ops, history, shape, limit, s, t) && s.face == f
  }

  // Face f cannot be drawn in motion: it has no motion to be drawn in, its motion
  // is not safe, or it would come apart from a face it belongs to.
  ghost predicate Faulty(cur: seq<Op>, hist: seq<Op>, f: int)
    requires |cur| == |hist| && 0 <= f < |cur|
  {
    || (Eligible(cur[f]) && (hist[f].pos.Native? || !PairValid(hist[f], cur[f])))
    || HasUnclear(cur, false, hist, 0.01, f)
    || HasUnclear(hist, true, cur, 1.01, f)
    || exists s, t :: Beside(cur, s, t) && s.face == f && !DrawnTogether(hist, s, t, 1.01)
  }

  // Two faces that must share their fate: their sides meet or run beside each other
  // as submitted, or met in the history.
  ghost predicate Touching(cur: seq<Op>, hist: seq<Op>, f: int, g: int) {
    exists s, t :: Together(cur, hist, s, t) && s.face == f && t.face == g
  }

  predicate Together(cur: seq<Op>, hist: seq<Op>, s: Side, t: Side) {
    OneLine(cur, false, s, t) || Beside(cur, s, t) || OneLine(hist, true, s, t)
  }

  // A chain of touching faces from f to g.
  ghost predicate Chain(cur: seq<Op>, hist: seq<Op>, path: seq<int>, f: int, g: int) {
    && path != [] && path[0] == f && path[|path| - 1] == g
    && forall i | 0 <= i < |path| - 1 :: Touching(cur, hist, path[i], path[i + 1])
  }

  ghost predicate Reached(cur: seq<Op>, hist: seq<Op>, f: int, g: int) {
    exists path :: Chain(cur, hist, path, f, g)
  }

  // -------------------------------------------------- sides are the edges

  function EdgeOf(ops: seq<Op>, history: bool, s: Side): Edge
    requires IsSide(ops, history, s)
  {
    var o := ops[s.face];
    Edge(Ends(XY(o, 2 * s.from).value, XY(o, 2 * s.from + 1).value, XY(o, 2 * s.to).value, XY(o, 2 * s.to + 1).value),
         4 * s.face + s.from, 4 * s.face + s.to, s.face, EdgeNumber(s.from, s.to))
  }

  function SideOf(e: Edge): Side { Side(e.face, e.a - 4 * e.face, e.b - 4 * e.face) }

  lemma SideIsRecorded(ops: seq<Op>, history: bool, s: Side)
    requires IsSide(ops, history, s)
    ensures var e := EdgeOf(ops, history, s); Recorded(ops, history, e) && InRange(e, |ops|) && SideOf(e) == s
  {
    var e := EdgeRuns(ops, s.face, s.from, s.to, history);
    hide EdgeAt, Comes;
  }

  lemma RecordedIsSide(ops: seq<Op>, history: bool, e: Edge)
    requires Recorded(ops, history, e)
    ensures IsSide(ops, history, SideOf(e)) && EdgeOf(ops, history, SideOf(e)) == e
  {
  }

  lemma CloseMeans(shape: seq<Op>, s: Side, t: Side, e: Edge, d: Edge, limit: real)
    requires Placed(|shape|, s) && Placed(|shape|, t) && InRange(e, |shape|) && InRange(d, |shape|)
    requires SideOf(e) == s && SideOf(d) == t
    ensures Close(shape, e, d, limit) <==> DrawnTogether(shape, s, t, limit)
  {
    hide VerticesClose, DrawnWithin;
    VerticesMean(shape, e.a, s.face, s.from, d.a, t.face, t.from, limit);
    VerticesMean(shape, e.b, s.face, s.to, d.b, t.face, t.to, limit);
  }

  lemma EndsMean(ops: seq<Op>, history: bool, s: Side, t: Side)
    requires IsSide(ops, history, s) && IsSide(ops, history, t)
    ensures var e, d := EdgeOf(ops, history, s).ends, EdgeOf(ops, history, t).ends;
            && (e == d <==> SidesMeet(ops, s, t))
            && (Within1(e.x0, d.x0) && Within1(e.y0, d.y0) && Within1(e.x1, d.x1) && Within1(e.y1, d.y1) <==>
                DrawnTogether(ops, s, t, 1.0))
  {
    hide XY, Comes, Eligible, EdgeNumber;
  }

  lemma EdgesDiffer(ops: seq<Op>, history: bool, s: Side, t: Side)
    requires IsSide(ops, history, s) && IsSide(ops, history, t)
    ensures EdgeOf(ops, history, s) == EdgeOf(ops, history, t) <==> s == t
  {
    hide IsSide, XY;
  }

  lemma OneLineMeans(ops: seq<Op>, history: bool, s: Side, t: Side)
    requires IsSide(ops, history, s) && IsSide(ops, history, t)
    ensures OneLine(ops, history, s, t) <==> Coincide(ops, history, EdgeOf(ops, history, s), EdgeOf(ops, history, t))
  {
    hide IsSide, EdgeOf, Recorded, SidesMeet;
    SideIsRecorded(ops, history, s);
    SideIsRecorded(ops, history, t);
    EdgesDiffer(ops, history, s, t);
    EndsMean(ops, history, s, t);
    assert Placed(|ops|, s) && Placed(|ops|, t) by {
      SideIsPlaced(ops, history, s);
      SideIsPlaced(ops, history, t);
    }
  }

  lemma SideIsPlaced(ops: seq<Op>, history: bool, s: Side)
    requires IsSide(ops, history, s)
    ensures Placed(|ops|, s) && EdgeOf(ops, history, s).face == s.face
    ensures EdgeOf(ops, history, s).edge == EdgeNumber(s.from, s.to)
  {
    hide Comes, XY;
  }

  lemma BesideMeans(cur: seq<Op>, s: Side, t: Side)
    requires IsSide(cur, false, s) && IsSide(cur, false, t)
    ensures Beside(cur, s, t) <==> AdjacentEdges(cur, EdgeOf(cur, false, s), EdgeOf(cur, false, t))
  {
    hide IsSide, EdgeOf, Recorded, SidesMeet, DrawnTogether, Within1;
    SideIsRecorded(cur, false, s);
    SideIsRecorded(cur, false, t);
    SideIsPlaced(cur, false, s);
    SideIsPlaced(cur, false, t);
    EndsMean(cur, false, s, t);
  }

  lemma UnclearMeans(ops: seq<Op>, history: bool, shape: seq<Op>, limit: real, s: Side, t: Side)
    requires |shape| == |ops| && OneLine(ops, history, s, t)
    ensures Unclear(ops, history, shape, limit, s, t) <==>
            Ambiguous(ops, history, shape, limit, EdgeOf(ops, history, s), EdgeOf(ops, history, t))
  {
    var e, d := EdgeOf(ops, history, s), EdgeOf(ops, history, t);
    SideIsRecorded(ops, history, s);
    SideIsRecorded(ops, history, t);
    OneLineMeans(ops, history, s, t);
    CloseMeans(shape, s, t, e, d, limit);
    hide Close, DrawnTogether, IsSide, EdgeOf, Recorded, Coincide, OneLine;
    if u :| u != t && OneLine(ops, history, s, u) {
      LineIsCoincidence(ops, history, s, u);
      EdgesDiffer(ops, history, u, t);
    }
    if c :| c != d && Coincide(ops, history, e, c) {
      CoincidenceIsLine(ops, history, e, c);
    }
  }

  lemma LineIsCoincidence(ops: seq<Op>, history: bool, s: Side, t: Side)
    requires OneLine(ops, history, s, t)
    ensures IsSide(ops, history, s) && IsSide(ops, history, t)
    ensures Coincide(ops, history, EdgeOf(ops, history, s), EdgeOf(ops, history, t))
  {
    OneLineMeans(ops, history, s, t);
  }

  lemma CoincidenceIsLine(ops: seq<Op>, history: bool, e: Edge, d: Edge)
    requires Coincide(ops, history, e, d)
    ensures OneLine(ops, history, SideOf(e), SideOf(d)) && EdgeOf(ops, history, SideOf(e)) == e
    ensures EdgeOf(ops, history, SideOf(d)) == d
  {
    hide Recorded, IsSide, EdgeOf, SideOf, OneLine;
    RecordedIsSide(ops, history, e);
    RecordedIsSide(ops, history, d);
    OneLineMeans(ops, history, SideOf(e), SideOf(d));
  }

  // -------------------------------------------------------- face by face

  lemma UnclearIsConflict(ops: seq<Op>, history: bool, shape: seq<Op>, limit: real, f: int)
    requires |shape| == |ops|
    ensures HasUnclear(ops, history, shape, limit, f) <==> SharedConflict(ops, history, shape, limit, f)
  {
    hide Unclear, Ambiguous;
    if s, t :| Unclear(ops, history, shape, limit, s, t) && s.face == f {
      UnclearIsAmbiguous(ops, history, shape, limit, s, t);
    }
    if e, d :| Ambiguous(ops, history, shape, limit, e, d) && e.face == f {
      AmbiguousIsUnclear(ops, history, shape, limit, e, d);
    }
  }

  lemma UnclearIsAmbiguous(ops: seq<Op>, history: bool, shape: seq<Op>, limit: real, s: Side, t: Side)
    requires |shape| == |ops| && Unclear(ops, history, shape, limit, s, t)
    ensures IsSide(ops, history, s) && IsSide(ops, history, t) && EdgeOf(ops, history, s).face == s.face
    ensures Ambiguous(ops, history, shape, limit, EdgeOf(ops, history, s), EdgeOf(ops, history, t))
  {
    UnclearMeans(ops, history, shape, limit, s, t);
    hide Ambiguous, Unclear;
  }

  lemma AmbiguousIsUnclear(ops: seq<Op>, history: bool, shape: seq<Op>, limit: real, e: Edge, d: Edge)
    requires |shape| == |ops| && Ambiguous(ops, history, shape, limit, e, d)
    ensures Unclear(ops, history, shape, limit, SideOf(e), SideOf(d)) && SideOf(e).face == e.face
  {
    CoincidenceIsLine(ops, history, e, d);
    UnclearMeans(ops, history, shape, limit, SideOf(e), SideOf(d));
    hide Ambiguous, Unclear;
  }

  lemma BesideIsAdjacent(cur: seq<Op>, hist: seq<Op>, s: Side, t: Side)
    requires |cur| == |hist| && Beside(cur, s, t)
    ensures var e, d := EdgeOf(cur, false, s), EdgeOf(cur, false, t);
            && AdjacentEdges(cur, e, d) && e.face == s.face && d.face == t.face && e.edge == EdgeNumber(s.from, s.to)
            && (Close(hist, e, d, 1.01) <==> DrawnTogether(hist, s, t, 1.01))
  {
    BesideMeans(cur, s, t);
    SideIsRecorded(cur, false, s);
    SideIsRecorded(cur, false, t);
    CloseMeans(hist, s, t, EdgeOf(cur, false, s), EdgeOf(cur, false, t), 1.01);
    hide AdjacentEdges, Close, DrawnTogether, IsSide;
  }

  lemma AdjacentIsBeside(cur: seq<Op>, hist: seq<Op>, e: Edge, d: Edge)
    requires |cur| == |hist| && AdjacentEdges(cur, e, d)
    ensures var s, t := SideOf(e), SideOf(d);
            && Beside(cur, s, t) && s.face == e.face && t.face == d.face && e.edge == EdgeNumber(s.from, s.to)
            && (Close(hist, e, d, 1.01) <==> DrawnTogether(hist, s, t, 1.01))
  {
    RecordedIsSide(cur, false, e);
    RecordedIsSide(cur, false, d);
    BesideMeans(cur, SideOf(e), SideOf(d));
    BesideIsAdjacent(cur, hist, SideOf(e), SideOf(d));
  }

  lemma FaultyIsHeld(cur: seq<Op>, hist: seq<Op>, f: int)
    requires |cur| == |hist| && 0 <= f < |cur|
    ensures Faulty(cur, hist, f) <==> Held(cur, hist, f)
  {
    UnclearIsConflict(cur, false, hist, 0.01, f);
    UnclearIsConflict(hist, true, cur, 1.01, f);
    hide PairValid, HasUnclear, SharedConflict, Beside, AdjacentEdges, Close, DrawnTogether;
    if s, t :| Beside(cur, s, t) && s.face == f && !DrawnTogether(hist, s, t, 1.01) {
      BesideIsAdjacent(cur, hist, s, t);
    }
    if e, d :| AdjacentEdges(cur, e, d) && e.face == f && !Close(hist, e, d, ADJACENT_LIMIT) {
      AdjacentIsBeside(cur, hist, e, d);
    }
  }

  lemma TouchingIsTouches(cur: seq<Op>, hist: seq<Op>, f: int, g: int)
    requires |cur| == |hist|
    ensures Touching(cur, hist, f, g) <==> Touches(cur, hist, f, g)
  {
    hide OneLine, Beside, Coincide, AdjacentEdges, Close, DrawnTogether;
    if s, t :| Together(cur, hist, s, t) && s.face == f && t.face == g {
      if OneLine(cur, false, s, t) {
        LineIsCoincidence(cur, false, s, t);
      } else if Beside(cur, s, t) {
        BesideIsAdjacent(cur, hist, s, t);
      } else {
        LineIsCoincidence(hist, true, s, t);
      }
    }
    if e, d :| Coincide(cur, false, e, d) && e.face == f && d.face == g {
      CoincidenceIsLine(cur, false, e, d);
      assert Together(cur, hist, SideOf(e), SideOf(d));
    }
    if e, d :| AdjacentEdges(cur, e, d) && e.face == f && d.face == g {
      AdjacentIsBeside(cur, hist, e, d);
      assert Together(cur, hist, SideOf(e), SideOf(d));
    }
    if e, d :| Coincide(hist, true, e, d) && e.face == f && d.face == g {
      CoincidenceIsLine(hist, true, e, d);
      assert Together(cur, hist, SideOf(e), SideOf(d));
    }
  }

  lemma TouchingIsSymmetric(cur: seq<Op>, hist: seq<Op>, f: int, g: int)
    requires Touching(cur, hist, f, g)
    ensures Touching(cur, hist, g, f)
  {
    hide IsSide;
    var s, t :| Together(cur, hist, s, t) && s.face == f && t.face == g;
    assert Together(cur, hist, t, s);
  }

  // ------------------------------------------------------------ the result

  lemma TouchingIsLink(cur: seq<Op>, hist: seq<Op>, a: int, b: int)
    requires |cur| == |hist|
    ensures Touching(cur, hist, a, b) ==> 0 <= a < |cur| && 0 <= b < |cur|
    ensures Touching(cur, hist, a, b) <==> Linked(Contacts(cur, hist), a, b)
  {
    hide OneLine, Beside, Touches;
    TouchingIsTouches(cur, hist, a, b);
    TouchingIsTouches(cur, hist, b, a);
    if Touching(cur, hist, a, b) {
      var s, t :| Together(cur, hist, s, t) && s.face == a && t.face == b;
      TogetherInside(cur, hist, s, t);
    } else if Touching(cur, hist, b, a) {
      TouchingIsSymmetric(cur, hist, b, a);
    }
  }

  lemma TogetherInside(cur: seq<Op>, hist: seq<Op>, s: Side, t: Side)
    requires |cur| == |hist| && Together(cur, hist, s, t)
    ensures 0 <= s.face < |cur| && 0 <= t.face < |cur|
  {
  }

  lemma ReachedIsConnected(cur: seq<Op>, hist: seq<Op>, f: int, g: int)
    requires |cur| == |hist|
    ensures Reached(cur, hist, f, g) <==> Connected(Contacts(cur, hist), f, g)
  {
    hide Touching, Connected, Linked, Contacts;
    forall path
      ensures Chain(cur, hist, path, f, g) <==> Joins(Contacts(cur, hist), path, f, g)
    {
      forall i | 0 <= i < |path| - 1
        ensures Touching(cur, hist, path[i], path[i + 1]) <==> Linked(Contacts(cur, hist), path[i], path[i + 1])
      {
        TouchingIsLink(cur, hist, path[i], path[i + 1]);
      }
    }
    ConnectedIffPath(Contacts(cur, hist), f, g);
  }

  // A face goes back to what was submitted exactly when a chain of touching faces
  // leads from it to a faulty one; otherwise it is drawn where its motion has it.
  lemma RevertsIffReached(cur: seq<Op>, hist: seq<Op>, f: int)
    requires |cur| == |hist| && 0 <= f < |cur| && Eligible(cur[f]) && cur[f].pos.Native?
    ensures var o := After(cur, hist)[f];
            && (o == cur[f] <==> exists g :: 0 <= g < |cur| && Reached(cur, hist, f, g) && Faulty(cur, hist, g))
            && (o != cur[f] ==> o == hist[f].(seams := o.seams))
  {
    RevertsIffFrozen(cur, hist, f);
    hide Contacts, Faulty, Held, Reached, Connected, SeamsOf;
    forall g | 0 <= g < |cur|
      ensures Reached(cur, hist, f, g) <==> Connected(Contacts(cur, hist), f, g)
      ensures Faulty(cur, hist, g) <==> Held(cur, hist, g)
    {
      ReachedIsConnected(cur, hist, f, g);
      FaultyIsHeld(cur, hist, g);
    }
  }

  predicate KeptSides(cur: seq<Op>, hist: seq<Op>, s: Side, t: Side)
    requires |cur| == |hist|
  {
    Beside(cur, s, t) && DrawnTogether(hist, s, t, 1.01)
  }

  // The number of a side, from 0.
  function Number(s: Side): int { if s.to == (s.from + 1) % 4 then s.from else s.to }

  ghost predicate KeptBeside(cur: seq<Op>, hist: seq<Op>, f: int, k: int)
    requires |cur| == |hist|
  {
    exists s, t :: KeptSides(cur, hist, s, t) && s.face == f && Number(s) == k
  }

  lemma KeptIsSeam(cur: seq<Op>, hist: seq<Op>, s: Side, t: Side)
    requires |cur| == |hist| && KeptSides(cur, hist, s, t)
    ensures IsSeam(cur, hist, s.face, Number(s)) && 0 <= Number(s) < 4
  {
    BesideIsAdjacent(cur, hist, s, t);
    hide AdjacentEdges, Close, DrawnTogether, SidesMeet, EdgeOf;
  }

  lemma SeamIsKept(cur: seq<Op>, hist: seq<Op>, e: Edge, d: Edge)
    requires |cur| == |hist| && AdjacentEdges(cur, e, d) && Close(hist, e, d, ADJACENT_LIMIT)
    ensures KeptSides(cur, hist, SideOf(e), SideOf(d)) && Number(SideOf(e)) == e.edge && SideOf(e).face == e.face
  {
    AdjacentIsBeside(cur, hist, e, d);
    hide AdjacentEdges, Close, DrawnTogether, SidesMeet;
  }

  lemma SeamIsKeptBeside(cur: seq<Op>, hist: seq<Op>, f: int, k: int)
    requires |cur| == |hist|
    ensures IsSeam(cur, hist, f, k) <==> KeptBeside(cur, hist, f, k)
    ensures KeptBeside(cur, hist, f, k) ==> 0 <= k < 4
  {
    if KeptBeside(cur, hist, f, k) {
      hide KeptSides, IsSeam, Number;
      var s, t :| KeptSides(cur, hist, s, t) && s.face == f && Number(s) == k;
      KeptIsSeam(cur, hist, s, t);
    }
    if IsSeam(cur, hist, f, k) {
      hide KeptSides, Close, EdgeAt, Adjacent;
      var e, d :| AdjacentEdges(cur, e, d) && e.face == f && e.edge == k && Close(hist, e, d, ADJACENT_LIMIT);
      SeamIsKept(cur, hist, e, d);
    }
  }

  // The sides a moving face is given as seams: those that run beside a side of
  // another face and are drawn beside it.
  lemma SeamsAre(cur: seq<Op>, hist: seq<Op>, f: int, k: int)
    requires |cur| == |hist| && 0 <= f < |cur| && Eligible(cur[f]) && cur[f].pos.Native?
    requires After(cur, hist)[f] != cur[f]
    ensures k in After(cur, hist)[f].seams <==> KeptBeside(cur, hist, f, k)
  {
    hide Frozen, IsSeam, KeptBeside, Eligible;
    RevertsIffFrozen(cur, hist, f);
    SeamIsKeptBeside(cur, hist, f, k);
    assert After(cur, hist)[f].seams == SeamsOf(cur, hist, f);
  }

  // ------------------------------------------------------------- the count

  predicate CornerMoved(cur: seq<Op>, hist: seq<Op>, f: int, k: int)
    requires |cur| == |hist| && 0 <= f < |cur| && 0 <= k < 4
  {
    XY(hist[f], 2 * k) != XY(cur[f], 2 * k) || XY(hist[f], 2 * k + 1) != XY(cur[f], 2 * k + 1)
  }

  // The corners of the first n faces that are put back somewhere else.
  ghost function PutBack(cur: seq<Op>, hist: seq<Op>, n: nat): set<(int, int)>
    requires |cur| == |hist| && n <= |cur|
  {
    set f, k | 0 <= f < n && 0 <= k < 4 && Eligible(cur[f]) && Frozen(cur, hist, f) && CornerMoved(cur, hist, f, k) ::
      (f, k)
  }

  ghost function CornersOf(cur: seq<Op>, hist: seq<Op>, f: int, m: nat): set<(int, int)>
    requires |cur| == |hist| && 0 <= f < |cur| && m <= 4
  {
    set k | 0 <= k < m && CornerMoved(cur, hist, f, k) :: (f, k)
  }

  lemma CornersStep(cur: seq<Op>, hist: seq<Op>, f: int, m: nat)
    requires |cur| == |hist| && 0 <= f < |cur| && m < 4
    ensures |CornersOf(cur, hist, f, m + 1)| == |CornersOf(cur, hist, f, m)| + MovedCorner(cur[f], hist[f], m)
  {
    assert CornersOf(cur, hist, f, m + 1) ==
           CornersOf(cur, hist, f, m) + if CornerMoved(cur, hist, f, m) then {(f, m as int)} else {};
  }

  // What the weld counts.
  lemma {:induction false} ChangedIsPutBack(cur: seq<Op>, hist: seq<Op>, n: nat)
    requires |cur| == |hist| && n <= |cur|
    ensures ChangedCorners(cur, hist, n) == |PutBack(cur, hist, n)|
    decreases n
  {
    hide CornerMoved, Frozen, Eligible, MovedCorner;
    if n > 0 {
      var f := n - 1;
      ChangedIsPutBack(cur, hist, f);
      var face := CornersOf(cur, hist, f, 4);
      CornersStep(cur, hist, f, 0);
      CornersStep(cur, hist, f, 1);
      CornersStep(cur, hist, f, 2);
      CornersStep(cur, hist, f, 3);
      assert CornersOf(cur, hist, f, 0) == {};
      assert PutBack(cur, hist, n) ==
             PutBack(cur, hist, f) + if Eligible(cur[f]) && Frozen(cur, hist, f) then face else {};
    } else {
      assert PutBack(cur, hist, 0) == {};
    }
  }
}
