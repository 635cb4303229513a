// `geometry_weld`: which faces keep their history and which are put back to
// the current geometry.
module GeometryWeld {
  import opened GeometryOps
  import opened GeometryMotion
  import opened GeometryUnion
  import opened GeometryEdges
  import opened Options

  const SHARED_LIMIT: real := 0.01
  const ADJACENT_LIMIT: real := 1.01

  // ------------------------------------------------------ edges together

  function VertexXY(ops: seq<Op>, v: int, axis: int): Num
    requires 0 <= v < 4 * |ops| && 0 <= axis < 2
  {
    XY(ops[v / 4], v % 4 * 2 + axis)
  }

  predicate NumsClose(x: Num, y: Num, limit: real) {
    x.Finite? && y.Finite? && -limit <= x.value - y.value <= limit
  }

  predicate VerticesClose(ops: seq<Op>, v: int, w: int, limit: real)
    requires 0 <= v < 4 * |ops| && 0 <= w < 4 * |ops|
  {
    && NumsClose(VertexXY(ops, v, 0), VertexXY(ops, w, 0), limit)
    && NumsClose(VertexXY(ops, v, 1), VertexXY(ops, w, 1), limit)
  }

  predicate InRange(e: Edge, n: nat) {
    0 <= e.face < n && 0 <= e.edge < 4 && 0 <= e.a < 4 * n && 0 <= e.b < 4 * n
  }

  // `geometry_edge_close`
  predicate Close(ops: seq<Op>, e: Edge, d: Edge, limit: real)
    requires InRange(e, |ops|) && InRange(d, |ops|)
  {
    VerticesClose(ops, e.a, d.a, limit) && VerticesClose(ops, e.b, d.b, limit)
  }

  predicate Within1(x: real, y: real) { -1.0 <= x - y <= 1.0 }

  // Edges of two faces that run at most one unit apart without coinciding.
  predicate Adjacent(e: Edge, d: Edge) {
    && e.face != d.face && e.ends != d.ends
    && Within1(e.ends.x0, d.ends.x0) && Within1(e.ends.y0, d.ends.y0)
    && Within1(e.ends.x1, d.ends.x1) && Within1(e.ends.y1, d.ends.y1)
  }

  predicate AllInRange(es: seq<Edge>, n: nat) {
    forall i | 0 <= i < |es| :: InRange(es[i], n)
  }

  // ------------------------------------------------------- the reference

  predicate Recorded(ops: seq<Op>, history: bool, e: Edge) {
    0 <= e.face < |ops| && 0 <= e.edge < 4 && EdgeAt(ops, e.face, e.edge, history) == Some(e)
  }

  lemma RecordedInRange(ops: seq<Op>, history: bool, e: Edge)
    requires Recorded(ops, history, e)
    ensures InRange(e, |ops|)
  {
  }

  // Two recorded edges with the same end points.
  ghost predicate Coincide(ops: seq<Op>, history: bool, e: Edge, d: Edge) {
    Recorded(ops, history, e) && Recorded(ops, history, d) && e != d && e.ends == d.ends
  }

  ghost predicate SharesEdge(ops: seq<Op>, history: bool, f: int, g: int) {
    exists e, d :: Coincide(ops, history, e, d) && e.face == f && d.face == g
  }

  // An edge that more than two faces meet at, that one face meets twice, or
  // whose two copies have drifted apart in `shape`.
  ghost predicate Ambiguous(ops: seq<Op>, history: bool, shape: seq<Op>, limit: real, e: Edge, d: Edge)
    requires |shape| == |ops|
  {
    && Coincide(ops, history, e, d) && InRange(e, |ops|) && InRange(d, |ops|)
    && (e.face == d.face || !Close(shape, e, d, limit) ||
        exists c :: c != d && Coincide(ops, history, e, c))
  }

  ghost predicate SharedConflict(ops: seq<Op>, history: bool, shape: seq<Op>, limit: real, f: int)
    requires |shape| == |ops|
  {
    exists e, d :: Ambiguous(ops, history, shape, limit, e, d) && e.face == f
  }

  ghost predicate AdjacentEdges(cur: seq<Op>, e: Edge, d: Edge) {
    Recorded(cur, false, e) && Recorded(cur, false, d) && Adjacent(e, d) &&
    InRange(e, |cur|) && InRange(d, |cur|)
  }

  ghost predicate AdjacentFaces(cur: seq<Op>, f: int, g: int) {
    exists e, d :: AdjacentEdges(cur, e, d) && e.face == f && d.face == g
  }

  ghost predicate AdjacentConflict(cur: seq<Op>, hist: seq<Op>, f: int)
    requires |cur| == |hist|
  {
    exists e, d :: AdjacentEdges(cur, e, d) && e.face == f && !Close(hist, e, d, ADJACENT_LIMIT)
  }

  ghost predicate IsSeam(cur: seq<Op>, hist: seq<Op>, f: int, k: int)
    requires |cur| == |hist|
  {
    exists e, d :: AdjacentEdges(cur, e, d) && e.face == f && e.edge == k && Close(hist, e, d, ADJACENT_LIMIT)
  }

  ghost function SeamsOf(cur: seq<Op>, hist: seq<Op>, f: int): set<int>
    requires |cur| == |hist|
  {
    set k | 0 <= k < 4 && IsSeam(cur, hist, f, k)
  }

  predicate InitiallyHeld(cur: Op, hist: Op) {
    Eligible(cur) && (!IsPresented(hist) || !PairValid(hist, cur))
  }

  ghost predicate Held(cur: seq<Op>, hist: seq<Op>, f: int)
    requires |cur| == |hist| && 0 <= f < |cur|
  {
    || InitiallyHeld(cur[f], hist[f])
    || SharedConflict(cur, false, hist, SHARED_LIMIT, f)
    || AdjacentConflict(cur, hist, f)
    || SharedConflict(hist, true, cur, ADJACENT_LIMIT, f)
  }

  ghost predicate Touches(cur: seq<Op>, hist: seq<Op>, f: int, g: int) {
    SharesEdge(cur, false, f, g) || AdjacentFaces(cur, f, g) || SharesEdge(hist, true, f, g)
  }

  ghost function Contacts(cur: seq<Op>, hist: seq<Op>): set<Link> {
    set f, g | 0 <= f < |cur| && 0 <= g < |cur| && Touches(cur, hist, f, g) :: (f, g)
  }

  // Face f goes back to the current geometry: something is wrong somewhere on
  // its connected surface.
  ghost predicate Frozen(cur: seq<Op>, hist: seq<Op>, f: int)
    requires |cur| == |hist| && 0 <= f < |cur|
  {
    exists g :: 0 <= g < |cur| && Connected(Contacts(cur, hist), f, g) && Held(cur, hist, g)
  }

  ghost function Welded(cur: seq<Op>, hist: seq<Op>, f: int): Op
    requires |cur| == |hist| && 0 <= f < |cur|
  {
    if !Eligible(cur[f]) then hist[f]
    else if Frozen(cur, hist, f) then cur[f]
    else hist[f].(seams := SeamsOf(cur, hist, f))
  }

  // --------------------------------------- shared edges, on a sorted list

  predicate Twins(es: seq<Edge>, i: int, j: int) {
    0 <= i < |es| && 0 <= j < |es| && i != j && es[i].ends == es[j].ends
  }

  ghost predicate BadTwins(es: seq<Edge>, shape: seq<Op>, limit: real, i: int, j: int)
    requires AllInRange(es, |shape|)
  {
    && Twins(es, i, j)
    && (es[i].face == es[j].face || !Close(shape, es[i], es[j], limit) || exists k :: k != j && Twins(es, i, k))
  }

  ghost predicate BadEdge(es: seq<Edge>, shape: seq<Op>, limit: real, i: int)
    requires AllInRange(es, |shape|)
  {
    exists j :: BadTwins(es, shape, limit, i, j)
  }

  lemma CloseIsSymmetric(ops: seq<Op>, e: Edge, d: Edge, limit: real)
    requires InRange(e, |ops|) && InRange(d, |ops|)
    ensures Close(ops, e, d, limit) == Close(ops, d, e, limit)
  {
  }

  // A maximal run of equal edges holds every twin of its members.
  predicate IsRun(es: seq<Edge>, i: int, end: int) {
    && 0 <= i < end <= |es|
    && forall x | 0 <= x < |es| :: es[x].ends == es[i].ends <==> i <= x < end
  }

  lemma RunFound(es: seq<Edge>, i: int, end: int)
    requires Sorted(es) && 0 <= i < end <= |es|
    requires i > 0 ==> es[i - 1].ends != es[i].ends
    requires forall x | i <= x < end :: es[x].ends == es[i].ends
    requires end < |es| ==> es[end].ends != es[i].ends
    ensures IsRun(es, i, end)
  {
    hide Before;
    forall x | 0 <= x < |es| && es[x].ends == es[i].ends
      ensures i <= x < end
    {
      if x < i {
        BeforeIsStrictOrder(es[x].ends, es[i - 1].ends, es[i].ends);
        BeforeIsStrictOrder(es[i - 1].ends, es[i].ends, es[i].ends);
      } else if x >= end {
        BeforeIsStrictOrder(es[i].ends, es[end].ends, es[x].ends);
        BeforeIsStrictOrder(es[end].ends, es[i].ends, es[i].ends);
      }
    }
  }

  // The test the code makes once per run decides every edge of the run.
  lemma RunDecides(es: seq<Edge>, shape: seq<Op>, limit: real, i: int, end: int, j: int)
    requires AllInRange(es, |shape|) && IsRun(es, i, end) && i <= j < end
    ensures BadEdge(es, shape, limit, j) <==>
            end > i + 1 && (end != i + 2 || es[i].face == es[i + 1].face ||
                            !Close(shape, es[i], es[i + 1], limit))
  {
    hide Close;
    if end > i + 2 {
      var x, y := if j == i then i + 1 else i, if j <= i + 1 then i + 2 else i + 1;
      assert Twins(es, j, x) && Twins(es, j, y);
      assert BadTwins(es, shape, limit, j, x);
    } else if end == i + 2 {
      var x := if j == i then i + 1 else i;
      CloseIsSymmetric(shape, es[i], es[i + 1], limit);
      assert Twins(es, j, x);
      assert BadTwins(es, shape, limit, j, x) ==> BadEdge(es, shape, limit, j);
    }
  }

  // What a pass over the edges may do to the partition: only coarsen it, and
  // only along links that `ok` allows.
  ghost predicate Grown(p: Partition, q: Partition) {
    Coarser(p.rep, q.rep) && p.joins <= q.joins
  }

  ghost predicate TwinLink(es: seq<Edge>, l: Link) {
    exists i, j :: Twins(es, i, j) && es[i].face == l.0 && es[j].face == l.1
  }

  lemma JoinGrows(p: Partition, a: int, b: int)
    requires |p.rep| == |p.height| && 0 <= a < |p.rep| && 0 <= b < |p.rep| && 0 <= p.rep[a] < |p.rep|
    ensures Grown(p, AfterJoin(p, a, b))
    ensures AfterJoin(p, a, b).rep[a] == AfterJoin(p, a, b).rep[b]
  {
  }

  method JoinRun(es: seq<Edge>, i: int, end: int, parent: array<int>, ghost p: Partition)
    returns (ghost q: Partition)
    requires AllInRange(es, parent.Length) && IsRun(es, i, end) && Sound(parent[..], p)
    modifies parent
    ensures Sound(parent[..], q) && Grown(p, q)
    ensures forall l | l in q.joins - p.joins :: TwinLink(es, l)
    ensures forall x | i <= x < end :: q.rep[es[x].face] == q.rep[es[i].face]
  {
    hide Represents, Climbs;
    q := p;
    for j := i + 1 to end
      invariant Sound(parent[..], q) && Grown(p, q)
      invariant forall l | l in q.joins - p.joins :: TwinLink(es, l)
      invariant forall x | i <= x < j :: q.rep[es[x].face] == q.rep[es[i].face]
    {
      assert Twins(es, i, j);
      assert TwinLink(es, (es[i].face, es[j].face));
      Join(parent, es[i].face, es[j].face, q);
      JoinGrows(q, es[i].face, es[j].face);
      q := AfterJoin(q, es[i].face, es[j].face);
    }
  }

  ghost predicate HeldThrough(before: seq<bool>, after: seq<bool>, es: seq<Edge>, shape: seq<Op>,
                              limit: real, i: int)
    requires AllInRange(es, |shape|) && |before| == |after| && 0 <= i <= |es|
  {
    forall f | 0 <= f < |after| ::
      after[f] <==> before[f] || exists x :: 0 <= x < i && es[x].face == f && BadEdge(es, shape, limit, x)
  }

  method HoldRun(es: seq<Edge>, shape: seq<Op>, limit: real, i: int, end: int, held: array<bool>,
                 ghost before: seq<bool>)
    requires AllInRange(es, |shape|) && held.Length == |shape| == |before| && IsRun(es, i, end)
    requires HeldThrough(before, held[..], es, shape, limit, i)
    modifies held
    ensures HeldThrough(before, held[..], es, shape, limit, end)
  {
    hide BadEdge, Close;
    forall j | i <= j < end
      ensures BadEdge(es, shape, limit, j) <==>
              end > i + 1 && (end != i + 2 || es[i].face == es[i + 1].face ||
                              !Close(shape, es[i], es[i + 1], limit))
    {
      RunDecides(es, shape, limit, i, end, j);
    }
    if end > i + 1 && (end != i + 2 || es[i].face == es[i + 1].face ||
                       !Close(shape, es[i], es[i + 1], limit)) {
      for j := i to end
        invariant HeldThrough(before, held[..], es, shape, limit, j)
      {
        ghost var prior := held[..];
        held[es[j].face] := true;
        assert held[..] == prior[es[j].face := true];
        assert BadEdge(es, shape, limit, j);
      }
    } else {
      assert forall x | i <= x < end :: !BadEdge(es, shape, limit, x);
    }
  }

  // One pass over the runs of equal edges: their faces are joined, and held
  // when the run is ambiguous.
  method HoldShared(es: seq<Edge>, shape: seq<Op>, limit: real, parent: array<int>, held: array<bool>,
                    ghost p: Partition) returns (ghost q: Partition)
    requires Sorted(es) && AllInRange(es, |shape|) && parent.Length == held.Length == |shape|
    requires Sound(parent[..], p)
    modifies parent, held
    ensures Sound(parent[..], q) && Grown(p, q)
    ensures forall l | l in q.joins - p.joins :: TwinLink(es, l)
    ensures forall i, j | Twins(es, i, j) :: q.rep[es[i].face] == q.rep[es[j].face]
    ensures HeldThrough(old(held[..]), held[..], es, shape, limit, |es|)
  {
    hide Represents, Climbs, Sorted, BadEdge, Close, Before, TwinLink;
    q := p;
    var i := 0;
    while i < |es|
      invariant 0 <= i <= |es| && (0 < i < |es| ==> es[i - 1].ends != es[i].ends)
      invariant Sound(parent[..], q) && Grown(p, q)
      invariant forall l | l in q.joins - p.joins :: TwinLink(es, l)
      invariant forall x, y | 0 <= x < i && 0 <= y < i && es[x].ends == es[y].ends ::
                  q.rep[es[x].face] == q.rep[es[y].face]
      invariant HeldThrough(old(held[..]), held[..], es, shape, limit, i)
    {
      var end := i + 1;
      while end < |es| && es[i].ends == es[end].ends
        invariant i < end <= |es|
        invariant forall x | i <= x < end :: es[x].ends == es[i].ends
      {
        end := end + 1;
      }
      RunFound(es, i, end);
      ghost var r := q;
      q := JoinRun(es, i, end, parent, r);
      HoldRun(es, shape, limit, i, end, held, old(held[..]));
      i := end;
    }
  }

  // -------------------------------- pixel-adjacent edges, on a sorted list

  ghost predicate Near(es: seq<Edge>, i: int, j: int) {
    0 <= i < |es| && 0 <= j < |es| && Adjacent(es[i], es[j])
  }

  lemma AdjacentIsSymmetric(e: Edge, d: Edge)
    ensures Adjacent(e, d) == Adjacent(d, e)
  {
  }

  // The early exit: once the first coordinate is more than one unit ahead, no
  // later edge can be adjacent.
  lemma BreakSkipsNothing(es: seq<Edge>, i: int, j: int)
    requires Sorted(es) && 0 <= i < j < |es| && es[j].ends.x0 - es[i].ends.x0 > 1.0
    ensures forall k | j <= k < |es| :: !Near(es, i, k)
  {
    forall k | j <= k < |es|
      ensures !Near(es, i, k)
    {
      assert k == j || !Before(es[k].ends, es[j].ends);
    }
  }

  // The pairs looked at once the sweep has reached (i, j).
  predicate Swept(x: int, y: int, i: int, j: int) { 0 <= x < y && (x < i || (x == i && y < j)) }

  ghost predicate SweptConflict(es: seq<Edge>, shape: seq<Op>, f: int, i: int, j: int)
    requires AllInRange(es, |shape|)
  {
    exists x, y :: Swept(x, y, i, j) && Near(es, x, y) && !Close(shape, es[x], es[y], ADJACENT_LIMIT) &&
                   (f == es[x].face || f == es[y].face)
  }

  ghost predicate SweptSeam(es: seq<Edge>, shape: seq<Op>, f: int, k: int, i: int, j: int)
    requires AllInRange(es, |shape|)
  {
    exists x, y :: Swept(x, y, i, j) && Near(es, x, y) && Close(shape, es[x], es[y], ADJACENT_LIMIT) &&
                   ((f == es[x].face && k == es[x].edge) || (f == es[y].face && k == es[y].edge))
  }

  ghost predicate NearLink(es: seq<Edge>, l: Link) {
    exists x, y :: Near(es, x, y) && es[x].face == l.0 && es[y].face == l.1
  }

  // Everything the sweep has established on reaching (i, j).
  ghost predicate SweepState(es: seq<Edge>, shape: seq<Op>, p: Partition, q: Partition,
                             held0: seq<bool>, held: seq<bool>, seams: seq<set<int>>, i: int, j: int)
    requires AllInRange(es, |shape|) && |held0| == |held| == |seams| == |shape| == |q.rep|
  {
    && Grown(p, q)
    && (forall l | l in q.joins - p.joins :: NearLink(es, l))
    && (forall x, y | Swept(x, y, i, j) && Near(es, x, y) :: q.rep[es[x].face] == q.rep[es[y].face])
    && (forall f | 0 <= f < |held| :: held[f] <==> held0[f] || SweptConflict(es, shape, f, i, j))
    && (forall f, k | 0 <= f < |seams| :: k in seams[f] <==> SweptSeam(es, shape, f, k, i, j))
  }

  // A pair that is not adjacent changes nothing.
  lemma SweepSkips(es: seq<Edge>, shape: seq<Op>, p: Partition, q: Partition,
                   held0: seq<bool>, held: seq<bool>, seams: seq<set<int>>, i: int, j: int, i': int, j': int)
    requires AllInRange(es, |shape|) && |held0| == |held| == |seams| == |shape| == |q.rep|
    requires SweepState(es, shape, p, q, held0, held, seams, i, j)
    requires forall x, y | Swept(x, y, i', j') && Near(es, x, y) :: Swept(x, y, i, j)
    requires forall x, y | Swept(x, y, i, j) :: Swept(x, y, i', j')
    ensures SweepState(es, shape, p, q, held0, held, seams, i', j')
  {
    hide Close, Near;
    forall f | 0 <= f < |held|
      ensures SweptConflict(es, shape, f, i, j) == SweptConflict(es, shape, f, i', j')
    {
    }
    forall f, k | 0 <= f < |seams|
      ensures SweptSeam(es, shape, f, k, i, j) == SweptSeam(es, shape, f, k, i', j')
    {
    }
  }

  // An adjacent pair is joined, then either held or marked as a seam.
  lemma SweepTakes(es: seq<Edge>, shape: seq<Op>, p: Partition, q: Partition, q': Partition,
                   held0: seq<bool>, held: seq<bool>, seams: seq<set<int>>, i: int, j: int)
    requires AllInRange(es, |shape|) && |held0| == |held| == |seams| == |shape| == |q.rep| == |q'.rep|
    requires SweepState(es, shape, p, q, held0, held, seams, i, j)
    requires 0 <= i < j < |es| && Near(es, i, j)
    requires Grown(q, q') && q'.rep[es[i].face] == q'.rep[es[j].face]
    requires q'.joins == q.joins + {(es[i].face, es[j].face)}
    ensures var a, b := es[i].face, es[j].face;
            SweepState(es, shape, p, q', held0,
              if Close(shape, es[i], es[j], ADJACENT_LIMIT) then held else held[a := true][b := true],
              if Close(shape, es[i], es[j], ADJACENT_LIMIT)
              then seams[a := seams[a] + {es[i].edge}][b := seams[b] + {es[j].edge}] else seams,
              i, j + 1)
  {
    hide Close;
    var a, b, close := es[i].face, es[j].face, Close(shape, es[i], es[j], ADJACENT_LIMIT);
    assert a != b;
    hide Near;
    assert Swept(i, j, i, j + 1);
    assert NearLink(es, (a, b));
    var held' := if close then held else held[a := true][b := true];
    var seams' := if close then seams[a := seams[a] + {es[i].edge}][b := seams[b] + {es[j].edge}] else seams;
    forall f | 0 <= f < |held'|
      ensures held'[f] <==> held0[f] || SweptConflict(es, shape, f, i, j + 1)
    {
      ConflictStep(es, shape, f, i, j);
    }
    forall f, k | 0 <= f < |seams'|
      ensures k in seams'[f] <==> SweptSeam(es, shape, f, k, i, j + 1)
    {
      SeamStep(es, shape, f, k, i, j);
    }
  }

  lemma ConflictStep(es: seq<Edge>, shape: seq<Op>, f: int, i: int, j: int)
    requires AllInRange(es, |shape|) && 0 <= i < j < |es| && Near(es, i, j)
    ensures SweptConflict(es, shape, f, i, j + 1) <==>
            SweptConflict(es, shape, f, i, j) ||
            (!Close(shape, es[i], es[j], ADJACENT_LIMIT) && (f == es[i].face || f == es[j].face))
  {
    hide Close, Near;
    assert Swept(i, j, i, j + 1);
    forall x, y | Swept(x, y, i, j + 1)
      ensures Swept(x, y, i, j) || (x == i && y == j)
    {
    }
    forall x, y | Swept(x, y, i, j)
      ensures Swept(x, y, i, j + 1)
    {
    }
  }

  lemma SeamStep(es: seq<Edge>, shape: seq<Op>, f: int, k: int, i: int, j: int)
    requires AllInRange(es, |shape|) && 0 <= i < j < |es| && Near(es, i, j)
    ensures SweptSeam(es, shape, f, k, i, j + 1) <==>
            SweptSeam(es, shape, f, k, i, j) ||
            (Close(shape, es[i], es[j], ADJACENT_LIMIT) &&
             ((f == es[i].face && k == es[i].edge) || (f == es[j].face && k == es[j].edge)))
  {
    hide Close, Near;
    assert Swept(i, j, i, j + 1);
    forall x, y | Swept(x, y, i, j + 1)
      ensures Swept(x, y, i, j) || (x == i && y == j)
    {
    }
    forall x, y | Swept(x, y, i, j)
      ensures Swept(x, y, i, j + 1)
    {
    }
  }

  lemma BeyondEnd(es: seq<Edge>, i: int)
    ensures forall k | k >= |es| :: !Near(es, i, k)
  {
  }

  lemma SweepStarts(es: seq<Edge>, shape: seq<Op>, p: Partition, held: seq<bool>, seams: seq<set<int>>)
    requires AllInRange(es, |shape|) && |held| == |seams| == |shape| == |p.rep|
    requires forall f | 0 <= f < |seams| :: seams[f] == {}
    ensures SweepState(es, shape, p, p, held, held, seams, 0, 0)
  {
    assert forall x, y :: !Swept(x, y, 0, 0);
  }

  // The body of the inner loop.
  method SweepPair(es: seq<Edge>, shape: seq<Op>, i: int, j: int, parent: array<int>, held: array<bool>,
                   seams: array<set<int>>, ghost held0: seq<bool>, ghost p: Partition, ghost q: Partition)
    returns (ghost q': Partition)
    requires AllInRange(es, |shape|) && 0 <= i < j < |es|
    requires parent.Length == held.Length == seams.Length == |held0| == |shape|
    requires Sound(parent[..], q)
    requires SweepState(es, shape, p, q, held0, held[..], seams[..], i, j)
    modifies parent, held, seams
    ensures Sound(parent[..], q')
    ensures SweepState(es, shape, p, q', held0, held[..], seams[..], i, j + 1)
  {
    hide Represents, Climbs, Close, SweptConflict, SweptSeam, Grown, NearLink, SweepState;
    q' := q;
    if !Adjacent(es[i], es[j]) {
      SweepSkips(es, shape, p, q, held0, held[..], seams[..], i, j, i, j + 1);
      return;
    }
    assert Near(es, i, j);
    NearFacesDiffer(es, i, j);
    hide Adjacent, Near;
    var a, b := es[i].face, es[j].face;
    Join(parent, a, b, q);
    JoinGrows(q, a, b);
    q' := AfterJoin(q, a, b);
    SweepTakes(es, shape, p, q, q', held0, held[..], seams[..], i, j);
    ghost var wasHeld, wasSeams := held[..], seams[..];
    if !Close(shape, es[i], es[j], ADJACENT_LIMIT) {
      held[a], held[b] := true, true;
      assert held[..] == wasHeld[a := true][b := true];
    } else {
      seams[a] := seams[a] + {es[i].edge};
      seams[b] := seams[b] + {es[j].edge};
      assert seams[..] == wasSeams[a := wasSeams[a] + {es[i].edge}][b := wasSeams[b] + {es[j].edge}];
    }
  }

  lemma NearFacesDiffer(es: seq<Edge>, i: int, j: int)
    requires Near(es, i, j)
    ensures es[i].face != es[j].face
  {
  }

  method SweepAdjacent(es: seq<Edge>, shape: seq<Op>, parent: array<int>, held: array<bool>,
                       seams: array<set<int>>, ghost p: Partition) returns (ghost q: Partition)
    requires Sorted(es) && AllInRange(es, |shape|)
    requires parent.Length == held.Length == seams.Length == |shape|
    requires Sound(parent[..], p) && forall f | 0 <= f < seams.Length :: seams[f] == {}
    modifies parent, held, seams
    ensures Sound(parent[..], q)
    ensures SweepState(es, shape, p, q, old(held[..]), held[..], seams[..], |es|, 0)
  {
    hide Represents, Climbs, Sorted, Close, Near, SweptConflict, SweptSeam, Grown, NearLink;
    q := p;
    SweepStarts(es, shape, p, held[..], seams[..]);
    for i := 0 to |es|
      invariant Sound(parent[..], q)
      invariant SweepState(es, shape, p, q, old(held[..]), held[..], seams[..], i, 0)
    {
      var j := i + 1;
      BeyondEnd(es, i);
      SweepSkips(es, shape, p, q, old(held[..]), held[..], seams[..], i, 0, i, i + 1);
      while j < |es|
        invariant i < j <= |es| && Sound(parent[..], q)
        invariant SweepState(es, shape, p, q, old(held[..]), held[..], seams[..], i, j)
      {
        if es[j].ends.x0 - es[i].ends.x0 > 1.0 {
          BreakSkipsNothing(es, i, j);
          break;
        }
        q := SweepPair(es, shape, i, j, parent, held, seams, old(held[..]), p, q);
        j := j + 1;
      }
      SweepSkips(es, shape, p, q, old(held[..]), held[..], seams[..], i, j, i + 1, 0);
    }
  }

  // ------------------------- from list positions back to recorded edges

  lemma ListedIffRecorded(es: seq<Edge>, ops: seq<Op>, history: bool)
    requires Lists(es, ops, history)
    ensures forall e :: e in es <==> Recorded(ops, history, e)
    ensures AllInRange(es, |ops|)
    ensures forall i, j | 0 <= i < |es| && 0 <= j < |es| && es[i] == es[j] :: i == j
  {
    forall e | Recorded(ops, history, e)
      ensures e in es
    {
      assert EdgeAt(ops, e.face, e.edge, history).Some?;
    }
    forall i | 0 <= i < |es|
      ensures InRange(es[i], |ops|)
    {
      RecordedInRange(ops, history, es[i]);
    }
  }

  lemma TwinsCoincide(es: seq<Edge>, ops: seq<Op>, history: bool, i: int, j: int)
    requires Lists(es, ops, history) && 0 <= i < |es| && 0 <= j < |es|
    ensures Twins(es, i, j) <==> Coincide(ops, history, es[i], es[j])
  {
    ListedIffRecorded(es, ops, history);
  }

  lemma SharedLinksAgree(es: seq<Edge>, ops: seq<Op>, history: bool, f: int, g: int)
    requires Lists(es, ops, history)
    ensures TwinLink(es, (f, g)) <==> SharesEdge(ops, history, f, g)
  {
    ListedIffRecorded(es, ops, history);
    if i, j :| Twins(es, i, j) && es[i].face == f && es[j].face == g {
      TwinsCoincide(es, ops, history, i, j);
    }
    if e, d :| Coincide(ops, history, e, d) && e.face == f && d.face == g {
      var i :| 0 <= i < |es| && es[i] == e;
      var j :| 0 <= j < |es| && es[j] == d;
      assert Twins(es, i, j);
    }
  }

  lemma BadEdgesAgree(es: seq<Edge>, ops: seq<Op>, history: bool, shape: seq<Op>, limit: real, i: int)
    requires Lists(es, ops, history) && |shape| == |ops| && AllInRange(es, |shape|) && 0 <= i < |es|
    ensures BadEdge(es, shape, limit, i) <==>
            exists d :: Ambiguous(ops, history, shape, limit, es[i], d)
  {
    hide Close;
    ListedIffRecorded(es, ops, history);
    if j :| BadTwins(es, shape, limit, i, j) {
      TwinsCoincide(es, ops, history, i, j);
      if k :| k != j && Twins(es, i, k) {
        TwinsCoincide(es, ops, history, i, k);
        assert es[k] != es[j];
      }
      assert Ambiguous(ops, history, shape, limit, es[i], es[j]);
    }
    if d :| Ambiguous(ops, history, shape, limit, es[i], d) {
      var j :| 0 <= j < |es| && es[j] == d;
      TwinsCoincide(es, ops, history, i, j);
      if c :| c != d && Coincide(ops, history, es[i], c) {
        var k :| 0 <= k < |es| && es[k] == c;
        TwinsCoincide(es, ops, history, i, k);
      }
      assert BadTwins(es, shape, limit, i, j);
    }
  }

  lemma HeldAgrees(before: seq<bool>, after: seq<bool>, es: seq<Edge>, ops: seq<Op>, history: bool,
                   shape: seq<Op>, limit: real, f: int)
    requires Lists(es, ops, history) && |shape| == |ops| == |before| == |after| && AllInRange(es, |shape|)
    requires HeldThrough(before, after, es, shape, limit, |es|) && 0 <= f < |after|
    ensures after[f] <==> before[f] || SharedConflict(ops, history, shape, limit, f)
  {
    hide Close, BadEdge, Ambiguous;
    ListedIffRecorded(es, ops, history);
    if x :| 0 <= x < |es| && es[x].face == f && BadEdge(es, shape, limit, x) {
      BadEdgesAgree(es, ops, history, shape, limit, x);
    }
    if e, d :| Ambiguous(ops, history, shape, limit, e, d) && e.face == f {
      AmbiguousIsRecorded(ops, history, shape, limit, e, d);
      var x :| 0 <= x < |es| && es[x] == e;
      BadEdgesAgree(es, ops, history, shape, limit, x);
    }
  }

  lemma AmbiguousIsRecorded(ops: seq<Op>, history: bool, shape: seq<Op>, limit: real, e: Edge, d: Edge)
    requires |shape| == |ops| && Ambiguous(ops, history, shape, limit, e, d)
    ensures Recorded(ops, history, e) && Recorded(ops, history, d)
  {
  }

  lemma NearAgrees(es: seq<Edge>, cur: seq<Op>, i: int, j: int)
    requires Lists(es, cur, false) && 0 <= i < |es| && 0 <= j < |es|
    ensures Near(es, i, j) <==> AdjacentEdges(cur, es[i], es[j])
    ensures Near(es, i, j) <==> Near(es, j, i)
    ensures Near(es, i, j) ==> i != j
  {
    hide EdgeAt;
    ListedIffRecorded(es, cur, false);
    AdjacentIsSymmetric(es[i], es[j]);
  }

  lemma NearLinksAgree(es: seq<Edge>, cur: seq<Op>, f: int, g: int)
    requires Lists(es, cur, false)
    ensures NearLink(es, (f, g)) <==> AdjacentFaces(cur, f, g)
  {
    hide EdgeAt, Adjacent;
    ListedIffRecorded(es, cur, false);
    if i, j :| Near(es, i, j) && es[i].face == f && es[j].face == g {
      NearAgrees(es, cur, i, j);
    }
    if e, d :| AdjacentEdges(cur, e, d) && e.face == f && d.face == g {
      var i :| 0 <= i < |es| && es[i] == e;
      var j :| 0 <= j < |es| && es[j] == d;
      NearAgrees(es, cur, i, j);
    }
  }

  lemma SweptConflictAgrees(es: seq<Edge>, cur: seq<Op>, hist: seq<Op>, f: int)
    requires Lists(es, cur, false) && |hist| == |cur| && AllInRange(es, |hist|)
    ensures SweptConflict(es, hist, f, |es|, 0) <==> AdjacentConflict(cur, hist, f)
  {
    hide EdgeAt, Adjacent, Close;
    ListedIffRecorded(es, cur, false);
    if x, y :| Swept(x, y, |es|, 0) && Near(es, x, y) && !Close(hist, es[x], es[y], ADJACENT_LIMIT) &&
               (f == es[x].face || f == es[y].face) {
      NearAgrees(es, cur, x, y);
      NearAgrees(es, cur, y, x);
      CloseIsSymmetric(hist, es[x], es[y], ADJACENT_LIMIT);
    }
    if e, d :| AdjacentEdges(cur, e, d) && e.face == f && !Close(hist, e, d, ADJACENT_LIMIT) {
      var i :| 0 <= i < |es| && es[i] == e;
      var j :| 0 <= j < |es| && es[j] == d;
      NearAgrees(es, cur, i, j);
      CloseIsSymmetric(hist, e, d, ADJACENT_LIMIT);
      if i < j {
        assert Swept(i, j, |es|, 0);
      } else {
        assert Swept(j, i, |es|, 0);
      }
    }
  }

  lemma SweptSeamAgrees(es: seq<Edge>, cur: seq<Op>, hist: seq<Op>, f: int, k: int)
    requires Lists(es, cur, false) && |hist| == |cur| && AllInRange(es, |hist|)
    ensures SweptSeam(es, hist, f, k, |es|, 0) <==> IsSeam(cur, hist, f, k)
  {
    hide EdgeAt, Adjacent, Close;
    ListedIffRecorded(es, cur, false);
    if x, y :| Swept(x, y, |es|, 0) && Near(es, x, y) && Close(hist, es[x], es[y], ADJACENT_LIMIT) &&
               ((f == es[x].face && k == es[x].edge) || (f == es[y].face && k == es[y].edge)) {
      NearAgrees(es, cur, x, y);
      NearAgrees(es, cur, y, x);
      CloseIsSymmetric(hist, es[x], es[y], ADJACENT_LIMIT);
    }
    if e, d :| AdjacentEdges(cur, e, d) && e.face == f && e.edge == k && Close(hist, e, d, ADJACENT_LIMIT) {
      var i :| 0 <= i < |es| && es[i] == e;
      var j :| 0 <= j < |es| && es[j] == d;
      NearAgrees(es, cur, i, j);
      CloseIsSymmetric(hist, e, d, ADJACENT_LIMIT);
      if i < j {
        assert Swept(i, j, |es|, 0);
      } else {
        assert Swept(j, i, |es|, 0);
      }
    }
  }

  // ------------------------------------------------------ the whole weld

  // Everything the three passes have joined and held is what the reference
  // says about contacts and held faces.
  lemma PassesAgree(cur: seq<Op>, hist: seq<Op>, es: seq<Edge>, hs: seq<Edge>,
                    p1: Partition, p2: Partition, p3: Partition)
    requires |cur| == |hist| == |p1.rep| == |p2.rep| == |p3.rep|
    requires Lists(es, cur, false) && Lists(hs, hist, true)
    requires Grown(p1, p2) && Grown(p2, p3) && Represents(p3.rep, p3.joins)
    requires forall l | l in p1.joins :: TwinLink(es, l)
    requires forall l | l in p2.joins - p1.joins :: NearLink(es, l)
    requires forall l | l in p3.joins - p2.joins :: TwinLink(hs, l)
    requires forall i, j | Twins(es, i, j) :: p1.rep[es[i].face] == p1.rep[es[j].face]
    requires forall i, j | 0 <= i < j < |es| && Near(es, i, j) :: p2.rep[es[i].face] == p2.rep[es[j].face]
    requires forall i, j | Twins(hs, i, j) :: p3.rep[hs[i].face] == p3.rep[hs[j].face]
    ensures Represents(p3.rep, Contacts(cur, hist))
  {
    hide Connected, EdgeAt, Adjacent;
    ListedIffRecorded(es, cur, false);
    ListedIffRecorded(hs, hist, true);
    var links := Contacts(cur, hist);
    forall l | l in p3.joins
      ensures l in links
    {
      var (f, g) := l;
      SharedLinksAgree(es, cur, false, f, g);
      NearLinksAgree(es, cur, f, g);
      SharedLinksAgree(hs, hist, true, f, g);
      assert TwinLink(es, (f, g)) || NearLink(es, (f, g)) || TwinLink(hs, (f, g));
    }
    forall l | l in links
      ensures p3.rep[l.0] == p3.rep[l.1]
    {
      var (f, g) := l;
      SharedLinksAgree(es, cur, false, f, g);
      NearLinksAgree(es, cur, f, g);
      SharedLinksAgree(hs, hist, true, f, g);
      if i, j :| Near(es, i, j) && es[i].face == f && es[j].face == g {
        NearAgrees(es, cur, i, j);
        assert p2.rep[f] == p2.rep[g];
      }
    }
    RedundantLinks(p3.rep, p3.joins, links);
  }

  ghost predicate HeldInBlock(held: seq<bool>, rep: seq<int>, f: int)
    requires |held| == |rep| && 0 <= f < |rep|
  {
    exists g :: 0 <= g < |held| && rep[g] == rep[f] && held[g]
  }

  // Held faces so far: the original ones, the roots of those before i, and
  // nothing outside a block that had one.
  ghost predicate Spread(held0: seq<bool>, held: seq<bool>, rep: seq<int>, i: int)
    requires |held0| == |held| == |rep| && forall x | 0 <= x < |rep| :: 0 <= rep[x] < |rep|
  {
    && (forall x | 0 <= x < |held| && held0[x] :: held[x])
    && (forall x | 0 <= x < |held| && held[x] :: HeldInBlock(held0, rep, x))
    && (forall g | 0 <= g < i && g < |held| && held0[g] :: held[rep[g]])
  }

  lemma SpreadStep(held0: seq<bool>, held: seq<bool>, rep: seq<int>, i: int)
    requires |held0| == |held| == |rep| && forall x | 0 <= x < |rep| :: 0 <= rep[x] < |rep|
    requires Spread(held0, held, rep, i) && 0 <= i < |rep| && rep[rep[i]] == rep[i]
    ensures Spread(held0, if held[i] then held[rep[i] := true] else held, rep, i + 1)
  {
    if held[i] {
      assert HeldInBlock(held0, rep, i);
      assert HeldInBlock(held0, rep, rep[i]);
    }
  }

  lemma SpreadEnds(held0: seq<bool>, held: seq<bool>, rep: seq<int>, f: int)
    requires |held0| == |held| == |rep| && forall x | 0 <= x < |rep| :: 0 <= rep[x] < |rep|
    requires Spread(held0, held, rep, |rep|) && 0 <= f < |rep| && rep[rep[f]] == rep[f]
    ensures held[rep[f]] <==> HeldInBlock(held0, rep, f)
  {
    if held[rep[f]] {
      assert HeldInBlock(held0, rep, rep[f]);
    }
  }

  method SpreadHeld(parent: array<int>, held: array<bool>, ghost q: Partition)
    requires parent.Length == held.Length && Sound(parent[..], q)
    modifies parent, held
    ensures Sound(parent[..], q)
    ensures forall f | 0 <= f < held.Length :: held[q.rep[f]] <==> HeldInBlock(old(held[..]), q.rep, f)
  {
    hide Represents, Climbs, Spread, HeldInBlock;
    ghost var held0 := held[..];
    assert Spread(held0, held[..], q.rep, 0) by { SpreadStarts(held0, q.rep); }
    for i := 0 to held.Length
      invariant Sound(parent[..], q) && Spread(held0, held[..], q.rep, i)
    {
      RootOfRoot(parent[..], q, i);
      SpreadStep(held0, held[..], q.rep, i);
      if held[i] {
        ghost var prior := held[..];
        var r := Root(parent, i, q);
        held[r] := true;
        assert held[..] == prior[q.rep[i] := true];
      }
    }
    forall f | 0 <= f < held.Length
      ensures held[q.rep[f]] <==> HeldInBlock(held0, q.rep, f)
    {
      RootOfRoot(parent[..], q, f);
      SpreadEnds(held0, held[..], q.rep, f);
    }
  }

  lemma SpreadStarts(held: seq<bool>, rep: seq<int>)
    requires |held| == |rep| && forall x | 0 <= x < |rep| :: 0 <= rep[x] < |rep|
    ensures Spread(held, held, rep, 0)
  {
  }

  lemma RootOfRoot(parent: seq<int>, q: Partition, f: int)
    requires Forest(parent, q.rep, q.height) && 0 <= f < |parent|
    ensures q.rep[q.rep[f]] == q.rep[f]
  {
    assert Climbs(parent, q.rep, q.height, f);
  }

  // How many corners of face f move when it is put back.
  function MovedCorners(cur: Op, hist: Op): nat {
    MovedCorner(cur, hist, 0) + MovedCorner(cur, hist, 1) + MovedCorner(cur, hist, 2) + MovedCorner(cur, hist, 3)
  }

  function MovedCorner(cur: Op, hist: Op, k: int): nat
    requires 0 <= k < 4
  {
    if XY(hist, 2 * k) != XY(cur, 2 * k) || XY(hist, 2 * k + 1) != XY(cur, 2 * k + 1) then 1 else 0
  }

  ghost function ChangedCorners(cur: seq<Op>, hist: seq<Op>, n: nat): nat
    requires |cur| == |hist| && n <= |cur|
  {
    if n == 0 then 0
    else ChangedCorners(cur, hist, n - 1) +
         if Eligible(cur[n - 1]) && Frozen(cur, hist, n - 1) then MovedCorners(cur[n - 1], hist[n - 1]) else 0
  }

  lemma WeldDecided(cur: seq<Op>, hist: seq<Op>, es: seq<Edge>, hs: seq<Edge>,
                    p0: Partition, p1: Partition, p2: Partition, p3: Partition,
                    held0: seq<bool>, held1: seq<bool>, held2: seq<bool>, held3: seq<bool>, seams: seq<set<int>>)
    requires |cur| == |hist| == |p1.rep| == |p2.rep| == |p3.rep|
    requires |cur| == |held0| == |held1| == |held2| == |held3| == |seams|
    requires Lists(es, cur, false) && Lists(hs, hist, true)
    requires AllInRange(es, |hist|) && AllInRange(hs, |cur|)
    requires p0.joins == {} && Represents(p3.rep, p3.joins)
    requires forall l | l in p1.joins - p0.joins :: TwinLink(es, l)
    requires forall i, j | Twins(es, i, j) :: p1.rep[es[i].face] == p1.rep[es[j].face]
    requires SweepState(es, hist, p1, p2, held1, held2, seams, |es|, 0)
    requires Grown(p2, p3) && forall l | l in p3.joins - p2.joins :: TwinLink(hs, l)
    requires forall i, j | Twins(hs, i, j) :: p3.rep[hs[i].face] == p3.rep[hs[j].face]
    requires forall f | 0 <= f < |cur| :: held0[f] == InitiallyHeld(cur[f], hist[f])
    requires HeldThrough(held0, held1, es, hist, SHARED_LIMIT, |es|)
    requires HeldThrough(held2, held3, hs, cur, ADJACENT_LIMIT, |hs|)
    ensures forall f | 0 <= f < |cur| :: seams[f] == SeamsOf(cur, hist, f)
    ensures forall f | 0 <= f < |cur| ::
              Frozen(cur, hist, f) <==> HeldInBlock(held3, p3.rep, f)
  {
    hide Connected, EdgeAt, Adjacent, Close, InitiallyHeld, Near, NearLink, TwinLink;
    assert p1.joins - p0.joins == p1.joins;
    forall i, j | 0 <= i < j < |es| && Near(es, i, j)
      ensures p2.rep[es[i].face] == p2.rep[es[j].face]
    {
      assert Swept(i, j, |es|, 0);
    }
    PassesAgree(cur, hist, es, hs, p1, p2, p3);
    forall f | 0 <= f < |cur|
      ensures seams[f] == SeamsOf(cur, hist, f)
    {
      forall k
        ensures k in seams[f] <==> IsSeam(cur, hist, f, k)
        ensures IsSeam(cur, hist, f, k) ==> 0 <= k < 4
      {
        SweptSeamAgrees(es, cur, hist, f, k);
        SeamIsEdge(cur, hist, f, k);
      }
    }
    forall f | 0 <= f < |cur|
      ensures held3[f] <==> Held(cur, hist, f)
    {
      HeldAgrees(held0, held1, es, cur, false, hist, SHARED_LIMIT, f);
      SweptConflictAgrees(es, cur, hist, f);
      HeldAgrees(held2, held3, hs, hist, true, cur, ADJACENT_LIMIT, f);
    }
  }

  lemma SeamIsEdge(cur: seq<Op>, hist: seq<Op>, f: int, k: int)
    requires |cur| == |hist|
    ensures IsSeam(cur, hist, f, k) ==> 0 <= k < 4
  {
  }

  // The roots decide, and every face knows its seams.
  ghost predicate Decided(cur: seq<Op>, hist: seq<Op>, held: seq<bool>, seams: seq<set<int>>, rep: seq<int>)
    requires |cur| == |hist|
  {
    && |cur| == |held| == |seams| == |rep|
    && (forall f | 0 <= f < |rep| :: 0 <= rep[f] < |rep|)
    && (forall f | 0 <= f < |cur| :: held[rep[f]] <==> Frozen(cur, hist, f))
    && (forall f | 0 <= f < |cur| :: seams[f] == SeamsOf(cur, hist, f))
  }

  method DecideFaces(cur: seq<Op>, hist: seq<Op>, parent: array<int>, held: array<bool>, seams: array<set<int>>)
    returns (ghost q: Partition)
    requires |hist| == |cur| == parent.Length == held.Length == seams.Length
    modifies parent, held, seams
    ensures Sound(parent[..], q) && Decided(cur, hist, held[..], seams[..], q.rep)
  {
    hide Represents, Climbs, Contacts, Held, Frozen, InitiallyHeld, Lists, Sorted;
    hide HeldThrough, SweepState, TwinLink, Twins, Grown, PairValid, SeamsOf, Eligible;
    var n := |cur|;
    for i := 0 to n
      invariant forall k | 0 <= k < i :: parent[k] == k && held[k] == InitiallyHeld(cur[k], hist[k]) && seams[k] == {}
    {
      parent[i] := i;
      held[i] := InitiallyHeld(cur[i], hist[i]);
      seams[i] := {};
    }
    ghost var held0 := held[..];
    assert parent[..] == seq(n, x => x);
    AloneIsSound(n);
    var es := RecordedEdges(cur, false);
    var hs := RecordedEdges(hist, true);
    ListedIffRecorded(es, cur, false);
    ListedIffRecorded(hs, hist, true);
    ghost var p0 := Alone(n);
    ghost var p1 := HoldShared(es, hist, SHARED_LIMIT, parent, held, p0);
    ghost var held1 := held[..];
    ghost var p2 := SweepAdjacent(es, hist, parent, held, seams, p1);
    ghost var held2 := held[..];
    q := HoldShared(hs, cur, ADJACENT_LIMIT, parent, held, p2);
    ghost var held3 := held[..];
    WeldDecided(cur, hist, es, hs, p0, p1, p2, q, held0, held1, held2, held3, seams[..]);
    SpreadHeld(parent, held, q);
  }

  method SettleFaces(cur: seq<Op>, hist: array<Op>, parent: array<int>, held: array<bool>, seams: array<set<int>>,
                     ghost q: Partition) returns (changed: nat)
    requires hist.Length == |cur| == parent.Length
    requires Sound(parent[..], q) && Decided(cur, hist[..], held[..], seams[..], q.rep)
    modifies hist, parent
    ensures forall f | 0 <= f < |cur| :: hist[f] == Welded(cur, old(hist[..]), f)
    ensures changed == ChangedCorners(cur, old(hist[..]), |cur|)
  {
    hide Sound, Frozen, Welded, MovedCorners, SeamsOf, Eligible;
    ghost var hist0 := hist[..];
    changed := 0;
    for i := 0 to |cur|
      invariant Sound(parent[..], q)
      invariant forall k | 0 <= k < i :: hist[k] == Welded(cur, hist0, k)
      invariant forall k | i <= k < |cur| :: hist[k] == hist0[k]
      invariant changed == ChangedCorners(cur, hist0, i)
    {
      WeldedUnfolds(cur, hist0, i);
      if Eligible(cur[i]) {
        var r := Root(parent, i, q);
        if held[r] {
          changed := changed + MovedCorners(cur[i], hist[i]);
          hist[i] := cur[i];
        } else {
          hist[i] := hist[i].(seams := seams[i]);
        }
      }
    }
  }

  // `haveScratch` says whether the working arrays could be allocated.
  method Weld(cur: seq<Op>, hist: array<Op>, haveScratch: bool) returns (changed: nat)
    requires hist.Length == |cur|
    modifies hist
    ensures |cur| == 0 || |cur| > 8192 ==> hist[..] == old(hist[..]) && changed == 0
    ensures 0 < |cur| <= 8192 && !haveScratch ==> hist[..] == cur && changed == 0
    ensures 0 < |cur| <= 8192 && haveScratch ==>
              && (forall f | 0 <= f < |cur| :: hist[f] == Welded(cur, old(hist[..]), f))
              && changed == ChangedCorners(cur, old(hist[..]), |cur|)
  {
    hide Decided, Sound, Welded, ChangedCorners;
    var n := |cur|;
    if n == 0 || n > 8192 {
      return 0;
    }
    if !haveScratch {
      for i := 0 to n
        invariant forall k | 0 <= k < i :: hist[k] == cur[k]
      {
        hist[i] := cur[i];
      }
      return 0;
    }
    var parent, held, seams := new int[n], new bool[n], new set<int>[n];
    ghost var q := DecideFaces(cur, hist[..], parent, held, seams);
    changed := SettleFaces(cur, hist, parent, held, seams, q);
  }

  lemma WeldedUnfolds(cur: seq<Op>, hist: seq<Op>, f: int)
    requires |cur| == |hist| && 0 <= f < |cur|
    ensures Welded(cur, hist, f) ==
            if !Eligible(cur[f]) then hist[f]
            else if Frozen(cur, hist, f) then cur[f] else hist[f].(seams := SeamsOf(cur, hist, f))
    ensures ChangedCorners(cur, hist, f + 1) == ChangedCorners(cur, hist, f) +
            if Eligible(cur[f]) && Frozen(cur, hist, f) then MovedCorners(cur[f], hist[f]) else 0
  {
  }
}
