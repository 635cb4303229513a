// Welding an already welded frame changes nothing.
module GeometrySettled {
  import opened GeometryOps
  import opened GeometryMotion
  import opened GeometryUnion
  import opened GeometryEdges
  import opened GeometryWeld
  import opened GeometryAudit
  import GeometryMatch

  // Faces that were not frozen, and ineligible ones, have not moved.
  lemma UnfrozenStays(cur: seq<Op>, hist: seq<Op>, f: int)
    requires |cur| == |hist| && 0 <= f < |cur|
    requires !Eligible(cur[f]) || !Frozen(cur, hist, f)
    ensures After(cur, hist)[f].pos == hist[f].pos
    ensures Eligible(After(cur, hist)[f]) == Eligible(hist[f])
  {
  }

  // The second weld sees no history edge that the first did not see.
  lemma HistoryShrinks(cur: seq<Op>, hist: seq<Op>, e: Edge)
    requires |cur| == |hist| && GeometryMatch.AllNative(cur)
    requires Recorded(After(cur, hist), true, e)
    ensures Recorded(hist, true, e) && (Eligible(cur[e.face]) ==> !Frozen(cur, hist, e.face))
  {
    hide Frozen, SeamsOf;
    var after := After(cur, hist);
    assert forall f | 0 <= f < |cur| && Eligible(cur[f]) && Frozen(cur, hist, f) :: after[f] == cur[f];
    if !(Eligible(cur[e.face]) && Frozen(cur, hist, e.face)) {
      UnfrozenStays(cur, hist, e.face);
    }
  }

  lemma CoincideShrinks(cur: seq<Op>, hist: seq<Op>, e: Edge, d: Edge)
    requires |cur| == |hist| && GeometryMatch.AllNative(cur)
    requires Coincide(After(cur, hist), true, e, d)
    ensures Coincide(hist, true, e, d)
  {
    hide Recorded;
    HistoryShrinks(cur, hist, e);
    HistoryShrinks(cur, hist, d);
  }

  lemma ContactsShrink(cur: seq<Op>, hist: seq<Op>)
    requires |cur| == |hist| && GeometryMatch.AllNative(cur)
    ensures Contacts(cur, After(cur, hist)) <= Contacts(cur, hist)
  {
    hide Coincide, AdjacentFaces, After;
    var after := After(cur, hist);
    forall f, g | 0 <= f < |cur| && 0 <= g < |cur| && Touches(cur, after, f, g)
      ensures Touches(cur, hist, f, g)
    {
      if SharesEdge(after, true, f, g) {
        var e, d :| Coincide(after, true, e, d) && e.face == f && d.face == g;
        CoincideShrinks(cur, hist, e, d);
      }
    }
  }

  lemma FewerLinksConnectLess(links: set<Link>, more: set<Link>, f: int, g: int)
    requires links <= more && Connected(links, f, g)
    ensures Connected(more, f, g)
  {
    forall s: set<int> | Closed(more, s) && f in s
      ensures g in s
    {
      assert Closed(links, s);
    }
  }

  lemma SharedConflictStays(cur: seq<Op>, hist: seq<Op>, f: int)
    requires |cur| == |hist| && 0 <= f < |cur| && !Frozen(cur, hist, f)
    ensures !SharedConflict(cur, false, After(cur, hist), SHARED_LIMIT, f)
  {
    hide Frozen, EdgeAt, Close, Held, After;
    var after := After(cur, hist);
    forall e, d | Coincide(cur, false, e, d) && InRange(e, |cur|) && InRange(d, |cur|) && e.face == f
      ensures !Ambiguous(cur, false, after, SHARED_LIMIT, e, d)
    {
      UnfrozenIsNotHeld(cur, hist, f);
      NotAmbiguous(cur, hist, e, d);
      SharedEdgesStayTogether(cur, hist, e, d);
    }
  }

  lemma NotAmbiguous(cur: seq<Op>, hist: seq<Op>, e: Edge, d: Edge)
    requires |cur| == |hist| && Coincide(cur, false, e, d) && InRange(e, |cur|) && InRange(d, |cur|)
    requires !Held(cur, hist, e.face)
    ensures e.face != d.face
    ensures forall c | Coincide(cur, false, e, c) :: c == d
  {
    hide EdgeAt, Close;
    assert !SharedConflict(cur, false, hist, SHARED_LIMIT, e.face);
    assert !Ambiguous(cur, false, hist, SHARED_LIMIT, e, d);
  }

  lemma AdjacentConflictStays(cur: seq<Op>, hist: seq<Op>, f: int)
    requires |cur| == |hist| && 0 <= f < |cur|
    ensures !AdjacentConflict(cur, After(cur, hist), f)
  {
    hide EdgeAt, Close, After, Adjacent;
    forall e, d | AdjacentEdges(cur, e, d) && e.face == f
      ensures Close(After(cur, hist), e, d, ADJACENT_LIMIT)
    {
      AdjacentEdgesStayTogether(cur, hist, e, d);
    }
  }

  lemma HistoryConflictStays(cur: seq<Op>, hist: seq<Op>, f: int)
    requires |cur| == |hist| && 0 <= f < |cur| && GeometryMatch.AllNative(cur) && !Frozen(cur, hist, f)
    ensures !SharedConflict(After(cur, hist), true, cur, ADJACENT_LIMIT, f)
  {
    hide Frozen, EdgeAt, Close, Held, After, Coincide;
    var after := After(cur, hist);
    UnfrozenIsNotHeld(cur, hist, f);
    if e, d :| Ambiguous(after, true, cur, ADJACENT_LIMIT, e, d) && e.face == f {
      CoincideShrinks(cur, hist, e, d);
      if c :| c != d && Coincide(after, true, e, c) {
        CoincideShrinks(cur, hist, e, c);
      }
      assert Ambiguous(hist, true, cur, ADJACENT_LIMIT, e, d);
      HistoryConflictHolds(cur, hist, e, d);
    }
  }

  lemma HistoryConflictHolds(cur: seq<Op>, hist: seq<Op>, e: Edge, d: Edge)
    requires |cur| == |hist| && Ambiguous(hist, true, cur, ADJACENT_LIMIT, e, d)
    ensures 0 <= e.face < |cur| && Held(cur, hist, e.face)
  {
    hide EdgeAt, Close;
    assert SharedConflict(hist, true, cur, ADJACENT_LIMIT, e.face);
  }

  lemma StillNotHeld(cur: seq<Op>, hist: seq<Op>, f: int)
    requires |cur| == |hist| && 0 <= f < |cur| && GeometryMatch.AllNative(cur) && !Frozen(cur, hist, f)
    ensures !Held(cur, After(cur, hist), f)
  {
    hide Frozen, SharedConflict, AdjacentConflict, PairValid, SeamsOf;
    SharedConflictStays(cur, hist, f);
    AdjacentConflictStays(cur, hist, f);
    HistoryConflictStays(cur, hist, f);
    if Eligible(cur[f]) {
      UnfrozenIsNotHeld(cur, hist, f);
      UnheldIsValid(cur, hist, f);
      SamePlaceSamePair(hist[f], After(cur, hist)[f], cur[f]);
    }
  }

  lemma FrozenStays(cur: seq<Op>, hist: seq<Op>, f: int)
    requires |cur| == |hist| && 0 <= f < |cur| && GeometryMatch.AllNative(cur) && Eligible(cur[f])
    ensures Frozen(cur, After(cur, hist), f) <==> Frozen(cur, hist, f)
  {
    hide Held, Contacts, Connected, SeamsOf;
    var after := After(cur, hist);
    if Frozen(cur, hist, f) {
      assert after[f] == cur[f];
      NativeIsHeld(cur, after, f);
      ConnectedIsReflexive(Contacts(cur, after), f);
      assert Frozen(cur, after, f);
    } else if Frozen(cur, after, f) {
      var g :| 0 <= g < |cur| && Connected(Contacts(cur, after), f, g) && Held(cur, after, g);
      ContactsShrink(cur, hist);
      FewerLinksConnectLess(Contacts(cur, after), Contacts(cur, hist), f, g);
      ConnectedSharesFate(cur, hist, f, g);
      StillNotHeld(cur, hist, g);
    }
  }

  lemma NativeIsHeld(cur: seq<Op>, hist: seq<Op>, f: int)
    requires |cur| == |hist| && 0 <= f < |cur| && Eligible(cur[f]) && hist[f].pos.Native?
    ensures Held(cur, hist, f)
  {
  }

  lemma SeamsStay(cur: seq<Op>, hist: seq<Op>, f: int)
    requires |cur| == |hist| && 0 <= f < |cur| && !Frozen(cur, hist, f)
    ensures SeamsOf(cur, After(cur, hist), f) == SeamsOf(cur, hist, f)
  {
    hide Frozen, EdgeAt, Close, Held, After, Adjacent;
    var after := After(cur, hist);
    UnfrozenIsNotHeld(cur, hist, f);
    forall k | 0 <= k < 4
      ensures IsSeam(cur, after, f, k) == IsSeam(cur, hist, f, k)
    {
      if e, d :| AdjacentEdges(cur, e, d) && e.face == f && e.edge == k {
        AdjacentEdgesStayTogether(cur, hist, e, d);
        AdjacentEdgeHadAgreed(cur, hist, e, d);
      }
    }
  }

  lemma WeldIsIdempotent(cur: seq<Op>, hist: seq<Op>)
    requires |cur| == |hist| && GeometryMatch.AllNative(cur)
    ensures After(cur, After(cur, hist)) == After(cur, hist)
  {
    hide Frozen, SeamsOf;
    var after := After(cur, hist);
    forall f | 0 <= f < |cur|
      ensures After(cur, after)[f] == after[f]
    {
      if Eligible(cur[f]) {
        FrozenStays(cur, hist, f);
        if !Frozen(cur, hist, f) {
          SeamsStay(cur, hist, f);
        }
      }
    }
  }
}
