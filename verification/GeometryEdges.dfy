// The directed-to-undirected edge records of a list of faces, and their order.
module GeometryEdges {
  import opened GeometryOps
  import opened Options

  // The end points in canonical order, the corner indices they came from, and
  // the edge's own place.
  datatype Ends = Ends(x0: real, y0: real, x1: real, y1: real)
  datatype Edge = Edge(ends: Ends, a: int, b: int, face: int, edge: int)

  predicate IsPresented(o: Op) { o.pos.Presented? }

  predicate Contributes(o: Op, history: bool) {
    Eligible(o) && (history ==> IsPresented(o))
  }

  // Edge k of face f, when it is recorded at all.
  function EdgeAt(ops: seq<Op>, f: int, k: int, history: bool): (r: Option<Edge>)
    requires 0 <= f < |ops| && 0 <= k < 4
    ensures r.Some? ==> r.value.face == f && r.value.edge == k
  {
    var o, j := ops[f], NextCorner(k);
    if !Contributes(o, history) then None else
    var x0, y0, x1, y1 := XY(o, 2 * k), XY(o, 2 * k + 1), XY(o, 2 * j), XY(o, 2 * j + 1);
    if x0.NonFinite? || y0.NonFinite? || x1.NonFinite? || y1.NonFinite? then None
    else if x0 == x1 && y0 == y1 then None
    else if x0.value > x1.value || (x0.value == x1.value && y0.value > y1.value)
    then Some(Edge(Ends(x1.value, y1.value, x0.value, y0.value), 4 * f + j, 4 * f + k, f, k))
    else Some(Edge(Ends(x0.value, y0.value, x1.value, y1.value), 4 * f + k, 4 * f + j, f, k))
  }

  // `geometry_edge_compare` < 0, field by field.
  predicate Before(e: Ends, d: Ends) {
    if e.x0 != d.x0 then e.x0 < d.x0
    else if e.y0 != d.y0 then e.y0 < d.y0
    else if e.x1 != d.x1 then e.x1 < d.x1
    else e.y1 < d.y1
  }

  predicate Sorted(es: seq<Edge>) {
    forall i, j | 0 <= i < j < |es| :: !Before(es[j].ends, es[i].ends)
  }

  // es lists every recorded edge of `ops` exactly once.
  ghost predicate Lists(es: seq<Edge>, ops: seq<Op>, history: bool) {
    && (forall i | 0 <= i < |es| ::
          && 0 <= es[i].face < |ops| && 0 <= es[i].edge < 4
          && EdgeAt(ops, es[i].face, es[i].edge, history) == Some(es[i]))
    && (forall i, j | 0 <= i < j < |es| :: es[i] != es[j])
    && (forall f, k | 0 <= f < |ops| && 0 <= k < 4 :: var e := EdgeAt(ops, f, k, history);
          e.Some? ==> e.value in es)
  }

  // ------------------------------------------------------- the edge list

  // The same, for the faces before n and, of face n, the edges before m.
  ghost predicate ListsUpTo(es: seq<Edge>, ops: seq<Op>, history: bool, n: int, m: int)
    requires 0 <= n <= |ops| && 0 <= m <= 4
  {
    && (forall i | 0 <= i < |es| ::
          && 0 <= es[i].face < |ops| && 0 <= es[i].edge < 4
          && (es[i].face < n || (es[i].face == n && es[i].edge < m))
          && EdgeAt(ops, es[i].face, es[i].edge, history) == Some(es[i]))
    && (forall i, j | 0 <= i < j < |es| :: es[i] != es[j])
    && (forall f, k | 0 <= f < |ops| && 0 <= k < 4 && (f < n || (f == n && k < m)) ::
          var e := EdgeAt(ops, f, k, history);
          e.Some? ==> e.value in es)
  }

  lemma ListsOneMore(es: seq<Edge>, ops: seq<Op>, history: bool, n: int, m: int)
    requires 0 <= n < |ops| && 0 <= m < 4 && ListsUpTo(es, ops, history, n, m)
    ensures var e := EdgeAt(ops, n, m, history);
            ListsUpTo(if e.Some? then es + [e.value] else es, ops, history, n, m + 1)
  {
    hide EdgeAt;
    var e := EdgeAt(ops, n, m, history);
    var es' := if e.Some? then es + [e.value] else es;
    forall f, k | 0 <= f < |ops| && 0 <= k < 4 && (f < n || (f == n && k < m + 1))
      ensures var e' := EdgeAt(ops, f, k, history); e'.Some? ==> e'.value in es'
    {
      if f == n && k == m && e.Some? {
        assert es'[|es|] == e.value;
      }
    }
  }

  method RecordedEdges(ops: seq<Op>, history: bool) returns (es: seq<Edge>)
    ensures Lists(es, ops, history) && Sorted(es)
  {
    hide EdgeAt, Before;
    es := [];
    for i := 0 to |ops|
      invariant ListsUpTo(es, ops, history, i, 0)
    {
      for k := 0 to 4
        invariant ListsUpTo(es, ops, history, i, k)
      {
        ListsOneMore(es, ops, history, i, k);
        var e := EdgeAt(ops, i, k, history);
        if e.Some? {
          es := es + [e.value];
        }
      }
    }
    ghost var unsorted := es;
    es := SortEdges(es);
    SortingKeepsList(unsorted, es, ops, history);
  }

  // ------------------------------------------------------------- sorting

  lemma BeforeIsStrictOrder(a: Ends, b: Ends, c: Ends)
    ensures !(Before(a, b) && Before(b, a))
    ensures !Before(b, a) && !Before(c, b) ==> !Before(c, a)
    ensures !Before(a, b) && !Before(b, a) <==> a == b
  {
  }

  lemma SortedInsert(s: seq<Edge>, p: int, e: Edge)
    requires Sorted(s) && 0 <= p <= |s|
    requires p > 0 ==> !Before(e.ends, s[p - 1].ends)
    requires p < |s| ==> Before(e.ends, s[p].ends)
    ensures Sorted(s[..p] + [e] + s[p..])
  {
    hide Before;
    var r := s[..p] + [e] + s[p..];
    forall i, j | 0 <= i < j < |r|
      ensures !Before(r[j].ends, r[i].ends)
    {
      if i < p && j == p {
        BeforeIsStrictOrder(s[i].ends, s[p - 1].ends, e.ends);
      } else if i == p {
        BeforeIsStrictOrder(e.ends, s[p].ends, s[j - 1].ends);
      }
    }
  }

  // `qsort`: some sorted permutation; nothing is said about equal edges.
  method SortEdges(es: seq<Edge>) returns (r: seq<Edge>)
    ensures Sorted(r) && multiset(r) == multiset(es)
  {
    hide Before, Sorted;
    r := [];
    SortedEmpty();
    for i := 0 to |es|
      invariant Sorted(r) && multiset(r) == multiset(es[..i])
    {
      var e, p := es[i], |r|;
      while p > 0 && Before(e.ends, r[p - 1].ends)
        invariant 0 <= p <= |r|
        invariant p < |r| ==> Before(e.ends, r[p].ends)
      {
        p := p - 1;
      }
      SortedInsert(r, p, e);
      InsertCounts(r, p, e);
      assert es[..i + 1] == es[..i] + [e];
      r := r[..p] + [e] + r[p..];
    }
    assert es[..|es|] == es;
  }

  lemma SortedEmpty()
    ensures Sorted([])
  {
  }

  lemma InsertCounts(s: seq<Edge>, p: int, e: Edge)
    requires 0 <= p <= |s|
    ensures multiset(s[..p] + [e] + s[p..]) == multiset(s) + multiset{e}
  {
    assert s == s[..p] + s[p..];
  }

  lemma SortingKeepsList(es: seq<Edge>, r: seq<Edge>, ops: seq<Op>, history: bool)
    requires ListsUpTo(es, ops, history, |ops|, 0) && multiset(r) == multiset(es)
    ensures Lists(r, ops, history)
  {
    hide EdgeAt;
    forall e
      ensures e in r <==> e in es
    {
      assert e in r <==> e in multiset(r);
    }
    forall i | 0 <= i < |r|
      ensures 0 <= r[i].face < |ops| && 0 <= r[i].edge < 4
      ensures EdgeAt(ops, r[i].face, r[i].edge, history) == Some(r[i])
    {
      assert r[i] in es;
    }
    forall i, j | 0 <= i < j < |r|
      ensures r[i] != r[j]
    {
      if r[i] == r[j] {
        TwiceIn(r, i, j);
        OnceIn(es, r[i]);
        assert false;
      }
    }
  }

  lemma TwiceIn(s: seq<Edge>, i: int, j: int)
    requires 0 <= i < j < |s| && s[i] == s[j]
    ensures multiset(s)[s[i]] >= 2
  {
    assert s == s[..j] + [s[j]] + s[j + 1..];
    assert s[i] in s[..j];
  }

  lemma OnceIn(s: seq<Edge>, e: Edge)
    requires forall i, j | 0 <= i < j < |s| :: s[i] != s[j]
    ensures multiset(s)[e] <= 1
  {
    if |s| > 0 {
      assert s == [s[0]] + s[1..];
      OnceIn(s[1..], e);
    }
  }
}
