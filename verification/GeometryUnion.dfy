// The union-find over faces: `geometry_root` halves paths while it climbs,
// `geometry_join` hangs one root below the other.
module GeometryUnion {

  type Link = (int, int)

  // ------------------------------------------------------- the reference

  // No link leads out of S.
  predicate Closed(links: set<Link>, s: set<int>) {
    forall l | l in links :: l.0 in s <==> l.1 in s
  }

  // x and y cannot be separated without cutting a link.
  ghost predicate Connected(links: set<Link>, x: int, y: int) {
    forall s: set<int> | Closed(links, s) && x in s :: y in s
  }

  predicate Linked(links: set<Link>, x: int, y: int) { (x, y) in links || (y, x) in links }

  predicate IsPath(links: set<Link>, path: seq<int>) {
    |path| > 0 && forall i | 0 <= i < |path| - 1 :: Linked(links, path[i], path[i + 1])
  }

  ghost predicate Joins(links: set<Link>, path: seq<int>, x: int, y: int) {
    IsPath(links, path) && path[0] == x && path[|path| - 1] == y
  }

  lemma {:induction false} PathStaysInside(links: set<Link>, path: seq<int>, s: set<int>)
    requires IsPath(links, path) && Closed(links, s) && path[0] in s
    ensures path[|path| - 1] in s
  {
    if |path| > 1 {
      assert Linked(links, path[0], path[1]);
      PathStaysInside(links, path[1..], s);
    }
  }

  // Inseparable is the same as joined by a path of links.
  lemma ConnectedIffPath(links: set<Link>, x: int, y: int)
    ensures Connected(links, x, y) <==> exists path :: Joins(links, path, x, y)
  {
    if path :| Joins(links, path, x, y) {
      forall s: set<int> | Closed(links, s) && x in s
        ensures y in s
      {
        PathStaysInside(links, path, s);
      }
    }
    if Connected(links, x, y) {
      var nodes := (set l | l in links :: l.0) + (set l | l in links :: l.1) + {x};
      var reached := set z | z in nodes && exists path :: Joins(links, path, x, z);
      assert Joins(links, [x], x, x);
      forall l | l in links
        ensures l.0 in reached <==> l.1 in reached
      {
        if l.0 in reached {
          ExtendPath(links, x, l.0, l.1);
        }
        if l.1 in reached {
          ExtendPath(links, x, l.1, l.0);
        }
      }
      assert Closed(links, reached);
    }
  }

  lemma ExtendPath(links: set<Link>, x: int, y: int, z: int)
    requires Linked(links, y, z) && exists path :: Joins(links, path, x, y)
    ensures exists path :: Joins(links, path, x, z)
  {
    var path :| Joins(links, path, x, y);
    assert Joins(links, path + [z], x, z);
  }

  // ------------------------------------------------- the parent pointers

  // `rep` names the root of every face; `height` falls along each pointer, so
  // climbing ends.
  ghost predicate Forest(parent: seq<int>, rep: seq<int>, height: seq<nat>) {
    && |rep| == |height| == |parent|
    && (forall x | 0 <= x < |parent| :: 0 <= parent[x] < |parent|)
    && (forall x | 0 <= x < |rep| :: 0 <= rep[x] < |rep|)
    && forall x | 0 <= x < |parent| :: Climbs(parent, rep, height, x)
  }

  ghost predicate Climbs(parent: seq<int>, rep: seq<int>, height: seq<nat>, x: int)
    requires |rep| == |height| == |parent| && 0 <= x < |parent|
    requires 0 <= parent[x] < |parent| && 0 <= rep[x] < |parent|
  {
    && rep[parent[x]] == rep[x] && rep[rep[x]] == rep[x]
    && (parent[x] == x <==> rep[x] == x)
    && (parent[x] != x ==> height[parent[x]] < height[x])
  }

  ghost predicate Represents(rep: seq<int>, links: set<Link>) {
    && (forall l | l in links :: 0 <= l.0 < |rep| && 0 <= l.1 < |rep|)
    && forall x, y | 0 <= x < |rep| && 0 <= y < |rep| :: rep[x] == rep[y] <==> Connected(links, x, y)
  }

  // What is known about a parent array: its roots, and the joins so far.
  datatype Partition = Partition(rep: seq<int>, height: seq<nat>, joins: set<Link>)

  ghost predicate Sound(parent: seq<int>, p: Partition) {
    Forest(parent, p.rep, p.height) && Represents(p.rep, p.joins)
  }

  method Root(parent: array<int>, face: int, ghost p: Partition) returns (n: int)
    requires Sound(parent[..], p) && 0 <= face < parent.Length
    modifies parent
    ensures Sound(parent[..], p) && n == p.rep[face]
  {
    hide Represents;
    n := face;
    while parent[n] != n
      invariant 0 <= n < parent.Length && Sound(parent[..], p) && p.rep[n] == p.rep[face]
      decreases p.height[n]
    {
      HalvingKeepsForest(parent[..], p, n);
      ghost var before := parent[..];
      parent[n] := parent[parent[n]];
      assert parent[..] == before[n := before[before[n]]];
      n := parent[n];
    }
    assert Climbs(parent[..], p.rep, p.height, n);
  }

  lemma HalvingKeepsForest(parent: seq<int>, p: Partition, n: int)
    requires Forest(parent, p.rep, p.height) && 0 <= n < |parent| && parent[n] != n
    ensures 0 <= parent[n] < |parent| && 0 <= parent[parent[n]] < |parent|
    ensures Forest(parent[n := parent[parent[n]]], p.rep, p.height)
    ensures p.rep[parent[parent[n]]] == p.rep[n] && p.height[parent[parent[n]]] < p.height[n]
  {
    var m := parent[n];
    var up := parent[n := parent[m]];
    assert Climbs(parent, p.rep, p.height, n) && Climbs(parent, p.rep, p.height, m);
    forall x | 0 <= x < |parent|
      ensures Climbs(up, p.rep, p.height, x)
    {
      assert Climbs(parent, p.rep, p.height, x);
    }
  }

  function Merged(rep: seq<int>, a: int, b: int): (r: seq<int>)
    requires 0 <= a < |rep| && 0 <= b < |rep|
    ensures |r| == |rep|
  {
    seq(|rep|, x requires 0 <= x < |rep| => if rep[x] == rep[b] then rep[a] else rep[x])
  }

  ghost function AfterJoin(p: Partition, a: int, b: int): Partition
    requires |p.rep| == |p.height| && 0 <= a < |p.rep| && 0 <= b < |p.rep|
    requires 0 <= p.rep[a] < |p.rep|
  {
    var lifted := seq(|p.rep|, x requires 0 <= x < |p.rep| =>
      if p.rep[x] == p.rep[b] && p.rep[a] != p.rep[b] then p.height[x] + 1 + p.height[p.rep[a]] else p.height[x]);
    Partition(Merged(p.rep, a, b), lifted, p.joins + {(a, b)})
  }

  method Join(parent: array<int>, a: int, b: int, ghost p: Partition)
    requires Sound(parent[..], p) && 0 <= a < parent.Length && 0 <= b < parent.Length
    modifies parent
    ensures Sound(parent[..], AfterJoin(p, a, b))
  {
    var rootA := Root(parent, a, p);
    var rootB := Root(parent, b, p);
    ghost var before := parent[..];
    parent[rootB] := rootA;
    assert parent[..] == before[rootB := rootA];
    JoinKeepsForest(before, p, a, b);
    JoinRepresents(p.rep, p.joins, a, b);
  }

  lemma JoinKeepsForest(parent: seq<int>, p: Partition, a: int, b: int)
    requires Forest(parent, p.rep, p.height) && 0 <= a < |parent| && 0 <= b < |parent|
    ensures var q := AfterJoin(p, a, b);
            Forest(parent[p.rep[b] := p.rep[a]], q.rep, q.height)
  {
    var q, ra, rb := AfterJoin(p, a, b), p.rep[a], p.rep[b];
    var joined := parent[rb := ra];
    assert Climbs(parent, p.rep, p.height, a) && Climbs(parent, p.rep, p.height, b);
    assert Climbs(parent, p.rep, p.height, ra) && Climbs(parent, p.rep, p.height, rb);
    forall x | 0 <= x < |parent|
      ensures Climbs(joined, q.rep, q.height, x)
    {
      assert Climbs(parent, p.rep, p.height, x);
    }
  }

  lemma JoinRepresents(rep: seq<int>, links: set<Link>, a: int, b: int)
    requires Represents(rep, links) && 0 <= a < |rep| && 0 <= b < |rep|
    ensures Represents(Merged(rep, a, b), links + {(a, b)})
  {
    var links', rep' := links + {(a, b)}, Merged(rep, a, b);
    forall x, y | 0 <= x < |rep| && 0 <= y < |rep|
      ensures rep'[x] == rep'[y] <==> Connected(links', x, y)
    {
      if Connected(links', x, y) {
        var block := set z | 0 <= z < |rep| && rep'[z] == rep'[x];
        forall l | l in links
          ensures rep[l.0] == rep[l.1]
        {
          LinkConnects(links, l);
        }
        assert Closed(links', block);
      }
      if rep'[x] == rep'[y] {
        forall s: set<int> | Closed(links', s) && x in s
          ensures y in s
        {
          assert (a, b) in links';
          assert Closed(links, s);
          BlocksInside(rep, links, s);
        }
      }
    }
  }

  lemma LinkConnects(links: set<Link>, l: Link)
    requires l in links
    ensures Connected(links, l.0, l.1)
  {
  }

  lemma BlocksInside(rep: seq<int>, links: set<Link>, s: set<int>)
    requires Represents(rep, links) && Closed(links, s)
    ensures forall x, y | 0 <= x < |rep| && 0 <= y < |rep| && rep[x] == rep[y] :: x in s <==> y in s
  {
  }

  // Links between faces that already share a root change nothing, so the
  // joins may be replaced by any larger set of such links.
  lemma RedundantLinks(rep: seq<int>, joins: set<Link>, links: set<Link>)
    requires Represents(rep, joins) && joins <= links
    requires forall l | l in links :: 0 <= l.0 < |rep| && 0 <= l.1 < |rep| && rep[l.0] == rep[l.1]
    ensures Represents(rep, links)
  {
    forall x, y | 0 <= x < |rep| && 0 <= y < |rep|
      ensures rep[x] == rep[y] <==> Connected(links, x, y)
    {
      if Connected(links, x, y) {
        var block := set z | 0 <= z < |rep| && rep[z] == rep[x];
        assert Closed(links, block);
      }
      if rep[x] == rep[y] {
        forall s: set<int> | Closed(links, s) && x in s
          ensures y in s
        {
          assert Closed(joins, s);
          BlocksInside(rep, joins, s);
        }
      }
    }
  }

  // At the start every face is alone.
  ghost function Alone(n: nat): Partition {
    Partition(seq(n, x => x), seq(n, x => 0), {})
  }

  lemma AloneIsSound(n: nat)
    ensures Sound(seq(n, x => x), Alone(n))
  {
    forall x, y | 0 <= x < n && 0 <= y < n
      ensures Connected({}, x, y) <==> x == y
    {
      if Connected({}, x, y) {
        assert Closed({}, {x});
      }
    }
  }

  ghost predicate Coarser(rep: seq<int>, rep': seq<int>) {
    |rep| == |rep'| &&
    forall x, y | 0 <= x < |rep| && 0 <= y < |rep| && rep[x] == rep[y] :: rep'[x] == rep'[y]
  }
}
