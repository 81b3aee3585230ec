/** Multi-hop paths composed of cross-database edges. The depth-first search with its set of
    seen edge sets returns one orientation of every simple undirected path, and only that. */
module TransitivePaths {
  import opened Common
  import opened CrossDb

  /** A path as it is reported. */
  datatype CrossPath = CrossPath(nodes: seq<string>, edges: seq<Edge>, confidence: real)

  /** A path while it is walked. */
  datatype Walk = Walk(nodes: seq<string>, edges: seq<Edge>)

  datatype Hop = Hop(neighbor: string, edge: Edge)

  function NodeKey(ep: Endpoint): string { ep.database + "." + ep.collection }

  // ------------------------------------------------------------- adjacency

  /** The dictionary of neighbours; `order` lists its keys as they were inserted. */
  datatype Adjacency = Adjacency(order: seq<string>, hops: map<string, seq<Hop>>) {
    ghost predicate Valid() {
      NoDup(order) && forall a :: a in order <==> a in hops
    }

    function Neighbors(a: string): seq<Hop> { if a in hops then hops[a] else [] }

    /** `adj.setdefault(a, []).append((b, e))` */
    function Append(a: string, h: Hop): Adjacency {
      if a in hops then this.(hops := hops[a := hops[a] + [h]])
      else Adjacency(order + [a], hops[a := [h]])
    }
  }

  predicate HopLe(a: Hop, b: Hop) {
    StringsLe([a.neighbor, a.edge.source.field, a.edge.target.field],
              [b.neighbor, b.edge.source.field, b.edge.target.field])
  }

  /** `e` connects `a` and `b`, in whichever direction it was recorded. */
  predicate Joins(e: Edge, a: string, b: string) {
    a != b && ((NodeKey(e.source) == a && NodeKey(e.target) == b) || (NodeKey(e.source) == b && NodeKey(e.target) == a))
  }

  /** The dictionary lists, at every node, exactly the edges that leave it. */
  ghost predicate Lists(es: seq<Edge>, adj: Adjacency) {
    && adj.Valid()
    && (forall a, h :: h in adj.Neighbors(a) <==> h.edge in es && Joins(h.edge, a, h.neighbor))
  }

  lemma AppendLists(adj: Adjacency, a: string, h: Hop)
    requires adj.Valid()
    ensures adj.Append(a, h).Valid()
    ensures forall b, g :: g in adj.Append(a, h).Neighbors(b) <==> g in adj.Neighbors(b) || (b == a && g == h)
  {
  }

  function Enter(adj: Adjacency, e: Edge): Adjacency {
    var a, b := NodeKey(e.source), NodeKey(e.target);
    if a == b then adj else adj.Append(a, Hop(b, e)).Append(b, Hop(a, e))
  }

  /** The dictionary as the edges are entered, one after the other. */
  function Entered(es: seq<Edge>): Adjacency {
    if es == [] then Adjacency([], map[]) else Enter(Entered(es[..|es| - 1]), Last(es))
  }

  function HopsSorted(adj: Adjacency): Adjacency {
    Adjacency(adj.order, map a | a in adj.hops :: Sort(HopLe, adj.hops[a]))
  }

  function AdjacencyOf(es: seq<Edge>): Adjacency { HopsSorted(Entered(es)) }

  lemma {:induction false} EnteredLists(es: seq<Edge>)
    ensures Lists(es, Entered(es))
  {
    if es != [] {
      var rest, e := es[..|es| - 1], Last(es);
      EnteredLists(rest);
      assert es == rest + [e];
      var adj, a, b := Entered(rest), NodeKey(e.source), NodeKey(e.target);
      if a != b {
        AppendLists(adj, a, Hop(b, e));
        AppendLists(adj.Append(a, Hop(b, e)), b, Hop(a, e));
      }
    }
  }

  lemma SortedNeighbors(adj: Adjacency, a: string)
    ensures HopsSorted(adj).Neighbors(a) == Sort(HopLe, adj.Neighbors(a))
    ensures forall h :: h in HopsSorted(adj).Neighbors(a) <==> h in adj.Neighbors(a)
  {
    SortKeeps(HopLe, adj.Neighbors(a));
  }

  lemma SortedLists(es: seq<Edge>, adj: Adjacency)
    requires Lists(es, adj)
    ensures Lists(es, HopsSorted(adj))
  {
    forall a, h ensures h in HopsSorted(adj).Neighbors(a) <==> h.edge in es && Joins(h.edge, a, h.neighbor) {
      SortedNeighbors(adj, a);
    }
  }

  lemma AdjacencyLists(es: seq<Edge>)
    ensures Lists(es, AdjacencyOf(es))
  {
    EnteredLists(es);
    SortedLists(es, Entered(es));
  }

  method BuildAdjacency(es: seq<Edge>) returns (adj: Adjacency)
    ensures adj == AdjacencyOf(es) && Lists(es, adj)
  {
    adj := Adjacency([], map[]);
    for i := 0 to |es|
      invariant adj == Entered(es[..i])
    {
      var e := es[i];
      var a, b := NodeKey(e.source), NodeKey(e.target);
      assert es[..i+1][..i] == es[..i];
      if a != b {
        adj := adj.Append(a, Hop(b, e)).Append(b, Hop(a, e));
      }
    }
    assert es[..|es|] == es;
    EnteredLists(es);
    adj := SortHops(adj);
    AdjacencyLists(es);
  }

  method SortHops(unsorted: Adjacency) returns (adj: Adjacency)
    requires unsorted.Valid()
    ensures adj == HopsSorted(unsorted)
  {
    adj := unsorted;
    for i := 0 to |adj.order|
      invariant adj.order == unsorted.order && adj.hops.Keys == unsorted.hops.Keys
      invariant forall a :: a in adj.hops ==>
        adj.hops[a] == if a in adj.order[..i] then Sort(HopLe, unsorted.hops[a]) else unsorted.hops[a]
    {
      var node := adj.order[i];
      assert adj.order[..i+1] == adj.order[..i] + [node];
      assert node !in adj.order[..i];
      adj := adj.(hops := adj.hops[node := Sort(HopLe, adj.hops[node])]);
    }
    assert adj.order[..|adj.order|] == adj.order;
  }

  // ------------------------------------------------------------ the search

  function Extend(w: Walk, h: Hop): Walk { Walk(w.nodes + [h.neighbor], w.edges + [h.edge]) }

  /** The walks the search visits from `w` on, in the order it visits them. */
  function Explore(adj: Adjacency, maxHops: int, w: Walk, visited: set<string>): seq<Walk>
    requires w.nodes != []
    decreases maxHops - |w.edges|, 1, 0
  {
    [w] + if |w.edges| >= maxHops then [] else ExploreHops(adj, maxHops, w, visited, adj.Neighbors(Last(w.nodes)))
  }

  function ExploreHops(adj: Adjacency, maxHops: int, w: Walk, visited: set<string>, hs: seq<Hop>): seq<Walk>
    requires w.nodes != [] && |w.edges| < maxHops
    decreases maxHops - |w.edges|, 0, |hs|
  {
    if hs == [] then []
    else
      (if hs[0].neighbor in visited then []
       else Explore(adj, maxHops, Extend(w, hs[0]), visited + {hs[0].neighbor}))
      + ExploreHops(adj, maxHops, w, visited, hs[1..])
  }

  function WalkKey(edges: seq<Edge>): set<PairKey> { set e | e in edges :: EdgeKey(e) }

  /** `min` over the confidences of the edges. */
  function Weakest(edges: seq<Edge>): (c: real)
    requires edges != []
    ensures forall e :: e in edges ==> c <= e.confidence
    ensures exists e :: e in edges && e.confidence == c
  {
    if |edges| == 1 then assert edges[0] in edges; edges[0].confidence
    else
      var rest := Weakest(edges[1..]);
      assert forall e :: e in edges <==> e == edges[0] || e in edges[1..];
      if edges[0].confidence <= rest then edges[0].confidence else rest
  }

  /** The `seen` set and the `results` list. */
  datatype Found = Found(seen: set<set<PairKey>>, results: seq<CrossPath>)

  function Record(f: Found, w: Walk): Found {
    if |w.edges| >= 2 && WalkKey(w.edges) !in f.seen
    then Found(f.seen + {WalkKey(w.edges)}, f.results + [CrossPath(w.nodes, w.edges, Weakest(w.edges))])
    else f
  }

  function RecordAll(f: Found, ws: seq<Walk>): Found
    decreases |ws|
  {
    if ws == [] then f else RecordAll(Record(f, ws[0]), ws[1..])
  }

  lemma {:induction false} RecordAppend(f: Found, a: seq<Walk>, b: seq<Walk>)
    ensures RecordAll(f, a + b) == RecordAll(RecordAll(f, a), b)
    decreases |a|
  {
    if a == [] {
      assert a + b == b;
    } else {
      RecordAppend(Record(f, a[0]), a[1..], b);
      assert (a + b)[1..] == a[1..] + b;
    }
  }

  lemma HopStep(f: Found, adj: Adjacency, maxHops: int, w: Walk, visited: set<string>, hs: seq<Hop>)
    requires w.nodes != [] && |w.edges| < maxHops && hs != []
    ensures RecordAll(f, ExploreHops(adj, maxHops, w, visited, hs)) ==
      RecordAll(if hs[0].neighbor in visited then f
                else RecordAll(f, Explore(adj, maxHops, Extend(w, hs[0]), visited + {hs[0].neighbor})),
                ExploreHops(adj, maxHops, w, visited, hs[1..]))
  {
    var rest := ExploreHops(adj, maxHops, w, visited, hs[1..]);
    if hs[0].neighbor in visited {
      assert [] + rest == rest;
    } else {
      RecordAppend(f, Explore(adj, maxHops, Extend(w, hs[0]), visited + {hs[0].neighbor}), rest);
    }
  }

  lemma WalkStep(f: Found, adj: Adjacency, maxHops: int, w: Walk, visited: set<string>)
    requires w.nodes != []
    ensures RecordAll(f, Explore(adj, maxHops, w, visited)) ==
      if |w.edges| >= maxHops then Record(f, w)
      else RecordAll(Record(f, w), ExploreHops(adj, maxHops, w, visited, adj.Neighbors(Last(w.nodes))))
  {
    if |w.edges| < maxHops {
      RecordAppend(f, [w], ExploreHops(adj, maxHops, w, visited, adj.Neighbors(Last(w.nodes))));
    }
  }

  function ExploreAll(adj: Adjacency, maxHops: int, starts: seq<string>): seq<Walk> {
    if starts == [] then []
    else Explore(adj, maxHops, Walk([starts[0]], []), {starts[0]}) + ExploreAll(adj, maxHops, starts[1..])
  }

  function Starts(adj: Adjacency): seq<string> { Sort(StringLe, adj.order) }

  predicate PathLe(p: CrossPath, q: CrossPath) {
    if p.nodes != q.nodes then StringsLe(p.nodes, q.nodes) else StringsLe(Evidence(p.edges), Evidence(q.edges))
  }

  function Evidence(es: seq<Edge>): seq<string> {
    seq(|es|, i requires 0 <= i < |es| => es[i].evidence)
  }

  function Composed(adj: Adjacency, maxHops: int): seq<CrossPath> {
    Sort(PathLe, RecordAll(Found({}, []), ExploreAll(adj, maxHops, Starts(adj))).results)
  }

  /** What `compose_transitive_paths` returns. */
  function PathsOf(es: seq<Edge>, maxHops: int): seq<CrossPath> { Composed(AdjacencyOf(es), maxHops) }

  /** The state the nested `dfs` closes over. */
  class PathSearch {
    const adj: Adjacency
    const maxHops: int
    var seen: set<set<PairKey>>
    var results: seq<CrossPath>

    constructor (adj: Adjacency, maxHops: int)
      ensures this.adj == adj && this.maxHops == maxHops && State() == Found({}, [])
    {
      this.adj, this.maxHops := adj, maxHops;
      seen, results := {}, [];
    }

    ghost function State(): Found
      reads this
    {
      Found(seen, results)
    }

    method Dfs(nodes: seq<string>, edges: seq<Edge>, visited: set<string>)
      requires nodes != []
      modifies this
      ensures State() == RecordAll(old(State()), Explore(adj, maxHops, Walk(nodes, edges), visited))
      decreases maxHops - |edges|
    {
      ghost var w, before := Walk(nodes, edges), State();
      if |edges| >= 2 {
        var key := WalkKey(edges);
        if key !in seen {
          seen := seen + {key};
          results := results + [CrossPath(nodes, edges, Weakest(edges))];
        }
      }
      assert State() == Record(before, w);
      WalkStep(before, adj, maxHops, w, visited);
      if |edges| >= maxHops {
        return;
      }
      var hs := adj.Neighbors(Last(nodes));
      ghost var total := RecordAll(State(), ExploreHops(adj, maxHops, w, visited, hs));
      assert hs[0..] == hs;
      for i := 0 to |hs|
        invariant RecordAll(State(), ExploreHops(adj, maxHops, w, visited, hs[i..])) == total
      {
        var h := hs[i];
        assert hs[i..][0] == h && hs[i..][1..] == hs[i+1..];
        HopStep(State(), adj, maxHops, w, visited, hs[i..]);
        if h.neighbor !in visited {
          Dfs(nodes + [h.neighbor], edges + [h.edge], visited + {h.neighbor});
        }
      }
      assert hs[|hs|..] == [];
    }
  }

  // ---------------------------------------------------------- simple paths

  /** A simple undirected path over the edges `es`: no node twice, consecutive nodes joined
      by the edge between them. */
  ghost predicate SimplePath(es: seq<Edge>, w: Walk) {
    && |w.nodes| == |w.edges| + 1
    && NoDup(w.nodes)
    && (forall i :: 0 <= i < |w.edges| ==> w.edges[i] in es && Joins(w.edges[i], w.nodes[i], w.nodes[i+1]))
  }

  ghost predicate Eligible(es: seq<Edge>, maxHops: int, w: Walk) {
    SimplePath(es, w) && 2 <= |w.edges| <= maxHops
  }

  lemma {:induction false} ExploreSound(es: seq<Edge>, adj: Adjacency, maxHops: int, w: Walk, visited: set<string>, x: Walk)
    requires Lists(es, adj) && SimplePath(es, w) && visited == Elements(w.nodes)
    requires x in Explore(adj, maxHops, w, visited)
    ensures SimplePath(es, x) && (|x.edges| <= maxHops || x == w) && x.nodes[0] == w.nodes[0]
    decreases maxHops - |w.edges|, 1, 0
  {
    if x != w {
      HopsSound(es, adj, maxHops, w, visited, adj.Neighbors(Last(w.nodes)), x);
    }
  }

  lemma {:induction false} HopsSound(es: seq<Edge>, adj: Adjacency, maxHops: int, w: Walk, visited: set<string>,
                                     hs: seq<Hop>, x: Walk)
    requires Lists(es, adj) && SimplePath(es, w) && visited == Elements(w.nodes) && |w.edges| < maxHops
    requires forall h :: h in hs ==> h in adj.Neighbors(Last(w.nodes))
    requires x in ExploreHops(adj, maxHops, w, visited, hs)
    ensures SimplePath(es, x) && |x.edges| <= maxHops && x.nodes[0] == w.nodes[0]
    decreases maxHops - |w.edges|, 0, |hs|
  {
    assert hs[0] in hs;
    if x in ExploreHops(adj, maxHops, w, visited, hs[1..]) {
      HopsSound(es, adj, maxHops, w, visited, hs[1..], x);
    } else {
      var h := hs[0];
      ExtendSimple(es, w, h);
      ExploreSound(es, adj, maxHops, Extend(w, h), visited + {h.neighbor}, x);
    }
  }

  lemma ExtendSimple(es: seq<Edge>, w: Walk, h: Hop)
    requires SimplePath(es, w) && h.neighbor !in w.nodes
    requires h.edge in es && Joins(h.edge, Last(w.nodes), h.neighbor)
    ensures SimplePath(es, Extend(w, h))
    ensures Elements(Extend(w, h).nodes) == Elements(w.nodes) + {h.neighbor}
  {
    var x := Extend(w, h);
    forall i | 0 <= i < |x.edges| ensures x.edges[i] in es && Joins(x.edges[i], x.nodes[i], x.nodes[i+1]) {
      if i == |w.edges| { assert x.nodes[i] == Last(w.nodes); }
    }
  }

  /** The first `n` edges of a path. */
  ghost function Prefix(w: Walk, n: nat): Walk
    requires n <= |w.edges| && |w.nodes| == |w.edges| + 1
  {
    Walk(w.nodes[..n+1], w.edges[..n])
  }

  lemma {:induction false} ExploreComplete(es: seq<Edge>, adj: Adjacency, maxHops: int, x: Walk, n: nat)
    requires Lists(es, adj) && SimplePath(es, x) && n <= |x.edges| <= maxHops
    ensures x in Explore(adj, maxHops, Prefix(x, n), Elements(x.nodes[..n+1]))
    decreases |x.edges| - n
  {
    var w := Prefix(x, n);
    if n == |x.edges| {
      assert w == x;
    } else {
      ExploreComplete(es, adj, maxHops, x, n + 1);
      var h := Hop(x.nodes[n+1], x.edges[n]);
      assert Extend(w, h) == Prefix(x, n + 1);
      assert Elements(x.nodes[..n+2]) == Elements(x.nodes[..n+1]) + {h.neighbor};
      assert Last(w.nodes) == x.nodes[n];
      assert h in adj.Neighbors(Last(w.nodes));
      HopExplored(adj, maxHops, w, Elements(w.nodes), adj.Neighbors(Last(w.nodes)), h, x);
    }
  }

  lemma {:induction false} HopExplored(adj: Adjacency, maxHops: int, w: Walk, visited: set<string>,
                                       hs: seq<Hop>, h: Hop, x: Walk)
    requires w.nodes != [] && |w.edges| < maxHops && h in hs && h.neighbor !in visited
    requires x in Explore(adj, maxHops, Extend(w, h), visited + {h.neighbor})
    ensures x in ExploreHops(adj, maxHops, w, visited, hs)
    decreases |hs|
  {
    if hs[0] != h {
      HopExplored(adj, maxHops, w, visited, hs[1..], h, x);
    }
  }

  /** From one start the search visits exactly the simple paths that begin there. */
  lemma ExploreExact(es: seq<Edge>, adj: Adjacency, maxHops: int, s: string, x: Walk)
    requires Lists(es, adj) && |x.edges| >= 2
    ensures x in Explore(adj, maxHops, Walk([s], []), {s})
       <==> Eligible(es, maxHops, x) && x.nodes[0] == s
  {
    var w := Walk([s], []);
    assert Elements([s]) == {s};
    if x in Explore(adj, maxHops, w, {s}) {
      ExploreSound(es, adj, maxHops, w, {s}, x);
    }
    if Eligible(es, maxHops, x) && x.nodes[0] == s {
      ExploreComplete(es, adj, maxHops, x, 0);
      assert Prefix(x, 0) == w;
      assert x.nodes[..1] == [s];
    }
  }

  // ------------------------------------------------------------- reversal

  function Reversed(w: Walk): Walk { Walk(Reverse(w.nodes), Reverse(w.edges)) }

  lemma ReverseSimple(es: seq<Edge>, w: Walk)
    requires SimplePath(es, w)
    ensures SimplePath(es, Reversed(w))
  {
    var r, n := Reversed(w), |w.edges|;
    forall i | 0 <= i < |r.edges| ensures r.edges[i] in es && Joins(r.edges[i], r.nodes[i], r.nodes[i+1]) {
      assert r.edges[i] == w.edges[n-1-i];
      assert r.nodes[i] == w.nodes[n-i] && r.nodes[i+1] == w.nodes[n-1-i];
    }
    forall i, j | 0 <= i < j < |r.nodes| ensures r.nodes[i] != r.nodes[j] {
      assert r.nodes[i] == w.nodes[n-i] && r.nodes[j] == w.nodes[n-j];
    }
  }

  lemma ReverseElements<T>(s: seq<T>)
    ensures forall x :: x in Reverse(s) <==> x in s
    ensures Reverse(Reverse(s)) == s
  {
    var r, n := Reverse(s), |s|;
    forall x ensures x in r <==> x in s {
      if x in r { var i :| 0 <= i < n && r[i] == x; assert s[n-1-i] == x; }
      if x in s { var i :| 0 <= i < n && s[i] == x; assert r[n-1-i] == x; }
    }
  }

  lemma ReversePath(es: seq<Edge>, w: Walk)
    requires SimplePath(es, w)
    ensures SimplePath(es, Reversed(w)) && WalkKey(Reversed(w).edges) == WalkKey(w.edges)
    ensures Reversed(w).nodes[0] == Last(w.nodes) && Last(Reversed(w).nodes) == w.nodes[0]
    ensures Reversed(Reversed(w)) == w
  {
    ReverseSimple(es, w);
    ReverseElements(w.edges);
    ReverseElements(w.nodes);
  }

  // ------------------------------------- a path is known by its edge keys

  /** The nodes an edge connects, from its key alone. */
  lemma KeyFixesNodes(e: Edge, f: Edge, a: string, b: string)
    requires EdgeKey(e) == EdgeKey(f) && Joins(e, a, b)
    ensures Joins(f, a, b)
  {
    assert e.source in EdgeKey(f) && e.target in EdgeKey(f);
    assert f.source in EdgeKey(e) && f.target in EdgeKey(e);
  }

  /** An edge of one path is, by its key, an edge of the other. */
  lemma Counterpart(es: seq<Edge>, p: Walk, q: Walk, i: nat) returns (j: nat)
    requires SimplePath(es, p) && SimplePath(es, q) && WalkKey(p.edges) == WalkKey(q.edges)
    requires i < |p.edges|
    ensures j < |q.edges| && EdgeKey(q.edges[j]) == EdgeKey(p.edges[i])
    ensures Joins(q.edges[j], p.nodes[i], p.nodes[i+1])
  {
    assert p.edges[i] in p.edges;
    assert EdgeKey(p.edges[i]) in WalkKey(q.edges);
    var f :| f in q.edges && EdgeKey(f) == EdgeKey(p.edges[i]);
    j :| 0 <= j < |q.edges| && q.edges[j] == f;
    KeyFixesNodes(p.edges[i], f, p.nodes[i], p.nodes[i+1]);
  }

  lemma SameJoin(e: Edge, a: string, b: string, c: string, d: string)
    requires Joins(e, a, b) && Joins(e, c, d)
    ensures (a == c && b == d) || (a == d && b == c)
  {
  }

  /** Two simple paths with the same start and the same edge keys have the same nodes, and
      edge by edge the same keys. */
  lemma {:induction false} SameStartSameNodes(es: seq<Edge>, p: Walk, q: Walk, i: nat)
    requires SimplePath(es, p) && SimplePath(es, q) && WalkKey(p.edges) == WalkKey(q.edges)
    requires p.nodes[0] == q.nodes[0]
    requires i <= |q.edges|
    ensures i <= |p.edges|
    ensures forall k :: 0 <= k <= i ==> p.nodes[k] == q.nodes[k]
    ensures forall k :: 0 <= k < i ==> EdgeKey(p.edges[k]) == EdgeKey(q.edges[k])
  {
    if i > 0 {
      SameStartSameNodes(es, p, q, i - 1);
      var j := Counterpart(es, q, p, i - 1);
      SameJoin(p.edges[j], p.nodes[j], p.nodes[j+1], q.nodes[i-1], q.nodes[i]);
      assert q.nodes[i-1] == p.nodes[i-1];
    }
  }

  /** An end of one path is an end of the other. */
  lemma EndIsEnd(es: seq<Edge>, p: Walk, q: Walk)
    requires SimplePath(es, p) && SimplePath(es, q) && WalkKey(p.edges) == WalkKey(q.edges) && p.edges != []
    ensures p.nodes[0] == q.nodes[0] || p.nodes[0] == Last(q.nodes)
  {
    var a := p.nodes[0];
    var j := Counterpart(es, p, q, 0);
    SameJoin(q.edges[j], q.nodes[j], q.nodes[j+1], a, p.nodes[1]);
    var v := if q.nodes[j] == a then j else j + 1;
    assert q.nodes[v] == a;
    if 0 < v < |q.nodes| - 1 {
      OnlyFirst(es, q, p, v - 1, a, q.nodes[v-1]);
      OnlyFirst(es, q, p, v, a, q.nodes[v+1]);
    }
  }

  /** Only the first edge of a path touches its first node. */
  lemma OnlyFirst(es: seq<Edge>, q: Walk, p: Walk, i: nat, a: string, b: string)
    requires SimplePath(es, p) && SimplePath(es, q) && WalkKey(p.edges) == WalkKey(q.edges)
    requires i < |q.edges| && p.edges != [] && a == p.nodes[0]
    requires Joins(q.edges[i], a, b)
    ensures b == p.nodes[1]
  {
    var k := Counterpart(es, q, p, i);
    SameJoin(q.edges[i], a, b, q.nodes[i], q.nodes[i+1]);
    SameJoin(p.edges[k], p.nodes[k], p.nodes[k+1], q.nodes[i], q.nodes[i+1]);
  }

  /** A simple path is determined by its set of edge keys up to reversal. */
  lemma KeysFixPath(es: seq<Edge>, p: Walk, q: Walk)
    requires SimplePath(es, p) && SimplePath(es, q) && WalkKey(p.edges) == WalkKey(q.edges) && p.edges != []
    ensures p.nodes == q.nodes || p.nodes == Reverse(q.nodes)
    ensures DistinctKeys(es) ==> p == q || p == Reversed(q)
  {
    EndIsEnd(es, p, q);
    if p.nodes[0] == q.nodes[0] {
      SamePath(es, p, q);
    } else {
      ReversePath(es, q);
      SamePath(es, p, Reversed(q));
    }
  }

  lemma SamePath(es: seq<Edge>, p: Walk, q: Walk)
    requires SimplePath(es, p) && SimplePath(es, q) && WalkKey(p.edges) == WalkKey(q.edges)
    requires p.nodes[0] == q.nodes[0]
    ensures p.nodes == q.nodes
    ensures DistinctKeys(es) ==> p == q
  {
    SameStartSameNodes(es, p, q, |q.edges|);
    SameStartSameNodes(es, q, p, |p.edges|);
    if DistinctKeys(es) {
      forall k | 0 <= k < |p.edges| ensures p.edges[k] == q.edges[k] {
        var i :| 0 <= i < |es| && es[i] == p.edges[k];
        var j :| 0 <= j < |es| && es[j] == q.edges[k];
        assert EdgeKey(es[i]) == EdgeKey(es[j]);
      }
    }
  }

  // ------------------------------------------------------ what is recorded

  function WalkOf(p: CrossPath): Walk { Walk(p.nodes, p.edges) }

  ghost function KeysOf(paths: seq<CrossPath>): set<set<PairKey>> { set p | p in paths :: WalkKey(p.edges) }

  /** A path as it may be recorded: simple, walked from its smaller end, with the confidence
      of its weakest edge. */
  ghost predicate GoodPath(es: seq<Edge>, maxHops: int, p: CrossPath) {
    && Eligible(es, maxHops, WalkOf(p))
    && p.confidence == Weakest(p.edges)
    && StringLe(p.nodes[0], Last(p.nodes)) && p.nodes[0] != Last(p.nodes)
  }

  /** The search's state: good paths with distinct keys, and `seen` is the set of these. */
  ghost predicate Good(es: seq<Edge>, maxHops: int, f: Found) {
    && f.seen == KeysOf(f.results)
    && (forall p :: p in f.results ==> GoodPath(es, maxHops, p))
    && (forall i, j :: 0 <= i < j < |f.results| ==> WalkKey(f.results[i].edges) != WalkKey(f.results[j].edges))
  }

  /** Every eligible path that starts in `done` has its keys among those seen. */
  ghost predicate Covers(es: seq<Edge>, maxHops: int, f: Found, done: set<string>) {
    forall w :: Eligible(es, maxHops, w) && w.nodes[0] in done ==> WalkKey(w.edges) in f.seen
  }

  lemma KeysOfAppend(paths: seq<CrossPath>, p: CrossPath)
    ensures KeysOf(paths + [p]) == KeysOf(paths) + {WalkKey(p.edges)}
  {
    assert forall q :: q in paths + [p] <==> q in paths || q == p;
  }

  /** A path not seen before starts at its smaller end: otherwise its reverse, which has the
      same keys, would have been walked from a smaller start. */
  lemma UnseenIsGood(es: seq<Edge>, maxHops: int, f: Found, done: set<string>, w: Walk)
    requires Covers(es, maxHops, f, done) && Eligible(es, maxHops, w)
    requires Last(w.nodes) in done || StringLe(w.nodes[0], Last(w.nodes))
    requires WalkKey(w.edges) !in f.seen
    ensures GoodPath(es, maxHops, CrossPath(w.nodes, w.edges, Weakest(w.edges)))
  {
    ReversePath(es, w);
    assert Eligible(es, maxHops, Reversed(w));
    assert WalkOf(CrossPath(w.nodes, w.edges, Weakest(w.edges))) == w;
  }

  lemma RecordOneGood(es: seq<Edge>, maxHops: int, f: Found, done: set<string>, w: Walk)
    requires Good(es, maxHops, f) && Covers(es, maxHops, f, done)
    requires Eligible(es, maxHops, w)
    requires Last(w.nodes) in done || StringLe(w.nodes[0], Last(w.nodes))
    ensures Good(es, maxHops, Record(f, w))
  {
    var k := WalkKey(w.edges);
    if k !in f.seen {
      UnseenIsGood(es, maxHops, f, done, w);
      AddPathGood(es, maxHops, f, CrossPath(w.nodes, w.edges, Weakest(w.edges)));
    }
  }

  lemma AddPathGood(es: seq<Edge>, maxHops: int, f: Found, p: CrossPath)
    requires Good(es, maxHops, f) && GoodPath(es, maxHops, p) && WalkKey(p.edges) !in f.seen
    ensures Good(es, maxHops, Found(f.seen + {WalkKey(p.edges)}, f.results + [p]))
  {
    KeysOfAppend(f.results, p);
    forall i | 0 <= i < |f.results| ensures WalkKey(f.results[i].edges) != WalkKey(p.edges) {
      assert f.results[i] in f.results;
      assert WalkKey(f.results[i].edges) in f.seen;
    }
  }

  /** Recording the walks of one start. */
  lemma {:induction false} RecordGood(es: seq<Edge>, maxHops: int, f: Found, done: set<string>, ws: seq<Walk>)
    requires Good(es, maxHops, f) && Covers(es, maxHops, f, done)
    requires forall w :: w in ws && |w.edges| >= 2 ==>
      Eligible(es, maxHops, w) && (Last(w.nodes) in done || StringLe(w.nodes[0], Last(w.nodes)))
    ensures Good(es, maxHops, RecordAll(f, ws))
    ensures f.seen <= RecordAll(f, ws).seen
    ensures forall w :: w in ws && |w.edges| >= 2 ==> WalkKey(w.edges) in RecordAll(f, ws).seen
    decreases |ws|
  {
    if ws != [] {
      var w, f1 := ws[0], Record(f, ws[0]);
      assert w in ws;
      if |w.edges| >= 2 {
        RecordOneGood(es, maxHops, f, done, w);
      }
      assert f.seen <= f1.seen;
      assert forall x :: x in ws[1..] ==> x in ws;
      RecordGood(es, maxHops, f1, done, ws[1..]);
      assert forall x :: x in ws ==> x == w || x in ws[1..];
    }
  }

  /** Every eligible path starts and ends at a node of the dictionary. */
  lemma EndsListed(es: seq<Edge>, adj: Adjacency, w: Walk)
    requires Lists(es, adj) && SimplePath(es, w) && w.edges != []
    ensures w.nodes[0] in adj.order && Last(w.nodes) in adj.order
  {
    var n := |w.edges|;
    assert Hop(w.nodes[1], w.edges[0]) in adj.Neighbors(w.nodes[0]);
    assert Joins(w.edges[n-1], w.nodes[n], w.nodes[n-1]);
    assert Hop(w.nodes[n-1], w.edges[n-1]) in adj.Neighbors(w.nodes[n]);
  }

  /** The starts are in order, each once. */
  lemma StartsSorted(adj: Adjacency)
    ensures SortedBy(StringLe, Starts(adj))
    ensures forall a :: a in Starts(adj) <==> a in adj.order
  {
    StringOrder();
    SortSorted(StringLe, adj.order);
    SortKeeps(StringLe, adj.order);
  }

  lemma StartWalk(es: seq<Edge>, adj: Adjacency, maxHops: int, i: nat, w: Walk)
    requires Lists(es, adj) && i < |Starts(adj)| && |w.edges| >= 2
    requires w in Explore(adj, maxHops, Walk([Starts(adj)[i]], []), {Starts(adj)[i]})
    ensures Eligible(es, maxHops, w)
    ensures Last(w.nodes) in Elements(Starts(adj)[..i]) || StringLe(w.nodes[0], Last(w.nodes))
  {
    var starts := Starts(adj);
    StartsSorted(adj);
    ExploreExact(es, adj, maxHops, starts[i], w);
    EndsListed(es, adj, w);
    var j :| 0 <= j < |starts| && starts[j] == Last(w.nodes);
    if j < i {
      assert starts[..i][j] == Last(w.nodes);
    } else {
      StringLeTotal(starts[i], starts[i]);
    }
  }

  /** One start: its walks are recorded on top of what the smaller starts gave. */
  lemma StartGood(es: seq<Edge>, adj: Adjacency, maxHops: int, i: nat, f: Found) returns (ws: seq<Walk>)
    requires Lists(es, adj) && i < |Starts(adj)|
    requires Good(es, maxHops, f) && Covers(es, maxHops, f, Elements(Starts(adj)[..i]))
    ensures ws == Explore(adj, maxHops, Walk([Starts(adj)[i]], []), {Starts(adj)[i]})
    ensures Good(es, maxHops, RecordAll(f, ws))
    ensures Covers(es, maxHops, RecordAll(f, ws), Elements(Starts(adj)[..i+1]))
  {
    var s := Starts(adj)[i];
    ws := Explore(adj, maxHops, Walk([s], []), {s});
    var done := Elements(Starts(adj)[..i]);
    forall w | w in ws && |w.edges| >= 2
      ensures Eligible(es, maxHops, w) && (Last(w.nodes) in done || StringLe(w.nodes[0], Last(w.nodes)))
    {
      StartWalk(es, adj, maxHops, i, w);
    }
    RecordGood(es, maxHops, f, done, ws);
    CoversNext(es, adj, maxHops, i, f, ws);
  }

  lemma CoversNext(es: seq<Edge>, adj: Adjacency, maxHops: int, i: nat, f: Found, ws: seq<Walk>)
    requires Lists(es, adj) && i < |Starts(adj)|
    requires Covers(es, maxHops, f, Elements(Starts(adj)[..i]))
    requires ws == Explore(adj, maxHops, Walk([Starts(adj)[i]], []), {Starts(adj)[i]})
    requires f.seen <= RecordAll(f, ws).seen
    requires forall w :: w in ws && |w.edges| >= 2 ==> WalkKey(w.edges) in RecordAll(f, ws).seen
    ensures Covers(es, maxHops, RecordAll(f, ws), Elements(Starts(adj)[..i+1]))
  {
    var starts := Starts(adj);
    assert starts[..i+1] == starts[..i] + [starts[i]];
    forall w | Eligible(es, maxHops, w) && w.nodes[0] in Elements(starts[..i+1])
      ensures WalkKey(w.edges) in RecordAll(f, ws).seen
    {
      if w.nodes[0] !in Elements(starts[..i]) {
        ExploreExact(es, adj, maxHops, starts[i], w);
      }
    }
  }

  lemma {:induction false} AllGood(es: seq<Edge>, adj: Adjacency, maxHops: int, i: nat, f: Found)
    requires Lists(es, adj) && i <= |Starts(adj)|
    requires Good(es, maxHops, f) && Covers(es, maxHops, f, Elements(Starts(adj)[..i]))
    ensures var f' := RecordAll(f, ExploreAll(adj, maxHops, Starts(adj)[i..]));
      Good(es, maxHops, f') && Covers(es, maxHops, f', Elements(Starts(adj)))
    decreases |Starts(adj)| - i
  {
    var starts := Starts(adj);
    if i == |starts| {
      assert starts[..i] == starts && starts[i..] == [];
    } else {
      var ws := StartGood(es, adj, maxHops, i, f);
      AllGood(es, adj, maxHops, i + 1, RecordAll(f, ws));
      assert starts[i..][0] == starts[i] && starts[i..][1..] == starts[i+1..];
      RecordAppend(f, ws, ExploreAll(adj, maxHops, starts[i+1..]));
    }
  }

  // ------------------------------------------------------------- main results

  /** The search as a whole, before its results are sorted. */
  lemma SearchGood(es: seq<Edge>, adj: Adjacency, maxHops: int) returns (f: Found)
    requires Lists(es, adj)
    ensures Good(es, maxHops, f) && Covers(es, maxHops, f, Elements(Starts(adj)))
    ensures multiset(f.results) == multiset(Composed(adj, maxHops))
    ensures forall p :: p in f.results <==> p in Composed(adj, maxHops)
  {
    var f0 := Found({}, []);
    assert Starts(adj)[..0] == [] && Starts(adj)[0..] == Starts(adj);
    AllGood(es, adj, maxHops, 0, f0);
    f := RecordAll(f0, ExploreAll(adj, maxHops, Starts(adj)));
    SortKeeps(PathLe, f.results);
  }

  /** For any edges at all: what is returned are simple paths of 2 to `maxHops` edges, each
      from its smaller end to its larger, with the confidence of its weakest edge. */
  lemma ComposedSound(es: seq<Edge>, adj: Adjacency, maxHops: int, p: CrossPath)
    requires Lists(es, adj) && p in Composed(adj, maxHops)
    ensures GoodPath(es, maxHops, p)
  {
    var f := SearchGood(es, adj, maxHops);
  }

  /** No two returned paths have the same edge keys. */
  lemma ComposedDistinct(es: seq<Edge>, adj: Adjacency, maxHops: int, i: nat, j: nat)
    requires Lists(es, adj) && i < j < |Composed(adj, maxHops)|
    ensures WalkKey(Composed(adj, maxHops)[i].edges) != WalkKey(Composed(adj, maxHops)[j].edges)
  {
    var ps := Composed(adj, maxHops);
    var f := SearchGood(es, adj, maxHops);
    assert NoDup(f.results);
    NoDupMultiset(f.results, ps);
    assert ps[i] in f.results && ps[j] in f.results;
    var a :| 0 <= a < |f.results| && f.results[a] == ps[i];
    var b :| 0 <= b < |f.results| && f.results[b] == ps[j];
    assert a != b;
  }

  /** Every simple path of 2 to `maxHops` edges has the edge keys of a returned one. */
  lemma ComposedComplete(es: seq<Edge>, adj: Adjacency, maxHops: int, w: Walk) returns (p: CrossPath)
    requires Lists(es, adj) && Eligible(es, maxHops, w)
    ensures p in Composed(adj, maxHops) && WalkKey(p.edges) == WalkKey(w.edges)
  {
    var f := SearchGood(es, adj, maxHops);
    StartsSorted(adj);
    EndsListed(es, adj, w);
    assert WalkKey(w.edges) in KeysOf(f.results);
    p :| p in f.results && WalkKey(p.edges) == WalkKey(w.edges);
  }

  /** When the edges have distinct keys, a path is returned exactly when it is a simple path
      of 2 to `maxHops` edges walked from its smaller end: one orientation of each, once. */
  lemma ComposedIsEnumeration(es: seq<Edge>, adj: Adjacency, maxHops: int, p: CrossPath)
    requires Lists(es, adj) && DistinctKeys(es)
    ensures p in Composed(adj, maxHops) <==> GoodPath(es, maxHops, p)
    ensures NoDup(Composed(adj, maxHops))
  {
    forall i, j | 0 <= i < j < |Composed(adj, maxHops)| ensures Composed(adj, maxHops)[i] != Composed(adj, maxHops)[j] {
      ComposedDistinct(es, adj, maxHops, i, j);
    }
    if p in Composed(adj, maxHops) {
      ComposedSound(es, adj, maxHops, p);
    }
    if GoodPath(es, maxHops, p) {
      var w := WalkOf(p);
      var q := ComposedComplete(es, adj, maxHops, w);
      ComposedSound(es, adj, maxHops, q);
      KeysFixPath(es, WalkOf(q), w);
      if WalkOf(q) != w {
        ReversePath(es, w);
        StringLeTotal(p.nodes[0], Last(p.nodes));
      }
    }
  }

  /** Of the two ways to walk a simple path exactly one is returned. */
  lemma OneOrientation(es: seq<Edge>, adj: Adjacency, maxHops: int, w: Walk)
    requires Lists(es, adj) && DistinctKeys(es) && Eligible(es, maxHops, w)
    ensures var forth := CrossPath(w.nodes, w.edges, Weakest(w.edges));
            var back := CrossPath(Reverse(w.nodes), Reverse(w.edges), Weakest(w.edges));
            (forth in Composed(adj, maxHops)) != (back in Composed(adj, maxHops))
  {
    ReversePath(es, w);
    var r := Reversed(w);
    WeakestOfSame(w.edges);
    var forth := CrossPath(w.nodes, w.edges, Weakest(w.edges));
    var back := CrossPath(r.nodes, r.edges, Weakest(w.edges));
    assert WalkOf(forth) == w && WalkOf(back) == r;
    ComposedIsEnumeration(es, adj, maxHops, forth);
    ComposedIsEnumeration(es, adj, maxHops, back);
    StringLeTotal(w.nodes[0], Last(w.nodes));
  }

  lemma WeakestAtMost(a: seq<Edge>, b: seq<Edge>)
    requires a != [] && b != [] && forall e :: e in b ==> e in a
    ensures Weakest(a) <= Weakest(b)
  {
    var low := Weakest(b);
    var e :| e in b && e.confidence == low;
    assert e in a;
  }

  lemma WeakestOfSame(a: seq<Edge>)
    requires a != []
    ensures Weakest(a) == Weakest(Reverse(a))
  {
    ReverseElements(a);
    WeakestAtMost(a, Reverse(a));
    WeakestAtMost(Reverse(a), a);
  }

  /** The paths returned do not depend on the order of the edges given. */
  lemma OrderIrrelevant(es: seq<Edge>, adj: Adjacency, es': seq<Edge>, adj': Adjacency, maxHops: int)
    requires Lists(es, adj) && Lists(es', adj') && DistinctKeys(es) && multiset(es) == multiset(es')
    ensures multiset(Composed(adj, maxHops)) == multiset(Composed(adj', maxHops))
  {
    SameElements(es, es');
    KeysStayDistinct(es, es');
    var a, b := Composed(adj, maxHops), Composed(adj', maxHops);
    forall p ensures p in a <==> p in b {
      ComposedIsEnumeration(es, adj, maxHops, p);
      ComposedIsEnumeration(es', adj', maxHops, p);
      assert GoodPath(es, maxHops, p) <==> GoodPath(es', maxHops, p);
    }
    forall p ensures multiset(a)[p] == multiset(b)[p] {
      ComposedIsEnumeration(es, adj, maxHops, p);
      ComposedIsEnumeration(es', adj', maxHops, p);
      NoDupCounts(a, p);
      NoDupCounts(b, p);
      assert p in a <==> p in multiset(a);
      assert p in b <==> p in multiset(b);
    }
  }

  lemma KeysStayDistinct(es: seq<Edge>, es': seq<Edge>)
    requires DistinctKeys(es) && multiset(es) == multiset(es')
    ensures DistinctKeys(es')
  {
    SameElements(es, es');
    assert NoDup(es);
    NoDupMultiset(es, es');
    forall i, j | 0 <= i < j < |es'| ensures EdgeKey(es'[i]) != EdgeKey(es'[j]) {
      assert es'[i] in es && es'[j] in es;
      var a :| 0 <= a < |es| && es[a] == es'[i];
      var b :| 0 <= b < |es| && es[b] == es'[j];
      assert a != b;
    }
  }

  lemma PathOrder()
    ensures TotalOrder(PathLe)
  {
    forall p, q ensures PathLe(p, q) || PathLe(q, p) {
      StringsLeTotal(p.nodes, q.nodes);
      StringsLeTotal(Evidence(p.edges), Evidence(q.edges));
    }
    forall p, q, r | PathLe(p, q) && PathLe(q, r) ensures PathLe(p, r) {
      if p.nodes == q.nodes == r.nodes {
        StringsLeTransitive(Evidence(p.edges), Evidence(q.edges), Evidence(r.edges));
      } else if p.nodes != q.nodes && q.nodes != r.nodes {
        StringsLeTransitive(p.nodes, q.nodes, r.nodes);
        StringsLeTotal(p.nodes, q.nodes);
      }
    }
  }

  /** `compose_transitive_paths`: for any edges, the paths are good, sorted, distinct in
      their edge keys, and stand for every simple path of 2 to `maxHops` edges; when the
      edges have distinct keys they are all the good paths there are. */
  method Compose(es: seq<Edge>, maxHops: int) returns (paths: seq<CrossPath>)
    ensures paths == PathsOf(es, maxHops)
    ensures SortedBy(PathLe, paths)
    ensures forall p :: p in paths ==> GoodPath(es, maxHops, p)
    ensures forall i, j :: 0 <= i < j < |paths| ==> WalkKey(paths[i].edges) != WalkKey(paths[j].edges)
    ensures forall w :: Eligible(es, maxHops, w) ==> WalkKey(w.edges) in KeysOf(paths)
    ensures DistinctKeys(es) ==> forall p :: p in paths <==> GoodPath(es, maxHops, p)
  {
    var adj := BuildAdjacency(es);
    var search := new PathSearch(adj, maxHops);
    var starts := Sort(StringLe, adj.order);
    for i := 0 to |starts|
      invariant search.adj == adj && search.maxHops == maxHops
      invariant RecordAll(search.State(), ExploreAll(adj, maxHops, starts[i..]))
             == RecordAll(Found({}, []), ExploreAll(adj, maxHops, starts))
    {
      assert starts[i..][0] == starts[i] && starts[i..][1..] == starts[i+1..];
      RecordAppend(search.State(), Explore(adj, maxHops, Walk([starts[i]], []), {starts[i]}),
                   ExploreAll(adj, maxHops, starts[i+1..]));
      search.Dfs([starts[i]], [], {starts[i]});
    }
    paths := Sort(PathLe, search.results);
    assert paths == Composed(adj, maxHops);
    ComposedMeans(es, adj, maxHops);
  }

  lemma ComposedMeans(es: seq<Edge>, adj: Adjacency, maxHops: int)
    requires Lists(es, adj)
    ensures var paths := Composed(adj, maxHops);
      && SortedBy(PathLe, paths)
      && (forall p :: p in paths ==> GoodPath(es, maxHops, p))
      && (forall i, j :: 0 <= i < j < |paths| ==> WalkKey(paths[i].edges) != WalkKey(paths[j].edges))
      && (forall w :: Eligible(es, maxHops, w) ==> WalkKey(w.edges) in KeysOf(paths))
      && (DistinctKeys(es) ==> forall p :: p in paths <==> GoodPath(es, maxHops, p))
  {
    var paths := Composed(adj, maxHops);
    PathOrder();
    SortSorted(PathLe, RecordAll(Found({}, []), ExploreAll(adj, maxHops, Starts(adj))).results);
    forall p | p in paths ensures GoodPath(es, maxHops, p) { ComposedSound(es, adj, maxHops, p); }
    forall i, j | 0 <= i < j < |paths| ensures WalkKey(paths[i].edges) != WalkKey(paths[j].edges) {
      ComposedDistinct(es, adj, maxHops, i, j);
    }
    forall w | Eligible(es, maxHops, w) ensures WalkKey(w.edges) in KeysOf(paths) {
      var p := ComposedComplete(es, adj, maxHops, w);
    }
    if DistinctKeys(es) {
      forall p ensures p in paths <==> GoodPath(es, maxHops, p) { ComposedIsEnumeration(es, adj, maxHops, p); }
    }
  }

  /** Composing what the merge returns, as the resolver's callers do: no condition on the keys is
      left. Nodes are known by their joined names here; `PathNames` says when that is enough. */
  method MergeAndCompose(edgeLists: seq<seq<Edge>>, maxHops: int) returns (merged: seq<Edge>, paths: seq<CrossPath>)
    ensures IsMerge(Flatten(edgeLists), merged)
    ensures forall p :: p in paths <==> GoodPath(merged, maxHops, p)
  {
    merged := MergeEdges(edgeLists);
    MergeDistinct(Flatten(edgeLists), merged);
    paths := Compose(merged, maxHops);
  }
}
