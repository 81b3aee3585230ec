/** Nodes are (database, collection) pairs, but the search knows them by one joined name. When the
    paths found are the simple paths over pairs, exactly. */
module PathNames {
  import opened Common
  import opened CrossDb
  import opened TransitivePaths

  datatype Node = Node(database: string, collection: string)

  function NodeOf(ep: Endpoint): Node { Node(ep.database, ep.collection) }

  function NameOf(n: Node): string { n.database + "." + n.collection }

  /** The pairs the edges speak of. */
  ghost predicate Occurs(es: seq<Edge>, n: Node) { exists e :: e in es && (NodeOf(e.source) == n || NodeOf(e.target) == n) }

  /** No two pairs of the edges have the same name. */
  ghost predicate Unambiguous(es: seq<Edge>) {
    forall a, b :: Occurs(es, a) && Occurs(es, b) && NameOf(a) == NameOf(b) ==> a == b
  }

  predicate JoinsPairs(e: Edge, a: Node, b: Node) {
    a != b && ((NodeOf(e.source) == a && NodeOf(e.target) == b) || (NodeOf(e.source) == b && NodeOf(e.target) == a))
  }

  function Names(ns: seq<Node>): (names: seq<string>)
    ensures |names| == |ns| && forall i :: 0 <= i < |ns| ==> names[i] == NameOf(ns[i])
  {
    seq(|ns|, i requires 0 <= i < |ns| => NameOf(ns[i]))
  }

  /** A simple undirected path over pairs. */
  ghost predicate PairPath(es: seq<Edge>, ns: seq<Node>, edges: seq<Edge>) {
    && |ns| == |edges| + 1 && NoDup(ns)
    && (forall i :: 0 <= i < |edges| ==> edges[i] in es && JoinsPairs(edges[i], ns[i], ns[i + 1]))
  }

  // --------------------------------------------------------------- meetings

  /** The two edges are the edges of a path of two, over names and over pairs. */
  ghost predicate NameMeet(e: Edge, f: Edge) { exists a, b, c :: NamesMeetAt(e, f, a, b, c) }

  predicate NamesMeetAt(e: Edge, f: Edge, a: string, b: string, c: string) { a != c && Joins(e, a, b) && Joins(f, b, c) }

  ghost predicate PairMeet(e: Edge, f: Edge) { exists x, y, z :: PairsMeetAt(e, f, x, y, z) }

  predicate PairsMeetAt(e: Edge, f: Edge, x: Node, y: Node, z: Node) { x != z && JoinsPairs(e, x, y) && JoinsPairs(f, y, z) }

  /** Edges meet in the name exactly if they meet in the pair. */
  ghost predicate SameMeetings(es: seq<Edge>) {
    forall e, f :: e in es && f in es ==> (NameMeet(e, f) <==> PairMeet(e, f))
  }

  /** The endpoint of the edge with this name. */
  function At(e: Edge, name: string): Node { if NodeKey(e.source) == name then NodeOf(e.source) else NodeOf(e.target) }

  lemma AtJoins(e: Edge, a: string, b: string)
    requires Joins(e, a, b)
    ensures JoinsPairs(e, At(e, a), At(e, b)) && NameOf(At(e, a)) == a && NameOf(At(e, b)) == b
  {
  }

  lemma PairsHaveEnds(e: Edge, x: Node, y: Node)
    requires JoinsPairs(e, x, y)
    ensures {NameOf(x), NameOf(y)} == {NodeKey(e.source), NodeKey(e.target)}
  {
  }

  lemma NamesHaveEnds(e: Edge, a: string, b: string)
    requires Joins(e, a, b)
    ensures {a, b} == {NodeKey(e.source), NodeKey(e.target)}
  {
  }

  lemma SharedName(a: string, b: string, c: string, x: string, y: string, z: string)
    requires {a, b} == {x, y} && {b, c} == {y, z} && a != c && a != b && b != c
    ensures y == b
  {
    assert y in {a, b} && y in {b, c};
  }

  /** Where two edges meet in the name and in some pair, they have the same pair under that name. */
  lemma MeetingPair(e: Edge, f: Edge, a: string, b: string, c: string)
    requires NamesMeetAt(e, f, a, b, c) && PairMeet(e, f)
    ensures At(e, b) == At(f, b)
  {
    var x, y, z :| PairsMeetAt(e, f, x, y, z);
    PairsHaveEnds(e, x, y);
    PairsHaveEnds(f, y, z);
    NamesHaveEnds(e, a, b);
    NamesHaveEnds(f, b, c);
    SharedName(a, b, c, NameOf(x), NameOf(y), NameOf(z));
  }

  // -------------------------------------------------- from names to pairs

  /** The pairs along a walk, read off its edges. */
  function PairsOf(w: Walk): (ns: seq<Node>)
    requires |w.nodes| == |w.edges| + 1 && w.edges != []
    ensures |ns| == |w.nodes|
  {
    seq(|w.nodes|, i requires 0 <= i < |w.nodes| =>
      if i < |w.edges| then At(w.edges[i], w.nodes[i]) else At(w.edges[i - 1], w.nodes[i]))
  }

  lemma PairsNamed(es: seq<Edge>, w: Walk, i: nat)
    requires SimplePath(es, w) && w.edges != [] && i < |w.nodes|
    ensures NameOf(PairsOf(w)[i]) == w.nodes[i]
  {
    var k := if i < |w.edges| then i else i - 1;
    assert Joins(w.edges[k], w.nodes[k], w.nodes[k + 1]);
    AtJoins(w.edges[k], w.nodes[k], w.nodes[k + 1]);
  }

  lemma EdgeJoinsPairs(es: seq<Edge>, w: Walk, i: nat)
    requires SameMeetings(es) && SimplePath(es, w) && i < |w.edges|
    ensures JoinsPairs(w.edges[i], PairsOf(w)[i], PairsOf(w)[i + 1])
  {
    var e, a, b := w.edges[i], w.nodes[i], w.nodes[i + 1];
    assert e in es && Joins(e, a, b);
    AtJoins(e, a, b);
    if i + 1 < |w.edges| {
      var f, c := w.edges[i + 1], w.nodes[i + 2];
      assert f in es && Joins(f, b, c);
      assert NamesMeetAt(e, f, a, b, c);
      MeetingPair(e, f, a, b, c);
    }
  }

  lemma SimpleIsPairPath(es: seq<Edge>, w: Walk)
    requires SameMeetings(es) && SimplePath(es, w) && w.edges != []
    ensures PairPath(es, PairsOf(w), w.edges) && Names(PairsOf(w)) == w.nodes
  {
    var ns := PairsOf(w);
    forall i | 0 <= i < |ns| ensures NameOf(ns[i]) == w.nodes[i] { PairsNamed(es, w, i); }
    forall i | 0 <= i < |w.edges| ensures w.edges[i] in es && JoinsPairs(w.edges[i], ns[i], ns[i + 1]) {
      EdgeJoinsPairs(es, w, i);
    }
  }

  // -------------------------------------------------- from pairs to names

  lemma NeighboursMeet(es: seq<Edge>, ns: seq<Node>, edges: seq<Edge>, i: nat)
    requires SameMeetings(es) && PairPath(es, ns, edges) && i + 1 < |edges|
    ensures NameMeet(edges[i], edges[i + 1])
  {
    assert edges[i] in es && edges[i + 1] in es && JoinsPairs(edges[i], ns[i], ns[i + 1])
      && JoinsPairs(edges[i + 1], ns[i + 1], ns[i + 2]);
    assert PairsMeetAt(edges[i], edges[i + 1], ns[i], ns[i + 1], ns[i + 2]);
  }

  /** No edge of the path is a loop in its names. */
  lemma EdgeJoins(es: seq<Edge>, ns: seq<Node>, edges: seq<Edge>, i: nat)
    requires SameMeetings(es) && PairPath(es, ns, edges) && |edges| >= 2 && i < |edges|
    ensures Joins(edges[i], NameOf(ns[i]), NameOf(ns[i + 1]))
  {
    var k := if i + 1 < |edges| then i else i - 1;
    NeighboursMeet(es, ns, edges, k);
    var a, b, c :| NamesMeetAt(edges[k], edges[k + 1], a, b, c);
    assert JoinsPairs(edges[i], ns[i], ns[i + 1]);
    assert NodeKey(edges[i].source) != NodeKey(edges[i].target);
  }

  lemma NotBackAtOnce(es: seq<Edge>, ns: seq<Node>, edges: seq<Edge>, i: nat)
    requires SameMeetings(es) && PairPath(es, ns, edges) && i + 1 < |edges|
    ensures NameOf(ns[i]) != NameOf(ns[i + 2])
  {
    NeighboursMeet(es, ns, edges, i);
    var a, b, c :| NamesMeetAt(edges[i], edges[i + 1], a, b, c);
    assert JoinsPairs(edges[i], ns[i], ns[i + 1]) && JoinsPairs(edges[i + 1], ns[i + 1], ns[i + 2]);
    PairsHaveEnds(edges[i], ns[i], ns[i + 1]);
    PairsHaveEnds(edges[i + 1], ns[i + 1], ns[i + 2]);
    NamesHaveEnds(edges[i], a, b);
    NamesHaveEnds(edges[i + 1], b, c);
    assert a in {a, b} && a !in {b, c};
  }

  /** Two edges of a path that are no neighbours have no pair in common. */
  lemma DistantDoNotMeet(es: seq<Edge>, ns: seq<Node>, edges: seq<Edge>, i: nat, k: nat)
    requires PairPath(es, ns, edges) && i + 1 < k < |edges|
    ensures !PairMeet(edges[k], edges[i])
  {
    assert JoinsPairs(edges[i], ns[i], ns[i + 1]) && JoinsPairs(edges[k], ns[k], ns[k + 1]);
    forall x, y, z ensures !PairsMeetAt(edges[k], edges[i], x, y, z) {}
  }

  /** So they do not meet in the name either. */
  lemma EndsApart(es: seq<Edge>, ns: seq<Node>, edges: seq<Edge>, i: nat, k: nat)
    requires SameMeetings(es) && PairPath(es, ns, edges) && i + 1 < k < |edges| && NameOf(ns[k]) != NameOf(ns[i + 1])
    ensures NameOf(ns[i]) != NameOf(ns[k + 1])
  {
    EdgeJoins(es, ns, edges, i);
    EdgeJoins(es, ns, edges, k);
    DistantDoNotMeet(es, ns, edges, i, k);
    assert edges[k] in es && edges[i] in es;
    assert !NamesMeetAt(edges[k], edges[i], NameOf(ns[k]), NameOf(ns[i]), NameOf(ns[i + 1]));
  }

  /** The names along a path over pairs differ: the first two that did not would be the ends of
      edges that meet in the name only. */
  lemma {:induction false} NamesDiffer(es: seq<Edge>, ns: seq<Node>, edges: seq<Edge>, i: nat, j: nat)
    requires SameMeetings(es) && PairPath(es, ns, edges) && |edges| >= 2 && i < j < |ns|
    ensures NameOf(ns[i]) != NameOf(ns[j])
    decreases j - i
  {
    if j == i + 1 {
      EdgeJoins(es, ns, edges, i);
    } else if j == i + 2 {
      NotBackAtOnce(es, ns, edges, i);
    } else {
      NamesDiffer(es, ns, edges, i + 1, j - 1);
      EndsApart(es, ns, edges, i, j - 1);
    }
  }

  lemma PairPathIsSimple(es: seq<Edge>, ns: seq<Node>, edges: seq<Edge>)
    requires SameMeetings(es) && PairPath(es, ns, edges) && |edges| >= 2
    ensures SimplePath(es, Walk(Names(ns), edges))
  {
    forall i, j | 0 <= i < j < |ns| ensures NameOf(ns[i]) != NameOf(ns[j]) { NamesDiffer(es, ns, edges, i, j); }
    forall i | 0 <= i < |edges| ensures edges[i] in es && Joins(edges[i], Names(ns)[i], Names(ns)[i + 1]) {
      EdgeJoins(es, ns, edges, i);
    }
  }

  // -------------------------------------------------------- the exact condition

  /** A path over pairs as it is to be reported, under the names of its nodes. */
  ghost predicate GoodPairs(es: seq<Edge>, maxHops: int, ns: seq<Node>, p: CrossPath) {
    && PairPath(es, ns, p.edges) && p.nodes == Names(ns) && 2 <= |p.edges| <= maxHops
    && p.confidence == Weakest(p.edges)
    && StringLe(p.nodes[0], Last(p.nodes))
  }

  ghost predicate OverPairs(es: seq<Edge>, maxHops: int, p: CrossPath) { exists ns :: GoodPairs(es, maxHops, ns, p) }

  /** When edges meet alike, a path is good over names exactly if it is over pairs. */
  lemma GoodOverPairs(es: seq<Edge>, maxHops: int, p: CrossPath)
    requires SameMeetings(es)
    ensures GoodPath(es, maxHops, p) <==> OverPairs(es, maxHops, p)
  {
    if GoodPath(es, maxHops, p) {
      SimpleIsPairPath(es, WalkOf(p));
      assert GoodPairs(es, maxHops, PairsOf(WalkOf(p)), p);
    }
    if ns :| GoodPairs(es, maxHops, ns, p) {
      PairPathIsSimple(es, ns, p.edges);
      assert WalkOf(p) == Walk(Names(ns), p.edges);
      assert NoDup(p.nodes) && p.nodes[0] != Last(p.nodes);
    }
  }

  function TwoEdges(a: string, b: string, c: string, e: Edge, f: Edge): CrossPath {
    CrossPath([a, b, c], [e, f], Weakest([e, f]))
  }

  lemma NamesMeetIsGood(es: seq<Edge>, maxHops: int, e: Edge, f: Edge, a: string, b: string, c: string)
    requires e in es && f in es && NamesMeetAt(e, f, a, b, c) && StringLe(a, c) && maxHops >= 2
    ensures GoodPath(es, maxHops, TwoEdges(a, b, c, e, f))
  {
    var w := Walk([a, b, c], [e, f]);
    assert NoDup(w.nodes);
    assert WalkOf(TwoEdges(a, b, c, e, f)) == w;
  }

  lemma GoodPairsMeet(es: seq<Edge>, maxHops: int, e: Edge, f: Edge, p: CrossPath)
    requires OverPairs(es, maxHops, p) && p.edges == [e, f]
    ensures PairMeet(e, f) && PairMeet(f, e)
  {
    var ns :| GoodPairs(es, maxHops, ns, p);
    assert JoinsPairs(p.edges[0], ns[0], ns[1]) && JoinsPairs(p.edges[1], ns[1], ns[2]);
    assert PairsMeetAt(e, f, ns[0], ns[1], ns[2]) && PairsMeetAt(f, e, ns[2], ns[1], ns[0]);
  }

  lemma PairsMeetIsGood(es: seq<Edge>, maxHops: int, e: Edge, f: Edge, x: Node, y: Node, z: Node)
    requires e in es && f in es && PairsMeetAt(e, f, x, y, z) && StringLe(NameOf(x), NameOf(z)) && maxHops >= 2
    ensures OverPairs(es, maxHops, TwoEdges(NameOf(x), NameOf(y), NameOf(z), e, f))
  {
    var ns, edges := [x, y, z], [e, f];
    assert JoinsPairs(edges[0], ns[0], ns[1]) && JoinsPairs(edges[1], ns[1], ns[2]) && NoDup(ns);
    assert PairPath(es, ns, edges);
    assert Names(ns) == [NameOf(x), NameOf(y), NameOf(z)];
    assert GoodPairs(es, maxHops, ns, TwoEdges(NameOf(x), NameOf(y), NameOf(z), e, f));
  }

  lemma GoodNamesMeet(es: seq<Edge>, maxHops: int, e: Edge, f: Edge, p: CrossPath)
    requires GoodPath(es, maxHops, p) && p.edges == [e, f]
    ensures NameMeet(e, f) && NameMeet(f, e)
  {
    var ns := p.nodes;
    assert Joins(p.edges[0], ns[0], ns[1]) && Joins(p.edges[1], ns[1], ns[2]);
    assert NamesMeetAt(e, f, ns[0], ns[1], ns[2]) && NamesMeetAt(f, e, ns[2], ns[1], ns[0]);
  }

  /** Paths of two edges tell whether edges meet alike. */
  lemma PathsShowMeetings(es: seq<Edge>, maxHops: int, e: Edge, f: Edge)
    requires maxHops >= 2 && e in es && f in es
    requires forall p :: GoodPath(es, maxHops, p) <==> OverPairs(es, maxHops, p)
    ensures NameMeet(e, f) <==> PairMeet(e, f)
  {
    if a, b, c :| NamesMeetAt(e, f, a, b, c) {
      StringLeTotal(a, c);
      if StringLe(a, c) {
        NamesMeetIsGood(es, maxHops, e, f, a, b, c);
        GoodPairsMeet(es, maxHops, e, f, TwoEdges(a, b, c, e, f));
      } else {
        NamesMeetIsGood(es, maxHops, f, e, c, b, a);
        GoodPairsMeet(es, maxHops, f, e, TwoEdges(c, b, a, f, e));
      }
    }
    if x, y, z :| PairsMeetAt(e, f, x, y, z) {
      StringLeTotal(NameOf(x), NameOf(z));
      if StringLe(NameOf(x), NameOf(z)) {
        PairsMeetIsGood(es, maxHops, e, f, x, y, z);
        GoodNamesMeet(es, maxHops, e, f, TwoEdges(NameOf(x), NameOf(y), NameOf(z), e, f));
      } else {
        PairsMeetIsGood(es, maxHops, f, e, z, y, x);
        GoodNamesMeet(es, maxHops, f, e, TwoEdges(NameOf(z), NameOf(y), NameOf(x), f, e));
      }
    }
  }

  /** The paths returned are the simple paths over (database, collection) pairs, from their smaller
      end and each once, exactly when edges meet in the name where they meet in the pair and nowhere
      else, or no path of two edges was asked for. */
  lemma PathsOverPairsExactly(es: seq<Edge>, adj: Adjacency, maxHops: int)
    requires Lists(es, adj) && DistinctKeys(es)
    ensures (forall p :: p in Composed(adj, maxHops) <==> OverPairs(es, maxHops, p)) <==> maxHops < 2 || SameMeetings(es)
    ensures NoDup(Composed(adj, maxHops))
  {
    forall p ensures p in Composed(adj, maxHops) <==> GoodPath(es, maxHops, p) { ComposedIsEnumeration(es, adj, maxHops, p); }
    ComposedIsEnumeration(es, adj, maxHops, CrossPath([], [], 0.0));
    if SameMeetings(es) {
      forall p ensures GoodPath(es, maxHops, p) <==> OverPairs(es, maxHops, p) { GoodOverPairs(es, maxHops, p); }
    }
    if maxHops >= 2 && forall p :: GoodPath(es, maxHops, p) <==> OverPairs(es, maxHops, p) {
      forall e, f | e in es && f in es ensures NameMeet(e, f) <==> PairMeet(e, f) { PathsShowMeetings(es, maxHops, e, f); }
    }
  }

  /** The same of merged edges, which have distinct endpoint pairs anyhow. */
  method MergeAndComposePairs(edgeLists: seq<seq<Edge>>, maxHops: int) returns (merged: seq<Edge>, paths: seq<CrossPath>)
    ensures IsMerge(Flatten(edgeLists), merged)
    ensures (forall p :: p in paths <==> OverPairs(merged, maxHops, p)) <==> maxHops < 2 || SameMeetings(merged)
  {
    merged, paths := MergeAndCompose(edgeLists, maxHops);
    MergeDistinct(Flatten(edgeLists), merged);
    AdjacencyLists(merged);
    PathsOverPairsExactly(merged, AdjacencyOf(merged), maxHops);
    forall p ensures p in paths <==> p in Composed(AdjacencyOf(merged), maxHops) {
      ComposedIsEnumeration(merged, AdjacencyOf(merged), maxHops, p);
    }
  }

  // ------------------------------------------------------- telling names

  lemma EndsOccur(es: seq<Edge>, e: Edge)
    requires e in es
    ensures Occurs(es, NodeOf(e.source)) && Occurs(es, NodeOf(e.target))
  {
  }

  lemma UnambiguousMeet(es: seq<Edge>, e: Edge, f: Edge)
    requires Unambiguous(es) && e in es && f in es
    ensures NameMeet(e, f) <==> PairMeet(e, f)
  {
    EndsOccur(es, e);
    EndsOccur(es, f);
    if a, b, c :| NamesMeetAt(e, f, a, b, c) {
      AtJoins(e, a, b);
      AtJoins(f, b, c);
      assert PairsMeetAt(e, f, At(e, a), At(e, b), At(f, c));
    }
    if x, y, z :| PairsMeetAt(e, f, x, y, z) {
      assert NamesMeetAt(e, f, NameOf(x), NameOf(y), NameOf(z));
    }
  }

  /** When no two pairs share a name, edges meet alike: then exactly the simple paths over pairs are
      returned, whatever the bound. */
  lemma PathsOverPairs(es: seq<Edge>, adj: Adjacency, maxHops: int, p: CrossPath)
    requires Lists(es, adj) && DistinctKeys(es) && Unambiguous(es)
    ensures p in Composed(adj, maxHops) <==> OverPairs(es, maxHops, p)
  {
    forall e, f | e in es && f in es ensures NameMeet(e, f) <==> PairMeet(e, f) { UnambiguousMeet(es, e, f); }
    PathsOverPairsExactly(es, adj, maxHops);
  }

  // ------------------------------------------------------ when they do not

  lemma HeadOf(a: string, b: string)
    ensures (a + "." + b)[0] == if a == [] then '.' else a[0]
    ensures (a + "." + b)[1..] == if a == [] then b else a[1..] + "." + b
  {
  }

  lemma {:induction false} DotSplits(a: string, b: string, x: string, y: string)
    requires '.' !in a && '.' !in x && a + "." + b == x + "." + y
    ensures a == x && b == y
  {
    HeadOf(a, b);
    HeadOf(x, y);
    if a != [] && x != [] {
      DotSplits(a[1..], b, x[1..], y);
      assert a == [a[0]] + a[1..] && x == [x[0]] + x[1..];
    }
  }

  /** Names are unambiguous if no database has a dot in its name. */
  lemma UndottedUnambiguous(es: seq<Edge>)
    requires forall e :: e in es ==> '.' !in e.source.database && '.' !in e.target.database
    ensures Unambiguous(es)
  {
    forall a, b | Occurs(es, a) && Occurs(es, b) && NameOf(a) == NameOf(b) ensures a == b {
      DotSplits(a.database, a.collection, b.database, b.collection);
    }
  }

  lemma MeetInPair(es: seq<Edge>, ns: seq<Node>, first: Edge, second: Edge)
    requires PairPath(es, ns, [first, second])
    ensures NodeOf(first.source) in {NodeOf(second.source), NodeOf(second.target)}
         || NodeOf(first.target) in {NodeOf(second.source), NodeOf(second.target)}
  {
    var edges := [first, second];
    assert JoinsPairs(edges[0], ns[0], ns[1]) && JoinsPairs(edges[1], ns[1], ns[2]);
  }

  /** Two edges that meet in the name only: one ends in collection "c" of database "a.b", the other
      starts in collection "b.c" of database "a". They are reported as one path, though no path
      over pairs has these edges. */
  lemma FalseJoin(first: Edge, second: Edge, adj: Adjacency)
    requires NodeOf(first.target) == Node("a.b", "c") && NodeOf(second.source) == Node("a", "b.c")
    requires NodeOf(first.source) == Node("x", "x") && NodeOf(second.target) == Node("y", "y")
    requires Lists([first, second], adj)
    ensures var p := CrossPath(["x.x", "a.b.c", "y.y"], [first, second], Weakest([first, second]));
      p in Composed(adj, 2) && forall ns: seq<Node> :: !PairPath([first, second], ns, p.edges)
  {
    var es := [first, second];
    var w := Walk(["x.x", "a.b.c", "y.y"], es);
    assert "a.b" + "." + "c" == "a.b.c" && "a" + "." + "b.c" == "a.b.c" && "x" + "." + "x" == "x.x" && "y" + "." + "y" == "y.y";
    assert Joins(es[0], w.nodes[0], w.nodes[1]) && Joins(es[1], w.nodes[1], w.nodes[2]);
    assert EdgeKey(first) != EdgeKey(second) by {
      assert NodeOf(first.source).database == "x";
      assert first.source in EdgeKey(first);
    }
    var p := CrossPath(w.nodes, es, Weakest(es));
    assert StringLe("x.x", "y.y");
    ComposedIsEnumeration(es, adj, 2, p);
    forall ns: seq<Node> ensures !PairPath(es, ns, es) {
      if PairPath(es, ns, es) { MeetInPair(es, ns, first, second); }
    }
  }
}
