/** In which order paths are listed that the sort cannot tell apart, and when the order of the
    input edges decides it. */
module PathOrder {
  import opened Common
  import opened CrossDb
  import opened TransitivePaths

  // ----------------------------------------------------------------- before

  ghost predicate Precedes<T>(s: seq<T>, x: T, y: T) { exists i, j :: 0 <= i < j < |s| && s[i] == x && s[j] == y }

  lemma PrecedesInside<T>(a: seq<T>, s: seq<T>, b: seq<T>, x: T, y: T)
    requires Precedes(s, x, y)
    ensures Precedes(a + s + b, x, y)
  {
    var i, j :| 0 <= i < j < |s| && s[i] == x && s[j] == y;
    var all := a + s + b;
    assert all[|a| + i] == x && all[|a| + j] == y;
  }

  lemma PrecedesAcross<T>(a: seq<T>, b: seq<T>, x: T, y: T)
    requires x in a && y in b
    ensures Precedes(a + b, x, y)
  {
    var i :| 0 <= i < |a| && a[i] == x;
    var j :| 0 <= j < |b| && b[j] == y;
    assert (a + b)[i] == x && (a + b)[|a| + j] == y;
  }

  lemma PrecedesCons<T>(s: seq<T>, x: T, y: T)
    requires s != []
    ensures Precedes(s, x, y) <==> (s[0] == x && y in s[1..]) || Precedes(s[1..], x, y)
  {
    assert s == [s[0]] + s[1..];
    if s[0] == x && y in s[1..] { PrecedesAcross([s[0]], s[1..], x, y); }
    if Precedes(s[1..], x, y) {
      PrecedesInside([s[0]], s[1..], [], x, y);
      assert [s[0]] + s[1..] + [] == s;
    }
    if Precedes(s, x, y) {
      var i, j :| 0 <= i < j < |s| && s[i] == x && s[j] == y;
      assert s[1..][j - 1] == y;
      if i > 0 { assert s[1..][i - 1] == x; }
    }
  }

  lemma PrecedesSnoc<T>(s: seq<T>, x: T, y: T)
    requires s != [] && Precedes(s, x, y)
    ensures var init := s[..|s| - 1]; (x in init && Last(s) == y) || Precedes(init, x, y)
  {
    var init := s[..|s| - 1];
    var i, j :| 0 <= i < j < |s| && s[i] == x && s[j] == y;
    assert init[i] == x;
    if j < |init| { assert init[j] == y; }
  }

  lemma NotBothWays<T>(s: seq<T>, x: T, y: T)
    requires NoDup(s) && Precedes(s, x, y)
    ensures x != y && !Precedes(s, y, x) && x in s && y in s
  {
  }

  // ------------------------------------------------------------ stable sort

  lemma {:induction false} InsertPrecedes<T>(le: (T, T) -> bool, z: T, s: seq<T>, x: T, y: T)
    requires Precedes(s, x, y)
    ensures Precedes(Insert(le, z, s), x, y)
  {
    if le(z, s[0]) {
      PrecedesInside([z], s, [], x, y);
      assert [z] + s + [] == [z] + s;
    } else {
      PrecedesCons(s, x, y);
      var r := [s[0]] + Insert(le, z, s[1..]);
      assert r[1..] == Insert(le, z, s[1..]);
      PrecedesCons(r, x, y);
      InsertKeeps(le, z, s[1..]);
      SameElements(Insert(le, z, s[1..]), s[1..] + [z]);
      if Precedes(s[1..], x, y) { InsertPrecedes(le, z, s[1..], x, y); }
    }
  }

  lemma {:induction false} InsertedBefore<T>(le: (T, T) -> bool, x: T, s: seq<T>, y: T)
    requires y in s && le(x, y)
    ensures Precedes(Insert(le, x, s), x, y)
  {
    if le(x, s[0]) {
      PrecedesAcross([x], s, x, y);
    } else {
      assert s == [s[0]] + s[1..];
      InsertedBefore(le, x, s[1..], y);
      var r := [s[0]] + Insert(le, x, s[1..]);
      assert r[1..] == Insert(le, x, s[1..]);
      PrecedesCons(r, x, y);
    }
  }

  /** The sort keeps the order of what need not be exchanged. */
  lemma {:induction false} SortStable<T>(le: (T, T) -> bool, s: seq<T>, x: T, y: T)
    requires Precedes(s, x, y) && le(x, y)
    ensures Precedes(Sort(le, s), x, y)
  {
    PrecedesCons(s, x, y);
    if Precedes(s[1..], x, y) {
      SortStable(le, s[1..], x, y);
      InsertPrecedes(le, s[0], Sort(le, s[1..]), x, y);
    } else {
      SortKeeps(le, s[1..]);
      InsertedBefore(le, x, Sort(le, s[1..]), y);
    }
  }

  lemma SortStrict<T(!new)>(le: (T, T) -> bool, s: seq<T>, x: T, y: T)
    requires TotalOrder(le) && x in s && y in s && !le(y, x)
    ensures Precedes(Sort(le, s), x, y)
  {
    SortKeeps(le, s);
    SortSorted(le, s);
    var r := Sort(le, s);
    var i :| 0 <= i < |r| && r[i] == x;
    var j :| 0 <= j < |r| && r[j] == y;
    assert le(x, x) && i != j;
  }

  /** The lists agree on the order of what sorts alike. */
  ghost predicate Agree<T(!new)>(le: (T, T) -> bool, a: seq<T>, b: seq<T>) {
    forall x, y :: x != y && le(x, y) && le(y, x) && Precedes(a, x, y) ==> Precedes(b, x, y)
  }

  lemma SameHead<T(!new)>(le: (T, T) -> bool, a: seq<T>, b: seq<T>)
    requires SortedBy(le, a) && SortedBy(le, b) && multiset(a) == multiset(b) && NoDup(b) && a != [] && Agree(le, a, b)
    ensures b != [] && a[0] == b[0]
  {
    SameElements(a, b);
    assert a[0] in b && b[0] in a;
  }

  lemma AgreeTail<T(!new)>(le: (T, T) -> bool, a: seq<T>, b: seq<T>)
    requires NoDup(a) && a != [] && b != [] && a[0] == b[0] && Agree(le, a, b)
    ensures Agree(le, a[1..], b[1..])
  {
    forall x, y | x != y && le(x, y) && le(y, x) && Precedes(a[1..], x, y) ensures Precedes(b[1..], x, y) {
      PrecedesCons(a, x, y);
      PrecedesCons(b, x, y);
    }
  }

  lemma TailsKeep<T>(le: (T, T) -> bool, a: seq<T>, b: seq<T>)
    requires SortedBy(le, a) && SortedBy(le, b) && NoDup(a) && NoDup(b)
    requires a != [] && b != [] && a[0] == b[0] && multiset(a) == multiset(b)
    ensures SortedBy(le, a[1..]) && SortedBy(le, b[1..]) && NoDup(a[1..]) && NoDup(b[1..]) && multiset(a[1..]) == multiset(b[1..])
  {
    TailKeeps(le, a);
    TailKeeps(le, b);
  }

  lemma TailKeeps<T>(le: (T, T) -> bool, a: seq<T>)
    requires SortedBy(le, a) && NoDup(a) && a != []
    ensures SortedBy(le, a[1..]) && NoDup(a[1..]) && multiset(a[1..]) == multiset(a) - multiset{a[0]}
  {
    assert a == [a[0]] + a[1..];
  }

  /** Two sorted lists of the same elements that agree on the order of what sorts alike. */
  lemma {:induction false} SortedSame<T(!new)>(le: (T, T) -> bool, a: seq<T>, b: seq<T>)
    requires SortedBy(le, a) && SortedBy(le, b) && multiset(a) == multiset(b) && NoDup(a) && NoDup(b) && Agree(le, a, b)
    ensures a == b
  {
    if a != [] {
      SameHead(le, a, b);
      AgreeTail(le, a, b);
      TailsKeep(le, a, b);
      SortedSame(le, a[1..], b[1..]);
      assert a == [a[0]] + a[1..] && b == [b[0]] + b[1..];
    } else {
      SameElements(a, b);
    }
  }

  // ------------------------------------------------------------- the hops

  function HopsOf(e: Edge, a: string): seq<Hop> {
    var s, t := NodeKey(e.source), NodeKey(e.target);
    if s == t then [] else if a == s then [Hop(t, e)] else if a == t then [Hop(s, e)] else []
  }

  /** What is listed at a node before sorting: its edges in the order of the input. */
  function HopsAt(es: seq<Edge>, a: string): seq<Hop> {
    if es == [] then [] else HopsAt(es[..|es| - 1], a) + HopsOf(Last(es), a)
  }

  lemma {:induction false} EnteredHops(es: seq<Edge>, a: string)
    ensures Entered(es).Neighbors(a) == HopsAt(es, a)
  {
    if es != [] { EnteredHops(es[..|es| - 1], a); }
  }

  lemma NeighborsAre(es: seq<Edge>, a: string)
    ensures AdjacencyOf(es).Neighbors(a) == Sort(HopLe, HopsAt(es, a))
  {
    EnteredHops(es, a);
    SortedNeighbors(Entered(es), a);
  }

  lemma {:induction false} HopsAtHave(es: seq<Edge>, a: string, h: Hop)
    ensures h in HopsAt(es, a) <==> h.edge in es && Joins(h.edge, a, h.neighbor)
  {
    if es != [] {
      HopsAtHave(es[..|es| - 1], a, h);
      assert es == es[..|es| - 1] + [Last(es)];
    }
  }

  lemma {:induction false} HopsInOrder(es: seq<Edge>, a: string, g: Hop, h: Hop)
    requires Precedes(es, g.edge, h.edge) && Joins(g.edge, a, g.neighbor) && Joins(h.edge, a, h.neighbor)
    ensures Precedes(HopsAt(es, a), g, h)
  {
    var rest, last := es[..|es| - 1], Last(es);
    var before, added := HopsAt(rest, a), HopsOf(last, a);
    PrecedesSnoc(es, g.edge, h.edge);
    assert HopsAt(es, a) == before + added;
    if Precedes(rest, g.edge, h.edge) {
      HopsInOrder(rest, a, g, h);
      PrecedesInside([], before, added, g, h);
      assert [] + before + added == before + added;
    } else {
      HopsAtHave(rest, a, g);
      assert h in added;
      PrecedesAcross(before, added, g, h);
    }
  }

  lemma HopOrder()
    ensures TotalOrder(HopLe)
  {
    forall a, b ensures HopLe(a, b) || HopLe(b, a) {
      StringsLeTotal([a.neighbor, a.edge.source.field, a.edge.target.field],
        [b.neighbor, b.edge.source.field, b.edge.target.field]);
    }
    forall a, b, c | HopLe(a, b) && HopLe(b, c) ensures HopLe(a, c) {
      StringsLeTransitive([a.neighbor, a.edge.source.field, a.edge.target.field],
                          [b.neighbor, b.edge.source.field, b.edge.target.field],
                          [c.neighbor, c.edge.source.field, c.edge.target.field]);
    }
  }

  /** Hops sort alike exactly if they lead to the same node by edges with the same two fields. */
  lemma HopTies(g: Hop, h: Hop)
    ensures HopLe(g, h) && HopLe(h, g) <==>
      g.neighbor == h.neighbor && g.edge.source.field == h.edge.source.field && g.edge.target.field == h.edge.target.field
  {
    var a := [g.neighbor, g.edge.source.field, g.edge.target.field];
    var b := [h.neighbor, h.edge.source.field, h.edge.target.field];
    StringsLeTotal(a, b);
    if a == b { assert a[0] == b[0] && a[1] == b[1] && a[2] == b[2]; }
  }

  // ------------------------------------------------------------ the search

  lemma {:induction false} SubtreeOrder(adj: Adjacency, maxHops: int, w: Walk, visited: set<string>, hs: seq<Hop>,
    g: Hop, h: Hop, x: Walk, y: Walk)
    requires w.nodes != [] && |w.edges| < maxHops && Precedes(hs, g, h) && g.neighbor !in visited && h.neighbor !in visited
    requires x in Explore(adj, maxHops, Extend(w, g), visited + {g.neighbor})
    requires y in Explore(adj, maxHops, Extend(w, h), visited + {h.neighbor})
    ensures Precedes(ExploreHops(adj, maxHops, w, visited, hs), x, y)
    decreases |hs|
  {
    PrecedesCons(hs, g, h);
    var first := if hs[0].neighbor in visited then [] else Explore(adj, maxHops, Extend(w, hs[0]), visited + {hs[0].neighbor});
    var rest := ExploreHops(adj, maxHops, w, visited, hs[1..]);
    assert ExploreHops(adj, maxHops, w, visited, hs) == first + rest;
    if Precedes(hs[1..], g, h) {
      SubtreeOrder(adj, maxHops, w, visited, hs[1..], g, h, x, y);
      PrecedesInside(first, rest, [], x, y);
      assert first + rest + [] == first + rest;
    } else {
      HopExplored(adj, maxHops, w, visited, hs[1..], h, y);
      PrecedesAcross(first, rest, x, y);
    }
  }

  lemma {:induction false} SubtreeInside(adj: Adjacency, maxHops: int, w: Walk, visited: set<string>, hs: seq<Hop>,
    h: Hop, x: Walk, y: Walk)
    requires w.nodes != [] && |w.edges| < maxHops && h in hs && h.neighbor !in visited
    requires Precedes(Explore(adj, maxHops, Extend(w, h), visited + {h.neighbor}), x, y)
    ensures Precedes(ExploreHops(adj, maxHops, w, visited, hs), x, y)
    decreases |hs|
  {
    var first := if hs[0].neighbor in visited then [] else Explore(adj, maxHops, Extend(w, hs[0]), visited + {hs[0].neighbor});
    var rest := ExploreHops(adj, maxHops, w, visited, hs[1..]);
    assert ExploreHops(adj, maxHops, w, visited, hs) == first + rest;
    if hs[0] == h {
      PrecedesInside([], first, rest, x, y);
      assert [] + first + rest == first + rest;
    } else {
      assert hs == [hs[0]] + hs[1..];
      SubtreeInside(adj, maxHops, w, visited, hs[1..], h, x, y);
      PrecedesInside(first, rest, [], x, y);
      assert first + rest + [] == first + rest;
    }
  }

  lemma ExploreInside(adj: Adjacency, maxHops: int, w: Walk, visited: set<string>, x: Walk, y: Walk)
    requires w.nodes != [] && |w.edges| < maxHops
    requires Precedes(ExploreHops(adj, maxHops, w, visited, adj.Neighbors(Last(w.nodes))), x, y)
    ensures Precedes(Explore(adj, maxHops, w, visited), x, y)
  {
    var hops := ExploreHops(adj, maxHops, w, visited, adj.Neighbors(Last(w.nodes)));
    PrecedesInside([w], hops, [], x, y);
    assert [w] + hops + [] == [w] + hops;
  }

  /** Two paths over the same nodes that part at edge `i`. */
  ghost predicate PartAt(p: Walk, q: Walk, i: nat) {
    && p.nodes == q.nodes && |p.edges| == |q.edges| && |p.nodes| == |p.edges| + 1 && i < |p.edges|
    && p.edges[..i] == q.edges[..i] && p.edges[i] != q.edges[i]
  }

  function HopAt(w: Walk, i: nat): Hop
    requires |w.nodes| == |w.edges| + 1 && i < |w.edges|
  {
    Hop(w.nodes[i + 1], w.edges[i])
  }

  lemma PathStep(es: seq<Edge>, adj: Adjacency, w: Walk, n: nat)
    requires Lists(es, adj) && SimplePath(es, w) && n < |w.edges|
    ensures HopAt(w, n) in adj.Neighbors(w.nodes[n]) && w.nodes[n + 1] !in Elements(w.nodes[..n + 1])
    ensures Extend(Prefix(w, n), HopAt(w, n)) == Prefix(w, n + 1) && Last(Prefix(w, n).nodes) == w.nodes[n]
    ensures Elements(w.nodes[..n + 2]) == Elements(w.nodes[..n + 1]) + {w.nodes[n + 1]}
  {
    assert w.nodes[..n + 2] == w.nodes[..n + 1] + [w.nodes[n + 1]] && w.edges[..n + 1] == w.edges[..n] + [w.edges[n]];
  }

  /** The path whose hop is listed first where they part is visited first. */
  lemma {:induction false} VisitedInOrder(es: seq<Edge>, adj: Adjacency, maxHops: int, p: Walk, q: Walk, i: nat, n: nat)
    requires Lists(es, adj) && SimplePath(es, p) && SimplePath(es, q) && PartAt(p, q, i) && |p.edges| <= maxHops && n <= i
    requires Precedes(adj.Neighbors(p.nodes[i]), HopAt(p, i), HopAt(q, i))
    ensures Precedes(Explore(adj, maxHops, Prefix(p, n), Elements(p.nodes[..n + 1])), p, q)
    decreases i - n
  {
    var visited := Elements(p.nodes[..n + 1]);
    PathStep(es, adj, p, n);
    var hs := adj.Neighbors(p.nodes[n]);
    if n == i {
      PathStep(es, adj, q, n);
      assert Prefix(p, n) == Prefix(q, n);
      ExploreComplete(es, adj, maxHops, p, n + 1);
      ExploreComplete(es, adj, maxHops, q, n + 1);
      SubtreeOrder(adj, maxHops, Prefix(p, n), visited, hs, HopAt(p, n), HopAt(q, n), p, q);
    } else {
      VisitedInOrder(es, adj, maxHops, p, q, i, n + 1);
      SubtreeInside(adj, maxHops, Prefix(p, n), visited, hs, HopAt(p, n), p, q);
    }
    ExploreInside(adj, maxHops, Prefix(p, n), visited, p, q);
  }

  lemma {:induction false} StartInside(adj: Adjacency, maxHops: int, starts: seq<string>, s: string, x: Walk, y: Walk)
    requires s in starts && Precedes(Explore(adj, maxHops, Walk([s], []), {s}), x, y)
    ensures Precedes(ExploreAll(adj, maxHops, starts), x, y)
  {
    var first, rest := Explore(adj, maxHops, Walk([starts[0]], []), {starts[0]}), ExploreAll(adj, maxHops, starts[1..]);
    if starts[0] == s {
      PrecedesInside([], first, rest, x, y);
      assert [] + first + rest == first + rest;
    } else {
      StartInside(adj, maxHops, starts[1..], s, x, y);
      PrecedesInside(first, rest, [], x, y);
      assert first + rest + [] == first + rest;
    }
  }

  lemma AllInOrder(es: seq<Edge>, adj: Adjacency, maxHops: int, p: Walk, q: Walk, i: nat)
    requires Lists(es, adj) && SimplePath(es, p) && SimplePath(es, q) && PartAt(p, q, i) && |p.edges| <= maxHops
    requires Precedes(adj.Neighbors(p.nodes[i]), HopAt(p, i), HopAt(q, i))
    ensures Precedes(ExploreAll(adj, maxHops, Starts(adj)), p, q)
  {
    VisitedInOrder(es, adj, maxHops, p, q, i, 0);
    assert Prefix(p, 0) == Walk([p.nodes[0]], []) && p.nodes[..1] == [p.nodes[0]];
    assert Elements(p.nodes[..1]) == {p.nodes[0]};
    EndsListed(es, adj, p);
    StartsSorted(adj);
    StartInside(adj, maxHops, Starts(adj), p.nodes[0], p, q);
  }

  // ------------------------------------------------------- no walk twice

  /** The walk goes on from `w`. */
  ghost predicate Continues(w: Walk, x: Walk) { w.nodes <= x.nodes && w.edges <= x.edges }

  lemma {:induction false} ExploreContinues(adj: Adjacency, maxHops: int, w: Walk, visited: set<string>, x: Walk)
    requires w.nodes != [] && x in Explore(adj, maxHops, w, visited)
    ensures Continues(w, x)
    decreases maxHops - |w.edges|, 1, 0
  {
    if x != w { var h := HopsContinue(adj, maxHops, w, visited, adj.Neighbors(Last(w.nodes)), x); }
  }

  lemma {:induction false} HopsContinue(adj: Adjacency, maxHops: int, w: Walk, visited: set<string>, hs: seq<Hop>,
    x: Walk) returns (h: Hop)
    requires w.nodes != [] && |w.edges| < maxHops && x in ExploreHops(adj, maxHops, w, visited, hs)
    ensures h in hs && Continues(Extend(w, h), x) && Continues(w, x)
    decreases maxHops - |w.edges|, 0, |hs|
  {
    h := hs[0];
    if h.neighbor !in visited && x in Explore(adj, maxHops, Extend(w, h), visited + {h.neighbor}) {
      ExploreContinues(adj, maxHops, Extend(w, h), visited + {h.neighbor}, x);
    } else {
      h := HopsContinue(adj, maxHops, w, visited, hs[1..], x);
    }
  }

  lemma AppendNoDup<T>(a: seq<T>, b: seq<T>)
    requires NoDup(a) && NoDup(b) && forall x :: x in a ==> x !in b
    ensures NoDup(a + b)
  {
    forall i, j | 0 <= i < j < |a + b| ensures (a + b)[i] != (a + b)[j] {
      assert i < |a| ==> a[i] in a;
    }
  }

  lemma {:induction false} ExploreNoDup(adj: Adjacency, maxHops: int, w: Walk, visited: set<string>)
    requires w.nodes != [] && forall a :: NoDup(adj.Neighbors(a))
    ensures NoDup(Explore(adj, maxHops, w, visited))
    decreases maxHops - |w.edges|, 1, 0
  {
    if |w.edges| < maxHops {
      var hs := adj.Neighbors(Last(w.nodes));
      HopsNoDup(adj, maxHops, w, visited, hs);
      forall x | x in ExploreHops(adj, maxHops, w, visited, hs) ensures x != w {
        var h := HopsContinue(adj, maxHops, w, visited, hs, x);
      }
      AppendNoDup([w], ExploreHops(adj, maxHops, w, visited, hs));
    }
  }

  lemma {:induction false} HopsNoDup(adj: Adjacency, maxHops: int, w: Walk, visited: set<string>, hs: seq<Hop>)
    requires w.nodes != [] && |w.edges| < maxHops && NoDup(hs) && forall a :: NoDup(adj.Neighbors(a))
    ensures NoDup(ExploreHops(adj, maxHops, w, visited, hs))
    decreases maxHops - |w.edges|, 0, |hs|
  {
    if hs != [] {
      var h := hs[0];
      HopsNoDup(adj, maxHops, w, visited, hs[1..]);
      if h.neighbor !in visited {
        var first := Explore(adj, maxHops, Extend(w, h), visited + {h.neighbor});
        ExploreNoDup(adj, maxHops, Extend(w, h), visited + {h.neighbor});
        forall x | x in first ensures x !in ExploreHops(adj, maxHops, w, visited, hs[1..]) {
          if x in ExploreHops(adj, maxHops, w, visited, hs[1..]) {
            ExploreContinues(adj, maxHops, Extend(w, h), visited + {h.neighbor}, x);
            var g := HopsContinue(adj, maxHops, w, visited, hs[1..], x);
            SameHop(w, h, g, x);
          }
        }
        AppendNoDup(first, ExploreHops(adj, maxHops, w, visited, hs[1..]));
      }
    }
  }

  lemma SameHop(w: Walk, g: Hop, h: Hop, x: Walk)
    requires Continues(Extend(w, g), x) && Continues(Extend(w, h), x)
    ensures g == h
  {
    assert x.nodes[|w.nodes|] == Extend(w, g).nodes[|w.nodes|] == Extend(w, h).nodes[|w.nodes|];
    assert x.edges[|w.edges|] == Extend(w, g).edges[|w.edges|] == Extend(w, h).edges[|w.edges|];
  }

  lemma {:induction false} AllNoDup(adj: Adjacency, maxHops: int, starts: seq<string>)
    requires NoDup(starts) && forall a :: NoDup(adj.Neighbors(a))
    ensures NoDup(ExploreAll(adj, maxHops, starts))
    ensures forall x :: x in ExploreAll(adj, maxHops, starts) ==> x.nodes != [] && x.nodes[0] in starts
  {
    if starts != [] {
      var s := starts[0];
      var first, rest := Explore(adj, maxHops, Walk([s], []), {s}), ExploreAll(adj, maxHops, starts[1..]);
      ExploreNoDup(adj, maxHops, Walk([s], []), {s});
      AllNoDup(adj, maxHops, starts[1..]);
      forall x | x in first ensures x.nodes != [] && x.nodes[0] == s { ExploreContinues(adj, maxHops, Walk([s], []), {s}, x); }
      AppendNoDup(first, rest);
    }
  }

  lemma {:induction false} HopsAtNoDup(es: seq<Edge>, a: string)
    requires NoDup(es)
    ensures NoDup(HopsAt(es, a))
  {
    if es != [] {
      var rest := es[..|es| - 1];
      HopsAtNoDup(rest, a);
      forall h | h in HopsAt(rest, a) ensures h !in HopsOf(Last(es), a) {
        HopsAtHave(rest, a, h);
        assert Last(es) !in rest;
      }
      AppendNoDup(HopsAt(rest, a), HopsOf(Last(es), a));
    }
  }

  lemma VisitedOnce(es: seq<Edge>, maxHops: int)
    requires DistinctKeys(es)
    ensures NoDup(ExploreAll(AdjacencyOf(es), maxHops, Starts(AdjacencyOf(es))))
  {
    var adj := AdjacencyOf(es);
    AdjacencyLists(es);
    assert NoDup(es);
    forall a ensures NoDup(adj.Neighbors(a)) {
      NeighborsAre(es, a);
      HopsAtNoDup(es, a);
      SortKeeps(HopLe, HopsAt(es, a));
      NoDupMultiset(HopsAt(es, a), adj.Neighbors(a));
    }
    SortKeeps(StringLe, adj.order);
    NoDupMultiset(adj.order, Starts(adj));
    AllNoDup(adj, maxHops, Starts(adj));
  }

  // --------------------------------------------------------- the recording

  function PathOf(w: Walk): CrossPath
    requires w.edges != []
  {
    CrossPath(w.nodes, w.edges, Weakest(w.edges))
  }

  /** The paths newly recorded while these walks are visited, in order. */
  function NewOnes(seen: set<set<PairKey>>, ws: seq<Walk>): seq<CrossPath>
    decreases |ws|
  {
    if ws == [] then []
    else if |ws[0].edges| >= 2 && WalkKey(ws[0].edges) !in seen
    then [PathOf(ws[0])] + NewOnes(seen + {WalkKey(ws[0].edges)}, ws[1..])
    else NewOnes(seen, ws[1..])
  }

  lemma {:induction false} RecordsNewOnes(f: Found, ws: seq<Walk>)
    ensures RecordAll(f, ws).results == f.results + NewOnes(f.seen, ws)
    decreases |ws|
  {
    if ws == [] {
      assert f.results + [] == f.results;
    } else {
      RecordsNewOnes(Record(f, ws[0]), ws[1..]);
      if |ws[0].edges| >= 2 && WalkKey(ws[0].edges) !in f.seen {
        Regroup(f.results, [PathOf(ws[0])], NewOnes(f.seen + {WalkKey(ws[0].edges)}, ws[1..]));
      }
    }
  }

  lemma {:induction false} NewOnesAreVisited(seen: set<set<PairKey>>, ws: seq<Walk>, p: CrossPath)
    requires p in NewOnes(seen, ws)
    ensures WalkOf(p) in ws
    decreases |ws|
  {
    var w := ws[0];
    if |w.edges| >= 2 && WalkKey(w.edges) !in seen {
      if p != PathOf(w) { NewOnesAreVisited(seen + {WalkKey(w.edges)}, ws[1..], p); }
    } else {
      NewOnesAreVisited(seen, ws[1..], p);
    }
  }

  /** Of two recorded paths the one visited first is recorded first. */
  lemma {:induction false} RecordedInOrder(seen: set<set<PairKey>>, ws: seq<Walk>, p: CrossPath, q: CrossPath)
    requires NoDup(ws) && p in NewOnes(seen, ws) && q in NewOnes(seen, ws) && Precedes(ws, WalkOf(p), WalkOf(q))
    ensures Precedes(NewOnes(seen, ws), p, q)
    decreases |ws|
  {
    var w := ws[0];
    assert ws == [w] + ws[1..];
    PrecedesCons(ws, WalkOf(p), WalkOf(q));
    NotBothWays(ws, WalkOf(p), WalkOf(q));
    var taken := |w.edges| >= 2 && WalkKey(w.edges) !in seen;
    var seen' := if taken then seen + {WalkKey(w.edges)} else seen;
    var rest := NewOnes(seen', ws[1..]);
    if WalkOf(p) == w {
      if p in rest { NewOnesAreVisited(seen', ws[1..], p); }
      PrecedesAcross([p], rest, p, q);
    } else {
      assert WalkOf(q) != w;
      RecordedInOrder(seen', ws[1..], p, q);
      PrecedesInside(if taken then [PathOf(w)] else [], rest, [], p, q);
      assert (if taken then [PathOf(w)] else []) + rest + [] == NewOnes(seen, ws);
    }
  }

  // ------------------------------------------------------------ the list

  lemma NewOnesAreResults(es: seq<Edge>, maxHops: int)
    ensures var adj := AdjacencyOf(es);
      PathsOf(es, maxHops) == Sort(PathLe, NewOnes({}, ExploreAll(adj, maxHops, Starts(adj))))
  {
    var ws := ExploreAll(AdjacencyOf(es), maxHops, Starts(AdjacencyOf(es)));
    RecordsNewOnes(Found({}, []), ws);
    assert [] + NewOnes({}, ws) == NewOnes({}, ws);
  }

  /** Of two listed paths over the same nodes, with the same evidence, the one comes first whose hop
      is listed first where they part. */
  lemma ListedInOrder(es: seq<Edge>, maxHops: int, p: CrossPath, q: CrossPath, i: nat)
    requires DistinctKeys(es) && GoodPath(es, maxHops, p) && GoodPath(es, maxHops, q)
    requires PartAt(WalkOf(p), WalkOf(q), i) && Evidence(p.edges) == Evidence(q.edges)
    requires Precedes(AdjacencyOf(es).Neighbors(p.nodes[i]), HopAt(WalkOf(p), i), HopAt(WalkOf(q), i))
    ensures Precedes(PathsOf(es, maxHops), p, q)
  {
    var adj := AdjacencyOf(es);
    var ws := ExploreAll(adj, maxHops, Starts(adj));
    AdjacencyLists(es);
    AllInOrder(es, adj, maxHops, WalkOf(p), WalkOf(q), i);
    VisitedOnce(es, maxHops);
    ComposedIsEnumeration(es, adj, maxHops, p);
    ComposedIsEnumeration(es, adj, maxHops, q);
    NewOnesAreResults(es, maxHops);
    SortKeeps(PathLe, NewOnes({}, ws));
    RecordedInOrder({}, ws, p, q);
    SelfLe(Evidence(p.edges));
    SortStable(PathLe, NewOnes({}, ws), p, q);
  }

  lemma SelfLe(s: seq<string>)
    ensures StringsLe(s, s)
  {
    StringsLeTotal(s, s);
  }

  /** Two paths sort alike exactly if they have the same nodes and the same evidence, edge by edge. */
  lemma SortsAlike(p: CrossPath, q: CrossPath)
    ensures PathLe(p, q) && PathLe(q, p) <==> p.nodes == q.nodes && Evidence(p.edges) == Evidence(q.edges)
  {
    StringsLeTotal(p.nodes, q.nodes);
    StringsLeTotal(Evidence(p.edges), Evidence(q.edges));
  }

  lemma {:induction false} FirstDifference(a: seq<Edge>, b: seq<Edge>) returns (i: nat)
    requires |a| == |b| && a != b
    ensures i < |a| && a[..i] == b[..i] && a[i] != b[i]
  {
    if a[0] != b[0] {
      i := 0;
    } else {
      assert a == [a[0]] + a[1..] && b == [b[0]] + b[1..];
      i := FirstDifference(a[1..], b[1..]);
      i := i + 1;
      assert a[..i] == [a[0]] + a[1..][..i - 1] && b[..i] == [b[0]] + b[1..][..i - 1];
    }
  }

  // ----------------------------------------------------------- the condition

  /** Edges the adjacency sort cannot tell apart and the result sort neither: between the same two
      nodes, with the same two fields (in opposite directions, then) and the same evidence. */
  predicate Twins(e: Edge, f: Edge) {
    && e != f
    && {NodeKey(e.source), NodeKey(e.target)} == {NodeKey(f.source), NodeKey(f.target)}
    && e.source.field == f.source.field && e.target.field == f.target.field && e.evidence == f.evidence
  }

  /** An edge of a good path has a twin among the edges. */
  ghost predicate Swappable(es: seq<Edge>, maxHops: int, p: CrossPath, i: nat, f: Edge) {
    GoodPath(es, maxHops, p) && i < |p.edges| && f in es && Twins(p.edges[i], f)
  }

  ghost predicate OrderSeen(es: seq<Edge>, maxHops: int) { exists p, i: nat, f :: Swappable(es, maxHops, p, i, f) }

  lemma TwinsJoin(e: Edge, f: Edge, a: string, b: string)
    requires {NodeKey(e.source), NodeKey(e.target)} == {NodeKey(f.source), NodeKey(f.target)} && Joins(e, a, b)
    ensures Joins(f, a, b)
  {
    assert NodeKey(e.source) in {NodeKey(f.source), NodeKey(f.target)}
      && NodeKey(e.target) in {NodeKey(f.source), NodeKey(f.target)};
  }

  lemma JoinsSame(e: Edge, f: Edge, a: string, b: string)
    requires Joins(e, a, b) && Joins(f, a, b)
    ensures {NodeKey(e.source), NodeKey(e.target)} == {a, b} == {NodeKey(f.source), NodeKey(f.target)}
  {
  }

  /** A strict order of two hops at a node is the same whatever the order of the edges. */
  lemma StrictHops(es: seq<Edge>, a: string, g: Hop, h: Hop)
    requires g.edge in es && Joins(g.edge, a, g.neighbor) && h.edge in es && Joins(h.edge, a, h.neighbor) && !HopLe(h, g)
    ensures Precedes(AdjacencyOf(es).Neighbors(a), g, h)
  {
    NeighborsAre(es, a);
    HopsAtHave(es, a, g);
    HopsAtHave(es, a, h);
    HopOrder();
    SortStrict(HopLe, HopsAt(es, a), g, h);
  }

  /** Two different good paths that sort alike are listed in the same order for every order of the
      edges, unless an edge of theirs has a twin. */
  lemma AlikeInOrder(es: seq<Edge>, other: seq<Edge>, maxHops: int, p: CrossPath, q: CrossPath)
    requires DistinctKeys(es) && DistinctKeys(other) && (forall e :: e in es <==> e in other) && !OrderSeen(es, maxHops)
    requires GoodPath(es, maxHops, p) && GoodPath(es, maxHops, q) && p != q && p.nodes == q.nodes
      && Evidence(p.edges) == Evidence(q.edges)
    ensures (Precedes(PathsOf(es, maxHops), p, q) && Precedes(PathsOf(other, maxHops), p, q))
         || (Precedes(PathsOf(es, maxHops), q, p) && Precedes(PathsOf(other, maxHops), q, p))
  {
    var i := FirstDifference(p.edges, q.edges);
    var a, g, h := p.nodes[i], HopAt(WalkOf(p), i), HopAt(WalkOf(q), i);
    assert Joins(g.edge, a, g.neighbor) && Joins(h.edge, a, h.neighbor) && g.edge in es && h.edge in es;
    JoinsSame(g.edge, h.edge, a, g.neighbor);
    assert Evidence(p.edges)[i] == Evidence(q.edges)[i];
    HopTies(g, h);
    assert !Swappable(es, maxHops, p, i, h.edge);
    HopOrder();
    GoodElsewhere(es, other, maxHops, p);
    GoodElsewhere(es, other, maxHops, q);
    if HopLe(g, h) {
      StrictHops(es, a, g, h);
      StrictHops(other, a, g, h);
      ListedInOrder(es, maxHops, p, q, i);
      ListedInOrder(other, maxHops, p, q, i);
    } else {
      StrictHops(es, a, h, g);
      StrictHops(other, a, h, g);
      ListedInOrder(es, maxHops, q, p, i);
      ListedInOrder(other, maxHops, q, p, i);
    }
  }

  lemma GoodElsewhere(es: seq<Edge>, other: seq<Edge>, maxHops: int, p: CrossPath)
    requires forall e :: e in es <==> e in other
    ensures GoodPath(es, maxHops, p) <==> GoodPath(other, maxHops, p)
  {
  }

  lemma ListFacts(es: seq<Edge>, maxHops: int)
    requires DistinctKeys(es)
    ensures NoDup(PathsOf(es, maxHops)) && SortedBy(PathLe, PathsOf(es, maxHops))
    ensures forall p :: p in PathsOf(es, maxHops) <==> GoodPath(es, maxHops, p)
  {
    AdjacencyLists(es);
    ComposedMeans(es, AdjacencyOf(es), maxHops);
    forall p ensures p in PathsOf(es, maxHops) <==> GoodPath(es, maxHops, p) {
      ComposedIsEnumeration(es, AdjacencyOf(es), maxHops, p);
    }
    ComposedIsEnumeration(es, AdjacencyOf(es), maxHops, CrossPath([], [], 0.0));
  }

  lemma SameListWithoutTwins(es: seq<Edge>, other: seq<Edge>, maxHops: int)
    requires DistinctKeys(es) && multiset(es) == multiset(other) && !OrderSeen(es, maxHops)
    ensures PathsOf(es, maxHops) == PathsOf(other, maxHops)
  {
    SameElements(es, other);
    KeysStayDistinct(es, other);
    AdjacencyLists(es);
    AdjacencyLists(other);
    ListFacts(es, maxHops);
    ListFacts(other, maxHops);
    var a, b := PathsOf(es, maxHops), PathsOf(other, maxHops);
    OrderIrrelevant(es, AdjacencyOf(es), other, AdjacencyOf(other), maxHops);
    forall p, q | p != q && PathLe(p, q) && PathLe(q, p) && Precedes(a, p, q) ensures Precedes(b, p, q) {
      NotBothWays(a, p, q);
      SortsAlike(p, q);
      AlikeInOrder(es, other, maxHops, p, q);
    }
    SortedSame(PathLe, a, b);
  }

  // ----------------------------------------------------- twins do show

  /** The path with the twin in the place of the edge. */
  lemma TwinPath(es: seq<Edge>, maxHops: int, p: CrossPath, i: nat, f: Edge) returns (q: CrossPath)
    requires Swappable(es, maxHops, p, i, f)
    ensures GoodPath(es, maxHops, q) && q.nodes == p.nodes && q.edges == p.edges[i := f]
    ensures PartAt(WalkOf(p), WalkOf(q), i) && Evidence(p.edges) == Evidence(q.edges)
  {
    var edges := p.edges[i := f];
    q := CrossPath(p.nodes, edges, Weakest(edges));
    assert Joins(p.edges[i], p.nodes[i], p.nodes[i + 1]);
    TwinsJoin(p.edges[i], f, p.nodes[i], p.nodes[i + 1]);
    assert p.edges[..i] == edges[..i];
  }

  /** Of two twins the path with the one given first is listed first. */
  lemma TwinsListed(es: seq<Edge>, maxHops: int, p: CrossPath, q: CrossPath, i: nat)
    requires DistinctKeys(es) && GoodPath(es, maxHops, p) && GoodPath(es, maxHops, q)
    requires PartAt(WalkOf(p), WalkOf(q), i) && Evidence(p.edges) == Evidence(q.edges)
    requires Twins(p.edges[i], q.edges[i]) && Precedes(es, p.edges[i], q.edges[i])
    ensures Precedes(PathsOf(es, maxHops), p, q)
  {
    var a, g, h := p.nodes[i], HopAt(WalkOf(p), i), HopAt(WalkOf(q), i);
    assert Joins(g.edge, a, g.neighbor) && Joins(h.edge, a, h.neighbor);
    HopsInOrder(es, a, g, h);
    NeighborsAre(es, a);
    HopTies(g, h);
    SortStable(HopLe, HopsAt(es, a), g, h);
    ListedInOrder(es, maxHops, p, q, i);
  }

  /** The edges with one of them moved to the front. */
  lemma ToFront(es: seq<Edge>, e: Edge, f: Edge) returns (other: seq<Edge>)
    requires e in es && f in es && e != f
    ensures multiset(other) == multiset(es) && Precedes(other, e, f)
  {
    var i :| 0 <= i < |es| && es[i] == e;
    var rest := es[..i] + es[i + 1..];
    assert es == es[..i] + [e] + es[i + 1..];
    other := [e] + rest;
    SameElements(es, other);
    assert f in rest;
    PrecedesAcross([e], rest, e, f);
  }

  /** The list of paths depends on the order of the edges exactly when an edge of a listed path has a
      twin: another edge between the same nodes, with the same fields and the same evidence. */
  lemma OrderSeenExactly(es: seq<Edge>, maxHops: int)
    requires DistinctKeys(es)
    ensures OrderSeen(es, maxHops)
      <==> exists other :: multiset(other) == multiset(es) && PathsOf(other, maxHops) != PathsOf(es, maxHops)
  {
    if p, i: nat, f :| Swappable(es, maxHops, p, i, f) {
      var other := TwinsShow(es, maxHops, p, i, f);
    } else {
      forall other | multiset(other) == multiset(es) ensures PathsOf(other, maxHops) == PathsOf(es, maxHops) {
        SameListWithoutTwins(es, other, maxHops);
      }
    }
  }

  lemma TwinsShow(es: seq<Edge>, maxHops: int, p: CrossPath, i: nat, f: Edge) returns (other: seq<Edge>)
    requires DistinctKeys(es) && Swappable(es, maxHops, p, i, f)
    ensures multiset(other) == multiset(es) && PathsOf(other, maxHops) != PathsOf(es, maxHops)
  {
    var q := TwinPath(es, maxHops, p, i, f);
    var e := p.edges[i];
    var one := ToFront(es, e, f);
    var two := ToFront(es, f, e);
    ListedAs(es, one, maxHops, p, q, i);
    ListedAs(es, two, maxHops, q, p, i);
    KeysStayDistinct(es, one);
    ListFacts(one, maxHops);
    NotBothWays(PathsOf(one, maxHops), p, q);
    other := if PathsOf(one, maxHops) != PathsOf(es, maxHops) then one else two;
  }

  lemma ListedAs(es: seq<Edge>, other: seq<Edge>, maxHops: int, p: CrossPath, q: CrossPath, i: nat)
    requires DistinctKeys(es) && multiset(other) == multiset(es)
    requires GoodPath(es, maxHops, p) && GoodPath(es, maxHops, q) && PartAt(WalkOf(p), WalkOf(q), i)
      && Evidence(p.edges) == Evidence(q.edges)
    requires Twins(p.edges[i], q.edges[i]) && Precedes(other, p.edges[i], q.edges[i])
    ensures Precedes(PathsOf(other, maxHops), p, q)
  {
    SameElements(es, other);
    KeysStayDistinct(es, other);
    GoodElsewhere(es, other, maxHops, p);
    GoodElsewhere(es, other, maxHops, q);
    TwinsListed(other, maxHops, p, q, i);
  }

  /** No two different listed paths with the same nodes and evidence: then no twin either. */
  lemma UntiedSameList(es: seq<Edge>, other: seq<Edge>, maxHops: int)
    requires DistinctKeys(es) && multiset(es) == multiset(other)
    requires forall p, q :: p in PathsOf(es, maxHops) && q in PathsOf(es, maxHops) ==>
      p.nodes == q.nodes && Evidence(p.edges) == Evidence(q.edges) ==> p == q
    ensures PathsOf(es, maxHops) == PathsOf(other, maxHops)
  {
    ListFacts(es, maxHops);
    forall p, i: nat, f ensures !Swappable(es, maxHops, p, i, f) {
      if Swappable(es, maxHops, p, i, f) { var q := TwinPath(es, maxHops, p, i, f); }
    }
    SameListWithoutTwins(es, other, maxHops);
  }
}
