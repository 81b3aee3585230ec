/** Edges between collections of different databases, and the merge that keeps the best
    edge of every unordered pair of endpoints. */
module CrossDb {
  import opened Common

  const ALIGNMENT := "identifier_alignment"

  datatype Endpoint = Endpoint(database: string, collection: string, field: string)

  /** Confidences are floats in the program and reals here. */
  datatype Edge = Edge(source: Endpoint, target: Endpoint, kind: string, confidence: real,
                       overlapRatio: Option<real>, evidence: string)

  /** An unordered pair of endpoints: the key by which edges are the same edge. */
  type PairKey = set<Endpoint>

  function EdgeKey(e: Edge): PairKey { {e.source, e.target} }

  function OrderKey(e: Edge): seq<string> {
    [e.source.database, e.source.collection, e.source.field, e.target.database, e.target.collection, e.target.field]
  }

  predicate EdgeLe(a: Edge, b: Edge) { StringsLe(OrderKey(a), OrderKey(b)) }

  ghost predicate DistinctKeys(es: seq<Edge>) {
    forall i, j :: 0 <= i < j < |es| ==> EdgeKey(es[i]) != EdgeKey(es[j])
  }

  ghost predicate StrictlySorted(es: seq<Edge>) {
    forall i, j :: 0 <= i < j < |es| ==> EdgeLe(es[i], es[j]) && OrderKey(es[i]) != OrderKey(es[j])
  }

  /** Whether `e` displaces `cur`: higher confidence, or level and the only alignment. */
  predicate Better(e: Edge, cur: Edge) {
    e.confidence > cur.confidence
    || (e.confidence == cur.confidence && e.kind == ALIGNMENT && ALIGNMENT != cur.kind)
  }

  /** The input edge the merge is to keep for its pair: no edge of the pair is better, and
      it is better than every earlier one. */
  ghost predicate Chosen(es: seq<Edge>, i: nat)
    requires i < |es|
  {
    forall j :: 0 <= j < |es| && EdgeKey(es[j]) == EdgeKey(es[i]) ==>
      !Better(es[j], es[i]) && (j < i ==> Better(es[i], es[j]))
  }

  ghost predicate IsMerge(es: seq<Edge>, out: seq<Edge>) {
    && StrictlySorted(out)
    && (forall f :: f in out ==> exists i :: 0 <= i < |es| && es[i] == f && Chosen(es, i))
    && (forall i :: 0 <= i < |es| && Chosen(es, i) ==> es[i] in out)
  }

  function Flatten(lists: seq<seq<Edge>>): seq<Edge> {
    if lists == [] then [] else Flatten(lists[..|lists| - 1]) + Last(lists)
  }

  // ------------------------------------------------------------- the merge

  /** The dictionary `best` while it is filled: its keys in insertion order. */
  ghost predicate Holds(es: seq<Edge>, order: seq<PairKey>, best: map<PairKey, Edge>) {
    && NoDup(order)
    && (forall k :: k in order <==> k in best)
    && (forall k :: k in best ==> EdgeKey(best[k]) == k && exists i :: 0 <= i < |es| && es[i] == best[k] && Chosen(es, i))
    && (forall e :: e in es ==> EdgeKey(e) in best)
  }

  lemma ChosenUnique(es: seq<Edge>, i: nat, j: nat)
    requires i < |es| && j < |es| && Chosen(es, i) && Chosen(es, j) && EdgeKey(es[i]) == EdgeKey(es[j])
    ensures i == j
  {
  }

  lemma ChosenGrows(es: seq<Edge>, e: Edge, i: nat)
    requires i < |es| && Chosen(es, i)
    requires EdgeKey(es[i]) != EdgeKey(e) || !Better(e, es[i])
    ensures Chosen(es + [e], i)
  {
  }

  lemma HoldsStep(es: seq<Edge>, order: seq<PairKey>, best: map<PairKey, Edge>, e: Edge)
    requires Holds(es, order, best)
    ensures var key := EdgeKey(e);
      if key !in best then Holds(es + [e], order + [key], best[key := e])
      else if Better(e, best[key]) then Holds(es + [e], order, best[key := e])
      else Holds(es + [e], order, best)
  {
    var key, es' := EdgeKey(e), es + [e];
    var n := |es|;
    forall k | k in best && (k != key || !Better(e, best[k]))
      ensures exists i :: 0 <= i < |es'| && es'[i] == best[k] && Chosen(es', i)
    {
      var i :| 0 <= i < |es| && es[i] == best[k] && Chosen(es, i);
      ChosenGrows(es, e, i);
      assert es'[i] == best[k];
    }
    if key !in best || Better(e, best[key]) {
      forall j | 0 <= j < |es'| && EdgeKey(es'[j]) == key
        ensures !Better(es'[j], e) && (j < n ==> Better(e, es'[j]))
      {
        if j < n {
          assert es[j] in es;
          var i :| 0 <= i < |es| && es[i] == best[key] && Chosen(es, i);
          assert !Better(es[j], es[i]);
        }
      }
      assert Chosen(es', n) && es'[n] == e;
    }
  }

  /** `merge_edges`: one pass that keeps the better edge of each pair, then a sort. */
  method MergeEdges(edgeLists: seq<seq<Edge>>) returns (out: seq<Edge>)
    ensures IsMerge(Flatten(edgeLists), out)
  {
    var order: seq<PairKey> := [];
    var best: map<PairKey, Edge> := map[];
    for n := 0 to |edgeLists|
      invariant Holds(Flatten(edgeLists[..n]), order, best)
    {
      var lst := edgeLists[n];
      ghost var seen := Flatten(edgeLists[..n]);
      assert seen + lst[..0] == seen;
      for m := 0 to |lst|
        invariant Holds(seen + lst[..m], order, best)
      {
        var e := lst[m];
        var key := EdgeKey(e);
        HoldsStep(seen + lst[..m], order, best, e);
        assert seen + lst[..m+1] == seen + lst[..m] + [e];
        if key !in best {
          order := order + [key];
          best := best[key := e];
        } else if Better(e, best[key]) {
          best := best[key := e];
        }
      }
      assert lst[..|lst|] == lst;
      assert edgeLists[..n+1][..n] == edgeLists[..n];
    }
    assert edgeLists[..|edgeLists|] == edgeLists;
    var values := seq(|order|, i requires 0 <= i < |order| && order[i] in best => best[order[i]]);
    out := Sort(EdgeLe, values);
    SortedValues(Flatten(edgeLists), order, best, values);
  }

  lemma EdgeOrder()
    ensures TotalOrder(EdgeLe)
  {
    forall a, b ensures EdgeLe(a, b) || EdgeLe(b, a) {
      StringsLeTotal(OrderKey(a), OrderKey(b));
    }
    forall a, b, c | EdgeLe(a, b) && EdgeLe(b, c) ensures EdgeLe(a, c) {
      StringsLeTransitive(OrderKey(a), OrderKey(b), OrderKey(c));
    }
  }

  /** The values of the dictionary in insertion order. */
  ghost predicate ValuesOf(order: seq<PairKey>, best: map<PairKey, Edge>, values: seq<Edge>) {
    && |values| == |order|
    && forall i :: 0 <= i < |order| ==> order[i] in best && values[i] == best[order[i]]
  }

  lemma ValueKeysDistinct(es: seq<Edge>, order: seq<PairKey>, best: map<PairKey, Edge>, values: seq<Edge>)
    requires Holds(es, order, best) && ValuesOf(order, best, values)
    ensures forall i, j :: 0 <= i < |values| && 0 <= j < |values| && EdgeKey(values[i]) == EdgeKey(values[j]) ==> i == j
  {
    forall i, j | 0 <= i < |values| && 0 <= j < |values| && EdgeKey(values[i]) == EdgeKey(values[j]) ensures i == j {
      assert EdgeKey(values[i]) == order[i] && EdgeKey(values[j]) == order[j];
    }
  }

  lemma SortedIsStrict(values: seq<Edge>, out: seq<Edge>)
    requires forall i, j :: 0 <= i < |values| && 0 <= j < |values| && EdgeKey(values[i]) == EdgeKey(values[j]) ==> i == j
    requires SortedBy(EdgeLe, out) && multiset(values) == multiset(out)
    ensures StrictlySorted(out)
  {
    assert NoDup(values);
    NoDupMultiset(values, out);
    SameElements(values, out);
    forall i, j | 0 <= i < j < |out| ensures OrderKey(out[i]) != OrderKey(out[j]) {
      assert out[i] in values && out[j] in values;
      if OrderKey(out[i]) == OrderKey(out[j]) {
        SameOrderKey(out[i], out[j]);
      }
    }
  }

  lemma SortedValues(es: seq<Edge>, order: seq<PairKey>, best: map<PairKey, Edge>, values: seq<Edge>)
    requires Holds(es, order, best) && ValuesOf(order, best, values)
    ensures IsMerge(es, Sort(EdgeLe, values))
  {
    var out := Sort(EdgeLe, values);
    EdgeOrder();
    SortSorted(EdgeLe, values);
    SortKeeps(EdgeLe, values);
    ValueKeysDistinct(es, order, best, values);
    SortedIsStrict(values, out);
    forall f | f in out ensures exists i :: 0 <= i < |es| && es[i] == f && Chosen(es, i) {
      assert f in values;
      var a :| 0 <= a < |values| && values[a] == f;
      assert order[a] in best;
    }
    forall i | 0 <= i < |es| && Chosen(es, i) ensures es[i] in out {
      ChosenIsHeld(es, order, best, values, i);
    }
  }

  lemma ChosenIsHeld(es: seq<Edge>, order: seq<PairKey>, best: map<PairKey, Edge>, values: seq<Edge>, i: nat)
    requires Holds(es, order, best) && ValuesOf(order, best, values)
    requires i < |es| && Chosen(es, i)
    ensures es[i] in values
  {
    var key := EdgeKey(es[i]);
    assert es[i] in es && key in best && key in order;
    var j :| 0 <= j < |es| && es[j] == best[key] && Chosen(es, j);
    ChosenUnique(es, i, j);
    var a :| 0 <= a < |order| && order[a] == key;
    assert values[a] == es[i];
  }

  lemma SameOrderKey(e: Edge, f: Edge)
    requires OrderKey(e) == OrderKey(f)
    ensures EdgeKey(e) == EdgeKey(f)
  {
    var a, b := OrderKey(e), OrderKey(f);
    assert a[0] == b[0] && a[1] == b[1] && a[2] == b[2] && a[3] == b[3] && a[4] == b[4] && a[5] == b[5];
  }

  // ------------------------------------------------- what a merge consists of

  /** Every pair of endpoints in the input has a chosen edge. */
  lemma {:induction false} SomeChosen(es: seq<Edge>, e: Edge)
    requires e in es
    ensures exists i :: 0 <= i < |es| && EdgeKey(es[i]) == EdgeKey(e) && Chosen(es, i) && !Better(e, es[i])
  {
    var rest, f := es[..|es| - 1], Last(es);
    assert es == rest + [f];
    var key := EdgeKey(e);
    if exists d :: d in rest && EdgeKey(d) == key {
      var d :| d in rest && EdgeKey(d) == key;
      SomeChosen(rest, if e in rest then e else d);
      var i :| 0 <= i < |rest| && EdgeKey(rest[i]) == key && Chosen(rest, i) && (e in rest ==> !Better(e, rest[i]));
      if EdgeKey(f) == key && Better(f, rest[i]) {
        forall j | 0 <= j < |es| && EdgeKey(es[j]) == key
          ensures !Better(es[j], f) && (j < |rest| ==> Better(f, es[j]))
        {
          if j < |rest| { assert !Better(rest[j], rest[i]); }
        }
        assert Chosen(es, |rest|);
      } else {
        ChosenGrows(rest, f, i);
        assert es[i] == rest[i];
      }
    } else {
      assert forall j :: 0 <= j < |rest| ==> rest[j] in rest;
      assert e == f && Chosen(es, |rest|);
    }
  }

  /** `f` stands for the pair of `e`, and is no worse. */
  ghost predicate AtLeast(f: Edge, e: Edge) {
    && EdgeKey(f) == EdgeKey(e)
    && f.confidence >= e.confidence
    && (f.confidence == e.confidence && e.kind == "identifier_alignment" ==> f.kind == "identifier_alignment")
  }

  /** The merge has exactly one edge for every pair of the input, no edge of the pair has a
      higher confidence, and it is an alignment if a level one is. */
  lemma MergeKeepsBest(es: seq<Edge>, out: seq<Edge>, e: Edge)
    requires IsMerge(es, out) && e in es
    ensures DistinctKeys(out)
    ensures forall f :: f in out ==> f in es
    ensures exists f :: f in out && AtLeast(f, e)
  {
    MergeDistinct(es, out);
    SomeChosen(es, e);
    var i :| 0 <= i < |es| && EdgeKey(es[i]) == EdgeKey(e) && Chosen(es, i) && !Better(e, es[i]);
    assert es[i] in out && AtLeast(es[i], e);
  }

  lemma MergeDistinct(es: seq<Edge>, out: seq<Edge>)
    requires IsMerge(es, out)
    ensures DistinctKeys(out)
  {
    forall a, b | 0 <= a < b < |out| ensures EdgeKey(out[a]) != EdgeKey(out[b]) {
      assert out[a] in out && out[b] in out;
      var i :| 0 <= i < |es| && es[i] == out[a] && Chosen(es, i);
      var j :| 0 <= j < |es| && es[j] == out[b] && Chosen(es, j);
      assert OrderKey(es[i]) != OrderKey(es[j]);
    }
  }

  lemma TailHolds(a: seq<Edge>, e: Edge)
    requires a != [] && StrictlySorted(a)
    ensures e in a[1..] <==> e in a && e != a[0]
  {
    assert a == [a[0]] + a[1..];
    if e in a[1..] { var i :| 0 < i < |a| && a[i] == e; }
  }

  lemma {:induction false} StrictlySortedUnique(a: seq<Edge>, b: seq<Edge>)
    requires StrictlySorted(a) && StrictlySorted(b) && forall e :: e in a <==> e in b
    ensures a == b
  {
    assert a != [] ==> a[0] in b;
    assert b != [] ==> b[0] in a;
    if a != [] && b != [] {
      assert a[0] in b && b[0] in a;
      StringsLeTotal(OrderKey(a[0]), OrderKey(b[0]));
      assert a[0] == b[0];
      forall e ensures e in a[1..] <==> e in b[1..] {
        TailHolds(a, e);
        TailHolds(b, e);
      }
      StrictlySortedUnique(a[1..], b[1..]);
      assert a == [a[0]] + a[1..] && b == [b[0]] + b[1..];
    }
  }

  /** The merge is determined by its input. */
  lemma MergeUnique(es: seq<Edge>, out: seq<Edge>, out': seq<Edge>)
    requires IsMerge(es, out) && IsMerge(es, out')
    ensures out == out'
  {
    StrictlySortedUnique(out, out');
  }

  /** Merging what is merged changes nothing, however often it is repeated. */
  lemma MergeIdempotent(es: seq<Edge>, out: seq<Edge>, again: seq<Edge>)
    requires IsMerge(es, out) && IsMerge(out + out, again)
    ensures again == out
  {
    MergeDistinct(es, out);
    var twice := out + out;
    forall i | 0 <= i < |out| ensures Chosen(twice, i) {
      forall j | 0 <= j < |twice| && EdgeKey(twice[j]) == EdgeKey(twice[i]) ensures twice[j] == twice[i] {
        var j' := if j < |out| then j else j - |out|;
        assert out[j'] == twice[j];
      }
    }
    forall f ensures f in again <==> f in out {
      if f in out {
        var i :| 0 <= i < |out| && out[i] == f;
        assert twice[i] == f;
      }
    }
    StrictlySortedUnique(out, again);
  }

  // --------------------------------------------------------- merge algebra

  /** What the algebra of merging is about: the pair, and how good its edge is. */
  datatype View = View(key: PairKey, confidence: real, aligned: bool) {
    predicate Below(other: View) {
      key == other.key
      && (confidence < other.confidence || (confidence == other.confidence && (aligned ==> other.aligned)))
    }
  }

  function ViewOf(e: Edge): View { View(EdgeKey(e), e.confidence, e.kind == "identifier_alignment") }

  ghost function Views(es: seq<Edge>): set<View> {
    set e | e in es :: ViewOf(e)
  }

  ghost predicate IsTop(vs: set<View>, v: View) {
    v in vs && forall w :: w in vs && w.key == v.key ==> w.Below(v)
  }

  /** The views no other view of the same pair is above. */
  ghost function Top(vs: set<View>): set<View> {
    set v | v in vs && IsTop(vs, v)
  }

  lemma ViewsAppend(a: seq<Edge>, b: seq<Edge>)
    ensures Views(a + b) == Views(a) + Views(b)
  {
    forall v ensures v in Views(a + b) <==> v in Views(a) + Views(b) {
      if v in Views(a) { var e :| e in a && ViewOf(e) == v; assert e in a + b; }
      if v in Views(b) { var e :| e in b && ViewOf(e) == v; assert e in a + b; }
      if v in Views(a + b) { var e :| e in a + b && ViewOf(e) == v; assert e in a || e in b; }
    }
  }

  /** Every view of the input is below one of the merge. */
  lemma MergeCovers(es: seq<Edge>, out: seq<Edge>, v: View) returns (w: View)
    requires IsMerge(es, out) && v in Views(es)
    ensures w in Views(out) && w in Views(es) && v.Below(w)
  {
    var e :| e in es && ViewOf(e) == v;
    MergeKeepsBest(es, out, e);
    var f :| f in out && AtLeast(f, e);
    w := ViewOf(f);
  }

  lemma MergedIsTop(es: seq<Edge>, out: seq<Edge>, v: View)
    requires IsMerge(es, out) && v in Views(out)
    ensures IsTop(Views(es), v)
  {
    var f :| f in out && ViewOf(f) == v;
    var i :| 0 <= i < |es| && es[i] == f && Chosen(es, i);
    assert es[i] in es;
    forall w | w in Views(es) && w.key == v.key ensures w.Below(v) {
      var e :| e in es && ViewOf(e) == w;
      var j :| 0 <= j < |es| && es[j] == e;
      assert !Better(es[j], es[i]);
    }
  }

  /** On views the merge is the maximum of each pair. */
  lemma MergeViews(es: seq<Edge>, out: seq<Edge>)
    requires IsMerge(es, out)
    ensures Views(out) == Top(Views(es))
  {
    forall v ensures v in Views(out) <==> v in Top(Views(es)) {
      if v in Views(out) {
        MergedIsTop(es, out, v);
      }
      if v in Top(Views(es)) {
        var w := MergeCovers(es, out, v);
        assert w.Below(v) && w == v;
      }
    }
  }

  /** A merge may stand for its input inside a larger one. */
  lemma MergeAbsorbed(es: seq<Edge>, out: seq<Edge>, other: set<View>)
    requires IsMerge(es, out)
    ensures Top(Views(out) + other) == Top(Views(es) + other)
  {
    forall v ensures v in Top(Views(out) + other) <==> v in Top(Views(es) + other) {
      if v in Top(Views(out) + other) {
        AbsorbedUp(es, out, other, v);
      }
      if v in Top(Views(es) + other) {
        AbsorbedDown(es, out, other, v);
      }
    }
  }

  lemma AbsorbedUp(es: seq<Edge>, out: seq<Edge>, other: set<View>, v: View)
    requires IsMerge(es, out) && IsTop(Views(out) + other, v)
    ensures IsTop(Views(es) + other, v)
  {
    if v in Views(out) {
      MergedIsTop(es, out, v);
    }
    forall w | w in Views(es) + other && w.key == v.key ensures w.Below(v) {
      if w in Views(es) {
        var x := MergeCovers(es, out, w);
        assert x in Views(out) + other;
      }
    }
  }

  lemma AbsorbedDown(es: seq<Edge>, out: seq<Edge>, other: set<View>, v: View)
    requires IsMerge(es, out) && IsTop(Views(es) + other, v)
    ensures IsTop(Views(out) + other, v)
  {
    if v in Views(es) {
      var x := MergeCovers(es, out, v);
      assert x in Views(es) + other && x == v;
    }
    forall w | w in Views(out) + other && w.key == v.key ensures w.Below(v) {
      if w in Views(out) {
        MergedIsTop(es, out, w);
        assert w in Views(es) + other;
      }
    }
  }

  lemma MergeCommutes(a: seq<Edge>, b: seq<Edge>, ab: seq<Edge>, ba: seq<Edge>)
    requires IsMerge(a + b, ab) && IsMerge(b + a, ba)
    ensures Views(ab) == Views(ba)
  {
    MergeViews(a + b, ab);
    MergeViews(b + a, ba);
    SwapViews(a, b);
  }

  lemma SwapViews(a: seq<Edge>, b: seq<Edge>)
    ensures Views(a + b) == Views(b + a) == Views(a) + Views(b)
  {
    ViewsAppend(a, b);
    ViewsAppend(b, a);
    assert Views(a) + Views(b) == Views(b) + Views(a);
  }

  lemma MergeAssociates(a: seq<Edge>, b: seq<Edge>, c: seq<Edge>,
                        ab: seq<Edge>, left: seq<Edge>, bc: seq<Edge>, right: seq<Edge>)
    requires IsMerge(a + b, ab) && IsMerge(ab + c, left)
    requires IsMerge(b + c, bc) && IsMerge(a + bc, right)
    ensures Views(left) == Views(right) == Top(Views(a + b + c))
  {
    LeftFold(a + b, c, ab, left);
    RightFold(a, b + c, bc, right);
    assert a + b + c == a + (b + c);
  }

  lemma LeftFold(es: seq<Edge>, c: seq<Edge>, out: seq<Edge>, all: seq<Edge>)
    requires IsMerge(es, out) && IsMerge(out + c, all)
    ensures Views(all) == Top(Views(es + c))
  {
    MergeViews(out + c, all);
    ViewsAppend(out, c);
    ViewsAppend(es, c);
    MergeAbsorbed(es, out, Views(c));
  }

  lemma RightFold(a: seq<Edge>, es: seq<Edge>, out: seq<Edge>, all: seq<Edge>)
    requires IsMerge(es, out) && IsMerge(a + out, all)
    ensures Views(all) == Top(Views(a + es))
  {
    MergeViews(a + out, all);
    SwapViews(a, out);
    SwapViews(a, es);
    ViewsAppend(out, a);
    ViewsAppend(es, a);
    MergeAbsorbed(es, out, Views(a));
  }
}
