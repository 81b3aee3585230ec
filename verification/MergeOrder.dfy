/** What the order of its input decides in a merge: which of several equally good edges is kept. */
module MergeOrder {
  import opened Common
  import opened CrossDb

  /** No edge of its pair is better. */
  ghost predicate Best(es: seq<Edge>, e: Edge) {
    e in es && forall f :: f in es && EdgeKey(f) == EdgeKey(e) ==> !Better(f, e)
  }

  /** Some pair has two different best edges. */
  ghost predicate Tied(es: seq<Edge>, e: Edge, f: Edge) { Best(es, e) && Best(es, f) && EdgeKey(e) == EdgeKey(f) && e != f }

  lemma MergedIsBest(es: seq<Edge>, out: seq<Edge>, f: Edge)
    requires IsMerge(es, out) && f in out
    ensures Best(es, f)
  {
    var i :| 0 <= i < |es| && es[i] == f && Chosen(es, i);
  }

  /** Every merged edge has a counterpart in the other merge, and without ties it is the same. */
  lemma SameKept(es: seq<Edge>, other: seq<Edge>, out: seq<Edge>, out': seq<Edge>, f: Edge)
    requires multiset(es) == multiset(other) && IsMerge(es, out) && IsMerge(other, out')
    requires (forall a, b :: !Tied(es, a, b)) && f in out
    ensures f in out'
  {
    SameElements(es, other);
    MergedIsBest(es, out, f);
    SomeChosen(other, f);
    var i :| 0 <= i < |other| && EdgeKey(other[i]) == EdgeKey(f) && Chosen(other, i);
    assert Best(es, other[i]);
    assert !Tied(es, f, other[i]);
  }

  lemma NotTiedEither(es: seq<Edge>, other: seq<Edge>)
    requires multiset(es) == multiset(other) && forall a, b :: !Tied(es, a, b)
    ensures forall a, b :: !Tied(other, a, b)
  {
    SameElements(es, other);
    forall a, b ensures !Tied(other, a, b) { assert !Tied(es, a, b); }
  }

  lemma UntiedOrderIrrelevant(es: seq<Edge>, other: seq<Edge>, out: seq<Edge>, out': seq<Edge>)
    requires multiset(es) == multiset(other) && IsMerge(es, out) && IsMerge(other, out')
    requires forall a, b :: !Tied(es, a, b)
    ensures out == out'
  {
    NotTiedEither(es, other);
    forall f ensures f in out <==> f in out' {
      if f in out { SameKept(es, other, out, out', f); }
      if f in out' { SameKept(other, es, out', out, f); }
    }
    StrictlySortedUnique(out, out');
  }

  lemma {:induction false} Filled(es: seq<Edge>) returns (order: seq<PairKey>, best: map<PairKey, Edge>)
    ensures Holds(es, order, best)
  {
    if es == [] {
      order, best := [], map[];
    } else {
      var e := Last(es);
      order, best := Filled(es[..|es| - 1]);
      HoldsStep(es[..|es| - 1], order, best, e);
      assert es == es[..|es| - 1] + [e];
      if EdgeKey(e) !in best {
        order := order + [EdgeKey(e)];
        best := best[EdgeKey(e) := e];
      } else if Better(e, best[EdgeKey(e)]) {
        best := best[EdgeKey(e) := e];
      }
    }
  }

  /** Every input has a merge. */
  lemma MergeExists(es: seq<Edge>) returns (out: seq<Edge>)
    ensures IsMerge(es, out)
  {
    var order, best := Filled(es);
    var values := seq(|order|, i requires 0 <= i < |order| && order[i] in best => best[order[i]]);
    SortedValues(es, order, best, values);
    out := Sort(EdgeLe, values);
  }

  /** Putting a best edge first makes the merge keep it. */
  lemma KeepsTheFirst(es: seq<Edge>, e: Edge) returns (other: seq<Edge>, out: seq<Edge>)
    requires Best(es, e)
    ensures multiset(other) == multiset(es) && IsMerge(other, out) && e in out
  {
    var i :| 0 <= i < |es| && es[i] == e;
    other := [e] + (es[..i] + es[i + 1..]);
    assert es == es[..i] + [e] + es[i + 1..];
    SameElements(es, other);
    assert forall j :: 0 <= j < |other| ==> other[j] in es;
    assert Chosen(other, 0);
    out := MergeExists(other);
    assert other[0] in out;
  }

  /** The merge depends on the order of its input exactly when some pair of endpoints has two
      different best edges. */
  lemma MergeOrderExactly(es: seq<Edge>, out: seq<Edge>)
    requires IsMerge(es, out)
    ensures (exists e, f :: Tied(es, e, f))
      <==> exists other, out' :: multiset(other) == multiset(es) && IsMerge(other, out') && out' != out
  {
    if e, f :| Tied(es, e, f) {
      MergeDistinct(es, out);
      var keep := if e in out then f else e;
      assert keep !in out;
      var other, out' := KeepsTheFirst(es, keep);
      assert out' != out;
    } else {
      forall other, out' | multiset(other) == multiset(es) && IsMerge(other, out') ensures out' == out {
        UntiedOrderIrrelevant(es, other, out, out');
      }
    }
  }
}
