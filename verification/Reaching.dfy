/** Places in a value, and which places of a result still hold their value once it is masked. */
module Reaching {
  import opened Common
  import opened Values
  import opened Masking

  /** A step into a value: to the entry of a key, or to an item of a list. */
  datatype Hop = Key(key: string) | Item(at: nat)

  function Reach(v: Val, way: seq<Hop>): Option<Val>
    decreases |way|
  {
    if way == [] then Some(v)
    else match way[0]
      case Key(k) => if v.Dict? && Holds(v.entries, k) then Reach(Lookup(v.entries, k), way[1..]) else None
      case Item(i) => if v.List? && i < |v.items| then Reach(v.items[i], way[1..]) else None
  }

  /** No key on the way is masked or too deep. Lists do not count for the path, and what is in a list
      inside a list is not looked at. */
  predicate Unlisted(masked: set<string>, way: seq<Hop>, depth: nat, at: seq<string>) {
    if way == [] then true
    else match way[0]
      case Key(k) => depth <= 25 && !Listed(masked, at + [k]) && Unlisted(masked, way[1..], depth + 1, at + [k])
      case Item(_) => (|way| > 1 && way[1].Item?) || Unlisted(masked, way[1..], depth, at)
  }

  /** The same in terms of the rules. */
  predicate Open(r: Rules, way: seq<Hop>, depth: nat, at: seq<string>) {
    if way == [] then true
    else match way[0]
      case Key(k) => depth <= MAX_DEPTH && !r.Hides(k, at + [k]) && Open(r, way[1..], depth + 1, at + [k])
      case Item(_) => (|way| > 1 && way[1].Item?) || Open(r, way[1..], depth, at)
  }

  /** A value that is neither a dict nor a list, nor one the masker writes itself. */
  predicate Telling(x: Val) { !x.Dict? && !x.List? && x != Str("***masked***") && x != Str("depth-limit-exceeded") }

  lemma {:induction false} OpenMeans(fields: seq<string>, way: seq<Hop>, depth: nat, at: seq<string>)
    ensures Open(RulesOf(fields), way, depth, at) <==> Unlisted(Elements(fields), way, depth, at)
  {
    if way != [] {
      match way[0] {
        case Key(k) =>
          RulesMean(fields, at + [k]);
          OpenMeans(fields, way[1..], depth + 1, at + [k]);
        case Item(_) => OpenMeans(fields, way[1..], depth, at);
      }
    }
  }

  lemma HoldsCons(es: seq<Entry>, k: string)
    requires es != []
    ensures Holds(es, k) <==> es[0].key == k || Holds(es[1..], k)
  {
    if i :| 0 <= i < |es| && es[i].key == k && i > 0 { assert es[1..][i - 1].key == k; }
  }

  lemma {:induction false} LookupFused(t: Transformer, es: seq<Entry>, depth: nat, at: seq<string>, k: string)
    ensures Holds(FuseEntries(t, es, depth, at), k) <==> Holds(es, k) && t.Visible(depth, k)
    ensures Holds(es, k) && t.Visible(depth, k) ==>
      Lookup(FuseEntries(t, es, depth, at), k) == FuseField(t, k, Lookup(es, k), depth, at + [k])
  {
    if es != [] {
      var rest := FuseEntries(t, es[1..], depth, at);
      var out := FuseEntries(t, es, depth, at);
      LookupFused(t, es[1..], depth, at, k);
      HoldsCons(es, k);
      if t.Visible(depth, es[0].key) {
        assert out[1..] == rest && out[0].key == es[0].key;
        HoldsCons(out, k);
      }
    }
  }

  lemma {:induction false} ItemFused(t: Transformer, items: seq<Val>, depth: nat, at: seq<string>, i: nat)
    requires i < |items|
    ensures FuseItems(t, items, depth, at)[i]
      == if items[i].Dict? then Dict(FuseDoc(t, items[i].entries, depth, at)) else items[i]
  {
    if i > 0 { ItemFused(t, items[1..], depth, at, i - 1); }
  }

  /** Below the depth bound nothing is left to reach. */
  lemma RedactedReach(way: seq<Hop>, x: Val)
    requires way != [] && Telling(x)
    ensures Reach(Dict(DEPTH_REDACTION), way) != Some(x)
  {
    if Reach(Dict(DEPTH_REDACTION), way).Some? { assert way[0] == Key("***"); }
  }

  /** Following a way into what the walk makes of a document finds a value exactly when it is there in
      the document and nothing on the way is hidden. */
  lemma {:induction false} ShownBelow(t: Transformer, doc: seq<Entry>, depth: nat, at: seq<string>, way: seq<Hop>, x: Val)
    requires way != [] && Telling(x)
    ensures Reach(Dict(FuseDoc(t, doc, depth, at)), way) == Some(x)
      <==>
      && Reach(Dict(doc), way) == Some(x) && way[0].Key? && t.Visible(depth, way[0].key)
      && Open(t.rules, way, depth, at)
    decreases |way|, 0
  {
    if way[0].Key? {
      var k := way[0].key;
      if depth > MAX_DEPTH {
        RedactedReach(way, x);
      } else {
        LookupFused(t, doc, depth, at, k);
        if Holds(doc, k) && t.Visible(depth, k) { ShownInField(t, k, Lookup(doc, k), depth, at + [k], way[1..], x); }
      }
    }
  }

  lemma {:induction false} ShownInField(t: Transformer, k: string, u: Val, depth: nat, at: seq<string>, way: seq<Hop>, x: Val)
    requires Telling(x)
    ensures Reach(FuseField(t, k, u, depth, at), way) == Some(x)
      <==> Reach(u, way) == Some(x) && !t.rules.Hides(k, at) && Open(t.rules, way, depth + 1, at)
    decreases |way|, 1
  {
    if way != [] && !t.rules.Hides(k, at) {
      if u.Dict? {
        ShownBelow(t, u.entries, depth + 1, at, way, x);
      } else if u.List? && way[0].Item? {
        ShownInItems(t, u.items, depth + 1, at, way, x);
      }
    }
  }

  lemma {:induction false} ShownInItems(t: Transformer, items: seq<Val>, depth: nat, at: seq<string>, way: seq<Hop>, x: Val)
    requires way != [] && way[0].Item? && Telling(x)
    ensures Reach(List(FuseItems(t, items, depth, at)), way) == Some(x)
      <==>
      && Reach(List(items), way) == Some(x) && Open(t.rules, way, depth, at)
      && (|way| > 1 && way[1].Key? ==> t.Visible(depth, way[1].key))
    decreases |way|, 0
  {
    var i := way[0].at;
    if i < |items| {
      ItemFused(t, items, depth, at, i);
      if items[i].Dict? && |way| > 1 { ShownBelow(t, items[i].entries, depth, at, way[1..], x); }
    }
  }

  /** The first key is not projected away: that of a document, or of the documents in a list. */
  predicate Starts(t: Transformer, way: seq<Hop>) {
    || way == []
    || (way[0].Key? && t.Visible(0, way[0].key))
    || (way[0].Item? && (|way| > 1 && way[1].Key? ==> t.Visible(0, way[1].key)))
  }

  /** A value is found in a transformed result exactly when it is there in the result, its first key
      is not projected away, and nothing on the way is hidden. */
  lemma TransformShows(t: Transformer, v: Val, way: seq<Hop>, x: Val)
    requires Telling(x)
    ensures Reach(Transform(t, v), way) == Some(x)
      <==> Reach(v, way) == Some(x) && (t.Idle() || (Starts(t, way) && Open(t.rules, way, 0, [])))
  {
    if !t.Idle() && way != [] {
      if v.Dict? {
        ShownBelow(t, v.entries, 0, [], way, x);
      } else if v.List? && way[0].Item? {
        ShownInItems(t, v.items, 0, [], way, x);
      }
    }
  }

  // --------------------------------------------------------- masking alone

  lemma {:induction false} KeptAll(t: Transformer, es: seq<Entry>)
    requires t.allow == {}
    ensures Kept(t, es) == es
  {
    if es != [] { KeptAll(t, es[1..]); }
  }

  lemma {:induction false} KeptAllItems(t: Transformer, items: seq<Val>)
    requires t.allow == {}
    ensures KeptItems(t, items) == items
  {
    if items != [] {
      if items[0].Dict? { KeptAll(t, items[0].entries); }
      KeptAllItems(t, items[1..]);
    }
  }

  /** Masking is the transformation that projects nothing away. */
  lemma MaskIsTransform(r: Rules, v: Val)
    ensures MaskResult(r, v) == Transform(Transformer(r, {}), v)
  {
    var t := Transformer(r, {});
    if r.Any() {
      Fusion(t, v);
      if v.Dict? { KeptAll(t, v.entries); }
      if v.List? { KeptAllItems(t, v.items); }
    }
  }

  /** The same of the masker, in terms of the mask list: nothing is listed at all, or no key on the
      way is, on its own or by its whole path from the root. */
  lemma MaskShows(fields: seq<string>, v: Val, way: seq<Hop>, x: Val)
    requires Telling(x)
    ensures Reach(MaskResult(RulesOf(fields), v), way) == Some(x)
      <==> Reach(v, way) == Some(x) && (fields == [] || Unlisted(Elements(fields), way, 0, []))
  {
    var r := RulesOf(fields);
    MaskIsTransform(r, v);
    TransformShows(Transformer(r, {}), v, way, x);
    RulesMean(fields, ["any"]);
    OpenMeans(fields, way, 0, []);
  }

  /** A way that meets a masked key before any list inside a list is closed. */
  lemma {:induction false} ListedCloses(masked: set<string>, way: seq<Hop>, depth: nat, at: seq<string>, i: nat)
    requires i < |way| && way[i].Key? && way[i].key in masked && '.' !in way[i].key
    requires forall j :: 0 <= j < i ==> !(way[j].Item? && way[j + 1].Item?)
    ensures !Unlisted(masked, way, depth, at)
  {
    if i == 0 {
      assert Last(at + [way[0].key]) == way[0].key;
    } else {
      assert way[0].Item? ==> !way[1].Item?;
      forall j | 0 <= j < i - 1 ensures !(way[1..][j].Item? && way[1..][j + 1].Item?) {
        assert !(way[j + 1].Item? && way[j + 2].Item?);
      }
      if way[0].Key? { ListedCloses(masked, way[1..], depth + 1, at + [way[0].key], i - 1); }
      else { ListedCloses(masked, way[1..], depth, at, i - 1); }
    }
  }
}
