/** Field masking: the recursive masker, and the fused transformer that projects and masks
    in one walk. Proved: the fusion, that the walk reaches a fixed point in one pass, and
    exactly which differences between two results the output hides. */
module Masking {
  import opened Common
  import opened Values

  const MAX_DEPTH := 25

  const MASK_VALUE := Str("***masked***")
  const DEPTH_REDACTION := [Entry("***", Str("depth-limit-exceeded"))]

  // ------------------------------------------------------------ mask entries

  /** Bare names match a key at any depth, paths only from the document root. */
  datatype Rules = Rules(bare: set<string>, paths: set<seq<string>>) {
    predicate Any() { bare != {} || paths != {} }

    predicate Hides(key: string, path: seq<string>) { key in bare || path in paths }
  }

  function RulesOf(fields: seq<string>): Rules {
    if fields == [] then Rules({}, {})
    else
      var f := Last(fields);
      var r := RulesOf(fields[..|fields| - 1]);
      if '.' in f then r.(paths := r.paths + {SplitDots(f)}) else r.(bare := r.bare + {f})
  }

  method SplitMaskEntries(fields: seq<string>) returns (r: Rules)
    ensures r == RulesOf(fields)
  {
    var bare: set<string>, paths: set<seq<string>> := {}, {};
    for i := 0 to |fields|
      invariant Rules(bare, paths) == RulesOf(fields[..i])
    {
      var f := fields[i];
      assert fields[..i+1][..i] == fields[..i];
      if '.' in f {
        paths := paths + {SplitDots(f)};
      } else {
        bare := bare + {f};
      }
    }
    assert fields[..|fields|] == fields;
    return Rules(bare, paths);
  }

  predicate Undotted(path: seq<string>) { forall p :: p in path ==> '.' !in p }

  /** The key is named on its own, or the whole path to it with dots. */
  predicate Listed(fields: set<string>, path: seq<string>)
    requires path != []
  {
    (Last(path) in fields && '.' !in Last(path)) || (|path| > 1 && Undotted(path) && JoinDots(path) in fields)
  }

  lemma {:induction false} BareMeans(fields: seq<string>, key: string)
    ensures key in RulesOf(fields).bare <==> key in fields && '.' !in key
  {
    if fields != [] {
      BareMeans(fields[..|fields| - 1], key);
      assert fields == fields[..|fields| - 1] + [Last(fields)];
    }
  }

  lemma SplitsInto(f: string, path: seq<string>)
    ensures '.' in f && SplitDots(f) == path <==> |path| > 1 && Undotted(path) && JoinDots(path) == f
  {
    SplitJoins(f);
    if '.' in f { DottedSplits(f); }
    if |path| > 1 && Undotted(path) {
      JoinSplits(path);
      assert '.' in JoinDots(path);
    }
  }

  lemma {:induction false} PathsMean(fields: seq<string>, path: seq<string>)
    ensures path in RulesOf(fields).paths <==> |path| > 1 && Undotted(path) && JoinDots(path) in fields
  {
    if fields != [] {
      PathsMean(fields[..|fields| - 1], path);
      SplitsInto(Last(fields), path);
      assert fields == fields[..|fields| - 1] + [Last(fields)];
    }
  }

  /** A mask list hides the key at the end of a path exactly when it lists the key as a bare name or
      the whole path with dots, whatever the keys. So a key that has a dot is never hidden by itself,
      and nothing below it is hidden by its path. */
  lemma RulesMean(fields: seq<string>, path: seq<string>)
    requires path != []
    ensures RulesOf(fields).Hides(Last(path), path) <==> Listed(Elements(fields), path)
    ensures RulesOf(fields).Any() <==> fields != []
  {
    BareMeans(fields, Last(path));
    PathsMean(fields, path);
    if fields != [] {
      var f := Last(fields);
      BareMeans(fields, f);
      SplitsInto(f, SplitDots(f));
      PathsMean(fields, SplitDots(f));
      assert f in fields;
    }
  }

  lemma {:induction false} DottedSplits(f: string)
    requires '.' in f
    ensures |SplitDots(f)| > 1
  {
    if f[0] != '.' {
      DottedSplits(f[1..]);
    }
  }

  lemma {:induction false} SplitSimple(p: string)
    requires '.' !in p
    ensures SplitDots(p) == [p]
  {
    if p != [] {
      assert p == [p[0]] + p[1..];
      assert p[0] in p;
      SplitSimple(p[1..]);
    }
  }

  lemma {:induction false} SplitAppend(p: string, rest: string)
    requires '.' !in p
    ensures SplitDots(p + "." + rest) == [p] + SplitDots(rest)
  {
    var s := p + "." + rest;
    if p == [] {
      assert s[1..] == rest;
    } else {
      SplitAppend(p[1..], rest);
      assert s[1..] == p[1..] + "." + rest;
      assert p == [p[0]] + p[1..];
    }
  }

  lemma {:induction false} JoinSplits(parts: seq<string>)
    requires parts != [] && forall p :: p in parts ==> '.' !in p
    ensures SplitDots(JoinDots(parts)) == parts
  {
    if |parts| == 1 {
      SplitSimple(parts[0]);
    } else {
      JoinSplits(parts[1..]);
      SplitAppend(parts[0], JoinDots(parts[1..]));
    }
  }

  // ---------------------------------------------------------------- masker

  function MaskDoc(r: Rules, doc: seq<Entry>, depth: nat, path: seq<string>): seq<Entry>
    decreases doc, 2
  {
    if !r.Any() then doc
    else if depth > MAX_DEPTH then DEPTH_REDACTION
    else MaskEntries(r, doc, depth, path)
  }

  function MaskEntries(r: Rules, es: seq<Entry>, depth: nat, path: seq<string>): (out: seq<Entry>)
    ensures |out| == |es|
    decreases es, 1
  {
    if es == [] then []
    else [Entry(es[0].key, MaskField(r, es[0].key, es[0].val, depth, path + [es[0].key]))]
         + MaskEntries(r, es[1..], depth, path)
  }

  function MaskField(r: Rules, key: string, v: Val, depth: nat, cur: seq<string>): Val
    decreases v, 3
  {
    if r.Hides(key, cur) then MASK_VALUE
    else match v
      case Dict(es) => Dict(MaskDoc(r, es, depth + 1, cur))
      case List(items) => List(MaskItems(r, items, depth + 1, cur))
      case _ => v
  }

  function MaskItems(r: Rules, items: seq<Val>, depth: nat, path: seq<string>): seq<Val>
    decreases items, 1
  {
    if items == [] then []
    else [if items[0].Dict? then Dict(MaskDoc(r, items[0].entries, depth, path)) else items[0]]
         + MaskItems(r, items[1..], depth, path)
  }

  function MaskResult(r: Rules, result: Val): Val {
    if !r.Any() then result
    else match result
      case List(items) => List(MaskItems(r, items, 0, []))
      case Dict(es) => Dict(MaskDoc(r, es, 0, []))
      case _ => result
  }

  /** The masker's walk as it is written: a loop over the entries that fills a new dict. */
  method Mask(r: Rules, doc: seq<Entry>, depth: nat, path: seq<string>) returns (result: seq<Entry>)
    ensures result == MaskDoc(r, doc, depth, path)
    decreases doc
  {
    if !r.Any() {
      return doc;
    }
    if depth > MAX_DEPTH {
      return DEPTH_REDACTION;
    }
    result := [];
    for i := 0 to |doc|
      invariant result + MaskEntries(r, doc[i..], depth, path) == MaskEntries(r, doc, depth, path)
    {
      var k, v := doc[i].key, doc[i].val;
      var cur := path + [k];
      var out := v;
      if r.Hides(k, cur) {
        out := MASK_VALUE;
      } else if v.Dict? {
        var sub := Mask(r, v.entries, depth + 1, cur);
        out := Dict(sub);
      } else if v.List? {
        var sub := MaskList(r, v.items, depth + 1, cur);
        out := List(sub);
      }
      assert out == MaskField(r, k, v, depth, cur);
      MaskFirst(r, doc, i, depth, path);
      result := result + [Entry(k, out)];
    }
  }

  lemma MaskFirst(r: Rules, doc: seq<Entry>, i: nat, depth: nat, path: seq<string>)
    requires i < |doc|
    ensures MaskEntries(r, doc[i..], depth, path)
         == [Entry(doc[i].key, MaskField(r, doc[i].key, doc[i].val, depth, path + [doc[i].key]))]
           + MaskEntries(r, doc[i+1..], depth, path)
  {
    assert doc[i..][0] == doc[i] && doc[i..][1..] == doc[i+1..];
  }

  /** The masker's comprehension over a list. */
  method MaskList(r: Rules, items: seq<Val>, depth: nat, path: seq<string>) returns (out: seq<Val>)
    ensures out == MaskItems(r, items, depth, path)
    decreases items
  {
    out := [];
    for j := 0 to |items|
      invariant out + MaskItems(r, items[j..], depth, path) == MaskItems(r, items, depth, path)
    {
      var item := items[j];
      if item.Dict? {
        var sub := Mask(r, item.entries, depth, path);
        item := Dict(sub);
      }
      assert items[j..][0] == items[j] && items[j..][1..] == items[j+1..];
      out := out + [item];
    }
  }

  // ----------------------------------------------------- fused transformer

  /** `_mask`, `_mask_paths`, `_allow` and `_keep_id`. */
  datatype Transformer = Transformer(rules: Rules, allow: set<string>) {
    predicate Idle() { !rules.Any() && allow == {} }

    predicate KeepId() { "_id" !in allow }

    /** The top-level allow-list, in force at depth 0 only. */
    predicate Visible(depth: nat, key: string) {
      !(depth == 0 && allow != {} && key !in allow && !(KeepId() && key == "_id"))
    }
  }

  function TransformerOf(maskFields: seq<string>, fieldsAllow: seq<string>): Transformer {
    Transformer(RulesOf(maskFields), Elements(fieldsAllow))
  }

  function FuseDoc(t: Transformer, doc: seq<Entry>, depth: nat, path: seq<string>): seq<Entry>
    decreases doc, 2
  {
    if depth > MAX_DEPTH then DEPTH_REDACTION else FuseEntries(t, doc, depth, path)
  }

  function FuseEntries(t: Transformer, es: seq<Entry>, depth: nat, path: seq<string>): seq<Entry>
    decreases es, 1
  {
    if es == [] then []
    else
      var rest := FuseEntries(t, es[1..], depth, path);
      var k := es[0].key;
      if t.Visible(depth, k) then [Entry(k, FuseField(t, k, es[0].val, depth, path + [k]))] + rest else rest
  }

  function FuseField(t: Transformer, key: string, v: Val, depth: nat, cur: seq<string>): Val
    decreases v, 3
  {
    if t.rules.Hides(key, cur) then MASK_VALUE
    else match v
      case Dict(es) => Dict(FuseDoc(t, es, depth + 1, cur))
      case List(items) => List(FuseItems(t, items, depth + 1, cur))
      case _ => v
  }

  function FuseItems(t: Transformer, items: seq<Val>, depth: nat, path: seq<string>): (out: seq<Val>)
    ensures |out| == |items|
    decreases items, 1
  {
    if items == [] then []
    else [if items[0].Dict? then Dict(FuseDoc(t, items[0].entries, depth, path)) else items[0]]
         + FuseItems(t, items[1..], depth, path)
  }

  function Transform(t: Transformer, result: Val): Val {
    if t.Idle() then result
    else match result
      case List(items) => List(FuseItems(t, items, 0, []))
      case Dict(es) => Dict(FuseDoc(t, es, 0, []))
      case _ => result
  }

  method Fuse(t: Transformer, doc: seq<Entry>, depth: nat, path: seq<string>) returns (result: seq<Entry>)
    ensures result == FuseDoc(t, doc, depth, path)
    decreases doc
  {
    if depth > MAX_DEPTH {
      return DEPTH_REDACTION;
    }
    result := [];
    for i := 0 to |doc|
      invariant result + FuseEntries(t, doc[i..], depth, path) == FuseEntries(t, doc, depth, path)
    {
      var k, v := doc[i].key, doc[i].val;
      assert doc[i..][0] == doc[i] && doc[i..][1..] == doc[i+1..];
      if t.Visible(depth, k) {
        var cur := path + [k];
        var out := v;
        if t.rules.Hides(k, cur) {
          out := MASK_VALUE;
        } else if v.Dict? {
          var sub := Fuse(t, v.entries, depth + 1, cur);
          out := Dict(sub);
        } else if v.List? {
          var sub := FuseList(t, v.items, depth + 1, cur);
          out := List(sub);
        }
        assert out == FuseField(t, k, v, depth, cur);
        result := result + [Entry(k, out)];
      }
    }
  }

  method FuseList(t: Transformer, items: seq<Val>, depth: nat, path: seq<string>) returns (out: seq<Val>)
    ensures out == FuseItems(t, items, depth, path)
    decreases items
  {
    out := [];
    for j := 0 to |items|
      invariant out + FuseItems(t, items[j..], depth, path) == FuseItems(t, items, depth, path)
    {
      var item := items[j];
      if item.Dict? {
        var sub := Fuse(t, item.entries, depth, path);
        item := Dict(sub);
      }
      assert items[j..][0] == items[j] && items[j..][1..] == items[j+1..];
      out := out + [item];
    }
  }

  // ---------------------------------------------------------------- fusion

  /** Projection alone: the allow-list applied to a top-level document. */
  function Kept(t: Transformer, doc: seq<Entry>): seq<Entry> {
    if doc == [] then []
    else (if t.Visible(0, doc[0].key) then [doc[0]] else []) + Kept(t, doc[1..])
  }

  function KeptItems(t: Transformer, items: seq<Val>): seq<Val> {
    if items == [] then []
    else [if items[0].Dict? then Dict(Kept(t, items[0].entries)) else items[0]] + KeptItems(t, items[1..])
  }

  function Project(t: Transformer, result: Val): Val {
    match result
    case List(items) => List(KeptItems(t, items))
    case Dict(es) => Dict(Kept(t, es))
    case _ => result
  }

  lemma {:induction false} FieldFuses(t: Transformer, key: string, v: Val, depth: nat, cur: seq<string>)
    requires t.rules.Any()
    ensures FuseField(t, key, v, depth, cur) == MaskField(t.rules, key, v, depth, cur)
    decreases v, 1
  {
    if v.Dict? {
      EntriesFuse(t, v.entries, depth + 1, cur);
    } else if v.List? {
      ItemsFuse(t, v.items, depth + 1, cur);
    }
  }

  lemma {:induction false} EntriesFuse(t: Transformer, es: seq<Entry>, depth: nat, path: seq<string>)
    requires t.rules.Any() && depth > 0
    ensures FuseEntries(t, es, depth, path) == MaskEntries(t.rules, es, depth, path)
    decreases es, 0
  {
    if es != [] {
      FieldFuses(t, es[0].key, es[0].val, depth, path + [es[0].key]);
      EntriesFuse(t, es[1..], depth, path);
    }
  }

  lemma {:induction false} ItemsFuse(t: Transformer, items: seq<Val>, depth: nat, path: seq<string>)
    requires t.rules.Any() && depth > 0
    ensures FuseItems(t, items, depth, path) == MaskItems(t.rules, items, depth, path)
    decreases items, 0
  {
    if items != [] {
      if items[0].Dict? {
        EntriesFuse(t, items[0].entries, depth, path);
      }
      ItemsFuse(t, items[1..], depth, path);
    }
  }

  lemma {:induction false} TopFuses(t: Transformer, doc: seq<Entry>)
    requires t.rules.Any()
    ensures FuseEntries(t, doc, 0, []) == MaskEntries(t.rules, Kept(t, doc), 0, [])
  {
    if doc != [] {
      TopFuses(t, doc[1..]);
      if t.Visible(0, doc[0].key) {
        FieldFuses(t, doc[0].key, doc[0].val, 0, [] + [doc[0].key]);
        assert Kept(t, doc)[1..] == Kept(t, doc[1..]);
      } else {
        assert Kept(t, doc) == Kept(t, doc[1..]);
      }
    }
  }

  lemma {:induction false} TopItemsFuse(t: Transformer, items: seq<Val>)
    requires t.rules.Any()
    ensures FuseItems(t, items, 0, []) == MaskItems(t.rules, KeptItems(t, items), 0, [])
  {
    if items != [] {
      if items[0].Dict? {
        TopFuses(t, items[0].entries);
      }
      TopItemsFuse(t, items[1..]);
      assert KeptItems(t, items)[1..] == KeptItems(t, items[1..]);
    }
  }

  /** The single walk does what the two walks it replaced did, as soon as there is a mask
      rule: first the projection, then the masking, at every nesting. */
  lemma Fusion(t: Transformer, result: Val)
    requires t.rules.Any()
    ensures Transform(t, result) == MaskResult(t.rules, Project(t, result))
  {
    match result
    case List(items) => TopItemsFuse(t, items);
    case Dict(es) => TopFuses(t, es);
    case _ =>
  }

  // ---------------------------------------------------------- fixed points

  /** A value the walk has nothing to do on: hidden keys already carry the mask value, keys
      outside the allow-list are gone, and no document lies beyond the depth bound except
      the redaction itself. Lists nested directly in lists are not looked into. */
  ghost predicate CleanEntries(t: Transformer, es: seq<Entry>, depth: nat, path: seq<string>)
    decreases es, 1
  {
    es != [] ==>
      && t.Visible(depth, es[0].key)
      && CleanField(t, es[0].key, es[0].val, depth, path + [es[0].key])
      && CleanEntries(t, es[1..], depth, path)
  }

  ghost predicate CleanDoc(t: Transformer, doc: seq<Entry>, depth: nat, path: seq<string>)
    decreases doc, 2
  {
    if depth > 25 then doc == [Entry("***", Str("depth-limit-exceeded"))] else CleanEntries(t, doc, depth, path)
  }

  ghost predicate CleanField(t: Transformer, key: string, v: Val, depth: nat, cur: seq<string>)
    decreases v, 3
  {
    if t.rules.Hides(key, cur) then v == Str("***masked***")
    else match v
      case Dict(es) => CleanDoc(t, es, depth + 1, cur)
      case List(items) => CleanItems(t, items, depth + 1, cur)
      case _ => true
  }

  ghost predicate CleanItems(t: Transformer, items: seq<Val>, depth: nat, path: seq<string>)
    decreases items, 1
  {
    items != [] ==>
      && (items[0].Dict? ==> CleanDoc(t, items[0].entries, depth, path))
      && CleanItems(t, items[1..], depth, path)
  }

  ghost predicate Clean(t: Transformer, result: Val) {
    t.Idle() || match result
      case List(items) => CleanItems(t, items, 0, [])
      case Dict(es) => CleanDoc(t, es, 0, [])
      case _ => true
  }

  lemma {:induction false} FieldCleaned(t: Transformer, key: string, v: Val, depth: nat, cur: seq<string>)
    ensures CleanField(t, key, FuseField(t, key, v, depth, cur), depth, cur)
    decreases v, 1
  {
    if !t.rules.Hides(key, cur) {
      if v.Dict? {
        EntriesCleaned(t, v.entries, depth + 1, cur);
      } else if v.List? {
        ItemsCleaned(t, v.items, depth + 1, cur);
      }
    }
  }

  lemma {:induction false} EntriesCleaned(t: Transformer, es: seq<Entry>, depth: nat, path: seq<string>)
    ensures CleanEntries(t, FuseEntries(t, es, depth, path), depth, path)
    decreases es, 0
  {
    if es != [] {
      EntriesCleaned(t, es[1..], depth, path);
      if t.Visible(depth, es[0].key) {
        FieldCleaned(t, es[0].key, es[0].val, depth, path + [es[0].key]);
        var out := FuseEntries(t, es, depth, path);
        assert out[1..] == FuseEntries(t, es[1..], depth, path);
      }
    }
  }

  lemma {:induction false} ItemsCleaned(t: Transformer, items: seq<Val>, depth: nat, path: seq<string>)
    ensures CleanItems(t, FuseItems(t, items, depth, path), depth, path)
    decreases items, 0
  {
    if items != [] {
      if items[0].Dict? {
        EntriesCleaned(t, items[0].entries, depth, path);
      }
      ItemsCleaned(t, items[1..], depth, path);
      assert FuseItems(t, items, depth, path)[1..] == FuseItems(t, items[1..], depth, path);
    }
  }

  lemma {:induction false} FieldFixed(t: Transformer, key: string, v: Val, depth: nat, cur: seq<string>)
    ensures CleanField(t, key, v, depth, cur) <==> FuseField(t, key, v, depth, cur) == v
    decreases v, 1
  {
    if v.Dict? {
      EntriesFixed(t, v.entries, depth + 1, cur);
    } else if v.List? {
      ItemsFixed(t, v.items, depth + 1, cur);
    }
  }

  lemma {:induction false} FuseShrinks(t: Transformer, es: seq<Entry>, depth: nat, path: seq<string>)
    ensures |FuseEntries(t, es, depth, path)| <= |es|
    decreases |es|
  {
    if es != [] {
      FuseShrinks(t, es[1..], depth, path);
    }
  }

  lemma {:induction false} EntriesFixed(t: Transformer, es: seq<Entry>, depth: nat, path: seq<string>)
    ensures CleanEntries(t, es, depth, path) <==> FuseEntries(t, es, depth, path) == es
    decreases es, 0
  {
    if es != [] {
      var k := es[0].key;
      FieldFixed(t, k, es[0].val, depth, path + [k]);
      EntriesFixed(t, es[1..], depth, path);
      FuseShrinks(t, es[1..], depth, path);
      var out := FuseEntries(t, es, depth, path);
      if t.Visible(depth, k) {
        assert out[0] == Entry(k, FuseField(t, k, es[0].val, depth, path + [k]));
        assert out[1..] == FuseEntries(t, es[1..], depth, path);
        assert es == [es[0]] + es[1..];
      }
    }
  }

  lemma {:induction false} ItemsFixed(t: Transformer, items: seq<Val>, depth: nat, path: seq<string>)
    ensures CleanItems(t, items, depth, path) <==> FuseItems(t, items, depth, path) == items
    decreases items, 0
  {
    if items != [] {
      if items[0].Dict? {
        EntriesFixed(t, items[0].entries, depth, path);
      }
      ItemsFixed(t, items[1..], depth, path);
      var out := FuseItems(t, items, depth, path);
      assert out[1..] == FuseItems(t, items[1..], depth, path);
      assert items == [items[0]] + items[1..];
    }
  }

  /** Every output is clean, and the clean values are exactly the fixed points. */
  lemma TransformCleans(t: Transformer, result: Val)
    ensures Clean(t, Transform(t, result))
    ensures Clean(t, result) <==> Transform(t, result) == result
  {
    match result {
      case List(items) =>
        ItemsCleaned(t, items, 0, []);
        ItemsFixed(t, items, 0, []);
      case Dict(es) =>
        EntriesCleaned(t, es, 0, []);
        EntriesFixed(t, es, 0, []);
      case _ =>
    }
  }

  lemma TransformIdempotent(t: Transformer, result: Val)
    ensures Transform(t, Transform(t, result)) == Transform(t, result)
  {
    TransformCleans(t, result);
    TransformCleans(t, Transform(t, result));
  }

  /** Without a mask rule the masker leaves everything alone while the fused walk still
      redacts beyond the depth bound, so there the two agree exactly on the results whose
      projection holds no document beyond it. */
  lemma FusionWithoutRules(t: Transformer, result: Val)
    requires !t.rules.Any()
    ensures Transform(t, result) == MaskResult(t.rules, Project(t, result)) <==> Clean(t, Project(t, result))
  {
    TransformCleans(t, Project(t, result));
    match result {
      case List(items) => ProjectedItems(t, items);
      case Dict(es) => ProjectedDoc(t, es);
      case _ =>
    }
    if t.Idle() {
      IdleProjects(t, result);
    }
  }

  lemma {:induction false} ProjectedDoc(t: Transformer, es: seq<Entry>)
    ensures FuseEntries(t, Kept(t, es), 0, []) == FuseEntries(t, es, 0, [])
  {
    if es != [] {
      ProjectedDoc(t, es[1..]);
      if t.Visible(0, es[0].key) {
        assert Kept(t, es)[1..] == Kept(t, es[1..]);
      } else {
        assert Kept(t, es) == Kept(t, es[1..]);
      }
    }
  }

  lemma {:induction false} ProjectedItems(t: Transformer, items: seq<Val>)
    ensures FuseItems(t, KeptItems(t, items), 0, []) == FuseItems(t, items, 0, [])
  {
    if items != [] {
      if items[0].Dict? {
        ProjectedDoc(t, items[0].entries);
      }
      ProjectedItems(t, items[1..]);
      assert KeptItems(t, items)[1..] == KeptItems(t, items[1..]);
    }
  }

  lemma {:induction false} IdleKeeps(t: Transformer, es: seq<Entry>)
    requires t.Idle()
    ensures Kept(t, es) == es
  {
    if es != [] {
      IdleKeeps(t, es[1..]);
    }
  }

  lemma {:induction false} IdleKeepsItems(t: Transformer, items: seq<Val>)
    requires t.Idle()
    ensures KeptItems(t, items) == items
  {
    if items != [] {
      if items[0].Dict? {
        IdleKeeps(t, items[0].entries);
      }
      IdleKeepsItems(t, items[1..]);
    }
  }

  lemma IdleProjects(t: Transformer, result: Val)
    requires t.Idle()
    ensures Project(t, result) == result
  {
    match result {
      case List(items) => IdleKeepsItems(t, items);
      case Dict(es) => IdleKeeps(t, es);
      case _ =>
    }
  }

  // ------------------------------------------------------- noninterference

  /** Two documents an observer of the output may not tell apart: beyond the depth bound
      anything goes; otherwise, field by field, the values agree unless the field is hidden. */
  ghost predicate AlikeDoc(t: Transformer, a: seq<Entry>, b: seq<Entry>, depth: nat, path: seq<string>)
    decreases a, 2
  {
    depth > 25 || AlikeEntries(t, a, b, depth, path)
  }

  ghost predicate AlikeEntries(t: Transformer, a: seq<Entry>, b: seq<Entry>, depth: nat, path: seq<string>)
    decreases a, 1
  {
    if a == [] then b == []
    else
      && b != [] && a[0].key == b[0].key
      && AlikeField(t, a[0].key, a[0].val, b[0].val, depth, path + [a[0].key])
      && AlikeEntries(t, a[1..], b[1..], depth, path)
  }

  ghost predicate AlikeField(t: Transformer, key: string, u: Val, v: Val, depth: nat, cur: seq<string>)
    decreases u, 3
  {
    t.rules.Hides(key, cur) || match u
      case Dict(es) => v.Dict? && AlikeDoc(t, es, v.entries, depth + 1, cur)
      case List(items) => v.List? && AlikeItems(t, items, v.items, depth + 1, cur)
      case _ => u == v
  }

  ghost predicate AlikeItems(t: Transformer, a: seq<Val>, b: seq<Val>, depth: nat, path: seq<string>)
    decreases a, 1
  {
    if a == [] then b == []
    else
      && b != []
      && (if a[0].Dict? then b[0].Dict? && AlikeDoc(t, a[0].entries, b[0].entries, depth, path) else a[0] == b[0])
      && AlikeItems(t, a[1..], b[1..], depth, path)
  }

  ghost predicate AlikeTopItems(t: Transformer, a: seq<Val>, b: seq<Val>) {
    if a == [] then b == []
    else
      && b != []
      && (if a[0].Dict? then b[0].Dict? && AlikeEntries(t, Kept(t, a[0].entries), Kept(t, b[0].entries), 0, [])
          else a[0] == b[0])
      && AlikeTopItems(t, a[1..], b[1..])
  }

  /** Two results that differ only in what the transformer is to hide: fields outside the
      allow-list, hidden fields, and documents beyond the depth bound. */
  ghost predicate Alike(t: Transformer, a: Val, b: Val) {
    if t.Idle() then a == b
    else match a
      case List(items) => b.List? && AlikeTopItems(t, items, b.items)
      case Dict(es) => b.Dict? && AlikeEntries(t, Kept(t, es), Kept(t, b.entries), 0, [])
      case _ => a == b
  }

  lemma {:induction false} FieldHides(t: Transformer, key: string, u: Val, v: Val, depth: nat, cur: seq<string>)
    ensures FuseField(t, key, u, depth, cur) == FuseField(t, key, v, depth, cur)
       <==> AlikeField(t, key, u, v, depth, cur)
    decreases u, 1
  {
    if u.Dict? && v.Dict? {
      if depth + 1 <= MAX_DEPTH {
        EntriesHide(t, u.entries, v.entries, depth + 1, cur);
      }
    } else if u.List? && v.List? {
      ItemsHide(t, u.items, v.items, depth + 1, cur);
    }
  }

  /** Below the top level nothing is projected away; at the top level this is used on
      documents already projected. */
  lemma {:induction false} EntriesHide(t: Transformer, a: seq<Entry>, b: seq<Entry>, depth: nat, path: seq<string>)
    requires forall e :: e in a || e in b ==> t.Visible(depth, e.key)
    ensures FuseEntries(t, a, depth, path) == FuseEntries(t, b, depth, path)
       <==> AlikeEntries(t, a, b, depth, path)
    decreases a, 0
  {
    if a != [] && b != [] {
      var ka, kb := a[0].key, b[0].key;
      assert a[0] in a && b[0] in b;
      FieldHides(t, ka, a[0].val, b[0].val, depth, path + [ka]);
      EntriesHide(t, a[1..], b[1..], depth, path);
      var oa, ob := FuseEntries(t, a, depth, path), FuseEntries(t, b, depth, path);
      assert oa[0] == Entry(ka, FuseField(t, ka, a[0].val, depth, path + [ka]));
      assert ob[0] == Entry(kb, FuseField(t, kb, b[0].val, depth, path + [kb]));
      assert oa[1..] == FuseEntries(t, a[1..], depth, path);
      assert ob[1..] == FuseEntries(t, b[1..], depth, path);
      assert oa == [oa[0]] + oa[1..] && ob == [ob[0]] + ob[1..];
    } else if a != [] {
      assert a[0] in a;
    } else if b != [] {
      assert b[0] in b;
    }
  }

  lemma {:induction false} ItemsHide(t: Transformer, a: seq<Val>, b: seq<Val>, depth: nat, path: seq<string>)
    requires depth > 0
    ensures FuseItems(t, a, depth, path) == FuseItems(t, b, depth, path)
       <==> AlikeItems(t, a, b, depth, path)
    decreases a, 0
  {
    if a != [] && b != [] {
      if a[0].Dict? && b[0].Dict? && depth <= MAX_DEPTH {
        EntriesHide(t, a[0].entries, b[0].entries, depth, path);
      }
      ItemsHide(t, a[1..], b[1..], depth, path);
      var oa, ob := FuseItems(t, a, depth, path), FuseItems(t, b, depth, path);
      assert oa[1..] == FuseItems(t, a[1..], depth, path);
      assert ob[1..] == FuseItems(t, b[1..], depth, path);
      assert oa == [oa[0]] + oa[1..] && ob == [ob[0]] + ob[1..];
    }
  }

  lemma {:induction false} KeptVisible(t: Transformer, es: seq<Entry>)
    ensures forall e :: e in Kept(t, es) ==> t.Visible(0, e.key)
  {
    if es != [] {
      KeptVisible(t, es[1..]);
    }
  }

  lemma TopHides(t: Transformer, a: seq<Entry>, b: seq<Entry>)
    ensures FuseEntries(t, a, 0, []) == FuseEntries(t, b, 0, [])
       <==> AlikeEntries(t, Kept(t, a), Kept(t, b), 0, [])
  {
    ProjectedDoc(t, a);
    ProjectedDoc(t, b);
    KeptVisible(t, a);
    KeptVisible(t, b);
    EntriesHide(t, Kept(t, a), Kept(t, b), 0, []);
  }

  lemma {:induction false} TopItemsHide(t: Transformer, a: seq<Val>, b: seq<Val>)
    ensures FuseItems(t, a, 0, []) == FuseItems(t, b, 0, []) <==> AlikeTopItems(t, a, b)
  {
    if a != [] && b != [] {
      if a[0].Dict? && b[0].Dict? {
        TopHides(t, a[0].entries, b[0].entries);
      }
      TopItemsHide(t, a[1..], b[1..]);
      var oa, ob := FuseItems(t, a, 0, []), FuseItems(t, b, 0, []);
      assert oa[1..] == FuseItems(t, a[1..], 0, []);
      assert ob[1..] == FuseItems(t, b[1..], 0, []);
      assert oa == [oa[0]] + oa[1..] && ob == [ob[0]] + ob[1..];
    }
  }

  /** Noninterference, in both directions: two results transform to the same output exactly
      when they differ only in what is to be hidden. */
  lemma HidesExactly(t: Transformer, a: Val, b: Val)
    ensures Transform(t, a) == Transform(t, b) <==> Alike(t, a, b)
  {
    if !t.Idle() {
      if a.List? && b.List? {
        TopItemsHide(t, a.items, b.items);
      } else if a.Dict? && b.Dict? {
        TopHides(t, a.entries, b.entries);
      }
    }
  }
}
