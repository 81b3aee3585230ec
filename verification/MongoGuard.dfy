/** What an aggregation pipeline may reach: the walkers that look for banned operators, for the
    other collections a pipeline reads and for masked fields it refers to. */
module MongoGuard {
  import opened Common
  import opened Values

  const BANNED := {"$where", "$function", "$accumulator", "$out", "$merge"}
  const ALLOWED_STAGES := {
    "$match", "$group", "$project", "$sort", "$limit", "$skip", "$unwind", "$lookup", "$count", "$facet", "$bucket",
    "$bucketAuto",
    "$sortByCount", "$addFields", "$replaceRoot", "$replaceWith", "$sample", "$geoNear", "$graphLookup", "$unionWith"
  }
  const BANNED_STAGES := {"$out", "$merge", "$function", "$accumulator"}

  // ------------------------------------------------------ banned operators

  /** Some key of a dict at any depth satisfies `bad`. */
  ghost predicate KeyOccurs(node: Val, bad: string -> bool)
    decreases node
  {
    match node
    case Dict(es) => exists i :: 0 <= i < |es| && (bad(es[i].key) || KeyOccurs(es[i].val, bad))
    case List(items) => exists i :: 0 <= i < |items| && KeyOccurs(items[i], bad)
    case _ => false
  }

  predicate IsBanned(key: string) { key in BANNED }

  /** Operators that run code or write. */
  predicate RunsOrWrites(key: string) {
    key == "$where" || key == "$function" || key == "$accumulator" || key == "$out" || key == "$merge"
  }

  /** `has_dangerous_operators` */
  method Dangerous(node: Val) returns (found: bool)
    ensures found <==> KeyOccurs(node, RunsOrWrites)
    decreases node
  {
    match node {
      case Dict(es) =>
        for i := 0 to |es|
          invariant forall j :: 0 <= j < i ==> !RunsOrWrites(es[j].key)
        {
          if IsBanned(es[i].key) {
            return true;
          }
        }
        for i := 0 to |es|
          invariant forall j :: 0 <= j < i ==> !KeyOccurs(es[j].val, RunsOrWrites)
        {
          found := Dangerous(es[i].val);
          if found {
            return;
          }
        }
        return false;
      case List(items) =>
        for i := 0 to |items|
          invariant forall j :: 0 <= j < i ==> !KeyOccurs(items[j], RunsOrWrites)
        {
          found := Dangerous(items[i]);
          if found {
            return;
          }
        }
        return false;
      case _ => return false;
    }
  }

  /** The stages that only read. */
  predicate Listed(op: string) {
    || op == "$match" || op == "$group" || op == "$project" || op == "$sort" || op == "$limit" || op == "$skip"
    || op == "$unwind" || op == "$lookup" || op == "$count" || op == "$facet" || op == "$bucket" || op == "$bucketAuto"
    || op == "$sortByCount" || op == "$addFields" || op == "$replaceRoot" || op == "$replaceWith" || op == "$sample"
    || op == "$geoNear" || op == "$graphLookup" || op == "$unionWith"
  }

  ghost predicate ValidStage(stage: Val) {
    && stage.Dict? && |stage.entries| == 1 && Listed(stage.entries[0].key)
    && !KeyOccurs(stage, RunsOrWrites)
  }

  /** `validate_pipeline_stages`: the index of the first stage that is refused. What passes has
      only listed stages and no banned operator at any depth. */
  method ValidateStages(stages: seq<Val>) returns (bad: Option<nat>)
    ensures bad.None? <==> forall i :: 0 <= i < |stages| ==> ValidStage(stages[i])
    ensures bad.Some? ==> bad.value < |stages| && !ValidStage(stages[bad.value])
    ensures bad.Some? ==> forall i :: 0 <= i < bad.value ==> ValidStage(stages[i])
  {
    for i := 0 to |stages|
      invariant forall j :: 0 <= j < i ==> ValidStage(stages[j])
    {
      var stage := stages[i];
      if !stage.Dict? || |stage.entries| != 1 {
        return Some(i);
      }
      var op := stage.entries[0].key;
      if op in BANNED_STAGES || op !in ALLOWED_STAGES {
        assert "$out" !in ALLOWED_STAGES && "$merge" !in ALLOWED_STAGES;
        assert "$function" !in ALLOWED_STAGES && "$accumulator" !in ALLOWED_STAGES;
        return Some(i);
      }
      var bad := Dangerous(stage.entries[0].val);
      if bad {
        return Some(i);
      }
      assert "$where" !in ALLOWED_STAGES;
    }
    return None;
  }

  // --------------------------------------------------- foreign collections

  predicate NamesForeign(e: Entry) { e.key in {"$unionWith", "from", "coll"} && e.val.Str? }

  /** `extract_pipeline_collections` */
  function Collections(node: Val): set<string>
    decreases node, 0
  {
    match node
    case Dict(es) => InEntries(es)
    case List(items) => InItems(items)
    case _ => {}
  }

  function InEntries(es: seq<Entry>): set<string>
    decreases es, 1
  {
    if es == [] then {}
    else (if NamesForeign(es[0]) then {es[0].val.s} else Collections(es[0].val)) + InEntries(es[1..])
  }

  function InItems(items: seq<Val>): set<string>
    decreases items, 1
  {
    if items == [] then {} else Collections(items[0]) + InItems(items[1..])
  }

  /** The walk as it is written: nested calls add to one set. */
  method Walk(node: Val, found: set<string>) returns (out: set<string>)
    ensures out == found + Collections(node)
    decreases node
  {
    out := found;
    match node {
      case Dict(es) =>
        assert es[0..] == es;
        for i := 0 to |es|
          invariant out + InEntries(es[i..]) == found + InEntries(es)
        {
          assert es[i..][0] == es[i] && es[i..][1..] == es[i+1..];
          if NamesForeign(es[i]) {
            out := out + {es[i].val.s};
          } else {
            out := Walk(es[i].val, out);
          }
        }
      case List(items) =>
        assert items[0..] == items;
        for i := 0 to |items|
          invariant out + InItems(items[i..]) == found + InItems(items)
        {
          assert items[i..][0] == items[i] && items[i..][1..] == items[i+1..];
          out := Walk(items[i], out);
        }
      case _ =>
    }
  }

  /** The entry gives a collection by its name. */
  predicate Names(e: Entry, c: string) { (e.key == "from" || e.key == "coll" || e.key == "$unionWith") && e.val == Str(c) }

  /** Somewhere in the value, a key that names a collection holds the string `c`. */
  ghost predicate Mentions(node: Val, c: string)
    decreases node
  {
    match node
    case Dict(es) =>
      exists i :: 0 <= i < |es| && (Names(es[i], c) || Mentions(es[i].val, c))
    case List(items) => exists i :: 0 <= i < |items| && Mentions(items[i], c)
    case _ => false
  }

  lemma {:induction false} InEntriesExact(es: seq<Entry>, c: string)
    ensures c in InEntries(es)
      <==> exists i :: 0 <= i < |es| && (Names(es[i], c) || Mentions(es[i].val, c))
    decreases es, 1
  {
    if es != [] {
      InEntriesExact(es[1..], c);
      CollectionsExact(es[0].val, c);
      assert forall i :: 0 <= i < |es[1..]| ==> es[1..][i] == es[i + 1];
      assert forall i :: 0 < i < |es| ==> es[i] == es[1..][i - 1];
    }
  }

  lemma {:induction false} InItemsExact(items: seq<Val>, c: string)
    ensures c in InItems(items) <==> exists i :: 0 <= i < |items| && Mentions(items[i], c)
    decreases items, 1
  {
    if items != [] {
      InItemsExact(items[1..], c);
      CollectionsExact(items[0], c);
      assert forall i :: 0 <= i < |items[1..]| ==> items[1..][i] == items[i + 1];
      assert forall i :: 0 < i < |items| ==> items[i] == items[1..][i - 1];
    }
  }

  /** The set is exactly the strings that stand under a naming key at any depth. */
  lemma {:induction false} CollectionsExact(node: Val, c: string)
    ensures c in Collections(node) <==> Mentions(node, c)
    decreases node, 0
  {
    match node
    case Dict(es) => InEntriesExact(es, c);
    case List(items) => InItemsExact(items, c);
    case _ =>
  }

  // ----------------------------------------- what the server would read

  /** A collection given by name, or by database and name. */
  function SourceOf(v: Val): set<string> {
    match v
    case Str(s) => {s}
    case Dict(es) => if Lookup(es, "coll").Str? then {Lookup(es, "coll").s} else {}
    case _ => {}
  }

  function FieldOf(spec: Val, key: string): Val { if spec.Dict? then Lookup(spec.entries, key) else Null }

  lemma {:induction false} LookupSmaller(es: seq<Entry>, key: string)
    ensures Lookup(es, key) == Null || exists i :: 0 <= i < |es| && es[i].key == key && es[i].val == Lookup(es, key)
  {
    if es != [] && es[0].key != key {
      LookupSmaller(es[1..], key);
      if i :| 0 <= i < |es[1..]| && es[1..][i].key == key && es[1..][i].val == Lookup(es[1..], key) {
        assert es[i + 1] == es[1..][i];
      }
    }
  }

  /** Nesting depth, to unfold a pipeline by. */
  function Height(v: Val): nat
    decreases v, 0
  {
    match v
    case Dict(es) => 1 + EntriesHeight(es)
    case List(items) => 1 + ItemsHeight(items)
    case _ => 0
  }

  function EntriesHeight(es: seq<Entry>): nat
    decreases es, 1
  {
    if es == [] then 0 else Max(Height(es[0].val), EntriesHeight(es[1..]))
  }

  function ItemsHeight(items: seq<Val>): nat
    decreases items, 1
  {
    if items == [] then 0 else Max(Height(items[0]), ItemsHeight(items[1..]))
  }

  function Max(a: nat, b: nat): nat { if a >= b then a else b }

  lemma {:induction false} LookupHeight(es: seq<Entry>, key: string)
    ensures Height(Lookup(es, key)) <= EntriesHeight(es)
  {
    if es != [] { LookupHeight(es[1..], key); }
  }

  lemma FieldHeight(spec: Val, key: string)
    ensures spec.Dict? ==> Height(FieldOf(spec, key)) < Height(spec)
    ensures Height(FieldOf(spec, key)) <= Height(spec)
  {
    if spec.Dict? { LookupHeight(spec.entries, key); }
  }

  /** The collections a pipeline reads beside its own: `$lookup` and `$graphLookup` read `from`,
      `$unionWith` reads the name it is given or its `coll`, and the sub-pipelines of `$lookup`,
      `$unionWith` and `$facet` read what their stages read. */
  ghost function PipelineReads(pipeline: Val): set<string>
    decreases Height(pipeline), 1, 0
  {
    if pipeline.List? then StagesRead(pipeline.items) else {}
  }

  ghost function StagesRead(stages: seq<Val>): set<string>
    decreases 1 + ItemsHeight(stages), 0, |stages|
  {
    if stages == [] then {} else StageReads(stages[0]) + StagesRead(stages[1..])
  }

  ghost function StageReads(stage: Val): set<string>
    decreases Height(stage), 2, 0
  {
    if stage.Dict? then OpsRead(stage.entries) else {}
  }

  ghost function OpsRead(es: seq<Entry>): set<string>
    decreases 1 + EntriesHeight(es), 1, |es|
  {
    if es == [] then {} else OpReads(es[0].key, es[0].val) + OpsRead(es[1..])
  }

  ghost function OpReads(op: string, spec: Val): set<string>
    decreases Height(spec), 3, 0
  {
    FieldHeight(spec, "pipeline");
    if op == "$lookup"
      then SourceOf(FieldOf(spec, "from")) + (if spec.Dict? then PipelineReads(FieldOf(spec, "pipeline")) else {})
    else if op == "$graphLookup" then SourceOf(FieldOf(spec, "from"))
    else if op == "$unionWith" then SourceOf(spec) + (if spec.Dict? then PipelineReads(FieldOf(spec, "pipeline")) else {})
    else if op == "$facet" && spec.Dict? then FacetsRead(spec.entries)
    else {}
  }

  ghost function FacetsRead(es: seq<Entry>): set<string>
    decreases 1 + EntriesHeight(es), 0, |es|
  {
    if es == [] then {} else PipelineReads(es[0].val) + FacetsRead(es[1..])
  }

  lemma {:induction false} LookupFound(es: seq<Entry>, key: string)
    requires key == "from" || key == "coll" || key == "pipeline"
    ensures (if key != "pipeline" then SourceOf(Lookup(es, key)) else Collections(Lookup(es, key))) <= InEntries(es)
  {
    if es != [] {
      LookupFound(es[1..], key);
      if es[0].key == key {
        if key != "pipeline" { SourceFound(es[0]); } else { assert !NamesForeign(es[0]); }
      }
    }
  }

  lemma SourceFound(e: Entry)
    requires e.key == "from" || e.key == "coll" || e.key == "$unionWith"
    ensures SourceOf(e.val) <= InEntries([e])
  {
    assert InEntries([e]) == if NamesForeign(e) then {e.val.s} else Collections(e.val);
    if e.val.Dict? { CollFound(e.val.entries); }
  }

  lemma {:induction false} CollFound(es: seq<Entry>)
    ensures Lookup(es, "coll").Str? ==> Lookup(es, "coll").s in InEntries(es)
  {
    if es != [] { CollFound(es[1..]); }
  }

  lemma {:induction false} OpFound(e: Entry)
    ensures OpReads(e.key, e.val) <= InEntries([e])
    decreases Height(e.val), 3, 0
  {
    var spec := e.val;
    assert InEntries([e]) == if NamesForeign(e) then {e.val.s} else Collections(e.val);
    FieldHeight(spec, "pipeline");
    if spec.Dict? {
      assert !NamesForeign(e);
      LookupFound(spec.entries, "from");
      LookupFound(spec.entries, "pipeline");
      if e.key == "$lookup" || e.key == "$unionWith" { PipelineFound(FieldOf(spec, "pipeline")); }
      if e.key == "$unionWith" { SourceFound(e); }
      if e.key == "$facet" { FacetsFound(spec.entries); }
    }
  }

  lemma {:induction false} FacetsFound(es: seq<Entry>)
    ensures FacetsRead(es) <= InEntries(es)
    decreases 1 + EntriesHeight(es), 0, |es|
  {
    if es != [] {
      PipelineFound(es[0].val);
      FacetsFound(es[1..]);
      if NamesForeign(es[0]) { assert PipelineReads(es[0].val) == {}; }
    }
  }

  lemma {:induction false} OpsFound(es: seq<Entry>)
    ensures OpsRead(es) <= InEntries(es)
    decreases 1 + EntriesHeight(es), 1, |es|
  {
    if es != [] {
      OpFound(es[0]);
      OpsFound(es[1..]);
      assert [es[0]][1..] == [];
      assert InEntries([es[0]]) <= InEntries(es);
    }
  }

  lemma {:induction false} StagesFound(stages: seq<Val>)
    ensures StagesRead(stages) <= InItems(stages)
    decreases 1 + ItemsHeight(stages), 0, |stages|
  {
    if stages != [] {
      assert Height(stages[0]) <= ItemsHeight(stages);
      if stages[0].Dict? { OpsFound(stages[0].entries); }
      StagesFound(stages[1..]);
    }
  }

  /** Every collection the pipeline would read, at any nesting, is found. */
  lemma {:induction false} PipelineFound(pipeline: Val)
    ensures PipelineReads(pipeline) <= Collections(pipeline)
    decreases Height(pipeline), 1, 0
  {
    if pipeline.List? { StagesFound(pipeline.items); }
  }

  // ------------------------------------------------ masked-field references

  function StripDollars(s: string): string { if s != "" && s[0] == '$' then StripDollars(s[1..]) else s }

  /** The first component of a field path such as `$email.domain` or `$$ROOT`. */
  function PathHead(s: string): string { SplitDots(StripDollars(s))[0] }

  /** One or more dollar signs, the field, and nothing more or a dot. */
  ghost predicate RefersTo(s: string, field: string) {
    && '.' !in field && (field == "" || field[0] != '$')
    && exists k :: 0 < k <= |s| - |field| && (forall i :: 0 <= i < k ==> s[i] == '$') && HeadAt(s, k, field)
  }

  predicate HeadAt(s: string, k: nat, field: string)
    requires k + |field| <= |s|
  {
    s[k..k + |field|] == field && (k + |field| == |s| || s[k + |field|] == '.')
  }

  lemma {:induction false} Stripped(s: string) returns (k: nat)
    ensures k <= |s| && StripDollars(s) == s[k..] && (forall i :: 0 <= i < k ==> s[i] == '$') && (k < |s| ==> s[k] != '$')
  {
    if s != "" && s[0] == '$' {
      var n := Stripped(s[1..]);
      k := n + 1;
      assert s[1..][n..] == s[k..];
      forall i | 0 <= i < k ensures s[i] == '$' {
        if i > 0 { assert s[i] == s[1..][i - 1]; }
      }
    } else {
      k := 0;
    }
  }

  lemma {:induction false} HeadExactly(s: string, field: string)
    ensures SplitDots(s)[0] == field <==> '.' !in field && |field| <= |s| && HeadAt(s, 0, field)
  {
    if s != "" && s[0] != '.' {
      var rest := SplitDots(s[1..])[0];
      HeadExactly(s[1..], rest);
      assert SplitDots(s)[0] == [s[0]] + rest;
      assert s == [s[0]] + s[1..];
      if field != "" {
        HeadExactly(s[1..], field[1..]);
        assert field == [field[0]] + field[1..];
        if |field| <= |s| { assert s[0..|field|] == [s[0]] + s[1..][0..|field| - 1]; }
      }
    } else if field != "" && s != "" {
      assert field[0] in field;
      assert |field| <= |s| ==> s[0..|field|][0] == '.';
    }
  }

  /** The head of a path is the field after its dollar signs, up to the first dot. */
  lemma PathHeadExactly(s: string, field: string)
    ensures s != "" && s[0] == '$' && PathHead(s) == field <==> RefersTo(s, field)
  {
    var k := Stripped(s);
    var path := s[k..];
    HeadExactly(path, field);
    if s != "" && s[0] == '$' && PathHead(s) == field {
      assert path[0..|field|] == s[k..k + |field|];
      assert HeadAt(s, k, field);
    }
    if RefersTo(s, field) {
      var n :| 0 < n <= |s| - |field| && (forall i :: 0 <= i < n ==> s[i] == '$') && HeadAt(s, n, field);
      SameStart(s, field, n, k);
      assert path[0..|field|] == s[k..k + |field|];
    }
  }

  /** There is one place where the dollar signs end. */
  lemma SameStart(s: string, field: string, n: nat, k: nat)
    requires 0 < n <= |s| - |field| && (forall i :: 0 <= i < n ==> s[i] == '$') && HeadAt(s, n, field)
    requires '.' !in field && (field == "" || field[0] != '$')
    requires k <= |s| && (forall i :: 0 <= i < k ==> s[i] == '$') && (k < |s| ==> s[k] != '$')
    ensures n == k
  {
    if field != "" { assert s[n] == s[n..n + |field|][0] == field[0]; }
  }

  /** `find_masked_field_references` */
  function MaskedRefs(node: Val, masked: set<string>): set<string>
    decreases node, 0
  {
    match node
    case Str(s) => if s != "" && s[0] == '$' && PathHead(s) in masked then {PathHead(s)} else {}
    case Dict(es) => RefsInEntries(es, masked)
    case List(items) => RefsInItems(items, masked)
    case _ => {}
  }

  function RefsInEntries(es: seq<Entry>, masked: set<string>): set<string>
    decreases es, 1
  {
    if es == [] then {} else MaskedRefs(es[0].val, masked) + RefsInEntries(es[1..], masked)
  }

  function RefsInItems(items: seq<Val>, masked: set<string>): set<string>
    decreases items, 1
  {
    if items == [] then {} else MaskedRefs(items[0], masked) + RefsInItems(items[1..], masked)
  }

  method WalkRefs(node: Val, masked: set<string>, hits: set<string>) returns (out: set<string>)
    ensures out == hits + MaskedRefs(node, masked)
    decreases node
  {
    out := hits;
    match node {
      case Str(s) =>
        if s != "" && s[0] == '$' && PathHead(s) in masked {
          out := out + {PathHead(s)};
        }
      case Dict(es) =>
        assert es[0..] == es;
        for i := 0 to |es|
          invariant out + RefsInEntries(es[i..], masked) == hits + RefsInEntries(es, masked)
        {
          assert es[i..][0] == es[i] && es[i..][1..] == es[i+1..];
          out := WalkRefs(es[i].val, masked, out);
        }
      case List(items) =>
        assert items[0..] == items;
        for i := 0 to |items|
          invariant out + RefsInItems(items[i..], masked) == hits + RefsInItems(items, masked)
        {
          assert items[i..][0] == items[i] && items[i..][1..] == items[i+1..];
          out := WalkRefs(items[i], masked, out);
        }
      case _ =>
    }
  }

  /** Some string value in the node, at any depth, is a path whose first component is `field`. */
  ghost predicate Refers(node: Val, field: string)
    decreases node
  {
    match node
    case Str(s) => RefersTo(s, field)
    case Dict(es) => exists i :: 0 <= i < |es| && Refers(es[i].val, field)
    case List(items) => exists i :: 0 <= i < |items| && Refers(items[i], field)
    case _ => false
  }

  lemma {:induction false} RefsInEntriesExact(es: seq<Entry>, masked: set<string>, field: string)
    ensures field in RefsInEntries(es, masked) <==> field in masked && exists i :: 0 <= i < |es| && Refers(es[i].val, field)
    decreases es, 1
  {
    if es != [] {
      RefsInEntriesExact(es[1..], masked, field);
      MaskedRefsExact(es[0].val, masked, field);
      assert forall i :: 0 <= i < |es[1..]| ==> es[1..][i] == es[i + 1];
      assert forall i :: 0 < i < |es| ==> es[i] == es[1..][i - 1];
    }
  }

  lemma {:induction false} RefsInItemsExact(items: seq<Val>, masked: set<string>, field: string)
    ensures field in RefsInItems(items, masked) <==> field in masked && exists i :: 0 <= i < |items| && Refers(items[i], field)
    decreases items, 1
  {
    if items != [] {
      RefsInItemsExact(items[1..], masked, field);
      MaskedRefsExact(items[0], masked, field);
      assert forall i :: 0 <= i < |items[1..]| ==> items[1..][i] == items[i + 1];
      assert forall i :: 0 < i < |items| ==> items[i] == items[1..][i - 1];
    }
  }

  /** A masked field is reported exactly when some path in the pipeline starts with it. */
  lemma {:induction false} MaskedRefsExact(node: Val, masked: set<string>, field: string)
    ensures field in MaskedRefs(node, masked) <==> field in masked && Refers(node, field)
    decreases node, 0
  {
    match node
    case Str(s) => PathHeadExactly(s, field);
    case Dict(es) => RefsInEntriesExact(es, masked, field);
    case List(items) => RefsInItemsExact(items, masked, field);
    case _ =>
  }

  /** The look-out sees the first component only: a masked field further down a path is not
      reported. */
  lemma OnlyHeadsAreSeen()
    ensures MaskedRefs(Str("$user.ssn"), {"ssn"}) == {}
  {
    assert PathHead("$user.ssn") == "user" by {
      assert StripDollars("$user.ssn") == "user.ssn";
      assert SplitDots(".ssn")[0] == "";
      assert SplitDots("r.ssn")[0] == "r";
      assert SplitDots("er.ssn")[0] == "er";
      assert SplitDots("ser.ssn")[0] == "ser";
    }
  }
}
