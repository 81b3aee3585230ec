/** A policy, what it says for one collection of one database, and the transformers it caches. */
module Policies {
  import opened Common
  import opened Masking

  datatype Access = Access(allow: seq<string>, deny: seq<string>)

  const NoAccess := Access([], [])

  /** Mask fields are one list for every collection, or a list per collection with "*" for all. */
  datatype MaskFields = Everywhere(fields: seq<string>) | PerCollection(buckets: map<string, seq<string>>) {
    predicate Given() { if Everywhere? then fields != [] else buckets != map[] }

    function Bucket(name: string): seq<string>
      requires PerCollection?
    {
      if name in buckets then buckets[name] else []
    }
  }

  datatype Scope = Scope(collections: Access, maskFields: MaskFields, fieldsAllow: seq<string>)

  datatype Mode = ReadOnly | ReadWrite

  /** A point in time; a datetime without a zone is read as UTC but equals no aware one. */
  datatype Moment = Moment(utc: int, aware: bool)

  datatype CostLevel = LowCost | MediumCost | HighCost | CriticalCost | UnknownCost

  datatype Policy = Policy(
    apiVersion: string, agent: string, base: Option<string>, notBefore: Option<Moment>, notAfter: Option<Moment>, mode: Mode,
    collections: Access, databasesAllow: seq<string>, databases: map<string, Scope>, defaultScope: Option<Scope>,
    actions: Access, maskFields: MaskFields, fieldsAllow: seq<string>, connectionsAllow: seq<string>,
    approveHigh: bool, approveCritical: bool, maxCost: Option<CostLevel>)

  // ---------------------------------------------------- order-preserving union

  function AddAll(seen: seq<string>, xs: seq<string>): seq<string>
    decreases |xs|
  {
    if xs == [] then seen else AddAll(if xs[0] in seen then seen else seen + [xs[0]], xs[1..])
  }

  function Union(a: seq<string>, b: seq<string>): seq<string> { AddAll(AddAll([], a), b) }

  method UnionOf(a: seq<string>, b: seq<string>) returns (seen: seq<string>)
    ensures seen == Union(a, b)
  {
    seen := [];
    assert a[0..] == a && b[0..] == b;
    for i := 0 to |a|
      invariant AddAll(seen, a[i..]) == AddAll([], a)
    {
      assert a[i..][0] == a[i] && a[i..][1..] == a[i+1..];
      if a[i] !in seen {
        seen := seen + [a[i]];
      }
    }
    for i := 0 to |b|
      invariant AddAll(seen, b[i..]) == Union(a, b)
    {
      assert b[i..][0] == b[i] && b[i..][1..] == b[i+1..];
      if b[i] !in seen {
        seen := seen + [b[i]];
      }
    }
  }

  lemma {:induction false} AddAllKeeps(seen: seq<string>, xs: seq<string>)
    ensures seen <= AddAll(seen, xs)
    ensures forall x :: x in AddAll(seen, xs) <==> x in seen || x in xs
    ensures NoDup(seen) ==> NoDup(AddAll(seen, xs))
    decreases |xs|
  {
    if xs != [] {
      AddAllKeeps(if xs[0] in seen then seen else seen + [xs[0]], xs[1..]);
      assert xs == [xs[0]] + xs[1..];
    }
  }

  /** The union holds what either list holds, each item once, those of the first list first. */
  lemma UnionMeans(a: seq<string>, b: seq<string>)
    ensures forall x :: x in Union(a, b) <==> x in a || x in b
    ensures NoDup(Union(a, b)) && AddAll([], a) <= Union(a, b)
  {
    AddAllKeeps([], a);
    AddAllKeeps(AddAll([], a), b);
  }

  // ------------------------------------------------------------------ scopes

  predicate HasDbConfig(p: Policy) { p.databases != map[] || p.defaultScope.Some? }

  predicate DatabasePermitted(p: Policy, database: Option<string>) {
    database.None? || p.databasesAllow == [] || database.value in p.databasesAllow
  }

  function FlatScope(p: Policy): Scope { Scope(p.collections, p.maskFields, p.fieldsAllow) }

  /** `scope_for`: each part of a database's block replaces the flat one only if it says anything. */
  function ScopeFor(p: Policy, database: Option<string>): Scope {
    if database.None? || !HasDbConfig(p) then FlatScope(p)
    else
      var block := if database.value in p.databases then Some(p.databases[database.value]) else p.defaultScope;
      if block.None? then FlatScope(p)
      else
        var b := block.value;
        Scope(if b.collections.allow != [] || b.collections.deny != [] then b.collections else p.collections,
              if b.maskFields.Given() then b.maskFields else p.maskFields,
              if b.fieldsAllow != [] then b.fieldsAllow else p.fieldsAllow)
  }

  function FieldsFor(mf: MaskFields, collection: string): seq<string> {
    match mf
    case Everywhere(fields) => fields
    case PerCollection(_) => Union(mf.Bucket("*"), mf.Bucket(collection))
  }

  function MaskFieldsFor(p: Policy, collection: string, database: Option<string>): seq<string> {
    FieldsFor(ScopeFor(p, database).maskFields, collection)
  }

  predicate Permitted(name: string, a: Access) { name !in a.deny && ("*" in a.allow || name in a.allow) }

  // -------------------------------------- what a policy says about a database

  /** The rules a policy has for a database: those under its name, else the default ones. */
  function BlockFor(p: Policy, database: Option<string>): Option<Scope> {
    match database
    case None => None
    case Some(d) => if d in p.databases then Some(p.databases[d]) else p.defaultScope
  }

  /** The collection may be read there: by the lists of the database's block if it has any, by those
      of the policy otherwise. What is denied is out, and what is not allowed is out. */
  predicate InBounds(p: Policy, database: Option<string>, c: string) {
    match BlockFor(p, database)
    case Some(Scope(Access(allow, deny), _, _)) =>
      if allow == [] && deny == []
      then c !in p.collections.deny && (c in p.collections.allow || "*" in p.collections.allow)
      else c !in deny && (c in allow || "*" in allow)
    case None => c !in p.collections.deny && (c in p.collections.allow || "*" in p.collections.allow)
  }

  /** One list hides its fields in every collection; of several, that of all collections and the
      collection's own do. */
  predicate Covers(mf: MaskFields, collection: string, field: string) {
    match mf
    case Everywhere(fields) => field in fields
    case PerCollection(buckets) =>
      ("*" in buckets && field in buckets["*"]) || (collection in buckets && field in buckets[collection])
  }

  /** The field is masked there: by the block's mask fields if it has any, else by the policy's. */
  predicate MaskedIn(p: Policy, database: Option<string>, collection: string, field: string) {
    match BlockFor(p, database)
    case Some(Scope(_, mf, _)) =>
      Covers(if mf == Everywhere([]) || mf == PerCollection(map[]) then p.maskFields else mf, collection, field)
    case None => Covers(p.maskFields, collection, field)
  }

  /** The top-level key of a result is passed on: there is no list of fields, or the key is listed,
      or it is the id. The block's list counts if it has one. */
  predicate VisibleIn(p: Policy, database: Option<string>, key: string) {
    match BlockFor(p, database)
    case Some(Scope(_, _, fields)) =>
      key == "_id" || (if fields != [] then key in fields else p.fieldsAllow == [] || key in p.fieldsAllow)
    case None => key == "_id" || p.fieldsAllow == [] || key in p.fieldsAllow
  }

  /** The scope that is looked up for a database has exactly these collections in bounds. */
  lemma BoundsExact(p: Policy, database: Option<string>, c: string)
    ensures Permitted(c, ScopeFor(p, database).collections) <==> InBounds(p, database, c)
  {
    NoBlock(p, database);
  }

  lemma NoBlock(p: Policy, database: Option<string>)
    ensures !HasDbConfig(p) ==> BlockFor(p, database).None?
  {
  }

  /** Exactly the masked fields are listed for a collection of a database. */
  lemma MaskFieldsExact(p: Policy, collection: string, database: Option<string>, field: string)
    ensures field in MaskFieldsFor(p, collection, database) <==> MaskedIn(p, database, collection, field)
  {
    var mf := ScopeFor(p, database).maskFields;
    NoBlock(p, database);
    if mf.PerCollection? { UnionMeans(mf.Bucket("*"), mf.Bucket(collection)); }
  }

  /** The fields that are masked in a collection of a database. */
  ghost function MaskedSet(p: Policy, database: Option<string>, collection: string): (r: set<string>)
    ensures forall f :: f in r <==> MaskedIn(p, database, collection, f)
  {
    forall f ensures f in MaskFieldsFor(p, collection, database) <==> MaskedIn(p, database, collection, f) {
      MaskFieldsExact(p, collection, database, f);
    }
    Elements(MaskFieldsFor(p, collection, database))
  }

  lemma MaskedSetIs(p: Policy, collection: string, database: Option<string>)
    ensures MaskedSet(p, database, collection) == Elements(MaskFieldsFor(p, collection, database))
    ensures MaskedSet(p, database, collection) == {} <==> MaskFieldsFor(p, collection, database) == []
  {
    var fields := MaskFieldsFor(p, collection, database);
    if fields != [] { assert fields[0] in Elements(fields); }
  }

  /** There is no list of fields there. */
  predicate ShowsAllFields(p: Policy, database: Option<string>) {
    p.fieldsAllow == [] && match BlockFor(p, database) case Some(b) => b.fieldsAllow == [] case None => true
  }

  lemma ShowsAllExact(p: Policy, collection: string, database: Option<string>)
    ensures FreshTransformer(p, (collection, database)).allow == {} <==> ShowsAllFields(p, database)
  {
    NoBlock(p, database);
    var fields := ScopeFor(p, database).fieldsAllow;
    if fields != [] { assert fields[0] in Elements(fields); }
  }

  /** The transformer for a collection of a database shows exactly the visible keys. */
  lemma VisibleExact(p: Policy, collection: string, database: Option<string>, key: string)
    ensures FreshTransformer(p, (collection, database)).Visible(0, key) <==> VisibleIn(p, database, key)
  {
    NoBlock(p, database);
    var fields := ScopeFor(p, database).fieldsAllow;
    if fields != [] { assert fields[0] in Elements(fields); }
  }

  /** Mask fields as buckets: `_effective_mask_map`, and the first step of a merge. */
  function MaskMap(mf: MaskFields): map<string, seq<string>> {
    match mf
    case PerCollection(buckets) => buckets
    case Everywhere(fields) => if fields == [] then map[] else map["*" := fields]
  }

  // ------------------------------------------------------------------ caches

  type Place = (string, Option<string>)

  function FreshTransformer(p: Policy, at: Place): Transformer {
    TransformerOf(MaskFieldsFor(p, at.0, at.1), ScopeFor(p, at.1).fieldsAllow)
  }

  function FreshMasker(p: Policy, at: Place): Rules { RulesOf(MaskFieldsFor(p, at.0, at.1)) }

  /** A loaded policy with the caches it fills as it is used. */
  class LoadedPolicy {
    const policy: Policy
    var transformers: map<Place, Transformer>
    var maskers: map<Place, Rules>

    constructor (p: Policy)
      ensures policy == p && Valid()
    {
      policy, transformers, maskers := p, map[], map[];
    }

    /** What is cached is what would be built. */
    ghost predicate Valid()
      reads this
    {
      && (forall at :: at in transformers ==> transformers[at] == FreshTransformer(policy, at))
      && (forall at :: at in maskers ==> maskers[at] == FreshMasker(policy, at))
    }

    /** After any calls before it, the answer is the transformer built afresh for this
        collection of this database. */
    method ResultTransformer(collection: string, database: Option<string>) returns (t: Transformer)
      requires Valid()
      modifies this`transformers
      ensures Valid() && t == FreshTransformer(policy, (collection, database))
      ensures transformers == old(transformers)[(collection, database) := t]
    {
      var key := (collection, database);
      if key in transformers {
        t := transformers[key];
        assert transformers[key := t] == transformers;
        return;
      }
      var rules := SplitMaskEntries(MaskFieldsFor(policy, collection, database));
      t := Transformer(rules, Elements(ScopeFor(policy, database).fieldsAllow));
      transformers := transformers[key := t];
    }

    method AuditMasker(collection: string, database: Option<string>) returns (m: Rules)
      requires Valid()
      modifies this`maskers
      ensures Valid() && m == FreshMasker(policy, (collection, database))
      ensures maskers == old(maskers)[(collection, database) := m]
    {
      var key := (collection, database);
      if key in maskers {
        m := maskers[key];
        assert maskers[key := m] == maskers;
        return;
      }
      m := SplitMaskEntries(MaskFieldsFor(policy, collection, database));
      maskers := maskers[key := m];
    }
  }

  /** The caches need the database in their key: a policy may mask a field of a collection in one
      database and not in another. */
  lemma KeyNeedsDatabase(p: Policy)
    requires p.databases == map["a" := Scope(NoAccess, Everywhere(["ssn"]), [])] && p.defaultScope.None?
    requires p.maskFields == Everywhere([])
    ensures FreshTransformer(p, ("users", Some("a"))).rules.bare == {"ssn"}
    ensures FreshTransformer(p, ("users", Some("b"))).rules == Rules({}, {})
  {
    assert p.databases != map[] by { assert "a" in p.databases; }
    assert ["ssn"][..0] == [] && Last(["ssn"]) == "ssn";
    assert RulesOf(["ssn"]) == Rules({"ssn"}, {});
    assert "a" != "b";
    assert "b" !in p.databases;
  }
}
