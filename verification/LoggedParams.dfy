/** Which values of a request's parameters reach the audit log. */
module LoggedParams {
  import opened Common
  import opened Values
  import opened Masking
  import opened Reaching
  import opened Policies
  import opened PolicyEngine
  import opened Responses
  import opened Pipeline

  /** The policy found for the request masks nothing for its collection and database, or names no key
      on the way: neither on its own nor by its whole path from the root of the parameters. */
  ghost predicate MayShow(found: Option<Policy>, req: Request, way: seq<Hop>) {
    match found
    case None => true
    case Some(p) =>
      var masked := MaskedSet(p, req.database, req.collection);
      masked == {} || Unlisted(masked, way, 0, [])
  }

  /** The value holds of the parameters what may be shown, each thing in its place, and nothing else. */
  ghost predicate Scrubs(found: Option<Policy>, req: Request, v: Val) {
    forall way, x :: Telling(x) ==>
      (Reach(v, way) == Some(x) <==> Reach(Dict(req.params), way) == Some(x) && MayShow(found, req, way))
  }

  /** A value is found in the logged parameters exactly when it is in the parameters at the same place
      and may be shown. */
  lemma LoggedExactly(found: Option<Policy>, req: Request)
    ensures Scrubs(found, req, AuditParams(found, req))
  {
    forall way, x | Telling(x)
      ensures Reach(AuditParams(found, req), way) == Some(x)
        <==> Reach(Dict(req.params), way) == Some(x) && MayShow(found, req, way)
    {
      if found.Some? {
        MaskShows(MaskFieldsFor(found.value, req.collection, req.database), Dict(req.params), way, x);
        MaskedSetIs(found.value, req.collection, req.database);
      }
    }
  }

  lemma NoFieldsNoRules(fields: seq<string>)
    ensures fields == [] ==> RulesOf(fields) == Rules({}, {})
  {
  }

  /** The audit log tells the parameters of two requests apart exactly when they differ in more
      than the values the policy masks for their collection and database. */
  lemma AuditParamsHideExactly(p: Policy, a: Request, b: Request)
    requires a.collection == b.collection && a.database == b.database
    ensures AuditParams(Some(p), a) == AuditParams(Some(p), b)
      <==> Alike(Transformer(FreshMasker(p, (a.collection, a.database)), {}), Dict(a.params), Dict(b.params))
  {
    var r := FreshMasker(p, (a.collection, a.database));
    NoFieldsNoRules(MaskFieldsFor(p, a.collection, a.database));
    MaskHidesExactly(r, Dict(a.params), Dict(b.params));
  }

  // ------------------------------------------------------- values of a filter

  lemma FieldWay(fields: set<string>, k: string)
    ensures Unlisted(fields, [Key("filter"), Key(k)], 0, [])
      <==> "filter" !in fields && ('.' in k || (k !in fields && "filter." + k !in fields))
  {
    var way := [Key("filter"), Key(k)];
    assert way[1..] == [Key(k)] && way[1..][1..] == [];
    assert [] + ["filter"] == ["filter"] && ["filter"] + [k] == ["filter", k];
    assert JoinDots(["filter", k]) == "filter" + "." + JoinDots(["filter", k][1..]) == "filter." + k;
    assert Undotted(["filter", k]) <==> '.' !in k;
    assert Unlisted(fields, way[1..][1..], 2, ["filter", k]);
    assert Unlisted(fields, way[1..], 1, ["filter"]) <==> !Listed(fields, ["filter", k]);
    assert Unlisted(fields, way, 0, []) <==> !Listed(fields, ["filter"]) && !Listed(fields, ["filter", k]);
  }

  /** When the value of a condition in a filter is logged as it is: always if the field is written
      with a dot, unless the whole filter is masked; else if neither the field nor `filter.` and the
      field is masked. */
  lemma FilterValueLogged(p: Policy, req: Request, conditions: seq<Entry>, k: string, x: Val)
    requires Holds(req.params, "filter") && Lookup(req.params, "filter") == Dict(conditions)
    requires Holds(conditions, k) && Lookup(conditions, k) == x && Telling(x)
    ensures var masked := MaskedSet(p, req.database, req.collection);
      Reach(AuditParams(Some(p), req), [Key("filter"), Key(k)]) == Some(x)
      <==> "filter" !in masked && ('.' in k || (k !in masked && "filter." + k !in masked))
  {
    var way := [Key("filter"), Key(k)];
    assert way[1..] == [Key(k)] && way[1..][1..] == [];
    assert Reach(x, way[1..][1..]) == Some(x) && Reach(Dict(conditions), way[1..]) == Some(x);
    LoggedExactly(Some(p), req);
    assert Reach(AuditParams(Some(p), req), way) == Some(x) <==> MayShow(Some(p), req, way);
    FieldWay(MaskedSet(p, req.database, req.collection), k);
  }

  /** A policy that masks `user.ssn` does not keep it out of the log: neither when the filter is
      written with a dot nor when it is nested, since the path is read from the root. */
  lemma MaskedPathIsLogged(p: Policy, req: Request, x: Val)
    requires MaskedSet(p, req.database, req.collection) == {"user.ssn"} && Telling(x)
    ensures req.params == [Entry("filter", Dict([Entry("user.ssn", x)]))] ==>
      Reach(AuditParams(Some(p), req), [Key("filter"), Key("user.ssn")]) == Some(x)
    ensures req.params == [Entry("filter", Dict([Entry("user", Dict([Entry("ssn", x)]))]))] ==>
      Reach(AuditParams(Some(p), req), [Key("filter"), Key("user"), Key("ssn")]) == Some(x)
  {
    if req.params == [Entry("filter", Dict([Entry("user.ssn", x)]))] {
      Single("user.ssn", x);
      Single("filter", Dict([Entry("user.ssn", x)]));
      FilterValueLogged(p, req, [Entry("user.ssn", x)], "user.ssn", x);
    }
    if req.params == [Entry("filter", Dict([Entry("user", Dict([Entry("ssn", x)]))]))] {
      NestedWay();
      var way := [Key("filter"), Key("user"), Key("ssn")];
      assert way[1..] == [Key("user"), Key("ssn")] && way[1..][1..] == [Key("ssn")] && way[1..][1..][1..] == [];
      Single("ssn", x);
      Single("user", Dict([Entry("ssn", x)]));
      Single("filter", Dict([Entry("user", Dict([Entry("ssn", x)]))]));
      assert Reach(Dict([Entry("ssn", x)]), way[1..][1..]) == Reach(x, way[1..][1..][1..]) == Some(x);
      assert Reach(Dict([Entry("user", Dict([Entry("ssn", x)]))]), way[1..]) == Some(x);
      LoggedExactly(Some(p), req);
      assert Reach(AuditParams(Some(p), req), way) == Some(x) <==> MayShow(Some(p), req, way);
    }
  }

  lemma Single(k: string, v: Val)
    ensures Holds([Entry(k, v)], k) && Lookup([Entry(k, v)], k) == v
  {
    assert [Entry(k, v)][0].key == k;
  }

  lemma NestedWay()
    ensures Unlisted({"user.ssn"}, [Key("filter"), Key("user"), Key("ssn")], 0, [])
  {
    var fields, way := {"user.ssn"}, [Key("filter"), Key("user"), Key("ssn")];
    assert way[1..] == [Key("user"), Key("ssn")] && way[1..][1..] == [Key("ssn")] && way[1..][1..][1..] == [];
    assert [] + ["filter"] == ["filter"] && ["filter"] + ["user"] == ["filter", "user"];
    assert ["filter", "user"] + ["ssn"] == ["filter", "user", "ssn"];
    FilterFirst(["user"]);
    FilterFirst(["user", "ssn"]);
    assert !Listed(fields, ["filter"]) && !Listed(fields, ["filter", "user"]) && !Listed(fields, ["filter", "user", "ssn"]);
  }

  lemma FilterFirst(rest: seq<string>)
    requires rest != []
    ensures JoinDots(["filter"] + rest) != "user.ssn"
  {
    var path := ["filter"] + rest;
    assert path[1..] == rest;
    assert JoinDots(path)[0] == 'f';
  }
}
