/** Which requests are translated, and to which statement. */
module SqlAcceptance {
  import opened Common
  import opened Values
  import opened SqlTranslate
  import opened SqlSemantics
  import opened SqlPaging

  // ----------------------------------------------------------------- names

  /** A letter or underscore, then letters, digits and underscores. */
  predicate Words(name: string) {
    && name != "" && !('0' <= name[0] <= '9')
    && forall c :: c in name ==> 'a' <= c <= 'z' || 'A' <= c <= 'Z' || '0' <= c <= '9' || c == '_'
  }

  /** A final newline is let pass. */
  predicate NamePart(s: string) {
    if s != "" && s[|s| - 1] == '\n' then Words(s[..|s| - 1]) else Words(s)
  }

  /** A name, or two with a dot between. */
  ghost predicate SqlName(s: string) {
    NamePart(s) || exists schema, table :: NamePart(schema) && NamePart(table) && s == schema + "." + table
  }

  lemma WordsMean(name: string)
    ensures Words(name) <==> IdentBody(name)
  {
    if Words(name) {
      forall i | 0 <= i < |name| ensures IsWord(name[i]) { assert name[i] in name; }
    }
  }

  lemma PartMeans(s: string)
    ensures IdentPart(s) <==> NamePart(s)
  {
    var name := if s != "" && Last(s) == '\n' then s[..|s| - 1] else s;
    WordsMean(name);
  }

  lemma PartUndotted(s: string)
    requires NamePart(s)
    ensures '.' !in s
  {
    var name := if s != "" && s[|s| - 1] == '\n' then s[..|s| - 1] else s;
    forall c | c in s ensures c != '.' {
      var i :| 0 <= i < |s| && s[i] == c;
      if i < |name| { assert name[i] in name; }
    }
  }

  lemma {:induction false} SplitPlain(s: string)
    requires '.' !in s
    ensures SplitDots(s) == [s]
  {
    if s != [] {
      SplitPlain(s[1..]);
      assert s == [s[0]] + s[1..];
    }
  }

  lemma {:induction false} SplitTwo(a: string, b: string)
    requires '.' !in a && '.' !in b
    ensures SplitDots(a + "." + b) == [a, b]
  {
    var s := a + "." + b;
    if a == [] {
      SplitPlain(b);
      assert s[1..] == b;
    } else {
      SplitTwo(a[1..], b);
      assert s[1..] == a[1..] + "." + b && a == [a[0]] + a[1..];
    }
  }

  /** Exactly such names are identifiers. */
  lemma IdentExactly(s: string)
    ensures ValidIdent(s) <==> SqlName(s)
  {
    var parts := SplitDots(s);
    SplitJoins(s);
    if ValidIdent(s) {
      PartMeans(parts[0]);
      if |parts| == 2 {
        PartMeans(parts[1]);
        assert JoinDots(parts) == parts[0] + "." + JoinDots(parts[1..]) == parts[0] + "." + parts[1];
      }
    }
    if NamePart(s) {
      PartUndotted(s);
      SplitPlain(s);
      PartMeans(s);
    }
    if schema, table :| NamePart(schema) && NamePart(table) && s == schema + "." + table {
      PartUndotted(schema);
      PartUndotted(table);
      SplitTwo(schema, table);
      PartMeans(schema);
      PartMeans(table);
    }
  }

  // ---------------------------------------------------------------- filters

  /** A comparison, or a list to look in; MySQL takes no empty list. */
  predicate GoodOp(d: Dialect, op: Entry) {
    op.key in {"$gt", "$gte", "$lt", "$lte", "$ne"} || (op.key == "$in" && op.val.List? && (d.MySql? ==> op.val.items != []))
  }

  ghost predicate GoodField(d: Dialect, f: Entry) {
    SqlName(f.key) && (f.val.Dict? ==> forall j :: 0 <= j < |f.val.entries| ==> GoodOp(d, f.val.entries[j]))
  }

  ghost predicate GoodFilter(d: Dialect, filter: seq<Entry>) { forall i :: 0 <= i < |filter| ==> GoodField(d, filter[i]) }

  lemma OpAccepted(d: Dialect, col: string, op: Entry, n: nat)
    ensures OpClause(d, col, op, n).Ok? <==> GoodOp(d, op)
  {
  }

  lemma {:induction false} OpsExactly(d: Dialect, col: string, ops: seq<Entry>, n: nat)
    ensures OpClauses(d, col, ops, n).Ok? <==> forall j :: 0 <= j < |ops| ==> GoodOp(d, ops[j])
    decreases |ops|
  {
    if ops != [] {
      var first := OpClause(d, col, ops[0], n);
      OpAccepted(d, col, ops[0], n);
      if first.Ok? { OpsExactly(d, col, ops[1..], n + |first.value.args|); }
      assert forall j :: 0 < j < |ops| ==> ops[j] == ops[1..][j - 1];
      assert forall j :: 0 <= j < |ops[1..]| ==> ops[1..][j] == ops[j + 1];
    }
  }

  lemma FieldExactly(d: Dialect, f: Entry, n: nat)
    ensures FieldClauses(d, f, n).Ok? <==> GoodField(d, f)
  {
    IdentExactly(f.key);
    if f.val.Dict? { OpsExactly(d, f.key, f.val.entries, n); }
  }

  lemma GoodSplit(d: Dialect, filter: seq<Entry>)
    requires filter != []
    ensures GoodFilter(d, filter) <==> GoodField(d, filter[0]) && GoodFilter(d, filter[1..])
  {
    assert forall j :: 0 < j < |filter| ==> filter[j] == filter[1..][j - 1];
    assert forall j :: 0 <= j < |filter[1..]| ==> filter[1..][j] == filter[j + 1];
  }

  lemma {:induction false} FilterExactly(d: Dialect, filter: seq<Entry>, n: nat)
    ensures FilterClauses(d, filter, n).Ok? <==> GoodFilter(d, filter)
    decreases |filter|
  {
    if filter != [] {
      var first := FieldClauses(d, filter[0], n);
      FieldExactly(d, filter[0], n);
      if first.Ok? { FilterExactly(d, filter[1..], n + |first.value.args|); }
      GoodSplit(d, filter);
    }
  }

  ghost predicate GoodNames(es: seq<Entry>) { forall i :: 0 <= i < |es| ==> SqlName(es[i].key) }

  lemma {:induction false} IdentsExactly(es: seq<Entry>)
    ensures Idents(es).Ok? <==> GoodNames(es)
  {
    if es != [] {
      IdentExactly(es[0].key);
      IdentsExactly(es[1..]);
      assert forall j :: 0 < j < |es| ==> es[j] == es[1..][j - 1];
      assert forall j :: 0 <= j < |es[1..]| ==> es[1..][j] == es[j + 1];
    }
  }

  lemma {:induction false} SetsExactly(es: seq<Entry>, n: nat)
    ensures Sets(es, n).Ok? <==> GoodNames(es)
    decreases |es|
  {
    if es != [] {
      IdentExactly(es[0].key);
      SetsExactly(es[1..], n + 1);
      assert forall j :: 0 < j < |es| ==> es[j] == es[1..][j - 1];
      assert forall j :: 0 <= j < |es[1..]| ==> es[1..][j] == es[j + 1];
    }
  }

  // --------------------------------------------------------------- requests

  /** The filter has a condition: a value to compare with, or an operator. */
  predicate Conditions(filter: seq<Entry>) { exists i :: 0 <= i < |filter| && filter[i].val != Dict([]) }

  lemma {:induction false} ConditionsCount(filter: seq<Entry>)
    ensures ClauseCount(filter) > 0 <==> Conditions(filter)
  {
    if filter != [] {
      ConditionsCount(filter[1..]);
      assert forall j :: 0 < j < |filter| ==> filter[j] == filter[1..][j - 1];
      assert forall j :: 0 <= j < |filter[1..]| ==> filter[1..][j] == filter[j + 1];
      if filter[0].val.Dict? && filter[0].val.entries == [] { assert filter[0].val == Dict([]); }
    }
  }

  predicate HasDocuments(req: Request) { req.documents.Some? && req.documents.value != [] }

  /** Without documents, a filter and an update make a single write an update. */
  predicate Updates(req: Request) { req.capability == WriteOne && req.filter.Some? && req.update.Some? && !HasDocuments(req) }

  /** What is written under `$set`, or the update, is a document with fields. */
  ghost predicate GoodUpdate(update: seq<Entry>) {
    if Holds(update, "$set") then
      match Lookup(update, "$set") case Dict(fields) => fields != [] && GoodNames(fields) case _ => false
    else update != [] && GoodNames(update)
  }

  /** The schema option names a schema or is not given. */
  ghost predicate GoodSchema(req: Request) { req.schema.Null? || (req.schema.Str? && SqlName(req.schema.s)) }

  ghost predicate Good(d: Dialect, req: Request) {
    var filter := if req.filter.Some? then req.filter.value else [];
    match req.capability
    case Read => SqlName(req.resource) && GoodFilter(d, filter) && (req.projection.Some? ==> GoodNames(req.projection.value))
    case Explain => SqlName(req.resource) && GoodFilter(d, filter) && (req.projection.Some? ==> GoodNames(req.projection.value))
    case Count => SqlName(req.resource) && GoodFilter(d, filter)
    case DeleteMany => SqlName(req.resource) && GoodFilter(d, filter)
    case DeleteOne => SqlName(req.resource) && GoodFilter(d, filter) && Conditions(filter)
    case WriteOne =>
      SqlName(req.resource)
      && if Updates(req) then GoodUpdate(req.update.value) && GoodFilter(d, filter)
         else HasDocuments(req) && req.documents.value[0] != [] && GoodNames(req.documents.value[0])
    case WriteMany =>
      SqlName(req.resource) && HasDocuments(req) && req.documents.value[0] != [] && GoodNames(req.documents.value[0])
    case Schema => d.Postgres? ==> GoodSchema(req)
    case ListResources => d.Postgres? ==> GoodSchema(req)
    case Indexes => d.MySql? ==> SqlName(req.resource)
    case ListDatabases => true
    case Stats => true
    case _ => false
  }

  lemma UpdateExactly(d: Dialect, req: Request)
    requires req.capability == WriteOne && req.filter.Some? && req.update.Some?
    ensures TranslateUpdate(d, req).Ok?
      <==> SqlName(req.resource) && GoodUpdate(req.update.value) && GoodFilter(d, req.filter.value)
  {
    var update := req.update.value;
    IdentExactly(req.resource);
    var doc := SetDocument(update);
    if Holds(update, "$set") { assert update != []; }
    if doc.Dict? {
      SetsExactly(doc.entries, 0);
      if Sets(doc.entries, 0).Ok? { FilterExactly(d, req.filter.value, |Sets(doc.entries, 0).value.args|); }
    }
  }

  lemma RowsExactly(d: Dialect, req: Request, docs: seq<seq<Entry>>)
    requires docs != []
    ensures TranslateRows(d, req, docs).Ok? <==> SqlName(req.resource) && docs[0] != [] && GoodNames(docs[0])
  {
    IdentExactly(req.resource);
    IdentsExactly(docs[0]);
  }

  lemma ReadExactly(d: Dialect, req: Request, explain: bool)
    ensures TranslateRead(d, req, explain).Ok?
      <==> SqlName(req.resource) && GoodNames(Entries(req.projection)) && GoodFilter(d, Entries(req.filter))
  {
    IdentExactly(req.resource);
    IdentsExactly(Entries(req.projection));
    FilterExactly(d, Entries(req.filter), 0);
  }

  lemma DeleteExactly(d: Dialect, req: Request, single: bool)
    ensures TranslateDelete(d, req, single).Ok?
      <==> SqlName(req.resource) && GoodFilter(d, Entries(req.filter)) && (single ==> Conditions(Entries(req.filter)))
    ensures TranslateCount(d, req).Ok? <==> SqlName(req.resource) && GoodFilter(d, Entries(req.filter))
  {
    IdentExactly(req.resource);
    FilterExactly(d, Entries(req.filter), 0);
    FilterCounts(d, Entries(req.filter), 0);
    ConditionsCount(Entries(req.filter));
  }

  lemma CatalogExactly(d: Dialect, req: Request)
    ensures TranslateSchema(d, req).Ok? <==> (d.Postgres? ==> GoodSchema(req))
    ensures TranslateListResources(d, req).Ok? <==> (d.Postgres? ==> GoodSchema(req))
    ensures TranslateIndexes(d, req).Ok? <==> (d.MySql? ==> SqlName(req.resource))
  {
    IdentExactly(req.resource);
    if req.schema.Str? { IdentExactly(req.schema.s); }
  }

  /** A request is translated exactly when all its names are SQL names, its operators are known, its
      lists and documents are there, and a single delete has a condition; aggregations and changes
      of the schema never are. */
  lemma TranslatesExactly(d: Dialect, req: Request)
    ensures Translate(d, req).Ok? <==> Good(d, req)
  {
    match req.capability {
      case Read => ReadExactly(d, req, false);
      case Explain => ReadExactly(d, req, true);
      case Count => DeleteExactly(d, req, false);
      case DeleteOne => DeleteExactly(d, req, true);
      case DeleteMany => DeleteExactly(d, req, false);
      case WriteOne =>
        if Updates(req) { UpdateExactly(d, req); }
        else if HasDocuments(req) { RowsExactly(d, req, [req.documents.value[0]]); }
      case WriteMany => if HasDocuments(req) { RowsExactly(d, req, req.documents.value); }
      case Schema => CatalogExactly(d, req);
      case ListResources => CatalogExactly(d, req);
      case Indexes => CatalogExactly(d, req);
      case _ =>
    }
  }

  // ------------------------------------------------------------- statements

  ghost predicate Names(cols: seq<string>, es: seq<Entry>) {
    |cols| == |es| && forall i :: 0 <= i < |es| ==> cols[i] == es[i].key
  }

  /** The statement a request becomes: its kind, its table and its columns; of a read its page; of a
      query of the catalog what it is given. */
  ghost predicate Becomes(d: Dialect, req: Request, t: Translated) {
    match req.capability
    case Read => t.stmt.Select? && !t.stmt.explain && Reads(req, t)
    case Explain => t.stmt.Select? && t.stmt.explain && Reads(req, t)
    case Count => t.stmt.SelectCount? && t.stmt.table == req.resource
    case DeleteOne => t.stmt.DeleteSingle? && t.stmt.table == req.resource
    case DeleteMany => t.stmt.Delete? && t.stmt.table == req.resource
    case WriteOne =>
      if Updates(req) then t.stmt.Update? && t.stmt.table == req.resource
      else t.stmt.Insert? && t.stmt.table == req.resource && |t.stmt.rows| == 1
    case WriteMany => t.stmt.Insert? && t.stmt.table == req.resource
    case Schema =>
      && t.stmt == Catalog(if d.MySql? then ColumnsHere(1) else ColumnsOf(1, if req.schema.Str? then Some(2) else None))
      && t.args == [Str(req.resource)] + if d.Postgres? && req.schema.Str? then [req.schema] else []
    case ListResources =>
      && t.stmt == Catalog(if d.MySql? then TablesHere else TablesOf(1))
      && t.args == if d.MySql? then [] else if req.schema.Str? then [req.schema] else [Str("public")]
    case Indexes =>
      && t.stmt == Catalog(if d.Postgres? then IndexesOf(1) else ShowIndex(req.resource))
      && t.args == if d.Postgres? then [Str(req.resource)] else []
    case ListDatabases => t == Translated(Catalog(AllDatabases), [])
    case Stats => t == Translated(Catalog(DatabaseSize), [])
    case _ => false
  }

  ghost predicate Reads(req: Request, t: Translated)
    requires t.stmt.Select?
  {
    && t.stmt.table == req.resource && Names(t.stmt.cols, if req.projection.Some? then req.projection.value else [])
    && NumberAt(t.args, t.stmt.limit) == req.limit && NumberAt(t.args, t.stmt.offset) == req.skip
  }

  lemma ReadReads(d: Dialect, req: Request, explain: bool)
    requires TranslateRead(d, req, explain).Ok?
    ensures var t := TranslateRead(d, req, explain).value; t.stmt.Select? && t.stmt.explain == explain && Reads(req, t)
  {
    IdentsAre(Entries(req.projection));
  }

  lemma StatementExactly(d: Dialect, req: Request)
    requires Translate(d, req).Ok?
    ensures Becomes(d, req, Translate(d, req).value)
  {
    match req.capability {
      case Read => ReadReads(d, req, false);
      case Explain => ReadReads(d, req, true);
      case WriteOne => if !Updates(req) { RowsCount([req.documents.value[0]], req.documents.value[0], 0); }
      case _ =>
    }
  }
}
