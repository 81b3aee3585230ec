/** The compiler from structured requests to parameterised SQL, for two dialects. A
    translation is a statement whose holes are placeholders, and the positional arguments. */
module SqlTranslate {
  import opened Common
  import opened Values

  datatype Capability =
    | Read | Count | Aggregate | WriteOne | WriteMany | DeleteOne | DeleteMany | Schema | Indexes | Explain
    | Estimate | ListResources | ListDatabases | Stats | DdlCreate | DdlDestroy | Logs

  /** `schema` is what the options hold under that key. */
  datatype Request = Request(capability: Capability, resource: string, filter: Option<seq<Entry>>,
                             projection: Option<seq<Entry>>, documents: Option<seq<seq<Entry>>>,
                             update: Option<seq<Entry>>, schema: Val, limit: Option<int>, skip: Option<int>)

  datatype Dialect = Postgres | MySql {
    predicate SupportsReturning() { Postgres? }

    predicate InUsesArray() { Postgres? }
  }

  /** The reasons for a GuardValidationError. */
  datatype GuardError =
    | InvalidIdentifier(name: string) | UnsupportedOperator(op: string) | InNeedsList | InNeedsElements
    | NeedsDocuments | EmptyDocument | NeedsUpdate | NeedsSetDocument | NeedsFilter | NotSupported

  // ----------------------------------------------------------- identifiers

  predicate IsLetter(c: char) { 'a' <= c <= 'z' || 'A' <= c <= 'Z' || c == '_' }

  predicate IsWord(c: char) { IsLetter(c) || '0' <= c <= '9' }

  predicate IdentBody(body: string) { body != "" && IsLetter(body[0]) && forall i :: 0 <= i < |body| ==> IsWord(body[i]) }

  /** The identifier pattern. Python's `$` also matches before one final newline. */
  predicate IdentPart(part: string) {
    IdentBody(if part != "" && Last(part) == '\n' then part[..|part| - 1] else part)
  }

  /** `validate_ident` */
  function ValidateIdent(name: string): Result<seq<string>, GuardError> {
    var parts := SplitDots(name);
    if name != "" && |parts| <= 2 && forall i :: 0 <= i < |parts| ==> IdentPart(parts[i])
    then Ok(parts) else Err(InvalidIdentifier(name))
  }

  predicate ValidIdent(name: string) { ValidateIdent(name).Ok? }

  function Backticked(parts: seq<string>): string
    requires parts != []
    decreases |parts|, 0
  {
    "`" + (parts[0] + ("`" + Qualified(parts[1..])))
  }

  function Qualified(more: seq<string>): string
    decreases |more|, 1
  {
    if more == [] then "" else "." + Backticked(more)
  }

  /** `quote_ident` of either dialect, on an identifier that was validated. */
  function Quote(d: Dialect, name: string): string {
    match d case Postgres => name case MySql => Backticked(SplitDots(name))
  }

  /** Quoting validates; the statement keeps the name. */
  function Ident(name: string): Result<string, GuardError> {
    if ValidIdent(name) then Ok(name) else Err(InvalidIdentifier(name))
  }

  // ------------------------------------------------------------ statements

  datatype CmpOp = Eq | Gt | Gte | Lt | Lte | Ne

  /** Placeholders are the 1-based positions of their arguments. */
  datatype Clause =
    | Compare(col: string, op: CmpOp, ph: nat)
    | AnyOf(col: string, ph: nat)
    | InList(col: string, phs: seq<nat>)

  datatype Assignment = Assignment(col: string, ph: nat)

  /** The catalog queries of the two dialects. */
  datatype CatalogQuery =
    | ColumnsOf(table: nat, schema: Option<nat>)  // columns by table, in the schema given or in any
    | ColumnsHere(table: nat)                     // columns by table, in the current database
    | IndexesOf(table: nat)
    | ShowIndex(name: string)
    | TablesOf(inSchema: nat)
    | TablesHere
    | AllDatabases
    | DatabaseSize

  datatype Statement =
    | Select(explain: bool, cols: seq<string>, table: string, where: seq<Clause>, limit: Option<nat>, offset: Option<nat>)
    | SelectCount(table: string, where: seq<Clause>)
    | Insert(table: string, cols: seq<string>, rows: seq<seq<nat>>)
    | Update(table: string, sets: seq<Assignment>, where: seq<Clause>)
    | Delete(table: string, where: seq<Clause>)
    | DeleteSingle(table: string, where: seq<Clause>)
    | Catalog(query: CatalogQuery)

  datatype Translated = Translated(stmt: Statement, args: seq<Val>)

  /** What a translator builds after other arguments: clauses (or rows), and arguments. */
  datatype Built<T> = Built(parts: seq<T>, args: seq<Val>)

  function Then<T>(a: Built<T>, b: Built<T>): Built<T> { Built(a.parts + b.parts, a.args + b.args) }

  // ---------------------------------------------------------------- where

  function OperatorOf(op: string): Option<CmpOp> {
    if op == "$gt" then Some(Gt) else if op == "$gte" then Some(Gte) else if op == "$lt" then Some(Lt)
    else if op == "$lte" then Some(Lte) else if op == "$ne" then Some(Ne) else None
  }

  function Range(from: nat, count: nat): (r: seq<nat>)
    ensures |r| == count && forall i :: 0 <= i < count ==> r[i] == from + i
  {
    seq(count, i requires 0 <= i => from + i)
  }

  /** `_build_in`, with `n` arguments issued before. */
  function InClause(d: Dialect, col: string, val: Val, n: nat): Result<Built<Clause>, GuardError> {
    if !val.List? then Err(InNeedsList)
    else if d.InUsesArray() then Ok(Built([AnyOf(col, n + 1)], [val]))
    else if val.items == [] then Err(InNeedsElements)
    else Ok(Built([InList(col, Range(n + 1, |val.items|))], val.items))
  }

  function OpClause(d: Dialect, col: string, op: Entry, n: nat): Result<Built<Clause>, GuardError> {
    if op.key == "$in" then InClause(d, col, op.val, n)
    else if OperatorOf(op.key).Some? then Ok(Built([Compare(col, OperatorOf(op.key).value, n + 1)], [op.val]))
    else Err(UnsupportedOperator(op.key))
  }

  function OpClauses(d: Dialect, col: string, ops: seq<Entry>, n: nat): Result<Built<Clause>, GuardError>
    decreases |ops|
  {
    if ops == [] then Ok(Built([], []))
    else
      var first :- OpClause(d, col, ops[0], n);
      var rest :- OpClauses(d, col, ops[1..], n + |first.args|);
      Ok(Then(first, rest))
  }

  function FieldClauses(d: Dialect, f: Entry, n: nat): Result<Built<Clause>, GuardError> {
    var col :- Ident(f.key);
    if f.val.Dict? then OpClauses(d, col, f.val.entries, n)
    else Ok(Built([Compare(col, Eq, n + 1)], [f.val]))
  }

  function FilterClauses(d: Dialect, filter: seq<Entry>, n: nat): Result<Built<Clause>, GuardError>
    decreases |filter|
  {
    if filter == [] then Ok(Built([], []))
    else
      var first :- FieldClauses(d, filter[0], n);
      var rest :- FilterClauses(d, filter[1..], n + |first.args|);
      Ok(Then(first, rest))
  }

  function Entries(dict: Option<seq<Entry>>): seq<Entry> { if dict.Some? then dict.value else [] }

  /** `_build_where`: no clauses at all when there is no filter. */
  function Where(d: Dialect, filter: Option<seq<Entry>>, n: nat): Result<Built<Clause>, GuardError> {
    FilterClauses(d, Entries(filter), n)
  }

  // ----------------------------------------------------- per capability

  function Idents(names: seq<Entry>): Result<seq<string>, GuardError> {
    if names == [] then Ok([])
    else
      var first :- Ident(names[0].key);
      var rest :- Idents(names[1..]);
      Ok([first] + rest)
  }

  function TranslateRead(d: Dialect, req: Request, explain: bool): Result<Translated, GuardError> {
    var table :- Ident(req.resource);
    var cols :- Idents(Entries(req.projection));
    var where :- Where(d, req.filter, 0);
    var n := |where.args|;
    var limits := if req.limit.Some? then [Num(req.limit.value as real)] else [];
    var offsets := if req.skip.Some? then [Num(req.skip.value as real)] else [];
    Ok(Translated(Select(explain, cols, table, where.parts,
                         if req.limit.Some? then Some(n + 1) else None,
                         if req.skip.Some? then Some(n + |limits| + 1) else None),
                  where.args + limits + offsets))
  }

  function TranslateCount(d: Dialect, req: Request): Result<Translated, GuardError> {
    var table :- Ident(req.resource);
    var where :- Where(d, req.filter, 0);
    Ok(Translated(SelectCount(table, where.parts), where.args))
  }

  function RowValues(doc: seq<Entry>, cols: seq<Entry>): (vs: seq<Val>)
    ensures |vs| == |cols|
    ensures forall i :: 0 <= i < |cols| ==> vs[i] == Lookup(doc, cols[i].key)
  {
    seq(|cols|, i requires 0 <= i < |cols| => Lookup(doc, cols[i].key))
  }

  function Rows(docs: seq<seq<Entry>>, cols: seq<Entry>, n: nat): Built<seq<nat>>
    decreases |docs|
  {
    if docs == [] then Built([], [])
    else Then(Built([Range(n + 1, |cols|)], RowValues(docs[0], cols)), Rows(docs[1..], cols, n + |cols|))
  }

  /** The columns are those of the first document. */
  function TranslateRows(d: Dialect, req: Request, docs: seq<seq<Entry>>): Result<Translated, GuardError>
    requires docs != []
  {
    var table :- Ident(req.resource);
    if docs[0] == [] then Err(EmptyDocument)
    else
      var cols :- Idents(docs[0]);
      var rows := Rows(docs, docs[0], 0);
      Ok(Translated(Insert(table, cols, rows.parts), rows.args))
  }

  function SetDocument(update: seq<Entry>): Val {
    if Holds(update, "$set") then Lookup(update, "$set") else Dict(update)
  }

  function Sets(doc: seq<Entry>, n: nat): Result<Built<Assignment>, GuardError>
    decreases |doc|
  {
    if doc == [] then Ok(Built([], []))
    else
      var col :- Ident(doc[0].key);
      var rest :- Sets(doc[1..], n + 1);
      Ok(Then(Built([Assignment(col, n + 1)], [doc[0].val]), rest))
  }

  function TranslateUpdate(d: Dialect, req: Request): Result<Translated, GuardError> {
    var table :- Ident(req.resource);
    if Entries(req.update) == [] then Err(NeedsUpdate)
    else
      var doc := SetDocument(req.update.value);
      if !doc.Dict? || doc.entries == [] then Err(NeedsSetDocument)
      else
        var sets :- Sets(doc.entries, 0);
        var where :- Where(d, req.filter, |sets.args|);
        Ok(Translated(Update(table, sets.parts, where.parts), sets.args + where.args))
  }

  predicate NoDocuments(req: Request) { req.documents.None? || req.documents.value == [] }

  /** WRITE_ONE: an update when filter and update are given and no documents, else an insert. */
  function TranslateInsert(d: Dialect, req: Request): Result<Translated, GuardError> {
    if req.update.Some? && req.filter.Some? && NoDocuments(req) then TranslateUpdate(d, req)
    else if NoDocuments(req) then Err(NeedsDocuments)
    else TranslateRows(d, req, [req.documents.value[0]])
  }

  function TranslateInsertMany(d: Dialect, req: Request): Result<Translated, GuardError> {
    if NoDocuments(req) then Err(NeedsDocuments) else TranslateRows(d, req, req.documents.value)
  }

  function TranslateDelete(d: Dialect, req: Request, single: bool): Result<Translated, GuardError> {
    var table :- Ident(req.resource);
    var where :- Where(d, req.filter, 0);
    if single && where.parts == [] then Err(NeedsFilter)
    else if single then Ok(Translated(DeleteSingle(table, where.parts), where.args))
    else Ok(Translated(Delete(table, where.parts), where.args))
  }

  /** `_schema_from_options`: a schema that is given must be an identifier. */
  function SchemaOption(req: Request): Result<Option<string>, GuardError> {
    match req.schema
    case Null => Ok(None)
    case Str(s) => if ValidIdent(s) then Ok(Some(s)) else Err(InvalidIdentifier(s))
    case _ => Err(InvalidIdentifier(""))
  }

  function TranslateSchema(d: Dialect, req: Request): Result<Translated, GuardError> {
    match d
    case MySql => Ok(Translated(Catalog(ColumnsHere(1)), [Str(req.resource)]))
    case Postgres =>
      var schema :- SchemaOption(req);
      if schema.None? then Ok(Translated(Catalog(ColumnsOf(1, None)), [Str(req.resource)]))
      else Ok(Translated(Catalog(ColumnsOf(1, Some(2))), [Str(req.resource), Str(schema.value)]))
  }

  function TranslateIndexes(d: Dialect, req: Request): Result<Translated, GuardError> {
    match d
    case Postgres => Ok(Translated(Catalog(IndexesOf(1)), [Str(req.resource)]))
    case MySql =>
      var table :- Ident(req.resource);
      Ok(Translated(Catalog(ShowIndex(table)), []))
  }

  function TranslateListResources(d: Dialect, req: Request): Result<Translated, GuardError> {
    match d
    case MySql => Ok(Translated(Catalog(TablesHere), []))
    case Postgres =>
      var schema :- SchemaOption(req);
      Ok(Translated(Catalog(TablesOf(1)), [Str(if schema.Some? then schema.value else "public")]))
  }

  /** `translate` */
  function Translate(d: Dialect, req: Request): Result<Translated, GuardError> {
    match req.capability
    case Read => TranslateRead(d, req, false)
    case Explain => TranslateRead(d, req, true)
    case Count => TranslateCount(d, req)
    case WriteOne => TranslateInsert(d, req)
    case WriteMany => TranslateInsertMany(d, req)
    case DeleteOne => TranslateDelete(d, req, true)
    case DeleteMany => TranslateDelete(d, req, false)
    case Schema => TranslateSchema(d, req)
    case Indexes => TranslateIndexes(d, req)
    case ListResources => TranslateListResources(d, req)
    case ListDatabases => Ok(Translated(Catalog(AllDatabases), []))
    case Stats => Ok(Translated(Catalog(DatabaseSize), []))
    case _ => Err(NotSupported)
  }

  // --------------------------------------------------- the translator's loops

  /** `_ArgCounter` */
  class ArgCounter {
    var args: seq<Val>

    constructor ()
      ensures args == []
    {
      args := [];
    }

    method Add(value: Val) returns (ph: nat)
      modifies this
      ensures args == old(args) + [value] && ph == |args|
    {
      args := args + [value];
      ph := |args|;
    }
  }

  /** `r` and the arguments issued are what the specification says of `built`. */
  ghost predicate Issues<T>(built: Result<Built<T>, GuardError>, r: Result<seq<T>, GuardError>, before: seq<Val>,
    after: seq<Val>) {
    match built
    case Ok(b) => r == Ok(b.parts) && after == before + b.args
    case Err(e) => r == Err(e)
  }

  method BuildIn(d: Dialect, col: string, val: Val, counter: ArgCounter) returns (r: Result<seq<Clause>, GuardError>)
    modifies counter
    ensures Issues(InClause(d, col, val, |old(counter.args)|), r, old(counter.args), counter.args)
  {
    if !val.List? {
      return Err(InNeedsList);
    }
    if d.InUsesArray() {
      var ph := counter.Add(val);
      return Ok([AnyOf(col, ph)]);
    }
    if val.items == [] {
      return Err(InNeedsElements);
    }
    var phs: seq<nat> := [];
    for i := 0 to |val.items|
      invariant counter.args == old(counter.args) + val.items[..i]
      invariant phs == Range(|old(counter.args)| + 1, i)
    {
      assert val.items[..i+1] == val.items[..i] + [val.items[i]];
      var ph := counter.Add(val.items[i]);
      phs := phs + [ph];
    }
    assert val.items[..|val.items|] == val.items;
    return Ok([InList(col, phs)]);
  }

  method BuildOp(d: Dialect, col: string, op: Entry, counter: ArgCounter) returns (r: Result<seq<Clause>, GuardError>)
    modifies counter
    ensures Issues(OpClause(d, col, op, |old(counter.args)|), r, old(counter.args), counter.args)
  {
    if op.key == "$in" {
      r := BuildIn(d, col, op.val, counter);
    } else if OperatorOf(op.key).Some? {
      var ph := counter.Add(op.val);
      return Ok([Compare(col, OperatorOf(op.key).value, ph)]);
    } else {
      return Err(UnsupportedOperator(op.key));
    }
  }

  method BuildOps(d: Dialect, col: string, ops: seq<Entry>, counter: ArgCounter) returns (r: Result<seq<Clause>, GuardError>)
    modifies counter
    ensures Issues(OpClauses(d, col, ops, |old(counter.args)|), r, old(counter.args), counter.args)
  {
    var clauses: seq<Clause> := [];
    ghost var added: seq<Val> := [];
    ghost var total := OpClauses(d, col, ops, |counter.args|);
    assert ops[0..] == ops;
    PrefixUnit([], [], total);
    for i := 0 to |ops|
      invariant counter.args == old(counter.args) + added
      invariant Prefixed(clauses, added, OpClauses(d, col, ops[i..], |counter.args|)) == total
    {
      assert ops[i..][0] == ops[i] && ops[i..][1..] == ops[i+1..];
      ghost var before := counter.args;
      OpsContinue(clauses, added, d, col, ops[i..], |before|);
      var built := BuildOp(d, col, ops[i], counter);
      if built.Err? {
        return Err(built.error);
      }
      clauses := clauses + built.value;
      added := added + OpClause(d, col, ops[i], |before|).value.args;
    }
    assert ops[|ops|..] == [];
    PrefixUnit(clauses, added, total);
    return Ok(clauses);
  }

  /** What is built already, followed by what the specification builds next. */
  ghost function Prefixed<T>(parts: seq<T>, args: seq<Val>, rest: Result<Built<T>, GuardError>): Result<Built<T>, GuardError> {
    match rest case Ok(b) => Ok(Then(Built(parts, args), b)) case Err(e) => Err(e)
  }

  lemma PrefixUnit<T>(parts: seq<T>, args: seq<Val>, r: Result<Built<T>, GuardError>)
    ensures Prefixed([], [], r) == r
    ensures Prefixed(parts, args, Ok(Built([], []))) == Ok(Built(parts, args))
  {
    if r.Ok? {
      assert [] + r.value.parts == r.value.parts && [] + r.value.args == r.value.args;
    }
    assert parts + [] == parts && args + [] == args;
  }

  /** The next part is built, or its error is the error of the whole. */
  ghost predicate Continues(parts: seq<Clause>, args: seq<Val>, first: Result<Built<Clause>, GuardError>,
                            rest: Result<Built<Clause>, GuardError>, all: Result<Built<Clause>, GuardError>) {
    match first
    case Err(e) => Prefixed(parts, args, all) == Err(e)
    case Ok(b) => Prefixed(parts, args, all) == Prefixed(parts + b.parts, args + b.args, rest)
  }

  lemma ThenAssociates<T>(a: Built<T>, b: Built<T>, c: Built<T>)
    ensures Then(a, Then(b, c)) == Then(Then(a, b), c)
  {
    assert a.parts + (b.parts + c.parts) == a.parts + b.parts + c.parts;
    assert a.args + (b.args + c.args) == a.args + b.args + c.args;
  }

  lemma OpsContinue(parts: seq<Clause>, args: seq<Val>, d: Dialect, col: string, ops: seq<Entry>, n: nat)
    requires ops != []
    ensures var first := OpClause(d, col, ops[0], n);
      Continues(parts, args, first, OpClauses(d, col, ops[1..], n + if first.Ok? then |first.value.args| else 0),
                OpClauses(d, col, ops, n))
  {
    var first := OpClause(d, col, ops[0], n);
    if first.Ok? {
      var rest := OpClauses(d, col, ops[1..], n + |first.value.args|);
      if rest.Ok? {
        ThenAssociates(Built(parts, args), first.value, rest.value);
      }
    }
  }

  lemma FilterContinues(parts: seq<Clause>, args: seq<Val>, d: Dialect, filter: seq<Entry>, n: nat)
    requires filter != []
    ensures var first := FieldClauses(d, filter[0], n);
      Continues(parts, args, first, FilterClauses(d, filter[1..], n + if first.Ok? then |first.value.args| else 0),
                FilterClauses(d, filter, n))
  {
    var first := FieldClauses(d, filter[0], n);
    if first.Ok? {
      var rest := FilterClauses(d, filter[1..], n + |first.value.args|);
      if rest.Ok? {
        ThenAssociates(Built(parts, args), first.value, rest.value);
      }
    }
  }

  method BuildField(d: Dialect, f: Entry, counter: ArgCounter) returns (r: Result<seq<Clause>, GuardError>)
    modifies counter
    ensures Issues(FieldClauses(d, f, |old(counter.args)|), r, old(counter.args), counter.args)
  {
    var ident := Ident(f.key);
    if ident.Err? {
      return Err(ident.error);
    }
    if f.val.Dict? {
      r := BuildOps(d, ident.value, f.val.entries, counter);
    } else {
      var ph := counter.Add(f.val);
      return Ok([Compare(ident.value, Eq, ph)]);
    }
  }

  /** `_build_where` */
  method BuildWhere(d: Dialect, filter: Option<seq<Entry>>, counter: ArgCounter) returns (r: Result<seq<Clause>, GuardError>)
    modifies counter
    ensures Issues(Where(d, filter, |old(counter.args)|), r, old(counter.args), counter.args)
  {
    if filter.None? || filter.value == [] {
      assert counter.args == counter.args + [];
      return Ok([]);
    }
    r := BuildFields(d, filter.value, counter);
  }

  method BuildFields(d: Dialect, fs: seq<Entry>, counter: ArgCounter) returns (r: Result<seq<Clause>, GuardError>)
    modifies counter
    ensures Issues(FilterClauses(d, fs, |old(counter.args)|), r, old(counter.args), counter.args)
  {
    var clauses: seq<Clause> := [];
    ghost var added: seq<Val> := [];
    ghost var total := FilterClauses(d, fs, |counter.args|);
    assert fs[0..] == fs;
    PrefixUnit([], [], total);
    for i := 0 to |fs|
      invariant counter.args == old(counter.args) + added
      invariant Prefixed(clauses, added, FilterClauses(d, fs[i..], |counter.args|)) == total
    {
      assert fs[i..][0] == fs[i] && fs[i..][1..] == fs[i+1..];
      ghost var before := counter.args;
      FilterContinues(clauses, added, d, fs[i..], |before|);
      var built := BuildField(d, fs[i], counter);
      if built.Err? {
        return Err(built.error);
      }
      clauses := clauses + built.value;
      added := added + FieldClauses(d, fs[i], |before|).value.args;
    }
    assert fs[|fs|..] == [];
    PrefixUnit(clauses, added, total);
    return Ok(clauses);
  }

  /** One placeholder for each column. */
  method BuildRow(doc: seq<Entry>, cols: seq<Entry>, counter: ArgCounter) returns (phs: seq<nat>)
    modifies counter
    ensures phs == Range(|old(counter.args)| + 1, |cols|)
    ensures counter.args == old(counter.args) + RowValues(doc, cols)
  {
    phs := [];
    ghost var values := RowValues(doc, cols);
    for j := 0 to |cols|
      invariant counter.args == old(counter.args) + values[..j]
      invariant phs == Range(|old(counter.args)| + 1, j)
    {
      assert values[..j+1] == values[..j] + [values[j]];
      var ph := counter.Add(Lookup(doc, cols[j].key));
      phs := phs + [ph];
    }
    assert values[..|cols|] == values;
  }

  method BuildRows(docs: seq<seq<Entry>>, cols: seq<Entry>, counter: ArgCounter) returns (rows: seq<seq<nat>>)
    modifies counter
    ensures rows == Rows(docs, cols, |old(counter.args)|).parts
    ensures counter.args == old(counter.args) + Rows(docs, cols, |old(counter.args)|).args
  {
    rows := [];
    ghost var n := |counter.args|;
    ghost var all := Rows(docs, cols, n);
    assert docs[0..] == docs;
    for i := 0 to |docs|
      invariant |counter.args| >= n && counter.args[..n] == old(counter.args)
      invariant Then(Built(rows, counter.args[n..]), Rows(docs[i..], cols, |counter.args|)) == all
    {
      assert docs[i..][0] == docs[i] && docs[i..][1..] == docs[i+1..];
      ghost var before := counter.args;
      var phs := BuildRow(docs[i], cols, counter);
      assert counter.args[n..] == before[n..] + RowValues(docs[i], cols);
      RowsStep(rows, before[n..], docs[i..], cols, |before|);
      rows := rows + [phs];
    }
    assert docs[|docs|..] == [];
    assert counter.args == counter.args[..n] + counter.args[n..];
  }

  lemma RowsStep(parts: seq<seq<nat>>, args: seq<Val>, docs: seq<seq<Entry>>, cols: seq<Entry>, n: nat)
    requires docs != []
    ensures Then(Built(parts, args), Rows(docs, cols, n))
      == Then(Built(parts + [Range(n + 1, |cols|)], args + RowValues(docs[0], cols)), Rows(docs[1..], cols, n + |cols|))
  {
    ThenAssociates(Built(parts, args), Built([Range(n + 1, |cols|)], RowValues(docs[0], cols)),
      Rows(docs[1..], cols, n + |cols|));
  }

  method QuoteAll(names: seq<Entry>) returns (r: Result<seq<string>, GuardError>)
    ensures r == Idents(names)
  {
    var out: seq<string> := [];
    assert names[0..] == names;
    IdentsUnit(Idents(names));
    for i := 0 to |names|
      invariant Joined(out, Idents(names[i..])) == Idents(names)
    {
      assert names[i..][0] == names[i] && names[i..][1..] == names[i+1..];
      var ident := Ident(names[i].key);
      if ident.Err? {
        return Err(ident.error);
      }
      IdentsContinue(out, names[i..]);
      out := out + [ident.value];
    }
    assert names[|names|..] == [] && out + [] == out;
    return Ok(out);
  }

  ghost function Joined(out: seq<string>, rest: Result<seq<string>, GuardError>): Result<seq<string>, GuardError> {
    match rest case Ok(more) => Ok(out + more) case Err(e) => Err(e)
  }

  lemma IdentsUnit(r: Result<seq<string>, GuardError>)
    ensures Joined([], r) == r
  {
    if r.Ok? { assert [] + r.value == r.value; }
  }

  lemma IdentsContinue(out: seq<string>, names: seq<Entry>)
    requires names != [] && Ident(names[0].key).Ok?
    ensures Joined(out, Idents(names)) == Joined(out + [names[0].key], Idents(names[1..]))
  {
    var rest := Idents(names[1..]);
    if rest.Ok? { assert out + ([names[0].key] + rest.value) == out + [names[0].key] + rest.value; }
  }

  method ReadSql(d: Dialect, req: Request, explain: bool) returns (r: Result<Translated, GuardError>)
    ensures r == TranslateRead(d, req, explain)
  {
    var table :- Ident(req.resource);
    var cols :- QuoteAll(Entries(req.projection));
    var counter := new ArgCounter();
    var where :- BuildWhere(d, req.filter, counter);
    ghost var whereArgs := Where(d, req.filter, 0).value.args;
    assert counter.args == whereArgs;
    ghost var limits := if req.limit.Some? then [Num(req.limit.value as real)] else [];
    ghost var offsets := if req.skip.Some? then [Num(req.skip.value as real)] else [];
    var limit: Option<nat>, offset: Option<nat> := None, None;
    if req.limit.Some? {
      var ph := counter.Add(Num(req.limit.value as real));
      limit := Some(ph);
    }
    if req.skip.Some? {
      var ph := counter.Add(Num(req.skip.value as real));
      offset := Some(ph);
    }
    assert counter.args == whereArgs + limits + offsets;
    r := Ok(Translated(Select(explain, cols, table, where, limit, offset), counter.args));
  }

  method UpdateSql(d: Dialect, req: Request) returns (r: Result<Translated, GuardError>)
    ensures r == TranslateUpdate(d, req)
  {
    var table :- Ident(req.resource);
    if Entries(req.update) == [] {
      return Err(NeedsUpdate);
    }
    var doc := SetDocument(req.update.value);
    if !doc.Dict? || doc.entries == [] {
      return Err(NeedsSetDocument);
    }
    var es := doc.entries;
    var counter := new ArgCounter();
    var sets: seq<Assignment> := [];
    assert es[0..] == es;
    SetsUnit(Sets(es, 0));
    for i := 0 to |es|
      invariant |counter.args| == i == |sets|
      invariant SetsJoined(sets, counter.args, Sets(es[i..], i)) == Sets(es, 0)
    {
      assert es[i..][0] == es[i] && es[i..][1..] == es[i+1..];
      SetsContinue(sets, counter.args, es[i..], i);
      var col := Ident(es[i].key);
      if col.Err? {
        return Err(col.error);
      }
      var ph := counter.Add(es[i].val);
      sets := sets + [Assignment(col.value, ph)];
    }
    assert es[|es|..] == [] && sets + [] == sets && counter.args + [] == counter.args;
    var where :- BuildWhere(d, req.filter, counter);
    r := Ok(Translated(Update(table, sets, where), counter.args));
  }

  ghost function SetsJoined(sets: seq<Assignment>, args: seq<Val>,
    rest: Result<Built<Assignment>, GuardError>): Result<Built<Assignment>, GuardError> {
    match rest case Ok(b) => Ok(Then(Built(sets, args), b)) case Err(e) => Err(e)
  }

  lemma SetsUnit(r: Result<Built<Assignment>, GuardError>)
    ensures SetsJoined([], [], r) == r
  {
    if r.Ok? { assert [] + r.value.parts == r.value.parts && [] + r.value.args == r.value.args; }
  }

  lemma SetsContinue(sets: seq<Assignment>, args: seq<Val>, doc: seq<Entry>, n: nat)
    requires doc != []
    ensures Ident(doc[0].key).Err? ==> SetsJoined(sets, args, Sets(doc, n)) == Err(Ident(doc[0].key).error)
    ensures Ident(doc[0].key).Ok? ==>
      SetsJoined(sets, args, Sets(doc, n))
        == SetsJoined(sets + [Assignment(doc[0].key, n + 1)], args + [doc[0].val], Sets(doc[1..], n + 1))
  {
    if Ident(doc[0].key).Ok? {
      var rest := Sets(doc[1..], n + 1);
      if rest.Ok? {
        ThenAssociates(Built(sets, args), Built([Assignment(doc[0].key, n + 1)], [doc[0].val]), rest.value);
      }
    }
  }

  method DeleteSql(d: Dialect, req: Request, single: bool) returns (r: Result<Translated, GuardError>)
    ensures r == TranslateDelete(d, req, single)
  {
    var table :- Ident(req.resource);
    var counter := new ArgCounter();
    var where :- BuildWhere(d, req.filter, counter);
    assert counter.args == Where(d, req.filter, 0).value.args;
    if single && where == [] {
      return Err(NeedsFilter);
    }
    r := Ok(Translated(if single then DeleteSingle(table, where) else Delete(table, where), counter.args));
  }

  method RowsSql(d: Dialect, req: Request, docs: seq<seq<Entry>>) returns (r: Result<Translated, GuardError>)
    requires docs != []
    ensures r == TranslateRows(d, req, docs)
  {
    var table :- Ident(req.resource);
    if docs[0] == [] {
      return Err(EmptyDocument);
    }
    var cols :- QuoteAll(docs[0]);
    var counter := new ArgCounter();
    var rows := BuildRows(docs, docs[0], counter);
    assert counter.args == Rows(docs, docs[0], 0).args;
    r := Ok(Translated(Insert(table, cols, rows), counter.args));
  }
}
