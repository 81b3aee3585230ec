/** What the translated statements do to a table, under SQL's three-valued logic, and what
    the two dialects have in common. */
module SqlSemantics {
  import opened Common
  import opened Values
  import opened SqlTranslate

  // ------------------------------------------------------ three-valued logic

  datatype Tri = Yes | No | Unknown

  function Not(a: Tri): Tri { match a case Yes => No case No => Yes case Unknown => Unknown }

  function And(a: Tri, b: Tri): Tri { if a == No || b == No then No else if a == Yes then b else Unknown }

  function Or(a: Tri, b: Tri): Tri { Not(And(Not(a), Not(b))) }

  type Row = map<string, Val>

  /** How a database compares two values that are not null: below zero, zero or above. */
  type Comparison = (Val, Val) -> int

  function Column(row: Row, col: string): Val { if col in row then row[col] else Null }

  /** The argument bound to a placeholder. */
  function Arg(args: seq<Val>, ph: nat): Val { if 1 <= ph <= |args| then args[ph - 1] else Null }

  predicate Accepts(op: CmpOp, sign: int) {
    match op
    case Eq => sign == 0
    case Ne => sign != 0
    case Gt => sign > 0
    case Gte => sign >= 0
    case Lt => sign < 0
    case Lte => sign <= 0
  }

  function Compared(cmp: Comparison, op: CmpOp, a: Val, b: Val): Tri {
    if a.Null? || b.Null? then Unknown else if Accepts(op, cmp(a, b)) then Yes else No
  }

  /** `v IN (...)` and `v = ANY(...)`: a disjunction of equalities. */
  function AnyEqual(cmp: Comparison, v: Val, items: seq<Val>): Tri {
    if items == [] then No else Or(Compared(cmp, Eq, v, items[0]), AnyEqual(cmp, v, items[1..]))
  }

  function Bound(args: seq<Val>, phs: seq<nat>): (vs: seq<Val>)
    ensures |vs| == |phs| && forall i :: 0 <= i < |phs| ==> vs[i] == Arg(args, phs[i])
  {
    seq(|phs|, i requires 0 <= i < |phs| => Arg(args, phs[i]))
  }

  function Items(v: Val): seq<Val> { if v.List? then v.items else [] }

  function EvalClause(cmp: Comparison, c: Clause, args: seq<Val>, row: Row): Tri {
    match c
    case Compare(col, op, ph) => Compared(cmp, op, Column(row, col), Arg(args, ph))
    case AnyOf(col, ph) => AnyEqual(cmp, Column(row, col), Items(Arg(args, ph)))
    case InList(col, phs) => AnyEqual(cmp, Column(row, col), Bound(args, phs))
  }

  function EvalWhere(cmp: Comparison, where: seq<Clause>, args: seq<Val>, row: Row): Tri {
    if where == [] then Yes else And(EvalClause(cmp, where[0], args, row), EvalWhere(cmp, where[1..], args, row))
  }

  // ------------------------------------------------- what a filter asks for

  /** Equality as the caller of the filter means it: null is equal to null alone. */
  predicate Same(cmp: Comparison, a: Val, b: Val) {
    if a.Null? || b.Null? then a == b else cmp(a, b) == 0
  }

  /** What an operator asks of a value, by its name. */
  predicate MeetsOp(cmp: Comparison, v: Val, op: Entry) {
    match op.key
    case "$in" => op.val.List? && exists i :: 0 <= i < |op.val.items| && Same(cmp, v, op.val.items[i])
    case "$ne" => !Same(cmp, v, op.val)
    case "$gt" => !v.Null? && !op.val.Null? && cmp(v, op.val) > 0
    case "$gte" => !v.Null? && !op.val.Null? && cmp(v, op.val) >= 0
    case "$lt" => !v.Null? && !op.val.Null? && cmp(v, op.val) < 0
    case "$lte" => !v.Null? && !op.val.Null? && cmp(v, op.val) <= 0
    case _ => false
  }

  predicate MeetsField(cmp: Comparison, row: Row, f: Entry) {
    if f.val.Dict?
    then forall j :: 0 <= j < |f.val.entries| ==> MeetsOp(cmp, Column(row, f.key), f.val.entries[j])
    else Same(cmp, Column(row, f.key), f.val)
  }

  /** Every condition of the filter holds of the row. */
  predicate Meets(cmp: Comparison, row: Row, filter: seq<Entry>) {
    forall i :: 0 <= i < |filter| ==> MeetsField(cmp, row, filter[i])
  }

  /** No null on either side of a comparison; a list may hold nulls. */
  predicate KnownOp(v: Val, op: Entry) { !v.Null? && (op.key == "$in" || !op.val.Null?) }

  predicate KnownField(row: Row, f: Entry) {
    if f.val.Dict? then forall j :: 0 <= j < |f.val.entries| ==> KnownOp(Column(row, f.key), f.val.entries[j])
    else !Column(row, f.key).Null? && !f.val.Null?
  }

  predicate Known(row: Row, filter: seq<Entry>) {
    forall i :: 0 <= i < |filter| ==> KnownField(row, filter[i])
  }

  // ----------------------------------------------------- the filter's meaning

  /** The arguments `args` were issued after `n` others. */
  ghost predicate IssuedAt(all: seq<Val>, n: nat, args: seq<Val>) {
    n + |args| <= |all| && all[n..n + |args|] == args
  }

  lemma IssuedSplit(all: seq<Val>, n: nat, a: seq<Val>, b: seq<Val>)
    requires IssuedAt(all, n, a + b)
    ensures IssuedAt(all, n, a) && IssuedAt(all, n + |a|, b)
  {
    var s := all[n..n + |a + b|];
    assert all[n..n + |a|] == s[..|a|];
    assert all[n + |a|..n + |a| + |b|] == s[|a|..];
    assert (a + b)[..|a|] == a && (a + b)[|a|..] == b;
  }

  lemma {:induction false} AnyEqualMeans(cmp: Comparison, v: Val, items: seq<Val>)
    ensures AnyEqual(cmp, v, items) == Yes <==> !v.Null? && exists i :: 0 <= i < |items| && Same(cmp, v, items[i])
  {
    if items != [] {
      AnyEqualMeans(cmp, v, items[1..]);
      forall i | 0 <= i < |items[1..]| ensures items[1..][i] == items[i + 1] {}
      if i :| 0 <= i < |items| && Same(cmp, v, items[i]) && !v.Null? {
        if i > 0 { assert items[1..][i - 1] == items[i]; }
      }
    }
  }

  lemma {:induction false} WhereAppend(cmp: Comparison, a: seq<Clause>, b: seq<Clause>, args: seq<Val>, row: Row)
    ensures EvalWhere(cmp, a + b, args, row) == Yes
      <==> EvalWhere(cmp, a, args, row) == Yes && EvalWhere(cmp, b, args, row) == Yes
  {
    if a == [] {
      assert a + b == b;
    } else {
      WhereAppend(cmp, a[1..], b, args, row);
      assert (a + b)[1..] == a[1..] + b;
    }
  }

  lemma OpMeaning(cmp: Comparison, d: Dialect, col: string, op: Entry, n: nat, all: seq<Val>, row: Row)
    requires OpClause(d, col, op, n).Ok?
    requires IssuedAt(all, n, OpClause(d, col, op, n).value.args)
    ensures EvalWhere(cmp, OpClause(d, col, op, n).value.parts, all, row) == Yes
      <==> MeetsOp(cmp, Column(row, col), op) && KnownOp(Column(row, col), op)
  {
    var b := OpClause(d, col, op, n).value;
    assert b.parts[1..] == [];
    assert EvalWhere(cmp, b.parts, all, row) == Yes <==> EvalClause(cmp, b.parts[0], all, row) == Yes;
    if op.key == "$in" {
      if d.InUsesArray() {
        assert all[n] == all[n..n + 1][0];
      } else {
        var vs := Bound(all, b.parts[0].phs);
        forall i | 0 <= i < |vs| ensures vs[i] == op.val.items[i] {
          assert vs[i] == all[n + i] == all[n..n + |b.args|][i];
        }
        assert vs == op.val.items;
      }
      AnyEqualMeans(cmp, Column(row, col), Items(op.val));
    } else {
      assert all[n] == all[n..n + 1][0];
    }
  }

  ghost predicate MeetsOps(cmp: Comparison, v: Val, ops: seq<Entry>) {
    forall j :: 0 <= j < |ops| ==> MeetsOp(cmp, v, ops[j]) && KnownOp(v, ops[j])
  }

  lemma OpsSplit(cmp: Comparison, v: Val, ops: seq<Entry>)
    requires ops != []
    ensures MeetsOps(cmp, v, ops) <==> MeetsOp(cmp, v, ops[0]) && KnownOp(v, ops[0]) && MeetsOps(cmp, v, ops[1..])
  {
    assert forall j :: 0 < j < |ops| ==> ops[j] == ops[1..][j - 1];
    assert forall j :: 0 <= j < |ops[1..]| ==> ops[1..][j] == ops[j + 1];
  }

  lemma {:induction false} OpsMeaning(cmp: Comparison, d: Dialect, col: string, ops: seq<Entry>, n: nat, all: seq<Val>, row: Row)
    requires OpClauses(d, col, ops, n).Ok?
    requires IssuedAt(all, n, OpClauses(d, col, ops, n).value.args)
    ensures EvalWhere(cmp, OpClauses(d, col, ops, n).value.parts, all, row) == Yes <==> MeetsOps(cmp, Column(row, col), ops)
    decreases |ops|
  {
    if ops != [] {
      var first := OpClause(d, col, ops[0], n).value;
      var rest := OpClauses(d, col, ops[1..], n + |first.args|).value;
      IssuedSplit(all, n, first.args, rest.args);
      OpMeaning(cmp, d, col, ops[0], n, all, row);
      OpsMeaning(cmp, d, col, ops[1..], n + |first.args|, all, row);
      WhereAppend(cmp, first.parts, rest.parts, all, row);
      OpsSplit(cmp, Column(row, col), ops);
    }
  }

  lemma FieldMeaning(cmp: Comparison, d: Dialect, f: Entry, n: nat, all: seq<Val>, row: Row)
    requires FieldClauses(d, f, n).Ok?
    requires IssuedAt(all, n, FieldClauses(d, f, n).value.args)
    ensures EvalWhere(cmp, FieldClauses(d, f, n).value.parts, all, row) == Yes
      <==> MeetsField(cmp, row, f) && KnownField(row, f)
  {
    if f.val.Dict? {
      OpsMeaning(cmp, d, f.key, f.val.entries, n, all, row);
    } else {
      var b := FieldClauses(d, f, n).value;
      assert b.parts[1..] == [];
      assert EvalWhere(cmp, b.parts, all, row) == Yes <==> EvalClause(cmp, b.parts[0], all, row) == Yes;
      assert all[n] == all[n..n + 1][0];
    }
  }

  lemma MeetsSplit(cmp: Comparison, row: Row, filter: seq<Entry>)
    requires filter != []
    ensures Meets(cmp, row, filter) && Known(row, filter)
      <==>
      && MeetsField(cmp, row, filter[0]) && KnownField(row, filter[0])
      && Meets(cmp, row, filter[1..]) && Known(row, filter[1..])
  {
    assert forall j :: 0 < j < |filter| ==> filter[j] == filter[1..][j - 1];
    assert forall j :: 0 <= j < |filter[1..]| ==> filter[1..][j] == filter[j + 1];
  }

  /** A row passes the emitted conditions exactly when it meets the filter without a null on
      either side of a comparison. */
  lemma {:induction false} FilterMeaning(cmp: Comparison, d: Dialect, filter: seq<Entry>, n: nat, all: seq<Val>, row: Row)
    requires FilterClauses(d, filter, n).Ok?
    requires IssuedAt(all, n, FilterClauses(d, filter, n).value.args)
    ensures EvalWhere(cmp, FilterClauses(d, filter, n).value.parts, all, row) == Yes
      <==> Meets(cmp, row, filter) && Known(row, filter)
    decreases |filter|
  {
    if filter != [] {
      var first := FieldClauses(d, filter[0], n).value;
      var rest := FilterClauses(d, filter[1..], n + |first.args|).value;
      IssuedSplit(all, n, first.args, rest.args);
      FieldMeaning(cmp, d, filter[0], n, all, row);
      FilterMeaning(cmp, d, filter[1..], n + |first.args|, all, row);
      WhereAppend(cmp, first.parts, rest.parts, all, row);
      MeetsSplit(cmp, row, filter);
    }
  }

  // ------------------------------------------------------- whole statements

  predicate HasWhere(stmt: Statement) { !stmt.Insert? && !stmt.Catalog? }

  /** The request is translated with its filter. */
  predicate Filters(req: Request) {
    || req.capability in {Read, Explain, Count, DeleteOne, DeleteMany}
    || (req.capability == WriteOne && req.update.Some? && req.filter.Some? && NoDocuments(req))
  }

  /** What an update writes: what stands under `$set`, or the update itself if there is none. */
  function SetDoc(req: Request): seq<Entry> {
    match req.update
    case None => []
    case Some(update) =>
      if Holds(update, "$set") then
        match Lookup(update, "$set") case Dict(fields) => fields case _ => []
      else update
  }

  /** How many arguments come before those of the filter. */
  function Before(req: Request): nat { if req.capability == WriteOne then |SetDoc(req)| else 0 }

  lemma {:induction false} SetsShape(doc: seq<Entry>, n: nat)
    requires Sets(doc, n).Ok?
    ensures var b := Sets(doc, n).value;
      && |b.parts| == |b.args| == |doc|
      && forall i :: 0 <= i < |doc| ==> b.parts[i] == Assignment(doc[i].key, n + i + 1) && b.args[i] == doc[i].val
    decreases |doc|
  {
    if doc != [] {
      SetsShape(doc[1..], n + 1);
      assert forall i :: 0 < i < |doc| ==> doc[i] == doc[1..][i - 1];
    }
  }

  function Paged(args: seq<Val>, ph: Option<nat>): seq<Val> { if ph.Some? then [Arg(args, ph.value)] else [] }

  function Paging(req: Request): seq<Val> {
    (if req.limit.Some? then [Num(req.limit.value as real)] else [])
      + (if req.skip.Some? then [Num(req.skip.value as real)] else [])
  }

  lemma ReadArgs(d: Dialect, req: Request, explain: bool)
    requires TranslateRead(d, req, explain).Ok?
    ensures var t := TranslateRead(d, req, explain).value;
      && Where(d, req.filter, 0).Ok? && t.stmt.Select? && t.stmt.where == Where(d, req.filter, 0).value.parts
      && t.args == Where(d, req.filter, 0).value.args + Paging(req)
      && Paged(t.args, t.stmt.limit) + Paged(t.args, t.stmt.offset) == Paging(req)
  {
    var t := TranslateRead(d, req, explain).value;
    var w := Where(d, req.filter, 0).value.args;
    var limits := if req.limit.Some? then [Num(req.limit.value as real)] else [];
    var offsets := if req.skip.Some? then [Num(req.skip.value as real)] else [];
    assert t.args == w + limits + offsets == w + Paging(req);
    assert Paged(t.args, t.stmt.limit) == limits;
    assert Paged(t.args, t.stmt.offset) == offsets;
  }

  lemma ReadWhere(d: Dialect, req: Request, explain: bool)
    requires TranslateRead(d, req, explain).Ok?
    ensures Placed(d, req, 0, TranslateRead(d, req, explain).value)
  {
    ReadArgs(d, req, explain);
  }

  lemma UpdateWhere(d: Dialect, req: Request)
    requires TranslateUpdate(d, req).Ok?
    ensures Placed(d, req, |SetDoc(req)|, TranslateUpdate(d, req).value)
  {
    SetsShape(SetDoc(req), 0);
  }

  /** The statement's conditions are the filter's, over the statement's own arguments. */
  ghost predicate Placed(d: Dialect, req: Request, before: nat, t: Translated) {
    var w := Where(d, req.filter, before);
    HasWhere(t.stmt) && w.Ok? && t.stmt.where == w.value.parts && IssuedAt(t.args, before, w.value.args)
  }

  lemma WhereOf(d: Dialect, req: Request)
    requires Filters(req) && Translate(d, req).Ok?
    ensures Placed(d, req, Before(req), Translate(d, req).value)
  {
    match req.capability
    case Read => ReadWhere(d, req, false);
    case Explain => ReadWhere(d, req, true);
    case WriteOne => UpdateWhere(d, req);
    case _ =>
  }

  ghost predicate Selected(cmp: Comparison, t: Translated, row: Row)
    requires HasWhere(t.stmt)
  {
    EvalWhere(cmp, t.stmt.where, t.args, row) == Yes
  }

  /** For every request that is translated with its filter: the statement's condition holds of
      exactly the rows that meet the filter and meet it without nulls. So every row it holds of meets
      the filter, and where no null is involved it holds of every row that meets it. Which of these
      a read returns under LIMIT and OFFSET is in `SqlPaging`. */
  lemma SelectsExactly(cmp: Comparison, d: Dialect, req: Request, row: Row)
    requires Filters(req) && Translate(d, req).Ok?
    ensures HasWhere(Translate(d, req).value.stmt)
    ensures Selected(cmp, Translate(d, req).value, row)
      <==> Meets(cmp, row, Entries(req.filter)) && Known(row, Entries(req.filter))
  {
    WhereOf(d, req);
    FilterMeaning(cmp, d, Entries(req.filter), Before(req), Translate(d, req).value.args, row);
  }

  // --------------------------------------------------- what happens to a table

  type Table = map<nat, Row>

  ghost function Matching(cmp: Comparison, t: Translated, table: Table): set<nat>
    requires HasWhere(t.stmt)
  {
    set id | id in table && Selected(cmp, t, table[id])
  }

  /** `LIMIT 1` keeps one of the candidates, whichever, or none if there is none. */
  ghost predicate LimitOne(candidates: set<nat>, chosen: set<nat>) {
    chosen <= candidates && |chosen| == if candidates == {} then 0 else 1
  }

  function Assigned(row: Row, sets: seq<Assignment>, args: seq<Val>): Row
    decreases |sets|
  {
    if sets == [] then row else Assigned(row[sets[0].col := Arg(args, sets[0].ph)], sets[1..], args)
  }

  /** Whether running the statement can turn `table` into `after`. */
  ghost predicate Outcome(cmp: Comparison, d: Dialect, t: Translated, table: Table, after: Table)
    requires t.stmt.Update? || t.stmt.Delete? || t.stmt.DeleteSingle?
  {
    match t.stmt
    case Update(_, sets, _) =>
      after == map id | id in table :: if id in Matching(cmp, t, table) then Assigned(table[id], sets, t.args) else table[id]
    case Delete(_, _) => after == table - Matching(cmp, t, table)
    case DeleteSingle(_, _) =>
      match d
      case Postgres =>  // the rows whose ctid the subquery returns
        exists ctids :: LimitOne(Matching(cmp, t, table), ctids) && after == map id | id in table && id !in ctids :: table[id]
      case MySql =>
        exists gone :: LimitOne(Matching(cmp, t, table), gone) && after == table - gone
  }

  ghost predicate Wanted(cmp: Comparison, req: Request, row: Row) {
    Meets(cmp, row, Entries(req.filter)) && Known(row, Entries(req.filter))
  }

  /** DELETE_ONE removes exactly one wanted row if there is one, and nothing otherwise,
      whichever row the database picks and in both dialects. */
  lemma DeleteOneRemovesOne(cmp: Comparison, d: Dialect, req: Request, table: Table, after: Table)
    requires req.capability == DeleteOne && Translate(d, req).Ok?
    requires Outcome(cmp, d, Translate(d, req).value, table, after)
    ensures (exists id :: id in table && Wanted(cmp, req, table[id])) ==>
      exists id :: id in table && Wanted(cmp, req, table[id]) && after == table - {id}
    ensures (forall id :: id in table ==> !Wanted(cmp, req, table[id])) ==> after == table
  {
    var t := Translate(d, req).value;
    forall id | id in table ensures id in Matching(cmp, t, table) <==> Wanted(cmp, req, table[id]) {
      SelectsExactly(cmp, d, req, table[id]);
    }
    var gone := SomeChosen(cmp, d, t, table, after);
    if Matching(cmp, t, table) == {} {
      assert gone == {};
    } else {
      var id := SoleElement(gone);
      assert id in table && Wanted(cmp, req, table[id]) && after == table - {id};
    }
  }

  lemma SomeChosen(cmp: Comparison, d: Dialect, t: Translated, table: Table, after: Table) returns (gone: set<nat>)
    requires t.stmt.DeleteSingle? && Outcome(cmp, d, t, table, after)
    ensures LimitOne(Matching(cmp, t, table), gone) && after == table - gone
  {
    match d
    case Postgres =>
      gone :| LimitOne(Matching(cmp, t, table), gone) && after == map id | id in table && id !in gone :: table[id];
    case MySql =>
      gone :| LimitOne(Matching(cmp, t, table), gone) && after == table - gone;
  }

  lemma SoleElement(s: set<nat>) returns (x: nat)
    requires |s| == 1
    ensures s == {x}
  {
    x :| x in s;
    assert |s - {x}| == 0;
  }

  /** Some outcome exists, so the claims about every outcome are not about none. */
  lemma DeleteOneRuns(cmp: Comparison, d: Dialect, req: Request, table: Table)
    requires req.capability == DeleteOne && Translate(d, req).Ok?
    ensures exists after :: Outcome(cmp, d, Translate(d, req).value, table, after)
  {
    var t := Translate(d, req).value;
    var m := Matching(cmp, t, table);
    var chosen: set<nat> := {};
    if m != {} {
      var id :| id in m;
      chosen := {id};
    }
    var after := table - chosen;
    assert LimitOne(m, chosen);
    assert after == map id | id in table && id !in chosen :: table[id];
    assert Outcome(cmp, d, t, table, after);
  }

  /** DELETE_MANY removes the wanted rows and no other. */
  lemma DeleteManyRemovesAll(cmp: Comparison, d: Dialect, req: Request, table: Table, after: Table)
    requires req.capability == DeleteMany && Translate(d, req).Ok?
    requires Outcome(cmp, d, Translate(d, req).value, table, after)
    ensures after == map id | id in table && !Wanted(cmp, req, table[id]) :: table[id]
  {
    var t := Translate(d, req).value;
    forall id | id in table ensures id in Matching(cmp, t, table) <==> Wanted(cmp, req, table[id]) {
      SelectsExactly(cmp, d, req, table[id]);
    }
  }

  /** A row with the fields of a document written over it. */
  function Overwritten(row: Row, doc: seq<Entry>): Row
  {
    map c | c in row.Keys + (set e | e in doc :: e.key) ::
      if Holds(doc, c) then Lookup(doc, c) else Column(row, c)
  }

  lemma {:induction false} AssignedAt(row: Row, sets: seq<Assignment>, args: seq<Val>, c: string)
    requires forall i, j :: 0 <= i < j < |sets| ==> sets[i].col != sets[j].col
    ensures var r := Assigned(row, sets, args);
      && (c in r <==> c in row || exists i :: 0 <= i < |sets| && sets[i].col == c)
      && (forall i :: 0 <= i < |sets| && sets[i].col == c ==> c in r && r[c] == Arg(args, sets[i].ph))
      && ((forall i :: 0 <= i < |sets| ==> sets[i].col != c) ==> Column(r, c) == Column(row, c))
    decreases |sets|
  {
    if sets != [] {
      var row' := row[sets[0].col := Arg(args, sets[0].ph)];
      AssignedAt(row', sets[1..], args, c);
      assert forall i :: 0 < i < |sets| ==> sets[i] == sets[1..][i - 1];
      assert forall i :: 0 <= i < |sets[1..]| ==> sets[1..][i] == sets[i + 1];
    }
  }

  lemma AssignedIsOverwritten(row: Row, sets: seq<Assignment>, doc: seq<Entry>, args: seq<Val>)
    requires DistinctKeys(doc) && |sets| == |doc|
    requires forall i :: 0 <= i < |doc| ==> sets[i].col == doc[i].key && Arg(args, sets[i].ph) == doc[i].val
    ensures Assigned(row, sets, args) == Overwritten(row, doc)
  {
    var a, b := Assigned(row, sets, args), Overwritten(row, doc);
    forall c ensures (c in a <==> c in b) && (c in b ==> a[c] == b[c]) {
      AssignedAt(row, sets, args, c);
      if Holds(doc, c) {
        var i :| 0 <= i < |doc| && doc[i].key == c;
        LookupAt(doc, i);
        assert doc[i] in doc && sets[i].col == c;
      } else {
        forall i | 0 <= i < |sets| ensures sets[i].col != c { assert doc[i].key != c; }
      }
    }
  }

  /** An update writes the set document over every wanted row, not over one only, and
      touches no other row. */
  lemma UpdateWritesAll(cmp: Comparison, d: Dialect, req: Request, table: Table, after: Table)
    requires req.capability == WriteOne && Filters(req) && Translate(d, req).Ok?
    requires DistinctKeys(SetDoc(req))
    requires Translate(d, req).value.stmt.Update? && Outcome(cmp, d, Translate(d, req).value, table, after)
    ensures after == map id | id in table :: if Wanted(cmp, req, table[id]) then Overwritten(table[id], SetDoc(req))
      else table[id]
  {
    var t := Translate(d, req).value;
    var doc := SetDoc(req);
    SetsShape(doc, 0);
    forall id | id in table
      ensures id in Matching(cmp, t, table) <==> Wanted(cmp, req, table[id])
      ensures Assigned(table[id], t.stmt.sets, t.args) == Overwritten(table[id], doc)
    {
      SelectsExactly(cmp, d, req, table[id]);
      AssignedIsOverwritten(table[id], t.stmt.sets, doc, t.args);
    }
  }

  // ------------------------------------------------------------------ inserts

  function Documents(req: Request): seq<seq<Entry>> {
    if NoDocuments(req) then [] else if req.capability == WriteOne then [req.documents.value[0]] else req.documents.value
  }

  /** The value a stored row `i` holds under a column. */
  function Stored(t: Translated, i: nat, col: nat): Val
    requires t.stmt.Insert? && i < |t.stmt.rows| && col < |t.stmt.rows[i]|
  {
    Arg(t.args, t.stmt.rows[i][col])
  }

  lemma {:induction false} RowsShape(docs: seq<seq<Entry>>, cols: seq<Entry>, n: nat, all: seq<Val>, i: nat)
    requires i < |docs| && IssuedAt(all, n, Rows(docs, cols, n).args)
    ensures var rows := Rows(docs, cols, n).parts;
      && |rows| == |docs| && |rows[i]| == |cols|
      && forall c :: 0 <= c < |cols| ==> Arg(all, rows[i][c]) == Lookup(docs[i], cols[c].key)
    decreases |docs|
  {
    var rest := Rows(docs[1..], cols, n + |cols|);
    RowsCount(docs, cols, n);
    IssuedSplit(all, n, RowValues(docs[0], cols), rest.args);
    if i == 0 {
      forall c | 0 <= c < |cols| ensures Arg(all, n + 1 + c) == Lookup(docs[0], cols[c].key) {
        assert all[n + c] == all[n..n + |cols|][c];
      }
    } else {
      RowsShape(docs[1..], cols, n + |cols|, all, i - 1);
    }
  }

  lemma {:induction false} RowsCount(docs: seq<seq<Entry>>, cols: seq<Entry>, n: nat)
    ensures |Rows(docs, cols, n).parts| == |docs|
    decreases |docs|
  {
    if docs != [] { RowsCount(docs[1..], cols, n + |cols|); }
  }

  lemma {:induction false} IdentsAre(names: seq<Entry>)
    requires Idents(names).Ok?
    ensures |Idents(names).value| == |names| && forall i :: 0 <= i < |names| ==> Idents(names).value[i] == names[i].key
  {
    if names != [] { IdentsAre(names[1..]); }
  }

  /** Every document becomes one row, in order. Its columns are the keys of the first document,
      and each holds what the document has under that key, or null. */
  lemma InsertStores(d: Dialect, req: Request, i: nat)
    requires req.capability in {WriteOne, WriteMany} && Translate(d, req).Ok? && !Filters(req)
    requires i < |Documents(req)|
    ensures var t := Translate(d, req).value; var docs := Documents(req);
      && t.stmt.Insert? && |t.stmt.rows| == |docs| && |t.stmt.rows[i]| == |t.stmt.cols| == |docs[0]|
      && forall c :: 0 <= c < |docs[0]| ==> t.stmt.cols[c] == docs[0][c].key && Stored(t, i, c) == Lookup(docs[i], docs[0][c].key)
  {
    var t := Translate(d, req).value;
    IdentsAre(Documents(req)[0]);
    assert t.args[0..|t.args|] == t.args;
    RowsShape(Documents(req), Documents(req)[0], 0, t.args, i);
  }

  /** What document `i` says under `key` can be read back from its row. */
  ghost predicate Kept(t: Translated, i: nat, key: string, val: Val)
    requires t.stmt.Insert? && i < |t.stmt.rows| && |t.stmt.rows[i]| == |t.stmt.cols|
  {
    exists c :: 0 <= c < |t.stmt.cols| && t.stmt.cols[c] == key && Stored(t, i, c) == val
  }

  /** An entry of a document survives exactly when the first document has its key: the others'
      extra fields are dropped without an error. */
  lemma InsertKeepsExactly(d: Dialect, req: Request, i: nat, e: nat)
    requires req.capability in {WriteOne, WriteMany} && Translate(d, req).Ok? && !Filters(req)
    requires i < |Documents(req)| && e < |Documents(req)[i]| && DistinctKeys(Documents(req)[i])
    ensures var t := Translate(d, req).value;
      t.stmt.Insert? && i < |t.stmt.rows| && |t.stmt.rows[i]| == |t.stmt.cols|
    ensures Kept(Translate(d, req).value, i, Documents(req)[i][e].key, Documents(req)[i][e].val)
      <==> Holds(Documents(req)[0], Documents(req)[i][e].key)
  {
    var t := Translate(d, req).value;
    var docs: seq<seq<Entry>> := Documents(req);
    var entry: Entry := docs[i][e];
    var key, val := entry.key, entry.val;
    InsertStores(d, req, i);
    LookupAt(docs[i], e);
    if Holds(docs[0], key) {
      var c :| 0 <= c < |docs[0]| && docs[0][c].key == key;
      assert t.stmt.cols[c] == key && Stored(t, i, c) == val;
    }
    if Kept(t, i, key, val) {
      var c :| 0 <= c < |t.stmt.cols| && t.stmt.cols[c] == key && Stored(t, i, c) == val;
      assert docs[0][c].key == key;
    }
  }

  // --------------------------------------------------------- dialect agreement

  predicate EmptyIn(op: Entry) { op.key == "$in" && op.val == List([]) }

  predicate NoEmptyInField(f: Entry) {
    f.val.Dict? ==> forall j :: 0 <= j < |f.val.entries| ==> !EmptyIn(f.val.entries[j])
  }

  predicate NoEmptyIn(filter: seq<Entry>) { forall i :: 0 <= i < |filter| ==> NoEmptyInField(filter[i]) }

  /** Whether the clauses are accepted does not depend on how many arguments came before. */
  lemma {:induction false} OpsAccepted(col: string, ops: seq<Entry>, n: nat, m: nat)
    ensures OpClauses(MySql, col, ops, n).Ok?
      <==> OpClauses(Postgres, col, ops, m).Ok? && forall j :: 0 <= j < |ops| ==> !EmptyIn(ops[j])
    decreases |ops|
  {
    if ops != [] {
      var a, b := OpClause(MySql, col, ops[0], n), OpClause(Postgres, col, ops[0], m);
      assert a.Ok? <==> b.Ok? && !EmptyIn(ops[0]);
      OpsAccepted(col, ops[1..], n + (if a.Ok? then |a.value.args| else 0), m + if b.Ok? then |b.value.args| else 0);
      assert forall j :: 0 < j < |ops| ==> ops[j] == ops[1..][j - 1];
      assert forall j :: 0 <= j < |ops[1..]| ==> ops[1..][j] == ops[j + 1];
    }
  }

  lemma FieldAccepted(f: Entry, n: nat, m: nat)
    ensures FieldClauses(MySql, f, n).Ok? <==> FieldClauses(Postgres, f, m).Ok? && NoEmptyInField(f)
  {
    if f.val.Dict? { OpsAccepted(f.key, f.val.entries, n, m); }
  }

  lemma {:induction false} NoEmptyInSplit(filter: seq<Entry>)
    requires filter != []
    ensures NoEmptyIn(filter) <==> NoEmptyInField(filter[0]) && NoEmptyIn(filter[1..])
  {
    assert forall j :: 0 < j < |filter| ==> filter[j] == filter[1..][j - 1];
    assert forall j :: 0 <= j < |filter[1..]| ==> filter[1..][j] == filter[j + 1];
  }

  lemma {:induction false} FilterAccepted(filter: seq<Entry>, n: nat, m: nat)
    ensures FilterClauses(MySql, filter, n).Ok? <==> FilterClauses(Postgres, filter, m).Ok? && NoEmptyIn(filter)
    decreases |filter|
  {
    if filter != [] {
      var a, b := FieldClauses(MySql, filter[0], n), FieldClauses(Postgres, filter[0], m);
      FieldAccepted(filter[0], n, m);
      FilterAccepted(filter[1..], n + (if a.Ok? then |a.value.args| else 0), m + if b.Ok? then |b.value.args| else 0);
      NoEmptyInSplit(filter);
    }
  }

  predicate DataRequest(req: Request) {
    req.capability in {Read, Explain, Count, WriteOne, WriteMany, DeleteOne, DeleteMany}
  }

  /** The values a filter binds, each list of `$in` spread out. */
  function OpValues(op: Entry): seq<Val> { if op.key == "$in" then Items(op.val) else [op.val] }

  function OpsValues(ops: seq<Entry>): seq<Val> { if ops == [] then [] else OpValues(ops[0]) + OpsValues(ops[1..]) }

  function FieldValues(f: Entry): seq<Val> { if f.val.Dict? then OpsValues(f.val.entries) else [f.val] }

  function FilterValues(filter: seq<Entry>): seq<Val> {
    if filter == [] then [] else FieldValues(filter[0]) + FilterValues(filter[1..])
  }

  /** The arguments of the clauses, with an array bound to `ANY` spread out. */
  function Flat(where: seq<Clause>, args: seq<Val>): seq<Val> {
    if where == [] then [] else FlatClause(where[0], args) + Flat(where[1..], args)
  }

  function FlatClause(c: Clause, args: seq<Val>): seq<Val> {
    match c
    case Compare(_, _, ph) => [Arg(args, ph)]
    case AnyOf(_, ph) => Items(Arg(args, ph))
    case InList(_, phs) => Bound(args, phs)
  }

  lemma FlatCons(c: Clause, rest: seq<Clause>, args: seq<Val>)
    ensures Flat([c] + rest, args) == FlatClause(c, args) + Flat(rest, args)
  {
    assert ([c] + rest)[1..] == rest;
  }

  lemma ConsParts<T>(a: seq<T>, b: seq<T>)
    requires a != []
    ensures a == [a[0]] + a[1..] && a + b == [a[0]] + (a[1..] + b)
  {
  }

  lemma {:induction false} FlatAppend(a: seq<Clause>, b: seq<Clause>, args: seq<Val>)
    ensures Flat(a + b, args) == Flat(a, args) + Flat(b, args)
  {
    if a == [] {
      assert a + b == b;
    } else {
      var c, rest := a[0], a[1..];
      FlatAppend(rest, b, args);
      FlatCons(c, rest + b, args);
      FlatCons(c, rest, args);
      ConsParts(a, b);
      Regroup(FlatClause(c, args), Flat(rest, args), Flat(b, args));
    }
  }

  lemma OpFlat(d: Dialect, col: string, op: Entry, n: nat, all: seq<Val>)
    requires OpClause(d, col, op, n).Ok? && IssuedAt(all, n, OpClause(d, col, op, n).value.args)
    ensures Flat(OpClause(d, col, op, n).value.parts, all) == OpValues(op)
  {
    var b := OpClause(d, col, op, n).value;
    assert b.parts[1..] == [];
    if op.key == "$in" && d.MySql? {
      var vs := Bound(all, b.parts[0].phs);
      forall i | 0 <= i < |vs| ensures vs[i] == op.val.items[i] {
        assert vs[i] == all[n + i] == all[n..n + |b.args|][i];
      }
      assert Flat(b.parts, all) == vs == op.val.items;
    } else {
      assert all[n] == all[n..n + 1][0];
    }
  }

  lemma OpsParts(d: Dialect, col: string, ops: seq<Entry>, n: nat, all: seq<Val>)
    returns (first: Built<Clause>, rest: Built<Clause>)
    requires ops != [] && OpClauses(d, col, ops, n).Ok? && IssuedAt(all, n, OpClauses(d, col, ops, n).value.args)
    ensures OpClauses(d, col, ops, n) == Ok(Then(first, rest)) && OpClauses(d, col, ops[1..], n + |first.args|) == Ok(rest)
    ensures Flat(first.parts, all) == OpValues(ops[0]) && IssuedAt(all, n + |first.args|, rest.args)
  {
    first := OpClause(d, col, ops[0], n).value;
    rest := OpClauses(d, col, ops[1..], n + |first.args|).value;
    IssuedSplit(all, n, first.args, rest.args);
    OpFlat(d, col, ops[0], n, all);
  }

  lemma {:induction false} OpsFlat(d: Dialect, col: string, ops: seq<Entry>, n: nat, all: seq<Val>)
    requires OpClauses(d, col, ops, n).Ok? && IssuedAt(all, n, OpClauses(d, col, ops, n).value.args)
    ensures Flat(OpClauses(d, col, ops, n).value.parts, all) == OpsValues(ops)
    decreases |ops|
  {
    if ops != [] {
      var first, rest := OpsParts(d, col, ops, n, all);
      OpsFlat(d, col, ops[1..], n + |first.args|, all);
      FlatThen(first, rest, all, OpValues(ops[0]), OpsValues(ops[1..]));
    }
  }

  lemma FlatThen(first: Built<Clause>, rest: Built<Clause>, all: seq<Val>, x: seq<Val>, y: seq<Val>)
    requires Flat(first.parts, all) == x && Flat(rest.parts, all) == y
    ensures Flat(Then(first, rest).parts, all) == x + y
  {
    FlatAppend(first.parts, rest.parts, all);
  }

  lemma FieldFlat(d: Dialect, f: Entry, n: nat, all: seq<Val>)
    requires FieldClauses(d, f, n).Ok? && IssuedAt(all, n, FieldClauses(d, f, n).value.args)
    ensures Flat(FieldClauses(d, f, n).value.parts, all) == FieldValues(f)
  {
    if f.val.Dict? {
      OpsFlat(d, f.key, f.val.entries, n, all);
    } else {
      assert FieldClauses(d, f, n).value.parts[1..] == [];
      assert all[n] == all[n..n + 1][0];
    }
  }

  lemma {:induction false} FilterFlat(d: Dialect, filter: seq<Entry>, n: nat, all: seq<Val>)
    requires FilterClauses(d, filter, n).Ok? && IssuedAt(all, n, FilterClauses(d, filter, n).value.args)
    ensures Flat(FilterClauses(d, filter, n).value.parts, all) == FilterValues(filter)
    decreases |filter|
  {
    if filter != [] {
      var first := FieldClauses(d, filter[0], n).value;
      var rest := FilterClauses(d, filter[1..], n + |first.args|).value;
      assert FilterClauses(d, filter, n).value == Then(first, rest);
      IssuedSplit(all, n, first.args, rest.args);
      FieldFlat(d, filter[0], n, all);
      FilterFlat(d, filter[1..], n + |first.args|, all);
      FlatThen(first, rest, all, FieldValues(filter[0]), FilterValues(filter[1..]));
    }
  }

  lemma {:induction false} OpsArgs(col: string, ops: seq<Entry>, n: nat)
    requires OpClauses(MySql, col, ops, n).Ok?
    ensures OpClauses(MySql, col, ops, n).value.args == OpsValues(ops)
    decreases |ops|
  {
    if ops != [] { OpsArgs(col, ops[1..], n + |OpClause(MySql, col, ops[0], n).value.args|); }
  }

  /** MySQL binds the values as they are. */
  lemma {:induction false} FilterArgs(filter: seq<Entry>, n: nat)
    requires FilterClauses(MySql, filter, n).Ok?
    ensures FilterClauses(MySql, filter, n).value.args == FilterValues(filter)
    decreases |filter|
  {
    if filter != [] {
      if filter[0].val.Dict? { OpsArgs(filter[0].key, filter[0].val.entries, n); }
      FilterArgs(filter[1..], n + |FieldClauses(MySql, filter[0], n).value.args|);
    }
  }

  /** The arguments of a statement in the order of its text, arrays spread out. */
  function Flattened(t: Translated): seq<Val> {
    match t.stmt
    case Select(_, _, _, where, limit, offset) => Flat(where, t.args) + Paged(t.args, limit) + Paged(t.args, offset)
    case Update(_, sets, where) => t.args[..if |sets| <= |t.args| then |sets| else 0] + Flat(where, t.args)
    case SelectCount(_, where) => Flat(where, t.args)
    case Delete(_, where) => Flat(where, t.args)
    case DeleteSingle(_, where) => Flat(where, t.args)
    case _ => t.args
  }

  /** What a request binds, whatever the dialect. */
  function BoundBy(req: Request): seq<Val> {
    match req.capability
    case WriteOne => if Filters(req) then Vals(SetDoc(req)) + FilterValues(Entries(req.filter)) else DocValues(Documents(req))
    case WriteMany => DocValues(Documents(req))
    case _ => FilterValues(Entries(req.filter)) + if req.capability in {Read, Explain} then Paging(req) else []
  }

  function Vals(doc: seq<Entry>): seq<Val> { seq(|doc|, i requires 0 <= i < |doc| => doc[i].val) }

  function DocValues(docs: seq<seq<Entry>>): seq<Val> {
    if docs == [] then [] else Rows(docs, docs[0], 0).args
  }

  lemma FlattenedFilter(d: Dialect, req: Request)
    requires Filters(req) && Translate(d, req).Ok? && req.capability in {Count, DeleteOne, DeleteMany}
    ensures Flattened(Translate(d, req).value) == BoundBy(req)
    ensures d.MySql? ==> Translate(d, req).value.args == BoundBy(req)
  {
    WhereOf(d, req);
    FilterFlat(d, Entries(req.filter), 0, Translate(d, req).value.args);
    if d.MySql? { FilterArgs(Entries(req.filter), 0); }
  }

  lemma ReadFlat(d: Dialect, req: Request, explain: bool)
    requires TranslateRead(d, req, explain).Ok?
    ensures var t := TranslateRead(d, req, explain).value;
      && Flattened(t) == FilterValues(Entries(req.filter)) + Paging(req)
      && (d.MySql? ==> t.args == FilterValues(Entries(req.filter)) + Paging(req))
  {
    ReadArgs(d, req, explain);
    var t := TranslateRead(d, req, explain).value;
    var w, f := Where(d, req.filter, 0).value.args, FilterValues(Entries(req.filter));
    var limits, offsets := Paged(t.args, t.stmt.limit), Paged(t.args, t.stmt.offset);
    assert t.args[0..|w|] == w;
    FilterFlat(d, Entries(req.filter), 0, t.args);
    if d.MySql? { FilterArgs(Entries(req.filter), 0); }
    Regroup(f, limits, offsets);
  }

  lemma FlattenedRead(d: Dialect, req: Request)
    requires Translate(d, req).Ok? && (req.capability.Read? || req.capability.Explain?)
    ensures Flattened(Translate(d, req).value) == BoundBy(req)
    ensures d.MySql? ==> Translate(d, req).value.args == BoundBy(req)
  {
    var explain := req.capability.Explain?;
    ReadFlat(d, req, explain);
    assert Translate(d, req) == TranslateRead(d, req, explain);
    assert BoundBy(req) == FilterValues(Entries(req.filter)) + Paging(req);
  }

  lemma FlattenedUpdate(d: Dialect, req: Request)
    requires Translate(d, req).Ok? && req.capability == WriteOne && Filters(req)
    ensures Flattened(Translate(d, req).value) == BoundBy(req)
    ensures d.MySql? ==> Translate(d, req).value.args == BoundBy(req)
  {
    var t := Translate(d, req).value;
    WhereOf(d, req);
    SetsShape(SetDoc(req), 0);
    FilterFlat(d, Entries(req.filter), Before(req), t.args);
    if d.MySql? { FilterArgs(Entries(req.filter), Before(req)); }
    assert Sets(SetDoc(req), 0).value.args == Vals(SetDoc(req));
  }

  lemma FlattenedInsert(d: Dialect, req: Request)
    requires Translate(d, req).Ok? && req.capability in {WriteOne, WriteMany} && !Filters(req)
    ensures Flattened(Translate(d, req).value) == BoundBy(req) == Translate(d, req).value.args
  {
  }

  lemma FlattenedWrite(d: Dialect, req: Request)
    requires Translate(d, req).Ok? && req.capability in {WriteOne, WriteMany}
    ensures Flattened(Translate(d, req).value) == BoundBy(req)
    ensures d.MySql? ==> Translate(d, req).value.args == BoundBy(req)
  {
    if Filters(req) { FlattenedUpdate(d, req); } else { FlattenedInsert(d, req); }
  }

  /** For reads, explains, counts, inserts, updates and deletes: MySQL accepts exactly the requests
      that Postgres accepts and whose filter, where it is used, holds no empty `$in` list. */
  lemma DialectsAccept(req: Request)
    requires DataRequest(req)
    ensures Translate(MySql, req).Ok?
      <==> Translate(Postgres, req).Ok? && (Filters(req) ==> NoEmptyIn(Entries(req.filter)))
  {
    FilterAccepted(Entries(req.filter), Before(req), Before(req));
    if req.capability == WriteOne && Filters(req) {
      if Sets(SetDoc(req), 0).Ok? { SetsShape(SetDoc(req), 0); }
    } else if req.capability == DeleteOne {
      FilterConditions(Entries(req.filter), 0);
    }
  }

  /** Both dialects have a clause, or neither has. */
  lemma {:induction false} FilterConditions(filter: seq<Entry>, n: nat)
    ensures FilterClauses(MySql, filter, n).Ok? ==>
      FilterClauses(Postgres, filter, n).Ok?
      && |FilterClauses(MySql, filter, n).value.parts| == |FilterClauses(Postgres, filter, n).value.parts|
  {
    FilterCounts(MySql, filter, n);
    FilterCounts(Postgres, filter, n);
    FilterAccepted(filter, n, n);
  }

  function ClauseCount(filter: seq<Entry>): nat {
    if filter == [] then 0 else (if filter[0].val.Dict? then |filter[0].val.entries| else 1) + ClauseCount(filter[1..])
  }

  lemma {:induction false} OpsCounts(d: Dialect, col: string, ops: seq<Entry>, n: nat)
    ensures OpClauses(d, col, ops, n).Ok? ==> |OpClauses(d, col, ops, n).value.parts| == |ops|
    decreases |ops|
  {
    if ops != [] && OpClause(d, col, ops[0], n).Ok? {
      OpsCounts(d, col, ops[1..], n + |OpClause(d, col, ops[0], n).value.args|);
    }
  }

  lemma {:induction false} FilterCounts(d: Dialect, filter: seq<Entry>, n: nat)
    ensures FilterClauses(d, filter, n).Ok? ==> |FilterClauses(d, filter, n).value.parts| == ClauseCount(filter)
    decreases |filter|
  {
    if filter != [] && FieldClauses(d, filter[0], n).Ok? {
      if filter[0].val.Dict? { OpsCounts(d, filter[0].key, filter[0].val.entries, n); }
      FilterCounts(d, filter[1..], n + |FieldClauses(d, filter[0], n).value.args|);
    }
  }

  /** Once the arrays of Postgres are spread out, both dialects bind the same values in the
      same order; MySQL binds exactly these. */
  lemma DialectsBindSame(req: Request)
    requires DataRequest(req) && Translate(MySql, req).Ok?
    ensures Translate(Postgres, req).Ok?
    ensures Flattened(Translate(Postgres, req).value) == Translate(MySql, req).value.args == BoundBy(req)
  {
    DialectsAccept(req);
    match req.capability {
      case Read => FlattenedRead(MySql, req); FlattenedRead(Postgres, req);
      case Explain => FlattenedRead(MySql, req); FlattenedRead(Postgres, req);
      case WriteOne => FlattenedWrite(MySql, req); FlattenedWrite(Postgres, req);
      case WriteMany => FlattenedWrite(MySql, req); FlattenedWrite(Postgres, req);
      case _ => FlattenedFilter(MySql, req); FlattenedFilter(Postgres, req);
    }
  }

  /** Both dialects pick the same rows. */
  lemma DialectsPickSame(cmp: Comparison, req: Request, row: Row)
    requires Filters(req) && Translate(MySql, req).Ok?
    ensures Translate(Postgres, req).Ok?
    ensures HasWhere(Translate(MySql, req).value.stmt) && HasWhere(Translate(Postgres, req).value.stmt)
    ensures Selected(cmp, Translate(MySql, req).value, row) <==> Selected(cmp, Translate(Postgres, req).value, row)
  {
    DialectsAccept(req);
    SelectsExactly(cmp, MySql, req, row);
    SelectsExactly(cmp, Postgres, req, row);
  }
}
