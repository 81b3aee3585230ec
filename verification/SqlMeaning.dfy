/** What the translated statements are: token sequences whose placeholders line up with the
    arguments, and queries with a meaning under SQL's three-valued logic. */
module SqlMeaning {
  import opened Common
  import opened Values
  import opened SqlTranslate

  // ---------------------------------------------------------------- tokens

  datatype Keyword =
    | EXPLAIN | SELECT | COUNT_ALL | FROM | WHERE | AND | IN | ANY | LIMIT | OFFSET | STAR
    | INSERT_INTO | VALUES | RETURNING_ALL | UPDATE | SET | DELETE_FROM | CTID | ONE | OPEN | CLOSE | COMMA
    | QUERY_TEXT

  datatype Token = Key(k: Keyword) | Op(op: CmpOp) | Name(name: string) | Hole(ph: nat)

  function HoleList(phs: seq<nat>): seq<Token> {
    if phs == [] then []
    else [Hole(phs[0])] + (if |phs| == 1 then [] else [Key(COMMA)]) + HoleList(phs[1..])
  }

  function ClauseTokens(c: Clause): seq<Token> {
    match c
    case Compare(col, op, ph) => [Name(col)] + [Op(op)] + [Hole(ph)]
    case AnyOf(col, ph) => [Name(col)] + [Op(Eq)] + [Key(ANY)] + [Key(OPEN)] + [Hole(ph)] + [Key(CLOSE)]
    case InList(col, phs) => [Name(col)] + [Key(IN)] + [Key(OPEN)] + HoleList(phs) + [Key(CLOSE)]
  }

  function WhereTokens(where: seq<Clause>): seq<Token> {
    if where == [] then []
    else ClauseTokens(where[0]) + (if |where| == 1 then [] else [Key(AND)]) + WhereTokens(where[1..])
  }

  function WhereSuffix(where: seq<Clause>): seq<Token> {
    if where == [] then [] else [Key(WHERE)] + WhereTokens(where)
  }

  function SetTokens(sets: seq<Assignment>): seq<Token> {
    if sets == [] then []
    else [Name(sets[0].col)] + [Op(Eq)] + [Hole(sets[0].ph)] + (if |sets| == 1 then [] else [Key(COMMA)]) + SetTokens(sets[1..])
  }

  function RowTokens(rows: seq<seq<nat>>): seq<Token> {
    if rows == [] then []
    else [Key(OPEN)] + HoleList(rows[0]) + [Key(CLOSE)] + (if |rows| == 1 then [] else [Key(COMMA)]) + RowTokens(rows[1..])
  }

  function ColumnTokens(cols: seq<string>): seq<Token> {
    if cols == [] then [] else [Name(cols[0])] + (if |cols| == 1 then [] else [Key(COMMA)]) + ColumnTokens(cols[1..])
  }

  function Returning(d: Dialect): seq<Token> { if d.SupportsReturning() then [Key(RETURNING_ALL)] else [] }

  function Optional(k: Keyword, ph: Option<nat>): seq<Token> { if ph.Some? then [Key(k)] + [Hole(ph.value)] else [] }

  function QueryTokens(q: CatalogQuery): seq<Token> {
    match q
    case ColumnsOf(table, schema) => [Key(QUERY_TEXT)] + [Hole(table)] + Optional(QUERY_TEXT, schema) + [Key(QUERY_TEXT)]
    case ColumnsHere(table) => [Key(QUERY_TEXT)] + [Hole(table)] + [Key(QUERY_TEXT)]
    case IndexesOf(table) => [Key(QUERY_TEXT)] + [Hole(table)]
    case ShowIndex(name) => [Key(QUERY_TEXT)] + [Name(name)]
    case TablesOf(schema) => [Key(QUERY_TEXT)] + [Hole(schema)]
    case TablesHere => [Key(QUERY_TEXT)]
    case AllDatabases => [Key(QUERY_TEXT)]
    case DatabaseSize => [Key(QUERY_TEXT)]
  }

  function SelectHead(explain: bool, cols: seq<string>, table: string): seq<Token> {
    (if explain then [Key(EXPLAIN)] else []) + [Key(SELECT)] + (if cols == [] then [Key(STAR)] else ColumnTokens(cols))
    + [Key(FROM)] + [Name(table)]
  }

  /** The statement as the translator writes it. */
  function Tokens(d: Dialect, stmt: Statement): seq<Token> {
    match stmt
    case Select(explain, cols, table, where, limit, offset) =>
      SelectHead(explain, cols, table) + WhereSuffix(where) + Optional(LIMIT, limit) + Optional(OFFSET, offset)
    case SelectCount(table, where) => [Key(SELECT)] + [Key(COUNT_ALL)] + [Key(FROM)] + [Name(table)] + WhereSuffix(where)
    case Insert(table, cols, rows) =>
      [Key(INSERT_INTO)] + [Name(table)] + [Key(OPEN)] + ColumnTokens(cols) + [Key(CLOSE)] + [Key(VALUES)]
      + RowTokens(rows) + Returning(d)
    case Update(table, sets, where) =>
      [Key(UPDATE)] + [Name(table)] + [Key(SET)] + SetTokens(sets) + WhereSuffix(where) + Returning(d)
    case Delete(table, where) => [Key(DELETE_FROM)] + [Name(table)] + WhereSuffix(where)
    case DeleteSingle(table, where) =>
      (match d
       case Postgres =>
         [Key(DELETE_FROM)] + [Name(table)] + [Key(WHERE)] + [Key(CTID)] + [Key(IN)] + [Key(OPEN)] + [Key(SELECT)] + [Key(CTID)]
         + [Key(FROM)] + [Name(table)] + WhereSuffix(where) + [Key(LIMIT)] + [Key(ONE)] + [Key(CLOSE)]
       case MySql => [Key(DELETE_FROM)] + [Name(table)] + WhereSuffix(where) + [Key(LIMIT)] + [Key(ONE)])
    case Catalog(query) => QueryTokens(query)
  }

  /** The placeholders of a token sequence, in its order. */
  function Holes(ts: seq<Token>): seq<nat> {
    if ts == [] then [] else (if ts[0].Hole? then [ts[0].ph] else []) + Holes(ts[1..])
  }

  // ------------------------------------------------------------- alignment

  lemma {:induction false} HolesAppend(a: seq<Token>, b: seq<Token>)
    ensures Holes(a + b) == Holes(a) + Holes(b)
  {
    if a == [] {
      assert a + b == b;
    } else {
      HolesAppend(a[1..], b);
      assert (a + b)[1..] == a[1..] + b;
    }
  }

  /** A token that is no placeholder may stand anywhere. */
  lemma Skip(a: seq<Token>, t: Token)
    requires !t.Hole?
    ensures Holes(a + [t]) == Holes(a)
  {
    HolesAppend(a, [t]);
  }

  lemma Issue(a: seq<Token>, ph: nat)
    ensures Holes(a + [Hole(ph)]) == Holes(a) + [ph]
  {
    HolesAppend(a, [Hole(ph)]);
  }

  lemma RangeAppend(from: nat, i: nat, j: nat)
    ensures Range(from, i) + Range(from + i, j) == Range(from, i + j)
  {
  }

  lemma {:induction false} HoleListHoles(phs: seq<nat>)
    ensures Holes(HoleList(phs)) == phs
  {
    if phs != [] {
      HoleListHoles(phs[1..]);
      var head := [Hole(phs[0])] + (if |phs| == 1 then [] else [Key(COMMA)]);
      assert Holes(head) == [phs[0]] by {
        if |phs| == 1 { assert head == [Hole(phs[0])]; } else { Skip([Hole(phs[0])], Key(COMMA)); }
      }
      HolesAppend(head, HoleList(phs[1..]));
    }
  }

  function ClauseHoles(c: Clause): seq<nat> {
    match c case Compare(_, _, ph) => [ph] case AnyOf(_, ph) => [ph] case InList(_, phs) => phs
  }

  function WhereHoles(where: seq<Clause>): seq<nat> {
    if where == [] then [] else ClauseHoles(where[0]) + WhereHoles(where[1..])
  }

  lemma ClauseTokensHoles(c: Clause)
    ensures Holes(ClauseTokens(c)) == ClauseHoles(c)
  {
    var n := [Name(c.col)];
    match c {
      case Compare(col, op, ph) =>
        Skip(n, Op(op));
        Issue(n + [Op(op)], ph);
      case AnyOf(col, ph) =>
        Skip(n, Op(Eq));
        Skip(n + [Op(Eq)], Key(ANY));
        var head := n + [Op(Eq)] + [Key(ANY)] + [Key(OPEN)];
        Skip(n + [Op(Eq)] + [Key(ANY)], Key(OPEN));
        Issue(head, ph);
        Skip(head + [Hole(ph)], Key(CLOSE));
      case InList(col, phs) =>
        Skip(n, Key(IN));
        var head := n + [Key(IN)] + [Key(OPEN)];
        Skip(n + [Key(IN)], Key(OPEN));
        HolesAppend(head, HoleList(phs));
        Skip(head + HoleList(phs), Key(CLOSE));
        HoleListHoles(phs);
    }
  }

  lemma {:induction false} WhereTokensHoles(where: seq<Clause>)
    ensures Holes(WhereTokens(where)) == WhereHoles(where)
  {
    if where != [] {
      WhereTokensHoles(where[1..]);
      ClauseTokensHoles(where[0]);
      var c := ClauseTokens(where[0]);
      var head := c + (if |where| == 1 then [] else [Key(AND)]);
      assert Holes(head) == Holes(c) by {
        if |where| == 1 { assert head == c; } else { Skip(c, Key(AND)); }
      }
      HolesAppend(head, WhereTokens(where[1..]));
    }
  }

  lemma WhereSuffixHoles(where: seq<Clause>)
    ensures Holes(WhereSuffix(where)) == WhereHoles(where)
  {
    if where != [] {
      WhereTokensHoles(where);
      HolesAppend([Key(WHERE)], WhereTokens(where));
    }
  }

  lemma {:induction false} WhereHolesAppend(a: seq<Clause>, b: seq<Clause>)
    ensures WhereHoles(a + b) == WhereHoles(a) + WhereHoles(b)
  {
    if a == [] {
      assert a + b == b;
    } else {
      WhereHolesAppend(a[1..], b);
      assert (a + b)[1..] == a[1..] + b;
      Regroup(ClauseHoles(a[0]), WhereHoles(a[1..]), WhereHoles(b));
    }
  }

  lemma OpHoles(d: Dialect, col: string, op: Entry, n: nat)
    requires OpClause(d, col, op, n).Ok?
    ensures var b := OpClause(d, col, op, n).value; WhereHoles(b.parts) == Range(n + 1, |b.args|)
  {
    var b := OpClause(d, col, op, n).value;
    assert b.parts[1..] == [];
    assert WhereHoles(b.parts) == ClauseHoles(b.parts[0]);
  }

  lemma ThenHoles(first: Built<Clause>, rest: Built<Clause>, n: nat)
    requires WhereHoles(first.parts) == Range(n + 1, |first.args|)
    requires WhereHoles(rest.parts) == Range(n + |first.args| + 1, |rest.args|)
    ensures WhereHoles(Then(first, rest).parts) == Range(n + 1, |Then(first, rest).args|)
  {
    WhereHolesAppend(first.parts, rest.parts);
    RangeAppend(n + 1, |first.args|, |rest.args|);
  }

  lemma {:induction false} OpsHoles(d: Dialect, col: string, ops: seq<Entry>, n: nat)
    requires OpClauses(d, col, ops, n).Ok?
    ensures var b := OpClauses(d, col, ops, n).value; WhereHoles(b.parts) == Range(n + 1, |b.args|)
    decreases |ops|
  {
    if ops != [] {
      var first := OpClause(d, col, ops[0], n).value;
      OpHoles(d, col, ops[0], n);
      OpsHoles(d, col, ops[1..], n + |first.args|);
      var rest := OpClauses(d, col, ops[1..], n + |first.args|).value;
      ThenHoles(first, rest, n);
    }
  }

  lemma FieldHoles(d: Dialect, f: Entry, n: nat)
    requires FieldClauses(d, f, n).Ok?
    ensures var b := FieldClauses(d, f, n).value; WhereHoles(b.parts) == Range(n + 1, |b.args|)
  {
    if f.val.Dict? {
      OpsHoles(d, f.key, f.val.entries, n);
    } else {
      var b := FieldClauses(d, f, n).value;
      assert b.parts[1..] == [];
      assert WhereHoles(b.parts) == ClauseHoles(b.parts[0]);
    }
  }

  lemma {:induction false} FilterHoles(d: Dialect, filter: seq<Entry>, n: nat)
    requires FilterClauses(d, filter, n).Ok?
    ensures var b := FilterClauses(d, filter, n).value; WhereHoles(b.parts) == Range(n + 1, |b.args|)
    decreases |filter|
  {
    if filter != [] {
      var first := FieldClauses(d, filter[0], n).value;
      FieldHoles(d, filter[0], n);
      FilterHoles(d, filter[1..], n + |first.args|);
      var rest := FilterClauses(d, filter[1..], n + |first.args|).value;
      ThenHoles(first, rest, n);
    }
  }

  lemma {:induction false} SetsHoles(doc: seq<Entry>, n: nat)
    requires Sets(doc, n).Ok?
    ensures var b := Sets(doc, n).value; Holes(SetTokens(b.parts)) == Range(n + 1, |b.args|)
    decreases |doc|
  {
    if doc != [] {
      SetsHoles(doc[1..], n + 1);
      var b, rest := Sets(doc, n).value, Sets(doc[1..], n + 1).value;
      assert b.parts[1..] == rest.parts;
      var name := [Name(b.parts[0].col)];
      var head := name + [Op(Eq)] + [Hole(n + 1)];
      Skip(name, Op(Eq));
      Issue(name + [Op(Eq)], n + 1);
      var head' := head + (if |b.parts| == 1 then [] else [Key(COMMA)]);
      assert Holes(head') == [n + 1] by {
        if |b.parts| == 1 { assert head' == head; } else { Skip(head, Key(COMMA)); }
      }
      HolesAppend(head', SetTokens(rest.parts));
      RangeAppend(n + 1, 1, |rest.args|);
    }
  }

  lemma {:induction false} RowsHoles(docs: seq<seq<Entry>>, cols: seq<Entry>, n: nat)
    ensures var b := Rows(docs, cols, n); Holes(RowTokens(b.parts)) == Range(n + 1, |b.args|)
    decreases |docs|
  {
    if docs != [] {
      RowsHoles(docs[1..], cols, n + |cols|);
      var b, rest := Rows(docs, cols, n), Rows(docs[1..], cols, n + |cols|);
      assert b.parts[1..] == rest.parts && b.parts[0] == Range(n + 1, |cols|);
      var row := [Key(OPEN)] + HoleList(b.parts[0]) + [Key(CLOSE)];
      HolesAppend([Key(OPEN)], HoleList(b.parts[0]));
      Skip([Key(OPEN)] + HoleList(b.parts[0]), Key(CLOSE));
      HoleListHoles(b.parts[0]);
      var head := row + (if |b.parts| == 1 then [] else [Key(COMMA)]);
      assert Holes(head) == Holes(row) by {
        if |b.parts| == 1 { assert head == row; } else { Skip(row, Key(COMMA)); }
      }
      HolesAppend(head, RowTokens(rest.parts));
      RangeAppend(n + 1, |cols|, |rest.args|);
    }
  }

  lemma {:induction false} ColumnsHoles(cols: seq<string>)
    ensures Holes(ColumnTokens(cols)) == []
  {
    if cols != [] {
      ColumnsHoles(cols[1..]);
      var head := [Name(cols[0])] + (if |cols| == 1 then [] else [Key(COMMA)]);
      assert Holes(head) == [] by {
        if |cols| == 1 { assert head == [Name(cols[0])]; } else { Skip([Name(cols[0])], Key(COMMA)); }
      }
      HolesAppend(head, ColumnTokens(cols[1..]));
    }
  }

  lemma OptionalHoles(a: seq<Token>, k: Keyword, ph: Option<nat>)
    ensures Holes(a + Optional(k, ph)) == Holes(a) + (if ph.Some? then [ph.value] else [])
  {
    if ph.Some? {
      Skip(a, Key(k));
      Issue(a + [Key(k)], ph.value);
      assert a + Optional(k, ph) == a + [Key(k)] + [Hole(ph.value)];
    } else {
      assert a + Optional(k, ph) == a;
    }
  }

  lemma ReturningHoles(a: seq<Token>, d: Dialect)
    ensures Holes(a + Returning(d)) == Holes(a)
  {
    if d.SupportsReturning() { Skip(a, Key(RETURNING_ALL)); } else { assert a + [] == a; }
  }

  /** The placeholders of a statement in the order of its parts. */
  function Placeholders(stmt: Statement): seq<nat> {
    match stmt
    case Select(_, _, _, where, limit, offset) =>
      WhereHoles(where) + (if limit.Some? then [limit.value] else []) + (if offset.Some? then [offset.value] else [])
    case SelectCount(_, where) => WhereHoles(where)
    case Insert(_, _, rows) => Holes(RowTokens(rows))
    case Update(_, sets, where) => Holes(SetTokens(sets)) + WhereHoles(where)
    case Delete(_, where) => WhereHoles(where)
    case DeleteSingle(_, where) => WhereHoles(where)
    case Catalog(query) => Holes(QueryTokens(query))
  }

  lemma SelectHeadHoles(explain: bool, cols: seq<string>, table: string)
    ensures Holes(SelectHead(explain, cols, table)) == []
  {
    var a := if explain then [Key(EXPLAIN)] else [];
    assert Holes(a) == [];
    Skip(a, Key(SELECT));
    var c := if cols == [] then [Key(STAR)] else ColumnTokens(cols);
    ColumnsHoles(cols);
    assert Holes(c) == [];
    HolesAppend(a + [Key(SELECT)], c);
    Skip(a + [Key(SELECT)] + c, Key(FROM));
    Skip(a + [Key(SELECT)] + c + [Key(FROM)], Name(table));
  }

  lemma SelectTailHoles(head: seq<Token>, where: seq<Clause>, limit: Option<nat>, offset: Option<nat>)
    requires Holes(head) == []
    ensures Holes(head + WhereSuffix(where) + Optional(LIMIT, limit) + Optional(OFFSET, offset))
      == WhereHoles(where) + (if limit.Some? then [limit.value] else []) + (if offset.Some? then [offset.value] else [])
  {
    FromWhereHoles(head, where);
    var body := head + WhereSuffix(where);
    OptionalHoles(body, LIMIT, limit);
    OptionalHoles(body + Optional(LIMIT, limit), OFFSET, offset);
  }

  lemma SelectHoles(d: Dialect, stmt: Statement)
    requires stmt.Select?
    ensures Holes(Tokens(d, stmt)) == Placeholders(stmt)
  {
    var head := SelectHead(stmt.explain, stmt.cols, stmt.table);
    SelectHeadHoles(stmt.explain, stmt.cols, stmt.table);
    SelectTailHoles(head, stmt.where, stmt.limit, stmt.offset);
  }

  lemma InsertHoles(d: Dialect, stmt: Statement)
    requires stmt.Insert?
    ensures Holes(Tokens(d, stmt)) == Placeholders(stmt)
  {
    var a := [Key(INSERT_INTO)];
    Skip(a, Name(stmt.table));
    Skip(a + [Name(stmt.table)], Key(OPEN));
    var b := a + [Name(stmt.table)] + [Key(OPEN)];
    HolesAppend(b, ColumnTokens(stmt.cols));
    ColumnsHoles(stmt.cols);
    Skip(b + ColumnTokens(stmt.cols), Key(CLOSE));
    var c := b + ColumnTokens(stmt.cols) + [Key(CLOSE)];
    Skip(c, Key(VALUES));
    HolesAppend(c + [Key(VALUES)], RowTokens(stmt.rows));
    ReturningHoles(c + [Key(VALUES)] + RowTokens(stmt.rows), d);
  }

  lemma UpdateEndHoles(body: seq<Token>, where: seq<Clause>, d: Dialect)
    ensures Holes(body + WhereSuffix(where) + Returning(d)) == Holes(body) + WhereHoles(where)
  {
    HolesAppend(body, WhereSuffix(where));
    WhereSuffixHoles(where);
    ReturningHoles(body + WhereSuffix(where), d);
  }

  lemma UpdateTailHoles(head: seq<Token>, sets: seq<Assignment>, where: seq<Clause>, d: Dialect)
    requires Holes(head) == []
    ensures Holes(head + SetTokens(sets) + WhereSuffix(where) + Returning(d)) == Holes(SetTokens(sets)) + WhereHoles(where)
  {
    var body := head + SetTokens(sets);
    HolesAppend(head, SetTokens(sets));
    assert [] + Holes(SetTokens(sets)) == Holes(SetTokens(sets)) == Holes(body);
    UpdateEndHoles(body, where, d);
  }

  lemma UpdateHoles(d: Dialect, stmt: Statement)
    requires stmt.Update?
    ensures Holes(Tokens(d, stmt)) == Placeholders(stmt)
  {
    var head := [Key(UPDATE)] + [Name(stmt.table)] + [Key(SET)];
    KeysHaveNoHoles(head);
    UpdateTailHoles(head, stmt.sets, stmt.where, d);
  }

  lemma FromWhereHoles(a: seq<Token>, where: seq<Clause>)
    requires Holes(a) == []
    ensures Holes(a + WhereSuffix(where)) == WhereHoles(where)
  {
    HolesAppend(a, WhereSuffix(where));
    WhereSuffixHoles(where);
  }

  lemma KeysHaveNoHoles(ts: seq<Token>)
    requires forall i :: 0 <= i < |ts| ==> !ts[i].Hole?
    ensures Holes(ts) == []
  {
  }

  lemma DeleteHoles(d: Dialect, stmt: Statement)
    requires stmt.Delete? || stmt.DeleteSingle? || stmt.SelectCount?
    ensures Holes(Tokens(d, stmt)) == Placeholders(stmt)
  {
    var head := match stmt
      case Delete(table, _) => [Key(DELETE_FROM)] + [Name(table)]
      case DeleteSingle(table, _) =>
        (match d
         case Postgres =>
           [Key(DELETE_FROM)] + [Name(table)] + [Key(WHERE)] + [Key(CTID)] + [Key(IN)] + [Key(OPEN)] + [Key(SELECT)] + [Key(CTID)]
           + [Key(FROM)] + [Name(table)]
         case MySql => [Key(DELETE_FROM)] + [Name(table)])
      case SelectCount(table, _) => [Key(SELECT)] + [Key(COUNT_ALL)] + [Key(FROM)] + [Name(table)];
    KeysHaveNoHoles(head);
    var body := head + WhereSuffix(stmt.where);
    FromWhereHoles(head, stmt.where);
    if stmt.DeleteSingle? {
      Skip(body, Key(LIMIT));
      Skip(body + [Key(LIMIT)], Key(ONE));
      Skip(body + [Key(LIMIT)] + [Key(ONE)], Key(CLOSE));
    }
  }

  /** The tokens of a statement carry its placeholders in the order of its parts. */
  lemma TokensCarryPlaceholders(d: Dialect, stmt: Statement)
    ensures Holes(Tokens(d, stmt)) == Placeholders(stmt)
  {
    match stmt
    case Select(_, _, _, _, _, _) => SelectHoles(d, stmt);
    case Insert(_, _, _) => InsertHoles(d, stmt);
    case Update(_, _, _) => UpdateHoles(d, stmt);
    case Catalog(_) =>
    case _ => DeleteHoles(d, stmt);
  }

  lemma QueryHoles(q: CatalogQuery)
    ensures Holes(QueryTokens(q)) ==
      match q
      case ColumnsOf(table, schema) => [table] + (if schema.Some? then [schema.value] else [])
      case ColumnsHere(table) => [table]
      case IndexesOf(table) => [table]
      case TablesOf(schema) => [schema]
      case _ => []
  {
    var a := [Key(QUERY_TEXT)];
    match q {
      case ColumnsOf(table, schema) =>
        Issue(a, table);
        OptionalHoles(a + [Hole(table)], QUERY_TEXT, schema);
        Skip(a + [Hole(table)] + Optional(QUERY_TEXT, schema), Key(QUERY_TEXT));
      case ColumnsHere(table) =>
        Issue(a, table);
        Skip(a + [Hole(table)], Key(QUERY_TEXT));
      case IndexesOf(table) => Issue(a, table);
      case TablesOf(schema) => Issue(a, schema);
      case ShowIndex(name) => Skip(a, Name(name));
      case _ =>
    }
  }

  /** The k-th placeholder of the text is bound to the k-th argument: the placeholders, in the
      order of the text, are 1, 2, ..., up to the number of arguments. */
  ghost predicate Aligned(d: Dialect, t: Translated) {
    Holes(Tokens(d, t.stmt)) == Range(1, |t.args|)
  }

  ghost predicate Numbered(t: Translated) { Placeholders(t.stmt) == Range(1, |t.args|) }

  lemma RangeExtend(holes: seq<nat>, n: nat, more: seq<nat>)
    requires holes == Range(1, n) && more == Range(n + 1, |more|)
    ensures holes + more == Range(1, n + |more|)
  {
  }

  lemma PagingExtends(holes: seq<nat>, n: nat, ls: seq<nat>, os: seq<nat>)
    requires holes == Range(1, n) && |ls| <= 1 && |os| <= 1
    requires (ls != [] ==> ls[0] == n + 1) && (os != [] ==> os[0] == n + |ls| + 1)
    ensures holes + ls + os == Range(1, n + |ls| + |os|)
  {
    RangeExtend(holes, n, ls);
    RangeExtend(holes + ls, n + |ls|, os);
  }

  lemma SelectNumbered(t: Translated, n: nat)
    requires t.stmt.Select? && WhereHoles(t.stmt.where) == Range(1, n)
    requires t.stmt.limit.Some? ==> t.stmt.limit.value == n + 1
    requires t.stmt.offset.Some? ==> t.stmt.offset.value == n + (if t.stmt.limit.Some? then 1 else 0) + 1
    requires |t.args| == n + (if t.stmt.limit.Some? then 1 else 0) + (if t.stmt.offset.Some? then 1 else 0)
    ensures Numbered(t)
  {
    var ls := if t.stmt.limit.Some? then [t.stmt.limit.value] else [];
    var os := if t.stmt.offset.Some? then [t.stmt.offset.value] else [];
    PagingExtends(WhereHoles(t.stmt.where), n, ls, os);
  }

  lemma ReadNumbered(d: Dialect, req: Request, explain: bool)
    requires TranslateRead(d, req, explain).Ok?
    ensures Numbered(TranslateRead(d, req, explain).value)
  {
    var n := |Where(d, req.filter, 0).value.args|;
    FilterHoles(d, Entries(req.filter), 0);
    SelectNumbered(TranslateRead(d, req, explain).value, n);
  }

  lemma CountNumbered(d: Dialect, req: Request)
    requires TranslateCount(d, req).Ok?
    ensures Numbered(TranslateCount(d, req).value)
  {
    FilterHoles(d, Entries(req.filter), 0);
  }

  lemma DeleteNumbered(d: Dialect, req: Request, single: bool)
    requires TranslateDelete(d, req, single).Ok?
    ensures Numbered(TranslateDelete(d, req, single).value)
  {
    FilterHoles(d, Entries(req.filter), 0);
  }

  lemma UpdateNumbered(d: Dialect, req: Request)
    requires TranslateUpdate(d, req).Ok?
    ensures Numbered(TranslateUpdate(d, req).value)
  {
    var doc := SetDocument(req.update.value).entries;
    var n := |Sets(doc, 0).value.args|;
    var w := Where(d, req.filter, n).value;
    SetsHoles(doc, 0);
    FilterHoles(d, Entries(req.filter), n);
    RangeAppend(1, n, |w.args|);
  }

  lemma RowsNumbered(d: Dialect, req: Request, docs: seq<seq<Entry>>)
    requires docs != [] && TranslateRows(d, req, docs).Ok?
    ensures Numbered(TranslateRows(d, req, docs).value)
  {
    RowsHoles(docs, docs[0], 0);
  }

  lemma InsertNumbered(d: Dialect, req: Request)
    requires TranslateInsert(d, req).Ok?
    ensures Numbered(TranslateInsert(d, req).value)
  {
    if req.update.Some? && req.filter.Some? && NoDocuments(req) {
      UpdateNumbered(d, req);
    } else {
      RowsNumbered(d, req, [req.documents.value[0]]);
    }
  }

  lemma QueryNumbered(q: CatalogQuery, args: seq<Val>)
    requires match q
      case ColumnsOf(table, schema) => table == 1 && (if schema.Some? then schema.value == 2 && |args| == 2 else |args| == 1)
      case ColumnsHere(table) => table == 1 && |args| == 1
      case IndexesOf(table) => table == 1 && |args| == 1
      case TablesOf(schema) => schema == 1 && |args| == 1
      case _ => args == []
    ensures Numbered(Translated(Catalog(q), args))
  {
    QueryHoles(q);
  }

  lemma SchemaNumbered(d: Dialect, req: Request)
    requires TranslateSchema(d, req).Ok?
    ensures Numbered(TranslateSchema(d, req).value)
  {
    var t := TranslateSchema(d, req).value;
    QueryNumbered(t.stmt.query, t.args);
  }

  lemma IndexesNumbered(d: Dialect, req: Request)
    requires TranslateIndexes(d, req).Ok?
    ensures Numbered(TranslateIndexes(d, req).value)
  {
    var t := TranslateIndexes(d, req).value;
    QueryNumbered(t.stmt.query, t.args);
  }

  lemma ListNumbered(d: Dialect, req: Request)
    requires TranslateListResources(d, req).Ok?
    ensures Numbered(TranslateListResources(d, req).value)
  {
    var t := TranslateListResources(d, req).value;
    QueryNumbered(t.stmt.query, t.args);
  }

  /** For every capability and dialect, whenever the request translates at all. */
  lemma PlaceholdersAligned(d: Dialect, req: Request)
    requires Translate(d, req).Ok?
    ensures Aligned(d, Translate(d, req).value)
  {
    TokensCarryPlaceholders(d, Translate(d, req).value.stmt);
    assert Numbered(Translate(d, req).value) by {
      match req.capability {
        case Read => ReadNumbered(d, req, false);
        case Explain => ReadNumbered(d, req, true);
        case Count => CountNumbered(d, req);
        case WriteOne => InsertNumbered(d, req);
        case WriteMany => RowsNumbered(d, req, req.documents.value);
        case DeleteOne => DeleteNumbered(d, req, true);
        case DeleteMany => DeleteNumbered(d, req, false);
        case Schema => SchemaNumbered(d, req);
        case Indexes => IndexesNumbered(d, req);
        case ListResources => ListNumbered(d, req);
        case ListDatabases => QueryNumbered(AllDatabases, []);
        case Stats => QueryNumbered(DatabaseSize, []);
        case _ =>
      }
    }
  }
}
