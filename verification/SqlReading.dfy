/** Reading the text of a statement back. Proved: the text of every statement on a table reads back
    as that statement, in both dialects, so the text says neither more nor less than the statement. */
module SqlReading {
  import opened Common
  import opened SqlTranslate
  import opened SqlMeaning

  predicate Starts(ts: seq<Token>, t: Token) { ts != [] && ts[0] == t }

  predicate StartsKey(ts: seq<Token>, k: Keyword) { Starts(ts, Key(k)) }

  // ---------------------------------------------------------------- reading

  /** Placeholders with commas between, and what follows. */
  function ReadHoles(ts: seq<Token>): (r: (seq<nat>, seq<Token>))
    ensures |r.1| <= |ts|
    decreases |ts|
  {
    if ts == [] || !ts[0].Hole? then ([], ts)
    else if |ts| >= 2 && ts[1] == Key(COMMA) then
      var more := ReadHoles(ts[2..]);
      ([ts[0].ph] + more.0, more.1)
    else ([ts[0].ph], ts[1..])
  }

  function ReadNames(ts: seq<Token>): (r: (seq<string>, seq<Token>))
    ensures |r.1| <= |ts|
    decreases |ts|
  {
    if ts == [] || !ts[0].Name? then ([], ts)
    else if |ts| >= 2 && ts[1] == Key(COMMA) then
      var more := ReadNames(ts[2..]);
      ([ts[0].name] + more.0, more.1)
    else ([ts[0].name], ts[1..])
  }

  /** A list of placeholders in parentheses. */
  function ReadList(ts: seq<Token>): (r: Option<(seq<nat>, seq<Token>)>)
    ensures r.Some? ==> |r.value.1| < |ts|
  {
    if !StartsKey(ts, OPEN) then None
    else
      var holes := ReadHoles(ts[1..]);
      if StartsKey(holes.1, CLOSE) then Some((holes.0, holes.1[1..])) else None
  }

  /** A column compared with a placeholder, with any of an array, or looked up in a list. */
  function ReadClause(ts: seq<Token>): (r: Option<(Clause, seq<Token>)>)
    ensures r.Some? ==> |r.value.1| < |ts|
  {
    if |ts| < 3 || !ts[0].Name? then None
    else if ts[1].Op? && ts[2].Hole? then Some((Compare(ts[0].name, ts[1].op, ts[2].ph), ts[3..]))
    else if ts[1] == Op(Eq) && ts[2] == Key(ANY) then
      if |ts| >= 6 && ts[3] == Key(OPEN) && ts[4].Hole? && ts[5] == Key(CLOSE)
      then Some((AnyOf(ts[0].name, ts[4].ph), ts[6..])) else None
    else if ts[1] == Key(IN) then
      var list := ReadList(ts[2..]);
      if list.Some? then Some((InList(ts[0].name, list.value.0), list.value.1)) else None
    else None
  }

  function ReadClauses(ts: seq<Token>): (r: Option<(seq<Clause>, seq<Token>)>)
    ensures r.Some? ==> |r.value.1| < |ts|
    decreases |ts|
  {
    var first := ReadClause(ts);
    if first.None? then None
    else if StartsKey(first.value.1, AND) then
      var more := ReadClauses(first.value.1[1..]);
      if more.None? then None else Some(([first.value.0] + more.value.0, more.value.1))
    else Some(([first.value.0], first.value.1))
  }

  function ReadWhere(ts: seq<Token>): Option<(seq<Clause>, seq<Token>)> {
    if StartsKey(ts, WHERE) then ReadClauses(ts[1..]) else Some(([], ts))
  }

  function ReadOptional(k: Keyword, ts: seq<Token>): (Option<nat>, seq<Token>) {
    if |ts| >= 2 && ts[0] == Key(k) && ts[1].Hole? then (Some(ts[1].ph), ts[2..]) else (None, ts)
  }

  function ReadSets(ts: seq<Token>): (r: (seq<Assignment>, seq<Token>))
    ensures |r.1| <= |ts|
    decreases |ts|
  {
    if |ts| < 3 || !ts[0].Name? || ts[1] != Op(Eq) || !ts[2].Hole? then ([], ts)
    else
      var first := Assignment(ts[0].name, ts[2].ph);
      if |ts| >= 4 && ts[3] == Key(COMMA) then
        var more := ReadSets(ts[4..]);
        ([first] + more.0, more.1)
      else ([first], ts[3..])
  }

  function ReadRows(ts: seq<Token>): (r: (seq<seq<nat>>, seq<Token>))
    ensures |r.1| <= |ts|
    decreases |ts|
  {
    var first := ReadList(ts);
    if first.None? then ([], ts)
    else if StartsKey(first.value.1, COMMA) then
      var more := ReadRows(first.value.1[1..]);
      ([first.value.0] + more.0, more.1)
    else ([first.value.0], first.value.1)
  }

  /** The end of an insert or update. */
  predicate EndsWrite(d: Dialect, ts: seq<Token>) { ts == if d.Postgres? then [Key(RETURNING_ALL)] else [] }

  function ReadSelect(explain: bool, ts: seq<Token>): Option<Statement> {
    var cols := if StartsKey(ts, STAR) then ([], ts[1..]) else ReadNames(ts);
    if |cols.1| < 2 || cols.1[0] != Key(FROM) || !cols.1[1].Name? then None
    else ReadPage(explain, cols.0, cols.1[1].name, cols.1[2..])
  }

  function ReadPage(explain: bool, cols: seq<string>, table: string, ts: seq<Token>): Option<Statement> {
    var where := ReadWhere(ts);
    if where.None? then None
    else
      var limit := ReadOptional(LIMIT, where.value.1);
      var offset := ReadOptional(OFFSET, limit.1);
      if offset.1 != [] then None else Some(Select(explain, cols, table, where.value.0, limit.0, offset.0))
  }

  function ReadCount(ts: seq<Token>): Option<Statement> {
    if |ts| < 2 || ts[0] != Key(FROM) || !ts[1].Name? then None
    else
      var where := ReadWhere(ts[2..]);
      if where.Some? && where.value.1 == [] then Some(SelectCount(ts[1].name, where.value.0)) else None
  }

  function ReadInsert(d: Dialect, ts: seq<Token>): Option<Statement> {
    if |ts| < 2 || !ts[0].Name? || ts[1] != Key(OPEN) then None
    else
      var cols := ReadNames(ts[2..]);
      if |cols.1| < 2 || cols.1[0] != Key(CLOSE) || cols.1[1] != Key(VALUES) then None
      else
        var rows := ReadRows(cols.1[2..]);
        if EndsWrite(d, rows.1) then Some(Insert(ts[0].name, cols.0, rows.0)) else None
  }

  function ReadUpdate(d: Dialect, ts: seq<Token>): Option<Statement> {
    if |ts| < 2 || !ts[0].Name? || ts[1] != Key(SET) then None
    else
      var sets := ReadSets(ts[2..]);
      var where := ReadWhere(sets.1);
      if where.Some? && EndsWrite(d, where.value.1) then Some(Update(ts[0].name, sets.0, where.value.0)) else None
  }

  /** The row whose address a query returns. */
  predicate ByAddress(ts: seq<Token>) {
    && |ts| >= 9 && ts[1] == Key(WHERE) && ts[2] == Key(CTID) && ts[3] == Key(IN) && ts[4] == Key(OPEN)
    && ts[5] == Key(SELECT) && ts[6] == Key(CTID) && ts[7] == Key(FROM) && ts[8] == ts[0]
  }

  /** A delete of every row that matches, or of one: in MySQL with LIMIT 1, in Postgres of the row
      whose address a query with LIMIT 1 returns. */
  function ReadDelete(d: Dialect, ts: seq<Token>): Option<Statement> {
    if ts == [] || !ts[0].Name? then None
    else if ByAddress(ts) then
      var where := ReadWhere(ts[9..]);
      if d.Postgres? && where.Some? && where.value.1 == [Key(LIMIT), Key(ONE), Key(CLOSE)]
      then Some(DeleteSingle(ts[0].name, where.value.0)) else None
    else
      var where := ReadWhere(ts[1..]);
      if where.None? then None
      else if where.value.1 == [] then Some(Delete(ts[0].name, where.value.0))
      else if d.MySql? && where.value.1 == [Key(LIMIT), Key(ONE)] then Some(DeleteSingle(ts[0].name, where.value.0))
      else None
  }

  /** What a text does. */
  function ReadStatement(d: Dialect, ts: seq<Token>): Option<Statement> {
    if |ts| < 2 then None
    else match ts[0]
      case Key(EXPLAIN) => if ts[1] == Key(SELECT) then ReadSelect(true, ts[2..]) else None
      case Key(SELECT) => if ts[1] == Key(COUNT_ALL) then ReadCount(ts[2..]) else ReadSelect(false, ts[1..])
      case Key(INSERT_INTO) => ReadInsert(d, ts[1..])
      case Key(UPDATE) => ReadUpdate(d, ts[1..])
      case Key(DELETE_FROM) => ReadDelete(d, ts[1..])
      case _ => None
  }

  // --------------------------------------------------- taking a text apart

  lemma First(a: Token, rest: seq<Token>)
    ensures var ts := [a] + rest; |ts| == |rest| + 1 && ts[0] == a && ts[1..] == rest
  {
  }

  lemma FirstTwo(a: Token, b: Token, rest: seq<Token>)
    ensures var ts := [a] + ([b] + rest); |ts| == |rest| + 2 && ts[0] == a && ts[1] == b && ts[2..] == rest
  {
  }

  lemma FirstThree(a: Token, b: Token, c: Token, rest: seq<Token>)
    ensures var ts := [a] + ([b] + ([c] + rest));
      |ts| == |rest| + 3 && ts[0] == a && ts[1] == b && ts[2] == c && ts[3..] == rest
  {
    FirstTwo(a, b, [c] + rest);
    assert ([a] + ([b] + ([c] + rest)))[3..] == ([a] + ([b] + ([c] + rest)))[2..][1..];
  }

  lemma FirstSix(a: Token, b: Token, c: Token, d: Token, e: Token, f: Token, rest: seq<Token>)
    ensures var ts := [a] + ([b] + ([c] + ([d] + ([e] + ([f] + rest)))));
      && |ts| == |rest| + 6 && ts[0] == a && ts[1] == b && ts[2] == c && ts[3] == d && ts[4] == e && ts[5] == f
      && ts[6..] == rest
  {
    var more := [d] + ([e] + ([f] + rest));
    FirstThree(a, b, c, more);
    FirstThree(d, e, f, rest);
    var ts := [a] + ([b] + ([c] + more));
    assert ts[3] == ts[3..][0] && ts[4] == ts[3..][1] && ts[5] == ts[3..][2];
    assert ts[6..] == ts[3..][3..];
  }

  lemma Right3<T>(a: seq<T>, b: seq<T>, c: seq<T>, rest: seq<T>)
    ensures a + b + c + rest == a + (b + (c + rest))
  {
    Regroup(a, b, c + rest);
    Regroup(a + b, c, rest);
  }

  lemma Right6<T>(a: seq<T>, b: seq<T>, c: seq<T>, d: seq<T>, e: seq<T>, f: seq<T>, rest: seq<T>)
    ensures a + b + c + d + e + f + rest == a + (b + (c + (d + (e + (f + rest)))))
  {
    Right3(a, b, c, d + (e + (f + rest)));
    Right3(a + b + c, d, e, f + rest);
    Regroup(a + b + c + d + e, f, rest);
  }

  lemma Empty<T>(a: seq<T>)
    ensures [] + a == a && a + [] == a
  {
  }

  // ------------------------------------------------------------ round trips

  lemma {:induction false} HolesRead(phs: seq<nat>, rest: seq<Token>)
    requires !StartsKey(rest, COMMA) && (rest == [] || !rest[0].Hole?)
    ensures ReadHoles(HoleList(phs) + rest) == (phs, rest)
  {
    if phs == [] {
      Empty(rest);
    } else {
      var hole := Hole(phs[0]);
      assert phs == [phs[0]] + phs[1..];
      if |phs| == 1 {
        assert HoleList(phs[1..]) == [] && HoleList(phs) == [hole] + [] + [] == [hole] && phs == [phs[0]];
        First(hole, rest);
        assert rest != [] ==> ([hole] + rest)[1] == rest[0];
      } else {
        HolesRead(phs[1..], rest);
        Right3([hole], [Key(COMMA)], HoleList(phs[1..]), rest);
        FirstTwo(hole, Key(COMMA), HoleList(phs[1..]) + rest);
      }
    }
  }

  lemma {:induction false} NamesRead(cols: seq<string>, rest: seq<Token>)
    requires !StartsKey(rest, COMMA) && (rest == [] || !rest[0].Name?)
    ensures ReadNames(ColumnTokens(cols) + rest) == (cols, rest)
  {
    if cols == [] {
      Empty(rest);
    } else {
      var name := Name(cols[0]);
      assert cols == [cols[0]] + cols[1..];
      if |cols| == 1 {
        assert ColumnTokens(cols[1..]) == [] && ColumnTokens(cols) == [name] + [] + [] == [name] && cols == [cols[0]];
        First(name, rest);
        assert rest != [] ==> ([name] + rest)[1] == rest[0];
      } else {
        NamesRead(cols[1..], rest);
        Right3([name], [Key(COMMA)], ColumnTokens(cols[1..]), rest);
        FirstTwo(name, Key(COMMA), ColumnTokens(cols[1..]) + rest);
      }
    }
  }

  lemma ListRead(phs: seq<nat>, rest: seq<Token>)
    ensures ReadList([Key(OPEN)] + (HoleList(phs) + ([Key(CLOSE)] + rest))) == Some((phs, rest))
  {
    First(Key(OPEN), HoleList(phs) + ([Key(CLOSE)] + rest));
    First(Key(CLOSE), rest);
    HolesRead(phs, [Key(CLOSE)] + rest);
  }

  lemma ClauseRead(c: Clause, rest: seq<Token>)
    ensures ReadClause(ClauseTokens(c) + rest) == Some((c, rest))
  {
    var name := Name(c.col);
    match c {
      case Compare(col, op, ph) =>
        Right3([name], [Op(op)], [Hole(ph)], rest);
        FirstThree(name, Op(op), Hole(ph), rest);
      case AnyOf(col, ph) =>
        Right6([name], [Op(Eq)], [Key(ANY)], [Key(OPEN)], [Hole(ph)], [Key(CLOSE)], rest);
        FirstSix(name, Op(Eq), Key(ANY), Key(OPEN), Hole(ph), Key(CLOSE), rest);
      case InList(col, phs) => InListRead(c, rest);
    }
  }

  lemma InListRead(c: Clause, rest: seq<Token>)
    requires c.InList?
    ensures ReadClause(ClauseTokens(c) + rest) == Some((c, rest))
  {
    var name, list := Name(c.col), HoleList(c.phs) + ([Key(CLOSE)] + rest);
    Right3([name] + [Key(IN)] + [Key(OPEN)], HoleList(c.phs), [Key(CLOSE)], rest);
    Right3([name], [Key(IN)], [Key(OPEN)], list);
    FirstTwo(name, Key(IN), [Key(OPEN)] + list);
    First(Key(OPEN), list);
    assert ([name] + ([Key(IN)] + ([Key(OPEN)] + list)))[2] == Key(OPEN);
    ListRead(c.phs, rest);
  }

  lemma {:induction false} ClausesRead(where: seq<Clause>, rest: seq<Token>)
    requires where != [] && !StartsKey(rest, AND)
    ensures ReadClauses(WhereTokens(where) + rest) == Some((where, rest))
  {
    var first := ClauseTokens(where[0]);
    assert where == [where[0]] + where[1..];
    if |where| == 1 {
      assert WhereTokens(where[1..]) == [] && where == [where[0]];
      Empty(first);
      ClauseRead(where[0], rest);
    } else {
      var more := WhereTokens(where[1..]) + rest;
      ClausesRead(where[1..], rest);
      Right3(first, [Key(AND)], WhereTokens(where[1..]), rest);
      ClauseRead(where[0], [Key(AND)] + more);
      First(Key(AND), more);
    }
  }

  lemma WhereRead(where: seq<Clause>, rest: seq<Token>)
    requires !StartsKey(rest, AND) && !StartsKey(rest, WHERE)
    ensures ReadWhere(WhereSuffix(where) + rest) == Some((where, rest))
  {
    if where == [] {
      Empty(rest);
    } else {
      Regroup([Key(WHERE)], WhereTokens(where), rest);
      First(Key(WHERE), WhereTokens(where) + rest);
      ClausesRead(where, rest);
    }
  }

  lemma OptionalRead(k: Keyword, ph: Option<nat>, rest: seq<Token>)
    requires !StartsKey(rest, k)
    ensures ReadOptional(k, Optional(k, ph) + rest) == (ph, rest)
  {
    if ph.Some? {
      Regroup([Key(k)], [Hole(ph.value)], rest);
      FirstTwo(Key(k), Hole(ph.value), rest);
    } else {
      Empty(rest);
    }
  }

  lemma {:induction false} SetsRead(sets: seq<Assignment>, rest: seq<Token>)
    requires !StartsKey(rest, COMMA) && (rest == [] || !rest[0].Name?)
    ensures ReadSets(SetTokens(sets) + rest) == (sets, rest)
  {
    if sets == [] {
      Empty(rest);
    } else {
      var name, hole := Name(sets[0].col), Hole(sets[0].ph);
      assert sets == [sets[0]] + sets[1..];
      if |sets| == 1 {
        assert SetTokens(sets[1..]) == [] && sets == [sets[0]];
        Empty([name] + [Op(Eq)] + [hole]);
        Right3([name], [Op(Eq)], [hole], rest);
        FirstThree(name, Op(Eq), hole, rest);
        if rest != [] { assert ([name] + ([Op(Eq)] + ([hole] + rest)))[3] == rest[0]; }
      } else {
        var more := SetTokens(sets[1..]) + rest;
        SetsRead(sets[1..], rest);
        Right3([name] + [Op(Eq)] + [hole], [Key(COMMA)], SetTokens(sets[1..]), rest);
        Right3([name], [Op(Eq)], [hole], [Key(COMMA)] + more);
        SetsComma(name, hole, more);
      }
    }
  }

  lemma SetsComma(name: Token, hole: Token, more: seq<Token>)
    ensures var ts := [name] + ([Op(Eq)] + ([hole] + ([Key(COMMA)] + more)));
      |ts| >= 4 && ts[0] == name && ts[1] == Op(Eq) && ts[2] == hole && ts[3] == Key(COMMA) && ts[4..] == more
  {
    FirstTwo(name, Op(Eq), [hole] + ([Key(COMMA)] + more));
    FirstTwo(hole, Key(COMMA), more);
    var ts := [name] + ([Op(Eq)] + ([hole] + ([Key(COMMA)] + more)));
    assert ts[2] == ts[2..][0] && ts[3] == ts[2..][1] && ts[4..] == ts[2..][2..];
  }

  lemma {:induction false} RowsRead(rows: seq<seq<nat>>, rest: seq<Token>)
    requires !StartsKey(rest, COMMA) && !StartsKey(rest, OPEN)
    ensures ReadRows(RowTokens(rows) + rest) == (rows, rest)
  {
    if rows == [] {
      Empty(rest);
    } else {
      var first := [Key(OPEN)] + HoleList(rows[0]) + [Key(CLOSE)];
      assert rows == [rows[0]] + rows[1..];
      if |rows| == 1 {
        assert RowTokens(rows[1..]) == [] && rows == [rows[0]];
        Empty(first);
        Right3([Key(OPEN)], HoleList(rows[0]), [Key(CLOSE)], rest);
        ListRead(rows[0], rest);
      } else {
        var more := RowTokens(rows[1..]) + rest;
        RowsRead(rows[1..], rest);
        Right3(first, [Key(COMMA)], RowTokens(rows[1..]), rest);
        Right3([Key(OPEN)], HoleList(rows[0]), [Key(CLOSE)], [Key(COMMA)] + more);
        ListRead(rows[0], [Key(COMMA)] + more);
        First(Key(COMMA), more);
      }
    }
  }

  // -------------------------------------------------------------- statements

  lemma PageRead(explain: bool, cols: seq<string>, table: string, where: seq<Clause>, limit: Option<nat>, offset: Option<nat>)
    ensures ReadPage(explain, cols, table, WhereSuffix(where) + (Optional(LIMIT, limit) + (Optional(OFFSET, offset) + [])))
      == Some(Select(explain, cols, table, where, limit, offset))
  {
    WhereRead(where, Optional(LIMIT, limit) + (Optional(OFFSET, offset) + []));
    OptionalRead(LIMIT, limit, Optional(OFFSET, offset) + []);
    OptionalRead(OFFSET, offset, []);
  }

  lemma ColumnsRead(explain: bool, cols: seq<string>, table: string, tail: seq<Token>)
    ensures var from := [Key(FROM)] + ([Name(table)] + tail);
      ReadSelect(explain, (if cols == [] then [Key(STAR)] else ColumnTokens(cols)) + from)
      == ReadPage(explain, cols, table, tail)
  {
    var from := [Key(FROM)] + ([Name(table)] + tail);
    FirstTwo(Key(FROM), Name(table), tail);
    if cols == [] {
      First(Key(STAR), from);
    } else {
      NamesRead(cols, from);
      FirstName(cols, from);
    }
  }

  lemma FirstName(cols: seq<string>, rest: seq<Token>)
    requires cols != []
    ensures Starts(ColumnTokens(cols) + rest, Name(cols[0]))
  {
  }

  lemma SelectBody(d: Dialect, explain: bool, body: seq<Token>)
    requires body != [] && body[0] != Key(COUNT_ALL)
    ensures ReadStatement(d, (if explain then [Key(EXPLAIN)] else []) + ([Key(SELECT)] + body)) == ReadSelect(explain, body)
  {
    if explain {
      FirstTwo(Key(EXPLAIN), Key(SELECT), body);
    } else {
      Empty([Key(SELECT)] + body);
      First(Key(SELECT), body);
      assert ([Key(SELECT)] + body)[1] == body[0];
    }
  }

  lemma SelectRead(d: Dialect, stmt: Statement)
    requires stmt.Select?
    ensures ReadStatement(d, Tokens(d, stmt)) == Some(stmt)
  {
    var limit, offset := Optional(LIMIT, stmt.limit), Optional(OFFSET, stmt.offset);
    var tail := WhereSuffix(stmt.where) + (limit + (offset + []));
    var from := [Key(FROM)] + ([Name(stmt.table)] + tail);
    var cols := if stmt.cols == [] then [Key(STAR)] else ColumnTokens(stmt.cols);
    SelectText(if stmt.explain then [Key(EXPLAIN)] else [], cols, [Name(stmt.table)], WhereSuffix(stmt.where), limit, offset);
    NotCount(stmt.cols, from);
    SelectBody(d, stmt.explain, cols + from);
    ColumnsRead(stmt.explain, stmt.cols, stmt.table, tail);
    PageRead(stmt.explain, stmt.cols, stmt.table, stmt.where, stmt.limit, stmt.offset);
  }

  lemma NotCount(cols: seq<string>, from: seq<Token>)
    ensures var body := (if cols == [] then [Key(STAR)] else ColumnTokens(cols)) + from;
      body != [] && body[0] != Key(COUNT_ALL)
  {
    if cols != [] { FirstName(cols, from); }
  }

  lemma SelectText(explain: seq<Token>, cols: seq<Token>, table: seq<Token>, where: seq<Token>, limit: seq<Token>,
    offset: seq<Token>)
    ensures explain + [Key(SELECT)] + cols + [Key(FROM)] + table + where + limit + offset
      == explain + ([Key(SELECT)] + (cols + ([Key(FROM)] + (table + (where + (limit + (offset + [])))))))
  {
    Empty(offset);
    Right6(explain, [Key(SELECT)], cols, [Key(FROM)], table, where, limit + offset);
    Regroup(explain + [Key(SELECT)] + cols + [Key(FROM)] + table + where, limit, offset);
  }

  lemma CountText(table: seq<Token>, where: seq<Token>)
    ensures [Key(SELECT)] + [Key(COUNT_ALL)] + [Key(FROM)] + table + where
      == [Key(SELECT)] + ([Key(COUNT_ALL)] + ([Key(FROM)] + (table + (where + []))))
  {
    Empty(where);
    Right3([Key(SELECT)], [Key(COUNT_ALL)], [Key(FROM)], table + where);
    Regroup([Key(SELECT)] + [Key(COUNT_ALL)] + [Key(FROM)], table, where);
  }

  lemma CountBody(table: string, where: seq<Clause>)
    ensures ReadCount([Key(FROM)] + ([Name(table)] + (WhereSuffix(where) + []))) == Some(SelectCount(table, where))
  {
    FirstTwo(Key(FROM), Name(table), WhereSuffix(where) + []);
    WhereRead(where, []);
  }

  lemma CountRead(d: Dialect, stmt: Statement)
    requires stmt.SelectCount?
    ensures ReadStatement(d, Tokens(d, stmt)) == Some(stmt)
  {
    CountText([Name(stmt.table)], WhereSuffix(stmt.where));
    CountBody(stmt.table, stmt.where);
    FirstTwo(Key(SELECT), Key(COUNT_ALL), [Key(FROM)] + ([Name(stmt.table)] + (WhereSuffix(stmt.where) + [])));
  }

  lemma InsertRead(d: Dialect, stmt: Statement)
    requires stmt.Insert?
    ensures ReadStatement(d, Tokens(d, stmt)) == Some(stmt)
  {
    var rows := RowTokens(stmt.rows) + Returning(d);
    var mid := [Key(CLOSE)] + ([Key(VALUES)] + rows);
    var cols := ColumnTokens(stmt.cols) + mid;
    Right6([Key(INSERT_INTO)], [Name(stmt.table)], [Key(OPEN)], ColumnTokens(stmt.cols), [Key(CLOSE)], [Key(VALUES)], rows);
    Regroup([Key(INSERT_INTO)] + [Name(stmt.table)] + [Key(OPEN)] + ColumnTokens(stmt.cols) + [Key(CLOSE)] + [Key(VALUES)],
      RowTokens(stmt.rows), Returning(d));
    assert Tokens(d, stmt) == [Key(INSERT_INTO)] + ([Name(stmt.table)] + ([Key(OPEN)] + cols));
    First(Key(INSERT_INTO), [Name(stmt.table)] + ([Key(OPEN)] + cols));
    FirstTwo(Name(stmt.table), Key(OPEN), cols);
    FirstTwo(Key(CLOSE), Key(VALUES), rows);
    NamesRead(stmt.cols, mid);
    RowsRead(stmt.rows, Returning(d));
  }

  lemma UpdateRead(d: Dialect, stmt: Statement)
    requires stmt.Update?
    ensures ReadStatement(d, Tokens(d, stmt)) == Some(stmt)
  {
    var tail := WhereSuffix(stmt.where) + Returning(d);
    var sets := SetTokens(stmt.sets) + tail;
    Right3([Key(UPDATE)] + [Name(stmt.table)] + [Key(SET)], SetTokens(stmt.sets), WhereSuffix(stmt.where), Returning(d));
    Right3([Key(UPDATE)], [Name(stmt.table)], [Key(SET)], sets);
    assert Tokens(d, stmt) == [Key(UPDATE)] + ([Name(stmt.table)] + ([Key(SET)] + sets));
    First(Key(UPDATE), [Name(stmt.table)] + ([Key(SET)] + sets));
    FirstTwo(Name(stmt.table), Key(SET), sets);
    TailStarts(stmt.where, Returning(d));
    SetsRead(stmt.sets, tail);
    WhereRead(stmt.where, Returning(d));
  }

  lemma TailStarts(where: seq<Clause>, rest: seq<Token>)
    ensures var tail := WhereSuffix(where) + rest; if where == [] then tail == rest else Starts(tail, Key(WHERE))
  {
  }

  lemma DeleteText(d: Dialect, body: seq<Token>)
    requires body != []
    ensures ReadStatement(d, [Key(DELETE_FROM)] + body) == ReadDelete(d, body)
  {
    First(Key(DELETE_FROM), body);
  }

  lemma DeleteBody(d: Dialect, table: string, where: seq<Clause>)
    ensures ReadDelete(d, [Name(table)] + (WhereSuffix(where) + [])) == Some(Delete(table, where))
  {
    First(Name(table), WhereSuffix(where) + []);
    NoAddress(where, Name(table), []);
    WhereRead(where, []);
  }

  lemma DeleteRead(d: Dialect, stmt: Statement)
    requires stmt.Delete?
    ensures ReadStatement(d, Tokens(d, stmt)) == Some(stmt)
  {
    Empty(WhereSuffix(stmt.where));
    Regroup([Key(DELETE_FROM)], [Name(stmt.table)], WhereSuffix(stmt.where) + []);
    DeleteBody(d, stmt.table, stmt.where);
    DeleteText(d, [Name(stmt.table)] + (WhereSuffix(stmt.where) + []));
  }

  /** A condition does not begin as the subquery does. */
  lemma NoAddress(where: seq<Clause>, table: Token, rest: seq<Token>)
    requires rest == [] || rest[0] == Key(LIMIT)
    ensures !ByAddress([table] + (WhereSuffix(where) + rest))
  {
    var ts := [table] + (WhereSuffix(where) + rest);
    if where == [] {
      Empty(rest);
      if rest != [] { assert ts[1] == rest[0]; }
    } else {
      WhereBegins(where);
      assert ts[2] == WhereSuffix(where)[1];
    }
  }

  lemma WhereBegins(where: seq<Clause>)
    requires where != []
    ensures |WhereSuffix(where)| >= 2 && WhereSuffix(where)[1].Name?
  {
    var c := ClauseTokens(where[0]);
    assert |c| > 0 && c[0].Name?;
    assert WhereTokens(where)[0] == c[0];
  }

  lemma SingleRead(d: Dialect, stmt: Statement)
    requires stmt.DeleteSingle?
    ensures ReadStatement(d, Tokens(d, stmt)) == Some(stmt)
  {
    if d.Postgres? { AddressRead(d, stmt); } else { LimitRead(d, stmt); }
  }

  lemma LimitBody(table: string, where: seq<Clause>)
    ensures ReadDelete(MySql, [Name(table)] + (WhereSuffix(where) + ([Key(LIMIT)] + [Key(ONE)])))
      == Some(DeleteSingle(table, where))
  {
    var end := [Key(LIMIT)] + [Key(ONE)];
    First(Name(table), WhereSuffix(where) + end);
    NoAddress(where, Name(table), end);
    WhereRead(where, end);
  }

  lemma LimitRead(d: Dialect, stmt: Statement)
    requires stmt.DeleteSingle? && d.MySql?
    ensures ReadStatement(d, Tokens(d, stmt)) == Some(stmt)
  {
    var end := [Key(LIMIT)] + [Key(ONE)];
    Regroup([Key(DELETE_FROM)] + [Name(stmt.table)] + WhereSuffix(stmt.where), [Key(LIMIT)], [Key(ONE)]);
    Right3([Key(DELETE_FROM)], [Name(stmt.table)], WhereSuffix(stmt.where), end);
    LimitBody(stmt.table, stmt.where);
    DeleteText(d, [Name(stmt.table)] + (WhereSuffix(stmt.where) + end));
  }

  lemma AddressRead(d: Dialect, stmt: Statement)
    requires stmt.DeleteSingle? && d.Postgres?
    ensures ReadStatement(d, Tokens(d, stmt)) == Some(stmt)
  {
    var table := [Name(stmt.table)];
    var end := [Key(LIMIT)] + ([Key(ONE)] + [Key(CLOSE)]);
    var tail := WhereSuffix(stmt.where) + end;
    var ts := Tokens(d, stmt);
    AddressText(table, WhereSuffix(stmt.where));
    var body := AddressOf(table, tail);
    assert ts == [Key(DELETE_FROM)] + body;
    First(Key(DELETE_FROM), body);
    AddressParts(Name(stmt.table), tail);
    WhereRead(stmt.where, end);
  }

  function AddressOf(table: seq<Token>, tail: seq<Token>): seq<Token> {
    table + ([Key(WHERE)] + ([Key(CTID)] + ([Key(IN)] + ([Key(OPEN)] + ([Key(SELECT)]
    + ([Key(CTID)] + ([Key(FROM)] + (table + tail))))))))
  }

  lemma AddressText(table: seq<Token>, where: seq<Token>)
    ensures [Key(DELETE_FROM)] + table + [Key(WHERE)] + [Key(CTID)] + [Key(IN)] + [Key(OPEN)] + [Key(SELECT)] + [Key(CTID)]
      + [Key(FROM)] + table + where + [Key(LIMIT)] + [Key(ONE)] + [Key(CLOSE)]
      == [Key(DELETE_FROM)] + AddressOf(table, where + ([Key(LIMIT)] + ([Key(ONE)] + [Key(CLOSE)])))
  {
    var head := [Key(DELETE_FROM)] + table + [Key(WHERE)] + [Key(CTID)] + [Key(IN)] + [Key(OPEN)];
    var end := [Key(LIMIT)] + ([Key(ONE)] + [Key(CLOSE)]);
    Right3(head + [Key(SELECT)] + [Key(CTID)] + [Key(FROM)] + table + where, [Key(LIMIT)], [Key(ONE)], [Key(CLOSE)]);
    Regroup(head + [Key(SELECT)] + [Key(CTID)] + [Key(FROM)] + table, where, end);
    Right3(head, [Key(SELECT)], [Key(CTID)], [Key(FROM)] + (table + (where + end)));
    Right3(head + [Key(SELECT)] + [Key(CTID)], [Key(FROM)], table, where + end);
    Right6([Key(DELETE_FROM)], table, [Key(WHERE)], [Key(CTID)], [Key(IN)], [Key(OPEN)],
      [Key(SELECT)] + ([Key(CTID)] + ([Key(FROM)] + (table + (where + end)))));
  }

  lemma AddressParts(table: Token, tail: seq<Token>)
    requires table.Name?
    ensures var ts := AddressOf([table], tail); ByAddress(ts) && ts[0] == table && ts[9..] == tail
  {
    var ts := AddressOf([table], tail);
    var more := [Key(CTID)] + ([Key(FROM)] + ([table] + tail));
    FirstSix(table, Key(WHERE), Key(CTID), Key(IN), Key(OPEN), Key(SELECT), more);
    FirstThree(Key(CTID), Key(FROM), table, tail);
    assert ts[6] == ts[6..][0] && ts[7] == ts[6..][1] && ts[8] == ts[6..][2] && ts[9..] == ts[6..][3..];
  }

  /** The text of a statement on a table reads back as that statement: its columns, its conditions with
      their signs, its assignments, rows and page, and whether it deletes one row or all. */
  lemma TextReadsBack(d: Dialect, stmt: Statement)
    requires !stmt.Catalog?
    ensures ReadStatement(d, Tokens(d, stmt)) == Some(stmt)
  {
    match stmt
    case Select(_, _, _, _, _, _) => SelectRead(d, stmt);
    case SelectCount(_, _) => CountRead(d, stmt);
    case Insert(_, _, _) => InsertRead(d, stmt);
    case Update(_, _, _) => UpdateRead(d, stmt);
    case Delete(_, _) => DeleteRead(d, stmt);
    case DeleteSingle(_, _) => SingleRead(d, stmt);
  }
}
