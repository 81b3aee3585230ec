/** The rows a translated read returns, with LIMIT and OFFSET. */
module SqlPaging {
  import opened Common
  import opened Values
  import opened SqlTranslate
  import opened SqlSemantics

  /** The number bound to a placeholder. */
  function NumberAt(args: seq<Val>, ph: Option<nat>): Option<int> {
    if ph.Some? && Arg(args, ph.value).Num? then Some(Arg(args, ph.value).n.Floor) else None
  }

  /** A server takes no negative number for either, and MySQL's grammar has OFFSET after LIMIT only. */
  predicate Pages(d: Dialect, limit: Option<int>, offset: Option<int>) {
    NotNegative(limit) && NotNegative(offset) && (d.MySql? && offset.Some? ==> limit.Some?)
  }

  predicate NotNegative(n: Option<int>) { n.Some? ==> n.value >= 0 }

  function Skipped(total: nat, offset: Option<int>): (n: nat)
    requires NotNegative(offset)
    ensures n <= total
  {
    if offset.None? then 0 else if offset.value <= total then offset.value else total
  }

  function PageSize(total: nat, limit: Option<int>, offset: Option<int>): (n: nat)
    requires NotNegative(limit) && NotNegative(offset)
    ensures Skipped(total, offset) + n <= total
  {
    var left := total - Skipped(total, offset);
    if limit.Some? && limit.value < left then limit.value else left
  }

  function Window(order: seq<nat>, limit: Option<int>, offset: Option<int>): seq<nat>
    requires NotNegative(limit) && NotNegative(offset)
  {
    var from := Skipped(|order|, offset);
    order[from..from + PageSize(|order|, limit, offset)]
  }

  ghost predicate Enumerates(order: seq<nat>, s: set<nat>) { NoDup(order) && Elements(order) == s }

  /** Whether the server may answer with these rows: there is no ORDER BY, so it lists the selected
      rows in any order it likes. */
  ghost predicate Returns(cmp: Comparison, d: Dialect, t: Translated, table: Table, ids: seq<nat>)
    requires t.stmt.Select?
  {
    var limit, offset := NumberAt(t.args, t.stmt.limit), NumberAt(t.args, t.stmt.offset);
    Pages(d, limit, offset)
    && exists order :: Enumerates(order, Matching(cmp, t, table)) && ids == Window(order, limit, offset)
  }

  // ------------------------------------------------------------------ windows

  lemma {:induction false} SizeOf(order: seq<nat>)
    requires NoDup(order)
    ensures |Elements(order)| == |order|
  {
    if order == [] {
      assert Elements(order) == {};
    } else {
      var rest, x := order[..|order| - 1], Last(order);
      SizeOf(rest);
      assert order == rest + [x];
      assert Elements(order) == Elements(rest) + {x};
      assert x !in Elements(rest);
      assert |Elements(rest) + {x}| == |Elements(rest)| + 1;
    }
  }

  lemma {:induction false} Listing(s: set<nat>) returns (order: seq<nat>)
    ensures Enumerates(order, s)
  {
    if s == {} {
      order := [];
    } else {
      var x :| x in s;
      var rest := Listing(s - {x});
      order := rest + [x];
      assert x !in Elements(rest);
      assert Elements(order) == Elements(rest) + {x};
    }
  }

  lemma JoinNoDup(a: seq<nat>, b: seq<nat>)
    requires NoDup(a) && NoDup(b) && Elements(a) !! Elements(b)
    ensures NoDup(a + b) && Elements(a + b) == Elements(a) + Elements(b)
  {
    forall i, j | 0 <= i < j < |a + b| ensures (a + b)[i] != (a + b)[j] {
      if i < |a| <= j { assert a[i] in Elements(a) && b[j - |a|] in Elements(b); }
    }
  }

  /** A list put in the middle of an enumeration of the rest. */
  lemma InTheMiddle(rest: seq<nat>, from: nat, ids: seq<nat>, s: set<nat>)
    requires from <= |rest| && Enumerates(rest, s - Elements(ids)) && NoDup(ids) && Elements(ids) <= s
    ensures Enumerates(rest[..from] + ids + rest[from..], s)
  {
    var a, b := rest[..from], rest[from..];
    assert rest == a + b;
    forall x | x in a ensures x !in b {
      var i :| 0 <= i < |a| && a[i] == x;
      assert rest[i] == x;
    }
    assert Elements(rest) == Elements(a) + Elements(b);
    JoinNoDup(a, ids);
    JoinNoDup(a + ids, b);
  }

  lemma WindowOf(order: seq<nat>, s: set<nat>, limit: Option<int>, offset: Option<int>)
    requires NotNegative(limit) && NotNegative(offset) && Enumerates(order, s)
    ensures var ids := Window(order, limit, offset);
      NoDup(ids) && Elements(ids) <= s && |ids| == PageSize(|s|, limit, offset)
  {
    SizeOf(order);
  }

  lemma RestSize(rest: seq<nat>, ids: seq<nat>, s: set<nat>)
    requires Enumerates(rest, s - Elements(ids)) && NoDup(ids) && Elements(ids) <= s
    ensures |rest| == |s| - |ids|
  {
    SizeOf(rest);
    SizeOf(ids);
    assert s == (s - Elements(ids)) + Elements(ids);
  }

  lemma WindowMiddle(a: seq<nat>, ids: seq<nat>, b: seq<nat>, limit: Option<int>, offset: Option<int>)
    requires NotNegative(limit) && NotNegative(offset) && |a| == Skipped(|a| + |ids| + |b|, offset)
    requires |ids| == PageSize(|a| + |ids| + |b|, limit, offset)
    ensures Window(a + ids + b, limit, offset) == ids
  {
    var order := a + ids + b;
    assert order[|a|..|a| + |ids|] == ids;
  }

  /** Any distinct rows, as many as a page has, are a page of some listing. */
  lemma PageOf(ids: seq<nat>, s: set<nat>, limit: Option<int>, offset: Option<int>) returns (order: seq<nat>)
    requires NotNegative(limit) && NotNegative(offset) && NoDup(ids) && Elements(ids) <= s
      && |ids| == PageSize(|s|, limit, offset)
    ensures Enumerates(order, s) && Window(order, limit, offset) == ids
  {
    var rest := Listing(s - Elements(ids));
    RestSize(rest, ids, s);
    var from := Skipped(|s|, offset);
    WindowMiddle(rest[..from], ids, rest[from..], limit, offset);
    InTheMiddle(rest, from, ids, s);
    order := rest[..from] + ids + rest[from..];
  }

  // -------------------------------------------------------------- main result

  lemma ReadPages(d: Dialect, req: Request)
    requires req.capability == Read && Translate(d, req).Ok?
    ensures var t := Translate(d, req).value;
      t.stmt.Select? && NumberAt(t.args, t.stmt.limit) == req.limit && NumberAt(t.args, t.stmt.offset) == req.skip
  {
  }

  ghost function WantedRows(cmp: Comparison, req: Request, table: Table): set<nat> {
    set id | id in table && Wanted(cmp, req, table[id])
  }

  lemma MatchingIsWanted(cmp: Comparison, d: Dialect, req: Request, table: Table)
    requires Filters(req) && Translate(d, req).Ok?
    ensures HasWhere(Translate(d, req).value.stmt)
    ensures Matching(cmp, Translate(d, req).value, table) == WantedRows(cmp, req, table)
  {
    WhereOf(d, req);
    forall id | id in table ensures Selected(cmp, Translate(d, req).value, table[id]) <==> Wanted(cmp, req, table[id]) {
      SelectsExactly(cmp, d, req, table[id]);
    }
  }

  /** A read can return a list of rows exactly when they are different rows that the filter wants,
      as many as `limit` allows of those left after `skip`; with a negative number, or in MySQL with a
      `skip` and no `limit`, it returns nothing because the server refuses the statement. */
  lemma ReadReturnsExactly(cmp: Comparison, d: Dialect, req: Request, table: Table, ids: seq<nat>)
    requires req.capability == Read && Translate(d, req).Ok?
    ensures Translate(d, req).value.stmt.Select?
    ensures Returns(cmp, d, Translate(d, req).value, table, ids) <==>
      && (req.limit.Some? ==> req.limit.value >= 0) && (req.skip.Some? ==> req.skip.value >= 0)
      && (d.MySql? && req.skip.Some? ==> req.limit.Some?)
      && NoDup(ids) && Elements(ids) <= WantedRows(cmp, req, table)
      && var total := |WantedRows(cmp, req, table)|;
         var left := if req.skip.None? then total else if req.skip.value < total then total - req.skip.value else 0;
         |ids| == if req.limit.None? || req.limit.value > left then left else req.limit.value
  {
    var t, wanted := Translate(d, req).value, WantedRows(cmp, req, table);
    ReadPages(d, req);
    MatchingIsWanted(cmp, d, req, table);
    if Returns(cmp, d, t, table, ids) {
      var order :| Enumerates(order, wanted) && ids == Window(order, req.limit, req.skip);
      WindowOf(order, wanted, req.limit, req.skip);
    }
    if Pages(d, req.limit, req.skip) && NoDup(ids) && Elements(ids) <= wanted
      && |ids| == PageSize(|wanted|, req.limit, req.skip) {
      var order := PageOf(ids, wanted, req.limit, req.skip);
    }
  }
}
