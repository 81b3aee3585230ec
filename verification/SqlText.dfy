/** The text of a quoted identifier: what MySQL reads back from between the backticks. */
module SqlText {
  import opened Common
  import opened SqlTranslate

  /** What stands before the first backtick, and what follows that backtick. */
  function UntilBacktick(text: string): (r: Option<(string, string)>)
    ensures r.Some? ==> |r.value.1| < |text|
  {
    if text == "" then None
    else if text[0] == '`' then Some(("", text[1..]))
    else
      var r := UntilBacktick(text[1..]);
      if r.None? then None else Some(([text[0]] + r.value.0, r.value.1))
  }

  /** The scanner's side: a quoted identifier at the head of a text, its parts and what follows it. */
  function Scan(text: string): Option<(seq<string>, string)>
    decreases |text|
  {
    if text == "" || text[0] != '`' then None
    else
      var part := UntilBacktick(text[1..]);
      if part.None? then None
      else if part.value.1 != "" && part.value.1[0] == '.' then
        var more := Scan(part.value.1[1..]);
        if more.None? then None else Some(([part.value.0] + more.value.0, more.value.1))
      else Some(([part.value.0], part.value.1))
  }

  lemma {:induction false} UntilBacktickReads(part: string, rest: string)
    requires '`' !in part
    ensures UntilBacktick(part + ("`" + rest)) == Some((part, rest))
  {
    var text := part + ("`" + rest);
    if part == "" {
      assert text[1..] == rest;
    } else {
      UntilBacktickReads(part[1..], rest);
      assert text[1..] == part[1..] + ("`" + rest);
      assert [part[0]] + part[1..] == part;
    }
  }

  lemma {:induction false} ScanReads(parts: seq<string>, rest: string)
    requires parts != [] && forall p :: p in parts ==> '`' !in p
    requires rest == "" || rest[0] != '.'
    ensures Scan(Backticked(parts) + rest) == Some((parts, rest))
    decreases |parts|
  {
    var more := parts[1..];
    var tail := Qualified(more) + rest;
    BacktickedText(parts[0], Qualified(more), rest);
    UntilBacktickReads(parts[0], tail);
    assert parts == [parts[0]] + more;
    if more == [] {
      assert tail == rest && parts == [parts[0]];
    } else {
      assert tail == "." + (Backticked(more) + rest) && tail[1..] == Backticked(more) + rest;
      ScanReads(more, rest);
    }
  }

  lemma BacktickedText(part: string, more: string, rest: string)
    ensures var text := "`" + (part + ("`" + more)) + rest;
      text != "" && text[0] == '`' && text[1..] == part + ("`" + (more + rest))
  {
    var inner := part + ("`" + more);
    assert ("`" + inner + rest)[1..] == inner + rest;
    Regroup(part, "`" + more, rest);
    Regroup("`", more, rest);
    assert inner + rest == part + ("`" + more + rest);
  }

  lemma IdentPartPlain(part: string)
    requires IdentPart(part)
    ensures '`' !in part && '.' !in part && '%' !in part && '$' !in part
  {
    var body := if part != "" && Last(part) == '\n' then part[..|part| - 1] else part;
    forall c | c in part ensures c == '\n' || IsWord(c) {
      var i :| 0 <= i < |part| && part[i] == c;
      if i < |body| { assert body[i] == c; }
    }
  }

  /** Whatever follows it, a name that passes validation is read back from its quoted text as
      the parts it was split into: nothing in a name ends the quotes early. */
  lemma QuotedReadsBack(name: string, rest: string)
    requires ValidIdent(name) && (rest == "" || rest[0] != '.')
    ensures Scan(Quote(MySql, name) + rest) == Some((ValidateIdent(name).value, rest))
    ensures forall p :: p in ValidateIdent(name).value ==> '`' !in p && '.' !in p && '%' !in p && '$' !in p
  {
    var parts := SplitDots(name);
    forall p | p in parts ensures '`' !in p && '.' !in p && '%' !in p && '$' !in p {
      var i :| 0 <= i < |parts| && parts[i] == p;
      IdentPartPlain(parts[i]);
    }
    ScanReads(parts, rest);
  }

  /** Two names that are quoted alike are the same name. */
  lemma QuoteInjective(d: Dialect, a: string, b: string)
    requires ValidIdent(a) && ValidIdent(b) && Quote(d, a) == Quote(d, b)
    ensures a == b
  {
    if d.MySql? {
      QuotedReadsBack(a, "");
      QuotedReadsBack(b, "");
      assert Quote(d, a) + "" == Quote(d, b) + "";
      SplitJoins(a);
      SplitJoins(b);
    }
  }
}
