/** The HMAC chain of the audit log and its offline verifier. */
module AuditChain {
  import opened Common

  // ------------------------------------------------------------------ JSON

  /** A JSON value; an object keeps the order of its keys, a number its literal. */
  datatype Json = Null | Bool(b: bool) | Num(literal: string) | Str(s: string) | Arr(items: seq<Json>) | Obj(fields: seq<Field>)

  datatype Field = Field(key: string, val: Json)

  predicate HasKey(fields: seq<Field>, key: string) {
    exists i :: 0 <= i < |fields| && fields[i].key == key
  }

  /** `rec.get(key)`; JSON null and a missing key are the same to the caller. */
  function Get(fields: seq<Field>, key: string): Json {
    if fields == [] then Null
    else if fields[0].key == key then fields[0].val
    else Get(fields[1..], key)
  }

  /** The record without `key`. */
  function Without(fields: seq<Field>, key: string): seq<Field> {
    if fields == [] then []
    else (if fields[0].key == key then [] else [fields[0]]) + Without(fields[1..], key)
  }

  /** A value a Python dict can hold: no object has a key twice. */
  ghost predicate WellFormed(v: Json) {
    && (v.Arr? ==> forall i :: 0 <= i < |v.items| ==> WellFormed(v.items[i]))
    && (v.Obj? ==>
      && (forall i, j :: 0 <= i < j < |v.fields| ==> v.fields[i].key != v.fields[j].key)
      && (forall i :: 0 <= i < |v.fields| ==> WellFormed(v.fields[i].val)))
  }

  /** What comes from libraries: HMAC-SHA256 in hex, JSON printing (compact, and with the
      default separators) and parsing, and `str` of a parsed value. */
  datatype Library = Library(mac: (string, string) -> string,
                             dumps: Json -> string,
                             dumpsSpaced: Json -> string,
                             loads: string -> Option<Json>,
                             show: Json -> string)

  const GENESIS := "0000000000000000000000000000000000000000000000000000000000000000"
  const HMAC_KEY := "_hmac"

  predicate IsSpace(c: char) { c == ' ' || c == '\t' || c == '\n' || c == '\r' || c == '\U{000B}' || c == '\U{000C}' }

  /** A line that neither splitting nor stripping changes. */
  predicate Printable(s: string) {
    s != "" && !IsSpace(s[0]) && !IsSpace(Last(s)) && '\n' !in s
  }

  /** What is relied on of the libraries: digests have 64 characters, the parser inverts the
      printer, printed objects are single lines, and `str` of a string is that string. That
      digests do not collide is never assumed here; results that need it say for which
      messages. */
  ghost predicate Faithful(lib: Library) {
    && (forall k, m :: |lib.mac(k, m)| == 64)
    && (forall v :: WellFormed(v) ==> lib.loads(lib.dumps(v)) == Some(v))
    && (forall t :: lib.loads(t).Some? ==> WellFormed(lib.loads(t).value))
    && (forall v :: WellFormed(v) ==> lib.loads(lib.dumpsSpaced(v)) == Some(v))
    && (forall fields :: Printable(lib.dumps(Obj(fields))) && Printable(lib.dumpsSpaced(Obj(fields))))
    && (forall s :: lib.show(Str(s)) == s)
  }

  // ------------------------------------------------------------ file lines

  /** The lines of a file, without their terminators. */
  function Lines(text: string): seq<string> {
    if text == "" then []
    else
      var rest := Lines(text[1..]);
      if text[0] == '\n' then [""] + rest
      else if rest == [] then [[text[0]]]
      else [[text[0]] + rest[0]] + rest[1..]
  }

  function Unlines(lines: seq<string>): string {
    if lines == [] then "" else lines[0] + "\n" + Unlines(lines[1..])
  }

  lemma {:induction false} LinesStep(line: string, rest: string)
    requires '\n' !in line
    ensures Lines(line + "\n" + rest) == [line] + Lines(rest)
  {
    var t := line + "\n" + rest;
    if line == "" {
      assert t[1..] == rest;
    } else {
      LinesStep(line[1..], rest);
      assert t[1..] == line[1..] + "\n" + rest;
      assert line == [line[0]] + line[1..] && line[0] in line;
    }
  }

  lemma {:induction false} LinesOfUnlines(lines: seq<string>)
    requires forall l :: l in lines ==> '\n' !in l
    ensures Lines(Unlines(lines)) == lines
  {
    if lines != [] {
      LinesOfUnlines(lines[1..]);
      LinesStep(lines[0], Unlines(lines[1..]));
    }
  }

  lemma {:induction false} UnlinesAppend(a: seq<string>, b: seq<string>)
    ensures Unlines(a + b) == Unlines(a) + Unlines(b)
  {
    if a == [] {
      assert a + b == b;
    } else {
      UnlinesAppend(a[1..], b);
      assert (a + b)[1..] == a[1..] + b;
    }
  }

  function Strip(s: string): string {
    if s == "" then ""
    else if IsSpace(s[0]) then Strip(s[1..])
    else if IsSpace(Last(s)) then Strip(s[..|s| - 1])
    else s
  }

  /** A non-blank line, stripped, with its number in the file. */
  datatype Numbered = Numbered(no: nat, text: string)

  function NonBlank(lines: seq<string>, no: nat): seq<Numbered> {
    if lines == [] then []
    else (if Strip(lines[0]) == "" then [] else [Numbered(no, Strip(lines[0]))]) + NonBlank(lines[1..], no + 1)
  }

  // -------------------------------------------------------------- verifier

  function Sign(lib: Library, secret: string, prev: string, base: Json): string {
    lib.mac(secret, prev + lib.dumps(base))
  }

  datatype VerifyResult = VerifyResult(ok: bool, status: string, records: nat, badLine: Option<nat>,
                                       expected: Option<string>, got: Option<string>)

  /** Either a result, or the exception of a line whose JSON is not an object. */
  datatype Outcome = Verified(result: VerifyResult) | Raised

  function Accepted(records: nat): Outcome {
    if records == 0 then Verified(VerifyResult(false, "empty", 0, None, None, None))
    else Verified(VerifyResult(true, "ok", records, None, None, None))
  }

  function Rejected(status: string, records: nat, line: nat, expected: Option<string>, got: Option<string>): Outcome {
    Verified(VerifyResult(false, status, records, Some(line), expected, got))
  }

  /** What the verifier answers on the non-blank lines `ls` after `count` good records. */
  function Check(lib: Library, secret: string, prev: string, ls: seq<Numbered>, count: nat): Outcome
    decreases |ls|
  {
    if ls == [] then Accepted(count)
    else
      var l := ls[0];
      match lib.loads(l.text)
      case None => Rejected("bad_chain", count + 1, l.no, None, None)
      case Some(rec) =>
        if !rec.Obj? then Raised
        else
          var stored := Get(rec.fields, HMAC_KEY);
          if stored == Null then Rejected("no_hmac", count + 1, l.no, None, None)
          else
            var expected := Sign(lib, secret, prev, Obj(Without(rec.fields, HMAC_KEY)));
            if expected != lib.show(stored)
            then Rejected("bad_chain", count + 1, l.no, Some(expected), Some(lib.show(stored)))
            else Check(lib, secret, expected, ls[1..], count + 1)
  }

  function VerifyFile(lib: Library, file: Option<string>, secret: string): Outcome {
    match file
    case None => Verified(VerifyResult(false, "read_error", 0, None, None, None))
    case Some(text) =>
      if secret == "" then Verified(VerifyResult(false, "no_hmac", 0, None, None, None))
      else Check(lib, secret, GENESIS, NonBlank(Lines(text), 1), 0)
  }

  lemma NonBlankFrom(lines: seq<string>, i: nat)
    requires i < |lines|
    ensures var ls, more := NonBlank(lines[i..], i + 1), NonBlank(lines[i+1..], i + 2);
      if Strip(lines[i]) == "" then ls == more else ls != [] && ls[0] == Numbered(i + 1, Strip(lines[i])) && ls[1..] == more
  {
    assert lines[i..][0] == lines[i] && lines[i..][1..] == lines[i+1..];
  }

  /** The answer after a line, by what the line is. */
  lemma CheckLine(lib: Library, secret: string, prev: string, lines: seq<string>, i: nat, count: nat)
    requires i < |lines|
    ensures var line, more := Strip(lines[i]), NonBlank(lines[i+1..], i + 2);
      Check(lib, secret, prev, NonBlank(lines[i..], i + 1), count) ==
        if line == "" then Check(lib, secret, prev, more, count)
          else Check(lib, secret, prev, [Numbered(i + 1, line)] + more, count)
  {
    NonBlankFrom(lines, i);
    var ls := NonBlank(lines[i..], i + 1);
    if Strip(lines[i]) != "" { assert ls == [ls[0]] + ls[1..]; }
  }

  method VerifyChain(lib: Library, file: Option<string>, secret: string) returns (r: Outcome)
    ensures r == VerifyFile(lib, file, secret)
  {
    if file.None? {
      return Verified(VerifyResult(false, "read_error", 0, None, None, None));
    }
    if secret == "" {
      return Verified(VerifyResult(false, "no_hmac", 0, None, None, None));
    }
    var lines := Lines(file.value);
    var prevHash, count, sawHmac := GENESIS, 0, false;
    assert lines[0..] == lines;
    for i := 0 to |lines|
      invariant Check(lib, secret, prevHash, NonBlank(lines[i..], i + 1), count)
             == Check(lib, secret, GENESIS, NonBlank(lines, 1), 0)
      invariant sawHmac == (count > 0)
    {
      var lineno, line := i + 1, Strip(lines[i]);
      CheckLine(lib, secret, prevHash, lines, i, count);
      if line == "" {
        continue;
      }
      ghost var more := NonBlank(lines[i+1..], i + 2);
      assert ([Numbered(lineno, line)] + more)[1..] == more;
      count := count + 1;
      var parsed := lib.loads(line);
      if parsed.None? {
        return Rejected("bad_chain", count, lineno, None, None);
      }
      if !parsed.value.Obj? {
        return Raised;
      }
      var rec := parsed.value.fields;
      var stored := Get(rec, HMAC_KEY);
      if stored == Null {
        return Rejected("no_hmac", count, lineno, None, None);
      }
      sawHmac := true;
      var expected := Sign(lib, secret, prevHash, Obj(Without(rec, HMAC_KEY)));
      if expected != lib.show(stored) {
        return Rejected("bad_chain", count, lineno, Some(expected), Some(lib.show(stored)));
      }
      prevHash := expected;
    }
    if count == 0 {
      return Verified(VerifyResult(false, "empty", 0, None, None, None));
    }
    return Verified(VerifyResult(true, "ok", count, None, None, None));
  }

  // ------------------------------------------------- what acceptance means

  /** A signed record: the record without its signature, and the signature. */
  datatype Entry = Entry(base: Json, digest: string)

  function EntryOf(lib: Library, text: string): Option<Entry> {
    match lib.loads(text)
    case Some(Obj(fields)) =>
      if Get(fields, HMAC_KEY) == Null then None
      else Some(Entry(Obj(Without(fields, HMAC_KEY)), lib.show(Get(fields, HMAC_KEY))))
    case _ => None
  }

  /** The digest a record is chained to: 64 zeros for the first. */
  function Before(es: seq<Entry>, i: nat): string
    requires i <= |es|
  {
    if i == 0 then "0000000000000000000000000000000000000000000000000000000000000000" else es[i-1].digest
  }

  predicate Links(lib: Library, secret: string, es: seq<Entry>, i: nat)
    requires i < |es|
  {
    es[i].digest == Sign(lib, secret, Before(es, i), es[i].base)
  }

  ghost predicate Chained(lib: Library, secret: string, es: seq<Entry>) {
    forall i: nat :: i < |es| ==> Links(lib, secret, es, i)
  }

  /** The lines read as the entries. */
  ghost predicate ReadsAs(lib: Library, ls: seq<Numbered>, es: seq<Entry>) {
    |ls| == |es| && forall i :: 0 <= i < |ls| ==> EntryOf(lib, ls[i].text) == Some(es[i])
  }

  /** On lines that read as chained entries the verifier accepts. */
  lemma {:induction false} CheckChained(lib: Library, secret: string, ls: seq<Numbered>, es: seq<Entry>, k: nat)
    requires ReadsAs(lib, ls, es) && k <= |es| && Chained(lib, secret, es)
    ensures Check(lib, secret, Before(es, k), ls[k..], k) == Accepted(|es|)
    decreases |es| - k
  {
    if k < |es| {
      assert ls[k..][0] == ls[k] && ls[k..][1..] == ls[k+1..];
      assert EntryOf(lib, ls[k].text) == Some(es[k]);
      assert Links(lib, secret, es, k);
      CheckChained(lib, secret, ls, es, k + 1);
    }
  }

  /** The answer that names record `b` as the first that does not link. */
  function BrokenAt(lib: Library, secret: string, ls: seq<Numbered>, es: seq<Entry>, b: nat): Outcome
    requires b < |es| && b < |ls|
  {
    Rejected("bad_chain", b + 1, ls[b].no, Some(Sign(lib, secret, Before(es, b), es[b].base)), Some(es[b].digest))
  }

  /** On lines that read as entries that are not chained it names the first that does not
      link to the one before it. */
  lemma {:induction false} CheckBroken(lib: Library, secret: string, ls: seq<Numbered>, es: seq<Entry>, b: nat, k: nat)
    requires ReadsAs(lib, ls, es) && k <= b < |es| && FirstBreak(lib, secret, es, b)
    ensures Check(lib, secret, Before(es, k), ls[k..], k) == BrokenAt(lib, secret, ls, es, b)
    decreases b - k
  {
    assert ls[k..][0] == ls[k] && ls[k..][1..] == ls[k+1..];
    assert EntryOf(lib, ls[k].text) == Some(es[k]);
    if k < b {
      assert Links(lib, secret, es, k);
      CheckBroken(lib, secret, ls, es, b, k + 1);
    }
  }

  ghost predicate FirstBreak(lib: Library, secret: string, es: seq<Entry>, b: nat)
    requires b < |es|
  {
    !Links(lib, secret, es, b) && forall i: nat :: i < b ==> Links(lib, secret, es, i)
  }

  lemma {:induction false} SomeFirstBreak(lib: Library, secret: string, es: seq<Entry>, k: nat) returns (b: nat)
    requires k <= |es| && !Chained(lib, secret, es)
    requires forall i: nat :: i < k ==> Links(lib, secret, es, i)
    ensures b < |es| && FirstBreak(lib, secret, es, b)
    decreases |es| - k
  {
    if k < |es| && Links(lib, secret, es, k) {
      b := SomeFirstBreak(lib, secret, es, k + 1);
    } else {
      b := k;
    }
  }

  lemma {:induction false} AcceptsExactlyChains(lib: Library, secret: string, prev: string, ls: seq<Numbered>, count: nat)
    requires Check(lib, secret, prev, ls, count) == Accepted(count + |ls|)
    ensures exists es :: ReadsAs(lib, ls, es) && LinksFrom(lib, secret, prev, es)
    decreases |ls|
  {
    if ls == [] {
      assert ReadsAs(lib, ls, []) && LinksFrom(lib, secret, prev, []);
    } else {
      var rec := lib.loads(ls[0].text).value;
      var e := EntryOf(lib, ls[0].text).value;
      AcceptsExactlyChains(lib, secret, e.digest, ls[1..], count + 1);
      var es :| ReadsAs(lib, ls[1..], es) && LinksFrom(lib, secret, e.digest, es);
      var all := [e] + es;
      assert ReadsAs(lib, ls, all);
      assert all[1..] == es;
      assert LinksFrom(lib, secret, prev, all);
    }
  }

  ghost predicate LinksFrom(lib: Library, secret: string, prev: string, es: seq<Entry>)
    decreases |es|
  {
    es != [] ==> es[0].digest == Sign(lib, secret, prev, es[0].base) && LinksFrom(lib, secret, es[0].digest, es[1..])
  }

  lemma {:induction false} LinksFromChained(lib: Library, secret: string, es: seq<Entry>, k: nat)
    requires k <= |es|
    ensures LinksFrom(lib, secret, Before(es, k), es[k..]) <==> forall i: nat :: k <= i < |es| ==> Links(lib, secret, es, i)
    decreases |es| - k
  {
    if k < |es| {
      LinksFromChained(lib, secret, es, k + 1);
      assert es[k..][0] == es[k] && es[k..][1..] == es[k+1..];
      assert (forall i: nat :: k <= i < |es| ==> Links(lib, secret, es, i))
        <==> Links(lib, secret, es, k) && forall i: nat :: k + 1 <= i < |es| ==> Links(lib, secret, es, i);
    }
  }

  lemma {:induction false} CheckRecords(lib: Library, secret: string, prev: string, ls: seq<Numbered>, count: nat)
    requires Check(lib, secret, prev, ls, count).Verified? && Check(lib, secret, prev, ls, count).result.ok
    ensures Check(lib, secret, prev, ls, count) == Accepted(count + |ls|)
    decreases |ls|
  {
    if ls != [] {
      var e := EntryOf(lib, ls[0].text).value;
      CheckRecords(lib, secret, e.digest, ls[1..], count + 1);
    }
  }

  function FileLines(text: string): seq<Numbered> { NonBlank(Lines(text), 1) }

  predicate FileAccepted(lib: Library, file: Option<string>, secret: string) {
    VerifyFile(lib, file, secret).Verified? && VerifyFile(lib, file, secret).result.ok
  }

  lemma AcceptedMeansChained(lib: Library, secret: string, text: string)
    requires secret != ""
    ensures FileAccepted(lib, Some(text), secret)
       <==> FileLines(text) != [] && exists es :: ReadsAs(lib, FileLines(text), es) && Chained(lib, secret, es)
    ensures FileAccepted(lib, Some(text), secret) ==>
      VerifyFile(lib, Some(text), secret) == Accepted(|FileLines(text)|)
  {
    var ls := FileLines(text);
    if FileAccepted(lib, Some(text), secret) {
      CheckRecords(lib, secret, GENESIS, ls, 0);
      AcceptsExactlyChains(lib, secret, GENESIS, ls, 0);
      var es :| ReadsAs(lib, ls, es) && LinksFrom(lib, secret, GENESIS, es);
      LinksFromChained(lib, secret, es, 0);
      assert es[0..] == es;
      assert Chained(lib, secret, es);
    }
    if ls != [] && exists es :: ReadsAs(lib, ls, es) && Chained(lib, secret, es) {
      var es :| ReadsAs(lib, ls, es) && Chained(lib, secret, es);
      CheckChained(lib, secret, ls, es, 0);
      assert ls[0..] == ls;
    }
  }

  /** A file of signed records is accepted or rejected at the first that does not link. */
  lemma RejectedAtFirstBreak(lib: Library, secret: string, text: string, es: seq<Entry>, b: nat)
    requires secret != "" && ReadsAs(lib, FileLines(text), es)
    requires b < |es| && FirstBreak(lib, secret, es, b)
    ensures VerifyFile(lib, Some(text), secret) == BrokenAt(lib, secret, FileLines(text), es, b)
  {
    var ls := FileLines(text);
    CheckBroken(lib, secret, ls, es, b, 0);
    assert ls[0..] == ls;
  }

  // ------------------------------------------------ every answer, every text

  /** The line holds this signed record, and the signature is that of the record after `prev`. */
  ghost predicate Signs(lib: Library, secret: string, prev: string, text: string, e: Entry) {
    && lib.loads(text).Some? && lib.loads(text).value.Obj?
    && var fields := lib.loads(text).value.fields;
       && Get(fields, "_hmac") != Null && e == Entry(Obj(Without(fields, "_hmac")), lib.show(Get(fields, "_hmac")))
       && e.digest == lib.mac(secret, prev + lib.dumps(e.base))
  }

  /** The first lines are signed records, each chained to the one before. */
  ghost predicate GoodPrefix(lib: Library, secret: string, ls: seq<Numbered>, es: seq<Entry>) {
    |es| <= |ls| && forall i :: 0 <= i < |es| ==> Signs(lib, secret, Before(es, i), ls[i].text, es[i])
  }

  /** The answer on lines that begin with these chained records: by what the next line is, if any. */
  ghost predicate Reports(lib: Library, secret: string, ls: seq<Numbered>, es: seq<Entry>, r: Outcome) {
    && GoodPrefix(lib, secret, ls, es)
    && var k := |es|;
       if k == |ls| then
         if k == 0 then r == Verified(VerifyResult(false, "empty", 0, None, None, None))
         else r == Verified(VerifyResult(true, "ok", k, None, None, None))
       else
         match lib.loads(ls[k].text)
         case None => r == Verified(VerifyResult(false, "bad_chain", k + 1, Some(ls[k].no), None, None))
         case Some(Obj(fields)) =>
           if Get(fields, "_hmac") == Null
           then r == Verified(VerifyResult(false, "no_hmac", k + 1, Some(ls[k].no), None, None))
           else
             var expected := lib.mac(secret, Before(es, k) + lib.dumps(Obj(Without(fields, "_hmac"))));
             var got := lib.show(Get(fields, "_hmac"));
             && expected != got
             && r == Verified(VerifyResult(false, "bad_chain", k + 1, Some(ls[k].no), Some(expected), Some(got)))
         case Some(_) => r == Raised
  }

  lemma CheckOne(lib: Library, secret: string, prev: string, ls: seq<Numbered>, count: nat, e: Entry)
    requires ls != [] && Signs(lib, secret, prev, ls[0].text, e)
    ensures Check(lib, secret, prev, ls, count) == Check(lib, secret, e.digest, ls[1..], count + 1)
  {
  }

  lemma {:induction false} CheckAfter(lib: Library, secret: string, ls: seq<Numbered>, es: seq<Entry>, k: nat)
    requires GoodPrefix(lib, secret, ls, es) && k <= |es|
    ensures Check(lib, secret, GENESIS, ls, 0) == Check(lib, secret, Before(es, k), ls[k..], k)
  {
    if k == 0 {
      assert ls[0..] == ls;
    } else {
      CheckAfter(lib, secret, ls, es, k - 1);
      assert ls[k-1..][0] == ls[k-1] && ls[k-1..][1..] == ls[k..];
      CheckOne(lib, secret, Before(es, k - 1), ls[k-1..], k - 1, es[k-1]);
    }
  }

  lemma BeforeLonger(es: seq<Entry>, e: Entry, i: nat)
    requires i <= |es|
    ensures Before(es + [e], i) == Before(es, i)
  {
  }

  lemma GoodLonger(lib: Library, secret: string, ls: seq<Numbered>, es: seq<Entry>, e: Entry)
    requires GoodPrefix(lib, secret, ls, es) && |es| < |ls| && Signs(lib, secret, Before(es, |es|), ls[|es|].text, e)
    ensures GoodPrefix(lib, secret, ls, es + [e])
  {
    forall i | 0 <= i < |es + [e]| ensures Signs(lib, secret, Before(es + [e], i), ls[i].text, (es + [e])[i]) {
      BeforeLonger(es, e, i);
      if i < |es| { SignsAt(lib, secret, ls, es, i); }
    }
  }

  lemma SignsAt(lib: Library, secret: string, ls: seq<Numbered>, es: seq<Entry>, i: nat)
    requires GoodPrefix(lib, secret, ls, es) && i < |es|
    ensures Signs(lib, secret, Before(es, i), ls[i].text, es[i])
  {
  }

  lemma {:induction false} LongestPrefix(lib: Library, secret: string, ls: seq<Numbered>, es: seq<Entry>)
    returns (all: seq<Entry>)
    requires GoodPrefix(lib, secret, ls, es)
    ensures GoodPrefix(lib, secret, ls, all)
    ensures |all| < |ls| ==> forall e :: !Signs(lib, secret, Before(all, |all|), ls[|all|].text, e)
    decreases |ls| - |es|
  {
    if |es| < |ls| && exists e :: Signs(lib, secret, Before(es, |es|), ls[|es|].text, e) {
      var e :| Signs(lib, secret, Before(es, |es|), ls[|es|].text, e);
      GoodLonger(lib, secret, ls, es, e);
      all := LongestPrefix(lib, secret, ls, es + [e]);
    } else {
      all := es;
    }
  }

  lemma CheckReports(lib: Library, secret: string, ls: seq<Numbered>, es: seq<Entry>, r: Outcome)
    requires Reports(lib, secret, ls, es, r)
    ensures r == Check(lib, secret, GENESIS, ls, 0)
  {
    CheckAfter(lib, secret, ls, es, |es|);
    if |es| < |ls| { assert ls[|es|..][0] == ls[|es|]; }
  }

  /** The whole verifier, on every file and text: there is no file, there is no secret, or the answer
      is the one for the chained records that the non-blank lines begin with. */
  lemma VerifierExactly(lib: Library, text: string, secret: string, r: Outcome)
    ensures VerifyFile(lib, None, secret) == Verified(VerifyResult(false, "read_error", 0, None, None, None))
    ensures secret == "" ==> VerifyFile(lib, Some(text), secret) == Verified(VerifyResult(false, "no_hmac", 0, None, None, None))
    ensures secret != "" ==>
      (VerifyFile(lib, Some(text), secret) == r <==> exists es :: Reports(lib, secret, FileLines(text), es, r))
  {
    if secret != "" {
      var ls := FileLines(text);
      AnswerReported(lib, secret, ls);
      if es :| Reports(lib, secret, ls, es, r) { CheckReports(lib, secret, ls, es, r); }
    }
  }

  lemma AnswerReported(lib: Library, secret: string, ls: seq<Numbered>)
    ensures exists es :: Reports(lib, secret, ls, es, Check(lib, secret, GENESIS, ls, 0))
  {
    var es := LongestPrefix(lib, secret, ls, []);
    SomeReport(lib, secret, ls, es);
  }

  lemma SomeReport(lib: Library, secret: string, ls: seq<Numbered>, es: seq<Entry>)
    requires GoodPrefix(lib, secret, ls, es)
    requires |es| < |ls| ==> forall e :: !Signs(lib, secret, Before(es, |es|), ls[|es|].text, e)
    ensures Reports(lib, secret, ls, es, Check(lib, secret, GENESIS, ls, 0))
  {
    CheckAfter(lib, secret, ls, es, |es|);
    if |es| < |ls| {
      assert ls[|es|..][0] == ls[|es|];
      var text := ls[|es|].text;
      if lib.loads(text).Some? && lib.loads(text).value.Obj? {
        var fields := lib.loads(text).value.fields;
        var e := Entry(Obj(Without(fields, "_hmac")), lib.show(Get(fields, "_hmac")));
        assert !Signs(lib, secret, Before(es, |es|), text, e);
      }
    }
  }

  // ------------------------------------------------------- what a line is

  /** The lines of a text put together again are the text; the last may lack its terminator. */
  lemma {:induction false} LinesExactly(text: string)
    ensures forall l :: l in Lines(text) ==> '\n' !in l
    ensures Unlines(Lines(text)) == if text == "" || Last(text) == '\n' then text else text + "\n"
  {
    if text != "" {
      var rest := Lines(text[1..]);
      LinesExactly(text[1..]);
      assert text == [text[0]] + text[1..];
      if text[0] == '\n' {
        assert ([""] + rest)[1..] == rest;
      } else if rest != [] {
        var all := [[text[0]] + rest[0]] + rest[1..];
        assert all[1..] == rest[1..];
        assert Unlines(all) == [text[0]] + Unlines(rest);
      }
    }
  }

  predicate AllSpace(s: string) { forall c :: c in s ==> c in {' ', '\t', '\n', '\r', '\U{000B}', '\U{000C}'} }

  /** Stripping takes the white space off both ends and nothing else. */
  lemma {:induction false} StripExactly(s: string) returns (before: string, after: string)
    ensures s == before + Strip(s) + after && AllSpace(before) && AllSpace(after)
    ensures Strip(s) != "" ==> !AllSpace([Strip(s)[0]]) && !AllSpace([Last(Strip(s))])
    decreases |s|
  {
    before, after := "", "";
    if s != "" && IsSpace(s[0]) {
      before, after := StripExactly(s[1..]);
      before := [s[0]] + before;
    } else if s != "" && IsSpace(Last(s)) {
      before, after := StripExactly(s[..|s| - 1]);
      after := after + [Last(s)];
    } else if s != "" {
      assert s[0] in [s[0]] && Last(s) in [Last(s)];
    }
  }

  /** The lines that are checked are the lines that are not blank, all of them, in order and each with
      its number in the file. */
  lemma FileLinesExactly(text: string, n: Numbered)
    ensures var lines, ls := Lines(text), FileLines(text);
      && (n in ls <==> 1 <= n.no <= |lines| && n.text == Strip(lines[n.no - 1]) != "")
      && forall i, j :: 0 <= i < j < |ls| ==> ls[i].no < ls[j].no
  {
    NonBlankExactly(Lines(text), 1, n);
    NonBlankOrdered(Lines(text), 1);
  }

  lemma {:induction false} NonBlankExactly(lines: seq<string>, no: nat, n: Numbered)
    ensures n in NonBlank(lines, no) <==> no <= n.no < no + |lines| && n.text == Strip(lines[n.no - no]) != ""
  {
    if lines != [] {
      var first := if Strip(lines[0]) == "" then [] else [Numbered(no, Strip(lines[0]))];
      var rest := NonBlank(lines[1..], no + 1);
      NonBlankExactly(lines[1..], no + 1, n);
      assert n in first + rest <==> n in first || n in rest;
      if no < n.no < no + |lines| { assert lines[1..][n.no - no - 1] == lines[n.no - no]; }
    }
  }

  lemma {:induction false} NonBlankOrdered(lines: seq<string>, no: nat)
    ensures forall i :: 0 <= i < |NonBlank(lines, no)| ==> no <= NonBlank(lines, no)[i].no
    ensures forall i, j :: 0 <= i < j < |NonBlank(lines, no)| ==> NonBlank(lines, no)[i].no < NonBlank(lines, no)[j].no
  {
    if lines != [] {
      NonBlankOrdered(lines[1..], no + 1);
      OrderedCons(if Strip(lines[0]) == "" then [] else [Numbered(no, Strip(lines[0]))], NonBlank(lines[1..], no + 1), no);
    }
  }

  lemma OrderedCons(first: seq<Numbered>, rest: seq<Numbered>, no: nat)
    requires |first| <= 1 && forall n :: n in first ==> n.no == no
    requires forall i :: 0 <= i < |rest| ==> no < rest[i].no
    requires forall i, j :: 0 <= i < j < |rest| ==> rest[i].no < rest[j].no
    ensures forall i :: 0 <= i < |first + rest| ==> no <= (first + rest)[i].no
    ensures forall i, j :: 0 <= i < j < |first + rest| ==> (first + rest)[i].no < (first + rest)[j].no
  {
  }
}
