/** What an accepted log rules out. No assumption is made on the MAC as a whole: each result
    asks only that it does not collide on the finitely many messages that the logs at hand
    put through it. */
module AuditTamper {
  import opened Common
  import opened AuditChain

  /** No two of these messages have the same MAC, and none has the genesis value. */
  ghost predicate CollisionFree(lib: Library, secret: string, messages: set<string>) {
    && (forall m, n :: m in messages && n in messages && lib.mac(secret, m) == lib.mac(secret, n) ==> m == n)
    && (forall m :: m in messages ==> lib.mac(secret, m) != GENESIS)
  }

  /** What is signed for record `i`. */
  function Message(lib: Library, es: seq<Entry>, i: nat): string
    requires i < |es|
  {
    Before(es, i) + lib.dumps(es[i].base)
  }

  ghost predicate HoldsMessages(lib: Library, es: seq<Entry>, messages: set<string>) {
    forall i: nat :: i < |es| ==> Message(lib, es, i) in messages
  }

  ghost function MessagesOf(lib: Library, es: seq<Entry>): set<string> {
    set i: nat | i < |es| :: Message(lib, es, i)
  }

  ghost predicate Records(es: seq<Entry>) {
    forall i :: 0 <= i < |es| ==> es[i].base.Obj? && WellFormed(es[i].base)
  }

  lemma PrintingInjective(lib: Library, a: Json, b: Json)
    requires Faithful(lib) && WellFormed(a) && WellFormed(b) && lib.dumps(a) == lib.dumps(b)
    ensures a == b
  {
    assert lib.loads(lib.dumps(a)) == Some(a) && lib.loads(lib.dumps(b)) == Some(b);
  }

  /** A message is the fixed-length digest and then the record, so it tells both. */
  lemma MessageInjective(p: string, x: string, q: string, y: string)
    requires |p| == |q| && p + x == q + y
    ensures p == q && x == y
  {
    assert p == (p + x)[..|p|] && q == (q + y)[..|q|];
    assert x == (p + x)[|p|..] && y == (q + y)[|q|..];
  }

  lemma BeforeLength(lib: Library, secret: string, es: seq<Entry>, i: nat)
    requires Faithful(lib) && Chained(lib, secret, es) && i <= |es|
    ensures |Before(es, i)| == 64
  {
    if i > 0 {
      assert Links(lib, secret, es, i - 1);
    }
  }

  /** Two records of collision-free logs with the same digest are the same record, chained to
      the same digest. */
  lemma SameDigest(lib: Library, secret: string, a: seq<Entry>, i: nat, b: seq<Entry>, j: nat, messages: set<string>)
    requires Faithful(lib) && Chained(lib, secret, a) && Chained(lib, secret, b)
    requires Records(a) && Records(b) && i < |a| && j < |b| && a[i].digest == b[j].digest
    requires CollisionFree(lib, secret, messages)
    requires Message(lib, a, i) in messages && Message(lib, b, j) in messages
    ensures Before(a, i) == Before(b, j) && a[i].base == b[j].base
  {
    BeforeLength(lib, secret, a, i);
    BeforeLength(lib, secret, b, j);
    assert Links(lib, secret, a, i) && Links(lib, secret, b, j);
    MessageInjective(Before(a, i), lib.dumps(a[i].base), Before(b, j), lib.dumps(b[j].base));
    PrintingInjective(lib, a[i].base, b[j].base);
  }

  lemma NotGenesis(lib: Library, secret: string, es: seq<Entry>, i: nat, messages: set<string>)
    requires Chained(lib, secret, es) && i < |es|
    requires CollisionFree(lib, secret, messages) && HoldsMessages(lib, es, messages)
    ensures es[i].digest != GENESIS
  {
    assert Links(lib, secret, es, i);
    assert Message(lib, es, i) in messages;
  }

  /** Two positions with the same digest behind them have the same records behind them. */
  lemma {:induction false} SameHistory(lib: Library, secret: string, a: seq<Entry>, i: nat, b: seq<Entry>, j: nat,
    messages: set<string>)
    requires Faithful(lib) && Chained(lib, secret, a) && Chained(lib, secret, b) && Records(a) && Records(b)
    requires CollisionFree(lib, secret, messages)
    requires HoldsMessages(lib, a, messages) && HoldsMessages(lib, b, messages)
    requires i <= |a| && j <= |b| && Before(a, i) == Before(b, j)
    ensures i == j && a[..i] == b[..j]
    decreases i
  {
    if i > 0 { NotGenesis(lib, secret, a, i - 1, messages); }
    if j > 0 { NotGenesis(lib, secret, b, j - 1, messages); }
    if i > 0 && j > 0 {
      SameDigest(lib, secret, a, i - 1, b, j - 1, messages);
      SameHistory(lib, secret, a, i - 1, b, j - 1, messages);
      assert a[..i] == a[..i-1] + [a[i-1]] && b[..j] == b[..j-1] + [b[j-1]];
    }
  }

  /** The last digest commits to the whole log: two accepted logs that end in the same digest
      are the same log. */
  lemma LastDigestFixesLog(lib: Library, secret: string, a: seq<Entry>, b: seq<Entry>)
    requires Faithful(lib) && Chained(lib, secret, a) && Chained(lib, secret, b) && Records(a) && Records(b)
    requires CollisionFree(lib, secret, MessagesOf(lib, a) + MessagesOf(lib, b))
    requires Before(a, |a|) == Before(b, |b|)
    ensures a == b
  {
    SameHistory(lib, secret, a, |a|, b, |b|, MessagesOf(lib, a) + MessagesOf(lib, b));
    assert a[..|a|] == a && b[..|b|] == b;
  }

  /** No digest of an accepted log is the genesis value or occurs twice: the digests a record
      may be chained to are told apart by their position. */
  lemma AnchorsDistinct(lib: Library, secret: string, es: seq<Entry>, i: nat, j: nat, messages: set<string>)
    requires Faithful(lib) && Chained(lib, secret, es) && Records(es)
    requires CollisionFree(lib, secret, messages) && HoldsMessages(lib, es, messages)
    requires i < j <= |es|
    ensures Before(es, i) != Before(es, j)
  {
    if Before(es, i) == Before(es, j) {
      SameHistory(lib, secret, es, i, es, j, messages);
    }
  }

  lemma DigestsDistinct(lib: Library, secret: string, es: seq<Entry>, i: nat, j: nat)
    requires Faithful(lib) && Chained(lib, secret, es) && Records(es)
    requires CollisionFree(lib, secret, MessagesOf(lib, es))
    requires i < j < |es|
    ensures es[i].digest != es[j].digest && es[i].digest != GENESIS
  {
    AnchorsDistinct(lib, secret, es, i + 1, j + 1, MessagesOf(lib, es));
    NotGenesis(lib, secret, es, i, MessagesOf(lib, es));
  }

  /** Cutting the tail goes unnoticed: every prefix of a chained log is chained. */
  lemma PrefixChained(lib: Library, secret: string, es: seq<Entry>, k: nat)
    requires Chained(lib, secret, es) && k <= |es|
    ensures Chained(lib, secret, es[..k])
    ensures Before(es[..k], k) == Before(es, k)
  {
    forall i: nat | i < k ensures Links(lib, secret, es[..k], i) {
      assert Links(lib, secret, es, i);
      assert Before(es[..k], i) == Before(es, i);
    }
  }

  // ------------------------------------------------------------- tampering

  /** The first place where two logs differ, or the length of the shorter one. */
  ghost function FirstDifference(es: seq<Entry>, forged: seq<Entry>): nat {
    if es == [] || forged == [] || es[0] != forged[0] then 0 else 1 + FirstDifference(es[1..], forged[1..])
  }

  lemma {:induction false} FirstDifferenceMeans(es: seq<Entry>, forged: seq<Entry>)
    ensures var k := FirstDifference(es, forged);
      && k <= |es| && k <= |forged| && es[..k] == forged[..k]
      && (k < |es| && k < |forged| ==> es[k] != forged[k])
  {
    if es != [] && forged != [] && es[0] == forged[0] {
      FirstDifferenceMeans(es[1..], forged[1..]);
      var k := FirstDifference(es, forged);
      assert es[..k] == [es[0]] + es[1..][..k-1];
      assert forged[..k] == [forged[0]] + forged[1..][..k-1];
    }
  }

  lemma CommonPrefixLinks(lib: Library, secret: string, es: seq<Entry>, forged: seq<Entry>, k: nat)
    requires Chained(lib, secret, es) && k <= |es| && k <= |forged| && es[..k] == forged[..k]
    ensures forall i: nat :: i < k ==> Links(lib, secret, forged, i)
    ensures Before(forged, k) == Before(es, k)
  {
    forall i: nat | i < k ensures Links(lib, secret, forged, i) {
      assert Links(lib, secret, es, i);
      assert es[..k][i] == forged[..k][i];
      if i > 0 { assert es[..k][i-1] == forged[..k][i-1]; }
    }
    if k > 0 { assert es[..k][k-1] == forged[..k][k-1]; }
  }

  /** Every record of the log chained to every digest of it: what a log put together from
      its records may put through the MAC. */
  ghost predicate HoldsMixed(lib: Library, es: seq<Entry>, messages: set<string>) {
    forall i: nat, j: nat :: i <= |es| && j < |es| ==> Mixed(lib, es, i, j) in messages
  }

  function Mixed(lib: Library, es: seq<Entry>, i: nat, j: nat): string
    requires i <= |es| && j < |es|
  {
    Before(es, i) + lib.dumps(es[j].base)
  }

  ghost function MixedOf(lib: Library, es: seq<Entry>): set<string> {
    set i: nat, j: nat | i <= |es| && j < |es| :: Mixed(lib, es, i, j)
  }

  /** A log put together from the records of an accepted one, in any order and number
      (deleting, swapping, repeating, moving), breaks at the first place where it departs
      from the original, unless it is a prefix of it. */
  lemma RearrangedBreaks(lib: Library, secret: string, es: seq<Entry>, forged: seq<Entry>)
    requires Faithful(lib) && Chained(lib, secret, es) && Records(es)
    requires CollisionFree(lib, secret, MixedOf(lib, es))
    requires forall e :: e in forged ==> e in es
    ensures Chained(lib, secret, forged) <==> forged <= es
    ensures !(forged <= es) ==>
      FirstDifference(es, forged) < |forged| && FirstBreak(lib, secret, forged, FirstDifference(es, forged))
  {
    var k := FirstDifference(es, forged);
    FirstDifferenceMeans(es, forged);
    CommonPrefixLinks(lib, secret, es, forged, k);
    if k == |forged| {
      PrefixChained(lib, secret, es, k);
      assert forged == forged[..k];
    } else {
      PrefixDiffers(es, forged, k);
      DisplacedBreaks(lib, secret, es, forged, k, MixedOf(lib, es));
    }
  }

  lemma PrefixDiffers(es: seq<Entry>, forged: seq<Entry>, k: nat)
    requires k < |forged| && (k < |es| ==> es[k] != forged[k])
    ensures !(forged <= es)
  {
  }

  lemma DisplacedBreaks(lib: Library, secret: string, es: seq<Entry>, forged: seq<Entry>, k: nat, messages: set<string>)
    requires Faithful(lib) && Chained(lib, secret, es) && Records(es)
    requires CollisionFree(lib, secret, messages) && HoldsMixed(lib, es, messages)
    requires k <= |es| && k < |forged| && Before(forged, k) == Before(es, k)
    requires k < |es| ==> es[k] != forged[k]
    requires forged[k] in es
    ensures !Links(lib, secret, forged, k)
  {
    var m :| 0 <= m < |es| && es[m] == forged[k];
    forall i: nat | i < |es| ensures Message(lib, es, i) in messages {
      assert Message(lib, es, i) == Mixed(lib, es, i, i);
    }
    if m < k {
      AnchorsDistinct(lib, secret, es, m, k, messages);
    } else {
      AnchorsDistinct(lib, secret, es, k, m, messages);
    }
    BeforeLength(lib, secret, es, k);
    BeforeLength(lib, secret, es, m);
    assert Links(lib, secret, es, m);
    if Links(lib, secret, forged, k) {
      assert Mixed(lib, es, k, m) in messages && Mixed(lib, es, m, m) in messages;
      MessageInjective(Before(es, k), lib.dumps(es[m].base), Before(es, m), lib.dumps(es[m].base));
    }
  }

  /** The record after an edited one, when the edited one was signed anew. */
  lemma SuccessorBreaks(lib: Library, secret: string, es: seq<Entry>, k: nat, edited: Entry, messages: set<string>)
    requires Faithful(lib) && Chained(lib, secret, es) && Records(es)
    requires k + 1 < |es| && edited != es[k] && WellFormed(edited.base)
    requires edited.digest == Sign(lib, secret, Before(es, k), edited.base)
    requires CollisionFree(lib, secret, messages) && HoldsMessages(lib, es, messages)
    requires Before(es, k) + lib.dumps(edited.base) in messages && edited.digest + lib.dumps(es[k+1].base) in messages
    ensures es[k+1].digest != Sign(lib, secret, edited.digest, es[k+1].base)
  {
    var next := lib.dumps(es[k+1].base);
    assert Message(lib, es, k) in messages && Message(lib, es, k + 1) in messages;
    assert Links(lib, secret, es, k) && Links(lib, secret, es, k + 1);
    if es[k+1].digest == Sign(lib, secret, edited.digest, es[k+1].base) {
      MessageInjective(edited.digest, next, es[k].digest, next);
      BeforeLength(lib, secret, es, k);
      MessageInjective(Before(es, k), lib.dumps(edited.base), Before(es, k), lib.dumps(es[k].base));
      PrintingInjective(lib, edited.base, es[k].base);
    }
  }

  /** The messages an edit of record `k` puts through the MAC besides those of the log. */
  ghost function EditMessages(lib: Library, es: seq<Entry>, k: nat, edited: Entry): set<string>
    requires k < |es|
  {
    {Before(es, k) + lib.dumps(edited.base)} + (if k + 1 < |es| then {edited.digest + lib.dumps(es[k+1].base)} else {})
  }

  /** Editing record `k` of an accepted log: if the edited record does not carry the MAC of
      its new content it is reported itself; if it does, the next record is, since it is
      chained to the old digest. Only the last record can be replaced by one signed anew. */
  lemma EditedBreaks(lib: Library, secret: string, es: seq<Entry>, k: nat, edited: Entry)
    requires Faithful(lib) && Chained(lib, secret, es) && Records(es)
    requires k < |es| && edited != es[k] && WellFormed(edited.base)
    requires CollisionFree(lib, secret, MessagesOf(lib, es) + EditMessages(lib, es, k, edited))
    ensures var forged := es[k := edited];
      if edited.digest != Sign(lib, secret, Before(es, k), edited.base) then FirstBreak(lib, secret, forged, k)
      else if k + 1 < |es| then FirstBreak(lib, secret, forged, k + 1)
      else Chained(lib, secret, forged)
  {
    var forged := es[k := edited];
    CommonPrefixLinks(lib, secret, es, forged, k);
    if edited.digest == Sign(lib, secret, Before(es, k), edited.base) {
      assert forall i: nat :: i < k + 1 ==> Links(lib, secret, forged, i);
      if k + 1 < |es| {
        SuccessorBreaks(lib, secret, es, k, edited, MessagesOf(lib, es) + EditMessages(lib, es, k, edited));
        assert Before(forged, k + 1) == edited.digest && forged[k+1] == es[k+1];
      }
    }
  }

  /** Changing a record but not its signature, or its signature but not the record, is always
      reported at that record. */
  lemma HalfEditBreaks(lib: Library, secret: string, es: seq<Entry>, k: nat, edited: Entry)
    requires Faithful(lib) && Chained(lib, secret, es) && Records(es)
    requires k < |es| && edited != es[k] && WellFormed(edited.base)
    requires edited.digest == es[k].digest || edited.base == es[k].base
    requires CollisionFree(lib, secret, MessagesOf(lib, es) + EditMessages(lib, es, k, edited))
    ensures FirstBreak(lib, secret, es[k := edited], k)
  {
    EditedBreaks(lib, secret, es, k, edited);
    assert Message(lib, es, k) in MessagesOf(lib, es);
    assert Links(lib, secret, es, k);
    if edited.digest == Sign(lib, secret, Before(es, k), edited.base) {
      assert Before(es, k) + lib.dumps(edited.base) in EditMessages(lib, es, k, edited);
      BeforeLength(lib, secret, es, k);
      MessageInjective(Before(es, k), lib.dumps(edited.base), Before(es, k), lib.dumps(es[k].base));
      PrintingInjective(lib, edited.base, es[k].base);
    }
  }

  // ------------------------------------------------------- in terms of files

  /** A tampered file is reported at the line of its first record out of place: the file
      `forged` reads as records of the accepted file `text`, and is not a prefix of them. */
  lemma RearrangedFileRejected(lib: Library, secret: string, text: string, es: seq<Entry>, forged: string, fs: seq<Entry>)
    requires Faithful(lib) && secret != "" && FileAccepted(lib, Some(text), secret)
    requires ReadsAs(lib, FileLines(text), es) && ReadsAs(lib, FileLines(forged), fs)
    requires CollisionFree(lib, secret, MixedOf(lib, es))
    requires forall e :: e in fs ==> e in es
    requires !(fs <= es)
    ensures FirstDifference(es, fs) < |fs|
    ensures VerifyFile(lib, Some(forged), secret)
         == BrokenAt(lib, secret, FileLines(forged), fs, FirstDifference(es, fs))
  {
    AcceptedReads(lib, secret, text, es);
    RearrangedBreaks(lib, secret, es, fs);
    RejectedAtFirstBreak(lib, secret, forged, fs, FirstDifference(es, fs));
  }

  /** What the file reads as breaks first at its `k`-th record, or not at all. */
  ghost predicate Reported(lib: Library, secret: string, forged: string, fs: seq<Entry>, k: nat)
    requires ReadsAs(lib, FileLines(forged), fs)
  {
    if k < |fs| then VerifyFile(lib, Some(forged), secret) == BrokenAt(lib, secret, FileLines(forged), fs, k)
    else FileAccepted(lib, Some(forged), secret)
  }

  lemma ReportedFirst(lib: Library, secret: string, forged: string, fs: seq<Entry>, k: nat)
    requires Faithful(lib) && secret != "" && ReadsAs(lib, FileLines(forged), fs) && fs != []
    requires if k < |fs| then FirstBreak(lib, secret, fs, k) else Chained(lib, secret, fs)
    ensures Reported(lib, secret, forged, fs, k)
  {
    if k < |fs| { RejectedAtFirstBreak(lib, secret, forged, fs, k); } else { AcceptedMeansChained(lib, secret, forged); }
  }

  /** A file in which one record was edited is reported at the line of that record, or, when the
      record was signed anew, at the next one; only an edit of the last record passes, signed anew. */
  lemma EditedFileRejected(lib: Library, secret: string, text: string, es: seq<Entry>, forged: string, fs: seq<Entry>, k: nat)
    requires Faithful(lib) && secret != "" && FileAccepted(lib, Some(text), secret)
    requires ReadsAs(lib, FileLines(text), es) && ReadsAs(lib, FileLines(forged), fs)
    requires k < |es| == |fs| && fs == es[k := fs[k]] && fs[k] != es[k]
    requires CollisionFree(lib, secret, MessagesOf(lib, es) + EditMessages(lib, es, k, fs[k]))
    ensures Reported(lib, secret, forged, fs, if fs[k].digest == Sign(lib, secret, Before(es, k), fs[k].base) then k + 1 else k)
  {
    AcceptedReads(lib, secret, text, es);
    ReadRecords(lib, FileLines(forged), fs);
    EditedBreaks(lib, secret, es, k, fs[k]);
    ReportedFirst(lib, secret, forged, fs, if fs[k].digest == Sign(lib, secret, Before(es, k), fs[k].base) then k + 1 else k);
  }

  /** A file in which a record or its signature was changed, and not the other, is always reported
      at that line. */
  lemma HalfEditedFileRejected(lib: Library, secret: string, text: string, es: seq<Entry>, forged: string, fs: seq<Entry>, k: nat)
    requires Faithful(lib) && secret != "" && FileAccepted(lib, Some(text), secret)
    requires ReadsAs(lib, FileLines(text), es) && ReadsAs(lib, FileLines(forged), fs)
    requires k < |es| == |fs| && fs == es[k := fs[k]] && fs[k] != es[k]
    requires fs[k].digest == es[k].digest || fs[k].base == es[k].base
    requires CollisionFree(lib, secret, MessagesOf(lib, es) + EditMessages(lib, es, k, fs[k]))
    ensures VerifyFile(lib, Some(forged), secret) == BrokenAt(lib, secret, FileLines(forged), fs, k)
  {
    AcceptedReads(lib, secret, text, es);
    ReadRecords(lib, FileLines(forged), fs);
    HalfEditBreaks(lib, secret, es, k, fs[k]);
    RejectedAtFirstBreak(lib, secret, forged, fs, k);
  }

  /** ... and cutting records off the end of the file is the one rearrangement accepted. */
  lemma TruncatedFileAccepted(lib: Library, secret: string, text: string, es: seq<Entry>, forged: string, fs: seq<Entry>)
    requires Faithful(lib) && secret != "" && FileAccepted(lib, Some(text), secret)
    requires ReadsAs(lib, FileLines(text), es) && ReadsAs(lib, FileLines(forged), fs)
    requires fs <= es && fs != []
    ensures FileAccepted(lib, Some(forged), secret)
  {
    AcceptedReads(lib, secret, text, es);
    PrefixChained(lib, secret, es, |fs|);
    AcceptedMeansChained(lib, secret, forged);
  }

  /** What an accepted file reads as is chained. */
  lemma AcceptedReads(lib: Library, secret: string, text: string, es: seq<Entry>)
    requires Faithful(lib) && secret != "" && FileAccepted(lib, Some(text), secret) && ReadsAs(lib, FileLines(text), es)
    ensures Chained(lib, secret, es) && Records(es)
  {
    AcceptedMeansChained(lib, secret, text);
    var es' :| ReadsAs(lib, FileLines(text), es') && Chained(lib, secret, es');
    ReadsUnique(lib, FileLines(text), es, es');
    ReadRecords(lib, FileLines(text), es);
  }

  lemma ReadsUnique(lib: Library, ls: seq<Numbered>, a: seq<Entry>, b: seq<Entry>)
    requires ReadsAs(lib, ls, a) && ReadsAs(lib, ls, b)
    ensures a == b
  {
    forall i | 0 <= i < |a| ensures a[i] == b[i] {
      assert EntryOf(lib, ls[i].text) == Some(a[i]);
    }
  }

  lemma {:induction false} WithoutWellFormed(fields: seq<Field>, key: string)
    requires WellFormed(Obj(fields))
    ensures WellFormed(Obj(Without(fields, key)))
    ensures forall f :: f in Without(fields, key) ==> f in fields
  {
    if fields != [] {
      var rest := fields[1..];
      assert forall i :: 0 <= i < |rest| ==> rest[i] == fields[i+1];
      assert WellFormed(Obj(rest));
      WithoutWellFormed(rest, key);
      var out := Without(fields, key);
      if fields[0].key != key {
        forall j | 0 < j < |out| ensures out[j].key != out[0].key {
          assert out[j] == Without(rest, key)[j-1] && out[j] in Without(rest, key);
          var i :| 0 <= i < |rest| && rest[i] == out[j];
        }
      }
    }
  }

  lemma ReadRecords(lib: Library, ls: seq<Numbered>, es: seq<Entry>)
    requires Faithful(lib) && ReadsAs(lib, ls, es)
    ensures Records(es)
  {
    forall i | 0 <= i < |es| ensures es[i].base.Obj? && WellFormed(es[i].base) {
      assert EntryOf(lib, ls[i].text) == Some(es[i]);
      WithoutWellFormed(lib.loads(ls[i].text).value.fields, HMAC_KEY);
    }
  }
}
