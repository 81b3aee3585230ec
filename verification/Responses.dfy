/** What leaves the pipeline: the response to a request, and what it hides. */
module Responses {
  import opened Common
  import opened Values
  import opened Masking
  import opened Reaching
  import opened Policies
  import opened PolicyEngine

  predicate Unmasked(a: Action) {
    a in {Explain, CollectionSchema, CollectionIndexes, ListDatabases, DbStats, InsertOne, InsertMany, UpdateOne,
          UpdateMany, DeleteOne,
          DeleteMany, CreateIndex, DropIndex, Drop, CreateCollection, RenameCollection, StorageSize, Logs}
  }

  function TransformDocuments(t: Transformer, es: seq<Entry>): (out: seq<Entry>)
    ensures |out| == |es|
  {
    seq(|es|, i requires 0 <= i < |es| => if es[i].key == "documents" then Entry(es[i].key, Transform(t, es[i].val)) else es[i])
  }

  /** `_build_success`: the data of a response. A plan is masked, results of reads are projected
      and masked, in their list of documents if they have one; other results are passed on. */
  function ResponseData(policy: Option<Policy>, req: Request, raw: Val): Val {
    if policy.None? then raw
    else
      var at := (req.collection, req.database);
      if req.action.Explain? then MaskResult(FreshMasker(policy.value, at), raw)
      else if Unmasked(req.action) then raw
      else ReadData(FreshTransformer(policy.value, at), raw)
  }

  function ReadData(t: Transformer, raw: Val): Val {
    if HasDocuments(raw) then Dict(TransformDocuments(t, raw.entries)) else Transform(t, raw)
  }

  /** The same with the caches of a loaded policy. */
  method BuildSuccess(loaded: LoadedPolicy, req: Request, raw: Val) returns (data: Val)
    requires loaded.Valid()
    modifies loaded
    ensures loaded.Valid() && data == ResponseData(Some(loaded.policy), req, raw)
  {
    if req.action == Explain {
      var m := loaded.AuditMasker(req.collection, req.database);
      return MaskResult(m, raw);
    }
    if Unmasked(req.action) {
      return raw;
    }
    var t := loaded.ResultTransformer(req.collection, req.database);
    if HasDocuments(raw) {
      return Dict(TransformDocuments(t, raw.entries));
    }
    return Transform(t, raw);
  }

  // ------------------------------------------------------- what is hidden

  lemma MaskHidesExactly(r: Rules, a: Val, b: Val)
    ensures MaskResult(r, a) == MaskResult(r, b) <==> Alike(Transformer(r, {}), a, b)
  {
    MaskIsTransform(r, a);
    MaskIsTransform(r, b);
    HidesExactly(Transformer(r, {}), a, b);
  }

  /** Two raw results that differ only in what the policy hides in this collection of this
      database. Only reads are transformed and only plans are masked. */
  ghost predicate Indistinct(p: Policy, req: Request, a: Val, b: Val) {
    var at := (req.collection, req.database);
    match req.action
    case Find => AlikeRead(FreshTransformer(p, at), a, b)
    case Aggregate => AlikeRead(FreshTransformer(p, at), a, b)
    case Count => AlikeRead(FreshTransformer(p, at), a, b)
    case AggregateDb => AlikeRead(FreshTransformer(p, at), a, b)
    case Explain => Alike(Transformer(FreshMasker(p, at), {}), a, b)
    case _ => a == b
  }

  ghost predicate AlikeRead(t: Transformer, a: Val, b: Val) {
    if HasDocuments(a) || HasDocuments(b) then HasDocuments(a) && HasDocuments(b) && AlikeDocuments(t, a.entries, b.entries)
    else Alike(t, a, b)
  }

  predicate HasDocuments(raw: Val) { raw.Dict? && Holds(raw.entries, "documents") }

  ghost predicate AlikeDocuments(t: Transformer, a: seq<Entry>, b: seq<Entry>) {
    && |a| == |b|
    && forall i :: 0 <= i < |a| ==>
         a[i].key == b[i].key && (if a[i].key == "documents" then Alike(t, a[i].val, b[i].val) else a[i].val == b[i].val)
  }

  lemma DocumentsHide(t: Transformer, a: seq<Entry>, b: seq<Entry>)
    ensures TransformDocuments(t, a) == TransformDocuments(t, b) <==> AlikeDocuments(t, a, b)
  {
    var x, y := TransformDocuments(t, a), TransformDocuments(t, b);
    if |a| == |b| {
      forall i | 0 <= i < |a| ensures x[i] == y[i] <==>
          a[i].key == b[i].key && (if a[i].key == "documents" then Alike(t, a[i].val, b[i].val) else a[i].val == b[i].val)
      {
        HidesExactly(t, a[i].val, b[i].val);
      }
      if x == y {
        forall i | 0 <= i < |a|
          ensures a[i].key == b[i].key && (if a[i].key == "documents" then Alike(t, a[i].val, b[i].val) else a[i].val == b[i].val)
        {
          assert x[i] == y[i];
        }
      }
    }
  }

  lemma {:induction false} NoNewKey(t: Transformer, es: seq<Entry>, key: string)
    requires !Holds(es, key)
    ensures !Holds(FuseEntries(t, es, 0, []), key)
  {
    if es != [] {
      assert es == [es[0]] + es[1..];
      NoNewKey(t, es[1..], key);
    }
  }

  /** A transformed result has no list of documents unless the result had one. */
  lemma DocumentsShow(t: Transformer, a: Val, b: Val)
    requires HasDocuments(a) && !HasDocuments(b)
    ensures Dict(TransformDocuments(t, a.entries)) != Transform(t, b)
  {
    var i :| 0 <= i < |a.entries| && a.entries[i].key == "documents";
    assert TransformDocuments(t, a.entries)[i].key == "documents";
    if b.Dict? { NoNewKey(t, b.entries, "documents"); }
  }

  lemma ReadsTellExactly(t: Transformer, a: Val, b: Val)
    ensures ReadData(t, a) == ReadData(t, b) <==> AlikeRead(t, a, b)
  {
    if HasDocuments(a) && HasDocuments(b) {
      DocumentsHide(t, a.entries, b.entries);
    } else if HasDocuments(a) {
      DocumentsShow(t, a, b);
    } else if HasDocuments(b) {
      DocumentsShow(t, b, a);
    } else {
      HidesExactly(t, a, b);
    }
  }

  /** A response tells two results apart exactly when they differ in more than the policy hides. */
  lemma ResponseHidesExactly(p: Policy, req: Request, a: Val, b: Val)
    ensures ResponseData(Some(p), req, a) == ResponseData(Some(p), req, b) <==> Indistinct(p, req, a, b)
  {
    var at := (req.collection, req.database);
    ReadsTellExactly(FreshTransformer(p, at), a, b);
    MaskHidesExactly(FreshMasker(p, at), a, b);
  }

  // -------------------------------------------------------- what is shown

  /** The policy shows what is at this place of a result: it neither masks nor projects there, or the
      first key is visible and no key on the way is masked. */
  ghost predicate Shows(p: Policy, database: Option<string>, collection: string, way: seq<Hop>) {
    var masked := MaskedSet(p, database, collection);
    || (masked == {} && ShowsAllFields(p, database))
    || ((match FirstKey(way) case Some(k) => VisibleIn(p, database, k) case None => true) && Unlisted(masked, way, 0, []))
  }

  /** The key of a document, or of a document in a list. */
  function FirstKey(way: seq<Hop>): Option<string> {
    if way == [] then None
    else match way[0]
      case Key(k) => Some(k)
      case Item(_) => if |way| > 1 && way[1].Key? then Some(way[1].key) else None
  }

  lemma TransformerShows(p: Policy, database: Option<string>, collection: string, v: Val, way: seq<Hop>, x: Val)
    requires Telling(x)
    ensures Reach(Transform(FreshTransformer(p, (collection, database)), v), way) == Some(x)
      <==> Reach(v, way) == Some(x) && Shows(p, database, collection, way)
  {
    var t := FreshTransformer(p, (collection, database));
    var fields := MaskFieldsFor(p, collection, database);
    TransformShows(t, v, way, x);
    OpenMeans(fields, way, 0, []);
    MaskedSetIs(p, collection, database);
    RulesMean(fields, ["any"]);
    ShowsAllExact(p, collection, database);
    if FirstKey(way).Some? { VisibleExact(p, collection, database, FirstKey(way).value); }
  }

  lemma LookupDocuments(t: Transformer, es: seq<Entry>, k: string)
    ensures Holds(TransformDocuments(t, es), k) <==> Holds(es, k)
    ensures Holds(es, k) ==>
      Lookup(TransformDocuments(t, es), k) == if k == "documents" then Transform(t, Lookup(es, k)) else Lookup(es, k)
  {
    var out := TransformDocuments(t, es);
    forall i | 0 <= i < |es| ensures out[i].key == es[i].key {
    }
    if Holds(es, k) {
      var i := FirstAt(es, k);
      assert out[i].key == k;
      FirstIs(es, k, i);
      FirstIs(out, k, i);
    }
  }

  lemma {:induction false} FirstAt(es: seq<Entry>, k: string) returns (i: nat)
    requires Holds(es, k)
    ensures i < |es| && es[i].key == k && forall j :: 0 <= j < i ==> es[j].key != k
  {
    if es[0].key == k {
      i := 0;
    } else {
      HoldsCons(es, k);
      var j := FirstAt(es[1..], k);
      i := j + 1;
      assert forall h :: 0 < h < i ==> es[h] == es[1..][h - 1];
    }
  }

  lemma {:induction false} FirstIs(es: seq<Entry>, k: string, i: nat)
    requires i < |es| && es[i].key == k && forall j :: 0 <= j < i ==> es[j].key != k
    ensures Lookup(es, k) == es[i].val
  {
    if i > 0 {
      assert forall j :: 0 <= j < i - 1 ==> es[1..][j] == es[j + 1];
      FirstIs(es[1..], k, i - 1);
    }
  }

  /** What a caller can read of a result at a place: of a find, an aggregation or a count, what the
      result has there and the policy shows, the documents being where the list of documents is; of
      a plan, what no mask entry names; of anything else, all of it. */
  lemma ResponseShowsExactly(p: Policy, req: Request, raw: Val, way: seq<Hop>, x: Val)
    requires Telling(x)
    ensures var data := ResponseData(Some(p), req, raw); var masked := MaskedSet(p, req.database, req.collection);
      Reach(data, way) == Some(x) <==>
        && Reach(raw, way) == Some(x)
        && (req.action in {Find, Aggregate, Count, AggregateDb} ==>
              if !HasDocuments(raw) then Shows(p, req.database, req.collection, way)
              else way != [] && way[0] == Key("documents") ==> Shows(p, req.database, req.collection, way[1..]))
        && (req.action == Explain && masked != {} ==> Unlisted(masked, way, 0, []))
  {
    var at := (req.collection, req.database);
    if req.action.Explain? {
      MaskShows(MaskFieldsFor(p, req.collection, req.database), raw, way, x);
      MaskedSetIs(p, req.collection, req.database);
    } else if req.action in {Find, Aggregate, Count, AggregateDb} {
      var t := FreshTransformer(p, at);
      if !HasDocuments(raw) {
        TransformerShows(p, req.database, req.collection, raw, way, x);
      } else if way != [] && way[0].Key? {
        LookupDocuments(t, raw.entries, way[0].key);
        if way[0].key == "documents" {
          TransformerShows(p, req.database, req.collection, Lookup(raw.entries, "documents"), way[1..], x);
        }
      }
    }
  }

  /** In particular no value under a masked key can be read from the documents of a find, at any depth
      and whatever it is, unless a list inside a list is on the way. */
  lemma MaskedKeyUnreadable(p: Policy, req: Request, raw: Val, way: seq<Hop>, i: nat, x: Val)
    requires req.action.Find? && HasDocuments(raw) && Telling(x)
    requires 0 < i < |way| && way[0] == Key("documents")
    requires way[i].Key? && '.' !in way[i].key && MaskedIn(p, req.database, req.collection, way[i].key)
    requires forall j :: 0 <= j < i ==> !(way[j].Item? && way[j + 1].Item?)
    ensures Reach(ResponseData(Some(p), req, raw), way) != Some(x)
  {
    TailCloses(MaskedSet(p, req.database, req.collection), way, i);
    ResponseShowsExactly(p, req, raw, way, x);
    assert !Shows(p, req.database, req.collection, way[1..]);
  }

  lemma TailCloses(masked: set<string>, way: seq<Hop>, i: nat)
    requires 0 < i < |way| && way[i].Key? && way[i].key in masked && '.' !in way[i].key
    requires forall j :: 0 <= j < i ==> !(way[j].Item? && way[j + 1].Item?)
    ensures !Unlisted(masked, way[1..], 0, [])
  {
    var rest := way[1..];
    forall j | 0 <= j < i - 1 ensures !(rest[j].Item? && rest[j + 1].Item?) {
      assert !(way[j + 1].Item? && way[j + 2].Item?);
    }
    ListedCloses(masked, rest, 0, [], i - 1);
  }
}
