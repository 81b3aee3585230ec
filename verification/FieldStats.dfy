/** Statistics and types of fields, collected from a sample of raw documents. */
module FieldStats {
  import opened Common
  import opened Marshal
  import opened MarshalMeaning

  const TRACK_CAP := 50
  const VALUES_CAP := 20

  // ----------------------------------------------------------------- sample

  /** Every value a field has in the sample, document by document. */
  function Occurrences(docs: seq<Bson>, key: string): seq<Bson> {
    if docs == [] then []
    else Occurrences(docs[..|docs| - 1], key) + (if Last(docs).Doc? then In(Last(docs).fields, key) else [])
  }

  function In(fields: seq<Slot>, key: string): seq<Bson> {
    if fields == [] then []
    else In(fields[..|fields| - 1], key) + (if Last(fields).key == key then [Last(fields).val] else [])
  }

  /** Python's equality of scalars: true, 1 and 1.0 are one member of a set. */
  datatype Atom = AText(s: string) | ANumber(n: real)

  predicate Scalar(v: Bson) { v.Text? || v.Integer? || v.Long? || v.Double? || v.Boolean? }

  function AtomOf(v: Bson): Atom
    requires Scalar(v)
  {
    match v
    case Text(s) => AText(s)
    case Integer(n) => ANumber(n as real)
    case Long(n) => ANumber(n as real)
    case Double(r) => ANumber(r)
    case Boolean(b) => ANumber(if b then 1.0 else 0.0)
  }

  function Atoms(vs: seq<Bson>): set<Atom> { set v | v in vs && Scalar(v) :: AtomOf(v) }

  function NonNull(vs: seq<Bson>): seq<Bson> {
    if vs == [] then [] else NonNull(vs[..|vs| - 1]) + (if Last(vs).Nil? then [] else [Last(vs)])
  }

  // ---------------------------------------------------------------- tallies

  /** What is tracked of one field; `reps` is the set of values, by one value for each. */
  datatype Tally = Tally(present: nat, nulls: nat, reps: seq<Bson>, overflow: bool, range: Option<(int, int)>)

  const NoTally := Tally(0, 0, [], false, None)

  function AddTo(reps: seq<Bson>, v: Bson): seq<Bson>
    requires Scalar(v)
  {
    if AtomOf(v) in Atoms(reps) then reps else reps + [v]
  }

  function Count(t: Tally, masked: bool, v: Bson): Tally {
    var t := t.(present := t.present + 1);
    if v.Nil? then t.(nulls := t.nulls + 1)
    else if masked then t
    else if v.Date? then
      t.(range := Some(if t.range.None? then (v.at, v.at)
                       else (if v.at < t.range.value.0 then v.at else t.range.value.0,
                         if v.at > t.range.value.1 then v.at else t.range.value.1)))
    else if t.overflow || !Scalar(v) then t
    else
      var reps := AddTo(t.reps, v);
      if |reps| > TRACK_CAP then t.(overflow := true, reps := []) else t.(reps := reps)
  }

  function TallyOf(masked: bool, vs: seq<Bson>): Tally {
    if vs == [] then NoTally else Count(TallyOf(masked, vs[..|vs| - 1]), masked, Last(vs))
  }

  datatype Stat = Stat(count: nat, nullCount: int, distinct: Option<nat>, values: Option<seq<Bson>>, range: Option<(int, int)>)

  function StatOf(total: nat, masked: bool, t: Tally, sort: seq<Bson> -> seq<Bson>): Stat {
    var hidden := masked || t.overflow;
    Stat(total, t.nulls + (total - t.present),
         if hidden then None else Some(|t.reps|),
         if !hidden && 0 < |t.reps| <= VALUES_CAP then Some(sort(t.reps)) else None,
         if masked then None else t.range)
  }

  /** What a field has in some documents and the first entries of the next one. */
  function Seen(docs: seq<Bson>, fields: seq<Slot>, key: string): seq<Bson> { Occurrences(docs, key) + In(fields, key) }

  ghost predicate Counted(tallies: map<string, Tally>, masked: set<string>, docs: seq<Bson>, fields: seq<Slot>) {
    && (forall k :: k in tallies <==> Seen(docs, fields, k) != [])
    && (forall k :: k in tallies ==> tallies[k] == TallyOf(k in masked, Seen(docs, fields, k)))
  }

  lemma SeenNext(docs: seq<Bson>, fields: seq<Slot>, slot: Slot, k: string)
    ensures Seen(docs, fields + [slot], k) == Seen(docs, fields, k) + (if slot.key == k then [slot.val] else [])
  {
    assert (fields + [slot])[..|fields|] == fields;
  }

  lemma SeenDoc(docs: seq<Bson>, d: Bson, k: string)
    ensures Seen(docs + [d], [], k) == if d.Doc? then Seen(docs, d.fields, k) else Seen(docs, [], k)
  {
    assert (docs + [d])[..|docs|] == docs;
  }

  lemma TallyNext(masked: bool, vs: seq<Bson>, v: Bson)
    ensures TallyOf(masked, vs + [v]) == Count(TallyOf(masked, vs), masked, v)
    ensures TallyOf(masked, []) == NoTally
  {
    assert (vs + [v])[..|vs|] == vs;
  }

  lemma CountedNext(tallies: map<string, Tally>, masked: set<string>, docs: seq<Bson>, fields: seq<Slot>, slot: Slot)
    requires Counted(tallies, masked, docs, fields)
    ensures var t := if slot.key in tallies then tallies[slot.key] else NoTally;
      Counted(tallies[slot.key := Count(t, slot.key in masked, slot.val)], masked, docs, fields + [slot])
  {
    var t := if slot.key in tallies then tallies[slot.key] else NoTally;
    var next := tallies[slot.key := Count(t, slot.key in masked, slot.val)];
    forall k
      ensures k in next <==> Seen(docs, fields + [slot], k) != []
      ensures k in next ==> next[k] == TallyOf(k in masked, Seen(docs, fields + [slot], k))
    {
      SeenNext(docs, fields, slot, k);
      TallyNext(k in masked, Seen(docs, fields, k), slot.val);
      assert Seen(docs, fields, k) + [] == Seen(docs, fields, k);
    }
  }

  lemma CountedDoc(tallies: map<string, Tally>, masked: set<string>, docs: seq<Bson>, d: Bson)
    requires Counted(tallies, masked, docs, if d.Doc? then d.fields else [])
    ensures Counted(tallies, masked, docs + [d], [])
  {
    forall k
      ensures k in tallies <==> Seen(docs + [d], [], k) != []
      ensures k in tallies ==> tallies[k] == TallyOf(k in masked, Seen(docs + [d], [], k))
    {
      SeenDoc(docs, d, k);
    }
  }

  /** `build_field_stats`: for every field of the sample, the statistics of its occurrences. */
  method BuildFieldStats(docs: seq<Bson>, maskFields: seq<string>,
    sort: seq<Bson> -> seq<Bson>) returns (stats: map<string, Stat>)
    ensures forall k :: k in stats <==> Occurrences(docs, k) != []
    ensures forall k :: k in stats ==>
      stats[k] == StatOf(|docs|, k in maskFields, TallyOf(k in maskFields, Occurrences(docs, k)), sort)
  {
    var masked := Elements(maskFields);
    var tallies: map<string, Tally> := map[];
    for i := 0 to |docs|
      invariant Counted(tallies, masked, docs[..i], [])
    {
      if docs[i].Doc? {
        var fields := docs[i].fields;
        for j := 0 to |fields|
          invariant Counted(tallies, masked, docs[..i], fields[..j])
        {
          var k, v := fields[j].key, fields[j].val;
          CountedNext(tallies, masked, docs[..i], fields[..j], fields[j]);
          assert fields[..j + 1] == fields[..j] + [fields[j]];
          tallies := tallies[k := Count(if k in tallies then tallies[k] else NoTally, k in masked, v)];
        }
        assert fields[..|fields|] == fields;
      }
      CountedDoc(tallies, masked, docs[..i], docs[i]);
      assert docs[..i + 1] == docs[..i] + [docs[i]];
    }
    assert docs[..|docs|] == docs;
    forall k ensures Seen(docs, [], k) == Occurrences(docs, k) {}
    stats := map k | k in tallies :: StatOf(|docs|, k in masked, tallies[k], sort);
  }

  // ---------------------------------------------------------- what they mean

  lemma {:induction false} NonNullCount(masked: bool, vs: seq<Bson>)
    ensures TallyOf(masked, vs).present == |vs| && TallyOf(masked, vs).nulls == |vs| - |NonNull(vs)|
  {
    if vs != [] { NonNullCount(masked, vs[..|vs| - 1]); }
  }

  /** The number a scalar is equal to in Python: true is 1 and false is 0. */
  predicate Counts(v: Bson, r: real) {
    match v
    case Integer(n) => n as real == r
    case Long(n) => n as real == r
    case Double(x) => x == r
    case Boolean(true) => r == 1.0
    case Boolean(false) => r == 0.0
    case _ => false
  }

  /** Equal as members of a Python set: the same text, or the same number. */
  ghost predicate SameScalar(a: Bson, b: Bson) { (a.Text? && a == b) || exists r :: Counts(a, r) && Counts(b, r) }

  lemma AtomsTell(a: Bson, b: Bson)
    requires Scalar(a) && Scalar(b)
    ensures AtomOf(a) == AtomOf(b) <==> SameScalar(a, b)
  {
    if a.Text? || b.Text? {
      forall r ensures !(Counts(a, r) && Counts(b, r)) {
      }
    } else {
      assert Counts(a, AtomOf(a).n) && Counts(b, AtomOf(b).n);
    }
  }

  /** The different scalars among the values, one of each. */
  ghost predicate Lists(reps: seq<Bson>, vs: seq<Bson>) {
    && (forall i :: 0 <= i < |reps| ==> Scalar(reps[i]) && reps[i] in vs)
    && (forall i, j :: 0 <= i < j < |reps| ==> !SameScalar(reps[i], reps[j]))
    && (forall v :: v in vs && Scalar(v) ==> Among(reps, v))
  }

  ghost predicate Among(reps: seq<Bson>, v: Bson) { exists i :: 0 <= i < |reps| && SameScalar(reps[i], v) }

  ghost function Distinct(vs: seq<Bson>): seq<Bson> {
    if vs == [] then []
    else
      var reps := Distinct(vs[..|vs| - 1]);
      if Scalar(Last(vs)) then AddIfNew(reps, Last(vs)) else reps
  }

  ghost function AddIfNew(reps: seq<Bson>, v: Bson): seq<Bson> {
    if Among(reps, v) then reps else reps + [v]
  }

  lemma AddsIfNew(reps: seq<Bson>, v: Bson)
    requires Scalar(v) && forall i :: 0 <= i < |reps| ==> Scalar(reps[i])
    ensures AddTo(reps, v) == AddIfNew(reps, v)
  {
    forall i | 0 <= i < |reps| ensures AtomOf(reps[i]) == AtomOf(v) <==> SameScalar(reps[i], v) { AtomsTell(reps[i], v); }
    if AtomOf(v) in Atoms(reps) {
      var w :| w in reps && Scalar(w) && AtomOf(w) == AtomOf(v);
      var i :| 0 <= i < |reps| && reps[i] == w;
    }
  }

  lemma SameItself(v: Bson)
    requires Scalar(v)
    ensures SameScalar(v, v)
  {
    AtomsTell(v, v);
  }

  lemma {:induction false} DistinctLists(vs: seq<Bson>)
    ensures Lists(Distinct(vs), vs)
  {
    if vs != [] {
      var rest, v := vs[..|vs| - 1], Last(vs);
      DistinctLists(rest);
      assert vs == rest + [v];
      if Scalar(v) { ListsNext(Distinct(rest), rest, v); }
    }
  }

  lemma AmongMore(reps: seq<Bson>, v: Bson, u: Bson)
    requires Scalar(v)
    ensures Among(reps, u) ==> Among(reps + [v], u)
    ensures Among(reps + [v], v)
  {
    var all := reps + [v];
    SameItself(v);
    assert all[|reps|] == v;
    if Among(reps, u) {
      var i :| 0 <= i < |reps| && SameScalar(reps[i], u);
      assert all[i] == reps[i];
    }
  }

  lemma ListsNext(reps: seq<Bson>, vs: seq<Bson>, v: Bson)
    requires Lists(reps, vs) && Scalar(v)
    ensures Lists(AddIfNew(reps, v), vs + [v])
  {
    var all := AddIfNew(reps, v);
    forall u | u in vs + [v] && Scalar(u) ensures Among(all, u) {
      AmongMore(reps, v, u);
      if u !in vs { assert u == v; }
    }
    if !Among(reps, v) {
      forall i, j | 0 <= i < j < |all| ensures !SameScalar(all[i], all[j]) {
        if j == |reps| { assert all[i] == reps[i]; }
      }
    }
  }

  /** The different scalars, until there are too many; once there are, it stays overflown. */
  ghost predicate Tracks(t: Tally, vs: seq<Bson>) {
    if |Distinct(vs)| > 50 then t.overflow else !t.overflow && t.reps == Distinct(vs)
  }

  lemma {:induction false} RepsTrack(vs: seq<Bson>)
    ensures Tracks(TallyOf(false, vs), vs)
  {
    if vs != [] {
      var rest, v := vs[..|vs| - 1], Last(vs);
      RepsTrack(rest);
      DistinctLists(rest);
      if Scalar(v) { AddsIfNew(Distinct(rest), v); }
    }
  }

  ghost predicate IsRange(range: Option<(int, int)>, vs: seq<Bson>) {
    match range
    case None => forall v :: v in vs ==> !v.Date?
    case Some(r) => Date(r.0) in vs && Date(r.1) in vs && forall v :: v in vs && v.Date? ==> r.0 <= v.at <= r.1
  }

  lemma {:induction false} RangeTracks(vs: seq<Bson>)
    ensures IsRange(TallyOf(false, vs).range, vs)
  {
    if vs != [] {
      var rest, v := vs[..|vs| - 1], Last(vs);
      RangeTracks(rest);
      assert vs == rest + [v];
    }
  }

  lemma {:induction false} MaskedTracksNothing(vs: seq<Bson>)
    ensures TallyOf(true, vs).reps == [] && TallyOf(true, vs).range == None && !TallyOf(true, vs).overflow
  {
    if vs != [] { MaskedTracksNothing(vs[..|vs| - 1]); }
  }

  /** The statistics are exact. The count less the null count is the number of values that are not
      null, so a missing field counts as null; the distinct count is the number of different
      scalars when there are at most 50 and missing otherwise, and up to 20 of them are shown; the
      range spans the dates. For a masked field nothing of a value is left. */
  lemma StatsExact(docs: seq<Bson>, key: string, masked: bool, sort: seq<Bson> -> seq<Bson>)
    ensures var vs := Occurrences(docs, key); var st := StatOf(|docs|, masked, TallyOf(masked, vs), sort);
      && st.count == |docs| && st.count - st.nullCount == |NonNull(vs)|
      && (if masked then st.range.None? else IsRange(st.range, vs))
      && (exists reps :: Lists(reps, vs)
            && st.distinct == (if masked || |reps| > 50 then None else Some(|reps|))
            && st.values == (if masked || |reps| == 0 || |reps| > 20 then None else Some(sort(reps))))
  {
    var vs := Occurrences(docs, key);
    NonNullCount(masked, vs);
    DistinctLists(vs);
    if masked {
      MaskedTracksNothing(vs);
    } else {
      RepsTrack(vs);
      RangeTracks(vs);
    }
  }

  ghost predicate HasField(d: Bson, key: string, v: Bson) { d.Doc? && Slot(key, v) in d.fields }

  /** The occurrences of a field are the values it has in some document of the sample. */
  lemma {:induction false} OccursExactly(docs: seq<Bson>, key: string, v: Bson)
    ensures v in Occurrences(docs, key) <==> exists d :: d in docs && HasField(d, key, v)
  {
    if docs != [] {
      var rest, d := docs[..|docs| - 1], Last(docs);
      OccursExactly(rest, key, v);
      if d.Doc? { InExactly(d.fields, key, v); }
      assert docs == rest + [d];
      assert v in Occurrences(docs, key) <==> v in Occurrences(rest, key) || HasField(d, key, v);
      if HasField(d, key, v) { assert d in docs; }
      if e :| e in rest && HasField(e, key, v) { assert e in docs; }
    }
  }

  lemma {:induction false} InExactly(fields: seq<Slot>, key: string, v: Bson)
    ensures v in In(fields, key) <==> Slot(key, v) in fields
  {
    if fields != [] {
      var rest := fields[..|fields| - 1];
      InExactly(rest, key, v);
      assert fields == rest + [Last(fields)];
    }
  }

  // --------------------------------------------------------------- type map

  /** `_canonical_bson_type` */
  function CanonicalType(v: Bson): Option<Token> {
    match v
    case Nil => None
    case Boolean(_) => Some(TBool)
    case Oid(_) => Some(TObjectId)
    case Date(_) => Some(TDate)
    case Decimal(_) => Some(TDecimal)
    case Long(_) => Some(TLong)
    case Integer(_) => Some(TInt)
    case Double(_) => Some(TDouble)
    case Text(_) => Some(TString)
    case Arr(_) => Some(TArray)
    case Doc(_) => Some(TObject)
    case Other(_) => None
  }

  function TypesOf(vs: seq<Bson>): set<Token> { set v | v in vs && CanonicalType(v).Some? :: CanonicalType(v).value }

  ghost predicate TypesSeen(seen: map<string, set<Token>>, docs: seq<Bson>, fields: seq<Slot>) {
    && (forall k :: k in seen ==> seen[k] == TypesOf(Seen(docs, fields, k)))
    && (forall k :: k !in seen ==> TypesOf(Seen(docs, fields, k)) == {})
  }

  lemma TypesNext(vs: seq<Bson>, v: Bson)
    ensures TypesOf(vs + [v]) == TypesOf(vs) + (if CanonicalType(v).Some? then {CanonicalType(v).value} else {})
  {
  }

  /** `seen[key].add(type)` */
  function NextSeen(seen: map<string, set<Token>>, slot: Slot): map<string, set<Token>> {
    var t := CanonicalType(slot.val);
    if t.Some? then seen[slot.key := (if slot.key in seen then seen[slot.key] else {}) + {t.value}] else seen
  }

  lemma TypesSeenNext(seen: map<string, set<Token>>, docs: seq<Bson>, fields: seq<Slot>, slot: Slot)
    requires TypesSeen(seen, docs, fields)
    ensures TypesSeen(NextSeen(seen, slot), docs, fields + [slot])
  {
    var next := NextSeen(seen, slot);
    forall k
      ensures k in next ==> next[k] == TypesOf(Seen(docs, fields + [slot], k))
      ensures k !in next ==> TypesOf(Seen(docs, fields + [slot], k)) == {}
    {
      TypesOfNext(docs, fields, slot, k);
    }
  }

  lemma TypesOfNext(docs: seq<Bson>, fields: seq<Slot>, slot: Slot, k: string)
    ensures TypesOf(Seen(docs, fields + [slot], k))
      == TypesOf(Seen(docs, fields, k))
        + (if slot.key == k && CanonicalType(slot.val).Some? then {CanonicalType(slot.val).value} else {})
  {
    var before := Seen(docs, fields, k);
    SeenNext(docs, fields, slot, k);
    TypesNext(before, slot.val);
    assert before + [] == before;
  }

  lemma TypesSeenDoc(seen: map<string, set<Token>>, docs: seq<Bson>, d: Bson)
    requires TypesSeen(seen, docs, if d.Doc? then d.fields else [])
    ensures TypesSeen(seen, docs + [d], [])
  {
    forall k ensures Seen(docs + [d], [], k) == Seen(docs, if d.Doc? then d.fields else [], k) { SeenDoc(docs, d, k); }
  }

  function TheOnly(s: set<Token>): (t: Token)
    requires |s| == 1
    ensures s == {t}
  {
    assert exists t :: s == {t} by {
      var t :| t in s;
      assert |s - {t}| == 0;
      assert s == {t};
    }
    var t :| s == {t};
    t
  }

  /** A value of a type, by its kind; of null and the kinds not listed there is none. */
  predicate IsOf(v: Bson, t: Token) {
    match t
    case TBool => v.Boolean?
    case TObjectId => v.Oid?
    case TDate => v.Date?
    case TDecimal => v.Decimal?
    case TLong => v.Long?
    case TInt => v.Integer?
    case TDouble => v.Double?
    case TString => v.Text?
    case TArray => v.Arr?
    case TObject => v.Doc?
    case TIdBestEffort => false
  }

  lemma TypedExactly(v: Bson, t: Token)
    ensures CanonicalType(v) == Some(t) <==> IsOf(v, t)
  {
  }

  /** Some value is of the type, and none is of another. */
  ghost predicate AllOf(vs: seq<Bson>, t: Token) {
    (exists v :: v in vs && IsOf(v, t)) && forall v, u :: v in vs && IsOf(v, u) ==> u == t
  }

  /** The type map of a sample: a field has a type exactly when all its values that have one agree. */
  ghost predicate TypesAre(types: TypeMap, docs: seq<Bson>) {
    && (forall k :: k in types ==> AllOf(Occurrences(docs, k), types[k]))
    && (forall k, t :: k !in types ==> !AllOf(Occurrences(docs, k), t))
  }

  lemma OneType(vs: seq<Bson>, t: Token)
    ensures TypesOf(vs) == {t} <==> AllOf(vs, t)
  {
    forall v, u ensures CanonicalType(v) == Some(u) <==> IsOf(v, u) { TypedExactly(v, u); }
    if TypesOf(vs) == {t} {
      assert t in TypesOf(vs);
      forall v, u | v in vs && IsOf(v, u) ensures u == t { assert u in TypesOf(vs); }
    }
    if AllOf(vs, t) {
      var v :| v in vs && IsOf(v, t);
      assert CanonicalType(v) == Some(t);
    }
  }

  /** The types in one document are added to those seen. */
  method SeeFields(before: map<string, set<Token>>, fields: seq<Slot>, ghost docs: seq<Bson>)
    returns (seen: map<string, set<Token>>)
    requires TypesSeen(before, docs, [])
    ensures TypesSeen(seen, docs, fields)
  {
    seen := before;
    for j := 0 to |fields|
      invariant TypesSeen(seen, docs, fields[..j])
    {
      TypesSeenNext(seen, docs, fields[..j], fields[j]);
      assert fields[..j + 1] == fields[..j] + [fields[j]];
      ghost var next := NextSeen(seen, fields[j]);
      var k, t := fields[j].key, CanonicalType(fields[j].val);
      if t.Some? {
        seen := seen[k := (if k in seen then seen[k] else {}) + {t.value}];
      }
      assert seen == next;
    }
    assert fields[..|fields|] == fields;
  }

  /** `build_type_map`: a field has a type exactly when all its values that have one agree on it. */
  method BuildTypeMap(docs: seq<Bson>) returns (types: TypeMap)
    ensures TypesAre(types, docs)
  {
    var seen: map<string, set<Token>> := map[];
    for i := 0 to |docs|
      invariant TypesSeen(seen, docs[..i], [])
    {
      if docs[i].Doc? {
        seen := SeeFields(seen, docs[i].fields, docs[..i]);
      }
      TypesSeenDoc(seen, docs[..i], docs[i]);
      assert docs[..i + 1] == docs[..i] + [docs[i]];
    }
    assert docs[..|docs|] == docs;
    types := map k | k in seen && |seen[k]| == 1 :: TheOnly(seen[k]);
    TypesAreSeen(seen, types, docs);
  }

  lemma TypesAreSeen(seen: map<string, set<Token>>, types: TypeMap, docs: seq<Bson>)
    requires TypesSeen(seen, docs, [])
    requires types == map k | k in seen && |seen[k]| == 1 :: TheOnly(seen[k])
    ensures TypesAre(types, docs)
  {
    forall k ensures Seen(docs, [], k) == Occurrences(docs, k) {}
    forall k | k in types ensures AllOf(Occurrences(docs, k), types[k]) { OneType(Occurrences(docs, k), types[k]); }
    forall k, t | k !in types ensures !AllOf(Occurrences(docs, k), t) { OneType(Occurrences(docs, k), t); }
  }

  // --------------------------------------------- sampled values as operands

  /** The string an `_id` without a single type is taken for an object id by. */
  predicate LooksLikeId(types: TypeMap, key: string, v: Bson) { key == "_id" && key !in types && v.Text? && IdText(v.s) }

  /** A null, or a value of an unlisted kind, where the field's type has a coercer. */
  predicate Untyped(types: TypeMap, key: string, v: Bson) {
    (v.Nil? || v.Other?) && (key == "" || key[0] != '$') && key in types && HasCoercer(types[key])
  }

  lemma CoercedByType(p: Parsers, t: Token, v: Bson)
    ensures CanonicalType(v) == Some(t) ==> Coerce(p, t, v) == Some(v)
    ensures CanonicalType(v).None? ==> Coerce(p, t, v) == if HasCoercer(t) then None else Some(v)
  {
  }

  lemma HasOwnType(docs: seq<Bson>, types: TypeMap, key: string, v: Bson)
    requires TypesAre(types, docs) && key in types && v in Occurrences(docs, key) && CanonicalType(v).Some?
    ensures types[key] == CanonicalType(v).value
  {
    TypedExactly(v, CanonicalType(v).value);
  }

  lemma TypedOperand(p: Parsers, t: Token, v: Bson, key: string)
    requires !IsLiteral(v)
    ensures CanonicalType(v) == Some(t) ==> Operand(p, v, Some(t), key) == Ok(v)
    ensures CanonicalType(v).None? ==> Operand(p, v, Some(t), key) == if HasCoercer(t) then Err(Mismatch(key, t)) else Ok(v)
  {
    CoercedByType(p, t, v);
  }

  lemma OperandAsFound(p: Parsers, docs: seq<Bson>, types: TypeMap, key: string, v: Bson)
    requires TypesAre(types, docs) && key in types && !Dollar(key) && v in Occurrences(docs, key) && !IsLiteral(v)
    ensures Operand(p, v, TokenFor(types, key), key) == if Untyped(types, key, v) then Err(Mismatch(key, types[key])) else Ok(v)
  {
    if CanonicalType(v).Some? { HasOwnType(docs, types, key, v); }
    TypedOperand(p, types[key], v, key);
  }

  lemma OperandWithoutType(p: Parsers, types: TypeMap, key: string, v: Bson)
    requires (key !in types || Dollar(key)) && !IsLiteral(v)
    ensures Operand(p, v, TokenFor(types, key), key) == Ok(if LooksLikeId(types, key, v) then Oid(v.s) else v)
  {
    assert key == "_id" ==> !Dollar(key);
    if v.Text? { IdTextIs(v.s); }
  }

  lemma OperandPasses(p: Parsers, docs: seq<Bson>, types: TypeMap, key: string, v: Bson)
    requires TypesAre(types, docs) && v in Occurrences(docs, key) && !IsLiteral(v)
    ensures Operand(p, v, TokenFor(types, key), key) ==
      if LooksLikeId(types, key, v) then Ok(Oid(v.s)) else if Untyped(types, key, v) then Err(Mismatch(key, types[key]))
        else Ok(v)
  {
    if key in types && !Dollar(key) {
      OperandAsFound(p, docs, types, key, v);
    } else {
      OperandWithoutType(p, types, key, v);
    }
  }

  /** Comparing a field with one of its sampled values, under the type map of the sample: the filter
      goes through unchanged except in two cases. An `_id` of mixed types that is a string of 24
      hexadecimal digits becomes an object id, and a null is refused where the field's type has a
      coercer. */
  lemma SampledValuesPassExactly(p: Parsers, docs: seq<Bson>, types: TypeMap, key: string, v: Bson)
    requires TypesAre(types, docs) && v in Occurrences(docs, key) && !Operators(v) && TypedAs(v).None?
    requires !(key in {"$and", "$or", "$nor"} && v.Arr?)
    ensures Filter(p, Doc([Slot(key, v)]), types) == Ok(Doc([Slot(key, v)]))
      <==> !LooksLikeId(types, key, v) && !Untyped(types, key, v)
    ensures LooksLikeId(types, key, v) ==> Filter(p, Doc([Slot(key, v)]), types) == Ok(Doc([Slot(key, Oid(v.s))]))
    ensures Untyped(types, key, v) ==> Filter(p, Doc([Slot(key, v)]), types) == Err(Mismatch(key, types[key]))
  {
    LiteralsAre(v);
    OperatorsAre(v);
    OperandPasses(p, docs, types, key, v);
    var fields := [Slot(key, v)];
    var r := Operand(p, v, TokenFor(types, key), key);
    assert Clause(p, key, v, types) == r;
    assert fields[1..] == [] && Clauses(p, [], types) == Ok([]);
    if r.Ok? {
      assert [Slot(key, r.value)] + [] == [Slot(key, r.value)];
      assert Clauses(p, fields, types) == Ok([Slot(key, r.value)]);
      assert [Slot(key, r.value)][0] != fields[0] || r.value == v;
    }
  }

  lemma OneField(slot: Slot)
    ensures In([slot], slot.key) == [slot.val]
  {
    assert [slot][..0] == [] && In([], slot.key) == [];
  }

  lemma TwoIds(a: Bson, b: Bson)
    ensures Occurrences([Doc([Slot("_id", a)]), Doc([Slot("_id", b)])], "_id") == [a, b]
  {
    var one, two := Doc([Slot("_id", a)]), Doc([Slot("_id", b)]);
    var docs := [one, two];
    OneField(Slot("_id", a));
    OneField(Slot("_id", b));
    assert docs[..1] == [one] && [one][..0] == [];
    assert Occurrences([one], "_id") == Occurrences([], "_id") + In(one.fields, "_id") == [a];
  }

  lemma MixedUntyped(types: TypeMap, docs: seq<Bson>, key: string, a: Bson, b: Bson)
    requires TypesAre(types, docs) && a in Occurrences(docs, key) && b in Occurrences(docs, key)
    requires CanonicalType(a).Some? && CanonicalType(b).Some? && CanonicalType(a) != CanonicalType(b)
    ensures key !in types
  {
    TypedExactly(a, CanonicalType(a).value);
    TypedExactly(b, CanonicalType(b).value);
  }

  /** Two documents, one with a number and one with a string of 24 digits for its `_id`: a search
      for the string is turned into one for an object id. */
  lemma MixedIdsChange(p: Parsers, types: TypeMap, hex: string)
    requires IdText(hex) && TypesAre(types, [Doc([Slot("_id", Integer(1))]), Doc([Slot("_id", Text(hex))])])
    ensures Filter(p, Doc([Slot("_id", Text(hex))]), types) == Ok(Doc([Slot("_id", Oid(hex))]))
  {
    var docs := [Doc([Slot("_id", Integer(1))]), Doc([Slot("_id", Text(hex))])];
    TwoIds(Integer(1), Text(hex));
    MixedUntyped(types, docs, "_id", Integer(1), Text(hex));
    SampledValuesPassExactly(p, docs, types, "_id", Text(hex));
  }
}
