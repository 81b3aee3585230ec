/** The field-by-field difference of two policies, and what it means that there is none. */
module PolicyDiff {
  import opened Common
  import opened Values
  import opened Policies
  import opened MongoGuard
  import opened PolicyEngine

  datatype Label = CollectionsAllow | CollectionsDeny | ActionsAllow | ActionsDeny | ConnectionsAllow | FieldsAllow

  datatype Change =
    | ModeTo(mode: Mode) | AddedTo(item: string, list: Label) | RemovedFrom(item: string, list: Label)
    | NowMasks(field: string, collection: string) | NoLongerMasks(field: string, collection: string)
    | HighApproval(on: bool) | CriticalApproval(on: bool)
    | NotBeforeTo(at: Option<Moment>) | NotAfterTo(at: Option<Moment>) | ExtendsTo(base: Option<string>)

  // ------------------------------------------------------------ sorted sets

  lemma {:induction false} LeastOf(s: set<string>) returns (x: string)
    requires s != {}
    ensures x in s && forall y :: y in s ==> StringLe(x, y)
  {
    x :| x in s;
    StringLeTotal(x, x);
    var rest := s - {x};
    if rest == {} {
      assert forall y :: y in s ==> y == x by {
        forall y | y in s ensures y == x { assert y !in rest; }
      }
    } else {
      var z := LeastOf(rest);
      StringLeTotal(x, z);
      if StringLe(z, x) {
        x := z;
      } else {
        forall y | y in s ensures StringLe(x, y) {
          if y != x { StringLeTransitive(x, z, y); }
        }
      }
    }
  }

  lemma HasLeast(s: set<string>)
    ensures s != {} ==> exists x :: x in s && forall y :: y in s ==> StringLe(x, y)
    ensures forall a, b :: a in s && b in s && StringLe(a, b) && StringLe(b, a) ==> a == b
  {
    if s != {} { var x := LeastOf(s); }
    forall a, b | a in s && b in s && StringLe(a, b) && StringLe(b, a) ensures a == b { StringLeTotal(a, b); }
  }

  /** `sorted` of a set */
  function SortedSet(s: set<string>): (r: seq<string>)
    ensures forall x :: x in r <==> x in s
    ensures r == [] <==> s == {}
    ensures SortedBy(StringLe, r) && NoDup(r)
  {
    if s == {} then []
    else
      HasLeast(s);
      var x :| x in s && forall y :: y in s ==> StringLe(x, y);
      [x] + SortedSet(s - {x})
  }

  // -------------------------------------------------------------------- diff

  function Each(items: seq<string>, change: string -> Change): (r: seq<Change>)
    ensures |r| == |items|
  {
    seq(|items|, i requires 0 <= i < |items| => change(items[i]))
  }

  function Adds(list: Label): string -> Change { x => AddedTo(x, list) }

  function Removes(list: Label): string -> Change { x => RemovedFrom(x, list) }

  function Masking(c: string): string -> Change { x => NowMasks(x, c) }

  function Unmasking(c: string): string -> Change { x => NoLongerMasks(x, c) }

  function ListChanges(list: Label, cur: seq<string>, prop: seq<string>): seq<Change> {
    Each(SortedSet(Elements(prop) - Elements(cur)), Adds(list))
    + Each(SortedSet(Elements(cur) - Elements(prop)), Removes(list))
  }

  function BucketOf(m: map<string, seq<string>>, c: string): set<string> { if c in m then Elements(m[c]) else {} }

  function BucketChanges(c: string, cur: set<string>, prop: set<string>): seq<Change> {
    Each(SortedSet(prop - cur), Masking(c)) + Each(SortedSet(cur - prop), Unmasking(c))
  }

  function MaskChanges(names: seq<string>, cur: map<string, seq<string>>, prop: map<string, seq<string>>): seq<Change> {
    if names == [] then []
    else BucketChanges(names[0], BucketOf(cur, names[0]), BucketOf(prop, names[0])) + MaskChanges(names[1..], cur, prop)
  }

  datatype Lists = Lists(list: Label, cur: seq<string>, prop: seq<string>)

  /** The six pairs of lists that are compared. */
  function Pairs(a: Policy, b: Policy): seq<Lists> {
    [Lists(CollectionsAllow, a.collections.allow, b.collections.allow),
     Lists(CollectionsDeny, a.collections.deny, b.collections.deny),
     Lists(ActionsAllow, a.actions.allow, b.actions.allow), Lists(ActionsDeny, a.actions.deny, b.actions.deny),
     Lists(ConnectionsAllow, a.connectionsAllow, b.connectionsAllow), Lists(FieldsAllow, a.fieldsAllow, b.fieldsAllow)]
  }

  function AllListChanges(ls: seq<Lists>): seq<Change> {
    if ls == [] then [] else ListChanges(ls[0].list, ls[0].cur, ls[0].prop) + AllListChanges(ls[1..])
  }

  function When(happened: bool, change: Change): seq<Change> { if happened then [change] else [] }

  function AllMaskChanges(a: Policy, b: Policy): seq<Change> {
    var cur, prop := MaskMap(a.maskFields), MaskMap(b.maskFields);
    MaskChanges(SortedSet(cur.Keys + prop.Keys), cur, prop)
  }

  function FlagChanges(a: Policy, b: Policy): seq<Change> {
    When(a.approveHigh != b.approveHigh, HighApproval(b.approveHigh))
    + When(a.approveCritical != b.approveCritical, CriticalApproval(b.approveCritical))
    + When(a.notBefore != b.notBefore, NotBeforeTo(b.notBefore))
    + When(a.notAfter != b.notAfter, NotAfterTo(b.notAfter))
    + When(a.base != b.base, ExtendsTo(b.base))
  }

  /** `diff_policies` */
  function Diff(a: Policy, b: Policy): seq<Change> {
    When(a.mode != b.mode, ModeTo(b.mode)) + AllListChanges(Pairs(a, b)) + AllMaskChanges(a, b) + FlagChanges(a, b)
  }

  /** `for item in items: out.append(...)` */
  method AppendEach(out: seq<Change>, items: seq<string>, change: string -> Change) returns (r: seq<Change>)
    ensures r == out + Each(items, change)
  {
    r := out;
    for i := 0 to |items|
      invariant r == out + Each(items, change)[..i]
    {
      r := r + [change(items[i])];
    }
  }

  method DiffList(out: seq<Change>, list: Label, cur: seq<string>, prop: seq<string>) returns (r: seq<Change>)
    ensures r == out + ListChanges(list, cur, prop)
  {
    var added, removed := SortedSet(Elements(prop) - Elements(cur)), SortedSet(Elements(cur) - Elements(prop));
    r := AppendEach(out, added, Adds(list));
    r := AppendEach(r, removed, Removes(list));
    Regroup(out, Each(added, Adds(list)), Each(removed, Removes(list)));
  }

  method DiffBucket(out: seq<Change>, c: string, cur: set<string>, prop: set<string>) returns (r: seq<Change>)
    ensures r == out + BucketChanges(c, cur, prop)
  {
    var added, removed := SortedSet(prop - cur), SortedSet(cur - prop);
    r := AppendEach(out, added, Masking(c));
    r := AppendEach(r, removed, Unmasking(c));
    Regroup(out, Each(added, Masking(c)), Each(removed, Unmasking(c)));
  }

  method DiffMasks(out: seq<Change>, names: seq<string>, cur: map<string, seq<string>>, prop: map<string, seq<string>>)
    returns (r: seq<Change>)
    ensures r == out + MaskChanges(names, cur, prop)
  {
    r := out;
    ghost var total := out + MaskChanges(names, cur, prop);
    assert names[0..] == names;
    for i := 0 to |names|
      invariant r + MaskChanges(names[i..], cur, prop) == total
    {
      assert names[i..][0] == names[i] && names[i..][1..] == names[i+1..];
      ghost var before := r;
      var c := names[i];
      r := DiffBucket(r, c, BucketOf(cur, c), BucketOf(prop, c));
      Regroup(before, BucketChanges(c, BucketOf(cur, c), BucketOf(prop, c)), MaskChanges(names[i+1..], cur, prop));
    }
    assert names[|names|..] == [] && r + [] == r;
  }

  method DiffLists(out: seq<Change>, ls: seq<Lists>) returns (r: seq<Change>)
    ensures r == out + AllListChanges(ls)
  {
    r := out;
    ghost var total := out + AllListChanges(ls);
    assert ls[0..] == ls;
    for i := 0 to |ls|
      invariant r + AllListChanges(ls[i..]) == total
    {
      assert ls[i..][0] == ls[i] && ls[i..][1..] == ls[i+1..];
      ghost var before := r;
      r := DiffList(r, ls[i].list, ls[i].cur, ls[i].prop);
      Regroup(before, ListChanges(ls[i].list, ls[i].cur, ls[i].prop), AllListChanges(ls[i+1..]));
    }
    assert ls[|ls|..] == [] && r + [] == r;
  }

  method DiffFlags(out: seq<Change>, a: Policy, b: Policy) returns (r: seq<Change>)
    ensures r == out + FlagChanges(a, b)
  {
    var flags: seq<Change> := [];
    if a.approveHigh != b.approveHigh { flags := flags + [HighApproval(b.approveHigh)]; }
    if a.approveCritical != b.approveCritical { flags := flags + [CriticalApproval(b.approveCritical)]; }
    if a.notBefore != b.notBefore { flags := flags + [NotBeforeTo(b.notBefore)]; }
    if a.notAfter != b.notAfter { flags := flags + [NotAfterTo(b.notAfter)]; }
    if a.base != b.base { flags := flags + [ExtendsTo(b.base)]; }
    r := out + flags;
  }

  /** The list that grows as the fields are compared. */
  method DiffPolicies(a: Policy, b: Policy) returns (out: seq<Change>)
    ensures out == Diff(a, b)
  {
    out := if a.mode != b.mode then [ModeTo(b.mode)] else [];
    out := DiffLists(out, Pairs(a, b));
    var cur, prop := MaskMap(a.maskFields), MaskMap(b.maskFields);
    out := DiffMasks(out, SortedSet(cur.Keys + prop.Keys), cur, prop);
    out := DiffFlags(out, a, b);
  }

  // ------------------------------------------------------ what a diff tells

  function ListOf(p: Policy, list: Label): seq<string> {
    match list
    case CollectionsAllow => p.collections.allow case CollectionsDeny => p.collections.deny
    case ActionsAllow => p.actions.allow case ActionsDeny => p.actions.deny
    case ConnectionsAllow => p.connectionsAllow case FieldsAllow => p.fieldsAllow
  }

  /** The bucket of a collection, or that of all collections, has the field. */
  predicate InBucket(p: Policy, bucket: string, field: string) {
    match p.maskFields
    case Everywhere(fields) => bucket == "*" && field in fields
    case PerCollection(buckets) => bucket in buckets && field in buckets[bucket]
  }

  /** The change leads from the first policy to the second. */
  predicate Happened(a: Policy, b: Policy, change: Change) {
    match change
    case ModeTo(mode) => a.mode != b.mode == mode
    case AddedTo(item, list) => item !in ListOf(a, list) && item in ListOf(b, list)
    case RemovedFrom(item, list) => item in ListOf(a, list) && item !in ListOf(b, list)
    case NowMasks(field, c) => !InBucket(a, c, field) && InBucket(b, c, field)
    case NoLongerMasks(field, c) => InBucket(a, c, field) && !InBucket(b, c, field)
    case HighApproval(on) => a.approveHigh != b.approveHigh == on
    case CriticalApproval(on) => a.approveCritical != b.approveCritical == on
    case NotBeforeTo(at) => a.notBefore != b.notBefore == at
    case NotAfterTo(at) => a.notAfter != b.notAfter == at
    case ExtendsTo(base) => a.base != b.base == base
  }

  lemma EachHas(items: seq<string>, change: string -> Change, x: Change)
    ensures x in Each(items, change) <==> exists y :: y in items && change(y) == x
  {
    var r := Each(items, change);
    if x in r {
      var i :| 0 <= i < |r| && r[i] == x;
      assert items[i] in items && change(items[i]) == x;
    }
    if y :| y in items && change(y) == x {
      var i :| 0 <= i < |items| && items[i] == y;
      assert r[i] == x;
    }
  }

  lemma ListChangesHave(list: Label, cur: seq<string>, prop: seq<string>, x: Change)
    ensures x in ListChanges(list, cur, prop) <==>
      || (x.AddedTo? && x.list == list && x.item in prop && x.item !in cur)
      || (x.RemovedFrom? && x.list == list && x.item in cur && x.item !in prop)
  {
    EachHas(SortedSet(Elements(prop) - Elements(cur)), Adds(list), x);
    EachHas(SortedSet(Elements(cur) - Elements(prop)), Removes(list), x);
    if x.AddedTo? && x.list == list { assert Adds(list)(x.item) == x; }
    if x.RemovedFrom? && x.list == list { assert Removes(list)(x.item) == x; }
  }

  lemma BucketChangesHave(c: string, cur: set<string>, prop: set<string>, x: Change)
    ensures x in BucketChanges(c, cur, prop) <==>
      || (x.NowMasks? && x.collection == c && x.field in prop && x.field !in cur)
      || (x.NoLongerMasks? && x.collection == c && x.field in cur && x.field !in prop)
  {
    EachHas(SortedSet(prop - cur), Masking(c), x);
    EachHas(SortedSet(cur - prop), Unmasking(c), x);
    if x.NowMasks? && x.collection == c { assert Masking(c)(x.field) == x; }
    if x.NoLongerMasks? && x.collection == c { assert Unmasking(c)(x.field) == x; }
  }

  lemma InAppend<T>(a: seq<T>, b: seq<T>, x: T)
    ensures x in a + b <==> x in a || x in b
  {
  }

  ghost predicate ChangesOf(l: Lists, x: Change) { x in ListChanges(l.list, l.cur, l.prop) }

  lemma {:induction false} AllListChangesHave(ls: seq<Lists>, x: Change)
    ensures x in AllListChanges(ls) <==> exists i :: 0 <= i < |ls| && ChangesOf(ls[i], x)
  {
    if ls != [] {
      var rest := ls[1..];
      AllListChangesHave(rest, x);
      InAppend(ListChanges(ls[0].list, ls[0].cur, ls[0].prop), AllListChanges(rest), x);
      if x in AllListChanges(rest) {
        var i :| 0 <= i < |rest| && ChangesOf(rest[i], x);
        assert ls[i + 1] == rest[i];
      }
      if i :| 0 < i < |ls| && ChangesOf(ls[i], x) { assert rest[i - 1] == ls[i]; }
    }
  }

  lemma {:induction false} MaskChangesHave(names: seq<string>, cur: map<string, seq<string>>, prop: map<string, seq<string>>,
    x: Change)
    ensures x in MaskChanges(names, cur, prop)
      <==> exists c :: c in names && x in BucketChanges(c, BucketOf(cur, c), BucketOf(prop, c))
  {
    if names != [] {
      MaskChangesHave(names[1..], cur, prop, x);
      assert names == [names[0]] + names[1..];
    }
  }

  lemma PairTells(a: Policy, b: Policy, i: nat, x: Change)
    requires i < |Pairs(a, b)|
    ensures ChangesOf(Pairs(a, b)[i], x)
      <==> (x.AddedTo? || x.RemovedFrom?) && x.list == Pairs(a, b)[i].list && Happened(a, b, x)
  {
    var l := Pairs(a, b)[i];
    assert l.cur == ListOf(a, l.list) && l.prop == ListOf(b, l.list);
    ListChangesHave(l.list, l.cur, l.prop, x);
  }

  lemma PairFor(a: Policy, b: Policy, list: Label) returns (i: nat)
    ensures i < |Pairs(a, b)| && Pairs(a, b)[i].list == list
  {
    i := match list
      case CollectionsAllow => 0 case CollectionsDeny => 1 case ActionsAllow => 2 case ActionsDeny => 3
      case ConnectionsAllow => 4 case FieldsAllow => 5;
  }

  lemma ListsTell(a: Policy, b: Policy, x: Change)
    ensures x in AllListChanges(Pairs(a, b)) <==> (x.AddedTo? || x.RemovedFrom?) && Happened(a, b, x)
  {
    AllListChangesHave(Pairs(a, b), x);
    if x in AllListChanges(Pairs(a, b)) {
      var i :| 0 <= i < |Pairs(a, b)| && ChangesOf(Pairs(a, b)[i], x);
      PairTells(a, b, i, x);
    }
    if x.AddedTo? || x.RemovedFrom? {
      var i := PairFor(a, b, x.list);
      PairTells(a, b, i, x);
    }
  }

  lemma MasksTell(a: Policy, b: Policy, x: Change)
    ensures x in AllMaskChanges(a, b) <==> (x.NowMasks? || x.NoLongerMasks?) && Happened(a, b, x)
  {
    var cur, prop := MaskMap(a.maskFields), MaskMap(b.maskFields);
    var names := SortedSet(cur.Keys + prop.Keys);
    MaskChangesHave(names, cur, prop, x);
    if x in MaskChanges(names, cur, prop) {
      var c :| c in names && x in BucketChanges(c, BucketOf(cur, c), BucketOf(prop, c));
      BucketTells(a, b, c, x);
    }
    if (x.NowMasks? || x.NoLongerMasks?) && Happened(a, b, x) {
      BucketTells(a, b, x.collection, x);
      assert x.collection in names;
    }
  }

  lemma BucketTells(a: Policy, b: Policy, c: string, x: Change)
    ensures x in BucketChanges(c, BucketOf(MaskMap(a.maskFields), c), BucketOf(MaskMap(b.maskFields), c))
      <==> (x.NowMasks? || x.NoLongerMasks?) && x.collection == c && Happened(a, b, x)
  {
    var cur, prop := BucketOf(MaskMap(a.maskFields), c), BucketOf(MaskMap(b.maskFields), c);
    BucketChangesHave(c, cur, prop, x);
    if x.NowMasks? || x.NoLongerMasks? {
      assert x.field in cur <==> InBucket(a, c, x.field);
      assert x.field in prop <==> InBucket(b, c, x.field);
    }
  }

  /** The diff holds exactly the changes that happened: what the second policy has and the first has
      not, list by list and bucket by bucket, and each setting that differs with its new value. */
  lemma DiffTellsExactly(a: Policy, b: Policy, x: Change)
    ensures x in Diff(a, b) <==> Happened(a, b, x)
  {
    ListsTell(a, b, x);
    MasksTell(a, b, x);
    FlagsTell(a, b, x);
  }

  lemma FlagsTell(a: Policy, b: Policy, x: Change)
    ensures x in When(a.mode != b.mode, ModeTo(b.mode)) <==> x.ModeTo? && Happened(a, b, x)
    ensures x in FlagChanges(a, b)
      <==> !x.ModeTo? && !x.AddedTo? && !x.RemovedFrom? && !x.NowMasks? && !x.NoLongerMasks? && Happened(a, b, x)
  {
  }

  // ------------------------------------------------------- each change once

  lemma NoDupAppend<T>(a: seq<T>, b: seq<T>)
    requires NoDup(a) && NoDup(b) && forall x :: x in a ==> x !in b
    ensures NoDup(a + b)
  {
    forall i, j | 0 <= i < j < |a + b| ensures (a + b)[i] != (a + b)[j] {
      if i < |a| <= j { assert a[i] in a && b[j - |a|] in b; }
    }
  }

  lemma ListChangesOnce(list: Label, cur: seq<string>, prop: seq<string>)
    ensures NoDup(ListChanges(list, cur, prop))
  {
    var added := Each(SortedSet(Elements(prop) - Elements(cur)), Adds(list));
    var removed := Each(SortedSet(Elements(cur) - Elements(prop)), Removes(list));
    NoDupAppend(added, removed);
  }

  lemma BucketChangesOnce(c: string, cur: set<string>, prop: set<string>)
    ensures NoDup(BucketChanges(c, cur, prop))
  {
    NoDupAppend(Each(SortedSet(prop - cur), Masking(c)), Each(SortedSet(cur - prop), Unmasking(c)));
  }

  lemma {:induction false} AllListChangesOnce(ls: seq<Lists>)
    requires forall i, j :: 0 <= i < j < |ls| ==> ls[i].list != ls[j].list
    ensures NoDup(AllListChanges(ls))
  {
    if ls != [] {
      var first, rest := ListChanges(ls[0].list, ls[0].cur, ls[0].prop), AllListChanges(ls[1..]);
      ListChangesOnce(ls[0].list, ls[0].cur, ls[0].prop);
      AllListChangesOnce(ls[1..]);
      forall x | x in first ensures x !in rest {
        ListChangesHave(ls[0].list, ls[0].cur, ls[0].prop, x);
        AllListChangesHave(ls[1..], x);
        forall i | 0 <= i < |ls[1..]| ensures !ChangesOf(ls[1..][i], x) {
          ListChangesHave(ls[1..][i].list, ls[1..][i].cur, ls[1..][i].prop, x);
        }
      }
      NoDupAppend(first, rest);
    }
  }

  lemma {:induction false} MaskChangesOnce(names: seq<string>, cur: map<string, seq<string>>, prop: map<string, seq<string>>)
    requires NoDup(names)
    ensures NoDup(MaskChanges(names, cur, prop))
  {
    if names != [] {
      var c := names[0];
      var first, rest := BucketChanges(c, BucketOf(cur, c), BucketOf(prop, c)), MaskChanges(names[1..], cur, prop);
      BucketChangesOnce(c, BucketOf(cur, c), BucketOf(prop, c));
      MaskChangesOnce(names[1..], cur, prop);
      forall x | x in first ensures x !in rest {
        BucketChangesHave(c, BucketOf(cur, c), BucketOf(prop, c), x);
        MaskChangesHave(names[1..], cur, prop, x);
        forall d | d in names[1..] ensures x !in BucketChanges(d, BucketOf(cur, d), BucketOf(prop, d)) {
          BucketChangesHave(d, BucketOf(cur, d), BucketOf(prop, d), x);
        }
      }
      NoDupAppend(first, rest);
    }
  }

  lemma AllMaskChangesOnce(a: Policy, b: Policy)
    ensures NoDup(AllMaskChanges(a, b))
  {
    var cur, prop := MaskMap(a.maskFields), MaskMap(b.maskFields);
    MaskChangesOnce(SortedSet(cur.Keys + prop.Keys), cur, prop);
  }

  lemma PartsOnce(mode: seq<Change>, lists: seq<Change>, masks: seq<Change>, flags: seq<Change>)
    requires NoDup(mode) && NoDup(lists) && NoDup(masks) && NoDup(flags)
    requires forall x :: x in mode ==> x.ModeTo?
    requires forall x :: x in lists ==> x.AddedTo? || x.RemovedFrom?
    requires forall x :: x in masks ==> x.NowMasks? || x.NoLongerMasks?
    requires forall x :: x in flags ==> x.HighApproval? || x.CriticalApproval? || x.NotBeforeTo? || x.NotAfterTo? || x.ExtendsTo?
    ensures NoDup(mode + lists + masks + flags)
  {
    NoDupAppend(mode, lists);
    NoDupAppend(mode + lists, masks);
    NoDupAppend(mode + lists + masks, flags);
  }

  lemma ListPartOnce(a: Policy, b: Policy)
    ensures var lists := AllListChanges(Pairs(a, b)); NoDup(lists) && forall x :: x in lists ==> x.AddedTo? || x.RemovedFrom?
  {
    AllListChangesOnce(Pairs(a, b));
    forall x | x in AllListChanges(Pairs(a, b)) ensures x.AddedTo? || x.RemovedFrom? { ListsTell(a, b, x); }
  }

  lemma MaskPartOnce(a: Policy, b: Policy)
    ensures var masks := AllMaskChanges(a, b); NoDup(masks) && forall x :: x in masks ==> x.NowMasks? || x.NoLongerMasks?
  {
    AllMaskChangesOnce(a, b);
    forall x | x in AllMaskChanges(a, b) ensures x.NowMasks? || x.NoLongerMasks? { MasksTell(a, b, x); }
  }

  /** Each change is told once. */
  lemma DiffTellsOnce(a: Policy, b: Policy)
    ensures NoDup(Diff(a, b))
  {
    ListPartOnce(a, b);
    MaskPartOnce(a, b);
    FlagsOnce(a, b);
    PartsOnce(When(a.mode != b.mode, ModeTo(b.mode)), AllListChanges(Pairs(a, b)), AllMaskChanges(a, b), FlagChanges(a, b));
  }

  lemma FlagPartsOnce(high: seq<Change>, critical: seq<Change>, before: seq<Change>, after: seq<Change>, base: seq<Change>)
    requires |high| <= 1 && |critical| <= 1 && |before| <= 1 && |after| <= 1 && |base| <= 1
    requires (forall x :: x in high ==> x.HighApproval?) && (forall x :: x in critical ==> x.CriticalApproval?)
    requires (forall x :: x in before ==> x.NotBeforeTo?) && (forall x :: x in after ==> x.NotAfterTo?)
    requires forall x :: x in base ==> x.ExtendsTo?
    ensures NoDup(high + critical + before + after + base)
  {
    NoDupAppend(high, critical);
    NoDupAppend(high + critical, before);
    NoDupAppend(high + critical + before, after);
    NoDupAppend(high + critical + before + after, base);
  }

  lemma FlagsOnce(a: Policy, b: Policy)
    ensures NoDup(FlagChanges(a, b))
    ensures forall x :: x in FlagChanges(a, b) ==>
      x.HighApproval? || x.CriticalApproval? || x.NotBeforeTo? || x.NotAfterTo? || x.ExtendsTo?
  {
    FlagPartsOnce(When(a.approveHigh != b.approveHigh, HighApproval(b.approveHigh)),
                  When(a.approveCritical != b.approveCritical, CriticalApproval(b.approveCritical)),
                  When(a.notBefore != b.notBefore, NotBeforeTo(b.notBefore)),
                  When(a.notAfter != b.notAfter, NotAfterTo(b.notAfter)), When(a.base != b.base, ExtendsTo(b.base)));
  }

  // ---------------------------------------------------------- an empty diff

  ghost predicate SameAccess(a: Access, b: Access) {
    Elements(a.allow) == Elements(b.allow) && Elements(a.deny) == Elements(b.deny)
  }

  /** Both mask the same fields of every collection, and of the bucket of all collections. */
  ghost predicate SameMasks(a: MaskFields, b: MaskFields) {
    forall c :: BucketOf(MaskMap(a), c) == BucketOf(MaskMap(b), c)
  }

  ghost predicate Alike(a: Policy, b: Policy) {
    && a.mode == b.mode && SameLists(a, b) && SameMasks(a.maskFields, b.maskFields)
    && a.approveHigh == b.approveHigh && a.approveCritical == b.approveCritical
    && a.notBefore == b.notBefore && a.notAfter == b.notAfter && a.base == b.base
  }

  lemma ListChangesEmpty(list: Label, cur: seq<string>, prop: seq<string>)
    ensures ListChanges(list, cur, prop) == [] <==> Elements(cur) == Elements(prop)
  {
    var a, b := Elements(prop) - Elements(cur), Elements(cur) - Elements(prop);
    assert ListChanges(list, cur, prop) == [] <==> |SortedSet(a)| == 0 && |SortedSet(b)| == 0;
    assert a == {} && b == {} <==> Elements(cur) == Elements(prop);
  }

  lemma {:induction false} AllListChangesEmpty(ls: seq<Lists>)
    ensures AllListChanges(ls) == [] <==> forall i :: 0 <= i < |ls| ==> Elements(ls[i].cur) == Elements(ls[i].prop)
  {
    if ls != [] {
      var rest := ls[1..];
      ListChangesEmpty(ls[0].list, ls[0].cur, ls[0].prop);
      AllListChangesEmpty(rest);
      assert AllListChanges(ls) == ListChanges(ls[0].list, ls[0].cur, ls[0].prop) + AllListChanges(rest);
      assert forall i :: 0 < i < |ls| ==> ls[i] == rest[i - 1];
      assert forall i :: 0 <= i < |rest| ==> rest[i] == ls[i + 1];
    }
  }

  lemma BucketChangesEmpty(c: string, cur: set<string>, prop: set<string>)
    ensures BucketChanges(c, cur, prop) == [] <==> cur == prop
  {
    var a, b := prop - cur, cur - prop;
    assert BucketChanges(c, cur, prop) == [] <==> |SortedSet(a)| == 0 && |SortedSet(b)| == 0;
    assert a == {} && b == {} <==> cur == prop;
  }

  lemma {:induction false} MaskChangesEmpty(names: seq<string>, cur: map<string, seq<string>>, prop: map<string, seq<string>>)
    ensures MaskChanges(names, cur, prop) == [] <==> forall c :: c in names ==> BucketOf(cur, c) == BucketOf(prop, c)
  {
    if names != [] {
      var c, rest := names[0], names[1..];
      BucketChangesEmpty(c, BucketOf(cur, c), BucketOf(prop, c));
      MaskChangesEmpty(rest, cur, prop);
      assert MaskChanges(names, cur, prop) == BucketChanges(c, BucketOf(cur, c), BucketOf(prop, c))
        + MaskChanges(rest, cur, prop);
      assert names == [c] + rest;
    }
  }

  lemma AllMaskChangesEmpty(a: Policy, b: Policy)
    ensures AllMaskChanges(a, b) == [] <==> SameMasks(a.maskFields, b.maskFields)
  {
    var cur, prop := MaskMap(a.maskFields), MaskMap(b.maskFields);
    var names := SortedSet(cur.Keys + prop.Keys);
    MaskChangesEmpty(names, cur, prop);
    if AllMaskChanges(a, b) == [] {
      forall c ensures BucketOf(cur, c) == BucketOf(prop, c) {
        if c in names { assert BucketOf(cur, c) == BucketOf(prop, c); }
      }
    }
  }

  ghost predicate SameLists(a: Policy, b: Policy) {
    && SameAccess(a.collections, b.collections) && SameAccess(a.actions, b.actions)
    && Elements(a.connectionsAllow) == Elements(b.connectionsAllow) && Elements(a.fieldsAllow) == Elements(b.fieldsAllow)
  }

  lemma PairsAgree(a: Policy, b: Policy)
    ensures var ls := Pairs(a, b);
      (forall i :: 0 <= i < |ls| ==> Elements(ls[i].cur) == Elements(ls[i].prop)) <==> SameLists(a, b)
  {
    var ls := Pairs(a, b);
    if forall i :: 0 <= i < |ls| ==> Elements(ls[i].cur) == Elements(ls[i].prop) {
      assert Elements(ls[0].cur) == Elements(ls[0].prop) && Elements(ls[1].cur) == Elements(ls[1].prop);
      assert Elements(ls[2].cur) == Elements(ls[2].prop) && Elements(ls[3].cur) == Elements(ls[3].prop);
      assert Elements(ls[4].cur) == Elements(ls[4].prop) && Elements(ls[5].cur) == Elements(ls[5].prop);
    }
  }

  /** There is no difference exactly when the two policies agree on everything the diff looks at. */
  lemma DiffEmptyExactly(a: Policy, b: Policy)
    ensures Diff(a, b) == [] <==> Alike(a, b)
  {
    var ls := Pairs(a, b);
    AllListChangesEmpty(ls);
    PairsAgree(a, b);
    AllMaskChangesEmpty(a, b);
  }

  lemma SameMembers(xs: seq<string>, ys: seq<string>, x: string)
    requires Elements(xs) == Elements(ys)
    ensures x in xs <==> x in ys
    ensures xs == [] <==> ys == []
  {
    assert x in xs <==> x in Elements(xs);
    assert x in ys <==> x in Elements(ys);
    if xs != [] { assert xs[0] in Elements(xs); }
    if ys != [] { assert ys[0] in Elements(ys); }
  }

  lemma SamePermits(a: Access, b: Access, name: string)
    requires SameAccess(a, b)
    ensures Permitted(name, a) <==> Permitted(name, b)
  {
    SameMembers(a.deny, b.deny, name);
    SameMembers(a.allow, b.allow, name);
    SameMembers(a.allow, b.allow, "*");
  }

  lemma MasksAreBuckets(mf: MaskFields, collection: string, field: string)
    ensures Covers(mf, collection, field)
      <==> field in BucketOf(MaskMap(mf), "*") || (mf.PerCollection? && field in BucketOf(MaskMap(mf), collection))
    ensures mf.Everywhere? && collection != "*" ==> BucketOf(MaskMap(mf), collection) == {}
  {
  }

  lemma SameMasked(a: MaskFields, b: MaskFields, collection: string, field: string)
    requires SameMasks(a, b)
    ensures Covers(a, collection, field) <==> Covers(b, collection, field)
  {
    MasksAreBuckets(a, collection, field);
    MasksAreBuckets(b, collection, field);
    assert BucketOf(MaskMap(a), "*") == BucketOf(MaskMap(b), "*");
    assert BucketOf(MaskMap(a), collection) == BucketOf(MaskMap(b), collection);
  }

  lemma SameGuard(a: Policy, b: Policy, req: Request, pipelines: bool)
    requires Alike(a, b) && req.database.None?
    ensures GuardAggregation(req, a, pipelines) == GuardAggregation(req, b, pipelines)
  {
    forall c ensures Permitted(c, a.collections) <==> Permitted(c, b.collections) {
      SamePermits(a.collections, b.collections, c);
    }
    var ma, mb := Elements(MaskFieldsFor(a, req.collection, None)), Elements(MaskFieldsFor(b, req.collection, None));
    forall f ensures f in ma <==> f in mb {
      SameMasked(a.maskFields, b.maskFields, req.collection, f);
      MaskFieldsExact(a, req.collection, None, f);
      MaskFieldsExact(b, req.collection, None, f);
    }
    assert ma == mb;
  }

  lemma SameCascade(a: Policy, b: Policy, req: Request, risk: Risk)
    requires Alike(a, b)
    ensures Decide(req, a, risk, None) == Decide(req, b, risk, None)
  {
    var name := ActionName(req.action);
    SamePermits(a.collections, b.collections, req.collection);
    SameMembers(a.actions.deny, b.actions.deny, name);
    SameMembers(a.actions.allow, b.actions.allow, name);
  }

  /** An empty diff means the same decision: status, code and risk, for every agent, collection,
      action, parameters, time and backend, as long as no database is named. */
  lemma EmptyDiffSameDecision(a: Policy, b: Policy, req: Request, now: int, pipelines: bool)
    requires Diff(a, b) == [] && req.database.None?
    ensures Judge(Some(a), req, now, pipelines) == Judge(Some(b), req, now, pipelines)
  {
    DiffEmptyExactly(a, b);
    SameGuard(a, b, req, pipelines);
    SameCascade(a, b, req, Classify(req.action, req.params));
  }

  lemma OtherDatabaseDenied(a: Policy, req: Request, now: int)
    requires InWindow(a, now) && req.database.Some? && req.database.value != "other"
    ensures Judge(Some(a.(databasesAllow := ["other"])), req, now, true) == Deny(None, DatabaseNotAllowed)
  {
  }

  /** The diff does not look at databases: with one named, it may be empty and the decision differ. */
  lemma DiffIgnoresDatabases(a: Policy, req: Request, now: int)
    requires Judge(Some(a), req, now, true).status.Allowed? && req.database.Some? && req.database.value != "other"
    ensures var b := a.(databasesAllow := ["other"]);
      Diff(a, b) == [] && Judge(Some(b), req, now, true) == Deny(None, DatabaseNotAllowed)
  {
    DatabasesUnseen(a, ["other"]);
    OtherDatabaseDenied(a, req, now);
  }

  lemma SettingsUnseen(a: Policy, databases: seq<string>)
    ensures Alike(a, a.(databasesAllow := databases))
  {
  }

  lemma DatabasesUnseen(a: Policy, databases: seq<string>)
    ensures Diff(a, a.(databasesAllow := databases)) == []
  {
    SettingsUnseen(a, databases);
    DiffEmptyExactly(a, a.(databasesAllow := databases));
  }

  /** A policy without database rules decides for every database as for none. So between two such
      policies an empty diff covers every request. */
  lemma EmptyDiffWithoutDatabaseRules(a: Policy, b: Policy, req: Request, now: int, pipelines: bool)
    requires Diff(a, b) == []
    requires a.databasesAllow == [] && a.databases == map[] && a.defaultScope.None?
    requires b.databasesAllow == [] && b.databases == map[] && b.defaultScope.None?
    ensures Judge(Some(a), req, now, pipelines) == Judge(Some(b), req, now, pipelines)
  {
    var flat := req.(database := None);
    EmptyDiffSameDecision(a, b, flat, now, pipelines);
    SameWithout(a, req, now, pipelines);
    SameWithout(b, req, now, pipelines);
  }

  lemma SameWithout(p: Policy, req: Request, now: int, pipelines: bool)
    requires p.databasesAllow == [] && !HasDbConfig(p)
    ensures Judge(Some(p), req, now, pipelines) == Judge(Some(p), req.(database := None), now, pipelines)
  {
    assert ScopeFor(p, req.database) == ScopeFor(p, None);
    assert MaskFieldsFor(p, req.collection, req.database) == MaskFieldsFor(p, req.collection, None);
  }

  // ------------------------------------------------------- with a database

  /** What a path can start with. */
  predicate HeadName(f: string) { '.' !in f && (f == "" || f[0] != '$') }

  /** The two policies say the same about this database: whether it may be used, which collections
      are in bounds there, and which path heads are masked for a collection. */
  ghost predicate SameFor(a: Policy, b: Policy, database: string) {
    var d := Some(database);
    var usable := a.databasesAllow == [] || database in a.databasesAllow;
    && (usable <==> b.databasesAllow == [] || database in b.databasesAllow)
    && (usable ==>
          && (forall c :: InBounds(a, d, c) <==> InBounds(b, d, c))
          && (forall c, f :: HeadName(f) ==> (MaskedIn(a, d, c, f) <==> MaskedIn(b, d, c, f))))
  }

  /** The window ends before it begins. */
  predicate NeverInForce(p: Policy) {
    p.notBefore.Some? && p.notAfter.Some? && p.notAfter.value.utc < p.notBefore.value.utc
  }

  /** Every request that names the database is judged alike, at any time and by any backend. */
  ghost predicate JudgedAlike(a: Policy, b: Policy, database: string) {
    forall req: Request, now: int, pipelines: bool :: req.database == Some(database) ==>
      Judge(Some(a), req, now, pipelines) == Judge(Some(b), req, now, pipelines)
  }

  lemma {:induction false} StrippedHead(s: string)
    ensures HeadName(PathHead(s))
  {
    if s != "" && s[0] == '$' {
      StrippedHead(s[1..]);
    } else if s != "" {
      SplitJoins(s);
      assert SplitDots(s)[0] in SplitDots(s);
    }
  }

  lemma {:induction false} RefersToHead(node: Val, f: string)
    requires Refers(node, f)
    ensures HeadName(f)
  {
    match node
    case Str(s) => StrippedHead(s);
    case Dict(es) =>
      var i :| 0 <= i < |es| && Refers(es[i].val, f);
      RefersToHead(es[i].val, f);
    case List(items) =>
      var i :| 0 <= i < |items| && Refers(items[i], f);
      RefersToHead(items[i], f);
  }

  lemma {:induction false} Undotted(f: string)
    requires '.' !in f
    ensures SplitDots(f) == [f]
  {
    if f != [] {
      Undotted(f[1..]);
      assert f == [f[0]] + f[1..];
    }
  }

  lemma OneStage(e: Entry, masked: set<string>)
    ensures Collections(List([Dict([e])])) == if NamesForeign(e) then {e.val.s} else Collections(e.val)
    ensures MaskedRefs(List([Dict([e])]), masked) == MaskedRefs(e.val, masked)
  {
    var es, items := [e], [Dict([e])];
    assert es[1..] == [] && items[1..] == [];
    assert InEntries(es) == (if NamesForeign(e) then {e.val.s} else Collections(e.val)) + InEntries([]);
    assert RefsInEntries(es, masked) == MaskedRefs(e.val, masked) + RefsInEntries([], masked);
    assert Collections(Dict(es)) == InEntries(es) && MaskedRefs(Dict(es), masked) == RefsInEntries(es, masked);
    assert InItems(items) == Collections(Dict(es)) + InItems([])
      && RefsInItems(items, masked) == MaskedRefs(Dict(es), masked) + RefsInItems([], masked);
  }

  /** A pipeline whose only path starts with `f`. */
  function Sorting(f: string): Val { List([Dict([Entry("$sortByCount", Str("$" + f))])]) }

  lemma SortingRefers(f: string, masked: set<string>)
    requires HeadName(f)
    ensures Truthy(Sorting(f)) && Collections(Sorting(f)) == {}
    ensures MaskedRefs(Sorting(f), masked) != {} <==> f in masked
  {
    var s := "$" + f;
    assert s[1..] == f && StripDollars(f) == f;
    Undotted(f);
    assert PathHead(s) == f;
    OneStage(Entry("$sortByCount", Str(s)), masked);
  }

  /** A pipeline that reads one other collection. */
  function Reading(c: string): Val { List([Dict([Entry("$unionWith", Str(c))])]) }

  lemma ReadingNames(c: string)
    ensures Truthy(Reading(c)) && Collections(Reading(c)) == {c}
  {
    OneStage(Entry("$unionWith", Str(c)), {});
  }

  function Asking(collection: string, database: string, stages: Val): Request {
    Request("agent", collection, Aggregate, [Entry("pipeline", stages)], Some(database))
  }

  lemma CollectionsSeen(a: Policy, b: Policy, database: string, now: int, c: string)
    requires JudgedAlike(a, b, database) && InWindow(a, now) && InWindow(b, now)
    requires DatabasePermitted(a, Some(database)) && DatabasePermitted(b, Some(database))
    ensures InBounds(a, Some(database), c) <==> InBounds(b, Some(database), c)
  {
    var req := Asking("c", database, Reading(c));
    ReadingNames(c);
    assert PipelineOf(req) == Reading(c);
    assert c in Collections(Reading(c));
    BoundsExact(a, Some(database), c);
    BoundsExact(b, Some(database), c);
    assert Judge(Some(a), req, now, true) == Judge(Some(b), req, now, true);
  }

  lemma MasksSeen(a: Policy, b: Policy, database: string, now: int, c: string, f: string)
    requires JudgedAlike(a, b, database) && InWindow(a, now) && InWindow(b, now) && HeadName(f)
    requires DatabasePermitted(a, Some(database)) && DatabasePermitted(b, Some(database))
    ensures MaskedIn(a, Some(database), c, f) <==> MaskedIn(b, Some(database), c, f)
  {
    var req := Asking(c, database, Sorting(f));
    assert PipelineOf(req) == Sorting(f);
    SortingRefers(f, Elements(MaskFieldsFor(a, c, Some(database))));
    SortingRefers(f, Elements(MaskFieldsFor(b, c, Some(database))));
    MaskFieldsExact(a, c, Some(database), f);
    MaskFieldsExact(b, c, Some(database), f);
    assert Judge(Some(a), req, now, true) == Judge(Some(b), req, now, true);
  }

  lemma JudgedAlikeShows(a: Policy, b: Policy, database: string, now: int)
    requires JudgedAlike(a, b, database) && InWindow(a, now) && InWindow(b, now)
    ensures SameFor(a, b, database)
  {
    var d := Some(database);
    var req := Asking("c", database, List([]));
    assert PipelineOf(req) == List([]);
    assert Judge(Some(a), req, now, true) == Judge(Some(b), req, now, true);
    if DatabasePermitted(a, d) && DatabasePermitted(b, d) {
      forall c ensures InBounds(a, d, c) <==> InBounds(b, d, c) {
        CollectionsSeen(a, b, database, now, c);
      }
      forall c, f | HeadName(f) ensures MaskedIn(a, d, c, f) <==> MaskedIn(b, d, c, f) {
        MasksSeen(a, b, database, now, c, f);
      }
    }
  }

  lemma GuardsAlike(a: Policy, b: Policy, req: Request, pipelines: bool)
    requires req.database.Some? && SameFor(a, b, req.database.value) && DatabasePermitted(a, req.database)
    ensures GuardAggregation(req, a, pipelines) == GuardAggregation(req, b, pipelines)
  {
    var stages := PipelineOf(req);
    var ma, mb :=
      Elements(MaskFieldsFor(a, req.collection, req.database)),
      Elements(MaskFieldsFor(b, req.collection, req.database));
    MaskedPathExists(stages, ma);
    MaskedPathExists(stages, mb);
    forall c ensures InBounds(a, req.database, c) <==> Permitted(c, ScopeFor(a, req.database).collections) {
      BoundsExact(a, req.database, c);
    }
    forall c ensures InBounds(b, req.database, c) <==> Permitted(c, ScopeFor(b, req.database).collections) {
      BoundsExact(b, req.database, c);
    }
    forall f | Refers(stages, f) ensures f in ma <==> f in mb {
      RefersToHead(stages, f);
      MaskFieldsExact(a, req.collection, req.database, f);
      MaskFieldsExact(b, req.collection, req.database, f);
    }
  }

  lemma CascadesAlike(a: Policy, b: Policy, req: Request, risk: Risk)
    requires Alike(a, b) && req.database.Some? && SameFor(a, b, req.database.value) && DatabasePermitted(a, req.database)
    ensures Decide(req, a, risk, req.database) == Decide(req, b, risk, req.database)
  {
    var name := ActionName(req.action);
    BoundsExact(a, req.database, req.collection);
    BoundsExact(b, req.database, req.collection);
    SameMembers(a.actions.deny, b.actions.deny, name);
    SameMembers(a.actions.allow, b.actions.allow, name);
  }

  /** When the diff is empty, requests that name a database are all judged alike exactly when the two
      policies say the same about that database, or are in force at no time. */
  lemma EmptyDiffCoversExactly(a: Policy, b: Policy, database: string)
    requires Diff(a, b) == []
    ensures JudgedAlike(a, b, database) <==> NeverInForce(a) || SameFor(a, b, database)
  {
    DiffEmptyExactly(a, b);
    if JudgedAlike(a, b, database) && !NeverInForce(a) {
      var now :=
        if a.notBefore.Some? then a.notBefore.value.utc else if a.notAfter.Some? then a.notAfter.value.utc else 0;
      JudgedAlikeShows(a, b, database, now);
    }
    if NeverInForce(a) || SameFor(a, b, database) {
      forall req: Request, now: int, pipelines: bool | req.database == Some(database)
        ensures Judge(Some(a), req, now, pipelines) == Judge(Some(b), req, now, pipelines)
      {
        assert InWindow(a, now) == InWindow(b, now);
        if InWindow(a, now) && DatabasePermitted(a, req.database) {
          GuardsAlike(a, b, req, pipelines);
          CascadesAlike(a, b, req, Classify(req.action, req.params));
        }
      }
    }
  }
}
