/** Policies that extend others: the merge, the memoised resolution of chains, and what a
    resolved policy keeps of its ancestors. */
module PolicyInheritance {
  import opened Common
  import opened Policies
  import opened PolicyEngine

  datatype Failure = UnknownBase(name: string) | Cycle(path: seq<string>) | Overlap

  type Parsed = map<string, Policy>

  // ------------------------------------------------------------------- merge

  function Get(m: map<string, seq<string>>, k: string): seq<string> { if k in m then m[k] else [] }

  /** `_merge_mask_fields` */
  function MergedMasks(base: MaskFields, child: MaskFields): MaskFields {
    if base.Everywhere? && child.Everywhere? then Everywhere(Union(base.fields, child.fields))
    else
      var b, c := MaskMap(base), MaskMap(child);
      PerCollection(map k | k in b.Keys + c.Keys :: if k in c then Union(Get(b, k), c[k]) else b[k])
  }

  predicate Clashes(a: Access) { exists x :: x in a.allow && x in a.deny }

  function MergedAccess(base: Access, child: Access): Access {
    Access(Union(base.allow, child.allow), Union(base.deny, child.deny))
  }

  function Either<T>(a: Option<T>, b: Option<T>): Option<T> { if a.Some? then a else b }

  /** `_merge`. A policy whose collection lists overlap cannot be built. The database rules and
      the cost threshold are not among the fields that are passed on, the child's own included. */
  function Merge(base: Policy, child: Policy): Result<Policy, Failure> {
    var collections := MergedAccess(base.collections, child.collections);
    if Clashes(collections) then Err(Overlap)
    else Ok(Policy(
      child.apiVersion, child.agent, None, Either(child.notBefore, base.notBefore), Either(child.notAfter, base.notAfter),
      if child.mode != ReadOnly then child.mode else base.mode,
      collections, [], map[], None,
      MergedAccess(base.actions, child.actions),
      MergedMasks(base.maskFields, child.maskFields),
      Union(base.fieldsAllow, child.fieldsAllow),
      Union(base.connectionsAllow, child.connectionsAllow),
      child.approveHigh || base.approveHigh, child.approveCritical || base.approveCritical, None))
  }

  // ------------------------------------------------------------------ chains

  /** From a policy along `extends` to one that extends nothing. */
  ghost predicate IsChain(parsed: Parsed, name: string, chain: seq<string>) {
    && chain != [] && chain[0] == name
    && (forall i :: 0 <= i < |chain| ==> chain[i] in parsed)
    && (forall i :: 0 <= i < |chain| - 1 ==> parsed[chain[i]].base == Some(chain[i + 1]))
    && parsed[Last(chain)].base.None?
  }

  /** The merges from the root of the chain down. */
  ghost function Fold(parsed: Parsed, chain: seq<string>): Result<Policy, Failure>
    requires chain != [] && forall i :: 0 <= i < |chain| ==> chain[i] in parsed
  {
    if |chain| == 1 then Ok(parsed[chain[0]])
    else
      var base :- Fold(parsed, chain[1..]);
      Merge(base, parsed[chain[0]])
  }

  ghost predicate Resolves(parsed: Parsed, name: string, p: Policy) {
    exists chain :: IsChain(parsed, name, chain) && Fold(parsed, chain) == Ok(p)
  }

  ghost predicate Good(parsed: Parsed, name: string) { exists p :: Resolves(parsed, name, p) }

  lemma ChainTail(parsed: Parsed, name: string, chain: seq<string>)
    requires IsChain(parsed, name, chain) && |chain| > 1
    ensures parsed[name].base.Some? && IsChain(parsed, parsed[name].base.value, chain[1..])
  {
    assert Last(chain[1..]) == Last(chain);
    assert parsed[chain[0]].base == Some(chain[1]);
  }

  lemma ChainGrow(parsed: Parsed, name: string, chain: seq<string>)
    requires name in parsed && parsed[name].base.Some? && IsChain(parsed, parsed[name].base.value, chain)
    ensures IsChain(parsed, name, [name] + chain)
  {
    var all := [name] + chain;
    assert Last(all) == Last(chain);
    forall i | 0 <= i < |all| - 1 ensures parsed[all[i]].base == Some(all[i + 1]) {
      if i > 0 { assert parsed[chain[i - 1]].base == Some(chain[i]); }
    }
  }

  lemma {:induction false} ChainUnique(parsed: Parsed, name: string, a: seq<string>, b: seq<string>)
    requires IsChain(parsed, name, a) && IsChain(parsed, name, b)
    ensures a == b
    decreases |a|
  {
    if |a| > 1 {
      ChainTail(parsed, name, a);
      if |b| > 1 {
        ChainTail(parsed, name, b);
        ChainUnique(parsed, parsed[name].base.value, a[1..], b[1..]);
        assert a == [a[0]] + a[1..] && b == [b[0]] + b[1..];
      }
    } else if |b| > 1 {
      ChainTail(parsed, name, b);
    }
  }

  /** Following `extends` n times. */
  ghost function Follow(parsed: Parsed, name: string, n: nat): Option<string>
    decreases n
  {
    if n == 0 then Some(name)
    else if name in parsed && parsed[name].base.Some? then Follow(parsed, parsed[name].base.value, n - 1)
    else None
  }

  lemma {:induction false} FollowMore(parsed: Parsed, name: string, n: nat)
    requires Follow(parsed, name, n).Some?
    ensures Follow(parsed, name, n + 1) == Follow(parsed, Follow(parsed, name, n).value, 1)
    decreases n
  {
    if n > 0 { FollowMore(parsed, parsed[name].base.value, n - 1); }
  }

  lemma {:induction false} FollowChain(parsed: Parsed, name: string, chain: seq<string>, n: nat)
    requires IsChain(parsed, name, chain)
    ensures Follow(parsed, name, n) == if n < |chain| then Some(chain[n]) else None
    decreases n
  {
    if n > 0 && |chain| > 1 {
      ChainTail(parsed, name, chain);
      FollowChain(parsed, parsed[name].base.value, chain[1..], n - 1);
    }
  }

  lemma ChainSuffix(parsed: Parsed, name: string, chain: seq<string>, i: nat)
    requires IsChain(parsed, name, chain) && i < |chain|
    ensures IsChain(parsed, chain[i], chain[i..])
  {
    assert Last(chain[i..]) == Last(chain);
  }

  /** A name that leads back to itself has no chain. */
  lemma NoChainOnCycle(parsed: Parsed, name: string, n: nat, chain: seq<string>)
    requires n > 0 && Follow(parsed, name, n) == Some(name)
    ensures !IsChain(parsed, name, chain)
  {
    if IsChain(parsed, name, chain) {
      FollowChain(parsed, name, chain, n);
      ChainSuffix(parsed, name, chain, n);
      ChainUnique(parsed, name, chain, chain[n..]);
      assert false;
    }
  }

  lemma GoodStep(parsed: Parsed, name: string)
    requires name in parsed && parsed[name].base.Some?
    ensures forall b, p :: Resolves(parsed, parsed[name].base.value, b) && Merge(b, parsed[name]) == Ok(p) ==>
      Resolves(parsed, name, p)
    ensures forall p :: Resolves(parsed, name, p) ==>
      exists b :: Resolves(parsed, parsed[name].base.value, b) && Merge(b, parsed[name]) == Ok(p)
  {
    var ext := parsed[name].base.value;
    forall b, p | Resolves(parsed, ext, b) && Merge(b, parsed[name]) == Ok(p) ensures Resolves(parsed, name, p) {
      var chain :| IsChain(parsed, ext, chain) && Fold(parsed, chain) == Ok(b);
      ChainGrow(parsed, name, chain);
      assert ([name] + chain)[1..] == chain;
      assert Fold(parsed, [name] + chain) == Ok(p);
    }
    forall p | Resolves(parsed, name, p)
      ensures exists b :: Resolves(parsed, ext, b) && Merge(b, parsed[name]) == Ok(p)
    {
      var chain :| IsChain(parsed, name, chain) && Fold(parsed, chain) == Ok(p);
      if |chain| == 1 { assert false; }
      ChainTail(parsed, name, chain);
      var b := Fold(parsed, chain[1..]).value;
      assert Resolves(parsed, ext, b) && Merge(b, parsed[name]) == Ok(p);
    }
  }

  lemma ResolvesOnce(parsed: Parsed, name: string, p: Policy, q: Policy)
    requires Resolves(parsed, name, p) && Resolves(parsed, name, q)
    ensures p == q
  {
    var a :| IsChain(parsed, name, a) && Fold(parsed, a) == Ok(p);
    var b :| IsChain(parsed, name, b) && Fold(parsed, b) == Ok(q);
    ChainUnique(parsed, name, a, b);
  }

  // -------------------------------------------------------------- resolution

  /** The error tells what is wrong with the chain of `name`. */
  ghost predicate Blames(parsed: Parsed, name: string, e: Failure) {
    match e
    case UnknownBase(missing) => missing !in parsed && exists n: nat :: Follow(parsed, name, n) == Some(missing)
    case Cycle(path) =>
      path != [] && exists n: nat :: Follow(parsed, name, n) == Some(Last(path)) && ReturnsTo(parsed, Last(path))
    case Overlap => exists chain :: IsChain(parsed, name, chain) && ChainClashes(parsed, chain)
  }

  ghost predicate ReturnsTo(parsed: Parsed, name: string) { exists n: nat :: n > 0 && Follow(parsed, name, n) == Some(name) }

  lemma BlamesBelow(parsed: Parsed, name: string, e: Failure)
    requires name in parsed && parsed[name].base.Some? && Blames(parsed, parsed[name].base.value, e)
    ensures Blames(parsed, name, e)
  {
    var ext := parsed[name].base.value;
    match e {
      case UnknownBase(missing) =>
        var n: nat :| Follow(parsed, ext, n) == Some(missing);
        assert Follow(parsed, name, n + 1) == Some(missing);
      case Cycle(path) =>
        var n: nat :| Follow(parsed, ext, n) == Some(Last(path));
        assert Follow(parsed, name, n + 1) == Some(Last(path));
      case Overlap =>
        var chain :| IsChain(parsed, ext, chain) && ChainClashes(parsed, chain);
        ChainGrow(parsed, name, chain);
        var all := [name] + chain;
        assert all[1..] == chain;
        var x :| Somewhere(parsed, chain, AllowsCollection(x)) && Somewhere(parsed, chain, DeniesCollection(x));
        SomewhereSplits(parsed, all, AllowsCollection(x));
        SomewhereSplits(parsed, all, DeniesCollection(x));
    }
  }

  /** The memo table and the recursion that fills it. */
  class Resolver {
    const parsed: Parsed
    var resolved: Parsed

    constructor (parsed: Parsed)
      ensures this.parsed == parsed && resolved == map[]
    {
      this.parsed := parsed;
      resolved := map[];
    }

    ghost predicate Valid()
      reads this
    {
      forall k :: k in resolved ==> k in parsed && Resolves(parsed, k, resolved[k])
    }

    /** The names on the stack lead to `name`. */
    ghost predicate LedBy(stack: seq<string>, name: string) {
      forall s :: s in stack ==> exists n: nat :: Follow(parsed, s, n) == Some(name)
    }

    /** Succeeds exactly when there is a chain whose merges succeed, with their fold. */
    method Resolve(name: string, stack: seq<string>) returns (r: Result<Policy, Failure>)
      requires Valid() && LedBy(stack, name)
      modifies this
      ensures Valid()
      ensures r.Ok? ==> Resolves(parsed, name, r.value) && name in resolved && resolved[name] == r.value
      ensures r.Err? ==> !Good(parsed, name) && Blames(parsed, name, r.error)
      ensures forall k :: k in old(resolved) ==> k in resolved
      decreases |parsed.Keys - Elements(stack)|, if name in stack then 1 else 0
    {
      if name in resolved {
        return Ok(resolved[name]);
      }
      if name !in parsed {
        assert Follow(parsed, name, 0) == Some(name);
        return Err(UnknownBase(name));
      }
      var policy := parsed[name];
      if policy.base.None? {
        assert IsChain(parsed, name, [name]) && Fold(parsed, [name]) == Ok(policy);
        resolved := resolved[name := policy];
        return Ok(policy);
      }
      var ext := policy.base.value;
      if ext in stack {
        CycleFound(name, stack, ext);
        return Err(Cycle(stack + [ext]));
      }
      StackGrows(name, stack, ext);
      GoodStep(parsed, name);
      var base := Resolve(ext, stack + [name]);
      if base.Err? {
        BlamesBelow(parsed, name, base.error);
        return Err(base.error);
      }
      var merged := Merge(base.value, policy);
      if merged.Err? {
        MergeFails(name, base.value);
        return merged;
      }
      resolved := resolved[name := merged.value];
      return merged;
    }

    lemma CycleFound(name: string, stack: seq<string>, ext: string)
      requires LedBy(stack, name) && name in parsed && parsed[name].base == Some(ext) && ext in stack
      ensures !Good(parsed, name) && Blames(parsed, name, Cycle(stack + [ext]))
    {
      var n: nat :| Follow(parsed, ext, n) == Some(name);
      assert Follow(parsed, name, n + 1) == Some(name);
      assert Follow(parsed, ext, 0) == Some(ext);
      assert Follow(parsed, name, 1) == Some(ext);
      FollowMore(parsed, ext, n);
      assert Follow(parsed, ext, n + 1) == Some(ext);
      if Good(parsed, name) {
        var p :| Resolves(parsed, name, p);
        var chain :| IsChain(parsed, name, chain) && Fold(parsed, chain) == Ok(p);
        NoChainOnCycle(parsed, name, n + 1, chain);
      }
    }

    lemma StackGrows(name: string, stack: seq<string>, ext: string)
      requires LedBy(stack, name) && name in parsed && parsed[name].base == Some(ext) && ext !in stack
      ensures LedBy(stack + [name], ext)
      ensures |parsed.Keys - Elements(stack + [name])| <= |parsed.Keys - Elements(stack)|
      ensures name !in stack ==> |parsed.Keys - Elements(stack + [name])| < |parsed.Keys - Elements(stack)|
      ensures name in stack ==> Elements(stack + [name]) == Elements(stack) && ext !in stack + [name]
    {
      forall s | s in stack + [name] ensures exists n: nat :: Follow(parsed, s, n) == Some(ext) {
        if s == name {
          assert Follow(parsed, ext, 0) == Some(ext);
          assert Follow(parsed, name, 1) == Some(ext);
        } else {
          var n: nat :| Follow(parsed, s, n) == Some(name);
          FollowMore(parsed, s, n);
          assert Follow(parsed, ext, 0) == Some(ext);
          assert Follow(parsed, s, n + 1) == Some(ext);
        }
      }
      var more := parsed.Keys - Elements(stack + [name]);
      var less := parsed.Keys - Elements(stack);
      assert more == less - {name};
      if name !in stack { assert name in less; }
      Subset(more, less);
    }

    lemma MergeFails(name: string, base: Policy)
      requires name in parsed && parsed[name].base.Some? && Resolves(parsed, parsed[name].base.value, base)
      requires Merge(base, parsed[name]).Err?
      ensures !Good(parsed, name) && Blames(parsed, name, Overlap)
    {
      GoodStep(parsed, name);
      var rest :| IsChain(parsed, parsed[name].base.value, rest) && Fold(parsed, rest) == Ok(base);
      ChainGrow(parsed, name, rest);
      assert ([name] + rest)[1..] == rest;
      FoldSucceeds(parsed, [name] + rest);
      if Good(parsed, name) {
        var p :| Resolves(parsed, name, p);
        var b :| Resolves(parsed, parsed[name].base.value, b) && Merge(b, parsed[name]) == Ok(p);
        ResolvesOnce(parsed, parsed[name].base.value, b, base);
      }
    }
  }

  lemma Subset(a: set<string>, b: set<string>)
    requires a <= b
    ensures |a| <= |b|
    ensures a != b ==> |a| < |b|
  {
    assert b == a + (b - a);
    if a != b { assert b - a != {}; }
  }

  /** `_resolve_inheritance`, in whatever order the dictionary is gone through. It succeeds exactly
      when every policy has a chain whose merges succeed, and then holds the fold of each. */
  method ResolveAll(parsed: Parsed, order: seq<string>) returns (r: Result<Parsed, Failure>)
    requires Elements(order) == parsed.Keys
    ensures r.Ok? <==> forall name :: name in parsed ==> Good(parsed, name)
    ensures r.Err? ==> exists name :: name in parsed && Blames(parsed, name, r.error)
    ensures r.Ok? ==> r.value.Keys == parsed.Keys && forall name :: name in parsed ==> Resolves(parsed, name, r.value[name])
  {
    var resolver := new Resolver(parsed);
    for i := 0 to |order|
      invariant resolver.Valid() && resolver.parsed == parsed
      invariant forall j :: 0 <= j < i ==> order[j] in resolver.resolved
    {
      assert Follow(parsed, order[i], 0) == Some(order[i]);
      var one := resolver.Resolve(order[i], [order[i]]);
      if one.Err? {
        assert order[i] in Elements(order);
        return Err(one.error);
      }
    }
    forall name | name in parsed ensures name in resolver.resolved && Good(parsed, name) {
      assert name in Elements(order);
      assert Resolves(parsed, name, resolver.resolved[name]);
    }
    return Ok(resolver.resolved);
  }

  /** So the result does not depend on the order. */
  lemma OrderIrrelevant(parsed: Parsed, a: Parsed, b: Parsed)
    requires a.Keys == parsed.Keys && forall name :: name in parsed ==> Resolves(parsed, name, a[name])
    requires b.Keys == parsed.Keys && forall name :: name in parsed ==> Resolves(parsed, name, b[name])
    ensures a == b
  {
    forall name | name in parsed ensures a[name] == b[name] { ResolvesOnce(parsed, name, a[name], b[name]); }
  }

  // ------------------------------------------------- what a chain amounts to

  ghost predicate Somewhere(parsed: Parsed, chain: seq<string>, says: Policy -> bool)
    requires forall i :: 0 <= i < |chain| ==> chain[i] in parsed
  {
    exists i :: 0 <= i < |chain| && says(parsed[chain[i]])
  }

  lemma SomewhereSplits(parsed: Parsed, chain: seq<string>, says: Policy -> bool)
    requires chain != [] && forall i :: 0 <= i < |chain| ==> chain[i] in parsed
    ensures Somewhere(parsed, chain, says) <==> says(parsed[chain[0]]) || Somewhere(parsed, chain[1..], says)
  {
    assert forall i :: 0 <= i < |chain[1..]| ==> chain[1..][i] == chain[i + 1];
    if Somewhere(parsed, chain, says) {
      var i :| 0 <= i < |chain| && says(parsed[chain[i]]);
      if i > 0 { assert chain[1..][i - 1] == chain[i]; }
    }
  }

  /** A merge says it exactly when the base or the child does. */
  ghost predicate PassedOn(says: Policy -> bool) {
    forall b: Policy, c: Policy :: Merge(b, c).Ok? ==> (says(Merge(b, c).value) <==> says(b) || says(c))
  }

  lemma {:induction false} FoldSays(parsed: Parsed, chain: seq<string>, says: Policy -> bool)
    requires chain != [] && forall i :: 0 <= i < |chain| ==> chain[i] in parsed
    requires PassedOn(says) && Fold(parsed, chain).Ok?
    ensures says(Fold(parsed, chain).value) <==> Somewhere(parsed, chain, says)
  {
    SomewhereSplits(parsed, chain, says);
    if |chain| > 1 {
      FoldSays(parsed, chain[1..], says);
      assert Merge(Fold(parsed, chain[1..]).value, parsed[chain[0]]) == Fold(parsed, chain);
    } else {
      assert !Somewhere(parsed, chain[1..], says);
    }
  }

  function DeniesCollection(x: string): Policy -> bool { (p: Policy) => x in p.collections.deny }

  function AllowsCollection(x: string): Policy -> bool { (p: Policy) => x in p.collections.allow }

  function DeniesAction(x: string): Policy -> bool { (p: Policy) => x in p.actions.deny }

  function ListsAction(x: string): Policy -> bool { (p: Policy) => x in p.actions.allow }

  function AllowsConnection(x: string): Policy -> bool { (p: Policy) => x in p.connectionsAllow }

  function ShowsField(x: string): Policy -> bool { (p: Policy) => x in p.fieldsAllow }

  function MasksField(c: string, f: string): Policy -> bool { (p: Policy) => Covers(p.maskFields, c, f) }

  function GatesHigh(): Policy -> bool { (p: Policy) => p.approveHigh }

  function GatesCritical(): Policy -> bool { (p: Policy) => p.approveCritical }

  function MayWrite(): Policy -> bool { (p: Policy) => p.mode.ReadWrite? }

  lemma AccessPassedOn(x: string)
    ensures PassedOn(DeniesCollection(x)) && PassedOn(AllowsCollection(x))
    ensures PassedOn(DeniesAction(x)) && PassedOn(ListsAction(x))
    ensures PassedOn(AllowsConnection(x)) && PassedOn(ShowsField(x))
  {
    forall b: Policy, c: Policy | Merge(b, c).Ok?
      ensures var m := Merge(b, c).value;
        && (DeniesCollection(x)(m) <==> DeniesCollection(x)(b) || DeniesCollection(x)(c))
        && (AllowsCollection(x)(m) <==> AllowsCollection(x)(b) || AllowsCollection(x)(c))
        && (DeniesAction(x)(m) <==> DeniesAction(x)(b) || DeniesAction(x)(c))
        && (ListsAction(x)(m) <==> ListsAction(x)(b) || ListsAction(x)(c))
        && (AllowsConnection(x)(m) <==> AllowsConnection(x)(b) || AllowsConnection(x)(c))
        && (ShowsField(x)(m) <==> ShowsField(x)(b) || ShowsField(x)(c))
    {
      UnionMeans(b.connectionsAllow, c.connectionsAllow);
      UnionMeans(b.fieldsAllow, c.fieldsAllow);
      UnionMeans(b.collections.deny, c.collections.deny);
      UnionMeans(b.collections.allow, c.collections.allow);
      UnionMeans(b.actions.deny, c.actions.deny);
      UnionMeans(b.actions.allow, c.actions.allow);
    }
  }

  lemma MergedMasksMean(b: MaskFields, c: MaskFields, collection: string, f: string)
    ensures Covers(MergedMasks(b, c), collection, f) <==> Covers(b, collection, f) || Covers(c, collection, f)
  {
    if b.Everywhere? && c.Everywhere? {
      UnionMeans(b.fields, c.fields);
    } else {
      var bm, cm, m := MaskMap(b), MaskMap(c), MergedMasks(b, c);
      BucketMerged(bm, cm, m, "*", f);
      BucketMerged(bm, cm, m, collection, f);
      MaskMapMeans(b, collection, f);
      MaskMapMeans(c, collection, f);
    }
  }

  lemma BucketMerged(bm: map<string, seq<string>>, cm: map<string, seq<string>>, m: MaskFields, k: string, f: string)
    requires m == PerCollection(map k | k in bm.Keys + cm.Keys :: if k in cm then Union(Get(bm, k), cm[k]) else bm[k])
    ensures f in m.Bucket(k) <==> f in Get(bm, k) || f in Get(cm, k)
  {
    if k in cm { UnionMeans(Get(bm, k), cm[k]); }
  }

  lemma MaskMapMeans(mf: MaskFields, collection: string, f: string)
    ensures Covers(mf, collection, f) <==> f in Get(MaskMap(mf), "*") || f in Get(MaskMap(mf), collection)
  {
  }

  lemma MasksPassedOn(collection: string, f: string)
    ensures PassedOn(MasksField(collection, f))
  {
    forall b: Policy, c: Policy | Merge(b, c).Ok?
      ensures MasksField(collection, f)(Merge(b, c).value) <==> MasksField(collection, f)(b) || MasksField(collection, f)(c)
    {
      MergedMasksMean(b.maskFields, c.maskFields, collection, f);
    }
  }

  lemma FlagsPassedOn()
    ensures PassedOn(GatesHigh()) && PassedOn(GatesCritical()) && PassedOn(MayWrite())
  {
  }

  /** What a resolved policy denies, allows, masks and gates is exactly what some policy of its
      chain does: nothing of an ancestor is lost and nothing is made up. The mode is readwrite as
      soon as one policy of the chain is, so a child cannot go back to readonly. */
  lemma ResolvedSays(parsed: Parsed, name: string, chain: seq<string>, p: Policy, x: string, f: string)
    requires IsChain(parsed, name, chain) && Fold(parsed, chain) == Ok(p)
    ensures x in p.collections.deny <==> Somewhere(parsed, chain, DeniesCollection(x))
    ensures x in p.collections.allow <==> Somewhere(parsed, chain, AllowsCollection(x))
    ensures x in p.actions.deny <==> Somewhere(parsed, chain, DeniesAction(x))
    ensures x in p.actions.allow <==> Somewhere(parsed, chain, ListsAction(x))
    ensures x in p.connectionsAllow <==> Somewhere(parsed, chain, AllowsConnection(x))
    ensures x in p.fieldsAllow <==> Somewhere(parsed, chain, ShowsField(x))
    ensures Covers(p.maskFields, x, f) <==> Somewhere(parsed, chain, MasksField(x, f))
    ensures p.approveHigh <==> Somewhere(parsed, chain, GatesHigh())
    ensures p.approveCritical <==> Somewhere(parsed, chain, GatesCritical())
    ensures p.mode.ReadWrite? <==> Somewhere(parsed, chain, MayWrite())
  {
    AccessPassedOn(x);
    MasksPassedOn(x, f);
    FlagsPassedOn();
    FoldSays(parsed, chain, DeniesCollection(x));
    FoldSays(parsed, chain, AllowsCollection(x));
    FoldSays(parsed, chain, DeniesAction(x));
    FoldSays(parsed, chain, ListsAction(x));
    FoldSays(parsed, chain, AllowsConnection(x));
    FoldSays(parsed, chain, ShowsField(x));
    FoldSays(parsed, chain, MasksField(x, f));
    FoldSays(parsed, chain, GatesHigh());
    FoldSays(parsed, chain, GatesCritical());
    FoldSays(parsed, chain, MayWrite());
  }

  /** The value is that of the first in the list that has one. */
  ghost predicate FirstGiven<T(!new)>(value: Option<T>, all: seq<Option<T>>) {
    if value.None? then forall i :: 0 <= i < |all| ==> all[i].None?
    else exists i :: 0 <= i < |all| && all[i] == value && forall j :: 0 <= j < i ==> all[j].None?
  }

  lemma FirstOfRest<T(!new)>(value: Option<T>, first: Option<T>, rest: seq<Option<T>>)
    requires FirstGiven(value, rest)
    ensures FirstGiven(Either(first, value), [first] + rest)
  {
    var all := [first] + rest;
    if first.Some? {
      assert all[0] == first;
    } else if value.Some? {
      var i :| 0 <= i < |rest| && rest[i] == value && forall j :: 0 <= j < i ==> rest[j].None?;
      assert all[i + 1] == value;
    }
  }

  ghost function Starts(parsed: Parsed, chain: seq<string>): seq<Option<Moment>>
    requires forall i :: 0 <= i < |chain| ==> chain[i] in parsed
  {
    seq(|chain|, i requires 0 <= i < |chain| => parsed[chain[i]].notBefore)
  }

  ghost function Ends(parsed: Parsed, chain: seq<string>): seq<Option<Moment>>
    requires forall i :: 0 <= i < |chain| ==> chain[i] in parsed
  {
    seq(|chain|, i requires 0 <= i < |chain| => parsed[chain[i]].notAfter)
  }

  /** Each end of the window is that of the nearest policy of the chain that sets it, and the name
      and version are the policy's own. */
  lemma {:induction false} ResolvedTakes(parsed: Parsed, chain: seq<string>)
    requires chain != [] && forall i :: 0 <= i < |chain| ==> chain[i] in parsed
    requires Fold(parsed, chain).Ok?
    ensures var p := Fold(parsed, chain).value;
      && FirstGiven(p.notBefore, Starts(parsed, chain)) && FirstGiven(p.notAfter, Ends(parsed, chain))
      && p.agent == parsed[chain[0]].agent && p.apiVersion == parsed[chain[0]].apiVersion
  {
    var starts, ends := Starts(parsed, chain), Ends(parsed, chain);
    if |chain| == 1 {
      assert starts[0] == parsed[chain[0]].notBefore && ends[0] == parsed[chain[0]].notAfter;
    } else {
      var rest := chain[1..];
      ResolvedTakes(parsed, rest);
      var base, child := Fold(parsed, rest).value, parsed[chain[0]];
      FirstOfRest(base.notBefore, child.notBefore, Starts(parsed, rest));
      FirstOfRest(base.notAfter, child.notAfter, Ends(parsed, rest));
      assert starts == [child.notBefore] + Starts(parsed, rest) && ends == [child.notAfter] + Ends(parsed, rest);
      assert Fold(parsed, chain) == Merge(base, child);
    }
  }

  /** Some policy of the chain allows a collection that some policy of the chain denies. */
  ghost predicate ChainClashes(parsed: Parsed, chain: seq<string>)
    requires forall i :: 0 <= i < |chain| ==> chain[i] in parsed
  {
    exists x :: Somewhere(parsed, chain, AllowsCollection(x)) && Somewhere(parsed, chain, DeniesCollection(x))
  }

  /** The merges of a chain succeed exactly when there is nothing to merge or no collection is
      allowed by one policy of the chain and denied by another. */
  lemma {:induction false} FoldSucceeds(parsed: Parsed, chain: seq<string>)
    requires chain != [] && forall i :: 0 <= i < |chain| ==> chain[i] in parsed
    ensures Fold(parsed, chain).Ok? <==> |chain| == 1 || !ChainClashes(parsed, chain)
  {
    if |chain| > 1 {
      FoldSucceeds(parsed, chain[1..]);
      if Fold(parsed, chain[1..]).Ok? {
        ClashOf(parsed, chain);
      } else {
        var x :| Somewhere(parsed, chain[1..], AllowsCollection(x)) && Somewhere(parsed, chain[1..], DeniesCollection(x));
        SomewhereSplits(parsed, chain, AllowsCollection(x));
        SomewhereSplits(parsed, chain, DeniesCollection(x));
      }
    }
  }

  lemma ClashOf(parsed: Parsed, chain: seq<string>)
    requires |chain| > 1 && (forall i :: 0 <= i < |chain| ==> chain[i] in parsed) && Fold(parsed, chain[1..]).Ok?
    ensures Clashes(MergedAccess(Fold(parsed, chain[1..]).value.collections, parsed[chain[0]].collections))
      <==> ChainClashes(parsed, chain)
  {
    var base, child := Fold(parsed, chain[1..]).value, parsed[chain[0]];
    var m := MergedAccess(base.collections, child.collections);
    forall x
      ensures x in m.allow <==> Somewhere(parsed, chain, AllowsCollection(x))
      ensures x in m.deny <==> Somewhere(parsed, chain, DeniesCollection(x))
    {
      AccessPassedOn(x);
      FoldSays(parsed, chain[1..], AllowsCollection(x));
      FoldSays(parsed, chain[1..], DeniesCollection(x));
      SomewhereSplits(parsed, chain, AllowsCollection(x));
      SomewhereSplits(parsed, chain, DeniesCollection(x));
      UnionMeans(base.collections.allow, child.collections.allow);
      UnionMeans(base.collections.deny, child.collections.deny);
    }
  }

  /** A name resolves exactly when its chain ends, that is, does not dangle or come back, and
      nothing clashes in it. */
  lemma GoodExactly(parsed: Parsed, name: string)
    ensures Good(parsed, name) <==>
      exists chain :: IsChain(parsed, name, chain) && (|chain| == 1 || !ChainClashes(parsed, chain))
  {
    if Good(parsed, name) {
      var p :| Resolves(parsed, name, p);
      var chain :| IsChain(parsed, name, chain) && Fold(parsed, chain) == Ok(p);
      FoldSucceeds(parsed, chain);
    }
    if chain :| IsChain(parsed, name, chain) && (|chain| == 1 || !ChainClashes(parsed, chain)) {
      FoldSucceeds(parsed, chain);
      assert Resolves(parsed, name, Fold(parsed, chain).value);
    }
  }

  /** There is no chain exactly when following `extends` comes back to a name or leaves the map. */
  lemma NoChainExactly(parsed: Parsed, name: string)
    ensures (exists chain :: IsChain(parsed, name, chain)) <==> exists n: nat :: EndsAt(parsed, name, n)
  {
    if chain :| IsChain(parsed, name, chain) {
      FollowChain(parsed, name, chain, |chain| - 1);
      assert EndsAt(parsed, name, |chain| - 1);
    }
    if n: nat :| EndsAt(parsed, name, n) { var chain := ChainTo(parsed, name, n); }
  }

  ghost predicate EndsAt(parsed: Parsed, name: string, n: nat) {
    var end := Follow(parsed, name, n);
    end.Some? && end.value in parsed && parsed[end.value].base.None?
  }

  lemma {:induction false} ChainTo(parsed: Parsed, name: string, n: nat) returns (chain: seq<string>)
    requires EndsAt(parsed, name, n)
    ensures IsChain(parsed, name, chain)
    decreases n
  {
    if n == 0 {
      chain := [name];
    } else {
      var rest := ChainTo(parsed, parsed[name].base.value, n - 1);
      ChainGrow(parsed, name, rest);
      chain := [name] + rest;
    }
  }

  // ------------------------------------------------ what it means for requests

  /** A policy that extends another loses its database rules and its cost threshold. */
  lemma MergeDropsDatabases(parsed: Parsed, name: string, chain: seq<string>, p: Policy)
    requires IsChain(parsed, name, chain) && |chain| > 1 && Fold(parsed, chain) == Ok(p)
    ensures p.databasesAllow == [] && p.databases == map[] && p.defaultScope.None? && p.maxCost.None?
  {
  }

  /** Inherited restrictions bind: a request for a collection or an action that any policy of the
      chain denies is denied, and one that needs approval under a gate of any of them is never
      simply allowed. */
  lemma AncestorsBind(parsed: Parsed, name: string, chain: seq<string>, p: Policy, i: nat, req: Request, now: int,
    pipelines: bool)
    requires IsChain(parsed, name, chain) && |chain| > 1 && Fold(parsed, chain) == Ok(p) && i < |chain|
    ensures var a, d := parsed[chain[i]], Judge(Some(p), req, now, pipelines);
      && (req.action !in {ListDatabases, DbStats, Logs, AggregateDb} && req.collection in a.collections.deny ==> d.status.Denied?)
      && (ActionName(req.action) in a.actions.deny ==> d.status.Denied?)
      && (((a.approveCritical && ChangesAll(req)) || (a.approveHigh && ChangesMuch(req))) ==> !d.status.Allowed?)
  {
    ResolvedSays(parsed, name, chain, p, req.collection, "");
    ResolvedSays(parsed, name, chain, p, ActionName(req.action), "");
    JudgedExactly(Some(p), req, now, pipelines);
    var a := parsed[chain[i]];
    assert DeniesCollection(req.collection)(a) ==> Somewhere(parsed, chain, DeniesCollection(req.collection));
    assert DeniesAction(ActionName(req.action))(a) ==> Somewhere(parsed, chain, DeniesAction(ActionName(req.action)));
    assert BlockFor(p, req.database).None? by { MergeDropsDatabases(parsed, name, chain, p); }
    assert GatesHigh()(a) ==> Somewhere(parsed, chain, GatesHigh());
    assert GatesCritical()(a) ==> Somewhere(parsed, chain, GatesCritical());
  }

  /** So a child's own restriction to a database is void exactly when it extends something: the
      resolved policy permits a database that its own text does not. */
  lemma ExtendingVoidsDatabaseRule(parsed: Parsed, name: string, chain: seq<string>, p: Policy, d: string)
    requires IsChain(parsed, name, chain) && Fold(parsed, chain) == Ok(p)
    requires parsed[name].databasesAllow != [] && d !in parsed[name].databasesAllow
    ensures DatabasePermitted(p, Some(d)) <==> parsed[name].base.Some?
  {
    if |chain| > 1 {
      MergeDropsDatabases(parsed, name, chain, p);
      ChainTail(parsed, name, chain);
    }
  }
}
