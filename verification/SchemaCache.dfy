/** The cache of sampled schemas: bounded, evicting the least recently used, with an expiry. */
module SchemaCache {
  import opened Common
  import opened Marshal
  import opened FieldStats

  const CACHE_MAX := 256

  /** The database (none for the default one) and the collection. */
  type Key = (Option<string>, string)

  /** What is derived from one sample of documents. */
  datatype Derived = Derived(schema: map<string, Shown>, types: TypeMap, stats: map<string, Stat>)

  /** A field is shown by its one type, or by the labels it was inferred to have. */
  datatype Shown = Canonical(t: Token) | Inferred(labels: seq<string>)

  datatype CacheEntry = CacheEntry(derived: Derived, expiry: real)

  /** A sample and when it was stored; kept for the specification. */
  datatype Sample = Sample(docs: seq<Bson>, at: real)

  /** `_display_schema`: inferred labels fill in for fields without one type. */
  function DisplaySchema(types: TypeMap, inferred: map<string, seq<string>>): map<string, Shown> {
    map k | k in types.Keys + inferred.Keys :: if k in types then Canonical(types[k]) else Inferred(inferred[k])
  }

  /** All three views are of these documents. */
  ghost predicate DerivedFrom(d: Derived, docs: seq<Bson>, infer: seq<Bson> -> map<string, seq<string>>,
    sort: seq<Bson> -> seq<Bson>) {
    && d.schema == DisplaySchema(d.types, infer(docs))
    && TypesAre(d.types, docs)
    && (forall k :: k in d.stats <==> Occurrences(docs, k) != [])
    && (forall k :: k in d.stats ==> d.stats[k] == StatOf(|docs|, false, TallyOf(false, Occurrences(docs, k)), sort))
  }

  // ---------------------------------------------------------- recency of use

  function Without<T(==)>(s: seq<T>, x: T): seq<T> {
    if s == [] then [] else (if s[0] == x then [] else [s[0]]) + Without(s[1..], x)
  }

  /** The keys in the order of their last use, the latest at the end. */
  function Recent<T(==)>(uses: seq<T>): seq<T> {
    if uses == [] then [] else Without(Recent(uses[..|uses| - 1]), Last(uses)) + [Last(uses)]
  }

  /** The last `n` elements, or all. */
  function Latest<T>(s: seq<T>, n: nat): seq<T> { if |s| <= n then s else s[|s| - n..] }

  lemma {:induction false} WithoutKeeps<T>(s: seq<T>, x: T)
    ensures forall y :: y in Without(s, x) <==> y in s && y != x
    ensures x !in s ==> Without(s, x) == s
  {
    if s != [] {
      WithoutKeeps(s[1..], x);
      assert s == [s[0]] + s[1..];
    }
  }

  lemma NoDupCons<T>(x: T, s: seq<T>)
    ensures NoDup([x] + s) <==> x !in s && NoDup(s)
  {
    var all := [x] + s;
    assert all[1..] == s;
    if NoDup(all) {
      forall i | 0 <= i < |s| ensures s[i] != x { assert all[i + 1] == s[i] && all[0] == x; }
      forall i, j | 0 <= i < j < |s| ensures s[i] != s[j] { assert all[i + 1] == s[i] && all[j + 1] == s[j]; }
    }
  }

  lemma {:induction false} WithoutDistinct<T>(s: seq<T>, x: T)
    requires NoDup(s)
    ensures NoDup(Without(s, x)) && |Without(s, x)| == if x in s then |s| - 1 else |s|
  {
    if s != [] {
      assert s == [s[0]] + s[1..];
      NoDupCons(s[0], s[1..]);
      WithoutDistinct(s[1..], x);
      WithoutKeeps(s[1..], x);
      NoDupCons(s[0], Without(s[1..], x));
    }
  }

  lemma NoDupSnoc<T>(s: seq<T>, x: T)
    requires NoDup(s) && x !in s
    ensures NoDup(s + [x])
  {
  }

  lemma ElementsSnoc<T>(s: seq<T>, x: T)
    ensures Elements(s + [x]) == Elements(s) + {x}
  {
  }

  /** Moving `x` to the end, or adding it there. */
  lemma MovedToEnd<T>(s: seq<T>, x: T)
    requires NoDup(s)
    ensures NoDup(Without(s, x) + [x]) && Elements(Without(s, x) + [x]) == Elements(s) + {x}
    ensures |Without(s, x) + [x]| == if x in s then |s| else |s| + 1
  {
    var w := Without(s, x);
    WithoutKeeps(s, x);
    WithoutDistinct(s, x);
    NoDupSnoc(w, x);
    ElementsSnoc(w, x);
    assert Elements(w) == Elements(s) - {x};
  }

  lemma {:induction false} WithoutAppend<T>(a: seq<T>, b: seq<T>, x: T)
    ensures Without(a + b, x) == Without(a, x) + Without(b, x)
  {
    if a == [] {
      assert a + b == b;
    } else {
      WithoutAppend(a[1..], b, x);
      assert (a + b)[1..] == a[1..] + b && (a + b)[0] == a[0];
      Regroup(if a[0] == x then [] else [a[0]], Without(a[1..], x), Without(b, x));
    }
  }

  lemma {:induction false} RecentDistinct<T>(uses: seq<T>)
    ensures NoDup(Recent(uses))
    ensures Elements(Recent(uses)) == Elements(uses)
  {
    if uses != [] {
      var rest := uses[..|uses| - 1];
      RecentDistinct(rest);
      MovedToEnd(Recent(rest), Last(uses));
      assert uses == rest + [Last(uses)];
    }
  }

  lemma LatestOfAppend<T>(a: seq<T>, b: seq<T>, n: nat)
    requires |b| >= n || a == []
    ensures Latest(a + b, n) == Latest(b, n)
  {
    if a == [] { assert a + b == b; }
  }

  lemma LatestDistinct<T>(r: seq<T>, n: nat)
    requires NoDup(r)
    ensures NoDup(Latest(r, n)) && |Latest(r, n)| <= n
  {
  }

  /** Using `x` moves it to the end of the latest `n`; if it was not among them and they are full,
      the first of them drops out. */
  lemma LatestAfterUse<T>(r: seq<T>, n: nat, x: T)
    requires NoDup(r)
    ensures Latest(Without(r, x) + [x], n) == Latest(Without(Latest(r, n), x) + [x], n)
  {
    var cut := if |r| <= n then 0 else |r| - n;
    var gone, kept := r[..cut], r[cut..];
    assert r == gone + kept && kept == Latest(r, n);
    WithoutAppend(gone, kept, x);
    WithoutDistinct(kept, x);
    assert Without(r, x) + [x] == Without(gone, x) + (Without(kept, x) + [x]);
    LatestOfAppend(Without(gone, x), Without(kept, x) + [x], n);
  }

  // ------------------------------------------------------------------- cache

  /** `move_to_end`, also of a key that was not there. */
  function Bumped<T(==)>(s: seq<T>, x: T): seq<T> { Without(s, x) + [x] }

  lemma BumpedOrder(uses: seq<Key>, key: Key)
    ensures var order := Latest(Recent(uses), CACHE_MAX);
      && NoDup(Bumped(order, key)) && Bumped(order, key) != [] && Last(Bumped(order, key)) == key
      && Elements(Bumped(order, key)) == Elements(order) + {key}
      && (key in order ==> |Bumped(order, key)| <= CACHE_MAX)
      && Latest(Bumped(order, key), CACHE_MAX) == Latest(Recent(uses + [key]), CACHE_MAX)
  {
    var order := Latest(Recent(uses), CACHE_MAX);
    RecentDistinct(uses);
    LatestDistinct(Recent(uses), CACHE_MAX);
    MovedToEnd(order, key);
    LatestAfterUse(Recent(uses), CACHE_MAX, key);
    assert (uses + [key])[..|uses|] == uses;
  }

  /** The bounded dictionary: keys in order of use, and what is stored under them. */
  class LruCache {
    var order: seq<Key>
    var entries: map<Key, CacheEntry>
    ghost var uses: seq<Key>

    /** It holds exactly the keys used most recently, in order of use. */
    ghost predicate Valid()
      reads this
    {
      order == Latest(Recent(uses), 256) && entries.Keys == Elements(order)
    }

    constructor ()
      ensures Valid() && uses == [] && entries == map[]
    {
      order, entries, uses := [], map[], [];
    }

    method Touch(key: Key)
      requires Valid() && key in entries
      modifies this`order, this`uses
      ensures Valid() && uses == old(uses) + [key]
    {
      BumpedOrder(uses, key);
      order := Bumped(order, key);
      uses := uses + [key];
    }

    method Put(key: Key, e: CacheEntry)
      requires Valid()
      modifies this
      ensures Valid() && uses == old(uses) + [key]
      ensures key in entries && entries[key] == e
      ensures forall k :: k in entries && k != key ==> k in old(entries) && entries[k] == old(entries[k])
    {
      BumpedOrder(uses, key);
      ghost var all := entries[key := e];
      entries := entries[key := e];
      order := Bumped(order, key);
      uses := uses + [key];
      Evict();
      assert key in entries && forall k :: k in entries ==> k in all && entries[k] == all[k];
    }

    /** Drops keys from the front until there are no more than the maximum. */
    method Evict()
      requires NoDup(order) && order != [] && entries.Keys == Elements(order)
      modifies this`order, this`entries
      ensures order == Latest(old(order), CACHE_MAX)
      ensures entries.Keys == Elements(order) && Last(old(order)) in entries
      ensures forall k :: k in entries ==> k in old(entries) && entries[k] == old(entries[k])
    {
      while |order| > CACHE_MAX
        invariant Latest(order, CACHE_MAX) == Latest(old(order), CACHE_MAX)
        invariant NoDup(order) && order != [] && Last(order) == Last(old(order)) && entries.Keys == Elements(order)
        invariant forall k :: k in entries ==> k in old(entries) && entries[k] == old(entries[k])
        decreases |order|
      {
        DropFirst(order);
        entries, order := entries - {order[0]}, order[1..];
      }
    }
  }

  /** Each entry holds what was derived from the sample stored for its key, until `ttl` after. */
  ghost predicate Honest(entries: map<Key, CacheEntry>, samples: map<Key, Sample>, ttl: real,
                         infer: seq<Bson> -> map<string, seq<string>>, sort: seq<Bson> -> seq<Bson>) {
    forall k :: k in entries ==>
      k in samples && DerivedFrom(entries[k].derived, samples[k].docs, infer, sort) && entries[k].expiry == samples[k].at + ttl
  }

  lemma HonestPut(before: map<Key, CacheEntry>, after: map<Key, CacheEntry>, samples: map<Key, Sample>, ttl: real,
                  infer: seq<Bson> -> map<string, seq<string>>, sort: seq<Bson> -> seq<Bson>, key: Key, d: Derived,
                  docs: seq<Bson>, now: real)
    requires Honest(before, samples, ttl, infer, sort) && DerivedFrom(d, docs, infer, sort)
    requires key in after && after[key] == CacheEntry(d, now + ttl)
    requires forall k :: k in after && k != key ==> k in before && after[k] == before[k]
    ensures Honest(after, samples[key := Sample(docs, now)], ttl, infer, sort)
  {
  }

  /** The schema cache over the dictionary. */
  class Cache {
    const ttl: real
    const infer: seq<Bson> -> map<string, seq<string>>
    const sort: seq<Bson> -> seq<Bson>
    const lru: LruCache
    ghost var samples: map<Key, Sample>

    ghost predicate Valid()
      reads this, lru
    {
      lru.Valid() && Honest(lru.entries, samples, ttl, infer, sort)
    }

    constructor (ttl: real, infer: seq<Bson> -> map<string, seq<string>>, sort: seq<Bson> -> seq<Bson>)
      ensures Valid() && fresh(lru) && lru.uses == [] && this.ttl == ttl && this.infer == infer && this.sort == sort
    {
      this.ttl, this.infer, this.sort, samples := ttl, infer, sort, map[];
      lru := new LruCache();
    }

    /** The first half of `_sample_schema`. A hit is a sample stored less than `ttl` before; its key
        becomes the one used last. */
    method Lookup(key: Key, now: real) returns (hit: Option<Derived>)
      requires Valid()
      modifies lru`order, lru`uses
      ensures Valid()
      ensures hit.Some? <==> ttl > 0.0 && key in lru.entries && now - samples[key].at < ttl
      ensures hit.Some? ==> DerivedFrom(hit.value, samples[key].docs, infer, sort)
      ensures lru.uses == if hit.Some? then old(lru.uses) + [key] else old(lru.uses)
    {
      if ttl > 0.0 && key in lru.entries && now < lru.entries[key].expiry {
        lru.Touch(key);
        return Some(lru.entries[key].derived);
      }
      return None;
    }

    /** The second half, once the documents are there. */
    method Store(key: Key, docs: seq<Bson>, now: real) returns (d: Derived)
      requires Valid()
      modifies this, lru
      ensures Valid() && DerivedFrom(d, docs, infer, sort)
      ensures ttl > 0.0 ==>
        lru.uses == old(lru.uses) + [key] && key in lru.entries && lru.entries[key].derived == d
        && samples == old(samples)[key := Sample(docs, now)]
      ensures ttl <= 0.0 ==> lru.uses == old(lru.uses) && lru.entries == old(lru.entries)
    {
      var types := BuildTypeMap(docs);
      var stats := BuildFieldStats(docs, [], sort);
      d := Derived(DisplaySchema(types, infer(docs)), types, stats);
      if ttl > 0.0 {
        ghost var before := lru.entries;
        lru.Put(key, CacheEntry(d, now + ttl));
        HonestPut(before, lru.entries, samples, ttl, infer, sort, key, d, docs, now);
        samples := samples[key := Sample(docs, now)];
      }
    }
  }

  lemma DropFirst<T>(s: seq<T>)
    requires NoDup(s) && |s| > CACHE_MAX
    ensures Elements(s[1..]) == Elements(s) - {s[0]} && NoDup(s[1..])
    ensures Latest(s[1..], CACHE_MAX) == Latest(s, CACHE_MAX)
  {
    assert s == [s[0]] + s[1..];
    NoDupCons(s[0], s[1..]);
  }

  /** What the invariant of the cache says to its user: it never holds more than its maximum, and
      holds exactly the keys with fewer than that many others used since. */
  lemma CacheBounded(uses: seq<Key>)
    ensures |Latest(Recent(uses), CACHE_MAX)| <= 256 && NoDup(Latest(Recent(uses), CACHE_MAX))
    ensures |Elements(uses)| <= 256 ==> Elements(Latest(Recent(uses), CACHE_MAX)) == Elements(uses)
  {
    RecentDistinct(uses);
    LatestDistinct(Recent(uses), CACHE_MAX);
    DistinctCount(Recent(uses));
  }

  lemma {:induction false} DistinctCount<T>(s: seq<T>)
    requires NoDup(s)
    ensures |Elements(s)| == |s|
  {
    if s != [] {
      assert s == [s[0]] + s[1..];
      NoDupCons(s[0], s[1..]);
      DistinctCount(s[1..]);
      assert Elements(s) == Elements(s[1..]) + {s[0]};
    }
  }

  // ------------------------------------------------------------ masked stats

  /** `field_stats` masks as it reads. */
  function Redacted(stats: map<string, Stat>, masked: set<string>): map<string, Stat> {
    map k | k in stats :: if k in masked then stats[k].(distinct := None, values := None) else stats[k]
  }

  /** A masked field keeps neither its distinct count nor sample values; the dates that bound it
      stay, so it carries no sampled value exactly when the sample has no date in it. */
  lemma RedactedCarriesNothingExactly(d: Derived, docs: seq<Bson>, infer: seq<Bson> -> map<string, seq<string>>,
                                      sort: seq<Bson> -> seq<Bson>, masked: set<string>, key: string)
    requires DerivedFrom(d, docs, infer, sort) && key in d.stats && key in masked
    ensures var st := Redacted(d.stats, masked)[key];
      && st.distinct.None? && st.values.None?
      && (st.range.None? <==> forall v :: v in Occurrences(docs, key) ==> !v.Date?)
  {
    StatsExact(docs, key, false, sort);
  }
}
