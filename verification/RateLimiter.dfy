/** The per-agent token bucket, proved over whole runs: what one agent is granted depends
    on the times of its own checks alone, and is bounded in every window of time. */
module RateLimiter {

  const IDLE_SECONDS := 3600.0
  const EVICT_AT := 1024

  /** `rps` and `burst`; the floats of the program are reals here. */
  datatype Config = Config(rps: real, burst: int) {
    predicate Enabled() { rps > 0.0 }
  }

  datatype Bucket = Bucket(tokens: real, lastRefill: real)

  /** One call of `check`. The bucket of an agent not seen before reads the clock at
      `created`, before the `now` that every check reads. */
  datatype Call = Call(agent: string, created: real, now: real)

  function Min(a: real, b: real): real { if a <= b then a else b }

  // ------------------------------------------------------------ one bucket

  function Refill(cfg: Config, b: Bucket, now: real): real {
    Min(cfg.burst as real, b.tokens + (now - b.lastRefill) * cfg.rps)
  }

  predicate Stale(cfg: Config, b: Bucket, now: real) {
    now - b.lastRefill > IDLE_SECONDS && b.tokens >= cfg.burst as real
  }

  function Evicted(cfg: Config, m: map<string, Bucket>, now: real): map<string, Bucket> {
    if |m| < EVICT_AT then m else map a | a in m && !Stale(cfg, m[a], now) :: m[a]
  }

  function BucketOf(cfg: Config, m: map<string, Bucket>, c: Call): Bucket {
    if c.agent in m then m[c.agent] else Bucket(cfg.burst as real, c.created)
  }

  function Pay(available: real): real { if available >= 1.0 then available - 1.0 else available }

  /** What one check answers, and what it makes of the bucket map. */
  predicate Allowed(cfg: Config, m: map<string, Bucket>, c: Call) {
    cfg.Enabled() ==> Refill(cfg, BucketOf(cfg, m, c), c.now) >= 1.0
  }

  function Checked(cfg: Config, m: map<string, Bucket>, c: Call): map<string, Bucket> {
    if !cfg.Enabled() then m
    else Evicted(cfg, m[c.agent := Bucket(Pay(Refill(cfg, BucketOf(cfg, m, c), c.now)), c.now)], c.now)
  }

  /** The limiter's two dictionaries. The lock of an agent is present from its first check
      until its bucket is evicted. */
  class RateLimiter {
    const cfg: Config
    var buckets: map<string, Bucket>
    var locks: set<string>

    constructor (cfg: Config)
      ensures this.cfg == cfg && buckets == map[] && locks == {}
    {
      this.cfg := cfg;
      buckets, locks := map[], {};
    }

    method Check(c: Call) returns (allowed: bool)
      requires locks == buckets.Keys
      modifies this
      ensures locks == buckets.Keys
      ensures allowed == Allowed(cfg, old(buckets), c)
      ensures buckets == Checked(cfg, old(buckets), c)
    {
      if !cfg.Enabled() {
        return true;
      }
      locks := locks + {c.agent};
      if c.agent !in buckets {
        buckets := buckets[c.agent := Bucket(cfg.burst as real, c.created)];
      }
      var bucket := buckets[c.agent];
      bucket := Bucket(Refill(cfg, bucket, c.now), c.now);
      allowed := bucket.tokens >= 1.0;
      if allowed {
        bucket := bucket.(tokens := bucket.tokens - 1.0);
      }
      buckets := buckets[c.agent := bucket];
      assert bucket == Bucket(Pay(Refill(cfg, BucketOf(cfg, old(buckets), c), c.now)), c.now);
      assert buckets == old(buckets)[c.agent := bucket];
      MaybeEvict(c.now);
    }

    method MaybeEvict(now: real)
      requires locks == buckets.Keys
      modifies this
      ensures locks == buckets.Keys
      ensures buckets == Evicted(cfg, old(buckets), now)
    {
      if |buckets| < EVICT_AT {
        return;
      }
      var stale := set a | a in buckets && Stale(cfg, buckets[a], now);
      while stale != {}
        invariant locks == buckets.Keys
        invariant forall a :: a in buckets ==> a in old(buckets) && buckets[a] == old(buckets)[a]
        invariant forall a :: a in old(buckets) && a !in buckets ==> Stale(cfg, old(buckets)[a], now)
        invariant stale == set a | a in buckets && Stale(cfg, buckets[a], now)
      {
        var a :| a in stale;
        stale := stale - {a};
        buckets := buckets - {a};
        locks := locks - {a};
      }
      forall a ensures a in buckets <==> a in old(buckets) && !Stale(cfg, old(buckets)[a], now) {
        assert a in stale <==> a in buckets && Stale(cfg, buckets[a], now);
      }
      assert buckets == Evicted(cfg, old(buckets), now);
    }
  }

  // ----------------------------------------------- the account of one agent

  /** Times in units of tokens: the refill between two of them is their difference. */
  function Credits(cfg: Config, ts: seq<real>): (us: seq<real>)
    ensures |us| == |ts|
    ensures forall i :: 0 <= i < |ts| ==> us[i] == cfg.rps * ts[i]
  {
    seq(|ts|, i requires 0 <= i < |ts| => cfg.rps * ts[i])
  }

  /** The tokens an agent holds at its latest check, before paying for it, when the credit
      times of its checks so far are `us`: no map, no eviction, no other agent. */
  function Available(burst: int, us: seq<real>): real
    requires us != []
    decreases |us|, 0
  {
    var n := |us| - 1;
    if n == 0 then burst as real
    else Min(burst as real, Left(burst, us[..n]) + (us[n] - us[n-1]))
  }

  function Left(burst: int, us: seq<real>): real
    requires us != []
    decreases |us|, 1
  {
    Pay(Available(burst, us))
  }

  predicate Granted(burst: int, us: seq<real>)
    requires us != []
  {
    Available(burst, us) >= 1.0
  }

  ghost predicate Nondecreasing(ts: seq<real>) {
    forall i, j :: 0 <= i < j < |ts| ==> ts[i] <= ts[j]
  }

  /** How many of the checks `i`, ..., `j - 1` are granted. */
  function Grants(burst: int, us: seq<real>, i: nat, j: nat): nat
    requires i <= j <= |us|
    decreases j
  {
    if i == j then 0
    else Grants(burst, us, i, j - 1) + (if Granted(burst, us[..j]) then 1 else 0)
  }

  // ------------------------------------------------------ bounds on grants

  /** Below a burst of one nothing is ever granted, and the balance never moves. */
  lemma {:induction false} NoBurst(burst: int, us: seq<real>)
    requires burst < 1 && us != [] && Nondecreasing(us)
    ensures Available(burst, us) == Left(burst, us) == burst as real
    decreases |us|
  {
    var n := |us| - 1;
    if n > 0 {
      NoBurst(burst, us[..n]);
    }
  }

  /** A bucket that was charged against is below its burst, so it is never stale. */
  lemma SpentBelowBurst(burst: int, us: seq<real>)
    requires burst >= 1 && us != []
    ensures Left(burst, us) < burst as real
  {
    assert Available(burst, us) <= burst as real;
  }

  /** In the window that opens with check `i`, what is left is at most the burst plus the
      refill minus what was granted. */
  lemma {:induction false} LeftAtMost(burst: int, us: seq<real>, i: nat, j: nat)
    requires i <= j < |us|
    ensures Left(burst, us[..j+1]) <= burst as real + (us[j] - us[i]) - Grants(burst, us, i, j + 1) as real
    decreases j
  {
    var p := us[..j+1];
    assert Grants(burst, us, i, j + 1) == Grants(burst, us, i, j) + (if Granted(burst, p) then 1 else 0);
    if i < j {
      LeftAtMost(burst, us, i, j - 1);
      assert p[..j] == us[..j];
    }
  }

  lemma {:induction false} LeftNotNegative(burst: int, us: seq<real>)
    requires burst >= 0 && us != [] && Nondecreasing(us)
    ensures Left(burst, us) >= 0.0
    decreases |us|
  {
    var n := |us| - 1;
    if n > 0 {
      LeftNotNegative(burst, us[..n]);
      assert us[n-1] <= us[n];
    }
  }

  /** The balance in closed form: it is at most the refill since any earlier check, minus
      what was granted since, and equals it for one of them (the last time the bucket was
      full). No grant is withheld while every window still has room. */
  lemma {:induction false} BalanceIsTightestWindow(burst: int, us: seq<real>, n: nat) returns (i: nat)
    requires n < |us|
    ensures i <= n
    ensures Available(burst, us[..n+1]) == burst as real + (us[n] - us[i]) - Grants(burst, us, i, n) as real
    ensures forall k :: 0 <= k <= n ==>
      Available(burst, us[..n+1]) <= burst as real + (us[n] - us[k]) - Grants(burst, us, k, n) as real
    decreases n
  {
    var p := us[..n+1];
    if n == 0 {
      i := 0;
    } else {
      assert p[..n] == us[..n];
      var before := Available(burst, us[..n]);
      var refilled := Pay(before) + (us[n] - us[n-1]);
      assert Available(burst, p) == Min(burst as real, refilled);
      if burst as real <= refilled {
        i := n;
      } else {
        i := BalanceIsTightestWindow(burst, us, n - 1);
        assert Grants(burst, us, i, n) == Grants(burst, us, i, n - 1) + (if Granted(burst, us[..n]) then 1 else 0);
      }
      forall k | 0 <= k <= n
        ensures Available(burst, p) <= burst as real + (us[n] - us[k]) - Grants(burst, us, k, n) as real
      {
        if k < n {
          LeftAtMost(burst, us, k, n - 1);
        }
      }
    }
  }

  lemma {:induction false} AllGranted(burst: int, us: seq<real>, i: nat, j: nat)
    requires i <= j <= |us|
    requires forall k :: i < k <= j ==> Granted(burst, us[..k])
    ensures Grants(burst, us, i, j) == j - i
    decreases j
  {
    if i < j {
      AllGranted(burst, us, i, j - 1);
    }
  }

  ghost predicate WindowsFit(burst: int, us: seq<real>) {
    forall i, j :: 0 <= i <= j < |us| ==> (j - i + 1) as real <= burst as real + (us[j] - us[i])
  }

  lemma {:induction false} FittingPrefix(burst: int, us: seq<real>, k: nat)
    requires WindowsFit(burst, us) && 0 < k <= |us|
    ensures forall m :: 0 < m <= k ==> Granted(burst, us[..m])
    decreases k
  {
    if k > 1 {
      FittingPrefix(burst, us, k - 1);
    }
    var i := BalanceIsTightestWindow(burst, us, k - 1);
    AllGranted(burst, us, i, k - 1);
    assert (k - 1 - i + 1) as real <= burst as real + (us[k-1] - us[i]);
  }

  lemma GrantedFits(burst: int, us: seq<real>, i: nat, j: nat)
    requires Nondecreasing(us) && i <= j < |us|
    requires forall k :: 0 < k <= |us| ==> Granted(burst, us[..k])
    ensures (j - i + 1) as real <= burst as real + (us[j] - us[i])
  {
    AllGranted(burst, us, i, j + 1);
    LeftAtMost(burst, us, i, j);
    assert Granted(burst, us[..j+1]);
  }

  lemma CreditsNondecreasing(cfg: Config, ts: seq<real>)
    requires cfg.rps > 0.0 && Nondecreasing(ts)
    ensures Nondecreasing(Credits(cfg, ts))
  {
    var us := Credits(cfg, ts);
    forall i, j | 0 <= i < j < |us| ensures us[i] <= us[j] {
      assert ts[j] - ts[i] >= 0.0;
      assert cfg.rps * (ts[j] - ts[i]) >= 0.0;
      CreditGap(cfg, ts, i, j);
    }
  }

  lemma CreditsAppend(cfg: Config, ts: seq<real>, t: real)
    ensures Credits(cfg, ts + [t]) == Credits(cfg, ts) + [cfg.rps * t]
  {
    var ts' := ts + [t];
    forall i | 0 <= i < |ts'| ensures Credits(cfg, ts')[i] == (Credits(cfg, ts) + [cfg.rps * t])[i] {
      if i < |ts| {
        assert ts'[i] == ts[i];
      }
    }
  }

  lemma CreditGap(cfg: Config, ts: seq<real>, i: nat, j: nat)
    requires i < |ts| && j < |ts|
    ensures Credits(cfg, ts)[j] - Credits(cfg, ts)[i] == cfg.rps * (ts[j] - ts[i])
  {
  }

  /** What a limiter may grant between the times `s` and `t`. */
  function Allowance(cfg: Config, s: real, t: real): real {
    cfg.burst as real + cfg.rps * (t - s)
  }

  /** Between any two checks of an agent, at times `ts[i]` and `ts[j]`, at most
      `burst + rps * (ts[j] - ts[i])` are granted. */
  lemma WindowBound(cfg: Config, ts: seq<real>, i: nat, j: nat)
    requires cfg.rps > 0.0 && cfg.burst >= 0 && Nondecreasing(ts) && i <= j < |ts|
    ensures Grants(cfg.burst, Credits(cfg, ts), i, j + 1) as real <= Allowance(cfg, ts[i], ts[j])
  {
    var us := Credits(cfg, ts);
    CreditsNondecreasing(cfg, ts);
    LeftAtMost(cfg.burst, us, i, j);
    LeftNotNegative(cfg.burst, us[..j+1]);
    CreditGap(cfg, ts, i, j);
  }

  /** Traffic conforms when every window of checks fits the burst and the rate. */
  ghost predicate Conforms(cfg: Config, ts: seq<real>) {
    forall i, j :: 0 <= i <= j < |ts| ==> (j - i + 1) as real <= Allowance(cfg, ts[i], ts[j])
  }

  /** Exactly the conforming traffic is granted in full: a limiter that refused one check
      too many, or granted one too many, breaks one of the two directions. */
  lemma ConformingTrafficExactly(cfg: Config, ts: seq<real>)
    requires cfg.rps > 0.0 && Nondecreasing(ts)
    ensures Conforms(cfg, ts) <==> forall k :: 0 < k <= |ts| ==> Granted(cfg.burst, Credits(cfg, ts)[..k])
  {
    var us := Credits(cfg, ts);
    CreditsNondecreasing(cfg, ts);
    forall i, j | 0 <= i <= j < |ts| ensures us[j] - us[i] == cfg.rps * (ts[j] - ts[i]) {
      CreditGap(cfg, ts, i, j);
    }
    assert Conforms(cfg, ts) <==> WindowsFit(cfg.burst, us);
    if WindowsFit(cfg.burst, us) && us != [] {
      FittingPrefix(cfg.burst, us, |us|);
    }
    if forall k :: 0 < k <= |us| ==> Granted(cfg.burst, us[..k]) {
      forall i, j | 0 <= i <= j < |us| ensures (j - i + 1) as real <= cfg.burst as real + (us[j] - us[i]) {
        GrantedFits(cfg.burst, us, i, j);
      }
    }
  }

  // ---------------------------------------------------- the limiter's runs

  function TimesOf(calls: seq<Call>, agent: string): seq<real> {
    if calls == [] then []
    else
      var c := calls[|calls| - 1];
      TimesOf(calls[..|calls| - 1], agent) + (if c.agent == agent then [c.now] else [])
  }

  function BucketsAfter(cfg: Config, calls: seq<Call>): map<string, Bucket> {
    if calls == [] then map[]
    else Checked(cfg, BucketsAfter(cfg, calls[..|calls| - 1]), calls[|calls| - 1])
  }

  /** The answer the limiter gives to the last call of a run. */
  predicate Answer(cfg: Config, calls: seq<Call>)
    requires calls != []
  {
    Allowed(cfg, BucketsAfter(cfg, calls[..|calls| - 1]), calls[|calls| - 1])
  }

  /** The clock never runs backwards. */
  ghost predicate Clocked(calls: seq<Call>) {
    && (forall i :: 0 <= i < |calls| ==> calls[i].created <= calls[i].now)
    && (forall i, j :: 0 <= i < j < |calls| ==> calls[i].now <= calls[j].created)
  }

  lemma {:induction false} TimesAreOfCalls(calls: seq<Call>, agent: string, t: real)
    requires t in TimesOf(calls, agent)
    ensures exists i :: 0 <= i < |calls| && calls[i].now == t && calls[i].agent == agent
  {
    var rest, c := calls[..|calls| - 1], calls[|calls| - 1];
    if t in TimesOf(rest, agent) {
      TimesAreOfCalls(rest, agent, t);
      var i :| 0 <= i < |rest| && rest[i].now == t && rest[i].agent == agent;
      assert calls[i] == rest[i];
    } else {
      assert c == calls[|calls| - 1];
    }
  }

  lemma {:induction false} TimesNondecreasing(calls: seq<Call>, agent: string)
    requires Clocked(calls)
    ensures Nondecreasing(TimesOf(calls, agent))
  {
    if calls != [] {
      var rest, c := calls[..|calls| - 1], calls[|calls| - 1];
      TimesNondecreasing(rest, agent);
      forall t | t in TimesOf(rest, agent) ensures t <= c.now {
        TimesAreOfCalls(rest, agent, t);
      }
      var ts := TimesOf(rest, agent);
      assert forall i :: 0 <= i < |ts| ==> ts[i] in ts;
    }
  }

  lemma {:induction false} TimesEmptyIffAbsent(calls: seq<Call>, a: string)
    ensures TimesOf(calls, a) == [] <==> forall c :: c in calls ==> c.agent != a
  {
    if calls != [] {
      var rest := calls[..|calls| - 1];
      TimesEmptyIffAbsent(rest, a);
      assert forall c :: c in calls <==> c in rest || c == calls[|calls| - 1];
    }
  }

  /** The bucket an agent has in the shared map is the account of that agent alone. A bucket
      can be missing after checks only when the burst is below one. */
  ghost predicate Tracks(cfg: Config, m: map<string, Bucket>, ts: seq<real>, a: string) {
    if a in m then ts != [] && m[a] == Bucket(Left(cfg.burst, Credits(cfg, ts)), ts[|ts| - 1])
    else ts == [] || cfg.burst < 1
  }

  /** The check itself: the refilled bucket is the account's balance. */
  lemma RefillTracks(cfg: Config, m: map<string, Bucket>, ts: seq<real>, c: Call)
    requires cfg.rps > 0.0 && c.created <= c.now && Nondecreasing(ts + [c.now])
    requires Tracks(cfg, m, ts, c.agent)
    ensures Refill(cfg, BucketOf(cfg, m, c), c.now) == Available(cfg.burst, Credits(cfg, ts + [c.now]))
  {
    var ts' := ts + [c.now];
    var us' := Credits(cfg, ts');
    var n := |ts|;
    CreditsNondecreasing(cfg, ts');
    if c.agent in m {
      CreditsAppend(cfg, ts, c.now);
      assert us'[..n] == Credits(cfg, ts);
      CreditGap(cfg, ts', n - 1, n);
    } else {
      assert (c.now - c.created) * cfg.rps >= 0.0;
      if ts != [] {
        NoBurst(cfg.burst, us');
      }
    }
  }

  lemma EvictionKeepsTrack(cfg: Config, m: map<string, Bucket>, ts: seq<real>, a: string, now: real)
    requires Tracks(cfg, m, ts, a)
    ensures Tracks(cfg, Evicted(cfg, m, now), ts, a)
    ensures cfg.burst >= 1 && a in m ==> a in Evicted(cfg, m, now)
  {
    if a in m && cfg.burst >= 1 {
      SpentBelowBurst(cfg.burst, Credits(cfg, ts));
    }
  }

  /** Refinement: the limiter with its shared map and its evictions tracks, for every agent,
      the account of that agent alone. */
  lemma {:induction false} BucketsTrack(cfg: Config, calls: seq<Call>, a: string)
    requires cfg.rps > 0.0 && Clocked(calls)
    ensures Tracks(cfg, BucketsAfter(cfg, calls), TimesOf(calls, a), a)
  {
    if calls != [] {
      var rest, c := calls[..|calls| - 1], calls[|calls| - 1];
      var m := BucketsAfter(cfg, rest);
      BucketsTrack(cfg, rest, a);
      var m1 := m[c.agent := Bucket(Pay(Refill(cfg, BucketOf(cfg, m, c), c.now)), c.now)];
      if a == c.agent {
        TimesNondecreasing(calls, a);
        assert TimesOf(calls, a) == TimesOf(rest, a) + [c.now];
        RefillTracks(cfg, m, TimesOf(rest, a), c);
      } else {
        assert TimesOf(calls, a) == TimesOf(rest, a);
      }
      assert Tracks(cfg, m1, TimesOf(calls, a), a);
      EvictionKeepsTrack(cfg, m1, TimesOf(calls, a), a, c.now);
    }
  }

  /** Whatever other agents do and whatever is evicted, a check is granted exactly when the
      account built from that agent's own check times holds a token. */
  lemma AnswersAreIsolated(cfg: Config, calls: seq<Call>)
    requires cfg.rps > 0.0 && Clocked(calls) && calls != []
    ensures TimesOf(calls, calls[|calls| - 1].agent) != []
    ensures Answer(cfg, calls) == Granted(cfg.burst, Credits(cfg, TimesOf(calls, calls[|calls| - 1].agent)))
  {
    var rest, c := calls[..|calls| - 1], calls[|calls| - 1];
    BucketsTrack(cfg, rest, c.agent);
    TimesNondecreasing(calls, c.agent);
    RefillTracks(cfg, BucketsAfter(cfg, rest), TimesOf(rest, c.agent), c);
  }

  /** A limiter without a rate lets everything through and keeps no bucket. */
  lemma {:induction false} UnlimitedAllowsAll(cfg: Config, calls: seq<Call>)
    requires cfg.rps <= 0.0
    ensures BucketsAfter(cfg, calls) == map[] && (calls != [] ==> Answer(cfg, calls))
  {
    if calls != [] { UnlimitedAllowsAll(cfg, calls[..|calls| - 1]); }
  }

  /** An eviction takes, of 1024 buckets or more, those that are full and were not used for an hour. */
  lemma EvictsExactly(cfg: Config, m: map<string, Bucket>, now: real, a: string)
    ensures var kept := Evicted(cfg, m, now);
      && (a in kept <==>
            a in m && (|m| < 1024 || now - m[a].lastRefill <= 3600.0 || m[a].tokens < cfg.burst as real))
      && (a in kept ==> kept[a] == m[a])
  {
  }

  /** Two runs in which an agent checks at the same times give it the same last answer. */
  lemma OthersDoNotMatter(cfg: Config, run: seq<Call>, other: seq<Call>)
    requires cfg.rps > 0.0 && Clocked(run) && Clocked(other) && run != [] && other != []
    requires run[|run| - 1].agent == other[|other| - 1].agent
    requires TimesOf(run, run[|run| - 1].agent) == TimesOf(other, run[|run| - 1].agent)
    ensures Answer(cfg, run) == Answer(cfg, other)
  {
    AnswersAreIsolated(cfg, run);
    AnswersAreIsolated(cfg, other);
  }

  /** No bucket is reclaimed while the burst is at least one: each was charged against. */
  lemma {:induction false} EvictionNeverFires(cfg: Config, calls: seq<Call>, a: string)
    requires cfg.rps > 0.0 && cfg.burst >= 1 && Clocked(calls)
    ensures a in BucketsAfter(cfg, calls) <==> exists c :: c in calls && c.agent == a
  {
    BucketsTrack(cfg, calls, a);
    TimesEmptyIffAbsent(calls, a);
  }

  /** How many calls of `agent` the shared limiter itself answered with yes, from the
      `i`-th to the `j`-th of that agent's checks. */
  function YesCount(cfg: Config, calls: seq<Call>, agent: string, i: nat): nat {
    if calls == [] then 0
    else
      var rest := calls[..|calls| - 1];
      YesCount(cfg, rest, agent, i)
      + (if calls[|calls| - 1].agent == agent && |TimesOf(rest, agent)| >= i && Answer(cfg, calls) then 1 else 0)
  }

  lemma {:induction false} YesCountIsGrants(cfg: Config, calls: seq<Call>, agent: string, i: nat)
    requires cfg.rps > 0.0 && Clocked(calls)
    ensures YesCount(cfg, calls, agent, i) ==
      if i <= |TimesOf(calls, agent)|
      then Grants(cfg.burst, Credits(cfg, TimesOf(calls, agent)), i, |TimesOf(calls, agent)|) else 0
  {
    if calls != [] {
      var rest, c := calls[..|calls| - 1], calls[|calls| - 1];
      var ts, ts' := TimesOf(rest, agent), TimesOf(calls, agent);
      YesCountIsGrants(cfg, rest, agent, i);
      if c.agent == agent {
        AnswersAreIsolated(cfg, calls);
        var us, us' := Credits(cfg, ts), Credits(cfg, ts');
        CreditsAppend(cfg, ts, c.now);
        assert us'[..|us|] == us && us'[..|us'|] == us';
        if i <= |ts| {
          GrantsPrefix(cfg.burst, us, us', i, |us|);
        }
      } else {
        assert ts' == ts;
      }
    }
  }

  lemma {:induction false} GrantsPrefix(burst: int, us: seq<real>, us': seq<real>, i: nat, j: nat)
    requires us <= us' && i <= j <= |us|
    ensures Grants(burst, us, i, j) == Grants(burst, us', i, j)
    decreases j
  {
    if i < j {
      assert us[..j] == us'[..j];
      GrantsPrefix(burst, us, us', i, j - 1);
    }
  }

  /** Over a whole run of the shared limiter, from an agent's `i`-th check to its last, the
      limiter says yes to that agent at most `burst + rps * (t - s)` times. */
  lemma LimiterBound(cfg: Config, calls: seq<Call>, agent: string, i: nat)
    requires cfg.rps > 0.0 && cfg.burst >= 0 && Clocked(calls)
    requires i < |TimesOf(calls, agent)|
    ensures var ts := TimesOf(calls, agent);
      YesCount(cfg, calls, agent, i) as real <= Allowance(cfg, ts[i], ts[|ts| - 1])
  {
    var ts := TimesOf(calls, agent);
    TimesNondecreasing(calls, agent);
    WindowBound(cfg, ts, i, |ts| - 1);
    YesCountIsGrants(cfg, calls, agent, i);
  }
}
