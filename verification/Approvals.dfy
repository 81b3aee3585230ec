/** The store of human approvals: requests that wait for a decision, the events that wake
    their waiters, and every interleaving of the calls that touch them. */
module Approvals {
  import opened Common

  datatype Status = Pending | Approved | Denied

  /** Approval ids are generated and do not repeat. */
  type Id = nat

  datatype Ask = Ask(agent: string, action: string, collection: string)

  datatype Approval = Approval(ask: Ask, createdAt: real, status: Status)

  /** `events` are the keys of `_events`; `fired` the event objects that are set, each named by
      the id it was made for; `issued` every id given out so far. */
  datatype Store = Store(approvals: map<Id, Approval>, events: set<Id>, fired: set<Id>, issued: set<Id>) {
    predicate Open(id: Id) { id in approvals && approvals[id].status.Pending? }
  }

  const Empty := Store(map[], {}, {}, {})

  function Created(s: Store, id: Id, ask: Ask, now: real): Store {
    s.(approvals := s.approvals[id := Approval(ask, now, Pending)], events := s.events + {id}, issued := s.issued + {id})
  }

  function Decided(s: Store, id: Id, status: Status): Store
    requires id in s.approvals
  {
    s.(approvals := s.approvals[id := s.approvals[id].(status := status)])
  }

  /** A decision that wakes the waiters. */
  function Announced(s: Store, id: Id, status: Status): Store
    requires id in s.approvals
  {
    var d := Decided(s, id, status);
    if id in s.events then d.(fired := s.fired + {id}) else d
  }

  function Resolved(s: Store, id: Id, approved: bool): Store {
    if !s.Open(id) then s else Announced(s, id, if approved then Approved else Denied)
  }

  predicate Stale(a: Approval, now: real, maxAge: real) { !a.status.Pending? && now - a.createdAt > maxAge }

  function Pruned(s: Store, now: real, maxAge: real): Store {
    var keep := set id | id in s.approvals && !Stale(s.approvals[id], now, maxAge);
    s.(approvals := map id | id in keep :: s.approvals[id], events := s.events - (s.approvals.Keys - keep))
  }

  function Denying(s: Store, ids: set<Id>): Store {
    s.(approvals := map id | id in s.approvals :: if id in ids then s.approvals[id].(status := Denied) else s.approvals[id],
       fired := s.fired + ids * s.events)
  }

  function OpenIds(s: Store): set<Id> { set id | id in s.approvals && s.Open(id) }

  function ShutDown(s: Store): Store { Denying(s, OpenIds(s)) }

  lemma DenyingOneMore(s: Store, ids: set<Id>, id: Id)
    requires id in s.approvals
    ensures Announced(Denying(s, ids), id, Denied) == Denying(s, ids + {id})
  {
    if id in s.events {
      assert (ids + {id}) * s.events == ids * s.events + {id};
    } else {
      assert (ids + {id}) * s.events == ids * s.events;
    }
  }

  /** A waiter's time runs out: the approval is denied if it is still open; no event is set. */
  function Expired(s: Store, id: Id): Store { if s.Open(id) then Decided(s, id, Denied) else s }

  /** What a waiter that was woken reports. */
  function Outcome(s: Store, id: Id): Status { if id in s.approvals then s.approvals[id].status else Denied }

  ghost predicate Sound(s: Store) {
    && s.approvals.Keys == s.events <= s.issued
    && s.fired <= s.issued
    && forall id :: id in s.fired && id in s.approvals ==> !s.approvals[id].status.Pending?
  }

  // ------------------------------------------------------------- the class

  class Event {
    var isSet: bool

    constructor ()
      ensures !isSet
    {
      isSet := false;
    }
  }

  class ApprovalStore {
    var store: map<Id, Approval>
    var events: map<Id, Event>
    ghost var made: map<Id, Event>

    ghost predicate Valid()
      reads this
    {
      && (forall id :: id in events ==> id in made && made[id] == events[id])
      && (forall a, b :: a in made && b in made && made[a] == made[b] ==> a == b)
    }

    ghost function Contents(): Store
      reads this, made.Values
    {
      Store(store, events.Keys, (set id | id in made && made[id].isSet), made.Keys)
    }

    constructor ()
      ensures Valid() && Contents() == Empty
    {
      store, events, made := map[], map[], map[];
    }

    method Create(id: Id, ask: Ask, now: real) returns (req: Approval)
      requires Valid() && id !in Contents().issued
      modifies this
      ensures Valid() && Contents() == Created(old(Contents()), id, ask, now) && req == store[id]
    {
      req := Approval(ask, now, Pending);
      var event := new Event();
      store := store[id := req];
      events := events[id := event];
      made := made[id := event];
    }

    function Get(id: Id): Option<Approval>
      reads this
    {
      if id in store then Some(store[id]) else None
    }

    /** Writes a decision and sets the event. */
    method Announce(id: Id, status: Status)
      requires Valid() && id in store
      modifies this`store, events.Values
      ensures Valid() && Contents() == Announced(old(Contents()), id, status)
    {
      store := store[id := store[id].(status := status)];
      if id in events {
        events[id].isSet := true;
      }
    }

    method Resolve(id: Id, approved: bool) returns (req: Option<Approval>)
      requires Valid()
      modifies this`store, events.Values
      ensures Valid() && Contents() == Resolved(old(Contents()), id, approved)
      ensures req == if old(Contents()).Open(id) then Some(store[id]) else None
    {
      if id !in store || store[id].status != Pending {
        return None;
      }
      Announce(id, if approved then Approved else Denied);
      return Some(store[id]);
    }

    /** Removes the decided approvals that were created more than `maxAge` ago, and counts them. */
    method Prune(now: real, maxAge: real) returns (count: nat)
      requires Valid()
      modifies this
      ensures Valid() && Contents() == Pruned(old(Contents()), now, maxAge)
      ensures count == |set id | id in old(store) && Stale(old(store)[id], now, maxAge)|
    {
      var toDelete := set id | id in store && Stale(store[id], now, maxAge);
      store := store - toDelete;
      events := events - toDelete;
      count := |toDelete|;
      assert toDelete == set id | id in old(store) && Stale(old(store)[id], now, maxAge);
    }

    method Shutdown() returns (count: nat)
      requires Valid()
      modifies this`store, events.Values
      ensures Valid() && Contents() == ShutDown(old(Contents()))
      ensures count == |OpenIds(old(Contents()))|
    {
      var pending := set id | id in store && store[id].status.Pending?;
      assert pending == OpenIds(Contents());
      count := |pending|;
      var todo := pending;
      while todo != {}
        invariant todo <= pending <= store.Keys
        invariant Valid() && Contents() == Denying(old(Contents()), pending - todo)
        decreases |todo|
      {
        var id :| id in todo;
        DenyingOneMore(old(Contents()), pending - todo, id);
        assert pending - (todo - {id}) == pending - todo + {id};
        Announce(id, Denied);
        todo := todo - {id};
      }
      assert pending - {} == pending;
    }

    /** A waiter whose time is up. */
    method TimeOut(id: Id) returns (outcome: Status)
      requires Valid()
      modifies this
      ensures Valid() && Contents() == Expired(old(Contents()), id) && outcome == Denied
    {
      if id in store && store[id].status == Pending {
        store := store[id := store[id].(status := Denied)];
      }
      return Denied;
    }

    /** A waiter whose event was set. */
    method Wake(id: Id) returns (outcome: Status)
      ensures outcome == Outcome(Contents(), id)
    {
      return if id in store then store[id].status else Denied;
    }
  }

  // ----------------------------------------------------------- interleavings

  datatype Waiter = Waiting(id: Id) | Returned(id: Id, outcome: Status)

  datatype State = State(store: Store, now: real, waiters: map<nat, Waiter>)

  datatype Action =
    | Create(id: Id, ask: Ask)
    | Resolve(id: Id, approved: bool)
    | Prune(maxAge: real)
    | Shutdown
    | BeginWait(w: nat, id: Id)
    | Wake(w: nat)
    | TimeOut(w: nat)
    | Tick(now: real)

  predicate Awaits(s: State, w: nat) { w in s.waiters && s.waiters[w].Waiting? }

  predicate Enabled(s: State, a: Action) {
    match a
    case Create(id, _) => id !in s.store.issued
    case BeginWait(w, _) => w !in s.waiters
    case Wake(w) => Awaits(s, w) && s.waiters[w].id in s.store.fired
    case TimeOut(w) => Awaits(s, w)
    case Tick(now) => s.now <= now
    case _ => true
  }

  function Step(s: State, a: Action): State {
    match a
    case Create(id, ask) => s.(store := Created(s.store, id, ask, s.now))
    case Resolve(id, approved) => s.(store := Resolved(s.store, id, approved))
    case Prune(maxAge) => s.(store := Pruned(s.store, s.now, maxAge))
    case Shutdown => s.(store := ShutDown(s.store))
    case BeginWait(w, id) => s.(waiters := s.waiters[w := if id in s.store.events then Waiting(id) else Returned(id, Denied)])
    case Wake(w) =>
      if !Awaits(s, w) then s
      else s.(waiters := s.waiters[w := Returned(s.waiters[w].id, Outcome(s.store, s.waiters[w].id))])
    case TimeOut(w) =>
      if !Awaits(s, w) then s
      else s.(store := Expired(s.store, s.waiters[w].id), waiters := s.waiters[w := Returned(s.waiters[w].id, Denied)])
    case Tick(now) => s.(now := now)
  }

  const Initial := State(Empty, 0.0, map[])

  function After(run: seq<Action>): State {
    if run == [] then Initial else Step(After(run[..|run| - 1]), Last(run))
  }

  ghost predicate Run(run: seq<Action>) {
    forall n :: 0 <= n < |run| ==> Enabled(After(run[..n]), run[n])
  }

  /** The store keeps its two dictionaries in step, a set event means a decision, and no waiter
      ever reports `pending`. */
  ghost predicate Inv(s: State) {
    && Sound(s.store)
    && (forall w :: w in s.waiters && s.waiters[w].Waiting? ==> s.waiters[w].id in s.store.issued)
    && (forall w :: w in s.waiters && s.waiters[w].Returned? ==> s.waiters[w].outcome != Pending)
  }

  lemma SoundStep(s: State, a: Action)
    requires Sound(s.store) && Enabled(s, a)
    ensures Sound(Step(s, a).store)
  {
  }

  lemma InvStep(s: State, a: Action)
    requires Inv(s) && Enabled(s, a)
    ensures Inv(Step(s, a))
  {
    SoundStep(s, a);
  }

  lemma RunPrefix(run: seq<Action>)
    requires run != [] && Run(run)
    ensures Run(run[..|run| - 1]) && Enabled(After(run[..|run| - 1]), Last(run))
  {
    var n := |run| - 1;
    assert Enabled(After(run[..n]), run[n]);
    forall i | 0 <= i < n ensures Enabled(After(run[..n][..i]), run[..n][i]) {
      assert run[..n][..i] == run[..i];
      assert Enabled(After(run[..i]), run[i]);
    }
  }

  lemma {:induction false} RunInv(run: seq<Action>)
    requires Run(run)
    ensures Inv(After(run))
  {
    if run != [] {
      RunPrefix(run);
      RunInv(run[..|run| - 1]);
      InvStep(After(run[..|run| - 1]), Last(run));
    }
  }

  // ---------------------------------------------------------- one decision

  /** What became of an id: not issued yet, open, decided, or pruned away. */
  datatype Life = Unborn | Undecided | Settled(status: Status) | Gone

  function LifeOf(s: Store, id: Id): Life {
    if id in s.approvals then
      if s.approvals[id].status.Pending? then Undecided else Settled(s.approvals[id].status)
    else if id in s.issued then Gone
    else Unborn
  }

  /** A life runs from unborn to open to decided to gone and skips or repeats nothing. */
  predicate Follows(before: Life, after: Life) {
    match before
    case Unborn => after.Unborn? || after.Undecided?
    case Undecided => after.Undecided? || after.Settled?
    case Settled(_) => after == before || after.Gone?
    case Gone => after.Gone?
  }

  lemma LifeStep(s: State, a: Action, id: Id)
    requires Sound(s.store) && Enabled(s, a)
    ensures Follows(LifeOf(s.store, id), LifeOf(Step(s, a).store, id))
  {
  }

  /** Once an approval is decided its status never changes again, until it is pruned; and a
      pruned id never comes back. */
  lemma {:induction false} DecidedForGood(run: seq<Action>, n: nat, id: Id)
    requires Run(run) && n <= |run|
    ensures var before, after := LifeOf(After(run[..n]).store, id), LifeOf(After(run).store, id);
      && (before.Settled? ==> after == before || after.Gone?)
      && (before.Gone? ==> after.Gone?)
      && (!before.Unborn? ==> !after.Unborn?)
  {
    if n == |run| {
      assert run[..n] == run;
    } else {
      var rest := run[..|run| - 1];
      assert rest[..n] == run[..n];
      RunPrefix(run);
      DecidedForGood(rest, n, id);
      RunInv(rest);
      LifeStep(After(rest), Last(run), id);
    }
  }

  /** The n-th action of a run takes the approval out of `pending`. */
  ghost predicate DecidesAt(run: seq<Action>, n: nat, id: Id)
    requires n < |run|
  {
    After(run[..n]).store.Open(id) && !After(run[..n + 1]).store.Open(id)
  }

  lemma RunTake(run: seq<Action>, n: nat)
    requires Run(run) && n <= |run|
    ensures Run(run[..n])
    ensures n < |run| ==> After(run[..n + 1]) == Step(After(run[..n]), run[n]) && Enabled(After(run[..n]), run[n])
  {
    forall i | 0 <= i < n ensures Enabled(After(run[..n][..i]), run[..n][i]) {
      assert run[..n][..i] == run[..i];
      assert Enabled(After(run[..i]), run[i]);
    }
    if n < |run| {
      assert run[..n + 1][..n] == run[..n];
      assert Enabled(After(run[..n]), run[n]);
    }
  }

  lemma DecidedOnce(run: seq<Action>, i: nat, j: nat, id: Id)
    requires Run(run) && i < |run| && j < |run| && DecidesAt(run, i, id) && DecidesAt(run, j, id)
    ensures i == j
  {
    if i < j { NotAgain(run, i, j, id); }
    if j < i { NotAgain(run, j, i, id); }
  }

  lemma NotAgain(run: seq<Action>, i: nat, j: nat, id: Id)
    requires Run(run) && i < j < |run| && DecidesAt(run, i, id)
    ensures !DecidesAt(run, j, id)
  {
    RunTake(run, i);
    RunInv(run[..i]);
    LifeStep(After(run[..i]), run[i], id);
    RunTake(run, j);
    assert run[..j][..i + 1] == run[..i + 1];
    DecidedForGood(run[..j], i + 1, id);
  }

  // ---------------------------------------------------------------- waiters

  /** An approved approval was open when somebody resolved it with approval. */
  lemma {:induction false} ApprovedWasResolved(run: seq<Action>, id: Id) returns (i: nat)
    requires Run(run) && LifeOf(After(run).store, id) == Settled(Approved)
    ensures i < |run| && run[i] == Resolve(id, true) && After(run[..i]).store.Open(id)
  {
    var n := |run| - 1;
    var rest := run[..n];
    RunPrefix(run);
    if LifeOf(After(rest).store, id) == Settled(Approved) {
      i := ApprovedWasResolved(rest, id);
      assert rest[..i] == run[..i];
    } else {
      i := n;
    }
  }

  /** A waiter returns `approved` only if somebody resolved that id with approval while it was
      open, and the waiter was woken after that, not timed out. */
  lemma {:induction false} ApprovedMeansResolved(run: seq<Action>, w: nat) returns (i: nat, k: nat)
    requires Run(run) && w in After(run).waiters && After(run).waiters[w].Returned? && After(run).waiters[w].outcome == Approved
    ensures i < k < |run| && run[k] == Wake(w)
    ensures run[i] == Resolve(After(run).waiters[w].id, true) && After(run[..i]).store.Open(After(run).waiters[w].id)
  {
    var n := |run| - 1;
    var rest := run[..n];
    RunPrefix(run);
    if w in After(rest).waiters && After(rest).waiters[w].Returned? {
      i, k := ApprovedMeansResolved(rest, w);
      assert rest[..i] == run[..i] && rest[k] == run[k] && rest[i] == run[i];
    } else {
      k := n;
      i := ApprovedWasResolved(rest, After(run).waiters[w].id);
      assert rest[..i] == run[..i] && rest[i] == run[i];
    }
  }

  /** The step that ends a wait reports approval exactly when the waiter is woken while the
      store holds the id as approved. */
  lemma ReportsExactly(s: State, a: Action, w: nat)
    requires Inv(s) && Enabled(s, a) && Awaits(s, w) && !Awaits(Step(s, a), w)
    ensures a == Wake(w) || a == TimeOut(w)
    ensures Step(s, a).waiters[w].Returned? && Step(s, a).waiters[w].id == s.waiters[w].id
    ensures Step(s, a).waiters[w].outcome == Approved
      <==> a == Wake(w) && LifeOf(s.store, s.waiters[w].id) == Settled(Approved)
  {
  }

  /** So a waiter may report `denied` although the store says `approved`. */
  lemma DeniedThoughApproved(ask: Ask)
    ensures var run := [Create(0, ask), BeginWait(0, 0), Resolve(0, true), TimeOut(0)];
      Run(run) && After(run).waiters[0] == Returned(0, Denied) && LifeOf(After(run).store, 0) == Settled(Approved)
  {
    var r1 := [Create(0, ask)];
    var r2, r3 := r1 + [BeginWait(0, 0)], r1 + [BeginWait(0, 0)] + [Resolve(0, true)];
    assert [] + r1 == r1;
    AfterAppend([], Create(0, ask));
    AfterAppend(r1, BeginWait(0, 0));
    AfterAppend(r2, Resolve(0, true));
    AfterAppend(r3, TimeOut(0));
    assert r3 + [TimeOut(0)] == [Create(0, ask), BeginWait(0, 0), Resolve(0, true), TimeOut(0)];
  }

  lemma AfterAppend(run: seq<Action>, a: Action)
    requires Run(run) && Enabled(After(run), a)
    ensures Run(run + [a]) && After(run + [a]) == Step(After(run), a)
  {
    var all := run + [a];
    assert all[..|run|] == run;
    forall n | 0 <= n < |all| ensures Enabled(After(all[..n]), all[n]) {
      if n < |run| {
        assert all[..n] == run[..n];
        assert Enabled(After(run[..n]), run[n]);
      }
    }
  }

  /** After a resolve or a shutdown, everyone who waits for an approval it decided can wake. */
  lemma DecisionWakes(s: State, a: Action, w: nat)
    requires Inv(s) && (a.Resolve? || a.Shutdown?) && Awaits(s, w)
    requires s.store.Open(s.waiters[w].id) && !Step(s, a).store.Open(s.waiters[w].id)
    ensures Enabled(Step(s, a), Wake(w))
  {
  }

  /** A decision without an event was made by a waiter that timed out: that denies the approval but
      sets no event. */
  lemma {:induction false} DecidedSilently(run: seq<Action>, id: Id) returns (i: nat)
    requires Run(run) && Silent(After(run).store, id)
    ensures i < |run| && run[i].TimeOut? && DecidesAt(run, i, id)
    ensures Awaits(After(run[..i]), run[i].w) && After(run[..i]).waiters[run[i].w].id == id
  {
    var n := |run| - 1;
    var rest := run[..n];
    RunPrefix(run);
    RunInv(rest);
    LifeStep(After(rest), run[n], id);
    assert run[..n + 1] == run;
    if After(rest).store.Open(id) {
      i := n;
    } else {
      i := DecidedSilently(rest, id);
      assert rest[..i] == run[..i] && rest[i] == run[i] && rest[..i + 1] == run[..i + 1];
    }
  }

  /** The approval is decided, or gone, and its event was never set. */
  predicate Silent(s: Store, id: Id) { id in s.issued && id !in s.fired && !s.Open(id) }

  lemma SilentStays(s: State, a: Action, id: Id)
    requires Inv(s) && Enabled(s, a) && Silent(s.store, id)
    ensures Silent(Step(s, a).store, id)
  {
  }

  lemma TimeOutSilences(s: State, w: nat, id: Id)
    requires Inv(s) && Enabled(s, TimeOut(w)) && s.store.Open(id) && !Step(s, TimeOut(w)).store.Open(id)
    ensures Silent(Step(s, TimeOut(w)).store, id)
  {
  }

  lemma TimedOutJustNow(run: seq<Action>, i: nat, id: Id)
    requires Run(run) && i < |run| && run[i].TimeOut? && DecidesAt(run, i, id)
    ensures Silent(After(run[..i + 1]).store, id)
  {
    RunTake(run, i);
    RunInv(run[..i]);
    TimeOutSilences(After(run[..i]), run[i].w, id);
  }

  lemma {:induction false} StaysSilent(run: seq<Action>, n: nat, id: Id)
    requires Run(run) && n <= |run| && Silent(After(run[..n]).store, id)
    ensures Silent(After(run).store, id)
  {
    if n == |run| {
      assert run[..n] == run;
    } else {
      var rest := run[..|run| - 1];
      assert rest[..n] == run[..n];
      RunPrefix(run);
      StaysSilent(rest, n, id);
      RunInv(rest);
      SilentStays(After(rest), Last(run), id);
    }
  }

  /** Nobody sets the event of an approval that a timeout decided, ever after. */
  lemma TimeOutLeaves(run: seq<Action>, i: nat, id: Id)
    requires Run(run) && i < |run| && run[i].TimeOut? && DecidesAt(run, i, id)
    ensures Silent(After(run).store, id)
  {
    TimedOutJustNow(run, i, id);
    StaysSilent(run, i + 1, id);
  }

  /** The approval waited for is decided, and the waiter cannot wake. */
  predicate LeftWaiting(s: State, w: nat) { Awaits(s, w) && !s.store.Open(s.waiters[w].id) && !Enabled(s, Wake(w)) }

  /** Who is left waiting for an approval that is no longer open, over all runs: exactly whoever
      waits for one that another waiter's timeout decided. */
  lemma LeftWaitingExactly(run: seq<Action>, w: nat)
    requires Run(run) && Awaits(After(run), w)
    ensures LeftWaiting(After(run), w)
      <==> exists i :: 0 <= i < |run| && run[i].TimeOut? && run[i].w != w && DecidesAt(run, i, After(run).waiters[w].id)
  {
    var id := After(run).waiters[w].id;
    RunInv(run);
    if LeftWaiting(After(run), w) {
      var i := DecidedSilently(run, id);
      TimedOutReturned(run, i);
    }
    if i :| 0 <= i < |run| && run[i].TimeOut? && DecidesAt(run, i, id) { TimeOutLeaves(run, i, id); }
  }

  /** Whoever timed out has returned and does not wait again. */
  lemma {:induction false} TimedOutReturned(run: seq<Action>, i: nat)
    requires Run(run) && i < |run| && run[i].TimeOut?
    ensures run[i].w in After(run).waiters && After(run).waiters[run[i].w].Returned?
  {
    var rest := run[..|run| - 1];
    RunPrefix(run);
    if i < |rest| { TimedOutReturned(rest, i); }
  }

  /** It happens: two wait for one approval, one times out, and the other cannot wake. */
  lemma SecondWaiterLeft(ask: Ask)
    ensures var run := [Create(0, ask), BeginWait(0, 0), BeginWait(1, 0), TimeOut(0)];
      Run(run) && LeftWaiting(After(run), 1) && After(run).waiters[0] == Returned(0, Denied)
  {
    var r1 := [Create(0, ask)];
    var r2, r3 := r1 + [BeginWait(0, 0)], r1 + [BeginWait(0, 0)] + [BeginWait(1, 0)];
    assert [] + r1 == r1;
    AfterAppend([], Create(0, ask));
    AfterAppend(r1, BeginWait(0, 0));
    AfterAppend(r2, BeginWait(1, 0));
    AfterAppend(r3, TimeOut(0));
    assert r3 + [TimeOut(0)] == [Create(0, ask), BeginWait(0, 0), BeginWait(1, 0), TimeOut(0)];
  }

  /** Pruning removes exactly the decided approvals that were created more than `maxAge` ago, however
      lately they were decided, and never an open one. */
  lemma PruneRemovesExactly(s: State, maxAge: real, id: Id)
    requires Inv(s) && id in s.store.approvals
    ensures LifeOf(Step(s, Prune(maxAge)).store, id) ==
      if !s.store.Open(id) && s.now - s.store.approvals[id].createdAt > maxAge then Gone else LifeOf(s.store, id)
  {
  }

  // --------------------------------------------------- what every step does

  /** The step decides the approval if it is open: somebody resolves it, the store shuts down, or a
      waiter for it times out. */
  function Decision(s: State, a: Action, id: Id): Option<Status> {
    match a
    case Resolve(target, approved) => if target == id then Some(if approved then Approved else Denied) else None
    case Shutdown => Some(Denied)
    case TimeOut(w) => if Awaits(s, w) && s.waiters[w].id == id then Some(Denied) else None
    case _ => None
  }

  /** An approval after a step: made open by its creation, pruned when it is decided and too old,
      decided when it is open and the step decides it, and otherwise as it was. A decision sets the
      event unless it was made by a timeout. */
  lemma ApprovalAfter(s: State, a: Action, id: Id)
    requires Inv(s) && Enabled(s, a)
    ensures var before, after := s.store, Step(s, a).store;
      && Step(s, a).now == (if a.Tick? then a.now else s.now)
      && (a.Create? && a.id == id ==> id in after.approvals && after.approvals[id] == Approval(a.ask, s.now, Pending))
      && (!(a.Create? && a.id == id) ==>
            && (id in after.approvals <==>
                  id in before.approvals
                  && !(a.Prune? && !before.Open(id) && s.now - before.approvals[id].createdAt > a.maxAge))
            && (id in after.approvals ==>
                  var was := before.approvals[id];
                  after.approvals[id] ==
                    if before.Open(id) && Decision(s, a, id).Some? then was.(status := Decision(s, a, id).value) else was))
      && (id in after.fired <==> id in before.fired || (before.Open(id) && Decision(s, a, id).Some? && !a.TimeOut?))
      && (id in after.issued <==> id in before.issued || (a.Create? && a.id == id))
  {
  }

  /** A waiter after a step: it begins to wait if the approval is there and is denied at once if it
      is not, reports the status of the approval when it is woken and denied when it times out. */
  lemma WaiterAfter(s: State, a: Action, w: nat)
    requires Inv(s) && Enabled(s, a)
    ensures var after := Step(s, a).waiters;
      && (w in after <==> w in s.waiters || (a.BeginWait? && a.w == w))
      && (w in after ==>
            after[w] ==
              if a.BeginWait? && a.w == w then (if a.id in s.store.approvals then Waiting(a.id) else Returned(a.id, Denied))
              else if a == Wake(w) then
                var id := s.waiters[w].id;
                Returned(id, if id in s.store.approvals then s.store.approvals[id].status else Denied)
              else if a == TimeOut(w) then Returned(s.waiters[w].id, Denied)
              else s.waiters[w])
  {
  }
}
