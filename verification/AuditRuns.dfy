/** Whole runs of the audit writer: what the offline verifier says of the file after any
    interleaving of callers, flusher, failed writes, closing and restarts. */
module AuditRuns {
  import opened Common
  import opened AuditChain
  import opened AuditLogger

  /** What a flusher does, whichever it is. */
  function Inner(ev: Event): Event { if ev.Stray? then ev.ev else ev }

  /** The event is a failed write that left lines behind. */
  predicate Loses(ev: Event) { Inner(ev).WriteFail? && Inner(ev).kept > 0 }

  /** No failed write left a line behind. */
  ghost predicate LossFree(evs: seq<Event>) { forall n :: 0 <= n < |evs| ==> !Loses(evs[n]) }

  /** No `log` overlapped an `aclose`. */
  ghost predicate ApartRun(cfg: Config, evs: seq<Event>) {
    forall n :: 0 <= n < |evs| ==> Apart(After(cfg, evs[..n]), evs[n])
  }

  /** The part of the invariant that needs no signatures. */
  ghost predicate Settling(cfg: Config, s: State) {
    Orderly(s) && Consistent(s) && AllPlain(s.datas) && FuturesFollow(cfg, s)
  }

  lemma SettlingStep(cfg: Config, s: State, ev: Event)
    requires Settling(cfg, s) && Enabled(cfg, s, ev) && Apart(s, ev)
    ensures Settling(cfg, Step(cfg, s, ev))
  {
    OrderlyStep(cfg, s, ev);
    LedgerStep(cfg, s, ev);
    PlainStep(cfg, s, ev);
    FuturesStep(cfg, s, ev);
  }

  lemma InitialSettling(cfg: Config)
    ensures Settling(cfg, Initial)
  {
    assert Ledger(Initial) == [];
  }

  lemma PrefixesAgree(all: seq<Event>, n: nat)
    requires n <= |all|
    ensures forall i :: 0 <= i < n ==> all[..n][..i] == all[..i] && all[..n][i] == all[i]
  {
  }

  lemma AfterLast(cfg: Config, evs: seq<Event>, ev: Event)
    ensures After(cfg, evs + [ev]) == Step(cfg, After(cfg, evs), ev)
    ensures Run(cfg, evs + [ev]) <==> Run(cfg, evs) && Enabled(cfg, After(cfg, evs), ev)
  {
    var all, n := evs + [ev], |evs|;
    assert all[..n] == evs && all[n] == ev;
    PrefixesAgree(all, n);
    if Run(cfg, all) {
      assert Enabled(cfg, After(cfg, all[..n]), all[n]);
      forall i | 0 <= i < n ensures Enabled(cfg, After(cfg, evs[..i]), evs[i]) {
        assert Enabled(cfg, After(cfg, all[..i]), all[i]);
      }
    }
  }

  lemma ApartLast(cfg: Config, evs: seq<Event>, ev: Event)
    ensures ApartRun(cfg, evs + [ev]) <==> ApartRun(cfg, evs) && Apart(After(cfg, evs), ev)
  {
    var all, n := evs + [ev], |evs|;
    assert all[..n] == evs && all[n] == ev;
    PrefixesAgree(all, n);
    if ApartRun(cfg, all) {
      assert Apart(After(cfg, all[..n]), all[n]);
      forall i | 0 <= i < n ensures Apart(After(cfg, evs[..i]), evs[i]) {
        assert Apart(After(cfg, all[..i]), all[i]);
      }
    }
  }

  /** The last event of a run, and the run before it. */
  lemma Unsnoc(evs: seq<Event>)
    requires evs != []
    ensures evs == evs[..|evs| - 1] + [Last(evs)]
  {
  }

  lemma RunPrefix(cfg: Config, evs: seq<Event>)
    requires evs != [] && Run(cfg, evs)
    ensures Run(cfg, evs[..|evs| - 1])
    ensures Enabled(cfg, After(cfg, evs[..|evs| - 1]), Last(evs))
  {
    Unsnoc(evs);
    AfterLast(cfg, evs[..|evs| - 1], Last(evs));
  }

  lemma ApartPrefix(cfg: Config, evs: seq<Event>)
    requires evs != [] && ApartRun(cfg, evs)
    ensures ApartRun(cfg, evs[..|evs| - 1]) && Apart(After(cfg, evs[..|evs| - 1]), Last(evs))
  {
    Unsnoc(evs);
    ApartLast(cfg, evs[..|evs| - 1], Last(evs));
  }

  lemma {:induction false} RunSettling(cfg: Config, evs: seq<Event>)
    requires Run(cfg, evs) && ApartRun(cfg, evs)
    ensures Settling(cfg, After(cfg, evs))
  {
    if evs == [] {
      InitialSettling(cfg);
    } else {
      RunPrefix(cfg, evs);
      ApartPrefix(cfg, evs);
      RunSettling(cfg, evs[..|evs| - 1]);
      SettlingStep(cfg, After(cfg, evs[..|evs| - 1]), Last(evs));
    }
  }

  lemma PersistedIncreasing(s: State)
    requires Consistent(s)
    ensures Increasing(s.persisted, |s.datas|)
  {
    assert forall i :: 0 <= i < |s.persisted| ==> Ledger(s)[i] == s.persisted[i];
  }

  // --------------------------------------------------------------- futures

  lemma ActSettled(cfg: Config, s: State, ev: Event, id: nat)
    requires id < |s.futures| && !s.futures[id].Pending?
    ensures id < |Act(cfg, s, ev).futures| && Act(cfg, s, ev).futures[id] == s.futures[id]
  {
    if s.task.Writing? {
      SettleAt(s.futures, s.task.batch, Done, id);
      SettleAt(s.futures, s.task.batch, Failed, id);
    }
  }

  lemma SettledStays(cfg: Config, s: State, ev: Event, id: nat)
    requires id < |s.futures| && !s.futures[id].Pending?
    ensures id < |Step(cfg, s, ev).futures| && Step(cfg, s, ev).futures[id] == s.futures[id]
  {
    if ev.Stray? && ev.i < |s.strays| {
      ActSettled(cfg, Swap(s, ev.i), ev.ev, id);
    } else {
      ActSettled(cfg, s, ev, id);
    }
  }

  /** A future is resolved at most once: what it holds once it is done it holds for ever. */
  lemma {:induction false} FutureSettlesOnce(cfg: Config, evs: seq<Event>, n: nat, id: nat)
    requires n <= |evs| && id < |After(cfg, evs[..n]).futures| && !After(cfg, evs[..n]).futures[id].Pending?
    ensures id < |After(cfg, evs).futures| && After(cfg, evs).futures[id] == After(cfg, evs[..n]).futures[id]
    decreases |evs|
  {
    if n == |evs| {
      assert evs[..n] == evs;
    } else {
      var rest := evs[..|evs| - 1];
      assert rest[..n] == evs[..n];
      FutureSettlesOnce(cfg, rest, n, id);
      SettledStays(cfg, After(cfg, rest), Last(evs), id);
    }
  }

  ghost predicate NonePending(s: State) { forall id :: 0 <= id < |s.futures| ==> !s.futures[id].Pending? }

  lemma IdleNonePending(cfg: Config, s: State)
    requires Settling(cfg, s) && !s.task.Writing? && (s.task.Waiting? ==> QueueIds(s.queue) == [])
    ensures NonePending(s)
  {
    if s.task.Stopped? { assert DrainItems([]) == []; }
  }

  /** Taking the queue, and writing the batch in whatever outcome, resolves all there is. */
  lemma BatchSettles(cfg: Config, s: State, outcome: Event)
    requires Settling(cfg, s) && s.task.Writing? && QueueIds(s.queue) == []
    requires (outcome.WriteOk? || outcome.WriteFail?) && Enabled(cfg, s, outcome)
    ensures NonePending(Step(cfg, s, outcome))
  {
    var batch := s.task.batch;
    forall id | 0 <= id < |s.futures| ensures !Step(cfg, s, outcome).futures[id].Pending? {
      SettleAt(s.futures, batch, Done, id);
      SettleAt(s.futures, batch, Failed, id);
    }
  }

  lemma TakeSettles(cfg: Config, s: State) returns (evs: seq<Event>)
    requires Settling(cfg, s) && s.task.Waiting?
    ensures |evs| <= 2 && (forall n :: 0 <= n < |evs| ==> Flushes(evs[n]))
    ensures RunFrom(cfg, s, evs) && NonePending(Follow(cfg, s, evs))
  {
    if QueueIds(s.queue) == [] {
      IdleNonePending(cfg, s);
      evs := [];
    } else {
      assert s.queue != [] && s.queue[0].Rec?;
      SettlingStep(cfg, s, Take);
      DrainAll(s.queue);
      assert DrainItems([]) == [];
      BatchSettles(cfg, Step(cfg, s, Take), WriteOk);
      evs := [Take, WriteOk];
      FollowTwo(cfg, s, Take, WriteOk);
    }
  }

  /** The events one after the other from a state. */
  function Follow(cfg: Config, s: State, evs: seq<Event>): State
    decreases |evs|
  {
    if evs == [] then s else Follow(cfg, Step(cfg, s, evs[0]), evs[1..])
  }

  ghost predicate RunFrom(cfg: Config, s: State, evs: seq<Event>)
    decreases |evs|
  {
    evs != [] ==> Enabled(cfg, s, evs[0]) && RunFrom(cfg, Step(cfg, s, evs[0]), evs[1..])
  }

  lemma FollowCons(cfg: Config, s: State, ev: Event, evs: seq<Event>)
    ensures Follow(cfg, s, [ev] + evs) == Follow(cfg, Step(cfg, s, ev), evs)
    ensures RunFrom(cfg, s, [ev] + evs) <==> Enabled(cfg, s, ev) && RunFrom(cfg, Step(cfg, s, ev), evs)
  {
    assert ([ev] + evs)[1..] == evs;
  }

  lemma FollowTwo(cfg: Config, s: State, e1: Event, e2: Event)
    ensures Follow(cfg, s, [e1, e2]) == Step(cfg, Step(cfg, s, e1), e2)
    ensures RunFrom(cfg, s, [e1, e2]) <==> Enabled(cfg, s, e1) && Enabled(cfg, Step(cfg, s, e1), e2)
  {
    assert [e1, e2] == [e1] + [e2] && [e2] == [e2] + [];
    FollowCons(cfg, s, e1, [e2]);
    FollowCons(cfg, Step(cfg, s, e1), e2, []);
  }

  /** Nobody waits in vain. After every run in which no `log` overlaps an `aclose`, signed or not,
      with writes that fail in any way: nothing is pending once the flusher has stopped, and from
      wherever the run is at most three steps of the flusher resolve every future there is. */
  lemma NobodyWaitsInVain(cfg: Config, evs: seq<Event>) returns (more: seq<Event>)
    requires Run(cfg, evs) && ApartRun(cfg, evs)
    ensures After(cfg, evs).task.Stopped? ==> NonePending(After(cfg, evs))
    ensures |more| <= 3 && forall n :: 0 <= n < |more| ==> Flushes(more[n])
    ensures RunFrom(cfg, After(cfg, evs), more) && NonePending(Follow(cfg, After(cfg, evs), more))
  {
    var s := After(cfg, evs);
    RunSettling(cfg, evs);
    match s.task {
      case Stopped =>
        IdleNonePending(cfg, s);
        more := [];
      case Waiting => more := TakeSettles(cfg, s);
      case Writing(_, _, _) =>
        var t := Step(cfg, s, WriteOk);
        SettlingStep(cfg, s, WriteOk);
        more := [];
        if t.task.Waiting? {
          more := TakeSettles(cfg, t);
        } else {
          IdleNonePending(cfg, t);
        }
        FollowCons(cfg, s, WriteOk, more);
        more := [WriteOk] + more;
    }
  }

  // -------------------------------------------------------------- durability

  /** Without fail_closed it need not: the caller returns though nothing was written. */
  lemma OpenModeLoses(cfg: Config, record: Json)
    requires !cfg.failClosed && Plain(record)
    ensures var evs := [Log(record)] + [Take] + [WriteFail(false, 0)];
      Run(cfg, evs) && After(cfg, evs).futures == [Done] && After(cfg, evs).persisted == [] && After(cfg, evs).file == None
  {
    var e1, e2, e3 := Log(record), Take, WriteFail(false, 0);
    assert [] + [e1] == [e1];
    AfterLast(cfg, [], e1);
    AfterLast(cfg, [e1], e2);
    AfterLast(cfg, [e1] + [e2], e3);
    var item := Item(0, Prepared(record));
    var s1 := After(cfg, [e1]);
    assert s1.queue == [Rec(item)] && s1.task == Waiting && s1.futures == [Pending];
    var s2 := After(cfg, [e1] + [e2]);
    assert DrainItems([]) == [] && s1.queue[1..] == [];
    assert DrainItems(s1.queue) == [item] && !DrainStops(s1.queue);
    assert s2.task == Writing([item], false, None) && s2.futures == [Pending];
    SettleAt(s2.futures, [item], Done, 0);
    assert [item][..0] == [];
  }
}
