/** Every run of the audit writer, also one in which `log` overlaps `aclose` and flushers are
    forgotten at work: whose future is resolved, whose is stranded, and what is on disk. */
module AuditFutures {
  import opened Common
  import opened AuditChain
  import opened AuditLogger
  import opened AuditRuns
  import opened AuditDisk

  // ------------------------------------------------------------- flushers

  /** A flusher that will take from the queue again. */
  predicate Alive(t: Task) { t.Waiting? || (t.Writing? && !t.stop) }

  function AliveIn(ts: seq<Task>): nat {
    if ts == [] then 0 else (if Alive(ts[0]) then 1 else 0) + AliveIn(ts[1..])
  }

  /** How many flushers will take from the queue again. */
  function Live(s: State): nat { AliveIn([s.task] + s.strays) }

  function Sentinels(q: seq<Slot>): nat {
    if q == [] then 0 else (if q[0].Sentinel? then 1 else 0) + Sentinels(q[1..])
  }

  /** Every place of the record in the queue has at least `k` sentinels before it. */
  predicate Behind(q: seq<Slot>, id: nat, k: nat)
    decreases |q|
  {
    q == [] ||
    if q[0].Sentinel? then Behind(q[1..], id, if k > 0 then k - 1 else 0)
    else (q[0].item.id == id ==> k == 0) && Behind(q[1..], id, k)
  }

  ghost predicate Queued(q: seq<Slot>, id: nat) { exists i :: 0 <= i < |q| && q[i].Rec? && q[i].item.id == id }

  /** Some flusher has the record in hand. */
  ghost predicate InHand(s: State, id: nat) {
    id in Ids(BatchOf(s.task)) || exists i :: 0 <= i < |s.strays| && id in Ids(BatchOf(s.strays[i]))
  }

  /** The caller waits, nobody has its record, and before any flusher reaches the record they all
      have met a sentinel. */
  ghost predicate Stranded(s: State, id: nat) {
    id < |s.futures| && s.futures[id].Pending? && !InHand(s, id) && Behind(s.queue, id, Live(s))
  }

  // ---------------------------------------------------- what every run keeps

  /** A pending record is in the queue or in some flusher's hand. */
  ghost predicate Found(s: State) {
    forall id: nat :: id < |s.futures| && s.futures[id].Pending? ==> Queued(s.queue, id) || InHand(s, id)
  }

  /** At most one sentinel is under way, put there for the flusher at work. */
  ghost predicate OneSentinel(s: State) {
    if s.phase.Awaiting? then Sentinels(s.queue) == 0 || (Sentinels(s.queue) == 1 && Alive(s.task))
    else Sentinels(s.queue) == 0 && !(s.task.Writing? && s.task.stop)
  }

  ghost predicate Tracked(s: State) {
    |s.futures| == |s.datas| && BatchesMatch(s) && Found(s) && OneSentinel(s)
  }

  // ------------------------------------------------------- queue arithmetic

  lemma {:induction false} DrainFound(q: seq<Slot>, id: nat)
    ensures Queued(q, id) <==> id in Ids(DrainItems(q)) || Queued(DrainRest(q), id)
    decreases |q|
  {
    if q != [] {
      QueuedCons(q, id);
      if q[0].Rec? {
        DrainFound(q[1..], id);
        assert Ids(DrainItems(q)) == [q[0].item.id] + Ids(DrainItems(q[1..]));
      } else {
        assert DrainItems(q) == [];
      }
    }
  }

  lemma QueuedCons(q: seq<Slot>, id: nat)
    requires q != []
    ensures Queued(q, id) <==> (q[0].Rec? && q[0].item.id == id) || Queued(q[1..], id)
  {
    assert forall i :: 0 < i < |q| ==> q[i] == q[1..][i - 1];
    assert forall i :: 0 <= i < |q[1..]| ==> q[1..][i] == q[i + 1];
  }

  lemma {:induction false} QueuedIsRec(q: seq<Slot>, id: nat)
    requires Queued(q, id)
    ensures id in Ids(RecsOf(q))
    decreases |q|
  {
    QueuedCons(q, id);
    if q[0].Rec? { IdsAppend([q[0].item], RecsOf(q[1..])); } else { assert [] + RecsOf(q[1..]) == RecsOf(q[1..]); }
    if !(q[0].Rec? && q[0].item.id == id) { QueuedIsRec(q[1..], id); }
  }

  lemma {:induction false} DrainSentinels(q: seq<Slot>)
    ensures Sentinels(q) == Sentinels(DrainRest(q)) + (if DrainStops(q) then 1 else 0)
    ensures !DrainStops(q) ==> DrainRest(q) == []
    decreases |q|
  {
    if q != [] && q[0].Rec? { DrainSentinels(q[1..]); }
  }

  lemma {:induction false} AppendSlot(q: seq<Slot>, slot: Slot, id: nat, k: nat)
    ensures Sentinels(q + [slot]) == Sentinels(q) + (if slot.Sentinel? then 1 else 0)
    ensures Behind(q + [slot], id, k)
      <==> Behind(q, id, k) && (slot.Rec? && slot.item.id == id ==> Sentinels(q) >= k)
    decreases |q|
  {
    if q == [] {
      assert q + [slot] == [slot] && [slot][1..] == [];
    } else {
      assert (q + [slot])[1..] == q[1..] + [slot];
      AppendSlot(q[1..], slot, id, if q[0].Sentinel? then (if k > 0 then k - 1 else 0) else k);
    }
  }

  /** Taking from the front up to the first sentinel costs the record one sentinel and the flushers
      one of theirs. */
  lemma {:induction false} BehindDrain(q: seq<Slot>, id: nat, k: nat)
    requires k > 0 && Behind(q, id, k)
    ensures id !in Ids(DrainItems(q))
    ensures DrainStops(q) ==> Behind(DrainRest(q), id, k - 1)
    decreases |q|
  {
    if q != [] && q[0].Rec? {
      BehindDrain(q[1..], id, k);
      assert Ids(DrainItems(q)) == [q[0].item.id] + Ids(DrainItems(q[1..]));
    } else {
      assert DrainItems(q) == [];
    }
  }

  lemma {:induction false} NotBehindDrain(q: seq<Slot>, id: nat, k: nat)
    requires k > 0 && !Behind(q, id, k) && id !in Ids(DrainItems(q))
    ensures DrainStops(q) && !Behind(DrainRest(q), id, k - 1)
    decreases |q|
  {
    if q[0].Rec? {
      assert Ids(DrainItems(q)) == [q[0].item.id] + Ids(DrainItems(q[1..]));
      NotBehindDrain(q[1..], id, k);
    }
  }

  lemma {:induction false} BehindZero(q: seq<Slot>, id: nat)
    ensures Behind(q, id, 0)
    decreases |q|
  {
    if q != [] { BehindZero(q[1..], id); }
  }

  /** With no more sentinels in the queue than `k`, nothing queued is behind more. */
  lemma {:induction false} NotBehindMore(q: seq<Slot>, id: nat, k: nat)
    requires Queued(q, id) && Sentinels(q) < k
    ensures !Behind(q, id, k)
    decreases |q|
  {
    QueuedCons(q, id);
    if q[0].Sentinel? {
      NotBehindMore(q[1..], id, k - 1);
    } else if q[0].item.id != id {
      NotBehindMore(q[1..], id, k);
    }
  }

  lemma {:induction false} BehindIsQueued(q: seq<Slot>, id: nat, k: nat)
    requires !Behind(q, id, k)
    ensures Queued(q, id)
    decreases |q|
  {
    QueuedCons(q, id);
    if q[0].Sentinel? {
      BehindIsQueued(q[1..], id, if k > 0 then k - 1 else 0);
    } else if q[0].item.id != id {
      BehindIsQueued(q[1..], id, k);
    }
  }

  // ----------------------------------------------------- a stray as the flusher

  lemma {:induction false} AliveUpdate(ts: seq<Task>, i: nat, t: Task)
    requires i < |ts|
    ensures AliveIn(ts[i := t]) + (if Alive(ts[i]) then 1 else 0) == AliveIn(ts) + (if Alive(t) then 1 else 0)
    decreases |ts|
  {
    if i > 0 {
      assert ts[i := t][1..] == ts[1..][i - 1 := t];
      AliveUpdate(ts[1..], i - 1, t);
    } else {
      assert ts[i := t][1..] == ts[1..];
    }
  }

  lemma SwapLive(s: State, i: nat)
    requires i < |s.strays|
    ensures Live(Swap(s, i)) == Live(s)
  {
    assert ([s.task] + s.strays)[1..] == s.strays;
    assert ([s.strays[i]] + s.strays[i := s.task])[1..] == s.strays[i := s.task];
    AliveUpdate(s.strays, i, s.task);
  }

  lemma LiveIs(s: State)
    ensures Live(s) == (if Alive(s.task) then 1 else 0) + AliveIn(s.strays)
  {
    assert ([s.task] + s.strays)[1..] == s.strays;
  }

  lemma SwapInHand(s: State, i: nat, id: nat)
    requires i < |s.strays|
    ensures InHand(Swap(s, i), id) <==> InHand(s, id)
  {
    var t := Swap(s, i);
    if InHand(s, id) {
      if id in Ids(BatchOf(s.task)) {
        assert t.strays[i] == s.task;
      } else {
        var j :| 0 <= j < |s.strays| && id in Ids(BatchOf(s.strays[j]));
        assert j != i ==> t.strays[j] == s.strays[j];
      }
    }
    if InHand(t, id) {
      if id in Ids(BatchOf(t.task)) {
        assert t.task == s.strays[i];
      } else {
        var j :| 0 <= j < |t.strays| && id in Ids(BatchOf(t.strays[j]));
        assert j != i ==> t.strays[j] == s.strays[j];
      }
    }
  }

  lemma SwapStranded(s: State, i: nat, id: nat)
    requires i < |s.strays|
    ensures Stranded(Swap(s, i), id) <==> Stranded(s, id)
  {
    SwapLive(s, i);
    SwapInHand(s, i, id);
  }

  lemma SwapFound(s: State, i: nat)
    requires i < |s.strays| && Found(s)
    ensures Found(Swap(s, i))
  {
    forall id: nat | id < |s.futures| && s.futures[id].Pending? ensures Queued(s.queue, id) || InHand(Swap(s, i), id) {
      SwapInHand(s, i, id);
    }
  }

  // ------------------------------------------------------------- one by one

  lemma FoundLog(cfg: Config, s: State, record: Json)
    requires Found(s) && |s.futures| == |s.datas|
    ensures Found(Act(cfg, s, Log(record)))
  {
    var t := Act(cfg, s, Log(record));
    var slot := Rec(Item(|s.datas|, Prepared(record)));
    assert t.queue == s.queue + [slot] && t.strays == s.strays && BatchOf(t.task) == BatchOf(s.task);
    forall id: nat | id < |t.futures| && t.futures[id].Pending? ensures Queued(t.queue, id) || InHand(t, id) {
      if id == |s.datas| {
        assert t.queue[|s.queue|] == slot;
      } else if Queued(s.queue, id) {
        var i :| 0 <= i < |s.queue| && s.queue[i].Rec? && s.queue[i].item.id == id;
        assert t.queue[i] == s.queue[i];
      }
    }
  }

  lemma FoundTake(cfg: Config, s: State)
    requires Found(s) && s.task.Waiting? && s.queue != []
    ensures Found(Act(cfg, s, Take))
  {
    var t := Act(cfg, s, Take);
    assert s.queue[0].Sentinel? ==> DrainItems(s.queue) == [] && DrainRest(s.queue) == s.queue[1..];
    assert BatchOf(t.task) == DrainItems(s.queue) && t.queue == DrainRest(s.queue) && t.strays == s.strays;
    forall id: nat | id < |t.futures| && t.futures[id].Pending? ensures Queued(t.queue, id) || InHand(t, id) {
      DrainFound(s.queue, id);
    }
  }

  lemma FoundWrite(cfg: Config, s: State, ev: Event)
    requires Found(s) && (ev.WriteOk? || ev.WriteFail?) && CanAct(s, ev)
    ensures Found(Act(cfg, s, ev))
  {
    var t := Act(cfg, s, ev);
    var f := if ev.WriteOk? || !cfg.failClosed then Done else Failed;
    assert t.futures == Settle(s.futures, s.task.batch, f);
    forall id: nat | id < |t.futures| && t.futures[id].Pending? ensures Queued(t.queue, id) || InHand(t, id) {
      SettleAt(s.futures, s.task.batch, f, id);
    }
  }

  lemma FoundClose(cfg: Config, s: State, ev: Event)
    requires Found(s) && (ev.CloseBegin? || ev.CloseEnd?) && CanAct(s, ev)
    ensures Found(Act(cfg, s, ev))
  {
    var t := Act(cfg, s, ev);
    forall id: nat | id < |t.futures| && t.futures[id].Pending? ensures Queued(t.queue, id) || InHand(t, id) {
      if Queued(s.queue, id) {
        var i :| 0 <= i < |s.queue| && s.queue[i].Rec? && s.queue[i].item.id == id;
        assert t.queue[i] == s.queue[i];
      } else if id in Ids(BatchOf(s.task)) {
        assert ev.CloseEnd? && s.phase.Replaced? ==> t.strays[|s.strays|] == s.task;
      } else {
        var i :| 0 <= i < |s.strays| && id in Ids(BatchOf(s.strays[i]));
        assert t.strays[i] == s.strays[i];
      }
    }
  }

  lemma FoundAct(cfg: Config, s: State, ev: Event)
    requires Found(s) && CanAct(s, ev) && |s.futures| == |s.datas|
    ensures Found(Act(cfg, s, ev)) && |Act(cfg, s, ev).futures| == |Act(cfg, s, ev).datas|
  {
    match ev
    case Log(record) => FoundLog(cfg, s, record);
    case Take => FoundTake(cfg, s);
    case WriteOk => FoundWrite(cfg, s, ev);
    case WriteFail(_, _) => FoundWrite(cfg, s, ev);
    case CloseBegin => FoundClose(cfg, s, ev);
    case CloseEnd => FoundClose(cfg, s, ev);
    case _ =>
  }

  lemma FoundStep(cfg: Config, s: State, ev: Event)
    requires Found(s) && Enabled(cfg, s, ev) && |s.futures| == |s.datas|
    ensures Found(Step(cfg, s, ev)) && |Step(cfg, s, ev).futures| == |Step(cfg, s, ev).datas|
  {
    if ev.Stray? {
      SwapFound(s, ev.i);
      FoundAct(cfg, Swap(s, ev.i), ev.ev);
      SwapFound(Act(cfg, Swap(s, ev.i), ev.ev), ev.i);
    } else {
      FoundAct(cfg, s, ev);
    }
  }

  lemma SentinelAct(cfg: Config, s: State, ev: Event)
    requires OneSentinel(s) && CanAct(s, ev)
    ensures OneSentinel(Act(cfg, s, ev))
  {
    match ev
    case Log(record) => AppendSlot(s.queue, Rec(Item(|s.datas|, Prepared(record))), 0, 0);
    case CloseBegin => AppendSlot(s.queue, Sentinel, 0, 0);
    case Take => DrainSentinels(s.queue);
    case _ =>
  }

  lemma SentinelStray(cfg: Config, s: State, i: nat, ev: Event)
    requires OneSentinel(s) && i < |s.strays| && Flushes(ev) && CanAct(Swap(s, i), ev)
    ensures OneSentinel(Step(cfg, s, Stray(i, ev)))
  {
    if ev.Take? { DrainSentinels(s.queue); }
  }

  lemma TrackedStep(cfg: Config, s: State, ev: Event)
    requires Tracked(s) && Enabled(cfg, s, ev)
    ensures Tracked(Step(cfg, s, ev))
  {
    FoundStep(cfg, s, ev);
    MatchStep(cfg, s, ev);
    if ev.Stray? { SentinelStray(cfg, s, ev.i, ev.ev); } else { SentinelAct(cfg, s, ev); }
  }

  lemma {:induction false} RunTracked(cfg: Config, evs: seq<Event>)
    requires Run(cfg, evs)
    ensures Tracked(After(cfg, evs))
  {
    if evs != [] {
      RunPrefix(cfg, evs);
      RunTracked(cfg, evs[..|evs| - 1]);
      TrackedStep(cfg, After(cfg, evs[..|evs| - 1]), Last(evs));
    }
  }

  // ------------------------------------------------------ stranded or not

  /** What frees a stranded record: a `log` that finds no flusher and starts one; and what takes
      its caller away: giving up, or the end of the process. */
  predicate Frees(s: State, ev: Event, id: nat) { (ev.Log? && s.task.Stopped?) || ev == Cancel(id) || ev.Restart? }

  lemma StrandedTake(cfg: Config, s: State, id: nat)
    requires s.task.Waiting? && s.queue != [] && id < |s.futures| && s.futures[id].Pending?
    ensures Stranded(s, id) ==> Stranded(Act(cfg, s, Take), id)
    ensures !Stranded(s, id) ==> !Stranded(Act(cfg, s, Take), id)
  {
    var t := Act(cfg, s, Take);
    LiveIs(s);
    LiveIs(t);
    DrainSentinels(s.queue);
    assert s.queue[0].Sentinel? ==> DrainItems(s.queue) == [] && DrainRest(s.queue) == s.queue[1..] && DrainStops(s.queue);
    assert BatchOf(t.task) == DrainItems(s.queue) && t.queue == DrainRest(s.queue) && t.strays == s.strays;
    assert BatchOf(s.task) == [];
    if Behind(s.queue, id, Live(s)) {
      BehindDrain(s.queue, id, Live(s));
      if !DrainStops(s.queue) { assert t.queue == []; }
    } else if id !in Ids(DrainItems(s.queue)) {
      NotBehindDrain(s.queue, id, Live(s));
    }
  }

  lemma StrandedWrite(cfg: Config, s: State, ev: Event, id: nat)
    requires (ev.WriteOk? || ev.WriteFail?) && CanAct(s, ev)
    requires id < |s.futures| && s.futures[id].Pending?
    ensures Stranded(s, id) ==> Stranded(Act(cfg, s, ev), id)
    ensures !Stranded(s, id) ==> !Stranded(Act(cfg, s, ev), id)
  {
    var t := Act(cfg, s, ev);
    LiveIs(s);
    LiveIs(t);
    var f := if ev.WriteOk? || !cfg.failClosed then Done else Failed;
    SettleAt(s.futures, s.task.batch, f, id);
    assert t.strays == s.strays && t.queue == s.queue && Live(t) == Live(s);
  }

  lemma StrandedLog(cfg: Config, s: State, record: Json, id: nat)
    requires Tracked(s) && id < |s.futures| && s.futures[id].Pending?
    ensures Stranded(s, id) && !s.task.Stopped? ==> Stranded(Act(cfg, s, Log(record)), id)
    ensures s.task.Stopped? ==> !Stranded(Act(cfg, s, Log(record)), id)
    ensures !Stranded(s, id) ==> !Stranded(Act(cfg, s, Log(record)), id)
  {
    var t := Act(cfg, s, Log(record));
    var slot := Rec(Item(|s.datas|, Prepared(record)));
    LiveIs(s);
    LiveIs(t);
    assert t.queue == s.queue + [slot] && t.strays == s.strays && BatchOf(t.task) == BatchOf(s.task);
    AppendSlot(s.queue, slot, id, Live(t));
    if s.task.Stopped? {
      if !InHand(s, id) { NotBehindMore(s.queue, id, Live(t)); }
    }
  }

  lemma StrandedClose(cfg: Config, s: State, ev: Event, id: nat)
    requires (ev.CloseBegin? || ev.CloseEnd?) && CanAct(s, ev) && id < |s.futures| && s.futures[id].Pending?
    ensures Stranded(s, id) <==> Stranded(Act(cfg, s, ev), id)
  {
    var t := Act(cfg, s, ev);
    LiveIs(s);
    LiveIs(t);
    if ev.CloseBegin? {
      AppendSlot(s.queue, Sentinel, id, Live(s));
    } else if s.phase.Replaced? {
      StrayAppended(s.strays, s.task);
      assert forall i :: 0 <= i < |s.strays| ==> t.strays[i] == s.strays[i];
      assert t.strays[|s.strays|] == s.task;
    }
  }

  lemma {:induction false} StrayAppended(ts: seq<Task>, t: Task)
    ensures AliveIn(ts + [t]) == AliveIn(ts) + (if Alive(t) then 1 else 0)
    decreases |ts|
  {
    if ts == [] {
      assert ts + [t] == [t] && [t][1..] == [];
    } else {
      assert (ts + [t])[1..] == ts[1..] + [t];
      StrayAppended(ts[1..], t);
    }
  }

  lemma StrandedAct(cfg: Config, s: State, ev: Event, id: nat)
    requires CanAct(s, ev) && id < |s.futures| && s.futures[id].Pending? && (ev.Log? ==> Tracked(s))
    ensures Stranded(s, id) && !Frees(s, ev, id) ==> Stranded(Act(cfg, s, ev), id)
    ensures !Stranded(s, id) || Frees(s, ev, id) ==> !Stranded(Act(cfg, s, ev), id)
  {
    match ev
    case Log(record) => StrandedLog(cfg, s, record, id);
    case Take => StrandedTake(cfg, s, id);
    case WriteOk => StrandedWrite(cfg, s, ev, id);
    case WriteFail(_, _) => StrandedWrite(cfg, s, ev, id);
    case CloseBegin => StrandedClose(cfg, s, ev, id);
    case CloseEnd => StrandedClose(cfg, s, ev, id);
    case Cancel(other) => StrandedCancel(cfg, s, other, id);
    case _ =>
  }

  lemma StrandedCancel(cfg: Config, s: State, other: nat, id: nat)
    requires id < |s.futures| && s.futures[id].Pending?
    ensures Stranded(Act(cfg, s, Cancel(other)), id) <==> Stranded(s, id) && other != id
  {
  }

  /** One step, of whichever flusher: what is stranded stays so unless it is freed, and what is not
      stranded never becomes so. */
  lemma StrandedStep(cfg: Config, s: State, ev: Event, id: nat)
    requires Tracked(s) && Enabled(cfg, s, ev) && id < |s.futures|
    ensures Stranded(Step(cfg, s, ev), id) <==> Stranded(s, id) && !Frees(s, ev, id)
  {
    if !s.futures[id].Pending? {
      SettledStays(cfg, s, ev, id);
    } else if ev.Stray? {
      var t := Swap(s, ev.i);
      SwapStranded(s, ev.i, id);
      StrandedAct(cfg, t, ev.ev, id);
      SwapStranded(Act(cfg, t, ev.ev), ev.i, id);
    } else {
      StrandedAct(cfg, s, ev, id);
    }
  }

  /** `log` finds a flusher and starts none, but there is a sentinel for every flusher at work:
      in the queue, or in hand with the last batch. */
  predicate TooLate(s: State) { !s.task.Stopped? && Sentinels(s.queue) >= Live(s) }

  /** A record is stranded as it is enqueued exactly if it comes too late. */
  lemma StrandedAtLog(cfg: Config, s: State, record: Json)
    requires Tracked(s)
    ensures Stranded(Step(cfg, s, Log(record)), |s.datas|) <==> TooLate(s)
  {
    var t := Step(cfg, s, Log(record));
    var id := |s.datas|;
    LiveIs(s);
    LiveIs(t);
    NotHeldYet(s, id);
    AppendSlot(s.queue, Rec(Item(id, Prepared(record))), id, Live(t));
    assert !InHand(t, id) by { assert BatchOf(t.task) == BatchOf(s.task) && t.strays == s.strays; }
  }

  lemma NotInBatch(items: seq<Item>, datas: seq<Json>, id: nat)
    requires ItemsMatch(items, datas) && id >= |datas|
    ensures id !in Ids(items)
  {
    forall i | 0 <= i < |items| ensures Ids(items)[i] != id { assert items[i].id < |datas|; }
  }

  /** Ids count the calls of `log`, so the next one is nowhere yet. */
  lemma NotHeldYet(s: State, id: nat)
    requires Tracked(s) && id >= |s.datas|
    ensures !InHand(s, id) && forall k: nat :: Behind(s.queue, id, k)
  {
    forall k: nat ensures Behind(s.queue, id, k) {
      if !Behind(s.queue, id, k) {
        BehindIsQueued(s.queue, id, k);
        QueuedIsRec(s.queue, id);
        NotInBatch(RecsOf(s.queue), s.datas, id);
      }
    }
    NotInBatch(BatchOf(s.task), s.datas, id);
    forall j | 0 <= j < |s.strays| ensures id !in Ids(BatchOf(s.strays[j])) { NotInBatch(BatchOf(s.strays[j]), s.datas, id); }
  }

  // ------------------------------------------------------- over whole runs

  /** Event `j` of the run frees the record. */
  ghost predicate FreedAt(cfg: Config, evs: seq<Event>, j: nat, id: nat)
    requires j < |evs|
  {
    Frees(After(cfg, evs[..j]), evs[j], id)
  }

  lemma DatasGrow(cfg: Config, s: State, ev: Event)
    ensures |s.datas| <= |Step(cfg, s, ev).datas|
  {
  }

  lemma {:induction false} DatasGrowAll(cfg: Config, evs: seq<Event>, n: nat)
    requires n <= |evs|
    ensures |After(cfg, evs[..n]).datas| <= |After(cfg, evs).datas|
  {
    if n == |evs| {
      assert evs[..n] == evs;
    } else {
      var rest := evs[..|evs| - 1];
      assert rest[..n] == evs[..n];
      DatasGrowAll(cfg, rest, n);
      DatasGrow(cfg, After(cfg, rest), Last(evs));
    }
  }

  /** Some event after the n-th frees the record. */
  ghost predicate FreedSince(cfg: Config, evs: seq<Event>, n: nat, id: nat) {
    exists j :: n < j < |evs| && FreedAt(cfg, evs, j, id)
  }

  lemma FreedSplits(cfg: Config, evs: seq<Event>, n: nat, id: nat)
    requires n < |evs| - 1
    ensures FreedSince(cfg, evs, n, id)
      <==> FreedSince(cfg, evs[..|evs| - 1], n, id) || Frees(After(cfg, evs[..|evs| - 1]), Last(evs), id)
  {
    var rest := evs[..|evs| - 1];
    forall j | 0 <= j < |rest| ensures FreedAt(cfg, rest, j, id) <==> FreedAt(cfg, evs, j, id) { assert rest[..j] == evs[..j]; }
    assert FreedAt(cfg, evs, |evs| - 1, id) <==> Frees(After(cfg, rest), Last(evs), id);
  }

  /** When a future stays pending, over every run, with `log` and `aclose` overlapping at will: the
      record of the n-th event is stranded at the end exactly if it was enqueued too late and no
      event since freed it: no `log` that found the flusher stopped, no restart, and its caller
      has not given up. */
  lemma {:induction false} StrandedExactly(cfg: Config, evs: seq<Event>, n: nat)
    requires Run(cfg, evs) && n < |evs| && evs[n].Log?
    ensures var id := |After(cfg, evs[..n]).datas|;
      Stranded(After(cfg, evs), id) <==> TooLate(After(cfg, evs[..n])) && !FreedSince(cfg, evs, n, id)
    decreases |evs|
  {
    var rest := evs[..|evs| - 1];
    var id := |After(cfg, evs[..n]).datas|;
    RunPrefix(cfg, evs);
    RunTracked(cfg, rest);
    if n == |rest| {
      StrandedAtLog(cfg, After(cfg, rest), evs[n].record);
    } else {
      assert rest[..n] == evs[..n];
      StrandedExactly(cfg, rest, n);
      LoggedBefore(cfg, evs, n);
      StrandedStep(cfg, After(cfg, rest), Last(evs), id);
      FreedSplits(cfg, evs, n, id);
    }
  }

  lemma LoggedBefore(cfg: Config, evs: seq<Event>, n: nat)
    requires Run(cfg, evs) && n < |evs| - 1 && evs[n].Log?
    ensures |After(cfg, evs[..n]).datas| < |After(cfg, evs[..|evs| - 1]).futures|
  {
    var rest := evs[..|evs| - 1];
    RunPrefix(cfg, evs);
    RunTracked(cfg, rest);
    DatasGrowAll(cfg, rest, n + 1);
    assert rest[..n + 1] == evs[..n + 1] && evs[..n + 1][..n] == evs[..n];
  }

  // ------------------------------------------------------ rescue of the rest

  /** A flusher by number: the one at work, or a stray. */
  function As(f: nat, ev: Event): Event { if f == 0 then ev else Stray(f - 1, ev) }

  function TaskOf(s: State, f: nat): Task
    requires f <= |s.strays|
  {
    if f == 0 then s.task else s.strays[f - 1]
  }

  function WithTask(s: State, f: nat, t: Task): State
    requires f <= |s.strays|
  {
    if f == 0 then s.(task := t) else s.(strays := s.strays[f - 1 := t])
  }

  lemma WriteAs(cfg: Config, s: State, f: nat)
    requires f <= |s.strays| && TaskOf(s, f).Writing?
    ensures Enabled(cfg, s, As(f, WriteOk))
    ensures var t := Step(cfg, s, As(f, WriteOk));
      && t.queue == s.queue && t.phase == s.phase && t.futures == Settle(s.futures, TaskOf(s, f).batch, Done)
      && t.task == WithTask(s, f, AfterWrite(TaskOf(s, f))).task && t.strays == WithTask(s, f, AfterWrite(TaskOf(s, f))).strays
  {
    if f > 0 {
      assert s.strays[f - 1 := s.task][f - 1 := AfterWrite(TaskOf(s, f))]
        == s.strays[f - 1 := AfterWrite(TaskOf(s, f))];
    }
  }

  lemma TakeAs(cfg: Config, s: State, f: nat)
    requires f <= |s.strays| && TaskOf(s, f).Waiting? && s.queue != []
    ensures Enabled(cfg, s, As(f, Take))
    ensures var t := Step(cfg, s, As(f, Take));
      t.queue == DrainRest(s.queue) && t.futures == s.futures && t.strays == WithTask(s, f, TaskOf(t, f)).strays
        && |t.strays| == |s.strays|
      && t.task == WithTask(s, f, TaskOf(t, f)).task && BatchOf(TaskOf(t, f)) == DrainItems(s.queue)
  {
    assert s.queue[0].Sentinel? ==> DrainItems(s.queue) == [] && DrainRest(s.queue) == s.queue[1..];
  }

  /** A step of some flusher. */
  predicate ByFlusher(ev: Event) { Flushes(ev) || ev.Stray? }

  lemma HolderOf(s: State, id: nat) returns (f: nat)
    requires InHand(s, id)
    ensures f <= |s.strays| && TaskOf(s, f).Writing? && id in Ids(TaskOf(s, f).batch)
  {
    if id in Ids(BatchOf(s.task)) {
      f := 0;
    } else {
      var i :| 0 <= i < |s.strays| && id in Ids(BatchOf(s.strays[i]));
      f := i + 1;
    }
  }

  lemma {:induction false} AliveAmong(ts: seq<Task>) returns (i: nat)
    requires AliveIn(ts) > 0
    ensures i < |ts| && Alive(ts[i])
    decreases |ts|
  {
    if Alive(ts[0]) {
      i := 0;
    } else {
      i := AliveAmong(ts[1..]);
      i := i + 1;
    }
  }

  lemma AliveFlusher(s: State) returns (f: nat)
    requires Live(s) > 0
    ensures f <= |s.strays| && Alive(TaskOf(s, f))
  {
    f := AliveAmong([s.task] + s.strays);
  }

  lemma WrittenIsDone(cfg: Config, s: State, f: nat, id: nat)
    requires f <= |s.strays| && TaskOf(s, f).Writing? && id in Ids(TaskOf(s, f).batch)
    requires id < |s.futures| && s.futures[id].Pending?
    ensures Enabled(cfg, s, As(f, WriteOk)) && Step(cfg, s, As(f, WriteOk)).futures[id].Done?
  {
    WriteAs(cfg, s, f);
    SettleAt(s.futures, TaskOf(s, f).batch, Done, id);
  }

  ghost predicate Waits(s: State, id: nat) { Tracked(s) && id < |s.futures| && s.futures[id].Pending? && !Stranded(s, id) }

  /** A flusher that is writing something else comes back to the queue. */
  lemma ComesBack(cfg: Config, s: State, f: nat, id: nat)
    requires Waits(s, id) && !InHand(s, id) && f <= |s.strays| && TaskOf(s, f).Writing? && Alive(TaskOf(s, f))
    ensures var t := Step(cfg, s, As(f, WriteOk));
      && Enabled(cfg, s, As(f, WriteOk)) && Waits(t, id) && t.queue == s.queue && f <= |t.strays| && TaskOf(t, f).Waiting?
  {
    var t := Step(cfg, s, As(f, WriteOk));
    WriteAs(cfg, s, f);
    TrackedStep(cfg, s, As(f, WriteOk));
    assert id !in Ids(TaskOf(s, f).batch) by { assert f > 0 ==> s.strays[f - 1] == TaskOf(s, f); }
    SettleAt(s.futures, TaskOf(s, f).batch, Done, id);
    StrandedStep(cfg, s, As(f, WriteOk), id);
  }

  /** A waiting flusher takes the record, or is out of its way with its sentinel. */
  lemma TakesNearer(cfg: Config, s: State, f: nat, id: nat)
    requires Waits(s, id) && !InHand(s, id) && f <= |s.strays| && TaskOf(s, f).Waiting?
    ensures var t := Step(cfg, s, As(f, Take));
      && Enabled(cfg, s, As(f, Take)) && Waits(t, id) && (InHand(t, id) || Sentinels(t.queue) < Sentinels(s.queue))
  {
    var t := Step(cfg, s, As(f, Take));
    BehindZero(s.queue, id);
    assert s.queue != [] && Live(s) > 0;
    TakeAs(cfg, s, f);
    TrackedStep(cfg, s, As(f, Take));
    StrandedStep(cfg, s, As(f, Take), id);
    DrainSentinels(s.queue);
    if id in Ids(DrainItems(s.queue)) {
      assert f > 0 ==> t.strays[f - 1] == TaskOf(t, f);
    } else {
      NotBehindDrain(s.queue, id, Live(s));
    }
  }

  /** Steps of flushers, no more than `bound`, after which the future is resolved. */
  ghost predicate Helps(cfg: Config, s: State, evs: seq<Event>, id: nat, bound: nat) {
    && RunFrom(cfg, s, evs) && |evs| <= bound && (forall n :: 0 <= n < |evs| ==> ByFlusher(evs[n]))
    && id < |Follow(cfg, s, evs).futures| && Follow(cfg, s, evs).futures[id].Done?
  }

  lemma HelpsCons(cfg: Config, s: State, ev: Event, evs: seq<Event>, id: nat, bound: nat)
    requires Enabled(cfg, s, ev) && ByFlusher(ev) && Helps(cfg, Step(cfg, s, ev), evs, id, bound)
    ensures Helps(cfg, s, [ev] + evs, id, bound + 1)
  {
    FollowCons(cfg, s, ev, evs);
  }

  lemma WriteHelps(cfg: Config, s: State, id: nat) returns (evs: seq<Event>)
    requires Waits(s, id) && InHand(s, id)
    ensures Helps(cfg, s, evs, id, 1)
  {
    var f := HolderOf(s, id);
    WrittenIsDone(cfg, s, f, id);
    HelpsCons(cfg, s, As(f, WriteOk), [], id, 0);
    evs := [As(f, WriteOk)] + [];
  }

  /** Whoever waits and is not stranded is resolved by a few steps of the flushers. */
  lemma {:induction false} Rescue(cfg: Config, s: State, id: nat) returns (evs: seq<Event>)
    requires Waits(s, id) && !InHand(s, id)
    ensures Helps(cfg, s, evs, id, 3 * Sentinels(s.queue) + 3)
    decreases Sentinels(s.queue), 1
  {
    BehindZero(s.queue, id);
    var f := AliveFlusher(s);
    if TaskOf(s, f).Waiting? {
      evs := RescueTake(cfg, s, f, id);
    } else {
      ComesBack(cfg, s, f, id);
      StillNotHeld(cfg, s, f, id);
      evs := RescueTake(cfg, Step(cfg, s, As(f, WriteOk)), f, id);
      HelpsCons(cfg, s, As(f, WriteOk), evs, id, 3 * Sentinels(s.queue) + 2);
      evs := [As(f, WriteOk)] + evs;
    }
  }

  lemma StillNotHeld(cfg: Config, s: State, f: nat, id: nat)
    requires f <= |s.strays| && TaskOf(s, f).Writing? && !InHand(s, id)
    ensures !InHand(Step(cfg, s, As(f, WriteOk)), id)
  {
    WriteAs(cfg, s, f);
  }

  lemma {:induction false} RescueTake(cfg: Config, s: State, f: nat, id: nat) returns (evs: seq<Event>)
    requires Waits(s, id) && !InHand(s, id) && f <= |s.strays| && TaskOf(s, f).Waiting?
    ensures Helps(cfg, s, evs, id, 3 * Sentinels(s.queue) + 2)
    decreases Sentinels(s.queue), 0
  {
    var t := Step(cfg, s, As(f, Take));
    TakesNearer(cfg, s, f, id);
    if InHand(t, id) {
      evs := WriteHelps(cfg, t, id);
      HelpsCons(cfg, s, As(f, Take), evs, id, 1);
    } else {
      evs := Rescue(cfg, t, id);
      HelpsCons(cfg, s, As(f, Take), evs, id, 3 * Sentinels(t.queue) + 3);
    }
    evs := [As(f, Take)] + evs;
  }

  /** Nothing the flushers do resolves a stranded record. */
  lemma {:induction false} StrandedStays(cfg: Config, s: State, evs: seq<Event>, id: nat)
    requires Tracked(s) && Stranded(s, id) && RunFrom(cfg, s, evs) && forall n :: 0 <= n < |evs| ==> ByFlusher(evs[n])
    ensures Stranded(Follow(cfg, s, evs), id)
    decreases |evs|
  {
    if evs != [] {
      TrackedStep(cfg, s, evs[0]);
      StrandedStep(cfg, s, evs[0], id);
      assert forall n :: 0 <= n < |evs[1..]| ==> evs[1..][n] == evs[n + 1];
      StrandedStays(cfg, Step(cfg, s, evs[0]), evs[1..], id);
    }
  }

  /** After every run, a pending future is resolved by at most six steps of the flushers exactly if
      it is not stranded; if it is, no number of such steps resolves it. */
  lemma PendingResolvesExactly(cfg: Config, evs: seq<Event>, id: nat)
    requires Run(cfg, evs) && id < |After(cfg, evs).futures| && After(cfg, evs).futures[id].Pending?
    ensures (exists more :: Helps(cfg, After(cfg, evs), more, id, 6)) <==> !Stranded(After(cfg, evs), id)
    ensures Stranded(After(cfg, evs), id) ==>
      forall more :: RunFrom(cfg, After(cfg, evs), more) && (forall n :: 0 <= n < |more| ==> ByFlusher(more[n])) ==>
        Stranded(Follow(cfg, After(cfg, evs), more), id)
  {
    var s := After(cfg, evs);
    RunTracked(cfg, evs);
    if Stranded(s, id) {
      forall more | RunFrom(cfg, s, more) && (forall n :: 0 <= n < |more| ==> ByFlusher(more[n]))
        ensures Stranded(Follow(cfg, s, more), id)
      {
        StrandedStays(cfg, s, more, id);
      }
    } else {
      var more: seq<Event>;
      if InHand(s, id) { more := WriteHelps(cfg, s, id); } else { more := Rescue(cfg, s, id); }
      assert Helps(cfg, s, more, id, 6);
    }
  }

  /** With no `log` inside an `aclose` nobody is ever stranded. */
  lemma ApartNeverStranded(cfg: Config, evs: seq<Event>, id: nat)
    requires Run(cfg, evs) && ApartRun(cfg, evs)
    ensures !Stranded(After(cfg, evs), id)
  {
    var s := After(cfg, evs);
    RunSettling(cfg, evs);
    if Stranded(s, id) {
      LiveIs(s);
      OrderlyBehind(s.queue, id, Live(s));
    }
  }

  /** Before a last sentinel nothing is behind any. */
  lemma {:induction false} OrderlyBehind(q: seq<Slot>, id: nat, k: nat)
    requires SentinelLast(q) && k > 0 && Behind(q, id, k)
    ensures id !in Ids(DrainItems(q))
    decreases |q|
  {
    BehindDrain(q, id, k);
  }

  /** A record, a close, and a record enqueued behind its sentinel. */
  function LateLogs(a: Json, b: Json): seq<Event> { [Log(a)] + [CloseBegin] + [Log(b)] }

  lemma LateEnqueued(cfg: Config, a: Json, b: Json)
    requires Plain(a) && Plain(b)
    ensures var s := After(cfg, LateLogs(a, b));
      && Run(cfg, LateLogs(a, b)) && s.task == Waiting && s.strays == [] && s.phase == Awaiting && |s.datas| == 2
      && s.queue == [Rec(Item(0, Prepared(a)))] + [Sentinel] + [Rec(Item(1, Prepared(b)))] && s.futures == [Pending] + [Pending]
  {
    var e1 := [Log(a)];
    assert [] + e1 == e1;
    AfterLast(cfg, [], Log(a));
    AfterLast(cfg, e1, CloseBegin);
    AfterLast(cfg, e1 + [CloseBegin], Log(b));
    assert [] + [Rec(Item(0, Prepared(a)))] == [Rec(Item(0, Prepared(a)))] && [] + [Pending] == [Pending];
  }

  lemma LateQueue(a: Item, b: Item)
    ensures var q := [Rec(a)] + [Sentinel] + [Rec(b)]; DrainItems(q) == [a] && DrainStops(q) && DrainRest(q) == [Rec(b)]
  {
    var q := [Rec(a)] + [Sentinel] + [Rec(b)];
    assert q[1..] == [Sentinel, Rec(b)] && q[1..][1..] == [Rec(b)];
    assert DrainItems(q[1..]) == [];
  }

  /** The flusher takes what stands before the sentinel, writes it and stops. */
  lemma StopsAtSentinel(cfg: Config, s: State, a: Item, b: Item)
    requires s.task == Waiting && s.phase == Awaiting && s.queue == [Rec(a)] + [Sentinel] + [Rec(b)] && a.id == 0
    requires s.futures == [Pending] + [Pending]
    ensures var t := Step(cfg, s, Take); var u := Step(cfg, t, WriteOk); var v := Step(cfg, u, CloseEnd);
      && Enabled(cfg, s, Take) && Enabled(cfg, t, WriteOk) && Enabled(cfg, u, CloseEnd)
      && v.task == Stopped && v.strays == s.strays && v.queue == [Rec(b)] && v.futures == [Done] + [Pending]
  {
    LateQueue(a, b);
    assert Settle(s.futures, [a], Done) == Settle([Done] + [Pending], [], Done);
  }

  function LateRun(a: Json, b: Json): seq<Event> { LateLogs(a, b) + [Take] + [WriteOk] + [CloseEnd] }

  lemma LateRunState(cfg: Config, a: Json, b: Json)
    requires Plain(a) && Plain(b)
    ensures var s := After(cfg, LateRun(a, b));
      && Run(cfg, LateRun(a, b)) && s.task == Stopped && s.strays == []
      && s.queue == [Rec(Item(1, Prepared(b)))] && s.futures == [Done] + [Pending]
  {
    var late := LateLogs(a, b);
    LateEnqueued(cfg, a, b);
    StopsAtSentinel(cfg, After(cfg, late), Item(0, Prepared(a)), Item(1, Prepared(b)));
    AfterLast(cfg, late, Take);
    AfterLast(cfg, late + [Take], WriteOk);
    AfterLast(cfg, late + [Take] + [WriteOk], CloseEnd);
  }

  /** A `log` that finds the flusher stopped starts one, which takes what was left as well. */
  lemma LogTakesBoth(cfg: Config, s: State, b: Item, record: Json)
    requires Plain(record) && s.task == Stopped && s.queue == [Rec(b)] && b.id == 1 && s.futures == [Done] + [Pending]
      && |s.datas| == 2
    ensures var t := Step(cfg, s, Log(record)); var u := Step(cfg, t, Take); var v := Step(cfg, u, WriteOk);
      && Enabled(cfg, s, Log(record)) && Enabled(cfg, t, Take) && Enabled(cfg, u, WriteOk) && v.futures == [Done, Done, Done]
  {
    var c := Item(2, Prepared(record));
    var q := [Rec(b)] + [Rec(c)];
    assert Step(cfg, s, Log(record)).queue == q;
    assert q[1..] == [Rec(c)] && q[1..][1..] == [];
    assert DrainItems([]) == [] && DrainItems(q[1..]) == [c] && DrainItems(q) == [b, c];
    var fs := [Done, Pending, Pending];
    assert [b, c][0] == b && [b, c][1..] == [c] && [c][0] == c && [c][1..] == [];
    assert fs[1 := Done] == [Done, Done, Pending] && [Done, Done, Pending][2 := Done] == [Done, Done, Done];
    assert Settle([Done, Done, Pending], [c], Done) == Settle([Done, Done, Done], [], Done);
    assert Settle(fs, [b, c], Done) == Settle([Done, Done, Pending], [c], Done);
    assert [Done] + [Pending] + [Pending] == fs;
  }

  /** It does happen: a record enqueued behind the sentinel is stranded once the flusher has
      stopped. The next call of `log` frees it: one batch resolves both. */
  lemma OverlappingLogStrands(cfg: Config, a: Json, b: Json, c: Json)
    requires Plain(a) && Plain(b) && Plain(c)
    ensures Run(cfg, LateRun(a, b)) && Stranded(After(cfg, LateRun(a, b)), 1)
    ensures var evs := LateRun(a, b) + [Log(c)] + [Take] + [WriteOk];
      Run(cfg, evs) && After(cfg, evs).futures == [Done, Done, Done]
  {
    var late := LateRun(a, b);
    LateRunState(cfg, a, b);
    RunTracked(cfg, late);
    var s := After(cfg, late);
    LiveIs(s);
    BehindZero(s.queue, 1);
    assert Ids(BatchOf(s.task)) == [];
    LogTakesBoth(cfg, s, Item(1, Prepared(b)), c);
    AfterLast(cfg, late, Log(c));
    AfterLast(cfg, late + [Log(c)], Take);
    AfterLast(cfg, late + [Log(c)] + [Take], WriteOk);
  }
}
