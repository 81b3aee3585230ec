/** What is on disk after every run of the writer, signed or not, whatever writes failed and
    whatever overlapped: which records, and whose callers may rely on it. */
module AuditDisk {
  import opened Common
  import opened AuditChain
  import opened AuditLogger
  import opened AuditRuns

  /** A line the writer makes of a record: signed with some digest, or plain if there is no secret. */
  ghost predicate Renders(cfg: Config, line: string, data: Json) {
    if cfg.secret != "" then exists d: string :: line == LineOf(cfg.lib, data, d) else line == cfg.lib.dumpsSpaced(data)
  }

  /** The file is these lines, one for each record persisted. */
  ghost predicate Shows(cfg: Config, s: State, lines: seq<string>) {
    && |lines| == |s.persisted| && Text(s.file) == Unlines(lines)
    && forall i :: 0 <= i < |lines| ==> s.persisted[i] < |s.datas| && Renders(cfg, lines[i], s.datas[s.persisted[i]])
  }

  ghost predicate BatchesMatch(s: State) {
    && ItemsMatch(BatchOf(s.task), s.datas)
    && (forall i :: 0 <= i < |s.strays| ==> ItemsMatch(BatchOf(s.strays[i]), s.datas))
    && ItemsMatch(RecsOf(s.queue), s.datas)
  }

  function RecsOf(q: seq<Slot>): seq<Item> {
    if q == [] then [] else (if q[0].Rec? then [q[0].item] else []) + RecsOf(q[1..])
  }

  /** With fail_closed, whose future is done has the record among those persisted. */
  ghost predicate DoneKept(cfg: Config, s: State) {
    |s.futures| == |s.datas|
    && (cfg.failClosed ==> forall id: nat :: id < |s.futures| && s.futures[id].Done? ==> id in s.persisted)
  }

  lemma {:induction false} ChainRenders(cfg: Config, prev: string, datas: seq<Json>, i: nat)
    requires cfg.secret != "" && i < |datas|
    ensures Renders(cfg, LinesOf(cfg.lib, Chain(cfg.lib, cfg.secret, prev, datas))[i], datas[i])
    decreases |datas|
  {
    if i > 0 { ChainRenders(cfg, Sign(cfg.lib, cfg.secret, prev, datas[0]), datas[1..], i - 1); }
  }

  lemma {:induction false} PlainRenders(cfg: Config, datas: seq<Json>, i: nat)
    requires cfg.secret == "" && i < |datas|
    ensures Renders(cfg, PlainLines(cfg.lib, datas)[i], datas[i])
    decreases |datas|
  {
    if i > 0 { PlainRenders(cfg, datas[1..], i - 1); }
  }

  lemma BatchRenders(cfg: Config, prev: string, batch: seq<Item>)
    ensures forall i :: 0 <= i < |batch| ==> Renders(cfg, BatchLines(cfg, prev, batch)[i], batch[i].data)
  {
    forall i | 0 <= i < |batch| ensures Renders(cfg, BatchLines(cfg, prev, batch)[i], batch[i].data) {
      if cfg.secret != "" { ChainRenders(cfg, prev, Datas(batch), i); } else { PlainRenders(cfg, Datas(batch), i); }
    }
  }

  /** Appending lines of a batch. */
  lemma ShowsMore(cfg: Config, s: State, t: State, lines: seq<string>, items: seq<Item>, added: seq<string>)
    requires Shows(cfg, s, lines) && ItemsMatch(items, s.datas) && |added| == |items|
    requires forall i :: 0 <= i < |items| ==> Renders(cfg, added[i], items[i].data)
    requires t.datas == s.datas && t.persisted == s.persisted + Ids(items) && Text(t.file) == Text(s.file) + Unlines(added)
    ensures Shows(cfg, t, lines + added)
  {
    UnlinesAppend(lines, added);
    var all := lines + added;
    forall i | 0 <= i < |all| ensures t.persisted[i] < |t.datas| && Renders(cfg, all[i], t.datas[t.persisted[i]]) {
      if i >= |lines| {
        assert all[i] == added[i - |lines|] && t.persisted[i] == items[i - |lines|].id;
      } else {
        assert all[i] == lines[i] && t.persisted[i] == s.persisted[i];
      }
    }
  }

  lemma ShowsWrite(cfg: Config, s: State, ev: Event, lines: seq<string>) returns (after: seq<string>)
    requires Shows(cfg, s, lines) && ItemsMatch(BatchOf(s.task), s.datas) && (ev.WriteOk? || ev.WriteFail?) && CanAct(s, ev)
    ensures Shows(cfg, Act(cfg, s, ev), after)
  {
    var batch := s.task.batch;
    var all := BatchLines(cfg, Origin(s).prev, batch);
    BatchRenders(cfg, Origin(s).prev, batch);
    var kept := if ev.WriteOk? then |batch| else ev.kept;
    assert all[..|batch|] == all && batch[..|batch|] == batch && Unlines([]) == "";
    after := lines + all[..kept];
    ShowsMore(cfg, s, Act(cfg, s, ev), lines, batch[..kept], all[..kept]);
  }

  lemma ShowsAct(cfg: Config, s: State, ev: Event, lines: seq<string>) returns (after: seq<string>)
    requires Shows(cfg, s, lines) && ItemsMatch(BatchOf(s.task), s.datas) && CanAct(s, ev)
    ensures Shows(cfg, Act(cfg, s, ev), after)
  {
    after := lines;
    if ev.WriteOk? || ev.WriteFail? { after := ShowsWrite(cfg, s, ev, lines); }
  }

  lemma ShowsStep(cfg: Config, s: State, ev: Event, lines: seq<string>) returns (after: seq<string>)
    requires Shows(cfg, s, lines) && BatchesMatch(s) && Enabled(cfg, s, ev)
    ensures Shows(cfg, Step(cfg, s, ev), after)
  {
    if ev.Stray? {
      after := ShowsAct(cfg, Swap(s, ev.i), ev.ev, lines);
    } else {
      after := ShowsAct(cfg, s, ev, lines);
    }
  }

  lemma DoneAct(cfg: Config, s: State, ev: Event)
    requires DoneKept(cfg, s) && CanAct(s, ev)
    ensures DoneKept(cfg, Act(cfg, s, ev))
  {
    if ev.WriteOk? || ev.WriteFail? {
      var f := if ev.WriteOk? || !cfg.failClosed then Done else Failed;
      forall id: nat | id < |s.futures|
        ensures Act(cfg, s, ev).futures[id] == if s.futures[id].Pending? && id in Ids(s.task.batch) then f else s.futures[id]
      {
        SettleAt(s.futures, s.task.batch, f, id);
      }
    }
  }

  lemma DoneStep(cfg: Config, s: State, ev: Event)
    requires DoneKept(cfg, s) && Enabled(cfg, s, ev)
    ensures DoneKept(cfg, Step(cfg, s, ev))
  {
    if ev.Stray? { DoneAct(cfg, Swap(s, ev.i), ev.ev); } else { DoneAct(cfg, s, ev); }
  }

  // --------------------------------------------------- what is under way

  lemma {:induction false} RecsAppend(a: seq<Slot>, b: seq<Slot>)
    ensures RecsOf(a + b) == RecsOf(a) + RecsOf(b)
    decreases |a|
  {
    if a == [] {
      assert a + b == b;
    } else {
      RecsAppend(a[1..], b);
      assert (a + b)[1..] == a[1..] + b;
    }
  }

  lemma {:induction false} RecsDrain(q: seq<Slot>)
    ensures RecsOf(q) == DrainItems(q) + RecsOf(DrainRest(q))
    decreases |q|
  {
    if q != [] && q[0].Rec? { RecsDrain(q[1..]); }
  }

  lemma MatchSplit(a: seq<Item>, b: seq<Item>, datas: seq<Json>)
    ensures ItemsMatch(a + b, datas) <==> ItemsMatch(a, datas) && ItemsMatch(b, datas)
  {
    if ItemsMatch(a + b, datas) {
      forall i | 0 <= i < |a| ensures a[i].id < |datas| && a[i].data == datas[a[i].id] { assert (a + b)[i] == a[i]; }
      forall i | 0 <= i < |b| ensures b[i].id < |datas| && b[i].data == datas[b[i].id] { assert (a + b)[|a| + i] == b[i]; }
    }
  }

  lemma MatchLog(cfg: Config, s: State, record: Json)
    requires BatchesMatch(s)
    ensures BatchesMatch(Act(cfg, s, Log(record)))
  {
    var item := Item(|s.datas|, Prepared(record));
    var t := Act(cfg, s, Log(record));
    RecsAppend(s.queue, [Rec(item)]);
    assert RecsOf([Rec(item)]) == [item];
    assert t.datas == s.datas + [item.data];
    assert ItemsMatch(RecsOf(s.queue), t.datas) && ItemsMatch([item], t.datas);
    MatchSplit(RecsOf(s.queue), [item], t.datas);
    assert BatchOf(t.task) == BatchOf(s.task);
  }

  lemma MatchTake(cfg: Config, s: State)
    requires BatchesMatch(s) && s.task.Waiting? && s.queue != []
    ensures BatchesMatch(Act(cfg, s, Take))
  {
    RecsDrain(s.queue);
    MatchSplit(DrainItems(s.queue), RecsOf(DrainRest(s.queue)), s.datas);
    assert s.queue[0].Sentinel? ==> RecsOf(s.queue[1..]) == RecsOf(s.queue);
  }

  lemma MatchClose(cfg: Config, s: State, ev: Event)
    requires BatchesMatch(s) && (ev.CloseBegin? || ev.CloseEnd?)
    ensures BatchesMatch(Act(cfg, s, ev))
  {
    RecsAppend(s.queue, [Sentinel]);
    assert RecsOf([Sentinel]) == [] && RecsOf(s.queue) + [] == RecsOf(s.queue);
  }

  lemma MatchAct(cfg: Config, s: State, ev: Event)
    requires BatchesMatch(s) && CanAct(s, ev)
    ensures BatchesMatch(Act(cfg, s, ev))
  {
    match ev
    case Log(record) => MatchLog(cfg, s, record);
    case Take => MatchTake(cfg, s);
    case CloseBegin => MatchClose(cfg, s, ev);
    case CloseEnd => MatchClose(cfg, s, ev);
    case _ =>
  }

  lemma MatchStep(cfg: Config, s: State, ev: Event)
    requires BatchesMatch(s) && Enabled(cfg, s, ev)
    ensures BatchesMatch(Step(cfg, s, ev))
  {
    if ev.Stray? { MatchAct(cfg, Swap(s, ev.i), ev.ev); } else { MatchAct(cfg, s, ev); }
  }

  lemma {:induction false} RunShows(cfg: Config, evs: seq<Event>) returns (lines: seq<string>)
    requires Run(cfg, evs)
    ensures Shows(cfg, After(cfg, evs), lines) && BatchesMatch(After(cfg, evs)) && DoneKept(cfg, After(cfg, evs))
    ensures AllPlain(After(cfg, evs).datas)
  {
    if evs == [] {
      lines := [];
    } else {
      var rest := evs[..|evs| - 1];
      RunPrefix(cfg, evs);
      lines := RunShows(cfg, rest);
      var s := After(cfg, rest);
      lines := ShowsStep(cfg, s, Last(evs), lines);
      MatchStep(cfg, s, Last(evs));
      DoneStep(cfg, s, Last(evs));
      PlainStep(cfg, s, Last(evs));
    }
  }

  // ------------------------------------------------------------- durability

  /** Reading a line gives the record: with its signature, or as it is. */
  ghost predicate Says(cfg: Config, text: string, data: Json) {
    if cfg.secret != "" then exists d: string :: EntryOf(cfg.lib, text) == Some(Entry(data, d))
      else cfg.lib.loads(text) == Some(data)
  }

  lemma RenderedReads(cfg: Config, line: string, data: Json)
    requires Faithful(cfg.lib) && Plain(data) && Renders(cfg, line, data)
    ensures Printable(line) && Says(cfg, line, data)
  {
    if cfg.secret != "" {
      var d: string :| line == LineOf(cfg.lib, data, d);
      LineReads(cfg.lib, data, d);
    } else {
      assert data == Obj(data.fields);
    }
  }

  /** The file holds exactly the records persisted, one readable line for each, in order; this over
      every run, signed or not, with failing writes that leave lines, restarts and overlaps. */
  lemma FileHoldsPersisted(cfg: Config, evs: seq<Event>)
    requires Faithful(cfg.lib) && Run(cfg, evs)
    ensures var s := After(cfg, evs); var ls := FileLines(Text(s.file));
      && |ls| == |s.persisted|
      && forall i :: 0 <= i < |ls| ==> s.persisted[i] < |s.datas| && Says(cfg, ls[i].text, s.datas[s.persisted[i]])
  {
    var lines := RunShows(cfg, evs);
    var s := After(cfg, evs);
    forall i | 0 <= i < |lines| ensures Printable(lines[i]) && Says(cfg, lines[i], s.datas[s.persisted[i]]) {
      RenderedReads(cfg, lines[i], s.datas[s.persisted[i]]);
    }
    LinesOfUnlines(lines);
    NonBlankPrintable(lines, 1);
  }

  /** With fail_closed, a caller that returns normally finds its record on disk, over every such
      run. */
  lemma DoneMeansDurable(cfg: Config, evs: seq<Event>, id: nat) returns (line: nat)
    requires Faithful(cfg.lib) && Run(cfg, evs) && cfg.failClosed
    requires id < |After(cfg, evs).futures| && After(cfg, evs).futures[id].Done?
    ensures var s := After(cfg, evs); var ls := FileLines(Text(s.file));
      line < |ls| && id < |s.datas| && Says(cfg, ls[line].text, s.datas[id])
  {
    var s := After(cfg, evs);
    var lines := RunShows(cfg, evs);
    FileHoldsPersisted(cfg, evs);
    line :| 0 <= line < |s.persisted| && s.persisted[line] == id;
  }
}
