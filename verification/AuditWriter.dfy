/** The audit logger as the object it is. Each method is one atomic stretch of the program,
    between two awaits, and performs the event of the same name. */
module AuditWriter {
  import opened Common
  import opened AuditChain
  import opened AuditLogger

  /** What the disk does with a batch. */
  datatype Disk = Flushed | Refused(touched: bool, kept: nat)

  function EventOf(disk: Disk): Event {
    match disk case Flushed => WriteOk case Refused(touched, kept) => WriteFail(touched, kept)
  }

  /** What a flusher with a batch in hand signed it from, which the program keeps in a local variable. */
  ghost function Seen(t: Task, from: Option<Anchor>): Task { if t.Writing? then t.(from := from) else t }

  class AuditLog {
    const cfg: Config
    var queue: seq<Slot>
    var task: Task
    var handle: bool
    var prevHash: string
    var futures: seq<Future>
    var phase: Phase
    ghost var strays: seq<Task>
    var file: Option<string>
    ghost var from: Option<Anchor>
    ghost var datas: seq<Json>
    ghost var persisted: seq<nat>
    ghost var head: nat

    ghost function State(): AuditLogger.State
      reads this
    {
      AuditLogger.State(queue, Seen(task, from), strays, prevHash, handle, file, futures, phase, datas, persisted, head)
    }

    /** A fresh process over the file it finds. */
    constructor (cfg: Config, file: Option<string>)
      ensures this.cfg == cfg && this.file == file && queue == [] && task == Stopped && strays == [] && !handle
        && phase == NotClosing
      ensures prevHash == Seed(cfg, file)
      ensures file == None ==> State() == Initial
    {
      this.cfg := cfg;
      this.file := file;
      queue, task, strays, handle, futures, phase := [], Stopped, [], false, [], NotClosing;
      from, datas, persisted, head := None, [], [], 0;
      prevHash := GENESIS;
      new;
      if cfg.secret != "" {
        prevHash := LoadLastHash();
      }
    }

    /** `_load_last_hash`: a scan for the last non-blank line. */
    method LoadLastHash() returns (hash: string)
      ensures hash == LoadLast(cfg.lib, file)
    {
      if file.None? {
        return GENESIS;
      }
      var lines := Lines(file.value);
      var last := "";
      assert lines[0..] == lines;
      for i := 0 to |lines|
        invariant last == "" || Strip(last) == last
        invariant var rest := NonBlank(lines[i..], i + 1);
          var all := NonBlank(lines, 1);
          (all == [] ==> last == "" && rest == [])
          && (all != [] && rest == [] ==> last == Last(all).text)
          && (rest != [] ==> Last(rest) == Last(all))
          && (last == "" ==> rest == all)
      {
        var raw := Strip(lines[i]);
        assert lines[i..][0] == lines[i] && lines[i..][1..] == lines[i+1..];
        if raw != "" {
          StripTwice(lines[i]);
          last := raw;
        }
      }
      NonBlankTexts(lines, 1);
      if last == "" {
        return GENESIS;
      }
      var rec := cfg.lib.loads(last);
      if rec.None? || !rec.value.Obj? {
        return GENESIS;
      }
      var stored := Get(rec.value.fields, HMAC_KEY);
      return if stored.Str? then stored.s else GENESIS;
    }

    method Log(record: Json) returns (id: nat)
      requires |futures| == |datas|
      modifies this
      ensures State() == Step(cfg, old(State()), Event.Log(record))
      ensures id == |old(futures)| && |futures| == |datas|
    {
      var data := Prepared(record);
      id := |futures|;
      futures := futures + [Pending];
      datas := datas + [data];
      if task.Stopped? {
        phase := if phase.Awaiting? then Replaced else phase;
        task := Waiting;
      }
      queue := queue + [Rec(Item(id, data))];
    }

    /** The flusher wakes up, takes the first entry and drains what else is queued. */
    method Take()
      requires task.Waiting? && queue != []
      modifies this
      ensures State() == Step(cfg, old(State()), Event.Take)
    {
      var first := queue[0];
      if first.Sentinel? {
        queue, task := queue[1..], Stopped;
        return;
      }
      ghost var q := queue;
      var batch, stop := [first.item], false;
      queue := queue[1..];
      while queue != [] && !stop
        invariant !stop ==> batch + DrainItems(queue) == DrainItems(q)
        invariant !stop ==> DrainStops(queue) == DrainStops(q)
        invariant !stop ==> DrainRest(queue) == DrainRest(q)
        invariant stop ==> batch == DrainItems(q) && DrainStops(q) && queue == DrainRest(q)
        invariant task == old(task) && handle == old(handle) && prevHash == old(prevHash) && futures == old(futures)
        invariant phase == old(phase) && strays == old(strays) && file == old(file)
        invariant datas == old(datas) && persisted == old(persisted) && head == old(head)
        decreases |queue|, !stop
      {
        var next := queue[0];
        queue := queue[1..];
        if next.Sentinel? {
          stop := true;
        } else {
          batch := batch + [next.item];
        }
      }
      assert !stop ==> DrainItems(queue) == [] && batch + [] == batch;
      task, from := Writing(batch, stop, None), None;
    }

    /** `_write_batch` up to its first await on the disk: the file is open and the batch signed, in
        order, from the head of that moment. */
    method BeginWrite() returns (lines: seq<string>, localPrev: string)
      requires task.Writing? && from.None?
      modifies this`from, this`handle
      ensures State() == Step(cfg, old(State()), Seal)
      ensures lines == BatchLines(cfg, Origin(State()).prev, task.batch)
      ensures localPrev == BatchHead(cfg, Origin(State()).prev, task.batch)
    {
      handle := true;
      lines, localPrev := SignBatch(task.batch);
      from := Some(Anchor(prevHash, head));
    }

    /** The rest of it, with whatever other flushers did in between: the head is committed only after
        the flush. */
    method EndWrite(disk: Disk, lines: seq<string>, localPrev: string)
      requires task.Writing? && (disk.Refused? ==> disk.kept <= |task.batch|)
      requires lines == BatchLines(cfg, Origin(State()).prev, task.batch)
      requires localPrev == BatchHead(cfg, Origin(State()).prev, task.batch)
      modifies this
      ensures State() == Step(cfg, old(State()), EventOf(disk))
    {
      WritesAre(cfg, State());
      match disk
      case Flushed => Commit(lines, localPrev);
      case Refused(touched, kept) => Refuse(lines, touched, kept);
    }

    /** Both at a stretch. */
    method WriteBatch(disk: Disk)
      requires task.Writing? && from.None? && (disk.Refused? ==> disk.kept <= |task.batch|)
      modifies this
      ensures State() == Step(cfg, Step(cfg, old(State()), Seal), EventOf(disk))
    {
      var lines, localPrev := BeginWrite();
      EndWrite(disk, lines, localPrev);
    }

    method Commit(lines: seq<string>, localPrev: string)
      requires task.Writing?
      modifies this
      ensures State() == Committed(cfg, old(State()), lines, localPrev)
    {
      var batch := task.batch;
      file := Append(file, lines);
      handle := true;
      if cfg.secret != "" {
        prevHash := localPrev;
      }
      head := |persisted| + |batch|;
      persisted := persisted + Ids(batch);
      Finish(Done);
    }

    method Refuse(lines: seq<string>, touched: bool, kept: nat)
      requires task.Writing? && kept <= |task.batch| && kept <= |lines|
      modifies this
      ensures State() == GivenUp(cfg, old(State()), lines, touched, kept)
    {
      var batch := task.batch;
      if touched {
        file := Append(file, lines[..kept]);
      }
      handle := false;
      persisted := persisted + Ids(batch[..kept]);
      Finish(if cfg.failClosed then Failed else Done);
    }

    /** The callers of the batch get their answer. */
    method Finish(f: Future)
      requires task.Writing?
      modifies this`futures, this`task
      ensures futures == Settle(old(futures), old(task).batch, f) && task == AfterWrite(old(task))
    {
      futures := Settled(futures, task.batch, f);
      task := if task.stop then Stopped else Waiting;
    }

    /** The signing loop. */
    method SignBatch(batch: seq<Item>) returns (lines: seq<string>, localPrev: string)
      ensures lines == BatchLines(cfg, prevHash, batch)
      ensures localPrev == BatchHead(cfg, prevHash, batch)
    {
      localPrev, lines := prevHash, [];
      assert batch[0..] == batch;
      for i := 0 to |batch|
        invariant lines + BatchLines(cfg, localPrev, batch[i..]) == BatchLines(cfg, prevHash, batch)
        invariant BatchHead(cfg, localPrev, batch[i..]) == BatchHead(cfg, prevHash, batch)
      {
        var data := batch[i].data;
        assert batch[i..][0] == batch[i] && batch[i..][1..] == batch[i+1..];
        BatchStep(cfg, localPrev, batch[i..]);
        if cfg.secret != "" {
          var sig := Sign(cfg.lib, cfg.secret, localPrev, data);
          Regroup(lines, [LineOf(cfg.lib, data, sig)], BatchLines(cfg, sig, batch[i+1..]));
          lines := lines + [LineOf(cfg.lib, data, sig)];
          localPrev := sig;
        } else {
          Regroup(lines, [cfg.lib.dumpsSpaced(data)], BatchLines(cfg, localPrev, batch[i+1..]));
          lines := lines + [cfg.lib.dumpsSpaced(data)];
        }
      }
      assert batch[|batch|..] == [];
    }

    method GiveUp(id: nat)
      requires id < |futures| && futures[id].Pending?
      modifies this
      ensures State() == Step(cfg, old(State()), Cancel(id))
    {
      futures := futures[id := Cancelled];
    }

    /** `aclose` up to its await on the flusher. */
    method BeginClose()
      modifies this
      ensures State() == Step(cfg, old(State()), CloseBegin)
    {
      phase := if task.Stopped? then Ending else Awaiting;
      if !task.Stopped? {
        queue := queue + [Sentinel];
      }
    }

    /** `aclose` from there: it forgets the flusher, though that may be a new one by now, and closes
        the handle. */
    method EndClose()
      requires phase.Ending? || phase.Replaced? || (phase.Awaiting? && task.Stopped?)
      modifies this
      ensures State() == Step(cfg, old(State()), CloseEnd)
    {
      if phase.Replaced? {
        strays := strays + [Seen(task, from)];
        task := Stopped;
      }
      handle, phase := false, NotClosing;
    }
  }

  /** Resolving the futures of a batch, skipping those already done. */
  method Settled(futures: seq<Future>, batch: seq<Item>, f: Future) returns (out: seq<Future>)
    ensures out == Settle(futures, batch, f)
  {
    out := futures;
    assert batch[0..] == batch;
    for i := 0 to |batch|
      invariant Settle(out, batch[i..], f) == Settle(futures, batch, f)
    {
      var id := batch[i].id;
      assert batch[i..][0] == batch[i] && batch[i..][1..] == batch[i+1..];
      if id < |out| && out[id].Pending? {
        out := out[id := f];
      }
    }
  }

  /** What a flushed batch makes of the state. */
  ghost function Committed(cfg: Config, s: AuditLogger.State, lines: seq<string>, localPrev: string): AuditLogger.State
    requires s.task.Writing?
  {
    AuditLogger.State(s.queue, AfterWrite(s.task), s.strays, if cfg.secret != "" then localPrev else s.prev, true,
                      Append(s.file, lines), Settle(s.futures, s.task.batch, Done), s.phase, s.datas,
                      s.persisted + Ids(s.task.batch), |s.persisted| + |s.task.batch|)
  }

  /** What a batch whose write failed makes of it, with some of its lines left in the file. */
  ghost function GivenUp(cfg: Config, s: AuditLogger.State, lines: seq<string>, touched: bool, kept: nat): AuditLogger.State
    requires s.task.Writing? && kept <= |s.task.batch| && kept <= |lines|
  {
    AuditLogger.State(s.queue, AfterWrite(s.task), s.strays, s.prev, false,
                      if touched then Append(s.file, lines[..kept]) else s.file,
                      Settle(s.futures, s.task.batch, if cfg.failClosed then Failed else Done), s.phase, s.datas,
                      s.persisted + Ids(s.task.batch[..kept]), s.head)
  }

  lemma WritesAre(cfg: Config, s: AuditLogger.State)
    requires s.task.Writing?
    ensures var prev := Origin(s).prev;
      Step(cfg, s, WriteOk) == Committed(cfg, s, BatchLines(cfg, prev, s.task.batch), BatchHead(cfg, prev, s.task.batch))
    ensures forall touched: bool, kept: nat :: kept <= |s.task.batch| ==>
      Step(cfg, s, WriteFail(touched, kept)) == GivenUp(cfg, s, BatchLines(cfg, Origin(s).prev, s.task.batch), touched, kept)
  {
  }

  lemma BatchStep(cfg: Config, prev: string, batch: seq<Item>)
    requires batch != []
    ensures cfg.secret == "" ==>
      BatchLines(cfg, prev, batch) == [cfg.lib.dumpsSpaced(batch[0].data)] + BatchLines(cfg, prev, batch[1..])
    ensures cfg.secret != "" ==>
      var sig := Sign(cfg.lib, cfg.secret, prev, batch[0].data);
      && BatchLines(cfg, prev, batch) == [LineOf(cfg.lib, batch[0].data, sig)] + BatchLines(cfg, sig, batch[1..])
      && BatchHead(cfg, prev, batch) == BatchHead(cfg, sig, batch[1..])
  {
    assert Datas(batch)[1..] == Datas(batch[1..]);
  }

  lemma {:induction false} StripTwice(s: string)
    ensures Strip(Strip(s)) == Strip(s)
    decreases |s|
  {
    if s != "" {
      if IsSpace(s[0]) { StripTwice(s[1..]); } else if IsSpace(Last(s)) { StripTwice(s[..|s| - 1]); }
    }
  }

  lemma {:induction false} NonBlankTexts(lines: seq<string>, no: nat)
    ensures forall l :: l in NonBlank(lines, no) ==> l.text != ""
    decreases |lines|
  {
    if lines != [] {
      NonBlankTexts(lines[1..], no + 1);
    }
  }
}
