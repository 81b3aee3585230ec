/** The writer of the audit log: callers enqueue records, one flusher signs and writes them in
    batches, and a restart picks the chain up from the file. Every atomic stretch of the
    asyncio code is one event of a state machine; the class at the end performs the events. */
module AuditLogger {
  import opened Common
  import opened AuditChain
  import opened AuditTamper

  datatype Config = Config(lib: Library, secret: string, failClosed: bool)

  /** A queued record; the id counts the calls of `log`. */
  datatype Item = Item(id: nat, data: Json)

  datatype Slot = Rec(item: Item) | Sentinel

  /** No flusher (none created, or done), one awaiting the queue, or one awaiting the disk
      with a batch in hand, about to stop if it met the sentinel. Once it has the file open it signs
      the batch, `from` the chain head it finds. */
  datatype Task = Stopped | Waiting | Writing(batch: seq<Item>, stop: bool, from: Option<Anchor>)

  /** A chain head, and how many lines on disk it had seen. */
  datatype Anchor = Anchor(prev: string, head: nat)

  /** What a caller's future holds. `Lost` went down with the process. */
  datatype Future = Pending | Done | Failed | Cancelled | Lost

  /** `aclose`: not called; awaiting the flusher it found; that flusher is done but a `log` put
      another in its place before `aclose` came back; or past that await. */
  datatype Phase = NotClosing | Awaiting | Replaced | Ending

  /** `strays` are flushers at work that nothing refers to any more. `datas` remembers every record
      logged, `persisted` the ids of the lines on disk, and `head` how many of those lines the
      in-memory chain head has seen. */
  datatype State = State(queue: seq<Slot>, task: Task, strays: seq<Task>, prev: string, handle: bool, file: Option<string>,
                         futures: seq<Future>, phase: Phase, datas: seq<Json>, persisted: seq<nat>, head: nat)
  {
    predicate Closing() { !phase.NotClosing? }
  }

  datatype Event =
    | Log(record: Json)
    | Take
    | Seal                                // the file is open and the batch signed
    | WriteOk
    | WriteFail(touched: bool, kept: nat)  // `kept` complete lines of the batch reached the disk all the same
    | Cancel(id: nat)                     // a caller gives up waiting
    | CloseBegin
    | CloseEnd
    | Restart
    | Stray(i: nat, ev: Event)            // what the flusher does, done by a stray

  // ---------------------------------------------------------- the signer

  function LineOf(lib: Library, base: Json, digest: string): string {
    if base.Obj? then lib.dumps(Obj(base.fields + [Field(HMAC_KEY, Str(digest))])) else lib.dumps(base)
  }

  /** The records signed in order, the first one chained to `prev`. */
  function Chain(lib: Library, secret: string, prev: string, datas: seq<Json>): (es: seq<Entry>)
    ensures |es| == |datas|
    decreases |datas|
  {
    if datas == [] then []
    else
      var sig := Sign(lib, secret, prev, datas[0]);
      [Entry(datas[0], sig)] + Chain(lib, secret, sig, datas[1..])
  }

  function LinesOf(lib: Library, es: seq<Entry>): (ls: seq<string>)
    ensures |ls| == |es|
  {
    if es == [] then [] else [LineOf(lib, es[0].base, es[0].digest)] + LinesOf(lib, es[1..])
  }

  function PlainLines(lib: Library, datas: seq<Json>): (ls: seq<string>)
    ensures |ls| == |datas|
  {
    if datas == [] then [] else [lib.dumpsSpaced(datas[0])] + PlainLines(lib, datas[1..])
  }

  function LastDigest(prev: string, es: seq<Entry>): string {
    if es == [] then prev else Last(es).digest
  }

  function Datas(items: seq<Item>): (ds: seq<Json>)
    ensures |ds| == |items|
    ensures forall i :: 0 <= i < |items| ==> ds[i] == items[i].data
  {
    if items == [] then [] else [items[0].data] + Datas(items[1..])
  }

  function Ids(items: seq<Item>): (ids: seq<nat>)
    ensures |ids| == |items|
    ensures forall i :: 0 <= i < |items| ==> ids[i] == items[i].id
  {
    if items == [] then [] else [items[0].id] + Ids(items[1..])
  }

  function BatchLines(cfg: Config, prev: string, batch: seq<Item>): (ls: seq<string>)
    ensures |ls| == |batch|
  {
    if cfg.secret != "" then LinesOf(cfg.lib, Chain(cfg.lib, cfg.secret, prev, Datas(batch)))
    else PlainLines(cfg.lib, Datas(batch))
  }

  function BatchHead(cfg: Config, prev: string, batch: seq<Item>): string {
    if cfg.secret != "" then LastDigest(prev, Chain(cfg.lib, cfg.secret, prev, Datas(batch))) else prev
  }

  // --------------------------------------------------------------- events

  /** `_load_last_hash`: the signature of the last line, or genesis. (A signature that is not
      a string counts as none.) */
  function LoadLast(lib: Library, file: Option<string>): string {
    match file
    case None => GENESIS
    case Some(text) =>
      var ls := FileLines(text);
      if ls == [] then GENESIS
      else match lib.loads(Last(ls).text)
        case Some(Obj(fields)) =>
          (match Get(fields, HMAC_KEY)
           case Str(s) => s
           case _ => GENESIS)
        case _ => GENESIS
  }

  function Seed(cfg: Config, file: Option<string>): string {
    if cfg.secret != "" then LoadLast(cfg.lib, file) else GENESIS
  }

  /** The record as it is signed: no `database` key when it is null. */
  function Prepared(record: Json): Json {
    if record.Obj? && Get(record.fields, "database") == Null then Obj(Without(record.fields, "database")) else record
  }

  /** Every entry is signed but a `database` that is null. */
  lemma {:induction false} PreparedExactly(record: Json, e: Field)
    requires record.Obj? && Plain(record)
    ensures Prepared(record).Obj?
    ensures e in Prepared(record).fields <==> e in record.fields && !(e.key == "database" && e.val == Null)
  {
    WithoutHas(record.fields, "database", e);
    if e in record.fields && e.key == "database" { GetIs(record.fields, e); }
    if HasKey(record.fields, "database") {
      var i :| 0 <= i < |record.fields| && record.fields[i].key == "database";
      GetIs(record.fields, record.fields[i]);
    }
  }

  lemma {:induction false} WithoutHas(fields: seq<Field>, key: string, e: Field)
    ensures e in Without(fields, key) <==> e in fields && e.key != key
  {
    if fields != [] {
      WithoutHas(fields[1..], key, e);
      assert fields == [fields[0]] + fields[1..];
    }
  }

  lemma {:induction false} GetIs(fields: seq<Field>, e: Field)
    requires e in fields && forall i, j :: 0 <= i < j < |fields| ==> fields[i].key != fields[j].key
    ensures Get(fields, e.key) == e.val
  {
    var i :| 0 <= i < |fields| && fields[i] == e;
    if i > 0 {
      assert fields[1..][i - 1] == e;
      GetIs(fields[1..], e);
    }
  }

  function DrainItems(q: seq<Slot>): seq<Item> {
    if q == [] || q[0].Sentinel? then [] else [q[0].item] + DrainItems(q[1..])
  }

  predicate DrainStops(q: seq<Slot>) { q != [] && (q[0].Sentinel? || DrainStops(q[1..])) }

  function DrainRest(q: seq<Slot>): seq<Slot> {
    if q == [] then [] else if q[0].Sentinel? then q[1..] else DrainRest(q[1..])
  }

  /** Settling a batch leaves alone the futures already done. */
  function Settle(fs: seq<Future>, items: seq<Item>, f: Future): (out: seq<Future>)
    ensures |out| == |fs|
    decreases |items|
  {
    if items == [] then fs
    else
      var id := items[0].id;
      Settle(if id < |fs| && fs[id].Pending? then fs[id := f] else fs, items[1..], f)
  }

  function Append(file: Option<string>, lines: seq<string>): Option<string> {
    Some((if file.Some? then file.value else "") + Unlines(lines))
  }

  function AfterWrite(t: Task): Task
    requires t.Writing?
  {
    if t.stop then Stopped else Waiting
  }

  /** A record as the program builds it: an object without a signature. */
  ghost predicate Plain(record: Json) {
    record.Obj? && WellFormed(record) && !HasKey(record.fields, HMAC_KEY)
  }

  /** What a flusher does between two awaits. */
  predicate Flushes(ev: Event) { ev.Take? || ev.Seal? || ev.WriteOk? || ev.WriteFail? }

  /** What the batch in hand is signed from: the head when it was signed, or the head now if that and
      the write are one step. */
  function Origin(s: State): Anchor {
    if s.task.Writing? && s.task.from.Some? then s.task.from.value else Anchor(s.prev, s.head)
  }

  /** The state as a stray sees it: itself in place of the flusher. */
  function Swap(s: State, i: nat): State
    requires i < |s.strays|
  {
    s.(task := s.strays[i], strays := s.strays[i := s.task])
  }

  ghost predicate CanAct(s: State, ev: Event) {
    match ev
    case Log(record) => Plain(record)
    case Take => s.task.Waiting? && s.queue != []
    case Seal => s.task.Writing? && s.task.from.None?
    case WriteOk => s.task.Writing?
    case WriteFail(touched, kept) => s.task.Writing? && kept <= |s.task.batch| && (kept > 0 ==> touched)
    case Cancel(id) => id < |s.futures| && s.futures[id].Pending?
    case CloseBegin => !s.Closing()
    case CloseEnd => s.phase.Ending? || s.phase.Replaced? || (s.phase.Awaiting? && s.task.Stopped?)
    case Restart => true
    case Stray(_, _) => false
  }

  /** When an event can happen. One `aclose` at a time. */
  ghost predicate Enabled(cfg: Config, s: State, ev: Event) {
    if ev.Stray? then ev.i < |s.strays| && Flushes(ev.ev) && CanAct(Swap(s, ev.i), ev.ev) else CanAct(s, ev)
  }

  function Step(cfg: Config, s: State, ev: Event): State {
    if ev.Stray? then
      if ev.i < |s.strays| then
        var after := Act(cfg, Swap(s, ev.i), ev.ev);
        if ev.i < |after.strays| then Swap(after, ev.i) else after
      else s
    else Act(cfg, s, ev)
  }

  function Act(cfg: Config, s: State, ev: Event): State {
    match ev
    case Log(record) =>
      var data := Prepared(record);
      s.(futures := s.futures + [Pending], datas := s.datas + [data],
         task := if s.task.Stopped? then Waiting else s.task,
         phase := if s.phase.Awaiting? && s.task.Stopped? then Replaced else s.phase,
         queue := s.queue + [Rec(Item(|s.datas|, data))])
    case Take =>
      if s.queue == [] then s
      else if s.queue[0].Sentinel? then s.(queue := s.queue[1..], task := Stopped)
      else s.(queue := DrainRest(s.queue), task := Writing(DrainItems(s.queue), DrainStops(s.queue), None))
    case Seal => if s.task.Writing? then s.(handle := true, task := s.task.(from := Some(Anchor(s.prev, s.head)))) else s
    case WriteOk =>
      if !s.task.Writing? then s
      else
        var batch := s.task.batch;
        s.(file := Append(s.file, BatchLines(cfg, Origin(s).prev, batch)), handle := true,
           prev := if cfg.secret != "" then BatchHead(cfg, Origin(s).prev, batch) else s.prev,
           futures := Settle(s.futures, batch, Done), task := AfterWrite(s.task),
           persisted := s.persisted + Ids(batch), head := |s.persisted| + |batch|)
    case WriteFail(touched, kept) =>
      if !s.task.Writing? || kept > |s.task.batch| then s
      else
        var batch := s.task.batch;
        s.(file := if touched then Append(s.file, BatchLines(cfg, Origin(s).prev, batch)[..kept]) else s.file, handle := false,
           futures := Settle(s.futures, batch, if cfg.failClosed then Failed else Done), task := AfterWrite(s.task),
           persisted := s.persisted + Ids(batch[..kept]))
    case Cancel(id) =>
      if id < |s.futures| && s.futures[id].Pending? then s.(futures := s.futures[id := Cancelled]) else s
    case CloseBegin =>
      if s.task.Stopped? then s.(phase := Ending) else s.(phase := Awaiting, queue := s.queue + [Sentinel])
    case CloseEnd =>
      if s.phase.Replaced? then s.(phase := NotClosing, handle := false, strays := s.strays + [s.task], task := Stopped)
      else s.(phase := NotClosing, handle := false)
    case Restart =>
      s.(queue := [], task := Stopped, strays := [], prev := Seed(cfg, s.file), handle := false, phase := NotClosing,
         head := |s.persisted|,
         futures := seq(|s.futures|, i requires 0 <= i < |s.futures| => if s.futures[i].Pending? then Lost else s.futures[i]))
    case Stray(_, _) => s
  }

  const Initial := State([], Stopped, [], GENESIS, false, None, [], NotClosing, [], [], 0)

  function After(cfg: Config, evs: seq<Event>): State {
    if evs == [] then Initial else Step(cfg, After(cfg, evs[..|evs| - 1]), Last(evs))
  }

  /** A run: every event could happen when it did. */
  ghost predicate Run(cfg: Config, evs: seq<Event>) {
    forall n :: 0 <= n < |evs| ==> Enabled(cfg, After(cfg, evs[..n]), evs[n])
  }

  // ------------------------------------------------------ chains and lines

  lemma {:induction false} ChainAppend(lib: Library, secret: string, prev: string, a: seq<Json>, b: seq<Json>)
    ensures Chain(lib, secret, prev, a + b)
         == Chain(lib, secret, prev, a) + Chain(lib, secret, LastDigest(prev, Chain(lib, secret, prev, a)), b)
    decreases |a|
  {
    if a == [] {
      assert a + b == b;
    } else {
      var sig := Sign(lib, secret, prev, a[0]);
      ChainAppend(lib, secret, sig, a[1..], b);
      assert (a + b)[1..] == a[1..] + b;
      var c := Chain(lib, secret, sig, a[1..]);
      assert Chain(lib, secret, prev, a) == [Entry(a[0], sig)] + c;
      assert LastDigest(prev, Chain(lib, secret, prev, a)) == LastDigest(sig, c);
    }
  }

  lemma {:induction false} LinesOfAppend(lib: Library, a: seq<Entry>, b: seq<Entry>)
    ensures LinesOf(lib, a + b) == LinesOf(lib, a) + LinesOf(lib, b)
  {
    if a == [] {
      assert a + b == b;
    } else {
      LinesOfAppend(lib, a[1..], b);
      assert (a + b)[1..] == a[1..] + b;
    }
  }

  lemma {:induction false} LinesOfPrefix(lib: Library, es: seq<Entry>, k: nat)
    requires k <= |es|
    ensures LinesOf(lib, es)[..k] == LinesOf(lib, es[..k])
  {
    assert es == es[..k] + es[k..];
    LinesOfAppend(lib, es[..k], es[k..]);
  }

  lemma {:induction false} ChainPrefix(lib: Library, secret: string, prev: string, datas: seq<Json>, k: nat)
    requires k <= |datas|
    ensures Chain(lib, secret, prev, datas)[..k] == Chain(lib, secret, prev, datas[..k])
  {
    assert datas == datas[..k] + datas[k..];
    ChainAppend(lib, secret, prev, datas[..k], datas[k..]);
  }

  /** The writer's chain is what the verifier calls chained. */
  lemma {:induction false} ChainIsChained(lib: Library, secret: string, datas: seq<Json>)
    ensures Chained(lib, secret, Chain(lib, secret, GENESIS, datas))
    ensures forall i :: 0 <= i < |datas| ==> Chain(lib, secret, GENESIS, datas)[i].base == datas[i]
  {
    if datas != [] {
      var n := |datas| - 1;
      ChainIsChained(lib, secret, datas[..n]);
      assert datas == datas[..n] + [datas[n]];
      ChainAppend(lib, secret, GENESIS, datas[..n], [datas[n]]);
      var c, d := Chain(lib, secret, GENESIS, datas), Chain(lib, secret, GENESIS, datas[..n]);
      forall i: nat | i < |c| ensures Links(lib, secret, c, i) {
        if i < n {
          assert Links(lib, secret, d, i);
          assert Before(c, i) == Before(d, i);
        }
      }
    }
  }

  lemma {:induction false} GetLast(fields: seq<Field>, key: string, v: Json)
    requires !HasKey(fields, key)
    ensures Get(fields + [Field(key, v)], key) == v
    ensures Without(fields + [Field(key, v)], key) == fields
  {
    var all := fields + [Field(key, v)];
    if fields != [] {
      assert fields[0].key != key;
      assert forall i :: 0 <= i < |fields[1..]| ==> fields[1..][i] == fields[i+1];
      GetLast(fields[1..], key, v);
      assert all[1..] == fields[1..] + [Field(key, v)];
    }
  }

  /** Reading back a line that was written gives the entry. */
  lemma LineReads(lib: Library, base: Json, digest: string)
    requires Faithful(lib) && Plain(base)
    ensures EntryOf(lib, LineOf(lib, base, digest)) == Some(Entry(base, digest))
    ensures Printable(LineOf(lib, base, digest))
    ensures lib.loads(LineOf(lib, base, digest)) == Some(Obj(base.fields + [Field(HMAC_KEY, Str(digest))]))
  {
    var signed := Obj(base.fields + [Field(HMAC_KEY, Str(digest))]);
    GetLast(base.fields, HMAC_KEY, Str(digest));
    forall i, j | 0 <= i < j < |signed.fields| ensures signed.fields[i].key != signed.fields[j].key {
      if j == |base.fields| { assert base.fields[i].key != HMAC_KEY; }
    }
    assert WellFormed(signed);
  }

  ghost predicate PlainEntries(es: seq<Entry>) { forall i :: 0 <= i < |es| ==> Plain(es[i].base) }

  lemma StripPrintable(s: string)
    requires Printable(s)
    ensures Strip(s) == s
  {
  }

  lemma {:induction false} NonBlankPrintable(lines: seq<string>, no: nat)
    requires forall i :: 0 <= i < |lines| ==> Printable(lines[i])
    ensures |NonBlank(lines, no)| == |lines|
    ensures forall i :: 0 <= i < |lines| ==> NonBlank(lines, no)[i] == Numbered(no + i, lines[i])
    decreases |lines|
  {
    if lines != [] {
      StripPrintable(lines[0]);
      NonBlankPrintable(lines[1..], no + 1);
    }
  }

  lemma {:induction false} LinesAt(lib: Library, es: seq<Entry>, i: nat)
    requires i < |es|
    ensures LinesOf(lib, es)[i] == LineOf(lib, es[i].base, es[i].digest)
  {
    if i > 0 {
      LinesAt(lib, es[1..], i - 1);
    }
  }

  /** The round trip through the text of the file. */
  lemma WrittenReads(lib: Library, es: seq<Entry>)
    requires Faithful(lib) && PlainEntries(es)
    ensures ReadsAs(lib, FileLines(Unlines(LinesOf(lib, es))), es)
    ensures forall i :: 0 <= i < |es| ==> FileLines(Unlines(LinesOf(lib, es)))[i].no == i + 1
    ensures forall i :: 0 <= i < |es| ==>
      FileLines(Unlines(LinesOf(lib, es)))[i].text == LineOf(lib, es[i].base, es[i].digest)
  {
    var ls := LinesOf(lib, es);
    forall i | 0 <= i < |ls| ensures ls[i] == LineOf(lib, es[i].base, es[i].digest) && Printable(ls[i])
      ensures EntryOf(lib, ls[i]) == Some(es[i])
    {
      LinesAt(lib, es, i);
      LineReads(lib, es[i].base, es[i].digest);
    }
    LinesOfUnlines(ls);
    NonBlankPrintable(ls, 1);
  }

  /** What `_load_last_hash` reads from a file the writer wrote. */
  lemma LastLoads(lib: Library, es: seq<Entry>)
    requires Faithful(lib) && PlainEntries(es)
    ensures LoadLast(lib, Some(Unlines(LinesOf(lib, es)))) == LastDigest(GENESIS, es)
  {
    WrittenReads(lib, es);
    if es != [] {
      var e := Last(es);
      LineReads(lib, e.base, e.digest);
      GetLast(e.base.fields, HMAC_KEY, Str(e.digest));
    }
  }

  // ------------------------------------------------------------ invariant

  function Text(file: Option<string>): string { if file.Some? then file.value else "" }

  function QueueIds(q: seq<Slot>): seq<nat> { Ids(DrainItems(q)) }

  function BatchOf(t: Task): seq<Item> { if t.Writing? then t.batch else [] }

  function Pick(datas: seq<Json>, ids: seq<nat>): seq<Json>
    requires forall i :: 0 <= i < |ids| ==> ids[i] < |datas|
  {
    seq(|ids|, i requires 0 <= i < |ids| => datas[ids[i]])
  }

  ghost predicate Increasing(ids: seq<nat>, bound: nat) {
    && (forall i, j :: 0 <= i < j < |ids| ==> ids[i] < ids[j])
    && (forall i :: 0 <= i < |ids| ==> ids[i] < bound)
  }

  /** Everything on its way or on disk, in the order it was enqueued. */
  function Ledger(s: State): seq<nat> { s.persisted + Ids(BatchOf(s.task)) + QueueIds(s.queue) }

  /** No `log` overlaps an `aclose`, and so no flusher is forgotten at work. */
  predicate Apart(s: State, ev: Event) { !ev.Stray? && (ev.Log? ==> !s.Closing()) }

  /** The shape of queue and task: a sentinel is last in the queue, and only while closing; a
      stopped flusher leaves nothing behind. */
  ghost predicate Orderly(s: State) {
    && s.strays == [] && !s.phase.Replaced?
    && (forall i :: 0 <= i < |s.queue| - 1 ==> s.queue[i].Rec?)
    && (s.queue != [] && Last(s.queue).Sentinel? ==> s.Closing())
    && (s.task.Stopped? ==> s.queue == [])
    && (s.phase.Ending? ==> s.task.Stopped?)
    && (s.task.Writing? ==> s.task.batch != [] && (s.task.stop ==> s.Closing() && s.queue == []))
    && (s.Closing() && s.task.Waiting? ==> s.queue != [] && Last(s.queue).Sentinel?)
    && (s.Closing() && s.task.Writing? && !s.task.stop ==> s.queue != [] && Last(s.queue).Sentinel?)
  }

  ghost predicate Consistent(s: State) {
    && Increasing(Ledger(s), |s.datas|)
    && ItemsMatch(BatchOf(s.task), s.datas) && ItemsMatch(DrainItems(s.queue), s.datas)
  }

  ghost predicate AllPlain(datas: seq<Json>) { forall i :: 0 <= i < |datas| ==> Plain(datas[i]) }

  ghost predicate ItemsMatch(items: seq<Item>, datas: seq<Json>) {
    forall i :: 0 <= i < |items| ==> items[i].id < |datas| && items[i].data == datas[items[i].id]
  }

  /** A future is pending only while its record is on its way, and a record on its way has a
      future that nobody resolved. */
  ghost predicate FuturesFollow(cfg: Config, s: State) {
    && |s.futures| == |s.datas|
    && (forall id :: 0 <= id < |s.futures| && s.futures[id].Pending? ==> id in Ids(BatchOf(s.task)) || id in QueueIds(s.queue))
    && (forall id: nat :: id < |s.futures| && (id in Ids(BatchOf(s.task)) || id in QueueIds(s.queue)) ==>
          s.futures[id].Pending? || s.futures[id].Cancelled?)
    && (cfg.failClosed ==> forall id: nat :: id < |s.futures| && s.futures[id].Done? ==> id in s.persisted)
  }

  // ------------------------------------------------- the queue, batch by batch

  ghost predicate SentinelLast(q: seq<Slot>) { forall i :: 0 <= i < |q| - 1 ==> q[i].Rec? }

  lemma {:induction false} DrainAll(q: seq<Slot>)
    requires SentinelLast(q)
    ensures DrainRest(q) == []
    ensures DrainStops(q) <==> q != [] && Last(q).Sentinel?
    ensures |DrainItems(q)| == if DrainStops(q) then |q| - 1 else |q|
    decreases |q|
  {
    if q != [] && q[0].Rec? {
      assert forall i :: 0 <= i < |q[1..]| - 1 ==> q[1..][i] == q[i+1];
      DrainAll(q[1..]);
    }
  }

  lemma {:induction false} DrainAppend(q: seq<Slot>, slot: Slot)
    requires SentinelLast(q) && (q != [] ==> Last(q).Rec?)
    ensures DrainItems(q + [slot]) == DrainItems(q) + (if slot.Rec? then [slot.item] else [])
    decreases |q|
  {
    if q != [] {
      assert q[0].Rec?;
      assert forall i :: 0 <= i < |q[1..]| ==> q[1..][i] == q[i+1];
      DrainAppend(q[1..], slot);
      assert (q + [slot])[1..] == q[1..] + [slot];
    }
  }

  lemma {:induction false} IdsAppend(a: seq<Item>, b: seq<Item>)
    ensures Ids(a + b) == Ids(a) + Ids(b)
  {
  }

  lemma {:induction false} SettleAt(fs: seq<Future>, items: seq<Item>, f: Future, id: nat)
    requires id < |fs| && !f.Pending?
    ensures Settle(fs, items, f)[id] == if fs[id].Pending? && id in Ids(items) then f else fs[id]
    decreases |items|
  {
    if items != [] {
      var i := items[0].id;
      var fs1 := if i < |fs| && fs[i].Pending? then fs[i := f] else fs;
      SettleAt(fs1, items[1..], f, id);
      assert Ids(items) == [i] + Ids(items[1..]);
    }
  }

  // ------------------------------------------- what every event keeps, one by one

  lemma OrderlyStep(cfg: Config, s: State, ev: Event)
    requires Orderly(s) && Enabled(cfg, s, ev) && Apart(s, ev)
    ensures Orderly(Step(cfg, s, ev))
  {
    if ev.Take? {
      DrainAll(s.queue);
    }
  }

  lemma LedgerLog(cfg: Config, s: State, record: Json)
    requires Orderly(s) && Consistent(s) && !s.Closing()
    ensures Consistent(Step(cfg, s, Log(record)))
  {
    var s' := Step(cfg, s, Log(record));
    var it := Item(|s.datas|, Prepared(record));
    QueueAppend(s.queue, it);
    assert BatchOf(s'.task) == BatchOf(s.task);
    Regroup(s.persisted + Ids(BatchOf(s.task)), QueueIds(s.queue), [it.id]);
    assert Ledger(s') == Ledger(s) + [|s.datas|];
    IncreasingAppend(Ledger(s), |s.datas|);
  }

  lemma QueueAppend(queue: seq<Slot>, it: Item)
    requires forall i :: 0 <= i < |queue| ==> queue[i].Rec?
    ensures DrainItems(queue + [Rec(it)]) == DrainItems(queue) + [it]
    ensures QueueIds(queue + [Rec(it)]) == QueueIds(queue) + [it.id]
  {
    DrainAppend(queue, Rec(it));
    IdsAppend(DrainItems(queue), [it]);
  }

  lemma IncreasingAppend(ids: seq<nat>, bound: nat)
    requires Increasing(ids, bound)
    ensures Increasing(ids + [bound], bound + 1)
  {
  }

  lemma LedgerWrite(cfg: Config, s: State)
    requires Consistent(s) && s.task.Writing?
    ensures Consistent(Step(cfg, s, WriteOk))
  {
    var s' := Step(cfg, s, WriteOk);
    assert BatchOf(s'.task) == [] && s'.queue == s.queue && s'.datas == s.datas;
    assert s'.persisted + [] == s.persisted + Ids(BatchOf(s.task));
    assert Ledger(s') == Ledger(s);
  }

  lemma LedgerTake(cfg: Config, s: State)
    requires Orderly(s) && Consistent(s) && s.task.Waiting? && s.queue != []
    ensures Consistent(Step(cfg, s, Take))
  {
    var s' := Step(cfg, s, Take);
    DrainAll(s.queue);
    assert BatchOf(s'.task) == DrainItems(s.queue) && DrainItems(s'.queue) == [] && BatchOf(s.task) == [];
    assert s.persisted + [] + QueueIds(s.queue) == s.persisted + QueueIds(s.queue) + [];
    assert Ledger(s') == Ledger(s);
  }

  lemma IdsSplit(batch: seq<Item>, kept: nat)
    requires kept <= |batch|
    ensures Ids(batch) == Ids(batch[..kept]) + Ids(batch[kept..])
  {
    IdsAppend(batch[..kept], batch[kept..]);
    assert batch == batch[..kept] + batch[kept..];
  }

  lemma LedgerCut(p: seq<nat>, batch: seq<Item>, kept: nat, q: seq<nat>, bound: nat)
    requires kept <= |batch| && Increasing(p + Ids(batch) + q, bound)
    ensures Increasing(p + Ids(batch[..kept]) + q, bound)
  {
    IdsSplit(batch, kept);
    CutInside(p, Ids(batch[..kept]), Ids(batch[kept..]), q, bound);
  }

  lemma CutInside(p: seq<nat>, a: seq<nat>, b: seq<nat>, q: seq<nat>, bound: nat)
    requires Increasing(p + (a + b) + q, bound)
    ensures Increasing(p + a + q, bound)
  {
    assert p + (a + b) + q == (p + a) + b + q;
    Cut(p + a, b, q, bound);
  }

  lemma LedgerFail(cfg: Config, s: State, touched: bool, kept: nat)
    requires Consistent(s) && s.task.Writing? && kept <= |s.task.batch|
    ensures Consistent(Step(cfg, s, WriteFail(touched, kept)))
  {
    var s' := Step(cfg, s, WriteFail(touched, kept));
    var batch := s.task.batch;
    assert BatchOf(s.task) == batch && BatchOf(s'.task) == [] && s'.queue == s.queue && s'.datas == s.datas;
    LedgerCut(s.persisted, batch, kept, QueueIds(s.queue), |s.datas|);
    assert s'.persisted + [] == s.persisted + Ids(batch[..kept]);
  }

  lemma LedgerRestart(cfg: Config, s: State)
    requires Consistent(s)
    ensures Consistent(Step(cfg, s, Restart))
  {
    var s' := Step(cfg, s, Restart);
    var rest := Ids(BatchOf(s.task)) + QueueIds(s.queue);
    assert s.persisted + rest + [] == Ledger(s);
    Cut(s.persisted, rest, [], |s.datas|);
    assert s.persisted + [] == Ledger(s');
  }

  lemma LedgerClose(cfg: Config, s: State)
    requires Orderly(s) && Consistent(s) && Enabled(cfg, s, CloseBegin)
    ensures Consistent(Step(cfg, s, CloseBegin))
  {
    var s' := Step(cfg, s, CloseBegin);
    if !s.task.Stopped? {
      DrainAppend(s.queue, Sentinel);
      assert DrainItems(s.queue) + [] == DrainItems(s.queue);
    }
    assert Ledger(s') == Ledger(s);
  }

  /** Between being enqueued and being on disk (or dropped) a record keeps its place. */
  lemma LedgerStep(cfg: Config, s: State, ev: Event)
    requires Orderly(s) && Consistent(s) && Enabled(cfg, s, ev) && Apart(s, ev)
    ensures Consistent(Step(cfg, s, ev))
  {
    match ev {
      case Log(record) => LedgerLog(cfg, s, record);
      case Take => LedgerTake(cfg, s);
      case WriteOk => LedgerWrite(cfg, s);
      case WriteFail(touched, kept) => LedgerFail(cfg, s, touched, kept);
      case CloseBegin => LedgerClose(cfg, s);
      case Restart => LedgerRestart(cfg, s);
      case _ =>
    }
  }

  lemma PlainStep(cfg: Config, s: State, ev: Event)
    requires AllPlain(s.datas) && Enabled(cfg, s, ev)
    ensures AllPlain(Step(cfg, s, ev).datas)
  {
    if ev.Log? {
      PreparedPlain(ev.record);
    }
  }

  lemma Cut(a: seq<nat>, b: seq<nat>, c: seq<nat>, bound: nat)
    requires Increasing(a + b + c, bound)
    ensures Increasing(a + c, bound)
  {
    var all, kept := a + b + c, a + c;
    assert forall i :: 0 <= i < |kept| ==> kept[i] == all[if i < |a| then i else i + |b|];
  }

  lemma PreparedPlain(record: Json)
    requires Plain(record)
    ensures Plain(Prepared(record))
  {
    if Prepared(record) != record {
      WithoutWellFormed(record.fields, "database");
      var fields := Without(record.fields, "database");
      forall i | 0 <= i < |fields| ensures fields[i].key != HMAC_KEY {
        assert fields[i] in record.fields;
      }
    }
  }

  lemma IdsKnown(s: State)
    requires Consistent(s)
    ensures forall id: nat :: id in Ids(BatchOf(s.task)) || id in QueueIds(s.queue) ==> id < |s.datas|
  {
    forall id: nat | id in Ids(BatchOf(s.task)) || id in QueueIds(s.queue) ensures id < |s.datas| {
      if id in Ids(BatchOf(s.task)) {
        var i :| 0 <= i < |Ids(BatchOf(s.task))| && Ids(BatchOf(s.task))[i] == id;
        assert BatchOf(s.task)[i].id == id;
      } else {
        var i :| 0 <= i < |QueueIds(s.queue)| && QueueIds(s.queue)[i] == id;
        assert DrainItems(s.queue)[i].id == id;
      }
    }
  }

  lemma FuturesLog(cfg: Config, s: State, record: Json)
    requires Orderly(s) && Consistent(s) && FuturesFollow(cfg, s) && !s.Closing()
    ensures FuturesFollow(cfg, Step(cfg, s, Log(record)))
  {
    var s' := Step(cfg, s, Log(record));
    var it := Item(|s.datas|, Prepared(record));
    DrainAppend(s.queue, Rec(it));
    IdsAppend(DrainItems(s.queue), [it]);
    assert QueueIds(s'.queue) == QueueIds(s.queue) + [it.id];
    IdsKnown(s);
  }

  lemma FuturesClose(cfg: Config, s: State)
    requires Orderly(s) && FuturesFollow(cfg, s) && Enabled(cfg, s, CloseBegin)
    ensures FuturesFollow(cfg, Step(cfg, s, CloseBegin))
  {
    if !s.task.Stopped? {
      DrainAppend(s.queue, Sentinel);
      assert DrainItems(s.queue) + [] == DrainItems(s.queue);
    }
  }

  lemma FuturesTake(cfg: Config, s: State)
    requires Orderly(s) && FuturesFollow(cfg, s) && Enabled(cfg, s, Take)
    ensures FuturesFollow(cfg, Step(cfg, s, Take))
  {
    var s' := Step(cfg, s, Take);
    DrainAll(s.queue);
    assert BatchOf(s'.task) == DrainItems(s.queue) && QueueIds(s'.queue) == [];
  }

  lemma FuturesStep(cfg: Config, s: State, ev: Event)
    requires Orderly(s) && Consistent(s) && FuturesFollow(cfg, s) && Enabled(cfg, s, ev) && Apart(s, ev)
    ensures FuturesFollow(cfg, Step(cfg, s, ev))
  {
    match ev {
      case Log(record) => FuturesLog(cfg, s, record);
      case Take => FuturesTake(cfg, s);
      case WriteOk => SettledFollow(cfg, s, ev, Done);
      case WriteFail(_, _) => SettledFollow(cfg, s, ev, if cfg.failClosed then Failed else Done);
      case CloseBegin => FuturesClose(cfg, s);
      case _ =>
    }
  }

  lemma SettledFollow(cfg: Config, s: State, ev: Event, f: Future)
    requires Consistent(s) && FuturesFollow(cfg, s) && Enabled(cfg, s, ev)
    requires (ev.WriteOk? && f.Done?) || (ev.WriteFail? && f == if cfg.failClosed then Failed else Done)
    ensures FuturesFollow(cfg, Step(cfg, s, ev))
  {
    var s' := Step(cfg, s, ev);
    var batch := s.task.batch;
    forall id: nat | id < |s.futures|
      ensures s'.futures[id] == if s.futures[id].Pending? && id in Ids(batch) then f else s.futures[id]
    {
      SettleAt(s.futures, batch, f, id);
    }
    assert forall id: nat :: id in QueueIds(s'.queue) ==> id !in Ids(batch) by {
      BatchBeforeQueue(s);
    }
  }

  lemma BatchBeforeQueue(s: State)
    requires Consistent(s)
    ensures forall id: nat :: id in QueueIds(s.queue) ==> id !in Ids(BatchOf(s.task))
  {
    var p, b, q := s.persisted, Ids(BatchOf(s.task)), QueueIds(s.queue);
    forall i, j | 0 <= i < |b| && 0 <= j < |q| ensures b[i] != q[j] {
      assert Ledger(s)[|p| + i] == b[i] && Ledger(s)[|p| + |b| + j] == q[j];
    }
  }
}
