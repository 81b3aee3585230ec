/** The signed file after every run of the writer, whatever writes failed and whatever overlapped:
    exactly when it is still a chain. */
module AuditSigned {
  import opened Common
  import opened AuditChain
  import opened AuditTamper
  import opened AuditLogger
  import opened AuditRuns
  import opened AuditDisk

  // --------------------------------------------------------------- the file

  ghost predicate Known(s: State) { forall i :: 0 <= i < |s.persisted| ==> s.persisted[i] < |s.datas| }

  /** The records persisted, as one chain from genesis. */
  ghost function OnDisk(cfg: Config, s: State): (es: seq<Entry>)
    requires Known(s)
    ensures |es| == |s.persisted|
  {
    Chain(cfg.lib, cfg.secret, GENESIS, Pick(s.datas, s.persisted))
  }

  /** The head is that of the first lines of the file. */
  ghost predicate Anchored(cfg: Config, s: State, a: Anchor)
    requires Known(s)
  {
    a.head <= |s.persisted| && a.prev == Before(OnDisk(cfg, s), a.head)
  }

  ghost predicate Moored(cfg: Config, s: State, t: Task)
    requires Known(s)
  {
    t.Writing? && t.from.Some? ==> Anchored(cfg, s, t.from.value)
  }

  /** The file is the chain of the records persisted; the in-memory head, and what any flusher signed
      its batch from, is the head of some first lines of it. */
  ghost predicate Written(cfg: Config, s: State) {
    && Known(s) && Text(s.file) == Unlines(LinesOf(cfg.lib, OnDisk(cfg, s)))
    && Anchored(cfg, s, Anchor(s.prev, s.head))
    && Moored(cfg, s, s.task) && forall t :: t in s.strays ==> Moored(cfg, s, t)
  }

  predicate Loaded(t: Task) { t.Writing? ==> t.batch != [] }

  ghost predicate Sound(cfg: Config, s: State) {
    && AllPlain(s.datas) && BatchesMatch(s) && Written(cfg, s)
    && Loaded(s.task) && forall t :: t in s.strays ==> Loaded(t)
  }

  /** The batch in hand is signed from a head that has seen every line on disk. */
  predicate InStep(s: State) { Origin(s).head == |s.persisted| }

  /** The state as the flusher sees it whose step it is. */
  function Acting(s: State, ev: Event): State { if ev.Stray? && ev.i < |s.strays| then Swap(s, ev.i) else s }

  /** Whether an event puts lines on disk. */
  predicate Appends(ev: Event) { ev.WriteOk? || (ev.WriteFail? && ev.kept > 0) }

  /** Lines went to disk only when they were signed from a head that had seen all lines there. */
  ghost predicate SafeRun(cfg: Config, evs: seq<Event>) {
    forall n :: 0 <= n < |evs| && Appends(Inner(evs[n])) ==> InStep(Acting(After(cfg, evs[..n]), evs[n]))
  }

  // ------------------------------------------------------- what a step keeps

  lemma PickAppend(datas: seq<Json>, a: seq<nat>, b: seq<nat>)
    requires forall i :: 0 <= i < |a + b| ==> (a + b)[i] < |datas|
    ensures forall i :: 0 <= i < |a| ==> a[i] < |datas|
    ensures forall i :: 0 <= i < |b| ==> b[i] < |datas|
    ensures Pick(datas, a + b) == Pick(datas, a) + Pick(datas, b)
  {
    forall i | 0 <= i < |a| ensures a[i] < |datas| { assert (a + b)[i] == a[i]; }
    forall i | 0 <= i < |b| ensures b[i] < |datas| { assert (a + b)[|a| + i] == b[i]; }
  }

  lemma BatchData(s: State)
    requires ItemsMatch(BatchOf(s.task), s.datas)
    ensures forall i :: 0 <= i < |Ids(BatchOf(s.task))| ==> Ids(BatchOf(s.task))[i] < |s.datas|
    ensures Pick(s.datas, Ids(BatchOf(s.task))) == Datas(BatchOf(s.task))
  {
    var batch := BatchOf(s.task);
    forall i | 0 <= i < |batch| ensures batch[i].id < |s.datas| && batch[i].data == s.datas[batch[i].id] {}
  }

  /** Appending the first lines of a batch that is signed from the head of the whole file. */
  lemma AppendWritten(cfg: Config, s: State, k: nat)
    requires cfg.secret != "" && ItemsMatch(BatchOf(s.task), s.datas) && Written(cfg, s) && InStep(s)
    requires s.task.Writing? && k <= |s.task.batch|
    ensures var ids := s.persisted + Ids(s.task.batch[..k]);
      && (forall i :: 0 <= i < |ids| ==> ids[i] < |s.datas|)
      && Chain(cfg.lib, cfg.secret, GENESIS, Pick(s.datas, ids))
         == OnDisk(cfg, s) + Chain(cfg.lib, cfg.secret, Origin(s).prev, Datas(s.task.batch))[..k]
      && Text(s.file) + Unlines(BatchLines(cfg, Origin(s).prev, s.task.batch)[..k])
         == Unlines(LinesOf(cfg.lib, Chain(cfg.lib, cfg.secret, GENESIS, Pick(s.datas, ids))))
  {
    var batch, prev := s.task.batch, Origin(s).prev;
    var ids := s.persisted + Ids(batch[..k]);
    BatchData(s);
    assert Ids(batch[..k]) == Ids(batch)[..k];
    assert Datas(batch[..k]) == Datas(batch)[..k];
    PickAppend(s.datas, s.persisted, Ids(batch[..k]));
    assert Pick(s.datas, Ids(batch[..k])) == Datas(batch)[..k];
    var es := OnDisk(cfg, s);
    assert prev == LastDigest(GENESIS, es);
    ChainAppend(cfg.lib, cfg.secret, GENESIS, Pick(s.datas, s.persisted), Datas(batch)[..k]);
    ChainPrefix(cfg.lib, cfg.secret, prev, Datas(batch), k);
    var added := Chain(cfg.lib, cfg.secret, prev, Datas(batch));
    LinesOfPrefix(cfg.lib, added, k);
    LinesOfAppend(cfg.lib, es, added[..k]);
    UnlinesAppend(LinesOf(cfg.lib, es), LinesOf(cfg.lib, added[..k]));
  }

  /** More lines do not change what the heads of fewer are. */
  lemma AnchorsStay(cfg: Config, s: State, t: State, added: seq<Entry>)
    requires Known(s) && Known(t) && OnDisk(cfg, t) == OnDisk(cfg, s) + added
    ensures forall a :: Anchored(cfg, s, a) ==> Anchored(cfg, t, a)
  {
  }

  lemma MooringsStay(cfg: Config, s: State, t: State, added: seq<Entry>)
    requires Written(cfg, s) && Known(t) && OnDisk(cfg, t) == OnDisk(cfg, s) + added && t.strays == s.strays
    ensures forall u :: u in t.strays ==> Moored(cfg, t, u)
  {
    AnchorsStay(cfg, s, t, added);
    forall u | u in t.strays ensures Moored(cfg, t, u) { assert Moored(cfg, s, u); }
  }

  lemma WriteOkOnDisk(cfg: Config, s: State)
    requires cfg.secret != "" && ItemsMatch(BatchOf(s.task), s.datas) && Written(cfg, s) && InStep(s) && s.task.Writing?
    ensures var t := Act(cfg, s, WriteOk);
      && Known(t) && OnDisk(cfg, t) == OnDisk(cfg, s) + Chain(cfg.lib, cfg.secret, Origin(s).prev, Datas(s.task.batch))
      && Text(t.file) == Unlines(LinesOf(cfg.lib, OnDisk(cfg, t)))
  {
    var batch, prev := s.task.batch, Origin(s).prev;
    AppendWritten(cfg, s, |batch|);
    assert batch[..|batch|] == batch;
    var added := Chain(cfg.lib, cfg.secret, prev, Datas(batch));
    assert added[..|batch|] == added;
    assert BatchLines(cfg, prev, batch)[..|batch|] == BatchLines(cfg, prev, batch);
  }

  lemma HeadOfAll(es: seq<Entry>, added: seq<Entry>)
    ensures Before(es + added, |es + added|) == LastDigest(Before(es, |es|), added)
  {
  }

  lemma WriteOkWritten(cfg: Config, s: State)
    requires cfg.secret != "" && ItemsMatch(BatchOf(s.task), s.datas) && Written(cfg, s) && InStep(s) && s.task.Writing?
    ensures Written(cfg, Act(cfg, s, WriteOk))
  {
    var t := Act(cfg, s, WriteOk);
    var added := Chain(cfg.lib, cfg.secret, Origin(s).prev, Datas(s.task.batch));
    WriteOkOnDisk(cfg, s);
    HeadOfAll(OnDisk(cfg, s), added);
    MooringsStay(cfg, s, t, added);
  }

  lemma LossWritten(cfg: Config, s: State, touched: bool, kept: nat)
    requires cfg.secret != "" && ItemsMatch(BatchOf(s.task), s.datas) && Written(cfg, s) && InStep(s)
    requires kept > 0 && CanAct(s, WriteFail(touched, kept))
    ensures Written(cfg, Act(cfg, s, WriteFail(touched, kept)))
  {
    var t := Act(cfg, s, WriteFail(touched, kept));
    AppendWritten(cfg, s, kept);
    var added := Chain(cfg.lib, cfg.secret, Origin(s).prev, Datas(s.task.batch))[..kept];
    assert OnDisk(cfg, t) == OnDisk(cfg, s) + added;
    AnchorsStay(cfg, s, t, added);
    MooringsStay(cfg, s, t, added);
  }

  /** The file, the head and the records stay, and no flusher has signed anything new. */
  lemma WrittenSame(cfg: Config, s: State, t: State)
    requires Written(cfg, s)
    requires t.file == s.file && t.prev == s.prev && t.datas == s.datas && t.persisted == s.persisted && t.head == s.head
    requires forall u :: u == t.task || u in t.strays ==> u == s.task || u in s.strays || !u.Writing? || u.from.None?
    ensures Written(cfg, t)
  {
    assert OnDisk(cfg, t) == OnDisk(cfg, s);
    forall u | u == t.task || u in t.strays ensures Moored(cfg, t, u) {
      if u == s.task || u in s.strays { assert Moored(cfg, s, u); }
    }
  }

  lemma NothingWritten(cfg: Config, s: State, touched: bool)
    requires Written(cfg, s) && CanAct(s, WriteFail(touched, 0))
    ensures Written(cfg, Act(cfg, s, WriteFail(touched, 0)))
  {
    var t := Act(cfg, s, WriteFail(touched, 0));
    assert Ids(s.task.batch[..0]) == [] && t.persisted == s.persisted;
    assert BatchLines(cfg, Origin(s).prev, s.task.batch)[..0] == [];
    assert Text(t.file) == Text(s.file) && OnDisk(cfg, t) == OnDisk(cfg, s);
    forall u | u in t.strays ensures Moored(cfg, t, u) { assert Moored(cfg, s, u); }
  }

  lemma WrittenLog(cfg: Config, s: State, record: Json)
    requires Written(cfg, s)
    ensures Written(cfg, Act(cfg, s, Log(record)))
  {
    var t := Act(cfg, s, Log(record));
    assert Pick(t.datas, t.persisted) == Pick(s.datas, s.persisted);
    assert OnDisk(cfg, t) == OnDisk(cfg, s);
    forall u | u in t.strays ensures Moored(cfg, t, u) { assert Moored(cfg, s, u); }
    assert Moored(cfg, s, s.task);
  }

  lemma WrittenSeal(cfg: Config, s: State)
    requires Written(cfg, s)
    ensures Written(cfg, Act(cfg, s, Seal))
  {
    var t := Act(cfg, s, Seal);
    assert OnDisk(cfg, t) == OnDisk(cfg, s);
    forall u | u in t.strays ensures Moored(cfg, t, u) { assert Moored(cfg, s, u); }
  }

  lemma WrittenClose(cfg: Config, s: State)
    requires Written(cfg, s)
    ensures Written(cfg, Act(cfg, s, CloseEnd))
  {
    var t := Act(cfg, s, CloseEnd);
    forall u | u in t.strays ensures u == s.task || u in s.strays {}
    WrittenSame(cfg, s, t);
  }

  lemma DiskPlain(cfg: Config, s: State)
    requires AllPlain(s.datas) && Known(s)
    ensures PlainEntries(OnDisk(cfg, s)) && Chained(cfg.lib, cfg.secret, OnDisk(cfg, s))
  {
    ChainIsChained(cfg.lib, cfg.secret, Pick(s.datas, s.persisted));
  }

  /** What a restart would read from the file is the digest of its last line. */
  lemma SeedReads(cfg: Config, s: State)
    requires Faithful(cfg.lib) && cfg.secret != "" && AllPlain(s.datas) && Written(cfg, s)
    ensures Seed(cfg, s.file) == Before(OnDisk(cfg, s), |s.persisted|)
  {
    DiskPlain(cfg, s);
    LastLoads(cfg.lib, OnDisk(cfg, s));
    if s.file.None? {
      assert Text(s.file) == "";
      assert LinesOf(cfg.lib, OnDisk(cfg, s)) == [];
    } else {
      assert s.file == Some(Unlines(LinesOf(cfg.lib, OnDisk(cfg, s))));
    }
  }

  lemma WrittenRestart(cfg: Config, s: State)
    requires Faithful(cfg.lib) && cfg.secret != "" && AllPlain(s.datas) && Written(cfg, s)
    ensures Written(cfg, Act(cfg, s, Restart))
  {
    SeedReads(cfg, s);
    assert OnDisk(cfg, Act(cfg, s, Restart)) == OnDisk(cfg, s);
  }

  lemma WrittenAct(cfg: Config, s: State, ev: Event)
    requires Faithful(cfg.lib) && cfg.secret != ""
    requires ItemsMatch(BatchOf(s.task), s.datas) && AllPlain(s.datas) && Written(cfg, s) && CanAct(s, ev)
    requires Appends(ev) ==> InStep(s)
    ensures Written(cfg, Act(cfg, s, ev))
  {
    match ev {
      case Log(record) => WrittenLog(cfg, s, record);
      case Seal => WrittenSeal(cfg, s);
      case WriteOk => WriteOkWritten(cfg, s);
      case WriteFail(touched, kept) =>
        if kept > 0 { LossWritten(cfg, s, touched, kept); } else { NothingWritten(cfg, s, touched); }
      case CloseEnd => WrittenClose(cfg, s);
      case Restart => WrittenRestart(cfg, s);
      case _ => WrittenSame(cfg, s, Act(cfg, s, ev));
    }
  }

  lemma LoadedAct(cfg: Config, s: State, ev: Event)
    requires CanAct(s, ev) && Loaded(s.task) && forall t :: t in s.strays ==> Loaded(t)
    ensures Loaded(Act(cfg, s, ev).task) && forall t :: t in Act(cfg, s, ev).strays ==> Loaded(t)
  {
  }

  lemma SoundAct(cfg: Config, s: State, ev: Event)
    requires Faithful(cfg.lib) && cfg.secret != "" && Sound(cfg, s) && CanAct(s, ev) && (Appends(ev) ==> InStep(s))
    ensures Sound(cfg, Act(cfg, s, ev))
  {
    PlainStep(cfg, s, ev);
    MatchAct(cfg, s, ev);
    WrittenAct(cfg, s, ev);
    LoadedAct(cfg, s, ev);
  }

  lemma SwapMembers(s: State, i: nat)
    requires i < |s.strays|
    ensures forall t :: t == Swap(s, i).task || t in Swap(s, i).strays ==> t == s.task || t in s.strays
  {
    assert s.strays[i] in s.strays;
  }

  lemma SwapSound(cfg: Config, s: State, i: nat)
    requires Sound(cfg, s) && i < |s.strays|
    ensures Sound(cfg, Swap(s, i))
  {
    SwapMembers(s, i);
    WrittenSame(cfg, s, Swap(s, i));
  }

  lemma SoundStep(cfg: Config, s: State, ev: Event)
    requires Faithful(cfg.lib) && cfg.secret != "" && Sound(cfg, s) && Enabled(cfg, s, ev)
    requires Appends(Inner(ev)) ==> InStep(Acting(s, ev))
    ensures Sound(cfg, Step(cfg, s, ev))
  {
    if ev.Stray? {
      SwapSound(cfg, s, ev.i);
      SoundAct(cfg, Swap(s, ev.i), ev.ev);
      SwapSound(cfg, Act(cfg, Swap(s, ev.i), ev.ev), ev.i);
    } else {
      SoundAct(cfg, s, ev);
    }
  }

  lemma SafeLast(cfg: Config, evs: seq<Event>, ev: Event)
    ensures SafeRun(cfg, evs + [ev])
      <==> SafeRun(cfg, evs) && (Appends(Inner(ev)) ==> InStep(Acting(After(cfg, evs), ev)))
  {
    var all, n := evs + [ev], |evs|;
    assert all[..n] == evs && all[n] == ev;
    PrefixesAgree(all, n);
    if SafeRun(cfg, all) {
      assert Appends(Inner(all[n])) ==> InStep(Acting(After(cfg, all[..n]), all[n]));
      forall i | 0 <= i < n && Appends(Inner(evs[i])) ensures InStep(Acting(After(cfg, evs[..i]), evs[i])) {
        assert Appends(Inner(all[i]));
      }
    }
  }

  lemma SafePrefix(cfg: Config, evs: seq<Event>)
    requires evs != []
    ensures var rest := evs[..|evs| - 1];
      SafeRun(cfg, evs) <==> SafeRun(cfg, rest) && (Appends(Inner(Last(evs))) ==> InStep(Acting(After(cfg, rest), Last(evs))))
  {
    Unsnoc(evs);
    SafeLast(cfg, evs[..|evs| - 1], Last(evs));
  }

  lemma InitialSound(cfg: Config)
    ensures Sound(cfg, Initial)
  {
    assert Pick([], []) == [];
  }

  lemma {:induction false} RunSound(cfg: Config, evs: seq<Event>)
    requires Faithful(cfg.lib) && cfg.secret != "" && Run(cfg, evs) && SafeRun(cfg, evs)
    ensures Sound(cfg, After(cfg, evs))
  {
    if evs == [] {
      InitialSound(cfg);
    } else {
      RunPrefix(cfg, evs);
      SafePrefix(cfg, evs);
      RunSound(cfg, evs[..|evs| - 1]);
      SoundStep(cfg, After(cfg, evs[..|evs| - 1]), Last(evs));
    }
  }

  /** What the verifier says of a sound file. */
  lemma SoundVerifies(cfg: Config, s: State)
    requires Faithful(cfg.lib) && cfg.secret != "" && Sound(cfg, s)
    ensures VerifyFile(cfg.lib, s.file, cfg.secret) ==
      if s.file.None? then Verified(VerifyResult(false, "read_error", 0, None, None, None)) else Accepted(|s.persisted|)
    ensures s.persisted != [] ==> s.file.Some?
    ensures ReadsAs(cfg.lib, FileLines(Text(s.file)), OnDisk(cfg, s))
    ensures forall i :: 0 <= i < |s.persisted| ==> OnDisk(cfg, s)[i].base == s.datas[s.persisted[i]]
  {
    var es := OnDisk(cfg, s);
    DiskPlain(cfg, s);
    ChainIsChained(cfg.lib, cfg.secret, Pick(s.datas, s.persisted));
    WrittenReads(cfg.lib, es);
    if s.file.Some? {
      CheckChained(cfg.lib, cfg.secret, FileLines(s.file.value), es, 0);
      assert FileLines(s.file.value)[0..] == FileLines(s.file.value);
    } else {
      assert LinesOf(cfg.lib, es) == [];
    }
  }

  // ------------------------------------------------ runs nothing disturbed

  /** The head and whatever was signed from it have seen all lines. */
  predicate UpToDate(s: State) { s.head == |s.persisted| && InStep(s) }

  lemma UpToDateStep(cfg: Config, s: State, ev: Event)
    requires UpToDate(s) && !Loses(ev) && !ev.Stray?
    ensures UpToDate(Step(cfg, s, ev))
  {
  }

  lemma {:induction false} UndisturbedIsSafe(cfg: Config, evs: seq<Event>)
    requires LossFree(evs) && ApartRun(cfg, evs)
    ensures UpToDate(After(cfg, evs)) && SafeRun(cfg, evs)
  {
    if evs != [] {
      var rest := evs[..|evs| - 1];
      assert LossFree(rest) by { PrefixesAgree(evs, |evs| - 1); }
      ApartPrefix(cfg, evs);
      UndisturbedIsSafe(cfg, rest);
      assert !Loses(Last(evs));
      UpToDateStep(cfg, After(cfg, rest), Last(evs));
      SafePrefix(cfg, evs);
    }
  }

  /** The signed log over every run in which failed writes leave the file unchanged and no `log`
      overlaps an `aclose`: the verifier accepts it with as many records as were persisted; the
      in-memory head is what a restart would read; and the records on disk are those enqueued, in
      that order. */
  lemma LogVerifies(cfg: Config, evs: seq<Event>)
    requires Faithful(cfg.lib) && cfg.secret != "" && Run(cfg, evs) && ApartRun(cfg, evs) && LossFree(evs)
    ensures var s := After(cfg, evs);
      && VerifyFile(cfg.lib, s.file, cfg.secret) ==
           (if s.file.None? then Verified(VerifyResult(false, "read_error", 0, None, None, None)) else Accepted(|s.persisted|))
      && (s.persisted != [] ==> s.file.Some?)
      && s.prev == Seed(cfg, s.file)
      && Increasing(s.persisted, |s.datas|)
      && ReadsAs(cfg.lib, FileLines(Text(s.file)), OnDisk(cfg, s))
      && (forall i :: 0 <= i < |s.persisted| ==> OnDisk(cfg, s)[i].base == s.datas[s.persisted[i]])
  {
    var s := After(cfg, evs);
    UndisturbedIsSafe(cfg, evs);
    RunSound(cfg, evs);
    SoundVerifies(cfg, s);
    RunSettling(cfg, evs);
    PersistedIncreasing(s);
    SeedReads(cfg, s);
  }

  // ------------------------------------------------- lines that do not link

  /** The state after lines were appended that do not link: the file reads as entries of which
      number `b` is the first that does not. */
  ghost predicate Broken(cfg: Config, s: State, es: seq<Entry>, b: nat) {
    && AllPlain(s.datas) && BatchesMatch(s) && PlainEntries(es)
    && s.file == Some(Unlines(LinesOf(cfg.lib, es)))
    && b < |es| && FirstBreak(cfg.lib, cfg.secret, es, b)
  }

  lemma BreakStays(lib: Library, secret: string, es: seq<Entry>, more: seq<Entry>, b: nat)
    requires b < |es| && FirstBreak(lib, secret, es, b)
    ensures FirstBreak(lib, secret, es + more, b)
  {
    var all := es + more;
    assert forall i: nat :: i <= b ==> all[i] == es[i] && Before(all, i) == Before(es, i);
    assert forall i: nat :: i < b ==> Links(lib, secret, all, i) == Links(lib, secret, es, i);
  }

  lemma BrokenVerifies(cfg: Config, s: State, es: seq<Entry>, b: nat)
    requires Faithful(cfg.lib) && cfg.secret != "" && Broken(cfg, s, es, b)
    ensures VerifyFile(cfg.lib, s.file, cfg.secret) ==
      Rejected("bad_chain", b + 1, b + 1, Some(Sign(cfg.lib, cfg.secret, Before(es, b), es[b].base)), Some(es[b].digest))
  {
    WrittenReads(cfg.lib, es);
    RejectedAtFirstBreak(cfg.lib, cfg.secret, s.file.value, es, b);
  }

  /** What a write adds to the file, as entries. */
  ghost function Added(cfg: Config, s: State, ev: Event): seq<Entry> {
    if !s.task.Writing? then []
    else
      var all := Chain(cfg.lib, cfg.secret, Origin(s).prev, Datas(s.task.batch));
      if ev.WriteOk? then all else if ev.WriteFail? && ev.kept <= |all| then all[..ev.kept] else []
  }

  lemma AddedLines(cfg: Config, s: State, ev: Event)
    requires cfg.secret != "" && CanAct(s, ev)
    ensures Text(Act(cfg, s, ev).file) == Text(s.file) + Unlines(LinesOf(cfg.lib, Added(cfg, s, ev)))
    ensures s.file.Some? || Appends(ev) ==> Act(cfg, s, ev).file.Some?
  {
    if ev.WriteFail? {
      LinesOfPrefix(cfg.lib, Chain(cfg.lib, cfg.secret, Origin(s).prev, Datas(s.task.batch)), ev.kept);
      if !ev.touched {
        assert BatchLines(cfg, Origin(s).prev, s.task.batch)[..0] == [];
      }
    }
  }

  lemma AddedPlain(cfg: Config, s: State, ev: Event)
    requires BatchesMatch(s) && AllPlain(s.datas)
    ensures PlainEntries(Added(cfg, s, ev))
  {
    if s.task.Writing? {
      ChainBases(cfg.lib, cfg.secret, Origin(s).prev, Datas(s.task.batch));
      BatchData(s);
    }
  }

  lemma {:induction false} ChainBases(lib: Library, secret: string, prev: string, datas: seq<Json>)
    ensures forall i :: 0 <= i < |datas| ==> Chain(lib, secret, prev, datas)[i].base == datas[i]
    decreases |datas|
  {
    if datas != [] {
      ChainBases(lib, secret, Sign(lib, secret, prev, datas[0]), datas[1..]);
    }
  }

  lemma BrokenAct(cfg: Config, s: State, ev: Event, es: seq<Entry>, b: nat)
    requires cfg.secret != "" && Broken(cfg, s, es, b) && CanAct(s, ev)
    ensures Broken(cfg, Act(cfg, s, ev), es + Added(cfg, s, ev), b)
  {
    PlainStep(cfg, s, ev);
    MatchAct(cfg, s, ev);
    AddedLines(cfg, s, ev);
    AddedPlain(cfg, s, ev);
    var more := Added(cfg, s, ev);
    LinesOfAppend(cfg.lib, es, more);
    UnlinesAppend(LinesOf(cfg.lib, es), LinesOf(cfg.lib, more));
    BreakStays(cfg.lib, cfg.secret, es, more, b);
  }

  lemma SwapBroken(cfg: Config, s: State, i: nat, es: seq<Entry>, b: nat)
    requires Broken(cfg, s, es, b) && i < |s.strays|
    ensures Broken(cfg, Swap(s, i), es, b)
  {
  }

  /** A step of a stray is a step of the flusher, seen from the stray. */
  lemma StrayIs(cfg: Config, s: State, ev: Event)
    requires ev.Stray? && Enabled(cfg, s, ev)
    ensures Acting(s, ev) == Swap(s, ev.i) && CanAct(Acting(s, ev), Inner(ev))
    ensures var t := Act(cfg, Acting(s, ev), Inner(ev)); |t.strays| == |s.strays| && Step(cfg, s, ev) == Swap(t, ev.i)
  {
  }

  lemma BrokenStep(cfg: Config, s: State, ev: Event, es: seq<Entry>, b: nat)
    requires cfg.secret != "" && Broken(cfg, s, es, b) && Enabled(cfg, s, ev)
    ensures Broken(cfg, Step(cfg, s, ev), es + Added(cfg, Acting(s, ev), Inner(ev)), b)
  {
    if ev.Stray? {
      StrayIs(cfg, s, ev);
      SwapBroken(cfg, s, ev.i, es, b);
      BrokenAct(cfg, Acting(s, ev), Inner(ev), es, b);
      SwapBroken(cfg, Act(cfg, Acting(s, ev), Inner(ev)), ev.i, es + Added(cfg, Acting(s, ev), Inner(ev)), b);
    } else {
      BrokenAct(cfg, s, ev, es, b);
    }
  }

  /** The messages of a file and of the first record appended to it, chained to what the writer signs
      it from and to the last line, as the verifier does. */
  ghost predicate HoldsAppend(cfg: Config, s: State, messages: set<string>) {
    && Known(s)
    && HoldsMessages(cfg.lib, OnDisk(cfg, s), messages)
    && (s.task.Writing? && s.task.batch != [] ==>
      var d := cfg.lib.dumps(s.task.batch[0].data);
      Origin(s).prev + d in messages && Before(OnDisk(cfg, s), |s.persisted|) + d in messages)
  }

  lemma LinksStay(lib: Library, secret: string, es: seq<Entry>, more: seq<Entry>)
    requires Chained(lib, secret, es)
    ensures forall i: nat :: i < |es| ==> Links(lib, secret, es + more, i)
  {
    forall i: nat | i < |es| ensures Links(lib, secret, es + more, i) {
      assert Links(lib, secret, es, i);
      assert Before(es + more, i) == Before(es, i);
    }
  }

  /** An append as entries, whatever they link to. */
  lemma AppendReads(cfg: Config, s: State, ev: Event)
    requires Faithful(cfg.lib) && cfg.secret != "" && Sound(cfg, s) && CanAct(s, ev) && Appends(ev)
    ensures var t := Act(cfg, s, ev); var es := OnDisk(cfg, s) + Added(cfg, s, ev);
      && AllPlain(t.datas) && BatchesMatch(t) && PlainEntries(es) && t.file == Some(Unlines(LinesOf(cfg.lib, es)))
  {
    PlainStep(cfg, s, ev);
    MatchAct(cfg, s, ev);
    AddedLines(cfg, s, ev);
    AddedPlain(cfg, s, ev);
    DiskPlain(cfg, s);
    LinesOfAppend(cfg.lib, OnDisk(cfg, s), Added(cfg, s, ev));
    UnlinesAppend(LinesOf(cfg.lib, OnDisk(cfg, s)), LinesOf(cfg.lib, Added(cfg, s, ev)));
  }

  lemma AddedFirst(cfg: Config, s: State, ev: Event)
    requires cfg.secret != "" && Loaded(s.task) && CanAct(s, ev) && Appends(ev)
    ensures s.task.Writing? && s.task.batch != [] && Added(cfg, s, ev) != []
    ensures var data := s.task.batch[0].data;
      Added(cfg, s, ev)[0] == Entry(data, Sign(cfg.lib, cfg.secret, Origin(s).prev, data))
  {
  }

  /** The first line appended from a head that is out of step does not link. */
  lemma OutOfStepBreaks(cfg: Config, s: State, first: Entry, more: seq<Entry>, messages: set<string>)
    requires Faithful(cfg.lib) && cfg.secret != "" && Sound(cfg, s) && !InStep(s)
    requires CollisionFree(cfg.lib, cfg.secret, messages) && HoldsAppend(cfg, s, messages)
    requires s.task.Writing? && s.task.batch != []
    requires first == Entry(s.task.batch[0].data, Sign(cfg.lib, cfg.secret, Origin(s).prev, s.task.batch[0].data))
    ensures FirstBreak(cfg.lib, cfg.secret, OnDisk(cfg, s) + ([first] + more), |s.persisted|)
  {
    DiskPlain(cfg, s);
    var es, from := OnDisk(cfg, s), Origin(s);
    var all, b := es + ([first] + more), |es|;
    LinksStay(cfg.lib, cfg.secret, es, [first] + more);
    assert all[b] == first && Before(all, b) == Before(es, b);
    assert Records(es);
    AnchorsDistinct(cfg.lib, cfg.secret, es, from.head, b, messages);
    BeforeLength(cfg.lib, cfg.secret, es, from.head);
    BeforeLength(cfg.lib, cfg.secret, es, b);
    var d := cfg.lib.dumps(first.base);
    if Links(cfg.lib, cfg.secret, all, b) {
      MessageInjective(from.prev, d, Before(es, b), d);
    }
  }

  /** Appending while out of step breaks the chain, at the first line appended. */
  lemma UnsafeAppendBreaks(cfg: Config, s: State, ev: Event, messages: set<string>)
    requires Faithful(cfg.lib) && cfg.secret != "" && Sound(cfg, s) && CanAct(s, ev) && Appends(ev) && !InStep(s)
    requires CollisionFree(cfg.lib, cfg.secret, messages) && HoldsAppend(cfg, s, messages)
    ensures Broken(cfg, Act(cfg, s, ev), OnDisk(cfg, s) + Added(cfg, s, ev), |s.persisted|)
  {
    AppendReads(cfg, s, ev);
    AddedFirst(cfg, s, ev);
    var more := Added(cfg, s, ev);
    assert more == [more[0]] + more[1..];
    OutOfStepBreaks(cfg, s, more[0], more[1..], messages);
  }

  lemma UnsafeStepBreaks(cfg: Config, s: State, ev: Event, messages: set<string>) returns (es: seq<Entry>, b: nat)
    requires Faithful(cfg.lib) && cfg.secret != "" && Sound(cfg, s) && Enabled(cfg, s, ev)
    requires Appends(Inner(ev)) && !InStep(Acting(s, ev))
    requires CollisionFree(cfg.lib, cfg.secret, messages) && HoldsAppend(cfg, Acting(s, ev), messages)
    ensures Broken(cfg, Step(cfg, s, ev), es, b)
  {
    if ev.Stray? {
      var t := Swap(s, ev.i);
      StrayIs(cfg, s, ev);
      SwapSound(cfg, s, ev.i);
      UnsafeAppendBreaks(cfg, t, ev.ev, messages);
      es, b := OnDisk(cfg, t) + Added(cfg, t, ev.ev), |t.persisted|;
      SwapBroken(cfg, Act(cfg, t, ev.ev), ev.i, es, b);
    } else {
      UnsafeAppendBreaks(cfg, s, ev, messages);
      es, b := OnDisk(cfg, s) + Added(cfg, s, ev), |s.persisted|;
    }
  }

  ghost predicate BadChain(o: Outcome) { o.Verified? && o.result.status == "bad_chain" }

  /** All unsafe appends of the run happen within the collision-free messages. */
  ghost predicate RunWithin(cfg: Config, evs: seq<Event>, messages: set<string>) {
    forall n :: 0 <= n < |evs| && Appends(Inner(evs[n])) && Sound(cfg, After(cfg, evs[..n])) ==>
      HoldsAppend(cfg, Acting(After(cfg, evs[..n]), evs[n]), messages)
  }

  lemma {:induction false} UnsafeRunBroken(cfg: Config, evs: seq<Event>, messages: set<string>)
    returns (es: seq<Entry>, b: nat)
    requires Faithful(cfg.lib) && cfg.secret != "" && Run(cfg, evs) && !SafeRun(cfg, evs)
    requires CollisionFree(cfg.lib, cfg.secret, messages) && RunWithin(cfg, evs, messages)
    ensures Broken(cfg, After(cfg, evs), es, b)
  {
    var n := |evs| - 1;
    var rest, ev := evs[..n], Last(evs);
    RunPrefix(cfg, evs);
    SafePrefix(cfg, evs);
    var s := After(cfg, rest);
    if SafeRun(cfg, rest) {
      RunSound(cfg, rest);
      assert evs[n] == ev && evs[..n] == rest;
      es, b := UnsafeStepBreaks(cfg, s, ev, messages);
    } else {
      PrefixesAgree(evs, n);
      es, b := UnsafeRunBroken(cfg, rest, messages);
      BrokenStep(cfg, s, ev, es, b);
      es := es + Added(cfg, Acting(s, ev), Inner(ev));
    }
  }

  /** The exact condition, over every run, with failing writes that may leave lines behind, restarts,
      and flushers that overlap: the verifier finds a broken chain exactly when some line was
      appended that was signed from a head that had not seen all lines on disk. That takes a failed
      write that left lines, or a flusher that signed while another was about to write. */
  lemma ChainHoldsExactlyWhenSafe(cfg: Config, evs: seq<Event>, messages: set<string>)
    requires Faithful(cfg.lib) && cfg.secret != "" && Run(cfg, evs)
    requires CollisionFree(cfg.lib, cfg.secret, messages) && RunWithin(cfg, evs, messages)
    ensures BadChain(VerifyFile(cfg.lib, After(cfg, evs).file, cfg.secret)) <==> !SafeRun(cfg, evs)
  {
    if SafeRun(cfg, evs) {
      RunSound(cfg, evs);
      SoundVerifies(cfg, After(cfg, evs));
    } else {
      var es, b := UnsafeRunBroken(cfg, evs, messages);
      BrokenVerifies(cfg, After(cfg, evs), es, b);
    }
  }

  // ---------------------------------------------- two flushers, one head

  lemma OneRecord(it: Item)
    ensures DrainItems([Rec(it)]) == [it] && DrainRest([Rec(it)]) == [] && !DrainStops([Rec(it)])
    ensures DrainItems([Rec(it)] + [Sentinel]) == [it] && DrainRest([Rec(it)] + [Sentinel]) == []
      && DrainStops([Rec(it)] + [Sentinel])
  {
    assert [Rec(it)][1..] == [] && ([Rec(it)] + [Sentinel])[1..] == [Sentinel] && [Sentinel][1..] == [];
    assert DrainItems([Sentinel]) == [] && DrainRest([Sentinel]) == [];
  }

  /** A flusher, or none, that has nothing to do. */
  predicate Idle(s: State, strays: seq<Task>, phase: Phase, lines: nat) {
    s.task == Stopped && s.queue == [] && s.strays == strays && s.phase == phase && s.head == lines == |s.persisted|
  }

  /** A record is written and `aclose` is about to come back. */
  function FirstClosed(a: Json): seq<Event> { [Log(a)] + [CloseBegin] + [Take] + [WriteOk] }

  lemma FirstClosedSteps(cfg: Config, a: Json)
    requires Plain(a)
    ensures var s1 := Step(cfg, Initial, Log(a)); var s2 := Step(cfg, s1, CloseBegin); var s3 := Step(cfg, s2, Take);
      && Enabled(cfg, Initial, Log(a)) && Enabled(cfg, s1, CloseBegin) && Enabled(cfg, s2, Take) && Enabled(cfg, s3, WriteOk)
      && Idle(Step(cfg, s3, WriteOk), [], Awaiting, 1)
  {
    var it := Item(0, Prepared(a));
    OneRecord(it);
    assert [] + [Rec(it)] == [Rec(it)];
    assert Step(cfg, Step(cfg, Step(cfg, Initial, Log(a)), CloseBegin), Take).task == Writing([it], true, None);
  }

  lemma FirstClosedState(cfg: Config, a: Json)
    requires Plain(a)
    ensures Run(cfg, FirstClosed(a)) && Idle(After(cfg, FirstClosed(a)), [], Awaiting, 1)
  {
    var e1 := [Log(a)];
    FirstClosedSteps(cfg, a);
    assert [] + e1 == e1;
    AfterLast(cfg, [], Log(a));
    AfterLast(cfg, e1, CloseBegin);
    AfterLast(cfg, e1 + [CloseBegin], Take);
    AfterLast(cfg, e1 + [CloseBegin] + [Take], WriteOk);
  }

  lemma ForgottenSteps(cfg: Config, s: State, b: Json)
    requires Plain(b) && Idle(s, [], Awaiting, 1)
    ensures var s1 := Step(cfg, s, Log(b)); var s2 := Step(cfg, s1, Take); var s3 := Step(cfg, s2, CloseEnd);
      && Enabled(cfg, s, Log(b)) && Enabled(cfg, s1, Take) && Enabled(cfg, s2, CloseEnd)
      && Idle(s3, [Writing([Item(|s.datas|, Prepared(b))], false, None)], NotClosing, 1) && s3.prev == s.prev
  {
    var it := Item(|s.datas|, Prepared(b));
    OneRecord(it);
    assert [] + [Rec(it)] == [Rec(it)];
    assert Step(cfg, Step(cfg, s, Log(b)), Take).task == Writing([it], false, None);
  }

  lemma SealedStep(cfg: Config, s: State, batch: seq<Item>)
    requires Idle(s, [Writing(batch, false, None)], NotClosing, 1)
    ensures Enabled(cfg, s, Stray(0, Seal))
    ensures Idle(Step(cfg, s, Stray(0, Seal)), [Writing(batch, false, Some(Anchor(s.prev, 1)))], NotClosing, 1)
  {
  }

  /** A record is enqueued before `aclose` comes back, which then forgets the flusher that took it. */
  lemma Forgotten(cfg: Config, evs: seq<Event>, b: Json)
    requires Plain(b) && Run(cfg, evs) && Idle(After(cfg, evs), [], Awaiting, 1)
    ensures var more := evs + [Log(b)] + [Take] + [CloseEnd] + [Stray(0, Seal)]; var s := After(cfg, evs);
      Run(cfg, more)
      && Idle(After(cfg, more), [Writing([Item(|s.datas|, Prepared(b))], false, Some(Anchor(s.prev, 1)))], NotClosing, 1)
  {
    var s := After(cfg, evs);
    ForgottenSteps(cfg, s, b);
    AfterLast(cfg, evs, Log(b));
    AfterLast(cfg, evs + [Log(b)], Take);
    AfterLast(cfg, evs + [Log(b)] + [Take], CloseEnd);
    SealedStep(cfg, After(cfg, evs + [Log(b)] + [Take] + [CloseEnd]), [Item(|s.datas|, Prepared(b))]);
    AfterLast(cfg, evs + [Log(b)] + [Take] + [CloseEnd], Stray(0, Seal));
  }

  lemma OvertakenSteps(cfg: Config, s: State, stray: Task, c: Json)
    requires Plain(c) && Idle(s, [stray], NotClosing, 1)
    ensures var s1 := Step(cfg, s, Log(c)); var s2 := Step(cfg, s1, Take); var s3 := Step(cfg, s2, WriteOk);
      && Enabled(cfg, s, Log(c)) && Enabled(cfg, s1, Take) && Enabled(cfg, s2, WriteOk)
      && s3.strays == [stray] && |s3.persisted| == 2
  {
    var it := Item(|s.datas|, Prepared(c));
    OneRecord(it);
    assert [] + [Rec(it)] == [Rec(it)];
    assert Step(cfg, Step(cfg, s, Log(c)), Take).task == Writing([it], false, None);
  }

  /** Meanwhile the next record is written by a new flusher. */
  lemma OvertakenBy(cfg: Config, evs: seq<Event>, stray: Task, c: Json)
    requires Plain(c) && Run(cfg, evs) && Idle(After(cfg, evs), [stray], NotClosing, 1)
    ensures var more := evs + [Log(c)] + [Take] + [WriteOk];
      Run(cfg, more) && After(cfg, more).strays == [stray] && |After(cfg, more).persisted| == 2
  {
    OvertakenSteps(cfg, After(cfg, evs), stray, c);
    AfterLast(cfg, evs, Log(c));
    AfterLast(cfg, evs + [Log(c)], Take);
    AfterLast(cfg, evs + [Log(c)] + [Take], WriteOk);
  }

  /** The forgotten flusher writes what it signed before. */
  lemma LateWrite(cfg: Config, evs: seq<Event>, batch: seq<Item>, prev: string)
    requires Run(cfg, evs) && After(cfg, evs).strays == [Writing(batch, false, Some(Anchor(prev, 1)))]
    requires |After(cfg, evs).persisted| == 2
    ensures Run(cfg, evs + [Stray(0, WriteOk)]) && !SafeRun(cfg, evs + [Stray(0, WriteOk)])
  {
    var s := After(cfg, evs);
    assert Acting(s, Stray(0, WriteOk)) == Swap(s, 0) && Origin(Swap(s, 0)) == Anchor(prev, 1);
    AfterLast(cfg, evs, Stray(0, WriteOk));
    SafeLast(cfg, evs, Stray(0, WriteOk));
  }

  function Forked(a: Json, b: Json, c: Json): seq<Event> {
    FirstClosed(a) + [Log(b)] + [Take] + [CloseEnd] + [Stray(0, Seal)] + [Log(c)] + [Take] + [WriteOk] + [Stray(0, WriteOk)]
  }

  lemma ForkedLosesNothing(a: Json, b: Json, c: Json)
    ensures LossFree(Forked(a, b, c))
  {
    assert Forked(a, b, c) ==
      [Log(a), CloseBegin, Take, WriteOk, Log(b), Take, CloseEnd, Stray(0, Seal), Log(c), Take, WriteOk, Stray(0, WriteOk)];
  }

  /** No write fails and yet the run is not safe: a record enqueued while the log closes is signed by
      a flusher that `aclose` forgets, another one writes a later record, and then the first one
      writes. */
  lemma OverlapForks(cfg: Config, a: Json, b: Json, c: Json)
    requires Plain(a) && Plain(b) && Plain(c)
    ensures Run(cfg, Forked(a, b, c)) && LossFree(Forked(a, b, c)) && !SafeRun(cfg, Forked(a, b, c))
  {
    var first := FirstClosed(a);
    FirstClosedState(cfg, a);
    Forgotten(cfg, first, b);
    var s := After(cfg, first);
    var second := first + [Log(b)] + [Take] + [CloseEnd] + [Stray(0, Seal)];
    var batch := [Item(|s.datas|, Prepared(b))];
    OvertakenBy(cfg, second, Writing(batch, false, Some(Anchor(s.prev, 1))), c);
    LateWrite(cfg, second + [Log(c)] + [Take] + [WriteOk], batch, s.prev);
    ForkedLosesNothing(a, b, c);
  }

  /** So the verifier finds its chain broken. */
  lemma OverlapBreaksChain(cfg: Config, a: Json, b: Json, c: Json, messages: set<string>)
    requires Faithful(cfg.lib) && cfg.secret != "" && Plain(a) && Plain(b) && Plain(c)
    requires CollisionFree(cfg.lib, cfg.secret, messages) && RunWithin(cfg, Forked(a, b, c), messages)
    ensures BadChain(VerifyFile(cfg.lib, After(cfg, Forked(a, b, c)).file, cfg.secret))
  {
    OverlapForks(cfg, a, b, c);
    ChainHoldsExactlyWhenSafe(cfg, Forked(a, b, c), messages);
  }
}
