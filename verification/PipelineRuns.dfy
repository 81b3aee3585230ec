/** Whole interleavings of the pipeline: what came before every call of the executor. */
module PipelineRuns {
  import opened Common
  import opened Policies
  import opened PolicyEngine
  import Chain = AuditChain
  import Audit = AuditLogger
  import AuditRuns
  import AuditSigned
  import AuditDisk
  import Approvals
  import opened Pipeline

  type PolicyMap = map<string, Policy>

  lemma PrefixOf(cfg: Config, ps: PolicyMap, evs: seq<Event>)
    requires evs != [] && Interleaving(cfg, ps, evs)
    ensures Interleaving(cfg, ps, evs[..|evs| - 1])
    ensures Enabled(cfg, After(cfg, ps, evs[..|evs| - 1]), Last(evs))
  {
    var n := |evs| - 1;
    assert Enabled(cfg, After(cfg, ps, evs[..n]), evs[n]);
    forall i | 0 <= i < n ensures Enabled(cfg, After(cfg, ps, evs[..n][..i]), evs[..n][i]) {
      assert evs[..n][..i] == evs[..i];
      assert Enabled(cfg, After(cfg, ps, evs[..i]), evs[i]);
    }
  }

  lemma TakeOf(cfg: Config, ps: PolicyMap, evs: seq<Event>, n: nat)
    requires n <= |evs| && Interleaving(cfg, ps, evs)
    ensures Interleaving(cfg, ps, evs[..n])
    ensures n < |evs| ==> After(cfg, ps, evs[..n + 1]) == Step(cfg, After(cfg, ps, evs[..n]), evs[n])
    ensures n < |evs| ==> Enabled(cfg, After(cfg, ps, evs[..n]), evs[n])
  {
    forall i | 0 <= i < n ensures Enabled(cfg, After(cfg, ps, evs[..n][..i]), evs[..n][i]) {
      assert evs[..n][..i] == evs[..i];
      assert Enabled(cfg, After(cfg, ps, evs[..i]), evs[i]);
    }
    if n < |evs| {
      assert evs[..n + 1][..n] == evs[..n];
      assert Enabled(cfg, After(cfg, ps, evs[..n]), evs[n]);
    }
  }

  lemma {:induction false} RunInv(cfg: Config, ps: PolicyMap, evs: seq<Event>)
    requires Sane(cfg) && Interleaving(cfg, ps, evs)
    ensures Inv(After(cfg, ps, evs))
  {
    if evs != [] {
      PrefixOf(cfg, ps, evs);
      RunInv(cfg, ps, evs[..|evs| - 1]);
      StepInv(cfg, After(cfg, ps, evs[..|evs| - 1]), Last(evs));
    }
  }

  // --------------------------------------------------------------- only once

  /** The n-th event calls the executor for the request. */
  ghost predicate CallsAt(cfg: Config, ps: PolicyMap, evs: seq<Event>, n: nat, rid: string)
    requires n < |evs|
  {
    exists c: Call :: c.rid == rid && After(cfg, ps, evs[..n + 1]).calls == After(cfg, ps, evs[..n]).calls + [c]
  }

  lemma CallsStep(cfg: Config, s: State, ev: Event)
    ensures s.calls <= Step(cfg, s, ev).calls
  {
  }

  lemma {:induction false} CallsGrow(cfg: Config, ps: PolicyMap, evs: seq<Event>, n: nat)
    requires n <= |evs|
    ensures After(cfg, ps, evs[..n]).calls <= After(cfg, ps, evs).calls
  {
    if n == |evs| {
      assert evs[..n] == evs;
    } else {
      var rest := evs[..|evs| - 1];
      assert rest[..n] == evs[..n];
      CallsGrow(cfg, ps, rest, n);
      CallsStep(cfg, After(cfg, ps, rest), Last(evs));
    }
  }

  /** The call of an event is in the list at the place where the list ended before. */
  lemma CallListed(cfg: Config, ps: PolicyMap, evs: seq<Event>, i: nat, j: nat, rid: string)
    requires i < j <= |evs| && CallsAt(cfg, ps, evs, i, rid)
    ensures |After(cfg, ps, evs[..i]).calls| < |After(cfg, ps, evs[..j]).calls|
    ensures After(cfg, ps, evs[..j]).calls[|After(cfg, ps, evs[..i]).calls|].rid == rid
  {
    assert evs[..j][..i + 1] == evs[..i + 1];
    CallsGrow(cfg, ps, evs[..j], i + 1);
  }

  ghost predicate NoRepeat(calls: seq<Call>) { forall a, b :: 0 <= a < b < |calls| ==> calls[a].rid != calls[b].rid }

  /** At no point does the list hold two calls for one request. */
  lemma NeverTwice(cfg: Config, ps: PolicyMap, evs: seq<Event>, n: nat)
    requires Sane(cfg) && Interleaving(cfg, ps, evs) && n <= |evs|
    ensures NoRepeat(After(cfg, ps, evs[..n]).calls)
  {
    TakeOf(cfg, ps, evs, n);
    RunInv(cfg, ps, evs[..n]);
  }

  lemma CalledTwice(cfg: Config, ps: PolicyMap, evs: seq<Event>, i: nat, j: nat, rid: string)
    requires i < j < |evs| && CallsAt(cfg, ps, evs, i, rid) && CallsAt(cfg, ps, evs, j, rid)
    ensures !NoRepeat(After(cfg, ps, evs[..j + 1]).calls)
  {
    CallListed(cfg, ps, evs, i, j, rid);
    CallListed(cfg, ps, evs, i, j + 1, rid);
    CallListed(cfg, ps, evs, j, j + 1, rid);
    var a, b := |After(cfg, ps, evs[..i]).calls|, |After(cfg, ps, evs[..j]).calls|;
    var calls := After(cfg, ps, evs[..j + 1]).calls;
    assert 0 <= a < b < |calls| && calls[a].rid == calls[b].rid;
  }

  /** The executor is called at most once per request. */
  lemma ExecutesOnce(cfg: Config, ps: PolicyMap, evs: seq<Event>, i: nat, j: nat, rid: string)
    requires Sane(cfg) && Interleaving(cfg, ps, evs) && i < |evs| && j < |evs|
    requires CallsAt(cfg, ps, evs, i, rid) && CallsAt(cfg, ps, evs, j, rid)
    ensures i == j
  {
    if i < j {
      CalledTwice(cfg, ps, evs, i, j, rid);
      NeverTwice(cfg, ps, evs, j + 1);
    }
    if j < i {
      CalledTwice(cfg, ps, evs, j, i, rid);
      NeverTwice(cfg, ps, evs, i + 1);
    }
  }

  // ------------------------------------------- the writer's and the store's side

  /** What an event does to the audit writer. */
  function WriterPart(cfg: Config, s: State, ev: Event): seq<Audit.Event> {
    if ev.Writer? then [ev.audit]
    else if !Environment(ev) && Possible(s, ev) && MoveOf(cfg, s, ev).audit.Some? then [MoveOf(cfg, s, ev).audit.value]
    else []
  }

  function HumanPart(cfg: Config, s: State, ev: Event): seq<Approvals.Action> {
    if ev.Humans? then [ev.approval]
    else if !Environment(ev) && Possible(s, ev) then MoveOf(cfg, s, ev).approvals
    else []
  }

  /** The interleaving as the audit writer sees it. */
  function WriterEvents(cfg: Config, ps: PolicyMap, evs: seq<Event>): seq<Audit.Event> {
    if evs == [] then []
    else WriterEvents(cfg, ps, evs[..|evs| - 1]) + WriterPart(cfg, After(cfg, ps, evs[..|evs| - 1]), Last(evs))
  }

  /** The interleaving as the approval store sees it. */
  function HumanActions(cfg: Config, ps: PolicyMap, evs: seq<Event>): seq<Approvals.Action> {
    if evs == [] then []
    else HumanActions(cfg, ps, evs[..|evs| - 1]) + HumanPart(cfg, After(cfg, ps, evs[..|evs| - 1]), Last(evs))
  }

  lemma WriterPartEnabled(cfg: Config, s: State, ev: Event)
    requires Sane(cfg) && Inv(s) && Enabled(cfg, s, ev)
    ensures var part := WriterPart(cfg, s, ev);
      && (part == [] ==> Step(cfg, s, ev).audit == s.audit)
      && (part != [] ==>
        |part| == 1 && Audit.Enabled(cfg.audit, s.audit, part[0])
        && Step(cfg, s, ev).audit == Audit.Step(cfg.audit, s.audit, part[0]))
  {
    if !Environment(ev) {
      MoveProper(cfg, s, ev);
      MoveLogs(cfg, s, ev);
    }
  }

  lemma MoveLogs(cfg: Config, s: State, ev: Event)
    requires !Environment(ev) && Possible(s, ev)
    ensures var a := MoveOf(cfg, s, ev).audit; a.Some? ==> a.value.Log? || a.value.Cancel?
  {
  }

  lemma WriterAppends(cfg: Config, ws: seq<Audit.Event>, part: seq<Audit.Event>, a: Audit.State, b: Audit.State)
    requires Audit.Run(cfg.audit, ws) && Audit.After(cfg.audit, ws) == a
    requires part == [] ==> b == a
    requires part != [] ==> |part| == 1 && Audit.Enabled(cfg.audit, a, part[0]) && b == Audit.Step(cfg.audit, a, part[0])
    ensures Audit.Run(cfg.audit, ws + part) && Audit.After(cfg.audit, ws + part) == b
  {
    if part == [] {
      assert ws + part == ws;
    } else {
      assert part == [part[0]];
      AuditRuns.AfterLast(cfg.audit, ws, part[0]);
    }
  }

  /** What the audit writer sees of an interleaving is a run of the writer, to the same state. */
  lemma {:induction false} WriterSees(cfg: Config, ps: PolicyMap, evs: seq<Event>)
    requires Sane(cfg) && Interleaving(cfg, ps, evs)
    ensures var ws := WriterEvents(cfg, ps, evs);
      Audit.Run(cfg.audit, ws) && Audit.After(cfg.audit, ws) == After(cfg, ps, evs).audit
  {
    if evs != [] {
      var rest, ev := evs[..|evs| - 1], Last(evs);
      PrefixOf(cfg, ps, evs);
      WriterSees(cfg, ps, rest);
      RunInv(cfg, ps, rest);
      var s := After(cfg, ps, rest);
      WriterPartEnabled(cfg, s, ev);
      WriterAppends(cfg, WriterEvents(cfg, ps, rest), WriterPart(cfg, s, ev), s.audit, Step(cfg, s, ev).audit);
    }
  }

  lemma {:induction false} ApprovalsAppend(run: seq<Approvals.Action>, more: seq<Approvals.Action>)
    requires Approvals.Run(run) && Performs(Approvals.After(run), more)
    ensures Approvals.Run(run + more) && Approvals.After(run + more) == Advance(Approvals.After(run), more)
  {
    if more == [] {
      assert run + more == run;
    } else {
      var most, a := more[..|more| - 1], Last(more);
      PerformsPrefix(Approvals.After(run), more);
      ApprovalsAppend(run, most);
      Approvals.AfterAppend(run + most, a);
      Snoc(run, more);
    }
  }

  lemma Snoc<T>(a: seq<T>, b: seq<T>)
    requires b != []
    ensures a + b[..|b| - 1] + [Last(b)] == a + b
  {
  }

  lemma HumanPartPerforms(cfg: Config, s: State, ev: Event)
    requires Sane(cfg) && Inv(s) && Enabled(cfg, s, ev)
    ensures Performs(s.approvals, HumanPart(cfg, s, ev))
    ensures Step(cfg, s, ev).approvals == Advance(s.approvals, HumanPart(cfg, s, ev))
  {
    if ev.Humans? {
      AdvanceOne(s.approvals, ev.approval);
    } else if !Environment(ev) {
      MoveProper(cfg, s, ev);
    }
  }

  lemma {:induction false} StoreSees(cfg: Config, ps: PolicyMap, evs: seq<Event>)
    requires Sane(cfg) && Interleaving(cfg, ps, evs)
    ensures var acts := HumanActions(cfg, ps, evs); Approvals.Run(acts) && Approvals.After(acts) == After(cfg, ps, evs).approvals
  {
    if evs != [] {
      var rest := evs[..|evs| - 1];
      PrefixOf(cfg, ps, evs);
      StoreSees(cfg, ps, rest);
      RunInv(cfg, ps, rest);
      var s := After(cfg, ps, rest);
      HumanPartPerforms(cfg, s, Last(evs));
      ApprovalsAppend(HumanActions(cfg, ps, rest), HumanPart(cfg, s, Last(evs)));
    }
  }

  // --------------------------------------------------- where a case comes from

  /** What the policy in force for the agent is. */
  predicate InForce(s: State, agent: string, found: Option<Policy>) {
    match found case Some(p) => agent in s.policies && s.policies[agent] == p case None => agent !in s.policies
  }

  /** The case is judged now, under the policy in force, without an estimate yet. */
  predicate JudgedHere(s: State, about: Case, pipelines: bool) {
    InForce(s, about.req.agent, about.found) && about.now == s.now && about.pipelines == pipelines && about.estimate.None?
  }

  /** The n-th event judged this case, under the policy in force just then. */
  ghost predicate JudgedAt(cfg: Config, ps: PolicyMap, evs: seq<Event>, n: nat, rid: string, c: Case) {
    && n < |evs|
    && var s := After(cfg, ps, evs[..n]);
       match evs[n]
       case Run(r, req, pipelines, _, _) => r == rid && c.req == req && JudgedHere(s, c.(estimate := None), pipelines)
       case Evaluate(r, req, pipelines) => r == rid && c.req == req && JudgedHere(s, c, pipelines)
       case RunWithConfirm(r, req, pipelines, _) => r == rid && c.req == req && JudgedHere(s, c, pipelines)
       case ExecuteApproved(r, pipelines, _) => r == rid && JudgedHere(s, c, pipelines)
       case _ => false
  }

  lemma JudgedLonger(cfg: Config, ps: PolicyMap, evs: seq<Event>, n: nat, rid: string, c: Case)
    requires evs != [] && JudgedAt(cfg, ps, evs[..|evs| - 1], n, rid, c)
    ensures JudgedAt(cfg, ps, evs, n, rid, c) && evs[n] == evs[..|evs| - 1][n]
    ensures evs[n].Run? ==> forall e :: JudgedAt(cfg, ps, evs, n, rid, c.(estimate := e))
  {
    assert evs[..|evs| - 1][..n] == evs[..n];
  }

  /** Only `run` leads to waiting for the store, only `execute_approved` to a confirmed execution, and
      only a confirming tool to an execution of its own. */
  ghost predicate Fits(ev: Event, t: Thread) {
    match t
    case Estimating => ev.Run?
    case AwaitingHuman(_, _) => ev.Run?
    case Logging(next, _) => (next.AskHuman? ==> ev.Run?) && (next.Execute? ==> FitsGrounds(ev, next.grounds))
    case _ => true
  }

  predicate FitsGrounds(ev: Event, g: Grounds) {
    match g
    case ByConfirmation => ev.ExecuteApproved?
    case ByTool => ev.RunWithConfirm?
    case _ => ev.Run?
  }

  /** The event judges a case anew. */
  predicate Judges(ev: Event) { ev.Run? || ev.Evaluate? || ev.RunWithConfirm? || ev.ExecuteApproved? }

  lemma JudgedNow(cfg: Config, s: State, ev: Event)
    requires Judges(ev) && Enabled(cfg, s, ev)
    ensures var t := Step(cfg, s, ev); ev.rid in t.threads && ev.rid in t.cases && Fits(ev, t.threads[ev.rid])
    ensures var c := Step(cfg, s, ev).cases[ev.rid];
      c == Case(c.req, PolicyOf(s, c.req.agent), s.now, ev.pipelines, None) && (!ev.ExecuteApproved? ==> c.req == ev.req)
  {
  }

  /** The same judgement; what `run` judged may have had its cost estimated since. */
  ghost predicate SameCase(judged: Event, a: Case, b: Case) { b == if judged.Run? then a.(estimate := b.estimate) else a }

  predicate Concerns(ev: Event, rid: string) { !Environment(ev) && ev.rid == rid }

  /** An event leaves the requests it is not about as they are. */
  lemma OthersKept(cfg: Config, s: State, ev: Event, rid: string)
    requires !Concerns(ev, rid)
    ensures var t := Step(cfg, s, ev);
      && (rid in t.threads <==> rid in s.threads) && (rid in s.threads ==> t.threads[rid] == s.threads[rid])
      && (rid in t.cases <==> rid in s.cases) && (rid in s.cases ==> t.cases[rid] == s.cases[rid])
  {
  }

  /** A request takes its next step: where it leads to fits where it came from. */
  lemma OwnFits(cfg: Config, s: State, ev: Event, judged: Event)
    requires !Environment(ev) && !Judges(ev) && Possible(s, ev) && ThreadOk(s, ev.rid) && Enabled(cfg, s, ev)
    requires Fits(judged, s.threads[ev.rid])
    ensures var m := MoveOf(cfg, s, ev); Fits(judged, m.thread) && SameCase(judged, s.cases[ev.rid], m.about)
  {
  }

  lemma FitsStep(cfg: Config, s: State, ev: Event, rid: string, judged: Event)
    requires Sane(cfg) && Inv(s) && Enabled(cfg, s, ev) && rid in s.threads && Fits(judged, s.threads[rid])
    requires !(Judges(ev) && ev.rid == rid)
    ensures var t := Step(cfg, s, ev);
      && rid in t.threads && rid in t.cases && Fits(judged, t.threads[rid])
      && SameCase(judged, s.cases[rid], t.cases[rid])
  {
    assert ThreadOk(s, rid);
    if Concerns(ev, rid) {
      MoveProper(cfg, s, ev);
      OwnFits(cfg, s, ev, judged);
    } else {
      OthersKept(cfg, s, ev, rid);
    }
  }

  lemma NewThread(cfg: Config, s: State, ev: Event, rid: string)
    requires Enabled(cfg, s, ev) && rid in Step(cfg, s, ev).threads && rid !in s.threads
    ensures Judges(ev) && ev.rid == rid
  {
  }

  lemma {:induction false} CaseOrigin(cfg: Config, ps: PolicyMap, evs: seq<Event>, rid: string) returns (n: nat)
    requires Sane(cfg) && Interleaving(cfg, ps, evs) && rid in After(cfg, ps, evs).threads
    ensures rid in After(cfg, ps, evs).cases
    ensures JudgedAt(cfg, ps, evs, n, rid, After(cfg, ps, evs).cases[rid]) && Fits(evs[n], After(cfg, ps, evs).threads[rid])
  {
    var last := |evs| - 1;
    var rest := evs[..last];
    PrefixOf(cfg, ps, evs);
    RunInv(cfg, ps, rest);
    var s := After(cfg, ps, rest);
    if Judges(evs[last]) && evs[last].rid == rid {
      JudgedNow(cfg, s, evs[last]);
      n := last;
    } else {
      if rid !in s.threads { NewThread(cfg, s, evs[last], rid); }
      n := CaseOrigin(cfg, ps, rest, rid);
      JudgedLonger(cfg, ps, evs, n, rid, s.cases[rid]);
      FitsStep(cfg, s, evs[last], rid, evs[n]);
    }
  }

  lemma NewCall(cfg: Config, s: State, ev: Event)
    requires Enabled(cfg, s, ev) && Step(cfg, s, ev).calls != s.calls
    ensures ev.Resume? && ev.rid in s.threads && s.threads[ev.rid].Logging? && s.threads[ev.rid].next.Execute?
    ensures Step(cfg, s, ev).calls == s.calls + [Call(ev.rid, s.threads[ev.rid].next.grounds, s.threads[ev.rid].ticket)]
  {
  }

  lemma CaseKept(cfg: Config, s: State, ev: Event, rid: string)
    requires ev.Resume? && Enabled(cfg, s, ev) && rid in s.cases
    ensures rid in Step(cfg, s, ev).cases && Step(cfg, s, ev).cases[rid] == s.cases[rid]
  {
  }

  lemma CallIsOk(s: State, c: Call)
    requires Inv(s) && c in s.calls
    ensures CallOk(s, c)
  {
    var i :| 0 <= i < |s.calls| && s.calls[i] == c;
    assert CallOk(s, s.calls[i]);
  }

  lemma CalledStays(cfg: Config, s: State, ev: Event, c: Call)
    requires Sane(cfg) && Inv(s) && Enabled(cfg, s, ev) && c in s.calls
    ensures c.rid in s.cases && c.rid in Step(cfg, s, ev).cases && Step(cfg, s, ev).cases[c.rid] == s.cases[c.rid]
  {
    CallIsOk(s, c);
    if Concerns(ev, c.rid) { MoveProper(cfg, s, ev); } else { OthersKept(cfg, s, ev, c.rid); }
  }

  lemma {:induction false} CallOrigin(cfg: Config, ps: PolicyMap, evs: seq<Event>, c: Call) returns (n: nat)
    requires Sane(cfg) && Interleaving(cfg, ps, evs) && c in After(cfg, ps, evs).calls
    ensures c.rid in After(cfg, ps, evs).cases
    ensures JudgedAt(cfg, ps, evs, n, c.rid, After(cfg, ps, evs).cases[c.rid]) && FitsGrounds(evs[n], c.grounds)
  {
    var last := |evs| - 1;
    var rest := evs[..last];
    PrefixOf(cfg, ps, evs);
    RunInv(cfg, ps, rest);
    var s := After(cfg, ps, rest);
    if c in s.calls {
      n := CallOrigin(cfg, ps, rest, c);
      JudgedLonger(cfg, ps, evs, n, c.rid, s.cases[c.rid]);
      CalledStays(cfg, s, evs[last], c);
    } else {
      NewCall(cfg, s, evs[last]);
      n := CaseOrigin(cfg, ps, rest, c.rid);
      JudgedLonger(cfg, ps, evs, n, c.rid, s.cases[c.rid]);
      CaseKept(cfg, s, evs[last], c.rid);
    }
  }

  // ------------------------------------------------------------ main results

  /** The policy asks approval for what the request may change, or for the risk its cost is raised to. */
  ghost predicate NeedsHuman(about: Case)
    requires about.found.Some?
  {
    var p, req, estimate := about.found.value, about.req, about.estimate;
    || (p.approveCritical && (ChangesAll(req) || (CostsTooMuch(p, req, estimate) && estimate == Some(CriticalCost))))
    || (p.approveHigh
        && (ChangesMuch(req) || (CostsTooMuch(p, req, estimate) && estimate == Some(HighCost) && !ChangesAll(req))))
  }

  lemma GroundsFit(s: State, about: Case, g: Grounds)
    requires Sound(s, about, g)
    ensures about.found.Some? && !Forbidden(about.found.value, about.req, about.now, about.pipelines)
    ensures g.ByPolicy? || g.ByHuman? ==> (g.ByHuman? <==> NeedsHuman(about))
    ensures g.ByTool? ==>
      !(about.found.value.approveCritical && ChangesAll(about.req)) && !(about.found.value.approveHigh && ChangesMuch(about.req))
  {
    JudgedExactly(about.found, about.req, about.now, about.pipelines);
    if about.found.Some? {
      EscalatesExactly(about.found.value, about.req, about.now, about.pipelines, about.estimate);
      ClassifiedExactly(about.req);
    }
  }

  /** Before every call of the executor, in every interleaving: the case was judged under the
      policy in force at that moment and not forbidden. In `run` a human approved it exactly when
      its risk, as classified or as raised for cost, needs one; in `execute_approved` it was judged
      when the confirmation came in; a confirming tool executes on its own only what needs no
      approval as classified. Applied to the interleaving that ends with the call, this says what
      had happened by then. */
  lemma ExecutionIsAuthorised(cfg: Config, ps: PolicyMap, evs: seq<Event>, c: Call) returns (n: nat)
    requires Sane(cfg) && Interleaving(cfg, ps, evs) && c in After(cfg, ps, evs).calls
    ensures c.rid in After(cfg, ps, evs).cases
    ensures var about := After(cfg, ps, evs).cases[c.rid];
      && JudgedAt(cfg, ps, evs, n, c.rid, about) && FitsGrounds(evs[n], c.grounds)
      && about.found.Some? && !Forbidden(about.found.value, about.req, about.now, about.pipelines)
      && (evs[n].Run? ==> (c.grounds.ByHuman? <==> NeedsHuman(about)))
      && (evs[n].RunWithConfirm? ==>
            && !(about.found.value.approveCritical && ChangesAll(about.req))
            && !(about.found.value.approveHigh && ChangesMuch(about.req)))
  {
    n := CallOrigin(cfg, ps, evs, c);
    RunInv(cfg, ps, evs);
    var s := After(cfg, ps, evs);
    CallIsOk(s, c);
    GroundsFit(s, s.cases[c.rid], c.grounds);
  }

  /** A call on a human's word: that very approval was open when somebody resolved it with
      approval, and the request's waiter was woken after that. */
  lemma HumanDidApprove(cfg: Config, ps: PolicyMap, evs: seq<Event>, c: Call) returns (i: nat, k: nat)
    requires Sane(cfg) && Interleaving(cfg, ps, evs) && c in After(cfg, ps, evs).calls && c.grounds.ByHuman?
    ensures var acts := HumanActions(cfg, ps, evs);
      && i < k < |acts| && acts[i] == Approvals.Resolve(c.grounds.approval, true) && acts[k] == Approvals.Wake(c.grounds.approval)
      && Approvals.After(acts[..i]).store.Open(c.grounds.approval)
  {
    RunInv(cfg, ps, evs);
    StoreSees(cfg, ps, evs);
    CallIsOk(After(cfg, ps, evs), c);
    i, k := Approvals.ApprovedMeansResolved(HumanActions(cfg, ps, evs), c.grounds.approval);
  }

  /** The record lets the request through: allowed by its policy, or approved. */
  predicate Clears(data: Chain.Json, rid: string, byPolicy: bool) {
    && data.Obj? && Chain.Get(data.fields, "request_id") == Chain.Str(rid)
    && Chain.Get(data.fields, "status") == Chain.Str(if byPolicy then "allowed" else "approved")
  }

  lemma TellsClears(data: Chain.Json, rid: string, g: Grounds)
    requires Tells(data, rid, VerdictFor(Execute(g)))
    ensures Clears(data, rid, g.ByPolicy? || g.ByTool?)
  {
  }

  lemma CallWaited(s: State, c: Call)
    requires CallOk(s, c)
    ensures c.ticket < |s.audit.datas| && c.ticket < |s.audit.futures| && s.audit.futures[c.ticket].Done?
    ensures Clears(s.audit.datas[c.ticket], c.rid, c.grounds.ByPolicy? || c.grounds.ByTool?)
  {
    TellsClears(s.audit.datas[c.ticket], c.rid, c.grounds);
  }

  /** Every call waited for its own audit record, which says allowed or approved about this
      request. With fail_closed that record is on disk, in a log with or without signatures, and
      whatever writes failed and whatever overlapped. */
  lemma ExecutionIsRecorded(cfg: Config, ps: PolicyMap, evs: seq<Event>, c: Call) returns (line: nat)
    requires Sane(cfg) && Interleaving(cfg, ps, evs) && c in After(cfg, ps, evs).calls
    ensures var a := After(cfg, ps, evs).audit;
      && c.ticket < |a.datas| && c.ticket < |a.futures| && a.futures[c.ticket].Done?
      && Clears(a.datas[c.ticket], c.rid, c.grounds.ByPolicy? || c.grounds.ByTool?)
    ensures var a := After(cfg, ps, evs).audit; var ls := Chain.FileLines(Audit.Text(a.file));
      cfg.audit.failClosed && Chain.Faithful(cfg.audit.lib) ==>
        line < |ls| && AuditDisk.Says(cfg.audit, ls[line].text, a.datas[c.ticket])
  {
    RunInv(cfg, ps, evs);
    var s := After(cfg, ps, evs);
    CallIsOk(s, c);
    CallWaited(s, c);
    line := 0;
    if cfg.audit.failClosed && Chain.Faithful(cfg.audit.lib) {
      WriterSees(cfg, ps, evs);
      line := AuditDisk.DoneMeansDurable(cfg.audit, WriterEvents(cfg, ps, evs), c.ticket);
    }
  }

  /** The signed log that the pipeline leaves behind verifies, whatever the interleaving, as long as
      the writer's run was safe: nothing was written that was signed from an outdated head. */
  lemma PipelineLogVerifies(cfg: Config, ps: PolicyMap, evs: seq<Event>)
    requires Sane(cfg) && Interleaving(cfg, ps, evs) && Chain.Faithful(cfg.audit.lib) && cfg.audit.secret != ""
    requires AuditSigned.SafeRun(cfg.audit, WriterEvents(cfg, ps, evs))
    ensures var a := After(cfg, ps, evs).audit;
      a.file.Some? ==> Chain.VerifyFile(cfg.audit.lib, a.file, cfg.audit.secret) == Chain.Accepted(|a.persisted|)
  {
    WriterSees(cfg, ps, evs);
    AuditSigned.RunSound(cfg.audit, WriterEvents(cfg, ps, evs));
    AuditSigned.SoundVerifies(cfg.audit, After(cfg, ps, evs).audit);
  }

  /** And it is safe if no failed write left lines and no `log` overlapped an `aclose`. */
  lemma UndisturbedLogVerifies(cfg: Config, ps: PolicyMap, evs: seq<Event>)
    requires Sane(cfg) && Interleaving(cfg, ps, evs) && Chain.Faithful(cfg.audit.lib) && cfg.audit.secret != ""
    requires AuditRuns.LossFree(WriterEvents(cfg, ps, evs)) && AuditRuns.ApartRun(cfg.audit, WriterEvents(cfg, ps, evs))
    ensures var a := After(cfg, ps, evs).audit;
      a.file.Some? ==> Chain.VerifyFile(cfg.audit.lib, a.file, cfg.audit.secret) == Chain.Accepted(|a.persisted|)
  {
    AuditSigned.UndisturbedIsSafe(cfg.audit, WriterEvents(cfg, ps, evs));
    PipelineLogVerifies(cfg, ps, evs);
  }

  // ------------------------------------------------- executions, and late ones

  lemma InterleavingLast(cfg: Config, ps: PolicyMap, evs: seq<Event>, ev: Event)
    requires Interleaving(cfg, ps, evs) && Enabled(cfg, After(cfg, ps, evs), ev)
    ensures Interleaving(cfg, ps, evs + [ev]) && After(cfg, ps, evs + [ev]) == Step(cfg, After(cfg, ps, evs), ev)
  {
    var all := evs + [ev];
    assert all[..|evs|] == evs;
    forall i | 0 <= i < |all| ensures Enabled(cfg, After(cfg, ps, all[..i]), all[i]) {
      if i < |evs| {
        assert all[..i] == evs[..i];
        assert Enabled(cfg, After(cfg, ps, evs[..i]), evs[i]);
      }
    }
  }

  lemma WriterRuns(cfg: Audit.Config, record: Chain.Json)
    requires Audit.Plain(record)
    ensures var a1 := Audit.Step(cfg, Audit.Initial, Audit.Log(record));
      var a2 := Audit.Step(cfg, a1, Audit.Take);
      && Audit.Enabled(cfg, Audit.Initial, Audit.Log(record)) && Audit.Enabled(cfg, a1, Audit.Take)
        && Audit.Enabled(cfg, a2, Audit.WriteOk)
      && Audit.Step(cfg, a2, Audit.WriteOk).futures == [Audit.Done]
  {
    var a1 := Audit.Step(cfg, Audit.Initial, Audit.Log(record));
    var item := Audit.Item(0, Audit.Prepared(record));
    assert a1.queue == [Audit.Rec(item)] && a1.queue[1..] == [];
    assert Audit.DrainItems([]) == [] && Audit.DrainItems(a1.queue) == [item];
    var a2 := Audit.Step(cfg, a1, Audit.Take);
    assert a2.task.Writing? && a2.task.batch == [item] && a2.futures == [Audit.Pending];
    assert Audit.Settle(a2.futures, [item], Audit.Done) == Audit.Settle([Audit.Done], [], Audit.Done);
  }

  /** A request, and the writing of its audit record. */
  function Recorded(rid: string, req: Request, note: Note): seq<Event> {
    [Run(rid, req, true, false, note)] + [Writer(Audit.Take)] + [Writer(Audit.WriteOk)]
  }

  lemma RecordedState(cfg: Config, ps: PolicyMap, rid: string, req: Request, note: Note)
    requires Sane(cfg) && req.agent in ps && Judge(Some(ps[req.agent]), req, 0, true).status.Allowed?
    ensures var s := After(cfg, ps, Recorded(rid, req, note));
      && Interleaving(cfg, ps, Recorded(rid, req, note))
      && rid in s.threads && s.threads[rid] == Logging(Execute(ByPolicy), 0) && rid in s.cases && s.cases[rid].req == req
      && s.audit.futures == [Audit.Done] && s.approvals == Approvals.Initial && s.calls == [] && s.policies == ps && s.now == 0
  {
    var about := Case(req, Some(ps[req.agent]), 0, true, None);
    var params := cfg.encode(AuditParams(about.found, req));
    var record := Record(rid, req, params, SaysAllowed, Ruling(about).risk, note);
    RecordPlain(rid, req, params, SaysAllowed, Ruling(about).risk, note);
    WriterRuns(cfg.audit, record);
    var run := Run(rid, req, true, false, note);
    assert PolicyOf(Start(ps), req.agent) == about.found;
    assert RunMove(cfg, Start(ps), rid, req, true, false, note)
      == Move(Logging(Execute(ByPolicy), 0), about, Some(Audit.Log(record)), [], None);
    assert [] + [run] == [run];
    InterleavingLast(cfg, ps, [], run);
    InterleavingLast(cfg, ps, [run], Writer(Audit.Take));
    InterleavingLast(cfg, ps, [run] + [Writer(Audit.Take)], Writer(Audit.WriteOk));
  }

  /** An allowed request does reach the executor. */
  lemma AllowedRequestsRun(cfg: Config, ps: PolicyMap, rid: string, req: Request, note: Note)
    requires Sane(cfg) && req.agent in ps && Judge(Some(ps[req.agent]), req, 0, true).status.Allowed?
    ensures var evs := Recorded(rid, req, note) + [Resume(rid, 0)];
      Interleaving(cfg, ps, evs) && After(cfg, ps, evs).calls == [Call(rid, ByPolicy, 0)]
  {
    RecordedState(cfg, ps, rid, req, note);
    InterleavingLast(cfg, ps, Recorded(rid, req, note), Resume(rid, 0));
  }

  /** What the policy in force would say of the request now. */
  function RulingNow(s: State, about: Case): Decision {
    var agent := about.req.agent;
    Judge(if agent in s.policies then Some(s.policies[agent]) else None, about.req, s.now, about.pipelines)
  }

  /** `run` does not look at the policy again: it executes though the policy in force at the call
      denies, when all policies are taken away while the audit record is written. */
  lemma ExecutesThoughDenied(cfg: Config, ps: PolicyMap, rid: string, req: Request, note: Note)
    requires Sane(cfg) && req.agent in ps && Judge(Some(ps[req.agent]), req, 0, true).status.Allowed?
    ensures var evs := Recorded(rid, req, note) + [Reload(map[])] + [Resume(rid, 0)];
      && Interleaving(cfg, ps, evs) && After(cfg, ps, evs).calls == [Call(rid, ByPolicy, 0)]
      && rid in After(cfg, ps, evs).cases && RulingNow(After(cfg, ps, evs), After(cfg, ps, evs).cases[rid]).status.Denied?
  {
    RecordedState(cfg, ps, rid, req, note);
    InterleavingLast(cfg, ps, Recorded(rid, req, note), Reload(map[]));
    InterleavingLast(cfg, ps, Recorded(rid, req, note) + [Reload(map[])], Resume(rid, 0));
  }

  /** Nor at the clock: it executes though its window has closed since it was judged. */
  lemma ExecutesAfterItsWindow(cfg: Config, ps: PolicyMap, rid: string, req: Request, note: Note, later: int)
    requires Sane(cfg) && req.agent in ps && Judge(Some(ps[req.agent]), req, 0, true).status.Allowed?
    requires 0 <= later && ps[req.agent].notAfter.Some? && ps[req.agent].notAfter.value.utc < later
    ensures var evs := Recorded(rid, req, note) + [Tick(later)] + [Resume(rid, 0)];
      && Interleaving(cfg, ps, evs) && After(cfg, ps, evs).calls == [Call(rid, ByPolicy, 0)]
      && rid in After(cfg, ps, evs).cases && RulingNow(After(cfg, ps, evs), After(cfg, ps, evs).cases[rid]).status.Denied?
  {
    RecordedState(cfg, ps, rid, req, note);
    InterleavingLast(cfg, ps, Recorded(rid, req, note), Tick(later));
    InterleavingLast(cfg, ps, Recorded(rid, req, note) + [Tick(later)], Resume(rid, 0));
  }

  /** When that happens: at a call, in whatever interleaving, the policy in force denies exactly if
      the agent's policy was removed, or replaced by one that forbids the request now, or is the
      one that was judged and its window has closed since. */
  lemma LateDenialExactly(cfg: Config, ps: PolicyMap, evs: seq<Event>, c: Call)
    requires Sane(cfg) && Interleaving(cfg, ps, evs) && c in After(cfg, ps, evs).calls
    ensures c.rid in After(cfg, ps, evs).cases
    ensures var s := After(cfg, ps, evs); var about := s.cases[c.rid]; var agent := about.req.agent;
      RulingNow(s, about).status.Denied?
      <==> (if agent !in s.policies then true
            else if about.found == Some(s.policies[agent]) then !Applies(s.policies[agent], None, s.now)
            else Forbidden(s.policies[agent], about.req, s.now, about.pipelines))
  {
    RunInv(cfg, ps, evs);
    var s := After(cfg, ps, evs);
    CallIsOk(s, c);
    var about := s.cases[c.rid];
    GroundsFit(s, about, c.grounds);
    JudgedExactly(PolicyOf(s, about.req.agent), about.req, s.now, about.pipelines);
  }

  /** Every reload since event `n` left the agent the policy it had then. */
  ghost predicate PolicyKept(cfg: Config, ps: PolicyMap, evs: seq<Event>, n: nat, agent: string)
    requires n <= |evs|
  {
    forall j :: n <= j < |evs| && evs[j].Reload? ==>
      PolicyOf(Start(evs[j].policies), agent) == PolicyOf(After(cfg, ps, evs[..n]), agent)
  }

  lemma OnlyReloads(cfg: Config, s: State, ev: Event, agent: string)
    requires Enabled(cfg, s, ev)
    ensures PolicyOf(Step(cfg, s, ev), agent) == if ev.Reload? then PolicyOf(Start(ev.policies), agent) else PolicyOf(s, agent)
  {
  }

  lemma {:induction false} SamePolicy(cfg: Config, ps: PolicyMap, evs: seq<Event>, n: nat, agent: string)
    requires Interleaving(cfg, ps, evs) && n <= |evs| && PolicyKept(cfg, ps, evs, n, agent)
    ensures PolicyOf(After(cfg, ps, evs), agent) == PolicyOf(After(cfg, ps, evs[..n]), agent)
    decreases |evs|
  {
    if n == |evs| {
      assert evs[..n] == evs;
    } else {
      var rest := evs[..|evs| - 1];
      assert rest[..n] == evs[..n];
      PrefixOf(cfg, ps, evs);
      assert forall j :: n <= j < |rest| ==> rest[j] == evs[j];
      SamePolicy(cfg, ps, rest, n, agent);
      OnlyReloads(cfg, After(cfg, ps, rest), Last(evs), agent);
    }
  }

  /** As long as no reload changes the agent's policy between the judgement and the call, the policy
      in force at the call denies exactly if its window has closed: with the window open nothing is
      executed that would be denied just then. */
  lemma NoLateDenial(cfg: Config, ps: PolicyMap, evs: seq<Event>, c: Call) returns (n: nat)
    requires Sane(cfg) && Interleaving(cfg, ps, evs) && c in After(cfg, ps, evs).calls
    ensures c.rid in After(cfg, ps, evs).cases && n < |evs|
    ensures var s := After(cfg, ps, evs); var about := s.cases[c.rid];
      && JudgedAt(cfg, ps, evs, n, c.rid, about) && about.found.Some?
      && (PolicyKept(cfg, ps, evs, n, about.req.agent) ==>
            (RulingNow(s, about).status.Denied? <==> !Applies(about.found.value, None, s.now)))
  {
    n := ExecutionIsAuthorised(cfg, ps, evs, c);
    LateDenialExactly(cfg, ps, evs, c);
    var about := After(cfg, ps, evs).cases[c.rid];
    if PolicyKept(cfg, ps, evs, n, about.req.agent) { SamePolicy(cfg, ps, evs, n, about.req.agent); }
  }
}
