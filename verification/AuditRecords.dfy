/** What the audit log says of every request, in every interleaving of the pipeline. */
module AuditRecords {
  import opened Common
  import opened Policies
  import opened PolicyEngine
  import opened Reaching
  import opened LoggedParams
  import Chain = AuditChain
  import Audit = AuditLogger
  import Approvals
  import opened Pipeline
  import opened PipelineRuns

  // -------------------------------------------------------- what is written

  predicate SaysStatus(status: Chain.Json, s: Status) {
    match s
    case Allowed => status == Chain.Str("allowed")
    case Denied => status == Chain.Str("denied")
    case ApprovalRequired => status == Chain.Str("approval_required")
  }

  predicate SaysRisk(risk: Chain.Json, r: Option<Risk>) {
    match r
    case None => risk == Chain.Null
    case Some(Low) => risk == Chain.Str("LOW")
    case Some(Medium) => risk == Chain.Str("MEDIUM")
    case Some(High) => risk == Chain.Str("HIGH")
    case Some(Critical) => risk == Chain.Str("CRITICAL")
  }

  /** Status and risk of the record that an event writes, from the state before it and after it. */
  ghost predicate Verdicts(s: State, t: State, ev: Event, about: Case, status: Chain.Json, risk: Chain.Json) {
    var d := Judge(about.found, about.req, about.now, about.pipelines);
    match ev
    case Run(_, req, pipelines, _, _) =>
      && about.req == req && JudgedHere(s, about, pipelines)
      && SaysStatus(status, d.status) && SaysRisk(risk, d.risk)
    case Estimated(rid, estimate, _) =>
      && rid in s.cases && about == s.cases[rid].(estimate := estimate) && about.found.Some?
      && (match Escalate(d, about.found.value, about.req, estimate)
          case Ok(e) => SaysStatus(status, e.status) && SaysRisk(risk, e.risk)
          case Err(_) => false)
    case Answered(rid, timedOut, _) =>
      && rid in s.cases && about == s.cases[rid] && about.found.Some? && (timedOut ==> status == Chain.Str("denied"))
      && rid in s.threads && s.threads[rid].AwaitingHuman?
      && (match Escalate(d, about.found.value, about.req, about.estimate)
          case Ok(e) => e.status.ApprovalRequired? && SaysRisk(risk, e.risk)
          case Err(_) => false)
      && var w := s.threads[rid].approval;
         && w in t.approvals.waiters
         && status == Chain.Str(if t.approvals.waiters[w] == Approvals.Returned(w, Approvals.Approved) then "approved"
           else "denied")
    case ExecuteApproved(rid, pipelines, _) =>
      && rid in s.cases && about.req == s.cases[rid].req && JudgedHere(s, about, pipelines)
      && (if d.status.Denied? then status == Chain.Str("denied") && SaysRisk(risk, None)
          else status == Chain.Str("approved") && SaysRisk(risk, d.risk))
    case Returned(rid, _, _) =>
      rid in s.cases && about == s.cases[rid] && status == Chain.Str("error") && SaysRisk(risk, None)
    case RunWithConfirm(_, req, pipelines, _) =>
      && about.req == req && JudgedHere(s, about, pipelines)
      && status == Chain.Str("allowed") && SaysRisk(risk, d.risk)
    case _ => false
  }

  /** It names the request and its agent, collection and action. */
  predicate Describes(data: Chain.Json, rid: string, req: Request) {
    && data.Obj?
    && Chain.Get(data.fields, "request_id") == Chain.Str(rid) && Chain.Get(data.fields, "agent") == Chain.Str(req.agent)
    && Chain.Get(data.fields, "collection") == Chain.Str(req.collection)
    && var name := Chain.Get(data.fields, "action"); name.Str? && ParseAction(name.s) == Some(req.action)
  }

  /** The record names the request and its agent, collection and action, says what became of it, and
      holds of its parameters what the policy does not mask; a confirming tool leaves them out. */
  ghost predicate Says(cfg: Config, s: State, t: State, ev: Event, about: Case, data: Chain.Json) {
    && !Environment(ev) && Describes(data, ev.rid, about.req)
    && Verdicts(s, t, ev, about, Chain.Get(data.fields, "status"), Chain.Get(data.fields, "risk"))
    && (var params := Chain.Get(data.fields, "params");
        if ev.RunWithConfirm? then params == Chain.Null
        else exists v :: params == cfg.encode(v) && Scrubs(about.found, about.req, v))
  }

  /** The steps that write a record: of `run` every judgement, now or once the cost is estimated, and
      every answer of a human; every confirmed execution; every failed execution; of a confirming
      tool what it is allowed. */
  ghost predicate Writes(s: State, ev: Event) {
    match ev
    case Run(_, req, pipelines, plugin, _) => !AwaitsEstimate(s, req, pipelines, plugin)
    case Estimated(rid, estimate, _) =>
      rid in s.cases && !(s.cases[rid].found.Some? && Crashes(s.cases[rid].found.value, s.cases[rid].req, estimate))
    case Answered(_, _, _) => true
    case ExecuteApproved(_, _, _) => true
    case Returned(_, ok, _) => !ok
    case RunWithConfirm(_, req, pipelines, _) =>
      req.agent in s.policies && var p := s.policies[req.agent];
        !Forbidden(p, req, s.now, pipelines)
        && !(p.approveCritical && ChangesAll(req)) && !(p.approveHigh && ChangesMuch(req))
    case _ => false
  }

  /** The policy has a threshold, does not forbid the request, and there is something to estimate with. */
  ghost predicate AwaitsEstimate(s: State, req: Request, pipelines: bool, plugin: bool) {
    && req.agent in s.policies && s.policies[req.agent].maxCost.Some? && plugin
    && !Forbidden(s.policies[req.agent], req, s.now, pipelines)
    && req.action in {Find, Aggregate, AggregateDb, UpdateOne, UpdateMany, DeleteOne, DeleteMany}
  }

  /** The estimate is known and the threshold is not. */
  predicate Crashes(p: Policy, req: Request, estimate: Option<CostLevel>) {
    && p.maxCost == Some(UnknownCost) && estimate.Some? && !estimate.value.UnknownCost?
    && req.action in {Find, Aggregate, AggregateDb, UpdateOne, UpdateMany, DeleteOne, DeleteMany}
  }

  // --------------------------------------------------------------- one step

  /** A record is signed as it was built: it has no `database`. */
  lemma RecordPrepared(rid: string, req: Request, params: Chain.Json, v: Verdict, risk: Option<Risk>, note: Note)
    requires Chain.WellFormed(params)
    ensures var record := Record(rid, req, params, v, risk, note);
      && Audit.Prepared(record) == record
      && forall a, b :: 0 <= a < b < |record.fields| ==> record.fields[a].key != record.fields[b].key
  {
    RecordPlain(rid, req, params, v, risk, note);
    WithoutAbsent(Record(rid, req, params, v, risk, note).fields, "database");
  }

  lemma RecordNames(rid: string, req: Request, params: Chain.Json, v: Verdict, risk: Option<Risk>, note: Note)
    requires Chain.WellFormed(params)
    ensures var fields := Record(rid, req, params, v, risk, note).fields;
      && Chain.Get(fields, "agent") == Chain.Str(req.agent)
      && Chain.Get(fields, "collection") == Chain.Str(req.collection)
      && Chain.Get(fields, "action") == Chain.Str(ActionName(req.action))
      && Chain.Get(fields, "request_id") == Chain.Str(rid)
  {
    var fields := Record(rid, req, params, v, risk, note).fields;
    RecordPrepared(rid, req, params, v, risk, note);
    assert fields[1].key == "agent" && fields[2].key == "collection" && fields[3].key == "action";
    assert fields[7].key == "request_id";
    GetAt(fields, 1);
    GetAt(fields, 2);
    GetAt(fields, 3);
    GetAt(fields, 7);
  }

  lemma RecordHolds(rid: string, req: Request, params: Chain.Json, v: Verdict, risk: Option<Risk>, note: Note)
    requires Chain.WellFormed(params)
    ensures var fields := Record(rid, req, params, v, risk, note).fields;
      && Chain.Get(fields, "status") == Chain.Str(VerdictText(v))
      && Chain.Get(fields, "risk") == (if risk.Some? then Chain.Str(RiskText(risk.value)) else Chain.Null)
      && Chain.Get(fields, "params") == params
  {
    var fields := Record(rid, req, params, v, risk, note).fields;
    RecordPrepared(rid, req, params, v, risk, note);
    assert fields[4].key == "status" && fields[6].key == "risk" && fields[8].key == "params";
    GetAt(fields, 4);
    GetAt(fields, 6);
    GetAt(fields, 8);
  }

  /** A move that logs a record appends it. */
  lemma MoveAppends(cfg: Config, s: State, rid: string, m: Move, record: Chain.Json)
    requires m.audit == Some(Audit.Log(record))
    ensures Apply(cfg, s, rid, m).audit.datas == s.audit.datas + [Audit.Prepared(record)]
  {
  }

  /** The step appends one record, and this is what it says. */
  ghost predicate Appends(cfg: Config, s: State, ev: Event, about: Case) {
    var t := Step(cfg, s, ev);
    && !Environment(ev) && ev.rid in t.cases && t.cases[ev.rid] == about
    && |t.audit.datas| == |s.audit.datas| + 1 && s.audit.datas <= t.audit.datas
    && Says(cfg, s, t, ev, about, Last(t.audit.datas))
  }

  lemma RecordDescribes(rid: string, req: Request, params: Chain.Json, v: Verdict, risk: Option<Risk>, note: Note)
    requires Chain.WellFormed(params)
    ensures var data := Audit.Prepared(Record(rid, req, params, v, risk, note));
      && Describes(data, rid, req)
      && Chain.Get(data.fields, "status") == Chain.Str(VerdictText(v))
      && Chain.Get(data.fields, "risk") == (if risk.Some? then Chain.Str(RiskText(risk.value)) else Chain.Null)
      && Chain.Get(data.fields, "params") == params
  {
    RecordPrepared(rid, req, params, v, risk, note);
    RecordNames(rid, req, params, v, risk, note);
    RecordHolds(rid, req, params, v, risk, note);
    NamesReadBack(req.action);
  }

  lemma LogSays(cfg: Config, s: State, ev: Event, about: Case, v: Verdict, risk: Option<Risk>, note: Note, next: Next,
    approvals: seq<Approvals.Action>)
    requires Sane(cfg) && !Environment(ev) && !ev.RunWithConfirm? && Possible(s, ev)
    requires MoveOf(cfg, s, ev) == LogAs(cfg, s, ev.rid, about, v, risk, note, next).(approvals := approvals)
    requires Verdicts(s, Step(cfg, s, ev), ev, about, Chain.Str(VerdictText(v)),
                      if risk.Some? then Chain.Str(RiskText(risk.value)) else Chain.Null)
    ensures Appends(cfg, s, ev, about)
  {
    var params := cfg.encode(AuditParams(about.found, about.req));
    var record := Record(ev.rid, about.req, params, v, risk, note);
    MoveAppends(cfg, s, ev.rid, MoveOf(cfg, s, ev), record);
    RecordDescribes(ev.rid, about.req, params, v, risk, note);
    LoggedExactly(about.found, about.req);
    assert Says(cfg, s, Step(cfg, s, ev), ev, about, Audit.Prepared(record));
  }

  lemma RunSays(cfg: Config, s: State, ev: Event)
    requires Sane(cfg) && ev.Run?
    ensures Writes(s, ev) ==> Appends(cfg, s, ev, Case(ev.req, PolicyOf(s, ev.req.agent), s.now, ev.pipelines, None))
    ensures !Writes(s, ev) ==> Step(cfg, s, ev).audit == s.audit
  {
    var about := Case(ev.req, PolicyOf(s, ev.req.agent), s.now, ev.pipelines, None);
    var d := Ruling(about);
    JudgedExactly(about.found, about.req, about.now, about.pipelines);
    if Writes(s, ev) {
      match d.status {
        case Denied => LogSays(cfg, s, ev, about, SaysDenied, d.risk, ev.note, Refuse, []);
        case ApprovalRequired => LogSays(cfg, s, ev, about, SaysApprovalRequired, d.risk, ev.note, AskHuman(d.risk), []);
        case Allowed => LogSays(cfg, s, ev, about, SaysAllowed, d.risk, ev.note, Execute(ByPolicy), []);
      }
    }
  }

  lemma EstimatedSays(cfg: Config, s: State, ev: Event)
    requires Sane(cfg) && Inv(s) && ev.Estimated? && Enabled(cfg, s, ev)
    ensures Writes(s, ev) ==> Appends(cfg, s, ev, s.cases[ev.rid].(estimate := ev.estimate))
    ensures !Writes(s, ev) ==> Step(cfg, s, ev).audit == s.audit
  {
    var about := s.cases[ev.rid].(estimate := ev.estimate);
    assert ThreadOk(s, ev.rid);
    EscalationCrashesExactly(Ruling(about), about.found.value, about.req, ev.estimate);
    if Writes(s, ev) {
      var d := Escalated(about).value;
      match d.status {
        case Denied => LogSays(cfg, s, ev, about, SaysDenied, d.risk, ev.note, Refuse, []);
        case ApprovalRequired => LogSays(cfg, s, ev, about, SaysApprovalRequired, d.risk, ev.note, AskHuman(d.risk), []);
        case Allowed => LogSays(cfg, s, ev, about, SaysAllowed, d.risk, ev.note, Execute(ByPolicy), []);
      }
    }
  }

  /** After an answer the waiter reports approval exactly if it says yes. */
  lemma AnswerSeen(cfg: Config, s: State, ev: Event)
    requires ev.Answered? && Inv(s) && Enabled(cfg, s, ev)
    ensures var w := s.threads[ev.rid].approval; var waiters := Step(cfg, s, ev).approvals.waiters;
      w in waiters && (waiters[w] == Approvals.Returned(w, Approvals.Approved) <==> SaysYes(s, ev.timedOut, w))
  {
    assert ThreadOk(s, ev.rid);
    AdvanceOne(s.approvals, Wakening(ev.timedOut, s.threads[ev.rid].approval));
  }

  lemma AnswerVerdicts(cfg: Config, s: State, ev: Event)
    requires ev.Answered? && Inv(s) && Enabled(cfg, s, ev)
    ensures var risk := s.threads[ev.rid].risk;
      Verdicts(s, Step(cfg, s, ev), ev, s.cases[ev.rid],
               Chain.Str(if SaysYes(s, ev.timedOut, s.threads[ev.rid].approval) then "approved" else "denied"),
               if risk.Some? then Chain.Str(RiskText(risk.value)) else Chain.Null)
  {
    assert ThreadOk(s, ev.rid);
    AnswerSeen(cfg, s, ev);
  }

  lemma AnsweredSays(cfg: Config, s: State, ev: Event)
    requires Sane(cfg) && Inv(s) && ev.Answered? && Enabled(cfg, s, ev)
    ensures Appends(cfg, s, ev, s.cases[ev.rid])
  {
    var about, thread := s.cases[ev.rid], s.threads[ev.rid];
    var w, wakening := thread.approval, Wakening(ev.timedOut, thread.approval);
    var yes := SaysYes(s, ev.timedOut, w);
    AnswerVerdicts(cfg, s, ev);
    LogSays(cfg, s, ev, about, if yes then SaysApproved else SaysDenied, thread.risk, ev.note,
      if yes then Execute(ByHuman(w)) else Refuse, [wakening]);
  }

  lemma ApprovedSays(cfg: Config, s: State, ev: Event)
    requires Sane(cfg) && ev.ExecuteApproved? && Enabled(cfg, s, ev)
    ensures var req := s.cases[ev.rid].req;
      Appends(cfg, s, ev, Case(req, PolicyOf(s, req.agent), s.now, ev.pipelines, None))
  {
    var req := s.cases[ev.rid].req;
    var about := Case(req, PolicyOf(s, req.agent), s.now, ev.pipelines, None);
    if Ruling(about).status.Denied? {
      LogSays(cfg, s, ev, about, SaysDenied, None, ev.note, Refuse, []);
    } else {
      LogSays(cfg, s, ev, about, SaysApproved, Ruling(about).risk, ev.note, Execute(ByConfirmation), []);
    }
  }

  lemma ReturnedSays(cfg: Config, s: State, ev: Event)
    requires Sane(cfg) && ev.Returned? && Enabled(cfg, s, ev)
    ensures Writes(s, ev) ==> Appends(cfg, s, ev, s.cases[ev.rid])
    ensures !Writes(s, ev) ==> Step(cfg, s, ev).audit == s.audit
  {
    if !ev.ok { LogSays(cfg, s, ev, s.cases[ev.rid], SaysError, None, ev.note, Report, []); }
  }

  lemma ToolSays(cfg: Config, s: State, ev: Event)
    requires ev.RunWithConfirm?
    ensures Writes(s, ev) ==> Appends(cfg, s, ev, Case(ev.req, PolicyOf(s, ev.req.agent), s.now, ev.pipelines, None))
    ensures !Writes(s, ev) ==> Step(cfg, s, ev).audit == s.audit
  {
    var about := Case(ev.req, PolicyOf(s, ev.req.agent), s.now, ev.pipelines, None);
    var risk := Ruling(about).risk;
    JudgedExactly(about.found, about.req, about.now, about.pipelines);
    if Writes(s, ev) {
      MoveAppends(cfg, s, ev.rid, MoveOf(cfg, s, ev), Record(ev.rid, about.req, Chain.Null, SaysAllowed, risk, ev.note));
      RecordDescribes(ev.rid, about.req, Chain.Null, SaysAllowed, risk, ev.note);
    }
  }

  lemma OthersWriteNothing(cfg: Config, s: State, ev: Event)
    requires Enabled(cfg, s, ev)
    requires !ev.Run? && !ev.Estimated? && !ev.Answered? && !ev.ExecuteApproved? && !ev.Returned? && !ev.RunWithConfirm?
    ensures Step(cfg, s, ev).audit.datas == s.audit.datas && !Writes(s, ev)
  {
  }

  /** Exactly these steps write, one record each, and it says what it should of the request. */
  lemma WritesExactly(cfg: Config, s: State, ev: Event)
    requires Sane(cfg) && Inv(s) && Enabled(cfg, s, ev)
    ensures Writes(s, ev) ==> exists about :: Appends(cfg, s, ev, about)
    ensures !Writes(s, ev) ==> Step(cfg, s, ev).audit.datas == s.audit.datas
  {
    match ev {
      case Run(_, _, _, _, _) => RunSays(cfg, s, ev);
      case Estimated(_, _, _) => EstimatedSays(cfg, s, ev);
      case Answered(_, _, _) => AnsweredSays(cfg, s, ev);
      case ExecuteApproved(_, _, _) => ApprovedSays(cfg, s, ev);
      case Returned(_, _, _) => ReturnedSays(cfg, s, ev);
      case RunWithConfirm(_, _, _, _) => ToolSays(cfg, s, ev);
      case _ => OthersWriteNothing(cfg, s, ev);
    }
  }

  // ------------------------------------------------------- whole interleavings

  /** The record was written by the n-th event, about a case judged by the m-th under the policy in
      force then. */
  ghost predicate WrittenAt(cfg: Config, ps: PolicyMap, evs: seq<Event>, i: nat, n: nat, m: nat, about: Case)
    requires n < |evs| && i < |After(cfg, ps, evs).audit.datas|
  {
    && |After(cfg, ps, evs[..n]).audit.datas| == i && Writes(After(cfg, ps, evs[..n]), evs[n])
    && Says(cfg, After(cfg, ps, evs[..n]), After(cfg, ps, evs[..n + 1]), evs[n], about, After(cfg, ps, evs).audit.datas[i])
    && !Environment(evs[n]) && m <= n && JudgedAt(cfg, ps, evs, m, evs[n].rid, about)
  }

  lemma WrittenStays(cfg: Config, ps: PolicyMap, evs: seq<Event>, i: nat, n: nat, m: nat, about: Case)
    requires evs != [] && n < |evs| - 1 && i < |After(cfg, ps, evs[..|evs| - 1]).audit.datas|
    requires WrittenAt(cfg, ps, evs[..|evs| - 1], i, n, m, about)
    requires After(cfg, ps, evs[..|evs| - 1]).audit.datas <= After(cfg, ps, evs).audit.datas
    ensures WrittenAt(cfg, ps, evs, i, n, m, about)
  {
    var rest := evs[..|evs| - 1];
    assert evs[..n] == rest[..n] && evs[..n + 1] == rest[..n + 1] && evs[n] == rest[n];
    JudgedStill(cfg, ps, evs, m, rest[n].rid, about);
  }

  lemma JudgedStill(cfg: Config, ps: PolicyMap, evs: seq<Event>, m: nat, rid: string, about: Case)
    requires evs != [] && JudgedAt(cfg, ps, evs[..|evs| - 1], m, rid, about)
    ensures JudgedAt(cfg, ps, evs, m, rid, about)
  {
    assert evs[..|evs| - 1][..m] == evs[..m];
  }

  /** If the last event wrote a record it is the last one. */
  lemma LastRecord(cfg: Config, ps: PolicyMap, evs: seq<Event>) returns (m: nat, about: Case)
    requires Sane(cfg) && Interleaving(cfg, ps, evs) && evs != []
    ensures var before, datas := After(cfg, ps, evs[..|evs| - 1]).audit.datas, After(cfg, ps, evs).audit.datas;
      && before <= datas
      && (datas != before ==> |datas| == |before| + 1 && WrittenAt(cfg, ps, evs, |before|, |evs| - 1, m, about))
  {
    var last := |evs| - 1;
    var s, ev := After(cfg, ps, evs[..last]), evs[last];
    PrefixOf(cfg, ps, evs);
    RunInv(cfg, ps, evs[..last]);
    WritesExactly(cfg, s, ev);
    if Writes(s, ev) {
      about :| Appends(cfg, s, ev, about);
      m := OwnCase(cfg, ps, evs);
    } else {
      m, about := 0, Case(Request("", "", Find, [], None), None, 0, false, None);
    }
  }

  lemma OwnCase(cfg: Config, ps: PolicyMap, evs: seq<Event>) returns (m: nat)
    requires Sane(cfg) && Interleaving(cfg, ps, evs) && evs != [] && !Environment(Last(evs))
    requires Last(evs).rid in After(cfg, ps, evs).cases
    ensures m < |evs| && JudgedAt(cfg, ps, evs, m, Last(evs).rid, After(cfg, ps, evs).cases[Last(evs).rid])
    ensures evs[..|evs| - 1 + 1] == evs
  {
    RunInv(cfg, ps, evs);
    m := CaseOrigin(cfg, ps, evs, Last(evs).rid);
  }

  /** Every record in the log, in every interleaving: which event wrote it, when the request was
      judged, and that it says of the request what it should, its parameters scrubbed of what the
      policy judged by masks. */
  lemma {:induction false} EveryRecord(cfg: Config, ps: PolicyMap, evs: seq<Event>, i: nat)
    returns (n: nat, m: nat, about: Case)
    requires Sane(cfg) && Interleaving(cfg, ps, evs) && i < |After(cfg, ps, evs).audit.datas|
    ensures n < |evs| && WrittenAt(cfg, ps, evs, i, n, m, about)
  {
    var rest := evs[..|evs| - 1];
    PrefixOf(cfg, ps, evs);
    m, about := LastRecord(cfg, ps, evs);
    n := |evs| - 1;
    if i < |After(cfg, ps, rest).audit.datas| {
      n, m, about := EveryRecord(cfg, ps, rest, i);
      WrittenStays(cfg, ps, evs, i, n, m, about);
    }
  }

  // ------------------------------------------------------------ what follows

  /** An open approval tells a human who wants to do what, and the request waits for it. */
  predicate Asks(t: State, rid: string, id: nat) {
    && rid in t.threads && rid in t.cases && t.threads[rid].AwaitingHuman? && t.threads[rid].approval == id
    && id in t.approvals.waiters && t.approvals.waiters[id] == Approvals.Waiting(id)
    && id in t.approvals.store.approvals
    && var a := t.approvals.store.approvals[id];
       && a.status == Approvals.Pending && a.ask.agent == t.cases[rid].req.agent
       && a.ask.collection == t.cases[rid].req.collection && ParseAction(a.ask.action) == Some(t.cases[rid].req.action)
  }

  /** How the request goes on, by what its record says and whether it was written. */
  ghost predicate Proceeds(s: State, t: State, rid: string, newId: nat)
    requires rid in s.threads && s.threads[rid].Logging? && rid in t.threads
    requires s.threads[rid].ticket < |s.audit.datas| && s.threads[rid].ticket < |s.audit.futures|
  {
    var data, ticket := s.audit.datas[s.threads[rid].ticket], s.threads[rid].ticket;
    && data.Obj? && Chain.Get(data.fields, "request_id") == Chain.Str(rid)
    && var status := Chain.Get(data.fields, "status");
       if !s.audit.futures[ticket].Done? then t.calls == s.calls && t.threads[rid] == Finished
       else if status == Chain.Str("allowed") || status == Chain.Str("approved") then
         && |t.calls| == |s.calls| + 1 && s.calls <= t.calls && Last(t.calls).rid == rid && Last(t.calls).ticket == ticket
         && t.threads[rid] == Executing
       else if status == Chain.Str("approval_required") then t.calls == s.calls && Asks(t, rid, newId)
       else t.calls == s.calls && t.threads[rid] == Finished
  }

  lemma HumanAsked(cfg: Config, s: State, ev: Event)
    requires ev.Resume? && Enabled(cfg, s, ev) && s.threads[ev.rid].next.AskHuman?
    requires s.audit.futures[s.threads[ev.rid].ticket].Done?
    ensures Asks(Step(cfg, s, ev), ev.rid, ev.newId)
  {
    var req := s.cases[ev.rid].req;
    var create := Approvals.Create(ev.newId, Approvals.Ask(req.agent, ActionName(req.action), req.collection));
    var wait := Approvals.BeginWait(ev.newId, ev.newId);
    NamesReadBack(req.action);
    AdvanceTwo(s.approvals, create, wait);
  }

  lemma AdvanceTwo(s: Approvals.State, a: Approvals.Action, b: Approvals.Action)
    ensures Advance(s, [a, b]) == Approvals.Step(Approvals.Step(s, a), b)
  {
    assert [a, b][..1] == [a] && [a][..0] == [];
    assert Advance(s, [a]) == Approvals.Step(s, a);
  }

  lemma ResumeProceeds(cfg: Config, s: State, ev: Event)
    requires ev.Resume? && Enabled(cfg, s, ev) && ThreadOk(s, ev.rid)
    ensures s.threads[ev.rid].ticket < |s.audit.datas| && ev.rid in Step(cfg, s, ev).threads
    ensures Proceeds(s, Step(cfg, s, ev), ev.rid, ev.newId)
  {
    if s.audit.futures[s.threads[ev.rid].ticket].Done? && s.threads[ev.rid].next.AskHuman? { HumanAsked(cfg, s, ev); }
  }

  /** Once its record is settled a request goes on exactly as that record says, in every interleaving:
      it is executed if the record was written and says allowed or approved, a human is asked if it
      says that approval is required, and otherwise nothing more happens. */
  lemma ProceedsAsRecorded(cfg: Config, ps: PolicyMap, evs: seq<Event>, ev: Event)
    requires Sane(cfg) && Interleaving(cfg, ps, evs) && ev.Resume? && Enabled(cfg, After(cfg, ps, evs), ev)
    ensures var s, t := After(cfg, ps, evs), Step(cfg, After(cfg, ps, evs), ev);
      s.threads[ev.rid].ticket < |s.audit.datas| && ev.rid in t.threads && Proceeds(s, t, ev.rid, ev.newId)
  {
    RunInv(cfg, ps, evs);
    ResumeProceeds(cfg, After(cfg, ps, evs), ev);
  }

  /** Where a request is after its own event: it waits for the record it has just written, or it was
      stopped, or it waits for an estimate or for a confirmation. */
  ghost predicate GoesOn(s: State, t: State, ev: Event, rid: string) {
    && rid in t.threads
    && var thread := t.threads[rid];
       if ev.Evaluate? then thread == Evaluated
       else if ev.Cancel? then thread == Finished
       else if ev.Resume? then true
       else if Writes(s, ev) then thread.Logging? && thread.ticket == |s.audit.datas|
       else if ev.Run? then thread == Estimating
       else if ev.RunWithConfirm? then
         thread ==
           if ev.req.agent !in s.policies || Forbidden(s.policies[ev.req.agent], ev.req, s.now, ev.pipelines) then Finished
           else Evaluated
       else thread == Finished
  }

  lemma RunGoesOn(cfg: Config, s: State, ev: Event)
    requires ev.Run? || ev.RunWithConfirm?
    ensures GoesOn(s, Step(cfg, s, ev), ev, ev.rid)
  {
    var about := Case(ev.req, PolicyOf(s, ev.req.agent), s.now, ev.pipelines, None);
    JudgedExactly(about.found, about.req, about.now, about.pipelines);
  }

  lemma EstimatedGoesOn(cfg: Config, s: State, ev: Event)
    requires Inv(s) && ev.Estimated? && Enabled(cfg, s, ev)
    ensures GoesOn(s, Step(cfg, s, ev), ev, ev.rid)
  {
    var about := s.cases[ev.rid].(estimate := ev.estimate);
    assert ThreadOk(s, ev.rid);
    EscalationCrashesExactly(Ruling(about), about.found.value, about.req, ev.estimate);
  }

  /** Every event of a request takes it where it should go, in every interleaving; what it logs with
      that is `EveryRecord`, and how it goes on once that is settled `ProceedsAsRecorded`. */
  lemma GoesOnExactly(cfg: Config, ps: PolicyMap, evs: seq<Event>, ev: Event)
    requires Sane(cfg) && Interleaving(cfg, ps, evs) && !Environment(ev) && Enabled(cfg, After(cfg, ps, evs), ev)
    ensures GoesOn(After(cfg, ps, evs), Step(cfg, After(cfg, ps, evs), ev), ev, ev.rid)
  {
    var s := After(cfg, ps, evs);
    RunInv(cfg, ps, evs);
    if ev.Run? || ev.RunWithConfirm? { RunGoesOn(cfg, s, ev); }
    else if ev.Estimated? { EstimatedGoesOn(cfg, s, ev); }
    else { OthersGoOn(cfg, s, ev); }
  }

  lemma OthersGoOn(cfg: Config, s: State, ev: Event)
    requires !Environment(ev) && !ev.Run? && !ev.RunWithConfirm? && !ev.Estimated? && Enabled(cfg, s, ev)
    ensures GoesOn(s, Step(cfg, s, ev), ev, ev.rid)
  {
  }
}
