/** The authorisation pipeline as it runs: requests, the audit writer, the approval store and
    policy reloads, interleaved at every await. */
module Pipeline {
  import opened Common
  import opened Values
  import opened Policies
  import opened PolicyEngine
  import opened Masking
  import Chain = AuditChain
  import Audit = AuditLogger
  import AuditRuns
  import Approvals

  /** The writer's configuration, and how request parameters are written as JSON. */
  datatype Config = Config(audit: Audit.Config, encode: Val -> Chain.Json)

  /** What a request holds is encoded as JSON that a Python dict can hold. */
  ghost predicate Sane(cfg: Config) { forall v :: Chain.WellFormed(cfg.encode(v)) }

  // ---------------------------------------------------------- audit records

  /** What a record says beside the request: its clock, node and trace, and a reason. */
  datatype Note = Note(timestamp: string, node: string, trace: string, reason: Option<string>)

  datatype Verdict = SaysAllowed | SaysDenied | SaysApprovalRequired | SaysApproved | SaysError

  function VerdictText(v: Verdict): string {
    match v
    case SaysAllowed => "allowed" case SaysDenied => "denied" case SaysApprovalRequired => "approval_required"
    case SaysApproved => "approved" case SaysError => "error"
  }

  function RiskText(r: Risk): string {
    match r case Low => "LOW" case Medium => "MEDIUM" case High => "HIGH" case Critical => "CRITICAL"
  }

  function OptionalText(t: Option<string>): Chain.Json { if t.Some? then Chain.Str(t.value) else Chain.Null }

  /** `_audit_params`: masked unless the policy masks nothing here. */
  function AuditParams(policy: Option<Policy>, req: Request): Val {
    if policy.None? || MaskFieldsFor(policy.value, req.collection, req.database) == [] then Dict(req.params)
    else MaskResult(FreshMasker(policy.value, (req.collection, req.database)), Dict(req.params))
  }

  function Record(rid: string, req: Request, params: Chain.Json, v: Verdict, risk: Option<Risk>, note: Note): Chain.Json {
    Chain.Obj([
      Chain.Field("timestamp", Chain.Str(note.timestamp)),
      Chain.Field("agent", Chain.Str(req.agent)),
      Chain.Field("collection", Chain.Str(req.collection)),
      Chain.Field("action", Chain.Str(ActionName(req.action))),
      Chain.Field("status", Chain.Str(VerdictText(v))),
      Chain.Field("reason", OptionalText(note.reason)),
      Chain.Field("risk", if risk.Some? then Chain.Str(RiskText(risk.value)) else Chain.Null),
      Chain.Field("request_id", Chain.Str(rid)),
      Chain.Field("params", params),
      Chain.Field("node_id", Chain.Str(note.node)),
      Chain.Field("trace_id", Chain.Str(note.trace))
    ])
  }

  /** A record in the log about this request with this verdict. */
  ghost predicate Tells(data: Chain.Json, rid: string, v: Verdict) {
    data.Obj? && Chain.Get(data.fields, "request_id") == Chain.Str(rid)
      && Chain.Get(data.fields, "status") == Chain.Str(VerdictText(v))
  }

  lemma RecordPlain(rid: string, req: Request, params: Chain.Json, v: Verdict, risk: Option<Risk>, note: Note)
    requires Chain.WellFormed(params)
    ensures Audit.Plain(Record(rid, req, params, v, risk, note))
  {
    var r := Record(rid, req, params, v, risk, note);
    KeysDistinct();
    assert forall i :: 0 <= i < |r.fields| ==> r.fields[i].key == KEYS[i];
    assert forall i :: 0 <= i < |r.fields| ==> Chain.WellFormed(r.fields[i].val);
  }

  const KEYS := [
    "timestamp", "agent", "collection", "action", "status", "reason", "risk", "request_id", "params", "node_id", "trace_id"
  ]

  lemma KeysDistinct()
    ensures NoDup(KEYS) && Chain.HMAC_KEY !in KEYS
  {
    assert forall i :: 0 <= i < |KEYS| ==> KEYS[i] != "" && KEYS[i][0] != '_';
    assert KEYS[0][1] == 'i' && KEYS[10][1] == 'r' && KEYS[1][1] == 'g' && KEYS[3][1] == 'c';
    assert |KEYS[5]| == 6 && |KEYS[6]| == 4 && |KEYS[7]| == 10;
  }

  lemma {:induction false} GetAt(fields: seq<Chain.Field>, i: nat)
    requires i < |fields| && forall a, b :: 0 <= a < b < |fields| ==> fields[a].key != fields[b].key
    ensures Chain.Get(fields, fields[i].key) == fields[i].val
  {
    if i > 0 { GetAt(fields[1..], i - 1); }
  }

  lemma {:induction false} WithoutAbsent(fields: seq<Chain.Field>, key: string)
    requires forall i :: 0 <= i < |fields| ==> fields[i].key != key
    ensures Chain.Without(fields, key) == fields
  {
    if fields != [] {
      assert forall i :: 0 <= i < |fields[1..]| ==> fields[1..][i] == fields[i + 1];
      WithoutAbsent(fields[1..], key);
    }
  }

  lemma RecordTells(rid: string, req: Request, params: Chain.Json, v: Verdict, risk: Option<Risk>, note: Note)
    requires Chain.WellFormed(params)
    ensures Tells(Audit.Prepared(Record(rid, req, params, v, risk, note)), rid, v)
  {
    var fields := Record(rid, req, params, v, risk, note).fields;
    RecordPlain(rid, req, params, v, risk, note);
    assert fields[7].key == "request_id" && fields[4].key == "status";
    GetAt(fields, 7);
    GetAt(fields, 4);
    WithoutAbsent(fields, "database");
  }

  // ---------------------------------------------------------------- requests

  /** On what an execution rests: the policy alone, a human decision in the approval store, a
      confirmation given in-band, or the policy alone as the confirming tools apply it. */
  datatype Grounds = ByPolicy | ByHuman(approval: nat) | ByConfirmation | ByTool

  /** What follows once an audit record is settled. */
  datatype Next = Refuse | AskHuman(risk: Option<Risk>) | Execute(grounds: Grounds) | Report

  /** Where a request is: between its awaits, or at its end. */
  datatype Thread =
    | Evaluated                          // shown to the human, not confirmed yet
    | Estimating
    | Logging(next: Next, ticket: nat)
    | AwaitingHuman(approval: nat, risk: Option<Risk>)
    | Executing
    | Finished

  /** What was judged last for a request: the request, the policy found for its agent, when, by
      what backend, and the cost estimated since. */
  datatype Case = Case(req: Request, found: Option<Policy>, now: int, pipelines: bool, estimate: Option<CostLevel>)

  function Ruling(c: Case): Decision { Judge(c.found, c.req, c.now, c.pipelines) }

  /** The decision with the escalation for cost. */
  function Escalated(c: Case): Result<Decision, Crash> {
    if c.found.None? then Ok(Ruling(c)) else Escalate(Ruling(c), c.found.value, c.req, c.estimate)
  }

  datatype Call = Call(rid: string, grounds: Grounds, ticket: nat)

  /** `calls` are the calls of the executor so far, with the audit record each waited for. */
  datatype State = State(audit: Audit.State, approvals: Approvals.State, policies: map<string, Policy>, now: int,
                         threads: map<string, Thread>, cases: map<string, Case>, calls: seq<Call>)

  datatype Event =
    | Reload(policies: map<string, Policy>)
    | Tick(now: int)
    | Writer(audit: Audit.Event)                 // the flusher, or closing
    | Humans(approval: Approvals.Action)         // deciding, pruning, shutting down
    | Run(rid: string, req: Request, pipelines: bool, plugin: bool, note: Note)
    | Estimated(rid: string, estimate: Option<CostLevel>, note: Note)
    | Resume(rid: string, newId: nat)            // the audit record is settled
    | Answered(rid: string, timedOut: bool, note: Note)
    | Evaluate(rid: string, req: Request, pipelines: bool)
    | RunWithConfirm(rid: string, req: Request, pipelines: bool, note: Note)  // a tool that asks in-band
    | ExecuteApproved(rid: string, pipelines: bool, note: Note)
    | Returned(rid: string, ok: bool, note: Note)
    | Cancel(rid: string)

  /** What an event does to the request it belongs to, to the writer and to the approvals. */
  datatype Move = Move(thread: Thread, about: Case, audit: Option<Audit.Event>, approvals: seq<Approvals.Action>,
    call: Option<Call>)

  function Quiet(thread: Thread, about: Case): Move { Move(thread, about, None, [], None) }

  /** Enqueue a record and wait for it. */
  function LogAs(cfg: Config, s: State, rid: string, about: Case, v: Verdict, risk: Option<Risk>, note: Note, next: Next): Move {
    LogWith(s, rid, about, cfg.encode(AuditParams(about.found, about.req)), v, risk, note, next)
  }

  function LogWith(s: State, rid: string, about: Case, params: Chain.Json, v: Verdict, risk: Option<Risk>, note: Note,
    next: Next): Move {
    Move(Logging(next, |s.audit.datas|), about, Some(Audit.Log(Record(rid, about.req, params, v, risk, note))), [], None)
  }

  /** `run`, from the decision on. */
  function Announce(cfg: Config, s: State, rid: string, about: Case, d: Decision, note: Note): Move {
    match d.status
    case Denied => LogAs(cfg, s, rid, about, SaysDenied, d.risk, note, Refuse)
    case ApprovalRequired => LogAs(cfg, s, rid, about, SaysApprovalRequired, d.risk, note, AskHuman(d.risk))
    case Allowed => LogAs(cfg, s, rid, about, SaysAllowed, d.risk, note, Execute(ByPolicy))
  }

  function PolicyOf(s: State, agent: string): Option<Policy> { if agent in s.policies then Some(s.policies[agent]) else None }

  /** `run`: evaluate under the policy in force; a backend estimate is awaited if one is due. */
  function RunMove(cfg: Config, s: State, rid: string, req: Request, pipelines: bool, plugin: bool, note: Note): Move {
    var about := Case(req, PolicyOf(s, req.agent), s.now, pipelines, None);
    var d := Ruling(about);
    if about.found.Some? && about.found.value.maxCost.Some? && !d.status.Denied? && Estimable(req.action) && plugin
    then Quiet(Estimating, about)
    else Announce(cfg, s, rid, about, d, note)
  }

  function EstimatedMove(cfg: Config, s: State, rid: string, judged: Case, estimate: Option<CostLevel>, note: Note): Move {
    var about := judged.(estimate := estimate);
    match Escalated(about)
    case Err(_) => Quiet(Finished, about)
    case Ok(d) => Announce(cfg, s, rid, about, d, note)
  }

  /** After the record: a failed write under fail_closed raises; else the request goes on. */
  function ResumeMove(s: State, rid: string, t: Thread, about: Case, newId: nat): Move
    requires t.Logging? && t.ticket < |s.audit.futures|
  {
    if !s.audit.futures[t.ticket].Done? then Quiet(Finished, about)
    else
      match t.next
      case Refuse => Quiet(Finished, about)
      case Report => Quiet(Finished, about)
      case AskHuman(risk) =>
        var ask := Approvals.Ask(about.req.agent, ActionName(about.req.action), about.req.collection);
        Move(AwaitingHuman(newId, risk), about, None, [Approvals.Create(newId, ask), Approvals.BeginWait(newId, newId)], None)
      case Execute(grounds) => Move(Executing, about, None, [], Some(Call(rid, grounds, t.ticket)))
  }

  function Wakening(timedOut: bool, w: nat): Approvals.Action { if timedOut then Approvals.TimeOut(w) else Approvals.Wake(w) }

  /** What the waiter reports when it is woken, or timed out. */
  predicate SaysYes(s: State, timedOut: bool, w: nat) {
    var after := Approvals.Step(s.approvals, Wakening(timedOut, w)).waiters;
    w in after && after[w].Returned? && after[w].outcome == Approvals.Approved
  }

  function AnsweredMove(cfg: Config, s: State, rid: string, t: Thread, about: Case, timedOut: bool, note: Note): Move
    requires t.AwaitingHuman?
  {
    var w := t.approval;
    var m := if SaysYes(s, timedOut, w) then LogAs(cfg, s, rid, about, SaysApproved, t.risk, note, Execute(ByHuman(w)))
             else LogAs(cfg, s, rid, about, SaysDenied, t.risk, note, Refuse);
    m.(approvals := [Wakening(timedOut, w)])
  }

  /** `execute_approved`: judged again under the policy in force now. */
  function ApprovedMove(cfg: Config, s: State, rid: string, req: Request, pipelines: bool, note: Note): Move {
    var about := Case(req, PolicyOf(s, req.agent), s.now, pipelines, None);
    var d := Ruling(about);
    if d.status.Denied? then LogAs(cfg, s, rid, about, SaysDenied, None, note, Refuse)
    else LogAs(cfg, s, rid, about, SaysApproved, d.risk, note, Execute(ByConfirmation))
  }

  /** `_run_with_confirm`: what is denied ends, what needs approval is put to the human, what is
      allowed is logged without its parameters and executed as it was judged. */
  function ToolMove(s: State, rid: string, req: Request, pipelines: bool, note: Note): Move {
    var about := Case(req, PolicyOf(s, req.agent), s.now, pipelines, None);
    var d := Ruling(about);
    match d.status
    case Denied => Quiet(Finished, about)
    case ApprovalRequired => Quiet(Evaluated, about)
    case Allowed => LogWith(s, rid, about, Chain.Null, SaysAllowed, d.risk, note, Execute(ByTool))
  }

  function ReturnedMove(cfg: Config, s: State, rid: string, about: Case, ok: bool, note: Note): Move {
    if ok then Quiet(Finished, about) else LogAs(cfg, s, rid, about, SaysError, None, note, Report)
  }

  /** A request whose task is cancelled stops waiting for its record. */
  function CancelMove(s: State, t: Thread, about: Case): Move {
    if t.Logging? && t.ticket < |s.audit.futures| && s.audit.futures[t.ticket].Pending?
    then Move(Finished, about, Some(Audit.Cancel(t.ticket)), [], None)
    else Quiet(Finished, about)
  }

  predicate Environment(ev: Event) { ev.Reload? || ev.Tick? || ev.Writer? || ev.Humans? }

  predicate Known(s: State, rid: string) { rid in s.threads && rid in s.cases }

  /** The events can happen when the asyncio code can take the step. Request and approval ids do
      not repeat. */
  ghost predicate Enabled(cfg: Config, s: State, ev: Event) {
    match ev
    case Reload(_) => true
    case Tick(now) => s.now <= now
    case Writer(e) => (Audit.Flushes(e) || e.Stray? || e.CloseBegin? || e.CloseEnd?) && Audit.Enabled(cfg.audit, s.audit, e)
    case Humans(a) => (a.Resolve? || a.Prune? || a.Shutdown? || a.Tick?) && Approvals.Enabled(s.approvals, a)
    case Run(rid, _, _, _, _) => rid !in s.threads
    case Evaluate(rid, _, _) => rid !in s.threads
    case RunWithConfirm(rid, _, _, _) => rid !in s.threads
    case Estimated(rid, _, _) => Known(s, rid) && s.threads[rid].Estimating? && s.cases[rid].found.Some?
    case Resume(rid, newId) =>
      && Known(s, rid) && s.threads[rid].Logging? && s.threads[rid].ticket < |s.audit.futures|
      && (s.audit.futures[s.threads[rid].ticket].Done? || s.audit.futures[s.threads[rid].ticket].Failed?)
      && newId !in s.approvals.store.issued && newId !in s.approvals.waiters
    case Answered(rid, timedOut, _) =>
      && Known(s, rid) && s.threads[rid].AwaitingHuman?
      && Approvals.Enabled(s.approvals, Wakening(timedOut, s.threads[rid].approval))
    case ExecuteApproved(rid, _, _) => Known(s, rid) && s.threads[rid].Evaluated?
    case Returned(rid, _, _) => Known(s, rid) && s.threads[rid].Executing?
    case Cancel(rid) => Known(s, rid) && !s.threads[rid].Finished?
  }

  function MoveOf(cfg: Config, s: State, ev: Event): Move
    requires !Environment(ev) && Possible(s, ev)
  {
    match ev
    case Run(rid, req, pipelines, plugin, note) => RunMove(cfg, s, rid, req, pipelines, plugin, note)
    case Evaluate(rid, req, pipelines) => Quiet(Evaluated, Case(req, PolicyOf(s, req.agent), s.now, pipelines, None))
    case RunWithConfirm(rid, req, pipelines, note) => ToolMove(s, rid, req, pipelines, note)
    case Estimated(rid, estimate, note) => EstimatedMove(cfg, s, rid, s.cases[rid], estimate, note)
    case Resume(rid, newId) => ResumeMove(s, rid, s.threads[rid], s.cases[rid], newId)
    case Answered(rid, timedOut, note) => AnsweredMove(cfg, s, rid, s.threads[rid], s.cases[rid], timedOut, note)
    case ExecuteApproved(rid, pipelines, note) => ApprovedMove(cfg, s, rid, s.cases[rid].req, pipelines, note)
    case Returned(rid, ok, note) => ReturnedMove(cfg, s, rid, s.cases[rid], ok, note)
    case Cancel(rid) => CancelMove(s, s.threads[rid], s.cases[rid])
  }

  /** The request of the event is where the event needs it. */
  predicate Possible(s: State, ev: Event)
    requires !Environment(ev)
  {
    match ev
    case Run(rid, _, _, _, _) => true
    case Evaluate(rid, _, _) => true
    case RunWithConfirm(rid, _, _, _) => true
    case Estimated(rid, _, _) => Known(s, rid) && s.threads[rid].Estimating? && s.cases[rid].found.Some?
    case Resume(rid, _) => Known(s, rid) && s.threads[rid].Logging? && s.threads[rid].ticket < |s.audit.futures|
    case Answered(rid, _, _) => Known(s, rid) && s.threads[rid].AwaitingHuman?
    case ExecuteApproved(rid, _, _) => Known(s, rid)
    case Returned(rid, _, _) => Known(s, rid)
    case Cancel(rid) => Known(s, rid)
  }

  function Advance(s: Approvals.State, actions: seq<Approvals.Action>): Approvals.State {
    if actions == [] then s else Approvals.Step(Advance(s, actions[..|actions| - 1]), Last(actions))
  }

  function Apply(cfg: Config, s: State, rid: string, m: Move): State {
    s.(audit := if m.audit.Some? then Audit.Step(cfg.audit, s.audit, m.audit.value) else s.audit,
       approvals := Advance(s.approvals, m.approvals),
       threads := s.threads[rid := m.thread],
       cases := s.cases[rid := m.about],
       calls := if m.call.Some? then s.calls + [m.call.value] else s.calls)
  }

  function Step(cfg: Config, s: State, ev: Event): State {
    match ev
    case Reload(policies) => s.(policies := policies)
    case Tick(now) => s.(now := now)
    case Writer(e) => s.(audit := Audit.Step(cfg.audit, s.audit, e))
    case Humans(a) => s.(approvals := Approvals.Step(s.approvals, a))
    case _ => if Possible(s, ev) then Apply(cfg, s, ev.rid, MoveOf(cfg, s, ev)) else s
  }

  function Start(policies: map<string, Policy>): State {
    State(Audit.Initial, Approvals.Initial, policies, 0, map[], map[], [])
  }

  function After(cfg: Config, policies: map<string, Policy>, evs: seq<Event>): State {
    if evs == [] then Start(policies) else Step(cfg, After(cfg, policies, evs[..|evs| - 1]), Last(evs))
  }

  /** Any interleaving, from the start of the process. */
  ghost predicate Interleaving(cfg: Config, policies: map<string, Policy>, evs: seq<Event>) {
    forall n :: 0 <= n < |evs| ==> Enabled(cfg, After(cfg, policies, evs[..n]), evs[n])
  }

  // ------------------------------------------------- what requests rely on

  /** Nothing a request relies on is taken back: logged records stay, settled futures stay. */
  ghost predicate Grows(a: Audit.State, b: Audit.State) {
    && a.datas <= b.datas && |a.futures| <= |b.futures|
    && forall id: nat :: id < |a.futures| && a.futures[id].Done? ==> b.futures[id].Done?
  }

  ghost predicate Keeps(a: Approvals.State, b: Approvals.State) {
    forall w :: w in a.waiters ==>
      w in b.waiters && b.waiters[w].id == a.waiters[w].id && (a.waiters[w].Returned? ==> b.waiters[w] == a.waiters[w])
  }

  predicate AsksHuman(about: Case) { Escalated(about).Ok? && Escalated(about).value.status.ApprovalRequired? }

  /** The grounds are good: not denied by the policy judged; allowed by it, approved by a human
      through the store, or confirmed. */
  ghost predicate Sound(s: State, about: Case, g: Grounds) {
    match g
    case ByPolicy => Escalated(about).Ok? && Escalated(about).value.status.Allowed?
    case ByHuman(w) =>
      && AsksHuman(about)
      && w in s.approvals.waiters && s.approvals.waiters[w] == Approvals.Returned(w, Approvals.Approved)
    case ByConfirmation => !Ruling(about).status.Denied?
    case ByTool => Ruling(about).status.Allowed?
  }

  function VerdictFor(next: Next): Verdict {
    match next
    case Refuse => SaysDenied
    case AskHuman(_) => SaysApprovalRequired
    case Execute(g) => if g.ByPolicy? || g.ByTool? then SaysAllowed else SaysApproved
    case Report => SaysError
  }

  /** The record a request waits for says what follows. */
  ghost predicate Reported(s: State, rid: string, ticket: nat, next: Next) {
    ticket < |s.audit.datas| && Tells(s.audit.datas[ticket], rid, VerdictFor(next))
  }

  /** The decision asks for a human, at this risk. */
  predicate AsksAt(about: Case, risk: Option<Risk>) { AsksHuman(about) && Escalated(about).value.risk == risk }

  ghost predicate ThreadOk(s: State, rid: string) {
    && rid in s.threads && rid in s.cases
    && match s.threads[rid]
       case Estimating => s.cases[rid].found.Some? && !Ruling(s.cases[rid]).status.Denied?
       case Logging(next, ticket) =>
         && Reported(s, rid, ticket, next)
         && (match next
             case AskHuman(risk) => AsksAt(s.cases[rid], risk)
             case Execute(g) => Sound(s, s.cases[rid], g)
             case _ => true)
       case AwaitingHuman(w, risk) =>
         AsksAt(s.cases[rid], risk) && w in s.approvals.waiters && s.approvals.waiters[w].id == w
       case _ => true
  }

  /** A request that may still call the executor. */
  predicate Ahead(t: Thread) {
    t.Evaluated? || t.Estimating? || t.AwaitingHuman? || (t.Logging? && (t.next.AskHuman? || t.next.Execute?))
  }

  ghost predicate CallOk(s: State, c: Call) {
    && c.rid in s.threads && c.rid in s.cases && !Ahead(s.threads[c.rid])
    && c.ticket < |s.audit.futures| && s.audit.futures[c.ticket].Done?
    && Reported(s, c.rid, c.ticket, Execute(c.grounds)) && Sound(s, s.cases[c.rid], c.grounds)
  }

  ghost predicate Inv(s: State) {
    && (forall rid :: rid in s.threads ==> ThreadOk(s, rid))
    && (forall i :: 0 <= i < |s.calls| ==> CallOk(s, s.calls[i]))
    && (forall i, j :: 0 <= i < j < |s.calls| ==> s.calls[i].rid != s.calls[j].rid)
  }

  lemma AuditGrows(cfg: Config, a: Audit.State, e: Audit.Event)
    ensures Grows(a, Audit.Step(cfg.audit, a, e))
  {
    forall id: nat | id < |a.futures| && a.futures[id].Done? ensures Audit.Step(cfg.audit, a, e).futures[id].Done? {
      AuditRuns.SettledStays(cfg.audit, a, e, id);
    }
  }

  lemma StaysPut(s: State, t: State, rid: string)
    requires ThreadOk(s, rid) && Grows(s.audit, t.audit) && Keeps(s.approvals, t.approvals)
    requires rid in t.threads && t.threads[rid] == s.threads[rid] && rid in t.cases && t.cases[rid] == s.cases[rid]
    ensures ThreadOk(t, rid)
  {
  }

  lemma CallStays(s: State, t: State, c: Call)
    requires CallOk(s, c) && Grows(s.audit, t.audit) && Keeps(s.approvals, t.approvals)
    requires c.rid in t.threads && !Ahead(t.threads[c.rid]) && c.rid in t.cases && t.cases[c.rid] == s.cases[c.rid]
    ensures CallOk(t, c)
  {
  }

  // ------------------------------------------------------------------- steps

  lemma ApprovalKeeps(s: Approvals.State, a: Approvals.Action)
    requires Approvals.Enabled(s, a)
    ensures Keeps(s, Approvals.Step(s, a))
  {
  }

  /** The approval actions of a move can happen one after the other, and keep what is decided. */
  ghost predicate Performs(s: Approvals.State, actions: seq<Approvals.Action>) {
    forall n :: 0 <= n < |actions| ==> Approvals.Enabled(Advance(s, actions[..n]), actions[n])
  }

  lemma PerformsPrefix(s: Approvals.State, actions: seq<Approvals.Action>)
    requires actions != [] && Performs(s, actions)
    ensures Performs(s, actions[..|actions| - 1]) && Approvals.Enabled(Advance(s, actions[..|actions| - 1]), Last(actions))
  {
    var n := |actions| - 1;
    assert Approvals.Enabled(Advance(s, actions[..n]), actions[n]);
    forall i | 0 <= i < n ensures Approvals.Enabled(Advance(s, actions[..n][..i]), actions[..n][i]) {
      assert actions[..n][..i] == actions[..i];
      assert Approvals.Enabled(Advance(s, actions[..i]), actions[i]);
    }
  }

  lemma {:induction false} AdvanceKeeps(s: Approvals.State, actions: seq<Approvals.Action>)
    requires Performs(s, actions)
    ensures Keeps(s, Advance(s, actions))
  {
    if actions != [] {
      var n := |actions| - 1;
      PerformsPrefix(s, actions);
      AdvanceKeeps(s, actions[..n]);
      ApprovalKeeps(Advance(s, actions[..n]), actions[n]);
    }
  }

  /** What a move must see to, for the invariant to hold after it. */
  ghost predicate Proper(cfg: Config, s: State, rid: string, m: Move) {
    && Performs(s.approvals, m.approvals)
    && (m.audit.Some? ==> Audit.Enabled(cfg.audit, s.audit, m.audit.value))
    && ThreadOk(Apply(cfg, s, rid, m), rid)
    && (rid in s.threads && !Ahead(s.threads[rid]) ==> !Ahead(m.thread) && rid in s.cases && m.about == s.cases[rid])
    && (m.call.Some? ==>
          m.call.value.rid == rid && rid in s.threads && Ahead(s.threads[rid]) && CallOk(Apply(cfg, s, rid, m), m.call.value))
  }

  lemma ApplyInv(cfg: Config, s: State, rid: string, m: Move)
    requires Inv(s) && Proper(cfg, s, rid, m)
    ensures Inv(Apply(cfg, s, rid, m))
  {
    var t := Apply(cfg, s, rid, m);
    AdvanceKeeps(s.approvals, m.approvals);
    if m.audit.Some? { AuditGrows(cfg, s.audit, m.audit.value); }
    forall r | r in t.threads ensures ThreadOk(t, r) {
      if r != rid { StaysPut(s, t, r); }
    }
    forall i | 0 <= i < |s.calls| ensures CallOk(t, s.calls[i]) {
      CallStays(s, t, s.calls[i]);
    }
  }

  lemma EnvironmentInv(cfg: Config, s: State, ev: Event)
    requires Inv(s) && Environment(ev) && Enabled(cfg, s, ev)
    ensures Inv(Step(cfg, s, ev))
  {
    var t := Step(cfg, s, ev);
    if ev.Writer? { AuditGrows(cfg, s.audit, ev.audit); }
    if ev.Humans? { ApprovalKeeps(s.approvals, ev.approval); }
    forall r | r in t.threads ensures ThreadOk(t, r) { StaysPut(s, t, r); }
    forall i | 0 <= i < |t.calls| ensures CallOk(t, t.calls[i]) { CallStays(s, t, t.calls[i]); }
  }

  /** A move that logs a verdict which fits what follows. */
  lemma LogWithProper(cfg: Config, s: State, rid: string, about: Case, params: Chain.Json, v: Verdict,
    risk: Option<Risk>, note: Note, next: Next)
    requires Chain.WellFormed(params)
    requires v == VerdictFor(next) && (next.Execute? ==> Sound(s, about, next.grounds))
    requires next.AskHuman? ==> AsksAt(about, next.risk)
    requires rid in s.threads && !Ahead(s.threads[rid]) ==>
      (next.Refuse? || next.Report?) && rid in s.cases && about == s.cases[rid]
    ensures Proper(cfg, s, rid, LogWith(s, rid, about, params, v, risk, note, next))
  {
    var record := Record(rid, about.req, params, v, risk, note);
    RecordPlain(rid, about.req, params, v, risk, note);
    RecordTells(rid, about.req, params, v, risk, note);
    LogKeeps(cfg, s, rid, about, record, v, next);
  }

  lemma LogKeeps(cfg: Config, s: State, rid: string, about: Case, record: Chain.Json, v: Verdict, next: Next)
    requires Audit.Plain(record) && Tells(Audit.Prepared(record), rid, v)
    requires v == VerdictFor(next) && (next.Execute? ==> Sound(s, about, next.grounds))
    requires next.AskHuman? ==> AsksAt(about, next.risk)
    requires rid in s.threads && !Ahead(s.threads[rid]) ==>
      (next.Refuse? || next.Report?) && rid in s.cases && about == s.cases[rid]
    ensures Proper(cfg, s, rid, Move(Logging(next, |s.audit.datas|), about, Some(Audit.Log(record)), [], None))
  {
    var t := Apply(cfg, s, rid, Move(Logging(next, |s.audit.datas|), about, Some(Audit.Log(record)), [], None));
    var data := Audit.Prepared(record);
    assert t.audit.datas == s.audit.datas + [data];
    assert t.audit.datas[|s.audit.datas|] == data;
  }

  lemma LogProper(cfg: Config, s: State, rid: string, about: Case, v: Verdict, risk: Option<Risk>, note: Note, next: Next)
    requires Sane(cfg)
    requires v == VerdictFor(next) && (next.Execute? ==> Sound(s, about, next.grounds))
    requires next.AskHuman? ==> AsksAt(about, next.risk)
    requires rid in s.threads && !Ahead(s.threads[rid]) ==>
      (next.Refuse? || next.Report?) && rid in s.cases && about == s.cases[rid]
    ensures Proper(cfg, s, rid, LogAs(cfg, s, rid, about, v, risk, note, next))
  {
    LogWithProper(cfg, s, rid, about, cfg.encode(AuditParams(about.found, about.req)), v, risk, note, next);
  }

  lemma AnnounceProper(cfg: Config, s: State, rid: string, about: Case, d: Decision, note: Note)
    requires Sane(cfg) && Escalated(about) == Ok(d)
    requires rid in s.threads ==> Ahead(s.threads[rid])
    ensures Proper(cfg, s, rid, Announce(cfg, s, rid, about, d, note))
  {
    match d.status
    case Denied => LogProper(cfg, s, rid, about, SaysDenied, d.risk, note, Refuse);
    case ApprovalRequired => LogProper(cfg, s, rid, about, SaysApprovalRequired, d.risk, note, AskHuman(d.risk));
    case Allowed => LogProper(cfg, s, rid, about, SaysAllowed, d.risk, note, Execute(ByPolicy));
  }

  lemma RunProper(cfg: Config, s: State, ev: Event)
    requires Sane(cfg) && Inv(s) && ev.Run? && Enabled(cfg, s, ev)
    ensures Proper(cfg, s, ev.rid, RunMove(cfg, s, ev.rid, ev.req, ev.pipelines, ev.plugin, ev.note))
  {
    var about := Case(ev.req, PolicyOf(s, ev.req.agent), s.now, ev.pipelines, None);
    AnnounceProper(cfg, s, ev.rid, about, Ruling(about), ev.note);
  }

  lemma EstimatedProper(cfg: Config, s: State, ev: Event)
    requires Sane(cfg) && Inv(s) && ev.Estimated? && Enabled(cfg, s, ev)
    ensures Proper(cfg, s, ev.rid, EstimatedMove(cfg, s, ev.rid, s.cases[ev.rid], ev.estimate, ev.note))
  {
    var about := s.cases[ev.rid].(estimate := ev.estimate);
    assert ThreadOk(s, ev.rid);
    if Escalated(about).Ok? { AnnounceProper(cfg, s, ev.rid, about, Escalated(about).value, ev.note); }
  }

  lemma ResumeProper(cfg: Config, s: State, ev: Event)
    requires Inv(s) && ev.Resume? && Enabled(cfg, s, ev)
    ensures Proper(cfg, s, ev.rid, ResumeMove(s, ev.rid, s.threads[ev.rid], s.cases[ev.rid], ev.newId))
  {
    var m := ResumeMove(s, ev.rid, s.threads[ev.rid], s.cases[ev.rid], ev.newId);
    assert ThreadOk(s, ev.rid);
    if m.approvals != [] {
      var create, wait := m.approvals[0], m.approvals[1];
      assert m.approvals[..2] == m.approvals && m.approvals[..1] == [create] && m.approvals[..0] == [];
      assert [create][..0] == [];
      assert Advance(s.approvals, [create]) == Approvals.Step(s.approvals, create);
      assert Advance(s.approvals, m.approvals) == Approvals.Step(Approvals.Step(s.approvals, create), wait);
      assert Performs(s.approvals, m.approvals);
    }
  }

  lemma AdvanceOne(s: Approvals.State, a: Approvals.Action)
    ensures Advance(s, [a]) == Approvals.Step(s, a)
    ensures Approvals.Enabled(s, a) ==> Performs(s, [a])
  {
    assert [a][..0] == [];
    assert Advance(s, []) == s;
    if Approvals.Enabled(s, a) {
      forall n | 0 <= n < |[a]| ensures Approvals.Enabled(Advance(s, [a][..n]), [a][n]) { assert n == 0; }
    }
  }

  lemma AnsweredProper(cfg: Config, s: State, ev: Event)
    requires Sane(cfg) && Inv(s) && ev.Answered? && Enabled(cfg, s, ev)
    ensures Proper(cfg, s, ev.rid, AnsweredMove(cfg, s, ev.rid, s.threads[ev.rid], s.cases[ev.rid], ev.timedOut, ev.note))
  {
    var rid, about, w := ev.rid, s.cases[ev.rid], s.threads[ev.rid].approval;
    var risk := s.threads[rid].risk;
    assert ThreadOk(s, rid);
    var a := Wakening(ev.timedOut, w);
    AdvanceOne(s.approvals, a);
    var s1 := s.(approvals := Approvals.Step(s.approvals, a));
    if SaysYes(s, ev.timedOut, w) {
      LogProper(cfg, s1, rid, about, SaysApproved, risk, ev.note, Execute(ByHuman(w)));
    } else {
      LogProper(cfg, s1, rid, about, SaysDenied, risk, ev.note, Refuse);
    }
  }

  lemma ApprovedProper(cfg: Config, s: State, ev: Event)
    requires Sane(cfg) && Inv(s) && ev.ExecuteApproved? && Enabled(cfg, s, ev)
    ensures Proper(cfg, s, ev.rid, ApprovedMove(cfg, s, ev.rid, s.cases[ev.rid].req, ev.pipelines, ev.note))
  {
    var req := s.cases[ev.rid].req;
    var about := Case(req, PolicyOf(s, req.agent), s.now, ev.pipelines, None);
    var d := Ruling(about);
    if d.status.Denied? {
      LogProper(cfg, s, ev.rid, about, SaysDenied, None, ev.note, Refuse);
    } else {
      LogProper(cfg, s, ev.rid, about, SaysApproved, d.risk, ev.note, Execute(ByConfirmation));
    }
  }

  lemma ToolProper(cfg: Config, s: State, ev: Event)
    requires ev.RunWithConfirm? && Enabled(cfg, s, ev)
    ensures Proper(cfg, s, ev.rid, ToolMove(s, ev.rid, ev.req, ev.pipelines, ev.note))
  {
    var about := Case(ev.req, PolicyOf(s, ev.req.agent), s.now, ev.pipelines, None);
    if Ruling(about).status.Allowed? {
      LogWithProper(cfg, s, ev.rid, about, Chain.Null, SaysAllowed, Ruling(about).risk, ev.note, Execute(ByTool));
    }
  }

  lemma ReturnedProper(cfg: Config, s: State, ev: Event)
    requires Sane(cfg) && Inv(s) && ev.Returned? && Enabled(cfg, s, ev)
    ensures Proper(cfg, s, ev.rid, ReturnedMove(cfg, s, ev.rid, s.cases[ev.rid], ev.ok, ev.note))
  {
    if !ev.ok { LogProper(cfg, s, ev.rid, s.cases[ev.rid], SaysError, None, ev.note, Report); }
  }

  lemma StepInv(cfg: Config, s: State, ev: Event)
    requires Sane(cfg) && Inv(s) && Enabled(cfg, s, ev)
    ensures Inv(Step(cfg, s, ev))
  {
    if Environment(ev) {
      EnvironmentInv(cfg, s, ev);
    } else {
      MoveProper(cfg, s, ev);
      ApplyInv(cfg, s, ev.rid, MoveOf(cfg, s, ev));
    }
  }

  lemma MoveProper(cfg: Config, s: State, ev: Event)
    requires Sane(cfg) && Inv(s) && Enabled(cfg, s, ev) && !Environment(ev)
    ensures Possible(s, ev) && Proper(cfg, s, ev.rid, MoveOf(cfg, s, ev))
  {
    match ev
    case Run(_, _, _, _, _) => RunProper(cfg, s, ev);
    case Estimated(_, _, _) => EstimatedProper(cfg, s, ev);
    case RunWithConfirm(_, _, _, _) => ToolProper(cfg, s, ev);
    case Resume(_, _) => ResumeProper(cfg, s, ev);
    case Answered(_, _, _) => AnsweredProper(cfg, s, ev);
    case ExecuteApproved(_, _, _) => ApprovedProper(cfg, s, ev);
    case Returned(_, _, _) => ReturnedProper(cfg, s, ev);
    case _ =>
  }
}
