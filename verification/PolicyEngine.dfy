/** The authorisation decision: risk, the rule cascade with its optional trace, and the checks
    the pipeline makes before it. */
module PolicyEngine {
  import opened Common
  import opened Values
  import opened Policies
  import opened MongoGuard

  datatype Action =
    | Find | Aggregate | Count | Explain | CollectionSchema | CollectionIndexes | ListDatabases | DbStats | InsertOne | InsertMany
    | UpdateOne | UpdateMany | DeleteOne | DeleteMany | Drop | CreateIndex | DropIndex | CreateCollection | RenameCollection
    | StorageSize | Logs | AggregateDb

  function ActionName(a: Action): string {
    match a
    case Find => "find" case Aggregate => "aggregate" case Count => "count" case Explain => "explain"
    case CollectionSchema => "collection_schema" case CollectionIndexes => "collection_indexes"
    case ListDatabases => "list_databases" case DbStats => "db_stats" case InsertOne => "insert_one"
    case InsertMany => "insert_many" case UpdateOne => "update_one" case UpdateMany => "update_many"
    case DeleteOne => "delete_one" case DeleteMany => "delete_many" case Drop => "drop" case CreateIndex => "create_index"
    case DropIndex => "drop_index" case CreateCollection => "create_collection" case RenameCollection => "rename_collection"
    case StorageSize => "collection_storage_size" case Logs => "mongodb_logs" case AggregateDb => "aggregate_db"
  }

  predicate Writes(a: Action) {
    a in {InsertOne, InsertMany, UpdateOne, UpdateMany, DeleteOne, DeleteMany, Drop, CreateIndex, DropIndex,
          CreateCollection, RenameCollection}
  }

  predicate DbLevel(a: Action) { a in {ListDatabases, DbStats, Logs, AggregateDb} }

  datatype Risk = Low | Medium | High | Critical

  function Rank(r: Risk): nat { match r case Low => 0 case Medium => 1 case High => 2 case Critical => 3 }

  datatype Status = Allowed | Denied | ApprovalRequired

  datatype Code = PolicyDenied | ReadonlyMode | CollectionNotAllowed | ActionNotAllowed | DatabaseNotAllowed

  /** A decision without its prose. */
  datatype Decision = Decision(status: Status, risk: Option<Risk>, code: Option<Code>)

  function Deny(risk: Option<Risk>, code: Code): Decision { Decision(Denied, risk, Some(code)) }

  datatype Request = Request(agent: string, collection: string, action: Action, params: seq<Entry>, database: Option<string>)

  // -------------------------------------------------------------------- risk

  function BaseRisk(a: Action): Risk {
    match a
    case Find => Low case Count => Low case Explain => Low case CollectionSchema => Low case CollectionIndexes => Low
    case ListDatabases => Low case DbStats => Low case StorageSize => Low case Logs => Low
    case Aggregate => High case AggregateDb => High case InsertOne => Medium case InsertMany => Medium
    case UpdateOne => High case UpdateMany => High case DeleteOne => High case DeleteMany => Critical
    case CreateIndex => Medium case DropIndex => High case Drop => Critical case CreateCollection => Medium
    case RenameCollection => High
  }

  predicate ScopeSensitive(a: Action) { a in {UpdateOne, UpdateMany, DeleteOne, DeleteMany} }

  function Classify(a: Action, params: seq<Entry>): Risk {
    if ScopeSensitive(a) && !Truthy(Lookup(params, "filter")) then Critical else BaseRisk(a)
  }

  // ----------------------------------------------------------- rule cascade

  predicate Gate(p: Policy, risk: Risk) { (risk.Critical? && p.approveCritical) || (risk.High? && p.approveHigh) }

  function Gated(p: Policy, risk: Risk): Decision {
    Decision(if Gate(p, risk) then ApprovalRequired else Allowed, Some(risk), None)
  }

  function ActionsDecide(p: Policy, name: string, risk: Risk): Decision {
    if name in p.actions.deny then Deny(Some(risk), ActionNotAllowed)
    else if p.actions.allow != [] && name !in p.actions.allow then Deny(Some(risk), ActionNotAllowed)
    else Gated(p, risk)
  }

  /** `PolicyEngine.evaluate` without a trace. */
  function Decide(req: Request, p: Policy, risk: Risk, database: Option<string>): Decision {
    var scope := ScopeFor(p, database);
    if p.mode.ReadOnly? && Writes(req.action) then Deny(Some(risk), ReadonlyMode)
    else if !DbLevel(req.action) && !Permitted(req.collection, scope.collections) then Deny(Some(risk), CollectionNotAllowed)
    else ActionsDecide(p, ActionName(req.action), risk)
  }

  datatype Rule =
    | PolicyLookup | TemporalWindow | DatabaseAccess | AggregationGuard | ReadonlyRule | CollectionAccess | ActionDeny | ActionAllow
    | ApprovalCritical | ApprovalHigh | ApprovalGate | DefaultAllow

  datatype Mark = Matched | Passed | Skipped

  datatype TraceStep = TraceStep(rule: Rule, result: Mark)

  class Trace {
    var steps: seq<TraceStep>

    constructor ()
      ensures steps == []
    {
      steps := [];
    }

    method Add(rule: Rule, result: Mark)
      modifies this
      ensures steps == old(steps) + [TraceStep(rule, result)]
    {
      steps := steps + [TraceStep(rule, result)];
    }
  }

  /** One step matched, and it is the last. */
  ghost predicate MatchedLast(steps: seq<TraceStep>) {
    && steps != []
    && Last(steps).result == Matched
    && forall i :: 0 <= i < |steps| - 1 ==> steps[i].result != Matched
  }

  ghost predicate NoneMatched(steps: seq<TraceStep>) { forall i :: 0 <= i < |steps| ==> steps[i].result != Matched }

  /** What an evaluation leaves in its trace, after what was there. */
  ghost predicate Traced(before: seq<TraceStep>, after: seq<TraceStep>, decision: Decision) {
    && before <= after
    && (NoneMatched(before) ==> MatchedLast(after))
    && (after != [] ==> Explains(Last(after).rule, decision))
  }

  /** The rule that matched is the reason for the decision. */
  predicate Explains(rule: Rule, d: Decision) {
    match rule
    case PolicyLookup => d == Deny(None, PolicyDenied)
    case TemporalWindow => d == Deny(None, PolicyDenied)
    case DatabaseAccess => d == Deny(None, DatabaseNotAllowed)
    case AggregationGuard => d.status.Denied? && d.risk.None?
    case ReadonlyRule => d.status.Denied? && d.code == Some(ReadonlyMode)
    case CollectionAccess => d.status.Denied? && d.code == Some(CollectionNotAllowed)
    case ActionDeny => d.status.Denied? && d.code == Some(ActionNotAllowed)
    case ActionAllow => d.status.Denied? && d.code == Some(ActionNotAllowed)
    case ApprovalCritical => d == Decision(ApprovalRequired, Some(Critical), None)
    case ApprovalHigh => d == Decision(ApprovalRequired, Some(High), None)
    case ApprovalGate => false
    case DefaultAllow => d.status.Allowed?
  }

  /** Rules were checked and none of them decided. */
  ghost predicate Undecided(before: seq<TraceStep>, after: seq<TraceStep>) {
    before <= after && (NoneMatched(before) ==> NoneMatched(after))
  }

  /** A rule that was satisfied, or does not apply, is noted if there is a trace. */
  method Note(trace: Trace?, rule: Rule, result: Mark)
    requires result != Matched
    modifies trace
    ensures trace != null ==> Undecided(old(trace.steps), trace.steps)
  {
    if trace != null {
      trace.Add(rule, result);
    }
  }

  /** The rule that decides is noted. */
  method Conclude(trace: Trace?, rule: Rule, d: Decision)
    requires Explains(rule, d)
    modifies trace
    ensures trace != null ==> Traced(old(trace.steps), trace.steps, d)
  {
    if trace != null {
      trace.Add(rule, Matched);
    }
  }

  /** The last rule: approval gates. */
  method EvaluateGates(p: Policy, risk: Risk, trace: Trace?) returns (d: Decision)
    modifies trace
    ensures d == Gated(p, risk)
    ensures trace != null ==> Traced(old(trace.steps), trace.steps, d)
  {
    if risk == Critical && p.approveCritical {
      d := Decision(ApprovalRequired, Some(risk), None);
      Conclude(trace, ApprovalCritical, d);
      return;
    }
    if risk == High && p.approveHigh {
      d := Decision(ApprovalRequired, Some(risk), None);
      Conclude(trace, ApprovalHigh, d);
      return;
    }
    Note(trace, ApprovalGate, Passed);
    d := Decision(Allowed, Some(risk), None);
    Conclude(trace, DefaultAllow, d);
  }

  /** The rules about actions, and then the gates. */
  method EvaluateActions(p: Policy, name: string, risk: Risk, trace: Trace?) returns (d: Decision)
    modifies trace
    ensures d == ActionsDecide(p, name, risk)
    ensures trace != null ==> Traced(old(trace.steps), trace.steps, d)
  {
    if name in p.actions.deny {
      d := Deny(Some(risk), ActionNotAllowed);
      Conclude(trace, ActionDeny, d);
      return;
    }
    Note(trace, ActionDeny, Passed);
    if p.actions.allow != [] && name !in p.actions.allow {
      d := Deny(Some(risk), ActionNotAllowed);
      Conclude(trace, ActionAllow, d);
      return;
    }
    Note(trace, ActionAllow, Passed);
    d := EvaluateGates(p, risk, trace);
  }

  /** The cascade with its recorder: the decision does not depend on it, and the one step that
      matched is the last and tells the reason. */
  method Evaluate(req: Request, p: Policy, risk: Risk, trace: Trace?, database: Option<string>) returns (d: Decision)
    modifies trace
    ensures d == Decide(req, p, risk, database)
    ensures trace != null ==> Traced(old(trace.steps), trace.steps, d)
  {
    var scope := ScopeFor(p, database);
    if p.mode == ReadOnly && Writes(req.action) {
      d := Deny(Some(risk), ReadonlyMode);
      Conclude(trace, ReadonlyRule, d);
      return;
    }
    Note(trace, ReadonlyRule, Passed);
    if !DbLevel(req.action) {
      if !Permitted(req.collection, scope.collections) {
        d := Deny(Some(risk), CollectionNotAllowed);
        Conclude(trace, CollectionAccess, d);
        return;
      }
      Note(trace, CollectionAccess, Passed);
    } else {
      Note(trace, CollectionAccess, Skipped);
    }
    d := EvaluateActions(p, ActionName(req.action), risk, trace);
  }

  // ------------------------------------------------- before the cascade

  predicate InWindow(p: Policy, now: int) {
    (p.notBefore.Some? ==> p.notBefore.value.utc <= now) && (p.notAfter.Some? ==> now <= p.notAfter.value.utc)
  }

  function PipelineOf(req: Request): Val { Lookup(req.params, "pipeline") }

  /** `_guard_aggregation`; a backend without pipelines has nothing to guard. */
  function GuardAggregation(req: Request, p: Policy, pipelines: bool): Option<Decision> {
    var stages := PipelineOf(req);
    if !Truthy(stages) || !pipelines then None
    else if exists ref :: ref in Collections(stages) && !Permitted(ref, ScopeFor(p, req.database).collections)
    then Some(Deny(None, CollectionNotAllowed))
    else if MaskedRefs(stages, Elements(MaskFieldsFor(p, req.collection, req.database))) != {} then Some(Deny(None, PolicyDenied))
    else None
  }

  /** `GuardPipeline.evaluate` at time `now` under the policy found for the agent. */
  function Judge(found: Option<Policy>, req: Request, now: int, pipelines: bool): Decision {
    if found.None? then Deny(None, PolicyDenied)
    else
      var p := found.value;
      if !InWindow(p, now) then Deny(None, PolicyDenied)
      else if !DatabasePermitted(p, req.database) then Deny(None, DatabaseNotAllowed)
      else
        var guard := GuardAggregation(req, p, pipelines);
        if guard.Some? then guard.value else Decide(req, p, Classify(req.action, req.params), req.database)
  }

  method EvaluateRequest(found: Option<Policy>, req: Request, now: int, pipelines: bool, trace: Trace?) returns (d: Decision)
    modifies trace
    ensures d == Judge(found, req, now, pipelines)
    ensures trace != null ==> Traced(old(trace.steps), trace.steps, d)
  {
    if found.None? {
      d := Deny(None, PolicyDenied);
      Conclude(trace, PolicyLookup, d);
      return;
    }
    var p := found.value;
    if !InWindow(p, now) {
      d := Deny(None, PolicyDenied);
      Conclude(trace, TemporalWindow, d);
      return;
    }
    if p.notBefore.Some? || p.notAfter.Some? {
      Note(trace, TemporalWindow, Passed);
    }
    if !DatabasePermitted(p, req.database) {
      d := Deny(None, DatabaseNotAllowed);
      Conclude(trace, DatabaseAccess, d);
      return;
    }
    var guard := GuardAggregation(req, p, pipelines);
    if guard.Some? {
      d := guard.value;
      Conclude(trace, AggregationGuard, d);
      return;
    }
    if Truthy(PipelineOf(req)) {
      Note(trace, AggregationGuard, Passed);
    }
    d := Evaluate(req, p, Classify(req.action, req.params), trace, req.database);
  }

  // ------------------------------------------------------ what is permitted

  /** The policy forbids the request outright: it is not in force now, or the database, a write in
      readonly mode, the collection, the action, or something the pipeline reaches is refused. */
  ghost predicate Forbidden(p: Policy, req: Request, now: int, pipelines: bool) {
    || (p.notBefore.Some? && now < p.notBefore.value.utc)
    || (p.notAfter.Some? && p.notAfter.value.utc < now)
    || (req.database.Some? && p.databasesAllow != [] && req.database.value !in p.databasesAllow)
    || (p.mode.ReadOnly? && !ReadsOnly(req.action))
    || (req.action !in {ListDatabases, DbStats, Logs, AggregateDb} && !InBounds(p, req.database, req.collection))
    || ActionName(req.action) in p.actions.deny
    || (p.actions.allow != [] && ActionName(req.action) !in p.actions.allow)
    || (pipelines && Reaches(p, req))
  }

  predicate ReadsOnly(a: Action) {
    a in {Find, Aggregate, Count, Explain, CollectionSchema, CollectionIndexes, ListDatabases, DbStats, StorageSize, Logs,
          AggregateDb}
  }

  /** The pipeline names a collection out of bounds, or a masked field. */
  ghost predicate Reaches(p: Policy, req: Request) {
    || (exists c :: Mentions(PipelineOf(req), c) && !InBounds(p, req.database, c))
    || (exists f :: Refers(PipelineOf(req), f) && MaskedIn(p, req.database, req.collection, f))
  }

  /** Changing one document is less than changing many, and changing without a filter is worst. */
  predicate ChangesAll(req: Request) {
    || req.action in {DeleteMany, Drop}
    || (req.action in {UpdateOne, UpdateMany, DeleteOne} && !Truthy(Lookup(req.params, "filter")))
  }

  predicate ChangesMuch(req: Request) {
    || req.action in {Aggregate, AggregateDb, DropIndex, RenameCollection}
    || (req.action in {UpdateOne, UpdateMany, DeleteOne} && Truthy(Lookup(req.params, "filter")))
  }

  predicate ChangesLittle(req: Request) { req.action in {InsertOne, InsertMany, CreateIndex, CreateCollection} }

  /** How a request is classified, by its action and whether it has a filter. */
  lemma ClassifiedExactly(req: Request)
    ensures var r := Classify(req.action, req.params);
      && (r == Critical <==> ChangesAll(req)) && (r == High <==> ChangesMuch(req))
      && (r == Medium <==> ChangesLittle(req))
      && (r == Low <==> req.action in {Find, Count, Explain, CollectionSchema, CollectionIndexes, ListDatabases, DbStats,
                                       StorageSize, Logs})
  {
  }

  /** The names by which requests and policies call the actions. */
  function ParseAction(name: string): Option<Action> {
    match name
    case "find" => Some(Find) case "aggregate" => Some(Aggregate) case "count" => Some(Count)
    case "explain" => Some(Explain) case "collection_schema" => Some(CollectionSchema)
    case "collection_indexes" => Some(CollectionIndexes) case "list_databases" => Some(ListDatabases)
    case "db_stats" => Some(DbStats) case "insert_one" => Some(InsertOne)
    case "insert_many" => Some(InsertMany) case "update_one" => Some(UpdateOne)
    case "update_many" => Some(UpdateMany) case "delete_one" => Some(DeleteOne)
    case "delete_many" => Some(DeleteMany) case "drop" => Some(Drop) case "create_index" => Some(CreateIndex)
    case "drop_index" => Some(DropIndex) case "create_collection" => Some(CreateCollection)
    case "rename_collection" => Some(RenameCollection) case "collection_storage_size" => Some(StorageSize)
    case "mongodb_logs" => Some(Logs) case "aggregate_db" => Some(AggregateDb)
    case _ => None
  }

  /** The name of an action is read as that action, so no two share one. */
  lemma NamesReadBack(a: Action)
    ensures ParseAction(ActionName(a)) == Some(a)
  {
    match a {
      case Find => assert ActionName(Find)[0] == 'f' && |ActionName(Find)| == 4;
      case Aggregate => assert ActionName(Aggregate)[0] == 'a' && |ActionName(Aggregate)| == 9;
      case Count => assert ActionName(Count)[0] == 'c' && |ActionName(Count)| == 5;
      case Explain => assert ActionName(Explain)[0] == 'e' && |ActionName(Explain)| == 7;
      case CollectionSchema => assert ActionName(CollectionSchema)[0] == 'c' && |ActionName(CollectionSchema)| == 17;
      case CollectionIndexes => assert ActionName(CollectionIndexes)[0] == 'c' && |ActionName(CollectionIndexes)| == 18;
      case ListDatabases => assert ActionName(ListDatabases)[0] == 'l' && |ActionName(ListDatabases)| == 14;
      case DbStats => assert ActionName(DbStats)[0] == 'd' && |ActionName(DbStats)| == 8;
      case InsertOne => assert ActionName(InsertOne)[0] == 'i' && |ActionName(InsertOne)| == 10;
      case InsertMany => assert ActionName(InsertMany)[0] == 'i' && |ActionName(InsertMany)| == 11;
      case UpdateOne => assert ActionName(UpdateOne)[0] == 'u' && |ActionName(UpdateOne)| == 10;
      case UpdateMany => assert ActionName(UpdateMany)[0] == 'u' && |ActionName(UpdateMany)| == 11;
      case DeleteOne => assert ActionName(DeleteOne)[0] == 'd' && |ActionName(DeleteOne)| == 10;
      case DeleteMany => assert ActionName(DeleteMany)[0] == 'd' && |ActionName(DeleteMany)| == 11;
      case Drop => assert ActionName(Drop)[0] == 'd' && |ActionName(Drop)| == 4;
      case CreateIndex => assert ActionName(CreateIndex)[0] == 'c' && |ActionName(CreateIndex)| == 12;
      case DropIndex => assert ActionName(DropIndex)[0] == 'd' && |ActionName(DropIndex)| == 10;
      case CreateCollection => assert ActionName(CreateCollection)[0] == 'c' && |ActionName(CreateCollection)| == 17;
      case RenameCollection => assert ActionName(RenameCollection)[0] == 'r' && |ActionName(RenameCollection)| == 17;
      case StorageSize => assert ActionName(StorageSize)[0] == 'c' && |ActionName(StorageSize)| == 23;
      case Logs => assert ActionName(Logs)[0] == 'm' && |ActionName(Logs)| == 12;
      case AggregateDb => assert ActionName(AggregateDb)[0] == 'a' && |ActionName(AggregateDb)| == 12;
    }
  }

  lemma MaskedPathExists(node: Val, masked: set<string>)
    ensures MaskedRefs(node, masked) != {} <==> exists f :: f in masked && Refers(node, f)
  {
    if MaskedRefs(node, masked) != {} {
      var f :| f in MaskedRefs(node, masked);
      MaskedRefsExact(node, masked, f);
    }
    if f :| f in masked && Refers(node, f) {
      MaskedRefsExact(node, masked, f);
    }
  }

  lemma GuardExact(p: Policy, req: Request)
    requires Truthy(PipelineOf(req))
    ensures GuardAggregation(req, p, true).Some? <==> Reaches(p, req)
    ensures GuardAggregation(req, p, true).Some? ==> GuardAggregation(req, p, true).value.status.Denied?
  {
    var stages := PipelineOf(req);
    var masked := Elements(MaskFieldsFor(p, req.collection, req.database));
    forall c ensures c in Collections(stages) <==> Mentions(stages, c) { CollectionsExact(stages, c); }
    forall c ensures Permitted(c, ScopeFor(p, req.database).collections) <==> InBounds(p, req.database, c) {
      BoundsExact(p, req.database, c);
    }
    forall f ensures f in masked <==> MaskedIn(p, req.database, req.collection, f) {
      MaskFieldsExact(p, req.collection, req.database, f);
    }
    MaskedPathExists(stages, masked);
  }

  lemma NothingReached(p: Policy, req: Request)
    requires !Truthy(PipelineOf(req))
    ensures !Reaches(p, req)
  {
  }

  /** In force now, and the database may be used. */
  predicate Applies(p: Policy, database: Option<string>, now: int) {
    && (p.notBefore.Some? ==> p.notBefore.value.utc <= now) && (p.notAfter.Some? ==> now <= p.notAfter.value.utc)
    && (database.Some? && p.databasesAllow != [] ==> database.value in p.databasesAllow)
  }

  /** The request is turned down before its own action and collection are looked at. */
  lemma TurnedDownExactly(p: Policy, req: Request, now: int, pipelines: bool)
    ensures var early := !Applies(p, req.database, now) || (pipelines && Reaches(p, req));
      && (early ==> Judge(Some(p), req, now, pipelines).status.Denied? && Judge(Some(p), req, now, pipelines).risk.None?)
      && (!early ==>
            Judge(Some(p), req, now, pipelines) == Decide(req, p, Classify(req.action, req.params), req.database))
  {
    if Truthy(PipelineOf(req)) { GuardExact(p, req); } else { NothingReached(p, req); }
  }

  lemma CascadeExactly(p: Policy, req: Request, risk: Risk)
    ensures var d := Decide(req, p, risk, req.database);
      && d.risk == Some(risk)
      && (d.status.Denied? <==>
            || (p.mode.ReadOnly? && !ReadsOnly(req.action))
            || (req.action !in {ListDatabases, DbStats, Logs, AggregateDb} && !InBounds(p, req.database, req.collection))
            || ActionName(req.action) in p.actions.deny
            || (p.actions.allow != [] && ActionName(req.action) !in p.actions.allow))
      && (!d.status.Denied? ==>
            && d.code.None?
            && (d.status.ApprovalRequired?
                <==> (p.approveCritical && risk == Critical) || (p.approveHigh && risk == High)))
  {
    BoundsExact(p, req.database, req.collection);
  }

  /** The decision, all inputs: denied exactly when the policy is missing or forbids the request;
      otherwise human approval is asked exactly when the policy asks it for what the request may
      change, all or much. */
  lemma JudgedExactly(found: Option<Policy>, req: Request, now: int, pipelines: bool)
    ensures var d := Judge(found, req, now, pipelines);
      && (d.status.Denied? <==> found.None? || Forbidden(found.value, req, now, pipelines))
      && (d.status.ApprovalRequired? <==>
            && !d.status.Denied?
            && ((found.value.approveCritical && ChangesAll(req)) || (found.value.approveHigh && ChangesMuch(req))))
      && (!d.status.Denied? ==> d.risk == Some(Classify(req.action, req.params)) && d.code.None?)
  {
    ClassifiedExactly(req);
    if found.Some? {
      TurnedDownExactly(found.value, req, now, pipelines);
      CascadeExactly(found.value, req, Classify(req.action, req.params));
    }
  }

  lemma GateMeans(p: Policy, req: Request)
    ensures Gate(p, Classify(req.action, req.params))
      <==> (p.approveCritical && ChangesAll(req)) || (p.approveHigh && ChangesMuch(req))
  {
    ClassifiedExactly(req);
  }

  /** Why it is denied: by the first of these reasons that holds. */
  lemma ReasonExactly(found: Option<Policy>, req: Request, now: int, pipelines: bool)
    requires Judge(found, req, now, pipelines).status.Denied?
    ensures Judge(found, req, now, pipelines).code == Some(
      if found.None? then PolicyDenied
      else
        var p := found.value;
        if !Applies(p, None, now) then PolicyDenied
        else if !Applies(p, req.database, now) then DatabaseNotAllowed
        else if pipelines && (exists c :: Mentions(PipelineOf(req), c) && !InBounds(p, req.database, c))
        then CollectionNotAllowed
        else if pipelines && (exists f :: Refers(PipelineOf(req), f) && MaskedIn(p, req.database, req.collection, f))
        then PolicyDenied
        else if p.mode.ReadOnly? && !ReadsOnly(req.action) then ReadonlyMode
        else if req.action !in {ListDatabases, DbStats, Logs, AggregateDb} && !InBounds(p, req.database, req.collection)
        then CollectionNotAllowed
        else ActionNotAllowed)
  {
    if found.Some? {
      var p := found.value;
      TurnedDownExactly(p, req, now, pipelines);
      CascadeExactly(p, req, Classify(req.action, req.params));
      BoundsExact(p, req.database, req.collection);
      if pipelines && Applies(p, req.database, now) && Reaches(p, req) { GuardReason(p, req); }
    }
  }

  lemma GuardReason(p: Policy, req: Request)
    requires Reaches(p, req)
    ensures GuardAggregation(req, p, true) == Some(Deny(None,
      if exists c :: Mentions(PipelineOf(req), c) && !InBounds(p, req.database, c) then CollectionNotAllowed else PolicyDenied))
  {
    if !Truthy(PipelineOf(req)) { NothingReached(p, req); }
    GuardExact(p, req);
    forall c ensures c in Collections(PipelineOf(req)) <==> Mentions(PipelineOf(req), c) {
      CollectionsExact(PipelineOf(req), c);
    }
    forall c ensures Permitted(c, ScopeFor(p, req.database).collections) <==> InBounds(p, req.database, c) {
      BoundsExact(p, req.database, c);
    }
  }

  /** Unless it is denied, an aggregation reads only collections its database's scope permits, and
      no path in it starts with a field masked there. */
  lemma PipelineStaysInBounds(p: Policy, req: Request, now: int, c: string)
    requires !Judge(Some(p), req, now, true).status.Denied?
    ensures c in PipelineReads(PipelineOf(req)) ==> InBounds(p, req.database, c)
    ensures Refers(PipelineOf(req), c) ==> !MaskedIn(p, req.database, req.collection, c)
  {
    JudgedExactly(Some(p), req, now, true);
    PipelineFound(PipelineOf(req));
    CollectionsExact(PipelineOf(req), c);
  }

  /** The gates are tied to one risk each. Asking approval for some risk and not for a higher one
      is what a policy does exactly when it gates HIGH and not CRITICAL. */
  lemma GateMonotone(p: Policy)
    ensures (forall a: Risk, b: Risk :: Rank(a) <= Rank(b) && Gate(p, a) ==> Gate(p, b))
      <==> !(p.approveHigh && !p.approveCritical)
  {
    if p.approveHigh && !p.approveCritical {
      assert Gate(p, High) && !Gate(p, Critical) && Rank(High) <= Rank(Critical);
    }
  }

  /** Under such a policy a targeted delete needs approval while the same delete without a
      filter, which is classified higher, needs none. */
  lemma UnscopedDeleteSkipsGate(p: Policy, filter: Entry, now: int)
    requires p.approveHigh && !p.approveCritical && InWindow(p, now) && p.mode.ReadWrite?
    requires Permitted("users", p.collections) && p.actions == NoAccess
    requires filter.key == "filter" && Truthy(filter.val)
    ensures Judge(Some(p), Request("a", "users", DeleteOne, [filter], None), now, true).status == ApprovalRequired
    ensures Judge(Some(p), Request("a", "users", DeleteOne, [], None), now, true).status == Allowed
  {
    var req := Request("a", "users", DeleteOne, [filter], None);
    assert Lookup([filter], "pipeline") == Lookup([filter][1..], "pipeline") == Null;
    assert Lookup([], "pipeline") == Null && Lookup([], "filter") == Null;
    assert !Truthy(PipelineOf(req));
  }

  // ------------------------------------------------------------ cost escalation

  function CostRank(c: CostLevel): nat
    requires !c.UnknownCost?
  {
    match c case LowCost => 0 case MediumCost => 1 case HighCost => 2 case CriticalCost => 3
  }

  function MaxRisk(a: Risk, b: Risk): Risk { if Rank(a) >= Rank(b) then a else b }

  function EscalatedRisk(base: Risk, cost: CostLevel): Risk {
    match cost case HighCost => MaxRisk(base, High) case CriticalCost => MaxRisk(base, Critical) case _ => base
  }

  /** Reads, aggregations, and the mutations that scan. */
  predicate Estimable(a: Action) { a in {Find, Aggregate, AggregateDb} || ScopeSensitive(a) }

  datatype Crash = UnknownThreshold

  /** `_maybe_escalate_for_cost`; `estimate` is missing when there is no plugin or it failed. A
      threshold of UNKNOWN is not in the ordering and raises. */
  function Escalate(d: Decision, p: Policy, req: Request, estimate: Option<CostLevel>): Result<Decision, Crash> {
    if p.maxCost.None? || d.status.Denied? || !Estimable(req.action) || estimate.None? || estimate.value.UnknownCost? then Ok(d)
    else if p.maxCost.value.UnknownCost? then Err(UnknownThreshold)
    else if CostRank(estimate.value) < CostRank(p.maxCost.value) then Ok(d)
    else
      var base := if d.risk.Some? then d.risk.value else Classify(req.action, req.params);
      var risk := EscalatedRisk(base, estimate.value);
      if risk == base then Ok(d)
      else Ok(d.(risk := Some(risk), status := if d.status.Allowed? && Gate(p, risk) then ApprovalRequired else d.status))
  }

  /** The estimate for a request that can be estimated reaches the policy's threshold. */
  predicate CostsTooMuch(p: Policy, req: Request, estimate: Option<CostLevel>) {
    && req.action in {Find, Aggregate, AggregateDb, UpdateOne, UpdateMany, DeleteOne, DeleteMany}
    && match (p.maxCost, estimate)
       case (Some(LowCost), Some(e)) => e in {LowCost, MediumCost, HighCost, CriticalCost}
       case (Some(MediumCost), Some(e)) => e in {MediumCost, HighCost, CriticalCost}
       case (Some(HighCost), Some(e)) => e in {HighCost, CriticalCost}
       case (Some(CriticalCost), Some(e)) => e == CriticalCost
       case _ => false
  }

  /** What escalation does, for every decision that does not deny: the risk is raised to CRITICAL by
      a critical cost, and to HIGH by a high one if it was below; otherwise it stays. Approval is
      needed exactly when it was before, or the policy asks it for the risk as raised. */
  lemma EscalatesExactly(p: Policy, req: Request, now: int, pipelines: bool, estimate: Option<CostLevel>)
    ensures var d := Judge(Some(p), req, now, pipelines); var r := Escalate(d, p, req, estimate);
      r.Ok? ==>
        if d.status.Denied? then r.value == d
        else
          var was := Classify(req.action, req.params);
          && r.value.risk == Some(
               if CostsTooMuch(p, req, estimate) && estimate.value == CriticalCost then Critical
               else if CostsTooMuch(p, req, estimate) && estimate.value == HighCost && was in {Low, Medium} then High
               else was)
          && r.value.code.None? && !r.value.status.Denied?
          && (r.value.status.ApprovalRequired?
              <==>
              || d.status.ApprovalRequired?
              || (p.approveCritical && r.value.risk == Some(Critical)) || (p.approveHigh && r.value.risk == Some(High)))
  {
    JudgedExactly(Some(p), req, now, pipelines);
    GateMeans(p, req);
  }

  /** Whatever the estimate says, escalation never denies, never allows what was not allowed and
      never lowers the risk; what is not denied needs approval exactly when the policy gates the
      risk before or after it. */
  lemma EscalationOnlyTightens(found: Option<Policy>, req: Request, now: int, pipelines: bool, estimate: Option<CostLevel>)
    requires found.Some?
    ensures var d := Judge(found, req, now, pipelines); var r := Escalate(d, found.value, req, estimate);
      r.Ok? ==>
        && (r.value.status.Denied? <==> d.status.Denied?)
        && (r.value.status.Allowed? ==> d.status.Allowed?)
        && (!d.status.Denied? ==> r.value.risk.Some? && Rank(r.value.risk.value) >= Rank(d.risk.value))
        && (!d.status.Denied? ==>
              (r.value.status.ApprovalRequired?
               <==> Gate(found.value, Classify(req.action, req.params)) || Gate(found.value, r.value.risk.value)))
  {
    JudgedExactly(found, req, now, pipelines);
    GateMeans(found.value, req);
    EscalatesExactly(found.value, req, now, pipelines, estimate);
  }

  /** Escalation raises exactly for a threshold of UNKNOWN, once an estimate is at hand. */
  lemma EscalationCrashesExactly(d: Decision, p: Policy, req: Request, estimate: Option<CostLevel>)
    ensures Escalate(d, p, req, estimate).Err?
      <==>
      && p.maxCost == Some(UnknownCost) && !d.status.Denied?
      && req.action in {Find, Aggregate, AggregateDb, UpdateOne, UpdateMany, DeleteOne, DeleteMany}
      && estimate.Some? && estimate.value in {LowCost, MediumCost, HighCost, CriticalCost}
  {
  }
}
