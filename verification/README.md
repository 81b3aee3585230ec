# Verified model of the GuardMCP core

GuardMCP is a policy gateway in front of databases: it authorises an agent's request, may ask a
human, writes a tamper-evident audit record, executes the request and masks the result. This
project models its core and proves what that core is for. Code that changes things step by step
(the writer, the limiter, the approval store, the caches, the loops) is modelled as classes and
methods, each proved against a function; the functions carry the theorems.

| module | models |
|---|---|
| `Common`, `Values` | orders, a stable sort, dotted names; Python values and dicts |
| `RateLimiter` | the token bucket per agent, over whole runs |
| `Masking`, `Reaching`, `Responses`, `LoggedParams` | masking, the fused transformer, what can be read of a masked value and of a response, and which parameters reach the audit log |
| `CrossDb`, `TransitivePaths` | merging edges, enumerating simple paths |
| `PathNames`, `MergeOrder`, `PathOrder` | when paths over joined names are paths over nodes, and what the order of the input decides |
| `AuditChain`, `AuditTamper` | the HMAC chain, its verifier, and what tampering it reports |
| `AuditLogger`, `AuditRuns`, `AuditWriter` | the batching writer as a state machine, its runs, and the object that performs the steps |
| `AuditDisk`, `AuditSigned`, `AuditFutures` | what is on disk, when its signatures form a chain, and who waits for ever, over all its runs |
| `SqlTranslate`, `SqlAcceptance`, `SqlMeaning`, `SqlReading`, `SqlSemantics`, `SqlPaging`, `SqlText` | the filter-to-SQL compiler for two dialects: what it accepts, its text and how that reads back, its meaning |
| `Approvals` | the approval store and its waiters |
| `Policies`, `PolicyEngine`, `PolicyInheritance`, `PolicyDiff` | policies and scopes, the decision, inheritance, differences |
| `Pipeline`, `PipelineRuns`, `AuditRecords` | requests, reloads, approvals and the audit writer interleaved at every await, what is executed and what the audit log says of it |
| `MongoGuard`, `Marshal`, `MarshalMeaning`, `FieldStats`, `SchemaCache` | pipeline inspection, typed filters, sample statistics, the schema cache |

## What is assumed

- The libraries are parameters. Of HMAC-SHA256 (section 2 of RFC 2104) only the length of a digest
  is assumed; results that need more assume no collision, and no genesis value, among the finitely
  many messages they speak of. Of JSON (RFC 8259) it is assumed that parsing inverts both styles of
  printing, compact and spaced, and that a printed record is one line. Only what reads a file back
  needs that.
- That the verifier accepts the log needs a secret, and that nothing is written that was signed from
  an outdated head (`AuditSigned.SafeRun`); no lines left by a failed write and no `log` inside an
  `aclose` are enough for that. Authorisation, single execution, durability under fail_closed and the
  fate of futures are proved without either.
- One `aclose` runs at a time.
- Code between two awaits is one step; steps of different tasks interleave freely. Ids (requests,
  approvals) do not repeat. Clocks do not run backwards.
- SQL conditions follow the three-valued logic of ISO/IEC 9075-2, over any comparison of values
  that are not null. `LIMIT 1` keeps any one row; without an ORDER BY rows come in any order.
- The tool layer passes each evaluation to `execute_approved` once, as
  `src/guardmcp/server/tools/_common.py` does.

## Where the code and its documentation disagree

The code is modelled; each point is proved of it, with the condition under which it shows.

- `compose_transitive_paths` calls its result deterministic regardless of input order. The set of
  paths is (`TransitivePaths.OrderIrrelevant`). The list is not, exactly when an edge of some listed
  path has a twin: another edge between the same nodes with the same two fields the other way round
  and the same evidence (`PathOrder.OrderSeenExactly`).
- It speaks of nodes as pairs of database and collection but joins the two with a dot, so it can join
  edges that do not meet (`PathNames.FalseJoin`). The paths are those over pairs exactly when edges
  meet in the joined name where they meet in the pair and nowhere else
  (`PathNames.PathsOverPairsExactly`), as they do when no two pairs share a name.
- `merge_edges` is called deterministic. Of several equally good edges of a pair the first in the
  input is kept, so the order shows exactly when some pair has two different best edges
  (`MergeOrder.MergeOrderExactly`).
- `run` does not look at the policy again once a human or the audit log made it wait; what it
  executes can be denied by then (`PipelineRuns.ExecutesThoughDenied`, `ExecutesAfterItsWindow`, `LateDenialExactly`), but not
  while the agent's policy stays and its window is open (`PipelineRuns.NoLateDenial`).
- `_audit_params` is said to scrub the values of masked fields wherever they stand in the parameters.
  A dotted entry is matched from the root of the parameters and a key with a dot matches no entry, so
  a policy that masks `user.ssn` does not keep it out of a logged filter
  (`LoggedParams.MaskedPathIsLogged`). What is logged in clear is `LoggedParams.LoggedExactly`, and
  for a filter `LoggedParams.FilterValueLogged`.
- A record logged while the log closes can stay behind the sentinel with its caller waiting, until
  the next call of `log` (`AuditFutures.StrandedExactly`, `OverlappingLogStrands`).
- The flusher is called the single writer. One that `aclose` forgets can sign from a head that another
  moves on, and break the chain though no write fails (`AuditSigned.OverlapForks`,
  `OverlapBreaksChain`); when the chain holds is `AuditSigned.ChainHoldsExactlyWhenSafe`.
- `diff_policies` compares two policies field by field and leaves out the database rules, so an empty
  diff need not mean equal decisions (`PolicyDiff.DiffIgnoresDatabases`). When it covers the requests
  that name a database is `PolicyDiff.EmptyDiffCoversExactly`.
- `build_type_map` leaves out fields of mixed types so that they are never coerced or rejected. An
  `_id` of mixed types that looks like an object id is coerced, and a sampled null is rejected where
  the other values of its field agree on a type that coerces (`FieldStats.SampledValuesPassExactly`).
- A `skip` without a `limit` is translated for MySQL into a text MySQL does not accept
  (`SqlPaging.ReadReturnsExactly`).
- `_merge` lets a child's scalar win only when it is not the default, so a child cannot return to
  readonly, and it does not carry database rules or the cost threshold, the child's own included
  (`PolicyInheritance.ResolvedSays`, `ExtendingVoidsDatabaseRule`).
- `_maybe_escalate_for_cost` says it never raises; it does for a threshold of UNKNOWN
  (`PolicyEngine.EscalationCrashesExactly`).
- Approval gates are tied to one risk each, so a higher risk can need no approval
  (`PolicyEngine.GateMonotone`).
- Masked fields keep the bounds of their dates in the statistics of the schema cache
  (`SchemaCache.RedactedCarriesNothingExactly`).
- The insert translator says all rows share the columns of the first document; further fields of
  later documents are dropped without an error (`SqlSemantics.InsertKeepsExactly`).

The model also keeps these: an update document with `$set` is reduced to it, whatever else it holds;
a column with an empty operator dict adds no condition; the identifier pattern admits one final
newline in each part; a waiter that times out decides the approval without waking others that wait for
it (`Approvals.LeftWaitingExactly`).

## Model

| member | source | states |
|---|---|---|
| RateLimiter.RateLimiter.Check | src/guardmcp/core/ratelimit/limiter.py:38-61 | one check of the shared limiter, with creation of the bucket, refill, charge and eviction, has the answer and the new map the specification gives |
| RateLimiter.RateLimiter.MaybeEvict | src/guardmcp/core/ratelimit/limiter.py:63-74 | with 1024 buckets or more exactly the idle full ones go, and the locks go with them |
| RateLimiter.WindowBound | src/guardmcp/core/ratelimit/limiter.py:38-61 | between any two checks of an agent at times s and t at most burst + rps*(t-s) are granted |
| RateLimiter.BalanceIsTightestWindow | src/guardmcp/core/ratelimit/limiter.py:48-58 | the balance is at most the refill minus the grants since any earlier check and equals it for one of them, so nothing is withheld while every window has room |
| RateLimiter.ConformingTrafficExactly | src/guardmcp/core/ratelimit/limiter.py:48-58 | all checks are granted exactly when every window of them fits burst and rate |
| RateLimiter.BucketsTrack | src/guardmcp/core/ratelimit/limiter.py:38-74 | after any run the shared map with its evictions holds for every agent the balance of that agent alone |
| RateLimiter.AnswersAreIsolated | src/guardmcp/core/ratelimit/limiter.py:38-74 | a check is granted exactly when the exact refill-minus-spend balance of that agent holds one token |
| RateLimiter.OthersDoNotMatter | src/guardmcp/core/ratelimit/limiter.py:38-74 | checks of other agents and evictions never change an answer |
| RateLimiter.EvictionNeverFires | src/guardmcp/core/ratelimit/limiter.py:63-74 | with a burst of at least one no bucket that was used is ever reclaimed |
| RateLimiter.LimiterBound | src/guardmcp/core/ratelimit/limiter.py:38-61 | the window bound over whole runs of the shared limiter, counting its actual answers |
| RateLimiter.NoBurst | src/guardmcp/core/ratelimit/limiter.py:48-58 | with a burst below one nothing is ever granted |
| RateLimiter.UnlimitedAllowsAll | src/guardmcp/core/ratelimit/limiter.py:34-44 | over every run, a limiter without a rate answers yes to every check and keeps no bucket |
| RateLimiter.EvictsExactly | src/guardmcp/core/ratelimit/limiter.py:63-74 | an eviction keeps all of fewer than 1024 buckets, and otherwise those that are not full or were used within the hour |
| Masking.SplitMaskEntries | src/guardmcp/core/masking/masker.py:12-26 | the loop sorts entries into bare names and dotted paths |
| Masking.RulesMean | src/guardmcp/core/masking/masker.py:12-26 | a rule hides the key at the end of a path exactly when the list has the key and it has no dot, or the path has several keys, none with a dot, and the list has it whole; for all keys and paths |
| Masking.Mask | src/guardmcp/core/masking/masker.py:38-66 | the recursive loop that fills a new dict computes the specified masking, depth bound included |
| Masking.Fuse | src/guardmcp/core/masking/masker.py:93-123 | so does the fused projection-and-masking loop |
| Masking.Fusion | src/guardmcp/core/masking/masker.py:78-132 | with at least one mask rule the fused transformer is projection to fields_allow (plus _id) followed by the masker, at all nestings and depths |
| Masking.FusionWithoutRules | src/guardmcp/core/masking/masker.py:93-132 | without mask rules that holds exactly when the projected result is a fixed point, that is, has nothing beyond the depth bound |
| Masking.TransformCleans | src/guardmcp/core/masking/masker.py:93-132 | the output is clean (every hidden key masked, every over-deep document redacted), and clean values are exactly the fixed points |
| Masking.TransformIdempotent | src/guardmcp/core/masking/masker.py:125-132 | transforming twice is transforming once |
| Masking.HidesExactly | src/guardmcp/core/masking/masker.py:93-132 | two results transform alike exactly when they differ only in hidden values, fields outside the allow-list and documents beyond the depth bound |
| Reaching.TransformShows | src/guardmcp/core/masking/masker.py:93-132 | a value can be read at a place of a transformed result exactly when it is at that place of the result, its first key is not projected away, and no key on the way is hidden or too deep |
| Reaching.MaskShows | src/guardmcp/core/masking/masker.py:38-76 | a value can be read at a place of a masked value exactly when it is there before, and the mask list is empty or names no key on the way, alone or by its whole path |
| CrossDb.MergeEdges | src/guardmcp/core/planning/cross_db.py:177-201 | the loop over all lists and the sort yield a merge: strictly sorted, one edge per unordered endpoint pair, the first best of the input |
| CrossDb.MergeKeepsBest | src/guardmcp/core/planning/cross_db.py:177-201 | every input edge has a merged edge of its pair that is at least as confident and, at equal confidence, at least as aligned |
| CrossDb.MergeDistinct | src/guardmcp/core/planning/cross_db.py:177-201 | no two merged edges share an unordered endpoint pair |
| CrossDb.MergeUnique | src/guardmcp/core/planning/cross_db.py:177-201 | the merge of an input is determined |
| CrossDb.MergeIdempotent | src/guardmcp/core/planning/cross_db.py:177-201 | merging a merge changes nothing |
| CrossDb.MergeViews | src/guardmcp/core/planning/cross_db.py:177-201 | on (pair, confidence, is-alignment) the merge is the set of maximal views of the input |
| CrossDb.MergeCommutes | src/guardmcp/core/planning/cross_db.py:177-201 | on those views the order of the lists does not matter |
| CrossDb.MergeAssociates | src/guardmcp/core/planning/cross_db.py:177-201 | nor does their grouping |
| MergeOrder.MergeOrderExactly | src/guardmcp/core/planning/cross_db.py:177-201 | some reordering of the input changes the merge exactly when some endpoint pair has two different best edges |
| TransitivePaths.BuildAdjacency | src/guardmcp/core/planning/cross_db.py:225-232 | the adjacency lists hold exactly the hops of the edges that are no self-loops, both ways |
| TransitivePaths.PathSearch.Dfs | src/guardmcp/core/planning/cross_db.py:237-254 | the recursive closure over seen and results records exactly the walks the specification explores |
| TransitivePaths.ExploreExact | src/guardmcp/core/planning/cross_db.py:237-254 | the search from a start visits exactly the simple walks from it with at most max_hops edges |
| TransitivePaths.KeysFixPath | src/guardmcp/core/planning/cross_db.py:239-241 | over edges with distinct endpoint pairs, the set of edge keys determines a simple path up to its direction |
| TransitivePaths.ComposedIsEnumeration | src/guardmcp/core/planning/cross_db.py:216-260 | given distinct endpoint pairs the result is exactly the simple paths of 2 to max_hops edges that start at the smaller end, each once, with the least confidence of its edges |
| TransitivePaths.ComposedSound | src/guardmcp/core/planning/cross_db.py:216-260 | without that assumption, every result is such a path |
| TransitivePaths.ComposedDistinct | src/guardmcp/core/planning/cross_db.py:239-241 | no two results have the same set of edge keys |
| TransitivePaths.ComposedComplete | src/guardmcp/core/planning/cross_db.py:216-260 | every eligible path has a result with its edge keys |
| TransitivePaths.OneOrientation | src/guardmcp/core/planning/cross_db.py:256-257 | of a path and its reverse exactly one is in the result |
| TransitivePaths.OrderIrrelevant | src/guardmcp/core/planning/cross_db.py:216-260 | the order of the input edges does not change the set of results |
| TransitivePaths.Compose | src/guardmcp/core/planning/cross_db.py:216-260 | the whole function, loops and sorts included, has these properties |
| TransitivePaths.MergeAndCompose | src/guardmcp/core/planning/cross_db.py:177-260 | on merged edges, whose endpoint pairs are distinct, exactly the good paths over joined node names are returned |
| PathNames.PathsOverPairsExactly | src/guardmcp/core/planning/cross_db.py:204-260 | given distinct endpoint pairs, the result is exactly the simple paths over (database, collection) pairs from their smaller end if and only if any two edges meet in a joined name just where they meet in a pair, or max_hops is below 2 |
| PathNames.PathsOverPairs | src/guardmcp/core/planning/cross_db.py:204-260 | with no two (database, collection) pairs of one name, and distinct endpoint pairs, the result is exactly the simple paths over pairs from their smaller end |
| PathNames.MergeAndComposePairs | src/guardmcp/core/planning/cross_db.py:177-260 | the same of merged edges, without a condition on their endpoint pairs |
| PathNames.UndottedUnambiguous | src/guardmcp/core/planning/cross_db.py:204-205 | names are different if no database name has a dot |
| PathNames.FalseJoin | src/guardmcp/core/planning/cross_db.py:204-205 | edges that end in collection c of database a.b and start in collection b.c of database a are reported as one path although no path over pairs has them |
| PathOrder.OrderSeenExactly | src/guardmcp/core/planning/cross_db.py:216-260 | given distinct endpoint pairs, some reordering of the input changes the list exactly when an edge of a listed path has a twin: same nodes, same two fields, same evidence |
| PathOrder.UntiedSameList | src/guardmcp/core/planning/cross_db.py:259-260 | given distinct endpoint pairs, when no two results tie on nodes and evidence every order of the input gives the same list |
| PathOrder.ListedInOrder | src/guardmcp/core/planning/cross_db.py:237-260 | of two results with the same nodes and evidence the one whose hop is listed first where they part comes first |
| AuditChain.VerifyChain | src/guardmcp/core/audit/verify.py:86-162 | the verifier loop, with its counter and its running digest, has the answer the specification gives |
| AuditChain.VerifierExactly | src/guardmcp/core/audit/verify.py:86-162 | for every text the answer is the one for the chained records its non-blank lines begin with, decided by the next line: none (empty or ok), not JSON, not an object (an exception), unsigned, or signed with another digest than expected, each with its status, count, line number and digests; also for a missing file or secret |
| AuditChain.FileLinesExactly | src/guardmcp/core/audit/verify.py:108-112 | the lines checked are the non-blank lines, all of them, stripped, in order and each with its number in the file |
| AuditChain.LinesExactly | src/guardmcp/core/audit/verify.py:108-109 | the lines of a text put together again are the text |
| AuditChain.StripExactly | src/guardmcp/core/audit/verify.py:110-112 | stripping takes the white space off both ends and nothing else |
| AuditChain.AcceptedMeansChained | src/guardmcp/core/audit/verify.py:103-162 | a file is accepted exactly when its lines are signed records, at least one, each chained to the one before and the first to genesis |
| AuditChain.RejectedAtFirstBreak | src/guardmcp/core/audit/verify.py:135-149 | a file of signed records is rejected at the first one that does not link, with both digests |
| AuditTamper.DigestsDistinct | src/guardmcp/core/audit/verify.py:23-29 | in an accepted log all signatures differ |
| AuditTamper.LastDigestFixesLog | src/guardmcp/core/audit/verify.py:23-29 | two accepted logs with the same last signature are the same log |
| AuditTamper.RearrangedBreaks | src/guardmcp/core/audit/verify.py:108-149 | a log put together from records of an accepted one first breaks where it first differs, unless it is a prefix |
| AuditTamper.EditedBreaks | src/guardmcp/core/audit/verify.py:108-149 | an edited record breaks at itself, or at its successor if it was signed anew |
| AuditTamper.HalfEditBreaks | src/guardmcp/core/audit/verify.py:135-149 | changing a record but not its signature, or the reverse, breaks right there |
| AuditTamper.RearrangedFileRejected | src/guardmcp/core/audit/verify.py:108-149 | the verifier names that line in the file |
| AuditTamper.EditedFileRejected | src/guardmcp/core/audit/verify.py:108-149 | a file in which one record was edited is rejected at that line, or at the next if it was signed anew; only an edit of the last record passes, signed anew |
| AuditTamper.HalfEditedFileRejected | src/guardmcp/core/audit/verify.py:135-149 | a file in which a record or its signature was changed alone is rejected at that line |
| AuditTamper.TruncatedFileAccepted | src/guardmcp/core/audit/verify.py:108-162 | cutting the tail is the one rearrangement that is accepted |
| AuditLogger.WrittenReads | src/guardmcp/core/audit/logger.py:155-170 | what the writer writes reads back as the entries it signed |
| AuditLogger.LastLoads | src/guardmcp/core/audit/logger.py:69-86 | what a restart reads from the last line is the last signature |
| AuditLogger.PreparedExactly | src/guardmcp/core/audit/logger.py:184-190 | every entry of a record is signed but a database that is null |
| AuditSigned.LogVerifies | src/guardmcp/core/audit/logger.py:124-197 | over every signed run of enqueueing, batching, failing writes that leave the file unchanged, closing with no log inside, and restarting, the verifier accepts the file with as many records as were persisted, the chain head is what a restart would read, and the records are those enqueued, in order |
| AuditRuns.FutureSettlesOnce | src/guardmcp/core/audit/logger.py:171-182 | over every run, a caller's future is resolved at most once |
| AuditRuns.NobodyWaitsInVain | src/guardmcp/core/audit/logger.py:109-182 | over every run with no log inside a close, signed or not and whatever writes fail: nothing is pending once the flusher stopped, and at most three steps of the flusher resolve every future |
| AuditDisk.FileHoldsPersisted | src/guardmcp/core/audit/logger.py:150-182 | over every run, signed or not, with failing writes that leave lines, restarts and overlaps, the file has one readable line for each record persisted, in order |
| AuditDisk.DoneMeansDurable | src/guardmcp/core/audit/logger.py:150-197 | over every such run, with fail_closed, a log call that returns normally has its record on disk, signed or plain |
| AuditRuns.OpenModeLoses | src/guardmcp/core/audit/logger.py:174-182 | without fail_closed it may return although nothing was written |
| AuditFutures.StrandedExactly | src/guardmcp/core/audit/logger.py:105-148 | over every run, with log and close overlapping at will: a record is stranded exactly if it was enqueued when there was a sentinel for every flusher at work, and since then no log found the flusher stopped, there was no restart, and its caller did not give up |
| AuditFutures.PendingResolvesExactly | src/guardmcp/core/audit/logger.py:124-148 | a pending future is resolved by at most six steps of the flushers exactly if it is not stranded, and by no number of them if it is |
| AuditFutures.ApartNeverStranded | src/guardmcp/core/audit/logger.py:105-122 | with no log inside a close nobody is stranded |
| AuditFutures.OverlappingLogStrands | src/guardmcp/core/audit/logger.py:105-148 | a run in which a record enqueued behind the sentinel is stranded once the flusher stopped; the next log call starts a flusher that resolves both |
| AuditSigned.ChainHoldsExactlyWhenSafe | src/guardmcp/core/audit/logger.py:109-182 | over every run, with failing writes that leave lines, restarts, and logs that overlap a close so that several flushers work: the verifier finds a broken chain exactly when some line was written that was signed from a head that had not seen every line on disk |
| AuditSigned.OverlapForks | src/guardmcp/core/audit/logger.py:105-170 | a run without failing writes that is not safe: a flusher that aclose forgot signs, another writes, the first writes |
| AuditSigned.OverlapBreaksChain | src/guardmcp/core/audit/logger.py:105-170 | the verifier finds the chain of that run broken |
| AuditSigned.UndisturbedIsSafe | src/guardmcp/core/audit/logger.py:150-182 | a run in which no failed write leaves lines and no log overlaps a close is safe |
| AuditWriter.AuditLog.Log | src/guardmcp/core/audit/logger.py:184-197 | one call of log up to its await is the Log event, the flusher restarted if it had stopped |
| AuditWriter.AuditLog.Take | src/guardmcp/core/audit/logger.py:124-144 | the flusher's drain loop is the Take event: one batch up to the sentinel |
| AuditWriter.AuditLog.BeginWrite | src/guardmcp/core/audit/logger.py:153-166 | opening the file and signing the batch in order from the head of that moment is the Seal event |
| AuditWriter.AuditLog.EndWrite | src/guardmcp/core/audit/logger.py:167-182 | writing, committing the head only after the flush and resolving the futures is the write event, in both outcomes, whatever other flushers did since the signing |
| AuditWriter.AuditLog.WriteBatch | src/guardmcp/core/audit/logger.py:150-182 | both at a stretch are the two events |
| AuditWriter.AuditLog.BeginClose | src/guardmcp/core/audit/logger.py:109-113 | aclose up to its await puts the sentinel in the queue if a flusher is at work |
| AuditWriter.AuditLog.EndClose | src/guardmcp/core/audit/logger.py:113-122 | aclose from there forgets the flusher, though a log may have put a new one in its place, and closes the handle |
| AuditWriter.AuditLog.SignBatch | src/guardmcp/core/audit/logger.py:155-166 | the signing loop yields the chained lines and the new head |
| AuditWriter.AuditLog.LoadLastHash | src/guardmcp/core/audit/logger.py:69-86 | the scan for the last non-blank line reads the last signature or genesis |
| AuditWriter.Settled | src/guardmcp/core/audit/logger.py:171-182 | the loop over the batch resolves its futures that are not done and no other |
| SqlTranslate.BuildIn | src/guardmcp/plugins/sql/translate_base.py:175-185 | appends one placeholder for the array, or one per element, and the arguments to match; the two errors |
| SqlTranslate.BuildWhere | src/guardmcp/plugins/sql/translate_base.py:149-173 | the loops over columns and operators emit the clauses and arguments that the specification gives, or its first error; what these mean is SqlSemantics.FilterMeaning |
| SqlTranslate.ReadSql | src/guardmcp/plugins/sql/translate_base.py:187-209 | a read or explain as specified, over the mutable argument counter |
| SqlTranslate.UpdateSql | src/guardmcp/plugins/sql/translate_base.py:252-271 | an update as specified: set arguments first, then those of the filter |
| SqlTranslate.DeleteSql | src/guardmcp/plugins/sql/translate_base.py:273-285 | a delete as specified; a single delete without a condition is refused |
| SqlTranslate.RowsSql | src/guardmcp/plugins/sql/translate_base.py:233-250 | an insert as specified, row by row in the column order of the first document |
| SqlAcceptance.TranslatesExactly | src/guardmcp/plugins/sql/translate_base.py:308-352 | a request is translated exactly when all its names are SQL names, its operators are known, its lists and documents are there and a single delete has a condition; for every capability and dialect |
| SqlAcceptance.IdentExactly | src/guardmcp/plugins/sql/translate_base.py:68-87 | an identifier is valid exactly when it is one name, or two with a dot between, of letters, digits and underscores that do not begin with a digit |
| SqlAcceptance.StatementExactly | src/guardmcp/plugins/sql/translate_base.py:195-352 | which statement a request becomes: its kind, table and columns, the page of a read, and what a catalog query is given |
| SqlMeaning.TokensCarryPlaceholders | src/guardmcp/plugins/sql/translate_base.py:195-304 | every statement text has the placeholders of its parts, in order, and no others |
| SqlMeaning.PlaceholdersAligned | src/guardmcp/plugins/sql/translate_base.py:308-352 | for every capability and both dialects, whatever translates has placeholders 1..n in the order of its text, n the number of arguments |
| SqlReading.TextReadsBack | src/guardmcp/plugins/sql/translate_base.py:149-304 | the text of every statement on a table reads back as that statement, in both dialects: its columns, conditions with their signs, assignments, rows and page, and whether it deletes one row or all |
| SqlSemantics.SelectsExactly | src/guardmcp/plugins/sql/translate_base.py:149-173 | the statement's condition holds of exactly the rows that meet the filter with no null on either side of a comparison; $gt, $gte, $lt, $lte, $ne and $in are each given by their meaning |
| SqlSemantics.FilterMeaning | src/guardmcp/plugins/sql/translate_base.py:149-185 | the same for the clauses alone, after any number of arguments |
| SqlPaging.ReadReturnsExactly | src/guardmcp/plugins/sql/translate_base.py:195-210 | a read can return a list of rows exactly when they are different rows the filter wants, as many as limit allows of those left after skip; for a negative number, or in MySQL a skip without limit, the server refuses the statement |
| SqlSemantics.DeleteOneRemovesOne | src/guardmcp/plugins/sql/translate_base.py:273-304 | a single delete removes exactly one wanted row if there is one and nothing otherwise, with the ctid subquery and with LIMIT 1, whichever row the database picks |
| SqlSemantics.DeleteOneRuns | src/guardmcp/plugins/sql/translate_base.py:273-304 | a translated single delete has an outcome on every table, so the claim about all of them is not empty |
| SqlSemantics.DeleteManyRemovesAll | src/guardmcp/plugins/sql/translate_base.py:273-285 | a delete of many removes the wanted rows and no other |
| SqlSemantics.UpdateWritesAll | src/guardmcp/plugins/sql/translate_base.py:252-271 | an update writes the set document over every wanted row, not over one, and touches no other row |
| SqlSemantics.InsertStores | src/guardmcp/plugins/sql/translate_base.py:233-250 | each document becomes one row that holds, under the keys of the first document, its own values or null |
| SqlSemantics.InsertKeepsExactly | src/guardmcp/plugins/sql/translate_base.py:233-250 | an entry of a document survives exactly when the first document has its key |
| SqlSemantics.DialectsAccept | src/guardmcp/plugins/sql/translate_base.py:308-352 | for reads, explains, counts, inserts, updates and deletes MySQL accepts what Postgres accepts, save empty $in lists in a filter that is used |
| SqlSemantics.DialectsBindSame | src/guardmcp/plugins/sql/translate_base.py:175-185 | with the arrays of $in spread out both dialects bind the same values in the same order |
| SqlSemantics.DialectsPickSame | src/guardmcp/plugins/sql/translate_base.py:149-185 | both dialects pick the same rows |
| SqlText.QuotedReadsBack | src/guardmcp/plugins/mysql/translate.py:41-51 | whatever follows, a quoted identifier is read back as the parts that were validated; none holds a backtick, dot, percent or dollar sign |
| SqlText.QuoteInjective | src/guardmcp/plugins/mysql/translate.py:41-51 | names quoted alike are the same name, in both dialects |
| Approvals.ApprovalStore.Create | src/guardmcp/core/approval/store.py:16-38 | a fresh open approval with its unset event, everything else unchanged |
| Approvals.ApprovalStore.Resolve | src/guardmcp/core/approval/store.py:46-54 | decides an open approval and sets its event; otherwise nothing happens and nothing is returned |
| Approvals.ApprovalStore.Prune | src/guardmcp/core/approval/store.py:56-69 | removes exactly the decided approvals created more than max_age ago, from both dictionaries, and counts them |
| Approvals.ApprovalStore.Shutdown | src/guardmcp/core/approval/store.py:71-84 | the loop denies every open approval, sets its event, and counts |
| Approvals.ApprovalStore.TimeOut | src/guardmcp/core/approval/store.py:86-96 | a waiter that times out denies the approval if it is open, sets no event and reports denied |
| Approvals.ApprovalAfter | src/guardmcp/core/approval/store.py:16-98 | every approval after every step: open when created, pruned when decided and too old, decided when it is open and the step decides it, as it was otherwise; a decision sets the event unless a timeout made it |
| Approvals.WaiterAfter | src/guardmcp/core/approval/store.py:40-98 | every waiter after every step: it waits if the approval is there, is denied at once if not, reports the status when woken and denied when it times out |
| Approvals.RunInv | src/guardmcp/core/approval/store.py:36-98 | over every interleaving both dictionaries have the same keys, a set event means a decision, and no waiter reports pending |
| Approvals.DecidedForGood | src/guardmcp/core/approval/store.py:46-98 | a decided status never changes again and a pruned id never returns |
| Approvals.DecidedOnce | src/guardmcp/core/approval/store.py:46-98 | a status leaves pending at most once |
| Approvals.ApprovedMeansResolved | src/guardmcp/core/approval/store.py:86-98 | a waiter reports approved only if somebody resolved that id with approval while it was open, and the waiter was woken later |
| Approvals.ReportsExactly | src/guardmcp/core/approval/store.py:86-98 | a wait ends in approval exactly when it is woken while the store holds the id as approved |
| Approvals.DeniedThoughApproved | src/guardmcp/core/approval/store.py:86-96 | a timed-out waiter can report denied although the store says approved |
| Approvals.DecisionWakes | src/guardmcp/core/approval/store.py:46-84 | a resolve or a shutdown lets everyone who waits for what it decided wake |
| Approvals.LeftWaitingExactly | src/guardmcp/core/approval/store.py:86-96 | over every run, a waiter waits for an approval that is no longer open and cannot wake exactly when the timeout of another waiter decided it |
| Approvals.TimeOutLeaves | src/guardmcp/core/approval/store.py:86-96 | the event of an approval that a timeout decided is never set afterwards |
| Approvals.SecondWaiterLeft | src/guardmcp/core/approval/store.py:86-96 | a run of two waiters for one approval in which one times out and the other cannot wake |
| Approvals.PruneRemovesExactly | src/guardmcp/core/approval/store.py:56-69 | pruning removes exactly the decided approvals created more than max_age ago, however lately decided, and never an open one |
| Policies.UnionOf | src/guardmcp/core/policy/loader.py:11-18 | the two loops compute the order-preserving union |
| Policies.UnionMeans | src/guardmcp/core/policy/loader.py:11-18 | the union has the members of both lists, each once, the first list first |
| Policies.MaskFieldsExact | src/guardmcp/core/policy/models.py:149-183 | a field is listed as masked for a collection of a database exactly when the bucket of all collections or its own has it, in the block of the database (or the default block) if that has mask fields, else in the policy |
| Policies.BoundsExact | src/guardmcp/core/policy/models.py:149-167 | a collection is in bounds in a database exactly by the lists of the database's block, or of the default block, if it has any, and by the policy's own otherwise |
| Policies.VisibleExact | src/guardmcp/core/policy/models.py:149-202 | the transformer shows a top-level key exactly when it is the id, or the list of fields of the block, else of the policy, is empty or has it |
| Policies.LoadedPolicy.ResultTransformer | src/guardmcp/core/policy/models.py:185-202 | over any sequence of calls the cached transformer is the one that would be built afresh for this collection of this database |
| Policies.LoadedPolicy.AuditMasker | src/guardmcp/core/policy/models.py:204-216 | the same for the cached masker |
| Policies.KeyNeedsDatabase | src/guardmcp/core/policy/models.py:101-108 | a cache keyed by collection alone would serve one database the transformer of another |
| PolicyEngine.Evaluate | src/guardmcp/core/policy/engine.py:16-188 | the traced cascade returns what the untraced one does; exactly one step matched, it is the last, and it tells the reason; what it decides is PolicyEngine.JudgedExactly |
| PolicyEngine.EvaluateRequest | src/guardmcp/core/pipeline.py:217-315 | the same for the checks of the pipeline before it |
| PolicyEngine.JudgedExactly | src/guardmcp/core/pipeline.py:217-315 | a request is denied exactly when the policy is missing or forbids it by its own fields (window, databases, mode, collections in bounds, actions, pipeline); otherwise approval is asked exactly when it changes all, or much, and the policy gates that |
| PolicyEngine.ReasonExactly | src/guardmcp/core/pipeline.py:217-315 | the code of a denial is that of the first reason that holds, in the order of the checks |
| PolicyEngine.ClassifiedExactly | src/guardmcp/core/risk/engine.py:22-86 | the risk by named actions: critical for a drop, a delete of many, and any update or delete without a filter; high, medium and low for the others |
| PolicyEngine.NamesReadBack | src/guardmcp/core/models/domain.py:9-38 | the name of an action is read as that action |
| PolicyEngine.GuardExact | src/guardmcp/core/pipeline.py:388-447 | the aggregation guard objects exactly when the pipeline names a collection out of bounds or a path that starts with a masked field |
| PolicyEngine.PipelineStaysInBounds | src/guardmcp/core/pipeline.py:388-447 | what is not denied reads only collections in bounds in its database, and no path in it starts with a field masked there |
| PolicyEngine.GateMonotone | src/guardmcp/core/policy/engine.py:141-177 | a policy asks approval for a risk and not for a higher one exactly when it gates HIGH and not CRITICAL |
| PolicyEngine.UnscopedDeleteSkipsGate | src/guardmcp/core/risk/engine.py:74-86 | under such a policy a delete without a filter needs no approval where the targeted one does |
| PolicyEngine.EscalationOnlyTightens | src/guardmcp/core/pipeline.py:156-213 | cost escalation never denies, never allows, never lowers the risk, and what is not denied needs approval exactly when the risk before or after it is gated |
| PolicyEngine.EscalatesExactly | src/guardmcp/core/pipeline.py:156-213 | what escalation does to every decision that does not deny: a cost that reaches the threshold raises the risk to critical if it is critical and to high if it is high and the risk was below; approval is needed exactly when it was before or the raised risk is gated |
| PolicyEngine.EscalationCrashesExactly | src/guardmcp/core/pipeline.py:197-199 | with an estimate at hand it raises exactly for a threshold of UNKNOWN |
| PolicyInheritance.Resolver.Resolve | src/guardmcp/core/policy/loader.py:79-94 | the memoised recursion terminates, succeeds exactly when the chain of a name can be folded, returns that fold, and its error tells what is wrong with the chain |
| PolicyInheritance.ResolveAll | src/guardmcp/core/policy/loader.py:73-98 | all policies resolve exactly when each can, in whatever order the map is gone through |
| PolicyInheritance.OrderIrrelevant | src/guardmcp/core/policy/loader.py:96-98 | two results for one map are equal |
| PolicyInheritance.GoodExactly | src/guardmcp/core/policy/loader.py:79-94 | a name resolves exactly when it has a chain in which no collection is allowed by one policy and denied by another |
| PolicyInheritance.NoChainExactly | src/guardmcp/core/policy/loader.py:82-91 | there is a chain exactly when following extends reaches a policy that extends nothing |
| PolicyInheritance.ResolvedSays | src/guardmcp/core/policy/loader.py:37-70 | what a resolved policy denies, allows, masks, shows and gates, and which connections it allows, is exactly what some policy of its chain does; it is readwrite as soon as one of them is |
| PolicyInheritance.ResolvedTakes | src/guardmcp/core/policy/loader.py:46-55 | each end of the validity window is that of the nearest policy of the chain that sets it; name and version are the policy's own |
| PolicyInheritance.FoldSucceeds | src/guardmcp/core/policy/loader.py:55-58 | the merges of a chain succeed exactly when no collection is allowed by one member and denied by another |
| PolicyInheritance.AncestorsBind | src/guardmcp/core/policy/loader.py:37-70 | what any ancestor denies is denied in the end, and no gate of an ancestor is passed without approval |
| PolicyInheritance.MergeDropsDatabases | src/guardmcp/core/policy/loader.py:46-70 | a policy that extends another has no database rules and no cost threshold left |
| PolicyInheritance.ExtendingVoidsDatabaseRule | src/guardmcp/core/policy/loader.py:46-70 | a policy's own restriction to databases is void exactly when it extends something |
| PolicyDiff.DiffPolicies | src/guardmcp/core/policy/explain.py:139-206 | the loops that append to the list compute the specified differences |
| PolicyDiff.DiffTellsExactly | src/guardmcp/core/policy/explain.py:139-213 | a change is in the diff exactly when it happened: added to or removed from one of the six lists, masked or no longer masked in a bucket, or a setting that differs, with its new value |
| PolicyDiff.DiffTellsOnce | src/guardmcp/core/policy/explain.py:139-213 | each change is told once |
| PolicyDiff.DiffEmptyExactly | src/guardmcp/core/policy/explain.py:139-206 | the diff is empty exactly when the policies agree on everything it looks at |
| PolicyDiff.EmptyDiffSameDecision | src/guardmcp/core/policy/explain.py:139-206 | an empty diff means the same status, code and risk for every request without a database, time and backend |
| PolicyDiff.DiffIgnoresDatabases | src/guardmcp/core/policy/explain.py:139-206 | with a database named the diff may be empty and the decision differ |
| PolicyDiff.EmptyDiffCoversExactly | src/guardmcp/core/policy/explain.py:139-206 | when the diff is empty, all requests that name a database are judged alike exactly when both policies permit it or neither does and, if permitted, they have the same collections in bounds there and mask the same path heads, or the window of the policies ends before it begins |
| PolicyDiff.EmptyDiffWithoutDatabaseRules | src/guardmcp/core/policy/explain.py:139-206 | between policies without database rules an empty diff covers every request |
| Pipeline.RecordTells | src/guardmcp/core/pipeline.py:94-131 | a logged record names its request and its verdict |
| Pipeline.StepInv | src/guardmcp/core/pipeline.py:451-648 | every step of every request, of a confirming tool, of the writer (failing and closing too), of the approval store and of a reload keeps what the requests rely on |
| PipelineRuns.ExecutesOnce | src/guardmcp/core/pipeline.py:583-593 | in every interleaving the executor is called at most once per request |
| PipelineRuns.ExecutionIsAuthorised | src/guardmcp/core/pipeline.py:451-579 | before every call the request was judged under the policy in force and not forbidden; in run a human approved exactly when the risk, as classified or as raised for cost, is gated; in execute_approved it was judged when the confirmation came in; a confirming tool (server/tools/_common.py:234-285) executes on its own only what is not gated as classified |
| PipelineRuns.HumanDidApprove | src/guardmcp/core/pipeline.py:547-579 | a call on a human's word follows a resolve with approval of that very id while it was open, and the waking of its waiter |
| PipelineRuns.ExecutionIsRecorded | src/guardmcp/core/pipeline.py:483-494 | every call waited for its own audit record, allowed or approved; with fail_closed its line is on disk, in a log with or without signatures and whatever failed or overlapped |
| AuditRecords.EveryRecord | src/guardmcp/core/pipeline.py:80-131 | every record in the log, in every interleaving: which event wrote it and when its request was judged; it names the request, agent, collection and action, has the status and risk of that moment, and under params the encoding of a value that holds of the parameters exactly what the policy judged by does not mask |
| AuditRecords.WritesExactly | src/guardmcp/core/pipeline.py:451-648 | which steps write a record: every judgement of run, at once or when the cost is estimated, every answer of a human, every confirmed execution, every failed one, and what a confirming tool is allowed; one record each |
| AuditRecords.ProceedsAsRecorded | src/guardmcp/core/pipeline.py:483-579 | in every interleaving a request goes on exactly as its record says once that is settled: executed if it was written and says allowed or approved, a human asked about this agent, action and collection if it says approval is required, and nothing otherwise |
| AuditRecords.GoesOnExactly | src/guardmcp/core/pipeline.py:498-648 | in every interleaving each event of a request takes it where it should go: to wait for the record it writes, for an estimate, for a confirmation, or to its end |
| PipelineRuns.PipelineLogVerifies | src/guardmcp/core/pipeline.py:94-131 | the signed log the pipeline leaves verifies after every interleaving in which nothing was written that was signed from an outdated head |
| PipelineRuns.UndisturbedLogVerifies | src/guardmcp/core/pipeline.py:94-131 | so it does when no failed write left lines and no log overlapped a close |
| PipelineRuns.ExecutesThoughDenied | src/guardmcp/core/pipeline.py:546-579 | an interleaving in which run executes though the policy in force at the call denies: the policies are taken away while the record is written |
| PipelineRuns.ExecutesAfterItsWindow | src/guardmcp/core/pipeline.py:546-579 | an interleaving in which run executes though the window of the policy has closed since it was judged |
| PipelineRuns.LateDenialExactly | src/guardmcp/core/pipeline.py:546-579 | in every interleaving, at a call the policy in force denies exactly if it is gone, or was replaced by one that forbids the request now, or is the one judged and its window has closed |
| PipelineRuns.NoLateDenial | src/guardmcp/core/pipeline.py:546-579 | if every reload since the judgement left the agent its policy, the policy in force at the call denies exactly if its window has closed |
| PipelineRuns.AllowedRequestsRun | src/guardmcp/core/pipeline.py:498-579 | an allowed request does reach the executor |
| Responses.BuildSuccess | src/guardmcp/core/pipeline.py:888-920 | the response built with the policy's caches is the specified one; what it shows is Responses.ResponseShowsExactly |
| Responses.ResponseHidesExactly | src/guardmcp/core/pipeline.py:888-920 | for find, aggregate, count and a database aggregation a response tells two results apart exactly when they differ in more than the transformer hides, for explain in more than the masker hides, and for every other action when they differ |
| Responses.ResponseShowsExactly | src/guardmcp/core/pipeline.py:888-920 | what can be read at a place of a response: of find, aggregate, count and a database aggregation what is there in the result and the policy shows, in the list of documents if there is one; of explain what no mask entry names; of any other action everything |
| Responses.MaskedKeyUnreadable | src/guardmcp/core/pipeline.py:909-920 | no value under a masked key can be read from the documents of a find |
| LoggedParams.LoggedExactly | src/guardmcp/core/pipeline.py:80-92 | a value can be read at a place of the parameters to be logged exactly when it is there in the parameters and the policy masks nothing or lists no key on the way, alone or by its whole path from the root, down to the depth bound or to a list inside a list; that the log holds them is AuditRecords.EveryRecord |
| LoggedParams.AuditParamsHideExactly | src/guardmcp/core/pipeline.py:80-92 | the parameters to be logged of two requests differ exactly when they differ in more than what the masker hides, its paths read from the root of the parameters |
| LoggedParams.FilterValueLogged | src/guardmcp/core/pipeline.py:80-92 | the value of a condition in a filter is logged as it is exactly when `filter` is not masked and the field has a dot, or neither the field nor `filter.` and the field is listed |
| LoggedParams.MaskedPathIsLogged | src/guardmcp/core/masking/masker.py:12-66 | with `user.ssn` masked, a filter on it is logged in clear, written with a dot or nested |
| MongoGuard.Dangerous | src/guardmcp/plugins/mongodb/guard.py:41-49 | true exactly when a banned operator is a key at any depth |
| MongoGuard.ValidateStages | src/guardmcp/plugins/mongodb/guard.py:152-203 | reports the first stage that is not a single listed stage free of banned operators, if any |
| MongoGuard.Walk | src/guardmcp/plugins/mongodb/guard.py:62-86 | the nested walk adds exactly the specified names to the set |
| MongoGuard.CollectionsExact | src/guardmcp/plugins/mongodb/guard.py:62-86 | a name is found exactly when it stands under from, coll or $unionWith at any depth |
| MongoGuard.PipelineFound | src/guardmcp/plugins/mongodb/guard.py:62-86 | every collection the pipeline would read, through $lookup, $graphLookup and $unionWith under any nesting of $facet and sub-pipelines, is found |
| MongoGuard.MaskedRefsExact | src/guardmcp/plugins/mongodb/guard.py:100-131 | a masked field is reported exactly when a path anywhere starts with it |
| MongoGuard.PathHeadExactly | src/guardmcp/plugins/mongodb/guard.py:111-118 | the head of a path is the field after its dollar signs, up to the first dot or the end |
| MongoGuard.OnlyHeadsAreSeen | src/guardmcp/plugins/mongodb/guard.py:111-118 | a masked field further down a path is not reported |
| Marshal.MarshalFilter | src/guardmcp/plugins/mongodb/marshal.py:262-301 | the recursive loop that fills a new dict computes the specified filter or the first mismatch |
| Marshal.MarshalFieldValue | src/guardmcp/plugins/mongodb/marshal.py:232-259 | the same for the value side of a clause |
| MarshalMeaning.FilterConforms | src/guardmcp/plugins/mongodb/marshal.py:215-301 | keys and operators are kept through every nesting of $and, $or and $nor; compared operands become the same value in their field's type |
| MarshalMeaning.FilterFits | src/guardmcp/plugins/mongodb/marshal.py:95-301 | it fails exactly when a literal is malformed or a compared operand cannot be brought to its field's type |
| MarshalMeaning.AgainExactly | src/guardmcp/plugins/mongodb/marshal.py:191-301 | a second pass changes nothing exactly when every typed literal agrees with its field's type |
| FieldStats.BuildFieldStats | src/guardmcp/plugins/mongodb/schema.py:115-175 | the loops over documents and fields tally exactly the occurrences of each field |
| FieldStats.StatsExact | src/guardmcp/plugins/mongodb/schema.py:115-175 | count less null_count is the number of non-null values; distinct_count is the number of scalars that differ in Python (true is 1) up to 50 and missing above, and up to 20 of them are shown; the range spans the dates; masked fields keep nothing |
| FieldStats.OccursExactly | src/guardmcp/plugins/mongodb/schema.py:115-135 | the occurrences of a field are the values it has in some document of the sample |
| FieldStats.BuildTypeMap | src/guardmcp/plugins/mongodb/schema.py:47-64 | a field has a type exactly when all its typed values agree on it, the type of a value being given by its kind |
| FieldStats.SampledValuesPassExactly | src/guardmcp/plugins/mongodb/schema.py:47-64 | comparing a field with a value the sample holds goes through the marshaller unchanged except exactly for an `_id` without a single type that is 24-hex text, which becomes an object id, and a null or unlisted kind under a type that coerces, which is refused |
| FieldStats.MixedIdsChange | src/guardmcp/plugins/mongodb/marshal.py:287-297 | a sample with such an `_id`, for which a search for a string is turned into one for an object id |
| SchemaCache.LruCache.Put | src/guardmcp/plugins/mongodb/schema_cache.py:79-87 | stores under the key, evicting in a loop, and keeps the cache the most recently used keys in order of use |
| SchemaCache.Cache.Lookup | src/guardmcp/plugins/mongodb/schema_cache.py:59-67 | a hit is exactly an entry stored less than ttl before, with schema, types and statistics of one sample; its key becomes the last used |
| SchemaCache.Cache.Store | src/guardmcp/plugins/mongodb/schema_cache.py:69-89 | all three views are of the documents just read, and are cached unless ttl is zero or below |
| SchemaCache.CacheBounded | src/guardmcp/plugins/mongodb/schema_cache.py:36-40 | the cache never exceeds its maximum, and evicts nothing until more keys than that were used |
| SchemaCache.LatestAfterUse | src/guardmcp/plugins/mongodb/schema_cache.py:79-87 | one more use moves a key to the end and drops at most the least recently used |
| SchemaCache.RedactedCarriesNothingExactly | src/guardmcp/plugins/mongodb/schema_cache.py:129-147 | a masked field's statistics carry no sampled value exactly when the sample has no date in it |

## Left out

- Tool registration, HTTP, command line, settings, metrics, export and connection pools: thin layers or I/O.
- Drivers and executors: an execution is one call and one outcome. Explain normalisation and cost estimation are a parameter.
- `cross_db_candidates`, `boost_by_roles`, matching, plan ranking, semantics and intent heuristics: their claims are heuristic.
- `classify_impact`: a heuristic over the texts of the diff.
- SHA-256, the JSON library, the parsers of dates, decimals and integers, and the inference of display labels are parameters.
- Floating point is modelled by reals; rounding of confidences and token balances is not.
- Unicode white space, universal newlines, stored signatures outside ASCII and parse errors other than a failed parse are not part of the audit file model.
- A write that fails after part of a line reached the disk: lines are written whole or not at all. A signature in the last line that is not a string reads as genesis.
- Restarts inside the composed pipeline: the writer's runs include restarts, an interleaving of the pipeline is one process lifetime.
- The limiter in front of `run`: a refused request does nothing else, and the limiter is proved on its own.
- A flush and the commit of the chain head are one step. Between them another flusher could sign from the old head; it does so just as well before the write. Lines of two flushers are not mixed within a batch. `AuditWriter` has the steps of the flusher in charge only.
- Two further operations that log (discovery, switching databases and connections) follow the same record helper and add no step of their own.
- The locks of the limiter: a check is one step.
- The prose of decisions, records and differences; the trace keeps rule and result.
- Python compares dicts without regard to order; the model's dicts keep insertion order and equality of outputs is of ordered dicts.
- SQL resolution of column names: two different names are two columns. Catalog queries are fixed texts with placeholders.
- Which error a refused translation or filter reports when it has several: the loops report the first, as their specification does; what is proved is when there is one.
- The order of sample values with equal texts, and NaN, in field statistics.
- Reading policy files: a reload replaces the whole map by any other.
- Ids, clock readings and the documents of a sample are arguments of the methods that use them. Between a
  lookup and a store of the schema cache other requests may come.
