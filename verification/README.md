# Dafny models of the dashboard's stateful cores

This project models, in Dafny, the parts of the repository whose correctness depends on state kept
across requests, on index arithmetic, or on two pieces of code agreeing with each other. Each file
is one component; code that works on arrays or on stored rows is a method or a class proved against
a specification function, and the main results are lemmas over every input, every run of steps or
every reachable state.

| file | component |
|---|---|
| `HeapGraph.dfy`, `RetainerIndex.dfy`, `RetainerWalk.dfy` | the heap-snapshot retainer tool: inverting a forward edge list in place, looking retainers up, walking them breadth first |
| `Json.dfy`, `CanonicalEvidence.dfy`, `EvidenceFingerprint.dfy` | canonical evidence, its JSON text, and the incremental hasher that must feed the hash the same text |
| `RuleTree.dfy`, `ExpressionShape.dfy`, `RuleStore.dfy`, `CleanupPolicy.dfy` | cleanup rule expressions: validation, the shared storage column, and the three-valued evaluator with its policy |
| `Approvals.dfy` | the approval queue: deciding, sweeping, claiming, executing, recovering and withdrawing approvals, each by a compare-and-set |
| `AuditPaging.dfy` | activity timelines and the exclusive cursor to older events |
| `ServiceIdentity.dfy` | connection and identity generations of one service, its provider cache, and publishers |
| `AliasMigration.dfy` | deleting an ARR alias while its saved state moves to the survivor |
| `SignIn.dfy`, `OidcStates.dfy`, `LoginLock.dfy` | how users keep a way to sign in, waiting OIDC flows, and the login lock |
| `Launcher.dfy` | the process supervisor and its restart limiter |
| `Orders.dfy` | stable sorting by an order with ties, and what the result owes to the original arrangement |
| `Options.dfy` | the optional value used by the others |

`dafny verify dfyconfig.toml` checks the whole project.

How the models relate to the code:

- A database transaction is one step. Where a handler reads before its transaction, the read values
  are parameters of the step, so a run covers every interleaving; handlers that hold the owner's
  lease from their first read on are one step as a whole.
- The network, the clock, randomness, encryption and hashing are parameters: any answer, any time
  that does not go back, any function.
- Times are milliseconds; integers that the code keeps in 32-bit arrays are bounded.

Where the code does not do what one would expect of it, the model follows the code; a lemma says
exactly when it does, and another gives an input for which it does not:

- A rule update that sends `expression: null` and `operator: null` and leaves `conditions` out
  does not clear the column they share, so the stored rule ends in no mode
  (`RuleStore.UpdateKeepsModeIff`, `RuleStore.LeftColumnBreaksMode`).
- A rule is read before the lease it is written under, so it may have changed in between. Whether
  such a write leaves a rule in a valid mode depends on the present row only
  (`RuleStore.StaleWriteKeepsModeIff`, `RuleStore.StaleReadBreaksMode`); `RuleStore.RunKeepsRuleIff`
  says which runs keep a rule valid with conditions that pass.
- `localeCompare` ties strings that are canonically equivalent, and sets hold members with the same
  string form, such as two plain objects. What ties keeps its insertion order in the canonical form
  (`CanonicalEvidence.PropertyOrderIrrelevantIff`, `CanonicalEvidence.EntryOrderIrrelevantIff` and
  `CanonicalEvidence.MemberOrderIrrelevantIff`, with inputs in `CanonicalEvidence.PropertyOrderShows`,
  `CanonicalEvidence.EntryOrderShows` and `CanonicalEvidence.MemberOrderShows`). Undefined ties with
  no other member of a set (`CanonicalEvidence.UndefinedIsToldApart`).
- The check for extra fields of an expression ignores an empty key, and with it whatever extra
  fields come after it (`ExpressionShape.ExtraIsSeenIff`, `ExpressionShape.EmptyKeyHidesExtras`).
- Some updates that would leave a rule in a valid mode are refused: an empty condition list, an
  operator or conditions changed on an expression without a new list, and a null expression alone on
  a list (`RuleStore.RepresentedIff`).
- The activity timeline counts events in one query and reads them in a later one; when the log
  outgrows a full timeline in between, the cursor is missing (`AuditPaging.WalkIsCompleteIff`,
  `AuditPaging.CursorGetsLost`).

Besides, `DELETE /auth/account` refuses every account that can sign in, and as long as the provider
is left enabled every account can (`SignIn.AuthStore.DeleteOwnAccount`).

## Model

| member | source | states |
|---|---|---|
| RetainerIndex.CountRetainers | apps/api/scripts/heap-retainer-walk.py:199-201 | entry `d` of the counted array is the number of edges whose destination is node `d` |
| RetainerIndex.InOffsets | apps/api/scripts/heap-retainer-walk.py:204-209 | the prefix sums: entry `d` is the number of edges into the nodes before `d`, and the last entry is the number of all edges |
| RetainerIndex.FileEdge | apps/api/scripts/heap-retainer-walk.py:218-221 | writing one edge at the moving cursor of its destination leaves every other bucket as it was and every cursor behind the filled part of its bucket |
| RetainerIndex.FillBuckets | apps/api/scripts/heap-retainer-walk.py:212-221 | every slot of every bucket is written, in range, with the source of the edge it stands for |
| RetainerIndex.OutOffsets | apps/api/scripts/heap-retainer-walk.py:224-229 | entry `i` is the number of edges owned by the nodes before `i` |
| RetainerIndex.BuildRetainerIndex | apps/api/scripts/heap-retainer-walk.py:188-232 | for every node the slice between its two offsets is exactly the list of sources of the edges into it, in forward edge order |
| HeapGraph.SlotsDisjoint | apps/api/scripts/heap-retainer-walk.py:213-220 | two buckets never share a slot |
| HeapGraph.RetainersArePredecessors | apps/api/scripts/heap-retainer-walk.py:188-193 | a node is among the retainers of another exactly when the snapshot has an edge from it |
| HeapGraph.InversionConservesEdges | apps/api/scripts/heap-retainer-walk.py:188-232 | the inverted index holds the same multiset of (source, destination) pairs as the edge list |
| RetainerWalk.EntryFor | apps/api/scripts/heap-retainer-walk.py:264-275 | the forward search of a retainer never falls through; it reports the first edge from that source to the node, with its type, and its name cut to 60 characters or, without one, its index |
| RetainerWalk.GetRetainers | apps/api/scripts/heap-retainer-walk.py:258-276 | one entry per edge into the node, in edge order, each for a real edge from the reported source |
| RetainerWalk.Follow | apps/api/scripts/heap-retainer-walk.py:296-305 | keeps the first `branching` of the retainers with unvisited sources, at least one, each source once and in list order, and marks exactly those visited |
| RetainerWalk.FreshIsFirsts | apps/api/scripts/heap-retainer-walk.py:297-300 | the retainers that can be kept are, in order, exactly those whose source is unvisited and was not listed before |
| RetainerWalk.AllWithinLimitQueued | apps/api/scripts/heap-retainer-walk.py:286-305 | once every queued node is expanded, each node within the depth limit is queued no later than its distance |
| RetainerWalk.TakeNode | apps/api/scripts/heap-retainer-walk.py:287-305 | one turn of the loop takes the first node off the queue, prints exactly the block it calls for, keeps the queue distinct, layered and anchored, and either visits a new node or shortens the queue |
| RetainerWalk.WalkRetainers | apps/api/scripts/heap-retainer-walk.py:281-305 | terminates; the lines are the header and one block for each queued node, in queue order: the depth limit, the missing retainers, or an arrow for each of the first unvisited retainers up to the limit; each node is queued at most once; depths never fall and differ by at most one within the queue; each queued node has a retaining path of exactly its depth; when the limit covers every in-degree that depth is the shortest and no node within the depth limit is missed |
| Json.StringRoundTrip | apps/api/src/lib/evidence-fingerprint.ts:28-28 | an escaped string (section 7 of RFC 8259, surrogates included) reads back as itself |
| Json.NumberRoundTrip | apps/api/src/lib/evidence-fingerprint.ts:28-28 | a printed number ends where it ends, whatever delimiter follows |
| Json.ValueRoundTrip | apps/api/src/lib/evidence-fingerprint.ts:28-28 | any printed JSON value reads back as itself in front of any delimiter |
| Json.PrintIsInjective | apps/api/src/lib/evidence-fingerprint.ts:28-28 | different JSON values have different texts |
| Orders.SortedIsUnique | apps/api/src/lib/evidence-fingerprint.ts:19-19 | elements of which no two tie have one sorted arrangement |
| Orders.SortIsStable | apps/api/src/lib/evidence-fingerprint.ts:11-13 | sorting keeps elements that tie in their original order, for any order with ties |
| Orders.SortThenFilter | apps/api/src/lib/evidence-fingerprint.ts:17-21 | sorting and then leaving elements out, as a new object does with index keys, is leaving them out and then sorting |
| Orders.ArrangementIrrelevantIff | apps/api/src/lib/evidence-fingerprint.ts:10-21 | after sorting, the original arrangement does not show if and only if elements that tie are the same |
| CanonicalEvidence.SortCommutesWithCanon | apps/api/src/lib/evidence-fingerprint.ts:17-21 | sorting properties before canonicalizing their values, as the code does, gives what sorting afterwards would |
| CanonicalEvidence.InsertionOrderIsIrrelevant | apps/api/src/lib/evidence-fingerprint.ts:3-24 | values that differ, at any depth, only in the order of object keys, of map keys or of set members, where the locale order tells those apart (undefined always), have one canonical form |
| CanonicalEvidence.CanonIsIdempotent | apps/api/src/lib/evidence-fingerprint.ts:3-24 | canonicalizing a canonical value changes nothing |
| CanonicalEvidence.PropertyOrderIrrelevantIff | apps/api/src/lib/evidence-fingerprint.ts:16-22 | the order of an object's properties is irrelevant if and only if no two of its keys tie, array indices aside |
| CanonicalEvidence.EntryOrderIrrelevantIff | apps/api/src/lib/evidence-fingerprint.ts:5-9 | the order of a map's entries is irrelevant if and only if entries whose string keys tie have the same key and canonical value |
| CanonicalEvidence.MemberOrderIrrelevantIff | apps/api/src/lib/evidence-fingerprint.ts:10-14 | the order of a set's members is irrelevant if and only if members whose string forms tie, undefined aside, have the same canonical form |
| CanonicalEvidence.MemberOrderShows | apps/api/src/lib/evidence-fingerprint.ts:10-14 | a set of two plain objects of different size keeps their order |
| CanonicalEvidence.EntryOrderShows | apps/api/src/lib/evidence-fingerprint.ts:5-9 | for any locale order, a map with two different keys that tie keeps their order |
| CanonicalEvidence.PropertyOrderShows | apps/api/src/lib/evidence-fingerprint.ts:16-22 | for any locale order, an object with two different keys that tie, no array indices, keeps their order |
| CanonicalEvidence.UndefinedIsToldApart | apps/api/src/lib/evidence-fingerprint.ts:10-14 | a set of undefined and any other value, even the string "undefined", has one canonical form |
| CanonicalEvidence.SetIsSorted | apps/api/src/lib/evidence-fingerprint.ts:10-14 | a canonical set comes in the order of its members' string forms, undefined last |
| CanonicalEvidence.MapIsSorted | apps/api/src/lib/evidence-fingerprint.ts:5-9 | a canonical map is its pairs in the order of their keys |
| CanonicalEvidence.ObjectIsSorted | apps/api/src/lib/evidence-fingerprint.ts:16-22 | a canonical object has its array indices first, by number, and then its other keys in order |
| CanonicalEvidence.IndexKeyIff | apps/api/src/lib/evidence-fingerprint.ts:17-21 | the keys a new object puts first are exactly the decimal numerals of the numbers below 2^32 - 1 |
| CanonicalEvidence.JoinOfMore | apps/api/src/lib/evidence-fingerprint.ts:13-13 | the string form of an array is its pieces joined by commas, null and undefined leaving nothing |
| CanonicalEvidence.CanonDeterminesEvidence | apps/api/src/lib/evidence-fingerprint.ts:3-24 | values with one canonical form say the same at every depth, up to the order of properties, entries and members, dates being their texts, and maps and sets lists |
| EvidenceFingerprint.ArrayAccumulator.Append | apps/api/src/lib/evidence-fingerprint.ts:48-55 | a value is added to the fed text with its comma, an undefined one as null; after finalization the call is refused and nothing changes |
| EvidenceFingerprint.ArrayAccumulator.Digest | apps/api/src/lib/evidence-fingerprint.ts:56-62 | the digest is the hash of the batch text of the values appended so far, and asking again gives the same |
| EvidenceFingerprint.Accumulate | apps/api/src/lib/evidence-fingerprint.ts:41-64 | for every sequence of values, appending them and taking the digest hashes exactly the text the batch form hashes for the array |
| EvidenceFingerprint.ArrayTextDecodes | apps/api/src/lib/evidence-fingerprint.ts:43-59 | two sequences feed the same text if and only if their canonical elements are the same JSON values |
| EvidenceFingerprint.TextDeterminesEvidence | apps/api/src/lib/evidence-fingerprint.ts:26-30 | evidence with one fingerprint text says the same as far as JSON can tell: null, numbers that are not finite and undefined in a list are one, and undefined properties are none |
| EvidenceFingerprint.StringFormsOfScalars | apps/api/src/lib/evidence-fingerprint.ts:10-14 | the string form a scalar is sorted by is its text, or its JSON text |
| EvidenceFingerprint.SameEvidenceSameText | apps/api/src/lib/evidence-fingerprint.ts:26-30 | evidence that differs only in insertion order has one fingerprint text |
| RuleTree.ValidateExpression | apps/api/src/routes/library-cleanup.ts:2242-2267 | the explicit-stack check terminates and returns what the recursive left-to-right search returns |
| RuleTree.FirstFailureIsFirst | apps/api/src/routes/library-cleanup.ts:2242-2267 | nothing is returned iff every condition parses; otherwise the path, type and message of the first rejected condition in preorder |
| RuleTree.ValidateRuleParameters | apps/api/src/routes/library-cleanup.ts:2236-2298 | which of expression, condition list and rule parameters is checked, that it passes exactly when no schema rejects, and which failure is reported |
| ExpressionShape.CheckRoot | packages/shared/src/types/library-cleanup.ts:100-212 | the explicit-stack check of a JSON value terminates and reports the first fault of the recursive preorder scan, with its path |
| ExpressionShape.ValidateShape | packages/shared/src/types/library-cleanup.ts:84-213 | a value is accepted exactly when it is a version 1 envelope around a written-out tree of known conditions and non-empty groups within depth 8 and 100 nodes, extra fields aside; otherwise the first fault is reported, and it is found where its path leads |
| ExpressionShape.FaultIsThere | packages/shared/src/types/library-cleanup.ts:108-211 | the reported path leads from the root to a node that has the reported fault, or whose named field has it |
| ExpressionShape.DecodesIff | packages/shared/src/types/library-cleanup.ts:48-73 | a node decodes to a tree if and only if it is that tree written out field by field, and the tree is sound |
| ExpressionShape.ExtraIsSeenIff | packages/shared/src/types/library-cleanup.ts:96-99 | an extra field is reported if and only if there is one and no empty key comes first among them |
| ExpressionShape.EmptyKeyHidesExtras | packages/shared/src/types/library-cleanup.ts:136-144 | behind an empty key any fields at all pass, and the node decodes as without them |
| ExpressionShape.ScanAcceptsExactly | packages/shared/src/types/library-cleanup.ts:108-211 | a scan of a node counts to the end exactly when the node decodes and fits what is left of both budgets, and it counts the nodes of the tree |
| ExpressionShape.EncodeThenDecode | packages/shared/src/types/library-cleanup.ts:48-73 | every storable expression has a value that decodes to it |
| RuleTree.DefaultsKeepSpots | apps/api/src/routes/library-cleanup.ts:2213-2229 | filling in defaults keeps every condition's path and type |
| RuleTree.DefaultsKeepVerdict | apps/api/src/routes/library-cleanup.ts:2203-2229 | when schema output parses to itself, filling in defaults does not change the verdict |
| RuleTree.DefaultsKeepShape | apps/api/src/routes/library-cleanup.ts:2213-2229 | filling in defaults keeps depth, size and soundness |
| RuleTree.DefaultsFillIn | apps/api/src/routes/library-cleanup.ts:2213-2229 | filling in defaults keeps operators, negations, order and rule types, and gives each condition the parameters its schema puts out, or leaves them |
| RuleStore.RuleRecord.Validate | apps/api/src/routes/library-cleanup.ts:845-1008 | the update is refused exactly when representation, scope or parameters object, in this order, the parameters only when a field they depend on is submitted; otherwise the prepared statement does to any row what the update is specified to do |
| RuleStore.RuleRecord.HandlePut | apps/api/src/routes/library-cleanup.ts:832-1027 | with nothing in between, exactly the accepted updates are written: each submitted field with its defaults, cleared columns as null, everything else as it was |
| RuleStore.RefusalReason | apps/api/src/routes/library-cleanup.ts:168-201 | which of the four refusals an update meets, in terms of the rule it would produce |
| RuleStore.RepresentedIff | apps/api/src/routes/library-cleanup.ts:845-949 | which updates of a valid rule are accepted as representing one: exactly those that end in a valid mode, but for three kinds refused all the same, and those that leave the column behind under a single condition |
| RuleStore.WrittenShowsValidated | apps/api/src/routes/library-cleanup.ts:845-1008 | for a row in a valid mode and an accepted update, the response built from the written row shows exactly the operator, conditions and expression that were validated, with every submitted condition filled in |
| RuleStore.UpdateKeepsModeIff | apps/api/src/routes/library-cleanup.ts:951-1008 | the written row runs, as exactly the validated tree, if and only if the update does not null expression and operator while leaving a filled column unmentioned |
| RuleStore.LeftColumnBreaksMode | apps/api/src/routes/library-cleanup.ts:986-1008 | an expression turned into a single condition with explicit nulls is accepted and cannot run afterwards |
| RuleStore.StaleWriteKeepsModeIff | apps/api/src/routes/library-cleanup.ts:837-1027 | an update validated against any earlier valid row leaves the present valid row in a valid mode if and only if it suits the present row, by a condition on row and update alone |
| RuleStore.AgreeingReadKeepsModeIff | apps/api/src/routes/library-cleanup.ts:837-1027 | when the two rows agree on being composite and on holding an expression, only the column left behind matters |
| RuleStore.RunKeepsModeIff | apps/api/src/routes/library-cleanup.ts:832-1027 | over every run in which each request had read any earlier state, the row is always in a valid mode if and only if every write suits the row it is written to |
| RuleStore.StaleWritePassesIff | apps/api/src/routes/library-cleanup.ts:934-1027 | such a write leaves a rule whose conditions all pass their schemas if and only if the single condition it may end as passes |
| RuleStore.RunKeepsRuleIff | apps/api/src/routes/library-cleanup.ts:832-1027 | over every run in which each request had read any earlier state, the rule is always in a valid mode with conditions that pass if and only if every write suits its row and, where it ends as a single condition, the schema of its type accepts the parameters it ends with |
| RuleStore.RunKeepsRule | apps/api/src/routes/library-cleanup.ts:832-1027 | in particular over every run whose writing requests read a rule that agrees with the present one and leave no column behind |
| RuleStore.ValidRowsRun | apps/api/src/lib/library-cleanup/rule-evaluators.ts:2415-2436 | the evaluator runs exactly the rows in a valid mode and two further kinds that no handler writes |
| RuleStore.ValidRowsShow | apps/api/src/routes/library-cleanup.ts:115-129 | what a row in each valid mode runs as and what a response shows of it |
| RuleStore.CreatedRowIsValid | apps/api/src/routes/library-cleanup.ts:680-765 | every created rule is in a valid mode, and its conditions pass their schemas when the check on creation passed |
| RuleStore.RequestForms | packages/shared/src/types/library-cleanup.ts:502-524 | an update request carries an expression by itself, or an operator only with a non-empty list |
| RuleStore.CreationForms | packages/shared/src/types/library-cleanup.ts:435-500 | a new rule is accepted in exactly three forms: a single condition, an operator with a list, or an expression |
| RuleStore.StaleReadBreaksMode | apps/api/src/routes/library-cleanup.ts:837-1028 | a type change accepted against a single condition that another accepted update has since made an expression leaves the row in no mode |
| CleanupPolicy.DefiniteAnswersAreRight | apps/api/src/lib/library-cleanup/rule-evaluators.ts:2710-2794 | a true or false answer is the ordinary truth of the tree, however the unknown conditions turn out |
| CleanupPolicy.EvaluateIsKleene | apps/api/src/lib/library-cleanup/rule-evaluators.ts:2710-2794 | the answer is that of Kleene's three-valued logic: least child of a conjunction, greatest of a disjunction, the scale turned round by a negation |
| CleanupPolicy.BecauseIs | apps/api/src/lib/library-cleanup/rule-evaluators.ts:2734-2793 | which conditions an answer names: those of the first deciding child, or of all children in order |
| CleanupPolicy.FullEvidenceDecides | apps/api/src/lib/library-cleanup/rule-evaluators.ts:2710-2794 | with evidence for every condition the answer is the ordinary truth |
| CleanupPolicy.BecauseSuffices | apps/api/src/lib/library-cleanup/rule-evaluators.ts:2710-2794 | the named evidence conditions are definite, and evidence agreeing on just those gives the same answer |
| CleanupPolicy.MoreEvidenceAgrees | apps/api/src/lib/library-cleanup/rule-evaluators.ts:2710-2794 | more evidence never changes a definite answer |
| CleanupPolicy.EvaluateItemPolicy | apps/api/src/lib/library-cleanup/rule-evaluators.ts:2894-2928 | sorts the rules; the first retention rule that is not disproved protects; otherwise the first proven cleanup rule removes; otherwise nothing matches |
| CleanupPolicy.DecisionMeans | apps/api/src/lib/library-cleanup/rule-evaluators.ts:2889-2928 | in terms of the unsorted rules: of those that are not disproved the retention rule of lowest priority and then first id retains; only when there is none does the proven cleanup rule of lowest priority and then first id remove |
| CleanupPolicy.PolicyIsSafe | apps/api/src/lib/library-cleanup/rule-evaluators.ts:2846-2928 | whatever is true beyond the evidence, an item is removed only by a cleanup rule that truly matches it, when every retention rule that speaks of it can be run and truly does not match |
| CleanupPolicy.MissingEvidenceRemovesNoMore | apps/api/src/lib/library-cleanup/rule-evaluators.ts:2862-2882 | an item removed with evidence missing is also removed with all evidence, by the same rule or an earlier one |
| CleanupPolicy.DecisionIsDeterministic | apps/api/src/lib/library-cleanup/rule-evaluators.ts:2889-2903 | however the rules arrive the decision is the same, unless two rules of one priority have ids that tie |
| Approvals.ApprovalQueue.UpdateMany | apps/api/src/routes/library-cleanup.ts:323-334 | each of the conditional updates: rows that do not satisfy its condition stay as they are, the others get its status, token and review time and keep owner and expiry; the count is the number of rows that changed |
| Approvals.ApprovalQueue.ApproveOne | apps/api/src/routes/library-cleanup.ts:1440-1457 | sweeps, then approves the row iff it is the user's, pending and unexpired; the winner's row carries its token |
| Approvals.ApprovalQueue.RejectOne | apps/api/src/routes/library-cleanup.ts:1535-1547 | rejects the row iff it is the user's, pending and unexpired |
| Approvals.ApprovalQueue.Bulk | apps/api/src/routes/library-cleanup.ts:1568-1609 | the bulk forms of the two, approval after a sweep; the count is the number of named rows the pending view shows |
| Approvals.ApprovalQueue.WithdrawFor | apps/api/src/lib/services/service-identity-lifecycle.ts:164-185 | the loop expires exactly the user's open approvals that rest on the replaced provider |
| Approvals.ApprovalQueue.UpdateEach | apps/api/src/lib/library-cleanup/cleanup-executor.ts:4425-4453 | the loop of single-row updates applies each once, and wins exactly the rows whose condition held |
| Approvals.ApprovalQueue.ExecuteApproved | apps/api/src/lib/library-cleanup/cleanup-executor.ts:2896-2945 | with nothing in between, every named row approved under the request ends as its execution left it if it was claimed in time, and back in `pending` if not, under no token; every other row is unchanged |
| Approvals.SettledIsFinal | apps/api/src/lib/library-cleanup/cleanup-executor.ts:1164-1182 | over every interleaving a rejected, expired or executed row never changes |
| Approvals.AlwaysHeldRight | apps/api/src/lib/library-cleanup/cleanup-executor.ts:4431-4447 | over every interleaving approved and running rows carry a token and a time, and rows nobody holds carry none |
| Approvals.SchedulerIsPatient | apps/api/src/lib/library-cleanup/cleanup-scheduler.ts:355-515 | the scheduler expires exactly what has run out and takes exactly the rows not heard of since the given time |
| Approvals.WorkersTake | apps/api/src/lib/library-cleanup/cleanup-executor.ts:4431-4447 | a worker takes its user's approved row in time, and one left for a retry whatever its expiry |
| Approvals.WorkersWriteTheirOwn | apps/api/src/lib/library-cleanup/cleanup-executor.ts:1164-1182 | a worker renews and finishes exactly the row it holds, with the status its outcome stands for |
| Approvals.ComesBackOnlyByReturn | apps/api/src/lib/library-cleanup/cleanup-executor.ts:2896-2908 | a row that left `pending` comes back only because its request released it, its worker failed, or the scheduler recovered it; it carries no token then |
| Approvals.LeavesOncePerReturn | apps/api/src/routes/library-cleanup.ts:1442-1454 | between two updates that take a row out of `pending` there is one that puts it back |
| Approvals.ApprovedHasOneWinner | apps/api/src/routes/library-cleanup.ts:1436-1457 | an approved row owes it to exactly one update, of its owner, before it expired, and carries that update's token and time ever since |
| Approvals.NothingRunsUnapproved | apps/api/src/lib/library-cleanup/cleanup-executor.ts:4425-4447 | over every interleaving a row from the queue is worked on, left for a retry or executed only after its owner approved it and a worker claimed it, both before it expired, the claim naming no other request than the approving one |
| Approvals.OneClaimPerApproval | apps/api/src/lib/library-cleanup/cleanup-executor.ts:4431-4447 | between two workers claiming a row its owner approved it anew |
| Approvals.LostClaimIsPowerless | apps/api/src/lib/library-cleanup/cleanup-executor.ts:1164-1182 | a worker whose row was recovered, withdrawn or released never writes it again, whoever claimed it since |
| Approvals.ExecutedHasOneWorker | apps/api/src/lib/library-cleanup/cleanup-executor.ts:5274-5286 | an executed row was recorded so once, by the worker whose claim then stood |
| Approvals.ExpiredIsNeverApproved | apps/api/src/routes/library-cleanup.ts:1597-1603 | once every update that decides or claims compares with a time at which a queued row has run out, the row is never approved, swept or not |
| Approvals.ExpiredIsNeverStarted | apps/api/src/lib/library-cleanup/cleanup-executor.ts:4431-4439 | from then on a row that nobody had claimed is never worked on, even if it was approved in time |
| Approvals.ViewsPartition | apps/api/src/routes/library-cleanup.ts:1372-1381 | at any instant the pending and the expired view are disjoint and cover all such rows, a sweep at that instant changes neither, and the user's own leaves nothing overdue pending |
| Approvals.PendingViewIsWhatCanBeDecided | apps/api/src/routes/library-cleanup.ts:1373-1373 | what approve and reject can change at an instant is exactly what the pending view shows then |
| AuditPaging.FindsTheNewest | apps/api/src/routes/library-cleanup.ts:1682-1689 | the query read backwards is the end of the action's history |
| AuditPaging.HistoryIsExactly | apps/api/src/routes/library-cleanup.ts:1682-1689 | the history of an action is exactly its owner's events of it, each once |
| AuditPaging.OlderPageComesJustBefore | apps/api/src/routes/library-cleanup.ts:1762-1793 | a page below a cursor is the stretch of history just before it, and its cursor is null exactly at the beginning |
| AuditPaging.FollowingHoldsTheHistory | apps/api/src/routes/library-cleanup.ts:1750-1793 | for any page sizes and any newer events, the client always holds a gapless end of the history, growing by at least one event a request |
| AuditPaging.WalkIsCompleteIff | apps/api/src/routes/library-cleanup.ts:1664-1724 | the walk ends; it delivers every event up to the first response exactly once in id order if and only if the count did not stop at a full timeline that the log then outgrew |
| AuditPaging.CursorGetsLost | apps/api/src/routes/library-cleanup.ts:1664-1724 | one event recorded between a count of 200 and the read: the walk does not deliver the history |
| AuditPaging.WalkOfOneSnapshotIsComplete | apps/api/src/routes/library-cleanup.ts:1664-1793 | with count and events from one snapshot the walk delivers exactly the history |
| ServiceIdentity.ServiceRecord.HandlePut | apps/api/src/routes/services.ts:606-805 | which updates are refused, and for which reason, every column of the new row, and when the cache is cleared with it |
| ServiceIdentity.ServiceRecord.BuildUpdate | apps/api/src/routes/services.ts:684-761 | the updated row: resubmitted ARR credentials are kept, the generations move, the identity is reset on leaving the providers |
| ServiceIdentity.ServiceRecord.HandleVerify | apps/api/src/routes/services.ts:884-932 | only the confirmed server is enrolled, under the expected generations and never over another one; each refusal's reason; the cache is cleared iff the identity generation moved |
| ServiceIdentity.ServiceRecord.HandleReplace | apps/api/src/routes/services.ts:961-1051 | replacement enrols only the confirmed server, over an enrolled one and under the expected generations, and expires the approvals that rest on what it replaces; a repetition is recognised and writes nothing; each refusal's reason |
| ServiceIdentity.ServiceRecord.ObserveForPublication | apps/api/src/lib/services/provider-identity-guard.ts:124-258 | a publisher that sees another server marks the row only if the row is still the verified one it started from and the run in progress is its own |
| ServiceIdentity.ServiceRecord.PublishEntry | apps/api/src/lib/services/provider-identity-guard.ts:104-170 | an entry is stored only under the exact verified row the publisher started from and under its own run |
| ServiceIdentity.StepMovesForward | apps/api/src/routes/services.ts:744-805 | no step lowers a generation, and one that moves a generation clears the cache with it |
| ServiceIdentity.IdentityChangesOnlyBy | apps/api/src/routes/services.ts:671-683 | a recorded identity changes only by a replacement or by leaving the provider family |
| ServiceIdentity.GenerationsNeverDecrease | apps/api/src/routes/services.ts:744-761 | over every run of update, verify, replace and publication |
| ServiceIdentity.GenerationNamesIdentity | apps/api/src/lib/services/service-identity-lifecycle.ts:53-93 | two states of a run with the same identity generation enrol the same server |
| ServiceIdentity.GenerationNamesConnection | apps/api/src/routes/services.ts:147-167 | two states of a run with the same connection generation reach a provider at the same address with the same credentials |
| ServiceIdentity.CacheIsAlwaysCurrent | apps/api/src/routes/services.ts:917-932 | in every reachable state every cached entry carries the current pair and was read from the enrolled server |
| ServiceIdentity.AtMostOneReplaceCommits | apps/api/src/routes/services.ts:1028-1051 | at most one replacement with a given expected pair ever writes |
| ServiceIdentity.RetryOfCommitted | apps/api/src/routes/services.ts:961-1011 | repeating a committed replacement never writes, and succeeds exactly while its identity generation stands, is verified, and the connection moved at most once since the inspection |
| ServiceIdentity.NothingRestsOnReplaced | apps/api/src/routes/services.ts:1048-1049 | over every run, after a replacement no open approval rests on what it replaced |
| AliasMigration.Migrate | apps/api/src/routes/services.ts:400-485 | the loop finds a conflict iff there is one; otherwise every row is moved or, when the survivor has it, dropped, and the unique key holds after every write |
| AliasMigration.MigrationPreserves | apps/api/src/routes/services.ts:400-485 | every value of the deleted instance is on the survivor, moved rows carry the survivor's stamp, all other rows are unchanged |
| AliasMigration.Database.MoveState | apps/api/src/routes/services.ts:346-486 | the state can move iff there is exactly one other alias, all rows of both are current and nothing conflicts |
| AliasMigration.Database.DeleteAlias | apps/api/src/routes/services.ts:250-492 | the deletion commits iff, row by row, nothing saved would be lost or change its meaning; then nothing saved is lost, the survivor's own rows and other instances are unchanged and keys stay unique; otherwise nothing changes |
| SignIn.AuthStore.RegisterFirst | apps/api/src/routes/auth.ts:70-94 | registration creates a user, with the given password, iff there is none |
| SignIn.AuthStore.ChangePassword | apps/api/src/routes/auth.ts:403-517 | the user has the given password and need not change it |
| SignIn.AuthStore.CreateFirstUser | apps/api/src/routes/auth-oidc.ts:522-544 | a first OIDC sign-in creates a linked user without a password iff there is none, and that user can sign in |
| SignIn.AuthStore.RemoveOwnPassword | apps/api/src/routes/auth.ts:582-619 | the password is removed iff provider version, link and password are still what was read |
| SignIn.AuthStore.LinkIdentity | apps/api/src/routes/auth-oidc.ts:561-587 | the conditions of a link; then the user has exactly the new link and the one new session, others keep theirs; or nothing changes |
| SignIn.AuthStore.DeleteProviderFor | apps/api/src/routes/oidc-providers.ts:356-429 | deletion commits iff session, provider version and password are still what was read; then the administrator has the replacement password, linked users without one have it and must change it, everyone else keeps theirs, no link and no session is left, and the count is exact |
| SignIn.AuthStore.ReplacePasswords | apps/api/src/routes/oidc-providers.ts:381-420 | the loop gives the password to the administrator and to every linked user without one, and counts them |
| SignIn.AuthStore.DeleteOwnAccount | apps/api/src/routes/auth.ts:674-706 | deletes exactly an account without password, link and passkey; in a safe state there is none |
| SignIn.UsersAlwaysCanSignIn | apps/api/src/routes/oidc-providers.ts:356-429 | over every interleaving a user once created exists for good and has a password, or a link while an enabled provider exists |
| SignIn.IdentitiesStayUnique | apps/api/src/routes/auth-oidc.ts:576-584 | over every interleaving no external identity is linked to two users |
| SignIn.OneFirstUser | apps/api/src/routes/auth-oidc.ts:522-544 | from an empty database at most one user is ever created |
| OidcStates.StateStore.BeginFlow | apps/api/src/routes/auth-oidc.ts:286-302 | a full store gives up its oldest flow, and never holds more than 1000 |
| OidcStates.StateStore.TakeFlow | apps/api/src/routes/auth-oidc.ts:364-381 | a callback gets the stored flow unless it expired, and the flow is gone either way |
| OidcStates.NeverOverfull | apps/api/src/routes/auth-oidc.ts:287-290 | over every run the store holds at most 1000 flows |
| OidcStates.AcceptedOnce | apps/api/src/routes/auth-oidc.ts:364-381 | an accepted callback answers a begun flow within 15 minutes, and no second one with its state is accepted |
| OidcStates.PromptCallbackIsAccepted | apps/api/src/routes/auth-oidc.ts:286-381 | a callback within 15 minutes is accepted unless 1000 newer flows began meanwhile |
| LoginLock.Account.Login | apps/api/src/routes/auth.ts:153-250 | the reply and the new counter and lock of one attempt: refused iff locked, else signed in iff the password is right, else locked anew iff the counter reached five |
| LoginLock.WrongAttemptsAreSpaced | apps/api/src/routes/auth.ts:169-185 | without a sign-in, wrong passwords after the fifth are compared at least a whole lock apart |
| LoginLock.WrongPasswordsAreBounded | apps/api/src/routes/auth.ts:153-185 | by time `t` at most 5 + floor((t - t5) / 15 min) wrong passwords were compared, `t5` being the time of the fifth |
| LoginLock.SignInStartsAnew | apps/api/src/routes/auth.ts:238-250 | a sign-in clears counter and lock, and the bound holds anew for the attempts after it |
| LoginLock.BoundIsExact | apps/api/src/routes/auth.ts:173-182 | the bound is reached for every number of locks |
| Launcher.Supervisor.OnSignal | apps/api/src/launcher.ts:46-94 | only the first signal acts: it cancels a pending restart and exits when no child runs |
| Launcher.Supervisor.ShouldAllowRestart | apps/api/src/launcher.ts:103-118 | exactly the timestamps less than a window old survive, in order; a restart is allowed iff fewer than ten of all restarts ever accepted are less than a minute old |
| Launcher.Supervisor.OnExit | apps/api/src/launcher.ts:161-205 | exit code, timer and recorded restart for every way a child can end |
| Launcher.Supervisor.OnTimer | apps/api/src/launcher.ts:190-195 | the delayed restart spawns a child unless shutdown began |
| Launcher.OneChildOrTimer | apps/api/src/launcher.ts:125-205 | in every order of events live children plus armed timers are at most one, and exactly one while the launcher runs |
| Launcher.NoSpawnAfterShutdown | apps/api/src/launcher.ts:125-130 | once shutdown began no child is spawned and no restart accepted |
| Launcher.RestartsAreAccounted | apps/api/src/launcher.ts:185-195 | every child but the first answers an accepted restart; only shutdown can cancel one |
| Launcher.StepStaysLimited | apps/api/src/launcher.ts:103-118 | every step keeps the pruned timestamps deciding as the full history would: a restart is denied iff ten accepted ones are less than a minute old |
| Launcher.RestartsAreLimited | apps/api/src/launcher.ts:171-187 | in every run every half-open window of 60,000 ms holds at most ten accepted restarts |

## Left out

- Snapshot file parsing, the parse cache, `describe`, `summarize` and `auto_targets`: file access and display.
- RetainerWalk.WalkRetainers: lines hold node numbers, edge type and name; the printed node description and indentation are not modelled.
- CanonicalEvidence.InsertionOrderIsIrrelevant: `localeCompare` is any total order in which different strings may tie; sparse arrays, cyclic values, bigints, functions and objects with their own `toJSON` or `toString` are not values of the model.
- EvidenceFingerprint.Accumulate: the hash is any function of the text as UTF-16 code units; its encoding to bytes is not part of this model.
- ExpressionShape.ValidateShape: values are trees, as a parsed request body is, so the guard against cyclic values built in memory is not modelled; of a fault the kind and the path are, its wording is not.
- RuleStore.RuleRecord.Validate: the filters, scope, action and rating columns are not modelled; whether they fit is an input, as is that the row exists. Reading a column gives back what was written.
- RuleStore.RunKeepsRule: reads agree on rule type, parameters and kind; `RuleStore.RunKeepsRuleIff` is about all runs.
- CleanupPolicy.EvaluateItemPolicy: takes the outcome of the service, instance, tag and title filters as a flag; the wording of match reasons and the action attached to a rule are not modelled.
- Approvals.LeavesOncePerReturn: that a row leaves the queue only once is not true of the code, which puts rows back whose execution was not claimed, failed or was interrupted. How rows get into the queue, what a worker does to the media before it reports, and the audit events are not modelled; which rows the scheduler recovers is an input beyond their status and age.
- Approvals.LostClaimIsPowerless: random tokens are all different.
- AuditPaging.WalkIsCompleteIff: the log only grows; `total`, the list of actions and the events' other columns are not modelled.
- ServiceIdentity.ServiceRecord.HandlePut: labels, tags, the default flag, qui observations and process-local caches are not modelled; normalized addresses and the check for unresolved ARR intents are inputs.
- ServiceIdentity.NothingRestsOnReplaced: approvals are queued by a run that holds the lease, with named instances and, of this service, only current observations; how a run gathers them is not modelled. Identity and instance fingerprints stand for what they are digests of.
- ServiceIdentity.CacheIsAlwaysCurrent: starts from an empty cache; entries from before generations were recorded are not modelled.
- AliasMigration.Database.DeleteAlias: the endpoint lock around the transaction and the check for active recovery before it are not modelled; address normalization and connection digests are fields of the instance.
- SignIn.UsersAlwaysCanSignIn: the provider is left enabled; disabling it through an update checks and writes in separate statements, as deleting passkeys does, and both are outside the invariant. A link does not record which issuer it came from, in the code or here. Restoring a backup replaces all users and is outside too.
- OidcStates.PromptCallbackIsAccepted: generated states are all different; code exchange and the provider's answers are not part of this model.
- LoginLock.WrongPasswordsAreBounded: handlers run one at a time, so two attempts never read the same counter. Deleting the OIDC provider and the two reset scripts clear counter and lock without a sign-in; a run of attempts starts anew there. The 200 ms delay and notifications are not modelled.
- Launcher.Supervisor.OnExit: log output and how the child is started are not modelled; after a failed spawn the child is counted as left behind.
- Schedulers, heap monitor, notifications, hunting, queue cleaner, backup and system routes, and the web application: thin plumbing or display.
