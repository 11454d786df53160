# KarsaSec: protocols, limiters, graph algorithms and ledgers

A Dafny model of the parts of KarsaSec that are algorithms or protocols, with proofs of what they
promise. Each module follows one source file or one component of it; objects whose methods update
fields are classes, loops are loops with invariants, and a method that changes state is proved
against a function or relation about which the results are then proved as lemmas over all inputs and
all runs.

- **AI gateway.** `AiLedger` holds the budget and request rows, the conditional updates, and the sums
  of request figures that a budget row has to match. `AiSession` has the services as methods on one
  database session. `AiInterleaving` splits every call into read, charge and compare-and-set, runs any
  number of transactions step by step in any order, and proves conservation for every reachable state.
  The core is `SnapshotStillValid`: a status may come back to an old value (IN_FLIGHT,
  PROVIDER_FAILED, ROUTED, IN_FLIGHT), but within one phase the figures of a row do not move.
  `AiSerial` has serial runs, where less is asked of callers; `AiCalls` says exactly when each call is
  accepted, what it leaves and what a repetition is answered. `AiExecution` is the attempt loop over the
  session, and `AiIsolation` proves that it goes the same way among arbitrary steps of other transactions.
  `AiReleaseTarget` finds the targets a release may have, `AiTokenOverrun` how far a token
  limit can be passed.
- **Limiters and breakers.** `RateLimiter`, `ProviderBreaker` and `ActionBreaker` are timed state
  machines over the reals, with results about whole runs and arbitrary stretches of time.
- **Graphs and sets.** `CpgModels` and `Traversal` (work-list searches, shortest paths), `Integrity`
  (three-colour cycle search, component count), `UnionFind` and `FindingCorrelator` (clusters as
  connected components of the all-pairs relation), `RuleRegistry` (index against linear scan).
  `Reach` and `Ordering` hold what they share: paths in a relation, and stable sorting; `Common` what
  all modules share.
- **Outbox and ledgers.** `Outbox` (claim, publish, fail, across publishers and rolled back polls),
  `ReleaseLedger` and `TaskLedger` (hash chains).
- **Statistics.** `Wilson` compares the two implementations of the score interval.

`dafny verify dfyconfig.toml` checks the whole project.

## Where the code does less than its documentation or names suggest

Each of these has the exact condition under which the promise holds, and an input on which it fails.

- The node listings skip undeclared ids while `reachability` walks through them. They agree exactly
  when every id reachable from the start is declared (`ListingAgreesIffDeclared`,
  `ListingMissesReachable`).
- `release_reservation` documents a terminal target but accepts any status the state machine allows.
  With ROUTED, IN_FLIGHT or PROVIDER_FAILED concurrent calls can give the same tokens back twice; with
  every other target conservation holds on every interleaving (`ConservedExactlyWhenNotLive`). Serial
  runs conserve with any target (`SerialRunsBalance`).
- A transition straight to a terminal status ends the request without giving its tokens back
  (`ShortcutKeepsTokens`, `ShortcutStrandsTokens`).
- A budget's token limit bounds reservations. Completed requests may use more than they reserved; the
  limit is passed by at most that much (`TokenLimit`), and any such excess occurs (`LimitPassedByAny`).
- A commit refused for the cost limit leaves the request IN_FLIGHT with its tokens still reserved
  inside the session (`SettledExactlyWhenAccepted`, `CostOverLimit`).
- A negative number of tokens is accepted. Only with one can a bucket leave its range
  (`RangeKeptIffNonNegative`, `LeavesRangeIff`), and only with one can more be handed out than the
  bound allows (`GrantsBoundedIffNonNegative`, `GivenBackAndTaken`).
- A caller told to wait is admitted afterwards exactly when the capacity is large enough
  (`WaitThenTokensPass`, `WaitInVain`).
- A half-open circuit whose probes ended in failures that are not the provider's fault records no
  outcome and refuses, however much time passes, exactly until an outcome is recorded
  (`UsedUpProbesStay`, `OutcomeFrees`, `ProbesGetUsedUp`).
- A task chain verifies after every row exactly when no later row precedes an earlier one by (creation
  time, id), unless two texts of the run collide (`RunVerifiesIffInOrder`). Ids are random, so two rows
  with one timestamp may come out in the other order (`SameMomentBreaks`).
- The text hashed for a task row joins its fields with colons. A state or a worker that contains a
  colon always has a different reading with the same hash (`ColonsAreAmbiguous`); among rows without
  such fields the text determines the row (`TextDetermines`).
- Registering a rule under a name that leads to another rule can take that rule's last name away while
  the index still finds it. Lookup and scan stay in agreement exactly when that does not happen to a
  rule that can match (`RegisterAgreesIff`, over runs `RunAgreesIff`; `RegisterAgain` is an example).
- The two Wilson functions compute the same interval for the same z and some trials (`SameInterval`),
  but their built-in z values differ (`ConstantsDiffer`), and they disagree for no trials
  (`NoTrialsDiffer`).
- A digest of fixed length has collisions, so tamper evidence reads: same history, or two different
  texts hashed for the records at hand have the same digest (`LastHashFixesHistory`).

## Model

| member | source | states |
|---|---|---|
| CpgModels.CPGGraph.constructor | karsasec/cpg/models.py:131-136 | an empty graph whose two adjacency dictionaries agree with its (empty) edge list |
| CpgModels.CPGGraph.AddNode | karsasec/cpg/models.py:138-144 | adds or replaces the node under its id, touches no edge, and keeps both adjacency dictionaries equal to the edge list regrouped by source and by target |
| CpgModels.CPGGraph.AddEdge | karsasec/cpg/models.py:146-155 | appends one edge (duplicates and dangling ends included) and keeps both dictionaries equal to the regrouped edge list |
| CpgModels.CPGGraph.GetOutgoingEdges | karsasec/cpg/models.py:157-158 | the edges that leave the id, in insertion order and as often as they were added; none for an unknown id |
| CpgModels.CPGGraph.GetIncomingEdges | karsasec/cpg/models.py:160-161 | the edges that enter the id, in insertion order and as often as they were added; none for an unknown id |
| Traversal.GraphTraversal.Dfs | karsasec/cpg/traversal.py:17-38 | lists, once each, exactly the declared nodes reachable through declared nodes, in depth-first order: when a, b, c are listed in this order and c is a successor of a, then b is a successor of some node from a up to the one before b; each node is listed through its latest listed predecessor, the successors of one node from the edge added last to the first |
| Traversal.GraphTraversal.Bfs | karsasec/cpg/traversal.py:40-61 | the same nodes in breadth-first order: when a, b, c are listed in this order and c is a successor of a, then b is a successor of a or of a node before it; each node is listed through its first listed predecessor, the successors of one node in the order of their edges |
| Traversal.GraphTraversal.ReverseDfs | karsasec/cpg/traversal.py:63-82 | the depth-first listing over the reversed edges, the predecessors of one node from the edge added last to the first |
| Traversal.GraphTraversal.Reachability | karsasec/cpg/traversal.py:84-99 | terminates, and answers True exactly when a chain of edges leads from start to target, declared or not |
| Traversal.GraphTraversal.ShortestPath | karsasec/cpg/traversal.py:101-120 | empty exactly when start is the target or the target is unreachable; otherwise a chain of graph edges from start to target that no other such chain undercuts |
| Traversal.ListingAgreesIffDeclared | karsasec/cpg/traversal.py:17-99 | the node listings agree with reachability if and only if every id reachable from the start is declared |
| Traversal.ListingMissesReachable | karsasec/cpg/traversal.py:40-99 | a graph with an edge through an undeclared id: reachability says True and the listing misses the node |
| Traversal.SearchesAgree | karsasec/cpg/traversal.py:17-99 | without dangling edges, forward listing, backward listing and reachability answer the same about every pair of nodes |
| Traversal.VisitEntry | karsasec/cpg/traversal.py:24-37 | expanding one work-list entry keeps the search invariant: listed nodes are reachable, every successor still to be listed is queued by each listed predecessor |
| Traversal.VisitKeepsDiscipline | karsasec/cpg/traversal.py:22-36 | taking the last entry makes parents the latest predecessors, taking the first entry the earliest |
| Traversal.LevelsFound | karsasec/cpg/traversal.py:112-115 | the first edge that hits the target completes a chain no longer than any other |
| Traversal.LevelsExhausted | karsasec/cpg/traversal.py:105-120 | an exhausted queue means that the target is unreachable |
| UnionFindModel.UnionFind.Find | karsasec/analysis/finding_correlator.py:33-37 | terminates, returns the root the element had, leaves the element pointing straight at it, and changes no root |
| UnionFindModel.UnionFind.Union | karsasec/analysis/finding_correlator.py:39-47 | afterwards the structure represents exactly the equivalence generated by the old pairs and the new one |
| UnionFindModel.UnionFind.Components | karsasec/analysis/finding_correlator.py:49-54 | lists exactly the classes of the united pairs, each in increasing order, ordered by smallest member, without changing any root |
| UnionFindModel.SameRootIffConnected | karsasec/analysis/finding_correlator.py:33-47 | two elements have the same root exactly when a chain of united pairs joins them |
| UnionFindModel.RootIsSmallest | karsasec/analysis/finding_correlator.py:39-47 | every root is the smallest member of its class in string order |
| UnionFindModel.RootsDetermined | karsasec/analysis/finding_correlator.py:39-47 | the roots depend only on the set of united pairs, not on their order or on compressions |
| UnionFindModel.CompressKeepsRoots | karsasec/analysis/finding_correlator.py:34-36 | pointing an element at its root changes no root and keeps pointers descending |
| UnionFindModel.AttachMovesRoot | karsasec/analysis/finding_correlator.py:42-47 | hanging one root below a smaller one moves exactly its own class |
| FindingCorrelator.Correlate | karsasec/analysis/finding_correlator.py:204-305 | the clusters are exactly the connected components of compatibility over all pairs of ids: none missing, none split or merged, members sorted, class shared; the clusters come sorted by their id |
| FindingCorrelator.CompatibleIsCandidate | karsasec/analysis/finding_correlator.py:57-98 | a compatible pair shares a key of one of the four indexes, so candidate generation never misses one |
| FindingCorrelator.JoinedExactlyBy | karsasec/analysis/finding_correlator.py:57-98 | two findings are compatible if and only if they are of one class and share a flow that is not missing, both facts with a source that is not missing, both nodes with a source node that is not missing, or the source fact and the call context last recorded |
| FindingCorrelator.SourceAloneNeverJoins | karsasec/analysis/finding_correlator.py:57-98 | a shared source joins nothing when flows, sinks and contexts differ |
| FindingCorrelator.MissingNeverJoins | karsasec/analysis/finding_correlator.py:63-84 | missing flows, sources and nodes join nothing |
| FindingCorrelator.MergedIsAllPairs | karsasec/analysis/finding_correlator.py:232-266 | merging only compatible candidates generates the same components as the all-pairs relation |
| FindingCorrelator.CandidatePairs | karsasec/analysis/finding_correlator.py:232-257 | the candidates are exactly the ordered pairs found in one of the four indexes; they hold every two compatible findings, and only ids that exist |
| FindingCorrelator.BuildIndexes | karsasec/analysis/finding_correlator.py:220-230 | each index files exactly the given findings, under their key |
| FindingCorrelator.MergeCandidates | karsasec/analysis/finding_correlator.py:259-266 | the components are exactly the classes generated by the compatible candidates |
| FindingCorrelator.ClassIsShared | karsasec/analysis/finding_correlator.py:268-305 | findings joined by compatible pairs have one vulnerability class, so the class of the first member speaks for its cluster |
| FindingCorrelator.ByIdSort | karsasec/analysis/finding_correlator.py:204-218 | sorting findings by id first does not change which of two findings with equal ids is kept |
| Integrity.Check | karsasec/framework/integrity.py:17-122 | dangling ends and repeated edges are reported exactly; a cycle is reported if and only if the links between declared nodes contain one; the disconnected notice is given exactly when there is more than one class of undirected connectivity, with their number |
| Integrity.CycleSearch.Dfs | karsasec/framework/integrity.py:67-83 | started at a white node while every grey node leads to it or to a cycle, it answers True exactly when a cycle can be reached; marks left grey after a hit all lead to cycles |
| Integrity.FindCycles | karsasec/framework/integrity.py:60-88 | some warning exactly when there is a cycle, self-loops included, for every node order; every named node leads to a cycle |
| Integrity.FinishedReachesNoCycle | karsasec/framework/integrity.py:67-83 | a node marked finished reaches no cycle |
| Integrity.GreyHit | karsasec/framework/integrity.py:73-78 | meeting a grey neighbour means that a cycle can be reached, even if the grey mark is left over from an earlier search |
| Integrity.CountComponents | karsasec/framework/integrity.py:90-120 | the count equals the number of classes of undirected connectivity of the nodes, chains through undeclared ids included |
| Integrity.Flood | karsasec/framework/integrity.py:104-114 | afterwards the visited ids are closed under the links, and each hangs together with one of the nodes counted so far, the new start included |
| Integrity.CountStep | karsasec/framework/integrity.py:102-114 | a node already visited adds no class and a node not yet visited adds exactly one |
| Integrity.FindDuplicates | karsasec/framework/integrity.py:44-58 | an edge that occurs n times is reported n-1 times |
| Integrity.FindDangling | karsasec/framework/integrity.py:23-42 | a diagnostic for a source or a target exactly when that end of an edge is undeclared, as often as the edge occurs |
| AiStateMachine.PhaseNeverFalls | karsasec/ai/state_machine.py:36-74 | a legal transition never goes back a phase and stays in one only while the request holds a reservation |
| AiStateMachine.LegalPathPhases | karsasec/ai/state_machine.py:36-74 | no sequence of legal transitions leaves a terminal state or returns to CREATED |
| AiStateMachine.Predecessors | karsasec/ai/state_machine.py:36-74 | exactly which statuses lead to each status, CANCELLED and FAILED from every status that has not ended |
| AiStateMachine.CompletedPath | karsasec/ai/state_machine.py:36-74 | every run from CREATED to COMPLETED goes through RESERVED and ROUTED first, is in flight just before its end, and is routed, in flight or failed at the provider in between |
| AiSession.Session.ReserveTokens | karsasec/ai/budget.py:21-63 | the conditional update of the budget row, or the error that fits, and then nothing changed |
| AiSession.Session.CommitTokens | karsasec/ai/budget.py:66-113 | the same for a commit: reservation, use and cost move together or not at all |
| AiSession.Session.ReleaseTokens | karsasec/ai/budget.py:116-154 | the same for a release; releasing nothing succeeds without a budget row |
| AiSession.Session.CreateRequest | karsasec/ai/request.py:39-104 | creates one fresh row, or finds the same request again, or fails with the error that fits; once accepted the row carries all four identity fields; a missing budget rolls the session back, any other error changes nothing |
| AiSession.Session.ReserveBudget | karsasec/ai/request.py:107-154 | performs exactly the reference call on both tables; once accepted the request stands at RESERVED with exactly the tokens passed, and a repetition changes nothing |
| AiSession.Session.TransitionStatus | karsasec/ai/request.py:157-204 | performs exactly the reference call; once accepted the request has left the expected status for the new one and names the provider and model given |
| AiSession.Session.CommitExecution | karsasec/ai/request.py:207-269 | performs exactly the reference call on both tables; once accepted the request is COMPLETED with exactly the tokens and the cost passed, and a repetition changes nothing |
| AiSession.Session.ReleaseReservation | karsasec/ai/request.py:272-317 | performs exactly the reference call on both tables; once accepted the request is at the target status, holds nothing if it was not there before, and a repetition changes nothing |
| AiSession.Session.RecordAttempt | karsasec/ai/router.py:209-254 | one row per attempt number; a second one rolls the session back to its start |
| AiCalls.CreateAccepted | karsasec/ai/request.py:58-104 | a create is accepted if and only if the hashes are well-formed and either all four identity fields of the existing row are the same or the budget exists; what it leaves |
| AiCalls.ReserveAccepted | karsasec/ai/request.py:107-154 | a reservation is accepted if and only if the request already holds exactly these tokens at RESERVED, or is CREATED, asks for some and they fit the limit; which rows change and how |
| AiCalls.TransitionAccepted | karsasec/ai/request.py:157-204 | a transition is accepted if and only if the request is at the expected status and the step is legal; which row changes and how |
| AiCalls.CommitAccepted | karsasec/ai/request.py:207-269 | a commit is accepted if and only if the request is COMPLETED with exactly these figures, or is in flight, the figures are not negative, its tokens are counted as reserved and its cost fits the limit; which rows change and how |
| AiCalls.ReleaseAccepted | karsasec/ai/request.py:272-317 | a release is accepted if and only if the request has ended in the target status, or may go there and its tokens are counted as reserved; which rows change and how |
| AiCalls.CommitRefused | karsasec/ai/request.py:222-246 | the error of every refused commit |
| AiCalls.CreateRefused | karsasec/ai/request.py:58-104 | the error of every refused create |
| AiCalls.TransitionRefused | karsasec/ai/request.py:173-202 | the error of every refused transition |
| AiCalls.ReserveRefused | karsasec/ai/request.py:123-138 | the error of every refused reservation |
| AiCalls.ReleaseRefused | karsasec/ai/request.py:283-299 | the error of every refused release |
| AiCalls.CommitRepeated | karsasec/ai/request.py:223-230 | after a commit and any serial run, a second commit is accepted if and only if its figures are the first one's, and changes nothing |
| AiCalls.ReleaseRepeated | karsasec/ai/request.py:287-292 | after a release to a terminal status and any serial run, a second release is accepted if and only if it names the same status, and changes nothing |
| AiCalls.ReserveRepeated | karsasec/ai/request.py:127-135 | after a reservation and any serial run, while the request stands at RESERVED a second one is accepted if and only if it asks for as many tokens, and changes nothing; afterwards it is refused |
| AiCalls.EndedRowsStay | karsasec/ai/request.py:39-317 | a request that has ended keeps its row through every serial run |
| AiLedger.ChargeMovesDelta | karsasec/ai/budget.py:21-154 | an accepted budget update moves the row by exactly what the call will do to the request's figures, keeps the cost limit, and exceeds the token limit by use beyond reservations only |
| AiLedger.WriteSettles | karsasec/ai/request.py:135-154 | writing the request row moves the sums over the requests by exactly what the budget was charged |
| AiInterleaving.SnapshotStillValid | karsasec/ai/request.py:130-154 | the status compare-and-set suffices although statuses come back: a row found with the status that was read has the figures that were read |
| AiInterleaving.StepKeeps | karsasec/ai/request.py:39-317 | every step of every transaction (create, read, charge, settle, commit, rollback) keeps the invariant of committed tables and open transactions |
| AiInterleaving.Conservation | karsasec/ai/request.py:107-317 | after every interleaving whose releases do not go to a live status, each budget's reserved tokens, used tokens and used cost equal the sums over its requests, and the cost is within its limit |
| AiInterleaving.TokenLimit | karsasec/ai/budget.py:37-113 | after every such interleaving used plus reserved exceeds the token limit by at most what completed requests used beyond their reservations, so not at all if none did |
| AiTokenOverrun.LimitPassedByAny | karsasec/ai/budget.py:66-113 | the bound is reached: for every d > 0 a run, from a budget of one token and no request, passes the limit by exactly d, which its one completed request used beyond its reservation |
| AiInterleaving.TerminalHoldsNothing | karsasec/ai/request.py:272-317 | in runs without a transition straight to a terminal status, a request that ended holds no tokens |
| AiInterleaving.CommittedRowsEvolve | karsasec/ai/state_machine.py:36-74 | over every interleaving a committed request never disappears, changes budget or falls back a phase, and within a phase its figures stay |
| AiInterleaving.EndedRowsStay | karsasec/ai/state_machine.py:36-74 | over every interleaving a committed request that has ended never changes again |
| AiInterleaving.CallStepsPerform | karsasec/ai/request.py:107-317 | run back to back, the three steps of a call have exactly the effect of the reference call, or roll the transaction back |
| AiInterleaving.CreateStepPerforms | karsasec/ai/request.py:58-104 | creating a request by a transaction that waits for no lock has the effect of the reference, or rolls the transaction back |
| AiSerial.PerformKeepsBalance | karsasec/ai/budget.py:80-154 | serially every call, with any target and any amounts, keeps the sums, and the errors about too few reserved tokens cannot occur |
| AiSerial.SerialRunsBalance | karsasec/ai/request.py:39-317 | creates, calls of any kind, commits and rollbacks, one after the other, keep what is committed and what the session sees equal to the sums |
| AiSerial.NeverShortOfReserved | karsasec/ai/budget.py:80-154 | in no serial run does any call fail for want of reserved tokens |
| AiSerial.ShortcutKeepsTokens | karsasec/ai/request.py:157-204 | a transition straight to a terminal status keeps ended requests free of tokens if and only if the request held none |
| AiReleaseTarget.ConservedExactlyWhenNotLive | karsasec/ai/request.py:272-317 | for every target: all interleavings whose releases go to a terminal status or to that target conserve, if and only if the target is not ROUTED, IN_FLIGHT or PROVIDER_FAILED |
| AiReleaseTarget.LiveReleaseBreaksConservation | karsasec/ai/request.py:272-317 | for each of those three a run that counts nothing as reserved while a request holds 100 tokens |
| AiReleaseTarget.ShortcutStrandsTokens | karsasec/ai/request.py:157-204 | from tables in order a transition from ROUTED to FAILED leaves an ended request that holds 100 tokens |
| AiExecution.Execute | karsasec/ai/execution.py:225-412 | a fresh request gets past the reservation exactly when hashes, budget and limit allow it, and otherwise raises the error that fits; then attempts 1 to k are recorded, k within both limits, each with its provider, model, outcome, error class and tokens, other requests' attempts untouched; every earlier one failed with a transient error class; only legal transitions are made; the run stops for a stated reason, and the request, its provider and its budget end as stated; the fallback return is never reached |
| AiExecution.NextAttemptExactlyWhen | karsasec/ai/execution.py:365-402 | over every run attempt n is followed by attempt n+1 if and only if response n failed with TIMEOUT, NETWORK_ERROR, PROVIDER_UNAVAILABLE, PROVIDER_THROTTLED or RATE_LIMIT, n is below both limits and a provider is eligible |
| AiExecution.RetryDecided | karsasec/ai/failure_classifier.py:69-153 | classifier and retry policy together retry exactly these five classes below the limit, and record the class as given, RATE_LIMIT as PROVIDER_THROTTLED and anything unknown as UNKNOWN_PROVIDER_ERROR |
| AiExecution.SettledExactlyWhenAccepted | karsasec/ai/execution.py:334-402 | the request ends COMPLETED or FAILED with nothing held if and only if the commit of a successful last response, if there was one, is within the cost limit and has no negative figure |
| AiExecution.CostOverLimit | karsasec/ai/execution.py:334-356 | a provider answers at a cost over the limit: the commit raises and the request stays IN_FLIGHT with its tokens reserved |
| AiExecution.GiveUp | karsasec/ai/execution.py:261-278 | without an eligible provider, on the first attempt or later, the reservation goes back and the request is FAILED |
| AiExecution.RunAttempt | karsasec/ai/execution.py:280-402 | one attempt either brings the request to the head of the loop for the next attempt, or ends the run as promised |
| AiExecution.WaitingReleases | karsasec/ai/execution.py:396-401 | releasing gives the budget back exactly the row it had before the request came |
| AiIsolation.ExecutionAmongOthers | karsasec/ai/execution.py:225-412 | a fresh request from its reservation to its end, among any steps of any other transactions: if no error is raised and the transaction commits, the committed request and budget rows are exactly those of the undisturbed run and the request is settled; if one is raised, nothing is left behind |
| AiIsolation.CallsAmongOthers | karsasec/ai/request.py:107-317 | a transaction that holds its request and budget rows ends its calls, among any steps of others, with exactly the tables of the reference, or is rolled back exactly when the reference refuses |
| AiIsolation.Projection | karsasec/ai/request.py:107-317 | among any steps of others such a transaction is at every moment in the state it would be in alone |
| AiIsolation.StepKeepsLocks | karsasec/ai/request.py:39-317 | no step of any transaction gives one row to two of them |
| AiIsolation.ReservationOwns | karsasec/ai/request.py:130-154 | settling its reservation makes a transaction the holder of both rows |
| RateLimiter.DistributedTokenBucket.CheckAndConsume | karsasec/ai/provider_rate_limiter.py:63-167 | one check: creation of a full row, cooldown, refill, the request bucket before the token bucket, consumption; no other row changes |
| RateLimiter.DistributedTokenBucket.SetCooldown | karsasec/ai/provider_rate_limiter.py:169-211 | sets or creates only the row of the provider and model, its buckets unchanged |
| RateLimiter.DistributedTokenBucket.IsInCooldown | karsasec/ai/provider_rate_limiter.py:213-234 | active exactly strictly before the end of the cooldown, with its reason and end |
| RateLimiter.CooldownRefuses | karsasec/ai/provider_rate_limiter.py:117-124 | from the setting of a cooldown to its end, whatever is checked in between, every check is refused with the reason, the end and the time that remains, and takes nothing |
| RateLimiter.CooldownFreezes | karsasec/ai/provider_rate_limiter.py:117-124 | while it lasts both buckets stay as they were |
| RateLimiter.AllowedExactlyWhen | karsasec/ai/provider_rate_limiter.py:126-167 | outside a cooldown a check is allowed if and only if one request and the tokens asked for are there after the refill; otherwise it names the short bucket, requests first, and how long it takes; what is left in both |
| RateLimiter.RunAllowedExactlyWhen | karsasec/ai/provider_rate_limiter.py:126-167 | the same after every run whose last cooldown has ended |
| RateLimiter.NewRowsHold | karsasec/ai/provider_rate_limiter.py:88-115 | a row that a check creates is full and not in cooldown, one that a cooldown creates is empty and in it |
| RateLimiter.RangeKeptIffNonNegative | karsasec/ai/provider_rate_limiter.py:117-167 | checks for a given number of tokens keep both buckets within zero and their capacity, for every row and time, if and only if the number is not negative; for a negative one a new row of the default policy leaves it |
| RateLimiter.LeavesRangeIff | karsasec/ai/provider_rate_limiter.py:117-167 | a single check leaves the range if and only if it is allowed and gives back more than there is room for |
| RateLimiter.WindowBound | karsasec/ai/provider_rate_limiter.py:117-167 | after any history, what is admitted within [s, t] (requests, and tokens net of those given back by negative requests) is at most the capacity plus the refill rate times t - s; without negative requests that bounds all that is handed out |
| RateLimiter.PolicyBound | karsasec/ai/provider_rate_limiter.py:63-167 | the same in the terms of the policy, for the row a check creates: limit times burst plus a sixtieth of the limit for each second |
| RateLimiter.ThrottledBound | karsasec/ai/provider_rate_limiter.py:169-211 | and for the row a cooldown creates, whose limits are fixed |
| RateLimiter.GrantsBoundedIffNonNegative | karsasec/ai/provider_rate_limiter.py:117-167 | over every policy and run whose requests are at least a given number, the tokens handed out stay within the bound if and only if that number is not negative |
| RateLimiter.GivenBackAndTaken | karsasec/ai/provider_rate_limiter.py:117-167 | with the default limits 60001 tokens are handed out in one moment, one having been given back in between |
| RateLimiter.AdmittedWithinAvailable | karsasec/ai/provider_rate_limiter.py:117-167 | a run admits, net of what is given back, at most what is available at its start plus what is refilled during it |
| RateLimiter.WaitThenRequestsPass | karsasec/ai/provider_rate_limiter.py:131-143 | a check refused for requests passes the request bucket after the returned time exactly when the bucket can hold one request, and not sooner |
| RateLimiter.WaitThenTokensPass | karsasec/ai/provider_rate_limiter.py:145-157 | a check refused for tokens is admitted after the returned time exactly when the bucket can hold as many, and not sooner |
| RateLimiter.OversizedNeverAllowed | karsasec/ai/provider_rate_limiter.py:117-167 | a check for more than the capacity is never allowed, whatever came before and however long one waits |
| RateLimiter.WaitInVain | karsasec/ai/provider_rate_limiter.py:145-157 | with the default limits, a check for 60001 tokens is told to wait, waits exactly as long, and is refused again |
| ProviderBreaker.WindowIsRecent | karsasec/ai/circuit_breaker.py:194-258 | over every run the stored window is exactly the last outcomes, up to the window size, recorded since the circuit last closed |
| ProviderBreaker.OpensExactlyWhen | karsasec/ai/circuit_breaker.py:217-258 | after every run that leaves the circuit closed, the next call opens it if and only if it records a provider failure and the recent outcomes are enough samples with a failure fraction at or above the threshold |
| ProviderBreaker.StaysOpen | karsasec/ai/circuit_breaker.py:131-258 | an open circuit stays open, with the same opening time, until its cooldown has elapsed, whatever is called |
| ProviderBreaker.OpenRefuses | karsasec/ai/circuit_breaker.py:145-178 | from every call that opens the circuit, on its first opening or after a failed probe, every is_open before the cooldown has elapsed answers True |
| ProviderBreaker.OpeningStamps | karsasec/ai/circuit_breaker.py:217-258 | a call that opens the circuit records its own time as the opening time |
| ProviderBreaker.ProbeDecides | karsasec/ai/circuit_breaker.py:194-258 | the first outcome recorded for a half-open circuit is a success if and only if the circuit is closed afterwards, with an empty window, and a provider failure if and only if it is open again from then on |
| ProviderBreaker.ElapsedDecides | karsasec/ai/circuit_breaker.py:194-258 | the same for a circuit recorded as open whose cooldown has elapsed |
| ProviderBreaker.EarlyOutcomesIgnored | karsasec/ai/circuit_breaker.py:194-258 | an outcome recorded before the cooldown has elapsed moves nothing but a throttling cooldown |
| ProviderBreaker.HalfOpensExactlyWhen | karsasec/ai/circuit_breaker.py:131-143 | asked for its state an open circuit is half open exactly when its cooldown has elapsed |
| ProviderBreaker.ClosedUntilThreshold | karsasec/ai/circuit_breaker.py:194-258 | a circuit that has closed stays closed through every run if and only if at no moment of it a provider failure meets the threshold |
| ProviderBreaker.ClosedAnswers | karsasec/ai/circuit_breaker.py:145-164 | until then is_open answers True exactly while a throttling cooldown is pending |
| ProviderBreaker.ThrottlingRefuses | karsasec/ai/circuit_breaker.py:145-192 | a throttling cooldown, set by a call or by a throttled failure, makes every is_open answer True until it ends or is set anew |
| ProviderBreaker.ProbesCounted | karsasec/ai/circuit_breaker.py:145-178 | within one half-open episode the calls let through are exactly the probes counted |
| ProviderBreaker.ProbeLimit | karsasec/ai/circuit_breaker.py:145-178 | one half-open episode lets at most the configured number of probes through |
| ProviderBreaker.FirstProbesPass | karsasec/ai/circuit_breaker.py:165-178 | without throttling the first calls up to the number of probes are let through, no fewer and no more, until an outcome is recorded |
| ProviderBreaker.FirstProbe | karsasec/ai/circuit_breaker.py:165-178 | the first call after the cooldown of an opening is let through as the first probe |
| ProviderBreaker.UsedUpProbesStay | karsasec/ai/circuit_breaker.py:145-258 | once the probes are used up, the circuit stays so after every call of a run if and only if no call of the run records an outcome |
| ProviderBreaker.UsedUpRefuses | karsasec/ai/circuit_breaker.py:145-178 | while they are used up, is_open answers True at any time |
| ProviderBreaker.OutcomeFrees | karsasec/ai/circuit_breaker.py:145-258 | after one more call, an is_open past the cooldowns still answers True if and only if that call recorded no outcome |
| ProviderBreaker.ProbesGetUsedUp | karsasec/ai/circuit_breaker.py:145-258 | with the default configuration such a state is reached: five provider failures, one probe, and a failure that is not the provider's |
| ProviderBreaker.ProviderCircuitBreaker.QueryOpen | karsasec/ai/circuit_breaker.py:145-178 | answers and changes exactly the circuit asked about as the state machine says |
| ProviderBreaker.ProviderCircuitBreaker.QueryState | karsasec/ai/circuit_breaker.py:131-143 | changes exactly the circuit asked about, to half open when its cooldown has elapsed, and returns its state |
| ProviderBreaker.ProviderCircuitBreaker.RecordThrottling | karsasec/ai/circuit_breaker.py:180-192 | sets the cooldown of exactly one circuit |
| ProviderBreaker.ProviderCircuitBreaker.RecordFailure | karsasec/ai/circuit_breaker.py:217-258 | records a provider failure on exactly one circuit; any other failure changes nothing |
| ProviderBreaker.ProviderCircuitBreaker.RecordSuccess | karsasec/ai/circuit_breaker.py:194-215 | records a success on exactly one circuit |
| ActionBreaker.CircuitBreakerEngine.CheckAndConsume | karsasec/autonomous/circuit_breaker.py:26-66 | one check on the engine's counters, in the order of the source's limits |
| ActionBreaker.AnsweredExactly | karsasec/autonomous/circuit_breaker.py:26-66 | over every run: while no check was refused, the next is answered by the time budget, the retries so far, the actions so far and the auto-blocks of the current window, in this order; after a refusal every check is |
| ActionBreaker.CountersOfRun | karsasec/autonomous/circuit_breaker.py:26-66 | over every run the counters are those of the checks made, and the engine is tripped if and only if one was refused |
| ActionBreaker.ActionsWithinBudget | karsasec/autonomous/circuit_breaker.py:26-66 | over every run the allowed actions are exactly those counted and stay within the action budget |
| ActionBreaker.NothingAfterTrip | karsasec/autonomous/circuit_breaker.py:26-66 | nothing is allowed and nothing changes after a trip |
| ActionBreaker.AutoBlocksInWindow | karsasec/autonomous/circuit_breaker.py:26-66 | any 3600 seconds of any run contain at most twice the window limit of allowed auto-blocks |
| ActionBreaker.WithinTwoWindows | karsasec/autonomous/circuit_breaker.py:38-60 | a stretch of one window length sees at most one reset of the counter |
| Outbox.TransactionalOutbox.StageEvent | karsasec/events/outbox.py:30-69 | adds one pending event, or returns an earlier one with the same non-empty deduplication key and changes nothing |
| Outbox.TransactionalOutbox.ClaimPendingEvents | karsasec/events/outbox.py:72-99 | claims exactly the oldest pending, unlocked rows up to the limit; every other row stays as it is |
| Outbox.TransactionalOutbox.MarkPublished | karsasec/events/outbox.py:102-123 | publishes exactly a claimed row whose publisher and lease token match |
| Outbox.TransactionalOutbox.MarkFailed | karsasec/events/outbox.py:126-147 | counts an attempt, gives up the lease, and leaves the event pending exactly while fewer attempts than allowed are counted, failed otherwise |
| Outbox.SelectedFacts | karsasec/events/outbox.py:77-90 | the selection is duplicate-free, pending, unlocked, within the limit, and not empty when there is something to select |
| Outbox.SelectedByAge | karsasec/events/outbox.py:79-86 | a waiting event is selected if and only if fewer events than the limit wait that were created before it |
| Outbox.ReliableEventPublisher.PollAndPublish | karsasec/events/publisher.py:36-95 | one poll deals with every claimed event, remembers exactly the completed ones, and calls the handler only for events it had not completed before |
| Outbox.StepKeepsTable | karsasec/events/publisher.py:36-95 | after every poll, committed or rolled back, no event is left claimed and a pending one has attempts left |
| Outbox.PollOutcome | karsasec/events/publisher.py:48-93 | a committed poll leaves an event it did not select alone, publishes it under its lease if the handler succeeds or had completed, and otherwise counts an attempt and returns it to pending exactly while fewer than five are counted |
| Outbox.RolledBackPoll | karsasec/events/publisher.py:36-95 | a rolled back poll leaves the table as it was, and what it completed is remembered all the same |
| Outbox.FailedExactlyAtFive | karsasec/events/publisher.py:36-95 | in every reachable table an event is FAILED if and only if five attempts are counted |
| Outbox.CallsAreAttempts | karsasec/events/publisher.py:36-95 | over committed runs the handler calls for an event are exactly the attempts counted, and one more when it is published |
| Outbox.SuccessInTimePublishes | karsasec/events/publisher.py:36-95 | an event whose handler succeeds at its n-th call, n at most five, ends PUBLISHED under enough effective polls |
| Outbox.StepFalls | karsasec/events/publisher.py:36-95 | a committed poll that selects something lowers the attempts remaining over all pending events; no poll raises them |
| Outbox.EverythingSettles | karsasec/events/publisher.py:36-95 | after as many effective polls as attempts remain, every event is PUBLISHED or FAILED |
| Outbox.AtMostFiveCalls | karsasec/events/publisher.py:36-95 | across publishers, over every run, a pending event reaches handlers at most five times, less its attempts already counted, plus once for each poll that rolled back |
| Outbox.CompletionsRemembered | karsasec/events/publisher.py:55-75 | over every run a publisher remembers exactly the completions it made, those of rolled back polls included |
| Outbox.CompletedAtMostOnce | karsasec/events/publisher.py:36-95 | one publisher never completes the handler for the same event twice, even if polls roll back |
| Outbox.PublishedWasCompleted | karsasec/events/publisher.py:36-95 | a pending event that ends published was completed by some publisher |
| ReleaseLedger.ReleaseAuditLedger.Append | karsasec/analysis/e16_audit.py:80-118 | appends one record with the next number, the previous hash and the sorted reason codes; an intact ledger stays intact |
| ReleaseLedger.ReleaseAuditLedger.VerifyIntegrity | karsasec/analysis/e16_audit.py:125-148 | True exactly when every record has its number, its link and its recomputable hash |
| ReleaseLedger.HashedTextSplits | karsasec/analysis/e16_audit.py:47-52 | the hashed text determines link and payload, since no link contains the brace that opens the payload |
| ReleaseLedger.LastHashFixesHistory | karsasec/analysis/e16_audit.py:47-148 | two verifying ledgers with the same last hash have the same length and agree on every hashed field, or a text hashed for a record of the one and a different text hashed for a record of the other have the same digest |
| ReleaseLedger.IntactSnoc | karsasec/analysis/e16_audit.py:125-148 | a ledger with one more record verifies exactly when the shorter one does and the record fits |
| TaskLedger.TaskAuditLedger.RecordTransition | karsasec/events/audit_ledger.py:50-96 | appends one row, linked to the task's latest row and hashed with it |
| TaskLedger.TaskAuditLedger.VerifyChainIntegrity | karsasec/events/audit_ledger.py:99-134 | succeeds exactly when every row of the task's chain has its link and its recomputable hash; otherwise names the first row that does not fit and whether its link is wrong |
| TaskLedger.OthersUnchanged | karsasec/events/audit_ledger.py:50-134 | recording for one task leaves every other task's chain as it is |
| TaskLedger.RecordVerifiesIffLatest | karsasec/events/audit_ledger.py:60-134 | recording keeps a chain verifying if and only if the new row comes last in the order by creation time and id, unless two different texts hashed for rows of that chain have the same digest |
| TaskLedger.RunVerifiesIffInOrder | karsasec/events/audit_ledger.py:50-134 | over every run: the chain of a task verifies after each request if and only if no later request of the task precedes an earlier one by time and id, unless two different texts hashed in the run have the same digest |
| TaskLedger.SameMomentBreaks | karsasec/events/audit_ledger.py:50-134 | two rows of a task with one timestamp, the second with the smaller id: the chain does not verify |
| TaskLedger.HashesDiffer | karsasec/events/audit_ledger.py:99-134 | no hash occurs twice in a verifying chain, unless two different texts hashed for its rows have the same digest |
| TaskLedger.RecordedChainsVerify | karsasec/events/audit_ledger.py:50-134 | every chain of a run in which no later request of the task precedes an earlier one by time and id verifies, collisions or not |
| TaskLedger.TextDetermines | karsasec/events/audit_ledger.py:33-47 | when no field before the last contains the separator, the hashed text determines the link and the transition up to the defaults for missing values |
| TaskLedger.ColonsAreAmbiguous | karsasec/events/audit_ledger.py:33-47 | otherwise it does not: for every transition with the separator in a state or in the worker there is a different one with the same text for every task and link |
| TaskLedger.LastHashFixesHistory | karsasec/events/audit_ledger.py:33-134 | two verifying chains of one task, with separator-free fields and the same last hash, record the same history, or a text of the one and a different text of the other have the same digest |
| TaskLedger.ColonRowCanBeReplaced | karsasec/events/audit_ledger.py:33-134 | in a verifying chain, every row with the separator in one of those fields can be replaced by a different one without changing any hash or breaking the chain |
| RuleRegistry.SecurityRuleRegistry.Register | karsasec/analysis/rule_registry.py:26-46 | both names lead to the rule, and the index grows by exactly its pairs |
| RuleRegistry.SecurityRuleRegistry.Unregister | karsasec/analysis/rule_registry.py:48-60 | both names of the rule go, and the index holds exactly what the table holds |
| RuleRegistry.SecurityRuleRegistry.RebuildIndex | karsasec/analysis/rule_registry.py:106-127 | the index holds exactly the rules of the table |
| RuleRegistry.SecurityRuleRegistry.Match | karsasec/analysis/rule_registry.py:67-87 | the sorted listing, each rule once, of exactly the indexed rules that match by equal lower-cased name or wildcard |
| RuleRegistry.SecurityRuleRegistry.All | karsasec/analysis/rule_registry.py:89-93 | the sorted listing, each once, of the rules of the table |
| RuleRegistry.MatchIsLinearScan | karsasec/analysis/rule_registry.py:26-127 | after every run over rules whose ids are unique and no other rule's key, the indexed answer is, element by element, the scan of the sorted table |
| RuleRegistry.FoundExactlyWhen | karsasec/analysis/rule_registry.py:67-87 | after every such run a rule is found if and only if it is registered and some source kind and some sink category of it, lower-cased, is the one asked for or the wildcard |
| RuleRegistry.ListingOrder | karsasec/analysis/rule_registry.py:84-93 | listings are in the order of rule key, then version, then id |
| RuleRegistry.RunIndexesTable | karsasec/analysis/rule_registry.py:26-127 | after every such run the index holds exactly the rules of the table |
| RuleRegistry.RegisterAgreesIff | karsasec/analysis/rule_registry.py:26-46 | for arbitrary rules, registering keeps lookup and scan in agreement if and only if no rule that can match loses its last name to the new one |
| RuleRegistry.RunAgreesIff | karsasec/analysis/rule_registry.py:26-127 | for arbitrary rules and runs: lookup and scan agree after every call if and only if no registration takes away the last name of another rule that can match |
| RuleRegistry.RegisterAgain | karsasec/analysis/rule_registry.py:26-93 | a rule registered again with other source kinds: the lookup returns a rule that the table no longer holds |
| RuleRegistry.UnregisterAgrees | karsasec/analysis/rule_registry.py:48-60 | after unregistering they agree if and only if they did before or the name was in the table, whose rebuilt index heals any disagreement |
| Wilson.SameInterval | karsasec/benchmark/statistics.py:20-31 | for the same z and n > 0 the two implementations compute the same interval, clamped or not |
| Wilson.NoTrialsDiffer | karsasec/benchmark/metrics.py:28-29 | for n = 0 they do not: the unit interval against the point zero |
| Wilson.ConstantsDiffer | karsasec/benchmark/metrics.py:31-43 | with the constants built in for 95 per cent the two functions differ, for every positive number of trials |
| Wilson.Mirrored | karsasec/benchmark/statistics.py:23-31 | the bounds for n - k successes mirror those for k |
| Wilson.BoundsEnclose | karsasec/benchmark/metrics.py:31-43 | for 0 <= k <= n the unclamped bounds already lie in [0, 1] and enclose k/n, so clamping changes nothing |
| Wilson.BoundsSolve | karsasec/benchmark/statistics.py:20-31 | both unclamped bounds x satisfy (x-p)^2 = z^2 x (1-x) / n with p = k/n |

## Left out

- AiInterleaving.Conservation: callers do not release to ROUTED, IN_FLIGHT or PROVIDER_FAILED; `ConservedExactlyWhenNotLive` shows that this is the exact condition on targets.
- AiInterleaving.TerminalHoldsNothing: for runs in which `transition_status` never goes straight to a terminal status; `ShortcutKeepsTokens` says what such a call does. The execution loop never makes one.
- AiInterleaving.StepKeeps: a step that would wait for a row lock leaves the system unchanged; deadlock detection and lock time-outs are not part of this model.
- AiSession.Session.CreateRequest: the fallback after a lost insert race is one of the interleaved outcomes, not a branch of this method.
- AiSession.Session.ReserveBudget: within one session the status compare-and-set always finds the status read, so its error branch is modelled in `AiInterleaving` only; the same holds for the other three calls.
- AiExecution.Execute: the provider selected for each attempt and the response to it are arbitrary inputs; time-outs, the breaker and limiter calls around an attempt, and saving circuit state are left out, as is the backoff delay between attempts.
- AiIsolation.ExecutionAmongOthers: from the settled reservation on; before that another transaction may still change the budget row that the reservation is checked against.
- AiExecution.Execute: the detailed result is stated for a fresh request; for a request that already exists only the error cases before the reservation are stated.
- Outbox.EverythingSettles: stated for polls that commit, ask for at least one event and find one that is not locked; a poll that finds nothing makes no progress.
- RuleRegistry.MatchIsLinearScan: for rules with unique ids that are never used as another rule's key; `RunAgreesIff` covers arbitrary rules.
- TaskLedger.LastHashFixesHistory: for states and workers without the separator; `ColonRowCanBeReplaced` shows that this is needed.
- Wilson.SameInterval: z is a parameter and the square root any function that inverts squaring; floating-point rounding is left out, here and in the limiters.
- Wilson.BoundsEnclose: for n > 0 trials, as the statistic requires; a negative number of trials is not modelled for `wilson_interval`.
- ORM sessions, refresh and identity maps: tables are maps, a conditional UPDATE is one guarded step, a raised error rolls the transaction back.
- SHA-256 and canonical JSON text: parameters with the properties stated in `Hashing` and `EncodingOk`.
- Callbacks of the traversals, payload metadata, timestamps and event hashes in the outbox, log and metric calls.
- Evidence graphs, confidence calibration and severities of clusters; candidate pairs are visited in some order, which `RootsDetermined` shows not to matter.
- Circuit state restore and export, the probe generation counter, throttling reasons.
- `get`, `count` and `clear` of the rule registry and the built-in rules; lower-casing is a parameter.
- Provider routing, health, registry and pricing: filters of one branch each.
- Locks and threads of the in-memory limiters and ledgers: each locked method is one step.
- Decision cascades, release gates, drift and prioritisation, dictionary conversions, agents, the command line, reporters and benchmark runners: each is settled by reading one branch.
