# Workflows backend and editor: a verified model

This project models the parts of the oCIS Workflows extension in which correctness is a matter of
protocol or algorithm rather than of wiring, and proves what they promise:

- the **activitylog backstop** - a cursor per user and drive, with debounce, overlap and a clamped
  lookback, under passes that overlap, fail, are cancelled or write their cursor last
  (`ReconcilePass`, `ReconcileCoverage`, `ReconcileRedelivery`, `ReconcileLimit`, `Reconciler`);
- the **SSE consumer manager** - the `active` map, id-tagged self-removal and the one-slot kick
  channel under every interleaving, and the event-stream line loop (`SseManager`, `SseProtocol`,
  `SseStream`), together with the matching that live and backstop events share (`EventMatching`);
- the **graph executor** - breadth-first order over arbitrary graphs, template rendering in random
  map order, and a stop-at-first-failure interpreter that follows one file through moves, copies
  and renames (`WorkflowGraph`, `GraphOrder`, `GraphForward`, `Template`, `TemplateOrder`,
  `TemplateSplit`, `FileSpace`, `Executor`, `ExecutorRuns`, `ExecutorActions`);
- the **editor's** backward search and node placement (`FlowValidation`, `NodeLayout`);
- the **scheduler** (`Scheduler`), the **trigger index** (`TriggerSync`) and what it comes to, from a
  stored definition to the workflow an event starts (`EventDelivery`), and the **stored credentials**
  with their renewal (`Automation`, `RenewalProtocol`, `CredentialExpiry`).

Time is an integer number of nanoseconds. Every external call (HTTP, WebDAV, Graph, SQLite, the LLM,
text extraction, notifications) is a parameter that says how it ended, including, where it matters,
"carried out, but reported as failed". Objects the source mutates are classes; each of their methods
is tied to a function of the old state, and the promises are lemmas about that function or invariants
over all runs of a step relation. Map iteration order is always arbitrary.

## Where the code and its descriptions part

- Redelivery (`backend/pkg/reconcile/reconciler.go:78-82`): the overlap is said to cost "a rare
  double-fire", and 1 + ceil(overlap / grace) - two, as shipped - is the number of non-overlapping
  passes one would expect to hand an entry out. The code does not keep to it, because an entry may be
  stamped while the first pass waits for its answer, and because cursors are kept in whole seconds.
  `RedeliveryExactly` says, for every configuration, start, stamp and longest wait for an answer,
  exactly when n deliveries can happen; `PromisedBoundHolds` and `PromisedBoundFails` draw the line for
  the expected number. As shipped (`ShippedExactly`), among the entries stamped before the first pass
  stops waiting - its client gives up after 15s (`backend/pkg/ocisclient/client.go:36`) - a third
  delivery can happen if and only if the stamp is after the second in which that pass started began, a
  fourth if and only if it is over 5s after it and not on a whole second, a fifth never.
- An empty trigger id (`backend/pkg/executor/executor.go:140`) means "no trigger" to the executor but
  not to the editor: the two searches agree if and only if the trigger's id is not empty.
- An item whose path cannot be resolved (`backend/pkg/sse/manager.go:348-358`) is matched with the
  empty path on the live route and dropped by the backstop; `UnresolvedPathAgreement` says exactly when
  the two still select the same workflows.
- A schedule that is edited or enabled again is held against the last start, whatever schedule that
  was under (`backend/pkg/scheduler/scheduler.go:107-126`), and may fire for the past
  (`EditedScheduleFiresForThePast`). `RefinementHoldsExactlyWhen` is the exact condition at every tick
  of every history, however often rows are edited, removed or broken on the way.
- Nodes are said to run in the order they were chained (`backend/pkg/executor/executor.go:119-120`).
  They do, however the edges happen to be listed, if and only if every edge out of a reachable node
  leads strictly farther from the trigger (`ForwardExactlyWhen`); being free of cycles is not enough
  (`AcyclicIsNotEnough`).
- A disconnect whose revocation succeeds and whose delete fails leaves a stored token that the server
  refuses (`DisconnectIsSoundExactlyWhen`, `FailedDisconnectLeavesARevokedToken`).
- The rendered text can depend on map order (`backend/pkg/executor/executor.go:298-304`) when a
  variable that the template names has a value - a file's content, say - that names another variable;
  `OrderFreeExactlyWhen` is the exact condition, short of a variable named in the template and another
  naming each other (`NamingEachOtherCanAgree`) and of text that breaks off inside a token, as "{{" just
  before another token does (`NestedBracesDependOnOrder`); all other braces are text. A token in a value
  is harmless if it names no variable, its own variable, or one whose value is that very token, and so
  is any token in a value that the template does not reach.

## Model

| member | source | states |
|---|---|---|
| ReconcileCoverage.NothingMissedInsideLookback | backend/pkg/reconcile/reconciler.go:249-302 | In every state of every interleaving of passes, an entry stamped at least `overlap` before the stored cursor was returned by an answered query, unless it was already `lookback` old when some pass began whose query was answered or failed; the log may show entries up to `overlap` late, and cancelled queries excuse nothing |
| ReconcileCoverage.AnsweredPassCoversForGood | backend/pkg/reconcile/reconciler.go:268-301 | An answered query covers everything up to `overlap` before its pass began for the rest of the run, whatever happens to its own cursor write or to the cursor later |
| ReconcileCoverage.DeliveriesAreRecent | backend/pkg/reconcile/reconciler.go:227-239 | The clamp: no pass hands out an entry older than the lookback, up to storage rounding |
| ReconcileCoverage.SlowerLogMisses | backend/pkg/reconcile/reconciler.go:78-82 | The allowance of `overlap` is exact: with a log one unit slower, one undisturbed pass already leaves an entry behind |
| ReconcileCoverage.AlonePassIsCursorAfter | backend/pkg/reconcile/reconciler.go:249-302 | An undisturbed pass of the interleaved machine has the sequential effect on the cursor and delivers exactly what its query returns |
| ReconcileCoverage.AnswerCovers | backend/pkg/reconcile/reconciler.go:272-276 | The step that makes coverage true: everything after the query's floor is returned, everything before it was covered already or is too old |
| ReconcileCoverage.FailureCovers | backend/pkg/reconcile/reconciler.go:277-287 | A failed query leaves a cursor that still stands for covered ground |
| ReconcileCoverage.RunKeepsInv | backend/pkg/reconcile/reconciler.go:249-302 | The coverage invariant holds in every reachable state |
| ReconcileRedelivery.RedeliveryBound | backend/pkg/reconcile/reconciler.go:241-302 | For every configuration and every history of non-overlapping passes: n effective passes fit, a grace period each, into the window that ends at the entry's stamp - counted from the first one's start and, when the log shows entries no earlier than their stamp, from the stamp itself |
| ReconcileRedelivery.RedeliveryExactly | backend/pkg/reconcile/reconciler.go:249-302 | For every start, stamp, n and longest wait for an answer, at the resolution of the stored cursors: an entry can be handed out n times if and only if that condition holds and the first pass can wait until the stamp |
| ReconcileRedelivery.QuickHistory | backend/pkg/reconcile/reconciler.go:268-301 | The history that reaches it: each pass starts as soon as the debounce lets it |
| ReconcileRedelivery.ShippedRedeliveryBound | backend/pkg/reconcile/reconciler.go:249-302 | 5s/5s and whole-second storage: never more than 4 passes; 3 if the stamp is at most 5s after the second in which the first one started, or whole; 2 if it is no later than that second began |
| ReconcileRedelivery.ShippedExactly | backend/pkg/reconcile/reconciler.go:249-302 | All thresholds are sharp: for every start, stamp and longest wait, three deliveries can happen if and only if the stamp is later than that second began and the first pass can wait for it, four if and only if it is moreover over 5s later and not whole, five never |
| ReconcileRedelivery.ShippedBoundIsReached | backend/pkg/ocisclient/client.go:36 | A concrete stamp and start, within the 15s timeout of the client, for which the shipped reconciler hands one entry out four times |
| ReconcileRedelivery.PromisedBoundHolds | backend/pkg/reconcile/reconciler.go:268-301 | At every resolution, 1 + ceil(overlap / grace) holds for entries stamped early enough after the first pass began |
| ReconcileRedelivery.PromisedBoundFails | backend/pkg/reconcile/reconciler.go:268-301 | At every resolution, and for every later stamp that the first pass can wait for, one delivery more can happen, as long as overlap and grace period fit into the lookback |
| ReconcileRedelivery.EffectiveApart | backend/pkg/reconcile/reconciler.go:241-248 | Two passes that hand out one entry are a grace period apart and the later one still reaches back to it |
| ReconcileRedelivery.LaterCursors | backend/pkg/reconcile/reconciler.go:299-301 | Once a pass stored its cursor, every later cursor is at least that pass's own start |
| ReconcileRedelivery.CursorAdvances | backend/pkg/localdb/localdb.go:327-336 | A pass that does not overlap another never loses the cursor, never moves it back, and leaves it a whole second |
| ReconcileLimit.DispatchIsRecent | backend/pkg/reconcile/reconciler.go:272-275 | A pass that hands an entry out begins less than the lookback, rounded up, after its stamp |
| ReconcileLimit.EveryDispatchIsBounded | backend/pkg/reconcile/reconciler.go:119-162 | Even when no cursor can be stored: with the rate limit, the passes that hand one entry out - but for two - fit, a grace period each, into the lookback, the rounding and the longest wait for a slot |
| Reconciler.Reconciler.ShouldStartPass | backend/pkg/reconcile/reconciler.go:153-162 | Admits a user's pass exactly when none of theirs is recorded within the grace period, and records only admitted ones |
| Reconciler.AdmittedExactlyWhen | backend/pkg/reconcile/reconciler.go:151-162 | Over any sequence of requests by any users, one is admitted if and only if none of the same user's was admitted within the grace period before it |
| Reconciler.AdmittedAreApart | backend/pkg/reconcile/reconciler.go:113-118 | Over any sequence of requests by any users, the admitted ones of each user are a grace period apart |
| Reconciler.RejectionsHaveACause | backend/pkg/reconcile/reconciler.go:151-162 | A request is turned away only because of an admitted one of the same user's less than a grace period before |
| Reconciler.Reconciler.DrivesForUser | backend/pkg/reconcile/reconciler.go:169-203 | The scoped drives once each in any order; or, with an unscoped trigger, the listed non-virtual drives in listing order; or an error |
| Reconciler.Reconciler.RunWorkflow | backend/pkg/reconcile/reconciler.go:344-358 | Starts a workflow exactly if it loads and is enabled |
| Reconciler.Reconciler.Dispatch | backend/pkg/reconcile/reconciler.go:313-342 | Starts, in index order, exactly the runnable workflows that BackstopStarts selects for the entry |
| Reconciler.Reconciler.StartMatches | backend/pkg/reconcile/reconciler.go:333-341 | The matching loop starts the selected workflows, no others |
| Reconciler.Reconciler.HandleActivities | backend/pkg/reconcile/reconciler.go:290-297 | Dispatches the first entry of every id, in order |
| Reconciler.DistinctKeepsEveryIdOnce | backend/pkg/reconcile/reconciler.go:290-297 | No returned id is lost, none is handed on twice |
| Reconciler.DistinctKeepsFirst | backend/pkg/reconcile/reconciler.go:290-297 | Of several entries with one id exactly the first is handed on, and the log's order is kept |
| Reconciler.ActivityRunsTheAdmitted | backend/pkg/reconcile/reconciler.go:313-358 | For an entry of a known type that names an item with a path outside the internal folder: one run on that path for each index entry that admits it and whose workflow is runnable, in index order; for any other entry none |
| Reconciler.PassRunsConcat | backend/pkg/reconcile/reconciler.go:290-297 | Entries are dispatched one after another |
| Reconciler.ScopeIs | backend/pkg/reconcile/reconciler.go:164-203 | Which drives a pass visits: those the user's triggers are scoped to, or, if one is unscoped, every listed drive that is not virtual |
| Reconciler.RealDrivesAreListed | backend/pkg/reconcile/reconciler.go:190-203 | The listed drives that are not virtual, once each, in listing order |
| Reconciler.DrivePassIsOwn | backend/pkg/reconcile/reconciler.go:249-302 | A pass over a drive leaves its own cursor as CursorAfter says and no other changed, and starts runs only if it was not debounced and its query was answered |
| ReconcilePass.CursorNotesTheQuery | backend/pkg/reconcile/reconciler.go:277-301 | The cursor moves to the start of an answered pass, stays or is opened a lookback back by a failed one, which it notes, and is left alone by all others |
| Reconciler.Reconciler.ReconcileDrive | backend/pkg/reconcile/reconciler.go:249-302 | A pass over one drive changes the cursor table as CursorAfter says and starts exactly the runs of the entries it handled |
| Reconciler.Reconciler.Reconcile | backend/pkg/reconcile/reconciler.go:119-149 | A pass goes through the user's drives in scope order, and does nothing when it is rate-limited, gets no slot, or cannot list triggers or drives |
| Reconciler.Reconciler.ReconcileDrives | backend/pkg/reconcile/reconciler.go:146-148 | Drives are reconciled one after another, each on the cursors that the previous one left |
| Reconciler.PassEffectsFrame | backend/pkg/reconcile/reconciler.go:146-148 | A pass touches no cursor of another user, nor of a drive out of scope |
| EventMatching.HandleEvent | backend/pkg/sse/manager.go:322-374 | Starts exactly LiveStarts, in index order, with at most one path lookup, made only if someone wants the event |
| EventMatching.MatchEntries | backend/pkg/sse/manager.go:340-373 | The loop over the index selects the admitted entries and resolves the path once, on the first interested entry |
| EventMatching.SelectedIsTheMatches | backend/pkg/localdb/localdb.go:49-60 | An index position is selected exactly when it is of the user and event type and its filters admit the event, once each and in index order |
| EventMatching.MatchesExactlyWhen | backend/pkg/localdb/localdb.go:44-60 | Filters admit an event if and only if its path begins with the prefix and ends with the extension and its space is the one given, if any |
| EventMatching.EventsOfEachType | backend/pkg/sse/manager.go:26-36 | Which SSE events and which log messages make each trigger type: uploads and moves on both routes, shares and locks only live |
| EventMatching.LiveStartsTheAdmitted | backend/pkg/sse/manager.go:322-374 | The live route starts exactly the admitted entries, in index order, or nothing if the first segment of the path is `.workflows`; a path that was not resolved is empty |
| EventMatching.BackstopStartsTheAdmitted | backend/pkg/reconcile/reconciler.go:313-342 | So does the backstop for an entry that names an item with a resolved path |
| EventMatching.OtherEventsStartNothing | backend/pkg/reconcile/reconciler.go:313-332 | Unknown events, unreadable payloads or indexes, and - in the backstop - nameless or unresolved items start nothing |
| EventMatching.InternalExactlyWhen | backend/pkg/webdavstore/store.go:33-41 | A path is internal if and only if its first segment, behind at most one slash, is `.workflows` |
| EventMatching.PathStartsNothingExactlyWhen | backend/pkg/webdavstore/store.go:33-41 | A path starts nothing under every index, on either route, if and only if that is its first segment |
| EventMatching.LiveAndBackstopAgree | backend/pkg/reconcile/reconciler.go:304-342 | For a resolved path and equal user, trigger type and space, live and backstop start the same workflows in the same order |
| EventMatching.UnresolvedPathAgreement | backend/pkg/sse/manager.go:348-372 | With an unresolved path they agree if and only if no interested entry admits the empty path |
| EventMatching.SelectsNothingExactlyWhen | backend/pkg/localdb/localdb.go:49-60 | Nothing is selected if and only if no interested entry admits the path and space |
| EventMatching.InternalPathsStartNothing | backend/pkg/webdavstore/store.go:33-41 | No path below the internal folder starts anything, on either route |
| EventMatching.OwnWritesStartNothing | backend/pkg/sse/manager.go:360-366 | Nothing the backend itself writes - execution records, definitions, comment sidecars - starts anything, on either route |
| EventDelivery.LiveEventsStartWhatDefinitionsSay | backend/pkg/sse/manager.go:322-374 | From definitions to starts: when no change is unsynced, a live event starts exactly the workflows whose stored definitions are enabled, await its type, and admit its path and space |
| EventDelivery.LoggedEventsStartWhatDefinitionsSay | backend/pkg/reconcile/reconciler.go:304-342 | The same for the backstop |
| EventDelivery.ConsumersFollowDefinitions | backend/pkg/sse/manager.go:160-191 | When no change is unsynced, a reconcile gives a consumer to exactly the owners of enabled event-triggered definitions |
| EventDelivery.ScheduledFollowsDefinitions | backend/pkg/localdb/localdb.go:285-304 | And the scheduler is shown exactly the schedules of the enabled scheduled definitions |
| SseStream.StreamOnce | backend/pkg/sse/manager.go:303-319 | The line loop delivers what the block-by-block definition of the stream format says |
| SseStream.DeliveredConcat | backend/pkg/sse/manager.go:305-318 | Output on concatenated block-terminated streams is the concatenation of the outputs |
| SseStream.UnterminatedTailIsDropped | backend/pkg/sse/manager.go:312-319 | A stream cut off inside a block loses that block and nothing else |
| SseStream.BlockDeliversItsLastData | backend/pkg/sse/manager.go:303-319 | A block delivers one event, of the last type and the last data its lines give, or none if they give no data, and does not affect what follows |
| SseStream.TrimSpaceParts | backend/pkg/sse/manager.go:306-311 | Trimming takes off the space at both ends, all of it and nothing else |
| SseStream.RoundTrip | backend/pkg/sse/manager.go:298-318 | Events printed with their fields in either order, padded, with ignored lines in between, are delivered exactly |
| SseStream.LinesOfJoin | backend/pkg/sse/manager.go:303-306 | Splitting joined lines, with LF or CRLF endings, gives the lines back |
| SseStream.LinesWithRest | backend/pkg/sse/manager.go:303-304 | Lines joined with either ending come back, and what follows them is read on its own |
| SseStream.UnfinishedLine | backend/pkg/sse/manager.go:303-304 | A last line without a newline is a line |
| SseStream.WireRoundTrip | backend/pkg/sse/manager.go:303-319 | The round trip from the characters on the wire |
| SseManager.Manager.Kick | backend/pkg/sse/manager.go:133-138 | A token is pending afterwards, whether or not one was before |
| SseManager.Manager.Reconcile | backend/pkg/sse/manager.go:160-191 | Does to the registry what the snapshot's user set demands, in some map order; nothing if the read fails |
| SseManager.ReconcileInstallsSnapshot | backend/pkg/sse/manager.go:172-190 | Afterwards exactly the snapshot's users are active; those that stay keep their consumer and id, new ones get unused ids, and only the consumers of users that left are cancelled |
| SseManager.ReconcileFollowsTheIndex | backend/pkg/sse/manager.go:160-191 | In terms of the index: whoever has an entry in it has a consumer, and nobody else; the consumers of those who left are cancelled |
| SseManager.Manager.CancelAll | backend/pkg/sse/manager.go:175-180 | Cancels and removes the given users' consumers in some order |
| SseManager.Manager.CancelUser | backend/pkg/sse/manager.go:177-178 | One user: the consumer is cancelled, the entry removed |
| SseManager.Manager.LaunchAll | backend/pkg/sse/manager.go:181-190 | Starts one consumer per given user in some order, under increasing ids |
| SseManager.Manager.LaunchUser | backend/pkg/sse/manager.go:185-189 | One user: the next id, the entry and the consumer |
| SseManager.CancelEachDrops | backend/pkg/sse/manager.go:175-180 | Whatever the order, exactly the listed users' entries go and exactly their consumers are cancelled |
| SseManager.LaunchEachActive | backend/pkg/sse/manager.go:181-190 | Whatever the order, launched users get consecutive new ids and every other entry stays |
| SseManager.LaunchEachConsumers | backend/pkg/sse/manager.go:185-189 | Launching leaves earlier consumers alone; every new one is started for the user its id was handed out for |
| SseManager.LaunchEachKeeps | backend/pkg/sse/manager.go:181-190 | Launching users without entries keeps the registry well kept |
| SseManager.Manager.StopAll | backend/pkg/sse/manager.go:193-200 | Cancels every entry's consumer and empties the map |
| SseManager.Manager.Deactivate | backend/pkg/sse/manager.go:205-211 | Removes the entry only if it carries the caller's id |
| SseManager.LateDeactivateIsHarmless | backend/pkg/sse/manager.go:94-98 | The exit of a cancelled or replaced consumer changes nothing |
| SseProtocol.ConsumerLifecycle | backend/pkg/sse/manager.go:160-273 | In every reachable state each running consumer owns its user's entry, so there is at most one per user, and while the manager is live every entry belongs to a running consumer of that user |
| SseProtocol.LateGiveUpChangesNoEntry | backend/pkg/sse/manager.go:213-230 | A replaced or cancelled consumer that gives up late changes no entry |
| SseProtocol.NoLostWakeup | backend/pkg/sse/manager.go:126-158 | After a write and its Kick, a token is pending or a reconcile has begun to read since |
| SseProtocol.AtRestTheIndexIsInstalled | backend/pkg/sse/manager.go:142-191 | A manager at rest after a successful read has the current index's users active, less those whose consumer gave up since |
| SseProtocol.ShutdownLeavesNothing | backend/pkg/sse/manager.go:149-151 | After shutdown no entry is left and every consumer has been cancelled or has finished; cancelled ones may still be on their way out |
| SseProtocol.RunKeepsInv | backend/pkg/sse/manager.go:160-273 | The lifecycle and wake-up invariants hold in every reachable state |
| WorkflowGraph.GroupEdges | backend/pkg/executor/executor.go:128-131 | The adjacency lists hold, for every id, its targets (or sources) in edge order |
| WorkflowGraph.IndexNodes | backend/pkg/executor/executor.go:123-126 | Of several nodes with one id the last is found under it |
| WorkflowGraph.LastNodeCounts | backend/pkg/executor/executor.go:123-126 | Of several nodes with one id the last is kept |
| WorkflowGraph.ListsFollowTheEdges | backend/pkg/executor/executor.go:128-131 | The lists have one element for each edge and keep edge order |
| GraphOrder.FindStart | backend/pkg/executor/executor.go:133-142 | The first trigger's id, empty without one |
| GraphOrder.StartIsFirstTrigger | backend/pkg/executor/executor.go:133-139 | The search starts from the first trigger node |
| GraphOrder.KnownFollowsTheIds | backend/pkg/executor/executor.go:147-158 | The order holds one node for each visited known id, in the order of the visits |
| GraphOrder.OrderedNodes | backend/pkg/executor/executor.go:122-160 | Terminates on every graph and returns the known nodes of the one breadth-first search of the graph, siblings in edge order |
| GraphOrder.OrderIsDetermined | backend/pkg/executor/executor.go:122-160 | A graph has no more than one order |
| GraphOrder.SomeOrder | backend/pkg/executor/executor.go:147-158 | Every graph has an order: the search comes to its end |
| GraphOrder.OrderHasDistances | backend/pkg/executor/executor.go:144-159 | Every node of the order has a shortest walk from the trigger, and their lengths do not decrease |
| GraphOrder.OrderIsExactlyTheReachableNodes | backend/pkg/executor/executor.go:144-159 | For every graph: exactly the known nodes reachable from the first trigger, each once |
| GraphOrder.OrderIsByDistance | backend/pkg/executor/executor.go:144-159 | Whatever leads to a later node, no longer walk is needed for an earlier one |
| GraphForward.FartherRunsLater | backend/pkg/executor/executor.go:119-121 | A node runs after every node that an edge leads to it from strictly nearer the trigger |
| GraphForward.ChainedEdgesRunForward | backend/pkg/executor/executor.go:119-121 | In particular, if reachable ids have at most one source and the trigger none, every edge's source runs before its target |
| GraphForward.SomeListingRunsItBackward | backend/pkg/executor/executor.go:128-158 | For every edge out of a reachable node that does not lead strictly farther, some listing of the same edges runs its target no later than its source |
| GraphForward.ForwardExactlyWhen | backend/pkg/executor/executor.go:119-121 | However the edges are listed, nodes run in the order they were chained, if and only if every edge out of a reachable node leads strictly farther from the trigger |
| GraphForward.PathLeads | backend/pkg/executor/executor.go:147-158 | When a shortest path's edges are listed first, its ids are the first of their depth at every turn of the search |
| GraphOrder.AcyclicIsNotEnough | backend/pkg/executor/executor.go:119-121 | A graph without cycles in which a node runs before its predecessor, in every order |
| GraphOrder.SearchIsReachability | backend/pkg/executor/executor.go:147-158 | An id is visited exactly if a walk leads to it |
| GraphOrder.WalksAreFound | backend/pkg/executor/executor.go:147-158 | What a walk leads to is visited, no deeper than the walk is long |
| FlowValidation.UpstreamTriggerType | frontend/src/utils/flowValidation.ts:18-48 | Terminates on every graph and answers with the type of a trigger nearest upstream, or nothing if none is upstream |
| FlowValidation.HasUpstreamFileSource | frontend/src/utils/flowValidation.ts:72-75 | True exactly if that answer is nothing or an event trigger |
| FlowValidation.CanUpstreamProvideFile | frontend/src/utils/flowValidation.ts:86-89 | False exactly if that answer is a schedule trigger |
| FlowValidation.AnswerIsReachability | frontend/src/utils/flowValidation.ts:13-48 | With one typed trigger, the answer is its type exactly for the nodes reachable from it, and nothing otherwise |
| FlowValidation.SearchesAgree | backend/pkg/executor/executor.go:122-160 | With a non-empty trigger id, the backward answer is the trigger's type exactly for the known nodes in the executor's order |
| FlowValidation.AgreementExactlyWhen | backend/pkg/executor/executor.go:133-142 | The two agree on all nodes if and only if the trigger's id is not empty |
| Template.Render | backend/pkg/executor/executor.go:298-304 | The result is what some iteration order of the variables makes of the template |
| Template.HarmlessRendering | backend/pkg/executor/executor.go:298-304 | For text and tokens: rendering - in any order - is one simultaneous substitution, if no value of a variable that the template names holds a token that a later pass would change; other variables may have any value, and braces that open no token are text |
| Template.RenderingIsSubstitution | backend/pkg/executor/executor.go:298-304 | In particular if no token begins in the values of the variables that the template names |
| Template.PassesFill | backend/pkg/executor/executor.go:300-302 | Whatever the order, the passes made so far have filled exactly the tokens of their variables |
| Template.PassFills | backend/pkg/executor/executor.go:301 | One ReplaceAll fills the tokens of its variable and leaves everything else, stray braces included, alone |
| Template.MayOpenExactlyWhen | backend/pkg/executor/executor.go:301 | The test for such text is exact: a token may begin at a place if and only if something that could follow makes it one |
| Template.NestedBracesDependOnOrder | backend/pkg/executor/executor.go:300-302 | With text that breaks off inside a token, two orders give two results |
| Template.ValuesWithTokensDependOnOrder | backend/pkg/executor/executor.go:300-302 | With a value that names another variable, two orders give two results |
| TemplateOrder.NamingShowsOrder | backend/pkg/executor/executor.go:300-302 | So it is for every template and all variables of text and tokens: a value that names another variable, which does not name it back, makes two orders differ |
| TemplateOrder.OrderFreeExactlyWhen | backend/pkg/executor/executor.go:300-302 | Unless a variable named in the template and another name each other: map order does not show if and only if no variable that the template names has a value naming another one, other than one that stands for itself |
| TemplateOrder.NamingEachOtherCanAgree | backend/pkg/executor/executor.go:300-302 | Two variables that name each other can agree in every order all the same |
| TemplateSplit.SplitPrints | backend/pkg/executor/executor.go:298-304 | Every string is taken apart into text and tokens that print it |
| TemplateSplit.SplitsExactlyWhen | backend/pkg/executor/executor.go:298-304 | The results apply to what Split makes of a string if and only if they apply to some way of taking it apart |
| TemplateSplit.OrderFreeForStrings | backend/pkg/executor/executor.go:298-304 | The equivalence above for strings: every template and all values that do not break off inside a token |
| FileSpace.PathParts | backend/pkg/executor/executor.go:306-318 | The base name holds no slash, and directory and base name make up the trimmed path |
| FileSpace.BaseOfJoin | backend/pkg/executor/executor.go:306-309 | The base name of a folder and a plain name, whatever slashes the folder has, is that name |
| FileSpace.FolderOfJoin | backend/pkg/executor/executor.go:311-318 | The folder of a path's own folder and another plain name is that folder |
| FileSpace.FolderOfPlaced | backend/pkg/executor/executor.go:248 | A name put into a folder lies in that folder, whatever slashes the folder is written with |
| FileSpace.TrimmedParts | backend/pkg/executor/executor.go:306-318 | Trimming takes off the slashes at both ends, all of them and nothing else |
| FileSpace.Base64 | backend/pkg/webdavfile/webdavfile.go:132 | The encoding has four digits for three bytes, and no padding |
| FileSpace.SidecarIsElsewhere | backend/pkg/webdavfile/webdavfile.go:115-137 | The comment sidecar of a file is always another file |
| FileSpace.Base64Decodes | backend/pkg/webdavfile/webdavfile.go:132 | Base64 can be read back, for all strings of bytes |
| FileSpace.SidecarsDiffer | backend/pkg/webdavfile/webdavfile.go:115-137 | Comments on different paths are kept in different files |
| FileSpace.SidecarFolder | backend/pkg/webdavfile/webdavfile.go:127-132 | All of them directly in the comments folder |
| Executor.Executor.Run | backend/pkg/executor/executor.go:57-117 | The record, the final space and the calls made are those of a run of the graph: nodes in order, one step each, up to the first failure, and nothing after it |
| Executor.Executor.ReadTarget | backend/pkg/executor/executor.go:67-77 | The target's name and content are set if it could be read; a failed read only leaves them unset |
| Executor.Executor.RunNode | backend/pkg/executor/executor.go:85-97 | One node has the effect of its type on variables, path, space and calls, for some rendering of its templates |
| Executor.Executor.RunAction | backend/pkg/executor/executor.go:203-296 | Every action type: which call it makes on which paths, what it leaves in the variables, and when the path follows |
| Executor.Executor.MarkFile | backend/pkg/executor/executor.go:215-241 | Tag and comment, with the current path |
| Executor.Executor.TransferFile | backend/pkg/executor/executor.go:243-265 | Move and copy to the destination folder under the same name; only a move takes the path along |
| Executor.Executor.RenameFile | backend/pkg/executor/executor.go:267-278 | A move within the folder, taking the path along |
| Executor.Executor.PerformFor | backend/pkg/executor/executor.go:251-265 | A call that succeeds sets its variable and output to the given value; one that fails sets nothing |
| Executor.Executor.Perform | backend/pkg/webdavfile/webdavfile.go:87-113 | One call is logged, changes the space unless refused, and counts as success only if carried out and confirmed |
| ExecutorRuns.HonestRecord | backend/pkg/executor/executor.go:79-117 | Results are a prefix of the ordered non-trigger nodes, only the last can be a failure, and "succeeded" means complete without failure |
| ExecutorRuns.SucceededRunsCoverTheGraph | backend/pkg/executor/executor.go:79-117 | A succeeded run has a result for exactly the reachable known nodes that are no triggers |
| ExecutorRuns.TasksInOrder | backend/pkg/executor/executor.go:80-83 | The nodes to run are those that are no triggers, once each, in their order |
| ExecutorRuns.RunFollowsItsFile | backend/pkg/executor/executor.go:203-296 | Begun on an existing file, the current path names that very file, content unchanged, before every node and at the end, unless the last node's MOVE was carried out and reported as failed; the file exists even then |
| ExecutorRuns.StepFollows | backend/pkg/executor/executor.go:243-278 | One node: the path goes on naming the file if and only if no move was carried out behind the executor's back |
| ExecutorRuns.ChangeKeepsFile | backend/pkg/webdavfile/webdavfile.go:77-162 | Every change a node can make keeps the file's identity and content and the space well formed |
| ExecutorRuns.DestinationsAreInFolder | backend/pkg/executor/executor.go:243-248 | A move or copy leads into the given folder, whatever slashes it is written with |
| ExecutorRuns.DestinationsKeepTheName | backend/pkg/executor/executor.go:248 | And keeps the file's name |
| ExecutorRuns.RenamesKeepTheFolder | backend/pkg/executor/executor.go:267-272 | A rename to a plain name keeps the folder |
| ExecutorRuns.RenamesGiveTheName | backend/pkg/executor/executor.go:267-272 | And gives the file that name |
| ExecutorActions.RunPutsFilesWhereTold | backend/pkg/executor/executor.go:243-265 | In every run begun on an existing file: a move or copy that succeeded reports a path in the folder that the rendered parameter names, under the file's own name |
| ExecutorActions.RunLeavesFilesThere | backend/pkg/executor/executor.go:243-265 | And there the file is with its content, or, after a copy, another one with that content |
| ExecutorActions.ActionTakesItsParams | backend/pkg/executor/executor.go:203-212 | Which parameters an action renders: a missing one is empty |
| ExecutorActions.MoveTakesTheFile | backend/pkg/executor/executor.go:243-265 | A move that succeeded made one MOVE, and the very file is now where the path says and no longer where it was |
| ExecutorActions.CopyMakesAFile | backend/pkg/executor/executor.go:243-265 | A copy that succeeded made one COPY and another file with the same content; original and path stay |
| ExecutorActions.MoveLands | backend/pkg/executor/executor.go:243-265 | A move that succeeded has taken the path into the folder given, under the old name |
| ExecutorActions.CopyLands | backend/pkg/executor/executor.go:243-265 | A copy that succeeded is in the folder given, under the same name |
| ExecutorActions.RenameLands | backend/pkg/executor/executor.go:267-278 | A rename that succeeded made one MOVE and kept the file in its folder under the new name; the path followed |
| ExecutorActions.TagLands | backend/pkg/executor/executor.go:215-229 | A tag that succeeded was added to the file's own and changed no other file |
| ExecutorActions.CommentLands | backend/pkg/executor/executor.go:231-241 | A comment that succeeded wrote the sidecar of the path and nothing else |
| ExecutorActions.NotifyLands | backend/pkg/executor/executor.go:280-291 | A notification that succeeded sent its message to its target and changed nothing |
| ExecutorActions.ActionSucceedsExactlyWhen | backend/pkg/executor/executor.go:203-296 | An action succeeds if and only if its parameter is not empty, it has the path it needs, the change it asks for can be made, and the answer comes back; without a call nothing happens at all |
| ExecutorActions.ChangeIsPossible | backend/pkg/webdavfile/webdavfile.go:77-162 | That change can be made if and only if the file is there and, for a move or copy, its destination is free and not the root |
| ExecutorActions.PromptIsSent | backend/pkg/executor/executor.go:163-201 | A prompt is sent as rendered unless it is empty; an extraction makes no call and reports the length; other nodes fail and do nothing |
| ExecutorActions.DecimalHasItsValue | backend/pkg/executor/executor.go:199 | The reported length reads back as the number |
| ExecutorActions.TargetNameCanBeReferredTo | backend/pkg/executor/executor.go:67-77 | The name of a target that could be read can be referred to by the token for it, and otherwise that token stays |
| ExecutorActions.TargetContentCanBeReferredTo | backend/pkg/executor/executor.go:67-77 | And so can its content |
| ExecutorRuns.RunSparesBystanders | backend/pkg/executor/executor.go:203-296 | Every other user file keeps its path, content and tags throughout, answers lost or not |
| ExecutorRuns.RunInventsNothing | backend/pkg/executor/executor.go:203-296 | Whatever a run leaves behind was there before, is a comment sidecar, or is the run's file or a copy of it |
| ExecutorRuns.StepSetsOneVariable | backend/pkg/executor/executor.go:175-277 | A success sets the one variable of its node, to the reported output or the extracted text; a failure sets none |
| ExecutorRuns.LatestOutputIsKept | backend/pkg/executor/executor.go:258-261 | A node's output stays under its own variable until another node with that variable succeeds, so a copy and a move can be referred to side by side |
| ExecutorRuns.TokenRendersToVariable | backend/pkg/executor/executor.go:298-304 | A token naming a variable in whose value no token begins renders to that value, and to nothing else, whatever other variables hold |
| ExecutorRuns.RunsWithoutAFile | backend/pkg/executor/executor.go:214-278 | Begun without a path, a run never has one, never changes the space, and every file action in it fails |
| ExecutorRuns.FlaggedActionsFailTheirRuns | frontend/src/utils/flowValidation.ts:59-89 | If the editor finds a schedule trigger upstream of a file action, that node never succeeds in a run begun without a path, and the run fails |
| ExecutorActions.FlaggedExactlyWhen | frontend/src/utils/flowValidation.ts:59-70 | The known actions the editor flags are exactly those that can never succeed without a path |
| NodeLayout.ComputeNewNodePosition | frontend/src/utils/nodeLayout.ts:34-56 | The first free slot of the column beside the source - or of the first column - is found after at most two steps per existing node, and lies clear of every node |
| NodeLayout.OneNodeBlocksTwo | frontend/src/utils/nodeLayout.ts:17-25 | A node blocks at most two slots of a column |
| NodeLayout.FewSlotsBlocked | frontend/src/utils/nodeLayout.ts:20-25 | n nodes block at most 2n slots |
| NodeLayout.TakenSlotsBound | frontend/src/utils/nodeLayout.ts:39-53 | If all of the first slots are taken there are at most 2n of them |
| NodeLayout.AdditionsStayApart | frontend/src/utils/nodeLayout.ts:27-33 | However many nodes are added, from whatever sources, no two overlap |
| NodeLayout.TwoStepsPerNodeAreNeeded | frontend/src/utils/nodeLayout.ts:51-53 | The bound of two steps per node is reached |
| Scheduler.Scheduler.LastRunFor | backend/pkg/scheduler/scheduler.go:107-120 | The recorded last run, or now - which is then recorded - at first sighting |
| Scheduler.Scheduler.Tick | backend/pkg/scheduler/scheduler.go:81-105 | A tick updates the last runs and starts workflows row by row as the occurrence sets demand, given that `Next` yields least later occurrences |
| Scheduler.TickStartsTheDueRows | backend/pkg/scheduler/scheduler.go:89-104 | A tick starts exactly the rows that parse and were due since a recorded last run, once each, in listing order |
| Scheduler.StartedOnce | backend/pkg/scheduler/scheduler.go:102-103 | A tick starts a workflow at most once |
| Scheduler.NextDecides | backend/pkg/scheduler/scheduler.go:96-100 | "Next is not after now" means an occurrence lies between the last run and now |
| Scheduler.RowsAreIndependent | backend/pkg/scheduler/scheduler.go:89-104 | Whether a row fires and what its last run becomes does not depend on other rows |
| Scheduler.NothingMissedSinceLastRun | backend/pkg/scheduler/scheduler.go:96-102 | After every tick that lists a row, in every history: the last run may lag behind the clock, but nothing the row is due at lies in between |
| Scheduler.TickFiresIffDueSincePreviousTick | backend/pkg/scheduler/scheduler.go:81-126 | Wherever two successive successful ticks list the same row, whatever was listed before, the second starts the workflow if and only if an occurrence fell since the first |
| Scheduler.FirstSightingDoesNotFire | backend/pkg/scheduler/scheduler.go:111-118 | A tick that sees a workflow for the first time does not start it |
| Scheduler.EveryOccurrenceIsAnswered | backend/pkg/scheduler/scheduler.go:81-105 | While a row stays, every occurrence is answered by the next successful tick |
| Scheduler.StartsNeverOutnumberOccurrences | backend/pkg/scheduler/scheduler.go:81-105 | While a row stays, the number of runs started never exceeds that of its occurrences: each run answers another one |
| Scheduler.StartsHaveTheirOwnOccurrences | backend/pkg/scheduler/scheduler.go:81-126 | In every history, however often schedules are edited: each run started answers an instant at which the schedule then listed is due, later than the start before, so nothing is started for twice |
| Scheduler.LastRunIsLastStart | backend/pkg/scheduler/scheduler.go:107-126 | In every history the last run is the clock of the last start, or of the first sighting before there was one |
| Scheduler.SomeLastStart | backend/pkg/scheduler/scheduler.go:107-126 | There is such a tick if and only if there is a last run |
| Scheduler.FiresIffDueSinceLastStart | backend/pkg/scheduler/scheduler.go:96-126 | In every history a listed row starts its workflow - once - if and only if the row is due since the last start, whichever schedule that was under |
| Scheduler.RefinementHoldsExactlyWhen | backend/pkg/scheduler/scheduler.go:81-126 | Hence a tick starts a workflow exactly for an occurrence since the successful tick before if and only if the listed schedule has nothing between the last start and that tick before, or something since - in every history, after any number of edits and absences |
| Scheduler.EditedScheduleFiresForThePast | backend/pkg/scheduler/scheduler.go:107-126 | An edited schedule that starts a workflow for a past instant |
| TriggerSync.WorkflowsHandler.SyncTriggerIndex | backend/pkg/service/workflows.go:65-101 | Installs the row the definition calls for or deletes it, unless a call fails, and kicks after storing an event trigger |
| TriggerSync.WorkflowsHandler.Fresh | backend/pkg/service/workflows.go:135-153 | The definition a create builds is a patched empty one |
| TriggerSync.WorkflowsHandler.Merge | backend/pkg/service/workflows.go:217-232 | The field-by-field part of a patch |
| TriggerSync.WorkflowsHandler.Create | backend/pkg/service/workflows.go:122-167 | Store, index, kick and reply after a create, with every failure path |
| TriggerSync.WorkflowsHandler.Patch | backend/pkg/service/workflows.go:193-243 | Store, index, kick and reply after a patch, with every failure path |
| TriggerSync.WorkflowsHandler.Delete | backend/pkg/service/workflows.go:246-268 | Store, index and reply after a delete |
| TriggerSync.WorkflowsHandler.ListTriggers | backend/pkg/localdb/localdb.go:285-304 | Every row of the trigger type, once, in some order |
| TriggerSync.RequestIsLocal | backend/pkg/service/workflows.go:121-268 | A request touches one definition and one row |
| TriggerSync.RequestSyncs | backend/pkg/service/workflows.go:61-101 | A request whose sync goes through leaves the row its definition calls for, or none |
| TriggerSync.RowsFollowDefinitions | backend/pkg/service/workflows.go:61-101 | After a request whose calls went through there is a row under its id if and only if the definition is there, enabled and triggered by a schedule or an event, and that row has the definition's own owner, type, schedule, event type, prefix, extension and space; otherwise the row is what it was |
| TriggerSync.DerivedExactlyWhen | backend/pkg/service/workflows.go:65-89 | A definition calls for a row if and only if it is enabled with a schedule or an event, and then for its own |
| TriggerSync.SyncsExactlyWhen | backend/pkg/service/workflows.go:65-101 | Which calls have to go through for that: the write, the index, and - only for a row to be written - the lookup of the owner |
| TriggerSync.CreateStores | backend/pkg/service/workflows.go:135-162 | What a create stores: the given fields, and not enabled and run by hand unless said otherwise; nothing without a name |
| TriggerSync.PatchStores | backend/pkg/service/workflows.go:217-236 | What a patch stores: the fields given, and every other as it was |
| TriggerSync.PatchesCompose | backend/pkg/service/workflows.go:217-236 | Two patches in a row store what one does in which the second goes before the first |
| TriggerSync.DeleteRemoves | backend/pkg/service/workflows.go:246-268 | A delete removes the definition, and the row if the index can be reached |
| TriggerSync.RequestKeepsAgreement | backend/pkg/service/workflows.go:121-268 | One request keeps index and definitions in agreement, but for the ids whose sync failed |
| TriggerSync.HistoryAgrees | backend/pkg/service/workflows.go:121-268 | Over every history of requests, with failures, index and definitions agree except for the ids left unsynced |
| TriggerSync.UnsyncedExactlyWhen | backend/pkg/service/workflows.go:61-101 | An id is unsynced if and only if the last request that wrote its definition did not get its calls through |
| TriggerSync.ListingIsAScanOfDefinitions | backend/pkg/localdb/localdb.go:252-304 | When none is unsynced, a listing is exactly one row for each enabled definition of that trigger type, with the definition's own fields |
| Automation.Service.Mint | backend/pkg/automation/automation.go:96-99 | The server may mint a token that the caller never hears of |
| Automation.Service.RenewOne | backend/pkg/automation/renew.go:53-81 | Mint, store, revoke: rows and accepted tokens after every pattern of failures |
| Automation.Service.RenewDue | backend/pkg/automation/renew.go:34-48 | A sweep renews the due rows of its listing one after the other |
| Automation.Service.Connect | backend/pkg/automation/automation.go:86-121 | Rows, tokens, kick and reply after a connect, with every failure path, and the row it stores |
| Automation.Service.Disconnect | backend/pkg/automation/automation.go:124-157 | Rows, tokens, cursors and reply after a disconnect, with every failure path; the caller's cursors go and all others stay |
| Automation.Service.Status | backend/pkg/automation/automation.go:52-82 | Connected exactly if there is a row that has not expired; then with the reliability, if the cursors can be read: sse-only if and only if some drive of the user's is |
| Automation.SweepRenewsExactlyTheDueRows | backend/pkg/automation/renew.go:34-81 | After a sweep with any failures every stored token is accepted; the due rows that could be renewed hold a new token, all others are as before |
| Automation.RenewalIsSound | backend/pkg/automation/renew.go:53-81 | One renewal keeps every user's stored token accepted and no token shared |
| Automation.ConnectIsSound | backend/pkg/automation/automation.go:84-110 | So does a connect |
| Automation.ConnectTouchesOneUser | backend/pkg/automation/automation.go:84-121 | A connect stores the new credential, rounded down to the second, under the caller, and touches nobody else |
| Automation.DisconnectTouchesOneUser | backend/pkg/automation/automation.go:124-157 | A disconnect removes the caller's row and revokes its token, as far as its calls go, and touches nobody else |
| Automation.DisconnectIsSoundExactlyWhen | backend/pkg/automation/automation.go:138-146 | A disconnect keeps all stored tokens accepted if and only if it does not revoke and then fail to delete |
| Automation.RenewalIsAPath | backend/pkg/automation/renew.go:53-81 | The sequential renewal is, for every outcome of its calls, a path of the interleaved protocol |
| Automation.ConnectIsAPath | backend/pkg/automation/automation.go:86-121 | So is Connect |
| Automation.DisconnectIsAPath | backend/pkg/automation/automation.go:124-157 | And Disconnect |
| RenewalProtocol.StoredTokenIsAccepted | backend/pkg/automation/renew.go:53-81 | In every interleaving of renewals, connects and disconnects, stopped or failing anywhere, the server accepts the stored token if and only if no disconnect revoked it |
| RenewalProtocol.WithoutDisconnectsAlwaysAccepted | backend/pkg/automation/renew.go:50-81 | Without a disconnect's revocation the stored token is always accepted |
| RenewalProtocol.FailedDisconnectLeavesARevokedToken | backend/pkg/automation/automation.go:138-146 | A run that ends with a stored token the server refuses |
| RenewalProtocol.RunKeepsInv | backend/pkg/automation/renew.go:53-81 | The token invariant holds in every reachable state |
| CredentialExpiry.LapseTakesFourteenFailures | backend/pkg/automation/renew.go:12-15 | If a stored credential has expired before the next daily sweep, the last fourteen events were sweeps that found it due and failed to replace it |
| CredentialExpiry.FourteenFailuresSuffice | backend/pkg/automation/renew.go:12-48 | From a fresh connect, fourteen failing sweeps do let it lapse |
| CredentialExpiry.HistoryKeepsMargin | backend/pkg/automation/renew.go:41-47 | The credential outlives the last sweep by the window less one interval per sweep in vain |
| CredentialExpiry.StreakIsATail | backend/pkg/automation/renew.go:42-47 | A streak of n sweeps in vain is the last n events |

## Left out

- ReconcileRedelivery.RedeliveryBound: counts passes that stored their cursor; without the write nothing but the rate limit and the clamp keeps entries from being handed out again, and ReconcileLimit.EveryDispatchIsBounded has that bound.
- ReconcileRedelivery.RedeliveryExactly: claims nothing for overlapping passes, which can move the cursor back, nor for a lookback too short for overlap and grace period together.
- ReconcileLimit.EveryDispatchIsBounded: the rate limit is kept in memory, so a restart begins a new count.
- TemplateOrder.OrderFreeExactlyWhen: leaves out templates that name a variable whose value names another one that names it back, because there the results may or may not differ (NamingEachOtherCanAgree), and text or reached values that break off inside a token, where the order can show as well (Template.NestedBracesDependOnOrder).
- GraphForward.ForwardExactlyWhen: is about all listings of the same edges; for one listing, an edge between nodes equally far from the trigger may run either way.
- Reconciler.Reconciler.Reconcile: the semaphore is a parameter that says whether a slot came free; that at most `maxConcurrent` passes hold one is the channel's own guarantee.
- Reconciler.Reconciler.DrivesForUser: claims only listed, non-virtual drives once a trigger is unscoped, as the code does.
- SseManager.LaunchEachActive: consumer ids are unbounded naturals, not 64-bit counters that wrap.
- SseStream.StreamOnce: of several `data:` lines in one block the last counts, as in the code, where section 9.2.6 of the WHATWG HTML Living Standard joins them; the scanner's 64 KB line limit is not modelled.
- Scheduler.Scheduler.Tick: the cron library is a parameter that yields the least occurrence after an instant; unsatisfiable expressions, for which none exists, are outside.
- FileSpace.SidecarsDiffer: is about paths as strings of bytes, as the program has them; one path written with and without a leading slash has two sidecars.
- EventDelivery.LiveEventsStartWhatDefinitionsSay: needs every change to be synced; TriggerSync.UnsyncedExactlyWhen says for which ids that fails.
- NodeLayout.ComputeNewNodePosition: positions are reals; the rounding of JavaScript numbers is not modelled.
- TriggerSync.HistoryAgrees: requests do not overlap one another; ids are globally unique, as random UUIDs are taken to be.
- CredentialExpiry.LapseTakesFourteenFailures: takes sweeps to be at most a day apart, so a restart that delays the ticker beyond that is outside, and a credential to be stored less than a day after it was minted.
- RenewalProtocol.StoredTokenIsAccepted: expiry is not part of this machine; CredentialExpiry has it.
- Executor.Executor.RunAction: one call stands for a tag's lookup and assignment, and for a comment's folder, read and write requests; which of them failed is not told apart. Folders, "." and ".." segments, whether COPY carries tags over, and the JSON inside comment sidecars are not modelled; a refusal for any such reason is one of the outcomes.
- Executor.Executor.MarkFile: the same holds for its two calls.
- Executor.Executor.RunNode: LLM completion, text extraction and notification are arbitrary results or errors; the length of an extraction counts characters, not bytes.
- HTTP and WebDAV transport, JSON and XML decoding, SQLite and its migrations, the encryption of stored credentials, OIDC checks, logging and configuration.
- The consumers' reconnect backoff, and how fresh the credential is that a consumer read once.
- Vue components, the node picker and the API wrappers of the frontend.
