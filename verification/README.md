# Vogon: agent selection, budgets, streams, embeddings and timelines, verified

A Dafny model of the decision-making core of Vogon, the control plane for Marvin agents, with proofs about it.
`dafny verify dfyconfig.toml` checks everything.

The code that updates things in place is modelled in place: tool calls and configuration dictionaries are shared
objects (`ToolProgress`, `ConfigObjects`), the session row, the capability row, the agent table, the stream registry,
the command queue and the log table are classes, and every loop is a loop. Each such method is proved equal to a
specification function, and the laws are proved about those functions, for all inputs, all runs or all interleavings.
The modules named `...Reading`, `ProgressLaws` and `SelectorFields` say what these functions give in terms of the stored
columns, fields, texts and numbers alone, without the functions that compute it.

| module | what it covers |
|---|---|
| `ToolProgress`, `ToolMatching`, `ProgressLaws` | turning a turn's events into a progress box; which result completes which call; what the box shows |
| `ChatTimeline`, `TimelineLaws`, `TimelineReading`, `Sorting` | rebuilding a chat timeline; what it shows of messages and events; stable sorting and why its result is unique |
| `Selectors`, `SelectorFields`, `LabelSelectors`, `Text` | target selectors, field by field, their merge, label matching, label selectors as text |
| `TargetResolution`, `TargetSets`, `TargetLaws`, `TargetReading` | from a capability and two selectors to a canonical snapshot of executors, read off the columns of the rows |
| `Ranking` | reciprocal rank fusion, boosts and the order they produce |
| `SessionBudget` | the budget transactions and everything that can happen over their runs |
| `StreamRegistry`, `StreamCommands` | concurrent connection handlers; commands, futures and replies on one stream |
| `CapabilityRows`, `DocumentReading`, `EmbeddingFreshness` | saving capability rows; what the search document says; when a stored vector may be searched |
| `Registration`, `RegistrationLaws`, `RegistrationReading` | synchronising an agent's manifest into the database, column by column |
| `Liveness` | the staleness sweep |
| `Notifications`, `NotificationReading`, `NotificationRaces` | when an action notifies; notification cooldown, for dispatches one after another and for overlapping ones |
| `ConfigAssembly` | layered deep merge of configuration, on values |
| `ConfigSharing`, `ConfigOwnership`, `ConfigLeaks`, `ConfigRuns`, `ConfigAssembled`, `ConfigTrees`, `ConfigLeakCase` | the same when nested dictionaries are shared: which objects belong to whom, when a merge reaches a resource's own, and when the assembled configuration is what its layers say |
| `ConfigObjects` | the assembly as it runs, on mutable dictionaries |
| `Vectors`, `OrgSlug` | vector text round trip; the unique-slug loop |

Where the code does not do what one would expect of it, the model follows the code, a lemma gives the failing case and
another says exactly when the expectation holds:

- A tool result without a key completes a call but leaves it queued, so a later result can complete it again
  (`ToolMatching.OneCallCompletedTwice`); the first-in-first-out matching is right exactly on well-keyed traces.
- `merge_with` says AND, but the resource filter asks for *some* attached resource, so the merge of two resource lists
  is stricter than both filters together (`Selectors.MergeShutsOutBothAttached`) unless one list contains the other
  (`Selectors.MergeIsConjunctionExactly`).
- `_deep_merge` stores the override's nested dictionaries themselves. A later resource then writes into an earlier
  one's: its own entry in the result changes, and so does every capability that holds it
  (`ConfigLeakCase.LaterResourceLeaks`). The configuration is what its layers say, after every resource, exactly when
  no resource writes anything new into an object that a capability it configures got from an earlier resource
  (`ConfigAssembled.AssembledExactly`).
- Three things leave an entry in the registry for ever, and no others (`StreamRegistry.LeftoverExactly`): an empty
  agent id, which the cleanup takes for no id at all; a second register message after the entry was published, if it
  is accepted, or refused under another agent id (`StreamRegistry.SecondRegistrationLeaks`), unless the first agent
  is published again later; and a failed reader task, which the `finally` block awaits before the cleanup
  (`StreamRegistry.AbortLeaks`).
- An embedding job writes back the document and version it loaded, so an edit during the job leaves a stale vector that
  passes the search filter (`EmbeddingFreshness.EditDuringJobLeavesStaleVector`). Sending the same manifests again does
  not repair it (`RegistrationLaws.RegistrationRefreshesExactly`); a save that lists what it changes does, as after any
  run it is the last write that decides (`EmbeddingFreshness.FreshExactly`).
- Repeating a registration changes rows when two manifests of one name describe different documents
  (`RegistrationLaws.TwoDescriptionsKeepChanging`, `RegistrationLaws.RepeatChangesNothingExactly`).
- Deep merge is not associative when an outer pair of objects meets a leaf in the middle layer
  (`ConfigAssembly.LeafBetweenObjects`, `ConfigAssembly.MergeIsAssociativeExactly`).
- Nothing locks the search for recent logs, so two overlapping dispatches can notify twice at one instant
  (`NotificationRaces.OverlapNotifiesTwice`). The cooldown holds exactly when no log that never fails is made between
  the look and the making of a later one of its key, within the later one's cooldown
  (`NotificationRaces.SpacedExactly`).
- The empty vector is printed as `[]`, which parses to nothing (`Vectors.RoundTripExactly`).
- The normalised score is 1 for every capability with an online agent, so it ranks nothing among those
  (`Ranking.NormalisedScoreIsOne`).
- The docstring of `assemble_marvin_config` lists the global configuration as a layer below the capability overrides;
  the code keeps it in a section of its own and merges it into no capability, and so does the model.
- The help text of `embedding_version` says that it grows with the model; the code sets it to the document's version.

## Model

| member | source | states |
|---|---|---|
| ToolProgress.EventsToProgress | apps/sessions/views.py:100-162 | the scan over shared call objects and queues that alias them computes the progress of the value-level state machine; the caption is fixed when the turn is over; nothing is shown when nothing happened; ProgressLaws.ProgressExactly says what that box shows |
| ToolProgress.StartCall | apps/sessions/views.py:119-128 | a start appends one new object to the list and the same object to its key's queue; no other object or queue changes |
| ToolProgress.FinishCall | apps/sessions/views.py:129-146 | a result completes the first queued call of its key, else the first call still started, else a new one; completing it through the queue changes the very entry in the list |
| ToolProgress.PopPending | apps/sessions/views.py:130-136 | popping a queue yields the first pending call of that key and drops the key with its last entry |
| ToolProgress.StartedOrNew | apps/sessions/views.py:137-144 | without a pending call the first entry still started is taken, and only if there is none is an entry invented |
| ToolMatching.WellKeyedMatching | apps/sessions/views.py:119-146 | on a well-keyed trace the i-th result of a key completes the i-th start of that key, entries stay in start order, none is invented, the queues hold the unanswered starts, and as many calls are completed as there are results |
| ToolMatching.MatchingExactlyWhenWellKeyed | apps/sessions/views.py:129-146 | that matching is shown after every event if and only if every result has a key and comes when a start of that key is unanswered |
| ToolMatching.UnanswerableResult | apps/sessions/views.py:137-144 | a result that answers no start is visible at once, as a call completed wrongly or invented |
| ToolMatching.CountsOnEveryTrace | apps/sessions/views.py:100-146 | on every trace at most one call is completed per result, and there are at least as many entries as starts and at most one more per result |
| ToolMatching.OneCallCompletedTwice | apps/sessions/views.py:137-146 | a result without a key followed by one with the first call's key completes the first call twice and the second never |
| ToolMatching.ShowsLastThought | apps/sessions/views.py:113-118 | reasoning and caption are those of the last thinking event that had one, whatever tool events come between |
| ProgressLaws.ProgressExactly | apps/sessions/views.py:148-162 | there is no box exactly when there was no tool event, no reasoning and no caption but the waiting text; otherwise it shows the last caption while active and "Analysis complete" when not, the last reasoning, the calls with their number, and the time of the last event |
| ProgressLaws.CaptionIsLast | apps/sessions/views.py:105-114 | the caption is that of the last thinking event with one, and "Assistant is working..." before |
| ProgressLaws.ReasoningIsLast | apps/sessions/views.py:115-118 | the reasoning is that of the last thinking event with one, its own before the nested one |
| ProgressLaws.KeyExactly | apps/sessions/views.py:107-108 | a call is known by the first of id, tool_call_id and name that is given |
| ProgressLaws.ResultFindsItsStart | apps/sessions/views.py:119-146 | of two running calls a result completes the one it names, with its result or an empty object; the other stays started, with its arguments or an empty object |
| ProgressLaws.LoneResult | apps/sessions/views.py:143-146 | a result without any call invents one under its name, without arguments |
| ProgressLaws.CallsShown | apps/sessions/views.py:119-146 | on a well-keyed trace each call shows its start's name and arguments and, once answered, the answering result |
| Sorting.SortExactly | apps/sessions/views.py:214 | a sequence is the result of the sort if and only if it is sorted and keeps the order within each class of equal keys |
| Sorting.SortIsStableSort | apps/sessions/views.py:229 | the sort is ordered, a permutation, and stable |
| ChatTimeline.BuildChatItems | apps/sessions/views.py:165-293 | collecting, sorting, finding turns, inserting by index from the back and placing the live box give the timeline read once from left to right: each row, then its box; what is in it say TimelineReading.EntryExactly, EntriesExactly and TurnBoxExactly |
| ChatTimeline.CollectRows | apps/sessions/views.py:167-212 | tool messages, assistant messages with tool calls and blank messages are dropped, and the events that are no activity follow the messages; TimelineReading.EntriesExactly says which are kept, field by field |
| ChatTimeline.FindInsertions | apps/sessions/views.py:231-264 | the insertions are one for each user message whose turn has a box, by increasing index; the last turn has none when there is a live box |
| ChatTimeline.TurnBox | apps/sessions/views.py:239-264 | a turn's box is the progress of the events from its message up to the next user message |
| ChatTimeline.InsertAll | apps/sessions/views.py:266-268 | inserting by index from the last turn back equals one left-to-right interleaving of rows and boxes |
| ChatTimeline.InsertLive | apps/sessions/views.py:270-291 | searching the rebuilt list for the last user message finds the last turn's place, and the live box goes there or to the end |
| TimelineLaws.DeletingBoxesLeavesStableOrder | apps/sessions/views.py:165-214 | deleting the boxes leaves exactly the one stable sort by time of the kept messages and events |
| TimelineLaws.EveryBoxFollowsItsRow | apps/sessions/views.py:266-291 | every box stands directly after the user message it belongs to; only a live box without any user message ends the list |
| TimelineLaws.EveryRowGetsItsBox | apps/sessions/views.py:233-268 | every row is in the list and is followed by the box it is due, or by the next row |
| TimelineLaws.LiveBoxPlace | apps/sessions/views.py:270-291 | the live box directly follows the last user message, or ends the list when there is none |
| TimelineLaws.WindowsPartitionActivity | apps/sessions/views.py:219-246 | the windows put end to end are exactly the thinking and tool events from the first user message on, in order, ties or not; earlier events are in none |
| TimelineReading.EntryExactly | apps/sessions/views.py:165-212 | a message has an entry if and only if it is no tool message, no assistant message that calls tools, and has a character that is no space; an event if and only if it is neither thinking nor a tool event; each entry has its message's or event's own fields, and there is no other |
| TimelineReading.EntriesExactly | apps/sessions/views.py:167-214 | the entries are the kept messages and then the kept events, ordered by time and in this order at equal times |
| TimelineReading.TurnBoxExactly | apps/sessions/views.py:231-291 | after a user message comes the live box, if there is one and no user message follows; else, under the message's id, the finished progress of the thinking and tool events from its time up to the next user message's, if they show any; else no box |
| TimelineReading.BoxesElsewhere | apps/sessions/views.py:266-291 | a box stands after a user message, or is the live box at the end of a timeline without user messages |
| Text.SpacesByCode | apps/sessions/views.py:172 | white space by code points |
| Selectors.MergeWith | apps/marvins/selectors.py:77-96 | the loop over the other selector's dict merges field by field: one-sided fields kept, lists intersected, labels merged |
| Selectors.MergeLabels | apps/marvins/selectors.py:98-121 | the merged labels have the keys of both sides and the merged value at each |
| Selectors.MergeLabelAllows | apps/marvins/selectors.py:109-121 | a label value passes the merge if and only if it passes both sides, for any, scalar and list values and empty intersections |
| Selectors.MergedLabelsConjunction | apps/marvins/selectors.py:98-121 | labels satisfy the merged constraint if and only if they satisfy both |
| Selectors.DictRoundTrip | apps/marvins/selectors.py:55-75 | a selector survives the trip through its dict |
| Selectors.SelectorRoundTrip | apps/marvins/selectors.py:55-75 | a well-typed dict survives the trip through a selector |
| Selectors.LabelsAsDict | apps/marvins/discovery.py:113-122 | labels become a dict at their first colon, a later label replacing an earlier one with its key |
| Selectors.LabelMatches | apps/marvins/discovery.py:125-135 | the loop decides that every wanted key is present with an allowed value |
| Selectors.MergeImpliesBoth | apps/marvins/discovery.py:93-97 | an agent that matches the merged selector matches both, the resources included |
| Selectors.BothAreMergeUpToResources | apps/marvins/discovery.py:515-545 | an agent that matches both matches the merge if and only if one attached resource is in both lists, or one side has none |
| Selectors.MergeIsConjunctionExactly | apps/marvins/selectors.py:77-96 | merge is conjunction on all agents if and only if the resource lists are nested or open, or the rest of the merge has an empty list or an impossible label |
| Selectors.MergeShutsOutBothAttached | apps/marvins/selectors.py:77-96 | an agent attached to two resources passes the selector of each, and not their merge |
| SelectorFields.MatchesExactly | apps/marvins/discovery.py:515-545 | an agent matches if and only if each list of the selector holds the agent's value of that name, some attached resource is in the list of resources, and its labels are as wanted |
| SelectorFields.HasLabelsExactly | apps/marvins/discovery.py:113-135 | labels are as wanted if and only if for each key the last label with it, as a string, is the key alone or with an allowed value |
| SelectorFields.LabelDictExactly | apps/marvins/discovery.py:113-122 | a key is there if and only if some label has it, with the value of the last one |
| SelectorFields.MergeExactly | apps/marvins/selectors.py:77-121 | a merge field by field: one side kept, of two lists the elements of the first that are in the second in their order, labels key by key, with one common value as that value alone |
| LabelSelectors.ParseLabelSelector | apps/marvins/labels.py:10-38 | the loop with its early error return parses the comma-separated parts, stopping at the first with an equals sign |
| LabelSelectors.MarvinMatchesLabels | apps/marvins/labels.py:41-55 | a parsed selector decides the same relation as the dict selector it becomes |
| LabelSelectors.RefusedExactlyOnEquals | apps/marvins/labels.py:23-32 | a selector text is refused if and only if it contains an equals sign |
| LabelSelectors.ParseOfPrint | apps/marvins/labels.py:10-38 | parsing the printed form of clean entries gives the entries back |
| LabelSelectors.ParseOfPadded | apps/marvins/labels.py:22-38 | parsing skips blank parts and the white space around keys and values |
| LabelSelectors.ErrorExactly | apps/marvins/labels.py:27-32 | a refusal names the first part with an equals sign |
| LabelSelectors.WantedExactly | apps/marvins/labels.py:50-55 | every key must be there, with just the given value if one is given |
| TargetSets.ResolveTargets | apps/marvins/discovery.py:381-437 | the whole resolution, with its four ways to fail, equals the specification whose properties are proved below; TargetReading says what that is, on the columns of the rows |
| TargetSets.ApplySelector | apps/marvins/discovery.py:507-545 | the rows kept are those online, in the organization, advertising the capability and matching every field; TargetReading.QualifiesExactly says which these are |
| TargetResolution.GroupByAgent | apps/marvins/discovery.py:555-556 | one group for each agent, holding it alone |
| TargetResolution.GroupByHost | apps/marvins/discovery.py:557-562 | one group for each host name, or agent id where there is none, holding the agents in order |
| TargetResolution.GroupByResource | apps/marvins/discovery.py:567-588 | one group for each attached resource that is enabled, in the organization, of the scope and asked for |
| TargetResolution.ResolveLogicalTargets | apps/marvins/discovery.py:547-596 | the groups are exactly the targets some agent serves; it fails exactly in a resource scope without any |
| TargetResolution.SelectionIsLeast | apps/marvins/discovery.py:439-447 | of a non-empty group the strategy takes a non-empty number, and no agent left out has a smaller id than one taken |
| TargetLaws.SnapshotIsUnionOfTargets | apps/marvins/discovery.py:404-437 | a snapshot has no duplicates, is the union of the targets' executors and never exceeds the hard limit |
| TargetLaws.TargetsAreServed | apps/marvins/discovery.py:547-588 | a target is in the result if and only if some passing agent serves it |
| TargetLaws.TargetIsServed | apps/marvins/discovery.py:439-447 | every target has candidates and gets one, all, or half of them rounded up |
| TargetLaws.ExecutorPassesBothSelectors | apps/marvins/discovery.py:391-411 | every executor of a target is online, advertises the capability, serves the target and passes the session's and the requested selector |
| TargetLaws.SnapshotIsSound | apps/marvins/discovery.py:381-437 | so does every agent of a snapshot |
| TargetLaws.ExecutorsAreLeast | apps/marvins/discovery.py:442 | no candidate left out has a smaller id than an executor |
| TargetLaws.ResourceErrorExactly | apps/marvins/discovery.py:393-394 | the resolution asks for a resource if and only if the policy demands one and none is named, or the scope is a resource scope that no candidate serves |
| TargetLaws.ResolutionIsCanonical | apps/marvins/discovery.py:396-437 | the outcome depends only on the set of rows that pass, not on their order or on other rows |
| TargetReading.QualifiesExactly | apps/marvins/discovery.py:507-545 | the candidates are the online agents of the organization that advertise the capability, whose columns are in all lists of both selectors, whose labels are as wanted, and which have an attached resource in each list and, of two lists, in both |
| TargetReading.TargetsExactly | apps/marvins/discovery.py:406-411 | a target is there if and only if such an agent serves it, itself, through its host or through an enabled attached resource of the scope that both selectors allow; it is served by the first of these agents by id, one, all or half rounded up |
| TargetReading.SnapshotExactly | apps/marvins/discovery.py:406-437 | the snapshot lists the executors by sorted target, each where it first appears; count, number of targets and class of the fan-out go with it, and the merged selector |
| TargetReading.FanOutRefused | apps/marvins/discovery.py:449-462 | a fan-out is refused only above the hard limit, with its size |
| TargetReading.NotFoundExactly | apps/marvins/discovery.py:496-505 | a capability is unknown if and only if none of the name, or not the given one, is enabled and of the organization |
| TargetReading.ResourceAskedExactly | apps/marvins/discovery.py:393-394 | a resource is asked for if and only if the policy demands one and the selectors allow none, or the scope is of resources and no candidate has one that counts |
| Text.AtMostExactly | apps/marvins/discovery.py:440-447 | texts compare by their first different character, a beginning before the whole |
| Ranking.RrfFusion | apps/marvins/discovery.py:367-379 | the fused score of a capability is the sum of the reciprocals its two ranks give it, in the order of first appearance |
| Ranking.LexicalScores | apps/marvins/discovery.py:271 | without vector results each capability scores its one reciprocal |
| Ranking.RankCapabilities | apps/marvins/discovery.py:267-300 | boosting, sorting by falling score and normalising give the ranking by the sum of fused rank, availability and exact name |
| Ranking.ShareBound | apps/marvins/discovery.py:371-379 | a duplicate-free list gives a capability the reciprocal of its rank or nothing, at most 1/61 |
| Ranking.ScoreOrderIsLexicographic | apps/marvins/discovery.py:287-292 | comparing scores is comparing exact name, then agents online up to ten, then fused rank: no lower level outweighs a higher one |
| Ranking.RankingIsLexicographic | apps/marvins/discovery.py:287-292 | a list is the ranking if and only if it is the stable sort of the found capabilities in that lexicographic order |
| Ranking.NormalisedScoreIsOne | apps/marvins/discovery.py:268-299 | the normalised score is 1 if and only if the capability is available, exactly named, or the first hit of a search without vectors |
| Ranking.ShareExactly | apps/marvins/discovery.py:367-379 | a list gives 1 / (61 + i) to the capability at position i and nothing to others |
| Ranking.ScoreExactly | apps/marvins/discovery.py:286-289 | the score is both shares, 0.05 for each online agent up to ten, and 1 for the exact name |
| Ranking.NormalisedExactly | apps/marvins/discovery.py:267-298 | it is divided by 2 / 60, or by 1 / 61 without vectors, and capped at one |
| Ranking.ListedExactly | apps/marvins/discovery.py:374-379 | capabilities are listed where they first appear |
| SessionBudget.Session.CheckAndReserve | apps/sessions/budget.py:69-88 | a reservation within all three limits charges row and session alike; otherwise the first limit hit is named and nothing changes |
| SessionBudget.Session.ReleaseExecution | apps/sessions/budget.py:91-102 | a release gives back one running execution and its targets, never below zero, in row and session |
| SessionBudget.Session.ResetExecution | apps/sessions/budget.py:105-117 | a reset clears the three counters and keeps the limits and the LLM counters |
| SessionBudget.CheckExecutionPolicy | apps/marvins/discovery.py:449-494 | after the fan-out limit, discovery's copy is the very same transition of the row |
| SessionBudget.BudgetHoldsOverRuns | apps/sessions/budget.py:69-117 | over every interleaving each counter stays within its limit; outstanding executions are at most the smaller of the two execution limits, outstanding targets and total grants at most a full budget, for each reset and once more; without resets the counters are exact |
| SessionBudget.StepKeepsBounds | apps/sessions/budget.py:69-117 | every transaction keeps counters and outstanding work that close and changes no limit |
| SessionBudget.BoundsAreReached | apps/sessions/budget.py:105-117 | for every budget and any number of resets some run reaches both bounds on outstanding work with equality |
| SessionBudget.ReleaseUndoesReserve | apps/sessions/budget.py:91-102 | releasing what was just reserved gives everything back but the execution |
| SessionBudget.ReserveExactly | apps/sessions/budget.py:69-88 | the first limit without room refuses; otherwise one execution and its targets are charged, and nothing else changes |
| SessionBudget.ReleaseExactly | apps/sessions/budget.py:91-117 | a release takes one execution and its targets off, never more than there are; a reset takes all off; token and cost counters stay |
| SessionBudget.DefaultExactly | apps/sessions/budget.py:15-22 | without a stored budget a session gets 100 executions on 200 targets, 5 at a time |
| StreamRegistry.MarvinServicer.Accept | services/grpc_server/servicer.py:147 | a valid register message makes a new stream that no lookup finds yet |
| StreamRegistry.MarvinServicer.Publish | services/grpc_server/servicer.py:148-150 | it takes the registry from one state of the protocol to the next: from then on the lookup finds just this stream for this agent, and all other agents as before |
| StreamRegistry.MarvinServicer.CleanUp | services/grpc_server/servicer.py:235-244 | it takes the registry to the state after the handler's end: the stream is found no more, and every other entry stays, a newer one of the same agent included |
| StreamRegistry.MarvinServicer.GetMarvinStream | services/grpc_server/servicer.py:479-481 | after any run a lookup finds the stream published last for the agent, unless the handler of that stream ended holding both, and else nothing |
| StreamRegistry.RegistryInEveryRun | services/grpc_server/servicer.py:80-246 | over every interleaving of handlers, an agent is mapped to its most recently published stream, unless that stream's handler ended holding it |
| StreamRegistry.SupersededCleanupIsHarmless | services/grpc_server/servicer.py:239-244 | the cleanup of a superseded handler changes nothing in the registry |
| StreamRegistry.RegistryIsLiveLatest | services/grpc_server/servicer.py:148-244 | with one register message per connection, an agent is mapped to a stream if and only if it is the agent's latest and its handler has not got through its cleanup, or the agent has no name |
| StreamRegistry.EmptyWhenAllFinished | services/grpc_server/servicer.py:228-246 | then, if no reader task fails, nothing is left once all handlers have ended, but the entry of an agent without a name |
| StreamRegistry.RegistryExactly | services/grpc_server/servicer.py:113-246 | for any messages and at any time, an agent has an entry if and only if it was published and, since then, its last publisher has not cleaned up, or has sent a register message that was accepted or came under another agent id, or the agent has no name |
| StreamRegistry.LeftoverExactly | services/grpc_server/servicer.py:113-246 | once all handlers have ended, an entry is left if and only if the agent was published and has no name, or its last publisher has since sent such a register message or skipped its cleanup |
| StreamRegistry.AbortLeaks | services/grpc_server/servicer.py:230-235 | a handler whose reader task failed leaves its entry |
| StreamRegistry.SecondRegistrationLeaks | services/grpc_server/servicer.py:113-151 | one connection registering as two agents leaves the first behind |
| StreamCommands.MarvinStream.BeginSend | services/grpc_server/servicer.py:48-53 | sending puts one command at the end of the queue and one new future under its id |
| StreamCommands.MarvinStream.EndSend | services/grpc_server/servicer.py:55-61 | the wait ends with the future's reply or a time-out, and drops the id either way |
| StreamCommands.MarvinStream.NextCommand | services/grpc_server/servicer.py:221-227 | the handler takes the oldest command |
| StreamCommands.MarvinStream.HandleResponse | services/grpc_server/servicer.py:63-67 | a response resolves the future under its id if it has no reply yet, and touches no other |
| StreamCommands.DeliveryInOrder | services/grpc_server/servicer.py:97-106 | commands taken and commands queued are together the commands put in, in order, each once |
| StreamCommands.EveryCallGetsItsFirstReply | services/grpc_server/servicer.py:48-67 | with unique ids, in every interleaving a call ends with the first response to it after it was made, or with a time-out before there was one, and its id is gone |
| StreamCommands.ResolvedOnce | services/grpc_server/servicer.py:63-67 | a future keeps its first reply and an ended call its outcome |
| StreamCommands.LateResultsChangeNothing | services/grpc_server/servicer.py:63-67 | a late, repeated or unknown result changes nothing |
| StreamCommands.RepeatedIdLosesReply | services/grpc_server/servicer.py:48-61 | why the ids must be unique: with a repeated id one call's time-out would take away the other's future; the one caller (services/temporal_workers/activities.py:92) never repeats one |
| CapabilityRows.BuildSearchDocument | apps/marvins/models.py:259-287 | the document built after the provider was filled in is a function of the metadata alone; DocumentReading.DocumentExactly says which |
| CapabilityRows.Capability.Save | apps/marvins/models.py:241-257 | a save brings instance, version and flag up to date and writes the listed fields and the document's own, and no others |
| CapabilityRows.Capability.SaveEmbedding | services/embeddings/generator.py:19-23 | an embedding is stored with the instance's version |
| CapabilityRows.Capability.GenerateEmbedding | services/embeddings/generator.py:32-47 | it succeeds exactly when there is a document and an answer, and otherwise changes nothing |
| CapabilityRows.ProviderOnce | apps/marvins/models.py:242-244 | filling in the provider does not change the document |
| DocumentReading.DocumentExactly | apps/marvins/models.py:259-287 | in this order: name, provider, description, a line for each use case, a line for each described parameter, the tags and the aliases joined by commas; each heading exactly when there is something under it |
| DocumentReading.ProviderExactly | apps/marvins/models.py:242-244 | the provider is the given one, or what comes before the first dot of the name, or nothing |
| DocumentReading.SavedDocument | apps/marvins/models.py:241-257 | a save writes this document of the instance, a version raised exactly if it is new, and the flag |
| DocumentReading.SaveMetaExactly | apps/marvins/models.py:247-257 | and of the metadata the listed columns, or all |
| DocumentReading.SaveRestExactly | apps/marvins/models.py:247-257 | and of the other columns the listed ones, or all |
| DocumentReading.EmbeddingExactly | services/embeddings/generator.py:19-23 | a finished embedding writes vector, model and the instance's version, and no metadata |
| EmbeddingFreshness.SearchedVectorsAreCurrent | apps/marvins/discovery.py:359-361 | a fresh row that passes the search filter holds the vector of the document of its current metadata |
| EmbeddingFreshness.SearchableExactly | apps/marvins/discovery.py:359-361 | the filter passes the rows embedded at their version, by the expected model if there is one |
| EmbeddingFreshness.MetaSaveExactly | apps/marvins/models.py:241-287 | a save makes a row whose flag and vector agree with its counters fresh, stale or not before, if and only if the metadata it writes has the document it builds, and raises the version exactly when the document differs from the stored one |
| EmbeddingFreshness.WholeSaveIsFresh | apps/marvins/models.py:241-257 | a save of everything makes any such row fresh and raises its version exactly when the document differs from the stored one |
| EmbeddingFreshness.ListedSaveIsFresh | apps/marvins/models.py:245-257 | listing every changed field is enough, also to repair a stale row |
| EmbeddingFreshness.CreateIsFresh | apps/marvins/models.py:241-287 | a first save makes a fresh row with version one that asks for an embedding |
| EmbeddingFreshness.JobExactly | services/embeddings/generator.py:19-47 | whatever was stored and loaded, a job leaves the row fresh if and only if the loaded metadata and the stored ones have one document; the row then passes the filter if and only if the loaded document was that of the loaded metadata |
| EmbeddingFreshness.TrackedInEveryRun | services/embeddings/generator.py:19-47 | over every run of saves and jobs, guarded or not, the embedded version is at most the version, the flag says whether they differ, and a row that passes the filter holds the vector of its own stored document |
| EmbeddingFreshness.FreshExactly | services/embeddings/generator.py:19-47 | after every run the row is fresh if and only if the last save or job that wrote it left metadata and the document of those metadata, whatever was stale before |
| EmbeddingFreshness.FreshOverGuardedRuns | services/embeddings/generator.py:19-47 | over every run of saves, whole or by fields, and of jobs that end on the version they loaded, the row stays fresh and its version never falls |
| EmbeddingFreshness.FreshThroughoutExactly | services/embeddings/generator.py:19-47 | a run of saves that write everything or list what they change and of jobs is fresh throughout if and only if every job that ends finds metadata with the document of those it loaded |
| EmbeddingFreshness.EditDuringJobLeavesStaleVector | services/embeddings/generator.py:39-42 | an edit during a job leaves a row that passes the filter with the old document's vector |
| Registration.Database.UpdateMarvinRegistration | services/grpc_server/servicer.py:299-413 | an agent of another organization changes nothing; otherwise its row is created or updated, its manifests are applied in order and it is linked to the rows of the enabled names; RegistrationReading says what is stored, column by column |
| Registration.Database.SyncManifests | services/grpc_server/servicer.py:347-400 | the loop collects every configuration, the enabled names and the ids, and applies each enabled manifest; RegistrationReading.ConfigsExactly, EnabledListExactly and RegisteredExactly say which these are |
| Registration.Database.SyncCapability | services/grpc_server/servicer.py:355-400 | one manifest creates or synchronises its own row and no other |
| Registration.SyncStored | services/grpc_server/servicer.py:370-400 | an existing row is saved with the fields that differ, then turned on if it was off |
| RegistrationLaws.SyncedIsUpdated | services/grpc_server/servicer.py:370-400 | for any stored row: if it is on and its metadata are the manifest's it stays as it is, a stale document included; otherwise it gets the manifest's metadata, its document, and a new version only if the document changed. It ends up with its own document if and only if it had it, or something changed, or it was off |
| RegistrationLaws.RegisteredRow | services/grpc_server/servicer.py:347-400 | whatever is stored, rows of enabled names exist, are on and carry the last manifest of their name; all other rows are as before |
| RegistrationLaws.RegistrationCarriesManifest | services/grpc_server/servicer.py:347-411 | with distinct names each enabled manifest's metadata is in its row, and the agent is linked to exactly the enabled names |
| RegistrationLaws.RepeatChangesNothingExactly | services/grpc_server/servicer.py:370-400 | whatever is stored, repeating a registration changes no row or version if and only if enabled manifests of one name describe one document |
| RegistrationLaws.TwoDescriptionsKeepChanging | services/grpc_server/servicer.py:370-400 | one name with two descriptions changes the rows again at each repetition |
| RegistrationLaws.DistinctNamesRepeat | services/grpc_server/servicer.py:347-400 | in particular a manifest list with distinct names can be sent again |
| RegistrationLaws.RegistrationRefreshesExactly | services/grpc_server/servicer.py:347-400 | when flags and vectors agree with the counters, as they do in every run, a registration leaves a row fresh if and only if it was, or an enabled manifest created it, turned it on or changed its metadata; so sending the same manifests again does not repair a stale row |
| RegistrationLaws.RegistrationKeepsFresh | services/grpc_server/servicer.py:347-400 | whatever manifests are sent, fresh rows stay fresh and new ones are, so a row that may be searched has the vector of its current metadata |
| RegistrationReading.ConfigsExactly | services/grpc_server/servicer.py:346-350 | a name is stored if and only if some manifest has it, enabled or not, with the configuration of its last manifest |
| RegistrationReading.EnabledListExactly | services/grpc_server/servicer.py:348-369 | the rows to embed are those of exactly the enabled manifests, in their order |
| RegistrationReading.LinksExactly | services/grpc_server/servicer.py:405-411 | the agent is linked to the rows of its organization that an enabled manifest names |
| RegistrationReading.SyncedExactly | services/grpc_server/servicer.py:370-400 | an enabled row that has the manifest's five fields stays as it is; any other is turned on and gets them, its document and version |
| RegistrationReading.CreatedExactly | services/grpc_server/servicer.py:354-368 | a new row is on, has the manifest's five fields, version one, and asks for an embedding |
| RegistrationReading.RegisteredExactly | services/grpc_server/servicer.py:347-400 | after a registration a row has the five fields of the last enabled manifest of its name |
| RegistrationReading.OthersExactly | services/grpc_server/servicer.py:347-400 | a row that no enabled manifest names is as it was |
| Liveness.AgentTable.MarkStaleOffline | services/grpc_server/main.py:63-74 | afterwards no agent is online that was last seen before the threshold, only such agents have changed and only in their status, and the count is the number of agents that changed |
| Liveness.AgentTable.MarkAllOnlineOffline | services/grpc_server/main.py:77-82 | afterwards the online agents are offline and all else is as it was; runs start here |
| Liveness.AgentTable.UpdateStatus | services/grpc_server/servicer.py:458-477 | a known agent has the new status and was seen now, and no other agent changes; the table stays what the run of all sweeps and writes makes of it |
| Liveness.OnlineExactly | services/grpc_server/main.py:60-90 | an agent has the status and time of its last touch, except that it is offline if that put it online and a later sweep came more than 60 seconds after it; without a touch it is as it was, but not online |
| Liveness.SilentAgentGoesOffline | services/grpc_server/main.py:85-90 | with sweeps at most P apart, a silent agent is not online once 60 + P seconds have passed |
| Liveness.RefreshedAgentStaysOnline | services/grpc_server/main.py:63-74 | an agent whose last write put it online, with a write within 60 seconds before every sweep, is online |
| Notifications.ActionDispatcher.Dispatch | services/checks/actions.py:22-59 | the loop creates a log for each action that is due and not suppressed by the logs there are by then, in order |
| Notifications.DispatchIsRun | services/checks/actions.py:35-55 | a dispatch is a run of single tries, so what holds of runs holds of dispatches |
| Notifications.SpacedInEveryRun | services/checks/actions.py:149-200 | over every run of dispatches one after another, logs of one check, type and key that never fail are more than the later one's cooldown apart |
| Notifications.WindowBound | services/checks/actions.py:149-168 | a window of length W holds at most floor(W / c) + 1 of them, c the smallest cooldown |
| Notifications.OneLogPerKey | services/checks/actions.py:35-55 | with one clock reading and no negative cooldown a dispatch makes at most one log of each type and condition |
| Notifications.KeyTellsCondition | services/checks/actions.py:221-223 | for one check and type the hashed text tells the conditions apart |
| NotificationReading.DueExactly | services/checks/actions.py:108-147 | on completion, which is the default, on failure or cancellation, always for reminders, never for an unknown condition |
| NotificationReading.HealthExactly | services/checks/actions.py:119-130 | recovery is from critical or degraded to healthy; a transition changes the state, between the states named if any are |
| NotificationReading.ThresholdExactly | services/checks/actions.py:132-142 | a threshold, critical by default, asks for a finding of that severity; a warning is also met by a critical one |
| NotificationReading.TryExactly | services/checks/actions.py:150-200 | a due action makes a pending log of its own type, condition, target and time if and only if there is no log of the same check, type and condition that has not failed and is no older than the cooldown, 300 seconds by default |
| NotificationReading.LookExactly | services/checks/actions.py:46-54 | the same when other dispatches come between the look and the making, and one look makes at most one log |
| NotificationRaces.SpacedAsSeenInEveryRun | services/checks/actions.py:46-54 | when dispatches overlap, in every interleaving a log is more than its cooldown after every log of its key that its own look saw and that never failed |
| NotificationRaces.OverlapNotifiesTwice | services/checks/actions.py:46-54 | two looks before either log is made let both notifications out at one instant |
| NotificationRaces.SpacedExactly | services/checks/actions.py:46-54 | in every interleaving, logs of one check, type and key that never fail are more than the later one's cooldown apart if and only if none of them is made between another's look and that one's making, within its cooldown |
| NotificationRaces.UndisturbedIsSpaced | services/checks/actions.py:35-55 | in particular they are when no other log of the key is made between a look and its own log |
| ConfigAssembly.MergeIsIdempotent | apps/marvins/config_assembly.py:61-67 | merging the same override again changes nothing |
| ConfigAssembly.CoveredExactly | apps/marvins/config_assembly.py:61-67 | merging into a value gives the override itself if and only if the override sets everything in the value |
| ConfigAssembly.MergeIsAssociativeExactly | apps/marvins/config_assembly.py:61-67 | three layers can be grouped either way if and only if no leaf of the middle hides a part of the first that the last does not set |
| ConfigAssembly.LeafBetweenObjects | apps/marvins/config_assembly.py:61-67 | a leaf between two objects makes the two groupings differ |
| ConfigAssembly.LookupPut | apps/marvins/config_assembly.py:61-67 | a merge shows the override's leaf on the paths the override decides and the base's on all others |
| ConfigAssembly.LastLayerWins | apps/marvins/config_assembly.py:61-67 | merging layers on values, the scalar at a path is that of the last layer that decides it; no earlier layer ever overwrites a later one |
| ConfigObjects.DeepMerge | apps/marvins/config_assembly.py:61-67 | the recursive update of mutable dictionaries, key by key in any order, is the merge of objects at that path; dictionaries shared with others change for all who hold them |
| ConfigObjects.AssembleMarvinConfig | apps/marvins/config_assembly.py:8-58 | the capabilities' dictionaries and the entries, which are the resources' own dictionaries, all are among the shared objects that the theorems below read, and hold what these show; the global configuration is a fresh copy |
| ConfigSharing.MergeShowsPut | apps/marvins/config_assembly.py:61-67 | whatever is shared, the dictionary merged into reads as the merge of the two values |
| ConfigSharing.AbsorbsExactly | apps/marvins/config_assembly.py:61-67 | a merge changes nothing if and only if everything in the override is there already |
| ConfigOwnership.QuietExactly | apps/marvins/config_assembly.py:61-67 | whether a merge of shared dictionaries writes into a resource's own can be told from three values: the capability's, the nesting of its own objects, and the resource's |
| ConfigOwnership.QuietKeeps | apps/marvins/config_assembly.py:61-67 | if it does not, every other capability and every resource reads as before |
| ConfigLeaks.NoiseShows | apps/marvins/config_assembly.py:61-67 | if it does, some resource's own object takes over a slot that its configuration did not have |
| ConfigLeaks.DiffersShows | apps/marvins/config_assembly.py:61-67 | and that resource's configuration then reads differently |
| ConfigAssembled.AssembledExactly | apps/marvins/config_assembly.py:8-58 | for any reported, overriding and resource configurations, in any order of the dictionaries: after each resource every capability reads as the merge of its layers and every resource entry as given, if and only if no resource writes anything new into an object that a capability it configures got from an earlier one, a condition on the given values |
| ConfigAssembled.StepExactly | apps/marvins/config_assembly.py:8-58 | while all earlier resources were quiet, the configuration is as expected after the next one, and so the one returned after the last, if and only if that one is quiet |
| ConfigTrees.GivenExists | apps/marvins/config_assembly.py:8-58 | whatever is configured, there are dictionaries that read so, each a tree of its own; the theorem speaks of every configuration |
| ConfigAssembled.AssembledLastLayerWins | apps/marvins/config_assembly.py:8-58 | then the scalar at a path of the assembled capability is that of the last layer that decides it |
| ConfigAssembled.FlatIsQuiet | apps/marvins/config_assembly.py:53-56 | a resource without nested objects is always quiet |
| ConfigLeakCase.LaterResourceLeaks | apps/marvins/config_assembly.py:53-67 | from two resources given as separate trees, the second writes into the first one's entry and into a capability it does not name |
| Vectors.RoundTripExactly | apps/marvins/fields.py:38-59 | a printed vector, whose entries print to text that reads back, parses to itself, and the empty vector to nothing |
| Vectors.ReprintIsStable | apps/marvins/fields.py:38-59 | if what can be read prints to text that reads back, then whatever text parses, its vector survives being printed and parsed again |
| Vectors.DecimalCodec | apps/marvins/fields.py:38-59 | both assumptions can be met: they hold of decimal numerals and every vector of them |
| Vectors.PrintedExactly | apps/marvins/fields.py:52-59 | numbers are printed between brackets with commas between them; a text is kept but for the space around it |
| Vectors.ReadExactly | apps/marvins/fields.py:38-50 | a text is read if and only if each part is a number, with or without brackets and with any space around |
| OrgSlug.UniqueSlug | apps/core/views.py:119-124 | the loop ends within one probe more than there are slugs, at the first unused name of base, base-1, base-2, ... |
| OrgSlug.CandidatesDiffer | apps/core/views.py:122-124 | no two of these names are equal |
| OrgSlug.CandidateExactly | apps/core/views.py:117-124 | the n-th further name is the base, a hyphen and the numeral of n |
| OrgSlug.TakenCandidates | apps/core/views.py:122-124 | as many slugs exist as names in a row are taken |
| Text.ValueOfDecimal | apps/core/views.py:123 | a decimal numeral determines its number |
| Text.DecimalExactly | apps/core/views.py:123 | a numeral has digits only and no leading zero |
| Text.StripExactly | apps/marvins/fields.py:38-59 | stripping takes off what is to be dropped at both ends, and no more |

## Left out

- HTTP views, REST serializers, admin, templates and WebSocket delivery: plumbing around the modelled functions.
- Temporal workflows, the notification service and its severity summary: thin wrappers, or source that is not part of this model.
- LLM, embedding and registration-key services: foreign calls; `embed` is an arbitrary function of model and document, a failing provider an absent answer, a key check a free choice.
- PostgreSQL full-text and vector search: arbitrary duplicate-free ranked lists; finding the exactly named capability and counting its online agents are inputs of the ranking.
- Floating point: scores and costs are exact reals. A vector may have entries of any type; that printing and parsing a number gives it back is assumed of the entries of the vector (`RoundTripExactly`), or of the numbers that parsing returns (`ReprintIsStable`).
- Timestamps are integers whose order is the order of the ISO texts the code compares; UUIDs are strings.
- Pydantic validation, unknown selector keys, logging, and malformed JSON in manifests.
- `find_capabilities` result shaping, sample labels, aggregates, the warning above the default target limit, the expiry time of a resolved set, and a ranked capability deleted between two queries.
- Discovery's budget check locks the row by session and organization; a session that is not found is not modelled.
- Budget releases of work that was not outstanding, and changes of the limits between transactions.
- asyncio internals: taking from a queue, a critical section and the end of a wait are one step each, and time-outs are free choices. An exception in the handler's loop ends it with its cleanup; a failed reader task, whose exception the `finally` block raises again, ends it without.
- Control messages and configuration pushes (these all under one id, apps/marvins/signals.py:82) wait for no future; they are the `Push` step of a stream.
- The status column and the registry can disagree: a superseded handler still writes "offline"; no claim relates them.
- Stale in-memory agent rows: each status write and registration is one load-change-save.
- Counts of notifications in a window or in one dispatch are for dispatches one after another; overlapping ones have the claims of `NotificationRaces`.
- The hash of a deduplication key is taken to be injective, and the previous health state is an input.
- Configurations are read as trees, as JSON columns are: no two of the dictionaries given to the assembly share a nested one. The assembly changes some of them; whether a caller later saves such a row is not modelled.
- AssembledExactly: speaks of the configuration after each resource; of the last one alone `StepExactly` speaks when the earlier resources are quiet, and otherwise a later resource may have written the old value back.
- `generate_batch` and the polling for rows to re-embed: repetitions of the single job.
