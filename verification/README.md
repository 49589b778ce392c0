# Penguard: verified model

Penguard is a security operations platform.  This project models the parts of it that keep
promises over graphs, loops and long runs, and proves those promises in Dafny.  The command
`dafny verify dfyconfig.toml` verifies all of it.

| file | models |
|---|---|
| `Wrappers.dfy` | optional values, texts that may be missing or empty, ASCII lower case |
| `Sorting.dfy` | stable sorting by a key, used by three components |
| `Playbook.dfy` | the playbook graph shared by the two services that interpret it |
| `SoarRuntime.dfy` | the SOAR service's topological order and the run it records |
| `Effects.dfy` | the API's walk through the same graph, the effects and the external calls |
| `Running.dfy` | running a playbook: the recorded run, the effects, and how the two orders agree |
| `Chains.dfy` | linear playbooks, on which both interpreters follow the node list |
| `Draft.dfy`, `Template.dfy` | the two small compilers that emit playbooks, each composed with saving, previewing and running |
| `SiemModel.dfy`, `SiemIncidents.dfy` | SIEM events, enrichers, rules and incidents: their meaning as functions, and the service as one step function `Apply` |
| `SiemService.dfy` | `SiemStore` and the service methods: the loops, each proved equal to its meaning and to one `Apply` step |
| `SiemTheorems.dfy` | what holds on every run of the SIEM |
| `SiemReference.dfy`, `IncidentReference.dfy` | what ingestion and patches do, said again on event fields and table rows, with every value written out |
| `XdrModel.dfy`, `XdrService.dfy`, `XdrTheorems.dfy` | enrollment tokens and the action queue: step function, store and handlers, theorems over all runs |
| `XdrReference.dfy` | what each of its requests does to the tables, said again row by row |
| `Realtime.dfy` | the realtime broker with bounded queues and eviction |
| `RateLimit.dfy` | the sliding-window rate limiter |
| `Cursor.dfy` | the agent's cursor over the Windows security log |
| `Schedule.dfy` | the agent's due-time loop |
| `Grouping.dfy`, `Fortigate.dfy`, `WindowsPayloads.dfy` | two in-place group-bys, proved against one notion of grouping and a description of each group |
| `Audit.dfy` | redaction of audit details on its three paths |

Two shapes recur.  A loop or a state-changing method is proved against a specification that does
not mention its algorithm (`KahnOrder`, `IsWalk`, `Grouped`), and a uniqueness lemma shows that
the specification leaves no choice.  A service is a class whose methods each equal one step of a
pure `Apply`, and theorems about `Run` hold for every list of requests.  What the functions of
such a specification compute is stated a second time, on raw fields, indices and literal values and
without calling them (`WalkFollowsWishes`, `IngestionOpens`, and the other lemmas named `...Meaning`).

Times are integers (real numbers in `Schedule.dfy`).  Clocks, random ids, token hashes, webhook
replies and which outgoing calls raise are parameters.  Requests are atomic and sequential.

Five properties that one may expect hold only under a condition; the code is modelled as it is,
and the condition is proved exact:

- A drafted playbook runs up to its first decision: true if and only if all its calls return and no
  step before that decision notifies.  A drafted webhook node names no destination, so looking its
  destination up raises and the API drops the effects, while the recorded run may well wait
  (`DraftFinishesIff`; a draft that always aborts is `NotifyThenBlockAborts`).
- At most one open HTTP-flood incident per flow and port: true all along a run if and only if no
  status patch reopens an incident whose flow already has another open one
  (`DedupedAllAlong`; a run that breaks it is `ReopeningBreaksDeduplication`).
- Actions of an endpoint are claimed in the order in which they were created: true all along a run
  if and only if no claim finds the longest-waiting action stamped later than another waiting one,
  which needs a clock that was set back (`InOrderAllAlong`; such a run is `SetBackClockOvertakes`).
- The Windows cursor never forwards a record twice: true for every sequence of polls that each list
  distinct ids if and only if the stored cursor is not negative (`NoRepeatsIffNonNegative`).
- Nor does it lose one: true if and only if no batch skips a record (`LossFreeIffGapless`), which for
  a collector that lists the 50 newest means at most 50 new records between two polls
  (`GaplessIffNoBurst`).

## Model

| member | source | states |
|---|---|---|
| SoarRuntime.OrderedNodes | apps/soar_skipper/app/runtime.py:86-112 | the result is a permutation of the nodes; if the edges are acyclic it is the Kahn order (predecessors first, ties by last predecessor, then input position), otherwise it is the input list |
| SoarRuntime.KahnOrderUnique | apps/soar_skipper/app/runtime.py:97-108 | a graph has at most one Kahn order, so the specification of the sort determines its result, queue discipline included |
| SoarRuntime.EdgesClimb | apps/soar_skipper/app/runtime.py:97-112 | in that order the start of every edge stands before its end, on node positions |
| SoarRuntime.TiesBroken | apps/soar_skipper/app/runtime.py:97-108 | of two nodes the one whose last predecessor stands earlier comes first, and on a tie the one listed first, on positions in the node list |
| SoarRuntime.CyclicMeaning | apps/soar_skipper/app/runtime.py:110-112 | the graph counts as cyclic exactly if some edges lead from one to the next and back to the first |
| SoarRuntime.TopologicalIsAcyclic | apps/soar_skipper/app/runtime.py:110-112 | if all edge targets can be put in topological order then no non-empty path, self-loops included, returns to its start |
| SoarRuntime.IncompleteIsCyclic | apps/soar_skipper/app/runtime.py:110-111 | if the queue drains before all nodes are ordered, the edges contain a cycle |
| SoarRuntime.CompleteIsKahnOrder | apps/soar_skipper/app/runtime.py:110-112 | if the queue drains with all nodes ordered, the graph is acyclic and the order is the Kahn order |
| SoarRuntime.CountEdges | apps/soar_skipper/app/runtime.py:89-95 | adjacency lists keep all edges in order, duplicates included, and each counter is the number of edges into its node |
| SoarRuntime.Release | apps/soar_skipper/app/runtime.py:105-108 | counting down the targets of a finished node queues, in input order and once each, exactly those with no unfinished predecessor edge left |
| SoarRuntime.FinishHead | apps/soar_skipper/app/runtime.py:102-108 | one turn of the main loop keeps the frontier invariant: done and queued nodes are exactly those whose predecessors are all done, in final order |
| SoarRuntime.BuildPlaybookRun | apps/soar_skipper/app/runtime.py:29-83 | a recorded run has one step per node in the service's order and waits for approval exactly if the playbook holds a gated node anywhere |
| SoarRuntime.StepMeaning | apps/soar_skipper/app/runtime.py:80-83 | a step carries the id and kind of its node, waits for the approval and the three blocking kinds, and is sensitive for the latter |
| Effects.WalkNodes | apps/api/app/playbooks/effects.py:231-259 | on every playbook, cyclic ones included, the loop ends and returns the walk: distinct ids from the start node, each the chosen successor of the one before, until there is none or it was visited; the next two rows say which edge is chosen |
| Effects.WalkFollowsWishes | apps/api/app/playbooks/effects.py:262-302 | at every position of every walk, on indices of edges: where the severity is listed ignoring case, or no list is given, along the first usable edge marked `true`, else the first with condition none, empty or `success`; on a mismatch along the first marked `false`; elsewhere along the first plain edge, else the first; and the walk ends exactly if no such edge leads to an existing unvisited node |
| Effects.WalkStarts | apps/api/app/playbooks/effects.py:231-243 | the walk starts at the first trigger node, else at the first node to which no usable edge leads, else at the first node |
| Effects.SeverityMeaning | apps/api/app/playbooks/effects.py:288-293 | a condition holds exactly if it lists no severities or one that equals the incident's ignoring case |
| Effects.WalkUnique | apps/api/app/playbooks/effects.py:231-285 | a playbook and an incident have exactly one walk |
| Effects.WalkUsesEdges | apps/api/app/playbooks/effects.py:237-285 | consecutive nodes of the walk are joined by an edge of the playbook |
| Effects.MismatchFollowsFalse | apps/api/app/playbooks/effects.py:270-279 | after a severity mismatch the walk goes on only along an edge marked `false` |
| Effects.MismatchBreakIsLast | apps/api/app/playbooks/effects.py:77-79 | where the executor stops on a mismatch without a `false` edge, the walk has ended already, so that stop never cuts anything off |
| Effects.AttemptPerforms | apps/api/app/playbooks/effects.py:56-226 | a node that gets through adds one effect of its own, which waits exactly if the node is gated, or none if it is silent, and gated nodes call nobody; one that aborts is a node that calls, and either its destination is unknown and nothing was called, or its last call raised |
| Effects.PerformNode | apps/api/app/playbooks/effects.py:56-226 | the branches compute, aspect by aspect, what the node is specified to add, and obey the statement above |
| Effects.Notify | apps/api/app/playbooks/effects.py:138-186 | the destination is looked up before anything is sent, the audit record follows the reply, and the first of these that raises ends the branch |
| Effects.NotifyMeaning | apps/api/app/playbooks/effects.py:138-186 | all four ways a webhook node can end: nothing called, sending raised, recording raised, or an effect completed exactly if the reply is ok |
| Effects.NoteMeaning | apps/api/app/playbooks/effects.py:94-136 | a note node makes one call with its rendered text to the ticket of the run, or the audit log, and its effect tells the text |
| Effects.LookupMeaning | apps/api/app/playbooks/effects.py:56-93 | conditions and enrichments call nobody, leave their output for later templates, and only a mismatch is skipped |
| Effects.SilentCallMeaning | apps/api/app/playbooks/effects.py:188-226 | dry runs, approvals and blocks call nobody and leave no output; the method defaults to POST and the role to admin |
| Effects.KindNameRoundTrip | apps/api/app/playbooks/effects.py:56-226 | reading a type name as a kind loses nothing, whatever the name |
| Effects.ExecuteEffects | apps/api/app/playbooks/effects.py:38-228 | a run performs the walk up to and including its first gated node, or until something raises |
| Effects.FinishesIffAnswered | apps/api/app/playbooks/effects.py:38-228 | a run finishes exactly if every notified destination is known and every call returns, and then did what it would do if nothing could raise |
| Effects.RunIsPrefix | apps/api/app/playbooks/effects.py:38-228 | whatever raises, the calls made are a prefix of those of a run in which nothing does |
| Effects.AbortedAt | apps/api/app/playbooks/effects.py:56-228 | an aborted run got through the nodes before some node k, whose destination is unknown or whose last call raised |
| Effects.WaitsAtMostOnceAndLast | apps/api/app/playbooks/effects.py:199-226 | no effect but the last waits for approval, and the last waits exactly if the run finishes and the walk holds a gated node |
| Effects.CallsStopBeforeGate | apps/api/app/playbooks/effects.py:199-226 | finished or aborted, a run makes exactly the calls of the nodes before the first gated one, and finishes exactly if they do |
| Running.RunEffects | apps/api/app/routers/soc.py:1507-1524 | the check for effect nodes before the executor changes no outcome |
| Running.RunPlaybook | apps/api/app/routers/soc.py:1475-1539 | the recorded run and the effects of one playbook; whenever the effects wait, the recorded run waits |
| Running.WalkClimbs | apps/soar_skipper/app/runtime.py:86-112 | on every acyclic playbook the effect walk only moves forward in the order of the SOAR service |
| Chains.AppendNode | apps/api/app/routers/soc.py:308-316 | appending a node keeps one edge between neighbours and makes the node the new end |
| Chains.ChainSavable | apps/soar_skipper/app/models.py:113-127 | a chain passes every check of saving: unique non-empty ids, known kinds and conditions, existing edge ends, and a trigger |
| Chains.ChainIsKahnOrder | apps/soar_skipper/app/runtime.py:86-112 | on a chain the node list is the Kahn order and there is no cycle |
| Chains.ChainOrderUnchanged | apps/soar_skipper/app/runtime.py:86-112 | whatever the SOAR service may return for a chain is the node list itself |
| Chains.ChainIsWalk | apps/api/app/playbooks/effects.py:231-285 | on a chain the effect walk is the node list, for every incident |
| Chains.ChainRun | apps/api/app/playbooks/effects.py:38-228 | a run of a chain performs its node list up to the first gate, or until something raises |
| Chains.SavePreviewAndRun | apps/api/app/routers/soc.py:802-821 | a chain can be saved, its preview is its node list, and its recorded run waits exactly if it holds a gated node |
| Chains.StoredMeaning | apps/soar_skipper/app/models.py:76 | saving changes nothing but a missing edge condition, which becomes `success` |
| Chains.RunMissesSensitive | apps/api/app/playbooks/effects.py:199-226 | if sensitive nodes sit behind approvals, no run gets to one |
| Chains.SensitiveNotReached | apps/api/app/playbooks/effects.py:199-226 | so no effect of a run belongs to a sensitive node |
| Draft.DraftPlaybook | apps/api/app/routers/soc.py:773-792 | for every list of steps the drafted graph is a chain: trigger first, distinct ids, one plain edge between neighbours |
| Draft.DraftNodeByNode | apps/api/app/routers/soc.py:773-792 | step by step: which kind, id and configuration its node has, at which position, and whether an approval node stands before it |
| Draft.MapStepMeaning | apps/api/app/routers/soc.py:248-272 | which types of steps become blocks, notifications, look-ups, approvals, or inert notes, and which need approval |
| Draft.ApprovalPrecedesStep | apps/api/app/routers/soc.py:778-790 | the node of every step that needs approval sits directly after its own approval node |
| Draft.DraftGatesSensitive | apps/api/app/routers/soc.py:248-272 | every drafted firewall-changing node sits directly after an approval node |
| Draft.DraftIdsDistinct | apps/api/app/routers/soc.py:777-785 | trigger, step and approval ids never collide |
| Draft.DecimalInjective | apps/api/app/routers/soc.py:779-783 | different step numbers have different decimal texts |
| Draft.DraftStopsAtFirstDecision | apps/api/app/routers/soc.py:773-792 | the nodes before the first gate of a draft are exactly those of the steps before the first that needs a decision |
| Draft.DraftLacksIffNotifies | apps/api/app/routers/soc.py:777-792 | a draft lacks a webhook destination exactly if one of its steps notifies |
| Draft.DraftFinishesIff | apps/api/app/playbooks/effects.py:138-153 | a run of a draft finishes exactly if no step before the first decision notifies and every call of those steps returns |
| Draft.DraftFinishesWhenAnswered | apps/api/app/playbooks/webhook_destinations.py:71-78 | if every call returns, exactly if no step before the first decision notifies |
| Draft.NotifyingDraftAborts | apps/api/app/playbooks/webhook_destinations.py:71-78 | with a notifying step before the first decision, the run aborts after exactly the calls of the steps before that step |
| Draft.DraftOnlyNotes | apps/api/app/playbooks/effects.py:94-109 | whatever raises, a drafted playbook sends no webhook: its only calls put notes on the ticket of its run |
| Draft.DraftPreviewAndRun | apps/api/app/routers/soc.py:773-821 | draft, save, preview and run together: the draft can be saved, the preview lists its nodes in order, the run ends as the rows above say, no sensitive node is reached, and recorded run and effects agree on whether a decision is pending exactly if the effects finish or none is |
| Draft.NotifyThenBlockAborts | apps/api/app/routers/soc.py:1507-1525 | for the draft of a notification and a block, the effects abort without a call whatever the surroundings, while the recorded run waits |
| Templates.RecommendedTemplate | apps/api/app/routers/soc.py:326-491 | an eligible template gives the chain of its parts, blocks exactly if the template asks for it and source and integration are known, and only directly behind an approval; an ineligible one gives nothing |
| Templates.TemplateNodeByNode | apps/api/app/routers/soc.py:326-491 | template by template: which nodes it has, with which ids, kinds and texts |
| Templates.TemplateIsChain | apps/api/app/routers/soc.py:345-477 | every combination of the optional parts is a chain with distinct ids |
| Templates.TemplateGates | apps/api/app/routers/soc.py:400-436 | in every combination the block node sits behind the approval, and is there only if asked for |
| Templates.TemplateRun | apps/api/app/playbooks/effects.py:38-228 | a run of the template waits exactly if it blocks and its calls return; a blocking one calls once, for the triage note; the block is never reached |
| Templates.TemplatePreviewAndRun | apps/api/app/routers/soc.py:852-914 | instantiate, save, preview and run together: the preview lists the nodes in order, the recorded run waits exactly if the template blocks, and the run ends as above |
| SiemModel.SortRecentSorted | apps/siem_kowalski/app/store.py:92-103 | the recent listing is a permutation of the newest rows with the largest text of the event time first |
| Sorting.SortBySorts | apps/siem_kowalski/app/store.py:99-103 | sorting is a permutation in key order |
| Sorting.SortByStable | apps/siem_kowalski/app/store.py:99-103 | elements with equal keys keep their order |
| Sorting.SortedUnique | apps/soar_skipper/app/runtime.py:97-100 | key order and stability determine the sorted list |
| Sorting.SortByApart | apps/agent_private/agent_private/windows_security.py:42 | without equal keys the result ascends strictly |
| SiemModel.ListedWhileFewAfter | apps/siem_kowalski/app/store.py:78-90 | a row is among the newest of its type as long as fewer than the limit came after it |
| SiemModel.ListedExactlyWhileFewAfter | apps/siem_kowalski/app/store.py:78-90 | if no other row has its payload, exactly as long |
| SiemModel.NewestLists | apps/siem_kowalski/app/store.py:78-90 | the listing by row indices: strictly decreasing, of the type, each exactly once, none missing that has fewer than the limit of its type after it, and at most the limit |
| SiemService.SiemStore.ListEvents | apps/siem_kowalski/app/store.py:78-90 | the store's listing is that listing, and without a limit as long as there are rows of the type |
| SiemModel.RecentIsListing | apps/siem_kowalski/app/store.py:92-103 | the recent listing holds the same rows, the largest text of the event time first and equal ones newest first |
| SiemModel.ShortestReaches | apps/siem_kowalski/app/main.py:465-477 | stopping early reaches the threshold exactly when the full sum does, and no shorter prefix reaches it |
| SiemModel.AscendingFacts | apps/siem_kowalski/app/main.py:562-580 | a port set is listed strictly ascending, completely, and at its size |
| SiemService.SiemStore.AddEvent | apps/siem_kowalski/app/store.py:59-76 | a row is appended with columns taken from its payload unless the id is taken |
| SiemService.SiemStore.ListRecentEvents | apps/siem_kowalski/app/store.py:92-103 | the listing is a rearrangement of exactly the newest rows of the type, each once |
| SiemService.SiemStore.ListIncidents | apps/siem_kowalski/app/store.py:138-150 | in a consistent table, which every run has, the list is that of all payloads, newest row first, filtered by their own status and severity |
| SiemService.SiemStore.UpdateIncident | apps/siem_kowalski/app/store.py:165-181 | the table keeps its rows: those with that id get the new severity, status and payload and keep id and rule, all others are unchanged |
| SiemService.CountUntil | apps/siem_kowalski/app/main.py:629-652 | the early-exit loop returns the weight and ids of the shortest qualifying prefix of the matching rows, or of all of them |
| SiemService.EnrichFailedLoginBurst | apps/siem_kowalski/app/main.py:453-477 | the loop computes the declarative failed-login enrichment |
| SiemService.HasRecentScan | apps/siem_kowalski/app/main.py:787-834 | true exactly if a scan of the flow and kind from the last 60 seconds is among the 50 newest scan rows |
| SiemService.CollectPorts | apps/siem_kowalski/app/main.py:543-561 | the loop returns the distinct ports of the event and all matching rows, and the ids of those rows in order |
| SiemService.EnrichPortScan | apps/siem_kowalski/app/main.py:519-586 | the allowed-scan enricher, and with the other kind the denied one of lines 722-784, compute the declarative scan enrichment |
| SiemService.HasRecentHttpFlood | apps/siem_kowalski/app/main.py:692-719 | true exactly if an inferred flood of the flow and port from the last 300 seconds is among the 50 newest DoS rows |
| SiemService.EnrichHttpFlood | apps/siem_kowalski/app/main.py:602-673 | the loop computes the declarative flood enrichment |
| SiemService.IngestEvent | apps/siem_kowalski/app/main.py:1235-1268 | ingestion is one step of the state machine and reports the enriched event and the incident it opened; the rows of IncidentReference say what the step is |
| IncidentReference.IngestionOpens | apps/siem_kowalski/app/main.py:1235-1268 | an accepted event is stored under its own columns and opens exactly one incident if and only if it meets a rule and is not a flood with full key of which an open incident has the rule, the attack, source, destination and port, and the integration if the event has one |
| IncidentReference.IngestionRefused | apps/siem_kowalski/app/main.py:1235-1268 | a taken event id changes nothing, a taken incident id opens nothing |
| IncidentReference.IngestedId | apps/siem_kowalski/app/main.py:1235-1240 | the id of a stored event is the submitted one, or the fresh one if none was submitted |
| IncidentReference.RuleMeaning | apps/siem_kowalski/app/main.py:151-236 | which rule an event meets, type by type with all thresholds, and which severity it sets |
| IncidentReference.DetectMeaning | apps/siem_kowalski/app/main.py:256-377 | an incident is reported exactly on those terms, and what it says |
| SiemReference.FloodInferred | apps/siem_kowalski/app/main.py:602-720 | a network event with a full key becomes a flood exactly if it was let through, is HTTP, no inferred flood of its flow and port is among the 50 newest DoS rows within 300 seconds before, and with the evidence of the last 60 seconds among the 500 newest network rows it counts for 100 |
| SiemReference.FloodContent | apps/siem_kowalski/app/main.py:640-673 | what an inferred flood says, and that all else of the event stays |
| SiemReference.ScanInferred | apps/siem_kowalski/app/main.py:519-586 | an allowed or denied event becomes a scan exactly if no scan of its flow was reported within 60 seconds and with the evidence of the last 60 seconds it covers 20 ports |
| SiemReference.ScanContent | apps/siem_kowalski/app/main.py:722-784 | what an inferred scan says: flow, strictly ascending ports, exactly those seen, and their number; all else of the event stays |
| SiemReference.ScanRelates | apps/siem_kowalski/app/main.py:562-580 | it relates to itself and to exactly the listed rows that are its evidence |
| SiemReference.NothingElseInferred | apps/siem_kowalski/app/main.py:519-784 | events that tell no flow, or are of other types, are not inferred to be anything |
| SiemReference.LoginMarked | apps/siem_kowalski/app/main.py:453-510 | a failed login is marked exactly if its count and those of its subject within the window, row by row, reach three; severity and attack that the mark sets, and that all else of the event stays |
| SiemReference.LoginReportsShortest | apps/siem_kowalski/app/main.py:465-510 | and then reports the shortest beginning of the listing that lifts it to three: its count and its ids |
| SiemReference.ListingTotal | apps/siem_kowalski/app/store.py:78-90 | weighing the matches of a listing is adding up the rows themselves, one by one |
| SiemService.UpdateIncidentStatus | apps/siem_kowalski/app/main.py:1334-1356 | a status patch is one step: status and a timeline item with that status; unknown ids are refused |
| IncidentReference.StatusPatched | apps/siem_kowalski/app/main.py:1334-1356 | only the row of the incident changes, in column and payload alike: the new status and one item that carries it |
| SiemService.LevelChanges | apps/siem_kowalski/app/main.py:1368-1377 | levels that differ are patched, each with its note, and nothing else |
| SiemService.LinkChanges | apps/siem_kowalski/app/main.py:1378-1385 | the same for assignee, analysis and free note |
| SiemService.TriageChanges | apps/siem_kowalski/app/main.py:1366-1388 | the imperative patch yields the patched fields and the notes in order, and changes nothing if there are no notes |
| SiemService.UpdateIncidentTriage | apps/siem_kowalski/app/main.py:1359-1405 | a triage patch is one step, and a patch without changes leaves the store alone |
| IncidentReference.TriagePatched | apps/siem_kowalski/app/main.py:1359-1405 | only the row of the incident changes: the fields given, one item per field that differs, and the note last |
| IncidentReference.UnknownPatched | apps/siem_kowalski/app/main.py:1334-1405 | a patch of an unknown incident changes nothing |
| SiemService.ResetStore | apps/siem_kowalski/app/main.py:1271-1279 | both tables are emptied |
| SiemTheorems.EnrichKeepsIdentity | apps/siem_kowalski/app/main.py:1235-1240 | no enricher changes id, time or entities |
| SiemTheorems.OneEnricherApplies | apps/siem_kowalski/app/main.py:1235-1240 | at most one of the four enrichers changes any event, so their order hides nothing |
| SiemTheorems.MarkedLoginIsStable | apps/siem_kowalski/app/main.py:453-510 | a marked failed login is not changed by another enrichment, whatever is stored then |
| SiemTheorems.RunsKeepLedger | apps/siem_kowalski/app/main.py:1235-1247 | on every run each stored row is its submission enriched against exactly the rows stored before it |
| SiemTheorems.FloodSpacing | apps/siem_kowalski/app/main.py:602-719 | on every run, two stored inferred floods of one flow and port at most 300 seconds apart have at least 50 DoS rows between them |
| SiemTheorems.ScanSpacing | apps/siem_kowalski/app/main.py:722-834 | the same for allowed and for denied scans of one flow, with 60 seconds and 50 scan rows |
| SiemTheorems.OrderIsIrrelevant | apps/siem_kowalski/app/main.py:629-652 | the weighed sum of matching rows is the same for every order of the rows |
| SiemTheorems.FloodVerdict | apps/siem_kowalski/app/main.py:629-652 | an unsuppressed eligible event becomes a flood exactly if one plus the full sum over the listed rows, in any order, reaches 100, although the loop stops early |
| SiemTheorems.FloodReportsShortest | apps/siem_kowalski/app/main.py:629-673 | the reported count and ids are those of the shortest qualifying prefix |
| SiemTheorems.ScanVerdict | apps/siem_kowalski/app/main.py:543-586 | an unsuppressed eligible event becomes a scan exactly at 20 distinct ports; the reported list is strictly ascending, equals that set and has the reported length |
| SiemTheorems.LoginRule | apps/siem_kowalski/app/main.py:166-172 | of all rules only the brute-force rule can match a failed login, and it does exactly from count three on |
| SiemTheorems.LoginIncident | apps/siem_kowalski/app/main.py:453-510 | an ingested failed login opens a brute-force incident exactly if its count plus all counts of the same subject in the window reach three |
| SiemTheorems.ApplyKeepsConsistent | apps/siem_kowalski/app/main.py:1235-1405 | every request keeps columns equal to payloads, ids unique and each status equal to the last one on the timeline |
| SiemTheorems.RunsKeepConsistent | apps/siem_kowalski/app/store.py:138-181 | so this holds in every reachable state |
| SiemTheorems.TimelinesOnlyGrow | apps/siem_kowalski/app/main.py:1334-1405 | every request but a reset keeps all incidents and only appends to their timelines |
| SiemTheorems.ColumnsFilterPayloads | apps/siem_kowalski/app/store.py:138-150 | in a consistent table, filtering on the columns is filtering on the payloads |
| SiemTheorems.MttrKnownIffTerminal | apps/siem_kowalski/app/main.py:1147-1158 | in every reachable state the time to respond is defined exactly for incidents with a terminal status |
| IncidentReference.MttrMeaning | apps/siem_kowalski/app/main.py:1147-1168 | it is the time in milliseconds from creation to the earliest item with a terminal status, but not below zero |
| SiemTheorems.StoreKeepsDeduped | apps/siem_kowalski/app/main.py:349-377 | ingestion never opens a second flood incident for a flow and port that has an open one |
| SiemTheorems.StatusKeepsDeduped | apps/siem_kowalski/app/main.py:1334-1356 | a status patch keeps this exactly if it reopens no incident with an open twin |
| SiemTheorems.DedupedAllAlong | apps/siem_kowalski/app/main.py:349-377 | all along a run at most one such incident is open per flow and port, if and only if no patch of the run reopens one with an open twin |
| SiemTheorems.DedupedWithoutReopening | apps/siem_kowalski/app/main.py:256-282 | in particular on every run that patches nothing back to open |
| SiemTheorems.ReopeningBreaksDeduplication | apps/siem_kowalski/app/main.py:1334-1356 | a concrete run after which a patch to open leaves two open incidents for one flow |
| XdrModel.NextWaiting | apps/xdr_rico/app/store.py:281-295 | the queued row of the endpoint that is first by creation time and then by row, or none exactly if none waits |
| XdrService.XdrStore.ClaimNextAction | apps/xdr_rico/app/store.py:281-306 | that row becomes claimed in column and payload; something is returned exactly if something waited |
| XdrService.XdrStore.UpdateActionResult | apps/xdr_rico/app/store.py:308-336 | a result is stored exactly if the action exists and belongs to the endpoint |
| XdrService.XdrStore.ClaimEnrollmentEndpoint | apps/xdr_rico/app/store.py:143-161 | rows with that id get the binding and keep id and token, all others are unchanged; on an unbound enrollment this is the lasting binding of its token |
| XdrService.HandleCreateEnrollment | apps/xdr_rico/app/main.py:469-486 | an unbound enrollment is added unless its id or token is taken |
| XdrService.RequireEnrollmentToken | apps/xdr_rico/app/main.py:223-251 | unknown tokens are refused, unbound ones bind to the endpoint, bound ones must match |
| XdrService.PairEnrollment | apps/xdr_rico/app/main.py:500-531 | pairing binds an unbound token to its own enrollment id and reports the bound endpoint |
| XdrService.HandleEndpointEvent | apps/xdr_rico/app/main.py:650-660 | the endpoint of an event is registered exactly if the token check passes |
| XdrService.HandleCreateAction | apps/xdr_rico/app/main.py:567-590 | an action is queued only for a registered endpoint |
| XdrService.HandleClaimAction | apps/xdr_rico/app/main.py:601-619 | behind the token check, the oldest waiting action is claimed and returned |
| XdrService.HandleCompleteAction | apps/xdr_rico/app/main.py:622-647 | behind the token check, a result is stored for an action of the endpoint, else nothing changes |
| XdrService.HandleDeleteEndpoint | apps/xdr_rico/app/main.py:546-551 | deleting a known endpoint removes it and its actions |
| XdrService.HandleSimulate | apps/xdr_rico/app/main.py:668-738 | the simulator, only where it is enabled, replaces the demo endpoint and its actions |
| XdrReference.AuthorizeMeaning | apps/xdr_rico/app/main.py:223-251 | row by row: the first row with the token decides; unbound it is bound, and nothing else changes; bound it must name the endpoint |
| XdrReference.RefusedChangesNothing | apps/xdr_rico/app/main.py:223-251 | a request with an unknown token, or with one bound to another endpoint, changes nothing |
| XdrReference.ClaimMeaning | apps/xdr_rico/app/store.py:281-306 | a claim marks the queued row of the endpoint that was created first, in column and payload, and no other |
| XdrReference.NothingToClaim | apps/xdr_rico/app/store.py:281-306 | with no queued row of the endpoint a claim changes nothing |
| XdrReference.FinishMeaning | apps/xdr_rico/app/store.py:308-336 | a result makes the endpoint's own action completed or failed, as reported, with result and time, and changes no other row |
| XdrReference.UnknownActionMeaning | apps/xdr_rico/app/store.py:308-336 | nor does a result for an unknown action |
| XdrReference.PassedMeaning | apps/xdr_rico/app/main.py:601-660 | what a request does once its token has passed |
| XdrReference.CreateMeaning | apps/xdr_rico/app/main.py:567-590 | a new action is queued under the next row id, for a registered endpoint and a free id |
| XdrReference.DeleteMeaning | apps/xdr_rico/app/main.py:546-551 | exactly the rows of other endpoints stay, in their order |
| XdrReference.PairMeaning | apps/xdr_rico/app/main.py:500-531 | pairing binds an unbound token to the id of its row and leaves all else alone |
| XdrReference.EnrollMeaning | apps/xdr_rico/app/main.py:469-486 | a new enrollment is unbound, and refused exactly if a row has its id or token |
| XdrReference.SimulateMeaning | apps/xdr_rico/app/main.py:668-738 | where enabled, the simulator removes exactly the rows of its endpoint and registers it |
| XdrTheorems.RegisteredBehindToken | apps/xdr_rico/app/main.py:655-738 | an endpoint is registered only behind the token check, or by the enabled simulator |
| XdrTheorems.BindingIsPermanent | apps/xdr_rico/app/main.py:223-251 | whatever the request, an enrollment's endpoint once set never changes, although the store's update would overwrite it |
| XdrTheorems.ClaimKeepsClaims | apps/xdr_rico/app/store.py:281-306 | a claim takes a row that was never claimed before, for its own endpoint |
| XdrTheorems.NothingIsRequeued | apps/xdr_rico/app/store.py:253-336 | whatever the request, a row is queued only if it is new or was queued before |
| XdrTheorems.ApplyKeepsClaimsBound | apps/xdr_rico/app/main.py:601-619 | every claim ever made stays covered by a token bound to the claiming endpoint |
| XdrTheorems.RunsAreSound | apps/xdr_rico/app/store.py:253-336 | on every run each action is claimed at most once and only by its own endpoint, columns equal payloads, and ids and tokens are unique |
| XdrTheorems.ApplyKeepsOrder | apps/xdr_rico/app/store.py:281-306 | a request keeps the claim order of every endpoint exactly if it is no claim that overtakes a longer-waiting action |
| XdrTheorems.InOrderAllAlong | apps/xdr_rico/app/store.py:281-306 | all along a run claims follow the order of creation, if and only if no claim of the run overtakes |
| XdrTheorems.RunsClaimInOrder | apps/xdr_rico/app/store.py:253-306 | with creation times that never run backwards this is always so |
| XdrTheorems.SetBackClockOvertakes | apps/xdr_rico/app/store.py:281-295 | a concrete run in which the clock was set back and a claim overtakes |
| Realtime.Subscriber.PutNoWait | apps/api/app/realtime.py:9-12 | an event is queued exactly if fewer than 100 wait |
| Realtime.InboxStep | apps/api/app/realtime.py:28-38 | one publication adds at most itself to what is meant for an owner |
| Realtime.RealtimeBroker.Subscribe | apps/api/app/realtime.py:19-24 | a new subscriber starts empty and the guarantee of all others stands |
| Realtime.RealtimeBroker.Unsubscribe | apps/api/app/realtime.py:25-26 | only that subscriber leaves; what it has seen stays a prefix of its events |
| Realtime.RealtimeBroker.Publish | apps/api/app/realtime.py:28-35 | keeps the guarantee (`ReceivedMeaning`), and subscriber by subscriber: another owner's keeps queue and registration; the owner's gets the event appended if fewer than 100 wait, else is evicted; an event without owner reaches nobody |
| Realtime.RealtimeBroker.PublishAll | apps/api/app/realtime.py:37-38 | the same for an event that goes to all: appended for everyone with fewer than 100 waiting, and exactly the others are evicted |
| Realtime.RealtimeBroker.ReceivedMeaning | apps/api/app/realtime.py:19-54 | what a registered subscriber has consumed plus queued are exactly the published events since it subscribed that went to all or to its non-empty owner, in order, at most 100 queued |
| Realtime.RealtimeBroker.DepartedMeaning | apps/api/app/realtime.py:19-54 | what an evicted or departed one has seen is the beginning of these |
| Realtime.RealtimeBroker.Offer | apps/api/app/realtime.py:45-52 | the loop queues the event for every matching subscriber with room and collects exactly those without |
| Realtime.RealtimeBroker.PublishTo | apps/api/app/realtime.py:40-54 | exactly the matching subscribers with a full queue are evicted |
| Realtime.RealtimeBroker.Consume | apps/api/app/realtime.py:19-26 | taking the oldest event keeps the guarantee |
| RateLimit.InMemoryRateLimiter.Allow | apps/api/app/auth/rate_limit.py:19-28 | with a non-decreasing clock a call is allowed exactly if fewer than the maximum of earlier calls of its key were allowed in (now - window, now] |
| RateLimit.WindowIsBucket | apps/api/app/auth/rate_limit.py:22-25 | after expiry the bucket is exactly the allowed calls of the window, over the whole history |
| RateLimit.WindowCountMeaning | apps/api/app/auth/rate_limit.py:22-25 | the count is the number of positions in the history with that key, allowed, and a time in (now - window, now] |
| RateLimit.WindowBound | apps/api/app/auth/rate_limit.py:19-28 | over a whole run, every set of times that spans less than one window holds at most the maximum of allowed calls per key |
| RateLimit.PopExpired | apps/api/app/auth/rate_limit.py:23-24 | removes expired times from the front, loses none, and stops at the first that is inside the window |
| Cursor.CursorState.CollectNew | apps/agent_private/agent_private/windows_security.py:13-42 | a poll with an id moves the cursor to the maximum of it (or zero) and the ids of the batch; without a stored cursor it forwards nothing, else exactly the records above the old cursor, by id |
| Cursor.FirstReachedMeaning | apps/agent_private/agent_private/windows_security.py:24-35 | forwarding starts at the larger of zero and the largest id of the first poll that lists any id |
| Cursor.FirstBatchNeverForwarded | apps/agent_private/agent_private/windows_security.py:24-35 | without a stored cursor no id at or below one of that poll is ever forwarded, on any run |
| Cursor.NothingBelowBaseline | apps/agent_private/agent_private/windows_security.py:24-42 | with a stored cursor nothing at or below it is |
| Cursor.MaxId | apps/agent_private/agent_private/windows_security.py:45-51 | the largest id of a batch, or none exactly if no record has one |
| Cursor.CursorNeverDecreases | apps/agent_private/agent_private/windows_security.py:24-28 | the stored cursor never moves back |
| Cursor.ForwardedExactly | apps/agent_private/agent_private/windows_security.py:37-42 | a poll forwards exactly the records above the old cursor, all at or below the new one |
| Cursor.ForwardedCopies | apps/agent_private/agent_private/windows_security.py:37-42 | each as often as the poll listed it |
| Cursor.ForwardedIncrease | apps/agent_private/agent_private/windows_security.py:13-42 | over any run whose polls list distinct ids, all forwarded ids strictly increase |
| Cursor.ForwardedOnce | apps/agent_private/agent_private/windows_security.py:13-42 | with batches that skip no record above the cursor, a record is forwarded exactly if it lies above the first cursor and not beyond the last |
| Cursor.LossFreeIffGapless | apps/agent_private/agent_private/windows_security.py:13-42 | every log record between the first cursor and the last is forwarded, if and only if no batch of the run skips one |
| Cursor.GaplessIffNoBurst | apps/agent_private/agent_private/cli.py:332-352 | a batch of the 50 newest records skips none exactly if at most 50 came since the cursor |
| Cursor.NegativeCursorRepeats | apps/agent_private/agent_private/windows_security.py:37-42 | below zero, a record without an id counts as zero and is forwarded by every poll |
| Cursor.NoRepeatsIffNonNegative | apps/agent_private/agent_private/windows_security.py:24-42 | no repeats on any run of polls with distinct ids, if and only if the stored cursor is not negative |
| Schedule.RunForeground | apps/agent_private/agent_private/daemon.py:146-166 | with positive intervals and passes of at most D seconds, runs of a kind are at least its interval apart, the first pass at or past a due time serves it and starts less than D + 0.1 s after it, and passes keep coming at least every D + 1 s; it rests 0.1 s after work, else a second or less if the next pass has work |
| Schedule.TakeTurn | apps/agent_private/agent_private/runner.py:78-111 | one turn serves exactly the due kinds and keeps the schedule invariant |
| Schedule.RunDue | apps/agent_private/agent_private/daemon.py:149-156 | the loop serves exactly the kinds that are due and moves their due time one interval past the pass time |
| Schedule.SleepSeconds | apps/agent_private/agent_private/daemon.py:192-196 | a tenth of a second after work, else until the next due time within [0.1, 1] |
| Schedule.LeastDue | apps/agent_private/agent_private/runner.py:231-235 | the least due time |
| Schedule.OftenStep | apps/agent_private/agent_private/daemon.py:150-156 | one more pass keeps runs of a kind an interval apart |
| Schedule.LateStep | apps/agent_private/agent_private/daemon.py:150-166 | one more pass that starts in time keeps the lateness bound |
| Grouping.FirstSeenMeaning | apps/api/app/routers/integrations.py:1692-1709 | keys in order of first appearance: none lost, none repeated, ordered by first occurrence |
| Grouping.GroupAdded | apps/api/app/routers/integrations.py:1717-1738 | a new group for the first event of a key keeps the grouping exact: keys in first-appearance order, every group described, counts summing to the events |
| Grouping.GroupMerged | apps/api/app/routers/integrations.py:1739-1753 | updating the group of an event's key keeps the grouping exact |
| Grouping.GroupedUnique | apps/api/app/routers/integrations.py:1692-1762 | if the description of a group leaves no choice, neither does the grouping |
| Grouping.MembersMeaning | apps/api/app/routers/integrations.py:1692-1709 | the events of a key are those at exactly the positions with that key, in order |
| Fortigate.AddRaw | apps/api/app/routers/integrations.py:1693-1753 | one turn of the loop adds one event to the grouping |
| Fortigate.Aggregate | apps/api/app/routers/integrations.py:1680-1762 | one group per event type and source in first-appearance order; counts sum to the number of events; severity the first of maximal rank, latest time and its message, exact destinations and users, the first 20 samples |
| Fortigate.MergeDescribes | apps/api/app/routers/integrations.py:1739-1753 | the in-place update turns the description of a group into that of the group with one more event |
| Fortigate.DescriptionUnique | apps/api/app/routers/integrations.py:1692-1753 | the description determines the group |
| Fortigate.AggregateUnique | apps/api/app/routers/integrations.py:1680-1762 | the aggregation of a list of events is determined by its description |
| Fortigate.KeyMeaning | apps/api/app/routers/integrations.py:1692-1709 | an event without a type counts as `network.deny` if its action is one of three words ignoring case, else as `network.event`; a missing source is `unknown` |
| Fortigate.RankMeaning | apps/api/app/routers/integrations.py:1670-1677 | the rank is the position of the severity, ignoring case, on the scale low, medium, high, critical, and zero off it |
| Fortigate.AttemptsMeaning | apps/api/app/routers/integrations.py:1710-1746 | the samples of a group are those of its first twenty events, in order |
| WindowsPayloads.AddLogon | apps/agent_private/agent_private/cli.py:557-575 | one failed logon joins its group, created if needed, and all groups stay exact |
| WindowsPayloads.InsertInFront | apps/agent_private/agent_private/cli.py:621-641 | inserting at the front reverses the groups before the rest |
| WindowsPayloads.BuildPayloads | apps/agent_private/agent_private/cli.py:535-642 | failed-logon groups, whose counts sum to the number of failed logons, in reverse first-appearance order, then the other payloads in event order |
| WindowsPayloads.GroupsUnique | apps/agent_private/agent_private/cli.py:557-575 | the groups are determined by the events |
| WindowsPayloads.FailedMeaning | apps/agent_private/agent_private/cli.py:557-575 | the grouped events are exactly those with id 4625, in order |
| WindowsPayloads.SinglesMeaning | apps/agent_private/agent_private/cli.py:577-619 | the single payloads are exactly those of events with id 4672 or 4663, in order |
| Audit.SanitizeIsRedaction | apps/api/app/auth/audit.py:36-52 | the result keeps shape, keys and open leaves, and only the marker is left beneath secret-named keys |
| Audit.SameResultIffAgreeOpenly | apps/api/app/auth/audit.py:36-52 | two values sanitize to the same result exactly if they differ at most beneath secret-named keys |
| Audit.SanitizeIdempotent | apps/api/app/auth/audit.py:36-47 | sanitizing again changes nothing |
| Audit.SeparatorsDoNotMatter | apps/api/app/auth/audit.py:50-52 | a `_` or `-` anywhere in a key does not change whether it is secret |
| Audit.CaseDoesNotMatter | apps/api/app/auth/audit.py:50-52 | nor does the case of its letters |
| Audit.PlainSecretMeaning | apps/api/app/auth/audit.py:50-52 | a lower-case key without separators is secret exactly if apikey, secret, token or password occurs in it |
| Audit.ForwardingAuthAuditStore.Record | apps/api/app/auth/audit.py:209-251 | although details are sanitized two or three times on each path, what is stored, forwarded and listed is one sanitizing, whether or not the SIEM answers |
| Audit.InMemoryAuthAuditStore.Record | apps/api/app/auth/audit.py:59-83 | one event is appended whose details agree with the given ones outside secret-named keys, hold only the marker beneath them, and stay as they are when sanitized again |
| Audit.PathsHideSecrets | apps/api/app/auth/audit.py:299-368 | what leaves the store, to the SIEM or into a listing, does not depend on any value beneath a secret-named key |

## Left out

- Transport and storage technology: HTTP, request validation, SQL, UDP and SSE, logging; tables are sequences of rows and requests are method calls.
- Races between the separate transactions of one request.
- What the API does with an aborted run beyond dropping its effects (an error text and an audit record), and an incident that cannot be fetched before the run.
- Template rendering and payload look-up by path are parameters of a run.
- Node ids are texts; a node without an id (which the walk would call `None`) is not modelled, an empty id is.
- SoarRuntime.BuildPlaybookRun: edge traversals, node-run records, ids and timestamps of the recorded run, which copy the edge list and the steps, are not modelled.
- The node configuration that neither interpreter reads (titles, block scope and duration), and the suggestion text that accompanies a drafted or recommended playbook.
- Templates.RecommendedTemplate: the set of templates that are eligible for an incident, the triage text and the incident's values are parameters; the triage context that computes them is not modelled.
- Unicode case folding: lower-casing is ASCII.
- Coercion of numbers from strings, fractional numbers and NaN in event attributes: counts and ports are optional integers.
- Incident attributes other than those that deduplication compares, incident texts, and the wording of status and triage notes, which are abbreviated.
- Reuse of freed row ids by SQLite: row ids of actions only grow.
- XdrService.HandleEndpointEvent: the endpoint record and its timeline item are not modelled, only that the endpoint exists; nor are bearer parsing and token hashing.
- Cursor.CursorState.CollectNew: a state file that cannot be written is not modelled.
- Schedule.RunForeground: sleeps are exact, pass durations are given, and what a pass collects and posts is not modelled.
- Fortigate.Aggregate: user names are a set, not a sorted list; the filter by stored timestamp before aggregation is left out.
- SiemModel.SortRecentSorted: the texts of event times are ranked, not modelled; their order need not follow time (mixed offsets), and nothing proved assumes that it does.
- WindowsPayloads.BuildPayloads: the attributes of single payloads are not modelled, only which events yield one and in which order; user and source are given resolved.
- Audit.InMemoryAuthAuditStore.Record: e-mail, address and user agent are not modelled, and the listing's order, filters and limit and the SQL-backed store are left out.
- Executive metrics other than the time to respond, event and incident pages of the API, and the remaining list filters.
- AI providers and prompts, identity provider, add-ons, FortiGate and FortiWeb clients, webhook delivery, the terminal and web interfaces, and the static catalogs.
