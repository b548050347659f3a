# LucidFence, verified

A Dafny model of the core of LucidFence 2.x: the evaluation engine that watches a fleet of devices, the human gate in
front of its destructive actions, the guardrails and cooldowns every order passes, the what-if replayer that reads the
engine's logs back, the incident ledger with its CSV export, and four small algorithms the rest leans on (paging of
append-only logs, the login throttle, the rounding and grading of risk scores, the reading of numeric hosts).

Run `dafny verify dfyconfig.toml` to check everything.

## How the model is laid out

| files | what they model |
|---|---|
| `Base`, `Keys`, `Numerals` | the clock and Go's division; map keys made of a device, a bar and a fence; digits in three radices |
| `Transition`, `Fleet`, `SweepFacts` | geofence state and stay clock; the cycle as a function from stores to stores, and `Engine`, the class that computes it loop by loop; what one sweep does to one device |
| `ReplayHistory`, `HistoricalReplay`, `CurrentFencesReplay` | the replayer with its moving cursor, and its agreement with the engine that wrote the logs |
| `FleetPlans`, `OrderPlans`, `StandingRuns` | the cycle in plain terms: what the connectors' answers make of the fleet, which order has which reason, streaks of violations and thresholds of stays over runs |
| `Outages`, `DwellOnce` | provider outages as stuttering steps; one dwell trigger per stay |
| `Guardrails`, `Cooldown` | the decision, the books of one cycle, `Executor`; cooldown spacing over runs |
| `Handoffs`, `HumanGate`, `GateEngine`, `HumanGateTheorems` | requests, inbox and identities; the cycle and the people as one transition system; the engine's methods against it; what holds over all runs |
| `PlaybookGate` | which playbooks may ask for what, from the file to whole runs |
| `AuditTrail`, `Approvals` | which live calls the audit log tells, with restarts and failed writes; the fate of an approval |
| `Incident`, `IncidentOrder`, `IncidentMerge`, `IncidentMergeTheorems`, `IncidentLedger`, `IncidentDerive` | incidents, their canonical order, the merge of one cycle, the ledger over runs, the derivation from the fleet |
| `IncidentRules` | the incident desk in plain terms: the order of the list, a person's move, a merge, announcements, conditions |
| `IncidentOutages` | provider outages and incidents |
| `CsvExport` | the export and a reader for RFC 4180 |
| `Cursors`, `Pages` | base64url cursors; pages and walks over a growing log |
| `Throttle` | the bounded memory of failed logins |
| `Rounding`, `RiskVerdict` | exact half-even rounding; points, reasons, severity, provenance |
| `NumericHosts`, `AddressClasses` | `inet_addr` numbers; always-blocked and internal addresses in every IPv6 dress |
| `Alerts` | the silence between two alerts of one condition |

Conventions. Time is a whole number of nanoseconds. A store is the last value written and a log a sequence; a write
that may fail is a flag where the source handles the failure (`HumanGate`, the cooldown mark of each order), and is
taken to succeed elsewhere. A process that stops inside an order is that order with nothing written after the
connector's answer, followed by a restart. Connectors, the clock, policy conditions, route distances and fence shapes
are arbitrary inputs or uninterpreted functions. Characters are code points. Loops of the source are loops of methods,
proved equal to a recursive specification function; the theorems are about those functions and about runs of them.

## Where the code and its own words disagree

- `internal/engine/handoffs.go:48-52` says an approved request whose order was suppressed by the cooldown is ready to
  be retried. The state machine has no way from approved to approved, so it is not: `Approvals.ApprovalStrands` is a
  run in which that happens. When an approval is over, whatever the cycle did meanwhile, the request is executed with
  the result of its order if and only if the process did not stop in between, its device was found and free of the
  cooldown at the instant that decided the order, and the executed request was written
  (`Approvals.ApprovalStrandsIff`). Otherwise it stays as it was approved: approving it again changes nothing and its
  order is never sent from then on, until a cycle a day or more after the decision opens it anew
  (`Approvals.ApprovedIsNotRetried`, `Approvals.StrandedUntilReopened`).
- `internal/engine/replay_history.go:85-89` and `159-168` say a replay with the current fences can only understate a
  stay. It overstates one if and only if the event log has an event of the device between two consecutive trail points
  with the same recomputed state (`CurrentFencesReplay.OverstatesIffResumed`), and it has one if and only if some
  answer in between came without the device or without its position (`CurrentFencesReplay.ResumedIffInterrupted`).
  `CurrentFencesReplay.GapOverstates` shows a run of each kind.
- `internal/engine/cycle.go:233-253` keeps the trace of actions already carried out when saving the devices fails, but
  writes all audit lines at the end of the cycle: a process that stops in the middle has called connectors without an
  audit line (`AuditTrail.RestartLosesAudit`). The audit log tells exactly the live calls if and only if no restart
  fell while a live result waited for its line and no line of a live result failed to be appended
  (`AuditTrail.AuditIsExactIffNothingLost`).
- `internal/domain/risk/verdict_result.go:52-54` provides for a positive score without a reason; no evidence yields
  one (`RiskVerdict.PositiveScoreHasReason`). Reporting a system as outdated lowers the score if and only if it was
  already reported as unpatched and its points add up to less than 101.95 (`RiskVerdict.OutdatedLowersIff`).

## Model

| member | source | states |
|---|---|---|
| HistoricalReplay.HistoricalReplayIsExact | internal/engine/replay_history.go:45-115 | for every run with growing cycle clocks and every window, point k of the historical replay has exactly the fence state, fence, stay start and dwell seconds the cycle computed there, through drops, outages and restarts |
| HistoricalReplay.ReplayOfRun | internal/engine/replay.go:106-160 | the replayer run on the stores an engine run left behind returns the truth at every point of its window |
| HistoricalReplay.LogChronological | internal/engine/replay_history.go:27-44 | the event log of every such run is in time order, which the cursor relies on |
| HistoricalReplay.RunInvariant | internal/engine/cycle.go:177-270 | after every run each known device's stored state is the one its last logged event leads to, and every recorded sighting stays grounded in the log |
| ReplayHistory.History.constructor | internal/engine/replay_history.go:32-43 | the index holds, per device, exactly its events in log order |
| ReplayHistory.History.Advance | internal/engine/replay_history.go:45-59 | wherever the cursor was left, forwards or backwards, the answer is the device's last event at or before the instant |
| ReplayHistory.Replayer.PlaceAt | internal/engine/replay_history.go:90-108 | a point is placed by the log in historical mode, by streaks of recomputed keys with current fences |
| ReplayHistory.Replay | internal/engine/replay.go:106-160 | the replay places the newest usable trail entries in log order, all of them or as many as `limit` says, 5000 when it says nothing and 20000 at most |
| ReplayHistory.NewestPoints | internal/store/orgstore.go:238-252 | point k of the window is usable entry number count(usable) - count(window) + k of the log, and the window is cut only at the limit |
| HistoricalReplay.NewestIsReplayed | internal/store/orgstore.go:238-252 | over every run the last usable sighting of the engine is the last point of the window, whatever the limit |
| ReplayHistory.CurrentStayBegins | internal/engine/replay_history.go:79-108 | with current fences the stay at a point begins at the earliest point of the device from which every later one up to it has the same state and fence |
| ReplayHistory.CurrentStateTells | internal/engine/replay_history.go:79-108 | a point is inside if and only if some current fence holds it, and then in the first such fence |
| Transition.Evaluate | internal/domain/transition/transition.go:47-83 | fence state, fence, last fence, stay start and dwell of the device, and an event exactly when the key changed |
| Transition.FirstFenceWins | internal/domain/transition/transition.go:25-35 | inside means the first fence in list order that holds the point; outside means none does |
| Transition.ParseKeyInvertsKey | internal/engine/replay_history.go:64-77 | reading a transition key gives back state and fence if and only if the pair is one the engine writes, for fence ids free of ':' other than `none` |
| Transition.KeyInjective | internal/domain/transition/transition.go:38-43 | two states have the same key only if they are the same |
| Fleet.Engine.RunCycle | internal/engine/cycle.go:220-270 | a cycle leaves devices, events, trail, dwell marks, dwell file and violation counters as the specification says and plans its geofence and route orders |
| Fleet.Engine.ProcessDevice | internal/engine/cycle.go:177-218 | one device: evaluation, one trail line, one event at most, and its orders: route, exit, enter, lost position, stays, violations |
| Fleet.Engine.FetchAll | internal/engine/cycle.go:101-121 | the devices of all the connectors that answered, one after the other, and the names of those that failed |
| Fleet.Engine.PlanDwell | internal/engine/standing.go:31-57 | marks, dirty flag and dwell orders after one device, fence by fence |
| Fleet.Engine.PlanStanding | internal/engine/standing.go:63-85 | counters and violation orders after one device: every n-th consecutive cycle outside |
| Fleet.Engine.constructor | internal/engine/engine.go:154-186 | a new process takes the stores as they are, the dwell marks from their file, and no violation counters |
| SweepFacts.LookupAfterCycle | internal/engine/cycle.go:128-140 | a device after a cycle is its evaluation, its old state if its connector failed, or gone |
| FleetPlans.FleetAfterCycle | internal/engine/cycle.go:101-140 | a device that an answering connector sent is stored as evaluated; one that nobody sent is kept as it was if its connector failed, and is gone otherwise |
| FleetPlans.FetchedConcat | internal/engine/cycle.go:101-121 | the answers of two runs of connectors are read one after the other |
| FleetPlans.StoredInOrder | internal/engine/cycle.go:220-270 | devices.json begins with what was sent, in the order of connectors and answers |
| FleetPlans.EvaluatedStance | internal/domain/transition/transition.go:25-83 | unknown if and only if there is no valid position, inside if and only if a fence holds it, in the first such fence; the stay starts now when the stance changed, is kept when it did not and its start is known, and its length is in whole seconds |
| FleetPlans.LastFenceRemembered | internal/domain/transition/transition.go:47-59 | however many cycles a device stays without a position, the fence it was last seen in is remembered |
| FleetPlans.EventTells | internal/domain/transition/transition.go:60-83 | an event is logged if and only if state or fence changed, and its two keys read back as the two stances |
| FleetPlans.RouteTells | internal/engine/cycle.go:142-175 | off the route if and only if farther from the first route assigned than its corridor |
| OrderPlans.TransitionPlanned | internal/engine/actions.go:72-102 | on_exit is planned if and only if the device was inside that fence and its stance changed, on_enter if and only if it is inside that fence now, came from another stance and the fence asks for no stay, on_unknown if and only if it lost its position, never for a destructive action; each for an enabled action of that fence |
| OrderPlans.RoutePlanned | internal/engine/actions.go:117-156 | route_exit is planned if and only if a device seen before, and not off its route then, is off it now; the enabled exit actions, or one notification when the route has no actions |
| OrderPlans.PlanIff | internal/engine/actions.go:164-170 | an order is in the plan of a device if and only if one of these reasons, a stay that reaches its threshold or a violation that is due calls for it |
| OrderPlans.PlanInParts | internal/engine/actions.go:158-170 | the plan comes trigger by trigger in the source's order |
| OrderPlans.OrderedIff | internal/engine/cycle.go:177-270 | a cycle orders something for a device if and only if a connector sent that device and there is a reason by the marks and counts the cycle began with |
| OrderPlans.OrdersOfCycle | internal/engine/cycle.go:177-218 | the orders of a cycle for one device are exactly the plan of its own visit, whatever other devices are in the fleet |
| OrderPlans.DwellConcat | internal/engine/standing.go:31-57 | stays are ordered fence by fence, each with the marks that the fences before it left |
| StandingRuns.ViolationEveryNth | internal/engine/standing.go:63-85 | over any run with fixed fences on_violation goes out exactly on the n-th, 2n-th and so on evaluated cycle in a row outside since the last restart, n being 1 at least |
| StandingRuns.DwellAtThreshold | internal/engine/standing.go:21-57 | over any run with fixed fences the on_enter orders of a fence with a threshold go out exactly in the first evaluated cycle in which the stay has reached it |
| StandingRuns.DirtyIffChanged | internal/engine/standing.go:31-57 | dwell.json is due to be written if and only if a mark changed or a write was owed |
| Outages.OutageStutters | internal/engine/cycle.go:128-140 | a cycle in which a device's connector failed changes nothing the engine keeps about it and orders nothing for it |
| Outages.OutagesAreStutters | internal/engine/cycle.go:128-201 | deleting such cycles from any run leaves the device's state, log, marks, counters and every geofence and route order, with its clock, unchanged |
| Outages.MarksSynced | internal/store/dwell_marks.go:28-55 | between cycles the dwell file equals the marks in memory, so a restart forgets none |
| DwellOnce.OneTriggerPerStay | internal/engine/standing.go:14-57 | over any run with restarts, for each device, fence and stay start the dwell batch is planned at most once |
| DwellOnce.TriggerAtThreshold | internal/engine/standing.go:31-57 | with fixed rules it is planned exactly in the first evaluated cycle whose dwell reaches the threshold |
| DwellOnce.MarkTellsThroughout | internal/engine/standing.go:14-57 | the mark of a fence holds the stay start exactly for stays that reached the threshold |
| Keys.MarkKeyInjective | internal/engine/standing.go:31-57 | the key made of device, bar and fence is unambiguous whatever the device id holds, because fence ids have no bar |
| CurrentFencesReplay.CurrentReplayNeverOverstates | internal/engine/replay_history.go:79-108 | with unchanged fences and a device that always answers with a position, replayed dwell is at most the engine's at every point, and equal once the stay began inside the window |
| CurrentFencesReplay.OverstatesIffResumed | internal/engine/replay_history.go:79-108 | in any run with fixed fences a window overstates no stay of a device if and only if the event log has no event of it after one and up to the next of its consecutive points with the same recomputed key |
| CurrentFencesReplay.ResumedIffInterrupted | internal/engine/replay_history.go:159-168 | between two consecutive points with the same key there is such an event if and only if some cycle in between was answered without the device or without its position |
| CurrentFencesReplay.SteadyIffUnbroken | internal/domain/transition/transition.go:60-83 | the engine carries a stay on at every sighting under the same key if and only if the log is quiet about the device in between |
| CurrentFencesReplay.GapOverstates | internal/engine/replay_history.go:159-179 | two concrete runs, one with a dropped device and one with a lost position, in which the replay says two seconds and the engine none |
| Guardrails.DecideIsTheGate | internal/engine/guardrails.go:102-133 | live if and only if not cooled down, enforce mode, action listed and, for wipe, both keys; blocked and suppressed are told apart exactly |
| Guardrails.SuppressedIff | internal/engine/guardrails_cooldown.go:13-43 | suppressed if and only if the configured seconds are positive, the action is destructive, there is a mark, and fewer than those seconds have passed since |
| Guardrails.AllowedIff | internal/engine/guardrails.go:102-133 | outside the cooldown: a dry run if and only if not in enforce mode with the action listed; a wipe blocked for want of the first key or of the second exactly when it lacks it; everything else goes |
| Guardrails.ArmsIff | internal/engine/guardrails_cooldown.go:45-58 | the mark of the device and action is written, as the whole second of the instant, if and only if the cooldown is on, the action destructive and the result effective; no other mark changes |
| Guardrails.OfferedTells | internal/engine/guardrails_apply.go:21-32 | an order with the device, action and fence of an earlier one of the cycle is only counted as suppressed; any other is applied and its result kept |
| Guardrails.Executor.Apply | internal/engine/guardrails_apply.go:48-84 | one order through decision, connector, counters and cooldown mark |
| Guardrails.Executor.AlreadyFired | internal/engine/guardrails_apply.go:25-32 | says whether the bucket was ordered before in this cycle, and remembers it |
| Guardrails.Executor.Offer | internal/engine/cycle.go:205-216 | one candidate: duplicates counted and dropped, the rest applied and its result kept |
| Guardrails.Executor.OfferPlan | internal/engine/cycle.go:202-217 | a whole plan, candidate by candidate |
| Guardrails.Executor.RecordActionAt | internal/store/cooldown.go:81-88 | the mark is the whole second the instant falls in and every other mark stays; a failed write changes nothing |
| Guardrails.AppliedBooks | internal/engine/guardrails_apply.go:48-84 | one order calls a connector at most once, live only when permitted, adds one to exactly one counter, and its result says live exactly when the call was |
| Guardrails.EveryOrderAccountedFor | internal/engine/cycle.go:202-217 | candidates = executed + blocked + suppressed, live calls are exactly the live results in order, and every call was permitted |
| Guardrails.DedupeKeepsFirsts | internal/engine/guardrails_apply.go:21-32 | the orders that reach the guardrails are the first occurrences of the plan by device, action and fence |
| Cooldown.SuppressedExactlyWithin | internal/engine/guardrails_cooldown.go:11-43 | in a serial run an order is suppressed if and only if fewer than the configured seconds have passed since the last effective execution, cut to the second |
| Cooldown.FreeAfterWindow | internal/engine/guardrails_cooldown.go:24-43 | nothing is suppressed once the window has passed |
| Cooldown.ExecutionsSpaced | internal/engine/guardrails_cooldown.go:45-54 | any two effective executions of one destructive action on one device are more than w - 1 s apart |
| Cooldown.SpacingIsTight | internal/store/cooldown.go:81-88 | a run in which they are w - 1 s plus one nanosecond apart |
| Cooldown.PruneCooldowns | internal/store/cooldown.go:92-109 | pruning deletes exactly the marks before the instant |
| Cooldown.PruningChangesNothing | internal/store/cooldown.go:90-109 | deleting every pruning of marks older than the window from a run changes no decision and no execution |
| Handoffs.HandoffIDInjective | internal/domain/playbook/handoff.go:53-69 | the sealed text tells device, playbook and action apart, whatever they hold |
| Handoffs.Upsert | internal/domain/playbook/handoff.go:166-181 | the request replaces the one with its id in place or goes to the end; nothing else moves |
| Handoffs.DecideIff | internal/domain/playbook/handoff.go:102-137 | the moves there are: a waiting request is approved or rejected, an approved one executed |
| Handoffs.DecideTells | internal/domain/playbook/handoff.go:102-137 | a ruling seals who and when, the execution leaves that seal alone, an empty note leaves the note alone |
| Handoffs.ReopensWhen | internal/engine/soar.go:99-111 | a request may be opened if and only if its id is absent or was decided a day or more ago |
| Handoffs.PendingIsFound | internal/domain/playbook/handoff.go:93-100 | the scan for a waiting request and the look-up by id agree |
| GateEngine.Gate.StartCycle | internal/engine/soar.go:141-143 | a cycle starts on a snapshot of the inbox with nothing opened and no order remembered |
| GateEngine.Gate.OpenHandoff | internal/engine/soar.go:72-95 | a request enters the snapshot and the list of opened ones, or nothing changes |
| GateEngine.Gate.MayReopen | internal/engine/soar.go:99-111 | the two scans of the snapshot compute the reopening rule |
| GateEngine.Gate.EvaluatePlaybooks | internal/engine/soar.go:48-67 | a device that could not be evaluated asks for nothing; otherwise harmless actions of matching playbooks become orders in match order, destructive ones only requests |
| GateEngine.MatchPlaybooks | internal/domain/playbook/playbook.go:136-165 | what is asked comes from playbooks that are enabled, valid and match, in file order |
| PlaybookGate.RaisedIff | internal/domain/playbook/playbook.go:136-165 | an action is asked for if and only if some playbook of the file is enabled and valid, its conditions hold for the device, and the action is one of its own |
| PlaybookGate.PlanIs | internal/engine/soar.go:48-67 | the orders of a visit are the given ones and then exactly the harmless actions asked for; a destructive one is never among the latter |
| PlaybookGate.AskedAllOpens | internal/engine/soar.go:72-111 | a visit opens exactly the requests its destructive asks identify that are absent from the snapshot or were decided a day or more ago |
| PlaybookGate.OnlyCalledFor | internal/engine/soar.go:48-95 | over every run each opened request and each queued playbook order stems from a visit in which an enabled, valid playbook matched that device and asked for that action |
| PlaybookGate.QueueApplied | internal/engine/cycle.go:202-217 | between two visits the queue is applied from its front, order by order |
| PlaybookGate.ApprovedOrderIs | internal/engine/handoffs.go:34-60 | the order of an approved request names its device, action and playbook and the fence the device is in; call, audit line and kept result are those of that order |
| GateEngine.Gate.PersistHandoffs | internal/engine/soar.go:150-170 | the stored inbox gains exactly the requests this cycle opened, or stays as it is when reading or writing fails |
| PlaybookGate.EndTells | internal/engine/soar.go:150-170 | opened requests are stored and announced if and only if the inbox could be read and written |
| GateEngine.Gate.FlushResults | internal/engine/cycle.go:249-253 | the results of the cycle are appended to the audit log in order, past the lines that fail |
| GateEngine.Gate.DecideHandoff | internal/engine/handoffs.go:146-164 | the decision goes to the first request with the id, or nothing is stored |
| GateEngine.Gate.RunManual | internal/engine/handoffs.go:96-110 | an order by hand leaves its mark, its call and, unless suppressed, one audit line, or none when the append fails |
| GateEngine.Gate.ApproveHandoff | internal/engine/handoffs.go:34-60 | decision stored first, then the guardrails, then the executed request, as the three steps of the transition system |
| GateEngine.Gate.FinishHandoff | internal/engine/handoffs.go:54-59 | the request becomes executed with its result, unless that write fails |
| GateEngine.Gate.RejectHandoff | internal/engine/handoffs.go:66-70 | a rejection calls nothing |
| GateEngine.Gate.ExecuteManual | internal/engine/handoffs.go:78-88 | the manual path is the guardrail path without a playbook |
| HumanGate.NextKeeps | internal/engine/soar.go:139-170 | every step of cycle or people keeps the invariant: sound inbox, coherent snapshot, the lock's request approved, the inbox showing the stage its history reached |
| HumanGate.Always | internal/engine/soar.go:139-170 | that invariant holds after every interleaving, restarts included |
| HumanGateTheorems.NoDecisionIsLost | internal/engine/soar.go:145-170 | a stored decision stays with its decider and instant through any steps, until a cycle whose clock is a day or more later reopens that id |
| HumanGateTheorems.DecisionKept | internal/engine/handoffs.go:146-173 | one step keeps a decision to the letter, or executes it, or is such a reopening |
| HumanGateTheorems.OnePending | internal/domain/playbook/handoff.go:88-100 | at most one request waits per device, playbook and action |
| HumanGateTheorems.ExecutionsBounded | internal/engine/handoffs.go:34-60 | per id: calls at most approvals, approvals at most openings, and openings = approvals + rejections + the one waiting |
| HumanGateTheorems.RejectedNeverRuns | internal/domain/playbook/handoff.go:104-109 | between a rejection and a later call of the same id lie a new opening and its own approval |
| HumanGateTheorems.NewCalls | internal/engine/soar.go:48-67 | every new connector call was permitted, and a destructive one with a playbook comes from a request already stored as approved |
| HumanGateTheorems.EveryLiveCallPermitted | internal/engine/guardrails.go:102-133 | on all three entry paths, over every run, a live call had enforce mode, a listed action and the wipe keys |
| HumanGateTheorems.StrikesAreApprovedCalls | internal/engine/soar.go:52-64 | call for call, the destructive playbook orders that reached a connector are the calls of approved requests |
| AuditTrail.EveryCallAccountedFor | internal/engine/cycle.go:233-253 | at every instant the live calls are those in the audit log, those waiting for the end of the cycle, and those whose line was lost |
| AuditTrail.AuditOnlyGrows | internal/engine/cycle.go:220-270 | no step of any run moves, drops or changes a line of the audit log |
| AuditTrail.AuditIsExactIffNothingLost | internal/engine/cycle.go:233-253 | audit log and waiting results tell exactly the live calls, and between cycles the audit log alone does, if and only if no restart fell while a live result waited and no append of a live result failed |
| AuditTrail.LostNext | internal/engine/handoffs.go:96-110 | each step loses the line of a live call exactly when it is a restart, a flush or an order by hand of that kind |
| AuditTrail.RestartLosesAudit | internal/engine/cycle.go:233-253 | a run of four steps in which a device is locked and no audit line says so |
| Approvals.ApprovalStrands | internal/engine/handoffs.go:48-52 | for any cooldown, a run in which a request is approved while it holds: it stays approved without a result, and the only call and audit line are those of an earlier order by hand |
| Approvals.ApprovalStrandsIff | internal/engine/handoffs.go:34-60 | after any run and with any steps in between, once the lock of an approval is free the request is executed with the result of its order if and only if no restart fell in between, its order was not held back in the state that decided it, and its last write succeeded; otherwise it is stored as approved with nobody running it |
| Approvals.ExecuteReleasesIff | internal/engine/handoffs.go:41-53 | in any state in which an approval holds the lock, its order leaves nothing and frees the lock if and only if there is no device or the last mark of device and action is within the window; otherwise it leaves one result and one line, written or lost |
| Approvals.ResultIffExecuted | internal/engine/handoffs.go:54-59 | in every reachable inbox a request holds a result if and only if it was executed |
| Approvals.ApprovedIsNotRetried | internal/engine/handoffs.go:48-52 | after any further steps that do not reopen it, approving such a request changes nothing |
| Approvals.StrandedUntilReopened | internal/engine/handoffs.go:48-52 | a request left approved stays as it is and is not called from then on, until a cycle whose clock is a day or more after the decision opens it anew |
| IncidentMerge.Merge | internal/domain/incident/incident.go:144-190 | the three loops compute the specified list, openings and closings |
| IncidentMerge.Absorb | internal/domain/incident/incident.go:163-179 | one derived incident opens, reopens or refreshes |
| IncidentMergeTheorems.MergedAt | internal/domain/incident/incident.go:137-190 | the verdict on an id depends only on the first stored and the first derived incident with it |
| IncidentMergeTheorems.HumanLayerKept | internal/domain/incident/incident.go:209-267 | facts are refreshed and counted, assignee always kept, stamps and audit kept unless the state changes |
| IncidentMergeTheorems.MergedWellFormed | internal/domain/incident/incident.go:144-190 | the result has unique non-empty ids and is strictly ordered, whatever was stored |
| IncidentMergeTheorems.MergedIsCanonical | internal/domain/incident/incident.go:271-285 | the result is a function of what each id maps to in the two lists |
| IncidentMergeTheorems.DerivationOrderIsInvisible | internal/domain/incident/incident.go:269-285 | it is identical for every permutation of the derived list, and so are the closings |
| IncidentMergeTheorems.MergeConserves | internal/domain/incident/incident.go:144-190 | unclosed after = unclosed before + opened - closed |
| IncidentMergeTheorems.CountPending | internal/engine/incidents.go:57-65 | the engine's count is the number of unclosed incidents |
| IncidentMergeTheorems.OpenedAndClosedAreDisjoint | internal/domain/incident/incident.go:144-190 | no id is announced as opened and as closed |
| IncidentMergeTheorems.SecondMergeIsQuiet | internal/domain/incident/incident.go:144-190 | merging the same derivation again opens and closes nothing |
| IncidentOrder.BeforeOrder | internal/domain/incident/incident.go:269-317 | state, severity, title, id: a strict order, total between different ids |
| IncidentOrder.SortForgetsOrder | internal/domain/incident/incident.go:271-285 | lists with the same contents and unique ids are sorted to the same list |
| IncidentRules.ByState | internal/domain/incident/incident.go:271-315 | the list shows open incidents first, then acknowledged, then closed ones |
| IncidentRules.BySeverity | internal/domain/incident/incident.go:271-315 | within a state: critical, high, medium, low, unknown, anything else |
| IncidentRules.ByText | internal/domain/incident/incident.go:280-284 | within a state and a severity by title and then by id, at the first character that differs |
| IncidentRules.MergeTells | internal/domain/incident/incident.go:144-267 | per id: opened, reopened with new stamps and a signed entry, refreshed with state, assignee, stamps and audit kept, closed with a signed entry, or left as it was, each exactly when the source does it |
| IncidentRules.AnnouncedIff | internal/domain/incident/incident.go:144-190 | announced as opened if and only if derived and either unknown or last closed by the system, as closed if and only if stored unclosed and not derived; each as the list now holds it |
| IncidentRules.MoveTells | internal/domain/incident/incident.go:104-135 | a move goes to one of three states other than the present one, stamps it, trims and writes down who and why, and changes the assignee only to a name that is not blank |
| IncidentRules.AssigneeStands | internal/domain/incident/incident.go:118-120 | no sequence of cycles changes whom a person put in charge |
| IncidentLedger.IncidentPatch | internal/api/handlers_incidents.go:127-159 | the first incident with the id is moved in place, or nothing changes |
| IncidentLedger.AlwaysAudited | internal/domain/incident/incident.go:104-135 | in every ledger reachable by cycles and people, each audit trail is a chain of valid moves from open to the present state, with stamps that match: closed if and only if a closing stamp, acknowledged only with its stamp, open with neither acknowledgement nor closing |
| IncidentLedger.TrailOnlyGrows | internal/domain/incident/incident.go:104-267 | no incident leaves the ledger and its audit only grows at the end |
| IncidentLedger.HumanCloseStands | internal/domain/incident/incident.go:137-143 | once a person closes an incident no sequence of cycles reopens it or touches its audit |
| IncidentLedger.HumanCloseIsFinal | internal/domain/incident/incident.go:221-231 | the same from any ledger in which the last entry is not a closing by the system |
| IncidentLedger.ReopensIffSystemClosed | internal/domain/incident/incident.go:221-248 | a closed incident seen again reopens if and only if the system signed its closing |
| IncidentDerive.Derive | internal/domain/incident/derive.go:19-43 | the loops compute the first incident of each id, sorted |
| IncidentDerive.IncidentIDInjective | internal/domain/incident/derive.go:51-64 | kind and device can be read back from an incident id |
| IncidentDerive.FailureIDInjective | internal/domain/incident/derive.go:168-192 | device and action of a failed action can be read back from its id, dashes in the device id included |
| IncidentDerive.DerivedIs | internal/domain/incident/derive.go:19-43 | the derived list is well formed, sorted, first-wins, and holds only open incidents without stamps or audit |
| IncidentDerive.DerivedAt | internal/domain/incident/derive.go:80-149 | for every kind of condition, the list holds the incident of that kind and device if and only if the device shows the condition, and it is the one drawn from it |
| IncidentRules.DerivedIff | internal/domain/incident/derive.go:80-149 | the list holds the incident of each kind for a device if and only if it is not compliant, has a score of 85 or more, is outside, is unknown, is off its route, or is suspicious |
| IncidentRules.FailureIff | internal/domain/incident/derive.go:168-203 | it holds the failure of an action on a device if and only if some result of the cycle was neither ok nor blocked for them |
| IncidentRules.DraftIs | internal/domain/incident/derive.go:52-149 | severity by kind, an exit being critical while not compliant; fence, score, names and stamps of the device |
| IncidentDerive.FleetOrderIsInvisible | internal/domain/incident/derive.go:19-43 | the same fleet in another order yields the same list |
| IncidentDerive.CyclesAreProper | internal/engine/incidents.go:22-36 | what a cycle derives meets the hypotheses of the ledger's theorems |
| IncidentOutages.OutageClosesNothing | internal/engine/incidents.go:18-36 | whatever is stored, a cycle in which a device's connector failed closes no incident of a condition the kept device shows and announces none as closed; an unclosed one keeps its state and audit and is not announced as opened either |
| IncidentOutages.OutageClosesNothingOpen | internal/engine/incidents.go:18-21 | an incident of a device's condition left unclosed by one cycle is not closed by a next one in which its connector failed, whatever people did in between, and if still unclosed is not announced at all |
| CsvExport.ToCSV | internal/domain/incident/analytics.go:194-213 | the printed text is the header line and one line per incident, fields escaped |
| CsvExport.ExportRoundTrips | internal/domain/incident/analytics.go:194-220 | a reader for section 2 of RFC 4180 gives back the header and every field of every incident exactly, for any text |
| CsvExport.WhoIsRead | internal/domain/incident/analytics.go:168-177 | a reader of the file finds each incident's id, device, kind, severity and state under their names |
| CsvExport.WhatIsRead | internal/domain/incident/analytics.go:178-182 | title, fence, assignee, score (blank when there is none) and count |
| CsvExport.WhenIsRead | internal/domain/incident/analytics.go:183-186 | the four instants, blank when absent or zero |
| CsvExport.WhyIsRead | internal/domain/incident/analytics.go:187-190 | evidence, number of audit entries, last note |
| CsvExport.LastNoteIs | internal/domain/incident/analytics.go:222-229 | the last note is that of the last audit entry that has one, with who wrote it |
| CsvExport.BareIff | internal/domain/incident/analytics.go:215-220 | a field is printed as it is if and only if it has no comma, quote or line end |
| CsvExport.ParseField | internal/domain/incident/analytics.go:215-220 | one printed field is read back whatever commas, quotes and line ends it holds |
| CsvExport.ExportInjective | internal/domain/incident/analytics.go:192-220 | lists that differ in any cell give different files |
| Pages.ReadJSONL | internal/store/jsonl.go:28-54 | as many of the last lines that hold anything as the limit allows, in file order; all of them without a limit |
| Pages.PageJSONL | internal/store/jsonl.go:61-88 | a page from the end or the cursor back, the next cursor, or a bad cursor |
| Pages.PageIs | internal/store/jsonl.go:61-88 | line k of a page is the k-th before the line of the cursor, or before the end; 100 lines when no limit is given, 500 at most, fewer only when the file begins |
| Pages.NextIs | internal/store/jsonl.go:80-88 | the next cursor reads back as the line before those of the page, and is empty if and only if there is none |
| Pages.BadCursorIff | internal/store/page.go:36-47 | a page is refused if and only if its cursor is not empty and does not decode |
| Pages.DecodeLines | internal/store/orgstore.go:131-147 | lines that do not decode are left out |
| Pages.WalkIsLossless | internal/store/jsonl.go:56-88 | under any appends and any limits a walk yields the lines present at its first request, newest first, each once, and ends after at most as many requests as lines |
| Pages.SkippingCommutes | internal/store/page.go:62-73 | leaving unreadable lines out page by page is leaving them out of the whole walk |
| Pages.DecodedWalkIsLossless | internal/store/page.go:62-85 | a finished walk of decoded pages is the readable lines of the first request, newest first |
| Cursors.CursorRoundTrip | internal/store/page.go:24-47 | decoding undoes encoding for every index below 2^63, and no such cursor is empty |
| Cursors.Base64RoundTrip | internal/store/page.go:28-33 | base64url without padding (section 5 of RFC 4648) is undone for any bytes |
| Cursors.GroupIsNumber | internal/store/page.go:28-33 | three bytes are one number of 24 bits written as four letters of the alphabet, one or two at the end as two or three |
| Cursors.DecodesIff | internal/store/page.go:36-40 | a text decodes if and only if its letters are of the alphabet and its last group has more than one |
| Cursors.AtoiIs | internal/store/page.go:41-45 | digits with an optional sign read as their value while it fits 64 bits |
| Throttle.Store.Throttled | internal/auth/throttle.go:21-35 | keeps the attempts inside the window, forgets an email without any, blocks at five |
| Throttle.Store.RegisterFail | internal/auth/throttle.go:45-50 | a known email is always noted, a new one when there is room |
| Throttle.Store.MakeRoomForFail | internal/auth/throttle.go:59-85 | expired entries go, then the oldest that do not block and no more than needed; it ends, and refuses only when all that is left blocks |
| Throttle.BlockedIff | internal/auth/throttle.go:21-35 | blocked if and only if there are five attempts and the fifth most recent is less than a minute old |
| Throttle.AskIs | internal/auth/throttle.go:21-35 | asking keeps exactly the attempts of the last minute, forgets the email when none is left, and touches no other email |
| Throttle.FailIs | internal/auth/throttle.go:45-50 | the instant is added to that email alone, as its latest |
| Throttle.RoomIs | internal/auth/throttle.go:52-85 | only at 10000 emails anything goes: the expired ones, and then emails with fewer than five attempts, oldest first, while at least 9999 stay |
| Throttle.BlockedStaysBlocked | internal/auth/throttle.go:37-85 | over any sequence of operations on any emails a blocked email stays blocked until its fifth most recent attempt expires |
| Throttle.MemoryIsBounded | internal/auth/throttle.go:13-16 | the memory never holds more than 10000 emails |
| Throttle.RefusesIff | internal/auth/throttle.go:52-85 | a new email is turned away if and only if 10000 emails block with a recent last attempt, and then nothing is forgotten |
| Rounding.RoundTenthOf | internal/domain/risk/verdict_round.go:12-26 | quotient, remainder and sign give the nearest tenth of any fraction, ties to even |
| Rounding.NearestMonotone | internal/domain/risk/verdict_round.go:8-26 | nearest tenths are monotone, hence unique |
| Rounding.RoundReachesEven | internal/domain/risk/verdict_round.go:8-26 | an even tenth is reached if and only if the value is at most half a tenth below it |
| Rounding.RoundReachesOdd | internal/domain/risk/verdict_round.go:8-26 | an odd tenth is reached if and only if the value is less than half a tenth below it |
| Rounding.RoundRange | internal/domain/risk/verdict_round.go:11-26 | a value within 0 and 100 is rounded within 0 and 100 |
| RiskVerdict.Accumulate | internal/domain/risk/verdict.go:38-65 | points and reasons rule by rule, in order |
| RiskVerdict.PointsByFlag | internal/domain/risk/verdict.go:67-111 | the points of the flags, flag by flag, independent of the tables |
| RiskVerdict.RawIs | internal/domain/risk/verdict_signals.go:55-73 | the raw score is the sum of the flags and twenty times the zone's risk, less five but not below zero on the route, plus 25 and one for every whole hundred metres up to 25 off it |
| RiskVerdict.ReasonsTell | internal/domain/risk/verdict.go:38-111 | a reason is given if and only if its evidence is there, once, and always in the same order |
| RiskVerdict.Evaluate | internal/domain/risk/verdict.go:29-36 | clamped, rounded, gated and graded |
| RiskVerdict.SeverityCuts | internal/domain/risk/verdict.go:12-25 | critical from 79.95, high from 54.95, medium from 29.95 of the clamped raw score, low below |
| RiskVerdict.PositiveScoreHasReason | internal/domain/risk/verdict_result.go:48-56 | a positive score always has a reason; verified and from the tool if and only if there is one, never from context |
| RiskVerdict.EvidenceOnlyAdds | internal/domain/risk/verdict_signals.go:12-73 | more evidence, the outdated flag and the route aside, never lowers the score |
| RiskVerdict.OutdatedLowersIff | internal/domain/risk/verdict.go:86-109 | setting the outdated flag lowers the score of the verdict if and only if the unpatched flag is set and the sum of the points is below 101.95 |
| RiskVerdict.MaxScore | internal/domain/risk/verdict_result.go:34-46 | the greatest of the scores there are; none when there are none |
| NumericHosts.ParseInetAton | internal/notify/addr.go:220-247 | split, read and put together: the address the parts stand for, or none |
| NumericHosts.Assemble | internal/notify/addr.go:233-247 | or-ing the parts together is the positional sum, within the bounds of each part |
| NumericHosts.OrIsSum | internal/notify/addr.go:238-245 | bits that do not meet add up |
| NumericHosts.EveryRenderingParses | internal/notify/addr.go:220-267 | every 32-bit address, in one to four parts, each in decimal, octal or hexadecimal, is read as that address |
| NumericHosts.HostIs | internal/notify/addr.go:220-247 | a host is an address if and only if it is one to four numbers between dots, all bytes but the last, which fills the rest, and it is then the number they spell |
| NumericHosts.DottedSplit | internal/notify/addr.go:221-224 | every host is the parts between its dots |
| NumericHosts.PartIs | internal/notify/addr.go:253-267 | 0x starts a hexadecimal part, another leading zero an octal one, all else is decimal, and nothing is not a number |
| NumericHosts.PartRoundTrip | internal/notify/addr.go:253-267 | a part in any radix is read back |
| AddressClasses.BlockedInEveryDress | internal/notify/addr.go:99-130 | always-blocked is the verdict on the IPv4 address, mapped, 6to4, compatible, NAT64 or translated |
| AddressClasses.PrivateInEveryDress | internal/notify/addr.go:140-165 | internal likewise, but for NAT64, which is always internal |
| AddressClasses.BlockedIsPrivate | internal/notify/addr.go:118-165 | nothing always blocked counts as public |
| AddressClasses.InternalV4 | internal/notify/addr.go:140-165 | which IPv4 addresses are internal, range by range |
| AddressClasses.BlockedV4 | internal/notify/addr.go:118-130 | always blocked among IPv4 addresses: 169.254 alone |
| AddressClasses.InternalV6 | internal/notify/addr.go:140-165 | which IPv6 addresses that hold no IPv4 one are internal, prefix by prefix |
| AddressClasses.BlockedV6 | internal/notify/addr.go:118-130 | always blocked among them: link-local ones and fd00:ec2::/64 |
| AddressClasses.OnlyDresses | internal/notify/addr.go:99-116 | an IPv6 address hides an IPv4 one only in one of the dresses |
| AddressClasses.SpellingDoesNotMatter | internal/notify/addr.go:206-267 | however a numeric host is spelled it is judged as its address |
| AddressClasses.InAnyOf | internal/notify/addr.go:53-60 | some net of the list holds the address |
| Alerts.Evaluate | internal/domain/alert/alert.go:140-167 | the firings of enabled rules of known kinds on named devices, rule by rule |
| Alerts.FiresInIs | internal/domain/alert/alert.go:140-167 | an alert fires if and only if its rule is enabled and of a known kind and holds for a device of the fleet that has an id |
| Alerts.Watch.EvaluateAlerts | internal/engine/notifications.go:71-98 | the new memory and the announced alerts of a round; an unreadable file changes nothing |
| Alerts.MemoryIsWhatFires | internal/engine/notifications.go:82-96 | after a round the memory holds exactly the keys of what fires now |
| Alerts.EmitsIff | internal/engine/notifications.go:82-96 | an alert goes out if and only if its condition begins to fire or 30 minutes have passed since it last went out |
| Alerts.EmissionsSpaced | internal/engine/notifications.go:53-62 | two alerts of one episode are at least 30 minutes apart |
| Alerts.EventsAreEmissions | internal/engine/notifications.go:84-95 | the events of a round are exactly its emissions, each once when rules and devices have ids of their own |

## Left out

- Fence shapes, distances and the signals behind a verdict: `contains`, route distance and the flags of `RiskVerdict`
  are inputs; spherical geometry in floating point and NaN coordinates other than "not valid" are not modelled.
- Policy and playbook conditions: whether a playbook validates and matches is an input; orders of policies are an
  input to `HumanGate` and do not appear in `Fleet`, which models geofence, route, dwell and standing orders.
- ReplayHistory.Replay: places points only; policy evaluation of each sample, its counters and its notes are not
  modelled.
- Fleet.Engine.RunCycle: orders of policies and playbooks, the guardrails they pass (`Guardrails`, `HumanGate`) and
  failed writes are not part of this cycle.
- Fleet.Engine.ProcessDevice: plans geofence, route, dwell and standing orders; those of policies and playbooks, and
  the execution of any, are not part of it.
- Handoffs.HandoffIDInjective: the identity is the text that the source digests; SHA-256, its cut to twelve
  hexadecimal digits and the legible prefix are taken as injective, as the source intends, and lengths count
  characters instead of bytes.
- Cooldown.ExecutionsSpaced: for orders that do not overlap, with one window throughout, a clock that does not go back
  and every mark written; an unreadable cooldowns.json, which reads as no marks, is not modelled; a manual order
  racing an order of the cycle shares no lock with it and is not covered.
- AuditTrail.EveryCallAccountedFor: a line is either appended whole or not at all.
- HumanGate.Always: an approval's three parts are separate steps between which cycle steps may fall, but a request's
  name, parameters, reason and severity are left out, and so is a connector that answers with a result marked blocked.
- HistoricalReplay.HistoricalReplayIsExact: needs strictly growing cycle clocks, each device once per cycle and
  successful writes; torn last lines are dropped by the reader and not produced by the model.
- DwellOnce.OneTriggerPerStay: restarts fall between cycles and writes of dwell.json succeed; stay starts are
  instants, their text form is not modelled.
- IncidentLedger.AlwaysAudited: a patch is one step; two patches, or a patch and a cycle, that read before either
  writes are not covered, as the source takes no common lock.
- Incident counters and clocks are unbounded integers; a cooldown or a time difference beyond Go's 64-bit nanoseconds
  is not modelled.
- CsvExport.ToCSV: the texts of instants and scores come from parameters, and characters are not encoded to UTF-8.
- IncidentDerive.Derive: titles and advice come from a wording that is an input, and numbers inside evidence texts come
  formatted.
- Analytics other than the export: daily series, mean resolution time, ranking of devices.
- Pages: files of fewer than 2^63 lines; lines beyond the scanner's buffer and read errors are not modelled.
- RiskVerdict.Evaluate: real arithmetic and exact tenths; the wording of reasons, sums rounded by binary64 and the last
  conversion of tenths to binary64 are not modelled.
- Throttle.Store.RegisterFail: one reading of the clock; the source reads it once when making room and again for the
  attempt it appends.
- NumericHosts.ParseInetAton: host normalisation and net.ParseIP, which is asked first and agrees on dotted decimals
  without leading zeros.
- Alerts.Evaluate: whether a rule's measure fires on a device is an input.
- Event payloads, delivery, webhooks, TLS, DNS, HMAC, sessions, passwords, HTTP handlers, roles, configuration, the
  command line, demo data and the web interface: they would add only easy members.
