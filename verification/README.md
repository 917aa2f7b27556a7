# A verified model of the wingfoil engine

wingfoil is a stream-processing engine: a directed acyclic graph of nodes, cycled in layers by a clock that
either replays history or follows wall time. This project models its core in Dafny and proves what the
design promises about whole cycles and whole runs.

- `GraphModel`, `Wiring`, `Evaluation`, `Equations`, `Dispatch`, `Edits`, `Layering`, `Removal`, `Additions`, `Graph` -
  the engine: iterative wiring, the one-pass layered cycle, and rewiring between cycles.
- `Acyclic`, `Batch` - cycles and ranks of a finite relation, and when a batch of additions can be settled.
- `TimeQueue`, `Clock`, `RunLoop` - the callback queue, the historical clock and the bounds of a run.
- `Run` - graph and clock together, over cycles and edits.
- `Delay`, `Feedback`, `Demux`, `NodesInRuns` - nodes whose guarantees follow from the clock and the layers.
- `HistoricalChannel`, `HistoricalDelivery`, `HistoricalTiming`, `RealtimeChannel` - the protocol between a
  producer and the graph.
- `Moments`, `RollingMoments`, `SampleMoments`, `RollingExtreme`, `Median` - incremental statistics against recomputation.
- `TimeSlices`, `Latency` - slicing a run for queries, and histogram quantiles.

`dafny verify dfyconfig.toml` checks everything.

How the model reads the source:

- Nodes are uninterpreted behaviours: own state and upstream values and ticks in; new state, tick, marks and
  requested callbacks out. A node marks only nodes that are wired downstream of it, as `demux` does.
- The graph (`Engine.Graph`) and the clock with its callbacks (`RunLoop.Scheduler`) are two classes; what the
  nodes request in a cycle is what passes between them. A cycle is `Cycle` and then `ApplyEdits`.
- A run is a sequence of clock steps. A node's part in it is a sequence of its own steps tied to the
  cycles in which the clock marks it, for any behaviour of all the other nodes.
- Real-time sender and engine are a state machine whose steps interleave freely. The sender pushes nothing but
  end markers after an end marker; whatever it pushed later would never be read. Nodes may be marked, and
  cycles may start, more often than the source does it.
- Times are unbounded naturals; where a width matters (slices, histogram) it is written out. Statistics are
  over exact reals.

Where code and comments differ, or a promise has a condition:

- A value that is already queued for the same time is suppressed, so of several values sent to a feedback
  channel in one cycle the one whose first sending came last is shown, not the one sent last
  (`ShownIsNewest`, `RepeatIsSuppressed`).
- The histogram bucket is the exponent of `delta + 1` (wingfoil/src/latency.rs:429), so its bounds are one less
  than the comment at wingfoil/src/latency.rs:400-401 says. The estimate exceeds `delta + 1` exactly for deltas below 2^63 - 1.
- The conversion of a slice's end adds in signed 64 bits. It overflows exactly if the run ends on the last
  representable day and its last slice ends past the range (`ConversionsStayInRange`); an unchecked build still
  gets the right time from the cast (`FromKdbExact`), a checked one stops.
- The independence of message timing needs the grouping: the receiver survives every schedule of polls exactly
  if no two adjacent messages share a time (`NeverFailsIffNoSplit`).
- `fix_layers` settles exactly if the live edges close no cycle (`WorklistEndsIffAcyclic`); for a caller edge that
  means that the new upstream does not already depend on the caller (`CallerEdgeSettlesIff`). Wiring does not see
  such a cycle, because it meets the caller as already registered, and the worklist then goes on raising layers for
  ever (`TwoNodesNeverSettle`). A whole batch settles exactly if the graph it asks for has no cycle, which can be
  read off the graph before it (`BatchSettlesIff`). So the additions are modelled for edits that close no cycle.

## Model

| member | source | states |
|---|---|---|
| Engine.Graph.InitialiseNode | wingfoil/src/graph.rs:741-812 | The explicit-stack walk ends for every declaration, fails if and only if a cycle is reachable from the root, and otherwise registers everything the root needs, each node once, after its upstreams, with its declared edges in order - one active edge for each active upstream, then one passive edge for each passive one |
| Engine.Graph.Initialise | wingfoil/src/graph.rs:690-730 | After construction: an error if and only if some root reaches a cycle; otherwise exactly the needed nodes are registered, upstream and downstream lists are transposes, every layer is the longest upstream path and has an empty bucket; every node has exactly one active edge for each active upstream it declares, in order, and then one passive edge for each passive one |
| Engine.Graph.constructor | wingfoil/src/graph.rs:499-520 | The same, from the empty engine |
| Engine.Graph.WireAll | wingfoil/src/graph.rs:692-702 | Several roots: stops with an error exactly when one of them reaches a cycle |
| Engine.Graph.LinkDownstreams | wingfoil/src/graph.rs:704-720 | The downstream lists become the transpose of the upstream lists, with multiplicity |
| Engine.Graph.AllocateBuckets | wingfoil/src/graph.rs:703-724 | One clear flag per node and one empty bucket per layer, the highest included |
| Engine.Graph.PushNode | wingfoil/src/graph.rs:443-449 | The new node gets the next index, a clear ticked flag and an index entry |
| GraphModel.ResolvedAsDeclared | wingfoil/src/graph.rs:67-79 | The pairs a wiring frame walks through give a node one active edge for each active upstream, in order, and then one passive edge for each passive one |
| Wiring.LayersAreLongestPaths | wingfoil/src/graph.rs:741-812 | For every registered node the layer is the length of a longest declared upstream path |
| Wiring.RegisteredHasNoCycle | wingfoil/src/graph.rs:741-812 | A registry whose upstreams come first rules out every cycle below a registered node |
| Wiring.BackEdgeIsLasso | wingfoil/src/graph.rs:741-812 | Meeting a node that is still on the stack exhibits a concrete cycle reachable from the root |
| Wiring.Finished | wingfoil/src/graph.rs:741-812 | Popping a finished frame keeps the whole loop invariant and reduces the termination measure |
| Wiring.FoundNew | wingfoil/src/graph.rs:741-812 | Descending into a new upstream keeps the invariant and leaves fewer nodes unmet |
| Wiring.FoundRegistered | wingfoil/src/graph.rs:741-812 | Recording an upstream that is already registered keeps the invariant and leaves less work on the stack |
| Wiring.WiredNext | wingfoil/src/graph.rs:692-702 | Wiring one root after another adds up: nothing wired earlier is disturbed |
| Evaluation.Eval | wingfoil/src/graph.rs:901-950 | The outcome of a node in a cycle, defined from its upstreams alone: a node that does not run changes nothing and never ticks; only live nodes run. It is the one solution of the equations of the cycle (`SolutionIsEval`, `EvalSolves`) |
| Equations.SolutionIsEval | wingfoil/src/graph.rs:901-950 | The cycle as equations on the nodes' replies alone: a live node replies if and only if it was dirty, an active upstream's reply ticked or some upstream's reply marks it; and it replies to its state and what its upstreams replied. Every solution gives every node its reference outcome, with all its marks and requests, so there is at most one |
| Equations.EvalSolves | wingfoil/src/graph.rs:901-950 | The equations have a solution |
| Equations.MarksAreHonoured | wingfoil/src/graph.rs:484-490 | Every node named in a reply's marks runs in the same cycle |
| Equations.OutcomesPerform | wingfoil/src/graph.rs:901-950 | Reference outcomes for everybody amount to performing the solution: who ran, the states left and the requests made are those of the replies |
| Evaluation.TopologicalEvaluation | wingfoil/src/graph.rs:901-950 | Plain evaluation in any topological order gives every node the same outcome |
| Evaluation.RegistrationOrderIsTopological | wingfoil/src/graph.rs:741-812 | The order of registration is such an order |
| Evaluation.HitsAreTriggers | wingfoil/src/graph.rs:814-820 | Marking along downstream lists reaches exactly the nodes that an upstream list says are triggered |
| Engine.Graph.Dispatch | wingfoil/src/graph.rs:901-911 | One pass over the buckets refines evaluation: a node runs if and only if it was dirty at the start, an active upstream ticked or an upstream marked it; at most once; after every upstream that runs; with the values and ticks of the reference evaluation; it fails if and only if some node that runs fails |
| Engine.Graph.Cycle | wingfoil/src/graph.rs:901-911 | The same against evaluation in every topological order, and afterwards every dirty flag, ticked flag and bucket is clear; who ran, what states they left and what they asked for are those of a solution of the cycle's equations, and a failure is a failed reply in one |
| Engine.Graph.MarkAndCycle | wingfoil/src/graph.rs:822-911 | From one sound state between cycles to the next: mark what is due, run the pass; every node has its reference outcome, and the requests are exactly those of the nodes that ran, as in the cycle's equations |
| Engine.Graph.CycleNode | wingfoil/src/graph.rs:924-950 | Running one due node gives its reference outcome, marks exactly the nodes its reply names and, if the reply ticks, its active downstreams, and touches no bucket at or below its own layer |
| Engine.Graph.MarkDirty | wingfoil/src/graph.rs:484-490 | Marking is idempotent, touches the bucket of the node's layer only, and keeps flags and buckets in agreement |
| Engine.Graph.MarkActiveDownstreams | wingfoil/src/graph.rs:924-950 | Exactly the active downstreams become dirty |
| Engine.Graph.Reset | wingfoil/src/graph.rs:952-962 | Every flag and bucket is clear; the number of buckets stays |
| Dispatch.RunStep | wingfoil/src/graph.rs:901-950 | One node of the pass keeps the whole pass invariant (outcomes, dirty flags, log, requests) |
| Dispatch.LayerStep | wingfoil/src/graph.rs:901-911 | When a layer's bucket is done, everything due in that layer has run |
| Dispatch.LayeredLogIsUpstreamsFirst | wingfoil/src/graph.rs:901-911 | A log ordered by layers has every upstream before its downstream |
| Engine.Graph.FixLayers | wingfoil/src/graph.rs:1122-1148 | If the live edges close no cycle and only edges into the start node violate the layer order, the worklist takes exactly the modelled turns and ends with no violated edge, never lowers a layer, stays below every layering of the graph and gives every raised layer a bucket; it terminates by remaining headroom, then queue length |
| Layering.RaiseUsesHeadroom | wingfoil/src/graph.rs:1122-1148 | Raising a layer strictly reduces the headroom summed over all nodes |
| Layering.PopRaises | wingfoil/src/graph.rs:1122-1148 | After a raise, every violated node is in the queue |
| Layering.RankGivesLayering | wingfoil/src/graph.rs:1122-1148 | A rank that rises along every live edge gives a layering above any current layers |
| Acyclic.AcyclicIffRanked | wingfoil/src/graph.rs:1122-1148 | A relation over finitely many nodes has no cycle if and only if it has such a rank: without one, walks are simple, hence short |
| Layering.LayeringIffAcyclic | wingfoil/src/graph.rs:1122-1148 | A layering above the current layers exists if and only if the live edges close no cycle |
| Layering.WorklistEndsIffAcyclic | wingfoil/src/graph.rs:1122-1148 | From any state that covers its violations, the worklist runs empty after finitely many turns if and only if the live edges close no cycle |
| Additions.CallerEdgeSettlesIff | wingfoil/src/graph.rs:1042-1060 | Adding a caller edge to a sound graph is repaired in finitely many turns if and only if the new upstream does not already depend on the caller |
| Additions.TwoNodesNeverSettle | wingfoil/src/graph.rs:1007-1060 | The smallest failing case: a new node that declares the caller passes wiring, the caller edge closes a cycle, and the worklist never runs empty |
| Batches.BatchSettlesIff | wingfoil/src/graph.rs:1007-1060 | For a whole batch whose new subgraphs could be wired: the additions settle one after the other if and only if the graph before the batch, with the declared edges of the new nodes and the requested caller edges, has no cycle |
| Batches.SettledIsSound | wingfoil/src/graph.rs:1042-1060 | Wherever the repair after a caller edge ends, the edge and nothing else has been added and the graph is sound |
| Batches.LayersRankFeeding | wingfoil/src/graph.rs:1007-1060 | Once a batch has settled, layers fall along every edge the batch asked for, which rules out a cycle |
| Layering.CycleHasNoLayering | wingfoil/src/graph.rs:1122-1148 | If live edges close a cycle, no layering exists |
| Engine.Graph.ProcessPendingRemovals | wingfoil/src/graph.rs:965-1004 | The live nodes named are retired and nobody else; every survivor keeps exactly its upstream and downstream edges to survivors, in order; the engine stays sound; an error if and only if the stop of a live node that is named fails |
| Removal.RetiresOne | wingfoil/src/graph.rs:965-1004 | One more removal filters the lists of all survivors once more |
| Removal.StopsNext | wingfoil/src/graph.rs:965-1004 | Part of the way through the removals, the next one fails the batch exactly if it names a node that is still live and does not stop; unknown, removed and repeated names never do |
| Engine.Graph.RemoveNode | wingfoil/src/graph.rs:965-1004 | One removal: every live neighbour loses exactly its edges to the node, and the transposed structure is kept |
| Removal.UnlinkedIsRemoved | wingfoil/src/graph.rs:965-1004 | Dropping the node from the lists of its own neighbours removes it from every list |
| Removal.RemovedStructure | wingfoil/src/graph.rs:965-1004 | A removal keeps live edges live, layers ordered and lists transposed |
| Engine.Graph.ProcessPendingAdditions | wingfoil/src/graph.rs:1007-1060 | An error if and only if a new subgraph reaches a cycle; otherwise old nodes gain exactly the requested edges (duplicates once), new nodes are exactly the needed ones with their declared edges, and every layer is ordered and housed again (active ones first) |
| Engine.Graph.AddUpstream | wingfoil/src/graph.rs:1042-1060 | One caller edge that closes no cycle: both lists gain it unless present, and the layer order is restored around the caller |
| Engine.Graph.ExtendBuckets | wingfoil/src/graph.rs:1143-1146 | The buckets grow to hold a layer, and the new ones are empty |
| Edits.LinkedStructure | wingfoil/src/graph.rs:1020-1037 | Linking newly wired nodes into a sound graph keeps it sound |
| Additions.AddInvNext | wingfoil/src/graph.rs:1039-1060 | One more addition keeps the batch invariant |
| Additions.AddEdgeTransposed | wingfoil/src/graph.rs:1048-1058 | Adding an edge to both lists keeps them transposes as multisets |
| Engine.Graph.ApplyEdits | wingfoil/src/graph.rs:912-916 | Removals, then additions, between two cycles: the engine is sound again, and what was retired and what was added is exactly what was asked for; an error if and only if the stop of a live named node fails or what an addition needs is cyclic |
| EngineRuns.Run | wingfoil/src/graph.rs:596-657 | Clock, cycles and edits in turn, from the graph, states and clock it is given, for any behaviour of the nodes (which may depend on cycle, time and graph) and any admissible plan of edits: the cycles follow the script, `Story` - the clock starts each, the nodes behave in it as the script says at that time, every node gets its reference outcome from the states the cycle before left, exactly the requests of the nodes that ran go back to the clock, and the graph of the next cycle is this one's with exactly the round's removals retired and additions wired. It ends for exactly one of five reasons: the limit, an empty clock, a waiting notification, a node of the next cycle that fails, or an edit after it that fails; otherwise the engine is sound |
| EngineRuns.RunCycle | wingfoil/src/graph.rs:635-645 | One cycle of the whole engine: played as the script says, with its requests given to the clock; or nothing is scheduled, a notification waits, or a node of exactly this cycle fails |
| EngineRuns.EditRound | wingfoil/src/graph.rs:912-916 | The round's removals are retired and its additions wired, old nodes keep their states and new ones get theirs; it fails if and only if the stop of a live named node fails or what an addition needs is cyclic |
| EngineRuns.Turn | wingfoil/src/graph.rs:596-657 | A cycle and its edits lead from one moment of the engine to the next, or halt the run there for the reason given |
| EngineRuns.StoryGrows | wingfoil/src/graph.rs:596-657 | A cycle played from the end of a story, and what it leads to, continue the story |
| EngineRuns.StoryIsEngineRun | wingfoil/src/graph.rs:596-657 | The cycles of every story are a run of the clock from the given one to the one reached, each playing from the states the one before it left |
| NodesInRuns.EdgesKept | wingfoil/src/graph.rs:965-1060 | Over every run, a node whose plan of edits neither removes it or its upstreams nor gives it another one stays live, with exactly the edges it had, whatever else is edited |
| NodesInRuns.RunsWhenTriggered | wingfoil/src/graph.rs:924-950 | A node that no upstream marks runs exactly when the clock marks it or an active upstream ticks |
| NodesInRuns.DelayTakesPart | wingfoil/src/nodes/delay_with_reset.rs:31-72 | A delay wired into the engine takes part in every run of it as the delay theorems assume |
| NodesInRuns.DelayExactInRun | wingfoil/src/nodes/delay_with_reset.rs:31-72 | So its emissions are exact over every run of the engine in which it stays wired |
| NodesInRuns.DelayInRun | wingfoil/src/nodes/delay_with_reset.rs:31-72 | The same for what `EngineRuns.Run` returns, from its script alone: the script casts the node as the delay, and its edits leave the node and its two upstreams alone |
| NodesInRuns.ReceiverTakesPart | wingfoil/src/nodes/channel.rs:115-252 | A receiver wired into the engine takes part in every run of it as the delivery theorems assume |
| NodesInRuns.ReceiverInRun | wingfoil/src/nodes/channel.rs:115-252 | In what `EngineRuns.Run` returns, whatever the other nodes, the edits and the polls do, after every cycle exactly the groups whose time has come have been shown to the graph, each at its own time |
| NodesInRuns.ReceiverNeverFails | wingfoil/src/nodes/channel.rs:115-252 | And no run is halted by the receiver: if a node of the next cycle fails, it is another one |
| NodesInRuns.FeedbackInRun | wingfoil/src/nodes/feedback.rs:18-61 | A feedback stream without upstreams that the edits leave alone takes part in every run as the feedback theorem assumes, if whoever sends asks for its wake-up one tick later; so it shows in every cycle exactly what was sent in the one before |
| TimeQueues.TimeQueue.Push | wingfoil/src/queue/time_queue.rs:120-136 | The queue stays ordered by time and insertion, and a pair already queued is suppressed |
| TimeQueues.TimeQueue.PopIfPending | wingfoil/src/queue/time_queue.rs:105-113 | Pops the earliest entry if and only if it is due |
| TimeQueues.TimeQueue.NextTime | wingfoil/src/queue/time_queue.rs:91-94 | The earliest time, or nothing for an empty queue |
| TimeQueues.TimeQueue.Clear | wingfoil/src/queue/time_queue.rs:115-117 | Empties the queue |
| TimeQueues.InsertOrdered | wingfoil/src/queue/time_queue.rs:120-136 | Insertion keeps the pop order |
| TimeQueues.InsertPosition | wingfoil/src/queue/time_queue.rs:120-136 | A new entry goes behind those of its own time or earlier and ahead of the later ones; nothing else moves |
| TimeQueues.DueExactly | wingfoil/src/queue/time_queue.rs:105-113 | Draining takes exactly the entries due at or before the present |
| RunLoop.Scheduler.AddCallback | wingfoil/src/graph.rs:406-408 | Adds exactly this callback to the clock's scheduled set |
| RunLoop.Scheduler.AlwaysCallback | wingfoil/src/graph.rs:325-335 | Registering to run always is idempotent |
| RunLoop.Scheduler.ProcessScheduledCallbacks | wingfoil/src/graph.rs:822-835 | Marks exactly the nodes that run always or have a callback due, and leaves exactly the later callbacks |
| RunLoop.Scheduler.ProcessCallbacksHistorical | wingfoil/src/graph.rs:837-871 | Advances the clock as the clock model says, reports nothing-to-do exactly when nothing is scheduled or always on, and fails exactly on a real-time notification |
| RunLoop.Scheduler.OneCycle | wingfoil/src/graph.rs:635-645 | Starts a cycle from the clock as it is and takes in exactly the callbacks, the always-on nodes and the notifications that come in during it: one step of a clock run; fails exactly if a notification waits |
| RunLoop.Scheduler.RunNodes | wingfoil/src/graph.rs:596-657 | From the clock it is given to the one it leaves, a run of the clock model that serves exactly what is asked for in each cycle, with its last-cycle flags. It ends at the bound; or before it with an empty clock; or before it with a notification waiting, the one that came in during the last cycle. So `Cycles(n)` executes exactly n cycles with only the n-th flagged, and `Duration(d)` exactly one more, flagged, once the clock has reached `start + d`; cut short, it has executed fewer, none flagged |
| RunLoop.Scheduler.FlaggedCycle | wingfoil/src/graph.rs:607-647 | One turn of the loop extends the run by one cycle with its flag, or stops where it is |
| RunLoop.CyclesRunExactly | wingfoil/src/graph.rs:607-647 | A run for n cycles that does not run dry executes exactly n, and only the n-th is flagged last |
| RunLoop.DurationRunsOneMore | wingfoil/src/graph.rs:607-647 | A run for a duration executes exactly one more cycle once the clock has reached the end, and only that one is flagged last |
| RunLoop.DurationEnds | wingfoil/src/graph.rs:607-647 | The distance from the clock to the end bounds the number of cycles |
| RunLoop.BoundReached | wingfoil/src/graph.rs:570-598 | What the resolved bounds mean for each `RunFor`, with counter and clock width as outer bounds |
| Clocks.AdvanceMeetsDue | wingfoil/src/graph.rs:837-871 | A cycle never runs past a pending callback, delivers exactly those due, and leaves the others due when they were |
| Clocks.NextCycleTime | wingfoil/src/graph.rs:849-868 | With nothing scheduled a cycle runs one tick after the last, the first one at once; otherwise at the earliest scheduled time, but at least one tick after the last |
| Clocks.AlwaysIsMarked | wingfoil/src/graph.rs:325-335 | A node that asks to run always is marked in every later cycle |
| Clocks.TimeIncreases | wingfoil/src/graph.rs:837-871 | Over every run the engine time is strictly increasing |
| Clocks.PendingUntilDue | wingfoil/src/graph.rs:822-871 | A pending callback stays pending until the cycle at exactly its due time, which does not get skipped |
| Clocks.CallbackDelivered | wingfoil/src/graph.rs:822-871 | A callback requested in a cycle for a later time is delivered at exactly that time, in every run that gets there |
| Clocks.OverdueComesNext | wingfoil/src/graph.rs:837-871 | A callback requested for the present or the past comes in the very next cycle, at now + 1 |
| Clocks.MarkedExactly | wingfoil/src/graph.rs:822-835 | The clock marks a node if and only if it runs always or one of its callbacks is due now |
| Delays.DelayStream.Cycle | wingfoil/src/nodes/delay_with_reset.rs:31-72 | Both delay nodes: one cycle's new state, emission and callback |
| Delays.DelayWithResetExact | wingfoil/src/nodes/delay_with_reset.rs:31-72 | With a positive delay, over every run: a cycle without reset emits v if and only if the input ticked v exactly the delay ago, strictly after the last reset; a reset emits the current input; stale callbacks change nothing |
| Delays.ValueIsLastEmission | wingfoil/src/nodes/delay_with_reset.rs:31-72 | Over every run the node's value is its last emission; before any, the first input that ticked; before that, its default |
| Delays.DelayIsExactShift | wingfoil/src/nodes/delay.rs:26-55 | Over every historical run the emitted events are the input events shifted by the delay, zero included |
| Delays.InputIsCarried | wingfoil/src/nodes/delay.rs:26-55 | No input is lost: once the clock is past its shifted time, there was a cycle at exactly that time |
| Delays.DelaysCompose | wingfoil/src/nodes/delay.rs:26-55 | Delay d followed by delay e emits the same events as one delay of d + e |
| Delays.NeverResetIsPlain | wingfoil/src/nodes/delay_with_reset.rs:31-72 | With a trigger that never fires it emits what the plain delay emits |
| Feedbacks.Feedback.Send | wingfoil/src/nodes/feedback.rs:53-61 | The value is queued, and the stream woken, one tick ahead |
| Feedbacks.Feedback.Cycle | wingfoil/src/nodes/feedback.rs:18-25 | Drains exactly what is due; ticks if and only if something was; keeps the last value popped |
| Feedbacks.FeedbackExact | wingfoil/src/nodes/feedback.rs:18-61 | Over every run, with sends before and after the stream's own turn: the stream emits at t + 1 if and only if something was sent at t, and shows the value whose first sending came last among all sent before and after its turn |
| Feedbacks.ShownIsNewest | wingfoil/src/queue/time_queue.rs:120-136 | Of several values sent in one cycle, the stream shows the one whose first sending came last, and no other |
| Feedbacks.RepeatIsSuppressed | wingfoil/src/queue/time_queue.rs:120-136 | So it need not show the value sent last: 1, 2, 1 shows 2 |
| HistoricalChannel.ToMessageStream | wingfoil/src/nodes/async_io.rs:340-375 | Historical mode loses, reorders and invents nothing: unpacking the messages gives back the source, errors included, no burst is empty and no timestamp is split over adjacent messages; real-time mode yields every item as a message of its own; one end marker comes last |
| HistoricalChannel.OrderedSourceGivesStrictGroups | wingfoil/src/nodes/async_io.rs:340-375 | A time-ordered source gives one group per distinct time, strictly increasing |
| HistoricalChannel.Limit | wingfoil/src/nodes/async_io.rs:389-424 | The messages up to and including the first that ends the stream or the run; in an unbounded run all of them |
| HistoricalChannel.CutByCycles | wingfoil/src/graph.rs:109-115 | For a run of n cycles, n + 2 messages go through if there are as many and the stream does not end before |
| HistoricalChannel.CutByDuration | wingfoil/src/nodes/async_io.rs:389-424 | For a run of a duration, the messages that pass within it go through, and the first one behind it; the time a message passes at is its stamp, or the wall clock for a real-time value; a time before the start wraps around |
| HistoricalChannel.Produce | wingfoil/src/nodes/async_io.rs:240-258 | The producer's task in an unbounded run sends the grouped source and then only end markers: the stream's own and the one of close |
| HistoricalChannel.ChannelReceiverStream.ReadLoop | wingfoil/src/nodes/channel.rs:152-215 | Blocks while behind, polls once caught up, stops past the present; every error case |
| HistoricalChannel.ChannelReceiverStream.DrainQueue | wingfoil/src/nodes/channel.rs:216-224 | Takes exactly the groups that are due |
| HistoricalChannel.ValuesInOrder | wingfoil/src/nodes/channel.rs:221-229 | What is drained are the bursts of the groups, one after the other |
| HistoricalChannel.ChannelReceiverStream.Cycle | wingfoil/src/nodes/channel.rs:152-252 | The whole historical branch: new state, burst, tick and requested wake-up |
| HistoricalChannel.NextMessageDecides | wingfoil/src/nodes/channel.rs:152-252 | A receiver with nothing read ahead, triggered or not, by the kind and the time of the next message: which fail it and how, which end it, which it shows, and when it wants to be woken |
| HistoricalChannel.ChannelReceiverStream.Setup | wingfoil/src/nodes/channel.rs:254-269 | An untriggered receiver schedules exactly one wake-up, due at the start; a triggered one schedules nothing; nothing else changes |
| HistoricalDelivery.SetupPutsInStep | wingfoil/src/nodes/channel.rs:254-269 | That wake-up is all it takes for the receiver to begin in step with the clock |
| HistoricalDelivery.StaysInStep | wingfoil/src/nodes/channel.rs:152-252 | Every engine cycle, whatever its polls find, keeps the receiver in step: exactly the first groups are out and a wake-up is pending in time for the next |
| HistoricalDelivery.EmittedIsWhatIsDue | wingfoil/src/nodes/channel.rs:152-252 | After every cycle of every run no error has been reported and the emissions are exactly the groups whose time has come, each at its own time, independent of message timing; if the clock runs dry, all of them |
| HistoricalDelivery.SourceReachesGraph | wingfoil/src/nodes/async_io.rs:240-258 | End to end, for what the producer's task sends: a time-ordered source reaches the graph as exactly those of its values whose time has come, in order, one burst per distinct time |
| HistoricalTiming.NeverFailsIffNoSplit | wingfoil/src/nodes/channel.rs:152-252 | For every time-ordered sequence of messages: no schedule of polls and no run of the engine makes the receiver fail if and only if no two adjacent messages share a time |
| HistoricalTiming.SplitTimeFails | wingfoil/src/nodes/channel.rs:170-205 | Wherever two adjacent messages share a time, one poll that does not find the second sends the first out alone, and every later cycle fails with time-behind-graph |
| HistoricalTiming.TwoMessagesCanFail | wingfoil/src/nodes/channel.rs:170-205 | The smallest failing case |
| RealtimeChannel.ProtocolKept | wingfoil/src/channel/kanal_chan.rs:224-238 | Every step of sender, engine and receiver keeps the protocol invariant |
| RealtimeChannel.WakeUpKept | wingfoil/src/graph.rs:873-898 | No lost wake-up: an unread message's notification is still to be sent, or one is in the ready queue, or the receiver is marked and has yet to finish draining |
| RealtimeChannel.ProtocolHolds | wingfoil/src/nodes/channel.rs:127-151 | The invariant holds after every interleaving |
| RealtimeChannel.EmittedIsPrefix | wingfoil/src/nodes/channel.rs:127-151 | Over every interleaving the emitted bursts concatenate to a prefix of the values sent |
| RealtimeChannel.NothingStranded | wingfoil/src/graph.rs:873-898 | When the engine would block and the sender has notified, every value sent has been emitted, once and in order |
| RealtimeChannel.CarriedAt | wingfoil/src/nodes/channel.rs:133-146 | Each message has its place among the values sent: a real-time value by itself, a group with its whole burst in order, other messages nothing |
| RealtimeChannel.ConcatInOrder | wingfoil/src/nodes/channel.rs:127-151 | What has been emitted are the bursts, one after the other |
| RealtimeChannel.ValuesArriveInOrder | wingfoil/src/nodes/channel.rs:127-151 | Over every interleaving in which the sender pushes `vs` one by one, the emitted bursts concatenate to a prefix of `vs` |
| RealtimeChannel.ValuesArrive | wingfoil/src/graph.rs:873-898 | And to all of `vs` once the sender has notified and the engine would block |
| RealtimeChannel.WakeUpCanBeTaken | wingfoil/src/graph.rs:873-911 | As long as a notified message is unread, the engine has an enabled step towards it |
| RealtimeChannel.RealtimeReceiver.Cycle | wingfoil/src/nodes/channel.rs:127-151 | The real-time branch of the node: what it emits, when it ticks, when it finishes or fails; real-time values are shown one by one, in order |
| RealtimeChannel.DrainIsPayloads | wingfoil/src/nodes/channel.rs:127-151 | A drain takes exactly the payloads up to the first end marker or error |
| RealtimeChannel.DrainStopsAt | wingfoil/src/nodes/channel.rs:127-151 | The first end marker or error stops the drain and is what it reports |
| RealtimeChannel.BurstIsDrain | wingfoil/src/nodes/channel.rs:127-151 | While it drains, the receiver of the state machine has collected exactly what the node's own loop collects from the messages read since it started, over every interleaving |
| Demuxing.DemuxMap.constructor | wingfoil/src/nodes/demux.rs:73-81 | All slots are free |
| Demuxing.DemuxMap.Release | wingfoil/src/nodes/demux.rs:83-97 | Closing frees the key's slot; an unknown key is sent to a free slot without claiming it; the partition is kept |
| Demuxing.DemuxMap.GetOrInsert | wingfoil/src/nodes/demux.rs:99-120 | A live key keeps its slot; a new one takes a free slot, or the overflow exactly if there is none; the partition is kept |
| Demuxing.DemuxMap.PeekAvailable | wingfoil/src/nodes/demux.rs:122-124 | Some free slot, or none exactly if none is free |
| Demuxing.PartitionKept | wingfoil/src/nodes/demux.rs:83-124 | Slots 0..size stay partitioned into free and assigned ones, and no two keys share one |
| Demuxing.KeyKeepsSlot | wingfoil/src/nodes/demux.rs:83-124 | Over every run of lookups a key keeps its slot, or the overflow, until its own close, and its items their row |
| Demuxing.LiveKeysAreApart | wingfoil/src/nodes/demux.rs:83-124 | Until a key's close no item of another key lands in its slot, or in the slot's row |
| Demuxing.LiveKeysMarkApart | wingfoil/src/nodes/demux.rs:400-428 | Nor does it mark the child of that slot; the key's own item marks it |
| Demuxing.RowsOfEntries | wingfoil/src/nodes/demux.rs:400-428 | The row of a slot is the slot's own index, and the overflow's row is behind all of them |
| Demuxing.OverflowIffFull | wingfoil/src/nodes/demux.rs:83-124 | A key that is not live goes to the overflow if and only if live keys hold every slot; otherwise it gets one that nobody holds |
| Demuxing.DemuxParent.Cycle | wingfoil/src/nodes/demux.rs:260-276 | One item: the child at the index of its key's slot is marked, or the overflow child |
| Demuxing.DemuxVecParent.Cycle | wingfoil/src/nodes/demux.rs:400-428 | A burst: the rows are the items sorted by slot, the marks are the children touched, and the lookups form a run of the slot map; each item marks the child at the index of its slot, or the overflow child |
| Demuxing.RowIsSelection | wingfoil/src/nodes/demux.rs:400-428 | A row holds exactly the items sent to it, each once, in source order |
| Demuxing.RowsConserve | wingfoil/src/nodes/demux.rs:400-428 | The rows together are the burst, as a multiset |
| Demuxing.ChildRunsThisCycle | wingfoil/src/nodes/demux.rs:456-471 | Because of its passive edge a child lies in a higher layer, runs in the very cycle in which it is marked, and then shows exactly its row; an unmarked child does not run |
| Demuxing.BurstReachesChildren | wingfoil/src/nodes/demux.rs:400-471 | If the parent replies with its rows and the marks of the rows touched, then in the same engine cycle exactly the children of non-empty rows reply, each with exactly its row, and the rows together are the burst |
| Moments.RemoveInvertsPush | wingfoil/src/adapters/statistics.rs:257-282 | Removing what was just pushed restores the accumulator exactly |
| Moments.PushRepresents | wingfoil/src/adapters/statistics.rs:245-255 | Pushing gives the accumulator of one more contribution |
| Moments.RemoveRepresents | wingfoil/src/adapters/statistics.rs:262-282 | Removing the oldest contribution gives the accumulator of the rest, and the negative-m2 clamp never acts |
| Moments.RepresentsTextbook | wingfoil/src/adapters/statistics.rs:236-310 | The accumulator holds the weighted mean and the weighted sum of squared deviations from it |
| RollingMoments.WeightedMoments.Push | wingfoil/src/adapters/statistics.rs:245-255 | Updates the fields as West's recurrence says |
| RollingMoments.WeightedMoments.Remove | wingfoil/src/adapters/statistics.rs:262-282 | Updates the fields as the inverse recurrence says, clamp and reset included |
| RollingMoments.WeightedMoments.Output | wingfoil/src/adapters/statistics.rs:284-310 | Mean and variance agree with the textbook on whatever has been accumulated, for both weightings |
| RollingMoments.RollingMomentStream.Cycle | wingfoil/src/adapters/statistics.rs:413-452 | After every tick the value is the textbook moment over exactly the samples in the window (count or time), each time weight being the gap to the successor |
| RollingMoments.RollingMomentStream.Evict | wingfoil/src/adapters/statistics.rs:479-493 | Evicts exactly the samples outside the window |
| RollingMoments.MomentStream.Cycle | wingfoil/src/adapters/statistics.rs:341-383 | The same over everything seen so far |
| RollingMoments.RollingSumStream.Cycle | wingfoil/src/adapters/statistics.rs:645-659 | The running total is the sum of the last min(window, n) samples |
| SampleMoments.CountMoments | wingfoil/src/adapters/statistics.rs:236-310 | By count: the mean is the sum of the samples over their number, the variance the sum of their squared distances from it over one less, nothing for fewer than two |
| SampleMoments.TimeMoments | wingfoil/src/adapters/statistics.rs:236-310 | By time: the mean is the sum of each sample times its duration over the time spanned, the variance that of the squared distance from it; the current sample and nothing if no time has passed |
| RollingExtreme.RollingExtremeStream.Cycle | wingfoil/src/adapters/statistics.rs:700-734 | After every tick the value is one of the last min(window, n) samples, and none of them is smaller (for a minimum) or greater (for a maximum); the deque is not empty; pops never exceed pushes |
| RollingExtreme.FrontIsExtreme | wingfoil/src/adapters/statistics.rs:728-733 | The front of the deque is the brute-force extreme of the window |
| RollingExtreme.PushStandsFor | wingfoil/src/adapters/statistics.rs:705-717 | Dropping dominated candidates loses no answer |
| RollingExtreme.DropStandsFor | wingfoil/src/adapters/statistics.rs:719-727 | Dropping stale candidates loses no answer |
| Median.MedianOfSorted | wingfoil/src/adapters/statistics.rs:877-894 | The crossing loop returns the midpoint of lower and upper median and ends before it runs out of samples, so the final fallback is unreachable |
| Median.WeightedMedian | wingfoil/src/adapters/statistics.rs:864-895 | The median of the weighted samples, zero weights included; the latest sample exactly if none has weight |
| Median.MedianSplitsInHalf | wingfoil/src/adapters/statistics.rs:864-895 | The weight strictly below and the weight strictly above the result are each at most half |
| Median.SidesAreSums | wingfoil/src/adapters/statistics.rs:864-895 | Those weights and the total are sums over the samples |
| Median.MedianUnique | wingfoil/src/adapters/statistics.rs:864-895 | There is only one such value |
| Median.MedianOfPermutation | wingfoil/src/adapters/statistics.rs:876-876 | It does not depend on how ties are ordered |
| Median.UnitWeightsGiveOrdinaryMedian | wingfoil/src/adapters/statistics.rs:864-895 | With unit weights: the middle sample, or the average of the two middle ones |
| Median.WindowStream.Cycle | wingfoil/src/adapters/statistics.rs:784-812 | After every tick, the median of exactly the retained samples, each with weight one, or with the time until the next sample (until now for the newest) |
| TimeSlices.ComputeTimeSlices | wingfoil/src/adapters/common.rs:155-223 | The slices form a gapless chain from the period boundary at or before the start; every slice starts at midnight plus iteration times period, ends a period later or at midnight, and fits 64 bits at every step |
| TimeSlices.ShortPeriodsAreInRange | wingfoil/src/adapters/common.rs:160-162 | Every positive period up to a day is within range for every end |
| TimeSlices.SliceDay | wingfoil/src/adapters/common.rs:182-219 | The slices of one day reach its end, or the end of the run |
| TimeSlices.SlicesAreContiguous | wingfoil/src/adapters/common.rs:155-223 | Adjacent slices meet, the first contains the start, the last reaches the end and starts before it |
| TimeSlices.WithinOneDay | wingfoil/src/adapters/common.rs:155-223 | No slice straddles midnight |
| TimeSlices.SlicesPartitionTheRun | wingfoil/src/adapters/common.rs:27-37 | Every instant of the run is kept by exactly one slice's clamped window, every other instant by none |
| TimeSlices.ConversionsStayInRange | wingfoil/src/time.rs:75-86 | All end points stay within signed 64 bits if and only if the last slice does not overflow |
| TimeSlices.LastDayOverflows | wingfoil/src/time.rs:75-77 | An hourly run up to the last representable nanosecond does overflow |
| TimeSlices.FromKdbExact | wingfoil/src/time.rs:75-77 | Addition and cast together give the exact time |
| TimeSlices.ComputeValidatedTimeSlices | wingfoil/src/adapters/common.rs:115-142 | Slices if and only if period, start and end are given and bounded; otherwise which of the four errors |
| TimeSlices.WindowFilter.Keep | wingfoil/src/adapters/common.rs:71-78 | Keeps a row if and only if it is in the window, and counts the others |
| TimeSlices.WindowFilter.FilterRows | wingfoil/src/adapters/common.rs:46-56 | A batch: the rows inside go through in order, the others are counted |
| Latency.StageStats.Record | wingfoil/src/latency.rs:419-431 | Counts, saturates, tracks extremes and increments one bucket |
| Latency.RecordedSummarises | wingfoil/src/latency.rs:419-431 | The statistics go on describing exactly the deltas recorded |
| Latency.HistogramAddsUp | wingfoil/src/latency.rs:419-431 | The bucket counts add up to the number of samples |
| Latency.StageStats.MeanNs | wingfoil/src/latency.rs:434-436 | The saturated sum over the count, or zero |
| Latency.StageStats.QuantileAtRank | wingfoil/src/latency.rs:441-455 | For every rank, the bound of the bucket of the delta of that rank; every edge case |
| Latency.StageStats.QuantileNs | wingfoil/src/latency.rs:441-455 | For every quantile q in (0, 1] the estimate is that of the delta of the least rank at or above count * q; what it is outside that range and without samples |
| Latency.CrossingBucket | wingfoil/src/latency.rs:446-452 | The first bucket whose cumulative count reaches k is the bucket of the k-th smallest delta |
| Latency.KthOfSorted | wingfoil/src/latency.rs:441-455 | Of deltas in order, the k-th smallest is the one at position k - 1 and no other value |
| Latency.EstimateBounds | wingfoil/src/latency.rs:419-455 | The estimate r for delta d satisfies r <= 2(d + 1), and d + 1 < r if and only if d < 2^63 - 1 |
| Latency.ObservedSummarises | wingfoil/src/latency.rs:487-497 | An observation keeps every stage describing exactly the deltas it was given |
| Latency.LatencyStats.Observe | wingfoil/src/latency.rs:487-497 | Each stage whose stamp and predecessor are set and in order records its delta; the others are unchanged |

## Left out

- The recycle walk after additions (wingfoil/src/graph.rs:1061-1089) and the setup, start, stop and teardown hooks, except that a failing stop makes a removal fail.
- Engine.Graph.ProcessPendingAdditions: removed nodes do not come back as callers, as upstreams to add, or as declared upstreams of new nodes (`EditsAllowed`); a caller removed in the cycle of its own request would leave a live node feeding a dead one.
- The wall clock, the waiting timeout and the end of a real-time run; the real-time clock is not modelled.
- Engine.Graph.InitialiseNode: takes a finite set closed under the declared upstreams, because a walk over infinitely many nodes would not end.
- RunLoop.Scheduler.RunNodes: historical mode only; failing cycles and edits are in `EngineRuns.Run`, which is bounded by a number of cycles only.
- EngineRuns.Run: the nodes' replies do not register nodes to run in every cycle; those are there from the start.
- HistoricalChannel.Limit: the elapsed time wraps around as in an unchecked build; a checked one stops on a time before the start.
- RealtimeChannel.ProtocolKept: one producer per channel; a bounded channel that blocks the producer only removes interleavings.
- TimeSlices.ComputeTimeSlices: times from 2^63 on are excluded, and a period of a day or more must fit in 64 bits after the last midnight.
- Latency.StageStats.Record: a delta of 2^64 - 1 is excluded where the statistics are interpreted, because adding one overflows; the counters are unbounded.
- Latency.StageStats.QuantileNs: the rank is computed in exact arithmetic.
- Standard deviations (a square root of the variance proved here), moving averages, cumulative extremes, and the time-windowed sum, minimum and maximum, which recompute directly.
- `to_stream`, `SenderNode`, a producer that fails to start and the triggered receiver's runs; only the triggered receiver's single cycle is modelled.
- Rounding and NaN.
- `BinaryHeap` layout: the queue is a sequence in pop order.
- Constant, distinct, difference, map and consumer nodes: one branch settles each.
- Network adapters, Python and web bindings, codecs, logging, tracing and graph export.
