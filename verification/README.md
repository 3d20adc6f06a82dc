# noRTL, modelled in Dafny

noRTL runs Python code that builds clocked state machines, transforms them and renders them to
SystemVerilog. This project models what it builds and proves that its transformations, constructs
and components do what they are for. `dafny verify dfyconfig.toml` checks all modules.

Everything about state machines is stated over one clock cycle (module `Cycle`), as the renderer
fixes it; the emitted text has its meaning from IEEE 1800-2017, sections 9.2.2.2 and 9.2.2.4
(`always_comb`, `always_ff`), 10.4.1 and 10.4.2 (blocking and nonblocking assignments), 12.4 and
12.5 (`if`, `case`). A worker's next state is its current one, overridden by every true transition
in list order. At the edge pulsing registers fall to 0 and then the assignments of the *next* states
of all workers are applied, evaluated on the values before the edge. Registers are maps from bits to
values, so slices, truncation and several writers are part of every theorem; operators other than
the logical ones are arbitrary functions.

| files | what they model |
|---|---|
| `Signals`, `Selectors`, `SelectorUpdate`, `Cycle`, `Ownership`, `Engine` | registers and expressions, selector assignments, the clock cycle, registers with one writer, the engine the algorithms change |
| `Breakout*` | state breakout: one state machine becomes two that hand over |
| `MergerModel`, `MergerProof`, `StateMerger` | merging of states with equal signatures |
| `ReachabilityModel`, `ReachabilityProof`, `Reachability` | marking over transitions and forks, and pruning |
| `ForkJoin`, `Join` | the fork protocol these rely on; joining and cancelling threads |
| `EmptyStates` | removal of empty states |
| `Segment*` | subroutines: return address and backup registers against a call stack, up to the clock cycle of the rendered engine |
| `FastForward`, `CopyOut` | fast-forwarding of values, and of results into the callers' slots |
| `ElasticChannel*`, `Rendezvous*` | the two channels |
| `Scratch` | the scratch allocator |
| `ClockGating`, `Encoding` | clock enables; encoded and compressed case statements |

Methods follow the loops of the source and are proved against functions; the lemmas are about these
functions and about runs.

## Findings

Where the code and its documentation differ, the model follows the code.

- A state's transitions are documented as evaluated in order; in the emitted text the *last* true one
  wins. OR-ing transitions in state merging moves conditions forward, which keeps the step exactly under
  the condition of `MergerProof.MergedNextExactly`.
- The signature of a state leaves out the defaults of selectors (`MergerProof.DefaultsDifferentTrace`) and, being
  sorted by target, the order of conditional assignments that overlap (`MergerProof.OverlapDifferentTrace`);
  states that differ only there are merged. `StateMerger.StateMerging` therefore asks that states of a worker
  with the same assignment texts write the same, which `MergerProof.SameTouchingAlike` lets one read off.
- A selector of which only the default is left emits nothing, and without a default a short circuit
  drops the cases before it as well. `Selectors.EmitExactly` and `Selectors.ShortCircuitsExactly` say when
  that matters.
- Flattening a selector lets a nested selector without a matching case and without a default fall through to
  the cases behind it (`Selectors.FlattenMeans`, `Selectors.FlattenLeaks`).
- Pruning does not follow the transitions of the other workers' reset states but keeps them; if a
  fork is unreachable, such a transition is left without its target
  (`Reachability.PruningLeavesDanglingStart`). Constantly false transitions are not followed either.
  `Reachability.PrunedClosed` says exactly when something dangles.
- A second fork in one state would store no metadata, because the result of appending to a list is
  nothing; its closing sync fails, so this is never seen (`ForkJoin.ForkContext.Exit`).
- The recursion check of segments looks at implementations being rendered, so recursion through a
  segment rendered earlier is accepted and loses a return address
  (`SegmentLimits.HiddenRecursionIsLost`). Jumping back to the state after a call, as a while loop
  opened right there does, can lose one too (`SegmentLimits.LoopAfterCallIsLost`).
- The reset values of all registers sit in the main worker's reset state, those of a forked worker's return
  address and backups included. A main thread that goes back there during a forked call clears them, and the
  call returns to the wrong state (`SegmentClearing.ClearedCallIsLost`; harmless exactly when:
  `SegmentProof.ClearingExactly`). An ElasticChannel loses its words in the same way
  (`ElasticChannelProof.ClearedExactly`); a Channel does not mind (`RendezvousCycle.StepMatches`). The idle
  signals of running threads are raised, so that a join does not wait for them (`Join.MainResetMisleads`, exactly
  when: `Join.StepTellsExactly`).
- Cancelling a thread that waits in `receive` or `send` leaves its ready or valid wire up, and the next word is
  taken for received, or a word is received that is not sent any more (`RendezvousCycle.CutShortLeavesWires`,
  exactly when: `RendezvousCycle.WiresTellExactly`).
- Breaking states out moves their worker behind all others. Where a later worker wrote another value to the same
  bit on the same edge, the moved state now wins (`BreakoutClash.BreakOutChangesSignal`, exactly when:
  `BreakoutResult.CycleExactExactly`). Cancelling a thread does not reach states broken out of it
  (`BreakoutProof.CutShortGoesOn`).
- A whole signal overlaps `True` with each of its slices, so a value is forwarded from a slice to the
  whole signal (`FastForward.SliceForwardedExactly`); forwarding also ignores truncation.
- The ElasticChannel's test for a power-of-two depth never fails, and every other depth of 3 or more
  loses words (`ElasticChannelProof.FifoExactlyForPowersOfTwo`).
- `send_multiple` is documented for lists shorter than depth - 2 and accepts depth - 2.
- Removable states that lead round in a circle are removed although transitions may lead to them
  (`EmptyStates.SelfLoopDangles`, exactly when: `EmptyStates.NothingDanglesExactly`).

## Model

| member | source | states |
|---|---|---|
| Signals.WriteRead | src/nortl/renderer/verilog_renderer.py:372-388 | a written register or slice holds the value cut to its width |
| Signals.WriteSame | src/nortl/renderer/verilog_renderer.py:219-260 | writing the value a register or slice already holds changes no bit |
| Cycle.NextIsTarget | src/nortl/renderer/verilog_renderer.py:333-352 | the next state is the current one if no condition holds, else the target of the last true transition |
| Cycle.InputsSeen | src/nortl/renderer/verilog_renderer.py:279-288 | in every cycle of every run each bit of an input is what it is outside |
| Cycle.BitAfterEdge | src/nortl/renderer/verilog_renderer.py:354-391 | bit by bit: after an edge a register holds what the last executed assignment covering the bit wrote, over the workers and the lists of their next states, else 0 if it pulses, else what it held |
| Cycle.BitAfterReset | src/nortl/renderer/verilog_renderer.py:354-371 | after reset every worker is in its reset state and the registers are what the main worker's reset state makes of the power-up values |
| Cycle.EffectSource | src/nortl/renderer/verilog_renderer.py:372-391 | everything the shared output block executes is an assignment of the next state of some worker |
| Cycle.SyncResetSparesRegisters | src/nortl/renderer/verilog_utils/abstractions.py:179-194 | a synchronous reset redirects its worker's state register and nothing else: the registers after the edge are those of the next state it overrides |
| Cycle.RunKeeps | src/nortl/renderer/verilog_renderer.py:354-391 | induction over runs: what reset establishes and every cycle keeps holds in every cycle |
| Ownership.AssignmentStays | src/nortl/renderer/verilog_renderer.py:372-388 | what a worker's next state assigns stays, cut to the width, if no later worker touches those bits on this edge |
| Ownership.RegisterAfter | src/nortl/core/engine.py:311-313 | a register with one writer after an edge of the whole engine: what the writer's next state assigns, cut to its width, or what it held, or 0 if the main worker enters its reset state |
| Engine.CoreEngine.CreateState | src/nortl/core/process.py:187-222 | a new state is empty, has a new name and goes to the end of the worker's list, nothing else changes |
| Selectors.NormaliseMeans | src/nortl/core/state.py:138-195 | for every valuation the normalised selector means what the dictionary means, with short circuits where they are allowed |
| Selectors.ShortCircuitsExactly | src/nortl/core/state.py:178-191 | short circuits change the meaning exactly if, on the way to the value, a level without a default is cut short while an earlier case of it holds with another value |
| Selectors.NormaliseKeepsMeaning | src/nortl/core/state.py:138-195 | so normalisation keeps the first-match meaning of a valuation exactly if short circuits are not allowed or cut nothing that matters |
| Selectors.NeverCutKeepsMeaning | src/nortl/core/state.py:138-195 | for all valuations this holds if every level has a default, no constantly true case, or no other case before it |
| Selectors.ShortCircuitDropsEarlierCases | src/nortl/core/state.py:178-191 | the input for which it fails: without a default {a: 5, 1: 7} becomes {1: 7} |
| Selectors.EmitExactly | src/nortl/renderer/verilog_renderer.py:393-420 | the emitted if / else-if / else chain means the same as the nested cases exactly if no default is lost: one that is reached at a level of which only the default is left |
| Selectors.EmitKeepsMeaning | src/nortl/renderer/verilog_renderer.py:393-420 | this is so for all valuations when each level keeps a case |
| Selectors.FlattenMeans | src/nortl/core/state.py:45-64 | for every selector and valuation the flat list means the nested cases with levels that offer nothing falling through to what is behind them |
| Selectors.FlattensExactly | src/nortl/core/state.py:45-64 | flattening raises exactly if some nested selector has no case |
| Selectors.FlattenKeepsMeaning | src/nortl/core/state.py:45-64 | with the selector's default as fallback it agrees with the nested cases unless such a level is on the way to the value |
| Selectors.PlainDefaultsKeep | src/nortl/core/state.py:45-64 | which never happens if all nested selectors have plain defaults |
| Selectors.FlattenLeaks | src/nortl/core/state.py:45-64 | and an input for which it does: nothing is assigned, but the list gives 7 |
| SelectorUpdate.UpdateCases | src/nortl/core/state.py:138-195 | the loops over default and conditions, with their errors and breaks, compute the normalised selector |
| BreakoutRewrite.MovePartition | src/nortl/algorithms/state_breakout.py:188-198 | the moved states leave the old worker and get copies with the same assignments and transitions |
| BreakoutRewrite.RerouteState | src/nortl/algorithms/state_breakout.py:417-442 | one handled state: crossing transitions stop and are numbered, the selectors announce the numbers |
| BreakoutRewrite.PutExactly | src/nortl/algorithms/state_breakout.py:425-426 | a condition announced twice keeps its first place and gets its last number, a new one is the last; the others keep what they had |
| BreakoutRewrite.RerouteWorker | src/nortl/algorithms/state_breakout.py:409-478 | all states but the reset state are handled in list order with one running number |
| BreakoutRewrite.NumberedInOrder | src/nortl/algorithms/state_breakout.py:399-479 | whatever the transitions and their conditions, all crossings of a worker are numbered 0, 1, 2, ... in order, and there are as many as the width of the select register is made for |
| BreakoutRewrite.SelectWidthExactly | src/nortl/algorithms/state_breakout.py:446-446 | which is one bit more than it takes to tell that many numbers, and one more, apart |
| BreakoutRewrite.GetWaitState | src/nortl/algorithms/state_breakout.py:481-491 | an existing WAIT state is reused, otherwise one is created |
| BreakoutRewrite.BreakOut | src/nortl/algorithms/state_breakout.py:366-478 | the whole rewrite of the engine with a new or an existing WAIT state, including control registers and their widths; the WAIT state is remembered for the next partition, and the engine is in order afterwards exactly if the reset state stays and leads to no moved state, and WAIT is not moved |
| BreakoutRewrite.BrokenOutValid | src/nortl/algorithms/state_breakout.py:366-478 | afterwards every transition leads to a state of its worker, exactly if the reset state is not moved, does not lead to moved states, and the WAIT state is not moved |
| BreakoutResult.HandleClean | src/nortl/algorithms/state_breakout.py:417-442 | what handling does to a state whose crossing transition is its only one |
| BreakoutResult.AnnouncedExactly | src/nortl/algorithms/state_breakout.py:410-442 | a crossing under a condition is taken by the old worker and announced to the new one alike exactly if the condition has the same value before and after the edge into the state |
| BreakoutResult.ResultShape | src/nortl/algorithms/state_breakout.py:366-478 | the rewrite yields the two machines the simulation is about, numbers and widths included |
| BreakoutProof.StepCoupled | src/nortl/algorithms/state_breakout.py:366-478 | one cycle keeps: (old worker in s, new one idle) or (old worker in WAIT, new one in the copy of s), trigger and finish exactly announced |
| BreakoutProof.RunCoupled | src/nortl/algorithms/state_breakout.py:366-478 | this coupling holds in every cycle of every run |
| BreakoutProof.ApartNeverClash | src/nortl/core/checker.py:92-104 | no run clashes if no state of a later worker assigns to a bit that a moved state assigns to; disjoint slices of one register do not matter |
| BreakoutProof.CutShortGoesOn | src/nortl/core/process.py:440-452 | a worker that is reset while a moved state is entered leaves the new worker running |
| BreakoutResult.BreakOutIsCycleExact | src/nortl/algorithms/state_breakout.py:366-478 | breakout is cycle-exact: every register and slice the engine had holds the same value in every cycle of every run, with a new WAIT state or one from earlier breakouts |
| BreakoutResult.CycleExactExactly | src/nortl/algorithms/state_breakout.py:374-396 | and that exactly if at no edge a worker rendered later writes another value to a bit that the moved state being entered writes |
| BreakoutClash.BreakOutChangesSignal | src/nortl/algorithms/state_breakout.py:374-396 | an engine in which it does, and the breakout changes a signal in every run |
| BreakoutResult.FreshSilent | src/nortl/algorithms/state_breakout.py:481-491 | for the first breakout of a worker nothing is asked of its WAIT state |
| BreakoutResult.SilentAfter | src/nortl/algorithms/state_breakout.py:481-491 | afterwards the WAIT state, which serves all breakouts of the worker, leaves for none of them while the worker is elsewhere |
| BreakoutResult.ClashFreeAfter | src/nortl/algorithms/state_breakout.py:374-396 | and the states still to be moved clash with no later worker, the new one included, and are not cut short, if they were not before |
| BreakoutResult.BreakOutsAreCycleExact | src/nortl/algorithms/state_breakout.py:355-364 | so any number of breakouts of a worker, one after another, is cycle-exact, also if their states write the same registers; what the later workers write is asked of the engine before the first one only |
| MergerProof.SignaturesExactly | src/nortl/core/state.py:516-554 | two states have the same signature exactly if their transitions are the same and to every target the same values and cases, nested or not, are assigned in the same order; defaults, and the order between targets, do not matter |
| MergerProof.SameWritesExactly | src/nortl/core/state.py:516-554 | two assignment lists write the same, whatever came before, exactly if for every bit the last executed assignments covering it write the same |
| MergerProof.SameTouchingAlike | src/nortl/core/state.py:516-554 | so they do if to every bit the same assignments apply in the same order |
| MergerProof.DefaultsDifferentTrace | src/nortl/algorithms/state_merger.py:32-80 | an engine in order in every other way whose register trace changes when two states that differ in a default only are merged |
| MergerProof.OverlapDifferentTrace | src/nortl/core/state.py:516-554 | the same for two states that differ in the order of two overlapping conditional assignments |
| MergerProof.SameCasesSameWrites | src/nortl/core/state.py:541-554 | emitted selectors with equal texts, nested or not, write the same exactly if a case down to a value holds or the defaults that are reached write the same |
| MergerProof.MergedNextExactly | src/nortl/algorithms/state_merger.py:53-74 | OR-ing transitions with the same target keeps the step exactly if no true transition's merged target first occurs after that of the last true transition |
| MergerProof.MergedNext | src/nortl/algorithms/state_merger.py:53-74 | with exclusive conditions it always does |
| MergerProof.OverlapChangesStep | src/nortl/algorithms/state_merger.py:53-74 | an input with two true conditions for which it does not |
| MergerProof.MergedExclusive | src/nortl/algorithms/state_merger.py:53-74 | conditions stay exclusive after merging |
| MergerProof.MergedValid | src/nortl/algorithms/state_merger.py:32-80 | after merging a group the worker is in order, no transition leads to a merged state, the reset state is there |
| MergerProof.MergeKeepsTrace | src/nortl/algorithms/state_merger.py:32-80 | merging one group keeps the register trace for every input sequence |
| MergerProof.OtherGroupStays | src/nortl/algorithms/state_merger.py:82-99 | the other groups computed in an iteration stay groups of equal signatures while earlier ones are merged |
| StateMerger.GetSameSignatureStates | src/nortl/algorithms/state_merger.py:11-30 | every state is in exactly one group, together exactly with the states of its signature |
| StateMerger.MergeSameSignatureStates | src/nortl/algorithms/state_merger.py:32-80 | the loops compute the merged worker |
| StateMerger.SingleIteration | src/nortl/algorithms/state_merger.py:82-99 | an iteration that reports merges removed states; one that does not leaves distinct signatures |
| StateMerger.StateMerging | src/nortl/algorithms/state_merger.py:101-145 | the outer loop ends, all signatures within a worker then differ, reset states survive and the trace is kept |
| Reachability.ReachabilityAnalysis.Visit | src/nortl/algorithms/reachability.py:40-68 | the recursion ends, marks only states the visited one leads to, and leaves the visited and all newly marked ones fully explored |
| ReachabilityModel.StartsExactly | src/nortl/algorithms/reachability.py:61-68 | the start of a forked thread is the first listed state of its worker with this fork ID |
| Reachability.ReachabilityAnalysis.Analyse | src/nortl/algorithms/reachability.py:21-38 | it marks exactly the reset states and what the main reset state leads to over transitions and forks |
| Reachability.LeadsInto | src/nortl/algorithms/reachability.py:40-68 | every closed marking contains these states: the marking is the least one |
| Reachability.ReachabilityAnalysis.PruneUnreachableStates | src/nortl/algorithms/reachability.py:70-79 | exactly the unmarked states go, and under the fork protocol the trace is kept |
| ReachabilityProof.EffectsTame | src/nortl/core/constructs/fork_join.py:119-137 | however the workers' writes interleave, a raised start pulse comes with the ID of a thread that a marked state forks |
| ReachabilityProof.NextMarked | src/nortl/algorithms/reachability.py:53-68 | a marked state's successor is marked, also an idle worker's |
| ReachabilityProof.RunSafe | src/nortl/algorithms/reachability.py:21-68 | no run of any worker ever enters an unmarked state |
| ReachabilityProof.PruningKeepsRuns | src/nortl/algorithms/reachability.py:70-79 | deleting the unmarked states keeps every run, state by state |
| Reachability.PrunedClosed | src/nortl/algorithms/reachability.py:70-79 | nothing dangles after pruning exactly if every thread an idle worker may start is marked, and every target of a constantly false transition |
| Reachability.PruningLeavesDanglingStart | src/nortl/algorithms/reachability.py:70-79 | a thread forked only in an unreachable state is removed, the transition that starts it stays |
| ForkJoin.SelectFits | src/nortl/core/process.py:167-169 | the select register holds the ID of every thread, with one bit more than it takes to tell them apart |
| ForkJoin.ForkContext.CreateWorker | src/nortl/core/process.py:143-165 | a new worker with its control signals and reset values keeps graph, protocol and idle signals |
| ForkJoin.ResetValues | src/nortl/core/process.py:143-165 | after reset nothing is asked of the new worker, and its idle signal is 1 |
| ForkJoin.ForkContext.Enter | src/nortl/core/constructs/fork_join.py:69-103 | a thread gets the next ID, its start state, idle transition and first sync; graph, protocol and idle signals hold |
| ForkJoin.ForkContext.Sync | src/nortl/core/engine.py:497-508 | a sync keeps graph, protocol and idle signals, and fails exactly if the state has transitions |
| ForkJoin.ForkContext.Start | src/nortl/core/constructs/fork_join.py:119-135 | the state starts the thread and names it in its metadata, or fails exactly where the control signals may not be set |
| ForkJoin.ForkContext.Exit | src/nortl/core/constructs/fork_join.py:105-137 | the body is finished: without transitions at its end it gets a last state that raises the idle signal and goes back to the idle state; the checkpoint state starts the thread and is synced; this fails exactly where it may not set the control signals or has transitions, as after another fork there; graph, protocol and idle signals hold |
| ForkJoin.ForkContext.Finish | src/nortl/core/process.py:454-457 | the thread goes back to the idle state and raises the idle signal; what the idle signals tell is kept |
| ForkJoin.ForkContext.Cancel | src/nortl/core/process.py:440-452 | two syncs with the reset signal raised and taken back, and the idle signal raised; refused exactly where the reset signal may not be set or the state has transitions |
| ForkJoin.CancelledCancels | src/nortl/core/process.py:440-452 | the states of a cancel are those of `Join.CancelTells` |
| ForkJoin.ExitedJoins | src/nortl/core/constructs/fork_join.py:119-137 | the states of a fork and a join right after it are those of `Join.JoinSeesItsThread` |
| ForkJoin.EnteredKeeps | src/nortl/core/constructs/fork_join.py:69-103 | after entering, the ID finds the new start state, the idle state leads there when the thread is asked for, and idle workers only leave for threads they are asked to start |
| ForkJoin.ExtendedKeeps | src/nortl/core/constructs/fork_join.py:110-117 | any transition and assignments to other signals keep graph and protocol outside the idle states |
| ForkJoin.ForkingKeeps | src/nortl/core/constructs/fork_join.py:119-137 | after leaving, whoever drives a start signal names the thread in its metadata |
| Join.StepTellsExactly | src/nortl/core/process.py:454-457 | an idle signal that is 1 exactly while its worker is idle, or in the last state of a thread, is so after an edge exactly unless, while the thread goes on, the worker is reset without another one raising the signal, or the other way round |
| Join.IdleTellsExactly | src/nortl/core/process.py:409-421 | so it tells in every cycle of a run where its worker is exactly if no edge of the run does that |
| Join.JoinWaits | src/nortl/core/process.py:409-421 | a join then goes on exactly when the worker is idle or in the last state of its thread |
| Join.JoinSeesItsThread | src/nortl/core/constructs/fork_join.py:119-137 | a join right after the fork waits: two edges after the fork the thread is in its start state and the idle signal is 0 |
| Join.CancelTells | src/nortl/core/process.py:440-452 | after a cancel the worker is idle and its idle signal 1, unless it would just have entered a start state behind the cancelling worker |
| Join.MainResetMisleads | src/nortl/core/engine.py:311-313 | if the main worker enters its reset state while a thread goes on, the idle signal is 1 although the worker is not idle |
| EmptyStates.LeadsOut | src/nortl/algorithms/empty_state_removal.py:131-160 | a redirected transition leads to a survivor exactly if a chain of removed states from its old target does |
| EmptyStates.ChainUnique | src/nortl/algorithms/empty_state_removal.py:131-160 | there is only one such chain, so the new target is the first survivor |
| EmptyStates.RemoveInOrder | src/nortl/algorithms/empty_state_removal.py:162-179 | one pass in any order of the removable states, cycles included, redirects every transition over removed states |
| EmptyStates.AnyOrderSame | src/nortl/algorithms/empty_state_removal.py:162-179 | where all chains get out, the order makes no difference |
| EmptyStates.CollapsedTargets | src/nortl/algorithms/empty_state_removal.py:131-179 | conditions and assignments stay; a surviving transition leads to a survivor exactly if a chain from its old target does, and then to that one |
| EmptyStates.NothingDanglesExactly | src/nortl/algorithms/empty_state_removal.py:131-179 | the worker is in order after the pass exactly if the reset state is not removable and every chain that a survivor leads into gets out again |
| EmptyStates.AcyclicGetsOut | src/nortl/algorithms/empty_state_removal.py:162-179 | without cycles of removable states they all do |
| EmptyStates.SamePaths | src/nortl/algorithms/empty_state_removal.py:131-179 | paths between survivors are the same in both directions once removed states are erased |
| EmptyStates.EmptyStateRemoval | src/nortl/algorithms/empty_state_removal.py:162-179 | the loop over all workers: a state is missing afterwards exactly if it had no assignments, exactly one transition, constantly true, and was collapsable; all others keep their assignments; the engine is in order afterwards exactly under the conditions above |
| EmptyStates.SelfLoopDangles | src/nortl/algorithms/empty_state_removal.py:131-160 | the input for which it is not: a removable state that leads to itself |
| SegmentProof.EnterAfterCall | src/nortl/core/constructs/segment.py:880-900 | entering the state after a call restores the return address and every older frame, or chains the next call with the old value in its backup |
| SegmentProof.ReturnIsUnique | src/nortl/core/constructs/segment.py:862-864 | exactly one transition of an end state matches a call's ID, namely that call's |
| SegmentProof.StepRefines | src/nortl/core/constructs/segment.py:834-900 | one cycle of the compiled machine is one cycle of the machine with the call stack, whatever the registers hold while no call is open |
| SegmentProof.CallsRefineStack | src/nortl/core/constructs/segment.py:834-900 | in every cycle of every run both are in the same state and the return address is the ID of the newest unreturned call |
| SegmentProof.ReturnsToNewestCall | src/nortl/core/constructs/segment.py:862-864 | in a run, an end state has exactly one true transition, that of the most recent unreturned call |
| SegmentProof.ClearingExactly | src/nortl/core/engine.py:311-313 | clearing all registers of the worker as it enters a state does no harm exactly if every address that an unreturned call has to find again is 0 or written by that state |
| SegmentCycle.StepCoupled | src/nortl/renderer/verilog_renderer.py:333-391 | one clock cycle of the rendered engine, other workers, synchronous resets and the main worker's reset values included, is one cycle of the machine with the call stack |
| SegmentCycle.EngineRefinesStack | src/nortl/core/constructs/segment.py:834-900 | in every cycle of every run of the rendered engine, for all inputs, any worker, main or forked, is in the state of the machine with the call stack and its return address register holds the ID of the newest unreturned call, unless the main worker clears registers that are needed |
| SegmentCycle.MainRefinesStack | src/nortl/core/constructs/loop.py:130-164 | the main worker needs no such condition, also where a loop goes back to the reset state |
| SegmentCycle.QuietSpared | src/nortl/core/process.py:454-457 | a forked worker is safe if the main worker enters its reset state only while no call is open there |
| SegmentClearing.ClearedCallIsLost | src/nortl/core/engine.py:311-313 | an engine whose forked thread runs its second call twice because the main thread looped to its reset state meanwhile |
| SegmentCompiler.SegmentContext.GetReturnAddress | src/nortl/core/constructs/segment.py:155-176 | the return address grows exactly as far as the IDs need |
| SegmentCompiler.SegmentContext.PushReturnAddress | src/nortl/core/constructs/segment.py:880-900 | the ID is pushed, a value being restored in the same state goes to the own backup |
| SegmentCompiler.SegmentContext.EmitCall | src/nortl/core/constructs/segment.py:834-877 | the states, assignments and transitions of a call, with or without protective syncs |
| SegmentCompiler.SegmentContext.CallSegment | src/nortl/core/constructs/segment.py:834-877 | a call is refused exactly if some open segment, the innermost one included, has this implementation; otherwise it is emitted, and keeps the program well-formed, also in the reset state |
| SegmentCompiler.SegmentContext.BeginRender | src/nortl/core/constructs/segment.py:743-756 | rendering is refused exactly if some open segment, the innermost one included, has this implementation, so no two open segments ever have the same |
| SegmentCompiler.SegmentContext.EndRender | src/nortl/core/constructs/segment.py:797-832 | a rendered segment keeps the program well-formed exactly if its body did not reach its own implementation and its end state has no transitions |
| SegmentCompiler.SegmentContext.Sync | src/nortl/core/engine.py:497-508 | a sync keeps it well-formed and fails if there are transitions |
| SegmentCompiler.SegmentContext.JumpIf | src/nortl/core/engine.py:536-603 | a jump keeps it well-formed exactly if the target may be entered from here, which it may if every backup register that holds the return address there holds it here |
| SegmentCompiler.JumpAllowedExactly | src/nortl/core/engine.py:536-603 | among the states of a procedure the target may be entered exactly under this condition |
| SegmentCompiler.CoveredExactly | src/nortl/core/engine.py:536-603 | what is looked up for a jump is whether the target is under construction in the same procedure and may be entered |
| SegmentCompiler.CalledWellFormed | src/nortl/core/constructs/segment.py:834-900 | any call of a finished segment, chained or not, also one made in the reset state, keeps the program well-formed |
| SegmentLimits.CompileHiddenRecursion | src/nortl/core/constructs/segment.py:743-756 | the compiler's steps for recursion through a segment rendered earlier: none fails, and they emit this program |
| SegmentLimits.HiddenRecursionIsLost | src/nortl/core/constructs/segment.py:743-756 | in which a backup is overwritten and a segment never returns |
| SegmentLimits.CompileLoopAfterCall | src/nortl/core/constructs/loop.py:130-164 | the compiler's steps for a while loop opened right after a call: none fails, and they emit this program |
| SegmentLimits.LoopAfterCallIsLost | src/nortl/core/constructs/loop.py:130-164 | in which the loop head restores another call's address and the segment never returns |
| FastForward.FastForwarder.Forward | src/nortl/core/constructs/utils.py:27-73 | the loops return the forwarded value and record whether a sync is needed |
| FastForward.OverlapsExactly | src/nortl/core/signal.py:492-494 | slices of one signal are apart exactly if they share no bit and overlap fully exactly if they are the same; a whole signal overlaps fully with all of its slices, a slice partially with the whole signal |
| FastForward.ForwardedSignalExact | src/nortl/core/constructs/utils.py:27-73 | a forwarded signal's value before the edge is its value after it exactly if it fits the signal |
| FastForward.ForwardedExpressionExact | src/nortl/core/constructs/utils.py:27-73 | any other value is forwarded only if nothing it reads changes |
| FastForward.SliceForwardedExactly | src/nortl/core/signal.py:492-494 | a whole signal of which a slice is assigned last is forwarded as the slice's value; if that fits the slice, it is the signal's value exactly if all other bits are 0 and the slice starts at bit 0 or the value is 0 |
| FastForward.SliceForwardedAsWhole | src/nortl/core/signal.py:492-494 | an input for which it is not |
| FastForward.GuardHoldsAhead | src/nortl/core/constructs/segment.py:902-912 | in every cycle of every run the guard before the edge holds exactly if the return address equals the ID after it |
| CopyOut.AddAssignmentCase | src/nortl/core/constructs/utils.py:81-102 | the loop adds the case to the slot's selector, creates one, or fails on any other assignment to it |
| CopyOut.NextCall | src/nortl/core/constructs/utils.py:81-102 | every further call with the slot adds its ID to the same selector |
| CopyOut.CopyOutExact | src/nortl/core/constructs/segment.py:1037-1103 | after an engine's edge into the end state the slot shared by several calls holds the result exactly if the return address then is the ID of one of them, and otherwise what it held |
| ElasticChannel.Channel.NextReceived | src/nortl/components/channel.py:170-175 | the multiplexer chain selects the word at the read pointer, 0 if there is none |
| ElasticChannel.Channel.NewData | src/nortl/components/channel.py:175-185 | the word goes to the slot at the write pointer and nowhere else |
| ElasticChannel.Channel.SendMultiple | src/nortl/components/channel.py:239-240 | lists longer than depth - 2 are refused, and no others |
| ElasticChannel.Channel.MultipleData | src/nortl/components/channel.py:246-253 | the nested loops store the reversed list from the write pointer on, modulo the depth |
| ElasticChannel.Channel.Clock | src/nortl/components/channel.py:187-285 | one edge of both workers computes the protocol step |
| ElasticChannel.Channel.ClockFifo | src/nortl/components/channel.py:187-285 | for a power-of-two depth the edge keeps the channel a FIFO |
| ElasticChannelProof.ProducerKeeps | src/nortl/components/channel.py:187-258 | sending overwrites no unread slot and keeps the FIFO invariant |
| ElasticChannelProof.StepKeeps | src/nortl/components/channel.py:187-285 | an edge with producer and consumer moving at once keeps: sent = received ++ unread slots, level at most depth - 2, a list last item first |
| ElasticChannelProof.ChannelIsFifo | src/nortl/components/channel.py:155-285 | for power-of-two depths this holds in every cycle of every run with any stalls |
| ElasticChannelProof.SentIsOffered | src/nortl/components/channel.py:187-258 | in every run what is sent is exactly what was handed over: the words given to `send` when they were stored, the lists given to `send_multiple` last item first |
| ElasticChannelProof.ReceivedInOrder | src/nortl/components/channel.py:155-285 | for power-of-two depths what is received is, in every cycle, the beginning of what was handed over |
| ElasticChannelProof.FifoExactlyForPowersOfTwo | src/nortl/components/channel.py:140-157 | from depth 3 on, words arrive in order and the level counts them in every run exactly if the depth is a power of two |
| ElasticChannelProof.ClearedExactly | src/nortl/core/engine.py:311-313 | when the main worker goes back to its reset state the channel stays a FIFO exactly if it is empty |
| ElasticChannelProof.NeverDeadlocked | src/nortl/components/channel.py:211-279 | from depth 3 on: whenever in a run both sides wait, one of them goes on at the next edge |
| ElasticChannelProof.NothingSent | src/nortl/components/channel.py:211-211 | with depth 2 or less nothing is ever sent in any run, and a waiting send waits forever |
| ElasticChannelProof.ProducerProceeds | src/nortl/components/channel.py:211-241 | while the consumer keeps receiving, every send completes within a bound |
| Rendezvous.IsRendezvous | src/nortl/components/channel.py:52-109 | valid is 1 exactly while the sender waits, ready exactly while the receiver waits, received and sent words are the same |
| Rendezvous.FinishTogether | src/nortl/components/channel.py:52-109 | both sides complete on the same edge, exactly when both wait |
| Rendezvous.WaitsForPartner | src/nortl/components/channel.py:52-109 | a waiting side completes in the second edge after the other side starts to wait |
| Rendezvous.Channel.Clock | src/nortl/components/channel.py:52-109 | one edge of both workers keeps the rendezvous and hands over the word |
| RendezvousCycle.StepMatches | src/nortl/renderer/verilog_renderer.py:333-391 | one clock cycle of the rendered engine is one edge of the rendezvous, other workers and the main worker's reset values included |
| RendezvousCycle.EngineIsRendezvous | src/nortl/components/channel.py:52-109 | in every run of the rendered engine both workers finish on the same edge, exactly when both were waiting, and the receiver's register, a scratch slice or not, then holds the word unless a later worker writes there on this edge |
| RendezvousCycle.WiresTellExactly | src/nortl/core/process.py:440-452 | after a cycle valid and ready mirror the waiting sides exactly if neither side was reset on entering, or staying in, its waiting state |
| RendezvousCycle.CutShortLeavesWires | src/nortl/core/process.py:440-452 | a receiver reset then leaves ready at 1, a sender leaves valid at 1 |
| Scratch.CallStackIsAncestors | src/nortl/core/process.py:459-469 | the call stack of a thread consists of exactly the threads that a chain of parents leads to |
| Scratch.ReleasedExactly | src/nortl/core/signal.py:887-889 | to a thread that is not the owner a signal is unreleased exactly if the owner is active or, unless the asker is its parent, some active ancestor of the owner is no ancestor of the asker |
| Scratch.UsedExactly | src/nortl/core/manager/scratch_manager.py:187-204 | so a bit counts as used exactly if a signal of the asker that is not released covers it, or one of another thread that is in use in this sense |
| Scratch.AliveIsUsed | src/nortl/core/signal.py:849-889 | a live signal of an active owner is unreleased whoever asks |
| Scratch.AnswersDiffer | src/nortl/core/signal.py:849-889 | a signal its running owner released is released to the owner only |
| Scratch.Encode | src/nortl/core/manager/scratch_manager.py:206-220 | the run-length encoding describes the map and neighbouring runs differ |
| Scratch.FirstFit | src/nortl/core/manager/scratch_manager.py:217-222 | the first fitting run starts at the least free window; none fits exactly if there is no window |
| Scratch.MemoryZone.ScratchMap | src/nortl/core/manager/scratch_manager.py:187-204 | a bit is marked exactly if a signal unreleased to the asking thread covers it |
| Scratch.MemoryZone.Alloc | src/nortl/core/manager/scratch_manager.py:206-227 | the least free start; the pad grows once, by the width, exactly if there is none |
| Scratch.MemoryZone.CreateSignal | src/nortl/core/manager/scratch_manager.py:334-342 | the new signal belongs to the running thread, unreleased and counting no contexts, and is apart from every live one; the pad is never wider than all signals created |
| Scratch.MemoryZone.Release | src/nortl/core/signal.py:912-924 | only the owner releases, and only in the context where the signal was created |
| Scratch.MemoryZone.Context | src/nortl/core/signal.py:795-818 | the context counters of all signals of the view when a condition or loop begins or ends |
| Scratch.ReleasedWithContext | src/nortl/core/signal.py:795-818 | a signal stays in use until the context where it was created ends, and is released on its own then |
| Scratch.MemoryZone.Join | src/nortl/core/process.py:409-417 | the thread ends and its signals in the active view are released; the main thread cannot end |
| Scratch.MemoryZone.Cancel | src/nortl/core/process.py:440-452 | exactly the thread and its descendants end, and exactly their signals in the active view are released |
| Scratch.NoSharedBit | src/nortl/core/manager/scratch_manager.py:187-227 | two live signals of a view share no bit and lie inside the pad |
| ClockGating.CreateChecks | src/nortl/renderer/verilog_renderer.py:219-260 | the loops generate exactly the checks of a state's assignments and of the pulsing signals it leaves out |
| ClockGating.ChecksExactly | src/nortl/renderer/verilog_renderer.py:236-256 | a pulsing signal is checked exactly in states that do not assign it, whole and unconditionally; there is one check more for each assignment, always raised for a conditional one |
| ClockGating.OutputOpensExactly | src/nortl/renderer/verilog_renderer.py:219-260 | the output enable is 1 exactly if the next state of some worker has a conditional assignment, one whose value differs from what its target holds, or leaves out a pulsing signal that is not 0 |
| ClockGating.ClocksExactly | src/nortl/renderer/verilog_renderer.py:194-217 | a worker's clock runs exactly if its state changes or it is reset, the engine's exactly if some worker's does, an output may change, or a sub-module asks for it |
| ClockGating.GatesHold | src/nortl/renderer/verilog_renderer.py:194-217 | a closed output gate holds every register, an open one holds none back, for every design |
| ClockGating.ClosedGateHidesNothing | src/nortl/renderer/verilog_renderer.py:219-260 | with the output enable at 0 the ungated block would change no register, with several workers, pulsing, slices and truncation |
| ClockGating.GatedStepSame | src/nortl/renderer/verilog_renderer.py:181-217 | one edge behind all gates is one ungated edge |
| ClockGating.GatingIsTransparent | src/nortl/renderer/verilog_renderer.py:109-260 | gated and ungated engine agree in every cycle, for every input and clock request |
| Encoding.BitsNeededExactly | src/nortl/renderer/verilog_utils/abstractions.py:405-411 | the binary width is the least, at least 1, that tells the states apart |
| Encoding.Encode | src/nortl/renderer/verilog_utils/abstractions.py:516-540 | shifting and masking packet by packet yields the multi-hot word |
| Encoding.MultiHotDecodes | src/nortl/renderer/verilog_utils/abstractions.py:405-411 | encoding has a left inverse below the number of states and fills the register |
| Encoding.OneHotPerPacket | src/nortl/renderer/verilog_utils/abstractions.py:516-540 | every packet has exactly one hot bit |
| Encoding.OneHotDecodes | src/nortl/renderer/verilog_utils/abstractions.py:348-353 | the one-hot word has one hot bit, whose place from the left is the state |
| Encoding.CompressCases | src/nortl/renderer/verilog_utils/process.py:185-208 | each kept label is listed once, with its own block, and blocks differ |
| Encoding.CompressionKeepsSelection | src/nortl/renderer/verilog_utils/process.py:185-208 | a label selects the same block as before compression |
| Encoding.CompressedExactly | src/nortl/renderer/verilog_utils/process.py:185-208 | a label with a block executes that block and one without executes nothing; in a unique statement every label is listed |
| Encoding.EncodedSelectsSame | src/nortl/renderer/verilog_utils/abstractions.py:473-490 | encoded, compressed case statements execute the block of the state, one-hot or multi-hot, for every number of states and packet size |

## Left out

- Breakout of a partition that an earlier one leads into (so that the WAIT state would lead there), and crossings
  under conditions: not cycle-exact, since a condition is announced one cycle early
  (`BreakoutResult.AnnouncedExactly`). The search for partitions only proposes.
- BreakoutResult.BreakOutIsCycleExact: needs each crossing transition to be the only, constantly true one of
  its state, no crossing at the reset state, no synchronous reset on the way into or through the moved states, and
  no clash with a worker rendered later. Select registers have their final width from the start.
- BreakoutResult.BreakOutsAreCycleExact: the same, for all moved states together; each partition meets the
  structural conditions in the engine it finds.
- Selectors.FlattenKeepsMeaning: one way; where a level leaks, the cases behind it may still give the same value.
- MergerProof.MergeKeepsTrace: needs exclusive conditions, and that states with equal assignment texts write
  the same; the text of a signature is taken to be injective otherwise, its sorting as grouping by target.
- ReachabilityProof.RunSafe: takes the fork protocol as given; `ForkJoin` shows that forks and new
  workers keep it, not that other code leaves the control signals alone. Port widths are the final
  ones.
- SegmentProof.CallsRefineStack: the end state of a segment has no transitions of its own.
- SegmentCycle.EngineRefinesStack: for a forked worker the main worker's reset state must not clear registers
  that are needed, otherwise it is false; a worker that others reset, by a fork or a cancel, calls nothing in
  its own reset state, where its thread never is; call IDs fit their registers from the start.
- SegmentCompiler.SegmentContext.JumpIf: what is exact is keeping the program well-formed; a jump that does not
  need not lose an address, since the IDs of two calls can be the same number.
- SegmentCompiler.SegmentContext.CallSegment: input and result slots appear only as the decision
  whether they need a sync.
- Scratch.MemoryZone.Alloc: one zone at a time; other zones only decide whether it is the active one.
  `reclaim`, recovered views and slices of scratch signals are not modelled.
- ElasticChannelProof.ChannelIsFifo: the edges of producer and consumer are those of their waiting, storing and
  taking states, not of states in an engine as for `RendezvousCycle`, and the main worker is not in its reset state
  meanwhile; words have the channel's width; the level expression is taken without the widths of its parts, which
  matters only for depths that lose words anyway.
- RendezvousCycle.EngineIsRendezvous: neither side is reset synchronously while it waits.
- Expression widths and constant folding of the emitted Verilog: conditions are predicates, operators
  functions.
- States are names with attributes in a map instead of objects, so aliasing of state objects is not
  captured.
- Access checks, modifiers, scratch access after release: the single-writer discipline they enforce is
  a precondition where it is needed.
- Print handlers, coverage, tracing, diagrams, simulators, module instances and the library modules
  (timers, edge detectors, synchronisers): text output or other files.
