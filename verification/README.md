# rtsys: verified models of rthsm, rtfifo, rttest and the base-2 conversions of rtplf

A Dafny model of four parts of rtsys, proved for all inputs. `dafny verify dfyconfig.toml` checks it.

**The state machine engine (rthsm).** `HsmTable` has the tables an application writes, the constraints
of the header stated on ids alone, and the linked pointers. `HsmInit` is the checking and linking of
`RTHsmInit`, in place on the state array. `RtHsm.Hsm` is the machine object: its methods follow
`RTHsmStep` and its helpers loop by loop, over a queue of raw bytes, and every `RTASSERT` they execute
is an `assert`. They are proved against `HsmSpec.Step`, which has no loops: it reads the callbacks off
the root paths (`HsmPaths`) of the current state and of the destination, up to their longest common
prefix. `HsmRuns`, `HsmTheorems` and `HsmTransitions` prove what holds over every run, `HsmCalls` which
application code a step calls, read off the table's own fields; `HsmExamples` has an accepted table on
which the code does what its documentation excludes. The nesting bound is a parameter n with n + 1
fitting an `int8_t` (the C header fixes 3). A pointer into the state array is an index, NULL is `None`.
Application code is a pair of functions over an arbitrary outside world: guards read it, actions change
it and push events while the step is running. Between calls the world may change in any way. An action
is told the room left in the queue, which is all it could learn from the results of its pushes.

**The FIFOs (rtfifo).** `RtFifo.Fifo` and `RtFifo.SmallFifo` keep the C fields at their C widths over a
byte buffer, so that an index that wrapped would not verify. `Ring` has the slot arithmetic,
`BoundedQueue` the queue they refine and the theorem about every sequence of calls.

**Test reports (rttest).** `ReportFormat` is the format and what a stream decodes to. `TestRun` says what
a run does as one sequence of calls of application code and offers of octets: its script, and what
happens when a sink refuses an octet of it. `RtTest` is the runner over the linked list of groups, proved
to follow that script call by call and octet by octet. `RunTheorems` proves what is called, what is
offered after a refusal and what the return value says; `RunExample` spells out one run. `RttReader` is
the Python reader, `ReportGrammar` says which octets it accepts, `ReportTheorems` has writer and reader
together. Test cases and group actions are functions over an arbitrary world.
The sink is any sequence of answers; it may accept octets again after a refusal.

**Base-2 conversion (rtplf).** `RtPlf` has the printer and scanner with the C string helpers they use.

## Where the code and its documentation part

- `RTHsmInit` does not reject the id `RTHSM_NULL_STATE_ID` (`HsmTable.ZeroIdIsAccepted`). All other
  documented constraints are enforced, and no others, so the documented tables are exactly the
  accepted ones without that id.
- A composite state's own self-transition re-enters it only while it is the current state itself
  (`HsmTransitions.SelfTransitionReenters`, `HsmExamples.CompositeIsNotReentered`).
- The internal flag of a transition from an enclosing state to the current one is honoured, though the
  two states differ (`HsmTransitions.InternalFlagIgnored`, `HsmExamples.InternalFlagCounts`).
- A final state with an initial sub-state does not stop the machine
  (`HsmTransitions.StopsInFinalLeaf`, `HsmExamples.FinalCompositeGoesOn`).
- The documented maximum of 65,535 items of 65,535 bytes makes slot offsets overflow an `int`
  (`Ring.OffsetsFitInt`); the constructor of `Fifo` asks for the exact bound.
- `RTTestRun` returns the last selected group's failures, not the total
  (`ReportTheorems.ReturnsTotalIff`, `ReportTheorems.FirstFailureIsLost`).
- Registration does not compare a new group id with the last registered one
  (`ReportTheorems.RegistrationCheck`, `ReportTheorems.NeighboursRegister`).
- The run is documented to stop as soon as the sink refuses an octet. After a refused group marker the
  code offers the octets of the id, up to another refusal; after a refused octet that completes eight
  test cases it offers that octet again; in all other cases nothing more (`RunTheorems.RunOffers`,
  `RunTheorems.OffersAfterRefusal`).
- A run that fails because an octet was refused can leave a report that the reader accepts: exactly if a
  group marker was refused, the next octet was accepted, and the group's id begins with the octet that
  marks the end of the file (`ReportTheorems.RunIffDecodes`, `ReportTheorems.FailedRunIsAccepted`).
- Printing in base 2 and scanning gives the number back only if all digits fitted, or for 0
  (`RtPlf.ExactIff`).
- `RTStrncpy` returns the opposite of what is documented, except for a NULL string and a usable buffer
  (`RtPlf.CopyAgreesIff`).
- With `RTBASE_AUTO`, a 0 that neither an x nor a digit follows is taken for base 8 instead of 10, and
  skipped (`RtPlf.PromisedIff`).
- `RTStringToU32` returns false for a NULL result pointer, not true (`RtPlf.StringToU32`).

## Model

| member | source | states |
|---|---|---|
| HsmInit.InitTables | src/rthsm/src/rthsm.c:104-205 | Init gets past all its assertions if and only if the table meets the header's constraints; then every pointer is the state its id names, nothing else changed, and the states form a tree no deeper than the bound |
| HsmInit.LookupStateFromId | src/rthsm/src/rthsm.c:266-279 | the first state with the id, or nothing if no state has it |
| HsmInit.CacheStates | src/rthsm/src/rthsm.c:121-151 | the first loop accepts only distinct, resolvable ids and one global state, and fills in exactly the parent and initial pointers; when it panics the table breaks a constraint |
| HsmInit.CheckHierarchy | src/rthsm/src/rthsm.c:160-186 | the second loop succeeds if and only if every initial sub-state names its owner and every state is nested within n levels |
| HsmInit.BelongsToGlobal | src/rthsm/src/rthsm.c:173-184 | the bounded pointer walk decides nesting within n parents by id, and never follows the global state's missing parent |
| HsmInit.CacheTransitions | src/rthsm/src/rthsm.c:189-204 | the third loop succeeds if and only if every destination exists and is not the global state, and fills in all of them |
| HsmTable.AcceptableIffTree | src/rthsm/include/rthsm.h:41-59 | with distinct ids, the header's constraints hold if and only if all ids resolve and the linked pointers form a tree rooted in the global state of depth at most n |
| HsmTable.ZeroIdIsAccepted | src/rthsm/include/rthsm.h:81-85 | a table with a state whose id is the forbidden one meets every constraint that is checked |
| HsmPaths.SharedAncestor | src/rthsm/src/rthsm.c:402-428 | a state on the destination's root path also contains the current state exactly when it is within the longest common prefix of the two paths |
| HsmPaths.ChainExtendsPath | src/rthsm/src/rthsm.c:282-299 | following initial sub-states ends in a state without one, and continues the root path level by level |
| HsmPaths.ChainIs | src/rthsm/src/rthsm.c:286-297 | each state of the chain is the initial sub-state of the one before, and the last one has none |
| HsmPaths.InitialDeeper | src/rthsm/src/rthsm.c:163-166 | an initial sub-state is exactly one level below its owner, which is therefore not at the bound: the descent terminates |
| HsmPaths.PathDistinct | src/rthsm/src/rthsm.c:168-185 | no state is its own ancestor |
| RtHsm.Hsm.constructor | src/rthsm/src/rthsm.c:104-118 | a machine without current state over an event queue whose item size is the event size; events already queued count as accepted |
| RtHsm.Hsm.Init | src/rthsm/src/rthsm.c:120-205 | accepts exactly the tables that meet the constraints; afterwards the machine satisfies the invariant of all later calls |
| RtHsm.Hsm.PushEvent | src/rthsm/src/rthsm.c:208-211 | appends a copy of the event unless the queue is full, also from inside a callback |
| RtHsm.Hsm.Step | src/rthsm/src/rthsm.c:214-257 | in any state a run can reach, the new state, log, queue and result are those of the loop-free specification, no assertion fires, and the run invariant is kept |
| RtHsm.Hsm.GetBestTransition | src/rthsm/src/rthsm.c:302-347 | finds the first enabled transition of the list flattened innermost state first, or the last non-zero guard value; the search depth stays below n |
| RtHsm.Hsm.CollectParents | src/rthsm/src/rthsm.c:393-400 | collects the destination's root path and the global state without leaving the array of n + 1 entries |
| RtHsm.Hsm.FindCommonParent | src/rthsm/src/rthsm.c:402-430 | the nested loops always find a common parent: the state where the two root paths part |
| RtHsm.Hsm.ExitUpTo | src/rthsm/src/rthsm.c:432-441 | runs the exit callbacks of the current path past the common parent, innermost first |
| RtHsm.Hsm.EnterDown | src/rthsm/src/rthsm.c:448-458 | runs the entry callbacks of the destination path past the common parent, outermost first |
| RtHsm.Hsm.DoTransition | src/rthsm/src/rthsm.c:377-464 | runs exits past the common prefix, the action, entries past it, then the whole initial chain, in that order, and settles in the chain's last state |
| RtHsm.Hsm.DoSelfTransition | src/rthsm/src/rthsm.c:350-374 | exit, action, entry of the current state, or the action alone if the transition is internal |
| RtHsm.Hsm.TraverseToChildmostState | src/rthsm/src/rthsm.c:282-299 | enters the whole initial chain below a state and makes its last state current |
| HsmSpec.FirstEnabledIsCandidate | src/rthsm/src/rthsm.c:321-344 | the chosen transition is enabled and nothing before it in the list is; none is chosen only if none is enabled |
| HsmSpec.PerformAllConcat | src/rthsm/src/rthsm.c:432-463 | running callbacks in two batches is running them in one |
| HsmRuns.ReplayFire | src/rthsm/src/rthsm.c:377-464 | replayed on the stack of active states, a transition's exits and entries are all legal and lead from the old path to the new one |
| HsmRuns.CallbacksConserve | src/rthsm/src/rthsm.c:437-463 | after any number of callbacks, in the middle of a step included, events taken followed by events queued are the events accepted, and the queue fits |
| HsmRuns.StepKeeps | src/rthsm/src/rthsm.c:214-257 | one step keeps the run invariant: settled state, stack discipline, conservation |
| HsmTheorems.EveryRun | src/rthsm/src/rthsm.c:208-257 | over every sequence of pushes, steps and changes of the outside world: the replayed log is the active path; each active state was entered once more than exited, every other as often; the global state never; no event lost, duplicated or reordered; after a step the current state is proper and has no initial sub-state |
| HsmTheorems.FiringPriority | src/rthsm/src/rthsm.c:318-344 | a transition is chosen if and only if it originates from an active state, is for this event, has no guard or one that returns 0, and every other such one is further out or later in the same state's table |
| HsmTheorems.StepReport | src/rthsm/src/rthsm.c:233-254 | a dequeued event is reported OK iff some transition of an active state is for it and has no guard or one that returns 0, DISCARDED iff none is for it, and otherwise GUARD with the non-zero value that the guard of the last such transition returns |
| HsmTheorems.StepReportsEarly | src/rthsm/src/rthsm.c:219-231 | the starting step reports OK; TERMINATED iff the current state has the final flag; EMPTY iff it has not and nothing is queued |
| HsmTheorems.StepBound | src/rthsm/src/rthsm.c:437-463 | one step runs at most 2n + 1 callbacks |
| HsmCalls.FirstStepRuns | src/rthsm/src/rthsm.c:219-224 | the first step calls the entry actions of the global state's initial chain, each with its state's cookie, and nothing else |
| HsmCalls.TransitionRuns | src/rthsm/src/rthsm.c:432-463 | a transition calls the exit actions of the old path past the common prefix innermost first, its own action with the event, then the entry actions of the new path and of the initial chain outermost first, each with its own cookie and none that is NULL; pushed events are queued in order as far as they fit |
| HsmCalls.SelfTransitionRuns | src/rthsm/src/rthsm.c:350-374 | a transition to the current state calls that state's exit action, its own and the entry action, or its own alone if flagged internal |
| HsmCalls.NothingRuns | src/rthsm/src/rthsm.c:226-254 | every other step calls nothing |
| HsmCalls.EntriesRan | src/rthsm/src/rthsm.c:448-458 | entering along a path calls the entry actions of its states, outermost first |
| HsmCalls.ExitsRan | src/rthsm/src/rthsm.c:432-441 | exiting along a path calls the exit actions of its states, innermost first |
| HsmRuns.PushAppends | src/rthsm/src/rthsm.c:208-211 | a push appends the event iff there is room and changes nothing otherwise |
| HsmTransitions.FireChanges | src/rthsm/src/rthsm.c:402-463 | a transition exits exactly the active states that neither are nor contain the destination, and enters exactly the states of the new path that were not both active and around the destination |
| HsmTransitions.FireInOrder | src/rthsm/src/rthsm.c:350-464 | the action runs once, after all exits and before all entries, while exactly the common ancestors are active; for a transition to the current state, while its ancestors are, and itself if the transition is internal |
| HsmTransitions.StopsInFinalLeaf | src/rthsm/include/rthsm.h:88-94 | after a transition fired, the next step reports TERMINATED iff the last state of the destination's initial chain is flagged final; that is the destination itself iff it has no initial sub-state |
| HsmTransitions.SelfTransitionReenters | src/rthsm/include/rthsm.h:101-112 | a state's own non-internal self-transition exits and re-enters it if and only if it is the current state |
| HsmTransitions.InternalFlagIgnored | src/rthsm/include/rthsm.h:101-112 | the internal flag has no effect on a transition if and only if its destination is not the current state |
| HsmTransitions.StepFires | src/rthsm/src/rthsm.c:230-253 | a step takes at most one event and hands exactly that event, as dequeued, to at most one transition, and to one exactly when it reports OK |
| HsmTransitions.ComesToRest | src/rthsm/src/rthsm.c:221-231 | if callbacks push nothing, then however the outside world changes between steps, after one step for the start and one per queued event further steps report EMPTY or TERMINATED and change nothing, for good |
| HsmTransitions.RestsIff | src/rthsm/src/rthsm.c:221-231 | a step has nothing to do, whatever the guards would say, iff the current state is final or the queue is empty |
| HsmExamples.CompositeIsNotReentered | src/rthsm/include/rthsm.h:106-108 | an accepted table and a run of it in which a composite fires its own non-internal self-transition and is not exited |
| HsmExamples.InternalFlagCounts | src/rthsm/include/rthsm.h:110-111 | two accepted tables that differ in the internal flag of a transition between different states, and the same run of both with different callbacks |
| HsmExamples.FinalCompositeGoesOn | src/rthsm/include/rthsm.h:88-94 | an accepted table and a run of it that enters a state flagged final, after which a step reports EMPTY |
| HsmEvent.EventRoundTrip | src/rthsm/include/rthsm.h:132-136 | an event stored as a record of bytes is read back unchanged |
| HsmEvent.RecordLayout | src/rthsm/include/rthsm.h:132-136 | the record of one event, byte by byte |
| HsmEvent.DecodeAllPush | src/rthsm/src/rthsm.c:208-211 | appending a record to the byte queue appends its event |
| RtFifo.Memcpy | src/rtplf/x64-linux/src/rtplf.c:230-242 | copies the shorter of the two lengths and nothing else |
| RtFifo.Fifo.constructor | src/rtfifo/src/rtfifo.c:124-138 | an empty queue over a buffer that holds the capacity |
| RtFifo.Fifo.Push | src/rtfifo/src/rtfifo.c:169-192 | accepted iff not full; appends the item over the old bytes of the free slot; no byte outside that slot changes |
| RtFifo.Fifo.Pop | src/rtfifo/src/rtfifo.c:195-218 | succeeds iff not empty; hands out the oldest item's bytes, removes it, and leaves the buffer and the rest of the caller's memory alone |
| RtFifo.Fifo.IsFull | src/rtfifo/src/rtfifo.c:162-166 | true iff as many items are queued as the capacity |
| RtFifo.Fifo.IsEmpty | src/rtfifo/src/rtfifo.c:155-159 | true iff nothing is queued |
| RtFifo.Fifo.Size | src/rtfifo/src/rtfifo.c:141-145 | the number of queued items |
| RtFifo.SmallFifo.constructor | src/rtfifo/src/rtfifo.c:27-41 | an empty queue over a buffer that holds the capacity, with 8-bit fields |
| RtFifo.SmallFifo.Push | src/rtfifo/src/rtfifo.c:72-95 | as for the 16-bit FIFO, for all 8-bit capacities and item sizes |
| RtFifo.SmallFifo.Pop | src/rtfifo/src/rtfifo.c:98-121 | as for the 16-bit FIFO, for all 8-bit capacities and item sizes |
| Ring.PushAppends | src/rtfifo/src/rtfifo.c:179-189 | writing slot (tail + size) mod capacity leaves all queued items as they are and appends one |
| Ring.PopDropsOldest | src/rtfifo/src/rtfifo.c:205-215 | advancing the tail modulo the capacity drops exactly the oldest item |
| Ring.SlotsApart | src/rtfifo/src/rtfifo.c:180-206 | different slots never share a byte |
| Ring.SlotInside | src/rtfifo/src/rtfifo.c:180-206 | every slot lies inside the buffer |
| Ring.WrapIsModulo | src/rtfifo/src/rtfifo.c:183-187 | the conditional wrap of an index is reduction modulo the capacity |
| Ring.OffsetsFitInt | src/rtfifo/include/rtfifo.h:68-76 | all slot offsets fit a 32-bit int iff the last one does; at the documented maximum they do not |
| BoundedQueue.InOrderAndIntact | src/rtfifo/include/rtfifo.h:254-279 | over every sequence of calls: items handed out followed by items queued are the items accepted, in order, each with its bytes as prefix and equal to it at full width; the capacity is never exceeded |
| RtTest.IsIn | src/rttest/src/rttest.c:166-180 | true iff the selection is empty or contains the id |
| RtTest.WritePreamble | src/rttest/src/rttest.c:147-163 | offers the magic number octet by octet up to a refusal; 0 iff it was accepted whole |
| RtTest.CallAction | src/rttest/src/rttest.c:210-215 | runs an action unless its pointer is NULL, and hands back what it returned |
| RtTest.RunTestCase | src/rttest/src/rttest.c:253-265 | calls the test case unless an earlier one was fatal, and gives its verdict |
| RtTest.RunNextCase | src/rttest/src/rttest.c:252-277 | one turn of the loop: the call, the result bit, the count and, every eighth time, the octet; a refused octet is due to be offered once more |
| RtTest.RunTestCases | src/rttest/src/rttest.c:240-285 | calls test cases up to the first fatal one and offers the packed verdicts of all, interleaved as the script says; a refused octet that is complete is offered again; returns the number of failures, or -1 iff the sink refused |
| RtTest.WriteId | src/rttest/src/rttest.c:199-208 | offers the id most significant octet first, up to a refusal, also after a refused marker |
| RtTest.RunGroup | src/rttest/src/rttest.c:183-237 | calls and offers what the script of the group says: marker, id, entry action, test cases with their results, exit action, end mark; returns -2 or -3 for a failing action, -1 iff the sink refused |
| RtTest.Registry.Register | src/rttest/src/rttest.c:95-109 | appends the group at the end of the list unless a group other than the last has its id |
| RtTest.Registry.RegisterAll | src/rttest/src/rttest.c:95-109 | registering groups in order succeeds iff no two of them, other than neighbours, have the same id |
| RtTest.Registry.Run | src/rttest/src/rttest.c:112-138 | for every list, selection, sink and application: every call and every offer in order, and the value returned; an empty selection runs every group |
| TestRun.AllSelected | src/rttest/include/rttest.h:185-188 | an empty selection selects every group |
| TestRun.PlayIs | src/rttest/src/rttest.c:210-229 | the entry action, the test cases and the exit action run in the worlds left before them, and the group goes as they answer |
| RunExample.WholeRun | src/rttest/src/rttest.c:112-285 | one whole run, octet by octet and call by call |
| TestRun.HappenedConcat | src/rttest/src/rttest.c:183-237 | a later phase takes place only if every octet of the earlier ones was accepted |
| TestRun.PlayStep | src/rttest/src/rttest.c:254-265 | each test case runs in the world the ones before it left, and none runs after a fatal one |
| TestRun.RunValues | src/rttest/src/rttest.c:112-138 | the octets of the script are the magic number and the stream of the groups as they go |
| RunTheorems.RunOffers | src/rttest/include/rttest.h:91-93 | for every sink: the octets offered are those up to the first refused one, then the id if that was a group marker or the same octet if it completes eight test cases, up to another refusal, and nothing otherwise; and which of them get through |
| RunTheorems.RefusedBy | src/rttest/include/rttest.h:91-93 | no octet is refused iff all are accepted; otherwise two are if one of those still offered is refused as well, and one if not |
| RunTheorems.OffersAfterRefusal | src/rttest/src/rttest.c:194-208 | a group with what it offers to sinks that refuse its marker, its result octet, or the first octet of its id |
| RunTheorems.RefusalEnds | src/rttest/include/rttest.h:91-93 | nothing is called after a refusal |
| RunTheorems.RunCallsAre | src/rttest/src/rttest.c:112-285 | per selected group in order, the entry action, the test cases up to the first fatal one and the exit action are called, up to the first failing action; a beginning of that if the sink refuses |
| RunTheorems.ReturnSays | src/rttest/include/rttest.h:190-193 | -1 iff an octet was refused; below -1 iff an action failed, which is then the last thing that happened |
| RunTheorems.FirstFailureDecides | src/rttest/include/rttest.h:190-193 | the first group with a failing action makes the result -2 if it is the entry action, -3 otherwise |
| ReportFormat.PackRoundTrip | src/rttest/src/rttest.c:266-283 | unpacking the result octets gives the verdicts back, and padding bits are 0 |
| ReportFormat.OctetBit | src/rttest/src/rttest.c:266-269 | bit k of a result octet is result k |
| ReportFormat.IdRoundTrip | src/rttest/scripts/rttest2text.py:171-175 | a group id written in big-endian order is read back |
| ReportFormat.StreamRoundTrip | src/rttest/scripts/rttest2text.py:151-214 | reading a complete stream consumes every octet and yields the groups written with their results |
| ReportFormat.ReadGroupsExtends | src/rttest/scripts/rttest2text.py:162-214 | what the reader accepts it reads alike whatever follows |
| ReportFormat.ReportRoundTrip | src/rttest/scripts/rttest2text.py:141-214 | a complete report decodes to what was written, and every strict prefix of it is rejected, whatever octets the results are |
| RttReader.RttParser.Parse | src/rttest/scripts/rttest2text.py:141-160 | raises iff the octets do not decode; otherwise totals, printed failures and verdict are those of the decoded reports |
| ReportGrammar.AcceptedIff | src/rttest/scripts/rttest2text.py:141-214 | for any octets: they decode to these reports, up to this position, iff they are the magic number, a block for each report with the id of a known group and one bit for each of its test cases, and the end-of-file mark |
| RttReader.SumsOfMore | src/rttest/scripts/rttest2text.py:144-160 | totals and printed lines start from nothing and add up over groups, in order |
| RttReader.RttParser.ParseGroup | src/rttest/scripts/rttest2text.py:162-207 | reads one group, finds the end mark, or raises, exactly as the format says, and adds up its results |
| RttReader.RttParser.ReadResults | src/rttest/scripts/rttest2text.py:184-200 | reads one octet per 8 test cases and counts and prints exactly the set bits |
| RttReader.RttParser.ReadId | src/rttest/scripts/rttest2text.py:171-175 | assembles the id from four octets, or raises at the end of the file |
| RttReader.RttParser.ReadByte | src/rttest/scripts/rttest2text.py:209-214 | the next octet, or an error at the end of the file |
| RttReader.FailLinesAre | src/rttest/scripts/rttest2text.py:192-195 | a line is printed for exactly the failed test cases of the group, in their order |
| ReportFormat.CountIs | src/rttest/src/rttest.c:266-269 | the count of failures is the number of test cases that failed |
| ReportTheorems.RunIffDecodes | src/rttest/src/rttest.c:112-138 | for every sink: if the run returns a non-negative value, the reader reads every octet and finds the selected groups in order with their results; if not, it rejects what was written, except where part of a group id is taken for the end of the file, and then it finds exactly the groups before |
| ReportTheorems.FailedRunIsAccepted | src/rttest/src/rttest.c:194-208 | a group and a sink for which the run returns -1 and the reader accepts an empty report |
| ReportTheorems.LastingRefusal | src/rttest/src/rttest.c:194-208 | that cannot happen with a sink that goes on refusing |
| ReportTheorems.RunAndParse | src/rttest/scripts/rttest2text.py:141-160 | running a registry and parsing what ends up in the sink: the parser raises iff the run returned a negative value, but for that exception; after a successful run its verdict and the lines printed are those of the run |
| ReportTheorems.OfferIsPrefix | src/rttest/src/rttest.c:121-137 | a failing group action leaves a strict prefix of the complete stream |
| ReportTheorems.FatalFailsTheRest | src/rttest/src/rttest.c:252-265 | the verdicts are the outcomes up to the first fatal one and failures from there on |
| ReportTheorems.CountIsSetBits | src/rttest/src/rttest.c:266-283 | the number of failures returned is the number of bits set in the octets written |
| ReportTheorems.SelectedAre | src/rttest/src/rttest.c:123-130 | with a selection that is not empty, a group is run iff it is registered and its id is listed |
| ReportTheorems.SelectedOnce | src/rttest/src/rttest.c:166-180 | a group is selected once if the selection is empty or lists its id, however often, and not at all otherwise |
| ReportTheorems.SelectedInOrder | src/rttest/src/rttest.c:123-130 | picked groups run in registration order |
| ReportTheorems.ReportsAre | src/rttest/scripts/rttest2text.py:180-200 | the i-th report is the i-th selected group's id with its verdicts |
| ReportTheorems.ReturnsTotalIff | src/rttest/include/rttest.h:190-193 | the value returned is the total number of failures iff all groups before the last selected one passed |
| ReportTheorems.FirstFailureIsLost | src/rttest/include/rttest.h:190-193 | two groups, the first with a failed test case, for which 0 is returned |
| ReportTheorems.NeighboursRegister | src/rttest/include/rttest_priv.h:123-128 | two groups in a row with the same id are registered |
| ReportTheorems.RegistrationCheck | src/rttest/include/rttest_priv.h:123-128 | registration accepts exactly the id lists without equal ids two or more apart; among those, ids are unique iff no two neighbours are equal |
| RtPlf.Strlen | src/rtplf/x64-linux/src/rtplf.c:245-255 | the number of characters before the terminator |
| RtPlf.Strncpy | src/rtplf/x64-linux/src/rtplf.c:258-279 | copies the string, cut to fit, terminates it, and fills the rest of the buffer with null characters; returns whether it was cut |
| RtPlf.CopyAgreesIff | src/rtplf/x64-linux/include/rtplf.h:329-351 | what is returned is what is documented iff a NULL string is copied into a usable buffer |
| RtPlf.PrintBase2 | src/rtplf/x64-linux/src/rtplf.c:350-381 | writes the min(32, size - 1) most significant bits and a terminator and nothing else; returns 32 |
| RtPlf.PrintText | src/rtplf/x64-linux/src/rtplf.c:116-138 | the temporary buffer never overflows and holds the text as far as the caller's buffer will show it |
| RtPlf.U32ToString | src/rtplf/x64-linux/src/rtplf.c:113-147 | the buffer holds the text in the right base cut to its size; returns the length shown; no effect without a buffer |
| RtPlf.TextIs | src/rtplf/x64-linux/src/rtplf.c:113-138 | base 8 and 16 are printed as such, any other but 2 in decimal |
| RtPlf.ScanBase2 | src/rtplf/x64-linux/src/rtplf.c:384-431 | for every string: succeeds iff the first character is a binary digit, and yields the value of all leading ones, at most 32, whatever follows |
| RtPlf.StringToU32 | src/rtplf/x64-linux/src/rtplf.c:166-227 | detects the base and parses the rest, for every string, and stores the number only if that succeeds; in base 2 the value of the leading digits, whatever follows |
| RtPlf.ParsesBinary | src/rtplf/x64-linux/src/rtplf.c:384-431 | digits followed by anything else parse to their value, given base 2 or announced by a 'b'; no digit, no number |
| RtPlf.ParsesAs | src/rtplf/x64-linux/src/rtplf.c:174-192 | which part of the string is scanned in which other base |
| RtPlf.BinaryValueIs | src/rtplf/x64-linux/src/rtplf.c:403-416 | a digit more doubles the number and adds that digit |
| RtPlf.PromisedIff | src/rtplf/x64-linux/include/rtplf.h:280-287 | the base inferred is the documented one except for a 0 followed neither by an x nor by a digit |
| RtPlf.ShiftedOut | src/rtplf/x64-linux/src/rtplf.c:361-377 | shifting left in 32 bits pushes out the most significant bits one by one |
| RtPlf.PrintedDigit | src/rtplf/x64-linux/src/rtplf.c:361-377 | digit i is '1' iff the bit worth 2^(31 - i) is set, and '0' otherwise |
| RtPlf.DigitsValue | src/rtplf/x64-linux/src/rtplf.c:350-431 | the first k digits printed stand for the k most significant bits |
| RtPlf.PrintScan | src/rtplf/x64-linux/src/rtplf.c:350-431 | for every x and buffer size from 2, printing and scanning yields x / 2^(32-k) with k = min(32, size - 1), also with a leading 'b' and the base detected |
| RtPlf.ExactIff | src/rtplf/x64-linux/src/rtplf.c:350-431 | the round trip is exact iff the size is at least 33 or x is 0 |

## Left out

- `RTHsmReset`: declared without a body.
- Callbacks that step the machine re-entrantly or change its tables; guards with side effects, which the header forbids.
- NULL arguments that only lead to a panic, and two states sharing one array of transitions.
- A capacity or item size of 0 for a FIFO, and items or events of a different size than the engine's records: asserted against by the code, preconditions here.
- RtHsm.Hsm.Step: the guard value is part of the result instead of being stored through a pointer that may be NULL.
- The padding bytes of an event record: written as 0 and ignored when read.
- RtPlf.StringToU32: what sscanf finds in a string for bases other than 2 (a parameter).
- RtPlf.U32ToString: what sprintf prints in bases other than 2 (a parameter).
- `RTStrcmp`, `RTStrncmp`, signed conversions, clock, panic, file and console output, argument parsing.
- The reader's scan of source files for group names: the map from group ids to numbers of test cases is given.
- Registration macros, build files and the concrete test machines.
