# P2 in Dafny

A model of the parts of P2 that have to be right for a dataflow to run at all: the check that a
dataflow graph can be wired up, edits of a running graph, soft-state tables with their indices and
aggregates, join planning, the identifier ring and key routing, the reliable-transport elements,
fair scheduling, compile stages and the canonical form of rule heads.

Each module follows one component. Where P2 updates state in place, the model is a class whose methods
have the same loops and branches; pure code is functions. Specifications are independent of the code: a
consistent assignment of personalities, a greatest self-supporting set, integers modulo 2^160, the
selection that a lookup asks for, the meaning of a rule head. Methods named `Run...`, `...All` or similar
take an arbitrary list of events, drive a fresh object through it and state what holds after every
such run.

| file | component |
|---|---|
| `ElementSpec.dfy`, `Dataflow.dfy`, `FlowCodes.dfy` | port personalities, flow groups, validation of a dataflow, the letters of codes |
| `DataflowEdit.dfy` | hookups and removal of disconnected elements in an edit |
| `Keys.dfy`, `Index.dfy`, `Ranges.dfy`, `Aggregates.dfy`, `Table.dfy`, `TableCounts.dfy` | tables with secondary indices, lookups, aggregates and reference counts |
| `JoinKeys.dfy` | join keys and join schemas of the rule compiler |
| `Id.dfy`, `Ring.dfy`, `KeyRouter.dfy` | 160-bit identifiers, ring intervals, greedy routing |
| `Frag.dfy`, `Defrag.dfy` | fragmentation and reassembly |
| `ODelivery.dfy`, `CumulativeAck.dfy`, `RDelivery.dfy`, `RoundTripTimer.dfy` | ordered delivery, acknowledgements, retransmission, timeouts |
| `RoundRobin.dfy`, `CompileStage.dfy`, `RuleHead.dfy` | scheduling, compile stages, rule heads |
| `Options.dfy`, `Sequences.dfy`, `Arithmetic.dfy` | shared helpers |

## What turned out not to hold

Four expectations about the code are false as stated. The code is modelled as it is; each has a concrete
witness and its exact condition.

- Push/pull checking and mixed flow groups. A group that mixes agnostic and fixed ports makes the check
  refuse dataflows that can be completed. The check decides `Compatible`, which always implies
  `Satisfiable`; the two agree for elements with uniform groups (`UniformReadings`), and every element
  with a mixed group has a neighbour for which they differ (`MixedGroupRefused`).
- The walk over a flow group. `unifyInput` and `unifyOutput` use the port number as an index into the
  member list. They stay within the list and reach the whole group exactly when the list is at least that
  long and the member passed over, if any, is the port itself (`VisitsWholeGroup`). With flow code "-xx/"
  a member is skipped, with "--x/" the walk runs off the list (`BadFlowCodes`). All flow codes in the
  repository are of the good kind.
- Duplicate test of `Defrag`. The scan runs to the end of the multimap, so a new fragment can be taken for
  a duplicate. This happens exactly when something of its message is pending and a higher sequence number
  has a fragment pending at the same offset (`DroppedWrongly`). Any two messages of two or more fragments
  can run into it (`InterleavedRun`).
- Early return of `confirm`. After a jump of the sender a repeated number makes it return before the mark has
  moved over a number that was confirmed earlier. `Maximal` states exactly when, in terms of the arrivals
  (`Overlooked`), and `OverlookedRun` shows it at every mark.

The canonical form of rule heads has a side condition: it keeps the meaning of a head exactly when no
variable of the head has one of the invented names (`CanonicalHead`). Heads that come from the parser
always meet it, including the "$_0" that stands for an underscore and the "*" of a count.

Documentation and code disagree in one place that matters here: the description of flow codes says that
surplus characters are ignored, but the input side asserts that there are none. The model follows the code.

## Model

| member | source | states |
|---|---|---|
| `ElementSpecs.ElementSpec.constructor` | p2core/elementSpec.C:36-164 | a port has the personality and the group letter of its position in the specification strings, the last character repeating, and every group lists exactly the ports with its letter |
| `ElementSpecs.ElementSpec.ReadSide` | p2core/elementSpec.C:60-137 | walking the two string pointers yields the declared ports of a side |
| `ElementSpecs.ElementSpec.ReadCode` | p2core/elementSpec.C:65-79 | one step of a pointer: it stops at the slash, and the code read is the one of port i, the last character repeating |
| `ElementSpecs.ElementSpec.FileGroups` | p2core/elementSpec.C:85-163 | each letter's group holds exactly the ports that carry it, in port order |
| `ElementSpecs.MembersExact` | p2core/elementSpec.C:85-163 | group member lists are complete, exact and increasing |
| `ElementSpecs.ElementSpec.UnifyPort` | p2core/elementSpec.C:349-359 | conflict exactly for the opposite personality, progress exactly for an agnostic port, and nothing else changes |
| `ElementSpecs.ElementSpec.UnifySpan` | p2core/elementSpec.C:373-397 | one loop: reports a conflict exactly when a visited member has another personality, otherwise leaves all visited members with the given one |
| `ElementSpecs.ElementSpec.UnifyGroup` | p2core/elementSpec.C:361-411 | the three loops together over own and far members, the own member at the port's number passed over |
| `ElementSpecs.ElementSpec.Unify` | p2core/elementSpec.C:361-463 | no effect on an agnostic or ungrouped port; otherwise the effect of the group walk on both sides |
| `ElementSpecs.WalkOwn` | p2core/elementSpec.C:373-397 | the members that the two own-side loops read, or that they read past the end |
| `ElementSpecs.VisitsWholeGroup` | p2core/elementSpec.C:373-397 | the own-side loops stay within the member list and reach every other member if and only if the list is as long as the port number and the member stored there, if any, is the port |
| `ElementSpecs.BadFlowCodes` | p2core/elementSpec.C:373-397 | flow code "-xx/" makes the walk skip a member and "--x/" makes it run off the list |
| `Dataflows.Dataflow.CheckPushAndPull` | p2core/dataflow.C:250-403 | terminates; returns 0 if and only if what the declarations force is free of contradiction; then a total assignment exists; with uniform groups, 0 if and only if one exists; every settled personality is shared by all consistent assignments |
| `Dataflows.Dataflow.Propagate` | p2core/dataflow.C:250-403 | the fixpoint loop: each pass with progress strictly shrinks the set of agnostic ports, and the verdict is `Compatible` |
| `Dataflows.Dataflow.Pass` | p2core/dataflow.C:258-392 | one pass: errors only if no consistent assignment exists, agreement on all hookups if nothing moved |
| `Dataflows.Dataflow.Visit` | p2core/dataflow.C:272-391 | one hookup: an error, a settled port with its group, or agreement; forced personalities only |
| `Dataflows.Dataflow.Settle` | p2core/dataflow.C:301-347 | an agnostic port takes a personality and its group follows; a conflict exactly when a member has another one |
| `Dataflows.UnificationSettles` | p2core/elementSpec.C:361-463 | the group walk has exactly the effect of settling the whole group |
| `Dataflows.SettledShrinks` | p2core/dataflow.C:258-392 | settling a port strictly shrinks the set of agnostic ports |
| `Dataflows.SettledKeepsBelow` | p2core/dataflow.C:272-391 | a consistent assignment that agreed before still agrees, and no group member clashes |
| `Dataflows.AgreementSuffices` | p2core/dataflow.C:393-402 | a stable state in which all hookups agree is a consistent assignment |
| `Dataflows.CompatibleIsSatisfiable` | p2core/dataflow.C:250-403 | freedom from contradiction implies a total assignment, for all declarations |
| `Dataflows.UniformReadings` | p2core/dataflow.C:250-403 | with uniform groups the two notions are equivalent |
| `Dataflows.MixedGroupRefused` | p2core/elementSpec.C:361-463 | for every mixed group some neighbour makes them differ |
| `Dataflows.Dataflow.CheckRange` | p2core/dataflow.C:406-436 | 0 if and only if every hookup joins existing ports of existing elements |
| `Dataflows.Dataflow.SetCounterpart` | p2core/elementSpec.C:470-478 | records the first counterpart, reports every later one |
| `Dataflows.Dataflow.EvalHookups` | p2core/dataflow.C:438-474 | 0 if and only if no port occurs in two hookups; the recorded ports are exactly the used ones, each with an element it is joined to |
| `Dataflows.Dataflow.CheckCompleteness` | p2core/dataflow.C:476-521 | 0 if and only if every port of every element is used |
| `Dataflows.Dataflow.Validate` | p2core/dataflow.C:561-607 | 0 if and only if ranges, personalities, single use and completeness all hold; every port then knows the element at its other end |
| `Dataflows.ValidateFlat` | p2core/dataflow.C:561-607 | from specification strings to verdict: 0 if and only if the dataflow is acceptable |
| `FlowCodes.PortByLetters` | p2core/elementSpec.C:57-99 | a port is push exactly for letter h and pull exactly for l; it has a group exactly when its flow letter is not a dash |
| `FlowCodes.Shorthands` | p2core/element.C:30-34 | "h/l" is push in and pull out, "l/h" the reverse, "x/x" ties input and output |
| `FlowCodes.LettersDecide` | p2core/dataflow.C:272-391 | without flow groups, and with every port used once, the check finds no contradiction if and only if no hookup joins h to l |
| `FlowCodes.PairAccepted` | p2core/dataflow.C:561-607 | a source joined to a sink is acceptable if and only if their letters are the same or one is a |
| `FlowCodes.RowAccepted` | p2core/dataflow.C:561-607 | with an agnostic element between them: if and only if its flow letters do not tie its two ports, or the letters at the ends are the same or one is a |
| `DataflowEdits.DataflowEdit.HookUp` | p2core/dataflowEdit.C:88-95 | records the hookup and removes exactly the old hookups that use one of its ports |
| `DataflowEdits.DataflowEdit.RemoveOldHookup` | p2core/dataflowEdit.C:241-259 | erases the first hookup that uses the port |
| `DataflowEdits.EraseFirstErasesAll` | p2core/dataflowEdit.C:241-259 | as ports are used once, erasing the first use erases all |
| `DataflowEdits.Displaced` | p2core/dataflowEdit.C:88-95 | after displacement old and new hookups share no port |
| `DataflowEdits.DataflowEdit.IsReferenced` | p2core/dataflowEdit.C:190-211 | finds a hookup exactly when the element is supported |
| `DataflowEdits.DataflowEdit.DropHookupsOf` | p2core/dataflowEdit.C:214-221 | leaves exactly the hookups that do not touch the element, in order |
| `DataflowEdits.DataflowEdit.Sweep` | p2core/dataflowEdit.C:187-228 | one pass: keeps the pruning invariant, and removes something or finds everything supported |
| `DataflowEdits.DataflowEdit.RemoveDisconnected` | p2core/dataflowEdit.C:185-229 | terminates; keeps exactly the greatest self-supporting set of old elements and exactly the hookups between elements not removed; the rest is garbage |
| `DataflowEdits.UnsupportedNeverKept` | p2core/dataflowEdit.C:185-229 | an element found unsupported is in no self-supporting set |
| `DataflowEdits.GreatestIgnoresOrder` | p2core/dataflowEdit.C:185-229 | the kept set does not depend on the order of elements or hookups |
| `DataflowEdits.OnlyNewCanCollide` | p2core/dataflowEdit.C:171-176 | after the edit a port can be used twice only by new hookups |
| `DataflowEdits.DataflowEdit.ApplyEdit` | p2core/dataflowEdit.C:171-239 | new hookups in, disconnected elements out, new elements in; surviving hookups exact |
| `Keys.CompareTuples` | p2core/commonTable.C:100-161 | the field-by-field loop is lexicographic comparison of key fields, cut at the first missing one |
| `Keys.ValueOrder` | p2core/val_int64.C:78-91 | integers are ordered as numbers, and null is below everything else |
| `Keys.FirstDifferenceDecides` | p2core/commonTable.C:112-143 | one projection is below another exactly when, at the first place where they differ, it ends or has the smaller value |
| `Keys.StrictWeakOrder` | p2core/commonTable.C:100-161 | irreflexive, transitive, with transitive incomparability; ties are exactly equal key fields |
| `Keys.TiesMatch` | p2core/commonTable.C:100-161 | a search tuple with all key fields ties with exactly the tuples equal on them |
| `Indices.EqualRange` | p2core/commonTable.C:878-896 | the bounds enclose exactly the ties |
| `Indices.RangeIsTies` | p2core/commonTable.C:878-896 | what lies within the bounds is the subsequence of ties |
| `Indices.InsertInto` | p2core/commonTable.C:380-385 | keeps the index sorted and adds exactly the tuple |
| `Indices.EraseFrom` | p2core/commonTable.C:427-447 | finds the tuple among its ties by identity and removes exactly it |
| `Aggregates.AggFunc.First` | aggregates/aggMin.C:34-38 | the function of one value |
| `Aggregates.AggFunc.Process` | aggregates/aggMin.C:41-48 | the function of one value more, for COUNT, COUNTDISTINCT, MIN and MAX |
| `Aggregates.AggFunc.Result` | aggregates/aggMin.C:51-59 | the aggregate of the values seen; null for MIN and MAX of none |
| `Aggregates.AggregateUnique` | aggregates/aggMin.C:27-59 | the aggregate of a bag of values is unique |
| `Aggregates.AggregateExists` | aggregates/aggMin.C:27-59 | every bag of values has one |
| `Aggregates.Recompute` | p2core/commonTable.C:1184-1213 | the scan of a group yields its aggregate |
| `Aggregates.Update` | p2core/commonTable.C:1181-1282 | the group of the changed tuple is remembered with its present value, other groups and earlier notices stay, and listeners hear the value exactly if it is new |
| `Aggregates.OtherGroupsStay` | p2core/commonTable.C:1181-1282 | a change leaves the aggregates of other groups as they were |
| `Aggregates.UpdateFreshens` | p2core/commonTable.C:1181-1282 | after the update every remembered group is current |
| `Tables.AddToIndices` | p2core/commonTable.C:380-385 | all indices hold the old tuples and the new one, sorted |
| `Tables.DropFromIndices` | p2core/commonTable.C:427-447 | all indices hold the old tuples without the one, sorted |
| `Tables.FollowAll` | p2core/commonTable.C:387-392 | every aggregate becomes exactly what the change makes of it, and stays current |
| `Tables.Table.SecondaryIndex` | p2core/commonTable.C:288-299 | creates at most one index per key, filled with exactly the table |
| `Tables.Table.CreateIndex` | p2core/commonTable.C:301-322 | the new index holds exactly the table in its order, the search entry is long enough for its key, and no other index changes |
| `Tables.Table.InsertTuple` | p2core/commonTable.C:372-392 | primary and indices gain exactly the tuple, every aggregate becomes exactly what that makes of it, and all stay consistent |
| `Tables.Table.RemoveTuple` | p2core/refTable.C:198-208 | primary and indices lose exactly the entry, every aggregate becomes exactly what that makes of it, and all stay consistent |
| `Tables.Table.Insert` | p2core/refTable.C:101-146 | contents and aggregates become exactly what the insertion makes of them: a count, a new entry, or a replacement told as a removal and an insertion; true if and only if a tuple moved |
| `Tables.Table.Remove` | p2core/refTable.C:148-175 | contents and aggregates become exactly what the removal makes of them; true if and only if the last reference went |
| `Tables.ProjectOnto` | p2core/commonTable.C:1007-1023 | the last use of each destination field wins, other fields keep their values |
| `Tables.AgreesDistinct` | p2core/commonTable.C:1007-1023 | with distinct index fields, agreement is equality on every index field |
| `Tables.TiesAgree` | p2core/commonTable.C:791-835 | the ties of the projected search tuple are the tuples that agree with the lookup |
| `Tables.Table.Lookup` | p2core/commonTable.C:791-835 | none exactly for an unknown index; otherwise exactly the stored tuples that agree with the lookup, in index order |
| `Tables.Spool` | p2core/commonTable.C:878-896 | the ties of an entry in index order |
| `Tables.Table.RangeLookup` | p2core/commonTable.C:931-963 | exactly the stored tuples between the two bounds, in index order; never fails for a range that is not inverted |
| `Ranges.RangeSpool` | p2core/commonTable.C:965-1003 | likewise for one index; the walk runs off exactly when some tuple is both too low and too high |
| `Ranges.CutIsRange` | p2core/commonTable.C:976-1000 | the stretch between the two searches is the tuples in the range |
| `Ranges.NotInvertedIsSafe` | p2core/commonTable.C:976-1000 | no tuple is both too low and too high for a range that is not inverted |
| `Tables.RunTable` | p2core/commonTable.C:372-454 | any run of inserts, removals, index and aggregate creations, with tuples of any length that have the fields the aggregates look at, leads to exactly the stored tuples, reference counts and indexed keys it should; the remembered values and the whole listener stream of every aggregate are those of one shown, in order, all changes made since its creation; every index holds the table sorted, remembered values are current, and no stream repeats a value in a row |
| `Tables.RemembersMovedGroups` | p2core/commonTable.C:1181-1282 | after a run each created aggregate has its place and shape and remembers exactly the groups of the tuples that came or went since its creation |
| `TableCounts.EntryTold` | p2core/refTable.C:101-175 | the contents after any run, from the operations alone: the count at a key is the largest surplus of insertions over removals since any point of the stretch without other fields, there is an entry if and only if that is positive, and it is the tuple inserted at the latest such point |
| `TableCounts.StretchExists` | p2core/refTable.C:101-146 | every key has such a stretch at every time, starting where other fields replaced the ones before |
| `TableCounts.InsertedThenRemoved` | p2core/refTable.C:101-175 | n insertions of a tuple at a free key, then m removals, leave it if and only if m < n, with count n - m |
| `JoinPlanning.Position` | p2core/compileUtil.C:345-382 | the first argument naming the same variable, or -1 if there is none |
| `JoinPlanning.JoinKeys` | p2core/compileUtil.C:564-580 | shared positions paired with their first outer position, the rest in the base key, both increasing |
| `JoinPlanning.KeysPartition` | p2core/compileUtil.C:564-580 | index and base key partition the inner positions |
| `JoinPlanning.KeysAreJoin` | p2core/compileUtil.C:564-580 | agreement under the derived keys is agreement on every shared variable |
| `JoinPlanning.Probe` | p2core/compileUtil.C:564-580 | a lookup with the derived keys returns exactly the joining tuples of the table |
| `JoinPlanning.Merge` | p2core/compileUtil.C:478-493 | the named arguments of the outer schema, then the new ones of the inner schema |
| `JoinPlanning.MergeComplete` | p2core/compileUtil.C:478-493 | every variable of either side occurs, and none of the outer side again from the inner side |
| `Ids.Add` | p2core/ID.C:372-392 | addition modulo 2^160 |
| `Ids.Distance` | p2core/ID.C:186-212 | subtraction modulo 2^160 |
| `Ids.AddTheDistance` | p2core/ID.C:372-392 | going from a by the distance to b leads to b |
| `Ids.LShift` | p2core/ID.C:215-258 | multiplication by 2^s modulo 2^160, for every 32-bit s |
| `Ids.ShiftWordsLeft` | p2core/ID.C:245-256 | the in-place short shift, with what spills over the top |
| `Ids.RShift` | p2core/ID.C:261-313 | division by 2^s, for every 32-bit s |
| `Ids.ShiftWordsRight` | p2core/ID.C:291-311 | the in-place short shift, with its remainder |
| `Ids.CompareTo` | p2core/ID.C:133-147 | the sign of the difference |
| `Ids.ValueInjective` | p2core/ID.C:133-147 | equal values are equal identifiers |
| `IdRing.BetweenOOMeaning` | p2core/ID.C:150-156 | the open interval by clockwise distance |
| `IdRing.BetweenOCMeaning` | p2core/ID.C:159-165 | the half-open interval by clockwise distance; the whole ring for equal ends |
| `IdRing.BetweenCOMeaning` | p2core/ID.C:168-174 | likewise, closed below |
| `IdRing.BetweenCCMeaning` | p2core/ID.C:177-183 | likewise, closed on both ends |
| `IdRing.OwnedByFirst` | p2core/ID.C:159-165 | a key is in (predecessor, node] exactly when the node is the first one clockwise from it |
| `IdRing.ExactlyOneOwner` | p2core/ID.C:159-165 | every key lies in the interval of exactly one node |
| `KeyRouting.SimpleKeyRouter.AddRoute` | net/skr.C:62-67 | keeps the routes sorted and adds exactly the route |
| `KeyRouting.SimpleKeyRouter.GreedyRoute` | net/skr.C:83-98 | -1 for our own key, otherwise the route with the least clockwise distance to the key |
| `KeyRouting.LastBelowIsClosest` | net/skr.C:83-98 | the last route at or below a key, or the last of all, is the closest one, and the last of those as close |
| `KeyRouting.SimpleKeyRouter.Push` | net/skr.C:31-60 | handed up for our own key or none, otherwise sent along a closest route |
| `KeyRouting.HopShrinks` | net/skr.C:83-98 | where nodes know their successors, every hop is strictly closer |
| `KeyRouting.Lookup` | net/skr.C:31-60 | the whole path: every hop is the one the router at its node chose, strictly closer to the key; no node twice; ends at a node bearing the key |
| `Fragmentation.JoinBlocks` | net/frag.C:100-131 | the blocks of a buffer put together are the buffer |
| `Fragmentation.BlockCount` | net/frag.C:100-131 | the announced number of chunks is the number of blocks |
| `Fragmentation.BlockSizes` | net/frag.C:100-131 | no block is empty or longer than the block size, and all but the last have exactly that size |
| `Fragmentation.Frag.FragmentTuple` | net/frag.C:100-131 | queues exactly the fragments of the message, in order |
| `Fragmentation.Frag.Push` | net/frag.C:41-66 | takes the tuple in any case; 0 exactly when the queue is full, and then this pusher is remembered; calls a waiting puller back once there is a fragment |
| `Fragmentation.Frag.Pull` | net/frag.C:68-98 | first in, first out; calls the waiting pusher back exactly when this leaves room; with nothing to hand out, the first puller is remembered |
| `Fragmentation.Run` | net/frag.C:41-98 | over any run of pushes and pulls the fragments come out in order; the pull that makes room again calls the latest pusher back, and the push that ends a dry spell calls back the first puller that came in vain |
| `Reassembly.DroppedWrongly` | net/defrag.C:84-90 | exactly when a new fragment is taken for a duplicate |
| `Reassembly.InterleavedRun` | net/defrag.C:84-90 | any two messages of two or more fragments: when second fragments overtake each other, one that arrived once is dropped and its message has then not come out |
| `Reassembly.Defrag.Reassemble` | net/defrag.C:94-110 | collects the payloads of a complete message in offset order and removes its fragments |
| `Reassembly.Defrag.Defragment` | net/defrag.C:78-133 | drops, files or completes; completion emits exactly the message sent |
| `Reassembly.Defrag.Push` | net/defrag.C:34-48 | likewise; calls a waiting puller back exactly when there is a tuple |
| `Reassembly.Defrag.Pull` | net/defrag.C:50-76 | first in, first out; with nothing to hand out, the first puller is remembered |
| `Reassembly.Defrag.ReceiveMessage` | net/defrag.C:78-133 | with nothing of this or a higher number pending, one message in any order with repeats comes out on the completing arrival, once and whole |
| `Reassembly.ReceiveAll` | net/defrag.C:78-133 | under any loss, repetition, reordering and interleaving what comes out and what stays pending is exactly what the reference run over sets of fragments gives; everything emitted was sent, and no more often than each of its fragments arrived |
| `OrderedDelivery.PlacedProperties` | net/odelivery.C:26-47 | insertion keeps the queue strictly increasing and adds exactly the packet |
| `OrderedDelivery.ODelivery.Insert` | net/odelivery.C:26-56 | a number already waiting is ignored, any other goes to its place and the pointer advances over what is contiguous |
| `OrderedDelivery.AdvanceExact` | net/odelivery.C:49-55 | the pointer moves over exactly the numbers that continue it from the front of the queue |
| `OrderedDelivery.AdvanceKeepsGapFree` | net/odelivery.C:49-55 | the pointer never passes a gap |
| `OrderedDelivery.ODelivery.Flush` | net/odelivery.C:112-141 | exactly the packets that are due go out, up to the one that closes the port; a delivery cancels the timer, which afterwards runs exactly when the port is open and something waits |
| `OrderedDelivery.ODelivery.Push` | net/odelivery.C:78-110 | a restart opens a new connection; otherwise a number below the pointer changes nothing, one already there joins nothing, any other takes its place in the line; then what is due goes out |
| `OrderedDelivery.ODelivery.OutputReady` | net/odelivery.C:146-153 | the port reopens and exactly what is due goes out |
| `OrderedDelivery.ODelivery.Timeout` | net/odelivery.C:158-177 | without a timer nothing happens; otherwise the pointer passes the last waiting number and everything goes out while the port stays open |
| `OrderedDelivery.StepLine` | net/odelivery.C:78-177 | what an event does to the line of accepted packets: order, the gap-free part and what the pointer passes |
| `OrderedDelivery.ClosedByDelivery` | net/odelivery.C:112-141 | in any run: after a delivery that closed the port, and until it is ready again, nothing goes out, the timer is off and timeouts change nothing |
| `OrderedDelivery.TakenWhileOpen` | net/odelivery.C:112-141 | in any run tuples go out only through an open port, and each but the last of an event left it open |
| `OrderedDelivery.WhyClosed` | net/odelivery.C:112-153 | in any run the port is closed exactly when a tuple taken or another connection closed it and it has not become ready since |
| `OrderedDelivery.TracePromises` | net/odelivery.C:78-177 | the end of every trace of exact steps keeps all that `Run` promises |
| `OrderedDelivery.Run` | net/odelivery.C:78-177 | every run is a trace of exact steps. Hence, over any interleaving with restarts: numbers go out in strictly increasing order; each packet kept is the first with its number; every arrival is kept by number or came below the pointer, which only numbers that came in or a timeout move; without timeouts delivery starts at CUMSEQ (after the first packet, if that was below), skips nothing and loses nothing; while the port is open nothing due waits, the pointer is at a missing number and a timeout leaves nothing waiting, and only a tuple taken or another connection closes it |
| `OrderedDelivery.NewNumber` | net/odelivery.C:94-99 | a number at or above the pointer and not in the line has not come in before |
| `CumulativeAcks.Connection.Confirm` | net/cumulativeAck.C:26-63 | unless it returns early, the mark is the last number reached without a gap and the queue is the rest, sorted |
| `CumulativeAcks.MarkUnique` | net/cumulativeAck.C:26-63 | there is only one such mark |
| `CumulativeAcks.ConfirmAll` | net/cumulativeAck.C:26-63 | after any sequence of confirmations the mark and the queue are exact |
| `CumulativeAcks.SoundStep` | net/cumulativeAck.C:71-96 | with jumps the mark covers only confirmed or settled numbers, forgets nothing above it, and stops short exactly in the overlooked case |
| `CumulativeAcks.CumulativeAck.Acknowledge` | net/cumulativeAck.C:71-115 | a new connection for CUMSEQ 0, otherwise a mark that does not go back; exactly when it stops short, by the numbers seen, and where it then is |
| `CumulativeAcks.AcknowledgeAll` | net/cumulativeAck.C:71-115 | over any run with any restarts: acknowledgements of a connection never go back, cover only what its own arrivals account for, reach the sender's own, and stop short of a number that came in exactly in the overlooked case |
| `CumulativeAcks.OverlookedRun` | net/cumulativeAck.C:71-96 | a run into the overlooked case, at every mark |
| `Retransmission.Connection.Send` | net/rdelivery.C:147-177 | the tuple joins the queue with no retries and is stamped with the cumulative number; the timer is armed |
| `Retransmission.Connection.Ack` | net/rdelivery.C:179-200 | news removes exactly the covered front; the timer is armed if and only if something is left |
| `Retransmission.Connection.HandleFailure` | net/rdelivery.C:90-120 | erases exactly the exhausted tuples, always at the front, and queues all others once more in order |
| `Retransmission.ExhaustedExactly` | net/rdelivery.C:108-112 | the exhausted tuples are a front part, so the assertion cannot fail |
| `Retransmission.FailuresEmpty` | net/rdelivery.C:90-120 | n timeouts in a row empty the queue if and only if the youngest tuple runs out of retries |
| `Retransmission.TimeoutsDrain` | net/rdelivery.C:90-120 | the maximum plus one timeouts empty every queue |
| `Retransmission.Connection.Drain` | net/rdelivery.C:90-120 | the timer stops after at most that many rounds |
| `Retransmission.RequeuesAfter` | net/rdelivery.C:90-120 | a timeout queues each surviving tuple exactly once more, within the maximum |
| `Retransmission.Run` | net/rdelivery.C:90-200 | any run leads exactly where the reference run leads: retry counts do not increase from front to back, no tuple is queued again more than the maximum, one no longer outstanding was acknowledged or queued again exactly that often, the timer is armed if and only if tuples are outstanding; in honest runs these are exactly the ones above the cumulative number |
| `Retransmission.StateSound` | net/rdelivery.C:90-200 | the reference run keeps all of these, after every event |
| `RoundTrips.BracketedStep` | net/roundTripTimer.C:206-216 | the average stays within the samples, the variation within four times their spread |
| `RoundTrips.SampleWeights` | net/roundTripTimer.C:206-216 | a sample counts for an eighth of the average and its deviation for a quarter of the variation, up to what the shifts cut off |
| `RoundTrips.CoversSample` | net/roundTripTimer.C:206-216 | average plus variation cover the newest sample, however far it was from the others |
| `RoundTrips.ClampNearest` | net/roundTripTimer.C:217-220 | the cap gives the value within the bounds that is nearest |
| `RoundTrips.RttRecord.AddMeasurement` | net/roundTripTimer.C:189-220 | the new estimate, and a timeout that covers the newest round trip; every intermediate value fits in 32 bits |
| `RoundTrips.RttRecord.Timeout` | net/roundTripTimer.C:223-233 | doubles the timeout, up to 5000 |
| `RoundTrips.Run` | net/roundTripTimer.C:189-233 | over any run of samples in a range and timeouts: exactly the estimate of the reference run, bounds on timeout, average and variation, no overflow, no return to the sentinel |
| `RoundTrips.CoversNewest` | net/roundTripTimer.C:189-233 | after any run the timeout is at least the newest round trip plus 10, within its bounds |
| `RoundTrips.BacksOff` | net/roundTripTimer.C:223-233 | k timeouts in a row double the timeout k times, up to its bound, and leave the estimate |
| `RoundTrips.SampleBoundExact` | net/roundTripTimer.C:197-205 | a first sample overflows if and only if it exceeds 2^28 - 1 |
| `RoundTrips.AverageConverges` | net/roundTripTimer.C:206-216 | under a steady round trip the average becomes exact, from any state |
| `RoundTrips.TimeoutConverges` | net/roundTripTimer.C:206-219 | and the timeout settles 10 to 13 above it, within its bounds |
| `RoundTrips.RunThenSteady` | net/roundTripTimer.C:189-233 | after any run, 12 times the largest sample plus 11 equal samples bring the timeout of the record there |
| `RoundRobins.RoundRobin.Unblock` | elements/roundRobin.C:51-67 | clears the flag and the stored callback |
| `RoundRobins.RoundRobin.Pull` | elements/roundRobin.C:69-126 | serves the first ready input from the next one on and blocks those before it, or blocks all, keeps the callback and goes on after the last input it tried |
| `RoundRobins.RoundRobin.Scan` | elements/roundRobin.C:86-125 | the same for the loop, whose end is unreachable |
| `RoundRobins.TurnComesNearer` | elements/roundRobin.C:86-120 | a pull serves a ready input or strictly reduces the number of inputs ahead of it |
| `RoundRobins.ServedInTurn` | elements/roundRobin.C:69-126 | a ready unblocked input is served within as many pulls as there are inputs ahead, plus one |
| `RoundRobins.ServedWithinARound` | elements/roundRobin.C:69-126 | hence within as many pulls as there are inputs |
| `RoundRobins.Run` | elements/roundRobin.C:51-126 | every run consists of such steps, the block count is exact, and a stored callback means all inputs are blocked |
| `CompileStages.CompileStage.constructor` | elements/compileStage.C:136-162 | the initial table is the path compile, parse, debug, eca, planner, p2dl, installed |
| `CompileStages.InitialInOrder` | elements/compileStage.C:149-160 | the successor of each initial stage |
| `CompileStages.CompileStage.Act` | elements/compileStage.C:45-131 | advance, refusal or splice, on any table |
| `CompileStages.SuccessorUnique` | elements/compileStage.C:55-69 | on a path the next stage is determined, and only installed has none |
| `CompileStages.SpliceKeepsPath` | elements/compileStage.C:88-122 | a fresh name spliced in keeps the table one simple path |
| `CompileStages.SpliceNeedsFreshName` | elements/compileStage.C:88-122 | a name in use never does |
| `CompileStages.SpliceKeepsOrder` | elements/compileStage.C:88-122 | earlier stages keep their order |
| `CompileStages.CompileStage.Compile` | elements/compileStage.C:45-131 | along a fixed chain each remaining stage is visited once, in order, and the program ends |
| `CompileStages.InOrderBounded` | elements/compileStage.C:45-131 | even while the chain grows, a program takes no more steps than it is long |
| `CompileStages.Run` | elements/compileStage.C:45-131 | any number of programs in any order: each scheduled action takes place, the table stays a path with the initial stages in order, and the statuses of every program follow that path without repetition |
| `RuleHeads.Functor.Find` | overlog/parser_util.C:354-358 | the first argument that prints as the name, or -1 |
| `RuleHeads.Functor.Replace` | overlog/parser_util.C:372-375 | replaces exactly one argument |
| `RuleHeads.Canonicalise` | overlog/ol_context.C:117-152 | the loop: literals and repeated variables give way to invented ones, everything else stays |
| `RuleHeads.InventedInjective` | overlog/ol_context.C:129-130 | invented names are pairwise different |
| `RuleHeads.DecimalReads` | overlog/ol_context.C:129-130 | the number in an invented name reads back as itself, without a leading zero |
| `RuleHeads.NoClashPreserves` | overlog/ol_context.C:117-152 | without a clash the head is canonical and denotes the same tuple under every binding |
| `RuleHeads.ClashBreaks` | overlog/ol_context.C:117-152 | with a clash it is not canonical or some binding shows a different tuple |
| `RuleHeads.ParsedHeadsDoNotClash` | overlog/ol_context.C:126-130 | heads made by the parser never clash |
| `RuleHeads.HeadThatClashes` | overlog/ol_context.C:117-152 | a head outside the parser's reach that does |
| `RuleHeads.CanonicalHead` | overlog/ol_context.C:117-152 | canonical and meaning-preserving if and only if nothing clashes |

## Left out

- Sockets, the event loop, clocks and randomness: timers are events of a run, samples and random choices are parameters.
- XDR marshalling: an abstract pair of functions of which the second undoes the first; `Frag` and `Defrag` are parametric in it.
- Re-entrant callbacks: a callback is a flag that a later event answers.
- Nested dataflows and their own inputs and outputs: `CheckCompleteness` and `Validate` are about flat dataflows, validated once.
- ElementSpecs.ElementSpec.Unify: needs a member list long enough for the port number, since otherwise the code reads past its end; the validation results are for groups that the loops walk completely.
- Element and hookup identity in `DataflowEdit`: elements are values with a number, hookups name them by it; `disconnect_input` and `disconnect_output` are not modelled.
- Hexadecimal constructors, printing and the bitwise operations of ID: they add only easy members. In the shifts the final bitwise or is an addition of disjoint bits.
- FAIL tuples in the key router, and the tags that record a route: the model is about lookups that have not failed.
- Expiry, size limits and flushing of tables, and scans: the model is the reference-counted table with lookups.
- Tables.Table.RangeLookup: asks for an existing index, as the original asserts, with distinct fields.
- Field values other than null and integers, and the MKSET, MKLIST and SCHEMA aggregates.
- Aggregates.Update: an aggregate is a value in a list rather than an object that others refer to.
- AGG arguments and selection predicates in join planning.
- Fragmentation.Frag.constructor: asks for a positive block size, since with 0 the loop of the original does not end.
- OrderedDelivery.Run: one source, and no timer of an earlier connection firing in a later one; removal of dead connections is not modelled.
- Reassembly.ReceiveAll: each sequence number names one message; collisions between sources are excluded.
- CumulativeAcks.AcknowledgeAll: one source, without the timer that forgets it; wrap-around of 64-bit numbers is not modelled.
- Retransmission.Run: one destination; the pull side, which draws at random between new and queued tuples, is not modelled.
- RoundTrips.RttRecord.AddMeasurement: samples above 2^28 - 1 milliseconds are excluded, because the original overflows.
- RoundRobins.RoundRobin.Unblock: the original asserts only that the input is at most the number of inputs; the model asks for a valid index.
- CompileStages.CompileStage.Act: the compile status table is a single field, and the choice among several links with the same input is left open.
- Head arguments other than variables, literals and aggregates, which the original reports as an error, and location specifiers.
- The rest of the planner, PEL code generation and execution, rate control, duplicate removal, multiplexers, Overlog programs and the Python tools.
