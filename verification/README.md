# Modbus connection: a verified model

This project models the parts of the `modbus_connection` library that are hardest to get right and
proves what they promise. Every theorem is about all inputs, all runs or all reachable states of the
model; `dafny verify dfyconfig.toml` checks the whole project.

**Reading a device** (`Ranges`, `Merging`, `Carving`, `Planning`, `Reading`, `Pooling`, `Narrowing`, `Mapping`).
Field spans become block reads under a width cap and an optional map of readable ranges. The planner's
plan is proved minimal among all plans that keep the rules, and a pooled read is proved to give every
field exactly what reading it alone would. Maps of several components merge; what a merge means, when
it raises, and that it does not depend on order are proved from the addresses alone. The device is a
fixed function from space and address to a word.

**SunSpec layouts** (`Layout`, `Placement`, `Acceptance`, `Emission`, `Generation`, `Compilation`). A definition is a tree of groups
that repeat by numbers or by count points. Its meaning is the sequential layout: points in order, then
every instance of each nested group end to end. Which definitions the generator accepts is stated on the
definition alone, both ways. The generator's instance-0 addresses, linear strides,
collapsed siblings, and scale and count references are proved to read exactly that layout.

**Live trees** (`Refreshing`, `Deployment`, `Caching`). A component grows and shrinks its repeating
groups in place as counts change. One update from any earlier state is proved to give the tree that
building from scratch would, and to keep every instance it can; composed with the generator, the live
tree reads the definition's layout. Cached read targets and plans, dropped upwards on every change, are
proved to equal what the current tree would give.

**The link** (`Linking`, `Pacing`). Connect callers, one shared connect flight, teardowns, unit requests
and transport losses interleave at awaits. Clients are proved to be conserved in every interleaving, a
closed connection to stay closed, and a raised timeout never to be forgotten. Requests take turns with
the gaps owed between them. One assumption is made of the transport, and proved to be exactly what is
needed: the loss hook of an old client does not run while a newer one is published.

**Discovery and encoding** (`Scanning`, `Codec`). The model chain and the integer and string codecs
round-trip, with exact bounds, at every width and length.

Where the source loops or updates state the model has a method or a class whose methods are proved
against specification functions; the theorems are about those functions and states.

Five places where the code does less than one would expect are stated as lemmas:
`Narrowing.NarrowingCanBreakAPlan` (narrowing can leave a component that cannot be planned; the exact
condition is in `Narrowing.NarrowingIsSafe`, and `Narrowing.NarrowingToApartIsPlannable` is one a caller
can check), `Linking.DeadClientIsReached` (a client lost during the connect delay is published dead;
`Linking.PublishedIsAliveIff` says exactly when one is alive, and `Linking.NoDelayNoExposure` what
configuring no delay gives), `Merging.StagingCanConflict` (merging in stages can conflict where merging
at once does not; `Merging.StagedMergeRaisesIff` says when), `Compilation.OverrideCanFill` (overriding a
count with 0 can make the block fill the model; `Compilation.OverrideHolds` says when it does not) and
`Compilation.AliasNamesItsSibling` (the property named after a collapsed sibling can index another). A
group whose members' maps stop fitting together keeps its old ranges and plan; the contract of
`Caching.Pool.Invalidate` says exactly when.

## Model

| member | source | states |
|---|---|---|
| `Ranges.ValidMeansDisjoint` | src/modbus_connection/model/_ranges.py:34-47 | A map passes validation exactly when no range is reversed and no address lies in two of them, although the code only compares neighbours after sorting. |
| `Ranges.Coalesce` | src/modbus_connection/model/_ranges.py:50-63 | The joining loop computes the specification whose meaning `CoalesceMeaning` states. |
| `Ranges.CoalesceMeaning` | src/modbus_connection/model/_ranges.py:50-63 | Joining covers the same addresses, leaves a gap between neighbouring runs, and puts two addresses in one run exactly when everything between them is covered. |
| `Ranges.CutRunCuts` | src/modbus_connection/model/_ranges.py:213-220 | Cutting a run at the declared edges keeps its addresses, and separates two of them exactly when an edge lies between. |
| `Carving.SplitRanges` | src/modbus_connection/model/_ranges.py:66-85 | The loops that split ranges around excluded addresses compute the specification. |
| `Carving.ExcludingMeaning` | src/modbus_connection/model/_ranges.py:66-85 | Two addresses share a run of the result exactly when one input interval held both and nothing excluded lies between: intervals are only split, never joined. |
| `Carving.SplittingKeepsValid` | src/modbus_connection/model/_ranges.py:66-85 | Splitting a map without overlaps leaves a map without overlaps. |
| `Merging.Merge` | src/modbus_connection/model/_ranges.py:155-222 | Filing every device's maps by kind, merging space by space and raising on the first conflict computes the specification, whatever order the spaces come in. |
| `Merging.MergeRaisesIff` | src/modbus_connection/model/_ranges.py:190-200 | Merging one space raises exactly when two declarations cover a common address but reach different addresses from it without a break. |
| `Merging.MergeMeaning` | src/modbus_connection/model/_ranges.py:190-221 | A merged map joins two addresses in one run exactly when some part covers each address between them and no declared edge separates them; it is declared exactly when some part is. |
| `Merging.MergedMeaning` | src/modbus_connection/model/_ranges.py:155-222 | The same for whole devices: which merges raise, which spaces are constrained, and what each space's map means. |
| `Merging.RunsAreUnique` | src/modbus_connection/model/_ranges.py:213-221 | That meaning determines the ranges: two ordered maps that join the same addresses are the same list. |
| `Merging.MergeIgnoresOrder` | src/modbus_connection/model/_ranges.py:155-222 | Merging the same maps in any order raises alike or gives the same map. |
| `Merging.MergeIsIdempotent` | src/modbus_connection/model/_ranges.py:155-222 | Merging a merged map by itself gives it back. |
| `Merging.MergeCommutesWithShift` | src/modbus_connection/model/_ranges.py:124-143 | Shifting every part and merging is merging and shifting the result, conflicts included. |
| `Merging.StagedMergeRaisesIff` | src/modbus_connection/model/_ranges.py:192-221 | Merging a merged map with one more declaration raises exactly when that declaration disagrees with everything merged so far taken together. |
| `Merging.StagingCanConflict` | src/modbus_connection/model/_ranges.py:192-221 | Merging is not associative: three declarations merge at once, but merging two first makes the third conflict. |
| `Planning.PlanBlocks` | src/modbus_connection/model/_planning.py:50-101 | The planner's loops compute the specification, errors included. |
| `Planning.PlanIsAdmissible` | src/modbus_connection/model/_planning.py:62-101 | A plan reads every span whole, caps every block, keeps each block in one range (or bridges no wide gap), starts and ends blocks on spans, and both ends strictly increase. |
| `Planning.FewestReads` | src/modbus_connection/model/_planning.py:84-101 | If any list of blocks at all, wherever its blocks start and end, reads every span whole within the width cap and inside one range (or holding no span further than the gap rule from what it holds before it), planning succeeds with no more blocks than that list has; and the plan made is such a list. |
| `Planning.NoWideGapIsPermitted` | src/modbus_connection/model/_planning.py:84-101 | In terms of addresses: every block in which two occupied addresses further apart than the gap rule have another between them is among those the plan is compared with. |
| `Planning.RivalIsAccepted` | src/modbus_connection/model/_planning.py:67-83 | Spans are refused only when no list of blocks at all could read them within those limits. |
| `Planning.PlanShifts` | src/modbus_connection/model/_planning.py:50-101 | Spans and ranges moved by k are planned in the same blocks moved by k, or refused alike. |
| `Reading.BuildServes` | src/modbus_connection/model/_planning.py:162-184 | Whatever plan is built covers every register and the scale register of every field it was built for. |
| `Reading.SpansAreNeeded` | src/modbus_connection/model/_planning.py:104-111 | The spans a field is planned with hold its own registers and its scale register, and no others. |
| `Reading.Execute` | src/modbus_connection/model/_planning.py:186-226 | Executing a plan looks up no word it did not read, leaves each store as if every field had been read alone, and returns as raw exactly the device restricted to the blocks. |
| `Reading.LastItemWins` | src/modbus_connection/model/_planning.py:209-219 | Under each name a store then holds the value of the last item that writes that name there. |
| `Reading.OtherNamesStay` | src/modbus_connection/model/_planning.py:209-219 | A name no item writes in a store keeps what it had there, or stays absent. |
| `Reading.ExponentIsSigned` | src/modbus_connection/decode.py:57-59 | A scale register, whatever word it holds, is read as a signed 16-bit integer. |
| `Pooling.RangesBySpace` | src/modbus_connection/model/component_group.py:37-63 | The loop over members, each claiming for itself what it leaves unmapped, computes the group's map or the error. |
| `Pooling.SharedSpanIs` | src/modbus_connection/model/component_group.py:65-73 | The width cap of a group is the one all its members have, and there is none when they differ. |
| `Pooling.GroupIsMadeIff` | src/modbus_connection/model/component_group.py:37-63 | A group's map can be made exactly when no member leaves unmapped a field wider than it may read at once, and no two members' declarations disagree about an address both cover; which error it is says which. |
| `Pooling.ClaimIsSolo` | src/modbus_connection/model/_planning.py:114-138 | A claim covers exactly the blocks the member would read alone in the spaces it declares nothing for. |
| `Pooling.GroupMapMeaning` | src/modbus_connection/model/component_group.py:37-63 | The group's map joins two addresses exactly when every address between is declared or read alone by some member and no member's edge separates them; every space read has a map. |
| `Pooling.PoolingNeverWidens` | src/modbus_connection/model/component_group.py:75-83 | A pooled block holds only addresses some member declared or would read alone, and crosses no edge any member declared. |
| `Pooling.PoolingFailsOnlyOnEdges` | src/modbus_connection/model/component_group.py:60-83 | When the group can be made (its maps merge and its members share a width cap) and each member can be read alone, the pooled plan is refused exactly when a declared edge falls strictly inside a span some member reads. |
| `Mapping.MapMeaning` | src/modbus_connection/model/_component_base.py:197-251 | The map of a component with instances constrains exactly the spaces some part maps; there it joins two addresses exactly when everything between is mapped by a part, or lies in the blocks in which the parts without a map are read together, and no declared edge separates them. |
| `Mapping.MapFailsIff` | src/modbus_connection/model/_component_base.py:203-251 | There is no such map exactly when a part without one needs more registers at once than a read gives, in a space others map, or two declarations disagree about an address both cover. |
| `Mapping.NothingReadIsLost` | src/modbus_connection/model/_component_base.py:225-251 | Every register a part without a map reads is covered, where its space is mapped at all. |
| `Narrowing.Component.RestrictFields` | src/modbus_connection/model/component.py:240-292 | Narrowing refuses groups and names no field has, unchanged; otherwise exactly the fields of those names stay, with their values, the others' values are forgotten, the ranges are reshaped and the plan is dropped. |
| `Narrowing.NarrowingIsSafe` | src/modbus_connection/model/component.py:240-330 | Narrowing a readable component at instance offset 0 never raises; it can be planned again unless its ranges were synthesised from kept fields whose own blocks overlap, and then it cannot; no block of the new plan holds an address that lies in the registers of a dropped field and in no span of a kept one; declared ranges are only split; synthesised ones are claims. |
| `Narrowing.NarrowingToApartIsPlannable` | src/modbus_connection/model/component.py:294-330 | A caller's condition: when no two kept spans, scale registers included, share an address unless they are the same, the narrowed component can always be planned. |
| `Narrowing.NarrowingReadsWhatItKeeps` | src/modbus_connection/model/component.py:294-330 | The narrowed plan still reads every kept field and its scale register whole. |
| `Narrowing.NarrowingCanBreakAPlan` | src/modbus_connection/model/component.py:327-330 | A readable layout of three fields that narrowing makes unplannable: the synthesised ranges overlap. |
| `Narrowing.PlanInMoves` | src/modbus_connection/model/component.py:148-157 | The plan of a component at any base offset is its plan in declared coordinates moved by that offset. |
| `Layout.PlacePoints` | src/modbus_connection/model/sunspec/generate.py:111-132 | Points are placed one after the other: the i-th at the start plus the sizes before it. |
| `Layout.PlaceGroup` | src/modbus_connection/model/sunspec/generate.py:387-440 | The loop over nested groups (addresses, sizes, terms, collapsed siblings, refusals) computes the specification of a parsed group; `Acceptance.AcceptedIff` says when it refuses. |
| `Acceptance.AcceptedIff` | src/modbus_connection/model/sunspec/generate.py:387-440 | Exactly when a definition is accepted, on the definition alone: every nested group is, and each may follow those before it (a block of unknown size or counted by a point is last; behind a fixed number of blocks that hold count-point blocks come only blocks of their shape). |
| `Acceptance.RegionsAreMaximal` | src/modbus_connection/model/sunspec/generate.py:415-421 | A collapsed region takes every same-shaped sibling behind its first: the next sibling, if any, has another shape. |
| `Acceptance.AlikeRegionsAreAccepted` | src/modbus_connection/model/sunspec/generate.py:405-436 | A curve of any number of same-shaped regions, each with a block counted by a point, is accepted as one region of that count. |
| `Placement.SizesAreRight` | src/modbus_connection/model/sunspec/generate.py:400-440 | For every valuation consistent with the overrides, a parsed group's size plus each term times its count point is the registers one instance occupies in the sequential layout. |
| `Placement.SameRegisters` | src/modbus_connection/model/sunspec/generate.py:375-384 | Blocks of the same shape occupy the same registers whatever they are called. |
| `Placement.InstancesArePlaced` | src/modbus_connection/model/sunspec/generate.py:387-440 | Each instance of the definition is found in the placed tree, collapsed siblings included, where start plus index times stride is its offset in the sequential layout, with its points in order. |
| `Placement.PlacedAreInstances` | src/modbus_connection/model/sunspec/generate.py:387-440 | Conversely, every instance of the placed tree is one the definition denotes. |
| `Generation.GenerationSucceedsIff` | src/modbus_connection/model/sunspec/generate.py:592-821 | Exactly when a model's classes are generated, on the definition alone: its layout is accepted, every override names a count, each wired block finds its count and has a stride, each scaled point finds its factor in its own block or the fixed one, and every type is supported. |
| `Generation.WiredIff` | src/modbus_connection/model/sunspec/generate.py:602-659 | Exactly which blocks of the model the emitted class builds: those with a count, and one of a plain size that fills the model. |
| `Emission.WidthsAreNamed` | src/modbus_connection/model/sunspec/generate.py:259-326 | A field is as wide as its type's name promises, whatever size the definition gives; only a string is as wide as the definition says. |
| `Emission.ScaledTypesAreNamed` | src/modbus_connection/model/sunspec/generate.py:269-283 | Integers and accumulators are the types a factor scales. |
| `Compilation.OverrideHolds` | src/modbus_connection/model/sunspec/generate.py:468-481 | What an override of 0 or less emits: a block whose enclosing block has one count point is sized by that register, so the override of that point is ignored; otherwise it fills the model or is left out. The emitted count equals the count point's value exactly when that register, the span, or nothing says as many. |
| `Compilation.OverrideCanFill` | src/modbus_connection/model/sunspec/generate.py:435-481 | A definition counted by a uint16 point where telling the generator the point's true value 0 makes the block fill the model. |
| `Compilation.DeviceSizedIsLast` | src/modbus_connection/model/sunspec/generate.py:402-432 | A block of the model whose count is not a number is the last one, and its instances are the rest of the model. |
| `Compilation.StrideHolds` | src/modbus_connection/model/sunspec/generate.py:484-494 | An emitted stride, evaluated over the model's own count attributes, is the registers between neighbouring instances. |
| `Compilation.CountedChild` | src/modbus_connection/model/sunspec/generate.py:443-481 | However deep a counted block sits, its emitted count and stride give as many instances, as far apart, as the definition says. |
| `Compilation.BindFits` | src/modbus_connection/model/sunspec/__init__.py:573-583 | A model-length group binds n instances exactly when n whole blocks fill the model from its start on, and is refused when no number does. |
| `Compilation.NestedReads` | src/modbus_connection/model/sunspec/generate.py:661-695 | A nested class reads the emitted points of its own instance and no others, as wide as each point's type says, each scaled by its own instance's factor of that name if the block declares one, and by the fixed block's otherwise. |
| `Compilation.BuiltTreeIsPlaced` | src/modbus_connection/model/_component_base.py:92-162 | The tree the emitted classes build has exactly the instances of the placed tree, each shifted by the sum of index times stride. |
| `Compilation.CompiledLayoutIsSequential` | src/modbus_connection/model/sunspec/generate.py:387-821 | Compilation preserves layout: every instance of an accepted definition exists at run time, and its class has one field for each point that becomes one, in order, at its address in the sequential layout, each as wide as its type says and scaled by the register of the last factor so named in its own block, or else in the fixed one. |
| `Compilation.NothingElseIsBuilt` | src/modbus_connection/model/sunspec/generate.py:387-821 | And every instance built at run time is one the definition denotes. |
| `Compilation.CountStaysPut` | src/modbus_connection/model/_component_base.py:146-162 | The count register of a block nested at any depth is read at its point of the fixed block, whatever the instance's shift. |
| `Compilation.AliasNamesItsSibling` | src/modbus_connection/model/sunspec/generate.py:646-653 | Wherever the enclosing block starts, so for regions nested in a curve too: the property named after a collapsed sibling indexes by sibling number, which is that sibling's start exactly when it is the first, or siblings are single instances, or they occupy nothing. |
| `Refreshing.PlaceGroups` | src/modbus_connection/model/_component_base.py:289-309 | The resizing loop keeps the survivors of each group, rebuilds all of them when the stride changed, fails on a stride that is not positive, and reports a resize whenever the tree changed. |
| `Refreshing.RefreshGroups` | src/modbus_connection/model/_component_base.py:269-326 | The whole second pass (fixed groups first, then resize, read what was added, recurse) computes the specification of a refresh. |
| `Refreshing.RefreshIsIdeal` | src/modbus_connection/model/_component_base.py:269-326 | Refreshing any coherent tree that has just been read gives the tree the device describes, or fails exactly when that tree has a stride that is not positive. |
| `Refreshing.UpdateIsRebuild` | src/modbus_connection/model/_component_base.py:269-326 | One update from any coherent state (any earlier counts, strides, values and nesting) yields the same instances, offsets and values as updating a freshly built component. |
| `Refreshing.AnyRunEndsIdeal` | src/modbus_connection/model/_component_base.py:269-326 | After any run of successful updates against a changing device, the component is what the device last described, and coherent. |
| `Refreshing.UpdateKeepsInstances` | src/modbus_connection/model/_component_base.py:289-307 | Across an update the listeners of an instance survive, at any depth, exactly for fixed instances and for the leading instances still wanted of a group whose stride did not change. |
| `Deployment.IdealIsBuilt` | src/modbus_connection/model/component.py:369-403 | The tree a component ends up with has exactly the instances the emitted class builds, each at its place with its fields read there, once the attributes strides use are read, which `AttributesAreRead` proves they are. |
| `Deployment.OneGroupEach` | src/modbus_connection/model/component.py:90-105 | A component has one group for each wired one of its class, fixed or placed when polled, and no others. |
| `Deployment.ResolveIsPlaced` | src/modbus_connection/model/component.py:136-157 | A field of a live instance is read, and its scale register too, where its class places it, in the block or out of it. |
| `Deployment.AttributesAreRead` | src/modbus_connection/model/sunspec/generate.py:484-494 | After a read of the model, every attribute an emitted stride is computed from, at any depth, holds the value of its own register: the last point of a name is the last field read under it. |
| `Deployment.UpdatedModelIsSequential` | src/modbus_connection/model/sunspec/generate.py:757-821 | From definition to live tree: after any run of updates, the live component has every instance the definition lays out for the counts the device holds, and under each name the decode of the words at that point's place in the sequence, scaled by the signed word of its factor's register. |
| `Deployment.NothingElseIsLive` | src/modbus_connection/model/_component_base.py:289-326 | And every instance of the live tree is one the definition lays out. |
| `Caching.Node.GetReadItems` | src/modbus_connection/model/_component_base.py:174-187 | Filling the item caches, recursively, changes no layout and no cache that was filled, and keeps every cache right. |
| `Caching.Node.ResolveRanges` | src/modbus_connection/model/_component_base.py:197-251 | Resolving a component's map gives what its tree alone says, the map or the error, filling caches on the way and keeping every cache right. |
| `Caching.Node.EnsurePlan` | src/modbus_connection/model/_planning.py:275-278 | A plan can be had exactly when the map and the read targets worked out from the tree alone can be planned; building it keeps every cache right. |
| `Caching.Node.Invalidate` | src/modbus_connection/model/_planning.py:262-266 | After one component's layout changed, upward invalidation leaves every layout as it is and every cache in the tree right, and the group's ranges rebuilt; it fails exactly when the members' maps no longer fit together, and then the group is untouched. |
| `Caching.Pool.Invalidate` | src/modbus_connection/model/component_group.py:33-35 | A group recomputes its merged ranges and drops its plan exactly when the maps of its members' trees fit together, and otherwise raises and keeps both as they were. |
| `Caching.Pool.EnsurePlan` | src/modbus_connection/model/component_group.py:75-83 | The pooled plan can be had exactly when what the members' trees read can be planned under the group's ranges; building it keeps those and every cache right. |
| `Caching.Gather` | src/modbus_connection/model/component_group.py:21-31 | Pooling outermost components makes the group their parent, and succeeds, with right ranges, exactly when their maps fit together. |
| `Caching.Node.RestrictFields` | src/modbus_connection/model/component.py:240-292 | Narrowing a live component keeps exactly the named targets, changes no other component's layout, keeps every cache right, and reports a conflict exactly when the group's maps no longer fit. |
| `Caching.Node.Add` | src/modbus_connection/model/manual.py:58-109 | Adding a target replaces what was under its key and puts it last, and changes nothing else; it stops after the removal exactly when the maps do not fit without the old target, and reports a conflict exactly when those of the tree it leaves do not. |
| `Caching.Node.AddPolled` | src/modbus_connection/model/manual.py:76-87 | Adding a group that is placed when polled adds its count register to the targets and nothing else, with the same two points of failure. |
| `Caching.Node.AddStatic` | src/modbus_connection/model/manual.py:76-83 | Adding a group of fixed count builds its instances and leaves every other component's layout alone, with the same two points of failure. |
| `Caching.Node.Remove` | src/modbus_connection/model/manual.py:111-121 | Removing a key drops its target and its groups, nothing else in the tree, keeps every cache right, and reports a conflict exactly when the group's maps no longer fit. |
| `Caching.Node.Resize` | src/modbus_connection/model/_component_base.py:289-317 | Resizing keeps the leading instances of each group, builds the others behind them and leaves every cache right; it reports a conflict exactly when the group's maps no longer fit, and otherwise fails exactly when no plan reads the new instances under the component's new map. |
| `Caching.NamedStay` | src/modbus_connection/model/component.py:275-292 | Narrowing a live component leaves exactly the targets named, in their order. |
| `Caching.OthersStay` | src/modbus_connection/model/manual.py:111-121 | Dropping a key leaves exactly the targets under other keys, in their order. |
| `Caching.RemovingUndoesAdding` | src/modbus_connection/model/manual.py:58-121 | Adding under an unused key, a target or a group of either kind, and removing it again gives the component back. |
| `Caching.AddedComesLast` | src/modbus_connection/model/manual.py:58-109 | What is added is read last, after everything that was there; a polled group at first by its count register alone. |
| `Caching.LeadingInstancesStay` | src/modbus_connection/model/_component_base.py:289-309 | Each resized group has as many of its leading instances as stay, in place, and behind them what was built for it; every other group is as it was. |
| `Caching.SameSizeChangesNothing` | src/modbus_connection/model/_component_base.py:299-300 | A resize is skipped exactly when it would leave every group as it is. |
| `Caching.CachesAreCurrent` | src/modbus_connection/model/_component_base.py:140-187 | Cache coherence: whatever items, map or plan a component has cached equals working them out from the tree as it now is. |
| `Caching.GroupIsCurrent` | src/modbus_connection/model/component_group.py:37-83 | And so do a group's merged ranges, and its plan if it has one. |
| `Linking.Resolve` | src/modbus_connection/_client.py:260-268 | The resolved value is the largest asked for, or the default when nothing was asked. |
| `Linking.Keeps` | src/modbus_connection/_client.py:324-437 | Every step between two awaits, of any caller, flight, teardown, unit or transport, keeps the link's invariant. |
| `Linking.ClientsAreConserved` | src/modbus_connection/_client.py:324-437 | In every reachable state at most one connect flight is unfinished, every client is in the hands its fate names and closed at most once, and cached unit handles belong to the published client. |
| `Linking.FatesMoveOn` | src/modbus_connection/_client.py:347-363 | A client's fate only moves forward: in flight, then published, failed or closing; published, then closing or taken; closing, then closed. |
| `Linking.ClosedForGood` | src/modbus_connection/_client.py:428-437 | Once `close` marked the connection nothing is ever published again, in any continuation. |
| `Linking.NoneAfterClose` | src/modbus_connection/_client.py:420-437 | Once a `close` has returned no client is published, now or later. |
| `Linking.StaleTimeoutIsReplaced` | src/modbus_connection/_client.py:373-387 | The timeout is always what was asked; while the published or coming client runs with less, some teardown is still to take it. |
| `Linking.TimeoutIsAsked` | src/modbus_connection/_client.py:251-268 | In every run each unit's ask on record is the last it made that was not refused, and the timeout and the delay are the largest of those and the connection's own, or the default. |
| `Linking.RaisingTearsDown` | src/modbus_connection/_client.py:373-387 | Asking for a timeout schedules a teardown exactly when the live or coming client runs with less than the new timeout; a link that is down is left alone. |
| `Linking.AssumptionIsNeeded` | src/modbus_connection/tmodbus/__init__.py:292-301 | A loss hook keeps the invariant exactly when it is not an old client's while a newer one is published: the assumption the code makes of its transport is the one it needs. |
| `Linking.LostInDelayIsPublished` | src/modbus_connection/tmodbus/__init__.py:292-301 | From any state the invariant allows: a client the transport drops during the connect delay is published all the same, since the hook finds nothing published. |
| `Linking.DeadClientIsReached` | src/modbus_connection/_client.py:347-363 | The five steps from a new connection with a delay that end with a dead client published. |
| `Linking.PublishedIsAliveIff` | src/modbus_connection/tmodbus/__init__.py:292-301 | In every run, the published client of an open connection is alive exactly when the transport did not drop it while its flight was unfinished. |
| `Linking.NoDelayNoExposure` | src/modbus_connection/_client.py:349-363 | With no connect delay configured or asked for, no flight ever waits one out, and a published client is dead only if it was dropped inside its connect call. |
| `Linking.ConnectStartsAnew` | src/modbus_connection/_client.py:324-345 | Once a flight has landed and its callback has run, a connect caller of an open link that is down starts a new flight. |
| `Linking.StepsAreTakenOnce` | src/modbus_connection/_client.py:347-426 | A flight or teardown that took a step is past it. |
| `Linking.NobodyIsStuck` | src/modbus_connection/_client.py:347-437 | Every unfinished flight can go on, and every teardown, unless it waits for a flight that is not over. |
| `Linking.HandlesAreLookedUp` | src/modbus_connection/tmodbus/__init__.py:184-191 | Looking up a unit's handle adds that unit to the handles and changes nothing else; all of them are the published client's. |
| `Linking.Connection.Connect` | src/modbus_connection/_client.py:324-338 | A connect caller starts a flight only if there is neither a client nor a flight, and is refused when closed. |
| `Linking.Connection.StartFlight` | src/modbus_connection/_client.py:347-349 | The flight builds its client with the timeout as it is when it starts. |
| `Linking.Connection.FlightOpened` | src/modbus_connection/_client.py:349-363 | A connected client waits out the delay, or is published, or closed when the connection was closed meanwhile. |
| `Linking.Connection.TakeClient` | src/modbus_connection/_client.py:421-426 | A teardown unpublishes whatever client is published before it closes it; afterwards none is. |
| `Linking.Connection.Close` | src/modbus_connection/_client.py:428-437 | Closing marks the connection before its teardown starts. |
| `Linking.Connection.OnConnectionLost` | src/modbus_connection/tmodbus/__init__.py:292-301 | The hook unpublishes the client and fires callbacks exactly when the lost client is the published one and the connection is open. |
| `Linking.Connection.RequireTimeout` | src/modbus_connection/_client.py:373-387 | Asking for a timeout records it, resolves it anew, refuses a negative one, and schedules a teardown when the live or coming client is below it. |
| `Linking.Connection.UnitClient` | src/modbus_connection/tmodbus/__init__.py:184-191 | The handle a request uses is always one of the published client. |
| `Pacing.Keeps` | src/modbus_connection/_pacing.py:33-65 | Every step of requests, teardowns, clock and settings keeps the pacer's invariant. |
| `Pacing.TurnsArePaced` | src/modbus_connection/_pacing.py:51-65 | Over any run turns never overlap, and each starts no sooner after the previous one finished than the link's gap, its own unit's and the previous unit's as they were when it got the lock. |
| `Pacing.WaitsNoLonger` | src/modbus_connection/_pacing.py:52-61 | A request that gets the lock runs at once exactly when no gap owed is still running, or none is set, and otherwise sleeps exactly until the last of them is over. |
| `Pacing.GapsAreAsked` | src/modbus_connection/_pacing.py:24-32 | In every run each unit's gap is the last one asked for that was not refused, or none, and nobody who arrived is forgotten. |
| `Pacing.NobodyIsStuck` | src/modbus_connection/_pacing.py:34-65 | Whoever queues can have the lock, or whoever has it can go on, now or once the clock has moved; a teardown can always go ahead. |
| `Pacing.GivingUpHoldsNothing` | src/modbus_connection/_pacing.py:34-49 | A teardown that timed out holds no lock and releases none. |
| `Pacing.HoldingIsLetGo` | src/modbus_connection/_pacing.py:41-49 | One that got the lock holds it until it lets go of it. |
| `Pacing.Pacer.Acquire` | src/modbus_connection/_pacing.py:52-61 | A request that gets the lock sleeps out what is left of the largest gap owed, or runs at once. |
| `Pacing.Pacer.Done` | src/modbus_connection/_pacing.py:62-65 | A finished request records when it finished and its unit, and lets go of the lock. |
| `Pacing.Pacer.SetUnitSpacing` | src/modbus_connection/_pacing.py:24-32 | Setting a gap replaces it, zero clears it, a negative one is refused. |
| `Scanning.Scan` | src/modbus_connection/model/sunspec/scan.py:78-96 | The scan loop computes the specification, errors included. |
| `Scanning.ScansExactly` | src/modbus_connection/model/sunspec/scan.py:78-96 | A scan succeeds with a chain exactly when the image holds the marker, then those models one span after the other, at most 99, then the end ID. |
| `Scanning.ScanFails` | src/modbus_connection/model/sunspec/scan.py:83-96 | It fails for want of the marker, or because every chain the image holds has 100 models or more. |
| `Scanning.ChainIsWalk` | src/modbus_connection/model/sunspec/scan.py:43-54 | Sorting what was grouped by ID gives the walk back in order. |
| `Scanning.LaidOutIsScanned` | src/modbus_connection/model/sunspec/scan.py:43-96 | Any list of at most 99 models, laid out and scanned, comes back in order. |
| `Scanning.FirstIsEarliest` | src/modbus_connection/model/sunspec/scan.py:64-75 | Looking up IDs in order of preference gives the first of them that occurs, at its first place in the chain, and nothing exactly when none occurs. |
| `Codec.CombineWords` | src/modbus_connection/decode.py:28-34 | The packing loop computes the words' value in either word order. |
| `Codec.PackedSplit` | src/modbus_connection/encode.py:24-32 | Packing the n low words of an integer gives it back modulo what n words hold. |
| `Codec.SplitPacked` | src/modbus_connection/decode.py:28-34 | Splitting what words were packed into gives the words back. |
| `Codec.DecodedDigits` | src/modbus_connection/decode.py:28-49 | Each word is one base-65536 digit of the decode, at the place its word order gives it; a negative one in two's complement. |
| `Codec.EncodedDigits` | src/modbus_connection/encode.py:24-51 | And each word an integer is encoded in is that digit of the integer. |
| `Codec.EncodesExactly` | src/modbus_connection/encode.py:35-51 | For every n of at least 1, an integer is accepted exactly from minus half of what n words hold up to, but not including, all of it. |
| `Codec.IntRoundTrip` | src/modbus_connection/decode.py:41-49 | Decoding an encoded integer gives it back exactly when the signedness matches, for every width and word order. |
| `Codec.WordsRoundTrip` | src/modbus_connection/encode.py:35-51 | Encoding the decode of any words, signed or unsigned, gives the same words. |
| `Codec.StringComesBack` | src/modbus_connection/encode.py:98-102 | What comes back of a string is what fits of its ASCII characters, without trailing NULs. |
| `Codec.CharactersInOrder` | src/modbus_connection/encode.py:98-102 | The high byte of the i-th word is character 2i, the low byte the next, and NUL beyond the end. |
| `Codec.StringRoundTrip` | src/modbus_connection/decode.py:96-99 | A string survives encoding exactly when it is ASCII, fits, and does not end in a NUL. |

## Left out

- I/O, sockets, TLS, serial framing, retries and foreign Modbus libraries: a backend is success, failure or loss.
- Floating point: scaling by powers of ten, float fields and rounding; decoders stay abstract functions of a field's words and scale exponent.
- Generated text: identifiers, docstrings, enums, imports and block-write helpers; what is emitted is modelled as a layout by functions, not by the writer objects that assemble the text.
- Error messages: every refusal of one kind is one error value, and which of two errors is raised first is not told apart.
- Count points that sit inside a repeated block; the layout theorems ask that only the fixed block declares them, and that they are plain unsigned words that are implemented.
- Compilation.CompiledLayoutIsSequential: leaves out blocks the generator only mentions in a comment for its user to size (`Generation.WiredIff` says which they are), and reads a filling block's number of instances from the model's span or its one count point.
- Deployment.UpdatedModelIsSequential: asks that the points blocks are counted by are of type count or unscaled uint16, and that such fields and count registers decode as unsigned words, since decoders are abstract.
- Placement.InstancesArePlaced: takes overrides that are at least 1 and that the device agrees with; `Compilation.OverrideHolds` says what others do.
- Refreshing.RefreshGroups: works on values, so that an instance is the same object after a refresh is told by its listeners; reading is the effect `Reading.Execute` is proved to have, and plans are taken to build (`Caching.Node.Resize` says when the plan for added instances does not).
- A stride callable that raises midway through resizing several groups, and a component placed in two groups.
- Caching.Node.Resize: takes which instances stay and what is built as given; `Refreshing` says which they are.
- Caching.Node.RestrictFields: takes the reshaped ranges as given; `Narrowing` says which they are.
- Narrowing.NarrowingIsSafe: a component at an instance offset with a shared scale register, whose synthesised range would shift while its scale address does not.
- Spans of width 0, and gap rules below 0, in the planner: every field spans at least one register and `max_gap` is not negative.
- Cancellation and fairness of tasks: `Linking.NobodyIsStuck` and `Pacing.NobodyIsStuck` say that somebody can always go on, not that everybody's turn comes; who gets the lock next is arbitrary, and a sleep lasts at least as long as asked.
- Linking.Connection.TakeClient: getting the pacer's lock and giving up on it after the grace period lead to the same step; the lock itself is modelled in `Pacing`.
- Gapless block writes, packed bits, device bookkeeping, endpoints and exception codes: single branches with nothing to prove across functions.
