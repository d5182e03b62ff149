# gisland verification

A Dafny model of the gisland desktop island: the daemon that supervises module processes, arbitrates what they publish,
lays out their scenes and serves a control socket. The model follows the C++ sources branch by branch and proves what
their parts promise each other.

Three systems carry most of the weight.

**Layout.** A scene is measured, constrained to a width in place, and placed (`SceneMeasure`, `WidthConstraint`,
`Placement`); `MeasuredSizes`, `ConstrainedSizes`, `PlacementGeometry` and `PlacementConditions` say of every kind of
node what each pass makes of it, and when. Placement computes the distribution of every row and column again, from nodes the second pass has
rewritten, and the renderer relies on the two results agreeing. `FlexDistribution` proves the stability of greedy
shrinking that makes them agree, `WidthAgreement` carries it through whole trees, and `LayoutEngine` states it for every
successful layout whose rows leave room for their columns' spacers, a condition proved exact for each row. `WideSpacer`
is a scene that leaves none. `Containment` and `HitTesting` build on the same placement. `SizeLoops`, `MeasuredTree` and
`PlacementPass` are the same passes in the imperative form of the source, proved against the functions.

**Supervision and control.** `ModuleLifecycle` is the state machine of one module: handshake, escalation from shutdown
message to TERM to KILL, backoff and lockout. `SupervisedInstance`, `ModuleSupervisor`, `SupervisorInvariant` and
`SupervisorRuns` model the supervisor's loop as atomic steps over all instances and prove trace properties over every
interleaving; `SupervisorLoop` is the object with its handlers. `SupervisorOutcomes`, `SupervisorSteps` and
`SupervisorPlans` say what each command and each step achieves, and `SupervisorPromises` what follows over runs: a
requested restart ends in a new generation, a replacement in its own request. `EventQueue`, `ControlDispatcher` and `ControlServer`
follow an action's token from the client that waits for it to its completion; `SupervisorGrowth`, `SupervisorAnswers`
and `DeliveryOrder` carry the order of deliveries and results through all three. `Reload` compares configurations and
plans what to stop and start.

**Streams, codecs, schedulers.** `WriteQueue`, `LineBuffer`, `Framing` and `LuaTransport` cover line framing end to end;
`Base64` and `ImageResources` the image payloads; `Utf8`, `TextEditor` and `TextTruncation` text at the byte level, and
`ScalarEditor` the editor over code points that the one over bytes refines. `LuaHeap`, `LuaConversion`, `LuaAcceptance`,
`LuaRefusals` and `LuaBridge` carry JSON into a Lua heap and back. `TimerScheduler` models
the timers of a scripted module, `ContextArbiter` the choice of what is shown.

Conventions. Each component has functions that say what an operation does to a state, lemmas about runs of them, and,
where the source updates fields or loops, a class or a method proved to do the same. What the program learns from
outside (the operating system's answers, text metrics, callbacks, the time) is a parameter. Times are integers that do
not run backwards where a property needs that. Pixel arithmetic is checked at 32 bits as in the source.

Five findings are stated as theorems rather than assumed away:

- `PlacementProperties.RowPlacedAsConstrainedIff`, `WidthAgreement.ColumnKeepsMinimumIff` and
  `WideSpacer.WideSpacerDisagrees`: the measuring pass ignores a rigid spacer across a column's axis
  (src/layout.cpp:232-235), the constraining pass counts it (src/layout.cpp:1013-1014), so a row is placed as it was
  constrained exactly if the widths it assigned leave room for such spacers.
- `Reload.UnchangedProcessesAreUntouched` and `Reload.NaNOptionRestarts`: doubles are compared with `==`
  (src/reload.cpp:51), so a module with a NaN among its options is started anew by every reload.
- `Reload.ApplyingReachesCandidate` and `Reload.GainedViewIsNotOffered`: whether a module has a view decides what its
  process is offered at start, but is not part of what makes a process count as changed.
- `SupervisorPromises.ReplacementGetsItsTurnIff` and `SupervisorPromises.OldRequestStartsAgain`: when the process of a
  module ends that was being stopped for a failure, a replacement asked for meanwhile is looked at only if the module
  comes to rest (src/module_supervisor.cpp:973); otherwise the backoff starts the old request again.
- `ContextArbiter.ReadBeforeHoldMatters`: a hold placed after an activation's deadline revives it unless something has
  read the arbiter in between.

## Model

| member | source | states |
|---|---|---|
| `Pixels.IntersectIsExact` | src/layout.cpp:132-161 | Whenever intersecting succeeds, a pixel is covered by the result exactly if both rectangles cover it. |
| `Pixels.IntersectWithin` | src/layout.cpp:132-161 | The intersection has non-negative sides and lies, as a set of pixels, in both rectangles. |
| `FlexDistribution.CheckedTotalIsSum` | src/layout.cpp:102-110 | The checked running total succeeds exactly if the mathematical sum fits a 32-bit int, and then is that sum. |
| `FlexDistribution.ShrinkIsStable` | src/layout.cpp:944-957 | Greedy shrinking run again on any sizes between the shrunk and the natural ones, with the smaller deficit that leaves, ends at the same sizes. |
| `FlexDistribution.DistributeSucceedsIff` | src/layout.cpp:901-968 | Absent overflow the distribution succeeds exactly if gaps and minimums fit the available length. |
| `FlexDistribution.DistributeFills` | src/layout.cpp:901-968 | Every child gets at least its minimum, a rigid one at most its natural size; with a flexible child the axis is filled exactly, without one the total is the natural length cut to what is available. |
| `FlexDistribution.DistributeFits` | src/layout.cpp:901-968 | Even for children whose minimum exceeds their natural size, sizes are non-negative and with the gaps never exceed the available length. |
| `FlexDistribution.DistributeIsFair` | src/layout.cpp:958-966 | What two flexible children get above their minimums differs by at most one pixel, the earlier one getting more. |
| `FlexDistribution.SpreadIsUnique` | src/layout.cpp:958-966 | The even spread is the only way to hand out a length in which rigid children keep their base and the surpluses of flexible ones differ by at most a pixel, earlier ones more. |
| `FlexDistribution.DistributeAgainIff` | src/layout.cpp:901-968 | The distribution, run again on children whose minimums may have grown and whose rigid sizes lie between the given and the old ones, hands out the same sizes exactly if those sizes respect the new minimums and are fair above them. |
| `FlexDistribution.DistributeIsStable` | src/layout.cpp:901-968 | In particular, run again on children anywhere between their old and their given sizes, it hands out the same sizes. |
| `FlexDistribution.EqualSplitIsExact` | src/layout.cpp:911-925 | The even split of a uniform button row respects every minimum, adds up exactly, and its shares differ by at most one pixel, earlier ones larger. |
| `FlexDistribution.EqualSplitSucceedsIff` | src/layout.cpp:911-925 | The even split succeeds exactly if some way to hand out all the gaps leave, in sizes that differ by at most one pixel with earlier ones larger, gives every child its minimum; there is only one such way. |
| `SizeLoops.ShrinkLoop` | src/layout.cpp:944-957 | The in-order loop over the deficit computes the greedy shrink. |
| `SizeLoops.SpreadLoop` | src/layout.cpp:958-966 | The loop over the flexible indexes, one pixel more for the first of them, computes the even spread. |
| `SizeLoops.DistributeLoop` | src/layout.cpp:901-968 | The loop form computes the distribution, errors included. |
| `SizeLoops.EqualLoop` | src/layout.cpp:911-925 | The loop form of the even split computes it, errors included. |
| `SizeLoops.HorizontalSizesLoop` | src/layout.cpp:901-968 | The sizes constraining asks for are the distribution of the row, or its even split at the root of an action menu. |
| `SceneMeasure.MeasureIsSound` | src/layout.cpp:252-261 | Every measured tree is well shaped: 0 <= minimum <= natural, container sizes are the sums and maxima of their children, expansion flags propagate, composed minimums do not depend on the width. |
| `SceneMeasure.MeasureIsFramed` | src/layout.cpp:723-797 | Without any assumption on the metrics, measured trees keep the shape that containment needs. |
| `MeasuredSizes.MeasureStands` | src/layout.cpp:399-860 | Measuring gives every node of every scene the sizes its own kind prescribes: leaves from the metrics, minimums included; a row's widths add up with the gaps and its greatest child gives its height, a column the other way round; wrappers add their padding. |
| `MeasuredSizes.LeafMeasuresIff` | src/layout.cpp:399-581 | A leaf is measured exactly if the metrics know all it needs and the numbers stay in 32 bits. |
| `MeasuredSizes.ProgressMeasuresIff` | src/layout.cpp:584-671 | Likewise for progress, whose fraction must lie between 0 and 1. |
| `MeasuredSizes.AssemblesIff` | src/layout.cpp:723-797 | Measured children are assembled exactly if the sums of what they take, with the gaps, stay in 32 bits. |
| `MeasuredSizes.MeasureBlames` | src/layout.cpp:252-860 | Every measuring error names the place of a scene of the tree and something that very scene lacks: an unknown token, a measurement the metrics reject, or a number out of range. |
| `ConstrainedSizes.ConstrainIff` | src/layout.cpp:869-1072 | Constraining a tree to a width succeeds exactly with the tree that becomes of it node by node: rich texts composed at a positive width, inputs no narrower than their minimum, rows and columns around their children, buttons around content two paddings narrower. |
| `ConstrainedSizes.MenusSplitEvenly` | src/layout.cpp:901-925 | Only the root row of an action menu, all of whose children are buttons, is split evenly. |
| `WidthAgreement.ConstrainBounds` | src/layout.cpp:869-1072 | Whatever the spacers, constraining a measured tree to at least its minimum turns every node's minimum into its floor (the measured minimum with spacers deeper down counted), keeps its width between what it was and what it was given unless the floor is above both, and gives a node with rich text in it exactly the width it was given. |
| `MeasuredTree.MeasuredNode.ConstrainWidth` | src/layout.cpp:274-286 | The pass that rewrites a node and its subtree in place leaves exactly the tree the constraining function gives, and succeeds exactly when it does. |
| `MeasuredTree.MeasuredNode.ConstrainRowWidth` | src/layout.cpp:970-997 | Likewise for a row: sizes first, then each child in place, then the row's own totals. |
| `MeasuredTree.MeasuredNode.ConstrainColumnWidth` | src/layout.cpp:999-1031 | Likewise for a column. |
| `WidthAgreement.RowRepeatsIff` | src/layout.cpp:901-997 | Running a row's distribution on its constrained children gives the sizes they were constrained to exactly if those sizes leave room: no child's floor is above its size, and what flexible children get above their floors differs by at most a pixel, earlier ones more. |
| `WidthAgreement.NarrowIsRoomy` | src/layout.cpp:999-1031 | A tree in which no rigid spacer is wider than its column's measured minimum leaves such room in every row at every width. |
| `WidthAgreement.ColumnKeepsMinimumIff` | src/layout.cpp:999-1031 | The largest minimum of a column's constrained children is the column's measured minimum exactly if no rigid spacer directly in it is wider: the measuring pass ignores a spacer across the axis, the constraining pass counts it. |
| `WidthAgreement.ConstrainSettles` | src/layout.cpp:869-1072 | By induction over the tree: a measured tree constrained to at least its minimum, every row of which leaves room, has every rich text composed at the very width a second distribution of the mutated nodes derives. |
| `ConstrainedFrames.ConstrainKeepsFrame` | src/layout.cpp:869-1072 | Constraining keeps every tree's shape, whatever the metrics. |
| `PlacementProperties.MainSizesFit` | src/layout.cpp:1389-1456 | The sizes placement derives are non-negative and with the gaps fit the assigned rectangle. |
| `PlacementProperties.MainSizesFill` | src/layout.cpp:1389-1456 | With a flexible child, or in the even split, they fill it exactly. |
| `PlacementProperties.RowPlacedAsConstrainedIff` | src/layout.cpp:1389-1456 | Placing a constrained row, even split or not, gives its children the widths they were constrained to exactly if those widths leave room for what spacers deeper down need. |
| `PlacementProperties.ChildRectInside` | src/layout.cpp:1458-1496 | A child's rectangle lies in its parent's and has the given place and size along the axis. |
| `PlacementProperties.SiblingsAreApart` | src/layout.cpp:1458-1509 | Rectangles of different children share no pixel, and neighbours are apart by exactly the gap. |
| `PlacementProperties.PlaceAgrees` | src/layout.cpp:1384-1618 | Placing a settled tree draws every rich text at the width and height it was composed at. |
| `PlacementGeometry.ChildStandsAligned` | src/layout.cpp:1458-1496 | A child that neither expands across the axis nor stands in an even split has its own size there, cut to what there is: at start no space before it, at end none behind it, at center as much before as behind, the odd pixel behind. Otherwise it fills what there is. Its minimum is respected. |
| `PlacementGeometry.ContainerStands` | src/layout.cpp:1384-1509 | Every placed row or column is its children in order, each placed in a rectangle in which it stands aligned like that, with the given sizes along the axis. |
| `PlacementGeometry.LeafStandsWhere` | src/layout.cpp:1115-1382 | Every leaf is drawn where its kind prescribes: at the left edge and vertically in the middle, with its size; an icon in the middle both ways; a bar filled to the nearest pixel of its fraction, its track a gap below the caption. |
| `PlacementConditions.LeafIsPlacedIff` | src/layout.cpp:1115-1382 | For rectangles within reach, a leaf other than a rich text is placed exactly if its box holds what it needs. |
| `PlacementConditions.RichIsPlacedIff` | src/layout.cpp:1193-1233 | Within reach a rich text is placed exactly if the box has its least width and the height it was composed to. |
| `PlacementConditions.ButtonIsPlacedIff` | src/layout.cpp:1526-1593 | Within reach a button is placed exactly if the box holds its least size and its content is placed in the middle of what the padding leaves. |
| `PlacementConditions.RegionIsPlacedIff` | src/layout.cpp:1596-1618 | A region is placed exactly if the box holds its least size and its content is placed in the same box under the clipped rectangle. |
| `PlacementConditions.ContainerIsPlacedIff` | src/layout.cpp:1384-1509 | A row or a column is placed exactly if its axis can be distributed and every child fits across it and is placed in the one rectangle in which it stands; the cursor never leaves 32 bits. |
| `PlacementGeometry.LeafClipIsExact` | src/layout.cpp:1115-1382 | A leaf's clip is, pixel for pixel, the clip handed down cut to its box, or to what it takes of the box. |
| `PlacementGeometry.RichLinksStand` | src/layout.cpp:1193-1233 | The link targets of a rich text are those of its links of which a pixel is left inside the clip, in order, each where the composition has it. |
| `PlacementGeometry.ButtonStandsWhere` | src/layout.cpp:1526-1593 | A button keeps its size, cut to its box, or takes the box's height in an action menu; its content is in the middle of what the padding leaves. |
| `PlacementGeometry.ButtonIsPlaced` | src/layout.cpp:1526-1593 | A placed button is its own draw and target over its bounds, followed by its content. |
| `PlacementGeometry.RegionIsPlaced` | src/layout.cpp:1596-1618 | A placed region is a target over its whole box, clipped, followed by its content in the same box. |
| `PlacementPass.PlaceOnto` | src/layout.cpp:264-272 | The pass that appends to the command and interaction lists appends exactly what the placement function gives. |
| `PlacementPass.PlaceContainer` | src/layout.cpp:1458-1509 | The loop with the moving cursor places the children from there on, or fails where they do. |
| `Containment.PlaceIsContained` | src/layout.cpp:1115-1618 | For every pixel: the bounds of each draw and of each target other than a text link lie in the assigned rectangle, and every clip lies in both that rectangle and the clip handed down. |
| `HitTesting.PointerTarget` | src/interaction.cpp:57-65 | The reversed loop returns the last hit target. |
| `HitTesting.LastHitIsLast` | src/interaction.cpp:50-65 | The target returned is enabled, visible and under the point with no such target after it; none is returned only if there is none. |
| `HitTesting.ScanIsDescent` | src/interaction.cpp:57-65 | For a point in box and clip, scanning the placed plan backwards finds what descending the scene tree finds: the innermost enabled target, an enclosing button or region only if nothing inside is hit. |
| `HitTesting.NothingHitOutside` | src/interaction.cpp:57-65 | No target of a subtree is hit from outside its rectangle or its clip. |
| `HitTesting.AnyChildDecides` | src/layout.cpp:1491-1507 | Whichever child covers the point decides the hit: the order of siblings does not matter. |
| `LayoutEngine.RunLayout` | src/layout.cpp:1711-1849 | From a measured tree on: constraining it in place, placing onto the plan's lists and giving a leading cap the whole view as its clip yields the layout function's plan, and succeeds exactly when it does. |
| `LayoutEngine.CapsAllowedIff` | src/layout.cpp:1693-1757 | A scene is refused for its caps exactly if a cap image stands anywhere but at the head of the root row, or there in a view that is not compact. |
| `LayoutEngine.WidthIsGivenIff` | src/layout.cpp:1775-1807 | The scene gets a width exactly if the insets and the padding leave room for its least size, with every number in range; with the insets that width is what the scene wants, within the view's bounds. |
| `LayoutEngine.HeightIsGivenIff` | src/layout.cpp:1812-1825 | Likewise for the height of the constrained scene. |
| `LayoutEngine.LayoutStands` | src/layout.cpp:1801-1847 | The view starts at the origin and reaches the insets and the padding beyond the content on each side; its width and height are what the scene wants, within the bounds. |
| `LayoutEngine.RichTextAgrees` | src/layout.cpp:1685-1849 | On every successful layout whose rows leave room for their columns' spacers, every rich text is drawn at the size it was last composed at, as src/raylib_renderer.cpp:829-838 demands. |
| `LayoutEngine.NarrowTextAgrees` | src/layout.cpp:1685-1849 | So it is on every successful layout of a scene in which no rigid spacer is wider than its column's measured minimum, at whatever width. |
| `LayoutEngine.LayoutIsContained` | src/layout.cpp:1838-1849 | On every successful layout every bounds lies in the content rectangle, and so does every clip, save the clip of the image that leads the root row in a leading cap, which is the whole view. |
| `LayoutEngine.ClipsStayInContentIff` | src/layout.cpp:1843-1847 | Every clip stays in the content exactly if there is no leading cap or the view has neither insets nor padding. |
| `LayoutEngine.LayoutHits` | src/interaction.cpp:57-65 | On every successful layout the pointer scan is the descent of the constrained tree, and finds nothing outside the content. |
| `WideSpacer.WideSpacerDisagrees` | src/layout.cpp:232-240 | A concrete scene whose column holds a wide rigid spacer lays out successfully, leaves no room for it in the row, and has a rich text drawn at 55 pixels that was composed at 100 and has another height there. |
| `TextTruncation.TruncateEnd` | src/layout.cpp:1074-1112 | The result is the longest run of whole code points that fits with an ellipsis behind it, or nothing if even the ellipsis does not fit; no assumption is made that longer texts are wider. |
| `TextTruncation.CodepointEnds` | src/layout.cpp:1086-1099 | The collected positions are exactly the code point boundaries after the start, in ascending order. |
| `ModuleLifecycle.RunIsConsistent` | src/module_lifecycle.cpp:36-193 | On every run: a restart time exists exactly in backoff, a stop cause is pending exactly while stopping, starting has a handshake deadline, a signal is due only while stopping, fewer than ten failures are kept unless failed, the next backoff stays within its bounds. |
| `ModuleLifecycle.StepIsInTable` | src/module_lifecycle.cpp:36-178 | Every change of state is told with the time of the call and is one the call can make by the table of transitions; an exit is told with the cause that counts; a refused call changes nothing. |
| `ModuleLifecycle.AcceptedIff` | src/module_lifecycle.cpp:36-148 | Starts are accepted exactly at rest, a ready while starting, a stop unless stopped or stopping, a failure while live. |
| `ModuleLifecycle.RunFollows` | src/module_lifecycle.cpp:36-193 | On every run the transitions told form a chain from stopped, and from the last of them follow the state, until when the module may start, since when it runs, why it stops, and when it starts again at the earliest and at the latest. |
| `ModuleLifecycle.ExitFollowsPolicy` | src/module_lifecycle.cpp:83-118 | An exit short of a lockout leads to backoff exactly if the cause that counts was not a request and the policy is always, or on-failure and that cause is not a clean exit; otherwise to stopped. |
| `ModuleLifecycle.NextDeadlineIsLeast` | src/module_lifecycle.cpp:26-34 | The next deadline is the least of those set, and absent exactly if none is. |
| `ModuleLifecycle.RunObserves` | src/module_lifecycle.cpp:150-209 | On every run in time order the failure deque is the last five minutes of the full history since it was cleared, and per stop TERM is sent at most once, then KILL at most once and at least the grace later. |
| `ModuleLifecycle.RecentIsWindow` | src/module_lifecycle.cpp:202-209 | Popping expired failures off the front of an ascending history leaves exactly those of the last five minutes. |
| `ModuleLifecycle.LocksOutAtTenth` | src/module_lifecycle.cpp:83-101 | An exit leads to the failed state exactly if it is a failure and the tenth within the last five minutes of the full history. |
| `ModuleLifecycle.RequestedStopHolds` | src/module_lifecycle.cpp:83-143 | Once a stop was requested no sequence of events but a start leads anywhere but stopping or stopped: never to backoff, however the process dies. |
| `ModuleLifecycle.StopRequests` | src/module_lifecycle.cpp:120-133 | A stop of a live module is accepted, and any signal sent next is TERM, no sooner than the graceful delay. |
| `ModuleLifecycle.FailureStopIgnoresRequest` | src/module_lifecycle.cpp:120-133 | A stop request while stopping for a failure is refused and changes nothing; the exit then goes to backoff exactly if the policy restarts and the limit is not reached. |
| `ModuleLifecycle.TickMovesAtDeadline` | src/module_lifecycle.cpp:26-81 | A tick moves on exactly when a handshake or backoff deadline has come, a signal is accepted exactly when due, and the next deadline comes no later than any of these. |
| `ModuleLifecycle.BackoffDoubles` | src/module_lifecycle.cpp:98-117 | An exit that enters backoff waits the current delay, which is the initial one after a healthy run; a failure doubles the next delay if it is below half the maximum and else sets it to the maximum. |
| `ModuleLifecycle.Lifecycle.Begin` | src/module_lifecycle.cpp:36-51 | The object's start does to its fields what the start function does to the state. |
| `ModuleLifecycle.Lifecycle.Advance` | src/module_lifecycle.cpp:62-81 | Likewise for a tick. |
| `ModuleLifecycle.Lifecycle.ProcessExited` | src/module_lifecycle.cpp:83-118 | Likewise for an exit. |
| `ModuleLifecycle.Lifecycle.RecordFailure` | src/module_lifecycle.cpp:202-209 | The popping loop leaves the window of recent failures with the new one, and reports whether that is the tenth. |
| `ModuleLifecycle.Lifecycle.AcceptSignal` | src/module_lifecycle.cpp:158-173 | Likewise for a signal that was sent. |
| `SupervisedInstance.SpawnObeys` | src/module_supervisor.cpp:721-753 | A spawn starts the event protocol of a new generation: ProcessStarted, or a lone ContextsRemoved if no process came to be. |
| `SupervisedInstance.HandleLineObeys` | src/module_supervisor.cpp:1031-1069 | Whatever line arrives, the messages it causes keep the protocol: the first is an acceptable ready, no second ready, nothing once contexts are removed. |
| `SupervisedInstance.BeginFailureObeys` | src/module_supervisor.cpp:1349-1369 | Beginning a failure removes contexts once and moves a live module to stopping. |
| `SupervisedInstance.RecordViolationObeys` | src/module_supervisor.cpp:1328-1347 | A protocol violation keeps the protocol and ends a live module only through its failure path. |
| `SupervisedInstance.TickLifeObeys` | src/module_supervisor.cpp:788-800 | A tick keeps the protocol, or ends a backoff without a word about any process. |
| `SupervisedInstance.ReapObeys` | src/module_supervisor.cpp:990-1029 | Reaping ends the generation: ContextsRemoved if not sent yet, then ProcessExited, nothing after, and no process is left. |
| `SupervisorInvariant.HandleStopIsSane` | src/module_supervisor.cpp:489-527 | Stopping, with or without a restart wanted, keeps the supervisor's invariant. |
| `SupervisorInvariant.HandleRestartIsSane` | src/module_supervisor.cpp:529-557 | So does a restart request. |
| `SupervisorInvariant.HandleReapedIsSane` | src/module_supervisor.cpp:971-988 | So does what follows a reaped process: removal, replacement, restart. |
| `SupervisorInvariant.StartPendingIsSane` | src/module_supervisor.cpp:654-661 | So does starting waiting replacements while there is room. |
| `SupervisorRuns.TakeIsSane` | src/module_supervisor.cpp:379-448 | Every atomic step keeps the invariant, for every world answer. |
| `SupervisorRuns.RunIsSane` | src/module_supervisor.cpp:379-1029 | Every reachable state satisfies the invariant, for every interleaving of commands, ticks, reads, and exits. |
| `SupervisorRuns.EveryGenerationTellsItsStory` | src/module_supervisor.cpp:701-753 | On every run each generation's events are ProcessStarted, then nothing or ready and further messages, then one ContextsRemoved, then ProcessExited, or a beginning of that; generations increase with every start; at most 32 instances are active; a process exists exactly in starting, running and stopping. |
| `SupervisorRuns.ShutdownReachesAll` | src/module_supervisor.cpp:689-699 | After a global shutdown every instance is stopping or has no process, and none was spawned. |
| `SupervisorRuns.NothingStartsAfterShutdown` | src/module_supervisor.cpp:689-699 | After it no step spawns a process. |
| `SupervisorRuns.ShutdownIsFinal` | src/module_supervisor.cpp:340-354 | On every run the processes spawned up to a complete shutdown are all there ever are. |
| `SupervisorOutcomes.StartAnswers` | src/module_supervisor.cpp:455-487 | A start request launches a fresh instance exactly if nothing shuts down, the instance is at rest and there is room for it; otherwise it is refused with an error and touches no other instance. |
| `SupervisorOutcomes.StopAnswers` | src/module_supervisor.cpp:489-527 | A stop asks a live module to stop, with TERM due after the graceful delay; a module without a process is stopped at once and, if marked, launched again; what stops already goes on. |
| `SupervisorOutcomes.RestartAnswers` | src/module_supervisor.cpp:529-557 | A restart forgives failures and asks a live module to stop first, marks one that stops, and launches the next generation of one without a process, or answers as failed; a second restart while one waits is answered as failed. |
| `SupervisorOutcomes.ExitIsTold` | src/module_supervisor.cpp:990-1029 | Reaping tells the exit with the cause that counts, and before it that the contexts are gone. |
| `SupervisorOutcomes.ExitRestarts` | src/module_supervisor.cpp:971-1016 | When the process of a module ends that stops on request and was told to restart, however it ends, its next generation is spawned in that very step, and its process told. |
| `SupervisorSteps.FailureAnswers` | src/module_supervisor.cpp:1349-1369 | A live module that fails is stopped for that cause, TERM due at once; a restart that waited for it to start is answered as failed. |
| `SupervisorSteps.ViolationAnswers` | src/module_supervisor.cpp:1328-1347 | A violation is counted and told, and stops the module while it starts, at the third in a row and at the tenth within a minute. |
| `SupervisorSteps.RecentViolationsAre` | src/module_supervisor.cpp:1328-1347 | Of violations in the order of time exactly those of the last minute are kept. |
| `SupervisorSteps.LineAnswers` | src/module_supervisor.cpp:1031-1069 | A starting module runs exactly with an acceptable ready, which answers a waiting restart; a running one passes on what was negotiated; anything else is a violation. |
| `SupervisorSteps.StdoutAnswers` | src/module_supervisor.cpp:832-888 | Lines read are handled, one too long is a violation, the end is noted once with the last unfinished line handled, an error stops the module, and after the end nothing is read. |
| `SupervisorSteps.WaitAnswers` | src/module_supervisor.cpp:998-1010 | A failing wait stops the module, and so does silence 20 milliseconds after the end of its output. |
| `SupervisorSteps.SendAnswers` | src/module_supervisor.cpp:559-575 | A message is taken by a running module only; one that cannot be queued stops it as unresponsive. |
| `SupervisorSteps.SendActionAnswers` | src/module_supervisor.cpp:577-612 | One delivery event answers every action, with the first reason that stands in its way; only a full queue stops the module as well. |
| `SupervisorPlans.ReconfigureStopAnswers` | src/module_supervisor.cpp:663-674 | A module that a reconfiguration stops is taken out of every plan: its restart is answered as failed, its replacement and its waiting requests are dropped. |
| `SupervisorPlans.OverwrittenIs` | src/module_supervisor.cpp:640-646 | The first waiting request of that instance is the one that is overwritten. |
| `SupervisorPlans.NewRequestAnswers` | src/module_supervisor.cpp:640-652 | A request for an unknown module overwrites its first waiting one, waits if 32 modules are active, or is started. |
| `SupervisorPlans.ReplaceAnswers` | src/module_supervisor.cpp:676-686 | A request for a known module replaces it: at once if it has no process, else it is noted and the module asked to stop. |
| `SupervisorPlans.ReplacementAnswers` | src/module_supervisor.cpp:619-632 | A waiting replacement takes the place of its instance once that is at rest without a process, and only then. |
| `SupervisorPlans.BackoffEnds` | src/module_supervisor.cpp:788-800 | A backoff that is over launches the next generation of the same request. |
| `SupervisorPlans.HandshakeEnds` | src/module_supervisor.cpp:788-820 | A ready that does not come in time stops the module, and TERM is sent at once. |
| `SupervisorPlans.TimePasses` | src/module_supervisor.cpp:788-820 | In the other states a tick sends the signal that is due, TERM and then KILL after the grace, and resets the backoff of a module that has run long enough. |
| `SupervisorPromises.StepIsLocal` | src/module_supervisor.cpp:379-1029 | A step touches no instance but the one it is about. |
| `SupervisorPromises.PendingStartsAreSteps` | src/module_supervisor.cpp:654-661 | Waiting requests are started in the order in which they wait, each while fewer than 32 instances are active; the others are left only for want of room or after a shutdown. |
| `SupervisorPromises.ReconfigurationIsSteps` | src/module_supervisor.cpp:663-687 | The reconfiguration handler does what its stops and then its starts do one by one as steps of a run, so whatever holds of every run holds of it. |
| `SupervisorPromises.RestartEndsInNewGeneration` | src/module_supervisor.cpp:529-557 | On every run: a live module told to restart, whatever commands, ticks, reads and exits of others come between, has its next generation spawned under the same request in the step in which its process ends, however it ends; if no process comes of it the restart is answered as failed. |
| `SupervisorPromises.ReplacementEndsInItsRequest` | src/module_supervisor.cpp:619-687 | On every run: a live module that is to be replaced ends, whatever comes between, in the launch of the new request, or in a refusal for lack of room or a shutdown. |
| `SupervisorPromises.ReplacementGetsItsTurnIff` | src/module_supervisor.cpp:971-988 | A replacement asked for while its module stops gets its turn exactly if that stop was requested, the policy does not restart, or it is the tenth failure in five minutes. |
| `SupervisorPromises.OldRequestStartsAgain` | src/module_supervisor.cpp:971-988 | The failing family at work: otherwise the replacement goes on waiting while the backoff starts the old request again. |
| `SupervisorLoop.Loop.StartRequest` | src/module_supervisor.cpp:455-487 | The handler does to the map, counters and trace in place what the start function does to the state. |
| `SupervisorLoop.Loop.StopInstance` | src/module_supervisor.cpp:489-527 | Likewise for a stop. |
| `SupervisorLoop.Loop.RestartInstance` | src/module_supervisor.cpp:529-557 | Likewise for a restart. |
| `SupervisorLoop.Loop.SendAction` | src/module_supervisor.cpp:577-612 | Likewise for an action and its delivery event. |
| `SupervisorLoop.Loop.Reconfigure` | src/module_supervisor.cpp:663-687 | Likewise for a reconfiguration. |
| `SupervisorLoop.Loop.SpawnInstance` | src/module_supervisor.cpp:721-753 | Likewise for a spawn. |
| `SupervisorLoop.Loop.ProtocolLine` | src/module_supervisor.cpp:1031-1069 | Likewise for a protocol line. |
| `SupervisorLoop.Loop.TickInstance` | src/module_supervisor.cpp:788-821 | Likewise for a tick, its spawn and its due signal. |
| `SupervisorLoop.Loop.ReapNow` | src/module_supervisor.cpp:990-1029 | Likewise for a reaped process. |
| `SupervisorLoop.Loop.StartWaiting` | src/module_supervisor.cpp:654-661 | Likewise for the loop that starts waiting requests. |
| `EventQueue.EmitKeepsControls` | src/module_supervisor.cpp:1408-1448 | An emit keeps every control event in order and the queue within 4096 entries unless only control events are left; log lines are only merged or dropped: no text counts more often than it was emitted. |
| `EventQueue.NothingLostOrReordered` | src/module_supervisor.cpp:1408-1458 | For every interleaving of emits and drains the drained control events followed by the queued ones are the emitted ones, in order, and no log line counts more often than it was emitted. |
| `EventQueue.LogAnswers` | src/module_supervisor.cpp:1408-1436 | A log line equal to the last entry counts there; otherwise it is queued while there is room, and in a full queue it counts with the first entry of its text or is lost. |
| `EventQueue.ControlAnswers` | src/module_supervisor.cpp:1437-1445 | A control event is always queued; in a full queue the first log line makes room for it. |
| `EventQueue.DrainedIsPrefix` | src/module_supervisor.cpp:1450-1458 | What the reader has seen of the control events is a prefix of what was emitted. |
| `EventQueue.Queue.Emit` | src/module_supervisor.cpp:1408-1448 | The searching and erasing on the deque has the effect of the emit function. |
| `EventQueue.Queue.TakeAll` | src/module_supervisor.cpp:1450-1458 | A drain returns everything and leaves nothing. |
| `ControlDispatcher.AllocateFailsIff` | src/control_dispatcher.cpp:412-424 | An identifier is refused only when all 2^64-1 of them are pending; one that is given is not pending and not zero. |
| `ControlDispatcher.AllocateIsNext` | src/control_dispatcher.cpp:412-424 | An identifier that is given is the first free one from the counter on, round past the greatest to one. |
| `ControlDispatcher.Controller.AllocateInvocationId` | src/control_dispatcher.cpp:412-424 | The do-while over the wrapping counter finds the first free identifier and leaves the counter behind it. |
| `ControlDispatcher.RunBalances` | src/control_dispatcher.cpp:178-316 | On every run the tokens issued are, as a multiset, the pending, the completed and the cancelled ones. |
| `ControlDispatcher.RetiredExactlyOnce` | src/control_dispatcher.cpp:193-316 | A token issued once is pending, completed once or cancelled once, and only one of these. |
| `ControlDispatcher.ResultAfterDelivery` | src/control_dispatcher.cpp:193-235 | A module's result consumed after its delivery event, whatever comes between, either finds its action already answered or answers it: it is never discarded for lack of a deadline. |
| `ControlDispatcher.ExpireRetires` | src/control_dispatcher.cpp:258-269 | After expiry at a time the pending actions are exactly those without a deadline or with one after it; the others are completed as timed out, in ascending order, and nothing else changes. |
| `ControlDispatcher.EndRetires` | src/control_dispatcher.cpp:237-286 | When a process ends or its contexts are removed, exactly the actions of that instance and generation are completed as cancelled, in ascending order. |
| `ControlDispatcher.ReplacementRetires` | src/control_dispatcher.cpp:245-256 | When a process starts, exactly the actions of its instance's other generations are. |
| `ControlDispatcher.CancelAllRetires` | src/control_dispatcher.cpp:301-312 | Cancelling everything completes exactly the pending actions as cancelled, in ascending order. |
| `ControlDispatcher.RestartRetires` | src/control_dispatcher.cpp:347-376 | A restart is requested at most once per instance at a time; then it cancels exactly that instance's actions, and the answer says whether it was requested. |
| `ControlDispatcher.ActAnswers` | src/control_dispatcher.cpp:378-410 | An action is accepted exactly if its module runs, an identifier is free and the supervisor took it; then it is pending under the next free identifier, without a deadline, for the generation that runs. |
| `ControlDispatcher.DeliveryAnswers` | src/control_dispatcher.cpp:193-205 | A delivery concerns the pending action of that very process, once: it starts the two seconds for the result or, having failed, retires the action; any other delivery changes nothing. |
| `ControlDispatcher.ResultAnswers` | src/control_dispatcher.cpp:207-235 | A result retires the delivered action of that process it names; one that names none is a protocol error exactly if such an action waits; every other result is stale, and neither changes anything. |
| `ControlDispatcher.RestartDoneAnswers` | src/control_dispatcher.cpp:186-191 | A completed restart ends the wait for it exactly if it is the one requested last for that instance, and touches nothing else. |
| `SupervisorAnswers.OthersGrow` | src/module_supervisor.cpp:379-448 | Only reading standard output brings a message that answers an action; every other step extends the trace without one. |
| `SupervisorAnswers.DeliveryPrecedesAnswer` | src/module_supervisor.cpp:577-612 | On every run in which no module answers an invocation before it was sent to that process, each message that answers an action stands in the trace behind that action's accepted delivery, for the same instance and generation. |
| `DeliveryOrder.DeliveriesComeFirst` | src/application.cpp:1237-1257 | From there through any filling, merging, dropping and draining of the queue: among the events drained for the dispatcher each correlated result still stands behind its delivery. |
| `DeliveryOrder.NoResultComesEarly` | src/control_dispatcher.cpp:193-235 | Supervisor, queue and dispatcher together: whenever the dispatcher consumes a correlated result, its action is no longer pending, or is not the one the result names, or the result completes it; no result is stale because its delivery has not come. |
| `ControlDispatcher.PerformKeepsPending` | src/control_dispatcher.cpp:193-316 | An action that stays pending is the same action and never loses its deadline. |
| `ControlDispatcher.OrderedAscends` | src/control_dispatcher.cpp:258-312 | Expired and cancelled identifiers are visited in the ascending order of the map. |
| `ControlDispatcher.Controller.Action` | src/control_dispatcher.cpp:378-410 | The object's action request does to its maps what the function does to the state, reply included. |
| `ControlDispatcher.Controller.ConsumeEvent` | src/control_dispatcher.cpp:186-256 | Likewise for every kind of event consumed. |
| `ControlDispatcher.Controller.Collect` | src/control_dispatcher.cpp:258-264 | The collecting loop yields the selected identifiers in the order of the map. |
| `ControlDispatcher.Controller.CancelToken` | src/control_dispatcher.cpp:271-273 | Likewise for a cancel; it reports whether the token was pending. |
| `ControlDispatcher.Controller.TakeCompletedActions` | src/control_dispatcher.cpp:314-316 | Taking returns all completed actions and leaves none. |
| `ControlServer.NobodyWaitsForNothing` | src/ipc_server.cpp:82-132 | On every run each waiting client holds a token of its own that the dispatcher has, pending or completed. |
| `ControlServer.DeliveryLeavesPending` | src/ipc_server.cpp:119-132 | Once completed actions have been delivered, every token still waited for is pending. |
| `ControlServer.RequestAnswers` | src/ipc_server.cpp:231-284 | A request of an open idle client touches no other client: it is answered at once, or the client waits for the token, unless eight clients wait already or another one has it; then it is answered and the token cancelled. |
| `ControlServer.SweepAnswers` | src/ipc_server.cpp:105-115 | A sweep leaves exactly the open clients, and takes from the dispatcher exactly the tokens that closed ones waited for, completing nothing. |
| `ControlServer.DeliverAnswers` | src/ipc_server.cpp:124-132 | A delivery answers exactly the clients that wait for a completed token, touches no other client or token and leaves nothing completed. |
| `ControlServer.HandleAnswers` | src/control_dispatcher.cpp:123-134 | An accepted reload cancels every pending action; what is answered at once without it leaves the dispatcher alone. |
| `ControlServer.ClientsStayInOrder` | src/ipc_server.cpp:136-166 | On every run the clients stand in the order in which they came, each with a number of its own. |
| `ControlServer.Server.SweepClosed` | src/ipc_server.cpp:105-115 | The erasing loop keeps the open clients in order and cancels the token of each closed one. |
| `ControlServer.Server.CompleteToken` | src/ipc_server.cpp:124-132 | The search answers the first client waiting for the token, and reports whether there is one. |
| `ControlServer.Server.CountWaiting` | src/ipc_server.cpp:119-122 | The count is the number of waiting clients. |
| `Reload.EqualConfigValueIff` | src/reload.cpp:19-55 | The recursive comparison of configuration values holds exactly if they are equal and hold no NaN, which differs from itself. |
| `Reload.EqualTemplateIff` | src/reload.cpp:57-144 | The recursive comparison of scene templates, through slots, pointers and child lists, holds exactly if they are structurally equal and hold no NaN. |
| `Reload.EqualProcessIff` | src/reload.cpp:162-180 | Two modules count as process-equal exactly if nothing that concerns the process differs and no option holds a NaN. |
| `Reload.EqualViewIff` | src/reload.cpp:147-160 | The comparison of optional views holds exactly if they are equal and hold no NaN. |
| `Reload.PlanAnswers` | src/reload.cpp:188-237 | A module is started exactly if it is enabled in the candidate and new, newly enabled or changed; stopped exactly if it was removed or disabled; and started with the candidate's request. |
| `Reload.PlanReports` | src/reload.cpp:188-237 | A reload reports one change for each module of the candidate, in its order, which says exactly whether the module is new, was enabled, disabled, runs another process, shows another view or is the same; then the modules that are gone, in the old order. |
| `Reload.PlanAsks` | src/runtime.cpp:51-100 | Every request of a plan asks for an enabled module of the candidate, field by field as it is configured. |
| `Reload.PlanIsSeparate` | src/reload.cpp:188-237 | With unique ids the stop and start lists have no duplicates and nothing in common. |
| `Reload.PlanIsAccepted` | src/module_supervisor.cpp:1579-1592 | So the supervisor never rejects a plan as invalid. |
| `Reload.ApplyingReachesCandidate` | src/reload.cpp:188-237 | Applying stops as removals and starts as upserts to the running modules yields exactly the candidate's enabled modules by id, and their very requests exactly if no process-equal module gained or lost its view. |
| `Reload.GainedViewIsNotOffered` | src/reload.cpp:188-237 | The failing family at work: a module that gains a view on reload keeps the process that was never offered data snapshots. |
| `Reload.UnchangedProcessesAreUntouched` | src/reload.cpp:188-237 | A module enabled before and after is never stopped, and is left alone exactly if its process part is equal and its options hold no NaN. |
| `Reload.NaNOptionRestarts` | src/reload.cpp:48-52 | The failing family at work: a module whose only option is NaN is started anew by a reload that changes nothing. |
| `Reload.ReloadsKeepOrigins` | src/reload.cpp:188-237 | After any chain of reloads exactly the last configuration's enabled modules run, each with the request of the last configuration that started it. |
| `Reload.MakePlan` | src/reload.cpp:188-237 | The loops that index, classify, erase and collect compute the plan. |
| `LineBuffer.ChunksDoNotMatter` | src/line_buffer.cpp:24-50 | Appending any chunks gives the lines and state of appending their concatenation. |
| `LineBuffer.ProtocolFeedIff` | src/line_buffer.cpp:24-50 | The protocol buffer accepts a stream exactly if it holds no NUL and no line exceeds the limit, and then yields its lines, each without one trailing carriage return, keeping the unfinished rest. |
| `LineBuffer.TruncatingFeed` | src/line_buffer.cpp:24-71 | The truncating buffer never fails; it yields each line cut to the limit and marked if it was longer. |
| `LineBuffer.StripsOneReturn` | src/line_buffer.cpp:63-71 | At most one carriage return is taken off a line, and only from its end. |
| `LineBuffer.ProtocolStreamEnds` | src/line_buffer.cpp:24-61 | The end of an accepted stream yields its unterminated last line, if there is one; after that every chunk is refused and another end yields nothing. |
| `LineBuffer.TruncatedStreamEnds` | src/line_buffer.cpp:24-61 | Likewise for the truncating buffer, whose last line is cut to the limit. |
| `LineBuffer.FailsAtFirst` | src/line_buffer.cpp:24-50 | A refused stream is told by its first byte that is not accepted: a NUL, or one too many in a line that is not cut. |
| `LineBuffer.LineReader.AppendBytes` | src/line_buffer.cpp:24-50 | The byte loop over the fields computes this. |
| `LineBuffer.LineReader.FinishStream` | src/line_buffer.cpp:52-61 | Finishing yields the unfinished line, if any, and closes the buffer. |
| `WriteQueue.PushAppends` | src/write_queue.cpp:15-35 | An accepted record goes to the back of what is unsent, a refused one changes nothing. |
| `WriteQueue.RecordIff` | src/write_queue.cpp:15-19 | A record is a body without newline or NUL, followed by a newline. |
| `WriteQueue.RefusalIs` | src/write_queue.cpp:15-25 | Refused is first what is no record, then one record too many, then more bytes than may wait unsent. |
| `WriteQueue.ConsumeSends` | src/write_queue.cpp:37-56 | A write of n bytes removes exactly the first n unsent bytes. |
| `WriteQueue.Run` | src/write_queue.cpp:15-56 | On every run the bytes sent followed by the unsent ones are the accepted records, one after the other. |
| `WriteQueue.Writer.PushBytes` | src/write_queue.cpp:15-35 | The object's push does this to its fields and reports the refusal. |
| `WriteQueue.Writer.ConsumeBytes` | src/write_queue.cpp:37-56 | The object's consume does this to its fields. |
| `Framing.RecordsArriveInOrder` | src/line_buffer.cpp:24-71 | End to end: records accepted by a write queue, sent by any partial writes and received in any chunks, come out of the protocol line buffer as exactly those records in order, each losing at most one carriage return at its end. |
| `Framing.SentIsPrefix` | src/write_queue.cpp:37-56 | At every moment what has been sent is a prefix of the accepted bytes. |
| `Framing.HandledArePrefix` | src/lua_transport.cpp:112-221 | Write queue, pipe, line buffer and transport together: at every moment the lines handled are the bodies of the first accepted records, in order; only the end of the input may add the beginning of a record whose rest never came. |
| `LuaTransport.ReadsOnlyWhenEmpty` | src/lua_transport.cpp:123-141 | When a turn gets to read, with output drained and budget left, the backlog of complete lines is empty. |
| `LuaTransport.ProcessAnswers` | src/lua_transport.cpp:210-221 | Lines are handled in order until the budget is spent, none waits, one leaves output to be written or one fails; all but the last handled did neither. |
| `LuaTransport.TurnAnswers` | src/lua_transport.cpp:112-221 | A turn handles up to 64 lines: those that wait first, and those read only when none is left, nothing is to be written and the budget is not spent; with output still to write or reading off it handles none. |
| `LuaTransport.LinesAreHandledInOrder` | src/lua_transport.cpp:112-221 | On every run the lines handled followed by the backlog are the lines of the bytes received, in order; at the end of the stream all of them, an unfinished last one included, have been handled. |
| `LuaTransport.Port.ProcessBacklog` | src/lua_transport.cpp:210-221 | The loop handles lines in order until backlog, budget or patience is used up. |
| `Base64.DecodeIff` | src/protocol.cpp:655-720 | Decoding yields the bytes exactly if their number is the expected one and the text is their canonical encoding under section 4 of RFC 4648 with the zero pad bits of section 3.5. |
| `Base64.EncodeThenDecode` | src/protocol.cpp:674-720 | Encoding and then decoding gives the bytes back. |
| `Base64.DecodeIsInjective` | src/protocol.cpp:674-720 | No two texts decode to the same bytes. |
| `Base64.DecodeRefusesFor` | src/protocol.cpp:674-720 | A refusal names its reason: the length, the size, or the defect of some group of four: misplaced padding, a foreign character, or non-zero bits that the padding cuts off. |
| `Base64.DecodeLoop` | src/protocol.cpp:674-720 | The loop over groups of four with its padding cases computes the decoder. |
| `ImageResources.LoadIff` | src/protocol.cpp:722-793 | Resources load exactly if there are not too many, each is the canonical encoding of an image of its declared size, no name repeats, and all of them together stay within the byte budget. |
| `ImageResources.AllHoldAt` | src/protocol.cpp:739-793 | What loads holds for each resource at its place, and names differ. |
| `ImageResources.LoadResources` | src/protocol.cpp:722-793 | The loop with its running total and set of names computes this. |
| `Utf8.EncodedIsHead` | src/interaction.cpp:179-197 | The bytes of a scalar value are a well-formed sequence that decodes to it, whatever follows. |
| `Utf8.ValidIff` | src/interaction.cpp:84-121 | A text is valid exactly if it is the encoding of some sequence of Unicode scalar values, as section 4 of RFC 3629 defines it. |
| `Utf8.EncodedIsValid` | src/interaction.cpp:84-121 | Encoding is inverted by decoding. |
| `Utf8.CutsAtBoundary` | src/interaction.cpp:123-142 | Cutting a valid text leaves two valid texts exactly at a code point boundary. |
| `Utf8.ScansFindNeighbours` | src/interaction.cpp:123-142 | From a boundary each scan finds the nearest one on its side. |
| `Utf8.ScansInvert` | src/interaction.cpp:123-142 | The two scans undo each other. |
| `Utf8.NextWord` | src/interaction.cpp:168-177 | The motion lands on a later boundary at the end of the text or the start of a word. |
| `Utf8.PreviousWord` | src/interaction.cpp:151-166 | The motion lands on an earlier boundary at the start of the text or of a word. |
| `Utf8.CheckUtf8` | src/interaction.cpp:84-121 | The byte loop decides validity. |
| `Utf8.FindNext` | src/interaction.cpp:134-142 | The continuation loop finds the next boundary. |
| `Utf8.FindPrevious` | src/interaction.cpp:123-132 | The backward loop finds the previous boundary. |
| `TextEditor.PressIsSound` | src/interaction.cpp:216-344 | Every key keeps the value valid UTF-8 within its limit and the caret on a boundary. |
| `TextEditor.PressAll` | src/interaction.cpp:206-344 | So does every sequence of keys. |
| `ScalarEditor.KeyIsSimple` | src/interaction.cpp:216-344 | Every key does with the bytes what it does with the code points before and after the caret, words and marking included, and reports a change exactly when that one does. |
| `ScalarEditor.KeysAreSimple` | src/interaction.cpp:206-344 | After any keys the user sees what the editor over code points shows, and the value is its encoding. |
| `ScalarEditor.OpensOn` | src/interaction.cpp:206-210 | A field opens on its initial code points, nothing marked and the caret at the end, or empty if they do not fit. |
| `TextEditor.OpenIsSound` | src/interaction.cpp:206-210 | An initial value is kept if it is valid and fits, and dropped otherwise. |
| `TextEditor.InsertSucceedsIff` | src/interaction.cpp:216-238 | Typing succeeds exactly for scalar values that fit beside what is kept, and otherwise changes nothing. |
| `TextEditor.BackspaceUndoesInsert` | src/interaction.cpp:235-257 | Backspace after typing restores value and caret. |
| `TextEditor.DeletesOneCodepoint` | src/interaction.cpp:242-269 | Backspace and delete remove exactly one code point. |
| `TextEditor.TextInputEditor.Replace` | src/interaction.cpp:216-233 | The object's replacement does to value, caret and selection what the function does. |
| `TextEditor.TextInputEditor.PressBackspace` | src/interaction.cpp:242-257 | Likewise for backspace. |
| `TextEditor.TextInputEditor.PressDeleteWord` | src/interaction.cpp:271-290 | Likewise for deleting words. |
| `TextEditor.TextInputEditor.PressDeleteToEdge` | src/interaction.cpp:292-309 | Likewise for deleting to the start or the end. |
| `TextEditor.TextInputEditor.MoveCaret` | src/interaction.cpp:311-339 | Likewise for the motions of the caret. |
| `ContextArbiter.StoredIffStanding` | src/context.cpp:15-75 | After every history the store holds exactly the publications nothing has removed since, with sequence numbers in the order of publication. |
| `ContextArbiter.AnswerIsSpecified` | src/context.cpp:158-186 | After every history a slot shows the activated context if it fills the slot, else the visiting context of greatest priority and latest publication, else the foremost context of the fallback instance, and nothing only if there is none. |
| `ContextArbiter.ActivationIffEngaged` | src/context.cpp:61-75 | After every history the activation is the last one made, provided no dismissal, expiry, deadline outside a hold, clearing or newer activation has released it. |
| `ContextArbiter.DefaultsAreLastChosen` | src/context.cpp:55-59 | After every history the defaults are those last chosen, or those it began with. |
| `ContextArbiter.HeldIffHeldLast` | src/context.cpp:122-137 | After every history the activation is held exactly if it was held last and neither let go nor cleared since. |
| `ContextArbiter.Best` | src/context.cpp:77-108 | The best entry is the unique one that outranks all others; there is none only if there is nothing to choose from. |
| `ContextArbiter.Step` | src/context.cpp:15-140 | Every operation keeps the activation naming a stored context and the sequence numbers distinct, so looking the activation up never fails. |
| `ContextArbiter.SweepsMerge` | src/context.cpp:61-75 | Two sweeps with no change between them amount to the later one, so reading more often changes nothing. |
| `ContextArbiter.ReadBeforeHoldMatters` | src/context.cpp:137 | Reading and then holding the activation equals holding and then reading, except exactly when the read sees the deadline of a still stored activation pass. |
| `ContextArbiter.Erase` | src/context.cpp:38-69 | The erasing loops remove exactly the entries to go, whatever the order of the map. |
| `ContextArbiter.Arbiter.PublishContext` | src/context.cpp:15-29 | Publishing does to the fields what the event does to the state. |
| `ContextArbiter.Arbiter.Expire` | src/context.cpp:61-75 | Likewise for a sweep. |
| `ContextArbiter.Arbiter.Scan` | src/context.cpp:77-108 | The loop keeping the best entry so far ends with the best entry. |
| `ContextArbiter.Arbiter.ActivateInstance` | src/context.cpp:110-120 | Likewise for an activation; it fails exactly if the instance has no context left. |
| `ContextArbiter.Arbiter.Clear` | src/context.cpp:122-135 | Likewise for clearing; it reports whether an activation ended. |
| `ContextArbiter.Arbiter.Active` | src/context.cpp:158-186 | Sweeps, then returns the specified answer. |
| `ContextArbiter.Arbiter.DismissActive` | src/context.cpp:139-147 | Dismisses what the compact slot shows exactly if it has the given name. |
| `TimerScheduler.AgendaIsExact` | src/lua_host.cpp:429-437 | The agenda lists exactly the due timers made before the call, each once, by deadline and then sequence number. |
| `TimerScheduler.AgendaStep` | src/lua_host.cpp:428-452 | Whatever a callback schedules, a fresh scan after it finds the agenda that remains. |
| `TimerScheduler.DispatchIsExact` | src/lua_host.cpp:419-463 | A dispatch fires a beginning of the agenda, in strictly ascending order, up to and including the first callback that fails or emits; so only the last may have emitted. |
| `TimerScheduler.UpdateComesLast` | src/lua_host.cpp:453-460 | A due periodic update moves its deadline exactly if every due timer fired quietly before it and it succeeds. |
| `TimerScheduler.DueIffDeadlinePassed` | src/lua_host.cpp:406-437 | There is something to do exactly if the next deadline has come. |
| `TimerScheduler.EarliestIsLeast` | src/lua_host.cpp:406-417 | The next deadline is the least of the periodic one and all timers', and absent only if there are none. |
| `TimerScheduler.WalkKeepsTheRest` | src/lua_host.cpp:440-452 | A timer made before the call is still waiting afterwards exactly if it did not fire. |
| `TimerScheduler.LifetimeIsOrderly` | src/lua_host.cpp:419-463 | Over a host's whole life, whatever its callbacks do, all firings are in strictly ascending order of deadline and sequence number, so no timer fires twice. |
| `TimerScheduler.NoTimerIsEarly` | src/lua_host.cpp:948-962 | Over a host's whole life a timer asked for at one time with a duration fires in no dispatch before that time plus the duration, and with its own callback. |
| `TimerScheduler.RequestsAreKept` | src/lua_host.cpp:440-452 | The first requests of a callback, as many as there is room for, each become a timer due the asked time from now, numbered on; the others leave no trace. |
| `TimerScheduler.WalkCarriesRequests` | src/lua_host.cpp:428-452 | From one callback of a dispatch to the next the timer called back goes and those it asks for come, as room allows, due the asked time from the moment of the dispatch. |
| `TimerScheduler.UpdateCarriesRequests` | src/lua_host.cpp:453-460 | What the periodic update asks for is kept as well, whether or not it fails. |
| `TimerScheduler.FailureIsReported` | src/lua_host.cpp:440-463 | A dispatch fails exactly if the last callback it made failed: a timer's, or the update's once every due timer has fired quietly. |
| `TimerScheduler.UpdateWaits` | src/lua_host.cpp:453-460 | The update plays no part in a dispatch before it is due, after a callback that fails or emits, or once the host has stopped; a stopped host does nothing at all. |
| `TimerScheduler.ShutdownDropsAll` | src/lua_host.cpp:668-691 | Shutting down drops every timer and the update, so that there is no next deadline. |
| `TimerScheduler.NothingFiresAfterShutdown` | src/lua_host.cpp:419-422 | After shutdown nothing fires. |
| `TimerScheduler.Scheduler.ScheduleTimer` | src/lua_host.cpp:948-962 | A timer is refused exactly when 256 wait; else it is appended under the next sequence number, with what it is for and the deadline that many milliseconds after the current time. |
| `TimerScheduler.Scheduler.FindDue` | src/lua_host.cpp:429-440 | The scan finds the first timer of the agenda. |
| `TimerScheduler.Scheduler.RunTimers` | src/lua_host.cpp:428-452 | The loop that scans anew before each call terminates and does what walking the agenda once does. |
| `TimerScheduler.Scheduler.RunDueTimers` | src/lua_host.cpp:419-463 | The whole dispatch, update included, does what the function does. |
| `TimerScheduler.Scheduler.Next` | src/lua_host.cpp:406-417 | The loop finds the next deadline. |
| `LuaHeap.RepresentsOne` | src/lua_value.cpp:132-228 | A Lua value represents at most one JSON tree. |
| `LuaHeap.CyclicHasNoTree` | src/lua_value.cpp:109-127 | A table from which a cycle can be reached represents none. |
| `LuaConversion.ConvertIsSound` | src/lua_value.cpp:132-278 | A conversion that succeeds, at any depth, inside any tables and after any items, yields the tree the value represents, within the depth and item limits, and counts its items. |
| `LuaAcceptance.RepresentedConverts` | src/lua_value.cpp:132-278 | A value that represents a tree within what is left of the limits converts to it, provided the tables being converted represent larger trees. |
| `LuaAcceptance.ConvertsIff` | src/lua_value.cpp:384-409 | A value converts to a tree exactly if it represents that tree, nested at most 16 deep with at most the given items; shared tables are fine and the traversal order plays no part. |
| `LuaAcceptance.CyclicIsRefused` | src/lua_value.cpp:109-142 | A value from which a cycle can be reached is always refused. |
| `LuaAcceptance.TidyFailsBySize` | src/lua_value.cpp:132-228 | On a heap of well-shaped tables the only failures are depth, item count and cycles. |
| `LuaRefusals.FailsFor` | src/lua_value.cpp:132-278 | Every refusal has its reason in what the value reaches: too many items only if the limit is below what tables of that size can hold in sixteen levels; any other error exactly the defect it names, in a value or a table found at most sixteen tables deep, a cycle being a table met again inside itself. |
| `LuaBridge.ConvertedCrosses` | src/lua_value.cpp:285-380 | Whatever a conversion yields may be pushed again under the same limit: both directions agree on depth, items, numbers, strings and keys. |
| `LuaBridge.LuaState.PushValue` | src/lua_value.cpp:285-380 | A push succeeds exactly if the tree fits depth, items and what Lua can hold; then the new value represents it, nested nulls included, and nothing that was in the heap changes. |
| `LuaBridge.LuaState.FillArray` | src/lua_value.cpp:332-353 | The loop over the elements fills a fresh table under the keys 1 to n, or fails exactly if the array does not fit. |
| `LuaBridge.LuaState.FillObject` | src/lua_value.cpp:354-374 | Likewise for the members of an object. |
| `LuaBridge.LuaState.PushJson` | src/lua_value.cpp:411-438 | The entry point adds the check of the serialized size. |
| `LuaBridge.LuaState.RoundTrip` | src/lua_value.cpp:384-438 | Pushing and reading back gives the same tree, for every tree the push accepts and wherever in the traversal order each entry lands. |
| `LuaBridge.Reader.ConvertValue` | src/lua_value.cpp:230-278 | The recursion over counters and the set of active tables does what the conversion function does, and leaves the set as it was. |
| `LuaBridge.Reader.ReadTable` | src/lua_value.cpp:132-228 | Likewise for a table, entered and left on every path. |
| `LuaBridge.Reader.ReadJson` | src/lua_value.cpp:384-409 | The entry point adds the check of the serialized size. |

## Left out

- LayoutEngine.RichTextAgrees: needs text metrics whose composed minimum does not depend on the width; that rows leave room is exact for each row (`PlacementProperties.RowPlacedAsConstrainedIff`) and sufficient for a whole scene, where a row without rich text may lack room and harm nothing.
- LayoutEngine.RunLayout: starts from a measured tree, because measuring is an expression over the scene (`SceneMeasure.MeasureIsSound`); agrees with the layout function on success and on the plan; when several errors apply at once the loops may meet another one first, so which error is reported is not compared.
- MeasuredTree.MeasuredNode.ConstrainWidth: as for the whole layout, the identity of the error is not compared.
- PlacementPass.PlaceOnto: likewise.
- FlexDistribution.DistributeSucceedsIff: speaks of children measured with minimum at most natural size; for children beyond that the 32-bit wrap of the deficit is not modelled.
- TextTruncation.TruncateEnd: is stated for the text itself; a text's draw command in the placement model carries its rectangle and clip, not the truncated string.
- WidthAgreement.ConstrainBounds: a rich text's composition is an abstract function of width; Pango, fonts, glyphs and images are not modelled.
- Placement.MainSizes: promises the number of sizes; what the sizes are is stated by the lemmas in `PlacementProperties`.
- ControlDispatcher.RetiredExactlyOnce: assumes the token was issued once, that is, fewer than 2^64-1 invocations; the balance over all tokens needs no such assumption.
- ControlDispatcher.ResultAfterDelivery: assumes the token is not handed out again in between.
- SupervisorRuns.EveryGenerationTellsItsStory: generations are unbounded integers; their 64-bit wrap is not modelled.
- SupervisedInstance.HandleLineObeys: negotiation and message parsing are reduced to whether a message is acceptable or was negotiated; the fields of messages are opaque.
- SupervisorLoop.Loop.ProtocolLine: reading of standard output to its end and of standard error are modelled as steps of the functional supervisor only.
- SupervisorPromises.ReplacementEndsInItsRequest: the step that gives a replacement its turn is a step of its own; the source takes it within the same pass over the instances, for those that stopped.
- MeasuredSizes.MeasureBlames: the suffix that the source adds to the path for the field at fault is not modelled, nor the roles and colours that the abstract metrics stand for.
- Reload.EqualConfigValueIff: finite floating-point numbers are reals; the two zeros are one.
- Reload.ReloadsKeepOrigins: applying a plan is removals and upserts by identifier; the handshake of stopping and replacing a live process is `ModuleSupervisor`'s and is not tied to it.
- DeliveryOrder.NoResultComesEarly: assumes that modules answer only invocations they were sent, and that an identifier is not handed out anew once its delivery has been consumed.
- ModuleLifecycle.RunIsConsistent: the handshake deadline is claimed to exist while starting, not to be absent otherwise, because stopping and failing leave it in place (src/module_lifecycle.cpp:120-143).
- ControlServer.NobodyWaitsForNothing: sockets, polling, request parsing and time-outs are inputs of the steps; fairness between clients is not claimed.
- LuaBridge.LuaState.PushValue: which of several applicable errors is reported, and the path in it, is not modelled; neither are the Lua stack and its growth.
- LuaBridge.LuaState.RoundTrip: the serialized size of a tree is an abstract function, the same in both directions; floating-point numbers are reals or non-finite.
- LuaConversion.ConvertIsSound: metatables play no part, as in the source, which reads tables raw; the weak keys of the array markers are a set of marked tables.
- TimerScheduler.LifetimeIsOrderly: a callback is any sequence of emits and timer requests that may fail; Lua itself, and the overflow of time points, are not modelled.
- TimerScheduler.UpdateComesLast: what the update emits is part of its behaviour; conversion of its return value is not modelled here.
- ContextArbiter.AnswerIsSpecified: the activation is characterised separately (`ContextArbiter.ActivationIffEngaged`); the 64-bit wrap of the sequence counter is not modelled.
- ImageResources.LoadIff: parsing of the JSON around the payloads is not modelled.
- Root leading caps, ring insets, shadow insets and view geometry: their rounded sizes are inputs of the layout; the checks on a leading cap's own size (src/layout.cpp:1740-1757) are not modelled.
- Keyboard navigation, hover decoration and activation gates: short branches over the interaction list.
- Field-by-field validation of configuration, manifests, protocol and control messages: each check is one branch.
- Processes, signals, pipes, inotify, threads, rendering and animation: outside the model, their outcomes are inputs.
