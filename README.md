# panda-bop drag-along-the-path core, modelled in Dafny

panda-bop is a Phaser game in which the player drags a handle along a drawn path. A handle
succeeds when it reaches the end of its path. It fails when it is released early or leaves
the path for too long. This project models the three pieces that make up that game and
proves properties of them.

- **Path geometry** (`PathManager`): the shape generators, the cumulative arc-length index
  over a polyline, and the queries over it. The queries are position at a progress value,
  the nearest progress to a cursor, the forward-window search, and the on-path test.
- **The drag handle** (`DragButton`): the flags, the progress and the single failure timer
  of one handle, changed in place by its input handlers.
- **The registry** (`DragButtonManager`): three maps keyed by button id, the configuration
  merge, grid creation, the failure policy with its delayed recreation, and the aggregate
  queries.

The `Game` scene repeats the first two pieces inline, with fixed constants. It adds a loop:
a failure is animated, the scene is reset, and a fresh button is created a second later.

## Structure

- `wrappers.dfy`: `Option`.
- `path_geometry.dfy` (module `PathGeometry`): the geometry as pure functions and lemmas.
  - The generators and `generatePathPoints`.
  - The arc-length index `ArcIndex`.
  - `PositionAt`, `ProgressFromPosition`, `NextValidProgress` and `OnPathAt`.
- `path_manager.dfy` (module `PathManagerModel`):
  - The source's loops as methods, each proved equal to the function that specifies it.
  - The class `PathManager`, whose four fields `createPath` and `calculatePathLengths`
    rebuild in place.
- `handle_machine.dfy` (module `HandleMachine`): one handle as a value `Handle`. Each
  handler is a transition function, and `Inv` is the handle invariant. The lemmas cover:
  - at most one pending timer;
  - an outcome that sticks;
  - at most one callback per life;
  - the release, time-out, recovery and completion rules.
- `drag_button.dfy` (module `DragButtonModel`): the class `DragButton`. Its fields are
  updated in place, and each handler is proved to make exactly the machine's transition.
  The handle it describes is `Snapshot()`.
- `drag_button_manager.dfy` (module `DragButtonManagerModel`):
  - The registry's effect as functions on a `Registry` value (definitions plus scheduled
    recreations), with the failure-policy and grid lemmas.
  - The class `DragButtonManager` with its three maps. Each method is proved to make the
    registry transition while keeping buttons and maps coherent: one key set, each object
    owned by one id.
- `game_scene.dfy` (module `GameSceneModel`):
  - The scene as a value `Scene` (a handle plus the scene's own bookkeeping), with
    transitions and the invariant `SceneInv`.
  - The class `GameScene`, whose handlers are proved to make those transitions.
  - Lemmas tying the scene to the component: the same move under the scene's constants, the
    same failure, and the same path as the default `createPath`.

## Modelling choices

- **Numbers** are reals. Dafny's reals are exact, so no IEEE rounding is modelled.
- **Distance and trigonometry are parameters.** `Phaser.Math.Distance.Between` is a square
  root; it is the parameter `Metric`. `Math.cos`, `Math.sin` and `Math.PI` form the
  parameter `Trig`. Nothing is assumed of either except where a lemma states it as a
  precondition:
  - `Separates`: distinct points are at positive distance;
  - `TrigLawsAt`: cos² + sin² = 1, cos(−a) = cos a, sin(−a) = −sin a.
- **Zero-length segments.** A segment of length zero makes `getPositionOnPath` divide 0 by 0
  (PathManager.ts line 252). The position queries therefore require `NoZeroSegments`.
  `GamePathHasPositiveSegments` and `DistinctVerticesGivePositiveSegments` show that this
  holds for the paths the game builds, given a distance that separates points.
- **Timers.** A timer is an id. The `failureTimeout` reference is `Option<nat>`. The ghost
  set `liveTimers` holds the timers that are scheduled and have neither fired nor been
  destroyed. A delayed call is an explicit event (`FireFailureTimer`, `FireRecreate`,
  `OnRecreateTimer`), delivered only for a live timer.
- **Tweens** are explicit "animation ends" events.
- **Callbacks.** A button's completion and failure callbacks are the `fired` result of the
  handler that signals them, and are recorded in the ghost `reported`. The manager receives
  them through `Route`, and `Deliver` shows the whole chain for one input event.
- **Listeners.** A button's drag and pointer listeners, and the component's global
  pointer-up listener, exist only while its container exists, and `Step` delivers those
  events only then. The scene's global pointer-up listener is different: it is registered
  on the scene's input with the first `createDragButton` (Game.ts lines 124-125) and never
  removed, so `SceneStep` delivers a release anywhere whenever a button has been created,
  container or not.

## Where the code and the intended behaviour differ

The components follow the code. Four places where the code evidently departs from what its
authors meant are listed under "## Findings" below, each with a member that shows the
behaviour as written and a corrected definition with the intended property proved of it.
One more needs no correction:

- **Completion of a missing button.** `getButtonStates` reports an id that has a definition
  but no button as not completed (DragButtonManager.ts line 285). The intended behaviour
  calls such an id completed. Under the registry's invariant every definition has a button,
  so that branch cannot run.

## Model

| member | source | states |
|---|---|---|
| PathGeometry.Lerp | src/client/game/components/PathManager.ts:258-259 | Phaser.Math.Linear gives the first point at parameter 0 and the second at 1 |
| PathGeometry.Clamp01 | src/client/game/components/PathManager.ts:236 | the clamped progress lies in [0,1], equals the input inside it, and is 0 below and 1 above |
| PathGeometry.ShapeOf | src/client/game/components/PathManager.ts:56-84 | a configured path type selects its own generator; a missing or unknown type selects curved-up |
| PathGeometry.ShapePoints | src/client/game/components/PathManager.ts:94-199 | each generator yields its fixed number of points (7, 7, 21, 7, 17, 2, 5, 31), always at least two |
| PathGeometry.Rotate | src/client/game/components/PathManager.ts:201-214 | rotatePoints maps every point, so the path keeps its length |
| PathGeometry.GeneratedPoints | src/client/game/components/PathManager.ts:43-92 | every generated path has at least two points, so it has a start, an end and a segment |
| PathGeometry.GenerationFollowsConfig | src/client/game/components/PathManager.ts:43-92 | the generated path is the configured shape (curved-up for an unknown type) at the scaled size around the centre moved by the scaled offsets; it is rotated about that centre exactly when the rotation is non-zero |
| PathGeometry.DefaultPathIsCurvedUp | src/client/game/components/PathManager.ts:30-41 | createPath without a configuration draws the curved-up shape of size 100, scaled, around the given centre |
| PathGeometry.RotateByZeroIsIdentity | src/client/game/components/PathManager.ts:86-89 | rotating by an angle of cosine 1 and sine 0 changes no point, which is why skipping a zero rotation is harmless |
| PathGeometry.RotatePointKeepsRadius | src/client/game/components/PathManager.ts:205-213 | turning one point about the centre keeps its squared distance to the centre |
| PathGeometry.RotatePointRoundTrip | src/client/game/components/PathManager.ts:205-213 | turning one point by an angle and back by its opposite restores it |
| PathGeometry.RotateKeepsRadii | src/client/game/components/PathManager.ts:201-214 | rotatePoints is rigid: every point keeps its distance to the centre |
| PathGeometry.RotateRoundTrip | src/client/game/components/PathManager.ts:201-214 | rotatePoints by -r undoes rotatePoints by r |
| PathGeometry.SpiralStartsAtCentre | src/client/game/components/PathManager.ts:118-132 | the spiral's first sample has radius 0 and is the centre |
| PathGeometry.CircleIsClosed | src/client/game/components/PathManager.ts:147-159 | the circle's last sample coincides with its first when cos and sin agree at 0 and 2π |
| PathGeometry.ZigzagShape | src/client/game/components/PathManager.ts:134-145 | the zigzag runs from (c.x - s, c.y - s/2) to (c.x + s, c.y - s/2) and every step changes row |
| PathGeometry.SegmentLengths | src/client/game/components/PathManager.ts:216-232 | there is one segment length per consecutive pair of points, max(0, n - 1) in all |
| PathGeometry.Starts | src/client/game/components/PathManager.ts:216-232 | there is one segment start per segment length |
| PathGeometry.IndexIsCumulative | src/client/game/components/PathManager.ts:216-232 | both arrays have max(0, n - 1) entries, the first start is 0, each segment starts where the previous one ends, and the last one ends at the total length |
| PathGeometry.PrefixSumsIncrease | src/client/game/components/PathManager.ts:221-231 | with positive segment lengths a longer prefix of the lengths has a strictly larger sum |
| PathGeometry.SegmentEndsBeforeTotal | src/client/game/components/PathManager.ts:221-231 | with positive segment lengths every segment but the last ends strictly before the total length |
| PathGeometry.DistinctVerticesGivePositiveSegments | src/client/game/components/PathManager.ts:216-232 | under a distance that separates points, a polyline without a repeated consecutive vertex has only positive segment lengths |
| PathGeometry.CurvedUpHasNoRepeatedVertex | src/client/game/components/PathManager.ts:94-104 | a curved-up path of positive size has strictly increasing x, so no vertex repeats |
| PathGeometry.FirstSegmentFrom | src/client/game/components/PathManager.ts:241-263 | the scan returns the first segment from i on whose range holds the distance, or none exactly when no such segment exists |
| PathGeometry.FirstSegmentFound | src/client/game/components/PathManager.ts:241-263 | the scan stops at segment k when k holds the distance and no earlier segment does |
| PathGeometry.FirstSegmentAbsent | src/client/game/components/PathManager.ts:241-263 | the scan finds nothing when no segment holds the distance |
| PathGeometry.PositionOnFirstSegment | src/client/game/components/PathManager.ts:234-263 | the position is the interpolation p[k] + t·(p[k+1] - p[k]) with t in [0,1], k being the first segment whose [start, start + length] holds progress·total |
| PathGeometry.SegmentHoldsDistanceFrom | src/client/game/components/PathManager.ts:216-232 | a distance between the start of segment k and the total length lies on segment k or a later one, because each segment starts where the previous one ends and the last one ends at the total |
| PathGeometry.FirstSegmentExists | src/client/game/components/PathManager.ts:241-263 | on an index of two or more points with positive segments, the scan finds a segment holding the target distance for every progress value |
| PathGeometry.PositionIsOnFirstSegment | src/client/game/components/PathManager.ts:234-263 | on an index of two or more points with positive segments, every progress value finds a segment, so the fallback is never reached; the position is the interpolation on the first segment holding the target distance, at a parameter in [0,1] |
| PathGeometry.PositionWithoutSegment | src/client/game/components/PathManager.ts:265-268 | with no segment holding the target distance the result is the origin for no points, the first point below progress 0.5, and the last point otherwise |
| PathGeometry.PositionAtStart | src/client/game/components/PathManager.ts:234-263 | on a path of two or more points with positive segments, progress 0 is the first point |
| PathGeometry.PositionAtEnd | src/client/game/components/PathManager.ts:234-263 | on a path of two or more points with positive segments, progress 1 is the last point |
| PathGeometry.NearestSampleUpTo | src/client/game/components/PathManager.ts:277-286 | the running best after samples 0..n is no farther than any of them, and every earlier sample is strictly farther |
| PathGeometry.NearestProgressIsFirstClosestSample | src/client/game/components/PathManager.ts:271-289 | the result is some i/100 in [0,1] whose position is no farther from the cursor than every sample's, and every earlier sample is strictly farther (ties go to the smallest i) |
| PathGeometry.BestInWindow | src/client/game/components/PathManager.ts:310-320 | the window's best is a qualifying sample of least distance with the earliest winning ties, or none exactly when no sample qualifies |
| PathGeometry.WindowSampleBounds | src/client/game/components/PathManager.ts:303-311 | a window sample strictly ahead of the current progress lies no farther than min(current + maxAdvancement, 1) |
| PathGeometry.WindowSampleNotAhead | src/client/game/components/PathManager.ts:303-311 | when the window ends at or before the current progress no sample is ahead of it |
| PathGeometry.NextValidProgressSpec | src/client/game/components/PathManager.ts:295-324 | a returned progress q satisfies current < q ≤ min(current + maxAdvancement, 1) and lies within tolerance of the cursor; nothing is returned once current ≥ 1 |
| PathManagerModel.ComputeArcIndex | src/client/game/components/PathManager.ts:216-232 | the push-and-accumulate loop builds exactly the arc-length index of the points |
| PathManagerModel.PositionOnPath | src/client/game/components/PathManager.ts:234-269 | the scan returns the position PositionAt specifies |
| PathManagerModel.NearestProgress | src/client/game/components/PathManager.ts:271-289 | the 101-sample loop returns the first closest sample's progress |
| PathManagerModel.WindowSample | src/client/game/components/PathManager.ts:311-313 | one window sample's progress and its distance to the cursor |
| PathManagerModel.BestInWindowStep | src/client/game/components/PathManager.ts:316-319 | one more sample replaces the running best exactly when it qualifies and is strictly closer |
| PathManagerModel.NextValid | src/client/game/components/PathManager.ts:295-324 | the window loop returns the best qualifying sample's progress, or none (null) |
| PathManagerModel.PathManager.constructor | src/client/game/components/PathManager.ts:23-28 | a new manager has no points and an empty, consistent index |
| PathManagerModel.PathManager.CreatePath | src/client/game/components/PathManager.ts:30-41 | the points are regenerated from the configuration (the curved-up default of size 100 when none is given) and the index rebuilt for them |
| PathManagerModel.PathManager.GeneratePathPoints | src/client/game/components/PathManager.ts:43-92 | the generated points are those GeneratedPoints specifies, at least two of them |
| PathManagerModel.PathManager.CreateSpiralPath | src/client/game/components/PathManager.ts:118-132 | the loop produces the 21 spiral samples |
| PathManagerModel.PathManager.CreateZigzagPath | src/client/game/components/PathManager.ts:134-145 | the loop produces the 7 zigzag vertices |
| PathManagerModel.PathManager.CreateCirclePath | src/client/game/components/PathManager.ts:147-159 | the loop produces the 17 circle samples |
| PathManagerModel.PathManager.CreateHeartPath | src/client/game/components/PathManager.ts:178-199 | the loop produces the 31 heart samples |
| PathManagerModel.PathManager.CalculatePathLengths | src/client/game/components/PathManager.ts:216-232 | the index is rebuilt for the unchanged points and describes them afterwards |
| PathManagerModel.PathManager.GetPositionOnPath | src/client/game/components/PathManager.ts:234-269 | the position at the clamped progress, as PositionAt specifies |
| PathManagerModel.PathManager.GetProgressFromPosition | src/client/game/components/PathManager.ts:271-289 | the first closest of the 101 samples |
| PathManagerModel.PathManager.GetNextValidProgress | src/client/game/components/PathManager.ts:295-324 | the forward-window result NextValidProgress specifies |
| PathManagerModel.PathManager.IsPositionOnPath | src/client/game/components/PathManager.ts:329-333 | true exactly when the cursor is within tolerance of the position at the given progress |
| PathManagerModel.PathManager.GetStartPoint | src/client/game/components/PathManager.ts:442-444 | there is a start point exactly when there are points, and it is the first one |
| PathManagerModel.PathManager.GetEndPoint | src/client/game/components/PathManager.ts:446-448 | there is an end point exactly when there are points, and it is the last one |
| PathManagerModel.EndpointsArePositions | src/client/game/components/PathManager.ts:442-448 | on a created path with positive segments the start and end points are the positions at progress 0 and 1 |
| HandleMachine.Observe | src/client/game/components/DragButton.ts:169-178 | the projected progress lies in [0,1] and the distance is the cursor's distance to the path point at that progress |
| HandleMachine.ClearTimer | src/client/game/components/DragButton.ts:214-219 | afterwards no timer is referenced, the referenced one is no longer live, and nothing else changes |
| HandleMachine.StartTimer | src/client/game/components/DragButton.ts:208-212 | a fresh timer is scheduled, referenced and live |
| HandleMachine.Destroy | src/client/game/components/DragButton.ts:286-307 | afterwards there is no container and no referenced timer |
| HandleMachine.InitialInv | src/client/game/components/DragButton.ts:24-29 | a new handle satisfies the handle invariant |
| HandleMachine.HandlersPreserveInv | src/client/game/components/DragButton.ts:114-316 | every handler keeps the invariant: at most one pending timer and it is the referenced one; completed exactly when one callback was signalled; progress in [0,1] and below 0.98 while unfinished |
| HandleMachine.StepPreservesInv | src/client/game/components/DragButton.ts:96-112 | every event delivered through the listeners keeps the invariant |
| HandleMachine.RunPreservesInv | src/client/game/components/DragButton.ts:96-112 | any sequence of events keeps the invariant |
| HandleMachine.StepKeepsOutcome | src/client/game/components/DragButton.ts:221-265 | short of a reset, no event retracts a signalled callback or signals a second one, and a completed handle stays completed |
| HandleMachine.RunSignalsAtMostOnce | src/client/game/components/DragButton.ts:221-265 | over any run without reset at most one callback is signalled and it stays signalled |
| HandleMachine.ReleaseBeforeCompletionFails | src/client/game/components/DragButton.ts:127-156 | drag-end or pointer-up on an unfinished handle signals failure, releases it, and leaves no timer |
| HandleMachine.OffPathThenTimeoutFails | src/client/game/components/DragButton.ts:200-212 | a rejected move while the pointer is held starts exactly one timer, and its firing fails the handle |
| HandleMachine.RepeatedOffPathKeepsOneTimer | src/client/game/components/DragButton.ts:200-205 | a rejected move while a timer is pending changes nothing, so no second timer is scheduled |
| HandleMachine.RecoveryCancelsTimer | src/client/game/components/DragButton.ts:180-184 | an accepted move short of the threshold destroys the pending timer and adopts the progress, and the stale timer's callback then changes nothing |
| HandleMachine.ReachingThresholdCompletes | src/client/game/components/DragButton.ts:197-199 | an accepted move at progress 0.98 or more signals completion once, marks the handle completed, and leaves no timer |
| HandleMachine.MoveBoundsRegression | src/client/game/components/DragButton.ts:170-184 | a move never takes the progress back by more than maxBackwardMovement, nor below 0 |
| HandleMachine.ResetStartsOver | src/client/game/components/DragButton.ts:309-316 | reset leaves every flag false, progress 0, no timer, no container and nothing reported, with the invariant holding |
| HandleMachine.EngageRestartsCompletedHandle | src/client/game/components/DragButton.ts:114-120 | as written, a drag start or pointer press on a completed handle that still has its container sets its progress back to 0, while it stays completed |
| HandleMachine.GuardedStepKeepsCompletedHandle | src/client/game/components/DragButton.ts:114-164 | with the press handlers guarded by completion, no event other than reset changes a completed handle beyond clearing its drag and pointer flags and dropping its container; progress, outcome and timer stay, and the invariant holds |
| DragButtonModel.DragButton.constructor | src/client/game/components/DragButton.ts:35-49 | a new button is the machine's initial handle with the given path manager and configuration |
| DragButtonModel.DragButton.Create | src/client/game/components/DragButton.ts:51-80 | a completed button is left alone; otherwise the path is generated from the configuration and the container with its listeners exists |
| DragButtonModel.DragButton.ClearFailureTimeout | src/client/game/components/DragButton.ts:214-219 | the machine's ClearTimer |
| DragButtonModel.DragButton.StartFailureTimeout | src/client/game/components/DragButton.ts:208-212 | the machine's StartTimer |
| DragButtonModel.DragButton.TriggerCompletion | src/client/game/components/DragButton.ts:221-243 | the machine's completion, reporting the callback it signals |
| DragButtonModel.DragButton.TriggerFailure | src/client/game/components/DragButton.ts:245-265 | the machine's failure, reporting the callback it signals |
| DragButtonModel.DragButton.OnDragStart | src/client/game/components/DragButton.ts:114-120 | the machine's engage (dragging, pointer held, drag started, progress 0, no timer), keeping the invariant |
| DragButtonModel.DragButton.OnDragEnd | src/client/game/components/DragButton.ts:127-134 | the machine's release, keeping the invariant and reporting the callback it signals |
| DragButtonModel.DragButton.OnGlobalPointerUp | src/client/game/components/DragButton.ts:158-164 | the machine's global release, keeping the invariant and reporting the callback it signals |
| DragButtonModel.DragButton.Advance | src/client/game/components/DragButton.ts:180-199 | the accepted branch: the timer cleared, the progress adopted, completion at 0.98 |
| DragButtonModel.DragButton.UpdatePosition | src/client/game/components/DragButton.ts:166-206 | the machine's move for the cursor's projection onto the path, keeping the invariant |
| DragButtonModel.DragButton.OnDrag | src/client/game/components/DragButton.ts:122-125 | the machine's step for a drag move, followed only while dragging |
| DragButtonModel.DragButton.OnPointerMove | src/client/game/components/DragButton.ts:144-147 | the machine's step for a pointer move, followed only while dragging a started drag |
| DragButtonModel.DragButton.FireFailureTimer | src/client/game/components/DragButton.ts:208-212 | a live timer's callback is the machine's FireTimer, which fails the handle |
| DragButtonModel.DragButton.UpdateLayout | src/client/game/components/DragButton.ts:267-284 | a completed button's path is untouched; otherwise the path is regenerated for the new centre and scale; the handle's state, its progress included, is unchanged |
| DragButtonModel.DragButton.Destroy | src/client/game/components/DragButton.ts:286-307 | the machine's Destroy |
| DragButtonModel.DragButton.Reset | src/client/game/components/DragButton.ts:309-316 | the machine's Reset, keeping the invariant |
| DragButtonModel.DragButton.IsButtonCompleted | src/client/game/components/DragButton.ts:326-328 | true exactly when one callback has been signalled |
| DragButtonManagerModel.MergeButtonConfig | src/client/game/components/DragButtonManager.ts:59-62 | each field present in the definition's configuration overrides the default, and each absent one keeps it |
| DragButtonManagerModel.AsButtonConfig | src/client/game/components/DragButtonManager.ts:59-62 | the cast yields a configuration exactly when all three fields are present, with their values |
| DragButtonManagerModel.StockDefaultsAreComplete | src/client/game/components/DragButtonManager.ts:38-47 | merging into the stock 60 / 0.05 / 300 always gives a full configuration, and with no override the button's default one |
| DragButtonManagerModel.MergeIsIdempotent | src/client/game/components/DragButtonManager.ts:59-62 | merging the same override twice changes nothing further |
| DragButtonManagerModel.Configure | src/client/game/components/DragButtonManager.ts:35-48 | each present option replaces its default as a whole; absent options default to the stock configuration, auto-recreate and 1000 ms |
| DragButtonManagerModel.PartialDefaultsAreNotMerged | src/client/game/components/DragButtonManager.ts:38-47 | a defaultButtonConfig with only a tolerance drops the other two defaults, so buttons built from it lack a full configuration |
| DragButtonManagerModel.FieldwiseDefaultsKeepStockFields | src/client/game/components/DragButtonManager.ts:38-47 | merged field by field, the defaults keep every stock field the options leave out, so every button configuration built from them is complete; a given field wins, and complete or absent options give the constructor's own result |
| DragButtonManagerModel.AutoRecreate | src/client/game/components/DragButtonManager.ts:218 | the definition's autoRecreate if present, else the manager's default |
| DragButtonManagerModel.RecreateDelay | src/client/game/components/DragButtonManager.ts:219-223 | the delay is never 0: a zero delay becomes 1000, and an absent one is the manager's default |
| DragButtonManagerModel.AfterFire | src/client/game/components/DragButtonManager.ts:223-227 | a firing recreation leaves the schedule |
| DragButtonManagerModel.FireOnlyFillsGaps | src/client/game/components/DragButtonManager.ts:223-227 | a recreation registers its definition only when the id has no entry at fire time, and otherwise changes no registration |
| DragButtonManagerModel.FailedButtonIsNeverRecreated | src/client/game/components/DragButtonManager.ts:221-227 | with auto-recreate a failure keeps the entry and schedules one recreation, which then finds the id taken and creates nothing |
| DragButtonManagerModel.RemovalLetsRecreationHappen | src/client/game/components/DragButtonManager.ts:221-227 | when the id is removed between failure and firing, the recreation registers the same definition again |
| DragButtonManagerModel.IntendedFailureRecreates | src/client/game/components/DragButtonManager.ts:221-231 | under the intended policy a failed button leaves the registry at once; with auto-recreate the recreation scheduled with its delay registers the same definition again when it fires, and without auto-recreate the policy is the written one |
| DragButtonManagerModel.CompletionUnregisters | src/client/game/components/DragButtonManager.ts:205-210 | a completion removes the id and leaves the schedule alone |
| DragButtonManagerModel.RotationArgumentIsIgnored | src/client/game/components/DragButtonManager.ts:87-93 | as written, a definition's rotation does not change the path its button is built on |
| DragButtonManagerModel.TurnedButtonIsRigid | src/client/game/components/DragButtonManager.ts:14 | the intended button path, turned by the definition's rotation about the button's position, keeps every point's distance to that position, turns back to the written path, and is the written path when there is no rotation |
| DragButtonManagerModel.Decimal | src/client/game/components/DragButtonManager.ts:168 | the printed number is a non-empty string of digits |
| DragButtonManagerModel.DecimalIsInjective | src/client/game/components/DragButtonManager.ts:168 | different numbers print differently |
| DragButtonManagerModel.GridIdIsInjective | src/client/game/components/DragButtonManager.ts:168 | distinct cells get distinct ids grid_row_col |
| DragButtonManagerModel.GridRowIdentifies | src/client/game/components/DragButtonManager.ts:163-174 | a definition one row creates that carries the id of cell (r, c) is that cell's definition, with its visit counter |
| DragButtonManagerModel.GridRowHasCell | src/client/game/components/DragButtonManager.ts:163-174 | every cell of a row from the starting column on is created by that row |
| DragButtonManagerModel.RowStartIsProduct | src/client/game/components/DragButtonManager.ts:162-175 | the first cell of row r is visited (r·cols)-th |
| DragButtonManagerModel.GridFromIdentifies | src/client/game/components/DragButtonManager.ts:162-175 | a grid definition carrying the id of cell (r, c) is that cell's definition with row-major counter r·cols + c |
| DragButtonManagerModel.GridFromHasCell | src/client/game/components/DragButtonManager.ts:162-175 | every cell of the rows from the starting row on is created |
| DragButtonManagerModel.GridRegistersEveryCell | src/client/game/components/DragButtonManager.ts:149-176 | an id grid_r_c is registered exactly for the cells of the grid, with the path type of its row-major counter r·cols + c |
| DragButtonManagerModel.GridRowCreatesRow | src/client/game/components/DragButtonManager.ts:163-174 | the inner loop creates its row's definitions in order |
| DragButtonManagerModel.GridCreatesRows | src/client/game/components/DragButtonManager.ts:162-175 | the outer loop creates the rows' definitions in order |
| DragButtonManagerModel.RegisteredHasEvery | src/client/game/components/DragButtonManager.ts:83-84 | every created definition is registered under its id |
| DragButtonManagerModel.RegisteredIsLast | src/client/game/components/DragButtonManager.ts:83-84 | what is registered under an id is the last definition created with it |
| DragButtonManagerModel.CreatedAllIsUnion | src/client/game/components/DragButtonManager.ts:99-103 | creating definitions in order registers them over the existing ones and leaves the schedule untouched |
| DragButtonManagerModel.CoherentAfterRemove | src/client/game/components/DragButtonManager.ts:237-250 | deleting an id from all three maps keeps them coherent |
| DragButtonManagerModel.CoherentAfterCreate | src/client/game/components/DragButtonManager.ts:55-84 | registering a new button and path manager under a definition's id keeps the maps coherent |
| DragButtonManagerModel.CoherentAfterClear | src/client/game/components/DragButtonManager.ts:255-260 | clearing the maps keeps them coherent, and every button is owned by the id it is registered under |
| DragButtonManagerModel.CoherentWithSchedule | src/client/game/components/DragButtonManager.ts:223-227 | scheduling or dropping recreations of configurable definitions keeps the maps coherent |
| DragButtonManagerModel.Dispatch | src/client/game/components/DragButton.ts:96-112 | an input reaching a button makes the handle machine's step and reports the callback it signals |
| DragButtonManagerModel.DestroyEach | src/client/game/components/DragButtonManager.ts:256 | every button of the map is destroyed, and the manager is unchanged |
| DragButtonManagerModel.DestroyDetached | src/client/game/components/DragButtonManager.ts:237-241 | an unregistered button is destroyed without disturbing the manager |
| DragButtonManagerModel.DestroyOne | src/client/game/components/DragButtonManager.ts:256 | one step of the forEach destroys exactly that button |
| DragButtonManagerModel.DragButtonManager.constructor | src/client/game/components/DragButtonManager.ts:35-48 | the configuration is the options spread over the defaults, and nothing is registered |
| DragButtonManagerModel.DragButtonManager.CreateButton | src/client/game/components/DragButtonManager.ts:53-94 | the id maps to a fresh button and path manager in all three maps, overwriting previous entries and leaving other ids alone; the button is created and its path generated at the definition's position |
| DragButtonManagerModel.DragButtonManager.Register | src/client/game/components/DragButtonManager.ts:55-84 | the new button and path manager are stored under the definition's id, and no other id changes |
| DragButtonManagerModel.DragButtonManager.Store | src/client/game/components/DragButtonManager.ts:55-84 | the three maps are each extended by the one entry |
| DragButtonManagerModel.DragButtonManager.NewButton | src/client/game/components/DragButtonManager.ts:55-93 | a fresh button with the merged configuration, created with its path generated at the definition's position |
| DragButtonManagerModel.DragButtonManager.CreateButtons | src/client/game/components/DragButtonManager.ts:99-103 | the definitions are registered in order over the existing ones |
| DragButtonManagerModel.DragButtonManager.CreateSimpleButton | src/client/game/components/DragButtonManager.ts:108-128 | one definition with only a type and a size is created |
| DragButtonManagerModel.DragButtonManager.CreateButtonGrid | src/client/game/components/DragButtonManager.ts:149-176 | exactly the grid's cell definitions are registered, in row-major order, over the existing ones |
| DragButtonManagerModel.DragButtonManager.CreateGridRow | src/client/game/components/DragButtonManager.ts:163-174 | one row's cells are created and the type counter advances by the number of columns |
| DragButtonManagerModel.DragButtonManager.RemoveButton | src/client/game/components/DragButtonManager.ts:237-250 | the id leaves all three maps and its button is destroyed; nothing else changes; an absent id is harmless |
| DragButtonManagerModel.DragButtonManager.RemoveAllButtons | src/client/game/components/DragButtonManager.ts:255-260 | every button is destroyed and all three maps are empty; scheduled recreations remain |
| DragButtonManagerModel.DragButtonManager.HandleButtonComplete | src/client/game/components/DragButtonManager.ts:205-210 | a completed button is destroyed and unregistered |
| DragButtonManagerModel.DragButtonManager.HandleButtonFailure | src/client/game/components/DragButtonManager.ts:212-232 | with auto-recreate the button stays registered and a recreation is scheduled; otherwise it is removed; an unknown id is ignored |
| DragButtonManagerModel.DragButtonManager.Reschedule | src/client/game/components/DragButtonManager.ts:223 | the schedule is replaced and nothing registered changes |
| DragButtonManagerModel.DragButtonManager.FireRecreate | src/client/game/components/DragButtonManager.ts:223-227 | a firing recreation creates its definition again at scale 1, as a fresh idle button, only when the id has no button at that moment |
| DragButtonManagerModel.DragButtonManager.Deliver | src/client/game/components/DragButtonManager.ts:67-80 | an input to a registered button makes its machine step, and the callback it signals reaches the manager |
| DragButtonManagerModel.DragButtonManager.Route | src/client/game/components/DragButtonManager.ts:67-80 | a completion removes the button and a failure is handled by the failure policy |
| DragButtonManagerModel.DragButtonManager.UpdateLayout | src/client/game/components/DragButtonManager.ts:265-274 | every registered button that has not completed has its path regenerated for its definition at the new scale, and completed ones keep theirs |
| DragButtonManagerModel.DragButtonManager.UpdateOne | src/client/game/components/DragButtonManager.ts:266-272 | one step of the forEach lays out one more button and leaves the rest as they were |
| DragButtonManagerModel.DragButtonManager.LayOutOne | src/client/game/components/DragButtonManager.ts:266-272 | one definition's button is laid out and every other path is unchanged |
| DragButtonManagerModel.DragButtonManager.GetButtonStates | src/client/game/components/DragButtonManager.ts:279-291 | one entry per definition id, active exactly when the id has a button, completed exactly when that button has completed |
| DragButtonManagerModel.DragButtonManager.CompletedOnlyByFailure | src/client/game/components/DragButtonManager.ts:205-232 | a registered button shows as completed exactly when it has failed (a completion always unregisters) |
| DragButtonManagerModel.DragButtonManager.AreAllButtonsCompleted | src/client/game/components/DragButtonManager.ts:296-299 | true exactly when every definition's button has completed, and true with no definitions |
| DragButtonManagerModel.DragButtonManager.GetActiveButtonCount | src/client/game/components/DragButtonManager.ts:304-306 | the number of buttons, which is the number of definitions |
| DragButtonManagerModel.DragButtonManager.GetCompletedButtonCount | src/client/game/components/DragButtonManager.ts:311-314 | the number of definitions whose button has completed, never more than the number of definitions |
| GameSceneModel.LayoutScale | src/client/game/scenes/Game.ts:518 | the scale factor is at most 1 and at most both axis ratios to 1024 × 768, and equals one of the three |
| GameSceneModel.GamePathPoints | src/client/game/scenes/Game.ts:72-80 | the scene's seven points are the component's curved-up shape of size 100·scale |
| GameSceneModel.GamePathIsDefaultPath | src/client/game/scenes/Game.ts:72-80 | the scene's inline path is the path createPath draws with no configuration |
| GameSceneModel.GamePathHasPositiveSegments | src/client/game/scenes/Game.ts:72-80 | at a positive scale and under a separating distance the scene's path has only positive segment lengths |
| GameSceneModel.StartInv | src/client/game/scenes/Game.ts:36-38 | the scene as constructed satisfies the scene invariant |
| GameSceneModel.FailSceneOutcome | src/client/game/scenes/Game.ts:434-481 | on an unfinished attempt with a button, the attempt is over, released, without a timer, recorded as failed, and animated; without a button the scene resets at once; a finished attempt is left alone |
| GameSceneModel.ResetClearsAttempt | src/client/game/scenes/Game.ts:483-501 | after a reset every flag is false, progress is 0, the path is empty, no timer remains, nothing is recorded, and one more recreation is scheduled |
| GameSceneModel.StepPreservesSceneInv | src/client/game/scenes/Game.ts:263-316 | every scene event keeps the scene invariant |
| GameSceneModel.MoveKeepsSceneInv | src/client/game/scenes/Game.ts:318-365 | a move delivered while the container exists keeps the scene invariant |
| GameSceneModel.RunPreservesSceneInv | src/client/game/scenes/Game.ts:263-316 | any run of scene events keeps the scene invariant |
| GameSceneModel.CompletionIsFinal | src/client/game/scenes/Game.ts:367-393 | once completed, the attempt stays completed whatever happens: the scene is never reset and no recreation is scheduled |
| GameSceneModel.FailureRestarts | src/client/game/scenes/Game.ts:463-501 | a failed attempt's animation ends in a reset with one recreation scheduled, and that recreation builds a fresh, unfinished button at the start of a new path |
| GameSceneModel.GlobalReleaseIdempotent | src/client/game/scenes/Game.ts:309-316 | delivering the global pointer-up twice has the effect of delivering it once |
| GameSceneModel.MoveAgreesWithComponent | src/client/game/scenes/Game.ts:318-365 | the scene's move is the component's move under tolerance 60, backward movement 0.05 and a 300 ms timer |
| GameSceneModel.FailAgreesWithComponent | src/client/game/scenes/Game.ts:276-316 | the scene's failure, release and global release act on the handle as the component's do |
| GameSceneModel.GameScene.constructor | src/client/game/scenes/Game.ts:36-38 | a new scene has no button, no path, nothing scheduled, and is valid |
| GameSceneModel.GameScene.Create | src/client/game/scenes/Game.ts:40-63 | the button is created, then the path is laid out for the canvas |
| GameSceneModel.GameScene.CreateDragButton | src/client/game/scenes/Game.ts:65-126 | nothing happens once the attempt is over; otherwise the unscaled path around the centre is built and indexed, and the button with its listeners exists |
| GameSceneModel.GameScene.CalculatePathLengths | src/client/game/scenes/Game.ts:128-144 | the index is rebuilt for the unchanged points (starts from 0, cumulative, ending at the total) |
| GameSceneModel.GameScene.GetPositionOnPath | src/client/game/scenes/Game.ts:146-181 | the same position as the component's query |
| GameSceneModel.GameScene.GetProgressFromPosition | src/client/game/scenes/Game.ts:183-201 | the same first closest of 101 samples as the component's query |
| GameSceneModel.GameScene.OnDragStart | src/client/game/scenes/Game.ts:263-269 | the scene's engage step, keeping the scene invariant |
| GameSceneModel.GameScene.OnDrag | src/client/game/scenes/Game.ts:271-274 | the scene's drag-move step, followed only while dragging |
| GameSceneModel.GameScene.OnDragEnd | src/client/game/scenes/Game.ts:276-284 | the scene's release step: short of the threshold the attempt fails |
| GameSceneModel.GameScene.OnPointerDown | src/client/game/scenes/Game.ts:286-292 | the same engage step as onDragStart |
| GameSceneModel.GameScene.OnPointerMove | src/client/game/scenes/Game.ts:294-297 | the scene's pointer-move step, followed only while dragging a started drag |
| GameSceneModel.GameScene.OnPointerUp | src/client/game/scenes/Game.ts:299-307 | the same release step as onDragEnd |
| GameSceneModel.GameScene.Engage | src/client/game/scenes/Game.ts:263-269 | dragging, pointer held, drag started, progress 0, no timer |
| GameSceneModel.GameScene.Release | src/client/game/scenes/Game.ts:276-284 | the pointer released, and the attempt failed when short of the threshold and not over |
| GameSceneModel.GameScene.OnGlobalPointerUp | src/client/game/scenes/Game.ts:309-316 | a release anywhere fails a held, unfinished attempt |
| GameSceneModel.GameScene.UpdateCirclePosition | src/client/game/scenes/Game.ts:318-365 | the scene's move for the cursor's projection onto the path, under the scene's constants; the path and its index are untouched |
| GameSceneModel.GameScene.Advance | src/client/game/scenes/Game.ts:339-358 | the timer cleared before the progress is adopted, completion at 0.98 |
| GameSceneModel.GameScene.CompleteDragButton | src/client/game/scenes/Game.ts:367-393 | the attempt is over and recorded as completed, and the completion animation starts when there is a button |
| GameSceneModel.GameScene.StartFailureTimeout | src/client/game/scenes/Game.ts:420-425 | a fresh timer is scheduled and referenced |
| GameSceneModel.GameScene.ClearFailureTimeout | src/client/game/scenes/Game.ts:427-432 | the referenced timer is destroyed and the reference dropped |
| GameSceneModel.GameScene.TriggerButtonFailure | src/client/game/scenes/Game.ts:434-481 | nothing happens once the attempt is over; otherwise it ends, released and without a timer, and is animated, or without a button the scene resets at once |
| GameSceneModel.GameScene.EndAttempt | src/client/game/scenes/Game.ts:434-440 | the attempt over, the pointer released, the timer cleared and the failure recorded |
| GameSceneModel.GameScene.ResetButtonState | src/client/game/scenes/Game.ts:483-501 | all flags false, progress and path index 0, empty points and index with total 0, no timer, and a recreation scheduled |
| GameSceneModel.GameScene.ClearAttempt | src/client/game/scenes/Game.ts:485-489 | a new, unfinished, released attempt at progress 0 |
| GameSceneModel.GameScene.ClearPath | src/client/game/scenes/Game.ts:490-494 | no points, an empty index and path index 0 |
| GameSceneModel.GameScene.FireFailureTimer | src/client/game/scenes/Game.ts:420-425 | a live timer's callback fails the attempt, keeping the scene invariant |
| GameSceneModel.GameScene.OnFailureAnimationComplete | src/client/game/scenes/Game.ts:463-473 | when the failure animation ends the button is destroyed and the scene reset |
| GameSceneModel.GameScene.OnCompletionAnimationComplete | src/client/game/scenes/Game.ts:367-393 | when the completion animation ends the button is destroyed |
| GameSceneModel.GameScene.OnRecreateTimer | src/client/game/scenes/Game.ts:498-500 | the call a reset scheduled leaves the schedule and runs createDragButton |
| GameSceneModel.GameScene.UpdateLayout | src/client/game/scenes/Game.ts:503-570 | a live attempt with a path has it rebuilt for the new centre and scale and re-indexed; the progress is kept |

## Left out

- Drawing: the path, progress and circle graphics, the particle and tween effects of
  `EffectsManager`, and the camera, background and text layout of `Game.updateLayout`.
- DragButtonModel.DragButton.TriggerFailure does not schedule the failure effect's completion
  callback, which destroys the button (DragButton.ts lines 254-257). On the component that
  destroy is the separate `Destroy` call (`DestroyCalled` in `HandleMachine.Step`), made when
  the effect ends. The Game scene models its own as `OnFailureAnimationComplete`.
- DragButtonManagerModel.Dispatch and DragButtonManagerModel.DragButtonManager.Deliver: the
  destroy at the end of a button's failure effect is not an input. Under auto-recreate, a
  failed button therefore keeps its container, and its listeners, for as long as it stays
  registered; in the source they are removed when the effect ends.
- Real time: tween and timer durations become explicit events. Only live timers fire, and only
  running animations end.
- Euclidean distance and trigonometry are parameters, not square roots and floating-point
  cosines. The geometric facts needed (separation, cos² + sin² = 1, symmetry) are
  preconditions of the lemmas that use them.
- `createButtonCircle` and `createSimpleButtonDegrees` are not modelled: they only compute
  positions and angles with cos, sin and π, then call `createSimpleButton`, which is modelled.
- The user's `onComplete` / `onFailure` callbacks of a definition and of `setOnComplete` /
  `setOnFailure` are not called. The model returns the signalled outcome instead.
- `console.log` calls, and `getPathPoints`, which only returns the array.
- Default argument values are not modelled: each becomes an ordinary parameter that the
  caller passes. These are `maxAdvancement` 0.1 and `tolerance` 60 of `getNextValidProgress`
  (PathManager.ts lines 299-300), `tolerance` 60 of `isPositionOnPath` (line 329), `size` 100
  and `rotation` 0 of `createSimpleButton` (DragButtonManager.ts lines 113-115), `size` 80 of
  `createButtonGrid` (line 156), and `scaleFactor` 1 of `createPath`, `DragButton.create`,
  `createButton`, `createButtons`, `createSimpleButton` and `createButtonGrid`.
- The fifth, rotation argument `createButton` passes to `DragButton.create` is dropped,
  because the button never reads it.
- PathManagerModel.PathManager.GetPositionOnPath, GetProgressFromPosition,
  GetNextValidProgress and IsPositionOnPath require `NoZeroSegments`: the division by a zero
  segment length at PathManager.ts line 252 is not modelled.
- GameSceneModel.GameScene.OnDrag, OnPointerMove, UpdateCirclePosition, GetPositionOnPath
  and GetProgressFromPosition require `NoZeroSegments` for the same reason.
- DragButtonModel.DragButton.UpdatePosition, OnDrag and OnPointerMove require
  `NoZeroSegments` for the same reason.
- HandleMachine.Observe, DragButtonManagerModel.Dispatch and
  DragButtonManagerModel.DragButtonManager.Deliver require `NoZeroSegments` of the button's
  path for a move, for the same reason.
- DragButtonManagerModel.DragButtonManager.CreateButton, CreateButtons, CreateSimpleButton
  and CreateButtonGrid require that the merged configuration has all three fields
  (`Configurable`). The source casts an incomplete one to `DragButtonConfig` regardless,
  and the button then compares against `undefined`.
- DragButtonManagerModel.DragButtonManager.RemoveButton and RemoveAllButtons: the source
  destroys a button before deleting its entry. The model deletes the entry first and then
  destroys the button. The two touch disjoint state, so the outcome is the same.
- DragButtonManagerModel.DragButtonManager: the methods require the registry invariant
  `Valid` (or `Consistent`), which every method keeps. This restricts them to managers
  reachable from the constructor.
- GameSceneModel.GameScene: the handlers require `Valid`, which every handler keeps.
  `Create` and `CreateDragButton` also require that no recreation is pending, the only
  state from which the source calls them.
- The Game scene registers a new global pointer-up listener with every `createDragButton`,
  so one release can reach it several times. One delivery is modelled, and
  `GlobalReleaseIdempotent` shows that repeats change nothing.
- Mouse and touch input are not distinguished beyond the drag and pointer events the
  handlers receive.
- DragButtonManagerModel.DragButtonManager.CreateButton and Deliver: a second `createButton`
  with an id already registered overwrites the three entries without destroying the old
  button (DragButtonManager.ts lines 83-84). The old button keeps its listeners, and its
  callbacks, which capture only the id, would act on the new entry: its completion removes
  the new button. The model keeps the old button owned but unregistered and delivers input
  only to registered buttons, so this interference is not modelled.
- Optional fields are `Option` values, which do not tell an explicit `undefined` from an
  absent field. In the source, a field spread as `undefined` (`{...a, ...{x: undefined}}`)
  overwrites `x`, whereas `Spread` keeps the earlier value.

## Findings

| source | as written | input that shows it | evidently intended | confidence | as-written member | corrected member |
|---|---|---|---|---|---|---|
| src/client/game/components/DragButtonManager.ts:221-227 | with auto-recreate a failed button stays in `buttons`, so the delayed call finds its id taken and creates nothing | any definition with `autoRecreate` true or absent (default true) whose button fails | the failed button is removed and destroyed, and a fresh idle button with the same definition is created after the delay | not executed | DragButtonManagerModel.FailedButtonIsNeverRecreated | DragButtonManagerModel.IntendedFailureRecreates |
| src/client/game/components/DragButtonManager.ts:38-47 | the constructor spreads options object by object, so a partial `defaultButtonConfig` replaces the stock 60 / 0.05 / 300 wholesale | `new DragButtonManager(scene, { defaultButtonConfig: { tolerance: 80 } })`, then a button without its own configuration | the given fields override the stock defaults one by one and the others remain | not executed | DragButtonManagerModel.PartialDefaultsAreNotMerged | DragButtonManagerModel.FieldwiseDefaultsKeepStockFields |
| src/client/game/components/DragButton.ts:114-120 | `onDragStart` and `onPointerDown` reset the progress of a completed handle to 0 and raise its flags | a handle that completed at progress 0.99 and still has its container, then pressed again | a completed handle ignores presses | not executed | HandleMachine.EngageRestartsCompletedHandle | HandleMachine.GuardedStepKeepsCompletedHandle |
| src/client/game/components/DragButtonManager.ts:87-93 | `createButton` passes `definition.rotation` as a fifth argument that `DragButton.create` does not take, so it is ignored | a definition with `rotation: Math.PI / 2` | the rotation turns the whole button, path and handle, about its position (the comment at line 14) | not executed | DragButtonManagerModel.RotationArgumentIsIgnored | DragButtonManagerModel.TurnedButtonIsRigid |
