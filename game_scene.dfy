/** The Game scene: one drag handle built into the scene itself, with its own copy of the path
    index and of the handlers, and the button's constants fixed. Unlike the component, a
    failure is animated and then resets the scene, which creates a fresh button a second
    later; a completion is final. The scene's state is a handle of the handle machine plus the
    scene's own bookkeeping (is a button assigned, which animation is running, how many
    recreations are scheduled, the path points); each handler of the GameScene class is proved
    to make the transition given here, and the transitions are proved to keep the scene's
    invariant. */
module GameSceneModel {
  import opened Wrappers
  import opened PathGeometry
  import opened PathManagerModel
  import opened HandleMachine

  /** The constants updateCirclePosition and startFailureTimeout hard-code: tolerance 60,
      backward movement 0.05, a 300 ms failure timer. */
  const GameConfig: ButtonConfig := ButtonConfig(60.0, 0.05, 300.0)

  /** How long a reset scene waits before creating its button again (ms). */
  const RecreateDelayMs: real := 1000.0

  /** The reference resolution the layout is scaled against. */
  const ReferenceWidth: real := 1024.0
  const ReferenceHeight: real := 768.0

  /** updateLayout's scale factor: the smaller axis ratio to 1024 × 768, never above 1. It is
      the greatest number bounded by both ratios and by 1. */
  function LayoutScale(width: real, height: real): (s: real)
    ensures s <= 1.0 && s <= width / ReferenceWidth && s <= height / ReferenceHeight
    ensures s == 1.0 || s == width / ReferenceWidth || s == height / ReferenceHeight
  {
    Min(Min(width / ReferenceWidth, height / ReferenceHeight), 1.0)
  }

  /** The centre of a canvas of the given size. */
  function Center(width: real, height: real): Point {
    Point(width / 2.0, height / 2.0)
  }

  /** The seven points of the scene's path around `c`, scaled by `scaleFactor`: they are the
      component's curved-up shape of size 100. */
  function GamePathPoints(c: Point, scaleFactor: real): (ps: seq<Point>)
    ensures ps == CurvedUpPoints(c, 100.0 * scaleFactor)
  {
    [ Point(c.x - 100.0 * scaleFactor, c.y + 100.0 * scaleFactor),
      Point(c.x - 80.0 * scaleFactor, c.y + 60.0 * scaleFactor),
      Point(c.x - 40.0 * scaleFactor, c.y + 20.0 * scaleFactor),
      Point(c.x, c.y - 20.0 * scaleFactor),
      Point(c.x + 40.0 * scaleFactor, c.y - 60.0 * scaleFactor),
      Point(c.x + 80.0 * scaleFactor, c.y - 100.0 * scaleFactor),
      Point(c.x + 100.0 * scaleFactor, c.y - 140.0 * scaleFactor) ]
  }

  /** The scene's inline path is the component's default path: createPath with no
      configuration, at the same centre and scale. */
  lemma GamePathIsDefaultPath(c: Point, scaleFactor: real, trig: Trig)
    ensures GamePathPoints(c, scaleFactor) == GeneratedPoints(c, scaleFactor, DefaultPathConfig, trig)
  {
    DefaultPathIsCurvedUp(c, scaleFactor, trig);
  }

  /** The scene's path has no repeated vertex at a positive scale, so under a metric that
      separates points every segment has positive length and the position queries are
      defined. */
  lemma GamePathHasPositiveSegments(c: Point, scaleFactor: real, metric: Metric)
    requires scaleFactor > 0.0 && Separates(metric)
    ensures PositiveSegments(ArcIndex(GamePathPoints(c, scaleFactor), metric))
  {
    CurvedUpHasNoRepeatedVertex(c, 100.0 * scaleFactor);
    DistinctVerticesGivePositiveSegments(GamePathPoints(c, scaleFactor), metric);
  }

  // ---------------------------------------------------------------------------
  // The scene as a state machine
  // ---------------------------------------------------------------------------

  /** The scene. `handle` holds the drag flags, the progress and the failure timer, its
      `hasContainer` saying whether the draggable container (and its listeners) exists and its
      `reported` recording the outcome of the current attempt; `hasButton` says whether
      `dragButton` has ever been assigned (the reference outlives the container);
      `failureTween` and `completionTween` are the running failure and completion animations;
      `recreations` counts the createDragButton calls resets have scheduled and that have not
      run; `points` is the path. */
  datatype Scene = Scene(
    handle: Handle,
    hasButton: bool,
    failureTween: bool,
    completionTween: bool,
    recreations: nat,
    points: seq<Point>)

  /** The scene as constructed, before create(). */
  const Start: Scene := Scene(Initial, false, false, false, 0, [])

  /** triggerButtonFailure's effect on the handle: once only; the attempt is over, the pointer
      released, the timer cleared, and the failure recorded. */
  function Fail(h: Handle): Handle {
    if h.completed then h
    else
      var c := ClearTimer(h.(completed := true, dragging := false, pointerDown := false));
      c.(reported := c.reported + [Failed])
  }

  /** resetButtonState: every flag cleared, progress 0, the path emptied, the timer cleared, a
      new attempt begun, and the button's recreation scheduled. */
  function ResetScene(sc: Scene): Scene {
    var h := ClearTimer(sc.handle).(completed := false, dragging := false, pointerDown := false,
                                     dragStarted := false, progress := 0.0, reported := []);
    sc.(handle := h, points := [], recreations := sc.recreations + 1)
  }

  /** triggerButtonFailure: ignored once the attempt is over; otherwise the failure animation
      starts (it ends in a reset), or, with no button to animate, the scene resets at once. */
  function FailScene(sc: Scene): Scene {
    if sc.handle.completed then sc
    else if sc.hasButton then sc.(handle := Fail(sc.handle), failureTween := true)
    else ResetScene(sc.(handle := Fail(sc.handle)))
  }

  /** onDragStart / onPointerDown: the component's engage. */
  function EngageScene(sc: Scene): Scene {
    sc.(handle := Engage(sc.handle))
  }

  /** onDragEnd / onPointerUp: the pointer is released; short of the threshold and not yet over,
      the attempt fails. */
  function ReleaseScene(sc: Scene): Scene {
    var r := sc.(handle := sc.handle.(dragging := false, pointerDown := false));
    if !sc.handle.completed && sc.handle.progress < CompletionThreshold then FailScene(r) else r
  }

  /** onGlobalPointerUp: a release anywhere fails a held, unfinished attempt. */
  function GlobalReleaseScene(sc: Scene): Scene {
    if sc.handle.pointerDown && !sc.handle.completed then
      FailScene(sc.(handle := sc.handle.(dragging := false, pointerDown := false)))
    else sc
  }

  /** completeDragButton: the attempt is over and recorded as completed; the completion
      animation, which removes the button, starts when there is a button. */
  function CompleteScene(sc: Scene): Scene {
    sc.(handle := sc.handle.(completed := true, reported := sc.handle.reported + [Completed]),
        completionTween := sc.completionTween || sc.hasButton)
  }

  /** updateCirclePosition: ignored without a button or once the attempt is over; an accepted
      sample clears the timer, moves the handle and completes it at the threshold; a rejected
      one starts the failure timer if none is pending and the pointer is down. */
  function MoveScene(sc: Scene, s: Sample): Scene {
    var h := sc.handle;
    if !sc.hasButton || h.completed then sc
    else if Accepts(h, s, GameConfig) then
      var m := ClearTimer(h).(progress := s.target);
      if m.progress >= CompletionThreshold then CompleteScene(sc.(handle := m)) else sc.(handle := m)
    else if h.timer.None? && h.pointerDown then sc.(handle := StartTimer(h))
    else sc
  }

  /** The failure timer's callback: the timer is spent and the attempt fails. */
  function TimerScene(sc: Scene, id: nat): Scene {
    FailScene(sc.(handle := sc.handle.(live := sc.handle.live - {id})))
  }

  /** The failure animation's end: the button is destroyed and the scene reset. */
  function FailureAnimationEndsScene(sc: Scene): Scene {
    ResetScene(sc.(handle := sc.handle.(hasContainer := false), failureTween := false))
  }

  /** The completion animation's end: the button is destroyed. */
  function CompletionAnimationEndsScene(sc: Scene): Scene {
    sc.(handle := sc.handle.(hasContainer := false), completionTween := false)
  }

  /** createDragButton: ignored once the attempt is over; otherwise the path is laid out,
      unscaled, around the centre, and the button with its listeners is created at its start. */
  function CreateScene(sc: Scene, width: real, height: real): Scene {
    if sc.handle.completed then sc
    else sc.(points := GamePathPoints(Center(width, height), 1.0), handle := sc.handle.(hasContainer := true), hasButton := true)
  }

  /** A scheduled recreation running: it leaves the schedule and calls createDragButton. */
  function RecreateScene(sc: Scene, width: real, height: real): Scene
    requires sc.recreations > 0
  {
    CreateScene(sc.(recreations := sc.recreations - 1), width, height)
  }

  /** updateLayout's path part: a live attempt with a path has it laid out again for the new
      centre and scale; the progress is kept. */
  function LayoutScene(sc: Scene, width: real, height: real): Scene {
    if !sc.handle.completed && |sc.points| > 0 then sc.(points := GamePathPoints(Center(width, height), LayoutScale(width, height)))
    else sc
  }

  /** What happens to the scene: the container's drag and pointer events, the pointer released
      anywhere, the failure timer firing, an animation ending, a scheduled recreation running,
      and the canvas being resized. */
  datatype SceneEvent =
    | DragStarted | DraggedTo(s: Sample) | DragEnded
    | PointerPressed | PointerMovedTo(s: Sample) | PointerReleased
    | ReleasedAnywhere
    | FailureTimerFires(id: nat)
    | FailureAnimationEnds | CompletionAnimationEnds
    | RecreationDue(width: real, height: real)
    | Resized(width: real, height: real)

  /** An event's samples are progress values in [0,1], as Observe guarantees. */
  predicate SceneWellFormed(e: SceneEvent) {
    match e
    case DraggedTo(s) => 0.0 <= s.target <= 1.0
    case PointerMovedTo(s) => 0.0 <= s.target <= 1.0
    case _ => true
  }

  /** One event. The container's listeners exist only with the container; the global
      pointer-up listener exists once createDragButton has run; only a live timer fires, only a
      running animation ends, and only a scheduled recreation runs. */
  function SceneStep(sc: Scene, e: SceneEvent): Scene {
    var h := sc.handle;
    match e
    case DragStarted => if h.hasContainer then EngageScene(sc) else sc
    case DraggedTo(s) => if h.hasContainer && h.dragging then MoveScene(sc, s) else sc
    case DragEnded => if h.hasContainer then ReleaseScene(sc) else sc
    case PointerPressed => if h.hasContainer then EngageScene(sc) else sc
    case PointerMovedTo(s) => if h.hasContainer && h.dragging && h.dragStarted then MoveScene(sc, s) else sc
    case PointerReleased => if h.hasContainer then ReleaseScene(sc) else sc
    case ReleasedAnywhere => if sc.hasButton then GlobalReleaseScene(sc) else sc
    case FailureTimerFires(id) => if id in h.live then TimerScene(sc, id) else sc
    case FailureAnimationEnds => if sc.failureTween then FailureAnimationEndsScene(sc) else sc
    case CompletionAnimationEnds => if sc.completionTween then CompletionAnimationEndsScene(sc) else sc
    case RecreationDue(width, height) => if sc.recreations > 0 then RecreateScene(sc, width, height) else sc
    case Resized(width, height) => LayoutScene(sc, width, height)
  }

  function SceneRun(sc: Scene, es: seq<SceneEvent>): Scene
    decreases |es|
  {
    if es == [] then sc else SceneRun(SceneStep(sc, es[0]), es[1..])
  }

  /** The state a reset leaves while the scene waits for its button's recreation. */
  predicate Idle(sc: Scene) {
    var h := sc.handle;
    && !h.completed && !h.dragging && !h.pointerDown && !h.dragStarted && h.progress == 0.0
    && h.timer.None? && h.live == {} && h.reported == [] && !h.hasContainer
    && !sc.failureTween && !sc.completionTween && sc.points == []
  }

  /** The scene invariant:
      - the handle keeps the handle machine's invariant;
      - a container or a held pointer means a button has been assigned;
      - a failed attempt is always being animated, and its animation ends in the only reset;
      - a running completion animation belongs to a completed attempt, which is never reset;
      - at most one recreation is scheduled, and while it is, the scene is idle. */
  predicate SceneInv(sc: Scene) {
    && Inv(sc.handle)
    && (sc.handle.hasContainer || sc.handle.pointerDown ==> sc.hasButton)
    && (sc.handle.reported == [Failed] <==> sc.failureTween)
    && (sc.failureTween ==> !sc.completionTween && sc.recreations == 0)
    && (sc.completionTween ==> sc.handle.reported == [Completed])
    && (sc.handle.reported == [Completed] ==> sc.recreations == 0)
    && sc.recreations <= 1
    && (sc.recreations == 1 ==> Idle(sc))
  }

  lemma StartInv()
    ensures SceneInv(Start)
  {
  }

  /** triggerButtonFailure on a live attempt: with a button, the attempt is over, released and
      without a timer, and its animation runs; without one, the scene is reset at once and a
      recreation scheduled. An attempt already over is left alone. */
  lemma FailSceneOutcome(sc: Scene)
    requires SceneInv(sc)
    ensures sc.handle.completed ==> FailScene(sc) == sc
    ensures !sc.handle.completed && sc.hasButton ==>
              var f := FailScene(sc).handle;
              f.completed && !f.dragging && !f.pointerDown && f.timer.None? && f.live == {}
              && f.reported == [Failed] && FailScene(sc).failureTween
    ensures !sc.handle.completed && !sc.hasButton ==>
              !FailScene(sc).handle.completed && FailScene(sc).recreations == sc.recreations + 1
  {
  }

  /** resetButtonState leaves every flag false, progress 0, no path, no timer and a fresh
      attempt, with one more recreation scheduled. */
  lemma ResetClearsAttempt(sc: Scene)
    requires Inv(sc.handle)
    ensures var r := ResetScene(sc).handle;
      && !r.completed && !r.dragging && !r.pointerDown && !r.dragStarted && r.progress == 0.0
      && r.timer.None? && r.live == {} && r.reported == []
    ensures ResetScene(sc).points == [] && ResetScene(sc).recreations == sc.recreations + 1
  {
  }

  /** Every event keeps the scene invariant. */
  lemma StepPreservesSceneInv(sc: Scene, e: SceneEvent)
    requires SceneInv(sc) && SceneWellFormed(e)
    ensures SceneInv(SceneStep(sc, e))
  {
    HandlersPreserveInv(sc.handle, GameConfig);
    match e
    case DraggedTo(s) =>
      if sc.handle.hasContainer && sc.handle.dragging {
        MoveKeepsSceneInv(sc, s);
      }
    case PointerMovedTo(s) =>
      if sc.handle.hasContainer && sc.handle.dragging && sc.handle.dragStarted {
        MoveKeepsSceneInv(sc, s);
      }
    case _ =>
  }

  /** A move, delivered while the container exists, keeps the scene invariant. */
  lemma MoveKeepsSceneInv(sc: Scene, s: Sample)
    requires SceneInv(sc) && sc.handle.hasContainer && 0.0 <= s.target <= 1.0
    ensures SceneInv(MoveScene(sc, s))
  {
    MoveAgreesWithComponent(sc, s);
    HandlersPreserveInv(sc.handle, GameConfig);
    if !sc.handle.completed {
      assert sc.handle.reported == [] && !sc.failureTween && sc.recreations == 0;
      var r := MoveScene(sc, s).handle.reported;
      assert r == [] || r == [Completed];
    }
  }

  /** Any run of well-formed events keeps the scene invariant. */
  lemma {:induction false} RunPreservesSceneInv(sc: Scene, es: seq<SceneEvent>)
    requires SceneInv(sc)
    requires forall i :: 0 <= i < |es| ==> SceneWellFormed(es[i])
    ensures SceneInv(SceneRun(sc, es))
    decreases |es|
  {
    if es != [] {
      StepPreservesSceneInv(sc, es[0]);
      RunPreservesSceneInv(SceneStep(sc, es[0]), es[1..]);
    }
  }

  /** A completed attempt stays completed whatever happens next: the scene is never reset and
      no button is created again. */
  lemma {:induction false} CompletionIsFinal(sc: Scene, es: seq<SceneEvent>)
    requires SceneInv(sc) && sc.handle.reported == [Completed]
    requires forall i :: 0 <= i < |es| ==> SceneWellFormed(es[i])
    ensures SceneRun(sc, es).handle.reported == [Completed] && SceneRun(sc, es).handle.completed
    ensures SceneRun(sc, es).recreations == 0
    decreases |es|
  {
    if es != [] {
      StepPreservesSceneInv(sc, es[0]);
      CompletionIsFinal(SceneStep(sc, es[0]), es[1..]);
    }
  }

  /** A failed attempt is retried: when its animation ends the scene is reset and idle with
      one recreation scheduled, and when that runs a fresh button stands at the start of a
      freshly laid out path. */
  lemma FailureRestarts(sc: Scene, width: real, height: real)
    requires SceneInv(sc) && sc.handle.reported == [Failed]
    ensures var r := SceneStep(sc, FailureAnimationEnds);
      && Idle(r) && r.recreations == 1
      && var n := SceneStep(r, RecreationDue(width, height));
         && n.handle.hasContainer && !n.handle.completed && n.handle.progress == 0.0
         && n.handle.reported == [] && n.handle.timer.None? && n.recreations == 0
         && n.points == GamePathPoints(Center(width, height), 1.0)
  {
  }

  /** The global pointer-up listener is registered again by every createDragButton; delivering
      the event twice has the effect of delivering it once. */
  lemma GlobalReleaseIdempotent(sc: Scene)
    ensures SceneStep(SceneStep(sc, ReleasedAnywhere), ReleasedAnywhere) == SceneStep(sc, ReleasedAnywhere)
  {
  }

  /** While the container exists, the scene's move is the component's move under the scene's
      constants. */
  lemma MoveAgreesWithComponent(sc: Scene, s: Sample)
    requires SceneInv(sc) && sc.handle.hasContainer
    ensures MoveScene(sc, s).handle == Move(sc.handle, s, GameConfig)
  {
  }

  /** The scene's failure is the component's failure of a handle with a container, and its
      release is the component's release. */
  lemma FailAgreesWithComponent(sc: Scene)
    requires sc.handle.hasContainer && sc.hasButton
    ensures FailScene(sc).handle == TriggerFailure(sc.handle)
    ensures ReleaseScene(sc).handle == Release(sc.handle)
    ensures GlobalReleaseScene(sc).handle == GlobalRelease(sc.handle)
  {
  }

  // ---------------------------------------------------------------------------
  // The scene object
  // ---------------------------------------------------------------------------

  class GameScene {
    const metric: Metric

    var isDragging: bool
    var pathPoints: seq<Point>
    var currentPathIndex: nat
    var dragStarted: bool
    var buttonCompleted: bool
    var pathProgress: real
    var totalPathLength: real
    var pathSegmentLengths: seq<real>
    var pathSegmentStarts: seq<real>
    var isPointerDown: bool
    /** The failureTimeout reference, as the id of the scheduled timer. */
    var failureTimeout: Option<nat>
    /** The id the next scheduled timer receives. */
    var nextTimerId: nat
    /** Whether the draggable container (and with it its listeners) exists. */
    var hasContainer: bool
    /** Whether `dragButton` has been assigned; destroying the container does not unassign it. */
    var hasButton: bool
    /** The running failure animation, whose end resets the scene. */
    var failureTweenRunning: bool
    /** The running completion animation, whose end destroys the button. */
    var completionTweenRunning: bool
    /** The createDragButton calls scheduled by resets and not yet run. */
    var pendingRecreations: nat
    /** Timers scheduled and neither fired nor destroyed. */
    ghost var liveTimers: set<nat>
    /** The outcome of the current attempt. */
    ghost var reported: seq<Outcome>

    ghost function Snapshot(): Scene
      reads this
    {
      Scene(Handle(isDragging, isPointerDown, dragStarted, buttonCompleted, pathProgress, failureTimeout,
                   liveTimers, nextTimerId, hasContainer, reported),
            hasButton, failureTweenRunning, completionTweenRunning, pendingRecreations, pathPoints)
    }

    function Model(): Path
      reads this`pathPoints, this`pathSegmentLengths, this`pathSegmentStarts, this`totalPathLength
    {
      Path(pathPoints, pathSegmentLengths, pathSegmentStarts, totalPathLength)
    }

    /** The path index describes the current points. */
    ghost predicate Indexed()
      reads this`pathPoints, this`pathSegmentLengths, this`pathSegmentStarts, this`totalPathLength
    {
      Model() == ArcIndex(pathPoints, metric)
    }

    ghost predicate Valid()
      reads this
    {
      SceneInv(Snapshot()) && Indexed() && currentPathIndex == 0
    }

    /** A scene before create(): no button, no path, nothing scheduled. */
    constructor (metric: Metric)
      ensures Valid() && Snapshot() == Start && this.metric == metric
    {
      this.metric := metric;
      isDragging := false;
      pathPoints := [];
      currentPathIndex := 0;
      dragStarted := false;
      buttonCompleted := false;
      pathProgress := 0.0;
      totalPathLength := 0.0;
      pathSegmentLengths := [];
      pathSegmentStarts := [];
      isPointerDown := false;
      failureTimeout := None;
      nextTimerId := 0;
      hasContainer := false;
      hasButton := false;
      failureTweenRunning := false;
      completionTweenRunning := false;
      pendingRecreations := 0;
      liveTimers := {};
      reported := [];
    }

    /** create: the button is created, then the layout fitted to the canvas. */
    method Create(width: real, height: real)
      requires Valid() && pendingRecreations == 0
      modifies this
      ensures Valid()
      ensures Snapshot() == LayoutScene(CreateScene(old(Snapshot()), width, height), width, height)
    {
      CreateDragButton(width, height);
      UpdateLayout(width, height);
    }

    /** createDragButton: ignored once the attempt is over; otherwise the unscaled path around
        the centre is laid out and indexed, and the button with its listeners created. Called
        by create() and by a recreation already taken off the schedule. */
    method CreateDragButton(width: real, height: real)
      requires Valid() && pendingRecreations == 0
      modifies this
      ensures Valid()
      ensures Snapshot() == CreateScene(old(Snapshot()), width, height)
    {
      if buttonCompleted {
        return;
      }
      var center := Center(width, height);
      pathPoints := GamePathPoints(center, 1.0);
      CalculatePathLengths();
      hasContainer := true;
      hasButton := true;
    }

    /** calculatePathLengths: the index is rebuilt for the current points. */
    method CalculatePathLengths()
      modifies this
      ensures Indexed()
      ensures Snapshot() == old(Snapshot()) && currentPathIndex == old(currentPathIndex)
    {
      pathSegmentLengths, pathSegmentStarts, totalPathLength := ComputeArcIndex(pathPoints, metric);
    }

    /** getPositionOnPath, the component's scan. */
    method GetPositionOnPath(progress: real) returns (pos: Point)
      requires NoZeroSegments(Model())
      ensures pos == PositionAt(Model(), progress)
    {
      pos := PositionOnPath(Model(), progress);
    }

    /** getProgressFromPosition, the component's 101-sample search. */
    method GetProgressFromPosition(cursor: Point) returns (progress: real)
      requires NoZeroSegments(Model())
      ensures progress == ProgressFromPosition(Model(), metric, cursor)
    {
      progress := NearestProgress(Model(), metric, cursor);
    }

    /** onDragStart, a listener of the container. */
    method OnDragStart()
      requires Valid() && hasContainer
      modifies this
      ensures Valid()
      ensures Snapshot() == SceneStep(old(Snapshot()), DragStarted)
    {
      StepPreservesSceneInv(Snapshot(), DragStarted);
      Engage();
    }

    /** onDrag: moves are followed only while dragging. */
    method OnDrag(cursor: Point)
      requires Valid() && hasContainer && NoZeroSegments(Model())
      modifies this
      ensures Valid()
      ensures Snapshot() == SceneStep(old(Snapshot()), DraggedTo(Observe(old(Model()), metric, cursor)))
    {
      StepPreservesSceneInv(Snapshot(), DraggedTo(Observe(Model(), metric, cursor)));
      if !isDragging {
        return;
      }
      UpdateCirclePosition(cursor);
    }

    /** onDragEnd: the pointer is released; short of the threshold, the attempt fails. */
    method OnDragEnd()
      requires Valid() && hasContainer
      modifies this
      ensures Valid()
      ensures Snapshot() == SceneStep(old(Snapshot()), DragEnded)
    {
      StepPreservesSceneInv(Snapshot(), DragEnded);
      Release();
    }

    /** onPointerDown, a listener of the container. */
    method OnPointerDown()
      requires Valid() && hasContainer
      modifies this
      ensures Valid()
      ensures Snapshot() == SceneStep(old(Snapshot()), PointerPressed)
    {
      StepPreservesSceneInv(Snapshot(), PointerPressed);
      Engage();
    }

    /** onPointerMove: moves are followed only while dragging a started drag. */
    method OnPointerMove(cursor: Point)
      requires Valid() && hasContainer && NoZeroSegments(Model())
      modifies this
      ensures Valid()
      ensures Snapshot() == SceneStep(old(Snapshot()), PointerMovedTo(Observe(old(Model()), metric, cursor)))
    {
      StepPreservesSceneInv(Snapshot(), PointerMovedTo(Observe(Model(), metric, cursor)));
      if !isDragging || !dragStarted {
        return;
      }
      UpdateCirclePosition(cursor);
    }

    /** onPointerUp: the pointer is released; short of the threshold, the attempt fails. */
    method OnPointerUp()
      requires Valid() && hasContainer
      modifies this
      ensures Valid()
      ensures Snapshot() == SceneStep(old(Snapshot()), PointerReleased)
    {
      StepPreservesSceneInv(Snapshot(), PointerReleased);
      Release();
    }

    /** The body onDragStart and onPointerDown share: a new drag from progress 0, the pointer
        held, and any pending timer cleared. */
    method Engage()
      modifies this`isDragging, this`dragStarted, this`pathProgress, this`isPointerDown
      modifies this`failureTimeout, this`liveTimers
      ensures Snapshot() == EngageScene(old(Snapshot()))
    {
      isDragging := true;
      dragStarted := true;
      pathProgress := 0.0;
      isPointerDown := true;
      ClearFailureTimeout();
    }

    /** The body onDragEnd and onPointerUp share: the pointer released, and the attempt failed
        when it is short of the threshold and not over. */
    method Release()
      modifies this
      ensures old(Indexed()) ==> Indexed()
      ensures old(currentPathIndex) == 0 ==> currentPathIndex == 0
      ensures Snapshot() == ReleaseScene(old(Snapshot()))
    {
      isDragging := false;
      isPointerDown := false;
      if !buttonCompleted && pathProgress < CompletionThreshold {
        TriggerButtonFailure();
      }
    }

    /** onGlobalPointerUp, registered by createDragButton: a release anywhere fails a held,
        unfinished attempt. */
    method OnGlobalPointerUp()
      requires Valid() && hasButton
      modifies this
      ensures Valid()
      ensures Snapshot() == SceneStep(old(Snapshot()), ReleasedAnywhere)
    {
      StepPreservesSceneInv(Snapshot(), ReleasedAnywhere);
      if isPointerDown && !buttonCompleted {
        isDragging := false;
        isPointerDown := false;
        TriggerButtonFailure();
      }
    }

    /** updateCirclePosition: the cursor is projected onto the path and the move accepted or
        not, under the scene's constants. */
    method UpdateCirclePosition(cursor: Point)
      requires Indexed() && NoZeroSegments(Model())
      modifies this
      ensures Indexed() && pathPoints == old(pathPoints) && currentPathIndex == old(currentPathIndex)
      ensures Snapshot() == MoveScene(old(Snapshot()), Observe(old(Model()), metric, cursor))
    {
      ghost var s := Observe(Model(), metric, cursor);
      ghost var sc := Snapshot();
      if !hasButton || buttonCompleted {
        return;
      }
      var targetProgress := GetProgressFromPosition(cursor);
      var minAllowedProgress := Max(0.0, pathProgress - GameConfig.maxBackwardMovement);
      var pathPosition := GetPositionOnPath(targetProgress);
      var distanceToPath := metric(cursor, pathPosition);
      assert s == Sample(targetProgress, distanceToPath);
      if targetProgress >= minAllowedProgress && distanceToPath <= GameConfig.tolerance {
        assert Accepts(sc.handle, s, GameConfig);
        Advance(targetProgress);
      } else {
        assert !Accepts(sc.handle, s, GameConfig);
        if failureTimeout.None? && isPointerDown {
          StartFailureTimeout();
        }
      }
    }

    /** The accepted branch of updateCirclePosition: the failure timer cleared, the progress
        moved to `target`, and the button completed once it reaches the threshold. */
    method Advance(target: real)
      modifies this`failureTimeout, this`liveTimers, this`pathProgress
      modifies this`buttonCompleted, this`reported, this`completionTweenRunning
      ensures Snapshot() == var m := old(Snapshot()).(handle := ClearTimer(old(Snapshot()).handle).(progress := target));
                            if target >= CompletionThreshold then CompleteScene(m) else m
    {
      ClearFailureTimeout();
      pathProgress := target;
      if pathProgress >= CompletionThreshold {
        CompleteDragButton();
      }
    }

    /** completeDragButton: the attempt is over and recorded as completed; with a button, the
        completion animation starts. */
    method CompleteDragButton()
      modifies this`buttonCompleted, this`reported, this`completionTweenRunning
      ensures Snapshot() == CompleteScene(old(Snapshot()))
    {
      buttonCompleted := true;
      reported := reported + [Completed];
      if hasButton {
        completionTweenRunning := true;
      }
    }

    /** startFailureTimeout: a fresh timer of 300 ms is scheduled and referenced. */
    method StartFailureTimeout()
      modifies this`failureTimeout, this`liveTimers, this`nextTimerId
      ensures Snapshot() == old(Snapshot()).(handle := StartTimer(old(Snapshot()).handle))
    {
      failureTimeout := Some(nextTimerId);
      liveTimers := liveTimers + {nextTimerId};
      nextTimerId := nextTimerId + 1;
    }

    /** clearFailureTimeout: the referenced timer, if any, is destroyed and the reference dropped. */
    method ClearFailureTimeout()
      modifies this`failureTimeout, this`liveTimers
      ensures Snapshot() == old(Snapshot()).(handle := ClearTimer(old(Snapshot()).handle))
    {
      if failureTimeout.Some? {
        liveTimers := liveTimers - {failureTimeout.value};
        failureTimeout := None;
      }
    }

    /** triggerButtonFailure: ignored once the attempt is over; otherwise the attempt ends and
        the failure animation starts, or without a button the scene is reset at once. */
    method TriggerButtonFailure()
      modifies this
      ensures old(Indexed()) ==> Indexed()
      ensures old(currentPathIndex) == 0 ==> currentPathIndex == 0
      ensures Snapshot() == FailScene(old(Snapshot()))
    {
      if buttonCompleted {
        return;
      }
      EndAttempt();
      if hasButton {
        failureTweenRunning := true;
      } else {
        ResetButtonState();
      }
    }

    /** The first half of triggerButtonFailure: the attempt over, the pointer released, the
        timer cleared and the failure recorded. */
    method EndAttempt()
      modifies this`buttonCompleted, this`isDragging, this`isPointerDown
      modifies this`failureTimeout, this`liveTimers, this`reported
      requires !buttonCompleted
      ensures Snapshot() == old(Snapshot()).(handle := Fail(old(Snapshot()).handle))
    {
      buttonCompleted := true;
      isDragging := false;
      isPointerDown := false;
      ClearFailureTimeout();
      reported := reported + [Failed];
    }

    /** resetButtonState: every flag cleared, progress and path index 0, the path and its index
        emptied, the timer cleared, and createDragButton scheduled after 1000 ms. */
    method ResetButtonState()
      modifies this
      ensures Indexed() && currentPathIndex == 0
      ensures pathSegmentLengths == [] && pathSegmentStarts == [] && totalPathLength == 0.0
      ensures Snapshot() == ResetScene(old(Snapshot()))
    {
      ClearFailureTimeout();
      ClearAttempt();
      ClearPath();
      pendingRecreations := pendingRecreations + 1;
    }

    /** The flags of resetButtonState: a new attempt, not completed, not held, at progress 0. */
    method ClearAttempt()
      modifies this`buttonCompleted, this`isDragging, this`isPointerDown, this`dragStarted
      modifies this`pathProgress, this`reported
      ensures Snapshot() == old(Snapshot()).(handle := old(Snapshot()).handle.(
                              completed := false, dragging := false, pointerDown := false,
                              dragStarted := false, progress := 0.0, reported := []))
    {
      buttonCompleted := false;
      isDragging := false;
      isPointerDown := false;
      dragStarted := false;
      pathProgress := 0.0;
      reported := [];
    }

    /** The path of resetButtonState: no points, an empty index, path index 0. */
    method ClearPath()
      modifies this`currentPathIndex, this`pathPoints, this`pathSegmentLengths
      modifies this`pathSegmentStarts, this`totalPathLength
      ensures Indexed() && currentPathIndex == 0
      ensures pathSegmentLengths == [] && pathSegmentStarts == [] && totalPathLength == 0.0
      ensures Snapshot() == old(Snapshot()).(points := [])
    {
      currentPathIndex := 0;
      pathPoints := [];
      pathSegmentLengths := [];
      pathSegmentStarts := [];
      totalPathLength := 0.0;
    }

    /** The failure timer's callback, for a timer that is still scheduled. */
    method FireFailureTimer(id: nat)
      requires Valid() && id in liveTimers
      modifies this
      ensures Valid()
      ensures Snapshot() == SceneStep(old(Snapshot()), FailureTimerFires(id))
    {
      StepPreservesSceneInv(Snapshot(), FailureTimerFires(id));
      liveTimers := liveTimers - {id};
      TriggerButtonFailure();
    }

    /** The failure animation's onComplete: the button is destroyed and the scene reset. */
    method OnFailureAnimationComplete()
      requires Valid() && failureTweenRunning
      modifies this
      ensures Valid()
      ensures Snapshot() == SceneStep(old(Snapshot()), FailureAnimationEnds)
    {
      StepPreservesSceneInv(Snapshot(), FailureAnimationEnds);
      hasContainer := false;
      failureTweenRunning := false;
      ResetButtonState();
    }

    /** The completion animation's onComplete: the button is destroyed. */
    method OnCompletionAnimationComplete()
      requires Valid() && completionTweenRunning
      modifies this
      ensures Valid()
      ensures Snapshot() == SceneStep(old(Snapshot()), CompletionAnimationEnds)
    {
      StepPreservesSceneInv(Snapshot(), CompletionAnimationEnds);
      hasContainer := false;
      completionTweenRunning := false;
    }

    /** The delayed call resetButtonState scheduled: createDragButton on the canvas's current
        size. */
    method OnRecreateTimer(width: real, height: real)
      requires Valid() && pendingRecreations > 0
      modifies this
      ensures Valid()
      ensures Snapshot() == SceneStep(old(Snapshot()), RecreationDue(width, height))
    {
      pendingRecreations := pendingRecreations - 1;
      CreateDragButton(width, height);
    }

    /** updateLayout's path part: the scale factor is computed, and a live attempt with a path
        has it laid out again and indexed; the progress is kept. */
    method UpdateLayout(width: real, height: real)
      requires Valid()
      modifies this
      ensures Valid()
      ensures Snapshot() == LayoutScene(old(Snapshot()), width, height)
      ensures pathProgress == old(pathProgress)
    {
      StepPreservesSceneInv(Snapshot(), Resized(width, height));
      var scaleFactor := LayoutScale(width, height);
      if !buttonCompleted && |pathPoints| > 0 {
        var center := Center(width, height);
        pathPoints := GamePathPoints(center, scaleFactor);
        CalculatePathLengths();
      }
    }
  }
}
