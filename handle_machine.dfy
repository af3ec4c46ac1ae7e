/** The life of one draggable handle as a pure state machine: the flags, the progress, the
    single failure timer and the outcome callbacks of a drag button, with one transition
    function per event handler. DragButton and the Game scene each keep these fields in
    place; their handlers are proved to follow these transitions. */
module HandleMachine {
  import opened Wrappers
  import opened PathGeometry

  /** DragButtonConfig: how far from the path the cursor may stray, how far back the handle may
      be pulled, and how long an off-path excursion may last before it fails (ms). */
  datatype ButtonConfig = ButtonConfig(tolerance: real, maxBackwardMovement: real, failureTimeoutMs: real)

  /** The constructor's default configuration, also the constants the Game scene hard-codes. */
  const DefaultButtonConfig: ButtonConfig := ButtonConfig(60.0, 0.05, 300.0)

  /** Progress at or above which a handle counts as having reached the end of its path. */
  const CompletionThreshold: real := 0.98

  /** Which callback a handle signalled. */
  datatype Outcome = Completed | Failed

  /** One handle. `timer` is the failureTimeout reference (a timer id); `live` holds the ids
      of timers that are scheduled and have neither fired nor been destroyed; `nextTimer`
      supplies fresh ids; `hasContainer` says whether the draggable container exists (its
      listeners exist with it); `reported` lists the callbacks signalled since the handle was
      created or last reset. */
  datatype Handle = Handle(
    dragging: bool,
    pointerDown: bool,
    dragStarted: bool,
    completed: bool,
    progress: real,
    timer: Option<nat>,
    live: set<nat>,
    nextTimer: nat,
    hasContainer: bool,
    reported: seq<Outcome>)

  /** A handle as constructed: idle, no container, no timer, nothing reported. */
  const Initial: Handle := Handle(false, false, false, false, 0.0, None, {}, 0, false, [])

  /** What a cursor position means for the handle: the progress of the path sample nearest to
      it, and its distance to the path point at that progress. */
  datatype Sample = Sample(target: real, distance: real)

  /** The two queries updatePosition makes of the path for a cursor position. */
  function Observe(p: Path, metric: Metric, cursor: Point): (s: Sample)
    requires NoZeroSegments(p)
    ensures 0.0 <= s.target <= 1.0
    ensures s.distance == metric(cursor, PositionAt(p, s.target))
  {
    NearestProgressIsFirstClosestSample(p, metric, cursor);
    var target := ProgressFromPosition(p, metric, cursor);
    Sample(target, metric(cursor, PositionAt(p, target)))
  }

  function TimerSet(t: Option<nat>): set<nat> {
    match t
    case None => {}
    case Some(id) => {id}
  }

  /** clearFailureTimeout: the referenced timer, if any, is destroyed and the reference dropped. */
  function ClearTimer(h: Handle): (r: Handle)
    ensures r.timer.None?
    ensures r.live == h.live - TimerSet(h.timer)
    ensures r == h.(timer := None, live := r.live)
  {
    match h.timer
    case None => h
    case Some(id) => h.(timer := None, live := h.live - {id})
  }

  /** startFailureTimeout: a fresh timer is scheduled and referenced; a timer the reference held
      before is not destroyed. */
  function StartTimer(h: Handle): (r: Handle)
    ensures r.timer == Some(h.nextTimer) && r.nextTimer == h.nextTimer + 1
    ensures r.live == h.live + {h.nextTimer}
  {
    h.(timer := Some(h.nextTimer), live := h.live + {h.nextTimer}, nextTimer := h.nextTimer + 1)
  }

  /** destroy: the timer is cleared and the container with its listeners removed. */
  function Destroy(h: Handle): (r: Handle)
    ensures !r.hasContainer && r.timer.None?
  {
    ClearTimer(h).(hasContainer := false)
  }

  /** triggerCompletion: once only; marks the handle completed, clears the timer and signals
      the completion callback. */
  function TriggerCompletion(h: Handle): Handle {
    if h.completed then h
    else
      var c := ClearTimer(h.(completed := true));
      c.(reported := c.reported + [Completed])
  }

  /** triggerFailure: once only; marks the handle completed, releases it, clears the timer,
      destroys it at once when there is no container to animate, and signals the failure
      callback. */
  function TriggerFailure(h: Handle): Handle {
    if h.completed then h
    else
      var c := ClearTimer(h.(completed := true, dragging := false, pointerDown := false));
      var d := if h.hasContainer then c else Destroy(c);
      d.(reported := d.reported + [Failed])
  }

  /** onDragStart / onPointerDown: a new drag starts at progress 0 and any pending timer is
      cleared, whether or not the handle is completed. */
  function Engage(h: Handle): Handle {
    ClearTimer(h.(dragging := true, dragStarted := true, progress := 0.0, pointerDown := true))
  }

  /** onDragEnd / onPointerUp: the pointer is released; short of the threshold and not yet
      completed, the handle fails. */
  function Release(h: Handle): Handle {
    var r := h.(dragging := false, pointerDown := false);
    if !h.completed && h.progress < CompletionThreshold then TriggerFailure(r) else r
  }

  /** onGlobalPointerUp: a release anywhere fails a held, unfinished handle. */
  function GlobalRelease(h: Handle): Handle {
    if h.pointerDown && !h.completed then TriggerFailure(h.(dragging := false, pointerDown := false))
    else h
  }

  /** The acceptance test of updatePosition: not further back than maxBackwardMovement (and
      not below 0), and within tolerance of the path. */
  predicate Accepts(h: Handle, s: Sample, cfg: ButtonConfig) {
    s.target >= Max(0.0, h.progress - cfg.maxBackwardMovement) && s.distance <= cfg.tolerance
  }

  /** updatePosition: ignored without a container or once completed; an accepted sample clears
      the timer, moves the handle and completes it at the threshold; a rejected one starts the
      failure timer if none is pending and the pointer is down. */
  function Move(h: Handle, s: Sample, cfg: ButtonConfig): Handle {
    if !h.hasContainer || h.completed then h
    else if Accepts(h, s, cfg) then
      var m := ClearTimer(h).(progress := s.target);
      if m.progress >= CompletionThreshold then TriggerCompletion(m) else m
    else if h.timer.None? && h.pointerDown then StartTimer(h)
    else h
  }

  /** A timer firing: only a live timer runs its callback, which fails the handle. */
  function FireTimer(h: Handle, id: nat): Handle {
    if id in h.live then TriggerFailure(h.(live := h.live - {id})) else h
  }

  /** create: a completed handle is left alone; otherwise its container exists afterwards (a
      generated path always has a start point). */
  function Create(h: Handle): Handle {
    if h.completed then h else h.(hasContainer := true)
  }

  /** reset: destroyed, then every flag cleared and progress back to 0; a new life begins. */
  function Reset(h: Handle): Handle {
    Destroy(h).(completed := false, dragging := false, pointerDown := false, dragStarted := false,
                progress := 0.0, reported := [])
  }

  /** The callback signalled by a transition from `before` to `after`, if any. */
  function Fired(before: Handle, after: Handle): Option<Outcome> {
    if |after.reported| > |before.reported| then Some(after.reported[|after.reported| - 1]) else None
  }

  /** The inputs a handle reacts to. Listener events reach it only while its container exists. */
  datatype Event =
    | DragStart | DragMove(s: Sample) | DragEnd
    | PointerDown | PointerMove(s: Sample) | PointerUp
    | GlobalPointerUp
    | TimerFires(id: nat)
    | CreateCalled | DestroyCalled | ResetCalled

  /** An event's samples are progress values in [0,1], as Observe guarantees. */
  predicate WellFormed(e: Event) {
    match e
    case DragMove(s) => 0.0 <= s.target <= 1.0
    case PointerMove(s) => 0.0 <= s.target <= 1.0
    case _ => true
  }

  /** One event: container listeners (drag and pointer events) are attached only while the
      container exists; the global pointer-up listener likewise, being removed by destroy. */
  function Step(h: Handle, e: Event, cfg: ButtonConfig): Handle {
    match e
    case DragStart => if h.hasContainer then Engage(h) else h
    case DragMove(s) => if h.hasContainer && h.dragging then Move(h, s, cfg) else h
    case DragEnd => if h.hasContainer then Release(h) else h
    case PointerDown => if h.hasContainer then Engage(h) else h
    case PointerMove(s) => if h.hasContainer && h.dragging && h.dragStarted then Move(h, s, cfg) else h
    case PointerUp => if h.hasContainer then Release(h) else h
    case GlobalPointerUp => if h.hasContainer then GlobalRelease(h) else h
    case TimerFires(id) => FireTimer(h, id)
    case CreateCalled => Create(h)
    case DestroyCalled => Destroy(h)
    case ResetCalled => Reset(h)
  }

  function Run(h: Handle, es: seq<Event>, cfg: ButtonConfig): Handle
    decreases |es|
  {
    if es == [] then h else Run(Step(h, es[0], cfg), es[1..], cfg)
  }

  /** The handle invariant:
      - at most one timer is pending, and it is the one referenced (no timer leaks);
      - timer ids below nextTimer are the only ones ever issued;
      - a pending timer means the pointer is down on a live, unfinished handle;
      - completed exactly when one callback has been signalled, and never more than one;
      - an unfinished handle is short of the threshold; progress stays in [0,1]. */
  predicate Inv(h: Handle) {
    && h.live == TimerSet(h.timer)
    && (forall id :: id in h.live ==> id < h.nextTimer)
    && (h.timer.Some? ==> h.pointerDown && h.hasContainer && !h.completed)
    && (h.completed <==> |h.reported| == 1)
    && |h.reported| <= 1
    && (!h.completed ==> h.progress < CompletionThreshold)
    && 0.0 <= h.progress <= 1.0
  }

  lemma InitialInv()
    ensures Inv(Initial)
  {
  }

  /** Every handler keeps the invariant (a move given a progress in [0,1]). */
  lemma HandlersPreserveInv(h: Handle, cfg: ButtonConfig)
    requires Inv(h)
    ensures Inv(Engage(h)) && Inv(Release(h)) && Inv(GlobalRelease(h))
    ensures Inv(Create(h)) && Inv(Destroy(h)) && Inv(Reset(h))
    ensures Inv(TriggerCompletion(h)) && Inv(TriggerFailure(h))
    ensures forall id :: Inv(FireTimer(h, id))
    ensures forall s: Sample :: 0.0 <= s.target <= 1.0 ==> Inv(Move(h, s, cfg))
  {
  }

  /** Every event keeps the invariant. */
  lemma StepPreservesInv(h: Handle, e: Event, cfg: ButtonConfig)
    requires Inv(h) && WellFormed(e)
    ensures Inv(Step(h, e, cfg))
  {
    HandlersPreserveInv(h, cfg);
  }

  /** Any run of well-formed events keeps the invariant. */
  lemma {:induction false} RunPreservesInv(h: Handle, es: seq<Event>, cfg: ButtonConfig)
    requires Inv(h)
    requires forall i :: 0 <= i < |es| ==> WellFormed(es[i])
    ensures Inv(Run(h, es, cfg))
    decreases |es|
  {
    if es != [] {
      StepPreservesInv(h, es[0], cfg);
      RunPreservesInv(Step(h, es[0], cfg), es[1..], cfg);
    }
  }

  /** Apart from reset, an event never retracts a signalled callback, never signals a second
      one, never makes a completed handle unfinished, and reports a completion only by
      signalling it. */
  lemma StepKeepsOutcome(h: Handle, e: Event, cfg: ButtonConfig)
    requires Inv(h) && e != ResetCalled
    ensures h.reported <= Step(h, e, cfg).reported
    ensures h.completed ==> Step(h, e, cfg).reported == h.reported && Step(h, e, cfg).completed
    ensures Inv(Step(h, e, cfg)) && Completed !in h.reported && Fired(h, Step(h, e, cfg)) != Some(Completed) ==>
              Completed !in Step(h, e, cfg).reported
  {
  }

  /** Over any run without reset, at most one callback is signalled and a signalled one stays. */
  lemma {:induction false} RunSignalsAtMostOnce(h: Handle, es: seq<Event>, cfg: ButtonConfig)
    requires Inv(h)
    requires forall i :: 0 <= i < |es| ==> WellFormed(es[i]) && es[i] != ResetCalled
    ensures h.reported <= Run(h, es, cfg).reported
    ensures |Run(h, es, cfg).reported| <= 1
    ensures h.completed ==> Run(h, es, cfg).reported == h.reported
    decreases |es|
  {
    if es != [] {
      StepPreservesInv(h, es[0], cfg);
      StepKeepsOutcome(h, es[0], cfg);
      RunSignalsAtMostOnce(Step(h, es[0], cfg), es[1..], cfg);
    }
  }

  /** Releasing an unfinished handle by the drag or pointer event always fails it: the
      failure callback is signalled and no timer is left pending. */
  lemma ReleaseBeforeCompletionFails(h: Handle, e: Event, cfg: ButtonConfig)
    requires Inv(h) && h.hasContainer && !h.completed
    requires e == DragEnd || e == PointerUp
    ensures Fired(h, Step(h, e, cfg)) == Some(Failed)
    ensures Step(h, e, cfg).completed && Step(h, e, cfg).timer.None? && Step(h, e, cfg).live == {}
    ensures !Step(h, e, cfg).dragging && !Step(h, e, cfg).pointerDown
  {
  }

  /** A rejected sample while the pointer is held starts exactly one timer; when it fires, the
      handle fails. */
  lemma OffPathThenTimeoutFails(h: Handle, s: Sample, cfg: ButtonConfig)
    requires Inv(h) && h.hasContainer && !h.completed && h.pointerDown && h.timer.None?
    requires !Accepts(h, s, cfg)
    ensures var h1 := Move(h, s, cfg);
      && h1.timer == Some(h.nextTimer) && h1.live == {h.nextTimer}
      && Fired(h1, FireTimer(h1, h.nextTimer)) == Some(Failed)
      && FireTimer(h1, h.nextTimer).live == {}
  {
  }

  /** A second rejected sample does not schedule a second timer. */
  lemma RepeatedOffPathKeepsOneTimer(h: Handle, s: Sample, cfg: ButtonConfig)
    requires Inv(h) && h.timer.Some?
    requires !Accepts(h, s, cfg)
    ensures Move(h, s, cfg) == h
  {
  }

  /** Returning to the path in time cancels the pending timer: it is destroyed, and should its
      callback still be delivered, it changes nothing. */
  lemma RecoveryCancelsTimer(h: Handle, s: Sample, cfg: ButtonConfig)
    requires Inv(h) && h.timer.Some? && Accepts(h, s, cfg) && s.target < CompletionThreshold
    ensures var h1 := Move(h, s, cfg);
      && h1.timer.None? && h1.live == {} && h1.progress == s.target && !h1.completed
      && FireTimer(h1, h.timer.value) == h1
  {
  }

  /** An accepted sample at or past the threshold completes the handle: the completion callback
      is signalled once and no timer remains. */
  lemma ReachingThresholdCompletes(h: Handle, s: Sample, cfg: ButtonConfig)
    requires Inv(h) && h.hasContainer && !h.completed
    requires Accepts(h, s, cfg) && s.target >= CompletionThreshold
    ensures var h1 := Move(h, s, cfg);
      && Fired(h, h1) == Some(Completed) && h1.completed && h1.timer.None? && h1.live == {}
      && h1.progress == s.target
  {
  }

  /** A move never takes the handle back by more than maxBackwardMovement, and never below 0. */
  lemma MoveBoundsRegression(h: Handle, s: Sample, cfg: ButtonConfig)
    requires Inv(h) && 0.0 <= s.target && cfg.maxBackwardMovement >= 0.0
    ensures Move(h, s, cfg).progress >= h.progress - cfg.maxBackwardMovement
    ensures Move(h, s, cfg).progress >= 0.0
  {
  }

  /** Reset starts a new life: invariant holds, nothing reported, no timer, no container, every
      flag cleared and progress back to 0. */
  lemma ResetStartsOver(h: Handle)
    requires Inv(h)
    ensures var r := Reset(h);
      Inv(r) && r.reported == [] && !r.completed && r.timer.None? && r.live == {} && !r.hasContainer
      && !r.dragging && !r.pointerDown && !r.dragStarted
      && r.progress == 0.0 && r.nextTimer == h.nextTimer
  {
  }

  // ---------------------------------------------------------------------------
  // Engaging a completed handle
  // ---------------------------------------------------------------------------

  /** As written, a drag or pointer press on a completed handle whose container still exists
      restarts its progress at 0 (and raises its flags), although no further move is accepted
      and no callback follows. */
  lemma EngageRestartsCompletedHandle(h: Handle, cfg: ButtonConfig)
    requires Inv(h) && h.completed && h.hasContainer && h.progress > 0.0
    ensures Step(h, DragStart, cfg).completed && Step(h, DragStart, cfg).progress == 0.0
    ensures Step(h, PointerDown, cfg).completed && Step(h, PointerDown, cfg).progress == 0.0
    ensures Step(h, DragStart, cfg).progress != h.progress
  {
  }

  /** The evidently intended press handler: a completed handle ignores it. */
  function GuardedEngage(h: Handle): Handle {
    if h.completed then h else Engage(h)
  }

  /** Step with the guarded press handler; every other event as written. */
  function GuardedStep(h: Handle, e: Event, cfg: ButtonConfig): Handle {
    match e
    case DragStart => if h.hasContainer then GuardedEngage(h) else h
    case PointerDown => if h.hasContainer then GuardedEngage(h) else h
    case _ => Step(h, e, cfg)
  }

  /** With the guard, no event but reset changes a completed handle beyond releasing its
      pointer and dropping its container: its progress, outcome, timer and drag flag stay. */
  lemma GuardedStepKeepsCompletedHandle(h: Handle, e: Event, cfg: ButtonConfig)
    requires Inv(h) && h.completed && e != ResetCalled
    ensures var r := GuardedStep(h, e, cfg);
      && r == h.(dragging := r.dragging, pointerDown := r.pointerDown, hasContainer := r.hasContainer)
      && (r.dragging ==> h.dragging) && (r.pointerDown ==> h.pointerDown) && (r.hasContainer ==> h.hasContainer)
    ensures Inv(GuardedStep(h, e, cfg))
  {
  }
}
