/** A drag button: a handle dragged along the path its PathManager holds. Its state fields
    are updated in place by the input handlers; each handler is proved to make exactly the
    transition the handle machine prescribes, and to keep the machine's invariant. The
    completion and failure callbacks are the `fired` result of the handler that signals them. */
module DragButtonModel {
  import opened Wrappers
  import opened PathGeometry
  import opened PathManagerModel
  import opened HandleMachine

  class DragButton {
    const pathManager: PathManager
    const config: ButtonConfig

    var isDragging: bool
    var isPointerDown: bool
    var dragStarted: bool
    var isCompleted: bool
    var pathProgress: real
    /** The failureTimeout reference, as the id of the scheduled timer. */
    var failureTimeout: Option<nat>
    /** The id the next scheduled timer receives. */
    var nextTimerId: nat
    /** Whether the container (and with it every listener) exists. */
    var hasContainer: bool
    /** Timers scheduled and neither fired nor destroyed. */
    ghost var liveTimers: set<nat>
    /** Callbacks signalled since construction or the last reset. */
    ghost var reported: seq<Outcome>

    /** The fields as one handle of the machine. */
    ghost function Snapshot(): Handle
      reads this
    {
      Handle(isDragging, isPointerDown, dragStarted, isCompleted, pathProgress, failureTimeout,
             liveTimers, nextTimerId, hasContainer, reported)
    }

    ghost predicate Valid()
      reads this, pathManager
    {
      pathManager.Valid() && Inv(Snapshot())
    }

    /** A new button: idle, not created, nothing reported. */
    constructor (pathManager: PathManager, config: ButtonConfig)
      requires pathManager.Valid()
      ensures this.pathManager == pathManager && this.config == config
      ensures Snapshot() == Initial
      ensures Valid()
    {
      this.pathManager := pathManager;
      this.config := config;
      isDragging := false;
      isPointerDown := false;
      dragStarted := false;
      isCompleted := false;
      pathProgress := 0.0;
      failureTimeout := None;
      nextTimerId := 0;
      hasContainer := false;
      liveTimers := {};
      reported := [];
    }

    /** create: unless completed, the path is generated and the container (at the start point)
        with its listeners comes into existence. */
    method Create(center: Point, scaleFactor: real, pathConfig: Option<PathConfig>)
      requires Valid()
      modifies this, pathManager
      ensures Valid()
      ensures Snapshot() == HandleMachine.Create(old(Snapshot()))
      ensures old(isCompleted) ==> unchanged(pathManager)
      ensures !old(isCompleted) ==>
        pathManager.pathPoints == GeneratedPoints(center, scaleFactor, pathConfig.GetOr(DefaultPathConfig), pathManager.trig)
    {
      if isCompleted {
        return;
      }
      pathManager.CreatePath(center, scaleFactor, pathConfig);
      var startPoint := pathManager.GetStartPoint();
      if startPoint.Some? {
        hasContainer := true;
      }
      HandlersPreserveInv(old(Snapshot()), config);
    }

    /** clearFailureTimeout. */
    method ClearFailureTimeout()
      modifies this
      ensures Snapshot() == ClearTimer(old(Snapshot()))
    {
      if failureTimeout.Some? {
        liveTimers := liveTimers - {failureTimeout.value};
        failureTimeout := None;
      }
    }

    /** startFailureTimeout: a fresh timer of failureTimeoutMs is scheduled. */
    method StartFailureTimeout()
      modifies this
      ensures Snapshot() == StartTimer(old(Snapshot()))
    {
      failureTimeout := Some(nextTimerId);
      liveTimers := liveTimers + {nextTimerId};
      nextTimerId := nextTimerId + 1;
    }

    /** triggerCompletion. */
    method TriggerCompletion() returns (fired: Option<Outcome>)
      modifies this
      ensures Snapshot() == HandleMachine.TriggerCompletion(old(Snapshot()))
      ensures fired == Fired(old(Snapshot()), Snapshot())
    {
      if isCompleted {
        return None;
      }
      isCompleted := true;
      ClearFailureTimeout();
      reported := reported + [Completed];
      fired := Some(Completed);
    }

    /** triggerFailure: without a container to animate, the button is destroyed at once. */
    method TriggerFailure() returns (fired: Option<Outcome>)
      modifies this
      ensures Snapshot() == HandleMachine.TriggerFailure(old(Snapshot()))
      ensures fired == Fired(old(Snapshot()), Snapshot())
    {
      if isCompleted {
        return None;
      }
      isCompleted := true;
      isDragging := false;
      isPointerDown := false;
      ClearFailureTimeout();
      if !hasContainer {
        Destroy();
      }
      reported := reported + [Failed];
      fired := Some(Failed);
    }

    /** onDragStart and onPointerDown (identical in the source). */
    method OnDragStart()
      requires Valid()
      modifies this
      ensures Valid()
      ensures Snapshot() == Engage(old(Snapshot()))
    {
      isDragging := true;
      dragStarted := true;
      pathProgress := 0.0;
      isPointerDown := true;
      ClearFailureTimeout();
      HandlersPreserveInv(old(Snapshot()), config);
    }

    /** onDragEnd and onPointerUp (identical in the source). */
    method OnDragEnd() returns (fired: Option<Outcome>)
      requires Valid()
      modifies this
      ensures Valid()
      ensures Snapshot() == Release(old(Snapshot()))
      ensures fired == Fired(old(Snapshot()), Snapshot())
    {
      isDragging := false;
      isPointerDown := false;
      fired := None;
      if !isCompleted && pathProgress < CompletionThreshold {
        fired := TriggerFailure();
      }
      HandlersPreserveInv(old(Snapshot()), config);
    }

    /** onGlobalPointerUp. */
    method OnGlobalPointerUp() returns (fired: Option<Outcome>)
      requires Valid()
      modifies this
      ensures Valid()
      ensures Snapshot() == GlobalRelease(old(Snapshot()))
      ensures fired == Fired(old(Snapshot()), Snapshot())
    {
      fired := None;
      if isPointerDown && !isCompleted {
        isDragging := false;
        isPointerDown := false;
        fired := TriggerFailure();
      }
      HandlersPreserveInv(old(Snapshot()), config);
    }

    /** The accepted branch of updatePosition: the failure timer cleared, the progress moved
        to `target`, and the handle completed once it reaches the threshold. */
    method Advance(target: real) returns (fired: Option<Outcome>)
      modifies this
      ensures Snapshot() == var m := ClearTimer(old(Snapshot())).(progress := target);
                            if m.progress >= CompletionThreshold then HandleMachine.TriggerCompletion(m) else m
      ensures fired == Fired(old(Snapshot()), Snapshot())
    {
      ClearFailureTimeout();
      pathProgress := target;
      fired := None;
      if pathProgress >= CompletionThreshold {
        fired := TriggerCompletion();
      }
    }

    /** updatePosition: the cursor is projected onto the path and the move accepted or not. */
    method UpdatePosition(cursor: Point) returns (fired: Option<Outcome>)
      requires Valid() && NoZeroSegments(pathManager.Model())
      modifies this
      ensures Valid()
      ensures Snapshot() == Move(old(Snapshot()), Observe(pathManager.Model(), pathManager.metric, cursor), config)
      ensures fired == Fired(old(Snapshot()), Snapshot())
    {
      ghost var s := Observe(pathManager.Model(), pathManager.metric, cursor);
      ghost var h := Snapshot();
      HandlersPreserveInv(h, config);
      if !hasContainer || isCompleted {
        return None;
      }
      var targetProgress := pathManager.GetProgressFromPosition(cursor);
      var minAllowedProgress := Max(0.0, pathProgress - config.maxBackwardMovement);
      var pathPosition := pathManager.GetPositionOnPath(targetProgress);
      var distanceToPath := pathManager.metric(cursor, pathPosition);
      assert s == Sample(targetProgress, distanceToPath);
      fired := None;
      if targetProgress >= minAllowedProgress && distanceToPath <= config.tolerance {
        assert Accepts(h, s, config);
        fired := Advance(targetProgress);
      } else {
        assert !Accepts(h, s, config);
        if failureTimeout.None? && isPointerDown {
          StartFailureTimeout();
        }
      }
    }

    /** onDrag: moves are followed only while dragging. */
    method OnDrag(cursor: Point) returns (fired: Option<Outcome>)
      requires Valid() && NoZeroSegments(pathManager.Model())
      modifies this
      ensures Valid()
      ensures Snapshot() == Step(old(Snapshot()), DragMove(Observe(pathManager.Model(), pathManager.metric, cursor)), config)
      ensures fired == Fired(old(Snapshot()), Snapshot())
    {
      fired := None;
      if isDragging {
        fired := UpdatePosition(cursor);
      }
    }

    /** onPointerMove: moves are followed only while dragging a started drag. */
    method OnPointerMove(cursor: Point) returns (fired: Option<Outcome>)
      requires Valid() && NoZeroSegments(pathManager.Model())
      modifies this
      ensures Valid()
      ensures Snapshot() == Step(old(Snapshot()), PointerMove(Observe(pathManager.Model(), pathManager.metric, cursor)), config)
      ensures fired == Fired(old(Snapshot()), Snapshot())
    {
      fired := None;
      if isDragging && dragStarted {
        fired := UpdatePosition(cursor);
      }
    }

    /** The failure timer's callback, delivered by the scene clock for a timer that is still
        scheduled. */
    method FireFailureTimer(id: nat) returns (fired: Option<Outcome>)
      requires Valid() && id in liveTimers
      modifies this
      ensures Valid()
      ensures Snapshot() == FireTimer(old(Snapshot()), id)
      ensures fired == Fired(old(Snapshot()), Snapshot())
    {
      HandlersPreserveInv(Snapshot(), config);
      liveTimers := liveTimers - {id};
      fired := TriggerFailure();
    }

    /** updateLayout: unless completed, the path is regenerated for the new centre and scale;
        the progress along it is kept. */
    method UpdateLayout(center: Point, scaleFactor: real, pathConfig: Option<PathConfig>)
      requires Valid()
      modifies pathManager
      ensures Valid()
      ensures old(isCompleted) ==> unchanged(pathManager)
      ensures !old(isCompleted) ==>
        pathManager.pathPoints == GeneratedPoints(center, scaleFactor, pathConfig.GetOr(DefaultPathConfig), pathManager.trig)
    {
      if isCompleted {
        return;
      }
      pathManager.CreatePath(center, scaleFactor, pathConfig);
    }

    /** destroy: the timer is cleared and the container with its listeners removed. */
    method Destroy()
      modifies this
      ensures Snapshot() == HandleMachine.Destroy(old(Snapshot()))
    {
      ClearFailureTimeout();
      hasContainer := false;
    }

    /** reset: destroyed, then back to the idle state of a new button. */
    method Reset()
      requires Valid()
      modifies this
      ensures Valid()
      ensures Snapshot() == HandleMachine.Reset(old(Snapshot()))
    {
      Destroy();
      isCompleted := false;
      isDragging := false;
      isPointerDown := false;
      dragStarted := false;
      pathProgress := 0.0;
      reported := [];
      HandlersPreserveInv(old(Snapshot()), config);
    }

    /** isButtonCompleted: completed exactly when a callback has been signalled. */
    function IsButtonCompleted(): (b: bool)
      reads this
      ensures Valid() ==> (b <==> |reported| == 1)
    {
      isCompleted
    }
  }
}
