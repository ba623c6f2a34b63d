/**
 * The page's module-level state as one object: the four variables the
 * handlers update in place, and one method per handler. Each method runs
 * the source's statements on the fields and is proved to perform the
 * transition of the same name in capture.dfy; a handler that redraws
 * returns the frame it paints, one that returns early returns `None`.
 */
module Board {
  import opened Wrappers
  import opened Input
  import opened Capture
  import opened Render

  class DrawingCanvas {
    var drawing: bool
    var currentStroke: Option<Stroke>
    var strokes: seq<Stroke>
    var pointerId: Option<SourceId>

    /** The fields as a session value. */
    function Snapshot(): Session
      reads this
    {
      Session(drawing, currentStroke, strokes, pointerId)
    }

    ghost predicate Valid()
      reads this
    {
      Inv(Snapshot())
    }

    /** The state when the page loads. */
    constructor ()
      ensures Valid() && Snapshot() == INITIAL
    {
      drawing := false;
      currentStroke := None;
      strokes := [];
      pointerId := None;
    }

    /** `addPointToStroke`: push the event's position onto the current stroke. */
    method AddPointToStroke(e: Event)
      requires currentStroke.Some?
      modifies this`currentStroke
      ensures currentStroke == Some(AddPoint(old(currentStroke).value, e.pos))
    {
      var st := currentStroke.value;
      currentStroke := Some(st.(points := st.points + [e.pos]));
    }

    /** `startStroke`. */
    method StartStroke(e: Event, style: Style) returns (frame: Option<Frame>)
      requires Valid()
      modifies this
      ensures Valid()
      ensures Snapshot() == Start(old(Snapshot()), e, style)
      ensures frame == if old(drawing) || !IsPrimary(e) then None else Some(Repaint(Snapshot()))
    {
      if drawing {
        return None;
      }
      if e.button.Some? && e.button.value != 0 && !e.hasTouches {
        return None;
      }
      pointerId := Some(e.source);
      drawing := true;
      currentStroke := Some(Stroke(style.color, style.size, [], false));
      AddPointToStroke(e);
      assert [] + [e.pos] == [e.pos];
      frame := Some(Repaint(Snapshot()));
    }

    /** `continueStroke`. */
    method ContinueStroke(e: Event) returns (frame: Option<Frame>)
      requires Valid()
      modifies this
      ensures Valid()
      ensures Snapshot() == Continue(old(Snapshot()), e)
      ensures frame == if Owns(old(Snapshot()), e) then Some(Repaint(Snapshot())) else None
    {
      if !drawing || Some(e.source) != pointerId {
        return None;
      }
      AddPointToStroke(e);
      frame := Some(Repaint(Snapshot()));
    }

    /** `endStroke`: add the final point, commit the stroke and end the session. */
    method EndStroke(e: Event) returns (frame: Option<Frame>)
      requires Valid()
      modifies this
      ensures Valid()
      ensures Snapshot() == End(old(Snapshot()), e)
      ensures frame == if Owns(old(Snapshot()), e) then Some(Repaint(Snapshot())) else None
    {
      if !drawing || Some(e.source) != pointerId {
        return None;
      }
      AddPointToStroke(e);
      strokes := strokes + [currentStroke.value];
      currentStroke := None;
      drawing := false;
      pointerId := None;
      frame := Some(Repaint(Snapshot()));
    }

    /** `cancelStroke`: drop the current stroke without committing it. */
    method CancelStroke() returns (frame: Option<Frame>)
      requires Valid()
      modifies this
      ensures Valid()
      ensures Snapshot() == Cancel(old(Snapshot()))
      ensures frame == if old(drawing) then Some(Repaint(Snapshot())) else None
    {
      if !drawing {
        return None;
      }
      drawing := false;
      currentStroke := None;
      pointerId := None;
      frame := Some(Repaint(Snapshot()));
    }

    /** `completeLastStroke`: close the current stroke, else the last committed one. */
    method CompleteLastStroke() returns (frame: Option<Frame>)
      requires Valid()
      modifies this
      ensures Valid()
      ensures Snapshot() == CompleteLast(old(Snapshot()))
      ensures frame == if CanClose(old(Snapshot())) then Some(Repaint(Snapshot())) else None
    {
      var target := if currentStroke.Some? then currentStroke
                    else if |strokes| > 0 then Some(strokes[|strokes| - 1])
                    else None;
      if target.None? || |target.value.points| < 3 {
        return None;
      }
      var closed := target.value.(closed := true);
      if currentStroke.Some? {
        currentStroke := Some(closed);
      } else {
        strokes := strokes[|strokes| - 1 := closed];
      }
      frame := Some(Repaint(Snapshot()));
    }

    /** `clearCanvas`: empty the list and end any session. */
    method ClearCanvas() returns (frame: Frame)
      requires Valid()
      modifies this
      ensures Valid()
      ensures Snapshot() == Clear(old(Snapshot()))
      ensures frame == Repaint(Snapshot())
    {
      strokes := [];
      currentStroke := None;
      drawing := false;
      pointerId := None;
      frame := Repaint(Snapshot());
    }

    /**
     * `downloadImage`: nothing is produced when there is nothing to export,
     * which is exactly when the redraw paints nothing; otherwise the
     * offscreen render of the whole scene on a white background.
     */
    method DownloadImage() returns (job: Option<ExportJob>)
      requires Valid()
      ensures job.None? <==> NothingToExport(Snapshot())
      ensures job.None? <==> Picture(Snapshot()) == []
      ensures job.Some? ==> job.value == ExportJob(EXPORT_FILE_NAME, EXPORT_BACKGROUND, Picture(Snapshot()))
    {
      ExportGuardMatchesPicture(Snapshot());
      if |strokes| == 0 && currentStroke.None? {
        return None;
      }
      job := Some(ExportJob(EXPORT_FILE_NAME, EXPORT_BACKGROUND, Picture(Snapshot())));
    }
  }

  /** The scenario of one short drag, start (10,10), move (20,10), end (30,10), on the object. */
  method DragScenario(style: Style, id: int)
  {
    var board := new DrawingCanvas();
    var p, q, r := Point(10.0, 10.0), Point(20.0, 10.0), Point(30.0, 10.0);
    var f := board.StartStroke(Event(Some(0), false, Native(id), p), style);
    assert board.currentStroke == Some(Stroke(style.color, style.size, [p], false));
    f := board.ContinueStroke(Event(None, false, Native(id), q));
    assert [p] + [q] == [p, q];
    f := board.EndStroke(Event(Some(0), false, Native(id), r));
    assert [p, q] + [r] == [p, q, r];
    assert board.strokes == [Stroke(style.color, style.size, [p, q, r], false)];
    assert !board.drawing && board.currentStroke.None? && board.pointerId.None?;
  }

  /** Closing a committed three-point stroke takes effect once; a second close changes nothing. */
  method CloseScenario(board: DrawingCanvas, st: Stroke)
    requires board.Valid() && board.currentStroke.None? && board.strokes == [st]
    requires |st.points| == 3 && !st.closed
    modifies board
  {
    var c := board.CompleteLastStroke();
    assert c.Some? && board.strokes == [st.(closed := true)];
    c := board.CompleteLastStroke();
    assert board.strokes == [st.(closed := true)];
  }
}
