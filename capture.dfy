/**
 * The stroke capture state machine as functions on a value of the session
 * state: `drawing`, `currentStroke`, `strokes` and `pointerId`. The class in
 * board.dfy runs the same transitions in place and is proved to agree.
 */
module Capture {
  import opened Wrappers
  import opened Color
  import opened Input

  /** The tool state read when a stroke starts: the colour picker and size slider. */
  datatype Style = Style(color: HexColor, size: real)

  datatype Stroke = Stroke(color: HexColor, size: real, points: seq<Point>, closed: bool)

  datatype Session = Session(
    drawing: bool,
    current: Option<Stroke>,
    strokes: seq<Stroke>,
    pointerId: Option<SourceId>)

  const INITIAL := Session(false, None, [], None)

  /** A stroke may be closed only once it has three points. */
  predicate CloseRule(st: Stroke) {
    st.closed ==> |st.points| >= 3
  }

  /** A committed stroke: the start point and the end point at least. */
  predicate Committed(st: Stroke) {
    |st.points| >= 2 && CloseRule(st)
  }

  /** An in-progress stroke: at least its start point. */
  predicate InProgress(st: Stroke) {
    |st.points| >= 1 && CloseRule(st)
  }

  /** The state every handler keeps. */
  predicate Inv(s: Session) {
    (s.drawing <==> s.current.Some?) &&
    (s.drawing <==> s.pointerId.Some?) &&
    (s.current.Some? ==> InProgress(s.current.value)) &&
    forall i :: 0 <= i < |s.strokes| ==> Committed(s.strokes[i])
  }

  /** `addPointToStroke` on one stroke. */
  function AddPoint(st: Stroke, p: Point): Stroke {
    st.(points := st.points + [p])
  }

  /** The owner check of `continueStroke` and `endStroke`. */
  predicate Owns(s: Session, e: Event) {
    s.drawing && s.pointerId == Some(e.source)
  }

  /** `startStroke`. */
  function Start(s: Session, e: Event, style: Style): (r: Session)
    ensures Inv(s) ==> Inv(r)
    ensures s.drawing || !IsPrimary(e) ==> r == s
    ensures !s.drawing && IsPrimary(e) ==>
      r == Session(true, Some(Stroke(style.color, style.size, [e.pos], false)), s.strokes, Some(e.source))
  {
    if s.drawing then s
    else if !IsPrimary(e) then s
    else
      var blank := Stroke(style.color, style.size, [], false);
      assert [] + [e.pos] == [e.pos];
      Session(true, Some(AddPoint(blank, e.pos)), s.strokes, Some(e.source))
  }

  /** `continueStroke`. */
  function Continue(s: Session, e: Event): (r: Session)
    ensures Inv(s) ==> Inv(r)
    ensures !Owns(s, e) ==> r == s
    ensures Inv(s) && Owns(s, e) ==>
      r.drawing && r.pointerId == s.pointerId && r.strokes == s.strokes &&
      r.current == Some(s.current.value.(points := s.current.value.points + [e.pos]))
  {
    if !s.drawing || Some(e.source) != s.pointerId then s
    else match s.current
      case None => s
      case Some(st) => s.(current := Some(AddPoint(st, e.pos)))
  }

  /** `endStroke`. */
  function End(s: Session, e: Event): (r: Session)
    ensures Inv(s) ==> Inv(r)
    ensures !Owns(s, e) ==> r == s
    ensures Inv(s) && Owns(s, e) ==>
      r == Session(false, None, s.strokes + [s.current.value.(points := s.current.value.points + [e.pos])], None)
  {
    if !s.drawing || Some(e.source) != s.pointerId then s
    else match s.current
      case None => s
      case Some(st) => Session(false, None, s.strokes + [AddPoint(st, e.pos)], None)
  }

  /** `cancelStroke`. */
  function Cancel(s: Session): (r: Session)
    ensures Inv(s) ==> Inv(r)
    ensures !s.drawing ==> r == s
    ensures s.drawing ==> r == Session(false, None, s.strokes, None)
  {
    if !s.drawing then s
    else s.(drawing := false, current := None, pointerId := None)
  }

  /** The stroke `completeLastStroke` targets: the current one, else the last committed one. */
  function Target(s: Session): (t: Option<Stroke>)
    ensures s.current.Some? ==> t == s.current
    ensures s.current.None? && |s.strokes| > 0 ==> t == Some(s.strokes[|s.strokes| - 1])
    ensures s.current.None? && |s.strokes| == 0 ==> t.None?
  {
    if s.current.Some? then s.current
    else if |s.strokes| > 0 then Some(s.strokes[|s.strokes| - 1])
    else None
  }

  predicate CanClose(s: Session) {
    Target(s).Some? && |Target(s).value.points| >= 3
  }

  /** `completeLastStroke`: set the target's closed flag when it has three points. */
  function CompleteLast(s: Session): (r: Session)
    ensures Inv(s) ==> Inv(r)
    ensures !CanClose(s) ==> r == s
    ensures CanClose(s) ==> Target(r) == Some(Target(s).value.(closed := true))
    ensures CanClose(s) && s.current.Some? ==> r == s.(current := Target(r))
    ensures CanClose(s) && s.current.None? ==>
      r == s.(strokes := s.strokes[..|s.strokes| - 1] + [Target(r).value])
  {
    var target := Target(s);
    if target.None? || |target.value.points| < 3 then s
    else
      var closed := target.value.(closed := true);
      if s.current.Some? then s.(current := Some(closed))
      else
        assert s.strokes[|s.strokes| - 1 := closed] == s.strokes[..|s.strokes| - 1] + [closed];
        s.(strokes := s.strokes[|s.strokes| - 1 := closed])
  }

  /** `clearCanvas`. */
  function Clear(s: Session): (r: Session)
    ensures Inv(r)
    ensures r.strokes == [] && r.current.None? && !r.drawing && r.pointerId.None?
  {
    Session(false, None, [], None)
  }

  /** Closing twice is closing once. */
  lemma CompleteLastIdempotent(s: Session)
    ensures CompleteLast(CompleteLast(s)) == CompleteLast(s)
  {
  }

  /**
   * The handlers are attached both to the canvas and to the window for the
   * same end and cancel events; a second delivery changes nothing.
   */
  lemma EndAndCancelIdempotent(s: Session, e: Event)
    requires Inv(s)
    ensures End(End(s, e), e) == End(s, e)
    ensures Cancel(Cancel(s)) == Cancel(s)
  {
  }

  /** A start while a session is open leaves every part of the state alone. */
  lemma SecondStartIgnored(s: Session, e: Event, style: Style)
    requires s.drawing
    ensures Start(s, e, style) == s
  {
  }

  /**
   * Without pointer events, a touch session ignores mouse events and a mouse
   * session ignores touch events: moves and ends from the other family
   * leave the state unchanged.
   */
  lemma ForeignFamilyIgnored(s: Session, m: RawEvent, origin: Point)
    requires Inv(s) && s.drawing
    requires s.pointerId == Some(Touch) <==> !TouchContact(m)
    requires !s.pointerId.value.Native?
    ensures Continue(s, Normalize(false, m, origin)) == s
    ensures End(s, Normalize(false, m, origin)) == s
  {
  }

  /**
   * A touch lifted off the screen is no longer in `touches` but still in
   * `changedTouches`, so its end event owns the touch session it started.
   */
  lemma TouchEndOwnsTouchSession(s: Session, m: RawEvent, origin: Point)
    requires s.drawing && s.pointerId == Some(Touch)
    requires HasContact(m.changedTouches)
    ensures Owns(s, Normalize(false, m, origin))
    ensures Normalize(false, m, origin).pos == PointerPosition(m, origin)
  {
  }

  /** With pointer events an event owns the session exactly when its native id is the recorded one. */
  lemma NativeOwnership(s: Session, e: RawEvent, origin: Point)
    ensures Owns(s, Normalize(true, e, origin)) <==> s.drawing && s.pointerId == Some(Native(e.pointerId))
  {
  }

  /** The positions of the events that come from `src`, in order. */
  function OwnedPositions(evs: seq<Event>, src: SourceId): (ps: seq<Point>)
    ensures |ps| <= |evs|
  {
    if evs == [] then []
    else (if evs[0].source == src then [evs[0].pos] else []) + OwnedPositions(evs[1..], src)
  }

  /** When every event comes from `src`, all their positions are kept, one for one. */
  lemma {:induction false} OwnedPositionsAll(evs: seq<Event>, src: SourceId)
    requires forall i :: 0 <= i < |evs| ==> evs[i].source == src
    ensures |OwnedPositions(evs, src)| == |evs|
    ensures forall i :: 0 <= i < |evs| ==> OwnedPositions(evs, src)[i] == evs[i].pos
  {
    if evs != [] {
      OwnedPositionsAll(evs[1..], src);
    }
  }

  /** A run of move events, delivered in order. */
  function ContinueAll(s: Session, evs: seq<Event>): Session
    decreases |evs|
  {
    if evs == [] then s else ContinueAll(Continue(s, evs[0]), evs[1..])
  }

  /**
   * Moves during an open session append exactly the positions of the moves
   * from the owning source; moves from any other source are ignored.
   */
  lemma {:induction false} ContinueAllAppends(s: Session, evs: seq<Event>)
    requires Inv(s) && s.drawing
    ensures var r := ContinueAll(s, evs);
      Inv(r) && r.drawing && r.pointerId == s.pointerId && r.strokes == s.strokes &&
      r.current == Some(s.current.value.(points := s.current.value.points + OwnedPositions(evs, s.pointerId.value)))
    decreases |evs|
  {
    if evs == [] {
      assert s.current.value.points + OwnedPositions(evs, s.pointerId.value) == s.current.value.points;
    } else {
      var src, st, rest := s.pointerId.value, s.current.value, evs[1..];
      var t := Continue(s, evs[0]);
      var head := OwnedPositions([evs[0]], src);
      ContinueStep(s, evs[0]);
      assert t == s.(current := Some(st.(points := st.points + head)));
      assert ContinueAll(s, evs) == ContinueAll(t, rest);
      OwnedPositionsSplit(evs, src);
      ContinueAllAppends(t, rest);
      assert (st.points + head) + OwnedPositions(rest, src) == st.points + OwnedPositions(evs, src);
    }
  }

  /** One move during a session appends its position exactly when it comes from the owner. */
  lemma ContinueStep(s: Session, e: Event)
    requires Inv(s) && s.drawing
    ensures var st := s.current.value;
      Continue(s, e) == s.(current := Some(st.(points := st.points + OwnedPositions([e], s.pointerId.value))))
  {
    assert [e][1..] == [];
    var extra := OwnedPositions([e], s.pointerId.value);
    assert extra == (if e.source == s.pointerId.value then [e.pos] else []);
    if e.source != s.pointerId.value {
      assert s.current.value.points + extra == s.current.value.points;
    }
  }

  lemma OwnedPositionsSplit(evs: seq<Event>, src: SourceId)
    requires evs != []
    ensures OwnedPositions(evs, src) == OwnedPositions([evs[0]], src) + OwnedPositions(evs[1..], src)
  {
    assert [evs[0]][1..] == [];
    assert OwnedPositions([evs[0]], src) == (if evs[0].source == src then [evs[0].pos] else []) + [];
  }

  /**
   * Start, any moves, and an end from the starting source commit exactly one
   * stroke at the tail: its points are the start position, the owning
   * moves' positions in order, and the end position.
   */
  lemma {:induction false} CommitStroke(s: Session, down: Event, moves: seq<Event>, up: Event, style: Style)
    requires Inv(s) && !s.drawing && IsPrimary(down) && up.source == down.source
    ensures End(ContinueAll(Start(s, down, style), moves), up) ==
      Session(false, None,
        s.strokes + [Stroke(style.color, style.size, [down.pos] + OwnedPositions(moves, down.source) + [up.pos], false)],
        None)
  {
    var t := Start(s, down, style);
    ContinueAllAppends(t, moves);
  }

  /** With k moves all from the starting source, the committed stroke holds k + 2 points in event order. */
  lemma {:induction false} CommitPointCount(s: Session, down: Event, moves: seq<Event>, up: Event, style: Style)
    requires Inv(s) && !s.drawing && IsPrimary(down) && up.source == down.source
    requires forall i :: 0 <= i < |moves| ==> moves[i].source == down.source
    ensures var r := End(ContinueAll(Start(s, down, style), moves), up);
      var n := |s.strokes|;
      |r.strokes| == n + 1 && r.strokes[..n] == s.strokes &&
      |r.strokes[n].points| == |moves| + 2 &&
      r.strokes[n].points[0] == down.pos &&
      (forall i :: 0 <= i < |moves| ==> r.strokes[n].points[i + 1] == moves[i].pos) &&
      r.strokes[n].points[|moves| + 1] == up.pos &&
      !r.strokes[n].closed && r.current.None? && !r.drawing && r.pointerId.None?
  {
    CommitStroke(s, down, moves, up, style);
    OwnedPositionsAll(moves, down.source);
    var r := End(ContinueAll(Start(s, down, style), moves), up);
    var n := |s.strokes|;
    assert r.strokes[..n] == s.strokes;
  }

  /** A click with no drag adds the start point and the end point: two points, not one. */
  lemma ClickCommitsTwoPoints(s: Session, e: Event, style: Style)
    requires Inv(s) && !s.drawing && IsPrimary(e)
    ensures End(Start(s, e, style), e).strokes == s.strokes + [Stroke(style.color, style.size, [e.pos, e.pos], false)]
  {
    assert [e.pos] + [e.pos] == [e.pos, e.pos];
  }

  /** The handlers and commands the page wires up. */
  datatype Action =
    | Down(e: Event, style: Style)
    | Move(e: Event)
    | Up(e: Event)
    | Interrupt
    | Complete
    | ClearAll

  function Step(s: Session, a: Action): Session {
    match a
    case Down(e, style) => Start(s, e, style)
    case Move(e) => Continue(s, e)
    case Up(e) => End(s, e)
    case Interrupt => Cancel(s)
    case Complete => CompleteLast(s)
    case ClearAll => Clear(s)
  }

  function Run(s: Session, acts: seq<Action>): Session
    decreases |acts|
  {
    if acts == [] then s else Run(Step(s, acts[0]), acts[1..])
  }

  /** The invariant holds after every sequence of handler calls. */
  lemma {:induction false} RunKeepsInv(s: Session, acts: seq<Action>)
    requires Inv(s)
    ensures Inv(Run(s, acts))
    decreases |acts|
  {
    if acts != [] {
      RunKeepsInv(Step(s, acts[0]), acts[1..]);
    }
  }

  /**
   * `after` extends `before`: committed strokes are kept in place with the same
   * colour, size and points, and a closed stroke stays closed.
   */
  predicate Extends(before: seq<Stroke>, after: seq<Stroke>) {
    |before| <= |after| &&
    forall i :: 0 <= i < |before| ==>
      after[i].color == before[i].color && after[i].size == before[i].size &&
      after[i].points == before[i].points && (before[i].closed ==> after[i].closed)
  }

  predicate NoClear(acts: seq<Action>) {
    forall i :: 0 <= i < |acts| ==> !acts[i].ClearAll?
  }

  lemma ExtendsTransitive(a: seq<Stroke>, b: seq<Stroke>, c: seq<Stroke>)
    requires Extends(a, b) && Extends(b, c)
    ensures Extends(a, c)
  {
  }

  lemma ExtendsByAppend(a: seq<Stroke>, b: seq<Stroke>)
    ensures Extends(a, a + b)
  {
  }

  lemma ExtendsByClosingLast(a: seq<Stroke>)
    requires |a| > 0
    ensures Extends(a, a[|a| - 1 := a[|a| - 1].(closed := true)])
  {
  }

  lemma ExtendsReflexive(a: seq<Stroke>)
    ensures Extends(a, a)
  {
  }

  lemma EndExtends(s: Session, e: Event)
    ensures Extends(s.strokes, End(s, e).strokes)
  {
    if !s.drawing || Some(e.source) != s.pointerId || s.current.None? {
      assert End(s, e) == s;
      ExtendsReflexive(s.strokes);
    } else {
      assert End(s, e).strokes == s.strokes + [AddPoint(s.current.value, e.pos)];
      ExtendsByAppend(s.strokes, [AddPoint(s.current.value, e.pos)]);
    }
  }

  lemma CompleteLastExtends(s: Session)
    ensures Extends(s.strokes, CompleteLast(s).strokes)
  {
    if CanClose(s) && s.current.None? {
      assert CompleteLast(s).strokes == s.strokes[|s.strokes| - 1 := s.strokes[|s.strokes| - 1].(closed := true)];
      ExtendsByClosingLast(s.strokes);
    } else {
      assert CompleteLast(s).strokes == s.strokes;
      ExtendsReflexive(s.strokes);
    }
  }

  /** Every handler except a clear extends the committed strokes. */
  lemma StepExtends(s: Session, a: Action)
    requires !a.ClearAll?
    ensures Extends(s.strokes, Step(s, a).strokes)
  {
    match a
    case Down(e, style) =>
      assert Start(s, e, style).strokes == s.strokes;
      ExtendsReflexive(s.strokes);
    case Move(e) =>
      assert Continue(s, e).strokes == s.strokes;
      ExtendsReflexive(s.strokes);
    case Up(e) =>
      EndExtends(s, e);
    case Interrupt =>
      assert Cancel(s).strokes == s.strokes;
      ExtendsReflexive(s.strokes);
    case Complete =>
      CompleteLastExtends(s);
  }

  /** Without a clear, no committed stroke is ever removed, reordered or redrawn with other points. */
  lemma {:induction false} RunOnlyAppends(s: Session, acts: seq<Action>)
    requires NoClear(acts)
    ensures Extends(s.strokes, Run(s, acts).strokes)
    decreases |acts|
  {
    if acts != [] {
      var t := Step(s, acts[0]);
      StepExtends(s, acts[0]);
      RunOnlyAppends(t, acts[1..]);
      ExtendsTransitive(s.strokes, t.strokes, Run(s, acts).strokes);
    }
  }
}
