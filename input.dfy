/**
 * Normalisation of raw mouse, touch and pointer events into the one event
 * shape the capture state machine consumes: a source identity and a
 * canvas-local position.
 */
module Input {
  import opened Wrappers

  /** A position in CSS pixels. */
  datatype Point = Point(x: real, y: real)

  /** Which input source an event comes from (`getEventPointerId`'s result). */
  datatype SourceId = Native(id: int) | Touch | Mouse

  /**
   * The fields of a browser event that the core reads. `touches` and
   * `changedTouches` are `None` when the event has no such field (mouse and
   * pointer events) and `Some(list)` on a touch event, where the list may be
   * empty; `button` is `None` on a touch event.
   */
  datatype RawEvent = RawEvent(
    button: Option<int>,
    touches: Option<seq<Point>>,
    changedTouches: Option<seq<Point>>,
    pointerId: int,
    client: Point)

  /** The normalised event: what the capture handlers need of a raw event. */
  datatype Event = Event(button: Option<int>, hasTouches: bool, source: SourceId, pos: Point)

  /** `list && list.length > 0` */
  predicate HasContact(list: Option<seq<Point>>) {
    list.Some? && |list.value| > 0
  }

  /**
   * `getEventPointerId`: the native id where the browser has pointer events,
   * otherwise one constant identity for touch and one for mouse.
   */
  function EventPointerId(supportsPointerEvents: bool, e: RawEvent): (id: SourceId)
    ensures supportsPointerEvents ==> id == Native(e.pointerId)
    ensures !supportsPointerEvents ==> !id.Native?
    ensures !supportsPointerEvents ==> (id == Touch <==> HasContact(e.touches) || HasContact(e.changedTouches))
  {
    if supportsPointerEvents then Native(e.pointerId)
    else if HasContact(e.touches) || HasContact(e.changedTouches) then Touch
    else Mouse
  }

  /** The client coordinates `pointerPosition` reads: first touch, else first changed touch, else the event's own. */
  function ClientPoint(e: RawEvent): Point {
    if HasContact(e.touches) then e.touches.value[0]
    else if HasContact(e.changedTouches) then e.changedTouches.value[0]
    else e.client
  }

  /**
   * `pointerPosition`: the client point relative to the canvas's bounding
   * box, whose top-left corner is `origin`.
   */
  function PointerPosition(e: RawEvent, origin: Point): (p: Point)
    ensures p.x + origin.x == ClientPoint(e).x && p.y + origin.y == ClientPoint(e).y
  {
    Point(ClientPoint(e).x - origin.x, ClientPoint(e).y - origin.y)
  }

  /** Identity and position agree on the event family when pointer events are missing. */
  lemma IdentityMatchesPosition(e: RawEvent, origin: Point)
    ensures EventPointerId(false, e) == Mouse ==>
      PointerPosition(e, origin) == Point(e.client.x - origin.x, e.client.y - origin.y)
    ensures EventPointerId(false, e) == Touch ==>
      (HasContact(e.touches) && PointerPosition(e, origin) == Point(e.touches.value[0].x - origin.x, e.touches.value[0].y - origin.y)) ||
      (!HasContact(e.touches) && HasContact(e.changedTouches) &&
       PointerPosition(e, origin) == Point(e.changedTouches.value[0].x - origin.x, e.changedTouches.value[0].y - origin.y))
  {
  }

  /** A touch event in the sense of `getEventPointerId`: some touch list has a contact. */
  predicate TouchContact(e: RawEvent) {
    HasContact(e.touches) || HasContact(e.changedTouches)
  }

  /**
   * The identity separates exactly what it is meant to: with pointer events,
   * two events share an identity exactly when their native ids agree; without,
   * exactly when both or neither is a touch with a contact, so concurrent
   * touches share one identity.
   */
  lemma IdentitySeparatesFamilies(a: RawEvent, b: RawEvent)
    ensures EventPointerId(true, a) == EventPointerId(true, b) <==> a.pointerId == b.pointerId
    ensures EventPointerId(false, a) == EventPointerId(false, b) <==> (TouchContact(a) <==> TouchContact(b))
  {
  }

  /** Moving the canvas and every coordinate of the event by the same offset leaves the position alone. */
  lemma PositionIsTranslationInvariant(e: RawEvent, origin: Point, dx: real, dy: real)
    ensures PointerPosition(Shift(e, dx, dy), Point(origin.x + dx, origin.y + dy)) == PointerPosition(e, origin)
  {
  }

  function ShiftPoint(p: Point, dx: real, dy: real): Point {
    Point(p.x + dx, p.y + dy)
  }

  function ShiftList(list: Option<seq<Point>>, dx: real, dy: real): (r: Option<seq<Point>>)
    ensures r.Some? == list.Some?
    ensures r.Some? ==> |r.value| == |list.value|
    ensures r.Some? ==> forall i :: 0 <= i < |list.value| ==> r.value[i] == ShiftPoint(list.value[i], dx, dy)
  {
    match list
    case None => None
    case Some(ps) => Some(seq(|ps|, i requires 0 <= i < |ps| => ShiftPoint(ps[i], dx, dy)))
  }

  /** The same event seen from a viewport scrolled by (dx, dy). */
  function Shift(e: RawEvent, dx: real, dy: real): RawEvent {
    e.(touches := ShiftList(e.touches, dx, dy),
       changedTouches := ShiftList(e.changedTouches, dx, dy),
       client := ShiftPoint(e.client, dx, dy))
  }

  /**
   * The start guard `event.button !== undefined && event.button !== 0 &&
   * !event.touches`: a non-primary mouse button is refused unless the event
   * has a touches field.
   */
  predicate IsPrimary(e: Event) {
    !(e.button.Some? && e.button.value != 0 && !e.hasTouches)
  }

  /** The handler's view of a raw event. */
  function Normalize(supportsPointerEvents: bool, e: RawEvent, origin: Point): (n: Event)
    ensures n.hasTouches <==> e.touches.Some?
  {
    Event(e.button, e.touches.Some?, EventPointerId(supportsPointerEvents, e), PointerPosition(e, origin))
  }
}
