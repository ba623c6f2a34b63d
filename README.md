# Freehand drawing canvas: stroke capture and path building

A Dafny model of the core of a browser drawing page (`script.js`). The page
records strokes from one pointer at a time, smooths each stroke's samples into
a curve made of quadratic segments, fills strokes that are closed with a
translucent copy of their colour, and redraws the whole scene after every
change. The model covers:

- **Capture** (`capture.dfy`, `board.dfy`). The state is `drawing`,
  `currentStroke`, `strokes` and `pointerId`. The handlers are `startStroke`,
  `continueStroke`, `endStroke`, `cancelStroke`, `completeLastStroke` and
  `clearCanvas`. `capture.dfy` gives each handler as a function on a
  `Session` value and proves what runs of them do. `board.dfy` holds class
  `DrawingCanvas`, which keeps the four variables as fields. Its methods run
  the handlers' statements in place and are proved to perform exactly the
  `capture.dfy` transitions. Each method also returns the frame it repaints,
  or `None` when the handler returns before redrawing.
- **Event normalisation** (`input.dfy`). `getEventPointerId` picks a native
  pointer id, or `Touch` or `Mouse`. `pointerPosition` picks the first touch,
  else the first changed touch, else the client point, relative to the
  canvas's top-left corner. The handlers take the normalised `Event`: the
  optional button, whether a touches field exists, the source identity and
  the position.
- **Path building** (`render.dfy`). `drawStroke` becomes a function from a
  stroke to a sequence of canvas path commands. `redrawCanvas` becomes the
  concatenation over the committed strokes, then the current stroke. The
  module also has the empty-placeholder predicate of `toggleEmptyState` and
  the "nothing to export" guard of `downloadImage`.
- **Colour** (`color.dfy`). `hexToRgba`: drop the first `#`, double the
  digits of a 3-digit shorthand, read base 16, and extract bytes with `>>`
  and `& 255`. The model writes out the ECMAScript 32-bit conversion that
  those operators apply.

The tool style (colour picker value, size slider value) and the canvas's
bounding-box origin are parameters. Coordinates and sizes are reals.

A click with no drag commits a stroke of two equal points: both
`startStroke` (script.js:97) and `endStroke` (script.js:191) add the pointer
position. Such a stroke is drawn as a degenerate path, not as the one-point
dot (`Capture.ClickCommitsTwoPoints`). The one-point dot branch is reached
only for the in-progress stroke between press and release.

## Model

| member | source | states |
|---|---|---|
| `Color.FirstHash` | script.js:273 | the index of the first `#`, or the length when there is none; no `#` comes before it |
| `Color.StripHash` | script.js:273 | `replace('#', '')` removes exactly one character when a `#` is present, and nothing otherwise |
| `Color.StripHashRemovesFirstHash` | script.js:273 | when a `#` is present, the result is the input with its first `#` (the one at the lowest index) cut out |
| `Color.StripLeadingHash` | script.js:273 | a colour written `#` followed by digits strips to exactly those digits |
| `Color.DoubleEach` | script.js:275-278 | the result is twice as long, and character i is input character i/2: each character followed by a copy of itself |
| `Color.Expand` | script.js:274-279 | a 3-digit string becomes six characters, character i being digit i/2; every other length is unchanged |
| `Color.HexValue` | script.js:281 | the base-16 value of n digits is below 16^n |
| `Color.HexToRgba` | script.js:272-286 | each channel lies in 0..255 and is byte 2, 1 or 0 of the parsed value; alpha is passed through |
| `Color.ByteOfNat` | script.js:282-284 | `(v >> 8k) & 255` on the ToInt32 conversion equals byte k of the non-negative value v |
| `Color.SixDigitChannels` | script.js:281-284 | for `#rrggbb`, each channel is the byte its two digits spell |
| `Color.ShortChannels` | script.js:274-284 | for `#rgb`, each channel is its digit times 0x11 |
| `Color.ShortFormEqualsLongForm` | script.js:274-279 | `#abc` and `#aabbcc` give the same rgba |
| `Input.IdentitySeparatesFamilies` | script.js:61-71 | with pointer events two events have the same identity exactly when their pointer ids are equal; without, exactly when both or neither carry a non-empty touches or changed-touches list |
| `Input.IdentityMatchesPosition` | script.js:42-71 | without pointer events, a `Mouse` identity means the position comes from the client point, and a `Touch` identity means it comes from the first touch or first changed touch |
| `Input.PositionIsTranslationInvariant` | script.js:55-58 | shifting the canvas and the event by the same offset leaves the position unchanged |
| `Capture.Start` | script.js:73-99 | ignored while drawing or for a non-primary button without touches; otherwise sets drawing, records the source and creates a one-point open stroke in the tool style, with strokes unchanged; keeps the invariant |
| `Capture.Continue` | script.js:169-180 | ignored unless drawing and the source owns the session; otherwise appends the position to the current stroke and nothing else changes; keeps the invariant |
| `Capture.End` | script.js:182-200 | ignored unless drawing and the source owns the session; otherwise appends the final point and pushes the stroke at the tail, and drawing, current stroke and pointer id are cleared; keeps the invariant |
| `Capture.Cancel` | script.js:202-217 | a no-op when idle; otherwise discards the current stroke, keeps strokes and clears the session |
| `Capture.CompleteLast` | script.js:219-228 | with no target or fewer than 3 points nothing changes; otherwise only the target's closed flag is set and every other part of the state is unchanged |
| `Capture.Clear` | script.js:230-236 | from any state: no strokes, no current stroke, not drawing, no pointer id |
| `Capture.CompleteLastIdempotent` | script.js:219-228 | closing twice gives the same state as closing once |
| `Capture.EndAndCancelIdempotent` | script.js:296-301 | the repeated delivery of an end or cancel event (canvas and window listeners) changes nothing more |
| `Capture.SecondStartIgnored` | script.js:75-77 | a start while a session is open leaves the whole state unchanged |
| `Capture.NativeOwnership` | script.js:61-64 | with pointer events, a raw event owns the session exactly when a session is open and its pointer id is the recorded one |
| `Capture.ForeignFamilyIgnored` | script.js:61-71 | without pointer events, a move or release from the other family (a touch event during a mouse session, or a mouse event during a touch session) leaves the state unchanged |
| `Capture.TouchEndOwnsTouchSession` | script.js:50-53 | without pointer events, an event with a non-empty changed-touches list owns an open touch session even when its touches list is empty, as on a touch release |
| `Capture.ContinueStep` | script.js:174-178 | an owned move appends its position to the current stroke; any other move changes nothing |
| `Capture.OwnedPositions` | script.js:174-178 | moves from the owning source contribute at most one position each |
| `Capture.OwnedPositionsAll` | script.js:174-178 | when every move comes from the owner, every position is kept in order |
| `Capture.ContinueAllAppends` | script.js:169-180 | any run of moves during a session appends exactly the owning moves' positions, in order, and ignores all others |
| `Capture.CommitStroke` | script.js:73-200 | start, any moves and a matching end append exactly one open stroke at the tail: start point, owned move points, end point; the session is then idle |
| `Capture.CommitPointCount` | script.js:97-198 | with k owned moves the committed stroke has exactly k+2 points in event order, and earlier strokes are unchanged |
| `Capture.ClickCommitsTwoPoints` | script.js:97-192 | a press and release with no move commits a stroke of two equal points |
| `Capture.RunKeepsInv` | script.js:73-236 | after any sequence of handler calls: drawing exactly when a current stroke and a pointer id exist, and every committed stroke has at least 2 points with closed implying at least 3 |
| `Capture.StepExtends` | script.js:182-228 | every handler but clear keeps committed strokes in place with their colour, size and points, and never reopens a closed one |
| `Capture.RunOnlyAppends` | script.js:73-228 | without a clear, no committed stroke is ever removed, reordered or changed apart from being closed |
| `Render.SmoothLayout` | script.js:128-137 | the curve loop emits n-1 quadratic segments: segment i is anchored at p[i] and ends at mid(p[i], p[i+1]) |
| `Render.HeadLayout` | script.js:125-140 | the path opens with MoveTo(p0), has the n-1 smoothing curves, and ends with a LineTo to the true last point |
| `Render.DrawStrokeLayout` | script.js:106-150 | no points: no commands; one point: one dot of radius size/2; n >= 2: MoveTo(p0), the n-1 curves, LineTo(p[n-1]) and the outline last; a closed stroke with more than 2 points also gets LineTo(p0), ClosePath and the 0.18-alpha fill before the outline |
| `Render.OpenStrokeHasNoFill` | script.js:142-147 | a stroke that is open, or has at most 2 points, produces no ClosePath and no Fill |
| `Render.DrawStrokeEmpty` | script.js:108-110 | a stroke draws nothing exactly when it has no points |
| `Render.ConcatMapAppend` | script.js:155 | drawing element by element distributes over concatenation |
| `Render.ConcatMapEmpty` | script.js:155 | drawing element by element yields nothing exactly when every element yields nothing |
| `Render.DrawAllAppend` | script.js:155 | drawing a concatenation of stroke lists draws the first list, then the second |
| `Render.DrawAllSingle` | script.js:155 | a one-stroke list draws that stroke's commands |
| `Render.DrawAllEmpty` | script.js:106-155 | a stroke list draws nothing exactly when none of its strokes has a point |
| `Render.DrawAllAt` | script.js:155 | stroke i's commands appear whole, right after those of strokes 0..i-1 |
| `Render.PictureOrder` | script.js:152-159 | in the redraw, committed stroke i is painted whole after strokes 0..i-1 |
| `Render.PictureEndsWithCurrent` | script.js:157-159 | the in-progress stroke is painted last |
| `Render.CommitKeepsPicture` | script.js:155-158 | moving the current stroke onto the tail of the list leaves the redraw unchanged |
| `Render.EndDrawsLikeMove` | script.js:178-199 | the frame after a release equals the frame a move to the same place would give |
| `Render.EmptyStateMatchesPicture` | script.js:164-167 | the placeholder is hidden exactly when the redraw paints something |
| `Render.ExportGuardMatchesPicture` | script.js:239-242 | export is skipped exactly when the placeholder shows, and exactly when the redraw paints nothing |
| `Render.RepaintFlagMatchesCommands` | script.js:152-167 | a repainted frame's placeholder is hidden exactly when the frame has commands |
| `Board.DrawingCanvas.constructor` | script.js:11-14 | the page starts idle with no strokes |
| `Board.DrawingCanvas.AddPointToStroke` | script.js:101-104 | pushes the event's position onto the current stroke and changes no other field |
| `Board.DrawingCanvas.StartStroke` | script.js:73-99 | performs `Capture.Start` in place; repaints unless it returned early |
| `Board.DrawingCanvas.ContinueStroke` | script.js:169-180 | performs `Capture.Continue` in place; repaints exactly when the event's source owns the session |
| `Board.DrawingCanvas.EndStroke` | script.js:182-200 | performs `Capture.End` in place; repaints exactly when the event's source owns the session |
| `Board.DrawingCanvas.CancelStroke` | script.js:202-217 | performs `Capture.Cancel` in place; repaints exactly when a session was open |
| `Board.DrawingCanvas.CompleteLastStroke` | script.js:219-228 | performs `Capture.CompleteLast` in place; repaints exactly when a stroke was closed |
| `Board.DrawingCanvas.ClearCanvas` | script.js:230-236 | performs `Capture.Clear` in place and repaints |
| `Board.DrawingCanvas.DownloadImage` | script.js:238-264 | produces nothing exactly when there are no strokes and no current stroke, which is exactly when the redraw is empty; otherwise `creative-canvas.png` with the same picture on white |

## Left out

- Browser plumbing is not modelled: `preventDefault`, `setPointerCapture`/`releasePointerCapture`, `classList` toggling, `animateButton` and its timer, and the listener wiring (script.js:288-319). `Capture.Action` lists the handlers the wiring calls, and the lemmas about runs cover any order of them.
- `resizeCanvas`, `getCanvasSize` and `clearCanvasVisual` (script.js:17-40) are not modelled: device-pixel-ratio arithmetic and DOM geometry that touch no stroke state. The export bitmap's dimensions and transform (script.js:244-251) are left out for the same reason.
- Rasterisation and encoding are not modelled: arcs and curves are path commands, not pixels; `toDataURL('image/png')` and the link click are not modelled; `beginPath`, `lineCap` and `lineJoin` are folded into the commands. The rgba output is a record, not the formatted `rgba(...)` string.
- Color.HexToRgba: it is defined only for colours whose digits after the first `#` are hex digits, at most 13 of them, through the `HexColor` type. `parseInt`'s prefix parsing, NaN, whitespace, sign and `0x` handling are not modelled, and neither is the double rounding above 2^53. The page's colour picker always yields `#rrggbb`.
- Input.EventPointerId: an event's `pointerId` is modelled as always present; with pointer events every event the handlers receive is a pointer event.
- Input.PointerPosition: the canvas origin is a parameter, because `getBoundingClientRect` is a DOM query.
- Strokes are values, not shared objects. In the source, no stroke object is reachable from two places once a handler returns (`endStroke` pushes the object and then drops `currentStroke`), so the in-place `push` and `closed = true` are modelled as field reassignments.
- Coordinates, sizes and the midpoint are exact reals. Floating-point rounding and `Number(sizeSlider.value)` parsing are not modelled. Colour and size values are inputs to `startStroke`.
- Assets/Scripts/FPS_ALLINONE_FULL.cs is not part of this model: Unity game glue with no stroke logic.
