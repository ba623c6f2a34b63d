/**
 * The renderer as a builder of canvas path commands: `drawStroke` for one
 * stroke, `redrawCanvas` for the whole scene, and the empty-state and
 * export predicates that read the same state.
 */
module Render {
  import opened Wrappers
  import opened Color
  import opened Input
  import opened Capture

  /** Opacity of the fill inside a closed stroke. */
  const FILL_ALPHA: real := 0.18

  /**
   * What `drawStroke` asks of the 2D context. `Circle` is the filled dot of a
   * one-point stroke; `StrokePath` strokes the current path with round caps
   * and joins in the given colour and width.
   */
  datatype Command =
    | Circle(center: Point, radius: real, color: HexColor)
    | MoveTo(p: Point)
    | QuadTo(ctrl: Point, end: Point)
    | LineTo(p: Point)
    | ClosePath
    | Fill(rgba: Rgba)
    | StrokePath(color: HexColor, width: real)

  function Mid(a: Point, b: Point): Point {
    Point((a.x + b.x) / 2.0, (a.y + b.y) / 2.0)
  }

  /** The loop of `drawStroke`: for each i >= 1, a quadratic curve anchored at p[i-1] ending at mid(p[i-1], p[i]). */
  function Smooth(pts: seq<Point>): seq<Command>
  {
    if |pts| < 2 then []
    else Smooth(pts[..|pts| - 1]) + [QuadTo(pts[|pts| - 2], Mid(pts[|pts| - 2], pts[|pts| - 1]))]
  }

  lemma {:induction false} SmoothLayout(pts: seq<Point>)
    ensures |Smooth(pts)| == if |pts| < 2 then 0 else |pts| - 1
    ensures forall i :: 0 <= i < |Smooth(pts)| ==> Smooth(pts)[i] == QuadTo(pts[i], Mid(pts[i], pts[i + 1]))
  {
    if |pts| >= 2 {
      var init := pts[..|pts| - 1];
      SmoothLayout(init);
      forall i | 0 <= i < |Smooth(init)|
        ensures Smooth(pts)[i] == QuadTo(pts[i], Mid(pts[i], pts[i + 1]))
      {
        assert Smooth(pts)[i] == Smooth(init)[i];
        assert init[i] == pts[i] && init[i + 1] == pts[i + 1];
      }
    }
  }

  /** `drawStroke(ctx, stroke, stroke.closed)`. */
  function DrawStroke(st: Stroke): seq<Command> {
    var pts := st.points;
    var n := |pts|;
    if n == 0 then []
    else if n == 1 then [Circle(pts[0], st.size / 2.0, st.color)]
    else Head(pts) + Closing(st) + [StrokePath(st.color, st.size)]
  }

  /** The parts of the path of a stroke with at least two points. */
  function Head(pts: seq<Point>): seq<Command>
    requires |pts| >= 2
  {
    [MoveTo(pts[0])] + Smooth(pts) + [LineTo(pts[|pts| - 1])]
  }

  function Closing(st: Stroke): seq<Command>
    requires |st.points| >= 2
  {
    if st.closed && |st.points| > 2 then [LineTo(st.points[0]), ClosePath, Fill(HexToRgba(st.color, FILL_ALPHA))] else []
  }

  /** The head of the path: MoveTo(p0), the n-1 smoothing curves, and a LineTo to the true last point. */
  lemma {:induction false} HeadLayout(pts: seq<Point>)
    requires |pts| >= 2
    ensures var h, n := Head(pts), |pts|;
      |h| == n + 1 && h[0] == MoveTo(pts[0]) && h[n] == LineTo(pts[n - 1]) &&
      forall i :: 1 <= i < n ==> h[i] == QuadTo(pts[i - 1], Mid(pts[i - 1], pts[i]))
  {
    SmoothLayout(pts);
    var h, sm, n := Head(pts), Smooth(pts), |pts|;
    forall i | 1 <= i < n ensures h[i] == QuadTo(pts[i - 1], Mid(pts[i - 1], pts[i])) {
      assert h[i] == sm[i - 1];
    }
  }

  /**
   * The commands of one stroke, by point count: nothing for no point, one
   * dot of radius size/2 for one point, and for n >= 2 a MoveTo, n - 1
   * smoothing curves, a LineTo to the true last point and the outline; the
   * closing segment, ClosePath and the translucent fill come between them
   * when the stroke is closed and has more than two points.
   */
  lemma {:induction false} DrawStrokeLayout(st: Stroke)
    ensures var r, pts, n := DrawStroke(st), st.points, |st.points|;
      (n == 0 <==> r == []) &&
      (n == 1 ==> r == [Circle(pts[0], st.size / 2.0, st.color)]) &&
      (n >= 2 ==>
        |r| == (if st.closed && n > 2 then n + 5 else n + 2) &&
        r[0] == MoveTo(pts[0]) &&
        (forall i :: 1 <= i < n ==> r[i] == QuadTo(pts[i - 1], Mid(pts[i - 1], pts[i]))) &&
        r[n] == LineTo(pts[n - 1]) &&
        r[|r| - 1] == StrokePath(st.color, st.size)) &&
      (st.closed && n > 2 ==>
        r[n + 1] == LineTo(pts[0]) && r[n + 2] == ClosePath && r[n + 3] == Fill(HexToRgba(st.color, FILL_ALPHA)))
  {
    var r, pts, n := DrawStroke(st), st.points, |st.points|;
    if n >= 2 {
      HeadLayout(pts);
      var h := Head(pts);
      assert r == h + Closing(st) + [StrokePath(st.color, st.size)];
      assert forall i :: 0 <= i <= n ==> r[i] == h[i];
    }
  }

  /** Without the close rule met (closed, more than two points) a stroke's commands hold no ClosePath and no Fill. */
  lemma {:induction false} OpenStrokeHasNoFill(st: Stroke)
    requires !st.closed || |st.points| <= 2
    ensures forall i :: 0 <= i < |DrawStroke(st)| ==> !DrawStroke(st)[i].ClosePath? && !DrawStroke(st)[i].Fill?
  {
    var r, pts, n := DrawStroke(st), st.points, |st.points|;
    if n >= 2 {
      HeadLayout(pts);
      var h := Head(pts);
      assert r == h + [StrokePath(st.color, st.size)];
      forall i | 0 <= i < |r| ensures !r[i].ClosePath? && !r[i].Fill? {
        if i == 0 || i == n {
          assert r[i] == h[i];
        } else if i < n {
          assert r[i] == h[i] == QuadTo(pts[i - 1], Mid(pts[i - 1], pts[i]));
        } else {
          assert r[i] == StrokePath(st.color, st.size);
        }
      }
    }
  }

  /** The commands of each element of `xs` in turn. */
  function ConcatMap<T>(f: T -> seq<Command>, xs: seq<T>): seq<Command>
    decreases |xs|
  {
    if xs == [] then [] else f(xs[0]) + ConcatMap(f, xs[1..])
  }

  lemma {:induction false} ConcatMapAppend<T>(f: T -> seq<Command>, a: seq<T>, b: seq<T>)
    ensures ConcatMap(f, a + b) == ConcatMap(f, a) + ConcatMap(f, b)
    decreases |a|
  {
    if a == [] {
      assert a + b == b;
    } else {
      assert (a + b)[0] == a[0] && (a + b)[1..] == a[1..] + b;
      ConcatMapAppend(f, a[1..], b);
    }
  }

  lemma {:induction false} ConcatMapEmpty<T>(f: T -> seq<Command>, xs: seq<T>)
    ensures ConcatMap(f, xs) == [] <==> forall i :: 0 <= i < |xs| ==> f(xs[i]) == []
    decreases |xs|
  {
    if xs != [] {
      ConcatMapEmpty(f, xs[1..]);
      assert forall i :: 1 <= i < |xs| ==> xs[i] == xs[1..][i - 1];
    }
  }

  /** The `forEach` of `redrawCanvas`: every committed stroke, in list order. */
  function DrawAll(strokes: seq<Stroke>): seq<Command> {
    ConcatMap(DrawStroke, strokes)
  }

  /** Drawing a concatenation draws the first part, then the second. */
  lemma DrawAllAppend(a: seq<Stroke>, b: seq<Stroke>)
    ensures DrawAll(a + b) == DrawAll(a) + DrawAll(b)
  {
    ConcatMapAppend(DrawStroke, a, b);
  }

  /** A scene draws nothing exactly when none of its strokes has a point. */
  lemma DrawAllEmpty(strokes: seq<Stroke>)
    ensures DrawAll(strokes) == [] <==> forall i :: 0 <= i < |strokes| ==> strokes[i].points == []
  {
    ConcatMapEmpty(DrawStroke, strokes);
    forall i | 0 <= i < |strokes| ensures DrawStroke(strokes[i]) == [] <==> strokes[i].points == [] {
      DrawStrokeEmpty(strokes[i]);
    }
  }

  lemma DrawStrokeEmpty(st: Stroke)
    ensures DrawStroke(st) == [] <==> st.points == []
  {
  }

  /** `redrawCanvas`: committed strokes first, the in-progress stroke on top. */
  function Picture(s: Session): seq<Command> {
    DrawAll(s.strokes) + (if s.current.Some? then DrawStroke(s.current.value) else [])
  }

  lemma DrawAllSingle(st: Stroke)
    ensures DrawAll([st]) == DrawStroke(st)
  {
    assert [st][1..] == [];
    assert ConcatMap(DrawStroke, [st]) == DrawStroke(st) + ConcatMap(DrawStroke, []);
  }

  /** In the list's commands, stroke i's come whole right after those of strokes 0..i-1. */
  lemma DrawAllAt(strokes: seq<Stroke>, i: nat)
    requires i < |strokes|
    ensures var off, cmds := |DrawAll(strokes[..i])|, DrawStroke(strokes[i]);
      off + |cmds| <= |DrawAll(strokes)| && DrawAll(strokes)[off..off + |cmds|] == cmds
  {
    var a, b := strokes[..i], strokes[i + 1..];
    assert strokes == a + ([strokes[i]] + b);
    DrawAllAppend(a, [strokes[i]] + b);
    DrawAllAppend([strokes[i]], b);
    DrawAllSingle(strokes[i]);
  }

  /** Stroke i of the list is painted, whole, right after strokes 0..i-1. */
  lemma PictureOrder(s: Session, i: nat)
    requires i < |s.strokes|
    ensures var off, cmds := |DrawAll(s.strokes[..i])|, DrawStroke(s.strokes[i]);
      off + |cmds| <= |Picture(s)| && Picture(s)[off..off + |cmds|] == cmds
  {
    DrawAllAt(s.strokes, i);
  }

  /** The in-progress stroke is painted last, on top of everything committed. */
  lemma PictureEndsWithCurrent(s: Session)
    requires s.current.Some?
    ensures var cmds := DrawStroke(s.current.value);
      |cmds| <= |Picture(s)| && Picture(s)[|Picture(s)| - |cmds|..] == cmds
  {
  }

  /** Committing the current stroke onto the list leaves the picture as it was. */
  lemma CommitKeepsPicture(strokes: seq<Stroke>, st: Stroke)
    ensures Picture(Session(false, None, strokes + [st], None)) == Picture(Session(true, Some(st), strokes, None))
  {
    DrawAllAppend(strokes, [st]);
    DrawAllSingle(st);
  }

  /** Lifting the pointer draws the same frame as one more move to the same place. */
  lemma EndDrawsLikeMove(s: Session, e: Event)
    requires Inv(s) && Owns(s, e)
    ensures Picture(End(s, e)) == Picture(Continue(s, e))
  {
    var st := s.current.value.(points := s.current.value.points + [e.pos]);
    CommitKeepsPicture(s.strokes, st);
  }

  /** The condition under which `toggleEmptyState` hides the placeholder. */
  predicate EmptyStateHidden(s: Session) {
    |s.strokes| > 0 || (s.current.Some? && |s.current.value.points| > 0)
  }

  /** The guard at the top of `downloadImage`. */
  predicate NothingToExport(s: Session) {
    |s.strokes| == 0 && s.current.None?
  }

  /** The placeholder is hidden exactly when the redraw paints something. */
  lemma {:induction false} EmptyStateMatchesPicture(s: Session)
    requires Inv(s)
    ensures EmptyStateHidden(s) <==> Picture(s) != []
  {
    DrawAllEmpty(s.strokes);
    if |s.strokes| > 0 {
      assert |s.strokes[0].points| >= 2;
    }
    if s.current.Some? {
      DrawStrokeLayout(s.current.value);
    }
  }

  /** Export is skipped exactly when the placeholder shows, and exactly when nothing would be painted. */
  lemma {:induction false} ExportGuardMatchesPicture(s: Session)
    requires Inv(s)
    ensures NothingToExport(s) <==> !EmptyStateHidden(s)
    ensures NothingToExport(s) <==> Picture(s) == []
  {
    EmptyStateMatchesPicture(s);
  }

  /** A frame of `redrawCanvas`: the path commands and the placeholder's hidden flag. */
  datatype Frame = Frame(commands: seq<Command>, emptyStateHidden: bool)

  function Repaint(s: Session): Frame {
    Frame(Picture(s), EmptyStateHidden(s))
  }

  /** In every frame the placeholder is hidden exactly when the frame paints something. */
  lemma RepaintFlagMatchesCommands(s: Session)
    requires Inv(s)
    ensures Repaint(s).emptyStateHidden <==> Repaint(s).commands != []
  {
    EmptyStateMatchesPicture(s);
  }

  const EXPORT_FILE_NAME := "creative-canvas.png"
  const EXPORT_BACKGROUND := "#ffffff"

  /** The offscreen render `downloadImage` encodes: a white background under the same picture. */
  datatype ExportJob = ExportJob(fileName: string, background: string, commands: seq<Command>)
}
