/** Cursor movement along one axis: the arrow keys move the cursor and scroll the viewport. */
module Viewport {
  import Arith

  /** One coordinate of the cursor together with the same coordinate of the viewport start. */
  datatype Axis = Axis(cursor: int, start: int)

  /** The viewport never starts past the cursor nor before the canvas origin. */
  predicate Ordered(a: Axis) {
    0 <= a.start <= a.cursor
  }

  /** The cursor's block starts on the surface: its screen position lies in [0, extent). */
  predicate InView(a: Axis, scale: int, extent: int) {
    0 <= (a.cursor - a.start) * scale < extent
  }

  /** Left and Up: scroll back when the cursor sits on the viewport's first cell and the
      viewport is not at the origin; then step the cursor back unless it is at 0. */
  function Back(a: Axis): (r: Axis)
    ensures Ordered(a) ==> Ordered(r)
    ensures a.cursor - 1 <= r.cursor <= a.cursor && a.start - 1 <= r.start <= a.start
    ensures r.cursor == a.cursor <==> a.cursor <= 0
    ensures a.cursor >= 0 ==> r.cursor >= 0
    ensures Ordered(a) ==> (r.start < a.start <==> 0 < a.start == a.cursor)
    ensures Ordered(a) ==> r.cursor - r.start == if a.cursor == a.start then 0 else a.cursor - a.start - 1
  {
    var start := if a.cursor - a.start == 0 && a.start > 0 then a.start - 1 else a.start;
    var cursor := if a.cursor > 0 then a.cursor - 1 else a.cursor;
    Axis(cursor, start)
  }

  /** Right as written: step the cursor, then scroll when `(cursor + start) * scale` reaches
      the surface width. The sum (instead of the difference) makes it scroll early. */
  function RightStep(a: Axis, scale: int, width: int): (r: Axis)
    ensures r.cursor == a.cursor + 1
    ensures r.start == a.start || r.start == a.start + 1
    ensures Ordered(a) ==> Ordered(r)
    ensures Ordered(a) && scale >= 1 && InView(a, scale, width) ==> InView(r, scale, width)
  {
    var cursor := a.cursor + 1;
    Axis(cursor, if (cursor + a.start) * scale >= width then a.start + 1 else a.start)
  }

  /** Down as written: like Right, but with a strict comparison against the surface height. */
  function DownStep(a: Axis, scale: int, height: int): (r: Axis)
    ensures r.cursor == a.cursor + 1
    ensures r.start == a.start || r.start == a.start + 1
    ensures Ordered(a) ==> Ordered(r)
  {
    var cursor := a.cursor + 1;
    Axis(cursor, if (cursor + a.start) * scale > height then a.start + 1 else a.start)
  }

  /** The forward step the two handlers evidently intend: scroll exactly when the cursor's
      new screen position `(cursor - start) * scale` reaches the edge. */
  function Forward(a: Axis, scale: int, extent: int): (r: Axis)
    ensures r.cursor == a.cursor + 1
    ensures r.start == a.start || r.start == a.start + 1
    ensures Ordered(a) ==> Ordered(r)
    ensures scale >= 1 && InView(a, scale, extent) ==> InView(r, scale, extent)
    ensures scale >= 1 && InView(a, scale, extent) ==>
      (r.start == a.start <==> InView(Axis(r.cursor, a.start), scale, extent))
  {
    var cursor := a.cursor + 1;
    Axis(cursor, if (cursor - a.start) * scale >= extent then a.start + 1 else a.start)
  }

  /** Left and Up keep a cursor that is in view in view. */
  lemma BackInView(a: Axis, scale: int, extent: int)
    requires Ordered(a) && scale >= 1 && InView(a, scale, extent)
    ensures InView(Back(a), scale, extent)
  {
    var r := Back(a);
    if r.cursor - r.start != a.cursor - a.start {
      assert r.cursor - r.start == a.cursor - a.start - 1;
      Arith.MulMonotone(r.cursor - r.start, a.cursor - a.start, scale);
      Arith.MulMonotone(0, r.cursor - r.start, scale);
    }
  }

  /** Right as written scrolls although the cursor's next position is far from the edge:
      cursor and start at 400, scale 1, width 640. */
  lemma RightScrollsEarly()
    ensures InView(Axis(401, 400), 1, 640)
    ensures RightStep(Axis(400, 400), 1, 640) == Axis(401, 401)
    ensures Forward(Axis(400, 400), 1, 640) == Axis(401, 400)
  {
  }

  /** Down as written lets the cursor leave the view: at row 479 of a 480-row surface with
      scale 1 it moves to screen row 480 without scrolling. */
  lemma DownLeavesView()
    ensures InView(Axis(479, 0), 1, 480)
    ensures DownStep(Axis(479, 0), 1, 480) == Axis(480, 0)
    ensures !InView(DownStep(Axis(479, 0), 1, 480), 1, 480)
    ensures InView(Forward(Axis(479, 0), 1, 480), 1, 480)
  {
  }

  /** While the viewport is at the origin the code as written and the corrected step agree
      for Right, and for Down everywhere except when the cursor's next row lands exactly on
      the surface's height. */
  lemma AgreeAtOrigin(a: Axis, scale: int, extent: int)
    requires a.start == 0
    ensures RightStep(a, scale, extent) == Forward(a, scale, extent)
    ensures DownStep(a, scale, extent) == Forward(a, scale, extent) <==> (a.cursor + 1) * scale != extent
  {
  }
}
