/** The frame `draw` composes: the background, then the active canvas, then the grid, then
    the cursor block, each layer drawn over the ones before it. */
module Frames {
  import opened Types
  import opened Arith
  import opened Raster
  import opened Editor
  import Canvases

  /** A w×h surface holding one colour everywhere. */
  function Cleared(w: nat, h: nat, color: Uint32): (r: seq<Uint32>)
    ensures |r| == w * h
  {
    seq(w * h, _ => color)
  }

  /** Filling the whole surface (`SDL_FillRect` with no rectangle) forgets what was there. */
  lemma FillAll(img: seq<Uint32>, w: nat, h: nat, color: Uint32)
    requires |img| == w * h
    ensures FillImage(img, w, Rect(0, 0, w, h), color) == Cleared(w, h, color)
  {
    if w > 0 {
      forall k | 0 <= k < |img|
        ensures FillImage(img, w, Rect(0, 0, w, h), color)[k] == color
      {
        RowMajorDecode(k, w, h);
      }
    }
  }

  /** The surface after `draw` for workspace `st`, whose active canvas holds `cpix`; `mapRgb`
      stands for `SDL_MapRGB` on the surface's pixel format. */
  function Frame(st: State, cpix: seq<Uint32>, w: nat, h: nat, mapRgb: Rgb -> Uint32): (r: seq<Uint32>)
    requires st.scale >= 1 && |cpix| == Canvases.CanvasSide * Canvases.CanvasSide
    ensures |r| == w * h
  {
    var blit := CanvasImage(Cleared(w, h, mapRgb(Background)), w, h, st.start, st.scale, cpix,
                            Canvases.CanvasSide, Canvases.CanvasSide);
    var grid := if st.showGrid then GridImage(blit, w, st.scale, mapRgb(White)) else blit;
    FillImage(grid, w, CursorRect(st.cursor, st.start, st.scale), mapRgb(st.color))
  }

  /** What the screen pixel (x, y) shows: the brush colour inside the cursor block; else white
      on a grid line when the grid is shown; else, inside a viewport cell that maps into the
      canvas, that canvas pixel; else the background. */
  lemma {:induction false} FrameAt(st: State, cpix: seq<Uint32>, w: nat, h: nat, mapRgb: Rgb -> Uint32, x: int, y: int)
    requires st.scale >= 1 && |cpix| == Canvases.CanvasSide * Canvases.CanvasSide
    requires 0 <= x < w && 0 <= y < h
    ensures 0 <= y * w + x < w * h
    ensures Frame(st, cpix, w, h, mapRgb)[y * w + x] ==
      if InRect(x, y, CursorRect(st.cursor, st.start, st.scale)) then mapRgb(st.color)
      else if st.showGrid && (x % st.scale == 0 || y % st.scale == 0) then mapRgb(White)
      else if Blitted(Point(x / st.scale, y / st.scale), w, h, st.start, st.scale, Canvases.CanvasSide, Canvases.CanvasSide)
      then CanvasAt(cpix, Canvases.CanvasSide, Canvases.CanvasSide, st.start.x + x / st.scale, st.start.y + y / st.scale)
      else mapRgb(Background)
  {
    RowMajor(x, y, w, h);
    DivNonNegative(x, st.scale);
    DivNonNegative(y, st.scale);
    var k := y * w + x;
    assert CellOf(k, w, st.scale) == Point(x / st.scale, y / st.scale);
  }
}
