/** Rasterisation into a row-major surface: lines, the grid, rectangle fills, the canvas
    blit and the cursor block. */
module Raster {
  import opened Types
  import opened Arith

  /** The destination surface: `w`×`h` pixels, the pixel (x, y) at `pixels[y * w + x]`. */
  class Surface {
    const w: int
    const h: int
    const pixels: array<Uint32>

    ghost predicate Valid() {
      0 <= w && 0 <= h && pixels.Length == w * h
    }

    constructor (width: nat, height: nat)
      ensures Valid() && w == width && h == height && fresh(pixels)
    {
      w := width;
      h := height;
      pixels := new Uint32[width * height](_ => 0);
    }
  }

  // ---------------------------------------------------------------------------------------
  // Runs of pixels

  /** `img` with `color` at the `n` consecutive offsets from `offset`. */
  function HRunImage(img: seq<Uint32>, offset: int, n: int, color: Uint32): (r: seq<Uint32>)
    ensures |r| == |img|
  {
    seq(|img|, k requires 0 <= k < |img| => if offset <= k < offset + n then color else img[k])
  }

  /** `k` is one of the `n` offsets `offset`, `offset + stride`, ... */
  predicate OnRun(k: int, offset: int, n: int, stride: int)
    decreases n
  {
    n > 0 && (k == offset + (n - 1) * stride || OnRun(k, offset, n - 1, stride))
  }

  /** `img` with `color` at the `n` offsets `offset + i * stride`. */
  function VRunImage(img: seq<Uint32>, offset: int, n: int, stride: int, color: Uint32): (r: seq<Uint32>)
    ensures |r| == |img|
  {
    seq(|img|, k requires 0 <= k < |img| => if OnRun(k, offset, n, stride) then color else img[k])
  }

  /** Writing the next offset of a horizontal run extends it by one. */
  lemma HRunExtend(img: seq<Uint32>, offset: int, n: int, color: Uint32)
    requires 0 <= n && 0 <= offset + n < |img|
    ensures HRunImage(img, offset, n, color)[offset + n := color] == HRunImage(img, offset, n + 1, color)
  {
  }

  /** Writing the next offset of a strided run extends it by one. */
  lemma VRunExtend(img: seq<Uint32>, offset: int, n: int, stride: int, color: Uint32)
    requires 0 <= n && 0 <= offset + n * stride < |img|
    ensures VRunImage(img, offset, n, stride, color)[offset + n * stride := color] == VRunImage(img, offset, n + 1, stride, color)
  {
  }

  /** `draw_hline`: `length` pixels from `start` with stride 1. The source does not check
      bounds; the run must lie in the buffer. */
  method DrawHLine(start: Point, length: int, color: Uint32, s: Surface)
    requires s.Valid()
    requires length > 0 ==> 0 <= start.y * s.w + start.x && start.y * s.w + start.x + length <= s.pixels.Length
    modifies s.pixels
    ensures s.pixels[..] == HRunImage(old(s.pixels[..]), start.y * s.w + start.x, length, color)
  {
    var base := start.y * s.w + start.x;
    var offset := base;
    var i := 0;
    while i < length
      invariant 0 <= i && (i <= length || i == 0) && offset == base + i
      invariant s.pixels[..] == HRunImage(old(s.pixels[..]), base, i, color)
    {
      HRunExtend(old(s.pixels[..]), base, i, color);
      s.pixels[offset] := color;
      offset := offset + 1;
      i := i + 1;
    }
    assert s.pixels[..] == HRunImage(old(s.pixels[..]), base, length, color);
  }

  /** `draw_vline`: `length` pixels from `start` with stride `w`, one per row. */
  method DrawVLine(start: Point, length: int, color: Uint32, s: Surface)
    requires s.Valid()
    requires length > 0 ==> 0 <= start.y * s.w + start.x && start.y * s.w + start.x + (length - 1) * s.w < s.pixels.Length
    modifies s.pixels
    ensures s.pixels[..] == VRunImage(old(s.pixels[..]), start.y * s.w + start.x, length, s.w, color)
  {
    var base := start.y * s.w + start.x;
    var offset := base;
    var i := 0;
    while i < length
      invariant 0 <= i && (i <= length || i == 0) && offset == base + i * s.w
      invariant s.pixels[..] == VRunImage(old(s.pixels[..]), base, i, s.w, color)
    {
      MulMonotone(i, length - 1, s.w);
      MulMonotone(0, i, s.w);
      VRunExtend(old(s.pixels[..]), base, i, s.w, color);
      s.pixels[offset] := color;
      offset := offset + s.w;
      assert offset == base + (i + 1) * s.w;
      i := i + 1;
    }
    assert s.pixels[..] == VRunImage(old(s.pixels[..]), base, length, s.w, color);
  }

  /** The offsets of a vertical run down column x of a w-wide buffer are exactly the
      offsets in column x above row n. */
  lemma {:induction false} OnRunColumn(k: int, x: int, n: int, w: int)
    requires 0 <= x < w && 0 <= k && 0 <= n
    ensures OnRun(k, x, n, w) <==> (k % w == x && k / w < n)
    decreases n
  {
    if n > 0 {
      OnRunColumn(k, x, n - 1, w);
      assert k == x + (n - 1) * w <==> (k % w == x && k / w == n - 1) by {
        if k == x + (n - 1) * w {
          DivModUnique(k, w, n - 1, x);
        }
        if k % w == x && k / w == n - 1 {
          DivModSplit(k, w);
        }
      }
    }
  }

  // ---------------------------------------------------------------------------------------
  // The grid

  /** A pixel on the grid of pitch `step`: its column or its row is a multiple of `step`. */
  predicate OnGrid(x: int, y: int, step: int)
    requires step >= 1
  {
    x % step == 0 || y % step == 0
  }

  /** `img` with every grid pixel set to `color`. */
  function GridImage(img: seq<Uint32>, w: int, step: int, color: Uint32): (r: seq<Uint32>)
    requires step >= 1
    ensures |r| == |img|
  {
    if w <= 0 then img else seq(|img|, k requires 0 <= k < |img| => if OnGrid(k % w, k / w, step) then color else img[k])
  }

  /** Pixel k of a w-wide surface is on one of the vertical lines `0, step, ..., (cols - 1) * step`
      or on one of the horizontal lines `0, step, ..., (rows - 1) * step`. */
  predicate DrawnSoFar(k: int, w: int, step: int, cols: int, rows: int)
    requires w >= 1 && step >= 1
  {
    (k % w % step == 0 && k % w / step < cols) || (k / w % step == 0 && k / w / step < rows)
  }

  /** `img` after the first `cols` vertical and the first `rows` horizontal grid lines. */
  function PartialGrid(img: seq<Uint32>, w: int, step: int, cols: int, rows: int, color: Uint32): (r: seq<Uint32>)
    requires step >= 1
    ensures |r| == |img|
  {
    if w <= 0 then img
    else seq(|img|, k requires 0 <= k < |img| => if DrawnSoFar(k, w, step, cols, rows) then color else img[k])
  }

  /** Before any line is drawn nothing has changed. */
  lemma NothingDrawn(img: seq<Uint32>, w: int, step: int, color: Uint32)
    requires step >= 1
    ensures PartialGrid(img, w, step, 0, 0, color) == img
  {
    var a := PartialGrid(img, w, step, 0, 0, color);
    forall k | 0 <= k < |img|
      ensures a[k] == img[k]
    {
      if w > 0 {
        DivNonNegative(k, w);
        DivNonNegative(k % w, step);
        DivNonNegative(k / w, step);
      }
    }
  }

  /** The vertical line through column x fits in a w×h buffer. */
  lemma ColumnFits(x: int, w: int, h: int)
    requires 0 <= x < w && 0 <= h
    ensures h > 0 ==> 0 <= 0 * w + x && 0 * w + x + (h - 1) * w < w * h
  {
    assert (h - 1) * w == h * w - w;
  }

  /** The horizontal line along row y fits in a w×h buffer. */
  lemma RowFits(y: int, w: int, h: int)
    requires 0 <= y < h && 0 <= w
    ensures w > 0 ==> 0 <= y * w + 0 && y * w + 0 + w <= w * h
  {
    MulMonotone(0, y, w);
    MulMonotone(y + 1, h, w);
  }

  /** Drawing the vertical line at column `i * step` adds column i to the partial grid. */
  lemma ColumnStep(img: seq<Uint32>, w: int, h: int, step: int, i: int, rows: int, color: Uint32)
    requires |img| == w * h && step >= 1 && 0 <= i && 0 <= i * step < w && 0 <= h
    ensures VRunImage(PartialGrid(img, w, step, i, rows, color), i * step, h, w, color)
         == PartialGrid(img, w, step, i + 1, rows, color)
  {
    var a := VRunImage(PartialGrid(img, w, step, i, rows, color), i * step, h, w, color);
    var b := PartialGrid(img, w, step, i + 1, rows, color);
    forall k | 0 <= k < |img|
      ensures a[k] == b[k]
    {
      RowMajorDecode(k, w, h);
      OnRunColumn(k, i * step, h, w);
      var x := k % w;
      DivModSplit(x, step);
      if x == i * step {
        DivModUnique(x, step, i, 0);
      }
    }
  }

  /** A column index past the surface adds nothing. */
  lemma ColumnSkip(img: seq<Uint32>, w: int, h: int, step: int, i: int, rows: int, color: Uint32)
    requires |img| == w * h && step >= 1 && 0 <= i && w <= i * step
    ensures PartialGrid(img, w, step, i, rows, color) == PartialGrid(img, w, step, i + 1, rows, color)
  {
    var a := PartialGrid(img, w, step, i, rows, color);
    var b := PartialGrid(img, w, step, i + 1, rows, color);
    forall k | 0 <= k < |img|
      ensures a[k] == b[k]
    {
      if w > 0 {
        RowMajorDecode(k, w, h);
        DivModSplit(k % w, step);
      }
    }
  }

  /** Drawing the horizontal line at row `j * step` adds row j to the partial grid. */
  lemma RowStep(img: seq<Uint32>, w: int, h: int, step: int, cols: int, j: int, color: Uint32)
    requires |img| == w * h && step >= 1 && 0 <= j && 0 <= j * step < h && 0 <= w
    ensures HRunImage(PartialGrid(img, w, step, cols, j, color), j * step * w + 0, w, color)
         == PartialGrid(img, w, step, cols, j + 1, color)
  {
    var a := HRunImage(PartialGrid(img, w, step, cols, j, color), j * step * w + 0, w, color);
    var b := PartialGrid(img, w, step, cols, j + 1, color);
    forall k | 0 <= k < |img|
      ensures a[k] == b[k]
    {
      assert 0 < w;
      RowMajorDecode(k, w, h);
      DivBlock(k, j * step, w);
      var y := k / w;
      DivModSplit(y, step);
      if y == j * step {
        DivModUnique(y, step, j, 0);
      }
    }
  }

  /** A row index past the surface adds nothing. */
  lemma RowSkip(img: seq<Uint32>, w: int, h: int, step: int, cols: int, j: int, color: Uint32)
    requires |img| == w * h && step >= 1 && 0 <= j && h <= j * step
    ensures PartialGrid(img, w, step, cols, j, color) == PartialGrid(img, w, step, cols, j + 1, color)
  {
    var a := PartialGrid(img, w, step, cols, j, color);
    var b := PartialGrid(img, w, step, cols, j + 1, color);
    forall k | 0 <= k < |img|
      ensures a[k] == b[k]
    {
      if w > 0 {
        RowMajorDecode(k, w, h);
        DivModSplit(k / w, step);
      }
    }
  }

  /** Once every column and row index up to the surface size is drawn, the grid is complete. */
  lemma GridDone(img: seq<Uint32>, w: int, h: int, step: int, color: Uint32)
    requires |img| == w * h && step >= 1 && 0 <= w && 0 <= h
    ensures PartialGrid(img, w, step, w / step + 1, h / step + 1, color) == GridImage(img, w, step, color)
  {
    var a := PartialGrid(img, w, step, w / step + 1, h / step + 1, color);
    var b := GridImage(img, w, step, color);
    forall k | 0 <= k < |img|
      ensures a[k] == b[k]
    {
      if w > 0 {
        RowMajorDecode(k, w, h);
        DivMonotone(k % w, w, step);
        DivMonotone(k / w, h, step);
      }
    }
  }

  /** The first loop of `draw_grid`: a vertical line down every `step`-th column. */
  method DrawGridColumns(step: int, color: Uint32, s: Surface)
    requires s.Valid() && step >= 1
    modifies s.pixels
    ensures s.pixels[..] == PartialGrid(old(s.pixels[..]), s.w, step, s.w / step + 1, 0, color)
  {
    ghost var img := s.pixels[..];
    NothingDrawn(img, s.w, step, color);
    var i := 0;
    while i <= s.w / step
      invariant 0 <= i <= s.w / step + 1
      invariant s.pixels[..] == PartialGrid(img, s.w, step, i, 0, color)
    {
      var p := Point(i * step, 0);
      assert 0 <= i * step by { MulMonotone(0, i, step); }
      if i * step < s.w {
        assert s.h > 0 ==> 0 <= p.y * s.w + p.x && p.y * s.w + p.x + (s.h - 1) * s.w < s.pixels.Length by {
          ColumnFits(i * step, s.w, s.h);
        }
        DrawVLine(p, s.h, color, s);
        ColumnStep(img, s.w, s.h, step, i, 0, color);
      } else {
        ColumnSkip(img, s.w, s.h, step, i, 0, color);
      }
      i := i + 1;
    }
  }

  /** The second loop of `draw_grid`: a horizontal line along every `step`-th row, on top of
      the `cols` vertical lines already drawn over `img`. */
  method DrawGridRows(step: int, color: Uint32, s: Surface, ghost img: seq<Uint32>, ghost cols: int)
    requires s.Valid() && step >= 1 && |img| == s.w * s.h
    requires s.pixels[..] == PartialGrid(img, s.w, step, cols, 0, color)
    modifies s.pixels
    ensures s.pixels[..] == PartialGrid(img, s.w, step, cols, s.h / step + 1, color)
  {
    var j := 0;
    while j <= s.h / step
      invariant 0 <= j <= s.h / step + 1
      invariant s.pixels[..] == PartialGrid(img, s.w, step, cols, j, color)
    {
      var p := Point(0, j * step);
      assert 0 <= j * step by { MulMonotone(0, j, step); }
      if j * step < s.h {
        assert s.w > 0 ==> 0 <= p.y * s.w + p.x && p.y * s.w + p.x + s.w <= s.pixels.Length by {
          RowFits(j * step, s.w, s.h);
        }
        DrawHLine(p, s.w, color, s);
        RowStep(img, s.w, s.h, step, cols, j, color);
      } else {
        RowSkip(img, s.w, s.h, step, cols, j, color);
      }
      j := j + 1;
    }
  }

  /** `draw_grid`: a vertical line on every `step`-th column, then a horizontal line on every
      `step`-th row, each across the whole surface. `step` is the workspace scale, at least 1. */
  method DrawGrid(step: int, color: Uint32, s: Surface)
    requires s.Valid() && step >= 1
    modifies s.pixels
    ensures s.pixels[..] == GridImage(old(s.pixels[..]), s.w, step, color)
  {
    ghost var img := s.pixels[..];
    DrawGridColumns(step, color, s);
    DrawGridRows(step, color, s, img, s.w / step + 1);
    GridDone(img, s.w, s.h, step, color);
  }

  /** A pixel (x, y) of the surface after `draw_grid` has the grid colour exactly when x or y
      is a multiple of `step`, and keeps its colour otherwise. */
  lemma GridImageAt(img: seq<Uint32>, w: int, h: int, step: int, color: Uint32, x: int, y: int)
    requires |img| == w * h && step >= 1 && 0 <= x < w && 0 <= y < h
    ensures 0 <= y * w + x < |img|
    ensures GridImage(img, w, step, color)[y * w + x] ==
      if x % step == 0 || y % step == 0 then color else img[y * w + x]
  {
    RowMajor(x, y, w, h);
  }

  // ---------------------------------------------------------------------------------------
  // Rectangle fills, the canvas blit and the cursor

  /** `SDL_Rect`. */
  datatype Rect = Rect(x: int, y: int, w: int, h: int)

  predicate InRect(px: int, py: int, r: Rect) {
    r.x <= px < r.x + r.w && r.y <= py < r.y + r.h
  }

  /** `img` with the part of `r` that lies on the surface set to `color`. */
  function FillImage(img: seq<Uint32>, w: int, r: Rect, color: Uint32): (res: seq<Uint32>)
    ensures |res| == |img|
  {
    if w <= 0 then img else seq(|img|, k requires 0 <= k < |img| => if InRect(k % w, k / w, r) then color else img[k])
  }

  /** `SDL_FillRect`, clipped to the surface. */
  method FillRect(s: Surface, r: Rect, color: Uint32)
    requires s.Valid()
    modifies s.pixels
    ensures s.pixels[..] == FillImage(old(s.pixels[..]), s.w, r, color)
  {
    if s.w > 0 {
      forall k | 0 <= k < s.pixels.Length && InRect(k % s.w, k / s.w, r) {
        s.pixels[k] := color;
      }
    }
  }

  /** The canvas pixel (i, j), stored at `j * width + i`. */
  function CanvasAt(cpix: seq<Uint32>, cw: int, ch: int, i: int, j: int): Uint32
    requires |cpix| == cw * ch && 0 <= i < cw && 0 <= j < ch
  {
    RowMajor(i, j, cw, ch);
    cpix[j * cw + i]
  }

  /** The viewport cell, relative to `start`, that screen pixel k of a w-wide surface lies in. */
  function CellOf(k: int, w: int, scale: int): (c: Point)
    requires 0 <= k && 0 < w && scale >= 1
    ensures 0 <= c.x && 0 <= c.y
  {
    Point(k % w / scale, k / w / scale)
  }

  /** The viewport covers the `w / scale` × `h / scale` cells from `start`, and the canvas
      has a pixel at the cell's canvas coordinates. */
  predicate Blitted(c: Point, w: int, h: int, start: Point, scale: int, cw: int, ch: int)
    requires scale >= 1
  {
    c.x < w / scale && c.y < h / scale && 0 <= start.x + c.x < cw && 0 <= start.y + c.y < ch
  }

  /** The surface after the canvas blit: a screen pixel in a blitted viewport cell shows the
      canvas pixel at `start` plus that cell; every other pixel keeps its colour. */
  function CanvasImage(img: seq<Uint32>, w: int, h: int, start: Point, scale: int,
                       cpix: seq<Uint32>, cw: int, ch: int): (r: seq<Uint32>)
    requires scale >= 1 && |cpix| == cw * ch
    ensures |r| == |img|
  {
    if w <= 0 then img
    else
      seq(|img|, k requires 0 <= k < |img| =>
        var c := CellOf(k, w, scale);
        if Blitted(c, w, h, start, scale, cw, ch) then CanvasAt(cpix, cw, ch, start.x + c.x, start.y + c.y) else img[k])
  }

  /** The blit after the viewport columns before `ci` and the first `cj` cells of column `ci`. */
  function PartialCanvas(img: seq<Uint32>, w: int, h: int, start: Point, scale: int,
                         cpix: seq<Uint32>, cw: int, ch: int, ci: int, cj: int): (r: seq<Uint32>)
    requires scale >= 1 && |cpix| == cw * ch
    ensures |r| == |img|
  {
    if w <= 0 then img
    else
      seq(|img|, k requires 0 <= k < |img| =>
        var c := CellOf(k, w, scale);
        if Blitted(c, w, h, start, scale, cw, ch) && (c.x < ci || (c.x == ci && c.y < cj))
        then CanvasAt(cpix, cw, ch, start.x + c.x, start.y + c.y) else img[k])
  }

  /** The screen block of width `scale` numbered `q` holds exactly the pixels whose
      position divided by `scale` is `q`. */
  lemma BlockOf(k: int, w: int, h: int, scale: int, qx: int, qy: int)
    requires 0 < w && 0 <= k < w * h && scale >= 1
    ensures InRect(k % w, k / w, Rect(qx * scale, qy * scale, scale, scale)) <==> CellOf(k, w, scale) == Point(qx, qy)
  {
    DivBlock(k % w, qx, scale);
    DivBlock(k / w, qy, scale);
  }

  /** Filling the block of cell (ci, cj) with its canvas pixel extends the partial blit. */
  lemma CellStep(img: seq<Uint32>, w: int, h: int, start: Point, scale: int,
                 cpix: seq<Uint32>, cw: int, ch: int, ci: int, cj: int)
    requires scale >= 1 && |cpix| == cw * ch && |img| == w * h
    requires 0 <= ci < w / scale && 0 <= cj < h / scale
    requires 0 <= start.x + ci < cw && 0 <= start.y + cj < ch
    ensures FillImage(PartialCanvas(img, w, h, start, scale, cpix, cw, ch, ci, cj), w,
                      Rect(ci * scale, cj * scale, scale, scale), CanvasAt(cpix, cw, ch, start.x + ci, start.y + cj))
         == PartialCanvas(img, w, h, start, scale, cpix, cw, ch, ci, cj + 1)
  {
    var a := FillImage(PartialCanvas(img, w, h, start, scale, cpix, cw, ch, ci, cj), w,
                       Rect(ci * scale, cj * scale, scale, scale), CanvasAt(cpix, cw, ch, start.x + ci, start.y + cj));
    var b := PartialCanvas(img, w, h, start, scale, cpix, cw, ch, ci, cj + 1);
    forall k | 0 <= k < |img|
      ensures a[k] == b[k]
    {
      BlockOf(k, w, h, scale, ci, cj);
    }
  }

  /** A cell outside the canvas leaves the blit as it is. */
  lemma CellSkip(img: seq<Uint32>, w: int, h: int, start: Point, scale: int,
                 cpix: seq<Uint32>, cw: int, ch: int, ci: int, cj: int)
    requires scale >= 1 && |cpix| == cw * ch
    requires !(0 <= start.x + ci < cw && 0 <= start.y + cj < ch)
    ensures PartialCanvas(img, w, h, start, scale, cpix, cw, ch, ci, cj)
         == PartialCanvas(img, w, h, start, scale, cpix, cw, ch, ci, cj + 1)
  {
    var a := PartialCanvas(img, w, h, start, scale, cpix, cw, ch, ci, cj);
    var b := PartialCanvas(img, w, h, start, scale, cpix, cw, ch, ci, cj + 1);
    forall k | 0 <= k < |img|
      ensures a[k] == b[k]
    {
    }
  }

  /** A finished column of cells is the start of the next column. */
  lemma ColumnDone(img: seq<Uint32>, w: int, h: int, start: Point, scale: int,
                   cpix: seq<Uint32>, cw: int, ch: int, ci: int)
    requires scale >= 1 && |cpix| == cw * ch && 0 <= h
    ensures PartialCanvas(img, w, h, start, scale, cpix, cw, ch, ci, h / scale)
         == PartialCanvas(img, w, h, start, scale, cpix, cw, ch, ci + 1, 0)
  {
    var a := PartialCanvas(img, w, h, start, scale, cpix, cw, ch, ci, h / scale);
    var b := PartialCanvas(img, w, h, start, scale, cpix, cw, ch, ci + 1, 0);
    forall k | 0 <= k < |img|
      ensures a[k] == b[k]
    {
    }
  }

  lemma BlitDone(img: seq<Uint32>, w: int, h: int, start: Point, scale: int,
                 cpix: seq<Uint32>, cw: int, ch: int)
    requires scale >= 1 && |cpix| == cw * ch
    ensures PartialCanvas(img, w, h, start, scale, cpix, cw, ch, w / scale, 0)
         == CanvasImage(img, w, h, start, scale, cpix, cw, ch)
  {
    var a := PartialCanvas(img, w, h, start, scale, cpix, cw, ch, w / scale, 0);
    var b := CanvasImage(img, w, h, start, scale, cpix, cw, ch);
    forall k | 0 <= k < |img|
      ensures a[k] == b[k]
    {
    }
  }

  /** The inner loop of `draw_canvas` for viewport column `i`: every cell (i, j) of the
      column whose canvas coordinates are inside the canvas gets its block filled. */
  method DrawCanvasColumn(i: int, start: Point, scale: int, cpixels: array<Uint32>, cw: int, ch: int,
                          s: Surface, ghost img: seq<Uint32>)
    requires s.Valid() && scale >= 1 && cpixels.Length == cw * ch && cpixels != s.pixels && |img| == s.w * s.h
    requires start.x <= i < start.x + s.w / scale
    requires s.pixels[..] == PartialCanvas(img, s.w, s.h, start, scale, cpixels[..], cw, ch, i - start.x, 0)
    modifies s.pixels
    ensures s.pixels[..] == PartialCanvas(img, s.w, s.h, start, scale, cpixels[..], cw, ch, i - start.x + 1, 0)
  {
    ghost var cpix := cpixels[..];
    ghost var ci := i - start.x;
    var j := start.y;
    while j < start.y + s.h / scale
      invariant start.y <= j <= start.y + s.h / scale
      invariant s.pixels[..] == PartialCanvas(img, s.w, s.h, start, scale, cpix, cw, ch, ci, j - start.y)
    {
      ghost var cj := j - start.y;
      if 0 <= i < cw && 0 <= j < ch {
        RowMajor(i, j, cw, ch);
        var offset := j * cw + i;
        var rect := Rect((i - start.x) * scale, (j - start.y) * scale, scale, scale);
        var color := cpixels[offset];
        assert color == CanvasAt(cpix, cw, ch, start.x + ci, start.y + cj);
        FillRect(s, rect, color);
        CellStep(img, s.w, s.h, start, scale, cpix, cw, ch, ci, cj);
      } else {
        CellSkip(img, s.w, s.h, start, scale, cpix, cw, ch, ci, cj);
      }
      assert s.pixels[..] == PartialCanvas(img, s.w, s.h, start, scale, cpix, cw, ch, ci, cj + 1);
      j := j + 1;
    }
    ColumnDone(img, s.w, s.h, start, scale, cpix, cw, ch, i - start.x);
  }

  /** `draw_canvas`: for every viewport cell (i, j), from `start` over `w / scale` columns and
      `h / scale` rows, whose canvas coordinates are inside the canvas, fill its
      `scale`×`scale` screen block with the canvas pixel at offset `j * width + i`. */
  method DrawCanvas(start: Point, scale: int, cpixels: array<Uint32>, cw: int, ch: int, s: Surface)
    requires s.Valid() && scale >= 1 && cpixels.Length == cw * ch && cpixels != s.pixels
    modifies s.pixels
    ensures s.pixels[..] == CanvasImage(old(s.pixels[..]), s.w, s.h, start, scale, cpixels[..], cw, ch)
  {
    ghost var img := s.pixels[..];
    ghost var cpix := cpixels[..];
    var i := start.x;
    while i < start.x + s.w / scale
      invariant start.x <= i <= start.x + s.w / scale
      invariant s.pixels[..] == PartialCanvas(img, s.w, s.h, start, scale, cpix, cw, ch, i - start.x, 0)
    {
      DrawCanvasColumn(i, start, scale, cpixels, cw, ch, s, img);
      i := i + 1;
    }
    BlitDone(img, s.w, s.h, start, scale, cpix, cw, ch);
  }

  /** The cursor's screen block: `scale`×`scale` at `(cursor - start) * scale`. */
  function CursorRect(cursor: Point, start: Point, scale: int): Rect {
    Rect((cursor.x - start.x) * scale, (cursor.y - start.y) * scale, scale, scale)
  }

  /** `draw_cursor`: fill the cursor's block with the brush colour. */
  method DrawCursor(cursor: Point, start: Point, scale: int, color: Uint32, s: Surface)
    requires s.Valid()
    modifies s.pixels
    ensures s.pixels[..] == FillImage(old(s.pixels[..]), s.w, CursorRect(cursor, start, scale), color)
  {
    FillRect(s, CursorRect(cursor, start, scale), color);
  }

  /** The cursor block covers exactly the screen pixels of the viewport cell
      `cursor - start`: the block the blit fills with the canvas pixel under the cursor. */
  lemma CursorCoversCell(cursor: Point, start: Point, scale: int, w: int, h: int, k: int)
    requires scale >= 1 && 0 < w && 0 <= k < w * h
    ensures InRect(k % w, k / w, CursorRect(cursor, start, scale))
        <==> CellOf(k, w, scale) == Point(cursor.x - start.x, cursor.y - start.y)
  {
    BlockOf(k, w, h, scale, cursor.x - start.x, cursor.y - start.y);
  }

  /** A cursor on one of the viewport's cells has its whole block on the surface. */
  lemma CursorOnSurface(cursor: Point, start: Point, scale: int, w: int, h: int)
    requires scale >= 1 && 0 <= w && 0 <= h
    requires 0 <= cursor.x - start.x < w / scale && 0 <= cursor.y - start.y < h / scale
    ensures var r := CursorRect(cursor, start, scale);
      0 <= r.x && r.x + r.w <= w && 0 <= r.y && r.y + r.h <= h
  {
    MulMonotone(0, cursor.x - start.x, scale);
    MulMonotone(0, cursor.y - start.y, scale);
    MulMonotone(cursor.x - start.x + 1, w / scale, scale);
    MulMonotone(cursor.y - start.y + 1, h / scale, scale);
    DivModSplit(w, scale);
    DivModSplit(h, scale);
  }
}
