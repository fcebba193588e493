/** Where Space and N write in the active canvas's pixel buffer. */
module Painting {
  import opened Types
  import opened Wrappers
  import Arith

  /** The offset the paint keys write, as written: `cursor.x + cursor.y * width`, with no
      check against the canvas bounds. */
  function PaintOffsetAsWritten(cursor: Point, width: int): int {
    cursor.x + cursor.y * width
  }

  /** Nothing keeps that offset inside a 64×64 canvas: the cursor (0, 64) writes one past the
      end of the buffer, and (64, 0), outside the canvas, writes over the pixel (0, 1). */
  lemma PaintOffsetEscapes()
    ensures PaintOffsetAsWritten(Point(0, 64), 64) == 64 * 64
    ensures PaintOffsetAsWritten(Point(64, 0), 64) == PaintOffsetAsWritten(Point(0, 1), 64)
  {
  }

  /** The bounds-checked target: the same offset, but only for a cursor inside the canvas. */
  function PaintTarget(cursor: Point, width: int, height: int): (r: Option<int>)
    ensures r.Some? <==> 0 <= cursor.x < width && 0 <= cursor.y < height
    ensures r.Some? ==> 0 <= r.value < width * height && r.value == PaintOffsetAsWritten(cursor, width)
  {
    if 0 <= cursor.x < width && 0 <= cursor.y < height then
      Arith.RowMajor(cursor.x, cursor.y, width, height);
      Some(cursor.x + cursor.y * width)
    else
      None
  }

  /** Distinct points inside the canvas paint distinct pixels. */
  lemma PaintTargetInjective(p: Point, q: Point, width: int, height: int)
    requires PaintTarget(p, width, height).Some? && PaintTarget(q, width, height).Some?
    requires PaintTarget(p, width, height) == PaintTarget(q, width, height)
    ensures p == q
  {
    Arith.RowMajor(p.x, p.y, width, height);
    Arith.RowMajor(q.x, q.y, width, height);
  }

  /** Every pixel of the canvas is the target of exactly the point it decodes to. */
  lemma PaintTargetOnto(k: int, width: int, height: int)
    requires 0 < width && 0 <= k < width * height
    ensures PaintTarget(Point(k % width, k / width), width, height) == Some(k)
  {
    Arith.RowMajorDecode(k, width, height);
    Arith.DivModSplit(k, width);
  }

  /** The pixel a paint key writes in a buffer of `size` pixels: the as-written offset,
      whenever it lies inside the buffer, whether or not the cursor is inside the canvas. An
      offset outside the buffer, which C leaves undefined, writes nothing here. */
  function PaintIndex(cursor: Point, width: int, size: int): (r: Option<int>)
    ensures r.Some? <==> 0 <= PaintOffsetAsWritten(cursor, width) < size
    ensures r.Some? ==> r.value == PaintOffsetAsWritten(cursor, width)
  {
    var offset := cursor.x + cursor.y * width;
    if 0 <= offset < size then Some(offset) else None
  }

  /** Inside the canvas, the program's write and the bounds-checked target agree. */
  lemma PaintIndexInCanvas(cursor: Point, width: int, height: int)
    requires 0 <= cursor.x < width && 0 <= cursor.y < height
    ensures PaintIndex(cursor, width, width * height) == PaintTarget(cursor, width, height)
  {
    Arith.RowMajor(cursor.x, cursor.y, width, height);
  }

  /** Outside the canvas the program still writes when the offset is in the buffer: the
      cursor (64, 0), which has no pixel, writes the pixel of (0, 1). */
  lemma PaintIndexAliases()
    ensures PaintTarget(Point(64, 0), 64, 64).None?
    ensures PaintIndex(Point(64, 0), 64, 4096) == Some(64)
    ensures PaintTarget(Point(0, 1), 64, 64) == Some(64)
  {
    assert PaintIndex(Point(0, 1), 64, 4096) == Some(64);
    PaintIndexInCanvas(Point(0, 1), 64, 64);
  }

  /** The canvas buffer after a paint key: the written pixel, if there is one, takes `color`
      and every other pixel keeps its value. */
  function Painted(pix: seq<Uint32>, cursor: Point, width: int, color: Uint32): (r: seq<Uint32>)
    ensures |r| == |pix|
    ensures forall k :: 0 <= k < |pix| ==>
      r[k] == if PaintIndex(cursor, width, |pix|) == Some(k) then color else pix[k]
  {
    match PaintIndex(cursor, width, |pix|)
    case Some(k) => pix[k := color]
    case None => pix
  }

  /** A cursor inside the canvas changes exactly the pixel stored at `y * width + x`; a
      cursor whose offset falls outside the buffer changes nothing. */
  lemma PaintedAt(pix: seq<Uint32>, cursor: Point, width: int, height: int, color: Uint32)
    requires |pix| == width * height
    ensures 0 <= cursor.x < width && 0 <= cursor.y < height ==>
      var i := cursor.y * width + cursor.x;
      0 <= i < |pix| && Painted(pix, cursor, width, color)[i] == color
      && forall k :: 0 <= k < |pix| && k != i ==> Painted(pix, cursor, width, color)[k] == pix[k]
    ensures !(0 <= PaintOffsetAsWritten(cursor, width) < |pix|) ==> Painted(pix, cursor, width, color) == pix
  {
    if 0 <= cursor.x < width && 0 <= cursor.y < height {
      Arith.RowMajor(cursor.x, cursor.y, width, height);
    }
  }
}
