/** `T_CANVAS`: a paintable pixel buffer owned by one workspace slot. */
module Canvases {
  import opened Types

  /** The side length `create_canvas` writes into every canvas, whatever it is asked for. */
  const CanvasSide := 64

  class Canvas {
    const width: int
    const height: int
    /** Row-major: the pixel at (x, y) is `pixels[y * width + x]`. */
    const pixels: array<Uint32>

    /** A canvas as the program creates it: 64×64 with a buffer of exactly that many pixels. */
    ghost predicate Valid() {
      width == CanvasSide && height == CanvasSide && pixels.Length == width * height
    }

    /** `create_canvas`: the logical size is hard-coded to 64×64, while the zero-filled
        buffer is sized from the requested dimensions. */
    constructor Create(requestedWidth: nat, requestedHeight: nat)
      ensures width == CanvasSide && height == CanvasSide
      ensures fresh(pixels) && pixels.Length == requestedWidth * requestedHeight
      ensures forall k :: 0 <= k < pixels.Length ==> pixels[k] == 0
      ensures Valid() <==> requestedWidth * requestedHeight == CanvasSide * CanvasSide
    {
      width := CanvasSide;
      height := CanvasSide;
      pixels := new Uint32[requestedWidth * requestedHeight](_ => 0);
    }
  }
}
