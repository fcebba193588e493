/** `T_WORKSPACE` and the global `g_workspace` that `init`, the key handlers, the Preview
    advance and `draw` update in place. */
module Workspaces {
  import opened Types
  import opened Wrappers
  import opened Canvases
  import opened Scale
  import opened Viewport
  import opened Slots
  import opened Painting
  import opened Editor
  import opened Raster
  import opened Frames

  /** Which entries of a slot array hold a canvas. */
  function NonNull(slots: seq<Canvas?>): (r: seq<bool>)
    ensures |r| == |slots|
    ensures forall k :: 0 <= k < |slots| ==> (r[k] <==> slots[k] != null)
  {
    seq(|slots|, k requires 0 <= k < |slots| => slots[k] != null)
  }

  class Workspace {
    var scale: int
    var cursor: Point
    var cursorColor: Rgb
    var showGrid: bool
    var start: Point
    /** `canvas_list[9]`: a slot holds a canvas or is empty (null). */
    const canvasList: array<Canvas?>
    var activeCanvas: int
    var mode: Mode

    /** The workspace as a value: everything but the pixels of the canvases. */
    ghost function View(): State
      reads this, canvasList
    {
      State(scale, cursor, start, cursorColor, showGrid, mode, activeCanvas, NonNull(canvasList[..]))
    }

    /** Nine slots, the value invariant of the editor, every canvas 64×64 with its own buffer. */
    ghost predicate Valid()
      reads this, canvasList
    {
      canvasList.Length == SlotCount
      && Inv(View())
      && (forall k :: 0 <= k < SlotCount && canvasList[k] != null ==> canvasList[k].Valid())
      && (forall i, j :: 0 <= i < j < SlotCount && canvasList[i] != null && canvasList[j] != null ==>
            canvasList[i].pixels != canvasList[j].pixels)
    }

    /** The canvas being edited; `Valid` makes the active slot hold one. */
    function Active(): (c: Canvas)
      requires Valid()
      reads this, canvasList
      ensures c == canvasList[activeCanvas] && c.Valid()
    {
      assert View().populated[activeCanvas];
      canvasList[activeCanvas]
    }

    /** `init`: the initial workspace, with a fresh zeroed canvas in slot 0 and the other
        eight slots empty. */
    constructor Init()
      ensures Valid() && View() == Initial()
      ensures fresh(canvasList) && fresh(canvasList[0]) && fresh(canvasList[0].pixels)
      ensures forall k :: 0 <= k < canvasList[0].pixels.Length ==> canvasList[0].pixels[k] == 0
    {
      scale := 1;
      cursor := Point(0, 0);
      cursorColor := InitialBrush;
      showGrid := true;
      canvasList := new Canvas?[SlotCount];
      activeCanvas := 0;
      start := Point(0, 0);
      mode := Edit;
      new;
      var first := new Canvas.Create(CanvasSide, CanvasSide);
      canvasList[0] := first;
      for i := 1 to SlotCount
        modifies canvasList
        invariant canvasList[0] == first
        invariant forall k :: 1 <= k < i ==> canvasList[k] == null
      {
        canvasList[i] := null;
      }
      assert NonNull(canvasList[..]) == Initial().populated;
    }

    /** Left: scroll back when the cursor is at the viewport's left edge, then move left
        unless already at column 0. */
    method MoveLeft()
      requires Valid()
      modifies this
      ensures Valid() && View() == WithX(old(View()), Back(old(XAxis(View()))))
    {
      if cursor.x - start.x == 0 && start.x > 0 {
        start := start.(x := start.x - 1);
      }
      if cursor.x > 0 {
        cursor := cursor.(x := cursor.x - 1);
      }
    }

    /** Right: move right, then scroll when `(cursor.x + start.x) * scale` reaches the
        surface width. */
    method MoveRight(surfaceW: int)
      requires Valid()
      modifies this
      ensures Valid() && View() == WithX(old(View()), RightStep(old(XAxis(View())), old(scale), surfaceW))
    {
      cursor := cursor.(x := cursor.x + 1);
      if (cursor.x + start.x) * scale >= surfaceW {
        start := start.(x := start.x + 1);
      }
    }

    /** Up: as Left, on the vertical axis. */
    method MoveUp()
      requires Valid()
      modifies this
      ensures Valid() && View() == WithY(old(View()), Back(old(YAxis(View()))))
    {
      if cursor.y - start.y == 0 && start.y > 0 {
        start := start.(y := start.y - 1);
      }
      if cursor.y > 0 {
        cursor := cursor.(y := cursor.y - 1);
      }
    }

    /** Down: move down, then scroll when `(cursor.y + start.y) * scale` exceeds the
        surface height. */
    method MoveDown(surfaceH: int)
      requires Valid()
      modifies this
      ensures Valid() && View() == WithY(old(View()), DownStep(old(YAxis(View())), old(scale), surfaceH))
    {
      cursor := cursor.(y := cursor.y + 1);
      if (cursor.y + start.y) * scale > surfaceH {
        start := start.(y := start.y + 1);
      }
    }

    /** Space and N: write `color` into the active canvas at offset
        `cursor.x + cursor.y * width`, when that offset lies in the buffer. Reports whether a
        pixel was written. */
    method Paint(color: Uint32) returns (painted: bool)
      requires Valid()
      modifies Active().pixels
      ensures Valid() && View() == old(View())
      ensures painted <==> PaintIndex(cursor, Active().width, Active().pixels.Length).Some?
      ensures Active().pixels[..] == Painted(old(Active().pixels[..]), cursor, Active().width, color)
      ensures forall i :: 0 <= i < SlotCount && canvasList[i] != null && i != activeCanvas ==>
        canvasList[i].pixels[..] == old(canvasList[i].pixels[..])
    {
      var canvas := canvasList[activeCanvas];
      var offset := cursor.x + cursor.y * canvas.width;
      painted := 0 <= offset < canvas.pixels.Length;
      if painted {
        canvas.pixels[offset] := color;
      }
    }

    /** A digit key for slot k: give the slot a fresh canvas if it has none, then make it
        the active slot. */
    method SelectCanvas(k: int)
      requires Valid() && 0 <= k < SlotCount
      modifies this, canvasList
      ensures Valid() && View() == Select(old(View()), k)
      ensures old(canvasList[k]) != null ==> canvasList[k] == old(canvasList[k])
      ensures old(canvasList[k]) == null ==>
        fresh(canvasList[k]) && fresh(canvasList[k].pixels)
        && forall p :: 0 <= p < canvasList[k].pixels.Length ==> canvasList[k].pixels[p] == 0
      ensures forall i :: 0 <= i < SlotCount && i != k ==> canvasList[i] == old(canvasList[i])
      ensures forall i :: 0 <= i < SlotCount && old(canvasList[i]) != null ==>
        canvasList[i].pixels[..] == old(canvasList[i].pixels[..])
    {
      if canvasList[k] == null {
        var c := new Canvas.Create(CanvasSide, CanvasSide);
        canvasList[k] := c;
      }
      activeCanvas := k;
      assert NonNull(canvasList[..]) == old(View()).populated[k := true];
    }

    /** The key handler: what each key does to the workspace, with the surface's width and
        height for Right and Down and `mapRgb` for the colour the paint keys write. Returns
        whether the key ends the program. */
    method HandleKey(key: Key, surfaceW: int, surfaceH: int, mapRgb: Rgb -> Uint32) returns (quit: bool)
      requires Valid()
      modifies this, canvasList, Active().pixels
      ensures Valid() && View() == KeyStep(old(View()), key, surfaceW, surfaceH)
      ensures quit <==> key == Escape
      ensures key.Space? ==>
        Active() == old(Active())
        && Active().pixels[..] == Painted(old(Active().pixels[..]), cursor, CanvasSide, mapRgb(cursorColor))
      ensures key.KeyN? ==>
        Active() == old(Active())
        && Active().pixels[..] == Painted(old(Active().pixels[..]), cursor, CanvasSide, mapRgb(Black))
      ensures !key.Space? && !key.KeyN? ==> old(Active()).pixels[..] == old(Active().pixels[..])
      ensures forall i :: 0 <= i < SlotCount && old(canvasList[i]) != null ==> canvasList[i] == old(canvasList[i])
      ensures forall i :: 0 <= i < SlotCount && old(canvasList[i]) != null && i != old(activeCanvas) ==>
        canvasList[i].pixels[..] == old(canvasList[i].pixels[..])
      ensures forall i :: 0 <= i < SlotCount && old(canvasList[i]) == null && canvasList[i] != null ==>
        fresh(canvasList[i]) && forall p :: 0 <= p < canvasList[i].pixels.Length ==> canvasList[i].pixels[p] == 0
    {
      match key
      case Space =>
        var _ := Paint(mapRgb(cursorColor));
        quit := false;
      case KeyN =>
        var _ := Paint(mapRgb(Black));
        quit := false;
      case DigitKey(_) =>
        var slot := SlotOfKey(key);
        if slot.Some? {
          SelectCanvas(slot.value);
        }
        quit := false;
      case _ =>
        quit := HandleFieldKey(key, surfaceW, surfaceH);
    }

    /** The keys that change only the workspace's own fields: Escape, the arrows, G, Z, P, E,
        C, V, B and the keys the handler only logs. */
    method HandleFieldKey(key: Key, surfaceW: int, surfaceH: int) returns (quit: bool)
      requires Valid() && !key.Space? && !key.KeyN? && !key.DigitKey?
      modifies this
      ensures Valid() && View() == KeyStep(old(View()), key, surfaceW, surfaceH)
      ensures quit <==> key == Escape
    {
      quit := false;
      match key
      case Escape =>
        quit := true;
      case Left =>
        MoveLeft();
      case Right =>
        MoveRight(surfaceW);
      case Up =>
        MoveUp();
      case Down =>
        MoveDown(surfaceH);
      case KeyG =>
        showGrid := !showGrid;
      case KeyZ =>
        ZoomValid(scale);
        scale := Zoom(scale);
      case KeyP =>
        mode := Preview;
      case KeyE =>
        mode := Edit;
      case KeyC(v) =>
        cursorColor := cursorColor.(r := v);
      case KeyV(v) =>
        cursorColor := cursorColor.(g := v);
      case KeyB(v) =>
        cursorColor := cursorColor.(b := v);
      case Other =>
    }

    /** The Preview block of the main loop: in Preview mode, scan the slots after the active
        one, going round, and make the first one holding a canvas active. */
    method AdvancePreview()
      requires Valid()
      modifies this
      ensures Valid() && View() == Tick(old(View()))
    {
      if mode == Preview {
        ghost var populated := View().populated;
        ghost var active := activeCanvas;
        var i := 1;
        while i < 10
          invariant 1 <= i <= 10 && activeCanvas == active
          invariant forall e :: 1 <= e < i ==> !populated[SlotAfter(active, e)]
        {
          if canvasList[(activeCanvas + i) % SlotCount] != null {
            activeCanvas := (activeCanvas + i) % SlotCount;
            FirstPopulatedIs(populated, active, i);
            break;
          }
          i := i + 1;
        }
        if i == 10 {
          FirstPopulatedIs(populated, active, 10);
        }
      }
    }

    /** `draw`: clear the surface to the background, blit the active canvas, draw the grid
        if it is shown, then the cursor block. */
    method Draw(s: Surface, mapRgb: Rgb -> Uint32)
      requires Valid() && s.Valid() && Active().pixels != s.pixels
      modifies s.pixels
      ensures s.pixels[..] == Frame(View(), Active().pixels[..], s.w, s.h, mapRgb)
    {
      ghost var before := s.pixels[..];
      FillRect(s, Rect(0, 0, s.w, s.h), mapRgb(Background));
      FillAll(before, s.w, s.h, mapRgb(Background));
      var canvas := canvasList[activeCanvas];
      DrawCanvas(start, scale, canvas.pixels, canvas.width, canvas.height, s);
      if showGrid {
        DrawGrid(scale, mapRgb(White), s);
      }
      DrawCursor(cursor, start, scale, mapRgb(cursorColor), s);
    }
  }

  /** A session from `init`: painting with the brush (what Space does) sets the canvas pixel
      under the cursor at the origin; selecting slot 3 (key 3) gives a fresh, blank canvas;
      selecting slot 0 (key 0) comes back to the first canvas, whose painting is still there. */
  method PaintSession(mapRgb: Rgb -> Uint32) returns (painted: Uint32, blank: Uint32, kept: Uint32)
    ensures painted == mapRgb(InitialBrush)
    ensures blank == 0
    ensures kept == painted
  {
    var ws := new Workspace.Init();
    ghost var first := ws.Active();
    ghost var blankCanvas := first.pixels[..];
    var wrote := ws.Paint(mapRgb(ws.cursorColor));
    PaintedAt(blankCanvas, Point(0, 0), CanvasSide, CanvasSide, mapRgb(InitialBrush));
    painted := ws.Active().pixels[0];
    ws.SelectCanvas(3);
    blank := ws.Active().pixels[0];
    ws.SelectCanvas(0);
    assert ws.Active() == first;
    kept := ws.Active().pixels[0];
  }

  /** From `init` on a 640×480 surface: paint with the brush at (0, 0), press Right three
      times, paint black at (3, 0). The canvas then differs from a blank one in exactly those
      two pixels. */
  method PaintMoveErase(mapRgb: Rgb -> Uint32) returns (pixels: seq<Uint32>)
    ensures |pixels| == CanvasSide * CanvasSide
    ensures pixels[0] == mapRgb(InitialBrush)
    ensures pixels[3] == mapRgb(Black)
    ensures forall k :: 0 <= k < |pixels| && k != 0 && k != 3 ==> pixels[k] == 0
  {
    var ws := new Workspace.Init();
    ghost var canvas := ws.Active();
    ghost var blank := canvas.pixels[..];
    var wrote := ws.Paint(mapRgb(ws.cursorColor));
    assert PaintIndex(Point(0, 0), CanvasSide, CanvasSide * CanvasSide) == Some(0);
    ghost var first := canvas.pixels[..];
    assert first == Painted(blank, Point(0, 0), CanvasSide, mapRgb(InitialBrush));
    ws.MoveRight(640);
    ws.MoveRight(640);
    ws.MoveRight(640);
    assert ws.cursor == Point(3, 0) && ws.Active() == canvas && canvas.pixels[..] == first;
    wrote := ws.Paint(mapRgb(Black));
    assert PaintIndex(Point(3, 0), CanvasSide, CanvasSide * CanvasSide) == Some(3);
    assert canvas.pixels[..] == Painted(first, Point(3, 0), CanvasSide, mapRgb(Black));
    pixels := ws.Active().pixels[..];
  }
}
