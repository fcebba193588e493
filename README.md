# pocketsprite in Dafny

pocketsprite is a small keyboard-driven pixel-art editor written in C on SDL2, all in `main.c`. A single global `T_WORKSPACE` holds the editing state:

- the zoom `scale`;
- the `cursor` and the viewport `start`, in canvas coordinates;
- the brush colour;
- the grid flag;
- the Edit/Preview mode;
- nine canvas slots, of which one is active.

Every frame the program does three things:

- in Preview mode, it moves to the next populated slot;
- it redraws the surface: a dark background, then the active canvas blown up by `scale`, then a white grid, then the cursor block;
- it applies the pending key presses.

The model is split into modules:

- `Editor` is the workspace's state as a value (`State`, `Inv`, `Initial`). It has one function per key (`KeyStep`) and one for the Preview advance (`Tick`). It is built on `Viewport` (the arrow keys, one axis at a time), `Scale` (Z), `Slots` (the Preview search) and `Painting` (where Space and N write).
- `Canvases.Canvas` is `T_CANVAS`, as `create_canvas` builds it.
- `Raster` is the drawing code as imperative methods over a row-major `Surface` array:
  - `draw_hline`, `draw_vline`, `draw_grid`, `draw_canvas` and `draw_cursor`;
  - `SDL_FillRect`, as a clipped rectangle fill.

  Each method is proved equal to an image function of the surface it starts from.
- `Frames` composes those layers into the frame that `draw` produces. `FrameAt` states pixel by pixel what the frame shows.
- `Workspaces.Workspace` is `g_workspace` as a class:
  - nine slots held in an `array<Canvas?>`;
  - `Init` is `init`;
  - one method per key handler, plus `HandleKey` as the whole switch;
  - `AdvancePreview` for the Preview loop, and `Draw` for `draw`.

  Each method is proved against the `Editor` function of the same step, through the ghost `View()`. The pixel effects are stated separately with `Painting.Painted`.

Where the code does something other than what it evidently intends, the model keeps the code as written in a function of its own, with a lemma that exhibits the discrepancy, next to a corrected definition:

- Right scrolls on `cursor.x + start.x`, not on the cursor's screen position (`Viewport.RightStep`; corrected: `Viewport.Forward`).
- Down scrolls on `cursor.y + start.y` with `>`, so the cursor can leave the surface (`Viewport.DownStep`; corrected: `Viewport.Forward`).
- Key 9 does not select a tenth slot; it indexes past the end of the array (`Editor.SlotOfKeyAsWritten`; corrected: `Editor.SlotOfKey`).
- Space and N write `x + y*width` with no bounds check (`Painting.PaintOffsetAsWritten`; corrected: `Painting.PaintTarget`).

These four are listed under "## Findings". The workspace (`Editor.KeyStep`, `Workspaces.Workspace`) scrolls as the code is written, and paints at the as-written offset whenever it lies inside the buffer (`Painting.PaintIndex`), so from (64, 0) it writes pixel (0, 1). It departs from the code only where C has no defined meaning: key 9 selects nothing, and an offset outside the buffer writes nothing.

Two more places where the code is kept as written: `create_canvas` sizes the buffer from its arguments and only hard-codes the 64×64 fields, and the colour keys do not reliably increment their channel.

## Model

| member | source | states |
|---|---|---|
| Canvases.Canvas.Create | main.c:42-48 | the width and height are always 64, whatever was requested; the buffer is fresh, has requestedWidth×requestedHeight pixels, all zero; it is a valid 64×64 canvas exactly when requestedWidth×requestedHeight == 4096 |
| Editor.Initial | main.c:50-77 | the initial workspace satisfies the invariant, and slot 0 is the only populated slot |
| Workspaces.Workspace.Init | main.c:50-77 | `init` yields a valid workspace whose view is `Initial()`: a fresh zeroed canvas in slot 0, null in slots 1..8 |
| Viewport.Back | main.c:240-250 | Left/Up keep 0 <= start <= cursor; the cursor drops by at most 1, and stays put exactly when it is at 0 or below; start drops by at most 1, exactly when the cursor is on the viewport's first cell and start > 0 |
| Viewport.BackInView | main.c:240-250 | Left/Up keep an in-view cursor in view |
| Viewport.RightStep | main.c:244-246 | Right as written: the cursor rises by exactly 1, start by 0 or 1; ordering is kept, and so is being in view |
| Viewport.DownStep | main.c:252-254 | Down as written: the cursor rises by exactly 1, start by 0 or 1; ordering is kept |
| Viewport.Forward | main.c:244-254 | the corrected forward step: keeps 0 <= start <= cursor; keeps the cursor in view; scrolls exactly when not scrolling would leave the view |
| Viewport.AgreeAtOrigin | main.c:244-254 | while start is 0, Right as written agrees with the corrected step; Down as written agrees except when the cursor's next row lands exactly on the height |
| Viewport.RightScrollsEarly | main.c:246 | scale 1, width 640, with cursor and start at 400: Right as written scrolls, although the corrected step stays in view without scrolling |
| Viewport.DownLeavesView | main.c:254 | row 479 of a 480-row surface: Down as written moves the cursor off the surface without scrolling; the corrected step keeps it in view |
| Editor.DownPresses | main.c:252-254 | n Down presses from any reachable state move the cursor exactly n rows down, with no upper bound |
| Scale.Zoom | main.c:261 | Z always gives a scale in [1, 255], never 0 |
| Scale.ZoomValid | main.c:261 | Z maps a power of two in [1, 128] to one again: it doubles, and 128 wraps to 1 |
| Scale.Pow2Valid | main.c:261 | 2^k for k < 8 is a valid scale, and it is 128 only for k = 7 |
| Scale.ZoomCycle | main.c:261 | after n presses of Z from scale 1, the scale is 2^(n mod 8): 1, 2, 4, ..., 128, 1, ... |
| Editor.GridToggleTwice | main.c:260 | G twice restores the state |
| Editor.DigitNineOverruns | main.c:281-285 | key 9 selects `canvas_list[9]`, one past the nine slots |
| Editor.SlotOfKey | main.c:272-285 | the corrected digit decoding: digit k selects slot k exactly when k is 0..8, and the slot agrees with the as-written one |
| Editor.Select | main.c:283-287 | a digit key for slot k makes k active and populated; the other slots are unchanged; the canvas count rises by one exactly when the slot was empty; nothing else changes |
| Slots.PopulateCount | main.c:284 | populating slot k adds one to the number of populated slots if it was empty, and none otherwise |
| Workspaces.Workspace.SelectCanvas | main.c:283-287 | an empty slot gets a fresh, zeroed canvas; a filled slot keeps the same canvas object; every other slot keeps its object; no pixels change; the view equals `Select` |
| Slots.FirstPopulated | main.c:225-230 | the scan over offsets i..9 returns the first offset whose slot is populated, or 10 when no slot is: the slot at the returned offset is populated, and every offset before it is empty |
| Slots.FirstPopulatedIs | main.c:225-230 | the scan returns i exactly when the slots at offsets 1..i-1 are empty and the slot at offset i is populated |
| Slots.NextSlot | main.c:224-231 | the Preview advance always lands in 0..8 |
| Slots.NextSlotSpec | main.c:224-231 | if any slot is populated, the slot it lands on is, and it is the first populated one in scan order after the active slot (every slot scanned before it is empty); if none is, the active slot is kept; if the active slot is the only populated one, it is kept |
| Editor.PreviewAlternates | main.c:224-231 | with only slots 2 and 5 populated, Preview goes from 2 to 5 and from 5 to 2 |
| Editor.Tick | main.c:224-231 | the Preview step keeps the invariant and changes only the active slot; in Edit mode it changes nothing |
| Workspaces.Workspace.AdvancePreview | main.c:224-231 | the loop with its early break computes `Tick`: the active slot becomes the first populated one in scan order |
| Editor.KeyStep | main.c:237-288 | every key keeps the invariant: the scale is a power of two in [1, 128]; 0 <= start <= cursor on both axes; the active slot is populated; Right and Down scroll as the code is written (`RightStep`, `DownStep`) |
| Editor.Step | main.c:220-295 | a key press or a Preview tick keeps the invariant |
| Editor.RunKeepsInv | main.c:220-295 | any sequence of key presses and ticks keeps the invariant |
| Editor.ReachableInv | main.c:181-295 | every state reachable from `init` satisfies the invariant; in particular `canvas_list[active_canvas]` is non-null, which makes the dereferences in `draw` and in the paint keys safe |
| Workspaces.Workspace.MoveLeft | main.c:240-243 | the fields change as `Back` says, on the x axis |
| Workspaces.Workspace.MoveRight | main.c:244-247 | the fields change as `RightStep` says, on the x axis: the cursor moves one column right, and the viewport scrolls exactly when `(cursor.x + start.x) * scale >= w` after the step, as the code tests |
| Workspaces.Workspace.MoveUp | main.c:248-251 | the fields change as `Back` says, on the y axis |
| Workspaces.Workspace.MoveDown | main.c:252-255 | the fields change as `DownStep` says, on the y axis: the cursor moves one row down, and the viewport scrolls exactly when `(cursor.y + start.y) * scale > h` after the step, as the code tests |
| Workspaces.Workspace.HandleFieldKey | main.c:239-266 | Escape, the arrows, G, Z, P, E, C, V and B change the fields as `KeyStep` says; only Escape quits |
| Workspaces.Workspace.HandleKey | main.c:237-290 | the whole switch: `quit` is true exactly for Escape; the view follows `KeyStep`; Space and N write the brush colour and black at `x + y*width` of the active canvas whenever that offset is in the buffer; no other key changes pixels; canvases of other slots keep their object and their pixels; a slot that gains a canvas gains a fresh zeroed one |
| Workspaces.Workspace.Active | main.c:171 | the active slot holds a valid 64×64 canvas in every valid workspace |
| Painting.PaintOffsetEscapes | main.c:256-259 | the as-written paint offset at cursor (0, 64) is 4096, one past a 64×64 buffer; at (64, 0) it aliases the pixel (0, 1) |
| Painting.PaintTarget | main.c:256-259 | the checked target exists exactly when the cursor is inside the canvas; it then lies in the buffer and equals the as-written offset `x + y*width` |
| Painting.PaintTargetInjective | main.c:256-259 | distinct cursors inside the canvas paint distinct pixels |
| Painting.PaintTargetOnto | main.c:256-259 | every pixel of the buffer is painted from exactly the cursor it decodes to |
| Painting.PaintIndex | main.c:256-259 | the pixel a paint key writes: the as-written offset `x + y*width`, exactly when it lies inside the buffer |
| Painting.PaintIndexInCanvas | main.c:256-259 | for a cursor inside the canvas, the written pixel is the bounds-checked target |
| Painting.PaintIndexAliases | main.c:256-259 | the cursor (64, 0), outside the canvas, writes pixel 64, which is the checked target of (0, 1) |
| Painting.Painted | main.c:256-259 | a paint key sets the pixel at `PaintIndex` to the colour and leaves every other pixel as it was; with no index in the buffer, nothing changes |
| Painting.PaintedAt | main.c:256-259 | a cursor inside the canvas paints pixel `y*width + x` and only it; an offset outside the buffer leaves the buffer unchanged |
| Workspaces.Workspace.Paint | main.c:256-259 | the active canvas's buffer becomes `Painted`: the pixel at `x + y*width` is written whenever that offset lies in the buffer, also for a cursor outside the canvas; no other canvas and no workspace field changes; it reports whether a pixel was written |
| Workspaces.PaintSession | main.c:256-287 | from `init`: paint at the origin, select slot 3, which is blank, then return to slot 0, which still holds the paint |
| Workspaces.PaintMoveErase | main.c:240-259 | from `init`: paint at (0, 0), Right three times, paint black at (3, 0); pixel 0 has the brush colour, pixel 3 is black, all others are 0 |
| Raster.DrawHLine | main.c:79-84 | the surface afterwards is the old one with `length` consecutive pixels from `y*w + x` set to the colour |
| Raster.DrawVLine | main.c:86-94 | the surface afterwards is the old one with `length` pixels from `y*w + x`, at stride `w`, set to the colour |
| Raster.OnRunColumn | main.c:86-94 | a vertical run from the top of column x covers a pixel exactly when the pixel is in column x and above row n |
| Raster.DrawGridColumns | main.c:97-102 | the first loop draws the lines on the columns 0, step, ... that are below the width, and only those |
| Raster.DrawGridRows | main.c:103-108 | the second loop adds the lines on the rows 0, step, ... that are below the height |
| Raster.DrawGrid | main.c:96-109 | every line call stays in the surface; the result is the old surface with every pixel on a grid line set to the colour |
| Raster.GridImageAt | main.c:96-109 | after `draw_grid`, pixel (x, y) has the grid colour exactly when x or y is a multiple of step, and keeps its old value otherwise |
| Raster.FillRect | main.c:117 | `SDL_FillRect`: the surface afterwards is the old one with the part of the rectangle that lies on the surface set to the colour |
| Raster.DrawCanvasColumn | main.c:126-134 | the inner loop for column i fills the block of every in-canvas cell of that column |
| Raster.DrawCanvas | main.c:121-135 | the surface afterwards shows canvas pixel `(start + cell)` in every `scale×scale` block of a viewport cell whose canvas coordinates are in the canvas; every other pixel keeps its old value |
| Raster.DrawCursor | main.c:111-119 | the `scale×scale` block at `(cursor - start) * scale` is filled with the brush colour, clipped to the surface |
| Raster.CursorCoversCell | main.c:111-119 | the cursor block covers exactly the screen pixels of viewport cell `cursor - start` |
| Raster.CursorOnSurface | main.c:113-116 | a cursor on one of the viewport's cells has its whole block on the surface |
| Frames.FillAll | main.c:169 | clearing with no rectangle sets every pixel to the background, whatever was there before |
| Frames.FrameAt | main.c:166-175 | the layers of the frame: it shows the cursor colour inside the cursor block; otherwise white on a grid line (when the grid is on); otherwise, in a cell mapping into the canvas, that canvas pixel; otherwise the background |
| Workspaces.Workspace.Draw | main.c:166-175 | `draw` leaves the surface equal to `Frame` of the workspace and its active canvas |

## Left out

- SDL initialisation, window creation, event polling, `SDL_Delay`, `SDL_UpdateWindowSurface` and teardown (main.c:197-217, 222, 234, 298-300). These are library I/O. `HandleKey` takes the key and the surface size as parameters instead.
- `createSurface` (main.c:138-164): it only selects colour masks and returns nothing. `Raster.Surface` stands for the window surface.
- `SDL_MapRGB` is the parameter `mapRgb: Rgb -> Uint32`. `SDL_FillRect` is modelled by its documented behaviour as `Raster.FillRect`, a rectangle fill clipped to the surface.
- Command-line parsing with `atoi` (main.c:188-194) and all `printf` logging: neither affects the state.
- The 20-tick schedule of `frame_counter = (frame_counter++)%20` (main.c:223) is not modelled. Its effect is undefined in C. The Preview advance is the standalone step `Tick`/`AdvancePreview`, taken on an event `PreviewTick` that stands for a tick on which the advance is due.
- Editor.KeyStep: the colour keys C, V and B (main.c:264-266) carry the byte the channel ends up holding. `r = r++ % 256` is unsequenced, so the model claims no increment by one, and no wrap-around after 256 presses.
- Editor.KeyStep: does not model overflow of C `int`. Cursor, start and the products `(cursor ± start) * scale` are unbounded integers. The cursor has no upper bound, so enough Right or Down presses would overflow in C.
- Scale.Zoom: models `(scale << 1) & 255` as `(2*scale) % 256`, which is exact for 0 <= scale < 2^30. The invariant keeps the scale at most 128.
- `create_canvas`: a failing `malloc`/`calloc` and negative sizes are not modelled. The arguments are `nat`s, and allocation succeeds.
- The `dimension` field of `T_WORKSPACE` is never used and has no counterpart. `RGB_WHITE` and `RGB_BLACK` are constants.
- Workspaces.Workspace.Paint: writes nothing when `x + y*width` lies outside the buffer, where C writes out of bounds with no defined meaning. Inside the buffer it follows the code, also for a cursor outside the canvas.
- Workspaces.Workspace.HandleKey: key 9 changes nothing, where the code reads and writes slot 9, past the array's end. `Editor.KeyStep` does the same. The code as written is `Editor.SlotOfKeyAsWritten` (see Findings).
- Workspaces.Workspace.Draw: requires that the active canvas's buffer and the surface are different arrays. In the program one is heap memory and the other the window surface.
- Raster.DrawHLine: requires the run to lie inside the surface buffer, as its caller `draw_grid` guarantees; the same holds for `Raster.DrawVLine`. Runs outside the buffer, which C would write anyway, are not modelled.

## Findings

| source | as written | input that shows it | evidently intended | confidence | as-written member | corrected member |
|---|---|---|---|---|---|---|
| main.c:246 | Right scrolls when `(cursor.x + start.x) * scale >= w` | cursor.x = start.x = 400, scale 1, width 640: it scrolls although the cursor's screen column becomes 1 | scroll when the new screen position `(cursor.x - start.x) * scale` reaches the width | not executed | Viewport.RightScrollsEarly | Viewport.Forward |
| main.c:254 | Down scrolls when `(cursor.y + start.y) * scale > h` | cursor.y = 479, start.y = 0, scale 1, height 480: the cursor moves to screen row 480, off the surface | scroll when `(cursor.y - start.y) * scale >= h`, as Right does with `>=` | not executed | Viewport.DownLeavesView | Viewport.Forward |
| main.c:281-285 | the scancode of 9 gives `key = 9`, then `canvas_list[9]` is read and possibly written | pressing 9 | only 0..8 select, since there are nine slots | not executed | Editor.DigitNineOverruns | Editor.SlotOfKey |
| main.c:256-259 | Space and N write `pixels[x + y*width]` with no bounds check, while the cursor has no upper bound | cursor (0, 64) writes index 4096 of a 4096-pixel buffer; (64, 0) overwrites pixel (0, 1) | paint only when the cursor is inside the canvas | not executed | Painting.PaintOffsetEscapes | Painting.PaintTarget |
