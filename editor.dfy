/** The workspace as a value, and what each key press and each Preview tick does to it. */
module Editor {
  import opened Types
  import opened Wrappers
  import opened Scale
  import opened Viewport
  import opened Slots

  /** The digits on the digit keys' scancodes. */
  type Digit = d: int | 0 <= d <= 9

  /** The keys the handler distinguishes. C, V and B carry the byte their channel ends up
      holding: the source's `r = r++ % 256` is unsequenced, so the model does not fix it. */
  datatype Key =
    | Escape | Left | Right | Up | Down
    | Space | KeyN | KeyG | KeyZ | KeyP | KeyE
    | KeyC(red: Byte) | KeyV(green: Byte) | KeyB(blue: Byte)
    | DigitKey(digit: Digit)
    | Other

  /** What the main loop feeds the workspace: a key press, or a tick on which the Preview
      advance is due. */
  datatype Event = KeyDown(key: Key) | PreviewTick

  /** `T_WORKSPACE` without the pixels: which slots hold a canvas, not what they hold. */
  datatype State = State(
    scale: int,
    cursor: Point,
    start: Point,
    color: Rgb,
    showGrid: bool,
    mode: Mode,
    active: int,
    populated: seq<bool>)

  /** What holds in every state the program reaches. */
  predicate Inv(s: State) {
    ValidScale(s.scale)
    && Ordered(Axis(s.cursor.x, s.start.x)) && Ordered(Axis(s.cursor.y, s.start.y))
    && |s.populated| == SlotCount && 0 <= s.active < SlotCount && s.populated[s.active]
  }

  /** `init`: scale 1, cursor and viewport at the origin, the grid shown, Edit mode, and only
      slot 0 holding a canvas, which is active. */
  function Initial(): (s: State)
    ensures Inv(s)
    ensures forall k :: 0 <= k < SlotCount ==> (s.populated[k] <==> k == 0)
  {
    State(1, Point(0, 0), Point(0, 0), InitialBrush, true, Edit, 0,
          [true, false, false, false, false, false, false, false, false])
  }

  function XAxis(s: State): Axis { Axis(s.cursor.x, s.start.x) }
  function YAxis(s: State): Axis { Axis(s.cursor.y, s.start.y) }

  function WithX(s: State, a: Axis): State {
    s.(cursor := s.cursor.(x := a.cursor), start := s.start.(x := a.start))
  }

  function WithY(s: State, a: Axis): State {
    s.(cursor := s.cursor.(y := a.cursor), start := s.start.(y := a.start))
  }

  /** The slot a digit key selects as written: 0..9, although there are only nine slots. */
  function SlotOfKeyAsWritten(key: Key): int {
    if key.DigitKey? then key.digit else -1
  }

  /** Key 9 selects `canvas_list[9]`, one past the end of the nine slots. */
  lemma DigitNineOverruns()
    ensures SlotOfKeyAsWritten(DigitKey(9)) == SlotCount
  {
  }

  /** The slot a digit key selects with the bound respected: only digits 0..8 select. */
  function SlotOfKey(key: Key): (r: Option<int>)
    ensures r.Some? ==> 0 <= r.value < SlotCount && r.value == SlotOfKeyAsWritten(key)
    ensures r.None? <==> !key.DigitKey? || key.digit == 9
  {
    if key.DigitKey? && key.digit < SlotCount then Some(key.digit) else None
  }

  /** A digit key k in 0..8: populate slot k if it was empty, then make it active. */
  function Select(s: State, k: int): (r: State)
    requires |s.populated| == SlotCount && 0 <= k < SlotCount
    ensures |r.populated| == SlotCount
    ensures r.active == k && r.populated[k]
    ensures forall i :: 0 <= i < SlotCount && i != k ==> r.populated[i] == s.populated[i]
    ensures CountPopulated(r.populated) == CountPopulated(s.populated) + (if s.populated[k] then 0 else 1)
    ensures r == s.(active := k, populated := r.populated)
  {
    PopulateCount(s.populated, k);
    s.(active := k, populated := s.populated[k := true])
  }

  /** The key handler switch, with the surface's width and height for Right and Down. Right
      and Down scroll as the code is written (`RightStep`, `DownStep`); key 9 selects
      nothing. */
  function KeyStep(s: State, key: Key, surfaceW: int, surfaceH: int): (r: State)
    requires Inv(s)
    ensures Inv(r)
  {
    match key
    case Left => WithX(s, Back(XAxis(s)))
    case Right => WithX(s, RightStep(XAxis(s), s.scale, surfaceW))
    case Up => WithY(s, Back(YAxis(s)))
    case Down => WithY(s, DownStep(YAxis(s), s.scale, surfaceH))
    case KeyG => s.(showGrid := !s.showGrid)
    case KeyZ => ZoomValid(s.scale); s.(scale := Zoom(s.scale))
    case KeyP => s.(mode := Preview)
    case KeyE => s.(mode := Edit)
    case KeyC(v) => s.(color := s.color.(r := v))
    case KeyV(v) => s.(color := s.color.(g := v))
    case KeyB(v) => s.(color := s.color.(b := v))
    case DigitKey(_) =>
      (match SlotOfKey(key)
       case Some(k) => Select(s, k)
       case None => s)
    // Escape ends the loop; Space and N change pixels only; other keys are logged only.
    case _ => s
  }

  /** The Preview block: in Preview mode, move to the next populated slot. */
  function Tick(s: State): (r: State)
    requires Inv(s)
    ensures Inv(r)
    ensures r == s.(active := r.active)
    ensures s.mode == Edit ==> r == s
  {
    if s.mode == Preview then
      NextSlotSpec(s.populated, s.active);
      s.(active := NextSlot(s.populated, s.active))
    else s
  }

  function Step(s: State, e: Event, surfaceW: int, surfaceH: int): (r: State)
    requires Inv(s)
    ensures Inv(r)
  {
    match e
    case KeyDown(key) => KeyStep(s, key, surfaceW, surfaceH)
    case PreviewTick => Tick(s)
  }

  /** The state after a sequence of events. */
  function Run(s: State, events: seq<Event>, surfaceW: int, surfaceH: int): (r: State)
    requires Inv(s)
    decreases |events|
  {
    if events == [] then s else Run(Step(s, events[0], surfaceW, surfaceH), events[1..], surfaceW, surfaceH)
  }

  /** Every state reachable from `init` keeps the invariant: the scale is a valid power of
      two, 0 <= start <= cursor on both axes, and the active slot holds a canvas. */
  lemma {:induction false} RunKeepsInv(s: State, events: seq<Event>, surfaceW: int, surfaceH: int)
    requires Inv(s)
    ensures Inv(Run(s, events, surfaceW, surfaceH))
    decreases |events|
  {
    if events != [] {
      RunKeepsInv(Step(s, events[0], surfaceW, surfaceH), events[1..], surfaceW, surfaceH);
    }
  }

  lemma ReachableInv(events: seq<Event>, surfaceW: int, surfaceH: int)
    ensures Inv(Run(Initial(), events, surfaceW, surfaceH))
  {
    RunKeepsInv(Initial(), events, surfaceW, surfaceH);
  }

  /** Each Down press moves the cursor exactly one row down, with no upper bound: `n` presses
      from any state put it `n` rows lower. */
  lemma {:induction false} DownPresses(s: State, n: nat, surfaceW: int, surfaceH: int)
    requires Inv(s)
    ensures Run(s, seq(n, _ => KeyDown(Down)), surfaceW, surfaceH).cursor.y == s.cursor.y + n
    decreases n
  {
    if n > 0 {
      var events := seq(n, _ => KeyDown(Down));
      var next := Step(s, events[0], surfaceW, surfaceH);
      assert events[1..] == seq(n - 1, _ => KeyDown(Down));
      DownPresses(next, n - 1, surfaceW, surfaceH);
    }
  }

  /** G twice restores `show_grid`. */
  lemma GridToggleTwice(s: State, surfaceW: int, surfaceH: int)
    requires Inv(s)
    ensures KeyStep(KeyStep(s, KeyG, surfaceW, surfaceH), KeyG, surfaceW, surfaceH) == s
  {
  }

  /** With slots 2 and 5 populated and 2 active, Preview alternates 2, 5, 2. */
  lemma PreviewAlternates()
    ensures var p := [false, false, true, false, false, true, false, false, false];
      NextSlot(p, 2) == 5 && NextSlot(p, 5) == 2
  {
  }
}
