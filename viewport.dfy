/**
 * The viewport/selection state machine of the list widget, as values.
 *
 * A `State` holds what `SelectFromListWindow` keeps about its list apart from
 * the rows themselves: the list length, the first visible row (`offset`),
 * the highlighted row (`current`), how many rows fit (`lineCount`), the
 * width, and the selection mask. Every keypress branch is a function from a
 * state to the next state together with the drawing requests it makes
 * (`WriteRow`, `DrawList`, `Refresh`), in the order the widget makes them.
 */
module Viewport {

  datatype Option<T> = None | Some(value: T)

  function Min(a: nat, b: nat): nat { if a <= b then a else b }

  function Max(a: int, b: int): int { if a >= b then a else b }

  datatype State = State(
    listLength: nat,
    offset: int,
    current: int,
    lineCount: nat,
    width: nat,
    selected: seq<bool>)

  /** The bounds every operation keeps on a non-empty list. */
  predicate Valid(s: State) {
    && |s.selected| == s.listLength
    && (s.listLength > 0 ==>
          0 <= s.offset <= s.current < s.offset + s.lineCount <= s.listLength)
  }

  /** The fields that a navigation command leaves alone. */
  predicate SameData(s: State, t: State) {
    && t.listLength == s.listLength
    && t.lineCount == s.lineCount
    && t.width == s.width
    && t.selected == s.selected
  }

  /** A drawing request: one row, the whole visible range, or the flush. */
  datatype Draw = WriteRow(index: int) | DrawList | Refresh

  datatype Step = Step(next: State, draws: seq<Draw>)

  /** What `keypress` does with control: returns a flag, or raises IndexError. */
  datatype Reply = Returned(handled: bool) | IndexError

  datatype Reaction = Reaction(next: State, draws: seq<Draw>, reply: Reply)

  /**
   * A mouse event as the widget sees it once decoded: the clicked row
   * relative to the window's top line and the three button-state conditions,
   * or a failure of the decoding call.
   */
  datatype MouseEvent =
    | Decoded(row: int, clicked: bool, wheelUp: bool, wheelDown: bool)
    | DecodeFailed

  /** The keys the widget tells apart (arrow keys and j/k, page keys, Home, End and G, ...). */
  datatype Command =
    | Up | Down | PageUp | PageDown | Home | End
    | Mouse(event: MouseEvent)
    | Space | Enter | Other

  /** Python's list indexing: a negative index counts from the end. */
  function PyIndex(n: nat, i: int): (r: Option<nat>)
    ensures r.Some? <==> -(n as int) <= i < n
    ensures r.Some? ==> r.value < n && (r.value == i || r.value == n + i)
  {
    if 0 <= i < n then Some(i)
    else if -(n as int) <= i < 0 then Some(n + i)
    else None
  }

  /** A mask of `n` unmarked rows, as `[False for x in range(n)]` builds it. */
  function Unmarked(n: nat): (m: seq<bool>)
    ensures |m| == n && forall i :: 0 <= i < n ==> !m[i]
  {
    seq(n, _ => false)
  }

  /** The mask with entry `i` flipped. */
  function Toggle(m: seq<bool>, i: nat): (t: seq<bool>)
    requires i < |m|
    ensures |t| == |m| && t[i] == !m[i]
    ensures forall j :: 0 <= j < |m| && j != i ==> t[j] == m[j]
  {
    m[i := !m[i]]
  }

  /** The state `__init__` sets up, before any layout. */
  function Initial(n: nat): (s: State)
    ensures Valid(s) <==> n == 0
    ensures s.listLength == n && s.lineCount == 0 && s.width == 0
    ensures |s.selected| == n && s.offset == s.current == 0
    ensures forall i :: 0 <= i < n ==> !s.selected[i]
  {
    State(n, 0, 0, 0, 0, Unmarked(n))
  }

  /** `draw_window`: as many rows as fit, the full width; offset and current are kept. */
  function Layout(s: State, maxRows: nat, maxCols: nat): (t: State)
    ensures t.lineCount <= t.listLength && t.lineCount <= maxRows
    ensures t.lineCount == t.listLength || t.lineCount == maxRows
    ensures t.width == maxCols
    ensures t.offset == s.offset && t.current == s.current
    ensures t.listLength == s.listLength && t.selected == s.selected
  {
    s.(lineCount := Min(s.listLength, maxRows), width := maxCols)
  }

  /** `new_data`: a fresh list of `n` rows and an empty mask; offset and current are kept. */
  function NewData(s: State, n: nat, maxRows: nat): (t: State)
    ensures t.listLength == n && t.selected == Unmarked(n)
    ensures t.lineCount == Min(n, maxRows)
    ensures t.offset == s.offset && t.current == s.current && t.width == s.width
  {
    s.(listLength := n, selected := Unmarked(n), lineCount := Min(n, maxRows))
  }

  /** Whether `write_row(index)` draws anything: the row lies in the visible window. */
  predicate RowVisible(s: State, index: int): (b: bool)
    ensures b <==> s.offset <= index < s.offset + s.lineCount
  {
    0 <= index - s.offset <= s.lineCount - 1
  }

  /**
   * Whether carrying out request `d` in state `t` raises IndexError:
   * `write_row` looks its row up before it tests visibility, and
   * `draw_list` writes every row from `offset` to `offset + lineCount`.
   */
  predicate DrawFails(t: State, d: Draw) {
    match d
    case WriteRow(i) => PyIndex(t.listLength, i).None?
    case DrawList =>
      t.listLength > 0 && exists i :: t.offset <= i < t.offset + t.lineCount && PyIndex(t.listLength, i).None?
    case Refresh => false
  }

  /** The requests carried out, and whether the last of them raised. */
  datatype Performed = Performed(drawn: seq<Draw>, failed: bool)

  /** Whether some request of a step raises in the state the step leads to. */
  predicate StepFails(st: Step) {
    exists k :: 0 <= k < |st.draws| && DrawFails(st.next, st.draws[k])
  }

  /** Drawing requests carried out in order in state `t` until one raises. */
  function Perform(t: State, draws: seq<Draw>): (p: Performed)
    ensures p.failed <==> exists k :: 0 <= k < |draws| && DrawFails(t, draws[k])
    ensures !p.failed ==> p.drawn == draws
    ensures p.failed ==>
              && 0 < |p.drawn| <= |draws| && p.drawn == draws[..|p.drawn|]
              && DrawFails(t, p.drawn[|p.drawn| - 1])
              && forall k :: 0 <= k < |p.drawn| - 1 ==> !DrawFails(t, draws[k])
    decreases |draws|
  {
    if draws == [] then Performed([], false)
    else if DrawFails(t, draws[0]) then Performed([draws[0]], true)
    else
      var p := Perform(t, draws[1..]);
      assert forall k :: 1 <= k < |draws| ==> draws[k] == draws[1..][k - 1];
      Performed([draws[0]] + p.drawn, p.failed)
  }

  function KeyUp(s: State): (r: Step)
    ensures SameData(s, r.next)
    ensures Valid(s) ==> Valid(r.next)
  {
    if s.current > s.offset then
      Step(s.(current := s.current - 1), [WriteRow(s.current), WriteRow(s.current - 1), Refresh])
    else if s.offset > 0 then
      Step(s.(offset := s.offset - 1, current := s.current - 1), [DrawList])
    else
      Step(s, [])
  }

  function KeyDown(s: State): (r: Step)
    ensures SameData(s, r.next)
    ensures Valid(s) ==> Valid(r.next)
  {
    if s.current < s.offset + s.lineCount - 1 then
      Step(s.(current := s.current + 1), [WriteRow(s.current), WriteRow(s.current + 1), Refresh])
    else if s.offset + s.lineCount < s.listLength then
      Step(s.(offset := s.offset + 1, current := s.current + 1), [DrawList])
    else
      Step(s, [])
  }

  function OnPageUp(s: State): (r: Step)
    ensures SameData(s, r.next)
    ensures Valid(s) ==> Valid(r.next)
  {
    if s.current > s.offset then
      Step(s.(current := s.offset), [WriteRow(s.current), WriteRow(s.offset), Refresh])
    else if s.offset > 0 then
      if s.offset > s.lineCount then
        Step(s.(offset := s.offset - s.lineCount, current := s.current - s.lineCount), [DrawList])
      else
        Step(s.(offset := 0, current := 0), [DrawList])
    else
      Step(s, [])
  }

  function OnPageDown(s: State): (r: Step)
    ensures SameData(s, r.next)
    ensures Valid(s) ==> Valid(r.next)
  {
    var bottomLine := s.offset + s.lineCount - 1;
    if s.current < bottomLine then
      Step(s.(current := bottomLine), [WriteRow(s.current), WriteRow(bottomLine), Refresh])
    else if s.offset + s.lineCount < s.listLength then
      if s.offset + s.lineCount * 2 < s.listLength then
        Step(s.(offset := s.offset + s.lineCount, current := s.current + s.lineCount), [DrawList])
      else
        Step(s.(offset := s.listLength - s.lineCount, current := s.listLength - 1), [DrawList])
    else
      Step(s, [])
  }

  function OnHome(s: State): (r: Step)
    ensures SameData(s, r.next)
    ensures Valid(s) ==> Valid(r.next)
  {
    Step(s.(offset := 0, current := 0), [DrawList])
  }

  function OnEnd(s: State): (r: Step)
    ensures SameData(s, r.next)
    ensures Valid(s) ==> Valid(r.next)
  {
    Step(s.(offset := s.listLength - s.lineCount, current := s.listLength - 1), [DrawList])
  }

  /**
   * A button-1 click on window row `row`, as the widget is written: the
   * bound `clickLine <= offset + lineCount` also admits the row one past the
   * last visible one.
   */
  function ClickAsWritten(s: State, row: int): (r: Step)
    ensures SameData(s, r.next) && r.next.offset == s.offset
  {
    var clickLine := row + s.offset;
    var target := if clickLine <= s.offset + s.lineCount then clickLine else s.offset + s.lineCount - 1;
    Step(s.(current := target), [WriteRow(s.current), WriteRow(target), Refresh])
  }

  /**
   * A button-1 click on window row `row` with the bound the widget intends:
   * a row at or below the end of the visible window selects its last row.
   */
  function OnClick(s: State, row: int): (r: Step)
    ensures SameData(s, r.next) && r.next.offset == s.offset
    ensures Valid(s) && s.listLength > 0 && row >= 0 ==> Valid(r.next)
  {
    var clickLine := row + s.offset;
    var target := if clickLine < s.offset + s.lineCount then clickLine else s.offset + s.lineCount - 1;
    Step(s.(current := target), [WriteRow(s.current), WriteRow(target), Refresh])
  }

  /**
   * A branch's step with its drawing carried out: the state as the branch
   * left it, the requests made, and IndexError if one of them raised.
   */
  function Finish(st: Step, handled: bool): (r: Reaction)
    ensures r.next == st.next && r.draws == Perform(st.next, st.draws).drawn
    ensures r.reply.IndexError? <==> StepFails(st)
    ensures r.reply.Returned? ==> r.reply.handled == handled
    ensures r.reply.IndexError? ==> |r.draws| > 0 && DrawFails(r.next, r.draws[|r.draws| - 1])
  {
    var p := Perform(st.next, st.draws);
    Reaction(st.next, p.drawn, if p.failed then IndexError else Returned(handled))
  }

  /** Two parts of a branch in turn: the requests of both, then the state and reply of the second. */
  function Then(a: Reaction, b: Reaction): (r: Reaction)
    ensures r.next == b.next && r.reply == b.reply
    ensures |r.draws| == |a.draws| + |b.draws|
    ensures |b.draws| > 0 ==> r.draws[|r.draws| - 1] == b.draws[|b.draws| - 1]
  {
    Reaction(b.next, a.draws + b.draws, b.reply)
  }

  /** The click part of a decoded mouse event: a click on its row, or nothing. */
  function ClickPart(s: State, event: MouseEvent): Step
    requires event.Decoded?
  {
    if event.clicked then OnClick(s, event.row) else Step(s, [])
  }

  /** The wheel-up part of a decoded mouse event: one `key_up`, or nothing. */
  function WheelUpPart(t: State, event: MouseEvent): Step
    requires event.Decoded?
  {
    if event.wheelUp then KeyUp(t) else Step(t, [])
  }

  /** The wheel-down part of a decoded mouse event: one `key_down`, or nothing. */
  function WheelDownPart(t: State, event: MouseEvent): Step
    requires event.Decoded?
  {
    if event.wheelDown then KeyDown(t) else Step(t, [])
  }

  /** Whether a decoded mouse event raises: a request of one of its three parts fails. */
  predicate MouseFails(s: State, event: MouseEvent)
    requires event.Decoded?
  {
    var c := ClickPart(s, event);
    var u := WheelUpPart(c.next, event);
    StepFails(c) || StepFails(u) || StepFails(WheelDownPart(u.next, event))
  }

  /**
   * The mouse branch: click first, then a wheel-up tick, then a wheel-down
   * tick; a write that raises ends the branch there.
   */
  function OnMouse(s: State, event: MouseEvent): (r: Reaction)
    ensures SameData(s, r.next)
    ensures r.reply.Returned? ==> r.reply.handled == event.Decoded?
    ensures event.DecodeFailed? ==> r == Reaction(s, [], Returned(false))
    ensures event.Decoded? ==> (r.reply.IndexError? <==> MouseFails(s, event))
    ensures event.Decoded? ==>
              var c := ClickPart(s, event);
              var u := WheelUpPart(c.next, event);
              r.next == if StepFails(c) then c.next else if StepFails(u) then u.next else WheelDownPart(u.next, event).next
    ensures r.reply.IndexError? ==> |r.draws| > 0 && DrawFails(r.next, r.draws[|r.draws| - 1])
  {
    match event
    case DecodeFailed => Reaction(s, [], Returned(false))
    case Decoded(_, _, _, _) =>
      var a := Finish(ClickPart(s, event), true);
      if a.reply.IndexError? then a
      else
        var b := Then(a, Finish(WheelUpPart(a.next, event), true));
        if b.reply.IndexError? then b
        else Then(b, Finish(WheelDownPart(b.next, event), true))
  }

  /** Space once the mark is flipped: advance as `key_down` does, or rewrite the row on the last row. */
  function SpaceStep(t: State): (r: Step)
    ensures SameData(t, r.next)
    ensures Valid(t) ==> Valid(r.next)
  {
    if t.current < t.offset + t.lineCount - 1 then
      Step(t.(current := t.current + 1), [WriteRow(t.current), WriteRow(t.current + 1), Refresh])
    else if t.offset + t.lineCount < t.listLength then
      Step(t.(offset := t.offset + 1, current := t.current + 1), [DrawList])
    else
      Step(t, [WriteRow(t.current), Refresh])
  }

  /** The state with the current row's mark flipped. */
  function Flip(s: State): State
    requires PyIndex(|s.selected|, s.current).Some?
  {
    s.(selected := Toggle(s.selected, PyIndex(|s.selected|, s.current).value))
  }

  /** Space: flip the current row's mark, then advance. */
  function OnSpace(s: State): (r: Reaction)
    ensures r.reply != Returned(true)
    ensures PyIndex(|s.selected|, s.current).None? ==> r == Reaction(s, [], IndexError)
    ensures PyIndex(|s.selected|, s.current).Some? ==>
              && r.next.selected == Toggle(s.selected, PyIndex(|s.selected|, s.current).value)
              && (r.reply.IndexError? ==> |r.draws| > 0 && DrawFails(r.next, r.draws[|r.draws| - 1]))
    ensures r.reply.IndexError? <==> PyIndex(|s.selected|, s.current).None? || StepFails(SpaceStep(Flip(s)))
    ensures r.next.listLength == s.listLength && r.next.lineCount == s.lineCount
  {
    match PyIndex(|s.selected|, s.current)
    case None => Reaction(s, [], IndexError)
    case Some(_) => Finish(SpaceStep(Flip(s)), false)
  }

  /** Enter: mark the current row unless some row is already marked. */
  function OnEnter(s: State): (r: Reaction)
    ensures r.reply != Returned(true)
    ensures r.draws == []
    ensures r.reply == IndexError <==> (true !in s.selected && PyIndex(|s.selected|, s.current).None?)
    ensures r.reply.IndexError? ==> r.next == s
    ensures r.next.offset == s.offset && r.next.current == s.current
    ensures r.reply.Returned? ==> true in r.next.selected
  {
    if true !in s.selected then
      match PyIndex(|s.selected|, s.current)
      case None => Reaction(s, [], IndexError)
      case Some(i) =>
        var marked := s.selected[i := true];
        assert marked[i];
        Reaction(s.(selected := marked), [], Returned(false))
    else
      Reaction(s, [], Returned(false))
  }

  /** The movement keys: the arrows (and j, k), the page keys, Home and End (and G). */
  predicate IsMove(cmd: Command) {
    cmd.Up? || cmd.Down? || cmd.PageUp? || cmd.PageDown? || cmd.Home? || cmd.End?
  }

  /** The step a movement key makes, before its drawing is carried out. */
  function MoveStep(s: State, cmd: Command): (r: Step)
    requires IsMove(cmd)
    ensures SameData(s, r.next)
    ensures Valid(s) ==> Valid(r.next)
  {
    match cmd
    case Up => KeyUp(s)
    case Down => KeyDown(s)
    case PageUp => OnPageUp(s)
    case PageDown => OnPageDown(s)
    case Home => OnHome(s)
    case End => OnEnd(s)
  }

  /**
   * `keypress`: the branch for the command. True for the movement and mouse
   * keys, unless a write raises IndexError, which leaves the state as the
   * branch had already changed it.
   */
  function Keypress(s: State, cmd: Command): (r: Reaction)
    ensures r.reply.Returned? ==> (r.reply.handled <==> IsMove(cmd) || (cmd.Mouse? && cmd.event.Decoded?))
    ensures IsMove(cmd) ==>
              var st := MoveStep(s, cmd);
              && r.next == st.next
              && (r.reply.IndexError? <==> StepFails(st))
    ensures cmd.Mouse? && cmd.event.Decoded? ==> (r.reply.IndexError? <==> MouseFails(s, cmd.event))
    ensures cmd.Space? ==>
              (r.reply.IndexError? <==> PyIndex(|s.selected|, s.current).None? || StepFails(SpaceStep(Flip(s))))
    ensures cmd.Enter? ==> (r.reply.IndexError? <==> true !in s.selected && PyIndex(|s.selected|, s.current).None?)
    ensures r.reply.IndexError? ==>
              || ((cmd.Space? || cmd.Enter?) && r == Reaction(s, [], IndexError))
              || (|r.draws| > 0 && DrawFails(r.next, r.draws[|r.draws| - 1]))
    ensures cmd.Other? ==> r == Reaction(s, [], Returned(false))
    ensures r.next.listLength == s.listLength && r.next.lineCount == s.lineCount
    ensures !cmd.Space? && !cmd.Enter? ==> r.next.selected == s.selected
  {
    if IsMove(cmd) then Finish(MoveStep(s, cmd), true)
    else
      match cmd
      case Mouse(event) => OnMouse(s, event)
      case Space => OnSpace(s)
      case Enter => OnEnter(s)
      case Other => Reaction(s, [], Returned(false))
  }

  /** A click at or below the window's top line (or no click at all). */
  predicate ClickBelowTop(cmd: Command) {
    cmd.Mouse? && cmd.event.Decoded? ==> cmd.event.row >= 0
  }

  /** The state after a sequence of commands; an IndexError ends the sequence in the state it left. */
  function Run(s: State, cmds: seq<Command>): State
    decreases |cmds|
  {
    if cmds == [] then s
    else
      var r := Keypress(s, cmds[0]);
      if r.reply.IndexError? then r.next else Run(r.next, cmds[1..])
  }
}
