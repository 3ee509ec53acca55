/**
 * Properties of the viewport/selection state machine: what each key does
 * to a valid state, where it is a no-op, which rows it repaints, and that
 * every sequence of keys keeps the bounds.
 */
module ViewportLemmas {
  import opened Viewport

  // ----- Up and Down -----------------------------------------------------

  /**
   * `key_up` moves the highlight one row up and stops at row 0; the window
   * scrolls by one exactly when the highlight was on its top line.
   */
  lemma KeyUpMovesOneRow(s: State)
    requires Valid(s) && s.listLength > 0
    ensures KeyUp(s).next.current == Max(s.current - 1, 0)
    ensures KeyUp(s).next.offset
            == if s.current == s.offset && s.offset > 0 then s.offset - 1 else s.offset
    ensures KeyUp(s).next == s <==> s.current == 0
  {
  }

  /**
   * `key_down` moves the highlight one row down and stops at the last row;
   * the window scrolls by one exactly when the highlight was on its bottom line.
   */
  lemma KeyDownMovesOneRow(s: State)
    requires Valid(s) && s.listLength > 0
    ensures KeyDown(s).next.current
            == if s.current + 1 < s.listLength then s.current + 1 else s.listLength - 1
    ensures KeyDown(s).next.offset
            == if s.current == s.offset + s.lineCount - 1 && s.current + 1 < s.listLength
               then s.offset + 1 else s.offset
    ensures KeyDown(s).next == s <==> s.current == s.listLength - 1
  {
  }

  // ----- PageUp and PageDown ---------------------------------------------

  /**
   * PageUp first goes to the window's top line; from there it moves the
   * window (and the highlight) back by a page, clamped at row 0.
   */
  lemma PageUpClampsAtTop(s: State)
    requires Valid(s) && s.listLength > 0
    ensures var target := if s.current > s.offset then s.offset else Max(s.offset - s.lineCount, 0);
            && OnPageUp(s).next.current == target
            && OnPageUp(s).next.offset == (if s.current > s.offset then s.offset else target)
    ensures s.current == s.offset && s.offset > s.lineCount ==>
              OnPageUp(s).next.offset == s.offset - s.lineCount
              && OnPageUp(s).next.current == s.current - s.lineCount
    ensures OnPageUp(s).next == s <==> s.current == 0
  {
  }

  /**
   * PageDown first goes to the window's bottom line; from there it moves the
   * window (and the highlight) on by a page, clamped so the window ends at
   * the last row.
   */
  lemma PageDownClampsAtBottom(s: State)
    requires Valid(s) && s.listLength > 0
    ensures var bottomLine := s.offset + s.lineCount - 1;
            && OnPageDown(s).next.current
               == (if s.current < bottomLine then bottomLine
                   else if s.current + s.lineCount < s.listLength then s.current + s.lineCount
                   else s.listLength - 1)
            && OnPageDown(s).next.offset
               == (if s.current < bottomLine then s.offset
                   else if s.offset + s.lineCount < s.listLength - s.lineCount then s.offset + s.lineCount
                   else s.listLength - s.lineCount)
    ensures OnPageDown(s).next == s <==> s.current == s.listLength - 1
  {
  }

  /** Ten rows in a five-line window: two PageDowns from the top give (0, 4), then (5, 9). */
  lemma PageDownTwiceOnTenRows(w: nat)
    ensures var s := State(10, 0, 0, 5, w, Unmarked(10));
            var one := OnPageDown(s).next;
            var two := OnPageDown(one).next;
            one.offset == 0 && one.current == 4 && two.offset == 5 && two.current == 9
  {
  }

  // ----- Home and End ----------------------------------------------------

  /** Home goes to the first row, End to the last with the window ending there; both are idempotent. */
  lemma HomeEndIdempotent(s: State)
    ensures OnHome(s).next.offset == 0 && OnHome(s).next.current == 0
    ensures OnEnd(s).next.current == s.listLength - 1
    ensures OnEnd(s).next.offset + s.lineCount == s.listLength
    ensures OnHome(OnHome(s).next) == OnHome(s)
    ensures OnEnd(OnEnd(s).next) == OnEnd(s)
  {
  }

  /** When the whole list fits in the window, End keeps the window at row 0. */
  lemma EndOnShortList(s: State, maxRows: nat, maxCols: nat)
    requires s.listLength <= maxRows
    ensures var t := OnEnd(Layout(s, maxRows, maxCols)).next;
            t.offset == 0 && t.current == s.listLength - 1
  {
  }

  /** Three rows in a five-line window: three lines are shown and End highlights row 2 at offset 0. */
  lemma EndOnThreeRows(w: nat)
    ensures var s := Layout(Initial(3), 5, w);
            s.lineCount == 3 && OnEnd(s).next.offset == 0 && OnEnd(s).next.current == 2
  {
  }

  /** On an empty list End sets the highlight to row -1. */
  lemma EndOnEmptyList(s: State)
    requires s.listLength == 0
    ensures OnEnd(s).next.current == -1
  {
  }

  // ----- Mouse -----------------------------------------------------------

  /**
   * A click on window row `row` highlights row `offset + row` when that row
   * is shown, and the window's last row when the click lands below it; the
   * window never moves.
   */
  lemma ClickClampsToWindow(s: State, row: nat)
    requires Valid(s) && s.listLength > 0
    ensures OnClick(s, row).next.offset == s.offset
    ensures OnClick(s, row).next.current == s.offset + Min(row, s.lineCount - 1)
    ensures Valid(OnClick(s, row).next)
  {
  }

  /** The bound as written agrees with the intended one except on the row just past the window. */
  lemma ClickAsWrittenDiffersOnlyPastWindow(s: State, row: int)
    requires row != s.lineCount
    ensures ClickAsWritten(s, row) == OnClick(s, row)
  {
  }

  /**
   * As written, a click on the first blank line below a three-row list
   * highlights row 3, which the list does not have, and the state is no
   * longer valid.
   */
  lemma ClickAsWrittenLeavesList()
    ensures var s := State(3, 0, 0, 3, 80, Unmarked(3));
            var t := ClickAsWritten(s, 3).next;
            Valid(s) && t.current == 3 && t.current >= t.listLength && !Valid(t)
  {
  }

  /** One wheel tick with no click is exactly one `key_up` or one `key_down`. */
  lemma WheelTickIsOneKeyMove(s: State, row: int)
    ensures OnMouse(s, Decoded(row, false, true, false)) == Finish(KeyUp(s), true)
    ensures OnMouse(s, Decoded(row, false, false, true)) == Finish(KeyDown(s), true)
  {
    var up := Finish(KeyUp(s), true);
    assert [] + up.draws + [] == up.draws && [] + up.draws == up.draws;
    var down := Finish(KeyDown(s), true);
    assert [] + [] + down.draws == down.draws;
  }

  // ----- Space and Enter -------------------------------------------------

  /** Flipping the same entry twice gives back the mask. */
  lemma ToggleTwice(m: seq<bool>, i: nat)
    requires i < |m|
    ensures Toggle(Toggle(m, i), i) == m
  {
  }

  /**
   * Space flips the highlighted row's mark and no other, then moves exactly
   * as `key_down` does (staying put on the last row), and reports the key as
   * not handled.
   */
  lemma SpaceTogglesAndAdvances(s: State)
    requires Valid(s) && s.listLength > 0
    ensures var r := OnSpace(s);
            && r.reply == Returned(false)
            && r.next.selected == Toggle(s.selected, s.current)
            && r.next.offset == KeyDown(s).next.offset
            && r.next.current == KeyDown(s).next.current
            && Valid(r.next)
  {
    var st := SpaceStep(s.(selected := Toggle(s.selected, s.current)));
    SpaceStepRepaints(s);
    ListRowsDrawSafely(st.next, st.draws, false);
  }

  /** Space on an empty list raises IndexError. */
  lemma SpaceOnEmptyListRaises(s: State)
    requires Valid(s) && s.listLength == 0
    ensures OnSpace(s).reply == IndexError
  {
  }

  /**
   * After End on an empty list and a new three-row list, the highlight is
   * row -1 and Space flips the mark of the last row, as Python's negative
   * index does.
   */
  lemma SpaceAfterEmptyEndMarksLastRow(s: State, maxRows: nat)
    requires s.listLength == 0 && maxRows >= 3
    ensures var t := NewData(OnEnd(s).next, 3, maxRows);
            t.current == -1 && OnSpace(t).next.selected == [false, false, true]
  {
  }

  /**
   * Enter marks the highlighted row when no row is marked (so that one and
   * only that one is marked afterwards), otherwise changes nothing; it never
   * moves the highlight or the window and reports the key as not handled.
   */
  lemma EnterCommitsOneRow(s: State)
    requires Valid(s) && s.listLength > 0
    ensures var r := OnEnter(s);
            && r.reply == Returned(false)
            && r.next.offset == s.offset && r.next.current == s.current
            && (true in s.selected ==> r.next == s)
            && (true !in s.selected ==>
                  |r.next.selected| == s.listLength
                  && forall i :: 0 <= i < s.listLength ==> (r.next.selected[i] <==> i == s.current))
            && OnEnter(r.next) == Reaction(r.next, [], Returned(false))
  {
  }

  // ----- Layout and new data ---------------------------------------------

  /** The first layout of a new widget in a window with at least one line gives a valid state. */
  lemma FirstLayoutIsValid(n: nat, maxRows: nat, maxCols: nat)
    requires maxRows >= 1
    ensures Valid(Layout(Initial(n), maxRows, maxCols))
  {
  }

  /** A layout to fewer lines does not move the highlight back into the window. */
  lemma LayoutMayLeaveHighlightOutside()
    ensures var s := State(10, 5, 9, 5, 80, Unmarked(10));
            Valid(s) && !Valid(Layout(s, 3, 80))
  {
  }

  /** `new_data` keeps the old position, which a shorter list need not contain. */
  lemma NewDataMayLeaveHighlightOutside()
    ensures var s := State(10, 5, 9, 5, 80, Unmarked(10));
            Valid(s) && !Valid(NewData(s, 3, 5))
  {
  }

  /** Home after `new_data`, in a window with at least one line, gives a valid state. */
  lemma NewDataThenHomeIsValid(s: State, n: nat, maxRows: nat)
    requires maxRows >= 1
    ensures Valid(OnHome(NewData(s, n, maxRows)).next)
  {
  }

  // ----- Drawing that raises --------------------------------------------

  /** `draw_list` raises exactly when the visible range reaches outside the list. */
  lemma DrawListFailsOutsideList(t: State)
    ensures DrawFails(t, DrawList) <==>
              && t.listLength > 0 && t.lineCount > 0
              && (t.offset < -(t.listLength as int) || t.offset + t.lineCount > t.listLength)
  {
    var n := t.listLength as int;
    if t.listLength > 0 && t.lineCount > 0 {
      if t.offset < -n {
        assert PyIndex(t.listLength, t.offset).None?;
      } else if t.offset + t.lineCount > n {
        var last := t.offset + t.lineCount - 1;
        assert PyIndex(t.listLength, last).None?;
      }
    }
  }

  /** In a valid non-empty state, requests that name only rows of the list never raise. */
  lemma ListRowsDrawSafely(t: State, draws: seq<Draw>, handled: bool)
    requires Valid(t) && t.listLength > 0 && WritesListRows(draws, t.listLength)
    ensures Perform(t, draws) == Performed(draws, false)
    ensures Finish(Step(t, draws), handled) == Reaction(t, draws, Returned(handled))
  {
    forall k | 0 <= k < |draws|
      ensures !DrawFails(t, draws[k])
    {
      if draws[k].WriteRow? {
        assert draws[k] in draws;
      } else if draws[k].DrawList? {
        DrawListFailsOutsideList(t);
      }
    }
  }

  /**
   * A list replaced by a shorter one keeps the old position: Up then moves
   * the highlight from row 9 to row 8 and raises on writing row 9, which
   * the three-row list does not have.
   */
  lemma UpAfterShorterDataRaises(w: nat)
    ensures var s := NewData(State(10, 5, 9, 5, w, Unmarked(10)), 3, 5);
            var r := Keypress(s, Up);
            r.reply == IndexError && r.next.current == 8 && r.draws == [WriteRow(9)]
  {
    var s := NewData(State(10, 5, 9, 5, w, Unmarked(10)), 3, 5);
    assert DrawFails(s.(current := 8), WriteRow(9));
  }

  /** After the same shorter list, PageUp moves the window to row 2 and raises redrawing it. */
  lemma PageUpAfterShorterDataRaises(w: nat)
    ensures var s := NewData(State(10, 5, 5, 5, w, Unmarked(10)), 3, 5);
            var r := Keypress(s, PageUp);
            r.reply == IndexError && r.next.offset == 2 && r.next.current == 2 && r.draws == [DrawList]
  {
    var t := NewData(State(10, 5, 5, 5, w, Unmarked(10)), 3, 5).(offset := 2, current := 2);
    DrawListFailsOutsideList(t);
  }

  /** From row 2 of the shorter list, Space flips its mark, moves to row 3 and raises writing it. */
  lemma SpaceAfterShorterDataRaises(w: nat)
    ensures var s := NewData(State(10, 2, 2, 5, w, Unmarked(10)), 3, 5);
            var r := Keypress(s, Space);
            r.reply == IndexError && r.next.current == 3 && r.next.selected == [false, false, true]
            && r.draws == [WriteRow(2), WriteRow(3)]
  {
    var s := NewData(State(10, 2, 2, 5, w, Unmarked(10)), 3, 5);
    var t := s.(selected := Toggle(s.selected, 2), current := 3);
    assert !DrawFails(t, WriteRow(2)) && DrawFails(t, WriteRow(3));
    assert [WriteRow(2), WriteRow(3), Refresh][..2] == [WriteRow(2), WriteRow(3)];
  }

  /** Growing the window of a list scrolled to its end makes the redraw of `draw_window` raise. */
  lemma GrownWindowRedrawRaises(w: nat)
    ensures var s := State(10, 5, 9, 5, w, Unmarked(10));
            Valid(s) && DrawFails(Layout(s, 10, w), DrawList)
  {
    DrawListFailsOutsideList(Layout(State(10, 5, 9, 5, w, Unmarked(10)), 10, w));
  }

  // ----- The whole keypress ---------------------------------------------

  /** From a valid non-empty state the mouse branch raises nothing and keeps the bounds. */
  lemma MouseKeepsValid(s: State, event: MouseEvent)
    requires Valid(s) && s.listLength > 0 && (event.Decoded? ==> event.row >= 0)
    ensures event.Decoded? ==>
              var a := if event.clicked then OnClick(s, event.row) else Step(s, []);
              var b := if event.wheelUp then KeyUp(a.next) else Step(a.next, []);
              var c := if event.wheelDown then KeyDown(b.next) else Step(b.next, []);
              OnMouse(s, event) == Reaction(c.next, a.draws + b.draws + c.draws, Returned(true))
    ensures Valid(OnMouse(s, event).next)
  {
    if event.Decoded? {
      var a := if event.clicked then OnClick(s, event.row) else Step(s, []);
      if event.clicked { ClickRepaints(s, event.row); }
      ListRowsDrawSafely(a.next, a.draws, true);
      var b := if event.wheelUp then KeyUp(a.next) else Step(a.next, []);
      KeyMovesRepaint(a.next);
      ListRowsDrawSafely(b.next, b.draws, true);
      var c := if event.wheelDown then KeyDown(b.next) else Step(b.next, []);
      KeyMovesRepaint(b.next);
      ListRowsDrawSafely(c.next, c.draws, true);
    }
  }

  /** From a valid non-empty state every key keeps the bounds and none raises. */
  lemma KeypressKeepsValid(s: State, cmd: Command)
    requires Valid(s) && s.listLength > 0 && ClickBelowTop(cmd)
    ensures Valid(Keypress(s, cmd).next)
    ensures Keypress(s, cmd).reply != IndexError
  {
    if IsMove(cmd) {
      var st := MoveStep(s, cmd);
      KeyMovesRepaint(s);
      PageMovesRepaint(s);
      ListRowsDrawSafely(st.next, st.draws, true);
    } else {
      match cmd
      case Mouse(event) => MouseKeepsValid(s, event);
      case Space => SpaceTogglesAndAdvances(s);
      case Enter => EnterCommitsOneRow(s);
      case Other =>
    }
  }

  /** Every sequence of keys from a valid non-empty state ends in a valid state. */
  lemma {:induction false} RunKeepsValid(s: State, cmds: seq<Command>)
    requires Valid(s) && s.listLength > 0
    requires forall k :: 0 <= k < |cmds| ==> ClickBelowTop(cmds[k])
    ensures Valid(Run(s, cmds))
    decreases |cmds|
  {
    if cmds != [] {
      var r := Keypress(s, cmds[0]);
      KeypressKeepsValid(s, cmds[0]);
      RunKeepsValid(r.next, cmds[1..]);
    }
  }

  // ----- Partial redraw --------------------------------------------------

  /** Whether row `i` changed its look (highlight or mark) between two states. */
  predicate LookChanged(s: State, t: State, i: nat)
    requires i < |s.selected| && i < |t.selected|
  {
    (i == s.current) != (i == t.current) || s.selected[i] != t.selected[i]
  }

  /**
   * The drawing requests bring the screen up to date: either the whole
   * window is redrawn, or the window did not move and every row whose look
   * changed is written.
   */
  predicate Repaints(s: State, t: State, draws: seq<Draw>)
    requires |s.selected| == |t.selected|
  {
    || DrawList in draws
    || (&& t.offset == s.offset && t.lineCount == s.lineCount
        && forall i :: 0 <= i < |s.selected| && LookChanged(s, t, i) ==> WriteRow(i) in draws)
  }

  /** Every written row is a row of the list, so its lookup never fails. */
  predicate WritesListRows(draws: seq<Draw>, n: nat) {
    forall d :: d in draws && d.WriteRow? ==> 0 <= d.index < n
  }

  lemma {:induction false} RepaintsCompose(s: State, t: State, u: State, d1: seq<Draw>, d2: seq<Draw>)
    requires |s.selected| == |t.selected| == |u.selected|
    requires Repaints(s, t, d1) && Repaints(t, u, d2)
    ensures Repaints(s, u, d1 + d2)
  {
    if DrawList in d1 || DrawList in d2 {
      assert DrawList in d1 + d2;
    } else {
      forall i | 0 <= i < |s.selected| && LookChanged(s, u, i)
        ensures WriteRow(i) in d1 + d2
      {
        if LookChanged(s, t, i) {
          assert WriteRow(i) in d1;
        } else {
          assert LookChanged(t, u, i);
          assert WriteRow(i) in d2;
        }
      }
    }
  }

  /** A step from a valid non-empty state that repaints what it changes and writes only list rows. */
  predicate RepaintingStep(s: State, st: Step)
    requires Valid(s) && SameData(s, st.next)
  {
    Repaints(s, st.next, st.draws) && WritesListRows(st.draws, s.listLength)
  }

  lemma KeyMovesRepaint(s: State)
    requires Valid(s) && s.listLength > 0
    ensures RepaintingStep(s, KeyUp(s)) && RepaintingStep(s, KeyDown(s))
  {
  }

  lemma PageMovesRepaint(s: State)
    requires Valid(s) && s.listLength > 0
    ensures RepaintingStep(s, OnPageUp(s)) && RepaintingStep(s, OnPageDown(s))
    ensures RepaintingStep(s, OnHome(s)) && RepaintingStep(s, OnEnd(s))
  {
  }

  lemma ClickRepaints(s: State, row: int)
    requires Valid(s) && s.listLength > 0 && row >= 0
    ensures RepaintingStep(s, OnClick(s, row))
  {
  }

  lemma MouseRepaints(s: State, event: MouseEvent)
    requires Valid(s) && s.listLength > 0 && (event.Decoded? ==> event.row >= 0)
    ensures Repaints(s, OnMouse(s, event).next, OnMouse(s, event).draws)
    ensures WritesListRows(OnMouse(s, event).draws, s.listLength)
  {
    MouseKeepsValid(s, event);
    if event.Decoded? {
      var a := if event.clicked then OnClick(s, event.row) else Step(s, []);
      if event.clicked { ClickRepaints(s, event.row); }
      var b := if event.wheelUp then KeyUp(a.next) else Step(a.next, []);
      KeyMovesRepaint(a.next);
      var c := if event.wheelDown then KeyDown(b.next) else Step(b.next, []);
      KeyMovesRepaint(b.next);
      RepaintsCompose(s, a.next, b.next, a.draws, b.draws);
      RepaintsCompose(s, b.next, c.next, a.draws + b.draws, c.draws);
    }
  }

  /** The advance after the flip writes the flipped row (or redraws the window), and only list rows. */
  lemma SpaceStepRepaints(s: State)
    requires Valid(s) && s.listLength > 0
    ensures var st := SpaceStep(s.(selected := Toggle(s.selected, s.current)));
            && Repaints(s, st.next, st.draws) && WritesListRows(st.draws, s.listLength)
            && Valid(st.next)
  {
  }

  lemma SpaceRepaints(s: State)
    requires Valid(s) && s.listLength > 0
    ensures Repaints(s, OnSpace(s).next, OnSpace(s).draws)
    ensures WritesListRows(OnSpace(s).draws, s.listLength)
  {
    SpaceTogglesAndAdvances(s);
    SpaceStepRepaints(s);
  }

  /**
   * Every key except Enter repaints what it changes, and writes only rows of
   * the list: moving within the window writes the old and the new highlighted
   * row, moving the window redraws it whole.
   */
  lemma KeypressRepaintsChanges(s: State, cmd: Command)
    requires Valid(s) && s.listLength > 0 && ClickBelowTop(cmd) && !cmd.Enter?
    ensures |Keypress(s, cmd).next.selected| == |s.selected|
    ensures Repaints(s, Keypress(s, cmd).next, Keypress(s, cmd).draws)
    ensures WritesListRows(Keypress(s, cmd).draws, s.listLength)
  {
    if IsMove(cmd) {
      var st := MoveStep(s, cmd);
      KeyMovesRepaint(s);
      PageMovesRepaint(s);
      ListRowsDrawSafely(st.next, st.draws, true);
    } else {
      match cmd
      case Mouse(event) => MouseRepaints(s, event);
      case Space => SpaceRepaints(s);
      case _ =>
    }
  }

  /** Enter changes the highlighted row's mark without writing it. */
  lemma EnterSkipsRepaint(w: nat)
    ensures var s := State(3, 0, 1, 3, w, Unmarked(3));
            var r := OnEnter(s);
            Valid(s) && r.draws == [] && !Repaints(s, r.next, r.draws)
  {
    var s := State(3, 0, 1, 3, w, Unmarked(3));
    var r := OnEnter(s);
    assert LookChanged(s, r.next, 1);
  }
}
