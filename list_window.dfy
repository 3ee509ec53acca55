/**
 * The single-column list window: the widget object whose methods update its
 * viewport fields and its selection mask in place. Each method's effect is
 * the matching function of module `Viewport` applied to the old state.
 */
module ListWindows {
  import opened Viewport

  /** What `write_row(index)` does: fails to look the row up, skips it, or draws it. */
  datatype RowDraw =
    | NoSuchRow
    | Skipped
    | Drawn(line: nat, highlighted: bool, marked: bool)

  class ListWindow<R> {
    var rows: seq<R>
    var listLength: nat
    var offset: int
    var current: int
    var lineCount: nat
    var width: nat
    var selected: seq<bool>

    /** The list, its length and the mask agree; `__init__` and `new_data` set them together. */
    ghost predicate Consistent()
      reads this
    {
      listLength == |rows| && |selected| == listLength
    }

    ghost function View(): State
      reads this
    {
      State(listLength, offset, current, lineCount, width, selected)
    }

    constructor (data: seq<R>)
      ensures Consistent() && rows == data
      ensures View() == Initial(|data|)
    {
      rows := data;
      listLength := |data|;
      offset := 0;
      current := 0;
      lineCount := 0;
      width := 0;
      selected := Unmarked(|data|);
    }

    /** `draw_window` for a window of `maxRows` by `maxCols` cells; true when its redraw raises. */
    method DrawWindow(maxRows: nat, maxCols: nat) returns (raised: bool)
      requires Consistent()
      modifies this
      ensures Consistent() && rows == old(rows) && View() == Layout(old(View()), maxRows, maxCols)
      ensures raised <==> DrawFails(View(), Draw.DrawList)
    {
      lineCount := Min(listLength, maxRows);
      width := maxCols;
      var ok := DrawList();
      raised := !ok;
    }

    /** The guard of `write_row`: the row is looked up first, then drawn only if visible. */
    method WriteRow(index: int) returns (r: RowDraw)
      requires Consistent()
      ensures r.NoSuchRow? <==> PyIndex(|rows|, index).None?
      ensures r.Drawn? <==> PyIndex(|rows|, index).Some? && RowVisible(View(), index)
      ensures r.Drawn? ==>
                && r.line == index - offset && r.line < lineCount
                && r.highlighted == (index == current)
                && r.marked == selected[PyIndex(|rows|, index).value]
    {
      var k := PyIndex(|rows|, index);
      if k.None? {
        return NoSuchRow;
      }
      var line := index - offset;
      if line < 0 || line > lineCount - 1 {
        return Skipped;
      }
      r := Drawn(line, index == current, selected[k.value]);
    }

    /** `draw_list`: writes the rows of the window, top to bottom; false when a lookup raises. */
    method DrawList() returns (ok: bool)
      requires Consistent()
      ensures ok <==> !DrawFails(View(), Draw.DrawList)
    {
      if listLength > 0 {
        var idx := offset;
        while idx < offset + lineCount
          invariant offset <= idx <= offset + lineCount
          invariant forall i :: offset <= i < idx ==> PyIndex(listLength, i).Some?
          decreases offset + lineCount - idx
        {
          var r := WriteRow(idx);
          if r.NoSuchRow? {
            return false;
          }
          idx := idx + 1;
        }
      }
      return true;
    }

    /** Carries out drawing requests in order, stopping at the first that raises. */
    method Perform(requests: seq<Draw>) returns (drawn: seq<Draw>, failed: bool)
      requires Consistent()
      ensures Performed(drawn, failed) == Viewport.Perform(View(), requests)
    {
      var k := 0;
      while k < |requests|
        invariant 0 <= k <= |requests|
        invariant forall j :: 0 <= j < k ==> !DrawFails(View(), requests[j])
      {
        var ok := true;
        match requests[k] {
          case WriteRow(i) =>
            var r := WriteRow(i);
            ok := !r.NoSuchRow?;
          case DrawList =>
            ok := DrawList();
          case Refresh =>
        }
        if !ok {
          ghost var p := Viewport.Perform(View(), requests);
          assert DrawFails(View(), requests[|p.drawn| - 1]);
          assert |p.drawn| == k + 1;
          return requests[..k + 1], true;
        }
        k := k + 1;
      }
      return requests, false;
    }

    /** A branch's drawing requests carried out, with the reply they lead to. */
    method Finish(requests: seq<Draw>, handled: bool) returns (reply: Reply, drawn: seq<Draw>)
      requires Consistent()
      ensures Viewport.Finish(Step(View(), requests), handled) == Reaction(View(), drawn, reply)
    {
      var failed;
      drawn, failed := Perform(requests);
      reply := if failed then IndexError else Returned(handled);
    }

    /** `new_data` with a window of `maxRows` lines. */
    method NewData(data: seq<R>, maxRows: nat)
      requires Consistent()
      modifies this
      ensures Consistent() && rows == data
      ensures View() == Viewport.NewData(old(View()), |data|, maxRows)
    {
      rows := data;
      listLength := |data|;
      selected := Unmarked(listLength);
      lineCount := Min(listLength, maxRows);
    }

    method KeyUp() returns (reply: Reply, drawn: seq<Draw>)
      requires Consistent()
      modifies this
      ensures Consistent() && rows == old(rows)
      ensures Viewport.Finish(Viewport.KeyUp(old(View())), true) == Reaction(View(), drawn, reply)
    {
      var requests;
      if current > offset {
        current := current - 1;
        requests := [Draw.WriteRow(current + 1), Draw.WriteRow(current), Refresh];
      } else if offset > 0 {
        offset := offset - 1;
        current := current - 1;
        requests := [Draw.DrawList];
      } else {
        requests := [];
      }
      reply, drawn := Finish(requests, true);
    }

    method KeyDown() returns (reply: Reply, drawn: seq<Draw>)
      requires Consistent()
      modifies this
      ensures Consistent() && rows == old(rows)
      ensures Viewport.Finish(Viewport.KeyDown(old(View())), true) == Reaction(View(), drawn, reply)
    {
      var requests;
      if current < offset + lineCount - 1 {
        current := current + 1;
        requests := [Draw.WriteRow(current - 1), Draw.WriteRow(current), Refresh];
      } else if offset + lineCount < listLength {
        offset := offset + 1;
        current := current + 1;
        requests := [Draw.DrawList];
      } else {
        requests := [];
      }
      reply, drawn := Finish(requests, true);
    }

    /** `keypress`: the reply is the returned flag, or the IndexError it raises. */
    method Keypress(cmd: Command) returns (reply: Reply, drawn: seq<Draw>)
      requires Consistent()
      modifies this
      ensures Consistent() && rows == old(rows)
      ensures Viewport.Keypress(old(View()), cmd) == Reaction(View(), drawn, reply)
    {
      ghost var s := View();
      match cmd
      case Up =>
        reply, drawn := KeyUp();
      case Down =>
        reply, drawn := KeyDown();
      case PageUp =>
        var requests;
        if current > offset {
          var oldItem := current;
          current := offset;
          requests := [Draw.WriteRow(oldItem), Draw.WriteRow(current), Refresh];
        } else if offset > 0 {
          if offset > lineCount {
            offset := offset - lineCount;
            current := current - lineCount;
          } else {
            current, offset := 0, 0;
          }
          requests := [Draw.DrawList];
        } else {
          requests := [];
        }
        assert Step(View(), requests) == OnPageUp(s);
        reply, drawn := Finish(requests, true);
      case PageDown =>
        var bottomLine := offset + lineCount - 1;
        var requests;
        if current < bottomLine {
          var oldItem := current;
          current := bottomLine;
          requests := [Draw.WriteRow(oldItem), Draw.WriteRow(current), Refresh];
        } else if offset + lineCount < listLength {
          if offset + lineCount * 2 < listLength {
            offset := offset + lineCount;
            current := current + lineCount;
          } else {
            offset := listLength - lineCount;
            current := listLength - 1;
          }
          requests := [Draw.DrawList];
        } else {
          requests := [];
        }
        assert Step(View(), requests) == OnPageDown(s);
        reply, drawn := Finish(requests, true);
      case Home =>
        current, offset := 0, 0;
        assert Step(View(), [Draw.DrawList]) == OnHome(s);
        reply, drawn := Finish([Draw.DrawList], true);
      case End =>
        offset := listLength - lineCount;
        current := listLength - 1;
        assert Step(View(), [Draw.DrawList]) == OnEnd(s);
        reply, drawn := Finish([Draw.DrawList], true);
      case Mouse(event) =>
        reply, drawn := MouseBranch(event);
      case Space =>
        reply, drawn := SpaceBranch();
      case Enter =>
        var k := PyIndex(|selected|, current);
        if true !in selected {
          if k.None? {
            return IndexError, [];
          }
          selected := selected[k.value := true];
        }
        reply, drawn := Returned(false), [];
      case Other =>
        reply, drawn := Returned(false), [];
    }

    /** The click part of the mouse branch: move the highlight to the clicked line. */
    method Click(row: int) returns (reply: Reply, drawn: seq<Draw>)
      requires Consistent()
      modifies this
      ensures Consistent() && rows == old(rows)
      ensures Viewport.Finish(OnClick(old(View()), row), true) == Reaction(View(), drawn, reply)
    {
      var oldItem := current;
      var clickLine := row + offset;
      if clickLine < offset + lineCount {
        current := clickLine;
      } else {
        current := offset + lineCount - 1;
      }
      reply, drawn := Finish([Draw.WriteRow(oldItem), Draw.WriteRow(current), Refresh], true);
    }

    /** The mouse branch of `keypress`. */
    method MouseBranch(event: MouseEvent) returns (reply: Reply, drawn: seq<Draw>)
      requires Consistent()
      modifies this
      ensures Consistent() && rows == old(rows)
      ensures OnMouse(old(View()), event) == Reaction(View(), drawn, reply)
    {
      if event.DecodeFailed? {
        return Returned(false), [];
      }
      ghost var s := View();
      if event.clicked {
        reply, drawn := Click(event.row);
      } else {
        reply, drawn := Finish([], true);
      }
      ghost var a := Viewport.Finish(ClickPart(s, event), true);
      assert a == Reaction(View(), drawn, reply);
      if reply.IndexError? {
        return;
      }
      var r, d;
      if event.wheelUp {
        r, d := KeyUp();
      } else {
        r, d := Finish([], true);
      }
      ghost var b := Viewport.Finish(WheelUpPart(a.next, event), true);
      assert b == Reaction(View(), d, r);
      reply, drawn := r, drawn + d;
      if reply.IndexError? {
        return;
      }
      if event.wheelDown {
        r, d := KeyDown();
      } else {
        r, d := Finish([], true);
      }
      ghost var c := Viewport.Finish(WheelDownPart(b.next, event), true);
      assert c == Reaction(View(), d, r);
      reply, drawn := r, drawn + d;
    }

    /** The Space branch of `keypress`. */
    method SpaceBranch() returns (reply: Reply, drawn: seq<Draw>)
      requires Consistent()
      modifies this
      ensures Consistent() && rows == old(rows)
      ensures OnSpace(old(View())) == Reaction(View(), drawn, reply)
    {
      var k := PyIndex(|selected|, current);
      if k.None? {
        return IndexError, [];
      }
      selected := selected[k.value := !selected[k.value]];
      ghost var t := View();
      var requests;
      if current < offset + lineCount - 1 {
        current := current + 1;
        requests := [Draw.WriteRow(current - 1), Draw.WriteRow(current), Refresh];
      } else if offset + lineCount < listLength {
        offset := offset + 1;
        current := current + 1;
        requests := [Draw.DrawList];
      } else {
        requests := [Draw.WriteRow(current), Refresh];
      }
      assert Step(View(), requests) == SpaceStep(t);
      reply, drawn := Finish(requests, false);
    }
  }
}
