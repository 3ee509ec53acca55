/**
 * The multi-column list window. It is the single-column window (held here
 * as `view`, whose navigation it shares) plus a column-width specification
 * and one sub-window per column. `draw_window` resolves the auto widths in
 * the specification itself, then places the columns left to right.
 */
module MultiColumn {
  import opened Viewport
  import opened ColumnLayout
  import opened ListWindows

  /** A sub-window: its height and width, and its screen row and column. */
  datatype Frame = Frame(rows: nat, cols: int, y: int, x: int)

  /** The sub-windows for columns of widths `ws` starting at screen columns `xs`. */
  function Frames(maxRows: nat, ws: seq<int>, begY: int, xs: seq<int>): (fs: seq<Option<Frame>>)
    requires |xs| == |ws|
    ensures |fs| == |ws|
  {
    seq(|ws|, i requires 0 <= i < |ws| => Some(Frame(maxRows, ws[i], begY, xs[i])))
  }

  /** One more column's sub-window. */
  lemma FramesSnoc(maxRows: nat, ws: seq<int>, n: nat, begY: int, xs: seq<int>, x: int)
    requires n < |ws| && |xs| == n
    ensures Frames(maxRows, ws[..n + 1], begY, xs + [x])
            == Frames(maxRows, ws[..n], begY, xs) + [Some(Frame(maxRows, ws[n], begY, x))]
  {
  }

  /** Writing `v` at position `n` extends the prefix before `n` by `v`. */
  lemma UpdatePrefix<T>(s: seq<T>, n: nat, v: T)
    requires n < |s|
    ensures s[n := v][..n + 1] == s[..n] + [v]
  {
  }

  /**
   * The placement loop's invariants survive the turn at column `sw`, which
   * gives that column the sub-window at screen column `begX + x` and moves
   * on to window column `x'`.
   */
  lemma PlaceTurn(maxRows: nat, ws: seq<int>, sw: nat, begY: int, begX: int, limit: int,
                  x: int, origins: seq<int>, separators: seq<int>, xs: seq<int>, sub: seq<Option<Frame>>)
      returns (x': int, seps': seq<int>)
    requires sw < |ws| == |sub| && |origins| == sw
    requires var rest := Walk(ws[sw..], x, limit);
             Walk(ws, 0, limit) == Placement(origins + rest.origins, separators + rest.separators)
    requires xs == Shift(origins, begX)
    requires sub[..sw] == Frames(maxRows, ws[..sw], begY, xs)
    ensures x' == if x + ws[sw] < limit then x + ws[sw] + 1 else x + ws[sw]
    ensures seps' == if x + ws[sw] < limit then separators + [x + ws[sw]] else separators
    ensures var rest := Walk(ws[sw + 1..], x', limit);
            Walk(ws, 0, limit) == Placement((origins + [x]) + rest.origins, seps' + rest.separators)
    ensures xs + [begX + x] == Shift(origins + [x], begX)
    ensures sub[sw := Some(Frame(maxRows, ws[sw], begY, begX + x))][..sw + 1]
            == Frames(maxRows, ws[..sw + 1], begY, xs + [begX + x])
  {
    x', seps' := WalkAdvance(ws, sw, x, limit, origins, separators);
    FramesSnoc(maxRows, ws, sw, begY, xs, begX + x);
    ShiftSnoc(origins, x, begX);
    UpdatePrefix(sub, sw, Some(Frame(maxRows, ws[sw], begY, begX + x)));
  }

  /** When the placement loop has passed the last column, it has built the corrected placement. */
  lemma PlaceDone(maxRows: nat, ws: seq<int>, begY: int, begX: int, limit: int,
                  x: int, origins: seq<int>, separators: seq<int>, xs: seq<int>, sub: seq<Option<Frame>>)
    requires |ws| == |sub| == |origins|
    requires var rest := Walk(ws[|ws|..], x, limit);
             Walk(ws, 0, limit) == Placement(origins + rest.origins, separators + rest.separators)
    requires xs == Shift(origins, begX)
    requires sub[..|ws|] == Frames(maxRows, ws[..|ws|], begY, xs)
    ensures var p := Place(ws, begX, limit);
            separators == p.separators && sub == Frames(maxRows, ws, begY, p.origins)
  {
    WalkDone(ws, x, limit, origins, separators);
    assert ws[..|ws|] == ws && sub[..|ws|] == sub;
  }

  /** Writing `w` at the first position of `rest` in `done + rest`. */
  lemma SpliceAt(done: seq<int>, rest: seq<int>, w: int)
    requires |rest| > 0
    ensures (done + rest)[|done| := w] == (done + [w]) + rest[1..]
    ensures (done + rest)[|done|] == rest[0]
  {
  }

  /**
   * The allocation loop's invariants survive the turn at column `c` of
   * `spec`, where the array holds `cur`: the turn stores `w` there and
   * leaves `leftover'` cells for the `divisor'` auto columns still to come.
   */
  lemma AllocateTurn(spec: seq<int>, c: nat, done: seq<int>, cur: seq<int>, leftover0: int, leftover: int, divisor: nat)
      returns (w: int, leftover': int, divisor': nat)
    requires c < |spec| && |done| == c && cur == done + spec[c..]
    requires divisor == CountAuto(spec[c..])
    requires Resolve(spec, leftover0, CountAuto(spec)) == done + Resolve(spec[c..], leftover, divisor)
    ensures cur[c] == spec[c] && (spec[c] == 0 ==> divisor > 0)
    ensures w == if spec[c] == 0 then TruncDiv(leftover, divisor) else spec[c]
    ensures leftover' == if spec[c] == 0 then leftover - w else leftover
    ensures divisor' == (if spec[c] == 0 then divisor - 1 else divisor) == CountAuto(spec[c + 1..])
    ensures Resolve(spec, leftover0, CountAuto(spec)) == (done + [w]) + Resolve(spec[c + 1..], leftover', divisor')
    ensures cur[c := w] == (done + [w]) + spec[c + 1..]
  {
    w, leftover', divisor' := ResolveAdvance(spec, c, done, leftover0, leftover, divisor);
    SpliceAt(done, spec[c..], w);
    assert spec[c..][1..] == spec[c + 1..];
  }

  class MultiColumnListWindow {
    const view: ListWindow<seq<string>>
    /** The specification the window was given: the caller's array itself, not a copy. */
    const colwidths: array<int>
    const numcols: nat
    var subwin: seq<Option<Frame>>

    ghost predicate Valid()
      reads this, view
    {
      numcols == colwidths.Length && |subwin| == numcols && view.Consistent()
    }

    constructor (data: seq<seq<string>>, colwidths: array<int>)
      ensures Valid() && fresh(view)
      ensures this.colwidths == colwidths && view.rows == data
      ensures view.View() == Initial(|data|)
      ensures forall i :: 0 <= i < |subwin| ==> subwin[i].None?
    {
      view := new ListWindow(data);
      this.colwidths := colwidths;
      numcols := colwidths.Length;
      subwin := seq(colwidths.Length, _ => None);
    }

    /**
     * `draw_window` for a window of `maxRows` by `maxCols` cells at screen
     * position (`begY`, `begX`): the rows that fit, the resolved widths
     * written back into `colwidths`, one sub-window per column, and the
     * window columns of the separators; `raised` when the closing `draw_list`
     * looks up a row the list does not have.
     */
    method DrawWindow(maxRows: nat, maxCols: nat, begY: int, begX: int) returns (separators: seq<int>, raised: bool)
      requires Valid()
      modifies this, view, colwidths
      ensures Valid()
      ensures view.rows == old(view.rows) && view.View() == Layout(old(view.View()), maxRows, maxCols)
      ensures colwidths[..] == Allocate(old(colwidths[..]), maxCols)
      ensures var p := Place(colwidths[..], begX, maxCols);
              separators == p.separators && subwin == Frames(maxRows, colwidths[..], begY, p.origins)
      ensures raised <==> DrawFails(view.View(), Draw.DrawList)
    {
      view.lineCount := Min(view.listLength, maxRows);
      view.width := maxCols;
      AllocateWidths(maxCols);
      separators := PlaceColumns(maxRows, maxCols, begY, begX);
      var ok := view.DrawList();
      raised := !ok;
    }

    /** The width allocation of `draw_window`, in place. */
    method AllocateWidths(maxCols: int)
      requires numcols == colwidths.Length
      modifies colwidths
      ensures colwidths[..] == Allocate(old(colwidths[..]), maxCols)
    {
      var widthSum := Sum(colwidths[..]);
      var leftover := maxCols - widthSum - (numcols - 1);
      var undefinedCols := AutoFlags(colwidths[..]);
      var divisor := CountAuto(colwidths[..]);
      ShareLeftover(leftover, undefinedCols, divisor);
    }

    /** The loop that shares `leftover` among the `divisor` auto columns flagged in `undefinedCols`. */
    method ShareLeftover(leftover: int, undefinedCols: seq<bool>, divisor: nat)
      requires numcols == colwidths.Length
      requires undefinedCols == AutoFlags(colwidths[..]) && divisor == CountAuto(colwidths[..])
      modifies colwidths
      ensures colwidths[..] == Resolve(old(colwidths[..]), leftover, divisor)
    {
      ghost var spec := colwidths[..];
      ghost var done: seq<int> := [];
      var left, count := leftover, divisor;
      var c := 0;
      while c < numcols
        invariant 0 <= c <= numcols && |done| == c
        invariant colwidths[..] == done + spec[c..]
        invariant count == CountAuto(spec[c..])
        invariant Resolve(spec, leftover, divisor) == done + Resolve(spec[c..], left, count)
      {
        ghost var before := colwidths[..];
        ghost var w, left', count' := AllocateTurn(spec, c, done, before, leftover, left, count);
        assert undefinedCols[c] == (spec[c] == 0);
        if undefinedCols[c] {
          var share := TruncDiv(left, count);
          colwidths[c] := share;
          assert colwidths[..] == before[c := w];
          left := left - share;
          count := count - 1;
        }
        assert colwidths[..] == (done + [w]) + spec[c + 1..];
        assert left == left' && count == count';
        done := done + [w];
        c := c + 1;
      }
      assert spec[numcols..] == [] && done + [] == done;
    }

    /** The loop that places the columns and their separators left to right. */
    method PlaceColumns(maxRows: nat, maxCols: int, begY: int, begX: int) returns (separators: seq<int>)
      requires numcols == colwidths.Length && |subwin| == numcols
      modifies this
      ensures |subwin| == numcols
      ensures var p := Place(colwidths[..], begX, maxCols);
              separators == p.separators && subwin == Frames(maxRows, colwidths[..], begY, p.origins)
    {
      ghost var ws := colwidths[..];
      ghost var origins: seq<int> := [];
      ghost var xs: seq<int> := [];
      separators := [];
      var x := 0;
      var sw := 0;
      while sw < numcols
        invariant 0 <= sw <= numcols && |subwin| == numcols && |origins| == sw
        invariant var rest := Walk(ws[sw..], x, maxCols);
                  Walk(ws, 0, maxCols) == Placement(origins + rest.origins, separators + rest.separators)
        invariant xs == Shift(origins, begX)
        invariant subwin[..sw] == Frames(maxRows, ws[..sw], begY, xs)
        invariant colwidths[..] == ws
      {
        ghost var nextX, nextSeparators := PlaceTurn(maxRows, ws, sw, begY, begX, maxCols, x, origins, separators, xs, subwin);
        var w := colwidths[sw];
        assert w == ws[sw];
        subwin := subwin[sw := Some(Frame(maxRows, w, begY, begX + x))];
        origins := origins + [x];
        xs := xs + [begX + x];
        if x + w < maxCols {
          separators := separators + [x + w];
          x := x + w + 1;
        } else {
          x := x + w;
        }
        assert x == nextX && separators == nextSeparators;
        sw := sw + 1;
      }
      PlaceDone(maxRows, ws, begY, begX, maxCols, x, origins, separators, xs, subwin);
    }
  }

  /**
   * The default specification `[0]` is evaluated once, so windows created
   * without one share it: laying out the first in 40 columns leaves the
   * second with the fixed width 40 and no auto column.
   */
  method SharedDefaultWidths(data: seq<seq<string>>) returns (seen: seq<int>)
    ensures seen == [40]
  {
    var defaults := new int[1];
    defaults[0] := 0;
    var first := new MultiColumnListWindow(data, defaults);
    var second := new MultiColumnListWindow(data, defaults);
    assert defaults[..] == [0];
    assert Allocate([0], 40) == [40] by {
      assert Sum([0]) == 0 && CountAuto([0]) == 1 && TruncDiv(40, 1) == 40;
    }
    var _, _ := first.DrawWindow(10, 40, 0, 0);
    seen := second.colwidths[..];
  }
}
