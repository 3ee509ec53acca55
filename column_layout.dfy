/**
 * Column widths and column positions of the multi-column list window.
 *
 * A width specification is a sequence of integers; `0` marks an auto-width
 * column. The space left after the fixed columns and the one-cell
 * separators is shared among the auto columns from left to right: each
 * takes the remaining space divided by the number of auto columns still to
 * come, rounded toward zero.
 */
module ColumnLayout {

  /** `sum(colwidths)`. */
  function Sum(ws: seq<int>): int
    decreases |ws|
  {
    if ws == [] then 0 else ws[0] + Sum(ws[1..])
  }

  /** Widths none of which is negative have a total that is not negative. */
  lemma {:induction false} SumNonNegative(ws: seq<int>)
    requires NonNegative(ws)
    ensures Sum(ws) >= 0
    decreases |ws|
  {
    if ws != [] {
      assert NonNegative(ws[1..]) by {
        forall i | 0 <= i < |ws[1..]| ensures ws[1..][i] >= 0 { assert ws[1..][i] == ws[i + 1]; }
      }
      SumNonNegative(ws[1..]);
    }
  }

  /** The `undefined_cols` flags: whether each column is auto-width. */
  function AutoFlags(ws: seq<int>): (f: seq<bool>)
    ensures |f| == |ws| && forall i :: 0 <= i < |ws| ==> (f[i] <==> ws[i] == 0)
  {
    seq(|ws|, i requires 0 <= i < |ws| => ws[i] == 0)
  }

  /** The number of auto-width columns. */
  function CountAuto(ws: seq<int>): (n: nat)
    ensures n <= |ws|
    decreases |ws|
  {
    if ws == [] then 0 else (if ws[0] == 0 then 1 else 0) + CountAuto(ws[1..])
  }

  /** There is no auto column exactly when no entry is `0`. */
  lemma {:induction false} NoAutoIffNoZero(ws: seq<int>)
    ensures CountAuto(ws) == 0 <==> 0 !in ws
    decreases |ws|
  {
    if ws != [] {
      assert ws == [ws[0]] + ws[1..];
      NoAutoIffNoZero(ws[1..]);
    }
  }

  /** `int(a / d)` for a positive `d`: the quotient rounded toward zero. */
  function TruncDiv(a: int, d: int): (q: int)
    requires d > 0
    ensures a >= 0 ==> q * d <= a < q * d + d
    ensures a < 0 ==> q * d - d < a <= q * d
  {
    if a >= 0 then a / d else -((-a) / d)
  }

  /**
   * The widths after the allocation loop: `leftover` is the space still to
   * share and `divisor` the number of auto columns still to come.
   */
  function Resolve(ws: seq<int>, leftover: int, divisor: nat): (r: seq<int>)
    requires divisor == CountAuto(ws)
    ensures |r| == |ws|
    decreases |ws|
  {
    if ws == [] then []
    else if ws[0] == 0 then
      var w := TruncDiv(leftover, divisor);
      [w] + Resolve(ws[1..], leftover - w, divisor - 1)
    else
      [ws[0]] + Resolve(ws[1..], leftover, divisor)
  }

  /**
   * The widths `draw_window` stores for a window `maxCols` cells wide. With
   * an auto column, the columns and their separators fill the window exactly.
   */
  function Allocate(ws: seq<int>, maxCols: int): (r: seq<int>)
    ensures |r| == |ws|
    ensures forall i :: 0 <= i < |ws| && ws[i] != 0 ==> r[i] == ws[i]
    ensures CountAuto(ws) > 0 ==> Sum(r) + (|ws| - 1) == maxCols
    ensures CountAuto(ws) == 0 ==> r == ws
  {
    ResolveKeepsAndFills(ws, maxCols - Sum(ws) - (|ws| - 1), CountAuto(ws));
    Resolve(ws, maxCols - Sum(ws) - (|ws| - 1), CountAuto(ws))
  }

  /**
   * The loop leaves fixed widths alone and, when there is an auto column,
   * hands out exactly `leftover` cells among the auto columns.
   */
  lemma {:induction false} ResolveKeepsAndFills(ws: seq<int>, leftover: int, divisor: nat)
    requires divisor == CountAuto(ws)
    ensures var r := Resolve(ws, leftover, divisor);
            && (forall i :: 0 <= i < |ws| && ws[i] != 0 ==> r[i] == ws[i])
            && (divisor > 0 ==> Sum(r) == Sum(ws) + leftover)
            && (divisor == 0 ==> r == ws)
    decreases |ws|
  {
    if ws != [] {
      var r := Resolve(ws, leftover, divisor);
      var l := if ws[0] == 0 then leftover - TruncDiv(leftover, divisor) else leftover;
      var d := if ws[0] == 0 then divisor - 1 else divisor;
      ResolveKeepsAndFills(ws[1..], l, d);
      var t := Resolve(ws[1..], l, d);
      assert r == [r[0]] + t;
      forall i | 0 <= i < |ws| && ws[i] != 0
        ensures r[i] == ws[i]
      {
        if i > 0 {
          assert r[i] == t[i - 1] && ws[i] == ws[1..][i - 1];
        }
      }
      if d == 0 && ws[0] != 0 {
        assert ws == [ws[0]] + ws[1..];
      }
    }
  }

  /** One turn of the allocation loop at column `c`. */
  lemma ResolveStep(ws: seq<int>, c: nat, leftover: int, divisor: nat)
    requires c < |ws| && divisor == CountAuto(ws[c..])
    ensures ws[c] == 0 ==>
              && divisor > 0 && divisor - 1 == CountAuto(ws[c + 1..])
              && Resolve(ws[c..], leftover, divisor)
                 == [TruncDiv(leftover, divisor)]
                    + Resolve(ws[c + 1..], leftover - TruncDiv(leftover, divisor), divisor - 1)
    ensures ws[c] != 0 ==>
              && divisor == CountAuto(ws[c + 1..])
              && Resolve(ws[c..], leftover, divisor) == [ws[c]] + Resolve(ws[c + 1..], leftover, divisor)
  {
    assert ws[c..][0] == ws[c] && ws[c..][1..] == ws[c + 1..];
  }

  /**
   * The allocation loop's invariant survives the turn at column `c`, which
   * stores `w` and leaves `leftover'` cells for the `divisor'` auto columns
   * still to come.
   */
  lemma ResolveAdvance(ws: seq<int>, c: nat, done: seq<int>, leftover0: int, leftover: int, divisor: nat)
      returns (w: int, leftover': int, divisor': nat)
    requires c < |ws| && divisor == CountAuto(ws[c..])
    requires Resolve(ws, leftover0, CountAuto(ws)) == done + Resolve(ws[c..], leftover, divisor)
    ensures ws[c] == 0 ==> divisor > 0
    ensures w == if ws[c] == 0 then TruncDiv(leftover, divisor) else ws[c]
    ensures leftover' == if ws[c] == 0 then leftover - w else leftover
    ensures divisor' == (if ws[c] == 0 then divisor - 1 else divisor) == CountAuto(ws[c + 1..])
    ensures Resolve(ws, leftover0, CountAuto(ws)) == (done + [w]) + Resolve(ws[c + 1..], leftover', divisor')
  {
    ResolveStep(ws, c, leftover, divisor);
    if ws[c] == 0 {
      w := TruncDiv(leftover, divisor);
      leftover', divisor' := leftover - w, divisor - 1;
    } else {
      w, leftover', divisor' := ws[c], leftover, divisor;
    }
    var tail := Resolve(ws[c + 1..], leftover', divisor');
    assert done + ([w] + tail) == (done + [w]) + tail;
  }

  /** The shares that `leftover` cells make among `d` auto columns, left to right. */
  function Shares(leftover: int, d: nat): (r: seq<int>)
    ensures |r| == d
    decreases d
  {
    if d == 0 then []
    else
      var w := TruncDiv(leftover, d);
      [w] + Shares(leftover - w, d - 1)
  }

  /** The entries of `r` at the auto columns of `ws`, left to right. */
  function AutoWidths(ws: seq<int>, r: seq<int>): seq<int>
    requires |r| == |ws|
    decreases |ws|
  {
    if ws == [] then []
    else if ws[0] == 0 then [r[0]] + AutoWidths(ws[1..], r[1..])
    else AutoWidths(ws[1..], r[1..])
  }

  /** The auto columns receive exactly the shares of the leftover, in order. */
  lemma {:induction false} ResolveGivesShares(ws: seq<int>, leftover: int, divisor: nat)
    requires divisor == CountAuto(ws)
    ensures AutoWidths(ws, Resolve(ws, leftover, divisor)) == Shares(leftover, divisor)
    decreases |ws|
  {
    if ws != [] {
      var r := Resolve(ws, leftover, divisor);
      if ws[0] == 0 {
        var w := TruncDiv(leftover, divisor);
        ResolveGivesShares(ws[1..], leftover - w, divisor - 1);
        assert r[1..] == Resolve(ws[1..], leftover - w, divisor - 1);
      } else {
        ResolveGivesShares(ws[1..], leftover, divisor);
        assert r[1..] == Resolve(ws[1..], leftover, divisor);
      }
    }
  }

  lemma {:induction false} MulAtLeast(k: nat, d: nat)
    requires k >= 1
    ensures k * d >= d
    decreases k
  {
    if k > 1 {
      MulAtLeast(k - 1, d);
      assert k * d == (k - 1) * d + d;
    }
  }

  /** Euclidean division is determined by its quotient-remainder equation. */
  lemma DivModOf(a: int, d: int, q: int, m: int)
    requires d > 0 && 0 <= m < d && a == q * d + m
    ensures a / d == q && a % d == m
  {
    var q', m' := a / d, a % d;
    assert a == q' * d + m';
    if q > q' {
      assert (q - q') * d == q * d - q' * d;
      MulAtLeast(q - q', d);
      assert false;
    } else if q < q' {
      assert (q' - q) * d == q' * d - q * d;
      MulAtLeast(q' - q, d);
      assert false;
    }
  }

  /**
   * What is left after the first of `d > 1` auto columns takes its share,
   * divided among the other `d - 1`.
   */
  lemma RestDivMod(leftover: nat, d: nat)
    requires d > 1
    ensures var q, m := leftover / d, leftover % d;
            var rest := leftover - q;
            && rest >= 0
            && rest / (d - 1) == (if m == d - 1 then q + 1 else q)
            && rest % (d - 1) == (if m == d - 1 then 0 else m)
  {
    var q, m := leftover / d, leftover % d;
    var rest := leftover - q;
    assert leftover == q * d + m;
    assert rest == q * (d - 1) + m;
    if m < d - 1 {
      DivModOf(rest, d - 1, q, m);
    } else {
      assert rest == (q + 1) * (d - 1) + 0;
      DivModOf(rest, d - 1, q + 1, 0);
    }
  }

  lemma SharesUnfold(leftover: int, d: nat)
    requires d > 0
    ensures Shares(leftover, d)[0] == TruncDiv(leftover, d)
    ensures Shares(leftover, d)[1..] == Shares(leftover - TruncDiv(leftover, d), d - 1)
  {
  }

  /**
   * For a non-negative leftover `L` and `d` auto columns, the first
   * `d - L % d` columns get `L / d` cells and the last `L % d` get one more:
   * the extra cells go to the rightmost auto columns.
   */
  lemma {:induction false} SharesShape(leftover: nat, d: nat)
    requires d > 0
    ensures forall k :: 0 <= k < d ==>
              Shares(leftover, d)[k] == leftover / d + (if k >= d - leftover % d then 1 else 0)
    decreases d
  {
    var q, m := leftover / d, leftover % d;
    assert TruncDiv(leftover, d) == q;
    SharesUnfold(leftover, d);
    var s := Shares(leftover, d);
    if d > 1 {
      var rest := leftover - q;
      RestDivMod(leftover, d);
      SharesShape(rest, d - 1);
      var t := Shares(rest, d - 1);
      assert s[1..] == t;
      forall k | 0 <= k < d
        ensures s[k] == q + (if k >= d - m then 1 else 0)
      {
        if k > 0 {
          assert s[k] == t[k - 1];
        }
      }
    }
  }

  /** Auto widths never shrink from left to right and differ by at most one cell. */
  lemma SharesBalanced(leftover: nat, d: nat)
    requires d > 0
    ensures forall j, k :: 0 <= j <= k < d ==>
              Shares(leftover, d)[j] <= Shares(leftover, d)[k] <= Shares(leftover, d)[j] + 1
  {
    SharesShape(leftover, d);
  }

  /**
   * The auto columns of an allocation, left to right, hold the shares of
   * the leftover; for a non-negative leftover they differ by at most one
   * cell and never shrink from left to right.
   */
  lemma AllocateSharesLeftover(ws: seq<int>, maxCols: int)
    ensures var leftover := maxCols - Sum(ws) - (|ws| - 1);
            AutoWidths(ws, Allocate(ws, maxCols)) == Shares(leftover, CountAuto(ws))
    ensures var leftover := maxCols - Sum(ws) - (|ws| - 1);
            var a := AutoWidths(ws, Allocate(ws, maxCols));
            leftover >= 0 ==>
              |a| == CountAuto(ws)
              && forall j, k :: 0 <= j <= k < |a| ==> a[j] <= a[k] <= a[j] + 1
  {
    var leftover := maxCols - Sum(ws) - (|ws| - 1);
    ResolveGivesShares(ws, leftover, CountAuto(ws));
    if leftover >= 0 && CountAuto(ws) > 0 {
      SharesBalanced(leftover, CountAuto(ws));
    }
  }

  /** `[10, 0, 0]` in 50 columns gives 19 and 19; in 51 columns the extra cell goes to the last. */
  lemma TenAndTwoAutoColumns()
    ensures Allocate([10, 0, 0], 50) == [10, 19, 19]
    ensures Allocate([10, 0, 0], 51) == [10, 19, 20]
  {
    assert Sum([10, 0, 0]) == 10;
    assert CountAuto([10, 0, 0]) == 2;
    assert [10, 0, 0][1..] == [0, 0] && [0, 0][1..] == [0];
    assert TruncDiv(38, 2) == 19 && TruncDiv(19, 1) == 19;
    assert TruncDiv(39, 2) == 19 && TruncDiv(20, 1) == 20;
  }

  /**
   * The resolved widths replace the specification, so a later layout in a
   * wider window keeps them: no auto column is left to grow.
   */
  lemma SecondLayoutKeepsWidths(ws: seq<int>, first: int, second: int)
    requires forall i :: 0 <= i < |Allocate(ws, first)| ==> Allocate(ws, first)[i] != 0
    ensures Allocate(Allocate(ws, first), second) == Allocate(ws, first)
  {
    NoAutoIffNoZero(Allocate(ws, first));
  }

  // ----- Column positions ------------------------------------------------

  /** Where each column starts, and the columns at which separators are drawn. */
  datatype Placement = Placement(origins: seq<int>, separators: seq<int>)

  /**
   * The walk over the columns: a column starts at `x`; a separator follows
   * it when the column ends before `limit`.
   */
  function Walk(ws: seq<int>, x: int, limit: int): (p: Placement)
    ensures |p.origins| == |ws| && |p.separators| <= |ws|
    decreases |ws|
  {
    if ws == [] then Placement([], [])
    else
      var e := x + ws[0];
      if e < limit then
        var p := Walk(ws[1..], e + 1, limit);
        Placement([x] + p.origins, [e] + p.separators)
      else
        var p := Walk(ws[1..], e, limit);
        Placement([x] + p.origins, p.separators)
  }

  /**
   * The walk as the window is written: it starts at the window's screen
   * column `begX`, compares screen columns with the window width, and uses
   * the screen column of each separator as its column within the window.
   */
  function PlaceAsWritten(ws: seq<int>, begX: int, maxCols: int): (p: Placement)
    ensures |p.origins| == |ws|
  {
    Walk(ws, begX, maxCols)
  }

  /**
   * The walk in window columns: columns are placed at screen column
   * `begX` plus their window column, separators at their window column.
   */
  function Place(ws: seq<int>, begX: int, maxCols: int): (p: Placement)
    ensures |p.origins| == |ws|
    ensures begX == 0 ==> p == PlaceAsWritten(ws, begX, maxCols)
  {
    var w := Walk(ws, 0, maxCols);
    assert begX == 0 ==> Shift(w.origins, begX) == w.origins;
    Placement(Shift(w.origins, begX), w.separators)
  }

  /** Window columns `xs` as screen columns of a window at screen column `k`. */
  function Shift(xs: seq<int>, k: int): (r: seq<int>)
    ensures |r| == |xs| && forall i :: 0 <= i < |xs| ==> r[i] == k + xs[i]
  {
    seq(|xs|, i requires 0 <= i < |xs| => k + xs[i])
  }

  lemma ShiftSnoc(xs: seq<int>, x: int, k: int)
    ensures Shift(xs + [x], k) == Shift(xs, k) + [k + x]
  {
  }

  /** One turn of the placement loop at column `c`. */
  lemma WalkStep(ws: seq<int>, c: nat, x: int, limit: int)
    requires c < |ws|
    ensures x + ws[c] < limit ==>
              var p := Walk(ws[c + 1..], x + ws[c] + 1, limit);
              Walk(ws[c..], x, limit) == Placement([x] + p.origins, [x + ws[c]] + p.separators)
    ensures x + ws[c] >= limit ==>
              var p := Walk(ws[c + 1..], x + ws[c], limit);
              Walk(ws[c..], x, limit) == Placement([x] + p.origins, p.separators)
  {
    assert ws[c..][0] == ws[c] && ws[c..][1..] == ws[c + 1..];
  }

  /**
   * The placement loop's invariant survives the turn at column `c`, which
   * moves the cursor to `x'` and leaves the separators at `seps'`.
   */
  lemma WalkAdvance(ws: seq<int>, c: nat, x: int, limit: int, origins: seq<int>, separators: seq<int>)
      returns (x': int, seps': seq<int>)
    requires c < |ws|
    requires var p := Walk(ws[c..], x, limit);
             Walk(ws, 0, limit) == Placement(origins + p.origins, separators + p.separators)
    ensures x' == if x + ws[c] < limit then x + ws[c] + 1 else x + ws[c]
    ensures seps' == if x + ws[c] < limit then separators + [x + ws[c]] else separators
    ensures var p := Walk(ws[c + 1..], x', limit);
            Walk(ws, 0, limit) == Placement((origins + [x]) + p.origins, seps' + p.separators)
  {
    WalkStep(ws, c, x, limit);
    var e := x + ws[c];
    if e < limit {
      x', seps' := e + 1, separators + [e];
      var p := Walk(ws[c + 1..], e + 1, limit);
      assert origins + ([x] + p.origins) == (origins + [x]) + p.origins;
      assert separators + ([e] + p.separators) == (separators + [e]) + p.separators;
    } else {
      x', seps' := e, separators;
      var p := Walk(ws[c + 1..], e, limit);
      assert origins + ([x] + p.origins) == (origins + [x]) + p.origins;
    }
  }

  /** When the loop has placed every column, it has produced the whole walk. */
  lemma WalkDone(ws: seq<int>, x: int, limit: int, origins: seq<int>, separators: seq<int>)
    requires var p := Walk(ws[|ws|..], x, limit);
             Walk(ws, 0, limit) == Placement(origins + p.origins, separators + p.separators)
    ensures Walk(ws, 0, limit) == Placement(origins, separators)
  {
    assert ws[|ws|..] == [];
    assert origins + [] == origins && separators + [] == separators;
  }

  predicate NonNegative(ws: seq<int>) {
    forall i :: 0 <= i < |ws| ==> ws[i] >= 0
  }

  /**
   * Widths that fill `limit - x` cells with their separators tile it: each
   * column starts one cell after the previous one ends, a separator sits in
   * that cell, and the last column ends at `limit`.
   */
  lemma {:induction false} WalkTiles(ws: seq<int>, x: int, limit: int)
    requires |ws| > 0 && NonNegative(ws)
    requires x + Sum(ws) + |ws| - 1 == limit
    ensures var p := Walk(ws, x, limit);
            && |p.separators| == |ws| - 1
            && p.origins[0] == x
            && (forall k :: 0 <= k < |ws| - 1 ==>
                  p.origins[k + 1] == p.origins[k] + ws[k] + 1 && p.separators[k] == p.origins[k + 1] - 1)
            && p.origins[|ws| - 1] + ws[|ws| - 1] == limit
    decreases |ws|
  {
    var p := Walk(ws, x, limit);
    var e := x + ws[0];
    if |ws| > 1 {
      var rest := ws[1..];
      assert NonNegative(rest) by {
        forall i | 0 <= i < |rest| ensures rest[i] >= 0 { assert rest[i] == ws[i + 1]; }
      }
      SumNonNegative(rest);
      assert e < limit;
      WalkTiles(rest, e + 1, limit);
      var q := Walk(rest, e + 1, limit);
      WalkStep(ws, 0, x, limit);
      assert ws[0..] == ws;
      TilesCons(ws, x, p.origins, p.separators, q.origins, q.separators);
    }
  }

  /** The tiling of the columns after the first extends to the first. */
  lemma TilesCons(ws: seq<int>, x: int, po: seq<int>, ps: seq<int>, qo: seq<int>, qs: seq<int>)
    requires |ws| > 1 && |qo| == |ws| - 1 && |qs| == |ws| - 2
    requires po == [x] + qo && ps == [x + ws[0]] + qs && qo[0] == x + ws[0] + 1
    requires forall k :: 0 <= k < |ws| - 2 ==> qo[k + 1] == qo[k] + ws[k + 1] + 1 && qs[k] == qo[k + 1] - 1
    ensures forall k :: 0 <= k < |ws| - 1 ==> po[k + 1] == po[k] + ws[k] + 1 && ps[k] == po[k + 1] - 1
  {
    forall k | 0 <= k < |ws| - 1
      ensures po[k + 1] == po[k] + ws[k] + 1 && ps[k] == po[k + 1] - 1
    {
      if k > 0 {
        assert po[k] == qo[k - 1] && po[k + 1] == qo[k] && ps[k] == qs[k - 1];
      }
    }
  }

  /**
   * When the widths fill the window, the columns tile it from screen column
   * `begX` and the `|ws| - 1` separators sit, in window columns, exactly in
   * the gaps between neighbouring columns.
   */
  lemma PlaceTiles(ws: seq<int>, begX: int, maxCols: int)
    requires |ws| > 0 && NonNegative(ws)
    requires Sum(ws) + |ws| - 1 == maxCols
    ensures var p := Place(ws, begX, maxCols);
            && |p.separators| == |ws| - 1
            && p.origins[0] == begX
            && (forall k :: 0 <= k < |ws| - 1 ==>
                  p.origins[k + 1] == p.origins[k] + ws[k] + 1
                  && p.separators[k] == p.origins[k + 1] - 1 - begX)
            && p.origins[|ws| - 1] + ws[|ws| - 1] == begX + maxCols
  {
    WalkTiles(ws, 0, maxCols);
  }

  /**
   * As written, a window starting at screen column 10 gets its separators at
   * window columns 20 and 40, inside the second and third columns, instead
   * of in the gaps at 10 and 30.
   */
  lemma SeparatorsAsWrittenMisplaced()
    ensures PlaceAsWritten([10, 19, 19], 10, 50).separators == [20, 40]
    ensures Place([10, 19, 19], 10, 50).separators == [10, 30]
    ensures Place([10, 19, 19], 10, 50).origins == PlaceAsWritten([10, 19, 19], 10, 50).origins
  {
    assert [10, 19, 19][1..] == [19, 19] && [19, 19][1..] == [19];
    assert Walk([19], 41, 50) == Placement([41], []);
    assert Walk([19], 31, 50) == Placement([31], []);
  }

  /**
   * A window at screen column 40 with widths `[10, 19, 19]` in 50 columns:
   * as written, the first column already ends past the right-edge test, so
   * no separator is drawn and the later columns start one and two cells
   * further left than the corrected walk places them.
   */
  lemma ColumnsAsWrittenMisplaced()
    ensures PlaceAsWritten([10, 19, 19], 40, 50) == Placement([40, 50, 69], [])
    ensures Place([10, 19, 19], 40, 50) == Placement([40, 51, 71], [10, 30])
  {
    assert [10, 19, 19][1..] == [19, 19] && [19, 19][1..] == [19];
    assert Walk([19], 69, 50) == Placement([69], []);
    assert Walk([19], 31, 50) == Placement([31], []);
  }

  /**
   * With an auto column and no negative width, the allocated columns and
   * their separators tile the window from its left edge to its right edge.
   */
  lemma AllocationTilesWindow(ws: seq<int>, begX: int, maxCols: int)
    requires CountAuto(ws) > 0 && NonNegative(Allocate(ws, maxCols))
    ensures var r := Allocate(ws, maxCols);
            var p := Place(r, begX, maxCols);
            && |p.separators| == |r| - 1
            && p.origins[0] == begX
            && (forall k :: 0 <= k < |r| - 1 ==>
                  p.origins[k + 1] == p.origins[k] + r[k] + 1
                  && p.separators[k] == p.origins[k + 1] - 1 - begX)
            && p.origins[|r| - 1] + r[|r| - 1] == begX + maxCols
  {
    PlaceTiles(Allocate(ws, maxCols), begX, maxCols);
  }
}
