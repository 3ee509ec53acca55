# curseslistwindow in Dafny

A model of the two list widgets in `curseslistwindow.py`, with proofs about them.

`SelectFromListWindow` is a single-column list that the user scrolls and marks from the keyboard and the mouse. It keeps the following state:

- the list length;
- the first visible row (`offset`);
- the highlighted row (`current`);
- the number of visible lines (`line_count`);
- the width;
- a mask of marked rows.

The model has two layers:

- Module `Viewport` gives this state as a value (`State`). Each branch of `keypress` is a function returning the next state and the drawing requests, in the order the widget makes them. The requests are writing one row, redrawing the visible range, or refreshing.
- Module `ListWindows` gives the widget as a class, `ListWindow`, with the same fields. Its methods update those fields in place. Each method's contract equates its effect with the matching `Viewport` function applied to the old state.

Module `ViewportLemmas` proves properties of the state machine:

- on a non-empty list, every key keeps the bounds `0 <= offset <= current < offset + line_count <= list_length`, and so does every sequence of keys; for the mouse this holds with the corrected click bound (see Findings) and for clicks at or below the window's top line;
- each key moves exactly as far as its branch says, with clamping, and the no-ops are characterised;
- every key except Enter repaints each row whose look it changes;
- Python's negative indexing and `IndexError` appear where the code runs into them. A row lookup in `write_row` comes before its visibility guard, so a key can change the state and then raise on a row past the end of a shorter new list; the model keeps the changed state and the requests made up to the failing one.

`MultiColumnListWindow` adds a column-width specification and one sub-window per column.

- Module `ColumnLayout` covers the two loops of its `draw_window`.
  - Width allocation: a `0` entry is an auto column. The space left after the fixed columns and the one-cell separators is shared among the auto columns, rounding toward zero. When there is an auto column, the widths then fill the window exactly. When the fixed widths leave a non-negative leftover, the shares never shrink from left to right and differ by at most one cell; when they overrun the window, the rounding toward zero makes the shares negative and shrinking (`[45, 0, 0]` in 20 columns gives `[45, -13, -14]`).
  - Placement of the columns and their separators: with the corrected placement `Place` (see Findings), widths that are non-negative and fill the window tile it edge to edge. The placement as written, `PlaceAsWritten`, may drop separators and leave cells empty when the window does not start at screen column 0.
- Module `MultiColumn` gives the window as a class.
  - It holds a `ListWindow` for the shared navigation.
  - It holds the caller's width array by reference. `draw_window` overwrites that array in place, so two windows created with the default `[0]` share one specification.

Where the code could be read otherwise, the model follows the code:

- Leftover cells go to the rightmost auto columns. With rounding toward zero and a non-negative leftover, the earlier columns take the smaller share.
- `new_data` keeps `offset` and `current`, even when the new list is shorter.
- Space and Enter return `False`, which means "not handled", even though they act.

## Model

| member | source | states |
|---|---|---|
| Viewport.PyIndex | curseslistwindow.py:36-37 | a list lookup succeeds exactly for indexes in `-n .. n-1`; the row it reaches is below `n` and is the index itself or the index counted from the end |
| Viewport.Unmarked | curseslistwindow.py:27 | a mask of `n` entries, none marked |
| Viewport.Toggle | curseslistwindow.py:149 | one entry flipped, the others unchanged |
| Viewport.Initial | curseslistwindow.py:19-27 | the new widget has the list length `n`, offset 0, row 0, no lines and width 0, with an unmarked mask as long as the list; with no lines laid out yet it is valid only for an empty list |
| Viewport.RowVisible | curseslistwindow.py:38-40 | the guard of `write_row` lets a row through exactly when it lies in `offset .. offset + line_count - 1` |
| Viewport.Layout | curseslistwindow.py:29-34 | the visible lines are the smaller of the list length and the window height; offset, highlight and mask are unchanged |
| Viewport.NewData | curseslistwindow.py:62-66 | an unmarked mask of the new length, and the smaller of that length and the window height as line count; offset, highlight and width are kept |
| Viewport.KeyUp | curseslistwindow.py:171-180 | changes only offset and highlight, and keeps a valid state valid |
| Viewport.KeyDown | curseslistwindow.py:182-191 | changes only offset and highlight, and keeps a valid state valid |
| Viewport.OnPageUp | curseslistwindow.py:77-92 | changes only offset and highlight, and keeps a valid state valid |
| Viewport.OnPageDown | curseslistwindow.py:94-111 | changes only offset and highlight, and keeps a valid state valid |
| Viewport.OnHome | curseslistwindow.py:113-116 | changes only offset and highlight, and keeps a valid state valid |
| Viewport.OnEnd | curseslistwindow.py:118-122 | changes only offset and highlight, and keeps a valid state valid |
| Viewport.ClickAsWritten | curseslistwindow.py:129-138 | the click with its bound as written: never moves the window or touches the mask |
| Viewport.OnClick | curseslistwindow.py:129-138 | the corrected click: never moves the window; a click at a non-negative row keeps a valid state valid |
| Viewport.Perform | curseslistwindow.py:36-56 | requests are carried out in order and stop at the first whose row lookup fails: it fails exactly when some request would, all requests are made when none does, and otherwise the made ones are a prefix ending at the only failing one |
| Viewport.OnMouse | curseslistwindow.py:124-146 | a decoding failure changes nothing, draws nothing and is not handled; a decoded event raises IndexError exactly when a request of its click, its wheel-up tick or its wheel-down tick fails, each in the state its part leads to, and the state is that of the part that raised or of the last part; a raise ends the branch with the failing request last; otherwise the event is handled; mask and sizes are unchanged |
| Viewport.OnSpace | curseslistwindow.py:148-162 | raises at once and changes nothing when the highlighted index is outside the mask; otherwise flips that mark and raises exactly when a request of the advance fails in the advanced state; never reports the key as handled; sizes are unchanged |
| Viewport.SpaceStep | curseslistwindow.py:150-162 | the advance after the flip keeps the list and the mask and keeps a valid state valid |
| Viewport.OnEnter | curseslistwindow.py:164-167 | draws nothing and never moves; raises exactly when no row is marked and the lookup fails, and then changes nothing; on return some row is marked |
| Viewport.MoveStep | curseslistwindow.py:68-122 | every movement key keeps the list and the mask and keeps a valid state valid |
| Viewport.Keypress | curseslistwindow.py:68-169 | handled exactly for movement keys and decoded mouse events, unless a write raises; a movement key keeps its new state and raises exactly when one of its requests fails there; a decoded mouse event raises exactly when one of its parts' requests fails; Space raises exactly when the highlighted index is outside the mask or a request of its advance fails; Enter raises exactly when nothing is marked and the highlighted index is outside the mask; Space and Enter may raise with nothing changed, any other raise ends with the failing request; other keys change nothing; only Space and Enter touch the mask |
| ViewportLemmas.KeyUpMovesOneRow | curseslistwindow.py:171-180 | up moves the highlight to `max(current-1, 0)`; the window scrolls by one exactly from its top line; a no-op exactly at row 0 |
| ViewportLemmas.KeyDownMovesOneRow | curseslistwindow.py:182-191 | down moves the highlight one row, stopping at the last; the window scrolls exactly from its bottom line; a no-op exactly at the last row |
| ViewportLemmas.PageUpClampsAtTop | curseslistwindow.py:77-92 | goes to the top line first; from there it moves back by a page, clamped to row 0; a no-op exactly at row 0 |
| ViewportLemmas.PageDownClampsAtBottom | curseslistwindow.py:94-111 | goes to the bottom line first; from there it moves on by a page, clamped so the window ends at the last row; a no-op exactly at the last row |
| ViewportLemmas.PageDownTwiceOnTenRows | curseslistwindow.py:94-111 | ten rows, five lines: two PageDowns give (offset 0, row 4), then (5, 9) |
| ViewportLemmas.HomeEndIdempotent | curseslistwindow.py:113-122 | Home goes to row 0; End goes to the last row with the window ending there; both are idempotent |
| ViewportLemmas.EndOnShortList | curseslistwindow.py:118-122 | when the list fits, End keeps offset 0 and highlights the last row |
| ViewportLemmas.EndOnThreeRows | curseslistwindow.py:118-122 | three rows in five lines: End gives offset 0 and row 2 |
| ViewportLemmas.EndOnEmptyList | curseslistwindow.py:118-122 | on an empty list End sets the highlight to -1 |
| ViewportLemmas.ClickClampsToWindow | curseslistwindow.py:129-138 | a click highlights `offset + min(row, lines-1)` and keeps the state valid |
| ViewportLemmas.ClickAsWrittenDiffersOnlyPastWindow | curseslistwindow.py:132-135 | the bound as written and the corrected bound agree on every row except the one just below the window |
| ViewportLemmas.ClickAsWrittenLeavesList | curseslistwindow.py:132-133 | as written, a click below a three-row list highlights row 3, which does not exist |
| ViewportLemmas.WheelTickIsOneKeyMove | curseslistwindow.py:139-142 | a wheel tick without a click is exactly one up or one down |
| ViewportLemmas.ToggleTwice | curseslistwindow.py:149 | flipping a mark twice restores the mask |
| ViewportLemmas.SpaceTogglesAndAdvances | curseslistwindow.py:148-162 | Space flips only the highlighted mark, then moves as down does, and keeps the state valid |
| ViewportLemmas.SpaceOnEmptyListRaises | curseslistwindow.py:149 | Space on an empty list raises IndexError |
| ViewportLemmas.SpaceAfterEmptyEndMarksLastRow | curseslistwindow.py:148-149 | after End on an empty list and new three-row data, Space marks the last row through index -1 |
| ViewportLemmas.EnterCommitsOneRow | curseslistwindow.py:164-167 | with nothing marked, Enter marks the highlighted row and only it; otherwise nothing changes; a second Enter is a no-op |
| ViewportLemmas.FirstLayoutIsValid | curseslistwindow.py:29-34 | the first layout of a new widget in a window at least one line high is valid |
| ViewportLemmas.LayoutMayLeaveHighlightOutside | curseslistwindow.py:29-34 | shrinking the window can leave the highlight below the visible lines |
| ViewportLemmas.NewDataMayLeaveHighlightOutside | curseslistwindow.py:62-66 | a shorter new list can leave offset and highlight past its end |
| ViewportLemmas.NewDataThenHomeIsValid | curseslistwindow.py:62-66 | Home after new data gives a valid state |
| ViewportLemmas.DrawListFailsOutsideList | curseslistwindow.py:51-55 | `draw_list` raises exactly when the list is non-empty, the window has lines, and the visible range starts before `-n` or ends past `n` |
| ViewportLemmas.ListRowsDrawSafely | curseslistwindow.py:36-56 | in a valid non-empty state, requests that write only rows of the list are all carried out and none raises |
| ViewportLemmas.UpAfterShorterDataRaises | curseslistwindow.py:171-180 | after new data of three rows at row 9, Up moves to row 8 and raises writing row 9, keeping the move |
| ViewportLemmas.PageUpAfterShorterDataRaises | curseslistwindow.py:77-92 | after the same new data, PageUp moves the window to row 2 and raises redrawing it |
| ViewportLemmas.SpaceAfterShorterDataRaises | curseslistwindow.py:148-162 | after new data of three rows at row 2, Space marks row 2, moves to row 3 and raises writing it |
| ViewportLemmas.GrownWindowRedrawRaises | curseslistwindow.py:29-34 | growing the window of a valid state scrolled to the end of the list makes the redraw raise |
| ViewportLemmas.MouseKeepsValid | curseslistwindow.py:124-146 | from a valid non-empty state, a mouse event at or below the top line raises nothing, is the click and wheel steps in order, and keeps validity |
| ViewportLemmas.KeypressKeepsValid | curseslistwindow.py:68-169 | from a valid non-empty state, every key keeps validity and none raises IndexError |
| ViewportLemmas.RunKeepsValid | curseslistwindow.py:68-169 | every sequence of keys from a valid non-empty state ends in a valid state |
| ViewportLemmas.RepaintsCompose | curseslistwindow.py:124-146 | helper for the mouse branch: two steps that each repaint their changes repaint the changes of both together |
| ViewportLemmas.KeyMovesRepaint | curseslistwindow.py:171-191 | up and down write the old and new highlighted rows, or redraw the window; they write only rows of the list |
| ViewportLemmas.PageMovesRepaint | curseslistwindow.py:77-122 | the page keys, Home and End repaint every row they change and write only rows of the list |
| ViewportLemmas.ClickRepaints | curseslistwindow.py:129-138 | a click below the top writes the old and new highlighted rows, both rows of the list |
| ViewportLemmas.MouseRepaints | curseslistwindow.py:124-146 | click plus wheel ticks repaint every changed row and write only rows of the list |
| ViewportLemmas.SpaceStepRepaints | curseslistwindow.py:150-162 | the advance after the flip writes the flipped row or redraws the window, writes only list rows and keeps validity |
| ViewportLemmas.SpaceRepaints | curseslistwindow.py:148-162 | Space writes the row whose mark it flipped and the new highlighted row |
| ViewportLemmas.KeypressRepaintsChanges | curseslistwindow.py:68-169 | every key except Enter repaints what it changes and writes only rows of the list |
| ViewportLemmas.EnterSkipsRepaint | curseslistwindow.py:164-167 | Enter can change a row's mark without drawing anything |
| ListWindows.ListWindow.constructor | curseslistwindow.py:19-27 | the new widget's state is the initial state of a list that long |
| ListWindows.ListWindow.DrawWindow | curseslistwindow.py:29-34 | the new state is the layout of the old state; it reports a raise exactly when the redraw that follows fails a row lookup |
| ListWindows.ListWindow.WriteRow | curseslistwindow.py:36-40 | fails exactly when the lookup fails; draws exactly the visible rows, at line `index - offset`, highlighted iff current, with the row's mark |
| ListWindows.ListWindow.DrawList | curseslistwindow.py:51-56 | reports a failure exactly when `draw_list` would raise in the current state |
| ListWindows.ListWindow.Perform | curseslistwindow.py:36-56 | carries out the requests in order, stopping at the first failing lookup, exactly as the request function does |
| ListWindows.ListWindow.NewData | curseslistwindow.py:62-66 | the new state is the new-data state of the old one |
| ListWindows.ListWindow.KeyUp | curseslistwindow.py:171-180 | new state, requests made and reply are those of the up function with its drawing carried out |
| ListWindows.ListWindow.KeyDown | curseslistwindow.py:182-191 | new state, requests made and reply are those of the down function with its drawing carried out |
| ListWindows.ListWindow.Keypress | curseslistwindow.py:68-169 | new state, requests made and reply are those of the keypress function |
| ListWindows.ListWindow.Click | curseslistwindow.py:129-138 | new state, requests made and reply are those of the click with its drawing carried out |
| ListWindows.ListWindow.MouseBranch | curseslistwindow.py:124-146 | new state, requests made and reply are those of the mouse function |
| ListWindows.ListWindow.SpaceBranch | curseslistwindow.py:148-162 | new state, requests made and reply are those of the Space function |
| ColumnLayout.SumNonNegative | curseslistwindow.py:216 | the width sum of a specification with no negative entry is not negative |
| ColumnLayout.AutoFlags | curseslistwindow.py:218 | one flag per column, set exactly for the zero entries |
| ColumnLayout.CountAuto | curseslistwindow.py:219 | at most one auto column per column |
| ColumnLayout.NoAutoIffNoZero | curseslistwindow.py:218-219 | there is no auto column exactly when no entry is zero |
| ColumnLayout.TruncDiv | curseslistwindow.py:222 | the quotient rounded toward zero, for either sign of the dividend |
| ColumnLayout.Resolve | curseslistwindow.py:220-225 | the loop keeps the number of columns |
| ColumnLayout.Allocate | curseslistwindow.py:216-225 | fixed widths are kept; with an auto column, widths plus separators fill the window exactly; with none, the specification is unchanged |
| ColumnLayout.ResolveKeepsAndFills | curseslistwindow.py:220-225 | the loop keeps fixed widths and hands out exactly the leftover when there is an auto column |
| ColumnLayout.ResolveStep | curseslistwindow.py:221-225 | one turn of the loop: an auto column takes the leftover divided by the auto columns still to come |
| ColumnLayout.ResolveAdvance | curseslistwindow.py:220-225 | the loop's prefix of resolved widths grows by one column each turn |
| ColumnLayout.Shares | curseslistwindow.py:222 | one share per auto column |
| ColumnLayout.ResolveGivesShares | curseslistwindow.py:220-225 | the auto columns receive exactly the successive shares of the leftover |
| ColumnLayout.SharesUnfold | curseslistwindow.py:222 | the first share is the leftover divided by the count, and the rest share what remains |
| ColumnLayout.SharesShape | curseslistwindow.py:220-225 | for leftover `L` and `d` columns, the first `d - L % d` get `L / d` and the last `L % d` get one more |
| ColumnLayout.SharesBalanced | curseslistwindow.py:220-225 | for a non-negative leftover, shares never shrink left to right and differ by at most one cell |
| ColumnLayout.AllocateSharesLeftover | curseslistwindow.py:216-225 | the auto widths of an allocation are the shares of its leftover; when the leftover is non-negative they are balanced |
| ColumnLayout.TenAndTwoAutoColumns | curseslistwindow.py:216-225 | `[10, 0, 0]` gives `[10, 19, 19]` in 50 columns and `[10, 19, 20]` in 51 |
| ColumnLayout.SecondLayoutKeepsWidths | curseslistwindow.py:223 | once every width is non-zero, a later layout keeps them whatever the window width |
| ColumnLayout.Walk | curseslistwindow.py:226-236 | one origin per column and at most one separator per column |
| ColumnLayout.PlaceAsWritten | curseslistwindow.py:226-236 | the placement as written: one origin per column |
| ColumnLayout.Place | curseslistwindow.py:226-236 | the corrected placement: one origin per column; it agrees with the code as written for a window at screen column 0 |
| ColumnLayout.Shift | curseslistwindow.py:232-233 | window columns moved to screen columns, entry by entry |
| ColumnLayout.WalkStep | curseslistwindow.py:233-236 | one turn of the walk: a separator follows a column exactly when the column ends before the right edge |
| ColumnLayout.WalkAdvance | curseslistwindow.py:226-236 | the placement loop's prefix of origins and separators grows by one column each turn |
| ColumnLayout.WalkTiles | curseslistwindow.py:226-236 | widths that fill the window tile it: each column starts one cell after the previous one ends, with a separator in between, and the last ends at the edge |
| ColumnLayout.PlaceTiles | curseslistwindow.py:226-236 | the same tiling in screen columns from the window's left edge, with separators in window columns |
| ColumnLayout.ColumnsAsWrittenMisplaced | curseslistwindow.py:226-236 | at screen column 40, `[10, 19, 19]` in 50 columns gets origins 40, 50, 69 and no separator as written, instead of origins 40, 51, 71 with separators at 10 and 30 |
| ColumnLayout.SeparatorsAsWrittenMisplaced | curseslistwindow.py:233-235 | at screen column 10, `[10, 19, 19]` in 50 columns puts separators at 20 and 40 as written, instead of 10 and 30 |
| ColumnLayout.AllocationTilesWindow | curseslistwindow.py:216-236 | an allocation with an auto column and no negative width tiles the window |
| MultiColumn.Frames | curseslistwindow.py:226-232 | one sub-window per column |
| MultiColumn.MultiColumnListWindow.constructor | curseslistwindow.py:204-208 | the list state is initial; the caller's width array is kept itself, not copied; no sub-windows yet |
| MultiColumn.MultiColumnListWindow.DrawWindow | curseslistwindow.py:210-238 | the list is laid out; the width array now holds the allocation of its old contents; sub-windows and separators are those of the corrected placement; it reports a raise exactly when the closing `draw_list` fails a row lookup |
| MultiColumn.MultiColumnListWindow.AllocateWidths | curseslistwindow.py:216-225 | the width sum, the leftover, the auto flags and their count are computed as the code does, and the width array then holds the allocation of its old contents |
| MultiColumn.MultiColumnListWindow.ShareLeftover | curseslistwindow.py:220-225 | after the loop, the width array holds its old contents with each auto column given its share of the leftover, left to right |
| MultiColumn.MultiColumnListWindow.PlaceColumns | curseslistwindow.py:226-236 | after the loop, the sub-windows and separators are those of the corrected placement |
| MultiColumn.SharedDefaultWidths | curseslistwindow.py:204-206 | two windows sharing one default `[0]`: after the first is laid out in 40 columns, the second sees `[40]` |

## Left out

- Curses: clearing, moving, `clrtoeol`, inserting strings, refreshing and `doupdate`. `draw_list` is modelled by its row lookups, which are what can raise, and `refresh_list` only as the `Refresh` request.
- Text attributes and colour pairs. This includes the marked-row attribute in the multi-column `write_row`, which calls an undefined `color_pair` (a `NameError` on a marked row).
- `write_row` past its guard: truncating a row to the width, and the multi-column per-cell output (`insnstr`, `insstr`, `insch`).
- The multi-column `write_row`, `draw_list` and `refresh_list`. The multi-column `write_row` makes the same row lookup before the same guard (lines 243-244), so it raises IndexError on the same rows as the single-column one. It can also raise where the single-column one does not: a `NameError` on every visible marked row (line 247) and an IndexError on a row with fewer fields than columns (line 251). These raises are not modelled.
- `getmouse` and `getbegyx`: a mouse event comes in already decoded as a row relative to the window plus three button conditions, or a decoding failure. The bit masks are not modelled.
- Key codes: keys are named commands. Which codes map to which command is left out (`KEY_UP` or `k`, and so on).
- Floating-point division: `int(leftover / divisor)` is modelled as exact division rounded toward zero, so float rounding on very large numbers is left out.
- The row arity of multi-column data is not checked, as in the code.
- `resize`/`mvwin` versus `newwin`: both give the same sub-window frame, so the model does not tell them apart.
- Viewport.OnMouse: uses the corrected click bound of `Viewport.OnClick` (`<`, see Findings), not the `<=` of line 132; the click as written is `Viewport.ClickAsWritten`.
- Viewport.Keypress: its mouse branch is `Viewport.OnMouse`, with the corrected click bound.
- ListWindows.ListWindow.Click: performs the corrected click bound, as `Viewport.OnClick` does.
- ListWindows.ListWindow.MouseBranch: performs the corrected click bound, as `Viewport.OnMouse` does.
- ListWindows.ListWindow.Keypress: its mouse branch performs the corrected click bound.
- ViewportLemmas.ClickClampsToWindow: is about the corrected click bound.
- ViewportLemmas.ClickRepaints: is about the corrected click bound.
- ViewportLemmas.MouseKeepsValid: is about the corrected click bound, and covers only clicks at or below the window's top line.
- ViewportLemmas.MouseRepaints: is about the corrected click bound; with the bound as written a click just below a short list raises (`ClickAsWrittenLeavesList`).
- ViewportLemmas.KeypressKeepsValid: is about the corrected click bound, and covers only mouse clicks at or below the window's top line. A click above it (a negative relative row) moves the highlight above the window, and validity is not claimed for that case.
- ViewportLemmas.RunKeepsValid: is about the corrected click bound, and covers only sequences whose clicks are at or below the window's top line.
- MultiColumn.MultiColumnListWindow.DrawWindow: places the sub-windows and separators by the corrected placement `ColumnLayout.Place` (see Findings), not by the walk in screen columns of lines 226-236, which is `ColumnLayout.PlaceAsWritten`. When the window is not at screen column 0, the two can differ in both the separators and the sub-window origins (`ColumnsAsWrittenMisplaced`).
- MultiColumn.MultiColumnListWindow.PlaceColumns: its loop walks window columns from 0 as `ColumnLayout.Place` does, not screen columns from `dx` as lines 226-236 do (`ColumnLayout.PlaceAsWritten`). The sub-window origins and the separators can both differ when the window is not at screen column 0.
- ViewportLemmas.KeypressRepaintsChanges: excludes Enter, which changes a mark without redrawing (shown by `EnterSkipsRepaint`); it is about the corrected click bound and covers only clicks at or below the window's top line.

## Findings

| source | as written | input that shows it | evidently intended | confidence | as-written member | corrected member |
|---|---|---|---|---|---|---|
| curseslistwindow.py:132 | a click is taken as is when `clickline <= offset + line_count` | a three-row list in a taller window: a click on the first blank line below it sets `current` to 3, and `write_row(3)` then raises IndexError | `<`, so a click below the last visible line highlights that line | high, not executed | ViewportLemmas.ClickAsWrittenLeavesList | Viewport.OnClick |
| curseslistwindow.py:233-235 | the separator column is the screen column `dx`, drawn with `vline` in window coordinates and compared with the window width | a window at screen column 10 with widths `[10, 19, 19]` in 50 columns: separators at window columns 20 and 40, inside the columns, instead of at 10 and 30; at screen column 40 no separator is drawn and the sub-windows start at 40, 50 and 69 instead of 40, 51 and 71 | track the window column for `vline` and the right-edge test, and add the window's screen column only when placing sub-windows | medium, not executed | ColumnLayout.SeparatorsAsWrittenMisplaced, ColumnLayout.ColumnsAsWrittenMisplaced | ColumnLayout.Place |
