# stiler: a verified model of the tiling core

`stiler.py` is a small tiling helper that runs on top of an X11 window
manager. It asks the window manager for the windows of the current desktop,
decides where each one should go and moves them there with `wmctrl`. This
project models the deterministic core under that plumbing. The program's
module globals (`MaxWidth`, `MaxHeight`, `OrigX`, `OrigY`, `WinTitle`,
`WinBorder`, `MwFactor`, `Monitors`, the paddings and the two width tables)
become one immutable `Screen.Context` record. Every query to the X server is
a parameter: the validity of a window, its area, the active window, the
window lists and the stored layout record.

Modules, in dependency order:

- `Numeric`: Python's `int()` on a float (truncation toward zero) and the
  arithmetic facts about it that the geometry proofs use.
- `Sequences`: `list.index`, `list.remove` and filtering, with subsequence
  and duplicate-freedom facts.
- `Screen`: rectangles, paddings, the context, and the usable area left
  after the paddings.
- `WidthStepper`: repeated corner and centre placements step a window's
  width through a table of ratios. The window's width in pixels is divided
  by the screen width, the nearest ratio is chosen (ties go to the smaller
  one), and the next one, wrapping round, is applied to the screen width
  less two borders and truncated. One step is modelled in pixels. The
  repeated stepping is modelled on the ratios themselves: on a
  duplicate-free table they form a single cycle. Fed back in pixels the
  cycle can stall, because truncation can map a width back to itself.
- `WidthTables`: building the corner table (the seeds and their mirrors
  `1 - w`, each once, ascending) and the centre table (derived from the
  corner entries below one half, plus 1.0), then scaling both by the
  monitor count.
- `Position`: the X and Y origins and heights of single-window placements.
- `Layouts`: the five multi-window layouts, the geometry they guarantee
  (row tops ascend, rows and columns do not overlap, tiles abut and fit,
  no size is negative on a non-degenerate screen),
  and the record of the last layout used.
- `WindowList`: reconciling the current window list with the order recorded
  after the previous tiling. It also holds the validity filter, both as
  written and as intended (see Findings), and the choice of the largest
  window.
- `Reorder`: cycling the windows through the master position in both
  directions, and moving the active window to the front.
- `Options`: the tiling commands, composed from the above. Each returns the
  windows in their new order, the rectangles, the recorded window map and
  the layout record.

Floats are modelled as Dafny `real`. Python 3 `/` is real division, and
`round(x, 2)` is a function parameter `round2`. Nothing proved depends on
how `round2` rounds, except where a lemma says so.

## Model

| member | source | states |
|---|---|---|
| Numeric.Trunc | stiler.py:257 | `int()` of a float truncates toward zero: for a non-negative argument the result is the largest integer not above it, for a negative one the smallest integer not below it |
| Sequences.IndexOf | stiler.py:253 | `list.index(x)` returns a position holding `x` with no earlier occurrence of `x` |
| Sequences.RemoveFirst | stiler.py:678 | `list.remove(x)` shortens the list by one and removes exactly one copy of `x` from its multiset |
| Sequences.Filter | stiler.py:600-602 | the intended filter keeps only elements that satisfy the predicate and never lengthens the list |
| Sequences.FilterMembers | stiler.py:600-602 | an element is in the filtered list exactly when it is in the list and satisfies the predicate |
| Sequences.RemoveFirstNoDup | stiler.py:678 | in a duplicate-free list, removing the first occurrence removes every occurrence |
| Sequences.FilterRemoveRejected | stiler.py:600-602 | deleting a rejected element at any position leaves the filtered list unchanged |
| Screen.UsableArea | stiler.py:893-896 | the usable area starts after the left and top paddings and ends before the right and bottom ones |
| Screen.MakeContext | stiler.py:893-896 | the context's origin and extent are those of the usable area, and the decoration, master factor, monitor count, paddings and width tables are carried over unchanged |
| WidthStepper.Nearest | stiler.py:240-244 | the result is a table entry, no entry is strictly closer to the width, and on a distance tie the smaller entry wins |
| WidthStepper.NearestUnique | stiler.py:240-244 | exactly one entry has that property, so the nearest entry is determined by it |
| WidthStepper.NearestOfEntry | stiler.py:240-244 | the entry nearest to a table entry is that entry |
| WidthStepper.SuccIsMod | stiler.py:255 | `(i + 1) % len` is the next index, and 0 after the last |
| WidthStepper.NextIndex | stiler.py:253-255 | the next index is the cyclic successor of the nearest entry's first index |
| WidthStepper.NextRatio | stiler.py:253-255 | the next ratio is an entry of the table |
| WidthStepper.NextWidth | stiler.py:247-257 | with ratios in [0, 1] and a non-negative usable width, the next width lies between 0 and the screen width less two borders |
| WidthStepper.ScaledWidthBounded | stiler.py:257 | a ratio in [0, 1] of a non-negative width, truncated, stays between 0 and that width |
| WidthStepper.CornerWidth | stiler.py:495-496 | the corner width obeys the same bounds, using the corner table |
| WidthStepper.MiddleWidth | stiler.py:491-492 | the middle width is the next centre width plus one border, so it lies between one border and the screen width less one border |
| WidthStepper.NextRatioFromEntry | stiler.py:253-255 | in a duplicate-free table, the step from entry `i` goes to entry `i + 1`, wrapping to entry 0 |
| WidthStepper.AdvanceShift | stiler.py:253-255 | `k` steps from entry `i` land on the entry `k` places further on, cyclically |
| WidthStepper.AdvanceFromEntry | stiler.py:253-255 | up to table-length steps from entry `i` land on `i + k`, wrapping past the end at most once |
| WidthStepper.ReachesEveryEntry | stiler.py:253-255 | every entry is reached from every entry in fewer steps than the table has entries |
| WidthStepper.FullCycle | stiler.py:253-255 | stepping the ratio as many times as the table has entries, from any ratio, comes back to the entry nearest to it |
| WidthStepper.StallsOnRepeatedEntry | stiler.py:253-255 | with two equal neighbouring entries the stepping stalls on the first copy for ever |
| WidthStepper.PixelWidthFixedPoint | stiler.py:247-257 | on a 400 pixel screen with 2 pixel borders and the table [0.25, 0.26], a window 102 pixels wide is given 102 pixels again, so stepping in pixels stalls |
| WidthTables.Insert | stiler.py:876-877 | inserting into an ascending duplicate-free table keeps it so and adds exactly the new value |
| WidthTables.SortedSet | stiler.py:876-877 | `sorted(set(s))` is strictly ascending and has exactly the elements of `s` |
| WidthTables.CenterCandidatesComplete | stiler.py:879-880 | every corner entry below one half contributes its rounded `abs(2y - 1)` |
| WidthTables.CenterCandidatesSound | stiler.py:879-880 | every candidate comes from a corner entry below one half, whose position is returned |
| WidthTables.CenterCandidatesExact | stiler.py:879-880 | the candidates are exactly the rounded images of the corner entries below one half |
| WidthTables.MirrorWidths | stiler.py:869-871 | the mirrors are `round(abs(1 - w), 2)` of each seed, in seed order |
| WidthTables.CornerTable | stiler.py:874-877 | the corner table is strictly ascending, holds every seed and every mirror, and nothing else |
| WidthTables.CornerTableMembers | stiler.py:874-877 | the same membership facts about the deduplicated, sorted seeds and mirrors |
| WidthTables.CenterTable | stiler.py:879-883 | the centre table is strictly ascending, holds 1.0 and every candidate, and nothing else |
| WidthTables.BaseWidthTables | stiler.py:866-883 | both tables before monitor scaling, with all of the above |
| WidthTables.ScaleForMonitors | stiler.py:886-887 | scaling keeps the table's length |
| WidthTables.ScaledStaysOrdered | stiler.py:886-887 | for a positive monitor count and a rounding that keeps order, a scaled ascending table is still non-decreasing |
| Position.NextPosX | stiler.py:400-412 | the X origin is the start of the window's segment (the first, or else the second), plus the offset when it is less than a segment less one border; with a positive screen width and monitor count, a non-negative border and a non-negative offset, it lies inside that segment |
| Position.LeftPosX | stiler.py:508-509 | a left placement starts at the start of its segment |
| Position.RightPosX | stiler.py:503-505 | a window wider than one border ends at its segment's right edge, less the padding correction; a narrower one starts at the segment start, less the same correction |
| Position.MiddlePosX | stiler.py:499-500 | when the centring offset fits, the window is centred in its segment, shifted right by a quarter border; otherwise it starts a quarter border into the segment |
| Position.BottomHeight | stiler.py:475-476 | two bottom heights plus their decoration make the usable height |
| Position.TopHeight | stiler.py:467-468 | two top heights plus their decoration make the usable height |
| Position.MiddleHeight | stiler.py:471-472 | the middle height is two half heights plus one decoration |
| Position.TopPosY | stiler.py:487-488 | the top origin is the usable top less the top padding over the border width, and the usable top when there is no top padding |
| Position.MiddlePosY | stiler.py:483-484 | the middle origin, like the top one, is the usable top less the top padding over the border width, and the usable top when there is no top padding |
| Position.BottomPosY | stiler.py:479-480 | without a bottom padding, the bottom origin is half a border below the vertical middle of the usable area |
| Position.TopAboveBottom | stiler.py:467-488 | a top window with its decoration ends half a border plus the padding difference above the bottom origin, so with equal paddings and a positive border the two never overlap |
| Position.ActuatedCoordinate | stiler.py:367-368 | the coordinate passed to the mover is truncated and clamped at 0 |
| Layouts.FromName | stiler.py:337-343 | a recognised name maps to the layout of that name, and an unrecognised one to none |
| Layouts.LastUsedLayout | stiler.py:337-343 | the recorded layout is replayed when its name is known, and the simple tile otherwise or when nothing is recorded |
| Layouts.RecordAfter | stiler.py:260-265 | after any layout but maximise-all, replaying the record gives that layout; maximise-all leaves the record as it was |
| Layouts.RowsAscending | stiler.py:282-283 | with a non-negative height, row tops never decrease with the row index |
| Layouts.RowsDisjoint | stiler.py:280-283 | when a row fits its decoration, each row with its decoration ends by the top of the next |
| Layouts.LastRowFits | stiler.py:280-283 | under the same condition the last row ends inside the usable height |
| Layouts.MasterBesideStack | stiler.py:276-279 | with non-negative widths on both sides, the master ends left of the stack and the stack ends inside the usable width |
| Layouts.ColumnsFit | stiler.py:297-306 | under the same kind of condition for columns, the first column starts right of the master and the last ends inside the usable width |
| Layouts.ColumnSpan | stiler.py:299-306 | the arithmetic behind it: the columns with their borders end by the master share plus the rest |
| Layouts.ColumnsAbut | stiler.py:305 | each column starts one border after the previous one ends |
| Layouts.SimpleTileLayout | stiler.py:268-286 | one rectangle per window (one even for none); the master or, for one window, the full rectangle first; the others in rows right of the master with ascending tops |
| Layouts.ColumnTileLayout | stiler.py:289-308 | the same count and first rectangle; the others side by side in columns, each one border after the previous |
| Layouts.VerticalTileLayout | stiler.py:311-321 | one full-height tile per window, side by side, adjacent tiles abutting, the last ending inside the usable width |
| Layouts.VerticalTilesFit | stiler.py:314-318 | equal tiles `int(MaxWidth / n)` wide fit `n` times in the usable width |
| Layouts.HorizTileLayout | stiler.py:324-334 | one full-width tile per window, one per row, with ascending tops |
| Layouts.SingleTileIsFull | stiler.py:311-334 | for a single window the equal column is the full usable width and the equal row the full usable height at the usable top |
| Layouts.MaxAllLayout | stiler.py:346-355 | one copy of the full rectangle per window |
| Layouts.Tile | stiler.py:268-355 | calling a layout by strategy: one rectangle per window (the master layouts give one for none), rectangle `n` is that strategy's closed form `TileRect` for window `n`, the full rectangle for a single window whatever the layout, and the record afterwards |
| Layouts.TileSizesNonNegative | stiler.py:268-355 | on a non-degenerate screen (the usable area, the master share and each row, column or tile share at least as large as its decoration) no rectangle of any strategy has a negative width or height |
| WindowList.Keep | stiler.py:577-585 | each pass keeps only windows whose presence in the other list is as asked, and never lengthens the list |
| WindowList.CompareWinList | stiler.py:577-585 | the merge is the old windows still present, in old order, then the new windows, in new order |
| WindowList.KeepMembers | stiler.py:577-585 | a window is kept exactly when it is in the list and its presence in the other list is as asked |
| WindowList.KeepSubseq | stiler.py:577-585 | each pass keeps the order of its list |
| WindowList.ReconcileMembers | stiler.py:577-585 | the merge holds exactly the windows of the new list |
| WindowList.ReconcileFromEmpty | stiler.py:577-585 | merging with an empty old list gives the new list |
| WindowList.ReconcileSame | stiler.py:591-598 | merging a list with itself gives it back, so the shortcut for an unchanged list agrees with the merge |
| WindowList.ReconcilePermutation | stiler.py:577-585 | with duplicate-free lists the merge is a duplicate-free permutation of the new list |
| WindowList.SkipFilter | stiler.py:600-602 | the filter as written keeps no more windows than it is given |
| WindowList.SkipFilterSubseq | stiler.py:600-602 | the filter as written only deletes: its result is a subsequence of its input |
| WindowList.PruneInvalid | stiler.py:600-602 | the in-place filter as written only deletes, and on a duplicate-free list computes `SkipFilter` |
| WindowList.SkipFilterKeepsValid | stiler.py:600-602 | the filter as written never deletes a valid window |
| WindowList.SkipFilterKeepsInvalid | stiler.py:600-602 | of two invalid windows in a row the second survives the filter as written |
| WindowList.PruneInvalidFixed | stiler.py:600-602 | the corrected filter leaves exactly the valid windows, in their order |
| WindowList.ReconciledAgrees | stiler.py:588-598 | the list to filter is the current list when nothing is recorded and its merge with the record otherwise, and holds exactly the current windows |
| WindowList.ReconciledPermutation | stiler.py:588-598 | with duplicate-free lists, the list to filter is a duplicate-free permutation of the current list |
| WindowList.CreateWinList | stiler.py:588-604 | the result is the valid windows of the reconciled list, in its order |
| WindowList.CreateWinListAsWritten | stiler.py:588-604 | with the filter as written, the result is a subsequence of the reconciled list; with duplicate-free lists it is `SkipFilter` of that list and holds every valid window of the desktop |
| WindowList.CreatedMembers | stiler.py:588-604 | a window is in the result exactly when it is on the current desktop and valid |
| WindowList.LargestWindow | stiler.py:643-658 | the result is a window of the list: the first of largest positive area, or the first window when no area is positive |
| Reorder.RotateRight | stiler.py:710-711 | the last window comes first and the others follow in order |
| Reorder.RotateLeft | stiler.py:720-721 | the first window goes last and the others move up in order |
| Reorder.CycleOrder | stiler.py:710-711 | the insert-then-slice of `cycle_option` is the right rotation and keeps the multiset |
| Reorder.AnticycleOrder | stiler.py:720-721 | the insert-then-slice of `anticycle_option` is the left rotation and keeps the multiset |
| Reorder.RotateInverse | stiler.py:705-722 | cycling one way undoes cycling the other way |
| Reorder.RotateRightTimesIndex | stiler.py:710-711 | after `k` cycles the window at `i` sits `k` places on, wrapping round |
| Reorder.CycleRestores | stiler.py:710-711 | cycling as many times as there are windows restores the order |
| Reorder.MoveToFront | stiler.py:678-679 | the active window comes first, the others keep their order and the multiset is kept; without duplicates the result has none and holds no other copy of the active window |
| Options.MasterOption | stiler.py:614-627 | `simple_option` and `simple_col_option` tile the created list in order with the simple or column tile's rectangles, record it for the desktop and record the layout |
| Options.ActiveFirstOption | stiler.py:683-702 | the vertical, horizontal and maximise-all commands put the active window first, keep the rest in order, lay out one rectangle per window with the given strategy's rectangles and record both |
| Options.SwapOption | stiler.py:672-680 | `swap_option` puts the active window first and keeps the rest of the created list in order, lays out one rectangle per window with the last used layout's rectangles, rewrites the record as that layout does, so it stays the last used layout, and records the windows |
| Options.CycleOption | stiler.py:705-722 | `cycle_option` and `anticycle_option` rotate the created list, lay it out with the last used layout's rectangles, rewrite the record as that layout does and so keep it as the last used one |

## Left out

- Shell and X11 access is not modelled: `get_output`, `is_valid_window`'s `xprop` queries, `initialize`'s `wmctrl` scraping, window size and position queries, the active-window query and `has_required_programs`. Their results are parameters.
- Actuation is not modelled: `move_window`, `move_active`, `raise_window`, `swap_windows`, and the moves in `arrange`. Only the final clamp of a coordinate is modelled, as `Position.ActuatedCoordinate`. `arrange`'s pairing of rectangle `n` with window `n` is implicit in the returned sequences.
- Persistence through pickle files (`store`, `retrieve`) is not modelled. The stored maps are values passed in and returned; the log message in `persist_layout` is dropped.
- The single-window commands (`top_option`, `bottom_right_option`, `left_option` and so on) and `maximize_option` are not modelled as commands. Each only reads window queries and calls `move_window`; the formulas they combine are modelled in `Position` and `WidthStepper`.
- `swap_grid_option` is not modelled, because it only swaps two windows through X11. The largest-window choice it uses is `WindowList.LargestWindow`.
- Configuration parsing (`initconfig`), command-line dispatch through `globals()` (`eval_function`, `main`, `help_option`, the flags), `.desktop` file generation and logging are not modelled. They are glue and reflection.
- IEEE floating point is not modelled: floats are exact reals, and `round(x, 2)` is an arbitrary function parameter.
- WidthStepper.Advance: steps the ratio, not the truncated pixel width the program reads back from the window. `WidthStepper.FullCycle`, `WidthStepper.ReachesEveryEntry` and `WidthStepper.AdvanceFromEntry` therefore describe the cycle of ratios; in pixels the cycle can stall, as `WidthStepper.PixelWidthFixedPoint` shows.
- Layouts.LastUsedLayout: recognises only the five layout function names. The source returns any callable module global of the recorded name.
- WindowList.PruneInvalid: computes `SkipFilter` exactly only for duplicate-free lists. With duplicates, `remove` may delete an earlier copy, so the model states only that windows are deleted and never added.
- WindowList.CreateWinList: uses the corrected validity filter (see Findings). With the filter as written the result is `WindowList.CreateWinListAsWritten`, which can also keep an invalid window.
- WindowList.CreatedMembers: is about the corrected filter; with the filter as written an invalid window can also be in the list, as `WindowList.CreateWinListAsWritten` allows.
- Options.MasterOption: starts from the list of the corrected filter; the as-written list is `WindowList.CreateWinListAsWritten`.
- Options.ActiveFirstOption: starts from the list of the corrected filter; the as-written list is `WindowList.CreateWinListAsWritten`.
- Options.SwapOption: starts from the list of the corrected filter; the as-written list is `WindowList.CreateWinListAsWritten`.
- Options.CycleOption: starts from the list of the corrected filter; the as-written list is `WindowList.CreateWinListAsWritten`.
- WindowList.LargestWindow: takes the window list as a parameter. The source builds it with `create_win_list` first, which `WindowList.CreateWinList` models. `Options` does not compose the two, because the result only feeds a swap through X11.
- When `create_win_list` does no reconciliation, the list it filters is the same Python object as `WinList[Desktop]`. Its in-place removals then also change that entry until `arrange` overwrites it. The model works on values and does not capture this aliasing.
- The source's run-time errors are stated as `requires`:
  - a missing desktop key (`KeyError`);
  - an active window not in the list (`ValueError` from `remove`);
  - an empty list to cycle (`IndexError`);
  - an empty window list for the largest-window choice (`IndexError`, stiler.py:650);
  - a zero window count for the equal layouts, a zero `MaxWidth` in width stepping, and a zero monitor count or border width in the placement formulas (`ZeroDivisionError`);
  - an empty width table (`ValueError` from `min`).
- Ordering and distinctness after the monitor scaling are not claimed, because rounding can merge entries. Only non-decreasing order under an order-keeping rounding is proved.
- The geometry lemmas carry the conditions under which the property holds: non-negative sizes, a border that is not negative, rows tall enough for their decoration. The source assumes these and does not check them.

## Findings

| source | as written | input that shows it | evidently intended | confidence | as-written member | corrected member |
|---|---|---|---|---|---|---|
| stiler.py:600-602 | the loop over the window list deletes each invalid window from that same list while iterating, so the window that moves into a deleted window's place is never checked | two consecutive invalid windows `[x, y]`: `x` is removed, `y` moves to index 0, and the loop ends with `[y]` | keep exactly the valid windows, in their order | not executed | WindowList.SkipFilterKeepsInvalid | WindowList.PruneInvalidFixed |

`WindowList.PruneInvalid` models the loop as written, `WindowList.SkipFilter` is the function it computes, and `WindowList.CreateWinListAsWritten` is `create_win_list` with it. `WindowList.CreateWinList`, and through it every command in `Options`, uses the corrected filter.
