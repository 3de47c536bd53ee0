/**
 * The tiling commands: each builds the window list of the current desktop,
 * reorders it, asks a layout for one rectangle per window, and records the
 * new order as the current desktop's list (rectangle `n` then goes to
 * window `n`). The recorded map is returned instead of being written out.
 */
module Options {
  import opened Sequences
  import opened Screen
  import opened Layouts
  import opened WindowList
  import opened Reorder

  /** The list every command starts from: the valid, reconciled windows of the desktop. */
  function Created<W(==)>(winList: map<int, seq<W>>, oldWinList: map<int, seq<W>>, desktop: int,
                          isValid: W -> bool): seq<W>
    requires desktop in winList
    requires oldWinList != map[] ==> desktop in oldWinList
  {
    Filter(Reconciled(winList, oldWinList, desktop), isValid)
  }

  /**
   * `simple_option` and `simple_col_option`: tile the windows in their
   * current order with a master layout.
   */
  method MasterOption<W(==)>(ctx: Context, s: Strategy, stored: map<string, string>, winList: map<int, seq<W>>, oldWinList: map<int, seq<W>>,
                             desktop: int, isValid: W -> bool)
    returns (windows: seq<W>, layout: seq<Rect>, recorded: map<int, seq<W>>, record: map<string, string>)
    requires s == SimpleTile || s == ColumnTile
    requires desktop in winList
    requires oldWinList != map[] ==> desktop in oldWinList
    ensures windows == Created(winList, oldWinList, desktop, isValid)
    ensures |windows| >= 1 ==> |layout| == |windows|
    ensures |windows| == 0 ==> |layout| == 1
    ensures forall n :: 0 <= n < |layout| ==> layout[n] == TileRect(ctx, s, |windows|, n)
    ensures recorded == winList[desktop := windows]
    ensures record == RecordAfter(s, stored)
  {
    windows := CreateWinList(winList, oldWinList, desktop, isValid);
    layout, record := Tile(ctx, s, |windows|, stored);
    recorded := winList[desktop := windows];
  }

  /**
   * `swap_option`, `vertical_option`, `horizontal_option` and
   * `max_all_option`: put the active window in the master position, then
   * tile with the last used layout or with a fixed one. The active window
   * must be among the windows to tile.
   */
  method ActiveFirstOption<W(==)>(ctx: Context, s: Strategy, stored: map<string, string>, winList: map<int, seq<W>>,
                                  oldWinList: map<int, seq<W>>, desktop: int, isValid: W -> bool, active: W)
    returns (windows: seq<W>, layout: seq<Rect>, recorded: map<int, seq<W>>, record: map<string, string>)
    requires desktop in winList
    requires oldWinList != map[] ==> desktop in oldWinList
    requires active in Created(winList, oldWinList, desktop, isValid)
    ensures |windows| >= 1 && windows[0] == active
    ensures windows[1..] == RemoveFirst(Created(winList, oldWinList, desktop, isValid), active)
    ensures multiset(windows) == multiset(Created(winList, oldWinList, desktop, isValid))
    ensures |layout| == |windows|
    ensures forall n :: 0 <= n < |layout| ==> layout[n] == TileRect(ctx, s, |windows|, n)
    ensures recorded == winList[desktop := windows]
    ensures record == RecordAfter(s, stored)
  {
    var created := CreateWinList(winList, oldWinList, desktop, isValid);
    windows := MoveToFront(created, active);
    layout, record := Tile(ctx, s, |windows|, stored);
    recorded := winList[desktop := windows];
  }

  /**
   * `swap_option`: the active window to the master position, tiled with the
   * layout last used.
   */
  method SwapOption<W(==)>(ctx: Context, stored: map<string, string>, winList: map<int, seq<W>>,
                           oldWinList: map<int, seq<W>>, desktop: int, isValid: W -> bool, active: W)
    returns (windows: seq<W>, layout: seq<Rect>, recorded: map<int, seq<W>>, record: map<string, string>)
    requires desktop in winList
    requires oldWinList != map[] ==> desktop in oldWinList
    requires active in Created(winList, oldWinList, desktop, isValid)
    ensures |windows| >= 1 && windows[0] == active
    ensures windows[1..] == RemoveFirst(Created(winList, oldWinList, desktop, isValid), active)
    ensures multiset(windows) == multiset(Created(winList, oldWinList, desktop, isValid))
    ensures |layout| == |windows|
    ensures forall n :: 0 <= n < |layout| ==> layout[n] == TileRect(ctx, LastUsedLayout(stored), |windows|, n)
    ensures recorded == winList[desktop := windows]
    ensures record == RecordAfter(LastUsedLayout(stored), stored)
    ensures LastUsedLayout(record) == LastUsedLayout(stored)
  {
    windows, layout, recorded, record := ActiveFirstOption(ctx, LastUsedLayout(stored), stored, winList, oldWinList, desktop, isValid, active);
  }

  /**
   * `cycle_option` and `anticycle_option`: every window moves one place
   * through the master position, tiled with the layout last used. There
   * must be a window to tile.
   */
  method CycleOption<W(==)>(ctx: Context, forward: bool, stored: map<string, string>, winList: map<int, seq<W>>,
                            oldWinList: map<int, seq<W>>, desktop: int, isValid: W -> bool)
    returns (windows: seq<W>, layout: seq<Rect>, recorded: map<int, seq<W>>, record: map<string, string>)
    requires desktop in winList
    requires oldWinList != map[] ==> desktop in oldWinList
    requires |Created(winList, oldWinList, desktop, isValid)| >= 1
    ensures windows == if forward then RotateRight(Created(winList, oldWinList, desktop, isValid))
                       else RotateLeft(Created(winList, oldWinList, desktop, isValid))
    ensures multiset(windows) == multiset(Created(winList, oldWinList, desktop, isValid))
    ensures |layout| == |windows|
    ensures forall n :: 0 <= n < |layout| ==> layout[n] == TileRect(ctx, LastUsedLayout(stored), |windows|, n)
    ensures recorded == winList[desktop := windows]
    ensures record == RecordAfter(LastUsedLayout(stored), stored)
    ensures LastUsedLayout(record) == LastUsedLayout(stored)
  {
    var created := CreateWinList(winList, oldWinList, desktop, isValid);
    if forward {
      windows := CycleOrder(created);
    } else {
      windows := AnticycleOrder(created);
    }
    layout, record := Tile(ctx, LastUsedLayout(stored), |windows|, stored);
    recorded := winList[desktop := windows];
  }
}
