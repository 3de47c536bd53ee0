/**
 * The multi-window layouts. Each maps a window count to the ordered list of
 * rectangles for the windows (rectangle `n` goes to window `n`; window 0 is
 * the master), and the last layout used is remembered by name so that the
 * reordering commands can lay the windows out the same way again.
 */
module Layouts {
  import opened Numeric
  import opened Screen

  /** The layout functions that can be looked up by name. */
  datatype Strategy = SimpleTile | ColumnTile | VerticalTile | HorizTile | MaxAll

  datatype Option<T> = None | Some(value: T)

  /** The name under which a layout function is stored and looked up. */
  function Name(s: Strategy): string {
    match s
    case SimpleTile => "get_simple_tile"
    case ColumnTile => "get_column_tile"
    case VerticalTile => "get_vertical_tile"
    case HorizTile => "get_horiz_tile"
    case MaxAll => "get_max_all"
  }

  /** The layout function of a given name, if there is one. */
  function FromName(name: string): (r: Option<Strategy>)
    ensures r.Some? ==> Name(r.value) == name
    ensures r.None? ==> forall s :: Name(s) != name
  {
    if name == "get_simple_tile" then Some(SimpleTile)
    else if name == "get_column_tile" then Some(ColumnTile)
    else if name == "get_vertical_tile" then Some(VerticalTile)
    else if name == "get_horiz_tile" then Some(HorizTile)
    else if name == "get_max_all" then Some(MaxAll)
    else None
  }

  /**
   * The layout to replay: the one whose name is recorded under "layout",
   * and the simple tile when nothing is recorded or the name is unknown.
   */
  function LastUsedLayout(stored: map<string, string>): (s: Strategy)
    ensures "layout" in stored && FromName(stored["layout"]).Some? ==> Name(s) == stored["layout"]
    ensures "layout" !in stored || FromName(stored["layout"]).None? ==> s == SimpleTile
  {
    match FromName(if "layout" in stored then stored["layout"] else "get_simple_tile")
    case Some(s) => s
    case None => SimpleTile
  }

  /** Different layouts are stored under different names. */
  lemma NamesDistinct(s: Strategy, t: Strategy)
    requires Name(s) == Name(t)
    ensures s == t
  {
  }

  /**
   * The record after a layout function runs: every layout but the
   * maximise-all one replaces it with its own name, so replaying it gives
   * that layout back; the maximise-all layout leaves the record as it was.
   */
  function RecordAfter(s: Strategy, stored: map<string, string>): (r: map<string, string>)
    ensures s != MaxAll ==> LastUsedLayout(r) == s
    ensures s == MaxAll ==> r == stored
  {
    if s == MaxAll then stored
    else
      var r := map["layout" := Name(s)];
      NamesDistinct(LastUsedLayout(r), s);
      r
  }

  /** The usable area less the decoration: the rectangle of a maximised window. */
  function FullRect(ctx: Context): Rect {
    Rect(ctx.origX, ctx.origY, ctx.maxWidth, ctx.maxHeight - ctx.winTitle - ctx.winBorder)
  }

  /** The master window: the left `mwFactor` of the usable width, at full height. */
  function MasterRect(ctx: Context): Rect {
    Rect(ctx.origX, ctx.origY, Trunc(ctx.maxWidth as real * ctx.mwFactor),
         ctx.maxHeight - ctx.winTitle - ctx.winBorder)
  }

  /** Left edge of the area right of the master, two borders further. */
  function StackX(ctx: Context): int {
    ctx.origX + Trunc(ctx.maxWidth as real * ctx.mwFactor + (2 * ctx.winBorder) as real)
  }

  /** Width of a stacked window right of the master. */
  function StackWidth(ctx: Context): int {
    Trunc(ctx.maxWidth as real * (1.0 - ctx.mwFactor) - (2 * ctx.winBorder) as real)
  }

  /** Top of row `n` when the usable height is shared by `rows` rows. */
  function RowY(ctx: Context, rows: int, n: int): int
    requires rows != 0
  {
    ctx.origY + Trunc(ctx.maxHeight as real / rows as real * n as real)
  }

  /** Height of one of `rows` rows, less the decoration. */
  function RowHeight(ctx: Context, rows: int): int
    requires rows != 0
  {
    Trunc(ctx.maxHeight as real / rows as real - ctx.winTitle as real - ctx.winBorder as real)
  }

  /** Width of one of `columns` columns right of the master. */
  function ColumnWidth(ctx: Context, columns: int): int
    requires columns != 0
  {
    Trunc(ctx.maxWidth as real * (1.0 - ctx.mwFactor) / columns as real - (2 * ctx.winBorder) as real)
  }

  /** Left edge of column `n`: each column starts one border after the previous one ends. */
  function ColumnX(ctx: Context, columns: int, n: int): int
    requires columns != 0
  {
    StackX(ctx) + (ColumnWidth(ctx, columns) + ctx.winBorder) * n
  }

  /** Width of each of `count` equal side-by-side windows. */
  function VerticalWidth(ctx: Context, count: int): int
    requires count != 0
  {
    Trunc(ctx.maxWidth as real / count as real)
  }

  /** With a single window, a column or a row is the whole usable area. */
  lemma SingleTileIsFull(ctx: Context)
    ensures VerticalWidth(ctx, 1) == ctx.maxWidth
    ensures RowY(ctx, 1, 0) == ctx.origY
    ensures RowHeight(ctx, 1) == ctx.maxHeight - ctx.winTitle - ctx.winBorder
  {
    assert ctx.maxWidth as real / 1 as real == ctx.maxWidth as real;
    TruncOfInt(ctx.maxWidth);
    assert ctx.maxHeight as real / 1 as real * 0 as real == 0 as real;
    TruncOfInt(0);
    assert ctx.maxHeight as real / 1 as real - ctx.winTitle as real - ctx.winBorder as real
        == (ctx.maxHeight - ctx.winTitle - ctx.winBorder) as real;
    TruncOfInt(ctx.maxHeight - ctx.winTitle - ctx.winBorder);
  }

  /** Row tops grow with the row index. */
  lemma RowsAscending(ctx: Context, rows: int, i: int, j: int)
    requires rows > 0 && ctx.maxHeight >= 0 && 0 <= i <= j
    ensures RowY(ctx, rows, i) <= RowY(ctx, rows, j)
  {
    var step := ctx.maxHeight as real / rows as real;
    assert RowY(ctx, rows, i) == ctx.origY + Trunc(step * i as real);
    assert RowY(ctx, rows, j) == ctx.origY + Trunc(step * j as real);
    assert step >= 0.0;
    TruncScaledMonotone(step, i, j);
  }

  /**
   * When a row is tall enough for its decoration, each row with its
   * decoration ends at or before the top of the next row.
   */
  lemma RowsDisjoint(ctx: Context, rows: int, n: int)
    requires rows > 0 && n >= 0 && ctx.winTitle + ctx.winBorder >= 0
    requires ctx.maxHeight as real / rows as real - ctx.winTitle as real - ctx.winBorder as real >= 0.0
    ensures RowY(ctx, rows, n) + RowHeight(ctx, rows) + ctx.winTitle + ctx.winBorder <= RowY(ctx, rows, n + 1)
  {
    var step := ctx.maxHeight as real / rows as real;
    assert RowY(ctx, rows, n) == ctx.origY + Trunc(step * n as real);
    assert RowY(ctx, rows, n + 1) == ctx.origY + Trunc(step * (n + 1) as real);
    assert RowHeight(ctx, rows) == Trunc(step - ctx.winTitle as real - ctx.winBorder as real);
    TruncStep(step, n, ctx.winTitle, ctx.winBorder);
  }

  /** Under the same condition, the last row with its decoration ends inside the usable height. */
  lemma LastRowFits(ctx: Context, rows: int)
    requires rows > 0 && ctx.winTitle + ctx.winBorder >= 0
    requires ctx.maxHeight as real / rows as real - ctx.winTitle as real - ctx.winBorder as real >= 0.0
    ensures RowY(ctx, rows, rows - 1) + RowHeight(ctx, rows) + ctx.winTitle + ctx.winBorder <= ctx.origY + ctx.maxHeight
  {
    RowsDisjoint(ctx, rows, rows - 1);
    DivCancel(ctx.maxHeight as real, rows as real);
    TruncOfInt(ctx.maxHeight);
  }

  /**
   * With a master factor that leaves non-negative widths on both sides and
   * a non-negative border, the master ends left of the stack and the stack
   * ends inside the usable width.
   */
  lemma MasterBesideStack(ctx: Context)
    requires ctx.winBorder >= 0
    requires ctx.maxWidth as real * ctx.mwFactor >= 0.0
    requires ctx.maxWidth as real * (1.0 - ctx.mwFactor) - (2 * ctx.winBorder) as real >= 0.0
    ensures ctx.origX + MasterRect(ctx).width <= StackX(ctx)
    ensures StackX(ctx) + StackWidth(ctx) <= ctx.origX + ctx.maxWidth
  {
    var m := ctx.maxWidth as real * ctx.mwFactor;
    var b := (2 * ctx.winBorder) as real;
    var rest := ctx.maxWidth as real * (1.0 - ctx.mwFactor) - b;
    TruncMonotone(m, m + b);
    TruncSuperadditive(m + b, rest);
    assert m + b + rest == ctx.maxWidth as real;
    TruncOfInt(ctx.maxWidth);
  }

  /**
   * Under the same kind of condition for the columns, the columns start
   * right of the master and the last column ends inside the usable width.
   */
  lemma ColumnsFit(ctx: Context, columns: int)
    requires columns >= 1 && ctx.winBorder >= 0
    requires ctx.maxWidth as real * ctx.mwFactor >= 0.0
    requires ctx.maxWidth as real * (1.0 - ctx.mwFactor) / columns as real - (2 * ctx.winBorder) as real >= 0.0
    ensures ctx.origX + MasterRect(ctx).width <= ColumnX(ctx, columns, 0)
    ensures ColumnX(ctx, columns, columns - 1) + ColumnWidth(ctx, columns) <= ctx.origX + ctx.maxWidth
  {
    var m := ctx.maxWidth as real * ctx.mwFactor;
    var rest := ctx.maxWidth as real * (1.0 - ctx.mwFactor);
    TruncMonotone(m, m + (2 * ctx.winBorder) as real);
    ColumnWidthBound(ctx, columns);
    StackOffsetBound(ctx);
    ColumnSpan(StackX(ctx) - ctx.origX, ColumnWidth(ctx, columns), columns, ctx.winBorder, m, rest);
    assert m + rest == ctx.maxWidth as real;
  }

  lemma ColumnWidthBound(ctx: Context, columns: int)
    requires columns >= 1
    requires ctx.maxWidth as real * (1.0 - ctx.mwFactor) / columns as real - (2 * ctx.winBorder) as real >= 0.0
    ensures ColumnWidth(ctx, columns) as real <= ctx.maxWidth as real * (1.0 - ctx.mwFactor) / columns as real - (2 * ctx.winBorder) as real
  {
  }

  lemma StackOffsetBound(ctx: Context)
    requires ctx.maxWidth as real * ctx.mwFactor >= 0.0 && ctx.winBorder >= 0
    ensures (StackX(ctx) - ctx.origX) as real <= ctx.maxWidth as real * ctx.mwFactor + (2 * ctx.winBorder) as real
  {
  }

  /**
   * The arithmetic behind `ColumnsFit`: `c` columns `w` wide, each followed
   * by a border `wb`, starting at `x0 <= m + 2wb`, with `w <= rest/c - 2wb`,
   * end by `m + rest`.
   */
  lemma ColumnSpan(x0: int, w: int, c: int, wb: int, m: real, rest: real)
    requires c >= 1 && wb >= 0
    requires x0 as real <= m + (2 * wb) as real
    requires w as real <= rest / c as real - (2 * wb) as real
    ensures (x0 + (w + wb) * (c - 1) + w) as real <= m + rest
  {
    var u := rest / c as real - (2 * wb) as real;
    MulLeft(c as real, w as real, u);
    DivCancel(rest, c as real);
    assert c as real * u == rest - (2 * c * wb) as real;
    assert (c * w) as real == c as real * w as real;
    assert x0 + (w + wb) * (c - 1) + w == x0 + c * w + (c - 1) * wb;
  }

  /**
   * Rectangle `n` of strategy `s` for `wincount` windows: the closed form
   * each layout method below is proved to build, one window at a time.
   */
  function TileRect(ctx: Context, s: Strategy, wincount: nat, n: nat): Rect
    requires s == VerticalTile || s == HorizTile ==> wincount >= 1
    requires (s == SimpleTile || s == ColumnTile) && n >= 1 ==> wincount >= 2
  {
    match s
    case SimpleTile =>
      if n == 0 then (if wincount == 1 then FullRect(ctx) else MasterRect(ctx))
      else Rect(StackX(ctx), RowY(ctx, wincount - 1, n - 1), StackWidth(ctx), RowHeight(ctx, wincount - 1))
    case ColumnTile =>
      if n == 0 then (if wincount == 1 then FullRect(ctx) else MasterRect(ctx))
      else Rect(ColumnX(ctx, wincount - 1, n - 1), ctx.origY, ColumnWidth(ctx, wincount - 1),
                ctx.maxHeight - ctx.winBorder - ctx.winTitle)
    case VerticalTile =>
      Rect(ctx.origX + n * VerticalWidth(ctx, wincount), ctx.origY, VerticalWidth(ctx, wincount),
           ctx.maxHeight - ctx.winTitle - ctx.winBorder)
    case HorizTile => Rect(ctx.origX, RowY(ctx, wincount, n), ctx.maxWidth, RowHeight(ctx, wincount))
    case MaxAll => FullRect(ctx)
  }

  /**
   * On a non-degenerate screen no rectangle has a negative size: the usable
   * area and each share of it that a strategy cuts (the master, the stack,
   * a row, a column, an equal tile) are at least as large as their
   * decoration.
   */
  lemma TileSizesNonNegative(ctx: Context, s: Strategy, wincount: nat, n: nat)
    requires s == VerticalTile || s == HorizTile ==> wincount >= 1
    requires (s == SimpleTile || s == ColumnTile) && n >= 1 ==> wincount >= 2
    requires ctx.maxWidth >= 0 && ctx.maxHeight - ctx.winTitle - ctx.winBorder >= 0
    requires (s == SimpleTile || s == ColumnTile) && n == 0 ==> ctx.maxWidth as real * ctx.mwFactor >= 0.0
    requires s == SimpleTile && n >= 1 ==>
               ctx.maxWidth as real * (1.0 - ctx.mwFactor) - (2 * ctx.winBorder) as real >= 0.0
               && ctx.maxHeight as real / (wincount - 1) as real - ctx.winTitle as real - ctx.winBorder as real >= 0.0
    requires s == ColumnTile && n >= 1 ==>
               ctx.maxWidth as real * (1.0 - ctx.mwFactor) / (wincount - 1) as real - (2 * ctx.winBorder) as real >= 0.0
    requires s == HorizTile ==>
               ctx.maxHeight as real / wincount as real - ctx.winTitle as real - ctx.winBorder as real >= 0.0
    ensures TileRect(ctx, s, wincount, n).width >= 0 && TileRect(ctx, s, wincount, n).height >= 0
  {
    if (s == SimpleTile || s == ColumnTile) && n == 0 {
      MasterSizeNonNegative(ctx);
    } else if s == SimpleTile {
      StackSizeNonNegative(ctx, wincount - 1);
    } else if s == ColumnTile {
      ColumnSizeNonNegative(ctx, wincount - 1);
    } else if s == VerticalTile {
      VerticalSizeNonNegative(ctx, wincount);
    } else if s == HorizTile {
      RowSizeNonNegative(ctx, wincount);
    }
  }

  /** The master has a width when its share of the usable width is not negative. */
  lemma MasterSizeNonNegative(ctx: Context)
    requires ctx.maxWidth as real * ctx.mwFactor >= 0.0
    ensures MasterRect(ctx).width >= 0
  {
  }

  /** A stacked window has a size when the stack and each row fit their decoration. */
  lemma StackSizeNonNegative(ctx: Context, rows: int)
    requires rows >= 1
    requires ctx.maxWidth as real * (1.0 - ctx.mwFactor) - (2 * ctx.winBorder) as real >= 0.0
    requires ctx.maxHeight as real / rows as real - ctx.winTitle as real - ctx.winBorder as real >= 0.0
    ensures StackWidth(ctx) >= 0 && RowHeight(ctx, rows) >= 0
  {
  }

  /** A column has a width when each column's share fits its two borders. */
  lemma ColumnSizeNonNegative(ctx: Context, columns: int)
    requires columns >= 1
    requires ctx.maxWidth as real * (1.0 - ctx.mwFactor) / columns as real - (2 * ctx.winBorder) as real >= 0.0
    ensures ColumnWidth(ctx, columns) >= 0
  {
  }

  /** An equal side-by-side tile of a non-negative width has a width. */
  lemma VerticalSizeNonNegative(ctx: Context, count: int)
    requires count >= 1 && ctx.maxWidth >= 0
    ensures VerticalWidth(ctx, count) >= 0
  {
    DivNonNegative(ctx.maxWidth as real, count as real);
  }

  /** A full-width row has a height when each row's share fits its decoration. */
  lemma RowSizeNonNegative(ctx: Context, rows: int)
    requires rows >= 1
    requires ctx.maxHeight as real / rows as real - ctx.winTitle as real - ctx.winBorder as real >= 0.0
    ensures RowHeight(ctx, rows) >= 0
  {
  }

  /** Master with the other windows stacked in rows on its right. */
  method SimpleTileLayout(ctx: Context, wincount: nat) returns (layout: seq<Rect>)
    ensures |layout| == if wincount == 0 then 1 else wincount
    ensures wincount == 1 ==> layout[0] == FullRect(ctx)
    ensures wincount != 1 ==> layout[0] == MasterRect(ctx)
    ensures forall n :: 1 <= n < |layout| ==>
              layout[n] == Rect(StackX(ctx), RowY(ctx, wincount - 1, n - 1), StackWidth(ctx), RowHeight(ctx, wincount - 1))
    ensures ctx.maxHeight >= 0 ==> forall i, j :: 1 <= i <= j < |layout| ==> layout[i].y <= layout[j].y
  {
    var rows := wincount - 1;
    layout := [];
    if rows == 0 {
      layout := layout + [FullRect(ctx)];
      return;
    } else {
      layout := layout + [MasterRect(ctx)];
    }
    var x := StackX(ctx);
    var width := StackWidth(ctx);
    var height := RowHeight(ctx, rows);
    var n := 0;
    while n < rows
      invariant 0 <= n <= if rows < 0 then 0 else rows
      invariant |layout| == n + 1 && layout[0] == MasterRect(ctx)
      invariant forall k :: 1 <= k < |layout| ==> layout[k] == Rect(x, RowY(ctx, rows, k - 1), width, height)
    {
      var y := RowY(ctx, rows, n);
      layout := layout + [Rect(x, y, width, height)];
      n := n + 1;
    }
    if ctx.maxHeight >= 0 {
      forall i, j | 1 <= i <= j < |layout| ensures layout[i].y <= layout[j].y {
        RowsAscending(ctx, rows, i - 1, j - 1);
      }
    }
  }

  /** Master with the other windows side by side in columns on its right. */
  method ColumnTileLayout(ctx: Context, wincount: nat) returns (layout: seq<Rect>)
    ensures |layout| == if wincount == 0 then 1 else wincount
    ensures wincount == 1 ==> layout[0] == FullRect(ctx)
    ensures wincount != 1 ==> layout[0] == MasterRect(ctx)
    ensures forall n :: 1 <= n < |layout| ==>
              layout[n] == Rect(ColumnX(ctx, wincount - 1, n - 1), ctx.origY, ColumnWidth(ctx, wincount - 1),
                                ctx.maxHeight - ctx.winBorder - ctx.winTitle)
    ensures forall n :: 1 <= n < |layout| - 1 ==>
              layout[n + 1].x == layout[n].x + layout[n].width + ctx.winBorder
  {
    var columns := wincount - 1;
    layout := [];
    if columns == 0 {
      layout := layout + [FullRect(ctx)];
      return;
    } else {
      layout := layout + [MasterRect(ctx)];
    }
    var y := ctx.origY;
    var height := ctx.maxHeight - ctx.winBorder - ctx.winTitle;
    var width := ColumnWidth(ctx, columns);
    var n := 0;
    while n < columns
      invariant 0 <= n <= if columns < 0 then 0 else columns
      invariant |layout| == n + 1 && layout[0] == MasterRect(ctx)
      invariant forall k :: 1 <= k < |layout| ==> layout[k] == Rect(ColumnX(ctx, columns, k - 1), y, width, height)
    {
      var x := ColumnX(ctx, columns, n);
      layout := layout + [Rect(x, y, width, height)];
      n := n + 1;
    }
    forall n | 1 <= n < |layout| - 1
      ensures layout[n + 1].x == layout[n].x + layout[n].width + ctx.winBorder
    {
      ColumnsAbut(ctx, columns, n - 1);
    }
  }

  /** Each column starts one border after the previous one ends. */
  lemma ColumnsAbut(ctx: Context, columns: int, n: int)
    requires columns != 0
    ensures ColumnX(ctx, columns, n + 1) == ColumnX(ctx, columns, n) + ColumnWidth(ctx, columns) + ctx.winBorder
  {
    var w := ColumnWidth(ctx, columns) + ctx.winBorder;
    assert w * (n + 1) == w * n + w;
  }

  /** All windows side by side, of equal width and full height. */
  method VerticalTileLayout(ctx: Context, wincount: nat) returns (layout: seq<Rect>)
    requires wincount >= 1
    ensures |layout| == wincount
    ensures forall n :: 0 <= n < wincount ==>
              layout[n] == Rect(ctx.origX + n * VerticalWidth(ctx, wincount), ctx.origY, VerticalWidth(ctx, wincount),
                                ctx.maxHeight - ctx.winTitle - ctx.winBorder)
    ensures forall n :: 0 <= n < wincount - 1 ==> layout[n + 1].x == layout[n].x + layout[n].width
    ensures ctx.maxWidth >= 0 ==> layout[wincount - 1].x + layout[wincount - 1].width <= ctx.origX + ctx.maxWidth
  {
    layout := [];
    var y := ctx.origY;
    var width := VerticalWidth(ctx, wincount);
    var height := ctx.maxHeight - ctx.winTitle - ctx.winBorder;
    var n := 0;
    while n < wincount
      invariant 0 <= n <= wincount
      invariant |layout| == n
      invariant forall k :: 0 <= k < n ==> layout[k] == Rect(ctx.origX + k * width, y, width, height)
    {
      var x := ctx.origX + n * width;
      layout := layout + [Rect(x, y, width, height)];
      n := n + 1;
    }
    if ctx.maxWidth >= 0 {
      VerticalTilesFit(ctx, wincount);
    }
  }

  /** The last of `count` equal side-by-side windows ends inside the usable width. */
  lemma VerticalTilesFit(ctx: Context, count: int)
    requires count >= 1 && ctx.maxWidth >= 0
    ensures ctx.origX + (count - 1) * VerticalWidth(ctx, count) + VerticalWidth(ctx, count) <= ctx.origX + ctx.maxWidth
  {
    TruncQuotient(ctx.maxWidth, count);
    assert (count - 1) * VerticalWidth(ctx, count) + VerticalWidth(ctx, count) == count * VerticalWidth(ctx, count);
  }

  /** All windows stacked top to bottom, of equal height and full width. */
  method HorizTileLayout(ctx: Context, wincount: nat) returns (layout: seq<Rect>)
    requires wincount >= 1
    ensures |layout| == wincount
    ensures forall n :: 0 <= n < wincount ==>
              layout[n] == Rect(ctx.origX, RowY(ctx, wincount, n), ctx.maxWidth, RowHeight(ctx, wincount))
    ensures ctx.maxHeight >= 0 ==> forall i, j :: 0 <= i <= j < wincount ==> layout[i].y <= layout[j].y
  {
    layout := [];
    var x := ctx.origX;
    var height := RowHeight(ctx, wincount);
    var width := ctx.maxWidth;
    var n := 0;
    while n < wincount
      invariant 0 <= n <= wincount
      invariant |layout| == n
      invariant forall k :: 0 <= k < n ==> layout[k] == Rect(x, RowY(ctx, wincount, k), width, height)
    {
      var y := RowY(ctx, wincount, n);
      layout := layout + [Rect(x, y, width, height)];
      n := n + 1;
    }
    if ctx.maxHeight >= 0 {
      forall i, j | 0 <= i <= j < wincount ensures layout[i].y <= layout[j].y {
        RowsAscending(ctx, wincount, i, j);
      }
    }
  }

  /** Every window maximised onto the same rectangle. */
  method MaxAllLayout(ctx: Context, wincount: nat) returns (layout: seq<Rect>)
    ensures |layout| == wincount
    ensures forall n :: 0 <= n < wincount ==> layout[n] == FullRect(ctx)
  {
    layout := [];
    var x := ctx.origX;
    var y := ctx.origY;
    var height := ctx.maxHeight - ctx.winTitle - ctx.winBorder;
    var width := ctx.maxWidth;
    var n := 0;
    while n < wincount
      invariant 0 <= n <= wincount
      invariant |layout| == n
      invariant forall k :: 0 <= k < n ==> layout[k] == Rect(x, y, width, height)
    {
      layout := layout + [Rect(x, y, width, height)];
      n := n + 1;
    }
  }

  /**
   * Calling the layout function of a strategy: one rectangle per window,
   * except that the master layouts still give one rectangle for no
   * windows; and the record of the last used layout afterwards.
   */
  method Tile(ctx: Context, s: Strategy, wincount: nat, stored: map<string, string>)
    returns (layout: seq<Rect>, record: map<string, string>)
    requires s == VerticalTile || s == HorizTile ==> wincount >= 1
    ensures wincount >= 1 ==> |layout| == wincount
    ensures wincount == 0 ==> |layout| == if s == SimpleTile || s == ColumnTile then 1 else 0
    ensures wincount == 1 ==> layout == [FullRect(ctx)]
    ensures forall n :: 0 <= n < |layout| ==> layout[n] == TileRect(ctx, s, wincount, n)
    ensures record == RecordAfter(s, stored)
  {
    record := RecordAfter(s, stored);
    match s
    case SimpleTile => layout := SimpleTileLayout(ctx, wincount);
    case ColumnTile => layout := ColumnTileLayout(ctx, wincount);
    case VerticalTile =>
      layout := VerticalTileLayout(ctx, wincount);
      if wincount == 1 {
        SingleTileIsFull(ctx);
        assert layout[0] == FullRect(ctx);
      }
    case HorizTile =>
      layout := HorizTileLayout(ctx, wincount);
      if wincount == 1 {
        SingleTileIsFull(ctx);
        assert layout[0] == FullRect(ctx);
      }
    case MaxAll => layout := MaxAllLayout(ctx, wincount);
  }
}
