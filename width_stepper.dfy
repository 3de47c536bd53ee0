/**
 * Width stepping: repeated corner, edge and centre placements of one window
 * cycle its width through a table of ratios of the screen width.
 */
module WidthStepper {
  import opened Numeric
  import opened Sequences
  import opened Screen

  /** `y` is a nearest entry of `t` to `w`, the smaller one on a distance tie. */
  ghost predicate IsNearest(t: seq<real>, w: real, y: real) {
    y in t &&
    forall z :: z in t ==> Abs(y - w) < Abs(z - w) || (Abs(y - w) == Abs(z - w) && y <= z)
  }

  /**
   * The table entry closest to `w`: the minimum of the pairs
   * `[abs(y - w), y]`, so a distance tie goes to the smaller entry.
   */
  function Nearest(t: seq<real>, w: real): (y: real)
    requires |t| > 0
    ensures IsNearest(t, w, y)
  {
    if |t| == 1 then t[0]
    else
      var rest := Nearest(t[1..], w);
      assert forall z :: z in t ==> z == t[0] || z in t[1..];
      if Abs(t[0] - w) < Abs(rest - w) || (Abs(t[0] - w) == Abs(rest - w) && t[0] <= rest)
      then t[0] else rest
  }

  /** Only one entry is nearest, so `Nearest` is determined by `IsNearest`. */
  lemma NearestUnique(t: seq<real>, w: real, y: real)
    requires |t| > 0 && IsNearest(t, w, y)
    ensures y == Nearest(t, w)
  {
    var n := Nearest(t, w);
    assert Abs(y - w) <= Abs(n - w) && Abs(n - w) <= Abs(y - w);
  }

  /** The nearest entry to an entry is that entry itself. */
  lemma NearestOfEntry(t: seq<real>, x: real)
    requires x in t
    ensures Nearest(t, x) == x
  {
    NearestUnique(t, x, x);
  }

  /** The index after the nearest entry's first index, wrapping to 0 after the last. */
  function NextIndex(t: seq<real>, w: real): (k: nat)
    requires |t| > 0
    ensures k == Succ(IndexOf(t, Nearest(t, w)), |t|)
  {
    var i := IndexOf(t, Nearest(t, w));
    SuccIsMod(i, |t|);
    (i + 1) % |t|
  }

  lemma SuccIsMod(i: nat, n: nat)
    requires i < n
    ensures (i + 1) % n == Succ(i, n)
  {
    if i + 1 == n {
      assert (i + 1) % n == n % n == 0;
    }
  }

  /** The cyclic successor of index `i` in a table of `n` entries. */
  function Succ(i: nat, n: nat): (j: nat)
    requires i < n
    ensures j < n
  {
    if i + 1 == n then 0 else i + 1
  }

  /** The cyclic position `k` steps after index `i`. */
  function Shift(i: nat, k: nat, n: nat): (j: nat)
    requires i < n
    ensures j < n
    decreases k
  {
    if k == 0 then i else Shift(Succ(i, n), k - 1, n)
  }

  /** Fewer steps than the distance to the end of the table do not wrap. */
  lemma {:induction false} ShiftNoWrap(i: nat, k: nat, n: nat)
    requires i + k < n
    ensures Shift(i, k, n) == i + k
    decreases k
  {
    if k > 0 {
      ShiftNoWrap(i + 1, k - 1, n);
    }
  }

  /** Up to `n` steps wrap around at most once. */
  lemma {:induction false} ShiftWrap(i: nat, k: nat, n: nat)
    requires i < n && k <= n
    ensures Shift(i, k, n) == if i + k < n then i + k else i + k - n
    decreases k
  {
    if i + k < n {
      ShiftNoWrap(i, k, n);
    } else if i + 1 == n {
      ShiftNoWrap(0, k - 1, n);
    } else {
      ShiftWrap(i + 1, k - 1, n);
    }
  }

  /** The ratio that follows the one nearest to `w`. */
  function NextRatio(t: seq<real>, w: real): (r: real)
    requires |t| > 0
    ensures r in t
  {
    t[NextIndex(t, w)]
  }

  /**
   * The next width in pixels for a window now `currentWidth` pixels wide:
   * the next ratio applied to the screen width less two borders, truncated.
   */
  function NextWidth(ctx: Context, currentWidth: int, t: seq<real>): (px: int)
    requires |t| > 0 && ctx.maxWidth != 0
    ensures (forall i :: 0 <= i < |t| ==> 0.0 <= t[i] <= 1.0) && ctx.maxWidth - 2 * ctx.winBorder >= 0 ==>
              0 <= px <= ctx.maxWidth - 2 * ctx.winBorder
  {
    var usable := ctx.maxWidth - ctx.winBorder * 2;
    var ratio := NextRatio(t, currentWidth as real / ctx.maxWidth as real);
    if (forall i :: 0 <= i < |t| ==> 0.0 <= t[i] <= 1.0) && usable >= 0 then
      ScaledWidthBounded(usable, ratio);
      Trunc(usable as real * ratio)
    else Trunc(usable as real * ratio)
  }

  /** A ratio in [0, 1] of a non-negative width, truncated, stays within that width. */
  lemma ScaledWidthBounded(usable: int, ratio: real)
    requires usable >= 0 && 0.0 <= ratio <= 1.0
    ensures 0 <= Trunc(usable as real * ratio) <= usable
  {
    ScaleBounded(usable as real, ratio);
    TruncMonotone(usable as real * ratio, usable as real);
    TruncOfInt(usable);
  }

  /** Width of a corner or side placement: the next corner ratio. */
  function CornerWidth(ctx: Context, currentWidth: int): (px: int)
    requires |ctx.cornerWidths| > 0 && ctx.maxWidth != 0
    ensures (forall i :: 0 <= i < |ctx.cornerWidths| ==> 0.0 <= ctx.cornerWidths[i] <= 1.0) &&
            ctx.maxWidth - 2 * ctx.winBorder >= 0 ==>
              0 <= px <= ctx.maxWidth - 2 * ctx.winBorder
  {
    NextWidth(ctx, currentWidth, ctx.cornerWidths)
  }

  /** Width of a top, middle or bottom placement: the next centre ratio plus one border. */
  function MiddleWidth(ctx: Context, currentWidth: int): (px: int)
    requires |ctx.centerWidths| > 0 && ctx.maxWidth != 0
    ensures (forall i :: 0 <= i < |ctx.centerWidths| ==> 0.0 <= ctx.centerWidths[i] <= 1.0) &&
            ctx.maxWidth - 2 * ctx.winBorder >= 0 ==>
              ctx.winBorder <= px <= ctx.maxWidth - ctx.winBorder
  {
    NextWidth(ctx, currentWidth, ctx.centerWidths) + ctx.winBorder
  }

  /** The ratio reached from `w` after `k` steps. */
  function Advance(t: seq<real>, w: real, k: nat): real
    requires |t| > 0
    decreases k
  {
    if k == 0 then w else Advance(t, NextRatio(t, w), k - 1)
  }

  /** In a table without duplicates, the step from an entry goes to the entry after it, cyclically. */
  lemma NextRatioFromEntry(t: seq<real>, i: nat)
    requires i < |t| && NoDup(t)
    ensures NextRatio(t, t[i]) == t[Succ(i, |t|)]
  {
    NearestOfEntry(t, t[i]);
    var j := IndexOf(t, t[i]);
    assert t[j] == t[i];
  }

  /** `k <= |t|` steps from entry `i` land on entry `i + k`, wrapping past the end once. */
  lemma AdvanceFromEntry(t: seq<real>, i: nat, k: nat)
    requires i < |t| && k <= |t| && NoDup(t)
    ensures Advance(t, t[i], k) == t[if i + k < |t| then i + k else i + k - |t|]
  {
    AdvanceShift(t, i, k);
    ShiftWrap(i, k, |t|);
  }

  lemma {:induction false} AdvanceShift(t: seq<real>, i: nat, k: nat)
    requires i < |t| && NoDup(t)
    ensures Advance(t, t[i], k) == t[Shift(i, k, |t|)]
    decreases k
  {
    var j := Succ(i, |t|);
    if k > 0 {
      NextRatioFromEntry(t, i);
      AdvanceShift(t, j, k - 1);
      calc {
        Advance(t, t[i], k);
        Advance(t, t[j], k - 1);
        t[Shift(j, k - 1, |t|)];
        t[Shift(i, k, |t|)];
      }
    }
  }

  /** Every entry is reached from any entry in fewer than `|t|` steps. */
  lemma ReachesEveryEntry(t: seq<real>, i: nat, j: nat)
    requires i < |t| && j < |t| && NoDup(t)
    ensures Advance(t, t[i], if i <= j then j - i else |t| - i + j) == t[j]
  {
    var k := if i <= j then j - i else |t| - i + j;
    AdvanceFromEntry(t, i, k);
    assert (if i + k < |t| then i + k else i + k - |t|) == j;
  }

  /**
   * Stepping `|t|` times from any ratio comes back to the entry nearest to
   * it: the widths form one cycle.
   */
  lemma FullCycle(t: seq<real>, w: real)
    requires |t| > 0 && NoDup(t)
    ensures Advance(t, w, |t|) == Nearest(t, w)
  {
    var i := IndexOf(t, Nearest(t, w));
    var i' := Succ(i, |t|);
    assert NextRatio(t, w) == t[i'];
    AdvanceShift(t, i', |t| - 1);
    ShiftBack(i, |t|);
    calc {
      Advance(t, w, |t|);
      Advance(t, t[i'], |t| - 1);
      t[Shift(i', |t| - 1, |t|)];
      t[i];
      Nearest(t, w);
    }
  }

  /** `n - 1` steps after the successor of `i` come back to `i`. */
  lemma ShiftBack(i: nat, n: nat)
    requires i < n
    ensures Shift(Succ(i, n), n - 1, n) == i
  {
    ShiftWrap(Succ(i, n), n - 1, n);
  }

  /**
   * With a repeated entry the cycle stalls: from the first copy, every step
   * returns the same ratio, so the entries after it are never reached.
   */
  lemma {:induction false} StallsOnRepeatedEntry(t: seq<real>, i: nat, k: nat)
    requires i + 1 < |t| && t[i] == t[i + 1]
    requires forall j :: 0 <= j < i ==> t[j] != t[i]
    ensures Advance(t, t[i], k) == t[i]
    decreases k
  {
    if k > 0 {
      NearestOfEntry(t, t[i]);
      assert NextRatio(t, t[i]) == t[i + 1];
      StallsOnRepeatedEntry(t, i, k - 1);
    }
  }

  /**
   * Fed back in pixels, a width can be its own next width, so stepping
   * stalls even with distinct entries: on a 400 pixel screen with 2 pixel
   * borders and the table [0.25, 0.26], a window 102 pixels wide (ratio
   * 0.255, a tie that goes to 0.25) is given 0.26 of 396 pixels, 102 again.
   */
  lemma PixelWidthFixedPoint(ctx: Context)
    requires ctx.maxWidth == 400 && ctx.winBorder == 2
    ensures NextWidth(ctx, 102, [0.25, 0.26]) == 102
  {
    var t := [0.25, 0.26];
    var w := 102 as real / 400 as real;
    assert w == 0.255;
    assert Nearest(t, w) == 0.25 by {
      assert t[1..] == [0.26];
    }
    assert IndexOf(t, 0.25) == 0;
    assert NextRatio(t, w) == 0.26;
    assert Trunc(396 as real * 0.26) == 102;
  }
}
