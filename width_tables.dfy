/**
 * Construction of the two width-ratio tables from the configured grid
 * widths: the corner table (seeds and their mirror images `1 - w`) and the
 * centre table (derived from the corner entries below one half, plus 1.0),
 * both then scaled to one monitor.
 *
 * Python's `round(x, 2)` is the parameter `round2`; nothing proved here
 * depends on how it rounds, except where a lemma says so.
 */
module WidthTables {
  import opened Numeric

  ghost predicate StrictlyAscending(t: seq<real>) {
    forall i, j :: 0 <= i < j < |t| ==> t[i] < t[j]
  }

  /** `y` is the rounded mirror image of some seed. */
  ghost predicate IsMirrorOfSeed(y: real, seeds: seq<real>, round2: real -> real) {
    exists i :: 0 <= i < |seeds| && y == round2(Abs(1.0 - seeds[i]))
  }

  /** `y` is the rounded `abs(2c - 1)` of some corner entry `c` below one half. */
  ghost predicate IsCenterCandidate(y: real, corner: seq<real>, round2: real -> real) {
    exists i :: 0 <= i < |corner| && corner[i] < 0.5 && y == round2(Abs(corner[i] * 2.0 - 1.0))
  }

  /** Insert `x` into a strictly ascending table, unless it is already there. */
  function Insert(t: seq<real>, x: real): (r: seq<real>)
    requires StrictlyAscending(t)
    ensures StrictlyAscending(r)
    ensures forall y :: y in r <==> y in t || y == x
  {
    if t == [] then [x]
    else if x < t[0] then [x] + t
    else if x == t[0] then t
    else
      var rest := Insert(t[1..], x);
      assert forall y :: y in t <==> y == t[0] || y in t[1..];
      forall k | 0 <= k < |rest| ensures t[0] < rest[k] {
        assert rest[k] in rest;
        if rest[k] != x {
          var m :| 0 <= m < |t[1..]| && t[1..][m] == rest[k];
          assert t[m + 1] == rest[k];
        }
      }
      [t[0]] + rest
  }

  /** `sorted(set(s))`: the distinct elements of `s` in ascending order. */
  function SortedSet(s: seq<real>): (r: seq<real>)
    ensures StrictlyAscending(r)
    ensures forall y :: y in r <==> y in s
  {
    if s == [] then []
    else
      assert forall y :: y in s <==> y == s[0] || y in s[1..];
      Insert(SortedSet(s[1..]), s[0])
  }

  /** The centre-table candidates: `round(abs(2y - 1), 2)` for each entry `y` below one half. */
  function CenterCandidates(t: seq<real>, round2: real -> real): seq<real>
  {
    if t == [] then []
    else (if t[0] < 0.5 then [round2(Abs(t[0] * 2.0 - 1.0))] else []) + CenterCandidates(t[1..], round2)
  }

  /** Every entry below one half contributes its candidate. */
  lemma {:induction false} CenterCandidatesComplete(t: seq<real>, round2: real -> real, i: nat)
    requires i < |t| && t[i] < 0.5
    ensures round2(Abs(t[i] * 2.0 - 1.0)) in CenterCandidates(t, round2)
    decreases i
  {
    if i > 0 {
      CenterCandidatesComplete(t[1..], round2, i - 1);
    }
  }

  /** Every candidate comes from an entry below one half; `i` is its position. */
  lemma {:induction false} CenterCandidatesSound(t: seq<real>, round2: real -> real, y: real) returns (i: nat)
    requires y in CenterCandidates(t, round2)
    ensures i < |t| && t[i] < 0.5 && y == round2(Abs(t[i] * 2.0 - 1.0))
    decreases |t|
  {
    if t[0] < 0.5 && y == round2(Abs(t[0] * 2.0 - 1.0)) {
      i := 0;
    } else {
      var head := if t[0] < 0.5 then [round2(Abs(t[0] * 2.0 - 1.0))] else [];
      assert y in head + CenterCandidates(t[1..], round2);
      var j := CenterCandidatesSound(t[1..], round2, y);
      i := j + 1;
    }
  }

  /** The mirror image `round(abs(1 - w), 2)` of each seed, in seed order. */
  method MirrorWidths(seeds: seq<real>, round2: real -> real) returns (opposites: seq<real>)
    ensures |opposites| == |seeds|
    ensures forall j :: 0 <= j < |seeds| ==> opposites[j] == round2(Abs(1.0 - seeds[j]))
  {
    opposites := [];
    var k := 0;
    while k < |seeds|
      invariant 0 <= k <= |seeds|
      invariant |opposites| == k
      invariant forall j :: 0 <= j < k ==> opposites[j] == round2(Abs(1.0 - seeds[j]))
    {
      opposites := opposites + [round2(Abs(1.0 - seeds[k]))];
      k := k + 1;
    }
  }

  /**
   * The corner and centre tables before monitor scaling. The corner table
   * holds every seed and every seed's mirror, each once, in ascending
   * order; the centre table holds 1.0 and the candidates derived from the
   * corner entries below one half, each once, in ascending order.
   */
  method BaseWidthTables(seeds: seq<real>, round2: real -> real) returns (corner: seq<real>, center: seq<real>)
    ensures StrictlyAscending(corner)
    ensures forall i :: 0 <= i < |seeds| ==> seeds[i] in corner && round2(Abs(1.0 - seeds[i])) in corner
    ensures forall y :: y in corner ==> y in seeds || IsMirrorOfSeed(y, seeds, round2)
    ensures StrictlyAscending(center)
    ensures 1.0 in center
    ensures forall i :: 0 <= i < |corner| && corner[i] < 0.5 ==> round2(Abs(corner[i] * 2.0 - 1.0)) in center
    ensures forall y :: y in center ==>
              y == 1.0 || IsCenterCandidate(y, corner, round2)
  {
    var opposites := MirrorWidths(seeds, round2);
    corner := CornerTable(seeds, opposites, round2);
    center := CenterTable(corner, round2);
  }

  /**
   * The seeds extended by their mirrors, then deduplicated and sorted:
   * each seed and mirror once, in ascending order.
   */
  method CornerTable(seeds: seq<real>, opposites: seq<real>, ghost round2: real -> real) returns (corner: seq<real>)
    requires |opposites| == |seeds|
    requires forall j :: 0 <= j < |seeds| ==> opposites[j] == round2(Abs(1.0 - seeds[j]))
    ensures StrictlyAscending(corner)
    ensures forall i :: 0 <= i < |seeds| ==> seeds[i] in corner && round2(Abs(1.0 - seeds[i])) in corner
    ensures forall y :: y in corner ==> y in seeds || IsMirrorOfSeed(y, seeds, round2)
  {
    corner := seeds;
    corner := corner + opposites;
    corner := SortedSet(corner);
    CornerTableMembers(seeds, opposites, round2);
  }

  /**
   * The centre table: the candidates from the corner entries below one
   * half, plus 1.0 so that a full-width placement is always offered, each
   * once, in ascending order.
   */
  method CenterTable(corner: seq<real>, round2: real -> real) returns (center: seq<real>)
    ensures StrictlyAscending(center)
    ensures 1.0 in center
    ensures forall i :: 0 <= i < |corner| && corner[i] < 0.5 ==> round2(Abs(corner[i] * 2.0 - 1.0)) in center
    ensures forall y :: y in center ==>
              y == 1.0 || IsCenterCandidate(y, corner, round2)
  {
    var candidates := CenterCandidates(corner, round2);
    CenterCandidatesExact(corner, round2);
    center := candidates + [1.0];
    assert center[|candidates|] == 1.0;
    center := SortedSet(center);
  }

  lemma CornerTableMembers(seeds: seq<real>, opposites: seq<real>, round2: real -> real)
    requires |opposites| == |seeds|
    requires forall j :: 0 <= j < |seeds| ==> opposites[j] == round2(Abs(1.0 - seeds[j]))
    ensures forall i :: 0 <= i < |seeds| ==>
              seeds[i] in SortedSet(seeds + opposites) && round2(Abs(1.0 - seeds[i])) in SortedSet(seeds + opposites)
    ensures forall y :: y in SortedSet(seeds + opposites) ==>
              y in seeds || IsMirrorOfSeed(y, seeds, round2)
  {
    var all := seeds + opposites;
    forall i | 0 <= i < |seeds| ensures seeds[i] in all && opposites[i] in all {
      assert all[i] == seeds[i] && all[|seeds| + i] == opposites[i];
    }
    forall y | y in all && y !in seeds
      ensures exists i :: 0 <= i < |seeds| && y == round2(Abs(1.0 - seeds[i]))
    {
      var m :| 0 <= m < |all| && all[m] == y;
      assert opposites[m - |seeds|] == y;
    }
  }

  /** The candidates are exactly the rounded images of the corner entries below one half. */
  lemma CenterCandidatesExact(corner: seq<real>, round2: real -> real)
    ensures forall i :: 0 <= i < |corner| && corner[i] < 0.5 ==>
              round2(Abs(corner[i] * 2.0 - 1.0)) in CenterCandidates(corner, round2)
    ensures forall y :: y in CenterCandidates(corner, round2) ==> IsCenterCandidate(y, corner, round2)
  {
    forall i | 0 <= i < |corner| && corner[i] < 0.5
      ensures round2(Abs(corner[i] * 2.0 - 1.0)) in CenterCandidates(corner, round2)
    {
      CenterCandidatesComplete(corner, round2, i);
    }
    forall y | y in CenterCandidates(corner, round2)
      ensures IsCenterCandidate(y, corner, round2)
    {
      var i := CenterCandidatesSound(corner, round2, y);
    }
  }

  /**
   * The monitor scaling, `round(y / Monitors, 2) + WidthAdjustment` for
   * each entry.
   */
  function ScaleForMonitors(t: seq<real>, monitors: int, adjustment: real, round2: real -> real): (r: seq<real>)
    requires monitors != 0
    ensures |r| == |t|
  {
    seq(|t|, i requires 0 <= i < |t| => round2(t[i] / monitors as real) + adjustment)
  }

  /**
   * With a positive monitor count and a rounding that never reverses
   * order, scaling keeps an ascending table ascending, though rounding may
   * merge neighbouring entries.
   */
  lemma ScaledStaysOrdered(t: seq<real>, monitors: int, adjustment: real, round2: real -> real)
    requires monitors > 0 && StrictlyAscending(t)
    requires forall a, b :: a <= b ==> round2(a) <= round2(b)
    ensures forall i, j :: 0 <= i < j < |t| ==>
              ScaleForMonitors(t, monitors, adjustment, round2)[i] <= ScaleForMonitors(t, monitors, adjustment, round2)[j]
  {
    var r := ScaleForMonitors(t, monitors, adjustment, round2);
    var m := monitors as real;
    forall i, j | 0 <= i < j < |t| ensures r[i] <= r[j] {
      assert t[i] / m <= t[j] / m by {
        assert t[i] <= t[j];
        assert t[i] / m * m == t[i] && t[j] / m * m == t[j];
      }
    }
  }
}
