/**
 * The reorderings applied to the window list before it is tiled again:
 * cycling the windows through the master position in either direction, and
 * moving the active window to the master position.
 */
module Reorder {
  import opened Sequences

  /** The last window first, the others after it in their order. */
  function RotateRight<W>(s: seq<W>): (r: seq<W>)
    requires |s| >= 1
    ensures |r| == |s| && r[0] == s[|s| - 1]
    ensures forall i :: 0 <= i < |s| - 1 ==> r[i + 1] == s[i]
  {
    [s[|s| - 1]] + s[..|s| - 1]
  }

  /** The first window last, the others before it in their order. */
  function RotateLeft<W>(s: seq<W>): (r: seq<W>)
    requires |s| >= 1
    ensures |r| == |s| && r[|s| - 1] == s[0]
    ensures forall i :: 0 <= i < |s| - 1 ==> r[i] == s[i + 1]
  {
    s[1..] + [s[0]]
  }

  /**
   * `cycle_option`'s reordering: insert a copy of the last window at the
   * front, then drop the last element. Fails on an empty list.
   */
  method CycleOrder<W>(winlist: seq<W>) returns (r: seq<W>)
    requires |winlist| >= 1
    ensures r == RotateRight(winlist)
    ensures multiset(r) == multiset(winlist)
  {
    r := [winlist[|winlist| - 1]] + winlist;
    r := r[..|r| - 1];
    assert winlist == winlist[..|winlist| - 1] + [winlist[|winlist| - 1]];
  }

  /**
   * `anticycle_option`'s reordering: append a copy of the first window,
   * then drop the first element. Fails on an empty list.
   */
  method AnticycleOrder<W>(winlist: seq<W>) returns (r: seq<W>)
    requires |winlist| >= 1
    ensures r == RotateLeft(winlist)
    ensures multiset(r) == multiset(winlist)
  {
    r := winlist + [winlist[0]];
    r := r[1..];
    assert winlist == [winlist[0]] + winlist[1..];
  }

  /** Cycling one way undoes cycling the other way. */
  lemma RotateInverse<W>(s: seq<W>)
    requires |s| >= 1
    ensures RotateLeft(RotateRight(s)) == s
    ensures RotateRight(RotateLeft(s)) == s
  {
    assert RotateLeft(RotateRight(s)) == s[..|s| - 1] + [s[|s| - 1]];
    assert RotateRight(RotateLeft(s)) == [s[0]] + s[1..];
  }

  /** Cycling `k` times. */
  function RotateRightTimes<W>(s: seq<W>, k: nat): (r: seq<W>)
    requires |s| >= 1
    ensures |r| == |s|
    decreases k
  {
    if k == 0 then s else RotateRightTimes(RotateRight(s), k - 1)
  }

  /** After `k <= |s|` cycles, the window at `i` has moved `k` places on, wrapping round. */
  lemma {:induction false} RotateRightTimesIndex<W>(s: seq<W>, k: nat, i: nat)
    requires |s| >= 1 && k <= |s| && i < |s|
    ensures RotateRightTimes(s, k)[if i + k < |s| then i + k else i + k - |s|] == s[i]
    decreases k
  {
    if k > 0 {
      var s' := RotateRight(s);
      var i' := if i + 1 < |s| then i + 1 else 0;
      assert s'[i'] == s[i];
      if i + 1 < |s| {
        RotateRightTimesIndex(s', k - 1, i');
      } else {
        RotateRightTimesIndex(s', k - 1, 0);
      }
    }
  }

  /** Cycling as many times as there are windows restores the original order. */
  lemma {:induction false} CycleRestores<W>(s: seq<W>)
    requires |s| >= 1
    ensures RotateRightTimes(s, |s|) == s
  {
    var r := RotateRightTimes(s, |s|);
    forall i | 0 <= i < |s| ensures r[i] == s[i] {
      RotateRightTimesIndex(s, |s|, i);
    }
  }

  /**
   * The reordering of `swap_option` and the other options that put the
   * active window in the master position: remove its first occurrence and
   * insert it at the front. Fails when the active window is not in the list.
   */
  method MoveToFront<W(==)>(winlist: seq<W>, active: W) returns (r: seq<W>)
    requires active in winlist
    ensures |r| == |winlist| && r[0] == active
    ensures r[1..] == RemoveFirst(winlist, active) && Subseq(r[1..], winlist)
    ensures multiset(r) == multiset(winlist)
    ensures NoDup(winlist) ==> r[1..] == Without(winlist, active) && NoDup(r)
  {
    r := RemoveFirst(winlist, active);
    r := [active] + r;
    FrontFacts(winlist, active);
  }

  lemma FrontFacts<W>(winlist: seq<W>, active: W)
    requires active in winlist
    ensures ([active] + RemoveFirst(winlist, active))[1..] == RemoveFirst(winlist, active)
    ensures Subseq(RemoveFirst(winlist, active), winlist)
    ensures multiset([active] + RemoveFirst(winlist, active)) == multiset(winlist)
    ensures NoDup(winlist) ==>
              RemoveFirst(winlist, active) == Without(winlist, active) && NoDup([active] + RemoveFirst(winlist, active))
  {
    var rest := RemoveFirst(winlist, active);
    assert ([active] + rest)[1..] == rest;
    assert multiset([active] + rest) == multiset{active} + multiset(rest);
    RemoveFirstSubseq(winlist, active);
    if NoDup(winlist) {
      RemoveFirstNoDup(winlist, active);
      SubseqNoDup(rest, winlist);
      var r := [active] + rest;
      forall i, j | 0 <= i < j < |r| ensures r[i] != r[j] {
        if i == 0 {
          assert r[j] == rest[j - 1] && r[j] in rest;
        } else {
          assert r[i] == rest[i - 1] && r[j] == rest[j - 1];
        }
      }
    }
  }
}
