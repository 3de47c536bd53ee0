/**
 * The list of windows to tile on the current desktop: the windows the
 * window manager reports now, reconciled with the order recorded after the
 * previous tiling, then pruned of windows that should not be tiled.
 *
 * Window ids are of any type `W`; whether a window may be tiled and how
 * large it is are queries to the X server, so they are the parameters
 * `isValid` and `area`.
 */
module WindowList {
  import opened Sequences

  /** The elements of `s` whose membership in `other` is `present`, in their order in `s`. */
  function Keep<W(==)>(s: seq<W>, other: seq<W>, present: bool): (r: seq<W>)
    ensures |r| <= |s|
    ensures forall i :: 0 <= i < |r| ==> (r[i] in other) == present
  {
    if s == [] then []
    else Keep(s[..|s| - 1], other, present) + (if (s[|s| - 1] in other) == present then [s[|s| - 1]] else [])
  }

  /**
   * The reconciled list: the windows of `oldList` still present in
   * `newList`, in their old order, then the windows new in `newList`, in
   * their new order.
   */
  function Reconcile<W(==)>(newList: seq<W>, oldList: seq<W>): seq<W> {
    Keep(oldList, newList, true) + Keep(newList, oldList, false)
  }

  /** `compare_win_list`, filling the result in two passes. */
  method CompareWinList<W(==)>(newList: seq<W>, oldList: seq<W>) returns (merged: seq<W>)
    ensures merged == Reconcile(newList, oldList)
  {
    merged := [];
    for k := 0 to |oldList|
      invariant merged == Keep(oldList[..k], newList, true)
    {
      assert oldList[..k + 1][..k] == oldList[..k];
      if oldList[k] in newList {
        merged := merged + [oldList[k]];
      }
    }
    assert oldList[..|oldList|] == oldList;
    var kept := merged;
    for k := 0 to |newList|
      invariant merged == kept + Keep(newList[..k], oldList, false)
    {
      assert newList[..k + 1][..k] == newList[..k];
      if newList[k] !in oldList {
        merged := merged + [newList[k]];
      }
    }
    assert newList[..|newList|] == newList;
  }

  lemma {:induction false} KeepMembers<W>(s: seq<W>, other: seq<W>, present: bool, x: W)
    ensures x in Keep(s, other, present) <==> x in s && (x in other) == present
    decreases |s|
  {
    if s != [] {
      var init := s[..|s| - 1];
      KeepMembers(init, other, present, x);
      assert s == init + [s[|s| - 1]];
    }
  }

  lemma {:induction false} KeepSubseq<W>(s: seq<W>, other: seq<W>, present: bool)
    ensures Subseq(Keep(s, other, present), s)
    decreases |s|
  {
    if s != [] {
      var init := s[..|s| - 1];
      var last := s[|s| - 1];
      KeepSubseq(init, other, present);
      SubseqSnoc(Keep(init, other, present), init, last, (last in other) == present);
      assert s == init + [last];
    }
  }

  /** Appending the same element to both sides, or only to the longer one, keeps a subsequence. */
  lemma {:induction false} SubseqSnoc<W>(a: seq<W>, b: seq<W>, x: W, both: bool)
    requires Subseq(a, b)
    ensures Subseq(a + (if both then [x] else []), b + [x])
    decreases |b|
  {
    if a == [] {
      if both {
        SubseqLast(b, x);
        assert a + [x] == [x];
      } else {
        SubseqEmpty(b + [x]);
      }
    } else if a[0] == b[0] && Subseq(a[1..], b[1..]) {
      SubseqSnoc(a[1..], b[1..], x, both);
      assert (a + (if both then [x] else []))[1..] == a[1..] + (if both then [x] else []);
      assert (b + [x])[1..] == b[1..] + [x];
    } else {
      SubseqSnoc(a, b[1..], x, both);
      assert (b + [x])[1..] == b[1..] + [x];
    }
  }

  lemma {:induction false} SubseqLast<W>(b: seq<W>, x: W)
    ensures Subseq([x], b + [x])
    decreases |b|
  {
    if b == [] {
      SubseqEmpty<W>([]);
      assert [x][1..] == [];
    } else {
      SubseqLast(b[1..], x);
      assert (b + [x])[1..] == b[1..] + [x];
    }
  }

  /** The reconciled list holds exactly the windows of the new list. */
  lemma ReconcileMembers<W>(newList: seq<W>, oldList: seq<W>, x: W)
    ensures x in Reconcile(newList, oldList) <==> x in newList
  {
    KeepMembers(oldList, newList, true, x);
    KeepMembers(newList, oldList, false, x);
  }

  /** With nothing recorded, the new list is taken as it is. */
  lemma {:induction false} ReconcileFromEmpty<W>(newList: seq<W>)
    ensures Reconcile(newList, []) == newList
    decreases |newList|
  {
    if newList != [] {
      ReconcileFromEmpty(newList[..|newList| - 1]);
    }
  }

  /** Reconciling a list with itself gives it back, so the shortcut for an unchanged list agrees. */
  lemma ReconcileSame<W>(s: seq<W>)
    ensures Reconcile(s, s) == s
  {
    KeepAll(s, s);
    KeepNone(s, s);
  }

  lemma {:induction false} KeepAll<W>(s: seq<W>, other: seq<W>)
    requires forall i :: 0 <= i < |s| ==> s[i] in other
    ensures Keep(s, other, true) == s
    decreases |s|
  {
    if s != [] {
      KeepAll(s[..|s| - 1], other);
    }
  }

  lemma {:induction false} KeepNone<W>(s: seq<W>, other: seq<W>)
    requires forall i :: 0 <= i < |s| ==> s[i] in other
    ensures Keep(s, other, false) == []
    decreases |s|
  {
    if s != [] {
      KeepNone(s[..|s| - 1], other);
    }
  }

  lemma KeepNoDup<W>(s: seq<W>, other: seq<W>, present: bool)
    requires NoDup(s)
    ensures NoDup(Keep(s, other, present))
  {
    KeepSubseq(s, other, present);
    SubseqNoDup(Keep(s, other, present), s);
  }

  /** From a duplicate-free list, each window `Keep` keeps occurs once. */
  lemma KeepMultiplicity<W>(s: seq<W>, other: seq<W>, present: bool, x: W)
    requires NoDup(s)
    ensures multiset(Keep(s, other, present))[x] == if x in s && (x in other) == present then 1 else 0
  {
    KeepNoDup(s, other, present);
    NoDupMultiplicity(Keep(s, other, present), x);
    KeepMembers(s, other, present, x);
  }

  /**
   * When both lists are duplicate-free, reconciling only reorders the new
   * list: the result is a permutation of it, again without duplicates.
   */
  lemma ReconcilePermutation<W>(newList: seq<W>, oldList: seq<W>)
    requires NoDup(newList) && NoDup(oldList)
    ensures multiset(Reconcile(newList, oldList)) == multiset(newList)
    ensures NoDup(Reconcile(newList, oldList))
  {
    ReconcileMultiset(newList, oldList);
    ReconcileNoDup(newList, oldList);
  }

  lemma ReconcileMultiset<W>(newList: seq<W>, oldList: seq<W>)
    requires NoDup(newList) && NoDup(oldList)
    ensures multiset(Reconcile(newList, oldList)) == multiset(newList)
  {
    var a := Keep(oldList, newList, true);
    var b := Keep(newList, oldList, false);
    forall x ensures multiset(a)[x] + multiset(b)[x] == multiset(newList)[x] {
      KeepMultiplicity(oldList, newList, true, x);
      KeepMultiplicity(newList, oldList, false, x);
      NoDupMultiplicity(newList, x);
    }
    MultisetSum(multiset(a), multiset(b), multiset(newList));
    assert multiset(a + b) == multiset(a) + multiset(b);
  }

  lemma MultisetSum<W>(a: multiset<W>, b: multiset<W>, c: multiset<W>)
    requires forall x :: a[x] + b[x] == c[x]
    ensures a + b == c
  {
  }

  lemma ReconcileNoDup<W>(newList: seq<W>, oldList: seq<W>)
    requires NoDup(newList) && NoDup(oldList)
    ensures NoDup(Reconcile(newList, oldList))
  {
    var a := Keep(oldList, newList, true);
    var b := Keep(newList, oldList, false);
    KeepNoDup(oldList, newList, true);
    KeepNoDup(newList, oldList, false);
    forall i, j | 0 <= i < j < |a + b| ensures (a + b)[i] != (a + b)[j] {
      if j < |a| {
        assert (a + b)[i] == a[i] && (a + b)[j] == a[j];
      } else if |a| <= i {
        assert (a + b)[i] == b[i - |a|] && (a + b)[j] == b[j - |a|];
      } else {
        assert (a + b)[i] == a[i] && a[i] in oldList by {
          KeepMembers(oldList, newList, true, a[i]);
        }
        assert (a + b)[j] == b[j - |a|] && b[j - |a|] !in oldList by {
          KeepMembers(newList, oldList, false, b[j - |a|]);
        }
      }
    }
  }

  /**
   * What the validity filter of `create_win_list` keeps, as it is written:
   * it deletes invalid windows from the list it is iterating over, so the
   * window that moves into a deleted window's place is never looked at.
   */
  function SkipFilter<W>(s: seq<W>, isValid: W -> bool): (r: seq<W>)
    ensures |r| <= |s|
    decreases |s|
  {
    if |s| == 0 then []
    else if |s| == 1 then (if isValid(s[0]) then s else [])
    else if isValid(s[0]) then [s[0]] + SkipFilter(s[1..], isValid)
    else [s[1]] + SkipFilter(s[2..], isValid)
  }

  /** The filter as written only deletes: it keeps a subsequence of the list it is given. */
  lemma {:induction false} SkipFilterSubseq<W>(s: seq<W>, isValid: W -> bool)
    ensures Subseq(SkipFilter(s, isValid), s)
    decreases |s|
  {
    var r := SkipFilter(s, isValid);
    if |s| == 0 {
      SubseqEmpty(s);
    } else if |s| == 1 {
      if isValid(s[0]) {
        SubseqRefl(s);
      } else {
        SubseqEmpty(s);
      }
    } else if isValid(s[0]) {
      SkipFilterSubseq(s[1..], isValid);
      assert r[0] == s[0] && r[1..] == SkipFilter(s[1..], isValid);
    } else {
      var rest := SkipFilter(s[2..], isValid);
      SkipFilterSubseq(s[2..], isValid);
      assert r[0] == s[1] && r[1..] == rest;
      assert s[1..][0] == s[1] && s[1..][1..] == s[2..];
      assert Subseq(r, s[1..]);
    }
  }

  /**
   * What the filter loop will have produced when it finishes, seen from
   * position `i` of the current list `ws`: the part already passed, then
   * the filter of the rest.
   */
  ghost function Pending<W>(ws: seq<W>, i: nat, isValid: W -> bool): seq<W> {
    if i <= |ws| then ws[..i] + SkipFilter(ws[i..], isValid) else ws
  }

  /** One step of the filter loop at a valid window: move on. */
  lemma SkipFilterStepValid<W>(ws: seq<W>, i: nat, isValid: W -> bool)
    requires i < |ws| && isValid(ws[i])
    ensures Pending(ws, i + 1, isValid) == Pending(ws, i, isValid)
  {
    var tail := ws[i..];
    if |tail| > 1 {
      assert tail[1..] == ws[i + 1..];
    }
    assert ws[..i + 1] == ws[..i] + [ws[i]];
  }

  /** One step of the filter loop at an invalid window: delete it, then move on. */
  lemma SkipFilterStepInvalid<W>(ws: seq<W>, i: nat, isValid: W -> bool)
    requires i < |ws| && !isValid(ws[i])
    ensures Pending(ws[..i] + ws[i + 1..], i + 1, isValid) == Pending(ws, i, isValid)
  {
    var tail := ws[i..];
    var rest := ws[..i] + ws[i + 1..];
    if i + 1 <= |rest| {
      assert tail[2..] == rest[i + 1..];
      assert rest[..i + 1] == ws[..i] + [tail[1]];
    } else {
      assert rest == ws[..i];
    }
  }

  /** Deleting the window at `i` with `remove` keeps a subsequence, and in a duplicate-free list deletes position `i`. */
  lemma RemoveStep<W>(kept: seq<W>, windows: seq<W>, i: nat)
    requires i < |kept| && Subseq(kept, windows)
    requires NoDup(windows) ==> NoDup(kept)
    ensures Subseq(RemoveFirst(kept, kept[i]), windows)
    ensures NoDup(windows) ==>
              NoDup(RemoveFirst(kept, kept[i])) && RemoveFirst(kept, kept[i]) == kept[..i] + kept[i + 1..]
  {
    RemoveFirstSubseq(kept, kept[i]);
    SubseqTrans(RemoveFirst(kept, kept[i]), kept, windows);
    if NoDup(windows) {
      assert IndexOf(kept, kept[i]) == i;
      SubseqNoDup(RemoveFirst(kept, kept[i]), windows);
    }
  }

  /** Once the filter loop has passed the end of the list, nothing is pending. */
  lemma PendingDone<W>(ws: seq<W>, i: nat, isValid: W -> bool)
    requires |ws| <= i
    ensures Pending(ws, i, isValid) == ws
  {
    if i == |ws| {
      assert ws[..i] == ws && ws[i..] == [];
    }
  }

  /** The loop of `PruneInvalid` keeps its invariant when it deletes an invalid window. */
  lemma PruneStepInvalid<W>(kept: seq<W>, windows: seq<W>, i: nat, isValid: W -> bool, target: seq<W>)
    requires i < |kept| && !isValid(kept[i]) && Subseq(kept, windows)
    requires NoDup(windows) ==> NoDup(kept) && Pending(kept, i, isValid) == target
    ensures Subseq(RemoveFirst(kept, kept[i]), windows)
    ensures NoDup(windows) ==>
              NoDup(RemoveFirst(kept, kept[i])) && Pending(RemoveFirst(kept, kept[i]), i + 1, isValid) == target
  {
    SkipFilterStepInvalid(kept, i, isValid);
    RemoveStep(kept, windows, i);
  }

  /**
   * `create_win_list`'s validity filter as written: walk the list by
   * position and delete each invalid window with `remove` (its first
   * occurrence), moving on to the next position either way. It only
   * deletes, and on a duplicate-free list it computes `SkipFilter`.
   */
  method PruneInvalid<W(==)>(windows: seq<W>, isValid: W -> bool) returns (kept: seq<W>)
    ensures Subseq(kept, windows)
    ensures NoDup(windows) ==> kept == SkipFilter(windows, isValid)
  {
    kept := windows;
    SubseqRefl(windows);
    ghost var target := SkipFilter(windows, isValid);
    var i := 0;
    while i < |kept|
      invariant i <= |kept| + 1
      invariant Subseq(kept, windows)
      invariant NoDup(windows) ==> NoDup(kept) && Pending(kept, i, isValid) == target
      decreases |kept| + 1 - i
    {
      var win := kept[i];
      if !isValid(win) {
        PruneStepInvalid(kept, windows, i, isValid, target);
        kept := RemoveFirst(kept, win);
      } else {
        SkipFilterStepValid(kept, i, isValid);
      }
      i := i + 1;
    }
    PendingDone(kept, i, isValid);
  }

  /** The filter as written never deletes a valid window. */
  lemma {:induction false} SkipFilterKeepsValid<W>(s: seq<W>, isValid: W -> bool, x: W)
    requires x in s && isValid(x)
    ensures x in SkipFilter(s, isValid)
    decreases |s|
  {
    if |s| > 1 {
      if isValid(s[0]) {
        if x != s[0] {
          SkipFilterKeepsValid(s[1..], isValid, x);
        }
      } else if x != s[1] {
        assert x in s[2..] by {
          assert s == [s[0], s[1]] + s[2..];
        }
        SkipFilterKeepsValid(s[2..], isValid, x);
      }
    }
  }

  /**
   * But it can keep an invalid one: of two invalid windows in a row, the
   * first is deleted and the second, moved into its place, is never
   * checked.
   */
  lemma SkipFilterKeepsInvalid<W>(x: W, y: W, isValid: W -> bool)
    requires !isValid(x) && !isValid(y)
    ensures SkipFilter([x, y], isValid) == [y]
    ensures exists i :: 0 <= i < |SkipFilter([x, y], isValid)| && !isValid(SkipFilter([x, y], isValid)[i])
  {
    assert [x, y][2..] == [];
    assert SkipFilter([x, y], isValid)[0] == y;
  }

  /**
   * The filter as intended: delete each invalid window at its position and
   * look at the window that moves there before going on. Exactly the valid
   * windows remain, in their order.
   */
  method PruneInvalidFixed<W>(windows: seq<W>, isValid: W -> bool) returns (kept: seq<W>)
    ensures kept == Filter(windows, isValid)
  {
    kept := windows;
    var i := 0;
    while i < |kept|
      invariant i <= |kept|
      invariant Filter(kept, isValid) == Filter(windows, isValid)
      invariant forall k :: 0 <= k < i ==> isValid(kept[k])
      decreases |kept| - i
    {
      if !isValid(kept[i]) {
        FilterRemoveRejected(kept, i, isValid);
        kept := kept[..i] + kept[i + 1..];
      } else {
        i := i + 1;
      }
    }
    FilterNone(kept, isValid);
  }

  /**
   * The list `create_win_list` filters: the current desktop's windows,
   * reconciled with the recorded ones when there is a record and it differs.
   */
  function Reconciled<W(==)>(winList: map<int, seq<W>>, oldWinList: map<int, seq<W>>, desktop: int): seq<W>
    requires desktop in winList
    requires oldWinList != map[] ==> desktop in oldWinList
  {
    var windows := winList[desktop];
    if oldWinList == map[] then windows
    else if windows == oldWinList[desktop] then windows
    else Reconcile(windows, oldWinList[desktop])
  }

  /**
   * The shortcut for an unchanged list changes nothing: with no record the
   * current list is taken as it is, otherwise it is reconciled with the
   * record. Either way the windows are exactly the current desktop's.
   */
  lemma ReconciledAgrees<W>(winList: map<int, seq<W>>, oldWinList: map<int, seq<W>>, desktop: int, x: W)
    requires desktop in winList
    requires oldWinList != map[] ==> desktop in oldWinList
    ensures Reconciled(winList, oldWinList, desktop)
            == if oldWinList == map[] then winList[desktop] else Reconcile(winList[desktop], oldWinList[desktop])
    ensures x in Reconciled(winList, oldWinList, desktop) <==> x in winList[desktop]
  {
    if oldWinList != map[] {
      ReconcileSame(winList[desktop]);
      ReconcileMembers(winList[desktop], oldWinList[desktop], x);
    }
  }

  /**
   * With duplicate-free lists, the list `create_win_list` filters is a
   * permutation of the current desktop's windows.
   */
  lemma ReconciledPermutation<W>(winList: map<int, seq<W>>, oldWinList: map<int, seq<W>>, desktop: int)
    requires desktop in winList && NoDup(winList[desktop])
    requires oldWinList != map[] ==> desktop in oldWinList && NoDup(oldWinList[desktop])
    ensures multiset(Reconciled(winList, oldWinList, desktop)) == multiset(winList[desktop])
    ensures NoDup(Reconciled(winList, oldWinList, desktop))
  {
    if oldWinList != map[] && winList[desktop] != oldWinList[desktop] {
      ReconcilePermutation(winList[desktop], oldWinList[desktop]);
    }
  }

  /**
   * `create_win_list`: the windows of the current desktop, reconciled with
   * the recorded order, keeping the valid ones. Looking up the desktop
   * fails when it has no entry, in the record too unless the record is empty.
   */
  method CreateWinList<W(==)>(winList: map<int, seq<W>>, oldWinList: map<int, seq<W>>, desktop: int,
                              isValid: W -> bool) returns (windows: seq<W>)
    requires desktop in winList
    requires oldWinList != map[] ==> desktop in oldWinList
    ensures windows == Filter(Reconciled(winList, oldWinList, desktop), isValid)
  {
    windows := winList[desktop];
    if oldWinList != map[] {
      var oldWindows := oldWinList[desktop];
      if windows != oldWindows {
        windows := CompareWinList(windows, oldWindows);
      }
    }
    windows := PruneInvalidFixed(windows, isValid);
  }

  /**
   * `create_win_list` with its validity filter as written: the result keeps
   * the reconciled order and only deletes; with duplicate-free lists it is
   * `SkipFilter` of the reconciled list, so it keeps every valid window of
   * the desktop but may keep an invalid one as well.
   */
  method CreateWinListAsWritten<W(==)>(winList: map<int, seq<W>>, oldWinList: map<int, seq<W>>, desktop: int,
                                       isValid: W -> bool) returns (windows: seq<W>)
    requires desktop in winList
    requires oldWinList != map[] ==> desktop in oldWinList
    ensures Subseq(windows, Reconciled(winList, oldWinList, desktop))
    ensures NoDup(winList[desktop]) && (oldWinList != map[] ==> NoDup(oldWinList[desktop])) ==>
              windows == SkipFilter(Reconciled(winList, oldWinList, desktop), isValid)
              && forall x :: x in winList[desktop] && isValid(x) ==> x in windows
  {
    windows := winList[desktop];
    if oldWinList != map[] {
      var oldWindows := oldWinList[desktop];
      if windows != oldWindows {
        windows := CompareWinList(windows, oldWindows);
      }
    }
    ghost var reconciled := windows;
    assert reconciled == Reconciled(winList, oldWinList, desktop);
    windows := PruneInvalid(windows, isValid);
    if NoDup(winList[desktop]) && (oldWinList != map[] ==> NoDup(oldWinList[desktop])) {
      ReconciledPermutation(winList, oldWinList, desktop);
      forall x | x in winList[desktop] && isValid(x)
        ensures x in windows
      {
        ReconciledAgrees(winList, oldWinList, desktop, x);
        SkipFilterKeepsValid(reconciled, isValid, x);
      }
    }
  }

  /** The windows `create_win_list` returns are the valid windows of the current desktop. */
  lemma CreatedMembers<W>(winList: map<int, seq<W>>, oldWinList: map<int, seq<W>>, desktop: int,
                          isValid: W -> bool, x: W)
    requires desktop in winList
    requires oldWinList != map[] ==> desktop in oldWinList
    ensures x in Filter(Reconciled(winList, oldWinList, desktop), isValid) <==> x in winList[desktop] && isValid(x)
  {
    ReconciledAgrees(winList, oldWinList, desktop, x);
    FilterMembers(Reconciled(winList, oldWinList, desktop), isValid);
  }

  /**
   * `get_largest_window`: the first window of largest positive area, or
   * the first window when no area is positive.
   */
  method LargestWindow<W>(ws: seq<W>, area: W -> int) returns (maxWin: W)
    requires |ws| > 0
    ensures maxWin in ws
    ensures (forall i :: 0 <= i < |ws| ==> area(ws[i]) <= 0) ==> maxWin == ws[0]
    ensures (exists i :: 0 <= i < |ws| && area(ws[i]) > 0) ==>
              area(maxWin) > 0 && forall i :: 0 <= i < |ws| ==> area(ws[i]) <= area(maxWin)
    ensures exists k :: 0 <= k < |ws| && ws[k] == maxWin && forall j :: 0 <= j < k ==> area(ws[j]) < area(maxWin)
  {
    var maxArea := 0;
    maxWin := ws[0];
    ghost var best := 0;
    for n := 0 to |ws|
      invariant 0 <= best < |ws| && ws[best] == maxWin && maxArea >= 0
      invariant maxArea == 0 ==> best == 0
      invariant maxArea > 0 ==> area(maxWin) == maxArea && forall j :: 0 <= j < best ==> area(ws[j]) < maxArea
      invariant forall j :: 0 <= j < n ==> area(ws[j]) <= maxArea
    {
      var winArea := area(ws[n]);
      if winArea > maxArea {
        maxArea := winArea;
        maxWin := ws[n];
        best := n;
      }
    }
  }
}
