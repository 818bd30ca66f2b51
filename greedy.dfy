/** Stage 4 of the allocator: the greedy round-robin fill that hands out
    what is left of the global pool after the proportional split.

    The `distributed` list of `calculateSmartBunks` is represented by two
    parallel sequences: `a`, the current allocations (the `allocatedBunks`
    field its loop increments in place), and `ceil`, each subject's
    `maxSafeBunks` (never changed). */
module Greedy {

  /** Sum of a sequence of integers, folded from the front like `reduce`. */
  function Sum(s: seq<int>): int
  {
    if s == [] then 0 else s[0] + Sum(s[1..])
  }

  lemma {:induction false} SumUpdate(s: seq<int>, i: nat, v: int)
    requires i < |s|
    ensures Sum(s[i := v]) == Sum(s) - s[i] + v
  {
    if i == 0 {
      assert s[i := v][1..] == s[1..];
    } else {
      assert s[i := v][1..] == s[1..][i - 1 := v];
      SumUpdate(s[1..], i - 1, v);
    }
  }

  /** Every allocation is at most its subject's ceiling. */
  ghost predicate Within(a: seq<int>, ceil: seq<int>)
  {
    |a| == |ceil| && forall k :: 0 <= k < |a| ==> a[k] <= ceil[k]
  }

  /** One scan of the distributed list, from position `i` on, with
      `leftover` units still to hand out and `added` telling whether the
      scan has incremented anything so far. A subject below its ceiling
      gets one more unit; the scan stops at once when the leftover reaches
      zero. Returns the new allocations, the new leftover and the flag. */
  function Pass(a: seq<int>, ceil: seq<int>, i: nat, leftover: int, added: bool): (r: (seq<int>, int, bool))
    requires |a| == |ceil| && i <= |a|
    ensures |r.0| == |a|
    ensures r.1 <= leftover
    ensures leftover > 0 ==> r.1 >= 0
    ensures r.2 == (added || r.1 < leftover)
    decreases |a| - i
  {
    if i == |a| then (a, leftover, added)
    else if a[i] < ceil[i] then
      var a' := a[i := a[i] + 1];
      if leftover - 1 == 0 then (a', 0, true)
      else Pass(a', ceil, i + 1, leftover - 1, true)
    else Pass(a, ceil, i + 1, leftover, added)
  }

  /** Repeated full scans while some leftover remains, stopping after the
      first scan that adds nothing. Returns the allocations and the
      leftover that could not be placed. */
  function Fill(a: seq<int>, ceil: seq<int>, leftover: int): (r: (seq<int>, int))
    requires |a| == |ceil|
    ensures |r.0| == |a|
    decreases if leftover < 0 then 0 else leftover
  {
    if leftover <= 0 then (a, leftover)
    else
      var (a', rest, added) := Pass(a, ceil, 0, leftover, false);
      if !added then (a', rest) else Fill(a', ceil, rest)
  }

  /** The redistribution loop, run in place on the array of allocations. */
  method RedistributeLeftover(alloc: array<int>, ceil: seq<int>, leftover: int) returns (remaining: int)
    requires alloc.Length == |ceil|
    modifies alloc
    ensures (alloc[..], remaining) == Fill(old(alloc[..]), ceil, leftover)
  {
    remaining := leftover;
    while remaining > 0
      invariant Fill(alloc[..], ceil, remaining) == Fill(old(alloc[..]), ceil, leftover)
      decreases remaining
    {
      ghost var start, budget := alloc[..], remaining;
      var added := false;
      var i := 0;
      while i < alloc.Length
        invariant i <= alloc.Length && remaining > 0
        invariant Pass(alloc[..], ceil, i, remaining, added) == Pass(start, ceil, 0, budget, false)
      {
        if alloc[i] < ceil[i] {
          alloc[i] := alloc[i] + 1;
          remaining := remaining - 1;
          added := true;
          if remaining == 0 {
            break;
          }
        }
        i := i + 1;
      }
      if !added {
        break;
      }
    }
  }

  /** A scan keeps every allocation between its old value and its
      ceiling, moves units from the leftover into the allocations one for
      one, and a scan that adds nothing found every subject it visited
      already at its ceiling. */
  lemma {:induction false} PassInvariant(a: seq<int>, ceil: seq<int>, i: nat, leftover: int, added: bool)
    requires Within(a, ceil) && i <= |a| && leftover > 0
    ensures var r := Pass(a, ceil, i, leftover, added);
      && Within(r.0, ceil)
      && (forall k :: 0 <= k < |a| ==> a[k] <= r.0[k])
      && Sum(r.0) + r.1 == Sum(a) + leftover
      && (!r.2 ==> forall k :: i <= k < |a| ==> r.0[k] == ceil[k])
    decreases |a| - i
  {
    if i < |a| {
      if a[i] < ceil[i] {
        var a' := a[i := a[i] + 1];
        SumUpdate(a, i, a[i] + 1);
        if leftover - 1 != 0 {
          PassInvariant(a', ceil, i + 1, leftover - 1, true);
        }
      } else {
        PassInvariant(a, ceil, i + 1, leftover, added);
      }
    }
  }

  /** The whole redistribution keeps every allocation between its old
      value and its ceiling, conserves allocation plus leftover, never
      drives the leftover negative, and ends with the leftover exhausted or
      every subject saturated. */
  lemma {:induction false} FillInvariant(a: seq<int>, ceil: seq<int>, leftover: int)
    requires Within(a, ceil) && leftover >= 0
    ensures var r := Fill(a, ceil, leftover);
      && Within(r.0, ceil)
      && (forall k :: 0 <= k < |a| ==> a[k] <= r.0[k])
      && Sum(r.0) + r.1 == Sum(a) + leftover
      && 0 <= r.1
      && (r.1 == 0 || forall k :: 0 <= k < |a| ==> r.0[k] == ceil[k])
    decreases leftover
  {
    if leftover > 0 {
      PassInvariant(a, ceil, 0, leftover, false);
      var (a', rest, added) := Pass(a, ceil, 0, leftover, false);
      if added {
        FillInvariant(a', ceil, rest);
      }
    }
  }

  /** Round-robin fairness of the result `a` against the start `a0`: a
      subject left below its ceiling received at least as many extra units
      as every later subject, and at most one fewer than every earlier one. */
  ghost predicate Fair(a0: seq<int>, a: seq<int>, ceil: seq<int>)
  {
    |a0| == |a| == |ceil| &&
    forall j, k :: 0 <= j < |a| && 0 <= k < |a| && a[j] < ceil[j] ==>
      a[k] - a0[k] <= a[j] - a0[j] + (if j < k then 0 else 1)
  }

  /** The state in the middle of scan number `passes`, at position `i`:
      subjects before `i` have had one unit more than those from `i` on,
      and every subject still below its ceiling had all of its turns. */
  ghost predicate Level(a0: seq<int>, a: seq<int>, ceil: seq<int>, passes: int, i: int)
  {
    |a0| == |a| == |ceil| && 0 <= i <= |a| &&
    forall k :: 0 <= k < |a| ==>
      && a[k] - a0[k] <= passes + (if k < i then 1 else 0)
      && (a[k] < ceil[k] ==> a[k] - a0[k] == passes + (if k < i then 1 else 0))
  }

  lemma {:induction false} LevelFair(a0: seq<int>, a: seq<int>, ceil: seq<int>, passes: int, i: int)
    requires Level(a0, a, ceil, passes, i)
    ensures Fair(a0, a, ceil)
  {
  }

  lemma {:induction false} PassLevel(a0: seq<int>, a: seq<int>, ceil: seq<int>, passes: int, i: nat, leftover: int, added: bool)
    requires Level(a0, a, ceil, passes, i) && Within(a, ceil) && leftover > 0
    ensures var r := Pass(a, ceil, i, leftover, added);
      && Fair(a0, r.0, ceil)
      && (r.1 > 0 ==> Level(a0, r.0, ceil, passes + 1, 0))
    decreases |a| - i
  {
    if i == |a| {
      LevelFair(a0, a, ceil, passes, i);
    } else if a[i] < ceil[i] {
      var a' := a[i := a[i] + 1];
      assert Level(a0, a', ceil, passes, i + 1);
      if leftover - 1 == 0 {
        LevelFair(a0, a', ceil, passes, i + 1);
      } else {
        PassLevel(a0, a', ceil, passes, i + 1, leftover - 1, true);
      }
    } else {
      assert Level(a0, a, ceil, passes, i + 1);
      PassLevel(a0, a, ceil, passes, i + 1, leftover, added);
    }
  }

  lemma {:induction false} FillLevel(a0: seq<int>, a: seq<int>, ceil: seq<int>, passes: int, leftover: int)
    requires Level(a0, a, ceil, passes, 0) && Within(a, ceil)
    ensures Fair(a0, Fill(a, ceil, leftover).0, ceil)
    decreases if leftover < 0 then 0 else leftover
  {
    if leftover <= 0 {
      LevelFair(a0, a, ceil, passes, 0);
    } else {
      PassLevel(a0, a, ceil, passes, 0, leftover, false);
      PassInvariant(a, ceil, 0, leftover, false);
      var (a', rest, added) := Pass(a, ceil, 0, leftover, false);
      if added && rest > 0 {
        FillLevel(a0, a', ceil, passes + 1, rest);
      }
    }
  }

  /** The redistribution hands units out round-robin in list order. */
  lemma {:induction false} FillFair(a: seq<int>, ceil: seq<int>, leftover: int)
    requires Within(a, ceil)
    ensures Fair(a, Fill(a, ceil, leftover).0, ceil)
  {
    FillLevel(a, a, ceil, 0, leftover);
  }
}
