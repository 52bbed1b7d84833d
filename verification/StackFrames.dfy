/** How many stack frames lines of each level get (sub.go, logger.go). */
module StackFrames {

  /** Trace, debug, log, info, warn, error and alert. */
  const LEVELS: seq<int> := [2, 7, 9, 11, 13, 17, 20]

  const ALERT := 20

  function Max(a: int, b: int): int { if a >= b then a else b }

  function Min(a: int, b: int): int { if a <= b then a else b }

  /** At least as many above the level, at most as many below it. */
  function Adjusted(current: int, l: int, level: int, count: int): int {
    if l < level then Min(current, count) else if l > level then Max(current, count) else count
  }

  function Default(l: int): int {
    if l == 20 then 20 else if l == 17 then 10 else 0
  }

  /** What a level gets after some calls. */
  function Wanted(calls: seq<(int, int)>, l: int): int {
    if calls == [] then Default(l)
    else
      var c := calls[|calls| - 1];
      Adjusted(Wanted(calls[..|calls| - 1], l), l, c.0, c.1)
  }

  class LogSettings {
    const stackFramesWanted: array<int>

    ghost predicate Tracks(calls: seq<(int, int)>)
      reads stackFramesWanted
    {
      && stackFramesWanted.Length == ALERT + 1
      && forall l :: 0 <= l <= ALERT ==> stackFramesWanted[l] == if l in LEVELS then Wanted(calls, l) else 0
    }

    constructor ()
      ensures fresh(stackFramesWanted) && Tracks([])
    {
      stackFramesWanted := new int[ALERT + 1](_ => 0);
      new;
      stackFramesWanted[ALERT] := 20;
      stackFramesWanted[17] := 10;
    }

    method StackFrames(level: int, frameCount: int, ghost calls: seq<(int, int)>)
      requires Tracks(calls)
      modifies stackFramesWanted
      ensures Tracks(calls + [(level, frameCount)])
    {
      ghost var next := calls + [(level, frameCount)];
      assert next[..|next| - 1] == calls;
      var k := 0;
      while k < |LEVELS|
        invariant 0 <= k <= |LEVELS|
        invariant forall l :: 0 <= l <= ALERT ==>
          stackFramesWanted[l] == if l in LEVELS[..k] then Wanted(next, l) else if l in LEVELS then Wanted(calls, l) else 0
      {
        var l := LEVELS[k];
        var current := stackFramesWanted[l];
        if l <= level && current > frameCount {
          stackFramesWanted[l] := frameCount;
        }
        if l >= level && current < frameCount {
          stackFramesWanted[l] := frameCount;
        }
        assert LEVELS[..k + 1] == LEVELS[..k] + [l];
        k := k + 1;
      }
      assert LEVELS[..k] == LEVELS;
    }

    /** The length and capacity that a line of a level asks for, if any. */
    method Allocate(level: int, ghost calls: seq<(int, int)>) returns (length: int, capacity: int)
      requires Tracks(calls) && level in LEVELS && forall i :: 0 <= i < |calls| ==> calls[i].1 >= 0
      ensures length == Wanted(calls, level) && 0 <= length <= capacity
    {
      length, capacity := stackFramesWanted[level], stackFramesWanted[ALERT];
      Monotone(calls, level, ALERT);
    }
  }

  /** Higher levels never get fewer frames. */
  lemma {:induction false} Monotone(calls: seq<(int, int)>, l: int, m: int)
    requires l <= m && l in LEVELS && m in LEVELS
    ensures Wanted(calls, l) <= Wanted(calls, m)
    ensures (forall i :: 0 <= i < |calls| ==> calls[i].1 >= 0) ==> 0 <= Wanted(calls, l)
  {
    if calls != [] {
      Monotone(calls[..|calls| - 1], l, m);
    }
  }

  /** A call keeps the counts of all levels from becoming negative exactly when its own count is not
      negative or its level is below all levels. */
  lemma NegativeCount(calls: seq<(int, int)>, c: (int, int))
    requires forall l :: l in LEVELS ==> Wanted(calls, l) >= 0
    ensures (forall l :: l in LEVELS ==> Wanted(calls + [c], l) >= 0) <==> c.1 >= 0 || c.0 < 2
  {
    assert (calls + [c])[..|calls|] == calls;
    assert LEVELS[0] == 2 && 2 in LEVELS;
  }

  /** The frames of every level after any calls. */
  method Run(calls: seq<(int, int)>) returns (wanted: seq<int>)
    ensures |wanted| == ALERT + 1
    ensures forall l :: 0 <= l <= ALERT ==> wanted[l] == if l in LEVELS then Wanted(calls, l) else 0
    ensures forall l, m :: l in LEVELS && m in LEVELS && 0 <= l <= m <= ALERT ==> wanted[l] <= wanted[m]
  {
    var s := new LogSettings();
    var k := 0;
    assert calls[..0] == [];
    while k < |calls|
      invariant 0 <= k <= |calls| && fresh(s.stackFramesWanted) && s.Tracks(calls[..k])
    {
      assert calls[..k + 1] == calls[..k] + [(calls[k].0, calls[k].1)];
      s.StackFrames(calls[k].0, calls[k].1, calls[..k]);
      k := k + 1;
    }
    assert calls[..k] == calls;
    wanted := s.stackFramesWanted[..];
    forall l, m | l in LEVELS && m in LEVELS && 0 <= l <= m <= ALERT ensures wanted[l] <= wanted[m] {
      Monotone(calls, l, m);
    }
  }
}
