/** Whole runs of one request: what the base loggers hear in the end. */
module LifecycleRuns {
  import opened SpanTree
  import opened LifecycleSteps
  import opened LifecycleStale
  import LifecycleRoots
  import opened LifecycleTold
  import opened Lifecycle

  datatype Op =
    | Fork(l: nat, detached: bool)
    | Log(l: nat)
    | LogError(l: nat)
    | MarkBoring(l: nat)
    | Done(l: nat)

  /** The loggers that a run creates, in order of creation. */
  function TreeOf(ops: seq<Op>): (tree: seq<Node>)
    ensures |tree| > 0 && tree[0] == Node(0, false)
  {
    if ops == [] then [Node(0, false)]
    else
      var tree := TreeOf(ops[..|ops| - 1]);
      match ops[|ops| - 1]
      case Fork(p, detached) => tree + [Node(p, detached)]
      case _ => tree
  }

  /** Done was called on `x` or on an ancestor that is not above a detached logger. */
  ghost predicate DoneBy(ops: seq<Op>, x: nat)
    requires TreeOk(TreeOf(ops))
  {
    exists i :: 0 <= i < |ops| && ops[i].Done? && InSub(TreeOf(ops), ops[i].l, x)
  }

  /** Every logger exists when it is used, and none is used after it is done. */
  ghost predicate WellUsed(ops: seq<Op>)
    ensures WellUsed(ops) ==> TreeOk(TreeOf(ops))
    decreases |ops|
  {
    ops == [] ||
    var before, op := ops[..|ops| - 1], ops[|ops| - 1];
    WellUsed(before) && op.l < |TreeOf(before)| && !DoneBy(before, op.l)
  }

  /** The request and every detached logger are done. */
  ghost predicate AllDone(ops: seq<Op>)
    requires TreeOk(TreeOf(ops))
  {
    forall x: nat :: x < |TreeOf(ops)| && Top(TreeOf(ops), x) ==> DoneBy(ops, x)
  }

  lemma {:induction false} InSubGrows(tree: seq<Node>, n: Node, l: nat, x: nat)
    requires TreeOk(tree) && n.parent < |tree|
    ensures TreeOk(tree + [n])
    ensures x < |tree| ==> (InSub(tree + [n], l, x) <==> InSub(tree, l, x))
    ensures x == |tree| && l != x ==> (InSub(tree + [n], l, x) <==> !n.detached && InSub(tree, l, n.parent))
  {
    if l < x < |tree| {
      InSubGrows(tree, n, l, tree[x].parent);
    } else if l < x == |tree| {
      InSubGrows(tree, n, l, n.parent);
    }
  }

  /** How DoneBy changes with one more operation. */
  lemma {:induction false} DoneByStep(ops: seq<Op>, op: Op, x: nat)
    requires WellUsed(ops + [op]) && WellUsed(ops)
    requires x < |TreeOf(ops + [op])|
    ensures !op.Fork? ==> (DoneBy(ops + [op], x) <==> DoneBy(ops, x) || (op.Done? && InSub(TreeOf(ops), op.l, x)))
    ensures op.Fork? && x < |TreeOf(ops)| ==> (DoneBy(ops + [op], x) <==> DoneBy(ops, x))
    ensures op.Fork? && x == |TreeOf(ops)| ==> !DoneBy(ops + [op], x)
  {
    var more := ops + [op];
    assert more[..|more| - 1] == ops;
    var tree, tree' := TreeOf(ops), TreeOf(more);
    if op.Fork? {
      forall i | 0 <= i < |ops| && ops[i].Done?
        ensures x < |tree| ==> (InSub(tree', ops[i].l, x) <==> InSub(tree, ops[i].l, x))
        ensures ops[i].l < |tree|
        ensures x == |tree| ==> !InSub(tree', ops[i].l, x)
      {
        TargetExists(ops, i);
        InSubGrows(tree, Node(op.l, op.detached), ops[i].l, x);
      }
    }
    if DoneBy(ops, x) {
      var i :| 0 <= i < |ops| && ops[i].Done? && InSub(tree, ops[i].l, x);
      assert more[i] == ops[i];
    }
    if DoneBy(more, x) {
      var i :| 0 <= i < |more| && more[i].Done? && InSub(tree', more[i].l, x);
      assert i < |ops| ==> more[i] == ops[i];
    }
    if op.Done? {
      assert more[|ops|] == op;
    }
  }

  lemma {:induction false} TargetExists(ops: seq<Op>, i: nat)
    requires WellUsed(ops) && i < |ops|
    ensures ops[i].l < |TreeOf(ops)|
  {
    if i < |ops| - 1 {
      TargetExists(ops[..|ops| - 1], i);
    }
  }

  ghost predicate Marked(s: seq<Span>, dead: set<nat>) {
    forall x: nat :: x < |s| ==> s[x].active == (x !in dead) && s[x].doneCount == (if x in dead then 1 else 0)
  }

  /** Exactly the live children that are not detached are registered. */
  ghost predicate Registered(tree: seq<Node>, s: seq<Span>, dead: set<nat>)
    requires |s| == |tree|
  {
    forall x: nat, c: nat :: x < |s| ==> (c in s[x].deps <==> LiveChild(tree, dead, x, c))
  }

  predicate LiveChild(tree: seq<Node>, dead: set<nat>, x: nat, c: nat) {
    c < |tree| && !Top(tree, c) && tree[c].parent == x && c !in dead
  }

  /** What hangs below a done logger is done. */
  ghost predicate Closed(tree: seq<Node>, dead: set<nat>) {
    forall c: nat :: c < |tree| && !Top(tree, c) && tree[c].parent in dead ==> c in dead
  }

  ghost predicate Pending(tree: seq<Node>, detached: set<nat>, dead: set<nat>) {
    forall x: nat :: x in detached <==> x < |tree| && tree[x].detached && x !in dead
  }

  /** The state of a request whose done loggers are exactly `dead`. */
  ghost predicate Tracks(tree: seq<Node>, s: seq<Span>, detached: set<nat>, waiting: bool, calls: seq<BaseCall>, dead: set<nat>)
    requires TreeOk(tree) && DepsOk(tree, s)
  {
    && Marked(s, dead)
    && Registered(tree, s, dead)
    && Closed(tree, dead)
    && Pending(tree, detached, dead)
    && (waiting <==> 0 in dead && detached != {})
    && Heard(calls, dead, detached)
  }

  ghost predicate Heard(calls: seq<BaseCall>, dead: set<nat>, detached: set<nat>) {
    && (forall x: nat :: Finals(calls, x) == (if x in dead then 1 else 0) && Interims(calls, x) == 0)
    && Flushes(calls) == (if 0 in dead && detached == {} then 1 else 0)
    && (Flushes(calls) == 1 ==> calls != [] && calls[|calls| - 1] == BaseFlush)
  }

  function SubSet(tree: seq<Node>, l: nat): set<nat>
    requires TreeOk(tree)
  {
    set x: nat | x < |tree| && InSub(tree, l, x)
  }

  /** Below a live logger, reachable means: in the subtree and not done. */
  lemma {:induction false} LiveReach(tree: seq<Node>, s: seq<Span>, detached: set<nat>, waiting: bool, calls: seq<BaseCall>, dead: set<nat>, l: nat, x: nat)
    requires TreeOk(tree) && DepsOk(tree, s) && Tracks(tree, s, detached, waiting, calls, dead) && l < |tree| && l !in dead
    ensures Reach(tree, s, l, x) <==> InSub(tree, l, x) && x !in dead
  {
    if l < x < |tree| {
      LiveReach(tree, s, detached, waiting, calls, dead, l, tree[x].parent);
    }
  }

  lemma {:induction false} LiveReady(tree: seq<Node>, s: seq<Span>, detached: set<nat>, waiting: bool, calls: seq<BaseCall>, dead: set<nat>, l: nat)
    requires TreeOk(tree) && DepsOk(tree, s) && Tracks(tree, s, detached, waiting, calls, dead) && l < |tree|
    ensures Ready(tree, s, l)
    decreases |tree| - l
  {
    forall d: nat | d in s[l].deps
      ensures s[d].doneCount == 0 && Ready(tree, s, d)
    {
      LiveReady(tree, s, detached, waiting, calls, dead, d);
    }
  }

  /** While some logger is live there has been no flush. */
  lemma {:induction false} LiveNoFlush(tree: seq<Node>, s: seq<Span>, detached: set<nat>, waiting: bool, calls: seq<BaseCall>, dead: set<nat>, l: nat)
    requires TreeOk(tree) && DepsOk(tree, s) && Tracks(tree, s, detached, waiting, calls, dead) && l < |tree| && l !in dead
    ensures Flushes(calls) == 0 && (0 in dead ==> detached != {})
    ensures TopOf(tree, l) !in dead
  {
    if !Top(tree, l) {
      LiveNoFlush(tree, s, detached, waiting, calls, dead, tree[l].parent);
    }
  }

  lemma TracksMutter(tree: seq<Node>, s: seq<Span>, t: seq<Span>, detached: set<nat>, waiting: bool,
                     calls: seq<BaseCall>, more: seq<BaseCall>, dead: set<nat>, l: nat)
    requires TreeOk(tree) && DepsOk(tree, s) && DepsOk(tree, t) && l < |tree| && l !in dead
    requires Tracks(tree, s, detached, waiting, calls, dead) && SameButBoring(s, t) && OnlyLines(calls, more)
    ensures Tracks(tree, t, detached, waiting, more, dead)
  {
    LiveNoFlush(tree, s, detached, waiting, calls, dead, l);
  }

  lemma TracksFork(tree: seq<Node>, s: seq<Span>, tree': seq<Node>, t: seq<Span>, detached: set<nat>, waiting: bool,
                   calls: seq<BaseCall>, more: seq<BaseCall>, dead: set<nat>, p: nat, det: bool)
    requires TreeOk(tree) && DepsOk(tree, s) && TreeOk(tree') && DepsOk(tree', t) && p < |tree| && p !in dead
    requires Tracks(tree, s, detached, waiting, calls, dead) && OnlyLines(calls, more)
    requires forall x :: x in dead ==> x < |tree|
    requires tree' == tree + [Node(p, det)] && |t| == |s| + 1 && t[|s|] == Span(true, 0, 0, {})
    requires forall x: nat :: x < |s| ==> t[x] == if x == p && !det then s[x].(deps := s[x].deps + {|s|}) else s[x]
    ensures Tracks(tree', t, detached + (if det then {|s|} else {}), waiting, more, dead)
  {
    hide Registered, TreeOk, Pending, Finals;
    LiveNoFlush(tree, s, detached, waiting, calls, dead, p);
    ForkRegisters(tree, s, t, dead, p, det);
    ForkRest(tree, dead, detached, p, det);
    assert Marked(t, dead);
  }

  lemma ForkRest(tree: seq<Node>, dead: set<nat>, detached: set<nat>, p: nat, det: bool)
    requires TreeOk(tree) && p < |tree| && p !in dead && (forall x :: x in dead ==> x < |tree|)
    requires Closed(tree, dead) && Pending(tree, detached, dead)
    ensures Closed(tree + [Node(p, det)], dead)
    ensures Pending(tree + [Node(p, det)], detached + (if det then {|tree|} else {}), dead)
  {
    var tree' := tree + [Node(p, det)];
    assert forall c: nat :: c < |tree| ==> tree'[c] == tree[c];
  }

  lemma ForkRegisters(tree: seq<Node>, s: seq<Span>, t: seq<Span>, dead: set<nat>, p: nat, det: bool)
    requires |s| == |tree| && p < |tree| && Registered(tree, s, dead) && (forall x :: x in dead ==> x < |tree|)
    requires |t| == |s| + 1 && t[|s|] == Span(true, 0, 0, {})
    requires forall x: nat :: x < |s| ==> t[x] == if x == p && !det then s[x].(deps := s[x].deps + {|s|}) else s[x]
    requires TreeOk(tree)
    ensures Registered(tree + [Node(p, det)], t, dead)
  {
    var tree' := tree + [Node(p, det)];
    forall x: nat, c: nat | x < |t|
      ensures c in t[x].deps <==> LiveChild(tree', dead, x, c)
    {
      assert c < |tree| ==> tree'[c] == tree[c];
      if c < |tree| {
        assert LiveChild(tree', dead, x, c) <==> LiveChild(tree, dead, x, c);
      }
    }
  }

  lemma {:induction false} TracksDone(tree: seq<Node>, s: seq<Span>, t: seq<Span>, detached: set<nat>, detached': set<nat>, waiting: bool, waiting': bool,
                                      calls: seq<BaseCall>, more: seq<BaseCall>, dead: set<nat>, l: nat)
    requires TreeOk(tree) && DepsOk(tree, s) && DepsOk(tree, t) && l < |tree| && l !in dead
    requires Tracks(tree, s, detached, waiting, calls, dead)
    requires Tally(tree, s, l, true, calls, more)
    requires t == if Top(tree, l) then Finished(tree, s, l, true) else Unregister(tree, Finished(tree, s, l, true), l)
    requires detached' == detached - {l}
    requires var flush := Top(tree, l) && (if l == 0 then detached == {} else waiting && detached <= {l});
             && waiting' == ((l == 0 || waiting) && !flush)
             && Flushes(more) == Flushes(calls) + (if flush then 1 else 0)
             && (flush ==> more != [] && more[|more| - 1] == BaseFlush)
    ensures Tracks(tree, t, detached', waiting', more, dead + SubSet(tree, l))
  {
    hide Finals, Interims, Flushes, Chatter, Registered, Finished;
    LiveNoFlush(tree, s, detached, waiting, calls, dead, l);
    var dead' := dead + SubSet(tree, l);
    forall x: nat
      ensures Reach(tree, s, l, x) <==> x in dead' && x !in dead
    {
      LiveReach(tree, s, detached, waiting, calls, dead, l, x);
    }
    DoneRegisters(tree, s, t, dead, dead', l);
    assert Closed(tree, dead') by {
      assert forall c: nat :: c < |tree| && !Top(tree, c) && InSub(tree, l, tree[c].parent) ==> InSub(tree, l, c);
    }
    assert !Top(tree, l) ==> 0 !in SubSet(tree, l);
    assert forall x: nat :: x < |s| && tree[x].detached && InSub(tree, l, x) ==> x == l;
    assert Pending(tree, detached', dead');
  }

  lemma DoneRegisters(tree: seq<Node>, s: seq<Span>, t: seq<Span>, dead: set<nat>, dead': set<nat>, l: nat)
    requires TreeOk(tree) && DepsOk(tree, s) && l < |tree|
    requires Registered(tree, s, dead) && Marked(s, dead) && l !in dead && dead' == dead + SubSet(tree, l)
    requires forall x: nat :: Reach(tree, s, l, x) <==> x in dead' && x !in dead
    requires t == if Top(tree, l) then Finished(tree, s, l, true) else Unregister(tree, Finished(tree, s, l, true), l)
    ensures Registered(tree, t, dead') && Marked(t, dead')
  {
    forall x: nat, c: nat | x < |s|
      ensures c in t[x].deps <==> LiveChild(tree, dead', x, c)
    {
      if LiveChild(tree, dead, x, c) {
        assert InSub(tree, l, c) <==> c == l || (l < c && InSub(tree, l, x));
        assert InSub(tree, l, x) ==> l <= x < c;
      }
    }
  }

  ghost predicate Erred(ops: seq<Op>, l: nat) {
    exists i :: 0 <= i < |ops| && ops[i] == LogError(l)
  }

  ghost predicate AnyErred(ops: seq<Op>) {
    exists i :: 0 <= i < |ops| && ops[i].LogError?
  }

  /** What one more operation makes a well-used request tell besides Done and Flush: a span with its boring mark, a line, and
      with the first error line of a logger, and of the request, that it is not boring. */
  ghost function ChatOf(before: seq<Op>, op: Op): seq<BaseCall> {
    match op
    case Fork(p, _) => [BaseSpan(|TreeOf(before)|, p), BaseBoring(|TreeOf(before)|, true)]
    case Log(l) => [BaseLine(l, Plain)]
    case LogError(l) =>
      Unless(if l == 0 then AnyErred(before) else Erred(before, l), BaseBoring(l, false))
      + Unless(l == 0 || AnyErred(before), BaseBoring(0, false))
      + [BaseLine(l, Error)]
    case MarkBoring(_) => Unless(AnyErred(before), BaseBoring(0, true))
    case Done(_) => []
  }

  ghost function Chat(ops: seq<Op>): seq<BaseCall> {
    if ops == [] then [BaseSpan(0, 0)] else Chat(ops[..|ops| - 1]) + ChatOf(ops[..|ops| - 1], ops[|ops| - 1])
  }

  /** What a request tells its base loggers when it is used well: each logger is told it is finally done once if it was
      done, by itself or by an ancestor, and never otherwise; the one flush comes with the last Done of a top logger; and
      everything else is told as it was called. */
  ghost predicate AsUsed(ops: seq<Op>, calls: seq<BaseCall>) {
    && WellUsed(ops)
    && (forall x: nat :: x < |TreeOf(ops)| ==> Finals(calls, x) == (if DoneBy(ops, x) then 1 else 0) && Interims(calls, x) == 0)
    && Flushes(calls) == (if AllDone(ops) then 1 else 0)
    && (Flushes(calls) == 1 ==> calls != [] && calls[|calls| - 1] == BaseFlush)
    && Chatter(calls) == Chat(ops)
  }

  /** Every well-used run, and the part of it that belongs to the first `i` operations. */
  method Run(ops: seq<Op>) returns (calls: seq<BaseCall>, marks: seq<nat>)
    requires WellUsed(ops)
    ensures forall x: nat :: x < |TreeOf(ops)| ==> Finals(calls, x) == (if DoneBy(ops, x) then 1 else 0) && Interims(calls, x) == 0
    ensures Flushes(calls) == (if AllDone(ops) then 1 else 0)
    ensures Flushes(calls) == 1 ==> calls != [] && calls[|calls| - 1] == BaseFlush
    ensures Chatter(calls) == Chat(ops)
    ensures |marks| == |ops| + 1 && marks[|ops|] == |calls|
    ensures forall i :: 0 <= i <= |ops| ==> marks[i] <= |calls| && AsUsed(ops[..i], calls[..marks[i]])
  {
    hide Tracks, WellUsed, Dead, AsUsed, Chatter, Chat, Mood;
    var request;
    request, marks := Execute(ops);
    calls := request.calls;
    assert Stamped(ops, |ops|, calls, marks);
    assert ops[..|ops|] == ops && calls[..marks[|ops|]] == calls;
    AsUsedAll(ops, calls);
  }

  lemma AsUsedAll(ops: seq<Op>, calls: seq<BaseCall>)
    requires AsUsed(ops, calls) && WellUsed(ops)
    ensures forall x: nat :: x < |TreeOf(ops)| ==> Finals(calls, x) == (if DoneBy(ops, x) then 1 else 0) && Interims(calls, x) == 0
    ensures Flushes(calls) == (if AllDone(ops) then 1 else 0)
    ensures Flushes(calls) == 1 ==> calls != [] && calls[|calls| - 1] == BaseFlush
    ensures Chatter(calls) == Chat(ops)
  {
  }

  lemma TracksAsUsed(ops: seq<Op>, s: seq<Span>, detached: set<nat>, waiting: bool, calls: seq<BaseCall>)
    requires WellUsed(ops) && DepsOk(TreeOf(ops), s) && Tracks(TreeOf(ops), s, detached, waiting, calls, Dead(ops)) && Chatter(calls) == Chat(ops)
    ensures AsUsed(ops, calls)
  {
    hide WellUsed, DoneBy, Chatter, Chat, Finals, Interims;
    forall x: nat | x < |TreeOf(ops)|
      ensures x in Dead(ops) <==> DoneBy(ops, x)
    {
    }
  }

  /** The boring counts of a well-used request: above zero with the first error line. */
  ghost predicate Mood(ops: seq<Op>, s: seq<Span>) {
    forall x: nat :: x < |s| ==> (s[x].boring > 0 <==> if x == 0 then AnyErred(ops) else Erred(ops, x))
  }

  /** What one more operation does to the boring counts, and tells, in terms of the spans. */
  ghost predicate Stirs(s: seq<Span>, t: seq<Span>, op: Op) {
    && |s| <= |t| && op.l < |s|
    && forall x: nat :: x < |t| ==> t[x].boring == if x >= |s| then 0 else if op.LogError? then Stirred(s, op.l)[x].boring else s[x].boring
  }

  ghost function Tells(s: seq<Span>, op: Op): seq<BaseCall>
    requires op.l < |s|
  {
    match op
    case Fork(p, _) => [BaseSpan(|s|, p), BaseBoring(|s|, true)]
    case Log(l) => [BaseLine(l, Plain)]
    case LogError(l) => Alarm(s, l) + [BaseLine(l, Error)]
    case MarkBoring(_) => Unless(s[0].boring != 0, BaseBoring(0, true))
    case Done(_) => []
  }

  lemma {:induction false} ErredStep(ops: seq<Op>, op: Op, l: nat)
    ensures Erred(ops + [op], l) <==> Erred(ops, l) || op == LogError(l)
    ensures AnyErred(ops + [op]) <==> AnyErred(ops) || op.LogError?
  {
    var more := ops + [op];
    assert more[|ops|] == op;
    assert forall i :: 0 <= i < |ops| ==> more[i] == ops[i];
  }

  lemma {:induction false} MoodStep(ops: seq<Op>, op: Op, s: seq<Span>, t: seq<Span>)
    requires WellUsed(ops) && Mood(ops, s) && |s| == |TreeOf(ops)| && Stirs(s, t, op)
    ensures Tells(s, op) == ChatOf(ops, op)
    ensures Chat(ops + [op]) == Chat(ops) + ChatOf(ops, op)
    ensures (forall i :: 0 <= i < |ops| ==> ops[i].l < |s|) ==> Mood(ops + [op], t)
  {
    hide WellUsed, TreeOf;
    assert (ops + [op])[..|ops|] == ops;
    ErredStep(ops, op, 0);
    if forall i :: 0 <= i < |ops| ==> ops[i].l < |s| {
      forall x: nat | x < |t|
        ensures t[x].boring > 0 <==> if x == 0 then AnyErred(ops + [op]) else Erred(ops + [op], x)
      {
        ErredStep(ops, op, x);
        assert x >= |s| ==> !Erred(ops, x);
      }
    }
  }

  ghost function Dead(ops: seq<Op>): set<nat>
    requires TreeOk(TreeOf(ops))
  {
    set x: nat | x < |TreeOf(ops)| && DoneBy(ops, x)
  }

  lemma {:induction false} DeadStep(ops: seq<Op>, op: Op)
    requires WellUsed(ops) && WellUsed(ops + [op])
    ensures op.l < |TreeOf(ops)| && op.l !in Dead(ops) && forall x :: x in Dead(ops) ==> x < |TreeOf(ops)|
    ensures TreeOf(ops + [op]) == if op.Fork? then TreeOf(ops) + [Node(op.l, op.detached)] else TreeOf(ops)
    ensures Dead(ops + [op]) == if op.Done? then Dead(ops) + SubSet(TreeOf(ops), op.l) else Dead(ops)
  {
    var more := ops + [op];
    assert more[..|more| - 1] == ops;
    forall x: nat | x < |TreeOf(more)|
      ensures x in Dead(more) <==> x in Dead(ops) || (op.Done? && InSub(TreeOf(ops), op.l, x))
    {
      DoneByStep(ops, op, x);
    }
  }

  lemma {:induction false} WellUsedPrefix(ops: seq<Op>, i: nat)
    requires WellUsed(ops) && i <= |ops|
    ensures WellUsed(ops[..i])
  {
    if i < |ops| {
      WellUsedPrefix(ops[..|ops| - 1], i);
      assert ops[..|ops| - 1][..i] == ops[..i];
    } else {
      assert ops[..i] == ops;
    }
  }

  /** The marks say which part of the calls belongs to each prefix of the run so far. */
  ghost predicate Stamped(ops: seq<Op>, i: nat, calls: seq<BaseCall>, marks: seq<nat>) {
    && i <= |ops| && |marks| == i + 1 && marks[i] == |calls|
    && forall j :: 0 <= j <= i ==> marks[j] <= |calls| && AsUsed(ops[..j], calls[..marks[j]])
  }

  lemma StampedStart(ops: seq<Op>, calls: seq<BaseCall>)
    requires AsUsed([], calls)
    ensures Stamped(ops, 0, calls, [|calls|])
  {
    hide AsUsed;
    assert ops[..0] == [] && calls[..|calls|] == calls;
  }

  lemma StampedStep(ops: seq<Op>, i: nat, calls: seq<BaseCall>, more: seq<BaseCall>, marks: seq<nat>)
    requires Stamped(ops, i, calls, marks) && i < |ops| && calls <= more && AsUsed(ops[..i + 1], more)
    ensures Stamped(ops, i + 1, more, marks + [|more|])
  {
    hide AsUsed;
    assert more[..|more|] == more;
    forall j | 0 <= j <= i
      ensures more[..marks[j]] == calls[..marks[j]]
    {
    }
  }

  method Execute(ops: seq<Op>) returns (request: Request, marks: seq<nat>)
    requires WellUsed(ops)
    ensures fresh(request) && request.Valid() && request.tree == TreeOf(ops)
    ensures Tracks(request.tree, request.spans, request.activeDetached, request.waitingForDetached, request.calls, Dead(ops))
    ensures Chatter(request.calls) == Chat(ops)
    ensures Stamped(ops, |ops|, request.calls, marks)
  {
    hide Tracks, WellUsed, Dead, Chatter, Chat, ChatOf, Mood, AsUsed, Stirs, Tells, Stamped;
    request := new Request(|ops| + 1);
    FreshTracks();
    TracksAsUsed([], request.spans, {}, false, request.calls);
    marks := [|request.calls|];
    StampedStart(ops, request.calls);
    var i := 0;
    while i < |ops|
      invariant 0 <= i <= |ops| && fresh(request) && request.Valid()
      invariant WellUsed(ops[..i]) && request.tree == TreeOf(ops[..i])
      invariant Tracks(request.tree, request.spans, request.activeDetached, request.waitingForDetached, request.calls, Dead(ops[..i]))
      invariant Chatter(request.calls) == Chat(ops[..i]) && Mood(ops[..i], request.spans)
      invariant Stamped(ops, i, request.calls, marks)
    {
      WellUsedPrefix(ops, i + 1);
      assert ops[..i + 1] == ops[..i] + [ops[i]];
      DeadStep(ops[..i], ops[i]);
      ghost var s, calls := request.spans, request.calls;
      Perform(request, ops[i], Dead(ops[..i]));
      MoodKept(ops[..i], ops[i], s, request.spans);
      TracksAsUsed(ops[..i + 1], request.spans, request.activeDetached, request.waitingForDetached, request.calls);
      StampedStep(ops, i, calls, request.calls, marks);
      marks := marks + [|request.calls|];
      i := i + 1;
    }
    assert ops[..i] == ops;
  }

  lemma {:induction false} MoodKept(ops: seq<Op>, op: Op, s: seq<Span>, t: seq<Span>)
    requires WellUsed(ops) && Mood(ops, s) && |s| == |TreeOf(ops)| && Stirs(s, t, op)
    ensures Chat(ops + [op]) == Chat(ops) + Tells(s, op) && Mood(ops + [op], t)
  {
    hide WellUsed, Mood, Stirs, Chat, ChatOf, Tells;
    forall i | 0 <= i < |ops|
      ensures ops[i].l < |s|
    {
      TargetExists(ops, i);
    }
    MoodStep(ops, op, s, t);
  }

  lemma FreshTracks()
    ensures WellUsed([]) && Dead([]) == {}
    ensures Tracks([Node(0, false)], [Span(true, 0, 0, {})], {}, false, [BaseSpan(0, 0)], {})
    ensures Chatter([BaseSpan(0, 0)]) == Chat([]) && Mood([], [Span(true, 0, 0, {})])
  {
    Chatted([], BaseSpan(0, 0));
    Told([], BaseSpan(0, 0));
    assert [] + [BaseSpan(0, 0)] == [BaseSpan(0, 0)];
  }

  method Perform(request: Request, op: Op, ghost dead: set<nat>)
    requires request.Valid() && op.l < |request.tree| && op.l !in dead && forall x :: x in dead ==> x < |request.tree|
    requires Tracks(request.tree, request.spans, request.activeDetached, request.waitingForDetached, request.calls, dead)
    modifies request
    ensures request.Valid()
    ensures request.tree == if op.Fork? then old(request.tree) + [Node(op.l, op.detached)] else old(request.tree)
    ensures Tracks(request.tree, request.spans, request.activeDetached, request.waitingForDetached, request.calls,
                   if op.Done? then dead + SubSet(request.tree, op.l) else dead)
    ensures old(request.calls) <= request.calls
    ensures Chatter(request.calls) == Chatter(old(request.calls)) + Tells(old(request.spans), op)
    ensures Stirs(old(request.spans), request.spans, op)
  {
    hide Chatter, Speech, Count, Fair, Alarm, Stirred;
    hide Tracks, Heard, Marked, Registered, Closed, Pending, SubSet, Finished, Tally, Frame, Side, DoneEffect, LifecycleRoots.DoneKeeps, LifecycleRoots.ActivityKeeps, Visited, VisitedAll;
    ghost var tree, s, detached, waiting, calls := request.tree, request.spans, request.activeDetached, request.waitingForDetached, request.calls;
    LiveState(tree, s, detached, waiting, calls, dead, op.l);
    match op {
      case Fork(p, det) =>
        var _ := request.NewChild(p, det);
        TracksFork(tree, s, request.tree, request.spans, detached, waiting, calls, request.calls, dead, p, det);
      case Done(l) =>
        request.Done(l);
        TracksDone(tree, s, request.spans, detached, request.activeDetached, waiting, request.waitingForDetached, calls, request.calls, dead, l);
        DoneChat(tree, s, request.spans, l, calls, request.calls);
      case Log(l) => request.Msg(l);
      case LogError(l) => request.ErrorMsg(l, Error);
      case MarkBoring(l) => request.Boring(l);
    }
    if !op.Fork? && !op.Done? {
      TellsChatter(s, op);
      ChatterAll(calls, Tells(s, op));
      assert op.LogError? ==> calls + Alarm(s, op.l) + [BaseLine(op.l, Error)] == calls + Tells(s, op);
      TracksMutter(tree, s, request.spans, detached, waiting, calls, request.calls, dead, op.l);
    }
  }

  lemma {:induction false} ChatterAll(c: seq<BaseCall>, d: seq<BaseCall>)
    requires forall i :: 0 <= i < |d| ==> !d[i].BaseDone? && !d[i].BaseFlush?
    ensures Chatter(c + d) == Chatter(c) + d
  {
    hide Chatter;
    if d == [] {
      assert c + d == c;
    } else {
      ChatterAll(c, d[..|d| - 1]);
      assert c + d == c + d[..|d| - 1] + [d[|d| - 1]];
      Chatted(c + d[..|d| - 1], d[|d| - 1]);
    }
  }

  lemma TellsChatter(s: seq<Span>, op: Op)
    requires op.l < |s|
    ensures forall i :: 0 <= i < |Tells(s, op)| ==> !Tells(s, op)[i].BaseDone? && !Tells(s, op)[i].BaseFlush?
  {
  }

  lemma DoneChat(tree: seq<Node>, s: seq<Span>, t: seq<Span>, l: nat, calls: seq<BaseCall>, more: seq<BaseCall>)
    requires TreeOk(tree) && DepsOk(tree, s) && l < |tree| && Tally(tree, s, l, true, calls, more)
    requires t == if Top(tree, l) then Finished(tree, s, l, true) else Unregister(tree, Finished(tree, s, l, true), l)
    ensures Chatter(more) == Chatter(calls) && Stirs(s, t, Done(l))
  {
  }

  /** A live logger is active, and its Done will go through without complaint. */
  lemma LiveState(tree: seq<Node>, s: seq<Span>, detached: set<nat>, waiting: bool, calls: seq<BaseCall>, dead: set<nat>, l: nat)
    requires TreeOk(tree) && DepsOk(tree, s) && Tracks(tree, s, detached, waiting, calls, dead) && l < |tree| && l !in dead
    ensures s[l].active && s[l].doneCount == 0 && Ready(tree, s, l)
    ensures waiting ==> l != 0 && Quiet(s)
    ensures l == 0 || tree[l].detached || !(l in detached)
  {
    LiveReady(tree, s, detached, waiting, calls, dead, l);
  }

  /** A flush at the end of a well-used run: every logger below the top that was not done is told it is finally done,
      the top loggers that are not done are told they are done for now, and nothing stays active. */
  method RunThenFlush(ops: seq<Op>) returns (calls: seq<BaseCall>, active: seq<bool>)
    requires WellUsed(ops)
    ensures |active| == |TreeOf(ops)| && forall x: nat :: x < |active| ==> !active[x]
    ensures Chatter(calls) == Chat(ops)
    ensures forall x: nat :: x < |TreeOf(ops)| ==>
              && Finals(calls, x) == (if DoneBy(ops, x) || !Top(TreeOf(ops), x) then 1 else 0)
              && Interims(calls, x) == (if !DoneBy(ops, x) && Top(TreeOf(ops), x) then 1 else 0)
    ensures Flushes(calls) == (if AllDone(ops) then 2 else 1) && calls[|calls| - 1] == BaseFlush
  {
    var request, _ := Execute(ops);
    FlushLive(request, Dead(ops));
    calls := request.calls;
    active := seq(|request.spans|, x requires 0 <= x < |request.spans| reads request => request.spans[x].active);
    assert forall x: nat :: x < |TreeOf(ops)| ==> (x in Dead(ops) <==> DoneBy(ops, x));
  }

  /** Flush of a request whose done loggers are exactly `dead`. */
  method FlushLive(request: Request, ghost dead: set<nat>)
    requires request.Valid()
    requires Tracks(request.tree, request.spans, request.activeDetached, request.waitingForDetached, request.calls, dead)
    modifies request
    ensures request.Valid() && request.tree == old(request.tree)
    ensures forall x: nat :: x < |request.tree| ==>
              && !request.spans[x].active
              && Finals(request.calls, x) == (if x in dead || !Top(request.tree, x) then 1 else 0)
              && Interims(request.calls, x) == (if x !in dead && Top(request.tree, x) then 1 else 0)
    ensures Flushes(request.calls) == Flushes(old(request.calls)) + 1 && Chatter(request.calls) == Chatter(old(request.calls))
    ensures request.calls[|request.calls| - 1] == BaseFlush
  {
    hide Tracks, Marked, Registered, Closed, Pending, Heard, AllClean, FlushRoots, FlushTally, ToldAll;
    ghost var tree, s, detached, waiting, calls := request.tree, request.spans, request.activeDetached, request.waitingForDetached, request.calls;
    LiveClean(tree, s, detached, waiting, calls, dead, detached + {0});
    request.Flush();
    LiveFlushed(tree, s, request.spans, detached, waiting, calls, request.calls, dead);
  }

  lemma LiveClean(tree: seq<Node>, s: seq<Span>, detached: set<nat>, waiting: bool, calls: seq<BaseCall>, dead: set<nat>, roots: set<nat>)
    requires TreeOk(tree) && DepsOk(tree, s) && Tracks(tree, s, detached, waiting, calls, dead)
    ensures AllClean(tree, s, roots)
  {
    forall a: nat, d: nat | a < |tree| && d in s[a].deps
      ensures Ready(tree, s, d)
    {
      LiveReady(tree, s, detached, waiting, calls, dead, d);
    }
  }

  lemma LiveFlushed(tree: seq<Node>, s: seq<Span>, t: seq<Span>, detached: set<nat>, waiting: bool, calls: seq<BaseCall>, more: seq<BaseCall>, dead: set<nat>)
    requires TreeOk(tree) && DepsOk(tree, s) && Tracks(tree, s, detached, waiting, calls, dead)
    requires ExactFlush(tree, s, t, detached + {0}, calls, more)
    ensures Chatter(more) == Chatter(calls)
    ensures forall x: nat :: x < |tree| ==>
              && !t[x].active
              && Finals(more, x) == (if x in dead || !Top(tree, x) then 1 else 0)
              && Interims(more, x) == (if x !in dead && Top(tree, x) then 1 else 0)
  {
    forall x: nat | x < |tree|
      ensures x !in dead ==> Listed(tree, s, detached + {0}, x)
      ensures x in dead && !Top(tree, x) ==> !Listed(tree, s, detached + {0}, x)
    {
      var r := TopOf(tree, x);
      if x !in dead {
        LiveNoFlush(tree, s, detached, waiting, calls, dead, x);
        LiveReach(tree, s, detached, waiting, calls, dead, r, x);
      }
    }
  }

  /** After a flush any use of a logger that was not done makes it finally done. */
  method UseAfterFlush(ops: seq<Op>, l: nat) returns (before: seq<BaseCall>, after: seq<BaseCall>)
    requires WellUsed(ops) && l < |TreeOf(ops)| && Top(TreeOf(ops), l) && !DoneBy(ops, l)
    ensures before <= after && Finals(before, l) == 0 && Finals(after, l) > 0
  {
    var request, _ := Execute(ops);
    assert l !in Dead(ops);
    FlushLive(request, Dead(ops));
    before := request.calls;
    request.Msg(l);
    after := request.calls;
  }

  datatype AnyOp = Use(op: Op) | Flush

  /** Only the existence of the loggers: they may be used, forked from and done in any order and any number of times. */
  ghost predicate Exist(ops: seq<AnyOp>, size: nat) {
    ops == [] ||
    match ops[0]
    case Flush => Exist(ops[1..], size)
    case Use(op) => op.l < size && Exist(ops[1..], if op.Fork? then size + 1 else size)
  }

  function DoneCalls(ops: seq<AnyOp>, l: nat): nat {
    if ops == [] then 0 else (if ops[0] == Use(Done(l)) then 1 else 0) + DoneCalls(ops[1..], l)
  }

  function FlushCalls(ops: seq<AnyOp>): nat {
    if ops == [] then 0 else (if ops[0].Flush? then 1 else 0) + FlushCalls(ops[1..])
  }

  /** A flush of any state in which every active logger is registered up to the request or an active detached logger.
      Every active logger is told before the flush.  Nothing stays active, in whatever order dependents are visited,
      if and only if no logger is stale: for a stale logger the order that visits it last leaves its parent active. */
  method FlushFrom(tree: seq<Node>, s: seq<Span>, detached: set<nat>, waiting: bool, late: nat) returns (t: seq<Span>, calls: seq<BaseCall>)
    requires TreeOk(tree) && DepsOk(tree, s)
    requires forall x :: x in detached ==> x < |tree| && tree[x].detached
    requires forall x: nat :: x < |tree| && s[x].active ==> Listed(tree, s, detached + {0}, x)
    ensures |t| == |tree| && calls != [] && calls[|calls| - 1] == BaseFlush && Flushes(calls) == 1
    ensures forall x: nat :: x < |tree| && s[x].active ==> if Top(tree, x) then Interims(calls, x) > 0 else Finals(calls, x) > 0
    ensures (forall d: nat :: !Stale(tree, s, detached + {0}, d)) ==> forall x: nat :: x < |tree| ==> !t[x].active
    ensures Stale(tree, s, detached + {0}, late) ==> t[tree[late].parent].active
  {
    hide Fair, Speech, Chatter, AllClean, FlushTally, Grew;
    var request := new Request.At(tree, s, detached, waiting, late);
    if forall d: nat :: !Stale(tree, s, detached + {0}, d) {
      NotStaleClean(tree, s, detached + {0});
    }
    request.Flush();
    t, calls := request.spans, request.calls;
  }

  const CHAIN := [Node(0, false), Node(0, false), Node(1, false), Node(2, false)]

  lemma ChainTree()
    ensures TreeOk(CHAIN) && forall l: nat, x: nat :: InSub(CHAIN, l, x) <==> l <= x < 4
    ensures [Node(0, false)] + [Node(0, false)] + [Node(1, false)] + [Node(2, false)] == CHAIN
  {
    forall l: nat, x: nat
      ensures InSub(CHAIN, l, x) <==> l <= x < 4
    {
      assert InSub(CHAIN, l, 0) <==> l == 0;
      assert InSub(CHAIN, l, 1) <==> l <= 1;
      assert InSub(CHAIN, l, 2) <==> l <= 2;
    }
  }

  /** In a chain of four whose last two are done, a line of the last one makes the third one stale. */
  lemma ChainStale(s: seq<Span>, t: seq<Span>, detached: set<nat>, waiting: bool, calls: seq<BaseCall>)
    requires TreeOk(CHAIN) && DepsOk(CHAIN, s) && DepsOk(CHAIN, t)
    requires Tracks(CHAIN, s, detached, waiting, calls, {2, 3})
    requires Frame(CHAIN, s, t, 3) && Side(CHAIN, s, t, 3)
    requires s[2].deps <= {3} ==> t[2].active
    ensures !s[3].active && forall roots: set<nat> :: 0 in roots ==> Stale(CHAIN, t, roots, 2)
  {
    ChainTree();
    assert UpAt(CHAIN, s, t, 3, 2);
    assert LiveChild(CHAIN, {2, 3}, 0, 1);
    assert 1 in s[0].deps && 1 in t[0].deps && 2 in t[1].deps;
    assert TopOf(CHAIN, 0) == 0 && TopOf(CHAIN, 1) == 0 && Reach(CHAIN, t, 0, 1);
  }

  /** The request, a child, a grandchild and a great-grandchild; the last two are done. */
  method DoneChain() returns (request: Request)
    ensures fresh(request) && request.Valid() && request.late == 2 && request.tree == CHAIN
    ensures Tracks(CHAIN, request.spans, request.activeDetached, request.waitingForDetached, request.calls, {2, 3})
  {
    hide Tracks, InSub, Chatter, Stirs, Tells, Chat, Mood;
    FreshTracks();
    ChainTree();
    request := new Request(2);
    Perform(request, Fork(0, false), {});
    Perform(request, Fork(1, false), {});
    Perform(request, Fork(2, false), {});
    assert request.tree == CHAIN;
    assert {} + SubSet(CHAIN, 3) == {3} && {3} + SubSet(CHAIN, 2) == {2, 3};
    Perform(request, Done(3), {});
    Perform(request, Done(2), {3});
  }

  /** Stale loggers do occur: a grandchild that logs after both it and its parent were done makes its parent stale,
      and then a flush leaves the grandparent active although it was just told that it is finally done. */
  method ActiveAfterFlush() returns (calls: seq<BaseCall>, active: bool)
    ensures calls != [] && calls[|calls| - 1] == BaseFlush && Finals(calls, 1) > 0 && active
  {
    hide Tracks, Frame, Side, Stale, ToldAll, Grew, Finals, Upward, StillBelow, AllClean, ExactFlush, Fair, Speech, Count;
    var request := DoneChain();
    ghost var s, detached, waiting, told := request.spans, request.activeDetached, request.waitingForDetached, request.calls;
    ChainLast(s, detached, waiting, told);
    request.Msg(3);
    ChainStale(s, request.spans, detached, waiting, told);
    ghost var t, roots, before := request.spans, request.activeDetached + {0}, request.calls;
    request.Flush();
    ChainTold(t, roots, before, request.calls);
    calls, active := request.calls, request.spans[1].active;
  }

  lemma ChainLast(s: seq<Span>, detached: set<nat>, waiting: bool, calls: seq<BaseCall>)
    requires TreeOk(CHAIN) && DepsOk(CHAIN, s) && Tracks(CHAIN, s, detached, waiting, calls, {2, 3})
    ensures !s[3].active
  {
  }

  lemma ChainTold(t: seq<Span>, roots: set<nat>, before: seq<BaseCall>, after: seq<BaseCall>)
    requires TreeOk(CHAIN) && DepsOk(CHAIN, t) && 0 in roots && Stale(CHAIN, t, roots, 2)
    requires ToldAll(CHAIN, t, roots, before, after)
    ensures Finals(after, 1) > 0
  {
  }
}
