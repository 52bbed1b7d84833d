/** Which calls keep every active logger registered, in any state, also after loggers were done. */
module RootedRuns {
  import opened SpanTree
  import opened LifecycleSteps
  import opened LifecycleStale
  import opened LifecycleRoots
  import opened LifecycleTold
  import opened Lifecycle
  import opened LifecycleRuns

  /** Done of `l` comes upon `d`, which was done already: it is registered below `l`, and not directly with the request
      when the request itself is done. */
  predicate Blocks(tree: seq<Node>, s: seq<Span>, l: nat, d: nat)
    requires TreeOk(tree) && DepsOk(tree, s)
  {
    StaleUnder(tree, s, l, d, l != 0)
  }

  /** What a caller can check before a call: children need an active parent unless they are detached, Done meets no logger
      that was done already (the request may have such direct dependents), and neither does Flush below a top logger. */
  predicate Guard(tree: seq<Node>, s: seq<Span>, detached: set<nat>, op: AnyOp)
    requires TreeOk(tree) && DepsOk(tree, s) && (op.Use? ==> op.op.l < |tree|)
  {
    match op
    case Flush => forall d: nat :: d < |tree| ==> !Stale(tree, s, detached + {0}, d)
    case Use(Fork(p, det)) => det || s[p].active
    case Use(Done(l)) => forall d: nat :: d < |tree| ==> !Blocks(tree, s, l, d)
    case _ => true
  }

  /** The call comes upon the logger `late`, which was done already. */
  predicate Meets(tree: seq<Node>, s: seq<Span>, detached: set<nat>, op: AnyOp, late: nat)
    requires TreeOk(tree) && DepsOk(tree, s) && (op.Use? ==> op.op.l < |tree|)
  {
    match op
    case Flush => Stale(tree, s, detached + {0}, late)
    case Use(Fork(p, det)) => !det && !s[p].active
    case Use(Done(l)) => Blocks(tree, s, l, late)
    case _ => false
  }

  lemma GuardOrMeets(tree: seq<Node>, s: seq<Span>, detached: set<nat>, op: AnyOp)
    requires TreeOk(tree) && DepsOk(tree, s) && (op.Use? ==> op.op.l < |tree|)
    ensures Guard(tree, s, detached, op) <==> forall late: nat :: !Meets(tree, s, detached, op, late)
  {
    if !Guard(tree, s, detached, op) {
      if op.Flush? {
        var d: nat :| d < |tree| && Stale(tree, s, detached + {0}, d);
        assert Meets(tree, s, detached, op, d);
      } else if op.op.Fork? {
        assert Meets(tree, s, detached, op, 0);
      } else {
        var d: nat :| d < |tree| && Blocks(tree, s, op.op.l, d);
        assert Meets(tree, s, detached, op, d);
      }
    } else {
      forall late: nat
        ensures !Meets(tree, s, detached, op, late)
      {
        if late < |tree| && op.Use? && op.op.Done? {
          assert !Blocks(tree, s, op.op.l, late);
        }
      }
    }
  }

  /** Without stale loggers nobody below `l` was done. */
  lemma {:induction false} ReadyBelow(tree: seq<Node>, s: seq<Span>, l: nat, e: nat, final: bool)
    requires TreeOk(tree) && DepsOk(tree, s) && Reach(tree, s, l, e) && (e != l || final)
    requires forall d: nat :: !StaleUnder(tree, s, l, d, final)
    ensures Ready(tree, s, e)
    decreases |tree| - e
  {
    forall d: nat | d in s[e].deps
      ensures s[d].doneCount == 0 && Ready(tree, s, d)
    {
      assert !StaleUnder(tree, s, l, d, final);
      ReachLess(tree, s, l, e);
      ReadyBelow(tree, s, l, d, final);
    }
  }

  lemma ReachLess(tree: seq<Node>, s: seq<Span>, l: nat, e: nat)
    requires TreeOk(tree) && DepsOk(tree, s) && Reach(tree, s, l, e)
    ensures l <= e
  {
  }

  lemma CleanBelow(tree: seq<Node>, s: seq<Span>, l: nat, final: bool)
    requires TreeOk(tree) && DepsOk(tree, s) && l < |tree|
    requires forall d: nat :: !StaleUnder(tree, s, l, d, final)
    ensures Clean(tree, s, l, final)
  {
    assert Reach(tree, s, l, l);
    forall d: nat | d in s[l].deps
      ensures (final ==> s[d].doneCount == 0) && Ready(tree, s, d)
    {
      assert !StaleUnder(tree, s, l, d, final);
      ReadyBelow(tree, s, l, d, final);
    }
  }

  /** done on a registered logger keeps every active logger registered when it comes upon nobody who was done.  A logger
      that was done itself complains, and activates what is above it. */
  lemma DoneEnlisted(tree: seq<Node>, s: seq<Span>, t: seq<Span>, l: nat, late: nat, d0: set<nat>, d1: set<nat>, before: seq<BaseCall>, after: seq<BaseCall>)
    requires TreeOk(tree) && DepsOk(tree, s) && DepsOk(tree, t) && l < |tree| && !Top(tree, l) && Enlisted(tree, s, d0) && d0 <= d1
    requires DoneEffect(tree, s, t, l, true, late, before, after) && DoneKeeps(tree, s, t, l, late, d0, d1)
    requires Ready(tree, s, l) && !Strands(tree, s, d0, l)
    ensures Enlisted(tree, t, d1)
  {
    hide Enlisted, Upward, Known, VisitedAll, Ready, Strands, Climbs;
    EnlistedStep(tree, s, t, l, d0, d1);
  }

  lemma FinishedEnlisted(tree: seq<Node>, s: seq<Span>, t: seq<Span>, l: nat, d0: set<nat>, d1: set<nat>)
    requires TreeOk(tree) && DepsOk(tree, s) && DepsOk(tree, t) && l < |tree| && !Top(tree, l) && Enlisted(tree, s, d0) && d0 <= d1
    requires t == Unregister(tree, Finished(tree, s, l, true), l)
    ensures Enlisted(tree, t, d1)
  {
    hide Finished;
    FinishedSpares(tree, s, t, l);
    forall x: nat | x < |tree| && t[x].active
      ensures Listed(tree, t, d1 + {0}, x)
    {
      assert Listed(tree, s, d0 + {0}, x);
      var r := TopOf(tree, x);
      if InSub(tree, l, x) {
        Comparable(tree, r, l, x);
        ReachThrough(tree, s, r, l, x);
      } else {
        ReachOutside(tree, s, t, l, r, x);
      }
    }
  }

  lemma FinishedSpares(tree: seq<Node>, s: seq<Span>, t: seq<Span>, l: nat)
    requires TreeOk(tree) && DepsOk(tree, s) && l < |tree| && !Top(tree, l)
    requires t == Unregister(tree, Finished(tree, s, l, true), l)
    ensures forall x: nat :: x < |tree| && t[x].active ==> s[x].active && !Reach(tree, s, l, x)
    ensures forall x: nat :: x < |tree| && !InSub(tree, l, x) ==> s[x].deps - {l} <= t[x].deps
  {
    forall x: nat | x < |tree| && Reach(tree, s, l, x)
      ensures InSub(tree, l, x)
    {
      ReachInSub(tree, s, l, x);
    }
  }

  /** Otherwise the parent of the logger met last stays active although it is cut off. */
  lemma DoneUproots(tree: seq<Node>, s: seq<Span>, t: seq<Span>, l: nat, late: nat, d0: set<nat>, d1: set<nat>, before: seq<BaseCall>, after: seq<BaseCall>)
    requires TreeOk(tree) && DepsOk(tree, s) && DepsOk(tree, t) && l < |tree| && DoneKeeps(tree, s, t, l, late, d0, d1)
    requires !Top(tree, l) ==> DoneEffect(tree, s, t, l, true, late, before, after)
    requires StaleUnder(tree, s, l, late, l != 0)
    ensures t[tree[late].parent].active && !Enlisted(tree, t, d1)
  {
    hide Upward, Known, VisitedAll, Frame, Side, Quiets, KeepsTied, Listed, StillBelow, Clean;
    var p := tree[late].parent;
    ReachInSub(tree, s, l, p);
    assert StaleUnder(tree, s, l, late, true);
    if !Top(tree, l) {
      CutOff(tree, t, l, p, d1 + {0});
    } else if p != l {
      CutBelow(tree, t, l, p, d1 + {0});
    } else {
      NotListed(tree, t, l, d1);
    }
  }

  lemma NotListed(tree: seq<Node>, t: seq<Span>, l: nat, detached: set<nat>)
    requires TreeOk(tree) && DepsOk(tree, t) && 0 < l < |tree| && Top(tree, l) && l !in detached
    ensures !Listed(tree, t, detached + {0}, l)
  {
  }

  /** The activity of any logger keeps every active logger registered. */
  lemma ActivityEnlisted(tree: seq<Node>, s: seq<Span>, t: seq<Span>, l: nat, d0: set<nat>, d1: set<nat>)
    requires TreeOk(tree) && DepsOk(tree, s) && DepsOk(tree, t) && l < |tree| && Enlisted(tree, s, d0)
    requires ActivityKeeps(tree, s, t, l, d0, d1)
    requires s[l].active ==> SameButBoring(s, t) && d0 == d1
    requires !s[l].active ==> Resting(s[l]) && !Strands(tree, s, d0, l)
    requires !Top(tree, l) ==> Frame(tree, s, t, l) && Side(tree, s, t, l) && d0 <= d1
    ensures Enlisted(tree, t, d1)
  {
    if s[l].active {
      EnlistedQuiet(tree, s, t, d0);
    } else if !Top(tree, l) {
      RestHushes(tree, s, t, l);
      assert Spares(tree, s, t, l);
      EnlistedStep(tree, s, t, l, d0, d1);
    }
  }

  lemma RootedIs(tree: seq<Node>, s: seq<Span>, t: seq<Span>, before: set<nat>, after: set<nat>, l: nat)
    requires TreeOk(tree) && DepsOk(tree, s) && DepsOk(tree, t) && l < |tree| && Rooted(tree, s, before)
    ensures Enlisted(tree, s, before) && Tied(s[l]) && !Strands(tree, s, before, l)
    ensures KeepsTied(s, t) && Enlisted(tree, t, after) ==> Rooted(tree, t, after)
  {
    TiedAnchored(tree, s, before, l);
    hide Enlisted, Strands;
  }

  lemma RestHushes(tree: seq<Node>, s: seq<Span>, t: seq<Span>, l: nat)
    requires TreeOk(tree) && DepsOk(tree, s) && |t| == |tree| && l < |tree| && Resting(s[l]) && Rests(tree, s, t, l)
    ensures Hush(tree, s, t, l) && !t[l].active
  {
    forall x: nat | x != l && InSub(tree, l, x)
      ensures !Reach(tree, s, l, x)
    {
      BranchProps(tree, s, l, x);
    }
  }

  /** A flush that meets nobody who was done leaves nothing active and nothing registered. */
  lemma FlushRooted(tree: seq<Node>, s: seq<Span>, t: seq<Span>, detached: set<nat>, before: seq<BaseCall>, after: seq<BaseCall>)
    requires TreeOk(tree) && DepsOk(tree, s) && DepsOk(tree, t) && Rooted(tree, s, detached)
    requires ExactFlush(tree, s, t, detached + {0}, before, after)
    ensures forall x: nat :: x < |t| ==> Resting(t[x])
    ensures Rooted(tree, t, detached)
  {
    forall x: nat | x < |t|
      ensures Resting(t[x])
    {
      assert Tied(s[x]);
      assert s[x].active ==> Listed(tree, s, detached + {0}, x);
    }
  }

  lemma FlushUproots(tree: seq<Node>, s: seq<Span>, t: seq<Span>, roots: set<nat>, late: nat, detached: set<nat>)
    requires TreeOk(tree) && DepsOk(tree, s) && DepsOk(tree, t) && Stale(tree, s, roots, late)
    requires t[tree[late].parent].active && Emptied(t, roots)
    ensures !Enlisted(tree, t, detached)
  {
    var p := tree[late].parent;
    CutBelow(tree, t, TopOf(tree, p), p, detached + {0});
  }

  lemma {:induction false} ForkReach(tree: seq<Node>, s: seq<Span>, t: seq<Span>, p: nat, det: bool, r: nat, x: nat)
    requires TreeOk(tree) && DepsOk(tree, s) && p < |tree| && TreeOk(tree + [Node(p, det)]) && DepsOk(tree + [Node(p, det)], t)
    requires forall y: nat :: y < |s| ==> t[y].deps == if y == p && !det then s[y].deps + {|s|} else s[y].deps
    requires x < |tree|
    ensures TopOf(tree + [Node(p, det)], x) == TopOf(tree, x)
    ensures Reach(tree + [Node(p, det)], t, r, x) <==> Reach(tree, s, r, x)
  {
    if x != 0 {
      ForkReach(tree, s, t, p, det, r, tree[x].parent);
    }
  }

  /** A new child keeps every active logger registered exactly when it is detached or its parent is registered, and keeps
      a rooted request rooted exactly when it is detached or its parent is active. */
  lemma ForkRooted(tree: seq<Node>, s: seq<Span>, t: seq<Span>, detached: set<nat>, p: nat, det: bool)
    requires TreeOk(tree) && DepsOk(tree, s) && p < |tree| && TreeOk(tree + [Node(p, det)]) && DepsOk(tree + [Node(p, det)], t)
    requires t[|s|] == Span(true, 0, 0, {})
    requires forall x: nat :: x < |s| ==> t[x] == if x == p && !det then s[x].(deps := s[x].deps + {|s|}) else s[x]
    requires forall x :: x in detached ==> x < |tree|
    ensures var after := detached + (if det then {|tree|} else {});
            && (Enlisted(tree, s, detached) ==> (Enlisted(tree + [Node(p, det)], t, after) <==> det || Listed(tree, s, detached + {0}, p)))
            && (Rooted(tree, s, detached) ==> (Rooted(tree + [Node(p, det)], t, after) <==> det || s[p].active))
  {
    var more, after, n := tree + [Node(p, det)], detached + (if det then {|tree|} else {}), |tree|;
    forall x: nat | x < n
      ensures Listed(more, t, after + {0}, x) <==> Listed(tree, s, detached + {0}, x)
    {
      ForkReach(tree, s, t, p, det, TopOf(tree, x), x);
    }
    assert Listed(more, t, after + {0}, n) <==> det || Listed(tree, s, detached + {0}, p) by {
      ForkReach(tree, s, t, p, det, TopOf(tree, p), p);
    }
    if Enlisted(tree, s, detached) {
      assert forall x: nat :: x < n ==> t[x].active == s[x].active;
      assert t[n].active;
      if Enlisted(more, t, after) {
        assert Listed(more, t, after + {0}, n);
      }
    }
    if Rooted(tree, s, detached) {
      assert s[p].active ==> Listed(tree, s, detached + {0}, p);
      assert forall x: nat :: x < n && x != p ==> (Tied(t[x]) <==> Tied(s[x]));
      assert !det ==> (Tied(t[p]) <==> s[p].active);
    }
  }

  /** One call in a rooted state.  It keeps the request rooted, in whatever order dependents are visited, if and only if its
      guard holds: when it meets a logger that was done, visiting that one last leaves an active logger unregistered. */
  method Call(request: Request, op: AnyOp)
    requires request.Valid() && (op.Use? ==> op.op.l < |request.tree|)
    requires Rooted(request.tree, request.spans, request.activeDetached)
    modifies request
    ensures request.Valid() && Grew(old(request.calls), request.calls)
    ensures request.tree == if op.Use? && op.op.Fork? then old(request.tree) + [Node(op.op.l, op.op.detached)] else old(request.tree)
    ensures old(Guard(request.tree, request.spans, request.activeDetached, op)) ==> Rooted(request.tree, request.spans, request.activeDetached)
    ensures old(Meets(request.tree, request.spans, request.activeDetached, op, request.late)) ==>
              !Rooted(request.tree, request.spans, request.activeDetached)
    ensures op.Use? && op.op.Done? ==> Finals(old(request.calls), op.op.l) < Finals(request.calls, op.op.l)
    ensures op.Flush? ==> Flushes(old(request.calls)) < Flushes(request.calls)
    ensures op.Flush? && old(Guard(request.tree, request.spans, request.activeDetached, op)) ==>
              forall x: nat :: x < |request.tree| ==> Resting(request.spans[x])
  {
    hide Enlisted, Tied, Strands, KeepsTied, Finals, Flushes, Stale, Blocks;
    match op {
      case Flush => FlushCall(request);
      case Use(Fork(p, det)) => ForkCall(request, p, det);
      case Use(Done(l)) =>
        ghost var s, d := request.spans, request.activeDetached;
        RootedIs(request.tree, s, s, d, d, l);
        DoneCall(request, l);
        RootedIs(request.tree, s, request.spans, d, request.activeDetached, l);
      case Use(Log(l)) => ActivityCall(request, op.op);
      case Use(LogError(l)) => ActivityCall(request, op.op);
      case Use(MarkBoring(l)) => ActivityCall(request, op.op);
    }
  }

  method ForkCall(request: Request, p: nat, det: bool)
    requires request.Valid() && p < |request.tree|
    requires Rooted(request.tree, request.spans, request.activeDetached)
    modifies request
    ensures request.Valid() && Grew(old(request.calls), request.calls)
    ensures request.tree == old(request.tree) + [Node(p, det)]
    ensures Rooted(request.tree, request.spans, request.activeDetached) <==> det || old(request.spans[p].active)
  {
    ghost var s, d := request.spans, request.activeDetached;
    ghost var tree := request.tree;
    var _ := request.NewChild(p, det);
    ForkRooted(tree, s, request.spans, d, p, det);
  }

  method ActivityCall(request: Request, op: Op)
    requires request.Valid() && op.l < |request.tree| && !op.Fork? && !op.Done?
    requires Rooted(request.tree, request.spans, request.activeDetached)
    modifies request
    ensures request.Valid() && request.tree == old(request.tree) && Grew(old(request.calls), request.calls)
    ensures Rooted(request.tree, request.spans, request.activeDetached)
  {
    hide Rooted, ActivityKeeps, Frame, Side, Enlisted, Tied, Strands;
    ghost var s, d := request.spans, request.activeDetached;
    RootedIs(request.tree, s, s, d, d, op.l);
    match op {
      case Log(l) => request.Msg(l);
      case LogError(l) => request.ErrorMsg(l, Error);
      case MarkBoring(l) => request.Boring(l);
    }
    ActivityRooted(request.tree, s, request.spans, op.l, d, request.activeDetached);
  }

  lemma ActivityRooted(tree: seq<Node>, s: seq<Span>, t: seq<Span>, l: nat, d0: set<nat>, d1: set<nat>)
    requires TreeOk(tree) && DepsOk(tree, s) && DepsOk(tree, t) && l < |tree| && Rooted(tree, s, d0)
    requires ActivityKeeps(tree, s, t, l, d0, d1)
    requires s[l].active ==> SameButBoring(s, t) && d0 == d1
    requires !Top(tree, l) ==> Frame(tree, s, t, l) && Side(tree, s, t, l) && d0 <= d1
    ensures Rooted(tree, t, d1)
  {
    hide Rooted, Strands, Enlisted, Frame, Side;
    RootedIs(tree, s, t, d0, d1, l);
    ActivityEnlisted(tree, s, t, l, d0, d1);
  }

  /** Done of any logger in any state in which every active logger is registered.  They stay registered, in whatever order
      dependents are visited, if and only if Done comes upon nobody who was done below and `l`, if it was done itself, does
      not complain up to below an inactive logger that is not registered. */
  method DoneCall(request: Request, l: nat)
    requires request.Valid() && l < |request.tree|
    requires Enlisted(request.tree, request.spans, request.activeDetached)
    modifies request
    ensures request.Valid() && request.tree == old(request.tree) && Grew(old(request.calls), request.calls)
    ensures Finals(old(request.calls), l) < Finals(request.calls, l) && KeepsTied(old(request.spans), request.spans)
    ensures (forall d: nat :: d < |request.tree| ==> !old(Blocks(request.tree, request.spans, l, d))) ==>
              (Enlisted(request.tree, request.spans, request.activeDetached) <==>
               old(request.spans[l].doneCount) == 0 || !old(Strands(request.tree, request.spans, request.activeDetached, l)))
    ensures old(Awake(request.spans)) ==> Awake(request.spans) && !old(Strands(request.tree, request.spans, request.activeDetached, l))
    ensures old(Blocks(request.tree, request.spans, l, request.late)) ==>
              request.spans[request.tree[request.late].parent].active && !Enlisted(request.tree, request.spans, request.activeDetached)
  {
    hide Blocks, Enlisted, DoneEffect, DoneKeeps, Clean, Ready, Strands, KeepsTied, Frame, VisitedAll, Awake;
    ghost var tree, s, d0, c0 := request.tree, request.spans, request.activeDetached, request.calls;
    if Awake(s) {
      AwakeAnchored(tree, s, d0, l);
    }
    request.Done(l);
    if Awake(s) {
      DoneTied(tree, s, request.spans, l, request.late, d0, request.activeDetached);
      AwakeKept(s, request.spans);
    }
    DoneBoth(tree, s, request.spans, l, request.late, d0, request.activeDetached, c0, request.calls);
  }

  lemma DoneTied(tree: seq<Node>, s: seq<Span>, t: seq<Span>, l: nat, late: nat, d0: set<nat>, d1: set<nat>)
    requires TreeOk(tree) && DepsOk(tree, s) && DepsOk(tree, t) && l < |tree| && DoneKeeps(tree, s, t, l, late, d0, d1)
    ensures KeepsTied(s, t)
  {
  }

  lemma DoneBoth(tree: seq<Node>, s: seq<Span>, t: seq<Span>, l: nat, late: nat, d0: set<nat>, d1: set<nat>, before: seq<BaseCall>, after: seq<BaseCall>)
    requires TreeOk(tree) && DepsOk(tree, s) && DepsOk(tree, t) && l < |tree| && Enlisted(tree, s, d0)
    requires DoneKeeps(tree, s, t, l, late, d0, d1) && VisitedAll(tree, s, l, before, after)
    requires !Top(tree, l) ==> DoneEffect(tree, s, t, l, true, late, before, after) && DoneExactly(tree, s, t, l, true, before, after) && d0 <= d1
    ensures (forall d: nat :: d < |tree| ==> !Blocks(tree, s, l, d)) ==>
              (Enlisted(tree, t, d1) <==> s[l].doneCount == 0 || !Strands(tree, s, d0, l))
    ensures Blocks(tree, s, l, late) ==> t[tree[late].parent].active && !Enlisted(tree, t, d1)
    ensures Finals(before, l) < Finals(after, l) && KeepsTied(s, t)
  {
    hide Enlisted, DoneEffect, StaleUnder, Strands, Climbs, Listed;
    assert Reach(tree, s, l, l);
    if Blocks(tree, s, l, late) {
      DoneUproots(tree, s, t, l, late, d0, d1, before, after);
    }
    if forall d: nat :: d < |tree| ==> !Blocks(tree, s, l, d) {
      NotBlocked(tree, s, l, l != 0);
      CleanBelow(tree, s, l, l != 0);
      if !Top(tree, l) {
        assert Ready(tree, s, l);
        if s[l].doneCount == 0 {
          FinishedEnlisted(tree, s, t, l, d0, d1);
        } else if !Strands(tree, s, d0, l) {
          DoneEnlisted(tree, s, t, l, late, d0, d1, before, after);
        } else {
          DoneStrands(tree, s, t, l, late, d0, d1, before, after);
        }
      } else {
        assert !Strands(tree, s, d0, l) by { TopAnchored(tree, s, d0, l); }
      }
    }
  }

  lemma TopAnchored(tree: seq<Node>, s: seq<Span>, detached: set<nat>, l: nat)
    requires TreeOk(tree) && DepsOk(tree, s) && l < |tree| && Top(tree, l)
    ensures !Strands(tree, s, detached, l)
  {
  }

  /** A complaint that ends below an inactive logger that is not registered leaves an active one unregistered. */
  lemma DoneStrands(tree: seq<Node>, s: seq<Span>, t: seq<Span>, l: nat, late: nat, d0: set<nat>, d1: set<nat>, before: seq<BaseCall>, after: seq<BaseCall>)
    requires TreeOk(tree) && DepsOk(tree, s) && DepsOk(tree, t) && l < |tree| && !Top(tree, l) && Enlisted(tree, s, d0)
    requires DoneEffect(tree, s, t, l, true, late, before, after) && DoneKeeps(tree, s, t, l, late, d0, d1)
    requires s[l].doneCount > 0 && Strands(tree, s, d0, l)
    ensures !Enlisted(tree, t, d1)
  {
    hide Upward, Known, VisitedAll, Strands, Climbs, Listed, Frame;
    StrandedAt(tree, s, t, l, d0, d1);
  }

  lemma NotBlocked(tree: seq<Node>, s: seq<Span>, l: nat, final: bool)
    requires TreeOk(tree) && DepsOk(tree, s) && final == (l != 0) && forall d: nat :: d < |tree| ==> !Blocks(tree, s, l, d)
    ensures forall d: nat :: !StaleUnder(tree, s, l, d, final)
  {
    forall d: nat
      ensures !StaleUnder(tree, s, l, d, final)
    {
      if d < |tree| {
        assert !Blocks(tree, s, l, d);
      }
    }
  }

  method FlushCall(request: Request)
    requires request.Valid()
    requires Rooted(request.tree, request.spans, request.activeDetached)
    modifies request
    ensures request.Valid() && request.tree == old(request.tree) && Grew(old(request.calls), request.calls)
    ensures Flushes(old(request.calls)) < Flushes(request.calls)
    ensures (forall d: nat :: d < |request.tree| ==> !old(Stale(request.tree, request.spans, request.activeDetached + {0}, d))) ==>
              && Rooted(request.tree, request.spans, request.activeDetached)
              && forall x: nat :: x < |request.tree| ==> Resting(request.spans[x])
    ensures old(Stale(request.tree, request.spans, request.activeDetached + {0}, request.late)) ==>
              !Enlisted(request.tree, request.spans, request.activeDetached)
  {
    hide Rooted, Enlisted, ExactFlush, ToldAll, Stale, AllClean, Emptied;
    ghost var tree, s, d, c := request.tree, request.spans, request.activeDetached, request.calls;
    if forall x: nat :: x < |tree| ==> !Stale(tree, s, d + {0}, x) {
      NoneStale(tree, s, d + {0});
      NotStaleClean(tree, s, d + {0});
    }
    request.Flush();
    if AllClean(tree, s, d + {0}) {
      FlushRooted(tree, s, request.spans, d, c, request.calls);
    }
    if Stale(tree, s, d + {0}, request.late) {
      FlushUproots(tree, s, request.spans, d + {0}, request.late, request.activeDetached);
    }
  }

  lemma NoneStale(tree: seq<Node>, s: seq<Span>, roots: set<nat>)
    requires TreeOk(tree) && DepsOk(tree, s) && forall x: nat :: x < |tree| ==> !Stale(tree, s, roots, x)
    ensures forall x: nat :: !Stale(tree, s, roots, x)
  {
  }

  /** The loggers after the first calls of a run. */
  function TreeAfter(ops: seq<AnyOp>): (tree: seq<Node>)
    ensures |tree| > 0
  {
    if ops == [] then [Node(0, false)]
    else
      var tree := TreeAfter(ops[..|ops| - 1]);
      match ops[|ops| - 1]
      case Use(Fork(p, det)) => tree + [Node(p, det)]
      case _ => tree
  }

  /** The next call of a run, made because its guard holds. */
  method GuardedStep(request: Request, ops: seq<AnyOp>, n: nat)
    requires n < |ops| && request.Valid() && request.tree == TreeAfter(ops[..n]) && Exist(ops[n..], |request.tree|)
    requires ops[n].Use? ==> ops[n].op.l < |request.tree|
    requires Rooted(request.tree, request.spans, request.activeDetached) && Guard(request.tree, request.spans, request.activeDetached, ops[n])
    requires Counted(request.calls, ops[..n])
    modifies request
    ensures request.Valid() && request.tree == TreeAfter(ops[..n + 1]) && Exist(ops[n + 1..], |request.tree|)
    ensures n + 1 < |ops| && ops[n + 1].Use? ==> ops[n + 1].op.l < |request.tree|
    ensures Rooted(request.tree, request.spans, request.activeDetached) && Counted(request.calls, ops[..n + 1])
    ensures ops[n].Flush? ==> forall x: nat :: x < |request.tree| ==> Resting(request.spans[x])
  {
    hide Rooted, Guard, Meets, Resting, Counted, Exist, Grew, Finals, Flushes, TreeOk, Tied, Listed, TreeAfter;
    OneMore(ops, n, |request.tree|);
    ghost var before := request.calls;
    Call(request, ops[n]);
    CountedStep(before, request.calls, ops, n);
  }

  /** Any calls, in any order and also after Done, as far as their guards hold: the request stays rooted, and a flush
      leaves nothing active. */
  method RunGuarded(ops: seq<AnyOp>, late: nat) returns (n: nat, tree: seq<Node>, s: seq<Span>, detached: set<nat>, calls: seq<BaseCall>)
    requires Exist(ops, 1)
    ensures n <= |ops| && tree == TreeAfter(ops[..n]) && TreeOk(tree) && DepsOk(tree, s) && Rooted(tree, s, detached)
    ensures n < |ops| ==> (ops[n].Use? ==> ops[n].op.l < |tree|) && !Guard(tree, s, detached, ops[n])
    ensures Counted(calls, ops[..n])
    ensures n > 0 && ops[n - 1].Flush? ==> forall x: nat :: x < |tree| ==> Resting(s[x])
  {
    hide Rooted, Guard, Meets, Resting, Counted, Exist, Grew, Finals, Flushes, TreeOk, Tied, Listed, TreeAfter;
    var request := new Request(late);
    FreshRooted(ops);
    n := 0;
    while n < |ops| && Guard(request.tree, request.spans, request.activeDetached, ops[n])
      invariant n <= |ops| && fresh(request) && request.Valid() && request.tree == TreeAfter(ops[..n])
      invariant Exist(ops[n..], |request.tree|) && (n < |ops| && ops[n].Use? ==> ops[n].op.l < |request.tree|)
      invariant Rooted(request.tree, request.spans, request.activeDetached)
      invariant Counted(request.calls, ops[..n])
      invariant n > 0 && ops[n - 1].Flush? ==> forall x: nat :: x < |request.tree| ==> Resting(request.spans[x])
    {
      GuardedStep(request, ops, n);
      n := n + 1;
    }
    tree, s, detached, calls := request.tree, request.spans, request.activeDetached, request.calls;
  }

  /** Any call at all, on any logger: registered loggers are active. */
  method AnyCall(request: Request, op: AnyOp)
    requires request.Valid() && (op.Use? ==> op.op.l < |request.tree|) && Awake(request.spans)
    modifies request
    ensures request.Valid() && Awake(request.spans)
    ensures request.tree == if op.Use? && op.op.Fork? then old(request.tree) + [Node(op.op.l, op.op.detached)] else old(request.tree)
  {
    hide Awake, KeepsTied, Frame, Side, DoneEffect, DoneExactly, VisitedAll, ToldAll, ExactFlush, Emptied, Finished, Tally, Stale, Fair, Speech, Chatter;
    ghost var tree, s, d := request.tree, request.spans, request.activeDetached;
    match op {
      case Flush => request.Flush();
      case Use(Fork(p, det)) =>
        var _ := request.NewChild(p, det);
        ForkAwake(s, request.spans, p, det);
      case Use(Done(l)) =>
        request.Done(l);
        DoneTied(tree, s, request.spans, l, request.late, d, request.activeDetached);
      case Use(Log(l)) => request.Msg(l);
      case Use(LogError(l)) => request.ErrorMsg(l, Error);
      case Use(MarkBoring(l)) => request.Boring(l);
    }
    if !(op.Use? && op.op.Fork?) {
      AwakeKept(s, request.spans);
    }
  }

  lemma ForkAwake(s: seq<Span>, t: seq<Span>, p: nat, det: bool)
    requires Awake(s) && |t| == |s| + 1 && t[|s|] == Span(true, 0, 0, {})
    requires forall x: nat :: x < |s| ==> t[x] == if x == p && !det then s[x].(deps := s[x].deps + {|s|}) else s[x]
    ensures Awake(t)
  {
    forall x: nat | x < |t|
      ensures AllActive(t, t[x].deps)
    {
      assert x < |s| ==> AllActive(s, s[x].deps);
    }
  }

  /** In every state that any calls lead to, children of inactive parents and uses after Done included, registered loggers
      are active.  So a complaint never leaves a logger stranded there. */
  method RunAwake(ops: seq<AnyOp>, late: nat) returns (tree: seq<Node>, s: seq<Span>, detached: set<nat>)
    requires Exist(ops, 1)
    ensures tree == TreeAfter(ops) && TreeOk(tree) && DepsOk(tree, s) && Awake(s)
    ensures Enlisted(tree, s, detached) ==> forall l: nat :: l < |tree| ==> !Strands(tree, s, detached, l)
  {
    hide Exist, TreeOk, TreeAfter, Awake, Strands, Enlisted;
    var request := new Request(late);
    FreshRooted(ops);
    FreshAwake();
    var n := 0;
    while n < |ops|
      invariant n <= |ops| && fresh(request) && request.Valid() && request.tree == TreeAfter(ops[..n]) && Awake(request.spans)
      invariant Exist(ops[n..], |request.tree|) && (n < |ops| && ops[n].Use? ==> ops[n].op.l < |request.tree|)
    {
      OneMore(ops, n, |request.tree|);
      AnyCall(request, ops[n]);
      n := n + 1;
    }
    assert ops[..n] == ops;
    tree, s, detached := request.tree, request.spans, request.activeDetached;
    if Enlisted(tree, s, detached) {
      forall l: nat | l < |tree|
        ensures !Strands(tree, s, detached, l)
      {
        AwakeAnchored(tree, s, detached, l);
      }
    }
  }

  lemma FreshAwake()
    ensures Awake([Span(true, 0, 0, {})])
  {
  }

  lemma FreshRooted(ops: seq<AnyOp>)
    requires Exist(ops, 1)
    ensures TreeOk([Node(0, false)]) && DepsOk([Node(0, false)], [Span(true, 0, 0, {})])
    ensures Rooted([Node(0, false)], [Span(true, 0, 0, {})], {})
    ensures ops != [] && ops[0].Use? ==> ops[0].op.l == 0
    ensures ops[0..] == ops && TreeAfter(ops[..0]) == [Node(0, false)] && forall calls :: Counted(calls, ops[..0])
  {
    assert TopOf([Node(0, false)], 0) == 0;
  }

  /** No Done or Flush of the calls made so far was lost. */
  ghost predicate Counted(calls: seq<BaseCall>, ops: seq<AnyOp>) {
    (forall l: nat :: Finals(calls, l) >= DoneCalls(ops, l)) && Flushes(calls) >= FlushCalls(ops)
  }

  lemma CountedStep(calls: seq<BaseCall>, more: seq<BaseCall>, ops: seq<AnyOp>, n: nat)
    requires n < |ops| && Counted(calls, ops[..n]) && Grew(calls, more)
    requires ops[n].Use? && ops[n].op.Done? ==> Finals(calls, ops[n].op.l) < Finals(more, ops[n].op.l)
    requires ops[n].Flush? ==> Flushes(calls) < Flushes(more)
    ensures Counted(more, ops[..n + 1])
  {
    hide Finals, Flushes, DoneCalls, FlushCalls;
    assert ops[..n + 1] == ops[..n] + [ops[n]];
    CallsAppend(ops[..n], ops[n]);
  }

  lemma OneMore(ops: seq<AnyOp>, n: nat, size: nat)
    requires n < |ops| && Exist(ops[n..], size)
    ensures var op := ops[n];
            var next := if op.Use? && op.op.Fork? then size + 1 else size;
            && Exist(ops[n + 1..], next) && (n + 1 < |ops| && ops[n + 1].Use? ==> ops[n + 1].op.l < next)
            && TreeAfter(ops[..n + 1]) == if op.Use? && op.op.Fork? then TreeAfter(ops[..n]) + [Node(op.op.l, op.op.detached)] else TreeAfter(ops[..n])
  {
    assert ops[n..][1..] == ops[n + 1..];
    assert ops[..n + 1] == ops[..n] + [ops[n]];
  }

  lemma {:induction false} CallsAppend(ops: seq<AnyOp>, op: AnyOp)
    ensures forall l: nat :: DoneCalls(ops + [op], l) == DoneCalls(ops, l) + (if op == Use(Done(l)) then 1 else 0)
    ensures FlushCalls(ops + [op]) == FlushCalls(ops) + (if op.Flush? then 1 else 0)
  {
    if ops != [] {
      assert (ops + [op])[1..] == ops[1..] + [op];
      CallsAppend(ops[1..], op);
    }
  }

  /** Every state of a well-used run is rooted. */
  lemma {:induction false} TracksRooted(tree: seq<Node>, s: seq<Span>, detached: set<nat>, waiting: bool, calls: seq<BaseCall>, dead: set<nat>)
    requires TreeOk(tree) && DepsOk(tree, s) && Tracks(tree, s, detached, waiting, calls, dead)
    ensures Rooted(tree, s, detached)
  {
    forall x: nat | x < |tree| && s[x].active
      ensures Listed(tree, s, detached + {0}, x)
    {
      LiveNoFlush(tree, s, detached, waiting, calls, dead, x);
      LiveReach(tree, s, detached, waiting, calls, dead, TopOf(tree, x), x);
    }
    forall x: nat | x < |s|
      ensures Tied(s[x])
    {
      assert forall c: nat :: c in s[x].deps ==> LiveChild(tree, dead, x, c);
    }
  }

  /** The condition on Done is needed: in a chain of four whose last two were done, a line of the last one registers the
      third again.  The state is rooted, but Done of the second leaves it active and cut off, so that a flush neither tells
      nor resets it. */
  method DoneOrphans() returns (s: seq<Span>, t: seq<Span>, u: seq<Span>, told: seq<BaseCall>, after: seq<BaseCall>)
    ensures TreeOk(CHAIN) && DepsOk(CHAIN, s) && Rooted(CHAIN, s, {}) && Blocks(CHAIN, s, 1, 2)
    ensures DepsOk(CHAIN, t) && t[1].active && !Enlisted(CHAIN, t, {})
    ensures |u| == 4 && u[1].active && told < after && after[|after| - 1] == BaseFlush
    ensures Finals(after, 1) == Finals(told, 1) && Interims(after, 1) == Interims(told, 1)
  {
    hide Tracks, Rooted, Blocks, Enlisted, Stale, AllClean, ExactFlush, DoneEffect, Frame, Side, ActivityKeeps, DoneKeeps, Finals, Interims, ToldAll, Listed, TreeOk, DepsOk, KeepsTied, Flushes, VisitedAll, Grew, OnlyLines, Fair, Speech, Count, Chatter;
    var request := DoneChain();
    ChainTree();
    ghost var live, waiting, c0 := request.spans, request.waitingForDetached, request.calls;
    ChainAttached(request.activeDetached);
    TracksRooted(CHAIN, live, request.activeDetached, waiting, c0, {2, 3});
    ChainLast(live, request.activeDetached, waiting, c0);
    request.Msg(3);
    ChainAttached(request.activeDetached);
    ChainStale(live, request.spans, {}, waiting, c0);
    ActivityRooted(CHAIN, live, request.spans, 3, {}, {});
    s := request.spans;
    ChainBlocks(s);
    ghost var c1 := request.calls;
    request.Done(1);
    ChainAttached(request.activeDetached);
    t, told := request.spans, request.calls;
    DoneUproots(CHAIN, s, t, 1, 2, {}, {}, c1, told);
    ChainCut(s, t, c1, told);
    assert request.activeDetached + {0} == {0};
    request.Flush();
    u, after := request.spans, request.calls;
    Longer(told, after);
    ChainPassed(t, u, told, after);
  }

  lemma Longer(a: seq<BaseCall>, b: seq<BaseCall>)
    requires Grew(a, b) && Flushes(b) == Flushes(a) + 1
    ensures a < b
  {
    assert |a| == |b| ==> a == b;
  }

  lemma ChainAttached(detached: set<nat>)
    requires forall x :: x in detached ==> x < |CHAIN| && CHAIN[x].detached
    ensures detached == {}
  {
    assert forall x: nat :: x < |CHAIN| ==> !CHAIN[x].detached;
  }

  lemma ChainBlocks(s: seq<Span>)
    requires TreeOk(CHAIN) && DepsOk(CHAIN, s) && Stale(CHAIN, s, {0}, 2)
    ensures Blocks(CHAIN, s, 1, 2) && StaleUnder(CHAIN, s, 1, 2, true) && !Top(CHAIN, 1)
  {
  }

  lemma ChainCut(s: seq<Span>, t: seq<Span>, before: seq<BaseCall>, after: seq<BaseCall>)
    requires TreeOk(CHAIN) && DepsOk(CHAIN, s) && DepsOk(CHAIN, t) && DoneEffect(CHAIN, s, t, 1, true, 2, before, after)
    ensures t[0].deps == {} && AllClean(CHAIN, t, {0})
  {
    assert CHAIN[1].parent == 0;
    assert forall c: nat :: c in t[0].deps ==> 0 < c < 4 && CHAIN[c].parent == 0;
  }

  lemma ChainPassed(t: seq<Span>, u: seq<Span>, before: seq<BaseCall>, after: seq<BaseCall>)
    requires TreeOk(CHAIN) && DepsOk(CHAIN, t) && t[0].deps == {} && t[1].active && ExactFlush(CHAIN, t, u, {0}, before, after)
    requires forall l: nat, x: nat :: InSub(CHAIN, l, x) <==> l <= x < 4
    ensures |u| == 4 && u[1].active && Finals(after, 1) == Finals(before, 1) && Interims(after, 1) == Interims(before, 1)
  {
    assert CHAIN[1].parent == 0;
    assert TopOf(CHAIN, 1) == 0 && !Reach(CHAIN, t, 0, 1);
    assert !Listed(CHAIN, t, {0}, 1);
  }
}
