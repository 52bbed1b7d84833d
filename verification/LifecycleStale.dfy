/** What complaints of already-done loggers do: marks that climb towards the top, and the
    span that a flush leaves active because its last dependent complained. */
module LifecycleStale {
  import opened SpanTree
  import opened LifecycleSteps

  lemma {:induction false} Comparable(tree: seq<Node>, a: nat, b: nat, x: nat)
    requires TreeOk(tree) && InSub(tree, a, x) && InSub(tree, b, x)
    ensures InSub(tree, a, b) || InSub(tree, b, a)
  {
    if x != a && x != b {
      Comparable(tree, a, b, tree[x].parent);
    }
  }

  /** Of the children of one parent at most one is above `l`. */
  lemma Siblings(tree: seq<Node>, x: nat, y: nat, l: nat)
    requires TreeOk(tree) && x < |tree| && y < |tree| && !Top(tree, x) && !Top(tree, y) && tree[x].parent == tree[y].parent
    requires InSub(tree, x, l) && InSub(tree, y, l)
    ensures x == y
  {
    Comparable(tree, x, y, l);
    if InSub(tree, x, y) {
      OnlySelf(tree, x, y);
    } else {
      OnlySelf(tree, y, x);
    }
  }

  /** Activity at `l` changes `x` only if `x` is above `l`: it may activate `x`, register the next logger
      of the chain with `x`, and a lone dependent that was activated activates its parent. */
  ghost predicate UpAt(tree: seq<Node>, s: seq<Span>, t: seq<Span>, l: nat, x: nat)
    requires TreeOk(tree) && |s| == |t| == |tree| && x < |tree|
  {
    && (forall c: nat {:trigger c in t[x].deps} :: c in t[x].deps ==> c in s[x].deps || InSub(tree, c, l))
    && (!s[x].active && t[x].active ==> InSub(tree, x, l))
    && (!Top(tree, x) && !s[x].active && t[x].active ==>
          x in t[tree[x].parent].deps && (s[tree[x].parent].deps <= {x} ==> t[tree[x].parent].active))
  }

  ghost predicate Upward(tree: seq<Node>, s: seq<Span>, t: seq<Span>, l: nat)
    requires TreeOk(tree) && |s| == |t| == |tree|
  {
    forall x: nat :: x < |tree| && !InSub(tree, l, x) ==> UpAt(tree, s, t, l, x)
  }

  lemma {:induction false} UpAtTrans(tree: seq<Node>, a: seq<Span>, b: seq<Span>, c: seq<Span>, l: nat, d: nat, x: nat)
    requires TreeOk(tree) && DepsOk(tree, a) && DepsOk(tree, b) && DepsOk(tree, c) && InSub(tree, l, d)
    requires x < |tree| && !InSub(tree, l, x)
    requires UpAt(tree, a, b, l, x) && UpAt(tree, b, c, d, x)
    requires !Top(tree, x) ==> UpAt(tree, a, b, l, tree[x].parent)
    requires forall y: nat :: y < |tree| && !InSub(tree, l, y) ==> (b[y].active ==> c[y].active) && b[y].deps - {d} <= c[y].deps
    ensures UpAt(tree, a, c, l, x)
  {
    forall y: nat | y < |tree| && (y == x || tree[y].parent == x) && InSub(tree, y, d)
      ensures InSub(tree, y, l)
    {
      Comparable(tree, l, y, d);
    }
    if !Top(tree, x) && !a[x].active && c[x].active {
      var p := tree[x].parent;
      assert !InSub(tree, l, p) && x != d;
      if !b[x].active && a[p].deps <= {x} {
        forall y: nat | y in b[p].deps
          ensures y == x
        {
          if y !in a[p].deps {
            Siblings(tree, x, y, l);
          }
        }
      }
    }
  }

  lemma {:induction false} UpwardTrans(tree: seq<Node>, a: seq<Span>, b: seq<Span>, c: seq<Span>, l: nat, d: nat)
    requires TreeOk(tree) && DepsOk(tree, a) && DepsOk(tree, b) && DepsOk(tree, c) && InSub(tree, l, d)
    requires Upward(tree, a, b, l) && Upward(tree, b, c, d)
    requires forall y: nat :: y < |tree| && !InSub(tree, l, y) ==> (b[y].active ==> c[y].active) && b[y].deps - {d} <= c[y].deps
    ensures Upward(tree, a, c, l)
  {
    forall x: nat | x < |tree| && !InSub(tree, l, x)
      ensures UpAt(tree, a, c, l, x)
    {
      if InSub(tree, d, x) {
        SubTrans(tree, l, d, x);
      }
      assert !Top(tree, x) ==> !InSub(tree, l, tree[x].parent);
      UpAtTrans(tree, a, b, c, l, d, x);
    }
  }

  /** Nothing registered with `l` before, nothing after, and no strict descendant loses its activity. */
  ghost predicate StillBelow(tree: seq<Node>, s: seq<Span>, t: seq<Span>, l: nat)
    requires TreeOk(tree) && |s| == |t| == |tree| && l < |tree|
  {
    && t[l].deps == {}
    && forall x: nat :: x < |tree| && InSub(tree, l, x) && x != l && s[x].active ==> t[x].active
  }

  /** The side effects of handling `l`, above it and below it. */
  ghost predicate Side(tree: seq<Node>, s: seq<Span>, t: seq<Span>, l: nat)
    requires TreeOk(tree) && |s| == |t| == |tree| && l < |tree|
  {
    Upward(tree, s, t, l) && (s[l].deps == {} ==> StillBelow(tree, s, t, l))
  }

  lemma SideTrans(tree: seq<Node>, a: seq<Span>, b: seq<Span>, c: seq<Span>, l: nat)
    requires TreeOk(tree) && DepsOk(tree, a) && DepsOk(tree, b) && DepsOk(tree, c) && l < |tree|
    requires Side(tree, a, b, l) && Side(tree, b, c, l) && Frame(tree, b, c, l)
    ensures Side(tree, a, c, l)
  {
    assert InSub(tree, l, l);
    UpwardTrans(tree, a, b, c, l, l);
  }

  lemma SideQuiet(tree: seq<Node>, s: seq<Span>, t: seq<Span>, l: nat)
    requires TreeOk(tree) && |s| == |tree| && l < |tree| && SameButBoring(s, t)
    ensures Side(tree, s, t, l)
  {
  }

  lemma SideRaised(tree: seq<Node>, s: seq<Span>, t: seq<Span>, l: nat)
    requires TreeOk(tree) && |s| == |tree| && l < |tree| && Raised(s, t) && t[l].deps == s[l].deps
    requires forall x: nat :: x < |tree| ==> UpAt(tree, s, t, l, x)
    ensures Side(tree, s, t, l)
  {
  }

  lemma SideUnregister(tree: seq<Node>, s: seq<Span>, t: seq<Span>, l: nat)
    requires TreeOk(tree) && DepsOk(tree, s) && DepsOk(tree, t) && 0 < l < |tree| && Side(tree, s, t, l)
    ensures Side(tree, s, Unregister(tree, t, l), l)
  {
    var u := Unregister(tree, t, l);
    forall x: nat | x < |tree| && !InSub(tree, l, x)
      ensures UpAt(tree, s, u, l, x)
    {
      assert UpAt(tree, s, t, l, x);
      assert u[x].deps <= t[x].deps;
      assert !Top(tree, x) ==> !InSub(tree, l, tree[x].parent) && x != l;
    }
  }

  /** `l`, alone with its parent, passes its activity on. */
  ghost predicate Passes(tree: seq<Node>, s: seq<Span>, t: seq<Span>, l: nat)
    requires TreeOk(tree) && |s| == |t| == |tree| && l < |tree|
  {
    !Top(tree, l) && s[tree[l].parent].deps <= {l} && t[l].active ==> t[tree[l].parent].active
  }

  /** `d` is registered with its parent although it was done, and the parent can be reached from `l`. */
  predicate StaleUnder(tree: seq<Node>, s: seq<Span>, l: nat, d: nat, final: bool)
    requires TreeOk(tree) && DepsOk(tree, s)
  {
    && d < |tree|
    && var p := tree[d].parent;
       && d in s[p].deps && s[d].doneCount > 0 && Reach(tree, s, l, p) && (p != l || final)
  }

  /** RecursiveDone part way: its side effects, and what became of the parent of the stale logger `late`. */
  ghost predicate SideSoFar(tree: seq<Node>, s: seq<Span>, t: seq<Span>, l: nat, final: bool, todo: set<nat>, late: nat)
    requires TreeOk(tree) && DepsOk(tree, s) && |t| == |tree| && l < |tree|
  {
    && Upward(tree, s, t, l)
    && t[l].deps == todo
    && Passes(tree, s, t, l)
    && (StaleUnder(tree, s, l, late, final) ==>
          var p := tree[late].parent;
          && (p == l ==> if late in todo then t[late].doneCount > 0 else t[l].active)
          && (p != l ==> InSub(tree, l, p) && (if Branch(tree, l, p) in todo then late in t[p].deps && t[late].doneCount > 0 else t[p].active)))
  }

  lemma {:induction false} SideStart(tree: seq<Node>, s: seq<Span>, t: seq<Span>, l: nat, final: bool, late: nat)
    requires TreeOk(tree) && DepsOk(tree, s) && l < |tree| && |t| == |s|
    requires t == s[l := t[l]] && !t[l].active && t[l].deps == s[l].deps && s[l].doneCount <= t[l].doneCount
    ensures SideSoFar(tree, s, t, l, final, s[l].deps, late)
  {
    if StaleUnder(tree, s, l, late, final) && tree[late].parent != l {
      var p := tree[late].parent;
      ReachInSub(tree, s, l, p);
      BranchProps(tree, s, l, p);
    }
  }

  lemma {:induction false} SideStep(tree: seq<Node>, s: seq<Span>, t: seq<Span>, u: seq<Span>, l: nat, final: bool, todo: set<nat>, d: nat, late: nat)
    requires TreeOk(tree) && DepsOk(tree, s) && DepsOk(tree, t) && DepsOk(tree, u) && l < |tree|
    requires Outside(tree, s, t, l) && SideSoFar(tree, s, t, l, final, todo, late) && d in todo && todo <= s[l].deps
    requires forall e: nat, y: nat :: e in todo && InSub(tree, e, y) ==> s[y].deps <= t[y].deps
    requires todo != {late} ==> d != late
    requires Frame(tree, t, u, d) && Upward(tree, t, u, d) && d !in u[l].deps
    requires StaleUnder(tree, t, d, late, true) ==> u[tree[late].parent].active
    requires final && t[d].doneCount > 0 && t[l].deps <= {d} ==> u[l].active
    ensures SideSoFar(tree, s, u, l, final, todo - {d}, late)
  {
    SubOfChild(tree, l, d, l);
    SubOfChild(tree, l, d, d);
    assert UpAt(tree, t, u, d, l);
    forall c: nat | c in u[l].deps
      ensures c in todo - {d}
    {
      if InSub(tree, c, d) {
        OnlySelf(tree, c, d);
      }
    }
    assert u[l].deps == todo - {d};
    assert InSub(tree, l, d) by { assert InSub(tree, l, l); }
    forall y: nat | y < |tree| && !InSub(tree, l, y)
      ensures !InSub(tree, d, y)
    {
      SubOfChild(tree, l, d, y);
    }
    UpwardTrans(tree, s, t, u, l, d);
    PassesStep(tree, s, t, u, l, d);
    if StaleUnder(tree, s, l, late, final) {
      StaleStep(tree, s, t, u, l, final, todo, d, late);
    }
  }

  lemma {:induction false} PassesStep(tree: seq<Node>, s: seq<Span>, t: seq<Span>, u: seq<Span>, l: nat, d: nat)
    requires TreeOk(tree) && DepsOk(tree, s) && DepsOk(tree, t) && l < d < |tree| && |u| == |tree|
    requires tree[d].parent == l && !tree[d].detached
    requires Upward(tree, s, t, l) && Passes(tree, s, t, l) && Upward(tree, t, u, d) && Frame(tree, t, u, d)
    ensures Passes(tree, s, u, l)
  {
    SubOfChild(tree, l, d, l);
    if !Top(tree, l) && s[tree[l].parent].deps <= {l} && u[l].active {
      var p := tree[l].parent;
      SubOfChild(tree, l, d, p);
      assert !InSub(tree, l, p);
      if !t[l].active {
        assert UpAt(tree, s, t, l, p);
        assert UpAt(tree, t, u, d, l);
        forall y: nat | y in t[p].deps
          ensures y == l
        {
          if InSub(tree, y, l) {
            OnlySelf(tree, y, l);
          }
        }
      }
    }
  }

  lemma {:induction false} StaleStep(tree: seq<Node>, s: seq<Span>, t: seq<Span>, u: seq<Span>, l: nat, final: bool, todo: set<nat>, d: nat, late: nat)
    requires TreeOk(tree) && DepsOk(tree, s) && DepsOk(tree, t) && DepsOk(tree, u) && l < |tree|
    requires SideSoFar(tree, s, t, l, final, todo, late) && d in todo && todo <= s[l].deps
    requires forall e: nat, y: nat :: e in todo && InSub(tree, e, y) ==> s[y].deps <= t[y].deps
    requires todo != {late} ==> d != late
    requires Frame(tree, t, u, d) && u[l].deps == todo - {d}
    requires StaleUnder(tree, t, d, late, true) ==> u[tree[late].parent].active
    requires final && t[d].doneCount > 0 && t[l].deps <= {d} ==> u[l].active
    requires StaleUnder(tree, s, l, late, final)
    ensures var p := tree[late].parent;
            && (p == l ==> if late in todo - {d} then u[late].doneCount > 0 else u[l].active)
            && (p != l ==> if Branch(tree, l, p) in todo - {d} then late in u[p].deps && u[late].doneCount > 0 else u[p].active)
  {
    var p := tree[late].parent;
    SubOfChild(tree, l, d, l);
    SubOfChild(tree, l, d, p);
    if p != l {
      BranchProps(tree, s, l, p);
      if Branch(tree, l, p) == d {
        ReachMono(tree, s, t, d, p);
      }
    }
  }

  lemma SideEnd(tree: seq<Node>, s: seq<Span>, t: seq<Span>, l: nat, final: bool, late: nat)
    requires TreeOk(tree) && DepsOk(tree, s) && l < |tree| && |t| == |tree|
    requires SideSoFar(tree, s, t, l, final, {}, late)
    requires s[l].deps == {} ==> t == s[l := t[l]]
    ensures Side(tree, s, t, l) && t[l].deps == {} && Passes(tree, s, t, l)
    ensures StaleUnder(tree, s, l, late, final) ==> t[tree[late].parent].active
  {
  }

  /** What done on a logger that is not top does, whatever happened before. */
  ghost predicate DoneEffect(tree: seq<Node>, s: seq<Span>, t: seq<Span>, l: nat, explicit: bool, late: nat, before: seq<BaseCall>, after: seq<BaseCall>)
    requires TreeOk(tree) && DepsOk(tree, s) && DepsOk(tree, t) && l < |tree|
  {
    && Frame(tree, s, t, l) && Side(tree, s, t, l)
    && VisitedAll(tree, s, l, before, after) && Flushes(before) == Flushes(after)
    && l !in t[tree[l].parent].deps
    && (explicit && s[l].doneCount > 0 && s[tree[l].parent].deps <= {l} ==> t[tree[l].parent].active)
    && (StaleUnder(tree, s, l, late, true) ==> t[tree[late].parent].active)
  }

  /** What it does when nobody has reason to complain. */
  ghost predicate DoneExactly(tree: seq<Node>, s: seq<Span>, t: seq<Span>, l: nat, explicit: bool, before: seq<BaseCall>, after: seq<BaseCall>)
    requires TreeOk(tree) && DepsOk(tree, s) && l < |tree|
  {
    Ready(tree, s, l) && (explicit ==> s[l].doneCount == 0) ==>
      t == Unregister(tree, Finished(tree, s, l, true), l) && Tally(tree, s, l, true, before, after)
  }

  lemma DoneExact(tree: seq<Node>, s: seq<Span>, t: seq<Span>, u: seq<Span>, l: nat, explicit: bool, before: seq<BaseCall>, mid: seq<BaseCall>, after: seq<BaseCall>)
    requires TreeOk(tree) && DepsOk(tree, s) && DepsOk(tree, t) && l < |tree|
    requires Ready(tree, s, l) && (explicit ==> s[l].doneCount == 0) ==>
               ExactDone(tree, s, t, l, true, before, mid) && u == Unregister(tree, t, l) && after == mid
    ensures DoneExactly(tree, s, u, l, explicit, before, after)
  {
    hide Ready, Finished, Tally;
  }

  /** What recursiveDone does, whatever happened before. */
  ghost predicate RecursiveEffect(tree: seq<Node>, s: seq<Span>, t: seq<Span>, l: nat, final: bool, late: nat, before: seq<BaseCall>, after: seq<BaseCall>)
    requires TreeOk(tree) && DepsOk(tree, s) && l < |tree|
  {
    && Outside(tree, s, t, l) && Side(tree, s, t, l) && t[l].deps == {} && Passes(tree, s, t, l)
    && Visited(tree, s, l, before, after) && Flushes(before) == Flushes(after)
    && (StaleUnder(tree, s, l, late, final) ==> t[tree[late].parent].active)
  }

  /** The loop of recursiveDone. */
  ghost predicate Loop(tree: seq<Node>, s: seq<Span>, t: seq<Span>, l: nat, final: bool, todo: set<nat>, late: nat, before: seq<BaseCall>, after: seq<BaseCall>)
    requires TreeOk(tree) && DepsOk(tree, s) && l < |tree|
  {
    && Progress(tree, s, t, l, todo, before, after)
    && SideSoFar(tree, s, t, l, final, todo, late)
    && (s[l].deps == {} ==> t == s[l := t[l]])
    && (Clean(tree, s, l, final) ==> ExactSoFar(tree, s, t, l, final, todo, before, after))
  }

  lemma LoopStart(tree: seq<Node>, s: seq<Span>, t: seq<Span>, l: nat, final: bool, late: nat, before: seq<BaseCall>, after: seq<BaseCall>)
    requires TreeOk(tree) && DepsOk(tree, s) && l < |tree|
    requires t == s[l := Retire(s[l], final).(deps := s[l].deps)] && Flushes(after) == Flushes(before) && Chatter(after) == Chatter(before)
    requires forall x: nat :: Finals(after, x) == Finals(before, x) + (if final && x == l then 1 else 0)
    requires forall x: nat :: Interims(after, x) == Interims(before, x) + (if x == l && !final && s[l].active then 1 else 0)
    ensures Loop(tree, s, t, l, final, s[l].deps, late, before, after)
  {
    ProgressStart(tree, s, t, l, before, after);
    SideStart(tree, s, t, l, final, late);
    ExactStart(tree, s, t, l, final, before, after);
  }

  lemma LoopStep(tree: seq<Node>, s: seq<Span>, t: seq<Span>, u: seq<Span>, l: nat, final: bool, todo: set<nat>, d: nat, late: nat,
                 before: seq<BaseCall>, mid: seq<BaseCall>, after: seq<BaseCall>)
    requires TreeOk(tree) && DepsOk(tree, s) && DepsOk(tree, t) && DepsOk(tree, u) && l < |tree| && d < |tree|
    requires Loop(tree, s, t, l, final, todo, late, before, mid) && d in todo && d in s[l].deps && (todo != {late} ==> d != late)
    requires DoneEffect(tree, t, u, d, final, late, mid, after) && DoneExactly(tree, t, u, d, final, mid, after)
    requires Grew(before, mid) && Grew(mid, after)
    ensures Loop(tree, s, u, l, final, todo - {d}, late, before, after)
    ensures Clean(tree, s, l, final) ==> Ready(tree, t, d) && (final ==> t[d].doneCount == 0)
  {
    hide Partial, PartialTally, ExactSoFar, Tally, Visited, Finished, Ready;
    SideStep(tree, s, t, u, l, final, todo, d, late);
    ProgressStep(tree, s, t, u, l, todo, d, before, mid, after);
    if Clean(tree, s, l, final) {
      ExactStep(tree, s, t, u, l, final, todo, d, before, mid, after);
    }
  }

  lemma LoopEnd(tree: seq<Node>, s: seq<Span>, t: seq<Span>, l: nat, final: bool, late: nat, before: seq<BaseCall>, after: seq<BaseCall>)
    requires TreeOk(tree) && DepsOk(tree, s) && l < |tree|
    requires Loop(tree, s, t, l, final, {}, late, before, after)
    ensures RecursiveEffect(tree, s, t, l, final, late, before, after)
    ensures Clean(tree, s, l, final) ==> ExactDone(tree, s, t, l, final, before, after)
  {
    hide Partial, PartialTally, Visited, Finished, Ready, Outside, Upward;
    ProgressEnd(tree, s, t, l, before, after);
    SideEnd(tree, s, t, l, final, late);
    if Clean(tree, s, l, final) {
      ExactEnd(tree, s, t, l, final, before, after);
    }
  }

  /** done, put together: recursiveDone, perhaps a complaint, and leaving the parent. */
  lemma DoneTogether(tree: seq<Node>, s: seq<Span>, t: seq<Span>, u: seq<Span>, l: nat, explicit: bool, late: nat,
                     before: seq<BaseCall>, mid: seq<BaseCall>, after: seq<BaseCall>)
    requires TreeOk(tree) && DepsOk(tree, s) && DepsOk(tree, t) && DepsOk(tree, u) && l < |tree| && !Top(tree, l)
    requires RecursiveEffect(tree, s, t, l, true, late, before, mid) && Finals(before, l) < Finals(mid, l)
    requires Frame(tree, t, u, l) && Side(tree, t, u, l) && Grew(mid, after) && Flushes(mid) == Flushes(after)
    requires t[l].active ==> u[l].active
    requires explicit && s[l].doneCount > 0 && !t[l].active && t[tree[l].parent].deps <= {l} ==> u[tree[l].parent].active
    ensures DoneEffect(tree, s, Unregister(tree, u, l), l, explicit, late, before, after)
  {
    hide Visited, VisitedAll, Upward, DepsOk;
    var v := Unregister(tree, u, l);
    var p := tree[l].parent;
    assert DepsOk(tree, v) by { UnregisterDeps(tree, u, l); }
    assert !InSub(tree, l, p);
    DoneFrame(tree, s, t, u, l);
    SideTrans(tree, s, t, u, l);
    SideUnregister(tree, s, u, l);
    VisitedToo(tree, s, l, before, mid, after);
    if s[p].deps <= {l} {
      ParentDeps(tree, s, t, l);
    }
    if StaleUnder(tree, s, l, late, true) {
      ReachInSub(tree, s, l, tree[late].parent);
    }
  }

  lemma RecursiveVisited(tree: seq<Node>, s: seq<Span>, t: seq<Span>, l: nat, late: nat, before: seq<BaseCall>, mid: seq<BaseCall>, after: seq<BaseCall>)
    requires TreeOk(tree) && DepsOk(tree, s) && l < |tree| && RecursiveEffect(tree, s, t, l, true, late, before, mid)
    requires Finals(before, l) < Finals(mid, l) && Grew(mid, after)
    ensures VisitedAll(tree, s, l, before, after) && Flushes(before) == Flushes(mid)
  {
    VisitedToo(tree, s, l, before, mid, after);
  }

  lemma UnregisterDeps(tree: seq<Node>, u: seq<Span>, l: nat)
    requires TreeOk(tree) && DepsOk(tree, u) && l < |tree|
    ensures DepsOk(tree, Unregister(tree, u, l))
  {
  }

  lemma {:induction false} ParentDeps(tree: seq<Node>, s: seq<Span>, t: seq<Span>, l: nat)
    requires TreeOk(tree) && DepsOk(tree, s) && DepsOk(tree, t) && l < |tree| && !Top(tree, l)
    requires Upward(tree, s, t, l) && s[tree[l].parent].deps <= {l}
    ensures t[tree[l].parent].deps <= {l}
  {
    var p := tree[l].parent;
    assert UpAt(tree, s, t, l, p);
    forall y: nat | y in t[p].deps
      ensures y == l
    {
      if InSub(tree, y, l) {
        OnlySelf(tree, y, l);
      }
    }
  }

  /** The logger `d` was done and is registered all the way up, below a logger that is not top. */
  predicate Stale(tree: seq<Node>, s: seq<Span>, roots: set<nat>, d: nat)
    requires TreeOk(tree) && DepsOk(tree, s)
  {
    && d < |tree|
    && var p := tree[d].parent;
       && d in s[p].deps && s[d].doneCount > 0 && !Top(tree, p) && Listed(tree, s, roots, p)
  }

  /** Flush part way: the parent of the stale logger `late` is active once its subtree was handled. */
  ghost predicate StaleSoFar(tree: seq<Node>, s: seq<Span>, t: seq<Span>, roots: set<nat>, handled: set<nat>, late: nat)
    requires TreeOk(tree) && DepsOk(tree, s) && |t| == |tree|
  {
    Stale(tree, s, roots, late) ==>
      var p := tree[late].parent;
      if TopOf(tree, p) in handled then t[p].active else late in t[p].deps && t[late].doneCount > 0
  }

  lemma {:induction false} StaleFlushStep(tree: seq<Node>, s: seq<Span>, t: seq<Span>, u: seq<Span>, roots: set<nat>, handled: set<nat>, a: nat, late: nat,
                                          before: seq<BaseCall>, mid: seq<BaseCall>)
    requires TreeOk(tree) && DepsOk(tree, s) && DepsOk(tree, t) && DepsOk(tree, u) && a < |tree| && Top(tree, a) && a !in handled
    requires FlushProgress(tree, s, t, handled, before, mid) && Outside(tree, t, u, a)
    requires StaleSoFar(tree, s, t, roots, handled, late)
    requires StaleUnder(tree, t, a, late, false) ==> u[tree[late].parent].active
    ensures StaleSoFar(tree, s, u, roots, handled + {a}, late)
  {
    if Stale(tree, s, roots, late) {
      var p := tree[late].parent;
      RootSub(tree, a, p);
      if TopOf(tree, p) == a {
        forall y: nat | InSub(tree, a, y)
          ensures s[y].deps <= t[y].deps
        {
          RootSub(tree, a, y);
        }
        ReachMono(tree, s, t, a, p);
      }
    }
  }

  lemma FlushStart(tree: seq<Node>, s: seq<Span>, roots: set<nat>, late: nat, calls: seq<BaseCall>)
    requires TreeOk(tree) && DepsOk(tree, s)
    ensures FlushProgress(tree, s, s, {}, calls, calls) && ExactFlush(tree, s, s, {}, calls, calls)
    ensures StaleSoFar(tree, s, s, roots, {}, late)
  {
    assert FlushRoots(tree, s, {}) == s;
  }

  lemma FlushStep(tree: seq<Node>, s: seq<Span>, t: seq<Span>, u: seq<Span>, roots: set<nat>, handled: set<nat>, a: nat, late: nat,
                  before: seq<BaseCall>, mid: seq<BaseCall>, after: seq<BaseCall>)
    requires TreeOk(tree) && DepsOk(tree, s) && DepsOk(tree, t) && DepsOk(tree, u) && a < |tree| && Top(tree, a) && a !in handled
    requires FlushProgress(tree, s, t, handled, before, mid) && StaleSoFar(tree, s, t, roots, handled, late)
    requires RecursiveEffect(tree, t, u, a, false, late, mid, after) && Grew(mid, after)
    requires t[a].active ==> Interims(mid, a) < Interims(after, a)
    ensures FlushProgress(tree, s, u, handled + {a}, before, after) && StaleSoFar(tree, s, u, roots, handled + {a}, late)
  {
    hide ToldAll, Side, Passes, Upward;
    FlushProgressStep(tree, s, t, u, handled, a, before, mid, after);
    StaleFlushStep(tree, s, t, u, roots, handled, a, late, before, mid);
  }

  lemma StaleFlushEnd(tree: seq<Node>, s: seq<Span>, t: seq<Span>, roots: set<nat>, late: nat)
    requires TreeOk(tree) && DepsOk(tree, s) && |t| == |tree| && StaleSoFar(tree, s, t, roots, roots, late)
    ensures Stale(tree, s, roots, late) ==> t[tree[late].parent].active
  {
  }

  lemma CleanMember(tree: seq<Node>, s: seq<Span>, roots: set<nat>, a: nat)
    requires TreeOk(tree) && DepsOk(tree, s) && AllClean(tree, s, roots) && a in roots && a < |tree|
    ensures Clean(tree, s, a, false)
  {
  }

  /** Without stale loggers nobody complains during a flush. */
  lemma {:induction false} NotStaleReady(tree: seq<Node>, s: seq<Span>, roots: set<nat>, l: nat)
    requires TreeOk(tree) && DepsOk(tree, s) && Listed(tree, s, roots, l) && !Top(tree, l)
    requires forall d: nat :: !Stale(tree, s, roots, d)
    ensures Ready(tree, s, l)
    decreases |tree| - l
  {
    forall d: nat | d in s[l].deps
      ensures s[d].doneCount == 0 && Ready(tree, s, d)
    {
      assert !Stale(tree, s, roots, d);
      NotStaleReady(tree, s, roots, d);
    }
  }

  lemma {:induction false} NotStaleClean(tree: seq<Node>, s: seq<Span>, roots: set<nat>)
    requires TreeOk(tree) && DepsOk(tree, s)
    requires forall a :: a in roots ==> a < |tree| && Top(tree, a)
    requires forall d: nat :: !Stale(tree, s, roots, d)
    ensures AllClean(tree, s, roots)
  {
    forall a, d: nat | a in roots && a < |tree| && d in s[a].deps
      ensures Ready(tree, s, d)
    {
      assert Reach(tree, s, a, a);
      NotStaleReady(tree, s, roots, d);
    }
  }
}
