/** What one step of the lifecycle does to the spans and tells the base loggers. */
module LifecycleSteps {
  import opened SpanTree

  /** The lines a base logger is told: of the program, and the two complaints of the logger itself. */
  datatype Text = Plain | Error | UsedAgain | DoneAgain

  /** What a base logger is told. */
  datatype BaseCall =
    | BaseSpan(id: nat, parent: nat)
    | BaseLine(id: nat, text: Text)
    | BaseBoring(id: nat, boring: bool)
    | BaseDone(id: nat, final: bool)
    | BaseFlush

  /** How often a call occurs in a log of calls. */
  function Count(calls: seq<BaseCall>, c: BaseCall): nat {
    if calls == [] then 0
    else Count(calls[..|calls| - 1], c) + (if calls[|calls| - 1] == c then 1 else 0)
  }

  function Finals(calls: seq<BaseCall>, x: nat): nat { Count(calls, BaseDone(x, true)) }
  function Interims(calls: seq<BaseCall>, x: nat): nat { Count(calls, BaseDone(x, false)) }
  function Flushes(calls: seq<BaseCall>): nat { Count(calls, BaseFlush) }

  /** Everything but Done and Flush, in order. */
  function Chatter(calls: seq<BaseCall>): seq<BaseCall> {
    if calls == [] then []
    else Chatter(calls[..|calls| - 1]) + Unless(calls[|calls| - 1].BaseDone? || calls[|calls| - 1].BaseFlush?, calls[|calls| - 1])
  }

  function Unless(skip: bool, c: BaseCall): seq<BaseCall> {
    if skip then [] else [c]
  }

  lemma Chatted(calls: seq<BaseCall>, c: BaseCall)
    ensures Chatter(calls + [c]) == Chatter(calls) + Unless(c.BaseDone? || c.BaseFlush?, c)
  {
    assert (calls + [c])[..|calls + [c]| - 1] == calls;
  }

  lemma Told(calls: seq<BaseCall>, c: BaseCall)
    ensures forall k :: Count(calls + [c], k) == Count(calls, k) + (if k == c then 1 else 0)
    ensures Grew(calls, calls + [c])
    ensures c.BaseLine? || c.BaseBoring? || c.BaseSpan? ==> OnlyLines(calls, calls + [c])
  {
    assert (calls + [c])[..|calls + [c]| - 1] == calls;
  }

  lemma {:induction false} CountMono(a: seq<BaseCall>, b: seq<BaseCall>, c: BaseCall)
    requires a <= b
    ensures Count(a, c) <= Count(b, c)
  {
    if |a| < |b| {
      CountMono(a, b[..|b| - 1], c);
    } else {
      assert a == b;
    }
  }

  /** The base loggers have heard more: `b` continues `a`. */
  ghost predicate Grew(a: seq<BaseCall>, b: seq<BaseCall>) {
    && a <= b
    && Flushes(a) <= Flushes(b)
    && forall x: nat :: Finals(a, x) <= Finals(b, x) && Interims(a, x) <= Interims(b, x)
  }

  lemma Overheard(a: seq<BaseCall>, b: seq<BaseCall>, c: seq<BaseCall>, d: seq<BaseCall>)
    requires Grew(a, b) && (c == b || Grew(b, c)) && (d == c || Grew(c, d))
    ensures Grew(a, d) && Grew(b, d)
  {
  }

  /** Nothing heard in between was a Done or a Flush. */
  ghost predicate OnlyLines(a: seq<BaseCall>, b: seq<BaseCall>) {
    && Flushes(a) == Flushes(b)
    && forall x: nat :: Finals(a, x) == Finals(b, x) && Interims(a, x) == Interims(b, x)
  }

  /** No logger registered below `l` has been done before. */
  ghost predicate Ready(tree: seq<Node>, s: seq<Span>, l: nat)
    requires TreeOk(tree) && DepsOk(tree, s) && l < |tree|
    decreases |tree| - l
  {
    forall d: nat :: d in s[l].deps ==> s[d].doneCount == 0 && Ready(tree, s, d)
  }

  /** What recursiveDone needs to stay free of complaints: a flush does not mind direct dependents that are done. */
  ghost predicate Clean(tree: seq<Node>, s: seq<Span>, l: nat, final: bool)
    requires TreeOk(tree) && DepsOk(tree, s) && l < |tree|
  {
    forall d: nat :: d in s[l].deps ==> (final ==> s[d].doneCount == 0) && Ready(tree, s, d)
  }

  lemma ReadyIsClean(tree: seq<Node>, s: seq<Span>, l: nat)
    requires TreeOk(tree) && DepsOk(tree, s) && l < |tree| && Ready(tree, s, l)
    ensures Clean(tree, s, l, true)
  {
  }

  lemma {:induction false} ReadyLocal(tree: seq<Node>, s: seq<Span>, t: seq<Span>, l: nat)
    requires TreeOk(tree) && DepsOk(tree, s) && DepsOk(tree, t) && l < |tree| && Ready(tree, s, l)
    requires forall y: nat :: InSub(tree, l, y) ==> t[y].deps == s[y].deps && t[y].doneCount == s[y].doneCount
    ensures Ready(tree, t, l)
    decreases |tree| - l
  {
    assert InSub(tree, l, l);
    forall d: nat | d in t[l].deps
      ensures t[d].doneCount == 0 && Ready(tree, t, d)
    {
      forall y: nat | y == d || InSub(tree, d, y)
        ensures InSub(tree, l, y)
      {
        SubOfChild(tree, l, d, y);
        SubOfChild(tree, l, d, d);
      }
      ReadyLocal(tree, s, t, d);
    }
  }

  function Retire(p: Span, final: bool): Span {
    Span(false, p.doneCount + (if final then 1 else 0), p.boring, {})
  }

  /** `l` is retired, and with it everything registered below `l` (always finally). */
  function Finished(tree: seq<Node>, s: seq<Span>, l: nat, final: bool): seq<Span>
    requires TreeOk(tree) && DepsOk(tree, s)
  {
    seq(|s|, x requires 0 <= x < |s| =>
      if x == l then Retire(s[x], final) else if Reach(tree, s, l, x) then Retire(s[x], true) else s[x])
  }

  function Unregister(tree: seq<Node>, s: seq<Span>, l: nat): seq<Span>
    requires l < |tree| == |s| && tree[l].parent < |s|
  {
    var p := tree[l].parent;
    s[p := s[p].(deps := s[p].deps - {l})]
  }

  /** What handling the subtree of `l` may do to the spans outside of it. */
  ghost predicate Frame(tree: seq<Node>, s: seq<Span>, t: seq<Span>, l: nat)
    requires TreeOk(tree)
  {
    && |s| == |t| == |tree|
    && (forall x: nat :: x < |s| ==> s[x].doneCount <= t[x].doneCount)
    && (forall x: nat :: x < |s| && !InSub(tree, l, x) ==>
          && t[x].doneCount == s[x].doneCount
          && (s[x].active ==> t[x].active)
          && s[x].deps - {l} <= t[x].deps)
  }

  /** Nothing but activity marks and registrations, and these only grow. */
  ghost predicate Raised(s: seq<Span>, t: seq<Span>) {
    && |s| == |t|
    && forall x: nat :: x < |s| ==>
         && t[x].doneCount == s[x].doneCount
         && t[x].boring == s[x].boring
         && (s[x].active ==> t[x].active)
         && s[x].deps <= t[x].deps
  }

  ghost predicate SameButBoring(s: seq<Span>, t: seq<Span>) {
    |s| == |t| && forall x: nat :: x < |s| ==> t[x] == s[x].(boring := t[x].boring)
  }

  lemma RaisedFrame(tree: seq<Node>, s: seq<Span>, t: seq<Span>, l: nat)
    requires TreeOk(tree) && |s| == |tree| && Raised(s, t)
    ensures Frame(tree, s, t, l)
  {
  }

  lemma QuietFrame(tree: seq<Node>, s: seq<Span>, t: seq<Span>, l: nat)
    requires TreeOk(tree) && |s| == |tree| && SameButBoring(s, t)
    ensures Frame(tree, s, t, l)
  {
  }

  lemma FrameTrans(tree: seq<Node>, a: seq<Span>, b: seq<Span>, c: seq<Span>, l: nat)
    requires TreeOk(tree) && Frame(tree, a, b, l) && Frame(tree, b, c, l)
    ensures Frame(tree, a, c, l)
  {
  }

  lemma DoneFrame(tree: seq<Node>, s: seq<Span>, t: seq<Span>, u: seq<Span>, l: nat)
    requires TreeOk(tree) && DepsOk(tree, s) && 0 < l < |tree| && Outside(tree, s, t, l) && Frame(tree, t, u, l)
    ensures Frame(tree, s, Unregister(tree, u, l), l)
  {
  }

  /** The frame of a child, seen from its parent: nothing outside of the parent is unregistered. */
  ghost predicate Outside(tree: seq<Node>, s: seq<Span>, t: seq<Span>, l: nat)
    requires TreeOk(tree)
  {
    && |s| == |t| == |tree|
    && (forall x: nat :: x < |s| ==> s[x].doneCount <= t[x].doneCount)
    && (forall x: nat :: x < |s| && !InSub(tree, l, x) ==>
          && t[x].doneCount == s[x].doneCount
          && (s[x].active ==> t[x].active)
          && s[x].deps <= t[x].deps)
  }

  lemma {:induction false} ChildFrame(tree: seq<Node>, a: seq<Span>, s: seq<Span>, t: seq<Span>, l: nat, d: nat)
    requires TreeOk(tree) && DepsOk(tree, s) && l < d < |tree| && tree[d].parent == l && !tree[d].detached
    requires Outside(tree, a, s, l) && Frame(tree, s, t, d)
    ensures Outside(tree, a, t, l)
    ensures forall e: nat, y: nat :: l < e < |tree| && e != d && tree[e].parent == l && InSub(tree, e, y) ==> s[y].deps <= t[y].deps
  {
    forall x: nat | x < |tree| && !InSub(tree, l, x)
      ensures !InSub(tree, d, x) && d !in s[x].deps
    {
      SubOfChild(tree, l, d, x);
    }
    forall e: nat, y: nat | l < e < |tree| && e != d && tree[e].parent == l && InSub(tree, e, y)
      ensures s[y].deps <= t[y].deps
    {
      if !tree[e].detached {
        SubOfChild(tree, l, d, y);
        SubOfChild(tree, l, e, y);
      } else {
        SubOfChild(tree, l, d, y);
        DetachedApart(tree, l, e, y);
      }
    }
  }

  lemma {:induction false} DetachedApart(tree: seq<Node>, l: nat, e: nat, y: nat)
    requires TreeOk(tree) && l < e < |tree| && tree[e].detached && InSub(tree, e, y)
    ensures !InSub(tree, l, y)
  {
    if y != e {
      DetachedApart(tree, l, e, tree[y].parent);
    }
  }

  /** RecursiveDone part way: the branches through the children in `todo` are still to be handled. */
  ghost predicate Partial(tree: seq<Node>, s: seq<Span>, t: seq<Span>, l: nat, final: bool, todo: set<nat>)
    requires TreeOk(tree) && DepsOk(tree, s) && l < |tree|
  {
    && |t| == |s|
    && t[l] == Retire(s[l], final).(deps := todo)
    && forall x: nat :: x < |s| && x != l ==>
         t[x] == if Reach(tree, s, l, x) && Handled(tree, l, x, todo) then Retire(s[x], true) else s[x]
  }

  ghost predicate Handled(tree: seq<Node>, l: nat, x: nat, todo: set<nat>)
    requires TreeOk(tree)
  {
    InSub(tree, l, x) && x != l && Branch(tree, l, x) !in todo
  }

  lemma {:induction false} PartialStep(tree: seq<Node>, s: seq<Span>, t: seq<Span>, l: nat, final: bool, todo: set<nat>, d: nat)
    requires TreeOk(tree) && DepsOk(tree, s) && DepsOk(tree, t) && l < |tree|
    requires Partial(tree, s, t, l, final, todo) && todo <= s[l].deps && d in todo
    ensures forall x: nat :: Reach(tree, t, d, x) <==> Reach(tree, s, l, x) && InSub(tree, d, x)
    ensures Clean(tree, s, l, final) ==> Ready(tree, t, d) && (final ==> t[d].doneCount == 0)
    ensures Partial(tree, s, Unregister(tree, Finished(tree, t, d, true), d), l, final, todo - {d})
  {
    forall x: nat
      ensures Reach(tree, t, d, x) <==> Reach(tree, s, l, x) && InSub(tree, d, x)
      ensures Reach(tree, s, l, x) ==> InSub(tree, l, x)
      ensures InSub(tree, d, x) <==> InSub(tree, l, x) && x != l && Branch(tree, l, x) == d
    {
      SubOfChild(tree, l, d, x);
      forall y: nat | InSub(tree, d, y)
        ensures s[y].deps == t[y].deps
      {
        SubOfChild(tree, l, d, y);
      }
      ReachLocal(tree, s, t, d, x);
      if Reach(tree, s, d, x) {
        ReachInSub(tree, s, d, x);
        SubOfChild(tree, l, d, x);
        BranchProps(tree, s, l, x);
      }
      if Reach(tree, s, l, x) {
        ReachInSub(tree, s, l, x);
        if x != l {
          BranchProps(tree, s, l, x);
        }
      }
    }
    assert Reach(tree, t, d, d);
    if Clean(tree, s, l, final) {
      ReadyLocal(tree, s, t, d);
    }
  }

  /** Every logger registered below `l` was told it is finally done. */
  ghost predicate Visited(tree: seq<Node>, s: seq<Span>, l: nat, before: seq<BaseCall>, after: seq<BaseCall>)
    requires TreeOk(tree) && DepsOk(tree, s)
  {
    forall x: nat :: x != l && Reach(tree, s, l, x) ==> Finals(before, x) < Finals(after, x)
  }

  ghost predicate VisitedAll(tree: seq<Node>, s: seq<Span>, l: nat, before: seq<BaseCall>, after: seq<BaseCall>)
    requires TreeOk(tree) && DepsOk(tree, s)
  {
    forall x: nat :: Reach(tree, s, l, x) ==> Finals(before, x) < Finals(after, x)
  }

  lemma VisitedToo(tree: seq<Node>, s: seq<Span>, l: nat, before: seq<BaseCall>, mid: seq<BaseCall>, after: seq<BaseCall>)
    requires TreeOk(tree) && DepsOk(tree, s)
    requires Visited(tree, s, l, before, mid) && Finals(before, l) < Finals(mid, l) && Grew(mid, after)
    ensures VisitedAll(tree, s, l, before, after)
  {
  }

  /** The Done calls made while `l` and all registered below it are retired. */
  ghost predicate Tally(tree: seq<Node>, s: seq<Span>, l: nat, final: bool, before: seq<BaseCall>, after: seq<BaseCall>)
    requires TreeOk(tree) && DepsOk(tree, s) && l < |tree|
  {
    && Chatter(after) == Chatter(before)
    && forall x: nat ::
      && Finals(after, x) == Finals(before, x) + (if Reach(tree, s, l, x) && (final || x != l) then 1 else 0)
      && Interims(after, x) == Interims(before, x) + (if x == l && !final && s[l].active then 1 else 0)
  }

  ghost predicate PartialTally(tree: seq<Node>, s: seq<Span>, l: nat, final: bool, todo: set<nat>, before: seq<BaseCall>, after: seq<BaseCall>)
    requires TreeOk(tree) && DepsOk(tree, s) && l < |tree|
  {
    && Chatter(after) == Chatter(before)
    && forall x: nat ::
      && Finals(after, x) == Finals(before, x) + (if Reach(tree, s, l, x) && (Handled(tree, l, x, todo) || (final && x == l)) then 1 else 0)
      && Interims(after, x) == Interims(before, x) + (if x == l && !final && s[l].active then 1 else 0)
  }

  lemma {:induction false} PartialTallyStep(tree: seq<Node>, s: seq<Span>, t: seq<Span>, l: nat, final: bool, todo: set<nat>, d: nat,
                                            before: seq<BaseCall>, mid: seq<BaseCall>, after: seq<BaseCall>)
    requires TreeOk(tree) && DepsOk(tree, s) && DepsOk(tree, t) && l < |tree|
    requires Partial(tree, s, t, l, final, todo) && todo <= s[l].deps && d in todo
    requires PartialTally(tree, s, l, final, todo, before, mid) && Tally(tree, t, d, true, mid, after)
    ensures PartialTally(tree, s, l, final, todo - {d}, before, after)
  {
    PartialStep(tree, s, t, l, final, todo, d);
    forall x: nat
      ensures InSub(tree, d, x) <==> InSub(tree, l, x) && x != l && Branch(tree, l, x) == d
    {
      SubOfChild(tree, l, d, x);
    }
  }

  /** Both halves of the exact account of a RecursiveDone part way. */
  ghost predicate ExactSoFar(tree: seq<Node>, s: seq<Span>, t: seq<Span>, l: nat, final: bool, todo: set<nat>, before: seq<BaseCall>, after: seq<BaseCall>)
    requires TreeOk(tree) && DepsOk(tree, s) && l < |tree|
  {
    Partial(tree, s, t, l, final, todo) && PartialTally(tree, s, l, final, todo, before, after)
  }

  lemma {:induction false} ExactStart(tree: seq<Node>, s: seq<Span>, t: seq<Span>, l: nat, final: bool, before: seq<BaseCall>, after: seq<BaseCall>)
    requires TreeOk(tree) && DepsOk(tree, s) && l < |tree|
    requires t == s[l := Retire(s[l], final).(deps := s[l].deps)] && Chatter(after) == Chatter(before)
    requires forall x: nat :: Finals(after, x) == Finals(before, x) + (if final && x == l then 1 else 0)
    requires forall x: nat :: Interims(after, x) == Interims(before, x) + (if x == l && !final && s[l].active then 1 else 0)
    ensures ExactSoFar(tree, s, t, l, final, s[l].deps, before, after)
  {
    forall x: nat | Reach(tree, s, l, x)
      ensures !Handled(tree, l, x, s[l].deps)
    {
      if x != l && InSub(tree, l, x) {
        BranchProps(tree, s, l, x);
      }
    }
  }

  lemma {:induction false} ExactStep(tree: seq<Node>, s: seq<Span>, t: seq<Span>, u: seq<Span>, l: nat, final: bool, todo: set<nat>, d: nat,
                                     before: seq<BaseCall>, mid: seq<BaseCall>, after: seq<BaseCall>)
    requires TreeOk(tree) && DepsOk(tree, s) && DepsOk(tree, t) && l < |tree|
    requires ExactSoFar(tree, s, t, l, final, todo, before, mid) && todo <= s[l].deps && d in todo && Clean(tree, s, l, final)
    ensures d < |tree| && Ready(tree, t, d) && (final ==> t[d].doneCount == 0)
    ensures u == Unregister(tree, Finished(tree, t, d, true), d) && Tally(tree, t, d, true, mid, after) ==>
              ExactSoFar(tree, s, u, l, final, todo - {d}, before, after)
  {
    PartialStep(tree, s, t, l, final, todo, d);
    if Tally(tree, t, d, true, mid, after) {
      PartialTallyStep(tree, s, t, l, final, todo, d, before, mid, after);
    }
  }

  lemma {:induction false} ExactEnd(tree: seq<Node>, s: seq<Span>, t: seq<Span>, l: nat, final: bool, before: seq<BaseCall>, after: seq<BaseCall>)
    requires TreeOk(tree) && DepsOk(tree, s) && l < |tree|
    requires ExactSoFar(tree, s, t, l, final, {}, before, after)
    ensures ExactDone(tree, s, t, l, final, before, after)
  {
    forall x: nat | Reach(tree, s, l, x)
      ensures InSub(tree, l, x)
    {
      ReachInSub(tree, s, l, x);
    }
  }

  /** RecursiveDone part way, whatever was done before: what is kept and what was told so far. */
  ghost predicate Progress(tree: seq<Node>, s: seq<Span>, t: seq<Span>, l: nat, todo: set<nat>, before: seq<BaseCall>, after: seq<BaseCall>)
    requires TreeOk(tree) && DepsOk(tree, s) && l < |tree|
  {
    && todo <= s[l].deps
    && Outside(tree, s, t, l)
    && Flushes(after) == Flushes(before)
    && (forall e: nat, y: nat :: e in todo && InSub(tree, e, y) ==> s[y].deps <= t[y].deps)
    && (forall x: nat :: Reach(tree, s, l, x) && Handled(tree, l, x, todo) ==> Finals(before, x) < Finals(after, x))
  }

  lemma {:induction false} ProgressStart(tree: seq<Node>, s: seq<Span>, t: seq<Span>, l: nat, before: seq<BaseCall>, after: seq<BaseCall>)
    requires TreeOk(tree) && DepsOk(tree, s) && l < |tree| && |t| == |s|
    requires s[l].doneCount <= t[l].doneCount && t == s[l := t[l]] && Flushes(after) == Flushes(before)
    ensures Progress(tree, s, t, l, s[l].deps, before, after)
  {
    forall x: nat | Reach(tree, s, l, x)
      ensures !Handled(tree, l, x, s[l].deps)
    {
      if x != l && InSub(tree, l, x) {
        BranchProps(tree, s, l, x);
      }
    }
  }

  lemma {:induction false} ProgressStep(tree: seq<Node>, s: seq<Span>, t: seq<Span>, u: seq<Span>, l: nat, todo: set<nat>, d: nat,
                                        before: seq<BaseCall>, mid: seq<BaseCall>, after: seq<BaseCall>)
    requires TreeOk(tree) && DepsOk(tree, s) && DepsOk(tree, t) && l < |tree|
    requires Progress(tree, s, t, l, todo, before, mid) && d in todo
    requires Frame(tree, t, u, d) && Grew(mid, after) && Flushes(mid) == Flushes(after)
    requires VisitedAll(tree, t, d, mid, after)
    requires forall x: nat :: Finals(before, x) <= Finals(mid, x)
    ensures Progress(tree, s, u, l, todo - {d}, before, after)
  {
    ChildFrame(tree, s, t, u, l, d);
    forall x: nat | Reach(tree, s, l, x) && Handled(tree, l, x, todo - {d})
      ensures Finals(before, x) < Finals(after, x)
    {
      BranchProps(tree, s, l, x);
      if !Handled(tree, l, x, todo) {
        ReachMono(tree, s, t, d, x);
      }
    }
  }

  lemma {:induction false} ProgressEnd(tree: seq<Node>, s: seq<Span>, t: seq<Span>, l: nat, before: seq<BaseCall>, after: seq<BaseCall>)
    requires TreeOk(tree) && DepsOk(tree, s) && l < |tree|
    requires Progress(tree, s, t, l, {}, before, after)
    ensures Outside(tree, s, t, l) && Visited(tree, s, l, before, after)
    ensures Flushes(after) == Flushes(before)
    ensures forall x: nat :: Reach(tree, s, l, x) && x != l ==> Handled(tree, l, x, {})
  {
    forall x: nat | x != l && Reach(tree, s, l, x)
      ensures InSub(tree, l, x)
    {
      ReachInSub(tree, s, l, x);
    }
  }

  /** Flush part way: the subtrees of the top loggers in `roots` have been handled. */
  function FlushRoots(tree: seq<Node>, s: seq<Span>, roots: set<nat>): seq<Span>
    requires TreeOk(tree) && DepsOk(tree, s)
  {
    seq(|s|, x requires 0 <= x < |s| =>
      var r := TopOf(tree, x);
      if r in roots && Reach(tree, s, r, x) then Retire(s[x], x != r) else s[x])
  }

  lemma FlushRootsStep(tree: seq<Node>, s: seq<Span>, roots: set<nat>, a: nat)
    requires TreeOk(tree) && DepsOk(tree, s) && DepsOk(tree, FlushRoots(tree, s, roots))
    requires a < |tree| && Top(tree, a) && a !in roots
    ensures var t := FlushRoots(tree, s, roots);
            && t[a] == s[a]
            && (forall x: nat :: Reach(tree, t, a, x) <==> Reach(tree, s, a, x))
            && (Clean(tree, s, a, false) ==> Clean(tree, t, a, false))
            && Finished(tree, t, a, false) == FlushRoots(tree, s, roots + {a})
  {
    hide TreeOk;
    var t := FlushRoots(tree, s, roots);
    forall x: nat
      ensures Reach(tree, t, a, x) <==> Reach(tree, s, a, x)
      ensures InSub(tree, a, x) <==> x < |tree| && TopOf(tree, x) == a
      ensures Reach(tree, s, a, x) ==> InSub(tree, a, x)
    {
      forall y: nat | InSub(tree, a, y)
        ensures TopOf(tree, y) == a
      {
        TopsDisjoint(tree, a, TopOf(tree, y), y);
      }
      ReachLocal(tree, s, t, a, x);
      if Reach(tree, s, a, x) {
        ReachInSub(tree, s, a, x);
      }
    }
    assert InSub(tree, a, a);
    if Clean(tree, s, a, false) {
      forall d: nat | d in t[a].deps
        ensures Ready(tree, t, d)
      {
        forall y: nat | InSub(tree, d, y)
          ensures InSub(tree, a, y)
        {
          SubOfChild(tree, a, d, y);
        }
        ReadyLocal(tree, s, t, d);
      }
    }
  }

  /** The top logger of `x` is in `roots`, and `x` is registered all the way up to it. */
  predicate Listed(tree: seq<Node>, s: seq<Span>, roots: set<nat>, x: nat)
    requires TreeOk(tree) && DepsOk(tree, s)
  {
    x < |tree| && TopOf(tree, x) in roots && Reach(tree, s, TopOf(tree, x), x)
  }

  /** Every listed logger was told: finally done below the top, done for now at the top if it was active. */
  ghost predicate ToldAll(tree: seq<Node>, s: seq<Span>, roots: set<nat>, before: seq<BaseCall>, after: seq<BaseCall>)
    requires TreeOk(tree) && DepsOk(tree, s)
  {
    forall x: nat :: Listed(tree, s, roots, x) ==>
      if Top(tree, x) then (s[x].active ==> Interims(before, x) < Interims(after, x))
      else Finals(before, x) < Finals(after, x)
  }

  /** The Done calls of a flush of `roots` in which nobody complained. */
  ghost predicate FlushTally(tree: seq<Node>, s: seq<Span>, roots: set<nat>, before: seq<BaseCall>, after: seq<BaseCall>)
    requires TreeOk(tree) && DepsOk(tree, s)
  {
    && Chatter(after) == Chatter(before)
    && forall x: nat ::
      && Finals(after, x) == Finals(before, x) + (if Listed(tree, s, roots, x) && !Top(tree, x) then 1 else 0)
      && Interims(after, x) == Interims(before, x) + (if Listed(tree, s, roots, x) && Top(tree, x) && s[x].active then 1 else 0)
  }

  ghost predicate FlushProgress(tree: seq<Node>, s: seq<Span>, t: seq<Span>, roots: set<nat>, before: seq<BaseCall>, after: seq<BaseCall>)
    requires TreeOk(tree) && DepsOk(tree, s)
  {
    && |t| == |s|
    && Grew(before, after) && Flushes(before) == Flushes(after)
    && ToldAll(tree, s, roots, before, after)
    && (forall x: nat :: x < |s| ==> s[x].doneCount <= t[x].doneCount)
    && forall x: nat :: x < |tree| && TopOf(tree, x) !in roots ==> s[x].deps <= t[x].deps && (s[x].active ==> t[x].active)
  }

  lemma {:induction false} RootSub(tree: seq<Node>, a: nat, x: nat)
    requires TreeOk(tree) && a < |tree| && Top(tree, a)
    ensures InSub(tree, a, x) <==> x < |tree| && TopOf(tree, x) == a
  {
    if InSub(tree, a, x) {
      TopsDisjoint(tree, a, TopOf(tree, x), x);
    }
  }

  lemma {:induction false} FlushProgressStep(tree: seq<Node>, s: seq<Span>, t: seq<Span>, u: seq<Span>, roots: set<nat>, a: nat,
                                             before: seq<BaseCall>, mid: seq<BaseCall>, after: seq<BaseCall>)
    requires TreeOk(tree) && DepsOk(tree, s) && DepsOk(tree, t) && a < |tree| && Top(tree, a) && a !in roots
    requires FlushProgress(tree, s, t, roots, before, mid)
    requires Outside(tree, t, u, a) && Grew(mid, after) && Flushes(mid) == Flushes(after)
    requires Visited(tree, t, a, mid, after) && (t[a].active ==> Interims(mid, a) < Interims(after, a))
    ensures FlushProgress(tree, s, u, roots + {a}, before, after)
  {
    forall x: nat | x < |tree|
      ensures InSub(tree, a, x) <==> TopOf(tree, x) == a
      ensures TopOf(tree, x) == a && Reach(tree, s, a, x) ==> Reach(tree, t, a, x)
    {
      RootSub(tree, a, x);
      if TopOf(tree, x) == a && Reach(tree, s, a, x) {
        forall y: nat | InSub(tree, a, y)
          ensures TopOf(tree, y) == a
        {
          RootSub(tree, a, y);
        }
        ReachMono(tree, s, t, a, x);
      }
    }
  }

  lemma {:induction false} FlushTallyStep(tree: seq<Node>, s: seq<Span>, roots: set<nat>, a: nat,
                                          before: seq<BaseCall>, mid: seq<BaseCall>, after: seq<BaseCall>)
    requires TreeOk(tree) && DepsOk(tree, s) && DepsOk(tree, FlushRoots(tree, s, roots)) && a < |tree| && Top(tree, a) && a !in roots
    requires FlushTally(tree, s, roots, before, mid) && Tally(tree, FlushRoots(tree, s, roots), a, false, mid, after)
    ensures FlushTally(tree, s, roots + {a}, before, after)
  {
    hide DepsOk, Top, Finals;
    FlushRootsStep(tree, s, roots, a);
    forall x: nat
      ensures Reach(tree, s, a, x) <==> Reach(tree, s, a, x) && x < |tree| && TopOf(tree, x) == a
      ensures x < |tree| && Top(tree, x) ==> TopOf(tree, x) == x
    {
      if Reach(tree, s, a, x) {
        ReachInSub(tree, s, a, x);
        RootSub(tree, a, x);
      }
    }
  }

  lemma FlushEnd(tree: seq<Node>, s: seq<Span>, t: seq<Span>, roots: set<nat>, before: seq<BaseCall>, mid: seq<BaseCall>)
    requires TreeOk(tree) && DepsOk(tree, s) && FlushProgress(tree, s, t, roots, before, mid)
    ensures var after := mid + [BaseFlush];
            && Grew(before, after) && Flushes(after) == Flushes(before) + 1
            && ToldAll(tree, s, roots, before, after)
            && (ExactFlush(tree, s, t, roots, before, mid) ==> ExactFlush(tree, s, t, roots, before, after))
  {
    Told(mid, BaseFlush);
  }

  /** A retired request is quiet, and retiring another top logger leaves the request alone. */
  lemma {:induction false} FinishedQuiet(tree: seq<Node>, s: seq<Span>, t: seq<Span>, l: nat, before: seq<BaseCall>, after: seq<BaseCall>)
    requires TreeOk(tree) && DepsOk(tree, s) && l < |tree| && Top(tree, l)
    requires ExactDone(tree, s, t, l, true, before, after)
    ensures l == 0 || Quiet(s) ==> Quiet(t)
  {
  }

  lemma ExactSettled(tree: seq<Node>, s: seq<Span>, t: seq<Span>, l: nat, before: seq<BaseCall>, mid: seq<BaseCall>, after: seq<BaseCall>)
    requires TreeOk(tree) && DepsOk(tree, s) && l < |tree| && ExactDone(tree, s, t, l, true, before, mid)
    requires Chatter(after) == Chatter(mid)
    requires forall x: nat :: Finals(mid, x) == Finals(after, x) && Interims(mid, x) == Interims(after, x)
    ensures ExactDone(tree, s, t, l, true, before, after)
  {
  }

  ghost predicate AllClean(tree: seq<Node>, s: seq<Span>, roots: set<nat>)
    requires TreeOk(tree) && DepsOk(tree, s)
  {
    forall a :: a in roots && a < |tree| ==> Clean(tree, s, a, false)
  }

  /** Exactly the listed loggers of `roots` were retired, and told so once. */
  ghost predicate ExactFlush(tree: seq<Node>, s: seq<Span>, t: seq<Span>, roots: set<nat>, before: seq<BaseCall>, after: seq<BaseCall>)
    requires TreeOk(tree) && DepsOk(tree, s)
  {
    t == FlushRoots(tree, s, roots) && FlushTally(tree, s, roots, before, after)
  }

  /** Exactly `l` and what is registered below it were retired, and told so once. */
  ghost predicate ExactDone(tree: seq<Node>, s: seq<Span>, t: seq<Span>, l: nat, final: bool, before: seq<BaseCall>, after: seq<BaseCall>)
    requires TreeOk(tree) && DepsOk(tree, s) && l < |tree|
  {
    t == Finished(tree, s, l, final) && Tally(tree, s, l, final, before, after)
  }

  lemma ExactFlushStep(tree: seq<Node>, s: seq<Span>, t: seq<Span>, u: seq<Span>, roots: set<nat>, a: nat,
                       before: seq<BaseCall>, mid: seq<BaseCall>, after: seq<BaseCall>)
    requires TreeOk(tree) && DepsOk(tree, s) && DepsOk(tree, t) && a < |tree| && Top(tree, a) && a !in roots
    requires ExactFlush(tree, s, t, roots, before, mid) && Clean(tree, s, a, false)
    ensures Clean(tree, t, a, false)
    ensures ExactDone(tree, t, u, a, false, mid, after) ==> ExactFlush(tree, s, u, roots + {a}, before, after)
  {
    FlushRootsStep(tree, s, roots, a);
    if ExactDone(tree, t, u, a, false, mid, after) {
      FlushTallyStep(tree, s, roots, a, before, mid, after);
    }
  }

  /** The request is inactive and nothing is registered with it. */
  predicate Quiet(s: seq<Span>) {
    |s| > 0 && !s[0].active && s[0].deps == {}
  }

  lemma QuietTally(tree: seq<Node>, s: seq<Span>, before: seq<BaseCall>, after: seq<BaseCall>)
    requires TreeOk(tree) && DepsOk(tree, s) && Quiet(s) && FlushTally(tree, s, {0}, before, after)
    ensures Chatter(after) == Chatter(before)
    ensures forall x: nat :: Finals(after, x) == Finals(before, x) && Interims(after, x) == Interims(before, x)
  {
    QuietFlush(tree, s);
  }

  lemma QuietFlush(tree: seq<Node>, s: seq<Span>)
    requires TreeOk(tree) && DepsOk(tree, s) && Quiet(s)
    ensures AllClean(tree, s, {0}) && FlushRoots(tree, s, {0}) == s
    ensures forall x: nat :: Listed(tree, s, {0}, x) ==> x == 0
  {
    forall x: nat | Reach(tree, s, 0, x)
      ensures x == 0
    {
      ReachInSub(tree, s, 0, x);
      if x != 0 {
        BranchProps(tree, s, 0, x);
      }
    }
  }
}
