/** The life of span-owning loggers: activity, Done, and Flush (logger.go). */
module Lifecycle {
  import opened SpanTree
  import opened LifecycleSteps
  import opened LifecycleStale
  import opened LifecycleRoots
  import opened LifecycleTold

  class Request {
    /** The dependents of a span are visited in no particular order; this one, wherever it occurs, comes last.
        An index that names no logger leaves the order entirely open. */
    const late: nat
    var tree: seq<Node>
    var spans: seq<Span>
    var activeDetached: set<nat>
    var waitingForDetached: bool
    var flushActive: bool
    var calls: seq<BaseCall>

    ghost predicate Valid()
      reads this
    {
      && TreeOk(tree)
      && DepsOk(tree, spans)
      && forall x :: x in activeDetached ==> x < |tree| && tree[x].detached
    }

    /** The request logger itself, as it stands after creation. */
    constructor (late: nat)
      ensures Valid() && this.late == late
      ensures tree == [Node(0, false)] && spans == [Span(true, 0, 0, {})]
      ensures activeDetached == {} && !waitingForDetached && calls == [BaseSpan(0, 0)]
    {
      this.late := late;
      tree := [Node(0, false)];
      spans := [Span(true, 0, 0, {})];
      activeDetached := {};
      waitingForDetached := false;
      flushActive := false;
      calls := [BaseSpan(0, 0)];
    }

    /** A request in the middle of its life. */
    constructor At(tree: seq<Node>, spans: seq<Span>, activeDetached: set<nat>, waiting: bool, late: nat)
      requires TreeOk(tree) && DepsOk(tree, spans) && forall x :: x in activeDetached ==> x < |tree| && tree[x].detached
      ensures Valid() && this.late == late && this.tree == tree && this.spans == spans
      ensures this.activeDetached == activeDetached && this.waitingForDetached == waiting && calls == []
    {
      this.late := late;
      this.tree := tree;
      this.spans := spans;
      this.activeDetached := activeDetached;
      this.waitingForDetached := waiting;
      flushActive := false;
      calls := [];
    }

    /** The base loggers hear one more call. */
    method Tell(c: BaseCall)
      requires Valid()
      modifies this`calls
      ensures Valid() && calls == old(calls) + [c] && Grew(old(calls), calls)
      ensures c.BaseLine? || c.BaseBoring? || c.BaseSpan? ==> OnlyLines(old(calls), calls)
      ensures Chatter(calls) == Chatter(old(calls)) + Unless(c.BaseDone? || c.BaseFlush?, c)
      ensures Speech(calls) == Speech(old(calls)) + Unless(!Said(c), c)
    {
      hide Count, Grew, OnlyLines, Chatter, Speech;
      Told(calls, c);
      Chatted(calls, c);
      Spoken(calls, c);
      calls := calls + [c];
    }

    /** A child span: Fork and Step, detached or not. */
    method NewChild(p: nat, detached: bool) returns (l: nat)
      requires Valid() && p < |tree|
      modifies this
      ensures Valid() && l == |old(tree)| && tree == old(tree) + [Node(p, detached)]
      ensures calls == old(calls) + [BaseSpan(l, p), BaseBoring(l, true)] && OnlyLines(old(calls), calls) && Grew(old(calls), calls)
      ensures Chatter(calls) == Chatter(old(calls)) + [BaseSpan(l, p), BaseBoring(l, true)]
      ensures Speech(calls) == Speech(old(calls)) + [BaseSpan(l, p), BaseBoring(l, true)]
      ensures waitingForDetached == old(waitingForDetached)
      ensures activeDetached == old(activeDetached) + (if detached then {l} else {})
      ensures |spans| == l + 1 && spans[l] == Span(true, 0, 0, {})
      ensures forall x: nat :: x < l ==>
                spans[x] == if x == p && !detached then old(spans)[x].(deps := old(spans)[x].deps + {l}) else old(spans)[x]
    {
      hide Count, Chatter, Speech;
      l := |tree|;
      tree := tree + [Node(p, detached)];
      spans := spans + [Span(true, 0, 0, {})];
      Tell(BaseSpan(l, p));
      Tell(BaseBoring(l, true));
      var _ := AddMyselfAsDependent(l);
    }

    /** Any log line below the error level: the line, then its activity. */
    method Msg(l: nat)
      requires Valid() && l < |tree|
      modifies this
      ensures Valid() && tree == old(tree) && Grew(old(calls), calls)
      ensures old(spans[l].active) ==> Muttered() && spans == old(spans) && calls == old(calls) + [BaseLine(l, Plain)]
      ensures Speech(calls) == Speech(old(calls)) + [BaseLine(l, Plain)]
      ensures !old(spans[l].active) && old(spans[l].doneCount) > 0 ==> Count(old(calls), BaseLine(l, UsedAgain)) < Count(calls, BaseLine(l, UsedAgain))
      ensures Fair(old(spans), spans, old(calls), calls, l, 0, 0)
      ensures !old(spans[l].active) ==> Finals(old(calls), l) < Finals(calls, l)
      ensures !Top(tree, l) ==> Frame(tree, old(spans), spans, l) && Side(tree, old(spans), spans, l)
      ensures !Top(tree, l) && !old(spans[l].active) && old(spans[tree[l].parent].deps) <= {l} ==> spans[tree[l].parent].active
      ensures !Top(tree, l) ==> old(activeDetached) <= activeDetached
      ensures ActivityKeeps(tree, old(spans), spans, l, old(activeDetached), activeDetached)
    {
      hide Fair, Count, Chatter, Speech;
      if spans[l].active {
        QuietFrame(tree, spans, spans, l);
        SideQuiet(tree, spans, spans, l);
      }
      FairLine(spans, calls, l, Plain);
      Told(calls, BaseLine(l, Plain));
      Tell(BaseLine(l, Plain));
      ghost var said := calls;
      HasActivity(l);
      FairTrans(old(spans), old(spans), spans, old(calls), said, calls, l, 0, 0, 0, 0);
    }

    /** The request is marked boring unless it is known not to be. */
    method Boring(l: nat)
      requires Valid() && l < |tree|
      modifies this
      ensures Valid() && tree == old(tree) && Grew(old(calls), calls)
      ensures old(spans[l].active) ==> Muttered() && spans == old(spans)
      ensures var marked := old(calls) + Unless(old(spans[0].boring) != 0, BaseBoring(0, true));
              && Fair(old(spans), spans, marked, calls, l, 0, 0)
              && (old(spans[l].active) ==> calls == marked)
      ensures Speech(calls) == Speech(old(calls))
      ensures !Top(tree, l) ==> Frame(tree, old(spans), spans, l) && Side(tree, old(spans), spans, l)
      ensures !Top(tree, l) ==> old(activeDetached) <= activeDetached
      ensures ActivityKeeps(tree, old(spans), spans, l, old(activeDetached), activeDetached)
    {
      hide Fair, Count, Chatter, Speech;
      if spans[0].boring != 0 {
        FairStill(spans, spans, calls, l);
        assert calls + [] == calls;
        QuietFrame(tree, spans, spans, l);
        SideQuiet(tree, spans, spans, l);
        ActivityQuiet(tree, spans, spans, l, activeDetached);
        return;
      }
      Tell(BaseBoring(0, true));
      HasActivity(l);
    }

    method Done(l: nat)
      requires Valid() && l < |tree|
      modifies this
      ensures Valid() && tree == old(tree) && Grew(old(calls), calls)
      ensures Fair(old(spans), spans, old(calls), calls, l, 0, 0) && Speech(calls) == Speech(old(calls))
      ensures old(spans[l].doneCount) > 0 ==> Count(old(calls), BaseLine(l, DoneAgain)) < Count(calls, BaseLine(l, DoneAgain))
      ensures VisitedAll(tree, old(spans), l, old(calls), calls)
      ensures Ready(tree, old(spans), l) && old(spans[l].doneCount) == 0 && (old(waitingForDetached) ==> l != 0 && Quiet(old(spans))) ==>
                var flush := Top(tree, l) && (if l == 0 then old(activeDetached) == {} else old(waitingForDetached) && old(activeDetached) <= {l});
                && spans == (if Top(tree, l) then Finished(tree, old(spans), l, true) else Unregister(tree, Finished(tree, old(spans), l, true), l))
                && Tally(tree, old(spans), l, true, old(calls), calls)
                && activeDetached == (if Top(tree, l) then old(activeDetached) - {l} else old(activeDetached))
                && waitingForDetached == ((l == 0 || old(waitingForDetached)) && !flush)
                && Flushes(calls) == Flushes(old(calls)) + (if flush then 1 else 0)
                && (flush ==> calls != [] && calls[|calls| - 1] == BaseFlush)
      ensures DoneKeeps(tree, old(spans), spans, l, late, old(activeDetached), activeDetached)
      ensures !Top(tree, l) ==>
                && DoneEffect(tree, old(spans), spans, l, true, late, old(calls), calls)
                && DoneExactly(tree, old(spans), spans, l, true, old(calls), calls)
                && old(activeDetached) <= activeDetached
    {
      hide Finished, Tally, Frame, VisitedAll, Ready, DoneKeeps, Fair, Speech, Count;
      DoneImpl(l, true);
    }

    method AddMyselfAsDependent(l: nat) returns (firstDependent: bool)
      requires Valid() && l < |tree|
      modifies this`spans, this`activeDetached
      ensures Valid()
      ensures l == 0 ==> !firstDependent && spans == old(spans) && activeDetached == old(activeDetached)
      ensures tree[l].detached ==> !firstDependent && spans == old(spans) && activeDetached == old(activeDetached) + {l}
      ensures !Top(tree, l) ==>
                && activeDetached == old(activeDetached)
                && var p := tree[l].parent;
                   && spans == old(spans)[p := old(spans)[p].(deps := old(spans)[p].deps + {l})]
                   && firstDependent == (spans[p].deps == {l})
    {
      if l == 0 {
        return false;
      }
      if tree[l].detached {
        activeDetached := activeDetached + {l};
        return false;
      }
      var p := tree[l].parent;
      spans := spans[p := spans[p].(deps := spans[p].deps + {l})];
      firstDependent := |spans[p].deps| == 1;
      OnlyOne(spans[p].deps, l);
    }

    /** hasActivity(false): marks `l` active and registers it, upward while it is a first dependent. */
    method Reactivate(l: nat)
      requires Valid() && l < |tree|
      modifies this`spans, this`activeDetached
      ensures Valid()
      ensures Raised(old(spans), spans) && spans[l].active
      ensures forall x: nat :: l < x < |tree| ==> spans[x] == old(spans)[x]
      ensures spans[l].deps == old(spans)[l].deps
      ensures old(activeDetached) <= activeDetached
      ensures old(spans[l].active) ==> spans == old(spans) && activeDetached == old(activeDetached)
      ensures forall x: nat :: x < |tree| ==> UpAt(tree, old(spans), spans, l, x)
      ensures KeepsTied(old(spans), spans) && Known(tree, old(spans), spans, activeDetached)
      ensures Climbs(tree, old(spans), spans, l, old(activeDetached), activeDetached)
      ensures Top(tree, l) && !old(spans[l].active) ==>
                spans == old(spans)[l := old(spans[l]).(active := true)] && activeDetached == old(activeDetached) + (if l == 0 then {} else {l})
      decreases l
    {
      hide KeepsTied, Known, UpAt, Raised, Climbs;
      ghost var s0, d0 := spans, activeDetached;
      var was := spans[l].active;
      spans := spans[l := spans[l].(active := true)];
      if !was {
        var first := AddMyselfAsDependent(l);
        ghost var mid, d1 := spans, activeDetached;
        if first {
          Reactivate(tree[l].parent);
        }
        WakeUp(tree, s0, mid, spans, l, first);
        WakeKeeps(tree, s0, mid, spans, l, first, activeDetached);
        WakeClimbs(tree, s0, mid, spans, l, first, d0, d1, activeDetached);
      } else {
        assert spans == s0;
        NothingWoken(tree, s0, activeDetached);
      }
    }

    /** hasActivity(true): called by everything that logs. */
    method HasActivity(l: nat)
      requires Valid() && l < |tree|
      modifies this
      ensures Valid() && tree == old(tree) && Grew(old(calls), calls)
      ensures old(spans[l].active) ==>
                spans == old(spans) && calls == old(calls) && activeDetached == old(activeDetached) && waitingForDetached == old(waitingForDetached)
      ensures !old(spans[l].active) ==> Finals(old(calls), l) < Finals(calls, l)
      ensures !old(spans[l].active) && old(spans[l].doneCount) > 0 ==> Count(old(calls), BaseLine(l, UsedAgain)) < Count(calls, BaseLine(l, UsedAgain))
      ensures Fair(old(spans), spans, old(calls), calls, l, 0, 0) && Speech(calls) == Speech(old(calls))
      ensures !Top(tree, l) ==> Frame(tree, old(spans), spans, l) && Flushes(calls) == Flushes(old(calls))
      ensures !Top(tree, l) ==> old(activeDetached) <= activeDetached
      ensures !Top(tree, l) ==> Side(tree, old(spans), spans, l)
      ensures !Top(tree, l) && !old(spans[l].active) && old(spans[tree[l].parent].deps) <= {l} ==> spans[tree[l].parent].active
      ensures ActivityKeeps(tree, old(spans), spans, l, old(activeDetached), activeDetached)
      decreases if Top(tree, l) then 1 else 0, |tree| - l, 2, if spans[l].active then 0 else 1, 0
    {
      hide Tally, Outside, Visited, Clean, Ready, Finished, Passes, StaleUnder, ExactDone, DoneExactly, Quiet, Finals, Interims, Flushes, ActivityKeeps, Enlisted, KeepsTied, Known, Fair, Speech, Chatter, Count, Alarm, Stirred, Once;
      ghost var s0, d0, c0 := spans, activeDetached, calls;
      var was := spans[l].active;
      Reactivate(l);
      FairStill(s0, spans, calls, l);
      if was {
        ActivityQuiet(tree, spans, spans, l, activeDetached);
        return;
      }
      ghost var raised, d1 := spans, activeDetached;
      flushActive := true;
      if spans[l].doneCount != 0 {
        ErrorMsg(l, UsedAgain);
      }
      ghost var before, c1 := spans, calls;
      DoneImpl(l, false);
      FairUsed(s0, raised, before, spans, c0, c1, calls, l);
      if !Top(tree, l) {
        assert UpAt(tree, old(spans), raised, l, l) && !InSub(tree, l, tree[l].parent);
        RaisedFrame(tree, old(spans), raised, l);
        QuietFrame(tree, raised, before, l);
        FrameTrans(tree, old(spans), raised, before, l);
        FrameTrans(tree, old(spans), before, spans, l);
        SideRaised(tree, old(spans), raised, l);
        SideQuiet(tree, raised, before, l);
        SideTrans(tree, old(spans), raised, before, l);
        SideTrans(tree, old(spans), before, spans, l);
      }
      ActivityDone(tree, s0, raised, before, spans, l, d0, d1, late, activeDetached);
    }

    /** The counting half of notBoring: both counters, and what the base loggers hear of it. */
    method MarkNotBoring(l: nat) returns (first: bool)
      requires Valid() && l < |tree|
      modifies this`spans, this`calls
      ensures Valid() && Grew(old(calls), calls)
      ensures Muttered()
      ensures spans == Stirred(old(spans), l) && calls == old(calls) + Alarm(old(spans), l)
      ensures Speech(calls) == Speech(old(calls))
      ensures first == (old(spans[l].boring) == 0)
    {
      hide Finals, Interims, Flushes, Chatter, Speech;
      spans := spans[l := spans[l].(boring := spans[l].boring + 1)];
      first := spans[l].boring == 1;
      if first {
        Tell(BaseBoring(l, false));
        spans := spans[0 := spans[0].(boring := spans[0].boring + 1)];
        if spans[0].boring == 1 {
          Tell(BaseBoring(0, false));
        }
      }
    }

    method NotBoring(l: nat)
      requires Valid() && l < |tree|
      modifies this
      ensures Valid() && tree == old(tree) && Grew(old(calls), calls)
      ensures old(spans[l].active) ==> Muttered() && spans == Stirred(old(spans), l) && calls == old(calls) + Alarm(old(spans), l)
      ensures Fair(old(spans), spans, old(calls), calls, l, 1, 0) && Speech(calls) == Speech(old(calls))
      ensures !Top(tree, l) ==> Frame(tree, old(spans), spans, l) && Flushes(calls) == Flushes(old(calls))
      ensures !Top(tree, l) ==> old(activeDetached) <= activeDetached
      ensures !Top(tree, l) ==> Side(tree, old(spans), spans, l)
      ensures !Top(tree, l) && !old(spans[l].active) && old(spans[tree[l].parent].deps) <= {l} ==> spans[tree[l].parent].active || !spans[l].active
      ensures ActivityKeeps(tree, old(spans), spans, l, old(activeDetached), activeDetached)
      decreases if Top(tree, l) then 1 else 0, |tree| - l, 2, if spans[l].active then 0 else 1, 1
    {
      hide Fair, Stirred, Alarm, Count, Chatter, Speech;
      ghost var d := activeDetached;
      FairAlarm(spans, calls, l);
      var first := MarkNotBoring(l);
      ghost var mid, told := spans, calls;
      ActivityQuiet(tree, old(spans), mid, l, d);
      QuietFrame(tree, old(spans), mid, l);
      SideQuiet(tree, old(spans), mid, l);
      if first {
        HasActivity(l);
        FairTrans(old(spans), mid, spans, old(calls), told, calls, l, 1, 0, 0, 0);
        ActivityTrans(tree, old(spans), mid, spans, l, d, d, activeDetached);
        if !Top(tree, l) {
          FrameTrans(tree, old(spans), mid, spans, l);
          SideTrans(tree, old(spans), mid, spans, l);
        }
      }
    }

    /** logger.Error().Msg(...), called by the program or by the logger on itself. */
    method ErrorMsg(l: nat, text: Text)
      requires Valid() && l < |tree|
      modifies this
      ensures Valid() && tree == old(tree) && Grew(old(calls), calls)
      ensures old(spans[l].active) ==>
                Muttered() && spans == Stirred(old(spans), l) && calls == old(calls) + Alarm(old(spans), l) + [BaseLine(l, text)]
      ensures old(spans[l].active) ==> spans[l].active
      ensures !text.Plain? ==> Fair(old(spans), spans, old(calls), calls, l, 0, if Complains(text) then 1 else 0)
      ensures Speech(calls) == Speech(old(calls)) + Unless(Complains(text), BaseLine(l, text))
      ensures Count(old(calls), BaseLine(l, text)) < Count(calls, BaseLine(l, text))
      ensures !Top(tree, l) ==> Frame(tree, old(spans), spans, l) && Flushes(calls) == Flushes(old(calls))
      ensures !Top(tree, l) ==> old(activeDetached) <= activeDetached
      ensures !Top(tree, l) ==> Side(tree, old(spans), spans, l)
      ensures !Top(tree, l) && !old(spans[l].active) && old(spans[tree[l].parent].deps) <= {l} ==> spans[tree[l].parent].active
      ensures ActivityKeeps(tree, old(spans), spans, l, old(activeDetached), activeDetached)
      decreases if Top(tree, l) then 1 else 0, |tree| - l, 2, if spans[l].active then 0 else 1, 2
    {
      hide Fair, Stirred, Alarm, Count, Chatter, Speech;
      NotBoring(l);
      ghost var c1 := calls;
      Tell(BaseLine(l, text));
      ghost var mid, d, c2 := spans, activeDetached, calls;
      HasActivity(l);
      FairError(old(spans), mid, spans, old(calls), c1, calls, l, text);
      ActivityTrans(tree, old(spans), mid, spans, l, old(activeDetached), d, activeDetached);
      if !Top(tree, l) {
        FrameTrans(tree, old(spans), mid, spans, l);
        SideTrans(tree, old(spans), mid, spans, l);
        assert !InSub(tree, l, tree[l].parent);
        if !old(spans[l].active) && old(spans[tree[l].parent].deps) <= {l} {
          ParentDeps(tree, old(spans), mid, l);
        }
      }
    }

    /** Since the start of the method only lines and boring marks were added. */
    twostate predicate Muttered()
      reads this
    {
      && SameButBoring(old(spans), spans)
      && OnlyLines(old(calls), calls)
      && activeDetached == old(activeDetached)
      && waitingForDetached == old(waitingForDetached)
    }

    /** The first half of recursiveDone: `l` itself. */
    method MarkDone(l: nat, final: bool) returns (postCount: nat)
      requires Valid() && l < |tree|
      modifies this`spans, this`calls
      ensures Valid() && Grew(old(calls), calls) && Flushes(calls) == Flushes(old(calls))
      ensures Chatter(calls) == Chatter(old(calls)) && Speech(calls) == Speech(old(calls))
      ensures Fair(old(spans), spans, old(calls), calls, l, 0, if final then 0 - Once(old(spans[l].doneCount)) else 0)
      ensures postCount == if final then old(spans[l].doneCount) + 1 else 0
      ensures spans == old(spans)[l := Retire(old(spans[l]), final).(deps := old(spans[l].deps))]
      ensures forall x: nat :: Finals(calls, x) == Finals(old(calls), x) + (if final && x == l then 1 else 0)
      ensures forall x: nat :: Interims(calls, x) == Interims(old(calls), x) + (if x == l && !final && old(spans[l].active) then 1 else 0)
    {
      hide Count, Chatter, Speech, Fair;
      postCount := 0;
      if final {
        postCount := spans[l].doneCount + 1;
        spans := spans[l := spans[l].(active := false, doneCount := spans[l].doneCount + 1)];
        FairFinal(old(spans), spans, calls, l);
        Told(calls, BaseDone(l, true));
        Tell(BaseDone(l, true));
      } else {
        var was := spans[l].active;
        spans := spans[l := spans[l].(active := false)];
        if was {
          FairInterim(old(spans), spans, calls, BaseDone(l, false), l);
          Told(calls, BaseDone(l, false));
          Tell(BaseDone(l, false));
        } else {
          FairStill(old(spans), spans, calls, l);
        }
      }
    }

    /** Any dependent that is still to be visited, `late` only when it is the last one. */
    method PickDependent(todo: set<nat>) returns (d: nat)
      requires todo != {}
      ensures d in todo && (todo != {late} ==> d != late)
    {
      if todo - {late} == {} {
        d := late;
      } else {
        d :| d in todo - {late};
      }
    }

    method RecursiveDone(l: nat, final: bool) returns (postCount: nat)
      requires Valid() && l < |tree|
      modifies this
      ensures Valid() && tree == old(tree) && Grew(old(calls), calls)
      ensures postCount == if final then old(spans[l].doneCount) + 1 else 0
      ensures old(activeDetached) <= activeDetached
      ensures final ==> Finals(old(calls), l) < Finals(calls, l)
      ensures !final && old(spans[l].active) ==> Interims(old(calls), l) < Interims(calls, l)
      ensures Fair(old(spans), spans, old(calls), calls, l, 0, if final then 0 - Once(old(spans[l].doneCount)) else 0)
      ensures Speech(calls) == Speech(old(calls))
      ensures RecursiveEffect(tree, old(spans), spans, l, final, late, old(calls), calls)
      ensures RecursiveKeeps(tree, old(spans), spans, l, final, old(activeDetached), activeDetached)
      ensures Clean(tree, old(spans), l, final) ==>
                && ExactDone(tree, old(spans), spans, l, final, old(calls), calls)
                && activeDetached == old(activeDetached) && waitingForDetached == old(waitingForDetached)
      decreases 0, |tree| - l, 0, 0, 0
    {
      hide Loop, LoopKeeps, RecursiveEffect, RecursiveKeeps, ExactDone, Clean, Ready, DoneEffect, DoneExactly, DoneKeeps, Finals, Interims, TreeOk, Count, Frame, Fair, Speech, Chatter;
      ghost var s0, c0, d0, due := spans, calls, activeDetached, if final then 0 - Once(spans[l].doneCount) else 0;
      postCount := MarkDone(l, final);
      ghost var marked := calls;
      LoopStart(tree, s0, spans, l, final, late, c0, calls);
      LoopKeepsStart(tree, s0, spans, l, final, activeDetached);
      ghost var clean := Clean(tree, s0, l, final);
      var todo := spans[l].deps;
      while todo != {}
        invariant Valid() && tree == old(tree) && old(activeDetached) <= activeDetached && todo <= s0[l].deps
        invariant Grew(c0, marked) && Grew(marked, calls)
        invariant Fair(s0, spans, c0, calls, l, 0, due) && Speech(calls) == Speech(c0)
        invariant Loop(tree, s0, spans, l, final, todo, late, c0, calls)
        invariant LoopKeeps(tree, s0, spans, l, todo, d0, activeDetached)
        invariant clean ==> activeDetached == old(activeDetached) && waitingForDetached == old(waitingForDetached)
      {
        var d := PickDependent(todo);
        ghost var s1, c1, d1 := spans, calls, activeDetached;
        DoneImpl(d, final);
        FairNext(s0, s1, spans, c0, c1, calls, l, due, d, if final then 0 else 0 - Once(s1[d].doneCount));
        LoopStep(tree, s0, s1, spans, l, final, todo, d, late, c0, c1, calls);
        DoneSides(tree, s1, spans, d, final, late, c1, calls);
        LoopKeepsStep(tree, s0, s1, spans, l, todo, d, late, d0, d1, activeDetached);
        todo := todo - {d};
      }
      LoopEnd(tree, s0, spans, l, final, late, c0, calls);
      LoopKeepsEnd(tree, s0, spans, l, final, late, d0, activeDetached, c0, calls);
    }

    /** logger.done: `explicit` when it stands for a call of Done. */
    method DoneImpl(l: nat, explicit: bool)
      requires Valid() && l < |tree|
      modifies this
      ensures Valid() && tree == old(tree) && Grew(old(calls), calls)
      ensures Fair(old(spans), spans, old(calls), calls, l, 0, if explicit then 0 else 0 - Once(old(spans[l].doneCount)))
      ensures Speech(calls) == Speech(old(calls))
      ensures explicit && old(spans[l].doneCount) > 0 ==> Count(old(calls), BaseLine(l, DoneAgain)) < Count(calls, BaseLine(l, DoneAgain))
      ensures VisitedAll(tree, old(spans), l, old(calls), calls)
      ensures !Top(tree, l) ==>
                && DoneEffect(tree, old(spans), spans, l, explicit, late, old(calls), calls)
                && DoneExactly(tree, old(spans), spans, l, explicit, old(calls), calls)
                && old(activeDetached) <= activeDetached
      ensures !Top(tree, l) && Ready(tree, old(spans), l) && (explicit ==> old(spans[l].doneCount) == 0) ==>
                activeDetached == old(activeDetached) && waitingForDetached == old(waitingForDetached)
      ensures Top(tree, l) && Ready(tree, old(spans), l) && (explicit ==> old(spans[l].doneCount) == 0)
                && (old(waitingForDetached) ==> l != 0 && Quiet(old(spans))) ==>
                var flush := if l == 0 then old(activeDetached) == {} else old(waitingForDetached) && old(activeDetached) <= {l};
                && ExactDone(tree, old(spans), spans, l, true, old(calls), calls)
                && activeDetached == old(activeDetached) - {l}
                && waitingForDetached == ((l == 0 || old(waitingForDetached)) && !flush)
                && Flushes(calls) == Flushes(old(calls)) + (if flush then 1 else 0)
                && (flush ==> calls != [] && calls[|calls| - 1] == BaseFlush)
      ensures DoneKeeps(tree, old(spans), spans, l, late, old(activeDetached), activeDetached)
      decreases if Top(tree, l) then 1 else 0, |tree| - l, if explicit then 3 else 1, 0, 0
    {
      hide DoneKeeps, RecursiveKeeps, ActivityKeeps, Flushed, Tally, Outside, Frame, Visited, VisitedAll, Clean, Ready, Finished, Side, Passes, StaleUnder, DoneEffect, RecursiveEffect, ExactDone, DoneExactly, Finals, Interims, Flushes, Quiet, InSub, Upward, UpAt, OnlyLines, SameButBoring, Fair, Speech, Chatter, Count, Alarm, Stirred, Once, Grew;
      if Ready(tree, spans, l) {
        ReadyIsClean(tree, spans, l);
      }
      ghost var s0, c0, d0 := spans, calls, activeDetached;
      var postCount := RecursiveDone(l, true);
      ghost var s1, c1, d1 := spans, calls, activeDetached;
      Untouched(tree, s1, l, d1);
      ghost var exact := Ready(tree, s0, l) && (explicit ==> s0[l].doneCount == 0);
      if exact && Top(tree, l) {
        FinishedQuiet(tree, s0, s1, l, c0, c1);
      }
      if postCount > 1 && explicit {
        ErrorMsg(l, DoneAgain);
      }
      ghost var s2, d2, c2 := spans, activeDetached, calls;
      if Top(tree, l) {
        Leave(l);
        Overheard(c0, c1, c2, calls);
        TopKept(tree, s0, s1, s2, spans, l, late, d0, d1, d2, c0, c1);
      } else {
        DoneKept(tree, s0, s1, s2, l, late, d0, d1, d2, c0, c1);
        var p := tree[l].parent;
        spans := spans[p := spans[p].(deps := spans[p].deps - {l})];
        Overheard(c0, c1, c2, calls);
        FairStill(s2, spans, calls, l);
        DoneTogether(tree, s0, s1, s2, l, explicit, late, c0, c1, calls);
        DoneExact(tree, s0, s1, spans, l, explicit, c0, c1, calls);
      }
      FairDone(s0, s1, s2, spans, c0, c1, c2, calls, l, explicit);
      RecursiveVisited(tree, s0, s1, l, late, c0, c1, calls);
      if exact && Top(tree, l) && (old(waitingForDetached) ==> l != 0 && Quiet(s0)) {
        ExactSettled(tree, s0, s1, l, c0, c1, calls);
      }
    }

    /** The end of done for a detached logger: the last one flushes a request that waits for it. */
    method LeaveDetached(l: nat)
      requires Valid() && l < |tree|
      modifies this
      ensures Valid() && tree == old(tree) && Grew(old(calls), calls)
      ensures Fair(old(spans), spans, old(calls), calls, l, 0, 0) && Speech(calls) == Speech(old(calls))
      ensures Flushed(old(spans), spans) && activeDetached == old(activeDetached) - {l}
      ensures (old(waitingForDetached) ==> Quiet(old(spans))) ==>
                Settled(old(waitingForDetached) && old(activeDetached) <= {l})
                && activeDetached == old(activeDetached) - {l}
                && waitingForDetached == (old(waitingForDetached) && !(old(activeDetached) <= {l}))
      decreases 0, |tree| + 2, 0, 0, 0
    {
      hide Finals, Interims, Fair, Speech, Chatter, Count, Flushed;
      FairStill(spans, spans, calls, l);
      Unflushed(spans);
      activeDetached := activeDetached - {l};
      if waitingForDetached && activeDetached == {} && spans[0].deps == {} {
        waitingForDetached := false;
        FlushDone();
        FairAny(old(spans), spans, old(calls), calls, 0, 0, l);
      }
    }

    /** The end of done for a logger that answers to no parent. */
    method Leave(l: nat)
      requires Valid() && l < |tree| && Top(tree, l)
      modifies this
      ensures Valid() && tree == old(tree) && Grew(old(calls), calls)
      ensures Fair(old(spans), spans, old(calls), calls, l, 0, 0) && Speech(calls) == Speech(old(calls))
      ensures Flushed(old(spans), spans) && activeDetached == old(activeDetached) - {l}
      ensures (old(waitingForDetached) ==> l != 0) && (l == 0 || old(waitingForDetached) ==> Quiet(old(spans))) ==>
                var flush := if l == 0 then old(activeDetached) == {} else old(waitingForDetached) && old(activeDetached) <= {l};
                && Settled(flush)
                && activeDetached == old(activeDetached) - {l}
                && waitingForDetached == ((l == 0 || old(waitingForDetached)) && !flush)
      decreases 0, |tree| + 2, 0, 0, 1
    {
      hide Fair, Speech, Chatter, Count;
      if tree[l].detached {
        LeaveDetached(l);
      } else {
        assert 0 !in activeDetached;
        LeaveRequest();
      }
    }

    /** The end of done for the request: flush now, or wait for the detached loggers. */
    method LeaveRequest()
      requires Valid()
      modifies this
      ensures Valid() && tree == old(tree) && Grew(old(calls), calls)
      ensures Fair(old(spans), spans, old(calls), calls, 0, 0, 0) && Speech(calls) == Speech(old(calls))
      ensures Flushed(old(spans), spans) && activeDetached == old(activeDetached)
      ensures Quiet(old(spans)) ==>
                Settled(old(activeDetached) == {})
                && activeDetached == old(activeDetached)
                && waitingForDetached == (old(activeDetached) != {} || old(waitingForDetached))
      decreases 0, |tree| + 2, 0, 0, 0
    {
      hide Finals, Interims, Fair, Speech, Chatter, Count, Flushed;
      FairStill(spans, spans, calls, 0);
      Unflushed(spans);
      if spans[0].deps != {} {
        return;
      }
      if activeDetached != {} {
        waitingForDetached := true;
        return;
      }
      FlushDone();
    }

    /** The flush of a request that is done with all its loggers. */
    method FlushDone()
      requires Valid() && spans[0].deps == {} && activeDetached == {}
      modifies this
      ensures Valid() && tree == old(tree) && Grew(old(calls), calls)
      ensures Fair(old(spans), spans, old(calls), calls, 0, 0, 0) && Speech(calls) == Speech(old(calls))
      ensures Flushed(old(spans), spans) && activeDetached == {} && waitingForDetached == old(waitingForDetached)
      ensures Quiet(old(spans)) ==> Settled(true)
      decreases 0, |tree| + 1, 1, 0, 0
    {
      hide Fair, Speech, Chatter, Count, AllClean, ToldAll, FlushRoots, FlushTally, Grew;
      ghost var s0, c0 := spans, calls;
      AloneFlush(tree, spans);
      assert activeDetached + {0} == {0};
      Flush();
      if Quiet(s0) {
        QuietFlush(tree, s0);
        QuietTally(tree, s0, c0, calls);
      }
    }

    /** Nothing happened but, when `flush`, one flush at the very end. */
    twostate predicate Settled(flush: bool)
      reads this
    {
      && spans == old(spans)
      && Chatter(calls) == Chatter(old(calls))
      && (forall x: nat :: Finals(calls, x) == Finals(old(calls), x) && Interims(calls, x) == Interims(old(calls), x))
      && Flushes(calls) == Flushes(old(calls)) + (if flush then 1 else 0)
      && (flush ==> calls != [] && calls[|calls| - 1] == BaseFlush)
    }

    method Flush()
      requires Valid()
      modifies this
      ensures Valid() && tree == old(tree) && Grew(old(calls), calls)
      ensures Flushes(calls) == Flushes(old(calls)) + 1 && calls != [] && calls[|calls| - 1] == BaseFlush
      ensures Fair(old(spans), spans, old(calls), calls, 0, 0, 0) && Speech(calls) == Speech(old(calls))
      ensures ToldAll(tree, old(spans), old(activeDetached) + {0}, old(calls), calls)
      ensures AllClean(tree, old(spans), old(activeDetached) + {0}) ==>
                && ExactFlush(tree, old(spans), spans, old(activeDetached) + {0}, old(calls), calls)
                && activeDetached == old(activeDetached) && waitingForDetached == old(waitingForDetached)
      ensures Stale(tree, old(spans), old(activeDetached) + {0}, late) ==> spans[tree[late].parent].active
      ensures KeepsTied(old(spans), spans) && Emptied(spans, old(activeDetached) + {0})
      decreases 0, |tree| + 1, 0, 0, 0
    {
      hide Tally, Outside, Visited, Clean, Ready, Finished, ToldAll, FlushTally, FlushProgress, ExactFlush, ExactDone, RecursiveEffect, RecursiveKeeps, KeepsTied, Emptied, StaleSoFar, Fair, Speech, Chatter, Count;
      ghost var s0, c0, roots := spans, calls, activeDetached;
      DetachedDone();
      ghost var s1, c1, d1 := spans, calls, activeDetached;
      var _ := RecursiveDone(0, false);
      FlushStep(tree, s0, s1, spans, roots + {0}, roots, 0, late, c0, c1, calls);
      FlushKeeps(tree, s0, s1, spans, roots, 0, false, late, d1, activeDetached, c1, calls);
      if AllClean(tree, s0, roots + {0}) {
        assert AllClean(tree, s0, roots);
        ExactFlushStep(tree, s0, s1, spans, roots, 0, c0, c1, calls);
      }
      flushActive := false;
      FairTrans(s0, s1, spans, c0, c1, calls, 0, 0, 0, 0, 0);
      FairInterim(spans, spans, calls, BaseFlush, 0);
      FairTrans(s0, spans, spans, c0, calls, calls + [BaseFlush], 0, 0, 0, 0, 0);
      StaleFlushEnd(tree, s0, spans, roots + {0}, late);
      FlushEnd(tree, s0, spans, roots + {0}, c0, calls);
      Tell(BaseFlush);
    }

    method DetachedDone()
      requires Valid()
      modifies this
      ensures Valid() && tree == old(tree)
      ensures Fair(old(spans), spans, old(calls), calls, 0, 0, 0) && Speech(calls) == Speech(old(calls))
      ensures FlushProgress(tree, old(spans), spans, old(activeDetached), old(calls), calls)
      ensures AllClean(tree, old(spans), old(activeDetached)) ==>
                && ExactFlush(tree, old(spans), spans, old(activeDetached), old(calls), calls)
                && activeDetached == old(activeDetached) && waitingForDetached == old(waitingForDetached)
      ensures StaleSoFar(tree, old(spans), spans, old(activeDetached) + {0}, old(activeDetached), late)
      ensures KeepsTied(old(spans), spans) && Emptied(spans, old(activeDetached))
      decreases 0, |tree| + 1, 0, 0, -1
    {
      ghost var s0, c0 := spans, calls;
      hide FlushProgress, ExactFlush, RecursiveEffect, RecursiveKeeps, KeepsTied, Emptied, ExactDone, StaleSoFar, AllClean, FlushRoots, Fair, Speech, Chatter, Count;
      FairStill(spans, spans, calls, 0);
      ghost var handled: set<nat> := {};
      ghost var clean := AllClean(tree, s0, activeDetached);
      var todo := activeDetached;
      FlushStart(tree, s0, activeDetached + {0}, late, c0);
      NothingHandled(s0);
      while todo != {}
        invariant Valid() && tree == old(tree)
        invariant handled !! todo && handled + todo == old(activeDetached)
        invariant Fair(s0, spans, c0, calls, 0, 0, 0) && Speech(calls) == Speech(c0)
        invariant FlushProgress(tree, s0, spans, handled, c0, calls)
        invariant StaleSoFar(tree, s0, spans, old(activeDetached) + {0}, handled, late)
        invariant KeepsTied(s0, spans) && Emptied(spans, handled)
        invariant clean ==>
                    && ExactFlush(tree, s0, spans, handled, c0, calls)
                    && activeDetached == old(activeDetached) && waitingForDetached == old(waitingForDetached)
      {
        var d :| d in todo;
        ghost var s1, c1, d1 := spans, calls, activeDetached;
        var _ := RecursiveDone(d, false);
        FairNext(s0, s1, spans, c0, c1, calls, 0, 0, d, 0);
        FlushStep(tree, s0, s1, spans, old(activeDetached) + {0}, handled, d, late, c0, c1, calls);
        FlushKeeps(tree, s0, s1, spans, handled, d, false, late, d1, activeDetached, c1, calls);
        if clean {
          CleanMember(tree, s0, old(activeDetached), d);
          ExactFlushStep(tree, s0, s1, spans, handled, d, c0, c1, calls);
        }
        todo := todo - {d};
        handled := handled + {d};
      }
    }
  }
}
