/** The record of any calls holds what the calls say. */
module RecorderFacts {
  import opened Options
  import opened RecorderLines
  import opened Recorder
  import opened RecorderOps
  import opened RecorderReplay

  lemma SelectSnoc(ops: seq<Op>, op: Op, kind: Op -> bool)
    ensures Select(ops + [op], kind) == if kind(op) then Select(ops, kind) + [op] else Select(ops, kind)
  {
    assert (ops + [op])[..|ops|] == ops;
  }

  lemma ListsSnoc(xs: seq<nat>, s: set<nat>, n: nat)
    requires Lists(xs, s) && forall m :: m in s ==> m < n
    ensures Lists(xs + [n], s + {n})
  {
    forall i, j | 0 <= i < j < |xs + [n]|
      ensures (xs + [n])[i] < (xs + [n])[j]
    {
      assert j == |xs| ==> xs[i] in s;
    }
  }

  /** Calls name spans and lines that existed. */
  ghost predicate Ordered(creations: seq<Op>, starts: seq<Op>, ends: seq<Op>, sets: seq<Op>) {
    && (forall n :: 0 <= n < |creations| ==> Creates(creations[n]) && (creations[n].NewSpan? ==> creations[n].parent < n))
    && (forall n :: 0 <= n < |starts| ==> starts[n].StartLine? && starts[n].span < |creations|)
    && (forall n :: 0 <= n < |ends| ==> ends[n].EndLine? && ends[n].line < |starts|)
    && (forall n :: 0 <= n < |sets| ==> sets[n].SetMetadata? && sets[n].span < |creations|)
  }

  lemma {:induction false} NoMetadata(sets: seq<Op>, i: nat)
    requires forall n :: 0 <= n < |sets| ==> sets[n].SetMetadata? && sets[n].span < i
    ensures MetadataOf(sets, i) == []
  {
    if sets != [] {
      NoMetadata(sets[..|sets| - 1], i);
    }
  }

  lemma Fresh(creations: seq<Op>, starts: seq<Op>, ends: seq<Op>, sets: seq<Op>, op: Op, p: nat)
    requires Ordered(creations, starts, ends, sets) && Creates(op) && (op.NewSpan? ==> op.parent == p < |creations|) && (op.NewRequest? ==> p == |creations|)
    ensures SpanAsCalled(creations + [op], starts, ends, sets, SpanRec(op.info, op.NewRequest?, p, [], [], [], []), |creations|)
  {
    var n, more := |creations|, creations + [op];
    assert more[n] == op && forall m :: 0 <= m < n ==> more[m] == creations[m];
    NoMetadata(sets, n);
    assert ChildrenOf(more, n) == {} && LinesOf(starts, ends, n) == {} && LinksOf(starts, ends, n) == {};
  }

  lemma ChildrenSnoc(creations: seq<Op>, op: Op, p: nat)
    ensures ChildrenOf(creations + [op], p) == ChildrenOf(creations, p) + (if op.NewSpan? && op.parent == p then {|creations|} else {})
  {
    assert (creations + [op])[|creations|] == op && forall m :: 0 <= m < |creations| ==> (creations + [op])[m] == creations[m];
  }

  lemma KindsSnoc(creations: seq<Op>, op: Op)
    ensures RequestsAmong(creations + [op]) == RequestsAmong(creations) + (if op.NewRequest? then {|creations|} else {})
    ensures SpansAmong(creations + [op]) == SpansAmong(creations) + (if op.NewSpan? then {|creations|} else {})
  {
    assert (creations + [op])[|creations|] == op && forall m :: 0 <= m < |creations| ==> (creations + [op])[m] == creations[m];
  }

  lemma Older(creations: seq<Op>, starts: seq<Op>, ends: seq<Op>, sets: seq<Op>, op: Op, s: SpanRec, n: nat)
    requires SpanAsCalled(creations, starts, ends, sets, s, n) && Creates(op)
    ensures SpanAsCalled(creations + [op], starts, ends, sets,
                         if op.NewSpan? && op.parent == n then s.(spans := s.spans + [|creations|]) else s, n)
  {
    hide Lists, MetadataOf, LinesOf, LinksOf;
    assert (creations + [op])[n] == creations[n];
    ChildrenSnoc(creations, op, n);
    if op.NewSpan? && op.parent == n {
      ListsSnoc(s.spans, ChildrenOf(creations, n), |creations|);
    } else {
      assert ChildrenOf(creations, n) + {} == ChildrenOf(creations, n);
    }
  }

  lemma CreatedHolds(creations: seq<Op>, starts: seq<Op>, ends: seq<Op>, sets: seq<Op>, r: Record, op: Op, e: Event, show: Value -> string)
    requires Ordered(creations, starts, ends, sets) && Holding(creations, starts, ends, sets, r, show)
    requires match op
             case NewRequest(info) => e == RequestStart(info)
             case NewSpan(p, info) => e == SpanStart(p, info) && p < |r.all|
             case _ => false
    ensures Holding(creations + [op], starts, ends, sets, Effect(r, e), show)
  {
    hide SpanAsCalled, LineAsCalled, Lists;
    var t := Effect(r, e);
    var p := if op.NewSpan? then op.parent else |creations|;
    Fresh(creations, starts, ends, sets, op, p);
    forall n: nat | n < |t.all|
      ensures SpanAsCalled(creations + [op], starts, ends, sets, t.all[n], n)
    {
      if n < |r.all| {
        Older(creations, starts, ends, sets, op, r.all[n], n);
      }
    }
    KindsSnoc(creations, op);
    if op.NewRequest? {
      ListsSnoc(r.requests, RequestsAmong(creations), |creations|);
      assert SpansAmong(creations) + {} == SpansAmong(creations);
    } else {
      ListsSnoc(r.spans, SpansAmong(creations), |creations|);
      assert RequestsAmong(creations) + {} == RequestsAmong(creations);
    }
  }

  lemma StartedHolds(creations: seq<Op>, starts: seq<Op>, ends: seq<Op>, sets: seq<Op>, r: Record, op: Op, show: Value -> string)
    requires Ordered(creations, starts, ends, sets) && Holding(creations, starts, ends, sets, r, show)
    ensures Holding(creations, starts + [op], ends, sets, r, show)
  {
    hide Lists, MetadataOf, ChildrenOf;
    var more := starts + [op];
    assert forall m :: 0 <= m < |starts| ==> more[m] == starts[m];
    forall n: nat | n < |r.all|
      ensures SpanAsCalled(creations, more, ends, sets, r.all[n], n)
    {
      assert SpanAsCalled(creations, starts, ends, sets, r.all[n], n);
      assert forall m: nat :: m < |ends| ==> (EndedOn(more, ends[m], n) <==> EndedOn(starts, ends[m], n));
      assert LinesOf(more, ends, n) == LinesOf(starts, ends, n) && LinksOf(more, ends, n) == LinksOf(starts, ends, n);
    }
    forall n: nat | n < |r.lines|
      ensures LineAsCalled(more, ends[n], r.lines[n], show)
    {
      assert LineAsCalled(starts, ends[n], r.lines[n], show);
    }
  }

  lemma DescribedHolds(creations: seq<Op>, starts: seq<Op>, ends: seq<Op>, sets: seq<Op>, r: Record, op: Op, show: Value -> string)
    requires Holding(creations, starts, ends, sets, r, show) && op.SetMetadata? && op.span < |r.all|
    ensures Holding(creations, starts, ends, sets + [op], Effect(r, MetadataSet(op.span, op.meta)), show)
  {
    hide Lists, LineAsCalled, LinesOf, LinksOf, ChildrenOf;
    assert (sets + [op])[..|sets|] == sets;
    forall n: nat | n < |r.all|
      ensures SpanAsCalled(creations, starts, ends, sets, r.all[n], n)
      ensures MetadataOf(sets + [op], n) == MetadataOf(sets, n) + (if op.span == n then [op.meta] else [])
    {
    }
  }

  lemma LinesSnoc(starts: seq<Op>, ends: seq<Op>, op: Op, i: nat)
    requires op.EndLine? && forall n :: 0 <= n < |ends| ==> ends[n].EndLine?
    ensures LinesOf(starts, ends + [op], i) == LinesOf(starts, ends, i) + (if EndedOn(starts, op, i) then {|ends|} else {})
    ensures LinksOf(starts, ends + [op], i) == LinksOf(starts, ends, i) + (if EndedOn(starts, op, i) && op.ender.Link? then {|ends|} else {})
  {
    assert (ends + [op])[|ends|] == op && forall m :: 0 <= m < |ends| ==> (ends + [op])[m] == ends[m];
  }

  lemma EndedSpan(creations: seq<Op>, starts: seq<Op>, ends: seq<Op>, sets: seq<Op>, s: SpanRec, n: nat, op: Op)
    requires SpanAsCalled(creations, starts, ends, sets, s, n)
    requires op.EndLine? && forall m :: 0 <= m < |ends| ==> ends[m].EndLine?
    ensures EndedOn(starts, op, n) ==>
              SpanAsCalled(creations, starts, ends + [op], sets,
                           s.(lines := s.lines + [|ends|], links := if op.ender.Link? then s.links + [|ends|] else s.links), n)
    ensures !EndedOn(starts, op, n) ==> SpanAsCalled(creations, starts, ends + [op], sets, s, n)
  {
    hide Lists, MetadataOf, ChildrenOf, EndedOn;
    LinesSnoc(starts, ends, op, n);
    if EndedOn(starts, op, n) {
      ListsSnoc(s.lines, LinesOf(starts, ends, n), |ends|);
      if op.ender.Link? {
        ListsSnoc(s.links, LinksOf(starts, ends, n), |ends|);
      }
    }
    assert LinesOf(starts, ends, n) + {} == LinesOf(starts, ends, n) && LinksOf(starts, ends, n) + {} == LinksOf(starts, ends, n);
  }

  lemma EndedHolds(creations: seq<Op>, starts: seq<Op>, ends: seq<Op>, sets: seq<Op>, r: Record, op: Op, l: LineRec, show: Value -> string)
    requires Ordered(creations, starts, ends, sets) && Holding(creations, starts, ends, sets, r, show)
    requires LineAsCalled(starts, op, l, show)
    ensures Holding(creations, starts, ends + [op], sets, Effect(r, LineEvent(l)), show)
  {
    hide SpanAsCalled, Lists;
    var t := Effect(r, LineEvent(l));
    assert l.span < |r.all| && l.asLink.Some? == op.ender.Link?;
    forall n: nat | n < |t.all|
      ensures SpanAsCalled(creations, starts, ends + [op], sets, t.all[n], n)
    {
      EndedSpan(creations, starts, ends, sets, r.all[n], n, op);
    }
    forall n: nat | n < |t.lines|
      ensures LineAsCalled(starts, (ends + [op])[n], t.lines[n], show)
    {
    }
  }

  /** Lines started and not ended, as they were started. */
  ghost predicate Open(starts: seq<Op>, started: seq<LineRec>) {
    && |started| == |starts|
    && forall n :: 0 <= n < |starts| ==>
         var s := starts[n];
         s.StartLine? && started[n] == Started(s.span, s.level, s.ts, s.stack, s.prefill, PutAll(EMPTY, s.data))
  }

  lemma {:induction false} PutAllAppend(b: Builder, data: seq<Datum>, more: seq<Datum>)
    ensures PutAll(PutAll(b, data), more) == PutAll(b, data + more)
  {
    if more == [] {
      assert data + more == data;
    } else {
      PutAllAppend(b, data, more[..|more| - 1]);
      assert (data + more)[..|data + more| - 1] == data + more[..|more| - 1];
    }
  }

  // ---- Times -------------------------------------------------------------------------

  lemma DoneSinceSnoc(ops: seq<Op>, op: Op, k: nat, i: nat)
    requires k <= |ops|
    ensures DoneSince(ops + [op], k, i) <==> DoneSince(ops, k, i) || (op.Done? && op.span == i)
  {
    var more := ops + [op];
    assert more[|ops|] == op && forall m :: 0 <= m < |ops| ==> more[m] == ops[m];
  }

  lemma LatestSnoc(ops: seq<Op>, op: Op, i: nat, p: int)
    requires LatestFor(ops, i, p)
    ensures LatestFor(ops + [op], i, if TimeFor(op, i).Some? && TimeFor(op, i).value > p then TimeFor(op, i).value else p)
  {
    hide TimeFor;
    var more := ops + [op];
    assert more[|ops|] == op && forall m :: 0 <= m < |ops| ==> more[m] == ops[m];
    if p != 0 {
      var k: nat :| k < |ops| && TimeFor(ops[k], i) == Some(p);
      assert more[k] == ops[k];
    }
  }

  /** A Done takes over the latest time. */
  lemma EndDone(ops: seq<Op>, op: Op, i: nat, t: int, p: int)
    requires EndOf(ops, i, t) && LatestFor(ops + [op], i, p) && op.Done? && op.span == i && t <= p
    ensures EndOf(ops + [op], i, p)
  {
    hide TimeFor;
    var more := ops + [op];
    forall k: nat | k < |more|
      ensures DoneSince(more, k, i)
    {
      DoneSinceSnoc(ops, op, k, i);
    }
  }

  lemma EndOther(ops: seq<Op>, op: Op, i: nat, t: int)
    requires EndOf(ops, i, t) && !(op.Done? && op.span == i)
    ensures EndOf(ops + [op], i, t)
  {
    hide TimeFor, DoneSince;
    var more := ops + [op];
    forall k: nat | k < |more|
      ensures DoneSince(more, k, i) ==> k < |ops| && DoneSince(ops, k, i) && more[k] == ops[k]
      ensures k < |ops| && DoneSince(ops, k, i) ==> DoneSince(more, k, i)
    {
      DoneSinceSnoc(ops, op, k, i);
      if k == |ops| {
        NoneSince(ops, i);
      }
    }
    if t != 0 {
      var k: nat :| k < |ops| && DoneSince(ops, k, i) && TimeFor(ops[k], i) == Some(t);
      assert more[k] == ops[k];
    }
  }

  lemma NoneSince(ops: seq<Op>, i: nat)
    ensures !DoneSince(ops, |ops|, i)
  {
  }

  /** End times and provisional end times are those of the calls, and only existing spans were given times. */
  ghost predicate Timely(ops: seq<Op>, endTime: seq<int>, provisional: seq<int>) {
    && |endTime| == |provisional|
    && (forall i: nat :: i < |endTime| ==> endTime[i] <= provisional[i] && EndOf(ops, i, endTime[i]) && LatestFor(ops, i, provisional[i]))
    && forall k: nat, i: nat :: k < |ops| && i >= |endTime| ==> TimeFor(ops[k], i).None?
  }

  lemma Unborn(ops: seq<Op>, i: nat)
    requires forall k: nat :: k < |ops| ==> TimeFor(ops[k], i).None?
    ensures EndOf(ops, i, 0) && LatestFor(ops, i, 0)
  {
  }

  lemma TimelyAt(ops: seq<Op>, op: Op, i: nat, t: int, p: int)
    requires EndOf(ops, i, t) && LatestFor(ops, i, p) && t <= p
    ensures var p' := if TimeFor(op, i).Some? && TimeFor(op, i).value > p then TimeFor(op, i).value else p;
            LatestFor(ops + [op], i, p') && EndOf(ops + [op], i, if op.Done? && op.span == i then p' else t)
  {
    hide EndOf, LatestFor;
    LatestSnoc(ops, op, i, p);
    if op.Done? && op.span == i {
      EndDone(ops, op, i, t, if TimeFor(op, i).Some? && TimeFor(op, i).value > p then TimeFor(op, i).value else p);
    } else {
      EndOther(ops, op, i, t);
    }
  }

  lemma TimelyStep(ops: seq<Op>, op: Op, r: Run, show: Value -> string)
    requires Timely(ops, r.endTime, r.provisional) && Allowed(r, op) && |r.endTime| == |Fold(r.events).all|
    ensures Timely(ops + [op], Step(r, op, show).endTime, Step(r, op, show).provisional)
  {
    hide EndOf, LatestFor, Fold, Finished, PutAll;
    var s := Step(r, op, show);
    forall i: nat | i < |s.endTime|
      ensures s.endTime[i] <= s.provisional[i] && EndOf(ops + [op], i, s.endTime[i]) && LatestFor(ops + [op], i, s.provisional[i])
    {
      if i == |r.endTime| {
        Unborn(ops, i);
        TimelyAt(ops, op, i, 0, 0);
      } else {
        TimelyAt(ops, op, i, r.endTime[i], r.provisional[i]);
      }
    }
    forall k: nat, i: nat | k < |ops + [op]| && i >= |s.endTime|
      ensures TimeFor((ops + [op])[k], i).None?
    {
      assert k < |ops| ==> TimeFor(ops[k], i).None?;
    }
  }

  // ---- Events ------------------------------------------------------------------------

  lemma EventKept(creations: seq<Op>, starts: seq<Op>, op: Op, e: Event, c: seq<Op>, s: seq<Op>, show: Value -> string)
    requires EventAsCalled(creations, starts, op, e, show)
    ensures EventAsCalled(creations + c, starts + s, op, e, show)
  {
    hide PutAll, Rendered;
    assert forall n :: 0 <= n < |creations| ==> (creations + c)[n] == creations[n];
    assert forall n :: 0 <= n < |starts| ==> (starts + s)[n] == starts[n];
  }

  lemma EventsKept(ops: seq<Op>, events: seq<Event>, op: Op, show: Value -> string)
    requires EventsAsCalled(ops, events, show)
    ensures forall k :: 0 <= k < |events| ==>
              k < |Select(ops, Heard)| && EventAsCalled(Select(ops + [op], Creates), Select(ops + [op], Begins), Select(ops, Heard)[k], events[k], show)
  {
    hide EventAsCalled;
    SelectSnoc(ops, op, Creates);
    SelectSnoc(ops, op, Begins);
    forall k | 0 <= k < |events|
      ensures EventAsCalled(Select(ops + [op], Creates), Select(ops + [op], Begins), Select(ops, Heard)[k], events[k], show)
    {
      assert Select(ops, Creates) + [] == Select(ops, Creates) && Select(ops, Begins) + [] == Select(ops, Begins);
      EventKept(Select(ops, Creates), Select(ops, Begins), Select(ops, Heard)[k], events[k],
                if Creates(op) then [op] else [], if Begins(op) then [op] else [], show);
    }
  }

  lemma EventsSnoc(ops: seq<Op>, events: seq<Event>, op: Op, e: Event, show: Value -> string)
    requires EventsAsCalled(ops, events, show) && Heard(op)
    requires EventAsCalled(Select(ops + [op], Creates), Select(ops + [op], Begins), op, e, show)
    ensures EventsAsCalled(ops + [op], events + [e], show)
  {
    EventsKept(ops, events, op, show);
    hide EventAsCalled;
    SelectSnoc(ops, op, Heard);
  }

  lemma EventsSilent(ops: seq<Op>, events: seq<Event>, op: Op, show: Value -> string)
    requires EventsAsCalled(ops, events, show) && !Heard(op)
    ensures EventsAsCalled(ops + [op], events, show)
  {
    EventsKept(ops, events, op, show);
    hide EventAsCalled;
    SelectSnoc(ops, op, Heard);
  }

  // ---- All together ------------------------------------------------------------------

  /** A run so far and the calls that made it. */
  ghost predicate Made(ops: seq<Op>, r: Run, show: Value -> string) {
    && AsCalled(ops, Fold(r.events), show) && EventsAsCalled(ops, r.events, show)
    && Ordered(Select(ops, Creates), Select(ops, Begins), Select(ops, Ends), Select(ops, Describes))
    && Open(Select(ops, Begins), r.started)
    && Timely(ops, r.endTime, r.provisional) && |r.endTime| == |Fold(r.events).all|
  }

  lemma Selects(ops: seq<Op>, op: Op)
    ensures Select(ops + [op], Creates) == if Creates(op) then Select(ops, Creates) + [op] else Select(ops, Creates)
    ensures Select(ops + [op], Begins) == if Begins(op) then Select(ops, Begins) + [op] else Select(ops, Begins)
    ensures Select(ops + [op], Ends) == if Ends(op) then Select(ops, Ends) + [op] else Select(ops, Ends)
    ensures Select(ops + [op], Describes) == if Describes(op) then Select(ops, Describes) + [op] else Select(ops, Describes)
  {
    SelectSnoc(ops, op, Creates);
    SelectSnoc(ops, op, Begins);
    SelectSnoc(ops, op, Ends);
    SelectSnoc(ops, op, Describes);
  }

  lemma OrderedStep(ops: seq<Op>, op: Op, r: Run, show: Value -> string)
    requires Made(ops, r, show) && Allowed(r, op)
    ensures Ordered(Select(ops + [op], Creates), Select(ops + [op], Begins), Select(ops + [op], Ends), Select(ops + [op], Describes))
  {
    hide Select, EventsAsCalled, Timely, SpanAsCalled, Fold, Lists, LineAsCalled;
    Selects(ops, op);
  }

  /** The line that is ended holds what the calls gave it. */
  lemma EndedLine(starts: seq<Op>, started: seq<LineRec>, op: Op, show: Value -> string)
    requires Open(starts, started) && op.EndLine? && op.line < |starts|
    ensures LineAsCalled(starts, op, Finished(started[op.line].(b := PutAll(started[op.line].b, op.more)), op.ender, show), show)
  {
    hide PutAll, Rendered;
    PutAllAppend(EMPTY, starts[op.line].data, op.more);
  }

  lemma OpenStep(ops: seq<Op>, op: Op, r: Run, show: Value -> string)
    requires Made(ops, r, show) && Allowed(r, op)
    ensures Open(Select(ops + [op], Begins), Step(r, op, show).started)
  {
    hide Select, EventsAsCalled, AsCalled, Ordered, EndOf, LatestFor, PutAll, Fold, Finished;
    Selects(ops, op);
  }

  lemma StepEvents(ops: seq<Op>, op: Op, r: Run, show: Value -> string)
    requires Made(ops, r, show) && Allowed(r, op)
    ensures Heard(op) ==> EventOf(r, op, show).Some? && Step(r, op, show).events == r.events + [EventOf(r, op, show).value]
    ensures !Heard(op) ==> Step(r, op, show).events == r.events
  {
    hide AsCalled, EventsAsCalled, EndOf, LatestFor, PutAll, Fold, Finished, Open;
  }

  lemma NewEvent(ops: seq<Op>, op: Op, r: Run, show: Value -> string)
    requires Made(ops, r, show) && Allowed(r, op) && Heard(op)
    ensures EventOf(r, op, show).Some?
    ensures EventAsCalled(Select(ops + [op], Creates), Select(ops + [op], Begins), op, EventOf(r, op, show).value, show)
  {
    hide Select, EventsAsCalled, Timely, PutAll, Fold, Lists;
    Selects(ops, op);
    if op.EndLine? {
      EndedLine(Select(ops, Begins), r.started, op, show);
    } else if op.Done? {
      assert SpanAsCalled(Select(ops, Creates), Select(ops, Begins), Select(ops, Ends), Select(ops, Describes), Fold(r.events).all[op.span], op.span);
    }
  }

  lemma EventStep(ops: seq<Op>, op: Op, r: Run, show: Value -> string)
    requires Made(ops, r, show) && Allowed(r, op)
    ensures EventsAsCalled(ops + [op], Step(r, op, show).events, show)
  {
    hide Select, EventAsCalled, AsCalled, Ordered, Open, Timely, Step, EventOf, Allowed;
    StepEvents(ops, op, r, show);
    if Heard(op) {
      NewEvent(ops, op, r, show);
      EventsSnoc(ops, r.events, op, EventOf(r, op, show).value, show);
    } else {
      EventsSilent(ops, r.events, op, show);
    }
  }

  /** The effect of the event of a call. */
  lemma EffectHolds(ops: seq<Op>, op: Op, r: Run, show: Value -> string)
    requires Made(ops, r, show) && Allowed(r, op) && Heard(op) && EventOf(r, op, show).Some?
    ensures AsCalled(ops + [op], Effect(Fold(r.events), EventOf(r, op, show).value), show)
  {
    Selects(ops, op);
    hide Select, EventsAsCalled, Timely, PutAll, Fold, Effect, Holding, Ordered, Finished, LineAsCalled, Open;
    var c, s, e, m := Select(ops, Creates), Select(ops, Begins), Select(ops, Ends), Select(ops, Describes);
    var was := Fold(r.events);
    match op {
      case NewRequest(info) => CreatedHolds(c, s, e, m, was, op, RequestStart(info), show);
      case NewSpan(p, info) => CreatedHolds(c, s, e, m, was, op, SpanStart(p, info), show);
      case SetMetadata(_, _) => DescribedHolds(c, s, e, m, was, op, show);
      case EndLine(_, _, _) =>
        SameStarts(s, r.started);
        EndedLine(s, r.started, op, show);
        assert EventOf(r, op, show).value.LineEvent?;
        EndedHolds(c, s, e, m, was, op, EventOf(r, op, show).value.line, show);
      case Done(_, _, _) => NoEffect(was, EventOf(r, op, show).value);
      case Flush(_) => NoEffect(was, EventOf(r, op, show).value);
      case Custom(_) => NoEffect(was, EventOf(r, op, show).value);
      case StartLine(_, _, _, _, _, _) =>
    }
  }

  lemma SameStarts(starts: seq<Op>, started: seq<LineRec>)
    requires Open(starts, started)
    ensures |started| == |starts|
  {
  }

  lemma NoEffect(r: Record, e: Event)
    requires e.RequestDone? || e.SpanDone? || e.Flushed? || e.CustomEvent?
    ensures Effect(r, e) == r
  {
  }

  lemma RecordStep(ops: seq<Op>, op: Op, r: Run, show: Value -> string)
    requires Made(ops, r, show) && Allowed(r, op)
    ensures AsCalled(ops + [op], Fold(Step(r, op, show).events), show)
  {
    StepEvents(ops, op, r, show);
    hide Select, EventsAsCalled, Timely, PutAll, Fold, Holding, Ordered, Finished, Step, Allowed, EventOf, Effect;
    if Heard(op) {
      EffectHolds(ops, op, r, show);
      FoldSnoc(r.events, EventOf(r, op, show).value);
    } else {
      Selects(ops, op);
      StartedHolds(Select(ops, Creates), Select(ops, Begins), Select(ops, Ends), Select(ops, Describes), Fold(r.events), op, show);
    }
  }

  lemma SizeStep(ops: seq<Op>, op: Op, r: Run, show: Value -> string)
    requires Made(ops, r, show) && Allowed(r, op)
    ensures |Step(r, op, show).endTime| == |Fold(Step(r, op, show).events).all|
  {
    hide AsCalled, EventsAsCalled, EndOf, LatestFor, PutAll, Fold, Finished, Open, Ordered;
    StepEvents(ops, op, r, show);
    if Heard(op) {
      FoldSnoc(r.events, EventOf(r, op, show).value);
    }
  }

  lemma MadeStep(ops: seq<Op>, op: Op, r: Run, show: Value -> string)
    requires Made(ops, r, show) && Allowed(r, op)
    ensures Made(ops + [op], Step(r, op, show), show)
  {
    hide AsCalled, EventsAsCalled, Ordered, Open, Timely, Fold, Step, Allowed, Select;
    RecordStep(ops, op, r, show);
    SizeStep(ops, op, r, show);
    EventStep(ops, op, r, show);
    OrderedStep(ops, op, r, show);
    OpenStep(ops, op, r, show);
    TimelyStep(ops, op, r, show);
  }

  /** Every run of calls records what the calls say. */
  lemma {:induction false} MadeAll(ops: seq<Op>, show: Value -> string)
    requires WellUsed(ops, show)
    ensures Made(ops, After(ops, show), show)
  {
    hide Made, Step, Allowed;
    if ops == [] {
      NothingMade(show);
    } else {
      var past, op := ops[..|ops| - 1], ops[|ops| - 1];
      MadeAll(past, show);
      MadeStep(past, op, After(past, show), show);
      assert past + [op] == ops;
    }
  }

  lemma NothingMade(show: Value -> string)
    ensures Made([], Run([], [], [], []), show)
  {
    assert RequestsAmong([]) == {} && SpansAmong([]) == {};
  }

  lemma MadeSays(ops: seq<Op>, r: Run, show: Value -> string)
    requires Made(ops, r, show)
    ensures AsCalled(ops, Fold(r.events), show) && EventsAsCalled(ops, r.events, show)
    ensures |r.endTime| == |Fold(r.events).all| && forall i: nat :: i < |r.endTime| ==> EndOf(ops, i, r.endTime[i])
  {
  }
}
