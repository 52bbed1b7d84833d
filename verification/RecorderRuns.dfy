/** Any run of the recorder, replayed. */
module RecorderRuns {
  import opened Options
  import opened RecorderLines
  import opened Recorder
  import opened RecorderReplay
  import opened RecorderOps
  import opened RecorderFacts

  /** Started lines are unfinished, sound, and counted in the provisional end times. */
  ghost predicate LinesOk(started: seq<LineRec>, provisional: seq<int>) {
    forall n: nat :: n < |started| ==> LineOk(started[n], provisional)
  }

  predicate LineOk(l: LineRec, provisional: seq<int>) {
    && Sound(l.b) && l.span < |provisional| && l.ts <= provisional[l.span]
    && l == Started(l.span, l.level, l.ts, l.stack, l.message, l.b)
  }

  ghost predicate Tracks(log: Logger, started: seq<LineRec>, r: Run)
    reads log
  {
    && log.Valid() && r == Run(log.events, started, log.endTime, log.provisional) && LinesOk(started, log.provisional)
  }

  lemma LinesLater(started: seq<LineRec>, a: seq<int>, b: seq<int>)
    requires LinesOk(started, a) && |a| <= |b| && forall i :: 0 <= i < |a| ==> a[i] <= b[i]
    ensures LinesOk(started, b)
  {
  }

  method Apply(log: Logger, started: seq<LineRec>, op: Op, ghost r: Run) returns (more: seq<LineRec>)
    requires Tracks(log, started, r) && Allowed(r, op)
    modifies log
    ensures Tracks(log, more, Step(r, op, log.show))
  {
    hide Timed, AllFitting, Fold, LinesOk, Sound, Complete;
    more := started;
    ghost var was := log.provisional;
    match op {
      case NewRequest(info) => var _ := log.Request(info);
      case NewSpan(p, info) => var _ := log.Span(p, info);
      case Done(i, t, final) => log.Done(i, t, final);
      case Flush(i) => log.Flush(i);
      case SetMetadata(i, m) => log.Metadata(i, m);
      case Custom(msg) => log.Custom(msg);
      case StartLine(i, level, ts, stack, prefill, data) =>
        var l := log.Line(i, level, ts, stack, prefill, PutAll(EMPTY, data));
        EmptySound();
        PutAllSound(EMPTY, data);
        LinesLater(started, was, log.provisional);
        OneMore(started, l, log.provisional);
        more := started + [l];
      case EndLine(n, data, e) =>
        OneOk(started, n, log.provisional);
        var l := started[n];
        PutAllSound(l.b, data);
        FinishedComplete(l.span, l.level, l.ts, l.stack, l.message, PutAll(l.b, data), e, log.show);
        log.Send(l.(b := PutAll(l.b, data)), e);
    }
    if !op.StartLine? {
      LinesLater(started, was, log.provisional);
    }
  }

  lemma EmptySound()
    ensures Sound(EMPTY)
  {
  }

  lemma OneMore(started: seq<LineRec>, l: LineRec, provisional: seq<int>)
    requires LinesOk(started, provisional) && LineOk(l, provisional)
    ensures LinesOk(started + [l], provisional)
  {
  }

  lemma OneOk(started: seq<LineRec>, n: nat, provisional: seq<int>)
    requires LinesOk(started, provisional) && n < |started|
    ensures LineOk(started[n], provisional)
  {
  }

  // ---- When the copy is the same -----------------------------------------------------

  predicate Holds(l: LineRec, data: seq<Datum>) {
    l.b == PutAll(EMPTY, data) && AllTyped(data)
  }

  ghost predicate AllHold(lines: seq<LineRec>, data: seq<seq<Datum>>) {
    |lines| == |data| && forall n :: 0 <= n < |data| ==> Holds(lines[n], data[n])
  }

  ghost predicate Within(lines: seq<LineRec>, size: nat) {
    forall n :: 0 <= n < |lines| ==> lines[n].span < size
  }

  /** Lines hold what the calls gave them. */
  ghost predicate Follows(r: Run, begun: seq<seq<Datum>>, sent: seq<seq<Datum>>) {
    && |r.endTime| == |r.provisional| == |Fold(r.events).all|
    && AllHold(r.started, begun) && Within(r.started, |r.provisional|) && AllHold(Fold(r.events).lines, sent)
  }

  lemma HoldSnoc(lines: seq<LineRec>, data: seq<seq<Datum>>, l: LineRec, d: seq<Datum>)
    requires AllHold(lines, data) && Holds(l, d)
    ensures AllHold(lines + [l], data + [d])
  {
  }

  lemma EndFollows(r: Run, begun: seq<seq<Datum>>, sent: seq<seq<Datum>>, n: nat, more: seq<Datum>, e: Ender, show: Value -> string)
    requires Follows(r, begun, sent) && n < |begun| && AllTyped(more)
    ensures Follows(Step(r, EndLine(n, more, e), show), begun, sent + [begun[n] + more])
  {
    hide PutAll, Rendered, Fold, Effect;
    var l := r.started[n];
    var line := Finished(l.(b := PutAll(l.b, more)), e, show);
    assert Holds(l, begun[n]);
    PutAllAppend(EMPTY, begun[n], more);
    FoldSnoc(r.events, LineEvent(line));
    EffectSizes(Fold(r.events), LineEvent(line));
    HoldSnoc(Fold(r.events).lines, sent, line, begun[n] + more);
  }

  lemma StartFollows(r: Run, begun: seq<seq<Datum>>, sent: seq<seq<Datum>>, op: Op, show: Value -> string)
    requires Follows(r, begun, sent) && Allowed(r, op) && op.StartLine?
    ensures Follows(Step(r, op, show), begun + [op.data], sent)
  {
    hide PutAll, AllTyped, AllHold, Fold;
    HoldSnoc(r.started, begun, Started(op.span, op.level, op.ts, op.stack, op.prefill, PutAll(EMPTY, op.data)), op.data);
  }

  lemma StepFollows(r: Run, begun: seq<seq<Datum>>, sent: seq<seq<Datum>>, op: Op, show: Value -> string)
    requires Follows(r, begun, sent) && Allowed(r, op) && !op.EndLine? && !op.StartLine?
    ensures Follows(Step(r, op, show), begun, sent)
  {
    hide PutAll, AllTyped, AllHold, Fold, Effect;
    var e := EventOf(r, op, show).value;
    FoldSnoc(r.events, e);
    EffectSizes(Fold(r.events), e);
    assert Fold(r.events).lines + [] == Fold(r.events).lines;
  }

  lemma {:induction false} AfterFollows(ops: seq<Op>, show: Value -> string)
    requires WellUsed(ops, show)
    ensures Follows(After(ops, show), Begun(ops), Sent(ops))
  {
    hide Follows, Step, Allowed;
    if ops == [] {
      assert Follows(Run([], [], [], []), [], []) by { NothingSent(); }
    } else {
      var past, op := ops[..|ops| - 1], ops[|ops| - 1];
      AfterFollows(past, show);
      if op.EndLine? {
        assert op.line < |Begun(past)| && AllTyped(op.more) by { LineBegun(After(past, show), Begun(past), Sent(past), op); }
        EndFollows(After(past, show), Begun(past), Sent(past), op.line, op.more, op.ender, show);
      } else if op.StartLine? {
        StartFollows(After(past, show), Begun(past), Sent(past), op, show);
      } else {
        StepFollows(After(past, show), Begun(past), Sent(past), op, show);
      }
    }
  }

  lemma NothingSent()
    ensures Follows(Run([], [], [], []), [], [])
  {
  }

  lemma LineBegun(r: Run, begun: seq<seq<Datum>>, sent: seq<seq<Datum>>, op: Op)
    requires Follows(r, begun, sent) && Allowed(r, op) && op.EndLine?
    ensures op.line < |begun| && AllTyped(op.more)
  {
  }

  /** Replay changes no line exactly if no line has an enum attribute whose key was reused for another type. */
  lemma LinesSameExactly(ops: seq<Op>, show: Value -> string)
    requires WellUsed(ops, show)
    ensures var lines := Fold(After(ops, show).events).lines;
            && |lines| == |Sent(ops)| && (forall i :: 0 <= i < |lines| ==> lines[i].b == PutAll(EMPTY, Sent(ops)[i]))
            && (TidyLines(lines) == lines <==> forall i :: 0 <= i < |Sent(ops)| ==> !Reused(Sent(ops)[i]))
  {
    hide Fold, After, Sent, Begun, PutAll, Reused, Tidy, WellUsed, AllTyped;
    AfterFollows(ops, show);
    var lines, sent := Fold(After(ops, show).events).lines, Sent(ops);
    forall i | 0 <= i < |lines|
      ensures lines[i].b == PutAll(EMPTY, sent[i]) && (TidyLines(lines)[i] == lines[i] <==> !Reused(sent[i]))
    {
      assert Holds(lines[i], sent[i]);
      TidyExactly(sent[i]);
    }
    if TidyLines(lines) != lines {
      assert exists i :: 0 <= i < |lines| && TidyLines(lines)[i] != lines[i];
    }
  }

  predicate NoCustom(ops: seq<Op>) {
    forall i :: 0 <= i < |ops| ==> !ops[i].Custom?
  }

  lemma NoCustomSnoc(ops: seq<Op>, op: Op)
    ensures NoCustom(ops + [op]) <==> NoCustom(ops) && !op.Custom?
  {
    assert (ops + [op])[|ops|] == op && forall i :: 0 <= i < |ops| ==> (ops + [op])[i] == ops[i];
  }

  lemma StepCustom(r: Run, op: Op, show: Value -> string)
    ensures Customless(Step(r, op, show).events) <==> Customless(r.events) && !op.Custom?
  {
    hide Customless, Fold, PutAll, Finished;
    forall e
      ensures Customless(r.events + [e]) <==> Customless(r.events) && !e.CustomEvent?
    {
      CustomlessSnoc(r.events, e);
    }
  }

  lemma {:induction false} CustomFollows(ops: seq<Op>, show: Value -> string)
    ensures Customless(After(ops, show).events) <==> NoCustom(ops)
  {
    hide Customless, NoCustom, Step;
    if ops == [] {
      assert Customless([]) && NoCustom([]) by { NothingCustom(); }
    } else {
      var past, op := ops[..|ops| - 1], ops[|ops| - 1];
      CustomFollows(past, show);
      StepCustom(After(past, show), op, show);
      assert ops == past + [op];
      NoCustomSnoc(past, op);
    }
  }

  lemma NothingCustom()
    ensures Customless([]) && NoCustom([])
  {
  }

  lemma RunStart(log: Logger, show: Value -> string)
    requires log.Valid() && log.events == []
    ensures Tracks(log, [], After([], show))
  {
  }

  /** Whatever was recorded, in any order of calls: the replay succeeds and rebuilds it. */
  method RunAndReplay(ops: seq<Op>, show: Value -> string)
    returns (ok: bool, original: Record, events: seq<Event>, copy: Record, copied: seq<Event>, ends: seq<int>)
    requires WellUsed(ops, show) && DistinctIds(After(ops, show).events)
    ensures events == After(ops, show).events && original == Fold(events)
    ensures ok && copied == Kept(events) && ends == After(ops, show).endTime
    ensures copy == original.(lines := TidyLines(original.lines))
    ensures |original.lines| == |Sent(ops)| && forall i :: 0 <= i < |original.lines| ==> original.lines[i].b == PutAll(EMPTY, Sent(ops)[i])
    ensures copy == original <==> forall i :: 0 <= i < |Sent(ops)| ==> !Reused(Sent(ops)[i])
    ensures copied == events <==> copy == original && NoCustom(ops)
    ensures AsCalled(ops, original, show) && EventsAsCalled(ops, events, show)
    ensures |ends| == |original.all| && forall i: nat :: i < |ends| ==> EndOf(ops, i, ends[i])
  {
    hide WellUsed, After, Sent, PutAll, Reused, Kept, TidyLines, NoCustom, Customless, DistinctIds, Timed, AllFitting, Fold, LinesOk;
    hide AsCalled, EventsAsCalled, EndOf, Made;
    var log := new Logger(show);
    var started: seq<LineRec> := [];
    RunStart(log, show);
    assert ops[..0] == [];
    var k := 0;
    while k < |ops|
      invariant 0 <= k <= |ops| && fresh(log) && log.show == show
      invariant Tracks(log, started, After(ops[..k], show))
    {
      WellUsedPrefix(ops, k, show);
      started := Apply(log, started, ops[k], After(ops[..k], show));
      k := k + 1;
    }
    assert ops[..k] == ops;
    original, events := log.record, log.events;
    MadeAll(ops, show);
    MadeSays(ops, After(ops, show), show);
    LinesSameExactly(ops, show);
    KeptExactly(events, show);
    CustomFollows(ops, show);
    var dest;
    ok, dest := Replay(log);
    copy, copied, ends := dest.record, dest.events, dest.endTime;
  }
}
