/** Replaying a recording into a fresh recorder (xoprecorder/replay.go). */
module RecorderReplay {
  import opened Options
  import opened RecorderLines
  import opened Recorder

  function KeptOf(e: Event): seq<Event> {
    match e
    case CustomEvent(_) => []
    case LineEvent(l) => [LineEvent(Tidied(l))]
    case _ => [e]
  }

  /** The events without the custom ones, and without stale enum attributes in lines. */
  function Kept(events: seq<Event>): seq<Event> {
    if events == [] then [] else Kept(Init(events)) + KeptOf(Last(events))
  }

  function TidyLines(lines: seq<LineRec>): seq<LineRec> {
    seq(|lines|, i requires 0 <= i < |lines| => Tidied(lines[i]))
  }

  function TidyRecord(r: Record): Record {
    r.(lines := TidyLines(r.lines))
  }

  /** An event that is kept does the same to a record with tidy lines. */
  lemma KeptEffect(r: Record, e: Event)
    ensures match e
      case CustomEvent(_) => TidyRecord(Effect(r, e)) == TidyRecord(r)
      case LineEvent(l) => TidyRecord(Effect(r, e)) == Effect(TidyRecord(r), LineEvent(Tidied(l)))
      case _ => TidyRecord(Effect(r, e)) == Effect(TidyRecord(r), e)
  {
    hide Tidy;
    if e.LineEvent? {
      assert TidyLines(r.lines + [e.line]) == TidyLines(r.lines) + [Tidied(e.line)];
    }
  }

  lemma FoldSnoc(events: seq<Event>, e: Event)
    ensures Fold(events + [e]) == Effect(Fold(events), e)
  {
    assert Init(events + [e]) == events;
  }

  /** What is kept amounts to the same record. */
  lemma {:induction false} KeptFold(events: seq<Event>)
    ensures Fold(Kept(events)) == TidyRecord(Fold(events))
  {
    hide Effect, Tidied;
    if events == [] {
      assert TidyLines([]) == [];
    } else {
      KeptFold(Init(events));
      var r, e := Fold(Init(events)), Last(events);
      KeptEffect(r, e);
      if e.CustomEvent? {
        assert Kept(Init(events)) + [] == Kept(Init(events));
      } else {
        FoldSnoc(Kept(Init(events)), KeptOf(e)[0]);
      }
    }
  }

  lemma TidyLinesSnoc(lines: seq<LineRec>, l: LineRec)
    ensures TidyLines(lines + [l]) == lines + [l] <==> TidyLines(lines) == lines && Tidied(l) == l
  {
    hide Tidied;
    var more, n := lines + [l], |lines|;
    assert TidyLines(more) == TidyLines(lines) + [Tidied(l)];
    assert more[..n] == lines && (TidyLines(lines) + [Tidied(l)])[..n] == TidyLines(lines);
    assert more[n] == l && (TidyLines(lines) + [Tidied(l)])[n] == Tidied(l);
  }

  lemma EffectSizes(r: Record, e: Event)
    ensures |Effect(r, e).all| == |r.all| + (if e.RequestStart? || (e.SpanStart? && e.parent < |r.all|) then 1 else 0)
    ensures Effect(r, e).lines == r.lines + (if e.LineEvent? && e.line.span < |r.all| then [e.line] else [])
  {
  }

  predicate Customless(events: seq<Event>) {
    forall i :: 0 <= i < |events| ==> !events[i].CustomEvent?
  }

  lemma CustomlessSnoc(events: seq<Event>, e: Event)
    ensures Customless(events + [e]) <==> Customless(events) && !e.CustomEvent?
  {
    assert (events + [e])[|events|] == e && forall i :: 0 <= i < |events| ==> (events + [e])[i] == events[i];
  }

  lemma SnocEqual(a: seq<Event>, b: seq<Event>, e: Event, d: Event)
    ensures a + [d] == b + [e] <==> a == b && d == e
  {
    if a + [d] == b + [e] {
      assert |a + [d]| == |b + [e]|;
      assert a == (a + [d])[..|a|] && b == (b + [e])[..|a|];
      assert (a + [d])[|a|] == d && (b + [e])[|b|] == e;
    }
  }

  /** Replay repeats the same events exactly if there are no custom ones and it changes no line. */
  lemma {:induction false} KeptExactly(events: seq<Event>, show: Value -> string)
    requires AllFitting(events, show)
    ensures |Kept(events)| <= |events|
    ensures Kept(events) == events <==> Customless(events) && TidyLines(Fold(events).lines) == Fold(events).lines
  {
    hide Tidied, Complete, TidyLines, Effect, Customless;
    if events == [] {
      assert TidyLines([]) == [] && Customless([]) by { NoEvents(); }
    } else {
      var past, e := Init(events), Last(events);
      KeptExactly(past, show);
      assert events == past + [e];
      EffectSizes(Fold(past), e);
      CustomlessSnoc(past, e);
      if e.LineEvent? {
        TidyLinesSnoc(Fold(past).lines, e.line);
        SnocEqual(Kept(past), past, e, LineEvent(Tidied(e.line)));
      } else if e.CustomEvent? {
        assert Kept(events) == Kept(past) + [];
      } else {
        SnocEqual(Kept(past), past, e, e);
        assert Fold(past).lines + [] == Fold(past).lines;
      }
    }
  }

  lemma NoEvents()
    ensures TidyLines([]) == [] && Customless([])
  {
  }

  function StartOf(e: Event): Option<Info> {
    if e.RequestStart? || e.SpanStart? then Some(e.info) else None
  }

  function Ids(events: seq<Event>): set<nat> {
    if events == [] then {}
    else Ids(Init(events)) + (if StartOf(Last(events)).Some? then {StartOf(Last(events)).value.id} else {})
  }

  predicate DistinctIds(events: seq<Event>) {
    events == [] ||
    (DistinctIds(Init(events)) && (StartOf(Last(events)).Some? ==> StartOf(Last(events)).value.id !in Ids(Init(events))))
  }

  /** With distinct span IDs the index finds every span. */
  ghost predicate Indexed(r: Record) {
    forall i: nat :: i < |r.all| ==> r.all[i].info.id in r.index && r.index[r.all[i].info.id] == i
  }

  lemma {:induction false} FoldIndexed(events: seq<Event>, show: Value -> string)
    requires AllFitting(events, show) && DistinctIds(events)
    ensures Indexed(Fold(events)) && Fold(events).index.Keys == Ids(events)
  {
    hide Last, Complete;
    if events != [] {
      FoldIndexed(Init(events), show);
      var r, e := Fold(Init(events)), Last(events);
      assert forall i: nat :: i < |r.all| ==> r.all[i].info.id in Ids(Init(events));
    }
  }

  /** Spans keep what they were created with. */
  ghost predicate Grown(r: Record, s: Record) {
    |r.all| <= |s.all| && forall i: nat :: i < |r.all| ==> s.all[i].info == r.all[i].info && s.all[i].isRequest == r.all[i].isRequest
  }

  lemma {:induction false} FoldGrows(events: seq<Event>, k: nat)
    requires k <= |events|
    ensures Grown(Fold(events[..k]), Fold(events))
  {
    if k < |events| {
      assert Init(events)[..k] == events[..k];
      FoldGrows(Init(events), k);
    } else {
      assert events[..k] == events;
    }
  }

  lemma {:induction false} Prefixes(events: seq<Event>, k: nat, show: Value -> string, t: seq<int>)
    requires AllFitting(events, show) && DistinctIds(events) && TimesOk(events, t) && k <= |events|
    ensures AllFitting(events[..k], show) && DistinctIds(events[..k]) && TimesOk(events[..k], t)
  {
    if k < |events| {
      assert Init(events)[..k] == events[..k];
      Prefixes(Init(events), k, show, t);
    } else {
      assert events[..k] == events;
    }
  }

  /** The maps of the replay find the copies, which have the positions of the originals. */
  ghost predicate Found(r: Record, requests: map<nat, nat>, spans: map<nat, nat>) {
    forall i: nat :: i < |r.all| ==>
      var id := r.all[i].info.id;
      && id in spans && spans[id] == i
      && (r.all[i].isRequest ==> id in requests && requests[id] == i)
  }

  lemma FoundNew(past: seq<Event>, e: Event, requests: map<nat, nat>, spans: map<nat, nat>, show: Value -> string)
    requires AllFitting(past + [e], show) && DistinctIds(past + [e]) && StartOf(e).Some? && Found(Fold(past), requests, spans)
    ensures var id, n := e.info.id, |Fold(past).all|;
            Found(Fold(past + [e]), if e.RequestStart? then requests[id := n] else requests, spans[id := n])
  {
    hide Fold, AllFitting, Ids, Init, Complete;
    Extend(past, e, show);
    FoldIndexed(past, show);
  }

  lemma FoundOther(past: seq<Event>, e: Event, requests: map<nat, nat>, spans: map<nat, nat>, show: Value -> string)
    requires StartOf(e).None? && Found(Fold(past), requests, spans)
    ensures Found(Fold(past + [e]), requests, spans)
  {
    Extend(past, e, show);
  }

  /** So far the copy has the final end time of every span that was done, and nothing later. */
  ghost predicate TimesMirrored(past: seq<Event>, final: seq<int>, endTime: seq<int>, provisional: seq<int>) {
    |endTime| == |provisional| <= |final| && forall i: nat :: i < |endTime| ==>
      && endTime[i] == (if DoneIn(past, i) then final[i] else 0)
      && provisional[i] <= Max(final[i], LastLine(past, i))
  }

  lemma MirrorNew(past: seq<Event>, e: Event, final: seq<int>, endTime: seq<int>, provisional: seq<int>, show: Value -> string)
    requires AllFitting(past, show) && |endTime| == |Fold(past).all| < |final| && StartOf(e).Some? && (forall i :: 0 <= i < |final| ==> final[i] >= 0)
    requires TimesMirrored(past, final, endTime, provisional)
    ensures TimesMirrored(past + [e], final, endTime + [0], provisional + [0])
  {
    hide AllFitting, Fold, DoneIn, LastLine;
    NothingYet(past, |endTime|, show);
    Extend(past, e, show);
  }

  lemma MirrorSame(past: seq<Event>, e: Event, final: seq<int>, endTime: seq<int>, provisional: seq<int>, show: Value -> string)
    requires StartOf(e).None? && !e.LineEvent? && DoneOf(e).None? && TimesMirrored(past, final, endTime, provisional)
    ensures TimesMirrored(past + [e], final, endTime, provisional)
  {
    hide AllFitting, Fold, DoneIn, LastLine;
    Extend(past, e, show);
  }

  lemma MirrorLine(past: seq<Event>, l: LineRec, final: seq<int>, endTime: seq<int>, provisional: seq<int>, show: Value -> string)
    requires TimesMirrored(past, final, endTime, provisional) && l.span < |endTime|
    ensures TimesMirrored(past + [LineEvent(l)], final, endTime, provisional[l.span := Max(provisional[l.span], l.ts)])
  {
    hide AllFitting, Fold, DoneIn, LastLine;
    Extend(past, LineEvent(l), show);
  }

  lemma MirrorDone(past: seq<Event>, e: Event, final: seq<int>, endTime: seq<int>, provisional: seq<int>, show: Value -> string)
    requires DoneOf(e).Some? && TimesMirrored(past, final, endTime, provisional) && TimesOk(past + [e], final)
    requires e.span < |endTime| && final[e.span] >= 0
    ensures var p := Max(provisional[e.span], final[e.span]);
            TimesMirrored(past + [e], final, endTime[e.span := Max(endTime[e.span], p)], provisional[e.span := p])
  {
    hide AllFitting, Fold, DoneIn, LastLine;
    Extend(past, e, show);
  }

  /** The copy after `past` was replayed into it. */
  ghost predicate Mirror(past: seq<Event>, final: seq<int>, dest: Logger, requests: map<nat, nat>, spans: map<nat, nat>)
    reads dest
  {
    && dest.Valid() && dest.events == Kept(past)
    && Found(Fold(past), requests, spans) && TimesMirrored(past, final, dest.endTime, dest.provisional)
  }

  lemma KeptNext(past: seq<Event>, e: Event)
    ensures Kept(past + [e]) == Kept(past) + KeptOf(e)
  {
    assert Init(past + [e]) == past;
  }

  lemma SameSpans(past: seq<Event>)
    ensures Fold(Kept(past)).all == Fold(past).all
  {
    KeptFold(past);
  }

  method ReplayLine(l: LineRec, ghost past: seq<Event>, ghost final: seq<int>, dest: Logger, id: nat, requests: map<nat, nat>, spans: map<nat, nat>)
    returns (ok: bool)
    requires Mirror(past, final, dest, requests, spans)
    requires Complete(l, dest.show) && l.span < |Fold(past).all| && id == Fold(past).all[l.span].info.id
    modifies dest
    ensures ok && Mirror(past + [LineEvent(l)], final, dest, requests, spans)
  {
    hide Complete, AllFitting, Fold, Timed, TimesMirrored, TimesOk;
    SameSpans(past);
    FoundAt(past, l.span, requests, spans);
    if id !in spans {
      return false;
    }
    var line := dest.Line(spans[id], l.level, l.ts, l.stack, "", EMPTY);
    SoundOf(l, dest.show);
    var good, b := ReplayLineData(l.b);
    if !good {
      return false;
    }
    line := line.(b := b);
    LineRoundTrip(l, dest.show);
    TidiedComplete(l, dest.show);
    MirrorLine(past, l, final, old(dest.endTime), old(dest.provisional), dest.show);
    dest.Send(line, EnderOf(l));
    KeptNext(past, LineEvent(l));
    FoundOther(past, LineEvent(l), requests, spans, dest.show);
    ok := true;
  }

  lemma SoundOf(l: LineRec, show: Value -> string)
    requires Complete(l, show)
    ensures Sound(l.b)
  {
  }

  lemma TidiedComplete(l: LineRec, show: Value -> string)
    requires Complete(l, show)
    ensures Complete(Tidied(l), show)
  {
    TidySound(l.b);
  }

  lemma FoundAt(past: seq<Event>, i: nat, requests: map<nat, nat>, spans: map<nat, nat>)
    requires Found(Fold(past), requests, spans) && i < |Fold(past).all|
    ensures var id := Fold(past).all[i].info.id;
            id in spans && spans[id] == i && (Fold(past).all[i].isRequest ==> id in requests && requests[id] == i)
  {
  }

  /** Replaying one event does to the copy what the event did to the original. */
  method ReplayEvent(source: Logger, ghost past: seq<Event>, e: Event, dest: Logger, requests: map<nat, nat>, spans: map<nat, nat>)
    returns (ok: bool, moreRequests: map<nat, nat>, moreSpans: map<nat, nat>)
    requires source != dest && Mirror(past, source.endTime, dest, requests, spans)
    requires AllFitting(past + [e], dest.show) && DistinctIds(past + [e]) && TimesOk(past + [e], source.endTime)
    requires Grown(Fold(past + [e]), source.record) && |source.endTime| == |source.record.all|
    requires forall i :: 0 <= i < |source.endTime| ==> source.endTime[i] >= 0
    modifies dest
    ensures ok && Mirror(past + [e], source.endTime, dest, moreRequests, moreSpans)
  {
    hide Complete, AllFitting, Fold, Timed, TimesMirrored, TimesOk, Effect, Found, Kept, DistinctIds, Init, LastLine;
    ok, moreRequests, moreSpans := true, requests, spans;
    ghost var final := source.endTime;
    ghost var endTime, provisional := dest.endTime, dest.provisional;
    SameSpans(past);
    KeptNext(past, e);
    Extend(past, e, dest.show);
    EffectGrows(Fold(past), e);
    if StartOf(e).None? {
      FoundOther(past, e, requests, spans, dest.show);
    } else {
      FoundNew(past, e, requests, spans, dest.show);
      MirrorNew(past, e, final, endTime, provisional, dest.show);
    }
    match e {
      case CustomEvent(_) =>
        MirrorSame(past, e, final, endTime, provisional, dest.show);
      case RequestStart(info) =>
        var r := dest.Request(info);
        moreRequests, moreSpans := requests[info.id := r], spans[info.id := r];
      case SpanStart(p, info) =>
        FoundAt(past, p, requests, spans);
        var id := source.record.all[p].info.id;
        if id in spans {
          var n := dest.Span(spans[id], info);
          moreSpans := spans[info.id := n];
        }
      case RequestDone(i, done) =>
        FoundAt(past, i, requests, spans);
        var id := source.record.all[i].info.id;
        if id !in requests {
          ok := false;
          return;
        }
        MirrorDone(past, e, final, endTime, provisional, dest.show);
        dest.Done(requests[id], source.endTime[i], done);
      case SpanDone(i, done) =>
        FoundAt(past, i, requests, spans);
        var id := source.record.all[i].info.id;
        if id !in spans {
          ok := false;
          return;
        }
        MirrorDone(past, e, final, endTime, provisional, dest.show);
        dest.Done(spans[id], source.endTime[i], done);
      case Flushed(i) =>
        FoundAt(past, i, requests, spans);
        var id := source.record.all[i].info.id;
        if id !in requests {
          ok := false;
          return;
        }
        MirrorSame(past, e, final, endTime, provisional, dest.show);
        dest.Flush(requests[id]);
      case LineEvent(l) =>
        ok := ReplayLine(l, past, final, dest, source.record.all[l.span].info.id, requests, spans);
      case MetadataSet(i, m) =>
        FoundAt(past, i, requests, spans);
        var id := source.record.all[i].info.id;
        if id !in spans {
          ok := false;
          return;
        }
        MirrorSame(past, e, final, endTime, provisional, dest.show);
        dest.Metadata(spans[id], m);
    }
  }

  lemma EffectGrows(r: Record, e: Event)
    ensures Grown(r, Effect(r, e))
    ensures StartOf(e).Some? && (e.SpanStart? ==> e.parent < |r.all|) ==> |Effect(r, e).all| == |r.all| + 1
  {
  }

  /** Replaying a recording with distinct span IDs never fails, and the copy has the same events (custom ones
      and stale enum attributes aside), the same end times, and hence the same spans, lines and metadata. */
  method Replay(source: Logger) returns (ok: bool, dest: Logger)
    requires source.Valid() && DistinctIds(source.events)
    ensures ok && fresh(dest) && dest.Valid() && dest.show == source.show
    ensures dest.events == Kept(source.events) && dest.endTime == source.endTime
    ensures dest.record == source.record.(lines := TidyLines(source.record.lines))
  {
    hide Complete, AllFitting, Fold, TimesMirrored, TimesOk, Effect, Found, Kept, DistinctIds, DoneIn, LastLine;
    dest := new Logger(source.show);
    var requests: map<nat, nat>, spans: map<nat, nat> := map[], map[];
    var events := source.events;
    MirrorStart(source.endTime, dest);
    var k := 0;
    while k < |events|
      invariant 0 <= k <= |events| && fresh(dest) && dest.show == source.show
      invariant Mirror(events[..k], source.endTime, dest, requests, spans)
    {
      assert events[..k + 1] == events[..k] + [events[k]];
      Prefixes(events, k + 1, dest.show, source.endTime);
      FoldGrows(events, k + 1);
      ok, requests, spans := ReplayEvent(source, events[..k], events[k], dest, requests, spans);
      if !ok {
        return;
      }
      k := k + 1;
    }
    assert events[..k] == events;
    ok := true;
    KeptFold(events);
    MirrorEnd(events, source.endTime, dest.endTime, dest.provisional, source.provisional);
  }

  lemma MirrorStart(final: seq<int>, dest: Logger)
    requires dest.Valid() && dest.events == []
    ensures Mirror([], final, dest, map[], map[])
  {
  }

  lemma MirrorEnd(events: seq<Event>, final: seq<int>, endTime: seq<int>, provisional: seq<int>, p: seq<int>)
    requires TimesMirrored(events, final, endTime, provisional) && |endTime| == |final| && Timed(events, final, p)
    ensures endTime == final
  {
  }
}
