/** The recording base logger and its replay (xoprecorder/recorder.go, xoprecorder/replay.go). */
module Recorder {
  import opened Options
  import opened RecorderLines

  /** What a request or span is created with; bundles are named by their span ID. */
  datatype Info = Info(id: nat, start: int, name: string, code: string)

  datatype Meta = Meta(attribute: string, value: Value)

  /** An event refers to a span by its position in the order of creation and carries what never changes
      of the objects it points to; end times do change and are looked up when an event is replayed. */
  datatype Event =
    | RequestStart(info: Info)
    | SpanStart(parent: nat, info: Info)
    | RequestDone(span: nat, final: bool)
    | SpanDone(span: nat, final: bool)
    | Flushed(span: nat)
    | LineEvent(line: LineRec)
    | MetadataSet(span: nat, meta: Meta)
    | CustomEvent(msg: string)

  datatype SpanRec = SpanRec(info: Info, isRequest: bool, parent: nat, spans: seq<nat>, lines: seq<nat>, links: seq<nat>, metadata: seq<Meta>)

  /** Everything that is recorded except events and times. */
  datatype Record = Record(all: seq<SpanRec>, requests: seq<nat>, spans: seq<nat>, lines: seq<LineRec>, index: map<nat, nat>)

  function Init(events: seq<Event>): seq<Event>
    requires events != []
  {
    events[..|events| - 1]
  }

  function Last(events: seq<Event>): Event
    requires events != []
  {
    events[|events| - 1]
  }

  /** The effect of one event on the record. */
  function Effect(r: Record, e: Event): Record {
    match e
    case RequestStart(info) =>
      Record(r.all + [SpanRec(info, true, |r.all|, [], [], [], [])], r.requests + [|r.all|], r.spans, r.lines, r.index[info.id := |r.all|])
    case SpanStart(p, info) =>
      if p < |r.all| then
        Record(r.all[p := r.all[p].(spans := r.all[p].spans + [|r.all|])] + [SpanRec(info, false, p, [], [], [], [])],
               r.requests, r.spans + [|r.all|], r.lines, r.index[info.id := |r.all|])
      else r
    case LineEvent(l) =>
      if l.span < |r.all| then
        var s := r.all[l.span];
        var n := |r.lines|;
        r.(all := r.all[l.span := s.(lines := s.lines + [n], links := if l.asLink.Some? then s.links + [n] else s.links)],
           lines := r.lines + [l])
      else r
    case MetadataSet(i, m) =>
      if i < |r.all| then r.(all := r.all[i := r.all[i].(metadata := r.all[i].metadata + [m])]) else r
    case _ => r
  }

  /** What a list of events amounts to. */
  function Fold(events: seq<Event>): Record {
    if events == [] then Record([], [], [], [], map[]) else Effect(Fold(Init(events)), Last(events))
  }

  function DoneOf(e: Event): Option<nat> {
    if e.RequestDone? || e.SpanDone? then Some(e.span) else None
  }

  /** An event only refers to spans of the right kind that exist, and lines are complete. */
  predicate Fitting(r: Record, e: Event, show: Value -> string) {
    match e
    case RequestStart(_) => true
    case SpanStart(p, _) => p < |r.all|
    case RequestDone(i, _) => i < |r.all| && r.all[i].isRequest
    case SpanDone(i, _) => i < |r.all| && !r.all[i].isRequest
    case Flushed(i) => i < |r.all| && r.all[i].isRequest
    case LineEvent(l) => l.span < |r.all| && Complete(l, show)
    case MetadataSet(i, _) => i < |r.all|
    case CustomEvent(_) => true
  }

  predicate AllFitting(events: seq<Event>, show: Value -> string) {
    events == [] || (AllFitting(Init(events), show) && Fitting(Fold(Init(events)), Last(events), show))
  }

  /** The latest line of a span, not before time zero. */
  function LastLine(events: seq<Event>, i: nat): int {
    if events == [] then 0
    else
      var t := LastLine(Init(events), i);
      var e := Last(events);
      if e.LineEvent? && e.line.span == i && e.line.ts > t then e.line.ts else t
  }

  predicate DoneIn(events: seq<Event>, i: nat) {
    events != [] && (DoneIn(Init(events), i) || DoneOf(Last(events)) == Some(i))
  }

  /** A span never ends before a line that was sent before it was done. */
  predicate TimesOk(events: seq<Event>, endTime: seq<int>) {
    events == [] ||
    (TimesOk(Init(events), endTime) &&
     var d := DoneOf(Last(events)); d.Some? ==> d.value < |endTime| && LastLine(Init(events), d.value) <= endTime[d.value])
  }

  lemma {:induction false} TimesLater(events: seq<Event>, a: seq<int>, b: seq<int>)
    requires TimesOk(events, a) && |a| <= |b| && forall i :: 0 <= i < |a| ==> a[i] <= b[i]
    ensures TimesOk(events, b)
  {
    if events != [] {
      TimesLater(Init(events), a, b);
    }
  }

  lemma Extend(events: seq<Event>, e: Event, show: Value -> string)
    ensures Init(events + [e]) == events && Last(events + [e]) == e
    ensures Fold(events + [e]) == Effect(Fold(events), e)
    ensures AllFitting(events + [e], show) <==> AllFitting(events, show) && Fitting(Fold(events), e, show)
    ensures forall i: nat :: DoneIn(events + [e], i) <==> DoneIn(events, i) || DoneOf(e) == Some(i)
    ensures forall i: nat :: LastLine(events + [e], i) ==
              if e.LineEvent? && e.line.span == i && e.line.ts > LastLine(events, i) then e.line.ts else LastLine(events, i)
    ensures forall t :: TimesOk(events + [e], t) <==>
              TimesOk(events, t) && (DoneOf(e).Some? ==> DoneOf(e).value < |t| && LastLine(events, DoneOf(e).value) <= t[DoneOf(e).value])
  {
    assert Init(events + [e]) == events;
  }

  /** End times cover the lines sent before Done, provisional ones all lines. */
  ghost predicate Timed(events: seq<Event>, endTime: seq<int>, provisional: seq<int>) {
    && |endTime| == |provisional|
    && TimesOk(events, endTime)
    && forall i: nat :: i < |endTime| ==>
         && 0 <= endTime[i] && (!DoneIn(events, i) ==> endTime[i] == 0)
         && 0 <= provisional[i] && LastLine(events, i) <= provisional[i]
  }

  lemma TimedNew(events: seq<Event>, e: Event, endTime: seq<int>, provisional: seq<int>, show: Value -> string)
    requires Timed(events, endTime, provisional) && AllFitting(events, show) && |Fold(events).all| == |endTime|
    requires e.RequestStart? || e.SpanStart?
    ensures Timed(events + [e], endTime + [0], provisional + [0])
  {
    hide AllFitting, Fold, Effect, TimesOk, DoneIn, LastLine;
    NothingYet(events, |endTime|, show);
    Extend(events, e, show);
    TimesLater(events, endTime, endTime + [0]);
  }

  function Max(a: int, b: int): int { if a >= b then a else b }

  lemma TimedDone(events: seq<Event>, e: Event, i: nat, t: int, endTime: seq<int>, provisional: seq<int>, show: Value -> string)
    requires Timed(events, endTime, provisional) && DoneOf(e) == Some(i) && i < |endTime|
    ensures var p := provisional[i := Max(provisional[i], t)]; Timed(events + [e], endTime[i := Max(endTime[i], p[i])], p)
  {
    hide AllFitting, Fold, Effect, TimesOk, DoneIn, LastLine;
    Extend(events, e, show);
    var p := provisional[i := Max(provisional[i], t)];
    TimesLater(events, endTime, endTime[i := Max(endTime[i], p[i])]);
  }

  lemma TimedLine(events: seq<Event>, l: LineRec, endTime: seq<int>, provisional: seq<int>, show: Value -> string)
    requires Timed(events, endTime, provisional) && l.span < |endTime| && l.ts <= provisional[l.span]
    ensures Timed(events + [LineEvent(l)], endTime, provisional)
  {
    hide AllFitting, Fold, Effect, TimesOk, DoneIn, LastLine;
    Extend(events, LineEvent(l), show);
  }

  class Logger {
    const show: Value -> string
    var record: Record
    var events: seq<Event>
    var endTime: seq<int>
    var provisional: seq<int>

    /** The recorded state is what the recorded events amount to. */
    ghost predicate Valid()
      reads this
    {
      && AllFitting(events, show) && record == Fold(events)
      && |endTime| == |provisional| == |record.all| && Timed(events, endTime, provisional)
    }

    constructor (show: Value -> string)
      ensures Valid() && events == [] && this.show == show
    {
      this.show := show;
      record, events, endTime, provisional := Record([], [], [], [], map[]), [], [], [];
    }

    method Request(info: Info) returns (i: nat)
      requires Valid()
      modifies this
      ensures Valid() && events == old(events) + [RequestStart(info)] && i == old(|record.all|)
      ensures endTime == old(endTime) + [0] && provisional == old(provisional) + [0]
    {
      hide Timed;
      TimedNew(events, RequestStart(info), endTime, provisional, show);
      Extend(events, RequestStart(info), show);
      i := |record.all|;
      record := Record(record.all + [SpanRec(info, true, i, [], [], [], [])], record.requests + [i], record.spans, record.lines, record.index[info.id := i]);
      events := events + [RequestStart(info)];
      endTime, provisional := endTime + [0], provisional + [0];
    }

    method Span(parent: nat, info: Info) returns (i: nat)
      requires Valid() && parent < |record.all|
      modifies this
      ensures Valid() && events == old(events) + [SpanStart(parent, info)] && i == old(|record.all|)
      ensures endTime == old(endTime) + [0] && provisional == old(provisional) + [0]
    {
      hide Timed;
      TimedNew(events, SpanStart(parent, info), endTime, provisional, show);
      Extend(events, SpanStart(parent, info), show);
      i := |record.all|;
      var p := record.all[parent];
      record := Record(record.all[parent := p.(spans := p.spans + [i])] + [SpanRec(info, false, parent, [], [], [], [])],
                       record.requests, record.spans + [i], record.lines, record.index[info.id := i]);
      events := events + [SpanStart(parent, info)];
      endTime, provisional := endTime + [0], provisional + [0];
    }

    method Done(i: nat, t: int, final: bool)
      requires Valid() && i < |record.all|
      modifies this`events, this`endTime, this`provisional
      ensures Valid()
      ensures events == old(events) + [if record.all[i].isRequest then RequestDone(i, final) else SpanDone(i, final)]
      ensures provisional == old(provisional)[i := Max(old(provisional)[i], t)]
      ensures endTime == old(endTime)[i := Max(old(endTime)[i], provisional[i])]
    {
      hide AllFitting, Timed;
      var e := if record.all[i].isRequest then RequestDone(i, final) else SpanDone(i, final);
      Extend(events, e, show);
      TimedDone(events, e, i, t, endTime, provisional, show);
      provisional := provisional[i := Max(provisional[i], t)];
      endTime := endTime[i := Max(endTime[i], provisional[i])];
      events := events + [e];
    }

    method Flush(i: nat)
      requires Valid() && i < |record.all| && record.all[i].isRequest
      modifies this`events
      ensures Valid() && events == old(events) + [Flushed(i)]
    {
      Extend(events, Flushed(i), show);
      events := events + [Flushed(i)];
    }

    method Metadata(i: nat, m: Meta)
      requires Valid() && i < |record.all|
      modifies this`events, this`record
      ensures Valid() && events == old(events) + [MetadataSet(i, m)]
    {
      Extend(events, MetadataSet(i, m), show);
      record := record.(all := record.all[i := record.all[i].(metadata := record.all[i].metadata + [m])]);
      events := events + [MetadataSet(i, m)];
    }

    method Custom(msg: string)
      requires Valid()
      modifies this`events
      ensures Valid() && events == old(events) + [CustomEvent(msg)]
    {
      Extend(events, CustomEvent(msg), show);
      events := events + [CustomEvent(msg)];
    }

    /** Starting a line on prefilled data only raises the provisional end time. */
    method Line(i: nat, level: int, ts: int, stack: seq<string>, message: string, b: Builder) returns (l: LineRec)
      requires Valid() && i < |record.all|
      modifies this`provisional
      ensures Valid() && l == Started(i, level, ts, stack, message, b)
      ensures provisional == old(provisional)[i := Max(old(provisional)[i], ts)]
    {
      provisional := provisional[i := Max(provisional[i], ts)];
      l := Started(i, level, ts, stack, message, b);
    }

    /** Ending a line records it. */
    method Send(l: LineRec, e: Ender)
      requires Valid() && l.span < |record.all| && l.ts <= provisional[l.span] && Complete(Finished(l, e, show), show)
      modifies this`events, this`record
      ensures Valid() && events == old(events) + [LineEvent(Finished(l, e, show))]
    {
      var line := Finished(l, e, show);
      hide Complete, Finished, Timed;
      FinishedPlace(l, e, show);
      TimedLine(events, line, endTime, provisional, show);
      Extend(events, LineEvent(line), show);
      var s, n := record.all[l.span], |record.lines|;
      record := record.(all := record.all[l.span := s.(lines := s.lines + [n], links := if line.asLink.Some? then s.links + [n] else s.links)],
                        lines := record.lines + [line]);
      events := events + [LineEvent(line)];
    }
  }

  lemma FinishedPlace(l: LineRec, e: Ender, show: Value -> string)
    ensures Finished(l, e, show).span == l.span && Finished(l, e, show).ts == l.ts
  {
  }

  lemma {:induction false} NothingYet(events: seq<Event>, i: nat, show: Value -> string)
    requires AllFitting(events, show) && i >= |Fold(events).all|
    ensures !DoneIn(events, i) && LastLine(events, i) == 0
  {
    if events != [] {
      NothingYet(Init(events), i, show);
    }
  }
}
