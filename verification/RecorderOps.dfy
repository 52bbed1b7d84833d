/** Calls of the recorder, and what they record, told from the calls alone. */
module RecorderOps {
  import opened Options
  import opened RecorderLines
  import opened Recorder

  datatype Op =
    | NewRequest(info: Info)
    | NewSpan(parent: nat, info: Info)
    | Done(span: nat, t: int, final: bool)
    | Flush(span: nat)
    | SetMetadata(span: nat, meta: Meta)
    | Custom(msg: string)
    | StartLine(span: nat, level: int, ts: int, stack: seq<string>, prefill: string, data: seq<Datum>)
    | EndLine(line: nat, more: seq<Datum>, ender: Ender)

  /** The events of a run, the lines started in it, and the times seen. */
  datatype Run = Run(events: seq<Event>, started: seq<LineRec>, endTime: seq<int>, provisional: seq<int>)

  function Step(r: Run, op: Op, show: Value -> string): Run {
    match op
    case NewRequest(info) => Run(r.events + [RequestStart(info)], r.started, r.endTime + [0], r.provisional + [0])
    case NewSpan(p, info) => Run(r.events + [SpanStart(p, info)], r.started, r.endTime + [0], r.provisional + [0])
    case Done(i, t, final) =>
      if i < |Fold(r.events).all| && i < |r.provisional| && i < |r.endTime| then
        var p := Max(r.provisional[i], t);
        Run(r.events + [if Fold(r.events).all[i].isRequest then RequestDone(i, final) else SpanDone(i, final)], r.started,
            r.endTime[i := Max(r.endTime[i], p)], r.provisional[i := p])
      else r
    case Flush(i) => r.(events := r.events + [Flushed(i)])
    case SetMetadata(i, m) => r.(events := r.events + [MetadataSet(i, m)])
    case Custom(msg) => r.(events := r.events + [CustomEvent(msg)])
    case StartLine(i, level, ts, stack, prefill, data) =>
      if i < |r.provisional| then
        r.(started := r.started + [Started(i, level, ts, stack, prefill, PutAll(EMPTY, data))],
           provisional := r.provisional[i := Max(r.provisional[i], ts)])
      else r
    case EndLine(n, more, e) =>
      if n < |r.started| then r.(events := r.events + [LineEvent(Finished(r.started[n].(b := PutAll(r.started[n].b, more)), e, show))]) else r
  }

  /** The event of a call, if it has one. */
  function EventOf(r: Run, op: Op, show: Value -> string): Option<Event> {
    match op
    case NewRequest(info) => Some(RequestStart(info))
    case NewSpan(p, info) => Some(SpanStart(p, info))
    case Done(i, t, final) =>
      if i < |Fold(r.events).all| then Some(if Fold(r.events).all[i].isRequest then RequestDone(i, final) else SpanDone(i, final)) else None
    case Flush(i) => Some(Flushed(i))
    case SetMetadata(i, m) => Some(MetadataSet(i, m))
    case Custom(msg) => Some(CustomEvent(msg))
    case StartLine(i, level, ts, stack, prefill, data) => None
    case EndLine(n, more, e) =>
      if n < |r.started| then Some(LineEvent(Finished(r.started[n].(b := PutAll(r.started[n].b, more)), e, show))) else None
  }

  function After(ops: seq<Op>, show: Value -> string): Run {
    if ops == [] then Run([], [], [], []) else Step(After(ops[..|ops| - 1], show), ops[|ops| - 1], show)
  }

  /** A call names spans and lines that exist, and values fit their data types. */
  predicate Allowed(r: Run, op: Op) {
    var all := Fold(r.events).all;
    match op
    case NewRequest(_) => true
    case NewSpan(p, _) => p < |all|
    case Done(i, _, _) => i < |all|
    case Flush(i) => i < |all| && all[i].isRequest
    case SetMetadata(i, _) => i < |all|
    case Custom(_) => true
    case StartLine(i, _, _, _, _, data) => i < |all| && AllTyped(data)
    case EndLine(n, more, _) => n < |r.started| && AllTyped(more)
  }

  function Ended(ops: seq<Op>): set<nat> {
    if ops == [] then {} else Ended(ops[..|ops| - 1]) + (if ops[|ops| - 1].EndLine? then {ops[|ops| - 1].line} else {})
  }

  /** ... and a line is ended at most once. */
  predicate WellUsed(ops: seq<Op>, show: Value -> string) {
    ops == [] ||
    (var past, op := ops[..|ops| - 1], ops[|ops| - 1];
     WellUsed(past, show) && Allowed(After(past, show), op) && (op.EndLine? ==> op.line !in Ended(past)))
  }

  lemma {:induction false} WellUsedPrefix(ops: seq<Op>, k: nat, show: Value -> string)
    requires WellUsed(ops, show) && k < |ops|
    ensures WellUsed(ops[..k + 1], show) && ops[..k + 1][..k] == ops[..k] && Allowed(After(ops[..k], show), ops[k])
    ensures After(ops[..k + 1], show) == Step(After(ops[..k], show), ops[k], show)
  {
    hide Step;
    var past := ops[..|ops| - 1];
    if k == |ops| - 1 {
      assert ops[..k + 1] == ops;
    } else {
      assert past[..k] == ops[..k] && past[..k + 1] == ops[..k + 1];
      WellUsedPrefix(past, k, show);
    }
  }

  /** The attributes that each line was started with. */
  function Begun(ops: seq<Op>): seq<seq<Datum>> {
    if ops == [] then []
    else
      var past := Begun(ops[..|ops| - 1]);
      match ops[|ops| - 1]
      case StartLine(_, _, _, _, _, data) => past + [data]
      case _ => past
  }

  /** All attributes of each line that was ended, in the order of the adder calls. */
  function Sent(ops: seq<Op>): seq<seq<Datum>> {
    if ops == [] then []
    else
      var past := ops[..|ops| - 1];
      match ops[|ops| - 1]
      case EndLine(n, more, _) => Sent(past) + (if n < |Begun(past)| then [Begun(past)[n] + more] else [])
      case _ => Sent(past)
  }

  // ---- What a record holds, without the events ------------------------------------------

  predicate Creates(op: Op) { op.NewRequest? || op.NewSpan? }
  predicate Begins(op: Op) { op.StartLine? }
  predicate Ends(op: Op) { op.EndLine? }
  predicate Describes(op: Op) { op.SetMetadata? }

  /** The calls of one kind, in order. */
  function Select(ops: seq<Op>, kind: Op -> bool): seq<Op> {
    if ops == [] then []
    else Select(ops[..|ops| - 1], kind) + (if kind(ops[|ops| - 1]) then [ops[|ops| - 1]] else [])
  }

  /** The list holds the members of the set, each once, from low to high. */
  ghost predicate Lists(xs: seq<nat>, s: set<nat>) {
    && (forall i, j :: 0 <= i < j < |xs| ==> xs[i] < xs[j])
    && forall n: nat :: n in xs <==> n in s
  }

  function RequestsAmong(creations: seq<Op>): set<nat> {
    set n: nat | n < |creations| && creations[n].NewRequest?
  }

  function SpansAmong(creations: seq<Op>): set<nat> {
    set n: nat | n < |creations| && creations[n].NewSpan?
  }

  /** The spans that were created under `p`. */
  function ChildrenOf(creations: seq<Op>, p: nat): set<nat> {
    set n: nat | n < |creations| && creations[n].NewSpan? && creations[n].parent == p
  }

  predicate EndedOn(starts: seq<Op>, end: Op, i: nat) {
    end.EndLine? && end.line < |starts| && starts[end.line].StartLine? && starts[end.line].span == i
  }

  /** The lines of span `i`, numbered in the order in which lines were ended. */
  function LinesOf(starts: seq<Op>, ends: seq<Op>, i: nat): set<nat> {
    set n: nat | n < |ends| && EndedOn(starts, ends[n], i)
  }

  function LinksOf(starts: seq<Op>, ends: seq<Op>, i: nat): set<nat> {
    set n: nat | n < |ends| && EndedOn(starts, ends[n], i) && ends[n].ender.Link?
  }

  /** The metadata set on span `i`, in order. */
  function MetadataOf(sets: seq<Op>, i: nat): seq<Meta> {
    if sets == [] then []
    else
      var op := sets[|sets| - 1];
      MetadataOf(sets[..|sets| - 1], i) + (if op.SetMetadata? && op.span == i then [op.meta] else [])
  }

  /** The `n`-th span holds what the calls gave it. */
  ghost predicate SpanAsCalled(creations: seq<Op>, starts: seq<Op>, ends: seq<Op>, sets: seq<Op>, s: SpanRec, n: nat) {
    && n < |creations| && Creates(creations[n])
    && s.info == creations[n].info && s.isRequest == creations[n].NewRequest?
    && s.parent == (if creations[n].NewSpan? then creations[n].parent else n)
    && Lists(s.spans, ChildrenOf(creations, n))
    && Lists(s.lines, LinesOf(starts, ends, n)) && Lists(s.links, LinksOf(starts, ends, n))
    && s.metadata == MetadataOf(sets, n)
  }

  /** A line holds what it was started and ended with. */
  predicate LineAsCalled(starts: seq<Op>, end: Op, l: LineRec, show: Value -> string) {
    && end.EndLine? && end.line < |starts|
    && var start := starts[end.line];
       && start.StartLine?
       && l.span == start.span && l.level == start.level && l.ts == start.ts && l.stack == start.stack
       && l.b == PutAll(EMPTY, start.data + end.more)
       && l.tmpl == (if end.ender.Template? then start.prefill + end.ender.m else "")
       && l.message == (if end.ender.Template? then Rendered(l.tmpl, l.b.data, show) else start.prefill + end.ender.m)
       && l.asLink == (if end.ender.Link? then Some(end.ender.trace) else None)
       && l.asModel == (if end.ender.Model? then Some(end.ender.model) else None)
  }

  ghost predicate Holding(creations: seq<Op>, starts: seq<Op>, ends: seq<Op>, sets: seq<Op>, r: Record, show: Value -> string) {
    && |r.all| == |creations| && |r.lines| == |ends|
    && (forall n: nat :: n < |r.all| ==> SpanAsCalled(creations, starts, ends, sets, r.all[n], n))
    && Lists(r.requests, RequestsAmong(creations)) && Lists(r.spans, SpansAmong(creations))
    && forall n: nat :: n < |r.lines| ==> LineAsCalled(starts, ends[n], r.lines[n], show)
  }

  /** The record holds what the calls say: every span with the information and parent it was created with, and with its
      children, lines, links and metadata in order; every line with what it was started and ended with. */
  ghost predicate AsCalled(ops: seq<Op>, r: Record, show: Value -> string) {
    Holding(Select(ops, Creates), Select(ops, Begins), Select(ops, Ends), Select(ops, Describes), r, show)
  }

  /** Everything but the start of a line leaves an event. */
  predicate Heard(op: Op) { !op.StartLine? }

  predicate EventAsCalled(creations: seq<Op>, starts: seq<Op>, op: Op, e: Event, show: Value -> string) {
    match op
    case NewRequest(info) => e == RequestStart(info)
    case NewSpan(p, info) => e == SpanStart(p, info)
    case Done(i, t, final) => i < |creations| && e == if creations[i].NewRequest? then RequestDone(i, final) else SpanDone(i, final)
    case Flush(i) => e == Flushed(i)
    case SetMetadata(i, m) => e == MetadataSet(i, m)
    case Custom(msg) => e == CustomEvent(msg)
    case StartLine(i, level, ts, stack, prefill, data) => false
    case EndLine(n, more, ender) => e.LineEvent? && LineAsCalled(starts, op, e.line, show)
  }

  /** One event a call, in order. */
  ghost predicate EventsAsCalled(ops: seq<Op>, events: seq<Event>, show: Value -> string) {
    var heard := Select(ops, Heard);
    |events| == |heard| && forall k :: 0 <= k < |events| ==> EventAsCalled(Select(ops, Creates), Select(ops, Begins), heard[k], events[k], show)
  }

  /** The time that a call gives to span `i`. */
  function TimeFor(op: Op, i: nat): Option<int> {
    if op.Done? && op.span == i then Some(op.t)
    else if op.StartLine? && op.span == i then Some(op.ts)
    else None
  }

  /** Span `i` is done by call `k` or later. */
  ghost predicate DoneSince(ops: seq<Op>, k: nat, i: nat) {
    exists j :: k <= j < |ops| && ops[j].Done? && ops[j].span == i
  }

  /** `t` is the latest time given to span `i` up to its last Done, or zero. */
  ghost predicate EndOf(ops: seq<Op>, i: nat, t: int) {
    && t >= 0
    && (forall k: nat :: k < |ops| && DoneSince(ops, k, i) && TimeFor(ops[k], i).Some? ==> TimeFor(ops[k], i).value <= t)
    && (t == 0 || exists k: nat :: k < |ops| && DoneSince(ops, k, i) && TimeFor(ops[k], i) == Some(t))
  }

  /** `t` is the latest time given to span `i`, or zero. */
  ghost predicate LatestFor(ops: seq<Op>, i: nat, t: int) {
    && t >= 0
    && (forall k: nat :: k < |ops| && TimeFor(ops[k], i).Some? ==> TimeFor(ops[k], i).value <= t)
    && (t == 0 || exists k: nat :: k < |ops| && TimeFor(ops[k], i) == Some(t))
  }
}
