/** Replaying emitted batches into another base logger (xoppb/replay.go). */
module PbReplay {
  import opened SpanTree
  import opened PbFlush
  import PbRuns

  /** What the destination is asked to do; a destination span is named by the span it was made for. */
  datatype Call =
    | MakeRequest(id: nat)
    | MakeSpan(parent: nat, id: nat)
    | LogLine(line: Line)
    | EndSpan(id: nat, t: int)

  datatype State = State(seen: map<nat, nat>, calls: seq<Call>)

  /** Creating a span, or finding it again. */
  function Opened(s: State, parent: nat, p: ProtoSpan): State {
    State(s.seen[p.id := p.version], if p.id in s.seen then s.calls else s.calls + [MakeSpan(parent, p.id)])
  }

  function Ended(s: State, p: ProtoSpan, doDone: bool): State {
    if p.endTime != 0 && doDone then s.(calls := s.calls + [EndSpan(p.id, p.endTime)]) else s
  }

  function SpanReplayed(s: State, parent: nat, p: ProtoSpan, doDone: bool): State
    decreases p, 0
  {
    if p.id in s.seen && s.seen[p.id] > p.version then s
    else Ended(SpansReplayed(Opened(s, parent, p), p.id, p.spans), p, doDone)
  }

  /** Children are replayed last to first. */
  function SpansReplayed(s: State, parent: nat, ps: seq<ProtoSpan>): State
    decreases ps, 1
  {
    if ps == [] then s
    else SpansReplayed(SpanReplayed(s, parent, ps[|ps| - 1], true), parent, ps[..|ps| - 1])
  }

  /** Lines are delivered until one names an unknown span. */
  function LinesReplayed(s: State, lines: seq<Line>): (State, bool) {
    if lines == [] then (s, true)
    else
      var (t, ok) := LinesReplayed(s, lines[..|lines| - 1]);
      var line := lines[|lines| - 1];
      if !ok || line.span !in t.seen then (t, false)
      else (t.(calls := t.calls + [LogLine(line)]), true)
  }

  function RequestOpened(s: State, p: ProtoSpan): State {
    State(s.seen[p.id := p.version], if p.id in s.seen then s.calls else s.calls + [MakeRequest(p.id)])
  }

  function BatchReplayed(s: State, b: Batch): (State, bool) {
    if b.span.id in s.seen && s.seen[b.span.id] > b.span.version then (s, true)
    else
      var (t, ok) := LinesReplayed(SpanReplayed(RequestOpened(s, b.span), b.span.id, b.span, false), b.lines);
      if ok then (Ended(t, b.span, true), true) else (t, false)
  }

  function Replayed(batches: seq<Batch>): (State, bool) {
    if batches == [] then (State(map[], []), true)
    else
      var (s, ok) := Replayed(batches[..|batches| - 1]);
      if ok then BatchReplayed(s, batches[|batches| - 1]) else (s, false)
  }

  class Replayer {
    var spansSeen: map<nat, nat>
    var calls: seq<Call>

    constructor ()
      ensures Now() == State(map[], [])
    {
      spansSeen, calls := map[], [];
    }

    function Now(): State
      reads this
    {
      State(spansSeen, calls)
    }

    method ReplaySpan(parent: nat, p: ProtoSpan, doDone: bool)
      modifies this
      ensures Now() == SpanReplayed(old(Now()), parent, p, doDone)
      decreases p
    {
      if p.id in spansSeen {
        if spansSeen[p.id] > p.version {
          return;
        }
      } else {
        calls := calls + [MakeSpan(parent, p.id)];
      }
      spansSeen := spansSeen[p.id := p.version];
      var i := |p.spans|;
      assert p.spans[..i] == p.spans;
      while i > 0
        invariant 0 <= i <= |p.spans|
        invariant SpansReplayed(Now(), p.id, p.spans[..i]) == SpansReplayed(Opened(old(Now()), parent, p), p.id, p.spans)
      {
        i := i - 1;
        assert p.spans[..i + 1][..i] == p.spans[..i];
        ReplaySpan(p.id, p.spans[i], true);
      }
      if p.endTime != 0 && doDone {
        calls := calls + [EndSpan(p.id, p.endTime)];
      }
    }

    method ReplayBatch(b: Batch) returns (ok: bool)
      modifies this
      ensures (Now(), ok) == BatchReplayed(old(Now()), b)
    {
      var id := b.span.id;
      if id in spansSeen {
        if spansSeen[id] > b.span.version {
          return true;
        }
      } else {
        calls := calls + [MakeRequest(id)];
      }
      spansSeen := spansSeen[id := b.span.version];
      ReplaySpan(id, b.span, false);
      ghost var s := Now();
      var k := 0;
      while k < |b.lines|
        invariant 0 <= k <= |b.lines|
        invariant LinesReplayed(s, b.lines[..k]) == (Now(), true)
      {
        assert b.lines[..k + 1][..k] == b.lines[..k];
        if b.lines[k].span !in spansSeen {
          LinesFail(s, b.lines, k + 1);
          return false;
        }
        calls := calls + [LogLine(b.lines[k])];
        k := k + 1;
      }
      assert b.lines[..k] == b.lines;
      if b.span.endTime != 0 {
        calls := calls + [EndSpan(id, b.span.endTime)];
      }
      return true;
    }
  }

  lemma {:induction false} LinesFail(s: State, lines: seq<Line>, k: nat)
    requires k <= |lines| && !LinesReplayed(s, lines[..k]).1
    ensures LinesReplayed(s, lines) == LinesReplayed(s, lines[..k])
  {
    if k == |lines| {
      assert lines[..k] == lines;
    } else {
      assert lines[..|lines| - 1][..k] == lines[..k];
      LinesFail(s, lines[..|lines| - 1], k);
    }
  }

  lemma {:induction false} BatchesFail(batches: seq<Batch>, k: nat)
    requires k <= |batches| && !Replayed(batches[..k]).1
    ensures Replayed(batches) == Replayed(batches[..k])
  {
    if k == |batches| {
      assert batches[..k] == batches;
    } else {
      assert batches[..|batches| - 1][..k] == batches[..k];
      BatchesFail(batches[..|batches| - 1], k);
    }
  }

  method Replay(batches: seq<Batch>) returns (ok: bool, calls: seq<Call>)
    ensures ok == Replayed(batches).1 && calls == Replayed(batches).0.calls
  {
    var x := new Replayer();
    var k := 0;
    while k < |batches|
      invariant 0 <= k <= |batches| && fresh(x)
      invariant Replayed(batches[..k]) == (x.Now(), true)
    {
      assert batches[..k + 1][..k] == batches[..k];
      var good := x.ReplayBatch(batches[k]);
      if !good {
        BatchesFail(batches, k + 1);
        return false, x.calls;
      }
      k := k + 1;
    }
    assert batches[..k] == batches;
    return true, x.calls;
  }

  // ---- What the destination sees -----------------------------------------------

  function Made(calls: seq<Call>): set<nat> {
    if calls == [] then {}
    else
      var c := calls[|calls| - 1];
      Made(calls[..|calls| - 1]) + (if c.MakeRequest? || c.MakeSpan? then {c.id} else {})
  }

  predicate Allowed(tree: seq<Node>, made: set<nat>, c: Call) {
    match c
    case MakeRequest(x) => x == 0 && x !in made
    case MakeSpan(q, x) => 0 < x < |tree| && tree[x].parent == q && q in made && x !in made
    case LogLine(l) => l.span in made
    case EndSpan(x, _) => x in made
  }

  /** Each span is created once, under its own parent, after it, and before it is used. */
  predicate Legal(tree: seq<Node>, calls: seq<Call>) {
    calls == [] ||
    (Legal(tree, calls[..|calls| - 1]) && Allowed(tree, Made(calls[..|calls| - 1]), calls[|calls| - 1]))
  }

  function LinesIn(calls: seq<Call>): seq<Line> {
    if calls == [] then []
    else
      var c := calls[|calls| - 1];
      LinesIn(calls[..|calls| - 1]) + (if c.LogLine? then [c.line] else [])
  }

  function EndsIn(calls: seq<Call>, x: nat): seq<int> {
    if calls == [] then []
    else
      var c := calls[|calls| - 1];
      EndsIn(calls[..|calls| - 1], x) + (if c.EndSpan? && c.id == x then [c.t] else [])
  }

  lemma Snoc(tree: seq<Node>, calls: seq<Call>, c: Call)
    ensures Made(calls + [c]) == Made(calls) + (if c.MakeRequest? || c.MakeSpan? then {c.id} else {})
    ensures LinesIn(calls + [c]) == LinesIn(calls) + (if c.LogLine? then [c.line] else [])
    ensures forall x: nat :: EndsIn(calls + [c], x) == EndsIn(calls, x) + (if c.EndSpan? && c.id == x then [c.t] else [])
    ensures Legal(tree, calls + [c]) <==> Legal(tree, calls) && Allowed(tree, Made(calls), c)
  {
    assert (calls + [c])[..|calls|] == calls;
  }

  ghost predicate Good(tree: seq<Node>, s: State) {
    Legal(tree, s.calls) && Made(s.calls) == s.seen.Keys
  }

  /** From `s` to `t` the spans counted by `n` were replayed with the given versions, and the spans in `ended` ended. */
  ghost predicate Advanced(s: State, t: State, emitted: set<nat>, ended: set<nat>, v: seq<nat>, e: seq<int>) {
    && t.seen.Keys == s.seen.Keys + emitted
    && (forall x: nat :: x in t.seen && x < |v| ==> t.seen[x] == if x in emitted then v[x] else if x in s.seen then s.seen[x] else 0)
    && LinesIn(t.calls) == LinesIn(s.calls)
    && forall x: nat :: EndsIn(t.calls, x) == EndsIn(s.calls, x) + (if x in ended && x < |e| && e[x] != 0 then [e[x]] else [])
  }

  ghost predicate NotNewer(s: State, emitted: set<nat>, v: seq<nat>) {
    forall x: nat :: x in emitted && x in s.seen ==> x < |v| && s.seen[x] <= v[x]
  }

  ghost predicate InTree(p: ProtoSpan, emitted: set<nat>) {
    forall x: nat :: Count(p, x) == if x in emitted then 1 else 0
  }

  ghost predicate InTrees(ps: seq<ProtoSpan>, emitted: set<nat>) {
    forall x: nat :: CountAll(ps, x) == if x in emitted then 1 else 0
  }

  lemma Then(s: State, t: State, u: State, a: set<nat>, b: set<nat>, c: set<nat>, d: set<nat>, v: seq<nat>, e: seq<int>)
    requires Advanced(s, t, a, c, v, e) && Advanced(t, u, b, d, v, e) && a !! b && c <= a && d <= b
    requires forall x: nat :: x in a + b ==> x < |v|
    ensures Advanced(s, u, a + b, c + d, v, e)
  {
  }

  lemma OpenStep(tree: seq<Node>, s: State, parent: nat, p: ProtoSpan, v: seq<nat>, e: seq<int>)
    requires Good(tree, s) && p.id < |v| == |e| && p.version == v[p.id]
    requires p.id in s.seen || (Under(tree, parent, p) && parent in s.seen)
    ensures var t := Opened(s, parent, p);
            Good(tree, t) && Advanced(s, t, {p.id}, {}, v, e) && p.id in t.seen
  {
    Snoc(tree, s.calls, MakeSpan(parent, p.id));
  }

  lemma Current(s: State, emitted: set<nat>, p: ProtoSpan, v: seq<nat>)
    requires NotNewer(s, emitted, v) && p.id in emitted && p.id < |v| && p.version == v[p.id]
    ensures !(p.id in s.seen && s.seen[p.id] > p.version)
  {
  }

  lemma StillNotNewer(s: State, t: State, a: set<nat>, b: set<nat>, c: set<nat>, v: seq<nat>, e: seq<int>)
    requires NotNewer(s, a + b, v) && Advanced(s, t, a, c, v, e) && a !! b && forall x: nat :: x in b ==> x < |v|
    ensures NotNewer(t, b, v)
  {
  }

  lemma StaysSeen(s: State, t: State, a: set<nat>, c: set<nat>, x: nat, v: seq<nat>, e: seq<int>)
    requires Advanced(s, t, a, c, v, e) && x in s.seen
    ensures x in t.seen
  {
  }

  lemma EndStep(tree: seq<Node>, s: State, p: ProtoSpan, doDone: bool, v: seq<nat>, e: seq<int>)
    requires Good(tree, s) && p.id < |v| == |e| && p.endTime == e[p.id] && p.id in s.seen
    ensures var t := Ended(s, p, doDone);
            Good(tree, t) && Advanced(s, t, {}, if doDone then {p.id} else {}, v, e)
  {
    Snoc(tree, s.calls, EndSpan(p.id, p.endTime));
  }

  lemma IdCounted(p: ProtoSpan, emitted: set<nat>)
    requires InTree(p, emitted)
    ensures p.id in emitted && InTrees(p.spans, emitted - {p.id})
  {
    assert Count(p, p.id) > 0;
  }

  lemma {:induction false} SpanAdvances(tree: seq<Node>, s: State, parent: nat, p: ProtoSpan, doDone: bool, emitted: set<nat>, v: seq<nat>, e: seq<int>)
    requires Good(tree, s) && Nested(tree, p) && Carries(p, v, e) && InTree(p, emitted) && NotNewer(s, emitted, v)
    requires forall x: nat :: x in emitted ==> x < |v|
    requires p.id in s.seen || (Under(tree, parent, p) && parent in s.seen)
    ensures var t := SpanReplayed(s, parent, p, doDone);
            Good(tree, t) && Advanced(s, t, emitted, if doDone then emitted else emitted - {p.id}, v, e)
    decreases p, 0
  {
    hide Good, InTree, InTrees, Nested, NotNewer, Advanced, Opened, Ended;
    IdCounted(p, emitted);
    Current(s, emitted, p, v);
    var rest := emitted - {p.id};
    var a := Opened(s, parent, p);
    OpenStep(tree, s, parent, p, v, e);
    NestedUnder(tree, p);
    assert {p.id} + rest == emitted;
    StillNotNewer(s, a, {p.id}, rest, {}, v, e);
    SpansAdvance(tree, a, p.id, p.spans, rest, v, e);
    var b := SpansReplayed(a, p.id, p.spans);
    StaysSeen(a, b, rest, rest, p.id, v, e);
    EndStep(tree, b, p, doDone, v, e);
    Then(s, a, b, {p.id}, rest, {}, rest, v, e);
    Finish(s, b, Ended(b, p, doDone), {p.id} + rest, {} + rest, if doDone then {p.id} else {}, v, e);
    assert {} + rest + {p.id} == emitted;
    assert {} + rest + {} == emitted - {p.id};
  }

  lemma NestedUnder(tree: seq<Node>, p: ProtoSpan)
    requires Nested(tree, p)
    ensures forall i :: 0 <= i < |p.spans| ==> Under(tree, p.id, p.spans[i])
  {
  }

  lemma Finish(s: State, t: State, u: State, a: set<nat>, c: set<nat>, d: set<nat>, v: seq<nat>, e: seq<int>)
    requires Advanced(s, t, a, c, v, e) && Advanced(t, u, {}, d, v, e) && c !! d
    requires forall x: nat :: x in a ==> x < |v|
    ensures Advanced(s, u, a, c + d, v, e)
  {
  }

  lemma SplitCount(ps: seq<ProtoSpan>, emitted: set<nat>) returns (last: set<nat>)
    requires ps != [] && InTrees(ps, emitted)
    ensures last <= emitted && InTree(ps[|ps| - 1], last) && InTrees(ps[..|ps| - 1], emitted - last)
  {
    last := set x | x in emitted && Count(ps[|ps| - 1], x) > 0;
  }

  lemma NoneEmitted(emitted: set<nat>)
    requires InTrees([], emitted)
    ensures emitted == {}
  {
    assert forall x: nat :: CountAll([], x) == 0;
  }

  lemma PartNotNewer(s: State, emitted: set<nat>, part: set<nat>, v: seq<nat>)
    requires NotNewer(s, emitted, v) && part <= emitted
    ensures NotNewer(s, part, v)
  {
  }

  lemma UnderNested(tree: seq<Node>, parent: nat, p: ProtoSpan)
    requires Under(tree, parent, p)
    ensures Nested(tree, p)
  {
  }

  /** The last tree of a list is replayed first; the others are then as they were. */
  lemma {:induction false} LastTree(tree: seq<Node>, s: State, parent: nat, ps: seq<ProtoSpan>, emitted: set<nat>, v: seq<nat>, e: seq<int>)
    returns (last: set<nat>)
    requires Good(tree, s) && InTrees(ps, emitted) && NotNewer(s, emitted, v) && ps != []
    requires forall x: nat :: x in emitted ==> x < |v|
    requires forall j :: 0 <= j < |ps| ==> Under(tree, parent, ps[j]) && Carries(ps[j], v, e)
    requires parent in s.seen
    ensures var p, rest := ps[|ps| - 1], ps[..|ps| - 1];
            var t := SpanReplayed(s, parent, p, true);
            && last <= emitted && InTree(p, last) && InTrees(rest, emitted - last) && NotNewer(s, last, v) && Nested(tree, p) && Carries(p, v, e)
            && Good(tree, t) && Advanced(s, t, last, last, v, e) && NotNewer(t, emitted - last, v) && parent in t.seen
            && forall j :: 0 <= j < |rest| ==> Under(tree, parent, rest[j]) && Carries(rest[j], v, e)
    decreases ps, 0
  {
    hide Good, InTree, InTrees, Carries, Nested, Under, NotNewer, Advanced, SpanReplayed;
    var p := ps[|ps| - 1];
    last := SplitCount(ps, emitted);
    var t := SpanReplayed(s, parent, p, true);
    assert last + (emitted - last) == emitted;
    PartNotNewer(s, emitted, last, v);
    UnderNested(tree, parent, p);
    SpanAdvances(tree, s, parent, p, true, last, v, e);
    StillNotNewer(s, t, last, emitted - last, last, v, e);
    StaysSeen(s, t, last, last, parent, v, e);
  }

  lemma {:induction false} SpansAdvance(tree: seq<Node>, s: State, parent: nat, ps: seq<ProtoSpan>, emitted: set<nat>, v: seq<nat>, e: seq<int>)
    requires Good(tree, s) && InTrees(ps, emitted) && NotNewer(s, emitted, v)
    requires forall x: nat :: x in emitted ==> x < |v|
    requires forall j :: 0 <= j < |ps| ==> Under(tree, parent, ps[j]) && Carries(ps[j], v, e)
    requires parent in s.seen
    ensures var t := SpansReplayed(s, parent, ps);
            Good(tree, t) && Advanced(s, t, emitted, emitted, v, e)
    decreases ps, 1
  {
    hide Good, InTree, InTrees, Carries, Nested, Under, NotNewer;
    if ps == [] {
      NoneEmitted(emitted);
    } else {
      hide Advanced, SpanReplayed;
      var last := LastTree(tree, s, parent, ps, emitted, v, e);
      var t, rest := SpanReplayed(s, parent, ps[|ps| - 1], true), ps[..|ps| - 1];
      assert last + (emitted - last) == emitted;
      SpansAdvance(tree, t, parent, rest, emitted - last, v, e);
      Then(s, t, SpansReplayed(t, parent, rest), last, emitted - last, last, emitted - last, v, e);
    }
  }

  // ---- Replaying a run ---------------------------------------------------------

  /** The replayer has seen the spans emitted so far, each with its latest version. */
  ghost predicate Caught(tree: seq<Node>, v: seq<nat>, s: State) {
    && Good(tree, s)
    && (forall x: nat :: x in s.seen <==> x < |v| && v[x] > 0)
    && (forall x: nat :: x in s.seen ==> x < |v| && s.seen[x] == v[x])
  }

  lemma {:induction false} LinesAdvance(tree: seq<Node>, s: State, lines: seq<Line>)
    requires Good(tree, s)
    ensures var (t, ok) := LinesReplayed(s, lines);
            && (ok <==> forall k :: 0 <= k < |lines| ==> lines[k].span in s.seen)
            && Good(tree, t) && t.seen == s.seen
            && (ok ==> LinesIn(t.calls) == LinesIn(s.calls) + lines)
            && forall x: nat :: EndsIn(t.calls, x) == EndsIn(s.calls, x)
  {
    hide Legal, LinesIn, EndsIn, Made;
    if lines != [] {
      var some, line := lines[..|lines| - 1], lines[|lines| - 1];
      LinesAdvance(tree, s, some);
      var (t, ok) := LinesReplayed(s, some);
      Snoc(tree, t.calls, LogLine(line));
      assert lines == some + [line];
      assert forall k :: 0 <= k < |some| ==> some[k] == lines[k];
      if ok {
        assert LinesIn(s.calls) + some + [line] == LinesIn(s.calls) + lines;
      }
    }
  }

  lemma RequestStep(tree: seq<Node>, s: State, p: ProtoSpan, v: seq<nat>, w: seq<nat>, up: set<nat>)
    requires Caught(tree, v, s) && p.id == 0 && 0 in up && w == Bumped(v, up) && |v| > 0 && p.version == w[0]
    requires forall x: nat :: x in up ==> x < |v|
    ensures Good(tree, RequestOpened(s, p)) && NotNewer(RequestOpened(s, p), up, w) && 0 in RequestOpened(s, p).seen
  {
    Snoc(tree, s.calls, MakeRequest(0));
  }

  lemma RequestAdvances(tree: seq<Node>, s: State, p: ProtoSpan, v: seq<nat>, w: seq<nat>, e: seq<int>)
    requires Caught(tree, v, s) && p.id == 0 && |e| == |v| > 0 && |w| > 0 && p.version == w[0]
    ensures Advanced(s, RequestOpened(s, p), {0}, {}, w, e)
  {
    Snoc(tree, s.calls, MakeRequest(0));
  }

  /** The end time each span gained, if it was drained and has one. */
  function Gained(x: nat, up: set<nat>, e: seq<int>): seq<int> {
    if x in up && x < |e| && e[x] != 0 then [e[x]] else []
  }

  ghost predicate Took(tree: seq<Node>, s: State, t: State, up: set<nat>, w: seq<nat>, e: seq<int>, lines: seq<Line>) {
    && Caught(tree, w, t) && LinesIn(t.calls) == LinesIn(s.calls) + lines
    && forall x: nat :: EndsIn(t.calls, x) == EndsIn(s.calls, x) + Gained(x, up, e)
  }

  lemma BatchAdvances(tree: seq<Node>, dirty: set<nat>, v: seq<nat>, e: seq<int>, prior: nat, lines: seq<Line>, s: State, b: Batch)
    requires NoDetached(tree) && |v| == |e| == |tree| && Caught(tree, v, s) && BatchOk(tree, dirty, v, e, prior, lines, b)
    ensures var up := Up(tree, dirty); var w := Bumped(v, up); var (t, ok) := BatchReplayed(s, b);
            && (ok <==> AllEmitted(w, lines))
            && (ok ==> Took(tree, s, t, up, w, e, lines))
  {
    hide Caught, Good, NotNewer, Advanced, SpanReplayed, LinesReplayed, RequestOpened, Ended, Took, Covers, Nested, Count;
    var up := Up(tree, dirty);
    var w := Bumped(v, up);
    var p := b.span;
    var a := RequestOpened(s, p);
    assert InTree(p, up);
    RequestStep(tree, s, p, v, w, up);
    RequestAdvances(tree, s, p, v, w, e);
    SpanAdvances(tree, a, 0, p, false, up, w, e);
    var c := SpanReplayed(a, 0, p, false);
    LinesAdvance(tree, c, lines);
    var d := LinesReplayed(c, lines).0;
    CaughtUp(tree, s, a, c, v, w, up, e);
    Known(tree, w, c);
    EndStep(tree, d, p, true, w, e);
    if LinesReplayed(c, lines).1 {
      Closed(tree, s, c, d, Ended(d, p, true), w, up, e, lines);
    }
  }

  lemma Known(tree: seq<Node>, w: seq<nat>, c: State)
    requires Caught(tree, w, c)
    ensures forall x: nat :: x in c.seen <==> x < |w| && w[x] > 0
  {
  }

  lemma CaughtUp(tree: seq<Node>, s: State, a: State, c: State, v: seq<nat>, w: seq<nat>, up: set<nat>, e: seq<int>)
    requires Caught(tree, v, s) && 0 in up && (forall x: nat :: x in up ==> x < |v|) && Good(tree, c) && |e| == |v|
    requires w == Bumped(v, up) && Advanced(s, a, {0}, {}, w, e) && Advanced(a, c, up, up - {0}, w, e)
    ensures Caught(tree, w, c) && 0 in c.seen
    ensures !(0 in s.seen && s.seen[0] > w[0])
    ensures LinesIn(c.calls) == LinesIn(s.calls)
    ensures forall x: nat :: EndsIn(c.calls, x) == EndsIn(s.calls, x) + Gained(x, up - {0}, e)
  {
    hide Good, LinesIn, EndsIn;
    assert a.seen.Keys == s.seen.Keys + {0};
    assert c.seen.Keys == a.seen.Keys + up;
    forall x: nat ensures EndsIn(c.calls, x) == EndsIn(s.calls, x) + Gained(x, up - {0}, e) {
      assert EndsIn(a.calls, x) == EndsIn(s.calls, x) + [];
    }
  }

  lemma Closed(tree: seq<Node>, s: State, c: State, d: State, u: State, w: seq<nat>, up: set<nat>, e: seq<int>, lines: seq<Line>)
    requires Caught(tree, w, c) && Good(tree, u) && d.seen == c.seen && Advanced(d, u, {}, {0}, w, e) && 0 in up
    requires LinesIn(c.calls) == LinesIn(s.calls) && LinesIn(d.calls) == LinesIn(c.calls) + lines
    requires forall x: nat :: EndsIn(c.calls, x) == EndsIn(s.calls, x) + Gained(x, up - {0}, e)
    requires forall x: nat :: EndsIn(d.calls, x) == EndsIn(c.calls, x)
    ensures Took(tree, s, u, up, w, e, lines)
  {
    hide Good, LinesIn, EndsIn;
    assert u.seen.Keys == d.seen.Keys;
    forall x: nat ensures EndsIn(u.calls, x) == EndsIn(s.calls, x) + Gained(x, up, e) {
      assert EndsIn(u.calls, x) == EndsIn(d.calls, x) + Gained(x, {0}, e);
    }
  }

  /** All spans ever done. */
  function EverDone(ops: seq<PbRuns.Op>): set<nat> {
    if ops == [] then {}
    else EverDone(PbRuns.Init(ops)) + (if PbRuns.Last(ops).Done? then {PbRuns.Last(ops).span} else {})
  }

  /** Every line was logged on the request, or on a span such that it or a descendant was done
      before the flush that carries the line. */
  ghost predicate Covered(ops: seq<PbRuns.Op>)
    requires PbRuns.WellUsed(ops)
  {
    ops == [] ||
    (Covered(PbRuns.Init(ops)) && (PbRuns.Last(ops).Flush? ==>
      forall k :: 0 <= k < |PbRuns.FreshOf(PbRuns.Init(ops))| ==> Announced(PbRuns.Init(ops), PbRuns.FreshOf(PbRuns.Init(ops))[k].span)))
  }

  ghost predicate Announced(ops: seq<PbRuns.Op>, x: nat)
    requires PbRuns.WellUsed(ops)
  {
    x < PbRuns.Size(ops) && (x == 0 || Covers(PbRuns.TreeOf(ops), EverDone(ops), x))
  }

  lemma {:induction false} DoneKnown(ops: seq<PbRuns.Op>)
    requires PbRuns.WellUsed(ops)
    ensures forall d :: d in EverDone(ops) ==> d < PbRuns.Size(ops)
    ensures PbRuns.DirtyOf(ops) <= EverDone(ops)
  {
    if ops != [] {
      DoneKnown(PbRuns.Init(ops));
    }
  }

  lemma CoversGrow(tree: seq<Node>, n: Node, dirty: set<nat>, x: nat)
    requires TreeOk(tree) && TreeOk(tree + [n]) && forall d :: d in dirty ==> d < |tree|
    ensures x < |tree| ==> (Covers(tree + [n], dirty, x) <==> Covers(tree, dirty, x))
    ensures x >= |tree| ==> !Covers(tree + [n], dirty, x)
  {
    forall d | d in dirty ensures InSub(tree, x, d) == InSub(tree + [n], x, d) {
      SameSub(tree, n, x, d);
    }
  }

  lemma CoversUnion(tree: seq<Node>, a: set<nat>, b: set<nat>, x: nat)
    requires TreeOk(tree)
    ensures Covers(tree, a + b, x) <==> Covers(tree, a, x) || Covers(tree, b, x)
  {
    if Covers(tree, a, x) {
      var d :| d in a && InSub(tree, x, d);
      assert d in a + b;
    }
    if Covers(tree, b, x) {
      var d :| d in b && InSub(tree, x, d);
      assert d in a + b;
    }
  }

  /** A span was emitted, or will be by the next flush, when it is the request or covers a span ever done. */
  lemma {:induction false} EmittedIffDone(ops: seq<PbRuns.Op>, x: nat)
    requires PbRuns.WellUsed(ops) && x < PbRuns.Size(ops)
    ensures PbRuns.VersionsOf(ops)[x] > 0 || x in PbRuns.DueOf(ops) <==> Announced(ops, x)
  {
    hide Covers;
    if ops == [] {
      assert PbRuns.TreeOf(ops) == [Node(0, false)];
    } else {
      var past, op := PbRuns.Init(ops), PbRuns.Last(ops);
      assert ops == past + [op];
      DoneKnown(past);
      DoneKnown(ops);
      if op.NewSpan? {
        assert EverDone(ops) == EverDone(past);
        CoversGrow(PbRuns.TreeOf(past), Node(op.parent, false), EverDone(past), x);
        CoversGrow(PbRuns.TreeOf(past), Node(op.parent, false), PbRuns.DirtyOf(past), x);
        if x < PbRuns.Size(past) {
          EmittedIffDone(past, x);
        }
      } else {
        EmittedIffDone(past, x);
        if op.Done? {
          CoversUnion(PbRuns.TreeOf(past), PbRuns.DirtyOf(past), {op.span}, x);
          CoversUnion(PbRuns.TreeOf(past), EverDone(past), {op.span}, x);
        } else {
          NoneDue(PbRuns.TreeOf(past), x);
          assert EverDone(ops) == EverDone(past);
        }
      }
    }
  }

  lemma NoneDue(tree: seq<Node>, x: nat)
    requires TreeOk(tree)
    ensures !Covers(tree, {}, x)
  {
  }

  /** The end times a span was emitted with. */
  ghost function EmittedEnds(ops: seq<PbRuns.Op>, x: nat): seq<int>
    requires PbRuns.WellUsed(ops)
  {
    if ops == [] then []
    else
      var past := PbRuns.Init(ops);
      EmittedEnds(past, x) +
      if PbRuns.Last(ops).Flush? && x in PbRuns.DueOf(past) && PbRuns.EndsOf(past)[x] != 0 then [PbRuns.EndsOf(past)[x]] else []
  }

  lemma {:induction false} LegalGrows(tree: seq<Node>, n: Node, calls: seq<Call>)
    requires Legal(tree, calls)
    ensures Legal(tree + [n], calls)
  {
    if calls != [] {
      LegalGrows(tree, n, calls[..|calls| - 1]);
    }
  }

  /** The destination has everything that the batches held. */
  ghost predicate Reproduced(ops: seq<PbRuns.Op>, sent: seq<Batch>, s: State)
    requires PbRuns.WellUsed(ops)
  {
    && Caught(PbRuns.TreeOf(ops), PbRuns.VersionsOf(ops), s)
    && LinesIn(s.calls) == PbRuns.AllLines(sent)
    && forall x: nat :: EndsIn(s.calls, x) == EmittedEnds(ops, x)
  }

  lemma ReproduceFlush(ops: seq<PbRuns.Op>, sent: seq<Batch>, s: State, t: State)
    requires ops != [] && PbRuns.WellUsed(ops) && PbRuns.Last(ops).Flush? && sent != []
    requires Reproduced(PbRuns.Init(ops), sent[..|sent| - 1], s)
    requires PbRuns.Due(PbRuns.Init(ops), sent[|sent| - 1])
    requires var past := PbRuns.Init(ops);
             Took(PbRuns.TreeOf(past), s, t, PbRuns.DueOf(past), Bumped(PbRuns.VersionsOf(past), PbRuns.DueOf(past)), PbRuns.EndsOf(past), PbRuns.FreshOf(past))
    ensures Reproduced(ops, sent, t)
  {
    hide Up, Bumped, Covers, Caught, LinesIn, EndsIn, Nested, Carries, Count;
    var past := PbRuns.Init(ops);
    DueKnown(past);
    forall x: nat ensures EndsIn(t.calls, x) == EmittedEnds(ops, x) {
      assert EndsIn(t.calls, x) == EndsIn(s.calls, x) + Gained(x, PbRuns.DueOf(past), PbRuns.EndsOf(past));
    }
  }

  lemma DueKnown(ops: seq<PbRuns.Op>)
    requires PbRuns.WellUsed(ops)
    ensures forall x :: x in PbRuns.DueOf(ops) ==> x < PbRuns.Size(ops)
  {
  }

  lemma ReproduceOther(ops: seq<PbRuns.Op>, sent: seq<Batch>, s: State)
    requires ops != [] && PbRuns.WellUsed(ops) && !PbRuns.Last(ops).Flush? && Reproduced(PbRuns.Init(ops), sent, s)
    ensures Reproduced(ops, sent, s)
  {
    hide Up, Bumped, Covers, LinesIn, EndsIn;
    var past, op := PbRuns.Init(ops), PbRuns.Last(ops);
    if op.NewSpan? {
      LegalGrows(PbRuns.TreeOf(past), Node(op.parent, false), s.calls);
    }
    forall x: nat ensures EmittedEnds(ops, x) == EmittedEnds(past, x) {
    }
  }

  lemma {:induction false} RunReproduced(ops: seq<PbRuns.Op>, sent: seq<Batch>)
    requires PbRuns.WellUsed(ops) && PbRuns.Sent(ops, sent)
    ensures Replayed(sent).1 <==> Covered(ops)
    ensures Replayed(sent).1 ==> Reproduced(ops, sent, Replayed(sent).0)
  {
    if ops == [] {
      assert Reproduced(ops, sent, State(map[], []));
    } else {
      hide Reproduced, Took, Announced, BatchReplayed, PbRuns.Due;
      var past := PbRuns.Init(ops);
      if PbRuns.Last(ops).Flush? {
        var some, b := sent[..|sent| - 1], sent[|sent| - 1];
        RunReproduced(past, some);
        var (s, ok) := Replayed(some);
        if ok {
          FlushReplayed(past, s, b);
          if BatchReplayed(s, b).1 {
            ReproduceFlush(ops, sent, s, BatchReplayed(s, b).0);
          }
        }
      } else {
        RunReproduced(past, sent);
        if Replayed(sent).1 {
          ReproduceOther(ops, sent, Replayed(sent).0);
        }
      }
    }
  }

  // ---- The order in which spans are created -------------------------------------

  /** The spans that were created, in order. */
  function MadeIn(calls: seq<Call>): seq<nat> {
    if calls == [] then []
    else
      var c := calls[|calls| - 1];
      MadeIn(calls[..|calls| - 1]) + (if c.MakeRequest? || c.MakeSpan? then [c.id] else [])
  }

  /** A span before its children, and these last to first. */
  function Visit(p: ProtoSpan): seq<nat>
    decreases p, 0
  {
    [p.id] + Visits(p.spans)
  }

  function Visits(ps: seq<ProtoSpan>): seq<nat>
    decreases ps, 1
  {
    if ps == [] then [] else Visit(ps[|ps| - 1]) + Visits(ps[..|ps| - 1])
  }

  /** The members of a list that are not known yet. */
  function Fresh(ids: seq<nat>, known: set<nat>): seq<nat> {
    if ids == [] then [] else (if ids[0] in known then [] else [ids[0]]) + Fresh(ids[1..], known)
  }

  /** The spans of all batches, each where it is met first. */
  function Order(sent: seq<Batch>): seq<nat> {
    if sent == [] then []
    else
      var past := Order(sent[..|sent| - 1]);
      past + Fresh(Visit(sent[|sent| - 1].span), Elements(past))
  }

  function Elements(ids: seq<nat>): set<nat> {
    set x | x in ids
  }

  lemma {:induction false} FreshAppend(a: seq<nat>, b: seq<nat>, known: set<nat>)
    ensures Fresh(a + b, known) == Fresh(a, known) + Fresh(b, known)
  {
    if a == [] {
      assert a + b == b && [] + Fresh(b, known) == Fresh(b, known);
    } else {
      assert (a + b)[1..] == a[1..] + b;
      FreshAppend(a[1..], b, known);
    }
  }

  lemma {:induction false} FreshSame(ids: seq<nat>, a: set<nat>, b: set<nat>)
    requires forall x :: x in ids ==> (x in a <==> x in b)
    ensures Fresh(ids, a) == Fresh(ids, b)
  {
    if ids != [] {
      FreshSame(ids[1..], a, b);
    }
  }

  lemma {:induction false} VisitCount(p: ProtoSpan, x: nat)
    ensures x in Visit(p) <==> Count(p, x) > 0
    decreases p, 0
  {
    VisitsCount(p.spans, x);
  }

  lemma {:induction false} VisitsCount(ps: seq<ProtoSpan>, x: nat)
    ensures x in Visits(ps) <==> CountAll(ps, x) > 0
    decreases ps, 1
  {
    if ps != [] {
      VisitCount(ps[|ps| - 1], x);
      VisitsCount(ps[..|ps| - 1], x);
    }
  }

  lemma MadeSnoc(calls: seq<Call>, c: Call)
    ensures MadeIn(calls + [c]) == MadeIn(calls) + (if c.MakeRequest? || c.MakeSpan? then [c.id] else [])
  {
    assert (calls + [c])[..|calls|] == calls;
  }

  lemma OpenOrder(s: State, parent: nat, p: ProtoSpan)
    ensures MadeIn(Opened(s, parent, p).calls) == MadeIn(s.calls) + Fresh([p.id], s.seen.Keys)
    ensures p.id == 0 ==> MadeIn(RequestOpened(s, p).calls) == MadeIn(s.calls) + Fresh([p.id], s.seen.Keys)
  {
    MadeSnoc(s.calls, MakeSpan(parent, p.id));
    MadeSnoc(s.calls, MakeRequest(p.id));
    assert MadeIn(s.calls) + [] == MadeIn(s.calls);
  }

  lemma EndOrder(s: State, p: ProtoSpan, doDone: bool)
    ensures MadeIn(Ended(s, p, doDone).calls) == MadeIn(s.calls)
  {
    MadeSnoc(s.calls, EndSpan(p.id, p.endTime));
  }

  lemma {:induction false} LinesOrder(s: State, lines: seq<Line>)
    ensures MadeIn(LinesReplayed(s, lines).0.calls) == MadeIn(s.calls)
  {
    if lines != [] {
      LinesOrder(s, lines[..|lines| - 1]);
      MadeSnoc(LinesReplayed(s, lines[..|lines| - 1]).0.calls, LogLine(lines[|lines| - 1]));
    }
  }

  /** Once its span is open a tree adds the rest of its visit. */
  lemma VisitAfter(p: ProtoSpan, emitted: set<nat>, known: set<nat>)
    requires InTree(p, emitted)
    ensures Fresh([p.id], known) + Fresh(Visits(p.spans), known + {p.id}) == Fresh(Visit(p), known)
  {
    IdCounted(p, emitted);
    VisitsCount(p.spans, p.id);
    FreshSame(Visits(p.spans), known, known + {p.id});
    FreshAppend([p.id], Visits(p.spans), known);
  }

  lemma {:induction false} SpanOrder(tree: seq<Node>, s: State, parent: nat, p: ProtoSpan, doDone: bool, emitted: set<nat>, v: seq<nat>, e: seq<int>)
    requires Good(tree, s) && Nested(tree, p) && Carries(p, v, e) && InTree(p, emitted) && NotNewer(s, emitted, v)
    requires forall x: nat :: x in emitted ==> x < |v|
    requires p.id in s.seen || (Under(tree, parent, p) && parent in s.seen)
    ensures MadeIn(SpanReplayed(s, parent, p, doDone).calls) == MadeIn(s.calls) + Fresh(Visit(p), s.seen.Keys)
    decreases p, 0
  {
    hide Good, InTree, InTrees, Nested, NotNewer, Advanced, Opened, Ended, MadeIn, Fresh, Visit;
    IdCounted(p, emitted);
    Current(s, emitted, p, v);
    var rest := emitted - {p.id};
    var a := Opened(s, parent, p);
    OpenStep(tree, s, parent, p, v, e);
    NestedUnder(tree, p);
    assert {p.id} + rest == emitted;
    StillNotNewer(s, a, {p.id}, rest, {}, v, e);
    SpansOrder(tree, a, p.id, p.spans, rest, v, e);
    var b := SpansReplayed(a, p.id, p.spans);
    EndOrder(b, p, doDone);
    OpenOrder(s, parent, p);
    assert a.seen.Keys == s.seen.Keys + {p.id} by { OpenSeen(s, parent, p); }
    VisitAfter(p, emitted, s.seen.Keys);
  }

  lemma OpenSeen(s: State, parent: nat, p: ProtoSpan)
    ensures Opened(s, parent, p).seen.Keys == s.seen.Keys + {p.id} == RequestOpened(s, p).seen.Keys
  {
  }

  lemma AdvancedSeen(s: State, t: State, emitted: set<nat>, ended: set<nat>, v: seq<nat>, e: seq<int>)
    requires Advanced(s, t, emitted, ended, v, e)
    ensures t.seen.Keys == s.seen.Keys + emitted
  {
  }

  lemma {:induction false} SpansOrder(tree: seq<Node>, s: State, parent: nat, ps: seq<ProtoSpan>, emitted: set<nat>, v: seq<nat>, e: seq<int>)
    requires Good(tree, s) && InTrees(ps, emitted) && NotNewer(s, emitted, v)
    requires forall x: nat :: x in emitted ==> x < |v|
    requires forall j :: 0 <= j < |ps| ==> Under(tree, parent, ps[j]) && Carries(ps[j], v, e)
    requires parent in s.seen
    ensures MadeIn(SpansReplayed(s, parent, ps).calls) == MadeIn(s.calls) + Fresh(Visits(ps), s.seen.Keys)
    decreases ps, 1
  {
    hide Good, InTree, InTrees, Carries, Nested, Under, NotNewer, Advanced, MadeIn, Visit;
    if ps == [] {
      assert MadeIn(s.calls) + [] == MadeIn(s.calls);
    } else {
      hide Fresh, Visits, SpanReplayed;
      var last := LastTree(tree, s, parent, ps, emitted, v, e);
      var p, rest := ps[|ps| - 1], ps[..|ps| - 1];
      var t := SpanReplayed(s, parent, p, true);
      SpanOrder(tree, s, parent, p, true, last, v, e);
      SpansOrder(tree, t, parent, rest, emitted - last, v, e);
      AdvancedSeen(s, t, last, last, v, e);
      VisitsSplit(ps, emitted - last, last, s.seen.Keys);
      Regrouped(MadeIn(s.calls), Fresh(Visit(p), s.seen.Keys), Fresh(Visits(rest), t.seen.Keys));
    }
  }

  lemma Regrouped(a: seq<nat>, b: seq<nat>, c: seq<nat>)
    ensures a + b + c == a + (b + c)
  {
  }

  lemma VisitsSplit(ps: seq<ProtoSpan>, emitted: set<nat>, last: set<nat>, known: set<nat>)
    requires ps != [] && InTrees(ps[..|ps| - 1], emitted) && emitted !! last
    ensures var p, rest := ps[|ps| - 1], ps[..|ps| - 1];
            Fresh(Visit(p), known) + Fresh(Visits(rest), known + last) == Fresh(Visits(ps), known)
  {
    hide InTrees, Fresh, Visit;
    Others(ps[..|ps| - 1], emitted, last, known);
    FreshAppend(Visit(ps[|ps| - 1]), Visits(ps[..|ps| - 1]), known);
  }

  /** Spans of another tree are no news for these. */
  lemma Others(ps: seq<ProtoSpan>, emitted: set<nat>, last: set<nat>, known: set<nat>)
    requires InTrees(ps, emitted) && emitted !! last
    ensures Fresh(Visits(ps), known + last) == Fresh(Visits(ps), known)
  {
    forall x | x in Visits(ps)
      ensures x in known <==> x in known + last
    {
      VisitsCount(ps, x);
    }
    FreshSame(Visits(ps), known, known + last);
  }

  /** A batch creates the spans in its tree that are new, in the order of the visit. */
  lemma BatchOrder(tree: seq<Node>, dirty: set<nat>, v: seq<nat>, e: seq<int>, prior: nat, lines: seq<Line>, s: State, b: Batch)
    requires NoDetached(tree) && |v| == |e| == |tree| && Caught(tree, v, s) && BatchOk(tree, dirty, v, e, prior, lines, b)
    ensures MadeIn(BatchReplayed(s, b).0.calls) == MadeIn(s.calls) + Fresh(Visit(b.span), s.seen.Keys)
  {
    hide Caught, Good, NotNewer, Advanced, SpanReplayed, LinesReplayed, RequestOpened, Ended, Covers, Nested, Count, MadeIn, Fresh, Visit;
    var up := Up(tree, dirty);
    var w := Bumped(v, up);
    var p := b.span;
    var a := RequestOpened(s, p);
    assert InTree(p, up);
    RequestStep(tree, s, p, v, w, up);
    RequestAdvances(tree, s, p, v, w, e);
    SpanAdvances(tree, a, 0, p, false, up, w, e);
    var c := SpanReplayed(a, 0, p, false);
    CaughtUp(tree, s, a, c, v, w, up, e);
    SpanOrder(tree, a, 0, p, false, up, w, e);
    LinesOrder(c, b.lines);
    EndOrder(LinesReplayed(c, b.lines).0, p, true);
    OpenOrder(s, 0, p);
    OpenSeen(s, 0, p);
    VisitAfter(p, up, s.seen.Keys);
    VisitAgain(p, s.seen.Keys);
  }

  lemma VisitAgain(p: ProtoSpan, known: set<nat>)
    ensures Fresh(Visit(p), known + {p.id}) == Fresh(Visits(p.spans), known + {p.id})
  {
    assert Visit(p)[1..] == Visits(p.spans);
  }

  lemma {:induction false} MadeElements(calls: seq<Call>)
    ensures Made(calls) == Elements(MadeIn(calls))
  {
    if calls != [] {
      MadeElements(calls[..|calls| - 1]);
    }
  }

  lemma {:induction false} RunOrder(ops: seq<PbRuns.Op>, sent: seq<Batch>)
    requires PbRuns.WellUsed(ops) && PbRuns.Sent(ops, sent) && Replayed(sent).1
    ensures MadeIn(Replayed(sent).0.calls) == Order(sent)
  {
    if ops != [] {
      hide Reproduced, Took, Announced, BatchReplayed, BatchOk, Visit, Fresh, Elements;
      var past := PbRuns.Init(ops);
      if PbRuns.Last(ops).Flush? {
        var some, b := sent[..|sent| - 1], sent[|sent| - 1];
        RunOrder(past, some);
        RunReproduced(past, some);
        var s := Replayed(some).0;
        FlushOrder(past, some, s, b);
      } else {
        RunOrder(past, sent);
      }
    }
  }

  lemma FlushOrder(past: seq<PbRuns.Op>, some: seq<Batch>, s: State, b: Batch)
    requires PbRuns.WellUsed(past) && PbRuns.Due(past, b) && Reproduced(past, some, s)
    ensures MadeIn(BatchReplayed(s, b).0.calls) == MadeIn(s.calls) + Fresh(Visit(b.span), Elements(MadeIn(s.calls)))
  {
    hide Caught, BatchOk, Covers, BatchReplayed, Bumped, Up, PbRuns.VersionsOf, PbRuns.EndsOf, PbRuns.PriorOf, PbRuns.FreshOf, PbRuns.TreeOf, MadeIn, Made, Fresh, Visit;
    BatchOrder(PbRuns.TreeOf(past), PbRuns.DirtyOf(past), PbRuns.VersionsOf(past), PbRuns.EndsOf(past), PbRuns.PriorOf(past), PbRuns.FreshOf(past), s, b);
    MadeElements(s.calls);
    assert s.seen.Keys == Made(s.calls) by { CaughtMade(PbRuns.TreeOf(past), PbRuns.VersionsOf(past), s); }
  }

  lemma CaughtMade(tree: seq<Node>, v: seq<nat>, s: State)
    requires Caught(tree, v, s)
    ensures Made(s.calls) == s.seen.Keys
  {
  }

  /** Replaying what a run emitted succeeds exactly when the run is covered; then every emitted span is created
      once, under its own parent and after it, and is never used before, in the order in which the batches hold them
      with siblings last to first; all emitted lines arrive in logging order; and each span is ended with the end times it was emitted with. */
  lemma RoundTrip(ops: seq<PbRuns.Op>, sent: seq<Batch>)
    requires PbRuns.WellUsed(ops) && PbRuns.Sent(ops, sent)
    ensures Replayed(sent).1 <==> Covered(ops)
    ensures var calls := Replayed(sent).0.calls; Covered(ops) ==>
              && Legal(PbRuns.TreeOf(ops), calls)
              && (forall x: nat :: x in Made(calls) <==> x < PbRuns.Size(ops) && PbRuns.VersionsOf(ops)[x] > 0)
              && MadeIn(calls) == Order(sent)
              && LinesIn(calls) + PbRuns.FreshOf(ops) == PbRuns.LinesOf(ops)
              && forall x: nat :: EndsIn(calls, x) == EmittedEnds(ops, x)
  {
    hide Covered, MadeIn, Order;
    RunReproduced(ops, sent);
    PbRuns.LinesConserved(ops, sent);
    if Covered(ops) {
      RunOrder(ops, sent);
    }
  }

  /** Batches of the same request that are older than what was replayed. */
  predicate Older(late: seq<Batch>, version: nat) {
    forall k :: 0 <= k < |late| ==> late[k].span.id == 0 && late[k].span.version < version
  }

  /** Older batches that come late are passed over: the replay goes on and nothing more is called. */
  lemma {:induction false} LateIgnored(ops: seq<PbRuns.Op>, sent: seq<Batch>, late: seq<Batch>)
    requires PbRuns.WellUsed(ops) && PbRuns.Sent(ops, sent) && Covered(ops) && Older(late, PbRuns.VersionsOf(ops)[0])
    ensures Replayed(sent + late) == Replayed(sent) && Replayed(sent + late).1
  {
    hide Covered, PbRuns.Sent, LinesReplayed, SpanReplayed;
    RunReproduced(ops, sent);
    if late == [] {
      assert sent + late == sent;
    } else {
      var some, b := late[..|late| - 1], late[|late| - 1];
      LateIgnored(ops, sent, some);
      assert (sent + late)[..|sent + late| - 1] == sent + some && (sent + late)[|sent + late| - 1] == b;
      var s := Replayed(sent).0;
      assert 0 in s.seen && s.seen[0] == PbRuns.VersionsOf(ops)[0];
    }
  }

  /** Every line is of a span that has been emitted, with versions `w`. */
  ghost predicate AllEmitted(w: seq<nat>, lines: seq<Line>) {
    forall k :: 0 <= k < |lines| ==> lines[k].span < |w| && w[lines[k].span] > 0
  }

  ghost predicate AllAnnounced(past: seq<PbRuns.Op>, lines: seq<Line>)
    requires PbRuns.WellUsed(past)
  {
    forall k :: 0 <= k < |lines| ==> Announced(past, lines[k].span)
  }

  lemma SpanEmitted(past: seq<PbRuns.Op>, w: seq<nat>, x: nat)
    requires PbRuns.WellUsed(past) && w == Bumped(PbRuns.VersionsOf(past), PbRuns.DueOf(past))
    ensures x < |w| && w[x] > 0 <==> Announced(past, x)
  {
    hide Announced, Bumped, PbRuns.VersionsOf, PbRuns.DueOf;
    AnnouncedKnown(past, x);
    if x < PbRuns.Size(past) {
      EmittedIffDone(past, x);
      BumpedAt(PbRuns.VersionsOf(past), PbRuns.DueOf(past), x);
    }
  }

  lemma LinesEmitted(past: seq<PbRuns.Op>, w: seq<nat>, lines: seq<Line>)
    requires PbRuns.WellUsed(past) && w == Bumped(PbRuns.VersionsOf(past), PbRuns.DueOf(past))
    ensures AllEmitted(w, lines) <==> AllAnnounced(past, lines)
  {
    hide Announced, Bumped, PbRuns.VersionsOf, PbRuns.DueOf;
    forall k | 0 <= k < |lines|
      ensures lines[k].span < |w| && w[lines[k].span] > 0 <==> Announced(past, lines[k].span)
    {
      SpanEmitted(past, w, lines[k].span);
    }
  }

  lemma FlushReplayed(past: seq<PbRuns.Op>, s: State, b: Batch)
    requires PbRuns.WellUsed(past) && PbRuns.Due(past, b) && Caught(PbRuns.TreeOf(past), PbRuns.VersionsOf(past), s)
    ensures BatchReplayed(s, b).1 <==> AllAnnounced(past, PbRuns.FreshOf(past))
    ensures var up := PbRuns.DueOf(past); BatchReplayed(s, b).1 ==>
            Took(PbRuns.TreeOf(past), s, BatchReplayed(s, b).0, up, Bumped(PbRuns.VersionsOf(past), up), PbRuns.EndsOf(past), PbRuns.FreshOf(past))
  {
    hide AllAnnounced, Caught, BatchOk, Covers, BatchReplayed, Took, Bumped, Up, PbRuns.VersionsOf, PbRuns.EndsOf, PbRuns.PriorOf, PbRuns.FreshOf, PbRuns.TreeOf;
    var lines := PbRuns.FreshOf(past);
    var w := Bumped(PbRuns.VersionsOf(past), PbRuns.DueOf(past));
    BatchAdvances(PbRuns.TreeOf(past), PbRuns.DirtyOf(past), PbRuns.VersionsOf(past), PbRuns.EndsOf(past), PbRuns.PriorOf(past), lines, s, b);
    assert BatchReplayed(s, b).1 <==> AllEmitted(w, lines);
    LinesEmitted(past, w, lines);
  }

  lemma BumpedAt(v: seq<nat>, s: set<nat>, x: nat)
    requires x < |v|
    ensures Bumped(v, s)[x] > 0 <==> v[x] > 0 || x in s
  {
  }

  lemma AnnouncedKnown(past: seq<PbRuns.Op>, x: nat)
    requires PbRuns.WellUsed(past)
    ensures Announced(past, x) ==> x < PbRuns.Size(past)
  {
  }
}
