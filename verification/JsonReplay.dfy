/** Rebuilding the tree of spans from JSON records (xopjson/replay.go). */
module JsonReplay {
  import opened Options

  type Id = string

  /** A decoded record.  A bad header (parent trace, source or namespace), bad attributes and bad lines stand
      for the ways in which replaying the contents of a record can fail. */
  datatype Record =
    | RequestRecord(id: Id, ts: int, duration: Option<int>, badHeader: bool, badAttributes: bool)
    | SpanRecord(id: Id, parent: Id, ts: int, duration: Option<int>, badAttributes: bool)
    | LineRecord(span: Id, text: string, badLine: bool)
    | UnknownRecord

  datatype Call =
    | StartRequest(id: Id, record: nat)
    | StartSpan(parent: Id, id: Id, record: nat)
    | LogLine(span: Id, text: string)
    | EndSpan(id: Id, t: int)

  function Init<T>(s: seq<T>): seq<T>
    requires s != []
  {
    s[..|s| - 1]
  }

  function Last<T>(s: seq<T>): T
    requires s != []
  {
    s[|s| - 1]
  }

  predicate IsSpan(r: Record) { r.SpanRecord? || r.RequestRecord? }

  /** The last record of each ID. */
  function Table(recs: seq<Record>): (t: map<Id, nat>)
    ensures forall id :: id in t ==> t[id] < |recs| && IsSpan(recs[t[id]]) && recs[t[id]].id == id
  {
    if recs == [] then map[]
    else if IsSpan(Last(recs)) then Table(Init(recs))[Last(recs).id := |recs| - 1]
    else Table(Init(recs))
  }

  /** The records of requests, and of spans. */
  function Requests(recs: seq<Record>): (r: seq<nat>)
    ensures AreRequests(recs, r)
  {
    if recs == [] then [] else Requests(Init(recs)) + (if Last(recs).RequestRecord? then [|recs| - 1] else [])
  }

  function Spans(recs: seq<Record>): (r: seq<nat>)
    ensures AreSpans(recs, r)
  {
    if recs == [] then [] else Spans(Init(recs)) + (if Last(recs).SpanRecord? then [|recs| - 1] else [])
  }

  function Lines(recs: seq<Record>): (r: seq<nat>)
    ensures forall i :: 0 <= i < |r| ==> r[i] < |recs| && recs[r[i]].LineRecord?
  {
    if recs == [] then [] else Lines(Init(recs)) + (if Last(recs).LineRecord? then [|recs| - 1] else [])
  }

  predicate AreRequests(recs: seq<Record>, list: seq<nat>) {
    forall i :: 0 <= i < |list| ==> list[i] < |recs| && recs[list[i]].RequestRecord?
  }

  predicate AllKnown(recs: seq<Record>) {
    forall i :: 0 <= i < |recs| ==> !recs[i].UnknownRecord?
  }

  /** The IDs of spans that name a parent, in order of their records and with repetitions. */
  function Children(recs: seq<Record>, p: Id): seq<Id> {
    if recs == [] then []
    else Children(Init(recs), p) + (if Last(recs).SpanRecord? && Last(recs).parent == p then [Last(recs).id] else [])
  }

  predicate IsRequestId(recs: seq<Record>, id: Id) {
    exists i :: 0 <= i < |recs| && recs[i].RequestRecord? && recs[i].id == id
  }

  /** No span has the ID of a request. */
  ghost predicate Disjoint(recs: seq<Record>) {
    forall i, j :: 0 <= i < |recs| && 0 <= j < |recs| && recs[i].SpanRecord? && recs[j].RequestRecord? ==> recs[i].id != recs[j].id
  }

  // ---- What the destination sees ---------------------------------------------------

  function Made(calls: seq<Call>): set<Id> {
    if calls == [] then {}
    else Made(Init(calls)) + (if Last(calls).StartRequest? || Last(calls).StartSpan? then {Last(calls).id} else {})
  }

  predicate Allowed(recs: seq<Record>, made: set<Id>, c: Call) {
    match c
    case StartRequest(id, r) => id !in made && id in Table(recs) && Table(recs)[id] == r && recs[r].RequestRecord?
    case StartSpan(p, id, r) => id !in made && p in made && id in Children(recs, p) && id in Table(recs) && Table(recs)[id] == r
    case LogLine(span, _) => span in made
    case EndSpan(id, _) => id in made
  }

  /** Requests and spans are created at most once, from their last records, spans under a parent that they
      name and after it, and nothing is used before it is created. */
  predicate Legal(recs: seq<Record>, calls: seq<Call>) {
    calls == [] || (Legal(recs, Init(calls)) && Allowed(recs, Made(Init(calls)), Last(calls)))
  }

  function EndsIn(calls: seq<Call>, id: Id): seq<int> {
    if calls == [] then []
    else EndsIn(Init(calls), id) + (if Last(calls).EndSpan? && Last(calls).id == id then [Last(calls).t] else [])
  }

  function LinesIn(calls: seq<Call>): seq<(Id, string)> {
    if calls == [] then []
    else LinesIn(Init(calls)) + (if Last(calls).LogLine? then [(Last(calls).span, Last(calls).text)] else [])
  }

  function StartedIn(calls: seq<Call>): seq<Id> {
    if calls == [] then []
    else StartedIn(Init(calls)) + (if Last(calls).StartRequest? then [Last(calls).id] else [])
  }

  lemma Snoc(recs: seq<Record>, calls: seq<Call>, c: Call)
    ensures Made(calls + [c]) == Made(calls) + (if c.StartRequest? || c.StartSpan? then {c.id} else {})
    ensures Legal(recs, calls + [c]) <==> Legal(recs, calls) && Allowed(recs, Made(calls), c)
    ensures forall id :: EndsIn(calls + [c], id) == EndsIn(calls, id) + (if c.EndSpan? && c.id == id then [c.t] else [])
    ensures LinesIn(calls + [c]) == LinesIn(calls) + (if c.LogLine? then [(c.span, c.text)] else [])
    ensures StartedIn(calls + [c]) == StartedIn(calls) + (if c.StartRequest? then [c.id] else [])
  {
    assert Init(calls + [c]) == calls;
  }

  /** When a record says that its span ended. */
  function EndOf(r: Record): seq<int>
    requires IsSpan(r)
  {
    if r.duration.Some? then [r.ts + r.duration.value] else []
  }

  // ---- Reachable spans ----------------------------------------------------------------

  ghost predicate ReachIn(recs: seq<Record>, n: nat, id: Id) {
    if n == 0 then IsRequestId(recs, id)
    else ReachIn(recs, n - 1, id) || exists p :: ReachIn(recs, n - 1, p) && id in Children(recs, p)
  }

  /** A request, or a span that names a reachable parent in one of its records. */
  ghost predicate Reachable(recs: seq<Record>, id: Id) {
    exists n: nat :: ReachIn(recs, n, id)
  }

  lemma {:induction false} TableRequest(recs: seq<Record>, id: Id)
    requires id in Table(recs) && recs[Table(recs)[id]].RequestRecord?
    ensures IsRequestId(recs, id)
  {
    assert recs[Table(recs)[id]].id == id;
  }

  /** Whatever was created is reachable. */
  lemma {:induction false} MadeReachable(recs: seq<Record>, calls: seq<Call>, id: Id)
    requires Legal(recs, calls) && id in Made(calls)
    ensures Reachable(recs, id)
  {
    var c := Last(calls);
    if id in Made(Init(calls)) {
      MadeReachable(recs, Init(calls), id);
    } else if c.StartRequest? {
      TableRequest(recs, id);
      assert ReachIn(recs, 0, id);
    } else {
      MadeReachable(recs, Init(calls), c.parent);
      var n: nat :| ReachIn(recs, n, c.parent);
      assert ReachIn(recs, n + 1, id);
    }
  }

  /** All requests were created, and with each span all that name it as parent. */
  ghost predicate Complete(recs: seq<Record>, spans: set<Id>) {
    && (forall id :: IsRequestId(recs, id) ==> id in spans)
    && forall p, c :: p in spans && c in Children(recs, p) ==> c in spans
  }

  lemma {:induction false} ReachedMade(recs: seq<Record>, spans: set<Id>, n: nat, id: Id)
    requires Complete(recs, spans) && ReachIn(recs, n, id)
    ensures id in spans
  {
    if n > 0 {
      if ReachIn(recs, n - 1, id) {
        ReachedMade(recs, spans, n - 1, id);
      } else {
        var p :| ReachIn(recs, n - 1, p) && id in Children(recs, p);
        ReachedMade(recs, spans, n - 1, p);
      }
    }
  }

  lemma {:induction false} ChildRecord(recs: seq<Record>, p: Id, c: Id)
    requires c in Children(recs, p)
    ensures exists i :: 0 <= i < |recs| && recs[i].SpanRecord? && recs[i].id == c && recs[i].parent == p
    ensures c in Table(recs)
  {
    var r := Last(recs);
    if r.SpanRecord? && r.parent == p && r.id == c {
      assert recs[|recs| - 1] == r;
    } else {
      ChildRecord(Init(recs), p, c);
      var i :| 0 <= i < |Init(recs)| && Init(recs)[i].SpanRecord? && Init(recs)[i].id == c && Init(recs)[i].parent == p;
      assert recs[i] == Init(recs)[i];
    }
  }

  /** With disjoint IDs the last record of a child is a span record, and of a request a request record. */
  lemma DisjointTable(recs: seq<Record>, id: Id)
    requires Disjoint(recs) && id in Table(recs)
    ensures IsRequestId(recs, id) <==> recs[Table(recs)[id]].RequestRecord?
  {
    assert recs[Table(recs)[id]].id == id;
  }

  // ---- The replay ------------------------------------------------------------------------

  /** Each last record of an ID holds the IDs that name it as parent. */
  ghost predicate Attached(recs: seq<Record>, sub: seq<seq<Id>>) {
    |sub| == |recs| && forall r: nat :: r < |recs| && r < |sub| ==>
      sub[r] == if IsLast(recs, r) then Children(recs, recs[r].id) else []
  }

  ghost predicate Finished(recs: seq<Record>, spans: set<Id>, y: Id) {
    && y in Table(recs) && !recs[Table(recs)[y]].badAttributes
    && forall c :: c in Children(recs, y) ==> c in spans
  }

  function EndsSoFar(recs: seq<Record>, y: Id): seq<int> {
    if y in Table(recs) && recs[Table(recs)[y]].SpanRecord? then EndOf(recs[Table(recs)[y]]) else []
  }

  /** Spans outside the stack are finished, with all their children created and their end told. */
  ghost predicate Traversed(recs: seq<Record>, calls: seq<Call>, spans: set<Id>, stack: set<Id>) {
    && Legal(recs, calls) && Made(calls) == spans && stack <= spans
    && (forall y :: y in spans && y !in stack ==> Finished(recs, spans, y))
    && forall y :: EndsIn(calls, y) == if y in spans && y !in stack then EndsSoFar(recs, y) else []
  }

  ghost predicate Sound(recs: seq<Record>, calls: seq<Call>, spans: set<Id>, stack: set<Id>) {
    Disjoint(recs) ==> Traversed(recs, calls, spans, stack)
  }

  lemma StartStep(recs: seq<Record>, calls: seq<Call>, spans: set<Id>, stack: set<Id>, p: Id, c: Id)
    requires Sound(recs, calls, spans, stack) && p in spans && c in Children(recs, p) && c !in spans
    ensures c in Table(recs)
    ensures Sound(recs, calls + [StartSpan(p, c, Table(recs)[c])], spans + {c}, stack + {c})
    ensures var more := calls + [StartSpan(p, c, Table(recs)[c])]; StartedIn(more) == StartedIn(calls) && LinesIn(more) == LinesIn(calls)
  {
    hide Children, Table, Legal, EndsIn, Made, StartedIn, LinesIn, Disjoint, EndsSoFar;
    ChildRecord(recs, p, c);
    Snoc(recs, calls, StartSpan(p, c, Table(recs)[c]));
  }

  lemma RequestStep(recs: seq<Record>, calls: seq<Call>, spans: set<Id>, id: Id, r: nat)
    requires Sound(recs, calls, spans, {}) && r < |recs|
    requires Disjoint(recs) ==> id !in spans && id in Table(recs) && Table(recs)[id] == r && recs[r].RequestRecord?
    ensures Sound(recs, calls + [StartRequest(id, r)], spans + {id}, {id})
  {
    hide Children, Table, Legal, EndsIn, Made, Disjoint, EndsSoFar;
    Snoc(recs, calls, StartRequest(id, r));
  }

  /** The end of a span when the recursion leaves it. */
  lemma FinishEnd(recs: seq<Record>, calls: seq<Call>, id: Id, r: nat, skipDone: bool)
    requires id in Table(recs) && Table(recs)[id] == r && r < |recs| && IsSpan(recs[r]) && (skipDone <==> recs[r].RequestRecord?)
    requires EndsIn(calls, id) == []
    ensures !skipDone && recs[r].duration.Some? ==> EndsIn(calls + [EndSpan(id, recs[r].ts + recs[r].duration.value)], id) == EndsSoFar(recs, id)
    ensures skipDone || recs[r].duration.None? ==> EndsSoFar(recs, id) == []
  {
    hide Table, EndsIn;
    if !skipDone && recs[r].duration.Some? {
      Snoc(recs, calls, EndSpan(id, recs[r].ts + recs[r].duration.value));
    }
  }

  lemma FinishStep(recs: seq<Record>, calls: seq<Call>, spans: set<Id>, stack: set<Id>, id: Id, r: nat, skipDone: bool, more: seq<Call>)
    requires Sound(recs, calls, spans, stack + {id}) && id !in stack && id in spans && r < |recs| && IsSpan(recs[r])
    requires Disjoint(recs) ==> id in Table(recs) && Table(recs)[id] == r && !recs[r].badAttributes && (skipDone <==> recs[r].RequestRecord?)
    requires Disjoint(recs) ==> forall c :: c in Children(recs, id) ==> c in spans
    requires more == if !skipDone && recs[r].duration.Some? then calls + [EndSpan(id, recs[r].ts + recs[r].duration.value)] else calls
    ensures Sound(recs, more, spans, stack)
    ensures StartedIn(more) == StartedIn(calls) && LinesIn(more) == LinesIn(calls)
  {
    hide Children, Table, Legal, EndsIn, Made, StartedIn, LinesIn, Disjoint, EndsSoFar;
    if Disjoint(recs) {
      FinishEnd(recs, calls, id, r, skipDone);
    }
    if !skipDone && recs[r].duration.Some? {
      Snoc(recs, calls, EndSpan(id, recs[r].ts + recs[r].duration.value));
    }
  }

  lemma SoundLegal(recs: seq<Record>, calls: seq<Call>, spans: set<Id>, stack: set<Id>)
    requires Sound(recs, calls, spans, stack)
    ensures Disjoint(recs) ==> Legal(recs, calls) && Made(calls) == spans
  {
  }

  lemma IsBad(recs: seq<Record>, spans: set<Id>, id: Id, r: nat)
    requires id in spans && id in Table(recs) && Table(recs)[id] == r && recs[r].badAttributes
    ensures SomeBad(recs, spans)
  {
  }

  lemma SubIsChildren(recs: seq<Record>, sub: seq<seq<Id>>, r: nat)
    requires Attached(recs, sub) && r < |recs| && IsSpan(recs[r])
    ensures r < |sub| && forall c :: c in sub[r] ==> c in Children(recs, recs[r].id)
    ensures recs[r].id in Table(recs) && Table(recs)[recs[r].id] == r ==> sub[r] == Children(recs, recs[r].id)
  {
  }

  lemma StartedSpan(recs: seq<Record>, p: Id, c: Id)
    requires c in Children(recs, p) && c in Table(recs)
    ensures Disjoint(recs) ==> recs[Table(recs)[c]].SpanRecord?
  {
    hide Children, Table;
    ChildRecord(recs, p, c);
    if Disjoint(recs) {
      DisjointTable(recs, c);
    }
  }

  /** How many known spans are still to be created. */
  ghost function Left(recs: seq<Record>, spans: set<Id>): nat {
    |Table(recs).Keys - spans|
  }

  lemma FewerLeft(recs: seq<Record>, before: set<Id>, after: set<Id>)
    requires before <= after
    ensures Left(recs, after) <= Left(recs, before)
    ensures forall c :: c in Table(recs) && c !in after ==> Left(recs, after + {c}) < Left(recs, after)
  {
    hide Table;
    var all := Table(recs).Keys;
    Larger(all - after, all - before);
    forall c | c in all && c !in after ensures Left(recs, after + {c}) < Left(recs, after) {
      assert all - after == (all - (after + {c})) + {c};
    }
  }

  lemma Larger(a: set<Id>, b: set<Id>)
    requires a <= b
    ensures |a| <= |b|
  {
    assert b == a + (b - a);
  }

  /** Some created span has attributes that cannot be replayed. */
  ghost predicate SomeBad(recs: seq<Record>, spans: set<Id>) {
    exists y :: y in spans && y in Table(recs) && recs[Table(recs)[y]].badAttributes
  }

  /** Every span record names a parent that is known. */
  predicate ParentsKnown(recs: seq<Record>) {
    forall i :: 0 <= i < |recs| && recs[i].SpanRecord? ==> recs[i].parent != "" && recs[i].parent in Table(recs)
  }

  /** The same by way of a list of span records. */
  function ChildrenIn(recs: seq<Record>, list: seq<nat>, p: Id): seq<Id>
    requires AreSpans(recs, list)
  {
    if list == [] then []
    else ChildrenIn(recs, Init(list), p) + (if recs[Last(list)].parent == p then [recs[Last(list)].id] else [])
  }

  lemma {:induction false} ChildrenLocal(recs: seq<Record>, r: Record, list: seq<nat>, p: Id)
    requires AreSpans(recs, list)
    ensures ChildrenIn(recs + [r], list, p) == ChildrenIn(recs, list, p)
  {
    if list != [] {
      ChildrenLocal(recs, r, Init(list), p);
    }
  }

  lemma {:induction false} ChildrenInSpans(recs: seq<Record>, p: Id)
    ensures ChildrenIn(recs, Spans(recs), p) == Children(recs, p)
  {
    if recs != [] {
      ChildrenInSpans(Init(recs), p);
      assert recs == Init(recs) + [Last(recs)];
      ChildrenLocal(Init(recs), Last(recs), Spans(Init(recs)), p);
      var list := Spans(Init(recs));
      if Last(recs).SpanRecord? {
        assert Init(list + [|recs| - 1]) == list;
      } else {
        assert list + [] == list;
      }
    }
  }

  lemma {:induction false} SpansComplete(recs: seq<Record>, i: nat)
    requires i < |recs| && recs[i].SpanRecord?
    ensures i in Spans(recs)
  {
    if i < |recs| - 1 {
      assert Init(recs)[i] == recs[i];
      SpansComplete(Init(recs), i);
    }
  }

  predicate AreSpans(recs: seq<Record>, list: seq<nat>) {
    forall i :: 0 <= i < |list| ==> list[i] < |recs| && recs[list[i]].SpanRecord?
  }

  predicate ParentsIn(recs: seq<Record>, list: seq<nat>)
    requires AreSpans(recs, list)
  {
    forall j :: 0 <= j < |list| ==> recs[list[j]].parent != "" && recs[list[j]].parent in Table(recs)
  }

  lemma ParentsInSpans(recs: seq<Record>)
    ensures ParentsKnown(recs) <==> ParentsIn(recs, Spans(recs))
  {
    var spans := Spans(recs);
    hide Table, Spans;
    if ParentsIn(recs, spans) {
      forall i | 0 <= i < |recs| && recs[i].SpanRecord? ensures recs[i].parent != "" && recs[i].parent in Table(recs) {
        SpansComplete(recs, i);
        var j :| 0 <= j < |spans| && spans[j] == i;
      }
    }
    if ParentsKnown(recs) {
      forall j | 0 <= j < |spans| ensures recs[spans[j]].parent != "" && recs[spans[j]].parent in Table(recs) {
        assert recs[spans[j]].SpanRecord?;
      }
    }
  }

  predicate IsLast(recs: seq<Record>, r: nat)
    requires r < |recs|
  {
    IsSpan(recs[r]) && recs[r].id in Table(recs) && Table(recs)[recs[r].id] == r
  }

  ghost predicate AttachedFrom(recs: seq<Record>, list: seq<nat>, sub: seq<seq<Id>>)
    requires AreSpans(recs, list)
  {
    |sub| == |recs| && forall r: nat :: r < |recs| && r < |sub| ==>
      sub[r] == if IsLast(recs, r) then ChildrenIn(recs, list, recs[r].id) else []
  }

  lemma ChildrenInSnoc(recs: seq<Record>, list: seq<nat>, s: nat, p: Id)
    requires AreSpans(recs, list) && AreSpans(recs, list + [s]) && s < |recs| && recs[s].SpanRecord?
    ensures ChildrenIn(recs, list + [s], p) == ChildrenIn(recs, list, p) + (if recs[s].parent == p then [recs[s].id] else [])
  {
    assert Init(list + [s]) == list;
  }

  lemma AttachOne(recs: seq<Record>, list: seq<nat>, sub: seq<seq<Id>>, s: nat)
    requires AreSpans(recs, list) && AreSpans(recs, list + [s])
    requires s < |recs| && recs[s].SpanRecord? && recs[s].parent in Table(recs) && AttachedFrom(recs, list, sub)
    ensures var r := Table(recs)[recs[s].parent]; r < |sub| && AttachedFrom(recs, list + [s], sub[r := sub[r] + [recs[s].id]])
  {
    hide Table, ChildrenIn, AreSpans;
    var p := recs[s].parent;
    var t := Table(recs)[p];
    TableEntry(recs, p);
    forall r: nat | r < |recs|
      ensures sub[t := sub[t] + [recs[s].id]][r] == if IsLast(recs, r) then ChildrenIn(recs, list + [s], recs[r].id) else []
    {
      if IsLast(recs, r) {
        ChildrenInSnoc(recs, list, s, recs[r].id);
        assert recs[r].id == p <==> r == t;
        assert ChildrenIn(recs, list, recs[r].id) + [] == ChildrenIn(recs, list, recs[r].id);
      }
    }
  }

  lemma NoneAttached(recs: seq<Record>, sub: seq<seq<Id>>)
    requires |sub| == |recs| && forall r :: 0 <= r < |sub| ==> sub[r] == []
    ensures AreSpans(recs, []) && ParentsIn(recs, []) && AttachedFrom(recs, [], sub)
  {
  }

  /** One more span record of a list. */
  lemma NextSpan(recs: seq<Record>, list: seq<nat>, k: nat)
    requires AreSpans(recs, list) && k < |list|
    ensures AreSpans(recs, list[..k]) && AreSpans(recs, list[..k + 1]) && list[k] < |recs| && recs[list[k]].SpanRecord?
    ensures list[..k + 1] == list[..k] + [list[k]]
    ensures ParentsIn(recs, list) ==> recs[list[k]].parent != "" && recs[list[k]].parent in Table(recs)
  {
    hide Table;
  }

  lemma OneParent(recs: seq<Record>, list: seq<nat>, s: nat)
    requires AreSpans(recs, list) && AreSpans(recs, list + [s]) && ParentsIn(recs, list)
    requires s < |recs| && recs[s].SpanRecord? && recs[s].parent != "" && recs[s].parent in Table(recs)
    ensures ParentsIn(recs, list + [s])
  {
    hide Table;
  }

  lemma AttachedAll(recs: seq<Record>, sub: seq<seq<Id>>)
    requires AttachedFrom(recs, Spans(recs), sub)
    ensures Attached(recs, sub)
  {
    hide Table, Spans, Children;
    forall p ensures ChildrenIn(recs, Spans(recs), p) == Children(recs, p) {
      ChildrenInSpans(recs, p);
    }
  }

  // ---- The order of the calls -------------------------------------------------------------

  /** What is left to do: a request, a span below a parent, the end of a span. */
  datatype Step = Begin(id: Id) | Enter(parent: Id, id: Id) | Leave(id: Id)

  function Enters(p: Id, ids: seq<Id>): seq<Step> {
    seq(|ids|, i requires 0 <= i < |ids| => Enter(p, ids[i]))
  }

  /** What a created request or span still has to do. */
  function Below(recs: seq<Record>, s: Step): seq<Step> {
    Enters(s.id, Children(recs, s.id)) + (if s.Enter? then [Leave(s.id)] else [])
  }

  /** Depth first from a list of steps: an ID is created where it is met first, then what names it as parent, in order of
      the records, then it ends. */
  function Walk(recs: seq<Record>, todo: seq<Step>, seen: set<Id>): (r: (seq<Call>, set<Id>))
    ensures seen <= r.1
    decreases |Table(recs).Keys - seen|, |todo|
  {
    if todo == [] then ([], seen)
    else
      var s := todo[0];
      if s.Leave? then
        var r := Walk(recs, todo[1..], seen);
        (EndCall(recs, s.id) + r.0, r.1)
      else if s.id in seen || s.id !in Table(recs) then Walk(recs, todo[1..], seen)
      else
        Fewer(Table(recs).Keys, seen, s.id);
        var r := Walk(recs, Below(recs, s) + todo[1..], seen + {s.id});
        ([StartCall(recs, s)] + r.0, r.1)
  }

  function StartCall(recs: seq<Record>, s: Step): Call
    requires !s.Leave? && s.id in Table(recs)
  {
    if s.Begin? then StartRequest(s.id, Table(recs)[s.id]) else StartSpan(s.parent, s.id, Table(recs)[s.id])
  }

  function EndCall(recs: seq<Record>, id: Id): seq<Call> {
    if id in Table(recs) then
      var r := recs[Table(recs)[id]];
      if r.duration.Some? then [EndSpan(id, r.ts + r.duration.value)] else []
    else []
  }

  lemma Fewer(all: set<Id>, seen: set<Id>, id: Id)
    requires id in all && id !in seen
    ensures |all - (seen + {id})| < |all - seen|
  {
    assert all - seen == (all - (seen + {id})) + {id};
  }

  /** One list of steps after another. */
  lemma {:induction false} WalkAppend(recs: seq<Record>, a: seq<Step>, b: seq<Step>, seen: set<Id>)
    ensures var x := Walk(recs, a, seen); var y := Walk(recs, b, x.1); Walk(recs, a + b, seen) == (x.0 + y.0, y.1)
    decreases |Table(recs).Keys - seen|, |a|
  {
    hide Table, Children, EndCall, StartCall, Below;
    if a == [] {
      assert a + b == b && [] + Walk(recs, b, seen).0 == Walk(recs, b, seen).0;
    } else {
      var s := a[0];
      assert (a + b)[0] == s && (a + b)[1..] == a[1..] + b;
      if s.Leave? {
        WalkAppend(recs, a[1..], b, seen);
        Chained(EndCall(recs, s.id), Walk(recs, a[1..], seen).0, Walk(recs, b, Walk(recs, a[1..], seen).1).0);
      } else if s.id in seen || s.id !in Table(recs) {
        WalkAppend(recs, a[1..], b, seen);
      } else {
        var next := Below(recs, s) + a[1..];
        Fewer(Table(recs).Keys, seen, s.id);
        WalkAppend(recs, next, b, seen + {s.id});
        assert next + b == Below(recs, s) + (a[1..] + b);
        Chained([StartCall(recs, s)], Walk(recs, next, seen + {s.id}).0, Walk(recs, b, Walk(recs, next, seen + {s.id}).1).0);
      }
    }
  }

  lemma Chained(a: seq<Call>, b: seq<Call>, c: seq<Call>)
    ensures a + (b + c) == (a + b) + c
  {
  }

  /** From some calls to more calls by a walk. */
  ghost predicate Walked(recs: seq<Record>, before: seq<Call>, seen: set<Id>, todo: seq<Step>, after: seq<Call>, spans: set<Id>) {
    after == before + Walk(recs, todo, seen).0 && spans == Walk(recs, todo, seen).1
  }

  lemma WalkedOn(recs: seq<Record>, a: seq<Call>, sa: set<Id>, x: seq<Step>, b: seq<Call>, sb: set<Id>, y: seq<Step>, c: seq<Call>, sc: set<Id>)
    requires Walked(recs, a, sa, x, b, sb) && Walked(recs, b, sb, y, c, sc)
    ensures Walked(recs, a, sa, x + y, c, sc)
  {
    hide Walk;
    WalkAppend(recs, x, y, sa);
    Chained(a, Walk(recs, x, sa).0, Walk(recs, y, sb).0);
  }

  /** A created span or request with what is below it, as one step of a walk. */
  lemma WalkedOne(recs: seq<Record>, a: seq<Call>, sa: set<Id>, s: Step, c: seq<Call>, sc: set<Id>)
    requires !s.Leave? && s.id in Table(recs) && s.id !in sa
    requires Walked(recs, a + [StartCall(recs, s)], sa + {s.id}, Below(recs, s), c, sc)
    ensures Walked(recs, a, sa, [s], c, sc)
  {
    hide Table, StartCall, Children;
    assert Below(recs, s) + [s][1..] == Below(recs, s);
    Chained(a, [StartCall(recs, s)], Walk(recs, Below(recs, s), sa + {s.id}).0);
  }

  lemma WalkedNone(recs: seq<Record>, calls: seq<Call>, seen: set<Id>)
    ensures Walked(recs, calls, seen, [], calls, seen)
  {
  }

  lemma WalkedSeen(recs: seq<Record>, calls: seq<Call>, seen: set<Id>, s: Step)
    requires !s.Leave? && s.id in seen
    ensures Walked(recs, calls, seen, [s], calls, seen)
  {
    assert [s][1..] == [];
    assert Walk(recs, [], seen) == ([], seen);
  }

  lemma WalkedLeave(recs: seq<Record>, calls: seq<Call>, seen: set<Id>, id: Id)
    ensures Walked(recs, calls, seen, [Leave(id)], calls + EndCall(recs, id), seen)
  {
    hide EndCall;
    assert [Leave(id)][1..] == [];
    assert Walk(recs, [], seen) == ([], seen);
    assert EndCall(recs, id) + [] == EndCall(recs, id);
  }

  lemma NoEnters(p: Id, ids: seq<Id>)
    ensures Enters(p, ids[..0]) == []
  {
  }

  /** The end of a span that is not a request. */
  lemma WalkedEnd(recs: seq<Record>, a: seq<Call>, sa: set<Id>, x: seq<Step>, b: seq<Call>, sb: set<Id>, id: Id, r: nat, skipDone: bool, c: seq<Call>)
    requires Walked(recs, a, sa, x, b, sb) && r < |recs| && IsLast(recs, r) && recs[r].id == id
    requires c == if !skipDone && recs[r].duration.Some? then b + [EndSpan(id, recs[r].ts + recs[r].duration.value)] else b
    ensures Walked(recs, a, sa, x + (if skipDone then [] else [Leave(id)]), c, sb)
  {
    hide Table, Walked;
    if skipDone {
      assert x + [] == x;
    } else {
      WalkedLeave(recs, b, sb, id);
      assert b + [] == b;
      WalkedOn(recs, a, sa, x, b, sb, [Leave(id)], c, sb);
    }
  }

  lemma EntersSnoc(p: Id, ids: seq<Id>, k: nat)
    requires k < |ids|
    ensures Enters(p, ids[..k + 1]) == Enters(p, ids[..k]) + [Enter(p, ids[k])]
  {
  }

  class Replayer {
    const recs: seq<Record>
    var spanMap: map<Id, nat>
    var sub: seq<seq<Id>>
    var spans: set<Id>
    var calls: seq<Call>

    constructor (recs: seq<Record>)
      ensures this.recs == recs && spanMap == map[] && spans == {} && calls == []
      ensures |sub| == |recs| && forall r :: 0 <= r < |sub| ==> sub[r] == []
    {
      this.recs := recs;
      spanMap, spans, calls := map[], {}, [];
      sub := seq(|recs|, i => []);
    }

    /** Creates what hangs below a span and ends it, unless it is a request. */
    method ReplaySpan(id: Id, r: nat, skipDone: bool, ghost stack: set<Id>) returns (ok: bool)
      requires spanMap == Table(recs) && Attached(recs, sub) && r < |recs| && IsSpan(recs[r]) && recs[r].id == id
      requires Disjoint(recs) ==> id in Table(recs) && Table(recs)[id] == r && (skipDone <==> recs[r].RequestRecord?)
      requires stack <= spans && id in spans && id !in stack && Sound(recs, calls, spans, stack + {id})
      modifies this`spans, this`calls
      ensures old(spans) <= spans
      ensures ok ==> Sound(recs, calls, spans, stack)
      ensures !ok && Disjoint(recs) ==> SomeBad(recs, spans) && Legal(recs, calls) && Made(calls) == spans
      ensures StartedIn(calls) == old(StartedIn(calls)) && LinesIn(calls) == old(LinesIn(calls))
      ensures ok && IsLast(recs, r) ==>
                Walked(recs, old(calls), old(spans), Enters(id, Children(recs, id)) + (if skipDone then [] else [Leave(id)]), calls, spans)
      decreases Left(recs, spans), 1
    {
      hide Sound, Children, Table, Legal, EndsIn, Made, StartedIn, LinesIn, SomeBad, Disjoint, Attached, Left, Walked, Enters;
      SoundLegal(recs, calls, spans, stack + {id});
      if recs[r].badAttributes {
        if Disjoint(recs) {
          IsBad(recs, spans, id, r);
        }
        return false;
      }
      SubIsChildren(recs, sub, r);
      WalkedNone(recs, calls, spans);
      assert Enters(id, sub[r][..0]) == [] by { NoEnters(id, sub[r]); }
      var k := 0;
      while k < |sub[r]|
        invariant 0 <= k <= |sub[r]| && old(spans) <= spans
        invariant Sound(recs, calls, spans, stack + {id})
        invariant StartedIn(calls) == old(StartedIn(calls)) && LinesIn(calls) == old(LinesIn(calls))
        invariant forall i :: 0 <= i < k ==> sub[r][i] in spans
        invariant Walked(recs, old(calls), old(spans), Enters(id, sub[r][..k]), calls, spans)
      {
        ghost var c0, s0, step := calls, spans, Enter(id, sub[r][k]);
        EntersSnoc(id, sub[r], k);
        if sub[r][k] in spans {
          WalkedSeen(recs, calls, spans, step);
        } else {
          assert sub[r][k] in sub[r];
          FewerLeft(recs, old(spans), spans);
          ok := CreateChild(id, sub[r][k], stack + {id});
          if !ok {
            return;
          }
        }
        WalkedOn(recs, old(calls), old(spans), Enters(id, sub[r][..k]), c0, s0, [step], calls, spans);
        k := k + 1;
      }
      assert sub[r][..k] == sub[r];
      ghost var was := calls;
      if !skipDone && recs[r].duration.Some? {
        calls := calls + [EndSpan(id, recs[r].ts + recs[r].duration.value)];
      }
      FinishStep(recs, was, spans, stack, id, r, skipDone, calls);
      if IsLast(recs, r) {
        WalkedEnd(recs, old(calls), old(spans), Enters(id, sub[r]), was, spans, id, r, skipDone, calls);
      }
      ok := true;
    }

    /** The child is always known: the lookup of its record cannot fail. */
    method CreateChild(id: Id, c: Id, ghost stack: set<Id>) returns (ok: bool)
      requires spanMap == Table(recs) && Attached(recs, sub)
      requires stack <= spans && id in spans && c !in spans && c in Children(recs, id) && Sound(recs, calls, spans, stack)
      modifies this`spans, this`calls
      ensures old(spans) <= spans
      ensures ok ==> Sound(recs, calls, spans, stack) && c in spans
      ensures !ok && Disjoint(recs) ==> SomeBad(recs, spans) && Legal(recs, calls) && Made(calls) == spans
      ensures StartedIn(calls) == old(StartedIn(calls)) && LinesIn(calls) == old(LinesIn(calls))
      ensures ok ==> Walked(recs, old(calls), old(spans), [Enter(id, c)], calls, spans)
      decreases Left(recs, spans), 0
    {
      hide Sound, Children, Table, Legal, EndsIn, Made, StartedIn, LinesIn, SomeBad, Disjoint, Attached, Left, Walked, Enters;
      StartStep(recs, calls, spans, stack, id, c);
      FewerLeft(recs, spans, spans);
      StartedSpan(recs, id, c);
      TableEntry(recs, c);
      calls := calls + [StartSpan(id, c, spanMap[c])];
      spans := spans + {c};
      ok := ReplaySpan(c, spanMap[c], false, stack);
      if ok {
        WalkedOne(recs, old(calls), old(spans), Enter(id, c), calls, spans);
      }
    }

    /** Sorting the records; a record of an unknown type stops it. */
    method Scan() returns (ok: bool, requests: seq<nat>, spanRecords: seq<nat>, lines: seq<nat>)
      requires spanMap == map[]
      modifies this`spanMap
      ensures ok <==> AllKnown(recs)
      ensures ok ==> spanMap == Table(recs) && requests == Requests(recs) && spanRecords == Spans(recs) && lines == Lines(recs)
    {
      hide Table, Requests, Spans, Lines, AllKnown, AreSpans;
      requests, spanRecords, lines := [], [], [];
      var k := 0;
      ScanStart(recs);
      while k < |recs|
        invariant 0 <= k <= |recs| && AllKnown(recs[..k]) && spanMap == Table(recs[..k])
        invariant requests == Requests(recs[..k]) && spanRecords == Spans(recs[..k]) && lines == Lines(recs[..k])
      {
        ScanStep(recs, k);
        match recs[k] {
          case LineRecord(_, _, _) => lines := lines + [k];
          case RequestRecord(id, _, _, _, _) =>
            requests := requests + [k];
            spanMap := spanMap[id := k];
          case SpanRecord(id, _, _, _, _) =>
            spanMap := spanMap[id := k];
            spanRecords := spanRecords + [k];
          case UnknownRecord =>
            return false, requests, spanRecords, lines;
        }
        k := k + 1;
      }
      assert recs[..k] == recs;
      ok := true;
    }

    /** Attaching spans to the parents that they name. */
    method Attach(spanRecords: seq<nat>) returns (ok: bool)
      requires spanMap == Table(recs) && spanRecords == Spans(recs)
      requires |sub| == |recs| && forall r :: 0 <= r < |sub| ==> sub[r] == []
      modifies this`sub
      ensures ok <==> ParentsKnown(recs)
      ensures ok ==> Attached(recs, sub)
    {
      hide Table, Spans, Children, ParentsKnown, AttachedFrom, ParentsIn, AreSpans, IsLast;
      NoneAttached(recs, sub);
      ParentsInSpans(recs);
      var k := 0;
      while k < |spanRecords|
        invariant 0 <= k <= |spanRecords| && AreSpans(recs, spanRecords[..k])
        invariant ParentsIn(recs, spanRecords[..k]) && AttachedFrom(recs, spanRecords[..k], sub)
      {
        NextSpan(recs, spanRecords, k);
        var s := recs[spanRecords[k]];
        if s.parent == "" || s.parent !in spanMap {
          return false;
        }
        AttachOne(recs, spanRecords[..k], sub, spanRecords[k]);
        OneParent(recs, spanRecords[..k], spanRecords[k]);
        var r := spanMap[s.parent];
        sub := sub[r := sub[r] + [s.id]];
        k := k + 1;
      }
      assert spanRecords[..k] == spanRecords;
      AttachedAll(recs, sub);
      ok := true;
    }
  }

  lemma ScanStart(recs: seq<Record>)
    ensures AllKnown(recs[..0]) && Table(recs[..0]) == map[] && Requests(recs[..0]) == [] && Spans(recs[..0]) == [] && Lines(recs[..0]) == []
  {
  }

  lemma ScanStep(recs: seq<Record>, k: nat)
    requires k < |recs|
    ensures var past, next, r := recs[..k], recs[..k + 1], recs[k];
            && Table(next) == (if IsSpan(r) then Table(past)[r.id := k] else Table(past))
            && Requests(next) == (if r.RequestRecord? then Requests(past) + [k] else Requests(past))
            && Spans(next) == (if r.SpanRecord? then Spans(past) + [k] else Spans(past))
            && Lines(next) == (if r.LineRecord? then Lines(past) + [k] else Lines(past))
            && (AllKnown(next) <==> AllKnown(past) && !r.UnknownRecord?)
    ensures AllKnown(recs) ==> !recs[k].UnknownRecord?
  {
    assert recs[..k + 1] == recs[..k] + [recs[k]] && Init(recs[..k + 1]) == recs[..k];
    assert recs[..k + 1][k] == recs[k];
  }

  lemma TableEntry(recs: seq<Record>, id: Id)
    requires id in Table(recs)
    ensures Table(recs)[id] < |recs| && IsSpan(recs[Table(recs)[id]]) && recs[Table(recs)[id]].id == id
  {
  }
}
