/** Replaying a whole set of JSON records (xopjson/replay.go). */
module JsonReplayRuns {
  import opened Options
  import opened JsonReplay

  /** The last record of each request in a list of request records. */
  function LastIn(recs: seq<Record>, list: seq<nat>): (t: map<Id, nat>)
    requires AreRequests(recs, list)
    ensures forall id :: id in t ==> t[id] < |recs| && recs[t[id]].RequestRecord? && recs[t[id]].id == id
  {
    if list == [] then map[] else LastIn(recs, Init(list))[recs[Last(list)].id := Last(list)]
  }

  /** The IDs in a list of request records, each once, in order of first occurrence. */
  function FirstIds(recs: seq<Record>, list: seq<nat>): seq<Id>
    requires AreRequests(recs, list)
  {
    if list == [] then []
    else
      var some := FirstIds(recs, Init(list));
      if recs[Last(list)].id in some then some else some + [recs[Last(list)].id]
  }

  function TextsOf(recs: seq<Record>, list: seq<nat>): seq<(Id, string)>
    requires forall i :: 0 <= i < |list| ==> list[i] < |recs| && recs[list[i]].LineRecord?
  {
    if list == [] then [] else TextsOf(recs, Init(list)) + [(recs[Last(list)].span, recs[Last(list)].text)]
  }

  lemma {:induction false} LastInCons(recs: seq<Record>, x: nat, rest: seq<nat>)
    requires AreRequests(recs, [x] + rest) && AreRequests(recs, rest) && x < |recs| && recs[x].RequestRecord?
    ensures LastIn(recs, [x] + rest) == if recs[x].id in LastIn(recs, rest) then LastIn(recs, rest) else LastIn(recs, rest)[recs[x].id := x]
  {
    if rest == [] {
      assert Init([x] + rest) == [];
    } else {
      assert Init([x] + rest) == [x] + Init(rest);
      LastInCons(recs, x, Init(rest));
    }
  }

  lemma {:induction false} LastInLocal(recs: seq<Record>, r: Record, list: seq<nat>)
    requires AreRequests(recs, list) && AreRequests(recs + [r], list)
    ensures LastIn(recs + [r], list) == LastIn(recs, list)
  {
    if list != [] {
      LastInLocal(recs, r, Init(list));
    }
  }

  lemma LastInSnoc(recs: seq<Record>, list: seq<nat>, k: nat)
    requires AreRequests(recs, list) && k < |recs| && recs[k].RequestRecord?
    ensures AreRequests(recs, list + [k]) && LastIn(recs, list + [k]) == LastIn(recs, list)[recs[k].id := k]
  {
    assert Init(list + [k]) == list;
  }

  lemma RequestsStep(some: seq<Record>, r: Record)
    ensures Requests(some + [r]) == if r.RequestRecord? then Requests(some) + [|some|] else Requests(some)
    ensures AreRequests(some + [r], Requests(some))
    ensures Table(some + [r]) == if IsSpan(r) then Table(some)[r.id := |some|] else Table(some)
  {
    hide Table, Requests, AreRequests;
    TableStep(some, r);
    RequestsSnoc(some, r);
    StillRequests(some, r, Requests(some));
  }

  lemma RequestsSnoc(some: seq<Record>, r: Record)
    ensures Requests(some + [r]) == if r.RequestRecord? then Requests(some) + [|some|] else Requests(some)
  {
    assert Init(some + [r]) == some && Last(some + [r]) == r;
    assert Requests(some) + [] == Requests(some);
  }

  lemma StillRequests(some: seq<Record>, r: Record, list: seq<nat>)
    requires AreRequests(some, list)
    ensures AreRequests(some + [r], list)
  {
  }

  lemma TableStep(some: seq<Record>, r: Record)
    ensures Table(some + [r]) == if IsSpan(r) then Table(some)[r.id := |some|] else Table(some)
  {
    assert Init(some + [r]) == some && Last(some + [r]) == r;
  }

  lemma LastStep(some: seq<Record>, r: Record)
    ensures LastIn(some + [r], Requests(some + [r])) ==
            if r.RequestRecord? then LastIn(some, Requests(some))[r.id := |some|] else LastIn(some, Requests(some))
    ensures Table(some + [r]) == if IsSpan(r) then Table(some)[r.id := |some|] else Table(some)
  {
    hide LastIn, Table, Requests, AreRequests;
    RequestsStep(some, r);
    LastInLocal(some, r, Requests(some));
    if r.RequestRecord? {
      LastInSnoc(some + [r], Requests(some), |some|);
    }
  }

  lemma RequestIdStep(some: seq<Record>, r: Record, id: Id)
    ensures IsRequestId(some + [r], id) <==> IsRequestId(some, id) || (r.RequestRecord? && r.id == id)
  {
    if IsRequestId(some, id) {
      var i :| 0 <= i < |some| && some[i].RequestRecord? && some[i].id == id;
      assert (some + [r])[i] == some[i];
    }
    assert (some + [r])[|some|] == r;
  }

  lemma DisjointStep(some: seq<Record>, r: Record)
    requires Disjoint(some + [r])
    ensures Disjoint(some) && (r.SpanRecord? ==> !IsRequestId(some, r.id))
  {
    assert forall i :: 0 <= i < |some| ==> (some + [r])[i] == some[i];
    assert (some + [r])[|some|] == r;
  }

  /** With disjoint IDs, the last request record of an ID is its last record. */
  lemma {:induction false} LastIsTable(recs: seq<Record>)
    ensures forall id :: id in LastIn(recs, Requests(recs)) <==> IsRequestId(recs, id)
    ensures Disjoint(recs) ==> forall id :: id in LastIn(recs, Requests(recs)) ==> id in Table(recs) && Table(recs)[id] == LastIn(recs, Requests(recs))[id]
  {
    if recs != [] {
      hide Table, LastIn, Requests, IsRequestId, Disjoint, AreRequests;
      var some, r := Init(recs), Last(recs);
      assert recs == some + [r];
      LastIsTable(some);
      LastStep(some, r);
      forall id ensures IsRequestId(recs, id) <==> IsRequestId(some, id) || (r.RequestRecord? && r.id == id) {
        RequestIdStep(some, r, id);
      }
      if Disjoint(recs) {
        DisjointStep(some, r);
      }
    }
  }

  lemma {:induction false} FirstIdsAll(recs: seq<Record>, list: seq<nat>)
    requires AreRequests(recs, list)
    ensures forall id :: id in FirstIds(recs, list) <==> id in LastIn(recs, list)
  {
    if list != [] {
      FirstIdsAll(recs, Init(list));
    }
  }

  /** With disjoint IDs a request is only ever created as a request. */
  lemma {:induction false} RequestStarted(recs: seq<Record>, calls: seq<Call>, id: Id)
    requires Disjoint(recs) && Legal(recs, calls) && id in Made(calls) && IsRequestId(recs, id)
    ensures id in StartedIn(calls)
  {
    if id in Made(Init(calls)) {
      RequestStarted(recs, Init(calls), id);
    } else {
      var c := Last(calls);
      if c.StartSpan? {
        ChildRecord(recs, c.parent, id);
        NotBoth(recs, c.parent, id);
      }
    }
  }

  lemma NotBoth(recs: seq<Record>, p: Id, id: Id)
    requires Disjoint(recs) && IsRequestId(recs, id)
    ensures id !in Children(recs, p)
  {
    if id in Children(recs, p) {
      ChildRecord(recs, p, id);
      assert false;
    }
  }

  lemma {:induction false} StartedMade(calls: seq<Call>, id: Id)
    requires id in StartedIn(calls)
    ensures id in Made(calls)
  {
    if id in StartedIn(Init(calls)) {
      StartedMade(Init(calls), id);
    }
  }

  /** The backward loop that finds the last record of each request. */
  method FindLast(recs: seq<Record>, requests: seq<nat>) returns (last: map<Id, nat>)
    requires AreRequests(recs, requests)
    ensures last == LastIn(recs, requests)
  {
    hide LastIn;
    last := map[];
    NoneLast(recs, requests);
    var i := |requests|;
    while i > 0
      invariant 0 <= i <= |requests| && last == LastIn(recs, requests[i..])
    {
      i := i - 1;
      assert requests[i..] == [requests[i]] + requests[i + 1..];
      LastInCons(recs, requests[i], requests[i + 1..]);
      if recs[requests[i]].id !in last {
        last := last[recs[requests[i]].id := requests[i]];
      }
    }
    assert requests[i..] == requests;
  }

  lemma NoneLast(recs: seq<Record>, requests: seq<nat>)
    requires AreRequests(recs, requests)
    ensures AreRequests(recs, requests[|requests|..]) && AreRequests(recs, requests[..0])
    ensures LastIn(recs, requests[|requests|..]) == map[] && FirstIds(recs, requests[..0]) == []
  {
  }

  /** What holds between requests: the traversal so far is complete, and their headers were good. */
  ghost predicate Between(recs: seq<Record>, calls: seq<Call>, spans: set<Id>, done: seq<Id>, all: map<Id, nat>) {
    && Sound(recs, calls, spans, {}) && StartedIn(calls) == done && LinesIn(calls) == []
    && forall id :: id in done ==> id in all && all[id] < |recs| && recs[all[id]].RequestRecord? && !recs[all[id]].badHeader
  }

  ghost predicate Remaining(rest: map<Id, nat>, all: map<Id, nat>, done: seq<Id>) {
    && (forall id :: id in rest <==> id in all && id !in done)
    && forall id :: id in rest ==> rest[id] == all[id]
  }

  lemma NextId(recs: seq<Record>, requests: seq<nat>, i: nat)
    requires AreRequests(recs, requests) && i < |requests|
    ensures requests[i] < |recs| && recs[requests[i]].RequestRecord? && AreRequests(recs, requests[..i]) && AreRequests(recs, requests[..i + 1])
    ensures var done, id := FirstIds(recs, requests[..i]), recs[requests[i]].id;
            FirstIds(recs, requests[..i + 1]) == (if id in done then done else done + [id]) && id in LastIn(recs, requests)
  {
    assert Init(requests[..i + 1]) == requests[..i];
    InLast(recs, requests, i);
  }

  lemma {:induction false} InLast(recs: seq<Record>, requests: seq<nat>, i: nat)
    requires AreRequests(recs, requests) && i < |requests|
    ensures recs[requests[i]].id in LastIn(recs, requests)
  {
    if i < |requests| - 1 {
      InLast(recs, Init(requests), i);
    }
  }

  /** A request that was not started before is new, and its record is the last of its ID. */
  lemma NewRequest(recs: seq<Record>, calls: seq<Call>, spans: set<Id>, done: seq<Id>, id: Id)
    requires Between(recs, calls, spans, done, LastIn(recs, Requests(recs))) && id !in done && id in LastIn(recs, Requests(recs))
    ensures var r := LastIn(recs, Requests(recs))[id];
            Disjoint(recs) ==> id !in spans && id in Table(recs) && Table(recs)[id] == r && recs[r].RequestRecord?
  {
    hide LastIn, Requests, Table, Legal, Made, StartedIn, LinesIn;
    LastIsTable(recs);
    if Disjoint(recs) && id in spans {
      RequestStarted(recs, calls, id);
    }
  }

  lemma StartOne(recs: seq<Record>, calls: seq<Call>, spans: set<Id>, id: Id, r: nat)
    requires r < |recs|
    ensures var more := calls + [StartRequest(id, r)]; StartedIn(more) == StartedIn(calls) + [id] && LinesIn(more) == LinesIn(calls)
  {
    hide Made, Legal, EndsIn;
    Snoc(recs, calls, StartRequest(id, r));
    assert LinesIn(calls) + [] == LinesIn(calls);
  }

  /** The requests to begin with. */
  function Begins(ids: seq<Id>): seq<Step> {
    seq(|ids|, i requires 0 <= i < |ids| => Begin(ids[i]))
  }

  lemma BeginsSnoc(ids: seq<Id>, id: Id)
    ensures Begins(ids + [id]) == Begins(ids) + [Begin(id)] && Begins([]) == []
  {
  }

  /** One request with all that hangs below it. */
  method StartOneRequest(x: Replayer, id: Id, r: nat, ghost done: seq<Id>) returns (ok: bool)
    requires x.spanMap == Table(x.recs) && Attached(x.recs, x.sub)
    requires Between(x.recs, x.calls, x.spans, done, LastIn(x.recs, Requests(x.recs)))
    requires id in LastIn(x.recs, Requests(x.recs)) && id !in done && r == LastIn(x.recs, Requests(x.recs))[id]
    requires !x.recs[r].badHeader
    modifies x`calls, x`spans
    ensures old(x.spans) <= x.spans && id in x.spans
    ensures ok ==> Between(x.recs, x.calls, x.spans, done + [id], LastIn(x.recs, Requests(x.recs)))
    ensures !ok && Disjoint(x.recs) ==> SomeBad(x.recs, x.spans) && Legal(x.recs, x.calls) && Made(x.calls) == x.spans
    ensures ok && Disjoint(x.recs) ==> Walked(x.recs, old(x.calls), old(x.spans), [Begin(id)], x.calls, x.spans)
  {
    hide LastIn, Requests, Table, Attached, Sound, Legal, Made, StartedIn, LinesIn, SomeBad, Disjoint, Walked;
    NewRequest(x.recs, x.calls, x.spans, done, id);
    RequestStep(x.recs, x.calls, x.spans, id, r);
    StartOne(x.recs, x.calls, x.spans, id, r);
    x.calls := x.calls + [StartRequest(id, r)];
    x.spans := x.spans + {id};
    assert {} + {id} == {id};
    ok := x.ReplaySpan(id, r, true, {});
    if ok && Disjoint(x.recs) {
      WalkedOne(x.recs, old(x.calls), old(x.spans), Begin(id), x.calls, x.spans);
    }
  }

  /** The requests, in order of first occurrence, each from its last record with all that hangs below it. */
  method StartRequests(x: Replayer, requests: seq<nat>) returns (ok: bool, started: set<nat>)
    requires requests == Requests(x.recs) && x.spanMap == Table(x.recs) && Attached(x.recs, x.sub) && x.calls == [] && x.spans == {}
    modifies x`calls, x`spans
    ensures ok ==> Between(x.recs, x.calls, x.spans, FirstIds(x.recs, requests), LastIn(x.recs, requests))
    ensures ok ==> forall id :: id in LastIn(x.recs, requests) ==> LastIn(x.recs, requests)[id] in started
    ensures ok ==> StartedOk(x.recs, LastIn(x.recs, requests), x.spans, started)
    ensures ok && Disjoint(x.recs) ==> Walked(x.recs, [], {}, Begins(FirstIds(x.recs, requests)), x.calls, x.spans)
    ensures !ok && Disjoint(x.recs) ==>
              (SomeBad(x.recs, x.spans) && Legal(x.recs, x.calls) && Made(x.calls) == x.spans)
              || exists id :: id in LastIn(x.recs, requests) && x.recs[LastIn(x.recs, requests)[id]].badHeader
  {
    hide LastIn, Requests, FirstIds, Table, Attached, Between, Legal, Made, SomeBad, Disjoint, AreRequests, Walked, Begins;
    assert AreRequests(x.recs, requests);
    BeginsSnoc([], "");
    WalkedNone(x.recs, [], {});
    ghost var all := LastIn(x.recs, requests);
    var last := FindLast(x.recs, requests);
    started := {};
    NoneLast(x.recs, requests);
    NothingDone(x.recs, all);
    var i := 0;
    while i < |requests|
      invariant 0 <= i <= |requests| && AreRequests(x.recs, requests[..i])
      invariant Between(x.recs, x.calls, x.spans, FirstIds(x.recs, requests[..i]), all)
      invariant Remaining(last, all, FirstIds(x.recs, requests[..i]))
      invariant forall id :: id in FirstIds(x.recs, requests[..i]) ==> id in all && all[id] in started
      invariant StartedOk(x.recs, all, x.spans, started)
      invariant Disjoint(x.recs) ==> Walked(x.recs, [], {}, Begins(FirstIds(x.recs, requests[..i])), x.calls, x.spans)
    {
      NextId(x.recs, requests, i);
      ghost var done := FirstIds(x.recs, requests[..i]);
      var id := x.recs[requests[i]].id;
      if id in last {
        var r := last[id];
        last := last - {id};
        if x.recs[r].badHeader {
          return false, started;
        }
        ghost var c0, s0 := x.calls, x.spans;
        ok := StartOneRequest(x, id, r, done);
        if !ok {
          return false, started;
        }
        BeginsSnoc(done, id);
        if Disjoint(x.recs) {
          WalkedOn(x.recs, [], {}, Begins(done), c0, s0, [Begin(id)], x.calls, x.spans);
        }
        started := started + {r};
      }
      i := i + 1;
    }
    assert requests[..i] == requests;
    FirstIdsAll(x.recs, requests);
    ok := true;
  }

  /** The records of the requests that were started. */
  ghost predicate StartedOk(recs: seq<Record>, all: map<Id, nat>, spans: set<Id>, started: set<nat>) {
    forall r :: r in started ==> r < |recs| && recs[r].RequestRecord? && recs[r].id in spans && recs[r].id in all && all[recs[r].id] == r
  }

  lemma StartedOne(recs: seq<Record>, all: map<Id, nat>, spans: set<Id>, started: set<nat>, r: nat)
    requires StartedOk(recs, all, spans, started) && r in started
    ensures r < |recs| && recs[r].RequestRecord? && recs[r].id in spans && recs[r].id in all && all[recs[r].id] == r
  {
  }

  lemma NothingDone(recs: seq<Record>, all: map<Id, nat>)
    ensures Between(recs, [], {}, [], all)
  {
  }

  // ---- Lines ---------------------------------------------------------------------------

  predicate AreLines(recs: seq<Record>, list: seq<nat>) {
    forall i :: 0 <= i < |list| ==> list[i] < |recs| && recs[list[i]].LineRecord?
  }

  /** What the lines come to. */
  function LogCalls(recs: seq<Record>, list: seq<nat>): seq<Call>
    requires AreLines(recs, list)
  {
    seq(|list|, i requires 0 <= i < |list| => LogLine(recs[list[i]].span, recs[list[i]].text))
  }

  lemma LogCallsSnoc(recs: seq<Record>, list: seq<nat>, k: nat)
    requires AreLines(recs, list) && k < |list|
    ensures AreLines(recs, list[..k]) && AreLines(recs, list[..k + 1]) && AreLines(recs, list[..0]) && LogCalls(recs, list[..0]) == []
    ensures LogCalls(recs, list[..k + 1]) == LogCalls(recs, list[..k]) + [LogLine(recs[list[k]].span, recs[list[k]].text)]
  {
  }

  predicate LineFine(recs: seq<Record>, r: nat, spans: set<Id>)
    requires r < |recs| && recs[r].LineRecord?
  {
    recs[r].span in spans && !recs[r].badLine
  }

  lemma LineStep(recs: seq<Record>, calls: seq<Call>, spans: set<Id>, span: Id, text: string)
    requires Sound(recs, calls, spans, {}) && span in spans
    ensures var more := calls + [LogLine(span, text)];
            Sound(recs, more, spans, {}) && StartedIn(more) == StartedIn(calls) && LinesIn(more) == LinesIn(calls) + [(span, text)]
  {
    hide Children, Table, Legal, EndsIn, Made, StartedIn, LinesIn;
    Snoc(recs, calls, LogLine(span, text));
    assert StartedIn(calls) + [] == StartedIn(calls);
  }

  /** The lines in their order, until one names an unknown span or is bad. */
  method ReplayLines(x: Replayer, lines: seq<nat>) returns (ok: bool)
    requires AreLines(x.recs, lines) && Sound(x.recs, x.calls, x.spans, {}) && LinesIn(x.calls) == []
    modifies x`calls
    ensures ok <==> forall j :: 0 <= j < |lines| ==> LineFine(x.recs, lines[j], x.spans)
    ensures Sound(x.recs, x.calls, x.spans, {}) && StartedIn(x.calls) == old(StartedIn(x.calls))
    ensures ok ==> LinesIn(x.calls) == TextsOf(x.recs, lines) && x.calls == old(x.calls) + LogCalls(x.recs, lines)
  {
    hide Sound, StartedIn, LinesIn, TextsOf;
    NoTexts(x.recs, lines);
    assert x.calls + [] == x.calls;
    var k := 0;
    while k < |lines|
      invariant 0 <= k <= |lines| && AreLines(x.recs, lines[..k])
      invariant Sound(x.recs, x.calls, x.spans, {}) && StartedIn(x.calls) == old(StartedIn(x.calls))
      invariant LinesIn(x.calls) == TextsOf(x.recs, lines[..k]) && x.calls == old(x.calls) + LogCalls(x.recs, lines[..k])
      invariant forall j :: 0 <= j < k ==> LineFine(x.recs, lines[j], x.spans)
    {
      var line := x.recs[lines[k]];
      if line.span !in x.spans || line.badLine {
        return false;
      }
      LineStep(x.recs, x.calls, x.spans, line.span, line.text);
      NextText(x.recs, lines, k);
      LogCallsSnoc(x.recs, lines, k);
      x.calls := x.calls + [LogLine(line.span, line.text)];
      k := k + 1;
    }
    assert lines[..k] == lines;
    ok := true;
  }

  lemma NoTexts(recs: seq<Record>, lines: seq<nat>)
    ensures TextsOf(recs, lines[..0]) == []
  {
  }

  lemma NextText(recs: seq<Record>, lines: seq<nat>, k: nat)
    requires AreLines(recs, lines) && k < |lines|
    ensures TextsOf(recs, lines[..k + 1]) == TextsOf(recs, lines[..k]) + [(recs[lines[k]].span, recs[lines[k]].text)]
  {
    assert Init(lines[..k + 1]) == lines[..k];
  }

  // ---- Ends of requests -------------------------------------------------------------------

  /** All spans were ended, and the requests whose last records are in `seen`. */
  ghost predicate EndedFrom(recs: seq<Record>, calls: seq<Call>, spans: set<Id>, seen: seq<nat>) {
    Disjoint(recs) ==> Legal(recs, calls) && Made(calls) == spans && forall y :: EndsIn(calls, y) == DueEnds(recs, spans, seen, y)
  }

  /** When the span was ended by then. */
  function DueEnds(recs: seq<Record>, spans: set<Id>, seen: seq<nat>, y: Id): seq<int> {
    if y in spans && y in Table(recs) && (recs[Table(recs)[y]].SpanRecord? || Table(recs)[y] in seen) then EndOf(recs[Table(recs)[y]]) else []
  }

  lemma DueNext(recs: seq<Record>, spans: set<Id>, r: nat, rest: seq<nat>, y: Id)
    requires r < |recs| && recs[r].RequestRecord?
    requires recs[r].duration.Some? ==> r !in rest && recs[r].id in spans && recs[r].id in Table(recs) && Table(recs)[recs[r].id] == r
    ensures DueEnds(recs, spans, [r] + rest, y) ==
              DueEnds(recs, spans, rest, y) + (if recs[r].duration.Some? && y == recs[r].id then [recs[r].ts + recs[r].duration.value] else [])
  {
    hide Table;
    if y in Table(recs) {
      TableEntry(recs, y);
      var q := Table(recs)[y];
      assert q in [r] + rest <==> q == r || q in rest;
    }
  }

  lemma NoneEnded(recs: seq<Record>, calls: seq<Call>, spans: set<Id>)
    requires Sound(recs, calls, spans, {})
    ensures EndedFrom(recs, calls, spans, [])
  {
    hide Children, Table, Legal, EndsIn, Made;
  }

  lemma EndStep(recs: seq<Record>, calls: seq<Call>, spans: set<Id>, r: nat, rest: seq<nat>)
    requires EndedFrom(recs, calls, spans, rest) && r < |recs| && recs[r].RequestRecord?
    requires recs[r].duration.Some? ==> r !in rest && recs[r].id in spans && (Disjoint(recs) ==> recs[r].id in Table(recs) && Table(recs)[recs[r].id] == r)
    ensures var more := if recs[r].duration.Some? then calls + [EndSpan(recs[r].id, recs[r].ts + recs[r].duration.value)] else calls;
            && EndedFrom(recs, more, spans, [r] + rest)
            && StartedIn(more) == StartedIn(calls) && LinesIn(more) == LinesIn(calls)
  {
    hide Children, Table, Legal, EndsIn, Made, StartedIn, LinesIn, Disjoint, DueEnds;
    if recs[r].duration.Some? {
      Snoc(recs, calls, EndSpan(recs[r].id, recs[r].ts + recs[r].duration.value));
      assert StartedIn(calls) + [] == StartedIn(calls) && LinesIn(calls) + [] == LinesIn(calls);
    }
    if Disjoint(recs) {
      forall y ensures DueEnds(recs, spans, [r] + rest, y) ==
                         DueEnds(recs, spans, rest, y) + (if recs[r].duration.Some? && y == recs[r].id then [recs[r].ts + recs[r].duration.value] else []) {
        DueNext(recs, spans, r, rest, y);
      }
    }
  }

  lemma SkipEnd(recs: seq<Record>, calls: seq<Call>, spans: set<Id>, r: nat, rest: seq<nat>)
    requires EndedFrom(recs, calls, spans, rest)
    requires r in rest || (Disjoint(recs) ==> forall y :: y in spans && y in Table(recs) ==> Table(recs)[y] != r || recs[r].SpanRecord?)
    ensures EndedFrom(recs, calls, spans, [r] + rest)
  {
    hide Children, Table, Legal, EndsIn, Made;
  }

  lemma Unstarted(recs: seq<Record>, spans: set<Id>, started: set<nat>, r: nat)
    requires forall id :: id in LastOf(recs) ==> LastOf(recs)[id] in started
    requires r !in started && r < |recs| && recs[r].RequestRecord?
    ensures Disjoint(recs) ==> forall y :: y in spans && y in Table(recs) ==> Table(recs)[y] != r || recs[r].SpanRecord?
  {
    hide LastIn, Requests, Table;
    LastIsTable(recs);
    assert LastOf(recs) == LastIn(recs, Requests(recs));
    forall y | Disjoint(recs) && y in spans && y in Table(recs) ensures Table(recs)[y] != r {
      DisjointTable(recs, y);
    }
  }

  /** The ends of requests: last records that have a duration, last to first. */
  function RequestEnds(recs: seq<Record>, list: seq<nat>, last: map<Id, nat>): seq<Call>
    requires AreRequests(recs, list)
  {
    if list == [] then []
    else
      var r := recs[list[0]];
      assert AreRequests(recs, list[1..]);
      RequestEnds(recs, list[1..], last)
      + (if r.id in last && last[r.id] == list[0] && r.duration.Some? then [EndSpan(r.id, r.ts + r.duration.value)] else [])
  }

  lemma {:induction false} RequestsRise(recs: seq<Record>)
    ensures forall i, j :: 0 <= i < j < |Requests(recs)| ==> Requests(recs)[i] < Requests(recs)[j]
    ensures forall i :: 0 <= i < |Requests(recs)| ==> Requests(recs)[i] < |recs|
  {
    if recs != [] {
      RequestsRise(Init(recs));
    }
  }

  lemma RequestEndsFirst(recs: seq<Record>, requests: seq<nat>, i: nat, last: map<Id, nat>)
    requires AreRequests(recs, requests) && i < |requests| && (forall k, j :: 0 <= k < j < |requests| ==> requests[k] < requests[j])
    ensures requests[i] < |recs| && recs[requests[i]].RequestRecord? && AreRequests(recs, requests[i..]) && AreRequests(recs, requests[i + 1..])
    ensures requests[i] !in requests[i + 1..]
    ensures var r := recs[requests[i]];
            RequestEnds(recs, requests[i..], last) == RequestEnds(recs, requests[i + 1..], last)
              + (if r.id in last && last[r.id] == requests[i] && r.duration.Some? then [EndSpan(r.id, r.ts + r.duration.value)] else [])
  {
    assert requests[i..][1..] == requests[i + 1..] && requests[i..][0] == requests[i];
  }

  /** The requests from position `i` on have been handled, those before were not touched. */
  ghost predicate Handled(recs: seq<Record>, before: seq<Call>, calls: seq<Call>, spans: set<Id>, requests: seq<nat>, i: nat, all: set<nat>, started: set<nat>) {
    && i <= |requests| && AreRequests(recs, requests[i..])
    && EndedFrom(recs, calls, spans, requests[i..])
    && StartedIn(calls) == StartedIn(before) && LinesIn(calls) == LinesIn(before)
    && (forall r :: r !in requests[i..] ==> (r in started <==> r in all))
    && calls == before + RequestEnds(recs, requests[i..], LastOf(recs))
  }

  function LastOf(recs: seq<Record>): map<Id, nat> {
    LastIn(recs, Requests(recs))
  }

  lemma HandledStart(recs: seq<Record>, calls: seq<Call>, spans: set<Id>, all: set<nat>)
    requires Sound(recs, calls, spans, {})
    ensures Handled(recs, calls, calls, spans, Requests(recs), |Requests(recs)|, all, all)
  {
    hide LastOf, Requests, Table, EndedFrom, Sound, Disjoint, AreRequests, RequestEnds, StartedIn, LinesIn;
    NoneEnded(recs, calls, spans);
    NoRequestEnds(recs, Requests(recs), LastOf(recs));
    assert Requests(recs)[|Requests(recs)|..] == [] && calls + [] == calls;
  }

  lemma Regrouped(before: seq<Call>, ends: seq<Call>, c: Call)
    ensures before + ends + [c] == before + (ends + [c]) && ends + [] == ends
  {
  }

  /** One more request: told its end if it was started and has a duration. */
  lemma HandledStep(recs: seq<Record>, before: seq<Call>, calls: seq<Call>, spans: set<Id>, i: nat, all: set<nat>, started: set<nat>)
    requires Handled(recs, before, calls, spans, Requests(recs), i + 1, all, started)
    requires StartedOk(recs, LastOf(recs), spans, all) && forall id :: id in LastOf(recs) ==> LastOf(recs)[id] in all
    ensures i < |Requests(recs)|
    ensures var r := Requests(recs)[i];
            && r < |recs| && recs[r].RequestRecord?
            && if r in started && recs[r].duration.Some? then
                 Handled(recs, before, calls + [EndSpan(recs[r].id, recs[r].ts + recs[r].duration.value)], spans, Requests(recs), i, all, started - {r})
               else Handled(recs, before, calls, spans, Requests(recs), i, all, started)
  {
    hide Requests, Table, EndedFrom, StartedIn, LinesIn, Disjoint, RequestEnds, AreRequests, StartedOk, LastOf;
    var requests := Requests(recs);
    RequestsRise(recs);
    RequestEndsFirst(recs, requests, i, LastOf(recs));
    var r, rest := requests[i], requests[i + 1..];
    assert requests[i..] == [r] + rest;
    if r in started {
      StartedOne(recs, LastOf(recs), spans, all, r);
      assert Disjoint(recs) ==> recs[r].id in Table(recs) && Table(recs)[recs[r].id] == r by { LastOfTable(recs, recs[r].id); }
      EndStep(recs, calls, spans, r, rest);
      if recs[r].duration.Some? {
        Regrouped(before, RequestEnds(recs, rest, LastOf(recs)), EndSpan(recs[r].id, recs[r].ts + recs[r].duration.value));
      }
    } else {
      Unstarted(recs, spans, all, r);
      SkipEnd(recs, calls, spans, r, rest);
      assert !(recs[r].id in LastOf(recs) && LastOf(recs)[recs[r].id] == r);
    }
    assert RequestEnds(recs, rest, LastOf(recs)) + [] == RequestEnds(recs, rest, LastOf(recs));
  }

  lemma LastOfTable(recs: seq<Record>, id: Id)
    ensures Disjoint(recs) && id in LastOf(recs) ==> id in Table(recs) && Table(recs)[id] == LastOf(recs)[id]
  {
    LastIsTable(recs);
  }

  /** The requests are ended last, in reverse order of their records. */
  method EndRequests(x: Replayer, requests: seq<nat>, requestsStarted: set<nat>)
    requires requests == Requests(x.recs) && Sound(x.recs, x.calls, x.spans, {})
    requires forall id :: id in LastIn(x.recs, requests) ==> LastIn(x.recs, requests)[id] in requestsStarted
    requires StartedOk(x.recs, LastIn(x.recs, requests), x.spans, requestsStarted)
    modifies x`calls
    ensures EndedFrom(x.recs, x.calls, x.spans, requests)
    ensures StartedIn(x.calls) == old(StartedIn(x.calls)) && LinesIn(x.calls) == old(LinesIn(x.calls))
    ensures x.calls == old(x.calls) + RequestEnds(x.recs, requests, LastIn(x.recs, requests))
  {
    hide LastIn, Requests, Table, EndedFrom, Sound, StartedIn, LinesIn, Disjoint, RequestEnds, AreRequests, StartedOk, Handled;
    HandledStart(x.recs, x.calls, x.spans, requestsStarted);
    var started := requestsStarted;
    var i := |requests|;
    while i > 0
      invariant 0 <= i <= |requests|
      invariant Handled(x.recs, old(x.calls), x.calls, x.spans, requests, i, requestsStarted, started)
    {
      i := i - 1;
      HandledStep(x.recs, old(x.calls), x.calls, x.spans, i, requestsStarted, started);
      var r := requests[i];
      if r in started {
        if x.recs[r].duration.Some? {
          x.calls := x.calls + [EndSpan(x.recs[r].id, x.recs[r].ts + x.recs[r].duration.value)];
          started := started - {r};
        }
      }
    }
    HandledEnd(x.recs, old(x.calls), x.calls, x.spans, requestsStarted, started);
  }

  lemma HandledEnd(recs: seq<Record>, before: seq<Call>, calls: seq<Call>, spans: set<Id>, all: set<nat>, started: set<nat>)
    requires Handled(recs, before, calls, spans, Requests(recs), 0, all, started)
    ensures EndedFrom(recs, calls, spans, Requests(recs))
    ensures StartedIn(calls) == StartedIn(before) && LinesIn(calls) == LinesIn(before)
    ensures calls == before + RequestEnds(recs, Requests(recs), LastIn(recs, Requests(recs)))
  {
    hide EndedFrom, StartedIn, LinesIn, RequestEnds, LastIn;
    assert Requests(recs)[0..] == Requests(recs);
  }

  lemma NoRequestEnds(recs: seq<Record>, requests: seq<nat>, last: map<Id, nat>)
    ensures AreRequests(recs, requests[|requests|..]) && RequestEnds(recs, requests[|requests|..], last) == []
  {
  }

  // ---- The whole replay -----------------------------------------------------------------------

  /** What the input has to be for a replay to succeed. */
  ghost predicate Acceptable(recs: seq<Record>) {
    && AllKnown(recs) && ParentsKnown(recs)
    && (forall id :: IsRequestId(recs, id) && id in Table(recs) && recs[Table(recs)[id]].RequestRecord? ==> !recs[Table(recs)[id]].badHeader)
    && (forall id :: Reachable(recs, id) && id in Table(recs) ==> !recs[Table(recs)[id]].badAttributes)
    && forall i :: 0 <= i < |recs| && recs[i].LineRecord? ==> !recs[i].badLine && Reachable(recs, recs[i].span)
  }

  /** Everything that can be reached was replayed, once each and in order. */
  ghost predicate Rebuilt(recs: seq<Record>, calls: seq<Call>) {
    && Legal(recs, calls)
    && (forall id :: id in Made(calls) <==> Reachable(recs, id))
    && StartedIn(calls) == FirstIds(recs, Requests(recs))
    && LinesIn(calls) == TextsOf(recs, Lines(recs))
    && (forall id :: id in Made(calls) ==> id in Table(recs) && EndsIn(calls, id) == EndOf(recs[Table(recs)[id]]))
    && calls == AllCalls(recs)
  }

  /** The calls in their order: requests with what is below them, depth first, then the lines, then the ends of requests. */
  function AllCalls(recs: seq<Record>): seq<Call> {
    Walk(recs, Begins(FirstIds(recs, Requests(recs))), {}).0 + LogCalls(recs, Lines(recs))
    + RequestEnds(recs, Requests(recs), LastIn(recs, Requests(recs)))
  }

  lemma AllCreated(recs: seq<Record>, calls: seq<Call>, spans: set<Id>, all: map<Id, nat>)
    requires Disjoint(recs) && all == LastIn(recs, Requests(recs)) && Between(recs, calls, spans, FirstIds(recs, Requests(recs)), all)
    ensures Complete(recs, spans) && Made(calls) == spans
    ensures forall id :: id in spans <==> Reachable(recs, id)
    ensures forall id :: Reachable(recs, id) && id in Table(recs) ==> !recs[Table(recs)[id]].badAttributes
    ensures forall id :: IsRequestId(recs, id) && id in Table(recs) && recs[Table(recs)[id]].RequestRecord? ==> !recs[Table(recs)[id]].badHeader
  {
    hide LastIn, Requests, FirstIds, Table, Legal, Made, StartedIn, LinesIn, EndsIn, Children, IsRequestId;
    LastIsTable(recs);
    FirstIdsAll(recs, Requests(recs));
    forall id | IsRequestId(recs, id) ensures id in spans {
      StartedMade(calls, id);
    }
    forall p, c | p in spans && c in Children(recs, p) ensures c in spans {
      assert Finished(recs, spans, p);
    }
    forall id ensures id in spans <==> Reachable(recs, id) {
      if id in spans {
        MadeReachable(recs, calls, id);
      }
      if Reachable(recs, id) {
        var n: nat :| ReachIn(recs, n, id);
        ReachedMade(recs, spans, n, id);
      }
    }
    forall id | Reachable(recs, id) && id in Table(recs) ensures !recs[Table(recs)[id]].badAttributes {
      assert Finished(recs, spans, id);
    }
  }

  lemma BadReachable(recs: seq<Record>, calls: seq<Call>, spans: set<Id>)
    requires SomeBad(recs, spans) && Legal(recs, calls) && Made(calls) == spans
    ensures !Acceptable(recs)
  {
    hide Table, Legal, Made, Reachable, AllKnown, ParentsKnown;
    var y :| y in spans && y in Table(recs) && recs[Table(recs)[y]].badAttributes;
    MadeReachable(recs, calls, y);
  }

  lemma BadHeader(recs: seq<Record>, id: Id)
    requires Disjoint(recs) && id in LastIn(recs, Requests(recs)) && recs[LastIn(recs, Requests(recs))[id]].badHeader
    ensures !Acceptable(recs)
  {
    hide LastIn, Requests, Table, IsRequestId, Reachable, AllKnown, ParentsKnown;
    LastIsTable(recs);
  }

  lemma {:induction false} LinesComplete(recs: seq<Record>, i: nat)
    requires i < |recs| && recs[i].LineRecord?
    ensures i in Lines(recs)
  {
    if i < |recs| - 1 {
      assert Init(recs)[i] == recs[i];
      LinesComplete(Init(recs), i);
    }
  }

  lemma {:induction false} RequestsComplete(recs: seq<Record>, i: nat)
    requires i < |recs| && recs[i].RequestRecord?
    ensures i in Requests(recs)
  {
    if i < |recs| - 1 {
      assert Init(recs)[i] == recs[i];
      RequestsComplete(Init(recs), i);
    }
  }

  lemma LinesAccepted(recs: seq<Record>, spans: set<Id>)
    requires forall id :: id in spans <==> Reachable(recs, id)
    ensures AreLines(recs, Lines(recs))
    ensures (forall j :: 0 <= j < |Lines(recs)| ==> LineFine(recs, Lines(recs)[j], spans)) <==>
            forall i :: 0 <= i < |recs| && recs[i].LineRecord? ==> !recs[i].badLine && Reachable(recs, recs[i].span)
  {
    var lines := Lines(recs);
    assert AreLines(recs, lines);
    hide Lines, Reachable;
    if forall j :: 0 <= j < |lines| ==> LineFine(recs, lines[j], spans) {
      forall i | 0 <= i < |recs| && recs[i].LineRecord? ensures !recs[i].badLine && Reachable(recs, recs[i].span) {
        LinesComplete(recs, i);
        var j :| 0 <= j < |lines| && lines[j] == i;
        assert LineFine(recs, lines[j], spans);
      }
    }
  }

  lemma EndsComplete(recs: seq<Record>, calls: seq<Call>, spans: set<Id>)
    requires Disjoint(recs) && EndedFrom(recs, calls, spans, Requests(recs))
    requires forall id :: id in spans ==> id in Table(recs)
    ensures Legal(recs, calls) && Made(calls) == spans
    ensures forall id :: id in spans ==> EndsIn(calls, id) == EndOf(recs[Table(recs)[id]])
  {
    hide Table, Legal, Made, EndsIn, Requests;
    forall id | id in spans ensures EndsIn(calls, id) == EndOf(recs[Table(recs)[id]]) {
      TableEntry(recs, id);
      if recs[Table(recs)[id]].RequestRecord? {
        RequestsComplete(recs, Table(recs)[id]);
      }
    }
  }

  lemma {:induction false} MadeKnown(recs: seq<Record>, calls: seq<Call>, id: Id)
    requires Legal(recs, calls) && id in Made(calls)
    ensures id in Table(recs)
  {
    if id in Made(Init(calls)) {
      MadeKnown(recs, Init(calls), id);
    }
  }

  /** The replay ends on any records.  When no span has the ID of a request, it succeeds exactly on acceptable
      records, and then has created what can be reached from the requests and nothing else. */
  method ReplayRecords(recs: seq<Record>) returns (ok: bool, calls: seq<Call>)
    ensures Disjoint(recs) ==> (ok <==> Acceptable(recs))
    ensures Disjoint(recs) && ok ==> Rebuilt(recs, calls)
  {
    hide LastIn, Requests, Spans, Lines, FirstIds, Table, Attached, Sound, Legal, Made, StartedIn, LinesIn, EndsIn, SomeBad, Disjoint, AllKnown,
      ParentsKnown, Reachable, IsRequestId, EndedFrom, StartedOk, Complete, LineFine, AreLines, TextsOf, AreRequests, AreSpans, Walk, RequestEnds, LogCalls, Begins;
    var x := new Replayer(recs);
    var requests, spanRecords, lines;
    ok, requests, spanRecords, lines := x.Scan();
    if !ok {
      return false, x.calls;
    }
    ok := x.Attach(spanRecords);
    if !ok {
      return false, x.calls;
    }
    var started;
    ok, started := StartRequests(x, requests);
    ghost var all := LastIn(recs, requests);
    if !ok {
      if Disjoint(recs) {
        if SomeBad(recs, x.spans) && Legal(recs, x.calls) && Made(x.calls) == x.spans {
          BadReachable(recs, x.calls, x.spans);
        } else {
          var id :| id in all && recs[all[id]].badHeader;
          BadHeader(recs, id);
        }
      }
      return false, x.calls;
    }
    if Disjoint(recs) {
      AllCreated(recs, x.calls, x.spans, all);
      LinesAccepted(recs, x.spans);
    }
    LinesAre(recs);
    ok := ReplayLines(x, lines);
    if !ok {
      return false, x.calls;
    }
    EndRequests(x, requests, started);
    calls := x.calls;
    if Disjoint(recs) {
      EndsKnown(recs, x.calls, x.spans);
      EndsComplete(recs, x.calls, x.spans);
    }
  }

  lemma LinesAre(recs: seq<Record>)
    ensures AreLines(recs, Lines(recs))
  {
  }

  lemma EndsKnown(recs: seq<Record>, calls: seq<Call>, spans: set<Id>)
    requires Disjoint(recs) && EndedFrom(recs, calls, spans, Requests(recs))
    ensures forall id :: id in spans ==> id in Table(recs)
  {
    hide Table, Legal, EndsIn, Made, Requests;
    forall id | id in spans ensures id in Table(recs) {
      MadeKnown(recs, calls, id);
    }
  }
}
