/** Runs of any number of calls of RequestCounter.GetNumber under any schedule (xoputil/counter.go). */
module CounterRuns {

  import opened Registry
  import opened Counter

  /** Any number of calls, none of which has started. */
  predicate Init(s: State) {
    s.traceCount == 0 && s.traces == map[] && forall t :: t in s.calls ==> s.calls[t].pc == LoadTrace
  }

  /** The state after a schedule; a turn of a call that waits or has returned passes. */
  function Run(s: State, schedule: seq<nat>): State {
    if schedule == [] then s
    else
      var r := Run(s, schedule[..|schedule| - 1]);
      var t := schedule[|schedule| - 1];
      if t in r.calls && Found(r, t) && Next(r, t).Some? then Next(r, t).value else r
  }

  lemma {:induction false} Reachable(s: State, schedule: seq<nat>)
    requires Init(s)
    ensures var r := Run(s, schedule);
            Consistent(r) && r.calls.Keys == s.calls.Keys && forall t :: t in s.calls ==> Same(r.calls[t], s.calls[t])
  {
    hide Consistent, Registry.Inv, TraceReg;
    if schedule == [] {
      InitConsistent(s);
    } else {
      var before, t := schedule[..|schedule| - 1], schedule[|schedule| - 1];
      Reachable(s, before);
      var r := Run(s, before);
      if t in r.calls && Found(r, t) && Next(r, t).Some? {
        ConsistentTraces(r);
        StepKeeps(r, t);
        FounderStep(r, t);
      }
    }
  }

  lemma InitConsistent(s: State)
    requires Init(s)
    ensures Consistent(s)
  {
    InvEmpty(TraceReg(s));
  }

  lemma ConsistentTraces(s: State)
    requires Consistent(s)
    ensures Registry.Inv(TraceReg(s)) && forall k :: k in s.traces ==> Registry.Inv(RequestReg(s, k))
  {
  }

  predicate CanGo(s: State, t: nat) {
    t in s.calls && Found(s, t) && Next(s, t).Some?
  }

  /** In a consistent state the mutex that a call waits for is held by a call that does not wait. */
  lemma TraceHolderCanGo(s: State, t: nat)
    requires Consistent(s) && t in s.calls && !CanGo(s, t) && s.calls[t].pc.LockTrace?
    ensures exists u :: CanGo(s, u)
  {
    hide Registry.Inv, Founders, Values, RequestReg, RequestRole;
    var c := s.calls[t];
    Known(s, t);
    HolderOf(TraceReg(s), c.trace);
    var u := s.traces[c.trace].mu.thread;
    Known(s, u);
    assert TraceReg(s).roles[u] == TraceRole(s.calls[u]);
    assert CanGo(s, u);
  }

  lemma RequestHolderCanGo(s: State, t: nat)
    requires Consistent(s) && t in s.calls && !CanGo(s, t) && s.calls[t].pc.LockRequest?
    ensures exists u :: CanGo(s, u)
  {
    hide Registry.Inv, Founders, Values, TraceReg;
    var c := s.calls[t];
    Known(s, t);
    HolderOf(RequestReg(s, c.trace), c.span);
    var u := s.traces[c.trace].requests[c.span].mu.thread;
    Known(s, u);
    assert RequestReg(s, c.trace).roles[u] == RequestRole(s.calls[u]);
    assert CanGo(s, u);
  }

  lemma HolderCanGo(s: State, t: nat)
    requires Consistent(s) && t in s.calls && !CanGo(s, t) && !s.calls[t].pc.Returned?
    ensures exists u :: CanGo(s, u)
  {
    hide Registry.Inv, Founders, Values, TraceReg, RequestReg;
    Known(s, t);
    if s.calls[t].pc.LockTrace? {
      TraceHolderCanGo(s, t);
    } else {
      RequestHolderCanGo(s, t);
    }
  }

  /** How far a call still has to go. */
  function Rank(pc: Pc): nat {
    match pc
    case LoadTrace => 18
    case StoreTrace => 17
    case CountTrace => 16
    case PublishTrace(_) => 15
    case UnlockTrace => 14
    case CheckTrace => 13
    case LockTrace => 12
    case ReleaseTrace => 11
    case LoadRequest => 10
    case StoreRequest => 9
    case CountRequest => 8
    case PublishRequest(_) => 7
    case UnlockRequest => 6
    case CheckRequest(_) => 5
    case LockRequest(_) => 4
    case ReleaseRequest(_) => 3
    case ReadTrace(_) => 2
    case ReadRequest(_, _) => 1
    case Returned(_, _, _) => 0
  }

  /** A step brings the stepping call closer to its return and moves no other call. */
  predicate StepAdvances(s: State, t: nat) {
    CanGo(s, t) ==>
      var s' := Next(s, t).value;
      && s'.calls.Keys == s.calls.Keys && Rank(s'.calls[t].pc) < Rank(s.calls[t].pc)
      && forall u :: u in s.calls && u != t ==> s'.calls[u] == s.calls[u]
  }

  lemma Closer(s: State, t: nat)
    ensures StepAdvances(s, t)
  {
    hide Int32, WithRequest;
  }

  /** Under every schedule some call can step while any call has not returned, and every step advances.
      So nobody waits forever. */
  lemma Progress(s: State, schedule: seq<nat>)
    requires Init(s)
    ensures !Finished(Run(s, schedule)) ==> exists u :: CanGo(Run(s, schedule), u)
    ensures forall t :: StepAdvances(Run(s, schedule), t)
  {
    hide Consistent, CanGo, StepAdvances;
    Reachable(s, schedule);
    var r := Run(s, schedule);
    if !Finished(r) {
      var t :| t in r.calls && !r.calls[t].pc.Returned?;
      if !CanGo(r, t) {
        HolderCanGo(r, t);
      }
    }
    forall t
      ensures StepAdvances(r, t)
    {
      Closer(r, t);
    }
  }

  predicate Finished(s: State) {
    forall t :: t in s.calls ==> s.calls[t].pc.Returned?
  }

  /** How far some calls together still have to go. */
  ghost function Total(ts: set<nat>, calls: map<nat, Call>): nat
    requires ts <= calls.Keys
  {
    if ts == {} then 0
    else
      var t :| t in ts;
      Rank(calls[t].pc) + Total(ts - {t}, calls)
  }

  lemma {:induction false} TotalPick(ts: set<nat>, calls: map<nat, Call>, t: nat)
    requires ts <= calls.Keys && t in ts
    ensures Total(ts, calls) == Rank(calls[t].pc) + Total(ts - {t}, calls)
    decreases |ts|
  {
    var u :| u in ts && Total(ts, calls) == Rank(calls[u].pc) + Total(ts - {u}, calls);
    if u != t {
      TotalPick(ts - {u}, calls, t);
      TotalPick(ts - {t}, calls, u);
      assert ts - {u} - {t} == ts - {t} - {u};
    }
  }

  lemma {:induction false} TotalSame(ts: set<nat>, calls: map<nat, Call>, more: map<nat, Call>)
    requires ts <= calls.Keys && ts <= more.Keys && forall t :: t in ts ==> more[t] == calls[t]
    ensures Total(ts, calls) == Total(ts, more)
    decreases |ts|
  {
    if ts != {} {
      var t :| t in ts;
      TotalPick(ts, calls, t);
      TotalPick(ts, more, t);
      TotalSame(ts - {t}, calls, more);
    }
  }

  /** Every run can be completed. */
  lemma {:induction false} Completes(s: State, schedule: seq<nat>)
    requires Init(s)
    ensures exists more :: Finished(Run(s, schedule + more))
    decreases Total(Run(s, schedule).calls.Keys, Run(s, schedule).calls)
  {
    hide StepAdvances, Total, Next, Init;
    var r := Run(s, schedule);
    Progress(s, schedule);
    if Finished(r) {
      assert schedule + [] == schedule;
    } else {
      var u :| CanGo(r, u);
      assert (schedule + [u])[..|schedule|] == schedule;
      var next := Run(s, schedule + [u]);
      assert next == Next(r, u).value;
      Closer(r, u);
      TotalLess(r, u);
      Completes(s, schedule + [u]);
      var more :| Finished(Run(s, schedule + [u] + more));
      assert schedule + [u] + more == schedule + ([u] + more);
    }
  }

  lemma TotalLess(r: State, u: nat)
    requires CanGo(r, u) && StepAdvances(r, u)
    ensures var next := Next(r, u).value; Total(next.calls.Keys, next.calls) < Total(r.calls.Keys, r.calls)
  {
    hide Next;
    var next := Next(r, u).value;
    TotalPick(r.calls.Keys, r.calls, u);
    TotalPick(next.calls.Keys, next.calls, u);
    TotalSame(r.calls.Keys - {u}, r.calls, next.calls);
  }

  /** The traces that are asked for, and the spans that are asked for in one trace. */
  function Traces(s: State): set<ID> {
    set t | t in s.calls :: s.calls[t].trace
  }

  function Spans(s: State, k: ID): set<ID> {
    set t | t in s.calls && s.calls[t].trace == k :: s.calls[t].span
  }

  /** What one returned call says, in terms of the records. */
  lemma Answer(s: State, t: nat)
    requires Consistent(s) && t in s.calls && s.calls[t].pc.Returned?
    ensures var c := s.calls[t];
            && c.trace in s.traces && c.span in s.traces[c.trace].requests
            && c.trace in TraceReg(s).entries && c.span in RequestReg(s, c.trace).entries
            && TraceReg(s).entries[c.trace].num != 0 && c.pc.traceNum == Int32(TraceReg(s).entries[c.trace].num)
            && RequestReg(s, c.trace).entries[c.span].num != 0 && c.pc.requestNum == Int32(RequestReg(s, c.trace).entries[c.span].num)
  {
    hide Registry.Inv, Founders, Int32;
    Known(s, t);
    assert ValueOf(s, s.calls[t]);
  }

  /** A number that was taken lies between one and the count. */
  lemma Taken(g: Reg, k: nat)
    requires Registry.Inv(g) && k in g.entries && g.entries[k].num != 0
    ensures 1 <= g.entries[k].num <= g.count
  {
    assert Has(g, k, g.entries[k].num);
  }

  /** Below 2^32 different numbers look different, and none looks like zero. */
  lemma Looks(m: int, n: int)
    requires 1 <= m < WRAP && 1 <= n < WRAP
    ensures Int32(m) != 0 && (Int32(m) == Int32(n) <==> m == n)
  {
    var d := Int32(m);
    assert (m - d) % WRAP == 0 && (n - Int32(n)) % WRAP == 0;
    if Int32(m) == Int32(n) {
      assert ((m - d) - (n - d)) % WRAP == 0;
    }
  }

  /** Two answers are not zero, and equal exactly where the questions are. */
  predicate Agree(c: Call, d: Call)
    requires c.pc.Returned? && d.pc.Returned?
  {
    && c.pc.traceNum != 0 && c.pc.requestNum != 0
    && (c.pc.traceNum == d.pc.traceNum <==> c.trace == d.trace)
    && (c.trace == d.trace ==> (c.pc.requestNum == d.pc.requestNum <==> c.span == d.span))
  }

  ghost predicate AllAgree(r: State) {
    forall t, u :: t in r.calls && u in r.calls && r.calls[t].pc.Returned? && r.calls[u].pc.Returned? ==> Agree(r.calls[t], r.calls[u])
  }

  /** Fewer than 2^32 traces have a number, and in each of them fewer than 2^32 requests. */
  predicate Narrow(r: State) {
    r.traceCount < WRAP && forall k :: k in r.traces ==> r.traces[k].requestCount < WRAP
  }

  lemma SameNumbers(s: State, t: nat, u: nat)
    requires Consistent(s) && Narrow(s) && t in s.calls && u in s.calls && s.calls[t].pc.Returned? && s.calls[u].pc.Returned?
    ensures Agree(s.calls[t], s.calls[u])
  {
    hide Registry.Inv, Values, ValueOf, Founders, Int32;
    var c, d := s.calls[t], s.calls[u];
    Answer(s, t);
    Answer(s, u);
    var g, h := TraceReg(s), RequestReg(s, c.trace);
    ApartNumbers(g, c.trace, d.trace);
    ApartNumbers(h, c.span, if c.trace == d.trace then d.span else c.span);
  }

  lemma ApartNumbers(g: Reg, k: nat, k': nat)
    requires Registry.Inv(g) && g.count < WRAP && k in g.entries && k' in g.entries && g.entries[k].num != 0 && g.entries[k'].num != 0
    ensures Int32(g.entries[k].num) != 0 && (Int32(g.entries[k].num) == Int32(g.entries[k'].num) <==> k == k')
  {
    hide Registry.Inv, Int32;
    Taken(g, k);
    Taken(g, k');
    Distinct(g, k, k');
    Looks(g.entries[k].num, g.entries[k'].num);
  }

  predicate ToldNew(c: Call) {
    c.pc.Returned? && c.pc.isNew
  }

  lemma OneFounder(s: State, t: nat, u: nat)
    requires Consistent(s) && t in s.calls && u in s.calls && ToldNew(s.calls[t]) && ToldNew(s.calls[u]) && Same(s.calls[t], s.calls[u])
    ensures t == u
  {
    hide Registry.Inv, Values, TraceReg, RequestReg;
  }

  /** Under every schedule of any number of calls: at most one call for a trace and span is told that it is new, and while
      fewer than 2^32 traces and requests of each trace are asked for, no call returns zero and numbers agree exactly where
      the questions do. */
  lemma GetNumberCorrect(s: State, schedule: seq<nat>)
    requires Init(s)
    ensures var r := Run(s, schedule);
            && (|Traces(s)| < WRAP && (forall k :: k in Traces(s) ==> |Spans(s, k)| < WRAP) ==> AllAgree(r))
            && (forall t, u :: t in r.calls && u in r.calls && ToldNew(r.calls[t]) && ToldNew(r.calls[u]) && Same(r.calls[t], r.calls[u]) ==> t == u)
  {
    hide Consistent, Narrow, Agree, Traces, Spans;
    Reachable(s, schedule);
    var r := Run(s, schedule);
    SameKeys(s, r);
    CountsBound(r);
    if |Traces(s)| < WRAP && forall k :: k in Traces(s) ==> |Spans(s, k)| < WRAP {
      NarrowFrom(s, r);
      forall t, u | t in r.calls && u in r.calls && r.calls[t].pc.Returned? && r.calls[u].pc.Returned?
        ensures Agree(r.calls[t], r.calls[u])
      {
        SameNumbers(r, t, u);
      }
    }
    forall t, u | t in r.calls && u in r.calls && ToldNew(r.calls[t]) && ToldNew(r.calls[u]) && Same(r.calls[t], r.calls[u])
      ensures t == u
    {
      OneFounder(r, t, u);
    }
  }

  lemma {:induction false} SubsetSize(a: set<nat>, b: set<nat>)
    requires a <= b
    ensures |a| <= |b| && (|a| == |b| ==> a == b)
  {
    if a != {} {
      var x :| x in a;
      SubsetSize(a - {x}, b - {x});
    }
  }

  lemma SameKeys(s: State, r: State)
    requires r.calls.Keys == s.calls.Keys && forall t :: t in s.calls ==> Same(r.calls[t], s.calls[t])
    ensures Traces(r) == Traces(s) && forall k :: Spans(r, k) == Spans(s, k)
  {
    forall k
      ensures Spans(r, k) == Spans(s, k)
    {
    }
  }

  /** Of the keys of a registry as many have numbers as nobody is about to number. */
  lemma KeysBound(g: Reg, keys: set<nat>)
    requires Registry.Inv(g) && forall t :: t in g.roles && !g.roles[t].Away? ==> g.roles[t].key in keys
    ensures g.entries.Keys <= keys && 0 <= g.count <= |keys|
    ensures (forall t :: t in g.roles ==> !g.roles[t].Counting?) && keys <= g.entries.Keys ==> g.count == |keys|
  {
    forall k | k in g.entries.Keys
      ensures k in keys
    {
      OwnerOf(g, k);
    }
    SubsetSize(g.entries.Keys, keys);
    assert |g.entries.Keys| == |g.entries|;
    if forall t :: t in g.roles ==> !g.roles[t].Counting? {
      assert Counters(g) == {};
    }
    assert keys <= g.entries.Keys ==> keys == g.entries.Keys;
  }

  /** The counts stay within what is asked for, and reach it when all calls have returned. */
  lemma CountsBound(r: State)
    requires Consistent(r)
    ensures r.traceCount <= |Traces(r)| && (Finished(r) ==> r.traceCount == |Traces(r)| && r.traces.Keys == Traces(r))
    ensures forall k :: k in r.traces ==>
              && k in Traces(r) && r.traces[k].requestCount <= |Spans(r, k)|
              && (Finished(r) ==> r.traces[k].requestCount == |Spans(r, k)|)
  {
    hide Registry.Inv, Founders, Values;
    TraceBound(r);
    forall k | k in r.traces
      ensures r.traces[k].requestCount <= |Spans(r, k)| && (Finished(r) ==> r.traces[k].requestCount == |Spans(r, k)|)
    {
      RequestBound(r, k);
    }
  }

  lemma TraceKeys(r: State)
    ensures TraceReg(r).entries.Keys == r.traces.Keys && TraceReg(r).count == r.traceCount
    ensures forall t :: t in TraceReg(r).roles && !TraceReg(r).roles[t].Away? ==> TraceReg(r).roles[t].key in Traces(r)
    ensures Finished(r) ==> forall t :: t in TraceReg(r).roles ==> !TraceReg(r).roles[t].Counting?
  {
  }

  lemma TraceBound(r: State)
    requires Consistent(r)
    ensures r.traceCount <= |Traces(r)| && r.traces.Keys <= Traces(r)
    ensures Finished(r) ==> r.traceCount == |Traces(r)| && r.traces.Keys == Traces(r)
  {
    hide Registry.Inv, Founders, Values, TraceReg, RequestReg;
    TraceKeys(r);
    if Finished(r) {
      forall t | t in r.calls
        ensures r.calls[t].trace in r.traces
      {
        Known(r, t);
      }
    }
    KeysBound(TraceReg(r), Traces(r));
  }

  lemma RequestKeys(r: State, k: ID)
    requires k in r.traces
    ensures RequestReg(r, k).entries.Keys == r.traces[k].requests.Keys && RequestReg(r, k).count == r.traces[k].requestCount
    ensures forall t :: t in RequestReg(r, k).roles && !RequestReg(r, k).roles[t].Away? ==> RequestReg(r, k).roles[t].key in Spans(r, k)
    ensures Finished(r) ==> forall t :: t in RequestReg(r, k).roles ==> !RequestReg(r, k).roles[t].Counting?
  {
  }

  lemma RequestBound(r: State, k: ID)
    requires Consistent(r) && k in r.traces
    ensures r.traces[k].requestCount <= |Spans(r, k)| && (Finished(r) ==> r.traces[k].requestCount == |Spans(r, k)|)
  {
    hide Registry.Inv, Founders, Values, TraceReg, RequestReg;
    RequestKeys(r, k);
    if Finished(r) {
      forall t | t in r.calls && r.calls[t].trace == k
        ensures r.calls[t].span in r.traces[k].requests
      {
        Known(r, t);
      }
    }
    KeysBound(RequestReg(r, k), Spans(r, k));
  }

  lemma NarrowFrom(s: State, r: State)
    requires |Traces(s)| < WRAP && forall k :: k in Traces(s) ==> |Spans(s, k)| < WRAP
    requires r.traceCount <= |Traces(s)| && forall k :: k in r.traces ==> k in Traces(s) && r.traces[k].requestCount <= |Spans(s, k)|
    ensures Narrow(r)
  {
  }

  /** `n` has been returned as a trace number, or as the number of a request of trace `k`. */
  ghost predicate TraceNumUsed(s: State, n: int) {
    exists t :: t in s.calls && s.calls[t].pc.Returned? && s.calls[t].pc.traceNum == n
  }

  ghost predicate RequestNumUsed(s: State, k: ID, n: int) {
    exists t :: t in s.calls && s.calls[t].pc.Returned? && s.calls[t].trace == k && s.calls[t].pc.requestNum == n
  }

  ghost predicate NewOnce(s: State, c: Call) {
    exists u :: u in s.calls && s.calls[u].pc.Returned? && s.calls[u].pc.isNew && Same(s.calls[u], c)
  }

  /** One of the first `count` numbers, as a 32-bit cell shows it. */
  ghost predicate Shown(n: int, count: int) {
    exists i :: 1 <= i <= count && n == Int32(i)
  }

  /** The first numbers are shown as they are exactly while there are fewer than 2^31 of them. */
  lemma ShownPlain(count: nat)
    ensures (forall n :: Shown(n, count) <==> 1 <= n <= count) <==> count < LIMIT
  {
    if count < LIMIT {
      forall n
        ensures Shown(n, count) <==> 1 <= n <= count
      {
        if 1 <= n <= count {
          assert Int32(n) == n;
        }
        if Shown(n, count) {
          var i :| 1 <= i <= count && n == Int32(i);
          assert Int32(i) == i;
        }
      }
    } else {
      assert Int32(LIMIT) == -LIMIT;
      assert Shown(-LIMIT, count);
    }
  }

  /** Once all calls have returned the trace numbers are the first ones, as many as traces were asked for, and the request
      numbers of every trace as many as its spans; of the calls for one request one was told that it is new. */
  lemma AllReturned(s: State, schedule: seq<nat>)
    requires Init(s) && Finished(Run(s, schedule))
    ensures var r := Run(s, schedule);
            && (forall n :: TraceNumUsed(r, n) <==> Shown(n, |Traces(s)|))
            && (forall k, n :: k in Traces(s) ==> (RequestNumUsed(r, k, n) <==> Shown(n, |Spans(s, k)|)))
            && (forall t :: t in r.calls ==> NewOnce(r, r.calls[t]))
  {
    hide Consistent, TraceNumUsed, RequestNumUsed, NewOnce, Finished, Shown, Traces, Spans;
    Reachable(s, schedule);
    var r := Run(s, schedule);
    SameKeys(s, r);
    CountsBound(r);
    forall n
      ensures TraceNumUsed(r, n) <==> Shown(n, r.traceCount)
    {
      TraceGapless(r, n);
    }
    forall k, n | k in r.traces
      ensures RequestNumUsed(r, k, n) <==> Shown(n, r.traces[k].requestCount)
    {
      RequestGapless(r, k, n);
    }
    forall t | t in r.calls
      ensures NewOnce(r, r.calls[t])
    {
      FounderReturned(r, t);
    }
  }

  /** The numbers of a complete run are what they should be exactly when fewer than 2^32 traces, and in each of them fewer
      than 2^32 spans, were asked for: the next one is zero. */
  lemma AgreeExactly(s: State, schedule: seq<nat>)
    requires Init(s) && Finished(Run(s, schedule))
    ensures AllAgree(Run(s, schedule)) <==> |Traces(s)| < WRAP && forall k :: k in Traces(s) ==> |Spans(s, k)| < WRAP
  {
    hide Run, Init, Finished, AllAgree, TraceNumUsed, RequestNumUsed, NewOnce, Shown, Traces, Spans;
    var r := Run(s, schedule);
    AllReturned(s, schedule);
    GetNumberCorrect(s, schedule);
    if |Traces(s)| >= WRAP {
      ZeroShown(|Traces(s)|);
      ZeroTrace(r);
    }
    if k :| k in Traces(s) && |Spans(s, k)| >= WRAP {
      ZeroShown(|Spans(s, k)|);
      ZeroRequest(r, k);
    }
  }

  lemma ZeroTrace(r: State)
    requires TraceNumUsed(r, 0)
    ensures !AllAgree(r)
  {
    var t :| t in r.calls && r.calls[t].pc.Returned? && r.calls[t].pc.traceNum == 0;
    assert !Agree(r.calls[t], r.calls[t]);
  }

  lemma ZeroRequest(r: State, k: ID)
    requires RequestNumUsed(r, k, 0)
    ensures !AllAgree(r)
  {
    var t :| t in r.calls && r.calls[t].pc.Returned? && r.calls[t].trace == k && r.calls[t].pc.requestNum == 0;
    assert !Agree(r.calls[t], r.calls[t]);
  }

  lemma ZeroShown(count: int)
    requires count >= WRAP
    ensures Shown(0, count)
  {
    assert Int32(WRAP) == 0;
  }

  lemma FounderReturned(r: State, t: nat)
    requires Consistent(r) && Finished(r) && t in r.calls
    ensures NewOnce(r, r.calls[t])
  {
    hide Registry.Inv, TraceReg, RequestReg, Values, Int32;
    Answer(r, t);
    var c := r.calls[t];
    assert HasFounder(r, c.trace, c.span);
    var u :| u in r.calls && IsFounder(r.calls[u]) && r.calls[u].trace == c.trace && r.calls[u].span == c.span;
    assert r.calls[u].pc.Returned? && r.calls[u].pc.isNew && Same(r.calls[u], c);
  }

  lemma TraceGapless(r: State, n: int)
    requires Consistent(r) && Finished(r)
    ensures TraceNumUsed(r, n) <==> Shown(n, r.traceCount)
  {
    hide Registry.Inv, Values, Founders, RequestReg, Int32;
    var g := TraceReg(r);
    if Shown(n, r.traceCount) {
      var i :| 1 <= i <= r.traceCount && n == Int32(i);
      Gapless(g, i);
      var k :| k in g.entries && g.entries[k].num == i;
      OwnerOf(g, k);
      var t :| t in g.roles && !g.roles[t].Away? && g.roles[t].key == k;
      Answer(r, t);
    }
    if TraceNumUsed(r, n) {
      var t :| t in r.calls && r.calls[t].pc.Returned? && r.calls[t].pc.traceNum == n;
      Answer(r, t);
      Taken(g, r.calls[t].trace);
    }
  }

  lemma RequestGapless(r: State, k: ID, n: int)
    requires Consistent(r) && Finished(r) && k in r.traces
    ensures RequestNumUsed(r, k, n) <==> Shown(n, r.traces[k].requestCount)
  {
    hide Registry.Inv, Values, Founders, TraceReg, Int32;
    var g := RequestReg(r, k);
    if Shown(n, r.traces[k].requestCount) {
      var i :| 1 <= i <= r.traces[k].requestCount && n == Int32(i);
      Gapless(g, i);
      var sp :| sp in g.entries && g.entries[sp].num == i;
      OwnerOf(g, sp);
      var t :| t in g.roles && !g.roles[t].Away? && g.roles[t].key == sp;
      Answer(r, t);
    }
    if RequestNumUsed(r, k, n) {
      var t :| t in r.calls && r.calls[t].pc.Returned? && r.calls[t].trace == k && r.calls[t].pc.requestNum == n;
      Answer(r, t);
      Taken(g, r.calls[t].span);
    }
  }
}
