/** RequestCounter.GetNumber as interleaved atomic steps (xoputil/counter.go).

    Every call is a thread of its own.  Trace and span IDs are byte arrays that are only compared, here numbers.
    A published record is named by its key: the maps are never overwritten and nothing is deleted from them, so the
    record that loses the race of LoadOrStore is garbage that no other thread has seen.  A counter, and a number taken
    from it, is modelled as the count of increments; the 32-bit cell holds its low bits, and that is what a load sees. */
module Counter {
  import opened Options
  import opened Registry

  type ID = nat

  datatype RequestInfo = RequestInfo(mu: Mutex, requestNum: int)

  datatype TraceInfo = TraceInfo(mu: Mutex, requestCount: int, traceNum: int, requests: map<ID, RequestInfo>)

  /** Where a call is: each value names the step that is about to happen. */
  datatype Pc =
    | LoadTrace
    | StoreTrace
    | CountTrace
    | PublishTrace(n: int)
    | UnlockTrace
    | CheckTrace
    | LockTrace
    | ReleaseTrace
    | LoadRequest
    | StoreRequest
    | CountRequest
    | PublishRequest(n: int)
    | UnlockRequest
    | CheckRequest(loaded: bool)
    | LockRequest(loaded: bool)
    | ReleaseRequest(loaded: bool)
    | ReadTrace(loaded: bool)
    | ReadRequest(loaded: bool, traceNum: int)
    | Returned(traceNum: int, requestNum: int, isNew: bool)

  datatype Call = Call(trace: ID, span: ID, pc: Pc)

  datatype State = State(traceCount: int, traces: map<ID, TraceInfo>, calls: map<nat, Call>)

  const LIMIT := 0x8000_0000
  const WRAP := 0x1_0000_0000

  /** What a load of a 32-bit cell sees: the low bits as two's complement. */
  function Int32(n: int): (r: int)
    ensures -LIMIT <= r < LIMIT && (n - r) % WRAP == 0
  {
    (n + LIMIT) % WRAP - LIMIT
  }

  function Goto(s: State, t: nat, pc: Pc): State
    requires t in s.calls
  {
    s.(calls := s.calls[t := s.calls[t].(pc := pc)])
  }

  function WithTrace(s: State, k: ID, ti: TraceInfo): State {
    s.(traces := s.traces[k := ti])
  }

  function WithRequest(ti: TraceInfo, sp: ID, ri: RequestInfo): TraceInfo {
    ti.(requests := ti.requests[sp := ri])
  }

  /** The role of a call in the numbering of traces. */
  function TraceRole(c: Call): Role {
    match c.pc
    case LoadTrace => Away
    case StoreTrace => Away
    case CountTrace => Counting(c.trace)
    case PublishTrace(n) => Publishing(c.trace, n)
    case UnlockTrace => Unlocking(c.trace)
    case CheckTrace => Asking(c.trace)
    case LockTrace => Asking(c.trace)
    case ReleaseTrace => Holding(c.trace)
    case _ => Past(c.trace)
  }

  /** The role of a call in the numbering of the requests of its trace. */
  function RequestRole(c: Call): Role {
    match c.pc
    case CountRequest => Counting(c.span)
    case PublishRequest(n) => Publishing(c.span, n)
    case UnlockRequest => Unlocking(c.span)
    case CheckRequest(_) => Asking(c.span)
    case LockRequest(_) => Asking(c.span)
    case ReleaseRequest(_) => Holding(c.span)
    case ReadTrace(_) => Past(c.span)
    case ReadRequest(_, _) => Past(c.span)
    case Returned(_, _, _) => Past(c.span)
    case _ => Away
  }

  function TraceReg(s: State): Reg {
    Reg(s.traceCount,
        map k | k in s.traces :: Entry(s.traces[k].mu, s.traces[k].traceNum),
        map t | t in s.calls :: TraceRole(s.calls[t]))
  }

  function RequestReg(s: State, k: ID): Reg
    requires k in s.traces
  {
    Reg(s.traces[k].requestCount,
        map sp | sp in s.traces[k].requests :: Entry(s.traces[k].requests[sp].mu, s.traces[k].requests[sp].requestNum),
        map t | t in s.calls :: if s.calls[t].trace == k then RequestRole(s.calls[t]) else Away)
  }

  /** The records that a call works on are there. */
  predicate Found(s: State, t: nat)
    requires t in s.calls
  {
    var c := s.calls[t];
    && (TraceRole(c).Away? || c.trace in s.traces)
    && (RequestRole(c).Away? || c.span in s.traces[c.trace].requests)
  }

  /** The steps that find or number the record of a trace. */
  function NextOnTrace(s: State, t: nat): Option<State>
    requires t in s.calls && Found(s, t)
  {
    var c := s.calls[t];
    var k := c.trace;
    match c.pc
    case LoadTrace => Some(Goto(s, t, if k in s.traces then CheckTrace else StoreTrace))
    case StoreTrace =>
      if k in s.traces then Some(Goto(s, t, CheckTrace))
      else Some(WithTrace(Goto(s, t, CountTrace), k, TraceInfo(HeldBy(t), 0, 0, map[])))
    case CountTrace =>
      var n := s.traceCount + 1;
      Some(Goto(s, t, PublishTrace(n)).(traceCount := n))
    case PublishTrace(n) => Some(WithTrace(Goto(s, t, UnlockTrace), k, s.traces[k].(traceNum := n)))
    case UnlockTrace => Some(WithTrace(Goto(s, t, CheckTrace), k, s.traces[k].(mu := Free)))
    case CheckTrace => Some(Goto(s, t, if Int32(s.traces[k].traceNum) == 0 then LockTrace else LoadRequest))
    case LockTrace =>
      if s.traces[k].mu != Free then None
      else Some(WithTrace(Goto(s, t, ReleaseTrace), k, s.traces[k].(mu := HeldBy(t))))
    case ReleaseTrace => Some(WithTrace(Goto(s, t, LoadRequest), k, s.traces[k].(mu := Free)))
    case _ => None
  }

  /** The steps that find or number the record of a request, and read both numbers. */
  function NextOnRequest(s: State, t: nat): Option<State>
    requires t in s.calls && Found(s, t)
  {
    var c := s.calls[t];
    var k, sp := c.trace, c.span;
    match c.pc
    case LoadRequest => Some(Goto(s, t, if sp in s.traces[k].requests then CheckRequest(true) else StoreRequest))
    case StoreRequest =>
      if sp in s.traces[k].requests then Some(Goto(s, t, CheckRequest(true)))
      else Some(WithTrace(Goto(s, t, CountRequest), k, WithRequest(s.traces[k], sp, RequestInfo(HeldBy(t), 0))))
    case CountRequest =>
      var n := s.traces[k].requestCount + 1;
      Some(WithTrace(Goto(s, t, PublishRequest(n)), k, s.traces[k].(requestCount := n)))
    case PublishRequest(n) =>
      Some(WithTrace(Goto(s, t, UnlockRequest), k, WithRequest(s.traces[k], sp, s.traces[k].requests[sp].(requestNum := n))))
    case UnlockRequest =>
      Some(WithTrace(Goto(s, t, CheckRequest(false)), k, WithRequest(s.traces[k], sp, s.traces[k].requests[sp].(mu := Free))))
    case CheckRequest(loaded) =>
      Some(Goto(s, t, if Int32(s.traces[k].requests[sp].requestNum) == 0 then LockRequest(loaded) else ReadTrace(loaded)))
    case LockRequest(loaded) =>
      if s.traces[k].requests[sp].mu != Free then None
      else Some(WithTrace(Goto(s, t, ReleaseRequest(loaded)), k, WithRequest(s.traces[k], sp, s.traces[k].requests[sp].(mu := HeldBy(t)))))
    case ReleaseRequest(loaded) =>
      Some(WithTrace(Goto(s, t, ReadTrace(loaded)), k, WithRequest(s.traces[k], sp, s.traces[k].requests[sp].(mu := Free))))
    case ReadTrace(loaded) => Some(Goto(s, t, ReadRequest(loaded, Int32(s.traces[k].traceNum))))
    case ReadRequest(loaded, n) => Some(Goto(s, t, Returned(n, Int32(s.traces[k].requests[sp].requestNum), !loaded)))
    case _ => None
  }

  predicate InTracePhase(pc: Pc) {
    pc.LoadTrace? || pc.StoreTrace? || pc.CountTrace? || pc.PublishTrace? || pc.UnlockTrace? || pc.CheckTrace? || pc.LockTrace? || pc.ReleaseTrace?
  }

  /** One step of call `t`: None when it waits for a mutex or has returned. */
  function Next(s: State, t: nat): Option<State>
    requires t in s.calls && Found(s, t)
  {
    if InTracePhase(s.calls[t].pc) then NextOnTrace(s, t) else NextOnRequest(s, t)
  }

  /** The call that stored the record of its request, and will say so. */
  predicate IsFounder(c: Call) {
    match c.pc
    case CountRequest => true
    case PublishRequest(_) => true
    case UnlockRequest => true
    case CheckRequest(loaded) => !loaded
    case LockRequest(loaded) => !loaded
    case ReleaseRequest(loaded) => !loaded
    case ReadTrace(loaded) => !loaded
    case ReadRequest(loaded, _) => !loaded
    case Returned(_, _, isNew) => isNew
    case _ => false
  }

  predicate Same(c: Call, d: Call) {
    c.trace == d.trace && c.span == d.span
  }

  ghost predicate HasFounder(s: State, k: ID, sp: ID) {
    exists t :: t in s.calls && IsFounder(s.calls[t]) && s.calls[t].trace == k && s.calls[t].span == sp
  }

  /** Every record of a request has exactly one founder. */
  ghost predicate Founders(s: State) {
    && (forall t, u :: t in s.calls && u in s.calls && IsFounder(s.calls[t]) && IsFounder(s.calls[u]) && Same(s.calls[t], s.calls[u]) ==> t == u)
    && (forall k, sp :: k in s.traces && sp in s.traces[k].requests ==> HasFounder(s, k, sp))
  }

  /** What a call has read is what the records say. */
  predicate Values(s: State) {
    forall t :: t in s.calls && Found(s, t) ==> ValueOf(s, s.calls[t])
  }

  predicate ValueOf(s: State, c: Call) {
    match c.pc
    case ReadRequest(_, n) => c.trace in s.traces && n == Int32(s.traces[c.trace].traceNum)
    case Returned(n, m, _) =>
      && c.trace in s.traces && n == Int32(s.traces[c.trace].traceNum)
      && c.span in s.traces[c.trace].requests && m == Int32(s.traces[c.trace].requests[c.span].requestNum)
    case _ => true
  }

  ghost predicate Consistent(s: State) {
    && Registry.Inv(TraceReg(s))
    && (forall k :: k in s.traces ==> Registry.Inv(RequestReg(s, k)))
    && Founders(s)
    && Values(s)
  }

  lemma TraceRegGoto(s: State, t: nat, pc: Pc)
    requires t in s.calls
    ensures TraceReg(Goto(s, t, pc)) == TraceReg(s).(roles := TraceReg(s).roles[t := TraceRole(s.calls[t].(pc := pc))])
    ensures forall k :: k in s.traces ==>
              RequestReg(Goto(s, t, pc), k) ==
                if s.calls[t].trace == k then RequestReg(s, k).(roles := RequestReg(s, k).roles[t := RequestRole(s.calls[t].(pc := pc))])
                else RequestReg(s, k)
  {
    assert TraceReg(Goto(s, t, pc)).roles == TraceReg(s).roles[t := TraceRole(s.calls[t].(pc := pc))];
    forall k | k in s.traces
      ensures RequestReg(Goto(s, t, pc), k).roles ==
                if s.calls[t].trace == k then RequestReg(s, k).roles[t := RequestRole(s.calls[t].(pc := pc))] else RequestReg(s, k).roles
    {
    }
  }

  function RequestEntries(ti: TraceInfo): map<ID, Entry> {
    map sp | sp in ti.requests :: Entry(ti.requests[sp].mu, ti.requests[sp].requestNum)
  }

  lemma TraceRegWith(s: State, k: ID, ti: TraceInfo)
    ensures TraceReg(WithTrace(s, k, ti)) == TraceReg(s).(entries := TraceReg(s).entries[k := Entry(ti.mu, ti.traceNum)])
    ensures k in s.traces ==>
              RequestReg(WithTrace(s, k, ti), k) == RequestReg(s, k).(count := ti.requestCount, entries := RequestEntries(ti))
    ensures forall k' :: k' in s.traces && k' != k ==> RequestReg(WithTrace(s, k, ti), k') == RequestReg(s, k')
  {
    assert TraceReg(WithTrace(s, k, ti)).entries == TraceReg(s).entries[k := Entry(ti.mu, ti.traceNum)];
    assert k in s.traces ==> RequestReg(WithTrace(s, k, ti), k).roles == RequestReg(s, k).roles;
  }

  lemma RequestEntriesWith(ti: TraceInfo, sp: ID, ri: RequestInfo)
    ensures RequestEntries(WithRequest(ti, sp, ri)) == RequestEntries(ti)[sp := Entry(ri.mu, ri.requestNum)]
  {
  }

  /** The two registries after call `t` went to `pc` and wrote the record of its trace. */
  lemma Written(s: State, t: nat, pc: Pc, ti: TraceInfo, n: int)
    requires t in s.calls
    ensures var c := s.calls[t];
            var s' := WithTrace(Goto(s, t, pc), c.trace, ti).(traceCount := n);
            && TraceReg(s') == Reg(n, TraceReg(s).entries[c.trace := Entry(ti.mu, ti.traceNum)], TraceReg(s).roles[t := TraceRole(c.(pc := pc))])
            && (c.trace in s.traces ==>
                  RequestReg(s', c.trace) == Reg(ti.requestCount, RequestEntries(ti), RequestReg(s, c.trace).roles[t := RequestRole(c.(pc := pc))]))
            && (forall k :: k in s.traces && k != c.trace ==> RequestReg(s', k) == RequestReg(s, k))
  {
    var c := s.calls[t];
    TraceRegGoto(s, t, pc);
    TraceRegWith(Goto(s, t, pc), c.trace, ti);
    var s1 := WithTrace(Goto(s, t, pc), c.trace, ti);
    assert TraceReg(s1.(traceCount := n)) == TraceReg(s1).(count := n);
    forall k | k in s1.traces
      ensures RequestReg(s1.(traceCount := n), k) == RequestReg(s1, k)
    {
    }
  }

  lemma SameEntry(m: map<ID, Entry>, k: ID)
    requires k in m
    ensures m[k := m[k]] == m
  {
  }

  /** What the lemmas about one step rely on. */
  ghost predicate CanStep(s: State, t: nat) {
    t in s.calls && Found(s, t) && Next(s, t).Some? && Registry.Inv(TraceReg(s))
  }

  ghost predicate TraceMoved(s: State, t: nat, s': State)
    requires t in s.calls
  {
    TraceReg(s') == TraceReg(s) || Registry.Step(TraceReg(s), t, s.calls[t].trace, TraceReg(s'))
  }

  ghost predicate RequestMoved(s: State, t: nat, s': State, k: ID)
    requires t in s.calls && k in s.traces && k in s'.traces
  {
    || RequestReg(s', k) == RequestReg(s, k)
    || (k == s.calls[t].trace && Registry.Step(RequestReg(s, k), t, s.calls[t].span, RequestReg(s', k)))
  }

  /** The entry of the registries about call `t`, looked up in the state. */
  lemma Look(s: State, t: nat)
    requires t in s.calls && Registry.Inv(TraceReg(s))
    ensures var c := s.calls[t];
            && var g := TraceReg(s);
               && g.count == s.traceCount && t in g.roles && g.roles[t] == TraceRole(c) && RoleFits(g, t)
               && (c.trace in g.entries <==> c.trace in s.traces)
               && (c.trace in s.traces ==> g.entries[c.trace] == Entry(s.traces[c.trace].mu, s.traces[c.trace].traceNum))
  {
  }

  lemma LookRequest(s: State, t: nat, k: ID)
    requires t in s.calls && k in s.traces && Registry.Inv(RequestReg(s, k))
    ensures var c := s.calls[t];
            var g := RequestReg(s, k);
            && g.count == s.traces[k].requestCount && g.entries == RequestEntries(s.traces[k])
            && t in g.roles && g.roles[t] == (if c.trace == k then RequestRole(c) else Away) && RoleFits(g, t)
            && (c.span in g.entries <==> c.span in s.traces[k].requests)
            && (c.span in s.traces[k].requests ==>
                  g.entries[c.span] == Entry(s.traces[k].requests[c.span].mu, s.traces[k].requests[c.span].requestNum))
  {
  }

  lemma SameRole(g: Reg, t: nat)
    requires t in g.roles
    ensures g.roles[t := g.roles[t]] == g.roles
  {
  }

  predicate OnlyMoves(s: State, t: nat)
    requires t in s.calls && Found(s, t) && Next(s, t).Some?
  {
    t in Next(s, t).value.calls && Next(s, t).value == Goto(s, t, Next(s, t).value.calls[t].pc)
  }

  lemma GotoTrace(s: State, t: nat)
    requires CanStep(s, t) && OnlyMoves(s, t)
    ensures TraceMoved(s, t, Next(s, t).value)
  {
    hide Int32, Registry.Inv, TraceReg, RequestReg, RequestEntries;
    TraceRegGoto(s, t, Next(s, t).value.calls[t].pc);
    Look(s, t);
    SameRole(TraceReg(s), t);
  }

  lemma GotoRequest(s: State, t: nat, k: ID)
    requires CanStep(s, t) && OnlyMoves(s, t) && k in s.traces && Registry.Inv(RequestReg(s, k))
    ensures RequestMoved(s, t, Next(s, t).value, k)
  {
    hide Int32, Registry.Inv, TraceReg, RequestReg, RequestEntries;
    TraceRegGoto(s, t, Next(s, t).value.calls[t].pc);
    LookRequest(s, t, k);
    SameRole(RequestReg(s, k), t);
  }

  /** A step that only moves the call. */
  lemma GotoStep(s: State, t: nat)
    requires CanStep(s, t) && OnlyMoves(s, t)
    ensures TraceMoved(s, t, Next(s, t).value)
    ensures forall k :: k in s.traces && Registry.Inv(RequestReg(s, k)) ==> k in Next(s, t).value.traces && RequestMoved(s, t, Next(s, t).value, k)
  {
    hide Int32, Registry.Inv, TraceReg, RequestReg, RequestEntries, Next, TraceMoved, RequestMoved;
    GotoTrace(s, t);
    forall k | k in s.traces && Registry.Inv(RequestReg(s, k))
      ensures RequestMoved(s, t, Next(s, t).value, k)
    {
      GotoRequest(s, t, k);
    }
  }

  /** A step of the first phase that writes the record of the trace. */
  lemma TraceWrite(s: State, t: nat)
    requires CanStep(s, t) && InTracePhase(s.calls[t].pc) && !s.calls[t].pc.CountTrace?
    requires Next(s, t).value != Goto(s, t, Next(s, t).value.calls[t].pc)
    ensures TraceMoved(s, t, Next(s, t).value)
    ensures forall k :: k in s.traces && Registry.Inv(RequestReg(s, k)) ==> k in Next(s, t).value.traces && RequestMoved(s, t, Next(s, t).value, k)
  {
    hide Int32, Registry.Inv, TraceReg, RequestReg, RequestEntries;
    var s' := Next(s, t).value;
    var c := s.calls[t];
    var pc := s'.calls[t].pc;
    Look(s, t);
    Written(s, t, pc, s'.traces[c.trace], s.traceCount);
    assert s' == WithTrace(Goto(s, t, pc), c.trace, s'.traces[c.trace]).(traceCount := s.traceCount);
    forall k | k in s.traces && Registry.Inv(RequestReg(s, k))
      ensures k in s'.traces && RequestMoved(s, t, s', k)
    {
      LookRequest(s, t, k);
      SameRole(RequestReg(s, k), t);
      if k == c.trace {
        SameRequests(s.traces[k], s'.traces[k]);
      }
    }
  }

  lemma SameRequests(ti: TraceInfo, tj: TraceInfo)
    requires ti.requests == tj.requests
    ensures RequestEntries(ti) == RequestEntries(tj)
  {
  }

  lemma TraceCountStep(s: State, t: nat)
    requires CanStep(s, t) && s.calls[t].pc.CountTrace?
    ensures TraceMoved(s, t, Next(s, t).value)
    ensures forall k :: k in s.traces && Registry.Inv(RequestReg(s, k)) ==> k in Next(s, t).value.traces && RequestMoved(s, t, Next(s, t).value, k)
  {
    hide Int32, Registry.Inv, TraceReg, RequestReg, RequestEntries;
    var s' := Next(s, t).value;
    var mid := Goto(s, t, s'.calls[t].pc);
    Look(s, t);
    TraceRegGoto(s, t, s'.calls[t].pc);
    Recount(mid, s'.traceCount);
    forall k | k in s.traces && Registry.Inv(RequestReg(s, k))
      ensures k in s'.traces && RequestMoved(s, t, s', k)
    {
      LookRequest(s, t, k);
      SameRole(RequestReg(s, k), t);
    }
  }

  lemma Recount(s: State, n: int)
    ensures TraceReg(s.(traceCount := n)) == TraceReg(s).(count := n)
    ensures forall k :: k in s.traces ==> RequestReg(s.(traceCount := n), k) == RequestReg(s, k)
  {
    forall k | k in s.traces
      ensures RequestReg(s.(traceCount := n), k) == RequestReg(s, k)
    {
    }
  }

  /** What a write of the record of the call's trace leaves alone. */
  lemma WriteIs(s: State, k: ID, ti: TraceInfo)
    ensures var s' := WithTrace(s, k, ti);
            k in s'.traces && s'.traces[k] == ti && s'.calls == s.calls && s' == s'.(traceCount := s.traceCount)
  {
  }

  /** A write of a record of a request leaves the count, the mutex and the number of the trace alone. */
  lemma RequestWriteShape(s: State, t: nat)
    requires CanStep(s, t) && !InTracePhase(s.calls[t].pc) && Next(s, t).value != Goto(s, t, Next(s, t).value.calls[t].pc)
    ensures var s' := Next(s, t).value;
            var c := s.calls[t];
            && t in s'.calls && c.trace in s.traces && c.trace in s'.traces
            && s' == WithTrace(Goto(s, t, s'.calls[t].pc), c.trace, s'.traces[c.trace]).(traceCount := s.traceCount)
            && s'.traces[c.trace].mu == s.traces[c.trace].mu && s'.traces[c.trace].traceNum == s.traces[c.trace].traceNum
            && TraceRole(s'.calls[t]) == TraceRole(c)
  {
    hide Registry.Inv, TraceReg, RequestReg, NextOnTrace, WithTrace;
    var c := s.calls[t];
    var k, sp := c.trace, c.span;
    match c.pc
    case StoreRequest => WriteIs(Goto(s, t, CountRequest), k, WithRequest(s.traces[k], sp, RequestInfo(HeldBy(t), 0)));
    case CountRequest =>
      var n := s.traces[k].requestCount + 1;
      WriteIs(Goto(s, t, PublishRequest(n)), k, s.traces[k].(requestCount := n));
    case PublishRequest(n) => WriteIs(Goto(s, t, UnlockRequest), k, WithRequest(s.traces[k], sp, s.traces[k].requests[sp].(requestNum := n)));
    case UnlockRequest => WriteIs(Goto(s, t, CheckRequest(false)), k, WithRequest(s.traces[k], sp, s.traces[k].requests[sp].(mu := Free)));
    case LockRequest(l) => WriteIs(Goto(s, t, ReleaseRequest(l)), k, WithRequest(s.traces[k], sp, s.traces[k].requests[sp].(mu := HeldBy(t))));
    case ReleaseRequest(l) => WriteIs(Goto(s, t, ReadTrace(l)), k, WithRequest(s.traces[k], sp, s.traces[k].requests[sp].(mu := Free)));
    case _ =>
  }

  lemma RequestWriteKeeps(s: State, t: nat)
    requires CanStep(s, t) && !InTracePhase(s.calls[t].pc) && Next(s, t).value != Goto(s, t, Next(s, t).value.calls[t].pc)
    ensures TraceMoved(s, t, Next(s, t).value)
  {
    hide Registry.Inv, Next, TraceReg, RequestReg, RequestEntries, RequestRole, TraceRole, Registry.Step;
    var s' := Next(s, t).value;
    var c := s.calls[t];
    RequestWriteShape(s, t);
    Look(s, t);
    Written(s, t, s'.calls[t].pc, s'.traces[c.trace], s.traceCount);
    SameEntry(TraceReg(s).entries, c.trace);
    SameRole(TraceReg(s), t);
  }

  lemma RequestWrite(s: State, t: nat)
    requires CanStep(s, t) && !InTracePhase(s.calls[t].pc) && Next(s, t).value != Goto(s, t, Next(s, t).value.calls[t].pc)
    ensures TraceMoved(s, t, Next(s, t).value)
    ensures forall k :: k in s.traces && Registry.Inv(RequestReg(s, k)) ==> k in Next(s, t).value.traces && RequestMoved(s, t, Next(s, t).value, k)
  {
    hide Int32, Registry.Inv, TraceReg, RequestReg, RequestEntries, RequestRole, TraceRole, TraceMoved, Registry.Step;
    var s' := Next(s, t).value;
    var c := s.calls[t];
    var pc := s'.calls[t].pc;
    var ti := s'.traces[c.trace];
    RequestWriteKeeps(s, t);
    Written(s, t, pc, ti, s.traceCount);
    assert s' == WithTrace(Goto(s, t, pc), c.trace, ti).(traceCount := s.traceCount);
    forall k | k in s.traces && Registry.Inv(RequestReg(s, k))
      ensures k in s'.traces && RequestMoved(s, t, s', k)
    {
      if k == c.trace {
        RequestWriteOwn(s, t);
      }
    }
  }

  /** What a write of the record of a request does to the numbering of the requests of its trace. */
  lemma RequestWritten(s: State, t: nat)
    requires CanStep(s, t) && !InTracePhase(s.calls[t].pc) && Next(s, t).value != Goto(s, t, Next(s, t).value.calls[t].pc)
    requires s.calls[t].trace in s.traces && Registry.Inv(RequestReg(s, s.calls[t].trace))
    ensures var s' := Next(s, t).value;
            var c := s.calls[t];
            && t in s'.calls && c.trace in s'.traces
            && var g, ti := RequestReg(s, c.trace), s'.traces[c.trace];
               RequestReg(s', c.trace) == Reg(ti.requestCount, RequestEntries(ti), g.roles[t := RequestRole(c.(pc := s'.calls[t].pc))])
  {
    hide Next, Registry.Inv, TraceReg, RequestReg, RequestEntries, TraceRole, RequestRole;
    RequestWriteShape(s, t);
    var s', c := Next(s, t).value, s.calls[t];
    Written(s, t, s'.calls[t].pc, s'.traces[c.trace], s.traceCount);
  }

  lemma RequestWriteOwn(s: State, t: nat)
    requires CanStep(s, t) && !InTracePhase(s.calls[t].pc) && Next(s, t).value != Goto(s, t, Next(s, t).value.calls[t].pc)
    requires s.calls[t].trace in s.traces && Registry.Inv(RequestReg(s, s.calls[t].trace))
    ensures s.calls[t].trace in Next(s, t).value.traces && RequestMoved(s, t, Next(s, t).value, s.calls[t].trace)
  {
    hide Int32, Registry.Inv, TraceReg, RequestReg, RequestEntries, TraceRole, NextOnTrace;
    var s' := Next(s, t).value;
    var c := s.calls[t];
    RequestWritten(s, t);
    var ti := s'.traces[c.trace];
    LookRequest(s, t, c.trace);
    if c.pc.CountRequest? {
      SameRequests(s.traces[c.trace], ti);
    } else {
      RequestEntriesWith(s.traces[c.trace], c.span, ti.requests[c.span]);
      assert ti == WithRequest(s.traces[c.trace], c.span, ti.requests[c.span]);
    }
  }

  /** Every step of a call is a step of the numberings. */
  lemma Moved(s: State, t: nat)
    requires CanStep(s, t)
    ensures TraceMoved(s, t, Next(s, t).value)
    ensures forall k :: k in s.traces && Registry.Inv(RequestReg(s, k)) ==> k in Next(s, t).value.traces && RequestMoved(s, t, Next(s, t).value, k)
  {
    hide TraceMoved, RequestMoved, TraceReg, RequestReg, Registry.Inv;
    var c := s.calls[t];
    if Next(s, t).value == Goto(s, t, Next(s, t).value.calls[t].pc) {
      GotoStep(s, t);
    } else if c.pc.CountTrace? {
      TraceCountStep(s, t);
    } else if InTracePhase(c.pc) {
      TraceWrite(s, t);
    } else {
      RequestWrite(s, t);
    }
  }

  /** The record of a trace starts without requests, and no call has got further with that trace. */
  lemma NewTrace(s: State, t: nat)
    requires CanStep(s, t) && s.calls[t].trace !in s.traces && s.calls[t].trace in Next(s, t).value.traces
    ensures Registry.Inv(RequestReg(Next(s, t).value, s.calls[t].trace))
  {
    var s' := Next(s, t).value;
    var g := RequestReg(s', s.calls[t].trace);
    forall u | u in g.roles
      ensures g.roles[u].Away?
    {
      assert RoleFits(TraceReg(s), u);
      assert TraceReg(s).roles[u] == TraceRole(s.calls[u]);
    }
    InvEmpty(g);
  }

  /** Numbers that were handed out never change. */
  lemma Stable(s: State, t: nat)
    requires CanStep(s, t) && forall k :: k in s.traces ==> Registry.Inv(RequestReg(s, k))
    ensures var s' := Next(s, t).value;
            forall k :: k in s.traces ==>
              && k in s'.traces
              && (s.traces[k].traceNum != 0 ==> s'.traces[k].traceNum == s.traces[k].traceNum)
              && (forall sp :: sp in s.traces[k].requests ==>
                    && sp in s'.traces[k].requests
                    && (s.traces[k].requests[sp].requestNum != 0 ==> s'.traces[k].requests[sp].requestNum == s.traces[k].requests[sp].requestNum))
  {
    hide Int32, Registry.Inv, TraceReg, RequestReg, RequestEntries;
    var c := s.calls[t];
    Look(s, t);
    if c.trace in s.traces {
      LookRequest(s, t, c.trace);
    }
  }

  /** A call that has the number of its trace, or of its request, has a number that is not zero. */
  lemma Known(s: State, u: nat)
    requires u in s.calls && Registry.Inv(TraceReg(s)) && forall k :: k in s.traces ==> Registry.Inv(RequestReg(s, k))
    ensures Found(s, u)
    ensures TraceRole(s.calls[u]).Past? ==> s.traces[s.calls[u].trace].traceNum != 0
    ensures RequestRole(s.calls[u]).Past? ==> s.traces[s.calls[u].trace].requests[s.calls[u].span].requestNum != 0
  {
    hide Int32, Registry.Inv, TraceReg, RequestReg, RequestEntries;
    Look(s, u);
    if s.calls[u].trace in s.traces {
      LookRequest(s, u, s.calls[u].trace);
    }
  }

  lemma ValuesKept(s: State, t: nat)
    requires CanStep(s, t) && Consistent(s)
    ensures Values(Next(s, t).value)
  {
    hide Int32, Registry.Inv, TraceReg, RequestReg, RequestEntries;
    var s' := Next(s, t).value;
    Stable(s, t);
    forall u | u in s'.calls && Found(s', u)
      ensures ValueOf(s', s'.calls[u])
    {
      Known(s, u);
      if u != t {
        assert s'.calls[u] == s.calls[u];
        assert ValueOf(s, s.calls[u]);
      } else {
        assert ValueOf(s, s.calls[t]);
      }
    }
  }

  lemma FoundersKept(s: State, t: nat)
    requires CanStep(s, t) && Consistent(s)
    ensures Founders(Next(s, t).value)
  {
    hide Int32, Registry.Inv, TraceReg, RequestReg, RequestEntries, Values, RequestRole, TraceRole, Next, IsFounder;
    FounderStep(s, t);
    FoundersAlone(s, t);
    var s' := Next(s, t).value;
    forall k, sp | k in s'.traces && sp in s'.traces[k].requests
      ensures HasFounder(s', k, sp)
    {
      if k in s.traces && sp in s.traces[k].requests {
        assert HasFounder(s, k, sp);
        var u :| u in s.calls && IsFounder(s.calls[u]) && s.calls[u].trace == k && s.calls[u].span == sp;
        assert u in s'.calls && IsFounder(s'.calls[u]) && s'.calls[u].trace == k && s'.calls[u].span == sp;
      } else {
        assert t in s'.calls && IsFounder(s'.calls[t]) && s'.calls[t].trace == k && s'.calls[t].span == sp;
      }
    }
  }

  lemma FoundersAlone(s: State, t: nat)
    requires CanStep(s, t) && Consistent(s)
    ensures var calls := Next(s, t).value.calls;
            forall a, b :: a in calls && b in calls && IsFounder(calls[a]) && IsFounder(calls[b]) && Same(calls[a], calls[b]) ==> a == b
  {
    hide Int32, Registry.Inv, TraceReg, RequestReg, RequestEntries, Values, RequestRole, TraceRole, Next, IsFounder;
    FounderStep(s, t);
    forall u | u in s.calls && IsFounder(s.calls[u])
      ensures s.calls[u].trace in s.traces && s.calls[u].span in s.traces[s.calls[u].trace].requests
    {
      Known(s, u);
      FounderFound(s, u);
    }
  }

  lemma FounderFound(s: State, u: nat)
    requires u in s.calls && Found(s, u) && IsFounder(s.calls[u])
    ensures s.calls[u].trace in s.traces && s.calls[u].span in s.traces[s.calls[u].trace].requests
  {
  }

  lemma OneMoves(s: State, t: nat)
    requires CanStep(s, t)
    ensures var s' := Next(s, t).value; t in s'.calls && s'.calls == s.calls[t := s.calls[t].(pc := s'.calls[t].pc)]
  {
    hide Int32, Registry.Inv, TraceReg, RequestReg, RequestRole, TraceRole, WithRequest;
  }

  lemma FounderStays(s: State, t: nat)
    requires CanStep(s, t) && IsFounder(s.calls[t])
    ensures t in Next(s, t).value.calls && IsFounder(Next(s, t).value.calls[t])
  {
    hide Int32, Registry.Inv, TraceReg, RequestReg, RequestRole, TraceRole, WithRequest, NextOnTrace;
  }

  lemma FounderCalls(s: State, t: nat)
    requires CanStep(s, t)
    ensures var s' := Next(s, t).value;
            && s'.calls.Keys == s.calls.Keys
            && (forall u :: u in s.calls && u != t ==> s'.calls[u] == s.calls[u])
            && Same(s.calls[t], s'.calls[t]) && (IsFounder(s.calls[t]) ==> IsFounder(s'.calls[t]))
  {
    hide Next, Registry.Inv, TraceReg, RequestReg, RequestRole, TraceRole, IsFounder;
    OneMoves(s, t);
    if IsFounder(s.calls[t]) {
      FounderStays(s, t);
    }
  }

  lemma FounderRecords(s: State, t: nat)
    requires CanStep(s, t)
    ensures var s' := Next(s, t).value;
            var c, d := s.calls[t], s'.calls[t];
            && (IsFounder(d) && !IsFounder(c) ==> c.trace in s.traces && c.span !in s.traces[c.trace].requests)
            && (forall k, sp :: k in s'.traces && sp in s'.traces[k].requests ==>
                  || (k in s.traces && sp in s.traces[k].requests)
                  || (k == c.trace && sp == c.span && IsFounder(d)))
  {
    hide Registry.Inv, TraceReg, RequestReg;
  }

  /** A call becomes a founder exactly by storing a new record. */
  lemma FounderStep(s: State, t: nat)
    requires CanStep(s, t)
    ensures var s' := Next(s, t).value;
            var c, d := s.calls[t], s'.calls[t];
            && s'.calls.Keys == s.calls.Keys
            && (forall u :: u in s.calls && u != t ==> s'.calls[u] == s.calls[u])
            && Same(c, d) && (IsFounder(c) ==> IsFounder(d))
            && (IsFounder(d) && !IsFounder(c) ==> c.trace in s.traces && c.span !in s.traces[c.trace].requests)
            && (forall k, sp :: k in s'.traces && sp in s'.traces[k].requests ==>
                  || (k in s.traces && sp in s.traces[k].requests)
                  || (k == c.trace && sp == c.span && IsFounder(d)))
  {
    hide Registry.Inv, TraceReg, RequestReg, Next, IsFounder;
    FounderCalls(s, t);
    FounderRecords(s, t);
  }

  lemma StepKeeps(s: State, t: nat)
    requires CanStep(s, t) && Consistent(s)
    ensures Consistent(Next(s, t).value)
  {
    hide Registry.Inv, TraceReg, RequestReg, Values, Founders;
    var s' := Next(s, t).value;
    var c := s.calls[t];
    Moved(s, t);
    ValuesKept(s, t);
    FoundersKept(s, t);
    if TraceReg(s') != TraceReg(s) {
      StepInv(TraceReg(s), t, c.trace, TraceReg(s'));
    }
    forall k | k in s'.traces
      ensures Registry.Inv(RequestReg(s', k))
    {
      if k in s.traces {
        if RequestReg(s', k) != RequestReg(s, k) {
          StepInv(RequestReg(s, k), t, c.span, RequestReg(s', k));
        }
      } else {
        assert k == c.trace;
        NewTrace(s, t);
      }
    }
  }
}
