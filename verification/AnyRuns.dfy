/** Runs in which loggers are used in any order and any number of times, also after they are done. */
module AnyRuns {
  import opened SpanTree
  import opened LifecycleSteps
  import opened LifecycleTold
  import opened Lifecycle
  import opened LifecycleRuns

  /** The span or line that one call of the program stands for. */
  function SaidBy(op: Op, size: nat): seq<BaseCall> {
    match op
    case Fork(p, detached) => [BaseSpan(size, p), BaseBoring(size, true)]
    case Log(l) => [BaseLine(l, Plain)]
    case LogError(l) => [BaseLine(l, Error)]
    case MarkBoring(l) => []
    case Done(l) => []
  }

  /** The spans and lines of the program, in the order of its calls. */
  function SpeechOf(ops: seq<AnyOp>, size: nat): seq<BaseCall> {
    if ops == [] then []
    else
      (if ops[0].Use? then SaidBy(ops[0].op, size) else [])
      + SpeechOf(ops[1..], if Forks(ops[0]) then size + 1 else size)
  }

  function MarkCalls(ops: seq<AnyOp>): nat {
    if ops == [] then 0 else (if ops[0].Use? && ops[0].op.MarkBoring? then 1 else 0) + MarkCalls(ops[1..])
  }

  predicate Exists(op: AnyOp, size: nat) {
    op.Use? ==> op.op.l < size
  }

  predicate Forks(op: AnyOp) {
    op.Use? && op.op.Fork?
  }

  predicate Marks(op: AnyOp, s: seq<Span>) {
    op.Use? && op.op.MarkBoring? && BoringOf(s, 0) == 0
  }

  predicate Finishes(op: AnyOp, l: nat) {
    op == Use(Done(l))
  }

  /** What one call on a request of any state tells. */
  ghost predicate Applied(s: seq<Span>, t: seq<Span>, a: seq<BaseCall>, b: seq<BaseCall>, op: AnyOp) {
    && Grew(a, b)
    && |t| == |s| + (if Forks(op) then 1 else 0)
    && (Books(s, a) ==> Books(t, b))
    && Speech(b) == Speech(a) + SpeechOf([op], |s|)
    && Count(b, BaseBoring(0, true)) == Count(a, BaseBoring(0, true)) + (if Marks(op, s) then 1 else 0)
    && (op.Flush? ==> Flushes(a) < Flushes(b))
    && (forall l: nat :: Finishes(op, l) ==> Finals(a, l) < Finals(b, l))
    && (forall l: nat :: Finishes(op, l) && DoneOf(s, l) > 0 ==> Count(a, BaseLine(l, DoneAgain)) < Count(b, BaseLine(l, DoneAgain)))
  }

  /** A call that tells fairly of what it does to the spans. */
  lemma AppliedFair(s: seq<Span>, t: seq<Span>, a: seq<BaseCall>, b: seq<BaseCall>, l: nat, op: AnyOp)
    requires Fair(s, t, a, b, l, 0, 0) && Grew(a, b) && !Forks(op) && !Marks(op, s) && Speech(b) == Speech(a) + SpeechOf([op], |s|)
    requires op.Flush? ==> Flushes(a) < Flushes(b)
    requires op == Use(Done(l)) || !(op.Use? && op.op.Done?)
    requires op == Use(Done(l)) ==> Finals(a, l) < Finals(b, l)
    requires op == Use(Done(l)) && DoneOf(s, l) > 0 ==> Count(a, BaseLine(l, DoneAgain)) < Count(b, BaseLine(l, DoneAgain))
    ensures Applied(s, t, a, b, op)
  {
    hide Fair, Count, Speech, SpeechOf, Books, Grew;
    FairSays(s, t, a, b, l, 0, 0);
    if Books(s, a) {
      BooksFair(s, t, a, b, l);
    }
  }

  lemma OneMark(a: seq<BaseCall>, skip: bool)
    ensures Count(a + Unless(skip, BaseBoring(0, true)), BaseBoring(0, true)) == Count(a, BaseBoring(0, true)) + (if skip then 0 else 1)
  {
    hide Count, Grew, OnlyLines;
    Told(a, BaseBoring(0, true));
    assert skip ==> a + Unless(skip, BaseBoring(0, true)) == a;
  }

  lemma AppliedMark(s: seq<Span>, t: seq<Span>, a: seq<BaseCall>, b: seq<BaseCall>, l: nat)
    requires l < |s| && Grew(a, b) && Speech(b) == Speech(a)
    requires Fair(s, t, a + Unless(s[0].boring != 0, BaseBoring(0, true)), b, l, 0, 0)
    ensures Applied(s, t, a, b, Use(MarkBoring(l)))
  {
    hide Fair, Count, Speech, SpeechOf, Books, Grew;
    var skip := s[0].boring != 0;
    FairSays(s, t, a + Unless(skip, BaseBoring(0, true)), b, l, 0, 0);
    SpeechOfOne(Use(MarkBoring(l)), |s|);
    OneMark(a, skip);
    MarkedBooks(s, t, a, b, l, skip);
  }

  lemma MarkedBooks(s: seq<Span>, t: seq<Span>, a: seq<BaseCall>, b: seq<BaseCall>, l: nat, skip: bool)
    requires |s| > 0 && Fair(s, t, a + Unless(skip, BaseBoring(0, true)), b, l, 0, 0)
    ensures Books(s, a) ==> Books(t, b)
  {
    hide Fair, Books;
    if Books(s, a) {
      BooksMark(s, a, skip);
      BooksFair(s, t, a + Unless(skip, BaseBoring(0, true)), b, l);
    }
  }

  lemma AppliedFork(s: seq<Span>, t: seq<Span>, a: seq<BaseCall>, b: seq<BaseCall>, p: nat, detached: bool)
    requires p < |s| && |t| == |s| + 1 && b == a + [BaseSpan(|s|, p), BaseBoring(|s|, true)] && Grew(a, b)
    requires t[|s|].doneCount == t[|s|].boring == 0 && SameCounts(s, t[..|s|])
    requires Speech(b) == Speech(a) + [BaseSpan(|s|, p), BaseBoring(|s|, true)]
    ensures Applied(s, t, a, b, Use(Fork(p, detached)))
  {
    hide Count, Speech, SpeechOf, Books, Grew, OnlyLines;
    var mid := a + [BaseSpan(|s|, p)];
    assert b == mid + [BaseBoring(|s|, true)];
    Told(a, BaseSpan(|s|, p));
    Told(mid, BaseBoring(|s|, true));
    SpeechOfOne(Use(Fork(p, detached)), |s|);
    if Books(s, a) {
      BooksFork(s, t, a, p);
    }
  }

  lemma SpeechOfOne(op: AnyOp, size: nat)
    ensures SpeechOf([op], size) == if op.Use? then SaidBy(op.op, size) else []
  {
  }

  method Apply(request: Request, op: AnyOp)
    requires request.Valid() && Exists(op, |request.tree|)
    modifies request
    ensures request.Valid() && |request.tree| == |old(request.tree)| + (if Forks(op) then 1 else 0)
    ensures Applied(old(request.spans), request.spans, old(request.calls), request.calls, op)
  {
    hide Applied, Fair, Speech, SpeechOf, Count, Books, Grew;
    ghost var s, a := request.spans, request.calls;
    SpeechOfOne(op, |s|);
    match op {
      case Flush =>
        request.Flush();
        assert Flushes(a) < Flushes(request.calls);
        AppliedFair(s, request.spans, a, request.calls, 0, op);
      case Use(Fork(p, detached)) =>
        var _ := request.NewChild(p, detached);
        AppliedFork(s, request.spans, a, request.calls, p, detached);
      case Use(Log(l)) =>
        request.Msg(l);
        AppliedFair(s, request.spans, a, request.calls, l, op);
      case Use(LogError(l)) =>
        request.ErrorMsg(l, Error);
        AppliedFair(s, request.spans, a, request.calls, l, op);
      case Use(MarkBoring(l)) =>
        request.Boring(l);
        AppliedMark(s, request.spans, a, request.calls, l);
      case Use(Done(l)) =>
        DoneOnce(request, l);
        AppliedFair(s, request.spans, a, request.calls, l, op);
    }
  }

  method DoneOnce(request: Request, l: nat)
    requires request.Valid() && l < |request.tree|
    modifies request
    ensures request.Valid() && request.tree == old(request.tree) && Grew(old(request.calls), request.calls)
    ensures Fair(old(request.spans), request.spans, old(request.calls), request.calls, l, 0, 0)
    ensures Speech(request.calls) == Speech(old(request.calls))
    ensures old(request.spans[l].doneCount) > 0 ==>
              Count(old(request.calls), BaseLine(l, DoneAgain)) < Count(request.calls, BaseLine(l, DoneAgain))
    ensures Finals(request.calls, l) > Finals(old(request.calls), l)
  {
    hide Fair, Speech, Count, Grew;
    ghost var tree, s := request.tree, request.spans;
    assert Reach(tree, s, l, l);
    request.Done(l);
  }

  /** Part way through a run: what is told so far, and what the rest of the calls will add at least. */
  ghost predicate Account(ops: seq<AnyOp>, rest: seq<AnyOp>, s: seq<Span>, calls: seq<BaseCall>) {
    && Exist(rest, |s|)
    && Books(s, calls)
    && Speech(calls) + SpeechOf(rest, |s|) == [BaseSpan(0, 0)] + SpeechOf(ops, 1)
    && Flushes(calls) + FlushCalls(rest) >= FlushCalls(ops)
    && MarksSoFar(ops, rest, s, calls)
    && forall l: nat :: DonesSoFar(ops, rest, calls, l)
  }

  ghost predicate MarksSoFar(ops: seq<AnyOp>, rest: seq<AnyOp>, s: seq<Span>, calls: seq<BaseCall>) {
    && Count(calls, BaseBoring(0, true)) + MarkCalls(rest) <= MarkCalls(ops)
    && (BoringOf(s, 0) == 0 ==> Count(calls, BaseBoring(0, true)) + MarkCalls(rest) == MarkCalls(ops))
  }

  ghost predicate DonesSoFar(ops: seq<AnyOp>, rest: seq<AnyOp>, calls: seq<BaseCall>, l: nat) {
    && Finals(calls, l) + DoneCalls(rest, l) >= DoneCalls(ops, l)
    && Count(calls, BaseLine(l, DoneAgain)) + Once(Finals(calls, l)) + DoneCalls(rest, l) >= DoneCalls(ops, l)
  }

  lemma AccountStep(ops: seq<AnyOp>, rest: seq<AnyOp>, s: seq<Span>, t: seq<Span>, a: seq<BaseCall>, b: seq<BaseCall>)
    requires rest != [] && Account(ops, rest, s, a) && Applied(s, t, a, b, rest[0])
    ensures Account(ops, rest[1..], t, b)
  {
    hide Books, Speech, SpeechOf, Count, DonesSoFar, MarksSoFar;
    forall l: nat
      ensures DonesSoFar(ops, rest[1..], b, l)
    {
      DonesStep(ops, rest, s, t, a, b, l);
    }
    SpeechStep(rest, |s|);
    Regroup(Speech(a), SpeechOf([rest[0]], |s|), SpeechOf(rest[1..], |t|));
    MarksStep(ops, rest, s, t, a, b);
  }

  lemma Regroup(a: seq<BaseCall>, b: seq<BaseCall>, c: seq<BaseCall>)
    ensures a + b + c == a + (b + c)
  {
  }

  lemma SpeechStep(rest: seq<AnyOp>, size: nat)
    requires rest != []
    ensures SpeechOf(rest, size) == SpeechOf([rest[0]], size) + SpeechOf(rest[1..], if Forks(rest[0]) then size + 1 else size)
  {
    SpeechOfOne(rest[0], size);
  }

  lemma DonesStep(ops: seq<AnyOp>, rest: seq<AnyOp>, s: seq<Span>, t: seq<Span>, a: seq<BaseCall>, b: seq<BaseCall>, l: nat)
    requires rest != [] && Account(ops, rest, s, a) && Applied(s, t, a, b, rest[0])
    ensures DonesSoFar(ops, rest[1..], b, l)
  {
    assert DonesSoFar(ops, rest, a, l) && BooksAt(s, a, l) && Finals(a, l) <= Finals(b, l);
    CountMono(a, b, BaseLine(l, DoneAgain));
    assert DoneCalls(rest, l) == (if Finishes(rest[0], l) then 1 else 0) + DoneCalls(rest[1..], l);
  }

  lemma MarksStep(ops: seq<AnyOp>, rest: seq<AnyOp>, s: seq<Span>, t: seq<Span>, a: seq<BaseCall>, b: seq<BaseCall>)
    requires rest != [] && Account(ops, rest, s, a) && Applied(s, t, a, b, rest[0])
    ensures MarksSoFar(ops, rest[1..], t, b)
  {
    if BoringOf(s, 0) > 0 {
      StaysNoticed(s, t, a, b);
    }
  }

  lemma StaysNoticed(s: seq<Span>, t: seq<Span>, a: seq<BaseCall>, b: seq<BaseCall>)
    requires Books(s, a) && Books(t, b) && a <= b && BoringOf(s, 0) > 0
    ensures BoringOf(t, 0) > 0
  {
    hide Count;
    var x: nat :| Errors(a, x) > 0;
    CountMono(a, b, BaseLine(x, Error));
    CountMono(a, b, BaseLine(x, UsedAgain));
    CountMono(a, b, BaseLine(x, DoneAgain));
    assert Errors(b, x) > 0;
  }

  lemma AccountStart(ops: seq<AnyOp>)
    requires Exist(ops, 1)
    ensures Account(ops, ops, [Span(true, 0, 0, {})], [BaseSpan(0, 0)])
  {
    hide Count, Books;
    StartCount();
    BooksStart();
    SpeechStart();
  }

  lemma AccountEnd(ops: seq<AnyOp>, s: seq<Span>, calls: seq<BaseCall>)
    requires Account(ops, [], s, calls)
    ensures forall l: nat :: Finals(calls, l) >= DoneCalls(ops, l)
    ensures Flushes(calls) >= FlushCalls(ops)
    ensures Speech(calls) == [BaseSpan(0, 0)] + SpeechOf(ops, 1)
    ensures Introduced(calls)
    ensures forall l: nat :: Complaints(calls, l) <= Over(Finals(calls, l)) && Count(calls, BaseLine(l, DoneAgain)) + 1 >= DoneCalls(ops, l)
    ensures forall l: nat :: Alarms(calls, l) == (if (if l == 0 then AnyError(calls) else Errors(calls, l) > 0) then 1 else 0)
    ensures Count(calls, BaseBoring(0, true)) <= MarkCalls(ops)
    ensures !AnyError(calls) ==> Count(calls, BaseBoring(0, true)) == MarkCalls(ops)
  {
    hide Count, Speech;
    assert Speech(calls) + [] == Speech(calls);
    forall l: nat
      ensures Finals(calls, l) >= DoneCalls(ops, l)
      ensures Complaints(calls, l) <= Over(Finals(calls, l)) && Count(calls, BaseLine(l, DoneAgain)) + 1 >= DoneCalls(ops, l)
      ensures Alarms(calls, l) == (if (if l == 0 then AnyError(calls) else Errors(calls, l) > 0) then 1 else 0)
    {
      assert DonesSoFar(ops, [], calls, l) && BooksAt(s, calls, l);
    }
  }

  /** Every run ends, whatever is used after it was done.  No Done or Flush is lost.  The spans and lines of the program
      are told in the order of its calls, and a logger is introduced before anything else about it.  The only other lines
      are complaints: of every Done after the first, and never more than there were final Dones after the first.  A logger
      below the request is told once that it is not boring if it had a line at the error level, the request if any
      logger had one, and boring marks of the request are lost only after that. */
  method RunAny(ops: seq<AnyOp>) returns (calls: seq<BaseCall>)
    requires Exist(ops, 1)
    ensures forall l: nat :: Finals(calls, l) >= DoneCalls(ops, l)
    ensures Flushes(calls) >= FlushCalls(ops)
    ensures Speech(calls) == [BaseSpan(0, 0)] + SpeechOf(ops, 1)
    ensures Introduced(calls)
    ensures forall l: nat :: Complaints(calls, l) <= Over(Finals(calls, l)) && Count(calls, BaseLine(l, DoneAgain)) + 1 >= DoneCalls(ops, l)
    ensures forall l: nat :: Alarms(calls, l) == (if (if l == 0 then AnyError(calls) else Errors(calls, l) > 0) then 1 else 0)
    ensures Count(calls, BaseBoring(0, true)) <= MarkCalls(ops)
    ensures !AnyError(calls) ==> Count(calls, BaseBoring(0, true)) == MarkCalls(ops)
  {
    hide Account, Applied;
    var request := new Request(0);
    var rest := ops;
    AccountStart(ops);
    while rest != []
      invariant fresh(request) && request.Valid()
      invariant Account(ops, rest, request.spans, request.calls)
      decreases |rest|
    {
      ghost var s, a := request.spans, request.calls;
      FirstExists(ops, rest, s, a);
      Apply(request, rest[0]);
      AccountStep(ops, rest, s, request.spans, a, request.calls);
      rest := rest[1..];
    }
    calls := request.calls;
    AccountEnd(ops, request.spans, calls);
  }

  lemma FirstExists(ops: seq<AnyOp>, rest: seq<AnyOp>, s: seq<Span>, calls: seq<BaseCall>)
    requires rest != [] && Account(ops, rest, s, calls)
    ensures Exists(rest[0], |s|)
  {
  }
}
