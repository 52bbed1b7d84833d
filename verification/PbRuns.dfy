/** Whole runs of the protobuf base logger. */
module PbRuns {
  import opened SpanTree
  import opened PbFlush

  datatype Op =
    | NewSpan(parent: nat)
    | Done(span: nat, t: int)
    | StartLine(span: nat, t: int)
    | FinishLine(line: Line)
    | Flush

  function Init(ops: seq<Op>): seq<Op>
    requires ops != []
  {
    ops[..|ops| - 1]
  }

  function Last(ops: seq<Op>): Op
    requires ops != []
  {
    ops[|ops| - 1]
  }

  function Size(ops: seq<Op>): nat {
    if ops == [] then 1 else Size(Init(ops)) + (if Last(ops).NewSpan? then 1 else 0)
  }

  /** Every call names a span that was created before. */
  predicate WellUsed(ops: seq<Op>) {
    ops == [] ||
    (WellUsed(Init(ops)) && match Last(ops)
      case NewSpan(p) => p < Size(Init(ops))
      case Done(i, _) => i < Size(Init(ops))
      case StartLine(i, _) => i < Size(Init(ops))
      case FinishLine(l) => l.span < Size(Init(ops))
      case Flush => true)
  }

  function TreeOf(ops: seq<Op>): (r: seq<Node>)
    requires WellUsed(ops)
    ensures NoDetached(r) && |r| == Size(ops)
  {
    if ops == [] then [Node(0, false)]
    else if Last(ops).NewSpan? then TreeOf(Init(ops)) + [Node(Last(ops).parent, false)]
    else TreeOf(Init(ops))
  }

  /** The latest time seen by each span, zero when none was positive. */
  function EndsOf(ops: seq<Op>): (r: seq<int>)
    requires WellUsed(ops)
    ensures |r| == Size(ops)
  {
    if ops == [] then [0]
    else
      var e := EndsOf(Init(ops));
      match Last(ops)
      case NewSpan(_) => e + [0]
      case Done(i, t) => e[i := Max(e[i], t)]
      case StartLine(i, t) => e[i := Max(e[i], t)]
      case _ => e
  }

  /** The spans done since the last flush. */
  function DirtyOf(ops: seq<Op>): set<nat> {
    if ops == [] then {}
    else match Last(ops)
      case Done(i, _) => DirtyOf(Init(ops)) + {i}
      case Flush => {}
      case _ => DirtyOf(Init(ops))
  }

  /** The same in the order of the calls. */
  function DonesOf(ops: seq<Op>): seq<nat> {
    if ops == [] then []
    else match Last(ops)
      case Done(i, _) => DonesOf(Init(ops)) + [i]
      case Flush => []
      case _ => DonesOf(Init(ops))
  }

  /** What a flush right now has to emit. */
  ghost function DueOf(ops: seq<Op>): set<nat>
    requires WellUsed(ops)
  {
    Up(TreeOf(ops), DirtyOf(ops))
  }

  /** How often each span was emitted. */
  ghost function VersionsOf(ops: seq<Op>): (r: seq<nat>)
    requires WellUsed(ops)
    ensures |r| == Size(ops)
  {
    if ops == [] then [0]
    else match Last(ops)
      case NewSpan(_) => VersionsOf(Init(ops)) + [0]
      case Flush => Bumped(VersionsOf(Init(ops)), DueOf(Init(ops)))
      case _ => VersionsOf(Init(ops))
  }

  /** All lines, in logging order. */
  function LinesOf(ops: seq<Op>): seq<Line> {
    if ops == [] then []
    else LinesOf(Init(ops)) + (if Last(ops).FinishLine? then [Last(ops).line] else [])
  }

  /** The lines since the last flush. */
  function FreshOf(ops: seq<Op>): seq<Line> {
    if ops == [] then []
    else match Last(ops)
      case FinishLine(l) => FreshOf(Init(ops)) + [l]
      case Flush => []
      case _ => FreshOf(Init(ops))
  }

  function PriorOf(ops: seq<Op>): nat {
    if ops == [] then 0
    else PriorOf(Init(ops)) + (if Last(ops).Flush? then |FreshOf(Init(ops))| else 0)
  }

  /** The batch that a flush after `ops` must hand over. */
  ghost predicate Due(ops: seq<Op>, b: Batch)
    requires WellUsed(ops)
  {
    && BatchOk(TreeOf(ops), DirtyOf(ops), VersionsOf(ops), EndsOf(ops), PriorOf(ops), FreshOf(ops), b)
    && InOrder(TreeOf(ops), DonesOf(ops), b.span)
  }

  /** One batch per flush, each what was due then. */
  ghost predicate Sent(ops: seq<Op>, sent: seq<Batch>)
    requires WellUsed(ops)
  {
    if ops == [] then sent == []
    else if Last(ops).Flush? then sent != [] && Sent(Init(ops), sent[..|sent| - 1]) && Due(Init(ops), sent[|sent| - 1])
    else Sent(Init(ops), sent)
  }

  lemma {:induction false} WellUsedPrefix(ops: seq<Op>, k: nat)
    requires WellUsed(ops) && k <= |ops|
    ensures WellUsed(ops[..k])
    ensures k < |ops| ==> Init(ops[..k + 1]) == ops[..k] && WellUsed(ops[..k + 1])
  {
    if k == |ops| {
      assert ops[..k] == ops;
    } else {
      assert Init(ops)[..k] == ops[..k];
      WellUsedPrefix(Init(ops), k);
      if k + 1 == |ops| {
        assert ops[..k + 1] == ops;
      } else {
        assert Init(ops)[..k + 1] == ops[..k + 1];
      }
    }
  }

  ghost predicate Tracks(r: Request, ops: seq<Op>)
    requires WellUsed(ops)
    reads r
  {
    && r.Valid() && r.tree == TreeOf(ops) && r.endTime == EndsOf(ops) && r.version == VersionsOf(ops)
    && r.dirty == DirtyOf(ops) && r.dones == DonesOf(ops) && r.lines == FreshOf(ops) && r.priorLines == PriorOf(ops) && Sent(ops, r.sent)
  }

  lemma Unfold(past: seq<Op>, op: Op)
    requires WellUsed(past) && WellUsed(past + [op])
    ensures TreeOf(past + [op]) == if op.NewSpan? then TreeOf(past) + [Node(op.parent, false)] else TreeOf(past)
    ensures op.NewSpan? ==> op.parent < Size(past) && EndsOf(past + [op]) == EndsOf(past) + [0] && VersionsOf(past + [op]) == VersionsOf(past) + [0]
    ensures op.Done? ==> op.span < Size(past) && EndsOf(past + [op]) == EndsOf(past)[op.span := Max(EndsOf(past)[op.span], op.t)]
    ensures op.StartLine? ==> op.span < Size(past) && EndsOf(past + [op]) == EndsOf(past)[op.span := Max(EndsOf(past)[op.span], op.t)]
    ensures op.FinishLine? ==> op.line.span < Size(past)
    ensures op.FinishLine? || op.Flush? ==> EndsOf(past + [op]) == EndsOf(past)
    ensures op.Flush? ==> VersionsOf(past + [op]) == Bumped(VersionsOf(past), DueOf(past))
    ensures !op.NewSpan? && !op.Flush? ==> VersionsOf(past + [op]) == VersionsOf(past)
    ensures DirtyOf(past + [op]) == if op.Flush? then {} else if op.Done? then DirtyOf(past) + {op.span} else DirtyOf(past)
    ensures DonesOf(past + [op]) == if op.Flush? then [] else if op.Done? then DonesOf(past) + [op.span] else DonesOf(past)
    ensures FreshOf(past + [op]) == if op.Flush? then [] else if op.FinishLine? then FreshOf(past) + [op.line] else FreshOf(past)
    ensures PriorOf(past + [op]) == PriorOf(past) + if op.Flush? then |FreshOf(past)| else 0
  {
    hide Up, Bumped;
    assert Init(past + [op]) == past;
  }

  lemma UnfoldSent(past: seq<Op>, op: Op, sent: seq<Batch>, more: seq<Batch>)
    requires WellUsed(past) && WellUsed(past + [op]) && Sent(past, sent)
    requires if op.Flush? then more != [] && more[..|more| - 1] == sent && Due(past, more[|more| - 1]) else more == sent
    ensures Sent(past + [op], more)
  {
    hide Due;
    assert Init(past + [op]) == past;
  }

  method Apply(r: Request, ghost past: seq<Op>, op: Op)
    requires WellUsed(past) && WellUsed(past + [op]) && Tracks(r, past)
    modifies r
    ensures Tracks(r, past + [op])
  {
    hide BatchOk, Up, Bumped, Pending, MarksOk, TreeOf, EndsOf, VersionsOf, DirtyOf, DonesOf, FreshOf, PriorOf, Sent, WellUsed, Size, InOrder, Lined;
    ghost var sent := r.sent;
    Unfold(past, op);
    match op {
      case NewSpan(p) => var _ := r.NewSpan(p);
      case Done(i, t) => r.Done(i, t);
      case StartLine(i, t) => r.StartLine(i, t);
      case FinishLine(l) => r.FinishLine(l);
      case Flush => r.Flush();
    }
    UnfoldSent(past, op, sent, r.sent);
  }

  /** Any well-used sequence of calls: every flush emits the request, the spans done since the previous
      flush and their ancestors, each once, under its own parent, with the number of its emissions and its
      latest time; lines travel with the next flush. */
  method Run(ops: seq<Op>) returns (sent: seq<Batch>)
    requires WellUsed(ops)
    ensures Sent(ops, sent)
  {
    var r := new Request();
    var k := 0;
    while k < |ops|
      invariant 0 <= k <= |ops| && fresh(r) && WellUsed(ops[..k]) && Tracks(r, ops[..k])
    {
      WellUsedPrefix(ops, k);
      assert ops[..k + 1] == ops[..k] + [ops[k]];
      Apply(r, ops[..k], ops[k]);
      k := k + 1;
    }
    assert ops[..k] == ops;
    sent := r.sent;
  }

  function AllLines(sent: seq<Batch>): seq<Line> {
    if sent == [] then [] else AllLines(sent[..|sent| - 1]) + sent[|sent| - 1].lines
  }

  /** The emitted batches and what still waits add up to all lines in logging order, and each batch
      counts the lines before it. */
  lemma {:induction false} LinesConserved(ops: seq<Op>, sent: seq<Batch>)
    requires WellUsed(ops) && Sent(ops, sent)
    ensures AllLines(sent) + FreshOf(ops) == LinesOf(ops) && PriorOf(ops) == |AllLines(sent)|
    ensures forall k :: 0 <= k < |sent| ==> sent[k].priorLines == |AllLines(sent[..k])|
  {
    if ops != [] {
      if Last(ops).Flush? {
        LinesConserved(Init(ops), sent[..|sent| - 1]);
        forall k | 0 <= k < |sent| ensures sent[k].priorLines == |AllLines(sent[..k])| {
          if k < |sent| - 1 {
            assert sent[..|sent| - 1][..k] == sent[..k];
            assert sent[k] == sent[..|sent| - 1][k];
          }
        }
      } else {
        LinesConserved(Init(ops), sent);
      }
    }
  }

  /** A span done since the last flush is due, and whatever is due is the request or above such a span. */
  lemma {:induction false} DirtyIsDue(ops: seq<Op>, x: nat)
    requires WellUsed(ops)
    ensures x in DirtyOf(ops) ==> x < Size(ops) && x in DueOf(ops)
    ensures x in DueOf(ops) && x != 0 ==> exists d :: d in DirtyOf(ops) && InSub(TreeOf(ops), x, d)
  {
    if x in DirtyOf(ops) {
      DirtyKnown(ops, x);
      assert InSub(TreeOf(ops), x, x);
    }
  }

  lemma {:induction false} DirtyKnown(ops: seq<Op>, x: nat)
    requires WellUsed(ops) && x in DirtyOf(ops)
    ensures x < Size(ops)
  {
    if !(Last(ops).Done? && x == Last(ops).span) {
      DirtyKnown(Init(ops), x);
    }
  }

  /** A call that gives a time for span `x`. */
  predicate Times(op: Op, x: nat) {
    (op.Done? || op.StartLine?) && op.span == x
  }

  /** The end time of a span is the latest of the times given for it, or zero if none was positive. */
  lemma {:induction false} LatestTime(ops: seq<Op>, x: nat)
    requires WellUsed(ops) && x < Size(ops)
    ensures EndsOf(ops)[x] >= 0
    ensures forall i :: 0 <= i < |ops| && Times(ops[i], x) ==> EndsOf(ops)[x] >= ops[i].t
    ensures EndsOf(ops)[x] == 0 || exists i :: 0 <= i < |ops| && Times(ops[i], x) && ops[i].t == EndsOf(ops)[x]
  {
    if ops != [] {
      var past, op := Init(ops), Last(ops);
      assert forall i :: 0 <= i < |past| ==> ops[i] == past[i];
      if x < Size(past) {
        LatestTime(past, x);
        if Times(op, x) && EndsOf(ops)[x] == op.t {
          assert Times(ops[|ops| - 1], x);
        } else if EndsOf(past)[x] != 0 {
          var i :| 0 <= i < |past| && Times(past[i], x) && past[i].t == EndsOf(past)[x];
          assert Times(ops[i], x);
        }
      } else {
        NotYetTimed(past, x);
      }
    }
  }

  lemma {:induction false} NotYetTimed(ops: seq<Op>, x: nat)
    requires WellUsed(ops) && x >= Size(ops)
    ensures forall i :: 0 <= i < |ops| ==> !Times(ops[i], x)
  {
    if ops != [] {
      NotYetTimed(Init(ops), x);
      assert forall i :: 0 <= i < |ops| - 1 ==> ops[i] == Init(ops)[i];
    }
  }

  /** The flushes that had to emit a span. */
  ghost function Emissions(ops: seq<Op>, x: nat): set<nat>
    requires WellUsed(ops)
  {
    set i: nat | i < |ops| && EmitsAt(ops, i, x)
  }

  ghost predicate EmitsAt(ops: seq<Op>, i: nat, x: nat)
    requires WellUsed(ops) && i < |ops|
  {
    WellUsedPrefix(ops, i);
    ops[i].Flush? && x in DueOf(ops[..i])
  }

  /** The version of a span is the number of its emissions. */
  lemma {:induction false} VersionCounts(ops: seq<Op>, x: nat)
    requires WellUsed(ops) && x < Size(ops)
    ensures VersionsOf(ops)[x] == |Emissions(ops, x)|
  {
    hide Up;
    if ops == [] {
      assert Emissions(ops, x) == {};
    } else {
      var past, n := Init(ops), |ops| - 1;
      forall i: nat | i < n
        ensures EmitsAt(ops, i, x) <==> EmitsAt(past, i, x)
      {
        assert past[..i] == ops[..i];
      }
      assert ops[..n] == past;
      assert Emissions(ops, x) == Emissions(past, x) + (if EmitsAt(ops, n, x) then {n} else {});
      if x < Size(past) {
        VersionCounts(past, x);
      } else {
        NotYetEmitted(past, x);
      }
    }
  }

  lemma NotYetEmitted(ops: seq<Op>, x: nat)
    requires WellUsed(ops) && x >= Size(ops)
    ensures Emissions(ops, x) == {}
  {
    forall i: nat | i < |ops|
      ensures !EmitsAt(ops, i, x)
    {
      WellUsedPrefix(ops, i);
      SizeGrows(ops, i);
    }
  }

  lemma {:induction false} SizeGrows(ops: seq<Op>, i: nat)
    requires i <= |ops|
    ensures Size(ops[..i]) <= Size(ops)
  {
    if i == |ops| {
      assert ops[..i] == ops;
    } else {
      SizeGrows(Init(ops), i);
      assert Init(ops)[..i] == ops[..i];
    }
  }
}
