/** The protobuf base logger: queues of spans to flush, drained by generation (xoppb/pb.go). */
module PbFlush {
  import opened Options
  import opened SpanTree

  /** An emitted span; an end time of zero stands for an absent one. */
  datatype ProtoSpan = ProtoSpan(id: nat, version: nat, endTime: int, spans: seq<ProtoSpan>)

  datatype Line = Line(span: nat, ts: int, text: string)

  datatype Batch = Batch(span: ProtoSpan, priorLines: nat, lines: seq<Line>)

  /** What draining changes: versions, the generation of the last flush, and the queues. */
  datatype Marks = Marks(version: seq<nat>, lastFlush: seq<nat>, queues: seq<seq<nat>>)

  function Max(a: int, b: int): int { if a >= b then a else b }

  /** How often a span occurs in an emitted tree, or in a list of them. */
  function Count(p: ProtoSpan, x: nat): nat
    decreases p, 0
  {
    (if p.id == x then 1 else 0) + CountAll(p.spans, x)
  }

  function CountAll(ps: seq<ProtoSpan>, x: nat): nat
    decreases ps, 1
  {
    if ps == [] then 0 else CountAll(ps[..|ps| - 1], x) + Count(ps[|ps| - 1], x)
  }

  lemma {:induction false} CountMember(ps: seq<ProtoSpan>, j: nat, x: nat)
    requires j < |ps|
    ensures Count(ps[j], x) <= CountAll(ps, x)
  {
    if j < |ps| - 1 {
      CountMember(ps[..|ps| - 1], j, x);
    }
  }

  /** Every emitted span sits directly under its own parent. */
  predicate Nested(tree: seq<Node>, p: ProtoSpan)
    decreases p, 0
  {
    p.id < |tree| && forall i :: 0 <= i < |p.spans| ==> Under(tree, p.id, p.spans[i])
  }

  predicate Under(tree: seq<Node>, parent: nat, p: ProtoSpan)
    decreases p, 1
  {
    p.id < |tree| && p.id != 0 && tree[p.id].parent == parent && Nested(tree, p)
  }

  /** Every emitted span carries the version and the end time that the given lists hold for it. */
  predicate Carries(p: ProtoSpan, versions: seq<nat>, endTimes: seq<int>)
  {
    && p.id < |versions| == |endTimes| && p.version == versions[p.id] && p.endTime == endTimes[p.id]
    && forall i :: 0 <= i < |p.spans| ==> Carries(p.spans[i], versions, endTimes)
  }

  /** What an emitted span carries only depends on the spans that occur in it. */
  lemma {:induction false} CarriesKept(p: ProtoSpan, v: seq<nat>, w: seq<nat>, endTimes: seq<int>)
    requires Carries(p, v, endTimes) && |v| == |w|
    requires forall x: nat :: x < |v| && Count(p, x) > 0 ==> v[x] == w[x]
    ensures Carries(p, w, endTimes)
    decreases p
  {
    assert Count(p, p.id) > 0;
    forall i | 0 <= i < |p.spans| ensures Carries(p.spans[i], w, endTimes) {
      forall x: nat | x < |v| && Count(p.spans[i], x) > 0 ensures v[x] == w[x] {
        CountMember(p.spans, i, x);
      }
      CarriesKept(p.spans[i], v, w, endTimes);
    }
  }

  /** The queues as registrations, so that reachability through queues is reachability in the span tree. */
  function Queued(queues: seq<seq<nat>>): seq<Span> {
    seq(|queues|, x requires 0 <= x < |queues| => Span(false, 0, 0, set c | c in queues[x]))
  }

  ghost predicate NoDetached(tree: seq<Node>) {
    TreeOk(tree) && forall i :: 0 <= i < |tree| ==> !tree[i].detached
  }

  ghost predicate QueuesOk(tree: seq<Node>, queues: seq<seq<nat>>) {
    && NoDetached(tree)
    && |queues| == |tree|
    && forall i: nat, c: nat {:trigger c in queues[i]} :: i < |queues| && c in queues[i] ==> i < c < |tree| && tree[c].parent == i
  }

  lemma QueuedOk(tree: seq<Node>, queues: seq<seq<nat>>)
    requires QueuesOk(tree, queues)
    ensures DepsOk(tree, Queued(queues))
  {
  }

  /** `x` hangs below `l` through queues. */
  ghost predicate Hangs(tree: seq<Node>, queues: seq<seq<nat>>, l: nat, x: nat)
    requires QueuesOk(tree, queues)
  {
    QueuedOk(tree, queues);
    Reach(tree, Queued(queues), l, x)
  }

  ghost function Below(tree: seq<Node>, queues: seq<seq<nat>>, l: nat): set<nat>
    requires QueuesOk(tree, queues)
  {
    set x: nat | x < |tree| && Hangs(tree, queues, l, x)
  }

  /** The part of it that is `l` itself or hangs below one of `first`. */
  ghost function BelowFirst(tree: seq<Node>, queues: seq<seq<nat>>, l: nat, first: seq<nat>): set<nat>
    requires QueuesOk(tree, queues)
  {
    set x: nat | x < |tree| && Hangs(tree, queues, l, x) && (x == l || (InSub(tree, l, x) && Branch(tree, l, x) in first))
  }

  ghost predicate MarksOk(tree: seq<Node>, m: Marks) {
    QueuesOk(tree, m.queues) && |m.version| == |m.lastFlush| == |tree|
  }

  /** The spans in `s` were drained in generation `gen`, all others are as before. */
  ghost predicate Drained(a: Marks, b: Marks, s: set<nat>, gen: nat) {
    && |b.version| == |a.version| && |b.lastFlush| == |a.lastFlush| && |b.queues| == |a.queues|
    && (forall x: nat :: x < |b.version| && x < |a.version| ==> b.version[x] == if x in s then a.version[x] + 1 else a.version[x])
    && (forall x: nat :: x < |b.lastFlush| && x < |a.lastFlush| ==> b.lastFlush[x] == if x in s then gen else a.lastFlush[x])
    && (forall x: nat :: x < |b.queues| && x < |a.queues| ==> b.queues[x] == if x in s then [] else a.queues[x])
  }

  lemma Compose(a: Marks, b: Marks, c: Marks, s: set<nat>, t: set<nat>, gen: nat)
    requires Drained(a, b, s, gen) && Drained(b, c, t, gen) && s !! t
    ensures Drained(a, c, s + t, gen)
  {
  }

  lemma DrainSelf(tree: seq<Node>, a: Marks, b: Marks, i: nat, gen: nat)
    requires MarksOk(tree, a) && i < |tree|
    requires b == Marks(a.version[i := a.version[i] + 1], a.lastFlush[i := gen], a.queues[i := []])
    ensures Drained(a, b, BelowFirst(tree, a.queues, i, []), gen) && MarksOk(tree, b)
  {
    QueuedOk(tree, a.queues);
    assert BelowFirst(tree, a.queues, i, []) == {i};
  }

  /** A span queued a second time was drained through its first entry. */
  lemma Repeated(tree: seq<Node>, a: Marks, b: Marks, i: nat, first: seq<nat>, d: nat, gen: nat)
    requires MarksOk(tree, a) && i < |tree| && d in first && d in a.queues[i]
    requires Drained(a, b, BelowFirst(tree, a.queues, i, first), gen)
    ensures d < |tree| && b.lastFlush[d] == gen
    ensures BelowFirst(tree, a.queues, i, first + [d]) == BelowFirst(tree, a.queues, i, first)
  {
    QueuedOk(tree, a.queues);
    assert i < d < |tree| && tree[d].parent == i && !tree[d].detached && InSub(tree, i, i);
    assert InSub(tree, i, d) && Branch(tree, i, d) == d;
    assert Hangs(tree, a.queues, i, d) by {
      assert d in Queued(a.queues)[i].deps;
    }
    assert forall x :: x in first + [d] <==> x in first;
  }

  lemma ChildBelow(tree: seq<Node>, queues: seq<seq<nat>>, i: nat, d: nat, x: nat)
    requires QueuesOk(tree, queues) && i < |tree| && d in queues[i]
    ensures i < d < |tree|
    ensures InSub(tree, d, x) <==> InSub(tree, i, x) && x != i && Branch(tree, i, x) == d
    ensures Hangs(tree, queues, d, x) <==> Hangs(tree, queues, i, x) && x != i && InSub(tree, i, x) && Branch(tree, i, x) == d
    ensures Hangs(tree, queues, d, x) ==> x < |tree|
  {
    QueuedOk(tree, queues);
    var s := Queued(queues);
    SubOfChild(tree, i, d, x);
    if Hangs(tree, queues, d, x) {
      ReachInSub(tree, s, d, x);
    }
    if x < |tree| && x != i && InSub(tree, i, x) {
      BranchProps(tree, s, i, x);
      assert d in s[i].deps;
    }
  }

  /** The subtree of a span met for the first time is still as it was. */
  lemma FirstMet(tree: seq<Node>, a: Marks, b: Marks, i: nat, first: seq<nat>, d: nat, gen: nat)
    requires MarksOk(tree, a) && MarksOk(tree, b) && i < |tree| && d !in first && d in a.queues[i]
    requires Drained(a, b, BelowFirst(tree, a.queues, i, first), gen)
    ensures i < d < |tree|
    ensures var s := Below(tree, a.queues, d);
            && Below(tree, b.queues, d) == s
            && s !! BelowFirst(tree, a.queues, i, first)
            && BelowFirst(tree, a.queues, i, first + [d]) == BelowFirst(tree, a.queues, i, first) + s
            && d in s && i !in s && s <= Below(tree, a.queues, i)
            && forall x: nat :: x in s ==> b.lastFlush[x] == a.lastFlush[x]
  {
    var s := Below(tree, a.queues, d);
    forall x: nat
      ensures InSub(tree, d, x) <==> InSub(tree, i, x) && x != i && Branch(tree, i, x) == d
      ensures x in s <==> Hangs(tree, a.queues, i, x) && x != i && InSub(tree, i, x) && Branch(tree, i, x) == d
      ensures x in s ==> Hangs(tree, a.queues, i, x)
    {
      ChildBelow(tree, a.queues, i, d, x);
    }
    forall x: nat | InSub(tree, d, x) ensures x !in BelowFirst(tree, a.queues, i, first) {
    }
    QueuedOk(tree, a.queues);
    QueuedOk(tree, b.queues);
    forall x: nat ensures Hangs(tree, a.queues, d, x) <==> Hangs(tree, b.queues, d, x) {
      ReachLocal(tree, Queued(a.queues), Queued(b.queues), d, x);
    }
    forall x: nat | x in s ensures InSub(tree, d, x) {
      ReachInSub(tree, Queued(a.queues), d, x);
    }
    forall x: nat | x < |tree| && Hangs(tree, a.queues, i, x) && x != i ensures InSub(tree, i, x) {
      ReachInSub(tree, Queued(a.queues), i, x);
    }
    assert Hangs(tree, a.queues, d, d);
  }

  lemma AllFirst(tree: seq<Node>, queues: seq<seq<nat>>, i: nat)
    requires QueuesOk(tree, queues) && i < |tree|
    ensures BelowFirst(tree, queues, i, queues[i]) == Below(tree, queues, i)
  {
    QueuedOk(tree, queues);
    var s := Queued(queues);
    forall x: nat | x < |tree| && Hangs(tree, queues, i, x) && x != i
      ensures InSub(tree, i, x) && Branch(tree, i, x) in queues[i]
    {
      ReachInSub(tree, s, i, x);
      BranchProps(tree, s, i, x);
    }
  }

  /** The children emitted so far: each drained span once, nested, with its current values. */
  ghost predicate Emitted(tree: seq<Node>, i: nat, spans: seq<ProtoSpan>, s: set<nat>, version: seq<nat>, endTime: seq<int>) {
    && (forall j :: 0 <= j < |spans| ==> Under(tree, i, spans[j]))
    && (forall j :: 0 <= j < |spans| ==> Carries(spans[j], version, endTime))
    && (forall x: nat :: CountAll(spans, x) == if x in s && x != i then 1 else 0)
  }

  lemma EmitOne(tree: seq<Node>, i: nat, spans: seq<ProtoSpan>, p: ProtoSpan, s: set<nat>, t: set<nat>, a: Marks, b: Marks, endTime: seq<int>, gen: nat)
    requires Emitted(tree, i, spans, s, a.version, endTime)
    requires Under(tree, i, p) && Carries(p, b.version, endTime)
    requires forall x: nat :: Count(p, x) == if x in t then 1 else 0
    requires s !! t && i !in t && Drained(a, b, t, gen) && i in s
    requires |a.version| == |endTime|
    ensures Emitted(tree, i, spans + [p], s + t, b.version, endTime)
  {
    hide Count;
    forall j | 0 <= j < |spans| ensures Carries(spans[j], b.version, endTime) {
      forall x: nat | x < |a.version| && Count(spans[j], x) > 0 ensures a.version[x] == b.version[x] {
        CountMember(spans, j, x);
      }
      CarriesKept(spans[j], a.version, b.version, endTime);
    }
    assert forall x: nat :: CountAll(spans + [p], x) == if x in s + t && x != i then 1 else 0;
  }

  lemma SelfFirst(tree: seq<Node>, a: Marks, i: nat, first: seq<nat>)
    requires MarksOk(tree, a) && i < |tree|
    ensures i in BelowFirst(tree, a.queues, i, first)
  {
    QueuedOk(tree, a.queues);
    assert Hangs(tree, a.queues, i, i);
  }

  lemma EmitNone(tree: seq<Node>, a: Marks, b: Marks, i: nat, endTime: seq<int>)
    requires MarksOk(tree, a) && i < |tree|
    ensures Emitted(tree, i, [], BelowFirst(tree, a.queues, i, []), b.version, endTime)
  {
  }

  /** Either the next queue entry was met before, or its subtree has not been visited. */
  lemma QueueStep(tree: seq<Node>, a: Marks, b: Marks, i: nat, first: seq<nat>, d: nat, gen: nat)
    requires MarksOk(tree, a) && MarksOk(tree, b) && i < |tree| && d in a.queues[i]
    requires Drained(a, b, BelowFirst(tree, a.queues, i, first), gen)
    requires forall x: nat :: x in Below(tree, a.queues, i) ==> a.lastFlush[x] != gen
    ensures i < d < |tree|
    ensures d in first ==> b.lastFlush[d] == gen && BelowFirst(tree, a.queues, i, first + [d]) == BelowFirst(tree, a.queues, i, first)
    ensures d !in first ==> b.lastFlush[d] != gen && Below(tree, b.queues, d) == Below(tree, a.queues, d)
    ensures d !in first ==> forall x: nat :: x in Below(tree, b.queues, d) ==> b.lastFlush[x] != gen
  {
    hide Drained, Below, BelowFirst, Hangs;
    if d in first {
      Repeated(tree, a, b, i, first, d, gen);
    } else {
      FirstMet(tree, a, b, i, first, d, gen);
    }
  }

  lemma Wrap(tree: seq<Node>, i: nat, p: ProtoSpan, s: set<nat>, version: seq<nat>, endTime: seq<int>)
    requires i < |tree| == |version| == |endTime| && p.id == i && p.version == version[i] && p.endTime == endTime[i]
    requires Emitted(tree, i, p.spans, s, version, endTime) && i in s
    ensures Nested(tree, p) && Carries(p, version, endTime)
    ensures forall x: nat :: Count(p, x) == if x in s then 1 else 0
  {
  }

  // ---- What is due at the next flush -------------------------------------------

  /** `c` is one of the spans in `dirty` or an ancestor of one. */
  ghost predicate Covers(tree: seq<Node>, dirty: set<nat>, c: nat)
    requires TreeOk(tree)
  {
    exists d :: d in dirty && InSub(tree, c, d)
  }

  /** The request, the spans in `dirty` and their ancestors. */
  ghost function Up(tree: seq<Node>, dirty: set<nat>): set<nat>
    requires TreeOk(tree)
  {
    set x: nat | x < |tree| && (x == 0 || Covers(tree, dirty, x))
  }

  /** A span is queued with its parent exactly when it, or one of its descendants, was done. */
  ghost predicate Pending(tree: seq<Node>, queues: seq<seq<nat>>, dirty: set<nat>)
    requires QueuesOk(tree, queues)
  {
    forall c: nat :: 0 < c < |tree| ==> (c in queues[tree[c].parent] <==> Covers(tree, dirty, c))
  }

  lemma CoversParent(tree: seq<Node>, dirty: set<nat>, c: nat)
    requires NoDetached(tree) && 0 < c < |tree| && Covers(tree, dirty, c)
    ensures Covers(tree, dirty, tree[c].parent)
  {
    var d :| d in dirty && InSub(tree, c, d);
    assert InSub(tree, tree[c].parent, c);
    SubTrans(tree, tree[c].parent, c, d);
  }

  lemma {:induction false} HangsIsUp(tree: seq<Node>, queues: seq<seq<nat>>, dirty: set<nat>, x: nat)
    requires QueuesOk(tree, queues) && Pending(tree, queues, dirty) && x < |tree|
    ensures Hangs(tree, queues, 0, x) <==> x in Up(tree, dirty)
  {
    if x != 0 {
      var p := tree[x].parent;
      HangsIsUp(tree, queues, dirty, p);
      QueuedOk(tree, queues);
      assert x in Queued(queues)[p].deps <==> x in queues[p];
      if Covers(tree, dirty, x) {
        CoversParent(tree, dirty, x);
      }
    }
  }

  /** Draining from the request reaches exactly what is due. */
  lemma BelowRoot(tree: seq<Node>, queues: seq<seq<nat>>, dirty: set<nat>)
    requires QueuesOk(tree, queues) && Pending(tree, queues, dirty)
    ensures Below(tree, queues, 0) == Up(tree, dirty)
  {
    forall x: nat | x < |tree| ensures Hangs(tree, queues, 0, x) <==> x in Up(tree, dirty) {
      HangsIsUp(tree, queues, dirty, x);
    }
  }

  /** ... and empties every queue. */
  lemma DrainedEmpty(tree: seq<Node>, a: Marks, b: Marks, dirty: set<nat>, gen: nat)
    requires MarksOk(tree, a) && Pending(tree, a.queues, dirty)
    requires Drained(a, b, Up(tree, dirty), gen)
    ensures MarksOk(tree, b) && Pending(tree, b.queues, {}) && forall p: nat :: p < |tree| ==> b.queues[p] == []
  {
    forall p: nat | p < |tree| ensures b.queues[p] == [] {
      if p !in Up(tree, dirty) && a.queues[p] != [] {
        var c := a.queues[p][0];
        assert c in a.queues[p];
        CoversParent(tree, dirty, c);
      }
    }
  }

  /** The queues after a span and its ancestors queued themselves with their parents. */
  ghost predicate Announced(tree: seq<Node>, q: seq<seq<nat>>, r: seq<seq<nat>>, i: nat)
    requires QueuesOk(tree, q)
  {
    |r| == |q| && forall p: nat :: p < |r| && p < |q| ==>
      r[p] == if p != i && InSub(tree, p, i) then q[p] + [Branch(tree, p, i)] else q[p]
  }

  lemma AnnouncedPending(tree: seq<Node>, q: seq<seq<nat>>, r: seq<seq<nat>>, dirty: set<nat>, i: nat)
    requires QueuesOk(tree, q) && i < |tree| && Announced(tree, q, r, i) && Pending(tree, q, dirty)
    ensures QueuesOk(tree, r) && Pending(tree, r, dirty + {i})
  {
    QueuedOk(tree, q);
    forall p: nat | p < |tree| && p != i && InSub(tree, p, i)
      ensures p < Branch(tree, p, i) < |tree| && tree[Branch(tree, p, i)].parent == p
    {
      BranchProps(tree, Queued(q), p, i);
    }
    forall c: nat | 0 < c < |tree| ensures c in r[tree[c].parent] <==> Covers(tree, dirty + {i}, c) {
      var p := tree[c].parent;
      assert Covers(tree, dirty + {i}, c) <==> Covers(tree, dirty, c) || InSub(tree, c, i) by {
        if InSub(tree, c, i) { assert i in dirty + {i}; }
      }
      SubOfChild(tree, p, c, i);
      if p != i && InSub(tree, p, i) {
        assert r[p] == q[p] + [Branch(tree, p, i)];
      }
    }
  }

  /** A new span changes nothing that is due. */
  lemma NewSpanPending(tree: seq<Node>, q: seq<seq<nat>>, dirty: set<nat>, p: nat)
    requires QueuesOk(tree, q) && Pending(tree, q, dirty) && p < |tree| && forall d :: d in dirty ==> d < |tree|
    ensures QueuesOk(tree + [Node(p, false)], q + [[]]) && Pending(tree + [Node(p, false)], q + [[]], dirty)
  {
    var t := tree + [Node(p, false)];
    forall c: nat, d: nat | d < |tree| ensures InSub(tree, c, d) == InSub(t, c, d) {
      SameSub(tree, Node(p, false), c, d);
    }
    forall c: nat | c < |tree| ensures Covers(t, dirty, c) <==> Covers(tree, dirty, c) {
    }
    assert !Covers(t, dirty, |tree|);
  }

  lemma {:induction false} SameSub(tree: seq<Node>, n: Node, c: nat, d: nat)
    requires TreeOk(tree) && TreeOk(tree + [n]) && d < |tree|
    ensures InSub(tree, c, d) == InSub(tree + [n], c, d)
  {
    if c < d && !tree[d].detached {
      SameSub(tree, n, c, tree[d].parent);
    }
  }

  // ---- The order of siblings -----------------------------------------------------

  /** The members of a list in the order in which they first occur. */
  function Distinct(q: seq<nat>): (r: seq<nat>)
    ensures forall c :: c in r <==> c in q
  {
    if q == [] then []
    else
      var r, last := Distinct(q[..|q| - 1]), q[|q| - 1];
      assert q == q[..|q| - 1] + [last];
      if last in r then r else r + [last]
  }

  lemma DistinctSnoc(q: seq<nat>, c: nat)
    ensures Distinct(q + [c]) == if c in q then Distinct(q) else Distinct(q) + [c]
  {
    assert (q + [c])[..|q|] == q;
  }

  function Ids(ps: seq<ProtoSpan>): seq<nat> {
    seq(|ps|, i requires 0 <= i < |ps| => ps[i].id)
  }

  /** The children of each emitted span come in the order of its queue. */
  predicate Ranked(p: ProtoSpan, queues: seq<seq<nat>>) {
    && p.id < |queues| && Ids(p.spans) == Distinct(queues[p.id])
    && forall i :: 0 <= i < |p.spans| ==> Ranked(p.spans[i], queues)
  }

  lemma {:induction false} RankedKept(p: ProtoSpan, q: seq<seq<nat>>, r: seq<seq<nat>>)
    requires Ranked(p, q) && |q| == |r| && forall x: nat :: x < |q| && Count(p, x) > 0 ==> q[x] == r[x]
    ensures Ranked(p, r)
    decreases p
  {
    assert Count(p, p.id) > 0;
    forall i | 0 <= i < |p.spans| ensures Ranked(p.spans[i], r) {
      forall x: nat | x < |q| && Count(p.spans[i], x) > 0 ensures q[x] == r[x] {
        CountMember(p.spans, i, x);
      }
      RankedKept(p.spans[i], q, r);
    }
  }

  /** The children emitted so far come in the order of the queue. */
  ghost predicate RankedSo(spans: seq<ProtoSpan>, first: seq<nat>, queues: seq<seq<nat>>) {
    Ids(spans) == Distinct(first) && forall j :: 0 <= j < |spans| ==> Ranked(spans[j], queues)
  }

  lemma RankOne(tree: seq<Node>, spans: seq<ProtoSpan>, a: Marks, b: Marks, i: nat, first: seq<nat>, d: nat, q: Option<ProtoSpan>, gen: nat)
    requires MarksOk(tree, a) && MarksOk(tree, b) && i < |tree| && d in a.queues[i] && RankedSo(spans, first, a.queues)
    requires Drained(a, b, BelowFirst(tree, a.queues, i, first), gen)
    requires q.None? ==> d in first
    requires q.Some? ==> d !in first && q.value.id == d && Ranked(q.value, b.queues)
    requires q.Some? ==> forall x: nat :: Count(q.value, x) == if x in Below(tree, b.queues, d) then 1 else 0
    ensures RankedSo(if q.Some? then spans + [q.value] else spans, first + [d], a.queues)
  {
    hide Distinct, Below, BelowFirst, Count;
    DistinctSnoc(first, d);
    if q.Some? {
      FirstMet(tree, a, b, i, first, d, gen);
      RankedKept(q.value, b.queues, a.queues);
      assert Ids(spans + [q.value]) == Ids(spans) + [d];
    }
  }

  lemma RankNone(queues: seq<seq<nat>>)
    ensures RankedSo([], [], queues)
  {
  }

  lemma RankAll(p: ProtoSpan, queues: seq<seq<nat>>)
    requires p.id < |queues| && RankedSo(p.spans, queues[p.id], queues)
    ensures Ranked(p, queues)
  {
  }

  /** The queue of `p` after the given Done calls: each leaves the child of `p` that it came through. */
  function Through(tree: seq<Node>, p: nat, dones: seq<nat>): seq<nat>
    requires TreeOk(tree)
  {
    if dones == [] then []
    else
      var d := dones[|dones| - 1];
      Through(tree, p, dones[..|dones| - 1]) + (if d != p && InSub(tree, p, d) then [Branch(tree, p, d)] else [])
  }

  ghost predicate Lined(tree: seq<Node>, queues: seq<seq<nat>>, dones: seq<nat>)
    requires TreeOk(tree)
  {
    && (forall d :: d in dones ==> d < |tree|)
    && forall p: nat :: p < |queues| ==> queues[p] == Through(tree, p, dones)
  }

  lemma LinedDone(tree: seq<Node>, q: seq<seq<nat>>, r: seq<seq<nat>>, dones: seq<nat>, i: nat)
    requires QueuesOk(tree, q) && Lined(tree, q, dones) && Announced(tree, q, r, i) && i < |tree|
    ensures Lined(tree, r, dones + [i])
  {
    assert (dones + [i])[..|dones|] == dones;
    forall p: nat | p < |r| ensures r[p] == Through(tree, p, dones + [i]) {
      assert q[p] + [] == q[p];
    }
  }

  lemma {:induction false} SameThrough(tree: seq<Node>, n: Node, p: nat, dones: seq<nat>)
    requires NoDetached(tree) && NoDetached(tree + [n]) && p <= |tree| && forall d :: d in dones ==> d < |tree|
    ensures Through(tree + [n], p, dones) == if p < |tree| then Through(tree, p, dones) else []
  {
    if dones != [] {
      var past, d := dones[..|dones| - 1], dones[|dones| - 1];
      assert d in dones && forall e :: e in past ==> e in dones;
      SameThrough(tree, n, p, past);
      SameSub(tree, n, p, d);
      if d != p && InSub(tree, p, d) {
        SameBranch(tree, n, p, d);
      }
    }
  }

  lemma {:induction false} SameBranch(tree: seq<Node>, n: Node, p: nat, d: nat)
    requires TreeOk(tree) && TreeOk(tree + [n]) && d < |tree| && d != p && InSub(tree, p, d)
    ensures InSub(tree + [n], p, d) && Branch(tree + [n], p, d) == Branch(tree, p, d)
  {
    SameSub(tree, n, p, d);
    if tree[d].parent != p {
      SameBranch(tree, n, p, tree[d].parent);
    }
  }

  lemma LinedNew(tree: seq<Node>, q: seq<seq<nat>>, dones: seq<nat>, p: nat)
    requires QueuesOk(tree, q) && QueuesOk(tree + [Node(p, false)], q + [[]]) && Lined(tree, q, dones)
    ensures Lined(tree + [Node(p, false)], q + [[]], dones)
  {
    forall x: nat | x <= |tree| ensures (q + [[]])[x] == Through(tree + [Node(p, false)], x, dones) {
      SameThrough(tree, Node(p, false), x, dones);
    }
  }

  lemma LinedNone(tree: seq<Node>, queues: seq<seq<nat>>)
    requires TreeOk(tree) && forall p: nat :: p < |queues| ==> queues[p] == []
    ensures Lined(tree, queues, [])
  {
  }

  /** The position of the first Done of `c` or of a span below it; the length of the list if there is none. */
  function FirstDone(tree: seq<Node>, c: nat, dones: seq<nat>): (r: nat)
    requires TreeOk(tree)
    ensures r <= |dones|
  {
    if dones == [] then 0
    else
      var r := FirstDone(tree, c, dones[..|dones| - 1]);
      if r < |dones| - 1 || InSub(tree, c, dones[|dones| - 1]) then r else |dones|
  }

  lemma {:induction false} FirstDoneIs(tree: seq<Node>, c: nat, dones: seq<nat>)
    requires TreeOk(tree)
    ensures var r := FirstDone(tree, c, dones);
            (r < |dones| ==> InSub(tree, c, dones[r])) && forall i :: 0 <= i < r ==> !InSub(tree, c, dones[i])
  {
    if dones != [] {
      FirstDoneIs(tree, c, dones[..|dones| - 1]);
    }
  }

  /** Siblings come in the order in which they, or spans below them, were first done. */
  predicate InOrder(tree: seq<Node>, dones: seq<nat>, p: ProtoSpan)
    requires TreeOk(tree)
  {
    && (forall j, k :: 0 <= j < k < |p.spans| ==> FirstDone(tree, p.spans[j].id, dones) < FirstDone(tree, p.spans[k].id, dones))
    && forall i :: 0 <= i < |p.spans| ==> InOrder(tree, dones, p.spans[i])
  }

  ghost predicate Rising(tree: seq<Node>, dones: seq<nat>, cs: seq<nat>)
    requires TreeOk(tree)
  {
    forall j, k :: 0 <= j < k < |cs| ==> FirstDone(tree, cs[j], dones) < FirstDone(tree, cs[k], dones)
  }

  lemma FirstDoneSnoc(tree: seq<Node>, c: nat, past: seq<nat>, d: nat)
    requires TreeOk(tree)
    ensures FirstDone(tree, c, past + [d]) ==
            if FirstDone(tree, c, past) < |past| then FirstDone(tree, c, past) else if InSub(tree, c, d) then |past| else |past| + 1
  {
    assert (past + [d])[..|past|] == past;
  }

  /** Every one of `cs` was done, or has something done below it. */
  ghost predicate AllDone(tree: seq<Node>, dones: seq<nat>, cs: seq<nat>)
    requires TreeOk(tree)
  {
    forall j :: 0 <= j < |cs| ==> FirstDone(tree, cs[j], dones) < |dones|
  }

  lemma SameFirst(tree: seq<Node>, past: seq<nat>, d: nat, cs: seq<nat>)
    requires TreeOk(tree) && AllDone(tree, past, cs)
    ensures forall j :: 0 <= j < |cs| ==> FirstDone(tree, cs[j], past + [d]) == FirstDone(tree, cs[j], past) < |past|
  {
    hide FirstDone, InSub;
    forall j | 0 <= j < |cs|
      ensures FirstDone(tree, cs[j], past + [d]) == FirstDone(tree, cs[j], past) < |past|
    {
      FirstDoneSnoc(tree, cs[j], past, d);
    }
  }

  lemma RiseSame(tree: seq<Node>, past: seq<nat>, d: nat, cs: seq<nat>)
    requires TreeOk(tree) && Rising(tree, past, cs) && AllDone(tree, past, cs)
    ensures Rising(tree, past + [d], cs) && AllDone(tree, past + [d], cs)
  {
    hide FirstDone, InSub;
    SameFirst(tree, past, d, cs);
  }

  lemma RiseStep(tree: seq<Node>, past: seq<nat>, d: nat, cs: seq<nat>, b: nat)
    requires TreeOk(tree) && Rising(tree, past, cs) && AllDone(tree, past, cs)
    requires InSub(tree, b, d) && FirstDone(tree, b, past) == |past|
    ensures Rising(tree, past + [d], cs + [b]) && AllDone(tree, past + [d], cs + [b])
  {
    hide FirstDone, InSub;
    SameFirst(tree, past, d, cs);
    RiseSame(tree, past, d, cs);
    FirstDoneSnoc(tree, b, past, d);
    forall j, k | 0 <= j < k < |cs + [b]|
      ensures FirstDone(tree, (cs + [b])[j], past + [d]) < FirstDone(tree, (cs + [b])[k], past + [d])
    {
      assert (cs + [b])[j] == cs[j];
    }
  }

  /** The children of `p` that were queued are those that were done or have something done below them. */
  lemma {:induction false} ThroughDone(tree: seq<Node>, p: nat, dones: seq<nat>)
    requires NoDetached(tree) && p < |tree| && forall d :: d in dones ==> d < |tree|
    ensures forall c: nat :: c in Through(tree, p, dones) <==> p < c < |tree| && tree[c].parent == p && FirstDone(tree, c, dones) < |dones|
  {
    if dones != [] {
      var past, d := dones[..|dones| - 1], dones[|dones| - 1];
      assert d in dones && forall e :: e in past ==> e in dones;
      ThroughDone(tree, p, past);
      if d != p && InSub(tree, p, d) {
        ThroughBranch(tree, p, d);
      } else {
        NotBelow(tree, p, d);
      }
    }
  }

  lemma {:induction false} ThroughRises(tree: seq<Node>, p: nat, dones: seq<nat>)
    requires NoDetached(tree) && p < |tree| && forall d :: d in dones ==> d < |tree|
    ensures Rising(tree, dones, Distinct(Through(tree, p, dones))) && AllDone(tree, dones, Distinct(Through(tree, p, dones)))
  {
    hide Distinct, FirstDone, Rising, AllDone;
    if dones == [] {
      Empty(tree);
    } else {
      var past, d := dones[..|dones| - 1], dones[|dones| - 1];
      assert past + [d] == dones;
      assert d in dones && forall e :: e in past ==> e in dones;
      ThroughRises(tree, p, past);
      ThroughDone(tree, p, past);
      var q := Through(tree, p, past);
      if d != p && InSub(tree, p, d) {
        var b := Branch(tree, p, d);
        ThroughBranch(tree, p, d);
        DistinctSnoc(q, b);
        NotYetDone(tree, b, past);
        if b in q {
          RiseSame(tree, past, d, Distinct(q));
        } else {
          RiseStep(tree, past, d, Distinct(q), b);
        }
      } else {
        assert q + [] == q;
        RiseSame(tree, past, d, Distinct(q));
      }
    }
  }

  lemma NotYetDone(tree: seq<Node>, c: nat, dones: seq<nat>)
    requires TreeOk(tree)
    ensures FirstDone(tree, c, dones) <= |dones|
  {
  }

  lemma Empty(tree: seq<Node>)
    requires TreeOk(tree)
    ensures Distinct([]) == [] && AllDone(tree, [], []) && Rising(tree, [], [])
  {
  }

  lemma ThroughBranch(tree: seq<Node>, p: nat, d: nat)
    requires NoDetached(tree) && d != p && InSub(tree, p, d)
    ensures var b := Branch(tree, p, d); p < b < |tree| && tree[b].parent == p
    ensures forall c: nat :: p < c < |tree| && tree[c].parent == p ==> (InSub(tree, c, d) <==> c == Branch(tree, p, d))
  {
    var none := seq(|tree|, x => Span(false, 0, 0, {}));
    BranchProps(tree, none, p, d);
    forall c: nat | p < c < |tree| && tree[c].parent == p
      ensures InSub(tree, c, d) <==> c == Branch(tree, p, d)
    {
      SubOfChild(tree, p, c, d);
    }
  }

  lemma NotBelow(tree: seq<Node>, p: nat, d: nat)
    requires NoDetached(tree) && (d == p || !InSub(tree, p, d))
    ensures forall c: nat :: p < c < |tree| && tree[c].parent == p ==> !InSub(tree, c, d)
  {
    forall c: nat | p < c < |tree| && tree[c].parent == p
      ensures !InSub(tree, c, d)
    {
      SubOfChild(tree, p, c, d);
    }
  }

  lemma {:induction false} RankedInOrder(tree: seq<Node>, queues: seq<seq<nat>>, dones: seq<nat>, p: ProtoSpan)
    requires NoDetached(tree) && |queues| == |tree| && Lined(tree, queues, dones) && Ranked(p, queues)
    ensures InOrder(tree, dones, p)
    decreases p
  {
    hide Distinct, FirstDone, Through, AllDone;
    ThroughRises(tree, p.id, dones);
    forall i | 0 <= i < |p.spans| ensures InOrder(tree, dones, p.spans[i]) {
      RankedInOrder(tree, queues, dones, p.spans[i]);
    }
    forall j, k | 0 <= j < k < |p.spans|
      ensures FirstDone(tree, p.spans[j].id, dones) < FirstDone(tree, p.spans[k].id, dones)
    {
      assert Ids(p.spans)[j] == p.spans[j].id && Ids(p.spans)[k] == p.spans[k].id;
    }
  }

  /** What a flush hands to the writer. */
  ghost predicate BatchOk(tree: seq<Node>, dirty: set<nat>, versions: seq<nat>, endTimes: seq<int>, prior: nat, lines: seq<Line>, b: Batch)
    requires TreeOk(tree)
  {
    && b.span.id == 0 && Nested(tree, b.span) && Carries(b.span, Bumped(versions, Up(tree, dirty)), endTimes)
    && (forall x: nat :: Count(b.span, x) == if x in Up(tree, dirty) then 1 else 0)
    && b.priorLines == prior && b.lines == lines
  }

  ghost function Bumped(versions: seq<nat>, s: set<nat>): (r: seq<nat>)
    ensures |r| == |versions|
  {
    seq(|versions|, x requires 0 <= x < |versions| => if x in s then versions[x] + 1 else versions[x])
  }

  class Request {
    var tree: seq<Node>
    var endTime: seq<int>
    var version: seq<nat>
    var lastFlush: seq<nat>
    var needFlushing: seq<seq<nat>>
    var flushGeneration: nat
    var lines: seq<Line>
    var priorLines: nat
    var sent: seq<Batch>
    /** The spans done since the last flush. */
    ghost var dirty: set<nat>
    /** The same in the order of the calls. */
    ghost var dones: seq<nat>

    ghost predicate Valid()
      reads this
    {
      && MarksOk(tree, Now()) && |endTime| == |tree|
      && Pending(tree, needFlushing, dirty) && (forall d :: d in dirty ==> d < |tree|)
      && Lined(tree, needFlushing, dones)
      && forall x: nat :: x < |lastFlush| ==> lastFlush[x] <= flushGeneration
    }

    constructor ()
      ensures Valid() && tree == [Node(0, false)] && endTime == [0] && version == [0] && dirty == {} && dones == []
      ensures lines == [] && priorLines == 0 && sent == []
    {
      tree, endTime, version, lastFlush, needFlushing := [Node(0, false)], [0], [0], [0], [[]];
      flushGeneration, lines, priorLines, sent, dirty, dones := 0, [], 0, [], {}, [];
    }

    method NewSpan(parent: nat) returns (id: nat)
      requires Valid() && parent < |tree|
      modifies this`tree, this`endTime, this`version, this`lastFlush, this`needFlushing
      ensures Valid() && id == old(|tree|) && tree == old(tree) + [Node(parent, false)]
      ensures endTime == old(endTime) + [0] && version == old(version) + [0]
    {
      hide Lined;
      NewSpanPending(tree, needFlushing, dirty, parent);
      LinedNew(tree, needFlushing, dones, parent);
      id := |tree|;
      tree := tree + [Node(parent, false)];
      endTime, version, lastFlush, needFlushing := endTime + [0], version + [0], lastFlush + [0], needFlushing + [[]];
    }

    method RaiseEnd(i: nat, t: int)
      requires i < |endTime|
      modifies this`endTime
      ensures endTime == old(endTime)[i := Max(old(endTime)[i], t)]
    {
      if t > endTime[i] {
        endTime := endTime[i := t];
      }
    }

    method StartLine(i: nat, ts: int)
      requires Valid() && i < |tree|
      modifies this`endTime
      ensures Valid() && endTime == old(endTime)[i := Max(old(endTime)[i], ts)]
    {
      RaiseEnd(i, ts);
    }

    method FinishLine(line: Line)
      requires Valid() && line.span < |tree|
      modifies this`lines
      ensures Valid() && lines == old(lines) + [line]
    {
      lines := lines + [line];
    }

    method Done(i: nat, t: int)
      requires Valid() && i < |tree|
      modifies this`endTime, this`needFlushing, this`dirty, this`dones
      ensures Valid() && endTime == old(endTime)[i := Max(old(endTime)[i], t)] && dirty == old(dirty) + {i} && dones == old(dones) + [i]
    {
      hide InSub, Covers, Lined, Announced;
      RaiseEnd(i, t);
      ghost var q := needFlushing;
      Announce(i);
      AnnouncedPending(tree, q, needFlushing, dirty, i);
      LinedDone(tree, q, needFlushing, dones, i);
      dirty, dones := dirty + {i}, dones + [i];
    }

    /** Queue a span with its parent, the parent with its own, up to the request. */
    method Announce(i: nat)
      requires MarksOk(tree, Now()) && i < |tree|
      modifies this`needFlushing
      ensures Announced(tree, old(needFlushing), needFlushing, i)
      decreases i
    {
      if i == 0 {
        return;
      }
      var parent := tree[i].parent;
      ghost var q := needFlushing;
      needFlushing := needFlushing[parent := needFlushing[parent] + [i]];
      Announce(parent);
    }

    method Flush()
      requires Valid()
      modifies this`flushGeneration, this`version, this`lastFlush, this`needFlushing, this`lines, this`priorLines, this`sent, this`dirty, this`dones
      ensures Valid() && dirty == {} && dones == [] && lines == [] && priorLines == old(priorLines) + |old(lines)|
      ensures version == Bumped(old(version), Up(tree, old(dirty)))
      ensures |sent| == |old(sent)| + 1 && sent[..|sent| - 1] == old(sent)
      ensures BatchOk(tree, old(dirty), old(version), endTime, old(priorLines), old(lines), sent[|sent| - 1])
      ensures InOrder(tree, old(dones), sent[|sent| - 1].span)
    {
      hide InSub, Covers, Below, Nested, Carries, Count, Pending, InOrder, Ranked, Lined;
      ghost var a := Now();
      BelowRoot(tree, needFlushing, dirty);
      flushGeneration := flushGeneration + 1;
      var p := GetProto(0, flushGeneration);
      RankedInOrder(tree, a.queues, dones, p.value);
      sent := sent + [Batch(p.value, priorLines, lines)];
      priorLines := priorLines + |lines|;
      lines := [];
      assert version == Bumped(old(version), Up(tree, dirty));
      DrainedEmpty(tree, a, Now(), dirty, flushGeneration);
      LinedNone(tree, needFlushing);
      dirty, dones := {}, [];
    }

    function Now(): Marks
      reads this
    {
      Marks(version, lastFlush, needFlushing)
    }

    method GetProto(i: nat, gen: nat) returns (p: Option<ProtoSpan>)
      requires MarksOk(tree, Now()) && i < |tree| == |endTime|
      requires lastFlush[i] == gen || forall x: nat :: x in Below(tree, needFlushing, i) ==> lastFlush[x] != gen
      modifies this`version, this`lastFlush, this`needFlushing
      ensures old(lastFlush[i]) == gen ==> p == None && Now() == old(Now())
      ensures old(lastFlush[i]) != gen ==>
                && p.Some? && p.value.id == i
                && Drained(old(Now()), Now(), Below(tree, old(needFlushing), i), gen)
                && Nested(tree, p.value) && Carries(p.value, version, endTime)
                && Ranked(p.value, old(needFlushing))
                && forall x: nat :: Count(p.value, x) == if x in Below(tree, old(needFlushing), i) then 1 else 0
      decreases |tree| - i
    {
      hide Drained, Below, BelowFirst, Emitted, Hangs, Count, CountAll, Carries, RankedSo, Distinct;
      if lastFlush[i] == gen {
        return None;
      }
      ghost var a := Now();
      lastFlush := lastFlush[i := gen];
      version := version[i := version[i] + 1];
      var queue := needFlushing[i];
      needFlushing := needFlushing[i := []];
      var spans: seq<ProtoSpan> := [];
      DrainSelf(tree, a, Now(), i, gen);
      EmitNone(tree, a, Now(), i, endTime);
      RankNone(a.queues);
      var k := 0;
      while k < |queue|
        invariant 0 <= k <= |queue| && MarksOk(tree, Now())
        invariant Drained(a, Now(), BelowFirst(tree, a.queues, i, queue[..k]), gen)
        invariant Emitted(tree, i, spans, BelowFirst(tree, a.queues, i, queue[..k]), version, endTime)
        invariant RankedSo(spans, queue[..k], a.queues)
      {
        ghost var b := Now();
        ghost var first, d := queue[..k], queue[k];
        assert queue[..k + 1] == first + [d];
        QueueStep(tree, a, b, i, first, d, gen);
        var q := GetProto(queue[k], gen);
        RankOne(tree, spans, a, b, i, first, d, q, gen);
        if q.Some? {
          FirstMet(tree, a, b, i, first, d, gen);
          SelfFirst(tree, a, i, first);
          EmitOne(tree, i, spans, q.value, BelowFirst(tree, a.queues, i, first), Below(tree, a.queues, d), b, Now(), endTime, gen);
          Compose(a, b, Now(), BelowFirst(tree, a.queues, i, first), Below(tree, a.queues, d), gen);
          spans := spans + [q.value];
        }
        k := k + 1;
      }
      assert queue[..k] == queue;
      AllFirst(tree, a.queues, i);
      p := Some(ProtoSpan(i, version[i], endTime[i], spans));
      SelfFirst(tree, a, i, queue);
      RankAll(p.value, a.queues);
      Wrap(tree, i, p.value, Below(tree, a.queues, i), version, endTime);
    }
  }
}
