/** The order in which spans are created and ended when JSON records are replayed (xopjson/replay.go). */
module JsonOrder {
  import opened Options
  import opened JsonReplay
  import opened JsonReplayRuns

  // ---- Siblings ------------------------------------------------------------------------

  /** The spans created under a parent, in order. */
  function Under(calls: seq<Call>, p: Id): seq<Id> {
    if calls == [] then []
    else (if calls[0].StartSpan? && calls[0].parent == p then [calls[0].id] else []) + Under(calls[1..], p)
  }

  /** The members of a list that are not known, each where it is met first. */
  function Firsts(ids: seq<Id>, known: set<Id>): seq<Id> {
    if ids == [] then []
    else if ids[0] in known then Firsts(ids[1..], known)
    else [ids[0]] + Firsts(ids[1..], known + {ids[0]})
  }

  /** `a` is what is left of `b` when some members are taken out. */
  predicate Within(a: seq<Id>, b: seq<Id>) {
    a == [] || (b != [] && if a[0] == b[0] then Within(a[1..], b[1..]) else Within(a, b[1..]))
  }

  lemma {:induction false} WithinMore(a: seq<Id>, b: seq<Id>, x: Id)
    requires Within(a, b)
    ensures Within(a, [x] + b)
    decreases |b|, 1
  {
    assert ([x] + b)[1..] == b;
    if a != [] && a[0] == x {
      WithinDrop(a, b);
    }
  }

  lemma {:induction false} WithinDrop(a: seq<Id>, b: seq<Id>)
    requires a != [] && Within(a, b)
    ensures Within(a[1..], b)
    decreases |b|, 0
  {
    if a[0] != b[0] {
      WithinDrop(a, b[1..]);
    }
    WithinMore(a[1..], b[1..], b[0]);
    assert [b[0]] + b[1..] == b;
  }

  lemma {:induction false} WithinTrans(a: seq<Id>, b: seq<Id>, c: seq<Id>)
    requires Within(a, b) && Within(b, c)
    ensures Within(a, c)
    decreases |c|
  {
    if a != [] {
      if b[0] == c[0] {
        if a[0] == b[0] {
          WithinTrans(a[1..], b[1..], c[1..]);
        } else {
          WithinTrans(a, b[1..], c[1..]);
        }
      } else {
        WithinTrans(a, b, c[1..]);
        WithinMore(a, c[1..], c[0]);
        assert [c[0]] + c[1..] == c;
      }
    }
  }

  lemma {:induction false} FirstsLess(ids: seq<Id>, few: set<Id>, many: set<Id>)
    requires few <= many
    ensures Within(Firsts(ids, many), Firsts(ids, few))
  {
    if ids != [] {
      var x, rest := ids[0], ids[1..];
      if x in few {
        FirstsLess(rest, few, many);
      } else if x in many {
        FirstsLess(rest, few + {x}, many);
        WithinMore(Firsts(rest, many), Firsts(rest, few + {x}), x);
      } else {
        FirstsLess(rest, few + {x}, many + {x});
      }
    }
  }

  /** The children of a parent in a list of steps. */
  function Items(todo: seq<Step>, p: Id): seq<Id> {
    if todo == [] then []
    else (if todo[0].Enter? && todo[0].parent == p then [todo[0].id] else []) + Items(todo[1..], p)
  }

  lemma {:induction false} ItemsAppend(a: seq<Step>, b: seq<Step>, p: Id)
    ensures Items(a + b, p) == Items(a, p) + Items(b, p)
  {
    if a == [] {
      assert a + b == b;
    } else {
      assert (a + b)[1..] == a[1..] + b;
      ItemsAppend(a[1..], b, p);
    }
  }

  lemma {:induction false} ItemsEnters(q: Id, ids: seq<Id>, p: Id)
    ensures Items(Enters(q, ids), p) == if p == q then ids else []
  {
    if ids != [] {
      assert Enters(q, ids)[1..] == Enters(q, ids[1..]);
      ItemsEnters(q, ids[1..], p);
    }
  }

  lemma ItemsBelow(recs: seq<Record>, s: Step, rest: seq<Step>, p: Id)
    ensures Items(Below(recs, s) + rest, p) == (if s.id == p then Children(recs, p) else []) + Items(rest, p)
  {
    hide Children, Enters;
    var last := if s.Enter? then [Leave(s.id)] else [];
    ItemsAppend(Below(recs, s), rest, p);
    ItemsAppend(Enters(s.id, Children(recs, s.id)), last, p);
    ItemsEnters(s.id, Children(recs, s.id), p);
    assert Items(last, p) == [];
  }

  /** All steps are about records. */
  predicate Known(recs: seq<Record>, todo: seq<Step>) {
    forall i :: 0 <= i < |todo| ==> todo[i].id in Table(recs)
  }

  lemma KnownBelow(recs: seq<Record>, s: Step, rest: seq<Step>)
    requires s.id in Table(recs) && Known(recs, rest)
    ensures Known(recs, Below(recs, s) + rest)
  {
    hide Table, Children;
    forall i | 0 <= i < |Children(recs, s.id)|
      ensures Children(recs, s.id)[i] in Table(recs)
    {
      ChildRecord(recs, s.id, Children(recs, s.id)[i]);
    }
  }

  /** A walk creates children in the order in which their records come, each ID where it is met first. */
  lemma {:induction false} WalkUnder(recs: seq<Record>, todo: seq<Step>, seen: set<Id>, p: Id)
    requires Known(recs, todo)
    ensures var calls := Walk(recs, todo, seen).0;
            && (p in seen ==> Within(Under(calls, p), Firsts(Items(todo, p), seen)))
            && (p !in seen && Items(todo, p) == [] ==> Within(Under(calls, p), Firsts(Children(recs, p), {})))
    decreases |Table(recs).Keys - seen|, |todo|
  {
    hide Table, Children, Known, Below, Enters;
    if todo != [] {
      var s, rest := todo[0], todo[1..];
      assert s.id in Table(recs) && Known(recs, rest) by { KnownRest(recs, todo); }
      if s.Leave? {
        WalkUnder(recs, rest, seen, p);
        UnderEnd(recs, s.id, Walk(recs, rest, seen).0, p);
        assert Items(todo, p) == Items(rest, p);
      } else if s.id in seen {
        WalkUnder(recs, rest, seen, p);
        ItemsSeen(todo, seen, p);
      } else {
        var next := Below(recs, s) + rest;
        Fewer(Table(recs).Keys, seen, s.id);
        KnownBelow(recs, s, rest);
        WalkUnder(recs, next, seen + {s.id}, p);
        ItemsBelow(recs, s, rest, p);
        UnderStart(recs, s, Walk(recs, next, seen + {s.id}).0, p);
        UnderStep(recs, todo, seen, Under(Walk(recs, next, seen + {s.id}).0, p), p);
      }
    }
  }

  lemma KnownRest(recs: seq<Record>, todo: seq<Step>)
    requires Known(recs, todo) && todo != []
    ensures todo[0].id in Table(recs) && Known(recs, todo[1..])
  {
  }

  lemma UnderEnd(recs: seq<Record>, id: Id, calls: seq<Call>, p: Id)
    ensures Under(EndCall(recs, id) + calls, p) == Under(calls, p)
  {
    var e := EndCall(recs, id);
    if e == [] {
      assert e + calls == calls;
    } else {
      assert (e + calls)[1..] == calls && (e + calls)[0].EndSpan?;
    }
  }

  lemma ItemsSeen(todo: seq<Step>, seen: set<Id>, p: Id)
    requires todo != [] && todo[0].id in seen
    ensures Firsts(Items(todo, p), seen) == Firsts(Items(todo[1..], p), seen)
    ensures Items(todo, p) == [] ==> Items(todo[1..], p) == []
  {
    if todo[0].Enter? && todo[0].parent == p {
      assert Items(todo, p)[1..] == Items(todo[1..], p);
    } else {
      assert Items(todo, p) == Items(todo[1..], p);
    }
  }

  lemma UnderStart(recs: seq<Record>, s: Step, calls: seq<Call>, p: Id)
    requires !s.Leave? && s.id in Table(recs)
    ensures Under([StartCall(recs, s)] + calls, p) == (if s.Enter? && s.parent == p then [s.id] else []) + Under(calls, p)
  {
    assert ([StartCall(recs, s)] + calls)[1..] == calls;
  }

  lemma UnderStep(recs: seq<Record>, todo: seq<Step>, seen: set<Id>, under: seq<Id>, p: Id)
    requires todo != [] && !todo[0].Leave? && todo[0].id !in seen
    requires var s := todo[0]; var items := (if s.id == p then Children(recs, p) else []) + Items(todo[1..], p);
             && (p in seen + {s.id} ==> Within(under, Firsts(items, seen + {s.id})))
             && (p !in seen + {s.id} && items == [] ==> Within(under, Firsts(Children(recs, p), {})))
    ensures var s := todo[0]; var more := (if s.Enter? && s.parent == p then [s.id] else []) + under;
            && (p in seen ==> Within(more, Firsts(Items(todo, p), seen)))
            && (p !in seen && Items(todo, p) == [] ==> Within(more, Firsts(Children(recs, p), {})))
  {
    hide Children, Within, Firsts;
    var s, rest := todo[0], Items(todo[1..], p);
    assert [] + rest == rest && [] + under == under;
    if s.Enter? && s.parent == p {
      FirstsHead(s.id, rest, seen);
      if p in seen {
        WithinBoth(s.id, under, Firsts(rest, seen + {s.id}));
      }
    } else {
      FirstsLess(rest, seen, seen + {s.id});
      FirstsLess(Children(recs, p), {}, seen + {s.id});
      assert Items(todo, p) == rest;
      assert Children(recs, p) + [] == Children(recs, p);
      if p in seen {
        WithinTrans(under, Firsts(rest, seen + {s.id}), Firsts(rest, seen));
      } else if rest == [] && p == s.id {
        WithinTrans(under, Firsts(Children(recs, p), seen + {p}), Firsts(Children(recs, p), {}));
      }
    }
  }

  lemma FirstsHead(x: Id, rest: seq<Id>, known: set<Id>)
    requires x !in known
    ensures Firsts([x] + rest, known) == [x] + Firsts(rest, known + {x})
  {
    assert ([x] + rest)[1..] == rest;
  }

  lemma WithinBoth(x: Id, a: seq<Id>, b: seq<Id>)
    requires Within(a, b)
    ensures Within([x] + a, [x] + b)
  {
    assert ([x] + a)[1..] == a && ([x] + b)[1..] == b;
  }

  // ---- Ends -----------------------------------------------------------------------------

  /** When a span has ended no child of it starts or ends any more. */
  ghost predicate Closed(calls: seq<Call>) {
    forall i, j :: 0 <= i < |calls| && 0 <= j < |calls| && calls[i].EndSpan? && calls[j].StartSpan? && calls[j].parent == calls[i].id ==>
      j < i && EndedBy(calls, calls[j].id, i)
  }

  predicate EndedBy(calls: seq<Call>, id: Id, i: nat) {
    forall k :: 0 <= k < |calls| && calls[k].EndSpan? && calls[k].id == id ==> k < i
  }

  predicate IsOpen(todo: seq<Step>) {
    forall i :: 0 <= i < |todo| ==> !todo[i].Leave?
  }

  /** The calls only create and end spans of a set. */
  predicate Inside(calls: seq<Call>, own: set<Id>) {
    forall i :: 0 <= i < |calls| ==> !calls[i].LogLine? && calls[i].id in own
  }

  /** Parents are known before or created by these calls. */
  predicate ParentsFrom(calls: seq<Call>, known: set<Id>) {
    forall i :: 0 <= i < |calls| && calls[i].StartSpan? ==> calls[i].parent in known
  }

  predicate ParentsSeen(todo: seq<Step>, seen: set<Id>) {
    forall i :: 0 <= i < |todo| && todo[i].Enter? ==> todo[i].parent in seen
  }

  lemma ClosedBlock(start: Call, k: seq<Call>, e: seq<Call>, own: set<Id>, seen: set<Id>)
    requires Closed(k) && Inside(k, own) && own !! seen && !start.LogLine? && !start.EndSpan? && start.id in seen
    requires start.StartSpan? ==> start.parent in seen && start.parent != start.id
    requires e == [] || (|e| == 1 && start.StartSpan? && e[0].EndSpan? && e[0].id == start.id)
    ensures Closed([start] + k + e)
  {
    var t, n := [start] + k + e, |k|;
    assert t[0] == start && (forall i :: 0 <= i < n ==> t[i + 1] == k[i]) && (e != [] ==> t[n + 1] == e[0]);
    assert forall i :: 1 <= i <= n ==> t[i] == k[i - 1];
    forall i, j | 0 <= i < |t| && 0 <= j < |t| && t[i].EndSpan? && t[j].StartSpan? && t[j].parent == t[i].id
      ensures j < i && EndedBy(t, t[j].id, i)
    {
      if i <= n {
        assert k[i - 1].id in own;
        assert 0 < j <= n;
        assert k[j - 1].parent == k[i - 1].id;
        assert EndedBy(k, k[j - 1].id, i - 1);
        forall m | 0 <= m < |t| && t[m].EndSpan? && t[m].id == t[j].id
          ensures m < i
        {
          assert k[j - 1].id in own;
          assert 0 < m <= n;
          assert k[m - 1] == t[m];
        }
      } else {
        assert j <= n;
        forall m | 0 <= m < |t| && t[m].EndSpan? && t[m].id == t[j].id
          ensures m < i
        {
          if j > 0 {
            assert k[j - 1].id in own;
          }
        }
      }
    }
  }

  lemma Apart(calls: seq<Call>, own: set<Id>, first: set<Id>, before: set<Id>)
    requires Inside(calls, own) && ParentsFrom(calls, before + own) && first !! own && first !! before
    ensures forall i :: 0 <= i < |calls| ==> !calls[i].LogLine? && calls[i].id !in first
    ensures forall i :: 0 <= i < |calls| && calls[i].StartSpan? ==> calls[i].parent !in first
  {
  }

  lemma ClosedJoin(a: seq<Call>, b: seq<Call>, before: set<Id>, first: set<Id>, second: set<Id>)
    requires Closed(a) && Closed(b) && Inside(a, first) && Inside(b, second) && first !! second && first !! before
    requires ParentsFrom(b, before + second)
    ensures Closed(a + b)
  {
    var t, n := a + b, |a|;
    assert (forall i :: 0 <= i < n ==> t[i] == a[i]) && forall i :: n <= i < |t| ==> t[i] == b[i - n];
    assert forall i :: 0 <= i < n ==> a[i].id in first;
    assert forall i :: n <= i < |t| ==> t[i].id !in first by { Apart(b, second, first, before); }
    assert forall i :: n <= i < |t| && t[i].StartSpan? ==> t[i].parent !in first by { Apart(b, second, first, before); }
    forall i, j | 0 <= i < |t| && 0 <= j < |t| && t[i].EndSpan? && t[j].StartSpan? && t[j].parent == t[i].id
      ensures j < i && EndedBy(t, t[j].id, i)
    {
      if i < n {
        assert j < n;
        assert EndedBy(a, a[j].id, i);
      } else if j >= n {
        assert EndedBy(b, b[j - n].id, i - n);
        forall m | 0 <= m < |t| && t[m].EndSpan? && t[m].id == t[j].id
          ensures m < i
        {
          if m >= n {
            assert b[m - n] == t[m];
          }
        }
      } else {
        assert EndedBy(t, t[j].id, i);
      }
    }
  }

  lemma InsideBlock(start: Call, k: seq<Call>, e: seq<Call>, own: set<Id>)
    requires Inside(k, own) && !start.LogLine? && (e == [] || (|e| == 1 && e[0].EndSpan? && e[0].id == start.id))
    ensures Inside([start] + k + e, own + {start.id})
  {
  }

  lemma ParentsBlock(start: Call, k: seq<Call>, e: seq<Call>, known: set<Id>)
    requires ParentsFrom(k, known) && (start.StartSpan? ==> start.parent in known) && (e == [] || (|e| == 1 && e[0].EndSpan?))
    ensures ParentsFrom([start] + k + e, known)
  {
  }

  lemma Joined(a: seq<Call>, b: seq<Call>, s: set<Id>, t: set<Id>, known: set<Id>, more: set<Id>)
    requires Inside(a, s) && Inside(b, t) && ParentsFrom(a, known) && ParentsFrom(b, more) && known <= more
    ensures Inside(a + b, s + t) && ParentsFrom(a + b, more)
  {
  }

  lemma WalkFirst(recs: seq<Record>, s: Step, rest: seq<Step>, seen: set<Id>)
    requires !s.Leave? && s.id in Table(recs) && s.id !in seen
    ensures var enters, last := Enters(s.id, Children(recs, s.id)), if s.Enter? then [Leave(s.id)] else [];
            var w := Walk(recs, enters + (last + rest), seen + {s.id});
            Walk(recs, [s] + rest, seen) == ([StartCall(recs, s)] + w.0, w.1)
  {
    hide Table, Children, StartCall, EndCall, Enters;
    var enters, last := Enters(s.id, Children(recs, s.id)), if s.Enter? then [Leave(s.id)] else [];
    assert ([s] + rest)[1..] == rest && enters + last + rest == enters + (last + rest);
  }

  /** The calls for one created span or request: its start, all that is below it, and its end. */
  lemma WalkBlock(recs: seq<Record>, s: Step, rest: seq<Step>, seen: set<Id>)
    requires !s.Leave? && s.id in Table(recs) && s.id !in seen
    ensures var k := Walk(recs, Enters(s.id, Children(recs, s.id)), seen + {s.id});
            var r := Walk(recs, rest, k.1);
            Walk(recs, [s] + rest, seen) == (([StartCall(recs, s)] + k.0 + (if s.Enter? then EndCall(recs, s.id) else [])) + r.0, r.1)
  {
    hide Table, Children, StartCall, EndCall, Enters, Walk;
    var enters, last := Enters(s.id, Children(recs, s.id)), if s.Enter? then [Leave(s.id)] else [];
    var k := Walk(recs, enters, seen + {s.id});
    WalkFirst(recs, s, rest, seen);
    WalkAppend(recs, enters, last + rest, seen + {s.id});
    WalkAppend(recs, last, rest, k.1);
    WalkLast(recs, s, k.1);
    var e := if s.Enter? then EndCall(recs, s.id) else [];
    var r := Walk(recs, rest, k.1);
    assert [StartCall(recs, s)] + (k.0 + (e + r.0)) == ([StartCall(recs, s)] + k.0 + e) + r.0;
  }

  lemma WalkLast(recs: seq<Record>, s: Step, seen: set<Id>)
    ensures Walk(recs, if s.Enter? then [Leave(s.id)] else [], seen) == (if s.Enter? then EndCall(recs, s.id) else [], seen)
  {
    hide EndCall;
    assert [Leave(s.id)][1..] == [];
    assert Walk(recs, [], seen) == ([], seen);
    assert EndCall(recs, s.id) + [] == EndCall(recs, s.id);
  }

  lemma WalkNothing(recs: seq<Record>, seen: set<Id>)
    ensures Walk(recs, [], seen) == ([], seen) && Closed([]) && Inside([], {}) && forall known :: ParentsFrom([], known)
  {
  }

  lemma WalkSkips(recs: seq<Record>, todo: seq<Step>, seen: set<Id>)
    requires todo != [] && !todo[0].Leave? && todo[0].id in seen
    ensures Walk(recs, todo, seen) == Walk(recs, todo[1..], seen)
  {
  }

  lemma OpenRest(todo: seq<Step>, known: set<Id>)
    requires IsOpen(todo) && ParentsSeen(todo, known) && todo != []
    ensures IsOpen(todo[1..]) && ParentsSeen(todo[1..], known) && !todo[0].Leave? && (todo[0].Enter? ==> todo[0].parent in known)
  {
  }

  lemma EntersFine(recs: seq<Record>, s: Step)
    ensures var enters := Enters(s.id, Children(recs, s.id)); Known(recs, enters) && IsOpen(enters) && ParentsSeen(enters, {s.id})
  {
    hide Table, Children;
    forall i | 0 <= i < |Children(recs, s.id)|
      ensures Children(recs, s.id)[i] in Table(recs)
    {
      ChildRecord(recs, s.id, Children(recs, s.id)[i]);
    }
  }

  lemma StartEnd(recs: seq<Record>, s: Step)
    requires !s.Leave? && s.id in Table(recs)
    ensures var c, e := StartCall(recs, s), if s.Enter? then EndCall(recs, s.id) else [];
            && !c.LogLine? && !c.EndSpan? && c.id == s.id && (c.StartSpan? <==> s.Enter?) && (s.Enter? ==> c.parent == s.parent)
            && (e == [] || (|e| == 1 && s.Enter? && e[0].EndSpan? && e[0].id == s.id))
  {
    hide Table;
  }

  lemma ParentsMore(calls: seq<Call>, few: set<Id>, many: set<Id>)
    requires ParentsFrom(calls, few) && few <= many
    ensures ParentsFrom(calls, many)
  {
  }

  /** The spans of a walk end after all that is below them. */
  lemma {:induction false} WalkClosed(recs: seq<Record>, todo: seq<Step>, seen: set<Id>, known: set<Id>)
    requires Known(recs, todo) && IsOpen(todo) && ParentsSeen(todo, known) && known <= seen
    ensures var r := Walk(recs, todo, seen); Closed(r.0) && Inside(r.0, r.1 - seen) && ParentsFrom(r.0, known + (r.1 - seen))
    decreases Left(recs, seen), |todo|
  {
    hide Table, Children, Closed, Inside, ParentsFrom, ParentsSeen, IsOpen, Enters, StartCall, EndCall, Known, Walk, Left, Below;
    if todo == [] {
      WalkNothing(recs, seen);
      assert seen - seen == {};
    } else {
      var s, rest := todo[0], todo[1..];
      KnownRest(recs, todo);
      OpenRest(todo, known);
      if s.id in seen {
        WalkSkips(recs, todo, seen);
        WalkClosed(recs, rest, seen, known);
      } else {
        var enters, mid := Enters(s.id, Children(recs, s.id)), seen + {s.id};
        FewerLeft(recs, seen, seen);
        EntersFine(recs, s);
        WalkClosed(recs, enters, mid, {s.id});
        var k := Walk(recs, enters, mid);
        FewerLeft(recs, mid, k.1);
        WalkClosed(recs, rest, k.1, known);
        WalkBlock(recs, s, rest, seen);
        assert [s] + rest == todo;
        BlockClosed(recs, s, k.0, Walk(recs, rest, k.1).0, seen, mid, k.1, Walk(recs, rest, k.1).1, known);
      }
    }
  }

  lemma BlockClosed(recs: seq<Record>, s: Step, k: seq<Call>, r: seq<Call>, seen: set<Id>, mid: set<Id>, after: set<Id>, all: set<Id>, known: set<Id>)
    requires !s.Leave? && s.id in Table(recs) && s.id !in seen && mid == seen + {s.id} && mid <= after <= all && known <= seen
    requires s.Enter? ==> s.parent in known
    requires Closed(k) && Inside(k, after - mid) && ParentsFrom(k, {s.id} + (after - mid))
    requires Closed(r) && Inside(r, all - after) && ParentsFrom(r, known + (all - after))
    ensures var t := ([StartCall(recs, s)] + k + (if s.Enter? then EndCall(recs, s.id) else [])) + r;
            Closed(t) && Inside(t, all - seen) && ParentsFrom(t, known + (all - seen))
  {
    hide Table, Closed, Inside, ParentsFrom, StartCall, EndCall;
    StartEnd(recs, s);
    var start, e := StartCall(recs, s), if s.Enter? then EndCall(recs, s.id) else [];
    var block := [start] + k + e;
    ClosedBlock(start, k, e, after - mid, mid);
    InsideBlock(start, k, e, after - mid);
    assert after - mid + {s.id} == after - seen;
    ParentsMore(k, {s.id} + (after - mid), known + (after - seen));
    ParentsBlock(start, k, e, known + (after - seen));
    ParentsMore(block, known + (after - seen), known + (all - seen));
    ParentsMore(r, known + (all - after), known + (all - seen));
    ClosedJoin(block, r, known, after - seen, all - after);
    Joined(block, r, after - seen, all - after, known + (all - seen), known + (all - seen));
    assert (after - seen) + (all - after) == all - seen;
  }

  // ---- A whole replay -------------------------------------------------------------------

  lemma {:induction false} UnderAppend(a: seq<Call>, b: seq<Call>, p: Id)
    ensures Under(a + b, p) == Under(a, p) + Under(b, p)
  {
    if a == [] {
      assert a + b == b;
    } else {
      assert (a + b)[1..] == a[1..] + b;
      UnderAppend(a[1..], b, p);
    }
  }

  lemma {:induction false} NoneUnder(calls: seq<Call>, p: Id)
    requires forall i :: 0 <= i < |calls| ==> !calls[i].StartSpan?
    ensures Under(calls, p) == []
  {
    if calls != [] {
      NoneUnder(calls[1..], p);
    }
  }

  lemma {:induction false} OnlyEnds(recs: seq<Record>, list: seq<nat>, last: map<Id, nat>)
    requires AreRequests(recs, list)
    ensures forall i :: 0 <= i < |RequestEnds(recs, list, last)| ==>
              var c := RequestEnds(recs, list, last)[i]; c.EndSpan? && IsRequestId(recs, c.id)
  {
    if list != [] {
      assert AreRequests(recs, list[1..]);
      OnlyEnds(recs, list[1..], last);
      assert recs[list[0]].RequestRecord?;
    }
  }

  lemma BeginsFine(recs: seq<Record>, ids: seq<Id>)
    requires forall i :: 0 <= i < |ids| ==> ids[i] in Table(recs)
    ensures Known(recs, Begins(ids)) && IsOpen(Begins(ids)) && ParentsSeen(Begins(ids), {})
    ensures forall p :: Items(Begins(ids), p) == []
  {
    hide Table;
    forall p
      ensures Items(Begins(ids), p) == []
    {
      NoItems(Begins(ids), p);
    }
  }

  lemma {:induction false} NoItems(todo: seq<Step>, p: Id)
    requires forall i :: 0 <= i < |todo| ==> !todo[i].Enter?
    ensures Items(todo, p) == []
  {
    if todo != [] {
      NoItems(todo[1..], p);
    }
  }

  lemma RequestsKnown(recs: seq<Record>)
    requires Disjoint(recs)
    ensures forall i :: 0 <= i < |FirstIds(recs, Requests(recs))| ==> FirstIds(recs, Requests(recs))[i] in Table(recs)
  {
    hide Table, FirstIds, Requests, Disjoint, LastIn;
    LastIsTable(recs);
    FirstIdsAll(recs, Requests(recs));
  }

  /** In a successful replay the spans below a parent are created in the order in which their records first come. */
  lemma SiblingOrder(recs: seq<Record>, calls: seq<Call>, p: Id)
    requires Disjoint(recs) && Rebuilt(recs, calls)
    ensures Within(Under(calls, p), Firsts(Children(recs, p), {}))
  {
    hide Table, FirstIds, Requests, Disjoint, Children, Walk, Within, Lines, LogCalls, RequestEnds, LastIn, AreRequests, AreLines, Begins;
    var ids := FirstIds(recs, Requests(recs));
    var w := Walk(recs, Begins(ids), {}).0;
    RequestsKnown(recs);
    BeginsFine(recs, ids);
    WalkUnder(recs, Begins(ids), {}, p);
    assert AreRequests(recs, Requests(recs)) && AreLines(recs, Lines(recs)) by { ListsAre(recs); }
    var logs, ends := LogCalls(recs, Lines(recs)), RequestEnds(recs, Requests(recs), LastIn(recs, Requests(recs)));
    OnlyEnds(recs, Requests(recs), LastIn(recs, Requests(recs)));
    assert forall i :: 0 <= i < |logs| ==> logs[i].LogLine? by { OnlyLogs(recs, Lines(recs)); }
    UnderAppend(w, logs, p);
    UnderAppend(w + logs, ends, p);
    NoneUnder(logs, p);
    NoneUnder(ends, p);
    assert Under(w, p) + [] + [] == Under(w, p);
  }

  lemma ListsAre(recs: seq<Record>)
    ensures AreRequests(recs, Requests(recs)) && AreLines(recs, Lines(recs))
  {
  }

  lemma OnlyLogs(recs: seq<Record>, list: seq<nat>)
    requires AreLines(recs, list)
    ensures forall i :: 0 <= i < |LogCalls(recs, list)| ==> LogCalls(recs, list)[i].LogLine?
  {
  }

  /** ... and a span ends after all its children have ended, when no more of them are created. */
  lemma EndsLast(recs: seq<Record>, calls: seq<Call>)
    requires Disjoint(recs) && Rebuilt(recs, calls)
    ensures Closed(calls)
  {
    hide Table, FirstIds, Requests, Disjoint, Children, Walk, Lines, LogCalls, RequestEnds, LastIn, AreRequests, AreLines, Begins, Inside, ParentsFrom, Closed, Legal;
    var ids := FirstIds(recs, Requests(recs));
    var w := Walk(recs, Begins(ids), {});
    RequestsKnown(recs);
    BeginsFine(recs, ids);
    WalkClosed(recs, Begins(ids), {}, {});
    assert AreRequests(recs, Requests(recs)) && AreLines(recs, Lines(recs)) by { ListsAre(recs); }
    var logs, ends := LogCalls(recs, Lines(recs)), RequestEnds(recs, Requests(recs), LastIn(recs, Requests(recs)));
    OnlyEnds(recs, Requests(recs), LastIn(recs, Requests(recs)));
    OnlyLogs(recs, Lines(recs));
    SpansNotRequests(recs, calls);
    ClosedTail(recs, w.0, logs, ends);
  }

  /** With disjoint IDs no request is created as a span. */
  lemma {:induction false} SpansNotRequests(recs: seq<Record>, calls: seq<Call>)
    requires Disjoint(recs) && Legal(recs, calls)
    ensures forall i :: 0 <= i < |calls| && calls[i].StartSpan? ==> !IsRequestId(recs, calls[i].id)
  {
    hide Disjoint, Children, Table, IsRequestId;
    if calls != [] {
      SpansNotRequests(recs, Init(calls));
      var c := Last(calls);
      if c.StartSpan? && IsRequestId(recs, c.id) {
        NotBoth(recs, c.parent, c.id);
      }
      assert forall i :: 0 <= i < |calls| - 1 ==> calls[i] == Init(calls)[i];
    }
  }

  lemma ClosedTail(recs: seq<Record>, w: seq<Call>, logs: seq<Call>, ends: seq<Call>)
    requires Closed(w) && (forall i :: 0 <= i < |logs| ==> logs[i].LogLine?)
    requires forall i :: 0 <= i < |ends| ==> ends[i].EndSpan? && IsRequestId(recs, ends[i].id)
    requires forall i :: 0 <= i < |w + logs + ends| && (w + logs + ends)[i].StartSpan? ==> !IsRequestId(recs, (w + logs + ends)[i].id)
    ensures Closed(w + logs + ends)
  {
    hide IsRequestId;
    var t, n, m := w + logs + ends, |w|, |w + logs|;
    assert (forall i :: 0 <= i < n ==> t[i] == w[i]) && (forall i :: n <= i < m ==> t[i] == logs[i - n]) && forall i :: m <= i < |t| ==> t[i] == ends[i - m];
    forall i, j | 0 <= i < |t| && 0 <= j < |t| && t[i].EndSpan? && t[j].StartSpan? && t[j].parent == t[i].id
      ensures j < i && EndedBy(t, t[j].id, i)
    {
      assert j < n;
      if i < n {
        assert EndedBy(w, w[j].id, i);
      }
      forall k | 0 <= k < |t| && t[k].EndSpan? && t[k].id == t[j].id
        ensures k < i
      {
        assert k < m;
        if i < n {
          assert w[k] == t[k];
        }
      }
    }
  }
}
