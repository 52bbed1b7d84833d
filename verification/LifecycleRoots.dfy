/** Which loggers are registered all the way up to a top logger, and what every step of the lifecycle keeps of it. */
module LifecycleRoots {
  import opened SpanTree
  import opened LifecycleSteps
  import opened LifecycleStale

  /** Only while it is active does a logger have others registered with it. */
  predicate Tied(p: Span) {
    p.deps != {} ==> p.active
  }

  predicate Resting(p: Span) {
    !p.active && p.deps == {}
  }

  /** Every active logger is registered up to the request or up to a detached logger that the request knows of. */
  ghost predicate Enlisted(tree: seq<Node>, s: seq<Span>, detached: set<nat>)
    requires TreeOk(tree) && DepsOk(tree, s)
  {
    forall x: nat :: x < |tree| && s[x].active ==> Listed(tree, s, detached + {0}, x)
  }

  ghost predicate Rooted(tree: seq<Node>, s: seq<Span>, detached: set<nat>)
    requires TreeOk(tree) && DepsOk(tree, s)
  {
    Enlisted(tree, s, detached) && forall x: nat :: x < |s| ==> Tied(s[x])
  }

  /** Registered loggers are active. */
  predicate Awake(s: seq<Span>) {
    forall x: nat :: x < |s| ==> AllActive(s, s[x].deps)
  }

  predicate AllActive(s: seq<Span>, deps: set<nat>) {
    forall d: nat :: d in deps && d < |s| ==> s[d].active
  }

  /** No registered logger fell asleep, but for `except`. */
  ghost predicate Wakes(s: seq<Span>, t: seq<Span>, except: set<nat>) {
    && |s| == |t|
    && forall x: nat, d: nat {:trigger d in t[x].deps} :: x < |t| && d in t[x].deps && d < |t| && !t[d].active && d !in except ==>
         d in s[x].deps && !s[d].active
  }

  ghost predicate KeepsTiedBut(s: seq<Span>, t: seq<Span>, except: set<nat>) {
    |s| == |t| && Wakes(s, t, except) && forall x: nat :: x < |s| && Tied(s[x]) ==> Tied(t[x])
  }

  /** Loggers keep having registrations only while they are active, and registered loggers stay active. */
  ghost predicate KeepsTied(s: seq<Span>, t: seq<Span>) {
    KeepsTiedBut(s, t, {})
  }

  lemma AwakeKept(s: seq<Span>, t: seq<Span>)
    requires KeepsTied(s, t) && Awake(s)
    ensures Awake(t)
  {
    forall x: nat | x < |t|
      ensures AllActive(t, t[x].deps)
    {
      assert AllActive(s, s[x].deps);
    }
  }

  lemma TiedTrans(a: seq<Span>, b: seq<Span>, c: seq<Span>)
    requires KeepsTied(a, b) && KeepsTied(b, c)
    ensures KeepsTied(a, c)
  {
  }

  lemma TiedQuiet(s: seq<Span>, t: seq<Span>)
    requires SameButBoring(s, t)
    ensures KeepsTied(s, t)
  {
  }

  /** The request knows of the detached loggers that became active. */
  ghost predicate Known(tree: seq<Node>, s: seq<Span>, t: seq<Span>, detached: set<nat>) {
    && |s| == |t| == |tree|
    && forall x: nat :: x < |s| && tree[x].detached && !s[x].active && t[x].active ==> x in detached
  }

  lemma KnownTrans(tree: seq<Node>, a: seq<Span>, b: seq<Span>, c: seq<Span>, mid: set<nat>, detached: set<nat>)
    requires Known(tree, a, b, mid) && Known(tree, b, c, detached) && mid <= detached
    ensures Known(tree, a, c, detached)
  {
  }

  /** A path of registrations goes through every logger of the chain. */
  lemma {:induction false} ReachThrough(tree: seq<Node>, s: seq<Span>, r: nat, l: nat, x: nat)
    requires TreeOk(tree) && DepsOk(tree, s) && Reach(tree, s, r, x) && InSub(tree, l, x) && r <= l
    ensures Reach(tree, s, r, l) && Reach(tree, s, l, x)
  {
    if x != l {
      ReachThrough(tree, s, r, l, tree[x].parent);
    }
  }

  /** Outside of the subtree of `l` a path survives when only `l` may be unregistered. */
  lemma {:induction false} ReachOutside(tree: seq<Node>, s: seq<Span>, t: seq<Span>, l: nat, r: nat, x: nat)
    requires TreeOk(tree) && DepsOk(tree, s) && DepsOk(tree, t) && Reach(tree, s, r, x) && !InSub(tree, l, x)
    requires forall y: nat :: y < |tree| && !InSub(tree, l, y) ==> s[y].deps - {l} <= t[y].deps
    ensures Reach(tree, t, r, x)
  {
    if x != r {
      ReachOutside(tree, s, t, l, r, tree[x].parent);
      assert x != l by { assert InSub(tree, x, x); }
    }
  }

  /** What a step at `l` leaves of the loggers outside of its subtree. */
  ghost predicate Spares(tree: seq<Node>, s: seq<Span>, t: seq<Span>, l: nat)
    requires TreeOk(tree)
  {
    && |s| == |t| == |tree|
    && forall x: nat :: x < |tree| && !InSub(tree, l, x) ==> (s[x].active ==> t[x].active) && s[x].deps - {l} <= t[x].deps
  }

  /** `c`, next above `l` or `l` itself, is the logger it started with or was activated. */
  predicate Rose(s: seq<Span>, t: seq<Span>, l: nat, c: nat) {
    c == l || (c < |s| && c < |t| && !s[c].active && t[c].active)
  }

  /** Activity at `l` reaches `x` above it only from the next logger of the chain, and activates it only if that one is alone. */
  ghost predicate ClimbAt(tree: seq<Node>, s: seq<Span>, t: seq<Span>, l: nat, x: nat)
    requires TreeOk(tree) && |s| == |t| == |tree| && x != l && InSub(tree, x, l)
  {
    var c := Branch(tree, x, l);
    && (!s[x].active && t[x].active ==> s[x].deps <= {c} && Rose(s, t, l, c))
    && (c in t[x].deps ==> c in s[x].deps || Rose(s, t, l, c))
  }

  /** ... and the request learns of no other detached loggers. */
  ghost predicate Climbs(tree: seq<Node>, s: seq<Span>, t: seq<Span>, l: nat, before: set<nat>, after: set<nat>)
    requires TreeOk(tree)
  {
    && |s| == |t| == |tree|
    && (forall x: nat :: x != l && InSub(tree, x, l) ==> ClimbAt(tree, s, t, l, x))
    && forall x: nat :: x in after ==> x in before || Woken(tree, s, t, l, x)
  }

  predicate Woken(tree: seq<Node>, s: seq<Span>, t: seq<Span>, l: nat, x: nat)
    requires TreeOk(tree) && |s| == |t| == |tree|
  {
    x < |tree| && Top(tree, x) && (x == l || (InSub(tree, x, l) && !s[x].active && t[x].active))
  }

  lemma ClimbsQuiet(tree: seq<Node>, s: seq<Span>, t: seq<Span>, u: seq<Span>, l: nat, before: set<nat>, after: set<nat>)
    requires TreeOk(tree) && Climbs(tree, s, t, l, before, after) && SameButBoring(t, u)
    ensures Climbs(tree, s, u, l, before, after)
  {
    forall x: nat | x != l && InSub(tree, x, l)
      ensures ClimbAt(tree, s, u, l, x)
    {
      assert ClimbAt(tree, s, t, l, x);
    }
    forall x: nat | x in after
      ensures x in before || Woken(tree, s, u, l, x)
    {
    }
  }

  lemma ClimbsNowhere(tree: seq<Node>, s: seq<Span>, l: nat, detached: set<nat>)
    requires TreeOk(tree) && |s| == |tree|
    ensures Climbs(tree, s, s, l, detached, detached)
  {
  }

  lemma {:induction false} ChainBranch(tree: seq<Node>, x: nat, l: nat, d: nat)
    requires TreeOk(tree) && x != l && InSub(tree, x, l) && InSub(tree, l, d)
    ensures x < l <= d && InSub(tree, x, d) && Branch(tree, x, d) == Branch(tree, x, l)
  {
    if d != l {
      ChainBranch(tree, x, l, tree[d].parent);
    }
  }

  /** A climb from `d`, below `l`, after one from `l`. */
  lemma ClimbAtTrans(tree: seq<Node>, a: seq<Span>, b: seq<Span>, c: seq<Span>, l: nat, d: nat, x: nat)
    requires TreeOk(tree) && DepsOk(tree, a) && DepsOk(tree, b) && DepsOk(tree, c) && x != l && InSub(tree, x, l) && InSub(tree, l, d)
    requires Spares(tree, a, b, l) && Spares(tree, b, c, d) && ClimbAt(tree, a, b, l, x)
    requires x != d && InSub(tree, x, d) && ClimbAt(tree, b, c, d, x)
    ensures ClimbAt(tree, a, c, l, x)
  {
    var n := Branch(tree, x, l);
    ChainBranch(tree, x, l, d);
    BranchProps(tree, a, x, l);
    assert !InSub(tree, l, x) && !InSub(tree, d, x);
    if n != l {
      OnlyAbove(tree, n, l, d);
    }
  }

  lemma OnlyAbove(tree: seq<Node>, n: nat, l: nat, d: nat)
    requires TreeOk(tree) && n != l && InSub(tree, n, l) && InSub(tree, l, d)
    ensures n < l && n != d && !InSub(tree, l, n) && !InSub(tree, d, n)
  {
    ChainBranch(tree, n, l, d);
  }

  lemma ClimbsTrans(tree: seq<Node>, a: seq<Span>, b: seq<Span>, c: seq<Span>, l: nat, d: nat, d0: set<nat>, d1: set<nat>, d2: set<nat>)
    requires TreeOk(tree) && DepsOk(tree, a) && DepsOk(tree, b) && DepsOk(tree, c) && l < |tree| && InSub(tree, l, d)
    requires Spares(tree, a, b, l) && Spares(tree, b, c, d)
    requires Climbs(tree, a, b, l, d0, d1) && Climbs(tree, b, c, d, d1, d2)
    ensures Climbs(tree, a, c, l, d0, d2)
  {
    hide Spares, ClimbAt;
    forall x: nat | x != l && InSub(tree, x, l)
      ensures ClimbAt(tree, a, c, l, x)
    {
      ChainBranch(tree, x, l, d);
      ClimbAtTrans(tree, a, b, c, l, d, x);
    }
    forall x: nat | x in d2
      ensures x in d0 || Woken(tree, a, c, l, x)
    {
      WokenTrans(tree, a, b, c, l, d, x);
    }
  }

  lemma WokenTrans(tree: seq<Node>, a: seq<Span>, b: seq<Span>, c: seq<Span>, l: nat, d: nat, x: nat)
    requires TreeOk(tree) && DepsOk(tree, a) && DepsOk(tree, b) && DepsOk(tree, c) && l < |tree| && InSub(tree, l, d)
    requires Spares(tree, a, b, l) && Spares(tree, b, c, d)
    ensures Woken(tree, a, b, l, x) || Woken(tree, b, c, d, x) ==> Woken(tree, a, c, l, x)
  {
    if x < |tree| && Top(tree, x) && x != l {
      if InSub(tree, x, d) {
        Comparable(tree, l, x, d);
      }
      if InSub(tree, x, l) {
        OnlyAbove(tree, x, l, d);
      }
    }
  }

  /** Below `l` only loggers that were not registered below it are active. */
  ghost predicate Hush(tree: seq<Node>, s: seq<Span>, t: seq<Span>, l: nat)
    requires TreeOk(tree) && DepsOk(tree, s) && |t| == |tree|
  {
    forall x: nat :: x != l && InSub(tree, l, x) && t[x].active ==> s[x].active && !Reach(tree, s, l, x)
  }

  /** The highest logger that activity at `x` activates: it climbs while a logger is alone below an inactive parent. */
  function Summit(tree: seq<Node>, s: seq<Span>, x: nat): (r: nat)
    requires TreeOk(tree) && |s| == |tree| && x < |tree|
    ensures r <= x && InSub(tree, r, x)
  {
    if Top(tree, x) then x
    else
      var p := tree[x].parent;
      if !s[p].active && s[p].deps <= {x} then
        SubStep(tree, Summit(tree, s, p), x);
        Summit(tree, s, p)
      else x
  }

  lemma SubStep(tree: seq<Node>, r: nat, x: nat)
    requires TreeOk(tree) && x < |tree| && !Top(tree, x)
    ensures InSub(tree, r, tree[x].parent) ==> InSub(tree, r, x)
  {
    assert r != x && InSub(tree, r, tree[x].parent) ==> r < x by { SubBelow(tree, r, tree[x].parent); }
  }

  lemma SubBelow(tree: seq<Node>, r: nat, x: nat)
    requires TreeOk(tree)
    ensures InSub(tree, r, x) ==> r <= x
  {
  }

  /** Activity at `l` would end below an inactive logger that is not registered. */
  predicate Strands(tree: seq<Node>, s: seq<Span>, detached: set<nat>, l: nat)
    requires TreeOk(tree) && DepsOk(tree, s) && l < |tree|
  {
    var r := Summit(tree, s, l);
    r != l && !Top(tree, r) && !Listed(tree, s, detached + {0}, tree[r].parent)
  }

  /** When only active loggers have registrations activity never ends like that. */
  lemma TiedAnchored(tree: seq<Node>, s: seq<Span>, detached: set<nat>, l: nat)
    requires TreeOk(tree) && DepsOk(tree, s) && l < |tree| && Rooted(tree, s, detached)
    ensures !Strands(tree, s, detached, l)
  {
    var r := Summit(tree, s, l);
    if r != l && !Top(tree, r) {
      var q := tree[r].parent;
      SummitStops(tree, s, l);
      assert Tied(s[q]);
      assert s[q].active;
    }
  }

  /** Nor when registered loggers are active. */
  lemma AwakeAnchored(tree: seq<Node>, s: seq<Span>, detached: set<nat>, l: nat)
    requires TreeOk(tree) && DepsOk(tree, s) && l < |tree| && Awake(s) && Enlisted(tree, s, detached)
    ensures !Strands(tree, s, detached, l)
  {
    hide Strands, Summit;
    var r := Summit(tree, s, l);
    if r != l && !Top(tree, r) {
      var q := tree[r].parent;
      SummitStops(tree, s, l);
      if !s[q].active {
        var d :| d in s[q].deps && d != r;
        assert AllActive(s, s[q].deps);
        assert Listed(tree, s, detached + {0}, d);
        ThroughParent(tree, s, detached + {0}, q, d);
      }
    }
    StrandsIs(tree, s, detached, l);
  }

  lemma StrandsIs(tree: seq<Node>, s: seq<Span>, detached: set<nat>, l: nat)
    requires TreeOk(tree) && DepsOk(tree, s) && l < |tree|
    ensures var r := Summit(tree, s, l); Strands(tree, s, detached, l) <==> r != l && !Top(tree, r) && !Listed(tree, s, detached + {0}, tree[r].parent)
  {
  }

  lemma ThroughParent(tree: seq<Node>, s: seq<Span>, roots: set<nat>, q: nat, d: nat)
    requires TreeOk(tree) && DepsOk(tree, s) && q < |tree| && d in s[q].deps && Listed(tree, s, roots, d)
    ensures Listed(tree, s, roots, q)
  {
  }

  lemma {:induction false} SummitStops(tree: seq<Node>, s: seq<Span>, x: nat)
    requires TreeOk(tree) && |s| == |tree| && x < |tree|
    ensures var r := Summit(tree, s, x); Top(tree, r) || s[tree[r].parent].active || !(s[tree[r].parent].deps <= {r})
  {
    if Summit(tree, s, x) != x {
      SummitStops(tree, s, tree[x].parent);
    }
  }

  /** What was activated above `l` lies on the way to the summit. */
  lemma {:induction false} OnTheWay(tree: seq<Node>, s: seq<Span>, t: seq<Span>, l: nat, d0: set<nat>, d1: set<nat>, x: nat)
    requires TreeOk(tree) && DepsOk(tree, s) && Climbs(tree, s, t, l, d0, d1)
    requires x != l && InSub(tree, x, l) && !s[x].active && t[x].active
    ensures Summit(tree, s, l) == Summit(tree, s, x)
    decreases l - x
  {
    assert ClimbAt(tree, s, t, l, x);
    BranchProps(tree, s, x, l);
    var c := Branch(tree, x, l);
    if c != l {
      SubBelow(tree, c, l);
      OnTheWay(tree, s, t, l, d0, d1, c);
    }
  }

  /** After a step at `l` that spares the rest and hushes what is below, an active logger is still listed. */
  lemma {:induction false} StepListed(tree: seq<Node>, s: seq<Span>, t: seq<Span>, l: nat, before: set<nat>, detached: set<nat>, x: nat)
    requires TreeOk(tree) && DepsOk(tree, s) && DepsOk(tree, t) && l < |tree| && Enlisted(tree, s, before) && before <= detached
    requires Spares(tree, s, t, l) && Upward(tree, s, t, l) && Known(tree, s, t, detached) && Hush(tree, s, t, l)
    requires Climbs(tree, s, t, l, before, detached) && !Strands(tree, s, before, l) && (t[l].active ==> l == 0)
    requires x < |tree| && t[x].active
    ensures Listed(tree, t, detached + {0}, x)
  {
    hide Climbs, Strands, Summit;
    if x == l {
      assert TopOf(tree, 0) == 0;
    } else if InSub(tree, l, x) {
      assert Listed(tree, s, before + {0}, x);
      var r := TopOf(tree, x);
      Comparable(tree, r, l, x);
      ReachThrough(tree, s, r, l, x);
    } else if s[x].active {
      assert Listed(tree, s, before + {0}, x);
      ReachOutside(tree, s, t, l, TopOf(tree, x), x);
    } else {
      assert UpAt(tree, s, t, l, x);
      if !Top(tree, x) {
        var p := tree[x].parent;
        assert InSub(tree, p, p);
        SubTrans(tree, p, x, l);
        assert !InSub(tree, l, p);
        if t[p].active {
          StepListed(tree, s, t, l, before, detached, p);
        } else {
          OnTheWay(tree, s, t, l, before, detached, x);
          AtSummit(tree, s, before, l, x);
          ReachOutside(tree, s, t, l, TopOf(tree, p), p);
        }
      }
    }
  }

  lemma AtSummit(tree: seq<Node>, s: seq<Span>, detached: set<nat>, l: nat, x: nat)
    requires TreeOk(tree) && DepsOk(tree, s) && l < |tree| && x < |tree| && x != l && !Top(tree, x) && !Strands(tree, s, detached, l)
    requires Summit(tree, s, l) == Summit(tree, s, x) && !(s[tree[x].parent].deps <= {x})
    ensures Listed(tree, s, detached + {0}, tree[x].parent)
  {
  }

  // ---- A complaint that leaves a logger stranded -----------------------------------------

  /** An activated logger passes its activity on to the summit. */
  lemma {:induction false} UpToSummit(tree: seq<Node>, s: seq<Span>, t: seq<Span>, l: nat, x: nat)
    requires TreeOk(tree) && |s| == |t| == |tree| && l < |tree| && x != l && InSub(tree, x, l) && !s[x].active && t[x].active
    requires Upward(tree, s, t, l)
    ensures t[Summit(tree, s, x)].active && !s[Summit(tree, s, x)].active
  {
    if Summit(tree, s, x) != x {
      var p := tree[x].parent;
      assert InSub(tree, p, x) by { SubStep(tree, p, x); SubSelf(tree, p); }
      SubTrans(tree, p, x, l);
      SubBelow(tree, x, l);
      assert !InSub(tree, l, x) by { SubBelow(tree, l, x); }
      assert UpAt(tree, s, t, l, x);
      UpToSummit(tree, s, t, l, p);
    }
  }

  /** Above a logger that is not activated nothing is registered anew. */
  lemma {:induction false} Unmoved(tree: seq<Node>, s: seq<Span>, t: seq<Span>, l: nat, d0: set<nat>, d1: set<nat>, a: nat, q: nat)
    requires TreeOk(tree) && DepsOk(tree, s) && DepsOk(tree, t) && Climbs(tree, s, t, l, d0, d1)
    requires q != l && InSub(tree, q, l) && (s[q].active || !t[q].active) && InSub(tree, a, q)
    ensures Reach(tree, t, a, q) ==> Reach(tree, s, a, q)
    ensures s[a].active || !t[a].active
  {
    if q != a {
      var p := tree[q].parent;
      SubBelow(tree, a, q);
      assert InSub(tree, p, q) by { SubStep(tree, p, q); SubSelf(tree, p); }
      SubTrans(tree, p, q, l);
      SubBelow(tree, q, l);
      ChainBranch(tree, p, q, l);
      assert Branch(tree, p, q) == q;
      assert ClimbAt(tree, s, t, l, p);
      Unmoved(tree, s, t, l, d0, d1, a, p);
    }
  }

  lemma StrandedAt(tree: seq<Node>, s: seq<Span>, t: seq<Span>, l: nat, d0: set<nat>, d1: set<nat>)
    requires TreeOk(tree) && DepsOk(tree, s) && DepsOk(tree, t) && l < |tree| && !Top(tree, l) && Enlisted(tree, s, d0)
    requires Upward(tree, s, t, l) && Climbs(tree, s, t, l, d0, d1) && Strands(tree, s, d0, l)
    requires s[tree[l].parent].deps <= {l} ==> t[tree[l].parent].active
    ensures t[Summit(tree, s, l)].active && !Listed(tree, t, d1 + {0}, Summit(tree, s, l))
  {
    hide Upward, Climbs, Enlisted;
    var r, p := Summit(tree, s, l), tree[l].parent;
    assert InSub(tree, p, l) by { SubStep(tree, p, l); SubSelf(tree, p); }
    UpToSummit(tree, s, t, l, p);
    NotListedAbove(tree, s, t, l, d0, d1, r);
  }

  lemma NotListedAbove(tree: seq<Node>, s: seq<Span>, t: seq<Span>, l: nat, d0: set<nat>, d1: set<nat>, r: nat)
    requires TreeOk(tree) && DepsOk(tree, s) && DepsOk(tree, t) && l < |tree| && !Top(tree, l) && Enlisted(tree, s, d0)
    requires Climbs(tree, s, t, l, d0, d1) && r == Summit(tree, s, l) && r != l && !Top(tree, r)
    requires !Listed(tree, s, d0 + {0}, tree[r].parent)
    ensures !Listed(tree, t, d1 + {0}, r)
  {
    var q := tree[r].parent;
    assert !s[q].active;
    SummitStops(tree, s, l);
    assert InSub(tree, q, r) by { SubStep(tree, q, r); SubSelf(tree, q); }
    SubTrans(tree, q, r, l);
    SubBelow(tree, r, l);
    ChainBranch(tree, q, r, l);
    assert Branch(tree, q, r) == r;
    assert ClimbAt(tree, s, t, l, q);
    assert !t[q].active;
    var a := TopOf(tree, q);
    assert TopOf(tree, r) == a;
    Unmoved(tree, s, t, l, d0, d1, a, q);
    OnlyWoken(tree, s, t, l, d0, d1, a);
    assert Reach(tree, t, a, r) ==> Reach(tree, t, a, q);
  }

  lemma OnlyWoken(tree: seq<Node>, s: seq<Span>, t: seq<Span>, l: nat, d0: set<nat>, d1: set<nat>, a: nat)
    requires TreeOk(tree) && Climbs(tree, s, t, l, d0, d1) && a < |tree| && a != l && (s[a].active || !t[a].active)
    ensures a in d1 ==> a in d0
  {
    assert !Woken(tree, s, t, l, a);
  }

  lemma EnlistedStep(tree: seq<Node>, s: seq<Span>, t: seq<Span>, l: nat, before: set<nat>, detached: set<nat>)
    requires TreeOk(tree) && DepsOk(tree, s) && DepsOk(tree, t) && l < |tree| && Enlisted(tree, s, before) && before <= detached
    requires Spares(tree, s, t, l) && Upward(tree, s, t, l) && Known(tree, s, t, detached) && Hush(tree, s, t, l)
    requires Climbs(tree, s, t, l, before, detached) && !Strands(tree, s, before, l) && (t[l].active ==> l == 0)
    ensures Enlisted(tree, t, detached)
  {
    hide Spares, Upward, Known, Hush, Listed, Climbs, Strands;
    forall x: nat | x < |tree| && t[x].active
      ensures Listed(tree, t, detached + {0}, x)
    {
      StepListed(tree, s, t, l, before, detached, x);
    }
  }

  /** Registrations and activity are all that being enlisted looks at. */
  lemma EnlistedQuiet(tree: seq<Node>, s: seq<Span>, t: seq<Span>, detached: set<nat>)
    requires TreeOk(tree) && DepsOk(tree, s) && DepsOk(tree, t) && SameButBoring(s, t) && Enlisted(tree, s, detached)
    ensures Enlisted(tree, t, detached)
  {
    forall x: nat | x < |tree| && t[x].active
      ensures Listed(tree, t, detached + {0}, x)
    {
      assert Listed(tree, s, detached + {0}, x);
      ReachMono(tree, s, t, TopOf(tree, x), x);
    }
  }

  /** Once `l` is cut off its parent nothing of its subtree is listed. */
  lemma CutOff(tree: seq<Node>, t: seq<Span>, l: nat, x: nat, roots: set<nat>)
    requires TreeOk(tree) && DepsOk(tree, t) && l < |tree| && !Top(tree, l) && l !in t[tree[l].parent].deps && InSub(tree, l, x)
    ensures !Listed(tree, t, roots, x)
  {
    if Listed(tree, t, roots, x) {
      var r := TopOf(tree, x);
      Comparable(tree, r, l, x);
      ReachThrough(tree, t, r, l, x);
    }
  }

  /** Below a top logger with no registrations nothing is listed. */
  lemma CutBelow(tree: seq<Node>, t: seq<Span>, l: nat, x: nat, roots: set<nat>)
    requires TreeOk(tree) && DepsOk(tree, t) && l < |tree| && Top(tree, l) && t[l].deps == {} && InSub(tree, l, x) && x != l
    ensures !Listed(tree, t, roots, x)
  {
    RootSub(tree, l, x);
    BranchProps(tree, t, l, x);
  }

  /** A logger at rest stays so, and nothing below it is woken. */
  ghost predicate Rests(tree: seq<Node>, s: seq<Span>, t: seq<Span>, l: nat)
    requires TreeOk(tree) && |s| == |t| == |tree| && l < |tree|
  {
    Resting(s[l]) ==> Resting(t[l]) && forall x: nat :: InSub(tree, l, x) && t[x].active ==> s[x].active
  }

  /** done on a logger below which nobody was done before: it rests, and what was registered below is inactive. */
  ghost predicate Quiets(tree: seq<Node>, s: seq<Span>, t: seq<Span>, l: nat)
    requires TreeOk(tree) && DepsOk(tree, s) && |t| == |tree| && l < |tree|
  {
    Ready(tree, s, l) ==> Resting(t[l]) && Hush(tree, s, t, l)
  }

  /** recursiveDone when only direct dependents may have been done before. */
  ghost predicate Hushes(tree: seq<Node>, s: seq<Span>, t: seq<Span>, l: nat, final: bool)
    requires TreeOk(tree) && DepsOk(tree, s) && |t| == |tree| && l < |tree|
  {
    && (Clean(tree, s, l, false) ==> Hush(tree, s, t, l))
    && (Clean(tree, s, l, final) ==> !t[l].active)
  }

  /** What recursiveDone keeps. */
  ghost predicate RecursiveKeeps(tree: seq<Node>, s: seq<Span>, t: seq<Span>, l: nat, final: bool, before: set<nat>, after: set<nat>)
    requires TreeOk(tree) && DepsOk(tree, s) && |t| == |tree| && l < |tree|
  {
    KeepsTiedBut(s, t, {l}) && Known(tree, s, t, after) && Climbs(tree, s, t, l, before, after) && Hushes(tree, s, t, l, final)
  }

  /** What done keeps.  A detached logger leaves the set of those the request knows of. */
  ghost predicate DoneKeeps(tree: seq<Node>, s: seq<Span>, t: seq<Span>, l: nat, late: nat, before: set<nat>, after: set<nat>)
    requires TreeOk(tree) && DepsOk(tree, s) && DepsOk(tree, t) && l < |tree|
  {
    && KeepsTied(s, t) && Quiets(tree, s, t, l)
    && (s[l].deps == {} ==> StillBelow(tree, s, t, l))
    && if Top(tree, l) then
         && (Enlisted(tree, s, before) && Clean(tree, s, l, l != 0) ==> Enlisted(tree, t, after))
         && l !in after && t[l].deps == {}
         && (StaleUnder(tree, s, l, late, true) ==> var p := tree[late].parent; t[p].active || p == l == 0)
       else Known(tree, s, t, after) && Climbs(tree, s, t, l, before, after)
  }

  /** What activity keeps. */
  ghost predicate ActivityKeeps(tree: seq<Node>, s: seq<Span>, t: seq<Span>, l: nat, before: set<nat>, after: set<nat>)
    requires TreeOk(tree) && DepsOk(tree, s) && DepsOk(tree, t) && l < |tree|
  {
    && KeepsTied(s, t) && Rests(tree, s, t, l)
    && (s[l].deps == {} ==> StillBelow(tree, s, t, l)) && (s[l].active ==> t[l].active)
    && if Top(tree, l) then Enlisted(tree, s, before) && (s[l].active || Resting(s[l])) ==> Enlisted(tree, t, after)
       else Known(tree, s, t, after) && Climbs(tree, s, t, l, before, after)
  }

  lemma ActivityTrans(tree: seq<Node>, a: seq<Span>, b: seq<Span>, c: seq<Span>, l: nat, da: set<nat>, db: set<nat>, dc: set<nat>)
    requires TreeOk(tree) && DepsOk(tree, a) && DepsOk(tree, b) && DepsOk(tree, c) && l < |tree|
    requires ActivityKeeps(tree, a, b, l, da, db) && ActivityKeeps(tree, b, c, l, db, dc)
    requires !Top(tree, l) ==> db <= dc && Spares(tree, a, b, l) && Spares(tree, b, c, l)
    ensures ActivityKeeps(tree, a, c, l, da, dc)
  {
    hide Enlisted, InSub, Climbs, Spares;
    if !Top(tree, l) {
      assert InSub(tree, l, l) by { SubSelf(tree, l); }
      ClimbsTrans(tree, a, b, c, l, l, da, db, dc);
    }
  }

  lemma SubSelf(tree: seq<Node>, l: nat)
    requires TreeOk(tree) && l < |tree|
    ensures InSub(tree, l, l)
  {
  }

  lemma ActivityQuiet(tree: seq<Node>, s: seq<Span>, t: seq<Span>, l: nat, detached: set<nat>)
    requires TreeOk(tree) && DepsOk(tree, s) && DepsOk(tree, t) && l < |tree| && SameButBoring(s, t)
    ensures ActivityKeeps(tree, s, t, l, detached, detached)
  {
    hide Enlisted, Climbs;
    assert forall x: nat :: x < |s| ==> t[x].active == s[x].active && t[x].deps == s[x].deps;
    ClimbsNowhere(tree, s, l, detached);
    ClimbsQuiet(tree, s, s, t, l, detached, detached);
    if Enlisted(tree, s, detached) {
      EnlistedQuiet(tree, s, t, detached);
    }
  }

  lemma Untouched(tree: seq<Node>, s: seq<Span>, l: nat, detached: set<nat>)
    requires TreeOk(tree) && DepsOk(tree, s) && l < |tree|
    ensures ActivityKeeps(tree, s, s, l, detached, detached) && Frame(tree, s, s, l) && Side(tree, s, s, l)
  {
    ActivityQuiet(tree, s, s, l, detached);
    QuietFrame(tree, s, s, l);
    SideQuiet(tree, s, s, l);
  }

  /** hasActivity on an inactive logger: marks upward, perhaps a complaint, and done. */
  lemma ActivityDone(tree: seq<Node>, s: seq<Span>, raised: seq<Span>, quiet: seq<Span>, t: seq<Span>, l: nat,
                     d0: set<nat>, d1: set<nat>, late: nat, d2: set<nat>)
    requires TreeOk(tree) && DepsOk(tree, s) && DepsOk(tree, raised) && DepsOk(tree, quiet) && DepsOk(tree, t) && l < |tree| && !s[l].active
    requires KeepsTied(s, raised) && Known(tree, s, raised, d1) && Raised(s, raised) && raised[l].active && raised[l].deps == s[l].deps
    requires forall x: nat :: l < x < |tree| ==> raised[x] == s[x]
    requires Top(tree, l) ==> raised == s[l := s[l].(active := true)] && d1 == d0 + (if l == 0 then {} else {l})
    requires SameButBoring(raised, quiet) && DoneKeeps(tree, quiet, t, l, late, d1, d2)
    requires !Top(tree, l) ==> d1 <= d2 && Climbs(tree, s, raised, l, d0, d1) && Frame(tree, quiet, t, l)
    ensures ActivityKeeps(tree, s, t, l, d0, d2)
  {
    hide Enlisted, Clean, Reach, Climbs, KeepsTied;
    if !Top(tree, l) {
      ClimbsQuiet(tree, s, raised, quiet, l, d0, d1);
      ClimbsTrans(tree, s, quiet, t, l, l, d0, d1, d2);
    }
    TiedQuiet(raised, quiet);
    TiedTrans(s, raised, quiet);
    TiedTrans(s, quiet, t);
    assert InSub(tree, l, l);
    assert forall x: nat :: InSub(tree, l, x) && x != l ==> l < x;
    if s[l].deps == {} {
      assert Ready(tree, quiet, l) && quiet[l].deps == {};
    }
    if Top(tree, l) && Enlisted(tree, s, d0) && Resting(s[l]) {
      EnlistedWake(tree, s, raised, l, d0, d1);
      EnlistedQuiet(tree, raised, quiet, d1);
      NoDeps(tree, quiet, l);
    }
  }

  lemma NoDeps(tree: seq<Node>, s: seq<Span>, l: nat)
    requires TreeOk(tree) && DepsOk(tree, s) && l < |tree| && s[l].deps == {}
    ensures Clean(tree, s, l, l != 0)
  {
  }

  /** A top logger becomes active. */
  lemma EnlistedWake(tree: seq<Node>, s: seq<Span>, t: seq<Span>, l: nat, before: set<nat>, after: set<nat>)
    requires TreeOk(tree) && DepsOk(tree, s) && DepsOk(tree, t) && l < |tree| && Top(tree, l) && Enlisted(tree, s, before)
    requires t == s[l := s[l].(active := true)] && after == before + (if l == 0 then {} else {l})
    ensures Enlisted(tree, t, after)
  {
    forall x: nat | x < |tree| && t[x].active
      ensures Listed(tree, t, after + {0}, x)
    {
      if x == l {
        assert TopOf(tree, l) == l;
      } else {
        assert Listed(tree, s, before + {0}, x);
        ReachMono(tree, s, t, TopOf(tree, x), x);
      }
    }
  }

  /** A step at `d` leaves alone what is neither above nor below `d`. */
  lemma Apart(tree: seq<Node>, s: seq<Span>, t: seq<Span>, d: nat, x: nat)
    requires TreeOk(tree) && DepsOk(tree, s) && DepsOk(tree, t) && d < |tree| && x < |tree| && !InSub(tree, d, x) && !InSub(tree, x, d)
    requires Frame(tree, s, t, d) && Upward(tree, s, t, d)
    ensures t[x] == s[x].(boring := t[x].boring)
  {
    assert UpAt(tree, s, t, d, x);
    assert InSub(tree, x, x);
    forall c: nat | c in t[x].deps
      ensures c in s[x].deps
    {
      if InSub(tree, c, d) {
        assert InSub(tree, x, c);
        SubTrans(tree, x, c, d);
      }
    }
    assert d !in s[x].deps;
  }

  /** recursiveDone part way: the branches in `todo` are untouched, and what was registered in the others is inactive. */
  ghost predicate CalmSoFar(tree: seq<Node>, s: seq<Span>, t: seq<Span>, l: nat, todo: set<nat>)
    requires TreeOk(tree) && DepsOk(tree, s) && |t| == |tree|
  {
    forall x: nat :: x != l && InSub(tree, l, x) ==>
      if Branch(tree, l, x) in todo then t[x] == s[x].(boring := t[x].boring)
      else t[x].active ==> s[x].active && !Reach(tree, s, l, x)
  }

  ghost predicate LoopKeeps(tree: seq<Node>, s: seq<Span>, t: seq<Span>, l: nat, todo: set<nat>, before: set<nat>, detached: set<nat>)
    requires TreeOk(tree) && DepsOk(tree, s) && l < |tree|
  {
    && |t| == |tree| && todo <= s[l].deps
    && (forall x: nat :: x < |s| && x != l && Tied(s[x]) ==> Tied(t[x])) && Wakes(s, t, {l})
    && Known(tree, s, t, detached) && Climbs(tree, s, t, l, before, detached) && Spares(tree, s, t, l)
    && (Clean(tree, s, l, false) ==> CalmSoFar(tree, s, t, l, todo))
  }

  lemma {:induction false} LoopKeepsStart(tree: seq<Node>, s: seq<Span>, t: seq<Span>, l: nat, final: bool, detached: set<nat>)
    requires TreeOk(tree) && DepsOk(tree, s) && l < |tree|
    requires t == s[l := Retire(s[l], final).(deps := s[l].deps)]
    ensures LoopKeeps(tree, s, t, l, s[l].deps, detached, detached)
  {
    assert InSub(tree, l, l);
    forall x: nat | x != l && InSub(tree, l, x)
      ensures Reach(tree, s, l, x) ==> Branch(tree, l, x) in s[l].deps
    {
      BranchProps(tree, s, l, x);
    }
  }

  lemma {:induction false} LoopKeepsStep(tree: seq<Node>, s: seq<Span>, t: seq<Span>, u: seq<Span>, l: nat, todo: set<nat>, d: nat, late: nat,
                                         before: set<nat>, mid: set<nat>, detached: set<nat>)
    requires TreeOk(tree) && DepsOk(tree, s) && DepsOk(tree, t) && DepsOk(tree, u) && l < |tree| && d < |tree|
    requires LoopKeeps(tree, s, t, l, todo, before, mid) && d in todo && mid <= detached
    requires DoneKeeps(tree, t, u, d, late, mid, detached) && Frame(tree, t, u, d) && Upward(tree, t, u, d)
    ensures LoopKeeps(tree, s, u, l, todo - {d}, before, detached)
  {
    hide CalmSoFar, Enlisted, Quiets, Clean, Frame, Upward, StaleUnder, Climbs, Spares;
    KnownTrans(tree, s, t, u, mid, detached);
    SubOfChild(tree, l, d, d);
    ChildSpares(tree, s, t, u, l, d);
    ClimbsTrans(tree, s, t, u, l, d, before, mid, detached);
    if Clean(tree, s, l, false) {
      CalmStep(tree, s, t, u, l, todo, d);
    }
  }

  lemma ChildSpares(tree: seq<Node>, s: seq<Span>, t: seq<Span>, u: seq<Span>, l: nat, d: nat)
    requires TreeOk(tree) && DepsOk(tree, s) && DepsOk(tree, t) && l < d < |tree| && tree[d].parent == l && !tree[d].detached
    requires Spares(tree, s, t, l) && Frame(tree, t, u, d)
    ensures Spares(tree, t, u, d) && Spares(tree, s, u, l) && InSub(tree, l, d)
  {
    assert InSub(tree, l, l);
    forall x: nat | x < |tree| && !InSub(tree, l, x)
      ensures !InSub(tree, d, x) && d !in s[x].deps
    {
      if InSub(tree, d, x) {
        SubTrans(tree, l, d, x);
      }
    }
  }

  lemma {:induction false} CalmStep(tree: seq<Node>, s: seq<Span>, t: seq<Span>, u: seq<Span>, l: nat, todo: set<nat>, d: nat)
    requires TreeOk(tree) && DepsOk(tree, s) && DepsOk(tree, t) && DepsOk(tree, u) && l < |tree| && d < |tree|
    requires todo <= s[l].deps && d in todo && Clean(tree, s, l, false) && CalmSoFar(tree, s, t, l, todo)
    requires Quiets(tree, t, u, d) && Frame(tree, t, u, d) && Upward(tree, t, u, d)
    ensures CalmSoFar(tree, s, u, l, todo - {d})
  {
    hide Ready, Frame, Upward;
    forall y: nat | InSub(tree, d, y)
      ensures y != l && InSub(tree, l, y) && Branch(tree, l, y) == d && t[y] == s[y].(boring := t[y].boring)
    {
      SubOfChild(tree, l, d, y);
    }
    assert Ready(tree, s, d);
    ReadyLocal(tree, s, t, d);
    forall x: nat | x != l && InSub(tree, l, x)
      ensures if Branch(tree, l, x) in todo - {d} then u[x] == s[x].(boring := u[x].boring)
              else u[x].active ==> s[x].active && !Reach(tree, s, l, x)
    {
      CalmAt(tree, s, t, u, l, todo, d, x);
    }
  }

  lemma {:induction false} CalmAt(tree: seq<Node>, s: seq<Span>, t: seq<Span>, u: seq<Span>, l: nat, todo: set<nat>, d: nat, x: nat)
    requires TreeOk(tree) && DepsOk(tree, s) && DepsOk(tree, t) && DepsOk(tree, u) && l < |tree|
    requires todo <= s[l].deps && d in todo && CalmSoFar(tree, s, t, l, todo)
    requires Hush(tree, t, u, d) && Resting(u[d]) && Frame(tree, t, u, d) && Upward(tree, t, u, d)
    requires forall y: nat :: InSub(tree, d, y) ==> t[y] == s[y].(boring := t[y].boring)
    requires x != l && InSub(tree, l, x)
    ensures if Branch(tree, l, x) in todo - {d} then u[x] == s[x].(boring := u[x].boring)
            else u[x].active ==> s[x].active && !Reach(tree, s, l, x)
  {
    hide Frame, Upward;
    SubOfChild(tree, l, d, x);
    BranchProps(tree, s, l, x);
    if Branch(tree, l, x) == d {
      ReachLocal(tree, s, t, d, x);
    } else {
      assert !InSub(tree, x, d);
      Apart(tree, t, u, d, x);
    }
  }

  /** The parts of what done does that concern the loggers outside of the subtree. */
  lemma DoneSides(tree: seq<Node>, s: seq<Span>, t: seq<Span>, l: nat, explicit: bool, late: nat, before: seq<BaseCall>, after: seq<BaseCall>)
    requires TreeOk(tree) && DepsOk(tree, s) && DepsOk(tree, t) && l < |tree| && DoneEffect(tree, s, t, l, explicit, late, before, after)
    ensures Frame(tree, s, t, l) && Upward(tree, s, t, l)
  {
  }

  lemma LoopKeepsEnd(tree: seq<Node>, s: seq<Span>, t: seq<Span>, l: nat, final: bool, late: nat, d0: set<nat>, d1: set<nat>, before: seq<BaseCall>, after: seq<BaseCall>)
    requires TreeOk(tree) && DepsOk(tree, s) && l < |tree| && LoopKeeps(tree, s, t, l, {}, d0, d1)
    requires RecursiveEffect(tree, s, t, l, final, late, before, after)
    requires Clean(tree, s, l, final) ==> ExactDone(tree, s, t, l, final, before, after)
    ensures RecursiveKeeps(tree, s, t, l, final, d0, d1)
  {
    hide Clean, Reach, InSub, Climbs, Spares;
  }

  /** recursiveDone on a top logger keeps active loggers registered when only direct dependents of the request itself were done. */
  lemma RecursiveEnlisted(tree: seq<Node>, s: seq<Span>, t: seq<Span>, l: nat, late: nat, d0: set<nat>, d1: set<nat>, before: seq<BaseCall>, after: seq<BaseCall>)
    requires TreeOk(tree) && DepsOk(tree, s) && DepsOk(tree, t) && l < |tree| && Enlisted(tree, s, d0) && d0 <= d1 && Clean(tree, s, l, l != 0)
    requires RecursiveEffect(tree, s, t, l, true, late, before, after) && RecursiveKeeps(tree, s, t, l, true, d0, d1) && Top(tree, l)
    ensures Enlisted(tree, t, d1)
  {
    hide Enlisted, Upward, Visited, Climbs, Listed;
    assert Spares(tree, s, t, l);
    assert Summit(tree, s, l) == l;
    EnlistedStep(tree, s, t, l, d0, d1);
  }

  /** After a complaint `l` rests still, if nobody below it had been done. */
  lemma QuietsTogether(tree: seq<Node>, s: seq<Span>, t: seq<Span>, u: seq<Span>, v: seq<Span>, l: nat, before: set<nat>, detached: set<nat>)
    requires TreeOk(tree) && DepsOk(tree, s) && |t| == |u| == |v| == |tree| && l < |tree|
    requires RecursiveKeeps(tree, s, t, l, true, before, detached) && t[l].deps == {} && Rests(tree, t, u, l)
    requires forall x: nat :: InSub(tree, l, x) ==> (v[x].active ==> u[x].active) && v[x].deps == u[x].deps
    ensures Quiets(tree, s, v, l)
  {
    hide Reach;
    assert InSub(tree, l, l);
    if Ready(tree, s, l) {
      ReadyIsClean(tree, s, l);
      assert Clean(tree, s, l, false);
    }
  }

  /** done on a registered logger. */
  lemma DoneKept(tree: seq<Node>, s: seq<Span>, t: seq<Span>, u: seq<Span>, l: nat, late: nat, d0: set<nat>, d1: set<nat>, d2: set<nat>,
                 before: seq<BaseCall>, mid: seq<BaseCall>)
    requires TreeOk(tree) && DepsOk(tree, s) && DepsOk(tree, t) && DepsOk(tree, u) && l < |tree| && !Top(tree, l)
    requires RecursiveEffect(tree, s, t, l, true, late, before, mid) && RecursiveKeeps(tree, s, t, l, true, d0, d1)
    requires ActivityKeeps(tree, t, u, l, d1, d2) && d1 <= d2 && Frame(tree, t, u, l)
    ensures DepsOk(tree, Unregister(tree, u, l)) && DoneKeeps(tree, s, Unregister(tree, u, l), l, late, d0, d2)
  {
    hide Enlisted, Hushes, Visited, Upward, Known, StaleUnder, Climbs;
    var v := Unregister(tree, u, l);
    UnregisterDeps(tree, u, l);
    KnownTrans(tree, s, t, u, d1, d2);
    assert InSub(tree, l, l);
    ClimbsTrans(tree, s, t, u, l, l, d0, d1, d2);
    UnregisterKnown(tree, s, u, l, d0, d2);
    assert KeepsTied(s, v);
    assert !InSub(tree, l, tree[l].parent);
    QuietsTogether(tree, s, t, u, v, l, d0, d1);
    assert s[l].deps == {} ==> StillBelow(tree, s, t, l) && StillBelow(tree, t, u, l);
  }

  lemma UnregisterKnown(tree: seq<Node>, s: seq<Span>, u: seq<Span>, l: nat, before: set<nat>, detached: set<nat>)
    requires TreeOk(tree) && l < |tree| && Known(tree, s, u, detached) && Climbs(tree, s, u, l, before, detached)
    ensures Known(tree, s, Unregister(tree, u, l), detached) && Climbs(tree, s, Unregister(tree, u, l), l, before, detached)
  {
    var v := Unregister(tree, u, l);
    forall x: nat | x != l && InSub(tree, x, l)
      ensures ClimbAt(tree, s, v, l, x)
    {
      assert ClimbAt(tree, s, u, l, x);
    }
    forall x: nat | x in detached
      ensures x in before || Woken(tree, s, v, l, x)
    {
      assert x in before || Woken(tree, s, u, l, x);
    }
  }

  /** A flush that a Done brings about touches nothing but the request. */
  ghost predicate Flushed(s: seq<Span>, t: seq<Span>) {
    t == s || (|s| > 0 && s[0].deps == {} && t == s[0 := Retire(s[0], false)])
  }

  lemma Unflushed(s: seq<Span>)
    ensures Flushed(s, s)
  {
  }

  lemma EnlistedLeave(tree: seq<Node>, s: seq<Span>, t: seq<Span>, l: nat, detached: set<nat>)
    requires TreeOk(tree) && DepsOk(tree, s) && DepsOk(tree, t) && l < |tree| && Top(tree, l) && Enlisted(tree, s, detached) && Flushed(s, t)
    requires l == 0 || Resting(s[l])
    ensures Enlisted(tree, t, detached - {l})
  {
    forall x: nat | x < |tree| && t[x].active
      ensures Listed(tree, t, detached - {l} + {0}, x)
    {
      assert s[x].active && Listed(tree, s, detached + {0}, x);
      if l != 0 && TopOf(tree, x) == l {
        CutBelow(tree, s, l, x, detached + {0});
      }
      ReachLocal(tree, s, t, TopOf(tree, x), x);
    }
  }

  /** done on a top logger. */
  lemma TopKept(tree: seq<Node>, s: seq<Span>, t: seq<Span>, u: seq<Span>, v: seq<Span>, l: nat, late: nat,
                d0: set<nat>, d1: set<nat>, d2: set<nat>, before: seq<BaseCall>, mid: seq<BaseCall>)
    requires TreeOk(tree) && DepsOk(tree, s) && DepsOk(tree, t) && DepsOk(tree, u) && DepsOk(tree, v) && l < |tree| && Top(tree, l)
    requires RecursiveEffect(tree, s, t, l, true, late, before, mid) && RecursiveKeeps(tree, s, t, l, true, d0, d1) && d0 <= d1
    requires ActivityKeeps(tree, t, u, l, d1, d2) && Flushed(u, v) && (t[l].active ==> u[l].active)
    ensures DoneKeeps(tree, s, v, l, late, d0, d2 - {l})
  {
    hide Enlisted, Hushes, Visited, Upward, Known, Clean, Passes, Climbs;
    assert KeepsTied(u, v);
    assert InSub(tree, l, l) && (l != 0 ==> !InSub(tree, l, 0));
    QuietsTogether(tree, s, t, u, v, l, d0, d1);
    if Enlisted(tree, s, d0) && Clean(tree, s, l, l != 0) {
      RecursiveEnlisted(tree, s, t, l, late, d0, d1, before, mid);
      RestsAfter(tree, s, t, u, l, d0, d1);
      EnlistedLeave(tree, u, v, l, d2);
    }
    if StaleUnder(tree, s, l, late, true) {
      ReachInSub(tree, s, l, tree[late].parent);
    }
  }

  lemma RestsAfter(tree: seq<Node>, s: seq<Span>, t: seq<Span>, u: seq<Span>, l: nat, before: set<nat>, detached: set<nat>)
    requires TreeOk(tree) && DepsOk(tree, s) && |t| == |u| == |tree| && l < |tree| && Clean(tree, s, l, l != 0)
    requires RecursiveKeeps(tree, s, t, l, true, before, detached) && t[l].deps == {} && Rests(tree, t, u, l)
    ensures l == 0 || Resting(u[l])
  {
  }

  /** Nothing is registered with the top loggers that a flush has handled. */
  ghost predicate Emptied(t: seq<Span>, handled: set<nat>) {
    forall r: nat :: r in handled && r < |t| ==> t[r].deps == {}
  }

  lemma EmptiedStep(tree: seq<Node>, s: seq<Span>, t: seq<Span>, handled: set<nat>, a: nat)
    requires TreeOk(tree) && DepsOk(tree, s) && DepsOk(tree, t) && a < |tree| && Top(tree, a) && a !in handled
    requires forall r: nat :: r in handled && r < |tree| ==> Top(tree, r)
    requires Emptied(s, handled) && Upward(tree, s, t, a) && t[a].deps == {}
    ensures Emptied(t, handled + {a})
  {
    forall r: nat | r in handled && r < |t|
      ensures t[r].deps == {}
    {
      if InSub(tree, a, r) {
        TopsDisjoint(tree, a, r, r);
      }
      assert UpAt(tree, s, t, a, r);
      forall c: nat | c in t[r].deps
        ensures false
      {
        Comparable(tree, c, TopOf(tree, a), a);
      }
    }
  }

  lemma FlushKeeps(tree: seq<Node>, s: seq<Span>, t: seq<Span>, u: seq<Span>, handled: set<nat>, a: nat, final: bool, late: nat, d0: set<nat>, d1: set<nat>,
                   before: seq<BaseCall>, after: seq<BaseCall>)
    requires TreeOk(tree) && DepsOk(tree, t) && DepsOk(tree, u) && a < |tree| && Top(tree, a) && a !in handled
    requires forall r: nat :: r in handled && r < |tree| ==> Top(tree, r)
    requires KeepsTied(s, t) && Emptied(t, handled)
    requires RecursiveEffect(tree, t, u, a, final, late, before, after) && RecursiveKeeps(tree, t, u, a, final, d0, d1)
    ensures KeepsTied(s, u) && Emptied(u, handled + {a})
  {
    hide Emptied, Hushes, Upward, Visited, Climbs;
    EmptiedStep(tree, t, u, handled, a);
  }

  /** A flush of a request with no detached loggers and nothing registered touches only the request. */
  lemma AloneFlush(tree: seq<Node>, s: seq<Span>)
    requires TreeOk(tree) && DepsOk(tree, s) && s[0].deps == {}
    ensures AllClean(tree, s, {0}) && FlushRoots(tree, s, {0}) == s[0 := Retire(s[0], false)]
  {
    forall x: nat | x < |s|
      ensures TopOf(tree, x) == 0 && Reach(tree, s, 0, x) <==> x == 0
    {
      if x != 0 && InSub(tree, 0, x) {
        BranchProps(tree, s, 0, x);
      }
      if Reach(tree, s, 0, x) {
        ReachInSub(tree, s, 0, x);
      }
    }
  }

  lemma NothingHandled(s: seq<Span>)
    ensures KeepsTied(s, s) && Emptied(s, {})
  {
  }

  lemma NothingWoken(tree: seq<Node>, s: seq<Span>, detached: set<nat>)
    requires |s| == |tree|
    requires TreeOk(tree)
    ensures KeepsTied(s, s) && Known(tree, s, s, detached) && Raised(s, s)
    ensures forall l: nat, x: nat :: x < |tree| ==> UpAt(tree, s, s, l, x)
    ensures forall l: nat :: Climbs(tree, s, s, l, detached, detached)
  {
    forall l: nat
      ensures Climbs(tree, s, s, l, detached, detached)
    {
      ClimbsNowhere(tree, s, l, detached);
    }
  }

  /** The span of `l` is marked active and registered with its parent. */
  ghost predicate Marks(tree: seq<Node>, s: seq<Span>, mid: seq<Span>, l: nat, first: bool)
    requires TreeOk(tree) && |s| == |mid| == |tree| && l < |tree|
  {
    var w := s[l := s[l].(active := true)];
    if Top(tree, l) then mid == w && !first
    else
      var p := tree[l].parent;
      mid == w[p := w[p].(deps := w[p].deps + {l})] && first == (mid[p].deps == {l})
  }

  lemma WakeUp(tree: seq<Node>, s: seq<Span>, mid: seq<Span>, t: seq<Span>, l: nat, first: bool)
    requires TreeOk(tree) && |s| == |mid| == |t| == |tree| && l < |tree| && !s[l].active && Marks(tree, s, mid, l, first)
    requires first ==> Raised(mid, t) && t[tree[l].parent].active && forall x: nat :: x < |tree| ==> UpAt(tree, mid, t, tree[l].parent, x)
    requires !first ==> t == mid
    ensures Raised(s, t)
    ensures forall x: nat :: x < |tree| ==> UpAt(tree, s, t, l, x)
  {
    forall x: nat | x < |tree|
      ensures UpAt(tree, s, t, l, x)
    {
      assert InSub(tree, l, l);
      if first {
        var p := tree[l].parent;
        assert UpAt(tree, mid, t, p, x);
        assert forall y: nat :: InSub(tree, y, p) ==> InSub(tree, y, l);
      }
    }
  }

  /** hasActivity(false): `l` is marked and registered, and if it is the first dependent its parent is next. */
  lemma WakeKeeps(tree: seq<Node>, s: seq<Span>, mid: seq<Span>, t: seq<Span>, l: nat, first: bool, detached: set<nat>)
    requires TreeOk(tree) && |s| == |mid| == |t| == |tree| && l < |tree| && !s[l].active
    requires Marks(tree, s, mid, l, first) && (Top(tree, l) ==> l == 0 || l in detached)
    requires first ==> KeepsTied(mid, t) && Known(tree, mid, t, detached) && t[tree[l].parent].active
    requires !first ==> t == mid
    ensures KeepsTied(s, t) && Known(tree, s, t, detached)
  {
    if !Top(tree, l) {
      assert !first ==> s[tree[l].parent].deps != {};
    }
  }

  /** ... and nothing climbs further than that. */
  lemma WakeClimbs(tree: seq<Node>, s: seq<Span>, mid: seq<Span>, t: seq<Span>, l: nat, first: bool, d0: set<nat>, d1: set<nat>, d2: set<nat>)
    requires TreeOk(tree) && DepsOk(tree, s) && |s| == |mid| == |t| == |tree| && l < |tree| && !s[l].active && Marks(tree, s, mid, l, first)
    requires d1 == if tree[l].detached && l != 0 then d0 + {l} else d0
    requires first ==> Climbs(tree, mid, t, tree[l].parent, d1, d2) && t[tree[l].parent].active
    requires first && mid[tree[l].parent].active ==> t == mid && d2 == d1
    requires !first ==> t == mid && d2 == d1
    ensures Climbs(tree, s, t, l, d0, d2)
  {
    assert InSub(tree, l, l);
    forall x: nat | x != l && InSub(tree, x, l)
      ensures ClimbAt(tree, s, t, l, x)
    {
      var p := tree[l].parent;
      BranchProps(tree, s, x, l);
      if x != p && first {
        assert InSub(tree, p, l);
        ChainBranch(tree, x, p, l);
        assert ClimbAt(tree, mid, t, p, x);
      }
    }
    forall x: nat | x in d2
      ensures x in d0 || Woken(tree, s, t, l, x)
    {
      if first && x !in d1 {
        var p := tree[l].parent;
        assert Woken(tree, mid, t, p, x);
        assert InSub(tree, p, p);
        assert x == p || InSub(tree, x, p);
      }
    }
  }
}
