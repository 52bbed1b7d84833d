/** The immutable tree of span-owning loggers and the registrations kept on it.

    A logger is named by its index.  Index 0 is the request; every other logger
    has a parent with a smaller index.  A logger is "top" when it is the request
    or was created detached: a top logger is not registered with its parent. */
module SpanTree {

  datatype Node = Node(parent: nat, detached: bool)

  /** The fields of a span that change during its life. */
  datatype Span = Span(active: bool, doneCount: nat, boring: nat, deps: set<nat>)

  ghost predicate TreeOk(tree: seq<Node>) {
    && |tree| > 0
    && tree[0] == Node(0, false)
    && forall i :: 0 < i < |tree| ==> tree[i].parent < i
  }

  /** Only non-detached children are ever registered in `deps`. */
  ghost predicate DepsOk(tree: seq<Node>, s: seq<Span>) {
    && |s| == |tree|
    && forall i: nat, d: nat {:trigger d in s[i].deps} :: i < |s| && d in s[i].deps ==> i < d < |tree| && tree[d].parent == i && !tree[d].detached
  }

  predicate Top(tree: seq<Node>, l: nat)
    requires l < |tree|
  {
    l == 0 || tree[l].detached
  }

  /** `x` is `l` or a descendant of `l` with no detached logger on the way down. */
  predicate InSub(tree: seq<Node>, l: nat, x: nat)
    requires TreeOk(tree)
  {
    x < |tree| &&
    (x == l || (l < x && !tree[x].detached && InSub(tree, l, tree[x].parent)))
  }

  /** `x` can be found from `l` by following registrations only. */
  predicate Reach(tree: seq<Node>, s: seq<Span>, l: nat, x: nat)
    requires TreeOk(tree) && DepsOk(tree, s)
  {
    x < |tree| &&
    (x == l || (l < x && x in s[tree[x].parent].deps && Reach(tree, s, l, tree[x].parent)))
  }

  /** The child of `l` whose subtree holds `x`. */
  function Branch(tree: seq<Node>, l: nat, x: nat): nat
    requires TreeOk(tree) && x != l && InSub(tree, l, x)
  {
    if tree[x].parent == l then x else Branch(tree, l, tree[x].parent)
  }

  lemma {:induction false} ReachInSub(tree: seq<Node>, s: seq<Span>, l: nat, x: nat)
    requires TreeOk(tree) && DepsOk(tree, s) && Reach(tree, s, l, x)
    ensures InSub(tree, l, x)
  {
    if x != l {
      ReachInSub(tree, s, l, tree[x].parent);
    }
  }

  lemma {:induction false} BranchProps(tree: seq<Node>, s: seq<Span>, l: nat, x: nat)
    requires TreeOk(tree) && DepsOk(tree, s) && x != l && InSub(tree, l, x)
    ensures var d := Branch(tree, l, x);
            && l < d < |tree| && tree[d].parent == l && !tree[d].detached && InSub(tree, d, x)
            && (Reach(tree, s, l, x) <==> d in s[l].deps && Reach(tree, s, d, x))
  {
    if tree[x].parent != l {
      BranchProps(tree, s, l, tree[x].parent);
    }
  }

  /** The subtree of a child is exactly the branch through that child. */
  lemma {:induction false} SubOfChild(tree: seq<Node>, l: nat, d: nat, x: nat)
    requires TreeOk(tree) && l < d < |tree| && tree[d].parent == l && !tree[d].detached
    ensures InSub(tree, d, x) <==> InSub(tree, l, x) && x != l && Branch(tree, l, x) == d
  {
    if x == d {
      assert InSub(tree, l, l);
    } else if l < x < |tree| && !tree[x].detached {
      SubOfChild(tree, l, d, tree[x].parent);
      assert InSub(tree, d, tree[x].parent) ==> d < x;
    }
  }

  /** Registrations that only grow inside a subtree keep what was reachable. */
  lemma {:induction false} ReachMono(tree: seq<Node>, s: seq<Span>, t: seq<Span>, l: nat, x: nat)
    requires TreeOk(tree) && DepsOk(tree, s) && DepsOk(tree, t)
    requires forall y: nat :: InSub(tree, l, y) ==> s[y].deps <= t[y].deps
    requires Reach(tree, s, l, x)
    ensures Reach(tree, t, l, x)
  {
    if x != l {
      ReachInSub(tree, s, l, tree[x].parent);
      ReachMono(tree, s, t, l, tree[x].parent);
    }
  }

  /** Two different top loggers own disjoint subtrees. */
  lemma {:induction false} TopsDisjoint(tree: seq<Node>, a: nat, b: nat, x: nat)
    requires TreeOk(tree) && a < |tree| && b < |tree| && Top(tree, a) && Top(tree, b)
    requires InSub(tree, a, x) && InSub(tree, b, x)
    ensures a == b
  {
    if x != a && x != b {
      TopsDisjoint(tree, a, b, tree[x].parent);
    }
  }

  lemma {:induction false} SubTrans(tree: seq<Node>, a: nat, b: nat, x: nat)
    requires TreeOk(tree) && InSub(tree, a, b) && InSub(tree, b, x)
    ensures InSub(tree, a, x)
  {
    if x != b {
      SubTrans(tree, a, b, tree[x].parent);
    }
  }

  lemma OnlyOne(s: set<nat>, x: nat)
    requires x in s
    ensures |s| == 1 <==> s == {x}
  {
    assert |s - {x}| == |s| - 1;
    assert s == (s - {x}) + {x};
  }

  /** The top logger whose non-detached chain `x` belongs to. */
  function TopOf(tree: seq<Node>, x: nat): (r: nat)
    requires TreeOk(tree) && x < |tree|
    ensures r < |tree| && Top(tree, r) && InSub(tree, r, x)
  {
    if Top(tree, x) then x else TopOf(tree, tree[x].parent)
  }

  /** Reachability below `l` only looks at registrations below `l`. */
  lemma {:induction false} ReachLocal(tree: seq<Node>, s: seq<Span>, t: seq<Span>, l: nat, x: nat)
    requires TreeOk(tree) && DepsOk(tree, s) && DepsOk(tree, t)
    requires forall y: nat :: InSub(tree, l, y) ==> s[y].deps == t[y].deps
    ensures Reach(tree, s, l, x) <==> Reach(tree, t, l, x)
  {
    if Reach(tree, s, l, x) {
      ReachMono(tree, s, t, l, x);
    }
    if Reach(tree, t, l, x) {
      ReachMono(tree, t, s, l, x);
    }
  }

  /** Of the children of one parent, only `l` itself is above `l`. */
  lemma OnlySelf(tree: seq<Node>, y: nat, l: nat)
    requires TreeOk(tree) && y < |tree| && l < |tree| && !Top(tree, l) && y != 0 && tree[y].parent == tree[l].parent
    requires InSub(tree, y, l)
    ensures y == l
  {
  }

}
