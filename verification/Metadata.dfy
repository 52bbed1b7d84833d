/** Span metadata as trackers keep it (xopbase/xopbaseutil/metadata.go). */
module Metadata {

  datatype Value = IntValue(i: int) | StringValue(s: string)

  datatype Attribute = Attribute(key: string, isString: bool, multiple: bool, distinct: bool, locked: bool)

  datatype Call = Call(attribute: Attribute, value: Value)

  datatype Kept = One(v: Value) | Many(vs: seq<Value>)

  datatype Tracker = Tracker(attribute: Attribute, value: Kept, seen: set<Value>)

  /** Each key belongs to one attribute, and attributes take values of their own type. */
  ghost predicate Consistent(calls: seq<Call>) {
    && (forall i :: 0 <= i < |calls| ==> calls[i].value.StringValue? == calls[i].attribute.isString)
    && forall i, j :: 0 <= i < |calls| && 0 <= j < |calls| && calls[i].attribute.key == calls[j].attribute.key ==>
         calls[i].attribute == calls[j].attribute
  }

  /** The values set for a key, in order. */
  function ValuesOf(calls: seq<Call>, k: string): seq<Value> {
    if calls == [] then []
    else
      var c := calls[|calls| - 1];
      ValuesOf(calls[..|calls| - 1], k) + (if c.attribute.key == k then [c.value] else [])
  }

  function FirstOnes(vs: seq<Value>): seq<Value> {
    if vs == [] then []
    else
      var some := FirstOnes(vs[..|vs| - 1]);
      if vs[|vs| - 1] in some then some else some + [vs[|vs| - 1]]
  }

  /** What is kept: the first value if locked, the last if not, all if multiple, each once if distinct. */
  function Keeps(a: Attribute, vs: seq<Value>): Kept
    requires vs != []
  {
    if a.multiple then Many(if a.distinct then FirstOnes(vs) else vs)
    else One(if a.locked then vs[0] else vs[|vs| - 1])
  }

  /** The trackers after one more value. */
  function Tracked(trackers: map<string, Tracker>, a: Attribute, v: Value): map<string, Tracker> {
    if a.key !in trackers then
      trackers[a.key := Tracker(a, if a.multiple then Many([v]) else One(v), if a.multiple && a.distinct then {v} else {})]
    else
      var t := trackers[a.key];
      trackers[a.key :=
        if t.value.One? then (if t.attribute.locked then t else t.(value := One(v)))
        else if !t.attribute.distinct then t.(value := Many(t.value.vs + [v]))
        else if v in t.seen then t
        else t.(value := Many(t.value.vs + [v]), seen := t.seen + {v})]
  }

  class SpanMetadata {
    var trackers: map<string, Tracker>

    constructor ()
      ensures trackers == map[]
    {
      trackers := map[];
    }

    /** The body shared by MetadataInt64 and MetadataString. */
    method Set(a: Attribute, v: Value)
      requires forall k :: k in trackers ==> trackers[k].value.Many? == trackers[k].attribute.multiple
      modifies this
      ensures trackers == Tracked(old(trackers), a, v)
    {
      var loaded := a.key in trackers;
      var t := if loaded then trackers[a.key] else Tracker(a, One(v), {});
      if t.attribute.multiple {
        if t.attribute.distinct {
          if loaded && v in t.seen {
            assert trackers == trackers[a.key := t];
            return;
          }
          t := t.(seen := t.seen + {v});
        }
        t := t.(value := if loaded then Many(t.value.vs + [v]) else Many([v]));
      } else {
        if loaded && t.attribute.locked {
          assert trackers == trackers[a.key := t];
          return;
        }
        t := t.(value := One(v));
      }
      assert {} + {v} == {v};
      trackers := trackers[a.key := t];
    }
  }

  /** The trackers hold what the calls amount to. */
  ghost predicate Tracks(trackers: map<string, Tracker>, calls: seq<Call>) {
    && (forall k :: k in trackers <==> ValuesOf(calls, k) != [])
    && forall k :: k in trackers ==> TracksOne(k, trackers[k], calls)
  }

  ghost predicate TracksOne(k: string, t: Tracker, calls: seq<Call>) {
    var vs := ValuesOf(calls, k);
    && vs != [] && t.attribute.key == k && Call(t.attribute, vs[0]) in calls
    && t.value == Keeps(t.attribute, vs)
    && (t.attribute.multiple && t.attribute.distinct ==> forall v :: v in t.seen <==> v in t.value.vs)
  }

  lemma FirstOnesSnoc(vs: seq<Value>, v: Value)
    ensures FirstOnes(vs + [v]) == if v in FirstOnes(vs) then FirstOnes(vs) else FirstOnes(vs) + [v]
  {
    assert (vs + [v])[..|vs|] == vs;
  }

  /** Where a value occurs first. */
  function FirstAt(vs: seq<Value>, v: Value): (i: nat)
    requires v in vs
    ensures i < |vs| && vs[i] == v && v !in vs[..i]
  {
    if vs[0] == v then 0
    else
      assert vs == [vs[0]] + vs[1..];
      var i := FirstAt(vs[1..], v);
      assert vs[..1 + i] == [vs[0]] + vs[1..][..i];
      1 + i
  }

  lemma FirstAtKept(vs: seq<Value>, w: Value, v: Value)
    requires v in vs
    ensures FirstAt(vs + [w], v) == FirstAt(vs, v)
  {
    var i := FirstAt(vs, v);
    assert (vs + [w])[i] == v && (vs + [w])[..i] == vs[..i];
  }

  /** Each value once, in the order in which the values occur first. */
  lemma {:induction false} FirstOnesInOrder(vs: seq<Value>)
    ensures forall v :: v in FirstOnes(vs) <==> v in vs
    ensures forall i, j :: 0 <= i < j < |FirstOnes(vs)| ==> FirstAt(vs, FirstOnes(vs)[i]) < FirstAt(vs, FirstOnes(vs)[j])
  {
    if vs != [] {
      var past, w := vs[..|vs| - 1], vs[|vs| - 1];
      assert vs == past + [w];
      FirstOnesInOrder(past);
      FirstOnesSnoc(past, w);
      hide FirstAt, FirstOnes;
      forall v | v in past
        ensures FirstAt(vs, v) == FirstAt(past, v)
      {
        FirstAtKept(past, w, v);
      }
      assert w !in past ==> FirstAt(vs, w) == |past|;
    }
  }

  lemma NewOne(trackers: map<string, Tracker>, calls: seq<Call>, a: Attribute, v: Value)
    requires a.key !in trackers && ValuesOf(calls, a.key) == []
    ensures ValuesOf(calls + [Call(a, v)], a.key) == [v]
    ensures TracksOne(a.key, Tracked(trackers, a, v)[a.key], calls + [Call(a, v)])
  {
    var more := calls + [Call(a, v)];
    FirstOnesSnoc([], v);
    assert [] + [v] == [v] && FirstOnes([]) == [];
    assert more[|calls|] == Call(a, v);
  }

  lemma MoreOne(trackers: map<string, Tracker>, calls: seq<Call>, a: Attribute, v: Value)
    requires a.key in trackers && TracksOne(a.key, trackers[a.key], calls)
    ensures TracksOne(a.key, Tracked(trackers, a, v)[a.key], calls + [Call(a, v)])
  {
    hide FirstOnes;
    var t := trackers[a.key];
    var vs := ValuesOf(calls, a.key);
    FirstOnesSnoc(vs, v);
    assert Call(t.attribute, vs[0]) in calls + [Call(a, v)];
    assert (vs + [v])[0] == vs[0];
  }

  lemma OtherOne(t: Tracker, calls: seq<Call>, c: Call, k: string)
    requires TracksOne(k, t, calls) && c.attribute.key != k
    ensures TracksOne(k, t, calls + [c])
  {
    assert ValuesOf(calls, k) + [] == ValuesOf(calls, k);
  }

  lemma TracksStep(trackers: map<string, Tracker>, calls: seq<Call>, a: Attribute, v: Value)
    requires Tracks(trackers, calls)
    ensures Tracks(Tracked(trackers, a, v), calls + [Call(a, v)])
  {
    hide TracksOne;
    var more := calls + [Call(a, v)];
    var after := Tracked(trackers, a, v);
    assert forall k :: k in after <==> ValuesOf(more, k) != [];
    forall k | k in after ensures TracksOne(k, after[k], more) {
      if k != a.key {
        OtherOne(trackers[k], calls, Call(a, v), k);
      } else if k in trackers {
        MoreOne(trackers, calls, a, v);
      } else {
        NewOne(trackers, calls, a, v);
      }
    }
  }
}
