/** Span attributes kept as JSON text (xopjson/xopjsonutil/attributes.go). */
module Attributes {
  import opened Options
  import Escapes
  import Decimal
  import Marshal
  import Runes
  import opened Metadata

  datatype Single = Single(keyValue: string, keyLen: nat, changed: bool)

  datatype Multi = Multi(buf: string, distinct: Option<set<string>>, changed: bool)

  /** The encoding of a key and its colon, made when the attribute was registered. */
  function JsonKey(k: string): string {
    "\"" + Marshal.Body(k) + "\":"
  }

  function Encoded(v: Value): string {
    match v
    case IntValue(i) => Decimal.Of(i)
    case StringValue(s) => "\"" + Escapes.Body(s) + "\""
  }

  function Joined(vs: seq<Value>): string {
    if vs == [] then "" else if |vs| == 1 then Encoded(vs[0]) else Encoded(vs[0]) + "," + Joined(vs[1..])
  }

  // ---- Reading the text back --------------------------------------------------

  function DecodeValue(t: string): Option<(Value, string)> {
    if t != "" && t[0] == '"' then
      var r := Escapes.Parse(t[1..]);
      if r.None? then None else Some((StringValue(r.value.0), r.value.1))
    else
      var r := Decimal.Parse(t);
      if r.None? then None else Some((IntValue(r.value.0), r.value.1))
  }

  lemma DecodeShorter(t: string)
    ensures DecodeValue(t).Some? ==> |DecodeValue(t).value.1| < |t|
  {
    if t != "" {
      Escapes.ParseShorter(t[1..]);
    }
  }

  /** The values up to the closing bracket. */
  function DecodeList(t: string): Option<(seq<Value>, string)>
    decreases |t|
  {
    DecodeShorter(t);
    var v := DecodeValue(t);
    if v.None? || v.value.1 == "" then None
    else if v.value.1[0] == ']' then Some(([v.value.0], v.value.1[1..]))
    else if v.value.1[0] == ',' then
      var r := DecodeList(v.value.1[1..]);
      if r.None? then None else Some(([v.value.0] + r.value.0, r.value.1))
    else None
  }

  /** One member of an object. */
  function DecodeMember(t: string): Option<(string, Kept, string)> {
    if t == "" || t[0] != '"' then None
    else
      var k := Escapes.Parse(t[1..]);
      if k.None? || k.value.1 == "" || k.value.1[0] != ':' then None
      else
        var u := k.value.1[1..];
        if u != "" && u[0] == '[' then
          var r := DecodeList(u[1..]);
          if r.None? then None else Some((k.value.0, Many(r.value.0), r.value.1))
        else
          var r := DecodeValue(u);
          if r.None? then None else Some((k.value.0, One(r.value.0), r.value.1))
  }

  lemma IntRoundTrip(i: int, rest: string)
    requires Decimal.NoDigitFirst(rest)
    ensures var t := Decimal.Of(i); DecodeValue(t + rest) == Some((IntValue(i), rest)) && t != "" && t[0] != '[' && t[|t| - 1] !in "[{:,"
  {
    Decimal.RoundTrip(i, rest);
    assert (Decimal.Of(i) + rest)[0] == Decimal.Of(i)[0];
  }

  lemma StringRoundTrip(s: string, rest: string)
    ensures DecodeValue("\"" + Escapes.Body(s) + "\"" + rest) == Some((StringValue(s), rest))
  {
    hide Escapes.Body, Escapes.Parse;
    Escapes.RoundTrip(s, rest);
    assert ("\"" + Escapes.Body(s) + "\"" + rest)[1..] == Escapes.Body(s) + "\"" + rest;
  }

  lemma ValueRoundTrip(v: Value, rest: string)
    requires Decimal.NoDigitFirst(rest)
    ensures DecodeValue(Encoded(v) + rest) == Some((v, rest))
    ensures Encoded(v) != "" && Encoded(v)[0] != '[' && Encoded(v)[|Encoded(v)| - 1] !in "[{:,"
  {
    hide Escapes.Body, DecodeValue, Decimal.Of;
    match v
    case IntValue(i) => IntRoundTrip(i, rest);
    case StringValue(s) => StringRoundTrip(s, rest);
  }

  lemma DecodeLast(t: string, v: Value, rest: string)
    requires DecodeValue(t) == Some((v, "]" + rest))
    ensures DecodeList(t) == Some(([v], rest))
  {
    hide DecodeValue;
    assert ("]" + rest)[1..] == rest;
  }

  lemma DecodeMore(t: string, v: Value, u: string, vs: seq<Value>, rest: string)
    requires DecodeValue(t) == Some((v, "," + u)) && DecodeList(u) == Some((vs, rest))
    ensures DecodeList(t) == Some(([v] + vs, rest))
  {
    hide DecodeValue;
    assert ("," + u)[1..] == u;
  }

  lemma {:induction false} ListRoundTrip(vs: seq<Value>, rest: string)
    requires vs != []
    ensures DecodeList(Joined(vs) + "]" + rest) == Some((vs, rest))
  {
    hide Encoded, DecodeValue, DecodeList;
    if |vs| == 1 {
      ValueRoundTrip(vs[0], "]" + rest);
      assert Joined(vs) + "]" + rest == Encoded(vs[0]) + ("]" + rest);
      DecodeLast(Joined(vs) + "]" + rest, vs[0], rest);
      assert [vs[0]] == vs;
    } else {
      var u := Joined(vs[1..]) + "]" + rest;
      ValueRoundTrip(vs[0], "," + u);
      assert Joined(vs) + "]" + rest == Encoded(vs[0]) + ("," + u);
      ListRoundTrip(vs[1..], rest);
      DecodeMore(Joined(vs) + "]" + rest, vs[0], u, vs[1..], rest);
      assert [vs[0]] + vs[1..] == vs;
    }
  }

  lemma KeyDecoded(k: string, u: string)
    ensures var t := JsonKey(k) + u;
            t[0] == '"' && Escapes.Parse(t[1..]) == Some((Runes.Repaired(k), ":" + u))
  {
    hide Marshal.Body, Escapes.Parse;
    Marshal.RoundTrip(k, ":" + u);
    assert (JsonKey(k) + u)[1..] == Marshal.Body(k) + "\"" + (":" + u);
  }

  /** The text of a single attribute decodes to its key and value, whatever member or brace follows. */
  lemma SingleRoundTrip(k: string, v: Value, rest: string)
    requires Decimal.NoDigitFirst(rest)
    ensures DecodeMember(JsonKey(k) + Encoded(v) + rest) == Some((Runes.Repaired(k), One(v), rest))
  {
    hide JsonKey, Encoded, DecodeList, DecodeValue, Runes.Repaired;
    var u := Encoded(v) + rest;
    KeyDecoded(k, u);
    ValueRoundTrip(v, rest);
    assert JsonKey(k) + Encoded(v) + rest == JsonKey(k) + u;
  }

  lemma MultiRoundTrip(k: string, vs: seq<Value>, rest: string)
    requires vs != []
    ensures DecodeMember(JsonKey(k) + "[" + Joined(vs) + "]" + rest) == Some((Runes.Repaired(k), Many(vs), rest))
  {
    hide JsonKey, Joined, DecodeList, DecodeValue, Runes.Repaired;
    var u := "[" + Joined(vs) + "]" + rest;
    KeyDecoded(k, u);
    ListRoundTrip(vs, rest);
    assert JsonKey(k) + "[" + Joined(vs) + "]" + rest == JsonKey(k) + u;
    assert u[1..] == Joined(vs) + "]" + rest;
  }

  lemma EncodedInjective(v: Value, w: Value)
    requires Encoded(v) == Encoded(w)
    ensures v == w
  {
    ValueRoundTrip(v, "");
    ValueRoundTrip(w, "");
    assert Encoded(v) + "" == Encoded(v) && Encoded(w) + "" == Encoded(w);
  }

  lemma {:induction false} JoinedSnoc(vs: seq<Value>, v: Value)
    ensures Joined(vs + [v]) == if vs == [] then Encoded(v) else Joined(vs) + "," + Encoded(v)
    ensures vs != [] ==> Joined(vs) != "" && Joined(vs)[|Joined(vs)| - 1] !in "[{:,"
  {
    hide Encoded;
    if vs != [] {
      ValueRoundTrip(vs[0], "");
      assert (vs + [v])[1..] == vs[1..] + [v] && (vs + [v])[0] == vs[0];
      JoinedSnoc(vs[1..], v);
      if |vs| > 1 {
        assert Encoded(vs[0]) + "," + (Joined(vs[1..]) + "," + Encoded(v)) == Joined(vs) + "," + Encoded(v);
      }
    }
  }

  // ---- The builder -------------------------------------------------------------

  ghost predicate SingleOk(k: string, s: Single, t: Tracker) {
    t.value.One? && !t.attribute.multiple && s.keyLen == |JsonKey(k)| && s.keyValue == JsonKey(k) + Encoded(t.value.v)
  }

  ghost predicate MultiOk(k: string, m: Multi, t: Tracker) {
    && t.value.Many? && t.attribute.multiple && t.value.vs != [] && m.buf == JsonKey(k) + "[" + Joined(t.value.vs)
    && (if t.attribute.distinct then
          && m.distinct.Some? && (forall v :: v in t.seen <==> Encoded(v) in m.distinct.value)
          && forall v :: v in t.seen <==> v in t.value.vs
        else m.distinct.None?)
  }

  /** The texts say what the trackers hold. */
  ghost predicate Agrees(singles: map<string, Single>, multis: map<string, Multi>, trackers: map<string, Tracker>) {
    && singles.Keys + multis.Keys == trackers.Keys && singles.Keys !! multis.Keys
    && (forall k :: k in singles ==> SingleOk(k, singles[k], trackers[k]))
    && forall k :: k in multis ==> MultiOk(k, multis[k], trackers[k])
  }

  class AttributeBuilder {
    var singles: map<string, Single>
    var multis: map<string, Multi>
    var anyChanged: bool

    constructor ()
      ensures singles == map[] && multis == map[] && !anyChanged
    {
      singles, multis, anyChanged := map[], map[], false;
    }

    /** The single attribute of a key, and whether it existed before. */
    method AddSingle(k: string) returns (s: Single, ok: bool)
      modifies this`singles
      ensures ok == (k in old(singles))
      ensures s == (if ok then old(singles)[k] else Single(JsonKey(k), 0, true)).(changed := true)
      ensures singles == old(singles)[k := s]
    {
      ok := k in singles;
      s := if ok then singles[k] else Single(JsonKey(k), 0, true);
      s := s.(changed := true);
      singles := singles[k := s];
    }

    /** The list of a key, with a comma if there are values already. */
    method AddMulti(k: string) returns (m: Multi)
      modifies this`multis
      ensures multis == old(multis)[k := m]
      ensures m == if k in old(multis) then old(multis)[k].(buf := Escapes.Separated(old(multis)[k].buf), changed := true) else Multi(JsonKey(k) + "[", None, true)
    {
      m := if k in multis then multis[k] else Multi(JsonKey(k) + "[", None, false);
      m := m.(buf := Escapes.Separated(m.buf), changed := true);
      assert k !in multis ==> m.buf[|m.buf| - 1] == '[';
      multis := multis[k := m];
    }

    /** The body shared by MetadataInt64 and MetadataString. */
    method Set(a: Attribute, v: Value, ghost trackers: map<string, Tracker>)
      requires Agrees(singles, multis, trackers) && (a.key in trackers ==> trackers[a.key].attribute == a)
      modifies this
      ensures Agrees(singles, multis, Tracked(trackers, a, v)) && anyChanged
      ensures DueMultis(multis, true) + DueSingles(singles, true) == old(DueMultis(multis, true) + DueSingles(singles, true)) + {a.key}
    {
      anyChanged := true;
      if !a.multiple {
        SetSingle(a, v, trackers);
      } else {
        SetMulti(a, v, trackers);
      }
    }

    /** One pass over the lists: append those that are due, in any order, and clear their flags. */
    method AppendMultis(b: Escapes.JBuilder, onlyChanged: bool, ghost trackers: map<string, Tracker>) returns (ghost keys: seq<string>)
      requires Agrees(singles, multis, trackers)
      modifies this`multis, b
      ensures Agrees(singles, multis, trackers) && multis.Keys == old(multis.Keys)
      ensures forall k :: k in multis ==> !multis[k].changed
      ensures Listed(keys, old(DueMultis(multis, onlyChanged))) && InTrackers(keys, trackers)
      ensures b.B == Extended(old(b.B), TextsOf(keys, trackers))
    {
      hide MemberText, Extended, Escapes.Separated, Listed, InTrackers, TextsOf, Agrees, MultiOk, SingleOk;
      ghost var was, b0, due := multis, b.B, DueMultis(multis, onlyChanged);
      var todo := multis.Keys;
      keys := [];
      NothingExtended(b0, trackers);
      assert due - todo == {};
      while todo != {}
        invariant todo <= multis.Keys == was.Keys && Agrees(singles, multis, trackers)
        invariant forall k :: k in multis ==> multis[k] == if k in todo then was[k] else was[k].(changed := false)
        invariant Listed(keys, due - todo) && InTrackers(keys, trackers)
        invariant b.B == Extended(b0, TextsOf(keys, trackers))
        decreases todo
      {
        var k :| k in todo;
        ghost var before := due - todo;
        todo := todo - {k};
        if multis[k].changed || !onlyChanged {
          b.Comma();
          b.B := b.B + multis[k].buf;
          b.B := b.B + "]";
          MultiWritten(singles, multis, trackers, k);
          OneListed(keys, before, k);
          OneExtended(b0, keys, k, trackers);
          OneIn(keys, k, trackers);
          keys := keys + [k];
          multis := multis[k := multis[k].(changed := false)];
          assert due - todo == before + {k};
        } else {
          assert due - todo == before;
        }
      }
      assert due - todo == due;
    }

    /** The same for the single attributes. */
    method AppendSingles(b: Escapes.JBuilder, onlyChanged: bool, ghost trackers: map<string, Tracker>) returns (ghost keys: seq<string>)
      requires Agrees(singles, multis, trackers)
      modifies this`singles, b
      ensures Agrees(singles, multis, trackers) && singles.Keys == old(singles.Keys)
      ensures forall k :: k in singles ==> !singles[k].changed
      ensures Listed(keys, old(DueSingles(singles, onlyChanged))) && InTrackers(keys, trackers)
      ensures b.B == Extended(old(b.B), TextsOf(keys, trackers))
    {
      hide MemberText, Extended, Escapes.Separated, Listed, InTrackers, TextsOf, Agrees, MultiOk, SingleOk;
      ghost var was, b0, due := singles, b.B, DueSingles(singles, onlyChanged);
      var todo := singles.Keys;
      keys := [];
      NothingExtended(b0, trackers);
      assert due - todo == {};
      while todo != {}
        invariant todo <= singles.Keys == was.Keys && Agrees(singles, multis, trackers)
        invariant forall k :: k in singles ==> singles[k] == if k in todo then was[k] else was[k].(changed := false)
        invariant Listed(keys, due - todo) && InTrackers(keys, trackers)
        invariant b.B == Extended(b0, TextsOf(keys, trackers))
        decreases todo
      {
        var k :| k in todo;
        ghost var before := due - todo;
        todo := todo - {k};
        if singles[k].changed || !onlyChanged {
          b.Comma();
          b.B := b.B + singles[k].keyValue;
          SingleWritten(singles, multis, trackers, k);
          OneListed(keys, before, k);
          OneExtended(b0, keys, k, trackers);
          OneIn(keys, k, trackers);
          keys := keys + [k];
          singles := singles[k := singles[k].(changed := false)];
          assert due - todo == before + {k};
        } else {
          assert due - todo == before;
        }
      }
      assert due - todo == due;
    }

    ghost predicate Flagged()
      reads this
    {
      anyChanged <==> DueMultis(multis, true) + DueSingles(singles, true) != {}
    }

    method AppendAll(b: Escapes.JBuilder, onlyChanged: bool, ghost trackers: map<string, Tracker>) returns (ghost keys: seq<string>)
      requires Agrees(singles, multis, trackers)
      modifies this`singles, this`multis, b
      ensures Agrees(singles, multis, trackers) && DueMultis(multis, true) + DueSingles(singles, true) == {}
      ensures InTrackers(keys, trackers)
      ensures Listed(keys, old(DueMultis(multis, onlyChanged) + DueSingles(singles, onlyChanged)))
      ensures b.B == Extended(old(b.B), TextsOf(keys, trackers))
    {
      hide Extended, Escapes.Separated, MultiOk, SingleOk, MemberText, Listed, Agrees, DueMultis, DueSingles, TextsOf, InTrackers;
      ghost var a, c := DueMultis(multis, onlyChanged), DueSingles(singles, onlyChanged);
      DueFacts(singles, multis, trackers, onlyChanged);
      ghost var b0 := b.B;
      ghost var first := AppendMultis(b, onlyChanged, trackers);
      ghost var second := AppendSingles(b, onlyChanged, trackers);
      BothListed(first, second, a, c);
      BothExtended(b0, first, second, trackers);
      keys := first + second;
      NoneDue(singles, multis);
    }

    /** Appends the attributes that changed since the last time, or all of them: each due key exactly once. */
    method Append(b: Escapes.JBuilder, onlyChanged: bool, attributesObject: bool, ghost trackers: map<string, Tracker>) returns (ghost keys: seq<string>)
      requires Agrees(singles, multis, trackers) && Flagged()
      modifies this, b
      ensures Agrees(singles, multis, trackers) && Flagged()
      ensures onlyChanged || trackers != map[] ==> !anyChanged
      ensures InTrackers(keys, trackers)
      ensures Listed(keys, old(DueMultis(multis, onlyChanged) + DueSingles(singles, onlyChanged)))
      ensures b.B == if keys == [] then old(b.B)
                     else if attributesObject then Extended(Escapes.Separated(old(b.B)) + OPEN, TextsOf(keys, trackers)) + "}"
                     else Extended(old(b.B), TextsOf(keys, trackers))
    {
      hide Extended, Escapes.Separated, MultiOk, SingleOk, MemberText, Listed, Agrees, DueMultis, DueSingles, TextsOf, InTrackers;
      ghost var a, c := DueMultis(multis, onlyChanged), DueSingles(singles, onlyChanged);
      DueFacts(singles, multis, trackers, onlyChanged);
      if (!anyChanged && onlyChanged) || (|multis| == 0 && |singles| == 0) {
        keys := [];
        NothingExtended(b.B, trackers);
        return;
      }
      anyChanged := false;
      if attributesObject {
        b.Comma();
        b.B := b.B + OPEN;
      }
      keys := AppendAll(b, onlyChanged, trackers);
      ListedNone(keys, a + c);
      if attributesObject {
        b.B := b.B + "}";
      }
    }

    method SetSingle(a: Attribute, v: Value, ghost trackers: map<string, Tracker>)
      requires !a.multiple && Agrees(singles, multis, trackers) && (a.key in trackers ==> trackers[a.key].attribute == a)
      modifies this`singles
      ensures Agrees(singles, multis, Tracked(trackers, a, v))
      ensures DueSingles(singles, true) == old(DueSingles(singles, true)) + {a.key}
    {
      hide JsonKey, Encoded, SingleOk, Joined, DueSingles;
      ghost var was := singles;
      var s, preExisting := AddSingle(a.key);
      OneDue(was, multis, a.key, s, Multi("", None, true));
      assert DueSingles(singles, true) == DueSingles(was, true) + {a.key};
      if preExisting {
        SingleKept(a, was[a.key], trackers, v);
        if a.locked {
          return;
        }
        s := s.(keyValue := s.keyValue[..s.keyLen]);
      } else {
        s := s.(keyLen := |s.keyValue|);
      }
      s := s.(keyValue := s.keyValue + Encoded(v));
      SingleSet(a, s, trackers, v);
      OneDue(singles, multis, a.key, s, Multi("", None, true));
      singles := singles[a.key := s];
    }

    method SetMulti(a: Attribute, v: Value, ghost trackers: map<string, Tracker>)
      requires a.multiple && Agrees(singles, multis, trackers) && (a.key in trackers ==> trackers[a.key].attribute == a)
      modifies this`multis
      ensures Agrees(singles, multis, Tracked(trackers, a, v))
      ensures DueMultis(multis, true) == old(DueMultis(multis, true)) + {a.key}
    {
      hide MultiOk, Encoded, JsonKey, Joined, Escapes.Separated, DueMultis;
      ghost var was := multis;
      var m := AddMulti(a.key);
      OneDue(singles, was, a.key, Single("", 0, true), m);
      var lenBefore := |m.buf|;
      m := m.(buf := m.buf + Encoded(v));
      if a.distinct {
        var sk := m.buf[lenBefore..];
        if m.distinct.None? {
          m := m.(distinct := Some({sk}));
        } else if sk in m.distinct.value {
          m := m.(buf := m.buf[..lenBefore]);
          if m.buf != "" && m.buf[|m.buf| - 1] == ',' {
            m := m.(buf := m.buf[..|m.buf| - 1]);
          }
        } else {
          m := m.(distinct := Some(m.distinct.value + {sk}));
        }
      }
      if a.key in was {
        MultiMore(a, was[a.key], m, trackers, v);
      } else {
        MultiNew(a, m, trackers, v);
      }
      OneDue(singles, multis, a.key, Single("", 0, true), m);
      multis := multis[a.key := m];
    }
  }

  // ---- Writing what changed ------------------------------------------------------

  function MemberText(k: string, v: Kept): string {
    match v
    case One(w) => JsonKey(k) + Encoded(w)
    case Many(ws) => JsonKey(k) + "[" + Joined(ws) + "]"
  }

  /** Appending texts one by one, each after a comma where one is needed. */
  function Extended(b: string, texts: seq<string>): string {
    if texts == [] then b else Escapes.Separated(Extended(b, texts[..|texts| - 1])) + texts[|texts| - 1]
  }

  function DecodeMembers(t: string): Option<(seq<(string, Kept)>, string)>
    decreases |t|
  {
    MemberShorter(t);
    var m := DecodeMember(t);
    if m.None? || m.value.2 == "" then None
    else if m.value.2[0] == '}' then Some(([(m.value.0, m.value.1)], m.value.2[1..]))
    else if m.value.2[0] == ',' then
      var r := DecodeMembers(m.value.2[1..]);
      if r.None? then None else Some(([(m.value.0, m.value.1)] + r.value.0, r.value.1))
    else None
  }

  lemma {:induction false} ListShorter(t: string)
    ensures DecodeList(t).Some? ==> |DecodeList(t).value.1| < |t|
    decreases |t|
  {
    hide DecodeValue;
    DecodeShorter(t);
    var v := DecodeValue(t);
    if v.Some? && v.value.1 != "" && v.value.1[0] == ',' {
      ListShorter(v.value.1[1..]);
    }
  }

  lemma MemberShorter(t: string)
    ensures DecodeMember(t).Some? ==> |DecodeMember(t).value.2| < |t|
  {
    hide DecodeValue, DecodeList;
    if t != "" {
      Escapes.ParseShorter(t[1..]);
      var k := Escapes.Parse(t[1..]);
      if k.Some? && k.value.1 != "" {
        var u := k.value.1[1..];
        DecodeShorter(u);
        if u != "" {
          ListShorter(u[1..]);
        }
      }
    }
  }

  /** The text of members, separated by commas. */
  function ObjectText(ms: seq<(string, Kept)>): string {
    if ms == [] then ""
    else if |ms| == 1 then MemberText(ms[0].0, ms[0].1)
    else MemberText(ms[0].0, ms[0].1) + "," + ObjectText(ms[1..])
  }

  predicate Proper(v: Kept) { v.Many? ==> v.vs != [] }

  /** What a reader sees of members: encoding/json replaces bytes of a key that are not UTF-8. */
  function Seen(ms: seq<(string, Kept)>): seq<(string, Kept)> {
    seq(|ms|, i requires 0 <= i < |ms| => (Runes.Repaired(ms[i].0), ms[i].1))
  }

  /** Members are seen as they are exactly if all keys are valid UTF-8. */
  lemma SeenExactly(ms: seq<(string, Kept)>)
    ensures Seen(ms) == ms <==> forall i :: 0 <= i < |ms| ==> Runes.Valid(ms[i].0)
  {
    hide Runes.Repaired, Runes.Valid;
    forall i | 0 <= i < |ms|
      ensures Seen(ms)[i] == ms[i] <==> Runes.Valid(ms[i].0)
    {
      Runes.RepairedExactly(ms[i].0);
    }
    if Seen(ms) != ms {
      assert exists i :: 0 <= i < |ms| && Seen(ms)[i] != ms[i];
    }
  }

  /** Two keys become one member name exactly if a range loop over them yields the same runes. */
  lemma SameNameExactly(k: string, l: string, u: string, v: string)
    ensures var s, t := JsonKey(k) + u, JsonKey(l) + v;
            && Escapes.Parse(s[1..]).Some? && Escapes.Parse(t[1..]).Some?
            && (Escapes.Parse(s[1..]).value.0 == Escapes.Parse(t[1..]).value.0 <==> Runes.Points(k) == Runes.Points(l))
  {
    hide JsonKey, Escapes.Parse, Runes.Repaired, Runes.Points;
    KeyDecoded(k, u);
    KeyDecoded(l, v);
    Runes.SameRepaired(k, l);
  }

  /** The names in an object are distinct exactly if the runes of the keys are. */
  lemma NamesDistinct(ms: seq<(string, Kept)>)
    ensures (forall i, j :: 0 <= i < j < |ms| ==> Seen(ms)[i].0 != Seen(ms)[j].0) <==>
            forall i, j :: 0 <= i < j < |ms| ==> Runes.Points(ms[i].0) != Runes.Points(ms[j].0)
  {
    hide Runes.Repaired, Runes.Points;
    forall i, j | 0 <= i < j < |ms|
      ensures Seen(ms)[i].0 == Seen(ms)[j].0 <==> Runes.Points(ms[i].0) == Runes.Points(ms[j].0)
    {
      Runes.SameRepaired(ms[i].0, ms[j].0);
    }
  }

  /** Two keys that are not read back, and under the same name. */
  lemma SeenExample(v: Kept, w: Kept)
    ensures var k, l := [0xFF as char], [0xFE as char];
            && k != l && Seen([(k, v), (l, w)]) == [(Runes.Utf8(Runes.REPLACEMENT), v), (Runes.Utf8(Runes.REPLACEMENT), w)]
            && Seen([(k, v)]) != [(k, v)] && JsonKey(k) == JsonKey(l)
  {
    hide Runes.Utf8;
    var k, l := [0xFF as char], [0xFE as char];
    Runes.RepairedExamples();
    assert Seen([(k, v)])[0].0 == Runes.Repaired(k);
    assert Marshal.Body(k) == "\\ufffd" + Marshal.Body("") && Marshal.Body(l) == "\\ufffd" + Marshal.Body("");
  }

  lemma MemberRoundTrip(k: string, v: Kept, rest: string)
    requires Proper(v) && Decimal.NoDigitFirst(rest)
    ensures DecodeMember(MemberText(k, v) + rest) == Some((Runes.Repaired(k), v, rest))
    ensures MemberText(k, v) != "" && MemberText(k, v)[|MemberText(k, v)| - 1] !in "[{:"
  {
    hide DecodeMember, Joined;
    match v
    case One(w) =>
      SingleRoundTrip(k, w, rest);
      ValueRoundTrip(w, "");
    case Many(ws) => MultiRoundTrip(k, ws, rest);
  }

  lemma MembersLast(t: string, m: (string, Kept), rest: string)
    requires DecodeMember(t) == Some((m.0, m.1, "}" + rest))
    ensures DecodeMembers(t) == Some(([m], rest))
  {
    hide DecodeMember;
    assert ("}" + rest)[1..] == rest;
  }

  lemma MembersMore(t: string, m: (string, Kept), u: string, ms: seq<(string, Kept)>, rest: string)
    requires DecodeMember(t) == Some((m.0, m.1, "," + u)) && DecodeMembers(u) == Some((ms, rest))
    ensures DecodeMembers(t) == Some(([m] + ms, rest))
  {
    hide DecodeMember;
    assert ("," + u)[1..] == u;
  }

  lemma SeenCons(ms: seq<(string, Kept)>)
    requires ms != []
    ensures Seen(ms) == [(Runes.Repaired(ms[0].0), ms[0].1)] + Seen(ms[1..])
  {
  }

  /** The members of an object are read back in order. */
  lemma {:induction false} ObjectRoundTrip(ms: seq<(string, Kept)>, rest: string)
    requires ms != [] && forall i :: 0 <= i < |ms| ==> Proper(ms[i].1)
    ensures DecodeMembers(ObjectText(ms) + "}" + rest) == Some((Seen(ms), rest))
  {
    hide MemberText, DecodeMember, DecodeMembers, Runes.Repaired, Seen;
    var t := MemberText(ms[0].0, ms[0].1);
    var m := (Runes.Repaired(ms[0].0), ms[0].1);
    SeenCons(ms);
    if |ms| == 1 {
      MemberRoundTrip(ms[0].0, ms[0].1, "}" + rest);
      assert ObjectText(ms) + "}" + rest == t + ("}" + rest);
      MembersLast(ObjectText(ms) + "}" + rest, m, rest);
      SeenNone();
      assert [m] + [] == [m] && ms[1..] == [];
    } else {
      var u := ObjectText(ms[1..]) + "}" + rest;
      MemberRoundTrip(ms[0].0, ms[0].1, "," + u);
      assert ObjectText(ms) + "}" + rest == t + ("," + u);
      ObjectRoundTrip(ms[1..], rest);
      MembersMore(ObjectText(ms) + "}" + rest, m, u, Seen(ms[1..]), rest);
    }
  }

  lemma SeenNone()
    ensures Seen([]) == []
  {
  }

  /** The keys that are due to be written. */
  ghost function DueMultis(multis: map<string, Multi>, onlyChanged: bool): set<string> {
    set k | k in multis && (multis[k].changed || !onlyChanged)
  }

  ghost function DueSingles(singles: map<string, Single>, onlyChanged: bool): set<string> {
    set k | k in singles && (singles[k].changed || !onlyChanged)
  }

  lemma DueFacts(singles: map<string, Single>, multis: map<string, Multi>, trackers: map<string, Tracker>, onlyChanged: bool)
    requires Agrees(singles, multis, trackers)
    ensures DueMultis(multis, onlyChanged) !! DueSingles(singles, onlyChanged)
    ensures DueMultis(multis, onlyChanged) + DueSingles(singles, onlyChanged) == {} <==>
            if onlyChanged then (forall k :: k in singles ==> !singles[k].changed) && (forall k :: k in multis ==> !multis[k].changed)
            else |multis| == 0 && |singles| == 0
    ensures |multis| == 0 && |singles| == 0 ==> trackers == map[] && forall k :: k !in singles && k !in multis
  {
    hide MultiOk, SingleOk;
    var due := DueMultis(multis, onlyChanged) + DueSingles(singles, onlyChanged);
    if due == {} {
      forall k ensures k in singles && onlyChanged ==> !singles[k].changed {
        assert k !in due;
      }
      forall k ensures k in multis && onlyChanged ==> !multis[k].changed {
        assert k !in due;
      }
      if !onlyChanged {
        assert multis.Keys == {} by { forall k ensures k !in multis { assert k !in due; } }
        assert singles.Keys == {} by { forall k ensures k !in singles { assert k !in due; } }
      }
    }
    if |multis| == 0 && |singles| == 0 {
      assert trackers.Keys == {};
    }
  }

  lemma NoneDue(singles: map<string, Single>, multis: map<string, Multi>)
    requires (forall k :: k in singles ==> !singles[k].changed) && forall k :: k in multis ==> !multis[k].changed
    ensures DueMultis(multis, true) + DueSingles(singles, true) == {}
  {
  }

  lemma OneDue(singles: map<string, Single>, multis: map<string, Multi>, k: string, s: Single, m: Multi)
    ensures s.changed ==> DueSingles(singles[k := s], true) == DueSingles(singles, true) + {k}
    ensures m.changed ==> DueMultis(multis[k := m], true) == DueMultis(multis, true) + {k}
  {
  }

  lemma ListedNone(keys: seq<string>, s: set<string>)
    requires Listed(keys, s)
    ensures keys == [] <==> s == {}
  {
    if keys != [] {
      assert keys[0] in s;
    }
  }

  const OPEN := "\"attributes\":{"

  /** The list names each key of the set once, and no other. */
  ghost predicate Listed(keys: seq<string>, s: set<string>) {
    && (forall i, j :: 0 <= i < j < |keys| ==> keys[i] != keys[j])
    && forall k :: k in s <==> k in keys
  }

  predicate InTrackers(keys: seq<string>, trackers: map<string, Tracker>) {
    forall i :: 0 <= i < |keys| ==> keys[i] in trackers
  }

  lemma NothingExtended(b: string, trackers: map<string, Tracker>)
    ensures Listed([], {}) && InTrackers([], trackers) && Extended(b, TextsOf([], trackers)) == b
  {
  }

  lemma OneListed(keys: seq<string>, s: set<string>, k: string)
    requires Listed(keys, s) && k !in s
    ensures Listed(keys + [k], s + {k})
  {
  }

  lemma OneExtended(b: string, keys: seq<string>, k: string, trackers: map<string, Tracker>)
    requires InTrackers(keys, trackers) && k in trackers
    ensures Extended(b, TextsOf(keys + [k], trackers)) == Escapes.Separated(Extended(b, TextsOf(keys, trackers))) + MemberText(k, trackers[k].value)
  {
    hide MemberText;
    var texts := TextsOf(keys + [k], trackers);
    assert texts[..|texts| - 1] == TextsOf(keys, trackers);
  }

  lemma BothListed(a: seq<string>, b: seq<string>, s: set<string>, t: set<string>)
    requires Listed(a, s) && Listed(b, t) && s !! t
    ensures Listed(a + b, s + t)
  {
    forall i, j | 0 <= i < j < |a + b| ensures (a + b)[i] != (a + b)[j] {
      if i < |a| <= j {
        assert a[i] in s && b[j - |a|] in t;
      }
    }
  }

  lemma {:induction false} BothExtended(b: string, first: seq<string>, second: seq<string>, trackers: map<string, Tracker>)
    requires InTrackers(first, trackers) && InTrackers(second, trackers)
    ensures InTrackers(first + second, trackers)
    ensures Extended(b, TextsOf(first + second, trackers)) == Extended(Extended(b, TextsOf(first, trackers)), TextsOf(second, trackers))
  {
    hide MemberText, Escapes.Separated;
    NothingExtended(Extended(b, TextsOf(first, trackers)), trackers);
    if second == [] {
      assert first + second == first;
    } else {
      var some, k := second[..|second| - 1], second[|second| - 1];
      BothExtended(b, first, some, trackers);
      assert first + second == (first + some) + [k] && second == some + [k];
      OneExtended(b, first + some, k, trackers);
      OneExtended(Extended(b, TextsOf(first, trackers)), some, k, trackers);
    }
  }

  lemma MultiText(k: string, m: Multi, t: Tracker)
    requires MultiOk(k, m, t)
    ensures m.buf + "]" == MemberText(k, t.value) && MultiOk(k, m.(changed := false), t)
  {
  }

  lemma OneIn(keys: seq<string>, k: string, trackers: map<string, Tracker>)
    requires InTrackers(keys, trackers) && k in trackers
    ensures InTrackers(keys + [k], trackers)
  {
  }

  lemma MultiWritten(singles: map<string, Single>, multis: map<string, Multi>, trackers: map<string, Tracker>, k: string)
    requires Agrees(singles, multis, trackers) && k in multis
    ensures k in trackers && multis[k].buf + "]" == MemberText(k, trackers[k].value)
    ensures Agrees(singles, multis[k := multis[k].(changed := false)], trackers)
  {
    hide MultiOk, SingleOk, MemberText;
    MultiText(k, multis[k], trackers[k]);
  }

  lemma SingleWritten(singles: map<string, Single>, multis: map<string, Multi>, trackers: map<string, Tracker>, k: string)
    requires Agrees(singles, multis, trackers) && k in singles
    ensures k in trackers && singles[k].keyValue == MemberText(k, trackers[k].value)
    ensures Agrees(singles[k := singles[k].(changed := false)], multis, trackers)
  {
    hide MultiOk, SingleOk, MemberText;
    SingleText(k, singles[k], trackers[k]);
  }

  lemma SingleText(k: string, s: Single, t: Tracker)
    requires SingleOk(k, s, t)
    ensures s.keyValue == MemberText(k, t.value) && SingleOk(k, s.(changed := false), t)
  {
  }

  lemma SingleKept(a: Attribute, s: Single, trackers: map<string, Tracker>, v: Value)
    requires a.key in trackers && trackers[a.key].attribute == a && SingleOk(a.key, s, trackers[a.key])
    ensures s.keyLen <= |s.keyValue| && s.keyLen == |JsonKey(a.key)| && s.keyValue[..s.keyLen] == JsonKey(a.key)
    ensures a.locked ==> SingleOk(a.key, s.(changed := true), Tracked(trackers, a, v)[a.key])
    ensures trackers[a.key].value.One?
  {
  }

  lemma SingleSet(a: Attribute, s: Single, trackers: map<string, Tracker>, v: Value)
    requires !a.multiple && s.keyLen == |JsonKey(a.key)| && s.keyValue == JsonKey(a.key) + Encoded(v)
    requires a.key in trackers ==> trackers[a.key].attribute == a && !a.locked && trackers[a.key].value.One?
    ensures SingleOk(a.key, s, Tracked(trackers, a, v)[a.key])
  {
  }

  lemma MultiNew(a: Attribute, m: Multi, trackers: map<string, Tracker>, v: Value)
    requires a.multiple && a.key !in trackers
    requires m == Multi(JsonKey(a.key) + "[" + Encoded(v), if a.distinct then Some({Encoded(v)}) else None, true)
    ensures MultiOk(a.key, m, Tracked(trackers, a, v)[a.key])
  {
    hide Encoded;
    forall w | Encoded(w) == Encoded(v) ensures w == v {
      EncodedInjective(w, v);
    }
  }

  /** The text of a list with one more value, and how a comma is taken back. */
  lemma OneMoreText(k: string, buf: string, vs: seq<Value>, v: Value)
    requires buf == JsonKey(k) + "[" + Joined(vs) && vs != []
    ensures var b := Escapes.Separated(buf);
            && b + Encoded(v) == JsonKey(k) + "[" + Joined(vs + [v])
            && b != "" && b[|b| - 1] == ',' && b[..|b| - 1] == buf
  {
    hide Encoded, JsonKey, Joined;
    JoinedSnoc(vs, v);
    assert buf[|buf| - 1] == Joined(vs)[|Joined(vs)| - 1];
    assert Escapes.Separated(buf) == buf + ",";
    assert buf + "," + Encoded(v) == JsonKey(k) + "[" + (Joined(vs) + "," + Encoded(v));
  }

  lemma MultiMore(a: Attribute, o: Multi, m: Multi, trackers: map<string, Tracker>, v: Value)
    requires a.multiple && a.key in trackers && trackers[a.key].attribute == a && MultiOk(a.key, o, trackers[a.key])
    requires m.changed && var sk := Encoded(v);
             if !a.distinct then m.buf == Escapes.Separated(o.buf) + sk && m.distinct == o.distinct
             else if o.distinct.None? then m.buf == Escapes.Separated(o.buf) + sk && m.distinct == Some({sk})
             else if sk in o.distinct.value then
               var b := Escapes.Separated(o.buf);
               m.buf == (if b != "" && b[|b| - 1] == ',' then b[..|b| - 1] else b) && m.distinct == o.distinct
             else m.buf == Escapes.Separated(o.buf) + sk && m.distinct == Some(o.distinct.value + {sk})
    ensures MultiOk(a.key, m, Tracked(trackers, a, v)[a.key])
  {
    hide Encoded, JsonKey, Joined, Escapes.Separated;
    OneMoreText(a.key, o.buf, trackers[a.key].value.vs, v);
    forall w | Encoded(w) == Encoded(v) ensures w == v {
      EncodedInjective(w, v);
    }
  }

  /** The texts of a list of keys. */
  function TextsOf(keys: seq<string>, trackers: map<string, Tracker>): seq<string>
    requires InTrackers(keys, trackers)
  {
    seq(|keys|, i requires 0 <= i < |keys| => MemberText(keys[i], trackers[keys[i]].value))
  }

  function MembersOf(keys: seq<string>, trackers: map<string, Tracker>): seq<(string, Kept)>
    requires InTrackers(keys, trackers)
  {
    seq(|keys|, i requires 0 <= i < |keys| => (keys[i], trackers[keys[i]].value))
  }

  lemma {:induction false} ObjectTextSnoc(ms: seq<(string, Kept)>, m: (string, Kept))
    ensures ObjectText(ms + [m]) == if ms == [] then MemberText(m.0, m.1) else ObjectText(ms) + "," + MemberText(m.0, m.1)
  {
    hide MemberText;
    if ms != [] {
      assert (ms + [m])[1..] == ms[1..] + [m] && (ms + [m])[0] == ms[0];
      ObjectTextSnoc(ms[1..], m);
      if |ms| > 1 {
        var t := MemberText(ms[0].0, ms[0].1);
        assert t + "," + (ObjectText(ms[1..]) + "," + MemberText(m.0, m.1)) == ObjectText(ms) + "," + MemberText(m.0, m.1);
      }
    }
  }

  lemma SeparatedAfter(b: string, t: string)
    ensures t != "" && t[|t| - 1] !in "[{:" ==> Escapes.Separated(b + t) == b + t + ","
    ensures b != "" && b[|b| - 1] == '{' ==> Escapes.Separated(b) == b
  {
  }

  /** A text that ends a value. */
  predicate Closed(t: string) {
    t != "" && t[|t| - 1] !in "[{:"
  }

  lemma ClosedAfter(a: string, t: string)
    requires Closed(t)
    ensures Closed(a + t)
  {
  }

  /** Behind an opening brace the appended texts are the members of the object. */
  lemma {:induction false} ExtendedObject(b: string, keys: seq<string>, trackers: map<string, Tracker>)
    requires InTrackers(keys, trackers) && forall i :: 0 <= i < |keys| ==> Proper(trackers[keys[i]].value)
    requires b != "" && b[|b| - 1] == '{'
    ensures Extended(b, TextsOf(keys, trackers)) == b + ObjectText(MembersOf(keys, trackers))
    ensures keys != [] ==> Closed(ObjectText(MembersOf(keys, trackers)))
  {
    hide MemberText, ObjectText, Escapes.Separated, Closed;
    EmptyObject();
    if keys == [] {
      assert TextsOf(keys, trackers) == [] && MembersOf(keys, trackers) == [];
      assert b + "" == b;
    } else {
      var some, k := keys[..|keys| - 1], keys[|keys| - 1];
      ExtendedObject(b, some, trackers);
      var texts, ms, m := TextsOf(keys, trackers), MembersOf(some, trackers), (k, trackers[k].value);
      assert texts[..|texts| - 1] == TextsOf(some, trackers);
      assert MembersOf(keys, trackers) == ms + [m];
      ObjectTextSnoc(ms, m);
      MemberClosed(m.0, m.1);
      var t, o := MemberText(m.0, m.1), ObjectText(ms);
      SeparatedAfter(b, o);
      assert Extended(b, texts) == Escapes.Separated(b + o) + t;
      if ms == [] {
        assert b + "" == b;
      } else {
        ClosedIs(o);
        ClosedAfter(o + ",", t);
        assert b + o + "," + t == b + (o + "," + t);
      }
    }
  }

  lemma ClosedIs(t: string)
    requires Closed(t)
    ensures t != "" && t[|t| - 1] !in "[{:"
  {
  }

  lemma MemberClosed(k: string, v: Kept)
    requires Proper(v)
    ensures Closed(MemberText(k, v))
  {
    MemberRoundTrip(k, v, "");
  }

  lemma EmptyObject()
    ensures ObjectText([]) == ""
  {
  }

  // ---- Runs ------------------------------------------------------------------------

  /** Setting a value, or writing what changed into a fresh object. */
  datatype Op = Put(call: Call) | Write

  function CallsOf(ops: seq<Op>): seq<Call> {
    if ops == [] then []
    else CallsOf(ops[..|ops| - 1]) + (if ops[|ops| - 1].Put? then [ops[|ops| - 1].call] else [])
  }

  /** The keys set since the last write. */
  function SetSince(ops: seq<Op>): set<string> {
    if ops == [] then {}
    else match ops[|ops| - 1]
      case Put(c) => SetSince(ops[..|ops| - 1]) + {c.attribute.key}
      case Write => {}
  }

  /** The text holds, for each due key once, what the calls so far amount to. */
  ghost predicate Shows(text: string, calls: seq<Call>, due: set<string>) {
    if due == {} then text == "{"
    else
      && |text| >= |"{" + OPEN| && text[..|"{" + OPEN|] == "{" + OPEN
      && exists ms :: Amounts(ms, calls, due) && DecodeMembers(text[|"{" + OPEN|..]) == Some((Seen(ms), ""))
  }

  /** One member for each due key, with the value that is kept. */
  ghost predicate Amounts(ms: seq<(string, Kept)>, calls: seq<Call>, due: set<string>) {
    && (forall i, j :: 0 <= i < j < |ms| ==> ms[i].0 != ms[j].0)
    && (forall k :: k in due <==> exists i :: 0 <= i < |ms| && ms[i].0 == k)
    && forall i :: 0 <= i < |ms| ==> IsKept(ms[i], calls)
  }

  /** The member has the value that its attribute keeps of the values set for the key. */
  ghost predicate IsKept(m: (string, Kept), calls: seq<Call>) {
    var vs := ValuesOf(calls, m.0);
    vs != [] && exists a: Attribute :: Call(a, vs[0]) in calls && a.key == m.0 && m.1 == Keeps(a, vs)
  }

  ghost predicate Written(ops: seq<Op>, texts: seq<string>) {
    if ops == [] then texts == []
    else
      var past := ops[..|ops| - 1];
      if ops[|ops| - 1].Write? then
        texts != [] && Written(past, texts[..|texts| - 1]) && Shows(texts[|texts| - 1], CallsOf(past), SetSince(past))
      else Written(past, texts)
  }

  lemma ShowsWritten(keys: seq<string>, trackers: map<string, Tracker>, calls: seq<Call>, due: set<string>, text: string)
    requires Listed(keys, due) && InTrackers(keys, trackers) && Tracks(trackers, calls)
    requires forall k :: k in trackers ==> Proper(trackers[k].value)
    requires text == if keys == [] then "{" else Extended("{" + OPEN, TextsOf(keys, trackers)) + "}"
    ensures Shows(text, calls, due)
  {
    hide MemberText, ObjectText, Extended, DecodeMembers, TracksOne, Tracks, Amounts, Listed, Seen;
    ListedNone(keys, due);
    if keys != [] {
      var ms := MembersOf(keys, trackers);
      ExtendedObject("{" + OPEN, keys, trackers);
      ObjectRoundTrip(ms, "");
      ShowsMembers(keys, ms, trackers, calls, due);
      var rest := text[|"{" + OPEN|..];
      assert rest == ObjectText(ms) + "}" + "";
    }
  }

  lemma ShowsMembers(keys: seq<string>, ms: seq<(string, Kept)>, trackers: map<string, Tracker>, calls: seq<Call>, due: set<string>)
    requires Listed(keys, due) && InTrackers(keys, trackers) && Tracks(trackers, calls) && ms == MembersOf(keys, trackers)
    ensures Amounts(ms, calls, due)
  {
    assert |ms| == |keys| && forall i :: 0 <= i < |ms| ==> ms[i] == (keys[i], trackers[keys[i]].value);
    forall i | 0 <= i < |ms| ensures IsKept(ms[i], calls) {
      var t := trackers[keys[i]];
      assert TracksOne(keys[i], t, calls);
      assert Call(t.attribute, ValuesOf(calls, keys[i])[0]) in calls;
    }
    forall k ensures k in due <==> exists i :: 0 <= i < |ms| && ms[i].0 == k {
      if k in due {
        var i :| 0 <= i < |keys| && keys[i] == k;
        assert ms[i].0 == k;
      }
    }
  }

  lemma AllProper(singles: map<string, Single>, multis: map<string, Multi>, trackers: map<string, Tracker>)
    requires Agrees(singles, multis, trackers)
    ensures forall k :: k in trackers ==> Proper(trackers[k].value) && trackers[k].value.Many? == trackers[k].attribute.multiple
  {
    hide Joined, JsonKey, Encoded;
    forall k | k in trackers ensures Proper(trackers[k].value) && trackers[k].value.Many? == trackers[k].attribute.multiple {
      assert k in singles.Keys + multis.Keys;
    }
  }

  lemma SameAttribute(calls: seq<Call>, c: Call, trackers: map<string, Tracker>)
    requires Consistent(calls) && c in calls && Tracks(trackers, calls[..|calls| - 1])
    ensures c.attribute.key in trackers ==> trackers[c.attribute.key].attribute == c.attribute
  {
    var k := c.attribute.key;
    if k in trackers {
      assert TracksOne(k, trackers[k], calls[..|calls| - 1]);
      var first := Call(trackers[k].attribute, ValuesOf(calls[..|calls| - 1], k)[0]);
      assert first in calls;
    }
  }

  lemma {:induction false} ConsistentPrefix(ops: seq<Op>, k: nat)
    requires k <= |ops| && Consistent(CallsOf(ops))
    ensures Consistent(CallsOf(ops[..k])) && |CallsOf(ops[..k])| <= |CallsOf(ops)|
  {
    if k < |ops| {
      var past := ops[..|ops| - 1];
      assert past[..k] == ops[..k];
      assert Consistent(CallsOf(past)) by {
        assert forall i :: 0 <= i < |CallsOf(past)| ==> CallsOf(past)[i] == CallsOf(ops)[i];
      }
      ConsistentPrefix(past, k);
    } else {
      assert ops[..k] == ops;
    }
  }

  /** Any sequence of values and writes, with the trackers as the reference. */
  method Run(ops: seq<Op>) returns (texts: seq<string>, trackers: map<string, Tracker>)
    requires Consistent(CallsOf(ops))
    ensures Tracks(trackers, CallsOf(ops)) && Written(ops, texts)
  {
    hide Agrees, Tracks, Shows, Consistent, DueMultis, DueSingles, Extended, Listed, InTrackers, TextsOf, CallsOf, SetSince, Written, Tracked;
    var a := new AttributeBuilder();
    var m := new SpanMetadata();
    texts := [];
    Nothing();
    assert ops[..0] == [];
    var k := 0;
    while k < |ops|
      invariant 0 <= k <= |ops| && fresh(a) && fresh(m)
      invariant Agrees(a.singles, a.multis, m.trackers) && Tracks(m.trackers, CallsOf(ops[..k]))
      invariant a.Flagged() && DueMultis(a.multis, true) + DueSingles(a.singles, true) == SetSince(ops[..k])
      invariant Written(ops[..k], texts)
    {
      ghost var past := ops[..k];
      ghost var next := ops[..k + 1];
      assert next == past + [ops[k]];
      OneOp(past, ops[k]);
      AllProper(a.singles, a.multis, m.trackers);
      match ops[k] {
        case Put(c) =>
          ConsistentPrefix(ops, k + 1);
          assert CallsOf(next)[..|CallsOf(next)| - 1] == CallsOf(past);
          SameAttribute(CallsOf(next), c, m.trackers);
          TracksStep(m.trackers, CallsOf(past), c.attribute, c.value);
          a.Set(c.attribute, c.value, m.trackers);
          m.Set(c.attribute, c.value);
        case Write =>
          var b := new Escapes.JBuilder(false);
          b.B := "{";
          ghost var keys := a.Append(b, true, true, m.trackers);
          ShowsWritten(keys, m.trackers, CallsOf(past), SetSince(past), b.B);
          OneWrite(past, texts, b.B);
          texts := texts + [b.B];
      }
      k := k + 1;
    }
    assert ops[..k] == ops;
    trackers := m.trackers;
  }

  lemma OneOp(past: seq<Op>, op: Op)
    ensures CallsOf(past + [op]) == if op.Put? then CallsOf(past) + [op.call] else CallsOf(past)
    ensures SetSince(past + [op]) == if op.Put? then SetSince(past) + {op.call.attribute.key} else {}
    ensures op.Put? ==> forall texts :: Written(past + [op], texts) == Written(past, texts)
  {
    assert (past + [op])[..|past|] == past;
  }

  lemma OneWrite(past: seq<Op>, texts: seq<string>, text: string)
    requires Written(past, texts) && Shows(text, CallsOf(past), SetSince(past))
    ensures Written(past + [Write], texts + [text])
  {
    hide Shows;
    assert (past + [Write])[..|past|] == past && (texts + [text])[..|texts|] == texts;
  }

  lemma Nothing()
    ensures Agrees(map[], map[], map[]) && Tracks(map[], CallsOf([])) && DueMultis(map[], true) + DueSingles(map[], true) == {}
    ensures SetSince([]) == {} && Written([], [])
  {
  }
}
