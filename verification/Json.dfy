/** JSON values, how they are written, and a recognizer for them (sections 2 to 7 of RFC 8259). */
module Json {
  import opened Options
  import Escapes
  import Marshal

  /** A string may be written in several parts; raw text stands for numbers, literals, formatted times
      and embedded encodings. */
  datatype Value = Str(parts: seq<string>) | Raw(text: string) | Arr(elements: seq<Value>) | Obj(members: seq<Member>)

  /** Most keys are written like strings; those of registered attributes as encoding/json writes them. */
  datatype Member = Member(key: string, value: Value) | Marshaled(key: string, value: Value)

  function Bodies(parts: seq<string>): string {
    if parts == [] then "" else Escapes.Body(parts[0]) + Bodies(parts[1..])
  }

  function Concat(parts: seq<string>): string {
    if parts == [] then "" else parts[0] + Concat(parts[1..])
  }

  function Key(k: string): string {
    "\"" + Escapes.Body(k) + "\":"
  }

  function MarshaledKey(k: string): string {
    "\"" + Marshal.Body(k) + "\":"
  }

  function KeyText(m: Member): string {
    if m.Member? then Key(m.key) else MarshaledKey(m.key)
  }

  function Render(v: Value): string
    decreases v, 0
  {
    match v
    case Str(parts) => "\"" + Bodies(parts) + "\""
    case Raw(text) => text
    case Arr(vs) => "[" + RenderElements(vs) + "]"
    case Obj(ms) => "{" + RenderMembers(ms) + "}"
  }

  function RenderElements(vs: seq<Value>): string
    decreases vs, 1
  {
    if vs == [] then "" else if |vs| == 1 then Render(vs[0]) else Render(vs[0]) + "," + RenderElements(vs[1..])
  }

  function RenderMember(m: Member): string
    decreases m, 1
  {
    KeyText(m) + Render(m.value)
  }

  function RenderMembers(ms: seq<Member>): string
    decreases ms, 2
  {
    if ms == [] then "" else if |ms| == 1 then RenderMember(ms[0]) else RenderMember(ms[0]) + "," + RenderMembers(ms[1..])
  }

  // ---- Recognizing one value --------------------------------------------------------

  predicate Digit(c: char) { '0' <= c <= '9' }

  function SkipDigits(t: string): (r: string)
    ensures |r| <= |t|
  {
    if t == "" || !Digit(t[0]) then t else SkipDigits(t[1..])
  }

  function SkipFraction(t: string): (r: string)
    ensures |r| <= |t|
  {
    if |t| > 1 && t[0] == '.' && Digit(t[1]) then SkipDigits(t[1..]) else t
  }

  function SkipExponent(t: string): (r: string)
    ensures |r| <= |t|
  {
    if t == "" || (t[0] != 'e' && t[0] != 'E') then t
    else
      var u := if |t| > 1 && (t[1] == '+' || t[1] == '-') then t[2..] else t[1..];
      if u != "" && Digit(u[0]) then SkipDigits(u) else t
  }

  /** Section 6 of RFC 8259: no leading zeros and no plus sign. */
  function SkipNumber(t: string): (r: Option<string>)
    ensures r.Some? ==> |r.value| < |t|
  {
    var u := if t != "" && t[0] == '-' then t[1..] else t;
    if u == "" || !Digit(u[0]) then None
    else Some(SkipExponent(SkipFraction(if u[0] == '0' then u[1..] else SkipDigits(u[1..]))))
  }

  /** A number or one of the literals of section 3 of RFC 8259. */
  function SkipAtom(t: string): (r: Option<string>)
    ensures r.Some? ==> |r.value| < |t|
  {
    if "true" <= t then Some(t[4..])
    else if "false" <= t then Some(t[5..])
    else if "null" <= t then Some(t[4..])
    else SkipNumber(t)
  }

  /** What may follow a number without becoming part of it. */
  predicate Stops(t: string) {
    t == "" || (!Digit(t[0]) && t[0] != '.' && t[0] != 'e' && t[0] != 'E')
  }

  function SkipString(t: string): (r: Option<string>)
    ensures r.Some? ==> |r.value| < |t|
  {
    Escapes.ParseShorter(t);
    var p := Escapes.Parse(t);
    if p.None? then None else Some(p.value.1)
  }

  /** What follows one value at the start of the text. */
  function Skip(t: string): (r: Option<string>)
    ensures r.Some? ==> |r.value| < |t|
    decreases |t|, 0
  {
    if t == "" then None
    else if t[0] == '"' then SkipString(t[1..])
    else if t[0] == '{' then (if |t| > 1 && t[1] == '}' then Some(t[2..]) else SkipMembers(t[1..]))
    else if t[0] == '[' then (if |t| > 1 && t[1] == ']' then Some(t[2..]) else SkipElements(t[1..]))
    else SkipAtom(t)
  }

  function SkipElements(t: string): (r: Option<string>)
    ensures r.Some? ==> |r.value| < |t|
    decreases |t|, 1
  {
    var v := Skip(t);
    if v.None? || v.value == "" then None
    else if v.value[0] == ']' then Some(v.value[1..])
    else if v.value[0] == ',' then SkipElements(v.value[1..])
    else None
  }

  function SkipMembers(t: string): (r: Option<string>)
    ensures r.Some? ==> |r.value| < |t|
    decreases |t|, 1
  {
    if t == "" || t[0] != '"' then None
    else
      var k := SkipString(t[1..]);
      if k.None? || k.value == "" || k.value[0] != ':' then None
      else
        var v := Skip(k.value[1..]);
        if v.None? || v.value == "" then None
        else if v.value[0] == '}' then Some(v.value[1..])
        else if v.value[0] == ',' then SkipMembers(v.value[1..])
        else None
  }

  /** The text is one value on its own, whatever follows it. */
  ghost predicate Embeddable(text: string) {
    && text != "" && text[|text| - 1] !in "[{:"
    && forall rest: string :: Stops(rest) ==> Skip(text + rest) == Some(rest)
  }

  /** All raw texts inside are values. */
  ghost predicate Fine(v: Value)
    decreases v, 0
  {
    match v
    case Str(_) => true
    case Raw(text) => Embeddable(text)
    case Arr(vs) => forall i :: 0 <= i < |vs| ==> Fine(vs[i])
    case Obj(ms) => AllFine(ms)
  }

  ghost predicate AllFine(ms: seq<Member>)
    decreases ms, 1
  {
    forall i :: 0 <= i < |ms| ==> Fine(ms[i].value)
  }

  lemma {:induction false} PartsParsed(parts: seq<string>, rest: string)
    ensures Escapes.Parse(Bodies(parts) + "\"" + rest) == Some((Concat(parts), rest))
  {
    hide Escapes.Body;
    if parts == [] {
      assert Bodies(parts) + "\"" + rest == "\"" + rest;
    } else {
      hide Escapes.Parse, Bodies, Concat;
      var u := Bodies(parts[1..]) + "\"" + rest;
      PartsParsed(parts[1..], rest);
      Escapes.BodyThen(parts[0], u);
      PartsFirst(parts);
      assert Bodies(parts) + "\"" + rest == Escapes.Body(parts[0]) + u;
    }
  }

  lemma PartsFirst(parts: seq<string>)
    requires parts != []
    ensures Bodies(parts) == Escapes.Body(parts[0]) + Bodies(parts[1..]) && Concat(parts) == parts[0] + Concat(parts[1..])
  {
    hide Escapes.Body;
  }

  lemma StringSkipped(parts: seq<string>, rest: string)
    ensures Skip("\"" + Bodies(parts) + "\"" + rest) == Some(rest)
  {
    hide Escapes.Parse, Bodies;
    PartsParsed(parts, rest);
    var t := "\"" + Bodies(parts) + "\"" + rest;
    assert t[1..] == Bodies(parts) + "\"" + rest;
  }

  lemma PlainKeySkipped(k: string, u: string)
    ensures (Key(k) + u)[0] == '"' && SkipString((Key(k) + u)[1..]) == Some(":" + u)
  {
    hide Escapes.Body, Escapes.Parse;
    Escapes.RoundTrip(k, ":" + u);
    assert (Key(k) + u)[1..] == Escapes.Body(k) + "\"" + (":" + u);
  }

  lemma MarshaledKeySkipped(k: string, u: string)
    ensures (MarshaledKey(k) + u)[0] == '"' && SkipString((MarshaledKey(k) + u)[1..]) == Some(":" + u)
  {
    hide Marshal.Body, Escapes.Parse;
    Marshal.RoundTrip(k, ":" + u);
    assert (MarshaledKey(k) + u)[1..] == Marshal.Body(k) + "\"" + (":" + u);
  }

  lemma KeySkipped(m: Member, u: string)
    ensures var t := KeyText(m) + u; t[0] == '"' && SkipString(t[1..]) == Some(":" + u)
  {
    hide Key, MarshaledKey, SkipString;
    if m.Member? {
      PlainKeySkipped(m.key, u);
    } else {
      MarshaledKeySkipped(m.key, u);
    }
  }

  lemma RenderedClosed(v: Value)
    requires Fine(v)
    ensures Render(v) != "" && Render(v)[|Render(v)| - 1] !in "[{:" && Render(v)[0] != ']' && Render(v)[0] != '}'
  {
    if v.Raw? {
      assert Skip(v.text + "") == Some("");
    }
  }

  lemma ElementsLast(t: string, rest: string)
    requires Skip(t) == Some("]" + rest)
    ensures SkipElements(t) == Some(rest)
  {
    hide Skip;
    assert ("]" + rest)[1..] == rest;
  }

  lemma ElementsMore(t: string, u: string, rest: string)
    requires Skip(t) == Some("," + u) && SkipElements(u) == Some(rest)
    ensures SkipElements(t) == Some(rest)
  {
    hide Skip;
    assert ("," + u)[1..] == u;
  }

  lemma MembersLast(m: Member, t: string, rest: string)
    requires Skip(t) == Some("}" + rest)
    ensures SkipMembers(KeyText(m) + t) == Some(rest)
  {
    hide Skip, KeyText, SkipString;
    KeySkipped(m, t);
    assert ("}" + rest)[1..] == rest && (":" + t)[1..] == t;
  }

  lemma MembersMore(m: Member, t: string, u: string, rest: string)
    requires Skip(t) == Some("," + u) && SkipMembers(u) == Some(rest)
    ensures SkipMembers(KeyText(m) + t) == Some(rest)
  {
    hide Skip, KeyText, SkipString;
    KeySkipped(m, t);
    assert ("," + u)[1..] == u && (":" + t)[1..] == t;
  }

  lemma {:induction false} ElementsSkipped(vs: seq<Value>, rest: string)
    requires vs != [] && forall i :: 0 <= i < |vs| ==> Fine(vs[i])
    ensures SkipElements(RenderElements(vs) + "]" + rest) == Some(rest)
    decreases vs, 1
  {
    hide Skip, SkipElements, Fine, Render;
    if |vs| == 1 {
      ValueSkipped(vs[0], "]" + rest);
      assert RenderElements(vs) + "]" + rest == Render(vs[0]) + ("]" + rest);
      ElementsLast(RenderElements(vs) + "]" + rest, rest);
    } else {
      var u := RenderElements(vs[1..]) + "]" + rest;
      ValueSkipped(vs[0], "," + u);
      assert RenderElements(vs) + "]" + rest == Render(vs[0]) + ("," + u);
      ElementsSkipped(vs[1..], rest);
      ElementsMore(RenderElements(vs) + "]" + rest, u, rest);
    }
  }

  lemma {:induction false} MembersSkipped(ms: seq<Member>, rest: string)
    requires ms != [] && AllFine(ms)
    ensures SkipMembers(RenderMembers(ms) + "}" + rest) == Some(rest)
    decreases ms, 1
  {
    hide Skip, SkipMembers, Fine, Render, KeyText;
    var m, v := ms[0], Render(ms[0].value);
    if |ms| == 1 {
      ValueSkipped(ms[0].value, "}" + rest);
      assert RenderMembers(ms) + "}" + rest == KeyText(m) + (v + ("}" + rest));
      MembersLast(m, v + ("}" + rest), rest);
    } else {
      var u := RenderMembers(ms[1..]) + "}" + rest;
      ValueSkipped(ms[0].value, "," + u);
      assert RenderMembers(ms) + "}" + rest == KeyText(m) + (v + ("," + u));
      MembersSkipped(ms[1..], rest);
      MembersMore(m, v + ("," + u), u, rest);
    }
  }

  /** What is rendered is one balanced value with commas exactly between members and elements. */
  lemma {:induction false} ValueSkipped(v: Value, rest: string)
    requires Fine(v) && Stops(rest)
    ensures Skip(Render(v) + rest) == Some(rest)
    decreases v, 0
  {
    hide SkipMembers, SkipElements, RenderElements, RenderMembers, SkipString, SkipAtom, Stops, AllFine;
    match v
    case Str(parts) => StringSkipped(parts, rest);
    case Raw(text) =>
    case Arr(vs) =>
      if vs == [] {
        EmptyTexts();
        assert Render(v) + rest == "[]" + rest;
        assert ("[]" + rest)[2..] == rest;
      } else {
        ElementsSkipped(vs, rest);
        FirstElement(vs);
        var t := RenderElements(vs) + "]" + rest;
        assert Render(v) + rest == "[" + t;
        assert ("[" + t)[1..] == t && ("[" + t)[1] == t[0];
      }
    case Obj(ms) =>
      if ms == [] {
        EmptyTexts();
        assert Render(v) + rest == "{}" + rest;
        assert ("{}" + rest)[2..] == rest;
      } else {
        MembersSkipped(ms, rest);
        FirstMember(ms);
        var t := RenderMembers(ms) + "}" + rest;
        assert Render(v) + rest == "{" + t;
        assert ("{" + t)[1..] == t && ("{" + t)[1] == t[0];
      }
  }

  lemma EmptyTexts()
    ensures RenderElements([]) == "" && RenderMembers([]) == ""
  {
  }

  lemma FirstElement(vs: seq<Value>)
    requires vs != [] && Fine(vs[0])
    ensures RenderElements(vs) != "" && RenderElements(vs)[0] != ']'
  {
    RenderedClosed(vs[0]);
  }

  lemma FirstMember(ms: seq<Member>)
    requires ms != []
    ensures RenderMembers(ms) != "" && RenderMembers(ms)[0] == '"'
  {
  }

  // ---- Texts that are no values ------------------------------------------------------

  /** No value starts with this text. */
  ghost predicate Unreadable(text: string) {
    text != "" && text[0] != ']' && forall rest: string :: Skip(text + rest) == None
  }

  /** A raw text inside is not a value, and everything before it is. */
  ghost predicate Broken(v: Value)
    decreases v, 0
  {
    match v
    case Str(_) => false
    case Raw(text) => Unreadable(text)
    case Arr(vs) => exists i: nat :: i < |vs| && Broken(vs[i]) && forall j: nat :: j < i ==> Fine(vs[j])
    case Obj(ms) => exists i: nat :: BrokenAt(ms, i)
  }

  ghost predicate BrokenAt(ms: seq<Member>, i: nat)
    decreases ms, 1
  {
    i < |ms| && Broken(ms[i].value) && forall j: nat :: j < i ==> Fine(ms[j].value)
  }

  lemma FirstBroken(v: Value)
    requires Broken(v)
    ensures Render(v) != "" && Render(v)[0] != ']'
  {
  }

  lemma ElementsStop(t: string)
    requires Skip(t) == None
    ensures SkipElements(t) == None
  {
  }

  lemma MembersStop(m: Member, t: string)
    requires Skip(t) == None
    ensures SkipMembers(KeyText(m) + t) == None
  {
    hide Skip, KeyText, SkipString;
    KeySkipped(m, t);
    assert (":" + t)[1..] == t;
  }

  lemma ElementsPass(t: string, u: string)
    requires Skip(t) == Some("," + u) && SkipElements(u) == None
    ensures SkipElements(t) == None
  {
    hide Skip;
    assert ("," + u)[1..] == u;
  }

  lemma MembersPass(m: Member, t: string, u: string)
    requires Skip(t) == Some("," + u) && SkipMembers(u) == None
    ensures SkipMembers(KeyText(m) + t) == None
  {
    hide Skip, KeyText, SkipString;
    KeySkipped(m, t);
    assert ("," + u)[1..] == u && (":" + t)[1..] == t;
  }

  lemma {:induction false} ElementsBroken(vs: seq<Value>, i: nat, rest: string)
    requires i < |vs| && Broken(vs[i]) && forall j: nat :: j < i ==> Fine(vs[j])
    ensures SkipElements(RenderElements(vs) + rest) == None
    decreases vs, 1
  {
    hide Skip, SkipElements, Fine, Render, Broken;
    if i == 0 {
      var more := if |vs| == 1 then rest else "," + RenderElements(vs[1..]) + rest;
      ValueBroken(vs[0], more);
      assert RenderElements(vs) + rest == Render(vs[0]) + more;
      ElementsStop(RenderElements(vs) + rest);
    } else {
      var u := RenderElements(vs[1..]) + rest;
      ValueSkipped(vs[0], "," + u);
      assert RenderElements(vs) + rest == Render(vs[0]) + ("," + u);
      ElementsBroken(vs[1..], i - 1, rest);
      ElementsPass(RenderElements(vs) + rest, u);
    }
  }

  lemma {:induction false} MembersBroken(ms: seq<Member>, i: nat, rest: string)
    requires BrokenAt(ms, i)
    ensures SkipMembers(RenderMembers(ms) + rest) == None
    decreases ms, 1
  {
    hide Skip, SkipMembers, Fine, Render, Broken, KeyText;
    var m, v := ms[0], Render(ms[0].value);
    if i == 0 {
      var more := if |ms| == 1 then rest else "," + RenderMembers(ms[1..]) + rest;
      ValueBroken(m.value, more);
      assert RenderMembers(ms) + rest == KeyText(m) + (v + more);
      MembersStop(m, v + more);
    } else {
      var u := RenderMembers(ms[1..]) + rest;
      ValueSkipped(m.value, "," + u);
      assert RenderMembers(ms) + rest == KeyText(m) + (v + ("," + u));
      assert BrokenAt(ms[1..], i - 1);
      MembersBroken(ms[1..], i - 1, rest);
      MembersPass(m, v + ("," + u), u);
    }
  }

  /** A rendered value with a raw text that is none is not a value. */
  lemma {:induction false} ValueBroken(v: Value, rest: string)
    requires Broken(v)
    ensures Skip(Render(v) + rest) == None
    decreases v, 0
  {
    hide SkipMembers, SkipElements, RenderElements, RenderMembers, SkipString, SkipAtom, Fine;
    match v
    case Raw(text) =>
    case Arr(vs) =>
      var i: nat :| i < |vs| && Broken(vs[i]) && forall j: nat :: j < i ==> Fine(vs[j]);
      ElementsBroken(vs, i, "]" + rest);
      var t := RenderElements(vs) + ("]" + rest);
      if i == 0 {
        FirstBroken(vs[0]);
      } else {
        RenderedClosed(vs[0]);
      }
      FirstOf(vs);
      assert Render(v) + rest == "[" + t;
      assert ("[" + t)[1..] == t && ("[" + t)[1] == t[0];
    case Obj(ms) =>
      var i: nat :| BrokenAt(ms, i);
      MembersBroken(ms, i, "}" + rest);
      FirstMember(ms);
      var t := RenderMembers(ms) + ("}" + rest);
      assert Render(v) + rest == "{" + t;
      assert ("{" + t)[1..] == t && ("{" + t)[1] == t[0];
  }

  lemma FirstOf(vs: seq<Value>)
    requires vs != [] && Render(vs[0]) != "" && Render(vs[0])[0] != ']'
    ensures RenderElements(vs) != "" && RenderElements(vs)[0] != ']'
  {
  }

  lemma {:induction false} MembersAppend(a: seq<Member>, b: seq<Member>)
    requires a != [] && b != []
    ensures RenderMembers(a + b) == RenderMembers(a) + "," + RenderMembers(b)
  {
    hide RenderMember;
    assert (a + b)[1..] == a[1..] + b && (a + b)[0] == a[0];
    if |a| > 1 {
      MembersAppend(a[1..], b);
      assert RenderMember(a[0]) + "," + (RenderMembers(a[1..]) + "," + RenderMembers(b)) == RenderMembers(a) + "," + RenderMembers(b);
    } else {
      assert a[1..] + b == b;
    }
  }

  lemma {:induction false} ElementsSnoc(vs: seq<Value>, v: Value)
    requires vs != []
    ensures RenderElements(vs + [v]) == RenderElements(vs) + "," + Render(v)
  {
    hide Render;
    assert (vs + [v])[1..] == vs[1..] + [v] && (vs + [v])[0] == vs[0];
    if |vs| > 1 {
      ElementsSnoc(vs[1..], v);
      assert Render(vs[0]) + "," + (RenderElements(vs[1..]) + "," + Render(v)) == RenderElements(vs) + "," + Render(v);
    } else {
      assert vs[1..] + [v] == [v];
    }
  }
}
