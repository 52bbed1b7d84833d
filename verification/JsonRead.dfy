/** A reader of JSON texts: the members of an object and the elements of an array, with the texts of their values. */
module JsonRead {
  import opened Options
  import opened Json
  import Escapes
  import Marshal
  import Runes

  /** A member as it is read: its decoded key and the text of its value. */
  datatype Entry = Entry(key: string, raw: string)

  /** The members after an opening brace, and what follows the closing one. */
  function Entries(t: string): Option<(seq<Entry>, string)>
    decreases |t|
  {
    Escapes.ParseShorter(if t == "" then "" else t[1..]);
    if t == "" || t[0] != '"' then None
    else
      var k := Escapes.Parse(t[1..]);
      if k.None? || k.value.1 == "" || k.value.1[0] != ':' then None
      else
        var u := k.value.1[1..];
        var v := Skip(u);
        if v.None? || v.value == "" then None
        else Following(Entry(k.value.0, u[..|u| - |v.value|]), v.value[0] == '}', v.value[1..],
                       if v.value[0] == ',' then Entries(v.value[1..]) else None)
  }

  function Following(e: Entry, last: bool, rest: string, more: Option<(seq<Entry>, string)>): Option<(seq<Entry>, string)> {
    if last then Some(([e], rest))
    else if more.None? then None
    else Some(([e] + more.value.0, more.value.1))
  }

  function ObjectIn(t: string): Option<(seq<Entry>, string)> {
    if |t| < 2 || t[0] != '{' then None
    else if t[1] == '}' then Some(([], t[2..]))
    else Entries(t[1..])
  }

  /** The texts of the elements after an opening bracket, and what follows the closing one. */
  function Elements(t: string): Option<(seq<string>, string)>
    decreases |t|
  {
    var v := Skip(t);
    if v.None? || v.value == "" then None
    else
      var raw := t[..|t| - |v.value|];
      if v.value[0] == ']' then Some(([raw], v.value[1..]))
      else if v.value[0] != ',' then None
      else
        var more := Elements(v.value[1..]);
        if more.None? then None else Some(([raw] + more.value.0, more.value.1))
  }

  function ArrayIn(t: string): Option<(seq<string>, string)> {
    if |t| < 2 || t[0] != '[' then None
    else if t[1] == ']' then Some(([], t[2..]))
    else Elements(t[1..])
  }

  function StringIn(raw: string): Option<string> {
    if raw == "" || raw[0] != '"' then None
    else
      var p := Escapes.Parse(raw[1..]);
      if p.None? || p.value.1 != "" then None else Some(p.value.0)
  }

  // ---- What is rendered is read back ------------------------------------------------------

  /** Keys of registered attributes come back up to bytes that are not UTF-8. */
  function KeySeen(m: Member): string {
    if m.Member? then m.key else Runes.Repaired(m.key)
  }

  function SeenOne(m: Member): Entry {
    Entry(KeySeen(m), Render(m.value))
  }

  function Seen(ms: seq<Member>): seq<Entry> {
    seq(|ms|, i requires 0 <= i < |ms| => SeenOne(ms[i]))
  }

  lemma SeenAppend(a: seq<Member>, b: seq<Member>)
    ensures Seen(a + b) == Seen(a) + Seen(b)
  {
    hide SeenOne;
  }

  lemma KeyRead(m: Member, u: string)
    ensures var t := KeyText(m) + u;
            t != "" && t[0] == '"' && Escapes.Parse(t[1..]) == Some((KeySeen(m), ":" + u))
  {
    hide Escapes.Parse, Escapes.Body, Marshal.Body;
    if m.Member? {
      Escapes.RoundTrip(m.key, ":" + u);
      assert (Key(m.key) + u)[1..] == Escapes.Body(m.key) + "\"" + (":" + u);
    } else {
      Marshal.RoundTrip(m.key, ":" + u);
      assert (MarshaledKey(m.key) + u)[1..] == Marshal.Body(m.key) + "\"" + (":" + u);
    }
  }

  lemma Cut(x: string, y: string)
    ensures (x + y)[..|x + y| - |y|] == x
  {
  }

  /** One member, and what follows its value. */
  lemma EntryRead(m: Member, after: string)
    requires Skip(Render(m.value) + after) == Some(after) && after != "" && (after[0] == '}' || after[0] == ',')
    ensures Entries(KeyText(m) + (Render(m.value) + after)) ==
            Following(SeenOne(m), after[0] == '}', after[1..], if after[0] == ',' then Entries(after[1..]) else None)
  {
    hide Skip, KeyText, Render, KeySeen, Escapes.Parse;
    var u := Render(m.value) + after;
    KeyRead(m, u);
    assert (":" + u)[1..] == u;
    Cut(Render(m.value), after);
  }

  lemma {:induction false} EntriesRead(ms: seq<Member>, rest: string)
    requires ms != [] && AllFine(ms)
    ensures Entries(RenderMembers(ms) + "}" + rest) == Some((Seen(ms), rest))
  {
    hide Skip, Entries, Fine, Render, KeyText, SeenOne;
    var m, v := ms[0], Render(ms[0].value);
    if |ms| == 1 {
      ValueSkipped(m.value, "}" + rest);
      assert RenderMembers(ms) + "}" + rest == KeyText(m) + (v + ("}" + rest));
      EntryRead(m, "}" + rest);
      assert ("}" + rest)[1..] == rest;
      assert Seen(ms) == [SeenOne(m)];
    } else {
      var u := RenderMembers(ms[1..]) + "}" + rest;
      ValueSkipped(m.value, "," + u);
      assert RenderMembers(ms) + "}" + rest == KeyText(m) + (v + ("," + u));
      EntryRead(m, "," + u);
      assert ("," + u)[1..] == u;
      EntriesRead(ms[1..], rest);
      assert Seen(ms) == [SeenOne(m)] + Seen(ms[1..]);
    }
  }

  lemma ObjectRead(ms: seq<Member>, rest: string)
    requires AllFine(ms)
    ensures ObjectIn(Render(Obj(ms)) + rest) == Some((Seen(ms), rest))
  {
    hide Entries, RenderMembers, AllFine, SeenOne;
    var t := RenderMembers(ms) + "}" + rest;
    assert Render(Obj(ms)) + rest == "{" + t;
    assert ("{" + t)[1..] == t;
    if ms == [] {
      EmptyTexts();
      assert t == "}" + rest;
      assert ("{" + ("}" + rest))[2..] == rest && Seen(ms) == [];
    } else {
      EntriesRead(ms, rest);
      FirstMember(ms);
      assert ("{" + t)[1] == t[0];
    }
  }

  function Texts(vs: seq<Value>): seq<string> {
    seq(|vs|, i requires 0 <= i < |vs| => Render(vs[i]))
  }

  lemma {:induction false} ElementsRead(vs: seq<Value>, rest: string)
    requires vs != [] && forall i :: 0 <= i < |vs| ==> Fine(vs[i])
    ensures Elements(RenderElements(vs) + "]" + rest) == Some((Texts(vs), rest))
  {
    hide Skip, Fine, Render;
    var v := Render(vs[0]);
    if |vs| == 1 {
      var after := "]" + rest;
      ValueSkipped(vs[0], after);
      assert RenderElements(vs) + "]" + rest == v + after;
      Cut(v, after);
      assert after[1..] == rest;
      assert Texts(vs) == [v];
    } else {
      var u := RenderElements(vs[1..]) + "]" + rest;
      var after := "," + u;
      ValueSkipped(vs[0], after);
      assert RenderElements(vs) + "]" + rest == v + after;
      Cut(v, after);
      assert after[1..] == u;
      ElementsRead(vs[1..], rest);
      assert Texts(vs) == [v] + Texts(vs[1..]);
    }
  }

  lemma ArrayRead(vs: seq<Value>)
    requires forall i :: 0 <= i < |vs| ==> Fine(vs[i])
    ensures ArrayIn(Render(Arr(vs))) == Some((Texts(vs), ""))
  {
    hide Elements, RenderElements, Fine;
    var t := RenderElements(vs) + "]" + "";
    assert Render(Arr(vs)) == "[" + t;
    assert ("[" + t)[1..] == t;
    if vs == [] {
      EmptyTexts();
      assert t == "]" && ("[" + t)[2..] == "" && Texts(vs) == [];
    } else {
      ElementsRead(vs, "");
      FirstElement(vs);
      assert ("[" + t)[1] == t[0];
    }
  }

  lemma StringRead(parts: seq<string>)
    ensures StringIn(Render(Str(parts))) == Some(Concat(parts))
  {
    hide Escapes.Parse, Bodies;
    PartsParsed(parts, "");
    assert Render(Str(parts))[1..] == Bodies(parts) + "\"" + "";
  }
}
