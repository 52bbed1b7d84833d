/** Texts as they are written, letter by letter: the words and digits that the formats fix. */
module Examples {
  import opened Options
  import Decimal
  import Hex
  import Runes
  import Escapes
  import Quote
  import Console
  import ConsoleRequest
  import Trace
  import SequenceCode
  import Json
  import JsonLine

  lemma Numbers()
    ensures Decimal.Of(-1203) == "-1203" && Decimal.Of(0) == "0"
    ensures Hex.Encode([0x1f, 0xa0]) == "1fa0"
    ensures SequenceCode.Base26(0) == "A" && SequenceCode.Base26(25) == "Z" && SequenceCode.Base26(26) == "BA" && SequenceCode.Base26(-27) == "-BB"
  {
    assert Decimal.Digits(1) == "1" && Decimal.Digits(12) == "12" && Decimal.Digits(120) == "120" && Decimal.Digits(1203) == "1203";
    assert [0x1f, 0xa0][1..] == [0xa0] && [0xa0][1..] == [];
    assert Hex.Encode([0xa0]) == "a0" + "";
    assert SequenceCode.Letters(1) == "B";
  }

  /** The euro sign, and bytes that start no rune: an overlong form, a surrogate, and a number beyond the last rune. */
  lemma FirstRunes()
    ensures Runes.Utf8(0x20AC) == [0xE2 as char, 0x82 as char, 0xAC as char]
    ensures Runes.Rune([0xE2 as char, 0x82 as char, 0xAC as char]) == Some((0x20AC, 3))
    ensures Runes.Rune([0xC0 as char, 0x80 as char]) == None
    ensures Runes.Rune([0xED as char, 0xA0 as char, 0x80 as char]) == None
    ensures Runes.Rune([0xF4 as char, 0x90 as char, 0x80 as char, 0x80 as char]) == None
  {
  }

  lemma NextCode(past: seq<SequenceCode.Op>, op: SequenceCode.Op, part: string)
    requires SequenceCode.WellUsed(past) && SequenceCode.WellUsed(past + [op]) && op.parent <= |past|
    requires SequenceCode.Part(op, SequenceCode.Times(past, op) + 1) == part
    ensures SequenceCode.Codes(past + [op], "") == SequenceCode.Codes(past, "") + [SequenceCode.Codes(past, "")[op.parent] + "." + part]
  {
    hide SequenceCode.Part, SequenceCode.Times;
    assert (past + [op])[..|past|] == past && (past + [op])[|past|] == op;
    TimesNext(past, op, op);
  }

  lemma FirstParts()
    ensures SequenceCode.Part(SequenceCode.Fork(0), 1) == "A" && SequenceCode.Part(SequenceCode.Fork(0), 2) == "B"
    ensures SequenceCode.Part(SequenceCode.Fork(1), 1) == "A" && SequenceCode.Part(SequenceCode.Step(0), 1) == "1"
  {
  }

  lemma TimesNext(past: seq<SequenceCode.Op>, op: SequenceCode.Op, other: SequenceCode.Op)
    ensures SequenceCode.Times(past + [op], other) == SequenceCode.Times(past, other) + (if op == other then 1 else 0)
  {
    assert (past + [op])[..|past|] == past;
  }

  lemma Counted()
    ensures var a, c, d := SequenceCode.Fork(0), SequenceCode.Step(0), SequenceCode.Fork(1);
            && SequenceCode.Times([], a) == 0 && SequenceCode.Times([a], a) == 1
            && SequenceCode.Times([a, a], c) == 0 && SequenceCode.Times([a, a, c], d) == 0
  {
    var a, c, d := SequenceCode.Fork(0), SequenceCode.Step(0), SequenceCode.Fork(1);
    assert [] + [a] == [a] && [a] + [a] == [a, a] && [a, a] + [c] == [a, a, c];
    TimesNext([], a, a);
    TimesNext([], a, c);
    TimesNext([], a, d);
    TimesNext([a], a, c);
    TimesNext([a], a, d);
    TimesNext([a, a], c, d);
  }

  /** Forks get letters, steps get numbers. */
  lemma ForksAndSteps()
    ensures var ops := [SequenceCode.Fork(0), SequenceCode.Fork(0), SequenceCode.Step(0), SequenceCode.Fork(1)];
            SequenceCode.WellUsed(ops) && SequenceCode.Codes(ops, "") == [""] + ["" + "." + "A"] + ["" + "." + "B"] + ["" + "." + "1"] + ["" + "." + "A" + "." + "A"]
  {
    hide SequenceCode.Part, SequenceCode.Times, SequenceCode.Codes;
    var a, c, d := SequenceCode.Fork(0), SequenceCode.Step(0), SequenceCode.Fork(1);
    FirstParts();
    Counted();
    assert [] + [a] == [a] && [a] + [a] == [a, a] && [a, a] + [c] == [a, a, c] && [a, a, c] + [d] == [a, a, c, d];
    NoCodes();
    NextCode([], a, "A");
    NextCode([a], a, "B");
    NextCode([a, a], c, "1");
    NextCode([a, a, c], d, "A");
  }

  lemma NoCodes()
    ensures SequenceCode.Codes([], "") == [""]
  {
  }

  /** Bytes are cut off or filled up at the end. */
  lemma Fitted()
    ensures Trace.Fit(4, [1, 2]) == [1, 2, 0, 0] && Trace.Fit(1, [1, 2]) == [1]
  {
  }

  predicate Ascii(n: nat) { 32 <= n < 127 }

  lemma QuotedStrings()
    ensures Quote.Quoted(['"', 7 as char], Ascii) == "\"" + "\\\"\\a" + "\"" && Quote.Quoted([0x80 as char], Ascii) == "\"" + "\\x80" + "\""
  {
    var s := ['"', 7 as char];
    assert s[1..] == [7 as char] && [7 as char][1..] == "" && [0x80 as char][1..] == "";
    assert Quote.HexN(0x80, 2) == "80";
    assert Quote.Body([0x80 as char], Ascii) == "\\x80" + "";
    assert Quote.Body([7 as char], Ascii) == "\\a" + "";
    assert Quote.Body(s, Ascii) == "\\\"" + "\\a";
  }

  lemma EscapedString()
    ensures Escapes.Body("a\n<") == "a\\n\\u003c" && Escapes.Body("a>") == "a>"
  {
    var s := "a\n<";
    assert s[1..] == "\n<" && s[1..][1..] == "<" && "<"[1..] == "";
    assert Escapes.Mapped("<") == "\\u003c" + "";
    assert Escapes.Mapped("\n<") == "\\n" + Escapes.Mapped("<");
    assert Escapes.Mapped(s) == "a" + Escapes.Mapped("\n<");
    assert Escapes.Listed(s[1]);
  }

  lemma Words()
    ensures Console.Written("w", Ascii) == "w" && Console.Written("a", Ascii) == "a" && Console.Written("n", Ascii) == "n"
    ensures Console.Written("s", Ascii) == "s" && Console.Written("b", Ascii) == "b"
  {
  }

  lemma LastItem(key: string, x: string)
    ensures ConsoleRequest.ItemsText([ConsoleRequest.Item(key, x, x)]) == key + ":" + x
  {
    var i := ConsoleRequest.Item(key, x, x);
    assert [i][1..] == [] && ConsoleRequest.ItemsText([i]) == key + ([':'] + (x + ""));
  }

  lemma FirstItem(key: string, x: string, more: seq<ConsoleRequest.Item>)
    requires ConsoleRequest.ItemsText(more) != ""
    ensures ConsoleRequest.ItemsText([ConsoleRequest.Item(key, x, x)] + more) == key + ":" + x + " " + ConsoleRequest.ItemsText(more)
  {
    var i := ConsoleRequest.Item(key, x, x);
    assert ([i] + more)[1..] == more;
    var u := " " + ConsoleRequest.ItemsText(more);
    assert key + ([':'] + (x + u)) == key + ":" + x + u;
  }

  /** The start of a request on the console. */
  lemma StartRecord(trace: Trace.Ids, parent: Trace.Ids)
    requires parent.traceID != trace.traceID && !ConsoleRequest.IsZero(parent)
    ensures ConsoleRequest.Printed(ConsoleRequest.Request(trace, "w", "a", "n", parent, "s", "b"), Ascii) ==
            Trace.Header(trace) + " " + "w" + " " + "a" + " " + "n"
            + (" " + ("parent" + ":" + Trace.Header(parent) + " " + ("state" + ":" + "s" + " " + ("baggage" + ":" + "b"))))
  {
    hide Console.Written, Trace.Header, ConsoleRequest.ItemsText, ConsoleRequest.Printed;
    var r := ConsoleRequest.Request(trace, "w", "a", "n", parent, "s", "b");
    Words();
    ConsoleRequest.PrintedIs(r, Ascii);
    var h := Trace.Header(parent);
    var x, y, z := ConsoleRequest.Item("parent", h, h), ConsoleRequest.Item("state", "s", "s"), ConsoleRequest.Item("baggage", "b", "b");
    LastItem("baggage", "b");
    FirstItem("state", "s", [z]);
    FirstItem("parent", h, [y] + [z]);
    assert ConsoleRequest.Items(r, Ascii) == [x] + ([y] + [z]);
  }

  /** A whole line with one attribute. */
  lemma OneLine()
    ensures Json.Render(JsonLine.LineObject(JsonLine.Head("info", "17", [], []), [JsonLine.BoolAttribute("ok", true)], true, "", JsonLine.Msg("hi"))) ==
            "{" + ("\"lvl\":\"info\"" + "," + "\"ts\":17" + "," + ("\"attributes\":{\"ok\":{\"v\":true,\"t\":\"bool\"}}" + "," + "\"msg\":\"hi\"")) + "}"
  {
    hide Json.Render, Json.RenderMembers, Json.RenderMember, Json.Key, Escapes.Body;
    var ok := JsonLine.BoolAttribute("ok", true);
    var l, t := Json.Member("lvl", JsonLine.Safe("info")), Json.Member("ts", Json.Raw("17"));
    var a, m := Json.Member("attributes", Json.Obj(JsonLine.MembersOf([ok]))), Json.Member("msg", Json.Str(["", "hi"]));
    assert JsonLine.LineObject(JsonLine.Head("info", "17", [], []), [ok], true, "", JsonLine.Msg("hi")) == Json.Obj([l, t, a, m]) by {
      assert [l, t] + [] + [] + [a] + [m] == [l, t, a, m];
    }
    JsonLine.ObjectIs([l, t, a, m]);
    assert [l, t, a, m] == [l, t] + [a, m];
    Json.MembersAppend([l, t], [a, m]);
    JsonLine.TwoMembers(l, t);
    JsonLine.TwoMembers(a, m);
    Ends();
    Attributes(ok);
  }

  lemma KeysPlain()
    ensures JsonLine.Plain("lvl") && JsonLine.Plain("ts") && JsonLine.Plain("attributes") && JsonLine.Plain("msg") && JsonLine.Plain("ok")
  {
  }

  lemma Ends()
    ensures Json.RenderMember(Json.Member("lvl", JsonLine.Safe("info"))) == "\"lvl\":\"info\""
    ensures Json.RenderMember(Json.Member("ts", Json.Raw("17"))) == "\"ts\":17"
    ensures Json.RenderMember(Json.Member("msg", Json.Str(["", "hi"]))) == "\"msg\":\"hi\""
  {
    KeysPlain();
    hide Json.Render, Json.RenderMember, Json.Key, JsonLine.Plain;
    JsonLine.SafeMember("lvl", "info");
    JsonLine.RawIs("17");
    JsonLine.MemberIs("ts", Json.Raw("17"), "17");
    Message();
    JsonLine.MemberIs("msg", Json.Str(["", "hi"]), "\"hi\"");
  }

  lemma Message()
    ensures Json.Render(Json.Str(["", "hi"])) == "\"hi\""
  {
    JsonLine.TwoPartsRendered("", "hi");
    assert Escapes.Body("") == "" && Escapes.Body("hi") == "hi";
  }

  lemma Attributes(ok: JsonLine.Attribute)
    requires ok == JsonLine.BoolAttribute("ok", true)
    ensures Json.RenderMember(Json.Member("attributes", Json.Obj(JsonLine.MembersOf([ok])))) == "\"attributes\":{\"ok\":{\"v\":true,\"t\":\"bool\"}}"
  {
    KeysPlain();
    hide Json.Render, Json.RenderMembers, Json.RenderMember, Json.Key, JsonLine.Plain;
    var v := JsonLine.ValueOf(ok);
    assert JsonLine.MembersOf([ok]) == [Json.Member("ok", v)];
    BoolText();
    JsonLine.MemberIs("ok", v, "{\"v\":true,\"t\":\"bool\"}");
    JsonLine.OneMember(Json.Member("ok", v));
    JsonLine.ObjectIs([Json.Member("ok", v)]);
    OkGlue();
    JsonLine.MemberIs("attributes", Json.Obj([Json.Member("ok", v)]), "{\"ok\":{\"v\":true,\"t\":\"bool\"}}");
    AttributesGlue();
  }

  lemma OkGlue()
    ensures "{" + ("\"" + "ok" + "\":" + "{\"v\":true,\"t\":\"bool\"}") + "}" == "{\"ok\":{\"v\":true,\"t\":\"bool\"}}"
  {
  }

  lemma AttributesGlue()
    ensures "\"" + "attributes" + "\":" + "{\"ok\":{\"v\":true,\"t\":\"bool\"}}" == "\"attributes\":{\"ok\":{\"v\":true,\"t\":\"bool\"}}"
  {
  }

  lemma BoolText()
    ensures Json.Render(JsonLine.ValueOf(JsonLine.BoolAttribute("ok", true))) == "{\"v\":true,\"t\":\"bool\"}"
  {
    hide Json.Render;
    JsonLine.PairText("", Json.Raw("true"), "true", "bool");
    assert "" + "{\"v\":" + "true" + (",\"t\":\"" + "bool" + "\"}") == "{\"v\":true,\"t\":\"bool\"}";
    var x := Json.Render(JsonLine.ValueOf(JsonLine.BoolAttribute("ok", true)));
    assert "" + x == x;
  }
}
