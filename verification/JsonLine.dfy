/** Log lines of the JSON base logger (xopjson/jsonlogger.go). */
module JsonLine {
  import opened Options
  import opened Json
  import Decimal
  import Escapes

  /** An encoded model; only JSON encodings are embedded as they are. */
  datatype Model = Model(isJson: bool, encoded: string, encoding: string, modelType: string)

  /** A float as it is formatted, without exponent and with as many digits as needed. */
  datatype Float = Finite(negative: bool, whole: nat, fraction: string) | NaN | Infinite(negative: bool)

  predicate FloatOk(f: Float) {
    f.Finite? ==> forall k :: 0 <= k < |f.fraction| ==> Digit(f.fraction[k])
  }

  function FloatText(f: Float): string {
    match f
    case Finite(negative, whole, fraction) =>
      (if negative then "-" else "") + (Decimal.Digits(whole) + (if fraction == "" then "" else "." + fraction))
    case NaN => "NaN"
    case Infinite(negative) => if negative then "-Inf" else "+Inf"
  }

  /** Calls that add an attribute to a line; formatted times and durations come as text. */
  datatype Attribute =
    | AnyAttribute(key: string, model: Model)
    | EnumAttribute(key: string, s: string, i: int)
    | TimeAttribute(key: string, text: string)
    | BoolAttribute(key: string, b: bool)
    | IntAttribute(key: string, i: int, t: string)
    | StringAttribute(key: string, s: string, t: string)
    | FloatAttribute(key: string, f: Float, t: string)
    | DurationAttribute(key: string, text: string)

  datatype Ender =
    | Msg(m: string)
    | Template(m: string)
    | Link(m: string, trace: string)
    | ModelMsg(m: string, model: Model)

  datatype Frame = Frame(file: string, line: int)

  /** A string written without looking at its bytes. */
  function Safe(s: string): Value {
    Raw("\"" + s + "\"")
  }

  predicate Plain(s: string) {
    forall k :: 0 <= k < |s| ==> !Escapes.Listed(s[k])
  }

  function Text(s: string): Value { Str([s]) }

  // ---- The reference: which object a line is ------------------------------------------

  function ModelMembers(key: string, m: Model): seq<Member> {
    if m.isJson then [Member(key, Raw(m.encoded))] else [Member(key, Text(m.encoded)), Member("encoding", Safe(m.encoding))]
  }

  function ValueOf(a: Attribute): Value {
    match a
    case AnyAttribute(_, m) => Obj(ModelMembers("v", m) + [Member("modelType", Text(m.modelType)), Member("t", Safe("any"))])
    case EnumAttribute(_, s, i) => Obj([Member("v", Text(s)), Member("i", Raw(Decimal.Of(i))), Member("t", Safe("enum"))])
    case TimeAttribute(_, text) => Obj([Member("v", Raw(text)), Member("t", Safe("time"))])
    case BoolAttribute(_, b) => Obj([Member("v", Raw(if b then "true" else "false")), Member("t", Safe("bool"))])
    case IntAttribute(_, i, t) => Obj([Member("v", Raw(Decimal.Of(i))), Member("t", Safe(t))])
    case StringAttribute(_, s, t) => Obj([Member("v", Text(s)), Member("t", Safe(t))])
    case FloatAttribute(_, f, t) => Obj([Member("v", Raw(FloatText(f))), Member("t", Safe(t))])
    case DurationAttribute(_, text) => Obj([Member("v", Safe(text)), Member("t", Safe("dur"))])
  }

  /** The keys of enums come from their registration. */
  function AttributeMember(a: Attribute): Member {
    if a.EnumAttribute? then Marshaled(a.key, ValueOf(a)) else Member(a.key, ValueOf(a))
  }

  function MembersOf(attributes: seq<Attribute>): seq<Member> {
    seq(|attributes|, i requires 0 <= i < |attributes| => AttributeMember(attributes[i]))
  }

  function StackOf(frames: seq<Frame>): seq<Value> {
    seq(|frames|, i requires 0 <= i < |frames| => Str([frames[i].file, ":", Decimal.Of(frames[i].line)]))
  }

  /** Level, time, stack frames if any, and what identifies the span. */
  function Head(level: string, ts: string, frames: seq<Frame>, ids: seq<Member>): seq<Member> {
    [Member("lvl", Safe(level)), Member("ts", Raw(ts))]
    + (if frames == [] then [] else [Member("stack", Arr(StackOf(frames)))])
    + ids
  }

  /** A prefilled message is repeated by every ender except Template. */
  function Tail(prefill: string, e: Ender): seq<Member> {
    match e
    case Msg(m) => [Member("msg", Str([prefill, m]))]
    case Template(m) => [Member("fmt", Safe("tmpl")), Member("msg", Text(m))]
    case Link(m, trace) => [Member("type", Safe("link")), Member("link", Safe(trace)), Member("msg", Str([prefill, m]))]
    case ModelMsg(m, v) =>
      ModelMembers("encoded", v) + [Member("type", Safe("model")), Member("modelType", Text(v.modelType)), Member("msg", Str([prefill, m]))]
  }

  function Middle(attributes: seq<Attribute>, wanted: bool): seq<Member> {
    if attributes == [] then []
    else if wanted then [Member("attributes", Obj(MembersOf(attributes)))]
    else MembersOf(attributes)
  }

  /** The object of a line: attributes in one member of their own or among the others. */
  function LineObject(head: seq<Member>, attributes: seq<Attribute>, wanted: bool, prefill: string, e: Ender): Value {
    Obj(head + Middle(attributes, wanted) + Tail(prefill, e))
  }

  // ---- Texts ---------------------------------------------------------------------------

  const OPEN := ",\"attributes\":{"

  /** The text of a line after some attributes, before its end. */
  function OpenText(head: seq<Member>, attributes: seq<Attribute>, wanted: bool): string {
    "{" + RenderMembers(head) + (if attributes == [] then "" else (if wanted then OPEN else ",") + RenderMembers(MembersOf(attributes)))
  }

  /** What an adder does to a text: open the attributes if that is still to do, then one more member. */
  function Grown(b: string, started: bool, wanted: bool, a: Attribute): string {
    Escapes.Separated(if wanted && !started then b + OPEN else b) + RenderMember(AttributeMember(a))
  }

  lemma OneMember(m: Member)
    ensures RenderMembers([m]) == RenderMember(m)
  {
  }

  lemma TwoMembers(m: Member, n: Member)
    ensures RenderMembers([m, n]) == RenderMember(m) + "," + RenderMember(n)
  {
    MembersAppend([m], [n]);
    assert [m, n] == [m] + [n];
  }

  lemma ThreeMembers(m: Member, n: Member, o: Member)
    ensures RenderMembers([m, n, o]) == RenderMember(m) + "," + RenderMember(n) + "," + RenderMember(o)
  {
    TwoMembers(m, n);
    MembersAppend([m, n], [o]);
    assert [m, n, o] == [m, n] + [o];
  }

  /** Keys without listed bytes are written as they are. */
  lemma PlainKey(k: string)
    requires Plain(k)
    ensures Key(k) == "\"" + k + "\":"
  {
  }

  /** A member whose key needs no escapes. */
  lemma MemberIs(k: string, v: Value, x: string)
    requires Plain(k) && Render(v) == x
    ensures RenderMember(Member(k, v)) == "\"" + k + "\":" + x
  {
    hide Render, Key;
    PlainKey(k);
  }

  lemma SafeMember(k: string, s: string)
    requires Plain(k)
    ensures RenderMember(Member(k, Safe(s))) == "\"" + k + "\":" + ("\"" + s + "\"")
  {
    MemberIs(k, Safe(s), "\"" + s + "\"");
  }

  lemma PlainTypes()
    ensures Plain("t") && Plain("type")
  {
  }

  lemma FixedMembers()
    ensures RenderMember(Member("t", Safe("any"))) == "\"t\":\"any\"" && RenderMember(Member("t", Safe("enum"))) == "\"t\":\"enum\""
    ensures RenderMember(Member("type", Safe("model"))) == "\"type\":\"model\""
  {
    hide RenderMember, Escapes.Listed;
    assert Plain("t") && Plain("type") by { PlainTypes(); }
    SafeMember("t", "any");
    SafeMember("t", "enum");
    SafeMember("type", "model");
  }

  lemma HeadKeys()
    ensures Key("lvl") == "\"lvl\":" && Key("ts") == "\"ts\":" && Key("stack") == "\"stack\":" && Key("attributes") == "\"attributes\":"
  {
    hide MarshaledKey, Key;
    PlainKey("lvl");
    PlainKey("ts");
    PlainKey("stack");
    PlainKey("attributes");
  }

  lemma TailKeys()
    ensures Key("msg") == "\"msg\":" && Key("fmt") == "\"fmt\":" && Key("type") == "\"type\":" && Key("link") == "\"link\":"
    ensures Key("encoded") == "\"encoded\":"
  {
    hide MarshaledKey, Key;
    PlainKey("msg");
    PlainKey("fmt");
    PlainKey("type");
    PlainKey("link");
    PlainKey("encoded");
  }

  lemma Chain(b: string, p: string, q: string, r: string)
    ensures b + p + q + r == b + (p + q + r)
  {
  }

  lemma Chain5(b: string, p: string, q: string, r: string, s: string, t: string)
    ensures b + p + q + r + s + t == b + (p + q + r + s + t)
  {
    Chain(b, p, q, r);
    Chain(b, p + q + r, s, t);
  }

  lemma Glue(v: string, x: string, i: string, n: string, t: string)
    ensures "{" + ((v + x) + "," + (i + n) + "," + t) + "}" == "{" + v + x + ("," + i) + n + ("," + t + "}")
  {
    var y, z := "," + (i + n), "," + t;
    assert (v + x) + "," + (i + n) + "," + t == (v + x) + y + z;
    assert "{" + ((v + x) + y + z) + "}" == "{" + (v + x) + y + (z + "}");
    assert "{" + (v + x) == "{" + v + x;
    assert y == ("," + i) + n;
    var c := "{" + v + x;
    assert c + (("," + i) + n) == c + ("," + i) + n;
  }

  // ---- Texts of values -------------------------------------------------------------------

  lemma ObjectIs(ms: seq<Member>)
    ensures Render(Obj(ms)) == "{" + RenderMembers(ms) + "}"
  {
  }

  lemma PairText(b: string, v: Value, x: string, t: string)
    requires v == Raw(x) || Render(v) == x
    ensures b + "{\"v\":" + x + (",\"t\":\"" + t + "\"}") == b + Render(Obj([Member("v", v), Member("t", Safe(t))]))
  {
    hide KeyText, RenderMember, RenderMembers, Render;
    assert Render(v) == x by { RawIs(x); }
    TwoMembers(Member("v", v), Member("t", Safe(t)));
    MemberIs("v", v, x);
    SafeMember("t", t);
    ObjectIs([Member("v", v), Member("t", Safe(t))]);
    PairGlue("\"v\":", x, "\"t\":" + ("\"" + t + "\""));
    PairTail(t);
    Chain(b, "{\"v\":", x, ",\"t\":\"" + t + "\"}");
  }

  lemma RawIs(x: string)
    ensures Render(Raw(x)) == x
  {
  }

  lemma PairTail(t: string)
    ensures ",\"t\":\"" + t + "\"}" == "," + ("\"t\":" + ("\"" + t + "\"")) + "}"
  {
  }

  lemma PairGlue(v: string, x: string, t: string)
    ensures "{" + ((v + x) + "," + t) + "}" == "{" + v + x + ("," + t + "}")
  {
  }

  lemma EnumText(s: string, i: int)
    ensures Render(ValueOf(EnumAttribute("", s, i))) ==
            "{\"v\":" + ("\"" + Escapes.Body(s) + "\"") + ",\"i\":" + Decimal.Of(i) + ",\"t\":\"enum\"}"
  {
    hide KeyText, RenderMember, RenderMembers, Render, Decimal.Of, Escapes.Body;
    var v, n, t := Member("v", Text(s)), Member("i", Raw(Decimal.Of(i))), Member("t", Safe("enum"));
    ThreeMembers(v, n, t);
    TextRendered(s);
    RawIs(Decimal.Of(i));
    MemberIs("v", Text(s), "\"" + Escapes.Body(s) + "\"");
    MemberIs("i", Raw(Decimal.Of(i)), Decimal.Of(i));
    FixedMembers();
    ObjectIs([v, n, t]);
    Glue("\"v\":", "\"" + Escapes.Body(s) + "\"", "\"i\":", Decimal.Of(i), "\"t\":\"enum\"");
  }

  lemma TextRendered(s: string)
    ensures Render(Text(s)) == "\"" + Escapes.Body(s) + "\""
  {
    assert Bodies([s][1..]) == "";
    assert Bodies([s]) == Escapes.Body(s) + "";
  }

  lemma TwoPartsRendered(a: string, b: string)
    ensures Render(Str([a, b])) == "\"" + Escapes.Body(a) + Escapes.Body(b) + "\""
  {
    assert [a, b][1..] == [b] && [b][1..] == [];
    assert Bodies([b]) == Escapes.Body(b) + "";
    assert Bodies([a, b]) == Escapes.Body(a) + Bodies([b]);
  }

  /** The text of a model after the key and before what follows it. */
  lemma ModelText(key: string, m: Model)
    requires Plain(key)
    ensures RenderMembers(ModelMembers(key, m)) == "\"" + key + "\":" + ModelBody(m)
  {
    hide KeyText, RenderMember, RenderMembers, Render, Escapes.Body;
    if m.isJson {
      RawIs(m.encoded);
      MemberIs(key, Raw(m.encoded), m.encoded);
      OneMember(Member(key, Raw(m.encoded)));
    } else {
      var x := "\"" + Escapes.Body(m.encoded) + "\"";
      TwoMembers(Member(key, Text(m.encoded)), Member("encoding", Safe(m.encoding)));
      TextRendered(m.encoded);
      MemberIs(key, Text(m.encoded), x);
      SafeMember("encoding", m.encoding);
      EncodingGlue("\"" + key + "\":", x, m.encoding);
    }
  }

  lemma EncodingGlue(k: string, x: string, e: string)
    ensures k + x + "," + ("\"encoding\":" + ("\"" + e + "\"")) == k + (x + ",\"encoding\":" + "\"" + e + "\"")
  {
    var q := "\"" + e + "\"";
    assert "," + ("\"encoding\":" + q) == ",\"encoding\":" + q;
    assert x + ",\"encoding\":" + "\"" + e + "\"" == x + (",\"encoding\":" + q);
    assert k + (x + (",\"encoding\":" + q)) == k + x + (",\"encoding\":" + q);
    assert k + x + "," + ("\"encoding\":" + q) == k + x + ("," + ("\"encoding\":" + q));
  }

  function ModelBody(m: Model): string {
    if m.isJson then m.encoded else "\"" + Escapes.Body(m.encoded) + "\"" + ",\"encoding\":" + "\"" + m.encoding + "\""
  }

  lemma AnyText(m: Model)
    ensures Render(ValueOf(AnyAttribute("", m))) ==
            "{\"v\":" + ModelBody(m) + ",\"modelType\":" + ("\"" + Escapes.Body(m.modelType) + "\"") + ",\"t\":\"any\"}"
  {
    hide KeyText, RenderMember, RenderMembers, Render, Escapes.Body, ModelBody, ModelMembers;
    var x, t := Member("modelType", Text(m.modelType)), Member("t", Safe("any"));
    var ms := ModelMembers("v", m);
    SomeModel("v", m);
    TwoMembers(x, t);
    MembersAppend(ms, [x, t]);
    ModelText("v", m);
    TextRendered(m.modelType);
    MemberIs("modelType", Text(m.modelType), "\"" + Escapes.Body(m.modelType) + "\"");
    FixedMembers();
    ObjectIs(ms + [x, t]);
    AnyGlue(m, "\"" + Escapes.Body(m.modelType) + "\"");
  }

  lemma AnyGlue(m: Model, x: string)
    ensures "{" + (("\"v\":" + ModelBody(m)) + "," + (("\"modelType\":" + x) + "," + "\"t\":\"any\"")) + "}" ==
            "{\"v\":" + ModelBody(m) + ",\"modelType\":" + x + ",\"t\":\"any\"}"
  {
    hide ModelBody;
    Glue("\"v\":", ModelBody(m), "\"modelType\":", x, "\"t\":\"any\"");
    var c, d, e := "\"v\":" + ModelBody(m), "\"modelType\":" + x, "\"t\":\"any\"";
    assert c + "," + (d + "," + e) == c + "," + d + "," + e;
  }

  lemma AttributeText(b: string, a: Attribute)
    ensures b + (if a.EnumAttribute? then MarshaledKey(a.key) else Key(a.key)) + Render(ValueOf(a)) == b + RenderMember(AttributeMember(a))
  {
    hide Key, MarshaledKey, Render, ValueOf;
  }

  // ---- The builder -------------------------------------------------------------------------

  class Builder {
    const out: Escapes.JBuilder
    var attributesStarted: bool
    var attributesWanted: bool

    constructor ()
      ensures fresh(out) && out.B == "" && !attributesStarted && !attributesWanted
    {
      out := new Escapes.JBuilder(false);
      attributesStarted, attributesWanted := false, false;
    }

    method Append(t: string)
      modifies out
      ensures out.B == old(out.B) + t
    {
      out.B := out.B + t;
    }

    method StartAttributes()
      modifies this, out
      ensures attributesWanted == old(attributesWanted) && attributesStarted == (old(attributesStarted) || attributesWanted)
      ensures out.B == if attributesWanted && !old(attributesStarted) then old(out.B) + OPEN else old(out.B)
    {
      if attributesWanted && !attributesStarted {
        attributesStarted := true;
        Append(OPEN);
      }
    }

    /** Comma and AppendBytes: the key of a registered attribute, which was encoded with it. */
    method AddMarshaledKey(k: string)
      modifies out
      ensures out.B == Escapes.Separated(old(out.B)) + MarshaledKey(k)
    {
      out.Comma();
      Append(MarshaledKey(k));
    }

    method AddKey(k: string)
      modifies out
      ensures out.B == Escapes.Separated(old(out.B)) + Key(k)
    {
      ghost var b := Escapes.Separated(out.B);
      out.Comma();
      out.AddString(k);
      Append(":");
      assert out.B == b + (("\"" + Escapes.Body(k) + "\"") + ":");
    }

    method AddSafeKey(k: string)
      modifies out
      ensures out.B == Escapes.Separated(old(out.B)) + ("\"" + k + "\":")
    {
      out.Comma();
      Append("\"" + k + "\":");
    }

    /** A model up to its type. */
    method AnyCommon(m: Model)
      modifies out
      ensures out.B == old(out.B) + ModelBody(m) + ",\"modelType\":" + ("\"" + Escapes.Body(m.modelType) + "\"")
    {
      AddModel(m);
      Append(",\"modelType\":");
      AddText(m.modelType);
    }

    method AddText(s: string)
      modifies out
      ensures out.B == old(out.B) + ("\"" + Escapes.Body(s) + "\"")
    {
      Chain(out.B, "\"", Escapes.Body(s), "\"");
      out.AddString(s);
    }

    method AddModel(m: Model)
      modifies out
      ensures out.B == old(out.B) + ModelBody(m)
    {
      if m.isJson {
        Append(m.encoded);
      } else {
        ghost var b := out.B;
        AddText(m.encoded);
        Append(",\"encoding\":");
        Append("\"" + m.encoding + "\"");
        Chain(b, "\"" + Escapes.Body(m.encoded) + "\"", ",\"encoding\":", "\"" + m.encoding + "\"");
      }
    }

    /** What each adder writes after the key. */
    method AddValue(a: Attribute)
      modifies out
      ensures out.B == old(out.B) + Render(ValueOf(a))
    {
      hide Escapes.Body, Render, ModelBody, Decimal.Of;
      ghost var b := out.B;
      Append("{\"v\":");
      match a {
        case AnyAttribute(_, m) =>
          AnyCommon(m);
          Append(",\"t\":\"any\"}");
          AnyText(m);
          Chain5(b, "{\"v\":", ModelBody(m), ",\"modelType\":", "\"" + Escapes.Body(m.modelType) + "\"", ",\"t\":\"any\"}");
        case EnumAttribute(_, s, i) =>
          AddText(s);
          Append(",\"i\":");
          Append(Decimal.Of(i));
          Append(",\"t\":\"enum\"}");
          EnumText(s, i);
          Chain5(b, "{\"v\":", "\"" + Escapes.Body(s) + "\"", ",\"i\":", Decimal.Of(i), ",\"t\":\"enum\"}");
        case TimeAttribute(_, text) =>
          Append(text);
          Append(",\"t\":\"time\"}");
          PairText(b, Raw(text), text, "time");
        case BoolAttribute(_, v) =>
          Append(if v then "true" else "false");
          Append(",\"t\":\"bool\"}");
          PairText(b, Raw(if v then "true" else "false"), if v then "true" else "false", "bool");
        case IntAttribute(_, i, t) =>
          Append(Decimal.Of(i));
          AddType(t);
          PairText(b, Raw(Decimal.Of(i)), Decimal.Of(i), t);
        case StringAttribute(_, s, t) =>
          AddText(s);
          AddType(t);
          TextRendered(s);
          PairText(b, Text(s), "\"" + Escapes.Body(s) + "\"", t);
        case FloatAttribute(_, f, t) =>
          Append(FloatText(f));
          AddType(t);
          PairText(b, Raw(FloatText(f)), FloatText(f), t);
        case DurationAttribute(_, text) =>
          Append("\"" + text + "\"");
          Append(",\"t\":\"dur\"}");
          PairText(b, Safe(text), "\"" + text + "\"", "dur");
      }
    }

    method AddType(t: string)
      modifies out
      ensures out.B == old(out.B) + (",\"t\":\"" + t + "\"}")
    {
      Chain(out.B, ",\"t\":", "\"" + t + "\"", "}");
      Append(",\"t\":");
      Append("\"" + t + "\"");
      Append("}");
    }

    method Add(a: Attribute)
      modifies this, out
      ensures attributesWanted == old(attributesWanted) && attributesStarted == (old(attributesStarted) || attributesWanted)
      ensures out.B == Grown(old(out.B), old(attributesStarted), attributesWanted, a)
    {
      hide Escapes.Separated, ValueOf, Render, Key, MarshaledKey;
      StartAttributes();
      ghost var b := Escapes.Separated(out.B);
      if a.EnumAttribute? {
        AddMarshaledKey(a.key);
      } else {
        AddKey(a.key);
      }
      AddValue(a);
      AttributeText(b, a);
    }
  }

  // ---- Lines ---------------------------------------------------------------------------------

  /** A text that ends a value, so that a comma must come before the next member. */
  predicate Closed(t: string) {
    t != "" && t[|t| - 1] !in "[{:"
  }

  lemma MemberClosed(m: Member)
    requires Fine(m.value)
    ensures Closed(RenderMember(m))
  {
    RenderedClosed(m.value);
  }

  lemma AttributeClosed(a: Attribute)
    ensures Closed(RenderMember(AttributeMember(a)))
  {
    hide RenderMembers;
    match ValueOf(a) case Obj(ms) => assert Render(ValueOf(a)) == "{" + RenderMembers(ms) + "}";
  }

  lemma {:induction false} MembersClosed(ms: seq<Member>)
    requires ms != [] && Closed(RenderMember(ms[|ms| - 1]))
    ensures Closed(RenderMembers(ms))
  {
    hide RenderMember;
    if |ms| > 1 {
      var last := [ms[|ms| - 1]];
      assert ms == ms[..|ms| - 1] + last;
      MembersAppend(ms[..|ms| - 1], last);
      OneMember(ms[|ms| - 1]);
    } else {
      OneMember(ms[0]);
    }
  }

  lemma AttributesClosed(attributes: seq<Attribute>)
    requires attributes != []
    ensures Closed(RenderMembers(MembersOf(attributes)))
  {
    hide ValueOf, RenderMember, RenderMembers, AttributeMember;
    AttributeClosed(attributes[|attributes| - 1]);
    MembersClosed(MembersOf(attributes));
  }

  lemma SeparatedClosed(b: string, t: string)
    ensures Closed(t) ==> Closed(b + t) && Escapes.Separated(b + t) == b + t + ","
    ensures Escapes.Separated(b + OPEN) == b + OPEN && Escapes.Separated("") == ""
  {
    assert Closed(t) ==> (b + t)[|b + t| - 1] == t[|t| - 1];
    assert (b + OPEN)[|b + OPEN| - 1] == '{';
  }

  lemma OneMore(attributes: seq<Attribute>, a: Attribute)
    ensures MembersOf(attributes + [a]) == MembersOf(attributes) + [AttributeMember(a)]
  {
    hide ValueOf;
  }

  lemma OneMoreText(attributes: seq<Attribute>, a: Attribute)
    ensures var t := RenderMember(AttributeMember(a));
            RenderMembers(MembersOf(attributes + [a])) == if attributes == [] then t else RenderMembers(MembersOf(attributes)) + "," + t
  {
    hide ValueOf, RenderMember;
    var m := AttributeMember(a);
    OneMore(attributes, a);
    OneMember(m);
    if attributes == [] {
      assert MembersOf(attributes) + [m] == [m];
    } else {
      MembersAppend(MembersOf(attributes), [m]);
    }
  }

  /** Prefilling starts from nothing and collects bare members. */
  lemma GrowPrefill(attributes: seq<Attribute>, a: Attribute)
    ensures Grown(RenderMembers(MembersOf(attributes)), false, false, a) == RenderMembers(MembersOf(attributes + [a]))
  {
    hide ValueOf, RenderMember;
    OneMoreText(attributes, a);
    var b := RenderMembers(MembersOf(attributes));
    if attributes == [] {
      assert b == "";
      SeparatedClosed("", "");
      assert "" + RenderMember(AttributeMember(a)) == RenderMember(AttributeMember(a));
    } else {
      AttributesClosed(attributes);
      SeparatedClosed("", b);
      assert "" + b == b;
    }
  }

  lemma FirstGlue(h: string, open: string, t: string)
    ensures h + "" == h && h + open + t == h + (open + t)
  {
  }

  lemma NextGlue(h: string, open: string, ms: string, t: string)
    ensures h + (open + ms) + "," + t == h + (open + (ms + "," + t)) && h + open + ms == h + (open + ms)
  {
    assert open + (ms + "," + t) == (open + ms) + ("," + t);
    assert h + ((open + ms) + ("," + t)) == h + (open + ms) + ("," + t);
    assert h + (open + ms) + "," + t == h + (open + ms) + ("," + t);
  }

  /** An adder adds one attribute to the text of a line. */
  lemma GrowOpen(head: seq<Member>, attributes: seq<Attribute>, wanted: bool, a: Attribute)
    requires Closed(RenderMembers(head))
    ensures Grown(OpenText(head, attributes, wanted), wanted && attributes != [], wanted, a) == OpenText(head, attributes + [a], wanted)
  {
    hide ValueOf, RenderMember, RenderMembers, MembersOf, Closed, Escapes.Separated, AttributeMember;
    var h := "{" + RenderMembers(head);
    var t := RenderMember(AttributeMember(a));
    var open := if wanted then OPEN else ",";
    OneMoreText(attributes, a);
    if attributes == [] {
      FirstGlue(h, open, t);
      SeparatedClosed("{", RenderMembers(head));
      SeparatedClosed(h, "");
    } else {
      var ms := RenderMembers(MembersOf(attributes));
      AttributesClosed(attributes);
      SeparatedClosed(h + open, ms);
      NextGlue(h, open, ms, t);
    }
  }

  ghost predicate IsOpen(b: Builder, head: seq<Member>, attributes: seq<Attribute>)
    reads b, b.out
  {
    b.out.B == OpenText(head, attributes, b.attributesWanted) && b.attributesStarted == (b.attributesWanted && attributes != [])
  }

  datatype Prefilled = Prefilled(data: string, preEncodedMsg: string)

  /** Prefilled attributes and message. */
  method Prefill(attributes: seq<Attribute>, m: string) returns (p: Prefilled)
    ensures p == Prefilled(RenderMembers(MembersOf(attributes)), Escapes.Body(m))
  {
    var b := new Builder();
    var k := 0;
    assert MembersOf(attributes[..0]) == [];
    while k < |attributes|
      invariant 0 <= k <= |attributes| && fresh(b) && fresh(b.out) && !b.attributesWanted && !b.attributesStarted
      invariant b.out.B == RenderMembers(MembersOf(attributes[..k]))
    {
      assert attributes[..k + 1] == attributes[..k] + [attributes[k]];
      GrowPrefill(attributes[..k], attributes[k]);
      b.Add(attributes[k]);
      k := k + 1;
    }
    assert attributes[..k] == attributes;
    var msg := new Escapes.JBuilder(false);
    if |m| > 0 {
      msg.AddStringBody(m);
    }
    p := Prefilled(b.out.B, msg.B);
  }

  function LevelAndTime(level: string, ts: string): seq<Member> {
    [Member("lvl", Safe(level)), Member("ts", Raw(ts))]
  }

  function StackMember(frames: seq<Frame>): Member {
    Member("stack", Arr(StackOf(frames)))
  }

  lemma LevelText(level: string, ts: string)
    ensures "{" + RenderMembers(LevelAndTime(level, ts)) == "{\"lvl\":" + ("\"" + level + "\"") + ",\"ts\":" + ts
  {
    hide MarshaledKey, Key, RenderMembers;
    TwoMembers(Member("lvl", Safe(level)), Member("ts", Raw(ts)));
    HeadKeys();
    var l := "\"" + level + "\"";
    LevelGlue("\"lvl\":", l, "\"ts\":", ts);
  }

  lemma LevelGlue(v: string, x: string, i: string, n: string)
    ensures "{" + ((v + x) + "," + (i + n)) == "{" + v + x + ("," + i) + n
  {
    assert "{" + ((v + x) + "," + (i + n)) == "{" + (v + x) + ("," + (i + n));
    assert "," + (i + n) == ("," + i) + n;
    var c := "{" + v + x;
    assert c + (("," + i) + n) == c + ("," + i) + n;
  }

  lemma StackText(b: string, frames: seq<Frame>)
    ensures b + "," + RenderMember(StackMember(frames)) == b + ",\"stack\":[" + RenderElements(StackOf(frames)) + "]"
  {
    hide MarshaledKey, Key, StackOf, RenderElements;
    HeadKeys();
    var e := RenderElements(StackOf(frames));
    assert RenderMember(StackMember(frames)) == "\"stack\":" + ("[" + e + "]");
    assert "," + ("\"stack\":" + ("[" + e + "]")) == ",\"stack\":[" + e + "]";
    assert b + (",\"stack\":[" + e + "]") == b + ",\"stack\":[" + e + "]";
  }

  /** A frame is written in three parts: the file as a string body, a colon and the line number. */
  lemma FrameText(f: Frame)
    ensures Render(Str([f.file, ":", Decimal.Of(f.line)])) == "\"" + Escapes.Body(f.file) + ":" + Decimal.Of(f.line) + "\""
  {
    var n := Decimal.Of(f.line);
    assert Plain(n);
    assert Escapes.Body(n) == n && Escapes.Body(":") == ":";
    assert [f.file, ":", n][1..] == [":", n] && [":", n][1..] == [n] && [n][1..] == [];
    assert Bodies([n]) == n + "";
    assert Bodies([":", n]) == ":" + (n + "");
    assert Bodies([f.file, ":", n]) == Escapes.Body(f.file) + (":" + (n + ""));
  }

  lemma StackMore(frames: seq<Frame>, k: nat)
    requires k < |frames|
    ensures RenderElements(StackOf(frames[..k + 1])) ==
            (if k == 0 then "" else RenderElements(StackOf(frames[..k])) + ",") + Render(Str([frames[k].file, ":", Decimal.Of(frames[k].line)]))
    ensures k > 0 ==> Closed(RenderElements(StackOf(frames[..k])))
  {
    hide Render, Decimal.Of;
    var v := Str([frames[k].file, ":", Decimal.Of(frames[k].line)]);
    assert StackOf(frames[..k + 1]) == StackOf(frames[..k]) + [v];
    if k > 0 {
      ElementsSnoc(StackOf(frames[..k]), v);
      ElementsClosed(StackOf(frames[..k]));
    } else {
      assert StackOf(frames[..k]) + [v] == [v];
    }
  }

  lemma {:induction false} ElementsClosed(vs: seq<Value>)
    requires vs != [] && vs[|vs| - 1].Str?
    ensures Closed(RenderElements(vs))
  {
    if |vs| > 1 {
      ElementsClosed(vs[1..]);
    }
  }

  method AddStack(b: Builder, frames: seq<Frame>)
    requires frames != []
    modifies b.out
    ensures b.out.B == old(b.out.B) + "," + RenderMember(StackMember(frames))
  {
    hide Escapes.Separated, Closed, Render, StackOf, RenderElements, Decimal.Of;
    ghost var was := b.out.B;
    b.Append(",\"stack\":[");
    ghost var open := b.out.B;
    var k := 0;
    NoElements(frames);
    while k < |frames|
      invariant 0 <= k <= |frames|
      invariant b.out.B == open + RenderElements(StackOf(frames[..k]))
    {
      ghost var e := RenderElements(StackOf(frames[..k]));
      ghost var c := b.out.B;
      StackMore(frames, k);
      FrameText(frames[k]);
      StackSeparated(was, e, k);
      b.out.Comma();
      ghost var d := b.out.B;
      b.Append("\"");
      b.out.AddStringBody(frames[k].file);
      b.Append(":");
      b.Append(Decimal.Of(frames[k].line));
      b.Append("\"");
      Chain5(d, "\"", Escapes.Body(frames[k].file), ":", Decimal.Of(frames[k].line), "\"");
      k := k + 1;
    }
    assert frames[..k] == frames;
    b.Append("]");
    StackText(was, frames);
  }

  lemma NoElements(frames: seq<Frame>)
    ensures RenderElements(StackOf(frames[..0])) == ""
  {
  }

  lemma StackSeparated(was: string, e: string, k: nat)
    requires (k == 0 ==> e == "") && (k > 0 ==> Closed(e))
    ensures Escapes.Separated(was + ",\"stack\":[" + e) == was + ",\"stack\":[" + (if k == 0 then "" else e + ",")
  {
    var b := was + ",\"stack\":[";
    if k == 0 {
      assert b + e == b;
      assert b[|b| - 1] == '[';
    } else {
      SeparatedClosed(b, e);
    }
  }

  method StartHead(b: Builder, level: string, ts: string, frames: seq<Frame>, ids: seq<Member>)
    requires Embeddable(ts) && b.out.B == ""
    modifies b.out
    ensures b.out.B == "{" + RenderMembers(Head(level, ts, frames, ids))
  {
    hide Embeddable, Escapes.Separated, Closed, RenderMember, RenderMembers;
    b.Append("{\"lvl\":");
    b.Append("\"" + level + "\"");
    b.Append(",\"ts\":");
    b.Append(ts);
    assert "" + "{\"lvl\":" == "{\"lvl\":";
    LevelText(level, ts);
    LevelClosed(level, ts);
    ghost var head := LevelAndTime(level, ts);
    assert b.out.B == "{" + RenderMembers(head);
    HeadIs(level, ts, frames, ids);
    if |frames| > 0 {
      AddStack(b, frames);
      HeadMore(head, [StackMember(frames)]);
      OneMember(StackMember(frames));
      StackClosed(head, frames);
      head := head + [StackMember(frames)];
      assert b.out.B == "{" + RenderMembers(head);
    }
    SeparatedClosed("{", RenderMembers(head));
    if |ids| != 0 {
      b.out.Comma();
      b.Append(RenderMembers(ids));
      HeadMore(head, ids);
    } else {
      assert head + ids == head;
    }
  }

  /** Starting a line: level, time, stack, span identification, and what was prefilled. */
  method StartLine(level: string, ts: string, frames: seq<Frame>, ids: seq<Member>, wanted: bool, p: Prefilled, ghost attributes: seq<Attribute>)
    returns (b: Builder)
    requires Embeddable(ts) && p.data == RenderMembers(MembersOf(attributes))
    ensures fresh(b) && fresh(b.out) && b.attributesWanted == wanted
    ensures IsOpen(b, Head(level, ts, frames, ids), attributes)
  {
    hide Embeddable, RenderMembers, Head, MembersOf;
    b := new Builder();
    StartHead(b, level, ts, frames, ids);
    ghost var h := b.out.B;
    b.attributesWanted := wanted;
    DataEmpty(attributes);
    if |p.data| != 0 {
      if wanted {
        b.attributesStarted := true;
        b.Append(OPEN);
      } else {
        b.Append(",");
      }
      b.Append(p.data);
      assert h + ((if wanted then OPEN else ",") + p.data) == h + (if wanted then OPEN else ",") + p.data;
    } else {
      assert h + "" == h;
    }
  }

  lemma DataEmpty(attributes: seq<Attribute>)
    ensures RenderMembers(MembersOf(attributes)) == "" <==> attributes == []
  {
    hide ValueOf;
    if attributes != [] {
      AttributesClosed(attributes);
    }
  }

  lemma HeadIs(level: string, ts: string, frames: seq<Frame>, ids: seq<Member>)
    ensures (if frames == [] then LevelAndTime(level, ts) else LevelAndTime(level, ts) + [StackMember(frames)]) + ids == Head(level, ts, frames, ids)
  {
    hide StackOf;
    assert LevelAndTime(level, ts) + [] == LevelAndTime(level, ts);
  }

  lemma HeadMore(head: seq<Member>, more: seq<Member>)
    requires head != [] && more != []
    ensures "{" + RenderMembers(head) + "," + RenderMembers(more) == "{" + RenderMembers(head + more)
  {
    hide RenderMembers;
    MembersAppend(head, more);
    assert "{" + (RenderMembers(head) + "," + RenderMembers(more)) == "{" + RenderMembers(head) + "," + RenderMembers(more);
  }

  lemma LevelClosed(level: string, ts: string)
    requires Embeddable(ts)
    ensures Closed(RenderMembers(LevelAndTime(level, ts)))
  {
    hide RenderMembers, Embeddable;
    MemberClosed(Member("ts", Raw(ts)));
    MembersClosed(LevelAndTime(level, ts));
  }

  lemma StackClosed(head: seq<Member>, frames: seq<Frame>)
    ensures Closed(RenderMembers(head + [StackMember(frames)]))
  {
    hide RenderMembers, StackOf;
    assert Closed(RenderMember(StackMember(frames)));
    MembersClosed(head + [StackMember(frames)]);
  }

  // ---- Ending a line ---------------------------------------------------------------------------

  lemma CloseText(head: seq<Member>, attributes: seq<Attribute>, wanted: bool)
    requires head != []
    ensures OpenText(head, attributes, wanted) + (if wanted && attributes != [] then "}" else "") ==
            "{" + RenderMembers(head + Middle(attributes, wanted))
  {
    hide RenderMembers, MembersOf, Key;
    var ms := MembersOf(attributes);
    var t := RenderMembers(ms);
    if attributes == [] {
      assert head + [] == head;
      assert "{" + RenderMembers(head) + "" == "{" + RenderMembers(head);
    } else if wanted {
      var m := Member("attributes", Obj(ms));
      HeadKeys();
      OneMember(m);
      HeadMore(head, [m]);
      AttributesGlue("{" + RenderMembers(head), t);
    } else {
      NotEmpty(attributes);
      HeadMore(head, ms);
      assert "{" + RenderMembers(head) + ("," + t) == "{" + RenderMembers(head) + "," + t;
    }
  }

  lemma NotEmpty(attributes: seq<Attribute>)
    ensures MembersOf(attributes) == [] <==> attributes == []
  {
  }

  lemma AttributesGlue(h: string, t: string)
    ensures h + (OPEN + t) + "}" == h + "," + ("\"attributes\":" + ("{" + t + "}"))
  {
    assert OPEN + t + "}" == "," + ("\"attributes\":" + ("{" + t + "}"));
    assert h + (OPEN + t) + "}" == h + (OPEN + t + "}");
  }

  lemma EndText(before: seq<Member>, tail: seq<Member>)
    requires before != [] && tail != []
    ensures "{" + RenderMembers(before) + ("," + RenderMembers(tail) + "}\n") == Render(Obj(before + tail)) + "\n"
  {
    hide RenderMembers;
    HeadMore(before, tail);
    var h, t := "{" + RenderMembers(before), RenderMembers(tail);
    Chain(h, ",", t, "}\n");
    assert h + "," + t + "}\n" == (h + "," + t) + "}" + "\n";
  }

  function MsgText(p: string, m: string): string {
    ",\"msg\":\"" + Escapes.Body(p) + Escapes.Body(m) + "\""
  }

  lemma MsgRendered(p: string, m: string)
    ensures "," + RenderMember(Member("msg", Str([p, m]))) == MsgText(p, m)
  {
    hide MarshaledKey, Key, Escapes.Body;
    TailKeys();
    TwoPartsRendered(p, m);
    var t := "\"" + Escapes.Body(p) + Escapes.Body(m) + "\"";
    assert "," + ("\"msg\":" + t) == ",\"msg\":" + t;
    Chain(",\"msg\":", "\"", Escapes.Body(p), Escapes.Body(m) + "\"");
    assert "\"" + Escapes.Body(p) + (Escapes.Body(m) + "\"") == t;
    assert ",\"msg\":" + "\"" == ",\"msg\":\"";
    assert ",\"msg\":\"" + Escapes.Body(p) + (Escapes.Body(m) + "\"") == MsgText(p, m);
  }

  /** The message with the prefilled part, and the end of the line. */
  method AddMsg(b: Builder, preEncoded: string, m: string, ghost p: string)
    requires preEncoded == Escapes.Body(p)
    modifies b.out
    ensures b.out.B == old(b.out.B) + (MsgText(p, m) + "}\n")
  {
    hide Escapes.Body;
    ghost var was := b.out.B;
    b.Append(",\"msg\":\"");
    if |preEncoded| != 0 {
      b.Append(preEncoded);
    } else {
      assert was + ",\"msg\":\"" + preEncoded == was + ",\"msg\":\"";
    }
    b.out.AddStringBody(m);
    b.Append("\"}\n");
    MsgChain(was, ",\"msg\":\"", preEncoded, Escapes.Body(m));
  }

  lemma MsgChain(b: string, o: string, p: string, m: string)
    ensures b + o + p + m + "\"}\n" == b + (o + p + m + "\"" + "}\n")
  {
    Chain(b, o, p, m);
    assert o + p + m + "\"" + "}\n" == o + p + m + "\"}\n";
    assert b + (o + p + m) + "\"}\n" == b + (o + p + m + "\"}\n");
  }

  /** The text of each end of a line, before the message. */
  function FrontText(e: Ender): string {
    match e
    case Msg(_) => ""
    case Template(_) => ",\"fmt\":\"tmpl\""
    case Link(_, trace) => ",\"type\":\"link\",\"link\":\"" + trace + "\""
    case ModelMsg(_, v) =>
      ",\"encoded\":" + ModelBody(v) + ",\"type\":\"model\",\"modelType\":" + ("\"" + Escapes.Body(v.modelType) + "\"")
  }

  function Front(e: Ender): seq<Member> {
    match e
    case Msg(_) => []
    case Template(_) => [Member("fmt", Safe("tmpl"))]
    case Link(_, trace) => [Member("type", Safe("link")), Member("link", Safe(trace))]
    case ModelMsg(_, v) => ModelMembers("encoded", v) + [Member("type", Safe("model")), Member("modelType", Text(v.modelType))]
  }

  lemma TailIs(prefill: string, e: Ender)
    ensures Tail(prefill, e) == Front(e) + [Member("msg", if e.Template? then Text(e.m) else Str([prefill, e.m]))]
  {
  }

  lemma FrontModel(v: Model)
    ensures "," + RenderMembers(ModelMembers("encoded", v) + [Member("type", Safe("model")), Member("modelType", Text(v.modelType))]) ==
            ",\"encoded\":" + ModelBody(v) + ",\"type\":\"model\",\"modelType\":" + ("\"" + Escapes.Body(v.modelType) + "\"")
  {
    hide KeyText, RenderMember, RenderMembers, Escapes.Body, ModelBody, ModelMembers, Render;
    var x, y := Member("type", Safe("model")), Member("modelType", Text(v.modelType));
    FixedMembers();
    TwoMembers(x, y);
    SomeModel("encoded", v);
    MembersAppend(ModelMembers("encoded", v), [x, y]);
    ModelText("encoded", v);
    TextRendered(v.modelType);
    MemberIs("modelType", Text(v.modelType), "\"" + Escapes.Body(v.modelType) + "\"");
    ModelGlue(ModelBody(v), "\"" + Escapes.Body(v.modelType) + "\"");
  }

  lemma SomeModel(key: string, v: Model)
    ensures ModelMembers(key, v) != []
  {
  }

  lemma FrontLink(trace: string)
    ensures "," + RenderMembers([Member("type", Safe("link")), Member("link", Safe(trace))]) ==
            ",\"type\":\"link\",\"link\":\"" + trace + "\""
  {
    hide MarshaledKey, Key, RenderMembers;
    TailKeys();
    TwoMembers(Member("type", Safe("link")), Member("link", Safe(trace)));
    assert RenderMember(Member("type", Safe("link"))) == "\"type\":\"link\"";
    LinkGlue(trace);
  }

  lemma FrontRendered(e: Ender)
    requires !e.Msg?
    ensures "," + RenderMembers(Front(e)) == FrontText(e)
  {
    hide MarshaledKey, Key, RenderMembers, Escapes.Body, ModelBody;
    match e
    case Template(_) =>
      TailKeys();
      OneMember(Member("fmt", Safe("tmpl")));
    case Link(_, trace) => FrontLink(trace);
    case ModelMsg(_, v) => FrontModel(v);
  }

  lemma LinkGlue(trace: string)
    ensures "," + ("\"type\":\"link\"" + "," + ("\"link\":" + ("\"" + trace + "\""))) == ",\"type\":\"link\",\"link\":\"" + trace + "\""
  {
  }

  lemma ModelGlue(body: string, t: string)
    ensures "," + (("\"encoded\":" + body) + "," + ("\"type\":\"model\"" + "," + ("\"modelType\":" + t))) ==
            ",\"encoded\":" + body + ",\"type\":\"model\",\"modelType\":" + t
  {
    var c := ",\"encoded\":" + body;
    assert "\"type\":\"model\"" + "," + ("\"modelType\":" + t) == "\"type\":\"model\",\"modelType\":" + t;
    var d := "\"type\":\"model\",\"modelType\":" + t;
    assert "," + (("\"encoded\":" + body) + "," + d) == c + ("," + d);
    assert "," + d == ",\"type\":\"model\",\"modelType\":" + t;
    assert c + (",\"type\":\"model\",\"modelType\":" + t) == c + ",\"type\":\"model\",\"modelType\":" + t;
  }

  lemma TailRendered(prefill: string, e: Ender)
    ensures "," + RenderMembers(Tail(prefill, e)) == FrontText(e) + (if e.Template? then ",\"msg\":" + ("\"" + Escapes.Body(e.m) + "\"") else MsgText(prefill, e.m))
    ensures Tail(prefill, e) != []
  {
    hide RenderMember, RenderMembers, Render, Escapes.Body, Front, FrontText, KeyText, MsgText, Tail;
    TailIs(prefill, e);
    var m := Member("msg", if e.Template? then Text(e.m) else Str([prefill, e.m]));
    OneMember(m);
    if e.Template? {
      TextRendered(e.m);
      MemberIs("msg", Text(e.m), "\"" + Escapes.Body(e.m) + "\"");
      assert "," + ("\"msg\":" + ("\"" + Escapes.Body(e.m) + "\"")) == ",\"msg\":" + ("\"" + Escapes.Body(e.m) + "\"");
    } else {
      MsgRendered(prefill, e.m);
    }
    var t := "," + RenderMember(m);
    if e.Msg? {
      FrontEmpty(e);
      assert [] + [m] == [m] && "" + t == t;
    } else {
      FrontEmpty(e);
      FrontRendered(e);
      MembersAppend(Front(e), [m]);
      assert "," + (RenderMembers(Front(e)) + "," + RenderMember(m)) == ("," + RenderMembers(Front(e))) + ("," + RenderMember(m));
    }
  }

  lemma FrontEmpty(e: Ender)
    ensures Front(e) == [] <==> e.Msg?
    ensures e.Msg? ==> FrontText(e) == ""
  {
  }

  /** The end of a line after its attributes: the type of line and its message. */
  method EndMembers(b: Builder, preEncoded: string, e: Ender, ghost prefill: string)
    requires preEncoded == Escapes.Body(prefill) && Closed(b.out.B)
    modifies b.out
    ensures b.out.B == old(b.out.B) + ("," + RenderMembers(Tail(prefill, e)) + "}\n")
  {
    hide RenderMembers, Escapes.Body, Escapes.Separated, ModelBody, MsgText, Tail;
    TailRendered(prefill, e);
    ghost var h := b.out.B;
    if e.Template? {
      b.Append(",\"fmt\":\"tmpl\",\"msg\":");
      b.AddText(e.m);
      b.Append("}\n");
      TemplateGlue(h, "\"" + Escapes.Body(e.m) + "\"");
    } else {
      AddFront(b, e);
      AddMsg(b, preEncoded, e.m, prefill);
      Regroup(h, FrontText(e), MsgText(prefill, e.m), "}\n");
    }
  }

  lemma Regroup(h: string, f: string, m: string, t: string)
    ensures h + f + (m + t) == h + (f + m + t)
  {
    Chain(h, f, m, t);
  }

  method AddFront(b: Builder, e: Ender)
    requires Closed(b.out.B) && !e.Template?
    modifies b.out
    ensures b.out.B == old(b.out.B) + FrontText(e)
  {
    hide Escapes.Body, Escapes.Separated, ModelBody;
    ghost var h := b.out.B;
    match e {
      case Msg(_) =>
        assert h + "" == h;
      case Link(_, trace) =>
        b.Append(",\"type\":\"link\",\"link\":\"");
        b.Append(trace);
        b.Append("\"");
        Chain(h, ",\"type\":\"link\",\"link\":\"", trace, "\"");
      case ModelMsg(_, v) =>
        SeparatedClosed("", h);
        assert "" + h == h;
        b.AddSafeKey("encoded");
        b.AddModel(v);
        b.Append(",\"type\":\"model\",\"modelType\":");
        b.AddText(v.modelType);
        ModelChain(h, ModelBody(v), "\"" + Escapes.Body(v.modelType) + "\"");
    }
  }

  /** Msg, Template, Link and Model. */
  method EndLine(b: Builder, preEncoded: string, e: Ender, ghost head: seq<Member>, ghost attributes: seq<Attribute>, ghost prefill: string)
    requires IsOpen(b, head, attributes) && Closed(RenderMembers(head)) && preEncoded == Escapes.Body(prefill)
    modifies b.out
    ensures b.out.B == Render(LineObject(head, attributes, b.attributesWanted, prefill, e)) + "\n"
  {
    hide RenderMembers, Escapes.Body, Tail, Middle, Closed, OpenText;
    SomeHead(head);
    CloseText(head, attributes, b.attributesWanted);
    assert b.out.B + "" == b.out.B;
    if b.attributesStarted {
      b.Append("}");
    }
    ghost var before := head + Middle(attributes, b.attributesWanted);
    ClosedBefore(head, attributes, b.attributesWanted);
    SeparatedClosed("{", RenderMembers(before));
    EndMembers(b, preEncoded, e, prefill);
    SomeTail(prefill, e);
    EndText(before, Tail(prefill, e));
  }

  lemma SomeTail(prefill: string, e: Ender)
    ensures Tail(prefill, e) != []
  {
  }

  lemma SomeHead(head: seq<Member>)
    requires Closed(RenderMembers(head))
    ensures head != []
  {
  }

  lemma TemplateGlue(h: string, t: string)
    ensures h + ",\"fmt\":\"tmpl\",\"msg\":" + t + "}\n" == h + (",\"fmt\":\"tmpl\"" + (",\"msg\":" + t) + "}\n")
  {
    assert ",\"fmt\":\"tmpl\"" + (",\"msg\":" + t) == ",\"fmt\":\"tmpl\",\"msg\":" + t;
    Chain(h, ",\"fmt\":\"tmpl\",\"msg\":", t, "}\n");
  }

  lemma ModelChain(h: string, body: string, t: string)
    ensures h + "," + "\"encoded\":" + body + ",\"type\":\"model\",\"modelType\":" + t ==
            h + (",\"encoded\":" + body + ",\"type\":\"model\",\"modelType\":" + t)
  {
    Chain5(h, ",", "\"encoded\":", body, ",\"type\":\"model\",\"modelType\":", t);
    assert "," + "\"encoded\":" == ",\"encoded\":";
  }

  lemma ClosedBefore(head: seq<Member>, attributes: seq<Attribute>, wanted: bool)
    requires Closed(RenderMembers(head)) && head != []
    ensures Closed(RenderMembers(head + Middle(attributes, wanted)))
  {
    hide RenderMembers, RenderMember, MembersOf, ValueOf;
    if attributes == [] {
      assert head + [] == head;
    } else {
      var ms := Middle(attributes, wanted);
      MiddleClosed(attributes, wanted);
      MembersAppend(head, ms);
      var t := RenderMembers(ms);
      assert (RenderMembers(head) + "," + t)[|RenderMembers(head) + "," + t| - 1] == t[|t| - 1];
    }
  }

  lemma MiddleClosed(attributes: seq<Attribute>, wanted: bool)
    requires attributes != []
    ensures Middle(attributes, wanted) != [] && Closed(RenderMembers(Middle(attributes, wanted)))
  {
    hide ValueOf, RenderMembers;
    if wanted {
      var m := Member("attributes", Obj(MembersOf(attributes)));
      assert Closed(RenderMember(m));
      OneMember(m);
    } else {
      AttributesClosed(attributes);
    }
  }

  // ---- Whole lines ---------------------------------------------------------------------------------

  /** The head of a line ends a value when what identifies the span does. */
  lemma HeadClosed(level: string, ts: string, frames: seq<Frame>, ids: seq<Member>)
    requires Embeddable(ts) && AllFine(ids)
    ensures Closed(RenderMembers(Head(level, ts, frames, ids)))
  {
    hide RenderMembers, Embeddable, StackOf;
    HeadIs(level, ts, frames, ids);
    var head := if frames == [] then LevelAndTime(level, ts) else LevelAndTime(level, ts) + [StackMember(frames)];
    if frames == [] {
      LevelClosed(level, ts);
    } else {
      StackClosed(LevelAndTime(level, ts), frames);
    }
    if ids == [] {
      assert head + ids == head;
    } else {
      MemberClosed(ids[|ids| - 1]);
      MembersClosed(head + ids);
    }
  }

  /** For any prefill, any attribute calls and any ender the line is the reference object and a newline. */
  method LogLine(prefilled: seq<Attribute>, prefillMsg: string, level: string, ts: string, frames: seq<Frame>, ids: seq<Member>,
                 wanted: bool, attributes: seq<Attribute>, e: Ender) returns (text: string)
    requires Embeddable(ts) && AllFine(ids)
    ensures text == Render(LineObject(Head(level, ts, frames, ids), prefilled + attributes, wanted, prefillMsg, e)) + "\n"
  {
    hide Embeddable, AllFine, Head, Grown, OpenText, RenderMembers, MembersOf, Closed, Escapes.Body;
    var p := Prefill(prefilled, prefillMsg);
    var b := StartLine(level, ts, frames, ids, wanted, p, prefilled);
    ghost var head := Head(level, ts, frames, ids);
    HeadClosed(level, ts, frames, ids);
    var k := 0;
    assert prefilled + attributes[..0] == prefilled;
    while k < |attributes|
      invariant 0 <= k <= |attributes| && fresh(b) && fresh(b.out) && b.attributesWanted == wanted
      invariant IsOpen(b, head, prefilled + attributes[..k])
    {
      ghost var so := prefilled + attributes[..k];
      assert prefilled + attributes[..k + 1] == so + [attributes[k]];
      GrowOpen(head, so, wanted, attributes[k]);
      b.Add(attributes[k]);
      k := k + 1;
    }
    assert attributes[..k] == attributes;
    EndLine(b, p.preEncodedMsg, e, head, prefilled + attributes, prefillMsg);
    text := b.out.B;
  }

  /** The text of a line up to its message, and the message. */
  lemma LineText(head: seq<Member>, attributes: seq<Attribute>, wanted: bool, prefill: string, e: Ender)
    requires head != []
    ensures Render(LineObject(head, attributes, wanted, prefill, e)) + "\n" ==
              "{" + RenderMembers(head + Middle(attributes, wanted)) + (FrontText(e) + (if e.Template? then ",\"msg\":" + ("\"" + Escapes.Body(e.m) + "\"") else MsgText(prefill, e.m)) + "}\n")
  {
    hide RenderMembers, Render, Tail, Middle, FrontText, MsgText, Escapes.Body;
    TailRendered(prefill, e);
    EndText(head + Middle(attributes, wanted), Tail(prefill, e));
  }

  lemma CancelAround(h: string, x: string, y: string, t: string)
    requires h + x + t == h + y + t
    ensures x == y
  {
    assert |h + x + t| == |h + y + t|;
    assert x == (h + x + t)[|h|..|h| + |x|] && y == (h + y + t)[|h|..|h| + |y|];
  }

  lemma MsgTextShows(h: string, p: string, q: string, m: string, t: string)
    requires h + MsgText(p, m) + t == h + MsgText(q, m) + t
    ensures p == q
  {
    hide Escapes.Body;
    CancelAround(h, MsgText(p, m), MsgText(q, m), t);
    var o, c := ",\"msg\":\"", Escapes.Body(m) + "\"";
    assert MsgText(p, m) == o + Escapes.Body(p) + c && MsgText(q, m) == o + Escapes.Body(q) + c;
    CancelAround(o, Escapes.Body(p), Escapes.Body(q), c);
    Escapes.Injective(p, q, "", "");
  }

  /** Two prefilled messages make the same line exactly if they are equal or the line is a Template, which drops them. */
  lemma PrefillShown(head: seq<Member>, attributes: seq<Attribute>, wanted: bool, p: string, q: string, e: Ender)
    requires head != []
    ensures Render(LineObject(head, attributes, wanted, p, e)) == Render(LineObject(head, attributes, wanted, q, e)) <==> e.Template? || p == q
  {
    hide RenderMembers, Render, LineObject, FrontText, MsgText, Escapes.Body;
    LineText(head, attributes, wanted, p, e);
    LineText(head, attributes, wanted, q, e);
    var h, f := "{" + RenderMembers(head + Middle(attributes, wanted)), FrontText(e);
    var s, t := Render(LineObject(head, attributes, wanted, p, e)), Render(LineObject(head, attributes, wanted, q, e));
    assert s + "\n" == t + "\n" ==> s == t by { DropNewline(s, t); }
    if s == t && !e.Template? {
      Chain(h, f, MsgText(p, e.m), "}\n");
      Chain(h, f, MsgText(q, e.m), "}\n");
      assert h + (f + MsgText(p, e.m) + "}\n") == (h + f) + MsgText(p, e.m) + "}\n";
      assert h + (f + MsgText(q, e.m) + "}\n") == (h + f) + MsgText(q, e.m) + "}\n";
      MsgTextShows(h + f, p, q, e.m, "}\n");
    }
  }

  lemma DropNewline(s: string, t: string)
    ensures s + "\n" == t + "\n" ==> s == t
  {
    if s + "\n" == t + "\n" {
      assert s == (s + "\n")[..|s|] && t == (t + "\n")[..|t|] && |s + "\n"| == |t + "\n"|;
    }
  }

  // ---- Balance ---------------------------------------------------------------------------------------

  /** Digits up to something that is none. */
  lemma {:induction false} DigitsSkipped(s: string, rest: string)
    requires (forall k :: 0 <= k < |s| ==> Digit(s[k])) && (rest == "" || !Digit(rest[0]))
    ensures SkipDigits(s + rest) == rest
  {
    if s == "" {
      assert s + rest == rest;
    } else {
      assert (s + rest)[1..] == s[1..] + rest;
      DigitsSkipped(s[1..], rest);
    }
  }

  lemma {:induction false} NoLeadingZero(n: nat)
    ensures Decimal.Digits(n)[0] == '0' ==> Decimal.Digits(n) == "0"
  {
    if n >= 10 {
      NoLeadingZero(n / 10);
      assert Decimal.Digits(n)[0] == Decimal.Digits(n / 10)[0];
      assert n / 10 > 0;
      NotZero(n / 10);
    }
  }

  lemma NotZero(n: nat)
    requires n > 0
    ensures Decimal.Digits(n) != "0"
  {
    if n < 10 {
      assert Decimal.Digits(n)[0] == Decimal.Digit(n);
    }
  }

  /** A fraction, if any, and what follows the number. */
  lemma FractionSkipped(fraction: string, rest: string)
    requires (forall k :: 0 <= k < |fraction| ==> Digit(fraction[k])) && Stops(rest)
    ensures var t := if fraction == "" then rest else "." + fraction + rest;
            SkipExponent(SkipFraction(t)) == rest && (t == "" || !Digit(t[0]))
  {
    if fraction != "" {
      var t := "." + fraction + rest;
      assert t[1..] == fraction + rest;
      DigitsSkipped(fraction, rest);
    }
  }

  lemma WholeSkipped(whole: nat, tail: string)
    requires tail == "" || !Digit(tail[0])
    ensures var u := Decimal.Digits(whole) + tail;
            u != "" && Digit(u[0]) && (if u[0] == '0' then u[1..] else SkipDigits(u[1..])) == tail
  {
    hide Decimal.Digits;
    var d := Decimal.Digits(whole);
    NoLeadingZero(whole);
    assert (d + tail)[1..] == d[1..] + tail;
    DigitsSkipped(d[1..], tail);
  }

  lemma NumberSkipped(negative: bool, whole: nat, fraction: string, rest: string)
    requires (forall k :: 0 <= k < |fraction| ==> Digit(fraction[k])) && Stops(rest)
    ensures SkipNumber((if negative then "-" else "") + (Decimal.Digits(whole) + (if fraction == "" then "" else "." + fraction)) + rest) == Some(rest)
  {
    hide SkipExponent, SkipFraction, SkipDigits, Decimal.Digits, Stops;
    var d := Decimal.Digits(whole);
    var tail := if fraction == "" then rest else "." + fraction + rest;
    var t := (if negative then "-" else "") + (d + (if fraction == "" then "" else "." + fraction)) + rest;
    assert t == if negative then "-" + (d + tail) else d + tail;
    FractionSkipped(fraction, rest);
    WholeSkipped(whole, tail);
    assert negative ==> t[1..] == d + tail;
  }

  lemma NumberFine(negative: bool, whole: nat, fraction: string)
    requires forall k :: 0 <= k < |fraction| ==> Digit(fraction[k])
    ensures Embeddable((if negative then "-" else "") + (Decimal.Digits(whole) + (if fraction == "" then "" else "." + fraction)))
  {
    var text := (if negative then "-" else "") + (Decimal.Digits(whole) + (if fraction == "" then "" else "." + fraction));
    assert Digit(text[|text| - 1]);
    forall rest: string | Stops(rest) ensures Skip(text + rest) == Some(rest) {
      NumberSkipped(negative, whole, fraction, rest);
      assert (text + rest)[0] == text[0];
      FirstOfNumber(text + rest);
    }
  }

  lemma FirstOfNumber(t: string)
    requires t != "" && (Digit(t[0]) || t[0] == '-')
    ensures Skip(t) == SkipNumber(t)
  {
    hide SkipNumber, SkipString, SkipMembers, SkipElements;
    NoPrefix("true", t);
    NoPrefix("false", t);
    NoPrefix("null", t);
  }

  lemma NoPrefix(w: string, t: string)
    requires w != "" && t != "" && w[0] != t[0]
    ensures !(w <= t)
  {
  }

  lemma DecimalFine(i: int)
    ensures Fine(Raw(Decimal.Of(i)))
  {
    hide Decimal.Digits, Embeddable;
    NumberFine(i < 0, if i < 0 then -i else i, "");
    var d := Decimal.Digits(if i < 0 then -i else i);
    assert d + "" == d && "" + d == d;
  }

  /** A finite float is a value; anything else is none, whatever follows. */
  lemma FloatExactly(f: Float)
    requires FloatOk(f)
    ensures f.Finite? ==> Embeddable(FloatText(f))
    ensures !f.Finite? ==> Unreadable(FloatText(f))
  {
    hide Embeddable;
    match f
    case Finite(negative, whole, fraction) => NumberFine(negative, whole, fraction);
    case NaN => NoNumber(FloatText(f));
    case Infinite(_) => NoNumber(FloatText(f));
  }

  lemma NoNumber(text: string)
    requires text == "NaN" || text == "+Inf" || text == "-Inf"
    ensures Unreadable(text)
  {
    forall rest: string ensures Skip(text + rest) == None {
      var t := text + rest;
      assert t[0] == text[0] && t[1] == text[1];
      assert t[1..][0] == t[1];
    }
  }

  /** A string without listed bytes may be written as it is. */
  lemma SafeFine(s: string)
    requires Plain(s)
    ensures Fine(Safe(s))
  {
    forall rest: string | Stops(rest) ensures Skip("\"" + s + "\"" + rest) == Some(rest) {
      assert Escapes.Body(s) == s;
      StringSkipped([s], rest);
      TextRendered(s);
    }
  }

  /** What callers must provide: embedded encodings and formatted times that are JSON values, and names and durations
      without bytes that need escaping. */
  ghost predicate ModelFine(m: Model) {
    if m.isJson then Embeddable(m.encoded) else Plain(m.encoding)
  }

  predicate NotANumber(a: Attribute) {
    a.FloatAttribute? && !a.f.Finite?
  }

  ghost predicate AttributeFine(a: Attribute) {
    AttributeSound(a) && !NotANumber(a)
  }

  ghost predicate AttributeSound(a: Attribute) {
    match a
    case AnyAttribute(_, m) => ModelFine(m)
    case EnumAttribute(_, _, _) => true
    case TimeAttribute(_, text) => Embeddable(text)
    case BoolAttribute(_, _) => true
    case IntAttribute(_, _, t) => Plain(t)
    case StringAttribute(_, _, t) => Plain(t)
    case FloatAttribute(_, f, t) => FloatOk(f) && Plain(t)
    case DurationAttribute(_, text) => Plain(text)
  }

  ghost predicate EnderFine(e: Ender) {
    match e
    case Msg(_) => true
    case Template(_) => true
    case Link(_, trace) => Plain(trace)
    case ModelMsg(_, m) => ModelFine(m)
  }

  lemma ModelMembersFine(key: string, m: Model)
    requires ModelFine(m)
    ensures AllFine(ModelMembers(key, m))
  {
    hide Plain;
    if !m.isJson {
      SafeFine(m.encoding);
    }
  }

  lemma FixedFine()
    ensures Fine(Safe("any")) && Fine(Safe("enum")) && Fine(Safe("time")) && Fine(Safe("bool")) && Fine(Safe("dur"))
    ensures Fine(Safe("tmpl")) && Fine(Safe("link")) && Fine(Safe("model"))
  {
    hide Fine;
    SafeFine("any");
    SafeFine("enum");
    SafeFine("time");
    SafeFine("bool");
    SafeFine("dur");
    SafeFine("tmpl");
    SafeFine("link");
    SafeFine("model");
  }

  lemma PairFine(v: Value, t: string)
    requires Fine(v) && Fine(Safe(t))
    ensures Fine(Obj([Member("v", v), Member("t", Safe(t))]))
  {
    hide Embeddable;
    assert AllFine([Member("v", v), Member("t", Safe(t))]);
  }

  lemma RawFine(text: string)
    requires Embeddable(text)
    ensures Fine(Raw(text))
  {
    hide Embeddable;
  }

  lemma TextFine(s: string)
    ensures Fine(Text(s))
  {
  }

  lemma ValueFine(a: Attribute)
    requires AttributeFine(a)
    ensures Fine(ValueOf(a))
  {
    hide Plain, Embeddable, Fine, FloatText, Unreadable;
    FixedFine();
    match a
    case AnyAttribute(_, m) =>
      ModelMembersFine("v", m);
      TextFine(m.modelType);
      AnyFine(m);
    case EnumAttribute(_, s, i) =>
      DecimalFine(i);
      TextFine(s);
      EnumFine(s, i);
    case TimeAttribute(_, text) =>
      RawFine(text);
      PairFine(Raw(text), "time");
    case BoolAttribute(_, b) =>
      BoolFine(b);
      PairFine(Raw(if b then "true" else "false"), "bool");
    case IntAttribute(_, i, t) =>
      DecimalFine(i);
      SafeFine(t);
      PairFine(Raw(Decimal.Of(i)), t);
    case StringAttribute(_, s, t) =>
      SafeFine(t);
      TextFine(s);
      PairFine(Text(s), t);
    case FloatAttribute(_, f, t) =>
      SafeFine(t);
      FloatExactly(f);
      RawFine(FloatText(f));
      PairFine(Raw(FloatText(f)), t);
    case DurationAttribute(_, text) =>
      SafeFine(text);
      PairFine(Safe(text), "dur");
  }

  lemma AnyFine(m: Model)
    requires AllFine(ModelMembers("v", m)) && Fine(Text(m.modelType)) && Fine(Safe("any"))
    ensures Fine(ValueOf(AnyAttribute("", m)))
  {
    hide Embeddable, ModelMembers;
    assert AllFine(ModelMembers("v", m) + [Member("modelType", Text(m.modelType)), Member("t", Safe("any"))]);
  }

  lemma EnumFine(s: string, i: int)
    requires Fine(Text(s)) && Fine(Raw(Decimal.Of(i))) && Fine(Safe("enum"))
    ensures Fine(ValueOf(EnumAttribute("", s, i)))
  {
    hide Embeddable, Decimal.Of;
    assert AllFine([Member("v", Text(s)), Member("i", Raw(Decimal.Of(i))), Member("t", Safe("enum"))]);
  }

  lemma BoolFine(b: bool)
    ensures Fine(Raw(if b then "true" else "false"))
  {
    var text := if b then "true" else "false";
    forall rest: string | Stops(rest) ensures Skip(text + rest) == Some(rest) {
      assert (text + rest)[..|text|] == text && (text + rest)[|text|..] == rest;
      assert (text + rest)[0] == text[0];
    }
  }

  lemma TailFine(prefill: string, e: Ender)
    requires EnderFine(e)
    ensures AllFine(Tail(prefill, e))
  {
    hide Plain, Embeddable;
    FixedFine();
    match e
    case Msg(_) =>
    case Template(_) =>
    case Link(_, trace) => SafeFine(trace);
    case ModelMsg(_, m) => ModelMembersFine("encoded", m);
  }

  lemma MiddleFine(attributes: seq<Attribute>, wanted: bool)
    requires forall i :: 0 <= i < |attributes| ==> AttributeFine(attributes[i])
    ensures AllFine(Middle(attributes, wanted))
  {
    hide AttributeFine, ValueOf;
    forall i | 0 <= i < |attributes| ensures Fine(ValueOf(attributes[i])) {
      ValueFine(attributes[i]);
    }
    var ms := MembersOf(attributes);
    assert AllFine(ms);
    assert Fine(Obj(ms));
  }

  lemma HeadFine(level: string, ts: string, frames: seq<Frame>, ids: seq<Member>)
    requires Plain(level) && Embeddable(ts) && AllFine(ids)
    ensures AllFine(Head(level, ts, frames, ids))
  {
    hide Plain, Embeddable;
    SafeFine(level);
    var base := LevelAndTime(level, ts);
    var stack := if frames == [] then [] else [StackMember(frames)];
    assert forall i :: 0 <= i < |StackOf(frames)| ==> StackOf(frames)[i].Str?;
    assert Fine(Arr(StackOf(frames)));
    assert AllFine(stack);
    assert AllFine(base);
    assert AllFine(base + stack + ids);
  }

  /** The object of a line is one balanced JSON value with commas exactly between members, and only the
      newline follows it. */
  lemma LineBalanced(level: string, ts: string, frames: seq<Frame>, ids: seq<Member>, attributes: seq<Attribute>, wanted: bool, prefill: string, e: Ender)
    requires Plain(level) && Embeddable(ts) && AllFine(ids) && EnderFine(e)
    requires forall i :: 0 <= i < |attributes| ==> AttributeFine(attributes[i])
    ensures Skip(Render(LineObject(Head(level, ts, frames, ids), attributes, wanted, prefill, e)) + "\n") == Some("\n")
  {
    hide Plain, Embeddable, Head, Middle, Tail, AttributeFine, EnderFine;
    var head, middle, tail := Head(level, ts, frames, ids), Middle(attributes, wanted), Tail(prefill, e);
    HeadFine(level, ts, frames, ids);
    MiddleFine(attributes, wanted);
    TailFine(prefill, e);
    assert AllFine(head + middle + tail);
    ValueSkipped(LineObject(head, attributes, wanted, prefill, e), "\n");
  }

  lemma ValueBrokenBy(a: Attribute)
    requires AttributeSound(a) && NotANumber(a)
    ensures Broken(ValueOf(a))
  {
    hide FloatText, Embeddable, Unreadable;
    FloatExactly(a.f);
    var ms := [Member("v", Raw(FloatText(a.f))), Member("t", Safe(a.t))];
    assert Broken(ms[0].value);
    assert BrokenAt(ms, 0);
  }

  lemma MiddleBroken(attributes: seq<Attribute>, wanted: bool, i: nat)
    requires i < |attributes| && AttributeSound(attributes[i]) && NotANumber(attributes[i])
    requires forall j :: 0 <= j < i ==> AttributeFine(attributes[j])
    ensures BrokenAt(Middle(attributes, wanted), if wanted then 0 else i)
  {
    hide AttributeFine, AttributeSound, ValueOf, Fine, Broken;
    var ms := MembersOf(attributes);
    forall j: nat | j < i ensures Fine(ms[j].value) {
      ValueFine(attributes[j]);
    }
    ValueBrokenBy(attributes[i]);
    assert BrokenAt(ms, i);
    if wanted {
      ObjectBroken(ms, i);
    }
  }

  lemma ObjectBroken(ms: seq<Member>, i: nat)
    requires BrokenAt(ms, i)
    ensures Broken(Obj(ms))
  {
  }

  lemma BrokenBehind(head: seq<Member>, middle: seq<Member>, tail: seq<Member>, i: nat)
    requires AllFine(head) && BrokenAt(middle, i)
    ensures BrokenAt(head + middle + tail, |head| + i)
  {
    hide Fine, Broken;
    var ms := head + middle + tail;
    assert forall j: nat :: j < |middle| ==> ms[|head| + j] == middle[j];
    assert forall j: nat :: j < |head| ==> ms[j] == head[j];
  }

  lemma {:induction false} FirstNotANumber(attributes: seq<Attribute>, n: nat) returns (i: nat)
    requires n < |attributes| && NotANumber(attributes[n])
    ensures i < |attributes| && NotANumber(attributes[i]) && forall j :: 0 <= j < i ==> !NotANumber(attributes[j])
  {
    i := 0;
    while !NotANumber(attributes[i])
      invariant i <= n && forall j :: 0 <= j < i ==> !NotANumber(attributes[j])
      decreases n - i
    {
      i := i + 1;
    }
  }

  /** Everything else being in order, a line is a JSON object exactly when no float in it is infinite or not a number. */
  lemma LineExactly(level: string, ts: string, frames: seq<Frame>, ids: seq<Member>, attributes: seq<Attribute>, wanted: bool, prefill: string, e: Ender)
    requires Plain(level) && Embeddable(ts) && AllFine(ids) && EnderFine(e)
    requires forall i :: 0 <= i < |attributes| ==> AttributeSound(attributes[i])
    ensures Skip(Render(LineObject(Head(level, ts, frames, ids), attributes, wanted, prefill, e)) + "\n") == Some("\n") <==>
            forall i :: 0 <= i < |attributes| ==> !NotANumber(attributes[i])
  {
    hide Plain, Embeddable, Head, Middle, Tail, AttributeSound, NotANumber, EnderFine, AllFine, BrokenAt;
    if n: nat :| n < |attributes| && NotANumber(attributes[n]) {
      var i := FirstNotANumber(attributes, n);
      var head, middle, tail := Head(level, ts, frames, ids), Middle(attributes, wanted), Tail(prefill, e);
      HeadFine(level, ts, frames, ids);
      MiddleBroken(attributes, wanted, i);
      BrokenBehind(head, middle, tail, if wanted then 0 else i);
      ObjectBroken(head + middle + tail, |head| + (if wanted then 0 else i));
      ValueBroken(LineObject(head, attributes, wanted, prefill, e), "\n");
    } else {
      LineBalanced(level, ts, frames, ids, attributes, wanted, prefill, e);
    }
  }
}
