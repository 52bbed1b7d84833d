/** Reading a log line back from its text. */
module JsonLineRead {
  import opened Options
  import opened Json
  import opened JsonRead
  import opened JsonLine
  import Decimal
  import Escapes
  import Runes

  /** Names of data types (xopbase/abbr.go). */
  const INTS := {"i", "i8", "i16", "i32", "i64", "u", "u8", "u16", "u32", "u64", "uintptr"}
  const FLOATS := {"f32", "f64"}
  const STRINGS := {"s", "stringer", "error"}

  predicate Typed(a: Attribute) {
    match a
    case IntAttribute(_, _, t) => t in INTS
    case FloatAttribute(_, _, t) => t in FLOATS
    case StringAttribute(_, _, t) => t in STRINGS
    case _ => true
  }

  datatype Line = Line(level: string, ts: string, frames: seq<Frame>, attributes: seq<Attribute>, ender: Ender)

  // ---- The reader -----------------------------------------------------------------------------

  function IntIn(raw: string): Option<int> {
    var p := Decimal.Parse(raw);
    if p.None? || p.value.1 != "" then None else Some(p.value.0)
  }

  function FloatIn(raw: string): Option<Float> {
    var negative := raw != "" && raw[0] == '-';
    var u := if negative then raw[1..] else raw;
    if u == "" || !Decimal.IsDigit(u[0]) then None
    else
      var r := Decimal.Read(u, 0);
      if r.1 == "" then Some(Finite(negative, r.0, ""))
      else if r.1[0] == '.' then Some(Finite(negative, r.0, r.1[1..]))
      else None
  }

  function BoolIn(raw: string): Option<bool> {
    if raw == "true" then Some(true) else if raw == "false" then Some(false) else None
  }

  /** A model from the texts of its encoding, of the name of the encoding if there is one, and of its type. */
  function ModelIn(encoded: string, encoding: Option<string>, modelType: string): Option<Model> {
    var t := StringIn(modelType);
    if t.None? then None
    else if encoding.None? then Some(Model(true, encoded, "", t.value))
    else
      var s, e := StringIn(encoded), StringIn(encoding.value);
      if s.None? || e.None? then None else Some(Model(false, s.value, e.value, t.value))
  }

  /** An attribute from its key, the text of its value, its type, and the members between them. */
  function ValueIn(key: string, v: string, t: string, more: seq<Entry>): Option<Attribute> {
    if t == "any" then
      var m := if |more| == 1 && more[0].key == "modelType" then ModelIn(v, None, more[0].raw)
               else if |more| == 2 && more[0].key == "encoding" && more[1].key == "modelType" then ModelIn(v, Some(more[0].raw), more[1].raw)
               else None;
      if m.None? then None else Some(AnyAttribute(key, m.value))
    else if t == "enum" then
      var s, i := StringIn(v), if |more| == 1 && more[0].key == "i" then IntIn(more[0].raw) else None;
      if s.None? || i.None? then None else Some(EnumAttribute(key, s.value, i.value))
    else if more != [] then None
    else if t == "bool" then (var b := BoolIn(v); if b.None? then None else Some(BoolAttribute(key, b.value)))
    else if t == "time" then Some(TimeAttribute(key, v))
    else if t == "dur" then (var s := StringIn(v); if s.None? then None else Some(DurationAttribute(key, s.value)))
    else if t in INTS then (var i := IntIn(v); if i.None? then None else Some(IntAttribute(key, i.value, t)))
    else if t in FLOATS then (var f := FloatIn(v); if f.None? then None else Some(FloatAttribute(key, f.value, t)))
    else if t in STRINGS then (var s := StringIn(v); if s.None? then None else Some(StringAttribute(key, s.value, t)))
    else None
  }

  function FieldsIn(key: string, es: seq<Entry>): Option<Attribute> {
    var n := |es|;
    if n < 2 || es[0].key != "v" || es[n - 1].key != "t" then None
    else
      var t := StringIn(es[n - 1].raw);
      if t.None? then None else ValueIn(key, es[0].raw, t.value, es[1..n - 1])
  }

  function AttributeIn(e: Entry): Option<Attribute> {
    var o := ObjectIn(e.raw);
    if o.None? || o.value.1 != "" then None else FieldsIn(e.key, o.value.0)
  }

  function AllIn(es: seq<Entry>): Option<seq<Attribute>> {
    if es == [] then Some([])
    else
      var a, more := AttributeIn(es[0]), AllIn(es[1..]);
      if a.None? || more.None? then None else Some([a.value] + more.value)
  }

  function AttributesIn(es: seq<Entry>, wanted: bool): Option<seq<Attribute>> {
    if es == [] || !wanted then AllIn(es)
    else if |es| != 1 || es[0].key != "attributes" then None
    else
      var o := ObjectIn(es[0].raw);
      if o.None? || o.value.1 != "" then None else AllIn(o.value.0)
  }

  function LastColon(s: string): (r: Option<nat>)
    ensures r.Some? ==> r.value < |s|
  {
    if s == "" then None
    else if s[|s| - 1] == ':' then Some(|s| - 1)
    else LastColon(s[..|s| - 1])
  }

  function FrameIn(raw: string): Option<Frame> {
    var s := StringIn(raw);
    if s.None? then None
    else
      var c := LastColon(s.value);
      if c.None? then None
      else
        var n := IntIn(s.value[c.value + 1..]);
        if n.None? then None else Some(Frame(s.value[..c.value], n.value))
  }

  function AllFrames(raws: seq<string>): Option<seq<Frame>> {
    if raws == [] then Some([])
    else
      var f, more := FrameIn(raws[0]), AllFrames(raws[1..]);
      if f.None? || more.None? then None else Some([f.value] + more.value)
  }

  function FramesIn(raw: string): Option<seq<Frame>> {
    var a := ArrayIn(raw);
    if a.None? || a.value.1 != "" then None else AllFrames(a.value.0)
  }

  /** How many members at the end tell how the line was ended. */
  function TailSize(es: seq<Entry>): nat {
    var n := |es|;
    if n >= 2 && es[n - 2] == Entry("fmt", "\"tmpl\"") then 2
    else if n >= 3 && es[n - 3] == Entry("type", "\"link\"") then 3
    else if n >= 3 && es[n - 3] == Entry("type", "\"model\"") then (if n >= 4 && es[n - 4].key == "encoding" then 5 else 4)
    else 1
  }

  function EnderIn(es: seq<Entry>): Option<Ender> {
    if es == [] || es[|es| - 1].key != "msg" then None
    else
      var m := StringIn(es[|es| - 1].raw);
      if m.None? then None
      else if |es| == 1 then Some(Msg(m.value))
      else if |es| == 2 then Some(Template(m.value))
      else if |es| == 3 then (var t := StringIn(es[1].raw); if t.None? then None else Some(Link(m.value, t.value)))
      else if |es| == 4 then (var v := ModelIn(es[0].raw, None, es[2].raw); if v.None? then None else Some(ModelMsg(m.value, v.value)))
      else if |es| == 5 then (var v := ModelIn(es[0].raw, Some(es[1].raw), es[3].raw); if v.None? then None else Some(ModelMsg(m.value, v.value)))
      else None
  }

  function Assembled(level: Option<string>, ts: string, frames: Option<seq<Frame>>, attributes: Option<seq<Attribute>>, e: Option<Ender>): Option<Line> {
    if level.None? || frames.None? || attributes.None? || e.None? then None
    else Some(Line(level.value, ts, frames.value, attributes.value, e.value))
  }

  predicate HasStack(es: seq<Entry>) {
    |es| > 2 && es[2].key == "stack" && es[2].raw != "" && es[2].raw[0] == '['
  }

  /** A line that identifies its span by `ids` members. */
  function LineIn(text: string, ids: nat, wanted: bool): Option<Line> {
    var o := ObjectIn(text);
    if o.None? || o.value.1 != "\n" then None else MembersIn(o.value.0, ids, wanted)
  }

  function MembersIn(es: seq<Entry>, ids: nat, wanted: bool): Option<Line> {
    var n, tail := |es|, TailSize(es);
    var head := (if HasStack(es) then 3 else 2) + ids;
    if head + tail > n || es[0].key != "lvl" || es[1].key != "ts" then None
    else
      Assembled(StringIn(es[0].raw), es[1].raw, if HasStack(es) then FramesIn(es[2].raw) else Some([]),
                AttributesIn(es[head..n - tail], wanted), EnderIn(es[n - tail..]))
  }

  // ---- What can be read -----------------------------------------------------------------------

  /** An embedded encoding does not carry its name. */
  function ShownModel(m: Model): Model {
    if m.isJson then m.(encoding := "") else m
  }

  /** Keys of registered attributes come back up to bytes that are not UTF-8. */
  function Shown(a: Attribute): Attribute {
    match a
    case AnyAttribute(k, m) => AnyAttribute(k, ShownModel(m))
    case EnumAttribute(k, s, i) => EnumAttribute(Runes.Repaired(k), s, i)
    case _ => a
  }

  function AllShown(attributes: seq<Attribute>): seq<Attribute> {
    seq(|attributes|, i requires 0 <= i < |attributes| => Shown(attributes[i]))
  }

  /** The message follows what was prefilled, except in a Template. */
  function ShownEnder(prefill: string, e: Ender): Ender {
    match e
    case Msg(m) => Msg(prefill + m)
    case Template(m) => e
    case Link(m, trace) => Link(prefill + m, trace)
    case ModelMsg(m, v) => ModelMsg(prefill + m, ShownModel(v))
  }

  // ---- Attributes ---------------------------------------------------------------------------------

  lemma SafeRead(s: string)
    requires Plain(s)
    ensures StringIn("\"" + s + "\"") == Some(s) && Render(Safe(s)) == "\"" + s + "\""
  {
    hide StringIn;
    assert Escapes.Body(s) == s;
    TextRendered(s);
    StringRead([s]);
    assert Concat([s]) == s + Concat([s][1..]);
    assert [s][1..] == [] && s + "" == s;
  }

  lemma TextRead(s: string)
    ensures StringIn(Render(Text(s))) == Some(s)
  {
    hide StringIn, Render;
    StringRead([s]);
    assert [s][1..] == [] && s + "" == s;
  }

  lemma TwoRead(a: string, b: string)
    ensures StringIn(Render(Str([a, b]))) == Some(a + b)
  {
    hide StringIn, Render;
    StringRead([a, b]);
    assert [a, b][1..] == [b] && [b][1..] == [] && b + "" == b;
    assert Concat([b]) == b + Concat([]) && Concat([a, b]) == a + Concat([b]);
  }

  lemma IntRead(i: int)
    ensures IntIn(Decimal.Of(i)) == Some(i)
  {
    hide Decimal.Of, Decimal.Parse;
    Decimal.RoundTrip(i, "");
    assert Decimal.Of(i) + "" == Decimal.Of(i);
  }

  lemma FloatRead(f: Float)
    requires f.Finite? && FloatOk(f)
    ensures FloatIn(FloatText(f)) == Some(f)
  {
    hide Decimal.Digits, Decimal.Read;
    var d, tail := Decimal.Digits(f.whole), if f.fraction == "" then "" else "." + f.fraction;
    var text := FloatText(f);
    assert text == if f.negative then "-" + (d + tail) else d + tail by { assert "" + (d + tail) == d + tail; }
    assert f.negative ==> text[1..] == d + tail;
    assert (d + tail)[0] == d[0] && Decimal.IsDigit(d[0]);
    Decimal.ReadDigits(f.whole, tail);
    NoMore(tail, f.whole);
    assert f.fraction != "" ==> tail[1..] == f.fraction;
  }

  lemma NoMore(tail: string, n: nat)
    requires tail == "" || tail[0] == '.'
    ensures Decimal.Read(tail, n) == (n, tail)
  {
  }

  /** The members of an attribute, read. */
  lemma FieldsRead(e: Entry, ms: seq<Member>)
    requires AllFine(ms) && e.raw == Render(Obj(ms))
    ensures AttributeIn(e) == FieldsIn(e.key, Seen(ms))
  {
    hide Render, AllFine, FieldsIn, ObjectIn, Seen;
    ObjectRead(ms, "");
    assert e.raw + "" == e.raw;
  }

  lemma PairRead(key: string, v: Value, t: string)
    requires Fine(v) && Plain(t) && AllFine([Member("v", v), Member("t", Safe(t))])
    ensures AttributeIn(Entry(key, Render(Obj([Member("v", v), Member("t", Safe(t))])))) == ValueIn(key, Render(v), t, [])
  {
    hide Render, AllFine, Fine, Plain, ValueIn, StringIn;
    var ms := [Member("v", v), Member("t", Safe(t))];
    FieldsRead(Entry(key, Render(Obj(ms))), ms);
    SafeRead(t);
    var es := Seen(ms);
    assert es == [Entry("v", Render(v)), Entry("t", "\"" + t + "\"")];
    assert es[1..|es| - 1] == [];
  }

  lemma FixedPlain()
    ensures Plain("any") && Plain("enum") && Plain("time") && Plain("bool") && Plain("dur") && Plain("tmpl") && Plain("link") && Plain("model")
  {
  }

  lemma EnumRead(key: string, s: string, i: int)
    requires AllFine(ValueOf(EnumAttribute("", s, i)).members)
    ensures AttributeIn(Entry(key, Render(ValueOf(EnumAttribute("", s, i))))) == Some(EnumAttribute(key, s, i))
  {
    hide Render, AllFine, StringIn, IntIn, Decimal.Of;
    var ms := [Member("v", Text(s)), Member("i", Raw(Decimal.Of(i))), Member("t", Safe("enum"))];
    FieldsRead(Entry(key, Render(Obj(ms))), ms);
    FixedPlain();
    SafeRead("enum");
    TextRead(s);
    IntRead(i);
    RawIs(Decimal.Of(i));
    var es := Seen(ms);
    assert es == [Entry("v", Render(Text(s))), Entry("i", Decimal.Of(i)), Entry("t", "\"" + "enum" + "\"")];
    assert es[1..|es| - 1] == [es[1]];
  }

  lemma ModelRead(m: Model)
    requires ModelFine(m)
    ensures m.isJson ==> ModelIn(m.encoded, None, Render(Text(m.modelType))) == Some(ShownModel(m))
    ensures !m.isJson ==> ModelIn(Render(Text(m.encoded)), Some(Render(Safe(m.encoding))), Render(Text(m.modelType))) == Some(ShownModel(m))
  {
    hide Render, StringIn, Embeddable, Plain;
    TextRead(m.modelType);
    TextRead(m.encoded);
    if !m.isJson {
      SafeRead(m.encoding);
    }
  }

  lemma AnyRead(key: string, m: Model)
    requires ModelFine(m) && AllFine(ValueOf(AnyAttribute("", m)).members)
    ensures AttributeIn(Entry(key, Render(ValueOf(AnyAttribute("", m))))) == Some(AnyAttribute(key, ShownModel(m)))
  {
    hide Render, AllFine, StringIn, ModelIn, ModelFine, ShownModel;
    var ms := ModelMembers("v", m) + [Member("modelType", Text(m.modelType)), Member("t", Safe("any"))];
    FieldsRead(Entry(key, Render(Obj(ms))), ms);
    FixedPlain();
    SafeRead("any");
    ModelRead(m);
    RawIs(m.encoded);
    var es := Seen(ms);
    var t, x := Entry("t", "\"" + "any" + "\""), Entry("modelType", Render(Text(m.modelType)));
    if m.isJson {
      assert es == [Entry("v", m.encoded), x, t];
      assert es[1..|es| - 1] == [x];
    } else {
      assert es == [Entry("v", Render(Text(m.encoded))), Entry("encoding", Render(Safe(m.encoding))), x, t];
      assert es[1..|es| - 1] == [es[1], x];
    }
  }

  lemma FineMembers(ms: seq<Member>)
    requires Fine(Obj(ms))
    ensures AllFine(ms)
  {
  }

  lemma PairParts(v: Value, t: string)
    requires Fine(Obj([Member("v", v), Member("t", Safe(t))]))
    ensures AllFine([Member("v", v), Member("t", Safe(t))]) && Fine(v)
  {
    hide Embeddable;
    assert [Member("v", v), Member("t", Safe(t))][0].value == v;
  }

  /** Every attribute is read back with its kind, value and type. */
  lemma AttributeRead(a: Attribute)
    requires AttributeFine(a) && Typed(a)
    ensures AttributeIn(SeenOne(AttributeMember(a))) == Some(Shown(a))
  {
    hide Plain, Embeddable, Fine, AllFine, FloatText, Render, AttributeIn, StringIn, IntIn, FloatIn, Decimal.Of, ModelFine, ShownModel, Runes.Repaired;
    ValueFine(a);
    FixedPlain();
    var key := Shown(a).key;
    match a
    case AnyAttribute(_, m) =>
      FineMembers(ValueOf(a).members);
      AnyRead(key, m);
    case EnumAttribute(_, s, i) =>
      FineMembers(ValueOf(a).members);
      EnumRead(key, s, i);
    case TimeAttribute(_, text) =>
      PairParts(Raw(text), "time");
      PairRead(key, Raw(text), "time");
      RawIs(text);
    case BoolAttribute(_, b) =>
      var text := if b then "true" else "false";
      PairParts(Raw(text), "bool");
      PairRead(key, Raw(text), "bool");
      RawIs(text);
    case IntAttribute(_, i, t) =>
      PairParts(Raw(Decimal.Of(i)), t);
      PairRead(key, Raw(Decimal.Of(i)), t);
      RawIs(Decimal.Of(i));
      IntRead(i);
    case StringAttribute(_, s, t) =>
      PairParts(Text(s), t);
      PairRead(key, Text(s), t);
      TextRead(s);
    case FloatAttribute(_, f, t) =>
      PairParts(Raw(FloatText(f)), t);
      PairRead(key, Raw(FloatText(f)), t);
      RawIs(FloatText(f));
      FloatRead(f);
    case DurationAttribute(_, text) =>
      PairParts(Safe(text), "dur");
      PairRead(key, Safe(text), "dur");
      SafeRead(text);
  }

  lemma {:induction false} AllRead(attributes: seq<Attribute>)
    requires forall i :: 0 <= i < |attributes| ==> AttributeFine(attributes[i]) && Typed(attributes[i])
    ensures AllIn(Seen(MembersOf(attributes))) == Some(AllShown(attributes))
  {
    hide AttributeFine, Typed, AttributeIn, SeenOne, AttributeMember, Shown;
    var es := Seen(MembersOf(attributes));
    if attributes == [] {
      assert es == [] && AllShown(attributes) == [];
    } else {
      AttributeRead(attributes[0]);
      AllRead(attributes[1..]);
      assert es == [SeenOne(AttributeMember(attributes[0]))] + Seen(MembersOf(attributes[1..]));
      assert es[1..] == Seen(MembersOf(attributes[1..]));
      assert AllShown(attributes) == [Shown(attributes[0])] + AllShown(attributes[1..]);
    }
  }

  lemma WantedRead(ms: seq<Member>)
    requires AllFine(ms)
    ensures AttributesIn([Entry("attributes", Render(Obj(ms)))], true) == AllIn(Seen(ms))
  {
    hide Render, AllFine, ObjectIn, Seen;
    ObjectRead(ms, "");
    assert Render(Obj(ms)) + "" == Render(Obj(ms));
  }

  lemma MiddleRead(attributes: seq<Attribute>, wanted: bool)
    requires forall i :: 0 <= i < |attributes| ==> AttributeFine(attributes[i]) && Typed(attributes[i])
    ensures AttributesIn(Seen(Middle(attributes, wanted)), wanted) == Some(AllShown(attributes))
  {
    hide AttributeFine, Typed, Render, AllFine, Fine, SeenOne, AttributeMember, Shown, AllIn;
    AllRead(attributes);
    if attributes == [] {
      NoneRead();
    } else if wanted {
      var ms := MembersOf(attributes);
      MiddleFine(attributes, wanted);
      MiddleParts(ms, Middle(attributes, wanted));
      WantedRead(ms);
      SeenWanted(ms);
    } else {
      assert MembersOf(attributes) != [];
    }
  }

  lemma NoneRead()
    ensures AllIn([]) == Some([]) && AllShown([]) == [] && Seen([]) == []
  {
  }

  lemma MiddleParts(ms: seq<Member>, middle: seq<Member>)
    requires AllFine(middle) && middle == [Member("attributes", Obj(ms))]
    ensures AllFine(ms)
  {
    assert middle[0].value == Obj(ms);
  }

  lemma SeenWanted(ms: seq<Member>)
    ensures Seen([Member("attributes", Obj(ms))]) == [Entry("attributes", Render(Obj(ms)))]
  {
    hide Render;
  }

  // ---- Frames -----------------------------------------------------------------------------------------

  lemma {:induction false} ColonBefore(s: string, n: string)
    requires ':' !in n
    ensures LastColon(s + ":" + n) == Some(|s|)
  {
    var t := s + ":" + n;
    if n == "" {
      assert t[|t| - 1] == ':';
    } else {
      assert t[..|t| - 1] == s + ":" + n[..|n| - 1] && t[|t| - 1] == n[|n| - 1];
      ColonBefore(s, n[..|n| - 1]);
    }
  }

  lemma NoColon(i: int)
    ensures ':' !in Decimal.Of(i)
  {
    hide Decimal.Digits;
  }

  lemma FrameRead(f: Frame)
    ensures FrameIn(Render(Str([f.file, ":", Decimal.Of(f.line)]))) == Some(f)
  {
    hide Render, StringIn, IntIn, Decimal.Of;
    var n := Decimal.Of(f.line);
    var parts := [f.file, ":", n];
    StringRead(parts);
    assert parts[1..] == [":", n] && [":", n][1..] == [n] && [n][1..] == [];
    assert Concat([n]) == n + "" && Concat([":", n]) == ":" + (n + "") && Concat(parts) == f.file + (":" + (n + ""));
    var s := f.file + ":" + n;
    assert Concat(parts) == s;
    NoColon(f.line);
    ColonBefore(f.file, n);
    IntRead(f.line);
    assert s[..|f.file|] == f.file && s[|f.file| + 1..] == n;
  }

  lemma {:induction false} AllFramesRead(frames: seq<Frame>)
    ensures AllFrames(Texts(StackOf(frames))) == Some(frames)
  {
    hide Render, FrameIn, Decimal.Of;
    if frames != [] {
      var raws := Texts(StackOf(frames));
      FrameRead(frames[0]);
      AllFramesRead(frames[1..]);
      assert raws[1..] == Texts(StackOf(frames[1..]));
      assert frames == [frames[0]] + frames[1..];
    }
  }

  lemma StackRead(frames: seq<Frame>)
    ensures FramesIn(Render(Arr(StackOf(frames)))) == Some(frames)
  {
    hide Render, ArrayIn, AllFrames, Decimal.Of;
    assert forall i :: 0 <= i < |StackOf(frames)| ==> StackOf(frames)[i].Str?;
    AllFramesRead(frames);
    ArrayRead(StackOf(frames));
  }

  // ---- The end of a line ------------------------------------------------------------------------------

  /** A member before the end of a line does not look like the end. */
  predicate Neutral(e: Entry) {
    e.key == "fmt" || e.key == "type" ==> e.raw != "" && e.raw[0] == '{'
  }

  predicate AllNeutral(es: seq<Entry>) {
    forall i :: 0 <= i < |es| ==> Neutral(es[i])
  }

  lemma SeenTail(prefill: string, e: Ender)
    ensures var m := Entry("msg", Render(if e.Template? then Text(e.m) else Str([prefill, e.m])));
      match e
      case Msg(_) => Seen(Tail(prefill, e)) == [m]
      case Template(_) => Seen(Tail(prefill, e)) == [Entry("fmt", Render(Safe("tmpl"))), m]
      case Link(_, trace) => Seen(Tail(prefill, e)) == [Entry("type", Render(Safe("link"))), Entry("link", Render(Safe(trace))), m]
      case ModelMsg(_, v) =>
        Seen(Tail(prefill, e)) ==
          if v.isJson then [Entry("encoded", v.encoded), Entry("type", Render(Safe("model"))), Entry("modelType", Render(Text(v.modelType))), m]
          else [Entry("encoded", Render(Text(v.encoded))), Entry("encoding", Render(Safe(v.encoding))),
                Entry("type", Render(Safe("model"))), Entry("modelType", Render(Text(v.modelType))), m]
  {
    if e.ModelMsg? {
      RawIs(e.model.encoded);
    }
    hide Render;
  }

  lemma EnderRead(prefill: string, e: Ender)
    requires EnderFine(e)
    ensures EnderIn(Seen(Tail(prefill, e))) == Some(ShownEnder(prefill, e))
  {
    hide Render, StringIn, ModelIn, ModelFine, Plain, Seen, Tail, ShownModel;
    SeenTail(prefill, e);
    TextRead(e.m);
    TwoRead(prefill, e.m);
    match e
    case Msg(_) =>
    case Template(_) =>
    case Link(_, trace) => SafeRead(trace);
    case ModelMsg(_, v) => ModelRead(v);
  }

  /** A line that was ended by Msg: nothing before the message looks like another end. */
  lemma PlainFound(es: seq<Entry>, m: Entry)
    requires |es| >= 2 && AllNeutral(es) && m.key == "msg"
    ensures TailSize(es + [m]) == 1
  {
    var all, n := es + [m], |es|;
    assert all[n - 1] == es[n - 1] && all[n - 2] == es[n - 2];
    assert Neutral(all[n - 1]) && Neutral(all[n - 2]);
  }

  lemma OtherFound(es: seq<Entry>, tail: seq<Entry>)
    requires |es| >= 2
    requires || (|tail| == 2 && tail[0] == Entry("fmt", "\"tmpl\""))
             || (|tail| == 3 && tail[0] == Entry("type", "\"link\"") && tail[1].key == "link")
             || (|tail| == 4 && tail[0].key == "encoded" && tail[1] == Entry("type", "\"model\"") && tail[2].key == "modelType")
             || (|tail| == 5 && tail[1].key == "encoding" && tail[2] == Entry("type", "\"model\"") && tail[3].key == "modelType")
    ensures TailSize(es + tail) == |tail|
  {
    var all := es + tail;
    assert forall i :: 0 <= i < |tail| ==> all[|es| + i] == tail[i];
  }

  lemma TailFound(es: seq<Entry>, prefill: string, e: Ender)
    requires |es| >= 2 && AllNeutral(es)
    ensures TailSize(es + Seen(Tail(prefill, e))) == |Tail(prefill, e)|
  {
    hide Render, Seen, Tail, TailSize, StringIn, AllNeutral;
    SeenTail(prefill, e);
    FixedPlain();
    SafeRead("tmpl");
    SafeRead("link");
    SafeRead("model");
    SameSize(Tail(prefill, e));
    var tail := Seen(Tail(prefill, e));
    if e.Msg? {
      PlainFound(es, tail[0]);
    } else {
      OtherFound(es, tail);
    }
  }

  lemma SameSize(ms: seq<Member>)
    ensures |Seen(ms)| == |ms|
  {
  }

  // ---- The whole line ---------------------------------------------------------------------------------

  /** Neutral, and not like a stack either. */
  predicate Bland(e: Entry) {
    Neutral(e) && (e.key == "stack" ==> e.raw != "" && e.raw[0] == '{')
  }

  /** The members that identify a span have keys of their own, like span.id. */
  predicate IdsFit(ids: seq<Member>) {
    forall i :: 0 <= i < |ids| ==> KeySeen(ids[i]) != "fmt" && KeySeen(ids[i]) != "type" && KeySeen(ids[i]) != "stack"
  }

  lemma AttributeBland(a: Attribute)
    ensures Bland(SeenOne(AttributeMember(a)))
  {
    hide RenderMembers, KeySeen;
    match ValueOf(a) case Obj(ms) => assert Render(ValueOf(a)) == "{" + RenderMembers(ms) + "}";
  }

  lemma MiddleBland(attributes: seq<Attribute>, wanted: bool)
    ensures forall i :: 0 <= i < |Seen(Middle(attributes, wanted))| ==> Bland(Seen(Middle(attributes, wanted))[i])
  {
    hide AttributeMember, Bland, SeenOne;
    if wanted && attributes != [] {
      WantedBland(MembersOf(attributes));
    } else {
      forall i | 0 <= i < |attributes|
        ensures Bland(SeenOne(AttributeMember(attributes[i])))
      {
        AttributeBland(attributes[i]);
      }
    }
  }

  lemma WantedBland(ms: seq<Member>)
    ensures Bland(SeenOne(Member("attributes", Obj(ms))))
  {
    hide Render;
  }

  lemma IdsBland(ids: seq<Member>)
    requires IdsFit(ids)
    ensures forall i :: 0 <= i < |Seen(ids)| ==> Bland(Seen(ids)[i])
  {
    hide Render, KeySeen;
  }

  lemma SeenHead(level: string, ts: string, frames: seq<Frame>, ids: seq<Member>)
    ensures Seen(Head(level, ts, frames, ids)) ==
            [Entry("lvl", Render(Safe(level))), Entry("ts", ts)]
            + (if frames == [] then [] else [Entry("stack", Render(Arr(StackOf(frames))))]) + Seen(ids)
  {
    RawIs(ts);
    hide Render, StackOf, SeenOne;
    var base := LevelAndTime(level, ts);
    SeenBase(level, ts);
    if frames == [] {
      SeenAppend(base + [], ids);
      assert base + [] == base && Seen(base) + [] == Seen(base);
    } else {
      SeenStack(frames);
      SeenAppend(base, [StackMember(frames)]);
      SeenAppend(base + [StackMember(frames)], ids);
    }
  }

  lemma SeenBase(level: string, ts: string)
    ensures Seen(LevelAndTime(level, ts)) == [Entry("lvl", Render(Safe(level))), Entry("ts", ts)]
  {
    RawIs(ts);
    hide Render;
  }

  lemma SeenStack(frames: seq<Frame>)
    ensures Seen([StackMember(frames)]) == [Entry("stack", Render(Arr(StackOf(frames))))]
  {
    hide Render, StackOf;
  }

  lemma StackShows(frames: seq<Frame>)
    ensures Render(Arr(StackOf(frames))) != "" && Render(Arr(StackOf(frames)))[0] == '['
  {
  }

  lemma TailKey(prefill: string, e: Ender)
    ensures Seen(Tail(prefill, e)) != [] && Seen(Tail(prefill, e))[0].key != "stack"
  {
    hide Render, Seen, Tail;
    SeenTail(prefill, e);
  }

  /** The third member is a stack exactly if there are frames. */
  lemma StackFound(base: seq<Entry>, frames: seq<Frame>, ids: seq<Entry>, middle: seq<Entry>, tail: seq<Entry>)
    requires |base| == 2 && tail != [] && tail[0].key != "stack"
    requires (forall i :: 0 <= i < |ids| ==> Bland(ids[i])) && forall i :: 0 <= i < |middle| ==> Bland(middle[i])
    ensures HasStack(base + (if frames == [] then [] else [Entry("stack", Render(Arr(StackOf(frames))))]) + ids + middle + tail) <==> frames != []
  {
    hide Render, StackOf;
    StackShows(frames);
    var all := base + (if frames == [] then [] else [Entry("stack", Render(Arr(StackOf(frames))))]) + ids + middle + tail;
    if frames != [] {
      assert all[2] == Entry("stack", Render(Arr(StackOf(frames))));
    } else if ids != [] {
      assert all[2] == ids[0] && Bland(ids[0]);
    } else if middle != [] {
      assert all[2] == middle[0] && Bland(middle[0]);
    } else {
      assert all[2] == tail[0];
    }
  }

  /** The members of a line in its parts. */
  lemma Parts(base: seq<Entry>, stack: seq<Entry>, ids: seq<Entry>, middle: seq<Entry>, tail: seq<Entry>)
    ensures var all, h, n := base + stack + ids + middle + tail, |base| + |stack| + |ids|, |base| + |stack| + |ids| + |middle|;
            && |all| == n + |tail| && all[h..n] == middle && all[n..] == tail
            && (forall i :: 0 <= i < |base| ==> all[i] == base[i]) && (stack != [] ==> all[|base|] == stack[0])
  {
  }

  lemma FrontNeutral(level: string, ts: string, frames: seq<Frame>, ids: seq<Member>, middle: seq<Entry>)
    requires IdsFit(ids) && forall i :: 0 <= i < |middle| ==> Bland(middle[i])
    ensures AllNeutral([Entry("lvl", Render(Safe(level))), Entry("ts", ts)]
                       + (if frames == [] then [] else [Entry("stack", Render(Arr(StackOf(frames))))]) + Seen(ids) + middle)
  {
    hide Render, StackOf, Seen;
    IdsBland(ids);
    var base, stack := [Entry("lvl", Render(Safe(level))), Entry("ts", ts)], if frames == [] then [] else [Entry("stack", Render(Arr(StackOf(frames))))];
    var es := base + stack + Seen(ids) + middle;
    forall i | 0 <= i < |es|
      ensures Neutral(es[i])
    {
      var j, k := i - |base| - |stack|, i - |base| - |stack| - |Seen(ids)|;
      assert k >= 0 ==> es[i] == middle[k];
      assert k < 0 <= j ==> es[i] == Seen(ids)[j];
    }
  }

  lemma MembersRead(level: string, ts: string, frames: seq<Frame>, ids: seq<Member>, attributes: seq<Attribute>, wanted: bool, prefill: string, e: Ender)
    requires Plain(level) && IdsFit(ids) && EnderFine(e)
    requires forall i :: 0 <= i < |attributes| ==> AttributeFine(attributes[i]) && Typed(attributes[i])
    ensures MembersIn(Seen(Head(level, ts, frames, ids) + Middle(attributes, wanted) + Tail(prefill, e)), |ids|, wanted) ==
            Some(Line(level, ts, frames, AllShown(attributes), ShownEnder(prefill, e)))
  {
    hide Plain, EnderFine, AttributeFine, Typed, Render, StackOf, Seen, Head, Middle, Tail, AllShown, ShownEnder, TailSize, HasStack,
         StringIn, FramesIn, AttributesIn, EnderIn, IdsFit, Bland, AllNeutral;
    var base, stack := [Entry("lvl", Render(Safe(level))), Entry("ts", ts)], if frames == [] then [] else [Entry("stack", Render(Arr(StackOf(frames))))];
    var own, middle, tail := Seen(ids), Seen(Middle(attributes, wanted)), Seen(Tail(prefill, e));
    SeenHead(level, ts, frames, ids);
    SeenAppend(Head(level, ts, frames, ids), Middle(attributes, wanted));
    SeenAppend(Head(level, ts, frames, ids) + Middle(attributes, wanted), Tail(prefill, e));
    SameSize(ids);
    SameSize(Tail(prefill, e));
    MiddleBland(attributes, wanted);
    IdsBland(ids);
    FrontNeutral(level, ts, frames, ids, middle);
    TailKey(prefill, e);
    TailFound(base + stack + own + middle, prefill, e);
    StackFound(base, frames, own, middle, tail);
    Parts(base, stack, own, middle, tail);
    SafeRead(level);
    StackRead(frames);
    MiddleRead(attributes, wanted);
    EnderRead(prefill, e);
  }

  /** A line is read back from its text: level, time, stack frames, the attributes in order with kind, value and type,
      and how it was ended. */
  lemma LineRead(level: string, ts: string, frames: seq<Frame>, ids: seq<Member>, attributes: seq<Attribute>, wanted: bool, prefill: string, e: Ender)
    requires Plain(level) && Embeddable(ts) && AllFine(ids) && IdsFit(ids) && EnderFine(e)
    requires forall i :: 0 <= i < |attributes| ==> AttributeFine(attributes[i]) && Typed(attributes[i])
    ensures LineIn(Render(LineObject(Head(level, ts, frames, ids), attributes, wanted, prefill, e)) + "\n", |ids|, wanted) ==
            Some(Line(level, ts, frames, AllShown(attributes), ShownEnder(prefill, e)))
  {
    hide Plain, Embeddable, Head, Middle, Tail, AttributeFine, EnderFine, AllFine, Render, ObjectIn, Seen, MembersIn, IdsFit, Typed, AllShown, ShownEnder;
    var ms := Head(level, ts, frames, ids) + Middle(attributes, wanted) + Tail(prefill, e);
    HeadFine(level, ts, frames, ids);
    MiddleFine(attributes, wanted);
    TailFine(prefill, e);
    FineParts(Head(level, ts, frames, ids), Middle(attributes, wanted), Tail(prefill, e));
    ObjectRead(ms, "\n");
    MembersRead(level, ts, frames, ids, attributes, wanted, prefill, e);
  }

  lemma FineParts(a: seq<Member>, b: seq<Member>, c: seq<Member>)
    requires AllFine(a) && AllFine(b) && AllFine(c)
    ensures AllFine(a + b + c)
  {
    hide Fine;
  }

  /** Whatever is logged can be read from the line that is written. */
  method LogAndRead(prefilled: seq<Attribute>, prefillMsg: string, level: string, ts: string, frames: seq<Frame>, ids: seq<Member>,
                    wanted: bool, attributes: seq<Attribute>, e: Ender) returns (text: string, line: Option<Line>)
    requires Plain(level) && Embeddable(ts) && AllFine(ids) && IdsFit(ids) && EnderFine(e)
    requires forall i :: 0 <= i < |prefilled + attributes| ==> AttributeFine((prefilled + attributes)[i]) && Typed((prefilled + attributes)[i])
    ensures line == Some(Line(level, ts, frames, AllShown(prefilled + attributes), ShownEnder(prefillMsg, e)))
    ensures line == LineIn(text, |ids|, wanted)
  {
    hide Plain, Embeddable, Head, AttributeFine, EnderFine, AllFine, Render, IdsFit, Typed, AllShown, ShownEnder, LineIn, LineObject;
    text := LogLine(prefilled, prefillMsg, level, ts, frames, ids, wanted, attributes, e);
    LineRead(level, ts, frames, ids, prefilled + attributes, wanted, prefillMsg, e);
    line := LineIn(text, |ids|, wanted);
  }
}
