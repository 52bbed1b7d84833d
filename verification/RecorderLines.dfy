/** Lines of the recorder and how their data are replayed (xoprecorder/recorder.go, xoprecorder/replay.go). */
module RecorderLines {
  import opened Options

  datatype Value =
    | ModelValue(model: int)
    | BoolValue(b: bool)
    | DurationValue(d: int)
    | TimeValue(t: int)
    | FloatValue(bits: int)
    | IntValue(i: int)
    | UintValue(u: nat)
    | StringValue(s: string)
    | EnumValue(e: int)

  /** Signed and unsigned integers of the various widths are replayed alike. */
  datatype DataType =
    | AnyType | BoolType | DurationType | TimeType
    | Float64Type | Float32Type
    | SignedType(width: nat) | UnsignedType(width: nat)
    | StringType | ErrorType | StringerType
    | EnumType | UnknownType

  datatype EnumAttribute = EnumAttribute(key: string, registration: int)

  datatype Builder = Builder(data: map<string, Value>, types: map<string, DataType>, enums: map<string, EnumAttribute>)

  const EMPTY := Builder(map[], map[], map[])

  /** One call of an adder; the enum adder takes its key from the attribute. */
  datatype Datum =
    | Plain(key: string, value: Value, dataType: DataType)
    | Enum(attribute: EnumAttribute, value: Value)

  function Put(b: Builder, d: Datum): Builder {
    match d
    case Plain(k, v, dt) => b.(data := b.data[k := v], types := b.types[k := dt])
    case Enum(a, v) => Builder(b.data[a.key := v], b.types[a.key := EnumType], b.enums[a.key := a])
  }

  function PutAll(b: Builder, data: seq<Datum>): Builder {
    if data == [] then b else Put(PutAll(b, data[..|data| - 1]), data[|data| - 1])
  }

  predicate Fits(v: Value, dt: DataType) {
    match dt
    case AnyType => v.ModelValue?
    case BoolType => v.BoolValue?
    case DurationType => v.DurationValue?
    case TimeType => v.TimeValue?
    case Float64Type => v.FloatValue?
    case Float32Type => v.FloatValue?
    case SignedType(_) => v.IntValue?
    case UnsignedType(_) => v.UintValue?
    case StringType => v.StringValue?
    case ErrorType => v.StringValue?
    case StringerType => v.StringValue?
    case EnumType => v.EnumValue?
    case UnknownType => false
  }

  /** Adders pass the data type that belongs to the kind of value they take. */
  predicate Typed(d: Datum) {
    match d
    case Plain(_, v, dt) => Fits(v, dt) && dt != EnumType
    case Enum(_, v) => v.EnumValue?
  }

  predicate AllTyped(data: seq<Datum>) {
    forall i :: 0 <= i < |data| ==> Typed(data[i])
  }

  predicate Sound(b: Builder) {
    && b.types.Keys == b.data.Keys
    && forall k :: k in b.data ==>
         Fits(b.data[k], b.types[k]) && (b.types[k] == EnumType ==> k in b.enums && b.enums[k].key == k)
  }

  lemma {:induction false} PutAllSound(b: Builder, data: seq<Datum>)
    requires Sound(b) && AllTyped(data)
    ensures Sound(PutAll(b, data))
  {
    if data != [] {
      PutAllSound(b, data[..|data| - 1]);
    }
  }

  /** A builder without the enum attributes whose key was reused for another type. */
  function Tidy(b: Builder): Builder {
    b.(enums := map k | k in b.enums && k in b.types && b.types[k] == EnumType :: b.enums[k])
  }

  lemma TidyIs(b: Builder)
    ensures Tidy(b) == b <==> forall k :: k in b.enums ==> k in b.types && b.types[k] == EnumType
  {
    if Tidy(b) == b {
      assert Tidy(b).enums.Keys == b.enums.Keys;
    }
  }

  function KeyOf(d: Datum): string {
    match d
    case Plain(k, _, _) => k
    case Enum(a, _) => a.key
  }

  predicate SetByEnum(data: seq<Datum>, k: string) {
    exists i :: 0 <= i < |data| && data[i].Enum? && KeyOf(data[i]) == k
  }

  /** The last call for a key. */
  predicate LastAt(data: seq<Datum>, k: string, j: nat) {
    j < |data| && KeyOf(data[j]) == k && forall m :: j < m < |data| ==> KeyOf(data[m]) != k
  }

  /** The last value that the calls give to a key is not that of an enum. */
  ghost predicate EndsPlain(data: seq<Datum>, k: string) {
    exists j: nat :: LastAt(data, k, j) && data[j].Plain?
  }

  /** Some key is set by an enum adder and later, for good, by another one. */
  ghost predicate Reused(data: seq<Datum>) {
    exists i :: 0 <= i < |data| && data[i].Enum? && EndsPlain(data, KeyOf(data[i]))
  }

  lemma LastAtStep(data: seq<Datum>, d: Datum, k: string, j: nat)
    ensures LastAt(data + [d], k, j) <==> if j == |data| then KeyOf(d) == k else KeyOf(d) != k && LastAt(data, k, j)
  {
    var more := data + [d];
    assert more[|data|] == d && forall m :: 0 <= m < |data| ==> more[m] == data[m];
  }

  lemma EndsPlainStep(data: seq<Datum>, d: Datum, k: string)
    ensures EndsPlain(data + [d], k) <==> if KeyOf(d) == k then d.Plain? else EndsPlain(data, k)
  {
    hide KeyOf, LastAt;
    LastAtStep(data, d, k, |data|);
    forall j: nat
      ensures LastAt(data + [d], k, j) <==> if j == |data| then KeyOf(d) == k else KeyOf(d) != k && LastAt(data, k, j)
      ensures LastAt(data, k, j) ==> j < |data| && (data + [d])[j] == data[j]
    {
      LastAtStep(data, d, k, j);
      LastIn(data, k, j);
    }
    if EndsPlain(data + [d], k) {
      var j: nat :| LastAt(data + [d], k, j) && (data + [d])[j].Plain?;
      LastIn(data + [d], k, j);
    }
  }

  lemma LastIn(data: seq<Datum>, k: string, j: nat)
    ensures LastAt(data, k, j) ==> j < |data|
  {
  }

  lemma SetByEnumStep(data: seq<Datum>, d: Datum, k: string)
    ensures SetByEnum(data + [d], k) <==> (d.Enum? && KeyOf(d) == k) || SetByEnum(data, k)
  {
    hide KeyOf;
    var more := data + [d];
    assert more[|data|] == d;
    if SetByEnum(data, k) {
      var i :| 0 <= i < |data| && data[i].Enum? && KeyOf(data[i]) == k;
      assert more[i] == data[i];
    }
  }

  /** Which enum attributes a line holds, and which of them are in use. */
  lemma {:induction false} EnumsHeld(data: seq<Datum>, k: string)
    requires AllTyped(data)
    ensures var b := PutAll(EMPTY, data);
            && (k in b.enums <==> SetByEnum(data, k)) && (k in b.enums ==> k in b.types)
            && (k in b.types ==> (b.types[k] != EnumType <==> EndsPlain(data, k)))
            && (k !in b.types ==> !EndsPlain(data, k))
  {
    hide SetByEnum, EndsPlain;
    if data == [] {
      assert !SetByEnum([], k) && !EndsPlain([], k) by { NoData(k); }
    } else {
      var past, d := data[..|data| - 1], data[|data| - 1];
      assert past + [d] == data;
      EnumsHeld(past, k);
      EndsPlainStep(past, d, k);
      SetByEnumStep(past, d, k);
      assert Typed(d);
    }
  }

  lemma NoData(k: string)
    ensures !SetByEnum([], k) && !EndsPlain([], k)
  {
  }

  /** What the last call for a key says. */
  predicate SetLast(b: Builder, k: string, d: Datum) {
    && k in b.data && b.data[k] == d.value
    && k in b.types && b.types[k] == (if d.Plain? then d.dataType else EnumType)
    && (d.Enum? ==> k in b.enums && b.enums[k] == d.attribute)
  }

  /** A line has the keys that were used, each with the value and type of the last call for it. */
  lemma {:induction false} LastWins(data: seq<Datum>, k: string)
    ensures k in PutAll(EMPTY, data).data <==> exists j: nat :: LastAt(data, k, j)
    ensures forall j: nat :: LastAt(data, k, j) ==> SetLast(PutAll(EMPTY, data), k, data[j])
  {
    hide KeyOf;
    if data == [] {
    } else {
      var past, d := data[..|data| - 1], data[|data| - 1];
      assert past + [d] == data;
      LastWins(past, k);
      forall j: nat
        ensures LastAt(data, k, j) <==> if j == |past| then KeyOf(d) == k else KeyOf(d) != k && LastAt(past, k, j)
      {
        LastAtStep(past, d, k, j);
      }
      PutOther(PutAll(EMPTY, past), d, k);
      if KeyOf(d) == k {
        assert LastAt(data, k, |past|);
      }
    }
  }

  lemma PutOther(b: Builder, d: Datum, k: string)
    ensures KeyOf(d) == k ==> SetLast(Put(b, d), k, d)
    ensures KeyOf(d) != k ==> (k in Put(b, d).data <==> k in b.data) && forall e :: SetLast(b, k, e) ==> SetLast(Put(b, d), k, e)
  {
  }

  /** Replay gives a line back as it was exactly if no key of an enum attribute was reused for another type. */
  lemma TidyExactly(data: seq<Datum>)
    requires AllTyped(data)
    ensures Tidy(PutAll(EMPTY, data)) == PutAll(EMPTY, data) <==> !Reused(data)
  {
    hide PutAll, EndsPlain, Tidy;
    var b := PutAll(EMPTY, data);
    TidyIs(b);
    forall k
      ensures k in b.enums && (k !in b.types || b.types[k] != EnumType) <==> SetByEnum(data, k) && EndsPlain(data, k)
    {
      EnumsHeld(data, k);
    }
    if Reused(data) {
      var i :| 0 <= i < |data| && data[i].Enum? && EndsPlain(data, KeyOf(data[i]));
      assert SetByEnum(data, KeyOf(data[i]));
    }
  }

  /** A line at which the copy differs: an enum attribute, then a number under the same key. */
  lemma ReusedExample(a: EnumAttribute)
    ensures var data := [Enum(a, EnumValue(1)), Plain(a.key, IntValue(2), SignedType(64))];
            && AllTyped(data) && Reused(data)
            && a.key in PutAll(EMPTY, data).enums && a.key !in Tidy(PutAll(EMPTY, data)).enums
  {
    var data := [Enum(a, EnumValue(1)), Plain(a.key, IntValue(2), SignedType(64))];
    assert LastAt(data, a.key, 1) && data[1].Plain?;
    assert EndsPlain(data, a.key);
    assert data[0].Enum? && KeyOf(data[0]) == a.key;
    EnumsHeld(data, a.key);
    assert SetByEnum(data, a.key);
  }

  function TypeOf(b: Builder, k: string): DataType {
    if k in b.types then b.types[k] else UnknownType
  }

  /** The adder that replay calls for a key; none when the type assertion on the value would fail. */
  function Replayed(b: Builder, k: string): Option<Datum>
    requires k in b.data
  {
    var v, dt := b.data[k], TypeOf(b, k);
    if dt == UnknownType then Some(Plain(k, StringValue("unexpected data type"), ErrorType))
    else if !Fits(v, dt) then None
    else if dt != EnumType then Some(Plain(k, v, dt))
    else if k in b.enums then Some(Enum(b.enums[k], v))
    else None
  }

  /** What replay has built after the given keys. */
  function Rebuilt(source: Builder, done: set<string>): Builder
    requires Sound(source)
  {
    Builder(map k | k in source.data && k in done :: source.data[k],
            map k | k in source.data && k in done :: source.types[k],
            map k | k in source.data && k in done && source.types[k] == EnumType :: source.enums[k])
  }

  lemma RebuildOne(source: Builder, done: set<string>, k: string)
    requires Sound(source) && k in source.data && k !in done
    ensures Replayed(source, k).Some? && Put(Rebuilt(source, done), Replayed(source, k).value) == Rebuilt(source, done + {k})
  {
    var a, b := Put(Rebuilt(source, done), Replayed(source, k).value), Rebuilt(source, done + {k});
    assert a.data == b.data;
    assert a.types == b.types;
    assert a.enums == b.enums;
  }

  lemma RebuiltAll(source: Builder)
    requires Sound(source)
    ensures Rebuilt(source, {}) == EMPTY && Rebuilt(source, source.data.Keys) == Tidy(source)
    ensures forall k :: k in source.data ==> Replayed(source, k).Some?
  {
    var r := Rebuilt(source, source.data.Keys);
    assert r.data == source.data;
    assert r.types == source.types;
    assert r.enums == Tidy(source).enums;
  }

  /** Replaying the data of a line, in any order of its keys. */
  method ReplayLineData(source: Builder) returns (ok: bool, dest: Builder)
    ensures ok <==> forall k :: k in source.data ==> Replayed(source, k).Some?
    ensures Sound(source) ==> ok && dest == Tidy(source)
  {
    hide Sound, Replayed, Put, Rebuilt, Tidy;
    dest := EMPTY;
    var keys := source.data.Keys;
    if Sound(source) {
      RebuiltAll(source);
    }
    ghost var done: set<string> := {};
    while keys != {}
      invariant keys <= source.data.Keys && done == source.data.Keys - keys
      invariant forall k :: k in done ==> k in source.data && Replayed(source, k).Some?
      invariant Sound(source) ==> dest == Rebuilt(source, done)
      decreases keys
    {
      var k :| k in keys;
      var d := Replayed(source, k);
      if d.None? {
        return false, dest;
      }
      if Sound(source) {
        RebuildOne(source, done, k);
      }
      dest := Put(dest, d.value);
      keys := keys - {k};
      done := done + {k};
    }
    assert done == source.data.Keys;
    ok := true;
  }

  // ---- Templates: the regular expression \{.+?\} --------------------------------

  /** The position of the brace that closes the one at 0: after at least one character, on the same line. */
  function Close(s: string, from: nat): (r: Option<nat>)
    requires from <= |s|
    ensures r.Some? ==> from <= r.value < |s| && s[r.value] == '}' && '\n' !in s[from..r.value]
    decreases |s| - from
  {
    if from == |s| || s[from] == '\n' then None
    else if s[from] == '}' then Some(from)
    else Close(s, from + 1)
  }

  function Rendered(tmpl: string, data: map<string, Value>, show: Value -> string): string
    decreases |tmpl|
  {
    if tmpl == "" then ""
    else
      var c := if tmpl[0] == '{' && |tmpl| >= 2 && tmpl[1] != '\n' then Close(tmpl, 2) else None;
      if c.Some? then
        var k := tmpl[1..c.value];
        (if k in data then show(data[k]) else "''") + Rendered(tmpl[c.value + 1..], data, show)
      else [tmpl[0]] + Rendered(tmpl[1..], data, show)
  }

  lemma {:induction false} CloseAt(s: string, from: nat, end: nat)
    requires from <= end < |s| && s[end] == '}' && forall i :: from <= i < end ==> s[i] != '}' && s[i] != '\n'
    ensures Close(s, from) == Some(end)
    decreases end - from
  {
    if from < end {
      CloseAt(s, from + 1, end);
    }
  }

  lemma RenderedName(c: char, name: string, rest: string, data: map<string, Value>, show: Value -> string)
    requires c != '\n' && '}' !in name && '\n' !in name
    ensures Rendered("{" + [c] + name + "}" + rest, data, show)
         == (if [c] + name in data then show(data[[c] + name]) else "''") + Rendered(rest, data, show)
  {
    var s, end := "{" + [c] + name + "}" + rest, 2 + |name|;
    assert s[0] == '{' && s[1] == c && s[end] == '}' && s[end + 1..] == rest && s[1..end] == [c] + name;
    assert forall i :: 2 <= i < end ==> s[i] == name[i - 2];
    CloseAt(s, 2, end);
  }

  lemma {:induction false} RenderedBefore(text: string, more: string, data: map<string, Value>, show: Value -> string)
    requires '{' !in text
    ensures Rendered(text + more, data, show) == text + Rendered(more, data, show)
  {
    if text == "" {
      assert text + more == more;
    } else {
      assert (text + more)[1..] == text[1..] + more && (text + more)[0] == text[0];
      RenderedBefore(text[1..], more, data, show);
    }
  }

  /** Plain text stays, and a name in braces becomes its value, or two quotes if there is none. */
  lemma RenderedField(text: string, c: char, name: string, rest: string, data: map<string, Value>, show: Value -> string)
    requires '{' !in text && c != '\n' && '}' !in name && '\n' !in name
    ensures Rendered(text + ("{" + [c] + name + "}" + rest), data, show)
         == text + ((if [c] + name in data then show(data[[c] + name]) else "''") + Rendered(rest, data, show))
  {
    hide Rendered;
    RenderedBefore(text, "{" + [c] + name + "}" + rest, data, show);
    RenderedName(c, name, rest, data, show);
  }

  /** Text without an opening brace is its own rendering. */
  lemma RenderedPlain(text: string, data: map<string, Value>, show: Value -> string)
    requires '{' !in text
    ensures Rendered(text, data, show) == text
  {
    RenderedBefore(text, "", data, show);
    assert text + "" == text && text + Rendered("", data, show) == text;
  }

  // ---- Lines --------------------------------------------------------------------

  datatype LineRec = LineRec(span: nat, level: int, ts: int, stack: seq<string>, message: string, tmpl: string,
                             asLink: Option<string>, asModel: Option<int>, b: Builder)

  datatype Ender = Msg(m: string) | Template(m: string) | Link(m: string, trace: string) | Model(m: string, model: int)

  function Started(span: nat, level: int, ts: int, stack: seq<string>, message: string, b: Builder): LineRec {
    LineRec(span, level, ts, stack, message, "", None, None, b)
  }

  function Finished(l: LineRec, e: Ender, show: Value -> string): LineRec {
    match e
    case Msg(m) => l.(message := l.message + m)
    case Link(m, t) => l.(message := l.message + m, asLink := Some(t))
    case Model(m, v) => l.(message := l.message + m, asModel := Some(v))
    case Template(m) => l.(tmpl := l.message + m, message := Rendered(l.message + m, l.b.data, show))
  }

  /** How replay ends a line. */
  function EnderOf(l: LineRec): Ender {
    if l.tmpl != "" then Template(l.tmpl)
    else if l.asLink.Some? then Link(l.message, l.asLink.value)
    else if l.asModel.Some? then Model(l.message, l.asModel.value)
    else Msg(l.message)
  }

  /** What is recorded of a line that was started once and ended once. */
  predicate Complete(l: LineRec, show: Value -> string) {
    && Sound(l.b)
    && (l.tmpl != "" ==> l.asLink.None? && l.asModel.None? && l.message == Rendered(l.tmpl, l.b.data, show))
    && !(l.asLink.Some? && l.asModel.Some?)
  }

  lemma FinishedComplete(span: nat, level: int, ts: int, stack: seq<string>, message: string, b: Builder, e: Ender, show: Value -> string)
    requires Sound(b)
    ensures Complete(Finished(Started(span, level, ts, stack, message, b), e, show), show)
  {
  }

  function Tidied(l: LineRec): LineRec {
    l.(b := Tidy(l.b))
  }

  /** Ending a line anew on its own data, without prefill, records the same line. */
  lemma LineRoundTrip(l: LineRec, show: Value -> string)
    requires Complete(l, show)
    ensures Finished(Started(l.span, l.level, l.ts, l.stack, "", Tidy(l.b)), EnderOf(l), show) == Tidied(l)
  {
    assert "" + l.tmpl == l.tmpl && "" + l.message == l.message;
  }

  lemma TidySound(b: Builder)
    requires Sound(b)
    ensures Sound(Tidy(b)) && Tidy(Tidy(b)) == Tidy(b)
  {
  }
}
