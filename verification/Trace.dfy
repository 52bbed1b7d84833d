/** Trace identifiers and the trace-parent header (xoptrace/trace.go, xoptrace/hexbytes.go). */
module Trace {
  import opened Options
  import opened Hex

  /** Bytes together with their hexadecimal text. */
  datatype HexBytes = HexBytes(b: seq<Byte>, h: string)

  datatype Field = Version | TraceID | SpanID | Flags

  function Width(f: Field): nat {
    match f
    case Version => 1
    case TraceID => 16
    case SpanID => 8
    case Flags => 1
  }

  function Offset(f: Field): nat {
    match f
    case Version => 0
    case TraceID => 3
    case SpanID => 36
    case Flags => 53
  }

  function Zeros(n: nat): (r: seq<Byte>)
    ensures |r| == n
  {
    seq(n, i => 0)
  }

  /** Copying bytes into a field: cut off or filled up with zeros. */
  function Fit(n: nat, b: seq<Byte>): (r: seq<Byte>)
    ensures |r| == n
  {
    if |b| >= n then b[..n] else b + Zeros(n - |b|)
  }

  function FromString(n: nat, s: string): (r: seq<Byte>)
    ensures |r| == n
  {
    var d := Decode(s);
    if d.None? then Zeros(n) else Fit(n, d.value)
  }

  function Of(b: seq<Byte>): HexBytes { HexBytes(b, Encode(b)) }

  /** The four byte strings of a trace. */
  datatype Ids = Ids(version: seq<Byte>, traceID: seq<Byte>, spanID: seq<Byte>, flags: seq<Byte>)

  predicate Sized(i: Ids) {
    |i.version| == 1 && |i.traceID| == 16 && |i.spanID| == 8 && |i.flags| == 1
  }

  function Get(i: Ids, f: Field): seq<Byte> {
    match f
    case Version => i.version
    case TraceID => i.traceID
    case SpanID => i.spanID
    case Flags => i.flags
  }

  function With(i: Ids, f: Field, b: seq<Byte>): Ids {
    match f
    case Version => i.(version := b)
    case TraceID => i.(traceID := b)
    case SpanID => i.(spanID := b)
    case Flags => i.(flags := b)
  }

  const NO_IDS := Ids(Zeros(1), Zeros(16), Zeros(8), Zeros(1))

  /** Version, trace ID, span ID and flags in lower-case hexadecimal, separated by dashes
      (section 3.2 of W3C Trace Context). */
  function Header(i: Ids): string {
    Encode(i.version) + "-" + Encode(i.traceID) + "-" + Encode(i.spanID) + "-" + Encode(i.flags)
  }

  /** The regular expression for headers. */
  predicate Matches(s: string) {
    |s| == 55 && IsHex(s[..2]) && s[2] == '-' && IsHex(s[3..35]) && s[35] == '-' && IsHex(s[36..52]) && s[52] == '-' && IsHex(s[53..])
  }

  function Parsed(s: string): Ids
    requires Matches(s)
  {
    Ids(Decode(s[..2]).value, Decode(s[3..35]).value, Decode(s[36..52]).value, Decode(s[53..]).value)
  }

  /** Each field sits at its offset. */
  lemma HeaderFields(i: Ids)
    requires Sized(i)
    ensures |Header(i)| == 55
    ensures forall f: Field :: Header(i)[Offset(f)..Offset(f) + 2 * Width(f)] == Encode(Get(i, f))
    ensures Header(i)[2] == '-' && Header(i)[35] == '-' && Header(i)[52] == '-'
  {
    var s := Header(i);
    assert s[0..2] == Encode(i.version);
    assert s[3..35] == Encode(i.traceID);
    assert s[36..52] == Encode(i.spanID);
    assert s[53..55] == Encode(i.flags);
  }

  /** Reading a written header gives the identifiers back. */
  lemma ParseHeader(i: Ids)
    requires Sized(i)
    ensures Matches(Header(i)) && Parsed(Header(i)) == i
  {
    hide Encode, Decode, IsHex;
    HeaderFields(i);
    var s := Header(i);
    assert s[..2] == s[Offset(Version)..Offset(Version) + 2 * Width(Version)];
    assert s[3..35] == s[Offset(TraceID)..Offset(TraceID) + 2 * Width(TraceID)];
    assert s[36..52] == s[Offset(SpanID)..Offset(SpanID) + 2 * Width(SpanID)];
    assert s[53..] == s[Offset(Flags)..Offset(Flags) + 2 * Width(Flags)];
    DecodeEncode(i.version);
    DecodeEncode(i.traceID);
    DecodeEncode(i.spanID);
    DecodeEncode(i.flags);
  }

  /** Writing a read header gives its lower-case form. */
  lemma HeaderParsed(s: string)
    requires Matches(s)
    ensures Sized(Parsed(s)) && Header(Parsed(s)) == Lower(s)
  {
    hide Encode, Decode, IsHex;
    EncodeDecode(s[..2]);
    EncodeDecode(s[3..35]);
    EncodeDecode(s[36..52]);
    EncodeDecode(s[53..]);
    assert Lower(s) == Lower(s[..2]) + "-" + Lower(s[3..35]) + "-" + Lower(s[36..52]) + "-" + Lower(s[53..]) by {
      assert s == s[..2] + "-" + s[3..35] + "-" + s[36..52] + "-" + s[53..];
    }
  }

  class Trace {
    var version: HexBytes
    var traceID: HexBytes
    var spanID: HexBytes
    var flags: HexBytes
    var headerString: string
    var initialized: bool
    /** The identifiers that the texts stand for. */
    ghost var shown: Ids

    function Now(): Ids
      reads this
    {
      Ids(version.b, traceID.b, spanID.b, flags.b)
    }

    /** The texts say what the bytes say. */
    ghost predicate Consistent()
      reads this
    {
      && version.h == Encode(version.b) && traceID.h == Encode(traceID.b) && spanID.h == Encode(spanID.b) && flags.h == Encode(flags.b)
      && headerString == Header(Now())
    }

    /** The texts are those of some identifiers. */
    ghost predicate Valid()
      reads this
    {
      && Sized(Now()) && Sized(shown)
      && (initialized ==>
            && version.h == Encode(shown.version) && traceID.h == Encode(shown.traceID) && spanID.h == Encode(shown.spanID) && flags.h == Encode(shown.flags)
            && headerString == Header(shown))
    }

    lemma ShownConsistent()
      requires Valid() && initialized
      ensures Consistent() <==> shown == Now()
    {
      hide Encode, Decode, Header;
      if Consistent() {
        DecodeEncode(shown.version);
        DecodeEncode(shown.traceID);
        DecodeEncode(shown.spanID);
        DecodeEncode(shown.flags);
        DecodeEncode(version.b);
        DecodeEncode(traceID.b);
        DecodeEncode(spanID.b);
        DecodeEncode(flags.b);
      }
    }

    /** The zero value. */
    constructor ()
      ensures Valid() && !initialized && Now() == NO_IDS
    {
      version, traceID, spanID, flags := HexBytes(Zeros(1), ""), HexBytes(Zeros(16), ""), HexBytes(Zeros(8), ""), HexBytes(Zeros(1), "");
      headerString, initialized := "", false;
      shown := NO_IDS;
    }

    /** What the texts stand for once the trace is initialized. */
    ghost function Text(): Ids
      reads this
    {
      if initialized then shown else Now()
    }

    method Rebuild()
      modifies this`headerString
      ensures headerString == version.h + "-" + traceID.h + "-" + spanID.h + "-" + flags.h
    {
      headerString := version.h + "-" + traceID.h + "-" + spanID.h + "-" + flags.h;
    }

    method Initialize()
      requires Valid()
      modifies this
      ensures Valid() && initialized && Now() == old(Now()) && shown == old(Text())
    {
      if !initialized {
        initialized := true;
        version := Of(version.b);
        traceID := Of(traceID.b);
        spanID := Of(spanID.b);
        flags := Of(flags.b);
        shown := Now();
        Rebuild();
      }
    }

    /** What every setter of a field does in the end; `y` is what the given text stands for. */
    method Store(f: Field, x: HexBytes, ghost y: seq<Byte>)
      requires Valid() && |x.b| == Width(f) == |y|
      modifies this
      ensures Sized(Now()) && initialized && Now() == With(old(Now()), f, x.b)
      ensures x.h == Encode(y) ==> Valid() && shown == With(old(Text()), f, y)
      ensures Consistent() ==> x.h == Encode(x.b)
    {
      Initialize();
      match f {
        case Version => version := x;
        case TraceID => traceID := x;
        case SpanID => spanID := x;
        case Flags => flags := x;
      }
      shown := With(shown, f, y);
      Rebuild();
    }

    method SetBytes(f: Field, b: seq<Byte>)
      requires Valid()
      modifies this
      ensures Valid() && initialized && Now() == With(old(Now()), f, Fit(Width(f), b)) && shown == With(old(Text()), f, Fit(Width(f), b))
    {
      Store(f, Of(Fit(Width(f), b)), Fit(Width(f), b));
    }

    method SetFieldString(f: Field, s: string)
      requires Valid()
      modifies this
      ensures Valid() && initialized && Now() == With(old(Now()), f, FromString(Width(f), s)) && shown == With(old(Text()), f, FromString(Width(f), s))
    {
      Store(f, Of(FromString(Width(f), s)), FromString(Width(f), s));
    }

    method SetZero(f: Field)
      requires Valid()
      modifies this
      ensures Valid() && initialized && Now() == With(old(Now()), f, Zeros(Width(f))) && shown == With(old(Text()), f, Zeros(Width(f)))
    {
      Store(f, Of(Zeros(Width(f))), Zeros(Width(f)));
    }

    /** Setting a field from bytes with their text keeps the trace consistent exactly when the text is right. */
    method SetField(f: Field, x: HexBytes)
      requires Valid() && |x.b| == Width(f)
      modifies this
      ensures Sized(Now()) && initialized && Now() == With(old(Now()), f, x.b)
      ensures x.h == Encode(x.b) ==> Valid() && shown == With(old(Text()), f, x.b)
      ensures Consistent() ==> x.h == Encode(x.b)
    {
      Store(f, x, x.b);
    }

    /** A random value is drawn until it is not zero; `r` is the one that is kept. */
    method SetRandom(f: Field, r: seq<Byte>)
      requires Valid() && |r| == Width(f) && r != Zeros(Width(f))
      modifies this
      ensures Valid() && initialized && Now() == With(old(Now()), f, r) && shown == With(old(Text()), f, r)
    {
      Store(f, Of(r), r);
    }

    /** Parsing a header.  An invalid one only forces the flags byte, and does so without its text. */
    method SetString(s: string) returns (ok: bool)
      requires Valid()
      modifies this
      ensures Valid() && initialized && (ok <==> Matches(s))
      ensures ok ==> Now() == shown == Parsed(s)
      ensures !ok ==> Now() == old(Now()).(flags := [1])
      ensures !ok ==> shown == if old(initialized) then old(shown) else Now()
    {
      hide Encode, Decode, IsHex;
      if !Matches(s) {
        flags := flags.(b := [1]);
        if !initialized {
          Initialize();
        }
        return false;
      }
      SetFieldString(Version, s[..2]);
      SetFieldString(TraceID, s[3..35]);
      SetFieldString(SpanID, s[36..52]);
      SetFieldString(Flags, s[53..]);
      ok := true;
    }

    /** The zero IDs of an initialized trace are replaced with their texts; an uninitialized one still prints as zeros. */
    method RebuildSetNonZero(r16: seq<Byte>, r8: seq<Byte>)
      requires Valid() && |r16| == 16 && r16 != Zeros(16) && |r8| == 8 && r8 != Zeros(8)
      modifies this
      ensures Valid() && initialized == old(initialized)
      ensures Now() == old(Now()).(traceID := if old(traceID.b) == Zeros(16) then r16 else old(traceID.b),
                                   spanID := if old(spanID.b) == Zeros(8) then r8 else old(spanID.b))
      ensures shown == old(shown).(traceID := if old(traceID.b) == Zeros(16) then r16 else old(shown.traceID),
                                   spanID := if old(spanID.b) == Zeros(8) then r8 else old(shown.spanID))
    {
      if traceID.b == Zeros(16) {
        traceID := Of(r16);
        shown := shown.(traceID := r16);
      }
      if spanID.b == Zeros(8) {
        spanID := Of(r8);
        shown := shown.(spanID := r8);
      }
      Rebuild();
    }

    /** An uninitialized trace prints as zeros, whatever its bytes. */
    function String(): string
      reads this
    {
      if initialized then headerString else "00-00000000000000000000000000000000-0000000000000000-00"
    }

    predicate IsZero()
      reads this
    {
      traceID.b == Zeros(16) && spanID.b == Zeros(8)
    }
  }

  lemma StaleFlags(i: Ids)
    requires Sized(i)
    ensures Encode([1]) == Encode(i.flags) <==> i.flags == [1]
    ensures Header(i.(flags := [1])) == Header(i) ==> i.flags == [1]
  {
    DecodeEncode([1]);
    DecodeEncode(i.flags);
    if Header(i.(flags := [1])) == Header(i) {
      ParseHeader(i);
      ParseHeader(i.(flags := [1]));
    }
  }

  // ---- Runs --------------------------------------------------------------------------

  datatype Op =
    | FromBytes(f: Field, b: seq<Byte>)
    | FromText(f: Field, s: string)
    | Zero(f: Field)
    | Random(f: Field, r: seq<Byte>)
    | Copy(f: Field, x: HexBytes)
    | Parse(s: string)
    | FillZeros(r16: seq<Byte>, r8: seq<Byte>)

  /** What a trace holds, and what its texts stand for. */
  datatype State = State(bytes: Ids, texts: Ids)

  function Put(s: State, f: Field, b: seq<Byte>): State {
    State(With(s.bytes, f, b), With(s.texts, f, b))
  }

  function Apply(s: State, op: Op): State {
    match op
    case FromBytes(f, b) => Put(s, f, Fit(Width(f), b))
    case FromText(f, t) => Put(s, f, FromString(Width(f), t))
    case Zero(f) => Put(s, f, Zeros(Width(f)))
    case Random(f, r) => Put(s, f, r)
    case Copy(f, x) => Put(s, f, x.b)
    case Parse(t) => if Matches(t) then State(Parsed(t), Parsed(t)) else s.(bytes := s.bytes.(flags := [1]))
    case FillZeros(r16, r8) =>
      var a := if s.bytes.traceID == Zeros(16) then Put(s, TraceID, r16) else s;
      if s.bytes.spanID == Zeros(8) then Put(a, SpanID, r8) else a
  }

  /** A new trace has the sampled flag set. */
  const NEW_IDS := NO_IDS.(flags := [1])

  function After(ops: seq<Op>): State {
    if ops == [] then State(NEW_IDS, NEW_IDS) else Apply(After(ops[..|ops| - 1]), ops[|ops| - 1])
  }

  /** Copied bytes come with their own text. */
  predicate Allowed(op: Op) {
    match op
    case FromBytes(_, _) => true
    case FromText(_, _) => true
    case Zero(_) => true
    case Random(f, r) => |r| == Width(f) && r != Zeros(Width(f))
    case Copy(f, x) => |x.b| == Width(f) && x.h == Encode(x.b)
    case Parse(_) => true
    case FillZeros(r16, r8) => |r16| == 16 && r16 != Zeros(16) && |r8| == 8 && r8 != Zeros(8)
  }

  predicate WellUsed(ops: seq<Op>) {
    forall i :: 0 <= i < |ops| ==> Allowed(ops[i])
  }

  /** Whether an operation leaves the text of the flags out of date: it was so before and the flags are not set, or an
      invalid header is parsed over another value. */
  predicate StaleAfter(s: State, op: Op, stale: bool) {
    match op
    case FromBytes(f, _) => f != Flags && stale
    case FromText(f, _) => f != Flags && stale
    case Zero(f) => f != Flags && stale
    case Random(f, _) => f != Flags && stale
    case Copy(f, _) => f != Flags && stale
    case Parse(t) => !Matches(t) && s.texts.flags != [1]
    case FillZeros(_, _) => stale
  }

  predicate Stale(ops: seq<Op>) {
    ops != [] && StaleAfter(After(ops[..|ops| - 1]), ops[|ops| - 1], Stale(ops[..|ops| - 1]))
  }

  /** The texts of all fields but the flags are up to date. */
  predicate OnlyFlags(s: State, stale: bool) {
    && s.texts == s.bytes.(flags := s.texts.flags)
    && (stale <==> s.texts.flags != s.bytes.flags)
  }

  lemma PutFlags(s: State, f: Field, b: seq<Byte>, stale: bool)
    requires OnlyFlags(s, stale)
    ensures OnlyFlags(Put(s, f, b), f != Flags && stale)
  {
  }

  lemma StaleStep(s: State, op: Op, stale: bool)
    requires OnlyFlags(s, stale)
    ensures OnlyFlags(Apply(s, op), StaleAfter(s, op, stale))
  {
    hide Matches, Parsed, Fit, FromString, Put;
    match op
    case FromBytes(f, b) => PutFlags(s, f, Fit(Width(f), b), stale);
    case FromText(f, t) => PutFlags(s, f, FromString(Width(f), t), stale);
    case Zero(f) => PutFlags(s, f, Zeros(Width(f)), stale);
    case Random(f, r) => PutFlags(s, f, r, stale);
    case Copy(f, x) => PutFlags(s, f, x.b, stale);
    case Parse(t) =>
    case FillZeros(r16, r8) =>
      PutFlags(s, TraceID, r16, stale);
      PutFlags(s, SpanID, r8, stale);
      PutFlags(Put(s, TraceID, r16), SpanID, r8, stale);
  }

  lemma {:induction false} StaleExactly(ops: seq<Op>)
    ensures var s := After(ops);
            && s.texts == s.bytes.(flags := s.texts.flags)
            && (Stale(ops) <==> s.texts != s.bytes)
  {
    hide Apply, StaleAfter;
    if ops != [] {
      StaleExactly(ops[..|ops| - 1]);
      StaleStep(After(ops[..|ops| - 1]), ops[|ops| - 1], Stale(ops[..|ops| - 1]));
    }
  }

  method Execute(t: Trace, op: Op)
    requires t.Valid() && t.initialized && Allowed(op)
    modifies t
    ensures t.Valid() && t.initialized && State(t.Now(), t.shown) == Apply(State(old(t.Now()), old(t.shown)), op)
  {
    hide Encode, Decode, IsHex;
    match op
    case FromBytes(f, b) => t.SetBytes(f, b);
    case FromText(f, s) => t.SetFieldString(f, s);
    case Zero(f) => t.SetZero(f);
    case Random(f, r) => t.SetRandom(f, r);
    case Copy(f, x) => t.SetField(f, x);
    case Parse(s) => var _ := t.SetString(s);
    case FillZeros(r16, r8) => t.RebuildSetNonZero(r16, r8);
  }

  lemma AfterStep(ops: seq<Op>, k: nat)
    requires k < |ops|
    ensures After(ops[..k + 1]) == Apply(After(ops[..k]), ops[k])
  {
    assert ops[..k + 1][..k] == ops[..k];
  }

  /** After any sequence of setters and parsed headers, the header is the one of the bytes that were set, and reading it
      back gives these bytes, exactly when the flags are not stale; otherwise it only says other flags. */
  method Run(ops: seq<Op>) returns (text: string, ids: Ids, again: Ids)
    requires WellUsed(ops)
    ensures ids == After(ops).bytes && text == Header(After(ops).texts) && again == After(ops).texts
    ensures text == Header(ids) <==> !Stale(ops)
    ensures again == ids.(flags := again.flags) && (again == ids <==> !Stale(ops))
  {
    hide Encode, Decode, IsHex, After, WellUsed, Apply, Allowed, Header, Matches, Parsed, Stale;
    var t := new Trace();
    t.flags := t.flags.(b := [1]);
    t.Initialize();
    NewIds();
    assert ops[..0] == [];
    var k := 0;
    while k < |ops|
      invariant 0 <= k <= |ops| && fresh(t) && t.Valid() && t.initialized && State(t.Now(), t.shown) == After(ops[..k])
    {
      AfterStep(ops, k);
      assert Allowed(ops[k]) by { AllowedAt(ops, k); }
      Execute(t, ops[k]);
      k := k + 1;
    }
    assert ops[..k] == ops;
    text, ids := t.String(), t.Now();
    StaleExactly(ops);
    ParseHeader(t.shown);
    ParseHeader(ids);
    var u := new Trace();
    var ok := u.SetString(text);
    again := u.Now();
  }

  lemma AllowedAt(ops: seq<Op>, k: nat)
    requires WellUsed(ops) && k < |ops|
    ensures Allowed(ops[k])
  {
  }

  lemma NewIds()
    ensures After([]) == State(NEW_IDS, NEW_IDS) && NEW_IDS == NO_IDS.(flags := [1])
  {
  }

  /** Parsing succeeds exactly on valid headers, and a parsed header prints as its lower-case form. */
  method TraceFromString(s: string) returns (ok: bool, text: string, ids: Ids)
    ensures ok <==> Matches(s)
    ensures ok ==> ids == Parsed(s) && text == Lower(s)
    ensures !ok ==> ids == NEW_IDS && text == Header(NEW_IDS)
  {
    hide Encode, Decode, IsHex, Header, Matches, Parsed;
    var t := new Trace();
    ok := t.SetString(s);
    text, ids := t.String(), t.Now();
    if ok {
      HeaderParsed(s);
    }
  }

  /** An invalid header over other flags leaves a header that does not say what the bytes say. */
  method StaleHeader() returns (text: string, ids: Ids)
    ensures ids == NEW_IDS && text == Header(NO_IDS) && text != Header(ids)
  {
    hide Encode, Decode, IsHex, Header;
    var t := new Trace();
    t.SetZero(Flags);
    var ok := t.SetString("");
    text, ids := t.String(), t.Now();
    StaleFlags(NO_IDS);
    assert Zeros(1)[0] == 0;
  }

}
