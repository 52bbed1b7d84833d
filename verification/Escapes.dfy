/** String bodies in JSON output (xoputil/fromphu.go).  A Go string is a sequence of bytes; a byte is
    a character below 256. */
module Escapes {
  import opened Options
  import Runes

  const BACKSPACE := 8 as char
  const FORMFEED := 12 as char
  const NUL := 0 as char

  /** The table that decides whether a string is escaped at all; NUL is not in it. */
  predicate Listed(c: char) {
    c == '"' || c == '<' || c == '\'' || c == '\\' || c == BACKSPACE || c == FORMFEED || c == '\n' || c == '\r' || c == '\t'
  }

  /** The escape of a byte in the copying loop; empty for a byte that is copied. */
  function Switch(c: char): string {
    if c == '"' then ['\\', '"']
    else if c == '\\' then ['\\', '\\']
    else if c == '\n' then ['\\', 'n']
    else if c == '\r' then ['\\', 'r']
    else if c == '\t' then ['\\', 't']
    else if c == FORMFEED then "\\u000c"
    else if c == BACKSPACE then "\\u0008"
    else if c == '<' then "\\u003c"
    else if c == '\'' then "\\u0027"
    else if c == NUL then "\\u0000"
    else ""
  }

  /** How one byte is written once a string is escaped. */
  function Escaped(c: char): (r: string)
    ensures r != ""
  {
    if Switch(c) == "" then [c] else Switch(c)
  }

  function Mapped(s: string): string {
    if s == "" then "" else Escaped(s[0]) + Mapped(s[1..])
  }

  /** The body written for a string: the bytes one by one if any of them is listed, else the bytes as they are. */
  function Body(s: string): string {
    if exists k :: 0 <= k < |s| && Listed(s[k]) then Mapped(s) else s
  }

  lemma {:induction false} MappedAppend(s: string, t: string)
    ensures Mapped(s + t) == Mapped(s) + Mapped(t)
  {
    if s == "" {
      assert s + t == t;
    } else {
      assert (s + t)[1..] == s[1..] + t;
      MappedAppend(s[1..], t);
    }
  }

  lemma {:induction false} MappedPlain(s: string)
    requires forall k :: 0 <= k < |s| ==> Escaped(s[k]) == [s[k]]
    ensures Mapped(s) == s
  {
    if s != "" {
      MappedPlain(s[1..]);
    }
  }

  /** One turn of the copying loop: the pending chunk, then the escape. */
  lemma MappedChunk(s: string, j: nat, i: nat)
    requires j <= i < |s| && forall k :: j <= k < i ==> Escaped(s[k]) == [s[k]]
    ensures Mapped(s[..i + 1]) == Mapped(s[..j]) + s[j..i] + Escaped(s[i])
  {
    assert s[..i + 1] == s[..j] + s[j..i] + [s[i]];
    MappedAppend(s[..j] + s[j..i], [s[i]]);
    MappedAppend(s[..j], s[j..i]);
    MappedPlain(s[j..i]);
    assert Mapped([s[i]]) == Escaped(s[i]) + Mapped("");
  }

  /** A comma, unless nothing was written yet or a value or the first member must come next. */
  function Separated(b: string): string {
    if b == "" || b[|b| - 1] in "[{:" then b else b + ","
  }

  class JBuilder {
    var B: string
    const FastKeys: bool

    constructor (fastKeys: bool)
      ensures B == "" && FastKeys == fastKeys
    {
      B, FastKeys := "", fastKeys;
    }

    method Comma()
      modifies this
      ensures B == Separated(old(B))
    {
      if |B| == 0 {
        return;
      }
      match B[|B| - 1] {
        case '[' => return;
        case '{' => return;
        case ':' => return;
        case _ =>
      }
      B := B + ",";
    }

    /** The loop that copies a chunk whenever it meets a byte to escape. */
    method EscapeInto(s: string)
      modifies this
      ensures B == old(B) + Mapped(s)
    {
      hide Switch, Mapped;
      ghost var was := B;
      var j := 0;
      var i := 0;
      MappedPlain(s[..0]);
      while i < |s|
        invariant 0 <= j <= i <= |s|
        invariant B == was + Mapped(s[..j])
        invariant forall k :: j <= k < i ==> Escaped(s[k]) == [s[k]]
      {
        var e := Switch(s[i]);
        if e != "" {
          MappedChunk(s, j, i);
          B := B + s[j..i];
          B := B + e;
          assert B == was + (Mapped(s[..j]) + s[j..i] + Escaped(s[i]));
          j := i + 1;
        }
        i := i + 1;
      }
      assert s == s[..j] + s[j..];
      MappedAppend(s[..j], s[j..]);
      MappedPlain(s[j..]);
      B := B + s[j..];
      assert B == was + (Mapped(s[..j]) + s[j..]);
    }

    method AddStringBody(s: string)
      modifies this
      ensures B == old(B) + Body(s)
    {
      var k := 0;
      while k < |s|
        invariant 0 <= k <= |s| && B == old(B)
        invariant forall i :: 0 <= i < k ==> !Listed(s[i])
      {
        if Listed(s[k]) {
          EscapeInto(s);
          return;
        }
        k := k + 1;
      }
      B := B + s;
    }

    method AddString(v: string)
      modifies this
      ensures B == old(B) + "\"" + Body(v) + "\""
    {
      B := B + "\"";
      AddStringBody(v);
      B := B + "\"";
    }
  }

  // ---- Reading strings back (section 7 of RFC 8259) --------------------------------

  function HexDigit(c: char): Option<nat> {
    if '0' <= c <= '9' then Some(c as nat - '0' as nat)
    else if 'a' <= c <= 'f' then Some(c as nat - 'a' as nat + 10)
    else if 'A' <= c <= 'F' then Some(c as nat - 'A' as nat + 10)
    else None
  }

  function Hex4(s: string): Option<nat>
    requires |s| == 4
  {
    var a, b, c, d := HexDigit(s[0]), HexDigit(s[1]), HexDigit(s[2]), HexDigit(s[3]);
    if a.Some? && b.Some? && c.Some? && d.Some? then Some(a.value * 4096 + b.value * 256 + c.value * 16 + d.value) else None
  }

  /** One escape after its backslash: the bytes it stands for and its length. */
  function Escape(t: string): (r: Option<(string, nat)>)
    ensures r.Some? ==> 0 < r.value.1 <= |t|
  {
    if t == "" then None
    else match t[0]
      case '"' => Some(("\"", 1))
      case '\\' => Some(("\\", 1))
      case '/' => Some(("/", 1))
      case 'b' => Some(([BACKSPACE], 1))
      case 'f' => Some(([FORMFEED], 1))
      case 'n' => Some(("\n", 1))
      case 'r' => Some(("\r", 1))
      case 't' => Some(("\t", 1))
      case 'u' =>
        if |t| < 5 then None
        else
          var h := Hex4(t[1..5]);
          if h.Some? && Runes.IsRune(h.value) then Some((Runes.Utf8(h.value), 5)) else None
      case _ => None
  }

  /** Decoding up to the closing quote: the string and what follows.  Raw control bytes are let through. */
  function Parse(t: string): Option<(string, string)> {
    if t == "" then None
    else if t[0] == '"' then Some(("", t[1..]))
    else if t[0] == '\\' then
      var e := Escape(t[1..]);
      if e.None? then None
      else
        var r := Parse(t[1 + e.value.1..]);
        if r.None? then None else Some((e.value.0 + r.value.0, r.value.1))
    else
      var r := Parse(t[1..]);
      if r.None? then None else Some(([t[0]] + r.value.0, r.value.1))
  }

  lemma {:induction false} ParseShorter(t: string)
    ensures Parse(t).Some? ==> |Parse(t).value.1| < |t|
  {
    if t != "" && t[0] == '\\' {
      var e := Escape(t[1..]);
      if e.Some? {
        ParseShorter(t[1 + e.value.1..]);
      }
    } else if t != "" && t[0] != '"' {
      ParseShorter(t[1..]);
    }
  }

  lemma EscapeShort(c: char, t: string)
    requires |Switch(c)| == 2
    ensures Escape(Switch(c)[1..] + t) == Some(([c], 1))
  {
    assert (Switch(c)[1..] + t)[0] == Switch(c)[1];
  }

  lemma EscapeLong(c: char, t: string)
    requires |Switch(c)| == 6
    ensures Escape(Switch(c)[1..] + t) == Some(([c], 5))
  {
    hide Hex4;
    var u := Switch(c)[1..] + t;
    assert u[0] == Switch(c)[1];
    assert u[1..5] == Switch(c)[2..6];
    Digits(c);
  }

  lemma SwitchShape(c: char)
    ensures var e := Switch(c); e == "" || (|e| == 2 && e[0] == '\\') || (|e| == 6 && e[0] == '\\')
    ensures Switch(c) == "" ==> c != '"' && c != '\\'
  {
  }

  lemma ParseEscaped(c: char, t: string)
    requires Parse(t).Some?
    ensures Parse(Escaped(c) + t) == Some(([c] + Parse(t).value.0, Parse(t).value.1))
  {
    hide Switch, Escape;
    var e := Escaped(c);
    SwitchShape(c);
    if |e| == 1 {
      assert (e + t)[1..] == t;
    } else {
      if |e| == 2 {
        EscapeShort(c, t);
      } else {
        EscapeLong(c, t);
      }
      assert (e + t)[0] == '\\';
      assert (e + t)[1..] == e[1..] + t;
      assert (e + t)[|e|..] == t;
    }
  }

  lemma Digits(c: char)
    requires |Switch(c)| == 6
    ensures Hex4(Switch(c)[2..6]) == Some(c as nat) && c as nat < 0x80
  {
    var e := Switch(c)[2..6];
    assert HexDigit('0') == Some(0) && HexDigit('2') == Some(2) && HexDigit('3') == Some(3);
    assert HexDigit('7') == Some(7) && HexDigit('8') == Some(8) && HexDigit('c') == Some(12);
  }

  /** Whatever the string and whatever follows, decoding gives the string back and stops at its quote. */
  lemma RoundTrip(s: string, rest: string)
    ensures Parse(Body(s) + "\"" + rest) == Some((s, rest))
  {
    BodyThen(s, "\"" + rest);
    assert Body(s) + ("\"" + rest) == Body(s) + "\"" + rest;
    assert s + "" == s;
  }

  /** A body may be followed by more of the same string. */
  lemma BodyThen(s: string, t: string)
    requires Parse(t).Some?
    ensures Parse(Body(s) + t) == Some((s + Parse(t).value.0, Parse(t).value.1))
  {
    if exists k :: 0 <= k < |s| && Listed(s[k]) {
      MappedThen(s, t);
    } else {
      RawThen(s, t);
    }
  }

  lemma {:induction false} MappedThen(s: string, t: string)
    requires Parse(t).Some?
    ensures Parse(Mapped(s) + t) == Some((s + Parse(t).value.0, Parse(t).value.1))
  {
    hide Parse, Escaped;
    if s == "" {
      assert Mapped(s) + t == t;
      assert s + Parse(t).value.0 == Parse(t).value.0;
    } else {
      MappedThen(s[1..], t);
      ParseEscaped(s[0], Mapped(s[1..]) + t);
      assert Mapped(s) + t == Escaped(s[0]) + (Mapped(s[1..]) + t);
      assert [s[0]] + (s[1..] + Parse(t).value.0) == s + Parse(t).value.0;
    }
  }

  lemma {:induction false} RawThen(s: string, t: string)
    requires Parse(t).Some? && forall k :: 0 <= k < |s| ==> !Listed(s[k])
    ensures Parse(s + t) == Some((s + Parse(t).value.0, Parse(t).value.1))
  {
    if s == "" {
      assert s + t == t;
      assert s + Parse(t).value.0 == Parse(t).value.0;
    } else {
      RawThen(s[1..], t);
      assert s + t == [s[0]] + (s[1..] + t);
      assert (s + t)[1..] == s[1..] + t;
      assert [s[0]] + (s[1..] + Parse(t).value.0) == s + Parse(t).value.0;
    }
  }

  /** Two bodies followed by a quote only agree on equal strings. */
  lemma Injective(s: string, t: string, a: string, b: string)
    requires Body(s) + "\"" + a == Body(t) + "\"" + b
    ensures s == t && a == b
  {
    RoundTrip(s, a);
    RoundTrip(t, b);
  }

  predicate Control(c: char) { c < ' ' }

  predicate Strict(t: string) {
    forall k :: 0 <= k < |t| ==> !Control(t[k])
  }

  /** Only these control bytes are ever escaped, and NUL only beside a listed byte. */
  predicate Covered(s: string) {
    forall k :: 0 <= k < |s| && Control(s[k]) ==> Listed(s[k]) || (s[k] == NUL && exists i :: 0 <= i < |s| && Listed(s[i]))
  }

  lemma StrictAppend(s: string, t: string)
    ensures Strict(s + t) <==> Strict(s) && Strict(t)
  {
    if Strict(s + t) {
      assert forall k :: 0 <= k < |s| ==> (s + t)[k] == s[k];
      assert forall k :: 0 <= k < |t| ==> (s + t)[|s| + k] == t[k];
    }
  }

  lemma StrictEscaped(c: char)
    ensures Strict(Escaped(c)) <==> Control(c) ==> Listed(c) || c == NUL
  {
    if |Escaped(c)| == 1 {
      assert Escaped(c)[0] == c;
    }
  }

  lemma {:induction false} StrictMapped(s: string)
    ensures Strict(Mapped(s)) <==> forall k :: 0 <= k < |s| && Control(s[k]) ==> Listed(s[k]) || s[k] == NUL
  {
    if s != "" {
      StrictMapped(s[1..]);
      StrictAppend(Escaped(s[0]), Mapped(s[1..]));
      StrictEscaped(s[0]);
      assert forall k :: 0 <= k < |s| - 1 ==> s[1..][k] == s[k + 1];
      assert forall k :: 0 < k < |s| ==> s[k] == s[1..][k - 1];
    }
  }

  /** The body is a valid string body of section 7 of RFC 8259, without raw control bytes, exactly for
      covered strings. */
  lemma StrictExactly(s: string)
    ensures Strict(Body(s)) <==> Covered(s)
  {
    if exists k :: 0 <= k < |s| && Listed(s[k]) {
      StrictMapped(s);
    }
  }

  /** A bell byte goes out raw, and so does a lone NUL. */
  lemma RawExamples()
    ensures !Strict(Body([7 as char])) && !Strict(Body([NUL])) && Strict(Body([NUL, '\n']))
  {
    assert [7 as char][0] == 7 as char && [NUL][0] == NUL && [NUL, '\n'][1] == '\n';
    StrictExactly([7 as char]);
    StrictExactly([NUL]);
    StrictExactly([NUL, '\n']);
  }
}
