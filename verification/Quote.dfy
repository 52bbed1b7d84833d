/** Quoted strings as strconv.Quote writes and strconv.Unquote reads them.  A string is bytes; a character stands for one. */
module Quote {
  import opened Options
  import opened Runes
  import Hex

  /** Which runes count as printable is a parameter; control characters never do. */
  ghost predicate Sensible(isPrint: nat -> bool) {
    forall n: nat :: isPrint(n) ==> n >= 32
  }

  // ---- Writing -----------------------------------------------------------------------

  function HexN(n: nat, k: nat): (r: string)
    ensures |r| == k
  {
    if k == 0 then "" else HexN(n / 16, k - 1) + [Hex.Digit(n % 16)]
  }

  /** The letter after the backslash of a short escape. */
  function Short(n: nat): Option<char> {
    if n == 34 || n == 92 then Some(n as char)
    else if n == 7 then Some('a')
    else if n == 8 then Some('b')
    else if n == 12 then Some('f')
    else if n == 10 then Some('n')
    else if n == 13 then Some('r')
    else if n == 9 then Some('t')
    else if n == 11 then Some('v')
    else None
  }

  /** A rune whose bytes are `p`. */
  function EscapedRune(n: nat, p: string, isPrint: nat -> bool): string {
    if n == 34 || n == 92 then ['\\', n as char]
    else if isPrint(n) then p
    else if Short(n).Some? then ['\\', Short(n).value]
    else if n < 32 || n == 127 then ['\\', 'x'] + HexN(n, 2)
    else if n < 0x10000 then ['\\', 'u'] + HexN(n, 4)
    else ['\\', 'U'] + HexN(n, 8)
  }

  /** The first rune of a string, or its first byte if that does not start one. */
  function Escaped(s: string, isPrint: nat -> bool): string
    requires s != ""
  {
    if Rune(s).Some? then EscapedRune(Rune(s).value.0, s[..Width(s)], isPrint) else ['\\', 'x'] + HexN(s[0] as nat, 2)
  }

  function Body(s: string, isPrint: nat -> bool): string {
    if s == "" then "" else Escaped(s, isPrint) + Body(s[Width(s)..], isPrint)
  }

  function Quoted(s: string, isPrint: nat -> bool): string {
    "\"" + Body(s, isPrint) + "\""
  }

  // ---- Reading ---------------------------------------------------------------------

  function ReadHex(s: string): (r: Option<nat>) {
    if s == "" then Some(0)
    else
      var some, d := ReadHex(s[..|s| - 1]), Hex.Value(s[|s| - 1]);
      if some.None? || d.None? then None else Some(some.value * 16 + d.value)
  }

  function RuneOf(n: Option<nat>, k: nat): Option<(string, nat)> {
    if n.Some? && IsRune(n.value) then Some((Utf8(n.value), k)) else None
  }

  predicate Octal(c: char) { '0' <= c <= '7' }

  /** One escape after its backslash: the bytes it stands for and its length. */
  function Unescape(t: string): (r: Option<(string, nat)>)
    ensures r.Some? ==> 0 < r.value.1 <= |t|
  {
    if t == "" then None
    else match t[0]
      case '"' => Some((['"'], 1))
      case '\\' => Some((['\\'], 1))
      case 'a' => Some(([7 as char], 1))
      case 'b' => Some(([8 as char], 1))
      case 'f' => Some(([12 as char], 1))
      case 'n' => Some((['\n'], 1))
      case 'r' => Some((['\r'], 1))
      case 't' => Some((['\t'], 1))
      case 'v' => Some(([11 as char], 1))
      case 'x' =>
        if |t| < 3 then None
        else
          var n := ReadHex(t[1..3]);
          if n.Some? && n.value < 256 then Some(([n.value as char], 3)) else None
      case 'u' => if |t| < 5 then None else RuneOf(ReadHex(t[1..5]), 5)
      case 'U' => if |t| < 9 then None else RuneOf(ReadHex(t[1..9]), 9)
      case _ =>
        if !Octal(t[0]) || |t| < 3 || !Octal(t[1]) || !Octal(t[2]) then None
        else
          var n := (t[0] as nat - 48) * 64 + (t[1] as nat - 48) * 8 + (t[2] as nat - 48);
          if n < 256 then Some(([n as char], 3)) else None
  }

  /** The string that a body between quotes stands for. */
  function Unquoted(t: string): Option<string> {
    if t == "" then Some("")
    else if t[0] == '"' || t[0] == '\n' then None
    else if t[0] == '\\' then
      var e := Unescape(t[1..]);
      if e.None? then None else Prepended(e.value.0, Unquoted(t[1 + e.value.1..]))
    else
      Prepended(Utf8(if Rune(t).Some? then Rune(t).value.0 else REPLACEMENT), Unquoted(t[Width(t)..]))
  }

  function Prepended(p: string, r: Option<string>): Option<string> {
    if r.None? then None else Some(p + r.value)
  }

  /** Where the first quote outside escapes is. */
  function CloseAt(t: string): (r: Option<nat>)
    ensures r.Some? ==> r.value < |t| && t[r.value] == '"'
  {
    if t == "" then None
    else if t[0] == '"' then Some(0)
    else
      var n := if t[0] == '\\' then 2 else 1;
      if n > |t| then None
      else
        var r := CloseAt(t[n..]);
        if r.None? then None else Some(n + r.value)
  }

  // ---- Reading what was written --------------------------------------------------------

  function Pow16(k: nat): nat { if k == 0 then 1 else 16 * Pow16(k - 1) }

  lemma {:induction false} ReadHexN(n: nat, k: nat)
    requires n < Pow16(k)
    ensures ReadHex(HexN(n, k)) == Some(n)
  {
    if k > 0 {
      ReadHexN(n / 16, k - 1);
      Hex.DigitValue(n % 16);
      var s := HexN(n, k);
      assert s[..|s| - 1] == HexN(n / 16, k - 1);
    }
  }

  predicate Plain(p: string) {
    forall k :: 0 <= k < |p| ==> p[k] != '"' && p[k] != '\\' && p[k] != '\n'
  }

  lemma {:induction false} HexPlain(n: nat, k: nat)
    ensures Plain(HexN(n, k))
  {
    if k > 0 {
      HexPlain(n / 16, k - 1);
      Hex.DigitValue(n % 16);
    }
  }

  lemma {:induction false} ClosePlain(p: string, v: string)
    requires Plain(p) && CloseAt(v).Some?
    ensures CloseAt(p + v) == Some(|p| + CloseAt(v).value)
  {
    if p == "" {
      assert p + v == v;
    } else {
      assert (p + v)[1..] == p[1..] + v;
      ClosePlain(p[1..], v);
    }
  }

  /** Plain bytes, or a backslash, one more character, and plain ones. */
  predicate Shaped(e: string) {
    (e != "" && Plain(e)) || (|e| >= 2 && e[0] == '\\' && e[1] != '\n' && Plain(e[2..]))
  }

  /** The bytes of a printable rune other than quote and backslash are plain. */
  lemma RunePlain(s: string, isPrint: nat -> bool)
    requires Sensible(isPrint) && s != "" && Rune(s).Some? && isPrint(Rune(s).value.0) && Rune(s).value.0 != 34 && Rune(s).value.0 != 92
    ensures Plain(s[..Width(s)]) && s[..Width(s)] != ""
  {
    var p := s[..Width(s)];
    assert forall i: nat :: i < |p| ==> p[i] == s[i];
    if s[0] >= 0x80 as char {
      assert forall i: nat :: 0 < i < |p| ==> Six(s, i).Some?;
    }
  }

  lemma LongShape(letter: char, n: nat, k: nat)
    requires letter != '\n'
    ensures Shaped(['\\', letter] + HexN(n, k))
  {
    HexPlain(n, k);
    assert (['\\', letter] + HexN(n, k))[2..] == HexN(n, k);
  }

  lemma EscapedShape(s: string, isPrint: nat -> bool)
    requires Sensible(isPrint) && s != ""
    ensures Shaped(Escaped(s, isPrint))
  {
    hide Plain, HexN, Rune;
    if Rune(s).None? {
      LongShape('x', s[0] as nat, 2);
    } else {
      RuneShape(s, isPrint);
    }
  }

  lemma RuneShape(s: string, isPrint: nat -> bool)
    requires Sensible(isPrint) && s != "" && Rune(s).Some?
    ensures Shaped(EscapedRune(Rune(s).value.0, s[..Width(s)], isPrint))
  {
    hide HexN, Rune;
    var n := Rune(s).value.0;
    if n == 34 || n == 92 || (Short(n).Some? && !isPrint(n)) {
    } else if isPrint(n) {
      RunePlain(s, isPrint);
    } else if n < 32 || n == 127 {
      LongShape('x', n, 2);
    } else if n < 0x10000 {
      LongShape('u', n, 4);
    } else {
      LongShape('U', n, 8);
    }
  }

  lemma CloseTwo(e: string, v: string)
    requires |e| >= 2 && e[0] == '\\' && CloseAt(e[2..] + v).Some?
    ensures CloseAt(e + v) == Some(2 + CloseAt(e[2..] + v).value)
  {
    assert (e + v)[2..] == e[2..] + v;
  }

  lemma CloseShaped(e: string, v: string)
    requires Shaped(e) && CloseAt(v).Some?
    ensures CloseAt(e + v) == Some(|e| + CloseAt(v).value)
  {
    hide CloseAt, Plain;
    if Plain(e) {
      ClosePlain(e, v);
    } else {
      ClosePlain(e[2..], v);
      CloseTwo(e, v);
    }
  }

  lemma CloseQuote(rest: string)
    ensures CloseAt("\"" + rest) == Some(0)
  {
  }

  lemma {:induction false} CloseBody(s: string, isPrint: nat -> bool, rest: string)
    requires Sensible(isPrint)
    ensures CloseAt(Body(s, isPrint) + "\"" + rest) == Some(|Body(s, isPrint)|)
    decreases |s|
  {
    hide Escaped, Shaped, Width, CloseAt;
    if s == "" {
      CloseQuote(rest);
      assert Body(s, isPrint) + "\"" + rest == "\"" + rest;
    } else {
      var w := s[Width(s)..];
      var v := Body(w, isPrint) + "\"" + rest;
      CloseBody(w, isPrint, rest);
      EscapedShape(s, isPrint);
      CloseShaped(Escaped(s, isPrint), v);
      assert Body(s, isPrint) + "\"" + rest == Escaped(s, isPrint) + v;
    }
  }

  lemma UnescapeHex(n: nat, v: string)
    requires n < 256
    ensures Unescape(['x'] + HexN(n, 2) + v) == Some(([n as char], 3))
  {
    hide ReadHex, HexN;
    ReadHexN(n, 2);
    var t := ['x'] + HexN(n, 2) + v;
    assert t[1..3] == HexN(n, 2);
  }

  lemma UnescapeRune(n: nat, letter: char, k: nat, v: string)
    requires IsRune(n) && ((letter == 'u' && k == 4 && n < 0x10000) || (letter == 'U' && k == 8))
    ensures Unescape([letter] + HexN(n, k) + v) == Some((Utf8(n), k + 1))
  {
    hide ReadHex, HexN, Utf8;
    ReadHexN(n, k);
    var t := [letter] + HexN(n, k) + v;
    assert t[1..k + 1] == HexN(n, k);
  }

  lemma UnescapeShort(n: nat, v: string)
    requires Short(n).Some?
    ensures n < 0x80 && Unescape([Short(n).value] + v) == Some(([n as char], 1))
  {
  }

  /** An escape is read as the bytes it was written for. */
  lemma UnescapeOne(s: string, isPrint: nat -> bool, v: string)
    requires Bytes(s) && s != "" && (Rune(s).Some? ==> Rune(s).value.0 == 34 || Rune(s).value.0 == 92 || !isPrint(Rune(s).value.0))
    ensures var e := Escaped(s, isPrint); |e| > 1 && e[0] == '\\' && Unescape(e[1..] + v) == Some((s[..Width(s)], |e| - 1))
  {
    hide Unescape, HexN, Rune, Utf8;
    var e := Escaped(s, isPrint);
    if Rune(s).None? {
      UnescapeHex(s[0] as nat, v);
      assert e[1..] == ['x'] + HexN(s[0] as nat, 2);
      assert s[..1] == [s[0]] && (s[0] as nat) as char == s[0];
    } else {
      UnescapeOneRune(s, isPrint, v);
    }
  }

  lemma UnescapeOneRune(s: string, isPrint: nat -> bool, v: string)
    requires s != "" && Rune(s).Some? && (Rune(s).value.0 == 34 || Rune(s).value.0 == 92 || !isPrint(Rune(s).value.0))
    ensures var e := EscapedRune(Rune(s).value.0, s[..Width(s)], isPrint);
            |e| > 1 && e[0] == '\\' && Unescape(e[1..] + v) == Some((s[..Width(s)], |e| - 1))
  {
    hide Unescape, HexN, Rune, Utf8;
    var n := Rune(s).value.0;
    var e := EscapedRune(n, s[..Width(s)], isPrint);
    RuneUtf8(s);
    if n == 34 || n == 92 || Short(n).Some? {
      UnescapeShort(n, v);
      OneByte(n);
      assert e[1..] == [Short(n).value];
    } else if n < 32 || n == 127 {
      UnescapeHex(n, v);
      OneByte(n);
      assert e[1..] == ['x'] + HexN(n, 2);
    } else if n < 0x10000 {
      UnescapeRune(n, 'u', 4, v);
      assert e[1..] == ['u'] + HexN(n, 4);
    } else {
      UnescapeRune(n, 'U', 8, v);
      assert e[1..] == ['U'] + HexN(n, 8);
    }
  }

  lemma UnquoteEscaped(s: string, isPrint: nat -> bool, v: string)
    requires Sensible(isPrint) && Bytes(s) && s != "" && Unquoted(v).Some?
    ensures Unquoted(Escaped(s, isPrint) + v) == Some(s[..Width(s)] + Unquoted(v).value)
  {
    hide Unescape, Short, HexN, Rune, Utf8, Plain;
    var e := Escaped(s, isPrint);
    assert (e + v)[|e|..] == v;
    if Rune(s).Some? && isPrint(Rune(s).value.0) && Rune(s).value.0 != 34 && Rune(s).value.0 != 92 {
      RunePlain(s, isPrint);
      UnquotePlain(s, v);
    } else {
      UnescapeOne(s, isPrint, v);
      assert (e + v)[1..] == e[1..] + v;
    }
  }

  lemma UnquotePlain(s: string, v: string)
    requires s != "" && Rune(s).Some? && Plain(s[..Width(s)]) && Unquoted(v).Some?
    ensures Unquoted(s[..Width(s)] + v) == Some(s[..Width(s)] + Unquoted(v).value)
  {
    hide Rune, Utf8, Unescape;
    var p := s[..Width(s)];
    RuneThen(s, v);
    RuneUtf8(s);
    assert p[0] == (p + v)[0];
    assert (p + v)[|p|..] == v;
  }

  /** Unquoting gives every string of bytes back. */
  lemma {:induction false} UnquoteBody(s: string, isPrint: nat -> bool)
    requires Sensible(isPrint) && Bytes(s)
    ensures Unquoted(Body(s, isPrint)) == Some(s)
    decreases |s|
  {
    hide Escaped, Unescape, Rune, Width;
    if s != "" {
      var w := s[Width(s)..];
      UnquoteBody(w, isPrint);
      UnquoteEscaped(s, isPrint, Body(w, isPrint));
      assert s[..Width(s)] + w == s;
    }
  }

  lemma {:induction false} OneLine(s: string, isPrint: nat -> bool)
    requires Sensible(isPrint)
    ensures '\n' !in Body(s, isPrint)
    decreases |s|
  {
    hide Escaped, Width;
    if s != "" {
      EscapedShape(s, isPrint);
      assert '\n' !in Escaped(s, isPrint) by {
        var e := Escaped(s, isPrint);
        if |e| >= 2 && !Plain(e) {
          assert e == e[..2] + e[2..];
        }
      }
      OneLine(s[Width(s)..], isPrint);
    }
  }
}
