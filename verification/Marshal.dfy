/** Attribute keys as encoding/json writes strings (xopat/attributes.go): escapes for what is special in JSON and HTML. */
module Marshal {
  import opened Options
  import opened Runes
  import Escapes
  import Hex

  /** A byte below 0x80. */
  function Ascii(c: char): string
    requires c < 0x80 as char
  {
    if c == '"' || c == '\\' then ['\\', c]
    else if c == '\n' then "\\n"
    else if c == '\r' then "\\r"
    else if c == '\t' then "\\t"
    else if c < ' ' || c == '<' || c == '>' || c == '&' then "\\u00" + [Hex.Digit(c as nat / 16), Hex.Digit(c as nat % 16)]
    else [c]
  }

  /** The first rune of a string, or its first byte if that does not start one. */
  function Piece(s: string): string
    requires s != ""
  {
    if Rune(s).None? then "\\ufffd"
    else
      var n := Rune(s).value.0;
      if s[0] < 0x80 as char then Ascii(s[0])
      else if n == 0x2028 then "\\u2028"
      else if n == 0x2029 then "\\u2029"
      else s[..Width(s)]
  }

  function Body(s: string): string
    decreases |s|
  {
    if s == "" then "" else Piece(s) + Body(s[Width(s)..])
  }

  /** What a piece stands for. */
  function Meant(s: string): string
    requires s != ""
  {
    if Rune(s).Some? then s[..Width(s)] else Utf8(REPLACEMENT)
  }

  lemma DigitValue(n: nat)
    requires n < 16
    ensures Escapes.HexDigit(Hex.Digit(n)) == Some(n)
  {
  }

  lemma LongParsed(h: string, n: nat, t: string)
    requires |h| == 4 && Escapes.Hex4(h) == Some(n) && IsRune(n) && Escapes.Parse(t).Some?
    ensures Escapes.Parse("\\u" + h + t) == Some((Utf8(n) + Escapes.Parse(t).value.0, Escapes.Parse(t).value.1))
  {
    hide Utf8, Escapes.Hex4;
    var u := "\\u" + h + t;
    assert u[1..][1..5] == h && u[1..][0] == 'u';
    assert u[6..] == t;
    assert Escapes.Escape(u[1..]) == Some((Utf8(n), 5));
  }

  lemma ShortParsed(c: char, letter: char, t: string)
    requires Escapes.Escape([letter] + t) == Some(([c], 1)) && Escapes.Parse(t).Some?
    ensures Escapes.Parse(['\\', letter] + t) == Some(([c] + Escapes.Parse(t).value.0, Escapes.Parse(t).value.1))
  {
    hide Escapes.Escape;
    var u := ['\\', letter] + t;
    assert u[1..] == [letter] + t && u[2..] == t;
  }

  lemma {:induction false} RawParsed(p: string, t: string)
    requires (forall k :: 0 <= k < |p| ==> p[k] != '"' && p[k] != '\\') && Escapes.Parse(t).Some?
    ensures Escapes.Parse(p + t) == Some((p + Escapes.Parse(t).value.0, Escapes.Parse(t).value.1))
  {
    if p == "" {
      assert p + t == t;
      assert p + Escapes.Parse(t).value.0 == Escapes.Parse(t).value.0;
    } else {
      RawParsed(p[1..], t);
      assert (p + t)[1..] == p[1..] + t;
      assert [p[0]] + (p[1..] + Escapes.Parse(t).value.0) == p + Escapes.Parse(t).value.0;
    }
  }

  lemma HexOf(c: char)
    requires c < 0x80 as char
    ensures Escapes.Hex4("00" + [Hex.Digit(c as nat / 16), Hex.Digit(c as nat % 16)]) == Some(c as nat)
  {
    DigitValue(c as nat / 16);
    DigitValue(c as nat % 16);
    DigitValue(0);
    assert Hex.Digit(0) == '0';
  }

  lemma AsciiParsed(c: char, t: string)
    requires c < 0x80 as char && Escapes.Parse(t).Some?
    ensures Escapes.Parse(Ascii(c) + t) == Some(([c] + Escapes.Parse(t).value.0, Escapes.Parse(t).value.1))
  {
    hide Escapes.Parse, Escapes.Hex4, Hex.Digit;
    if c == '"' || c == '\\' {
      ShortParsed(c, c, t);
    } else if c == '\n' {
      ShortParsed(c, 'n', t);
    } else if c == '\r' {
      ShortParsed(c, 'r', t);
    } else if c == '\t' {
      ShortParsed(c, 't', t);
    } else if c < ' ' || c == '<' || c == '>' || c == '&' {
      var h := "00" + [Hex.Digit(c as nat / 16), Hex.Digit(c as nat % 16)];
      HexOf(c);
      LongParsed(h, c as nat, t);
      OneByte(c as nat);
      assert Ascii(c) + t == "\\u" + h + t;
    } else {
      RawParsed([c], t);
    }
  }

  lemma HighRaw(s: string)
    requires s != "" && Rune(s).Some? && s[0] >= 0x80 as char
    ensures forall k :: 0 <= k < |s[..Width(s)]| ==> s[..Width(s)][k] != '"' && s[..Width(s)][k] != '\\'
  {
    var p := s[..Width(s)];
    assert forall i: nat :: i < |p| ==> p[i] == s[i];
    assert forall i: nat :: 0 < i < |p| ==> Six(s, i).Some?;
  }

  lemma PieceParsed(s: string, t: string)
    requires s != "" && Escapes.Parse(t).Some?
    ensures Escapes.Parse(Piece(s) + t) == Some((Meant(s) + Escapes.Parse(t).value.0, Escapes.Parse(t).value.1))
  {
    hide Escapes.Parse, Escapes.Hex4, Rune, Utf8, Ascii;
    if Rune(s).None? {
      FixedHex();
      LongParsed("fffd", REPLACEMENT, t);
      assert Piece(s) + t == "\\u" + "fffd" + t;
    } else if s[0] < 0x80 as char {
      AsciiParsed(s[0], t);
      LowRune(s);
      assert s[..1] == [s[0]];
    } else {
      var n := Rune(s).value.0;
      RuneUtf8(s);
      FixedHex();
      if n == 0x2028 {
        LongParsed("2028", n, t);
        assert Piece(s) + t == "\\u" + "2028" + t;
      } else if n == 0x2029 {
        LongParsed("2029", n, t);
        assert Piece(s) + t == "\\u" + "2029" + t;
      } else {
        HighRaw(s);
        RawParsed(s[..Width(s)], t);
      }
    }
  }

  lemma LowRune(s: string)
    requires s != "" && s[0] < 0x80 as char
    ensures Width(s) == 1
  {
  }

  lemma FixedHex()
    ensures Escapes.Hex4("fffd") == Some(REPLACEMENT) && Escapes.Hex4("2028") == Some(0x2028) && Escapes.Hex4("2029") == Some(0x2029)
  {
    assert Escapes.HexDigit('f') == Some(15) && Escapes.HexDigit('d') == Some(13);
    assert Escapes.HexDigit('0') == Some(0) && Escapes.HexDigit('2') == Some(2);
    assert Escapes.HexDigit('8') == Some(8) && Escapes.HexDigit('9') == Some(9);
  }

  /** Decoding gives a key back up to bytes that are not UTF-8, whatever follows in the same string. */
  lemma {:induction false} BodyThen(s: string, t: string)
    requires Escapes.Parse(t).Some?
    ensures Escapes.Parse(Body(s) + t) == Some((Repaired(s) + Escapes.Parse(t).value.0, Escapes.Parse(t).value.1))
    decreases |s|
  {
    hide Escapes.Parse, Rune, Utf8, Width, Piece;
    if s == "" {
      assert Body(s) + t == t;
      assert Repaired(s) + Escapes.Parse(t).value.0 == Escapes.Parse(t).value.0;
    } else {
      var w := s[Width(s)..];
      BodyThen(w, t);
      PieceParsed(s, Body(w) + t);
      assert Body(s) + t == Piece(s) + (Body(w) + t);
      assert Meant(s) + (Repaired(w) + Escapes.Parse(t).value.0) == Repaired(s) + Escapes.Parse(t).value.0;
    }
  }

  lemma RoundTrip(s: string, rest: string)
    ensures Escapes.Parse(Body(s) + "\"" + rest) == Some((Repaired(s), rest))
    ensures Repaired(s) == s <==> Valid(s)
  {
    BodyThen(s, "\"" + rest);
    assert Body(s) + ("\"" + rest) == Body(s) + "\"" + rest;
    assert Repaired(s) + "" == Repaired(s);
    RepairedExactly(s);
  }
}
