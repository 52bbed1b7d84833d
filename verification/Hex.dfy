/** Hexadecimal text of byte strings (encoding/hex as used by xoptrace). */
module Hex {
  import opened Options

  type Byte = x: int | 0 <= x < 256

  function Digit(d: nat): char
    requires d < 16
  {
    if d < 10 then ('0' as nat + d) as char else ('a' as nat + d - 10) as char
  }

  function Value(c: char): (r: Option<nat>)
    ensures r.Some? ==> r.value < 16
  {
    if '0' <= c <= '9' then Some(c as nat - '0' as nat)
    else if 'a' <= c <= 'f' then Some(c as nat - 'a' as nat + 10)
    else if 'A' <= c <= 'F' then Some(c as nat - 'A' as nat + 10)
    else None
  }

  predicate IsHex(s: string) {
    s == "" || (Value(s[0]).Some? && IsHex(s[1..]))
  }

  function Encode(b: seq<Byte>): (r: string)
    ensures |r| == 2 * |b|
  {
    if b == [] then "" else [Digit(b[0] / 16), Digit(b[0] % 16)] + Encode(b[1..])
  }

  function Decode(s: string): (r: Option<seq<Byte>>)
    ensures r.Some? <==> |s| % 2 == 0 && IsHex(s)
    ensures r.Some? ==> |s| == 2 * |r.value|
  {
    if s == "" then Some([])
    else if |s| == 1 then None
    else
      var a, b, rest := Value(s[0]), Value(s[1]), Decode(s[2..]);
      assert s[1..][1..] == s[2..];
      if a.Some? && b.Some? && rest.Some? then Some([a.value * 16 + b.value] + rest.value) else None
  }

  function LowerChar(c: char): char {
    if 'A' <= c <= 'F' then (c as nat - 'A' as nat + 'a' as nat) as char else c
  }

  function Lower(s: string): (r: string)
    ensures |r| == |s| && forall k :: 0 <= k < |s| ==> r[k] == LowerChar(s[k])
  {
    seq(|s|, k requires 0 <= k < |s| => LowerChar(s[k]))
  }

  lemma DigitValue(d: nat)
    requires d < 16
    ensures Value(Digit(d)) == Some(d) && LowerChar(Digit(d)) == Digit(d)
  {
  }

  lemma ValueDigit(c: char)
    requires Value(c).Some?
    ensures Digit(Value(c).value) == LowerChar(c)
  {
  }

  lemma {:induction false} DecodeEncode(b: seq<Byte>)
    ensures IsHex(Encode(b)) && Lower(Encode(b)) == Encode(b) && Decode(Encode(b)) == Some(b)
  {
    hide Value, Digit, LowerChar;
    var s := Encode(b);
    if b == [] {
      assert Lower(s) == s;
    } else {
      DecodeEncode(b[1..]);
      DigitValue(b[0] / 16);
      DigitValue(b[0] % 16);
      assert s[2..] == Encode(b[1..]) && s[1..][1..] == s[2..];
      assert [b[0]] + b[1..] == b;
      assert Lower(s) == [LowerChar(s[0]), LowerChar(s[1])] + Lower(s[2..]);
    }
  }

  lemma DecodeTwo(s: string)
    requires |s| >= 2 && |s| % 2 == 0 && IsHex(s)
    ensures IsHex(s[2..]) && Decode(s).value == [Value(s[0]).value * 16 + Value(s[1]).value] + Decode(s[2..]).value
  {
    hide Value;
    assert s[1..][1..] == s[2..];
  }

  lemma {:induction false} EncodeDecode(s: string)
    requires IsHex(s) && |s| % 2 == 0
    ensures Encode(Decode(s).value) == Lower(s)
  {
    hide Value, Digit, Decode, LowerChar;
    if s == "" {
      assert Decode(s).value == [];
    } else {
      DecodeTwo(s);
      EncodeDecode(s[2..]);
      ValueDigit(s[0]);
      ValueDigit(s[1]);
      assert Decode(s).value[1..] == Decode(s[2..]).value;
      assert Lower(s) == [LowerChar(s[0]), LowerChar(s[1])] + Lower(s[2..]);
    }
  }
}
