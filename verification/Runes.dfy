/** Runes of a Go string, which is a sequence of bytes; a character stands for one byte (RFC 3629). */
module Runes {
  import opened Options

  predicate Bytes(s: string) {
    forall k :: 0 <= k < |s| ==> s[k] < 256 as char
  }

  predicate IsRune(n: nat) { n < 0xD800 || 0xE000 <= n < 0x110000 }

  const REPLACEMENT := 0xFFFD

  /** The six bits of a continuation byte. */
  function Six(s: string, i: nat): Option<nat> {
    if i < |s| && 0x80 as char <= s[i] < 0xC0 as char then Some(s[i] as nat - 0x80) else None
  }

  /** The first rune and its width; None where the bytes are not valid. */
  function Rune(s: string): (r: Option<(nat, nat)>)
    requires s != ""
    ensures r.Some? ==> IsRune(r.value.0) && 0 < r.value.1 <= |s|
  {
    var a, b, c, d := s[0] as nat, Six(s, 1), Six(s, 2), Six(s, 3);
    if a < 0x80 then Some((a, 1))
    else if 0xC2 <= a < 0xE0 && b.Some? then Some(((a - 0xC0) * 64 + b.value, 2))
    else if 0xE0 <= a < 0xF0 && b.Some? && c.Some? then
      var n := (a - 0xE0) * 4096 + b.value * 64 + c.value;
      if n >= 0x800 && IsRune(n) then Some((n, 3)) else None
    else if 0xF0 <= a < 0xF5 && b.Some? && c.Some? && d.Some? then
      var n := (a - 0xF0) * 262144 + b.value * 4096 + c.value * 64 + d.value;
      if n >= 0x10000 && IsRune(n) then Some((n, 4)) else None
    else None
  }

  function Width(s: string): (w: nat)
    requires s != ""
    ensures 0 < w <= |s|
  {
    if Rune(s).Some? then Rune(s).value.1 else 1
  }

  function Utf8(n: nat): string
    requires IsRune(n)
  {
    if n < 0x80 then [n as char]
    else if n < 0x800 then [(0xC0 + n / 64) as char, (0x80 + n % 64) as char]
    else if n < 0x10000 then [(0xE0 + n / 4096) as char, (0x80 + n / 64 % 64) as char, (0x80 + n % 64) as char]
    else [(0xF0 + n / 262144) as char, (0x80 + n / 4096 % 64) as char, (0x80 + n / 64 % 64) as char, (0x80 + n % 64) as char]
  }

  lemma OneByte(n: nat)
    requires n < 0x80
    ensures Utf8(n) == [n as char]
  {
  }

  lemma TwoBytes(a: nat, b: nat)
    requires 2 <= a < 32 && b < 64
    ensures Utf8(a * 64 + b) == [(0xC0 + a) as char, (0x80 + b) as char]
  {
    var n := a * 64 + b;
    assert n / 64 == a && n % 64 == b;
  }

  lemma ThreeBytes(a: nat, b: nat, c: nat)
    requires a < 16 && b < 64 && c < 64 && a * 4096 + b * 64 + c >= 0x800 && IsRune(a * 4096 + b * 64 + c)
    ensures Utf8(a * 4096 + b * 64 + c) == [(0xE0 + a) as char, (0x80 + b) as char, (0x80 + c) as char]
  {
    var n := a * 4096 + b * 64 + c;
    assert n / 64 == a * 64 + b && n % 64 == c;
    assert n / 4096 == a;
  }

  lemma FourBytes(a: nat, b: nat, c: nat, d: nat)
    requires b < 64 && c < 64 && d < 64
    requires a * 262144 + b * 4096 + c * 64 + d >= 0x10000 && IsRune(a * 262144 + b * 4096 + c * 64 + d)
    ensures a < 5
    ensures Utf8(a * 262144 + b * 4096 + c * 64 + d) == [(0xF0 + a) as char, (0x80 + b) as char, (0x80 + c) as char, (0x80 + d) as char]
  {
    var n := a * 262144 + b * 4096 + c * 64 + d;
    assert n / 64 == a * 4096 + b * 64 + c && n % 64 == d;
    assert n / 4096 == a * 64 + b;
    assert n / 262144 == a;
  }

  /** Valid bytes are the encoding of their rune. */
  lemma RuneUtf8(s: string)
    requires s != "" && Rune(s).Some?
    ensures Utf8(Rune(s).value.0) == s[..Rune(s).value.1]
  {
    hide Utf8;
    var a, w := s[0] as nat, Rune(s).value.1;
    if w == 1 {
      OneByte(a);
      assert s[..1] == [s[0]];
    } else if w == 2 {
      TwoBytes(a - 0xC0, Six(s, 1).value);
      assert s[..2] == [s[0], s[1]];
    } else if w == 3 {
      ThreeBytes(a - 0xE0, Six(s, 1).value, Six(s, 2).value);
      assert s[..3] == [s[0], s[1], s[2]];
    } else {
      FourBytes(a - 0xF0, Six(s, 1).value, Six(s, 2).value, Six(s, 3).value);
      assert s[..4] == [s[0], s[1], s[2], s[3]];
    }
  }

  /** Valid bytes are a rune whatever follows them. */
  lemma RuneThen(s: string, v: string)
    requires s != "" && Rune(s).Some?
    ensures Rune(s[..Rune(s).value.1] + v) == Rune(s)
  {
    var p := s[..Rune(s).value.1];
    assert forall i: nat :: i < |p| ==> (p + v)[i] == s[i];
  }

  /** All bytes belong to runes. */
  predicate Valid(s: string)
    decreases |s|
  {
    s == "" || (Rune(s).Some? && Valid(s[Width(s)..]))
  }

  /** The string with every byte that does not belong to a rune replaced. */
  function Repaired(s: string): string
    decreases |s|
  {
    if s == "" then "" else (if Rune(s).Some? then s[..Width(s)] else Utf8(REPLACEMENT)) + Repaired(s[Width(s)..])
  }

  lemma {:induction false} RepairedValid(s: string)
    requires Valid(s)
    ensures Repaired(s) == s
    decreases |s|
  {
    hide Rune, Utf8;
    if s != "" {
      RepairedValid(s[Width(s)..]);
    }
  }

  /** Repairing makes a string longer unless there is nothing to repair. */
  lemma {:induction false} RepairedLonger(s: string)
    ensures |Repaired(s)| >= |s| && (!Valid(s) ==> |Repaired(s)| > |s|)
    decreases |s|
  {
    hide Rune;
    if s != "" {
      RepairedLonger(s[Width(s)..]);
      assert |Utf8(REPLACEMENT)| == 3;
    }
  }

  /** A string is left alone exactly if it is valid. */
  lemma RepairedExactly(s: string)
    ensures Repaired(s) == s <==> Valid(s)
  {
    RepairedLonger(s);
    if Valid(s) {
      RepairedValid(s);
    }
  }

  /** The runes of a string as a range loop yields them: a byte that belongs to none counts as U+FFFD. */
  function Points(s: string): (ps: seq<nat>)
    ensures forall n :: n in ps ==> IsRune(n)
    decreases |s|
  {
    if s == "" then [] else [if Rune(s).Some? then Rune(s).value.0 else REPLACEMENT] + Points(s[Width(s)..])
  }

  predicate AllRunes(ps: seq<nat>) {
    forall n :: n in ps ==> IsRune(n)
  }

  function Coded(ps: seq<nat>): string
    requires AllRunes(ps)
  {
    if ps == [] then "" else Utf8(ps[0]) + Coded(ps[1..])
  }

  /** The runes written with a byte that belongs to none in place of each U+FFFD. */
  function Broken(ps: seq<nat>): string
    requires AllRunes(ps)
  {
    if ps == [] then "" else (if ps[0] == REPLACEMENT then [0xFF as char] else Utf8(ps[0])) + Broken(ps[1..])
  }

  lemma {:induction false} RepairedCoded(s: string)
    ensures Repaired(s) == Coded(Points(s))
    decreases |s|
  {
    hide Rune, Utf8;
    if s != "" {
      RepairedCoded(s[Width(s)..]);
      assert Points(s)[1..] == Points(s[Width(s)..]);
      if Rune(s).Some? {
        RuneUtf8(s);
      }
    }
  }

  lemma ReadTwo(a: nat, b: nat, v: string)
    requires 2 <= a < 32 && b < 64
    ensures var n: nat := a * 64 + b; Rune([(0xC0 + a) as char, (0x80 + b) as char] + v) == Some((n, 2))
  {
  }

  lemma ReadThree(a: nat, b: nat, c: nat, v: string)
    requires a < 16 && b < 64 && c < 64 && a * 4096 + b * 64 + c >= 0x800 && IsRune(a * 4096 + b * 64 + c)
    ensures var n: nat := a * 4096 + b * 64 + c; Rune([(0xE0 + a) as char, (0x80 + b) as char, (0x80 + c) as char] + v) == Some((n, 3))
  {
  }

  lemma ReadFour(a: nat, b: nat, c: nat, d: nat, v: string)
    requires a < 5 && b < 64 && c < 64 && d < 64
    requires a * 262144 + b * 4096 + c * 64 + d >= 0x10000 && IsRune(a * 262144 + b * 4096 + c * 64 + d)
    ensures var n: nat := a * 262144 + b * 4096 + c * 64 + d;
            Rune([(0xF0 + a) as char, (0x80 + b) as char, (0x80 + c) as char, (0x80 + d) as char] + v) == Some((n, 4))
  {
  }

  lemma Digits64(n: nat)
    ensures n == n / 64 * 64 + n % 64 == n / 4096 * 4096 + n / 64 % 64 * 64 + n % 64
    ensures n == n / 262144 * 262144 + n / 4096 % 64 * 4096 + n / 64 % 64 * 64 + n % 64
  {
    assert n / 64 / 64 == n / 4096 && n / 4096 / 64 == n / 262144;
  }

  /** The encoding of a rune is read as that rune, whatever follows. */
  lemma Utf8Rune(n: nat, v: string)
    requires IsRune(n)
    ensures Rune(Utf8(n) + v) == Some((n, |Utf8(n)|))
  {
    Digits64(n);
    if n < 0x80 {
      assert (Utf8(n) + v)[0] == n as char;
    } else {
      hide Rune;
      if n < 0x800 {
        ReadTwo(n / 64, n % 64, v);
      } else if n < 0x10000 {
        ReadThree(n / 4096, n / 64 % 64, n % 64, v);
      } else {
        ReadFour(n / 262144, n / 4096 % 64, n / 64 % 64, n % 64, v);
      }
    }
  }

  lemma PointsStep(n: nat, p: string, v: string)
    requires p != "" && if Rune(p + v).Some? then Rune(p + v) == Some((n, |p|)) else n == REPLACEMENT && |p| == 1
    ensures Points(p + v) == [n] + Points(v) && (Rune(p + v).Some? && Valid(v) ==> Valid(p + v))
  {
    hide Rune;
    assert (p + v)[|p|..] == v;
  }

  lemma {:induction false} CodedPoints(ps: seq<nat>)
    requires AllRunes(ps)
    ensures Points(Coded(ps)) == ps && Valid(Coded(ps)) && Bytes(Coded(ps))
  {
    hide Rune, Utf8, Points, Bytes, Valid;
    if ps == [] {
      assert Points("") == [] && Valid("") && Bytes("") by { NoPoints(); }
    } else {
      var v := Coded(ps[1..]);
      CodedPoints(ps[1..]);
      CodedStep(ps[0], v);
    }
  }

  lemma NoPoints()
    ensures Points("") == [] && Valid("") && Bytes("")
  {
  }

  lemma CodedStep(n: nat, v: string)
    requires IsRune(n) && Bytes(v) && Valid(v)
    ensures Points(Utf8(n) + v) == [n] + Points(v) && Valid(Utf8(n) + v) && Bytes(Utf8(n) + v) && Utf8(n) != ""
  {
    hide Rune, Points, Valid;
    Utf8Rune(n, v);
    PointsStep(n, Utf8(n), v);
  }

  lemma {:induction false} BrokenPoints(ps: seq<nat>)
    requires AllRunes(ps)
    ensures Points(Broken(ps)) == ps && Bytes(Broken(ps))
    ensures |Broken(ps)| <= |Coded(ps)| && (REPLACEMENT in ps ==> |Broken(ps)| < |Coded(ps)|)
  {
    if ps != [] {
      var v := Broken(ps[1..]);
      BrokenPoints(ps[1..]);
      BrokenStep(ps[0], v);
    }
  }

  lemma BrokenStep(n: nat, v: string)
    requires IsRune(n) && Bytes(v)
    ensures var p := if n == REPLACEMENT then [0xFF as char] else Utf8(n);
            Points(p + v) == [n] + Points(v) && Bytes(p + v) && |p| <= |Utf8(n)| && (n == REPLACEMENT ==> |p| < |Utf8(n)|)
  {
    hide Points, Valid;
    if n == REPLACEMENT {
      assert Rune([0xFF as char] + v).None?;
      PointsStep(n, [0xFF as char], v);
    } else {
      hide Rune;
      Utf8Rune(n, v);
      PointsStep(n, Utf8(n), v);
    }
  }

  /** Two strings are repaired to the same exactly if a range loop yields the same runes. */
  lemma SameRepaired(s: string, t: string)
    ensures Repaired(s) == Repaired(t) <==> Points(s) == Points(t)
  {
    RepairedCoded(s);
    RepairedCoded(t);
    CodedPoints(Points(s));
    CodedPoints(Points(t));
  }

  lemma {:induction false} InvalidPoints(s: string)
    requires !Valid(s)
    ensures REPLACEMENT in Points(s)
    decreases |s|
  {
    hide Rune;
    if Rune(s).Some? {
      InvalidPoints(s[Width(s)..]);
    }
  }

  /** Another string is repaired to the same exactly if a U+FFFD is among the runes, written out or for a bad byte. */
  lemma Shared(s: string)
    ensures (exists t :: Bytes(t) && t != s && Repaired(t) == Repaired(s)) <==> REPLACEMENT in Points(s)
  {
    hide Rune, Utf8, Points, Coded, Broken, Repaired, Bytes;
    var ps := Points(s);
    RepairedCoded(s);
    RepairedExactly(s);
    if REPLACEMENT in ps {
      var t := if Valid(s) then Broken(ps) else Repaired(s);
      CodedPoints(ps);
      BrokenPoints(ps);
      RepairedCoded(t);
      assert Bytes(t) && t != s && Repaired(t) == Repaired(s);
    } else {
      if !Valid(s) {
        InvalidPoints(s);
      }
      forall t | Repaired(t) == Repaired(s)
        ensures t == s
      {
        SameRepaired(s, t);
        RepairedExactly(t);
        if !Valid(t) {
          InvalidPoints(t);
        }
      }
    }
  }

  /** Strings that repairing changes, and confuses. */
  lemma RepairedExamples()
    ensures var f, e := [0xFF as char], [0xFE as char];
            !Valid(f) && Repaired(f) == Utf8(REPLACEMENT) == Repaired(e) && f != e && Repaired(f) != f
  {
    assert Repaired([0xFF as char]) == Utf8(REPLACEMENT) + Repaired("");
    assert Repaired([0xFE as char]) == Utf8(REPLACEMENT) + Repaired("");
    assert |Utf8(REPLACEMENT)| == 3;
  }
}
