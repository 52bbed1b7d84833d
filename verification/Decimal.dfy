/** Decimal numbers as strconv writes and reads them. */
module Decimal {
  import opened Options

  function Digit(d: nat): char
    requires d < 10
  {
    ('0' as nat + d) as char
  }

  predicate IsDigit(c: char) { '0' <= c <= '9' }

  function Digits(n: nat): (r: string)
    ensures r != "" && forall k :: 0 <= k < |r| ==> IsDigit(r[k])
  {
    if n < 10 then [Digit(n)] else Digits(n / 10) + [Digit(n % 10)]
  }

  function Of(n: int): string {
    if n < 0 then "-" + Digits(-n) else Digits(n)
  }

  /** Reads digits as far as they go. */
  function Read(t: string, acc: nat): (r: (nat, string))
    ensures |r.1| <= |t|
  {
    if t == "" || !IsDigit(t[0]) then (acc, t) else Read(t[1..], acc * 10 + (t[0] as nat - '0' as nat))
  }

  function Parse(t: string): (r: Option<(int, string)>)
    ensures r.Some? ==> |r.value.1| < |t|
  {
    if t != "" && IsDigit(t[0]) then Some(Read(t[1..], t[0] as nat - '0' as nat))
    else if |t| > 1 && t[0] == '-' && IsDigit(t[1]) then
      var r := Read(t[2..], t[1] as nat - '0' as nat);
      Some((0 - r.0 as int, r.1))
    else None
  }

  predicate NoDigitFirst(t: string) {
    t == "" || !IsDigit(t[0])
  }

  lemma {:induction false} ReadDigits(n: nat, u: string)
    ensures Read(Digits(n) + u, 0) == Read(u, n)
  {
    if n < 10 {
      assert (Digits(n) + u)[1..] == u;
    } else {
      var last := [Digit(n % 10)];
      assert Digits(n) + u == Digits(n / 10) + (last + u);
      ReadDigits(n / 10, last + u);
      assert (last + u)[1..] == u;
    }
  }

  lemma ReadBack(m: nat, rest: string)
    requires NoDigitFirst(rest)
    ensures var t := Digits(m) + rest; t != "" && '0' <= t[0] <= '9' && Read(t[1..], t[0] as nat - '0' as nat) == (m, rest)
  {
    hide Digits;
    ReadDigits(m, rest);
  }

  /** Whatever follows, as long as it is not a digit, the number is read back. */
  lemma RoundTrip(n: int, rest: string)
    requires NoDigitFirst(rest)
    ensures Parse(Of(n) + rest) == Some((n, rest))
  {
    hide Digits, Read;
    var m := if n < 0 then -n else n;
    var t := Digits(m) + rest;
    ReadBack(m, rest);
    if n < 0 {
      assert Of(n) + rest == "-" + t;
      assert ("-" + t)[1..] == t && ("-" + t)[2..] == t[1..];
    }
  }

  lemma Injective(m: int, n: int)
    requires Of(m) == Of(n)
    ensures m == n
  {
    RoundTrip(m, "");
    RoundTrip(n, "");
    assert Of(m) + "" == Of(m) && Of(n) + "" == Of(n);
  }
}
