/** Strings of the console format and the record that starts a request
    (xoputil/jbuilder.go, xopconsole/console.go, xopconsole/replay.go). */
module Console {
  import opened Options
  import opened Runes
  import opened Quote
  import Hex
  import Trace

  // ---- Strings -----------------------------------------------------------------------

  /** Characters that an unquoted string may begin and end with. */
  predicate Edge(c: char) {
    || '0' <= c <= '9' || 'a' <= c <= 'z' || 'A' <= c <= 'Z'
    || c == '-' || c == '`' || c == '_' || c == '~' || c == '!' || c == '@' || c == '#' || c == '$' || c == '%' || c == '^'
    || c == '&' || c == '*' || c == '[' || c == ']' || c == '{' || c == '}' || c == ';' || c == '\'' || c == '<' || c == '>'
    || c == '.' || c == '?' || c == '/'
  }

  /** Colons are allowed inside. */
  predicate Inner(c: char) { Edge(c) || c == ':' }

  predicate AllInner(s: string) {
    forall k :: 0 <= k < |s| ==> Inner(s[k])
  }

  predicate Safe(s: string) {
    s != "" && Edge(s[0]) && AllInner(s) && Edge(s[|s| - 1])
  }

  function Written(s: string, isPrint: nat -> bool): string {
    if Safe(s) && s != "t" && s != "f" then s else Quoted(s, isPrint)
  }

  /** The longest match of the unquoted pattern: up to the last edge character of the first run. */
  function LastEdge(t: string, i: nat, best: nat): (r: nat)
    requires best <= i <= |t|
    ensures best <= r <= |t|
    decreases |t| - i
  {
    if i == |t| || !Inner(t[i]) then best
    else LastEdge(t, i + 1, if Edge(t[i]) then i + 1 else best)
  }

  function Match(t: string): (r: nat)
    ensures r <= |t|
  {
    if t == "" || !Edge(t[0]) then 0 else LastEdge(t, 1, 1)
  }

  /** A possibly quoted string and what follows it; the empty string and the whole text when there is none. */
  function OneString(t: string): (string, string) {
    if t == "" then ("", "")
    else if t[0] == '"' then
      var c := CloseAt(t[1..]);
      if c.None? then ("", t)
      else
        var u := Unquoted(t[1..1 + c.value]);
        if u.None? then ("", t) else (u.value, t[2 + c.value..])
    else (t[..Match(t)], t[Match(t)..])
  }

  /** Where the first quote outside escapes is, seen from position `i`. */
  function CloseFrom(t: string, i: nat): Option<nat>
    requires i <= |t|
  {
    if CloseAt(t[i..]).Some? then Some(i + CloseAt(t[i..]).value) else None
  }

  lemma ScanStep(t: string, i: nat)
    requires i < |t|
    ensures t[i] == '"' ==> CloseFrom(t, i) == Some(i)
    ensures t[i] != '"' ==>
              var n := if t[i] == '\\' then 2 else 1;
              CloseFrom(t, i) == if i + n <= |t| then CloseFrom(t, i + n) else None
  {
    assert t[i..][1..] == t[i + 1..];
    if i + 1 < |t| {
      assert t[i..][2..] == t[i + 2..];
    }
  }

  /** The scan for the closing quote, one index at a time. */
  method Scan(t: string) returns (c: Option<nat>)
    requires t != "" && t[0] == '"'
    ensures c == if CloseAt(t[1..]).Some? then Some(1 + CloseAt(t[1..]).value) else None
  {
    hide CloseAt, CloseFrom;
    ghost var target := CloseFrom(t, 1);
    assert target == if CloseAt(t[1..]).Some? then Some(1 + CloseAt(t[1..]).value) else None by { ScanFrom(t); }
    var i := 1;
    while i < |t|
      invariant 1 <= i
      invariant i <= |t| ==> CloseFrom(t, i) == target
      invariant i > |t| ==> target == None
      decreases |t| - i
    {
      ScanStep(t, i);
      match t[i] {
        case '\\' => i := i + 1;
        case '"' => return Some(i);
        case _ =>
      }
      i := i + 1;
    }
    ScanEnd(t);
    c := None;
  }

  lemma ScanFrom(t: string)
    requires t != ""
    ensures CloseFrom(t, 1) == if CloseAt(t[1..]).Some? then Some(1 + CloseAt(t[1..]).value) else None
  {
  }

  lemma ScanEnd(t: string)
    ensures CloseFrom(t, |t|) == None
  {
  }

  method ReadString(t: string) returns (s: string, rest: string)
    ensures (s, rest) == OneString(t)
  {
    if |t| == 0 {
      return "", "";
    }
    if t[0] == '"' {
      var c := Scan(t);
      if c.Some? {
        var u := Unquoted(t[1..c.value]);
        if u.None? {
          return "", t;
        }
        return u.value, t[c.value + 1..];
      }
    }
    assert t[0] == '"' ==> Match(t) == 0;
    var n := Match(t);
    if n != 0 {
      return t[..n], t[n..];
    }
    return "", t;
  }

  lemma {:induction false} LastEdgeRun(t: string, n: nat, i: nat, best: nat)
    requires best <= i <= n <= |t| && n > 0 && Edge(t[n - 1]) && (n < |t| ==> !Inner(t[n])) && AllInner(t[..n]) && (i == n ==> best == n)
    ensures LastEdge(t, i, best) == n
    decreases n - i
  {
    if i < n {
      assert t[..n][i] == t[i];
      LastEdgeRun(t, n, i + 1, if Edge(t[i]) then i + 1 else best);
    }
  }

  /** Any string of bytes, however it was written, is read back, whatever follows after a space. */
  lemma StringRoundTrip(s: string, isPrint: nat -> bool, rest: string)
    requires Sensible(isPrint) && Bytes(s) && (rest == "" || rest[0] == ' ')
    ensures OneString(Written(s, isPrint) + rest) == (s, rest)
  {
    var t := Written(s, isPrint) + rest;
    if Safe(s) && s != "t" && s != "f" {
      assert t[0] == s[0] && t[..|s|] == s && t[|s|..] == rest;
      LastEdgeRun(t, |s|, 1, 1);
    } else {
      QuotedRoundTrip(s, isPrint, rest);
    }
  }

  lemma QuotedRoundTrip(s: string, isPrint: nat -> bool, rest: string)
    requires Sensible(isPrint) && Bytes(s)
    ensures OneString(Quoted(s, isPrint) + rest) == (s, rest)
  {
    hide CloseAt, Unquoted, Body;
    var b := Body(s, isPrint);
    var t := Quoted(s, isPrint) + rest;
    CloseBody(s, isPrint, rest);
    UnquoteBody(s, isPrint);
    assert t[0] == '"' && t[1..] == b + "\"" + rest;
    assert t[1..1 + |b|] == b && t[2 + |b|..] == rest;
  }

  /** A written string stays on one line, and unquoted strings are never the names of booleans. */
  lemma OneLineWritten(s: string, isPrint: nat -> bool)
    requires Sensible(isPrint)
    ensures '\n' !in Written(s, isPrint) && Written(s, isPrint) != "" && Written(s, isPrint) != "t" && Written(s, isPrint) != "f"
  {
    OneLine(s, isPrint);
    if Safe(s) && s != "t" && s != "f" {
      forall k | 0 <= k < |s| ensures s[k] != '\n' {
        assert Inner(s[k]);
      }
    }
  }
}
