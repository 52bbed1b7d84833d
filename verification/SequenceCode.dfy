/** Codes of forked and stepped spans (sub.go, support.go). */
module SequenceCode {
  import Decimal

  /** How strconv writes digits in base 26. */
  function Digit(d: nat): char
    requires d < 26
  {
    if d < 10 then ('0' as nat + d) as char else ('a' as nat + d - 10) as char
  }

  function Digits(n: nat): (r: string)
    ensures r != "" && forall k :: 0 <= k < |r| ==> '0' <= r[k] <= '9' || 'a' <= r[k] <= 'p'
  {
    if n < 26 then [Digit(n)] else Digits(n / 26) + [Digit(n % 26)]
  }

  function FormatInt(v: int): string {
    if v < 0 then "-" + Digits(-v) else Digits(v)
  }

  /** Numbers in base 26 with the letters from A to Z as digits. */
  function Letters(n: nat): (r: string)
    ensures r != "" && forall k :: 0 <= k < |r| ==> 'A' <= r[k] <= 'Z'
  {
    if n < 26 then [('A' as nat + n) as char] else Letters(n / 26) + [('A' as nat + n % 26) as char]
  }

  function Base26(v: int): string {
    if v < 0 then "-" + Letters(-v) else Letters(v)
  }

  predicate Digitlike(c: char) { c == '-' || '0' <= c <= '9' || 'a' <= c <= 'p' }

  function Letter(c: char): char
    requires Digitlike(c)
  {
    if c == '-' then c
    else if c >= 'a' then (c as int + 10 + 'A' as int - 'a' as int) as char
    else (c as int + 'A' as int - '0' as int) as char
  }

  function Map(s: string): (r: string)
    requires forall k :: 0 <= k < |s| ==> Digitlike(s[k])
    ensures |r| == |s| && forall k :: 0 <= k < |s| ==> r[k] == Letter(s[k])
  {
    seq(|s|, k requires 0 <= k < |s| => Letter(s[k]))
  }

  lemma {:induction false} DigitsToLetters(n: nat)
    ensures Map(Digits(n)) == Letters(n)
  {
    if n >= 26 {
      DigitsToLetters(n / 26);
      assert Map(Digits(n)) == Map(Digits(n / 26)) + [Letter(Digit(n % 26))];
    }
  }

  lemma FormatMapped(v: int)
    ensures forall k :: 0 <= k < |FormatInt(v)| ==> Digitlike(FormatInt(v)[k])
    ensures Map(FormatInt(v)) == Base26(v)
  {
    var n := if v < 0 then -v else v;
    DigitsToLetters(n);
    if v < 0 {
      assert Map(FormatInt(v)) == "-" + Map(Digits(n));
    }
  }

  /** The conversion in place, from the last digit to the first. */
  method ToBase26(v: int) returns (s: string)
    ensures s == Base26(v)
  {
    FormatMapped(v);
    var text := FormatInt(v);
    var b26 := new char[|text|](i requires 0 <= i < |text| => text[i]);
    var i := |text| - 1;
    while i >= 0
      invariant -1 <= i < |text|
      invariant forall k :: 0 <= k <= i ==> b26[k] == text[k]
      invariant forall k :: i < k < |text| ==> b26[k] == Letter(text[k])
    {
      if b26[i] == '-' {
      } else if b26[i] >= 'a' {
        b26[i] := (b26[i] as int + 10 + 'A' as int - 'a' as int) as char;
      } else {
        b26[i] := (b26[i] as int + 'A' as int - '0' as int) as char;
      }
      i := i - 1;
    }
    s := b26[..];
    assert s == Map(text);
  }

  lemma {:induction false} LettersInjective(m: nat, n: nat)
    requires Letters(m) == Letters(n)
    ensures m == n
  {
    var s, t := Letters(m), Letters(n);
    assert s[|s| - 1] == ('A' as nat + m % 26) as char && t[|t| - 1] == ('A' as nat + n % 26) as char;
    if m >= 26 && n >= 26 {
      assert s[..|s| - 1] == Letters(m / 26) && t[..|t| - 1] == Letters(n / 26);
      LettersInjective(m / 26, n / 26);
    }
  }

  lemma Base26Injective(v: int, w: int)
    requires Base26(v) == Base26(w)
    ensures v == w
  {
    assert Base26(v)[0] == '-' <==> v < 0;
    assert Base26(w)[0] == '-' <==> w < 0;
    if v < 0 {
      assert Base26(v)[1..] == Letters(-v) && Base26(w)[1..] == Letters(-w);
      LettersInjective(-v, -w);
    } else {
      LettersInjective(v, w);
    }
  }

  // ---- Spans ------------------------------------------------------------------------------

  const WRAP := 0x1_0000_0000

  /** An int32 counter after so many increments from zero. */
  function Counter(k: nat): int {
    var m := k % WRAP;
    if m < 0x8000_0000 then m else m - WRAP
  }

  datatype Op = Fork(parent: nat) | Step(parent: nat)

  /** How often the same was done to the same span. */
  function Times(ops: seq<Op>, op: Op): nat {
    if ops == [] then 0 else Times(ops[..|ops| - 1], op) + (if ops[|ops| - 1] == op then 1 else 0)
  }

  /** The part that the k-th fork or step of a span adds to its code. */
  function Part(op: Op, k: nat): string {
    if op.Fork? then Base26(Counter(k) - 1) else Decimal.Of(Counter(k))
  }

  /** Parents exist; span 0 is the request, and each call creates the next span. */
  predicate WellUsed(ops: seq<Op>) {
    forall i :: 0 <= i < |ops| ==> ops[i].parent <= i
  }

  function Codes(ops: seq<Op>, root: string): (r: seq<string>)
    requires WellUsed(ops)
    ensures |r| == |ops| + 1 && r[0] == root
  {
    if ops == [] then [root]
    else
      var past, op := ops[..|ops| - 1], ops[|ops| - 1];
      var codes := Codes(past, root);
      codes + [codes[op.parent] + "." + Part(op, Times(ops, op))]
  }

  class Spans {
    var codes: seq<string>
    var forkCounter: seq<int>
    var stepCounter: seq<int>

    ghost predicate Tracks(ops: seq<Op>, root: string)
      reads this
    {
      && WellUsed(ops) && codes == Codes(ops, root) && |forkCounter| == |stepCounter| == |codes|
      && forall p: nat :: p < |codes| ==>
           forkCounter[p] == Counter(Times(ops, Fork(p))) && stepCounter[p] == Counter(Times(ops, Step(p)))
    }

    constructor (root: string)
      ensures Tracks([], root)
    {
      codes, forkCounter, stepCounter := [root], [0], [0];
    }

    method Add(op: Op, ghost ops: seq<Op>, ghost root: string)
      requires Tracks(ops, root) && op.parent < |codes|
      modifies this
      ensures Tracks(ops + [op], root)
    {
      hide Times, Codes, Part, Counter, Increment, Base26, Decimal.Of;
      var p := op.parent;
      NoneYet(ops, |codes|);
      AddedCode(ops, op, root);
      forall other: Op ensures Times(ops + [op], other) == Times(ops, other) + (if other == op then 1 else 0) {
        AddedTimes(ops, op, other);
      }
      var part;
      if op.Fork? {
        forkCounter := forkCounter[p := Increment(forkCounter[p])];
        part := ToBase26(forkCounter[p] - 1);
      } else {
        stepCounter := stepCounter[p := Increment(stepCounter[p])];
        part := Decimal.Of(stepCounter[p]);
      }
      Incremented(Times(ops, op));
      PartIs(op, Times(ops, op) + 1);
      codes := codes + [codes[p] + "." + part];
      forkCounter, stepCounter := forkCounter + [0], stepCounter + [0];
    }
  }

  lemma AddedTimes(ops: seq<Op>, op: Op, other: Op)
    ensures Times(ops + [op], other) == Times(ops, other) + (if other == op then 1 else 0)
  {
    assert (ops + [op])[..|ops|] == ops;
  }

  lemma AddedCode(ops: seq<Op>, op: Op, root: string)
    requires WellUsed(ops) && op.parent <= |ops|
    ensures WellUsed(ops + [op])
    ensures Codes(ops + [op], root) == Codes(ops, root) + [Codes(ops, root)[op.parent] + "." + Part(op, Times(ops, op) + 1)]
  {
    hide Part;
    AddedTimes(ops, op, op);
    assert (ops + [op])[..|ops|] == ops;
  }

  lemma PartIs(op: Op, k: nat)
    ensures Part(op, k) == if op.Fork? then Base26(Counter(k) - 1) else Decimal.Of(Counter(k))
    ensures Counter(0) == 0
  {
  }

  /** Adding one to an int32. */
  function Increment(v: int): int {
    if v == 0x7fff_ffff then -0x8000_0000 else v + 1
  }

  lemma Incremented(k: nat)
    ensures Increment(Counter(k)) == Counter(k + 1)
  {
  }

  lemma {:induction false} NoneYet(ops: seq<Op>, p: nat)
    requires WellUsed(ops) && p > |ops|
    ensures Times(ops, Fork(p)) == 0 && Times(ops, Step(p)) == 0
  {
    if ops != [] {
      NoneYet(ops[..|ops| - 1], p);
    }
  }

  method Run(ops: seq<Op>, root: string) returns (codes: seq<string>)
    requires WellUsed(ops)
    ensures codes == Codes(ops, root)
  {
    var s := new Spans(root);
    var k := 0;
    while k < |ops|
      invariant 0 <= k <= |ops| && fresh(s) && s.Tracks(ops[..k], root)
    {
      assert ops[..k + 1] == ops[..k] + [ops[k]];
      s.Add(ops[k], ops[..k], root);
      k := k + 1;
    }
    assert ops[..k] == ops;
    codes := s.codes;
  }

  // ---- Distinctness -----------------------------------------------------------------------

  lemma CounterWraps(k: nat)
    ensures Counter(k + WRAP) == Counter(k)
  {
  }

  /** Parts have no dots, and forks end in a letter, steps in a digit. */
  lemma PartShape(op: Op, k: nat)
    ensures var p := Part(op, k);
            p != "" && '.' !in p && (if op.Fork? then 'A' <= p[|p| - 1] <= 'Z' else '0' <= p[|p| - 1] <= '9')
  {
  }

  lemma PartInjective(a: Op, b: Op, j: nat, k: nat)
    requires Part(a, j) == Part(b, k) && 0 < j <= WRAP && 0 < k <= WRAP
    ensures a.Fork? == b.Fork? && j == k
  {
    PartShape(a, j);
    PartShape(b, k);
    if a.Fork? {
      Base26Injective(Counter(j) - 1, Counter(k) - 1);
    } else {
      Decimal.Injective(Counter(j), Counter(k));
    }
  }

  /** A code splits at its last dot in one way only. */
  lemma LastDot(a: string, x: string, b: string, y: string)
    requires a + "." + x == b + "." + y && '.' !in x && '.' !in y
    ensures a == b && x == y
  {
    var s, t := a + "." + x, b + "." + y;
    assert s[|a|] == '.' && forall k :: |a| < k < |s| ==> s[k] == x[k - |a| - 1];
    assert t[|b|] == '.' && forall k :: |b| < k < |t| ==> t[k] == y[k - |b| - 1];
    assert |a| == |b|;
    assert s[..|a|] == a && t[..|b|] == b && s[|a| + 1..] == x && t[|b| + 1..] == y;
  }

  lemma {:induction false} CodeAt(ops: seq<Op>, root: string, i: nat)
    requires WellUsed(ops) && i < |ops|
    ensures Codes(ops, root)[i + 1] == Codes(ops, root)[ops[i].parent] + "." + Part(ops[i], Times(ops[..i + 1], ops[i]))
  {
    var past := ops[..|ops| - 1];
    if i == |ops| - 1 {
      assert ops[..i + 1] == ops;
    } else {
      CodeAt(past, root, i);
      assert past[..i + 1] == ops[..i + 1];
    }
  }

  lemma {:induction false} TimesGrows(ops: seq<Op>, i: nat, j: nat, op: Op)
    requires i < j <= |ops|
    ensures Times(ops[..i], op) <= Times(ops[..j], op)
    ensures ops[j - 1] == op ==> Times(ops[..i], op) < Times(ops[..j], op)
  {
    assert ops[..j][..j - 1] == ops[..j - 1];
    if i < j - 1 {
      TimesGrows(ops, i, j - 1, op);
    }
  }

  predicate Distinct(codes: seq<string>) {
    forall i, j :: 0 <= i < j < |codes| ==> codes[i] != codes[j]
  }

  /** No span was forked, or stepped, more than 2 to the 32 times. */
  ghost predicate WithinLimit(ops: seq<Op>) {
    forall op: Op :: Times(ops, op) <= WRAP
  }

  lemma {:induction false} CodeLonger(ops: seq<Op>, root: string, i: nat)
    requires WellUsed(ops) && i <= |ops|
    ensures |Codes(ops, root)[i]| >= |root| && (i > 0 ==> |Codes(ops, root)[i]| > |root|)
  {
    hide Codes, Times, Part;
    if i > 0 {
      CodeAt(ops, root, i - 1);
      CodeLonger(ops, root, ops[i - 1].parent);
    }
  }

  lemma {:induction false} SameCodeSameSpan(ops: seq<Op>, root: string, i: nat, j: nat)
    requires WellUsed(ops) && WithinLimit(ops) && i <= |ops| && j <= |ops|
    requires Codes(ops, root)[i] == Codes(ops, root)[j]
    ensures i == j
    decreases i + j
  {
    hide Codes, Part, Times;
    CodeLonger(ops, root, i);
    CodeLonger(ops, root, j);
    if i > 0 && j > 0 {
      var a, b := ops[i - 1], ops[j - 1];
      var m, n := Times(ops[..i], a), Times(ops[..j], b);
      CodeAt(ops, root, i - 1);
      CodeAt(ops, root, j - 1);
      PartShape(a, m);
      PartShape(b, n);
      LastDot(Codes(ops, root)[a.parent], Part(a, m), Codes(ops, root)[b.parent], Part(b, n));
      SameCodeSameSpan(ops, root, a.parent, b.parent);
      Counted(ops, i);
      Counted(ops, j);
      PartInjective(a, b, m, n);
      if i < j {
        TimesGrows(ops, i, j, a);
      } else if j < i {
        TimesGrows(ops, j, i, a);
      }
    }
  }

  lemma Counted(ops: seq<Op>, i: nat)
    requires 0 < i <= |ops| && WithinLimit(ops)
    ensures 0 < Times(ops[..i], ops[i - 1]) <= WRAP
  {
    assert ops[..i][..i - 1] == ops[..i - 1];
    if i < |ops| {
      TimesGrows(ops, i, |ops|, ops[i - 1]);
    }
    assert ops[..|ops|] == ops;
  }

  lemma {:induction false} FindTime(ops: seq<Op>, op: Op, n: nat) returns (i: nat)
    requires 0 < n <= Times(ops, op)
    ensures i < |ops| && ops[i] == op && Times(ops[..i + 1], op) == n
  {
    var past := ops[..|ops| - 1];
    if Times(past, op) >= n {
      i := FindTime(past, op, n);
      assert past[..i + 1] == ops[..i + 1];
    } else {
      i := |ops| - 1;
      assert ops[..i + 1] == ops;
    }
  }

  /** Distinct spans of a request have distinct codes exactly when no counter came around. */
  lemma CodesDistinct(ops: seq<Op>, root: string)
    requires WellUsed(ops)
    ensures Distinct(Codes(ops, root)) <==> WithinLimit(ops)
  {
    var codes := Codes(ops, root);
    if WithinLimit(ops) {
      forall i, j | 0 <= i < j < |codes| ensures codes[i] != codes[j] {
        if codes[i] == codes[j] {
          SameCodeSameSpan(ops, root, i, j);
        }
      }
    } else {
      var op: Op :| Times(ops, op) > WRAP;
      var i := FindTime(ops, op, 1);
      var j := FindTime(ops, op, 1 + WRAP);
      CodeAt(ops, root, i);
      CodeAt(ops, root, j);
      CounterWraps(1);
      assert codes[i + 1] == codes[j + 1] && i != j;
    }
  }
}
