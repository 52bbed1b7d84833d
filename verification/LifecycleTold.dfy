/** What the base loggers of a request are told, counted against the states of its spans. */
module LifecycleTold {
  import opened SpanTree
  import opened LifecycleSteps

  /** Said by the program: new spans, their boring marks, and lines. */
  predicate Said(c: BaseCall) {
    || c.BaseSpan?
    || (c.BaseLine? && !Complains(c.text))
    || (c.BaseBoring? && c.boring && c.id != 0)
  }

  predicate Complains(text: Text) {
    text.UsedAgain? || text.DoneAgain?
  }

  function Speech(calls: seq<BaseCall>): seq<BaseCall> {
    if calls == [] then []
    else Speech(calls[..|calls| - 1]) + Unless(!Said(calls[|calls| - 1]), calls[|calls| - 1])
  }

  lemma Spoken(calls: seq<BaseCall>, c: BaseCall)
    ensures Speech(calls + [c]) == Speech(calls) + Unless(!Said(c), c)
  {
    assert (calls + [c])[..|calls + [c]| - 1] == calls;
  }

  function Complaints(calls: seq<BaseCall>, x: nat): nat {
    Count(calls, BaseLine(x, UsedAgain)) + Count(calls, BaseLine(x, DoneAgain))
  }

  /** The lines at the error level: those of the program and the complaints. */
  function Errors(calls: seq<BaseCall>, x: nat): nat {
    Count(calls, BaseLine(x, Error)) + Complaints(calls, x)
  }

  /** How often `x` was told that it is not boring. */
  function Alarms(calls: seq<BaseCall>, x: nat): nat {
    Count(calls, BaseBoring(x, false))
  }

  function DoneOf(s: seq<Span>, x: nat): nat { if x < |s| then s[x].doneCount else 0 }
  function BoringOf(s: seq<Span>, x: nat): nat { if x < |s| then s[x].boring else 0 }

  /** All but the first. */
  function Over(n: nat): nat { if n == 0 then 0 else n - 1 }

  function Once(n: nat): nat { if n == 0 then 0 else 1 }

  /** From state `s` and calls `a` to `t` and `b`: each done count was told as a final Done, each complaint goes with a
      done count beyond the first, a boring count below the request counts the error lines, and the base logger is told
      when a boring count leaves zero.  Logger `l` may owe an error line, and complaints that are due. */
  ghost predicate FairAt(s: seq<Span>, t: seq<Span>, a: seq<BaseCall>, b: seq<BaseCall>, l: nat, owed: int, due: int, x: nat) {
    && Finals(b, x) - Finals(a, x) == DoneOf(t, x) - DoneOf(s, x)
    && Complaints(b, x) - Complaints(a, x) <= Over(DoneOf(t, x)) - Over(DoneOf(s, x)) + (if x == l then due else 0)
    && BoringOf(s, x) <= BoringOf(t, x)
    && (x != 0 ==> BoringOf(t, x) - BoringOf(s, x) == Errors(b, x) - Errors(a, x) + (if x == l then owed else 0))
    && Alarms(b, x) - Alarms(a, x) == Once(BoringOf(t, x)) - Once(BoringOf(s, x))
  }

  ghost predicate Alarmed(s: seq<Span>, t: seq<Span>) {
    exists x: nat :: x != 0 && BoringOf(s, x) == 0 < BoringOf(t, x)
  }

  /** The request leaves zero with the first error line of any of its loggers. */
  ghost predicate Noticed(s: seq<Span>, t: seq<Span>, a: seq<BaseCall>, b: seq<BaseCall>, owed: int) {
    && Errors(a, 0) <= Errors(b, 0) + owed
    && (BoringOf(s, 0) == 0 ==> (BoringOf(t, 0) > 0 <==> Alarmed(s, t) || Errors(a, 0) < Errors(b, 0) + owed))
  }

  /** Every call is about a logger below `n`. */
  ghost predicate About(a: seq<BaseCall>, b: seq<BaseCall>, n: nat) {
    && a <= b
    && forall i :: |a| <= i < |b| ==> b[i].BaseFlush? || b[i].id < n
  }

  ghost predicate Fair(s: seq<Span>, t: seq<Span>, a: seq<BaseCall>, b: seq<BaseCall>, l: nat, owed: int, due: int) {
    && |s| == |t|
    && About(a, b, |s|)
    && Count(b, BaseBoring(0, true)) == Count(a, BaseBoring(0, true))
    && (forall x: nat :: FairAt(s, t, a, b, l, owed, due, x))
    && Noticed(s, t, a, b, if l == 0 then owed else 0)
  }

  lemma FairTrans(s: seq<Span>, t: seq<Span>, u: seq<Span>, a: seq<BaseCall>, b: seq<BaseCall>, c: seq<BaseCall>,
                  l: nat, owed: int, due: int, owed': int, due': int)
    requires Fair(s, t, a, b, l, owed, due) && Fair(t, u, b, c, l, owed', due')
    ensures Fair(s, u, a, c, l, owed + owed', due + due')
  {
    hide Finals, Complaints, Errors, Alarms, Over, Once, DoneOf, BoringOf, Noticed, About;
    var o, d := owed + owed', due + due';
    forall x: nat
      ensures FairAt(s, u, a, c, l, o, d, x)
    {
      assert FairAt(s, t, a, b, l, owed, due, x) && FairAt(t, u, b, c, l, owed', due', x);
    }
    NoticedTrans(s, t, u, a, b, c, l, owed, due, owed', due');
    AboutTrans(a, b, c, |s|);
  }

  lemma AboutTrans(a: seq<BaseCall>, b: seq<BaseCall>, c: seq<BaseCall>, n: nat)
    requires About(a, b, n) && About(b, c, n)
    ensures About(a, c, n)
  {
    assert forall i :: 0 <= i < |b| ==> c[i] == b[i];
  }

  lemma NoticedTrans(s: seq<Span>, t: seq<Span>, u: seq<Span>, a: seq<BaseCall>, b: seq<BaseCall>, c: seq<BaseCall>,
                     l: nat, owed: int, due: int, owed': int, due': int)
    requires Fair(s, t, a, b, l, owed, due) && Fair(t, u, b, c, l, owed', due')
    ensures Noticed(s, u, a, c, if l == 0 then owed + owed' else 0)
  {
    hide Finals, Complaints, Errors, Alarms, Over, Once, DoneOf, BoringOf, About;
    forall x: nat
      ensures BoringOf(s, x) <= BoringOf(t, x) <= BoringOf(u, x)
    {
      assert FairAt(s, t, a, b, l, owed, due, x) && FairAt(t, u, b, c, l, owed', due', x);
    }
    if Alarmed(s, t) {
      var x: nat :| x != 0 && BoringOf(s, x) == 0 < BoringOf(t, x);
      assert BoringOf(u, x) > 0;
    }
    if Alarmed(t, u) {
      var x: nat :| x != 0 && BoringOf(t, x) == 0 < BoringOf(u, x);
      assert BoringOf(s, x) == 0;
    }
    if Alarmed(s, u) {
      var x: nat :| x != 0 && BoringOf(s, x) == 0 < BoringOf(u, x);
      assert BoringOf(t, x) == 0 || BoringOf(t, x) > 0;
    }
  }

  /** What is fair for one logger with nothing owed is fair for any. */
  lemma FairAny(s: seq<Span>, t: seq<Span>, a: seq<BaseCall>, b: seq<BaseCall>, d: nat, due: int, l: nat)
    requires Fair(s, t, a, b, d, 0, due) && due <= 0
    ensures Fair(s, t, a, b, l, 0, 0)
  {
    hide Finals, Complaints, Errors, Alarms, Over, Once, DoneOf, BoringOf, Noticed, About;
    forall x: nat
      ensures FairAt(s, t, a, b, l, 0, 0, x)
    {
      assert FairAt(s, t, a, b, d, 0, due, x);
    }
  }

  ghost predicate SameCounts(s: seq<Span>, t: seq<Span>) {
    |s| == |t| && forall x: nat :: x < |s| ==> t[x].doneCount == s[x].doneCount && t[x].boring == s[x].boring
  }

  lemma FairStill(s: seq<Span>, t: seq<Span>, c: seq<BaseCall>, l: nat)
    requires SameCounts(s, t)
    ensures Fair(s, t, c, c, l, 0, 0)
  {
    hide Finals, Complaints, Errors, Alarms, Over, Once;
    forall x: nat
      ensures FairAt(s, t, c, c, l, 0, 0, x)
    {
    }
  }

  /** A line tells nothing about done counts, and settles what is owed when it is at the error level. */
  lemma FairLine(s: seq<Span>, c: seq<BaseCall>, l: nat, text: Text)
    requires l < |s|
    ensures Fair(s, s, c, c + [BaseLine(l, text)], l, if text.Plain? then 0 else -1, if Complains(text) then 1 else 0)
  {
    hide Count;
    var owed, due := if text.Plain? then 0 else -1, if Complains(text) then 1 else 0;
    Told(c, BaseLine(l, text));
    forall x: nat
      ensures FairAt(s, s, c, c + [BaseLine(l, text)], l, owed, due, x)
    {
    }
  }

  /** Done for now, and a flush, leave all counts alone. */
  lemma FairInterim(s: seq<Span>, t: seq<Span>, c: seq<BaseCall>, k: BaseCall, l: nat)
    requires SameCounts(s, t) && (k == BaseFlush || (k.BaseDone? && !k.final && k.id < |s|))
    ensures Fair(s, t, c, c + [k], l, 0, 0)
  {
    hide Count;
    Told(c, k);
    forall x: nat
      ensures FairAt(s, t, c, c + [k], l, 0, 0, x)
    {
    }
  }

  /** A final Done counts, and makes room for a complaint when it is not the first. */
  lemma FairFinal(s: seq<Span>, t: seq<Span>, c: seq<BaseCall>, l: nat)
    requires l < |s| && |t| == |s| && t[l].doneCount == s[l].doneCount + 1 && t[l].boring == s[l].boring
    requires forall x: nat :: x < |s| && x != l ==> t[x] == s[x]
    ensures Fair(s, t, c, c + [BaseDone(l, true)], l, 0, 0 - Once(s[l].doneCount))
  {
    hide Count;
    var due := 0 - Once(s[l].doneCount);
    Told(c, BaseDone(l, true));
    forall x: nat
      ensures FairAt(s, t, c, c + [BaseDone(l, true)], l, 0, due, x)
    {
    }
  }

  /** What an error line makes of the boring counts, and what is told of it. */
  function Stirred(s: seq<Span>, l: nat): (t: seq<Span>)
    requires l < |s|
    ensures |t| == |s|
  {
    var t := s[l := s[l].(boring := s[l].boring + 1)];
    if s[l].boring == 0 then t[0 := t[0].(boring := t[0].boring + 1)] else t
  }

  function Alarm(s: seq<Span>, l: nat): seq<BaseCall>
    requires l < |s|
  {
    if s[l].boring != 0 then []
    else [BaseBoring(l, false)] + Unless(l == 0 || s[0].boring != 0, BaseBoring(0, false))
  }

  lemma FairAlarm(s: seq<Span>, c: seq<BaseCall>, l: nat)
    requires l < |s|
    ensures Fair(s, Stirred(s, l), c, c + Alarm(s, l), l, 1, 0)
  {
    hide Count;
    var t, b := Stirred(s, l), c + Alarm(s, l);
    Told(c, BaseBoring(l, false));
    Told(c + [BaseBoring(l, false)], BaseBoring(0, false));
    assert s[l].boring == 0 ==> b == if l == 0 || s[0].boring != 0 then c + [BaseBoring(l, false)] else c + [BaseBoring(l, false)] + [BaseBoring(0, false)];
    assert s[l].boring != 0 ==> b == c;
    forall x: nat
      ensures FairAt(s, t, c, b, l, 1, 0, x)
    {
    }
    if l != 0 && s[l].boring == 0 {
      assert BoringOf(s, l) == 0 < BoringOf(t, l);
    }
  }

  /** One more dependent is done. */
  lemma FairNext(s: seq<Span>, t: seq<Span>, u: seq<Span>, a: seq<BaseCall>, b: seq<BaseCall>, c: seq<BaseCall>, l: nat, due: int, d: nat, due': int)
    requires Fair(s, t, a, b, l, 0, due) && Fair(t, u, b, c, d, 0, due') && due' <= 0
    ensures Fair(s, u, a, c, l, 0, due)
  {
    hide Fair;
    FairAny(t, u, b, c, d, due', l);
    FairTrans(s, t, u, a, b, c, l, 0, due, 0, 0);
  }

  lemma TellsOnce(a: seq<BaseCall>, b: seq<BaseCall>, c: seq<BaseCall>, l: nat, text: Text)
    requires a <= b && b + [BaseLine(l, text)] <= c
    ensures Count(a, BaseLine(l, text)) < Count(c, BaseLine(l, text))
  {
    hide Grew, OnlyLines;
    CountMono(a, b, BaseLine(l, text));
    Told(b, BaseLine(l, text));
    CountMono(b + [BaseLine(l, text)], c, BaseLine(l, text));
  }

  /** Told between `a` and `b`, and so by the time of `c`. */
  lemma StillTold(s: seq<Span>, t: seq<Span>, a: seq<BaseCall>, b: seq<BaseCall>, c: seq<BaseCall>, l: nat, due: int, k: BaseCall)
    requires Count(a, k) < Count(b, k) && Fair(s, t, b, c, l, 0, due)
    ensures Count(a, k) < Count(c, k)
  {
    CountMono(b, c, k);
  }

  /** An error line: the boring counts, the line itself, and the activity it causes. */
  lemma FairError(s: seq<Span>, t: seq<Span>, u: seq<Span>, a: seq<BaseCall>, b: seq<BaseCall>, c: seq<BaseCall>, l: nat, text: Text)
    requires l < |t| && Fair(s, t, a, b, l, 1, 0) && Fair(t, u, b + [BaseLine(l, text)], c, l, 0, 0)
    ensures !text.Plain? ==> Fair(s, u, a, c, l, 0, if Complains(text) then 1 else 0)
    ensures Count(a, BaseLine(l, text)) < Count(c, BaseLine(l, text))
  {
    TellsOnce(a, b, c, l, text);
    hide Fair;
    FairLine(t, b, l, text);
    if !text.Plain? {
      var due := if Complains(text) then 1 else 0;
      FairTrans(s, t, t, a, b, b + [BaseLine(l, text)], l, 1, 0, -1, due);
      FairTrans(s, t, u, a, b + [BaseLine(l, text)], c, l, 0, due, 0, 0);
    }
  }

  /** Activity of an inactive logger: it wakes up, complains if it was done, and is done once more. */
  lemma FairUsed(s: seq<Span>, t: seq<Span>, u: seq<Span>, v: seq<Span>, a: seq<BaseCall>, b: seq<BaseCall>, c: seq<BaseCall>, l: nat)
    requires l < |t| && l < |u| && Fair(s, t, a, a, l, 0, 0) && u[l].doneCount == t[l].doneCount
    requires if t[l].doneCount > 0 then Fair(t, u, a, b, l, 0, 1) && Count(a, BaseLine(l, UsedAgain)) < Count(b, BaseLine(l, UsedAgain)) else u == t && b == a
    requires Fair(u, v, b, c, l, 0, 0 - Once(u[l].doneCount))
    ensures Fair(s, v, a, c, l, 0, 0)
    ensures t[l].doneCount > 0 ==> Count(a, BaseLine(l, UsedAgain)) < Count(c, BaseLine(l, UsedAgain))
  {
    hide Fair, Count;
    if t[l].doneCount > 0 {
      StillTold(u, v, a, b, c, l, 0 - Once(u[l].doneCount), BaseLine(l, UsedAgain));
      FairTrans(s, t, u, a, a, b, l, 0, 0, 0, 1);
      FairTrans(s, u, v, a, b, c, l, 0, 1, 0, -1);
    } else {
      FairTrans(s, t, v, a, a, c, l, 0, 0, 0, 0);
    }
  }

  lemma Outlasts(s: seq<Span>, t: seq<Span>, u: seq<Span>, v: seq<Span>, a: seq<BaseCall>, b: seq<BaseCall>, c: seq<BaseCall>, d: seq<BaseCall>,
                 l: nat, due: int, k: BaseCall)
    requires Fair(s, t, a, b, l, 0, due) && Count(b, k) < Count(c, k) && Fair(u, v, c, d, l, 0, 0)
    ensures Count(a, k) < Count(d, k)
  {
    CountMono(a, b, k);
    CountMono(c, d, k);
  }

  /** done: recursiveDone, a complaint about a second Done, and what follows at the end. */
  lemma FairDone(s: seq<Span>, t: seq<Span>, u: seq<Span>, v: seq<Span>, a: seq<BaseCall>, b: seq<BaseCall>, c: seq<BaseCall>, d: seq<BaseCall>,
                 l: nat, explicit: bool)
    requires l < |s| && Fair(s, t, a, b, l, 0, 0 - Once(s[l].doneCount))
    requires if explicit && s[l].doneCount > 0 then Fair(t, u, b, c, l, 0, 1) && Count(b, BaseLine(l, DoneAgain)) < Count(c, BaseLine(l, DoneAgain)) else u == t && c == b
    requires Fair(u, v, c, d, l, 0, 0)
    ensures Fair(s, v, a, d, l, 0, if explicit then 0 else 0 - Once(s[l].doneCount))
    ensures explicit && s[l].doneCount > 0 ==> Count(a, BaseLine(l, DoneAgain)) < Count(d, BaseLine(l, DoneAgain))
  {
    hide Fair, Count;
    if explicit && s[l].doneCount > 0 {
      Outlasts(s, t, u, v, a, b, c, d, l, 0 - Once(s[l].doneCount), BaseLine(l, DoneAgain));
      FairTrans(s, t, u, a, b, c, l, 0, -1, 0, 1);
      FairTrans(s, u, v, a, c, d, l, 0, 0, 0, 0);
    } else {
      FairTrans(s, t, v, a, b, d, l, 0, 0 - Once(s[l].doneCount), 0, 0);
    }
  }

  ghost predicate BooksAt(s: seq<Span>, c: seq<BaseCall>, x: nat) {
    && Finals(c, x) == DoneOf(s, x)
    && Complaints(c, x) <= Over(DoneOf(s, x))
    && (x != 0 ==> BoringOf(s, x) == Errors(c, x))
    && Alarms(c, x) == Once(BoringOf(s, x))
  }

  ghost predicate AnyError(c: seq<BaseCall>) {
    exists x: nat :: Errors(c, x) > 0
  }

  predicate Opened(c: seq<BaseCall>, x: nat) {
    exists j :: 0 <= j < |c| && c[j].BaseSpan? && c[j].id == x
  }

  /** A logger is told about its span before anything else. */
  ghost predicate Introduced(c: seq<BaseCall>) {
    forall i :: 0 <= i < |c| ==> c[i].BaseFlush? || c[i].BaseSpan? || Opened(c[..i], c[i].id)
  }

  /** From the start of a request: what was told agrees with the state of the spans. */
  ghost predicate Books(s: seq<Span>, c: seq<BaseCall>) {
    && (forall x: nat :: BooksAt(s, c, x))
    && (BoringOf(s, 0) > 0 <==> AnyError(c))
    && Introduced(c)
    && (forall x: nat :: x < |s| ==> Opened(c, x))
  }

  lemma OpenedMore(a: seq<BaseCall>, b: seq<BaseCall>, x: nat)
    requires a <= b && Opened(a, x)
    ensures Opened(b, x)
  {
    var j :| 0 <= j < |a| && a[j].BaseSpan? && a[j].id == x;
    assert b[j] == a[j];
  }

  lemma IntroducedMore(a: seq<BaseCall>, b: seq<BaseCall>, n: nat)
    requires Introduced(a) && About(a, b, n) && forall x: nat :: x < n ==> Opened(a, x)
    ensures Introduced(b)
  {
    forall i | 0 <= i < |b| && !b[i].BaseFlush? && !b[i].BaseSpan?
      ensures Opened(b[..i], b[i].id)
    {
      if i < |a| {
        assert b[i] == a[i] && b[..i] == a[..i];
      } else {
        OpenedMore(a, b[..i], b[i].id);
      }
    }
  }

  lemma BooksCounts(s: seq<Span>, t: seq<Span>, a: seq<BaseCall>, b: seq<BaseCall>, l: nat)
    requires Books(s, a) && Fair(s, t, a, b, l, 0, 0)
    ensures forall x: nat :: BooksAt(t, b, x)
    ensures BoringOf(t, 0) > 0 <==> AnyError(b)
  {
    hide Finals, Complaints, Errors, Alarms, Over, Once, DoneOf, BoringOf, About, Opened, Introduced;
    forall x: nat
      ensures BooksAt(t, b, x) && Errors(a, x) <= Errors(b, x) && BoringOf(s, x) <= BoringOf(t, x)
    {
      assert FairAt(s, t, a, b, l, 0, 0, x) && BooksAt(s, a, x);
    }
    if AnyError(a) {
      var x: nat :| Errors(a, x) > 0;
      assert Errors(b, x) > 0 && FairAt(s, t, a, b, l, 0, 0, 0);
    } else {
      NewError(s, t, a, b);
    }
  }

  /** Without error lines before, the request leaves zero with the first one. */
  lemma NewError(s: seq<Span>, t: seq<Span>, a: seq<BaseCall>, b: seq<BaseCall>)
    requires (forall x: nat :: BooksAt(s, a, x) && BooksAt(t, b, x)) && Noticed(s, t, a, b, 0) && !AnyError(a) && BoringOf(s, 0) == 0
    ensures BoringOf(t, 0) > 0 <==> AnyError(b)
  {
    hide Finals, Complaints, Errors, Alarms, Over, Once, DoneOf, BoringOf;
    assert Errors(a, 0) == 0;
    if AnyError(b) {
      var x: nat :| Errors(b, x) > 0;
      assert BooksAt(t, b, x) && BooksAt(s, a, x) && Errors(a, x) == 0;
      assert x != 0 ==> BoringOf(s, x) == 0 < BoringOf(t, x);
    }
    if Alarmed(s, t) {
      var x: nat :| x != 0 && BoringOf(s, x) == 0 < BoringOf(t, x);
      assert BooksAt(t, b, x);
    }
  }

  lemma FairSays(s: seq<Span>, t: seq<Span>, a: seq<BaseCall>, b: seq<BaseCall>, l: nat, owed: int, due: int)
    requires Fair(s, t, a, b, l, owed, due)
    ensures |t| == |s| && a <= b && Count(b, BaseBoring(0, true)) == Count(a, BaseBoring(0, true))
  {
    hide Count, FairAt, Noticed;
  }

  lemma BooksFair(s: seq<Span>, t: seq<Span>, a: seq<BaseCall>, b: seq<BaseCall>, l: nat)
    requires Books(s, a) && Fair(s, t, a, b, l, 0, 0)
    ensures Books(t, b)
  {
    BooksCounts(s, t, a, b, l);
    hide FairAt, BooksAt, Noticed, AnyError, Opened, Introduced;
    IntroducedMore(a, b, |s|);
    forall x: nat | x < |s|
      ensures Opened(b, x)
    {
      OpenedMore(a, b, x);
    }
  }

  /** A new span, and its boring mark. */
  lemma BooksFork(s: seq<Span>, t: seq<Span>, c: seq<BaseCall>, p: nat)
    requires Books(s, c) && |t| == |s| + 1 && SameCounts(s, t[..|s|]) && t[|s|].doneCount == t[|s|].boring == 0
    ensures Books(t, c + [BaseSpan(|s|, p), BaseBoring(|s|, true)])
  {
    hide Count;
    var n, mid := |s|, c + [BaseSpan(|s|, p)];
    var b := mid + [BaseBoring(n, true)];
    assert b == c + [BaseSpan(n, p), BaseBoring(n, true)];
    Told(c, BaseSpan(n, p));
    Told(mid, BaseBoring(n, true));
    SameBooks(s, t, c, b);
    assert mid[|c|] == BaseSpan(n, p) && b[|c|] == BaseSpan(n, p);
    forall x: nat | x < |t|
      ensures Opened(mid, x) && Opened(b, x)
    {
      if x < |s| {
        OpenedMore(c, mid, x);
      }
      OpenedMore(mid, b, x);
    }
    assert Introduced(mid) by { IntroducedSpan(c, n, p); }
    IntroducedMore(mid, b, n + 1);
  }

  lemma IntroducedSpan(c: seq<BaseCall>, n: nat, p: nat)
    requires Introduced(c)
    ensures Introduced(c + [BaseSpan(n, p)])
  {
    var b := c + [BaseSpan(n, p)];
    forall i | 0 <= i < |b| && !b[i].BaseFlush? && !b[i].BaseSpan?
      ensures Opened(b[..i], b[i].id)
    {
      assert b[i] == c[i] && b[..i] == c[..i];
    }
  }

  lemma SameBooks(s: seq<Span>, t: seq<Span>, a: seq<BaseCall>, b: seq<BaseCall>)
    requires forall x: nat :: BooksAt(s, a, x)
    requires BoringOf(s, 0) > 0 <==> AnyError(a)
    requires forall x: nat :: DoneOf(t, x) == DoneOf(s, x) && BoringOf(t, x) == BoringOf(s, x)
    requires forall x: nat, text: Text :: Count(b, BaseLine(x, text)) == Count(a, BaseLine(x, text))
    requires forall x: nat :: Finals(b, x) == Finals(a, x) && Alarms(b, x) == Alarms(a, x)
    ensures forall x: nat :: BooksAt(t, b, x)
    ensures BoringOf(t, 0) > 0 <==> AnyError(b)
  {
    hide Finals, Alarms, Over, Once, DoneOf, BoringOf, Count;
    forall x: nat
      ensures BooksAt(t, b, x) && Errors(b, x) == Errors(a, x)
    {
      assert BooksAt(s, a, x);
    }
  }

  /** A boring mark of the request. */
  lemma BooksMark(s: seq<Span>, c: seq<BaseCall>, skip: bool)
    requires Books(s, c) && |s| > 0
    ensures Books(s, c + Unless(skip, BaseBoring(0, true)))
  {
    hide Count;
    var b := c + Unless(skip, BaseBoring(0, true));
    assert skip ==> b == c;
    if !skip {
      Told(c, BaseBoring(0, true));
      SameBooks(s, s, c, b);
      IntroducedMore(c, b, |s|);
      forall x: nat | x < |s|
        ensures Opened(b, x)
      {
        OpenedMore(c, b, x);
      }
    }
  }

  lemma StartCount()
    ensures forall k :: Count([BaseSpan(0, 0)], k) == if k == BaseSpan(0, 0) then 1 else 0
  {
    hide Grew, OnlyLines;
    Told([], BaseSpan(0, 0));
    assert [] + [BaseSpan(0, 0)] == [BaseSpan(0, 0)];
  }

  lemma SpeechStart()
    ensures Speech([BaseSpan(0, 0)]) == [BaseSpan(0, 0)]
  {
    Spoken([], BaseSpan(0, 0));
    assert [] + [BaseSpan(0, 0)] == [BaseSpan(0, 0)];
  }

  lemma BooksStart()
    ensures Books([Span(true, 0, 0, {})], [BaseSpan(0, 0)])
  {
    hide Count;
    StartCount();
    forall x: nat
      ensures BooksAt([Span(true, 0, 0, {})], [BaseSpan(0, 0)], x)
    {
    }
    assert [BaseSpan(0, 0)][0].BaseSpan?;
  }
}
