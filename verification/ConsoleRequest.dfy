/** The record that starts a request, printed and parsed (xopconsole/console.go, xopconsole/replay.go). */
module ConsoleRequest {
  import opened Options
  import opened Runes
  import opened Quote
  import opened Console
  import Hex
  import opened Trace

  /** Source and namespace are combined with their versions. */
  datatype Request = Request(trace: Ids, name: string, source: string, namespace: string, parent: Ids, state: string, baggage: string)

  /** A keyword with its value as printed, and the value itself. */
  datatype Item = Item(key: string, text: string, value: string)

  function IsZero(i: Ids): bool {
    i.traceID == Zeros(16) && i.spanID == Zeros(8)
  }

  /** A parent in the same trace is abbreviated to its span ID. */
  function ParentText(r: Request): string {
    if r.parent.traceID != r.trace.traceID then Header(r.parent) else Hex.Encode(r.parent.spanID)
  }

  function Items(r: Request, isPrint: nat -> bool): seq<Item> {
    (if IsZero(r.parent) then [] else [Item("parent", ParentText(r), ParentText(r))])
    + (if r.state == "" then [] else [Item("state", Written(r.state, isPrint), r.state)])
    + (if r.baggage == "" then [] else [Item("baggage", Written(r.baggage, isPrint), r.baggage)])
  }

  function ItemsText(items: seq<Item>): string {
    if items == [] then "" else items[0].key + ([':'] + (items[0].text + Spaced(ItemsText(items[1..]))))
  }

  function Spaced(t: string): string {
    if t == "" then "" else " " + t
  }

  /** The record after its time and the word Start1. */
  function Printed(r: Request, isPrint: nat -> bool): string {
    Header(r.trace) + (" " + (Written(r.name, isPrint) + (" " + (Written(r.source, isPrint) + (" " + (Written(r.namespace, isPrint)
    + Spaced(ItemsText(Items(r, isPrint)))))))))
  }

  method PrintItem(b: string, i: Item, ghost head: string, ghost done: seq<Item>) returns (c: string)
    requires b == head + Spaced(ItemsText(done))
    ensures c == head + Spaced(ItemsText(done + [i]))
  {
    c := b + (" " + i.key + ":");
    c := c + i.text;
    ItemAppend(head, done, i);
  }

  method PrintRequest(r: Request, isPrint: nat -> bool) returns (b: string)
    ensures b == Printed(r, isPrint)
  {
    hide ItemsText, Written, Header, Printed, Spaced, Items, ParentText;
    b := Header(r.trace);
    b := b + " ";
    b := b + Written(r.name, isPrint);
    b := b + " ";
    b := b + Written(r.source, isPrint);
    b := b + " ";
    b := b + Written(r.namespace, isPrint);
    ghost var head := b;
    ghost var done: seq<Item> := [];
    NoItems(head);
    if !IsZero(r.parent) {
      var i := Item("parent", ParentText(r), ParentText(r));
      b := PrintItem(b, i, head, done);
      done := done + [i];
    }
    if r.state != "" {
      var i := Item("state", Written(r.state, isPrint), r.state);
      b := PrintItem(b, i, head, done);
      done := done + [i];
    }
    if r.baggage != "" {
      var i := Item("baggage", Written(r.baggage, isPrint), r.baggage);
      b := PrintItem(b, i, head, done);
      done := done + [i];
    }
    ItemsAre(r, isPrint, done);
    PrintedIs(r, isPrint);
  }

  lemma PrintedIs(r: Request, isPrint: nat -> bool)
    ensures Printed(r, isPrint) == Header(r.trace) + " " + Written(r.name, isPrint) + " " + Written(r.source, isPrint) + " " + Written(r.namespace, isPrint)
                                   + Spaced(ItemsText(Items(r, isPrint)))
  {
    hide Header, Written, Items, ItemsText, Spaced;
    var h, n, s, m, t := Header(r.trace), Written(r.name, isPrint), Written(r.source, isPrint), Written(r.namespace, isPrint), Spaced(ItemsText(Items(r, isPrint)));
    assert h + (" " + (n + (" " + (s + (" " + (m + t)))))) == h + " " + (n + (" " + (s + (" " + (m + t)))));
    assert h + " " + (n + (" " + (s + (" " + (m + t))))) == h + " " + n + " " + (s + (" " + (m + t)));
    assert h + " " + n + " " + (s + (" " + (m + t))) == h + " " + n + " " + s + " " + (m + t);
  }

  lemma NoItems(head: string)
    ensures head == head + Spaced(ItemsText([]))
  {
  }

  lemma ItemsAre(r: Request, isPrint: nat -> bool, done: seq<Item>)
    requires var p := if IsZero(r.parent) then [] else [] + [Item("parent", ParentText(r), ParentText(r))];
             var q := if r.state == "" then p else p + [Item("state", Written(r.state, isPrint), r.state)];
             done == if r.baggage == "" then q else q + [Item("baggage", Written(r.baggage, isPrint), r.baggage)]
    ensures done == Items(r, isPrint)
  {
    hide Written, ParentText;
  }

  lemma SomeText(items: seq<Item>)
    ensures ItemsText(items) == "" <==> items == []
  {
  }

  lemma {:induction false} ItemsSnoc(items: seq<Item>, i: Item)
    ensures ItemsText(items + [i]) == (if items == [] then "" else ItemsText(items) + " ") + (i.key + ([':'] + i.text))
  {
    if items == [] {
      assert items + [i] == [i] && [i][1..] == [];
      assert i.text + "" == i.text;
    } else {
      var rest := items[1..];
      assert (items + [i])[1..] == rest + [i] && (items + [i])[0] == items[0];
      ItemsSnoc(rest, i);
      SomeText(rest);
      SomeText(rest + [i]);
      var t := i.key + ([':'] + i.text);
      SnocGlue(items[0].key, items[0].text, ItemsText(rest), t);
    }
  }

  lemma SnocGlue(k: string, x: string, r: string, t: string)
    ensures k + ([':'] + (x + (" " + (r + " " + t)))) == k + ([':'] + (x + (" " + r))) + " " + t
    ensures k + ([':'] + (x + (" " + t))) == k + ([':'] + (x + "")) + " " + t
  {
    assert " " + (r + " " + t) == " " + r + (" " + t);
    assert x + (" " + r + (" " + t)) == x + (" " + r) + (" " + t);
    assert x + "" == x;
  }

  lemma ItemAppend(head: string, done: seq<Item>, i: Item)
    ensures head + Spaced(ItemsText(done)) + (" " + i.key + ":") + i.text == head + Spaced(ItemsText(done + [i]))
  {
    hide ItemsText;
    ItemsSnoc(done, i);
    SomeText(done);
    AppendGlue(head, ItemsText(done), i.key, i.text);
  }

  lemma AppendGlue(h: string, t: string, k: string, x: string)
    ensures h + (" " + t) + (" " + k + ":") + x == h + (" " + (t + " " + (k + ([':'] + x))))
    ensures h + "" + (" " + k + ":") + x == h + (" " + ("" + (k + ([':'] + x))))
  {
    var u := k + ([':'] + x);
    assert (" " + k + ":") + x == " " + u;
    assert h + "" == h && "" + u == u;
    var g := h + (" " + t);
    assert g + (" " + k + ":") + x == g + ((" " + k + ":") + x);
    assert " " + (t + " " + u) == (" " + t) + (" " + u);
    assert h + ((" " + t) + (" " + u)) == g + (" " + u);
    assert h + (" " + k + ":") + x == h + ((" " + k + ":") + x);
  }

  // ---- Parsing ---------------------------------------------------------------------------

  function IndexAny(t: string, boundary: string): (r: Option<nat>)
    ensures r.Some? ==> r.value < |t| && t[r.value] in boundary
  {
    if t == "" then None
    else if t[0] in boundary then Some(0)
    else
      var r := IndexAny(t[1..], boundary);
      if r.None? then None else Some(1 + r.value)
  }

  /** The separator of a word that ends with the text.  A NUL in the text itself looks the same. */
  const NUL := 0 as char

  /** A word, the boundary after it, and the rest; nothing when there is no boundary. */
  function OneWord(t: string, boundary: string): (string, char, string) {
    var i := IndexAny(t, boundary);
    if i.None? then ("", NUL, t) else (t[..i.value], t[i.value], t[i.value + 1..])
  }

  function WordMaybeQuoted(t: string, boundary: string): (string, char, string) {
    if t == "" then ("", NUL, "")
    else if t[0] == '"' && CloseAt(t[1..]).Some? then
      var c := CloseAt(t[1..]).value;
      var u := Unquoted(t[1..1 + c]);
      if u.None? then ("", NUL, t)
      else
        var rest := t[2 + c..];
        if rest == "" then (u.value, NUL, "") else (u.value, rest[0], rest[1..])
    else OneWord(t, boundary)
  }

  function StringAndSpace(t: string): (string, string) {
    var (s, u) := OneString(t);
    if s != "" && u != "" && u[0] == ' ' then (s, u[1..]) else (s, u)
  }

  function StringAndSep(t: string): (string, char, string) {
    var (s, u) := OneString(t);
    if u == "" then (s, NUL, u) else (s, u[0], u[1..])
  }

  datatype Fields = Fields(parent: Ids, state: string, baggage: string)

  function Assigned(f: Fields, key: string, value: string, trace: Ids): Option<Fields> {
    if key == "parent" then
      if |value| == 16 then Some(f.(parent := f.parent.(traceID := trace.traceID, spanID := FromString(8, value))))
      else if Matches(value) then Some(f.(parent := Parsed(value)))
      else None
    else if key == "state" then Some(f.(state := value))
    else if key == "baggage" then Some(f.(baggage := value))
    else None
  }

  /** One turn of the parsing loop: an error, or the remaining text and the fields. */
  function Turn(t: string, f: Fields, trace: Ids): Option<(string, Fields)> {
    var (word, sep, u) := WordMaybeQuoted(t, " :=");
    if sep == NUL then (if word != "" then None else Some((u, f)))
    else if sep == ':' then
      var (value, end, v) := StringAndSep(u);
      if end != NUL && end != ' ' then None
      else
        var g := Assigned(f, word, value, trace);
        if g.None? then None else Some((v, g.value))
    else None
  }

  /** A loop that comes back to where it was never ends. */
  datatype Outcome<T> = Finished(value: T) | Failed | Hangs

  function Loop(t: string, f: Fields, trace: Ids): Outcome<Fields>
    decreases |t|
  {
    if t == "" then Finished(f)
    else
      var r := Turn(t, f, trace);
      if r.None? then Failed
      else if |r.value.0| < |t| then Loop(r.value.0, r.value.1, trace)
      else Hangs
  }

  function Start(t: string): Outcome<Request> {
    var (header, _, t1) := OneWord(t, " ");
    if !Matches(header) then Failed
    else
      var trace := Parsed(header);
      var (name, t2) := StringAndSpace(t1);
      var (source, t3) := StringAndSpace(t2);
      var (namespace, t4) := StringAndSpace(t3);
      if name == "" || source == "" || namespace == "" then Failed
      else match Loop(t4, Fields(NEW_IDS, "", ""), trace)
        case Finished(f) => Finished(Request(trace, name, source, namespace, f.parent, f.state, f.baggage))
        case Failed => Failed
        case Hangs => Hangs
  }

  /** A turn that does not shrink the text changes nothing at all, so the loop would repeat it forever. */
  lemma TurnShrinks(t: string, f: Fields, trace: Ids)
    requires t != "" && Turn(t, f, trace).Some?
    ensures var (u, g) := Turn(t, f, trace).value; |u| < |t| || (u == t && g == f)
  {
  }

  method ReplayRequestStart(t: string) returns (o: Outcome<Request>)
    ensures o == Start(t)
  {
    hide Matches, Parsed, StringAndSpace, Turn, OneWord;
    var (header, _, t1) := OneWord(t, " ");
    if !Matches(header) {
      return Failed;
    }
    var trace := Parsed(header);
    var (name, t2) := StringAndSpace(t1);
    if name == "" {
      return Failed;
    }
    var (source, t3) := StringAndSpace(t2);
    if source == "" {
      return Failed;
    }
    var (namespace, t4) := StringAndSpace(t3);
    if namespace == "" {
      return Failed;
    }
    var rest := t4;
    var f := Fields(NEW_IDS, "", "");
    while rest != ""
      invariant Loop(rest, f, trace) == Loop(t4, Fields(NEW_IDS, "", ""), trace)
      decreases |rest|
    {
      var r := Turn(rest, f, trace);
      if r.None? {
        return Failed;
      }
      TurnShrinks(rest, f, trace);
      if r.value.0 == rest {
        return Hangs;
      }
      rest, f := r.value.0, r.value.1;
    }
    o := Finished(Request(trace, name, source, namespace, f.parent, f.state, f.baggage));
  }

  // ---- Parsing what was printed ---------------------------------------------------------------

  /** A printed value that is read back, whatever follows after a space. */
  ghost predicate Readable(text: string, value: string) {
    forall rest: string :: rest == "" || rest[0] == ' ' ==> OneString(text + rest) == (value, rest)
  }

  predicate Keyword(key: string) {
    key == "parent" || key == "state" || key == "baggage"
  }

  lemma {:induction false} IndexAfter(w: string, boundary: string, rest: string)
    requires (forall k :: 0 <= k < |w| ==> w[k] !in boundary) && rest != "" && rest[0] in boundary
    ensures IndexAny(w + rest, boundary) == Some(|w|)
  {
    if w == "" {
      assert w + rest == rest;
    } else {
      assert (w + rest)[1..] == w[1..] + rest;
      IndexAfter(w[1..], boundary, rest);
    }
  }

  lemma WordRead(w: string, boundary: string, c: char, rest: string)
    requires (forall k :: 0 <= k < |w| ==> w[k] !in boundary) && c in boundary
    ensures OneWord(w + ([c] + rest), boundary) == (w, c, rest)
  {
    var t := w + ([c] + rest);
    IndexAfter(w, boundary, [c] + rest);
    assert t[..|w|] == w && t[|w| + 1..] == rest;
  }

  function AssignAll(f: Fields, items: seq<Item>, trace: Ids): Option<Fields>
    decreases |items|
  {
    if items == [] then Some(f)
    else
      var g := Assigned(f, items[0].key, items[0].value, trace);
      if g.None? then None else AssignAll(g.value, items[1..], trace)
  }

  lemma ItemsCons(items: seq<Item>)
    requires items != [] && Keyword(items[0].key)
    ensures var more := Spaced(ItemsText(items[1..])); var t := ItemsText(items);
            && t == items[0].key + ([':'] + (items[0].text + more)) && t[0] != '"'
            && (more == "" || (more[0] == ' ' && more[1..] == ItemsText(items[1..])))
            && (more == "" ==> ItemsText(items[1..]) == "") && |more| < |t|
            && |ItemsText(items[1..])| < |t|
  {
    SomeText(items[1..]);
    assert ItemsText(items)[0] == items[0].key[0];
  }

  lemma TurnWord(t: string, f: Fields, trace: Ids, key: string, u: string, value: string, more: string)
    requires t != "" && t[0] != '"' && OneWord(t, " :=") == (key, ':', u) && OneString(u) == (value, more) && (more == "" || more[0] == ' ')
    ensures var g := Assigned(f, key, value, trace);
            Turn(t, f, trace) == if g.None? then None else Some((if more == "" then "" else more[1..], g.value))
  {
    hide OneWord, OneString, Assigned;
  }

  lemma OneTurn(items: seq<Item>, f: Fields, trace: Ids)
    requires items != [] && Keyword(items[0].key) && Readable(items[0].text, items[0].value)
    ensures ItemsText(items) != "" && |ItemsText(items[1..])| < |ItemsText(items)|
    ensures var g := Assigned(f, items[0].key, items[0].value, trace);
            Turn(ItemsText(items), f, trace) == if g.None? then None else Some((ItemsText(items[1..]), g.value))
  {
    hide OneString, Assigned, OneWord, Turn, ItemsText, Spaced;
    var i := items[0];
    var more := Spaced(ItemsText(items[1..]));
    ItemsCons(items);
    WordRead(i.key, " :=", ':', i.text + more);
    TurnWord(ItemsText(items), f, trace, i.key, i.text + more, i.value, more);
  }

  lemma {:induction false} LoopReads(items: seq<Item>, f: Fields, trace: Ids)
    requires forall k :: 0 <= k < |items| ==> Keyword(items[k].key) && Readable(items[k].text, items[k].value)
    requires AssignAll(f, items, trace).Some?
    ensures Loop(ItemsText(items), f, trace) == Finished(AssignAll(f, items, trace).value)
  {
    hide Turn, Assigned, Readable;
    if items != [] {
      OneTurn(items, f, trace);
      LoopReads(items[1..], Assigned(f, items[0].key, items[0].value, trace).value, trace);
    }
  }

  lemma {:induction false} EncodeEdges(b: seq<Hex.Byte>)
    ensures forall k :: 0 <= k < |Hex.Encode(b)| ==> Edge(Hex.Encode(b)[k]) && Hex.Encode(b)[k] != '"'
  {
    if b != [] {
      EncodeEdges(b[1..]);
    }
  }

  /** Text of edge characters only is its own unquoted form. */
  lemma EdgesReadable(s: string)
    requires s != "" && forall k :: 0 <= k < |s| ==> Edge(s[k])
    ensures Readable(s, s)
  {
    forall rest: string | rest == "" || rest[0] == ' ' ensures OneString(s + rest) == (s, rest) {
      var t := s + rest;
      assert t[0] == s[0] && t[..|s|] == s && t[|s|..] == rest;
      LastEdgeRun(t, |s|, 1, 1);
    }
  }

  lemma HeaderEdges(i: Ids)
    requires Sized(i)
    ensures |Header(i)| == 55 && forall k :: 0 <= k < |Header(i)| ==> Edge(Header(i)[k])
  {
    hide Hex.Encode;
    EncodeEdges(i.version);
    EncodeEdges(i.traceID);
    EncodeEdges(i.spanID);
    EncodeEdges(i.flags);
  }

  lemma WrittenReadable(s: string, isPrint: nat -> bool)
    requires Sensible(isPrint) && Bytes(s)
    ensures Readable(Written(s, isPrint), s)
  {
    hide Written, OneString;
    forall rest: string | rest == "" || rest[0] == ' ' ensures OneString(Written(s, isPrint) + rest) == (s, rest) {
      StringRoundTrip(s, isPrint, rest);
    }
  }

  /** What parsing makes of the parent: an abbreviated or absent parent comes back with version 00 and flags 01. */
  function Recovered(r: Request): Ids {
    if !IsZero(r.parent) && r.parent.traceID != r.trace.traceID then r.parent
    else r.parent.(version := [0], flags := [1])
  }

  ghost predicate Proper(r: Request) {
    && Sized(r.trace) && Sized(r.parent)
    && Bytes(r.name) && Bytes(r.source) && Bytes(r.namespace) && Bytes(r.state) && Bytes(r.baggage)
  }

  lemma ItemsReadable(r: Request, isPrint: nat -> bool)
    requires Proper(r) && Sensible(isPrint)
    ensures forall k :: 0 <= k < |Items(r, isPrint)| ==> Keyword(Items(r, isPrint)[k].key) && Readable(Items(r, isPrint)[k].text, Items(r, isPrint)[k].value)
  {
    hide Written, Hex.Encode, Header, Readable;
    ParentReadable(r);
    WrittenReadable(r.state, isPrint);
    WrittenReadable(r.baggage, isPrint);
  }

  lemma ParentReadable(r: Request)
    requires Proper(r)
    ensures Readable(ParentText(r), ParentText(r))
  {
    hide Hex.Encode, Header, Readable;
    if r.parent.traceID != r.trace.traceID {
      HeaderEdges(r.parent);
    } else {
      EncodeEdges(r.parent.spanID);
    }
    EdgesReadable(ParentText(r));
  }

  lemma ParentAssigned(r: Request)
    requires Proper(r) && !IsZero(r.parent)
    ensures Assigned(Fields(NEW_IDS, "", ""), "parent", ParentText(r), r.trace) == Some(Fields(Recovered(r), "", ""))
  {
    hide Hex.Encode, Header, Matches, Parsed, Hex.Decode;
    if r.parent.traceID != r.trace.traceID {
      ParseHeader(r.parent);
      HeaderEdges(r.parent);
    } else {
      Hex.DecodeEncode(r.parent.spanID);
      assert Zeros(1) == [0] && r.parent.spanID[..8] == r.parent.spanID;
    }
  }

  lemma AllAssigned(r: Request, isPrint: nat -> bool)
    requires Proper(r)
    ensures AssignAll(Fields(NEW_IDS, "", ""), Items(r, isPrint), r.trace) == Some(Fields(Recovered(r), r.state, r.baggage))
  {
    hide Written, ParentText, Recovered;
    var f := Fields(NEW_IDS, "", "");
    var items := Items(r, isPrint);
    if !IsZero(r.parent) {
      ParentAssigned(r);
    } else {
      NoParent(r);
    }
    var g := Fields(Recovered(r), "", "");
    var states := if r.state == "" then [] else [Item("state", Written(r.state, isPrint), r.state)];
    var baggages := if r.baggage == "" then [] else [Item("baggage", Written(r.baggage, isPrint), r.baggage)];
    var h := g.(state := r.state);
    assert AssignAll(h, baggages, r.trace) == Some(h.(baggage := r.baggage)) by {
      if r.baggage != "" { assert baggages[1..] == []; }
    }
    assert AssignAll(g, states + baggages, r.trace) == AssignAll(h, baggages, r.trace) by {
      if r.state != "" { assert (states + baggages)[1..] == baggages; } else { assert states + baggages == baggages; }
    }
    if !IsZero(r.parent) {
      assert items[1..] == states + baggages;
    } else {
      assert items == states + baggages;
    }
  }

  lemma NoParent(r: Request)
    requires Proper(r) && IsZero(r.parent)
    ensures Recovered(r) == NEW_IDS
  {
    assert Zeros(1) == [0];
  }

  lemma StringThenSpace(text: string, value: string, rest: string)
    requires Readable(text, value) && value != ""
    ensures StringAndSpace(text + (" " + rest)) == (value, rest)
    ensures StringAndSpace(text + Spaced(rest)) == (value, rest)
  {
    hide OneString;
    assert OneString(text + (" " + rest)) == (value, " " + rest);
    assert (" " + rest)[1..] == rest;
    assert OneString(text + "") == (value, "");
  }

  /** A printed record parses, and everything comes back except what the abbreviation of the parent drops. */
  lemma RequestRoundTrip(r: Request, isPrint: nat -> bool)
    requires Proper(r) && Sensible(isPrint) && r.name != "" && r.source != "" && r.namespace != ""
    ensures Start(Printed(r, isPrint)) == Finished(r.(parent := Recovered(r)))
  {
    hide Written, Header, Items, ItemsText, Readable, StringAndSpace, OneWord, Loop, Matches, Parsed, Recovered;
    var tail := ItemsText(Items(r, isPrint));
    HeaderRead(r.trace, Written(r.name, isPrint) + (" " + (Written(r.source, isPrint) + (" " + (Written(r.namespace, isPrint) + Spaced(tail))))));
    WrittenReadable(r.name, isPrint);
    WrittenReadable(r.source, isPrint);
    WrittenReadable(r.namespace, isPrint);
    StringThenSpace(Written(r.name, isPrint), r.name, Written(r.source, isPrint) + (" " + (Written(r.namespace, isPrint) + Spaced(tail))));
    StringThenSpace(Written(r.source, isPrint), r.source, Written(r.namespace, isPrint) + Spaced(tail));
    StringThenSpace(Written(r.namespace, isPrint), r.namespace, tail);
    ItemsReadable(r, isPrint);
    AllAssigned(r, isPrint);
    LoopReads(Items(r, isPrint), Fields(NEW_IDS, "", ""), r.trace);
  }

  /** The parent is recovered exactly when it was printed in full or has version 00 and flags 01. */
  lemma ParentExact(r: Request)
    requires Proper(r)
    ensures Recovered(r) == r.parent <==>
            (!IsZero(r.parent) && r.parent.traceID != r.trace.traceID) || (r.parent.version == [0] && r.parent.flags == [1])
  {
  }

  /** A request without a name is printed but cannot be parsed. */
  lemma EmptyNameFails(r: Request, isPrint: nat -> bool)
    requires Proper(r) && Sensible(isPrint) && r.name == ""
    ensures Start(Printed(r, isPrint)) == Failed
  {
    hide Written, Header, Items, ItemsText, Readable, OneString, OneWord, Loop, Matches, Parsed;
    var rest := " " + (Written(r.source, isPrint) + (" " + (Written(r.namespace, isPrint) + Spaced(ItemsText(Items(r, isPrint))))));
    HeaderRead(r.trace, Written(r.name, isPrint) + rest);
    StringRoundTrip(r.name, isPrint, rest);
  }

  /** When a turn of the loop changes nothing: the text has no boundary in it, or starts with a quoted word
      that cannot be unquoted. */
  lemma HangsExactly(t: string, f: Fields, trace: Ids)
    requires t != ""
    ensures Turn(t, f, trace) == Some((t, f)) <==>
            if t[0] == '"' && CloseAt(t[1..]).Some? then Unquoted(t[1..1 + CloseAt(t[1..]).value]).None?
            else forall k :: 0 <= k < |t| ==> t[k] !in " :="
  {
    hide OneString, Assigned, Unquoted, CloseAt;
    NoIndex(t, " :=");
    OneStringShrinks(WordMaybeQuoted(t, " :=").2);
  }

  lemma OneStringShrinks(t: string)
    ensures |OneString(t).1| <= |t|
  {
  }

  lemma {:induction false} NoIndex(t: string, boundary: string)
    ensures IndexAny(t, boundary).None? <==> forall k :: 0 <= k < |t| ==> t[k] !in boundary
  {
    if t != "" {
      NoIndex(t[1..], boundary);
    }
  }

  /** A header and three strings, and what is left of the record. */
  lemma StartReads(r: Request, isPrint: nat -> bool, more: string)
    requires Proper(r) && Sensible(isPrint) && r.name != "" && r.source != "" && r.namespace != ""
    ensures var t := Header(r.trace) + (" " + (Written(r.name, isPrint) + (" " + (Written(r.source, isPrint) + (" " + (Written(r.namespace, isPrint) + (" " + more)))))));
            Start(t) == match Loop(more, Fields(NEW_IDS, "", ""), r.trace)
                        case Finished(f) => Finished(Request(r.trace, r.name, r.source, r.namespace, f.parent, f.state, f.baggage))
                        case Failed => Failed
                        case Hangs => Hangs
  {
    hide Written, Header, Readable, StringAndSpace, OneWord, Loop, Matches, Parsed;
    var n, s, m := Written(r.name, isPrint), Written(r.source, isPrint), Written(r.namespace, isPrint);
    var t3 := m + (" " + more);
    var t2 := s + (" " + t3);
    var t1 := n + (" " + t2);
    HeaderRead(r.trace, t1);
    WrittenReadable(r.name, isPrint);
    WrittenReadable(r.source, isPrint);
    WrittenReadable(r.namespace, isPrint);
    StringThenSpace(n, r.name, t2);
    StringThenSpace(s, r.source, t3);
    StringThenSpace(m, r.namespace, more);
  }

  lemma HeaderRead(i: Ids, rest: string)
    requires Sized(i)
    ensures OneWord(Header(i) + (" " + rest), " ") == (Header(i), ' ', rest)
    ensures Matches(Header(i)) && Parsed(Header(i)) == i
  {
    hide Header, Matches, Parsed, OneWord;
    HeaderEdges(i);
    assert forall k :: 0 <= k < |Header(i)| ==> Header(i)[k] !in " ";
    WordRead(Header(i), " ", ' ', rest);
    ParseHeader(i);
  }

  lemma BarePrinted(r: Request, isPrint: nat -> bool, junk: string)
    requires IsZero(r.parent) && r.state == "" && r.baggage == ""
    ensures Printed(r, isPrint) + (" " + junk) ==
              Header(r.trace) + (" " + (Written(r.name, isPrint) + (" " + (Written(r.source, isPrint) + (" " + (Written(r.namespace, isPrint) + (" " + junk)))))))
  {
    hide Written, Header;
    assert Items(r, isPrint) == [];
    var h, n, s, m := Header(r.trace), Written(r.name, isPrint), Written(r.source, isPrint), Written(r.namespace, isPrint);
    var j := " " + junk;
    assert m + "" == m;
    assert " " + m + j == " " + (m + j);
    assert s + (" " + m) + j == s + (" " + (m + j));
    assert " " + (s + (" " + m)) + j == " " + (s + (" " + (m + j)));
    assert n + (" " + (s + (" " + m))) + j == n + (" " + (s + (" " + (m + j))));
  }

  /** One stray word after the namespace keeps the parser going forever. */
  lemma StrayWordHangs(r: Request, isPrint: nat -> bool, junk: string)
    requires Proper(r) && Sensible(isPrint) && r.name != "" && r.source != "" && r.namespace != ""
    requires IsZero(r.parent) && r.state == "" && r.baggage == ""
    requires junk != "" && junk[0] != '"' && forall k :: 0 <= k < |junk| ==> junk[k] !in " :="
    ensures Start(Printed(r, isPrint) + (" " + junk)) == Hangs
  {
    hide Written, Header, Turn, Start, Printed;
    BarePrinted(r, isPrint, junk);
    StartReads(r, isPrint, junk);
    HangsExactly(junk, Fields(NEW_IDS, "", ""), r.trace);
  }
}
