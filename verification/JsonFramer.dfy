/** How `McpClient._onData` cuts a stream into JSON objects:
    `hard-eval/mcp-harness/mcp-client.js`, the scan of `buf`. */
module JsonFramer {
  import opened Text

  // ---------- the scanner ----------

  datatype Scan = Scan(depth: int, inStr: bool, esc: bool)

  const START := Scan(0, false, false)

  function Next(s: Scan, ch: char): Scan {
    if s.inStr then
      if s.esc then s.(esc := false)
      else if ch == '\\' then s.(esc := true)
      else if ch == '"' then s.(inStr := false)
      else s
    else if ch == '"' then s.(inStr := true)
    else if ch == '{' then s.(depth := s.depth + 1)
    else if ch == '}' then s.(depth := s.depth - 1)
    else s
  }

  /** The character that brings the depth back to zero ends the object. */
  predicate Closes(s: Scan, ch: char) {
    !s.inStr && ch == '}' && s.depth == 1
  }

  /** Offset of the closing brace, if the text reaches it. */
  function End(t: string, s: Scan): (r: Option<nat>)
    ensures r.Some? ==> r.value < |t|
  {
    if t == [] then None
    else if Closes(s, t[0]) then Some(0)
    else
      match End(t[1..], Next(s, t[0]))
      case None => None
      case Some(k) => Some(k + 1)
  }

  /** The state after all of `t`, unless the object ends inside it. */
  function Through(t: string, s: Scan): Option<Scan> {
    if t == [] then Some(s)
    else if Closes(s, t[0]) then None
    else Through(t[1..], Next(s, t[0]))
  }

  /** Where the first complete object of a buffer starts, and its length. */
  function First(buf: string): (r: Option<(nat, nat)>)
    ensures r.Some? ==> r.value.0 + r.value.1 <= |buf| && 0 < r.value.1
  {
    match IndexOf(buf, '{')
    case None => None
    case Some(start) =>
      match End(buf[start..], START)
      case None => None
      case Some(k) => Some((start, k + 1))
  }

  /** A way to find the first complete object; more text behind it changes nothing. */
  type Cutter = string -> Option<(nat, nat)>

  ghost predicate InRange(cut: Cutter) {
    forall a :: cut(a).Some? ==> 0 < cut(a).value.1 && cut(a).value.0 + cut(a).value.1 <= |a|
  }

  ghost predicate Stable(cut: Cutter) {
    InRange(cut) && forall a, b :: cut(a).Some? ==> cut(a + b) == cut(a)
  }

  /** All complete objects of a buffer, and what is left of it. */
  function Cut(cut: Cutter, buf: string): (seq<string>, string)
    requires InRange(cut)
    decreases |buf|
  {
    if cut(buf).None? then ([], buf)
    else
      var (start, n) := cut(buf).value;
      var (more, rest) := Cut(cut, buf[start + n..]);
      ([buf[start..start + n]] + more, rest)
  }

  /** One chunk after another, carrying the unfinished rest along. */
  function FeedBy(cut: Cutter, buf: string, chunks: seq<string>): (seq<string>, string)
    requires InRange(cut)
    decreases |chunks|
  {
    if chunks == [] then ([], buf)
    else
      var (now, rest) := Cut(cut, buf + chunks[0]);
      var (later, last) := FeedBy(cut, rest, chunks[1..]);
      (now + later, last)
  }

  function Concat(parts: seq<string>): string {
    if parts == [] then [] else parts[0] + Concat(parts[1..])
  }

  // ---------- chunking does not matter ----------

  lemma {:induction false} SliceAppend(a: string, b: string, i: nat, j: nat)
    requires i <= j <= |a|
    ensures (a + b)[i..j] == a[i..j] && (a + b)[j..] == a[j..] + b
  {
  }

  lemma {:induction false} CutStep(cut: Cutter, buf: string, text: string, more: string, start: nat)
    requires InRange(cut) && cut(buf) == Some((start, |text|))
    requires buf[start..start + |text|] == text && buf[start + |text|..] == more
    ensures Cut(cut, buf).0 == [text] + Cut(cut, more).0 && Cut(cut, buf).1 == Cut(cut, more).1
  {
  }

  /** What is cut off first stays the same when more text follows. */
  lemma {:induction false} FirstPiece(cut: Cutter, a: string, b: string) returns (text: string, rest: string)
    requires Stable(cut) && cut(a).Some?
    ensures |rest| < |a|
    ensures Cut(cut, a).0 == [text] + Cut(cut, rest).0 && Cut(cut, a).1 == Cut(cut, rest).1
    ensures Cut(cut, a + b).0 == [text] + Cut(cut, rest + b).0 && Cut(cut, a + b).1 == Cut(cut, rest + b).1
  {
    var (start, n) := cut(a).value;
    text, rest := a[start..start + n], a[start + n..];
    SliceAppend(a, b, start, start + n);
    CutStep(cut, a, text, rest, start);
    CutStep(cut, a + b, text, rest + b, start);
  }

  lemma {:induction false} Regroup<T>(x: T, a: seq<T>, b: seq<T>)
    ensures [x] + (a + b) == [x] + a + b
  {
  }

  lemma {:induction false} CutAppend(cut: Cutter, a: string, b: string)
    requires Stable(cut)
    ensures Cut(cut, a + b).0 == Cut(cut, a).0 + Cut(cut, Cut(cut, a).1 + b).0
    ensures Cut(cut, a + b).1 == Cut(cut, Cut(cut, a).1 + b).1
    decreases |a|
  {
    if cut(a).Some? {
      var text, rest := FirstPiece(cut, a, b);
      CutAppend(cut, rest, b);
      Regroup(text, Cut(cut, rest).0, Cut(cut, Cut(cut, rest).1 + b).0);
    }
  }

  /** Nothing more comes out of a rest. */
  lemma {:induction false} RestIsUncut(cut: Cutter, buf: string)
    requires InRange(cut)
    ensures cut(Cut(cut, buf).1).None?
    decreases |buf|
  {
    if cut(buf).Some? {
      RestIsUncut(cut, buf[cut(buf).value.0 + cut(buf).value.1..]);
    }
  }

  lemma {:induction false} ConcatHead(buf: string, chunks: seq<string>)
    requires chunks != []
    ensures buf + Concat(chunks) == (buf + chunks[0]) + Concat(chunks[1..])
  {
  }

  /** However a text is cut into chunks, the emissions and the rest are those of the whole. */
  lemma {:induction false} FeedIsCut(cut: Cutter, buf: string, chunks: seq<string>)
    requires Stable(cut) && cut(buf).None?
    ensures FeedBy(cut, buf, chunks) == Cut(cut, buf + Concat(chunks))
    decreases |chunks|
  {
    if chunks == [] {
      assert buf + [] == buf;
    } else {
      var first, later := buf + chunks[0], Concat(chunks[1..]);
      RestIsUncut(cut, first);
      FeedIsCut(cut, Cut(cut, first).1, chunks[1..]);
      CutAppend(cut, first, later);
      ConcatHead(buf, chunks);
    }
  }

  // ---------- JSON texts, sections 2 to 7 of RFC 8259 ----------

  datatype Piece = Raw(c: char) | Escaped(c: char)

  /** A JSON text with its layout: white space may stand wherever the grammar
      allows it. A raw character of a string may even be a line break. */
  datatype Json =
    | Token(text: string)
    | Str(pieces: seq<Piece>)
    | EmptyArray(ws: string)
    | Array(items: Items)
    | EmptyObject(ws: string)
    | Object(members: Members)

  datatype Items = Items(before: string, v: Json, after: string, more: MoreItems)
  datatype MoreItems = NoItems | More(items: Items)

  datatype Members = Members(before: string, key: seq<Piece>, afterKey: string,
                             beforeValue: string, v: Json, after: string, more: MoreMembers)
  datatype MoreMembers = NoMembers | MoreMembers(members: Members)

  predicate White(ws: string) {
    forall c :: c in ws ==> c in " \t\n\r"
  }

  predicate Plain(pieces: seq<Piece>) {
    forall p :: p in pieces ==> p.Raw? ==> p.c != '"' && p.c != '\\'
  }

  predicate IsJson(v: Json) {
    match v
    case Token(text) => forall c :: c in text ==> c !in "{}[]\":,"
    case Str(pieces) => Plain(pieces)
    case EmptyArray(ws) => White(ws)
    case Array(items) => AreItems(items)
    case EmptyObject(ws) => White(ws)
    case Object(members) => AreMembers(members)
  }

  predicate AreItems(i: Items) {
    White(i.before) && White(i.after) && IsJson(i.v) && (i.more.More? ==> AreItems(i.more.items))
  }

  predicate AreMembers(m: Members) {
    && White(m.before) && White(m.afterKey) && White(m.beforeValue) && White(m.after)
    && Plain(m.key) && IsJson(m.v) && (m.more.MoreMembers? ==> AreMembers(m.more.members))
  }

  function PrintPieces(ps: seq<Piece>): string {
    if ps == [] then []
    else (if ps[0].Raw? then [ps[0].c] else ['\\', ps[0].c]) + PrintPieces(ps[1..])
  }

  function PrintString(ps: seq<Piece>): string {
    "\"" + (PrintPieces(ps) + "\"")
  }

  function Print(v: Json): string {
    match v
    case Token(text) => text
    case Str(pieces) => PrintString(pieces)
    case EmptyArray(ws) => "[" + (ws + "]")
    case Array(items) => "[" + (PrintItems(items) + "]")
    case EmptyObject(ws) => "{" + (ws + "}")
    case Object(members) => "{" + (PrintMembers(members) + "}")
  }

  function PrintItems(i: Items): string {
    i.before + (Print(i.v) + (i.after + if i.more.More? then "," + PrintItems(i.more.items) else []))
  }

  function PrintMembers(m: Members): string {
    m.before + (PrintString(m.key) + (m.afterKey + (":" + (m.beforeValue + (Print(m.v) + (m.after +
      if m.more.MoreMembers? then "," + PrintMembers(m.more.members) else []))))))
  }

  lemma {:induction false} EndAppend(t: string, more: string, s: Scan)
    requires End(t, s).Some?
    ensures End(t + more, s) == End(t, s)
    decreases |t|
  {
    assert (t + more)[1..] == t[1..] + more;
    if !Closes(s, t[0]) {
      EndAppend(t[1..], more, Next(s, t[0]));
    }
  }

  // ---------- a printed object is exactly one frame ----------

  lemma {:induction false} ThroughAppend(a: string, b: string, s: Scan)
    requires Through(a, s).Some?
    ensures Through(a + b, s) == Through(b, Through(a, s).value)
    ensures End(a + b, s) == match End(b, Through(a, s).value)
                             case None => None
                             case Some(k) => Some(|a| + k)
    decreases |a|
  {
    if a == [] {
      assert a + b == b;
    } else {
      assert (a + b)[1..] == a[1..] + b;
      ThroughAppend(a[1..], b, Next(s, a[0]));
    }
  }

  /** Scanned inside an object, the text ends at the depth it began and outside strings. */
  ghost predicate Balanced(t: string) {
    forall d: int {:trigger Scan(d, false, false)} ::
      1 <= d ==> Through(t, Scan(d, false, false)) == Some(Scan(d, false, false))
  }

  lemma {:induction false} BalancedAppend(a: string, b: string)
    requires Balanced(a) && Balanced(b)
    ensures Balanced(a + b)
  {
    forall d: int | 1 <= d ensures Through(a + b, Scan(d, false, false)) == Some(Scan(d, false, false)) {
      ThroughAppend(a, b, Scan(d, false, false));
    }
  }

  lemma {:induction false} BalancedQuiet(t: string)
    requires forall c :: c in t ==> c !in "{}\""
    ensures Balanced(t)
    decreases |t|
  {
    if t != [] {
      assert t[0] in t && forall c :: c in t[1..] ==> c in t;
      BalancedQuiet(t[1..]);
    }
  }

  lemma {:induction false} PiecesStayInside(ps: seq<Piece>, d: int)
    requires Plain(ps)
    ensures Through(PrintPieces(ps), Scan(d, true, false)) == Some(Scan(d, true, false))
    decreases |ps|
  {
    if ps != [] {
      var here := if ps[0].Raw? then [ps[0].c] else ['\\', ps[0].c];
      assert ps[0] in ps && forall p :: p in ps[1..] ==> p in ps;
      PiecesStayInside(ps[1..], d);
      if ps[0].Raw? {
        assert Through(here, Scan(d, true, false)) == Some(Scan(d, true, false));
      } else {
        assert here[1..] == [ps[0].c];
        assert Through(here[1..], Scan(d, true, true)) == Some(Scan(d, true, false));
      }
      ThroughAppend(here, PrintPieces(ps[1..]), Scan(d, true, false));
    }
  }

  lemma {:induction false} BalancedString(ps: seq<Piece>)
    requires Plain(ps)
    ensures Balanced(PrintString(ps))
  {
    forall d: int | 1 <= d ensures Through(PrintString(ps), Scan(d, false, false)) == Some(Scan(d, false, false)) {
      PiecesStayInside(ps, d);
      ThroughAppend("\"", PrintPieces(ps) + "\"", Scan(d, false, false));
      ThroughAppend(PrintPieces(ps), "\"", Scan(d, true, false));
    }
  }

  lemma {:induction false} BalancedWhite(ws: string)
    requires White(ws)
    ensures Balanced(ws)
  {
    BalancedQuiet(ws);
  }

  /** Between braces the depth is one more; only the last brace can end the object. */
  lemma {:induction false} BalancedBraces(t: string)
    requires Balanced(t)
    ensures Balanced("{" + (t + "}"))
    ensures End("{" + (t + "}"), START) == Some(|t| + 1)
  {
    forall d: int | 0 <= d
      ensures 1 <= d ==> Through("{" + (t + "}"), Scan(d, false, false)) == Some(Scan(d, false, false))
      ensures d == 0 ==> End("{" + (t + "}"), START) == Some(|t| + 1)
    {
      assert Through("{", Scan(d, false, false)) == Some(Scan(d + 1, false, false));
      ThroughAppend("{", t + "}", Scan(d, false, false));
      ThroughAppend(t, "}", Scan(d + 1, false, false));
    }
  }

  lemma {:induction false} PrintBalanced(v: Json)
    requires IsJson(v)
    ensures Balanced(Print(v))
    decreases v
  {
    match v
    case Token(text) =>
      BalancedQuiet(text);
    case Str(pieces) =>
      BalancedString(pieces);
    case EmptyArray(ws) =>
      BalancedWhite(ws);
      BracketsBalanced(ws);
    case Array(items) =>
      ItemsBalanced(items);
      BracketsBalanced(PrintItems(items));
    case EmptyObject(ws) =>
      BalancedWhite(ws);
      BalancedBraces(ws);
    case Object(members) =>
      MembersBalanced(members);
      BalancedBraces(PrintMembers(members));
  }

  lemma {:induction false} BracketsBalanced(t: string)
    requires Balanced(t)
    ensures Balanced("[" + (t + "]"))
  {
    BalancedQuiet("[");
    BalancedQuiet("]");
    BalancedAppend(t, "]");
    BalancedAppend("[", t + "]");
  }

  lemma {:induction false} ItemsBalanced(i: Items)
    requires AreItems(i)
    ensures Balanced(PrintItems(i))
    decreases i
  {
    var tail := if i.more.More? then "," + PrintItems(i.more.items) else [];
    if i.more.More? {
      ItemsBalanced(i.more.items);
      BalancedQuiet(",");
      BalancedAppend(",", PrintItems(i.more.items));
    }
    BalancedWhite(i.before);
    BalancedWhite(i.after);
    PrintBalanced(i.v);
    BalancedAppend(i.after, tail);
    BalancedAppend(Print(i.v), i.after + tail);
    BalancedAppend(i.before, Print(i.v) + (i.after + tail));
  }

  lemma {:induction false} MembersBalanced(m: Members)
    requires AreMembers(m)
    ensures Balanced(PrintMembers(m))
    decreases m
  {
    var tail := if m.more.MoreMembers? then "," + PrintMembers(m.more.members) else [];
    if m.more.MoreMembers? {
      MembersBalanced(m.more.members);
      BalancedQuiet(",");
      BalancedAppend(",", PrintMembers(m.more.members));
    }
    BalancedWhite(m.before);
    BalancedWhite(m.afterKey);
    BalancedWhite(m.beforeValue);
    BalancedWhite(m.after);
    BalancedQuiet(":");
    BalancedString(m.key);
    PrintBalanced(m.v);
    var t1 := m.after + tail;
    var t2 := Print(m.v) + t1;
    var t3 := m.beforeValue + t2;
    var t4 := ":" + t3;
    var t5 := m.afterKey + t4;
    BalancedAppend(m.after, tail);
    BalancedAppend(Print(m.v), t1);
    BalancedAppend(m.beforeValue, t2);
    BalancedAppend(":", t3);
    BalancedAppend(m.afterKey, t4);
    BalancedAppend(PrintString(m.key), t5);
    BalancedAppend(m.before, PrintString(m.key) + t5);
  }

  // ---------- the framing theorem ----------

  predicate IsMessage(v: Json) {
    (v.Object? || v.EmptyObject?) && IsJson(v)
  }

  function PrintAll(msgs: seq<Json>): (texts: seq<string>)
    ensures |texts| == |msgs|
    ensures forall i :: 0 <= i < |msgs| ==> texts[i] == Print(msgs[i])
  {
    seq(|msgs|, i requires 0 <= i < |msgs| => Print(msgs[i]))
  }

  /** Texts with separators before, between and after them. */
  function Stream(seps: seq<string>, texts: seq<string>): string
    requires |seps| == |texts| + 1
    decreases |texts|
  {
    if texts == [] then seps[0] else seps[0] + (texts[0] + Stream(seps[1..], texts[1..]))
  }

  /** A text the scanner takes for one whole object. */
  predicate IsFrame(text: string) {
    |text| > 0 && text[0] == '{' && End(text, START) == Some(|text| - 1)
  }

  lemma {:induction false} FirstIsStable()
    ensures Stable(First)
  {
    forall a, b | First(a).Some? ensures First(a + b) == First(a) {
      var start := IndexOf(a, '{').value;
      SliceAppend(a, b, 0, start);
      IndexOfIs(a + b, '{', start);
      SliceAppend(a, b, start, start);
      EndAppend(a[start..], b, START);
    }
  }

  /** What the framer emits for a buffer, and what it keeps. */
  function Frames(buf: string): (seq<string>, string) {
    FirstIsStable();
    Cut(First, buf)
  }

  /** The same, one chunk after another. */
  function Feed(buf: string, chunks: seq<string>): (seq<string>, string) {
    FirstIsStable();
    FeedBy(First, buf, chunks)
  }

  /** Feeding `a` and then `b` emits and leaves the same as feeding `a + b`. */
  lemma {:induction false} FramesAppend(a: string, b: string)
    ensures Frames(a + b).0 == Frames(a).0 + Frames(Frames(a).1 + b).0
    ensures Frames(a + b).1 == Frames(Frames(a).1 + b).1
  {
    FirstIsStable();
    CutAppend(First, a, b);
  }

  lemma {:induction false} MessageEnds(msg: Json)
    requires IsMessage(msg)
    ensures IsFrame(Print(msg))
  {
    var inner := if msg.Object? then PrintMembers(msg.members) else msg.ws;
    if msg.Object? {
      MembersBalanced(msg.members);
    } else {
      BalancedWhite(msg.ws);
    }
    BalancedBraces(inner);
  }

  /** Three texts in a row, cut where they meet. */
  lemma {:induction false} CutThree(a: string, b: string, c: string)
    ensures var t := a + (b + c);
      t[..|a|] == a && t[|a|..] == b + c && t[|a|..|a| + |b|] == b && t[|a| + |b|..] == c
  {
  }

  lemma {:induction false} FirstMessage(sep: string, text: string, more: string)
    requires '{' !in sep && IsFrame(text)
    ensures First(sep + (text + more)) == Some((|sep|, |text|))
  {
    CutThree(sep, text, more);
    IndexOfIs(sep + (text + more), '{', |sep|);
    EndAppend(text, more, START);
  }

  lemma {:induction false} OneMessage(sep: string, text: string, more: string)
    requires '{' !in sep && IsFrame(text)
    ensures Frames(sep + (text + more)).0 == [text] + Frames(more).0
    ensures Frames(sep + (text + more)).1 == Frames(more).1
  {
    FirstMessage(sep, text, more);
    CutThree(sep, text, more);
    FirstIsStable();
    CutStep(First, sep + (text + more), text, more, |sep|);
  }

  lemma {:induction false} StreamFrames(seps: seq<string>, texts: seq<string>)
    requires |seps| == |texts| + 1
    requires forall i :: 0 <= i < |seps| ==> '{' !in seps[i]
    requires forall i :: 0 <= i < |texts| ==> IsFrame(texts[i])
    ensures Frames(Stream(seps, texts)) == (texts, seps[|texts|])
    decreases |texts|
  {
    if texts == [] {
      assert Frames(seps[0]) == ([], seps[0]);
    } else {
      OneMessage(seps[0], texts[0], Stream(seps[1..], texts[1..]));
      StreamFrames(seps[1..], texts[1..]);
      assert texts == [texts[0]] + texts[1..];
    }
  }

  lemma {:induction false} PrintedAreFrames(msgs: seq<Json>)
    requires forall m :: m in msgs ==> IsMessage(m)
    ensures forall i :: 0 <= i < |msgs| ==> IsFrame(PrintAll(msgs)[i])
  {
    forall i | 0 <= i < |msgs| ensures IsFrame(PrintAll(msgs)[i]) {
      MessageEnds(msgs[i]);
    }
  }

  /** The framer recovers exactly the messages, whatever their strings hold and
      wherever the stream is cut. */
  lemma {:induction false} FramingIsExact(seps: seq<string>, msgs: seq<Json>, chunks: seq<string>)
    requires |seps| == |msgs| + 1
    requires forall i :: 0 <= i < |seps| ==> '{' !in seps[i]
    requires forall m :: m in msgs ==> IsMessage(m)
    requires Concat(chunks) == Stream(seps, PrintAll(msgs))
    ensures Feed([], chunks) == (PrintAll(msgs), seps[|msgs|])
  {
    FirstIsStable();
    PrintedAreFrames(msgs);
    StreamFrames(seps, PrintAll(msgs));
    FeedIsCut(First, [], chunks);
    assert [] + Concat(chunks) == Concat(chunks);
  }
}
