/** The proportional truncation of bundled frames: `apply_token_cap` of
    `crates/said-forge/src/mcp_api.rs`, on the bytes of the text. */
module TokenCap {
  import opened Text

  type byte = b: int | 0 <= b < 256

  // ---------- UTF-8, sections 3 and 4 of RFC 3629 ----------

  /** How many bytes the character that starts with `b` takes; 0 if none starts with it. */
  function CharLength(b: byte): (n: nat)
    ensures n <= 4
  {
    if b < 0x80 then 1
    else if b < 0xC2 then 0
    else if b < 0xE0 then 2
    else if b < 0xF0 then 3
    else if b < 0xF5 then 4
    else 0
  }

  predicate Continues(b: byte) {
    0x80 <= b < 0xC0
  }

  /** The second byte leaves out overlong forms, surrogates and what is beyond U+10FFFF. */
  predicate SecondOk(first: byte, second: byte) {
    && (first == 0xE0 ==> 0xA0 <= second)
    && (first == 0xED ==> second < 0xA0)
    && (first == 0xF0 ==> 0x90 <= second)
    && (first == 0xF4 ==> second < 0x90)
  }

  predicate Utf8(s: seq<byte>)
    decreases |s|
  {
    s == [] ||
    (var n := CharLength(s[0]);
     0 < n <= |s| && (forall j :: 1 <= j < n ==> Continues(s[j])) && (n > 1 ==> SecondOk(s[0], s[1])) && Utf8(s[n..]))
  }

  /** `is_char_boundary` of a Rust string. */
  predicate Boundary(s: seq<byte>, i: nat) {
    i == 0 || i == |s| || (i < |s| && !Continues(s[i]))
  }

  // ---------- the truncation ----------

  function Ascii(s: string): seq<byte> {
    seq(|s|, i requires 0 <= i < |s| => if s[i] < 128 as char then s[i] as int else 0)
  }

  const HEADING: seq<byte> := [0x0A, 0x23, 0x23, 0x20]

  /** The note behind a cut section; its dash is one character of three bytes. */
  const MARKER: seq<byte> :=
    Ascii("\n[TRUNCATED ") + [0xE2, 0x80, 0x94] + Ascii(" call get <frame-id> for full content]\n")

  /** The next mark at or behind a position. */
  function NextMark<T(==)>(raw: seq<T>, mark: seq<T>, from: nat): (r: Option<nat>)
    requires from <= |raw| && mark != []
    ensures r.Some? ==> from <= r.value && r.value + |mark| <= |raw|
    decreases |raw| - from
  {
    if OccursAt(raw, mark, from) then Some(from) else if from == |raw| then None else NextMark(raw, mark, from + 1)
  }

  /** No mark is passed over. */
  lemma {:induction false} NextMarkIsNext<T>(raw: seq<T>, mark: seq<T>, from: nat)
    requires from <= |raw| && mark != []
    ensures var r := NextMark(raw, mark, from);
      && (r.Some? ==> OccursAt(raw, mark, r.value) && forall j :: from <= j < r.value ==> !OccursAt(raw, mark, j))
      && (r.None? ==> forall j :: from <= j ==> !OccursAt(raw, mark, j))
    decreases |raw| - from
  {
    if !OccursAt(raw, mark, from) && from < |raw| {
      NextMarkIsNext(raw, mark, from + 1);
    }
  }

  /** The text cut before every mark from position `from` on. */
  function SplitFrom<T(==)>(raw: seq<T>, mark: seq<T>, last: nat, from: nat): (ss: seq<seq<T>>)
    requires last <= from <= |raw| && mark != []
    ensures |ss| >= 1
    decreases |raw| - from
  {
    match NextMark(raw, mark, from)
    case None => [raw[last..]]
    case Some(i) => [raw[last..i]] + SplitFrom(raw, mark, i, i + |mark|)
  }

  function Sections(raw: seq<byte>): seq<seq<byte>> {
    SplitFrom(raw, HEADING, 0, 0)
  }

  /** The nearest character boundary at or before `limit`. */
  function CutPoint(s: seq<byte>, limit: nat): (e: nat)
    ensures e <= limit && Boundary(s, e)
    ensures forall j :: e < j <= limit ==> !Boundary(s, j)
  {
    if Boundary(s, limit) then limit else CutPoint(s, limit - 1)
  }

  function Emit(s: seq<byte>, budget: nat, marker: seq<byte>): seq<byte> {
    if |s| <= budget then s else s[..CutPoint(s, budget)] + marker
  }

  function EmitAll(ss: seq<seq<byte>>, budget: nat, marker: seq<byte>): seq<byte>
    decreases |ss|
  {
    if ss == [] then [] else Emit(ss[0], budget, marker) + EmitAll(ss[1..], budget, marker)
  }

  function Budget(raw: seq<byte>, tokenCap: nat): nat {
    tokenCap * 4 / |Sections(raw)|
  }

  function Capped(raw: seq<byte>, tokenCap: nat): seq<byte> {
    if |raw| <= tokenCap * 4 then raw else EmitAll(Sections(raw), Budget(raw, tokenCap), MARKER)
  }

  lemma {:induction false} SplitLast<T>(raw: seq<T>, mark: seq<T>, last: nat, from: nat)
    requires last <= from <= |raw| && mark != [] && NextMark(raw, mark, from).None?
    ensures SplitFrom(raw, mark, last, from) == [raw[last..]]
  {
  }

  lemma {:induction false} Regroup<T>(a: seq<T>, x: T, b: seq<T>)
    ensures a + ([x] + b) == a + [x] + b
  {
  }

  lemma {:induction false} SplitNext<T>(raw: seq<T>, mark: seq<T>, last: nat, from: nat, i: nat)
    requires last <= from <= |raw| && mark != [] && NextMark(raw, mark, from) == Some(i)
    ensures from <= i && i + |mark| <= |raw|
    ensures SplitFrom(raw, mark, last, from) == [raw[last..i]] + SplitFrom(raw, mark, i, i + |mark|)
  {
  }

  lemma {:induction false} SplitStep<T>(front: seq<seq<T>>, raw: seq<T>, mark: seq<T>, last: nat, from: nat, i: nat)
    requires last <= from <= |raw| && mark != [] && NextMark(raw, mark, from) == Some(i)
    ensures from <= i && i + |mark| <= |raw|
    ensures front + SplitFrom(raw, mark, last, from) == front + [raw[last..i]] + SplitFrom(raw, mark, i, i + |mark|)
  {
    SplitNext(raw, mark, last, from, i);
    Regroup(front, raw[last..i], SplitFrom(raw, mark, i, i + |mark|));
  }

  method SplitSections<T(==)>(raw: seq<T>, mark: seq<T>) returns (sections: seq<seq<T>>)
    requires mark != []
    ensures sections == SplitFrom(raw, mark, 0, 0)
  {
    sections := [];
    var last, from := 0, 0;
    var next := NextMark(raw, mark, from);
    ghost var goal := SplitFrom(raw, mark, last, from);
    while next.Some?
      invariant 0 <= last <= from <= |raw| && next == NextMark(raw, mark, from)
      invariant sections + SplitFrom(raw, mark, last, from) == goal
      decreases |raw| - from
    {
      var i := next.value;
      SplitStep(sections, raw, mark, last, from, i);
      sections := sections + [raw[last..i]];
      last, from := i, i + |mark|;
      next := NextMark(raw, mark, from);
    }
    SplitLast(raw, mark, last, from);
    sections := sections + [raw[last..]];
  }

  method EmitSection(s: seq<byte>, perSection: nat, marker: seq<byte>) returns (out: seq<byte>)
    ensures out == Emit(s, perSection, marker)
  {
    if |s| <= perSection {
      return s;
    }
    var end := perSection;
    while end > 0 && !Boundary(s, end)
      invariant 0 <= end <= perSection && CutPoint(s, end) == CutPoint(s, perSection)
    {
      end := end - 1;
    }
    out := s[..end];
    out := out + marker;
  }

  method EmitSections(sections: seq<seq<byte>>, perSection: nat, marker: seq<byte>) returns (out: seq<byte>)
    ensures out == EmitAll(sections, perSection, marker)
  {
    out := [];
    for k := 0 to |sections|
      invariant out + EmitAll(sections[k..], perSection, marker) == EmitAll(sections, perSection, marker)
    {
      assert sections[k..][0] == sections[k] && sections[k..][1..] == sections[k + 1..];
      var piece := EmitSection(sections[k], perSection, marker);
      out := out + piece;
    }
  }

  method ApplyTokenCap(raw: seq<byte>, tokenCap: nat) returns (out: seq<byte>)
    ensures out == Capped(raw, tokenCap)
  {
    var charCap := tokenCap * 4;
    if |raw| <= charCap {
      return raw;
    }
    var sections := SplitSections(raw, HEADING);
    var perSection := charCap / |sections|;
    out := EmitSections(sections, perSection, MARKER);
  }

  // ---------- the sections ----------

  function Concat(ss: seq<seq<byte>>): seq<byte>
    decreases |ss|
  {
    if ss == [] then [] else ss[0] + Concat(ss[1..])
  }

  /** No mark but the one a section starts with. */
  ghost predicate NoInnerMark(s: seq<byte>, mark: seq<byte>) {
    forall j :: 0 < j ==> !OccursAt(s, mark, j)
  }

  /** A mark whose first byte occurs nowhere else in it cannot overlap itself. */
  ghost predicate NoOverlap(mark: seq<byte>) {
    mark != [] && forall j :: 0 < j < |mark| ==> mark[j] != mark[0]
  }

  lemma {:induction false} MarksDoNotOverlap(raw: seq<byte>, mark: seq<byte>, i: nat, j: nat)
    requires NoOverlap(mark) && OccursAt(raw, mark, i) && i < j < i + |mark|
    ensures !OccursAt(raw, mark, j)
  {
    assert raw[j] == raw[i..i + |mark|][j - i];
    if j + |mark| <= |raw| {
      assert raw[j..j + |mark|][0] == raw[j];
    }
  }

  lemma {:induction false} SliceHasNoMark(raw: seq<byte>, mark: seq<byte>, a: nat, b: nat)
    requires a <= b <= |raw| && forall j :: a < j < b ==> !OccursAt(raw, mark, j)
    requires mark != []
    ensures NoInnerMark(raw[a..b], mark)
  {
    forall j | 0 < j && j + |mark| <= b - a ensures !OccursAt(raw[a..b], mark, j) {
      SliceOfSlice(raw, a, b, j, j + |mark|);
      assert !OccursAt(raw, mark, a + j);
    }
  }

  ghost predicate NoMarkBetween(raw: seq<byte>, mark: seq<byte>, a: nat, b: nat) {
    forall j :: a < j < b ==> !OccursAt(raw, mark, j)
  }

  lemma {:induction false} BehindMark(raw: seq<byte>, mark: seq<byte>, i: nat)
    requires NoOverlap(mark) && OccursAt(raw, mark, i)
    ensures NoMarkBetween(raw, mark, i, i + |mark|)
  {
    forall j | i < j < i + |mark| ensures !OccursAt(raw, mark, j) {
      MarksDoNotOverlap(raw, mark, i, j);
    }
  }

  lemma {:induction false} UpToNextMark(raw: seq<byte>, mark: seq<byte>, last: nat, from: nat, end: nat)
    requires last <= from <= |raw| && mark != [] && NoMarkBetween(raw, mark, last, from)
    requires var found := NextMark(raw, mark, from); end == if found.Some? then found.value else |raw|
    ensures last <= end <= |raw| && NoInnerMark(raw[last..end], mark) && raw[last..] == raw[last..end] + raw[end..]
  {
    NextMarkIsNext(raw, mark, from);
    SliceHasNoMark(raw, mark, last, end);
  }

  lemma {:induction false} PrependSection(s: seq<byte>, rest: seq<seq<byte>>, mark: seq<byte>)
    requires NoInnerMark(s, mark) && forall k :: 0 <= k < |rest| ==> NoInnerMark(rest[k], mark)
    ensures Concat([s] + rest) == s + Concat(rest)
    ensures forall k :: 0 <= k < |[s] + rest| ==> NoInnerMark(([s] + rest)[k], mark)
  {
    assert ([s] + rest)[1..] == rest;
  }

  /** Cutting before every mark loses nothing and leaves no mark inside a section. */
  lemma {:induction false} SectionsAreTheText(raw: seq<byte>, mark: seq<byte>, last: nat, from: nat)
    requires last <= from <= |raw| && NoOverlap(mark) && NoMarkBetween(raw, mark, last, from)
    ensures var ss := SplitFrom(raw, mark, last, from);
      Concat(ss) == raw[last..] && forall k :: 0 <= k < |ss| ==> NoInnerMark(ss[k], mark)
    decreases |raw| - from
  {
    NextMarkIsNext(raw, mark, from);
    var found := NextMark(raw, mark, from);
    if found.None? {
      UpToNextMark(raw, mark, last, from, |raw|);
      SplitLast(raw, mark, last, from);
      LastSection(raw, mark, last);
    } else {
      var i := found.value;
      UpToNextMark(raw, mark, last, from, i);
      BehindMark(raw, mark, i);
      SectionsAreTheText(raw, mark, i, i + |mark|);
      PrependSection(raw[last..i], SplitFrom(raw, mark, i, i + |mark|), mark);
      SplitNext(raw, mark, last, from, i);
    }
  }

  lemma {:induction false} LastSection(raw: seq<byte>, mark: seq<byte>, last: nat)
    requires last <= |raw| && NoInnerMark(raw[last..|raw|], mark)
    ensures Concat([raw[last..]]) == raw[last..] && NoInnerMark([raw[last..]][0], mark)
  {
    assert raw[last..|raw|] == raw[last..];
    assert [raw[last..]][1..] == [];
  }

  /** Cutting happens nowhere but before a mark. */
  lemma {:induction false} SectionsStartWithMarks(raw: seq<byte>, mark: seq<byte>, last: nat, from: nat)
    requires last <= from <= |raw| && mark != []
    requires OccursAt(raw, mark, last) && last + |mark| <= from
    ensures forall k :: 0 <= k < |SplitFrom(raw, mark, last, from)| ==> mark <= SplitFrom(raw, mark, last, from)[k]
    decreases |raw| - from
  {
    NextMarkIsNext(raw, mark, from);
    var found := NextMark(raw, mark, from);
    var end := if found.Some? then found.value else |raw|;
    SliceOfSlice(raw, last, end, 0, |mark|);
    if found.Some? {
      SectionsStartWithMarks(raw, mark, end, end + |mark|);
    } else {
      assert raw[last..] == raw[last..end];
    }
  }

  /** The sections of a text are its pieces between headings: put together they are
      the text, all but the first begin with a heading, and none holds another. */
  lemma {:induction false} SectionsSplitAtHeadings(raw: seq<byte>)
    ensures var ss := Sections(raw);
      && Concat(ss) == raw
      && (forall k :: 0 <= k < |ss| ==> NoInnerMark(ss[k], HEADING))
      && (forall k :: 1 <= k < |ss| ==> HEADING <= ss[k])
  {
    assert raw[0..] == raw;
    SectionsAreTheText(raw, HEADING, 0, 0);
    NextMarkIsNext(raw, HEADING, 0);
    var found := NextMark(raw, HEADING, 0);
    if found.Some? {
      var i, mark := found.value, HEADING;
      SectionsStartWithMarks(raw, mark, i, i + |mark|);
      var later := SplitFrom(raw, mark, i, i + |mark|);
      assert Sections(raw) == [raw[0..i]] + later;
    }
  }

  // ---------- character boundaries ----------

  /** Within a valid text a boundary is at most three bytes back. */
  lemma {:induction false} BoundaryIsNear(s: seq<byte>, limit: nat)
    requires Utf8(s) && limit <= |s|
    ensures limit <= CutPoint(s, limit) + 3
    decreases |s|
  {
    if s != [] {
      var n := CharLength(s[0]);
      if limit >= n {
        BoundaryIsNear(s[n..], limit - n);
        var e := CutPoint(s[n..], limit - n);
        assert e > 0 ==> e == |s[n..]| || s[n..][e] == s[n + e];
        assert e == 0 && n < |s| ==> CharLength(s[n..][0]) > 0 && s[n..][0] == s[n];
        assert Boundary(s, n + e);
      }
    }
  }

  lemma {:induction false} FirstCharacterWhole(s: seq<byte>, e: nat)
    requires Utf8(s) && s != [] && 0 < e <= |s| && Boundary(s, e)
    ensures 0 < CharLength(s[0]) <= e && Boundary(s[CharLength(s[0])..], e - CharLength(s[0]))
  {
    var n := CharLength(s[0]);
    assert forall j :: 1 <= j < n ==> Continues(s[j]);
    assert e < |s| ==> s[n..][e - n] == s[e];
  }

  lemma {:induction false} FirstCharacterStays(s: seq<byte>, e: nat)
    requires Utf8(s) && s != [] && 0 < CharLength(s[0]) <= e <= |s|
    requires var n := CharLength(s[0]); Utf8(s[n..][..e - n]) && Utf8(s[n..][e - n..])
    ensures Utf8(s[..e]) && Utf8(s[e..])
  {
    var n := CharLength(s[0]);
    var front, back := s[..e], s[e..];
    assert front[n..] == s[n..][..e - n] && back == s[n..][e - n..];
    assert forall j :: 0 <= j < n ==> front[j] == s[j];
    FirstThenRest(front, n);
  }

  lemma {:induction false} FirstThenRest(s: seq<byte>, n: nat)
    requires s != [] && n == CharLength(s[0]) && 0 < n <= |s| && (forall j :: 1 <= j < n ==> Continues(s[j]))
    requires (n > 1 ==> SecondOk(s[0], s[1])) && Utf8(s[n..])
    ensures Utf8(s)
  {
  }

  /** A valid text cut at a boundary gives two valid texts. */
  lemma {:induction false} CutIsValid(s: seq<byte>, e: nat)
    requires Utf8(s) && e <= |s| && Boundary(s, e)
    ensures Utf8(s[..e]) && Utf8(s[e..])
    decreases |s|
  {
    if s != [] && e > 0 {
      var n := CharLength(s[0]);
      FirstCharacterWhole(s, e);
      CutIsValid(s[n..], e - n);
      FirstCharacterStays(s, e);
    } else {
      assert s[e..] == s;
    }
  }

  lemma {:induction false} ValidAppend(a: seq<byte>, b: seq<byte>)
    requires Utf8(a) && Utf8(b)
    ensures Utf8(a + b)
    decreases |a|
  {
    if a == [] {
      assert a + b == b;
    } else {
      var n := CharLength(a[0]);
      assert (a + b)[n..] == a[n..] + b;
      ValidAppend(a[n..], b);
    }
  }

  lemma {:induction false} AsciiIsValid(s: seq<byte>)
    requires forall i :: 0 <= i < |s| ==> s[i] < 0x80
    ensures Utf8(s)
    decreases |s|
  {
    if s != [] {
      AsciiIsValid(s[1..]);
    }
  }

  lemma {:induction false} MarkerIsValid()
    ensures Utf8(MARKER) && |MARKER| > 3
  {
    var a, dash, b := Ascii("\n[TRUNCATED "), [0xE2, 0x80, 0x94], Ascii(" call get <frame-id> for full content]\n");
    AsciiIsValid(a);
    AsciiIsValid(b);
    assert dash[3..] == [];
    assert Utf8(dash);
    ValidAppend(a, dash);
    ValidAppend(a + dash, b);
  }

  predicate AllUtf8(ss: seq<seq<byte>>) {
    forall k :: 0 <= k < |ss| ==> Utf8(ss[k])
  }

  lemma {:induction false} SectionsAreValid(raw: seq<byte>, mark: seq<byte>, last: nat, from: nat)
    requires last <= from <= |raw| && Utf8(raw[last..])
    requires mark != [] && mark[0] < 0x80
    ensures AllUtf8(SplitFrom(raw, mark, last, from))
    decreases |raw| - from
  {
    NextMarkIsNext(raw, mark, from);
    var found := NextMark(raw, mark, from);
    if found.Some? {
      var i := found.value;
      var behind: nat := i + |mark|;
      CutBefore(raw, last, i) by {
        assert raw[i] == raw[i..i + |mark|][0];
      }
      SectionsAreValid(raw, mark, i, behind);
      NextIsValid(raw, mark, last, from, i, behind);
    } else {
      SplitLast(raw, mark, last, from);
    }
  }

  lemma {:induction false} NextIsValid(raw: seq<byte>, mark: seq<byte>, last: nat, from: nat, i: nat, behind: nat)
    requires last <= from <= |raw| && mark != [] && NextMark(raw, mark, from) == Some(i) && behind == i + |mark|
    requires from <= i && behind <= |raw| && Utf8(raw[last..i]) && AllUtf8(SplitFrom(raw, mark, i, behind))
    ensures AllUtf8(SplitFrom(raw, mark, last, from))
  {
    SplitNext(raw, mark, last, from, i);
    ValidFront(raw[last..i], SplitFrom(raw, mark, i, behind));
  }

  lemma {:induction false} ValidFront(s: seq<byte>, rest: seq<seq<byte>>)
    requires Utf8(s) && AllUtf8(rest)
    ensures AllUtf8([s] + rest)
  {
  }

  lemma {:induction false} CutBefore(raw: seq<byte>, a: nat, b: nat)
    requires a <= b < |raw| && Utf8(raw[a..]) && raw[b] < 0x80
    ensures Utf8(raw[a..b]) && Utf8(raw[b..])
  {
    var t := raw[a..];
    assert t[b - a] == raw[b];
    CutIsValid(t, b - a);
    assert t[..b - a] == raw[a..b] && t[b - a..] == raw[b..];
  }

  // ---------- what the cap guarantees ----------

  /** A section comes out whole, or as a prefix cut between characters at most three
      bytes short of its budget, with the marker behind it. */
  lemma {:induction false} EmitIsPrefix(s: seq<byte>, budget: nat, marker: seq<byte>)
    requires Utf8(s) && Utf8(marker)
    ensures Utf8(Emit(s, budget, marker))
    ensures |s| <= budget ==> Emit(s, budget, marker) == s
    ensures |s| > budget ==>
      exists e: nat :: e <= budget <= e + 3 && Boundary(s, e) && Utf8(s[..e]) &&
        Emit(s, budget, marker) == s[..e] + marker
  {
    if |s| > budget {
      var e := CutPoint(s, budget);
      BoundaryIsNear(s, budget);
      CutIsValid(s, e);
      ValidAppend(s[..e], marker);
    }
  }

  function CutSections(ss: seq<seq<byte>>, budget: nat): nat
    decreases |ss|
  {
    if ss == [] then 0 else (if |ss[0]| > budget then 1 else 0) + CutSections(ss[1..], budget)
  }

  lemma {:induction false} EmitAllValid(ss: seq<seq<byte>>, budget: nat, marker: seq<byte>)
    requires Utf8(marker) && AllUtf8(ss)
    ensures Utf8(EmitAll(ss, budget, marker))
    decreases |ss|
  {
    if ss != [] {
      EmitIsPrefix(ss[0], budget, marker);
      EmitAllValid(ss[1..], budget, marker);
      ValidAppend(Emit(ss[0], budget, marker), EmitAll(ss[1..], budget, marker));
    }
  }

  /** The bytes the sections leave unused of their budgets. */
  function Unused(ss: seq<seq<byte>>, budget: nat): nat
    decreases |ss|
  {
    if ss == [] then 0
    else budget - (if |ss[0]| <= budget then |ss[0]| else CutPoint(ss[0], budget)) + Unused(ss[1..], budget)
  }

  /** The output makes up, with what is unused, all budgets and a marker for every cut section. */
  lemma {:induction false} EmitAllExactly(ss: seq<seq<byte>>, budget: nat, marker: seq<byte>)
    ensures |EmitAll(ss, budget, marker)| + Unused(ss, budget) == |ss| * budget + CutSections(ss, budget) * |marker|
    decreases |ss|
  {
    if ss != [] {
      var c := CutSections(ss[1..], budget);
      EmitAllExactly(ss[1..], budget, marker);
      OneMore(|ss| - 1, budget);
      OneMore(c, |marker|);
    }
  }

  lemma {:induction false} OneMore(n: nat, b: nat)
    ensures (n + 1) * b == n * b + b
  {
  }

  lemma {:induction false} ShareAndRest(total: nat, parts: nat)
    requires parts > 0
    ensures parts * (total / parts) + total % parts == total && total % parts < parts
  {
  }

  /** Whatever is cut, the output is valid UTF-8 again. */
  lemma {:induction false} CapKeepsUtf8(raw: seq<byte>, tokenCap: nat)
    requires Utf8(raw)
    ensures Utf8(Capped(raw, tokenCap))
  {
    var ss, marker := Sections(raw), MARKER;
    assert raw[0..] == raw;
    SectionsAreValid(raw, HEADING, 0, 0);
    MarkerIsValid();
    EmitAllValid(ss, Budget(raw, tokenCap), marker);
  }

  /** The output is the input when it fits, and otherwise at most four bytes per
      token plus one marker for every cut section. */
  lemma {:induction false} CapBounds(raw: seq<byte>, tokenCap: nat)
    ensures |raw| <= tokenCap * 4 ==> Capped(raw, tokenCap) == raw
    ensures |Capped(raw, tokenCap)| <= tokenCap * 4 + CutSections(Sections(raw), Budget(raw, tokenCap)) * |MARKER|
  {
    var marker := MARKER;
    EmitAllExactly(Sections(raw), Budget(raw, tokenCap), marker);
    ShareAndRest(tokenCap * 4, |Sections(raw)|);
  }

  /** A section whole, or a prefix of it cut at the last boundary within the budget, at most three bytes
      below it, and the marker. */
  ghost predicate PieceOf(p: seq<byte>, s: seq<byte>, budget: nat, marker: seq<byte>) {
    if |s| <= budget then p == s
    else exists e: nat ::
      && e <= budget <= e + 3 && Boundary(s, e) && (forall j :: e < j <= budget ==> !Boundary(s, j))
      && p == s[..e] + marker
  }

  lemma {:induction false} EmitsInOrder(ss: seq<seq<byte>>, budget: nat, marker: seq<byte>) returns (ps: seq<seq<byte>>)
    requires AllUtf8(ss)
    ensures |ps| == |ss| && EmitAll(ss, budget, marker) == Concat(ps)
    ensures forall k :: 0 <= k < |ss| ==> PieceOf(ps[k], ss[k], budget, marker)
    decreases |ss|
  {
    ps := [];
    if ss != [] {
      var p := Emit(ss[0], budget, marker);
      var later := EmitsInOrder(ss[1..], budget, marker);
      if |ss[0]| > budget {
        BoundaryIsNear(ss[0], budget);
      }
      ps := [p] + later;
      assert ps[1..] == later;
      forall k | 0 <= k < |ss| ensures PieceOf(ps[k], ss[k], budget, marker) {
        assert k > 0 ==> PieceOf(later[k - 1], ss[1..][k - 1], budget, marker);
      }
    }
  }

  /** A text over the cap comes out as its sections, one behind the other in their order, each whole or cut to
      an equal share of the cap. */
  lemma {:induction false} CapIsPieces(raw: seq<byte>, tokenCap: nat) returns (ps: seq<seq<byte>>, budget: nat)
    requires Utf8(raw) && |raw| > tokenCap * 4
    ensures var ss := Sections(raw);
      && |ps| == |ss| && Capped(raw, tokenCap) == Concat(ps)
      && |ss| * budget <= tokenCap * 4 < |ss| * budget + |ss|
      && forall k :: 0 <= k < |ss| ==> PieceOf(ps[k], ss[k], budget, MARKER)
  {
    var marker := MARKER;
    assert raw[0..] == raw;
    SectionsAreValid(raw, HEADING, 0, 0);
    budget := Budget(raw, tokenCap);
    ShareAndRest(tokenCap * 4, |Sections(raw)|);
    ps := EmitsInOrder(Sections(raw), budget, marker);
  }

  /** A section that is cut leaves at most three bytes of its budget unused. */
  lemma {:induction false} CutLeavesLittle(ss: seq<seq<byte>>, budget: nat)
    requires forall k :: 0 <= k < |ss| ==> Utf8(ss[k]) && |ss[k]| > budget
    ensures CutSections(ss, budget) == |ss| && Unused(ss, budget) <= 3 * |ss|
    decreases |ss|
  {
    if ss != [] {
      BoundaryIsNear(ss[0], budget);
      CutLeavesLittle(ss[1..], budget);
    }
  }

  /** The cap is not a cap on the whole output: it is longer than four bytes per token exactly if the
      markers take more bytes than the sections leave unused of the cap. */
  lemma {:induction false} MarkerExceedsCap(raw: seq<byte>, tokenCap: nat)
    requires |raw| > tokenCap * 4
    ensures var ss, budget := Sections(raw), Budget(raw, tokenCap);
      |Capped(raw, tokenCap)| > tokenCap * 4 <==>
      CutSections(ss, budget) * |MARKER| > Unused(ss, budget) + tokenCap * 4 % |ss|
  {
    var marker := MARKER;
    EmitAllExactly(Sections(raw), Budget(raw, tokenCap), marker);
    ShareAndRest(tokenCap * 4, |Sections(raw)|);
  }

  /** So it always is when every section is over its budget, as a single section over the cap is. */
  lemma {:induction false} AllCutExceedsCap(raw: seq<byte>, tokenCap: nat)
    requires Utf8(raw) && |raw| > tokenCap * 4
    requires forall k :: 0 <= k < |Sections(raw)| ==> |Sections(raw)[k]| > Budget(raw, tokenCap)
    ensures |Capped(raw, tokenCap)| > tokenCap * 4
  {
    var ss, budget, marker := Sections(raw), Budget(raw, tokenCap), MARKER;
    assert raw[0..] == raw;
    SectionsAreValid(raw, HEADING, 0, 0);
    MarkerIsValid();
    CutLeavesLittle(ss, budget);
    EmitAllExactly(ss, budget, marker);
    ShareAndRest(tokenCap * 4, |ss|);
    FourEach(|ss|, |marker|);
  }

  lemma {:induction false} FourEach(n: nat, m: nat)
    requires m >= 4
    ensures n * m >= 4 * n
  {
  }
}
