/** Path normalisation of the registry fitter: `normalise` and
    `normalise_path_params_to_camel` in `crates/said-forge/src/fitter.rs`. */
module PathShapes {
  import opened Text
  import opened ProcMatcher

  /** A segment in braces. */
  predicate IsParam(seg: string) {
    |seg| >= 2 && seg[0] == '{' && seg[|seg| - 1] == '}'
  }

  function Segments(path: string): seq<string> {
    NonEmpty(Split(path, '/'))
  }

  function ShapeOf(segs: seq<string>): seq<string> {
    if segs == [] then []
    else [if IsParam(segs[0]) then "{x}" else Lower(segs[0])] + ShapeOf(segs[1..])
  }

  /** A path with its parameters made alike and the rest in lower case. */
  function Shape(path: string): seq<string> {
    ShapeOf(Segments(path))
  }

  // ---------- camel-casing of parameters ----------

  function CamelInner(s: string, upperNext: bool): string {
    if s == [] then []
    else if s[0] == '_' then CamelInner(s[1..], true)
    else [if upperNext then UpperChar(s[0]) else s[0]] + CamelInner(s[1..], false)
  }

  function CamelSegment(seg: string): string {
    if IsParam(seg) then "{" + CamelInner(seg[1..|seg| - 1], false) + "}" else seg
  }

  /** The text after one more segment: a slash before it unless one is there. */
  function PushSegment(out: string, seg: string): string {
    if seg == [] then out + "/"
    else (if out == [] || out[|out| - 1] != '/' then out + "/" else out) + CamelSegment(seg)
  }

  function PushAll(out: string, segs: seq<string>): string
    decreases |segs|
  {
    if segs == [] then out else PushAll(PushSegment(out, segs[0]), segs[1..])
  }

  /** No slash at the end that the path did not have. */
  function WithoutAddedSlash(path: string, out: string): string {
    if !EndsWith(path, "/") && EndsWith(out, "/") && |out| > 1 then out[..|out| - 1] else out
  }

  function CamelParams(path: string): string {
    WithoutAddedSlash(path, PushAll([], Split(path, '/')))
  }

  lemma {:induction false} PushStep(out: string, segs: seq<string>, i: nat)
    requires i < |segs|
    ensures PushAll(out, segs[i..]) == PushAll(PushSegment(out, segs[i]), segs[i + 1..])
  {
    assert segs[i..][0] == segs[i] && segs[i..][1..] == segs[i + 1..];
  }

  method PushSegments(segs: seq<string>) returns (out: string)
    ensures out == PushAll([], segs)
  {
    out := [];
    ghost var goal := PushAll(out, segs);
    assert segs[0..] == segs;
    for i := 0 to |segs|
      invariant PushAll(out, segs[i..]) == goal
    {
      var seg := segs[i];
      PushStep(out, segs, i);
      if seg == [] {
        out := out + "/";
        continue;
      }
      if out == [] || out[|out| - 1] != '/' {
        out := out + "/";
      }
      out := out + CamelSegment(seg);
    }
  }

  method NormalisePathParamsToCamel(path: string) returns (out: string)
    ensures out == CamelParams(path)
  {
    out := PushSegments(Split(path, '/'));
    if !EndsWith(path, "/") && EndsWith(out, "/") && |out| > 1 {
      out := out[..|out| - 1];
    }
  }

  // ---------- casing does not change the shape ----------

  lemma {:induction false} NonEmptyAppend(a: seq<string>, b: seq<string>)
    ensures NonEmpty(a + b) == NonEmpty(a) + NonEmpty(b)
    decreases |a|
  {
    if a == [] {
      assert a + b == b;
    } else {
      var x := if a[0] != [] then [a[0]] else [];
      assert (a + b)[1..] == a[1..] + b;
      NonEmptyAppend(a[1..], b);
      assert x + (NonEmpty(a[1..]) + NonEmpty(b)) == x + NonEmpty(a[1..]) + NonEmpty(b);
    }
  }

  /** One more segment behind a slash. */
  lemma {:induction false} SegmentsPush(a: string, seg: string)
    requires '/' !in seg
    ensures Segments(a + "/" + seg) == Segments(a) + if seg == [] then [] else [seg]
  {
    var parts := Split(a, '/');
    JoinAppend(parts, [seg], '/');
    SplitJoin(parts + [seg], '/');
    assert a + ['/'] + seg == a + "/" + seg;
    NonEmptyAppend(parts, [seg]);
    assert [seg][1..] == [];
  }

  lemma {:induction false} TrailingSlash(a: string)
    ensures Segments(a + "/") == Segments(a)
  {
    SegmentsPush(a, []);
    assert a + "/" + [] == a + "/";
  }

  lemma {:induction false} CamelInnerKeepsSlashesOut(s: string, upperNext: bool)
    requires '/' !in s
    ensures '/' !in CamelInner(s, upperNext)
    decreases |s|
  {
    if s != [] {
      assert s[0] in s && forall c :: c in s[1..] ==> c in s;
      CamelInnerKeepsSlashesOut(s[1..], s[0] == '_');
    }
  }

  lemma {:induction false} CamelSegmentIsSegment(seg: string)
    requires '/' !in seg && seg != []
    ensures '/' !in CamelSegment(seg) && CamelSegment(seg) != [] && (IsParam(CamelSegment(seg)) <==> IsParam(seg))
  {
    if IsParam(seg) {
      var inner := seg[1..|seg| - 1];
      assert forall c :: c in inner ==> c in seg;
      CamelInnerKeepsSlashesOut(inner, false);
    }
  }

  /** Every segment with its parameter in camel case. */
  function CamelAll(segs: seq<string>): seq<string> {
    if segs == [] then [] else [CamelSegment(segs[0])] + CamelAll(segs[1..])
  }

  lemma {:induction false} CamelAllAppend(a: seq<string>, b: seq<string>)
    ensures CamelAll(a + b) == CamelAll(a) + CamelAll(b)
    decreases |a|
  {
    if a == [] {
      assert a + b == b;
    } else {
      assert (a + b)[1..] == a[1..] + b;
      CamelAllAppend(a[1..], b);
    }
  }

  lemma {:induction false} PushAddsSegment(out: string, seg: string)
    requires '/' !in seg
    ensures Segments(PushSegment(out, seg)) == Segments(out) + CamelAll(NonEmpty([seg]))
  {
    assert [seg][1..] == [];
    if seg == [] {
      TrailingSlash(out);
    } else {
      var c := CamelSegment(seg);
      CamelSegmentIsSegment(seg);
      var a := if out == [] || out[|out| - 1] != '/' then out else out[..|out| - 1];
      if a != out {
        assert out == a + "/";
        TrailingSlash(a);
      }
      assert PushSegment(out, seg) == a + "/" + c;
      SegmentsPush(a, c);
      assert NonEmpty([seg]) == [seg] && CamelAll([seg]) == [c];
    }
  }

  lemma {:induction false} Chain<T>(start: seq<T>, middle: seq<T>, end: seq<T>, a: seq<T>, b: seq<T>, all: seq<T>)
    requires middle == start + a && end == middle + b && all == a + b
    ensures end == start + all
  {
    assert (start + a) + b == start + (a + b);
  }

  lemma {:induction false} FirstCamel(segs: seq<string>)
    requires segs != []
    ensures CamelAll(NonEmpty(segs)) == CamelAll(NonEmpty([segs[0]])) + CamelAll(NonEmpty(segs[1..]))
  {
    NonEmptyAppend([segs[0]], segs[1..]);
    assert segs == [segs[0]] + segs[1..];
    CamelAllAppend(NonEmpty([segs[0]]), NonEmpty(segs[1..]));
  }

  lemma {:induction false} PushAllAddsSegments(out: string, segs: seq<string>)
    requires forall i :: 0 <= i < |segs| ==> '/' !in segs[i]
    ensures Segments(PushAll(out, segs)) == Segments(out) + CamelAll(NonEmpty(segs))
    decreases |segs|
  {
    if segs == [] {
      assert NonEmpty(segs) == [] && CamelAll(NonEmpty(segs)) == [];
    } else {
      var next, rest := PushSegment(out, segs[0]), segs[1..];
      PushAddsSegment(out, segs[0]);
      PushAllAddsSegments(next, rest);
      FirstCamel(segs);
      Chain(Segments(out), Segments(next), Segments(PushAll(next, rest)),
            CamelAll(NonEmpty([segs[0]])), CamelAll(NonEmpty(rest)), CamelAll(NonEmpty(segs)));
    }
  }

  lemma {:induction false} DropTrailingSlash(out: string)
    requires EndsWith(out, "/")
    ensures Segments(out[..|out| - 1]) == Segments(out)
  {
    var a := out[..|out| - 1];
    assert out[|out| - 1..][0] == '/';
    assert out == a + "/";
    TrailingSlash(a);
  }

  lemma {:induction false} SlashAddsNothing(path: string, out: string)
    ensures Segments(WithoutAddedSlash(path, out)) == Segments(out)
  {
    if EndsWith(out, "/") {
      DropTrailingSlash(out);
    }
  }

  lemma {:induction false} NoSegments(s: string)
    requires s == []
    ensures Segments(s) == []
  {
    assert Split(s, '/') == [[]];
    assert NonEmpty([[]]) == [];
  }

  lemma {:induction false} CamelIsAll(path: string)
    ensures Segments(CamelParams(path)) == CamelAll(Segments(path))
  {
    var segs := Split(path, '/');
    SlashAddsNothing(path, PushAll([], segs));
    PushAllAddsSegments([], segs);
    NoSegments([]);
    assert [] + CamelAll(NonEmpty(segs)) == CamelAll(NonEmpty(segs));
  }

  lemma {:induction false} CamelAllAt(segs: seq<string>)
    ensures |CamelAll(segs)| == |segs| && forall i :: 0 <= i < |segs| ==> CamelAll(segs)[i] == CamelSegment(segs[i])
    decreases |segs|
  {
    if segs != [] {
      CamelAllAt(segs[1..]);
    }
  }

  /** What camel case is: the underscores go, a character behind one is in upper case, and all others stay. */
  lemma {:induction false} CamelCaseIs(s: string, upperNext: bool, i: nat)
    requires i < |s| && s[i] != '_'
    ensures |CamelInner(s, upperNext)| == |Remove(s, "_")|
    ensures var k := |Remove(s[..i], "_")|;
      k < |CamelInner(s, upperNext)| &&
      CamelInner(s, upperNext)[k] ==
        if (if i == 0 then upperNext else s[i - 1] == '_') then UpperChar(s[i]) else s[i]
    decreases |s|
  {
    CamelLength(s, upperNext);
    if i > 0 {
      assert s[..i][1..] == s[1..][..i - 1] && s[..i][0] == s[0];
      CamelCaseIs(s[1..], s[0] == '_', i - 1);
    } else {
      assert s[..0] == [];
    }
  }

  /** One text is the other in camel case. */
  ghost predicate IsCamelOf(r: string, s: string) {
    && |r| == |Remove(s, "_")| && '_' !in r
    && forall i :: 0 <= i < |s| && s[i] != '_' ==>
         var k := |Remove(s[..i], "_")|;
         k < |r| && r[k] == if i > 0 && s[i - 1] == '_' then UpperChar(s[i]) else s[i]
  }

  function Inside(seg: string): string
    requires IsParam(seg)
  {
    seg[1..|seg| - 1]
  }

  lemma {:induction false} SegmentIsCamel(seg: string)
    ensures if IsParam(seg) then IsParam(CamelSegment(seg)) && IsCamelOf(Inside(CamelSegment(seg)), Inside(seg))
            else CamelSegment(seg) == seg
  {
    if IsParam(seg) {
      var s := Inside(seg);
      var r := CamelInner(s, false);
      assert CamelSegment(seg) == "{" + r + "}";
      assert Inside(CamelSegment(seg)) == r;
      CamelLength(s, false);
      forall i | 0 <= i < |s| && s[i] != '_'
        ensures |Remove(s[..i], "_")| < |r|
        ensures r[|Remove(s[..i], "_")|] == if i > 0 && s[i - 1] == '_' then UpperChar(s[i]) else s[i]
      {
        CamelCaseIs(s, false, i);
      }
    }
  }

  /** The segments of the rewritten path are those of the path, each parameter in camel case and all others
      as they were. */
  lemma {:induction false} CamelRewritesSegments(path: string)
    ensures var before, after := Segments(path), Segments(CamelParams(path));
      && |after| == |before|
      && forall i :: 0 <= i < |before| ==>
           if IsParam(before[i]) then IsParam(after[i]) && IsCamelOf(Inside(after[i]), Inside(before[i]))
           else after[i] == before[i]
  {
    var before := Segments(path);
    CamelIsAll(path);
    CamelAllAt(before);
    forall i | 0 <= i < |before|
      ensures var c := CamelSegment(before[i]);
        if IsParam(before[i]) then IsParam(c) && IsCamelOf(Inside(c), Inside(before[i])) else c == before[i]
    {
      SegmentIsCamel(before[i]);
    }
  }

  lemma {:induction false} CamelLength(s: string, upperNext: bool)
    ensures |CamelInner(s, upperNext)| == |Remove(s, "_")| && '_' !in CamelInner(s, upperNext)
    decreases |s|
  {
    if s != [] {
      CamelLength(s[1..], s[0] == '_');
    }
  }

  lemma {:induction false} CamelAllKeepsShape(segs: seq<string>)
    requires forall i :: 0 <= i < |segs| ==> '/' !in segs[i] && segs[i] != []
    ensures ShapeOf(CamelAll(segs)) == ShapeOf(segs)
    decreases |segs|
  {
    if segs != [] {
      CamelSegmentIsSegment(segs[0]);
      CamelAllKeepsShape(segs[1..]);
      assert ([CamelSegment(segs[0])] + CamelAll(segs[1..]))[1..] == CamelAll(segs[1..]);
    }
  }

  lemma {:induction false} SegmentsAreWhole(parts: seq<string>)
    requires forall i :: 0 <= i < |parts| ==> '/' !in parts[i]
    ensures forall i :: 0 <= i < |NonEmpty(parts)| ==> '/' !in NonEmpty(parts)[i] && NonEmpty(parts)[i] != []
    decreases |parts|
  {
    if parts != [] {
      SegmentsAreWhole(parts[1..]);
    }
  }

  /** Rewriting the parameters of a path never changes its shape, so the test for an
      operation that is already there is not affected by the casing standard. */
  lemma {:induction false} CamelKeepsShape(path: string)
    ensures Shape(CamelParams(path)) == Shape(path)
  {
    CamelIsAll(path);
    SegmentsAreWhole(Split(path, '/'));
    CamelAllKeepsShape(Segments(path));
  }

  // ---------- case ----------

  lemma {:induction false} LowerTwice(s: string)
    ensures Lower(Lower(s)) == Lower(s)
  {
  }

  function LowerAll(ss: seq<string>): seq<string> {
    if ss == [] then [] else [Lower(ss[0])] + LowerAll(ss[1..])
  }

  /** Lower-casing keeps slashes where they are. */
  lemma {:induction false} SplitLower(s: string)
    ensures Split(Lower(s), '/') == LowerAll(Split(s, '/'))
    decreases |s|
  {
    if s != [] {
      assert Lower(s)[1..] == Lower(s[1..]);
      SplitLower(s[1..]);
      var rest := Split(s[1..], '/');
      assert [LowerChar(s[0])] + Lower(rest[0]) == Lower([s[0]] + rest[0]);
      assert [s[0]] + rest[0] == [s[0]] + rest[0] && ([[s[0]] + rest[0]] + rest[1..])[1..] == rest[1..];
      assert ([[]] + rest)[1..] == rest;
      assert LowerChar(s[0]) == '/' <==> s[0] == '/';
    }
  }

  lemma {:induction false} ShapeCons(p: string, rest: seq<string>)
    ensures ShapeOf([p] + rest) == [if IsParam(p) then "{x}" else Lower(p)] + ShapeOf(rest)
  {
    assert ([p] + rest)[1..] == rest;
  }

  lemma {:induction false} ShapeLower(parts: seq<string>)
    ensures ShapeOf(NonEmpty(LowerAll(parts))) == ShapeOf(NonEmpty(parts))
    decreases |parts|
  {
    if parts != [] {
      var p, rest := parts[0], parts[1..];
      ShapeLower(rest);
      LowerTwice(p);
      assert IsParam(Lower(p)) <==> IsParam(p);
      assert LowerAll(parts)[1..] == LowerAll(rest) && LowerAll(parts)[0] == Lower(p);
      if p == [] {
        assert NonEmpty(parts) == NonEmpty(rest);
        assert NonEmpty(LowerAll(parts)) == NonEmpty(LowerAll(parts)[1..]);
      } else {
        assert NonEmpty(parts) == [p] + NonEmpty(rest);
        assert NonEmpty(LowerAll(parts)) == [Lower(p)] + NonEmpty(LowerAll(parts)[1..]);
        ShapeCons(p, NonEmpty(rest));
        ShapeCons(Lower(p), NonEmpty(LowerAll(rest)));
      }
    }
  }

  /** A path and its lower-case form have the same shape. */
  lemma {:induction false} ShapeIgnoresCase(path: string)
    ensures Shape(Lower(path)) == Shape(path)
  {
    SplitLower(path);
    ShapeLower(Split(path, '/'));
  }
}
