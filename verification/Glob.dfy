/** The path filter's glob matcher: `crates/said-forge/src/filter.rs`, `glob_match`. */
module Glob {
  import opened Text

  // ---------- what a pattern means ----------

  /** The usual meaning of a pattern: `*` stands for any stretch of text, every
      other character for itself. */
  ghost predicate Means(pattern: string, text: string)
    decreases |pattern|
  {
    if pattern == [] then text == []
    else if pattern[0] == '*' then exists k :: 0 <= k <= |text| && Means(pattern[1..], text[k..])
    else text != [] && text[0] == pattern[0] && Means(pattern[1..], text[1..])
  }

  /** The parts after a star, each preceded by a gap, the last one at the end. */
  ghost predicate TailMeans(parts: seq<string>, text: string)
    requires |parts| >= 1
    decreases |parts|
  {
    if |parts| == 1 then EndsWith(text, parts[0])
    else exists k :: OccursAt(text, parts[0], k) && TailMeans(parts[1..], text[k + |parts[0]|..])
  }

  // ---------- the greedy search ----------

  /** The middle and last parts, matched greedily from the left. */
  predicate Greedy(parts: seq<string>, text: string)
    requires |parts| >= 1
    decreases |parts|
  {
    if |parts| == 1 then EndsWith(text, parts[0])
    else
      match Find(text, parts[0])
      case None => false
      case Some(k) => Greedy(parts[1..], text[k + |parts[0]|..])
  }

  predicate Accepts(pattern: string, text: string) {
    var parts := Split(pattern, '*');
    && StartsWith(text, parts[0])
    && (|parts| > 1 ==> Greedy(parts[1..], text[|parts[0]|..]))
  }

  method GlobMatch(pattern: string, text: string) returns (matched: bool)
    ensures matched == Accepts(pattern, text)
  {
    var parts := Split(pattern, '*');
    var cursor: nat := 0;
    for i := 0 to |parts|
      invariant cursor <= |text|
      invariant i == 0 ==> cursor == 0
      invariant 0 < i < |parts| ==> (Accepts(pattern, text) <==> Greedy(parts[i..], text[cursor..]))
      invariant i == |parts| ==> |parts| == 1 && Accepts(pattern, text)
    {
      var part := parts[i];
      if i == 0 {
        if !StartsWith(text[cursor..], part) {
          return false;
        }
        cursor := cursor + |part|;
      } else if i == |parts| - 1 {
        return EndsWith(text[cursor..], part);
      } else {
        match Find(text[cursor..], part)
        case Some(pos) =>
          assert text[cursor..][pos + |part|..] == text[cursor + pos + |part|..];
          assert parts[i..][1..] == parts[i + 1..];
          cursor := cursor + pos + |part|;
        case None =>
          return false;
      }
    }
    return true;
  }

  // ---------- soundness and completeness of the greedy search ----------

  /** More text in front of a match is absorbed by the first gap. */
  lemma {:induction false} TailAbsorbs(parts: seq<string>, text: string, from: nat)
    requires |parts| >= 1 && from <= |text|
    requires TailMeans(parts, text[from..])
    ensures TailMeans(parts, text)
  {
    if |parts| > 1 {
      var k :| OccursAt(text[from..], parts[0], k) && TailMeans(parts[1..], text[from..][k + |parts[0]|..]);
      assert text[from..][k + |parts[0]|..] == text[from + k + |parts[0]|..];
      assert text[from..][k..k + |parts[0]|] == text[from + k..from + k + |parts[0]|];
      assert OccursAt(text, parts[0], from + k);
    }
  }

  /** The exchange argument: whatever occurrence a match uses, the leftmost one does as well. */
  lemma {:induction false} GreedyIsComplete(parts: seq<string>, text: string)
    requires |parts| >= 1
    ensures Greedy(parts, text) <==> TailMeans(parts, text)
    decreases |parts|
  {
    if |parts| > 1 {
      var found := Find(text, parts[0]);
      if found.Some? {
        var rest := text[found.value + |parts[0]|..];
        GreedyIsComplete(parts[1..], rest);
        if TailMeans(parts, text) {
          var k :| OccursAt(text, parts[0], k) && TailMeans(parts[1..], text[k + |parts[0]|..]);
          assert text[k + |parts[0]|..] == rest[k - found.value..];
          TailAbsorbs(parts[1..], rest, k - found.value);
        }
      }
    }
  }

  // ---------- from parts to characters ----------

  /** A literal first part stands for itself. */
  lemma {:induction false} LiteralPrefix(part: string, pattern: string, text: string)
    requires '*' !in part
    ensures Means(part + pattern, text) <==> StartsWith(text, part) && Means(pattern, text[|part|..])
    decreases |part|
  {
    if part == [] {
      assert part + pattern == pattern && text[0..] == text;
    } else {
      assert (part + pattern)[1..] == part[1..] + pattern;
      if text != [] {
        LiteralPrefix(part[1..], pattern, text[1..]);
        assert StartsWith(text, part) <==> text[0] == part[0] && StartsWith(text[1..], part[1..]) by {
          if |part| <= |text| {
            assert text[..|part|] == [text[0]] + text[1..][..|part| - 1];
            assert part == [part[0]] + part[1..];
          }
        }
        if |part| <= |text| {
          assert text[1..][|part| - 1..] == text[|part|..];
        }
      }
    }
  }

  lemma {:induction false} StarLast(part: string, text: string)
    requires '*' !in part
    ensures Means("*" + part, text) <==> EndsWith(text, part)
  {
    var last := |text| - |part|;
    assert ("*" + part)[1..] == part && part + [] == part;
    forall k | 0 <= k <= |text| ensures Means(part, text[k..]) <==> k == last && EndsWith(text, part) {
      LiteralPrefix(part, [], text[k..]);
      if k == last {
        assert text[k..] == text[k..k + |part|];
      }
    }
    if EndsWith(text, part) {
      assert Means(part, text[last..]);
    }
  }

  /** One middle part after a star, wherever it stands. */
  lemma {:induction false} StarMiddle(part: string, pattern: string, text: string, k: nat)
    requires '*' !in part && k <= |text|
    ensures Means(part + pattern, text[k..]) <==> OccursAt(text, part, k) && Means(pattern, text[k + |part|..])
  {
    LiteralPrefix(part, pattern, text[k..]);
    if k + |part| <= |text| {
      assert text[k..][|part|..] == text[k + |part|..];
      assert text[k..][..|part|] == text[k..k + |part|];
    }
  }

  lemma {:induction false} StarStep(parts: seq<string>, text: string, k: nat)
    requires |parts| >= 2 && '*' !in parts[0] && OccursAt(text, parts[0], k)
    requires Means("*" + Join(parts[1..], '*'), text[k + |parts[0]|..])
    ensures Means("*" + Join(parts, '*'), text)
  {
    var rest := "*" + Join(parts[1..], '*');
    StarMiddle(parts[0], rest, text, k);
    assert Means("*" + (parts[0] + rest), text) by {
      assert ("*" + (parts[0] + rest))[1..] == (parts[0] + rest);
    }
    assert Join(parts, '*') == parts[0] + rest;
  }

  lemma {:induction false} StarTailSound(parts: seq<string>, text: string)
    requires |parts| >= 1 && forall i :: 0 <= i < |parts| ==> '*' !in parts[i]
    requires Means("*" + Join(parts, '*'), text)
    ensures TailMeans(parts, text)
    decreases |parts|
  {
    if |parts| == 1 {
      StarLast(parts[0], text);
    } else {
      var after := "*" + Join(parts[1..], '*');
      assert ("*" + Join(parts, '*'))[1..] == parts[0] + after;
      var k :| 0 <= k <= |text| && Means(parts[0] + after, text[k..]);
      StarMiddle(parts[0], after, text, k);
      StarTailSound(parts[1..], text[k + |parts[0]|..]);
    }
  }

  lemma {:induction false} StarTailComplete(parts: seq<string>, text: string)
    requires |parts| >= 1 && forall i :: 0 <= i < |parts| ==> '*' !in parts[i]
    requires TailMeans(parts, text)
    ensures Means("*" + Join(parts, '*'), text)
    decreases |parts|
  {
    if |parts| == 1 {
      StarLast(parts[0], text);
    } else {
      var k :| OccursAt(text, parts[0], k) && TailMeans(parts[1..], text[k + |parts[0]|..]);
      StarTailComplete(parts[1..], text[k + |parts[0]|..]);
      StarStep(parts, text, k);
    }
  }

  /** A star followed by the remaining parts means those parts with gaps. */
  lemma {:induction false} StarTail(parts: seq<string>, text: string)
    requires |parts| >= 1 && forall i :: 0 <= i < |parts| ==> '*' !in parts[i]
    ensures Means("*" + Join(parts, '*'), text) <==> TailMeans(parts, text)
  {
    if Means("*" + Join(parts, '*'), text) {
      StarTailSound(parts, text);
    }
    if TailMeans(parts, text) {
      StarTailComplete(parts, text);
    }
  }

  /** With a star in the pattern the matcher accepts exactly what the pattern means. */
  lemma {:induction false} StarPatternsAreExact(pattern: string, text: string)
    requires '*' in pattern
    ensures Accepts(pattern, text) <==> Means(pattern, text)
  {
    var parts := Split(pattern, '*');
    if |parts| == 1 {
      assert false;
    } else {
      assert pattern == parts[0] + ("*" + Join(parts[1..], '*'));
      LiteralPrefix(parts[0], "*" + Join(parts[1..], '*'), text);
      if StartsWith(text, parts[0]) {
        var rest := text[|parts[0]|..];
        StarTail(parts[1..], rest);
        GreedyIsComplete(parts[1..], rest);
      }
    }
  }

  /** Without a star the matcher only tests a prefix. */
  lemma {:induction false} StarFreePatternsArePrefixes(pattern: string, text: string)
    requires '*' !in pattern
    ensures Accepts(pattern, text) <==> pattern <= text
    ensures Means(pattern, text) <==> pattern == text
  {
    SplitJoin([pattern], '*');
    LiteralPrefix(pattern, [], text);
    assert pattern + [] == pattern;
  }

  /** A pattern is matched as it reads, on every text, exactly when it has a star. */
  lemma {:induction false} ExactIffStar(pattern: string)
    ensures (forall text :: Accepts(pattern, text) <==> Means(pattern, text)) <==> '*' in pattern
  {
    if '*' in pattern {
      forall text ensures Accepts(pattern, text) <==> Means(pattern, text) {
        StarPatternsAreExact(pattern, text);
      }
    } else {
      StarFreePatternsArePrefixes(pattern, pattern + "x");
    }
  }
}
