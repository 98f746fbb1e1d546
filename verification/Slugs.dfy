/** Slugs: `sanitize_slug` in `crates/said-forge/src/tag.rs`. */
module Slugs {
  import opened Text

  const MAX_SLUG := 64

  predicate IsAlnum(c: char) {
    'a' <= c <= 'z' || 'A' <= c <= 'Z' || IsDigit(c)
  }

  /** Runs of other characters become one dash; a run at the start is absorbed when `lastDash` says so. */
  function Dashed(s: string, lastDash: bool): string {
    if s == [] then []
    else if IsAlnum(s[0]) then [s[0]] + Dashed(s[1..], false)
    else (if lastDash then [] else ['-']) + Dashed(s[1..], true)
  }

  function TrimDashes(s: string): (r: string)
    ensures r <= s && (r != [] ==> r[|r| - 1] != '-')
  {
    if s != [] && s[|s| - 1] == '-' then TrimDashes(s[..|s| - 1]) else s
  }

  function Truncated(s: string): string {
    if |s| > MAX_SLUG then TrimDashes(s[..MAX_SLUG]) else s
  }

  function Slug(raw: string): string {
    var s := Truncated(TrimDashes(Dashed(Lower(raw), true)));
    if s == [] then "unnamed" else s
  }

  method DropDashes(s: string) returns (out: string)
    ensures out == TrimDashes(s)
  {
    out := s;
    while out != [] && out[|out| - 1] == '-'
      invariant TrimDashes(out) == TrimDashes(s)
      decreases |out|
    {
      out := out[..|out| - 1];
    }
  }

  lemma {:induction false} DashedStep(out: string, s: string, i: nat, lastDash: bool)
    requires i < |s|
    ensures var piece := if IsAlnum(s[i]) then [s[i]] else if lastDash then [] else ['-'];
      out + Dashed(s[i..], lastDash) == (out + piece) + Dashed(s[i + 1..], !IsAlnum(s[i]))
  {
    assert s[i..][0] == s[i] && s[i..][1..] == s[i + 1..];
  }

  method SanitizeSlug(raw: string) returns (slug: string)
    ensures slug == Slug(raw)
  {
    var lower := Lower(raw);
    var out, lastDash := "", true;
    for i := 0 to |lower|
      invariant out + Dashed(lower[i..], lastDash) == Dashed(lower, true)
    {
      DashedStep(out, lower, i, lastDash);
      if IsAlnum(lower[i]) {
        out := out + [lower[i]];
        lastDash := false;
      } else if !lastDash {
        out := out + ['-'];
        lastDash := true;
      } else {
        assert out + [] == out;
      }
    }
    assert out == Dashed(lower, true);
    out := DropDashes(out);
    if |out| > MAX_SLUG {
      out := DropDashes(out[..MAX_SLUG]);
    }
    slug := if out == [] then "unnamed" else out;
  }

  // ---------- kebab case ----------

  predicate SlugChar(c: char) {
    'a' <= c <= 'z' || IsDigit(c) || c == '-'
  }

  predicate NoDoubleDash(s: string) {
    forall i :: 0 <= i < |s| - 1 ==> s[i] != '-' || s[i + 1] != '-'
  }

  predicate Kebab(s: string, lastDash: bool) {
    && (forall i :: 0 <= i < |s| ==> SlugChar(s[i]))
    && NoDoubleDash(s) && (lastDash && s != [] ==> s[0] != '-')
  }

  /** Kebab case of at most 64 characters, with no dash at either end. */
  predicate IsSlug(s: string) {
    s != [] && |s| <= MAX_SLUG && Kebab(s, true) && s[|s| - 1] != '-'
  }

  predicate NoUpper(s: string) {
    forall i :: 0 <= i < |s| ==> !('A' <= s[i] <= 'Z')
  }

  lemma {:induction false} DashedIsKebab(s: string, lastDash: bool)
    requires NoUpper(s)
    ensures Kebab(Dashed(s, lastDash), lastDash)
    decreases |s|
  {
    if s != [] {
      if IsAlnum(s[0]) {
        DashedIsKebab(s[1..], false);
      } else {
        DashedIsKebab(s[1..], true);
      }
    }
  }

  lemma {:induction false} PrefixIsKebab(p: string, s: string)
    requires p <= s && Kebab(s, true)
    ensures Kebab(p, true)
  {
    assert forall i :: 0 <= i < |p| ==> p[i] == s[i];
  }

  lemma {:induction false} TrimmedIsKebab(s: string, n: nat)
    requires n <= |s| && Kebab(s, true)
    ensures var t := TrimDashes(s[..n]); Kebab(t, true) && |t| <= n && (t != [] ==> t[|t| - 1] != '-')
  {
    PrefixIsKebab(TrimDashes(s[..n]), s);
  }

  lemma {:induction false} UnnamedIsSlug(s: string)
    requires s == "unnamed"
    ensures IsSlug(s)
  {
  }

  lemma {:induction false} NoColon(s: string)
    requires IsSlug(s)
    ensures ':' !in s
  {
    assert !SlugChar(':');
  }

  /** Every slug is kebab case; in particular it has no colon to split a tag with. */
  lemma {:induction false} SlugIsKebab(raw: string)
    ensures IsSlug(Slug(raw)) && ':' !in Slug(raw)
  {
    var dashed := Dashed(Lower(raw), true);
    DashedIsKebab(Lower(raw), true);
    var trimmed := TrimDashes(dashed);
    TrimmedIsKebab(dashed, |dashed|);
    assert dashed[..|dashed|] == dashed;
    if |trimmed| > MAX_SLUG {
      TrimmedIsKebab(trimmed, MAX_SLUG);
    } else if trimmed == [] {
      UnnamedIsSlug("unnamed");
    }
    NoColon(Slug(raw));
  }

  lemma {:induction false} KebabStays(s: string, lastDash: bool)
    requires Kebab(s, lastDash)
    ensures Dashed(s, lastDash) == s
    decreases |s|
  {
    if s != [] {
      assert s == [s[0]] + s[1..];
      assert forall i :: 0 <= i < |s| - 1 ==> s[1..][i] == s[i + 1];
      KebabStays(s[1..], s[0] == '-');
    }
  }

  /** The slugs are exactly the texts that are left as they are. */
  lemma {:induction false} SlugsAreFixed(s: string)
    ensures Slug(s) == s <==> IsSlug(s)
  {
    if IsSlug(s) {
      assert Lower(s) == s;
      KebabStays(s, true);
    }
    SlugIsKebab(s);
  }

  // ---------- words ----------

  /** How far the letters and digits at the front reach. */
  function RunEnd(s: string): (n: nat)
    ensures n <= |s| && (forall i :: 0 <= i < n ==> IsAlnum(s[i])) && (n < |s| ==> !IsAlnum(s[n]))
  {
    if s == [] || !IsAlnum(s[0]) then 0 else 1 + RunEnd(s[1..])
  }

  /** The longest runs of letters and digits, in order. */
  function Words(s: string): seq<string>
    decreases |s|
  {
    if s == [] then []
    else if !IsAlnum(s[0]) then Words(s[1..])
    else [s[..RunEnd(s)]] + Words(s[RunEnd(s)..])
  }

  function Hyphenated(words: seq<string>): string {
    if words == [] then [] else Join(words, '-')
  }

  lemma {:induction false} RunIsKept(s: string, n: nat, lastDash: bool)
    requires n <= |s| && forall i :: 0 <= i < n ==> IsAlnum(s[i])
    ensures Dashed(s, lastDash) == s[..n] + Dashed(s[n..], if n == 0 then lastDash else false)
    decreases n
  {
    if n > 0 {
      RunIsKept(s[1..], n - 1, false);
      assert Dashed(s, lastDash) == [s[0]] + Dashed(s[1..], false);
      assert s[..n] == [s[0]] + s[1..][..n - 1] && s[1..][n - 1..] == s[n..];
    }
  }

  lemma {:induction false} WordsBehindGap(s: string)
    requires s != [] && !IsAlnum(s[0])
    ensures Words(s) == Words(s[1..]) && Dashed(s, false) == ['-'] + Dashed(s[1..], true)
  {
  }

  lemma {:induction false} JoinWords(w: string, rest: seq<string>)
    ensures Hyphenated([w] + rest) == if rest == [] then w else w + ['-'] + Hyphenated(rest)
  {
    assert ([w] + rest)[1..] == rest;
  }

  /** Dashing gives the words with single dashes between them, and perhaps one more behind. */
  lemma {:induction false} DashedIsWords(s: string)
    ensures var h := Hyphenated(Words(s)); Dashed(s, true) == h || (Words(s) != [] && Dashed(s, true) == h + ['-'])
    decreases |s|
  {
    if s != [] && !IsAlnum(s[0]) {
      DashedIsWords(s[1..]);
    } else if s != [] {
      var n := RunEnd(s);
      var w, rest := s[..n], s[n..];
      RunIsKept(s, n, true);
      assert Words(s) == [w] + Words(rest);
      if rest == [] {
        JoinWords(w, []);
        assert Dashed(s, true) == w + [] == w;
      } else {
        DashedIsWords(rest[1..]);
        WordsBehindGap(rest);
        BehindWord(w, Words(rest), Dashed(rest[1..], true));
      }
    }
  }

  lemma {:induction false} WordsEndInLetters(s: string)
    ensures forall i :: 0 <= i < |Words(s)| ==> Words(s)[i] != [] && IsAlnum(Words(s)[i][|Words(s)[i]| - 1])
    decreases |s|
  {
    if s != [] && !IsAlnum(s[0]) {
      WordsEndInLetters(s[1..]);
    } else if s != [] {
      WordsEndInLetters(s[RunEnd(s)..]);
    }
  }

  lemma {:induction false} BehindWord(w: string, rest: seq<string>, tail: string)
    requires tail == Hyphenated(rest) || (rest != [] && tail == Hyphenated(rest) + ['-'])
    ensures var h := Hyphenated([w] + rest); w + (['-'] + tail) == h || w + (['-'] + tail) == h + ['-']
  {
    JoinWords(w, rest);
    if rest == [] {
      assert w + (['-'] + tail) == w + ['-'];
    } else if tail == Hyphenated(rest) {
      assert w + (['-'] + tail) == w + ['-'] + tail;
    } else {
      assert w + (['-'] + tail) == (w + ['-'] + Hyphenated(rest)) + ['-'];
    }
  }

  lemma {:induction false} LastOfHyphenated(words: seq<string>)
    requires words != [] && forall i :: 0 <= i < |words| ==> words[i] != []
    ensures Hyphenated(words) != []
    ensures var h, w := Hyphenated(words), words[|words| - 1]; h[|h| - 1] == w[|w| - 1]
    decreases |words|
  {
    if |words| > 1 {
      LastOfHyphenated(words[1..]);
    }
  }

  lemma {:induction false} TrimmedIsWords(s: string)
    ensures TrimDashes(Dashed(s, true)) == Hyphenated(Words(s))
  {
    DashedIsWords(s);
    var h := Hyphenated(Words(s));
    if Words(s) != [] {
      WordsEndInLetters(s);
      LastOfHyphenated(Words(s));
      TrimsOne(h);
    }
  }

  lemma {:induction false} TrimsOne(h: string)
    requires h != [] && h[|h| - 1] != '-'
    ensures TrimDashes(h) == h && TrimDashes(h + ['-']) == h
  {
    assert (h + ['-'])[..|h|] == h;
  }

  /** A slug is the words of the text in lower case with dashes between them, cut to 64 characters and
      without the dash the cut may leave at the end; `unnamed` if there is no word. */
  lemma {:induction false} SlugIsWords(raw: string)
    ensures var all := Hyphenated(Words(Lower(raw)));
      Slug(raw) ==
        if all == [] then "unnamed"
        else if |all| <= 64 then all
        else if all[63] == '-' then all[..63] else all[..64]
  {
    var all := Hyphenated(Words(Lower(raw)));
    TrimmedIsWords(Lower(raw));
    if |all| > 64 {
      var cut := all[..64];
      DashedIsKebab(Lower(raw), true);
      TrimmedIsKebab(Dashed(Lower(raw), true), |Dashed(Lower(raw), true)|);
      assert Dashed(Lower(raw), true)[..|Dashed(Lower(raw), true)|] == Dashed(Lower(raw), true);
      CutTrimsOne(all, cut);
    }
  }

  lemma {:induction false} CutTrimsOne(all: string, cut: string)
    requires |all| > 64 && cut == all[..64] && Kebab(all, true)
    ensures TrimDashes(cut) == if all[63] == '-' then all[..63] else cut
    ensures TrimDashes(cut) != []
  {
    if all[63] == '-' {
      var h := all[..63];
      assert cut == h + ['-'];
      assert h[62] == all[62] != '-' && h[|h| - 1] == h[62];
      TrimsOne(h);
    } else {
      TrimsOne(cut);
    }
  }
}
