/** The tags that address frames: `crates/said-forge/src/tag.rs`. */
module ForgeTags {
  import opened Text

  const U32_MAX := 0xFFFF_FFFF

  predicate ColonFree(s: string) {
    ':' !in s
  }

  function ForgeTag(ty: string, hash: string, slug: string, runN: Option<nat>, part: Option<string>): string {
    "forge:" + ty + ":" + hash + ":" + slug
    + (if runN.Some? then ":r" + Decimal(runN.value) else "")
    + (if part.Some? then ":" + part.value else "")
  }

  /** The components of a tag, which the colons join. */
  function Fields(ty: string, hash: string, slug: string, runN: Option<nat>, part: Option<string>): seq<string> {
    ["forge", ty, hash, slug]
    + (if runN.Some? then ["r" + Decimal(runN.value)] else [])
    + (if part.Some? then [part.value] else [])
  }

  lemma {:induction false} JoinFour(a: string, b: string, c: string, d: string)
    ensures Join([a, b, c, d], ':') == a + ":" + b + ":" + c + ":" + d
  {
    assert [a, b, c, d][1..] == [b, c, d] && [b, c, d][1..] == [c, d] && [c, d][1..] == [d];
    assert Join([c, d], ':') == c + ":" + d;
    assert Join([b, c, d], ':') == b + ":" + Join([c, d], ':');
  }

  lemma {:induction false} JoinOneMore(fs: seq<string>, f: string)
    requires |fs| >= 1
    ensures Join(fs + [f], ':') == Join(fs, ':') + (":" + f)
  {
    JoinAppend(fs, [f], ':');
    assert Join(fs, ':') + [':'] + f == Join(fs, ':') + (":" + f);
  }

  lemma {:induction false} TagParts(ty: string, hash: string, slug: string, run: string,
                                    runN: Option<nat>, part: Option<string>)
    requires run == if runN.Some? then ":r" + Decimal(runN.value) else ""
    ensures ForgeTag(ty, hash, slug, runN, part) ==
            ("forge" + ":" + ty + ":" + hash + ":" + slug) + run + if part.Some? then ":" + part.value else ""
  {
    assert "forge:" == "forge" + ":";
  }

  lemma {:induction false} TagIsJoin(ty: string, hash: string, slug: string, runN: Option<nat>, part: Option<string>)
    ensures ForgeTag(ty, hash, slug, runN, part) == Join(Fields(ty, hash, slug, runN, part), ':')
  {
    var four := ["forge", ty, hash, slug];
    JoinFour("forge", ty, hash, slug);
    var run := if runN.Some? then ":r" + Decimal(runN.value) else "";
    var five := four + if runN.Some? then ["r" + Decimal(runN.value)] else [];
    if runN.Some? {
      JoinOneMore(four, "r" + Decimal(runN.value));
      assert ":" + ("r" + Decimal(runN.value)) == run;
    } else {
      assert five == four;
    }
    assert Join(five, ':') == Join(four, ':') + run;
    if part.Some? {
      JoinOneMore(five, part.value);
    } else {
      assert five + [] == five;
    }
    TagParts(ty, hash, slug, run, runN, part);
  }

  predicate ColonFreeParts(ty: string, hash: string, slug: string, part: Option<string>) {
    ColonFree(ty) && ColonFree(hash) && ColonFree(slug) && (part.Some? ==> ColonFree(part.value))
  }

  /** A tag made of colon-free components splits into just those. */
  lemma {:induction false} TagSplits(ty: string, hash: string, slug: string, runN: Option<nat>, part: Option<string>)
    requires ColonFreeParts(ty, hash, slug, part)
    ensures Split(ForgeTag(ty, hash, slug, runN, part), ':') == Fields(ty, hash, slug, runN, part)
  {
    var fs := Fields(ty, hash, slug, runN, part);
    TagIsJoin(ty, hash, slug, runN, part);
    forall i | 0 <= i < |fs| ensures ':' !in fs[i] {
      if runN.Some? && i == 4 {
        assert fs[4] == "r" + Decimal(runN.value);
      }
    }
    SplitJoin(fs, ':');
  }

  // ---------- reading a tag back ----------

  datatype Parts = Parts(ty: string, hash: string, slug: string, runN: Option<nat>, part: Option<string>)

  /** The run number a component spells, if it does. */
  function RunField(f: string): Option<nat> {
    if f != [] && f[0] == 'r' then ParseUnsigned(f[1..], U32_MAX) else None
  }

  /** Later components override earlier ones of their kind. */
  function ReadRest(fs: seq<string>, runN: Option<nat>, part: Option<string>): (Option<nat>, Option<string>)
    decreases |fs|
  {
    if fs == [] then (runN, part)
    else if RunField(fs[0]).Some? then ReadRest(fs[1..], RunField(fs[0]), part)
    else ReadRest(fs[1..], runN, Some(fs[0]))
  }

  function ParseForgeTag(tag: string): Option<Parts> {
    var fs := Split(tag, ':');
    if |fs| < 4 || fs[0] != "forge" then None
    else
      var (runN, part) := ReadRest(fs[4..], None, None);
      Some(Parts(fs[1], fs[2], fs[3], runN, part))
  }

  method ParseTag(tag: string) returns (r: Option<Parts>)
    ensures r == ParseForgeTag(tag)
  {
    var fs := Split(tag, ':');
    if |fs| < 4 || fs[0] != "forge" {
      return None;
    }
    var runN: Option<nat>, part: Option<string> := None, None;
    for i := 4 to |fs|
      invariant ReadRest(fs[4..], None, None) == ReadRest(fs[i..], runN, part)
    {
      assert fs[i..][0] == fs[i] && fs[i..][1..] == fs[i + 1..];
      var n := RunField(fs[i]);
      if n.Some? {
        runN := n;
      } else {
        part := Some(fs[i]);
      }
    }
    return Some(Parts(fs[1], fs[2], fs[3], runN, part));
  }

  /** Printing and reading a tag gives its components back exactly when its part
      does not itself look like a run number. */
  lemma {:induction false} TagRoundTrip(ty: string, hash: string, slug: string, runN: Option<nat>, part: Option<string>)
    requires ColonFreeParts(ty, hash, slug, part) && (runN.Some? ==> runN.value <= U32_MAX)
    ensures ParseForgeTag(ForgeTag(ty, hash, slug, runN, part)) == Some(Parts(ty, hash, slug, runN, part))
            <==> part.None? || RunField(part.value).None?
  {
    TagSplits(ty, hash, slug, runN, part);
    var fs := Fields(ty, hash, slug, runN, part);
    var rest, last := fs[4..], if part.Some? then [part.value] else [];
    if runN.Some? {
      var f := "r" + Decimal(runN.value);
      assert rest == [f] + last && f[1..] == Decimal(runN.value);
      DecimalParses(runN.value, U32_MAX);
      assert rest[1..] == last;
      assert ReadRest(rest, None, None) == ReadRest(last, runN, None);
    } else {
      assert rest == last;
    }
    if part.Some? {
      assert last[1..] == [];
      assert ReadRest(last, runN, None) ==
             if RunField(part.value).Some? then (RunField(part.value), None) else (runN, part);
    }
  }
}
