/** What the run ledger of `RunLedger` guarantees over sequences of runs and after a story
    has been removed. */
module LedgerProofs {
  import opened Text
  import opened ForgeTags
  import opened RunLedger
  import opened Slugs

  predicate Story(hash: string, slug: string) {
    ColonFree(hash) && ColonFree(slug)
  }

  // ---------- reading a run number off a tag ----------

  lemma {:induction false} PrefixIsJoin(kind: string, hash: string, slug: string)
    ensures Join(["forge", kind, hash, slug], ':') == "forge:" + kind + ":" + hash + ":" + slug
  {
    JoinFour("forge", kind, hash, slug);
    assert "forge" + ":" + kind == "forge:" + kind;
  }

  /** A tag under a story's run prefix has the story's fields. */
  lemma {:induction false} PrefixFixesStory(tag: string, hash: string, slug: string)
    requires Story(hash, slug) && RunPrefix(hash, slug) <= tag
    ensures |Split(tag, ':')| > 4 && Split(tag, ':')[..4] == ["forge", "run", hash, slug]
  {
    var ps := ["forge", "run", hash, slug];
    PrefixIsJoin("run", hash, slug);
    assert Join(ps, ':') + [':'] <= RunPrefix(hash, slug);
    SplitPrefix(ps, tag, ':');
  }

  lemma {:induction false} OwnTag(hash: string, slug: string, n: nat, part: nat)
    requires part < 4 && n <= U32_MAX
    ensures RunOf(LedgerTag(hash, slug, n, part), RunPrefix(hash, slug)) == Some(n)
  {
    var tag, prefix := LedgerTag(hash, slug, n, part), RunPrefix(hash, slug);
    var d, p := Decimal(n), LEDGER_PARTS[part];
    assert tag == prefix + (d + ":" + p) by {
      assert ":r" + d == ":r" + d;
    }
    assert tag[|prefix|..] == d + ":" + p == Join([d, p], ':');
    SplitJoin([d, p], ':');
    DecimalParses(n, U32_MAX);
  }

  /** A ledger tag counts for its own story and no other. */
  lemma {:induction false} CountsForItsStory(hash: string, slug: string, hash2: string, slug2: string, n: nat,
                                             part: nat)
    requires Story(hash, slug) && Story(hash2, slug2) && part < 4 && n <= U32_MAX
    ensures RunOf(LedgerTag(hash2, slug2, n, part), RunPrefix(hash, slug)) ==
            if hash2 == hash && slug2 == slug then Some(n) else None
  {
    var tag, part' := LedgerTag(hash2, slug2, n, part), LEDGER_PARTS[part];
    TagSplits("run", hash2, slug2, Some(n), Some(part'));
    var four := Fields("run", hash2, slug2, Some(n), Some(part'))[..4];
    assert four[2] == hash2 && four[3] == slug2;
    if hash2 == hash && slug2 == slug {
      OwnTag(hash, slug, n, part);
    } else if RunPrefix(hash, slug) <= tag {
      PrefixFixesStory(tag, hash, slug);
    }
  }

  /** Request tags are not counted as runs. */
  lemma {:induction false} RequestsDoNotCount(hash: string, slug: string, hash2: string, slug2: string, n: nat)
    requires Story(hash, slug) && Story(hash2, slug2)
    ensures RunOf(RequestTag(hash2, slug2, n), RunPrefix(hash, slug)) == None
  {
    var tag := RequestTag(hash2, slug2, n);
    TagSplits("request", hash2, slug2, Some(n), None);
    var four := Fields("request", hash2, slug2, Some(n), None)[..4];
    assert four[1] == "request";
    if RunPrefix(hash, slug) <= tag {
      PrefixFixesStory(tag, hash, slug);
    }
  }

  // ---------- the latest run ----------

  lemma {:induction false} LatestInTagsBounds(tags: seq<string>, prefix: string, t: string)
    requires t in tags && RunOf(t, prefix).Some?
    ensures RunOf(t, prefix).value <= LatestInTags(tags, prefix)
    decreases |tags|
  {
    if t != tags[|tags| - 1] {
      LatestInTagsBounds(tags[..|tags| - 1], prefix, t);
    }
  }

  lemma {:induction false} LatestBounds(frames: seq<Frame>, prefix: string, t: string)
    requires LiveTag(frames, t) && RunOf(t, prefix).Some?
    ensures RunOf(t, prefix).value <= LatestIn(frames, prefix)
    decreases |frames|
  {
    var f := frames[|frames| - 1];
    if !f.deleted && t in f.tags {
      LatestInTagsBounds(f.tags, prefix, t);
    } else {
      var init := frames[..|frames| - 1];
      var i :| 0 <= i < |frames| && !frames[i].deleted && t in frames[i].tags;
      assert init[i] == frames[i];
      LatestBounds(init, prefix, t);
    }
  }

  lemma {:induction false} LatestInTagsAttained(tags: seq<string>, prefix: string)
    ensures LatestInTags(tags, prefix) > 0 ==>
      exists t :: t in tags && RunOf(t, prefix) == Some(LatestInTags(tags, prefix))
    decreases |tags|
  {
    if tags != [] {
      LatestInTagsAttained(tags[..|tags| - 1], prefix);
      assert tags[|tags| - 1] in tags;
    }
  }

  /** A positive latest run is the run number of some live tag. */
  lemma {:induction false} LatestAttained(frames: seq<Frame>, prefix: string)
    ensures LatestIn(frames, prefix) > 0 ==>
      exists t :: LiveTag(frames, t) && RunOf(t, prefix) == Some(LatestIn(frames, prefix))
    decreases |frames|
  {
    if frames != [] && LatestIn(frames, prefix) > 0 {
      var init, f := frames[..|frames| - 1], frames[|frames| - 1];
      LatestAttained(init, prefix);
      LatestInTagsAttained(f.tags, prefix);
      if LatestIn(frames, prefix) == LatestIn(init, prefix) {
        var t :| LiveTag(init, t) && RunOf(t, prefix) == Some(LatestIn(frames, prefix));
        var i :| 0 <= i < |init| && !init[i].deleted && t in init[i].tags;
        assert frames[i] == init[i];
        assert LiveTag(frames, t);
      } else {
        var t :| t in f.tags && RunOf(t, prefix) == Some(LatestIn(frames, prefix));
        assert LiveTag(frames, t);
      }
    }
  }

  lemma {:induction false} LatestGrows(a: seq<Frame>, b: seq<Frame>, prefix: string)
    ensures LatestIn(a, prefix) <= LatestIn(a + b, prefix)
    decreases |b|
  {
    if b == [] {
      assert a + b == a;
    } else {
      assert (a + b)[..|a + b| - 1] == a + b[..|b| - 1];
      LatestGrows(a, b[..|b| - 1], prefix);
    }
  }

  /** A run number above the latest is unused: none of its ledger tags is on a live
      frame, whatever else the brain holds. */
  lemma {:induction false} NextRunIsFresh(frames: seq<Frame>, hash: string, slug: string, n: nat, part: nat)
    requires LatestRun(frames, hash, slug) < n <= U32_MAX && part < 4
    ensures !LiveTag(frames, LedgerTag(hash, slug, n, part))
  {
    OwnTag(hash, slug, n, part);
    if LiveTag(frames, LedgerTag(hash, slug, n, part)) {
      LatestBounds(frames, RunPrefix(hash, slug), LedgerTag(hash, slug, n, part));
    }
  }

  // ---------- what one run writes ----------

  type Part = p: nat | p < 4

  datatype Entry = Entry(hash: string, slug: string, n: nat, part: Part)

  function EntryTag(e: Entry): string {
    LedgerTag(e.hash, e.slug, e.n, e.part)
  }

  function EntryTags(es: seq<Entry>): seq<string> {
    seq(|es|, i requires 0 <= i < |es| => EntryTag(es[i]))
  }

  lemma {:induction false} EntryTagsAppend(a: seq<Entry>, b: seq<Entry>)
    ensures EntryTags(a + b) == EntryTags(a) + EntryTags(b)
  {
  }

  /** The tags one run writes. */
  function TagsOf(b: Brain, c: RunCall): seq<string> {
    var latest := LatestRun(b.frames, c.hash, c.slug);
    if c.skip || latest >= U32_MAX then [] else RunTags(c.hash, c.slug, latest + 1, c.failAt)
  }

  /** The ledger entries one run makes. */
  function LedgerOf(b: Brain, c: RunCall): seq<Entry> {
    var latest := LatestRun(b.frames, c.hash, c.slug);
    if c.skip || latest >= U32_MAX then []
    else seq(LedgerCount(c.failAt), p requires 0 <= p < LedgerCount(c.failAt) => Entry(c.hash, c.slug, latest + 1, p))
  }

  /** Any tag of the kind that ledger frames have. */
  predicate IsLedger(tag: string) {
    "forge:run:" <= tag
  }

  /** The ledger tags of a list of tags. */
  function LedgerPart(tags: seq<string>): seq<string> {
    if tags == [] then [] else (if IsLedger(tags[0]) then [tags[0]] else []) + LedgerPart(tags[1..])
  }

  lemma {:induction false} LedgerPartAppend(a: seq<string>, b: seq<string>)
    ensures LedgerPart(a + b) == LedgerPart(a) + LedgerPart(b)
    decreases |a|
  {
    if a == [] {
      assert a + b == b;
    } else {
      var first := if IsLedger(a[0]) then [a[0]] else [];
      assert (a + b)[0] == a[0] && (a + b)[1..] == a[1..] + b;
      LedgerPartAppend(a[1..], b);
      assert first + (LedgerPart(a[1..]) + LedgerPart(b)) == first + LedgerPart(a[1..]) + LedgerPart(b);
    }
  }

  lemma {:induction false} AllLedger(tags: seq<string>)
    requires forall i :: 0 <= i < |tags| ==> IsLedger(tags[i])
    ensures LedgerPart(tags) == tags
    decreases |tags|
  {
    if tags != [] {
      AllLedger(tags[1..]);
    }
  }

  lemma {:induction false} NoLedger(tags: seq<string>)
    requires forall i :: 0 <= i < |tags| ==> !IsLedger(tags[i])
    ensures LedgerPart(tags) == []
    decreases |tags|
  {
    if tags != [] {
      NoLedger(tags[1..]);
    }
  }

  lemma {:induction false} KindOfTag(ty: string, hash: string, slug: string, runN: Option<nat>, part: Option<string>)
    ensures "forge:" + ty + ":" <= ForgeTag(ty, hash, slug, runN, part)
  {
  }

  lemma {:induction false} OtherKind(ty: string, tag: string, k: nat)
    requires "forge:" + ty + ":" <= tag && k < |ty| && k < 3 && ty[k] != "run"[k]
    ensures !IsLedger(tag)
  {
    assert tag[6 + k] == ("forge:" + ty + ":")[6 + k] == ty[k];
    assert "forge:run:"[6 + k] == "run"[k];
  }

  lemma {:induction false} KindsTellApart(hash: string, slug: string, n: nat, part: nat)
    requires part < 4
    ensures IsLedger(LedgerTag(hash, slug, n, part))
    ensures !IsLedger(RequestTag(hash, slug, n)) && !IsLedger(ArtifactTag(hash, slug, part))
  {
    KindOfTag("run", hash, slug, Some(n), Some(LEDGER_PARTS[part]));
    KindOfTag("request", hash, slug, Some(n), None);
    KindOfTag(ARTIFACTS[part], hash, slug, None, None);
    OtherKind("request", RequestTag(hash, slug, n), 1);
    OtherKind(ARTIFACTS[part], ArtifactTag(hash, slug, part), 0);
  }

  /** The ledger tags among the tags of a run are the run's entries, in order. */
  lemma {:induction false} RunWritesItsEntries(b: Brain, c: RunCall)
    ensures LedgerPart(TagsOf(b, c)) == EntryTags(LedgerOf(b, c))
  {
    var n := LatestRun(b.frames, c.hash, c.slug) + 1;
    var request := if c.failAt > 0 then [RequestTag(c.hash, c.slug, n)] else [];
    var ledger := LedgerTags(c.hash, c.slug, n, LedgerCount(c.failAt));
    var artifacts := ArtifactTags(c.hash, c.slug, Clamp(c.failAt - 7, 4));
    forall part | 0 <= part < 4
      ensures IsLedger(LedgerTag(c.hash, c.slug, n, part))
      ensures !IsLedger(RequestTag(c.hash, c.slug, n)) && !IsLedger(ArtifactTag(c.hash, c.slug, part))
    {
      KindsTellApart(c.hash, c.slug, n, part);
    }
    NoLedger(request);
    AllLedger(ledger);
    NoLedger(artifacts);
    LedgerPartAppend(request + ledger, artifacts);
    LedgerPartAppend(request, ledger);
    if TagsOf(b, c) != [] {
      assert EntryTags(LedgerOf(b, c)) == ledger;
    }
  }

  /** Each entry of a run ends up on a live frame and is counted from then on. */
  lemma {:induction false} WrittenIsCounted(b: Brain, c: RunCall, k: nat)
    requires k < |LedgerOf(b, c)|
    ensures var e := LedgerOf(b, c)[k]; e.n <= LatestRun(RunOnce(b, c).0.frames, e.hash, e.slug)
  {
    var e := LedgerOf(b, c)[k];
    var tags, frames := TagsOf(b, c), RunOnce(b, c).0.frames;
    assert tags[1 + k] == EntryTag(e);
    assert frames[|b.frames| + 1 + k].tags == [tags[1 + k]];
    assert LiveTag(frames, EntryTag(e));
    OwnTag(e.hash, e.slug, e.n, e.part);
    LatestBounds(frames, RunPrefix(e.hash, e.slug), EntryTag(e));
  }

  lemma {:induction false} RunOnlyAdds(b: Brain, c: RunCall, prefix: string)
    ensures LatestIn(b.frames, prefix) <= LatestIn(RunOnce(b, c).0.frames, prefix)
  {
    var d := RunOnce(b, c).0;
    assert b.frames <= d.frames;
    LatestGrows(b.frames, d.frames[|b.frames|..], prefix);
    assert b.frames + d.frames[|b.frames|..] == d.frames;
  }

  // ---------- sequences of runs ----------

  ghost predicate Stories(calls: seq<RunCall>) {
    forall i :: 0 <= i < |calls| ==> Story(calls[i].hash, calls[i].slug)
  }

  function RunAll(b: Brain, calls: seq<RunCall>): Brain
    decreases |calls|
  {
    if calls == [] then b else RunAll(RunOnce(b, calls[0]).0, calls[1..])
  }

  function Written(b: Brain, calls: seq<RunCall>): seq<string>
    decreases |calls|
  {
    if calls == [] then [] else TagsOf(b, calls[0]) + Written(RunOnce(b, calls[0]).0, calls[1..])
  }

  function Log(b: Brain, calls: seq<RunCall>): seq<Entry>
    decreases |calls|
  {
    if calls == [] then [] else LedgerOf(b, calls[0]) + Log(RunOnce(b, calls[0]).0, calls[1..])
  }

  /** The frames after the runs are those before and one live frame for each tag written. */
  lemma {:induction false} RunsAppendFrames(b: Brain, calls: seq<RunCall>)
    ensures RunAll(b, calls) == WriteAll(b, Written(b, calls))
    decreases |calls|
  {
    if calls == [] {
      assert b.frames + [] == b.frames;
    } else {
      var next := RunOnce(b, calls[0]).0;
      RunsAppendFrames(next, calls[1..]);
      if TagsOf(b, calls[0]) == [] {
        assert [] + Written(next, calls[1..]) == Written(next, calls[1..]);
        assert WriteAll(b, []) == b;
      }
      WriteAllTwice(b, TagsOf(b, calls[0]), Written(next, calls[1..]));
    }
  }

  /** The ledger tags written are the entries of the log, no more and no fewer, in order. */
  lemma {:induction false} WrittenIsLogged(b: Brain, calls: seq<RunCall>)
    ensures LedgerPart(Written(b, calls)) == EntryTags(Log(b, calls))
    decreases |calls|
  {
    if calls != [] {
      var next := RunOnce(b, calls[0]).0;
      RunWritesItsEntries(b, calls[0]);
      WrittenIsLogged(next, calls[1..]);
      LedgerPartAppend(TagsOf(b, calls[0]), Written(next, calls[1..]));
      EntryTagsAppend(LedgerOf(b, calls[0]), Log(next, calls[1..]));
    }
  }

  /** Everything a sequence of runs logs is above what the brain held before. */
  lemma {:induction false} LogIsAbove(b: Brain, calls: seq<RunCall>, k: nat)
    requires k < |Log(b, calls)|
    ensures var e := Log(b, calls)[k]; LatestRun(b.frames, e.hash, e.slug) < e.n <= U32_MAX
    decreases |calls|
  {
    var here, next := LedgerOf(b, calls[0]), RunOnce(b, calls[0]).0;
    if k >= |here| {
      var e := Log(next, calls[1..])[k - |here|];
      LogIsAbove(next, calls[1..], k - |here|);
      RunOnlyAdds(b, calls[0], RunPrefix(e.hash, e.slug));
    }
  }

  /** Whether an entry may come behind another one of its story. */
  predicate Rises(e: Entry, f: Entry) {
    e.hash == f.hash && e.slug == f.slug ==> e.n < f.n || (e.n == f.n && e.part < f.part)
  }

  lemma {:induction false} WrittenBeforeLater(b: Brain, calls: seq<RunCall>, i: nat, j: nat)
    requires calls != [] && i < |LedgerOf(b, calls[0])| && j < |Log(RunOnce(b, calls[0]).0, calls[1..])|
    ensures Rises(LedgerOf(b, calls[0])[i], Log(RunOnce(b, calls[0]).0, calls[1..])[j])
  {
    LogIsAbove(RunOnce(b, calls[0]).0, calls[1..], j);
    WrittenIsCounted(b, calls[0], i);
  }

  /** The entries of a story are logged with growing run numbers, each run's parts in order. */
  lemma {:induction false} LogIncreases(b: Brain, calls: seq<RunCall>, i: nat, j: nat)
    requires i < j < |Log(b, calls)|
    ensures Rises(Log(b, calls)[i], Log(b, calls)[j])
    decreases |calls|
  {
    var here, next := LedgerOf(b, calls[0]), RunOnce(b, calls[0]).0;
    var later := Log(next, calls[1..]);
    assert Log(b, calls) == here + later;
    if i >= |here| {
      LogIncreases(next, calls[1..], i - |here|, j - |here|);
    } else if j >= |here| {
      WrittenBeforeLater(b, calls, i, j - |here|);
    }
  }

  lemma {:induction false} LedgerTagInjective(e: Entry, f: Entry)
    requires Story(e.hash, e.slug) && Story(f.hash, f.slug) && e.n <= U32_MAX && f.n <= U32_MAX
    requires EntryTag(e) == EntryTag(f)
    ensures e == f
  {
    CountsForItsStory(e.hash, e.slug, f.hash, f.slug, f.n, f.part);
    CountsForItsStory(e.hash, e.slug, e.hash, e.slug, e.n, e.part);
    TagSplits("run", e.hash, e.slug, Some(e.n), Some(LEDGER_PARTS[e.part]));
    TagSplits("run", f.hash, f.slug, Some(f.n), Some(LEDGER_PARTS[f.part]));
    assert Fields("run", e.hash, e.slug, Some(e.n), Some(LEDGER_PARTS[e.part]))[5] == LEDGER_PARTS[e.part];
    assert Fields("run", f.hash, f.slug, Some(f.n), Some(LEDGER_PARTS[f.part]))[5] == LEDGER_PARTS[f.part];
  }

  lemma {:induction false} LogHasStories(b: Brain, calls: seq<RunCall>, k: nat)
    requires Stories(calls) && k < |Log(b, calls)|
    ensures Story(Log(b, calls)[k].hash, Log(b, calls)[k].slug)
    decreases |calls|
  {
    var here := LedgerOf(b, calls[0]);
    if k >= |here| {
      LogHasStories(RunOnce(b, calls[0]).0, calls[1..], k - |here|);
    }
  }

  // ---------- the ledger frames ----------

  /** Frame number `i` after the runs is one they added, and it carries this ledger tag. */
  ghost predicate Added(b: Brain, calls: seq<RunCall>, i: nat, tag: string) {
    var frames := RunAll(b, calls).frames;
    |b.frames| <= i < |frames| && tag in frames[i].tags && IsLedger(tag)
  }

  /** Where a ledger tag of a list comes among its ledger tags. */
  function RankOf(tags: seq<string>, i: nat): nat
    requires i <= |tags|
  {
    |LedgerPart(tags[..i])|
  }

  lemma {:induction false} RankGives(tags: seq<string>, i: nat)
    requires i < |tags| && IsLedger(tags[i])
    ensures RankOf(tags, i) < |LedgerPart(tags)| && LedgerPart(tags)[RankOf(tags, i)] == tags[i]
    ensures RankOf(tags, i + 1) == RankOf(tags, i) + 1
  {
    var front := tags[..i] + [tags[i]];
    assert front == tags[..i + 1] && tags == front + tags[i + 1..];
    LedgerPartAppend(tags[..i], [tags[i]]);
    LedgerPartAppend(front, tags[i + 1..]);
    assert [tags[i]][1..] == [];
    assert LedgerPart([tags[i]]) == [tags[i]];
  }

  lemma {:induction false} RankGrows(tags: seq<string>, i: nat, j: nat)
    requires i < j <= |tags| && IsLedger(tags[i])
    ensures RankOf(tags, i) < RankOf(tags, j)
  {
    RankGives(tags, i);
    assert tags[..j] == tags[..i + 1] + tags[i + 1..j];
    LedgerPartAppend(tags[..i + 1], tags[i + 1..j]);
  }

  /** The log entry behind an added ledger frame. */
  lemma {:induction false} EntryBehind(b: Brain, calls: seq<RunCall>, i: nat, tag: string)
      returns (at: nat, k: nat)
    requires Stories(calls) && Added(b, calls, i, tag)
    ensures at + |b.frames| == i && at < |Written(b, calls)| && IsLedger(Written(b, calls)[at])
    ensures k == RankOf(Written(b, calls), at) && k < |Log(b, calls)| && tag == EntryTag(Log(b, calls)[k])
    ensures var e := Log(b, calls)[k];
      Story(e.hash, e.slug) && LatestRun(b.frames, e.hash, e.slug) < e.n <= U32_MAX
  {
    var w := Written(b, calls);
    RunsAppendFrames(b, calls);
    at := i - |b.frames|;
    assert RunAll(b, calls).frames[i].tags == [w[at]];
    RankGives(w, at);
    WrittenIsLogged(b, calls);
    k := RankOf(w, at);
    LogHasStories(b, calls, k);
    LogIsAbove(b, calls, k);
  }

  lemma {:induction false} LaterFrameLaterEntry(b: Brain, calls: seq<RunCall>, i: nat, j: nat, t: string, u: string)
      returns (k: nat, l: nat)
    requires Stories(calls) && Added(b, calls, i, t) && Added(b, calls, j, u) && i < j
    ensures k < l < |Log(b, calls)| && t == EntryTag(Log(b, calls)[k]) && u == EntryTag(Log(b, calls)[l])
    ensures var e, f := Log(b, calls)[k], Log(b, calls)[l];
      Story(e.hash, e.slug) && Story(f.hash, f.slug) && e.n <= U32_MAX && f.n <= U32_MAX && Rises(e, f)
  {
    var p, q;
    p, k := EntryBehind(b, calls, i, t);
    q, l := EntryBehind(b, calls, j, u);
    RankGrows(Written(b, calls), p, q);
    LogIncreases(b, calls, k, l);
  }

  /** Over any sequence of runs, failing at any step, no two added frames share a ledger
      tag, and none carries one that was live before. */
  lemma {:induction false} NoTagTwice(b: Brain, calls: seq<RunCall>, i: nat, j: nat, t: string, u: string)
    requires Stories(calls) && Added(b, calls, i, t) && Added(b, calls, j, u)
    ensures i != j ==> t != u
    ensures !LiveTag(b.frames, t)
  {
    var _, k := EntryBehind(b, calls, i, t);
    var e := Log(b, calls)[k];
    NextRunIsFresh(b.frames, e.hash, e.slug, e.n, e.part);
    if i != j && t == u {
      var k, l := LaterFrameLaterEntry(b, calls, if i < j then i else j, if i < j then j else i, t, u);
      LedgerTagInjective(Log(b, calls)[k], Log(b, calls)[l]);
    }
  }

  /** The ledger frames of a story are added with growing run numbers, each run's parts in order. */
  lemma {:induction false} LedgerFramesRise(b: Brain, calls: seq<RunCall>, i: nat, j: nat, e: Entry, f: Entry)
    requires Stories(calls) && Story(e.hash, e.slug) && Story(f.hash, f.slug) && e.n <= U32_MAX && f.n <= U32_MAX
    requires Added(b, calls, i, EntryTag(e)) && Added(b, calls, j, EntryTag(f)) && i < j
    ensures Rises(e, f)
  {
    var k, l := LaterFrameLaterEntry(b, calls, i, j, EntryTag(e), EntryTag(f));
    LedgerTagInjective(Log(b, calls)[k], e);
    LedgerTagInjective(Log(b, calls)[l], f);
  }

  // ---------- runs and removals ----------

  datatype Event = Run(c: RunCall) | Remove(hash: string, slug: string)

  function Happen(b: Brain, e: Event): Brain {
    match e
    case Run(c) => RunOnce(b, c).0
    case Remove(hash, slug) => b.(frames := Tombstoned(b.frames, hash, slug))
  }

  function History(b: Brain, es: seq<Event>): Brain
    decreases |es|
  {
    if es == [] then b else History(Happen(b, es[0]), es[1..])
  }

  /** No ledger tag is on two live frames. */
  ghost predicate OneFrameEach(frames: seq<Frame>) {
    forall i, j, t :: 0 <= i < j < |frames| && !frames[i].deleted && !frames[j].deleted ==>
      t in frames[i].tags && t in frames[j].tags ==> !IsLedger(t)
  }

  lemma {:induction false} RunKeepsOneEach(b: Brain, c: RunCall)
    requires OneFrameEach(b.frames) && Story(c.hash, c.slug)
    ensures OneFrameEach(RunOnce(b, c).0.frames)
  {
    var calls, frames := [c], RunOnce(b, c).0.frames;
    assert RunAll(b, calls).frames == frames by {
      assert calls[1..] == [];
    }
    assert forall i :: 0 <= i < |b.frames| ==> frames[i] == b.frames[i];
    forall i, j, t | 0 <= i < j < |frames| && !frames[i].deleted && !frames[j].deleted
      && t in frames[i].tags && t in frames[j].tags
      ensures !IsLedger(t)
    {
      if IsLedger(t) && j >= |b.frames| {
        NoTagTwice(b, calls, j, if i < |b.frames| then j else i, t, t);
      }
    }
  }

  /** Whatever the runs, their failures and the removals in between, no ledger tag is ever
      on two live frames. */
  lemma {:induction false} OneFrameEachAlways(b: Brain, es: seq<Event>)
    requires OneFrameEach(b.frames)
    requires forall i :: 0 <= i < |es| && es[i].Run? ==> Story(es[i].c.hash, es[i].c.slug)
    ensures OneFrameEach(History(b, es).frames)
    decreases |es|
  {
    if es != [] {
      if es[0].Run? {
        RunKeepsOneEach(b, es[0].c);
      }
      OneFrameEachAlways(Happen(b, es[0]), es[1..]);
    }
  }

  // ---------- removing a story ----------

  /** A tag of one of the story's kinds with the story's hash and slug as fields. */
  predicate BelongsTo(tag: string, hash: string, slug: string) {
    var fs := Split(tag, ':');
    |fs| >= 4 && fs[0] == "forge" && fs[1] in STORY_KINDS && fs[2] == hash && fs[3] == slug
  }

  lemma {:induction false} MatchesOneKind(tag: string, kind: string, hash: string, slug: string)
    requires ColonFree(kind) && Story(hash, slug)
    ensures var p := "forge:" + kind + ":" + hash + ":" + slug;
      tag == p || p + ":" <= tag <==>
      |Split(tag, ':')| >= 4 && Split(tag, ':')[..4] == ["forge", kind, hash, slug]
  {
    var ps := ["forge", kind, hash, slug];
    PrefixIsJoin(kind, hash, slug);
    SplitPrefix(ps, tag, ':');
    SplitJoin(ps, ':');
    var fs := Split(tag, ':');
    if |fs| == 4 && fs[..4] == ps {
      assert fs == ps;
    }
  }

  /** The prefix test picks exactly the story's own tags. */
  lemma {:induction false} PrefixTestIsExact(tag: string, hash: string, slug: string)
    requires Story(hash, slug)
    ensures MatchesStory(tag, hash, slug) <==> BelongsTo(tag, hash, slug)
  {
    var prefixes, fs := StoryPrefixes(hash, slug), Split(tag, ':');
    forall i | 0 <= i < |STORY_KINDS|
      ensures ColonFree(STORY_KINDS[i])
      ensures (tag == prefixes[i] || prefixes[i] + ":" <= tag) <==>
              |fs| >= 4 && fs[..4] == ["forge", STORY_KINDS[i], hash, slug]
    {
      MatchesOneKind(tag, STORY_KINDS[i], hash, slug);
    }
    if BelongsTo(tag, hash, slug) {
      var i :| 0 <= i < |STORY_KINDS| && STORY_KINDS[i] == fs[1];
      assert fs[..4] == ["forge", STORY_KINDS[i], hash, slug];
    }
    if MatchesStory(tag, hash, slug) {
      var i :| 0 <= i < |prefixes| && (tag == prefixes[i] || prefixes[i] + ":" <= tag);
      assert fs[..4] == ["forge", STORY_KINDS[i], hash, slug];
      assert fs[0] == fs[..4][0] && fs[1] == fs[..4][1] && fs[2] == fs[..4][2] && fs[3] == fs[..4][3];
    }
  }

  /** Removing a story marks exactly the frames that carry a tag of it. */
  lemma {:induction false} TombstoneIsExact(frames: seq<Frame>, hash: string, slug: string, i: nat)
    requires Story(hash, slug) && i < |frames|
    ensures var f, g := frames[i], Tombstoned(frames, hash, slug)[i];
      && g == f.(deleted := g.deleted)
      && (g.deleted <==> f.deleted || exists t :: t in f.tags && BelongsTo(t, hash, slug))
  {
    forall t ensures MatchesStory(t, hash, slug) <==> BelongsTo(t, hash, slug) {
      PrefixTestIsExact(t, hash, slug);
    }
  }

  /** With one tag per frame, as every writer does it, the live tags afterwards are
      those of other stories. */
  lemma {:induction false} OtherStoriesStay(frames: seq<Frame>, hash: string, slug: string, tag: string)
    requires Story(hash, slug) && forall i :: 0 <= i < |frames| ==> |frames[i].tags| == 1
    ensures LiveTag(Tombstoned(frames, hash, slug), tag) <==> LiveTag(frames, tag) && !BelongsTo(tag, hash, slug)
  {
    var after := Tombstoned(frames, hash, slug);
    if i :| 0 <= i < |frames| && !frames[i].deleted && tag in frames[i].tags {
      TombstoneIsExact(frames, hash, slug, i);
      assert frames[i].tags == [tag];
    }
    if i :| 0 <= i < |frames| && !after[i].deleted && tag in after[i].tags {
      TombstoneIsExact(frames, hash, slug, i);
    }
  }

  lemma {:induction false} RunTagsMatch(tag: string, hash: string, slug: string)
    requires RunPrefix(hash, slug) <= tag
    ensures MatchesStory(tag, hash, slug)
  {
    var p := StoryPrefixes(hash, slug)[2];
    assert p + ":" <= RunPrefix(hash, slug) <= tag;
  }

  /** After a story is removed its runs are numbered from one again. */
  lemma {:induction false} TombstoneResetsRuns(frames: seq<Frame>, hash: string, slug: string)
    ensures LatestRun(Tombstoned(frames, hash, slug), hash, slug) == 0
  {
    var after, prefix := Tombstoned(frames, hash, slug), RunPrefix(hash, slug);
    forall t | LiveTag(after, t) ensures RunOf(t, prefix).None? {
      assert !MatchesStory(t, hash, slug) by {
        var after := Tombstoned(frames, hash, slug);
        var i :| 0 <= i < |after| && !after[i].deleted && t in after[i].tags;
        assert !Targeted(frames[i], hash, slug);
      }
      if prefix <= t {
        RunTagsMatch(t, hash, slug);
      }
    }
    LatestAttained(after, prefix);
  }

  lemma {:induction false} StoryTagSplits(kind: string, hash: string, slug: string)
    requires ColonFree(kind) && ColonFree(hash)
    ensures Split(ForgeTag(kind, hash, slug, None, None), ':') == ["forge", kind, hash] + Split(slug, ':')
  {
    var three, tag := ["forge", kind, hash], ForgeTag(kind, hash, slug, None, None);
    JoinFour("forge", kind, hash, slug);
    JoinOneMore(three, slug);
    assert three + [slug] == ["forge", kind, hash, slug];
    PrefixIsJoin(kind, hash, slug);
    assert tag == Join(three, ':') + (":" + slug) == Join(three, ':') + [':'] + slug;
    SplitPrefix(three, tag, ':');
  }

  lemma {:induction false} FirstPieceIs(s: string, first: string)
    requires ColonFree(first)
    ensures Split(s, ':')[0] == first <==> s == first || first + ":" <= s
  {
    SplitPrefix([first], s, ':');
    SplitJoin([first], ':');
    var fs := Split(s, ':');
    if |fs| > 1 {
      assert fs[..1] == [fs[0]];
    }
  }

  /** What a tag has behind its slug. */
  function BehindSlug(runN: Option<nat>, part: Option<string>): string {
    (if runN.Some? then ":r" + Decimal(runN.value) else "") + (if part.Some? then ":" + part.value else "")
  }

  lemma {:induction false} SlugGoesOn(kind: string, hash: string, slug: string, runN: Option<nat>, part: Option<string>)
    ensures ForgeTag(kind, hash, slug, runN, part) == ForgeTag(kind, hash, slug + BehindSlug(runN, part), None, None)
    ensures BehindSlug(runN, part) == "" || BehindSlug(runN, part)[0] == ':'
  {
  }

  /** Text from a colon on does not change whether a slug begins with another one. */
  lemma {:induction false} ColonEndsSlug(slug: string, slug2: string, rest: string)
    requires ColonFree(slug) && (rest == "" || rest[0] == ':')
    ensures slug2 + rest == slug || slug + ":" <= slug2 + rest <==> slug2 == slug || slug + ":" <= slug2
  {
    var all, longer := slug2 + rest, slug + ":";
    if rest == "" {
      assert all == slug2;
    } else {
      assert all[|slug2|] == ':' && longer[|slug|] == ':';
      if longer <= all {
        assert all[|slug|] == ':' && slug == all[..|slug|];
        if |slug| < |slug2| {
          assert slug2[..|slug| + 1] == longer;
        }
      }
      if longer <= slug2 {
        assert all[..|longer|] == slug2[..|longer|];
      }
    }
  }

  lemma {:induction false} HitsBare(kind: string, hash: string, slug: string, hash2: string, slug2: string)
    requires kind in STORY_KINDS && Story(hash, slug) && ColonFree(hash2)
    ensures MatchesStory(ForgeTag(kind, hash2, slug2, None, None), hash, slug) <==>
            hash2 == hash && (slug2 == slug || slug + ":" <= slug2)
  {
    var tag := ForgeTag(kind, hash2, slug2, None, None);
    PrefixTestIsExact(tag, hash, slug);
    StoryTagSplits(kind, hash2, slug2);
    FirstPieceIs(slug2, slug);
    var fs := Split(tag, ':');
    assert fs[2] == hash2 && fs[3] == Split(slug2, ':')[0];
  }

  /** Removing a story hits a tag of another one, of any kind, run and part, exactly if that has the
      same hash and a slug that is the story's own, or goes on behind it with a colon. */
  lemma {:induction false} HitsExactly(kind: string, hash: string, slug: string, hash2: string, slug2: string,
                                       runN: Option<nat>, part: Option<string>)
    requires kind in STORY_KINDS && Story(hash, slug) && ColonFree(hash2)
    ensures MatchesStory(ForgeTag(kind, hash2, slug2, runN, part), hash, slug) <==>
            hash2 == hash && (slug2 == slug || slug + ":" <= slug2)
  {
    SlugGoesOn(kind, hash2, slug2, runN, part);
    HitsBare(kind, hash, slug, hash2, slug2 + BehindSlug(runN, part));
    ColonEndsSlug(slug, slug2, BehindSlug(runN, part));
  }

  lemma {:induction false} NoColonBehind(s: string, t: string)
    requires ColonFree(t)
    ensures !(s + ":" <= t)
  {
    var longer := s + ":";
    assert longer[|s|] == ':';
  }

  /** So between sanitised slugs removal never goes astray, whatever the tag. */
  lemma {:induction false} SlugsAreSafe(kind: string, hash: string, raw: string, hash2: string, raw2: string,
                                        runN: Option<nat>, part: Option<string>)
    requires kind in STORY_KINDS && ColonFree(hash) && ColonFree(hash2)
    ensures MatchesStory(ForgeTag(kind, hash2, Slug(raw2), runN, part), hash, Slug(raw)) <==>
            hash2 == hash && Slug(raw2) == Slug(raw)
  {
    SlugIsKebab(raw);
    SlugIsKebab(raw2);
    HitsExactly(kind, hash, Slug(raw), hash2, Slug(raw2), runN, part);
    NoColonBehind(Slug(raw), Slug(raw2));
  }
}
