/** What a run of a story leaves behind, tag by tag, and what is left of it when the story is removed. */
module RunOutcomes {
  import opened Text
  import opened ForgeTags
  import opened RunLedger
  import opened LedgerProofs

  // ---------- the tags of a run ----------

  /** The kinds of frames in the order a run writes them, and the parts of the ledger. */
  const KINDS := ["request", "run", "run", "run", "run", "spec", "plan", "tasks", "brain"]
  const PARTS := ["", "input", "prompt", "output", "meta"]

  function PartAt(i: nat): Option<string> {
    if 1 <= i < 5 then Some(PARTS[i]) else None
  }

  /** How many frames there are when step `failAt` fails: the retrieval and the generation write none. */
  function FramesBefore(failAt: nat): nat {
    if failAt <= 1 then failAt
    else if failAt <= 3 then 1
    else if failAt <= 11 then failAt - 2
    else 9
  }

  lemma {:induction false} PartsAreWords(i: nat)
    requires 1 <= i < 5
    ensures LEDGER_PARTS[i - 1] == PARTS[i] && ColonFree(PARTS[i]) && RunField(PARTS[i]).None?
  {
  }

  lemma {:induction false} KindsAreWords(i: nat)
    requires i < 9
    ensures ColonFree(KINDS[i])
  {
  }

  lemma {:induction false} TagAt(hash: string, slug: string, n: nat, failAt: nat, i: nat)
    requires i < FramesBefore(failAt)
    ensures |RunTags(hash, slug, n, failAt)| == FramesBefore(failAt)
    ensures RunTags(hash, slug, n, failAt)[i] ==
            if i == 0 then RequestTag(hash, slug, n)
            else if i < 5 then LedgerTag(hash, slug, n, i - 1)
            else ArtifactTag(hash, slug, i - 5)
  {
    var request := [RequestTag(hash, slug, n)];
    var ledger := LedgerTags(hash, slug, n, LedgerCount(failAt));
    var artifacts := ArtifactTags(hash, slug, Clamp(failAt - 7, 4));
    assert RunTags(hash, slug, n, failAt) == request + ledger + artifacts;
  }

  lemma {:induction false} ReadsAs(ty: string, hash: string, slug: string, runN: Option<nat>, part: Option<string>)
    requires ColonFreeParts(ty, hash, slug, part) && (runN.Some? ==> runN.value <= U32_MAX)
    requires part.Some? ==> RunField(part.value).None?
    ensures ParseForgeTag(ForgeTag(ty, hash, slug, runN, part)) == Some(Parts(ty, hash, slug, runN, part))
  {
    TagRoundTrip(ty, hash, slug, runN, part);
  }

  /** A run that fails at some step has written, in this order: the request, the four parts of the ledger, all
      with the run's number, and the four artifacts without one; as many of them as come before that step. */
  lemma {:induction false} RunWritesInOrder(hash: string, slug: string, n: nat, failAt: nat, i: nat)
    requires Story(hash, slug) && n <= U32_MAX && i < FramesBefore(failAt)
    ensures |RunTags(hash, slug, n, failAt)| == FramesBefore(failAt) <= 9
    ensures ParseForgeTag(RunTags(hash, slug, n, failAt)[i]) ==
            Some(Parts(KINDS[i], hash, slug, if i < 5 then Some(n) else None, PartAt(i)))
  {
    TagAt(hash, slug, n, failAt, i);
    KindsAreWords(i);
    if i == 0 {
      ReadsAs("request", hash, slug, Some(n), None);
    } else if i < 5 {
      PartsAreWords(i);
      ReadsAs("run", hash, slug, Some(n), Some(PARTS[i]));
    } else {
      assert ARTIFACTS[i - 5] == KINDS[i];
      ReadsAs(KINDS[i], hash, slug, None, None);
    }
  }

  /** Nothing is written where the first step fails. */
  lemma {:induction false} NothingWrittenAtFirst(hash: string, slug: string, n: nat)
    ensures RunTags(hash, slug, n, 0) == []
  {
  }

  // ---------- run numbers ----------

  lemma {:induction false} CountsAreLedger(tag: string, hash: string, slug: string)
    requires RunOf(tag, RunPrefix(hash, slug)).Some?
    ensures IsLedger(tag)
  {
    var prefix := RunPrefix(hash, slug);
    assert "forge:run:" <= prefix <= tag;
  }

  /** Tags that count for one number at most raise the latest run to it, if one counts at all. */
  lemma {:induction false} LatestAfterWriting(b: Brain, tags: seq<string>, prefix: string, n: nat)
    requires forall t :: t in tags ==> RunOf(t, prefix) == None || RunOf(t, prefix) == Some(n)
    ensures LatestIn(WriteAll(b, tags).frames, prefix) ==
            if SomeCounts(tags, prefix, n) then Max(LatestIn(b.frames, prefix), n) else LatestIn(b.frames, prefix)
    decreases |tags|
  {
    if tags == [] {
      assert WriteAll(b, tags).frames == b.frames;
    } else {
      var front, last := tags[..|tags| - 1], tags[|tags| - 1];
      assert tags == front + [last];
      LatestAfterWriting(b, front, prefix, n);
      WriteOneMore(b, front, last, prefix);
      assert SomeCounts(tags, prefix, n) <==> SomeCounts(front, prefix, n) || RunOf(last, prefix) == Some(n);
    }
  }

  predicate SomeCounts(tags: seq<string>, prefix: string, n: nat) {
    exists t :: t in tags && RunOf(t, prefix) == Some(n)
  }

  lemma {:induction false} WriteOneMore(b: Brain, front: seq<string>, last: string, prefix: string)
    ensures LatestIn(WriteAll(b, front + [last]).frames, prefix) ==
            Max(LatestIn(WriteAll(b, front).frames, prefix),
              if RunOf(last, prefix).Some? then RunOf(last, prefix).value else 0)
  {
    var frames, f := WriteAll(b, front).frames, Frame(b.nextId + 1 + |front|, [last], false);
    assert WriteAll(b, front + [last]).frames == frames + [f];
    LatestOneMore(frames, f, prefix);
    LatestOfOne(last, prefix);
  }

  lemma {:induction false} LatestOneMore(frames: seq<Frame>, f: Frame, prefix: string)
    ensures LatestIn(frames + [f], prefix) ==
            Max(LatestIn(frames, prefix), if f.deleted then 0 else LatestInTags(f.tags, prefix))
  {
    assert (frames + [f])[..|frames|] == frames;
  }

  lemma {:induction false} LatestOfOne(tag: string, prefix: string)
    ensures LatestInTags([tag], prefix) == if RunOf(tag, prefix).Some? then RunOf(tag, prefix).value else 0
  {
    assert [tag][..0] == [];
  }

  lemma {:induction false} TagsCount(c: RunCall, n: nat, hash: string, slug: string, t: string)
    requires Story(c.hash, c.slug) && Story(hash, slug) && n <= U32_MAX
    requires t in RunTags(c.hash, c.slug, n, c.failAt)
    ensures RunOf(t, RunPrefix(hash, slug)) ==
            if IsLedger(t) && hash == c.hash && slug == c.slug then Some(n) else None
  {
    var tags := RunTags(c.hash, c.slug, n, c.failAt);
    var i :| 0 <= i < |tags| && tags[i] == t;
    LengthOfRun(c.hash, c.slug, n, c.failAt);
    TagAt(c.hash, c.slug, n, c.failAt, i);
    if 1 <= i < 5 {
      KindsTellApart(c.hash, c.slug, n, i - 1);
      CountsForItsStory(hash, slug, c.hash, c.slug, n, i - 1);
    } else {
      KindsTellApart(c.hash, c.slug, n, if i == 0 then 0 else i - 5);
      if RunOf(t, RunPrefix(hash, slug)).Some? {
        CountsAreLedger(t, hash, slug);
      }
    }
  }

  lemma {:induction false} LengthOfRun(hash: string, slug: string, n: nat, failAt: nat)
    ensures |RunTags(hash, slug, n, failAt)| == FramesBefore(failAt)
  {
    if failAt > 0 {
      TagAt(hash, slug, n, failAt, 0);
    }
  }

  /** A run that gets as far as the ledger takes the next number of its story, and a run that fails before
      leaves the number to the next one; other stories keep theirs. */
  lemma {:induction false} RunsCountUp(b: Brain, c: RunCall, hash: string, slug: string)
    requires Story(c.hash, c.slug) && Story(hash, slug)
    ensures var before, after := LatestRun(b.frames, hash, slug), LatestRun(RunOnce(b, c).0.frames, hash, slug);
      after ==
        if hash == c.hash && slug == c.slug && !c.skip && before < U32_MAX && c.failAt > 3 then before + 1 else before
  {
    var latest := LatestRun(b.frames, c.hash, c.slug);
    if !c.skip && latest < U32_MAX {
      var n: nat := latest + 1;
      WritingCounts(b, c, n, hash, slug);
      assert RunOnce(b, c).0 == WriteAll(b, RunTags(c.hash, c.slug, n, c.failAt));
    } else {
      assert RunOnce(b, c).0 == b;
    }
  }

  lemma {:induction false} WritingCounts(b: Brain, c: RunCall, n: nat, hash: string, slug: string)
    requires Story(c.hash, c.slug) && Story(hash, slug) && n <= U32_MAX
    ensures var before := LatestRun(b.frames, hash, slug);
      LatestRun(WriteAll(b, RunTags(c.hash, c.slug, n, c.failAt)).frames, hash, slug) ==
        if hash == c.hash && slug == c.slug && c.failAt > 3 then Max(before, n) else before
  {
    var tags, prefix := RunTags(c.hash, c.slug, n, c.failAt), RunPrefix(hash, slug);
    forall t | t in tags
      ensures RunOf(t, prefix) == if IsLedger(t) && hash == c.hash && slug == c.slug then Some(n) else None
    {
      TagsCount(c, n, hash, slug, t);
    }
    LatestAfterWriting(b, tags, prefix, n);
    SomeLedger(c, n);
    assert SomeCounts(tags, prefix, n) <==> hash == c.hash && slug == c.slug && c.failAt > 3;
  }

  lemma {:induction false} SomeLedger(c: RunCall, n: nat)
    ensures (exists t :: t in RunTags(c.hash, c.slug, n, c.failAt) && IsLedger(t)) <==> c.failAt > 3
  {
    var tags := RunTags(c.hash, c.slug, n, c.failAt);
    LengthOfRun(c.hash, c.slug, n, c.failAt);
    if c.failAt > 3 {
      TagAt(c.hash, c.slug, n, c.failAt, 1);
      KindsTellApart(c.hash, c.slug, n, 0);
      assert tags[1] in tags;
    } else if t :| t in tags && IsLedger(t) {
      var i :| 0 <= i < |tags| && tags[i] == t;
      TagAt(c.hash, c.slug, n, c.failAt, i);
      KindsTellApart(c.hash, c.slug, n, 0);
    }
  }

  // ---------- removal ----------

  lemma {:induction false} KindIsRemoved(i: nat)
    requires i < 9
    ensures KINDS[i] in STORY_KINDS
  {
    assert STORY_KINDS[1] == "request" && STORY_KINDS[2] == "run" && STORY_KINDS[3] == "spec"
           && STORY_KINDS[4] == "plan" && STORY_KINDS[5] == "tasks" && STORY_KINDS[6] == "brain";
  }

  lemma {:induction false} RunTagsAreHit(hash: string, slug: string, n: nat, failAt: nat, t: string)
    requires Story(hash, slug) && t in RunTags(hash, slug, n, failAt)
    ensures MatchesStory(t, hash, slug)
  {
    var tags := RunTags(hash, slug, n, failAt);
    var i :| 0 <= i < |tags| && tags[i] == t;
    LengthOfRun(hash, slug, n, failAt);
    TagAt(hash, slug, n, failAt, i);
    KindIsRemoved(i);
    if i == 0 {
      HitsExactly("request", hash, slug, hash, slug, Some(n), None);
    } else if i < 5 {
      HitsExactly("run", hash, slug, hash, slug, Some(n), Some(LEDGER_PARTS[i - 1]));
    } else {
      assert ARTIFACTS[i - 5] == KINDS[i];
      HitsExactly(KINDS[i], hash, slug, hash, slug, None, None);
    }
  }

  /** After a story has been removed, no tag that any of its runs writes, nor the story's own, is live. */
  lemma {:induction false} RemovalErasesRuns(frames: seq<Frame>, hash: string, slug: string, n: nat, failAt: nat,
                                             t: string)
    requires Story(hash, slug)
    requires t in RunTags(hash, slug, n, failAt) || t == ForgeTag("story", hash, slug, None, None)
    ensures !LiveTag(Tombstoned(frames, hash, slug), t)
  {
    if t in RunTags(hash, slug, n, failAt) {
      RunTagsAreHit(hash, slug, n, failAt, t);
    } else {
      assert STORY_KINDS[0] == "story";
      HitsExactly("story", hash, slug, hash, slug, None, None);
    }
    MatchingIsGone(frames, hash, slug, t);
  }

  lemma {:induction false} FrameIsGone(f: Frame, hash: string, slug: string, t: string)
    requires MatchesStory(t, hash, slug)
    ensures t in f.tags ==> f.deleted || Targeted(f, hash, slug)
  {
  }

  lemma {:induction false} MatchingIsGone(frames: seq<Frame>, hash: string, slug: string, t: string)
    requires MatchesStory(t, hash, slug)
    ensures !LiveTag(Tombstoned(frames, hash, slug), t)
  {
    var after := Tombstoned(frames, hash, slug);
    forall i | 0 <= i < |after| ensures after[i].deleted || t !in after[i].tags {
      FrameIsGone(frames[i], hash, slug, t);
    }
  }
}
