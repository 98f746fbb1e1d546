/** Tag-addressed frames and the runs that write them: `crates/said-forge/src/frame.rs`
    and the order of steps in `run_one` of `crates/said-forge/src/runner.rs`. */
module RunLedger {
  import opened Text
  import opened ForgeTags

  datatype Frame = Frame(id: nat, tags: seq<string>, deleted: bool)

  // ---------- queries over the frames ----------

  ghost predicate LiveTag(frames: seq<Frame>, tag: string) {
    exists i :: 0 <= i < |frames| && !frames[i].deleted && tag in frames[i].tags
  }

  /** What every ledger tag of a story begins with. */
  function RunPrefix(hash: string, slug: string): string {
    "forge:run:" + hash + ":" + slug + ":r"
  }

  /** The run number a tag counts for under a prefix. */
  function RunOf(tag: string, prefix: string): Option<nat> {
    if prefix <= tag then ParseUnsigned(Split(tag[|prefix|..], ':')[0], U32_MAX) else None
  }

  function Max(a: nat, b: nat): nat {
    if a < b then b else a
  }

  function LatestInTags(tags: seq<string>, prefix: string): nat {
    if tags == [] then 0
    else
      var n := RunOf(tags[|tags| - 1], prefix);
      Max(LatestInTags(tags[..|tags| - 1], prefix), if n.Some? then n.value else 0)
  }

  function LatestIn(frames: seq<Frame>, prefix: string): nat {
    if frames == [] then 0
    else
      var f := frames[|frames| - 1];
      Max(LatestIn(frames[..|frames| - 1], prefix), if f.deleted then 0 else LatestInTags(f.tags, prefix))
  }

  lemma {:induction false} LatestTagStep(tags: seq<string>, j: nat, prefix: string)
    requires j < |tags|
    ensures var n := RunOf(tags[j], prefix);
      LatestInTags(tags[..j + 1], prefix) == Max(LatestInTags(tags[..j], prefix), if n.Some? then n.value else 0)
  {
    assert tags[..j + 1][..j] == tags[..j];
  }

  lemma {:induction false} LatestStep(frames: seq<Frame>, i: nat, prefix: string)
    requires i < |frames|
    ensures LatestIn(frames[..i + 1], prefix) ==
            Max(LatestIn(frames[..i], prefix), if frames[i].deleted then 0 else LatestInTags(frames[i].tags, prefix))
  {
    assert frames[..i + 1][..i] == frames[..i];
  }

  function LatestRun(frames: seq<Frame>, hash: string, slug: string): nat {
    LatestIn(frames, RunPrefix(hash, slug))
  }

  /** The frame kinds that belong to a story. */
  const STORY_KINDS := ["story", "request", "run", "spec", "plan", "tasks", "brain"]

  function StoryPrefixes(hash: string, slug: string): seq<string> {
    seq(|STORY_KINDS|, i requires 0 <= i < |STORY_KINDS| => "forge:" + STORY_KINDS[i] + ":" + hash + ":" + slug)
  }

  predicate MatchesStory(tag: string, hash: string, slug: string) {
    exists i :: 0 <= i < |StoryPrefixes(hash, slug)| &&
      (tag == StoryPrefixes(hash, slug)[i] || StoryPrefixes(hash, slug)[i] + ":" <= tag)
  }

  predicate Targeted(f: Frame, hash: string, slug: string) {
    !f.deleted && exists t :: t in f.tags && MatchesStory(t, hash, slug)
  }

  /** Every targeted frame marked deleted, all others as they were. */
  function Tombstoned(frames: seq<Frame>, hash: string, slug: string): (r: seq<Frame>)
    ensures |r| == |frames|
  {
    seq(|frames|, i requires 0 <= i < |frames| =>
      if Targeted(frames[i], hash, slug) then frames[i].(deleted := true) else frames[i])
  }

  ghost predicate DistinctIds(frames: seq<Frame>) {
    forall i, j :: 0 <= i < j < |frames| ==> frames[i].id != frames[j].id
  }

  function TargetedIds(frames: seq<Frame>, hash: string, slug: string): seq<nat> {
    if frames == [] then []
    else
      var f := frames[|frames| - 1];
      TargetedIds(frames[..|frames| - 1], hash, slug) + if Targeted(f, hash, slug) then [f.id] else []
  }

  lemma {:induction false} TargetedIdsMeans(frames: seq<Frame>, hash: string, slug: string)
    requires DistinctIds(frames)
    ensures forall i :: 0 <= i < |frames| ==>
            (frames[i].id in TargetedIds(frames, hash, slug) <==> Targeted(frames[i], hash, slug))
    ensures forall id :: id in TargetedIds(frames, hash, slug) ==> exists i :: 0 <= i < |frames| && frames[i].id == id
    decreases |frames|
  {
    if frames != [] {
      var init := frames[..|frames| - 1];
      TargetedIdsMeans(init, hash, slug);
      forall id | id in TargetedIds(frames, hash, slug) ensures exists i :: 0 <= i < |frames| && frames[i].id == id {
        if id in TargetedIds(init, hash, slug) {
          var i :| 0 <= i < |init| && init[i].id == id;
          assert frames[i].id == id;
        }
      }
    }
  }

  // ---------- a run ----------

  /** The tags a run writes, in order: the request, the ledger, the artifacts. */
  function RequestTag(hash: string, slug: string, n: nat): string {
    ForgeTag("request", hash, slug, Some(n), None)
  }

  const LEDGER_PARTS := ["input", "prompt", "output", "meta"]
  const ARTIFACTS := ["spec", "plan", "tasks", "brain"]

  function LedgerTag(hash: string, slug: string, n: nat, part: nat): string
    requires part < 4
  {
    ForgeTag("run", hash, slug, Some(n), Some(LEDGER_PARTS[part]))
  }

  function ArtifactTag(hash: string, slug: string, kind: nat): string
    requires kind < 4
  {
    ForgeTag(ARTIFACTS[kind], hash, slug, None, None)
  }

  /** The steps of a run that can fail: request, retrieval, generation, four ledger
      writes, four artifact writes, project folder, editor skill. A failing step does
      nothing, and no later step happens. */
  const STEPS := 13

  function Clamp(n: int, limit: nat): (r: nat)
    ensures r <= limit
  {
    if n < 0 then 0 else if n > limit then limit else n
  }

  /** How many of the four ledger parts are written if step `failAt` fails. */
  function LedgerCount(failAt: nat): (k: nat)
    ensures k <= 4
  {
    Clamp(failAt - 3, 4)
  }

  function LedgerTags(hash: string, slug: string, n: nat, count: nat): seq<string>
    requires count <= 4
  {
    seq(count, i requires 0 <= i < count => LedgerTag(hash, slug, n, i))
  }

  function ArtifactTags(hash: string, slug: string, count: nat): seq<string>
    requires count <= 4
  {
    seq(count, i requires 0 <= i < count => ArtifactTag(hash, slug, i))
  }

  function RunTags(hash: string, slug: string, n: nat, failAt: nat): seq<string> {
    (if failAt > 0 then [RequestTag(hash, slug, n)] else [])
    + LedgerTags(hash, slug, n, LedgerCount(failAt))
    + ArtifactTags(hash, slug, Clamp(failAt - 7, 4))
  }

  datatype Outcome = Skipped | Failed(runN: nat) | Completed(runN: nat) | Overflow

  /** One call of `run_one`: `skip` when the story is complete and not forced, and the
      first step to fail, if any. */
  datatype RunCall = RunCall(hash: string, slug: string, skip: bool, failAt: nat)

  datatype Brain = Brain(frames: seq<Frame>, nextId: nat)

  function WriteAll(b: Brain, tags: seq<string>): Brain {
    Brain(b.frames + seq(|tags|, i requires 0 <= i < |tags| => Frame(b.nextId + 1 + i, [tags[i]], false)),
          b.nextId + |tags|)
  }

  lemma {:induction false} WriteAllTwice(b: Brain, x: seq<string>, y: seq<string>)
    ensures WriteAll(WriteAll(b, x), y) == WriteAll(b, x + y)
  {
  }

  /** What a run writes and answers. The next number must fit 32 bits. */
  function RunOnce(b: Brain, c: RunCall): (Brain, Outcome) {
    var latest := LatestRun(b.frames, c.hash, c.slug);
    if c.skip then (b, Skipped)
    else if latest >= U32_MAX then (b, Overflow)
    else (WriteAll(b, RunTags(c.hash, c.slug, latest + 1, c.failAt)),
          if c.failAt < STEPS then Failed(latest + 1) else Completed(latest + 1))
  }

  // ---------- the brain object ----------

  class MemBrain {
    var frames: seq<Frame>
    var nextId: nat

    ghost predicate Valid()
      reads this
    {
      DistinctIds(frames) && forall i :: 0 <= i < |frames| ==> frames[i].id <= nextId
    }

    ghost function Model(): Brain
      reads this
    {
      Brain(frames, nextId)
    }

    constructor ()
      ensures Valid() && Model() == Brain([], 0)
    {
      frames, nextId := [], 0;
    }

    method Remember(tags: seq<string>) returns (id: nat)
      requires Valid()
      modifies this
      ensures Valid() && id == nextId == old(nextId) + 1
      ensures frames == old(frames) + [Frame(id, tags, false)]
    {
      nextId := nextId + 1;
      id := nextId;
      frames := frames + [Frame(id, tags, false)];
    }

    method Delete(id: nat) returns (any: bool)
      requires Valid()
      modifies this`frames
      ensures Valid() && |frames| == |old(frames)|
      ensures forall i :: 0 <= i < |frames| ==>
        frames[i] == if old(frames)[i].id == id then old(frames)[i].(deleted := true) else old(frames)[i]
      ensures any <==> exists i :: 0 <= i < |frames| && old(frames)[i].id == id && !old(frames)[i].deleted
    {
      any := false;
      for k := 0 to |frames|
        invariant |frames| == |old(frames)|
        invariant forall i :: 0 <= i < |frames| ==>
          frames[i] == if i < k && old(frames)[i].id == id then old(frames)[i].(deleted := true) else old(frames)[i]
        invariant any <==> exists i :: 0 <= i < k && old(frames)[i].id == id && !old(frames)[i].deleted
      {
        if frames[k].id == id && !frames[k].deleted {
          frames := frames[k := frames[k].(deleted := true)];
          any := true;
        }
      }
    }

    method LatestRunN(hash: string, slug: string) returns (maxN: nat)
      ensures maxN == LatestRun(frames, hash, slug)
    {
      var prefix := RunPrefix(hash, slug);
      maxN := 0;
      for i := 0 to |frames|
        invariant maxN == LatestIn(frames[..i], prefix)
      {
        LatestStep(frames, i, prefix);
        if !frames[i].deleted {
          var tags := frames[i].tags;
          ghost var before := maxN;
          for j := 0 to |tags|
            invariant maxN == Max(before, LatestInTags(tags[..j], prefix))
          {
            LatestTagStep(tags, j, prefix);
            var n := RunOf(tags[j], prefix);
            if n.Some? && n.value > maxN {
              maxN := n.value;
            }
          }
          assert tags[..|tags|] == tags;
        }
      }
      assert frames[..|frames|] == frames;
    }

    method Targets(hash: string, slug: string) returns (toDelete: seq<nat>)
      ensures toDelete == TargetedIds(frames, hash, slug)
    {
      toDelete := [];
      for i := 0 to |frames|
        invariant toDelete == TargetedIds(frames[..i], hash, slug)
      {
        assert frames[..i + 1][..i] == frames[..i];
        if Targeted(frames[i], hash, slug) {
          toDelete := toDelete + [frames[i].id];
        }
      }
      assert frames[..|frames|] == frames;
    }

    method DeleteAll(ids: seq<nat>)
      requires Valid()
      modifies this`frames
      ensures Valid() && |frames| == |old(frames)|
      ensures forall i :: 0 <= i < |frames| ==>
        frames[i] == if old(frames)[i].id in ids then old(frames)[i].(deleted := true) else old(frames)[i]
    {
      ghost var was := frames;
      for k := 0 to |ids|
        invariant Valid() && |frames| == |was|
        invariant forall i :: 0 <= i < |frames| ==>
          frames[i] == if was[i].id in ids[..k] then was[i].(deleted := true) else was[i]
      {
        var _ := Delete(ids[k]);
        assert ids[..k + 1] == ids[..k] + [ids[k]];
      }
      assert ids[..|ids|] == ids;
    }

    method TombstoneStory(hash: string, slug: string) returns (n: nat)
      requires Valid()
      modifies this`frames
      ensures Valid() && frames == Tombstoned(old(frames), hash, slug)
      ensures n == |TargetedIds(old(frames), hash, slug)|
    {
      var toDelete := Targets(hash, slug);
      TargetedIdsMeans(frames, hash, slug);
      DeleteAll(toDelete);
      n := |toDelete|;
    }

    method WriteRunLedger(hash: string, slug: string, n: nat, allowed: int) returns (ok: bool)
      requires Valid()
      modifies this
      ensures Valid() && (ok <==> allowed >= 4)
      ensures Model() == WriteAll(old(Model()), LedgerTags(hash, slug, n, Clamp(allowed, 4)))
    {
      for part := 0 to 4
        invariant Valid() && (part <= allowed || part == 0)
        invariant Model() == WriteAll(old(Model()), LedgerTags(hash, slug, n, part))
      {
        if part >= allowed {
          return false;
        }
        var _ := Remember([LedgerTag(hash, slug, n, part)]);
      }
      return true;
    }

    method WriteArtifacts(hash: string, slug: string, allowed: int) returns (ok: bool)
      requires Valid()
      modifies this
      ensures Valid() && (ok <==> allowed >= 4)
      ensures Model() == WriteAll(old(Model()), ArtifactTags(hash, slug, Clamp(allowed, 4)))
    {
      for kind := 0 to 4
        invariant Valid() && (kind <= allowed || kind == 0)
        invariant Model() == WriteAll(old(Model()), ArtifactTags(hash, slug, kind))
      {
        if kind >= allowed {
          return false;
        }
        var _ := Remember([ArtifactTag(hash, slug, kind)]);
      }
      return true;
    }

    method RunOne(c: RunCall) returns (outcome: Outcome)
      requires Valid()
      modifies this
      ensures Valid() && (Model(), outcome) == RunOnce(old(Model()), c)
    {
      if c.skip {
        return Skipped;
      }
      var latest := LatestRunN(c.hash, c.slug);
      if latest >= U32_MAX {
        return Overflow;
      }
      var n := latest + 1;
      ghost var b := Model();
      if c.failAt == 0 {
        assert RunTags(c.hash, c.slug, n, 0) == [] && WriteAll(b, []) == b;
        return Failed(n);
      }
      var _ := Remember([RequestTag(c.hash, c.slug, n)]);
      assert Model() == WriteAll(b, [RequestTag(c.hash, c.slug, n)]);
      if c.failAt == 1 || c.failAt == 2 {
        assert RunTags(c.hash, c.slug, n, c.failAt) == [RequestTag(c.hash, c.slug, n)];
        return Failed(n);
      }
      var ok := WriteRunLedger(c.hash, c.slug, n, c.failAt - 3);
      WriteAllTwice(b, [RequestTag(c.hash, c.slug, n)], LedgerTags(c.hash, c.slug, n, LedgerCount(c.failAt)));
      if !ok {
        assert RunTags(c.hash, c.slug, n, c.failAt) ==
               [RequestTag(c.hash, c.slug, n)] + LedgerTags(c.hash, c.slug, n, LedgerCount(c.failAt));
        return Failed(n);
      }
      ok := WriteArtifacts(c.hash, c.slug, c.failAt - 7);
      WriteAllTwice(b, [RequestTag(c.hash, c.slug, n)] + LedgerTags(c.hash, c.slug, n, LedgerCount(c.failAt)),
                    ArtifactTags(c.hash, c.slug, Clamp(c.failAt - 7, 4)));
      if !ok {
        return Failed(n);
      }
      if c.failAt == 11 || c.failAt == 12 {
        return Failed(n);
      }
      return Completed(n);
    }
  }
}
