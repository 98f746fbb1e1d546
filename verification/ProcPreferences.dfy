/** Which of several procedures the matcher of `ProcMatcher` prefers, said of the rows of the
    database and not of their scores. */
module ProcPreferences {
  import opened Text
  import opened Lists
  import opened ProcMatcher
  import opened ProcMatcherProofs

  // ---------- what is looked at ----------

  function Squashed(r: Row): string {
    Remove(Lower(r.name), "_")
  }

  ghost predicate Within(s: string, p: string) {
    exists i :: OccursAt(s, p, i)
  }

  /** The word stands in the name, with an underscore behind it, or in front of it at the end of the name;
      or in the name without its underscores. */
  ghost predicate Mentions(r: Row, word: string) {
    var name := Lower(r.name);
    || Within(name, word + "_")
    || Ends(name, "_" + word)
    || Within(Squashed(r), word)
  }

  /** The same for the stem of a word, but the underscore behind it has to be met by one in front. */
  ghost predicate MentionsStem(r: Row, word: string) {
    var name, stem := Lower(r.name), if Ends(word, "s") then word[..|word| - 1] else word;
    || Within(name, "_" + stem + "_")
    || Ends(name, "_" + stem)
    || Within(Squashed(r), stem)
  }

  predicate Ends(s: string, p: string) {
    |p| <= |s| && s[|s| - |p|..] == p
  }

  /** The verbs in the name that the method does not allow. */
  ghost function WrongVerbs(r: Row, q: Query): set<string> {
    WrongAmong(Lower(r.name), q.allowedVerbs, VERBS)
  }

  ghost function WrongAmong(name: string, allowed: seq<string>, verbs: seq<string>): set<string> {
    set v | v in verbs && v !in allowed && Within(name, v)
  }

  ghost predicate Hit(r: Row, tokens: set<string>) {
    exists t :: t in tokens && Mentions(r, t)
  }

  ghost predicate NearHit(r: Row, tokens: set<string>) {
    exists t :: t in tokens && (Mentions(r, t) || MentionsStem(r, t))
  }

  predicate EndsWithEntity(r: Row, q: Query) {
    Ends(Squashed(r), Lower(q.entity))
  }

  predicate Transactional(r: Row) {
    "p_txn_" <= Lower(r.name)
  }

  predicate SchemaIsEntity(r: Row, q: Query) {
    Lower(r.schema) == Lower(q.entity)
  }

  /** At least as good in every respect. */
  ghost predicate AsGood(r: Row, s: Row, tokens: set<string>, q: Query) {
    && |WrongVerbs(r, q)| <= |WrongVerbs(s, q)|
    && (Hit(s, tokens) ==> Hit(r, tokens))
    && (NearHit(s, tokens) ==> NearHit(r, tokens))
    && (EndsWithEntity(s, q) ==> EndsWithEntity(r, q))
    && (Transactional(s) ==> Transactional(r))
    && (SchemaIsEntity(s, q) ==> SchemaIsEntity(r, q))
  }

  /** And clearly better in one that counts: fewer verbs of other methods, a search token in the name, or the
      entity at its end. */
  ghost predicate Outranks(r: Row, s: Row, tokens: set<string>, q: Query) {
    && AsGood(r, s, tokens, q)
    && (|WrongVerbs(r, q)| < |WrongVerbs(s, q)| || (Hit(r, tokens) && !Hit(s, tokens)) ||
        (EndsWithEntity(r, q) && !EndsWithEntity(s, q)))
  }

  // ---------- what the score makes of it ----------

  function Points(r: Row, tokens: set<string>, q: Query): int {
    Score(r, tokens, q, VERBS)
  }

  lemma {:induction false} WithinIsContains(s: string, p: string)
    ensures Contains(s, p) <==> Within(s, p)
  {
    if Contains(s, p) {
      assert OccursAt(s, p, Find(s, p).value);
    }
  }

  lemma {:induction false} BoundedIsBehind(s: string, word: string)
    requires Within(s, "_" + word + "_")
    ensures Within(s, word + "_")
  {
    var bounded := "_" + word + "_";
    var i :| OccursAt(s, bounded, i);
    assert bounded[1..] == word + "_";
    assert s[i + 1..i + 1 + |word + "_"|] == s[i..i + |bounded|][1..];
    assert OccursAt(s, word + "_", i + 1);
  }

  lemma {:induction false} EndsIsEnd(s: string, p: string)
    ensures EndsWith(s, p) <==> Ends(s, p)
  {
    assert |p| <= |s| ==> s[|s| - |p|..|s|] == s[|s| - |p|..];
  }

  lemma {:induction false} TokenMeans(name: string, squashed: string, t: string)
    ensures TokenHit(name, squashed, t) <==> Within(name, t + "_") || Ends(name, "_" + t) || Within(squashed, t)
  {
    WithinIsContains(name, "_" + t + "_");
    WithinIsContains(name, t + "_");
    WithinIsContains(squashed, t);
    EndsIsEnd(name, "_" + t);
    if Within(name, "_" + t + "_") {
      BoundedIsBehind(name, t);
    }
  }

  lemma {:induction false} StemMeans(name: string, squashed: string, t: string, stem: string)
    requires stem == if Ends(t, "s") then t[..|t| - 1] else t
    ensures StemHit(name, squashed, t) <==>
            Within(name, "_" + stem + "_") || Ends(name, "_" + stem) || Within(squashed, stem)
  {
    EndsIsEnd(t, "s");
    WithinIsContains(name, "_" + stem + "_");
    WithinIsContains(squashed, stem);
    EndsIsEnd(name, "_" + stem);
  }

  lemma {:induction false} HitIsMention(r: Row, t: string)
    ensures TokenHit(Lower(r.name), Squashed(r), t) <==> Mentions(r, t)
    ensures StemHit(Lower(r.name), Squashed(r), t) <==> MentionsStem(r, t)
  {
    TokenMeans(Lower(r.name), Squashed(r), t);
    StemMeans(Lower(r.name), Squashed(r), t, if Ends(t, "s") then t[..|t| - 1] else t);
  }

  lemma {:induction false} BonusOfHits(r: Row, tokens: set<string>)
    ensures EntityBonus(Lower(r.name), Squashed(r), tokens) ==
            if Hit(r, tokens) then 50 else if NearHit(r, tokens) then 20 else 0
  {
    forall t ensures TokenHit(Lower(r.name), Squashed(r), t) <==> Mentions(r, t)
             ensures StemHit(Lower(r.name), Squashed(r), t) <==> MentionsStem(r, t)
    {
      HitIsMention(r, t);
    }
  }

  lemma {:induction false} MismatchesCount(name: string, allowed: seq<string>, verbs: seq<string>)
    requires forall i, j :: 0 <= i < j < |verbs| ==> verbs[i] != verbs[j]
    ensures Mismatches(name, allowed, verbs) == |WrongAmong(name, allowed, verbs)|
    decreases |verbs|
  {
    if verbs != [] {
      var v, rest := verbs[0], verbs[1..];
      assert forall i, j :: 0 <= i < j < |rest| ==> rest[i] == verbs[i + 1] && rest[j] == verbs[j + 1];
      MismatchesCount(name, allowed, rest);
      WithinIsContains(name, v);
      assert v !in rest;
      assert verbs == [v] + rest;
      OneMoreVerb(name, allowed, v, rest);
    }
  }

  lemma {:induction false} OneMoreVerb(name: string, allowed: seq<string>, v: string, rest: seq<string>)
    requires v !in rest
    ensures |WrongAmong(name, allowed, [v] + rest)| ==
            (if v !in allowed && Within(name, v) then 1 else 0) + |WrongAmong(name, allowed, rest)|
  {
    assert WrongAmong(name, allowed, [v] + rest) ==
           (if v !in allowed && Within(name, v) then {v} else {}) + WrongAmong(name, allowed, rest);
  }

  lemma {:induction false} VerbsDiffer(verbs: seq<string>)
    requires verbs == VERBS
    ensures forall i, j :: 0 <= i < j < |verbs| ==> verbs[i] != verbs[j]
  {
  }

  /** The score, in terms of what is looked at. */
  lemma {:induction false} ScoreOf(r: Row, tokens: set<string>, q: Query)
    ensures Points(r, tokens, q) ==
            100 - 50 * |WrongVerbs(r, q)|
            + (if Hit(r, tokens) then 50 else if NearHit(r, tokens) then 20 else 0)
            + (if Transactional(r) then 10 else 0) + (if EndsWithEntity(r, q) then 40 else 0)
            + (if SchemaIsEntity(r, q) then 5 else 0)
  {
    var verbs := VERBS;
    VerbsDiffer(verbs);
    MismatchesCount(Lower(r.name), q.allowedVerbs, verbs);
    BonusOfHits(r, tokens);
    BonusOfShape(r, q, "p_txn_");
    ScoreIsSum(r, tokens, q, verbs);
  }

  lemma {:induction false} ScoreIsSum(r: Row, tokens: set<string>, q: Query, verbs: seq<string>)
    ensures Score(r, tokens, q, verbs) ==
            100 - 50 * Mismatches(Lower(r.name), q.allowedVerbs, verbs)
            + EntityBonus(Lower(r.name), Squashed(r), tokens) + ShapeBonus(r, Lower(r.name), Squashed(r), q.entity)
  {
  }

  lemma {:induction false} BonusOfShape(r: Row, q: Query, prefix: string)
    requires prefix == "p_txn_"
    ensures ShapeBonus(r, Lower(r.name), Squashed(r), q.entity) ==
            (if Transactional(r) then 10 else 0) + (if EndsWithEntity(r, q) then 40 else 0)
            + (if SchemaIsEntity(r, q) then 5 else 0)
  {
    PrefixIsStart(Lower(r.name), prefix);
  }

  lemma {:induction false} PrefixIsStart(s: string, p: string)
    ensures StartsWith(s, p) <==> p <= s
  {
    assert |p| <= |s| ==> s[0..|p|] == s[..|p|];
  }

  lemma {:induction false} OutranksByMargin(r: Row, s: Row, tokens: set<string>, q: Query)
    requires Outranks(r, s, tokens, q)
    ensures Points(r, tokens, q) - Points(s, tokens, q) >= MARGIN
  {
    ScoreOf(r, tokens, q);
    ScoreOf(s, tokens, q);
  }

  // ---------- the survivors ----------

  /** The row passes the gates on its verb and its parameters. */
  predicate Survives(r: Row, q: Query, db: Db) {
    HasAllowedVerb(r.name, q.allowedVerbs) && SignatureAgrees(r.full, q, db)
  }

  function Survivor(r: Row, tokens: set<string>, q: Query, db: Db): Option<Scored> {
    if Survives(r, q, db) then Some(Scored(r.full, Points(r, tokens, q))) else None
  }

  lemma {:induction false} SurvivorsOfRows(rows: seq<Row>, tokens: set<string>, q: Query, db: Db)
    ensures Survivors3(Survivors1(rows, tokens, q), q, db) == FilterMap((r: Row) => Survivor(r, tokens, q, db), rows)
  {
    FilterMapTwice((r: Row) => Gate1(r, tokens, q, VERBS), (c: Scored) => Gate3(c, q, db),
                   (r: Row) => Survivor(r, tokens, q, db), rows);
  }

  /** What one row leaves of the others. */
  lemma {:induction false} OtherSurvivors(rows: seq<Row>, i: nat, f: Row -> Option<Scored>, rest: seq<Row>)
    requires i < |rows| && f(rows[i]).Some? && rest == rows[..i] + rows[i + 1..]
    ensures multiset(FilterMap(f, rows)) == multiset(FilterMap(f, rest)) + multiset{f(rows[i]).value}
    ensures forall d: Scored :: d in FilterMap(f, rest) ==>
            exists k :: 0 <= k < |rows| && k != i && f(rows[k]) == Some(d)
    ensures forall k :: 0 <= k < |rows| && k != i && f(rows[k]).Some? ==> f(rows[k]).value in FilterMap(f, rest)
  {
    FilterMapWithout(f, rows, i);
    forall d: Scored | d in FilterMap(f, rest) ensures exists k :: 0 <= k < |rows| && k != i && f(rows[k]) == Some(d) {
      FilterMapMember(f, rest, d);
      var r :| r in rest && f(r) == Some(d);
      var k :| 0 <= k < |rest| && rest[k] == r;
      assert rest[k] == rows[if k < i then k else k + 1];
    }
    forall k | 0 <= k < |rows| && k != i && f(rows[k]).Some? ensures f(rows[k]).value in FilterMap(f, rest) {
      assert rest[if k < i then k else k - 1] == rows[k];
      FilterMapMember(f, rest, f(rows[k]).value);
    }
  }

  /** A survivor that is ahead of every other one leads. */
  lemma {:induction false} AheadLeads(rows: seq<Row>, i: nat, tokens: set<string>, q: Query, db: Db)
    requires i < |rows| && Survives(rows[i], q, db)
    requires forall j :: 0 <= j < |rows| && j != i && Survives(rows[j], q, db) ==>
      Points(rows[i], tokens, q) - Points(rows[j], tokens, q) >= MARGIN
    ensures LeadsIn(rows[i].full, Survivors3(Survivors1(rows, tokens, q), q, db))
  {
    var f := (r: Row) => Survivor(r, tokens, q, db);
    var c: Scored, rest := f(rows[i]).value, rows[..i] + rows[i + 1..];
    SurvivorsOfRows(rows, tokens, q, db);
    OtherSurvivors(rows, i, f, rest);
    forall d: Scored | d in multiset(FilterMap(f, rest)) ensures c.score - d.score >= MARGIN {
      assert d in FilterMap(f, rest);
      var k :| 0 <= k < |rows| && k != i && f(rows[k]) == Some(d);
    }
    assert Wins(c, multiset(FilterMap(f, rows)));
  }

  lemma {:induction false} SurvivorsCount(rows: seq<Row>, i: nat, j: nat, tokens: set<string>, q: Query, db: Db)
    requires i < |rows| && j < |rows| && i != j && Survives(rows[i], q, db) && Survives(rows[j], q, db)
    ensures |Survivors3(Survivors1(rows, tokens, q), q, db)| >= 2 && Survivors1(rows, tokens, q) != []
  {
    var f := (r: Row) => Survivor(r, tokens, q, db);
    var rest := rows[..i] + rows[i + 1..];
    SurvivorsOfRows(rows, tokens, q, db);
    OtherSurvivors(rows, i, f, rest);
    assert f(rows[j]).value in FilterMap(f, rest);
    assert |multiset(FilterMap(f, rows))| == |FilterMap(f, rows)|;
    assert |multiset(FilterMap(f, rest))| == |FilterMap(f, rest)|;
    assert Survivors1(rows, tokens, q) == [] ==> Survivors3([], q, db) == [];
  }

  /** Between several survivors of the first search, one that outranks each of the others is the answer. */
  lemma {:induction false} OutrankingIsAnswer(q: Query, db: Db, rows: seq<Row>, i: nat, j: nat)
    requires db.rows(SearchTokens(q.entity)) == Ok(rows)
    requires i < |rows| && j < |rows| && i != j && Survives(rows[i], q, db) && Survives(rows[j], q, db)
    requires forall k :: 0 <= k < |rows| && k != i && Survives(rows[k], q, db) ==>
      Outranks(rows[i], rows[k], SearchTokens(q.entity), q)
    ensures FindProc(q, db).answer == Ok(Single(rows[i].full))
  {
    var tokens := SearchTokens(q.entity);
    forall k | 0 <= k < |rows| && k != i && Survives(rows[k], q, db)
      ensures Points(rows[i], tokens, q) - Points(rows[k], tokens, q) >= MARGIN
    {
      OutranksByMargin(rows[i], rows[k], tokens, q);
    }
    AheadLeads(rows, i, tokens, q, db);
    SurvivorsCount(rows, i, j, tokens, q, db);
    FirstSearchDecides(q, db);
    SingleExactly(q, db, rows[i].full);
  }

  lemma {:induction false} FirstSearchDecides(q: Query, db: Db)
    requires db.rows(SearchTokens(q.entity)).Ok?
    requires Survivors1(db.rows(SearchTokens(q.entity)).value, SearchTokens(q.entity), q) != []
    ensures FindProc(q, db).answer.Ok? && FindProc(q, db).searches == [SearchTokens(q.entity)]
  {
  }

  // ---------- gates 5 and 6, between rows that are alike ----------

  ghost predicate Alike(r: Row, s: Row, tokens: set<string>, q: Query) {
    AsGood(r, s, tokens, q) && AsGood(s, r, tokens, q)
  }

  /** Behind the entity, path and name agree: both go on with a word in common, or neither goes on. */
  ghost predicate FollowsPath(full: string, q: Query) {
    var suffix, qualifier := PathSuffix(q.entity, q.segments), Qualifier(full, Lower(q.entity));
    (suffix == [] && qualifier == []) || exists w :: w in suffix && w in qualifier
  }

  ghost predicate SchemaOnPath(full: string, q: Query) {
    exists g :: g in Literals(q.segments) && SchemaMatches(SchemaOf(full, "dbo"), g)
  }

  /** The procedure refers to a table whose schema is on the path. */
  ghost predicate TableOnPath(full: string, q: Query) {
    exists t, g :: t in ReferencedTables(q.catalog, full) && g in Literals(q.segments)
                   && SchemaOf(t, "") != [] && SchemaMatches(SchemaOf(t, ""), g)
  }

  /** The rows that get past gate 3, as one search finds them: at least two. */
  ghost predicate Compete(rows: seq<Row>, i: nat, j: nat, tokens: set<string>, q: Query, db: Db) {
    && i < |rows| && j < |rows| && i != j && Survives(rows[i], q, db) && Survives(rows[j], q, db)
    && forall k :: 0 <= k < |rows| && Survives(rows[k], q, db) ==> Alike(rows[i], rows[k], tokens, q)
  }

  lemma {:induction false} AlikeScoresAlike(r: Row, s: Row, tokens: set<string>, q: Query)
    requires Alike(r, s, tokens, q)
    ensures Points(r, tokens, q) == Points(s, tokens, q)
  {
    ScoreOf(r, tokens, q);
    ScoreOf(s, tokens, q);
  }

  function Stage5(r: Row, tokens: set<string>, q: Query, db: Db): Option<Scored> {
    var c := Survivor(r, tokens, q, db);
    if c.None? then None else Some(Gate5(c.value, q))
  }

  function Stage6(r: Row, tokens: set<string>, q: Query, db: Db): Option<Scored> {
    var c := Stage5(r, tokens, q, db);
    if c.None? then None else Some(Gate6(c.value, q))
  }

  /** What gates 5 and 6 decide on are the survivors with their bonuses. */
  lemma {:induction false} StagesOfRows(rows: seq<Row>, tokens: set<string>, q: Query, db: Db)
    ensures var g3 := Survivors3(Survivors1(rows, tokens, q), q, db);
      && multiset(Final5(g3, q)) == multiset(FilterMap((r: Row) => Stage5(r, tokens, q, db), rows))
      && multiset(Final6(g3, q)) == multiset(FilterMap((r: Row) => Stage6(r, tokens, q, db), rows))
  {
    var g3 := Survivors3(Survivors1(rows, tokens, q), q, db);
    var f3, f5 := (r: Row) => Survivor(r, tokens, q, db), (r: Row) => Stage5(r, tokens, q, db);
    SurvivorsOfRows(rows, tokens, q, db);
    SortKeeps(g3);
    FilterMapRearranged((c: Scored) => Some(Gate5(c, q)), SortByScore(g3), g3);
    FilterMapTwice(f3, (c: Scored) => Some(Gate5(c, q)), f5, rows);
    var s5 := Final5(g3, q);
    SortKeeps(s5);
    FilterMapRearranged((c: Scored) => Some(Gate6(c, q)), SortByScore(s5), FilterMap(f5, rows));
    FilterMapTwice(f5, (c: Scored) => Some(Gate6(c, q)), (r: Row) => Stage6(r, tokens, q, db), rows);
  }

  /** At a stage where one row is ahead of all others, it leads. */
  lemma {:induction false} StageLeader(rows: seq<Row>, i: nat, f: Row -> Option<Scored>, stage: seq<Scored>)
    requires i < |rows| && f(rows[i]).Some? && multiset(stage) == multiset(FilterMap(f, rows))
    requires forall j :: 0 <= j < |rows| && j != i && f(rows[j]).Some? ==>
      f(rows[i]).value.score - f(rows[j]).value.score >= MARGIN
    ensures LeadsIn(f(rows[i]).value.full, stage) && SomeoneLeads(stage)
  {
    var c: Scored, rest := f(rows[i]).value, rows[..i] + rows[i + 1..];
    OtherSurvivors(rows, i, f, rest);
    forall d: Scored | d in multiset(FilterMap(f, rest)) ensures c.score - d.score >= MARGIN {
      assert d in FilterMap(f, rest);
      var k :| 0 <= k < |rows| && k != i && f(rows[k]) == Some(d);
    }
    assert Wins(c, multiset(stage));
  }

  /** At a stage where all are equal, nobody leads. */
  lemma {:induction false} StageTied(rows: seq<Row>, i: nat, j: nat, f: Row -> Option<Scored>, stage: seq<Scored>)
    requires i < |rows| && j < |rows| && i != j && f(rows[i]).Some? && f(rows[j]).Some?
    requires multiset(stage) == multiset(FilterMap(f, rows))
    requires forall k :: 0 <= k < |rows| && f(rows[k]).Some? ==> f(rows[k]).value.score == f(rows[i]).value.score
    ensures !SomeoneLeads(stage)
  {
    var c, d := f(rows[i]).value, f(rows[j]).value;
    var rest := rows[..i] + rows[i + 1..];
    OtherSurvivors(rows, i, f, rest);
    assert d in FilterMap(f, rest);
    forall e: Scored ensures !Wins(e, multiset(stage)) {
      if e in multiset(stage) {
        assert e in FilterMap(f, rows);
        FilterMapMember(f, rows, e);
        if e == c {
          assert d in multiset(stage) - multiset{e};
        } else {
          assert c in multiset(stage) - multiset{e};
        }
      }
    }
  }

  ghost predicate EqualScores(rows: seq<Row>, i: nat, tokens: set<string>, q: Query, db: Db)
    requires i < |rows|
  {
    forall k :: 0 <= k < |rows| && Survives(rows[k], q, db) ==>
      Points(rows[k], tokens, q) == Points(rows[i], tokens, q)
  }

  lemma {:induction false} CompetitorsScoreAlike(rows: seq<Row>, i: nat, j: nat, tokens: set<string>, q: Query, db: Db)
    requires Compete(rows, i, j, tokens, q, db)
    ensures EqualScores(rows, i, tokens, q, db)
  {
    forall k | 0 <= k < |rows| && Survives(rows[k], q, db)
      ensures Points(rows[k], tokens, q) == Points(rows[i], tokens, q)
    {
      AlikeScoresAlike(rows[i], rows[k], tokens, q);
    }
  }

  lemma {:induction false} RowsTie(rows: seq<Row>, i: nat, j: nat, tokens: set<string>, q: Query, db: Db)
    requires i < |rows| && j < |rows| && i != j && Survives(rows[i], q, db) && Survives(rows[j], q, db)
    requires EqualScores(rows, i, tokens, q, db)
    ensures !SomeoneLeads(Survivors3(Survivors1(rows, tokens, q), q, db))
  {
    SurvivorsOfRows(rows, tokens, q, db);
    StageTied(rows, i, j, (r: Row) => Survivor(r, tokens, q, db), Survivors3(Survivors1(rows, tokens, q), q, db));
  }

  lemma {:induction false} Gate5Means(c: Scored, q: Query)
    ensures Gate5(c, q) == c.(score := c.score + if FollowsPath(c.full, q) then 30 else -30)
  {
    var suffix, qualifier := PathSuffix(q.entity, q.segments), Qualifier(c.full, Lower(q.entity));
    if w :| w in suffix && w in qualifier {
      var k :| 0 <= k < |suffix| && suffix[k] == w;
      assert suffix[k] in qualifier;
    }
  }

  lemma {:induction false} Stage5Plain(r: Row, tokens: set<string>, q: Query, db: Db)
    ensures Stage5(r, tokens, q, db) ==
            if !Survives(r, q, db) then None else Some(Gate5(Scored(r.full, Points(r, tokens, q)), q))
  {
  }

  lemma {:induction false} Stage5Means(r: Row, tokens: set<string>, q: Query, db: Db)
    ensures Stage5(r, tokens, q, db).Some? <==> Survives(r, q, db)
    ensures Survives(r, q, db) ==>
      var c := Stage5(r, tokens, q, db).value;
      && c.full == r.full
      && c.score == if FollowsPath(r.full, q) then Points(r, tokens, q) + 30 else Points(r, tokens, q) - 30
  {
    Stage5Plain(r, tokens, q, db);
    var c := Scored(r.full, Points(r, tokens, q));
    Gate5Means(c, q);
    assert Survives(r, q, db) ==> Stage5(r, tokens, q, db).value == Gate5(c, q);
  }

  lemma {:induction false} Stage6Means(r: Row, tokens: set<string>, q: Query, db: Db)
    ensures Stage6(r, tokens, q, db).Some? <==> Survives(r, q, db)
    ensures Stage5(r, tokens, q, db).Some? <==> Survives(r, q, db)
    ensures Survives(r, q, db) ==>
      Stage6(r, tokens, q, db).value == Scored(r.full, Stage5(r, tokens, q, db).value.score + Gate6Bonus(r.full, q))
  {
    Stage5Means(r, tokens, q, db);
    if Survives(r, q, db) {
      Gate6Means(Stage5(r, tokens, q, db).value, q);
    }
  }

  lemma {:induction false} Gate6Means(c: Scored, q: Query)
    ensures Gate6(c, q) == Scored(c.full, c.score + Gate6Bonus(c.full, q))
  {
  }

  lemma {:induction false} JustifiedIsAnswer(q: Query, db: Db, rows: seq<Row>, p: string)
    requires db.rows(SearchTokens(q.entity)) == Ok(rows) && Survivors1(rows, SearchTokens(q.entity), q) != []
    requires Justified(p, Survivors3(Survivors1(rows, SearchTokens(q.entity), q), q, db), q)
    ensures FindProc(q, db).answer == Ok(Single(p))
  {
    FirstSearchDecides(q, db);
    SingleExactly(q, db, p);
  }

  lemma {:induction false} AheadAt5(rows: seq<Row>, i: nat, tokens: set<string>, q: Query, db: Db, stage: seq<Scored>)
    requires i < |rows| && Survives(rows[i], q, db) && EqualScores(rows, i, tokens, q, db) &&
             FollowsPath(rows[i].full, q)
    requires forall k :: 0 <= k < |rows| && k != i && Survives(rows[k], q, db) ==> !FollowsPath(rows[k].full, q)
    requires multiset(stage) == multiset(FilterMap((r: Row) => Stage5(r, tokens, q, db), rows))
    ensures LeadsIn(rows[i].full, stage) && SomeoneLeads(stage)
  {
    var f := (r: Row) => Stage5(r, tokens, q, db);
    Stage5Means(rows[i], tokens, q, db);
    forall k | 0 <= k < |rows| && k != i && f(rows[k]).Some?
      ensures f(rows[i]).value.score - f(rows[k]).value.score >= MARGIN
    {
      Stage5Means(rows[k], tokens, q, db);
    }
    StageLeader(rows, i, f, stage);
  }

  lemma {:induction false} TiedAt5(rows: seq<Row>, i: nat, j: nat, tokens: set<string>, q: Query, db: Db,
                                   stage: seq<Scored>)
    requires i < |rows| && j < |rows| && i != j && Survives(rows[i], q, db) && Survives(rows[j], q, db)
    requires EqualScores(rows, i, tokens, q, db)
    requires forall k :: 0 <= k < |rows| && Survives(rows[k], q, db) ==>
      (FollowsPath(rows[k].full, q) <==> FollowsPath(rows[i].full, q))
    requires multiset(stage) == multiset(FilterMap((r: Row) => Stage5(r, tokens, q, db), rows))
    ensures !SomeoneLeads(stage)
    ensures forall k :: 0 <= k < |rows| && Survives(rows[k], q, db) ==>
      Stage5(rows[k], tokens, q, db).Some? && Stage5(rows[i], tokens, q, db).Some? &&
      Stage5(rows[k], tokens, q, db).value.score == Stage5(rows[i], tokens, q, db).value.score
  {
    var f := (r: Row) => Stage5(r, tokens, q, db);
    Stage5Means(rows[i], tokens, q, db);
    forall k | 0 <= k < |rows|
      ensures f(rows[k]).Some? <==> Survives(rows[k], q, db)
      ensures f(rows[k]).Some? ==> f(rows[k]).value.score == f(rows[i]).value.score
    {
      Stage5Means(rows[k], tokens, q, db);
    }
    StageTied(rows, i, j, f, stage);
  }

  lemma {:induction false} AheadAt6(rows: seq<Row>, i: nat, tokens: set<string>, q: Query, db: Db, stage: seq<Scored>)
    requires i < |rows| && Survives(rows[i], q, db)
    requires forall k :: 0 <= k < |rows| && Survives(rows[k], q, db) ==>
      Stage5(rows[k], tokens, q, db).Some? && Stage5(rows[i], tokens, q, db).Some? &&
      Stage5(rows[k], tokens, q, db).value.score == Stage5(rows[i], tokens, q, db).value.score
    requires SchemaOnPath(rows[i].full, q) && TableOnPath(rows[i].full, q)
    requires forall k :: 0 <= k < |rows| && k != i && Survives(rows[k], q, db) ==>
      !SchemaOnPath(rows[k].full, q) && !TableOnPath(rows[k].full, q)
    requires multiset(stage) == multiset(FilterMap((r: Row) => Stage6(r, tokens, q, db), rows))
    ensures LeadsIn(rows[i].full, stage) && SomeoneLeads(stage)
  {
    var f := (r: Row) => Stage6(r, tokens, q, db);
    Stage6Means(rows[i], tokens, q, db);
    BonusOfPath(rows[i].full, q);
    forall k | 0 <= k < |rows| && k != i && f(rows[k]).Some?
      ensures f(rows[i]).value.score - f(rows[k]).value.score >= MARGIN
    {
      Stage6Means(rows[k], tokens, q, db);
      BonusOfPath(rows[k].full, q);
    }
    StageLeader(rows, i, f, stage);
  }

  /** Between survivors that are alike in all that gate 1 looks at, the only one whose name agrees with the
      path is the answer. */
  lemma {:induction false} PathDecides(q: Query, db: Db, rows: seq<Row>, i: nat, j: nat)
    requires db.rows(SearchTokens(q.entity)) == Ok(rows) && Compete(rows, i, j, SearchTokens(q.entity), q, db)
    requires FollowsPath(rows[i].full, q)
    requires forall k :: 0 <= k < |rows| && k != i && Survives(rows[k], q, db) ==> !FollowsPath(rows[k].full, q)
    ensures FindProc(q, db).answer == Ok(Single(rows[i].full))
  {
    var tokens := SearchTokens(q.entity);
    CompetitorsScoreAlike(rows, i, j, tokens, q, db);
    RowsTie(rows, i, j, tokens, q, db);
    StagesOfRows(rows, tokens, q, db);
    AheadAt5(rows, i, tokens, q, db, Final5(Survivors3(Survivors1(rows, tokens, q), q, db), q));
    SurvivorsCount(rows, i, j, tokens, q, db);
    JustifiedIsAnswer(q, db, rows, rows[i].full);
  }

  lemma {:induction false} AnyMeans(schema: string, literals: seq<string>)
    ensures MatchesAny(schema, literals) <==> exists g :: g in literals && SchemaMatches(schema, g)
  {
    if g :| g in literals && SchemaMatches(schema, g) {
      var k :| 0 <= k < |literals| && literals[k] == g;
      assert SchemaMatches(schema, literals[k]);
    }
  }

  lemma {:induction false} HitsMean(full: string, q: Query, tables: seq<string>, literals: seq<string>)
    requires tables == ReferencedTables(q.catalog, full) && literals == Literals(q.segments)
    ensures TableHits(tables, literals) > 0 <==> TableOnPath(full, q)
  {
    HitsCount(tables, literals);
    if k :| 0 <= k < |tables| && TableMatches(tables[k], literals) {
      AnyMeans(SchemaOf(tables[k], ""), literals);
    }
    if t, g :| t in tables && g in literals && SchemaOf(t, "") != [] && SchemaMatches(SchemaOf(t, ""), g) {
      AnyMeans(SchemaOf(t, ""), literals);
      var h :| 0 <= h < |tables| && tables[h] == t;
      assert TableMatches(tables[h], literals);
    }
  }

  lemma {:induction false} BonusOfPath(full: string, q: Query)
    ensures SchemaOnPath(full, q) && TableOnPath(full, q) ==> Gate6Bonus(full, q) >= MARGIN
    ensures !SchemaOnPath(full, q) && !TableOnPath(full, q) ==> Gate6Bonus(full, q) == 0
  {
    var tables, literals := ReferencedTables(q.catalog, full), Literals(q.segments);
    HitsMean(full, q, tables, literals);
    AnyMeans(SchemaOf(full, "dbo"), literals);
    BonusOfBoth(full, q, MatchesAny(SchemaOf(full, "dbo"), literals), TableHits(tables, literals));
  }

  lemma {:induction false} BonusOfBoth(full: string, q: Query, schema: bool, hits: nat)
    requires schema == MatchesAny(SchemaOf(full, "dbo"), Literals(q.segments))
    requires hits == TableHits(ReferencedTables(q.catalog, full), Literals(q.segments))
    ensures schema && hits > 0 ==> Gate6Bonus(full, q) >= MARGIN
    ensures !schema && hits == 0 ==> Gate6Bonus(full, q) == 0
  {
  }

  /** And if the names tell nothing, the only one whose schema and tables are on the path is. */
  lemma {:induction false} TablesDecide(q: Query, db: Db, rows: seq<Row>, i: nat, j: nat)
    requires db.rows(SearchTokens(q.entity)) == Ok(rows) && Compete(rows, i, j, SearchTokens(q.entity), q, db)
    requires forall k :: 0 <= k < |rows| && Survives(rows[k], q, db) ==>
      (FollowsPath(rows[k].full, q) <==> FollowsPath(rows[i].full, q))
    requires SchemaOnPath(rows[i].full, q) && TableOnPath(rows[i].full, q)
    requires forall k :: 0 <= k < |rows| && k != i && Survives(rows[k], q, db) ==>
      !SchemaOnPath(rows[k].full, q) && !TableOnPath(rows[k].full, q)
    ensures FindProc(q, db).answer == Ok(Single(rows[i].full))
  {
    var tokens := SearchTokens(q.entity);
    var g3 := Survivors3(Survivors1(rows, tokens, q), q, db);
    CompetitorsScoreAlike(rows, i, j, tokens, q, db);
    RowsTie(rows, i, j, tokens, q, db);
    StagesOfRows(rows, tokens, q, db);
    TiedAt5(rows, i, j, tokens, q, db, Final5(g3, q));
    AheadAt6(rows, i, tokens, q, db, Final6(g3, q));
    SurvivorsCount(rows, i, j, tokens, q, db);
    JustifiedIsAnswer(q, db, rows, rows[i].full);
  }

  // ---------- what the gates and the words are ----------

  /** A row survives if its name has a verb the method allows, and each parameter of the path is met by one
      of the procedure's, marks and case apart. */
  lemma {:induction false} SurvivesWhen(r: Row, q: Query, db: Db)
    ensures Survives(r, q, db) <==>
      && (exists v :: v in q.allowedVerbs && Within(Lower(r.name), v))
      && (q.pathParams == [] || (db.params(r.full).Some? &&
          forall p :: p in q.pathParams ==>
            exists n :: n in db.params(r.full).value && Within(Remove(Lower(n), "_@"), Remove(Lower(p), "_-"))))
  {
    VerbAllowed(r.name, q.allowedVerbs);
    if q.pathParams != [] && db.params(r.full).Some? {
      AllMet(q.pathParams, db.params(r.full).value);
    }
  }

  lemma {:induction false} VerbAllowed(name: string, allowed: seq<string>)
    ensures HasAllowedVerb(name, allowed) <==> exists v :: v in allowed && Within(Lower(name), v)
  {
    forall v ensures Contains(Lower(name), v) <==> Within(Lower(name), v) {
      WithinIsContains(Lower(name), v);
    }
    if v :| v in allowed && Within(Lower(name), v) {
      var i :| 0 <= i < |allowed| && allowed[i] == v;
      assert Contains(Lower(name), allowed[i]);
    }
  }

  ghost predicate Met(p: string, names: seq<string>) {
    exists n :: n in names && Within(Remove(Lower(n), "_@"), Remove(Lower(p), "_-"))
  }

  lemma {:induction false} MetIsPresent(p: string, names: seq<string>)
    ensures ParamPresent(p, names) <==> Met(p, names)
  {
    var want := Remove(Lower(p), "_-");
    forall n ensures Contains(Remove(Lower(n), "_@"), want) <==> Within(Remove(Lower(n), "_@"), want) {
      WithinIsContains(Remove(Lower(n), "_@"), want);
    }
    if n :| n in names && Within(Remove(Lower(n), "_@"), want) {
      var i :| 0 <= i < |names| && names[i] == n;
      assert Contains(Remove(Lower(names[i]), "_@"), want);
    }
  }

  lemma {:induction false} AllMet(ps: seq<string>, names: seq<string>)
    ensures (forall i :: 0 <= i < |ps| ==> ParamPresent(ps[i], names)) <==> (forall p :: p in ps ==> Met(p, names))
  {
    forall p ensures ParamPresent(p, names) <==> Met(p, names) {
      MetIsPresent(p, names);
    }
  }

  lemma {:induction false} BehindVerb(lc: string, verbs: seq<string>, t: string)
    ensures (exists i :: 0 <= i < |verbs| && verbs[i] <= lc && |lc| - |verbs[i]| >= 3 && t == lc[|verbs[i]|..]) <==>
            |t| >= 3 && exists v :: v in verbs && v + t == lc
  {
    if v :| v in verbs && v + t == lc && |t| >= 3 {
      var i :| 0 <= i < |verbs| && verbs[i] == v;
      assert verbs[i] <= lc && lc[|verbs[i]|..] == t;
    }
    if i :| 0 <= i < |verbs| && verbs[i] <= lc && |lc| - |verbs[i]| >= 3 && t == lc[|verbs[i]|..] {
      assert verbs[i] + t == lc;
    }
  }

  /** What is searched for: the entity in lower case, and what is left of it behind a leading verb, if that is
      at least three characters. */
  lemma {:induction false} TokensAre(entity: string, t: string)
    ensures t in SearchTokens(entity) <==>
            t == Lower(entity) || (|t| >= 3 && exists v :: v in LEADING_VERBS && v + t == Lower(entity))
  {
    var verbs := LEADING_VERBS;
    BehindVerb(Lower(entity), verbs, t);
  }

  /** What is searched for in a second try. */
  lemma {:induction false} SingularsAre(stem: string)
    ensures Singular(stem + "ies") == Some(stem + "y")
    ensures !Ends(stem, "i") ==> Singular(stem + "es") == if |stem| >= 4 then Some(stem) else None
    ensures !Ends(stem, "e") ==> Singular(stem + "s") == if |stem| >= 4 then Some(stem) else None
    ensures !Ends(stem, "s") ==> Singular(stem) == None
  {
    EndsWithSuffix(stem, "ies");
    EndsWithSuffix(stem, "es");
    EndsWithSuffix(stem, "s");
    LastsOf(stem, "es", "ies", 'i');
    LastsOf(stem, "s", "es", 'e');
    LastsOf(stem, "s", "ies", 'e');
    EndsIsEnd(stem, "s");
    EndsIsEnd(stem, "es");
    EndsIsEnd(stem, "ies");
    NoLongerEnd(stem, "es");
    NoLongerEnd(stem, "ies");
  }

  /** A longer ending is not there unless the character in front of the shorter one fits. */
  lemma {:induction false} LastsOf(stem: string, suffix: string, longer: string, c: char)
    requires |longer| > |suffix| && longer[|longer| - |suffix| - 1] == c
    ensures !Ends(stem, [c]) ==> !EndsWith(stem + suffix, longer)
  {
    var s := stem + suffix;
    if EndsWith(s, longer) {
      var at := |s| - |longer|;
      assert s[at..][|longer| - |suffix| - 1] == c;
      assert s[|stem| - 1] == c == stem[|stem| - 1];
      assert stem[|stem| - 1..] == [c];
    }
  }

  lemma {:induction false} NoLongerEnd(s: string, longer: string)
    requires longer != [] && longer[|longer| - 1] == 's'
    ensures !Ends(s, "s") ==> !EndsWith(s, longer)
  {
    LastsOf(s, "", longer, 's');
    assert s + "" == s;
  }

  // ---------- what a name has behind the entity ----------

  function NameOf(full: string): string {
    match SplitOnce(Lower(full), '.') case None => Lower(full) case Some((_, n)) => n
  }

  /** A name in which nothing is behind the entity has no qualifier. */
  lemma {:induction false} NothingBehindEntity(full: string, e: string)
    requires !Within(NameOf(full), e + "_")
    ensures Qualifier(full, e) == []
  {
    var name := NameOf(full);
    WithinIsContains(name, "_" + e + "_");
    if Within(name, "_" + e + "_") {
      BoundedIsBehind(name, e);
    }
    assert StartsWith(name, e + "_") ==> OccursAt(name, e + "_", 0);
  }

  /** A word between the entity and a `by_` clause is the qualifier. */
  lemma {:induction false} WordBehindEntity(full: string, a: string, e: string, w: string, clause: string)
    requires NameOf(full) == a + ("_" + e + "_") + (w + "_" + ("by_" + clause))
    requires Find(NameOf(full), "_" + e + "_") == Some(|a|)
    requires Find(w + "_" + ("by_" + clause), "by_") == Some(|w| + 1)
    requires w != [] && '_' !in w
    ensures Qualifier(full, e) == [w]
  {
    var name, bounded, after := NameOf(full), "_" + e + "_", w + "_" + ("by_" + clause);
    assert |bounded| == |e| + 2;
    assert name[|a| + |e| + 2..] == after;
    assert after[..|w| + 1] == w + "_";
    OneWord(w);
  }

  lemma {:induction false} OneWord(w: string)
    requires w != [] && '_' !in w
    ensures NonEmpty(Split(w + "_", '_')) == [w]
  {
    var parts := [w, []];
    assert parts[1..] == [[]];
    assert Join(parts, '_') == w + ['_'] + [] == w + "_";
    SplitJoin(parts, '_');
    assert NonEmpty([[]]) == [];
  }

  lemma {:induction false} EndsWithSuffix(stem: string, suffix: string)
    ensures EndsWith(stem + suffix, suffix) && (stem + suffix)[..|stem|] == stem
  {
    assert (stem + suffix)[|stem|..|stem + suffix|] == suffix;
  }

  /** A schema matches a segment that has its name, case apart, or is its plural or singular, or begins it. */
  lemma {:induction false} SchemaMatchesWhen(schema: string, segment: string, stem: string)
    ensures Lower(schema) == Lower(segment) ==> SchemaMatches(schema, segment)
    ensures Lower(schema) != [] && Lower(segment) == Lower(schema) + "s" ==> SchemaMatches(schema, segment)
    ensures Lower(segment) != [] && Lower(schema) == Lower(segment) + "s" ==> SchemaMatches(schema, segment)
    ensures stem != [] && Lower(segment) == stem + "ies" && Lower(schema) == stem + "y" ==>
            SchemaMatches(schema, segment)
    ensures Lower(schema) != [] && Lower(segment) == Lower(schema) + "es" ==> SchemaMatches(schema, segment)
    ensures Lower(segment) < Lower(schema) ==> SchemaMatches(schema, segment)
    ensures stem != [] && Lower(segment) == stem + "s" && stem < Lower(schema) ==> SchemaMatches(schema, segment)
  {
    var s, g := Lower(schema), Lower(segment);
    if s != [] && g == s + "es" {
      SingularOfEs(s);
    }
    if stem != [] && g == stem + "s" && stem < s {
      SingularOfS(stem);
      PrefixIsStart(s, stem);
    }
    if s != [] && g == s + "s" {
      SingularOfS(s);
    } else if g != [] && s == g + "s" {
      SingularOfS(g);
    }
    if stem != [] && g == stem + "ies" && s == stem + "y" {
      SingularOfIes(stem);
    }
    PrefixIsStart(s, g);
  }

  lemma {:induction false} SingularOfS(w: string)
    requires w != []
    ensures w in Singulars(w + "s")
  {
    EndsWithSuffix(w, "s");
    var all := Singulars(w + "s");
    assert all[|all| - 1] == w;
  }

  lemma {:induction false} SingularOfEs(w: string)
    requires w != []
    ensures w in Singulars(w + "es")
  {
    EndsWithSuffix(w, "es");
    EndsWithSuffix(w + "e", "s");
    assert w + "e" + "s" == w + "es";
    var all := Singulars(w + "es");
    assert all[|all| - 2] == w;
  }

  lemma {:induction false} SingularOfIes(stem: string)
    requires stem != []
    ensures stem + "y" in Singulars(stem + "ies")
  {
    EndsWithSuffix(stem, "ies");
    var all := Singulars(stem + "ies");
    assert all[0] == stem + "y";
  }

  /** And it matches no segment but for the last three characters of one of the two. */
  lemma {:induction false} SchemaMatchesOnly(schema: string, segment: string)
    requires SchemaMatches(schema, segment)
    ensures var s, g := Lower(schema), Lower(segment);
      (if |g| > 3 then g[..|g| - 3] else []) <= s || (if |s| > 3 then s[..|s| - 3] else []) <= g
  {
    var s, g := Lower(schema), Lower(segment);
    SingularsShare(g);
    SingularsShare(s);
    PrefixIsStart(s, g);
    if i :| 0 <= i < |Singulars(g)| && StartsWith(s, Singulars(g)[i]) {
      PrefixIsStart(s, Singulars(g)[i]);
    }
  }

  lemma {:induction false} SingularsShare(w: string)
    ensures forall i :: 0 <= i < |Singulars(w)| ==> (if |w| > 3 then w[..|w| - 3] else []) <= Singulars(w)[i]
  {
  }
}
