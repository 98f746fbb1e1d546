/** Choosing the procedure behind a registry path: `find_proc_by_entity` of
    `crates/said-forge/src/fitter.rs` and the tests it uses. The database's answers
    are functions: the rows for a set of search tokens, the parameters of a procedure. */
module ProcMatcher {
  import opened Text
  import opened Lists

  datatype Result<+T> = Ok(value: T) | Err(message: string)

  datatype Row = Row(full: string, schema: string, name: string)

  datatype SqlObject = SqlObject(fullName: string, referencedTables: seq<string>)

  datatype Db = Db(rows: set<string> -> Result<seq<Row>>, params: string -> Option<seq<string>>)

  /** What is asked for. `segments` is the normalised path, parameters written `{x}`. */
  datatype Query = Query(entity: string, allowedVerbs: seq<string>, pathParams: seq<string>,
                         segments: seq<string>, catalog: seq<SqlObject>)

  datatype Scored = Scored(full: string, score: int)

  datatype ProcMatch = Single(full: string) | Ambiguous(candidates: seq<string>) | NoMatch

  // ---------- search tokens ----------

  const LEADING_VERBS := ["getall", "get", "update", "set", "delete", "remove", "create", "add", "post", "put", "patch"]

  /** The entity, and what is left of it behind a leading verb. */
  function SearchTokens(entity: string): set<string> {
    var lc := Lower(entity);
    {lc} + set i | 0 <= i < |LEADING_VERBS| && LEADING_VERBS[i] <= lc && |lc| - |LEADING_VERBS[i]| >= 3
           :: lc[|LEADING_VERBS[i]|..]
  }

  function Singular(tok: string): Option<string> {
    if EndsWith(tok, "ies") then Some(tok[..|tok| - 3] + "y")
    else if EndsWith(tok, "es") then (if |tok| - 2 >= 4 then Some(tok[..|tok| - 2]) else None)
    else if EndsWith(tok, "s") then (if |tok| - 1 >= 4 then Some(tok[..|tok| - 1]) else None)
    else None
  }

  function SingularFallbacks(tokens: set<string>): set<string> {
    set t | t in tokens && Singular(t).Some? :: Singular(t).value
  }

  // ---------- gate 1: verb agreement, and the score ----------

  const VERBS := ["get_", "create_", "update_", "delete_", "set_", "patch_", "remove_", "add_", "insert_"]

  predicate HasAllowedVerb(name: string, allowed: seq<string>) {
    exists i :: 0 <= i < |allowed| && Contains(Lower(name), allowed[i])
  }

  /** How many of the verbs the method does not allow occur in the name. */
  function Mismatches(lower: string, allowed: seq<string>, verbs: seq<string>): nat
    decreases |verbs|
  {
    if verbs == [] then 0
    else (if verbs[0] !in allowed && Contains(lower, verbs[0]) then 1 else 0) + Mismatches(lower, allowed, verbs[1..])
  }

  predicate TokenHit(lower: string, squashed: string, tok: string) {
    Contains(lower, "_" + tok + "_") || EndsWith(lower, "_" + tok) || Contains(lower, tok + "_") ||
      Contains(squashed, tok)
  }

  predicate StemHit(lower: string, squashed: string, tok: string) {
    var stem := if EndsWith(tok, "s") then tok[..|tok| - 1] else tok;
    Contains(lower, "_" + stem + "_") || EndsWith(lower, "_" + stem) || Contains(squashed, stem)
  }

  /** The name mentions a search token, or at least the stem of one. */
  function EntityBonus(lower: string, squashed: string, tokens: set<string>): int {
    if exists t :: t in tokens && TokenHit(lower, squashed, t) then 50
    else if exists t :: t in tokens && StemHit(lower, squashed, t) then 20
    else 0
  }

  function ShapeBonus(r: Row, lower: string, squashed: string, entity: string): int {
    (if StartsWith(lower, "p_txn_") then 10 else 0)
    + (if EndsWith(squashed, Lower(entity)) then 40 else 0)
    + (if Lower(r.schema) == Lower(entity) then 5 else 0)
  }

  function Score(r: Row, tokens: set<string>, q: Query, verbs: seq<string>): int {
    var lower := Lower(r.name);
    var squashed := Remove(lower, "_");
    100 - 50 * Mismatches(lower, q.allowedVerbs, verbs)
    + EntityBonus(lower, squashed, tokens) + ShapeBonus(r, lower, squashed, q.entity)
  }

  function Gate1(r: Row, tokens: set<string>, q: Query, verbs: seq<string>): Option<Scored> {
    if HasAllowedVerb(r.name, q.allowedVerbs) then Some(Scored(r.full, Score(r, tokens, q, verbs))) else None
  }

  // ---------- gate 3: path parameters ----------

  /** Some parameter of the procedure has the path parameter's name in it. */
  predicate ParamPresent(pathParam: string, names: seq<string>) {
    exists i :: 0 <= i < |names| && Contains(Remove(Lower(names[i]), "_@"), Remove(Lower(pathParam), "_-"))
  }

  predicate SignatureAgrees(full: string, q: Query, db: Db) {
    q.pathParams == [] ||
    (db.params(full).Some? &&
     forall i :: 0 <= i < |q.pathParams| ==> ParamPresent(q.pathParams[i], db.params(full).value))
  }

  function Gate3(c: Scored, q: Query, db: Db): Option<Scored> {
    if SignatureAgrees(c.full, q, db) then Some(c) else None
  }

  // ---------- gate 5: what the path and the name have behind the entity ----------

  /** The last position of the entity among the segments, or `|segs|`. */
  function LastPosition(entityLc: string, segs: seq<string>): (p: nat)
    ensures p <= |segs|
    ensures p < |segs| ==> Lower(segs[p]) == entityLc && forall j :: p < j < |segs| ==> Lower(segs[j]) != entityLc
    ensures p == |segs| ==> forall j :: 0 <= j < |segs| ==> Lower(segs[j]) != entityLc
  {
    if segs == [] then 0
    else if Lower(segs[|segs| - 1]) == entityLc then |segs| - 1
    else
      var p := LastPosition(entityLc, segs[..|segs| - 1]);
      if p == |segs| - 1 then |segs| else p
  }

  function Literals(segs: seq<string>): seq<string>
    decreases |segs|
  {
    if segs == [] then []
    else (if segs[0] != "{x}" then [Lower(segs[0])] else []) + Literals(segs[1..])
  }

  function PathSuffix(entity: string, segs: seq<string>): seq<string> {
    var p := LastPosition(Lower(entity), segs);
    if p == |segs| then [] else Literals(segs[p + 1..])
  }

  function NonEmpty(parts: seq<string>): seq<string>
    decreases |parts|
  {
    if parts == [] then [] else (if parts[0] != [] then [parts[0]] else []) + NonEmpty(parts[1..])
  }

  /** The words between the entity and a `by_` clause in the procedure's name. */
  function Qualifier(full: string, entityLc: string): seq<string> {
    var name := match SplitOnce(Lower(full), '.') case None => Lower(full) case Some((_, n)) => n;
    var bounded := Find(name, "_" + entityLc + "_");
    var after :=
      if bounded.Some? then Some(name[bounded.value + |entityLc| + 2..])
      else if Contains(name, "_" + entityLc) then None
      else if StartsWith(name, entityLc + "_") then Some(name[|entityLc| + 1..])
      else None;
    if after.None? then []
    else
      var clause := Find(after.value, "by_");
      NonEmpty(Split(if clause.Some? then after.value[..clause.value] else after.value, '_'))
  }

  function Gate5(c: Scored, q: Query): Scored {
    var suffix, qualifier := PathSuffix(q.entity, q.segments), Qualifier(c.full, Lower(q.entity));
    var agrees :=
      if suffix == [] || qualifier == [] then suffix == [] && qualifier == []
      else exists i :: 0 <= i < |suffix| && suffix[i] in qualifier;
    c.(score := c.score + if agrees then 30 else -30)
  }

  // ---------- gate 6: schemas ----------

  /** What a plural-looking word may be the plural of. */
  function Singulars(g: string): seq<string> {
    (if EndsWith(g, "ies") && |g| > 3 then [g[..|g| - 3] + "y"] else [])
    + (if EndsWith(g, "es") && |g| > 2 then [g[..|g| - 2]] else [])
    + (if EndsWith(g, "s") && |g| > 1 then [g[..|g| - 1]] else [])
  }

  predicate SchemaMatches(schema: string, segment: string) {
    var s, g := Lower(schema), Lower(segment);
    || s == g
    || s in Singulars(g)
    || g in Singulars(s)
    || (StartsWith(s, g) && |s| > |g|)
    || exists i :: 0 <= i < |Singulars(g)| && StartsWith(s, Singulars(g)[i]) && |s| > |Singulars(g)[i]|
  }

  predicate MatchesAny(schema: string, literals: seq<string>) {
    exists i :: 0 <= i < |literals| && SchemaMatches(schema, literals[i])
  }

  function SchemaOf(full: string, default: string): string {
    match SplitOnce(full, '.') case None => default case Some((s, _)) => Lower(s)
  }

  function CatalogEntry(catalog: seq<SqlObject>, full: string): Option<SqlObject> {
    if catalog == [] then None
    else if Lower(catalog[0].fullName) == Lower(full) then Some(catalog[0])
    else CatalogEntry(catalog[1..], full)
  }

  function ReferencedTables(catalog: seq<SqlObject>, full: string): seq<string> {
    var o := CatalogEntry(catalog, full);
    if o.None? then [] else o.value.referencedTables
  }

  predicate TableMatches(table: string, literals: seq<string>) {
    SchemaOf(table, "") != [] && MatchesAny(SchemaOf(table, ""), literals)
  }

  function TableHits(tables: seq<string>, literals: seq<string>): nat {
    if tables == [] then 0
    else (if TableMatches(tables[0], literals) then 1 else 0) + TableHits(tables[1..], literals)
  }

  function Gate6Bonus(full: string, q: Query): nat {
    var literals := Literals(q.segments);
    var hits := TableHits(ReferencedTables(q.catalog, full), literals);
    (if MatchesAny(SchemaOf(full, "dbo"), literals) then 25 else 0)
    + (if hits == 0 then 0 else if hits * 5 + 5 < 20 then hits * 5 + 5 else 20)
  }

  function Gate6(c: Scored, q: Query): Scored {
    c.(score := c.score + Gate6Bonus(c.full, q))
  }

  /** The veto on a lone candidate. */
  predicate HasPathAffinity(full: string, q: Query) {
    var literals, schema := Literals(q.segments), SchemaOf(full, "");
    || literals == []
    || (schema != [] && MatchesAny(schema, literals))
    || exists i :: 0 <= i < |ReferencedTables(q.catalog, full)| &&
                       TableMatches(ReferencedTables(q.catalog, full)[i], literals)
  }

  // ---------- the decision ----------

  const MARGIN := 30

  /** Stable insertion in descending order of score. */
  function InsertByScore(c: Scored, s: seq<Scored>): seq<Scored>
    decreases |s|
  {
    if s == [] || s[0].score <= c.score then [c] + s else [s[0]] + InsertByScore(c, s[1..])
  }

  function SortByScore(s: seq<Scored>): seq<Scored>
    decreases |s|
  {
    if s == [] then [] else InsertByScore(s[0], SortByScore(s[1..]))
  }

  /** The first of a sorted list, when it leads by the margin. */
  function Leader(sorted: seq<Scored>): Option<Scored> {
    if |sorted| >= 2 && sorted[0].score - sorted[1].score >= MARGIN then Some(sorted[0]) else None
  }

  function Fulls(s: seq<Scored>): seq<string> {
    FilterMap((c: Scored) => Some(c.full), s)
  }

  function SurvivorsOf(rows: seq<Row>, tokens: set<string>, q: Query, verbs: seq<string>): seq<Scored> {
    FilterMap((r: Row) => Gate1(r, tokens, q, verbs), rows)
  }

  function Survivors1(rows: seq<Row>, tokens: set<string>, q: Query): seq<Scored> {
    SurvivorsOf(rows, tokens, q, VERBS)
  }

  function Survivors3(g1: seq<Scored>, q: Query, db: Db): seq<Scored> {
    FilterMap((c: Scored) => Gate3(c, q, db), g1)
  }

  function Rescored5(s: seq<Scored>, q: Query): seq<Scored> {
    FilterMap((c: Scored) => Some(Gate5(c, q)), s)
  }

  function Rescored6(s: seq<Scored>, q: Query): seq<Scored> {
    FilterMap((c: Scored) => Some(Gate6(c, q)), s)
  }

  /** What gates 5 and 6 decide on, from the survivors of gate 3. */
  function Final5(g3: seq<Scored>, q: Query): seq<Scored> {
    Rescored5(SortByScore(g3), q)
  }

  function Final6(g3: seq<Scored>, q: Query): seq<Scored> {
    Rescored6(SortByScore(Final5(g3, q)), q)
  }

  /** The part of the choice that follows gate 3. */
  function ChooseAmong(g3: seq<Scored>, q: Query): ProcMatch
    requires |g3| >= 2
  {
    if Leader(SortByScore(g3)).Some? then Single(Leader(SortByScore(g3)).value.full)
    else if Leader(SortByScore(Final5(g3, q))).Some? then Single(Leader(SortByScore(Final5(g3, q))).value.full)
    else if Leader(SortByScore(Final6(g3, q))).Some? then Single(Leader(SortByScore(Final6(g3, q))).value.full)
    else Ambiguous(Fulls(SortByScore(Final6(g3, q))))
  }

  /** From the candidates that passed gate 1 and those that also passed gate 3. */
  function AfterGate3(g1: seq<Scored>, g3: seq<Scored>, q: Query): ProcMatch {
    if g3 == [] then Ambiguous(Fulls(g1))
    else if |g3| == 1 then
      if HasPathAffinity(g3[0].full, q) then Single(g3[0].full) else Ambiguous([g3[0].full])
    else ChooseAmong(g3, q)
  }

  function Choose(g1: seq<Scored>, q: Query, db: Db): ProcMatch {
    AfterGate3(g1, Survivors3(g1, q, db), q)
  }

  /** The answer, and the searches made of the database in order. */
  datatype Outcome = Outcome(answer: Result<ProcMatch>, searches: seq<set<string>>)

  function FindProc(q: Query, db: Db): Outcome {
    var tokens := SearchTokens(q.entity);
    var fallbacks := SingularFallbacks(tokens);
    var first := db.rows(tokens);
    if first.Err? then Outcome(Err(first.message), [tokens])
    else
      var g1 := Survivors1(first.value, tokens, q);
      if g1 != [] then Outcome(Ok(Choose(g1, q, db)), [tokens])
      else if fallbacks == {} then Outcome(Ok(NoMatch), [tokens])
      else
        var combined := tokens + fallbacks;
        var second := db.rows(combined);
        if second.Err? then Outcome(Err(second.message), [tokens, combined])
        else
          var g2 := Survivors1(second.value, combined, q);
          Outcome(Ok(if g2 == [] then NoMatch else Choose(g2, q, db)), [tokens, combined])
  }

  // ---------- the matcher with its loops ----------

  method VerbScore(lower: string, allowed: seq<string>, verbs: seq<string>) returns (score: int)
    ensures score == 100 - 50 * Mismatches(lower, allowed, verbs)
  {
    score := 100;
    for i := 0 to |verbs|
      invariant score - 50 * Mismatches(lower, allowed, verbs[i..]) == 100 - 50 * Mismatches(lower, allowed, verbs)
    {
      assert verbs[i..][0] == verbs[i] && verbs[i..][1..] == verbs[i + 1..];
      if verbs[i] !in allowed && Contains(lower, verbs[i]) {
        score := score - 50;
      }
    }
  }

  method EntityScore(lower: string, squashed: string, tokens: set<string>) returns (bonus: int)
    ensures bonus == EntityBonus(lower, squashed, tokens)
  {
    var rest, hit := tokens, false;
    while rest != {} && !hit
      invariant rest <= tokens && forall t :: t in tokens - rest ==> hit || !TokenHit(lower, squashed, t)
      invariant hit ==> exists t :: t in tokens && TokenHit(lower, squashed, t)
      decreases |rest|
    {
      var t :| t in rest;
      hit := TokenHit(lower, squashed, t);
      rest := rest - {t};
    }
    if hit {
      return 50;
    }
    rest := tokens;
    while rest != {} && !hit
      invariant rest <= tokens && forall t :: t in tokens - rest ==> hit || !StemHit(lower, squashed, t)
      invariant hit ==> exists t :: t in tokens && StemHit(lower, squashed, t)
      decreases |rest|
    {
      var t :| t in rest;
      hit := StemHit(lower, squashed, t);
      rest := rest - {t};
    }
    return if hit then 20 else 0;
  }

  method ShapeScore(r: Row, lower: string, squashed: string, entity: string) returns (bonus: int)
    ensures bonus == ShapeBonus(r, lower, squashed, entity)
  {
    bonus := 0;
    if StartsWith(lower, "p_txn_") {
      bonus := bonus + 10;
    }
    if EndsWith(squashed, Lower(entity)) {
      bonus := bonus + 40;
    }
    if Lower(r.schema) == Lower(entity) {
      bonus := bonus + 5;
    }
  }

  method ScoreRow(r: Row, tokens: set<string>, q: Query, verbs: seq<string>) returns (score: int)
    ensures score == Score(r, tokens, q, verbs)
  {
    var lower := Lower(r.name);
    var squashed := Remove(lower, "_");
    score := VerbScore(lower, q.allowedVerbs, verbs);
    var entity := EntityScore(lower, squashed, tokens);
    var shape := ShapeScore(r, lower, squashed, q.entity);
    score := score + entity + shape;
  }

  lemma {:induction false} SurvivorsStep(rows: seq<Row>, i: nat, tokens: set<string>, q: Query, verbs: seq<string>)
    requires i < |rows|
    ensures var c := Gate1(rows[i], tokens, q, verbs);
      SurvivorsOf(rows[i..], tokens, q, verbs) ==
        (if c.Some? then [c.value] else []) + SurvivorsOf(rows[i + 1..], tokens, q, verbs)
  {
    assert rows[i..][0] == rows[i] && rows[i..][1..] == rows[i + 1..];
  }

  method PassGate1(rows: seq<Row>, tokens: set<string>, q: Query, verbs: seq<string>) returns (passed: seq<Scored>)
    ensures passed == SurvivorsOf(rows, tokens, q, verbs)
  {
    passed := [];
    ghost var goal := SurvivorsOf(rows, tokens, q, verbs);
    assert rows[0..] == rows;
    for i := 0 to |rows|
      invariant passed + SurvivorsOf(rows[i..], tokens, q, verbs) == goal
    {
      var r := rows[i];
      SurvivorsStep(rows, i, tokens, q, verbs);
      if HasAllowedVerb(r.name, q.allowedVerbs) {
        var score := ScoreRow(r, tokens, q, verbs);
        passed := passed + [Scored(r.full, score)];
      }
    }
  }

  lemma {:induction false} Survivors3Step(g1: seq<Scored>, i: nat, q: Query, db: Db)
    requires i < |g1|
    ensures Survivors3(g1[i..], q, db) ==
            (if SignatureAgrees(g1[i].full, q, db) then [g1[i]] else []) + Survivors3(g1[i + 1..], q, db)
  {
    assert g1[i..][0] == g1[i] && g1[i..][1..] == g1[i + 1..];
  }

  method PassGate3(g1: seq<Scored>, q: Query, db: Db) returns (passed: seq<Scored>)
    ensures passed == Survivors3(g1, q, db)
  {
    passed := [];
    ghost var goal := Survivors3(g1, q, db);
    assert g1[0..] == g1;
    for i := 0 to |g1|
      invariant passed + Survivors3(g1[i..], q, db) == goal
    {
      Survivors3Step(g1, i, q, db);
      if q.pathParams == [] {
        passed := passed + [g1[i]];
        continue;
      }
      var names := db.params(g1[i].full);
      if names.None? {
        continue;
      }
      if forall k :: 0 <= k < |q.pathParams| ==> ParamPresent(q.pathParams[k], names.value) {
        passed := passed + [g1[i]];
      }
    }
  }

  method RescoreGate5(s: seq<Scored>, q: Query) returns (r: seq<Scored>)
    ensures r == Rescored5(s, q)
  {
    FilterMapTotal((c: Scored) => Some(Gate5(c, q)), s);
    r := s;
    for i := 0 to |s|
      invariant |r| == |s|
      invariant forall j :: 0 <= j < |s| ==> r[j] == if j < i then Gate5(s[j], q) else s[j]
    {
      r := r[i := Gate5(r[i], q)];
    }
  }

  method RescoreGate6(s: seq<Scored>, q: Query) returns (r: seq<Scored>)
    ensures r == Rescored6(s, q)
  {
    FilterMapTotal((c: Scored) => Some(Gate6(c, q)), s);
    r := s;
    for i := 0 to |s|
      invariant |r| == |s|
      invariant forall j :: 0 <= j < |s| ==> r[j] == if j < i then Gate6(s[j], q) else s[j]
    {
      r := r[i := Gate6(r[i], q)];
    }
  }

  method ChooseProc(g1: seq<Scored>, q: Query, db: Db) returns (m: ProcMatch)
    ensures m == Choose(g1, q, db)
  {
    var passed := PassGate3(g1, q, db);
    if passed == [] {
      return Ambiguous(Fulls(g1));
    }
    if |passed| == 1 {
      if !HasPathAffinity(passed[0].full, q) {
        return Ambiguous([passed[0].full]);
      }
      return Single(passed[0].full);
    }
    passed := SortByScore(passed);
    if Leader(passed).Some? {
      return Single(passed[0].full);
    }
    passed := RescoreGate5(passed, q);
    passed := SortByScore(passed);
    if Leader(passed).Some? {
      return Single(passed[0].full);
    }
    passed := RescoreGate6(passed, q);
    passed := SortByScore(passed);
    if Leader(passed).Some? {
      return Single(passed[0].full);
    }
    return Ambiguous(Fulls(passed));
  }

  /** At most one retry, with the singular forms added. */
  method FindProcByEntity(q: Query, db: Db) returns (answer: Result<ProcMatch>, searches: seq<set<string>>)
    ensures Outcome(answer, searches) == FindProc(q, db)
  {
    var tokens := SearchTokens(q.entity);
    var fallbacks := SingularFallbacks(tokens);
    searches := [tokens];
    var rows := db.rows(tokens);
    if rows.Err? {
      return Err(rows.message), searches;
    }
    var triedFallback := false;
    var passed := PassGate1(rows.value, tokens, q, VERBS);
    while passed == []
      invariant !triedFallback ==> tokens == SearchTokens(q.entity) && rows == db.rows(tokens) && searches == [tokens]
      invariant triedFallback ==>
        && fallbacks != {} && tokens == SearchTokens(q.entity) + fallbacks
        && Survivors1(db.rows(SearchTokens(q.entity)).value, SearchTokens(q.entity), q) == []
        && rows == db.rows(tokens) && searches == [SearchTokens(q.entity), tokens]
      invariant rows.Ok? && db.rows(SearchTokens(q.entity)).Ok? && passed == Survivors1(rows.value, tokens, q)
      decreases !triedFallback
    {
      if triedFallback || fallbacks == {} {
        return Ok(NoMatch), searches;
      }
      triedFallback := true;
      tokens := tokens + fallbacks;
      searches := searches + [tokens];
      rows := db.rows(tokens);
      if rows.Err? {
        return Err(rows.message), searches;
      }
      if rows.value == [] {
        return Ok(NoMatch), searches;
      }
      passed := PassGate1(rows.value, tokens, q, VERBS);
    }
    var m := ChooseProc(passed, q, db);
    return Ok(m), searches;
  }
}
