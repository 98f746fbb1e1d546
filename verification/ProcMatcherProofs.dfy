/** What an answer of the matcher in `ProcMatcher` guarantees. */
module ProcMatcherProofs {
  import opened Text
  import opened Lists
  import opened ProcMatcher

  // ---------- winning by the margin ----------

  /** Ahead of every other candidate by the margin, whatever their order. */
  ghost predicate Wins(c: Scored, m: multiset<Scored>) {
    c in m && forall d :: d in m - multiset{c} ==> c.score - d.score >= MARGIN
  }

  ghost predicate Descending(s: seq<Scored>) {
    forall i, j :: 0 <= i < j < |s| ==> s[i].score >= s[j].score
  }

  lemma {:induction false} InsertAdds(c: Scored, s: seq<Scored>)
    ensures multiset(InsertByScore(c, s)) == multiset(s) + multiset{c}
    decreases |s|
  {
    if s != [] && s[0].score > c.score {
      InsertAdds(c, s[1..]);
      assert s == [s[0]] + s[1..];
    }
  }

  lemma {:induction false} InsertKeeps(c: Scored, s: seq<Scored>)
    requires Descending(s)
    ensures Descending(InsertByScore(c, s))
    decreases |s|
  {
    if s != [] && s[0].score > c.score {
      var rest := InsertByScore(c, s[1..]);
      InsertKeeps(c, s[1..]);
      InsertAdds(c, s[1..]);
      forall j | 0 <= j < |rest| ensures s[0].score >= rest[j].score {
        assert rest[j] in multiset(rest);
        assert rest[j] == c || rest[j] in s[1..];
      }
    }
  }

  lemma {:induction false} SortKeeps(s: seq<Scored>)
    ensures Descending(SortByScore(s)) && multiset(SortByScore(s)) == multiset(s)
    decreases |s|
  {
    if s != [] {
      SortKeeps(s[1..]);
      InsertKeeps(s[0], SortByScore(s[1..]));
      InsertAdds(s[0], SortByScore(s[1..]));
      assert s == [s[0]] + s[1..];
    }
  }

  lemma {:induction false} SameLength<A>(a: seq<A>, b: seq<A>)
    requires multiset(a) == multiset(b)
    ensures |a| == |b|
  {
    assert |multiset(a)| == |a| && |multiset(b)| == |b|;
  }

  lemma {:induction false} LeaderLeads(t: seq<Scored>)
    requires Descending(t) && |t| >= 2 && t[0].score - t[1].score >= MARGIN
    ensures Wins(t[0], multiset(t))
  {
    var rest := t[1..];
    assert t == [t[0]] + rest;
    forall d: Scored | d in multiset(t) - multiset{t[0]} ensures t[0].score - d.score >= MARGIN {
      assert d in multiset(rest);
      var j :| 0 <= j < |rest| && rest[j] == d;
      assert t[1].score >= t[j + 1].score;
    }
  }

  lemma {:induction false} WinnerComesFirst(t: seq<Scored>, c: Scored)
    requires Descending(t) && |t| >= 2 && Wins(c, multiset(t))
    ensures t[0] == c && c.score - t[1].score >= MARGIN
  {
    var j :| 0 <= j < |t| && t[j] == c;
    var first := t[0];
    assert first.score >= t[j].score && first in multiset(t);
    assert first != c ==> first in multiset(t) - multiset{c};
    assert t == [t[0]] + t[1..] && t[1..][0] == t[1];
    assert t[0] == c ==> t[1] in multiset(t) - multiset{c};
  }

  /** Comparing the first two of the sorted list is comparing with everybody. */
  lemma {:induction false} LeaderWins(s: seq<Scored>, c: Scored)
    requires |s| >= 2
    ensures Leader(SortByScore(s)) == Some(c) <==> Wins(c, multiset(s))
  {
    var t := SortByScore(s);
    SortKeeps(s);
    SameLength(t, s);
    if Leader(t).Some? {
      LeaderLeads(t);
    }
    if Wins(c, multiset(t)) {
      WinnerComesFirst(t, c);
    }
  }

  /** So the leader depends on the candidates and not on their order. */
  lemma {:induction false} LeaderRearranged(a: seq<Scored>, b: seq<Scored>)
    requires multiset(a) == multiset(b) && |a| >= 2
    ensures |a| == |b| && Leader(SortByScore(a)) == Leader(SortByScore(b))
  {
    assert |multiset(a)| == |a| && |multiset(b)| == |b|;
    if Leader(SortByScore(a)).Some? {
      LeaderWins(a, Leader(SortByScore(a)).value);
      LeaderWins(b, Leader(SortByScore(a)).value);
    } else if Leader(SortByScore(b)).Some? {
      LeaderWins(a, Leader(SortByScore(b)).value);
      LeaderWins(b, Leader(SortByScore(b)).value);
    }
  }

  // ---------- rearranged rows ----------

  ghost predicate SameAnswer(a: ProcMatch, b: ProcMatch) {
    match (a, b)
    case (Single(p), Single(q)) => p == q
    case (Ambiguous(ps), Ambiguous(qs)) => multiset(ps) == multiset(qs)
    case (NoMatch, NoMatch) => true
    case _ => false
  }

  lemma {:induction false} FullsRearranged(a: seq<Scored>, b: seq<Scored>)
    requires multiset(a) == multiset(b)
    ensures multiset(Fulls(a)) == multiset(Fulls(b))
  {
    FilterMapRearranged((c: Scored) => Some(c.full), a, b);
  }

  lemma {:induction false} Rescored5Rearranged(a: seq<Scored>, b: seq<Scored>, q: Query)
    requires multiset(a) == multiset(b)
    ensures multiset(Rescored5(a, q)) == multiset(Rescored5(b, q)) && |Rescored5(a, q)| == |a|
  {
    FilterMapRearranged((c: Scored) => Some(Gate5(c, q)), a, b);
    FilterMapTotal((c: Scored) => Some(Gate5(c, q)), a);
  }

  lemma {:induction false} Rescored6Rearranged(a: seq<Scored>, b: seq<Scored>, q: Query)
    requires multiset(a) == multiset(b)
    ensures multiset(Rescored6(a, q)) == multiset(Rescored6(b, q)) && |Rescored6(a, q)| == |a|
  {
    FilterMapRearranged((c: Scored) => Some(Gate6(c, q)), a, b);
    FilterMapTotal((c: Scored) => Some(Gate6(c, q)), a);
  }

  lemma {:induction false} StagesRearranged(a: seq<Scored>, b: seq<Scored>, q: Query)
    requires multiset(a) == multiset(b)
    ensures multiset(Final5(a, q)) == multiset(Final5(b, q)) && |Final5(a, q)| == |a|
    ensures multiset(Final6(a, q)) == multiset(Final6(b, q)) && |Final6(a, q)| == |a|
  {
    SortKeeps(a);
    SortKeeps(b);
    SameLength(SortByScore(a), a);
    Rescored5Rearranged(SortByScore(a), SortByScore(b), q);
    var c, d := Final5(a, q), Final5(b, q);
    SortKeeps(c);
    SortKeeps(d);
    SameLength(SortByScore(c), c);
    Rescored6Rearranged(SortByScore(c), SortByScore(d), q);
  }

  lemma {:induction false} ChooseAmongRearranged(a: seq<Scored>, b: seq<Scored>, q: Query)
    requires multiset(a) == multiset(b) && |a| >= 2 && |b| >= 2
    ensures SameAnswer(ChooseAmong(a, q), ChooseAmong(b, q))
  {
    StagesRearranged(a, b, q);
    LeaderRearranged(a, b);
    LeaderRearranged(Final5(a, q), Final5(b, q));
    LeaderRearranged(Final6(a, q), Final6(b, q));
    SortKeeps(Final6(a, q));
    SortKeeps(Final6(b, q));
    FullsRearranged(SortByScore(Final6(a, q)), SortByScore(Final6(b, q)));
  }

  lemma {:induction false} AfterGate3Rearranged(a: seq<Scored>, b: seq<Scored>, x: seq<Scored>, y: seq<Scored>,
                                                q: Query)
    requires multiset(a) == multiset(b) && multiset(x) == multiset(y)
    ensures SameAnswer(AfterGate3(a, x, q), AfterGate3(b, y, q))
  {
    SameLength(x, y);
    if x == [] {
      FullsRearranged(a, b);
    } else if |x| == 1 {
      assert x[0] in multiset(y);
      assert x[0] == y[0];
    } else {
      ChooseAmongRearranged(x, y, q);
    }
  }

  lemma {:induction false} Survivors3Rearranged(a: seq<Scored>, b: seq<Scored>, q: Query, db: Db)
    requires multiset(a) == multiset(b)
    ensures multiset(Survivors3(a, q, db)) == multiset(Survivors3(b, q, db))
  {
    FilterMapRearranged((c: Scored) => Gate3(c, q, db), a, b);
  }

  lemma {:induction false} ChooseRearranged(a: seq<Scored>, b: seq<Scored>, q: Query, db: Db)
    requires multiset(a) == multiset(b)
    ensures SameAnswer(Choose(a, q, db), Choose(b, q, db))
  {
    Survivors3Rearranged(a, b, q, db);
    AfterGate3Rearranged(a, b, Survivors3(a, q, db), Survivors3(b, q, db), q);
  }

  /** The same database, its rows in any order. */
  ghost predicate RowsRearranged(db: Db, other: Db) {
    && db.params == other.params
    && forall ts :: (db.rows(ts).Err? && other.rows(ts) == db.rows(ts)) ||
                    (db.rows(ts).Ok? && other.rows(ts).Ok? &&
                      multiset(db.rows(ts).value) == multiset(other.rows(ts).value))
  }

  lemma {:induction false} Survivors1Rearranged(a: seq<Row>, b: seq<Row>, tokens: set<string>, q: Query)
    requires multiset(a) == multiset(b)
    ensures multiset(Survivors1(a, tokens, q)) == multiset(Survivors1(b, tokens, q))
    ensures Survivors1(a, tokens, q) == [] <==> Survivors1(b, tokens, q) == []
  {
    FilterMapRearranged((r: Row) => Gate1(r, tokens, q, VERBS), a, b);
    SameLength(Survivors1(a, tokens, q), Survivors1(b, tokens, q));
  }

  lemma {:induction false} ChooseSameParams(g1: seq<Scored>, q: Query, db: Db, other: Db)
    requires db.params == other.params
    ensures Choose(g1, q, db) == Choose(g1, q, other)
  {
    forall c ensures Gate3(c, q, db) == Gate3(c, q, other) {}
    Survivors3Same(g1, q, db, other);
  }

  lemma {:induction false} Survivors3Same(g1: seq<Scored>, q: Query, db: Db, other: Db)
    requires db.params == other.params
    ensures Survivors3(g1, q, db) == Survivors3(g1, q, other)
    decreases |g1|
  {
    if g1 != [] {
      Survivors3Same(g1[1..], q, db, other);
      assert Gate3(g1[0], q, db) == Gate3(g1[0], q, other);
    }
  }

  /** The order of the candidate rows never changes a `Single` answer, nor which
      candidates an `Ambiguous` one lists, nor what is searched for. */
  lemma {:induction false} RowOrderIsIrrelevant(q: Query, db: Db, other: Db)
    requires RowsRearranged(db, other)
    ensures var a, b := FindProc(q, db), FindProc(q, other);
      && a.searches == b.searches
      && (a.answer.Err? ==> b.answer == a.answer)
      && (a.answer.Ok? ==> b.answer.Ok? && SameAnswer(a.answer.value, b.answer.value))
  {
    var tokens := SearchTokens(q.entity);
    var combined := tokens + SingularFallbacks(tokens);
    if db.rows(tokens).Ok? {
      var x, y := db.rows(tokens).value, other.rows(tokens).value;
      Survivors1Rearranged(x, y, tokens, q);
      ChooseRearranged(Survivors1(x, tokens, q), Survivors1(y, tokens, q), q, db);
      ChooseSameParams(Survivors1(y, tokens, q), q, db, other);
    }
    if db.rows(combined).Ok? {
      var x, y := db.rows(combined).value, other.rows(combined).value;
      Survivors1Rearranged(x, y, combined, q);
      ChooseRearranged(Survivors1(x, combined, q), Survivors1(y, combined, q), q, db);
      ChooseSameParams(Survivors1(y, combined, q), q, db, other);
    }
  }

  // ---------- what a single answer means ----------

  /** A candidate of that name is ahead of all others. */
  ghost predicate LeadsIn(p: string, s: seq<Scored>) {
    exists c: Scored :: c.full == p && Wins(c, multiset(s))
  }

  ghost predicate SomeoneLeads(s: seq<Scored>) {
    exists c: Scored :: Wins(c, multiset(s))
  }

  /** The lone survivor with affinity to the path; or ahead of all others by the margin at
      the deciding gate, the first one at which anybody is. */
  ghost predicate Justified(p: string, g3: seq<Scored>, q: Query) {
    if |g3| == 1 then g3[0].full == p && HasPathAffinity(p, q)
    else if SomeoneLeads(g3) then LeadsIn(p, g3)
    else if SomeoneLeads(Final5(g3, q)) then LeadsIn(p, Final5(g3, q))
    else LeadsIn(p, Final6(g3, q))
  }

  lemma {:induction false} LeaderIsWho(s: seq<Scored>, p: string)
    requires |s| >= 2
    ensures var l := Leader(SortByScore(s));
      (SomeoneLeads(s) <==> l.Some?) && (LeadsIn(p, s) <==> l.Some? && l.value.full == p)
  {
    var l := Leader(SortByScore(s));
    if l.Some? {
      LeaderWins(s, l.value);
    }
    forall c: Scored ensures Wins(c, multiset(s)) <==> l == Some(c) {
      LeaderWins(s, c);
    }
  }

  /** Between several survivors, a procedure is chosen exactly if it leads at the deciding gate. */
  lemma {:induction false} DecidingGate(g3: seq<Scored>, q: Query, p: string)
    requires |g3| >= 2
    ensures ChooseAmong(g3, q) == Single(p) <==> Justified(p, g3, q)
  {
    StagesRearranged(g3, g3, q);
    LeaderIsWho(g3, p);
    LeaderIsWho(Final5(g3, q), p);
    LeaderIsWho(Final6(g3, q), p);
  }

  lemma {:induction false} NobodyToLead(p: string, q: Query)
    ensures !Justified(p, [], q)
  {
    assert Rescored5([], q) == [] && Rescored6([], q) == [];
    assert SortByScore([]) == [];
  }

  lemma {:induction false} ChooseExactly(g1: seq<Scored>, q: Query, db: Db, p: string)
    ensures Choose(g1, q, db) == Single(p) <==> Justified(p, Survivors3(g1, q, db), q)
  {
    var g3 := Survivors3(g1, q, db);
    if g3 == [] {
      NobodyToLead(p, q);
    } else if |g3| >= 2 {
      DecidingGate(g3, q, p);
    }
  }

  /** A search that gives an answer gives a procedure exactly if that is the justified one among the
      survivors of gate 3 of the last search. */
  lemma {:induction false} SingleExactly(q: Query, db: Db, p: string)
    requires FindProc(q, db).answer.Ok?
    ensures var o := FindProc(q, db);
      var last := o.searches[|o.searches| - 1];
      && db.rows(last).Ok?
      && (o.answer.value == Single(p) <==>
          Justified(p, Survivors3(Survivors1(db.rows(last).value, last, q), q, db), q))
  {
    var o := FindProc(q, db);
    var last := o.searches[|o.searches| - 1];
    var g1 := Survivors1(db.rows(last).value, last, q);
    ChooseExactly(g1, q, db, p);
  }

  lemma {:induction false} FinalsKeepNames(g3: seq<Scored>, q: Query, c: Scored)
    requires c in Final5(g3, q) || c in Final6(g3, q)
    ensures exists d :: d in g3 && d.full == c.full
  {
    var s5 := Final5(g3, q);
    var e := c;
    if c !in s5 {
      FilterMapMember((d: Scored) => Some(Gate6(d, q)), SortByScore(s5), c);
      e :| e in SortByScore(s5) && Gate6(e, q) == c;
      SortKeeps(s5);
      assert e in multiset(s5);
    }
    FilterMapMember((d: Scored) => Some(Gate5(d, q)), SortByScore(g3), e);
    var d :| d in SortByScore(g3) && Gate5(d, q) == e;
    SortKeeps(g3);
    assert d in multiset(g3);
  }

  lemma {:induction false} ChooseAmongGiven(g3: seq<Scored>, q: Query)
    requires |g3| >= 2 && ChooseAmong(g3, q).Single?
    ensures exists d :: d in g3 && d.full == ChooseAmong(g3, q).full
  {
    StagesRearranged(g3, g3, q);
    var s5, s6 := Final5(g3, q), Final6(g3, q);
    if Leader(SortByScore(g3)).Some? {
      var c := Leader(SortByScore(g3)).value;
      LeaderWins(g3, c);
      assert c in multiset(g3);
    } else if Leader(SortByScore(s5)).Some? {
      var c := Leader(SortByScore(s5)).value;
      LeaderWins(s5, c);
      assert c in multiset(s5);
      FinalsKeepNames(g3, q, c);
    } else {
      var c := Leader(SortByScore(s6)).value;
      LeaderWins(s6, c);
      assert c in multiset(s6);
      FinalsKeepNames(g3, q, c);
    }
  }

  lemma {:induction false} ChooseGiven(g1: seq<Scored>, q: Query, db: Db)
    requires Choose(g1, q, db).Single?
    ensures var p := Choose(g1, q, db).full;
      SignatureAgrees(p, q, db) && exists c :: c in g1 && c.full == p
  {
    var g3 := Survivors3(g1, q, db);
    if |g3| >= 2 {
      ChooseAmongGiven(g3, q);
    } else {
      assert g3[0] in g3;
    }
    var p := Choose(g1, q, db).full;
    var d :| d in g3 && d.full == p;
    FilterMapMember((c: Scored) => Gate3(c, q, db), g1, d);
  }

  /** A single answer names a procedure the last search found, whose name passes the
      verb gate and whose parameters pass gate 3, and which is the lone survivor with
      affinity to the path or leads every other survivor by the margin at the first gate
      at which anybody does. */
  lemma {:induction false} SingleIsJustified(q: Query, db: Db)
    requires FindProc(q, db).answer.Ok? && FindProc(q, db).answer.value.Single?
    ensures var o := FindProc(q, db);
      var p, last := o.answer.value.full, o.searches[|o.searches| - 1];
      && db.rows(last).Ok?
      && (exists r :: r in db.rows(last).value && r.full == p && HasAllowedVerb(r.name, q.allowedVerbs))
      && SignatureAgrees(p, q, db)
      && Justified(p, Survivors3(Survivors1(db.rows(last).value, last, q), q, db), q)
  {
    var o := FindProc(q, db);
    var last := o.searches[|o.searches| - 1];
    var rows := db.rows(last).value;
    var g1 := Survivors1(rows, last, q);
    ChooseGiven(g1, q, db);
    SingleExactly(q, db, o.answer.value.full);
    var c :| c in g1 && c.full == o.answer.value.full;
    FilterMapMember((r: Row) => Gate1(r, last, q, VERBS), rows, c);
    var r :| r in rows && Gate1(r, last, q, VERBS) == Some(c);
  }

  lemma {:induction false} RescoringKeepsNames(s: seq<Scored>, q: Query)
    ensures Fulls(Rescored5(s, q)) == Fulls(s) && Fulls(Rescored6(s, q)) == Fulls(s)
  {
    FilterMapTotal((c: Scored) => Some(Gate5(c, q)), s);
    FilterMapTotal((c: Scored) => Some(Gate6(c, q)), s);
    FilterMapTotal((c: Scored) => Some(c.full), s);
    FilterMapTotal((c: Scored) => Some(c.full), Rescored5(s, q));
    FilterMapTotal((c: Scored) => Some(c.full), Rescored6(s, q));
  }

  /** The names listed in the end are those of the survivors of gate 3. */
  lemma {:induction false} NamesSurvive(g3: seq<Scored>, q: Query)
    ensures multiset(Fulls(SortByScore(Final6(g3, q)))) == multiset(Fulls(g3))
  {
    var s5, s6 := Final5(g3, q), Final6(g3, q);
    SortKeeps(g3);
    SortKeeps(s5);
    SortKeeps(s6);
    FullsRearranged(SortByScore(s6), s6);
    RescoringKeepsNames(SortByScore(s5), q);
    FullsRearranged(SortByScore(s5), s5);
    RescoringKeepsNames(SortByScore(g3), q);
    FullsRearranged(SortByScore(g3), g3);
  }

  /** An ambiguous answer between several survivors lists all of them, and none of
      them leads by the margin at any gate. */
  lemma {:induction false} AmbiguousListsAll(g3: seq<Scored>, q: Query)
    requires |g3| >= 2 && ChooseAmong(g3, q).Ambiguous?
    ensures multiset(ChooseAmong(g3, q).candidates) == multiset(Fulls(g3))
    ensures forall p :: !LeadsIn(p, g3) && !LeadsIn(p, Final5(g3, q)) && !LeadsIn(p, Final6(g3, q))
  {
    NamesSurvive(g3, q);
    StagesRearranged(g3, g3, q);
    NobodyLeads(g3);
    NobodyLeads(Final5(g3, q));
    NobodyLeads(Final6(g3, q));
  }

  lemma {:induction false} NobodyLeads(s: seq<Scored>)
    requires |s| >= 2 && Leader(SortByScore(s)).None?
    ensures forall p :: !LeadsIn(p, s)
  {
    forall c: Scored ensures !Wins(c, multiset(s)) {
      LeaderWins(s, c);
    }
  }

  /** The retry happens at most once, only with singular forms added, and only when
      no procedure of the first search has an allowed verb. */
  lemma {:induction false} RetryAtMostOnce(q: Query, db: Db)
    ensures var s := FindProc(q, db).searches;
      && 1 <= |s| <= 2 && s[0] == SearchTokens(q.entity)
      && (|s| == 2 ==>
            && s[1] == s[0] + SingularFallbacks(s[0]) && SingularFallbacks(s[0]) != {}
            && db.rows(s[0]).Ok? && forall r :: r in db.rows(s[0]).value ==> !HasAllowedVerb(r.name, q.allowedVerbs))
  {
    var s := FindProc(q, db).searches;
    if |s| == 2 {
      var rows := db.rows(s[0]).value;
      forall r | r in rows ensures !HasAllowedVerb(r.name, q.allowedVerbs) {
        var g := Gate1(r, s[0], q, VERBS);
        if g.Some? {
          FilterMapMember((r: Row) => Gate1(r, s[0], q, VERBS), rows, g.value);
        }
      }
    }
  }

  // ---------- agreement between gates ----------

  lemma {:induction false} HitsCount(tables: seq<string>, literals: seq<string>)
    ensures TableHits(tables, literals) > 0 <==> exists i :: 0 <= i < |tables| && TableMatches(tables[i], literals)
    decreases |tables|
  {
    if tables != [] {
      HitsCount(tables[1..], literals);
      if i :| 0 <= i < |tables| && TableMatches(tables[i], literals) {
        assert i > 0 ==> tables[1..][i - 1] == tables[i];
      }
      if i :| 0 <= i < |tables[1..]| && TableMatches(tables[1..][i], literals) {
        assert tables[i + 1] == tables[1..][i];
      }
    }
  }

  /** The early veto on a lone candidate and the bonus of gate 6, computed by separate
      code, agree on every path with a literal segment and every schema-qualified name. */
  lemma {:induction false} VetoAgreesWithGate6(full: string, q: Query)
    requires Literals(q.segments) != [] && SchemaOf(full, "") != []
    ensures HasPathAffinity(full, q) <==> Gate6Bonus(full, q) > 0
  {
    HitsCount(ReferencedTables(q.catalog, full), Literals(q.segments));
    assert SchemaOf(full, "dbo") == SchemaOf(full, "");
  }

  /** The entity is the last literal segment. */
  predicate IsLastLiteral(entity: string, segs: seq<string>, p: nat) {
    p < |segs| && segs[p] == entity && entity != "{x}" && forall j :: p < j < |segs| ==> segs[j] == "{x}"
  }

  lemma {:induction false} NoLiterals(segs: seq<string>)
    requires forall j :: 0 <= j < |segs| ==> segs[j] == "{x}"
    ensures Literals(segs) == []
    decreases |segs|
  {
    if segs != [] {
      NoLiterals(segs[1..]);
    }
  }

  /** When the entity is the last literal segment there is never a path suffix: gate 5 only
      rewards procedures whose name has no qualifier. */
  lemma {:induction false} Gate5IgnoresPath(c: Scored, q: Query, p: nat)
    requires IsLastLiteral(q.entity, q.segments, p)
    ensures PathSuffix(q.entity, q.segments) == []
    ensures Gate5(c, q).score == c.score + if Qualifier(c.full, Lower(q.entity)) == [] then 30 else -30
  {
    var l := LastPosition(Lower(q.entity), q.segments);
    assert Lower(q.segments[p]) == Lower(q.entity);
    NoLiterals(q.segments[l + 1..]);
  }
}
