/** What the missing-op pass reports and emits, said of the rows and their surroundings alone. */
module PassReport {
  import opened Text
  import opened ProcMatcher
  import opened PathShapes
  import opened MissingOps
  import opened MissingOpsProofs

  // ---------- what is known of a row ----------

  /** Neither the spec nor the operator settles the row. */
  predicate Open(e: Entry, known: Pairs, w: World) {
    PairOf(e, w) !in known && Resolution(SpecPath(e, w), MethodOf(e), w).None?
  }

  predicate HasEntity(e: Entry, w: World) {
    EntityOf(Shape(SpecPath(e, w))) != []
  }

  function Answer(e: Entry, w: World): Result<ProcMatch> {
    FindProc(QueryFor(e, w), w.db).answer
  }

  /** What the smoke run of a procedure for the row says, with the row's credential if it has one. */
  function SmokeRun(e: Entry, proc: string, w: World): Option<string> {
    w.smoke(proc, if e.hasCredential then Some(e.apiId) else None)
  }

  /** The row goes to this procedure: by the operator's word, or as the matcher's single answer whose
      smoke run passes. */
  predicate Binds(e: Entry, known: Pairs, w: World, proc: string) {
    PairOf(e, w) !in known &&
    (Resolution(SpecPath(e, w), MethodOf(e), w) == Some(proc) ||
     (Open(e, known, w) && HasEntity(e, w) && Answer(e, w) == Ok(Single(proc)) && SmokeRun(e, proc, w) == None))
  }

  /** The row is left to a person, for this reason. */
  predicate Defers(e: Entry, known: Pairs, w: World, reason: Reason) {
    Open(e, known, w) &&
    match reason
    case NoEntity => !HasEntity(e, w)
    case Gate4Rejected(proc, why) =>
      HasEntity(e, w) && Answer(e, w) == Ok(Single(proc)) && SmokeRun(e, proc, w) == Some(why)
    case ManyProcs(candidates) => HasEntity(e, w) && Answer(e, w) == Ok(Ambiguous(candidates))
    case NoProc => HasEntity(e, w) && Answer(e, w) == Ok(NoMatch)
  }

  // ---------- one row ----------

  predicate Passes(entity: string, answer: Result<ProcMatch>, smoke: string -> Option<string>, p: string) {
    entity != [] && answer == Ok(Single(p)) && smoke(p) == None
  }

  lemma {:induction false} FateForExactly(covered: bool, chosen: Option<string>, entity: string,
                                          answer: Result<ProcMatch>, smoke: string -> Option<string>, p: string,
                                          m: string)
    ensures var f := FateFor(covered, chosen, entity, answer, smoke);
      && (f.Covered? <==> covered)
      && (f == Bound(p) <==> !covered && (chosen == Some(p) || (chosen.None? && Passes(entity, answer, smoke, p))))
      && (f == Aborted(m) <==> !covered && chosen.None? && entity != [] && answer == Err(m))
  {
  }

  lemma {:induction false} LoggedExactly(covered: bool, chosen: Option<string>, entity: string,
                                         answer: Result<ProcMatch>, smoke: string -> Option<string>, reason: Reason)
    ensures FateFor(covered, chosen, entity, answer, smoke) == Logged(reason) <==>
            !covered && chosen.None? &&
            match reason
            case NoEntity => entity == []
            case Gate4Rejected(proc, why) => entity != [] && answer == Ok(Single(proc)) && smoke(proc) == Some(why)
            case ManyProcs(candidates) => entity != [] && answer == Ok(Ambiguous(candidates))
            case NoProc => entity != [] && answer == Ok(NoMatch)
  {
  }

  lemma {:induction false} FateOfRow(e: Entry, known: Pairs, w: World)
    ensures FateOf(e, known, w) ==
            FateFor(PairOf(e, w) in known, Resolution(SpecPath(e, w), MethodOf(e), w), EntityOf(Shape(SpecPath(e, w))),
                    Answer(e, w), Smoke(e, w))
    ensures forall p :: Smoke(e, w)(p) == SmokeRun(e, p, w)
  {
  }

  lemma {:induction false} BoundWhen(e: Entry, known: Pairs, w: World, proc: string, f: Fate)
    requires f == FateOf(e, known, w)
    ensures f == Bound(proc) <==> Binds(e, known, w, proc)
  {
    FateOfRow(e, known, w);
    FateForExactly(PairOf(e, w) in known, Resolution(SpecPath(e, w), MethodOf(e), w), EntityOf(Shape(SpecPath(e, w))),
                   Answer(e, w), Smoke(e, w), proc, "");
  }

  lemma {:induction false} LoggedWhen(e: Entry, known: Pairs, w: World, reason: Reason, f: Fate)
    requires f == FateOf(e, known, w)
    ensures f == Logged(reason) <==> Defers(e, known, w, reason)
  {
    FateOfRow(e, known, w);
    LoggedExactly(PairOf(e, w) in known, Resolution(SpecPath(e, w), MethodOf(e), w), EntityOf(Shape(SpecPath(e, w))),
                  Answer(e, w), Smoke(e, w), reason);
  }

  lemma {:induction false} OtherwiseWhen(e: Entry, known: Pairs, w: World, m: string, f: Fate)
    requires f == FateOf(e, known, w)
    ensures f.Covered? <==> PairOf(e, w) in known
    ensures f == Aborted(m) <==> Open(e, known, w) && HasEntity(e, w) && Answer(e, w) == Err(m)
  {
    FateOfRow(e, known, w);
    FateForExactly(PairOf(e, w) in known, Resolution(SpecPath(e, w), MethodOf(e), w), EntityOf(Shape(SpecPath(e, w))),
                   Answer(e, w), Smoke(e, w), "", m);
  }

  /** What becomes of a row: it is covered, bound, left to a person, or ends the pass, as the row and its
      surroundings say. */
  lemma {:induction false} FateIsDecided(e: Entry, known: Pairs, w: World)
    ensures var f := FateOf(e, known, w);
      && (f.Covered? <==> PairOf(e, w) in known)
      && (forall p :: f == Bound(p) <==> Binds(e, known, w, p))
      && (forall reason :: f == Logged(reason) <==> Defers(e, known, w, reason))
      && (forall m :: f == Aborted(m) <==> Open(e, known, w) && HasEntity(e, w) && Answer(e, w) == Err(m))
  {
    var f := FateOf(e, known, w);
    forall p ensures f == Bound(p) <==> Binds(e, known, w, p) {
      BoundWhen(e, known, w, p, f);
    }
    forall reason ensures f == Logged(reason) <==> Defers(e, known, w, reason) {
      LoggedWhen(e, known, w, reason, f);
    }
    forall m
      ensures f.Covered? <==> PairOf(e, w) in known
      ensures f == Aborted(m) <==> Open(e, known, w) && HasEntity(e, w) && Answer(e, w) == Err(m)
    {
      OtherwiseWhen(e, known, w, m, f);
    }
    OtherwiseWhen(e, known, w, "", f);
  }

  /** Gate 4: the matcher's single answer is bound if and only if its smoke run passes; otherwise the row
      is logged with what the run said, and no operation is emitted. */
  lemma {:induction false} SmokeDecides(e: Entry, known: Pairs, w: World, proc: string)
    requires Open(e, known, w) && HasEntity(e, w) && Answer(e, w) == Ok(Single(proc))
    ensures var d, run := Decide(e, FateOf(e, known, w), w), SmokeRun(e, proc, w);
      && (d.fate == Bound(proc) <==> run == None)
      && (run.None? ==> d.emitted == Some(NewOp(e, proc, w)))
      && (run.Some? ==> d.fate == Logged(Gate4Rejected(proc, run.value)) && d.emitted == None)
  {
    var f, run := FateOf(e, known, w), SmokeRun(e, proc, w);
    BoundWhen(e, known, w, proc, f);
    if run.Some? {
      LoggedWhen(e, known, w, Gate4Rejected(proc, run.value), f);
      NothingEmitted(e, w, proc, run.value);
    } else {
      assert f == Bound(proc);
    }
  }

  lemma {:induction false} NothingEmitted(e: Entry, w: World, proc: string, why: string)
    ensures Decide(e, Logged(Gate4Rejected(proc, why)), w).emitted == None
  {
  }

  // ---------- the whole pass ----------

  predicate Adds(e: Entry, known: Pairs, w: World, a: Add) {
    a.path == SpecPath(e, w) && a.verb == MethodOf(e) && Binds(e, known, w, a.backedBy)
  }

  predicate Logs(e: Entry, known: Pairs, w: World, l: Log) {
    l.path == SpecPath(e, w) && l.verb == e.verb && Defers(e, known, w, l.reason)
  }

  lemma {:induction false} EntriesOfFate(e: Entry, f: Fate, w: World, a: Add, l: Log)
    ensures var d := Decide(e, f, w);
      && (a in AddOf(d) <==> a.path == SpecPath(e, w) && a.verb == MethodOf(e) && f == Bound(a.backedBy))
      && (l in LogOf(d) <==> l.path == SpecPath(e, w) && l.verb == e.verb && f == Logged(l.reason))
  {
  }

  lemma {:induction false} RowReports(e: Entry, known: Pairs, w: World, a: Add, l: Log)
    ensures var d := Decide(e, FateOf(e, known, w), w);
      (a in AddOf(d) <==> Adds(e, known, w, a)) && (l in LogOf(d) <==> Logs(e, known, w, l))
  {
    var f := FateOf(e, known, w);
    BoundWhen(e, known, w, a.backedBy, f);
    LoggedWhen(e, known, w, l.reason, f);
    EntriesOfFate(e, f, w, a, l);
  }

  lemma {:induction false} FoldAppend(st: State, rows: seq<Entry>, known: Pairs, w: World)
    requires rows != []
    ensures var e, front := rows[|rows| - 1], Fold(st, Decisions(rows[..|rows| - 1], known, w));
      var d, after := Decide(e, FateOf(e, known, w), w), Fold(st, Decisions(rows, known, w));
      after.added == front.added + AddOf(d) && after.logged == front.logged + LogOf(d)
  {
    var ds := Decisions(rows[..|rows| - 1], known, w);
    var d := Decide(rows[|rows| - 1], FateOf(rows[|rows| - 1], known, w), w);
    assert (ds + [d])[..|ds|] == ds;
  }

  predicate SomeAdds(rows: seq<Entry>, known: Pairs, w: World, a: Add) {
    exists e :: e in rows && Adds(e, known, w, a)
  }

  predicate SomeLogs(rows: seq<Entry>, known: Pairs, w: World, l: Log) {
    exists e :: e in rows && Logs(e, known, w, l)
  }

  lemma {:induction false} LastOrFront(rows: seq<Entry>, known: Pairs, w: World, a: Add, l: Log)
    requires rows != []
    ensures var front, last := rows[..|rows| - 1], rows[|rows| - 1];
      && (SomeAdds(rows, known, w, a) <==> SomeAdds(front, known, w, a) || Adds(last, known, w, a))
      && (SomeLogs(rows, known, w, l) <==> SomeLogs(front, known, w, l) || Logs(last, known, w, l))
  {
    var front, last := rows[..|rows| - 1], rows[|rows| - 1];
    assert rows == front + [last];
    assert forall e :: e in rows <==> e in front || e == last;
  }

  /** The report of a pass lists as added exactly the rows that go to a procedure, with it, and as logged
      exactly those left to a person, with the reason. */
  lemma {:induction false} ReportIsExact(st: State, rows: seq<Entry>, known: Pairs, w: World, a: Add, l: Log)
    ensures var after := Fold(st, Decisions(rows, known, w));
      && (a in after.added <==> a in st.added || SomeAdds(rows, known, w, a))
      && (l in after.logged <==> l in st.logged || SomeLogs(rows, known, w, l))
    decreases |rows|
  {
    if rows != [] {
      ReportIsExact(st, rows[..|rows| - 1], known, w, a, l);
      RowReports(rows[|rows| - 1], known, w, a, l);
      FoldAppend(st, rows, known, w);
      LastOrFront(rows, known, w, a, l);
    }
  }

  /** What the pass emits for a row: an operation backed by its procedure, or one that points to the log
      where the matcher found several procedures or none, and nothing for any other row. */
  lemma {:induction false} EmitsExactly(e: Entry, known: Pairs, w: World, proc: string, reason: Reason)
    ensures var emitted := Decide(e, FateOf(e, known, w), w).emitted;
      && (PairOf(e, w) in known ==> emitted == None)
      && (Binds(e, known, w, proc) ==> emitted == Some(NewOp(e, proc, w)))
      && (Defers(e, known, w, reason) ==>
            emitted == match reason
                       case ManyProcs(_) => Some(NewOp(e, "ambiguous (see corrections.md)", w))
                       case NoProc => Some(NewOp(e, "unbound (see corrections.md)", w))
                       case _ => None)
  {
    var f := FateOf(e, known, w);
    BoundWhen(e, known, w, proc, f);
    LoggedWhen(e, known, w, reason, f);
    OtherwiseWhen(e, known, w, "", f);
  }
}
