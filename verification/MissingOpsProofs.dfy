/** What the missing-op pass does to the spec and what it reports. */
module MissingOpsProofs {
  import opened Text
  import opened Lists
  import opened ProcMatcher
  import opened ProcMatcherProofs
  import opened PathShapes
  import opened MissingOps

  type Pairs = set<(seq<string>, string)>

  /** An operation of this shape under this method, whatever the case of the method. */
  ghost predicate HasOp(paths: Option<Paths>, pair: (seq<string>, string)) {
    exists p, v :: OpAt(paths, p, v).Some? && (Shape(p), Lower(v)) == pair
  }

  predicate Claims(path: string, verb: string, w: World) {
    Resolution(path, verb, w).Some? || EntityOf(Shape(path)) != []
  }

  /** What a decision of the pass owes to the set of known operations and to the world. */
  ghost predicate Sound(d: Decision, known: Pairs, w: World) {
    && Lower(d.verb) == d.verb
    && (d.fate.Covered? <==> (Shape(d.path), d.verb) in known)
    && (d.emitted.Some? <==> Backing(d.fate).Some?)
    && (d.verb !in STANDARD && !d.fate.Covered? && !d.fate.Aborted? ==>
      (d.emitted.Some? <==> Claims(d.path, d.verb, w)))
  }

  ghost predicate AllSound(ds: seq<Decision>, known: Pairs, w: World) {
    forall i :: 0 <= i < |ds| ==> Sound(ds[i], known, w)
  }

  // ---------- decisions ----------

  lemma {:induction false} NoVerbNoSurvivor(rows: seq<Row>, tokens: set<string>, q: Query)
    requires q.allowedVerbs == []
    ensures Survivors1(rows, tokens, q) == []
    decreases |rows|
  {
    if rows != [] {
      NoVerbNoSurvivor(rows[1..], tokens, q);
    }
  }

  /** Without an allowed verb no procedure is ever chosen. */
  lemma {:induction false} NoVerbNoMatch(q: Query, db: Db)
    requires q.allowedVerbs == []
    ensures var a := FindProc(q, db).answer; a.Err? || a == Ok(NoMatch)
  {
    var tokens := SearchTokens(q.entity);
    var combined := tokens + SingularFallbacks(tokens);
    if db.rows(tokens).Ok? {
      NoVerbNoSurvivor(db.rows(tokens).value, tokens, q);
    }
    if db.rows(combined).Ok? {
      NoVerbNoSurvivor(db.rows(combined).value, combined, q);
    }
  }

  lemma {:induction false} QueryWithoutVerbs(e: Entry, w: World)
    requires MethodOf(e) !in STANDARD
    ensures QueryFor(e, w).allowedVerbs == []
  {
  }

  lemma {:induction false} FateForFacts(covered: bool, chosen: Option<string>, entity: string,
                                        answer: Result<ProcMatch>, smoke: string -> Option<string>)
    ensures var f := FateFor(covered, chosen, entity, answer, smoke);
      && (f.Covered? <==> covered)
      && (!covered && !f.Aborted? && (answer.Err? || answer == Ok(NoMatch)) ==>
            (Backing(f).Some? <==> chosen.Some? || entity != []))
  {
  }

  lemma {:induction false} DecisionIsSound(e: Entry, known: Pairs, w: World)
    ensures Sound(Decide(e, FateOf(e, known, w), w), known, w)
  {
    var q := QueryFor(e, w);
    FateForFacts(PairOf(e, w) in known, Resolution(SpecPath(e, w), MethodOf(e), w), EntityOf(Shape(SpecPath(e, w))),
                 FindProc(q, w.db).answer, Smoke(e, w));
    LowerTwice(if e.verb.Some? then e.verb.value else "get");
    if MethodOf(e) !in STANDARD {
      QueryWithoutVerbs(e, w);
      NoVerbNoMatch(q, w.db);
    }
  }

  /** Every decision of the pass is sound. */
  lemma {:induction false} DecisionsAreSound(rows: seq<Entry>, known: Pairs, w: World)
    ensures AllSound(Decisions(rows, known, w), known, w)
    decreases |rows|
  {
    if rows != [] {
      DecisionIsSound(rows[|rows| - 1], known, w);
      DecisionsAreSound(rows[..|rows| - 1], known, w);
    }
  }

  // ---------- the entity and gate 5 ----------

  lemma {:induction false} EntityIsLastLiteral(shape: seq<string>) returns (p: nat)
    requires EntityOf(shape) != []
    ensures IsLastLiteral(EntityOf(shape), shape, p)
    decreases |shape|
  {
    var n := |shape| - 1;
    if shape[n] != "{x}" {
      p := n;
    } else {
      p := EntityIsLastLiteral(shape[..n]);
      assert forall j :: p < j < n ==> shape[j] == shape[..n][j];
    }
  }

  /** In the queries the pass makes, the path never goes on behind the entity, so gate 5 rewards
      exactly the procedures whose name does not either. */
  lemma {:induction false} PassHasNoSuffix(e: Entry, w: World, c: Scored)
    requires EntityOf(Shape(SpecPath(e, w))) != []
    ensures var q := QueryFor(e, w);
      && PathSuffix(q.entity, q.segments) == []
      && Gate5(c, q).score == c.score + if Qualifier(c.full, Lower(q.entity)) == [] then 30 else -30
  {
    var q := QueryFor(e, w);
    var p := EntityIsLastLiteral(q.segments);
    Gate5IgnoresPath(c, q, p);
  }

  // ---------- the spec after the pass ----------

  function OrElse<T>(a: Option<T>, b: Option<T>): Option<T> {
    if a.Some? then a else b
  }

  /** The operation a decision puts at a place. */
  function Written(d: Decision, p: string, v: string): Option<Op> {
    if d.path == p && d.verb == v then d.emitted else None
  }

  /** The last operation that some decision puts at a place. */
  function LastWritten(ds: seq<Decision>, p: string, v: string): Option<Op>
    decreases |ds|
  {
    if ds == [] then None
    else OrElse(Written(ds[|ds| - 1], p, v), LastWritten(ds[..|ds| - 1], p, v))
  }

  lemma {:induction false} StepAt(st: State, d: Decision, p: string, v: string)
    requires st.paths.Some?
    ensures Step(st, d).paths.Some?
    ensures OpAt(Step(st, d).paths, p, v) == OrElse(Written(d, p, v), OpAt(st.paths, p, v))
  {
  }

  /** Every place of the spec holds the last operation a row put there, or else what it held before. */
  lemma {:induction false} SpecAfterPass(st: State, ds: seq<Decision>, p: string, v: string)
    requires st.paths.Some?
    ensures Fold(st, ds).paths.Some?
    ensures OpAt(Fold(st, ds).paths, p, v) == OrElse(LastWritten(ds, p, v), OpAt(st.paths, p, v))
    decreases |ds|
  {
    if ds != [] {
      SpecAfterPass(st, ds[..|ds| - 1], p, v);
      StepAt(Fold(st, ds[..|ds| - 1]), ds[|ds| - 1], p, v);
    }
  }

  lemma {:induction false} WrittenBySome(ds: seq<Decision>, p: string, v: string)
    ensures LastWritten(ds, p, v).Some? <==> exists i :: 0 <= i < |ds| && Written(ds[i], p, v).Some?
    decreases |ds|
  {
    if ds != [] {
      var front := ds[..|ds| - 1];
      WrittenBySome(front, p, v);
      if i :| 0 <= i < |front| && Written(front[i], p, v).Some? {
        assert Written(ds[i], p, v).Some?;
      }
      if i :| 0 <= i < |ds| && Written(ds[i], p, v).Some? {
        assert i == |ds| - 1 || front[i] == ds[i];
      }
    }
  }

  lemma {:induction false} StandardIsKnown(paths: Option<Paths>, known: Pairs, p: string, v: string)
    requires Covers(known, paths) && OpAt(paths, p, v).Some? && Lower(v) in STANDARD
    ensures (Shape(p), Lower(v)) in known
  {
    ShapeIgnoresCase(p);
  }

  lemma {:induction false} KnownIsThere(paths: Option<Paths>, known: Pairs, pair: (seq<string>, string))
    requires Covers(known, paths) && pair in known
    ensures pair.1 in STANDARD && HasOp(paths, pair)
  {
    var p, v :| OpAt(paths, p, v).Some? && Lower(v) in STANDARD && pair == (Shape(Lower(p)), Lower(v));
    ShapeIgnoresCase(p);
  }

  /** No operation under a standard method that was there before is removed or overwritten. */
  lemma {:induction false} StandardOpsSurvive(st: State, ds: seq<Decision>, known: Pairs, w: World, p: string,
                                              v: string)
    requires Covers(known, st.paths) && AllSound(ds, known, w)
    requires OpAt(st.paths, p, v).Some? && Lower(v) in STANDARD
    ensures OpAt(Fold(st, ds).paths, p, v) == OpAt(st.paths, p, v)
  {
    SpecAfterPass(st, ds, p, v);
    WrittenBySome(ds, p, v);
    if i :| 0 <= i < |ds| && Written(ds[i], p, v).Some? {
      assert Sound(ds[i], known, w);
      StandardIsKnown(st.paths, known, p, v);
      assert false;
    }
  }

  /** An operation that was there before is replaced exactly when its key is outside the standard
      methods and a row with that path and method has a resolution or an entity: such rows are never
      seen as covered. */
  lemma {:induction false} ReplacedExactly(st: State, ds: seq<Decision>, known: Pairs, w: World, p: string, v: string)
    requires Covers(known, st.paths) && AllSound(ds, known, w) && NoneAborted(ds)
    requires OpAt(st.paths, p, v).Some?
    ensures LastWritten(ds, p, v).Some? <==>
            Lower(v) !in STANDARD && Claims(p, v, w) && exists i :: 0 <= i < |ds| && ds[i].path == p && ds[i].verb == v
    ensures OpAt(Fold(st, ds).paths, p, v) == OrElse(LastWritten(ds, p, v), OpAt(st.paths, p, v))
  {
    SpecAfterPass(st, ds, p, v);
    WrittenBySome(ds, p, v);
    if Lower(v) in STANDARD {
      StandardIsKnown(st.paths, known, p, v);
    }
    forall i | 0 <= i < |ds| && ds[i].path == p && ds[i].verb == v
      ensures Written(ds[i], p, v).Some? <==> Lower(v) !in STANDARD && Claims(p, v, w)
    {
      assert Sound(ds[i], known, w);
      if (Shape(p), v) in known {
        KnownIsThere(st.paths, known, (Shape(p), v));
      }
    }
  }

  // ---------- a lost operation ----------

  lemma {:induction false} OneDecision(st: State, d: Decision)
    requires st.paths.Some? && d.emitted.Some?
    ensures OpAt(Fold(st, [d]).paths, d.path, d.verb) == d.emitted
  {
    SpecAfterPass(st, [d], d.path, d.verb);
    assert [d][..0] == [];
  }

  lemma {:induction false} OneRow(e: Entry, known: Pairs, w: World)
    ensures Decisions([e], known, w) == [Decide(e, FateOf(e, known, w), w)]
  {
    assert [e][..0] == [];
  }

  /** A row of another method that the operator has resolved takes its place in the spec, whatever
      operation was there before. */
  lemma {:induction false} OtherMethodIsLost(st: State, e: Entry, proc: string, known: Pairs, w: World)
    requires st.paths.Some? && Covers(known, st.paths)
    requires MethodOf(e) !in STANDARD && Resolution(SpecPath(e, w), MethodOf(e), w) == Some(proc)
    ensures OpAt(Fold(st, Decisions([e], known, w)).paths, SpecPath(e, w), MethodOf(e)) == Some(NewOp(e, proc, w))
  {
    StandardOnly(st.paths, known, PairOf(e, w));
    OneRow(e, known, w);
    OneDecision(st, Decide(e, FateOf(e, known, w), w));
  }

  /** So an operation under `connect` is lost to a row with the verb CONNECT. */
  lemma {:induction false} ConnectIsLost(st: State, e: Entry, proc: string, known: Pairs, w: World, verb: string)
    requires st.paths.Some? && Covers(known, st.paths)
    requires verb == "CONNECT" && e.verb == Some(verb)
    requires Resolution(SpecPath(e, w), MethodOf(e), w) == Some(proc)
    ensures OpAt(Fold(st, Decisions([e], known, w)).paths, SpecPath(e, w), "connect") == Some(NewOp(e, proc, w))
  {
    assert Lower(verb) == "connect" && "connect" !in STANDARD;
    OtherMethodIsLost(st, e, proc, known, w);
  }

  lemma {:induction false} StandardOnly(paths: Option<Paths>, known: Pairs, pair: (seq<string>, string))
    requires Covers(known, paths) && pair.1 !in STANDARD
    ensures pair !in known
  {
    if pair in known {
      KnownIsThere(paths, known, pair);
    }
  }

  // ---------- every row is served ----------

  /** The spec has an operation of a shape and method afterwards exactly when it had one before or
      an operation of that shape and method was emitted for a row. */
  lemma {:induction false} OpsAfterPass(st: State, ds: seq<Decision>, pair: (seq<string>, string))
    requires st.paths.Some? && forall i :: 0 <= i < |ds| ==> Lower(ds[i].verb) == ds[i].verb
    ensures HasOp(Fold(st, ds).paths, pair) <==>
            HasOp(st.paths, pair) ||
            exists i :: 0 <= i < |ds| && ds[i].emitted.Some? && (Shape(ds[i].path), ds[i].verb) == pair
  {
    var after := Fold(st, ds).paths;
    if HasOp(st.paths, pair) {
      var p, v :| OpAt(st.paths, p, v).Some? && (Shape(p), Lower(v)) == pair;
      SpecAfterPass(st, ds, p, v);
      assert OpAt(after, p, v).Some?;
    }
    if i :| 0 <= i < |ds| && ds[i].emitted.Some? && (Shape(ds[i].path), ds[i].verb) == pair {
      var p, v := ds[i].path, ds[i].verb;
      SpecAfterPass(st, ds, p, v);
      WrittenBySome(ds, p, v);
      assert Written(ds[i], p, v).Some?;
      assert OpAt(after, p, v).Some? && (Shape(p), Lower(v)) == pair;
    }
    if HasOp(after, pair) {
      var p, v :| OpAt(after, p, v).Some? && (Shape(p), Lower(v)) == pair;
      SpecAfterPass(st, ds, p, v);
      WrittenBySome(ds, p, v);
      assert OpAt(st.paths, p, v).Some? || LastWritten(ds, p, v).Some?;
    }
  }

  predicate TurnedAway(f: Fate) {
    f.Logged? && (f.reason.NoEntity? || f.reason.Gate4Rejected?)
  }

  /** Every row that is not turned away for want of an entity or by the smoke run has an operation of
      its normalised shape and method in the spec afterwards, provided the spec has paths at all. */
  lemma {:induction false} RowsAreServed(st: State, ds: seq<Decision>, known: Pairs, w: World, i: nat)
    requires Covers(known, st.paths) && AllSound(ds, known, w) && NoneAborted(ds) && i < |ds|
    requires st.paths.Some? && !TurnedAway(ds[i].fate)
    ensures HasOp(Fold(st, ds).paths, (Shape(ds[i].path), ds[i].verb))
  {
    var pair := (Shape(ds[i].path), ds[i].verb);
    forall j | 0 <= j < |ds| ensures Lower(ds[j].verb) == ds[j].verb {
      assert Sound(ds[j], known, w);
    }
    OpsAfterPass(st, ds, pair);
    if ds[i].fate.Covered? {
      KnownIsThere(st.paths, known, pair);
    } else {
      assert ds[i].emitted.Some?;
    }
  }

  /** A spec without paths gets none, though rows are still reported as added. */
  lemma {:induction false} WithoutPathsNothingIsServed(st: State, ds: seq<Decision>, pair: (seq<string>, string))
    requires st.paths.None?
    ensures Fold(st, ds).paths.None? && !HasOp(Fold(st, ds).paths, pair)
    decreases |ds|
  {
    if ds != [] {
      WithoutPathsNothingIsServed(st, ds[..|ds| - 1], pair);
    }
  }

  // ---------- the report ----------

  function CoveredRows(ds: seq<Decision>): nat
    decreases |ds|
  {
    if ds == [] then 0 else CoveredRows(ds[..|ds| - 1]) + if ds[|ds| - 1].fate.Covered? then 1 else 0
  }

  /** Skipped, added and logged rows make up the registry. */
  lemma {:induction false} EveryRowIsCounted(st: State, ds: seq<Decision>)
    requires NoneAborted(ds)
    ensures var after := Fold(st, ds);
      CoveredRows(ds) + (|after.added| - |st.added|) + (|after.logged| - |st.logged|) == |ds|
    decreases |ds|
  {
    if ds != [] {
      EveryRowIsCounted(st, ds[..|ds| - 1]);
    }
  }

  /** Each row leaves its own entry in one list of the report, or none when it is covered, right
      behind the entries of the rows before it. */
  lemma {:induction false} EveryRowIsReported(st: State, ds: seq<Decision>, i: nat)
    requires i < |ds|
    ensures var before, after, d := Fold(st, ds[..i]), Fold(st, ds), ds[i];
      && before.added + (if d.fate.Bound? then [Add(d.path, d.verb, d.fate.proc)] else []) <= after.added
      && before.logged + (if d.fate.Logged? then [Log(d.path, d.asked, d.fate.reason)] else []) <= after.logged
    decreases |ds|
  {
    if i < |ds| - 1 {
      var front := ds[..|ds| - 1];
      assert front[..i] == ds[..i];
      EveryRowIsReported(st, front, i);
    }
  }

  // ---------- placeholders ----------

  function Placeholders(shape: seq<string>): nat {
    if shape == [] then 0 else (if shape[0] == "{x}" then 1 else 0) + Placeholders(shape[1..])
  }

  lemma {:induction false} OneNamePerPlaceholder(segs: seq<string>)
    ensures |ParamNames(segs)| == Placeholders(ShapeOf(NonEmpty(segs)))
    decreases |segs|
  {
    if segs != [] {
      var seg := segs[0];
      OneNamePerPlaceholder(segs[1..]);
      if seg == [] {
        assert NonEmpty(segs) == NonEmpty(segs[1..]);
      } else {
        ShapeCons(seg, NonEmpty(segs[1..]));
        if Lower(seg) == "{x}" {
          OnlyParamsLookLikeParams(seg);
        }
        assert NonEmpty(segs) == [seg] + NonEmpty(segs[1..]);
        var x := if IsParam(seg) then "{x}" else Lower(seg);
        assert ([x] + ShapeOf(NonEmpty(segs[1..])))[1..] == ShapeOf(NonEmpty(segs[1..]));
      }
    }
  }

  lemma {:induction false} OnlyParamsLookLikeParams(seg: string)
    requires Lower(seg) == "{x}"
    ensures IsParam(seg)
  {
    assert Lower(seg)[0] == '{' && Lower(seg)[2] == '}';
  }

  /** An added operation declares one parameter for every placeholder of its path. */
  lemma {:induction false} ParamsAreDeclared(e: Entry, backing: string, w: World)
    ensures |NewOp(e, backing, w).params| == Placeholders(Shape(SpecPath(e, w)))
  {
    OneNamePerPlaceholder(Split(SpecPath(e, w), '/'));
  }
}
