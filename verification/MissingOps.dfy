/** The pass that gives every registry row an operation in the spec:
    `apply_missing_op_pass`, `add_op_to_spec`, `post_normalisation_path` and
    `AmbiguityResolutions::lookup` in `crates/said-forge/src/fitter.rs`. */
module MissingOps {
  import opened Text
  import opened ProcMatcher
  import opened PathShapes

  datatype Entry = Entry(path: string, verb: Option<string>, apiId: string, hasCredential: bool, sourceTable: string)

  /** An operation of the spec: one the generator wrote, or one added for a registry row. */
  datatype Op = Given(content: string)
              | Registered(backedBy: string, sourceTable: string, operationId: string, params: seq<string>)

  datatype PathItem = Ops(ops: map<string, Op>) | NotMapping

  type Paths = map<string, PathItem>

  datatype Reason = NoEntity | Gate4Rejected(proc: string, why: string) | ManyProcs(candidates: seq<string>) | NoProc

  datatype Add = Add(path: string, verb: string, backedBy: string)

  datatype Log = Log(path: string, verb: Option<string>, reason: Reason)

  /** What the pass asks of its surroundings: the database and its catalog, the smoke run of a
      procedure (`None` when it passes), the operator's resolutions and the path standard. */
  datatype World = World(db: Db, catalog: seq<SqlObject>,
                         smoke: (string, Option<string>) -> Option<string>,
                         resolutions: map<(string, string), string>,
                         camelCase: bool, pluralise: (string, string) -> string)

  // ---------- what a row asks for ----------

  function MethodOf(e: Entry): string {
    Lower(if e.verb.Some? then e.verb.value else "get")
  }

  /** The path under which the row goes into the spec. */
  function SpecPath(e: Entry, w: World): string {
    w.pluralise(MethodOf(e), if w.camelCase then CamelParams(e.path) else e.path)
  }

  function PairOf(e: Entry, w: World): (seq<string>, string) {
    (Shape(SpecPath(e, w)), MethodOf(e))
  }

  /** The last segment that is not a parameter. */
  function EntityOf(shape: seq<string>): string {
    if shape == [] then []
    else if shape[|shape| - 1] != "{x}" then shape[|shape| - 1]
    else EntityOf(shape[..|shape| - 1])
  }

  function AllowedVerbs(verb: string): seq<string> {
    if verb == "get" || verb == "head" then ["get_", "read_", "find_", "list_", "search_", "is_"]
    else if verb == "post" then ["create_", "add_", "new_", "insert_", "post_"]
    else if verb == "put" then ["update_", "set_", "change_", "replace_", "put_"]
    else if verb == "patch" then ["patch_", "update_", "set_"]
    else if verb == "delete" then ["delete_", "remove_"]
    else []
  }

  /** The names in braces among the segments. */
  function ParamNames(segs: seq<string>): seq<string>
    decreases |segs|
  {
    if segs == [] then []
    else (if IsParam(segs[0]) then [segs[0][1..|segs[0]| - 1]] else []) + ParamNames(segs[1..])
  }

  function QueryFor(e: Entry, w: World): Query {
    var shape := Shape(SpecPath(e, w));
    Query(EntityOf(shape), AllowedVerbs(MethodOf(e)), NonEmpty(ParamNames(Split(e.path, '/'))), shape, w.catalog)
  }

  // ---------- operations already there ----------

  const STANDARD := {"get", "post", "put", "patch", "delete", "head", "options", "trace"}

  function OpAt(paths: Option<Paths>, p: string, v: string): Option<Op> {
    if paths.Some? && p in paths.value && paths.value[p].Ops? && v in paths.value[p].ops
    then Some(paths.value[p].ops[v]) else None
  }

  /** The shape and method of every operation under a standard method, in lower case. */
  ghost predicate Covers(known: set<(seq<string>, string)>, paths: Option<Paths>) {
    && (forall p, v :: OpAt(paths, p, v).Some? && Lower(v) in STANDARD ==> (Shape(Lower(p)), Lower(v)) in known)
    && (forall pair :: pair in known ==>
          exists p, v :: OpAt(paths, p, v).Some? && Lower(v) in STANDARD && pair == (Shape(Lower(p)), Lower(v)))
  }

  // ---------- what becomes of a row ----------

  datatype Fate = Covered | Bound(proc: string) | Logged(reason: Reason) | Aborted(message: string)

  /** The order of the tests: the spec, the operator, the entity, the matcher, the smoke run. */
  function FateFor(covered: bool, chosen: Option<string>, entity: string, answer: Result<ProcMatch>,
                   smoke: string -> Option<string>): Fate {
    if covered then Covered
    else if chosen.Some? then Bound(chosen.value)
    else if entity == [] then Logged(NoEntity)
    else
      match answer
      case Err(message) => Aborted(message)
      case Ok(NoMatch) => Logged(NoProc)
      case Ok(Ambiguous(candidates)) => Logged(ManyProcs(candidates))
      case Ok(Single(proc)) =>
        match smoke(proc)
        case None => Bound(proc)
        case Some(why) => Logged(Gate4Rejected(proc, why))
  }

  function Resolution(path: string, verb: string, w: World): Option<string> {
    if (path, Upper(verb)) in w.resolutions then Some(w.resolutions[(path, Upper(verb))]) else None
  }

  function Smoke(e: Entry, w: World): string -> Option<string> {
    proc => w.smoke(proc, if e.hasCredential then Some(e.apiId) else None)
  }

  function FateOf(e: Entry, known: set<(seq<string>, string)>, w: World): Fate {
    FateFor(PairOf(e, w) in known, Resolution(SpecPath(e, w), MethodOf(e), w), EntityOf(Shape(SpecPath(e, w))),
            FindProc(QueryFor(e, w), w.db).answer, Smoke(e, w))
  }

  /** What the emitted operation names as its backing, when one is emitted. */
  function Backing(f: Fate): Option<string> {
    match f
    case Bound(proc) => Some(proc)
    case Logged(ManyProcs(_)) => Some("ambiguous (see corrections.md)")
    case Logged(NoProc) => Some("unbound (see corrections.md)")
    case _ => None
  }

  function Identifier(s: string): string {
    seq(|s|, i requires 0 <= i < |s| =>
      if 'a' <= s[i] <= 'z' || 'A' <= s[i] <= 'Z' || IsDigit(s[i]) || s[i] == '_' then s[i] else '_')
  }

  function NewOp(e: Entry, backing: string, w: World): Op {
    Registered(backing, e.sourceTable, MethodOf(e) + "_" + Identifier(backing), ParamNames(Split(SpecPath(e, w), '/')))
  }

  /** The paths with one more operation; those of the same path stay. */
  function WithOp(paths: Option<Paths>, p: string, v: string, op: Op): Option<Paths> {
    if paths.None? then None
    else
      var others := if p in paths.value && paths.value[p].Ops? then paths.value[p].ops else map[];
      Some(paths.value[p := Ops(others[v := op])])
  }

  /** A row with its fate, its place in the spec and the operation it gets there. */
  datatype Decision = Decision(path: string, verb: string, asked: Option<string>, fate: Fate, emitted: Option<Op>)

  function Decide(e: Entry, f: Fate, w: World): Decision {
    Decision(SpecPath(e, w), MethodOf(e), e.verb, f,
             if Backing(f).Some? then Some(NewOp(e, Backing(f).value, w)) else None)
  }

  function Decisions(rows: seq<Entry>, known: set<(seq<string>, string)>, w: World): (ds: seq<Decision>)
    ensures |ds| == |rows|
    decreases |rows|
  {
    if rows == [] then []
    else
      var e := rows[|rows| - 1];
      Decisions(rows[..|rows| - 1], known, w) + [Decide(e, FateOf(e, known, w), w)]
  }

  datatype State = State(paths: Option<Paths>, added: seq<Add>, logged: seq<Log>)

  function AddOf(d: Decision): seq<Add> {
    if d.fate.Bound? then [Add(d.path, d.verb, d.fate.proc)] else []
  }

  function LogOf(d: Decision): seq<Log> {
    if d.fate.Logged? then [Log(d.path, d.asked, d.fate.reason)] else []
  }

  function Step(st: State, d: Decision): State {
    State(if d.emitted.Some? then WithOp(st.paths, d.path, d.verb, d.emitted.value) else st.paths,
          st.added + AddOf(d), st.logged + LogOf(d))
  }

  predicate NoneAborted(ds: seq<Decision>) {
    forall i :: 0 <= i < |ds| ==> !ds[i].fate.Aborted?
  }

  function Fold(st: State, ds: seq<Decision>): State
    decreases |ds|
  {
    if ds == [] then st else Step(Fold(st, ds[..|ds| - 1]), ds[|ds| - 1])
  }

  // ---------- the pass ----------

  /** Collected once, before any row is looked at. */
  method CollectKnown(paths: Option<Paths>) returns (known: set<(seq<string>, string)>)
    ensures Covers(known, paths)
  {
    known := {};
    if paths.None? {
      return;
    }
    var left := paths.value.Keys;
    while left != {}
      invariant left <= paths.value.Keys
      invariant forall p, v :: p !in left && OpAt(paths, p, v).Some? && Lower(v) in STANDARD ==>
                (Shape(Lower(p)), Lower(v)) in known
      invariant forall pair :: pair in known ==>
        exists p, v :: OpAt(paths, p, v).Some? && Lower(v) in STANDARD && pair == (Shape(Lower(p)), Lower(v))
      decreases |left|
    {
      var p :| p in left;
      left := left - {p};
      if paths.value[p].Ops? {
        var here := CollectVerbs(paths.value[p].ops, Shape(Lower(p)));
        forall pair | pair in here
          ensures exists p, v :: OpAt(paths, p, v).Some? && Lower(v) in STANDARD && pair == (Shape(Lower(p)), Lower(v))
        {
          var v :| v in paths.value[p].ops && Lower(v) in STANDARD && pair == (Shape(Lower(p)), Lower(v));
          assert OpAt(paths, p, v).Some?;
        }
        known := known + here;
      }
    }
  }

  method CollectVerbs(ops: map<string, Op>, shape: seq<string>) returns (pairs: set<(seq<string>, string)>)
    ensures forall v :: v in ops && Lower(v) in STANDARD ==> (shape, Lower(v)) in pairs
    ensures forall pair :: pair in pairs ==> exists v :: v in ops && Lower(v) in STANDARD && pair == (shape, Lower(v))
  {
    pairs := {};
    var left := ops.Keys;
    while left != {}
      invariant left <= ops.Keys
      invariant forall v :: v in ops && v !in left && Lower(v) in STANDARD ==> (shape, Lower(v)) in pairs
      invariant forall pair :: pair in pairs ==>
                exists v :: v in ops && Lower(v) in STANDARD && pair == (shape, Lower(v))
      decreases |left|
    {
      var v :| v in left;
      left := left - {v};
      if Lower(v) in STANDARD {
        pairs := pairs + {(shape, Lower(v))};
      }
    }
  }

  /** The spec and the report while the pass goes on. */
  class Fitter {
    var paths: Option<Paths>
    var added: seq<Add>
    var logged: seq<Log>

    constructor (paths: Option<Paths>)
      ensures Current() == State(paths, [], [])
    {
      this.paths := paths;
      added, logged := [], [];
    }

    function Current(): State
      reads this
    {
      State(paths, added, logged)
    }

    method AddOp(e: Entry, backing: string, w: World)
      modifies this`paths
      ensures paths == WithOp(old(paths), SpecPath(e, w), MethodOf(e), NewOp(e, backing, w))
    {
      if paths.None? {
        return;
      }
      var p, v, op := SpecPath(e, w), MethodOf(e), NewOp(e, backing, w);
      if p in paths.value {
        var existing := paths.value[p];
        if existing.Ops? {
          paths := Some(paths.value[p := Ops(existing.ops[v := op])]);
          return;
        }
      }
      paths := Some(paths.value[p := Ops(map[v := op])]);
    }

    /** What becomes of one row. */
    static method Judge(e: Entry, known: set<(seq<string>, string)>, w: World) returns (f: Fate)
      ensures f == FateOf(e, known, w)
    {
      var path, verb := SpecPath(e, w), MethodOf(e);
      if (Shape(path), verb) in known {
        return Covered;
      }
      var chosen := Resolution(path, verb, w);
      if chosen.Some? {
        return Bound(chosen.value);
      }
      if EntityOf(Shape(path)) == [] {
        return Logged(NoEntity);
      }
      var answer, _ := FindProcByEntity(QueryFor(e, w), w.db);
      assert FateOf(e, known, w) == FateFor(false, None, EntityOf(Shape(path)), answer, Smoke(e, w));
      match answer {
        case Err(message) =>
          return Aborted(message);
        case Ok(Single(proc)) =>
          var smoke := Smoke(e, w)(proc);
          return if smoke.None? then Bound(proc) else Logged(Gate4Rejected(proc, smoke.value));
        case Ok(Ambiguous(candidates)) =>
          return Logged(ManyProcs(candidates));
        case Ok(NoMatch) =>
          return Logged(NoProc);
      }
    }

    /** What that does to the spec and the report. */
    method Record(e: Entry, f: Fate, w: World)
      modifies this
      ensures Current() == Step(old(Current()), Decide(e, f, w))
    {
      match f {
        case Covered =>
        case Aborted(_) =>
        case Bound(proc) =>
          AddOp(e, proc, w);
          added := added + [Add(SpecPath(e, w), MethodOf(e), proc)];
        case Logged(reason) =>
          logged := logged + [Log(SpecPath(e, w), e.verb, reason)];
          if reason.ManyProcs? {
            AddOp(e, "ambiguous (see corrections.md)", w);
          } else if reason.NoProc? {
            AddOp(e, "unbound (see corrections.md)", w);
          }
      }
    }

    /** Rows are handled in order up to the first whose search fails; its message ends the pass. */
    method MissingOpPass(registry: seq<Entry>, w: World)
      returns (failure: Option<string>, ghost known: set<(seq<string>, string)>, ghost done: nat)
      modifies this
      ensures Covers(known, old(paths))
      ensures done <= |registry| && NoneAborted(Decisions(registry[..done], known, w))
      ensures failure.None? ==> done == |registry|
      ensures failure.Some? ==> done < |registry| && FateOf(registry[done], known, w) == Aborted(failure.value)
      ensures Current() == Fold(old(Current()), Decisions(registry[..done], known, w))
    {
      var covered := CollectKnown(paths);
      known := covered;
      done := 0;
      for i := 0 to |registry|
        invariant done == i && NoneAborted(Decisions(registry[..i], covered, w))
        invariant Current() == Fold(old(Current()), Decisions(registry[..i], covered, w))
      {
        var fate := Judge(registry[i], covered, w);
        if fate.Aborted? {
          return Some(fate.message), covered, done;
        }
        Record(registry[i], fate, w);
        OneMoreRow(registry, i, covered, w);
        OneMoreDecision(old(Current()), Decisions(registry[..i], covered, w), Decide(registry[i], fate, w));
        done := i + 1;
      }
      assert registry[..|registry|] == registry;
      failure := None;
    }
  }

  lemma {:induction false} OneMoreRow(rows: seq<Entry>, i: nat, known: set<(seq<string>, string)>, w: World)
    requires i < |rows|
    ensures Decisions(rows[..i + 1], known, w) ==
            Decisions(rows[..i], known, w) + [Decide(rows[i], FateOf(rows[i], known, w), w)]
  {
    assert rows[..i + 1][..i] == rows[..i];
  }

  lemma {:induction false} OneMoreDecision(st: State, ds: seq<Decision>, d: Decision)
    ensures Fold(st, ds + [d]) == Step(Fold(st, ds), d)
    ensures NoneAborted(ds) && !d.fate.Aborted? ==> NoneAborted(ds + [d])
  {
    assert (ds + [d])[..|ds|] == ds;
  }
}
