/** The order in which the sandbox creates tables: `topo_sort_tables` of
    `crates/said-forge/src/sandbox.rs`. */
module TableOrder {
  import opened Text

  datatype TableEntry = TableEntry(name: string, content: string, fkRefs: seq<string>)

  const MAX_FK_PASSES := 50

  function NameOf(t: TableEntry): string {
    Upper(t.name)
  }

  predicate Satisfied(t: TableEntry, placed: set<string>, known: set<string>) {
    forall r :: r in t.fkRefs ==> Upper(r) in placed || Upper(r) !in known || Upper(r) == NameOf(t)
  }

  /** What one sweep over the remaining tables places, and what it leaves. */
  datatype Sweep = Sweep(placed: set<string>, ordered: seq<TableEntry>, still: seq<TableEntry>)

  function Pass(ts: seq<TableEntry>, placed: set<string>, known: set<string>): Sweep
    decreases |ts|
  {
    if ts == [] then Sweep(placed, [], [])
    else if Satisfied(ts[0], placed, known) then
      var r := Pass(ts[1..], placed + {NameOf(ts[0])}, known);
      r.(ordered := [ts[0]] + r.ordered)
    else
      var r := Pass(ts[1..], placed, known);
      r.(still := [ts[0]] + r.still)
  }

  ghost predicate Splits(a: seq<TableEntry>, b: seq<TableEntry>, ts: seq<TableEntry>) {
    |a| + |b| == |ts| && multiset(a) + multiset(b) == multiset(ts)
  }

  /** Every table of a sweep is either placed or left. */
  lemma {:induction false} PassSplits(ts: seq<TableEntry>, placed: set<string>, known: set<string>)
    ensures Splits(Pass(ts, placed, known).ordered, Pass(ts, placed, known).still, ts)
    decreases |ts|
  {
    if ts != [] {
      assert ts == [ts[0]] + ts[1..];
      PassSplits(ts[1..], if Satisfied(ts[0], placed, known) then placed + {NameOf(ts[0])} else placed, known);
    }
  }

  /** The tables placed by the sweeps, those emitted by the fallback, and whether
      the fallback ran because a sweep placed nothing. */
  datatype Outcome = Outcome(ordered: seq<TableEntry>, leftover: seq<TableEntry>, stuck: bool)

  function Sort(ts: seq<TableEntry>, placed: set<string>, known: set<string>, passes: nat): Outcome
    decreases passes
  {
    if passes == 0 || ts == [] then Outcome([], ts, false)
    else
      var p := Pass(ts, placed, known);
      if |p.still| == |ts| then Outcome([], p.still, true)
      else
        var r := Sort(p.still, p.placed, known, passes - 1);
        r.(ordered := p.ordered + r.ordered)
  }

  function SortTables(tables: seq<TableEntry>, known: set<string>): Outcome {
    Sort(tables, {}, known, MAX_FK_PASSES)
  }

  /** One sweep: a table placed early in it already counts for the later ones. */
  method SweepOnce(remaining: seq<TableEntry>, placedBefore: set<string>, known: set<string>)
      returns (placed: set<string>, ordered: seq<TableEntry>, still: seq<TableEntry>)
    ensures Sweep(placed, ordered, still) == Pass(remaining, placedBefore, known)
  {
    placed, ordered, still := placedBefore, [], [];
    for i := 0 to |remaining|
      invariant var r := Pass(remaining[i..], placed, known);
        Pass(remaining, placedBefore, known) == Sweep(r.placed, ordered + r.ordered, still + r.still)
    {
      var t := remaining[i];
      assert remaining[i..][0] == t && remaining[i..][1..] == remaining[i + 1..];
      if Satisfied(t, placed, known) {
        placed := placed + {NameOf(t)};
        ordered := ordered + [t];
      } else {
        still := still + [t];
      }
    }
  }

  function Flat(o: Outcome): seq<TableEntry> {
    o.ordered + o.leftover
  }

  lemma {:induction false} SortStep(front: seq<TableEntry>, ts: seq<TableEntry>, placed: set<string>,
                                    known: set<string>, passes: nat, p: Sweep)
    requires passes > 0 && ts != [] && p == Pass(ts, placed, known)
    ensures front + Flat(Sort(ts, placed, known, passes)) ==
            if |p.still| == |ts| then front + p.ordered + p.still
            else front + p.ordered + Flat(Sort(p.still, p.placed, known, passes - 1))
  {
    PassSplits(ts, placed, known);
  }

  method TopoSortTables(tables: seq<TableEntry>, known: set<string>) returns (ordered: seq<TableEntry>)
    ensures ordered == SortTables(tables, known).ordered + SortTables(tables, known).leftover
  {
    var placed: set<string> := {};
    ordered := [];
    var remaining := tables;
    ghost var goal := Flat(SortTables(tables, known));
    for pass := 0 to MAX_FK_PASSES
      invariant goal == ordered + Flat(Sort(remaining, placed, known, MAX_FK_PASSES - pass))
    {
      if remaining == [] {
        break;
      }
      var prev := |remaining|;
      ghost var before := placed;
      var now, still;
      placed, now, still := SweepOnce(remaining, placed, known);
      SortStep(ordered, remaining, before, known, MAX_FK_PASSES - pass, Sweep(placed, now, still));
      ordered := ordered + now;
      if |still| == prev {
        return ordered + still;
      }
      remaining := still;
    }
    ordered := ordered + remaining;
  }
}
