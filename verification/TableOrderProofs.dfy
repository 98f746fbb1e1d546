/** What the table order of `TableOrder` guarantees, and when the cycle fallback runs. */
module TableOrderProofs {
  import opened Text
  import opened TableOrder

  // ---------- nothing lost, nothing added ----------

  lemma {:induction false} SortUnfolds(ts: seq<TableEntry>, placed: set<string>, known: set<string>, passes: nat)
      returns (p: Sweep, r: Outcome)
    requires passes > 0 && ts != []
    ensures Splits(p.ordered, p.still, ts)
    ensures p.ordered == [] ==> Sort(ts, placed, known, passes) == Outcome([], p.still, true)
    ensures p.ordered != [] ==> r == Sort(p.still, p.placed, known, passes - 1)
    ensures p.ordered != [] ==> Sort(ts, placed, known, passes) == r.(ordered := p.ordered + r.ordered)
  {
    PassSplits(ts, placed, known);
    p := Pass(ts, placed, known);
    r := Sort(p.still, p.placed, known, passes - 1);
  }

  lemma {:induction false} SortIsPermutation(ts: seq<TableEntry>, placed: set<string>, known: set<string>, passes: nat)
    ensures Splits(Sort(ts, placed, known, passes).ordered, Sort(ts, placed, known, passes).leftover, ts)
    decreases passes
  {
    if passes > 0 && ts != [] {
      var p, r := SortUnfolds(ts, placed, known, passes);
      if p.ordered != [] {
        SortIsPermutation(p.still, p.placed, known, passes - 1);
        assert Splits(p.ordered + r.ordered, r.leftover, ts);
      }
    }
  }

  // ---------- references come first ----------

  /** `t` has a reference to the known table `n`, which is not itself. */
  ghost predicate Needs(t: TableEntry, n: string, known: set<string>) {
    n in known && n != NameOf(t) && exists r :: r in t.fkRefs && Upper(r) == n
  }

  function Names(ts: seq<TableEntry>): set<string> {
    set t | t in ts :: NameOf(t)
  }

  predicate NamedBefore(ts: seq<TableEntry>, i: nat, n: string)
    requires i <= |ts|
  {
    exists j :: 0 <= j < i && NameOf(ts[j]) == n
  }

  /** Every reference of every table of `ts` is to `placed` or to a table before it. */
  ghost predicate RefsFirst(ts: seq<TableEntry>, placed: set<string>, known: set<string>) {
    forall i, n :: 0 <= i < |ts| && Needs(ts[i], n, known) ==> n in placed || NamedBefore(ts, i, n)
  }

  lemma {:induction false} SatisfiedMeans(t: TableEntry, placed: set<string>, known: set<string>)
    ensures Satisfied(t, placed, known) <==> forall n :: Needs(t, n, known) ==> n in placed
  {
    if !Satisfied(t, placed, known) {
      var r :| r in t.fkRefs && !(Upper(r) in placed || Upper(r) !in known || Upper(r) == NameOf(t));
      assert Needs(t, Upper(r), known);
    }
  }

  lemma {:induction false} NamesAppend(a: seq<TableEntry>, b: seq<TableEntry>)
    ensures Names(a + b) == Names(a) + Names(b)
  {
    assert forall t :: t in a + b <==> t in a || t in b;
  }

  lemma {:induction false} RefsFirstAppend(a: seq<TableEntry>, b: seq<TableEntry>, placed: set<string>,
                                           known: set<string>)
    requires RefsFirst(a, placed, known) && RefsFirst(b, placed + Names(a), known)
    ensures RefsFirst(a + b, placed, known)
  {
    var c := a + b;
    forall i, n | 0 <= i < |c| && Needs(c[i], n, known) && n !in placed ensures NamedBefore(c, i, n) {
      var k: nat;
      if i < |a| {
        assert Needs(a[i], n, known) && NamedBefore(a, i, n);
        k :| 0 <= k < i && NameOf(a[k]) == n;
      } else if t :| t in a && NameOf(t) == n {
        k :| 0 <= k < |a| && a[k] == t;
      } else {
        assert Needs(b[i - |a|], n, known) && NamedBefore(b, i - |a|, n);
        var j :| 0 <= j < i - |a| && NameOf(b[j]) == n;
        k := |a| + j;
      }
      assert k < i && NameOf(c[k]) == n;
    }
  }

  lemma {:induction false} PassRefsFirst(ts: seq<TableEntry>, placed: set<string>, known: set<string>)
    ensures var p := Pass(ts, placed, known);
      RefsFirst(p.ordered, placed, known) && p.placed == placed + Names(p.ordered)
    decreases |ts|
  {
    if ts != [] {
      var t := ts[0];
      if Satisfied(t, placed, known) {
        PassRefsFirst(ts[1..], placed + {NameOf(t)}, known);
        SatisfiedMeans(t, placed, known);
        var later := Pass(ts[1..], placed + {NameOf(t)}, known).ordered;
        assert Names([t]) == {NameOf(t)};
        RefsFirstAppend([t], later, placed, known);
        NamesAppend([t], later);
      } else {
        PassRefsFirst(ts[1..], placed, known);
      }
    }
  }

  lemma {:induction false} SortRefsFirst(ts: seq<TableEntry>, placed: set<string>, known: set<string>, passes: nat)
    ensures RefsFirst(Sort(ts, placed, known, passes).ordered, placed, known)
    decreases passes
  {
    if passes > 0 && ts != [] {
      var p := Pass(ts, placed, known);
      PassSplits(ts, placed, known);
      PassRefsFirst(ts, placed, known);
      if |p.still| != |ts| {
        var r := Sort(p.still, p.placed, known, passes - 1);
        SortRefsFirst(p.still, p.placed, known, passes - 1);
        RefsFirstAppend(p.ordered, r.ordered, placed, known);
        assert Sort(ts, placed, known, passes).ordered == p.ordered + r.ordered;
      }
    }
  }

  /** The result is a rearrangement of the input in which every table placed before
      the fallback comes after all the known tables it refers to. */
  lemma {:induction false} PlacedAfterReferences(tables: seq<TableEntry>, known: set<string>)
    ensures var r := SortTables(tables, known);
      && Splits(r.ordered, r.leftover, tables)
      && forall i, n :: 0 <= i < |r.ordered| && Needs(r.ordered[i], n, known) ==> NamedBefore(r.ordered, i, n)
  {
    SortIsPermutation(tables, {}, known, MAX_FK_PASSES);
    SortRefsFirst(tables, {}, known, MAX_FK_PASSES);
  }

  // ---------- what is left over refers to what is left over ----------

  /** Each table of the chain needs the next one. */
  ghost predicate Chain(c: seq<TableEntry>, ts: seq<TableEntry>, known: set<string>) {
    && |c| >= 1
    && (forall i :: 0 <= i < |c| ==> c[i] in ts)
    && (forall i :: 0 <= i < |c| - 1 ==> Needs(c[i], NameOf(c[i + 1]), known))
  }

  ghost predicate Cyclic(ts: seq<TableEntry>, known: set<string>) {
    exists c :: Chain(c, ts, known) && |c| >= 2 && NameOf(c[0]) == NameOf(c[|c| - 1])
  }

  /** Needed tables are already placed or among `ts`. */
  ghost predicate Closed(ts: seq<TableEntry>, placed: set<string>, known: set<string>) {
    known <= placed + Names(ts)
  }

  /** A table a sweep leaves needs one that was not placed when the sweep began. */
  lemma {:induction false} LeftNeedsUnplaced(ts: seq<TableEntry>, placed: set<string>, known: set<string>,
                                             t: TableEntry)
    requires t in Pass(ts, placed, known).still && Closed(ts, placed, known)
    ensures t in ts && exists u :: u in ts && Needs(t, NameOf(u), known)
  {
    var n := UnplacedName(ts, placed, known, t);
    var u :| u in ts && NameOf(u) == n;
  }

  lemma {:induction false} UnplacedName(ts: seq<TableEntry>, placed: set<string>, known: set<string>, t: TableEntry)
      returns (n: string)
    requires t in Pass(ts, placed, known).still
    ensures t in ts && Needs(t, n, known) && n !in placed
    decreases |ts|
  {
    var sat := Satisfied(ts[0], placed, known);
    SatisfiedMeans(ts[0], placed, known);
    if !sat && t == ts[0] {
      n :| Needs(t, n, known) && n !in placed;
    } else {
      n := UnplacedName(ts[1..], if sat then placed + {NameOf(ts[0])} else placed, known, t);
    }
  }

  lemma {:induction false} PassKeepsClosed(ts: seq<TableEntry>, placed: set<string>, known: set<string>)
    requires Closed(ts, placed, known)
    ensures var p := Pass(ts, placed, known); Closed(p.still, p.placed, known)
    ensures forall t :: t in Pass(ts, placed, known).still ==> t in ts
  {
    var p := Pass(ts, placed, known);
    PassSplits(ts, placed, known);
    PassRefsFirst(ts, placed, known);
    forall n | n in known && n !in p.placed ensures n in Names(p.still) {
      var t :| t in ts && NameOf(t) == n;
      assert t in multiset(ts);
      assert t !in p.ordered;
    }
    forall t | t in p.still ensures t in ts {
      assert t in multiset(ts);
    }
  }

  lemma {:induction false} ChainGrows(c: seq<TableEntry>, inner: seq<TableEntry>, ts: seq<TableEntry>,
                                      known: set<string>, u: TableEntry)
    requires Chain(c, inner, known) && u in ts && Needs(c[|c| - 1], NameOf(u), known)
    requires forall t :: t in inner ==> t in ts
    ensures Chain(c + [u], ts, known)
  {
  }

  /** If a sweep placed nothing, chains of references never end. */
  lemma {:induction false} StuckHasLongChains(
    ts: seq<TableEntry>, placed: set<string>, known: set<string>, t: TableEntry, n: nat) returns (c: seq<TableEntry>)
    requires Closed(ts, placed, known) && |Pass(ts, placed, known).still| == |ts| && t in ts
    ensures Chain(c, ts, known) && |c| == n + 1
    decreases n
  {
    if n == 0 {
      c := [t];
    } else {
      c := StuckHasLongChains(ts, placed, known, t, n - 1);
      var p := Pass(ts, placed, known);
      PassSplits(ts, placed, known);
      assert p.ordered == [];
      var last := c[|c| - 1];
      assert last in multiset(ts);
      assert last in multiset(p.still);
      LeftNeedsUnplaced(ts, placed, known, last);
      var u :| u in ts && Needs(last, NameOf(u), known);
      ChainGrows(c, ts, ts, known, u);
      c := c + [u];
    }
  }

  /** A table left over after some sweeps starts a chain longer than their number. */
  lemma {:induction false} LeftoverHasChain(
    ts: seq<TableEntry>, placed: set<string>, known: set<string>, passes: nat) returns (c: seq<TableEntry>)
    requires Closed(ts, placed, known) && Sort(ts, placed, known, passes).leftover != []
    ensures Chain(c, ts, known) && |c| == passes + 1
    decreases passes
  {
    if passes == 0 {
      c := [ts[0]];
    } else {
      var p := Pass(ts, placed, known);
      if |p.still| == |ts| {
        c := StuckHasLongChains(ts, placed, known, ts[0], passes);
      } else {
        PassKeepsClosed(ts, placed, known);
        c := LeftoverHasChain(p.still, p.placed, known, passes - 1);
        LeftNeedsUnplaced(ts, placed, known, c[|c| - 1]);
        var u :| u in ts && Needs(c[|c| - 1], NameOf(u), known);
        ChainGrows(c, p.still, ts, known, u);
        c := c + [u];
      }
    }
  }

  // ---------- long chains close up ----------

  lemma {:induction false} Pigeonhole(c: seq<TableEntry>, names: set<string>) returns (i: nat, j: nat)
    requires |c| > |names| && forall k :: 0 <= k < |c| ==> NameOf(c[k]) in names
    ensures i < j < |c| && NameOf(c[i]) == NameOf(c[j])
    decreases |c|
  {
    var n := |c| - 1;
    if k :| 0 <= k < n && NameOf(c[k]) == NameOf(c[n]) {
      return k, n;
    }
    i, j := Pigeonhole(c[..n], names - {NameOf(c[n])});
  }

  lemma {:induction false} NamesBound(ts: seq<TableEntry>)
    ensures |Names(ts)| <= |ts|
    decreases |ts|
  {
    if ts != [] {
      NamesBound(ts[1..]);
      assert Names(ts) == {NameOf(ts[0])} + Names(ts[1..]) by {
        assert ts == [ts[0]] + ts[1..];
      }
    }
  }

  lemma {:induction false} CyclicBy(c: seq<TableEntry>, ts: seq<TableEntry>, known: set<string>)
    requires Chain(c, ts, known) && |c| >= 2 && NameOf(c[0]) == NameOf(c[|c| - 1])
    ensures Cyclic(ts, known)
  {
  }

  lemma {:induction false} LongChainIsCyclic(c: seq<TableEntry>, ts: seq<TableEntry>, known: set<string>)
    requires Chain(c, ts, known) && |c| > |ts|
    ensures Cyclic(ts, known)
  {
    NamesBound(ts);
    var i, j := Pigeonhole(c, Names(ts));
    assert Chain(c[i..j], ts, known);
    CyclicBy(c[i..j + 1], ts, known);
  }

  // ---------- when the fallback runs ----------

  /** A sweep that places nothing proves a cycle of references. */
  lemma {:induction false} StuckMeansCycle(ts: seq<TableEntry>, placed: set<string>, known: set<string>, passes: nat)
    requires Closed(ts, placed, known) && Sort(ts, placed, known, passes).stuck
    ensures Cyclic(ts, known)
    decreases passes
  {
    var p := Pass(ts, placed, known);
    if |p.still| == |ts| {
      var c := StuckHasLongChains(ts, placed, known, ts[0], |ts|);
      LongChainIsCyclic(c, ts, known);
    } else {
      PassKeepsClosed(ts, placed, known);
      StuckMeansCycle(p.still, p.placed, known, passes - 1);
      var c :| Chain(c, p.still, known) && |c| >= 2 && NameOf(c[0]) == NameOf(c[|c| - 1]);
      assert Chain(c, ts, known);
    }
  }

  /** Acyclic references whose chains span at most 50 tables never reach the fallback. */
  lemma {:induction false} ShortChainsAreSorted(tables: seq<TableEntry>, known: set<string>)
    requires known <= Names(tables)
    requires forall c :: Chain(c, tables, known) ==> |c| <= MAX_FK_PASSES
    ensures SortTables(tables, known).leftover == []
  {
    if SortTables(tables, known).leftover != [] {
      var c := LeftoverHasChain(tables, {}, known, MAX_FK_PASSES);
    }
  }

  ghost predicate DistinctNames(ts: seq<TableEntry>) {
    forall i, j :: 0 <= i < j < |ts| ==> NameOf(ts[i]) != NameOf(ts[j])
  }

  /** In an order with references first, a chain runs backwards. */
  lemma {:induction false} ChainRunsBack(ordered: seq<TableEntry>, c: seq<TableEntry>, known: set<string>, k: nat)
      returns (i: nat, j: nat)
    requires RefsFirst(ordered, {}, known) && DistinctNames(ordered)
    requires Chain(c, ordered, known) && k < |c|
    ensures i < |ordered| && ordered[i] == c[0]
    ensures j < |ordered| && ordered[j] == c[k] && j + k <= i
    decreases k
  {
    if k == 0 {
      i :| 0 <= i < |ordered| && ordered[i] == c[0];
      j := i;
    } else {
      var m;
      i, m := ChainRunsBack(ordered, c, known, k - 1);
      assert Needs(ordered[m], NameOf(c[k]), known);
      assert NamedBefore(ordered, m, NameOf(c[k]));
      j :| 0 <= j < m && NameOf(ordered[j]) == NameOf(c[k]);
      var l :| 0 <= l < |ordered| && ordered[l] == c[k];
      assert l == j;
    }
  }

  /** An order of uniquely named tables with references first leaves no room for a cycle. */
  lemma {:induction false} RefsFirstIsAcyclic(tables: seq<TableEntry>, ordered: seq<TableEntry>, known: set<string>)
    requires DistinctNames(tables) && multiset(ordered) == multiset(tables) && RefsFirst(ordered, {}, known)
    ensures !Cyclic(tables, known)
  {
    if Cyclic(tables, known) {
      SameTablesDistinct(tables, ordered);
      var c :| Chain(c, tables, known) && |c| >= 2 && NameOf(c[0]) == NameOf(c[|c| - 1]);
      forall k | 0 <= k < |c| ensures c[k] in ordered {
        assert c[k] in multiset(tables);
      }
      var i, j := ChainRunsBack(ordered, c, known, |c| - 1);
      assert false;
    }
  }

  /** With a cycle among uniquely named tables the fallback always runs. */
  lemma {:induction false} CycleReachesFallback(tables: seq<TableEntry>, known: set<string>)
    requires DistinctNames(tables) && Cyclic(tables, known)
    ensures SortTables(tables, known).leftover != []
  {
    var r := SortTables(tables, known);
    if r.leftover == [] {
      PlacedAfterReferences(tables, known);
      SortRefsFirst(tables, {}, known, MAX_FK_PASSES);
      assert multiset(r.ordered) == multiset(tables);
      RefsFirstIsAcyclic(tables, r.ordered, known);
    }
  }

  /** Distinct names are a property of the tables, not of their order. */
  lemma {:induction false} SameTablesDistinct(a: seq<TableEntry>, b: seq<TableEntry>)
    requires DistinctNames(a) && multiset(a) == multiset(b)
    ensures DistinctNames(b)
  {
    forall i, j | 0 <= i < j < |b| ensures NameOf(b[i]) != NameOf(b[j]) {
      assert b == b[..j] + [b[j]] + b[j + 1..];
      assert b[..j] == b[..i] + [b[i]] + b[i + 1..j];
      assert b[i] in multiset(a) && b[j] in multiset(a);
      if NameOf(b[i]) == NameOf(b[j]) {
        assert b[i] == b[j];
        assert multiset(b)[b[i]] >= 2;
        OnlyOnce(a, b[i]);
      }
    }
  }

  lemma {:induction false} OnlyOnce(a: seq<TableEntry>, t: TableEntry)
    requires DistinctNames(a)
    ensures multiset(a)[t] <= 1
    decreases |a|
  {
    if a != [] {
      assert a == [a[0]] + a[1..];
      OnlyOnce(a[1..], t);
      forall k | 0 <= k < |a[1..]| ensures a[1..][k] != a[0] {
        assert NameOf(a[0]) != NameOf(a[k + 1]);
      }
    }
  }
}
