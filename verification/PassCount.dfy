/** How many passes `topo_sort_tables` of `crates/said-forge/src/sandbox.rs` needs, read off
    the list of tables: a table waits one pass for every step forward in the list on a chain
    of references from it. */
module PassCount {
  import opened TableOrder
  import opened TableOrderProofs

  ghost predicate Before(ts: seq<TableEntry>, t: TableEntry, u: TableEntry) {
    exists i, j :: 0 <= i < j < |ts| && ts[i] == t && ts[j] == u
  }

  /** The steps of a chain that lead to a table listed later. */
  ghost function Forward(c: seq<TableEntry>, ts: seq<TableEntry>): nat {
    if |c| <= 1 then 0 else (if Before(ts, c[0], c[1]) then 1 else 0) + Forward(c[1..], ts)
  }

  /** Some chain from `t` takes at least `n` steps forward. */
  ghost predicate Far(t: TableEntry, n: nat, ts: seq<TableEntry>, known: set<string>) {
    exists c :: Chain(c, ts, known) && c[0] == t && Forward(c, ts) >= n
  }

  // ---------- the list keeps its order ----------

  ghost predicate InOrder(a: seq<TableEntry>, ts: seq<TableEntry>) {
    forall t, u :: Before(a, t, u) ==> Before(ts, t, u)
  }

  lemma {:induction false} BeforeBehind(ts: seq<TableEntry>, t: TableEntry, u: TableEntry)
    requires ts != [] && Before(ts[1..], t, u)
    ensures Before(ts, t, u)
  {
    var i, j :| 0 <= i < j < |ts[1..]| && ts[1..][i] == t && ts[1..][j] == u;
    assert ts[i + 1] == t && ts[j + 1] == u;
  }

  lemma {:induction false} FirstIsBefore(ts: seq<TableEntry>, u: TableEntry)
    requires ts != [] && u in ts[1..]
    ensures Before(ts, ts[0], u)
  {
    var j :| 0 <= j < |ts[1..]| && ts[1..][j] == u;
    assert ts[j + 1] == u;
  }

  lemma {:induction false} OrderBehind(a: seq<TableEntry>, ts: seq<TableEntry>)
    requires ts != [] && InOrder(a, ts[1..]) && forall t :: t in a ==> t in ts[1..]
    ensures InOrder(a, ts) && InOrder([ts[0]] + a, ts)
  {
    forall t, u | Before(a, t, u) ensures Before(ts, t, u) {
      BeforeBehind(ts, t, u);
    }
    var b := [ts[0]] + a;
    forall t, u | Before(b, t, u) ensures Before(ts, t, u) {
      var i, j :| 0 <= i < j < |b| && b[i] == t && b[j] == u;
      if i == 0 {
        FirstIsBefore(ts, u);
      } else {
        assert a[i - 1] == t && a[j - 1] == u;
        assert Before(a, t, u);
      }
    }
  }

  lemma {:induction false} PassMembers(ts: seq<TableEntry>, placed: set<string>, known: set<string>)
    ensures var p := Pass(ts, placed, known); forall t :: t in ts <==> t in p.ordered || t in p.still
  {
    var p := Pass(ts, placed, known);
    PassSplits(ts, placed, known);
    forall t ensures t in ts <==> t in p.ordered || t in p.still {
      assert t in ts <==> t in multiset(p.ordered) + multiset(p.still);
    }
  }

  lemma {:induction false} PassKeepsOrder(ts: seq<TableEntry>, placed: set<string>, known: set<string>)
    ensures var p := Pass(ts, placed, known); InOrder(p.ordered, ts) && InOrder(p.still, ts)
    decreases |ts|
  {
    if ts != [] {
      var next := if Satisfied(ts[0], placed, known) then placed + {NameOf(ts[0])} else placed;
      var r := Pass(ts[1..], next, known);
      PassKeepsOrder(ts[1..], next, known);
      PassMembers(ts[1..], next, known);
      OrderBehind(r.ordered, ts);
      OrderBehind(r.still, ts);
    }
  }

  // ---------- what holds before every pass ----------

  ghost predicate Ready(ts: seq<TableEntry>, placed: set<string>, known: set<string>) {
    DistinctNames(ts) && Closed(ts, placed, known) && forall t :: t in ts ==> NameOf(t) !in placed
  }

  lemma {:induction false} SameName(ts: seq<TableEntry>, t: TableEntry, u: TableEntry)
    requires DistinctNames(ts) && t in ts && u in ts && NameOf(t) == NameOf(u)
    ensures t == u
  {
    var i :| 0 <= i < |ts| && ts[i] == t;
    var j :| 0 <= j < |ts| && ts[j] == u;
    assert i == j;
  }

  lemma {:induction false} PlacedOrLeft(ts: seq<TableEntry>, placed: set<string>, known: set<string>, t: TableEntry,
                                        u: TableEntry)
    requires DistinctNames(ts) && t in Pass(ts, placed, known).ordered && u in Pass(ts, placed, known).still
    ensures NameOf(t) != NameOf(u)
  {
    var p := Pass(ts, placed, known);
    PassMembers(ts, placed, known);
    PassSplits(ts, placed, known);
    OnlyOnce(ts, t);
    assert multiset(ts)[t] == multiset(p.ordered)[t] + multiset(p.still)[t];
    if NameOf(t) == NameOf(u) {
      SameName(ts, t, u);
    }
  }

  lemma {:induction false} PassKeepsReady(ts: seq<TableEntry>, placed: set<string>, known: set<string>)
    requires Ready(ts, placed, known)
    ensures var p := Pass(ts, placed, known); Ready(p.still, p.placed, known)
  {
    var p := Pass(ts, placed, known);
    PassKeepsClosed(ts, placed, known);
    PassKeepsOrder(ts, placed, known);
    PassRefsFirst(ts, placed, known);
    forall i, j | 0 <= i < j < |p.still| ensures NameOf(p.still[i]) != NameOf(p.still[j]) {
      assert Before(p.still, p.still[i], p.still[j]);
    }
    forall u | u in p.still ensures NameOf(u) !in p.placed {
      if NameOf(u) in Names(p.ordered) {
        var t :| t in p.ordered && NameOf(t) == NameOf(u);
        PlacedOrLeft(ts, placed, known, t, u);
      }
    }
  }

  // ---------- who is left by a pass ----------

  /** A table is left if it needs one that comes later in the list, or one that is left. */
  lemma {:induction false} StaysLeft(ts: seq<TableEntry>, placed: set<string>, known: set<string>, t: TableEntry,
                                     u: TableEntry)
    requires Ready(ts, placed, known) && t in ts && u in ts && Needs(t, NameOf(u), known)
    requires Before(ts, t, u) || u in Pass(ts, placed, known).still
    ensures t in Pass(ts, placed, known).still
  {
    var p := Pass(ts, placed, known);
    PassMembers(ts, placed, known);
    if t in p.ordered {
      PassRefsFirst(ts, placed, known);
      PassKeepsOrder(ts, placed, known);
      var i :| 0 <= i < |p.ordered| && p.ordered[i] == t;
      assert NamedBefore(p.ordered, i, NameOf(u));
      var j :| 0 <= j < i && NameOf(p.ordered[j]) == NameOf(u);
      SameName(ts, p.ordered[j], u);
      assert Before(p.ordered, u, t);
      if u in p.still {
        PlacedOrLeft(ts, placed, known, u, u);
      }
    }
  }

  /** A table that is left needs one that comes later, or an earlier one that is left too. */
  lemma {:induction false} WaitsFor(ts: seq<TableEntry>, placed: set<string>, known: set<string>, t: TableEntry)
      returns (n: string)
    requires t in Pass(ts, placed, known).still
    ensures t in ts && Needs(t, n, known) && n !in placed
    ensures forall u :: u in ts && NameOf(u) == n ==>
      Before(ts, t, u) || (u in Pass(ts, placed, known).still && Before(ts, u, t))
    decreases |ts|
  {
    var sat := Satisfied(ts[0], placed, known);
    var next := if sat then placed + {NameOf(ts[0])} else placed;
    SatisfiedMeans(ts[0], placed, known);
    if !sat && t == ts[0] {
      n :| Needs(t, n, known) && n !in placed;
      forall u | u in ts && NameOf(u) == n ensures Before(ts, t, u) {
        assert ts == [ts[0]] + ts[1..];
        FirstIsBefore(ts, u);
      }
    } else {
      n := WaitsFor(ts[1..], next, known, t);
      FirstIsBefore(ts, t);
      forall u | u in ts && NameOf(u) == n
        ensures Before(ts, t, u) || (u in Pass(ts, placed, known).still && Before(ts, u, t))
      {
        assert ts == [ts[0]] + ts[1..];
        if u in ts[1..] {
          if Before(ts[1..], t, u) {
            BeforeBehind(ts, t, u);
          } else {
            BeforeBehind(ts, u, t);
          }
        }
      }
    }
  }

  // ---------- a pass is one step forward ----------

  lemma {:induction false} Prepend(t: TableEntry, c: seq<TableEntry>, ts: seq<TableEntry>, known: set<string>)
    requires Chain(c, ts, known) && t in ts && Needs(t, NameOf(c[0]), known)
    ensures Chain([t] + c, ts, known)
    ensures Forward([t] + c, ts) == (if Before(ts, t, c[0]) then 1 else 0) + Forward(c, ts)
  {
    assert ([t] + c)[1..] == c;
  }

  lemma {:induction false} ChainBehind(c: seq<TableEntry>, ts: seq<TableEntry>, known: set<string>)
    requires Chain(c, ts, known) && |c| > 1
    ensures Chain(c[1..], ts, known) && Needs(c[0], NameOf(c[1]), known)
    ensures Forward(c, ts) == (if Before(ts, c[0], c[1]) then 1 else 0) + Forward(c[1..], ts)
  {
  }

  /** From a table that is left there is a chain with a step forward. */
  lemma {:induction false} OneStep(ts: seq<TableEntry>, placed: set<string>, known: set<string>, i: nat)
      returns (c: seq<TableEntry>)
    requires Closed(ts, placed, known) && i < |ts| && ts[i] in Pass(ts, placed, known).still
    ensures Chain(c, ts, known) && c[0] == ts[i] && Forward(c, ts) >= 1
    decreases i
  {
    var n := WaitsFor(ts, placed, known, ts[i]);
    var u :| u in ts && NameOf(u) == n;
    if Before(ts, ts[i], u) {
      c := [u];
    } else {
      var k, j :| 0 <= k < j < |ts| && ts[k] == u && ts[j] == ts[i];
      assert forall x :: i < x < |ts| ==> ts[x] != u;
      c := OneStep(ts, placed, known, k);
    }
    Prepend(ts[i], c, ts, known);
    c := [ts[i]] + c;
  }

  /** A chain among the tables left goes on with another step forward. */
  lemma {:induction false} Lengthen(ts: seq<TableEntry>, placed: set<string>, known: set<string>, c: seq<TableEntry>)
      returns (d: seq<TableEntry>)
    requires Closed(ts, placed, known) && Chain(c, Pass(ts, placed, known).still, known)
    ensures Chain(d, ts, known) && d[0] == c[0] && Forward(d, ts) >= Forward(c, ts) + 1
    decreases |c|
  {
    PassMembers(ts, placed, known);
    if |c| == 1 {
      var i :| 0 <= i < |ts| && ts[i] == c[0];
      d := OneStep(ts, placed, known, i);
    } else {
      ChainBehind(c, Pass(ts, placed, known).still, known);
      d := Lengthen(ts, placed, known, c[1..]);
      Prepend(c[0], d, ts, known);
      d := [c[0]] + d;
    }
  }

  /** A chain with a step forward begins with a chain, one such step shorter, among the tables left. */
  lemma {:induction false} Shorten(ts: seq<TableEntry>, placed: set<string>, known: set<string>, c: seq<TableEntry>)
      returns (d: seq<TableEntry>)
    requires Ready(ts, placed, known) && Chain(c, ts, known) && Forward(c, ts) >= 1
    ensures Chain(d, Pass(ts, placed, known).still, known) && d[0] == c[0] && Forward(d, ts) >= Forward(c, ts) - 1
    decreases |c|
  {
    ChainBehind(c, ts, known);
    if Forward(c[1..], ts) == 0 {
      StaysLeft(ts, placed, known, c[0], c[1]);
      d := [c[0]];
    } else {
      d := Shorten(ts, placed, known, c[1..]);
      StaysLeft(ts, placed, known, c[0], c[1]);
      Prepend(c[0], d, Pass(ts, placed, known).still, known);
      assert ([c[0]] + d)[1..] == d;
      d := [c[0]] + d;
    }
  }

  lemma {:induction false} SameOrder(a: seq<TableEntry>, ts: seq<TableEntry>, t: TableEntry, u: TableEntry)
    requires DistinctNames(ts) && InOrder(a, ts) && t in a && u in a && t != u
    ensures Before(a, t, u) <==> Before(ts, t, u)
  {
    var i :| 0 <= i < |a| && a[i] == t;
    var j :| 0 <= j < |a| && a[j] == u;
    assert i < j ==> Before(a, t, u);
    assert j < i ==> Before(a, u, t);
  }

  lemma {:induction false} SameSteps(c: seq<TableEntry>, a: seq<TableEntry>, ts: seq<TableEntry>, known: set<string>)
    requires DistinctNames(ts) && InOrder(a, ts) && Chain(c, a, known)
    ensures Forward(c, a) == Forward(c, ts)
    decreases |c|
  {
    if |c| > 1 {
      ChainBehind(c, a, known);
      SameOrder(a, ts, c[0], c[1]);
      SameSteps(c[1..], a, ts, known);
    }
  }

  lemma {:induction false} NoFewerSteps(c: seq<TableEntry>, a: seq<TableEntry>, ts: seq<TableEntry>)
    requires InOrder(a, ts)
    ensures Forward(c, a) <= Forward(c, ts)
    decreases |c|
  {
    if |c| > 1 {
      NoFewerSteps(c[1..], a, ts);
    }
  }

  /** Names may be repeated here. */
  lemma {:induction false} LeftIsFar(ts: seq<TableEntry>, placed: set<string>, known: set<string>, passes: nat,
                                     t: TableEntry)
    requires Closed(ts, placed, known) && t in Sort(ts, placed, known, passes).leftover
    ensures Far(t, passes, ts, known)
    decreases passes
  {
    if passes == 0 {
      FarFromNothing(t, ts, known);
    } else {
      var p := Pass(ts, placed, known);
      var n: nat := passes - 1;
      PassKeepsClosed(ts, placed, known);
      LeftoverStep(ts, placed, known, passes, n);
      LeftIsFar(p.still, p.placed, known, n, t);
      StillIsFarther(ts, placed, known, t, n, passes);
    }
  }

  lemma {:induction false} StillIsFarther(ts: seq<TableEntry>, placed: set<string>, known: set<string>,
                                          t: TableEntry, n: nat, m: nat)
    requires Closed(ts, placed, known) && m == n + 1 && Far(t, n, Pass(ts, placed, known).still, known)
    ensures Far(t, m, ts, known)
  {
    var still := Pass(ts, placed, known).still;
    PassKeepsOrder(ts, placed, known);
    var c :| Chain(c, still, known) && c[0] == t && Forward(c, still) >= n;
    NoFewerSteps(c, still, ts);
    var d := Lengthen(ts, placed, known, c);
  }

  lemma {:induction false} OnePassOneStep(ts: seq<TableEntry>, placed: set<string>, known: set<string>,
                                           t: TableEntry, n: nat, m: nat)
    requires Ready(ts, placed, known) && m == n + 1
    ensures Far(t, n, Pass(ts, placed, known).still, known) <==> Far(t, m, ts, known)
  {
    var still := Pass(ts, placed, known).still;
    PassKeepsOrder(ts, placed, known);
    if Far(t, n, still, known) {
      StillIsFarther(ts, placed, known, t, n, m);
    }
    if Far(t, m, ts, known) {
      var c :| Chain(c, ts, known) && c[0] == t && Forward(c, ts) >= m;
      var d := Shorten(ts, placed, known, c);
      SameSteps(d, still, ts, known);
    }
  }

  // ---------- all passes ----------

  lemma {:induction false} StuckStays(ts: seq<TableEntry>, placed: set<string>, known: set<string>)
    requires |Pass(ts, placed, known).still| == |ts|
    ensures Pass(ts, placed, known) == Sweep(placed, [], ts)
    decreases |ts|
  {
    PassSplits(ts, placed, known);
    if ts != [] {
      StuckStays(ts[1..], placed, known);
    }
  }

  /** A pass takes one off the passes to come, even where the sort stops because it is stuck. */
  lemma {:induction false} LeftoverStep(ts: seq<TableEntry>, placed: set<string>, known: set<string>, passes: nat,
                                        n: nat)
    requires passes == n + 1
    ensures var p := Pass(ts, placed, known);
      Sort(ts, placed, known, passes).leftover == Sort(p.still, p.placed, known, n).leftover
  {
    if ts != [] && |Pass(ts, placed, known).still| == |ts| {
      StuckStays(ts, placed, known);
    }
  }

  lemma {:induction false} FarFromNothing(t: TableEntry, ts: seq<TableEntry>, known: set<string>)
    ensures Far(t, 0, ts, known) <==> t in ts
  {
    if t in ts {
      assert Chain([t], ts, known);
    }
  }

  lemma {:induction false} UniqueLeft(ts: seq<TableEntry>, placed: set<string>, known: set<string>, passes: nat,
                                       t: TableEntry)
    requires Ready(ts, placed, known)
    ensures t in Sort(ts, placed, known, passes).leftover <==> Far(t, passes, ts, known)
    decreases passes
  {
    if passes == 0 {
      FarFromNothing(t, ts, known);
    } else {
      var p := Pass(ts, placed, known);
      PassKeepsReady(ts, placed, known);
      var n: nat := passes - 1;
      LeftoverStep(ts, placed, known, passes, n);
      UniqueLeft(p.still, p.placed, known, n, t);
      OnePassOneStep(ts, placed, known, t, n, passes);
    }
  }

  /** A table that is still left after some passes starts a chain with as many steps forward; where names
      are unique, every table that starts one is left. */
  lemma {:induction false} LeftExactly(ts: seq<TableEntry>, placed: set<string>, known: set<string>, passes: nat,
                                       t: TableEntry)
    requires Closed(ts, placed, known)
    ensures t in Sort(ts, placed, known, passes).leftover ==> Far(t, passes, ts, known)
    ensures Ready(ts, placed, known) && Far(t, passes, ts, known) ==> t in Sort(ts, placed, known, passes).leftover
  {
    if t in Sort(ts, placed, known, passes).leftover {
      LeftIsFar(ts, placed, known, passes, t);
    } else if Ready(ts, placed, known) {
      UniqueLeft(ts, placed, known, passes, t);
    }
  }

  lemma {:induction false} LeftoverInOrder(ts: seq<TableEntry>, placed: set<string>, known: set<string>, passes: nat)
    ensures InOrder(Sort(ts, placed, known, passes).leftover, ts)
    decreases passes
  {
    if passes > 0 {
      var p := Pass(ts, placed, known);
      PassKeepsOrder(ts, placed, known);
      LeftoverStep(ts, placed, known, passes, passes - 1);
      LeftoverInOrder(p.still, p.placed, known, passes - 1);
    }
  }

  // ---------- what the cap on passes means ----------

  /** No cycle, and no chain of references with more than `n` steps to a table listed later. */
  ghost predicate Shallow(tables: seq<TableEntry>, known: set<string>, n: nat) {
    !Cyclic(tables, known) && forall c :: Chain(c, tables, known) ==> Forward(c, tables) <= n
  }

  lemma {:induction false} ForwardBound(c: seq<TableEntry>, ts: seq<TableEntry>)
    requires c != []
    ensures Forward(c, ts) < |c|
    decreases |c|
  {
    if |c| > 1 {
      ForwardBound(c[1..], ts);
    }
  }

  /** The fallback has nothing to emit if the references have no cycle and no chain takes more than
      49 steps forward, for which no cycle is enough up to 50 tables. With unique names it has nothing
      to emit only then. */
  lemma {:induction false} AllPlacedExactly(tables: seq<TableEntry>, known: set<string>)
    requires known <= Names(tables)
    ensures Shallow(tables, known, MAX_FK_PASSES - 1) ==> SortTables(tables, known).leftover == []
    ensures |tables| <= MAX_FK_PASSES && !Cyclic(tables, known) ==> SortTables(tables, known).leftover == []
    ensures DistinctNames(tables) && SortTables(tables, known).leftover == [] ==>
            Shallow(tables, known, MAX_FK_PASSES - 1)
  {
    var left := SortTables(tables, known).leftover;
    if left != [] {
      LeftIsFar(tables, {}, known, MAX_FK_PASSES, left[0]);
      var c :| Chain(c, tables, known) && c[0] == left[0] && Forward(c, tables) >= MAX_FK_PASSES;
      ForwardBound(c, tables);
      if |tables| < |c| {
        LongChainIsCyclic(c, tables, known);
      }
    } else if DistinctNames(tables) {
      if Cyclic(tables, known) {
        CycleReachesFallback(tables, known);
      }
      forall c | Chain(c, tables, known) ensures Forward(c, tables) <= MAX_FK_PASSES - 1 {
        LeftExactly(tables, {}, known, MAX_FK_PASSES, c[0]);
      }
    }
  }

  lemma {:induction false} WholeIsPermutation(tables: seq<TableEntry>, known: set<string>)
    ensures var all := Flat(SortTables(tables, known));
      multiset(all) == multiset(tables) && forall t :: t in all <==> t in tables
  {
    var r := SortTables(tables, known);
    SortIsPermutation(tables, {}, known, MAX_FK_PASSES);
    forall t ensures t in Flat(r) <==> t in tables {
      assert t in multiset(Flat(r)) <==> t in multiset(tables);
    }
  }

  lemma {:induction false} LaterIsNotFirst(a: seq<TableEntry>, b: seq<TableEntry>, known: set<string>, t: TableEntry,
                                           u: TableEntry)
    requires DistinctNames(a + b) && Needs(t, NameOf(u), known) && Before(b, t, u)
    ensures !RefsFirst(a + b, {}, known)
  {
    var all, n := a + b, |a|;
    var i, j :| 0 <= i < j < |b| && b[i] == t && b[j] == u;
    assert all[n + i] == t && all[n + j] == u;
    assert !NamedBefore(all, n + i, NameOf(u));
  }

  /** Two tables left over, the first needing the second, come out in the wrong order. */
  lemma {:induction false} LeftInDisorder(tables: seq<TableEntry>, known: set<string>, t: TableEntry, u: TableEntry)
    requires DistinctNames(tables) && Needs(t, NameOf(u), known) && Before(tables, t, u)
    requires t in SortTables(tables, known).leftover && u in SortTables(tables, known).leftover
    ensures !RefsFirst(Flat(SortTables(tables, known)), {}, known)
  {
    var r := SortTables(tables, known);
    WholeIsPermutation(tables, known);
    SameTablesDistinct(tables, Flat(r));
    LeftoverInOrder(tables, {}, known, MAX_FK_PASSES);
    SameOrder(r.leftover, tables, t, u);
    LaterIsNotFirst(r.ordered, r.leftover, known, t, u);
  }

  /** A chain with steps forward has a first one. */
  lemma {:induction false} FirstForward(c: seq<TableEntry>, ts: seq<TableEntry>, known: set<string>)
      returns (d: seq<TableEntry>)
    requires Chain(c, ts, known) && Forward(c, ts) >= 1
    ensures Chain(d, ts, known) && |d| > 1 && Before(ts, d[0], d[1]) && Forward(d, ts) == Forward(c, ts)
    decreases |c|
  {
    ChainBehind(c, ts, known);
    if Before(ts, c[0], c[1]) {
      d := c;
    } else {
      d := FirstForward(c[1..], ts, known);
    }
  }

  lemma {:induction false} TooFarIsDisorder(tables: seq<TableEntry>, known: set<string>, c: seq<TableEntry>)
    requires DistinctNames(tables) && known <= Names(tables)
    requires Chain(c, tables, known) && Forward(c, tables) > MAX_FK_PASSES
    ensures !RefsFirst(Flat(SortTables(tables, known)), {}, known)
  {
    var d := FirstForward(c, tables, known);
    ChainBehind(d, tables, known);
    UniqueLeft(tables, {}, known, MAX_FK_PASSES, d[0]);
    UniqueLeft(tables, {}, known, MAX_FK_PASSES, d[1]);
    LeftInDisorder(tables, known, d[0], d[1]);
  }

  /** With no chain of more than 50 steps forward, what is left over refers backwards only. */
  lemma {:induction false} LeftRefersBack(tables: seq<TableEntry>, known: set<string>, i: nat, n: string)
    requires known <= Names(tables) && Shallow(tables, known, MAX_FK_PASSES)
    requires i < |SortTables(tables, known).leftover| && Needs(SortTables(tables, known).leftover[i], n, known)
    ensures var r := SortTables(tables, known); n in Names(r.ordered) || NamedBefore(r.leftover, i, n)
  {
    var r := SortTables(tables, known);
    var t := r.leftover[i];
    WholeIsPermutation(tables, known);
    var u :| u in tables && NameOf(u) == n;
    assert u in Flat(r);
    if u !in r.ordered {
      var j :| 0 <= j < |r.leftover| && r.leftover[j] == u;
      if i < j {
        assert Before(r.leftover, t, u);
        LeftoverInOrder(tables, {}, known, MAX_FK_PASSES);
        LeftIsFar(tables, {}, known, MAX_FK_PASSES, u);
        var c :| Chain(c, tables, known) && c[0] == u && Forward(c, tables) >= MAX_FK_PASSES;
        assert t in Flat(r);
        Prepend(t, c, tables, known);
      }
    }
  }

  /** Every table of the whole result comes after all known tables it refers to if the references
      have no cycle and no chain takes more than 50 steps forward; with unique names, only then. */
  lemma {:induction false} OrderedExactly(tables: seq<TableEntry>, known: set<string>)
    requires known <= Names(tables)
    ensures Shallow(tables, known, MAX_FK_PASSES) ==> RefsFirst(Flat(SortTables(tables, known)), {}, known)
    ensures DistinctNames(tables) && RefsFirst(Flat(SortTables(tables, known)), {}, known) ==>
            Shallow(tables, known, MAX_FK_PASSES)
  {
    var r := SortTables(tables, known);
    if DistinctNames(tables) && RefsFirst(Flat(r), {}, known) {
      WholeIsPermutation(tables, known);
      RefsFirstIsAcyclic(tables, Flat(r), known);
      forall c | Chain(c, tables, known) ensures Forward(c, tables) <= MAX_FK_PASSES {
        if Forward(c, tables) > MAX_FK_PASSES {
          TooFarIsDisorder(tables, known, c);
        }
      }
    }
    if Shallow(tables, known, MAX_FK_PASSES) {
      SortRefsFirst(tables, {}, known, MAX_FK_PASSES);
      forall i, n | 0 <= i < |r.leftover| && Needs(r.leftover[i], n, known)
        ensures n in Names(r.ordered) || NamedBefore(r.leftover, i, n)
      {
        LeftRefersBack(tables, known, i, n);
      }
      assert {} + Names(r.ordered) == Names(r.ordered);
      RefsFirstAppend(r.ordered, r.leftover, {}, known);
    }
  }
}
