/** The cap of 50 passes in `topo_sort_tables` of `crates/said-forge/src/sandbox.rs` is
    felt: lists of tables without any cycle on which the passes run out. */
module PassCap {
  import opened Text
  import opened TableOrder
  import opened TableOrderProofs
  import opened PassCount

  /** Table number i refers to table number i + 1; the last one refers to nothing. */
  function Rung(i: nat, n: nat): TableEntry {
    TableEntry(Decimal(i), "", if i + 1 < n then [Decimal(i + 1)] else [])
  }

  /** A list of such tables: every table stands before the one it needs. */
  function Ladder(n: nat): (ts: seq<TableEntry>)
    ensures |ts| == n
  {
    seq(n, i requires 0 <= i < n => Rung(i, n))
  }

  lemma {:induction false} RungName(i: nat, n: nat)
    ensures NameOf(Rung(i, n)) == Decimal(i)
  {
  }

  lemma {:induction false} DifferentNumbers(i: nat, j: nat)
    requires Decimal(i) == Decimal(j)
    ensures i == j
  {
    DecimalValue(i);
    DecimalValue(j);
  }

  lemma {:induction false} LadderNames(n: nat)
    ensures DistinctNames(Ladder(n))
  {
    var ts := Ladder(n);
    forall i, j | 0 <= i < j < |ts| ensures NameOf(ts[i]) != NameOf(ts[j]) {
      RungName(i, n);
      RungName(j, n);
      if NameOf(ts[i]) == NameOf(ts[j]) {
        DifferentNumbers(i, j);
      }
    }
  }

  lemma {:induction false} NeedsNext(i: nat, n: nat, name: string)
    requires i < n
    ensures Needs(Rung(i, n), name, Names(Ladder(n))) <==> i + 1 < n && name == Decimal(i + 1)
  {
    RungName(i, n);
    if i + 1 < n {
      RungName(i + 1, n);
      assert Ladder(n)[i + 1] == Rung(i + 1, n);
      assert Decimal(i + 1) in Names(Ladder(n));
      if Decimal(i + 1) == Decimal(i) {
        DifferentNumbers(i + 1, i);
      }
      assert Rung(i, n).fkRefs[0] == Decimal(i + 1);
    }
  }

  /** Along a chain of references the numbers go up one by one. */
  lemma {:induction false} ChainsClimb(c: seq<TableEntry>, n: nat, start: nat, k: nat, at: nat)
    requires Chain(c, Ladder(n), Names(Ladder(n))) && start < n && c[0] == Rung(start, n) && k < |c| && at == start + k
    ensures at < n && c[k] == Rung(at, n)
    decreases k
  {
    if k > 0 {
      ChainsClimb(c, n, start, k - 1, at - 1);
      assert c[k] in Ladder(n);
      var i :| 0 <= i < n && Ladder(n)[i] == c[k];
      NeedsNext(at - 1, n, NameOf(c[k]));
      assert Needs(c[k - 1], NameOf(c[k]), Names(Ladder(n)));
      RungName(i, n);
      DifferentNumbers(i, at);
    }
  }

  lemma {:induction false} LadderIsAcyclic(n: nat)
    ensures !Cyclic(Ladder(n), Names(Ladder(n)))
  {
    var ts := Ladder(n);
    if Cyclic(ts, Names(ts)) {
      var c :| Chain(c, ts, Names(ts)) && |c| >= 2 && NameOf(c[0]) == NameOf(c[|c| - 1]);
      assert c[0] in ts;
      var start :| 0 <= start < n && ts[start] == c[0];
      var last := start + (|c| - 1);
      ChainsClimb(c, n, start, |c| - 1, last);
      RungName(start, n);
      RungName(last, n);
      DifferentNumbers(start, last);
    }
  }

  lemma {:induction false} LadderIsChain(n: nat)
    requires n >= 1
    ensures Chain(Ladder(n), Ladder(n), Names(Ladder(n)))
  {
    forall i | 0 <= i < n - 1 ensures Needs(Ladder(n)[i], NameOf(Ladder(n)[i + 1]), Names(Ladder(n))) {
      NeedsNext(i, n, Decimal(i + 1));
      RungName(i + 1, n);
    }
  }

  lemma {:induction false} AllForward(ts: seq<TableEntry>, k: nat)
    requires k < |ts|
    ensures Forward(ts[k..], ts) == |ts| - 1 - k
    decreases |ts| - k
  {
    if k < |ts| - 1 {
      AllForward(ts, k + 1);
      assert ts[k..][1..] == ts[k + 1..];
      assert Before(ts, ts[k], ts[k + 1]);
    }
  }

  lemma {:induction false} LadderDepth(n: nat, m: nat)
    requires n >= 1
    ensures Shallow(Ladder(n), Names(Ladder(n)), m) <==> n <= m + 1
  {
    var ts := Ladder(n);
    LadderIsAcyclic(n);
    LadderIsChain(n);
    AllForward(ts, 0);
    assert ts[0..] == ts;
    forall c | Chain(c, ts, Names(ts)) ensures Forward(c, ts) <= n - 1 {
      ForwardBound(c, ts);
      if |c| > n {
        LongChainIsCyclic(c, ts, Names(ts));
      }
    }
  }

  /** These lists never have a cycle, but only up to 50 tables does every one get its pass,
      and only up to 51 does the result have every table after the one it refers to. */
  lemma {:induction false} CapLeavesDisorder(n: nat)
    requires n >= 1
    ensures var ts, known := Ladder(n), Names(Ladder(n));
      && !Cyclic(ts, known)
      && (SortTables(ts, known).leftover == [] <==> n <= MAX_FK_PASSES)
      && (RefsFirst(Flat(SortTables(ts, known)), {}, known) <==> n <= MAX_FK_PASSES + 1)
  {
    LadderNames(n);
    LadderIsAcyclic(n);
    AllPlacedExactly(Ladder(n), Names(Ladder(n)));
    OrderedExactly(Ladder(n), Names(Ladder(n)));
    LadderDepth(n, MAX_FK_PASSES - 1);
    LadderDepth(n, MAX_FK_PASSES);
  }

  // ---------- repeated names ----------

  lemma {:induction false} PassStep(t: TableEntry, ts: seq<TableEntry>, placed: set<string>, known: set<string>)
    ensures Pass([t] + ts, placed, known) ==
            if Satisfied(t, placed, known) then
              var r := Pass(ts, placed + {NameOf(t)}, known); r.(ordered := [t] + r.ordered)
            else
              var r := Pass(ts, placed, known); r.(still := [t] + r.still)
  {
    assert ([t] + ts)[0] == t && ([t] + ts)[1..] == ts;
  }

  /** Only the table without references is placed at first, and then the two others. */
  lemma {:induction false} SweepsOfThree(t: TableEntry, u: TableEntry, v: TableEntry, a: string, x: string,
                                         known: set<string>)
    requires NameOf(t) == a && NameOf(u) == x && NameOf(v) == x && a != x && known == {a, x}
    requires Upper(a) == a && Upper(x) == x && t.fkRefs == [x] && u.fkRefs == [a] && v.fkRefs == []
    ensures Pass([t] + ([u] + ([v] + [])), {}, known) == Sweep({x}, [v], [t] + ([u] + []))
    ensures Pass([t] + ([u] + []), {x}, known) == Sweep({x, a}, [t] + ([u] + []), [])
  {
    assert x in t.fkRefs && a in u.fkRefs;
    PassStep(t, [u] + ([v] + []), {}, known);
    PassStep(u, [v] + [], {}, known);
    PassStep(v, [], {}, known);
    assert {} + {x} == {x};
    PassStep(t, [u] + [], {x}, known);
    PassStep(u, [], {x} + {a}, known);
    assert {x} + {a} + {x} == {x, a};
  }

  lemma {:induction false} TwoInACycle(ts: seq<TableEntry>, t: TableEntry, u: TableEntry, known: set<string>)
    requires t in ts && u in ts && Needs(t, NameOf(u), known) && Needs(u, NameOf(t), known)
    ensures Cyclic(ts, known)
  {
    assert Chain([t, u, t], ts, known);
    CyclicBy([t, u, t], ts, known);
  }

  /** Two tables that refer to each other, and a third one with the name of the second and no reference:
      the third one satisfies the first, so a cycle does not keep anything back where names are repeated. */
  lemma {:induction false} RepeatedNames(a: string, x: string, known: set<string>)
    requires Upper(a) == a && Upper(x) == x && a != x && known == {a, x}
    ensures var ts := [TableEntry(a, "", [x]), TableEntry(x, "", [a]), TableEntry(x, "", [])];
      Cyclic(ts, known) && SortTables(ts, known).leftover == [] && RefsFirst(Flat(SortTables(ts, known)), {}, known)
  {
    var t, u, v := TableEntry(a, "", [x]), TableEntry(x, "", [a]), TableEntry(x, "", []);
    var ts := [t] + ([u] + ([v] + []));
    assert ts == [t, u, v];
    assert x in t.fkRefs && a in u.fkRefs;
    TwoInACycle(ts, t, u, known);
    SweepsOfThree(t, u, v, a, x, known);
    TwoPasses(ts, known, Pass([t] + ([u] + []), {x}, known));
    SortRefsFirst(ts, {}, known, MAX_FK_PASSES);
    assert Flat(SortTables(ts, known)) == SortTables(ts, known).ordered;
  }

  lemma {:induction false} TwoPasses(ts: seq<TableEntry>, known: set<string>, p: Sweep)
    requires var first := Pass(ts, {}, known);
      |first.still| < |ts| && first.still != [] && p == Pass(first.still, first.placed, known) && p.still == []
    ensures SortTables(ts, known).leftover == []
  {
    LeftoverStep(ts, {}, known, MAX_FK_PASSES, MAX_FK_PASSES - 1);
    var first := Pass(ts, {}, known);
    LeftoverStep(first.still, first.placed, known, MAX_FK_PASSES - 1, MAX_FK_PASSES - 2);
  }
}
