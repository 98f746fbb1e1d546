/** Whole runs of the cache of `LruCache`, compared with textbook LRU. */
module LruRuns {
  import opened LruCache
  import Text

  datatype Op = Get(k: Key) | Put(k: Key, v: int)

  function Step(s: seq<Entry>, cap: nat, op: Op): seq<Entry> {
    match op
    case Get(k) => AfterGet(s, k)
    case Put(k, v) => AfterPut(s, cap, k, v)
  }

  /** The cache after a whole history of calls. */
  function State(cap: nat, ops: seq<Op>): seq<Entry> {
    if ops == [] then [] else Step(State(cap, ops[..|ops| - 1]), cap, ops[|ops| - 1])
  }

  /** The answers of the `get` calls of a history. */
  function Answers(cap: nat, ops: seq<Op>): seq<int> {
    if ops == [] then []
    else
      var before, op := ops[..|ops| - 1], ops[|ops| - 1];
      Answers(cap, before) + if op.Get? then [Lookup(State(cap, before), op.k)] else []
  }

  // ---------- textbook LRU: use moves to the back, overflow drops the front ----------

  function TextbookStep(s: seq<Entry>, cap: nat, op: Op): seq<Entry> {
    match op
    case Get(k) => AfterGet(s, k)
    case Put(k, v) =>
      var fresh' := [(k, v)];
      if Has(s, k) then ToEnd(s[IndexOf(s, k) := (k, v)], IndexOf(s, k))
      else if |s| >= cap && s != [] then s[1..] + fresh'
      else s + fresh'
  }

  function TextbookState(cap: nat, ops: seq<Op>): seq<Entry> {
    if ops == [] then [] else TextbookStep(TextbookState(cap, ops[..|ops| - 1]), cap, ops[|ops| - 1])
  }

  function TextbookAnswers(cap: nat, ops: seq<Op>): seq<int> {
    if ops == [] then []
    else
      var before, op := ops[..|ops| - 1], ops[|ops| - 1];
      TextbookAnswers(cap, before) + if op.Get? then [Lookup(TextbookState(cap, before), op.k)] else []
  }

  /** When a key was last named by a call; -1 if never. */
  function LastUse(ops: seq<Op>, k: Key): (i: int)
    ensures -1 <= i < |ops|
  {
    if ops == [] then -1
    else if ops[|ops| - 1].k == k then |ops| - 1
    else LastUse(ops[..|ops| - 1], k)
  }

  // ---------- invariants of every run ----------

  lemma {:induction false} HitDistinct(s: seq<Entry>, i: nat, e: Entry)
    requires Distinct(s) && i < |s| && s[i].0 == e.0
    ensures Distinct(ToEnd(s[i := e], i))
  {
    var t := ToEnd(s[i := e], i);
    UpdateToEnd(s, i, e);
    forall j | 0 <= j < |t| ensures t[j].0 == s[if j < i then j else if j == |s| - 1 then i else j + 1].0 {}
  }

  lemma {:induction false} StepWellFormed(s: seq<Entry>, cap: nat, op: Op)
    requires 0 < cap && Distinct(s) && |s| <= cap
    ensures Distinct(Step(s, cap, op)) && |Step(s, cap, op)| <= cap
  {
    if Has(s, op.k) {
      var i := IndexOf(s, op.k);
      HitDistinct(s, i, (op.k, if op.Get? then s[i].1 else op.v));
      assert op.Get? ==> s[i := (op.k, s[i].1)] == s;
    }
  }

  lemma {:induction false} StateWellFormed(cap: nat, ops: seq<Op>)
    requires 0 < cap
    ensures Distinct(State(cap, ops)) && |State(cap, ops)| <= cap
  {
    if ops != [] {
      StateWellFormed(cap, ops[..|ops| - 1]);
      StepWellFormed(State(cap, ops[..|ops| - 1]), cap, ops[|ops| - 1]);
    }
  }

  ghost predicate OrderedByLastUse(s: seq<Entry>, ops: seq<Op>) {
    && Distinct(s)
    && (forall i :: 0 <= i < |s| ==> 0 <= LastUse(ops, s[i].0))
    && (forall i, j :: 0 <= i < j < |s| ==> LastUse(ops, s[i].0) < LastUse(ops, s[j].0))
  }

  lemma {:induction false} DropKeepsOrder(s: seq<Entry>, ops: seq<Op>, i: nat)
    requires OrderedByLastUse(s, ops) && i < |s|
    ensures OrderedByLastUse(s[..i] + s[i + 1..], ops)
  {
    var t := s[..i] + s[i + 1..];
    forall j | 0 <= j < |t| ensures t[j] == s[if j < i then j else j + 1] {}
  }

  /** A call on a key outside `s` leaves the order of `s` and ranks above it. */
  lemma {:induction false} UseKeepsOrder(s: seq<Entry>, before: seq<Op>, op: Op, v: int)
    requires OrderedByLastUse(s, before)
    requires forall i :: 0 <= i < |s| ==> s[i].0 != op.k
    ensures OrderedByLastUse(s, before + [op])
    ensures OrderedByLastUse(s + [(op.k, v)], before + [op])
  {
    assert (before + [op])[..|before|] == before;
    assert forall k :: LastUse(before + [op], k) == if k == op.k then |before| else LastUse(before, k);
  }

  lemma {:induction false} HitKeepsOrder(s: seq<Entry>, before: seq<Op>, op: Op, v: int)
    requires OrderedByLastUse(s, before) && Has(s, op.k)
    ensures OrderedByLastUse(ToEnd(s[IndexOf(s, op.k) := (op.k, v)], IndexOf(s, op.k)), before + [op])
  {
    var i := IndexOf(s, op.k);
    var kept := s[..i] + s[i + 1..];
    DropKeepsOrder(s, before, i);
    assert forall j :: 0 <= j < |kept| ==> kept[j].0 != op.k;
    UseKeepsOrder(kept, before, op, v);
    UpdateToEnd(s, i, (op.k, v));
  }

  lemma {:induction false} StepKeepsOrder(s: seq<Entry>, cap: nat, before: seq<Op>, op: Op)
    requires 0 < cap && OrderedByLastUse(s, before) && |s| <= cap
    ensures OrderedByLastUse(TextbookStep(s, cap, op), before + [op])
    ensures |TextbookStep(s, cap, op)| <= cap
  {
    if Has(s, op.k) {
      var i := IndexOf(s, op.k);
      HitKeepsOrder(s, before, op, if op.Get? then s[i].1 else op.v);
      assert op.Get? ==> s[i := (op.k, s[i].1)] == s;
    } else if op.Get? {
      UseKeepsOrder(s, before, op, 0);
    } else if |s| >= cap {
      DropKeepsOrder(s, before, 0);
      assert s[1..] == s[..0] + s[1..];
      UseKeepsOrder(s[1..], before, op, op.v);
    } else {
      UseKeepsOrder(s, before, op, op.v);
    }
  }

  /** The list of textbook LRU is ordered by last use, so the entry it evicts,
      the first, is the resident whose last use is oldest. */
  lemma {:induction false} TextbookOrderedByLastUse(cap: nat, ops: seq<Op>)
    requires 0 < cap
    ensures OrderedByLastUse(TextbookState(cap, ops), ops) && |TextbookState(cap, ops)| <= cap
  {
    if ops != [] {
      var before, op := ops[..|ops| - 1], ops[|ops| - 1];
      assert before + [op] == ops;
      TextbookOrderedByLastUse(cap, before);
      StepKeepsOrder(TextbookState(cap, before), cap, before, op);
    }
  }

  // ---------- agreement with the textbook ----------

  lemma {:induction false} SmallCapacityAgrees(cap: nat, ops: seq<Op>)
    requires 0 < cap <= 2
    ensures State(cap, ops) == TextbookState(cap, ops)
    ensures Answers(cap, ops) == TextbookAnswers(cap, ops)
  {
    if ops != [] {
      SmallCapacityAgrees(cap, ops[..|ops| - 1]);
      StateWellFormed(cap, ops[..|ops| - 1]);
    }
  }

  /** Puts of the keys 1 to n. */
  function Fill(n: nat): (ops: seq<Op>)
    ensures |ops| == n
  {
    seq(n, i requires 0 <= i < n => Put(i + 1, i + 1))
  }

  function Filled(n: nat): seq<Entry> {
    seq(n, i requires 0 <= i < n => (i + 1, i + 1))
  }

  lemma {:induction false} PutFills(cap: nat, n: nat)
    requires 0 < n <= cap
    ensures Step(Filled(n - 1), cap, Put(n, n)) == Filled(n) == TextbookStep(Filled(n - 1), cap, Put(n, n))
  {
    Absent(Filled(n - 1), n);
    assert Filled(n) == Filled(n - 1) + [(n, n)];
  }

  lemma {:induction false} FillFills(cap: nat, n: nat)
    requires n <= cap
    ensures State(cap, Fill(n)) == Filled(n) && TextbookState(cap, Fill(n)) == Filled(n)
    ensures Answers(cap, Fill(n)) == [] == TextbookAnswers(cap, Fill(n))
  {
    if n > 0 {
      FillFills(cap, n - 1);
      Extend(cap, Fill(n - 1), Put(n, n));
      assert Fill(n) == Fill(n - 1) + [Put(n, n)];
      PutFills(cap, n);
    }
  }

  /** One more call after a known history. */
  lemma {:induction false} Extend(cap: nat, ops: seq<Op>, op: Op)
    ensures State(cap, ops + [op]) == Step(State(cap, ops), cap, op)
    ensures TextbookState(cap, ops + [op]) == TextbookStep(TextbookState(cap, ops), cap, op)
    ensures Answers(cap, ops + [op]) == Answers(cap, ops) + if op.Get? then [Lookup(State(cap, ops), op.k)] else []
    ensures TextbookAnswers(cap, ops + [op]) ==
            TextbookAnswers(cap, ops) + if op.Get? then [Lookup(TextbookState(cap, ops), op.k)] else []
  {
    assert (ops + [op])[..|ops|] == ops;
  }

  /** Fill the cache, overflow it twice, then ask for key 2: the cache still has
      it, the textbook does not. */
  function Witness(cap: nat): seq<Op> {
    Fill(cap) + [Put(cap + 1, cap + 1)] + [Put(cap + 2, cap + 2)] + [Get(2)]
  }

  lemma {:induction false} CacheKeepsTwo(s: seq<Entry>, cap: nat)
    requires 3 <= cap && s == Filled(cap)
    ensures Lookup(Step(Step(s, cap, Put(cap + 1, cap + 1)), cap, Put(cap + 2, cap + 2)), 2) == 2
  {
    Absent(s, cap + 1);
    var s1 := [(cap + 1, cap + 1)] + s[1..];
    assert Step(s, cap, Put(cap + 1, cap + 1)) == s1;
    Absent(s1, cap + 2);
    var s2 := [(cap + 2, cap + 2)] + s1[1..];
    assert Step(s1, cap, Put(cap + 2, cap + 2)) == s2;
    assert s2[1] == (2, 2) && IndexOf(s2, 2) == 1;
  }

  lemma {:induction false} TextbookDropsTwo(s: seq<Entry>, cap: nat)
    requires 3 <= cap && s == Filled(cap)
    ensures Lookup(TextbookStep(TextbookStep(s, cap, Put(cap + 1, cap + 1)), cap, Put(cap + 2, cap + 2)), 2) == -1
  {
    Absent(s, cap + 1);
    var t1 := s[1..] + [(cap + 1, cap + 1)];
    assert TextbookStep(s, cap, Put(cap + 1, cap + 1)) == t1;
    Absent(t1, cap + 2);
    var t2 := t1[1..] + [(cap + 2, cap + 2)];
    assert TextbookStep(t1, cap, Put(cap + 2, cap + 2)) == t2;
    Absent(t2, 2);
  }

  lemma {:induction false} LargeCapacityDiffers(cap: nat)
    requires 3 <= cap
    ensures Answers(cap, Witness(cap)) == [2] && TextbookAnswers(cap, Witness(cap)) == [-1]
  {
    var a := Fill(cap);
    var b := a + [Put(cap + 1, cap + 1)];
    var c := b + [Put(cap + 2, cap + 2)];
    FillFills(cap, cap);
    Extend(cap, a, Put(cap + 1, cap + 1));
    Extend(cap, b, Put(cap + 2, cap + 2));
    Extend(cap, c, Get(2));
    CacheKeepsTwo(Filled(cap), cap);
    TextbookDropsTwo(Filled(cap), cap);
  }

  lemma {:induction false} Absent(s: seq<Entry>, k: Key)
    requires forall i :: 0 <= i < |s| ==> s[i].0 != k
    ensures !Has(s, k)
  {
  }

  ghost predicate AgreesWithTextbook(cap: nat) {
    forall ops :: Answers(cap, ops) == TextbookAnswers(cap, ops)
  }

  /** The cache evicts the least recently used entry on every run exactly when
      its capacity is at most two. */
  lemma {:induction false} AgreesExactlyUpToTwo(cap: nat)
    requires 0 < cap
    ensures AgreesWithTextbook(cap) <==> cap <= 2
  {
    if cap <= 2 {
      forall ops ensures Answers(cap, ops) == TextbookAnswers(cap, ops) {
        SmallCapacityAgrees(cap, ops);
      }
    } else {
      LargeCapacityDiffers(cap);
    }
  }

  // ---------- one slot turns over ----------

  function AfterPuts(s: seq<Entry>, cap: nat, puts: seq<Entry>): seq<Entry>
    decreases puts
  {
    if puts == [] then s
    else AfterPuts(AfterPut(s, cap, puts[0].0, puts[0].1), cap, puts[1..])
  }

  /** Every put of the run finds its key absent. */
  predicate AllAbsent(s: seq<Entry>, cap: nat, puts: seq<Entry>)
    decreases puts
  {
    puts == [] || (!Has(s, puts[0].0) && AllAbsent(AfterPut(s, cap, puts[0].0, puts[0].1), cap, puts[1..]))
  }

  /** Once full, a cache of three or more entries lets new keys compete for a
      single slot: all other residents stay, however many new keys arrive. */
  lemma {:induction false} OneSlotTurnsOver(s: seq<Entry>, cap: nat, puts: seq<Entry>)
    requires 3 <= cap == |s| && puts != []
    requires AllAbsent(s, cap, puts)
    ensures AfterPuts(s, cap, puts) == [puts[|puts| - 1]] + s[1..]
    decreases puts
  {
    var t := AfterPut(s, cap, puts[0].0, puts[0].1);
    assert t == [puts[0]] + s[1..];
    if |puts| > 1 {
      OneSlotTurnsOver(t, cap, puts[1..]);
    }
  }

  // ---------- which value is answered ----------

  /** The value of the last put of a key. */
  function LastPut(ops: seq<Op>, k: Key): Text.Option<int> {
    if ops == [] then Text.None
    else
      var op := ops[|ops| - 1];
      if op.Put? && op.k == k then Text.Some(op.v) else LastPut(ops[..|ops| - 1], k)
  }

  ghost predicate HoldsLastPuts(s: seq<Entry>, ops: seq<Op>) {
    forall i :: 0 <= i < |s| ==> LastPut(ops, s[i].0) == Text.Some(s[i].1)
  }

  lemma {:induction false} StepHoldsLastPuts(s: seq<Entry>, cap: nat, before: seq<Op>, op: Op)
    requires Distinct(s) && HoldsLastPuts(s, before)
    ensures HoldsLastPuts(Step(s, cap, op), before + [op])
  {
    var t := Step(s, cap, op);
    assert (before + [op])[..|before|] == before;
    forall i | 0 <= i < |t| ensures LastPut(before + [op], t[i].0) == Text.Some(t[i].1) {
      if t[i].0 != op.k || op.Get? {
        assert t[i] in s;
      }
    }
  }

  /** In every run a resident key has the value that was last put for it; an absent one is answered with -1. */
  lemma {:induction false} AnswersAreLastPuts(cap: nat, ops: seq<Op>, k: Key)
    requires 0 < cap
    ensures HoldsLastPuts(State(cap, ops), ops)
    ensures k in Keys(State(cap, ops)) ==> LastPut(ops, k) == Text.Some(Lookup(State(cap, ops), k))
    ensures k !in Keys(State(cap, ops)) ==> Lookup(State(cap, ops), k) == -1
  {
    if ops != [] {
      var before, op := ops[..|ops| - 1], ops[|ops| - 1];
      AnswersAreLastPuts(cap, before, k);
      StateWellFormed(cap, before);
      assert before + [op] == ops;
      StepHoldsLastPuts(State(cap, before), cap, before, op);
    }
  }

  // ---------- which keys are resident ----------

  function Keys(s: seq<Entry>): set<Key> {
    set i | 0 <= i < |s| :: s[i].0
  }

  /** The last call puts a key that is absent from a full cache. */
  predicate Overflows(cap: nat, ops: seq<Op>) {
    ops != [] && ops[|ops| - 1].Put? &&
    var s := State(cap, ops[..|ops| - 1]);
    ops[|ops| - 1].k !in Keys(s) && |s| >= cap
  }

  /** How a key ranks for eviction: by its last use, but a key that came in by an overflow of a cache of
      three or more entries, and was not used since, ranks before all others, the latest of them first. */
  function Rank(cap: nat, ops: seq<Op>, k: Key): int {
    if ops == [] then 0
    else if ops[|ops| - 1].k != k then Rank(cap, ops[..|ops| - 1], k)
    else if cap >= 3 && Overflows(cap, ops) then -|ops|
    else |ops|
  }

  lemma {:induction false} RankBounds(cap: nat, ops: seq<Op>, k: Key)
    ensures -|ops| <= Rank(cap, ops, k) <= |ops|
  {
    if ops != [] {
      RankBounds(cap, ops[..|ops| - 1], k);
    }
  }

  ghost predicate Ascending(s: seq<Entry>, rank: Key -> int) {
    forall i, j :: 0 <= i < j < |s| ==> rank(s[i].0) < rank(s[j].0)
  }

  lemma {:induction false} WithoutAscends(s: seq<Entry>, rank: Key -> int, i: nat)
    requires Ascending(s, rank) && i < |s|
    ensures Ascending(s[..i] + s[i + 1..], rank)
  {
    var t := s[..i] + s[i + 1..];
    forall j | 0 <= j < |t| ensures t[j] == s[if j < i then j else j + 1] {}
  }

  /** An entry ranked above all, or below all, goes to the end, or to the front. */
  lemma {:induction false} OneMoreAscends(s: seq<Entry>, old': Key -> int, new': Key -> int, e: Entry)
    requires Ascending(s, old') && forall i :: 0 <= i < |s| ==> new'(s[i].0) == old'(s[i].0)
    ensures Ascending(s, new')
    ensures (forall i :: 0 <= i < |s| ==> new'(s[i].0) < new'(e.0)) ==> Ascending(s + [e], new')
    ensures (forall i :: 0 <= i < |s| ==> new'(e.0) < new'(s[i].0)) ==> Ascending([e] + s, new')
  {
  }

  lemma {:induction false} HasIsKey(s: seq<Entry>, k: Key)
    ensures Has(s, k) <==> k in Keys(s)
  {
    if Has(s, k) {
      assert s[IndexOf(s, k)].0 == k;
    }
  }

  /** In every run the list is in order of rank. */
  lemma {:induction false} StateAscends(cap: nat, ops: seq<Op>)
    requires 0 < cap
    ensures Ascending(State(cap, ops), k => Rank(cap, ops, k))
  {
    if ops != [] {
      var before, op := ops[..|ops| - 1], ops[|ops| - 1];
      StateAscends(cap, before);
      StateWellFormed(cap, before);
      forall k ensures -|before| <= Rank(cap, before, k) <= |before| {
        RankBounds(cap, before, k);
      }
      StepAscends(State(cap, before), cap, op, k => Rank(cap, before, k), k => Rank(cap, ops, k), |ops|);
    }
  }

  lemma {:induction false} StepAscends(s: seq<Entry>, cap: nat, op: Op, old': Key -> int, new': Key -> int, n: int)
    requires 0 < cap && |s| <= cap && Ascending(s, old') && Distinct(s)
    requires forall k :: -n < old'(k) < n && (k != op.k ==> new'(k) == old'(k))
    requires new'(op.k) == if cap >= 3 && op.Put? && op.k !in Keys(s) && |s| >= cap then -n else n
    ensures Ascending(Step(s, cap, op), new')
  {
    HasIsKey(s, op.k);
    if Has(s, op.k) {
      var i := IndexOf(s, op.k);
      var e := (op.k, if op.Get? then s[i].1 else op.v);
      HitAscends(s, i, e, old', new', n);
      assert op.Get? ==> s[i := e] == s;
    } else {
      assert forall j :: 0 <= j < |s| ==> s[j].0 != op.k;
      MissAscends(s, (op.k, if op.Get? then 0 else op.v), old', new', n);
    }
  }

  lemma {:induction false} MissAscends(s: seq<Entry>, e: Entry, old': Key -> int, new': Key -> int, n: int)
    requires Ascending(s, old') && forall j :: 0 <= j < |s| ==> s[j].0 != e.0
    requires forall k :: -n < old'(k) < n && (k != e.0 ==> new'(k) == old'(k))
    ensures Ascending(s, new')
    ensures new'(e.0) == n ==> Ascending(s + [e], new') && (s != [] ==> Ascending(s[1..] + [e], new'))
    ensures new'(e.0) == -n && s != [] ==> Ascending([e] + s[1..], new')
  {
    AddedAscends(s, e, old', new', n);
    if s != [] {
      var rest := s[1..];
      assert forall j :: 0 <= j < |rest| ==> rest[j] == s[j + 1];
      AddedAscends(rest, e, old', new', n);
    }
  }

  lemma {:induction false} AddedAscends(s: seq<Entry>, e: Entry, old': Key -> int, new': Key -> int, n: int)
    requires Ascending(s, old') && forall j :: 0 <= j < |s| ==> s[j].0 != e.0
    requires forall k :: -n < old'(k) < n && (k != e.0 ==> new'(k) == old'(k))
    ensures Ascending(s, new')
    ensures new'(e.0) == n ==> Ascending(s + [e], new')
    ensures new'(e.0) == -n ==> Ascending([e] + s, new')
  {
    OneMoreAscends(s, old', new', e);
  }

  lemma {:induction false} HitAscends(s: seq<Entry>, i: nat, e: Entry, old': Key -> int, new': Key -> int, n: int)
    requires Ascending(s, old') && Distinct(s) && i < |s| && s[i].0 == e.0 && new'(e.0) == n
    requires forall k :: old'(k) < n && (k != e.0 ==> new'(k) == old'(k))
    ensures Ascending(ToEnd(s[i := e], i), new')
  {
    var rest := s[..i] + s[i + 1..];
    WithoutAscends(s, old', i);
    assert forall j :: 0 <= j < |rest| ==> rest[j].0 == s[if j < i then j else j + 1].0 != e.0;
    OneMoreAscends(rest, old', new', e);
    UpdateToEnd(s, i, e);
  }

  /** Reads and puts of residents keep the residents; other puts add their key, and where the cache is full the
      resident of the lowest rank has to go. */
  lemma {:induction false} LowestRankGoes(cap: nat, before: seq<Op>, op: Op) returns (victim: Key)
    requires 0 < cap
    ensures var ks, after := Keys(State(cap, before)), Keys(State(cap, before + [op]));
      if op.Get? || op.k in ks then after == ks
      else if |ks| < cap then after == ks + {op.k}
      else
        && victim in ks && after == ks - {victim} + {op.k}
        && forall k :: k in ks && k != victim ==> Rank(cap, before, victim) < Rank(cap, before, k)
  {
    var s := State(cap, before);
    StateWellFormed(cap, before);
    StateAscends(cap, before);
    assert (before + [op])[..|before|] == before;
    HasIsKey(s, op.k);
    KeysCount(s);
    StepKeys(s, cap, op);
    victim := if s == [] then 0 else s[0].0;
  }

  lemma {:induction false} KeysCount(s: seq<Entry>)
    requires Distinct(s)
    ensures |Keys(s)| == |s|
    decreases |s|
  {
    if s != [] {
      KeysCount(s[1..]);
      assert Keys(s) == Keys(s[1..]) + {s[0].0} by {
        assert s == [s[0]] + s[1..];
      }
    }
  }

  lemma {:induction false} StepKeys(s: seq<Entry>, cap: nat, op: Op)
    requires Distinct(s) && 0 < cap && |s| <= cap
    ensures Keys(Step(s, cap, op)) ==
            if op.Get? || Has(s, op.k) then Keys(s)
            else if |s| < cap then Keys(s) + {op.k}
            else Keys(s) - {s[0].0} + {op.k}
  {
    var t := Step(s, cap, op);
    if Has(s, op.k) {
      var i := IndexOf(s, op.k);
      var e := (op.k, if op.Get? then s[i].1 else op.v);
      assert op.Get? ==> s[i := e] == s;
      UpdateToEnd(s, i, e);
      assert s == s[..i] + [s[i]] + s[i + 1..];
      KeysAppend(s[..i], [s[i]]);
      KeysAppend(s[..i] + [s[i]], s[i + 1..]);
      KeysAppend(s[..i], s[i + 1..]);
      KeysAppend(s[..i] + s[i + 1..], [e]);
      KeyOfOne(s[i]);
      KeyOfOne(e);
    } else if op.Put? {
      var e := (op.k, op.v);
      KeyOfOne(e);
      if |s| >= cap {
        var rest := s[1..];
        KeyOfOne(s[0]);
        assert s == [s[0]] + rest;
        KeysAppend([s[0]], rest);
        KeysAppend([e], rest);
        KeysAppend(rest, [e]);
        assert s[0].0 !in Keys(rest);
      } else {
        KeysAppend(s, [e]);
      }
    }
  }

  lemma {:induction false} KeysAppend(a: seq<Entry>, b: seq<Entry>)
    ensures Keys(a + b) == Keys(a) + Keys(b)
  {
    assert forall i :: 0 <= i < |a| ==> (a + b)[i] == a[i];
    assert forall i :: 0 <= i < |b| ==> (a + b)[|a| + i] == b[i];
  }

  lemma {:induction false} KeyOfOne(e: Entry)
    ensures Keys([e]) == {e.0}
  {
    assert [e][0] == e;
  }
}
