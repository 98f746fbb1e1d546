/** Interval merging: `hard-eval/results/h2_intervals.verified.js`. */
module Intervals {

  /** A closed interval as its two ends. */
  type Interval = (real, real)

  function Max(a: real, b: real): real {
    if a < b then b else a
  }

  // ---------- the algorithm on values ----------

  /** Stable insertion by start, as the source's comparator orders. */
  function Insert(iv: Interval, s: seq<Interval>): (r: seq<Interval>)
    decreases |s|
  {
    if s == [] || iv.0 <= s[0].0 then [iv] + s else [s[0]] + Insert(iv, s[1..])
  }

  function SortByStart(s: seq<Interval>): seq<Interval>
    decreases |s|
  {
    if s == [] then [] else Insert(s[0], SortByStart(s[1..]))
  }

  /** What the loop does with the next interval in start order. */
  function Absorb(out: seq<Interval>, iv: Interval): seq<Interval> {
    if out != [] && iv.0 <= out[|out| - 1].1 then
      out[|out| - 1 := (out[|out| - 1].0, Max(out[|out| - 1].1, iv.1))]
    else out + [iv]
  }

  function Sweep(out: seq<Interval>, s: seq<Interval>): seq<Interval>
    decreases |s|
  {
    if s == [] then out else Sweep(Absorb(out, s[0]), s[1..])
  }

  function Merge(s: seq<Interval>): seq<Interval> {
    Sweep([], SortByStart(s))
  }

  // ---------- the algorithm on arrays ----------

  ghost predicate Pairs(ivs: seq<array<real>>) {
    forall i :: 0 <= i < |ivs| ==> ivs[i].Length == 2
  }

  ghost predicate Distinct(ivs: seq<array<real>>) {
    forall j, k :: 0 <= j < k < |ivs| ==> ivs[j] != ivs[k]
  }

  ghost function Values(ivs: seq<array<real>>): (s: seq<Interval>)
    requires Pairs(ivs)
    reads ivs
  {
    seq(|ivs|, i requires 0 <= i < |ivs| reads ivs requires Pairs(ivs) => (ivs[i][0], ivs[i][1]))
  }

  method Slice(iv: array<real>) returns (copy: array<real>)
    requires iv.Length == 2
    ensures fresh(copy) && copy.Length == 2 && copy[0] == iv[0] && copy[1] == iv[1]
  {
    copy := new real[2];
    copy[0], copy[1] := iv[0], iv[1];
  }

  /** `map(iv => iv.slice())`. */
  method CopyAll(ivs: seq<array<real>>) returns (copies: seq<array<real>>)
    requires Pairs(ivs)
    ensures Pairs(copies) && Values(copies) == Values(ivs)
    ensures forall j :: 0 <= j < |copies| ==> fresh(copies[j])
  {
    copies := [];
    for i := 0 to |ivs|
      invariant |copies| == i && Pairs(copies)
      invariant forall j :: 0 <= j < i ==> fresh(copies[j])
      invariant forall j :: 0 <= j < i ==> copies[j][0] == ivs[j][0] && copies[j][1] == ivs[j][1]
    {
      var copy := Slice(ivs[i]);
      copies := copies + [copy];
    }
  }

  /** The library sort: it moves the array objects and leaves their contents alone. */
  method SortArrays(ivs: seq<array<real>>) returns (sorted: seq<array<real>>)
    requires Pairs(ivs)
    ensures Pairs(sorted) && Values(sorted) == SortByStart(Values(ivs))
    ensures forall a :: a in sorted ==> a in ivs
    decreases |ivs|
  {
    if ivs == [] {
      return [];
    }
    sorted := SortArrays(ivs[1..]);
    assert Values(ivs)[1..] == Values(ivs[1..]);
    sorted := InsertArray(ivs[0], sorted);
  }

  method InsertArray(iv: array<real>, sorted: seq<array<real>>) returns (r: seq<array<real>>)
    requires iv.Length == 2 && Pairs(sorted)
    ensures Pairs(r) && Values(r) == Insert((iv[0], iv[1]), Values(sorted))
    ensures forall a :: a in r ==> a in sorted || a == iv
    decreases |sorted|
  {
    if sorted == [] || iv[0] <= sorted[0][0] {
      r := [iv] + sorted;
    } else {
      var rest := InsertArray(iv, sorted[1..]);
      assert Values(sorted)[1..] == Values(sorted[1..]);
      r := [sorted[0]] + rest;
    }
  }

  /** One round of the loop: widens the last interval in place, or adds a copy. */
  method AbsorbArray(out: seq<array<real>>, iv: array<real>) returns (r: seq<array<real>>)
    requires Pairs(out) && iv.Length == 2 && iv !in out
    requires Distinct(out)
    modifies out
    ensures Pairs(r) && Distinct(r) && Values(r) == Absorb(old(Values(out)), old((iv[0], iv[1])))
    ensures |out| <= |r| <= |out| + 1 && r[..|out|] == out && (|r| > |out| ==> fresh(r[|out|]))
  {
    if out != [] && iv[0] <= out[|out| - 1][1] {
      var last := out[|out| - 1];
      last[1] := Max(last[1], iv[1]);
      r := out;
    } else {
      var copy := Slice(iv);
      r := out + [copy];
    }
  }

  lemma {:induction false} SweepStep(out: seq<Interval>, s: seq<Interval>, i: nat)
    requires i < |s|
    ensures Sweep(out, s[i..]) == Sweep(Absorb(out, s[i]), s[i + 1..])
  {
    assert s[i..][0] == s[i] && s[i..][1..] == s[i + 1..];
  }

  method SweepArrays(sorted: seq<array<real>>) returns (out: seq<array<real>>)
    requires Pairs(sorted)
    ensures Pairs(out) && Values(out) == Sweep([], Values(sorted))
    ensures Distinct(out) && forall i :: 0 <= i < |out| ==> fresh(out[i])
  {
    ghost var s := Values(sorted);
    ghost var goal := Sweep([], s);
    out := [];
    assert s[0..] == s;
    for i := 0 to |sorted|
      invariant Pairs(out) && Distinct(out) && forall j :: 0 <= j < |out| ==> fresh(out[j])
      invariant Values(sorted) == s
      invariant Sweep(Values(out), s[i..]) == goal
    {
      SweepStep(Values(out), s, i);
      out := AbsorbArray(out, sorted[i]);
    }
  }

  /** The input arrays are only read: the method has no `modifies` clause, and all
      arrays of the result are new and distinct. */
  method MergeIntervals(intervals: seq<array<real>>) returns (out: seq<array<real>>)
    requires Pairs(intervals)
    ensures Pairs(out) && Values(out) == Merge(Values(intervals))
    ensures Distinct(out) && forall i :: 0 <= i < |out| ==> fresh(out[i])
  {
    var copies := CopyAll(intervals);
    var sorted := SortArrays(copies);
    out := SweepArrays(sorted);
  }

  // ---------- the points covered ----------

  predicate CoveredBy(s: seq<Interval>, x: real) {
    exists i :: 0 <= i < |s| && s[i].0 <= x <= s[i].1
  }

  ghost predicate SamePoints(s: seq<Interval>, t: seq<Interval>) {
    forall x :: CoveredBy(s, x) <==> CoveredBy(t, x)
  }

  ghost predicate Sorted(s: seq<Interval>) {
    forall i, j :: 0 <= i < j < |s| ==> s[i].0 <= s[j].0
  }

  ghost predicate WellFormed(s: seq<Interval>) {
    forall i :: 0 <= i < |s| ==> s[i].0 <= s[i].1
  }

  /** No interval is empty and neighbours are a strict gap apart. */
  ghost predicate Separated(s: seq<Interval>) {
    WellFormed(s) && forall i, j :: 0 <= i < j < |s| ==> s[i].1 < s[j].0
  }

  lemma {:induction false} CoveredAppend(a: seq<Interval>, b: seq<Interval>, x: real)
    ensures CoveredBy(a + b, x) <==> CoveredBy(a, x) || CoveredBy(b, x)
  {
    var c := a + b;
    if i :| 0 <= i < |a| && a[i].0 <= x <= a[i].1 {
      assert c[i] == a[i];
    }
    if i :| 0 <= i < |b| && b[i].0 <= x <= b[i].1 {
      assert c[|a| + i] == b[i];
    }
  }

  lemma {:induction false} InsertAdds(iv: Interval, s: seq<Interval>)
    ensures multiset(Insert(iv, s)) == multiset(s) + multiset{iv}
    decreases |s|
  {
    if s != [] && s[0].0 < iv.0 {
      InsertAdds(iv, s[1..]);
      assert s == [s[0]] + s[1..];
    }
  }

  lemma {:induction false} InsertKeeps(iv: Interval, s: seq<Interval>)
    requires Sorted(s)
    ensures Sorted(Insert(iv, s))
    decreases |s|
  {
    if s != [] && s[0].0 < iv.0 {
      var rest := Insert(iv, s[1..]);
      InsertKeeps(iv, s[1..]);
      InsertAdds(iv, s[1..]);
      forall j | 0 <= j < |rest| ensures s[0].0 <= rest[j].0 {
        assert rest[j] in multiset(rest);
        assert rest[j] == iv || rest[j] in s[1..];
      }
    }
  }

  lemma {:induction false} SortKeeps(s: seq<Interval>)
    ensures Sorted(SortByStart(s)) && multiset(SortByStart(s)) == multiset(s)
    decreases |s|
  {
    if s != [] {
      SortKeeps(s[1..]);
      InsertKeeps(s[0], SortByStart(s[1..]));
      InsertAdds(s[0], SortByStart(s[1..]));
      assert s == [s[0]] + s[1..];
    }
  }

  lemma {:induction false} Rearranged(s: seq<Interval>, t: seq<Interval>)
    requires multiset(s) == multiset(t)
    ensures SamePoints(s, t) && (WellFormed(s) ==> WellFormed(t))
  {
    forall x ensures CoveredBy(s, x) <==> CoveredBy(t, x) {
      if i :| 0 <= i < |s| && s[i].0 <= x <= s[i].1 {
        assert s[i] in multiset(t);
      }
      if i :| 0 <= i < |t| && t[i].0 <= x <= t[i].1 {
        assert t[i] in multiset(s);
      }
    }
    forall i | 0 <= i < |t| ensures t[i] in s {
      assert t[i] in multiset(s);
    }
  }

  /** Absorbing an interval that starts no earlier adds exactly its points. */
  lemma {:induction false} AbsorbCovers(out: seq<Interval>, iv: Interval, x: real)
    requires out != [] ==> out[|out| - 1].0 <= iv.0
    ensures CoveredBy(Absorb(out, iv), x) <==> CoveredBy(out + [iv], x)
  {
    if out != [] {
      var init, last := out[..|out| - 1], out[|out| - 1];
      var r := Absorb(out, iv);
      if iv.0 <= last.1 {
        var wide := (last.0, Max(last.1, iv.1));
        assert r == init + [wide] && out + [iv] == init + [last, iv];
        CoveredAppend(init, [wide], x);
        CoveredAppend(init, [last, iv], x);
        assert CoveredBy([wide], x) <==> CoveredBy([last, iv], x) by {
          assert [wide][0] == wide && [last, iv][0] == last && [last, iv][1] == iv;
        }
      }
    }
  }

  lemma {:induction false} SweepCovers(out: seq<Interval>, s: seq<Interval>, x: real)
    requires Sorted(s)
    requires out != [] && s != [] ==> out[|out| - 1].0 <= s[0].0
    ensures CoveredBy(Sweep(out, s), x) <==> CoveredBy(out + s, x)
    decreases |s|
  {
    if s == [] {
      assert out + s == out;
    } else {
      var r := Absorb(out, s[0]);
      AbsorbCovers(out, s[0], x);
      SweepCovers(r, s[1..], x);
      assert out + s == (out + [s[0]]) + s[1..];
      CoveredAppend(out + [s[0]], s[1..], x);
      CoveredAppend(r, s[1..], x);
    }
  }

  lemma {:induction false} SweepSeparates(out: seq<Interval>, s: seq<Interval>)
    requires Separated(out) && Sorted(s) && WellFormed(s)
    requires out != [] && s != [] ==> out[|out| - 1].0 <= s[0].0
    ensures Separated(Sweep(out, s))
    decreases |s|
  {
    if s != [] {
      SweepSeparates(Absorb(out, s[0]), s[1..]);
    }
  }

  /** Merging keeps every covered point and adds none, for any input at all. */
  lemma {:induction false} MergeCoversTheSame(s: seq<Interval>)
    ensures SamePoints(Merge(s), s)
  {
    SortKeeps(s);
    Rearranged(SortByStart(s), s);
    forall x ensures CoveredBy(Merge(s), x) <==> CoveredBy(s, x) {
      SweepCovers([], SortByStart(s), x);
      assert [] + SortByStart(s) == SortByStart(s);
    }
  }

  lemma {:induction false} MergeSeparates(s: seq<Interval>)
    requires WellFormed(s)
    ensures Separated(Merge(s))
  {
    SortKeeps(s);
    Rearranged(s, SortByStart(s));
    SweepSeparates([], SortByStart(s));
  }

  // ---------- the canonical list ----------

  /** Nothing before the first start is covered. */
  lemma {:induction false} FirstStart(s: seq<Interval>, x: real)
    requires Separated(s) && CoveredBy(s, x)
    ensures s != [] && s[0].0 <= x
  {
  }

  /** A point behind the first end and before the second start is not covered. */
  lemma {:induction false} GapIsFree(s: seq<Interval>, x: real)
    requires Separated(s) && s != [] && s[0].1 < x && (|s| > 1 ==> x < s[1].0)
    ensures !CoveredBy(s, x)
  {
    forall i | 0 <= i < |s| ensures !(s[i].0 <= x <= s[i].1) {
      assert i > 1 ==> s[1].1 < s[i].0;
    }
  }

  /** Two separated lists over the same points cannot differ in their first end. */
  lemma {:induction false} FirstEnd(s: seq<Interval>, t: seq<Interval>)
    requires Separated(s) && Separated(t) && SamePoints(s, t) && s != [] && t != []
    requires s[0].0 == t[0].0
    ensures t[0].1 <= s[0].1
  {
    if s[0].1 < t[0].1 {
      var stop := if |s| > 1 && s[1].0 < t[0].1 then s[1].0 else t[0].1;
      var x := (s[0].1 + stop) / 2.0;
      assert s[0].1 < x < stop;
      assert CoveredBy(t, x) by {
        assert t[0].0 <= x <= t[0].1;
      }
      GapIsFree(s, x);
    }
  }

  lemma {:induction false} DropFirst(s: seq<Interval>, t: seq<Interval>)
    requires Separated(s) && Separated(t) && SamePoints(s, t) && s != [] && t != [] && s[0] == t[0]
    ensures Separated(s[1..]) && Separated(t[1..]) && SamePoints(s[1..], t[1..])
  {
    forall x ensures CoveredBy(s[1..], x) <==> CoveredBy(t[1..], x) {
      RestCovers(s, x);
      RestCovers(t, x);
    }
  }

  lemma {:induction false} RestCovers(s: seq<Interval>, x: real)
    requires Separated(s) && s != []
    ensures CoveredBy(s[1..], x) <==> CoveredBy(s, x) && s[0].1 < x
  {
    assert s == [s[0]] + s[1..];
    CoveredAppend([s[0]], s[1..], x);
    if i :| 0 <= i < |s[1..]| && s[1..][i].0 <= x <= s[1..][i].1 {
      assert s[0].1 < s[i + 1].0;
    }
    if CoveredBy([s[0]], x) {
      assert x <= s[0].1;
    }
  }

  /** A set of points has at most one separated list, so it is the only possible answer. */
  lemma {:induction false} SeparatedIsUnique(s: seq<Interval>, t: seq<Interval>)
    requires Separated(s) && Separated(t) && SamePoints(s, t)
    ensures s == t
    decreases |s| + |t|
  {
    if s != [] {
      assert CoveredBy(s, s[0].0);
      FirstStart(t, s[0].0);
    }
    if t != [] {
      assert CoveredBy(t, t[0].0);
      FirstStart(s, t[0].0);
    }
    if s != [] {
      FirstEnd(s, t);
      FirstEnd(t, s);
      DropFirst(s, t);
      SeparatedIsUnique(s[1..], t[1..]);
      assert s == [s[0]] + s[1..] && t == [t[0]] + t[1..];
    }
  }

  /** The merged list depends only on the points covered, so neither the order nor
      the overlaps of the input matter, and merging twice changes nothing. */
  lemma {:induction false} MergeIsCanonical(s: seq<Interval>, t: seq<Interval>)
    requires WellFormed(s) && WellFormed(t)
    ensures Merge(s) == Merge(t) <==> SamePoints(s, t)
    ensures Merge(Merge(s)) == Merge(s)
    ensures Merge(s) == s <==> Separated(s)
  {
    MergeCoversTheSame(s);
    MergeCoversTheSame(t);
    MergeSeparates(s);
    MergeSeparates(t);
    if SamePoints(s, t) {
      SeparatedIsUnique(Merge(s), Merge(t));
    }
    MergeCoversTheSame(Merge(s));
    MergeSeparates(Merge(s));
    SeparatedIsUnique(Merge(Merge(s)), Merge(s));
    if Separated(s) {
      SeparatedIsUnique(Merge(s), s);
    }
  }
}
