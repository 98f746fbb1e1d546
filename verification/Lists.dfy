/** Filtering, mapping and sorting of sequences, up to rearrangement. */
module Lists {
  import opened Text

  /** The results of `f` that are there, in order. */
  function FilterMap<A, B>(f: A -> Option<B>, s: seq<A>): seq<B>
    decreases |s|
  {
    if s == [] then []
    else (if f(s[0]).Some? then [f(s[0]).value] else []) + FilterMap(f, s[1..])
  }

  lemma {:induction false} FilterMapAppend<A, B>(f: A -> Option<B>, a: seq<A>, b: seq<A>)
    ensures FilterMap(f, a + b) == FilterMap(f, a) + FilterMap(f, b)
    decreases |a|
  {
    if a == [] {
      assert a + b == b;
    } else {
      var x := if f(a[0]).Some? then [f(a[0]).value] else [];
      assert (a + b)[1..] == a[1..] + b;
      FilterMapAppend(f, a[1..], b);
      assert x + (FilterMap(f, a[1..]) + FilterMap(f, b)) == x + FilterMap(f, a[1..]) + FilterMap(f, b);
    }
  }

  /** Filtering twice is filtering once. */
  lemma {:induction false} FilterMapTwice<A, B, C>(f: A -> Option<B>, g: B -> Option<C>, h: A -> Option<C>, s: seq<A>)
    requires forall x :: h(x) == if f(x).None? then None else g(f(x).value)
    ensures FilterMap(g, FilterMap(f, s)) == FilterMap(h, s)
    decreases |s|
  {
    if s != [] {
      FilterMapTwice(f, g, h, s[1..]);
      if f(s[0]).Some? {
        var rest := FilterMap(f, s[1..]);
        assert FilterMap(f, s) == [f(s[0]).value] + rest;
        assert ([f(s[0]).value] + rest)[1..] == rest;
      } else {
        assert FilterMap(f, s) == [] + FilterMap(f, s[1..]) == FilterMap(f, s[1..]);
      }
    }
  }

  /** A function that always gives a result maps element by element. */
  lemma {:induction false} FilterMapTotal<A, B>(f: A -> Option<B>, s: seq<A>)
    requires forall i :: 0 <= i < |s| ==> f(s[i]).Some?
    ensures |FilterMap(f, s)| == |s|
    ensures forall i :: 0 <= i < |s| ==> FilterMap(f, s)[i] == f(s[i]).value
    decreases |s|
  {
    if s != [] {
      FilterMapTotal(f, s[1..]);
    }
  }

  lemma {:induction false} FilterMapMember<A, B>(f: A -> Option<B>, s: seq<A>, y: B)
    ensures y in FilterMap(f, s) <==> exists x :: x in s && f(x) == Some(y)
    decreases |s|
  {
    if s != [] {
      assert s == [s[0]] + s[1..];
      FilterMapMember(f, s[1..], y);
    }
  }

  /** Where the second of two rearranged lists has the first element of the first one. */
  lemma {:induction false} SameFirst<A>(a: seq<A>, b: seq<A>) returns (j: nat)
    requires multiset(a) == multiset(b) && a != []
    ensures j < |b| && b[j] == a[0] && multiset(a[1..]) == multiset(b[..j] + b[j + 1..])
  {
    assert a[0] in multiset(b);
    j :| 0 <= j < |b| && b[j] == a[0];
    Without(a, 0);
    Without(b, j);
    assert a[..0] + a[1..] == a[1..];
  }

  /** A rearranged input gives a rearranged output. */
  lemma {:induction false} FilterMapRearranged<A, B>(f: A -> Option<B>, a: seq<A>, b: seq<A>)
    requires multiset(a) == multiset(b)
    ensures multiset(FilterMap(f, a)) == multiset(FilterMap(f, b))
    decreases |a|
  {
    if a == [] {
      assert b == [];
    } else {
      var j := SameFirst(a, b);
      FilterMapRearranged(f, a[1..], b[..j] + b[j + 1..]);
      FilterMapWithout(f, a, 0);
      FilterMapWithout(f, b, j);
      assert a[..0] + a[1..] == a[1..];
    }
  }

  lemma {:induction false} Without<A>(s: seq<A>, j: nat)
    requires j < |s|
    ensures multiset(s[..j] + s[j + 1..]) == multiset(s) - multiset{s[j]}
  {
    assert s == s[..j] + [s[j]] + s[j + 1..];
  }

  /** Taking one element out takes its result out. */
  lemma {:induction false} FilterMapWithout<A, B>(f: A -> Option<B>, s: seq<A>, j: nat)
    requires j < |s|
    ensures var x := if f(s[j]).Some? then multiset{f(s[j]).value} else multiset{};
      multiset(FilterMap(f, s)) == multiset(FilterMap(f, s[..j] + s[j + 1..])) + x
  {
    var a, one, b := s[..j], [s[j]], s[j + 1..];
    assert s == a + (one + b);
    FilterMapAppend(f, a, one + b);
    FilterMapAppend(f, one, b);
    FilterMapAppend(f, a, b);
    assert one[1..] == [];
    assert FilterMap(f, one) == if f(s[j]).Some? then [f(s[j]).value] else [];
  }
}
