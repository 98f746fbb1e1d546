/** How the pieces of a `CREATE TABLE` text hang together: white space, words,
    nested parentheses, and keywords between brackets. */
module DdlLayout {
  import opened Text
  import opened TableSchema

  predicate IsBlank(s: string) {
    forall i :: 0 <= i < |s| ==> IsSpace(s[i])
  }

  predicate IsWordChar(c: char) {
    'a' <= c <= 'z' || 'A' <= c <= 'Z' || IsDigit(c) || c == '_'
  }

  predicate IsWord(s: string) {
    s != [] && forall i :: 0 <= i < |s| ==> IsWordChar(s[i])
  }

  // ---------- white space ----------

  lemma {:induction false} TrimStartBlank(a: string, s: string)
    requires IsBlank(a) && (s == [] || !IsSpace(s[0]))
    ensures TrimStart(a + s) == s
    decreases |a|
  {
    if a == [] {
      assert a + s == s;
    } else {
      assert (a + s)[1..] == a[1..] + s;
      TrimStartBlank(a[1..], s);
    }
  }

  lemma {:induction false} TrimEndBlank(s: string, b: string)
    requires IsBlank(b) && (s == [] || !IsSpace(s[|s| - 1]))
    ensures TrimEnd(s + b) == s
    decreases |b|
  {
    if b == [] {
      assert s + b == s;
    } else {
      assert (s + b)[..|s + b| - 1] == s + b[..|b| - 1];
      TrimEndBlank(s, b[..|b| - 1]);
    }
  }

  predicate Trimmed(s: string) {
    s == [] || (!IsSpace(s[0]) && !IsSpace(s[|s| - 1]))
  }

  lemma {:induction false} TrimPadded(a: string, s: string, b: string)
    requires IsBlank(a) && IsBlank(b) && Trimmed(s)
    ensures Trim(a + s + b) == s
  {
    if s == [] {
      assert a + s + b == (a + b) + [];
      TrimStartBlank(a + b, []);
    } else {
      assert a + s + b == a + (s + b);
      TrimStartBlank(a, s + b);
      TrimEndBlank(s, b);
    }
  }

  lemma {:induction false} TrimTrimmed(s: string)
    requires Trimmed(s)
    ensures Trim(s) == s
  {
    assert [] + s + [] == s;
    TrimPadded([], s, []);
  }

  // ---------- searching ----------

  lemma {:induction false} IndexOfAppend(a: string, c: char, b: string)
    requires c !in a
    ensures IndexOf(a + [c] + b, c) == Some(|a|)
  {
    assert (a + [c] + b)[..|a|] == a;
    IndexOfIs(a + [c] + b, c, |a|);
  }

  lemma {:induction false} WordEndAppend(a: string, b: string)
    requires (forall i :: 0 <= i < |a| ==> !IsSpace(a[i])) && (b == [] || IsSpace(b[0]))
    ensures WordEnd(a + b) == |a| && (a + b)[..|a|] == a && (a + b)[|a|..] == b
  {
    assert forall i :: 0 <= i < |a| ==> (a + b)[i] == a[i];
    assert b != [] ==> (a + b)[|a|] == b[0];
  }

  lemma {:induction false} FindAtStart(p: string, b: string)
    ensures StartsWith(p + b, p) && Find(p + b, p) == Some(0)
  {
    assert (p + b)[..|p|] == p;
  }

  lemma {:induction false} StartsWithout(s: string, p: string)
    requires s != [] && p != [] && s[0] != p[0]
    ensures !StartsWith(s, p)
  {
  }

  // ---------- brackets ----------

  function Bracketed(name: string): string {
    "[" + name + "]"
  }

  lemma {:induction false} UnbracketWord(name: string)
    requires IsWord(name)
    ensures Unbracket(Bracketed(name)) == name
  {
    var s := Bracketed(name);
    assert s[1..] == name + "]";
    assert DropFront(s[1..], '[') == s[1..];
    assert s[1..][..|name|] == name;
    assert DropBack(name, ']') == name;
  }

  lemma {:induction false} BracketedHas(name: string, c: char)
    requires IsWord(name) && c != '[' && c != ']' && !IsWordChar(c)
    ensures c !in Bracketed(name)
  {
  }

  // ---------- case ----------

  lemma {:induction false} UpperAppend(a: string, b: string)
    ensures Upper(a + b) == Upper(a) + Upper(b)
  {
  }

  // ---------- keywords ----------

  lemma {:induction false} ContainsIs(s: string, kw: string)
    ensures Contains(s, kw) <==> exists i :: OccursAt(s, kw, i)
  {
    if Contains(s, kw) {
      assert OccursAt(s, kw, Find(s, kw).value);
    }
  }

  /** A character that is not in the keyword keeps what is before it and behind it apart. */
  lemma {:induction false} ContainsApart(a: string, c: char, b: string, kw: string)
    requires c !in kw && kw != []
    ensures Contains(a + [c] + b, kw) <==> Contains(a, kw) || Contains(b, kw)
  {
    var s := a + [c] + b;
    ContainsIs(s, kw);
    ContainsIs(a, kw);
    ContainsIs(b, kw);
    if i :| OccursAt(a, kw, i) {
      assert OccursAt(a + ([c] + b), kw, i) by {
        assert (a + ([c] + b))[i..i + |kw|] == a[i..i + |kw|];
      }
      assert s == a + ([c] + b);
    }
    if i :| OccursAt(b, kw, i) {
      OccursBehind(a + [c], b, kw, i);
    }
    if i :| OccursAt(s, kw, i) {
      OccursOnOneSide(a, c, b, kw, i);
    }
  }

  lemma {:induction false} OccursOnOneSide(a: string, c: char, b: string, kw: string, i: int)
    requires c !in kw && kw != [] && OccursAt(a + [c] + b, kw, i)
    ensures OccursAt(a, kw, i) || OccursAt(b, kw, i - |a| - 1)
  {
    var s := a + [c] + b;
    assert s[|a|] == c;
    if i + |kw| <= |a| {
      assert s[i..i + |kw|] == a[i..i + |kw|];
    } else if i > |a| {
      var k := i - |a| - 1;
      assert s[i..i + |kw|] == b[k..k + |kw|];
    } else {
      assert false;
    }
  }

  lemma {:induction false} OccursBehind(a: string, b: string, kw: string, i: int)
    requires OccursAt(b, kw, i)
    ensures OccursAt(a + b, kw, |a| + i)
  {
    assert (a + b)[|a| + i..|a| + i + |kw|] == b[i..i + |kw|];
  }

  lemma {:induction false} ContainsNeeds(s: string, kw: string, c: char)
    requires c in kw && c !in s
    ensures !Contains(s, kw)
  {
  }

  /** The same for a text that ends in such a character. */
  lemma {:induction false} ContainsAfterClose(a: string, b: string, kw: string)
    requires a == [] || a[|a| - 1] == ')'
    requires ')' !in kw && kw != []
    ensures Contains(a + b, kw) <==> Contains(a, kw) || Contains(b, kw)
  {
    if a == [] {
      assert a + b == b;
      ContainsNeeds([], kw, kw[0]);
    } else {
      var front := a[..|a| - 1];
      assert a == front + [')'] + [];
      assert a + b == front + [')'] + b;
      ContainsApart(front, ')', b, kw);
      ContainsApart(front, ')', [], kw);
      ContainsNeeds([], kw, kw[0]);
    }
  }

  /** Text without the keyword's first character does not matter in front. */
  lemma {:induction false} ContainsBehind(a: string, s: string, kw: string)
    requires kw != [] && kw[0] !in a
    ensures Contains(a + s, kw) <==> Contains(s, kw)
  {
    ContainsIs(a + s, kw);
    ContainsIs(s, kw);
    if i :| OccursAt(s, kw, i) {
      OccursBehind(a, s, kw, i);
    }
    if i :| OccursAt(a + s, kw, i) {
      assert (a + s)[i] == kw[0];
      assert i >= |a|;
      assert (a + s)[i..i + |kw|] == s[i - |a|..i - |a| + |kw|];
      assert OccursAt(s, kw, i - |a|);
    }
  }

  // ---------- nesting ----------

  /** The depth behind a text that never closes more than is open. */
  function Level(s: string, depth: nat): Option<nat> {
    if s == [] then Some(depth)
    else if s[0] == '(' then Level(s[1..], depth + 1)
    else if s[0] == ')' then if depth == 0 then None else Level(s[1..], depth - 1)
    else Level(s[1..], depth)
  }

  /** The same for a text that also has none of the stops at depth 0. */
  function TopLevel(s: string, depth: nat, stops: string): Option<nat> {
    if s == [] then Some(depth)
    else if s[0] == '(' then TopLevel(s[1..], depth + 1, stops)
    else if s[0] == ')' then if depth == 0 then None else TopLevel(s[1..], depth - 1, stops)
    else if s[0] in stops && depth == 0 then None
    else TopLevel(s[1..], depth, stops)
  }

  predicate Balanced(s: string) {
    Level(s, 0) == Some(0)
  }

  /** One top-level item: no comma at depth 0. */
  predicate OneItem(s: string) {
    TopLevel(s, 0, ",") == Some(0)
  }

  /** An item that has no slash at depth 0 either. */
  predicate Sheltered(s: string) {
    TopLevel(s, 0, ",/") == Some(0)
  }

  lemma {:induction false} FewerStops(s: string, d: nat, more: string, fewer: string)
    requires forall c :: c in fewer ==> c in more
    ensures TopLevel(s, d, more).Some? ==> TopLevel(s, d, fewer) == TopLevel(s, d, more)
    decreases |s|
  {
    if s != [] {
      if s[0] == '(' {
        FewerStops(s[1..], d + 1, more, fewer);
      } else if s[0] == ')' {
        if d > 0 {
          FewerStops(s[1..], d - 1, more, fewer);
        }
      } else {
        FewerStops(s[1..], d, more, fewer);
      }
    }
  }

  lemma {:induction false} ShelteredIsItem(s: string)
    requires Sheltered(s)
    ensures OneItem(s) && TopLevel(s, 0, "/") == Some(0)
  {
    FewerStops(s, 0, ",/", ",");
    FewerStops(s, 0, ",/", "/");
  }

  /** A stop in such a text is inside parentheses. */
  lemma {:induction false} StopIsDeep(s: string, d: nat, stops: string, n: nat)
    requires n < |s| && s[n] in stops && s[n] != '(' && s[n] != ')' && TopLevel(s, d, stops).Some?
    ensures Level(s[..n], d).Some? && Level(s[..n], d).value >= 1
    decreases |s|
  {
    if n > 0 {
      assert s[..n][1..] == s[1..][..n - 1] && s[..n][0] == s[0];
      StopIsDeep(s[1..], if s[0] == '(' then d + 1 else if s[0] == ')' then d - 1 else d, stops, n - 1);
    }
  }

  lemma {:induction false} LevelAppend(a: string, b: string, d: nat)
    ensures Level(a + b, d) == if Level(a, d).None? then None else Level(b, Level(a, d).value)
    decreases |a|
  {
    if a == [] {
      assert a + b == b;
    } else {
      assert (a + b)[1..] == a[1..] + b;
      if a[0] == '(' {
        LevelAppend(a[1..], b, d + 1);
      } else if a[0] == ')' {
        if d > 0 {
          LevelAppend(a[1..], b, d - 1);
        }
      } else {
        LevelAppend(a[1..], b, d);
      }
    }
  }

  lemma {:induction false} TopLevelAppend(a: string, b: string, d: nat, stops: string)
    ensures TopLevel(a + b, d, stops) ==
            if TopLevel(a, d, stops).None? then None else TopLevel(b, TopLevel(a, d, stops).value, stops)
    decreases |a|
  {
    if a == [] {
      assert a + b == b;
    } else {
      assert (a + b)[1..] == a[1..] + b;
      if a[0] == '(' {
        TopLevelAppend(a[1..], b, d + 1, stops);
      } else if a[0] == ')' {
        if d > 0 {
          TopLevelAppend(a[1..], b, d - 1, stops);
        }
      } else if !(a[0] in stops && d == 0) {
        TopLevelAppend(a[1..], b, d, stops);
      }
    }
  }

  lemma {:induction false} ItemAppend(a: string, b: string)
    requires Sheltered(a) && Sheltered(b)
    ensures Sheltered(a + b)
  {
    TopLevelAppend(a, b, 0, ",/");
  }

  lemma {:induction false} PlainItem(s: string)
    requires '(' !in s && ')' !in s && ',' !in s && '/' !in s
    ensures Sheltered(s)
    decreases |s|
  {
    if s != [] {
      PlainItem(s[1..]);
    }
  }

  lemma {:induction false} WordItem(s: string)
    requires IsWord(s)
    ensures Sheltered(s) && Sheltered(Bracketed(s))
  {
    PlainItem(s);
    PlainItem(Bracketed(s));
  }

  /** Stops do not matter inside parentheses. */
  lemma {:induction false} DeepItem(s: string, d: nat, stops: string)
    ensures Level(s, d).Some? ==> TopLevel(s, d + 1, stops) == Some(Level(s, d).value + 1)
    decreases |s|
  {
    if s != [] {
      if s[0] == '(' {
        DeepItem(s[1..], d + 1, stops);
      } else if s[0] == ')' {
        if d > 0 {
          DeepItem(s[1..], d - 1, stops);
        }
      } else {
        DeepItem(s[1..], d, stops);
      }
    }
  }

  function Parens(s: string): string {
    ['('] + s + [')']
  }

  lemma {:induction false} ParensItem(s: string)
    requires Balanced(s)
    ensures Sheltered(Parens(s))
  {
    DeepItem(s, 0, ",/");
    TopLevelAppend(s, [')'], 1, ",/");
    assert Parens(s)[1..] == s + [')'];
    assert [')'][1..] == [];
  }

  lemma {:induction false} ItemIsBalanced(s: string, d: nat, stops: string)
    ensures TopLevel(s, d, stops).Some? ==> Level(s, d) == TopLevel(s, d, stops)
    decreases |s|
  {
    if s != [] {
      if s[0] == '(' {
        ItemIsBalanced(s[1..], d + 1, stops);
      } else if s[0] == ')' {
        if d > 0 {
          ItemIsBalanced(s[1..], d - 1, stops);
        }
      } else {
        ItemIsBalanced(s[1..], d, stops);
      }
    }
  }

  lemma {:induction false} BalancedPlain(s: string)
    requires '(' !in s && ')' !in s
    ensures Balanced(s)
    decreases |s|
  {
    if s != [] {
      BalancedPlain(s[1..]);
    }
  }

  // ---------- the two scans on nested text ----------

  lemma {:induction false} PiecesOfItem(p: string, rest: string, d: nat)
    requires TopLevel(p, d, ",").Some?
    ensures Pieces(p + rest, d) == Prepend(p, Pieces(rest, TopLevel(p, d, ",").value))
    decreases |p|
  {
    if p == [] {
      assert p + rest == rest;
      PrependNothing(Pieces(rest, d));
    } else {
      assert (p + rest)[1..] == p[1..] + rest;
      var e := Deeper(d, p[0]);
      PiecesOfItem(p[1..], rest, e);
      PrependTwice([p[0]], p[1..], Pieces(rest, TopLevel(p, d, ",").value));
      assert [p[0]] + p[1..] == p;
    }
  }

  /** Items joined by commas are cut apart again. */
  lemma {:induction false} PiecesJoin(ps: seq<string>)
    requires |ps| >= 1 && forall i :: 0 <= i < |ps| ==> OneItem(ps[i])
    ensures Pieces(Join(ps, ','), 0) == ps
    decreases |ps|
  {
    if |ps| == 1 {
      assert ps[0] + [] == ps[0];
      PiecesOfItem(ps[0], [], 0);
      assert Prepend(ps[0], [[]]) == ps;
    } else {
      var tail := [','] + Join(ps[1..], ',');
      assert Join(ps, ',') == ps[0] + tail;
      PiecesOfItem(ps[0], tail, 0);
      assert tail[1..] == Join(ps[1..], ',');
      PiecesJoin(ps[1..]);
      assert Pieces(tail, 0) == [[]] + ps[1..];
      assert ps[0] + [] == ps[0] && ([[]] + ps[1..])[1..] == ps[1..];
    }
  }

  lemma {:induction false} JoinIsBalanced(ps: seq<string>)
    requires |ps| >= 1 && forall i :: 0 <= i < |ps| ==> OneItem(ps[i])
    ensures Balanced(Join(ps, ','))
    decreases |ps|
  {
    ItemIsBalanced(ps[0], 0, ",");
    if |ps| > 1 {
      JoinIsBalanced(ps[1..]);
      var tail := [','] + Join(ps[1..], ',');
      assert tail[1..] == Join(ps[1..], ',');
      assert Join(ps, ',') == ps[0] + tail;
      LevelAppend(ps[0], tail, 0);
    }
  }

  /** Joined by commas, sheltered texts still have no slash at depth 0. */
  lemma {:induction false} JoinIsSheltered(ps: seq<string>)
    requires |ps| >= 1 && forall i :: 0 <= i < |ps| ==> Sheltered(ps[i])
    ensures TopLevel(Join(ps, ','), 0, "/") == Some(0)
    decreases |ps|
  {
    ShelteredIsItem(ps[0]);
    if |ps| > 1 {
      JoinIsSheltered(ps[1..]);
      var tail := [','] + Join(ps[1..], ',');
      assert tail[1..] == Join(ps[1..], ',');
      assert Join(ps, ',') == ps[0] + tail;
      TopLevelAppend(ps[0], tail, 0, "/");
    }
  }

  lemma {:induction false} CloseSkips(s: string, rest: string, d: nat)
    requires Level(s, d).Some?
    ensures CloseFrom(s + rest, d + 1) == Further(CloseFrom(rest, Level(s, d).value + 1), |s|)
    decreases |s|
  {
    if s == [] {
      assert s + rest == rest;
    } else {
      var e := Deeper(d, s[0]);
      CloseStep(s, rest, d, e);
      CloseSkips(s[1..], rest, e);
      FurtherTwice(CloseFrom(rest, Level(s[1..], e).value + 1), |s[1..]|, 1, |s|);
    }
  }

  lemma {:induction false} FurtherTwice(r: Option<nat>, i: nat, j: nat, k: nat)
    requires k == i + j
    ensures Further(Further(r, i), j) == Further(r, k)
  {
  }

  lemma {:induction false} CloseStep(s: string, rest: string, d: nat, e: int)
    requires s != [] && Level(s, d).Some? && e == Deeper(d, s[0])
    ensures e >= 0 && Level(s, d) == Level(s[1..], e)
    ensures CloseFrom(s + rest, d + 1) == Further(CloseFrom(s[1..] + rest, e + 1), 1)
  {
    assert (s + rest)[1..] == s[1..] + rest;
  }

  /** The parenthesis that closes a balanced text is the one behind it. */
  lemma {:induction false} CloseOfBalanced(s: string, rest: string)
    requires Balanced(s)
    ensures CloseFrom(s + [')'] + rest, 1) == Some(|s|)
  {
    assert s + [')'] + rest == s + ([')'] + rest);
    CloseSkips(s, [')'] + rest, 0);
    assert ([')'] + rest)[0] == ')';
  }

  /** A balanced text cut short closes nothing, nor does one character more where something is open. */
  lemma {:induction false} CutStaysOpen(s: string, n: nat, x: string)
    requires Balanced(s) && n <= |s| && |x| <= 1
    requires x != [] ==> Level(s[..n], 0).Some? && Level(s[..n], 0).value >= 1
    ensures CloseFrom(s[..n] + x, 1).None?
  {
    assert s == s[..n] + s[n..];
    LevelAppend(s[..n], s[n..], 0);
    CloseSkips(s[..n], x, 0);
    var open := Level(s[..n], 0).value + 1;
    if x != [] {
      assert x[1..] == [];
    }
  }

  lemma {:induction false} PrefixStaysOpen(s: string, j: nat)
    requires CloseFrom(s, 1).None? && j <= |s|
    ensures CloseFrom(s[..j], 1).None?
  {
    var found := CloseFrom(s[..j], 1);
    if found.Some? {
      var i := found.value;
      ClosesExactly(s[..j], i);
      assert s[..j][..i] == s[..i];
      ClosesExactly(s, i);
    }
  }

  lemma {:induction false} CloseMeansBalanced(s: string, d: nat)
    requires CloseFrom(s, d + 1).Some?
    ensures Level(s[..CloseFrom(s, d + 1).value], d) == Some(0)
    decreases |s|
  {
    var i := CloseFrom(s, d + 1).value;
    if i == 0 {
      assert s[..0] == [];
    } else {
      assert s[..i][1..] == s[1..][..i - 1];
      CloseMeansBalanced(s[1..], Deeper(d, s[0]));
    }
  }

  /** The parenthesis found is the one behind the balanced text in front of it, and there is only one such. */
  lemma {:induction false} ClosesExactly(s: string, i: nat)
    ensures CloseFrom(s, 1) == Some(i) <==> i < |s| && s[i] == ')' && Balanced(s[..i])
  {
    if CloseFrom(s, 1) == Some(i) {
      CloseMeansBalanced(s, 0);
    }
    if i < |s| && s[i] == ')' && Balanced(s[..i]) {
      CloseOfBalanced(s[..i], s[i + 1..]);
      assert s[..i] + [')'] + s[i + 1..] == s;
    }
  }
}
