/** Searching, splitting, folding and trimming of ASCII text, shared by the
    parsers and matchers. */
module Text {

  datatype Option<+T> = None | Some(value: T)

  // ---------- searching ----------

  predicate OccursAt<T(==)>(s: seq<T>, p: seq<T>, i: int) {
    0 <= i && i + |p| <= |s| && s[i..i + |p|] == p
  }

  /** Leftmost occurrence of `p` in `s` at or after `from`. */
  function FindFrom<T(==)>(s: seq<T>, p: seq<T>, from: nat): (r: Option<nat>)
    requires from <= |s|
    ensures r.Some? ==> from <= r.value && OccursAt(s, p, r.value)
    ensures r.Some? ==> forall j :: from <= j < r.value ==> !OccursAt(s, p, j)
    ensures r.None? ==> forall j :: from <= j ==> !OccursAt(s, p, j)
    decreases |s| - from
  {
    if OccursAt(s, p, from) then Some(from)
    else if from == |s| then None
    else FindFrom(s, p, from + 1)
  }

  function Find<T(==)>(s: seq<T>, p: seq<T>): Option<nat> {
    FindFrom(s, p, 0)
  }

  /** The search result is the leftmost occurrence, whatever shows there is one. */
  lemma {:induction false} FindIs<T>(s: seq<T>, p: seq<T>, i: nat)
    requires OccursAt(s, p, i)
    requires forall j :: 0 <= j < i ==> !OccursAt(s, p, j)
    ensures Find(s, p) == Some(i)
  {
  }

  /** Leftmost position of one character. */
  function IndexOf<T(==)>(s: seq<T>, x: T): (r: Option<nat>)
    ensures r.Some? ==> r.value < |s| && s[r.value] == x && x !in s[..r.value]
    ensures r.None? ==> x !in s
  {
    if s == [] then None
    else if s[0] == x then Some(0)
    else
      match IndexOf(s[1..], x)
      case None => None
      case Some(i) => Some(i + 1)
  }

  lemma {:induction false} IndexOfIs<T>(s: seq<T>, x: T, i: nat)
    requires i < |s| && s[i] == x && x !in s[..i]
    ensures IndexOf(s, x) == Some(i)
  {
  }

  lemma {:induction false} SliceOfSlice<T>(s: seq<T>, a: nat, b: nat, i: nat, j: nat)
    requires a <= b <= |s| && i <= j <= b - a
    ensures s[a..b][i..j] == s[a + i..a + j]
  {
    var t := s[a..b];
    forall k | 0 <= k < j - i ensures t[i..j][k] == s[a + i..a + j][k] {
      assert t[i + k] == s[a + (i + k)];
    }
    assert |t[i..j]| == |s[a + i..a + j]|;
  }

  predicate StartsWith<T(==)>(s: seq<T>, p: seq<T>) {
    OccursAt(s, p, 0)
  }

  predicate EndsWith<T(==)>(s: seq<T>, p: seq<T>) {
    OccursAt(s, p, |s| - |p|)
  }

  predicate Contains<T(==)>(s: seq<T>, p: seq<T>) {
    Find(s, p).Some?
  }

  // ---------- splitting on one character ----------

  /** The pieces between the separators; always at least one. */
  function Split<T(==)>(s: seq<T>, sep: T): (ps: seq<seq<T>>)
    ensures |ps| >= 1
    ensures forall i :: 0 <= i < |ps| ==> sep !in ps[i]
    ensures Join(ps, sep) == s
  {
    if s == [] then [[]]
    else
      var rest := Split(s[1..], sep);
      if s[0] == sep then [[]] + rest else [[s[0]] + rest[0]] + rest[1..]
  }

  function Join<T>(ps: seq<seq<T>>, sep: T): seq<T>
    requires |ps| >= 1
  {
    if |ps| == 1 then ps[0] else ps[0] + [sep] + Join(ps[1..], sep)
  }

  /** Splitting is the only way to cut a text at its separators. */
  lemma {:induction false} SplitJoin<T>(ps: seq<seq<T>>, sep: T)
    requires |ps| >= 1
    requires forall i :: 0 <= i < |ps| ==> sep !in ps[i]
    ensures Split(Join(ps, sep), sep) == ps
    decreases |ps|, |ps[0]|
  {
    var s := Join(ps, sep);
    if ps[0] == [] {
      if |ps| > 1 {
        assert s == [sep] + Join(ps[1..], sep);
        SplitJoin(ps[1..], sep);
      }
    } else {
      var shorter := [ps[0][1..]] + ps[1..];
      assert shorter[1..] == ps[1..];
      assert s[1..] == Join(shorter, sep);
      assert s[0] == ps[0][0];
      SplitJoin(shorter, sep);
      assert [s[0]] + shorter[0] == ps[0];
    }
  }

  lemma {:induction false} JoinAppend<T>(a: seq<seq<T>>, b: seq<seq<T>>, sep: T)
    requires |a| >= 1 && |b| >= 1
    ensures Join(a + b, sep) == Join(a, sep) + [sep] + Join(b, sep)
    decreases |a|
  {
    assert (a + b)[1..] == a[1..] + b;
    if |a| > 1 {
      JoinAppend(a[1..], b, sep);
    }
  }

  /** A text begins with some pieces and a separator exactly when they are its first pieces. */
  lemma {:induction false} SplitPrefix<T>(ps: seq<seq<T>>, s: seq<T>, sep: T)
    requires |ps| >= 1 && forall i :: 0 <= i < |ps| ==> sep !in ps[i]
    ensures Join(ps, sep) + [sep] <= s <==> |Split(s, sep)| > |ps| && Split(s, sep)[..|ps|] == ps
    ensures Join(ps, sep) + [sep] <= s ==> Split(s, sep)[|ps|..] == Split(s[|Join(ps, sep)| + 1..], sep)
  {
    var front, all := Join(ps, sep) + [sep], Split(s, sep);
    if front <= s {
      var rest := s[|front|..];
      var more := Split(rest, sep);
      JoinAppend(ps, more, sep);
      assert s == front + rest;
      SplitJoin(ps + more, sep);
      assert all == ps + more;
    }
    if |all| > |ps| && all[..|ps|] == ps {
      JoinAppend(ps, all[|ps|..], sep);
      assert all == ps + all[|ps|..];
    }
  }

  // ---------- decimal numbers ----------

  predicate IsDigit(c: char) {
    '0' <= c <= '9'
  }

  function Digit(d: nat): (c: char)
    requires d < 10
    ensures IsDigit(c)
  {
    ('0' as int + d) as char
  }

  /** The usual decimal notation. */
  function Decimal(n: nat): (s: string)
    ensures |s| >= 1 && forall i :: 0 <= i < |s| ==> IsDigit(s[i])
  {
    if n < 10 then [Digit(n)] else Decimal(n / 10) + [Digit(n % 10)]
  }

  predicate AllDigits(s: string) {
    forall i :: 0 <= i < |s| ==> IsDigit(s[i])
  }

  function ValueOf(s: string): nat
    requires AllDigits(s)
  {
    if s == [] then 0 else ValueOf(s[..|s| - 1]) * 10 + (s[|s| - 1] as int - '0' as int)
  }

  /** Rust's `parse` for an unsigned type with the given largest value: digits with an
      optional plus sign, and no overflow. */
  function ParseUnsigned(s: string, max: nat): Option<nat> {
    var digits := if s != [] && s[0] == '+' then s[1..] else s;
    if digits == [] || !AllDigits(digits) || ValueOf(digits) > max then None else Some(ValueOf(digits))
  }

  lemma {:induction false} DecimalValue(n: nat)
    ensures ValueOf(Decimal(n)) == n
  {
    if n >= 10 {
      DecimalValue(n / 10);
      assert Decimal(n)[..|Decimal(n)| - 1] == Decimal(n / 10);
    }
  }

  lemma {:induction false} DecimalParses(n: nat, max: nat)
    requires n <= max
    ensures ParseUnsigned(Decimal(n), max) == Some(n)
  {
    DecimalValue(n);
  }

  // ---------- ASCII case ----------

  function UpperChar(c: char): char {
    if 'a' <= c <= 'z' then (c as int - 32) as char else c
  }

  function Upper(s: string): string {
    seq(|s|, i requires 0 <= i < |s| => UpperChar(s[i]))
  }

  function LowerChar(c: char): char {
    if 'A' <= c <= 'Z' then (c as int + 32) as char else c
  }

  function Lower(s: string): string {
    seq(|s|, i requires 0 <= i < |s| => LowerChar(s[i]))
  }

  /** The text without the characters of `drop`. */
  function Remove(s: string, drop: string): string {
    if s == [] then [] else (if s[0] in drop then [] else [s[0]]) + Remove(s[1..], drop)
  }

  /** Rust's `split_once`. */
  function SplitOnce(s: string, sep: char): Option<(string, string)> {
    match IndexOf(s, sep)
    case None => None
    case Some(i) => Some((s[..i], s[i + 1..]))
  }
}
