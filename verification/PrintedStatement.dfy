/** What comment marks do to a printed statement: when its own text is parsed back. */
module PrintedStatement {
  import opened Text
  import opened TableSchema
  import opened DdlLayout
  import opened TablePrinter
  import opened ConstraintProofs
  import opened ItemProofs
  import opened TableRoundTrip
  import opened SqlComments

  /** The statement with the text in front of it. */
  function UpToEnd(t: Ddl): string
    requires DdlOk(t)
  {
    t.before + Core(t)
  }

  /** Before the statement has ended, a comment begins. */
  predicate HasComment(t: Ddl)
    requires DdlOk(t)
  {
    exists k :: 0 <= k < |UpToEnd(t)| && CommentAt(UpToEnd(t), k)
  }

  // ---------- where a comment can begin ----------

  /** The keywords, the name and the opening parenthesis. */
  function Opening(kw: string, q: string): string {
    kw + " " + q + " ("
  }

  lemma {:induction false} CoreParts(t: Ddl, kw: string)
    requires DdlOk(t) && kw == "CREATE TABLE"
    ensures Core(t) == Opening(kw, Qualified(t.schema, t.name)) + Body(t) + ")"
    ensures UpToEnd(t) == t.before + Opening(kw, Qualified(t.schema, t.name)) + Body(t) + ")"
  {
    CoreText(t, kw);
    OpeningAndBody(kw, Qualified(t.schema, t.name), Body(t));
    Regroup(t.before, Opening(kw, Qualified(t.schema, t.name)), Body(t), ")");
  }

  lemma {:induction false} OpeningAndBody(kw: string, q: string, body: string)
    ensures kw + " " + q + " " + Parens(body) == Opening(kw, q) + body + ")"
  {
  }

  lemma {:induction false} Regroup(a: string, b: string, c: string, d: string)
    ensures a + (b + c + d) == a + b + c + d
  {
  }

  lemma {:induction false} NameHasNoMark(schema: Option<string>, name: string)
    requires OptionalWord(schema) && IsWord(name)
    ensures '-' !in Qualified(schema, name) && '/' !in Qualified(schema, name)
  {
    BracketedHas(name, '-');
    BracketedHas(name, '/');
    if schema.Some? {
      BracketedHas(schema.value, '-');
      BracketedHas(schema.value, '/');
    }
  }

  lemma {:induction false} OpeningHasNoMark(kw: string, q: string)
    requires kw == "CREATE TABLE" && '-' !in q && '/' !in q
    ensures '-' !in Opening(kw, q) && '/' !in Opening(kw, q)
  {
  }

  /** A character but the last one is in front of the statement, in its opening or in its body. */
  lemma {:induction false} MarkIsOutside(before: string, opening: string, body: string, k: nat, c: char)
    requires k < |before + opening + body + ")"| && (before + opening + body + ")")[k] == c && c != ')'
    ensures k < |before| || c in opening ||
            (|before| + |opening| <= k < |before| + |opening| + |body| && body[k - |before| - |opening|] == c)
  {
  }

  // ---------- a comment in front of the statement ----------

  lemma {:induction false} TrimIsSlice(s: string) returns (u: nat, v: nat)
    ensures u <= v <= |s| && Trim(DropFront(s, BOM)) == s[u..v]
  {
    var a := DropIsSlice(s, BOM);
    var b := TrimStartIsSlice(s[a..]);
    var c := TrimEndIsSlice(s[a..][b..]);
    u, v := a + b, a + b + c;
    assert s[a..][b..][..c] == s[u..v];
  }

  lemma {:induction false} DropIsSlice(s: string, c: char) returns (i: nat)
    ensures i <= |s| && DropFront(s, c) == s[i..]
    decreases |s|
  {
    i := 0;
    if s != [] && s[0] == c {
      i := DropIsSlice(s[1..], c);
      assert s[1..][i..] == s[i + 1..];
      i := i + 1;
    }
  }

  lemma {:induction false} TrimStartIsSlice(s: string) returns (i: nat)
    ensures i <= |s| && TrimStart(s) == s[i..]
    decreases |s|
  {
    i := 0;
    if s != [] && IsSpace(s[0]) {
      i := TrimStartIsSlice(s[1..]);
      assert s[1..][i..] == s[i + 1..];
      i := i + 1;
    }
  }

  lemma {:induction false} TrimEndIsSlice(s: string) returns (j: nat)
    ensures j <= |s| && TrimEnd(s) == s[..j]
    decreases |s|
  {
    j := |s|;
    if s != [] && IsSpace(s[|s| - 1]) {
      j := TrimEndIsSlice(s[..|s| - 1]);
      assert s[..|s| - 1][..j] == s[..j];
    }
  }

  /** The keywords cannot be found before the end of what is left in front of the comment. */
  lemma {:induction false} FoundOnlyAtEnd(before: string, k: nat, x: string, u: nat, v: nat, kw: string, short: string,
                                          at: nat)
    requires k <= |before| && |x| <= 1 && u <= v <= |before[..k] + x| && kw != []
    requires !Contains(Upper(before + short), kw)
    requires Find(Upper((before[..k] + x)[u..v]), kw) == Some(at)
    ensures at + |kw| >= v - u
  {
    var s := before[..k] + x;
    if at + |kw| < v - u {
      var whole := Upper(before + short);
      forall i | 0 <= i < |kw| ensures whole[u + at + i] == kw[i] {
        assert Upper(s[u..v])[at..at + |kw|][i] == kw[i];
        assert s[u..v][at + i] == s[u + at + i] == before[u + at + i] == (before + short)[u + at + i];
      }
      assert whole[u + at..u + at + |kw|] == kw;
      ContainsIs(whole, kw);
      assert OccursAt(whole, kw, u + at);
    }
  }

  lemma {:induction false} NothingBehind(source: string, text: string, kw: string)
    requires kw == "CREATE TABLE" && text == Trim(DropFront(StripSchema(source, 0), BOM))
    requires forall at :: Find(Upper(text), kw) == Some(at) ==> at + |kw| >= |text|
    ensures Statement(source) == None
  {
    var at := Find(Upper(text), kw);
    if at.Some? {
      assert at.value + |kw| <= |Upper(text)| == |text|;
      assert text[at.value + |kw|..] == [];
    }
  }

  lemma {:induction false} CommentBefore(source: string, before: string, k: nat, x: string, kw: string, short: string)
    requires kw == "CREATE TABLE" && k <= |before| && |x| <= 1 && !Contains(Upper(before + short), kw)
    requires StripSchema(source, 0) == before[..k] + x
    ensures Statement(source) == None
  {
    var s := before[..k] + x;
    var u, v := TrimIsSlice(s);
    forall at | Find(Upper(s[u..v]), kw) == Some(at) ensures at + |kw| >= |s[u..v]| {
      FoundOnlyAtEnd(before, k, x, u, v, kw, short, at);
    }
    NothingBehind(source, s[u..v], kw);
  }

  // ---------- a comment in the body ----------

  lemma {:induction false} StaysOpen(source: string, text: string, at: nat, kw: string, after: string, open: nat)
    requires kw == "CREATE TABLE" && text == Trim(DropFront(StripSchema(source, 0), BOM))
    requires Find(Upper(text), kw) == Some(at) && at + |kw| <= |text| && after == TrimStart(text[at + |kw|..])
    requires IndexOf(after, '(') == Some(open) && CloseFrom(after[open + 1..], 1) == None
    ensures Statement(source) == None
  {
  }

  lemma {:induction false} OpenParts(q: string, b: string, tail: string, after: string)
    requires q != [] && q[0] == '[' && '(' !in q && tail == " " + (q + " (" + b) && after == TrimStart(tail)
    ensures IndexOf(after, '(') == Some(|q| + 1) && after[|q| + 2..] == b
  {
    var found := q + " (" + b;
    assert found[0] == '[';
    TrimStartBlank(" ", found);
    assert found == (q + " ") + ['('] + b;
    IndexOfAppend(q + " ", '(', b);
  }

  lemma {:induction false} OpenStatement(source: string, a: string, kw: string, q: string, b: string, tail: string,
                                         text: string)
    requires kw == "CREATE TABLE" && q != [] && q[0] == '[' && '(' !in q && CloseFrom(b, 1) == None
    requires tail == " " + (q + " (" + b) && text == a + (kw + tail)
    requires Trim(DropFront(StripSchema(source, 0), BOM)) == text && Find(Upper(text), kw) == Some(|a|)
    ensures Statement(source) == None
  {
    assert text[|a| + |kw|..] == tail;
    var after := TrimStart(tail);
    OpenParts(q, b, tail, after);
    StaysOpen(source, text, |a|, kw, after, |q| + 1);
  }

  lemma {:induction false} OpeningIsTrimmed(kw: string, q: string)
    requires kw == "CREATE TABLE"
    ensures var o := Opening(kw, q); o != [] && o[0] == 'C' && Trimmed(o)
  {
    var o := Opening(kw, q);
    assert o[0] == kw[0] && o[|o| - 1] == '(';
  }

  lemma {:induction false} OpeningJoin(a: string, kw: string, q: string, b: string)
    ensures a + Opening(kw, q) + b == a + (kw + (" " + (q + " (" + b)))
  {
  }

  lemma {:induction false} CommentInBody(source: string, t: Ddl, n: nat, x: string, kw: string)
    requires DdlOk(t) && kw == "CREATE TABLE" && n <= |Body(t)| && |x| <= 1
    requires x != [] ==> Level(Body(t)[..n], 0).Some? && Level(Body(t)[..n], 0).value >= 1
    requires StripSchema(source, 0) == t.before + Opening(kw, Qualified(t.schema, t.name)) + (Body(t)[..n] + x)
    ensures Statement(source) == None
  {
    var q := Qualified(t.schema, t.name);
    OpeningIsTrimmed(kw, q);
    BodyRead(t, Table(None, "", [], [], [], []));
    CutStaysOpen(Body(t), n, x);
    QualifiedIsPlain(t.schema, t.name);
    OpenText(source, t.before, kw, "CREATE TABL", q, Body(t)[..n] + x);
  }

  lemma {:induction false} OpenText(source: string, before: string, kw: string, short: string, q: string, b: string)
    requires kw == "CREATE TABLE" && short == "CREATE TABL" && q != [] && q[0] == '[' && '(' !in q
    requires BOM !in before && !Contains(Upper(before + short), kw) && CloseFrom(b, 1) == None
    requires StripSchema(source, 0) == before + Opening(kw, q) + b
    ensures Statement(source) == None
  {
    OpeningIsTrimmed(kw, q);
    var i, j := TextTrimmed(before, Opening(kw, q), b, StripSchema(source, 0));
    var a, rest := before[i..], b[..j];
    PrefixStaysOpen(b, j);
    OpeningJoin(a, kw, q, rest);
    var tail := " " + (q + " (" + rest);
    CreateFound(before, i, kw, tail);
    OpenStatement(source, a, kw, q, rest, tail, a + (kw + tail));
  }

  lemma {:induction false} TextTrimmed(before: string, opening: string, b: string, s: string) returns (i: nat, j: nat)
    requires BOM !in before && opening != [] && opening[0] == 'C' && Trimmed(opening) && s == before + opening + b
    ensures i <= |before| && j <= |b| && Trim(DropFront(s, BOM)) == before[i..] + opening + b[..j]
  {
    assert s[0] == if before == [] then 'C' else before[0];
    assert [] + s == s;
    DropMarks([], s);
    i, j := TrimKeepsCore(before, opening, b);
  }

  // ---------- the first comment ----------

  lemma {:induction false} FirstComment(s: string, k: nat) returns (i: nat)
    requires CommentAt(s, k)
    ensures i <= k && CommentAt(s, i) && forall j :: 0 <= j < i ==> !CommentAt(s, j)
    decreases k
  {
    if j :| 0 <= j < k && CommentAt(s, j) {
      i := FirstComment(s, j);
    } else {
      i := k;
    }
  }

  lemma {:induction false} SameComments(front: string, behind: string, k: nat)
    requires front != [] && front[|front| - 1] == ')' && k < |front|
    ensures CommentAt(front + behind, k) <==> CommentAt(front, k)
  {
    var s := front + behind;
    assert s[k] == front[k];
    assert k + 1 < |front| ==> s[k + 1] == front[k + 1];
  }

  lemma {:induction false} PrintIs(t: Ddl)
    requires DdlOk(t)
    ensures Print(t) == UpToEnd(t) + t.behind && UpToEnd(t) != [] && UpToEnd(t)[|UpToEnd(t)| - 1] == ')'
  {
    assert Core(t)[|Core(t)| - 1] == ')';
    assert Print(t) == t.before + Core(t) + t.behind;
  }

  /** A comment that begins before the statement has ended, and never ends, leaves no statement. */
  lemma {:induction false} CommentHidesStatement(t: Ddl, kw: string, short: string)
    requires DdlOk(t) && HasComment(t) && NothingEnds(Print(t)) && kw == "CREATE TABLE" && short == "CREATE TABL"
    ensures Parse(Print(t)) == None
  {
    PrintIs(t);
    var some :| 0 <= some < |UpToEnd(t)| && CommentAt(UpToEnd(t), some);
    var k, x := CutAtComment(UpToEnd(t), t.behind, Print(t), some);
    StrippedHasNone(Print(t), t, k, x, kw, short);
  }

  lemma {:induction false} CutAtComment(front: string, behind: string, s: string, some: nat) returns (k: nat, x: string)
    requires front != [] && front[|front| - 1] == ')' && s == front + behind && NothingEnds(s)
    requires some < |front| && CommentAt(front, some)
    ensures CommentAt(front, k) && |x| <= 1 && (front[k] == '-' ==> x == [])
    ensures StripSchema(s, 0) == front[..k] + x
  {
    k := FirstComment(front, some);
    forall j | 0 <= j < k ensures !CommentAt(s, j) {
      SameComments(front, behind, j);
    }
    SameComments(front, behind, k);
    CodeStays(s, 0, k);
    EndlessComment(s, k);
    x := StripSchema(s, k);
    assert s[0..k] == front[..k] && s[k] == front[k];
  }

  lemma {:induction false} StrippedHasNone(source: string, t: Ddl, k: nat, x: string, kw: string, short: string)
    requires DdlOk(t) && kw == "CREATE TABLE" && short == "CREATE TABL" && |x| <= 1
    requires CommentAt(UpToEnd(t), k) && (UpToEnd(t)[k] == '-' ==> x == [])
    requires StripSchema(source, 0) == UpToEnd(t)[..k] + x
    ensures Statement(source) == None
  {
    var q, body, front := Qualified(t.schema, t.name), Body(t), UpToEnd(t);
    var opening := Opening(kw, q);
    CoreParts(t, kw);
    NameHasNoMark(t.schema, t.name);
    OpeningHasNoMark(kw, q);
    MarkIsOutside(t.before, opening, body, k, front[k]);
    if k < |t.before| {
      assert front[..k] == t.before[..k];
      CommentBefore(source, t.before, k, x, kw, short);
    } else {
      var n := k - |t.before| - |opening|;
      CutInBody(t.before, opening, body, k, n, x);
      if x != [] {
        SlashIsDeep(t, n);
      }
      CommentInBody(source, t, n, x, kw);
    }
  }

  lemma {:induction false} CutInBody(before: string, opening: string, body: string, k: nat, n: nat, x: string)
    requires n <= |body| && k == |before| + |opening| + n
    ensures (before + opening + body + ")")[..k] + x == before + opening + (body[..n] + x)
  {
    assert before + opening + body + ")" == (before + opening + body[..n]) + (body[n..] + ")");
  }

  lemma {:induction false} SlashIsDeep(t: Ddl, n: nat)
    requires DdlOk(t) && n < |Body(t)| && Body(t)[n] == '/'
    ensures Level(Body(t)[..n], 0).Some? && Level(Body(t)[..n], 0).value >= 1
  {
    AllAreItems(t.defs);
    JoinIsSheltered(PrintAll(t.defs));
    StopIsDeep(Body(t), 0, "/", n);
  }

  // ---------- the round trip of the printed text ----------

  /** Without a comment before its end, the statement is read whatever stands behind it. */
  lemma {:induction false} NoCommentParsesBack(t: Ddl)
    requires DdlOk(t) && !HasComment(t)
    ensures Parse(Print(t)) == Some(TableOf(t)) <==> AllHonest(t.defs)
  {
    var s, front := Print(t), UpToEnd(t);
    PrintIs(t);
    forall k | 0 <= k < |front| ensures !CommentAt(s, k) {
      SameComments(front, t.behind, k);
    }
    CodeStays(s, 0, |front|);
    var read := t.(behind := StripSchema(s, |front|));
    assert s[0..|front|] == front;
    PrintIs(read);
    assert [] + Print(read) == StripSchema(s, 0);
    ParsesBackExactly(s, [], read);
  }

  /** A printed statement of which no comment begins before its end, or none ends, is parsed back to the
      table it defines exactly when every line is honest and no comment begins before its end. */
  lemma {:induction false} PrintedParsesBack(t: Ddl)
    requires DdlOk(t) && (!HasComment(t) || NothingEnds(Print(t)))
    ensures Parse(Print(t)) == Some(TableOf(t)) <==> AllHonest(t.defs) && !HasComment(t)
  {
    if HasComment(t) {
      CommentHidesStatement(t, "CREATE TABLE", "CREATE TABL");
    } else {
      NoCommentParsesBack(t);
    }
  }

  // ---------- an honest table that is lost ----------

  /** One column of some type with the expression as its default. */
  function WithDefault(name: string, column: string, typ: string, expr: string): Ddl {
    Ddl("", None, name, [Padded("", ColumnDef(column, typ, NoSize, false, DefaultClause(None, expr), true,
                                              Gaps(" ", "", "")), "")], "")
  }

  lemma {:induction false} WithDefaultOk(name: string, column: string, typ: string, expr: string)
    requires IsWord(name) && IsWord(column) && typ == "INT" && expr == "'--'"
    ensures DdlOk(WithDefault(name, column, typ, expr)) && AllHonest(WithDefault(name, column, typ, expr).defs)
  {
    BalancedPlain(expr);
    assert Upper(typ)[0] == 'I';
    assert Upper(expr) == expr;
    ContainsNeeds(Upper(expr), "IDENTITY", 'I');
    ContainsNeeds(Upper(expr), "NOT NULL", 'O');
    ShortLacks(Upper("" + "CREATE TABL"), "CREATE TABLE");
  }

  lemma {:induction false} ShortLacks(s: string, kw: string)
    requires |s| < |kw|
    ensures !Contains(s, kw)
  {
    ContainsIs(s, kw);
  }

  lemma {:induction false} WithDefaultText(name: string, column: string, typ: string, expr: string, kw: string)
    requires DdlOk(WithDefault(name, column, typ, expr)) && kw == "CREATE TABLE"
    ensures var t := WithDefault(name, column, typ, expr);
      && Print(t) == UpToEnd(t)
      && Print(t) == Opening(kw, Bracketed(name)) +
                     (Bracketed(column) + " " + typ + (" DEFAULT (" + expr + ") NULL")) + ")"
  {
    var t := WithDefault(name, column, typ, expr);
    var p := t.defs[0];
    assert PaddedOk(p);
    CoreParts(t, kw);
    PrintIs(t);
    assert PrintAll(t.defs[..0]) == [];
    assert Body(t) == PrintPadded(p);
    WithDefaultLine(p.def);
    assert Qualified(None, name) == Bracketed(name);
    assert Print(t) == UpToEnd(t);
    assert PrintPadded(p) == PrintDef(p.def);
    assert "" + Opening(kw, Bracketed(name)) == Opening(kw, Bracketed(name));
  }

  lemma {:induction false} WithDefaultLine(c: Def)
    requires c.ColumnDef? && c.size.NoSize? && !c.identity && c.nullable && c.gaps == Gaps(" ", "", "")
    requires c.byDefault.DefaultClause? && c.byDefault.name.None?
    ensures PrintDef(c) == Bracketed(c.name) + " " + c.typ + (" DEFAULT (" + c.byDefault.expr + ") NULL")
  {
    var d := " DEFAULT " + Parens(c.byDefault.expr);
    assert DefaultText(c.byDefault) == "" + " DEFAULT " + Parens(c.byDefault.expr) == d;
    assert Options(c) == "" + d + " NULL" == d + " NULL";
    assert AfterType(c) == "" + ("" + Options(c)) == Options(c);
    assert d + " NULL" == " DEFAULT (" + c.byDefault.expr + ") NULL";
  }

  lemma {:induction false} DashesInside(a: string, expr: string, b: string)
    requires expr == "'--'"
    ensures CommentAt(a + expr + b, |a| + 1)
  {
    var s := a + expr + b;
    assert s[|a| + 1] == expr[1] && s[|a| + 2] == expr[2];
  }

  lemma {:induction false} NothingEndsIn(s: string)
    requires '\n' !in s && '*' !in s
    ensures NothingEnds(s)
  {
  }

  lemma {:induction false} PlainOf(kw: string, name: string, column: string, typ: string, expr: string)
    requires IsWord(name) && IsWord(column) && kw == "CREATE TABLE" && typ == "INT" && expr == "'--'"
    ensures var s := Opening(kw, Bracketed(name)) +
                     (Bracketed(column) + " " + typ + (" DEFAULT (" + expr + ") NULL")) + ")";
      '\n' !in s && '*' !in s
  {
    BracketedHas(name, '\n');
    BracketedHas(name, '*');
    BracketedHas(column, '\n');
    BracketedHas(column, '*');
    var o, c, d := Opening(kw, Bracketed(name)), Bracketed(column) + " " + typ, " DEFAULT (" + expr + ") NULL";
    assert '\n' !in o && '*' !in o;
    assert '\n' !in c && '*' !in c;
    assert '\n' !in d && '*' !in d;
  }

  /** A column with the default `'--'`, in an honest table: its text is not parsed at all. */
  lemma {:induction false} DashesAreLost(name: string, column: string, typ: string, expr: string)
    requires IsWord(name) && IsWord(column) && typ == "INT" && expr == "'--'"
    ensures var t := WithDefault(name, column, typ, expr);
      DdlOk(t) && AllHonest(t.defs) && NothingEnds(Print(t)) && HasComment(t) && Parse(Print(t)) == None
  {
    var t, kw := WithDefault(name, column, typ, expr), "CREATE TABLE";
    WithDefaultOk(name, column, typ, expr);
    WithDefaultText(name, column, typ, expr, kw);
    PlainOf(kw, name, column, typ, expr);
    NothingEndsIn(Print(t));
    var a := Opening(kw, Bracketed(name)) + (Bracketed(column) + " " + typ + " DEFAULT (");
    assert Print(t) == a + expr + ") NULL)";
    DashesInside(a, expr, ") NULL)");
    assert CommentAt(UpToEnd(t), |a| + 1);
    CommentHidesStatement(t, kw, "CREATE TABL");
  }
}
