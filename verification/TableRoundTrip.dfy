/** Printing a table definition and parsing it gives the definition back, exactly when
    every line of it is honest. */
module TableRoundTrip {
  import opened Text
  import opened TableSchema
  import opened DdlLayout
  import opened TablePrinter
  import opened ConstraintProofs
  import opened ItemProofs
  import SqlComments

  // ---------- the body ----------

  lemma {:induction false} PaddedIsItem(p: Padded)
    requires PaddedOk(p)
    ensures Sheltered(PrintPadded(p)) && Trim(PrintPadded(p)) == PrintDef(p.def)
  {
    PlainItem(p.before);
    PlainItem(p.behind);
    PrintedIsItem(p.def);
    ItemAppend(p.before, PrintDef(p.def));
    ItemAppend(p.before + PrintDef(p.def), p.behind);
    EndsOfPrinted(p.def);
    TrimPadded(p.before, PrintDef(p.def), p.behind);
  }

  lemma {:induction false} AllAreItems(ps: seq<Padded>)
    requires forall i :: 0 <= i < |ps| ==> PaddedOk(ps[i])
    ensures forall i :: 0 <= i < |ps| ==> Sheltered(PrintAll(ps)[i]) && OneItem(PrintAll(ps)[i])
    decreases |ps|
  {
    if ps != [] {
      var front, last := ps[..|ps| - 1], ps[|ps| - 1];
      AllAreItems(front);
      assert PaddedOk(last);
      PaddedIsItem(last);
      ShelteredIsItem(PrintPadded(last));
      assert PrintAll(ps) == PrintAll(front) + [PrintPadded(last)];
    }
  }

  /** What the parser makes of every line. */
  function ReadItems(ps: seq<Padded>): (items: seq<Item>)
    requires forall i :: 0 <= i < |ps| ==> PaddedOk(ps[i])
    ensures |items| == |ps|
    decreases |ps|
  {
    if ps == [] then []
    else
      assert PaddedOk(ps[|ps| - 1]);
      ReadItems(ps[..|ps| - 1]) + [ParseItem(PrintDef(ps[|ps| - 1].def))]
  }

  lemma {:induction false} ParseItemsStep(texts: seq<string>, text: string)
    ensures ParseItems(texts + [text]) == ParseItems(texts) + [ParseItem(text)]
  {
    assert (texts + [text])[..|texts|] == texts;
  }

  lemma {:induction false} ItemsRead(ps: seq<Padded>)
    requires forall i :: 0 <= i < |ps| ==> PaddedOk(ps[i])
    ensures ParseItems(TrimAll(PrintAll(ps))) == ReadItems(ps)
    decreases |ps|
  {
    if ps != [] {
      var front, last := ps[..|ps| - 1], ps[|ps| - 1];
      assert PaddedOk(last);
      PaddedIsItem(last);
      ItemsRead(front);
      TrimAllStep(PrintAll(front), PrintPadded(last));
      ParseItemsStep(TrimAll(PrintAll(front)), PrintDef(last.def));
    }
  }

  lemma {:induction false} BlankItemAddsNothing(t: Table, texts: seq<string>, text: string)
    requires text == []
    ensures AddItems(t, ParseItems(texts + [text])) == AddItems(t, ParseItems(texts))
  {
    ParseItemsStep(texts, text);
    var items := ParseItems(texts);
    TrimTrimmed(text);
    assert ParseItem(text) == OtherItem;
    assert (items + [OtherItem])[..|items|] == items;
  }

  /** Leaving out a last blank item makes no difference to the table. */
  lemma {:induction false} LastBlankDoesNotCount(t: Table, body: string)
    ensures AddItems(t, ParseItems(TopLevelItems(body))) == AddItems(t, ParseItems(TrimAll(Pieces(body, 0))))
  {
    var items := TrimAll(Pieces(body, 0));
    if items != [] && items[|items| - 1] == [] {
      assert items == items[..|items| - 1] + [[]];
      BlankItemAddsNothing(t, items[..|items| - 1], []);
    }
  }

  lemma {:induction false} BodyRead(t: Ddl, empty: Table)
    requires DdlOk(t)
    ensures Balanced(Body(t))
    ensures AddItems(empty, ParseItems(TopLevelItems(Body(t)))) == AddItems(empty, ReadItems(t.defs))
  {
    AllAreItems(t.defs);
    JoinIsBalanced(PrintAll(t.defs));
    PiecesJoin(PrintAll(t.defs));
    LastBlankDoesNotCount(empty, Body(t));
    ItemsRead(t.defs);
  }

  // ---------- tables from items ----------

  predicate SameKinds(a: seq<Item>, b: seq<Item>) {
    |a| == |b| && forall i :: 0 <= i < |a| ==> SameKind(a[i], b[i])
  }

  predicate SameLists(t: Table, u: Table) {
    t.columns == u.columns && t.uniqueKeys == u.uniqueKeys && t.foreignKeys == u.foreignKeys
  }

  lemma {:induction false} SameLast<T>(a: seq<T>, x: T, b: seq<T>, y: T)
    ensures a + [x] == b + [y] <==> a == b && x == y
  {
    if a + [x] == b + [y] {
      assert (a + [x])[..|a|] == a && (b + [y])[..|b|] == b;
      assert (a + [x])[|a|] == x && (b + [y])[|b|] == y;
    }
  }

  lemma {:induction false} OneItemTells(t: Table, u: Table, x: Item, y: Item)
    requires SameKind(x, y)
    ensures SameLists(AddItem(t, x), AddItem(u, y)) ==> SameLists(t, u) && x == y
  {
    if x.ColumnItem? {
      SameLast(t.columns, x.column, u.columns, y.column);
    } else if x.ForeignItem? {
      SameLast(t.foreignKeys, x.key, u.foreignKeys, y.key);
    } else if x.UniqueItem? {
      SameLast(t.uniqueKeys, x.columns, u.uniqueKeys, y.columns);
    }
  }

  /** Items of the same kinds make the same lists only when they are the same items. */
  lemma {:induction false} ListsTell(t: Table, a: seq<Item>, b: seq<Item>)
    requires SameKinds(a, b) && SameLists(AddItems(t, a), AddItems(t, b))
    ensures a == b
    decreases |a|
  {
    if a != [] {
      var n := |a| - 1;
      OneItemTells(AddItems(t, a[..n]), AddItems(t, b[..n]), a[n], b[n]);
      assert forall i :: 0 <= i < n ==> a[..n][i] == a[i] && b[..n][i] == b[i];
      ListsTell(t, a[..n], b[..n]);
      assert a == a[..n] + [a[n]] && b == b[..n] + [b[n]];
    }
  }

  predicate AllHonest(ps: seq<Padded>) {
    forall i :: 0 <= i < |ps| ==> Honest(ps[i].def)
  }

  lemma {:induction false} Extend(a: seq<Item>, x: Item, b: seq<Item>, y: Item, ps: seq<Padded>)
    requires ps != [] && |a| == |b| == |ps| - 1 && ReadAs(ps[|ps| - 1].def, x) && y == ItemOf(ps[|ps| - 1].def)
    requires SameKinds(a, b) && (a == b <==> AllHonest(ps[..|ps| - 1]))
    ensures SameKinds(a + [x], b + [y]) && (a + [x] == b + [y] <==> AllHonest(ps))
  {
    SameLast(a, x, b, y);
    var front := ps[..|ps| - 1];
    assert forall i :: 0 <= i < |front| ==> front[i] == ps[i];
    assert AllHonest(ps) <==> AllHonest(front) && Honest(ps[|ps| - 1].def);
  }

  lemma {:induction false} ItemsCompare(ps: seq<Padded>)
    requires forall i :: 0 <= i < |ps| ==> PaddedOk(ps[i])
    ensures SameKinds(ReadItems(ps), ItemsOf(ps))
    ensures ReadItems(ps) == ItemsOf(ps) <==> AllHonest(ps)
    decreases |ps|
  {
    if ps != [] {
      var front, last := ps[..|ps| - 1], ps[|ps| - 1];
      ItemsCompare(front);
      assert PaddedOk(last);
      PrintedReadsBack(last.def);
      Extend(ReadItems(front), ParseItem(PrintDef(last.def)), ItemsOf(front), ItemOf(last.def), ps);
    }
  }

  // ---------- the statement ----------

  lemma {:induction false} TrimStartKeeps(a: string, rest: string) returns (i: nat)
    requires rest != [] && !IsSpace(rest[0])
    ensures i <= |a| && TrimStart(a + rest) == a[i..] + rest
    decreases |a|
  {
    if a == [] {
      assert a + rest == rest;
      i := 0;
      assert a[0..] + rest == rest;
    } else if IsSpace(a[0]) {
      assert (a + rest)[1..] == a[1..] + rest;
      i := TrimStartKeeps(a[1..], rest);
      assert a[1..][i..] == a[i + 1..];
      i := i + 1;
    } else {
      i := 0;
    }
  }

  lemma {:induction false} TrimEndKeeps(front: string, b: string) returns (j: nat)
    requires front != [] && !IsSpace(front[|front| - 1])
    ensures j <= |b| && TrimEnd(front + b) == front + b[..j]
    decreases |b|
  {
    if b == [] {
      assert front + b == front;
      j := 0;
    } else if IsSpace(b[|b| - 1]) {
      assert (front + b)[..|front + b| - 1] == front + b[..|b| - 1];
      j := TrimEndKeeps(front, b[..|b| - 1]);
      assert b[..|b| - 1][..j] == b[..j];
    } else {
      j := |b|;
    }
  }

  lemma {:induction false} TrimKeepsCore(a: string, core: string, b: string) returns (i: nat, j: nat)
    requires core != [] && Trimmed(core)
    ensures i <= |a| && j <= |b| && Trim(a + core + b) == a[i..] + core + b[..j]
  {
    assert a + core + b == a + (core + b);
    i := TrimStartKeeps(a, core + b);
    assert a[i..] + (core + b) == (a[i..] + core) + b;
    j := TrimEndKeeps(a[i..] + core, b);
  }

  lemma {:induction false} SuffixLacks(x: string, y: string, kw: string)
    requires !Contains(x + y, kw)
    ensures !Contains(y, kw)
  {
    ContainsIs(x + y, kw);
    ContainsIs(y, kw);
    if i :| OccursAt(y, kw, i) {
      OccursBehind(x, y, kw, i);
    }
  }

  lemma {:induction false} StillLacks(before: string, i: nat, short: string, kw: string)
    requires i <= |before| && Upper(short) == short && !Contains(Upper(before + short), kw)
    ensures !Contains(Upper(before[i..]) + short, kw)
  {
    assert before + short == before[..i] + (before[i..] + short);
    UpperAppend(before[..i], before[i..] + short);
    UpperAppend(before[i..], short);
    SuffixLacks(Upper(before[..i]), Upper(before[i..]) + short, kw);
  }

  /** The keywords are found where they are printed, whatever is trimmed off in front. */
  lemma {:induction false} KeywordFound(before: string, i: nat, kw: string, short: string, rest: string)
    requires kw != [] && kw[..|kw| - 1] == short && Upper(kw) == kw && Upper(short) == short
    requires i <= |before| && !Contains(Upper(before + short), kw)
    ensures Find(Upper(before[i..] + (kw + rest)), kw) == Some(|before| - i)
  {
    var a := before[i..];
    StillLacks(before, i, short, kw);
    FirstOccurrence(Upper(a), kw, Upper(rest));
    UpperAppend(a, kw + rest);
    UpperAppend(kw, rest);
    assert Upper(a) + (kw + Upper(rest)) == Upper(a) + kw + Upper(rest);
  }

  lemma {:induction false} CreateFound(before: string, i: nat, kw: string, rest: string)
    requires kw == "CREATE TABLE" && i <= |before| && !Contains(Upper(before + "CREATE TABL"), kw)
    ensures Find(Upper(before[i..] + (kw + rest)), kw) == Some(|before| - i)
  {
    assert kw != [] && kw[..|kw| - 1] == "CREATE TABL" && Upper(kw) == kw && Upper("CREATE TABL") == "CREATE TABL";
    KeywordFound(before, i, kw, "CREATE TABL", rest);
  }

  /** The name and the body of a statement, from behind its keywords on. */
  lemma {:induction false} StatementParts(q: string, body: string, rest: string, tail: string, after: string)
    requires q != [] && q[0] == '[' && '(' !in q && Balanced(body)
    requires tail == " " + (q + " " + Parens(body) + rest) && after == TrimStart(tail)
    ensures
      && IndexOf(after, '(') == Some(|q| + 1) && after[..|q| + 1] == q + " "
      && CloseFrom(after[|q| + 2..], 1) == Some(|body|) && after[|q| + 2..][..|body|] == body
  {
    var found := q + " " + Parens(body) + rest;
    assert found[0] == '[';
    TrimStartBlank(" ", found);
    assert after == (q + " ") + ['('] + (body + [')'] + rest);
    IndexOfAppend(q + " ", '(', body + [')'] + rest);
    assert after[|q| + 2..] == body + [')'] + rest;
    CloseOfBalanced(body, rest);
  }

  function Core(t: Ddl): string
    requires DdlOk(t)
  {
    "CREATE TABLE " + Qualified(t.schema, t.name) + " " + Parens(Body(t))
  }

  lemma {:induction false} DropMarks(marks: string, rest: string)
    requires (forall i :: 0 <= i < |marks| ==> marks[i] == BOM) && (rest == [] || rest[0] != BOM)
    ensures DropFront(marks + rest, BOM) == rest
    decreases |marks|
  {
    if marks == [] {
      assert marks + rest == rest;
    } else {
      assert (marks + rest)[1..] == marks[1..] + rest;
      DropMarks(marks[1..], rest);
    }
  }

  /** What is left of the text once the marks and the outer white space are gone. */
  lemma {:induction false} TextOf(source: string, marks: string, t: Ddl) returns (i: nat, j: nat)
    requires DdlOk(t) && (forall k :: 0 <= k < |marks| ==> marks[k] == BOM)
    requires SqlComments.StripSchema(source, 0) == marks + Print(t)
    ensures i <= |t.before| && j <= |t.behind|
    ensures Trim(DropFront(SqlComments.StripSchema(source, 0), BOM)) == t.before[i..] + Core(t) + t.behind[..j]
  {
    var core := Core(t);
    assert core[0] == 'C' && core[|core| - 1] == ')';
    assert Print(t) == t.before + core + t.behind;
    assert Print(t)[0] == if t.before == [] then 'C' else t.before[0];
    DropMarks(marks, Print(t));
    i, j := TrimKeepsCore(t.before, core, t.behind);
  }

  lemma {:induction false} StatementFound(source: string, text: string, at: nat, kw: string, after: string, open: nat,
                                          end: nat)
    requires kw == "CREATE TABLE"
    requires text == Trim(DropFront(SqlComments.StripSchema(source, 0), BOM))
    requires Find(Upper(text), kw) == Some(at) && at + |kw| <= |text| && after == TrimStart(text[at + |kw|..])
    requires IndexOf(after, '(') == Some(open) && CloseFrom(after[open + 1..], 1) == Some(end)
    ensures Statement(source) == Some((Trim(after[..open]), after[open + 1..][..end]))
  {
  }

  lemma {:induction false} SpaceIsTrimmed(q: string)
    requires Trimmed(q)
    ensures Trim(q + " ") == q
  {
    assert q + " " == [] + q + " ";
    TrimPadded([], q, " ");
  }

  /** Behind the keywords come the name and the body. */
  lemma {:induction false} BehindKeywords(source: string, a: string, kw: string, q: string, body: string, rest: string,
                                           tail: string, text: string)
    requires tail == " " + (q + " " + Parens(body) + rest) && text == a + (kw + tail)
    requires kw == "CREATE TABLE" && q != [] && q[0] == '[' && '(' !in q && Trimmed(q) && Balanced(body)
    requires Trim(DropFront(SqlComments.StripSchema(source, 0), BOM)) == text && Find(Upper(text), kw) == Some(|a|)
    ensures Statement(source) == Some((q, body))
  {
    assert text[|a| + |kw|..] == tail;
    var after := TrimStart(tail);
    StatementParts(q, body, rest, tail, after);
    StatementFound(source, text, |a|, kw, after, |q| + 1, |body|);
    SpaceIsTrimmed(q);
  }

  lemma {:induction false} CoreJoin(a: string, kw: string, q: string, p: string, rest: string)
    ensures a + (kw + " " + q + " " + p) + rest == a + (kw + (" " + (q + " " + p + rest)))
  {
  }

  lemma {:induction false} CoreText(t: Ddl, kw: string)
    requires DdlOk(t) && kw == "CREATE TABLE"
    ensures Core(t) == kw + " " + Qualified(t.schema, t.name) + " " + Parens(Body(t))
  {
    assert "CREATE TABLE " == kw + " ";
  }

  lemma {:induction false} StatementReadsWith(source: string, marks: string, t: Ddl, kw: string)
    requires DdlOk(t) && (forall k :: 0 <= k < |marks| ==> marks[k] == BOM) && kw == "CREATE TABLE"
    requires SqlComments.StripSchema(source, 0) == marks + Print(t)
    ensures Statement(source) == Some((Qualified(t.schema, t.name), Body(t)))
  {
    var q, body := Qualified(t.schema, t.name), Body(t);
    var i, j := TextOf(source, marks, t);
    var a, rest := t.before[i..], t.behind[..j];
    var tail := " " + (q + " " + Parens(body) + rest);
    var text := a + (kw + tail);
    CoreText(t, kw);
    CoreJoin(a, kw, q, Parens(body), rest);
    CreateFound(t.before, i, kw, tail);
    QualifiedIsPlain(t.schema, t.name);
    QualifiedIsTrimmed(t.schema, t.name);
    BodyRead(t, Table(None, "", [], [], [], []));
    BehindKeywords(source, a, kw, q, body, rest, tail, text);
  }

  /** The statement that is found is the printed one. */
  lemma {:induction false} StatementReads(source: string, marks: string, t: Ddl)
    requires DdlOk(t) && (forall k :: 0 <= k < |marks| ==> marks[k] == BOM)
    requires SqlComments.StripSchema(source, 0) == marks + Print(t)
    ensures Statement(source) == Some((Qualified(t.schema, t.name), Body(t)))
  {
    StatementReadsWith(source, marks, t, "CREATE TABLE");
  }

  // ---------- the round trip ----------

  /** A statement that is printed in the documented shape, with any comments and white space around
      its lines, is parsed back to the table it defines exactly when every line is honest. */
  lemma {:induction false} ParsesBackExactly(source: string, marks: string, t: Ddl)
    requires DdlOk(t) && (forall k :: 0 <= k < |marks| ==> marks[k] == BOM)
    requires SqlComments.StripSchema(source, 0) == marks + Print(t)
    ensures Parse(source) == Some(TableOf(t)) <==> AllHonest(t.defs)
  {
    var empty := Table(t.schema, t.name, [], [], [], []);
    StatementReads(source, marks, t);
    QualifiedReads(t.schema, t.name);
    BodyRead(t, empty);
    ItemsCompare(t.defs);
    if AddItems(empty, ReadItems(t.defs)) == AddItems(empty, ItemsOf(t.defs)) {
      ListsTell(empty, ReadItems(t.defs), ItemsOf(t.defs));
    }
  }
}
