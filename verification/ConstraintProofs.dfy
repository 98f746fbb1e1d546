/** Printed keys and constraints are read back, foreign keys exactly when their column
    does not say REFERENCES. */
module ConstraintProofs {
  import opened Text
  import opened TableSchema
  import opened DdlLayout
  import opened TablePrinter

  // ---------- names of constraints ----------

  lemma {:induction false} SkipPreamble(constraint: Option<string>, rest: string, kw: string)
    requires OptionalWord(constraint) && kw == "CONSTRAINT"
    requires rest != [] && !IsSpace(rest[0]) && !StartsWith(Upper(rest), kw)
    ensures SkipConstraintName(Preamble(constraint) + rest) == rest
  {
    if constraint.None? {
      assert Preamble(constraint) + rest == rest;
    } else {
      SkipNameWith(constraint.value, rest, kw);
    }
  }

  lemma {:induction false} NameCloses(name: string, rest: string, text: string)
    requires IsWord(name) && text == Bracketed(name) + rest
    ensures text != [] && text[0] == '[' && IndexOf(text[1..], ']') == Some(|name|)
    ensures |name| + 2 <= |text| && text[|name| + 2..] == rest
  {
    assert text[1..] == name + [']'] + rest;
    IndexOfAppend(name, ']', rest);
  }

  lemma {:induction false} SkipNameWith(name: string, rest: string, kw: string)
    requires IsWord(name) && kw == "CONSTRAINT" && rest != [] && !IsSpace(rest[0])
    ensures SkipConstraintName(Preamble(Some(name)) + rest) == rest
    ensures StartsWith(Upper(Preamble(Some(name)) + rest), kw)
  {
    var s := Preamble(Some(name)) + rest;
    var after := Bracketed(name) + (" " + rest);
    assert s == kw + (" " + after);
    UpperAppend(kw, " " + after);
    assert Upper(kw) == kw;
    FindAtStart(kw, Upper(" " + after));
    assert s[|kw|..] == " " + after;
    NameCloses(name, " " + rest, after);
    TrimStartBlank(" ", after);
    TrimStartBlank(" ", rest);
  }

  /** The name of a constraint is skipped, and nothing else. */
  lemma {:induction false} SkipName(name: string, rest: string)
    requires IsWord(name) && rest != [] && !IsSpace(rest[0])
    ensures SkipConstraintName(Preamble(Some(name)) + rest) == rest
  {
    SkipNameWith(name, rest, "CONSTRAINT");
  }

  // ---------- column lists ----------

  lemma {:induction false} ListedTrims(c: Listed)
    requires ListedOk(c)
    ensures Trim(ListedText(c)) == Bracketed(c.name) + c.order
  {
    var core := Bracketed(c.name) + c.order;
    assert core[0] == '[';
    assert core[|core| - 1] == if c.order == [] then ']' else c.order[|c.order| - 1];
    assert ListedText(c) == c.pad + core + [];
    TrimPadded(c.pad, core, []);
  }

  lemma {:induction false} ListedReads(c: Listed)
    requires ListedOk(c)
    ensures ListedName(ListedText(c)) == c.name
  {
    ListedTrims(c);
    WordEndAppend(Bracketed(c.name), c.order);
    UnbracketWord(c.name);
  }

  lemma {:induction false} ListedAllRead(cs: seq<Listed>)
    requires forall i :: 0 <= i < |cs| ==> ListedOk(cs[i])
    ensures ListedNames(ListedTexts(cs)) == NamesOf(cs)
    ensures forall i :: 0 <= i < |cs| ==> ',' !in ListedTexts(cs)[i] && ')' !in ListedTexts(cs)[i]
    decreases |cs|
  {
    if cs != [] {
      ListedReads(cs[0]);
      assert ',' !in ListedText(cs[0]) && ')' !in ListedText(cs[0]) by {
        BracketedHas(cs[0].name, ',');
        BracketedHas(cs[0].name, ')');
      }
      assert IsWord(cs[0].name);
      ListedAllRead(cs[1..]);
      assert ListedTexts(cs)[1..] == ListedTexts(cs[1..]);
    }
  }

  lemma {:induction false} JoinLacks(ts: seq<string>, c: char)
    requires |ts| >= 1 && c != ',' && forall i :: 0 <= i < |ts| ==> c !in ts[i]
    ensures c !in Join(ts, ',')
    decreases |ts|
  {
    if |ts| > 1 {
      JoinLacks(ts[1..], c);
    }
  }

  lemma {:induction false} JoinStarts(ps: seq<string>, sep: char)
    requires ps != [] && ps[0] != []
    ensures Join(ps, sep) != [] && Join(ps, sep)[0] == ps[0][0]
  {
  }

  lemma {:induction false} ListStarts(cs: seq<Listed>)
    requires ListedAllOk(cs)
    ensures ListText(cs) != [] && ListText(cs)[0] == '['
  {
    var texts := ListedTexts(cs);
    assert texts[0] == Bracketed(cs[0].name) + cs[0].order;
    JoinStarts(texts, ',');
  }

  lemma {:induction false} ListReads(cs: seq<Listed>)
    requires ListedAllOk(cs)
    ensures ListedNames(Split(ListText(cs), ',')) == NamesOf(cs) && ')' !in ListText(cs) && NamesOf(cs) != []
  {
    ListedAllRead(cs);
    SplitJoin(ListedTexts(cs), ',');
    JoinLacks(ListedTexts(cs), ')');
  }

  /** A keyword, words, and a list in parentheses. */
  lemma {:induction false} ListAfterKeyword(kw: string, words: string, list: string)
    requires Upper(kw) == kw && '(' !in words && ')' !in list && list != [] && !IsSpace(list[0])
    ensures ColumnListAfter(kw + (words + " " + Parens(list)), kw) ==
            if ListedNames(Split(list, ',')) == [] then None else Some(ListedNames(Split(list, ',')))
  {
    var tail := words + " " + Parens(list);
    UpperAppend(kw, tail);
    FindAtStart(kw, Upper(tail));
    assert (kw + tail)[|kw|..] == tail;
    assert tail == (words + " ") + ['('] + (list + [')']);
    IndexOfAppend(words + " ", '(', list + [')']);
    assert tail[|words| + 2..] == list + [')'];
    TrimStartBlank([], list + [')']);
    assert [] + (list + [')']) == list + [')'] == list + [')'] + [];
    IndexOfAppend(list, ')', []);
    assert (list + [')'])[..|list|] == list;
  }

  lemma {:induction false} ClusteringIsPlain(s: string)
    requires ClusteringOk(s)
    ensures '(' !in s && ')' !in s && ',' !in s
  {
  }

  lemma {:induction false} KeyListReads(kw: string, clustering: string, cs: seq<Listed>)
    requires Upper(kw) == kw && ClusteringOk(clustering) && ListedAllOk(cs)
    ensures ColumnListAfter(kw + (clustering + " " + Parens(ListText(cs))), kw) == Some(NamesOf(cs))
  {
    ListReads(cs);
    ListStarts(cs);
    ClusteringIsPlain(clustering);
    ListAfterKeyword(kw, clustering, ListText(cs));
  }

  // ---------- qualified names ----------

  lemma {:induction false} TrimBracketed(name: string)
    requires IsWord(name)
    ensures Unbracket(Trim(Bracketed(name))) == name && Trimmed(Bracketed(name)) && '.' !in Bracketed(name)
  {
    TrimTrimmed(Bracketed(name));
    UnbracketWord(name);
  }

  lemma {:induction false} CleanOne(p: string)
    ensures CleanAll([p]) == [Unbracket(Trim(p))]
  {
    assert [p][1..] == [];
  }

  lemma {:induction false} OneName(q: string)
    requires '.' !in q && Trimmed(q)
    ensures ParseQualifiedName(q) == (None, Unbracket(Trim(q)))
  {
    TrimTrimmed(q);
    assert q == Join([q], '.');
    SplitJoin([q], '.');
    CleanOne(q);
  }

  lemma {:induction false} TwoNames(p: string, r: string)
    requires '.' !in p && '.' !in r && Trimmed(p + "." + r)
    ensures ParseQualifiedName(p + "." + r) == (Some(Unbracket(Trim(p))), Unbracket(Trim(r)))
  {
    TrimTrimmed(p + "." + r);
    assert Join([p, r], '.') == p + "." + r by {
      assert [p, r][1..] == [r];
    }
    SplitJoin([p, r], '.');
    assert CleanAll([p, r]) == [Unbracket(Trim(p)), Unbracket(Trim(r))] by {
      assert [p, r][1..] == [r];
      CleanOne(r);
    }
  }

  lemma {:induction false} QualifiedIsTrimmed(schema: Option<string>, name: string)
    ensures Trimmed(Qualified(schema, name))
  {
    var q := Qualified(schema, name);
    assert q[0] == '[' && q[|q| - 1] == ']';
  }

  lemma {:induction false} QualifiedReads(schema: Option<string>, name: string)
    requires OptionalWord(schema) && IsWord(name)
    ensures ParseQualifiedName(Qualified(schema, name)) == (schema, name)
  {
    QualifiedIsTrimmed(schema, name);
    TrimBracketed(name);
    if schema.None? {
      assert Qualified(schema, name) == Bracketed(name);
      OneName(Bracketed(name));
    } else {
      TrimBracketed(schema.value);
      TwoNames(Bracketed(schema.value), Bracketed(name));
    }
  }

  // ---------- foreign keys ----------

  lemma {:induction false} FirstParensReads(before: string, inside: string, behind: string)
    requires '(' !in before && ')' !in inside
    ensures FirstParens(before + Parens(inside) + behind) == Some(inside)
    ensures IndexOf(before + Parens(inside) + behind, '(') == Some(|before|)
  {
    var s := before + Parens(inside) + behind;
    assert s == before + ['('] + (inside + [')'] + behind);
    IndexOfAppend(before, '(', inside + [')'] + behind);
    var rest := s[|before| + 1..];
    assert rest == inside + [')'] + behind;
    IndexOfAppend(inside, ')', behind);
    assert rest[..|inside|] == inside;
  }

  lemma {:induction false} OccursEarlier(a: string, kw: string, b: string, j: nat)
    requires kw != [] && j < |a| && OccursAt(a + kw + b, kw, j)
    ensures OccursAt(a + kw[..|kw| - 1], kw, j)
  {
    var s, front := a + kw + b, a + kw[..|kw| - 1];
    assert s[0..|front|] == front;
    SliceOfSlice(s, 0, |front|, j, j + |kw|);
  }

  /** The leftmost occurrence, when the text up to all but the end of it has none. */
  lemma {:induction false} FirstOccurrence(a: string, kw: string, b: string)
    requires kw != [] && !Contains(a + kw[..|kw| - 1], kw)
    ensures Find(a + kw + b, kw) == Some(|a|)
  {
    var s := a + kw + b;
    ContainsIs(a + kw[..|kw| - 1], kw);
    forall j | 0 <= j < |a| ensures !OccursAt(s, kw, j) {
      if OccursAt(s, kw, j) {
        OccursEarlier(a, kw, b, j);
      }
    }
    assert s[|a|..|a| + |kw|] == kw;
    FindIs(s, kw, |a|);
  }

  // A line `keyword ([column]) refs tail`, whatever the two keywords are.

  function Head(h: string, column: string): string {
    h + Parens(Bracketed(column)) + " "
  }

  function Line(h: string, column: string, refs: string, tail: string): string {
    Head(h, column) + refs + tail
  }

  /** What the second keyword has to be for the search to be about the column's name alone. */
  predicate KeywordsOk(h: string, refs: string) {
    && refs != [] && Upper(refs) == refs && Upper(h) == h && '(' !in h
    && '(' !in refs && ')' !in refs && '[' !in refs && ']' !in refs && '.' !in refs
    && !Contains(h, refs) && !Contains(" " + refs[..|refs| - 1], refs)
  }

  lemma {:induction false} HeadParts(a: string, u: string, b: string, kw: string)
    requires '(' !in kw && ')' !in kw && '[' !in kw && ']' !in kw && kw != []
    requires !Contains(a, kw) && !Contains(b, kw)
    ensures Contains(a + ['('] + ([] + ['['] + (u + [']'] + ([] + [')'] + b))), kw) <==> Contains(u, kw)
  {
    ContainsApart(a, '(', [] + ['['] + (u + [']'] + ([] + [')'] + b)), kw);
    ContainsApart([], '[', u + [']'] + ([] + [')'] + b), kw);
    ContainsApart(u, ']', [] + [')'] + b, kw);
    ContainsApart([], ')', b, kw);
    ContainsNeeds([], kw, kw[0]);
  }

  lemma {:induction false} Regroup(a: string, u: string, c: string, d: string)
    ensures (a + ['('] + ([] + ['['] + (u + [']'] + ([] + [')'] + c)))) + d ==
            a + ['('] + ([] + ['['] + (u + [']'] + ([] + [')'] + (c + d))))
  {
  }

  /** What is behind the first keyword. */
  function Rest(column: string, refs: string, tail: string): string {
    " " + Parens(Bracketed(column)) + (" " + refs + tail)
  }

  lemma {:induction false} LineRest(keyword: string, h: string, column: string, refs: string, tail: string)
    requires h == keyword + " "
    ensures Line(h, column, refs, tail) == keyword + Rest(column, refs, tail)
    ensures var s := Line(h, column, refs, tail); |keyword| <= |s| && s[|keyword|..] == Rest(column, refs, tail)
  {
    assert Line(h, column, refs, tail) == keyword + Rest(column, refs, tail);
  }

  lemma {:induction false} LineStarts(keyword: string, h: string, column: string, refs: string, tail: string)
    requires h == keyword + " " && Upper(keyword) == keyword
    ensures Find(Upper(Line(h, column, refs, tail)), keyword) == Some(0)
  {
    var rest := Rest(column, refs, tail);
    LineRest(keyword, h, column, refs, tail);
    UpperAppend(keyword, rest);
    FindAtStart(keyword, Upper(rest));
  }

  lemma {:induction false} RestStarts(column: string, refs: string, tail: string)
    requires IsWord(column)
    ensures FirstParens(Rest(column, refs, tail)) == Some(Bracketed(column))
  {
    FirstParensReads(" ", Bracketed(column), " " + refs + tail);
  }

  lemma {:induction false} FoundAt(s: string, keyword: string, refs: string, at: nat, end: nat)
    requires Find(Upper(s), keyword) == Some(0) && Find(Upper(s), refs) == Some(at) && end == at + |refs|
    ensures KeywordEnds(s, keyword, refs) == Some((|keyword|, Some(end)))
  {
    assert Upper(s)[0..] == Upper(s);
  }

  /** Where the two keywords are decides what is read. */
  lemma {:induction false} ReadAt(s: string, keyword: string, refs: string, end: nat, refsEnd: nat)
    requires KeywordEnds(s, keyword, refs) == Some((end, Some(refsEnd)))
    ensures end <= |s| && refsEnd <= |s|
    ensures ParseForeignWith(s, keyword, refs) == ForeignAfter(s[end..], Some(s[refsEnd..]))
  {
  }

  lemma {:induction false} SecondKeyword(h: string, column: string, refs: string, tail: string)
    requires KeywordsOk(h, refs) && !Contains(Upper(column), refs)
    ensures Find(Upper(Line(h, column, refs, tail)), refs) == Some(|Head(h, column)|)
    ensures Line(h, column, refs, tail)[|Head(h, column)| + |refs|..] == tail
  {
    var front := refs[..|refs| - 1];
    assert Upper(Line(h, column, refs, tail)) == Upper(Head(h, column)) + refs + Upper(tail) by {
      UpperAppend(Head(h, column) + refs, tail);
      UpperAppend(Head(h, column), refs);
    }
    assert Upper(Head(h, column)) == h + ['('] + ([] + ['['] + (Upper(column) + [']'] + ([] + [')'] + " "))) by {
      assert Head(h, column) == h + (Parens(Bracketed(column)) + " ");
      UpperAppend(h, Parens(Bracketed(column)) + " ");
      var inner := ['('] + (['['] + Upper(column) + [']']) + [')'] + " ";
      assert Upper(Parens(Bracketed(column)) + " ") == inner;
      assert h + inner == h + ['('] + ([] + ['['] + (Upper(column) + [']'] + ([] + [')'] + " ")));
    }
    Regroup(h, Upper(column), " ", front);
    HeadParts(h, Upper(column), " " + front, refs);
    FirstOccurrence(Upper(Head(h, column)), refs, Upper(tail));
  }

  lemma {:induction false} ForeignEnds(column: string, text: string, before: string, refColumn: string)
    requires IsWord(column) && IsWord(refColumn)
    requires TrimStart(text) == before + " " + Parens(Bracketed(refColumn))
    requires '(' !in before && Trimmed(before)
    ensures ForeignFrom(Bracketed(column), text) ==
            Some(ForeignKey(column, ParseQualifiedName(before).0, ParseQualifiedName(before).1, refColumn))
  {
    AfterReferences(before, refColumn);
    TrimBracketed(column);
    TrimBracketed(refColumn);
  }

  lemma {:induction false} AfterReferences(before: string, refColumn: string)
    requires '(' !in before && Trimmed(before) && IsWord(refColumn)
    ensures var a := before + " " + Parens(Bracketed(refColumn));
      FirstParens(a) == Some(Bracketed(refColumn)) && IndexOf(a, '(') == Some(|before| + 1) &&
        Trim(a[..|before| + 1]) == before
  {
    var a := before + " " + Parens(Bracketed(refColumn));
    assert a == (before + " ") + Parens(Bracketed(refColumn)) + [];
    FirstParensReads(before + " ", Bracketed(refColumn), []);
    assert a[..|before| + 1] == [] + before + " ";
    TrimPadded([], before, " ");
  }

  lemma {:induction false} QualifiedIsPlain(schema: Option<string>, name: string)
    requires OptionalWord(schema) && IsWord(name)
    ensures '(' !in Qualified(schema, name) && Qualified(schema, name)[0] == '['
  {
    BracketedHas(name, '(');
    if schema.Some? {
      BracketedHas(schema.value, '(');
    }
  }

  function Tail(schema: Option<string>, name: string, refColumn: string): string {
    " " + (Qualified(schema, name) + " " + Parens(Bracketed(refColumn)))
  }

  /** The text behind the right keyword. */
  lemma {:induction false} HonestEnds(column: string, refs: string, schema: Option<string>, name: string,
                                      refColumn: string, tail: string)
    requires IsWord(column) && OptionalWord(schema) && IsWord(name) && IsWord(refColumn)
    ensures ForeignAfter(Rest(column, refs, tail), Some(Tail(schema, name, refColumn))) ==
            Some(ForeignKey(column, schema, name, refColumn))
  {
    var q := Qualified(schema, name);
    RestStarts(column, refs, tail);
    QualifiedReads(schema, name);
    QualifiedIsTrimmed(schema, name);
    QualifiedIsPlain(schema, name);
    TrimStartBlank(" ", q + " " + Parens(Bracketed(refColumn)));
    ForeignEnds(column, Tail(schema, name, refColumn), q, refColumn);
  }

  // A column whose name has the second keyword in it.

  lemma {:induction false} TrimKeeps(x: string, c: char)
    requires c in x && !IsSpace(c)
    ensures c in TrimStart(x) && c in TrimEnd(x)
    decreases |x|
  {
    if IsSpace(x[0]) {
      assert x == [x[0]] + x[1..];
      TrimKeeps(x[1..], c);
    }
    if IsSpace(x[|x| - 1]) {
      assert x == x[..|x| - 1] + [x[|x| - 1]];
      TrimKeeps(x[..|x| - 1], c);
    }
  }

  lemma {:induction false} DropKeeps(x: string, c: char, d: char)
    requires c in x && c != d
    ensures c in DropFront(x, d) && c in DropBack(x, d)
    decreases |x|
  {
    if x[0] == d {
      assert x == [x[0]] + x[1..];
      DropKeeps(x[1..], c, d);
    }
    if x[|x| - 1] == d {
      assert x == x[..|x| - 1] + [x[|x| - 1]];
      DropKeeps(x[..|x| - 1], c, d);
    }
  }

  lemma {:induction false} CloseStays(x: string)
    requires ')' in x
    ensures ')' in Unbracket(Trim(x))
  {
    TrimKeeps(x, ')');
    TrimKeeps(TrimStart(x), ')');
    DropKeeps(Trim(x), ')', '[');
    DropKeeps(DropFront(Trim(x), '['), ')', ']');
  }

  /** A name that begins too early takes the closing parenthesis of the column along. */
  lemma {:induction false} EarlyName(w: string, schema: Option<string>, name: string)
    requires OptionalWord(schema) && IsWord(name) && '.' !in w && ')' in w
    requires Trimmed(w + Qualified(schema, name))
    ensures ParseQualifiedName(w + Qualified(schema, name)) != (schema, name)
  {
    TrimBracketed(name);
    if schema.None? {
      var q := w + Bracketed(name);
      assert w + Qualified(schema, name) == q;
      OneName(q);
      CloseStays(q);
    } else {
      var p := w + Bracketed(schema.value);
      TrimBracketed(schema.value);
      assert w + Qualified(schema, name) == p + "." + Bracketed(name);
      TwoNames(p, Bracketed(name));
      CloseStays(p);
    }
  }

  lemma {:induction false} OccursInFull(u: string, kw: string, k: nat, j: int)
    requires kw != [] && OccursAt(u, kw, k) && OccursAt(u[..k] + kw[..|kw| - 1], kw, j)
    ensures OccursAt(u, kw, j) && j < k
  {
    var front := u[..k] + kw[..|kw| - 1];
    assert u[k..k + |kw|] == kw;
    assert front == u[..k + |kw| - 1];
    assert u[j..j + |kw|] == front[j..j + |kw|];
  }

  lemma {:induction false} BeforeFirst(u: string, kw: string, k: nat)
    requires kw != [] && Find(u, kw) == Some(k)
    ensures !Contains(u[..k] + kw[..|kw| - 1], kw)
  {
    var front := u[..k] + kw[..|kw| - 1];
    ContainsIs(front, kw);
    if j :| OccursAt(front, kw, j) {
      OccursInFull(u, kw, k, j);
    }
  }

  lemma {:induction false} EarlyFront(h: string, front: string, refs: string)
    requires KeywordsOk(h, refs) && !Contains(front, refs)
    ensures !Contains(h + ['('] + ([] + ['['] + front), refs)
  {
    ContainsApart(h, '(', [] + ['['] + front, refs);
    ContainsApart([], '[', front, refs);
    ContainsNeeds([], refs, refs[0]);
  }

  lemma {:induction false} EarlyShape(h: string, u: string, refs: string, k: nat, behind: string)
    requires refs != [] && OccursAt(u, refs, k)
    ensures var a := h + "([" + u[..k];
      && h + "([" + u + behind == a + refs + (u[k + |refs|..] + behind)
      && a + refs[..|refs| - 1] == h + ['('] + ([] + ['['] + (u[..k] + refs[..|refs| - 1]))
  {
    assert u == u[..k] + refs + u[k + |refs|..];
  }

  lemma {:induction false} EarlyKeyword(h: string, u: string, refs: string, k: nat, behind: string)
    requires KeywordsOk(h, refs) && Find(u, refs) == Some(k)
    ensures Find(h + "([" + u + behind, refs) == Some(|h| + 2 + k)
  {
    BeforeFirst(u, refs, k);
    EarlyFront(h, u[..k] + refs[..|refs| - 1], refs);
    EarlyShape(h, u, refs, k, behind);
    FirstOccurrence(h + "([" + u[..k], refs, u[k + |refs|..] + behind);
  }

  lemma {:induction false} LineShape(h: string, column: string, refs: string, tail: string)
    ensures Line(h, column, refs, tail) == h + "([" + column + ("]) " + refs + tail)
  {
  }

  lemma {:induction false} DropInto(h: string, column: string, behind: string, i: nat)
    requires i <= |column|
    ensures (h + "([" + column + behind)[|h| + 2 + i..] == column[i..] + behind
  {
    assert column == column[..i] + column[i..];
    assert h + "([" + column + behind == (h + "([" + column[..i]) + (column[i..] + behind);
  }

  lemma {:induction false} EarlyFacts(column: string, i: nat, refs: string, schema: Option<string>, name: string)
    requires IsWord(column) && i <= |column| && '(' !in refs && '.' !in refs && OptionalWord(schema) && IsWord(name)
    ensures var w := column[i..] + "]) " + refs + " ";
      && '.' !in w && ')' in w && (w[0] == ']' || IsWordChar(w[0]))
      && '(' !in w + Qualified(schema, name) && Trimmed(w + Qualified(schema, name))
  {
    var w, q := column[i..] + "]) " + refs + " ", Qualified(schema, name);
    QualifiedIsPlain(schema, name);
    assert w[|column| - i + 1] == ')';
    assert q[|q| - 1] == ']' && (w + q)[|w + q| - 1] == q[|q| - 1];
    assert (w + q)[0] == w[0];
  }

  lemma {:induction false} EarlyFind(h: string, column: string, refs: string, tail: string, k: nat, at: nat)
    requires KeywordsOk(h, refs) && Find(Upper(column), refs) == Some(k) && at == |h| + 2 + k
    ensures Find(Upper(Line(h, column, refs, tail)), refs) == Some(at)
  {
    var behind := "]) " + refs + tail;
    LineShape(h, column, refs, tail);
    assert Upper(h + "([" + column + behind) == h + "([" + Upper(column) + Upper(behind) by {
      UpperAppend(h + "([" + column, behind);
      UpperAppend(h + "([", column);
      UpperAppend(h, "([");
      assert Upper("([") == "([";
    }
    EarlyKeyword(h, Upper(column), refs, k, Upper(behind));
  }

  lemma {:induction false} EarlySlice(h: string, column: string, refs: string, tail: string, i: nat, end: nat,
                                      after: string)
    requires i <= |column| && end == |h| + 2 + i && after == column[i..] + ("]) " + refs + tail)
    ensures var s := Line(h, column, refs, tail); end <= |s| && s[end..] == after
  {
    LineShape(h, column, refs, tail);
    DropInto(h, column, "]) " + refs + tail, i);
  }

  /** The text behind a keyword inside the column's name. */
  lemma {:induction false} EarlyEnds(column: string, i: nat, refs: string, schema: Option<string>, name: string,
                                     refColumn: string, tail: string)
    requires IsWord(column) && i <= |column| && '(' !in refs && '.' !in refs
    requires OptionalWord(schema) && IsWord(name) && IsWord(refColumn)
    ensures var r := ForeignAfter(Rest(column, refs, tail),
            Some(column[i..] + ("]) " + refs + Tail(schema, name, refColumn))));
      r.Some? && (r.value.refSchema, r.value.refTable) != (schema, name)
  {
    var c := column[i..];
    var w := c + "]) " + refs + " ";
    RestStarts(column, refs, tail);
    EarlyFacts(column, i, refs, schema, name);
    EarlyRest(c, refs, schema, name, refColumn);
    ForeignEnds(column, c + ("]) " + refs + Tail(schema, name, refColumn)), w + Qualified(schema, name), refColumn);
    EarlyName(w, schema, name);
  }

  lemma {:induction false} EarlyRest(c: string, refs: string, schema: Option<string>, name: string, refColumn: string)
    requires c == [] || !IsSpace(c[0])
    ensures TrimStart(c + ("]) " + refs + Tail(schema, name, refColumn))) ==
            (c + "]) " + refs + " " + Qualified(schema, name)) + " " + Parens(Bracketed(refColumn))
  {
    var rest := c + ("]) " + refs + Tail(schema, name, refColumn));
    assert rest[0] == if c == [] then ']' else c[0];
    TrimStartBlank([], rest);
    assert [] + rest == rest;
  }

  // ---------- the keywords of the language ----------

  lemma {:induction false} ForeignWord(keyword: string)
    requires keyword == "FOREIGN KEY"
    ensures Upper(keyword) == keyword && 'S' !in keyword + " " && '(' !in keyword + " "
    ensures Upper(keyword + " ") == keyword + " "
  {
    UpperAppend(keyword, " ");
  }

  lemma {:induction false} RefsWord(refs: string)
    requires refs == "REFERENCES"
    ensures refs != [] && Upper(refs) == refs && 'S' in refs && 'S' !in " " + refs[..|refs| - 1]
    ensures '(' !in refs && ')' !in refs && '[' !in refs && ']' !in refs && '.' !in refs
  {
    assert refs[9] == 'S';
    assert refs[..9] == "REFERENCE";
  }

  lemma {:induction false} ForeignKeywords(keyword: string, refs: string)
    requires keyword == "FOREIGN KEY" && refs == "REFERENCES"
    ensures KeywordsOk(keyword + " ", refs) && Upper(keyword) == keyword
  {
    ForeignWord(keyword);
    RefsWord(refs);
    ContainsNeeds(keyword + " ", refs, 'S');
    ContainsNeeds(" " + refs[..|refs| - 1], refs, 'S');
  }

  lemma {:induction false} ForeignLine(d: Def, keyword: string, refs: string)
    requires d.ForeignDef? && keyword == "FOREIGN KEY" && refs == "REFERENCES"
    ensures ConstraintText(d) == Line(keyword + " ", d.column, refs, Tail(d.refSchema, d.refTable, d.refColumn))
  {
    assert "FOREIGN KEY " == keyword + " " && " REFERENCES " == " " + refs + " ";
  }

  lemma {:induction false} EarlyFound(keyword: string, h: string, column: string, refs: string, tail: string,
                                       k: nat, at: nat, end: nat)
    requires h == keyword + " " && KeywordsOk(h, refs) && Upper(keyword) == keyword
    requires Find(Upper(column), refs) == Some(k) && at == |h| + 2 + k && end == at + |refs|
    ensures KeywordEnds(Line(h, column, refs, tail), keyword, refs) == Some((|keyword|, Some(end)))
  {
    LineStarts(keyword, h, column, refs, tail);
    EarlyFind(h, column, refs, tail, k, at);
    FoundAt(Line(h, column, refs, tail), keyword, refs, at, end);
  }

  lemma {:induction false} HonestFound(keyword: string, h: string, column: string, refs: string, tail: string)
    requires h == keyword + " " && KeywordsOk(h, refs) && Upper(keyword) == keyword
    requires !Contains(Upper(column), refs)
    ensures KeywordEnds(Line(h, column, refs, tail), keyword, refs) ==
            Some((|keyword|, Some(|Head(h, column)| + |refs|)))
    ensures Line(h, column, refs, tail)[|Head(h, column)| + |refs|..] == tail
  {
    LineStarts(keyword, h, column, refs, tail);
    SecondKeyword(h, column, refs, tail);
    FoundAt(Line(h, column, refs, tail), keyword, refs, |Head(h, column)|, |Head(h, column)| + |refs|);
  }

  lemma {:induction false} EarlyInside(column: string, refs: string, k: nat)
    requires Find(Upper(column), refs) == Some(k)
    ensures k + |refs| <= |column|
  {
  }

  /** A line is read as far as its two keywords have been found. */
  lemma {:induction false} ReadLine(s: string, keyword: string, refs: string, end: nat, rest: string, after: string)
    requires KeywordEnds(s, keyword, refs) == Some((|keyword|, Some(end)))
    requires |keyword| <= |s| && s[|keyword|..] == rest && end <= |s| && s[end..] == after
    ensures ParseForeignWith(s, keyword, refs) == ForeignAfter(rest, Some(after))
  {
    ReadAt(s, keyword, refs, |keyword|, end);
  }

  lemma {:induction false} EarlyLine(keyword: string, h: string, column: string, refs: string, tail: string, k: nat,
                                     after: string)
    requires h == keyword + " " && KeywordsOk(h, refs) && Upper(keyword) == keyword
    requires Find(Upper(column), refs) == Some(k) && k + |refs| <= |column|
    requires after == column[k + |refs|..] + ("]) " + refs + tail)
    ensures ParseForeignWith(Line(h, column, refs, tail), keyword, refs) ==
            ForeignAfter(Rest(column, refs, tail), Some(after))
  {
    var at := |h| + 2 + k;
    var end := at + |refs|;
    LineRest(keyword, h, column, refs, tail);
    EarlyFound(keyword, h, column, refs, tail, k, at, end);
    EarlySlice(h, column, refs, tail, k + |refs|, end, after);
    ReadLine(Line(h, column, refs, tail), keyword, refs, end, Rest(column, refs, tail), after);
  }

  lemma {:induction false} HonestLine(keyword: string, h: string, column: string, refs: string, tail: string)
    requires h == keyword + " " && KeywordsOk(h, refs) && Upper(keyword) == keyword
    requires !Contains(Upper(column), refs)
    ensures ParseForeignWith(Line(h, column, refs, tail), keyword, refs) ==
            ForeignAfter(Rest(column, refs, tail), Some(tail))
  {
    LineRest(keyword, h, column, refs, tail);
    HonestFound(keyword, h, column, refs, tail);
    ReadLine(Line(h, column, refs, tail), keyword, refs, |Head(h, column)| + |refs|, Rest(column, refs, tail), tail);
  }

  lemma {:induction false} ForeignReadsWith(d: Def, keyword: string, refs: string)
    requires d.ForeignDef? && DefOk(d) && keyword == "FOREIGN KEY" && refs == "REFERENCES"
    ensures ParseForeignWith(ConstraintText(d), keyword, refs).Some?
    ensures ParseForeignWith(ConstraintText(d), keyword, refs) ==
            Some(ForeignKey(d.column, d.refSchema, d.refTable, d.refColumn)) <==>
            !Contains(Upper(d.column), refs)
  {
    var h, tail := keyword + " ", Tail(d.refSchema, d.refTable, d.refColumn);
    ForeignKeywords(keyword, refs);
    ForeignLine(d, keyword, refs);
    if Contains(Upper(d.column), refs) {
      var k := Find(Upper(d.column), refs).value;
      EarlyInside(d.column, refs, k);
      EarlyLine(keyword, h, d.column, refs, tail, k, d.column[k + |refs|..] + ("]) " + refs + tail));
      EarlyEnds(d.column, k + |refs|, refs, d.refSchema, d.refTable, d.refColumn, tail);
    } else {
      HonestLine(keyword, h, d.column, refs, tail);
      HonestEnds(d.column, refs, d.refSchema, d.refTable, d.refColumn, tail);
    }
  }

  /** A printed foreign key is read back exactly when its column does not say REFERENCES. */
  lemma {:induction false} ForeignReadsBack(d: Def)
    requires d.ForeignDef? && DefOk(d)
    ensures ParseForeignKey(ConstraintText(d)).Some?
    ensures ParseForeignKey(ConstraintText(d)) == Some(ForeignKey(d.column, d.refSchema, d.refTable, d.refColumn)) <==>
            !Contains(Upper(d.column), "REFERENCES")
  {
    ForeignReadsWith(d, "FOREIGN KEY", "REFERENCES");
  }
}
