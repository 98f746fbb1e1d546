/** A printed column is read back, and what the parser makes of its default. */
module ColumnProofs {
  import opened Text
  import opened TableSchema
  import opened DdlLayout
  import opened TablePrinter

  // ---------- sizes ----------

  lemma {:induction false} DecimalIsPlain(n: nat)
    ensures Trimmed(Decimal(n)) && Upper(Decimal(n)) != "MAX" && ',' !in Decimal(n) && ')' !in Decimal(n)
    ensures ParseI32(Decimal(n)) == if n <= I32_MAX then Some(n as int) else None
    ensures ParseUnsigned(Decimal(n), U32_MAX) == if n <= U32_MAX then Some(n) else None
  {
    var s := Decimal(n);
    assert IsDigit(s[0]) && IsDigit(s[|s| - 1]);
    assert Upper(s)[0] == s[0];
    DecimalValue(n);
  }

  lemma {:induction false} PrecisionParts(p: string, gap: string, s: string)
    requires ',' !in p && Trimmed(p) && Trimmed(s) && IsBlank(gap)
    ensures var inside := p + "," + gap + s;
      IndexOf(inside, ',') == Some(|p|) && Trim(inside[..|p|]) == p && Trim(inside[|p| + 1..]) == s
  {
    var inside := p + "," + gap + s;
    assert inside == p + [','] + (gap + s);
    IndexOfAppend(p, ',', gap + s);
    assert inside[..|p|] == p && inside[|p| + 1..] == gap + s;
    TrimTrimmed(p);
    assert gap + s == gap + s + [];
    TrimPadded(gap, s, []);
  }

  lemma {:induction false} ReadPrecision(p: string, gap: string, s: string)
    requires ',' !in p && Trimmed(p) && Trimmed(s) && p != [] && IsDigit(p[0]) && IsBlank(gap)
    requires ParseUnsigned(p, U32_MAX).Some? && ParseUnsigned(s, U32_MAX).Some?
    ensures ReadSize(p + "," + gap + s) ==
            (None, Some((ParseUnsigned(p, U32_MAX).value, ParseUnsigned(s, U32_MAX).value)))
  {
    assert (p + "," + gap + s)[0] == p[0];
    assert Upper(p + "," + gap + s)[0] == p[0];
    PrecisionParts(p, gap, s);
  }

  lemma {:induction false} PrecisionReadsBack(p: nat, gap: string, s: nat)
    requires p <= U32_MAX && s <= U32_MAX && IsBlank(gap)
    ensures var inside := Decimal(p) + "," + gap + Decimal(s);
      ReadSize(inside) == (None, Some((p, s))) && Trimmed(inside) && ')' !in inside
  {
    DecimalIsPlain(p);
    DecimalIsPlain(s);
    ReadPrecision(Decimal(p), gap, Decimal(s));
  }

  lemma {:induction false} SizeReadsBack(size: Size)
    requires SizeOk(size) && !size.NoSize?
    ensures ReadSize(SizeInside(size)) == (LengthOf(size), PrecisionOf(size))
    ensures Trimmed(SizeInside(size)) && ')' !in SizeInside(size)
  {
    match size {
      case MaxSize =>
        assert Upper("MAX") == "MAX";
      case Length(n) =>
        DecimalIsPlain(n);
      case Precision(p, gap, s) =>
        PrecisionReadsBack(p, gap, s);
    }
  }

  /** A size in parentheses, then white space, then the options behind a space. */
  lemma {:induction false} SizedParens(inside: string, gap: string, tail: string)
    requires ')' !in inside && Trimmed(inside) && IsBlank(gap) && (tail == [] || !IsSpace(tail[0]))
    ensures ParseTypeParens(Parens(inside) + (gap + tail)) == (ReadSize(inside).0, ReadSize(inside).1, tail)
  {
    var s := Parens(inside) + (gap + tail);
    assert s[0] == '(';
    assert s == ("(" + inside) + [')'] + (gap + tail);
    IndexOfAppend("(" + inside, ')', gap + tail);
    assert s[1..|inside| + 1] == inside && s[|inside| + 2..] == gap + tail;
    TrimTrimmed(inside);
    TrimStartBlank(gap, tail);
  }

  lemma {:induction false} OptionsStart(c: Def)
    requires c.ColumnDef?
    ensures |Options(c)| >= 2 && Options(c)[0] == ' '
    ensures Options(c)[|Options(c)| - 1] == 'L'
    ensures Options(c)[1] == 'I' || Options(c)[1] == 'C' || Options(c)[1] == 'D' || Options(c)[1] == 'N'
  {
    var i, d, n := IdentityText(c.identity), DefaultText(c.byDefault), NullText(c.nullable);
    assert i == [] ==> Options(c) == d + n;
    assert i == [] && d == [] ==> Options(c) == n;
  }

  lemma {:induction false} GapThenOptions(gap: string, o: string)
    requires IsBlank(gap) && |o| >= 2 && o[0] == ' ' && !IsSpace(o[1])
    ensures gap + o == gap + " " + o[1..] && IsBlank(gap + " ")
    ensures TrimStart(gap + o) == o[1..]
  {
    assert o == " " + o[1..];
    assert gap + o == (gap + " ") + o[1..];
    TrimStartBlank(gap + " ", o[1..]);
  }

  lemma {:induction false} SizedType(inside: string, before: string, gap: string, o: string)
    requires IsBlank(before) && IsBlank(gap) && |o| >= 2 && o[0] == ' ' && !IsSpace(o[1])
    requires ')' !in inside && Trimmed(inside)
    ensures ParseTypeParens(TrimStart((before + Parens(inside)) + (gap + o))) ==
            (ReadSize(inside).0, ReadSize(inside).1, o[1..])
  {
    GapThenOptions(gap, o);
    var sized := Parens(inside) + ((gap + " ") + o[1..]);
    assert (before + Parens(inside)) + (gap + o) == before + sized;
    TrimStartBlank(before, sized);
    SizedParens(inside, gap + " ", o[1..]);
  }

  lemma {:induction false} UnsizedType(gap: string, o: string)
    requires IsBlank(gap) && |o| >= 2 && o[0] == ' ' && !IsSpace(o[1]) && o[1] != '('
    ensures ParseTypeParens(TrimStart("" + (gap + o))) == (None, None, o[1..])
  {
    GapThenOptions(gap, o);
    assert "" + (gap + o) == gap + o;
    TrimStartBlank([], o[1..]);
    assert [] + o[1..] == o[1..];
  }

  lemma {:induction false} TypeParens(c: Def)
    requires c.ColumnDef? && DefOk(c) && !Glued(c)
    ensures ParseTypeParens(TrimStart(AfterType(c))) == (LengthOf(c.size), PrecisionOf(c.size), Options(c)[1..])
  {
    OptionsStart(c);
    if c.size.NoSize? {
      UnsizedType(c.gaps.behind, Options(c));
    } else {
      SizeReadsBack(c.size);
      SizedType(SizeInside(c.size), c.gaps.beforeSize, c.gaps.behind, Options(c));
    }
  }

  // ---------- keywords in the options ----------

  predicate NoBrackets(kw: string) {
    '(' !in kw && ')' !in kw && '[' !in kw && ']' !in kw && kw != [] && kw[0] != ' '
  }

  lemma {:induction false} UpperParens(s: string)
    ensures Upper(Parens(s)) == ['('] + Upper(s) + [')'] && Upper(Bracketed(s)) == ['['] + Upper(s) + [']']
  {
  }

  lemma {:induction false} ContainsInParens(front: string, s: string, kw: string)
    requires NoBrackets(kw)
    ensures Contains(front + Upper(Parens(s)), kw) <==> Contains(front, kw) || Contains(Upper(s), kw)
  {
    UpperParens(s);
    var u := Upper(s);
    assert front + Upper(Parens(s)) == front + ['('] + (u + [')'] + []);
    ContainsApart(front, '(', u + [')'] + [], kw);
    ContainsApart(u, ')', [], kw);
    ContainsNeeds([], kw, kw[0]);
  }

  lemma {:induction false} ContainsInBrackets(front: string, s: string, behind: string, kw: string)
    requires NoBrackets(kw)
    ensures Contains(front + Upper(Bracketed(s)) + behind, kw) <==>
            Contains(front, kw) || Contains(Upper(s), kw) || Contains(behind, kw)
  {
    UpperParens(s);
    var u := Upper(s);
    assert front + Upper(Bracketed(s)) + behind == front + ['['] + (u + [']'] + behind);
    ContainsApart(front, '[', u + [']'] + behind, kw);
    ContainsApart(u, ']', behind, kw);
  }

  const CONSTRAINT_WORD := " CONSTRAINT "
  const DEFAULT_WORD := " DEFAULT "
  const IDENTITY_WORD := " IDENTITY (1, 1)"

  /** What a default clause mentions: its two keywords, its name and its expression. */
  lemma {:induction false} DefaultContains(d: DefaultClause, kw: string)
    requires NoBrackets(kw) && d.DefaultClause?
    ensures Contains(Upper(DefaultText(d)), kw) <==>
            Contains(DEFAULT_WORD, kw) || Mentions(d, kw) || (d.name.Some? && Contains(CONSTRAINT_WORD, kw))
  {
    var name := DefaultName(d.name);
    assert DefaultText(d) == (name + DEFAULT_WORD) + Parens(d.expr);
    UpperAppend(name + DEFAULT_WORD, Parens(d.expr));
    UpperAppend(name, DEFAULT_WORD);
    KeywordsAreUpper();
    ContainsInParens(Upper(name) + DEFAULT_WORD, d.expr, kw);
    if d.name.Some? {
      UpperAppend(CONSTRAINT_WORD, Bracketed(d.name.value));
      ContainsInBrackets(CONSTRAINT_WORD, d.name.value, DEFAULT_WORD, kw);
    } else {
      assert Upper(name) + DEFAULT_WORD == DEFAULT_WORD;
    }
  }

  lemma {:induction false} KeywordsAreUpper()
    ensures Upper(CONSTRAINT_WORD) == CONSTRAINT_WORD && Upper(DEFAULT_WORD) == DEFAULT_WORD
    ensures Upper(" IDENTITY (1, 1)") == " IDENTITY (1, 1)" && Upper(" NULL") == " NULL" &&
            Upper(" NOT NULL") == " NOT NULL"
  {
  }

  lemma {:induction false} SpaceDoesNotMatter(o: string, kw: string)
    requires o != [] && o[0] == ' ' && NoBrackets(kw)
    ensures Contains(Upper(o[1..]), kw) <==> Contains(Upper(o), kw)
  {
    assert o == [' '] + o[1..];
    UpperAppend([' '], o[1..]);
    assert Upper([' ']) == [' '];
    ContainsBehind([' '], Upper(o[1..]), kw);
  }

  lemma {:induction false} OptionsParts(c: Def)
    requires c.ColumnDef?
    ensures Options(c) == IdentityText(c.identity) + (DefaultText(c.byDefault) + NullText(c.nullable))
  {
  }

  /** The options mention a keyword exactly when one of the three does. */
  lemma {:induction false} OptionsContain(c: Def, kw: string)
    requires c.ColumnDef? && NoBrackets(kw)
    ensures Contains(Upper(Options(c)[1..]), kw) <==>
            Contains(IdentityText(c.identity), kw) || Contains(Upper(DefaultText(c.byDefault)), kw) ||
              Contains(NullText(c.nullable), kw)
  {
    var i, d, n := IdentityText(c.identity), DefaultText(c.byDefault), NullText(c.nullable);
    OptionsStart(c);
    SpaceDoesNotMatter(Options(c), kw);
    KeywordsAreUpper();
    OptionsParts(c);
    UpperAppend(i, d + n);
    UpperAppend(d, n);
    DefaultCloses(c.byDefault);
    ContainsInThree(Upper(i), Upper(d), Upper(n), kw);
  }

  lemma {:induction false} ContainsInThree(i: string, d: string, n: string, kw: string)
    requires i == [] || i[|i| - 1] == ')'
    requires d == [] || d[|d| - 1] == ')'
    requires NoBrackets(kw)
    ensures Contains(i + (d + n), kw) <==> Contains(i, kw) || Contains(d, kw) || Contains(n, kw)
  {
    ContainsAfterClose(i, d + n, kw);
    ContainsAfterClose(d, n, kw);
  }

  lemma {:induction false} DefaultCloses(d: DefaultClause)
    ensures var u := Upper(DefaultText(d)); u == [] || u[|u| - 1] == ')'
  {
    if d.DefaultClause? {
      var front := DefaultName(d.name) + " DEFAULT ";
      UpperAppend(front, Parens(d.expr));
      UpperParens(d.expr);
    }
  }

  lemma {:induction false} ContainsAt(a: string, kw: string, b: string)
    ensures Contains(a + kw + b, kw)
  {
    ContainsIs(a + kw + b, kw);
    assert (a + kw + b)[|a|..|a| + |kw|] == kw;
    assert OccursAt(a + kw + b, kw, |a|);
  }

  /** What the options mention, keyword by keyword. */
  lemma {:induction false} OptionsMention(c: Def, kw: string)
    requires c.ColumnDef? && NoBrackets(kw)
    ensures Contains(Upper(Options(c)[1..]), kw) <==>
            || (c.identity && Contains(IDENTITY_WORD, kw))
            || (c.byDefault.DefaultClause? &&
                (Contains(DEFAULT_WORD, kw) || Mentions(c.byDefault, kw) ||
                  (c.byDefault.name.Some? && Contains(CONSTRAINT_WORD, kw))))
            || Contains(NullText(c.nullable), kw)
  {
    OptionsContain(c, kw);
    ContainsNeeds([], kw, kw[0]);
    if c.byDefault.DefaultClause? {
      DefaultContains(c.byDefault, kw);
    } else {
      assert Upper(DefaultText(c.byDefault)) == [];
    }
  }

  // The letters that tell the keywords apart.

  lemma {:induction false} WordLetters()
    ensures 'C' !in IDENTITY_WORD && 'F' !in IDENTITY_WORD && 'O' !in IDENTITY_WORD
    ensures 'I' !in DEFAULT_WORD && 'O' !in DEFAULT_WORD && 'D' !in CONSTRAINT_WORD && 'L' !in CONSTRAINT_WORD
  {
  }

  lemma {:induction false} WordParts()
    ensures IDENTITY_WORD == " " + "IDENTITY" + " (1, 1)" && DEFAULT_WORD == " " + "DEFAULT" + " "
  {
  }

  lemma {:induction false} NullLetters(nullable: bool)
    ensures var n := NullText(nullable); 'C' !in n && 'F' !in n && 'I' !in n
    ensures 'O' !in NullText(true) && NullText(false) == " " + "NOT NULL" + ""
  {
  }

  lemma {:induction false} IdentityFlag(c: Def, kw: string)
    requires c.ColumnDef? && kw == "IDENTITY"
    ensures Contains(Upper(Options(c)[1..]), kw) <==> c.identity || Mentions(c.byDefault, kw)
  {
    assert kw[0] == 'I' && kw[1] == 'D';
    OptionsMention(c, kw);
    WordLetters();
    WordParts();
    NullLetters(c.nullable);
    ContainsAt(" ", kw, " (1, 1)");
    ContainsNeeds(DEFAULT_WORD, kw, 'I');
    ContainsNeeds(CONSTRAINT_WORD, kw, 'D');
    ContainsNeeds(NullText(c.nullable), kw, 'I');
  }

  lemma {:induction false} NotNullFlag(c: Def, kw: string)
    requires c.ColumnDef? && kw == "NOT NULL"
    ensures Contains(Upper(Options(c)[1..]), kw) <==> !c.nullable || Mentions(c.byDefault, kw)
  {
    assert kw[1] == 'O' && kw[6] == 'L';
    OptionsMention(c, kw);
    WordLetters();
    NullLetters(c.nullable);
    ContainsNeeds(IDENTITY_WORD, kw, 'O');
    ContainsNeeds(DEFAULT_WORD, kw, 'O');
    ContainsNeeds(CONSTRAINT_WORD, kw, 'L');
    ContainsNeeds(NullText(true), kw, 'O');
    ContainsAt(" ", kw, "");
  }

  lemma {:induction false} DefaultFlag(c: Def, kw: string)
    requires c.ColumnDef? && kw == "DEFAULT"
    ensures Contains(Upper(Options(c)[1..]), kw) <==> c.byDefault.DefaultClause?
  {
    assert kw[2] == 'F';
    OptionsMention(c, kw);
    WordLetters();
    NullLetters(c.nullable);
    WordParts();
    ContainsNeeds(IDENTITY_WORD, kw, 'F');
    ContainsNeeds(NullText(c.nullable), kw, 'F');
    ContainsAt(" ", kw, " ");
  }

  lemma {:induction false} ConstraintFlag(c: Def, kw: string)
    requires c.ColumnDef? && c.byDefault.NoDefault? && kw == "CONSTRAINT"
    ensures !Contains(Upper(Options(c)[1..]), kw)
  {
    assert kw[0] == 'C';
    OptionsMention(c, kw);
    WordLetters();
    NullLetters(c.nullable);
    ContainsNeeds(IDENTITY_WORD, kw, 'C');
    ContainsNeeds(NullText(c.nullable), kw, 'C');
  }

  // ---------- whole columns ----------

  lemma {:induction false} NameToken(name: string, rest: string)
    requires IsWord(name)
    ensures SplitFirstToken(Bracketed(name) + rest) == Some((Bracketed(name), TrimStart(rest)))
  {
    var s := Bracketed(name) + rest;
    assert s[0] == '[';
    assert s[1..] == name + [']'] + rest;
    IndexOfAppend(name, ']', rest);
    assert s[..|name| + 2] == Bracketed(name) && s[|name| + 2..] == rest;
  }

  predicate NoSpace(s: string) {
    forall i :: 0 <= i < |s| ==> !IsSpace(s[i])
  }

  lemma {:induction false} WordToken(w: string, rest: string)
    requires w != [] && w[0] != '[' && NoSpace(w) && (rest == [] || IsSpace(rest[0]))
    ensures SplitFirstToken(w + rest) == Some((w, TrimStart(rest)))
  {
    WordEndAppend(w, rest);
    assert !IsSpace((w + rest)[0]);
  }

  lemma {:induction false} NotAConstraint(t: string)
    requires t != [] && t[0] == '['
    ensures !IsConstraintText(Upper(t)) && !StartsWith(Upper(t), "CHECK")
  {
    var u := Upper(t);
    assert u[0] == '[';
    StartsWithout(u, "CONSTRAINT");
    StartsWithout(u, "PRIMARY KEY");
    StartsWithout(u, "UNIQUE");
    StartsWithout(u, "FOREIGN KEY");
    StartsWithout(u, "CHECK");
  }

  /** A bracketed name, a gap, a type without white space, and the rest. */
  lemma {:induction false} ColumnLine(name: string, gap: string, typ: string, after: string)
    requires IsWord(name) && IsBlank(gap) && gap != [] && typ != [] && typ[0] != '[' && NoSpace(typ)
    requires after == [] || IsSpace(after[0])
    requires Trimmed(Bracketed(name) + (gap + (typ + after)))
    ensures ParseColumnLine(Bracketed(name) + (gap + (typ + after))) ==
            Some(ColumnFrom(name, Upper(typ), TrimStart(after)))
  {
    var t := Bracketed(name) + (gap + (typ + after));
    TrimTrimmed(t);
    NotAConstraint(t);
    NameToken(name, gap + (typ + after));
    assert !IsSpace((typ + after)[0]);
    TrimStartBlank(gap, typ + after);
    UnbracketWord(name);
    WordToken(typ, after);
  }

  lemma {:induction false} AfterTypeEnds(c: Def)
    requires c.ColumnDef?
    ensures AfterType(c) != [] && AfterType(c)[|AfterType(c)| - 1] == 'L'
  {
    OptionsStart(c);
    var o, front := Options(c), if c.size.NoSize? then "" else c.gaps.beforeSize + Parens(SizeInside(c.size));
    assert o[|o| - 1] == 'L';
    assert AfterType(c) == front + (c.gaps.behind + o);
  }

  // ---------- where the type ends ----------

  /** The comma of a size has white space behind it. */
  predicate Loose(size: Size) {
    size.Precision? && size.gap != []
  }

  /** What is taken for the type: everything up to the first white space. */
  function TypeToken(c: Def): string
    requires c.ColumnDef?
  {
    if !Glued(c) then c.typ
    else if Loose(c.size) then c.typ + ("(" + Decimal(c.size.p) + ",")
    else c.typ + Parens(SizeInside(c.size))
  }

  /** The white space behind that, and what follows. */
  function BehindToken(c: Def): string
    requires c.ColumnDef?
  {
    if !Glued(c) then AfterType(c)
    else if Loose(c.size) then c.size.gap + ((Decimal(c.size.s) + ")") + (c.gaps.behind + Options(c)))
    else c.gaps.behind + Options(c)
  }

  lemma {:induction false} LooseSize(p: string, gap: string, s: string, tail: string)
    ensures Parens(p + "," + gap + s) + tail == ("(" + p + ",") + (gap + ((s + ")") + tail))
  {
  }

  lemma {:induction false} TokenEnds(c: Def)
    requires c.ColumnDef?
    ensures c.typ + AfterType(c) == TypeToken(c) + BehindToken(c)
  {
    if Glued(c) {
      assert AfterType(c) == Parens(SizeInside(c.size)) + (c.gaps.behind + Options(c));
      if Loose(c.size) {
        LooseSize(Decimal(c.size.p), c.size.gap, Decimal(c.size.s), c.gaps.behind + Options(c));
      }
    }
  }

  lemma {:induction false} DecimalHasNoSpace(n: nat)
    ensures NoSpace(Decimal(n))
  {
    forall i | 0 <= i < |Decimal(n)| ensures !IsSpace(Decimal(n)[i]) {
      assert IsDigit(Decimal(n)[i]);
    }
  }

  lemma {:induction false} SizeHasNoSpace(size: Size)
    requires !Loose(size)
    ensures NoSpace(SizeInside(size))
  {
    match size {
      case Length(n) =>
        DecimalHasNoSpace(n);
      case Precision(p, gap, s) =>
        DecimalHasNoSpace(p);
        DecimalHasNoSpace(s);
        assert gap == [];
      case _ =>
    }
  }

  lemma {:induction false} TokenIsOne(c: Def)
    requires c.ColumnDef? && DefOk(c)
    ensures var w := TypeToken(c); w != [] && w[0] != '[' && NoSpace(w)
    ensures Glued(c) ==> |TypeToken(c)| > |c.typ| && TypeToken(c)[|c.typ|] == '('
  {
    assert NoSpace(c.typ) && c.typ[0] != '[';
    if Glued(c) {
      var behind := if Loose(c.size) then "(" + Decimal(c.size.p) + "," else Parens(SizeInside(c.size));
      if !Loose(c.size) {
        SizeHasNoSpace(c.size);
      }
      assert NoSpace(behind) && behind[0] == '(';
      assert TypeToken(c) == c.typ + behind;
    }
  }

  lemma {:induction false} TokenNames(c: Def)
    requires c.ColumnDef? && DefOk(c)
    ensures Upper(TypeToken(c)) != "AS" && (Upper(TypeToken(c)) == Upper(c.typ) <==> !Glued(c))
  {
    TokenIsOne(c);
    if Glued(c) {
      assert Upper(TypeToken(c))[|c.typ|] == '(';
    }
  }

  lemma {:induction false} BlankThen(gap: string, rest: string)
    requires IsBlank(gap) && rest != [] && (gap == [] ==> IsSpace(rest[0]))
    ensures gap + rest != [] && IsSpace((gap + rest)[0]) && (gap + rest)[|gap + rest| - 1] == rest[|rest| - 1]
  {
  }

  /** Where a printed column goes on behind what is taken for its type. */
  predicate EndsTheType(b: string) {
    b != [] && IsSpace(b[0]) && b[|b| - 1] == 'L'
  }

  lemma {:induction false} GapEnds(gap: string, front: string, tail: string)
    requires IsBlank(gap) && gap != [] && EndsTheType(tail)
    ensures EndsTheType(gap + (front + tail)) && EndsTheType((gap + front) + tail)
  {
    BlankThen(gap, front + tail);
    assert (front + tail)[|front + tail| - 1] == tail[|tail| - 1];
    assert (gap + front) + tail == gap + (front + tail);
  }

  lemma {:induction false} BehindTokenEnds(c: Def)
    requires c.ColumnDef? && DefOk(c)
    ensures EndsTheType(BehindToken(c))
  {
    OptionsStart(c);
    BlankThen(c.gaps.behind, Options(c));
    var tail := c.gaps.behind + Options(c);
    if c.size.NoSize? {
      assert AfterType(c) == "" + tail == tail;
    } else if !Glued(c) {
      GapEnds(c.gaps.beforeSize, Parens(SizeInside(c.size)), tail);
    } else if Loose(c.size) {
      GapEnds(c.size.gap, Decimal(c.size.s) + ")", tail);
    }
  }

  /** What is looked at for the options. */
  function Tail(c: Def): string
    requires c.ColumnDef? && |Options(c)| >= 1
  {
    if Glued(c) && Loose(c.size) then (Decimal(c.size.s) + ")") + (c.gaps.behind + Options(c)) else Options(c)[1..]
  }

  lemma {:induction false} TailIsLeft(c: Def)
    requires c.ColumnDef? && DefOk(c) && |Options(c)| >= 1
    ensures ParseTypeParens(TrimStart(BehindToken(c))) ==
            if Glued(c) then (None, None, Tail(c)) else (LengthOf(c.size), PrecisionOf(c.size), Tail(c))
  {
    OptionsStart(c);
    if !Glued(c) {
      TypeParens(c);
    } else if Loose(c.size) {
      var tail := Tail(c);
      assert tail[0] == Decimal(c.size.s)[0];
      TrimStartBlank(c.size.gap, tail);
      TrimStartBlank([], tail);
      assert [] + tail == tail;
    } else {
      UnsizedType(c.gaps.behind, Options(c));
      assert "" + (c.gaps.behind + Options(c)) == c.gaps.behind + Options(c);
    }
  }

  /** A keyword that begins with a letter is not looked for in vain: a number and a parenthesis hide none. */
  lemma {:induction false} TailContains(c: Def, kw: string)
    requires c.ColumnDef? && DefOk(c) && kw != [] && 'A' <= kw[0] <= 'Z' && |Options(c)| >= 1
    ensures Contains(Upper(Tail(c)), kw) <==> Contains(Upper(Options(c)[1..]), kw)
  {
    OptionsStart(c);
    if Glued(c) && Loose(c.size) {
      var front := (Decimal(c.size.s) + ")") + (c.gaps.behind + " ");
      assert Options(c) == " " + Options(c)[1..];
      assert Tail(c) == front + Options(c)[1..];
      UpperAppend(front, Options(c)[1..]);
      assert kw[0] !in Upper(front);
      ContainsBehind(Upper(front), Upper(Options(c)[1..]), kw);
    }
  }

  // ---------- whole columns ----------

  /** The column that is read: a glued size is part of the type's name, and a default that mentions
      their keywords spoils the flags for identity and null. */
  function ColumnRead(c: Def): Column
    requires c.ColumnDef?
  {
    Column(c.name, Upper(TypeToken(c)), if Glued(c) then None else LengthOf(c.size),
           if Glued(c) then None else PrecisionOf(c.size), c.nullable && !Mentions(c.byDefault, "NOT NULL"),
           c.identity || Mentions(c.byDefault, "IDENTITY"), false, c.byDefault.DefaultClause?)
  }

  /** A printed column comes back as it is exactly if its size is not glued to its type and its default
      does not mention IDENTITY or NOT NULL against its flags; otherwise only these parts are wrong. */
  lemma {:induction false} ColumnReadsBack(c: Def)
    requires c.ColumnDef? && DefOk(c)
    ensures ParseColumnLine(PrintDef(c)) == Some(ColumnRead(c))
    ensures ParseColumnLine(PrintDef(c)) == Some(ColumnOf(c)) <==> Honest(c)
  {
    OptionsStart(c);
    TokensRead(c);
    ColumnFromOptions(c, "IDENTITY", "NOT NULL", "DEFAULT", "CONSTRAINT");
    HonestIsExact(c);
  }

  lemma {:induction false} PrintedTokens(c: Def)
    requires c.ColumnDef?
    ensures PrintDef(c) == Bracketed(c.name) + (c.gaps.beforeType + (TypeToken(c) + BehindToken(c)))
  {
    TokenEnds(c);
    assert PrintDef(c) == Bracketed(c.name) + (c.gaps.beforeType + (c.typ + AfterType(c)));
  }

  lemma {:induction false} TwoTokens(name: string, gap: string, typ: string, after: string)
    requires IsWord(name) && IsBlank(gap) && gap != [] && typ != [] && typ[0] != '[' && NoSpace(typ) &&
             EndsTheType(after)
    ensures ParseColumnLine(Bracketed(name) + (gap + (typ + after))) ==
            Some(ColumnFrom(name, Upper(typ), TrimStart(after)))
  {
    var t := Bracketed(name) + (gap + (typ + after));
    assert t[0] == '[' && t[|t| - 1] == 'L';
    ColumnLine(name, gap, typ, after);
  }

  lemma {:induction false} TokensRead(c: Def)
    requires c.ColumnDef? && DefOk(c)
    ensures ParseColumnLine(PrintDef(c)) == Some(ColumnFrom(c.name, Upper(TypeToken(c)), TrimStart(BehindToken(c))))
  {
    PrintedTokens(c);
    TokenIsOne(c);
    BehindTokenEnds(c);
    TwoTokens(c.name, c.gaps.beforeType, TypeToken(c), BehindToken(c));
  }

  lemma {:induction false} HonestIsExact(c: Def)
    requires c.ColumnDef? && DefOk(c)
    ensures ColumnRead(c) == ColumnOf(c) <==> Honest(c)
  {
    TokenNames(c);
  }

  lemma {:induction false} ColumnFromOptions(c: Def, identity: string, notNull: string, byDefault: string,
                                             constraint: string)
    requires c.ColumnDef? && DefOk(c) && |Options(c)| >= 1
    requires identity == "IDENTITY" && notNull == "NOT NULL" && byDefault == "DEFAULT" && constraint == "CONSTRAINT"
    ensures ColumnFrom(c.name, Upper(TypeToken(c)), TrimStart(BehindToken(c))) == ColumnRead(c)
  {
    TokenNames(c);
    TailIsLeft(c);
    TailContains(c, identity);
    TailContains(c, notNull);
    TailContains(c, byDefault);
    TailContains(c, constraint);
    IdentityFlag(c, identity);
    NotNullFlag(c, notNull);
    DefaultFlag(c, byDefault);
    if c.byDefault.NoDefault? {
      ConstraintFlag(c, constraint);
    }
  }

  lemma {:induction false} ComputedReadsBack(d: Def)
    requires d.ComputedDef? && DefOk(d)
    ensures ParseColumnLine(PrintDef(d)) == Some(ItemOf(d).column)
  {
    var after := " " + Parens(d.expr) + " PERSISTED";
    assert after[0] == ' ' && after[|after| - 1] == 'D';
    assert PrintDef(d) == Bracketed(d.name) + (" " + ("AS" + after));
    ComputedLine(d.name, after, "AS");
  }

  lemma {:induction false} ComputedLine(name: string, after: string, keyword: string)
    requires IsWord(name) && keyword == "AS"
    requires after != [] && after[0] == ' ' && after[|after| - 1] == 'D'
    ensures ParseColumnLine(Bracketed(name) + (" " + (keyword + after))) ==
            Some(Column(name, "COMPUTED", None, None, true, false, true, false))
  {
    var t := Bracketed(name) + (" " + (keyword + after));
    assert t[0] == '[' && t[|t| - 1] == 'D';
    assert Upper(keyword) == "AS";
    ColumnLine(name, " ", keyword, after);
  }

  /** Without white space before it, a size becomes part of the type's name, up to the white space behind
      its comma if there is any, and no length or precision is read. */
  lemma {:induction false} GluedSizeIsNotRead(c: Def)
    requires c.ColumnDef? && DefOk(c) && Glued(c)
    ensures var r := ParseColumnLine(PrintDef(c));
      && r.Some? && r.value.length == None && r.value.precision == None
      && Upper(c.typ) + "(" <= r.value.sqlType
      && (r.value.sqlType == Upper(c.typ) + Upper(Parens(SizeInside(c.size))) <==>
        !(c.size.Precision? && c.size.gap != []))
  {
    ColumnReadsBack(c);
    GluedToken(c.typ, c.size);
  }

  lemma {:induction false} GluedToken(typ: string, size: Size)
    requires !size.NoSize?
    ensures var w := typ + if Loose(size) then "(" + Decimal(size.p) + "," else Parens(SizeInside(size));
      && Upper(typ) + "(" <= Upper(w)
      && (Upper(w) == Upper(typ) + Upper(Parens(SizeInside(size))) <==> !Loose(size))
  {
    var behind := if Loose(size) then "(" + Decimal(size.p) + "," else Parens(SizeInside(size));
    assert behind == "(" + behind[1..];
    UpperAppend(typ, behind);
    UpperAppend("(", behind[1..]);
    assert Upper("(") == "(";
    assert |behind| < |Parens(SizeInside(size))| <==> Loose(size);
  }
}
