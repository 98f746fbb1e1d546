/** Every line of a printed definition is one top-level item and is read for what it is. */
module ItemProofs {
  import opened Text
  import opened TableSchema
  import opened DdlLayout
  import opened TablePrinter
  import opened ColumnProofs
  import opened ConstraintProofs

  // ---------- one item each ----------

  lemma {:induction false} DecimalItem(n: nat)
    ensures Sheltered(Decimal(n)) && '(' !in Decimal(n) && ')' !in Decimal(n)
  {
    PlainItem(Decimal(n));
  }

  lemma {:induction false} SizeItem(size: Size)
    requires SizeOk(size)
    ensures Sheltered(Parens(SizeInside(size)))
  {
    match size {
      case NoSize =>
      case MaxSize =>
      case Length(n) =>
        DecimalItem(n);
      case Precision(p, _, s) =>
        DecimalItem(p);
        DecimalItem(s);
    }
    BalancedPlain(SizeInside(size));
    ParensItem(SizeInside(size));
  }

  lemma {:induction false} IdentityParts()
    ensures IdentityText(true) == " IDENTITY " + Parens("1, 1")
  {
  }

  lemma {:induction false} IdentityItem(identity: bool)
    ensures Sheltered(IdentityText(identity))
  {
    if identity {
      PlainItem(" IDENTITY ");
      BalancedPlain("1, 1");
      ParensItem("1, 1");
      ItemAppend(" IDENTITY ", Parens("1, 1"));
      IdentityParts();
    }
  }

  lemma {:induction false} DefaultItem(d: DefaultClause)
    requires d.DefaultClause? ==> OptionalWord(d.name) && Balanced(d.expr)
    ensures Sheltered(DefaultText(d))
  {
    if d.DefaultClause? {
      var name := DefaultName(d.name);
      if d.name.Some? {
        WordItem(d.name.value);
        PlainItem(" CONSTRAINT ");
        ItemAppend(" CONSTRAINT ", Bracketed(d.name.value));
      }
      PlainItem(" DEFAULT ");
      ItemAppend(name, " DEFAULT ");
      ParensItem(d.expr);
      ItemAppend(name + " DEFAULT ", Parens(d.expr));
    }
  }

  lemma {:induction false} OptionsItem(c: Def)
    requires c.ColumnDef? && DefOk(c)
    ensures Sheltered(Options(c))
  {
    var i, d, n := IdentityText(c.identity), DefaultText(c.byDefault), NullText(c.nullable);
    IdentityItem(c.identity);
    DefaultItem(c.byDefault);
    PlainItem(n);
    ItemAppend(i, d);
    ItemAppend(i + d, n);
  }

  lemma {:induction false} ColumnIsItem(c: Def)
    requires c.ColumnDef? && DefOk(c)
    ensures Sheltered(PrintDef(c))
  {
    var name, gaps := Bracketed(c.name), c.gaps;
    WordItem(c.name);
    WordItem(c.typ);
    PlainItem(gaps.beforeType);
    PlainItem(gaps.beforeSize);
    PlainItem(gaps.behind);
    SizeItem(c.size);
    OptionsItem(c);
    var sized := if c.size.NoSize? then "" else gaps.beforeSize + Parens(SizeInside(c.size));
    if !c.size.NoSize? {
      ItemAppend(gaps.beforeSize, Parens(SizeInside(c.size)));
    }
    ItemAppend(gaps.behind, Options(c));
    ItemAppend(sized, gaps.behind + Options(c));
    ItemAppend(name, gaps.beforeType);
    ItemAppend(name + gaps.beforeType, c.typ);
    ItemAppend(name + gaps.beforeType + c.typ, AfterType(c));
  }

  lemma {:induction false} ComputedIsItem(d: Def)
    requires d.ComputedDef? && DefOk(d)
    ensures Sheltered(PrintDef(d))
  {
    WordItem(d.name);
    PlainItem(" AS ");
    ParensItem(d.expr);
    PlainItem(" PERSISTED");
    ItemAppend(Bracketed(d.name), " AS ");
    ItemAppend(Bracketed(d.name) + " AS ", Parens(d.expr));
    ItemAppend(Bracketed(d.name) + " AS " + Parens(d.expr), " PERSISTED");
  }

  lemma {:induction false} PreambleItem(constraint: Option<string>)
    requires OptionalWord(constraint)
    ensures Sheltered(Preamble(constraint))
  {
    if constraint.Some? {
      WordItem(constraint.value);
      PlainItem("CONSTRAINT ");
      PlainItem(" ");
      ItemAppend("CONSTRAINT ", Bracketed(constraint.value));
      ItemAppend("CONSTRAINT " + Bracketed(constraint.value), " ");
    }
  }

  lemma {:induction false} ListIsBalanced(cs: seq<Listed>)
    requires ListedAllOk(cs)
    ensures Sheltered(Parens(ListText(cs)))
  {
    ListedAllRead(cs);
    ListedHaveNoParen(cs);
    JoinLacks(ListedTexts(cs), ')');
    JoinLacks(ListedTexts(cs), '(');
    BalancedPlain(ListText(cs));
    ParensItem(ListText(cs));
  }

  lemma {:induction false} ListedHaveNoParen(cs: seq<Listed>)
    requires forall i :: 0 <= i < |cs| ==> ListedOk(cs[i])
    ensures forall i :: 0 <= i < |cs| ==> '(' !in ListedTexts(cs)[i]
    decreases |cs|
  {
    if cs != [] {
      assert ListedOk(cs[0]);
      BracketedHas(cs[0].name, '(');
      ListedHaveNoParen(cs[1..]);
      assert ListedTexts(cs)[1..] == ListedTexts(cs[1..]);
    }
  }

  lemma {:induction false} KeyTextItem(kw: string, clustering: string, cs: seq<Listed>)
    requires '(' !in kw && ')' !in kw && ',' !in kw && '/' !in kw && ClusteringOk(clustering) && ListedAllOk(cs)
    ensures Sheltered(kw + clustering + " " + Parens(ListText(cs)))
  {
    PlainItem(kw);
    ClusteringIsPlain(clustering);
    PlainItem(clustering);
    PlainItem(" ");
    ListIsBalanced(cs);
    ItemAppend(kw, clustering);
    ItemAppend(kw + clustering, " ");
    ItemAppend(kw + clustering + " ", Parens(ListText(cs)));
  }

  lemma {:induction false} QualifiedItem(schema: Option<string>, name: string)
    requires OptionalWord(schema) && IsWord(name)
    ensures Sheltered(Qualified(schema, name))
  {
    WordItem(name);
    if schema.Some? {
      WordItem(schema.value);
      PlainItem(".");
      ItemAppend(Bracketed(schema.value), ".");
      ItemAppend(Bracketed(schema.value) + ".", Bracketed(name));
    } else {
      assert Qualified(schema, name) == Bracketed(name);
    }
  }

  lemma {:induction false} InParensItem(name: string)
    requires IsWord(name)
    ensures Sheltered(Parens(Bracketed(name)))
  {
    WordItem(name);
    ItemIsBalanced(Bracketed(name), 0, ",/");
    ParensItem(Bracketed(name));
  }

  lemma {:induction false} ForeignTextItem(a: string, p: string, b: string, q: string, r: string)
    requires Sheltered(a) && Sheltered(p) && Sheltered(b) && Sheltered(q) && Sheltered(r)
    ensures Sheltered(a + p + b + q + " " + r)
  {
    PlainItem(" ");
    ItemAppend(a, p);
    ItemAppend(a + p, b);
    ItemAppend(a + p + b, q);
    ItemAppend(a + p + b + q, " ");
    ItemAppend(a + p + b + q + " ", r);
  }

  lemma {:induction false} ForeignIsItem(column: string, schema: Option<string>, name: string, refColumn: string)
    requires IsWord(column) && OptionalWord(schema) && IsWord(name) && IsWord(refColumn)
    ensures Sheltered("FOREIGN KEY " + Parens(Bracketed(column)) + " REFERENCES " + Qualified(schema, name) + " " +
                    Parens(Bracketed(refColumn)))
  {
    PlainItem("FOREIGN KEY ");
    PlainItem(" REFERENCES ");
    InParensItem(column);
    QualifiedItem(schema, name);
    InParensItem(refColumn);
    ForeignTextItem("FOREIGN KEY ", Parens(Bracketed(column)), " REFERENCES ", Qualified(schema, name),
                    Parens(Bracketed(refColumn)));
  }

  lemma {:induction false} ConstraintIsItem(d: Def)
    requires DefOk(d) && (d.PrimaryDef? || d.UniqueDef? || d.ForeignDef? || d.CheckDef?)
    ensures Sheltered(ConstraintText(d))
  {
    match d {
      case PrimaryDef(_, clustering, columns) =>
        KeyTextItem("PRIMARY KEY", clustering, columns);
      case UniqueDef(_, clustering, columns) =>
        KeyTextItem("UNIQUE", clustering, columns);
      case ForeignDef(_, column, refSchema, refTable, refColumn) =>
        ForeignIsItem(column, refSchema, refTable, refColumn);
      case CheckDef(_, expr) =>
        PlainItem("CHECK ");
        ParensItem(expr);
        ItemAppend("CHECK ", Parens(expr));
    }
  }

  /** Every printed line stays in one piece when the body is cut at its commas, and has no slash
      outside parentheses that a comment could begin with. */
  lemma {:induction false} PrintedIsItem(d: Def)
    requires DefOk(d)
    ensures OneItem(PrintDef(d)) && Sheltered(PrintDef(d))
  {
    if d.ColumnDef? {
      ColumnIsItem(d);
    } else if d.ComputedDef? {
      ComputedIsItem(d);
    } else if !d.BlankDef? {
      PreambleItem(d.constraint);
      ConstraintIsItem(d);
      ItemAppend(Preamble(d.constraint), ConstraintText(d));
    }
    ShelteredIsItem(PrintDef(d));
  }

  // ---------- first and last characters ----------

  lemma {:induction false} EndsOfConstraint(d: Def)
    requires DefOk(d) && (d.PrimaryDef? || d.UniqueDef? || d.ForeignDef? || d.CheckDef?)
    ensures var t := ConstraintText(d);
      t != [] && t[|t| - 1] == ')' &&
      t[0] == if d.PrimaryDef? then 'P' else if d.UniqueDef? then 'U' else if d.ForeignDef? then 'F' else 'C'
  {
  }

  lemma {:induction false} EndsOfParts(a: string, b: string)
    requires b != []
    ensures a + b != [] && (a + b)[|a + b| - 1] == b[|b| - 1] && (a + b)[0] == if a == [] then b[0] else a[0]
  {
  }

  lemma {:induction false} EndsOfNamed(d: Def)
    requires DefOk(d) && (d.PrimaryDef? || d.UniqueDef? || d.ForeignDef? || d.CheckDef?)
    ensures var t := PrintDef(d); t != [] && t[|t| - 1] == ')' && 'A' <= t[0] <= 'Z'
  {
    EndsOfConstraint(d);
    EndsOfParts(Preamble(d.constraint), ConstraintText(d));
    assert d.constraint.Some? ==> Preamble(d.constraint)[0] == 'C';
  }

  lemma {:induction false} EndsOfNameFirst(name: string, x: string, y: string, last: string)
    requires last != [] && !IsSpace(last[|last| - 1]) && last[|last| - 1] != ','
    ensures var t := Bracketed(name) + x + y + last; Trimmed(t) && t != [] && t[|t| - 1] != ','
  {
    EndsOfParts(Bracketed(name) + x + y, last);
    assert (Bracketed(name) + x + y)[0] == '[';
  }

  lemma {:induction false} EndsOfColumn(d: Def)
    requires d.ColumnDef?
    ensures var t := PrintDef(d); Trimmed(t) && t != [] && t[|t| - 1] != ','
  {
    AfterTypeEnds(d);
    EndsOfNameFirst(d.name, d.gaps.beforeType, d.typ, AfterType(d));
  }

  lemma {:induction false} EndsOfComputed(d: Def)
    requires d.ComputedDef?
    ensures var t := PrintDef(d); Trimmed(t) && t != [] && t[|t| - 1] != ','
  {
    var last := " PERSISTED";
    assert last[|last| - 1] == 'D';
    EndsOfNameFirst(d.name, " AS ", Parens(d.expr), last);
  }

  lemma {:induction false} EndsOfPrinted(d: Def)
    requires DefOk(d)
    ensures var t := PrintDef(d); Trimmed(t) && (t == [] <==> d.BlankDef?) && (t != [] ==> t[|t| - 1] != ',')
  {
    if d.ColumnDef? {
      EndsOfColumn(d);
    } else if d.ComputedDef? {
      EndsOfComputed(d);
    } else if !d.BlankDef? {
      EndsOfNamed(d);
    }
  }

  // ---------- reading ----------

  /** A kind of item that the parser never mistakes for another. */
  predicate SameKind(a: Item, b: Item) {
    match a
    case KeyItem(_) => a == b
    case UniqueItem(_) => a == b
    case ForeignItem(_) => b.ForeignItem?
    case ColumnItem(_) => b.ColumnItem?
    case OtherItem => b.OtherItem?
  }

  /** The item that was read is of the line's kind, and is the item the line stands for exactly when
      the line is honest. */
  predicate ReadAs(d: Def, r: Item) {
    SameKind(r, ItemOf(d)) && (r == ItemOf(d) <==> Honest(d))
  }

  lemma {:induction false} ColumnDefReads(c: Def)
    requires c.ColumnDef? && DefOk(c)
    ensures ReadAs(c, ParseTrimmed(PrintDef(c)))
  {
    ColumnReadsBack(c);
    NotAConstraint(PrintDef(c));
  }

  lemma {:induction false} ComputedDefReads(d: Def)
    requires d.ComputedDef? && DefOk(d)
    ensures ReadAs(d, ParseTrimmed(PrintDef(d)))
  {
    ComputedReadsBack(d);
    NotAConstraint(PrintDef(d));
  }

  lemma {:induction false} StartsUpper(kw: string, rest: string)
    requires Upper(kw) == kw
    ensures StartsWith(Upper(kw + rest), kw)
  {
    UpperAppend(kw, rest);
    FindAtStart(kw, Upper(rest));
  }

  lemma {:induction false} UpperFirst(s: string)
    requires s != [] && !('a' <= s[0] <= 'z')
    ensures Upper(s) != [] && Upper(s)[0] == s[0]
  {
  }

  /** The text behind the constraint's name is what gets parsed. */
  lemma {:induction false} NamedConstraint(constraint: Option<string>, body: string, kw: string)
    requires OptionalWord(constraint) && kw == "CONSTRAINT"
    requires body != [] && (body[0] == 'P' || body[0] == 'U' || body[0] == 'F')
    requires IsConstraintText(Upper(body))
    ensures ParseTrimmed(Preamble(constraint) + body) == ParseConstraint(body)
  {
    UpperFirst(body);
    StartsWithout(Upper(body), kw);
    SkipPreamble(constraint, body, kw);
    if constraint.Some? {
      SkipNameWith(constraint.value, body, kw);
    } else {
      assert Preamble(constraint) + body == body;
    }
  }

  lemma {:induction false} PrimaryParses(body: string, kw: string, rest: string, columns: seq<string>)
    requires kw == "PRIMARY KEY" && body == kw + rest && ColumnListAfter(body, kw) == Some(columns)
    ensures body[0] == 'P' && IsConstraintText(Upper(body)) && ParseConstraint(body) == KeyItem(columns)
  {
    assert Upper(kw) == kw;
    StartsUpper(kw, rest);
  }

  lemma {:induction false} UniqueParses(body: string, kw: string, rest: string, columns: seq<string>)
    requires kw == "UNIQUE" && body == kw + rest && ColumnListAfter(body, kw) == Some(columns)
    ensures body[0] == 'U' && IsConstraintText(Upper(body)) && ParseConstraint(body) == UniqueItem(columns)
  {
    assert Upper(kw) == kw;
    StartsUpper(kw, rest);
    UpperFirst(body);
    StartsWithout(Upper(body), "PRIMARY KEY");
  }

  /** The text of a key constraint, its keywords apart. */
  lemma {:induction false} KeyText(d: Def, kw: string, rest: string)
    requires (d.PrimaryDef? && kw == "PRIMARY KEY") || (d.UniqueDef? && kw == "UNIQUE")
    requires d.columns != [] && rest == d.clustering + " " + Parens(ListText(d.columns))
    ensures ConstraintText(d) == kw + d.clustering + " " + Parens(ListText(d.columns)) == kw + rest
  {
  }

  lemma {:induction false} KeyParses(d: Def, kw: string, body: string)
    requires DefOk(d) && ((d.PrimaryDef? && kw == "PRIMARY KEY") || (d.UniqueDef? && kw == "UNIQUE"))
    requires body == ConstraintText(d)
    ensures body != [] && (body[0] == 'P' || body[0] == 'U') && IsConstraintText(Upper(body))
    ensures ParseConstraint(body) ==
            if d.PrimaryDef? then KeyItem(NamesOf(d.columns)) else UniqueItem(NamesOf(d.columns))
  {
    var rest := d.clustering + " " + Parens(ListText(d.columns));
    KeyText(d, kw, rest);
    KeyListReads(kw, d.clustering, d.columns);
    if d.PrimaryDef? {
      PrimaryParses(body, kw, rest, NamesOf(d.columns));
    } else {
      UniqueParses(body, kw, rest, NamesOf(d.columns));
    }
  }

  lemma {:induction false} KeyReads(d: Def, kw: string)
    requires DefOk(d) && ((d.PrimaryDef? && kw == "PRIMARY KEY") || (d.UniqueDef? && kw == "UNIQUE"))
    ensures ReadAs(d, ParseTrimmed(PrintDef(d)))
  {
    var body := ConstraintText(d);
    KeyParses(d, kw, body);
    NamedConstraint(d.constraint, body, "CONSTRAINT");
    PrintedConstraint(d);
    KeyIsRead(d, ParseConstraint(body));
  }

  lemma {:induction false} PrintedConstraint(d: Def)
    requires DefOk(d) && (d.PrimaryDef? || d.UniqueDef? || d.ForeignDef? || d.CheckDef?)
    ensures PrintDef(d) == Preamble(d.constraint) + ConstraintText(d)
  {
  }

  lemma {:induction false} KeyIsRead(d: Def, r: Item)
    requires d.PrimaryDef? || d.UniqueDef?
    requires r == if d.PrimaryDef? then KeyItem(NamesOf(d.columns)) else UniqueItem(NamesOf(d.columns))
    ensures ReadAs(d, r)
  {
  }

  lemma {:induction false} StartsForeign(body: string, kw: string, rest: string)
    requires kw == "FOREIGN KEY" && body == kw + rest
    ensures body[0] == 'F' && StartsWith(Upper(body), kw)
    ensures !StartsWith(Upper(body), "PRIMARY KEY") && !StartsWith(Upper(body), "UNIQUE")
  {
    assert Upper(kw) == kw;
    StartsUpper(kw, rest);
    UpperFirst(body);
    StartsWithout(Upper(body), "PRIMARY KEY");
    StartsWithout(Upper(body), "UNIQUE");
  }

  lemma {:induction false} ForeignReads(d: Def, kw: string, refs: string)
    requires d.ForeignDef? && DefOk(d) && kw == "FOREIGN KEY" && refs == "REFERENCES"
    ensures ReadAs(d, ParseTrimmed(PrintDef(d)))
  {
    var body := ConstraintText(d);
    var rest := " " + Parens(Bracketed(d.column)) + " REFERENCES " + Qualified(d.refSchema, d.refTable)
                + " " + Parens(Bracketed(d.refColumn));
    assert body == kw + rest;
    StartsForeign(body, kw, rest);
    ForeignReadsWith(d, kw, refs);
    NamedConstraint(d.constraint, body, "CONSTRAINT");
  }

  lemma {:induction false} CheckIsNoKey(body: string, rest: string)
    requires body == "CHECK " + rest
    ensures body[0] == 'C' && !IsConstraintText(Upper(body)) && StartsWith(Upper(body), "CHECK")
    ensures ParseConstraint(body) == OtherItem
  {
    UpperFirst(body);
    var u := Upper(body);
    assert u[1] == 'H';
    assert !StartsWith(u, "CONSTRAINT");
    StartsWithout(u, "PRIMARY KEY");
    StartsWithout(u, "UNIQUE");
    StartsWithout(u, "FOREIGN KEY");
    assert Upper("CHECK") == "CHECK";
    assert body == "CHECK" + (" " + rest);
    StartsUpper("CHECK", " " + rest);
  }

  lemma {:induction false} CheckReads(d: Def, kw: string)
    requires d.CheckDef? && DefOk(d) && kw == "CONSTRAINT"
    ensures ReadAs(d, ParseTrimmed(PrintDef(d)))
  {
    var body := ConstraintText(d);
    CheckIsNoKey(body, Parens(d.expr));
    if d.constraint.Some? {
      SkipNameWith(d.constraint.value, body, kw);
    } else {
      EndsOfPrinted(d);
      assert PrintDef(d) == body;
      TrimTrimmed(body);
    }
  }

  lemma {:induction false} KindReads(d: Def)
    requires DefOk(d)
    ensures ReadAs(d, ParseTrimmed(PrintDef(d)))
  {
    if d.ColumnDef? {
      ColumnDefReads(d);
    } else if d.ComputedDef? {
      ComputedDefReads(d);
    } else if d.PrimaryDef? {
      KeyReads(d, "PRIMARY KEY");
    } else if d.UniqueDef? {
      KeyReads(d, "UNIQUE");
    } else if d.ForeignDef? {
      ForeignReads(d, "FOREIGN KEY", "REFERENCES");
    } else if d.CheckDef? {
      CheckReads(d, "CONSTRAINT");
    }
  }

  /** Every printed line is read as an item of its kind, and as the item it stands for exactly when it is honest. */
  lemma {:induction false} PrintedReadsBack(d: Def)
    requires DefOk(d)
    ensures ReadAs(d, ParseItem(PrintDef(d)))
  {
    EndsOfPrinted(d);
    assert ParseItem(PrintDef(d)) == ParseTrimmed(PrintDef(d)) by {
      TrimTrimmed(PrintDef(d));
      assert DropBack(PrintDef(d), ',') == PrintDef(d);
    }
    KindReads(d);
  }
}
