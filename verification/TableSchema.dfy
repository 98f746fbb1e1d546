/** The parser for `CREATE TABLE` statements: `crates/said-forge/src/schema.rs`.
    Texts are ASCII. */
module TableSchema {
  import opened Text
  import SqlComments

  datatype Column = Column(name: string, sqlType: string, length: Option<int>, precision: Option<(nat, nat)>,
                           nullable: bool, identity: bool, isComputed: bool, hasDefault: bool)

  datatype ForeignKey = ForeignKey(column: string, refSchema: Option<string>, refTable: string, refColumn: string)

  datatype Table = Table(schema: Option<string>, name: string, columns: seq<Column>, primaryKey: seq<string>,
                         uniqueKeys: seq<seq<string>>, foreignKeys: seq<ForeignKey>)

  // ---------- white space ----------

  predicate IsSpace(c: char) {
    c == ' ' || '\t' <= c <= '\r'
  }

  function TrimStart(s: string): string {
    if s != [] && IsSpace(s[0]) then TrimStart(s[1..]) else s
  }

  function TrimEnd(s: string): string {
    if s != [] && IsSpace(s[|s| - 1]) then TrimEnd(s[..|s| - 1]) else s
  }

  function Trim(s: string): string {
    TrimEnd(TrimStart(s))
  }

  function DropFront(s: string, c: char): string {
    if s != [] && s[0] == c then DropFront(s[1..], c) else s
  }

  function DropBack(s: string, c: char): string {
    if s != [] && s[|s| - 1] == c then DropBack(s[..|s| - 1], c) else s
  }

  function Unbracket(s: string): string {
    DropBack(DropFront(s, '['), ']')
  }

  /** Position of the first white space, or the length. */
  function WordEnd(s: string): (n: nat)
    ensures n <= |s|
    ensures forall i :: 0 <= i < n ==> !IsSpace(s[i])
    ensures n < |s| ==> IsSpace(s[n])
  {
    if s == [] || IsSpace(s[0]) then 0 else 1 + WordEnd(s[1..])
  }

  // ---------- parentheses ----------

  function Deeper(depth: int, c: char): int {
    if c == '(' then depth + 1 else if c == ')' then depth - 1 else depth
  }

  function Further(r: Option<nat>, n: nat): Option<nat> {
    if r.None? then None else Some(n + r.value)
  }

  /** How far the parenthesis that is open `depth` times over is from being closed. */
  function CloseFrom(s: string, depth: nat): (r: Option<nat>)
    requires depth >= 1
    ensures r.Some? ==> r.value < |s| && s[r.value] == ')'
  {
    if s == [] then None
    else if s[0] == ')' && depth == 1 then Some(0)
    else Further(CloseFrom(s[1..], Deeper(depth, s[0])), 1)
  }

  method MatchClosingParen(body: string) returns (r: Option<nat>)
    ensures r == CloseFrom(body, 1)
  {
    var depth := 1;
    for i := 0 to |body|
      invariant depth >= 1
      invariant CloseFrom(body, 1) == Further(CloseFrom(body[i..], depth), i)
    {
      assert body[i..][0] == body[i] && body[i..][1..] == body[i + 1..];
      if body[i] == '(' {
        depth := depth + 1;
      } else if body[i] == ')' {
        depth := depth - 1;
        if depth == 0 {
          return Some(i);
        }
      }
    }
    r := None;
  }

  function Prepend(front: string, ps: seq<string>): (r: seq<string>)
    requires |ps| >= 1
    ensures |r| == |ps|
  {
    [front + ps[0]] + ps[1..]
  }

  /** The pieces between the commas at depth 0; always at least one. */
  function Pieces(s: string, depth: int): (ps: seq<string>)
    ensures |ps| >= 1
  {
    if s == [] then [[]]
    else if s[0] == ',' && depth == 0 then [[]] + Pieces(s[1..], depth)
    else Prepend([s[0]], Pieces(s[1..], Deeper(depth, s[0])))
  }

  lemma {:induction false} PrependTwice(a: string, b: string, ps: seq<string>)
    requires |ps| >= 1
    ensures Prepend(a, Prepend(b, ps)) == Prepend(a + b, ps)
  {
    assert a + (b + ps[0]) == a + b + ps[0];
  }

  lemma {:induction false} PrependNothing(ps: seq<string>)
    requires |ps| >= 1
    ensures Prepend([], ps) == ps
  {
    assert [] + ps[0] == ps[0];
  }

  lemma {:induction false} LastPiece(s: string, current: string, depth: int)
    ensures Prepend(current, Pieces(s[|s|..], depth)) == [current]
  {
    assert s[|s|..] == [];
    assert current + [] == current;
  }

  lemma {:induction false} PiecesComma(done: seq<string>, current: string, s: string, i: nat)
    requires i < |s| && s[i] == ','
    ensures done + Prepend(current, Pieces(s[i..], 0)) == done + [current] + Prepend([], Pieces(s[i + 1..], 0))
  {
    assert s[i..][0] == ',' && s[i..][1..] == s[i + 1..];
    var rest := Pieces(s[i + 1..], 0);
    assert ([[]] + rest)[1..] == rest;
    assert current + [] == current;
    PrependNothing(rest);
  }

  lemma {:induction false} PiecesOther(current: string, s: string, i: nat, depth: int)
    requires i < |s| && !(s[i] == ',' && depth == 0)
    ensures Prepend(current, Pieces(s[i..], depth)) ==
            Prepend(current + [s[i]], Pieces(s[i + 1..], Deeper(depth, s[i])))
  {
    assert s[i..][0] == s[i] && s[i..][1..] == s[i + 1..];
    PrependTwice(current, [s[i]], Pieces(s[i + 1..], Deeper(depth, s[i])));
  }

  function TrimAll(ps: seq<string>): seq<string>
    decreases |ps|
  {
    if ps == [] then [] else TrimAll(ps[..|ps| - 1]) + [Trim(ps[|ps| - 1])]
  }

  /** The trimmed pieces, without the last one when it is blank. */
  function TopLevelItems(body: string): seq<string> {
    var items := TrimAll(Pieces(body, 0));
    if items != [] && items[|items| - 1] == [] then items[..|items| - 1] else items
  }

  lemma {:induction false} TrimAllStep(ps: seq<string>, p: string)
    ensures TrimAll(ps + [p]) == TrimAll(ps) + [Trim(p)]
  {
    assert (ps + [p])[..|ps|] == ps;
  }

  method SplitTopLevelItems(body: string) returns (out: seq<string>)
    ensures out == TopLevelItems(body)
  {
    out := [];
    ghost var done: seq<string> := [];
    var current, depth := "", 0;
    PrependNothing(Pieces(body, 0));
    assert body[0..] == body;
    for i := 0 to |body|
      invariant out == TrimAll(done)
      invariant Pieces(body, 0) == done + Prepend(current, Pieces(body[i..], depth))
    {
      var ch := body[i];
      if ch == ',' && depth == 0 {
        PiecesComma(done, current, body, i);
        TrimAllStep(done, current);
        out := out + [Trim(current)];
        done := done + [current];
        current := "";
      } else {
        PiecesOther(current, body, i, depth);
        if ch == '(' {
          depth := depth + 1;
        } else if ch == ')' {
          depth := depth - 1;
        }
        current := current + [ch];
      }
    }
    LastPiece(body, current, depth);
    assert TopLevelItems(body) == TrimAll(done) + if Trim(current) == [] then [] else [Trim(current)] by {
      TrimAllStep(done, current);
      assert (TrimAll(done) + [Trim(current)])[..|TrimAll(done)|] == TrimAll(done);
    }
    if Trim(current) != [] {
      out := out + [Trim(current)];
    }
  }

  // ---------- names and tokens ----------

  function CleanAll(ps: seq<string>): (r: seq<string>)
    ensures |r| == |ps|
  {
    if ps == [] then [] else [Unbracket(Trim(ps[0]))] + CleanAll(ps[1..])
  }

  function ParseQualifiedName(raw: string): (Option<string>, string) {
    var parts := CleanAll(Split(Trim(raw), '.'));
    if |parts| == 2 then (Some(parts[0]), parts[1])
    else (None, parts[|parts| - 1])
  }

  function SkipConstraintName(s: string): string {
    if !StartsWith(Upper(s), "CONSTRAINT") then s
    else
      var after := TrimStart(s[|"CONSTRAINT"|..]);
      TrimStart(
        if after != [] && after[0] == '[' then
          match IndexOf(after[1..], ']') case None => after case Some(i) => after[i + 2..]
        else after[WordEnd(after)..])
  }

  /** The first token and what follows it; a name in brackets is one token. */
  function SplitFirstToken(text: string): Option<(string, string)> {
    var s := TrimStart(text);
    if s == [] then None
    else if s[0] == '[' then
      match IndexOf(s[1..], ']')
      case None => None
      case Some(i) => Some((s[..i + 2], TrimStart(s[i + 2..])))
    else Some((s[..WordEnd(s)], TrimStart(s[WordEnd(s)..])))
  }

  function ListedName(part: string): string {
    var p := Trim(part);
    Unbracket(p[..WordEnd(p)])
  }

  function ListedNames(parts: seq<string>): seq<string> {
    if parts == [] then []
    else (if ListedName(parts[0]) == [] then [] else [ListedName(parts[0])]) + ListedNames(parts[1..])
  }

  function ColumnListAfter(s: string, keyword: string): Option<seq<string>> {
    var at := Find(Upper(s), keyword);
    if at.None? then None
    else
      var after := s[at.value + |keyword|..];
      var open := IndexOf(after, '(');
      if open.None? then None
      else
        var list := TrimStart(after[open.value + 1..]);
        var close := IndexOf(list, ')');
        if close.None? then None
        else
          var names := ListedNames(Split(list[..close.value], ','));
          if names == [] then None else Some(names)
  }

  // ---------- foreign keys ----------

  /** What is between the first parentheses. */
  function FirstParens(s: string): Option<string> {
    var open := IndexOf(s, '(');
    if open.None? then None
    else
      var close := IndexOf(s[open.value + 1..], ')');
      if close.None? then None else Some(s[open.value + 1..][..close.value])
  }

  /** What the text behind the second keyword refers to. */
  function ForeignFrom(column: string, text: string): Option<ForeignKey> {
    var afterRef := TrimStart(text);
    var paren := IndexOf(afterRef, '(');
    var refColumn := FirstParens(afterRef);
    if paren.None? || refColumn.None? then None
    else
      var (refSchema, refTable) := ParseQualifiedName(Trim(afterRef[..paren.value]));
      Some(ForeignKey(Unbracket(Trim(column)), refSchema, refTable, Unbracket(Trim(refColumn.value))))
  }

  /** A foreign key, given the texts behind its two keywords. */
  function ForeignAfter(afterKeyword: string, afterRefs: Option<string>): Option<ForeignKey> {
    var column := FirstParens(afterKeyword);
    if column.None? || afterRefs.None? then None else ForeignFrom(column.value, afterRefs.value)
  }

  /** Where the first keyword ends, and the first occurrence of the second one from its start on. */
  function KeywordEnds(s: string, keyword: string, refs: string): (r: Option<(nat, Option<nat>)>)
    ensures r.Some? ==> r.value.0 <= |s| && (r.value.1.Some? ==> r.value.1.value <= |s|)
  {
    var at := Find(Upper(s), keyword);
    if at.None? then None
    else
      var refsAt := Find(Upper(s)[at.value..], refs);
      Some((at.value + |keyword|, if refsAt.None? then None else Some(at.value + refsAt.value + |refs|)))
  }

  /** A foreign key, given its two keywords. */
  function ParseForeignWith(s: string, keyword: string, refs: string): Option<ForeignKey> {
    match KeywordEnds(s, keyword, refs)
    case None => None
    case Some((end, refsEnd)) => ForeignAfter(s[end..], if refsEnd.None? then None else Some(s[refsEnd.value..]))
  }

  function ParseForeignKey(s: string): Option<ForeignKey> {
    ParseForeignWith(s, "FOREIGN KEY", "REFERENCES")
  }

  // ---------- columns ----------

  const U32_MAX := 0xFFFF_FFFF
  const I32_MAX := 0x7FFF_FFFF

  /** Rust's `parse::<i32>`. */
  function ParseI32(s: string): Option<int> {
    if s != [] && s[0] == '-' then
      if s[1..] == [] || !AllDigits(s[1..]) || ValueOf(s[1..]) > I32_MAX + 1 then None
      else
        var n: int := -(ValueOf(s[1..]) as int);
        Some(n)
    else
      var n := ParseUnsigned(s, I32_MAX);
      if n.None? then None
      else
        var v: int := n.value;
        Some(v)
  }

  /** Length and precision from what is between the parentheses. */
  function ReadSize(inside: string): (Option<int>, Option<(nat, nat)>) {
    if Upper(inside) == "MAX" then (Some(-1), None)
    else
      var comma := IndexOf(inside, ',');
      var p := if comma.None? then None else ParseUnsigned(Trim(inside[..comma.value]), U32_MAX);
      var sc := if comma.None? then None else ParseUnsigned(Trim(inside[comma.value + 1..]), U32_MAX);
      if p.Some? && sc.Some? then (None, Some((p.value, sc.value))) else (ParseI32(inside), None)
  }

  /** Length, precision, and the text behind the size. */
  function ParseTypeParens(text: string): (Option<int>, Option<(nat, nat)>, string) {
    var s := TrimStart(text);
    var close := IndexOf(s, ')');
    if s == [] || s[0] != '(' || close.None? then (None, None, s)
    else
      var (length, precision) := ReadSize(Trim(s[1..close.value]));
      (length, precision, TrimStart(s[close.value + 1..]))
  }

  predicate IsConstraintText(upper: string) {
    StartsWith(upper, "CONSTRAINT") || StartsWith(upper, "PRIMARY KEY") || StartsWith(upper, "UNIQUE") ||
      StartsWith(upper, "FOREIGN KEY")
  }

  /** A column from its name, its type and the text behind the type. */
  function ColumnFrom(name: string, sqlType: string, afterType: string): Column {
    if sqlType == "AS" then Column(name, "COMPUTED", None, None, true, false, true, false)
    else
      var (length, precision, tail) := ParseTypeParens(afterType);
      var rest := Upper(tail);
      Column(name, sqlType, length, precision, !Contains(rest, "NOT NULL"), Contains(rest, "IDENTITY"), false,
             Contains(rest, "DEFAULT") || Contains(rest, "CONSTRAINT"))
  }

  function ParseColumnLine(line: string): Option<Column> {
    var t := Trim(line);
    if t == [] || IsConstraintText(Upper(t)) || StartsWith(Upper(t), "CHECK") then None
    else
      match SplitFirstToken(t)
      case None => None
      case Some((nameToken, rest)) =>
        if Unbracket(nameToken) == [] then None
        else
          match SplitFirstToken(rest)
          case None => None
          case Some((typeToken, afterType)) => Some(ColumnFrom(Unbracket(nameToken), Upper(typeToken), afterType))
  }

  // ---------- the statement ----------

  datatype Item = KeyItem(columns: seq<string>) | UniqueItem(columns: seq<string>) | ForeignItem(key: ForeignKey)
                | ColumnItem(column: Column) | OtherItem

  /** A constraint behind its name. */
  function ParseConstraint(body: string): Item {
    if StartsWith(Upper(body), "PRIMARY KEY") then
      match ColumnListAfter(body, "PRIMARY KEY") case None => OtherItem case Some(cols) => KeyItem(cols)
    else if StartsWith(Upper(body), "UNIQUE") then
      match ColumnListAfter(body, "UNIQUE") case None => OtherItem case Some(cols) => UniqueItem(cols)
    else if StartsWith(Upper(body), "FOREIGN KEY") then
      match ParseForeignKey(body) case None => OtherItem case Some(fk) => ForeignItem(fk)
    else OtherItem
  }

  /** What one trimmed top-level item says. */
  function ParseTrimmed(t: string): Item {
    if t == [] then OtherItem
    else if IsConstraintText(Upper(t)) then ParseConstraint(SkipConstraintName(t))
    else
      match ParseColumnLine(t) case None => OtherItem case Some(c) => ColumnItem(c)
  }

  /** What one top-level item says. */
  function ParseItem(item: string): Item {
    ParseTrimmed(Trim(DropBack(Trim(item), ',')))
  }

  function AddItem(t: Table, item: Item): Table {
    match item
    case KeyItem(cols) => t.(primaryKey := cols)
    case UniqueItem(cols) => t.(uniqueKeys := t.uniqueKeys + [cols])
    case ForeignItem(fk) => t.(foreignKeys := t.foreignKeys + [fk])
    case ColumnItem(c) => t.(columns := t.columns + [c])
    case OtherItem => t
  }

  function AddItems(t: Table, items: seq<Item>): Table
    decreases |items|
  {
    if items == [] then t else AddItem(AddItems(t, items[..|items| - 1]), items[|items| - 1])
  }

  function ParseItems(texts: seq<string>): (items: seq<Item>)
    ensures |items| == |texts|
    decreases |texts|
  {
    if texts == [] then [] else ParseItems(texts[..|texts| - 1]) + [ParseItem(texts[|texts| - 1])]
  }

  const BOM := '\U{FEFF}'

  /** The statement behind its keywords: what names the table, and what is between the parentheses. */
  function Statement(source: string): Option<(string, string)> {
    var text := Trim(DropFront(SqlComments.StripSchema(source, 0), BOM));
    var at := Find(Upper(text), "CREATE TABLE");
    if at.None? then None
    else
      var after := TrimStart(text[at.value + |"CREATE TABLE"|..]);
      var open := IndexOf(after, '(');
      if open.None? then None
      else
        var end := CloseFrom(after[open.value + 1..], 1);
        if end.None? then None else Some((Trim(after[..open.value]), after[open.value + 1..][..end.value]))
  }

  function Parse(source: string): Option<Table> {
    match Statement(source)
    case None => None
    case Some((name, body)) =>
      var (schema, table) := ParseQualifiedName(name);
      Some(AddItems(Table(schema, table, [], [], [], []), ParseItems(TopLevelItems(body))))
  }

  method FindStatement(source: string) returns (r: Option<(string, string)>)
    ensures r == Statement(source)
  {
    var stripped := SqlComments.StripComments(source);
    var text := Trim(DropFront(stripped, BOM));
    var at := Find(Upper(text), "CREATE TABLE");
    if at.None? {
      return None;
    }
    var after := TrimStart(text[at.value + |"CREATE TABLE"|..]);
    var open := IndexOf(after, '(');
    if open.None? {
      return None;
    }
    var end := MatchClosingParen(after[open.value + 1..]);
    if end.None? {
      return None;
    }
    r := Some((Trim(after[..open.value]), after[open.value + 1..][..end.value]));
  }

  method AddTo(t: Table, item: Item) returns (table: Table)
    ensures table == AddItem(t, item)
  {
    table := t;
    match item {
      case KeyItem(cols) => table := table.(primaryKey := cols);
      case UniqueItem(cols) => table := table.(uniqueKeys := table.uniqueKeys + [cols]);
      case ForeignItem(fk) => table := table.(foreignKeys := table.foreignKeys + [fk]);
      case ColumnItem(c) => table := table.(columns := table.columns + [c]);
      case OtherItem =>
    }
  }

  lemma {:induction false} ItemsStep(t: Table, texts: seq<string>, i: nat)
    requires i < |texts|
    ensures AddItems(t, ParseItems(texts[..i + 1])) == AddItem(AddItems(t, ParseItems(texts[..i])), ParseItem(texts[i]))
  {
    assert texts[..i + 1][..i] == texts[..i];
    var items, item := ParseItems(texts[..i]), ParseItem(texts[i]);
    assert (items + [item])[..|items|] == items;
  }

  method ParseCreateTable(source: string) returns (r: Option<Table>)
    ensures r == Parse(source)
  {
    var found := FindStatement(source);
    if found.None? {
      return None;
    }
    var (schema, name) := ParseQualifiedName(found.value.0);
    var texts := SplitTopLevelItems(found.value.1);
    var table := Table(schema, name, [], [], [], []);
    ghost var empty := table;
    for i := 0 to |texts|
      invariant table == AddItems(empty, ParseItems(texts[..i]))
    {
      ItemsStep(empty, texts, i);
      table := AddTo(table, ParseItem(texts[i]));
    }
    assert texts[..|texts|] == texts;
    r := Some(table);
  }
}
