/** Table definitions as they are written down, and their text in the shape that the head of
    `crates/said-forge/src/schema.rs` documents, with or without white space before the size of
    a type. */
module TablePrinter {
  import opened Text
  import opened TableSchema
  import opened DdlLayout

  /** `gap` is the white space behind the comma. */
  datatype Size = NoSize | MaxSize | Length(n: nat) | Precision(p: nat, gap: string, s: nat)

  datatype DefaultClause = NoDefault | DefaultClause(name: Option<string>, expr: string)

  /** White space around the type and its size. */
  datatype Gaps = Gaps(beforeType: string, beforeSize: string, behind: string)

  datatype Listed = Listed(pad: string, name: string, order: string)

  /** One line of the definition. `order` is empty or a word such as ASC behind white space,
      `clustering` is empty or a word such as CLUSTERED. */
  datatype Def = ColumnDef(name: string, typ: string, size: Size, identity: bool, byDefault: DefaultClause,
                           nullable: bool, gaps: Gaps)
               | ComputedDef(name: string, expr: string)
               | PrimaryDef(constraint: Option<string>, clustering: string, columns: seq<Listed>)
               | UniqueDef(constraint: Option<string>, clustering: string, columns: seq<Listed>)
               | ForeignDef(constraint: Option<string>, column: string, refSchema: Option<string>, refTable: string,
                                  refColumn: string)
               | CheckDef(constraint: Option<string>, expr: string)
               | BlankDef

  datatype Padded = Padded(before: string, def: Def, behind: string)

  datatype Ddl = Ddl(before: string, schema: Option<string>, name: string, defs: seq<Padded>, behind: string)

  // ---------- columns ----------

  function SizeInside(size: Size): string {
    match size
    case NoSize => ""
    case MaxSize => "MAX"
    case Length(n) => Decimal(n)
    case Precision(p, gap, s) => Decimal(p) + "," + gap + Decimal(s)
  }

  function IdentityText(identity: bool): string {
    if identity then " IDENTITY (1, 1)" else ""
  }

  function DefaultName(name: Option<string>): string {
    if name.Some? then " CONSTRAINT " + Bracketed(name.value) else ""
  }

  function DefaultText(d: DefaultClause): string {
    if d.NoDefault? then "" else DefaultName(d.name) + " DEFAULT " + Parens(d.expr)
  }

  function NullText(nullable: bool): string {
    if nullable then " NULL" else " NOT NULL"
  }

  function Options(c: Def): string
    requires c.ColumnDef?
  {
    IdentityText(c.identity) + DefaultText(c.byDefault) + NullText(c.nullable)
  }

  function AfterType(c: Def): string
    requires c.ColumnDef?
  {
    (if c.size.NoSize? then "" else c.gaps.beforeSize + Parens(SizeInside(c.size))) + (c.gaps.behind + Options(c))
  }

  // ---------- constraints ----------

  function Preamble(constraint: Option<string>): string {
    if constraint.Some? then "CONSTRAINT " + Bracketed(constraint.value) + " " else ""
  }

  function ListedText(c: Listed): string {
    c.pad + Bracketed(c.name) + c.order
  }

  function ListedTexts(cs: seq<Listed>): (ts: seq<string>)
    ensures |ts| == |cs|
  {
    if cs == [] then [] else [ListedText(cs[0])] + ListedTexts(cs[1..])
  }

  function ListText(cs: seq<Listed>): string
    requires cs != []
  {
    Join(ListedTexts(cs), ',')
  }

  function Qualified(schema: Option<string>, name: string): string {
    (if schema.Some? then Bracketed(schema.value) + "." else "") + Bracketed(name)
  }

  /** What follows the name of the constraint. */
  function ConstraintText(d: Def): string
    requires !d.ColumnDef? && !d.ComputedDef? && !d.BlankDef?
    requires d.PrimaryDef? || d.UniqueDef? ==> d.columns != []
  {
    match d
    case PrimaryDef(_, clustering, columns) => "PRIMARY KEY" + clustering + " " + Parens(ListText(columns))
    case UniqueDef(_, clustering, columns) => "UNIQUE" + clustering + " " + Parens(ListText(columns))
    case ForeignDef(_, column, refSchema, refTable, refColumn) =>
      "FOREIGN KEY " + Parens(Bracketed(column)) + " REFERENCES " + Qualified(refSchema, refTable) + " " +
        Parens(Bracketed(refColumn))
    case CheckDef(_, expr) => "CHECK " + Parens(expr)
  }

  function PrintDef(d: Def): string
    requires d.PrimaryDef? || d.UniqueDef? ==> d.columns != []
  {
    match d
    case ColumnDef(name, typ, _, _, _, _, gaps) => Bracketed(name) + gaps.beforeType + typ + AfterType(d)
    case ComputedDef(name, expr) => Bracketed(name) + " AS " + Parens(expr) + " PERSISTED"
    case BlankDef => ""
    case _ => Preamble(d.constraint) + ConstraintText(d)
  }

  // ---------- well-formed definitions ----------

  predicate OptionalWord(name: Option<string>) {
    name.Some? ==> IsWord(name.value)
  }

  predicate ListedOk(c: Listed) {
    && IsBlank(c.pad) && IsWord(c.name)
    && (c.order == [] || (IsSpace(c.order[0]) && !IsSpace(c.order[|c.order| - 1])))
    && (forall i :: 0 <= i < |c.order| ==> IsSpace(c.order[i]) || IsWordChar(c.order[i]))
  }

  predicate ListedAllOk(cs: seq<Listed>) {
    && cs != [] && cs[0].pad == []
    && forall i :: 0 <= i < |cs| ==> ListedOk(cs[i])
  }

  predicate ClusteringOk(s: string) {
    forall i :: 0 <= i < |s| ==> IsSpace(s[i]) || IsWordChar(s[i])
  }

  predicate SizeOk(size: Size) {
    match size
    case Length(n) => n <= I32_MAX
    case Precision(p, gap, s) => p <= U32_MAX && s <= U32_MAX && IsBlank(gap)
    case _ => true
  }

  predicate DefOk(d: Def) {
    match d
    case ColumnDef(name, typ, size, _, byDefault, _, gaps) =>
      && IsWord(name) && IsWord(typ) && Upper(typ) != "AS" && SizeOk(size)
      && (byDefault.DefaultClause? ==> OptionalWord(byDefault.name) && Balanced(byDefault.expr))
      && IsBlank(gaps.beforeType) && IsBlank(gaps.beforeSize) && IsBlank(gaps.behind)
      && gaps.beforeType != []
    case ComputedDef(name, expr) => IsWord(name) && Balanced(expr)
    case PrimaryDef(constraint, clustering, columns) =>
      OptionalWord(constraint) && ClusteringOk(clustering) && ListedAllOk(columns)
    case UniqueDef(constraint, clustering, columns) =>
      OptionalWord(constraint) && ClusteringOk(clustering) && ListedAllOk(columns)
    case ForeignDef(constraint, column, refSchema, refTable, refColumn) =>
      OptionalWord(constraint) && IsWord(column) && OptionalWord(refSchema) && IsWord(refTable) && IsWord(refColumn)
    case CheckDef(constraint, expr) => OptionalWord(constraint) && Balanced(expr)
    case BlankDef => true
  }

  // ---------- what a definition means ----------

  function LengthOf(size: Size): Option<int> {
    match size
    case MaxSize => Some(-1)
    case Length(n) => Some(n as int)
    case _ => None
  }

  function PrecisionOf(size: Size): Option<(nat, nat)> {
    match size
    case Precision(p, _, s) => Some((p, s))
    case _ => None
  }

  function NamesOf(cs: seq<Listed>): seq<string> {
    if cs == [] then [] else [cs[0].name] + NamesOf(cs[1..])
  }

  function ColumnOf(c: Def): Column
    requires c.ColumnDef?
  {
    Column(c.name, Upper(c.typ), LengthOf(c.size), PrecisionOf(c.size), c.nullable, c.identity, false,
           c.byDefault.DefaultClause?)
  }

  function ItemOf(d: Def): Item {
    match d
    case ColumnDef(_, _, _, _, _, _, _) => ColumnItem(ColumnOf(d))
    case ComputedDef(name, _) => ColumnItem(Column(name, "COMPUTED", None, None, true, false, true, false))
    case PrimaryDef(_, _, columns) => KeyItem(NamesOf(columns))
    case UniqueDef(_, _, columns) => UniqueItem(NamesOf(columns))
    case ForeignDef(_, column, refSchema, refTable, refColumn) =>
      ForeignItem(ForeignKey(column, refSchema, refTable, refColumn))
    case _ => OtherItem
  }

  /** The default's name or expression mentions a keyword. */
  predicate Mentions(d: DefaultClause, keyword: string) {
    d.DefaultClause? && (Contains(Upper(d.expr), keyword) || (d.name.Some? && Contains(Upper(d.name.value), keyword)))
  }

  /** The size is written right behind the type. */
  predicate Glued(c: Def)
    requires c.ColumnDef?
  {
    !c.size.NoSize? && c.gaps.beforeSize == []
  }

  /** What the parser takes on trust: that white space ends the type, a default that says IDENTITY or
      NOT NULL is taken for the column to say so, and the first REFERENCES behind the column is taken
      for the keyword. */
  predicate Honest(d: Def) {
    match d
    case ColumnDef(_, _, _, identity, byDefault, nullable, _) =>
      !Glued(d) && (Mentions(byDefault, "IDENTITY") ==> identity) && (Mentions(byDefault, "NOT NULL") ==> !nullable)
    case ForeignDef(_, column, _, _, _) => !Contains(Upper(column), "REFERENCES")
    case _ => true
  }

  // ---------- statements ----------

  predicate PaddedOk(p: Padded) {
    DefOk(p.def) && IsBlank(p.before) && IsBlank(p.behind)
  }

  predicate DdlOk(t: Ddl) {
    && t.defs != [] && (forall i :: 0 <= i < |t.defs| ==> PaddedOk(t.defs[i]))
    && IsWord(t.name) && OptionalWord(t.schema)
    && BOM !in t.before
    && !Contains(Upper(t.before + "CREATE TABL"), "CREATE TABLE")
  }

  function PrintPadded(p: Padded): string
    requires PaddedOk(p)
  {
    p.before + PrintDef(p.def) + p.behind
  }

  function PrintAll(ps: seq<Padded>): (ts: seq<string>)
    requires forall i :: 0 <= i < |ps| ==> PaddedOk(ps[i])
    ensures |ts| == |ps|
    decreases |ps|
  {
    if ps == [] then [] else PrintAll(ps[..|ps| - 1]) + [PrintPadded(ps[|ps| - 1])]
  }

  function Body(t: Ddl): string
    requires DdlOk(t)
  {
    Join(PrintAll(t.defs), ',')
  }

  function Print(t: Ddl): string
    requires DdlOk(t)
  {
    t.before + ("CREATE TABLE " + Qualified(t.schema, t.name) + " " + Parens(Body(t))) + t.behind
  }

  function ItemsOf(ps: seq<Padded>): (items: seq<Item>)
    ensures |items| == |ps|
    decreases |ps|
  {
    if ps == [] then [] else ItemsOf(ps[..|ps| - 1]) + [ItemOf(ps[|ps| - 1].def)]
  }

  function TableOf(t: Ddl): Table {
    AddItems(Table(t.schema, t.name, [], [], [], []), ItemsOf(t.defs))
  }
}
