/** The two comment strippers, written independently of each other:
    `strip_comments` in `crates/said-forge/src/schema.rs` and
    `strip_sql_comments` in `crates/said-forge/src/proc_analysis.rs`. Texts are
    ASCII, where bytes and characters are the same thing. */
module SqlComments {
  import opened Text

  predicate Starts(s: string, i: nat, a: char, b: char) {
    i + 1 < |s| && s[i] == a && s[i + 1] == b
  }

  /** How far a line comment reaches: up to the line break, not over it. */
  function LineEnd(s: string, i: nat): (j: nat)
    requires i <= |s|
    ensures i <= j <= |s|
    ensures (forall k :: i <= k < j ==> s[k] != '\n') && (j < |s| ==> s[j] == '\n')
    decreases |s| - i
  {
    if i == |s| || s[i] == '\n' then i else LineEnd(s, i + 1)
  }

  /** Where the first closing mark is; without one, where a search that looks at two
      characters at a time gives up. */
  function CloseAt(s: string, i: nat): (j: nat)
    requires i <= |s|
    ensures i <= j <= |s|
    ensures forall k :: i <= k < j ==> !Starts(s, k, '*', '/')
    ensures Starts(s, j, '*', '/') || j + 1 >= |s|
    ensures j == |s| ==> i == |s|
    decreases |s| - i
  {
    if i + 1 >= |s| || Starts(s, i, '*', '/') then i else CloseAt(s, i + 1)
  }

  // ---------- the stripper of the schema parser ----------

  function StripSchema(s: string, i: nat): string
    requires i <= |s|
    decreases |s| - i
  {
    if i == |s| then []
    else if Starts(s, i, '-', '-') then StripSchema(s, LineEnd(s, i))
    else if Starts(s, i, '/', '*') then
      var j := CloseAt(s, i + 2);
      StripSchema(s, if j + 1 < |s| then j + 2 else j)
    else [s[i]] + StripSchema(s, i + 1)
  }

  method StripComments(s: string) returns (out: string)
    ensures out == StripSchema(s, 0)
  {
    out := [];
    var i := 0;
    ghost var goal := StripSchema(s, i);
    while i < |s|
      invariant 0 <= i <= |s|
      invariant out + StripSchema(s, i) == goal
    {
      if i + 1 < |s| && s[i] == '-' && s[i + 1] == '-' {
        ghost var end := LineEnd(s, i);
        while i < |s| && s[i] != '\n'
          invariant i <= |s| && LineEnd(s, i) == end
        {
          i := i + 1;
        }
        continue;
      }
      if i + 1 < |s| && s[i] == '/' && s[i + 1] == '*' {
        ghost var close := CloseAt(s, i + 2);
        i := i + 2;
        while i + 1 < |s| && !(s[i] == '*' && s[i + 1] == '/')
          invariant i <= |s| && CloseAt(s, i) == close
        {
          i := i + 1;
        }
        if i + 1 < |s| {
          i := i + 2;
        }
        continue;
      }
      out := out + [s[i]];
      i := i + 1;
    }
  }

  // ---------- the stripper of the procedure analysis ----------

  function StripSql(s: string, i: nat): string
    requires i <= |s|
    decreases |s| - i
  {
    if i == |s| then []
    else if Starts(s, i, '/', '*') then
      var j := CloseAt(s, i + 2) + 2;
      StripSql(s, if j < |s| then j else |s|)
    else if Starts(s, i, '-', '-') then StripSql(s, LineEnd(s, i))
    else [s[i]] + StripSql(s, i + 1)
  }

  method StripSqlComments(body: string) returns (out: string)
    ensures out == StripSql(body, 0)
  {
    out := [];
    var i := 0;
    ghost var goal := StripSql(body, i);
    while i < |body|
      invariant 0 <= i <= |body|
      invariant out + StripSql(body, i) == goal
    {
      var b := body[i];
      if b == '/' && i + 1 < |body| && body[i + 1] == '*' {
        var j := i + 2;
        ghost var close := CloseAt(body, j);
        while j + 1 < |body| && !(body[j] == '*' && body[j + 1] == '/')
          invariant i + 2 <= j <= |body| && CloseAt(body, j) == close
        {
          j := j + 1;
        }
        i := if j + 2 < |body| then j + 2 else |body|;
        continue;
      }
      if b == '-' && i + 1 < |body| && body[i + 1] == '-' {
        ghost var end := LineEnd(body, i);
        while i < |body| && body[i] != '\n'
          invariant i <= |body| && LineEnd(body, i) == end
        {
          i := i + 1;
        }
        continue;
      }
      out := out + [b];
      i := i + 1;
    }
  }

  // ---------- a text as code and comment spans ----------

  datatype Kind = Code | LineComment | BlockComment

  /** A text cut into spans: each goes from where the last one ended to `to`. */
  datatype Spans = Done | Span(kind: Kind, to: nat, rest: Spans)

  /** The span from i to j, read from the left as far as it goes: a code character
      begins no comment, a line comment runs to the end of its line, a block ends
      at the first closing mark. */
  ghost predicate IsSpan(s: string, i: nat, kind: Kind, j: nat) {
    i < j <= |s| &&
    match kind
    case Code => j == i + 1 && !Starts(s, i, '-', '-') && !Starts(s, i, '/', '*')
    case LineComment =>
      Starts(s, i, '-', '-') && (forall k :: i <= k < j ==> s[k] != '\n') && (j < |s| ==> s[j] == '\n')
    case BlockComment =>
      && Starts(s, i, '/', '*') && i + 4 <= j && Starts(s, j - 2, '*', '/')
      && forall k :: i + 2 <= k < j - 2 ==> !Starts(s, k, '*', '/')
  }

  /** A block comment without a closing mark. */
  ghost predicate OpenBlock(s: string, i: nat) {
    Starts(s, i, '/', '*') && forall k :: i + 2 <= k < |s| ==> !Starts(s, k, '*', '/')
  }

  /** The spans cover the text from i to its end, or to an open block at `end`. */
  ghost predicate ReadsAs(s: string, i: nat, spans: Spans, end: nat)
    decreases spans
  {
    match spans
    case Done => i == end && (i == |s| || OpenBlock(s, i))
    case Span(kind, j, rest) => IsSpan(s, i, kind, j) && ReadsAs(s, j, rest, end)
  }

  /** The characters outside comments. */
  function Kept(s: string, i: nat, spans: Spans): string
    decreases spans
  {
    match spans
    case Done => []
    case Span(kind, j, rest) => (if kind.Code? && i < |s| then [s[i]] else []) + Kept(s, j, rest)
  }

  /** Every text can be read this way. */
  lemma {:induction false} EveryTextReads(s: string, i: nat) returns (spans: Spans, end: nat)
    requires i <= |s|
    ensures ReadsAs(s, i, spans, end)
    decreases |s| - i
  {
    if i == |s| || OpenBlock(s, i) {
      return Done, i;
    }
    var kind, j := FirstSpan(s, i);
    spans, end := EveryTextReads(s, j);
    spans := Span(kind, j, spans);
  }

  lemma {:induction false} FirstSpan(s: string, i: nat) returns (kind: Kind, j: nat)
    requires i < |s| && !OpenBlock(s, i)
    ensures IsSpan(s, i, kind, j)
  {
    if Starts(s, i, '-', '-') {
      kind, j := LineComment, LineEnd(s, i);
    } else if Starts(s, i, '/', '*') {
      kind, j := BlockComment, CloseAt(s, i + 2) + 2;
    } else {
      kind, j := Code, i + 1;
    }
  }

  /** Both strippers pass over a span the same way. */
  lemma {:induction false} SpanStripped(s: string, i: nat, kind: Kind, j: nat)
    requires IsSpan(s, i, kind, j)
    ensures var kept := if kind.Code? then [s[i]] else [];
      StripSchema(s, i) == kept + StripSchema(s, j) && StripSql(s, i) == kept + StripSql(s, j)
  {
    match kind
    case Code =>
    case LineComment =>
      assert LineEnd(s, i) == j;
    case BlockComment =>
      assert CloseAt(s, i + 2) == j - 2;
  }

  /** An open block disappears, except that the schema parser's stripper gives back its
      last character when anything follows the opening mark. */
  lemma {:induction false} OpenBlockStripped(s: string, i: nat)
    requires OpenBlock(s, i)
    ensures StripSql(s, i) == []
    ensures StripSchema(s, i) == if i + 2 == |s| then [] else [s[|s| - 1]]
  {
    var j := CloseAt(s, i + 2);
    if i + 2 < |s| {
      assert j == |s| - 1;
      assert StripSchema(s, |s| - 1) == [s[|s| - 1]] + StripSchema(s, |s|);
    }
  }

  /** Stripping deletes the comment spans; behind an open block the schema parser's
      stripper keeps one character more. */
  lemma {:induction false} StrippersDelete(s: string, i: nat, spans: Spans, end: nat)
    requires i <= |s| && ReadsAs(s, i, spans, end)
    ensures end <= |s|
    ensures StripSql(s, i) == Kept(s, i, spans)
    ensures StripSchema(s, i) == Kept(s, i, spans) + if end + 2 < |s| then [s[|s| - 1]] else []
    decreases spans
  {
    match spans
    case Done =>
      if i < |s| {
        OpenBlockStripped(s, i);
      }
    case Span(kind, j, rest) =>
      SpanStripped(s, i, kind, j);
      StrippersDelete(s, j, rest, end);
  }

  /** No block comment is left open behind at least one more character. */
  ghost predicate BlocksClosed(s: string) {
    forall spans, end: nat :: ReadsAs(s, 0, spans, end) ==> end + 2 >= |s|
  }

  /** The two strippers give the same text exactly when no block comment is left open
      behind at least one more character. */
  lemma {:induction false} StrippersAgree(s: string)
    ensures StripSchema(s, 0) == StripSql(s, 0) <==> BlocksClosed(s)
  {
    forall spans, end: nat | ReadsAs(s, 0, spans, end)
      ensures StripSchema(s, 0) == StripSql(s, 0) <==> end + 2 >= |s|
    {
      StrippersDelete(s, 0, spans, end);
    }
    var spans, end := EveryTextReads(s, 0);
  }

  /** A comment of either kind begins here. */
  predicate CommentAt(s: string, i: nat) {
    Starts(s, i, '-', '-') || Starts(s, i, '/', '*')
  }

  /** Up to the first comment a text stays as it is. */
  lemma {:induction false} CodeStays(s: string, i: nat, end: nat)
    requires i <= end <= |s| && forall k :: i <= k < end ==> !CommentAt(s, k)
    ensures StripSchema(s, i) == s[i..end] + StripSchema(s, end)
    decreases end - i
  {
    if i < end {
      CodeStays(s, i + 1, end);
      CodeStep(s, i);
      assert s[i..end] == [s[i]] + s[i + 1..end];
      assert [s[i]] + (s[i + 1..end] + StripSchema(s, end)) == s[i..end] + StripSchema(s, end);
    } else {
      assert s[i..end] + StripSchema(s, end) == StripSchema(s, end);
    }
  }

  lemma {:induction false} CodeStep(s: string, i: nat)
    requires i < |s| && !CommentAt(s, i)
    ensures StripSchema(s, i) == [s[i]] + StripSchema(s, i + 1)
  {
  }

  /** No comment in the text ever ends: there is neither a line break nor a closing mark. */
  ghost predicate NothingEnds(s: string) {
    '\n' !in s && forall k :: 0 <= k < |s| ==> !Starts(s, k, '*', '/')
  }

  /** Such a comment takes the rest of the text along, but for the character that the schema parser's
      stripper gives back. */
  lemma {:induction false} EndlessComment(s: string, i: nat)
    requires NothingEnds(s) && CommentAt(s, i)
    ensures |StripSchema(s, i)| <= 1 && (s[i] == '-' ==> StripSchema(s, i) == [])
  {
    if Starts(s, i, '-', '-') {
      assert LineEnd(s, i) == |s|;
    } else {
      OpenBlockStripped(s, i);
    }
  }
}
