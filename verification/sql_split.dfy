/** The statement splitter of the query-profiling harness
    (`_split_sql_statements` and `_iter_queries` in scripts/run_queries.py).

    The Python loop keeps an index into the text and five flags; here the
    scanner keeps one tagged `Mode` and works on the part of the text not yet
    consumed, so every step looks only forward. A step consumes one or more
    characters, which is what makes the scan terminate. */
module SqlSplit {
  import opened Text
  import opened Py

  /** The lexical mode. At most one of the source's flags is ever set, so the
      flags are exactly these six cases. */
  datatype Mode =
    | Normal
    | SingleQuoted
    | DoubleQuoted
    | LineComment
    | BlockComment
    | DollarQuoted(tag: string)

  /** Scanner state between two steps: the mode, the text of the statement
      being built (`buf`) and the statements emitted so far. */
  datatype Scan = Scan(mode: Mode, buf: string, stmts: seq<string>)

  /** The result of one step: how many characters it consumed and the new state. */
  datatype Move = Move(width: nat, next: Scan)

  const Start := Scan(Normal, [], [])

  /** A character of the class `[A-Za-z0-9_]`. */
  predicate IsTagChar(c: char) {
    ('A' <= c <= 'Z') || ('a' <= c <= 'z') || ('0' <= c <= '9') || c == '_'
  }

  /** A string matching `\$[A-Za-z0-9_]*\$` in full, such as `$$` or `$body$`. */
  predicate IsDollarTag(t: string) {
    && |t| >= 2
    && t[0] == '$'
    && t[|t| - 1] == '$'
    && forall k :: 0 < k < |t| - 1 ==> IsTagChar(t[k])
  }

  /** A dollar-quoted mode always carries a well-formed tag. */
  predicate ValidMode(m: Mode) {
    m.DollarQuoted? ==> IsDollarTag(m.tag)
  }

  /** What the splitter promises of every statement: non-empty and trimmed. */
  predicate IsStatement(s: string) {
    s != [] && IsStripped(s)
  }

  predicate StartsWith(s: string, prefix: string) {
    |prefix| <= |s| && s[..|prefix|] == prefix
  }

  /** The character after the current one is `c` (the source compares with
      `""` past the end, which equals no character). */
  predicate NextIs(rest: string, c: char) {
    |rest| >= 2 && rest[1] == c
  }

  /** The first index at or after `i` that does not hold a tag character. */
  function TagCharRun(s: string, i: nat): (r: nat)
    requires i <= |s|
    ensures i <= r <= |s|
    ensures forall k :: i <= k < r ==> IsTagChar(s[k])
    ensures r == |s| || !IsTagChar(s[r])
    decreases |s| - i
  {
    if i < |s| && IsTagChar(s[i]) then TagCharRun(s, i + 1) else i
  }

  /** The match of `\$[A-Za-z0-9_]*\$` anchored at the start of `rest`: a tag
      prefix is returned exactly when there is one, and there is never more
      than one. */
  function DollarTagAt(rest: string): (r: Option<string>)
    ensures r.Some? ==> IsDollarTag(r.value) && StartsWith(rest, r.value)
    ensures forall n :: 2 <= n <= |rest| && IsDollarTag(rest[..n]) ==> r == Some(rest[..n])
  {
    if rest != [] && rest[0] == '$' then
      var n := TagCharRun(rest, 1);
      if n < |rest| && rest[n] == '$' then
        assert forall m :: 2 <= m <= |rest| && IsDollarTag(rest[..m]) ==> m == n + 1 by {
          forall m | 2 <= m <= |rest| && IsDollarTag(rest[..m])
            ensures m == n + 1
          {
            assert rest[..m][m - 1] == rest[m - 1];
          }
        }
        Some(rest[..n + 1])
      else
        assert forall m :: 2 <= m <= |rest| ==> !IsDollarTag(rest[..m]) by {
          forall m | 2 <= m <= |rest|
            ensures !IsDollarTag(rest[..m])
          {
            assert rest[..m][m - 1] == rest[m - 1];
          }
        }
        None
    else
      None
  }

  /** The synthetic space put before a comment: one blank when the statement
      text so far is non-empty and does not already end in whitespace. */
  function Gap(buf: string): (r: string)
    ensures |r| <= 1 && AllSpace(r)
    ensures r == [] <==> buf == [] || IsSpace(buf[|buf| - 1])
  {
    if buf != [] && !IsSpace(buf[|buf| - 1]) then " " else ""
  }

  /** The statements a finished buffer contributes: none when it is blank,
      otherwise its stripped text. */
  function Flush(buf: string): (r: seq<string>)
    ensures |r| <= 1
    ensures forall k :: 0 <= k < |r| ==> IsStatement(r[k])
    ensures r == [] <==> AllSpace(buf)
    ensures r != [] ==> r[0] == Strip(buf)
  {
    var st := Strip(buf);
    if st == [] then [] else [st]
  }

  /** One step inside a single- or double-quoted region closed by `q`. */
  function QuotedStep(rest: string, sc: Scan, q: char): (r: Move)
    requires rest != []
  {
    if rest[0] == q && NextIs(rest, q) then
      Move(2, sc.(buf := sc.buf + [q, q]))
    else if rest[0] == q then
      Move(1, Scan(Normal, sc.buf + [q], sc.stmts))
    else
      Move(1, sc.(buf := sc.buf + [rest[0]]))
  }

  /** One step in normal mode: comment openers, dollar tags, quotes and the
      statement terminator are recognised here and nowhere else. */
  function NormalStep(rest: string, sc: Scan): (r: Move)
    requires rest != []
  {
    var c := rest[0];
    if c == '-' && NextIs(rest, '-') then
      Move(2, Scan(LineComment, sc.buf + Gap(sc.buf), sc.stmts))
    else if c == '/' && NextIs(rest, '*') then
      Move(2, Scan(BlockComment, sc.buf + Gap(sc.buf), sc.stmts))
    else if c == '$' && DollarTagAt(rest).Some? then
      var tag := DollarTagAt(rest).value;
      Move(|tag|, Scan(DollarQuoted(tag), sc.buf + tag, sc.stmts))
    else if c == '\'' then
      Move(1, Scan(SingleQuoted, sc.buf + [c], sc.stmts))
    else if c == '"' then
      Move(1, Scan(DoubleQuoted, sc.buf + [c], sc.stmts))
    else if c == ';' then
      Move(1, Scan(Normal, [], sc.stmts + Flush(sc.buf)))
    else
      Move(1, sc.(buf := sc.buf + [c]))
  }

  /** One iteration of the source's loop. */
  function Step(rest: string, sc: Scan): (r: Move)
    requires rest != [] && ValidMode(sc.mode)
    // progress, within the text
    ensures 1 <= r.width <= |rest| && ValidMode(r.next.mode)
    // only a normal-mode `;` emits, and it emits the flushed buffer
    ensures r.next.stmts == sc.stmts
         || (sc.mode == Normal && rest[0] == ';' && r.width == 1
             && r.next == Scan(Normal, [], sc.stmts + Flush(sc.buf)))
    // otherwise the statement text only grows
    ensures (sc.mode == Normal && rest[0] == ';') || sc.buf <= r.next.buf
    // comment text is never copied
    ensures sc.mode.LineComment? || sc.mode.BlockComment? ==> r.next.buf == sc.buf
    // quoted text is copied verbatim
    ensures sc.mode.SingleQuoted? || sc.mode.DoubleQuoted? || sc.mode.DollarQuoted? ==>
              r.next.buf == sc.buf + rest[..r.width]
  {
    var c := rest[0];
    match sc.mode
    case LineComment =>
      Move(1, if c == '\n' then sc.(mode := Normal) else sc)
    case BlockComment =>
      if c == '*' && NextIs(rest, '/') then Move(2, sc.(mode := Normal)) else Move(1, sc)
    case DollarQuoted(tag) =>
      if StartsWith(rest, tag) then
        Move(|tag|, Scan(Normal, sc.buf + tag, sc.stmts))
      else
        Move(1, sc.(buf := sc.buf + [c]))
    case SingleQuoted =>
      QuotedStep(rest, sc, '\'')
    case DoubleQuoted =>
      QuotedStep(rest, sc, '"')
    case Normal =>
      NormalStep(rest, sc)
  }

  /** Runs the scanner to the end of `rest`. Statements are only ever
      appended, and every appended statement is non-empty and trimmed. */
  function Run(rest: string, sc: Scan): (r: Scan)
    requires ValidMode(sc.mode)
    ensures ValidMode(r.mode)
    ensures |sc.stmts| <= |r.stmts| && r.stmts[..|sc.stmts|] == sc.stmts
    ensures forall k :: |sc.stmts| <= k < |r.stmts| ==> IsStatement(r.stmts[k])
    decreases |rest|
  {
    if rest == [] then
      sc
    else
      var m := Step(rest, sc);
      var r := Run(rest[m.width..], m.next);
      PrefixOfPrefix(sc.stmts, m.next.stmts, r.stmts);
      r
  }

  /** Extension of sequences is transitive. */
  lemma PrefixOfPrefix<T>(a: seq<T>, b: seq<T>, c: seq<T>)
    requires |a| <= |b| <= |c|
    requires b[..|a|] == a && c[..|b|] == b
    ensures c[..|a|] == a
  {
    assert c[..|a|] == c[..|b|][..|a|];
  }

  /** `_split_sql_statements`: scan the whole text, then flush what is left in
      the buffer whatever the final mode, so an unterminated last statement is
      still emitted. */
  function Split(text: string): (r: seq<string>)
    ensures forall k :: 0 <= k < |r| ==> IsStatement(r[k])
  {
    var end := Run(text, Start);
    end.stmts + Flush(end.buf)
  }

  /** Keeps the statements that are not blank after stripping. */
  function NonBlank(stmts: seq<string>): (r: seq<string>)
    ensures |r| <= |stmts|
    ensures forall k :: 0 <= k < |r| ==> Strip(r[k]) != []
    ensures forall s :: s in r <==> s in stmts && Strip(s) != []
  {
    if stmts == [] then []
    else (if Strip(stmts[0]) != [] then [stmts[0]] else []) + NonBlank(stmts[1..])
  }

  /** The filter keeps order: filtering a concatenation filters each part
      in turn. */
  lemma {:induction false} NonBlankAppend(a: seq<string>, b: seq<string>)
    ensures NonBlank(a + b) == NonBlank(a) + NonBlank(b)
    decreases |a|
  {
    if a != [] {
      assert (a + b)[0] == a[0] && (a + b)[1..] == a[1..] + b;
      NonBlankAppend(a[1..], b);
    } else {
      assert a + b == b;
    }
  }

  /** `_iter_queries` once the file has been read into `text`. */
  function IterQueries(text: string): seq<string> {
    NonBlank(Split(text))
  }

  /** The filter in `_iter_queries` never removes anything: the splitter
      already drops blank statements. */
  lemma {:induction false} NonBlankKeepsStatements(stmts: seq<string>)
    requires forall k :: 0 <= k < |stmts| ==> IsStatement(stmts[k])
    ensures NonBlank(stmts) == stmts
    decreases |stmts|
  {
    if stmts != [] {
      StripOfStripped(stmts[0]);
      NonBlankKeepsStatements(stmts[1..]);
    }
  }

  lemma IterQueriesIsSplit(text: string)
    ensures IterQueries(text) == Split(text)
  {
    NonBlankKeepsStatements(Split(text));
  }
}
