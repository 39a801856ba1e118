/** Examples of the splitter on typical statements. Each example is an
    instance of a general lemma over arbitrary plain text,
    quoted bodies and comment bodies, derived from the region laws rather than
    by evaluating the scanner. */
module SqlExamples {
  import opened Text
  import opened Py
  import opened SqlSplit
  import opened SqlLaws

  // ---------------------------------------------------------------------------
  // Building blocks

  /** Scanning nothing changes nothing. */
  lemma RunEmpty(sc: Scan)
    requires ValidMode(sc.mode)
    ensures Run("", sc) == sc
  {
  }

  /** A final `;` in normal mode flushes the buffer. */
  lemma RunFinalSemicolon(buf: string, stmts: seq<string>)
    ensures Run(";", Scan(Normal, buf, stmts)) == Scan(Normal, [], stmts + Flush(buf))
  {
    SemicolonStep("", Scan(Normal, buf, stmts));
  }

  /** Leading plain text becomes the start of the first statement. */
  lemma PlainStart(p: string, z: string)
    requires forall k :: 0 <= k < |p| ==> PlainChar(p[k])
    ensures Run(p + z, Start) == Run(z, Scan(Normal, p, []))
  {
    PlainText(p, z, [], []);
    assert [] + p == p;
  }

  /** A scan that ends in normal mode with an empty buffer. */
  lemma SplitOfFinished(text: string, x: seq<string>)
    requires Run(text, Start) == Scan(Normal, [], x)
    ensures Split(text) == x
  {
    assert Flush([]) == [];
  }

  /** A statement flushes to itself. */
  lemma FlushStatement(s: string)
    requires IsStatement(s)
    ensures Flush(s) == [s]
  {
    StripOfStripped(s);
  }

  /** The `Flush` of a buffer whose core is already a statement. */
  lemma FlushPadded(a: string, r: string, b: string)
    requires AllSpace(a) && AllSpace(b) && IsStatement(r)
    ensures Flush(a + r + b) == [r]
  {
    StripUnique(a, r, b);
  }

  /** A body without the closing quote character is a quoted body. */
  lemma {:induction false} NoQuoteIsBody(b: string, q: char)
    requires forall k :: 0 <= k < |b| ==> b[k] != q
    ensures QuotedBody(b, q)
    decreases |b|
  {
    if b != [] {
      NoQuoteIsBody(b[1..], q);
    }
  }

  /** A body without `$` cannot contain a dollar tag. */
  lemma NoDollarNoTag(b: string, tag: string, z: string)
    requires IsDollarTag(tag)
    requires forall k :: 0 <= k < |b| ==> b[k] != '$'
    ensures NoTagBefore(b + tag + z, tag, |b|)
  {
    var s := b + tag + z;
    forall k | 0 <= k < |b|
      ensures !StartsWith(s[k..], tag)
    {
      assert s[k..][0] == b[k];
    }
  }

  /** A comment body without `*` cannot hold the closing star-slash. */
  lemma NoStarNoClose(c: string, d: string)
    requires forall k :: 0 <= k < |c| ==> c[k] != '*'
    ensures NoTagBefore(c + "*/" + d, "*/", |c|)
  {
    var s := c + "*/" + d;
    forall k | 0 <= k < |c|
      ensures !StartsWith(s[k..], "*/")
    {
      assert s[k..][0] == c[k];
    }
  }

  /** `$` followed by tag characters and a `;` opens no tag. */
  lemma UnclosedTag(x: string)
    requires forall k :: 0 <= k < |x| ==> IsTagChar(x[k])
    ensures DollarTagAt("$" + x + ";") == None
  {
    var z := "$" + x + ";";
    var n := TagCharRun(z, 1);
    if n > |x| + 1 {
      assert IsTagChar(z[|x| + 1]);
    }
  }

  /** A `$` that does not open a dollar tag is ordinary text. */
  lemma StrayDollar(rest: string, buf: string, stmts: seq<string>)
    requires rest != [] && rest[0] == '$' && DollarTagAt(rest) == None
    ensures Run(rest, Scan(Normal, buf, stmts)) == Run(rest[1..], Scan(Normal, buf + "$", stmts))
  {
    assert !NextIs(rest, '-') || rest[0] != '-';
  }

  /** Plain text with a non-blank first character. */
  predicate PlainLead(p: string) {
    && p != [] && !IsSpace(p[0])
    && forall k :: 0 <= k < |p| ==> PlainChar(p[k])
  }

  /** Text that starts and ends with a non-blank is a statement. */
  lemma StrippedStatement(p: string, tail: string)
    requires p != [] && !IsSpace(p[0]) && tail != [] && !IsSpace(tail[|tail| - 1])
    ensures IsStatement(p + tail)
  {
    assert (p + tail)[0] == p[0];
    assert (p + tail)[|p + tail| - 1] == tail[|tail| - 1];
  }

  lemma Assoc4<T>(a: seq<T>, b: seq<T>, c: seq<T>, d: seq<T>)
    ensures a + b + c + d == a + (b + c + d)
  {
  }

  // ---------------------------------------------------------------------------
  // Quoted and dollar-quoted literals

  lemma QuotedRun(p: string, q: char, b: string)
    requires q == '\'' || q == '"'
    requires forall k :: 0 <= k < |p| ==> PlainChar(p[k])
    requires QuotedBody(b, q)
    ensures Run(p + ([q] + b + [q]) + ";", Start) == Scan(Normal, [], Flush(p + ([q] + b + [q])))
  {
    QuotedRegion(q, b, ";", p, []);
    Assoc4(p, [q], b, [q]);
    var lit := [q] + b + [q];
    Assoc(p, lit, ";");
    PlainStart(p, lit + ";");
    RunFinalSemicolon(p + lit, []);
  }

  lemma DollarRun(p: string, tag: string, b: string)
    requires IsDollarTag(tag)
    requires forall k :: 0 <= k < |p| ==> PlainChar(p[k])
    requires forall k :: 0 <= k < |b| ==> b[k] != '$'
    ensures Run(p + (tag + b + tag) + ";", Start) == Scan(Normal, [], Flush(p + (tag + b + tag)))
  {
    NoDollarNoTag(b, tag, ";");
    DollarRegion(tag, b, ";", p, []);
    Assoc4(p, tag, b, tag);
    var lit := tag + b + tag;
    Assoc(p, lit, ";");
    PlainStart(p, lit + ";");
    RunFinalSemicolon(p + lit, []);
  }

  /** One statement whose quoted literal holds text that would otherwise
      split or open a comment: it is emitted whole. */
  lemma QuotedStatement(p: string, q: char, b: string)
    requires q == '\'' || q == '"'
    requires PlainLead(p) && QuotedBody(b, q)
    ensures Split(p + ([q] + b + [q]) + ";") == [p + ([q] + b + [q])]
  {
    QuotedRun(p, q, b);
    StrippedStatement(p, [q] + b + [q]);
    FlushStatement(p + ([q] + b + [q]));
    SplitOfFinished(p + ([q] + b + [q]) + ";", [p + ([q] + b + [q])]);
  }

  /** One statement whose dollar-quoted body holds a `;`: it is emitted
      whole, both tags included. */
  lemma DollarStatement(p: string, tag: string, b: string)
    requires PlainLead(p) && IsDollarTag(tag)
    requires forall k :: 0 <= k < |b| ==> b[k] != '$'
    ensures Split(p + (tag + b + tag) + ";") == [p + (tag + b + tag)]
  {
    var lit := tag + b + tag;
    DollarRun(p, tag, b);
    assert lit[|lit| - 1] == '$';
    StrippedStatement(p, lit);
    FlushStatement(p + lit);
    SplitOfFinished(p + lit + ";", [p + lit]);
  }

  lemma StrayDollarRun(p: string, x: string)
    requires forall k :: 0 <= k < |p| ==> PlainChar(p[k])
    requires forall k :: 0 <= k < |x| ==> IsTagChar(x[k])
    ensures Run(p + ("$" + x + ";"), Start) == Run(x + ";", Scan(Normal, p + "$", []))
  {
    var r := "$" + x + ";";
    UnclosedTag(x);
    HeadTail('$', x, ";");
    assert r == ['$'] + x + ";";
    PlainStart(p, r);
    StrayDollar(r, p, []);
  }

  lemma StrayDollarRunToEnd(p: string, x: string)
    requires forall k :: 0 <= k < |p| ==> PlainChar(p[k])
    requires forall k :: 0 <= k < |x| ==> IsTagChar(x[k])
    ensures Run(p + ("$" + x + ";"), Start) == Scan(Normal, [], Flush(p + "$" + x))
  {
    StrayDollarRun(p, x);
    assert forall k :: 0 <= k < |x| ==> PlainChar(x[k]);
    PlainText(x, ";", p + "$", []);
    RunFinalSemicolon(p + "$" + x, []);
  }

  /** A `$` that opens no tag (as in a positional parameter) is ordinary text. */
  lemma StrayDollarStatement(p: string, x: string)
    requires PlainLead(p)
    requires x != [] && forall k :: 0 <= k < |x| ==> IsTagChar(x[k])
    ensures Split(p + ("$" + x + ";")) == [p + "$" + x]
  {
    StrayDollarRunToEnd(p, x);
    assert !IsSpace(x[|x| - 1]);
    StrippedStatement(p, "$" + x);
    Assoc(p, "$", x);
    FlushStatement(p + "$" + x);
    SplitOfFinished(p + ("$" + x + ";"), [p + "$" + x]);
  }

  // ---------------------------------------------------------------------------
  // Comments

  /** Plain text that is already a statement splits to itself and leaves the
      scanner in normal mode. */
  lemma PlainStatement(a: string)
    requires IsStatement(a) && forall k :: 0 <= k < |a| ==> PlainChar(a[k])
    ensures EndsNormal(a) && Split(a) == [a]
  {
    PlainText(a, "", [], []);
    assert a + "" == a && [] + a == a;
    RunEmpty(Scan(Normal, a, []));
    PlainTextIsOneStatement(a);
    StripOfStripped(a);
  }

  lemma LineCommentRun(c: string, d: string)
    requires forall k :: 0 <= k < |c| ==> c[k] != '\n'
    requires forall k :: 0 <= k < |d| ==> PlainChar(d[k])
    ensures Run(" --" + c + "\n" + d + ";", Start) == Scan(Normal, [], Flush(" " + d))
  {
    var z := d + ";";
    var sp := " ";
    assert " --" == sp + "--";
    Regroup6(sp, "--", c, "\n", d, ";");
    PlainStart(sp, "--" + c + "\n" + z);
    LineCommentRegion(c, z, sp, []);
    assert IsSpace(sp[0]);
    assert Gap(sp) == [];
    assert sp + [] == sp;
    PlainText(d, ";", " ", []);
    RunFinalSemicolon(" " + d, []);
  }

  /** A statement after a line comment: neither the comment nor a `;` in it
      leaves a trace. */
  lemma CommentThenStatement(c: string, d: string)
    requires forall k :: 0 <= k < |c| ==> c[k] != '\n'
    requires IsStatement(d) && forall k :: 0 <= k < |d| ==> PlainChar(d[k])
    ensures Split(" --" + c + "\n" + d + ";") == [d]
  {
    LineCommentRun(c, d);
    FlushPadded(" ", d, "");
    assert " " + d + "" == " " + d;
    SplitOfFinished(" --" + c + "\n" + d + ";", [d]);
  }

  lemma LineCommentShape(a: string, c: string, d: string)
    ensures a + "; --" + c + "\n" + d + ";" == a + ";" + (" --" + c + "\n" + d + ";")
  {
    assert "; --" == ";" + " --";
    Assoc(a, ";", " --");
    Assoc(a + ";", " --", c);
    Assoc(a + ";", " --" + c, "\n");
    Assoc(a + ";", " --" + c + "\n", d);
    Assoc(a + ";", " --" + c + "\n" + d, ";");
  }

  /** Two plain statements with a line comment after the first `;`. */
  lemma LineCommentBetween(a: string, c: string, d: string)
    requires IsStatement(a) && forall k :: 0 <= k < |a| ==> PlainChar(a[k])
    requires forall k :: 0 <= k < |c| ==> c[k] != '\n'
    requires IsStatement(d) && forall k :: 0 <= k < |d| ==> PlainChar(d[k])
    ensures Split(a + "; --" + c + "\n" + d + ";") == [a, d]
  {
    PlainStatement(a);
    CommentThenStatement(c, d);
    LineCommentShape(a, c, d);
    SplitAtSemicolon(a, " --" + c + "\n" + d + ";");
  }

  lemma BlockCommentShape(a: string, c: string, d: string)
    ensures a + "/*" + c + "*/" + d == a + ("/*" + c + "*/" + d)
  {
    Assoc(a, "/*", c);
    Assoc(a, "/*" + c, "*/");
    Assoc(a, "/*" + c + "*/", d);
  }

  lemma BlockCommentTail(c: string, d: string, a: string)
    requires a != [] && !IsSpace(a[|a| - 1])
    requires forall k :: 0 <= k < |c| ==> c[k] != '*'
    requires forall k :: 0 <= k < |d| ==> PlainChar(d[k])
    ensures Run("/*" + c + "*/" + d, Scan(Normal, a, [])) == Scan(Normal, a + " " + d, [])
  {
    NoStarNoClose(c, d);
    BlockCommentRegion(c, d, a, []);
    assert Gap(a) == " ";
    PlainText(d, "", a + " ", []);
    assert d + "" == d;
    RunEmpty(Scan(Normal, a + " " + d, []));
  }

  /** A block comment glued between two tokens becomes exactly one space. */
  lemma BlockCommentBetween(a: string, c: string, d: string)
    requires IsStatement(a) && forall k :: 0 <= k < |a| ==> PlainChar(a[k])
    requires forall k :: 0 <= k < |c| ==> c[k] != '*'
    requires IsStatement(d) && forall k :: 0 <= k < |d| ==> PlainChar(d[k])
    ensures Split(a + "/*" + c + "*/" + d) == [a + " " + d]
  {
    BlockCommentShape(a, c, d);
    PlainStart(a, "/*" + c + "*/" + d);
    BlockCommentTail(c, d, a);
    StrippedStatement(a, " " + d);
    Assoc(a, " ", d);
    FlushStatement(a + " " + d);
  }

  // ---------------------------------------------------------------------------
  // Examples

  /** A statement with one single-quoted literal, as written in SQL text. */
  lemma SingleQuoted(p: string, b: string)
    requires PlainLead(p) && QuotedBody(b, '\'')
    ensures Split(p + "'" + b + "';") == [p + "'" + b + "'"]
  {
    var q := ['\''];
    assert "'" == q && "';" == q + ";";
    QuotedStatement(p, '\'', b);
    Enclose(p, q, b, q, ";");
  }

  lemma HeadTail<T>(h: T, x: seq<T>, z: seq<T>)
    ensures ([h] + x + z)[0] == h && ([h] + x + z)[1..] == x + z
  {
  }

  lemma Regroup6<T>(a: seq<T>, b: seq<T>, c: seq<T>, d: seq<T>, e: seq<T>, f: seq<T>)
    ensures (a + b) + c + d + e + f == a + (b + c + d + (e + f))
  {
  }

  lemma Enclose<T>(p: seq<T>, l: seq<T>, b: seq<T>, r: seq<T>, z: seq<T>)
    ensures p + l + b + (r + z) == p + (l + b + r) + z
    ensures p + l + b + r == p + (l + b + r)
  {
  }

  /** A statement with one `$$`-quoted body, as written in SQL text. */
  lemma DoubleDollar(p: string, b: string)
    requires PlainLead(p) && forall k :: 0 <= k < |b| ==> b[k] != '$'
    ensures Split(p + "$$" + b + "$$;") == [p + "$$" + b + "$$"]
  {
    var d := "$$";
    assert IsDollarTag(d) && "$$;" == d + ";";
    DollarStatement(p, d, b);
    Enclose(p, d, b, d, ";");
  }

  /** An unterminated last statement is still emitted. */
  lemma SplitTail(text: string)
    requires text == "SELECT 1"
    ensures Split(text) == [text]
  {
    assert PlainLead(text);
    PlainTextIsOneStatement(text);
    assert !AllSpace(text) by { assert !IsSpace(text[0]); }
    StripOfStripped(text);
  }

  /** `SELECT 'semi;colon';` is one statement, semicolon preserved. */
  lemma SplitQuotedSemicolon(p: string, b: string)
    requires p == "SELECT " && b == "semi;colon"
    ensures Split(p + "'" + b + "';") == [p + "'" + b + "'"]
  {
    assert PlainLead(p);
    NoQuoteIsBody(b, '\'');
    SingleQuoted(p, b);
  }

  /** `SELECT 'it''s';` keeps the doubled quote and stays one statement. */
  lemma SplitDoubledQuote(p: string, b: string)
    requires p == "SELECT " && b == "it''s"
    ensures Split(p + "'" + b + "';") == [p + "'" + b + "'"]
  {
    assert PlainLead(p);
    assert QuotedBody(b, '\'') by {
      NoQuoteIsBody("s", '\'');
      assert "''s"[2..] == "s";
      assert "t''s"[1..] == "''s";
      assert b[1..] == "t''s";
    }
    SingleQuoted(p, b);
  }

  /** `SELECT $$a;b$$;` is one statement, dollar-quoted text verbatim. */
  lemma SplitDollarSemicolon(p: string, b: string)
    requires p == "SELECT " && b == "a;b"
    ensures Split(p + "$$" + b + "$$;") == [p + "$$" + b + "$$"]
  {
    assert PlainLead(p);
    assert forall k :: 0 <= k < |b| ==> b[k] != '$';
    DoubleDollar(p, b);
  }

  /** `SELECT $1;`: a `$` without a closing `$` is ordinary text. */
  lemma SplitStrayDollar(p: string)
    requires p == "SELECT "
    ensures Split(p + "$1;") == [p + "$1"]
  {
    assert PlainLead(p);
    StrayDollarStatement(p, "1");
    assert p + ("$" + "1" + ";") == p + "$1;";
    assert p + "$" + "1" == p + "$1";
  }

  /** `SELECT 1; -- a;b` newline `SELECT 2;` is exactly `SELECT 1` and
      `SELECT 2`. */
  lemma SplitLineComment(a: string, c: string, d: string)
    requires a == "SELECT 1" && c == " a;b" && d == "SELECT 2"
    ensures Split(a + "; --" + c + "\n" + d + ";") == [a, d]
  {
    assert IsStatement(a) && forall k :: 0 <= k < |a| ==> PlainChar(a[k]);
    assert IsStatement(d) && forall k :: 0 <= k < |d| ==> PlainChar(d[k]);
    assert forall k :: 0 <= k < |c| ==> c[k] != '\n';
    LineCommentBetween(a, c, d);
  }

  /** `SELECT 1`, a block comment holding `c;`, then `FROM t` with no blank
      around the comment: one statement, `SELECT 1 FROM t`. */
  lemma SplitBlockComment(a: string, c: string, d: string)
    requires a == "SELECT 1" && c == "c;" && d == "FROM t"
    ensures Split(a + "/*" + c + "*/" + d) == [a + " " + d]
  {
    assert IsStatement(a) && forall k :: 0 <= k < |a| ==> PlainChar(a[k]);
    assert IsStatement(d) && forall k :: 0 <= k < |d| ==> PlainChar(d[k]);
    assert forall k :: 0 <= k < |c| ==> c[k] != '*';
    BlockCommentBetween(a, c, d);
  }
}
