/** Laws of the statement splitter. Each "region" lemma says what scanning a
    whole lexical region does, in one equation between two runs of the scanner:
    quoted and dollar-quoted text is copied verbatim with any `;` inside it,
    comment text disappears (leaving at most the one synthetic space), and the
    scanner is back in normal mode afterwards. */
module SqlLaws {
  import opened Text
  import opened Py
  import opened SqlSplit

  /** A text after which the scanner is back in normal mode: every quote,
      comment and dollar-quoted region in it is closed. */
  predicate EndsNormal(text: string) {
    Run(text, Start).mode == Normal
  }

  /** A character that never changes the scanner's mode in normal mode. */
  predicate PlainChar(c: char) {
    c != ';' && c != '\'' && c != '"' && c != '$' && c != '-' && c != '/'
  }

  /** The body of a quoted region closed by `q`: characters other than `q`,
      and doubled `qq` pairs standing for one literal quote. */
  predicate QuotedBody(b: string, q: char)
    decreases |b|
  {
    || b == []
    || (b[0] != q && QuotedBody(b[1..], q))
    || (|b| >= 2 && b[0] == q && b[1] == q && QuotedBody(b[2..], q))
  }

  lemma QuotedBodyAfterChar(b: string, q: char)
    requires QuotedBody(b, q) && b != [] && b[0] != q
    ensures QuotedBody(b[1..], q)
  {
  }

  lemma QuotedBodyAfterPair(b: string, q: char)
    requires QuotedBody(b, q) && b != [] && b[0] == q
    ensures |b| >= 2 && b[1] == q && QuotedBody(b[2..], q)
  {
  }

  function QuoteMode(q: char): Mode
    requires q == '\'' || q == '"'
  {
    if q == '\'' then SingleQuoted else DoubleQuoted
  }

  /** The number of semicolons in `s`. */
  function Semicolons(s: string): nat
    decreases |s|
  {
    if s == [] then 0 else (if s[0] == ';' then 1 else 0) + Semicolons(s[1..])
  }

  /** Sequence identities, kept out of the contexts where the scanner's
      definitions are unfolded. */
  lemma Peel<T>(b: seq<T>, m: seq<T>, z: seq<T>, n: nat)
    requires n <= |b|
    ensures (b + m + z)[n..] == b[n..] + m + z
    ensures forall i :: 0 <= i < n ==> (b + m + z)[i] == b[i]
  {
  }

  lemma EmptyMiddle<T>(a: seq<T>, b: seq<T>, c: seq<T>)
    requires a == [] || b == []
    ensures a + b + c == (if a == [] then b + c else a + c)
  {
  }

  lemma Regroup<T>(buf: seq<T>, b: seq<T>, n: nat, t: seq<T>)
    requires n <= |b|
    ensures buf + b[..n] + b[n..] + t == buf + b + t
  {
    assert b[..n] + b[n..] == b;
  }

  // ---------------------------------------------------------------------------
  // Statements emitted earlier never influence the scan

  lemma StepFrame(rest: string, sc: Scan, pre: seq<string>)
    requires rest != [] && ValidMode(sc.mode)
    ensures var m := Step(rest, sc);
      Step(rest, sc.(stmts := pre + sc.stmts)) == Move(m.width, m.next.(stmts := pre + m.next.stmts))
  {
    var c := rest[0];
    if sc.mode == Normal && c == ';' && !(c == '-' || c == '/' || c == '$') {
      assert pre + sc.stmts + Flush(sc.buf) == pre + (sc.stmts + Flush(sc.buf));
    }
  }

  /** The scan only appends to the statements it is given. */
  lemma {:induction false} RunFrame(rest: string, sc: Scan, pre: seq<string>)
    requires ValidMode(sc.mode)
    ensures var r := Run(rest, sc);
      Run(rest, sc.(stmts := pre + sc.stmts)) == r.(stmts := pre + r.stmts)
    decreases |rest|
  {
    if rest != [] {
      var m := Step(rest, sc);
      StepFrame(rest, sc, pre);
      RunFrame(rest[m.width..], m.next, pre);
    }
  }

  // ---------------------------------------------------------------------------
  // A `;` that follows a text cannot change how that text is scanned

  lemma {:induction false} TagCharRunBeforeSemicolon(a: string, z: string, i: nat)
    requires i <= |a| && z != [] && z[0] == ';'
    ensures TagCharRun(a + z, i) == TagCharRun(a, i)
    decreases |a| - i
  {
    if i < |a| {
      assert (a + z)[i] == a[i];
      if IsTagChar(a[i]) {
        TagCharRunBeforeSemicolon(a, z, i + 1);
      }
    } else {
      assert (a + z)[i] == ';';
    }
  }

  lemma DollarTagBeforeSemicolon(a: string, z: string)
    requires a != [] && z != [] && z[0] == ';'
    ensures DollarTagAt(a + z) == DollarTagAt(a)
  {
    var s := a + z;
    assert s[0] == a[0];
    if a[0] == '$' {
      TagCharRunBeforeSemicolon(a, z, 1);
      var n := TagCharRun(a, 1);
      if n < |a| {
        assert s[n] == a[n];
        assert s[..n + 1] == a[..n + 1];
      } else {
        assert s[n] == ';';
      }
    }
  }

  lemma TagHasNoSemicolon(tag: string, k: nat)
    requires IsDollarTag(tag) && k < |tag|
    ensures tag[k] != ';'
  {
    if 0 < k < |tag| - 1 {
      assert IsTagChar(tag[k]);
    }
  }

  lemma StartsWithTagBeforeSemicolon(a: string, z: string, tag: string)
    requires z != [] && z[0] == ';' && IsDollarTag(tag)
    ensures StartsWith(a + z, tag) == StartsWith(a, tag)
  {
    if |tag| <= |a| {
      assert (a + z)[..|tag|] == a[..|tag|];
    } else if StartsWith(a + z, tag) {
      TagHasNoSemicolon(tag, |a|);
    }
  }

  lemma StepBeforeSemicolon(a: string, z: string, sc: Scan)
    requires a != [] && z != [] && z[0] == ';' && ValidMode(sc.mode)
    ensures Step(a + z, sc) == Step(a, sc)
  {
    var s := a + z;
    assert s[0] == a[0];
    if |a| >= 2 {
      assert s[1] == a[1];
    } else {
      assert s[1] == ';';
    }
    match sc.mode
    case DollarQuoted(tag) =>
      StartsWithTagBeforeSemicolon(a, z, tag);
    case Normal =>
      DollarTagBeforeSemicolon(a, z);
    case _ =>
  }

  /** Scanning a text followed by `;…` first scans the text exactly as if it
      stood alone. */
  lemma {:induction false} RunBeforeSemicolon(a: string, z: string, sc: Scan)
    requires z != [] && z[0] == ';' && ValidMode(sc.mode)
    ensures Run(a + z, sc) == Run(z, Run(a, sc))
    decreases |a|
  {
    if a == [] {
      assert a + z == z;
    } else {
      StepBeforeSemicolon(a, z, sc);
      var m := Step(a, sc);
      assert (a + z)[m.width..] == a[m.width..] + z;
      RunBeforeSemicolon(a[m.width..], z, m.next);
    }
  }

  /** A `;` reached in normal mode splits: the statements of `a; b` are those
      of `a` followed by those of `b`. */
  lemma SplitAtSemicolon(a: string, b: string)
    requires EndsNormal(a)
    ensures Split(a + ";" + b) == Split(a) + Split(b)
  {
    var sa := Run(a, Start);
    var pre := sa.stmts + Flush(sa.buf);
    Assoc(a, ";", b);
    RunBeforeSemicolon(a, ";" + b, Start);
    SemicolonStep(b, sa);
    RunFrame(b, Start, pre);
    AppendEmpty(pre);
    var sb := Run(b, Start);
    assert Run(a + ";" + b, Start) == sb.(stmts := pre + sb.stmts);
    Assoc(pre, sb.stmts, Flush(sb.buf));
  }

  /** A `;` in normal mode emits the buffer and starts an empty one. */
  lemma SemicolonStep(b: string, sc: Scan)
    requires sc.mode == Normal
    ensures Run(";" + b, sc) == Run(b, Scan(Normal, [], sc.stmts + Flush(sc.buf)))
  {
    var rest := ";" + b;
    assert rest[0] == ';' && rest[1..] == b;
  }

  lemma Assoc<T>(a: seq<T>, b: seq<T>, c: seq<T>)
    ensures a + b + c == a + (b + c)
  {
  }

  lemma AppendEmpty<T>(s: seq<T>)
    ensures s + [] == s
  {
  }

  /** A trailing `;` adds no statement. */
  lemma SplitDropsFinalSemicolon(a: string)
    requires EndsNormal(a)
    ensures Split(a + ";") == Split(a)
  {
    SplitAtSemicolon(a, "");
    AppendEmpty(a + ";");
    SplitEmpty();
    AppendEmpty(Split(a));
  }

  /** The empty text has no statements. */
  lemma SplitEmpty()
    ensures Split("") == []
  {
    assert Run("", Start) == Start;
  }

  // ---------------------------------------------------------------------------
  // Regions

  /** Text without special characters is appended to the statement as is. */
  lemma {:induction false} PlainText(p: string, z: string, buf: string, stmts: seq<string>)
    requires forall k :: 0 <= k < |p| ==> PlainChar(p[k])
    ensures Run(p + z, Scan(Normal, buf, stmts)) == Run(z, Scan(Normal, buf + p, stmts))
    decreases |p|
  {
    if p == [] {
      assert p + z == z && buf + p == buf;
    } else {
      var rest := p + z;
      assert rest[0] == p[0];
      assert Step(rest, Scan(Normal, buf, stmts)) == Move(1, Scan(Normal, buf + [p[0]], stmts));
      assert rest[1..] == p[1..] + z;
      PlainText(p[1..], z, buf + [p[0]], stmts);
      assert buf + [p[0]] + p[1..] == buf + p;
    }
  }

  /** A text of plain characters is one statement when not blank: the last
      statement needs no terminating `;`. */
  lemma PlainTextIsOneStatement(p: string)
    requires forall k :: 0 <= k < |p| ==> PlainChar(p[k])
    ensures Split(p) == (if AllSpace(p) then [] else [Strip(p)])
  {
    PlainText(p, "", [], []);
    assert p + "" == p && [] + p == p;
  }

  lemma QuoteCloses(q: char, z: string, buf: string, stmts: seq<string>)
    requires q == '\'' || q == '"'
    requires z == [] || z[0] != q
    ensures Run([q] + z, Scan(QuoteMode(q), buf, stmts)) == Run(z, Scan(Normal, buf + [q], stmts))
  {
    var rest := [q] + z;
    assert rest[0] == q && !NextIs(rest, q);
    assert rest[1..] == z;
  }

  lemma QuoteKeeps(q: char, rest: string, buf: string, stmts: seq<string>)
    requires q == '\'' || q == '"'
    requires rest != [] && rest[0] != q
    ensures Run(rest, Scan(QuoteMode(q), buf, stmts))
         == Run(rest[1..], Scan(QuoteMode(q), buf + [rest[0]], stmts))
  {
  }

  lemma QuoteDoubled(q: char, rest: string, buf: string, stmts: seq<string>)
    requires q == '\'' || q == '"'
    requires |rest| >= 2 && rest[0] == q && rest[1] == q
    ensures Run(rest, Scan(QuoteMode(q), buf, stmts))
         == Run(rest[2..], Scan(QuoteMode(q), buf + [q, q], stmts))
  {
    assert NextIs(rest, q);
  }

  lemma {:induction false} InsideQuotes(q: char, b: string, z: string, buf: string, stmts: seq<string>)
    requires q == '\'' || q == '"'
    requires QuotedBody(b, q)
    requires z == [] || z[0] != q
    ensures Run(b + [q] + z, Scan(QuoteMode(q), buf, stmts))
         == Run(z, Scan(Normal, buf + b + [q], stmts))
    decreases |b|
  {
    var rest := b + [q] + z;
    if b == [] {
      EmptyMiddle(b, [q], z);
      EmptyMiddle(buf, b, [q]);
      QuoteCloses(q, z, buf, stmts);
    } else if b[0] != q {
      QuotedBodyAfterChar(b, q);
      Peel(b, [q], z, 1);
      QuoteKeeps(q, rest, buf, stmts);
      InsideQuotes(q, b[1..], z, buf + [b[0]], stmts);
      Regroup(buf, b, 1, [q]);
      assert b[..1] == [b[0]];
    } else {
      QuotedBodyAfterPair(b, q);
      Peel(b, [q], z, 2);
      QuoteDoubled(q, rest, buf, stmts);
      InsideQuotes(q, b[2..], z, buf + [q, q], stmts);
      Regroup(buf, b, 2, [q]);
      assert b[..2] == [q, q];
    }
  }

  /** A quoted literal is copied verbatim, doubled quotes and any `;`, `--`,
      block-comment opener or `$` inside it included, and the scan resumes in
      normal mode. */
  lemma QuotedRegion(q: char, b: string, z: string, buf: string, stmts: seq<string>)
    requires q == '\'' || q == '"'
    requires QuotedBody(b, q)
    requires z == [] || z[0] != q
    ensures Run([q] + b + [q] + z, Scan(Normal, buf, stmts))
         == Run(z, Scan(Normal, buf + [q] + b + [q], stmts))
  {
    OpenQuote(q, b + [q] + z, buf, stmts);
    Assoc([q], b, [q]);
    Assoc([q] + b, [q], z);
    Assoc([q], b + [q], z);
    Assoc([q], b, [q] + z);
    InsideQuotes(q, b, z, buf + [q], stmts);
    Assoc(buf + [q], b, [q]);
  }

  lemma OpenQuote(q: char, t: string, buf: string, stmts: seq<string>)
    requires q == '\'' || q == '"'
    ensures Run([q] + t, Scan(Normal, buf, stmts)) == Run(t, Scan(QuoteMode(q), buf + [q], stmts))
  {
    var rest := [q] + t;
    assert rest[0] == q && rest[1..] == t;
  }

  /** No occurrence of `tag` starts inside the first `n` characters of `s`. */
  predicate NoTagBefore(s: string, tag: string, n: nat)
    requires n <= |s|
  {
    forall k :: 0 <= k < n ==> !StartsWith(s[k..], tag)
  }

  lemma DollarCloses(tag: string, z: string, buf: string, stmts: seq<string>)
    requires IsDollarTag(tag)
    ensures Run(tag + z, Scan(DollarQuoted(tag), buf, stmts)) == Run(z, Scan(Normal, buf + tag, stmts))
  {
    var rest := tag + z;
    assert rest[..|tag|] == tag;
    assert rest[|tag|..] == z;
  }

  lemma DollarKeeps(tag: string, rest: string, buf: string, stmts: seq<string>)
    requires IsDollarTag(tag)
    requires rest != [] && !StartsWith(rest, tag)
    ensures Run(rest, Scan(DollarQuoted(tag), buf, stmts))
         == Run(rest[1..], Scan(DollarQuoted(tag), buf + [rest[0]], stmts))
  {
  }

  lemma {:induction false} InsideDollar(tag: string, b: string, z: string, buf: string, stmts: seq<string>)
    requires IsDollarTag(tag)
    requires NoTagBefore(b + tag + z, tag, |b|)
    ensures Run(b + tag + z, Scan(DollarQuoted(tag), buf, stmts))
         == Run(z, Scan(Normal, buf + b + tag, stmts))
    decreases |b|
  {
    var rest := b + tag + z;
    if b == [] {
      EmptyMiddle(b, tag, z);
      EmptyMiddle(buf, b, tag);
      DollarCloses(tag, z, buf, stmts);
    } else {
      Peel(b, tag, z, 1);
      NoTagBeforeShift(b, tag, z);
      DollarKeeps(tag, rest, buf, stmts);
      InsideDollar(tag, b[1..], z, buf + [b[0]], stmts);
      Regroup(buf, b, 1, tag);
      assert b[..1] == [b[0]];
    }
  }

  lemma NoTagBeforeShift(b: string, tag: string, z: string)
    requires b != []
    requires NoTagBefore(b + tag + z, tag, |b|)
    ensures !StartsWith(b + tag + z, tag)
    ensures NoTagBefore(b[1..] + tag + z, tag, |b| - 1)
  {
    var rest := b + tag + z;
    assert rest[0..] == rest;
    Peel(b, tag, z, 1);
    forall k | 0 <= k < |b| - 1
      ensures !StartsWith((b[1..] + tag + z)[k..], tag)
    {
      assert (b[1..] + tag + z)[k..] == rest[k + 1..];
    }
  }

  /** A dollar-quoted region is copied verbatim, both tags included, up to the
      first recurrence of its tag, and the scan resumes in normal mode. */
  lemma DollarRegion(tag: string, b: string, z: string, buf: string, stmts: seq<string>)
    requires IsDollarTag(tag)
    requires NoTagBefore(b + tag + z, tag, |b|)
    ensures Run(tag + b + tag + z, Scan(Normal, buf, stmts))
         == Run(z, Scan(Normal, buf + tag + b + tag, stmts))
  {
    var rest := tag + b + tag + z;
    assert rest[0] == '$';
    assert rest[..|tag|] == tag;
    assert DollarTagAt(rest) == Some(tag);
    assert Step(rest, Scan(Normal, buf, stmts)) == Move(|tag|, Scan(DollarQuoted(tag), buf + tag, stmts));
    assert rest[|tag|..] == b + tag + z;
    InsideDollar(tag, b, z, buf + tag, stmts);
  }

  lemma {:induction false} InsideLineComment(c: string, z: string, buf: string, stmts: seq<string>)
    requires forall k :: 0 <= k < |c| ==> c[k] != '\n'
    ensures Run(c + "\n" + z, Scan(LineComment, buf, stmts)) == Run(z, Scan(Normal, buf, stmts))
    decreases |c|
  {
    var rest := c + "\n" + z;
    if c == [] {
      assert rest[0] == '\n' && rest[1..] == z;
    } else {
      assert rest[0] == c[0];
      assert rest[1..] == c[1..] + "\n" + z;
      InsideLineComment(c[1..], z, buf, stmts);
    }
  }

  /** A line comment, its `;` included, contributes nothing but the synthetic
      space; the newline that ends it is dropped too. */
  lemma LineCommentRegion(c: string, z: string, buf: string, stmts: seq<string>)
    requires forall k :: 0 <= k < |c| ==> c[k] != '\n'
    ensures Run("--" + c + "\n" + z, Scan(Normal, buf, stmts))
         == Run(z, Scan(Normal, buf + Gap(buf), stmts))
  {
    var rest := "--" + c + "\n" + z;
    assert rest[0] == '-' && rest[1] == '-';
    assert rest[2..] == c + "\n" + z;
    InsideLineComment(c, z, buf + Gap(buf), stmts);
  }

  lemma {:induction false} InsideBlockComment(c: string, z: string, buf: string, stmts: seq<string>)
    requires NoTagBefore(c + "*/" + z, "*/", |c|)
    ensures Run(c + "*/" + z, Scan(BlockComment, buf, stmts)) == Run(z, Scan(Normal, buf, stmts))
    decreases |c|
  {
    var rest := c + "*/" + z;
    if c == [] {
      assert rest[0] == '*' && rest[1] == '/';
      assert rest[2..] == z;
    } else {
      assert rest[0..] == rest;
      assert !StartsWith(rest, "*/");
      assert rest[..2] == [rest[0], rest[1]];
      assert !(rest[0] == '*' && NextIs(rest, '/'));
      var rest' := c[1..] + "*/" + z;
      assert rest[1..] == rest';
      forall k | 0 <= k < |c| - 1
        ensures !StartsWith(rest'[k..], "*/")
      {
        assert rest'[k..] == rest[k + 1..];
      }
      InsideBlockComment(c[1..], z, buf, stmts);
    }
  }

  /** A block comment ends at the first closing star-slash (comments do not
      nest) and contributes nothing but the synthetic space. */
  lemma BlockCommentRegion(c: string, z: string, buf: string, stmts: seq<string>)
    requires NoTagBefore(c + "*/" + z, "*/", |c|)
    ensures Run("/*" + c + "*/" + z, Scan(Normal, buf, stmts))
         == Run(z, Scan(Normal, buf + Gap(buf), stmts))
  {
    var rest := "/*" + c + "*/" + z;
    assert rest[0] == '/' && rest[1] == '*';
    assert rest[2..] == c + "*/" + z;
    InsideBlockComment(c, z, buf + Gap(buf), stmts);
  }

  // ---------------------------------------------------------------------------
  // Counting

  lemma {:induction false} SemicolonsOfSuffix(s: string, w: nat)
    requires w <= |s|
    ensures Semicolons(s[w..]) <= Semicolons(s)
    decreases w
  {
    if w > 0 {
      assert s[w..] == s[1..][w - 1..];
      SemicolonsOfSuffix(s[1..], w - 1);
    }
  }

  lemma {:induction false} RunCount(rest: string, sc: Scan)
    requires ValidMode(sc.mode)
    ensures |Run(rest, sc).stmts| <= |sc.stmts| + Semicolons(rest)
    decreases |rest|
  {
    if rest != [] {
      var m := Step(rest, sc);
      RunCount(rest[m.width..], m.next);
      SemicolonsOfSuffix(rest, m.width);
    }
  }

  /** Every statement but the last is ended by its own `;`. */
  lemma SplitCount(text: string)
    ensures |Split(text)| <= Semicolons(text) + 1
  {
    RunCount(text, Start);
  }
}
