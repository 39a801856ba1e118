/** The XML loader (scripts/01_load_xml.py): the `row` elements of a dump
    are read up to a limit, turned into table rows column by column, and
    inserted in batches.

    The XML parser is not modelled: a dump is the sequence of its elements
    in the order `iterparse` ends them (for the flat `row` leaves, document
    order), each with its tag and attributes. Integer parsing is a parameter. */
module Loader {
  import opened Py
  import opened Tags

  type Attrs = map<string, string>

  datatype Element = Element(tag: string, attrs: Attrs)

  // ---------------------------------------------------------------------------
  // Reading rows

  /** The attributes of the `row` elements, in the order `iterparse` ends them. */
  function RowAttrs(elems: seq<Element>): (r: seq<Attrs>)
    ensures |r| <= |elems|
  {
    if elems == [] then []
    else
      var last := elems[|elems| - 1];
      RowAttrs(elems[..|elems| - 1]) + (if last.tag == "row" then [last.attrs] else [])
  }

  /** How many of `available` rows are read. The count is checked only after
      a row is yielded, so even a negative limit lets one row through. */
  function RowCount(limit: Option<int>, available: nat): (r: nat)
    ensures r <= available
    ensures !Truthy(limit) ==> r == available
    ensures Truthy(limit) && limit.value >= 1 ==> r == if available < limit.value then available else limit.value
    ensures Truthy(limit) && limit.value < 0 ==> r == if available == 0 then 0 else 1
  {
    if !Truthy(limit) then available
    else
      var most := if limit.value < 1 then 1 else limit.value;
      if available < most then available else most
  }

  /** `iter_rows(path, limit)`: the attributes of the `row` elements in the
      order `iterparse` ends them, stopping once `limit` rows have been
      yielded. */
  method IterRows(elems: seq<Element>, limit: Option<int>) returns (rows: seq<Attrs>)
    ensures rows == RowAttrs(elems)[..RowCount(limit, |RowAttrs(elems)|)]
  {
    rows := [];
    var count := 0;
    var i := 0;
    while i < |elems|
      invariant 0 <= i <= |elems|
      invariant rows == RowAttrs(elems[..i]) && count == |rows|
      invariant Truthy(limit) ==> count < (if limit.value < 1 then 1 else limit.value)
    {
      var elem := elems[i];
      assert elems[..i + 1][..i] == elems[..i];
      i := i + 1;
      if elem.tag != "row" {
        continue;
      }
      rows := rows + [elem.attrs];
      count := count + 1;
      if Truthy(limit) && count >= limit.value {
        RowAttrsPrefix(elems, i);
        return;
      }
    }
    assert elems[..i] == elems;
  }

  /** The rows of a prefix of the document are a prefix of its rows. */
  lemma {:induction false} RowAttrsPrefix(elems: seq<Element>, i: nat)
    requires i <= |elems|
    ensures |RowAttrs(elems[..i])| <= |RowAttrs(elems)|
    ensures RowAttrs(elems[..i]) == RowAttrs(elems)[..|RowAttrs(elems[..i])|]
    decreases |elems| - i
  {
    if i < |elems| {
      RowAttrsPrefix(elems, i + 1);
      var e := elems[..i + 1];
      assert e[..i] == elems[..i];
      var small := RowAttrs(elems[..i]);
      var mid := RowAttrs(e);
      assert mid[..|small|] == small;
      var all := RowAttrs(elems);
      assert all[..|small|] == all[..|mid|][..|small|];
    } else {
      assert elems[..i] == elems;
    }
  }

  /** Only `row` elements are read, and every one of them when there is no
      cap. */
  lemma {:induction false} RowAttrsSpec(elems: seq<Element>)
    ensures forall a :: a in RowAttrs(elems) <==> exists k :: 0 <= k < |elems| && elems[k].tag == "row" && elems[k].attrs == a
  {
    if elems != [] {
      var init := elems[..|elems| - 1];
      RowAttrsSpec(init);
      forall a
        ensures a in RowAttrs(elems) <==> exists k :: 0 <= k < |elems| && elems[k].tag == "row" && elems[k].attrs == a
      {
        if a in RowAttrs(init) {
          var k :| 0 <= k < |init| && init[k].tag == "row" && init[k].attrs == a;
          assert elems[k] == init[k];
        }
        if exists k :: 0 <= k < |elems| && elems[k].tag == "row" && elems[k].attrs == a {
          var k :| 0 <= k < |elems| && elems[k].tag == "row" && elems[k].attrs == a;
          if k < |init| {
            assert init[k] == elems[k];
          }
        }
      }
    }
  }

  // ---------------------------------------------------------------------------
  // Building rows

  /** How one column of a table is read from the attributes. */
  datatype Column = IntCol(key: string) | TextCol(key: string) | TagsCol(key: string)

  /** A value bound to one placeholder of the INSERT. */
  datatype Cell = IntCell(i: Option<int>) | TextCell(t: Option<string>) | TagsCell(tags: Option<seq<string>>)

  /** `get_int(attrs, key)`: the parsed value when the attribute is present. */
  function GetInt(attrs: Attrs, key: string, parse: string -> int): (r: Option<int>)
    ensures r.Some? <==> key in attrs
    ensures r.Some? ==> r.value == parse(attrs[key])
  {
    if key in attrs then Some(parse(attrs[key])) else None
  }

  /** The cell a column yields: of the column's kind, holding a value only
      when the attribute is present (an integer or text cell exactly then).
      An integer cell holds the parsed attribute, a text cell the attribute
      itself, and a tags cell what `parse_tags` makes of it. */
  function ReadCell(col: Column, attrs: Attrs, parse: string -> int): (c: Cell)
    ensures c.IntCell? <==> col.IntCol?
    ensures c.TextCell? <==> col.TextCol?
    ensures c.IntCell? ==> (c.i.Some? <==> col.key in attrs)
    ensures c.TextCell? ==> (c.t.Some? <==> col.key in attrs)
    ensures c.TagsCell? && c.tags.Some? ==> col.key in attrs
    ensures c.IntCell? && c.i.Some? ==> c.i.value == parse(attrs[col.key])
    ensures c.TextCell? && c.t.Some? ==> c.t.value == attrs[col.key]
    ensures c.TagsCell? ==> c.tags == ParseTags(Get(attrs, col.key))
  {
    match col
    case IntCol(k) => IntCell(GetInt(attrs, k, parse))
    case TextCol(k) => TextCell(Get(attrs, k))
    case TagsCol(k) => TagsCell(ParseTags(Get(attrs, k)))
  }

  /** The tuple appended for one row: one cell per column, in column order. */
  function MakeRow(cols: seq<Column>, attrs: Attrs, parse: string -> int): (r: seq<Cell>)
    ensures |r| == |cols|
    ensures forall i :: 0 <= i < |cols| ==> r[i] == ReadCell(cols[i], attrs, parse)
  {
    if cols == [] then [] else [ReadCell(cols[0], attrs, parse)] + MakeRow(cols[1..], attrs, parse)
  }

  const PostColumns: seq<Column> := [
    IntCol("Id"), IntCol("PostTypeId"), IntCol("ParentId"), IntCol("AcceptedAnswerId"),
    TextCol("CreationDate"), IntCol("Score"), IntCol("ViewCount"), TextCol("Body"),
    IntCol("OwnerUserId"), TextCol("OwnerDisplayName"), IntCol("LastEditorUserId"),
    TextCol("LastEditorDisplayName"), TextCol("LastEditDate"), TextCol("LastActivityDate"),
    TextCol("Title"), TagsCol("Tags"), IntCol("AnswerCount"), IntCol("CommentCount"),
    IntCol("FavoriteCount"), TextCol("ClosedDate"), TextCol("CommunityOwnedDate"),
    TextCol("ContentLicense")]

  const UserColumns: seq<Column> := [
    IntCol("Id"), IntCol("Reputation"), TextCol("CreationDate"), TextCol("DisplayName"),
    TextCol("LastAccessDate"), TextCol("WebsiteUrl"), TextCol("Location"), TextCol("AboutMe"),
    IntCol("Views"), IntCol("UpVotes"), IntCol("DownVotes"), TextCol("ProfileImageUrl"),
    TextCol("EmailHash"), IntCol("AccountId")]

  const CommentColumns: seq<Column> := [
    IntCol("Id"), IntCol("PostId"), IntCol("Score"), TextCol("Text"), TextCol("CreationDate"),
    TextCol("UserDisplayName"), IntCol("UserId"), TextCol("ContentLicense")]

  // ---------------------------------------------------------------------------
  // Batching

  /** The batch size in effect: a size below 1 flushes after every row. */
  function Cap(batchSize: int): (c: nat)
    ensures c >= 1
    ensures batchSize >= 1 ==> c == batchSize
  {
    if batchSize < 1 then 1 else batchSize
  }

  function Concat<T>(batches: seq<seq<T>>): seq<T> {
    if batches == [] then [] else Concat(batches[..|batches| - 1]) + batches[|batches| - 1]
  }

  /** The rows cut into consecutive batches of `c`, the last one possibly
      shorter. */
  function Chunks<T>(rows: seq<T>, c: nat): seq<seq<T>>
    requires c >= 1
    decreases |rows|
  {
    if rows == [] then []
    else if |rows| <= c then [rows]
    else [rows[..c]] + Chunks(rows[c..], c)
  }

  /** The running total after each batch. */
  function Totals<T>(batches: seq<seq<T>>): (r: seq<nat>)
    ensures |r| == |batches|
  {
    if batches == [] then [] else Totals(batches[..|batches| - 1]) + [|Concat(batches)|]
  }

  /** The batch flush shared by `load_posts`, `load_users` and
      `load_comments`: rows accumulate until there are `batchSize` of them,
      which are then inserted together; what is left is inserted at the end.
      `progress` lists the totals printed after each insert. */
  method FlushBatches<T>(rows: seq<T>, batchSize: int) returns (batches: seq<seq<T>>, total: nat, progress: seq<nat>)
    ensures batches == Chunks(rows, Cap(batchSize))
    ensures total == |rows|
    ensures progress == Totals(batches)
  {
    var c := Cap(batchSize);
    batches := [];
    total := 0;
    progress := [];
    var buf: seq<T> := [];
    var i := 0;
    while i < |rows|
      invariant 0 <= |buf| <= i <= |rows| && |buf| < c
      invariant total == i - |buf| && buf == rows[total..i]
      invariant batches == Chunks(rows[..total], c) && |batches| * c == total
      invariant |Concat(batches)| == total && progress == Totals(batches)
    {
      buf := buf + [rows[i]];
      i := i + 1;
      assert buf == rows[total..i];
      if |buf| >= batchSize {
        assert |buf| == c;
        FlushStep(rows, batches, total, i, c);
        batches := batches + [buf];
        total := total + |buf|;
        progress := progress + [total];
        buf := [];
      }
    }
    if buf != [] {
      FlushStep(rows, batches, total, i, c);
      batches := batches + [buf];
      total := total + |buf|;
      progress := progress + [total];
    }
    assert rows[..i] == rows;
  }

  /** One insert: the buffered rows become the next batch. */
  lemma FlushStep<T>(rows: seq<T>, batches: seq<seq<T>>, f: nat, i: nat, c: nat)
    requires c >= 1 && f < i <= |rows| && i - f <= c
    requires batches == Chunks(rows[..f], c) && |batches| * c == f && |Concat(batches)| == f
    ensures batches + [rows[f..i]] == Chunks(rows[..i], c)
    ensures |Concat(batches + [rows[f..i]])| == i
    ensures Totals(batches + [rows[f..i]]) == Totals(batches) + [i]
    ensures i - f == c ==> |batches + [rows[f..i]]| * c == i
  {
    var b := rows[f..i];
    assert rows[..i] == rows[..f] + b;
    ChunksAppend(rows[..f], b, c, |batches|);
    assert (batches + [b])[..|batches|] == batches;
  }

  /** Appending a batch of at most `c` rows after `k` whole batches adds it
      as one more batch. */
  lemma {:induction false} ChunksAppend<T>(a: seq<T>, b: seq<T>, c: nat, k: nat)
    requires c >= 1 && |a| == k * c && 1 <= |b| <= c
    ensures Chunks(a + b, c) == Chunks(a, c) + [b]
    decreases k
  {
    if k == 0 {
      assert a + b == b;
    } else {
      assert |a| >= c;
      assert (a + b)[..c] == a[..c];
      assert (a + b)[c..] == a[c..] + b;
      ChunksAppend(a[c..], b, c, k - 1);
      if k == 1 {
        assert a[c..] == [] && a[..c] == a;
      }
    }
  }

  /** Every row is inserted in exactly one batch, in order; no batch is
      empty; every batch but the last has exactly `c` rows. */
  lemma {:induction false} ChunksSpec<T>(rows: seq<T>, c: nat)
    requires c >= 1
    ensures Concat(Chunks(rows, c)) == rows
    ensures forall k :: 0 <= k < |Chunks(rows, c)| ==> 1 <= |Chunks(rows, c)[k]| <= c
    ensures forall k :: 0 <= k < |Chunks(rows, c)| - 1 ==> |Chunks(rows, c)[k]| == c
    decreases |rows|
  {
    if |rows| > c {
      ChunksSpec(rows[c..], c);
      ConcatCons(rows[..c], Chunks(rows[c..], c));
      assert rows[..c] + rows[c..] == rows;
    } else if rows != [] {
      assert Concat([rows]) == Concat([]) + rows;
    }
  }

  lemma {:induction false} ConcatCons<T>(x: seq<T>, bs: seq<seq<T>>)
    ensures Concat([x] + bs) == x + Concat(bs)
    decreases |bs|
  {
    if bs == [] {
      assert Concat([x]) == Concat([]) + x;
    } else {
      var n := |bs|;
      var xs := [x] + bs;
      assert xs[..n] == [x] + bs[..n - 1];
      assert xs[n] == bs[n - 1];
      ConcatCons(x, bs[..n - 1]);
      assert Concat(xs) == Concat(xs[..n]) + xs[n];
      assert Concat(bs) == Concat(bs[..n - 1]) + bs[n - 1];
    }
  }

  /** The totals printed climb by the size of each batch and end at the
      number of rows. */
  lemma {:induction false} TotalsSpec<T>(batches: seq<seq<T>>)
    ensures forall k :: 0 <= k < |batches| ==> Totals(batches)[k] == |Concat(batches[..k + 1])|
    ensures batches != [] ==> Totals(batches)[|batches| - 1] == |Concat(batches)|
    decreases |batches|
  {
    if batches != [] {
      var n := |batches|;
      TotalsSpec(batches[..n - 1]);
      forall k | 0 <= k < n
        ensures Totals(batches)[k] == |Concat(batches[..k + 1])|
      {
        if k < n - 1 {
          assert batches[..n - 1][..k + 1] == batches[..k + 1];
        } else {
          assert batches[..k + 1] == batches;
        }
      }
    }
  }

  /** What loading a table with columns `cols` does: the tuples built from
      the rows the limit lets through are inserted, in the order `iterparse` ends them, in
      consecutive chunks of the batch size, and the total counts them. */
  predicate Loaded(cols: seq<Column>, elems: seq<Element>, limit: Option<int>, batchSize: int, parse: string -> int,
                   batches: seq<seq<seq<Cell>>>, total: nat)
  {
    var rows := RowAttrs(elems)[..RowCount(limit, |RowAttrs(elems)|)];
    && total == |rows|
    && Concat(batches) == seq(|rows|, i requires 0 <= i < |rows| => MakeRow(cols, rows[i], parse))
    && batches == Chunks(Concat(batches), Cap(batchSize))
  }

  /** One `load_*` function: read the rows, build each tuple, insert in
      batches. Returns the batches inserted and the final total. */
  method LoadTable(cols: seq<Column>, elems: seq<Element>, limit: Option<int>, batchSize: int, parse: string -> int)
    returns (batches: seq<seq<seq<Cell>>>, total: nat)
    ensures Loaded(cols, elems, limit, batchSize, parse, batches, total)
  {
    var attrs := IterRows(elems, limit);
    var tuples := seq(|attrs|, i requires 0 <= i < |attrs| => MakeRow(cols, attrs[i], parse));
    var progress;
    batches, total, progress := FlushBatches(tuples, batchSize);
    ChunksSpec(tuples, Cap(batchSize));
  }

  /** `load_posts`: 22 cells per row. */
  method LoadPosts(elems: seq<Element>, limit: Option<int>, batchSize: int, parse: string -> int)
    returns (batches: seq<seq<seq<Cell>>>, total: nat)
    ensures Loaded(PostColumns, elems, limit, batchSize, parse, batches, total)
    ensures total == RowCount(limit, |RowAttrs(elems)|)
    ensures forall b, r :: b in batches && r in b ==> |r| == 22
  {
    batches, total := LoadTable(PostColumns, elems, limit, batchSize, parse);
    RowWidths(batches, PostColumns, elems, limit, parse);
  }

  /** `load_users`: 14 cells per row. */
  method LoadUsers(elems: seq<Element>, limit: Option<int>, batchSize: int, parse: string -> int)
    returns (batches: seq<seq<seq<Cell>>>, total: nat)
    ensures Loaded(UserColumns, elems, limit, batchSize, parse, batches, total)
    ensures total == RowCount(limit, |RowAttrs(elems)|)
    ensures forall b, r :: b in batches && r in b ==> |r| == 14
  {
    batches, total := LoadTable(UserColumns, elems, limit, batchSize, parse);
    RowWidths(batches, UserColumns, elems, limit, parse);
  }

  /** `load_comments`: 8 cells per row. */
  method LoadComments(elems: seq<Element>, limit: Option<int>, batchSize: int, parse: string -> int)
    returns (batches: seq<seq<seq<Cell>>>, total: nat)
    ensures Loaded(CommentColumns, elems, limit, batchSize, parse, batches, total)
    ensures total == RowCount(limit, |RowAttrs(elems)|)
    ensures forall b, r :: b in batches && r in b ==> |r| == 8
  {
    batches, total := LoadTable(CommentColumns, elems, limit, batchSize, parse);
    RowWidths(batches, CommentColumns, elems, limit, parse);
  }

  /** Every inserted tuple has one cell per column. */
  lemma RowWidths(batches: seq<seq<seq<Cell>>>, cols: seq<Column>, elems: seq<Element>, limit: Option<int>, parse: string -> int)
    requires var rows := RowAttrs(elems)[..RowCount(limit, |RowAttrs(elems)|)];
      Concat(batches) == seq(|rows|, i requires 0 <= i < |rows| => MakeRow(cols, rows[i], parse))
    ensures forall b, r :: b in batches && r in b ==> |r| == |cols|
  {
    forall b, r | b in batches && r in b
      ensures |r| == |cols|
    {
      InConcat(batches, b, r);
    }
  }

  lemma {:induction false} InConcat<T>(batches: seq<seq<T>>, b: seq<T>, x: T)
    requires b in batches && x in b
    ensures x in Concat(batches)
    decreases |batches|
  {
    var n := |batches|;
    if batches[n - 1] != b {
      var k :| 0 <= k < n && batches[k] == b;
      assert batches[..n - 1][k] == b;
      InConcat(batches[..n - 1], b, x);
    }
  }
}
