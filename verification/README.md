# Query-profiling harness and Stack Exchange loaders, modelled in Dafny

This project models the deterministic core of a small PostgreSQL toolkit. The toolkit loads a Stack Exchange dump, embeds the posts and profiles SQL queries with EXPLAIN. The core covers four parts.

- **Statement splitter** (`text.dfy`, `sql_split.dfy`, `sql_laws.dfy`, `sql_examples.dfy`)
  - This is the lexical scanner of `_split_sql_statements` and `_iter_queries` in `scripts/run_queries.py`.
  - The scanner keeps one tagged `Mode`, which is `Normal`, `SingleQuoted`, `DoubleQuoted`, `LineComment`, `BlockComment` or `DollarQuoted(tag)`. The source keeps five flags instead.
  - The scanner works on the part of the text not yet consumed. Every step consumes at least one character, so the scan terminates.
  - `Text` defines Python's `str.isspace` and `str.strip`. One whitespace predicate serves both stripping and the space inserted before a comment.
- **Plan distillation** (`plan.dfy`, `plan_laws.dfy`)
  - This covers `_summarize_plan`, `_add_if_present`, `_extract_plan_nodes` and `_distill_plan`.
  - A plan node is a map of non-null fields plus a list of children. Each child is an object or some other JSON value.
  - Field values are an opaque type parameter.
- **Query run and summary** (`decimal.dfy`, `runner.dfy`)
  - This covers the numbering, plan-file naming and records of `_run_queries`, and the summary lines of `_write_summary`.
  - The EXPLAIN responses and the measured client times are inputs. A failing EXPLAIN is a `Raised` response, and it stops the run.
- **Loaders** (`tags.dfy`, `loader.dfy`, `embed.dfy`)
  - `scripts/01_load_xml.py`: `parse_tags`, `get_int`/`get_text`, the row limit of `iter_rows`, and the batch flush shared by `load_posts`, `load_users` and `load_comments`.
  - `scripts/02_embed_posts.py`: `build_text`, and the partition, running-total and stop rule of the main loop.

Three notes on how the model reads the code.

- **Space before a comment.** A space goes in before `--` or `/*` only when the statement buffer's last piece is not whitespace. Whether the preceding input character is whitespace does not matter. Two inputs show the difference:
  - After `;` the buffer is empty, so no space is added.
  - After a comment the buffer already ends in the inserted space, so no second space is added.

  `SqlSplit.Gap` states this rule. The buffer is a list of pieces in the source and one string here. Testing the last piece with `isspace` gives the same answer as testing the last character: every piece is one character, except dollar tags, which end in `$`.
- **Null fields.** `dict.get` reads a JSON null and a missing key alike, so `Py.Get` treats them the same; `get_text` in the loader is the same lookup.
- **Row limit.** `iter_rows` checks the limit only after yielding a row. So a negative limit lets at most one row through (`Loader.RowCount`).

## Model

| member | source | states |
|---|---|---|
| Text.Strip | scripts/run_queries.py:126 | The result has no whitespace at either end. It is empty exactly when the input is all whitespace. It is a contiguous infix of the input, and everything outside it is whitespace. |
| Text.StripUnique | scripts/run_queries.py:136 | Whitespace, then a stripped core, then whitespace strips to exactly that core, so stripping is determined by its ensures. |
| Text.StripIsTrims | scripts/01_load_xml.py:10 | Stripping both ends is stripping the start and then the end, as `lstrip` and `rstrip` do. |
| SqlSplit.DollarTagAt | scripts/run_queries.py:81-87 | A found tag matches `\$[A-Za-z0-9_]*\$` and is a prefix of the remaining text. Whenever some prefix is such a tag, the match is that prefix. |
| SqlSplit.Gap | scripts/run_queries.py:69-80 | A comment opener inserts at most one character, and it is whitespace. Nothing is inserted exactly when the buffer is empty or already ends in whitespace. |
| SqlSplit.Flush | scripts/run_queries.py:125-131 | Flushing the buffer emits nothing exactly when the buffer is blank. Otherwise it emits the single stripped buffer, which is a non-empty stripped statement. |
| SqlSplit.Step | scripts/run_queries.py:40-134 | One loop iteration consumes at least one character. Only a normal-mode `;` emits, and it emits the flushed buffer and empties it. Comment text never reaches the buffer. Quoted and dollar-quoted text is copied verbatim. |
| SqlSplit.Run | scripts/run_queries.py:40-134 | The scan only appends statements, and each appended statement is non-empty and stripped. |
| SqlSplit.Split | scripts/run_queries.py:27-139 | Every statement returned is non-empty and whitespace-stripped. |
| SqlSplit.NonBlank | scripts/run_queries.py:228-230 | The filter keeps, in order, exactly the statements that are not blank after stripping: a statement is in the result if and only if it is in the input and not blank. |
| SqlSplit.NonBlankAppend | scripts/run_queries.py:228-230 | Filtering a concatenation is filtering each part and concatenating, so the filter acts on each statement independently. |
| SqlSplit.NonBlankKeepsStatements | scripts/run_queries.py:228-230 | The blank filter removes nothing from a list of stripped non-empty statements. |
| SqlSplit.IterQueriesIsSplit | scripts/run_queries.py:225-230 | The statements yielded for a file are exactly the splitter's output for its text. |
| SqlLaws.SplitAtSemicolon | scripts/run_queries.py:125-131 | A `;` reached in normal mode is a hard boundary. The statements of `a;b` are those of `a` followed by those of `b`. |
| SqlLaws.SplitDropsFinalSemicolon | scripts/run_queries.py:125-139 | A trailing terminator adds nothing: `a;` and `a` split alike when `a` ends in normal mode. |
| SqlLaws.SplitEmpty | scripts/run_queries.py:136-139 | Empty text has no statements. |
| SqlLaws.PlainTextIsOneStatement | scripts/run_queries.py:133-139 | Text free of delimiters is one statement, its stripped self. It is no statement when it is blank. An unterminated last statement is still emitted. |
| SqlLaws.RunFrame | scripts/run_queries.py:40-134 | The scan of a text does not depend on the statements emitted before it. |
| SqlLaws.QuoteDoubled | scripts/run_queries.py:89-94 | Inside quotes, a doubled quote is copied as two characters and the region stays open. |
| SqlLaws.InsideQuotes | scripts/run_queries.py:89-111 | A quoted body is copied verbatim and its closing quote returns to normal mode. The body may hold `;`, comment openers and `$`, but not a lone closing quote. |
| SqlLaws.QuotedRegion | scripts/run_queries.py:89-123 | A whole quoted region, from either quote kind, is appended to the statement unchanged, and scanning resumes in normal mode after it. |
| SqlLaws.OpenQuote | scripts/run_queries.py:113-123 | A quote in normal mode is copied and opens the matching quoted mode. |
| SqlLaws.InsideDollar | scripts/run_queries.py:58-66 | Inside a dollar-quoted region, everything up to and including the first copy of the same tag is copied verbatim. The scan then returns to normal mode. |
| SqlLaws.DollarRegion | scripts/run_queries.py:58-87 | A region between two identical dollar tags is copied with both delimiters. Any `;` inside it is inert. |
| SqlLaws.LineCommentRegion | scripts/run_queries.py:44-74 | A `--` comment up to its newline adds only the gap space to the statement. Its text, including any `;`, is dropped. |
| SqlLaws.BlockCommentRegion | scripts/run_queries.py:50-80 | A non-nesting `/* */` comment adds only the gap space. Everything up to the first `*/` is dropped. |
| SqlLaws.SplitCount | scripts/run_queries.py:125-139 | A text yields at most one statement more than it has semicolons. |
| SqlExamples.QuotedStatement | scripts/run_queries.py:89-131 | Plain text followed by a quoted literal and `;` is one statement, with the literal kept verbatim. |
| SqlExamples.DollarStatement | scripts/run_queries.py:58-87 | Plain text followed by a dollar-quoted literal and `;` is one statement, with both tags kept. |
| SqlExamples.StrayDollarStatement | scripts/run_queries.py:81-134 | A `$` followed by tag characters but no closing `$` is ordinary text. |
| SqlExamples.PlainStatement | scripts/run_queries.py:125-139 | A stripped text without delimiters ends in normal mode and splits to itself. |
| SqlExamples.CommentThenStatement | scripts/run_queries.py:44-74 | A line comment before a statement leaves only the statement. |
| SqlExamples.LineCommentBetween | scripts/run_queries.py:44-131 | `a; --c` followed by a newline and `d;` splits into exactly `a` and `d`. |
| SqlExamples.BlockCommentBetween | scripts/run_queries.py:50-80 | `a/*c*/d` becomes the single statement `a d`: the comment is replaced by one space. |
| SqlExamples.SplitTail | scripts/run_queries.py:136-138 | `SELECT 1`, which has no terminator, is emitted as a statement. |
| SqlExamples.SplitQuotedSemicolon | scripts/run_queries.py:89-99 | `SELECT 'semi;colon';` yields the one statement `SELECT 'semi;colon'`. |
| SqlExamples.SplitDoubledQuote | scripts/run_queries.py:89-94 | `SELECT 'it''s';` yields one statement with the doubled quote intact. |
| SqlExamples.SplitDollarSemicolon | scripts/run_queries.py:58-87 | `SELECT $$a;b$$;` yields exactly `SELECT $$a;b$$`. |
| SqlExamples.SplitStrayDollar | scripts/run_queries.py:81-87 | `SELECT $1;` yields `SELECT $1`: an untagged `$` is plain text. |
| SqlExamples.SplitLineComment | scripts/run_queries.py:44-74 | `SELECT 1; -- a;b` followed by a newline and `SELECT 2;` yields exactly `SELECT 1` and `SELECT 2`. |
| SqlExamples.SplitBlockComment | scripts/run_queries.py:50-80 | `SELECT 1/*c;*/FROM t` yields the one statement `SELECT 1 FROM t`. |
| Py.Get | scripts/run_queries.py:174-177 | A value is present exactly when the key is a non-null field, and it is that field's value. |
| Plan.Flatten | scripts/run_queries.py:180-208 | Flattening a node starts with that node's own item at the given depth. |
| PlanLaws.CopyPresentSpec | scripts/run_queries.py:174-177 | After copying distinct output keys, each output key holds the source field's value when it is present and is absent otherwise. No key outside the list appears. |
| PlanLaws.AllowedDistinct | scripts/run_queries.py:182-203 | The 22 output keys of the allow-list are pairwise distinct, so no copied field overwrites another. |
| PlanLaws.ProjectSpec | scripts/run_queries.py:181-204 | A node's item has its node type (null when absent) and its depth. It has exactly the allow-listed output keys whose source value is non-null, each with that value, and no other keys. |
| PlanLaws.NoFilterNoFilterKey | scripts/run_queries.py:190 | A node without a `Filter` field gets no `filter` key. |
| PlanLaws.FlattenShape | scripts/run_queries.py:180-208 | The flattening has one item per object node reachable through `Plans`. Non-object children are skipped. The root is first at the starting depth, and every later item is deeper. Depth rises by at most one from one item to the next. |
| PlanLaws.FlattenParents | scripts/run_queries.py:206-208 | Every item after the first has some item before it that is exactly one level shallower. |
| PlanLaws.FlattenFromTree | scripts/run_queries.py:204-208 | Every item is the projection of a node nested exactly as many levels below the root as the item's depth exceeds the starting depth. |
| PlanLaws.FlattenFromDrop | scripts/run_queries.py:206-208 | Dropping the lines of the children before position i from the children's listing leaves the listing of the children from i on. |
| PlanLaws.ChildBlock | scripts/run_queries.py:204-208 | Each child's whole subtree appears as one contiguous block, one level deeper, right after the node and the subtrees of the earlier children. |
| PlanLaws.SiblingOrder | scripts/run_queries.py:206-208 | An earlier child's block ends no later than a later child's block starts, so siblings keep their order. |
| PlanLaws.ChainDepths | scripts/run_queries.py:180-208 | A root with one child that has one child is listed as three lines at depths 0, 1 and 2. |
| PlanLaws.NoFilterAnywhere | scripts/run_queries.py:180-208 | If no reachable node has a `Filter`, no item has a `filter` key. |
| PlanLaws.DistillSpec | scripts/run_queries.py:211-222 | The timings are copied from the response. With no object `Plan` there are no nodes and `top_actual_rows` is null. Otherwise there is one node per object node of the tree, rooted at depth 0, and `top_actual_rows` is the root's `Actual Rows`, the same value as the first item's `actual_rows`. |
| Decimal.DigitsShape | scripts/run_queries.py:252 | A number's numeral is a non-empty digit string with no leading zero, except for zero itself. |
| Decimal.Pad3Shape | scripts/run_queries.py:252 | The `03d` text is all digits and at least three long. It ends with the plain numeral, preceded only by zeros. |
| Decimal.ValueOfPad3 | scripts/run_queries.py:252 | Reading the zero-padded numeral back in base 10 gives the number. |
| Decimal.Pad3Injective | scripts/run_queries.py:252 | Different numbers get different zero-padded texts. |
| Runner.PlanFileNameRoundTrip | scripts/run_queries.py:252 | The query number can be read back from its plan-file name. |
| Runner.PlanFileNameInjective | scripts/run_queries.py:252 | Different query numbers give different plan-file names. |
| Runner.RunFromSpec | scripts/run_queries.py:247-270 | From any point of the loop, the plan files written are those of a prefix of answered queries. The run fails exactly when that prefix is short. The error is that of the first failing EXPLAIN. On success the records are those of every query. |
| Runner.RunQueriesSpec | scripts/run_queries.py:233-271 | The same, for the whole run from query 1. |
| Runner.PlanFilesAt | scripts/run_queries.py:247-255 | The i-th plan file written (0-based) is named for number i+1 and holds the distillation of the i-th response. |
| Runner.RecordsAt | scripts/run_queries.py:257-270 | The i-th record has index i+1 and the i-th statement. Its plan file and its three plan figures come from the i-th plan file, and its client time is the i-th measurement. |
| Runner.PlanFilesDistinct | scripts/run_queries.py:252-255 | No two queries of a run write the same plan file. |
| Runner.SummaryFileName | scripts/run_queries.py:275 | The summary file name is the run id followed by `_summary.jsonl`. |
| Runner.SummaryFileNameInjective | scripts/run_queries.py:275 | Different run ids give different summary file names. |
| Runner.Payload | scripts/run_queries.py:278-286 | A summary line has exactly the seven keys, in the written order. |
| Runner.Summary | scripts/run_queries.py:277-287 | There is one summary line per record, each with the seven keys. |
| Runner.PayloadRoundTrip | scripts/run_queries.py:278-286 | A record can be read back from its summary line. |
| Runner.SummaryRoundTrip | scripts/run_queries.py:274-288 | Reading the summary lines back gives the records, in order, one per line. |
| Tags.Unbracket | scripts/01_load_xml.py:13-14 | Exactly one outer `<`...`>` pair is removed when both ends carry it. Otherwise the string is unchanged. |
| Tags.SplitSep | scripts/01_load_xml.py:17 | Splitting on `><` never gives an empty list. |
| Tags.ParseTags | scripts/01_load_xml.py:7-17 | A result is a non-empty list of pieces, none containing `><`. Joined with `><`, they give back the stripped, unbracketed input. |
| Tags.ParseTagsNone | scripts/01_load_xml.py:7-16 | There is no result exactly when the value is missing, blank, or `<>` after stripping. |
| Tags.JoinSplit | scripts/01_load_xml.py:17 | Joining the split pieces with `><` gives back the string. |
| Tags.SplitUnique | scripts/01_load_xml.py:17 | Any pieces free of `><` are what splitting their join returns. With JoinSplit, splitting and joining are inverse. |
| Tags.ParseTagsExample | scripts/01_load_xml.py:7-17 | `<a><b>` parses to the tags `a` and `b`. |
| Loader.RowCount | scripts/01_load_xml.py:37-39 | With no limit, or a limit of 0, every row is read. A positive limit caps the count at the limit. A negative limit lets at most one row through. |
| Loader.IterRows | scripts/01_load_xml.py:29-39 | The rows yielded are the attribute maps of the `row` elements, in the order `iterparse` ends them, cut to the count the limit allows. |
| Loader.RowAttrsSpec | scripts/01_load_xml.py:32-35 | An attribute map is yielded exactly when some element tagged `row` carries it. |
| Loader.GetInt | scripts/01_load_xml.py:20-22 | The value is absent exactly when the attribute is. When present, it is the parse of the attribute text. |
| Loader.ReadCell | scripts/01_load_xml.py:7-26 | Integer and text columns yield cells of their own kind. Each is present exactly when its attribute is. An integer cell holds the parsed attribute and a text cell the attribute text. A tags cell holds `ParseTags` of the attribute, so it is present only when the attribute is. |
| Loader.MakeRow | scripts/01_load_xml.py:61-86 | A row has one cell per column, each read from the element's attributes by that column's rule. |
| Loader.Cap | scripts/01_load_xml.py:87 | The effective batch size is at least 1, and it equals the requested size when that is at least 1. |
| Loader.FlushBatches | scripts/01_load_xml.py:57-97 | The batches sent are the rows cut into consecutive chunks of the effective batch size. The final total is the number of rows. The printed progress is the running total after each batch. |
| Loader.ChunksAppend | scripts/01_load_xml.py:87-92 | Once a run of full batches is sent, a further batch of at most the batch size is appended as one more batch. |
| Loader.ChunksSpec | scripts/01_load_xml.py:87-97 | The batches concatenate to the rows, in order. Each batch holds between 1 and the batch size rows, and all but the last are full. |
| Loader.TotalsSpec | scripts/01_load_xml.py:90-91 | After each batch, the printed total is the number of rows sent so far. After the last batch it is all of them. |
| Loader.LoadTable | scripts/01_load_xml.py:42-97 | The rows inserted are, in order, the rows built from the limited `row` elements, in full batches. The total is their count. |
| Loader.LoadPosts | scripts/01_load_xml.py:42-97 | The rows inserted are the post rows the limit allows, each built from the 22 post columns in order, in batches of the batch size; the total is their number. |
| Loader.LoadUsers | scripts/01_load_xml.py:100-144 | The rows inserted are the user rows the limit allows, each built from the 14 user columns in order, in batches of the batch size; the total is their number. |
| Loader.LoadComments | scripts/01_load_xml.py:147-182 | The rows inserted are the comment rows the limit allows, each built from the 8 comment columns in order, in batches of the batch size; the total is their number. |
| Embed.BuildTextBlank | scripts/02_embed_posts.py:8-11 | The text is empty exactly when the title and body are both missing or blank. |
| Embed.BuildTextNoBody | scripts/02_embed_posts.py:8-11 | With a missing or blank body, the text is the stripped title. |
| Embed.BuildTextNoTitle | scripts/02_embed_posts.py:8-11 | With a missing or blank title, the text is the stripped body. |
| Embed.BuildTextBoth | scripts/02_embed_posts.py:8-11 | With both present, the text is the stripped title, then a whitespace run, then the stripped body. The whitespace run is the title's trailing whitespace, the blank line, and the body's leading whitespace. |
| Embed.KeptSkipped | scripts/02_embed_posts.py:53-59 | The fetched posts split into the embedded and the skipped ones, together a permutation of the fetch. A post is embedded exactly when its text reaches the minimum length, and skipped exactly when it does not. |
| Embed.Partition | scripts/02_embed_posts.py:50-59 | The texts and ids align, and every fetched row lands on exactly one list. |
| Embed.PartitionSpec | scripts/02_embed_posts.py:50-59 | The embed lists hold, in fetch order, the text and id of each long-enough post. The skip list holds, in fetch order, the ids of the others. |
| Embed.BatchUpdates | scripts/02_embed_posts.py:62-74 | One update is issued per fetched row. |
| Embed.BatchUpdatesSpec | scripts/02_embed_posts.py:62-74 | Each skipped post gets the zero vector and each kept post the encoding of its text, paired by position with its id, in fetch order. |
| Embed.EmbedPosts | scripts/02_embed_posts.py:33-82 | The loop processes a prefix of the fetches, each non-empty, and issues that prefix's updates. The total is that prefix's row count. The loop stops at the first empty fetch, or at the first batch after which a non-zero cap is reached, and not earlier. |
| Embed.TotalIsUpdates | scripts/02_embed_posts.py:78 | The running total equals the number of updates issued, so it grows by exactly the rows of each fetch. |

## Left out

- Database access is not modelled. This covers every psycopg call: connect, `SET statement_timeout`, execute, fetch, commit and `executemany`. EXPLAIN results are an input sequence of `Result` values, and a `RuntimeError` from `_run_explain` is a `Raised` outcome. The embedding loop's fetches are an input sequence of batches.
- Wall-clock time is not modelled. `time.perf_counter` and `client_time_ms` are an input sequence of reals.
- File output is not modelled: JSON formatting (`json.dump`, `json.dumps`), `os.makedirs` and path joining. A summary line is modelled as its ordered key/value pairs.
- `argparse` and the `datetime` default run id are not modelled, because they are command-line and clock concerns. The run id is a parameter.
- XML parsing is not modelled. `iterparse` becomes a sequence of (tag, attributes) elements, and `elem.clear` has no effect in the model.
- `int()` in `get_int` is an opaque `parse` function. The `ValueError` it raises on bad text is not modelled.
- The sentence-transformer model is not modelled. Its encoding is an opaque function applied to each kept text, and the float zero vector is a parameter.
- Embed.EmbedPosts: requires the fetch sequence to end with an empty batch. The source loop is `while True`, so it ends only when the database returns no rows or the cap is reached. The model cannot promise that the database ever runs out.
- A truthy `"Plans"` value that is a string or a dict iterates element by element, and every element is skipped because it is not a dict. The model covers this case as a list of non-dict children. A truthy value that cannot be iterated, such as a number, makes the source raise `TypeError`; the model does not represent that value.
- Python's string model is not modelled beyond `str.isspace` on single characters. Normalisation, case folding and encoding play no part.
- Re-splitting the statements after rejoining them with `;` is not proved to give the same statements in general. SqlLaws.SplitAtSemicolon and SqlLaws.SplitDropsFinalSemicolon are the compositional facts such a proof would rest on.
- `scripts/embed_posts.py` and `scripts/embedding_search.py` are not part of this model. Their work is HTML cleanup by library calls and a single similarity query.
