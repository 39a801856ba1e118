/** The driver loop of the query-profiling harness (`_run_queries` and
    `_write_summary` in scripts/run_queries.py): queries are numbered from 1,
    each plan is distilled into its own `query_NNN_plan.json`, and one
    summary record per query is written in order.

    The database is a parameter: `responses[i]` is what EXPLAIN returned for
    the i-th query (or the error it raised), and `elapsed[i]` the client-side
    time it took. */
module Runner {
  import opened Py
  import opened Plan
  import opened Decimal

  /** `QueryResult`. Timings read from the plan are opaque JSON values;
      `clientTime` is the measured time in milliseconds. */
  datatype QueryResult<V> = QueryResult(
    queryIndex: nat,
    query: string,
    planFile: string,
    planningTime: Option<V>,
    executionTime: Option<V>,
    clientTime: real,
    topActualRows: Option<V>)

  const PlanPrefix := "query_"
  const PlanSuffix := "_plan.json"

  /** `f"query_{idx:03d}_plan.json"`. */
  function PlanFileName(idx: nat): string
  {
    PlanPrefix + Pad3(idx) + PlanSuffix
  }

  /** Reads the query number back from a plan file name. */
  function ParsePlanFileName(s: string): (r: Option<nat>)
  {
    if |s| >= |PlanPrefix| + 3 + |PlanSuffix|
       && s[..|PlanPrefix|] == PlanPrefix
       && s[|s| - |PlanSuffix|..] == PlanSuffix
       && AllDigits(s[|PlanPrefix|..|s| - |PlanSuffix|])
       && Value(s[|PlanPrefix|..|s| - |PlanSuffix|]) >= 0
    then Some(Value(s[|PlanPrefix|..|s| - |PlanSuffix|]))
    else None
  }

  /** The number can be read back from the file name it produces. */
  lemma PlanFileNameRoundTrip(idx: nat)
    ensures ParsePlanFileName(PlanFileName(idx)) == Some(idx)
  {
    var s := PlanFileName(idx);
    assert s[..|PlanPrefix|] == PlanPrefix;
    assert s[|s| - |PlanSuffix|..] == PlanSuffix;
    Pad3Shape(idx);
    assert s[|PlanPrefix|..|s| - |PlanSuffix|] == Pad3(idx);
    ValueOfPad3(idx);
  }

  /** Two queries never write the same plan file. */
  lemma PlanFileNameInjective(a: nat, b: nat)
    requires a != b
    ensures PlanFileName(a) != PlanFileName(b)
  {
    PlanFileNameRoundTrip(a);
    PlanFileNameRoundTrip(b);
  }

  /** The record of query number `idx` agrees with the plan file written for
      it and with the measured time. */
  ghost predicate Describes<V>(rec: QueryResult<V>, idx: nat, query: string, file: (string, Distilled<V>), time: real) {
    && rec.queryIndex == idx
    && rec.query == query
    && rec.planFile == file.0
    && rec.planningTime == file.1.planningTime
    && rec.executionTime == file.1.executionTime
    && rec.topActualRows == file.1.topActualRows
    && rec.clientTime == time
  }

  /** The plan file written for query number `idx`: its name and the
      distilled plan. */
  function PlanFile<V>(idx: nat, response: Explain<V>): (string, Distilled<V>) {
    (PlanFileName(idx), Distill(response))
  }

  /** The record of query number `idx`, read back from its plan file. */
  function Record<V>(idx: nat, query: string, file: (string, Distilled<V>), time: real): QueryResult<V> {
    QueryResult(idx, query, file.0, file.1.planningTime, file.1.executionTime, time, file.1.topActualRows)
  }

  /** Every one of the first `n` responses is a plan, not an error. */
  predicate Answered<V, E>(responses: seq<Outcome<Explain<V>, E>>, n: nat) {
    n <= |responses| && forall k :: 0 <= k < n ==> responses[k].Returned?
  }

  /** The plan files of the first `n` queries, in the order they are written. */
  function PlanFiles<V, E>(responses: seq<Outcome<Explain<V>, E>>, n: nat): (r: seq<(string, Distilled<V>)>)
    requires Answered(responses, n)
    ensures |r| == n
  {
    if n == 0 then [] else PlanFiles(responses, n - 1) + [PlanFile(n, responses[n - 1].value)]
  }

  /** The records of the queries whose plan files are `files`. */
  function Records<V>(queries: seq<string>, files: seq<(string, Distilled<V>)>, elapsed: seq<real>): (r: seq<QueryResult<V>>)
    requires |files| <= |queries| && |files| <= |elapsed|
    ensures |r| == |files|
  {
    if files == [] then []
    else
      var n := |files|;
      Records(queries, files[..n - 1], elapsed) + [Record(n, queries[n - 1], files[n - 1], elapsed[n - 1])]
  }

  /** The loop of `_run_queries` from query `i` on, with the plan files and
      records of the queries before it. The first failed EXPLAIN ends the
      run with its error; the files written so far stay written. */
  function RunFrom<V, E>(queries: seq<string>, responses: seq<Outcome<Explain<V>, E>>, elapsed: seq<real>,
                         i: nat, files: seq<(string, Distilled<V>)>, results: seq<QueryResult<V>>)
    : (seq<(string, Distilled<V>)>, Outcome<seq<QueryResult<V>>, E>)
    requires |responses| == |queries| && |elapsed| == |queries| && i <= |queries|
    decreases |queries| - i
  {
    if i == |queries| then
      (files, Returned(results))
    else if responses[i].Raised? then
      (files, Raised(responses[i].error))
    else
      var file := PlanFile(i + 1, responses[i].value);
      RunFrom(queries, responses, elapsed, i + 1, files + [file], results + [Record(i + 1, queries[i], file, elapsed[i])])
  }

  /** `_run_queries` over the given queries: the plan files written, and the
      list of results or the error that stopped the run. */
  function RunQueries<V, E>(queries: seq<string>, responses: seq<Outcome<Explain<V>, E>>, elapsed: seq<real>)
    : (seq<(string, Distilled<V>)>, Outcome<seq<QueryResult<V>>, E>)
    requires |responses| == |queries| && |elapsed| == |queries|
  {
    RunFrom(queries, responses, elapsed, 0, [], [])
  }

  /** What a run produces, from any point of the loop on. */
  lemma {:induction false} RunFromSpec<V, E>(queries: seq<string>, responses: seq<Outcome<Explain<V>, E>>, elapsed: seq<real>,
                                            i: nat, files: seq<(string, Distilled<V>)>, results: seq<QueryResult<V>>)
    requires |responses| == |queries| && |elapsed| == |queries| && i <= |queries|
    requires Answered(responses, i) && files == PlanFiles(responses, i)
    requires results == Records(queries, files, elapsed)
    ensures var (fs, outcome) := RunFrom(queries, responses, elapsed, i, files, results);
      && Answered(responses, |fs|) && fs == PlanFiles(responses, |fs|)
      && (outcome.Raised? <==> |fs| < |queries|)
      && (outcome.Raised? ==> responses[|fs|].Raised? && outcome.error == responses[|fs|].error)
      && (outcome.Returned? ==> outcome.value == Records(queries, fs, elapsed))
    decreases |queries| - i
  {
    if i < |queries| && responses[i].Returned? {
      var file := PlanFile(i + 1, responses[i].value);
      var rec := Record(i + 1, queries[i], file, elapsed[i]);
      RunStep(queries, responses, elapsed, i, files, results, file, rec);
      RunFromSpec(queries, responses, elapsed, i + 1, files + [file], results + [rec]);
    }
  }

  /** One answered query extends the plan files and the records by its own. */
  lemma RunStep<V, E>(queries: seq<string>, responses: seq<Outcome<Explain<V>, E>>, elapsed: seq<real>,
                      i: nat, files: seq<(string, Distilled<V>)>, results: seq<QueryResult<V>>,
                      file: (string, Distilled<V>), rec: QueryResult<V>)
    requires |responses| == |queries| && |elapsed| == |queries| && i < |queries|
    requires Answered(responses, i) && responses[i].Returned? && files == PlanFiles(responses, i)
    requires results == Records(queries, files, elapsed)
    requires file == PlanFile(i + 1, responses[i].value) && rec == Record(i + 1, queries[i], file, elapsed[i])
    ensures Answered(responses, i + 1) && files + [file] == PlanFiles(responses, i + 1)
    ensures results + [rec] == Records(queries, files + [file], elapsed)
  {
    assert (files + [file])[..i] == files;
  }

  /** A run writes a plan file for each query answered before the first
      failure; it fails exactly when some EXPLAIN failed, with the first
      error, and otherwise returns one record per query, in order. */
  lemma RunQueriesSpec<V, E>(queries: seq<string>, responses: seq<Outcome<Explain<V>, E>>, elapsed: seq<real>)
    requires |responses| == |queries| && |elapsed| == |queries|
    ensures var (files, outcome) := RunQueries(queries, responses, elapsed);
      && Answered(responses, |files|) && files == PlanFiles(responses, |files|)
      && (outcome.Raised? <==> |files| < |queries|)
      && (outcome.Raised? ==> responses[|files|].Raised? && outcome.error == responses[|files|].error)
      && (outcome.Returned? ==> outcome.value == Records(queries, files, elapsed))
  {
    RunFromSpec(queries, responses, elapsed, 0, [], []);
  }

  /** The i-th plan file is named for query number `i + 1` and holds the
      distilled i-th plan. */
  lemma {:induction false} PlanFilesAt<V, E>(responses: seq<Outcome<Explain<V>, E>>, n: nat, i: nat)
    requires Answered(responses, n) && i < n
    ensures PlanFiles(responses, n)[i] == (PlanFileName(i + 1), Distill(responses[i].value))
  {
    if i < n - 1 {
      PlanFilesAt(responses, n - 1, i);
    }
  }

  /** The i-th record carries query number `i + 1`, its text, its measured
      time, and the name and timings of the i-th plan file. */
  lemma {:induction false} RecordsAt<V>(queries: seq<string>, files: seq<(string, Distilled<V>)>, elapsed: seq<real>, i: nat)
    requires |files| <= |queries| && |files| <= |elapsed| && i < |files|
    ensures Describes(Records(queries, files, elapsed)[i], i + 1, queries[i], files[i], elapsed[i])
    decreases |files|
  {
    var n := |files|;
    if i < n - 1 {
      RecordsAt(queries, files[..n - 1], elapsed, i);
    }
  }

  /** No two plan files of a run share a name, so no query's plan overwrites
      another's. */
  lemma PlanFilesDistinct<V, E>(responses: seq<Outcome<Explain<V>, E>>, n: nat, i: nat, j: nat)
    requires Answered(responses, n) && i < j < n
    ensures PlanFiles(responses, n)[i].0 != PlanFiles(responses, n)[j].0
  {
    PlanFilesAt(responses, n, i);
    PlanFilesAt(responses, n, j);
    PlanFileNameInjective(i + 1, j + 1);
  }

  // ---------------------------------------------------------------------------
  // The summary file

  /** The JSON values a summary line holds. */
  datatype Json<V> = Int(i: int) | Str(s: string) | Real(r: real) | Opt(o: Option<V>)

  /** The keys of a summary line, in the order they are written. */
  const SummaryKeys: seq<string> := [
    "query_index", "query", "plan_file", "planning_time_ms",
    "execution_time_ms", "client_time_ms", "top_actual_rows"]

  /** `f"{run_id}_summary.jsonl"`. */
  function SummaryFileName(runId: string): (r: string)
    ensures |r| == |runId| + 14 && r[..|runId|] == runId
    ensures r[|runId|..] == "_summary.jsonl"
  {
    runId + "_summary.jsonl"
  }

  /** Different runs write different summary files: the run id can be read
      back as the name without its fixed suffix. */
  lemma SummaryFileNameInjective(a: string, b: string)
    requires a != b
    ensures SummaryFileName(a) != SummaryFileName(b)
  {
    var na, nb := SummaryFileName(a), SummaryFileName(b);
    assert na[..|na| - 14] == a;
    assert nb[..|nb| - 14] == b;
  }

  /** The payload of one summary line. */
  function Payload<V>(r: QueryResult<V>): (p: seq<(string, Json<V>)>)
    ensures Keys(p) == SummaryKeys
  {
    [("query_index", Int(r.queryIndex)),
     ("query", Str(r.query)),
     ("plan_file", Str(r.planFile)),
     ("planning_time_ms", Opt(r.planningTime)),
     ("execution_time_ms", Opt(r.executionTime)),
     ("client_time_ms", Real(r.clientTime)),
     ("top_actual_rows", Opt(r.topActualRows))]
  }

  /** `_write_summary`: one payload per result, in the results' order. */
  function Summary<V>(results: seq<QueryResult<V>>): (lines: seq<seq<(string, Json<V>)>>)
    ensures |lines| == |results|
    ensures forall i :: 0 <= i < |lines| ==> Keys(lines[i]) == SummaryKeys
  {
    if results == [] then [] else [Payload(results[0])] + Summary(results[1..])
  }

  /** Reads a record back from a summary line. */
  function ReadPayload<V>(p: seq<(string, Json<V>)>): Option<QueryResult<V>> {
    if Keys(p) == SummaryKeys
       && p[0].1.Int? && p[0].1.i >= 0 && p[1].1.Str? && p[2].1.Str? && p[3].1.Opt?
       && p[4].1.Opt? && p[5].1.Real? && p[6].1.Opt?
    then Some(QueryResult(p[0].1.i, p[1].1.s, p[2].1.s, p[3].1.o, p[4].1.o, p[5].1.r, p[6].1.o))
    else None
  }

  function ReadSummary<V>(lines: seq<seq<(string, Json<V>)>>): Option<seq<QueryResult<V>>> {
    if lines == [] then Some([])
    else
      match (ReadPayload(lines[0]), ReadSummary(lines[1..]))
      case (Some(r), Some(rs)) => Some([r] + rs)
      case _ => None
  }

  /** Every record survives the trip through its summary line. */
  lemma PayloadRoundTrip<V>(r: QueryResult<V>)
    ensures ReadPayload(Payload(r)) == Some(r)
  {
  }

  /** The summary file holds every result, in order. */
  lemma {:induction false} SummaryRoundTrip<V>(results: seq<QueryResult<V>>)
    ensures ReadSummary(Summary(results)) == Some(results)
  {
    if results != [] {
      PayloadRoundTrip(results[0]);
      SummaryRoundTrip(results[1..]);
      assert Summary(results)[1..] == Summary(results[1..]);
      assert [results[0]] + results[1..] == results;
    }
  }
}
