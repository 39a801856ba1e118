/** Plan distillation (`_summarize_plan`, `_add_if_present`,
    `_extract_plan_nodes` and `_distill_plan` in scripts/run_queries.py).

    An EXPLAIN plan is a tree of JSON objects. Field values are opaque here
    (type parameter `V`); a field whose value is JSON null reads the same as a
    missing one through `dict.get`, so `fields` holds only the non-null ones.
    The `"Plans"` entry is kept apart as the list of children, each of which
    may or may not be an object. */
module Plan {
  import opened Py

  datatype PlanNode<V> = PlanNode(fields: map<string, V>, plans: seq<Child<V>>)

  /** An element of a `"Plans"` list: an object, or any other JSON value. */
  datatype Child<V> = Node(node: PlanNode<V>) | NonDict(value: V)

  /** The result of one EXPLAIN: the two top-level timings and the `"Plan"`
      entry when it is an object. */
  datatype Explain<V> = Explain(fields: map<string, V>, plan: Option<PlanNode<V>>)

  /** One flattened node: its type, its depth and the allow-listed fields that
      were present, under their output names and in allow-list order. */
  datatype FlatNode<V> = FlatNode(nodeType: Option<V>, depth: nat, present: seq<(string, V)>)

  /** The record written to `query_NNN_plan.json`. */
  datatype Distilled<V> = Distilled(
    planningTime: Option<V>,
    executionTime: Option<V>,
    topActualRows: Option<V>,
    nodes: seq<FlatNode<V>>)

  /** The fields copied from a plan node, as (source key, output key) pairs in
      the order the source copies them. */
  const Allowed: seq<(string, string)> := [
    ("Relation Name", "relation"),
    ("Index Name", "index"),
    ("Actual Rows", "actual_rows"),
    ("Actual Loops", "actual_loops"),
    ("Actual Total Time", "actual_total_time_ms"),
    ("Plan Rows", "plan_rows"),
    ("Plan Width", "plan_width"),
    ("Total Cost", "plan_total_cost"),
    ("Filter", "filter"),
    ("Index Cond", "index_cond"),
    ("Recheck Cond", "recheck_cond"),
    ("Hash Cond", "hash_cond"),
    ("Merge Cond", "merge_cond"),
    ("Join Filter", "join_filter"),
    ("Sort Key", "sort_key"),
    ("Group Key", "group_key"),
    ("Shared Hit Blocks", "shared_hit_blocks"),
    ("Shared Read Blocks", "shared_read_blocks"),
    ("Shared Dirtied Blocks", "shared_dirtied_blocks"),
    ("Shared Written Blocks", "shared_written_blocks"),
    ("Temp Read Blocks", "temp_read_blocks"),
    ("Temp Written Blocks", "temp_written_blocks")
  ]

  /** The keys of an association list, in order. */
  function Keys<V>(kvs: seq<(string, V)>): (r: seq<string>)
    ensures |r| == |kvs|
    ensures forall i :: 0 <= i < |kvs| ==> r[i] == kvs[i].0
  {
    if kvs == [] then [] else [kvs[0].0] + Keys(kvs[1..])
  }

  /** The value stored under `key` in an association list (first match). */
  function Lookup<V>(kvs: seq<(string, V)>, key: string): (r: Option<V>)
    ensures r.Some? <==> key in Keys(kvs)
  {
    if kvs == [] then None
    else if kvs[0].0 == key then Some(kvs[0].1)
    else Lookup(kvs[1..], key)
  }

  /** No two pairs share an output key. */
  predicate DistinctOuts(pairs: seq<(string, string)>) {
    forall i, j :: 0 <= i < j < |pairs| ==> pairs[i].1 != pairs[j].1
  }

  /** `k` is the output key of one of the pairs. */
  predicate IsOut(pairs: seq<(string, string)>, k: string) {
    exists i :: 0 <= i < |pairs| && pairs[i].1 == k
  }

  /** The repeated `_add_if_present` calls: for each pair in order, the value
      under the source key is copied to the output key when it is present. */
  function CopyPresent<V>(fields: map<string, V>, pairs: seq<(string, string)>): (r: seq<(string, V)>)
    ensures |r| <= |pairs|
  {
    if pairs == [] then []
    else
      var (key, outKey) := pairs[0];
      (if key in fields then [(outKey, fields[key])] else []) + CopyPresent(fields, pairs[1..])
  }

  /** `_extract_plan_nodes` for one node: the item appended for it. */
  function Project<V>(n: PlanNode<V>, depth: nat): FlatNode<V> {
    FlatNode(Get(n.fields, "Node Type"), depth, CopyPresent(n.fields, Allowed))
  }

  /** `_extract_plan_nodes(node, depth, out)`: the node's item, then, for each
      child that is an object and in list order, the items of its subtree one
      level deeper. */
  function Flatten<V>(n: PlanNode<V>, depth: nat): (r: seq<FlatNode<V>>)
    ensures r != [] && r[0] == Project(n, depth)
    decreases n, 1, 0
  {
    [Project(n, depth)] + FlattenFrom(n, 0, depth + 1)
  }

  /** The items of the children `n.plans[i..]`, at `depth`. */
  function FlattenFrom<V>(n: PlanNode<V>, i: nat, depth: nat): seq<FlatNode<V>>
    requires i <= |n.plans|
    decreases n, 0, |n.plans| - i
  {
    if i == |n.plans| then []
    else
      var first := match n.plans[i]
        case Node(c) => Flatten(c, depth)
        case NonDict(_) => [];
      first + FlattenFrom(n, i + 1, depth)
  }

  /** `_summarize_plan`: the two timings, and the root's `"Actual Rows"` when
      the `"Plan"` entry is an object. */
  function Summarize<V>(e: Explain<V>): (r: (Option<V>, Option<V>, Option<V>))
  {
    var top := match e.plan
      case Some(p) => Get(p.fields, "Actual Rows")
      case None => None;
    (Get(e.fields, "Planning Time"), Get(e.fields, "Execution Time"), top)
  }

  /** `_distill_plan`. */
  function Distill<V>(e: Explain<V>): (r: Distilled<V>)
  {
    var (planning, execution, top) := Summarize(e);
    var nodes := match e.plan
      case Some(p) => Flatten(p, 0)
      case None => [];
    Distilled(planning, execution, top, nodes)
  }
}
