/** The embedding pass (scripts/02_embed_posts.py): posts without an
    embedding are fetched in batches; each post's text is its title and body;
    posts whose text is too short get the zero vector, the others the model's
    encoding of the text; the pass stops when nothing is left or a row cap is
    reached.

    The database and the model are parameters: the successive fetch results
    are given as a sequence, and the model as a function from text to
    vector. */
module Embed {
  import opened Py
  import opened Text

  /** A fetched row: `(id, title, body)`, either text possibly NULL. */
  datatype Post = Post(id: int, title: Option<string>, body: Option<string>)

  const Separator: string := "\n\n"

  /** `build_text(title, body)`: the two texts, a missing one read as empty,
      joined by a blank line, with the surrounding whitespace removed. */
  function BuildText(title: Option<string>, body: Option<string>): string {
    Strip(title.Or("") + Separator + body.Or(""))
  }

  function TextOf(p: Post): string {
    BuildText(p.title, p.body)
  }

  lemma SeparatorIsSpace()
    ensures AllSpace(Separator)
  {
    assert IsSpace(Separator[0]) && IsSpace(Separator[1]);
  }

  lemma AllSpaceJoin(a: string, b: string)
    requires AllSpace(a) && AllSpace(b)
    ensures AllSpace(a + b)
  {
    assert forall k :: 0 <= k < |a + b| ==> (a + b)[k] == if k < |a| then a[k] else b[k - |a|];
  }

  /** The whitespace before the stripped text of `s`. */
  function Leading(s: string): string {
    s[..StripLo(s)]
  }

  /** The whitespace after the stripped text of `s`. */
  function Trailing(s: string): string {
    s[StripLo(s) + |Strip(s)|..]
  }

  /** `s` is its stripped text with whitespace on either side. */
  lemma StripSplit(s: string)
    ensures s == Leading(s) + Strip(s) + Trailing(s)
    ensures AllSpace(Leading(s)) && AllSpace(Trailing(s))
  {
    var lo := StripLo(s);
    var hi := lo + |Strip(s)|;
    SliceThree(s, lo, hi);
    forall k | 0 <= k < lo
      ensures IsSpace(s[..lo][k])
    {
      assert s[..lo][k] == s[k];
    }
    forall k | 0 <= k < |s| - hi
      ensures IsSpace(s[hi..][k])
    {
      assert s[hi..][k] == s[hi + k];
    }
  }

  lemma SliceThree<T>(s: seq<T>, lo: nat, hi: nat)
    requires lo <= hi <= |s|
    ensures s == s[..lo] + s[lo..hi] + s[hi..]
  {
  }

  /** The text is empty exactly when both title and body are missing or
      blank. */
  lemma BuildTextBlank(title: Option<string>, body: Option<string>)
    ensures BuildText(title, body) == [] <==> AllSpace(title.Or("")) && AllSpace(body.Or(""))
  {
    var t := title.Or("");
    var b := body.Or("");
    var s := t + Separator + b;
    SeparatorIsSpace();
    if AllSpace(t) && AllSpace(b) {
      AllSpaceJoin(t, Separator);
      AllSpaceJoin(t + Separator, b);
    } else if !AllSpace(t) {
      var k :| 0 <= k < |t| && !IsSpace(t[k]);
      assert s[k] == t[k];
    } else {
      var k :| 0 <= k < |b| && !IsSpace(b[k]);
      assert s[|t| + 2 + k] == b[k];
    }
  }

  /** Whitespace, a stripped core and whitespace, however grouped, strip
      to the core. */
  lemma StripAround(s: string, a: string, r: string, b: string)
    requires s == a + r + b && AllSpace(a) && AllSpace(b) && IsStripped(r)
    ensures Strip(s) == r
  {
    StripUnique(a, r, b);
  }

  /** With no body (missing or blank) the text is the stripped title. */
  lemma BuildTextNoBody(title: Option<string>, body: Option<string>)
    requires AllSpace(body.Or(""))
    ensures BuildText(title, body) == Strip(title.Or(""))
  {
    var t := title.Or("");
    StripSplit(t);
    NoBodyCore(t, body.Or(""), Leading(t), Strip(t), Trailing(t));
  }

  lemma NoBodyCore(t: string, b: string, lead: string, core: string, trail: string)
    requires t == lead + core + trail && AllSpace(lead) && AllSpace(trail) && IsStripped(core)
    requires AllSpace(b)
    ensures Strip(t + Separator + b) == core
  {
    SeparatorIsSpace();
    AllSpaceJoin(trail, Separator);
    AllSpaceJoin(trail + Separator, b);
    assert t + Separator + b == lead + core + (trail + Separator + b);
    StripAround(t + Separator + b, lead, core, trail + Separator + b);
  }

  /** With no title (missing or blank) the text is the stripped body. */
  lemma BuildTextNoTitle(title: Option<string>, body: Option<string>)
    requires AllSpace(title.Or(""))
    ensures BuildText(title, body) == Strip(body.Or(""))
  {
    var b := body.Or("");
    StripSplit(b);
    NoTitleCore(title.Or(""), b, Leading(b), Strip(b), Trailing(b));
  }

  lemma NoTitleCore(t: string, b: string, lead: string, core: string, trail: string)
    requires b == lead + core + trail && AllSpace(lead) && AllSpace(trail) && IsStripped(core)
    requires AllSpace(t)
    ensures Strip(t + Separator + b) == core
  {
    SeparatorIsSpace();
    AllSpaceJoin(t, Separator);
    AllSpaceJoin(t + Separator, lead);
    assert t + Separator + b == (t + Separator + lead) + core + trail;
    StripAround(t + Separator + b, t + Separator + lead, core, trail);
  }

  /** With both present, the text is the stripped title, then the
      whitespace between them (the title's trailing whitespace, the blank
      line, the body's leading whitespace), then the stripped body. */
  lemma BuildTextBoth(title: Option<string>, body: Option<string>)
    requires !AllSpace(title.Or("")) && !AllSpace(body.Or(""))
    ensures var t := title.Or(""); var b := body.Or("");
      BuildText(title, body) == Strip(t) + (Trailing(t) + Separator + Leading(b)) + Strip(b)
    ensures AllSpace(Trailing(title.Or("")) + Separator + Leading(body.Or("")))
  {
    var t := title.Or("");
    var b := body.Or("");
    StripSplit(t);
    StripSplit(b);
    BothCore(t, b, Leading(t), Strip(t), Trailing(t), Leading(b), Strip(b), Trailing(b));
  }

  lemma BothCore(t: string, b: string, tLead: string, tCore: string, tTrail: string,
                 bLead: string, bCore: string, bTrail: string)
    requires t == tLead + tCore + tTrail && AllSpace(tLead) && AllSpace(tTrail) && IsStripped(tCore)
    requires b == bLead + bCore + bTrail && AllSpace(bLead) && AllSpace(bTrail) && IsStripped(bCore)
    requires tCore != [] && bCore != []
    ensures Strip(t + Separator + b) == tCore + (tTrail + Separator + bLead) + bCore
    ensures AllSpace(tTrail + Separator + bLead)
  {
    SeparatorIsSpace();
    var mid := tTrail + Separator + bLead;
    AllSpaceJoin(tTrail, Separator);
    AllSpaceJoin(tTrail + Separator, bLead);
    var inner := tCore + mid + bCore;
    assert t + Separator + b == tLead + inner + bTrail;
    assert inner[0] == tCore[0] && inner[|inner| - 1] == bCore[|bCore| - 1];
    StripAround(t + Separator + b, tLead, inner, bTrail);
  }

  // ---------------------------------------------------------------------------
  // One batch

  /** The text of `p` is long enough to embed. */
  predicate Long(p: Post, minLen: int) {
    |TextOf(p)| >= minLen
  }

  function LongTest(minLen: int): Post -> bool {
    p => Long(p, minLen)
  }

  /** The elements `x` of `xs` with `test(x) == want`, in order. */
  function Select<T>(xs: seq<T>, test: T -> bool, want: bool): (r: seq<T>)
    ensures |r| <= |xs|
  {
    if xs == [] then []
    else
      var last := xs[|xs| - 1];
      Select(xs[..|xs| - 1], test, want) + (if test(last) == want then [last] else [])
  }

  /** The posts whose text is long enough to embed, in fetch order. */
  function Kept(rows: seq<Post>, minLen: int): seq<Post> {
    Select(rows, LongTest(minLen), true)
  }

  /** The posts whose text is too short, in fetch order. */
  function Skipped(rows: seq<Post>, minLen: int): seq<Post> {
    Select(rows, LongTest(minLen), false)
  }

  /** The two selections together are the whole sequence. */
  lemma {:induction false} SelectSplit<T>(xs: seq<T>, test: T -> bool)
    ensures multiset(Select(xs, test, true)) + multiset(Select(xs, test, false)) == multiset(xs)
    ensures |Select(xs, test, true)| + |Select(xs, test, false)| == |xs|
  {
    if xs != [] {
      var init := xs[..|xs| - 1];
      var last := xs[|xs| - 1];
      SelectSplit(init, test);
      assert xs == init + [last];
      SplitStep(xs, init, last, Select(init, test, true), Select(init, test, false),
                Select(xs, test, true), Select(xs, test, false), test(last));
    }
  }

  /** Adding one element to a split sequence adds it to exactly one side. */
  lemma SplitStep<T>(xs: seq<T>, init: seq<T>, last: T, yes0: seq<T>, no0: seq<T>, yes: seq<T>, no: seq<T>, passes: bool)
    requires xs == init + [last]
    requires multiset(yes0) + multiset(no0) == multiset(init) && |yes0| + |no0| == |init|
    requires passes ==> yes == yes0 + [last] && no == no0
    requires !passes ==> yes == yes0 && no == no0 + [last]
    ensures multiset(yes) + multiset(no) == multiset(xs) && |yes| + |no| == |xs|
  {
    assert multiset(xs) == multiset(init) + multiset{last};
  }

  /** Exactly the elements that pass the test the wanted way are selected. */
  lemma {:induction false} SelectMembers<T>(xs: seq<T>, test: T -> bool, want: bool)
    ensures forall x :: x in Select(xs, test, want) <==> x in xs && test(x) == want
  {
    if xs != [] {
      var init := xs[..|xs| - 1];
      SelectMembers(init, test, want);
      assert xs == init + [xs[|xs| - 1]];
    }
  }

  /** Every fetched post is kept or skipped, never both, by the length of
      its text. */
  lemma KeptSkipped(rows: seq<Post>, minLen: int)
    ensures multiset(Kept(rows, minLen)) + multiset(Skipped(rows, minLen)) == multiset(rows)
    ensures |Kept(rows, minLen)| + |Skipped(rows, minLen)| == |rows|
    ensures forall p :: p in Kept(rows, minLen) <==> p in rows && Long(p, minLen)
    ensures forall p :: p in Skipped(rows, minLen) <==> p in rows && !Long(p, minLen)
  {
    SelectSplit(rows, LongTest(minLen));
    SelectMembers(rows, LongTest(minLen), true);
    SelectMembers(rows, LongTest(minLen), false);
  }

  /** The three lists the loop over a batch builds. */
  datatype Parts = Parts(texts: seq<string>, ids: seq<int>, skipIds: seq<int>)

  /** The loop over a fetched batch: a post whose text is shorter than
      `minLen` has its id put on the skip list, any other its text and id on
      the embed lists. */
  function Partition(rows: seq<Post>, minLen: int): (r: Parts)
    ensures |r.texts| == |r.ids|
    ensures |r.ids| + |r.skipIds| == |rows|
  {
    if rows == [] then Parts([], [], [])
    else
      var p := Partition(rows[..|rows| - 1], minLen);
      var row := rows[|rows| - 1];
      var text := TextOf(row);
      if |text| < minLen then Parts(p.texts, p.ids, p.skipIds + [row.id])
      else Parts(p.texts + [text], p.ids + [row.id], p.skipIds)
  }

  /** The embed lists are the kept posts' texts and ids, and the skip list
      the skipped posts' ids, position by position. */
  lemma {:induction false} PartitionSpec(rows: seq<Post>, minLen: int)
    ensures var p := Partition(rows, minLen);
      var kept := Kept(rows, minLen);
      var skipped := Skipped(rows, minLen);
      && |p.ids| == |kept| && |p.skipIds| == |skipped|
      && (forall k :: 0 <= k < |kept| ==> p.texts[k] == TextOf(kept[k]) && p.ids[k] == kept[k].id)
      && (forall k :: 0 <= k < |skipped| ==> p.skipIds[k] == skipped[k].id)
  {
    if rows != [] {
      PartitionSpec(rows[..|rows| - 1], minLen);
    }
  }

  /** The updates one batch issues: the zero vector for each skipped id,
      then the encoding of each kept text with its id. */
  datatype Updates<E> = Updates(zeroed: seq<(E, int)>, embedded: seq<(E, int)>)

  function BatchUpdates<E>(rows: seq<Post>, minLen: int, encode: string -> E, zero: E): (u: Updates<E>)
    ensures |u.zeroed| + |u.embedded| == |rows|
  {
    var p := Partition(rows, minLen);
    Updates(seq(|p.skipIds|, k requires 0 <= k < |p.skipIds| => (zero, p.skipIds[k])),
            seq(|p.ids|, k requires 0 <= k < |p.ids| => (encode(p.texts[k]), p.ids[k])))
  }

  /** Each kept post gets the encoding of its own text; each skipped post
      the zero vector; and the ids updated are exactly the ids fetched. */
  lemma BatchUpdatesSpec<E>(rows: seq<Post>, minLen: int, encode: string -> E, zero: E)
    ensures var u := BatchUpdates(rows, minLen, encode, zero);
      var kept := Kept(rows, minLen);
      var skipped := Skipped(rows, minLen);
      && |u.embedded| == |kept| && |u.zeroed| == |skipped|
      && (forall k :: 0 <= k < |kept| ==> u.embedded[k] == (encode(TextOf(kept[k])), kept[k].id))
      && (forall k :: 0 <= k < |skipped| ==> u.zeroed[k] == (zero, skipped[k].id))
  {
    PartitionSpec(rows, minLen);
  }

  // ---------------------------------------------------------------------------
  // The pass

  /** The pass stops after a batch once the running total reaches the cap. */
  predicate CapReached(maxRows: Option<int>, total: int) {
    Truthy(maxRows) && total >= maxRows.value
  }

  /** The rows in the given fetches. */
  function Fetched(fetches: seq<seq<Post>>): nat {
    if fetches == [] then 0 else Fetched(fetches[..|fetches| - 1]) + |fetches[|fetches| - 1]|
  }

  function AllUpdates<E>(fetches: seq<seq<Post>>, minLen: int, encode: string -> E, zero: E): (r: seq<Updates<E>>)
    ensures |r| == |fetches|
  {
    if fetches == [] then []
    else AllUpdates(fetches[..|fetches| - 1], minLen, encode, zero) + [BatchUpdates(fetches[|fetches| - 1], minLen, encode, zero)]
  }

  /** `main`'s loop. `fetches` lists what the successive selects return; the
      last is empty (the database runs out of rows to embed). `rounds` is
      the number of batches handled. */
  method EmbedPosts<E>(fetches: seq<seq<Post>>, minLen: int, maxRows: Option<int>, encode: string -> E, zero: E)
    returns (rounds: nat, total: nat, updates: seq<Updates<E>>)
    requires fetches != [] && fetches[|fetches| - 1] == []
    ensures rounds < |fetches|
    ensures updates == AllUpdates(fetches[..rounds], minLen, encode, zero)
    ensures total == Fetched(fetches[..rounds])
    ensures forall k :: 0 <= k < rounds ==> fetches[k] != []
    ensures forall k :: 0 < k < rounds ==> !CapReached(maxRows, Fetched(fetches[..k]))
    ensures fetches[rounds] == [] || (rounds > 0 && CapReached(maxRows, total))
  {
    rounds := 0;
    total := 0;
    updates := [];
    while true
      invariant rounds < |fetches|
      invariant updates == AllUpdates(fetches[..rounds], minLen, encode, zero)
      invariant total == Fetched(fetches[..rounds])
      invariant Running(fetches, maxRows, rounds)
      invariant rounds > 0 ==> !CapReached(maxRows, total)
      decreases |fetches| - rounds
    {
      var rows := fetches[rounds];
      if rows == [] {
        break;
      }
      var u := BatchUpdates(rows, minLen, encode, zero);
      RoundStep(fetches, minLen, maxRows, encode, zero, rounds, total, updates);
      updates := updates + [u];
      total := total + |u.zeroed| + |u.embedded|;
      rounds := rounds + 1;
      if CapReached(maxRows, total) {
        break;
      }
    }
  }

  /** The first `n` fetches were non-empty and none of the totals after
      them but the last reached the cap. */
  ghost predicate Running(fetches: seq<seq<Post>>, maxRows: Option<int>, n: nat)
    requires n <= |fetches|
  {
    && (forall k :: 0 <= k < n ==> fetches[k] != [])
    && (forall k :: 0 < k < n ==> !CapReached(maxRows, Fetched(fetches[..k])))
  }

  /** One round of the loop keeps its invariant. */
  lemma RoundStep<E>(fetches: seq<seq<Post>>, minLen: int, maxRows: Option<int>, encode: string -> E, zero: E,
                     n: nat, total: nat, updates: seq<Updates<E>>)
    requires n < |fetches| && fetches[n] != []
    requires updates == AllUpdates(fetches[..n], minLen, encode, zero) && total == Fetched(fetches[..n])
    requires Running(fetches, maxRows, n) && (n > 0 ==> !CapReached(maxRows, total))
    ensures var u := BatchUpdates(fetches[n], minLen, encode, zero);
      && updates + [u] == AllUpdates(fetches[..n + 1], minLen, encode, zero)
      && total + |u.zeroed| + |u.embedded| == Fetched(fetches[..n + 1])
      && Running(fetches, maxRows, n + 1)
  {
    FetchStep(fetches, n, minLen, encode, zero);
  }

  /** Handling fetch `n` adds its rows to the total and its updates to the
      list. */
  lemma FetchStep<E>(fetches: seq<seq<Post>>, n: nat, minLen: int, encode: string -> E, zero: E)
    requires n < |fetches|
    ensures Fetched(fetches[..n + 1]) == Fetched(fetches[..n]) + |fetches[n]|
    ensures AllUpdates(fetches[..n + 1], minLen, encode, zero) == AllUpdates(fetches[..n], minLen, encode, zero) + [BatchUpdates(fetches[n], minLen, encode, zero)]
  {
    assert fetches[..n + 1][..n] == fetches[..n];
  }

  /** The final total counts each update issued once. */
  lemma {:induction false} TotalIsUpdates<E>(fetches: seq<seq<Post>>, minLen: int, encode: string -> E, zero: E)
    ensures Fetched(fetches) == Issued(AllUpdates(fetches, minLen, encode, zero))
  {
    if fetches != [] {
      var n := |fetches|;
      TotalIsUpdates(fetches[..n - 1], minLen, encode, zero);
      var all := AllUpdates(fetches, minLen, encode, zero);
      assert all[..n - 1] == AllUpdates(fetches[..n - 1], minLen, encode, zero);
    }
  }

  /** The number of updates issued. */
  function Issued<E>(updates: seq<Updates<E>>): nat {
    if updates == [] then 0
    else Issued(updates[..|updates| - 1]) + |updates[|updates| - 1].zeroed| + |updates[|updates| - 1].embedded|
  }
}
