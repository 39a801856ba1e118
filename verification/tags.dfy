/** `parse_tags` in scripts/01_load_xml.py: a Stack Exchange tag string such
    as `<sql><postgres>` becomes the list of its tags. */
module Tags {
  import opened Py
  import opened Text

  /** A `"><"` starts at index `k` of `s`. */
  predicate SepAt(s: string, k: int) {
    0 <= k && k + 1 < |s| && s[k] == '>' && s[k + 1] == '<'
  }

  /** `s` contains no `"><"`. */
  predicate NoSep(s: string) {
    forall k :: 0 <= k < |s| ==> !SepAt(s, k)
  }

  /** The first `"><"` at or after `i`, or `|s|` when there is none. */
  function FindSep(s: string, i: nat): (r: nat)
    requires i <= |s|
    ensures i <= r <= |s|
    ensures r < |s| ==> SepAt(s, r)
    ensures forall k :: i <= k < r ==> !SepAt(s, k)
    decreases |s| - i
  {
    if i + 1 >= |s| then |s|
    else if SepAt(s, i) then i
    else FindSep(s, i + 1)
  }

  /** `s.split("><")`: the pieces between the separators, left to right. */
  function SplitSep(s: string): (r: seq<string>)
    ensures r != []
    decreases |s|
  {
    var j := FindSep(s, 0);
    if j == |s| then [s] else [s[..j]] + SplitSep(s[j + 2..])
  }

  /** `"><".join(parts)`. */
  function Join(parts: seq<string>): string
    requires parts != []
  {
    if |parts| == 1 then parts[0] else parts[0] + "><" + Join(parts[1..])
  }

  /** The stripped tag string with one outer `<`...`>` pair removed when it
      has one. */
  function Unbracket(s: string): (r: string)
    ensures |s| >= 2 && s[0] == '<' && s[|s| - 1] == '>' ==> r == s[1..|s| - 1]
    ensures !(|s| >= 2 && s[0] == '<' && s[|s| - 1] == '>') ==> r == s
  {
    if s != [] && s[0] == '<' && s[|s| - 1] == '>' then s[1..|s| - 1] else s
  }

  /** `parse_tags`: nothing for a missing, empty or blank value, or for `<>`;
      otherwise the tags between the brackets. */
  function ParseTags(raw: Option<string>): (r: Option<seq<string>>)
    ensures r.Some? ==> raw.Some? && r.value != [] && Join(r.value) == Unbracket(Strip(raw.value))
    ensures r.Some? ==> forall k :: 0 <= k < |r.value| ==> NoSep(r.value[k])
  {
    if raw.None? || raw.value == [] then None
    else
      var s := Strip(raw.value);
      if s == [] then None
      else
        var t := Unbracket(s);
        if t == [] then None
        else
          JoinSplit(t);
          SplitPieces(t);
          Some(SplitSep(t))
  }

  /** Joining the pieces gives back the string. */
  lemma {:induction false} JoinSplit(s: string)
    ensures Join(SplitSep(s)) == s
    decreases |s|
  {
    var j := FindSep(s, 0);
    if j < |s| {
      JoinSplit(s[j + 2..]);
      assert SplitSep(s)[1..] == SplitSep(s[j + 2..]);
      assert s == s[..j] + "><" + s[j + 2..];
    }
  }

  /** No piece contains the separator. */
  lemma {:induction false} SplitPieces(s: string)
    ensures forall k :: 0 <= k < |SplitSep(s)| ==> NoSep(SplitSep(s)[k])
    decreases |s|
  {
    var j := FindSep(s, 0);
    if j < |s| {
      SplitPieces(s[j + 2..]);
      var p := s[..j];
      forall k | 0 <= k < |p|
        ensures !SepAt(p, k)
      {
        assert !SepAt(s, k);
      }
      assert SplitSep(s) == [p] + SplitSep(s[j + 2..]);
    }
  }

  /** The split is the only way to cut `s` at separators into pieces free of
      them: pieces that join back to `s` and contain no `"><"` are the split. */
  lemma {:induction false} SplitUnique(parts: seq<string>)
    requires parts != []
    requires forall k :: 0 <= k < |parts| ==> NoSep(parts[k])
    ensures SplitSep(Join(parts)) == parts
    decreases |parts|
  {
    var s := Join(parts);
    var p := parts[0];
    if |parts| == 1 {
      NoSepFindsNothing(p);
    } else {
      var rest := Join(parts[1..]);
      assert s == p + "><" + rest;
      FirstSep(p, rest);
      assert s[..|p|] == p && s[|p| + 2..] == rest;
      SplitUnique(parts[1..]);
    }
  }

  lemma NoSepFindsNothing(p: string)
    requires NoSep(p)
    ensures FindSep(p, 0) == |p|
  {
  }

  /** In `p + "><" + rest` with `p` free of separators, the first separator
      is the one after `p`. */
  lemma FirstSep(p: string, rest: string)
    requires NoSep(p)
    ensures FindSep(p + "><" + rest, 0) == |p|
  {
    var s := p + "><" + rest;
    assert SepAt(s, |p|);
    forall k | 0 <= k < |p|
      ensures !SepAt(s, k)
    {
      if k + 1 < |p| {
        assert !SepAt(p, k);
      } else {
        assert s[k + 1] == '>';
      }
    }
    FindSepFirst(s, 0, |p|);
  }

  /** `FindSep` returns the first separator at or after `i`. */
  lemma FindSepFirst(s: string, i: nat, j: nat)
    requires i <= j < |s| && SepAt(s, j)
    requires forall k :: i <= k < j ==> !SepAt(s, k)
    ensures FindSep(s, i) == j
  {
  }

  /** The empty-result cases are exactly: no value, a blank value, or `<>`. */
  lemma ParseTagsNone(raw: Option<string>)
    ensures ParseTags(raw).None? <==>
              raw.None? || AllSpace(raw.value) || Strip(raw.value) == "<>"
  {
    if raw.Some? && raw.value != [] {
      var s := Strip(raw.value);
      if s != [] && Unbracket(s) == [] {
        assert |s| == 2 && s[0] == '<' && s[1] == '>';
        assert s == "<>";
      }
    }
  }

  /** `<a><b>` parses to the tags `a` and `b`. */
  lemma ParseTagsExample(raw: string, a: string, b: string)
    requires a == "a" && b == "b" && raw == "<" + a + "><" + b + ">"
    ensures ParseTags(Some(raw)) == Some([a, b])
  {
    StripOfStripped(raw);
    assert Unbracket(raw) == a + "><" + b;
    assert Join([a, b]) == a + "><" + b;
    SplitUnique([a, b]);
  }
}
