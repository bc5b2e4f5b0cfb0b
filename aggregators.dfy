/** The three summaries the script computes in one pass each over the parsed
    elements: `count_tags`, `types_of_text` and `unique_users`. The scan
    hands every element over once, so each pass is a fold over a sequence. */
module Aggregators {
  import opened Wrappers
  import opened Elements
  import opened KeyClassifier

  // ---------------------------------------------------------------- count_tags

  /** How many of `es` have tag `t`. */
  function Occurrences(es: seq<Element>, t: string): nat {
    if es == [] then 0 else Occurrences(es[..|es| - 1], t) + (if es[|es| - 1].tag == t then 1 else 0)
  }

  /** The tags that occur in `es`. */
  function TagsSeen(es: seq<Element>): set<string> {
    if es == [] then {} else TagsSeen(es[..|es| - 1]) + {es[|es| - 1].tag}
  }

  lemma {:induction false} TagsSeenIsTags(es: seq<Element>)
    ensures TagsSeen(es) == set e | e in es :: e.tag
  {
    if es != [] {
      var p := es[..|es| - 1];
      TagsSeenIsTags(p);
      assert es == p + [es[|es| - 1]];
    }
  }

  /** What `count_tags` reports: each tag seen, with its number of occurrences. */
  function TagTable(es: seq<Element>): map<string, nat> {
    map t | t in TagsSeen(es) :: Occurrences(es, t)
  }

  /** The sum of the counts of a table. */
  ghost function MapSum(m: map<string, nat>): nat
    decreases |m|
  {
    if m == map[] then 0
    else
      var k :| k in m;
      assert |m - {k}| < |m| by { MapRemoveOne(m, k); }
      m[k] + MapSum(m - {k})
  }

  lemma MapRemoveOne(m: map<string, nat>, k: string)
    requires k in m
    ensures |m - {k}| == |m| - 1
  {
    assert (m - {k}).Keys == m.Keys - {k};
  }

  /** The sum does not depend on which key is taken out first. */
  lemma {:induction false} MapSumRemove(m: map<string, nat>, k: string)
    requires k in m
    ensures MapSum(m) == m[k] + MapSum(m - {k})
    decreases |m|
  {
    var j :| j in m && MapSum(m) == m[j] + MapSum(m - {j});
    if j != k {
      MapRemoveOne(m, j);
      MapRemoveOne(m, k);
      MapSumRemove(m - {j}, k);
      MapSumRemove(m - {k}, j);
      assert m - {j} - {k} == m - {k} - {j};
    }
  }

  lemma {:induction false} OccursIffSeen(es: seq<Element>, t: string)
    ensures Occurrences(es, t) > 0 <==> t in TagsSeen(es)
  {
    if es != [] {
      var p := es[..|es| - 1];
      OccursIffSeen(p, t);
    }
  }

  /** One more element bumps the count of its tag, starting from zero. */
  lemma TagTableLast(es: seq<Element>)
    requires es != []
    ensures var p, t := es[..|es| - 1], es[|es| - 1].tag;
      TagTable(es) == TagTable(p)[t := (if t in TagTable(p) then TagTable(p)[t] else 0) + 1]
  {
    var p, t := es[..|es| - 1], es[|es| - 1].tag;
    var want := TagTable(p)[t := (if t in TagTable(p) then TagTable(p)[t] else 0) + 1];
    assert TagTable(es).Keys == want.Keys;
    forall u | u in want ensures TagTable(es)[u] == want[u] {
      if u == t && t !in TagsSeen(p) {
        OccursIffSeen(p, t);
      }
    }
  }

  /** `count_tags`: one pass that bumps the entry of each element's tag,
      creating it at 1. */
  method CountTags(es: seq<Element>) returns (tags: map<string, nat>)
    ensures tags == TagTable(es)
  {
    tags := map[];
    var i := 0;
    while i < |es|
      invariant 0 <= i <= |es|
      invariant tags == TagTable(es[..i])
    {
      var tag := es[i].tag;
      assert es[..i + 1][..i] == es[..i];
      TagTableLast(es[..i + 1]);
      if tag in tags {
        tags := tags[tag := tags[tag] + 1];
      } else {
        tags := tags[tag := 1];
      }
      i := i + 1;
    }
    assert es[..i] == es;
  }

  /** The table's keys are exactly the tags seen and every count is at least
      one. */
  lemma TagTableCounts(es: seq<Element>)
    ensures TagTable(es).Keys == set e | e in es :: e.tag
    ensures forall t :: t in TagTable(es) ==> TagTable(es)[t] >= 1
  {
    TagsSeenIsTags(es);
    forall t | t in TagTable(es) ensures TagTable(es)[t] >= 1 {
      OccursIffSeen(es, t);
    }
  }

  /** The counts add up to the number of elements scanned. */
  lemma {:induction false} TagTableSum(es: seq<Element>)
    ensures MapSum(TagTable(es)) == |es|
  {
    if es == [] {
      assert TagTable(es) == map[];
    } else {
      var p := es[..|es| - 1];
      TagTableSum(p);
      TagTableLast(es);
      SumAfterBump(TagTable(p), es[|es| - 1].tag);
    }
  }

  /** Bumping one entry, or creating it at one, adds one to the sum. */
  lemma SumAfterBump(m: map<string, nat>, t: string)
    ensures MapSum(m[t := (if t in m then m[t] else 0) + 1]) == MapSum(m) + 1
  {
    var m' := m[t := (if t in m then m[t] else 0) + 1];
    assert m' - {t} == m - {t};
    MapSumRemove(m', t);
    if t in m {
      MapSumRemove(m, t);
    } else {
      assert m - {t} == m;
    }
  }

  // ------------------------------------------------------------- types_of_text

  /** The four counters of `types_of_text`. */
  datatype KeyCounts = KeyCounts(lower: nat, lowerColon: nat, problemChars: nat, other: nat) {
    function Total(): nat {
      lower + lowerColon + problemChars + other
    }
  }

  /** Every element with tag `tag` carries a `k` attribute. */
  predicate AllTagsKeyed(es: seq<Element>) {
    forall e :: e in es && e.tag == "tag" ==> "k" in e.attrib
  }

  /** How many elements of `es` have tag `tag`. */
  function TagElementCount(es: seq<Element>): nat {
    if es == [] then 0 else TagElementCount(es[..|es| - 1]) + (if es[|es| - 1].tag == "tag" then 1 else 0)
  }

  /** How many `tag` elements of `es` have a key of class `c`. */
  function ClassCount(es: seq<Element>, c: KeyClass): nat {
    if es == [] then 0
    else
      var e := es[|es| - 1];
      ClassCount(es[..|es| - 1], c) + (if e.tag == "tag" && "k" in e.attrib && Classify(e.attrib["k"]) == c then 1 else 0)
  }

  /** The counters as the pass over `es` leaves them. */
  function Tally(es: seq<Element>): KeyCounts {
    KeyCounts(ClassCount(es, Lower), ClassCount(es, LowerColon), ClassCount(es, ProblemChars), ClassCount(es, Other))
  }

  /** `types_of_text`: the counters start at zero; each `tag` element bumps the
      counter of the first pattern its `k` matches; a `tag` element without
      `k` raises KeyError and no counts are reported. */
  method TypesOfText(es: seq<Element>) returns (r: Result<KeyCounts, PyError>)
    ensures r.Failure? <==> !AllTagsKeyed(es)
    ensures r.Failure? ==> r.error == KeyError("k")
    ensures r.Success? ==> r.value == Tally(es)
  {
    var counts := KeyCounts(0, 0, 0, 0);
    var i := 0;
    while i < |es|
      invariant 0 <= i <= |es|
      invariant AllTagsKeyed(es[..i])
      invariant counts == Tally(es[..i])
    {
      var e := es[i];
      assert es[..i + 1] == es[..i] + [e];
      assert es[..i + 1][..i] == es[..i];
      if e.tag == "tag" {
        if "k" !in e.attrib {
          assert e in es;
          return Failure(KeyError("k"));
        }
        var key := e.attrib["k"];
        if IsLowerRun(key) {
          counts := counts.(lower := counts.lower + 1);
        } else if IsLowerColonKey(key) {
          counts := counts.(lowerColon := counts.lowerColon + 1);
        } else if HasProblemChar(key) {
          counts := counts.(problemChars := counts.problemChars + 1);
        } else {
          counts := counts.(other := counts.other + 1);
        }
      }
      i := i + 1;
    }
    assert es[..i] == es;
    r := Success(counts);
  }

  /** Each `tag` element lands in exactly one bucket, so the four counters add
      up to the number of `tag` elements scanned. */
  lemma {:induction false} TallyTotal(es: seq<Element>)
    requires AllTagsKeyed(es)
    ensures Tally(es).Total() == TagElementCount(es)
  {
    if es != [] {
      var p := es[..|es| - 1];
      assert AllTagsKeyed(p) by {
        forall e | e in p ensures e in es { }
      }
      TallyTotal(p);
    }
  }

  // -------------------------------------------------------------- unique_users

  /** The `user` values of the elements that carry one, in scan order. */
  function UserValues(es: seq<Element>): seq<string> {
    if es == [] then []
    else
      var e := es[|es| - 1];
      UserValues(es[..|es| - 1]) + (if "user" in e.attrib then [e.attrib["user"]] else [])
  }

  /** The set of `user` values over `es`. */
  function UserSet(es: seq<Element>): set<string> {
    set e | e in es && "user" in e.attrib :: e.attrib["user"]
  }

  function ToSet(s: seq<string>): set<string> {
    set x | x in s
  }

  predicate Distinct(s: seq<string>) {
    forall i, j :: 0 <= i < j < |s| ==> s[i] != s[j]
  }

  /** `unique_users`: one pass that adds the `user` value of each element
      carrying one to a set. */
  method UniqueUsers(es: seq<Element>) returns (users: set<string>)
    ensures users == UserSet(es)
    ensures users == ToSet(UserValues(es))
  {
    users := {};
    var i := 0;
    while i < |es|
      invariant 0 <= i <= |es|
      invariant users == UserSet(es[..i])
    {
      var e := es[i];
      assert es[..i + 1] == es[..i] + [e];
      if "user" in e.attrib {
        users := users + {e.attrib["user"]};
      }
      i := i + 1;
    }
    assert es[..i] == es;
    UserSetIsValues(es);
  }

  lemma {:induction false} UserSetIsValues(es: seq<Element>)
    ensures UserSet(es) == ToSet(UserValues(es))
  {
    if es != [] {
      var p, e := es[..|es| - 1], es[|es| - 1];
      assert es == p + [e];
      UserSetIsValues(p);
      assert UserSet(es) == UserSet(p) + (if "user" in e.attrib then {e.attrib["user"]} else {});
      assert ToSet(UserValues(es)) == ToSet(UserValues(p)) + (if "user" in e.attrib then {e.attrib["user"]} else {});
    }
  }

  /** There are no more users than elements carrying `user`, and exactly as
      many when no two of those elements name the same user. */
  lemma UniqueUsersBound(es: seq<Element>)
    ensures |UserSet(es)| <= |UserValues(es)|
    ensures |UserSet(es)| == |UserValues(es)| <==> Distinct(UserValues(es))
  {
    UserSetIsValues(es);
    DistinctCard(UserValues(es));
  }

  lemma {:induction false} DistinctCard(s: seq<string>)
    ensures |ToSet(s)| <= |s|
    ensures |ToSet(s)| == |s| <==> Distinct(s)
  {
    if s != [] {
      var p, x := s[..|s| - 1], s[|s| - 1];
      assert s == p + [x];
      DistinctCard(p);
      assert ToSet(s) == ToSet(p) + {x};
      if x in p {
        var k :| 0 <= k < |p| && p[k] == x;
        assert s[k] == s[|s| - 1];
        assert ToSet(s) == ToSet(p);
      } else {
        assert Distinct(s) <==> Distinct(p) by {
          if Distinct(p) {
            forall i, j | 0 <= i < j < |s| ensures s[i] != s[j] {
              if j < |p| { assert s[i] == p[i] && s[j] == p[j]; }
              else { assert s[i] == p[i]; }
            }
          }
          if Distinct(s) {
            forall i, j | 0 <= i < j < |p| ensures p[i] != p[j] {
              assert s[i] == p[i] && s[j] == p[j];
            }
          }
        }
      }
    }
  }
}
