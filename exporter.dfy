/** `write_info`: every element of the parse stream goes through `get_info`,
    every non-empty document is serialized as one record of a bracketed
    sequence, and the number of records is reported. The serializer
    (`json.dumps`) is a parameter. */
module Exporter {
  import opened Wrappers
  import opened Elements
  import opened Shaper
  import opened ShapeInvariants

  /** `json.dumps(el, indent=2)` when the flag is set, `json.dumps(el)`
      otherwise. */
  type Dumps = (Doc, bool) -> string

  predicate WellFormed(es: seq<Element>) {
    forall i :: 0 <= i < |es| ==> AttrOrderOk(es[i])
  }

  /** No element among the first `n` of `es` makes `get_info` raise. */
  predicate AllShaped(es: seq<Element>, n: nat)
    requires WellFormed(es) && n <= |es|
  {
    n == 0 || (AllShaped(es, n - 1) && Shape(es[n - 1]).Success?)
  }

  lemma {:induction false} AllShapedEvery(es: seq<Element>, n: nat)
    requires WellFormed(es) && n <= |es|
    ensures AllShaped(es, n) <==> forall i :: 0 <= i < n ==> Shape(es[i]).Success?
  {
    if n > 0 {
      AllShapedEvery(es, n - 1);
    }
  }

  /** The serialized non-empty documents of the first `n` elements of `es`,
      in stream order. */
  function Records(es: seq<Element>, n: nat, pretty: bool, dumps: Dumps): seq<string>
    requires WellFormed(es) && n <= |es| && AllShaped(es, n)
  {
    if n == 0 then []
    else
      var d := Shape(es[n - 1]).value;
      Records(es, n - 1, pretty, dumps) + (if d == map[] then [] else [dumps(d, pretty)])
  }

  /** The number of `node` and `way` elements among the first `n` of `es`. */
  function NodeWayCount(es: seq<Element>, n: nat): nat
    requires n <= |es|
  {
    if n == 0 then 0
    else NodeWayCount(es, n - 1) + (if es[n - 1].tag == "node" || es[n - 1].tag == "way" then 1 else 0)
  }

  /** One record per `node` and `way`: the counter `write_info` prints is the
      number of such elements. */
  lemma {:induction false} RecordsCount(es: seq<Element>, n: nat, pretty: bool, dumps: Dumps)
    requires WellFormed(es) && n <= |es| && AllShaped(es, n)
    ensures |Records(es, n, pretty, dumps)| == NodeWayCount(es, n)
  {
    if n > 0 {
      RecordsCount(es, n - 1, pretty, dumps);
      ShapeEmptyIffOther(es[n - 1]);
    }
  }

  // ------------------------------------------------------------ framing

  /** Every record followed by the separator, as `write_info` writes them. */
  function Terminated(recs: seq<string>): string {
    if recs == [] then "" else Terminated(recs[..|recs| - 1]) + recs[|recs| - 1] + ",\n"
  }

  /** What the output file holds before the closing bracket. */
  function Opened(recs: seq<string>): string {
    "[" + Terminated(recs)
  }

  /** The output as written: `[`, every record followed by `,\n`, then `]`. */
  function Frame(recs: seq<string>): string {
    Opened(recs) + "]"
  }

  /** The records with the separator between consecutive ones only. */
  function Joined(recs: seq<string>): string {
    if recs == [] then ""
    else if |recs| == 1 then recs[0]
    else Joined(recs[..|recs| - 1]) + ",\n" + recs[|recs| - 1]
  }

  /** The output as intended: a JSON array of the records (section 5 of
      RFC 8259 allows no separator after the last value). */
  function FrameJson(recs: seq<string>): string {
    "[" + Joined(recs) + "]"
  }

  /** A separator just before the closing bracket. */
  predicate DanglingSeparator(text: string) {
    |text| >= 3 && text[|text| - 3..] == ",\n]"
  }

  /** As written, any non-empty output ends in a separator before `]`, which
      `json.loads` in `store_info` rejects. */
  lemma FrameDangles(recs: seq<string>)
    requires recs != []
    ensures DanglingSeparator(Frame(recs))
  {
    var t := Terminated(recs);
    assert |t| >= 2 && t[|t| - 2..] == ",\n";
    assert Frame(recs)[|Frame(recs)| - 3..] == t[|t| - 2..] + "]";
  }

  /** The smallest case: one empty object comes out as `[{},\n]`. */
  lemma OneRecordDangles()
    ensures Frame(["{}"]) == "[{},\n]"
    ensures FrameJson(["{}"]) == "[{}]"
  {
    assert Terminated(["{}"]) == Terminated([]) + "{}" + ",\n";
  }

  /** The written text is the intended one with one extra separator before
      the closing bracket; with no record the two agree. */
  lemma {:induction false} TerminatedIsJoinedPlusSeparator(recs: seq<string>)
    ensures recs == [] ==> Frame(recs) == FrameJson(recs)
    ensures recs != [] ==> Terminated(recs) == Joined(recs) + ",\n"
  {
    if |recs| > 1 {
      var p := recs[..|recs| - 1];
      TerminatedIsJoinedPlusSeparator(p);
    } else if |recs| == 1 {
      assert recs[..0] == [];
    }
  }

  /** Corrected: when every record is a serialized object, nothing dangles
      before the closing bracket, and the bracket follows the last record. */
  lemma {:induction false} FrameJsonClosesOnRecord(recs: seq<string>)
    requires forall r :: r in recs ==> r != [] && r[|r| - 1] == '}'
    ensures !DanglingSeparator(FrameJson(recs))
    ensures recs != [] ==> FrameJson(recs)[|FrameJson(recs)| - 2] == '}'
  {
    if recs != [] {
      var r := recs[|recs| - 1];
      assert r in recs;
      JoinedEndsWithLast(recs);
      var text := FrameJson(recs);
      assert text[|text| - 2] == Joined(recs)[|Joined(recs)| - 1] == r[|r| - 1];
      assert text[|text| - 3..][1] == text[|text| - 2];
    } else {
      assert FrameJson(recs) == "[]";
    }
  }

  lemma JoinedEndsWithLast(recs: seq<string>)
    requires recs != []
    ensures |Joined(recs)| >= |recs[|recs| - 1]|
    ensures Joined(recs)[|Joined(recs)| - |recs[|recs| - 1]|..] == recs[|recs| - 1]
  {
  }

  lemma OpenedSnoc(recs: seq<string>, r: string)
    ensures Opened(recs + [r]) == Opened(recs) + (r + ",\n")
  {
    assert (recs + [r])[..|recs|] == recs;
    assert Terminated(recs + [r]) == Terminated(recs) + r + ",\n";
  }

  // ------------------------------------------------------------ write_info

  /** `write_info` over the elements the parser yields, in order. The result
      is the text of the output file and the printed counter, or the
      exception of the first element that makes `get_info` raise; in that
      case the closing bracket is never written. */
  method WriteInfo(es: seq<Element>, pretty: bool, dumps: Dumps) returns (text: string, result: Result<nat, PyError>)
    requires WellFormed(es)
    ensures result.Success? <==> AllShaped(es, |es|)
    ensures result.Success? ==> result.value == NodeWayCount(es, |es|) && text == Frame(Records(es, |es|, pretty, dumps))
    ensures result.Failure? ==>
      exists i :: 0 <= i < |es| && AllShaped(es, i) && Shape(es[i]) == Failure(result.error)
        && text == Opened(Records(es, i, pretty, dumps))
  {
    text := "[";
    var counter := 0;
    var i := 0;
    ghost var recs: seq<string> := [];
    while i < |es|
      invariant 0 <= i <= |es| && AllShaped(es, i)
      invariant recs == Records(es, i, pretty, dumps)
      invariant counter == |recs| && text == Opened(recs)
    {
      var el := GetInfo(es[i]);
      if el.Failure? {
        assert AllShaped(es, i) && Shape(es[i]) == Failure(el.error) && text == Opened(Records(es, i, pretty, dumps));
        AllShapedEvery(es, |es|);
        return text, Failure(el.error);
      }
      if el.value != map[] {
        var record := dumps(el.value, pretty);
        OpenedSnoc(recs, record);
        text := text + (record + ",\n");
        counter := counter + 1;
        recs := recs + [record];
      } else {
        assert recs + [] == recs;
      }
      i := i + 1;
    }
    RecordsCount(es, i, pretty, dumps);
    text := text + "]";
    return text, Success(counter);
  }
}
