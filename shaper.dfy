/** `get_info`: the reshaping of one `node` or `way` element into a nested
    document. The document is built in three passes that mutate one
    dictionary: the element's attributes, then its `tag` descendants, then its
    `nd` descendants. A Python exception inside a pass ends `get_info`. */
module Shaper {
  import opened Wrappers
  import opened Elements
  import opened KeyClassifier

  /** A value of the document: a string, a nested string dictionary (`created`,
      `address`), the two-slot `pos` list whose slots start as None, or the
      `node_refs` list. */
  datatype Value =
    | Str(s: string)
    | Fields(m: map<string, string>)
    | Pos(lat: Option<string>, lon: Option<string>)
    | Refs(refs: seq<string>)

  type Doc = map<string, Value>

  /** `CREATED`: the attributes gathered under `created`. */
  const CreatedAttrs: seq<string> := ["version", "changeset", "timestamp", "user", "uid"]

  /** The keys of the document that `get_info` fills with a container. */
  const Reserved: set<string> := {"created", "pos", "address", "node_refs"}

  predicate StartsWithAddr(key: string) {
    |key| >= 5 && key[..5] == "addr:"
  }

  /** A `tag` whose entry goes to `address`, under its key without `addr:`. */
  predicate IsAddrKey(key: string) {
    !HasProblemChar(key) && StartsWithAddr(key)
  }

  /** A `tag` whose entry goes to the top level of the document. */
  predicate IsTopKey(key: string) {
    !HasProblemChar(key) && !HasColon(key)
  }

  // ------------------------------------------------------------ the three steps

  /** One turn of the attribute loop. An attribute of CREATED goes into the
      `created` dictionary, made on first use; `lat` and `lon` fill slot 0 and
      slot 1 of `pos`, made as `[None, None]` on first use; any other attribute
      is copied to the top level. Item assignment into a string left under
      `created` or `pos` by an attribute of that name raises TypeError. */
  function AttrStep(d: Doc, name: string, value: string): Result<Doc, PyError> {
    if name in CreatedAttrs then
      var d1 := if "created" in d then d else d["created" := Fields(map[])];
      if d1["created"].Fields? then Success(d1["created" := Fields(d1["created"].m[name := value])])
      else Failure(TypeError("created"))
    else if name == "lat" || name == "lon" then
      var d1 := if "pos" in d then d else d["pos" := Pos(None, None)];
      if d1["pos"].Pos? then
        Success(d1["pos" := if name == "lat" then d1["pos"].(lat := Some(value)) else d1["pos"].(lon := Some(value))])
      else Failure(TypeError("pos"))
    else Success(d[name := Str(value)])
  }

  /** One turn of the `tag` loop. A missing `k`, or a missing `v` where the
      value is used, raises KeyError; an `addr:` key without problem characters
      goes into `address` with the prefix cut off; a key with neither problem
      characters nor a colon goes to the top level; any other key is dropped. */
  function TagStep(d: Doc, t: Element): Result<Doc, PyError> {
    if "k" !in t.attrib then Failure(KeyError("k"))
    else
      var key := t.attrib["k"];
      if IsAddrKey(key) then
        var d1 := if "address" in d then d else d["address" := Fields(map[])];
        if "v" !in t.attrib then Failure(KeyError("v"))
        else if d1["address"].Fields? then Success(d1["address" := Fields(d1["address"].m[key[5..] := t.attrib["v"]])])
        else Failure(TypeError("address"))
      else if IsTopKey(key) then
        if "v" !in t.attrib then Failure(KeyError("v"))
        else Success(d[key := Str(t.attrib["v"])])
      else Success(d)
  }

  /** One turn of the `nd` loop: `ref` is appended to `node_refs`, made empty
      on first use. A missing `ref` raises KeyError; `append` on a string left
      under `node_refs` by a `tag` raises AttributeError. */
  function NdStep(d: Doc, nd: Element): Result<Doc, PyError> {
    if "ref" !in nd.attrib then Failure(KeyError("ref"))
    else
      var d1 := if "node_refs" in d then d else d["node_refs" := Refs([])];
      if d1["node_refs"].Refs? then Success(d1["node_refs" := Refs(d1["node_refs"].refs + [nd.attrib["ref"]])])
      else Failure(AttributeError("node_refs"))
  }

  // ------------------------------------------------------------ the three loops

  function ApplyAttrs(d0: Doc, attrib: map<string, string>, names: seq<string>): Result<Doc, PyError>
    requires forall n :: n in names ==> n in attrib
  {
    if names == [] then Success(d0)
    else
      match ApplyAttrs(d0, attrib, names[..|names| - 1])
      case Failure(err) => Failure(err)
      case Success(d) => AttrStep(d, names[|names| - 1], attrib[names[|names| - 1]])
  }

  function ApplyTags(r0: Result<Doc, PyError>, ts: seq<Element>): Result<Doc, PyError> {
    if ts == [] then r0
    else
      match ApplyTags(r0, ts[..|ts| - 1])
      case Failure(err) => Failure(err)
      case Success(d) => TagStep(d, ts[|ts| - 1])
  }

  function ApplyNds(r0: Result<Doc, PyError>, nds: seq<Element>): Result<Doc, PyError> {
    if nds == [] then r0
    else
      match ApplyNds(r0, nds[..|nds| - 1])
      case Failure(err) => Failure(err)
      case Success(d) => NdStep(d, nds[|nds| - 1])
  }

  function Start(e: Element): Doc {
    map["type" := Str(e.tag)]
  }

  function AfterAttrs(e: Element): Result<Doc, PyError>
    requires AttrOrderOk(e)
  {
    ApplyAttrs(Start(e), e.attrib, e.order)
  }

  function AfterTags(e: Element): Result<Doc, PyError>
    requires AttrOrderOk(e)
  {
    ApplyTags(AfterAttrs(e), Iter(e, "tag"))
  }

  /** What `get_info` returns for `e`, or the exception it raises. */
  function Shape(e: Element): Result<Doc, PyError>
    requires AttrOrderOk(e)
  {
    if e.tag == "node" || e.tag == "way" then ApplyNds(AfterTags(e), Iter(e, "nd"))
    else Success(map[])
  }

  // ------------------------------------------------------------ failures stick

  lemma {:induction false} TagsFromFailure(err: PyError, ts: seq<Element>)
    ensures ApplyTags(Failure(err), ts) == Failure(err)
  {
    if ts != [] { TagsFromFailure(err, ts[..|ts| - 1]); }
  }

  lemma {:induction false} NdsFromFailure(err: PyError, nds: seq<Element>)
    ensures ApplyNds(Failure(err), nds) == Failure(err)
  {
    if nds != [] { NdsFromFailure(err, nds[..|nds| - 1]); }
  }

  lemma {:induction false} AttrsPrefixFailure(d0: Doc, attrib: map<string, string>, names: seq<string>, i: nat, err: PyError)
    requires forall n :: n in names ==> n in attrib
    requires i <= |names| && ApplyAttrs(d0, attrib, names[..i]) == Failure(err)
    ensures ApplyAttrs(d0, attrib, names) == Failure(err)
    decreases |names| - i
  {
    if i < |names| {
      assert names[..i + 1][..i] == names[..i];
      AttrsPrefixFailure(d0, attrib, names, i + 1, err);
    } else {
      assert names[..i] == names;
    }
  }

  lemma {:induction false} TagsPrefixFailure(r0: Result<Doc, PyError>, ts: seq<Element>, i: nat, err: PyError)
    requires i <= |ts| && ApplyTags(r0, ts[..i]) == Failure(err)
    ensures ApplyTags(r0, ts) == Failure(err)
    decreases |ts| - i
  {
    if i < |ts| {
      assert ts[..i + 1][..i] == ts[..i];
      TagsPrefixFailure(r0, ts, i + 1, err);
    } else {
      assert ts[..i] == ts;
    }
  }

  lemma {:induction false} NdsPrefixFailure(r0: Result<Doc, PyError>, nds: seq<Element>, i: nat, err: PyError)
    requires i <= |nds| && ApplyNds(r0, nds[..i]) == Failure(err)
    ensures ApplyNds(r0, nds) == Failure(err)
    decreases |nds| - i
  {
    if i < |nds| {
      assert nds[..i + 1][..i] == nds[..i];
      NdsPrefixFailure(r0, nds, i + 1, err);
    } else {
      assert nds[..i] == nds;
    }
  }

  // ------------------------------------------------------------ get_info

  /** `get_info`: for a `node` or `way`, the dictionary starts with `type` and
      is updated in place by the three passes; an exception ends the call. Any
      other element gives the empty dictionary. */
  method GetInfo(e: Element) returns (r: Result<Doc, PyError>)
    requires AttrOrderOk(e)
    ensures r == Shape(e)
  {
    if !(e.tag == "node" || e.tag == "way") {
      return Success(map[]);
    }
    r := CopyAttributes(map["type" := Str(e.tag)], e.attrib, e.order);
    if r.Failure? {
      TagsFromFailure(r.error, Iter(e, "tag"));
      NdsFromFailure(r.error, Iter(e, "nd"));
      return;
    }
    r := ReadTags(r.value, Iter(e, "tag"));
    if r.Failure? {
      NdsFromFailure(r.error, Iter(e, "nd"));
      return;
    }
    r := ReadNds(r.value, Iter(e, "nd"));
  }

  /** The attribute loop of `get_info`, updating `d` in place. */
  method CopyAttributes(d0: Doc, attrib: map<string, string>, names: seq<string>) returns (r: Result<Doc, PyError>)
    requires forall n :: n in names ==> n in attrib
    ensures r == ApplyAttrs(d0, attrib, names)
  {
    var d := d0;
    var i := 0;
    while i < |names|
      invariant 0 <= i <= |names|
      invariant ApplyAttrs(d0, attrib, names[..i]) == Success(d)
    {
      ghost var before := d;
      assert names[..i + 1][..i] == names[..i];
      var attr := names[i];
      var value := attrib[attr];
      if attr in CreatedAttrs {
        if "created" !in d {
          d := d["created" := Fields(map[attr := value])];
        }
        if !d["created"].Fields? {
          AttrsPrefixFailure(d0, attrib, names, i + 1, TypeError("created"));
          return Failure(TypeError("created"));
        }
        d := d["created" := Fields(d["created"].m[attr := value])];
        if "created" !in before {
          assert map[attr := value][attr := value] == map[][attr := value];
          assert d == before["created" := Fields(map[])]["created" := Fields(map[][attr := value])];
        }
      } else if attr == "lat" || attr == "lon" {
        if "pos" !in d {
          d := d["pos" := Pos(None, None)];
        }
        if !d["pos"].Pos? {
          AttrsPrefixFailure(d0, attrib, names, i + 1, TypeError("pos"));
          return Failure(TypeError("pos"));
        }
        if attr == "lat" {
          d := d["pos" := d["pos"].(lat := Some(value))];
        }
        if attr == "lon" {
          d := d["pos" := d["pos"].(lon := Some(value))];
        }
      } else {
        d := d[attr := Str(value)];
      }
      assert AttrStep(before, attr, value) == Success(d);
      i := i + 1;
    }
    assert names[..i] == names;
    r := Success(d);
  }

  /** The `tag` loop of `get_info`, updating `d` in place. */
  method ReadTags(d0: Doc, ts: seq<Element>) returns (r: Result<Doc, PyError>)
    ensures r == ApplyTags(Success(d0), ts)
  {
    var d := d0;
    var j := 0;
    while j < |ts|
      invariant 0 <= j <= |ts|
      invariant ApplyTags(Success(d0), ts[..j]) == Success(d)
    {
      ghost var before := d;
      assert ts[..j + 1][..j] == ts[..j];
      var t := ts[j];
      if "k" !in t.attrib {
        TagsPrefixFailure(Success(d0), ts, j + 1, KeyError("k"));
        return Failure(KeyError("k"));
      }
      var key := t.attrib["k"];
      if !HasProblemChar(key) && StartsWithAddr(key) {
        if "address" !in d {
          d := d["address" := Fields(map[])];
        }
        if "v" !in t.attrib {
          TagsPrefixFailure(Success(d0), ts, j + 1, KeyError("v"));
          return Failure(KeyError("v"));
        }
        if !d["address"].Fields? {
          TagsPrefixFailure(Success(d0), ts, j + 1, TypeError("address"));
          return Failure(TypeError("address"));
        }
        d := d["address" := Fields(d["address"].m[key[5..] := t.attrib["v"]])];
      } else if !HasProblemChar(key) && !HasColon(key) {
        if "v" !in t.attrib {
          TagsPrefixFailure(Success(d0), ts, j + 1, KeyError("v"));
          return Failure(KeyError("v"));
        }
        d := d[key := Str(t.attrib["v"])];
      }
      assert TagStep(before, t) == Success(d);
      j := j + 1;
    }
    assert ts[..j] == ts;
    r := Success(d);
  }

  /** The `nd` loop of `get_info`, updating `d` in place. */
  method ReadNds(d0: Doc, nds: seq<Element>) returns (r: Result<Doc, PyError>)
    ensures r == ApplyNds(Success(d0), nds)
  {
    var d := d0;
    var k := 0;
    while k < |nds|
      invariant 0 <= k <= |nds|
      invariant ApplyNds(Success(d0), nds[..k]) == Success(d)
    {
      ghost var before := d;
      assert nds[..k + 1][..k] == nds[..k];
      var nd := nds[k];
      if "ref" !in nd.attrib {
        NdsPrefixFailure(Success(d0), nds, k + 1, KeyError("ref"));
        return Failure(KeyError("ref"));
      }
      var value := nd.attrib["ref"];
      if "node_refs" !in d {
        d := d["node_refs" := Refs([])];
      }
      if !d["node_refs"].Refs? {
        NdsPrefixFailure(Success(d0), nds, k + 1, AttributeError("node_refs"));
        return Failure(AttributeError("node_refs"));
      }
      d := d["node_refs" := Refs(d["node_refs"].refs + [value])];
      assert NdStep(before, nd) == Success(d);
      k := k + 1;
    }
    assert nds[..k] == nds;
    r := Success(d);
  }
}
