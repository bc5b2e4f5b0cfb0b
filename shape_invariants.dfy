/** Facts about `get_info` that hold on every element, clean or not: what the
    three passes never lose, and the collisions between a plain field and a
    container that make it raise. */
module ShapeInvariants {
  import opened Wrappers
  import opened Elements
  import opened KeyClassifier
  import opened Shaper
  import opened ShapeProperties

  // ------------------------------------------------------------ nothing is lost

  /** The attribute pass never removes a key, and leaves alone the value of
      a key that is neither an attribute nor a container it fills. */
  lemma {:induction false} AttrsKeep(d0: Doc, a: map<string, string>, names: seq<string>, k: string)
    requires forall n :: n in names ==> n in a
    requires k in d0
    ensures var r := ApplyAttrs(d0, a, names);
      r.Success? ==> k in r.value && (k !in names && k != "created" && k != "pos" ==> r.value[k] == d0[k])
  {
    if names != [] {
      var p := names[..|names| - 1];
      assert forall x :: x in p ==> x in names;
      AttrsKeep(d0, a, p, k);
    }
  }

  /** The `tag` pass never removes a key, and leaves alone the value of a key
      that is not `address` and that no tag names. */
  lemma {:induction false} TagsKeep(r0: Result<Doc, PyError>, ts: seq<Element>, k: string)
    requires r0.Success? && k in r0.value
    ensures var r := ApplyTags(r0, ts);
      r.Success? ==>
        && k in r.value
        && (k != "address" && (forall t :: t in ts && "k" in t.attrib ==> t.attrib["k"] != k) ==> r.value[k] == r0.value[k])
  {
    if ts != [] {
      var p := ts[..|ts| - 1];
      assert forall x :: x in p ==> x in ts;
      assert ts[|ts| - 1] in ts;
      TagsKeep(r0, p, k);
    }
  }

  /** The `nd` pass never removes a key, and changes only `node_refs`. */
  lemma {:induction false} NdsKeep(r0: Result<Doc, PyError>, nds: seq<Element>, k: string)
    requires r0.Success? && k in r0.value
    ensures var r := ApplyNds(r0, nds);
      r.Success? ==> k in r.value && (k != "node_refs" ==> r.value[k] == r0.value[k])
  {
    if nds != [] {
      NdsKeep(r0, nds[..|nds| - 1], k);
    }
  }

  /** `type` is always there in the document of a `node` or `way`, and holds
      the element's tag unless an attribute or a top-level tag is named
      `type` too. */
  lemma TypeKept(e: Element)
    requires AttrOrderOk(e) && (e.tag == "node" || e.tag == "way") && Shape(e).Success?
    ensures "type" in Shape(e).value
    ensures "type" !in e.attrib && (forall t :: t in Iter(e, "tag") && "k" in t.attrib ==> t.attrib["k"] != "type")
      ==> Shape(e).value["type"] == Str(e.tag)
  {
    AttrsKeep(Start(e), e.attrib, e.order, "type");
    if AfterAttrs(e).Failure? {
      TagsFromFailure(AfterAttrs(e).error, Iter(e, "tag"));
      NdsFromFailure(AfterAttrs(e).error, Iter(e, "nd"));
    } else {
      TagsKeep(AfterAttrs(e), Iter(e, "tag"), "type");
      if AfterTags(e).Failure? {
        NdsFromFailure(AfterTags(e).error, Iter(e, "nd"));
      } else {
        NdsKeep(AfterTags(e), Iter(e, "nd"), "type");
      }
    }
  }

  /** `if el:` in `write_info`: a document that `get_info` returns is empty
      exactly when the element is neither a `node` nor a `way`. */
  lemma ShapeEmptyIffOther(e: Element)
    requires AttrOrderOk(e) && Shape(e).Success?
    ensures Shape(e).value == map[] <==> !(e.tag == "node" || e.tag == "way")
  {
    if e.tag == "node" || e.tag == "way" {
      TypeKept(e);
    }
  }

  // ------------------------------------------------------------ collisions

  /** A top-level tag writes a string, and later tags leave a string there
      (or raise). */
  lemma TagStepKeepsStr(d: Doc, t: Element, k: string)
    requires k in d && d[k].Str? && TagStep(d, t).Success?
    ensures k in TagStep(d, t).value && TagStep(d, t).value[k].Str?
  {
  }

  lemma {:induction false} TagsSetStr(r0: Result<Doc, PyError>, ts: seq<Element>, i: nat)
    requires i < |ts| && IsTopTag(ts[i])
    ensures var r, k := ApplyTags(r0, ts), ts[i].attrib["k"];
      r.Success? ==> k in r.value && r.value[k].Str?
  {
    var p := ts[..|ts| - 1];
    var k := ts[i].attrib["k"];
    if i < |ts| - 1 {
      assert p[i] == ts[i];
      TagsSetStr(r0, p, i);
      if ApplyTags(r0, ts).Success? {
        TagStepKeepsStr(ApplyTags(r0, p).value, ts[|ts| - 1], k);
      }
    } else {
      AddrKeysHaveColon(k);
    }
  }

  /** The `tag` pass leaves a string where it found one (or raises). */
  lemma {:induction false} TagsKeepStr(r0: Result<Doc, PyError>, ts: seq<Element>, k: string)
    requires r0.Success? && k in r0.value && r0.value[k].Str?
    ensures var r := ApplyTags(r0, ts); r.Success? ==> k in r.value && r.value[k].Str?
  {
    if ts != [] {
      var p := ts[..|ts| - 1];
      TagsKeepStr(r0, p, k);
      if ApplyTags(r0, ts).Success? {
        TagStepKeepsStr(ApplyTags(r0, p).value, ts[|ts| - 1], k);
      }
    }
  }

  /** A top-level tag keyed `address` followed by an `addr:` tag makes
      `get_info` raise: item assignment into a string. */
  lemma AddressCollisionRaises(e: Element, i: nat, j: nat)
    requires AttrOrderOk(e) && (e.tag == "node" || e.tag == "way")
    requires i < j < |Iter(e, "tag")|
    requires IsTopTag(Iter(e, "tag")[i]) && Iter(e, "tag")[i].attrib["k"] == "address"
    requires IsAddrTag(Iter(e, "tag")[j])
    ensures Shape(e).Failure?
  {
    var ts, r0 := Iter(e, "tag"), AfterAttrs(e);
    var err := if ApplyTags(r0, ts[..j]).Failure? then ApplyTags(r0, ts[..j]).error else TypeError("address");
    if ApplyTags(r0, ts[..j]).Failure? {
      TagsPrefixFailure(r0, ts, j, err);
    } else {
      assert ts[..j][i] == ts[i];
      TagsSetStr(r0, ts[..j], i);
      assert ts[..j + 1][..j] == ts[..j];
      assert ApplyTags(r0, ts[..j + 1]) == TagStep(ApplyTags(r0, ts[..j]).value, ts[j]);
      TagsPrefixFailure(r0, ts, j + 1, err);
    }
    NdsFromFailure(err, Iter(e, "nd"));
  }

  /** An attribute named `address` on an element with an `addr:` tag makes
      `get_info` raise: item assignment into a string. */
  lemma AddressAttrCollisionRaises(e: Element, j: nat)
    requires AttrOrderOk(e) && (e.tag == "node" || e.tag == "way")
    requires "address" in e.attrib
    requires j < |Iter(e, "tag")| && IsAddrTag(Iter(e, "tag")[j])
    ensures Shape(e).Failure?
  {
    var ts, r0 := Iter(e, "tag"), AfterAttrs(e);
    if r0.Failure? {
      TagsFromFailure(r0.error, ts);
      NdsFromFailure(r0.error, Iter(e, "nd"));
    } else {
      AttrsLeaveStr(e, "address");
      var rj := ApplyTags(r0, ts[..j]);
      var err := if rj.Failure? then rj.error else TypeError("address");
      if rj.Success? {
        TagsKeepStr(r0, ts[..j], "address");
      }
      assert ts[..j + 1][..j] == ts[..j];
      TagsPrefixFailure(r0, ts, j + 1, err);
      NdsFromFailure(err, Iter(e, "nd"));
    }
  }

  /** A top-level tag keyed `node_refs` on an element with an `nd` makes
      `get_info` raise: `append` on a string. */
  lemma NodeRefsCollisionRaises(e: Element, i: nat)
    requires AttrOrderOk(e) && (e.tag == "node" || e.tag == "way")
    requires i < |Iter(e, "tag")| && IsTopTag(Iter(e, "tag")[i]) && Iter(e, "tag")[i].attrib["k"] == "node_refs"
    requires Iter(e, "nd") != []
    ensures Shape(e).Failure?
  {
    if AfterTags(e).Success? {
      TagsSetStr(AfterAttrs(e), Iter(e, "tag"), i);
    }
    NdsFailOnStr(e);
  }

  /** An attribute named `node_refs` on an element with an `nd` makes
      `get_info` raise: `append` on a string. */
  lemma NodeRefsAttrCollisionRaises(e: Element)
    requires AttrOrderOk(e) && (e.tag == "node" || e.tag == "way")
    requires "node_refs" in e.attrib && Iter(e, "nd") != []
    ensures Shape(e).Failure?
  {
    var r0 := AfterAttrs(e);
    if r0.Failure? {
      TagsFromFailure(r0.error, Iter(e, "tag"));
    } else {
      AttrsLeaveStr(e, "node_refs");
      TagsKeepStr(r0, Iter(e, "tag"), "node_refs");
    }
    NdsFailOnStr(e);
  }

  /** A string under `node_refs` when the `nd` pass starts makes the first
      `nd` raise. */
  lemma NdsFailOnStr(e: Element)
    requires AttrOrderOk(e) && (e.tag == "node" || e.tag == "way") && Iter(e, "nd") != []
    requires AfterTags(e).Success? ==> "node_refs" in AfterTags(e).value && AfterTags(e).value["node_refs"].Str?
    ensures Shape(e).Failure?
  {
    var nds := Iter(e, "nd");
    if AfterTags(e).Failure? {
      NdsFromFailure(AfterTags(e).error, nds);
    } else {
      var err := NdStep(AfterTags(e).value, nds[0]).error;
      assert nds[..1][..0] == [];
      assert ApplyNds(AfterTags(e), nds[..1]) == NdStep(AfterTags(e).value, nds[0]);
      NdsPrefixFailure(AfterTags(e), nds, 1, err);
    }
  }

  /** An attribute named `created` followed by an attribute of CREATED makes
      `get_info` raise: item assignment into a string. In the other order
      the string replaces the dictionary (`CreatedOverwrittenByAttr`): the
      outcome depends on the order of the attributes. */
  lemma CreatedCollisionRaises(e: Element, i: nat, j: nat)
    requires AttrOrderOk(e) && (e.tag == "node" || e.tag == "way")
    requires i < j < |e.order| && e.order[i] == "created" && e.order[j] in CreatedAttrs
    ensures Shape(e).Failure?
  {
    AttrsCollision(Start(e), e.attrib, e.order, i, j);
    TagsFromFailure(AfterAttrs(e).error, Iter(e, "tag"));
    NdsFromFailure(AfterAttrs(e).error, Iter(e, "nd"));
  }

  /** An attribute named `pos` followed by `lat` or `lon` makes `get_info`
      raise: item assignment into a string. */
  lemma PosCollisionRaises(e: Element, i: nat, j: nat)
    requires AttrOrderOk(e) && (e.tag == "node" || e.tag == "way")
    requires i < j < |e.order| && e.order[i] == "pos" && (e.order[j] == "lat" || e.order[j] == "lon")
    ensures Shape(e).Failure?
  {
    AttrsCollision(Start(e), e.attrib, e.order, i, j);
    TagsFromFailure(AfterAttrs(e).error, Iter(e, "tag"));
    NdsFromFailure(AfterAttrs(e).error, Iter(e, "nd"));
  }

  /** The attribute pass raises once an attribute has left a string where a
      later attribute expects the `created` dictionary or the `pos` pair. */
  lemma AttrsCollision(d0: Doc, a: map<string, string>, names: seq<string>, i: nat, j: nat)
    requires forall n :: n in names ==> n in a
    requires i < j < |names|
    requires || (names[i] == "created" && names[j] in CreatedAttrs)
             || (names[i] == "pos" && (names[j] == "lat" || names[j] == "lon"))
    ensures ApplyAttrs(d0, a, names).Failure?
  {
    var r := ApplyAttrs(d0, a, names[..j]);
    assert forall x :: x in names[..j] ==> x in names;
    var err := if r.Failure? then r.error else TypeError(names[i]);
    if r.Success? {
      assert names[..j][i] == names[i];
      AttrsSetStr(d0, a, names[..j], i);
    }
    assert names[..j + 1][..j] == names[..j];
    AttrsPrefixFailure(d0, a, names, j + 1, err);
  }

  /** An attribute copied as a string stays a string through the rest of the
      attribute pass (or the pass raises). */
  lemma {:induction false} AttrsSetStr(d0: Doc, a: map<string, string>, names: seq<string>, i: nat)
    requires forall n :: n in names ==> n in a
    requires i < |names| && IsPlainAttr(names[i])
    ensures var r := ApplyAttrs(d0, a, names);
      r.Success? ==> names[i] in r.value && r.value[names[i]].Str?
  {
    var p := names[..|names| - 1];
    assert forall x :: x in p ==> x in names;
    if i < |names| - 1 {
      assert p[i] == names[i];
      AttrsSetStr(d0, a, p, i);
      if ApplyAttrs(d0, a, names).Success? {
        AttrStepKeepsStr(ApplyAttrs(d0, a, p).value, names[|names| - 1], a[names[|names| - 1]], names[i]);
      }
    }
  }

  lemma AttrStepKeepsStr(d: Doc, n: string, v: string, k: string)
    requires k in d && d[k].Str? && AttrStep(d, n, v).Success?
    ensures k in AttrStep(d, n, v).value && AttrStep(d, n, v).value[k].Str?
  {
  }

  lemma AttrsLeaveStr(e: Element, k: string)
    requires AttrOrderOk(e) && k in e.attrib && IsPlainAttr(k) && AfterAttrs(e).Success?
    ensures k in AfterAttrs(e).value && AfterAttrs(e).value[k].Str?
  {
    var i :| 0 <= i < |e.order| && e.order[i] == k;
    AttrsSetStr(Start(e), e.attrib, e.order, i);
  }

  // ------------------------------------------------------------ created after its fields

  /** An attribute named `created` after every attribute of CREATED replaces
      the `created` dictionary with its string, and nothing raises on that
      account: on an element otherwise clean, `get_info` returns a document
      whose `created` is that string, unless a top-level tag is keyed
      `created` too. */
  lemma CreatedOverwrittenByAttr(e: Element)
    requires AttrOrderOk(e) && (e.tag == "node" || e.tag == "way")
    requires "created" in e.attrib && "pos" !in e.attrib
    requires forall j, k :: 0 <= j < |e.order| && 0 <= k < |e.order| && e.order[j] in CreatedAttrs && e.order[k] == "created" ==> j < k
    requires AddrPairs(Iter(e, "tag")) != [] ==> "address" !in e.attrib
    requires Iter(e, "nd") != [] ==> "node_refs" !in e.attrib
    requires TagsComplete(Iter(e, "tag")) && NoReservedKey(Iter(e, "tag"), Iter(e, "nd")) && NdsComplete(Iter(e, "nd"))
    ensures Shape(e).Success? && "created" in Shape(e).value
    ensures "created" !in TopKeys(Iter(e, "tag")) ==> Shape(e).value["created"] == Str(e.attrib["created"])
  {
    var a, ts, nds := e.attrib, Iter(e, "tag"), Iter(e, "nd");
    var s := a.Keys - {"created"};
    var da := AttrsDoc(e.tag, a, s)["created" := Str(a["created"])];
    AfterAttrsCreatedLast(e);
    AttrsDocHas(e.tag, a, s, "address");
    TagsPhase(da, ts);
    var db := da + TopPart(ts) + AddressPart(ts);
    TopPartKeys(ts);
    if nds != [] {
      AttrsDocHas(e.tag, a, s, "node_refs");
      assert "node_refs" !in db;
    }
    NdsPhase(db, nds);
    Lookup4(da, TopPart(ts), AddressPart(ts), RefsPart(nds), "created");
  }

  lemma AfterAttrsCreatedLast(e: Element)
    requires AttrOrderOk(e) && "created" in e.attrib && "pos" !in e.attrib
    requires forall j, k :: 0 <= j < |e.order| && 0 <= k < |e.order| && e.order[j] in CreatedAttrs && e.order[k] == "created" ==> j < k
    ensures AfterAttrs(e) == Success(AttrsDoc(e.tag, e.attrib, e.attrib.Keys - {"created"})["created" := Str(e.attrib["created"])])
  {
    AttrsCreatedLast(e.tag, e.attrib, e.order);
    assert NameSet(e.order) == e.attrib.Keys;
  }

  /** The attribute pass when `created` comes after every attribute of
      CREATED: the document of the other attributes, with the string in
      place of the dictionary. */
  lemma {:induction false} AttrsCreatedLast(tag: string, a: map<string, string>, names: seq<string>)
    requires forall n :: n in names ==> n in a
    requires "created" in names && "pos" !in names
    requires forall j, k :: 0 <= j < k < |names| ==> names[j] != names[k]
    requires forall j, k :: 0 <= j < |names| && 0 <= k < |names| && names[j] in CreatedAttrs && names[k] == "created" ==> j < k
    ensures ApplyAttrs(map["type" := Str(tag)], a, names)
         == Success(AttrsDoc(tag, a, NameSet(names) - {"created"})["created" := Str(a["created"])])
  {
    var p, n := names[..|names| - 1], names[|names| - 1];
    assert names == p + [n];
    assert forall x :: x in p ==> x in names;
    CreatedNameIsNotField();
    if n == "created" {
      forall k | 0 <= k < |p| ensures p[k] != "created" {
        assert p[k] == names[k];
      }
      AttrsPhase(tag, a, p);
      assert NameSet(names) - {"created"} == NameSet(p);
    } else {
      var c :| 0 <= c < |p| && p[c] == "created";
      assert names[c] == "created";
      AttrsCreatedLast(tag, a, p);
      var s := NameSet(p) - {"created"};
      assert n !in CreatedAttrs;
      CreatedLastStep(tag, a, s, n);
      assert NameSet(names) - {"created"} == s + {n};
    }
  }

  lemma CreatedLastStep(tag: string, a: map<string, string>, s: set<string>, n: string)
    requires s <= a.Keys && n in a && "created" in a
    requires n !in CreatedAttrs && n != "created" && n != "pos"
    requires "created" !in s && "pos" !in s
    ensures AttrStep(AttrsDoc(tag, a, s)["created" := Str(a["created"])], n, a[n])
         == Success(AttrsDoc(tag, a, s + {n})["created" := Str(a["created"])])
  {
    StepPastCreated(AttrsDoc(tag, a, s), Str(a["created"]), n, a[n]);
    if n == "lat" || n == "lon" {
      PosStep(tag, a, s, n);
    } else {
      PlainStep(tag, a, s, n);
    }
  }

  lemma CreatedNameIsNotField()
    ensures "created" !in CreatedAttrs && "created" != "lat" && "created" != "lon"
  {
  }

  /** An attribute other than those of CREATED and `created` itself does the
      same with or without `created` in the document. */
  lemma StepPastCreated(d: Doc, c: Value, n: string, v: string)
    requires n !in CreatedAttrs && n != "created"
    ensures AttrStep(d["created" := c], n, v) ==
      if AttrStep(d, n, v).Success? then Success(AttrStep(d, n, v).value["created" := c]) else AttrStep(d, n, v)
  {
    if n != "lat" && n != "lon" {
      assert d["created" := c][n := Str(v)] == d[n := Str(v)]["created" := c];
    } else {
      var p0 := if "pos" in d then d["pos"] else Pos(None, None);
      var d1 := if "pos" in d then d else d["pos" := Pos(None, None)];
      var e1 := if "pos" in d then d["created" := c] else d["created" := c]["pos" := Pos(None, None)];
      assert e1 == d1["created" := c] && e1["pos"] == d1["pos"] == p0;
      if p0.Pos? {
        var p1 := if n == "lat" then p0.(lat := Some(v)) else p0.(lon := Some(v));
        assert e1["pos" := p1] == d1["pos" := p1]["created" := c];
      }
    }
  }
}
