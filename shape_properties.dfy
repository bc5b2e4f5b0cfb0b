/** The document `get_info` promises, stated piece by piece without the
    order in which the script builds it, and the proof that the script
    builds exactly that document whenever it does not raise. */
module ShapeProperties {
  import opened Wrappers
  import opened Elements
  import opened KeyClassifier
  import opened Shaper

  // ------------------------------------------------------------ attributes

  /** An attribute copied unchanged to the top level. */
  predicate IsPlainAttr(n: string) {
    n !in CreatedAttrs && n != "lat" && n != "lon"
  }

  function NameSet(names: seq<string>): set<string> {
    set n | n in names
  }

  /** The attributes in `ns`, other than CREATED, `lat` and `lon`, as strings. */
  function PlainPart(a: map<string, string>, ns: set<string>): Doc
    requires ns <= a.Keys
  {
    map n | n in ns && IsPlainAttr(n) :: Str(a[n])
  }

  /** The attributes of CREATED among `ns`. */
  function CreatedFields(a: map<string, string>, ns: set<string>): map<string, string>
    requires ns <= a.Keys
  {
    map n | n in ns && n in CreatedAttrs :: a[n]
  }

  /** `created` holds the attributes of CREATED, and is there iff one is. */
  function CreatedPart(a: map<string, string>, ns: set<string>): Doc
    requires ns <= a.Keys
  {
    if CreatedFields(a, ns) == map[] then map[] else map["created" := Fields(CreatedFields(a, ns))]
  }

  function Slot(a: map<string, string>, ns: set<string>, n: string): Option<string>
    requires ns <= a.Keys
  {
    if n in ns then Some(a[n]) else None
  }

  /** `pos` holds `lat` in slot 0 and `lon` in slot 1, None where one is
      missing, and is there iff one of them is. */
  function PosPart(a: map<string, string>, ns: set<string>): Doc
    requires ns <= a.Keys
  {
    if "lat" in ns || "lon" in ns then map["pos" := Pos(Slot(a, ns, "lat"), Slot(a, ns, "lon"))] else map[]
  }

  /** The document after the attribute pass over the attributes `ns`. */
  function AttrsDoc(tag: string, a: map<string, string>, ns: set<string>): Doc
    requires ns <= a.Keys
  {
    map["type" := Str(tag)] + PlainPart(a, ns) + CreatedPart(a, ns) + PosPart(a, ns)
  }

  // ------------------------------------------------------------ tag descendants

  /** `dict(pairs)`: a later pair overwrites an earlier one with the same key. */
  function LastWins(ps: seq<(string, string)>): map<string, string> {
    if ps == [] then map[] else LastWins(ps[..|ps| - 1])[ps[|ps| - 1].0 := ps[|ps| - 1].1]
  }

  predicate IsTopTag(t: Element) {
    "k" in t.attrib && "v" in t.attrib && IsTopKey(t.attrib["k"])
  }

  predicate IsAddrTag(t: Element) {
    "k" in t.attrib && "v" in t.attrib && IsAddrKey(t.attrib["k"])
  }

  /** The (key, value) pairs of the tags that go to the top level, in order. */
  function TopPairs(ts: seq<Element>): seq<(string, string)> {
    if ts == [] then []
    else
      var t := ts[|ts| - 1];
      TopPairs(ts[..|ts| - 1]) + (if IsTopTag(t) then [(t.attrib["k"], t.attrib["v"])] else [])
  }

  /** The (key without `addr:`, value) pairs of the address tags, in order. */
  function AddrPairs(ts: seq<Element>): seq<(string, string)> {
    if ts == [] then []
    else
      var t := ts[|ts| - 1];
      AddrPairs(ts[..|ts| - 1]) + (if IsAddrTag(t) then [(t.attrib["k"][5..], t.attrib["v"])] else [])
  }

  function TopPart(ts: seq<Element>): Doc {
    var m := LastWins(TopPairs(ts));
    map k | k in m :: Str(m[k])
  }

  function AddressPart(ts: seq<Element>): Doc {
    if AddrPairs(ts) == [] then map[] else map["address" := Fields(LastWins(AddrPairs(ts)))]
  }

  /** Every tag has `k`, and `v` too where its key keeps it. */
  predicate TagsComplete(ts: seq<Element>) {
    forall t :: t in ts ==> "k" in t.attrib && (IsAddrKey(t.attrib["k"]) || IsTopKey(t.attrib["k"]) ==> "v" in t.attrib)
  }

  /** No top-level tag is keyed with a name that `get_info` then treats as a
      container: `address` where some address tag is, `node_refs` where some
      `nd` is. A tag keyed `created` or `pos` just overwrites that entry. */
  predicate NoReservedKey(ts: seq<Element>, nds: seq<Element>) {
    && (AddrPairs(ts) != [] ==> "address" !in TopKeys(ts))
    && (nds != [] ==> "node_refs" !in TopKeys(ts))
  }

  // ------------------------------------------------------------ nd descendants

  predicate NdsComplete(nds: seq<Element>) {
    forall nd :: nd in nds ==> "ref" in nd.attrib
  }

  /** The `ref` of every `nd`, in document order. */
  function RefsOf(nds: seq<Element>): (refs: seq<string>)
    requires NdsComplete(nds)
    ensures |refs| == |nds|
    ensures forall i :: 0 <= i < |nds| ==> refs[i] == nds[i].attrib["ref"]
  {
    if nds == [] then [] else RefsOf(nds[..|nds| - 1]) + [nds[|nds| - 1].attrib["ref"]]
  }

  /** `node_refs` lists the refs, and is there iff some `nd` is. */
  function RefsPart(nds: seq<Element>): Doc
    requires NdsComplete(nds)
  {
    if nds == [] then map[] else map["node_refs" := Refs(RefsOf(nds))]
  }

  // ------------------------------------------------------------ the whole document

  /** No attribute is named `created` or `pos` (whose outcome depends on
      where it comes among the attributes), nor `address` where some address
      tag is, nor `node_refs` where some `nd` is. */
  predicate AttrsFree(a: map<string, string>, ts: seq<Element>, nds: seq<Element>) {
    && "created" !in a && "pos" !in a
    && (AddrPairs(ts) != [] ==> "address" !in a)
    && (nds != [] ==> "node_refs" !in a)
  }

  /** The conditions under which `get_info` does not raise and its document
      is described by `Expected`: no attribute or tag collides with a
      container the script then fills, every tag has its `k` (and `v` where
      used) and every `nd` its `ref`. */
  predicate Clean(e: Element) {
    && AttrOrderOk(e)
    && AttrsFree(e.attrib, Iter(e, "tag"), Iter(e, "nd"))
    && TagsComplete(Iter(e, "tag"))
    && NoReservedKey(Iter(e, "tag"), Iter(e, "nd"))
    && NdsComplete(Iter(e, "nd"))
  }

  /** The document of a clean `node` or `way`: `type`, the plain attributes,
      `created` and `pos`, overwritten where a top-level tag has the same key,
      then `address` and `node_refs`. */
  function Expected(e: Element): Doc
    requires Clean(e)
  {
    Assemble(e.tag, e.attrib, Iter(e, "tag"), Iter(e, "nd"))
  }

  function Assemble(tag: string, a: map<string, string>, ts: seq<Element>, nds: seq<Element>): Doc
    requires NdsComplete(nds)
  {
    AttrsDoc(tag, a, a.Keys) + TopPart(ts) + AddressPart(ts) + RefsPart(nds)
  }

  // ------------------------------------------------------------ the passes

  lemma {:induction false} AttrsPhase(tag: string, a: map<string, string>, names: seq<string>)
    requires forall n :: n in names ==> n in a
    requires "created" !in names && "pos" !in names
    ensures ApplyAttrs(map["type" := Str(tag)], a, names) == Success(AttrsDoc(tag, a, NameSet(names)))
  {
    if names == [] {
      assert NameSet(names) == {};
      assert AttrsDoc(tag, a, {}) == map["type" := Str(tag)];
    } else {
      var p, n := names[..|names| - 1], names[|names| - 1];
      assert names == p + [n];
      AttrsPhase(tag, a, p);
      var s0, s1 := NameSet(p), NameSet(names);
      assert s1 == s0 + {n};
      var d := AttrsDoc(tag, a, s0);
      if n in CreatedAttrs {
        CreatedStep(tag, a, s0, n);
      } else if n == "lat" || n == "lon" {
        PosStep(tag, a, s0, n);
      } else {
        PlainStep(tag, a, s0, n);
      }
    }
  }

  lemma CreatedStep(tag: string, a: map<string, string>, s0: set<string>, n: string)
    requires s0 <= a.Keys && n in a && n in CreatedAttrs
    requires "created" !in s0 && "pos" !in s0
    ensures AttrStep(AttrsDoc(tag, a, s0), n, a[n]) == Success(AttrsDoc(tag, a, s0 + {n}))
  {
    var base := map["type" := Str(tag)];
    var pl, cr, ps := PlainPart(a, s0), CreatedPart(a, s0), PosPart(a, s0);
    var m0, m1 := CreatedFields(a, s0), CreatedFields(a, s0 + {n});
    CreatedPieces(tag, a, s0, n);
    Lookup4(base, pl, cr, ps, "created");
    CreatedStepIs(AttrsDoc(tag, a, s0), n, a[n]);
    assert cr.Keys <= {"created"};
    UpdateReplacesThird(base, pl, cr, ps, "created", Fields(m1));
  }

  /** One attribute of CREATED on any dictionary whose `created` is a
      dictionary or absent. */
  lemma CreatedStepIs(d: Doc, n: string, v: string)
    requires n in CreatedAttrs
    requires "created" in d ==> d["created"].Fields?
    ensures AttrStep(d, n, v) == Success(d["created" := Fields((if "created" in d then d["created"].m else map[])[n := v])])
  {
    if "created" !in d {
      assert d["created" := Fields(map[])]["created" := Fields(map[][n := v])] == d["created" := Fields(map[][n := v])];
    }
  }

  lemma CreatedPieces(tag: string, a: map<string, string>, s0: set<string>, n: string)
    requires s0 <= a.Keys && n in a && n in CreatedAttrs
    requires "created" !in s0 && "pos" !in s0
    ensures PlainPart(a, s0 + {n}) == PlainPart(a, s0)
    ensures PosPart(a, s0 + {n}) == PosPart(a, s0)
    ensures CreatedFields(a, s0 + {n}) == CreatedFields(a, s0)[n := a[n]]
    ensures "created" !in PlainPart(a, s0) && "created" !in PosPart(a, s0)
    ensures AttrsDoc(tag, a, s0 + {n}) ==
      map["type" := Str(tag)] + PlainPart(a, s0) + map["created" := Fields(CreatedFields(a, s0 + {n}))] + PosPart(a, s0)
  {
    assert PlainPart(a, s0 + {n}) == PlainPart(a, s0);
    assert CreatedFields(a, s0 + {n}) == CreatedFields(a, s0)[n := a[n]];
    assert n in CreatedFields(a, s0 + {n});
  }

  lemma PosStep(tag: string, a: map<string, string>, s0: set<string>, n: string)
    requires s0 <= a.Keys && n in a && (n == "lat" || n == "lon")
    requires "created" !in s0 && "pos" !in s0
    ensures AttrStep(AttrsDoc(tag, a, s0), n, a[n]) == Success(AttrsDoc(tag, a, s0 + {n}))
  {
    var s1 := s0 + {n};
    var base := map["type" := Str(tag)];
    var pl, cr, ps := PlainPart(a, s0), CreatedPart(a, s0), PosPart(a, s0);
    PosPieces(tag, a, s0, n);
    Lookup4(base, pl, cr, ps, "pos");
    var p0 := if "lat" in s0 || "lon" in s0 then Pos(Slot(a, s0, "lat"), Slot(a, s0, "lon")) else Pos(None, None);
    var p1 := Pos(Slot(a, s1, "lat"), Slot(a, s1, "lon"));
    assert p1 == if n == "lat" then p0.(lat := Some(a[n])) else p0.(lon := Some(a[n]));
    PosStepIs(AttrsDoc(tag, a, s0), n, a[n]);
    assert ps.Keys <= {"pos"};
    UpdateReplacesTail(base + pl + cr, ps, "pos", p1);
  }

  lemma PosPieces(tag: string, a: map<string, string>, s0: set<string>, n: string)
    requires s0 <= a.Keys && n in a && (n == "lat" || n == "lon")
    requires "created" !in s0 && "pos" !in s0
    ensures PlainPart(a, s0 + {n}) == PlainPart(a, s0)
    ensures CreatedPart(a, s0 + {n}) == CreatedPart(a, s0)
    ensures "pos" !in PlainPart(a, s0) && "pos" !in CreatedPart(a, s0)
    ensures AttrsDoc(tag, a, s0 + {n}) == map["type" := Str(tag)] + PlainPart(a, s0) + CreatedPart(a, s0)
      + map["pos" := Pos(Slot(a, s0 + {n}, "lat"), Slot(a, s0 + {n}, "lon"))]
  {
    assert PlainPart(a, s0 + {n}) == PlainPart(a, s0);
    assert CreatedFields(a, s0 + {n}) == CreatedFields(a, s0);
  }

  /** `lat` or `lon` on any dictionary whose `pos` is a pair or absent. */
  lemma PosStepIs(d: Doc, n: string, v: string)
    requires n == "lat" || n == "lon"
    requires "pos" in d ==> d["pos"].Pos?
    ensures var p0 := if "pos" in d then d["pos"] else Pos(None, None);
      AttrStep(d, n, v) == Success(d["pos" := if n == "lat" then p0.(lat := Some(v)) else p0.(lon := Some(v))])
  {
    if "pos" !in d {
      var p1 := if n == "lat" then Pos(Some(v), None) else Pos(None, Some(v));
      assert d["pos" := Pos(None, None)]["pos" := p1] == d["pos" := p1];
    }
  }

  lemma PlainStep(tag: string, a: map<string, string>, s0: set<string>, n: string)
    requires s0 <= a.Keys && n in a && IsPlainAttr(n)
    requires "created" !in s0 + {n} && "pos" !in s0 + {n}
    ensures AttrStep(AttrsDoc(tag, a, s0), n, a[n]) == Success(AttrsDoc(tag, a, s0 + {n}))
  {
    var base := map["type" := Str(tag)];
    var pl, cr, ps := PlainPart(a, s0), CreatedPart(a, s0), PosPart(a, s0);
    PlainPieces(a, s0, n);
    UpdateUnderTail2(base, pl, cr, ps, n, Str(a[n]));
  }

  lemma PlainPieces(a: map<string, string>, s0: set<string>, n: string)
    requires s0 <= a.Keys && n in a && IsPlainAttr(n)
    requires "created" !in s0 + {n} && "pos" !in s0 + {n}
    ensures PlainPart(a, s0 + {n}) == PlainPart(a, s0)[n := Str(a[n])]
    ensures CreatedPart(a, s0 + {n}) == CreatedPart(a, s0)
    ensures PosPart(a, s0 + {n}) == PosPart(a, s0)
    ensures n !in CreatedPart(a, s0) && n !in PosPart(a, s0)
  {
    assert CreatedFields(a, s0 + {n}) == CreatedFields(a, s0);
  }

  lemma {:induction false} LastWinsKeys(ps: seq<(string, string)>)
    ensures LastWins(ps).Keys == set pr | pr in ps :: pr.0
  {
    if ps != [] {
      var p := ps[..|ps| - 1];
      LastWinsKeys(p);
      assert ps == p + [ps[|ps| - 1]];
      assert (set pr | pr in ps :: pr.0) == (set pr | pr in p :: pr.0) + {ps[|ps| - 1].0};
    }
  }

  /** The `tag` pass: where some address tag is, `address` must be neither
      in the document beforehand nor the key of a top-level tag. */
  lemma {:induction false} TagsPhase(d: Doc, ts: seq<Element>)
    requires TagsComplete(ts)
    requires AddrPairs(ts) != [] ==> "address" !in d && "address" !in TopKeys(ts)
    ensures ApplyTags(Success(d), ts) == Success(d + TopPart(ts) + AddressPart(ts))
  {
    if ts == [] {
      assert TopPart(ts) == map[];
      assert d + map[] + map[] == d;
    } else {
      var p := ts[..|ts| - 1];
      assert forall x :: x in p ==> x in ts;
      assert TopKeys(p) <= TopKeys(ts);
      assert |AddrPairs(p)| <= |AddrPairs(ts)|;
      TagsPhase(d, p);
      TagStepMatches(d, ts);
    }
  }

  lemma TagStepMatches(d: Doc, ts: seq<Element>)
    requires ts != [] && TagsComplete(ts)
    requires AddrPairs(ts) != [] ==> "address" !in d && "address" !in TopKeys(ts)
    ensures TagStep(d + TopPart(ts[..|ts| - 1]) + AddressPart(ts[..|ts| - 1]), ts[|ts| - 1])
         == Success(d + TopPart(ts) + AddressPart(ts))
  {
    var p, t := ts[..|ts| - 1], ts[|ts| - 1];
    assert t in ts;
    var key := t.attrib["k"];
    if IsAddrKey(key) {
      assert forall x :: x in p ==> x in ts;
      assert TopKeys(p) <= TopKeys(ts);
      TopPartKeys(p);
      AddrTagMatches(d, ts);
    } else if IsTopKey(key) {
      assert key in TopKeys(ts);
      AddrKeysHaveColon(key);
      assert AddrPairs(ts) == AddrPairs(p);
      TopTagMatches(d, ts);
    } else {
      assert TopPairs(ts) == TopPairs(ts[..|ts| - 1]);
      assert AddrPairs(ts) == AddrPairs(ts[..|ts| - 1]);
    }
  }

  lemma AddrTagMatches(d: Doc, ts: seq<Element>)
    requires ts != [] && "address" !in d
    requires "address" !in TopPart(ts[..|ts| - 1])
    requires IsAddrTag(ts[|ts| - 1])
    ensures TagStep(d + TopPart(ts[..|ts| - 1]) + AddressPart(ts[..|ts| - 1]), ts[|ts| - 1])
         == Success(d + TopPart(ts) + AddressPart(ts))
  {
    var p, t := ts[..|ts| - 1], ts[|ts| - 1];
    var key, v := t.attrib["k"], t.attrib["v"];
    var tp, ap := TopPart(p), AddressPart(p);
    var lw := LastWins(AddrPairs(p));
    AddrTagPieces(ts);
    var f := Fields(lw[key[5..] := v]);
    var b := d + tp + ap;
    assert ap.Keys <= {"address"};
    if AddrPairs(p) == [] {
      LookupThroughTail(d, tp, ap, "address");
      AddrStepFresh(b, t);
    } else {
      LookupThroughTail(d + tp, ap, map[], "address");
      assert b + map[] == b;
      AddrStepExisting(b, t, lw);
    }
    UpdateReplacesTail(d + tp, ap, "address", f);
  }

  lemma AddrStepFresh(b: Doc, t: Element)
    requires IsAddrTag(t) && "address" !in b
    ensures TagStep(b, t) == Success(b["address" := Fields(map[][t.attrib["k"][5..] := t.attrib["v"]])])
  {
    var m := map[t.attrib["k"][5..] := t.attrib["v"]];
    assert b["address" := Fields(map[])]["address" := Fields(m)] == b["address" := Fields(m)];
  }

  lemma AddrStepExisting(b: Doc, t: Element, m: map<string, string>)
    requires IsAddrTag(t) && "address" in b && b["address"] == Fields(m)
    ensures TagStep(b, t) == Success(b["address" := Fields(m[t.attrib["k"][5..] := t.attrib["v"]])])
  {
  }

  lemma AddrKeysHaveColon(key: string)
    ensures StartsWithAddr(key) ==> HasColon(key)
  {
    if StartsWithAddr(key) {
      assert key[4] == key[..5][4];
    }
  }

  lemma AddrTagPieces(ts: seq<Element>)
    requires ts != [] && IsAddrTag(ts[|ts| - 1])
    ensures TopPart(ts) == TopPart(ts[..|ts| - 1])
    ensures var t := ts[|ts| - 1];
      AddressPart(ts) == map["address" := Fields(LastWins(AddrPairs(ts[..|ts| - 1]))[t.attrib["k"][5..] := t.attrib["v"]])]
    ensures AddrPairs(ts[..|ts| - 1]) == [] ==> LastWins(AddrPairs(ts[..|ts| - 1])) == map[]
  {
    var t := ts[|ts| - 1];
    AddrKeysHaveColon(t.attrib["k"]);
    assert TopPairs(ts) == TopPairs(ts[..|ts| - 1]);
  }

  lemma TopTagMatches(d: Doc, ts: seq<Element>)
    requires ts != [] && IsTopTag(ts[|ts| - 1])
    requires ts[|ts| - 1].attrib["k"] != "address" || AddrPairs(ts[..|ts| - 1]) == []
    ensures TagStep(d + TopPart(ts[..|ts| - 1]) + AddressPart(ts[..|ts| - 1]), ts[|ts| - 1])
         == Success(d + TopPart(ts) + AddressPart(ts))
  {
    var p, t := ts[..|ts| - 1], ts[|ts| - 1];
    var key, v := t.attrib["k"], t.attrib["v"];
    var tp, ap := TopPart(p), AddressPart(p);
    TopTagPieces(ts);
    assert key !in ap;
    TopStep(d + tp + ap, t);
    UpdateUnderTail(d, tp, ap, key, Str(v));
  }

  lemma TopTagPieces(ts: seq<Element>)
    requires ts != [] && IsTopTag(ts[|ts| - 1])
    ensures AddressPart(ts) == AddressPart(ts[..|ts| - 1])
    ensures var t := ts[|ts| - 1];
      TopPart(ts) == TopPart(ts[..|ts| - 1])[t.attrib["k"] := Str(t.attrib["v"])]
  {
    var p, t := ts[..|ts| - 1], ts[|ts| - 1];
    var key, v := t.attrib["k"], t.attrib["v"];
    AddrKeysHaveColon(key);
    assert AddrPairs(ts) == AddrPairs(p);
    assert TopPairs(ts) == TopPairs(p) + [(key, v)];
    assert LastWins(TopPairs(ts)) == LastWins(TopPairs(p))[key := v];
  }

  lemma TopStep(b: Doc, t: Element)
    requires IsTopTag(t)
    ensures TagStep(b, t) == Success(b[t.attrib["k"] := Str(t.attrib["v"])])
  {
    AddrKeysHaveColon(t.attrib["k"]);
  }

  // ------------------------------------------------------------ map algebra

  lemma UpdateUnderTail(x: Doc, y: Doc, z: Doc, k: string, v: Value)
    requires k !in z
    ensures (x + y + z)[k := v] == x + y[k := v] + z
  {
  }

  lemma UpdateUnderTail2(x: Doc, y: Doc, z: Doc, w: Doc, k: string, v: Value)
    requires k !in z && k !in w
    ensures (x + y + z + w)[k := v] == x + y[k := v] + z + w
  {
  }

  lemma UpdateReplacesTail(x: Doc, z: Doc, k: string, v: Value)
    requires z.Keys <= {k}
    ensures (x + z)[k := v] == x + map[k := v]
  {
  }

  lemma UpdateReplacesThird(w: Doc, x: Doc, y: Doc, z: Doc, k: string, v: Value)
    requires y.Keys <= {k} && k !in z
    ensures (w + x + y + z)[k := v] == w + x + map[k := v] + z
  {
  }

  /** A lookup in a union of four maps finds the last map holding the key. */
  lemma Lookup4(w: Doc, x: Doc, y: Doc, z: Doc, k: string)
    ensures k in w + x + y + z <==> k in w || k in x || k in y || k in z
    ensures k in z ==> (w + x + y + z)[k] == z[k]
    ensures k !in z && k in y ==> (w + x + y + z)[k] == y[k]
    ensures k !in z && k !in y && k in x ==> (w + x + y + z)[k] == x[k]
    ensures k !in z && k !in y && k !in x && k in w ==> (w + x + y + z)[k] == w[k]
  {
  }

  lemma LookupBeforeTail(x: Doc, z: Doc, k: string)
    requires k in x && k !in z
    ensures k in x + z && (x + z)[k] == x[k]
  {
  }

  lemma LookupThroughTail(x: Doc, y: Doc, z: Doc, k: string)
    requires k !in z
    ensures k in x + y + z <==> k in x || k in y
    ensures k in y ==> (x + y + z)[k] == y[k]
    ensures k !in y && k in x ==> (x + y + z)[k] == x[k]
  {
  }

  /** The `nd` pass: where some `nd` is, `node_refs` must not be in the
      document beforehand. */
  lemma {:induction false} NdsPhase(d: Doc, nds: seq<Element>)
    requires nds != [] ==> "node_refs" !in d
    requires NdsComplete(nds)
    ensures ApplyNds(Success(d), nds) == Success(d + RefsPart(nds))
  {
    if nds == [] {
      assert d + map[] == d;
    } else {
      var p, nd := nds[..|nds| - 1], nds[|nds| - 1];
      assert forall x :: x in p ==> x in nds;
      NdsPhase(d, p);
      assert nd in nds;
      var r := nd.attrib["ref"];
      NdStepIs(d + RefsPart(p), r, nd);
      if p != [] {
        Lookup4(map[], map[], d, RefsPart(p), "node_refs");
        assert map[] + map[] + d == d;
      }
      assert RefsOf(nds) == RefsOf(p) + [r];
      UpdateReplacesTail(d, RefsPart(p), "node_refs", Refs(RefsOf(nds)));
    }
  }

  /** One `nd` on any dictionary whose `node_refs` is a list or absent. */
  lemma NdStepIs(b: Doc, r: string, nd: Element)
    requires "ref" in nd.attrib && nd.attrib["ref"] == r
    requires "node_refs" in b ==> b["node_refs"].Refs?
    ensures NdStep(b, nd) == Success(b["node_refs" := Refs((if "node_refs" in b then b["node_refs"].refs else []) + [r])])
  {
    if "node_refs" !in b {
      var none: seq<string> := [];
      assert none + [r] == [r];
      assert b["node_refs" := Refs(none)]["node_refs" := Refs([r])] == b["node_refs" := Refs([r])];
    }
  }

  // ------------------------------------------------------------ the whole shape

  /** On a clean `node` or `way`, `get_info` returns exactly the document
      described piece by piece above. */
  lemma ShapeIsExpected(e: Element)
    requires Clean(e) && (e.tag == "node" || e.tag == "way")
    ensures Shape(e) == Success(Expected(e))
  {
    var a, ts, nds := e.attrib, Iter(e, "tag"), Iter(e, "nd");
    var da := AttrsDoc(e.tag, a, a.Keys);
    AfterAttrsIsDoc(e);
    AttrsDocHas(e.tag, a, a.Keys, "address");
    TagsPhase(da, ts);
    var db := da + TopPart(ts) + AddressPart(ts);
    if nds != [] {
      AttrsDocHas(e.tag, a, a.Keys, "node_refs");
      TopPartKeys(ts);
      assert "node_refs" !in db;
    }
    NdsPhase(db, nds);
  }

  lemma AfterAttrsIsDoc(e: Element)
    requires Clean(e)
    ensures AfterAttrs(e) == Success(AttrsDoc(e.tag, e.attrib, e.attrib.Keys))
  {
    assert "created" !in e.order && "pos" !in e.order;
    AttrsPhase(e.tag, e.attrib, e.order);
    assert NameSet(e.order) == e.attrib.Keys;
  }

  /** The keys of the document after the attribute pass. */
  lemma AttrsDocKeys(tag: string, a: map<string, string>)
    ensures AttrsDoc(tag, a, a.Keys).Keys ==
      {"type"} + (set n | n in a && IsPlainAttr(n))
      + (if CreatedFields(a, a.Keys) == map[] then {} else {"created"})
      + (if "lat" in a || "lon" in a then {"pos"} else {})
  {
  }

  /** `address` and `node_refs` are in the document after the attribute pass
      exactly when an attribute of that name was read. */
  lemma AttrsDocHas(tag: string, a: map<string, string>, s: set<string>, k: string)
    requires s <= a.Keys && (k == "address" || k == "node_refs")
    ensures k in AttrsDoc(tag, a, s) <==> k in s
  {
    var pl, cr, ps := PlainPart(a, s), CreatedPart(a, s), PosPart(a, s);
    assert IsPlainAttr(k) && k != "type";
    assert k !in cr && k !in ps && (k in pl <==> k in s);
    Lookup4(map["type" := Str(tag)], pl, cr, ps, k);
  }

  /** The order in which the attributes come does not change the document of
      a clean element. */
  lemma ShapeIgnoresAttrOrder(e1: Element, e2: Element)
    requires Clean(e1) && Clean(e2)
    requires e1.tag == e2.tag && e1.attrib == e2.attrib && e1.children == e2.children
    ensures Shape(e1) == Shape(e2)
  {
    if e1.tag == "node" || e1.tag == "way" {
      assert Iter(e1, "tag") == IterAll(e1.children, "tag") == Iter(e2, "tag");
      assert Iter(e1, "nd") == IterAll(e1.children, "nd") == Iter(e2, "nd");
      ShapeIsExpected(e1);
      ShapeIsExpected(e2);
    }
  }

  /** The attributes of CREATED end up only inside `created`, which holds
      exactly them and is there iff one of them is, unless a top-level tag is
      keyed `created` (its value then replaces the dictionary, see
      `TopTagValue`); a key of CREATED at the top level comes from a `tag`. */
  lemma CreatedOnlyNested(e: Element)
    requires Clean(e) && (e.tag == "node" || e.tag == "way")
    ensures Shape(e).Success?
    ensures var d, tk := Shape(e).value, TopKeys(Iter(e, "tag"));
      && ("created" in d <==> (exists n :: n in CreatedAttrs && n in e.attrib) || "created" in tk)
      && ("created" in d && "created" !in tk ==>
            d["created"] == Fields(map n | n in e.attrib && n in CreatedAttrs :: e.attrib[n]))
      && (forall n :: n in CreatedAttrs && n in d ==> n in tk)
  {
    ShapeIsExpected(e);
    CreatedInDoc(e.tag, e.attrib, Iter(e, "tag"), Iter(e, "nd"));
  }

  lemma CreatedInDoc(tag: string, a: map<string, string>, ts: seq<Element>, nds: seq<Element>)
    requires "created" !in a && NdsComplete(nds)
    ensures var d, tk := Assemble(tag, a, ts, nds), TopKeys(ts);
      && ("created" in d <==> (exists n :: n in CreatedAttrs && n in a) || "created" in tk)
      && ("created" in d && "created" !in tk ==> d["created"] == Fields(map n | n in a && n in CreatedAttrs :: a[n]))
      && (forall n :: n in CreatedAttrs && n in d ==> n in tk)
  {
    CreatedFieldsOfAll(a);
    CreatedLookup(tag, a, ts, nds);
    CreatedKeysFromTags(tag, a, ts, nds);
  }

  lemma CreatedKeysFromTags(tag: string, a: map<string, string>, ts: seq<Element>, nds: seq<Element>)
    requires NdsComplete(nds)
    ensures forall n :: n in CreatedAttrs && n in Assemble(tag, a, ts, nds) ==> n in TopKeys(ts)
  {
    TopPartKeys(ts);
    var d := Assemble(tag, a, ts, nds);
    forall n | n in CreatedAttrs && n in d ensures n in TopKeys(ts) {
      var pl, cr, ps := PlainPart(a, a.Keys), CreatedPart(a, a.Keys), PosPart(a, a.Keys);
      CreatedNameIsFree(n);
      Lookup4(AttrsDoc(tag, a, a.Keys), TopPart(ts), AddressPart(ts), RefsPart(nds), n);
      assert n !in pl && n !in cr && n !in ps;
      Lookup4(map["type" := Str(tag)], pl, cr, ps, n);
    }
  }

  lemma CreatedNameIsFree(n: string)
    requires n in CreatedAttrs
    ensures n !in Reserved && n != "type" && !IsPlainAttr(n)
  {
  }

  lemma CreatedFieldsOfAll(a: map<string, string>)
    ensures CreatedFields(a, a.Keys) == map n | n in a && n in CreatedAttrs :: a[n]
    ensures CreatedFields(a, a.Keys) != map[] <==> exists n :: n in CreatedAttrs && n in a
  {
    if exists n :: n in CreatedAttrs && n in a {
      var n :| n in CreatedAttrs && n in a;
      assert n in CreatedFields(a, a.Keys);
    }
  }

  lemma CreatedLookup(tag: string, a: map<string, string>, ts: seq<Element>, nds: seq<Element>)
    requires "created" !in a && NdsComplete(nds)
    ensures var d, tk := Assemble(tag, a, ts, nds), TopKeys(ts);
      && ("created" in d <==> CreatedFields(a, a.Keys) != map[] || "created" in tk)
      && ("created" in d && "created" !in tk ==> d["created"] == Fields(CreatedFields(a, a.Keys)))
  {
    var pl, cr, ps := PlainPart(a, a.Keys), CreatedPart(a, a.Keys), PosPart(a, a.Keys);
    TopPartKeys(ts);
    Lookup4(AttrsDoc(tag, a, a.Keys), TopPart(ts), AddressPart(ts), RefsPart(nds), "created");
    assert "created" !in pl && "created" !in ps;
    Lookup4(map["type" := Str(tag)], pl, cr, ps, "created");
  }

  /** `lat` fills slot 0 and `lon` slot 1 of `pos`, a missing one stays None,
      and `pos` is there iff one of them is, unless a top-level tag is keyed
      `pos` (its value then replaces the pair, see `TopTagValue`). */
  lemma PosSlots(e: Element)
    requires Clean(e) && (e.tag == "node" || e.tag == "way")
    ensures Shape(e).Success?
    ensures var d, tk := Shape(e).value, TopKeys(Iter(e, "tag"));
      && ("pos" in d <==> "lat" in e.attrib || "lon" in e.attrib || "pos" in tk)
      && ("pos" in d && "pos" !in tk ==>
            d["pos"] == Pos(if "lat" in e.attrib then Some(e.attrib["lat"]) else None,
                            if "lon" in e.attrib then Some(e.attrib["lon"]) else None))
  {
    ShapeIsExpected(e);
    PosInDoc(e.tag, e.attrib, Iter(e, "tag"), Iter(e, "nd"));
  }

  lemma PosInDoc(tag: string, a: map<string, string>, ts: seq<Element>, nds: seq<Element>)
    requires "pos" !in a && NdsComplete(nds)
    ensures var d, tk := Assemble(tag, a, ts, nds), TopKeys(ts);
      && ("pos" in d <==> "lat" in a || "lon" in a || "pos" in tk)
      && ("pos" in d && "pos" !in tk ==>
            d["pos"] == Pos(if "lat" in a then Some(a["lat"]) else None, if "lon" in a then Some(a["lon"]) else None))
  {
    var pl, cr, ps := PlainPart(a, a.Keys), CreatedPart(a, a.Keys), PosPart(a, a.Keys);
    TopPartKeys(ts);
    Lookup4(AttrsDoc(tag, a, a.Keys), TopPart(ts), AddressPart(ts), RefsPart(nds), "pos");
    assert "pos" !in pl && "pos" !in cr;
    Lookup4(map["type" := Str(tag)], pl, cr, ps, "pos");
  }

  /** Every other attribute is copied unchanged to the top level, unless a
      `tag` with the same key overwrites it. */
  lemma PlainAttrsCopied(e: Element, n: string)
    requires Clean(e) && (e.tag == "node" || e.tag == "way")
    requires n in e.attrib && IsPlainAttr(n) && n !in TopKeys(Iter(e, "tag"))
    ensures Shape(e).Success?
    ensures n in Shape(e).value && Shape(e).value[n] == Str(e.attrib[n])
  {
    ShapeIsExpected(e);
    PlainInDoc(e.tag, e.attrib, Iter(e, "tag"), Iter(e, "nd"), n);
  }

  lemma PlainInDoc(tag: string, a: map<string, string>, ts: seq<Element>, nds: seq<Element>, n: string)
    requires AttrsFree(a, ts, nds) && NdsComplete(nds)
    requires n in a && IsPlainAttr(n) && n !in TopKeys(ts)
    ensures var d := Assemble(tag, a, ts, nds); n in d && d[n] == Str(a[n])
  {
    var pl, cr, ps := PlainPart(a, a.Keys), CreatedPart(a, a.Keys), PosPart(a, a.Keys);
    TopPartKeys(ts);
    assert n != "created" && n != "pos";
    assert n !in AddressPart(ts) && n !in RefsPart(nds);
    Lookup4(AttrsDoc(tag, a, a.Keys), TopPart(ts), AddressPart(ts), RefsPart(nds), n);
    assert n in pl && n !in cr && n !in ps;
    Lookup4(map["type" := Str(tag)], pl, cr, ps, n);
  }

  /** The keys of the document: `type`, the plain attributes, `created` and
      `pos` where filled, the key of every top-level tag, `address` iff some
      address tag is there and `node_refs` iff some `nd` is. A tag whose key
      has a problem character, or a colon without the `addr:` prefix, adds no
      key of its own. */
  lemma ShapeKeys(e: Element)
    requires Clean(e) && (e.tag == "node" || e.tag == "way")
    ensures Shape(e).Success?
    ensures Shape(e).value.Keys ==
      {"type"} + (set n | n in e.attrib && IsPlainAttr(n))
      + (if CreatedFields(e.attrib, e.attrib.Keys) == map[] then {} else {"created"})
      + (if "lat" in e.attrib || "lon" in e.attrib then {"pos"} else {})
      + TopKeys(Iter(e, "tag"))
      + (if AddrPairs(Iter(e, "tag")) == [] then {} else {"address"})
      + (if Iter(e, "nd") == [] then {} else {"node_refs"})
  {
    ShapeIsExpected(e);
    DocKeys(e.tag, e.attrib, Iter(e, "tag"), Iter(e, "nd"));
  }

  lemma DocKeys(tag: string, a: map<string, string>, ts: seq<Element>, nds: seq<Element>)
    requires NdsComplete(nds)
    ensures Assemble(tag, a, ts, nds).Keys ==
      {"type"} + (set n | n in a && IsPlainAttr(n))
      + (if CreatedFields(a, a.Keys) == map[] then {} else {"created"})
      + (if "lat" in a || "lon" in a then {"pos"} else {})
      + TopKeys(ts)
      + (if AddrPairs(ts) == [] then {} else {"address"})
      + (if nds == [] then {} else {"node_refs"})
  {
    AttrsDocKeys(tag, a);
    TopPartKeys(ts);
  }

  /** The entries of `address`: the key of every address tag without `addr:`,
      holding the value of the last such tag. */
  lemma AddressEntries(e: Element)
    requires Clean(e) && (e.tag == "node" || e.tag == "way")
    requires AddrPairs(Iter(e, "tag")) != []
    ensures Shape(e).Success? && "address" in Shape(e).value
    ensures Shape(e).value["address"] == Fields(LastWins(AddrPairs(Iter(e, "tag"))))
    ensures LastWins(AddrPairs(Iter(e, "tag"))).Keys == AddrKeys(Iter(e, "tag"))
  {
    ShapeIsExpected(e);
    AddressInDoc(e.tag, e.attrib, Iter(e, "tag"), Iter(e, "nd"));
  }

  lemma AddressInDoc(tag: string, a: map<string, string>, ts: seq<Element>, nds: seq<Element>)
    requires NdsComplete(nds) && AddrPairs(ts) != []
    ensures var d := Assemble(tag, a, ts, nds);
      "address" in d && d["address"] == Fields(LastWins(AddrPairs(ts)))
    ensures LastWins(AddrPairs(ts)).Keys == AddrKeys(ts)
  {
    AddrPairsOfTags(ts);
    LastWinsKeys(AddrPairs(ts));
    LookupThroughTail(AttrsDoc(tag, a, a.Keys) + TopPart(ts), AddressPart(ts), RefsPart(nds), "address");
  }

  /** A top-level tag overrides an attribute of the same key, and the
      `created` and `pos` containers too; among several tags with that key the
      last one wins (see `LastWinsValue`). */
  lemma TopTagValue(e: Element, k: string)
    requires Clean(e) && (e.tag == "node" || e.tag == "way")
    requires k in TopKeys(Iter(e, "tag"))
    ensures Shape(e).Success? && k in Shape(e).value
    ensures k in LastWins(TopPairs(Iter(e, "tag")))
    ensures Shape(e).value[k] == Str(LastWins(TopPairs(Iter(e, "tag")))[k])
  {
    ShapeIsExpected(e);
    TopInDoc(e.tag, e.attrib, Iter(e, "tag"), Iter(e, "nd"), k);
  }

  lemma TopInDoc(tag: string, a: map<string, string>, ts: seq<Element>, nds: seq<Element>, k: string)
    requires NoReservedKey(ts, nds) && NdsComplete(nds)
    requires k in TopKeys(ts)
    ensures k in LastWins(TopPairs(ts))
    ensures var d := Assemble(tag, a, ts, nds); k in d && d[k] == Str(LastWins(TopPairs(ts))[k])
  {
    TopPartKeys(ts);
    assert k !in AddressPart(ts) && k !in RefsPart(nds);
    var at := AttrsDoc(tag, a, a.Keys) + TopPart(ts);
    LookupThroughTail(AttrsDoc(tag, a, a.Keys), TopPart(ts), AddressPart(ts), k);
    LookupBeforeTail(at + AddressPart(ts), RefsPart(nds), k);
  }

  /** `node_refs` lists the `ref` of every `nd` in document order, one entry
      per `nd`; with no `nd` it is there only as an attribute or a top-level
      tag of that name. */
  lemma NodeRefsInOrder(e: Element)
    requires Clean(e) && (e.tag == "node" || e.tag == "way")
    ensures Shape(e).Success?
    ensures var d, nds, tk := Shape(e).value, Iter(e, "nd"), TopKeys(Iter(e, "tag"));
      && (nds == [] ==> ("node_refs" in d <==> "node_refs" in e.attrib || "node_refs" in tk))
      && (nds != [] ==>
            && "node_refs" in d && d["node_refs"].Refs? && |d["node_refs"].refs| == |nds|
            && forall i :: 0 <= i < |nds| ==> d["node_refs"].refs[i] == nds[i].attrib["ref"])
  {
    ShapeIsExpected(e);
    RefsInDoc(e.tag, e.attrib, Iter(e, "tag"), Iter(e, "nd"));
  }

  lemma RefsInDoc(tag: string, a: map<string, string>, ts: seq<Element>, nds: seq<Element>)
    requires NdsComplete(nds)
    ensures var d, tk := Assemble(tag, a, ts, nds), TopKeys(ts);
      && (nds == [] ==> ("node_refs" in d <==> "node_refs" in a || "node_refs" in tk))
      && (nds != [] ==>
            && "node_refs" in d && d["node_refs"].Refs? && |d["node_refs"].refs| == |nds|
            && forall i :: 0 <= i < |nds| ==> d["node_refs"].refs[i] == nds[i].attrib["ref"])
  {
    AttrsDocHas(tag, a, a.Keys, "node_refs");
    TopPartKeys(ts);
    Lookup4(AttrsDoc(tag, a, a.Keys), TopPart(ts), AddressPart(ts), RefsPart(nds), "node_refs");
  }

  // ------------------------------------------------------------ keys of tags

  /** The keys of the tags that go to the top level. */
  function TopKeys(ts: seq<Element>): set<string> {
    set t | t in ts && IsTopTag(t) :: t.attrib["k"]
  }

  /** The keys, without `addr:`, of the address tags. */
  function AddrKeys(ts: seq<Element>): set<string> {
    set t | t in ts && IsAddrTag(t) :: t.attrib["k"][5..]
  }

  lemma {:induction false} TopPairsOfTags(ts: seq<Element>)
    ensures (set pr | pr in TopPairs(ts) :: pr.0) == TopKeys(ts)
  {
    if ts != [] {
      var p, t := ts[..|ts| - 1], ts[|ts| - 1];
      TopPairsOfTags(p);
      assert ts == p + [t];
      assert TopKeys(ts) == TopKeys(p) + (if IsTopTag(t) then {t.attrib["k"]} else {});
    }
  }

  lemma {:induction false} AddrPairsOfTags(ts: seq<Element>)
    ensures (set pr | pr in AddrPairs(ts) :: pr.0) == AddrKeys(ts)
  {
    if ts != [] {
      var p, t := ts[..|ts| - 1], ts[|ts| - 1];
      AddrPairsOfTags(p);
      assert ts == p + [t];
      assert AddrKeys(ts) == AddrKeys(p) + (if IsAddrTag(t) then {t.attrib["k"][5..]} else {});
    }
  }

  lemma TopPartKeys(ts: seq<Element>)
    ensures TopPart(ts).Keys == TopKeys(ts)
  {
    LastWinsKeys(TopPairs(ts));
    TopPairsOfTags(ts);
  }

  /** `dict(pairs)` keeps, for each key, the value of its last pair. */
  lemma {:induction false} LastWinsValue(ps: seq<(string, string)>, k: string)
    requires k in LastWins(ps)
    ensures exists i :: 0 <= i < |ps| && ps[i] == (k, LastWins(ps)[k]) && forall j :: i < j < |ps| ==> ps[j].0 != k
  {
    var p, last := ps[..|ps| - 1], ps[|ps| - 1];
    if last.0 == k {
      assert ps[|ps| - 1] == (k, LastWins(ps)[k]);
    } else {
      LastWinsValue(p, k);
      var i :| 0 <= i < |p| && p[i] == (k, LastWins(p)[k]) && forall j :: i < j < |p| ==> p[j].0 != k;
      assert ps[i] == p[i];
      forall j | i < j < |ps| ensures ps[j].0 != k {
        if j < |p| { assert ps[j] == p[j]; }
      }
    }
  }
}
