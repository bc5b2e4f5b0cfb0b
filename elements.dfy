/** One element of the parsed map file as ElementTree hands it over: its tag,
    its attributes (a dictionary whose keys iterate in document order) and the
    elements nested in it. */
module Elements {

  datatype Element = Element(tag: string, attrib: map<string, string>, order: seq<string>, children: seq<Element>)

  /** `order` is the iteration order of `attrib`: it lists each of its keys
      exactly once. */
  predicate AttrOrderOk(e: Element) {
    && (forall n :: n in e.order ==> n in e.attrib)
    && (forall n :: n in e.attrib ==> n in e.order)
    && (forall i, j :: 0 <= i < j < |e.order| ==> e.order[i] != e.order[j])
  }

  /** `e.iter(t)`: `e` itself and every element beneath it, in document order
      (pre-order), that has tag `t`. */
  function Iter(e: Element, t: string): (r: seq<Element>)
    ensures forall x :: x in r ==> x.tag == t
    decreases e, 1
  {
    (if e.tag == t then [e] else []) + IterAll(e.children, t)
  }

  /** The elements with tag `t` in the subtrees `cs`, in document order. */
  function IterAll(cs: seq<Element>, t: string): (r: seq<Element>)
    ensures forall x :: x in r ==> x.tag == t
    decreases cs, 0
  {
    if cs == [] then [] else Iter(cs[0], t) + IterAll(cs[1..], t)
  }
}
