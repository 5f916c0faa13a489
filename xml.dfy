/**
 * A parsed storyboard, reduced to what the scanner asks of it: its
 * elements in document order, each with a tag name and its attributes.
 */
module Xml {
  import opened Wrappers
  import opened Collections

  datatype Element = Element(name: string, attributes: map<string, string>)

  type Document = seq<Element>

  /** `node[key]`: the attribute's value, or nil when the element has none. */
  function Attr(e: Element, key: string): Option<string> {
    if key in e.attributes then Some(e.attributes[key]) else None
  }

  /**
   * `xml.css("a,b,...")` for a selector made of tag names only: the
   * elements whose tag is one of `names`, in document order.
   */
  function Css(doc: Document, names: set<string>): seq<Element> {
    Select(doc, (e: Element) => e.name in names)
  }

  /**
   * `Css` keeps exactly the elements with one of the tags, each as often as
   * it occurs, in document order.
   */
  lemma CssSpec(doc: Document, names: set<string>)
    ensures forall e :: e in Css(doc, names) <==> e in doc && e.name in names
    ensures forall e :: multiset(Css(doc, names))[e] == if e.name in names then multiset(doc)[e] else 0
    ensures IsSubsequence(Css(doc, names), doc)
  {
    SelectSpec(doc, (e: Element) => e.name in names);
  }

  lemma CssMembers(doc: Document, names: set<string>)
    ensures forall e :: e in Css(doc, names) <==> e in doc && e.name in names
  {
    SelectMembers(doc, (e: Element) => e.name in names);
  }

  lemma CssAll(doc: Document, names: set<string>)
    requires forall i :: 0 <= i < |doc| ==> doc[i].name in names
    ensures Css(doc, names) == doc
  {
    SelectAll(doc, (e: Element) => e.name in names);
  }

  /** `nodes.map { |n| n[key] }`. */
  function AttrValues(nodes: seq<Element>, key: string): seq<Option<string>> {
    seq(|nodes|, i requires 0 <= i < |nodes| => Attr(nodes[i], key))
  }

  /** One value per node, in node order: the node's attribute `key`, or nil. */
  lemma AttrValuesSpec(nodes: seq<Element>, key: string)
    ensures |AttrValues(nodes, key)| == |nodes|
    ensures forall i :: 0 <= i < |nodes| ==> AttrValues(nodes, key)[i] == Attr(nodes[i], key)
    ensures forall v :: v in AttrValues(nodes, key) <==> exists e :: e in nodes && Attr(e, key) == v
  {
    AttrValuesMembers(nodes, key);
  }

  lemma AttrValuesMembers(nodes: seq<Element>, key: string)
    ensures forall v :: v in AttrValues(nodes, key) <==> exists e :: e in nodes && Attr(e, key) == v
  {
    var r := AttrValues(nodes, key);
    forall v | v in r ensures exists e :: e in nodes && Attr(e, key) == v {
      var i :| 0 <= i < |r| && r[i] == v;
      assert nodes[i] in nodes;
    }
    forall e | e in nodes ensures Attr(e, key) in r {
      var i :| 0 <= i < |nodes| && nodes[i] == e;
      assert r[i] == Attr(e, key);
    }
  }
}
