/**
 * The view of lxml's element tree that the LEI record mapping relies on:
 * qualified tags, element values, `find`/`findtext` by plain tag name, the
 * namespace-stripping transform, and a mutable tree whose tags can be
 * rewritten in place.
 */
module Xml {
  import opened Wrappers

  /** An element tag: an optional namespace URI and a local name (lxml writes it "{ns}local"). */
  datatype QName = QName(ns: Option<string>, local: string)

  /** A tag with no namespace, which is what a plain name such as "LEI" denotes in `find`. */
  function Plain(local: string): QName {
    QName(None, local)
  }

  /** `etree.QName(elem).localname` as a tag: the namespace is dropped, the local name kept. */
  function Local(q: QName): (r: QName)
    ensures r.ns.None? && r.local == q.local
  {
    Plain(q.local)
  }

  /** An element: its tag, its text (absent when it has none) and its child elements in document order. */
  datatype Element = Element(tag: QName, text: Option<string>, children: seq<Element>)

  /** The position of the first element of `cs` whose tag is exactly the plain name `name`. */
  function FirstWithTag(cs: seq<Element>, name: string): (r: Option<nat>)
    ensures r.Some? ==> r.value < |cs| && cs[r.value].tag == Plain(name)
  {
    if cs == [] then None
    else if cs[0].tag == Plain(name) then Some(0)
    else match FirstWithTag(cs[1..], name)
      case None => None
      case Some(k) => Some(k + 1)
  }

  /** lxml's `e.find(name)`: the first direct child tagged `name` (without a namespace), if any. */
  function Find(e: Element, name: string): (r: Option<Element>)
    ensures r.Some? ==> r.value.tag == Plain(name)
  {
    match FirstWithTag(e.children, name)
    case None => None
    case Some(k) => Some(e.children[k])
  }

  /** The position `FirstWithTag` finds is the first one tagged `name`; when it finds none, no element is. */
  lemma {:induction false} FirstWithTagIsFirst(cs: seq<Element>, name: string)
    ensures FirstWithTag(cs, name).Some? ==>
            forall j :: 0 <= j < FirstWithTag(cs, name).value ==> cs[j].tag != Plain(name)
    ensures FirstWithTag(cs, name).None? ==> forall j :: 0 <= j < |cs| ==> cs[j].tag != Plain(name)
    decreases |cs|
  {
    if cs != [] && cs[0].tag != Plain(name) {
      FirstWithTagIsFirst(cs[1..], name);
      forall j | 1 <= j < |cs|
        ensures cs[j] == cs[1..][j - 1]
      {
      }
    }
  }

  /**
   * `find` fails exactly when no child carries the plain tag `name`; otherwise
   * it yields the first child that does.
   */
  lemma FindIsFirst(e: Element, name: string)
    ensures Find(e, name).None? <==> forall j :: 0 <= j < |e.children| ==> e.children[j].tag != Plain(name)
    ensures Find(e, name).Some? ==>
            exists k :: 0 <= k < |e.children| && e.children[k] == Find(e, name).value &&
                        e.children[k].tag == Plain(name) &&
                        forall j :: 0 <= j < k ==> e.children[j].tag != Plain(name)
  {
    FirstWithTagIsFirst(e.children, name);
  }

  /**
   * lxml's `e.findtext(name)`: absent when no child is tagged `name`; otherwise
   * the first such child's text, which is the empty string when it has none.
   */
  function FindText(e: Element, name: string): (r: Option<string>)
    ensures r.Some? <==> Find(e, name).Some?
    ensures r.Some? && Find(e, name).value.text.None? ==> r.value == ""
    ensures r.Some? && Find(e, name).value.text.Some? ==> r.value == Find(e, name).value.text.value
  {
    match Find(e, name)
    case None => None
    case Some(c) => Some(c.text.GetOr(""))
  }

  /** The pure effect of rewriting every tag of a tree to its local name. */
  function Strip(e: Element): (r: Element)
    decreases e
  {
    Element(Local(e.tag), e.text,
      seq(|e.children|, j requires 0 <= j < |e.children| => Strip(e.children[j])))
  }

  /** No tag anywhere in the tree carries a namespace. */
  predicate NoNamespaces(e: Element)
    decreases e
  {
    e.tag.ns.None? && forall j :: 0 <= j < |e.children| ==> NoNamespaces(e.children[j])
  }

  /**
   * `f` is `e` with namespaces removed, stated node by node: every tag of `f`
   * has no namespace and the local name of the matching tag of `e`, and texts,
   * child counts and child order agree.
   */
  predicate Normalized(e: Element, f: Element)
    decreases e
  {
    && f.tag.ns.None?
    && f.tag.local == e.tag.local
    && f.text == e.text
    && |f.children| == |e.children|
    && forall j :: 0 <= j < |e.children| ==> Normalized(e.children[j], f.children[j])
  }

  /** `Strip` is exactly the node-by-node normalisation: it satisfies it, and nothing else does. */
  lemma {:induction false} NormalizedIffStrip(e: Element, f: Element)
    ensures Normalized(e, f) <==> f == Strip(e)
    decreases e
  {
    if Normalized(e, f) {
      forall j | 0 <= j < |e.children|
        ensures f.children[j] == Strip(e).children[j]
      {
        NormalizedIffStrip(e.children[j], f.children[j]);
      }
      assert f.children == Strip(e).children;
    }
    if f == Strip(e) {
      forall j | 0 <= j < |e.children|
        ensures Normalized(e.children[j], f.children[j])
      {
        NormalizedIffStrip(e.children[j], f.children[j]);
      }
    }
  }

  /** After stripping, no tag of the tree has a namespace. */
  lemma {:induction false} StripRemovesNamespaces(e: Element)
    ensures NoNamespaces(Strip(e))
    decreases e
  {
    forall j | 0 <= j < |e.children|
      ensures NoNamespaces(Strip(e).children[j])
    {
      StripRemovesNamespaces(e.children[j]);
    }
  }

  /** The trees that stripping leaves unchanged are exactly those without namespaces. */
  lemma {:induction false} StripFixpoints(e: Element)
    ensures Strip(e) == e <==> NoNamespaces(e)
    decreases e
  {
    forall j | 0 <= j < |e.children|
      ensures Strip(e.children[j]) == e.children[j] <==> NoNamespaces(e.children[j])
    {
      StripFixpoints(e.children[j]);
    }
    if NoNamespaces(e) {
      assert Strip(e).children == e.children;
    }
    if Strip(e) == e {
      forall j | 0 <= j < |e.children|
        ensures NoNamespaces(e.children[j])
      {
        assert Strip(e).children[j] == e.children[j];
      }
    }
  }

  /** Stripping twice is stripping once. */
  lemma StripIdempotent(e: Element)
    ensures Strip(Strip(e)) == Strip(e)
  {
    StripRemovesNamespaces(e);
    StripFixpoints(Strip(e));
  }

  /** After stripping, `find(name)` picks the first child whose LOCAL name is `name`, whatever its namespace was. */
  lemma FindAfterStrip(e: Element, name: string)
    ensures Find(Strip(e), name).None? <==>
            forall j :: 0 <= j < |e.children| ==> e.children[j].tag.local != name
    ensures Find(Strip(e), name).Some? ==>
            exists k :: 0 <= k < |e.children| && e.children[k].tag.local == name &&
                        Find(Strip(e), name).value == Strip(e.children[k]) &&
                        forall j :: 0 <= j < k ==> e.children[j].tag.local != name
  {
    var s := Strip(e);
    FindIsFirst(s, name);
    assert forall j :: 0 <= j < |e.children| ==> s.children[j] == Strip(e.children[j]);
  }

  // ---------------------------------------------------------------------------
  // A tree whose tags can be rewritten in place.

  /**
   * Shape of a node table with `n` nodes: node 0 is the root, and every child
   * index of node `i` names a later node. Sharing is deliberately not ruled
   * out (a node listed twice, or under two parents): a parsed tree never has
   * it, and nothing proved here depends on its absence, since the tag rewrite
   * treats every node alike and `Clear` touches only node 0, which is no
   * node's child.
   */
  predicate TableOk(n: nat, texts: seq<Option<string>>, kids: seq<seq<nat>>) {
    && n > 0
    && |texts| == n
    && |kids| == n
    && forall i, j :: 0 <= i < n && 0 <= j < |kids[i]| ==> i < kids[i][j] < n
  }

  /** The element rooted at node `i` of a node table. */
  function Build(tags: seq<QName>, texts: seq<Option<string>>, kids: seq<seq<nat>>, i: nat): Element
    requires TableOk(|tags|, texts, kids) && i < |tags|
    decreases |tags| - i
  {
    Element(tags[i], texts[i],
      seq(|kids[i]|, j requires 0 <= j < |kids[i]| => Build(tags, texts, kids, kids[i][j])))
  }

  /** Every tag of a table replaced by its local name. */
  function LocalTags(tags: seq<QName>): (r: seq<QName>)
    ensures |r| == |tags|
    ensures forall k :: 0 <= k < |tags| ==> r[k] == Local(tags[k])
  {
    seq(|tags|, k requires 0 <= k < |tags| => Local(tags[k]))
  }

  /** Rewriting every tag of the table to its local name strips the tree the table holds. */
  lemma {:induction false} BuildStrip(tags: seq<QName>, texts: seq<Option<string>>, kids: seq<seq<nat>>, i: nat)
    requires TableOk(|tags|, texts, kids) && i < |tags|
    ensures Build(LocalTags(tags), texts, kids, i) == Strip(Build(tags, texts, kids, i))
    decreases |tags| - i
  {
    var before := Build(tags, texts, kids, i);
    var after := Build(LocalTags(tags), texts, kids, i);
    forall j | 0 <= j < |kids[i]|
      ensures after.children[j] == Strip(before).children[j]
    {
      BuildStrip(tags, texts, kids, kids[i][j]);
    }
    assert after.children == Strip(before).children;
  }

  /**
   * A parsed element tree in memory, held as a node table: node `i` has tag
   * `tags[i]`, text `texts[i]` and the child nodes listed in `kids[i]`; node 0
   * is the element itself.
   */
  class ElementTree {
    const tags: array<QName>
    var texts: seq<Option<string>>
    var kids: seq<seq<nat>>

    predicate Valid()
      reads this
    {
      TableOk(tags.Length, texts, kids)
    }

    /** The element the tree currently holds. */
    function Value(): Element
      reads this, tags
      requires Valid()
    {
      Build(tags[..], texts, kids, 0)
    }

    constructor (tagTable: seq<QName>, textTable: seq<Option<string>>, kidTable: seq<seq<nat>>)
      requires TableOk(|tagTable|, textTable, kidTable)
      ensures Valid() && fresh(tags)
      ensures Value() == Build(tagTable, textTable, kidTable, 0)
    {
      tags := new QName[|tagTable|](k requires 0 <= k < |tagTable| => tagTable[k]);
      texts := textTable;
      kids := kidTable;
      new;
      assert tags[..] == tagTable;
    }

    /** `clear`: the element keeps its tag and loses its text and its children. */
    method Clear()
      requires Valid()
      modifies this
      ensures Valid()
      ensures Value() == Element(old(Value()).tag, None, [])
    {
      texts := texts[0 := None];
      kids := kids[0 := []];
    }
  }
}
