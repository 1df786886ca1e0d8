/**
 * An abstract DOM: a document is a tree of nodes, each with its node type,
 * node name, `id`, attributes and ordered children.  A node is identified by
 * its location, the child indices that lead to it from the document node, so
 * `parentNode` drops the last index and `previousSibling` lowers it by one.
 */
module Dom {

  const ELEMENT_NODE := 1
  const DOCUMENT_NODE := 9
  const DOCUMENT_TYPE_NODE := 10

  datatype Node = Node(
    nodeType: int,
    nodeName: string,
    id: string,
    attributes: map<string, string>,
    children: seq<Node>)

  type Loc = seq<nat>

  predicate IsElement(n: Node) {
    n.nodeType == ELEMENT_NODE
  }

  /** `l` leads from `n` to a node of its subtree. */
  predicate ValidLoc(n: Node, l: Loc)
    decreases l
  {
    l == [] || (l[0] < |n.children| && ValidLoc(n.children[l[0]], l[1..]))
  }

  function NodeAt(n: Node, l: Loc): Node
    requires ValidLoc(n, l)
    decreases l
  {
    if l == [] then n else NodeAt(n.children[l[0]], l[1..])
  }

  function Parent(l: Loc): Loc
    requires l != []
  {
    l[..|l| - 1]
  }

  function Last(l: Loc): nat
    requires l != []
  {
    l[|l| - 1]
  }

  /** Stepping to child `k` of the node at `l`. */
  lemma {:induction false} ChildAt(n: Node, l: Loc, k: nat)
    requires ValidLoc(n, l)
    ensures ValidLoc(n, l + [k]) <==> k < |NodeAt(n, l).children|
    ensures ValidLoc(n, l + [k]) ==> NodeAt(n, l + [k]) == NodeAt(n, l).children[k]
    decreases l
  {
    if l == [] {
      assert l + [k] == [k];
      assert [k][1..] == [];
    } else {
      assert (l + [k])[0] == l[0];
      assert (l + [k])[1..] == l[1..] + [k];
      ChildAt(n.children[l[0]], l[1..], k);
    }
  }

  /** A valid location's parent is valid, and the node is one of its children. */
  lemma ParentAt(n: Node, l: Loc)
    requires l != [] && ValidLoc(n, l)
    ensures ValidLoc(n, Parent(l))
    ensures Last(l) < |NodeAt(n, Parent(l)).children|
    ensures NodeAt(n, l) == NodeAt(n, Parent(l)).children[Last(l)]
  {
    assert l == Parent(l) + [Last(l)];
    PrefixValid(n, l, |l| - 1);
    ChildAt(n, Parent(l), Last(l));
  }

  /** Every prefix of a valid location is valid. */
  lemma {:induction false} PrefixValid(n: Node, l: Loc, i: nat)
    requires ValidLoc(n, l) && i <= |l|
    ensures ValidLoc(n, l[..i])
    decreases l
  {
    if i > 0 {
      assert l[..i][0] == l[0];
      assert l[..i][1..] == l[1..][..i - 1];
      PrefixValid(n.children[l[0]], l[1..], i - 1);
    }
  }

  /** ASCII lower-casing, the part of `toLowerCase()` tag names need. */
  function LowerChar(c: char): char {
    if 'A' <= c <= 'Z' then (c as int + 32) as char else c
  }

  function Lower(s: string): (r: string)
    ensures |r| == |s|
    ensures forall i :: 0 <= i < |s| ==> r[i] == LowerChar(s[i])
  {
    seq(|s|, i requires 0 <= i < |s| => LowerChar(s[i]))
  }

  /**
   * How a document names sibling nodes, as HTML documents do: a node that is
   * neither an element nor a doctype (text "#text", comment "#comment") never
   * carries the node name of its element sibling `d`, and an element sibling
   * whose name agrees with `d`'s after lower-casing has exactly `d`'s name.
   */
  predicate NamedApart(c: Node, d: Node) {
    (c.nodeType != ELEMENT_NODE && c.nodeType != DOCUMENT_TYPE_NODE ==> c.nodeName != d.nodeName) &&
    (IsElement(c) && Lower(c.nodeName) == Lower(d.nodeName) ==> c.nodeName == d.nodeName)
  }

  ghost predicate SiblingNamesConsistent(cs: seq<Node>) {
    forall i, j :: 0 <= i < |cs| && 0 <= j < |cs| && IsElement(cs[j]) ==> NamedApart(cs[i], cs[j])
  }

  /**
   * Below a node: only elements have children, and every family of siblings
   * is named consistently.
   */
  ghost predicate WellFormedBelow(n: Node)
    decreases n
  {
    SiblingNamesConsistent(n.children) &&
    forall k :: 0 <= k < |n.children| ==>
      (n.children[k].children != [] ==> IsElement(n.children[k])) && WellFormedBelow(n.children[k])
  }

  /**
   * A document: the root is the document node and the tree is well formed.
   * Every element is taken to be an HTML element; SVG and MathML elements,
   * whose names are case-sensitive and namespace-qualified, are not modelled.
   */
  ghost predicate Document(doc: Node) {
    doc.nodeType == DOCUMENT_NODE && WellFormedBelow(doc)
  }

  /** Subtrees of a well-formed tree are well formed. */
  lemma {:induction false} WellFormedAt(n: Node, l: Loc)
    requires WellFormedBelow(n) && ValidLoc(n, l)
    ensures WellFormedBelow(NodeAt(n, l))
    decreases l
  {
    if l != [] {
      WellFormedAt(n.children[l[0]], l[1..]);
    }
  }

  /**
   * In a document, every node strictly between the document node and an
   * element is an element: the path up from an element meets no other kind of
   * node before the document node.
   */
  lemma AncestorsAreElements(doc: Node, l: Loc)
    requires Document(doc) && l != [] && ValidLoc(doc, l) && IsElement(NodeAt(doc, l))
    ensures ValidLoc(doc, Parent(l))
    ensures Parent(l) != [] ==> IsElement(NodeAt(doc, Parent(l)))
  {
    ParentAt(doc, l);
    if Parent(l) != [] {
      var p := Parent(l);
      ParentAt(doc, p);
      WellFormedAt(doc, Parent(p));
      assert NodeAt(doc, p) == NodeAt(doc, Parent(p)).children[Last(p)];
    }
  }
}
