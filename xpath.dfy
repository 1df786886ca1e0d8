/**
 * Element addressing, shared verbatim by polly.js and parrot.js
 * (`getElementXPath`, `getElementTreeXPath`, `getElementByXPath`).
 *
 * An element with a non-empty `id` is addressed by an id lookup (the
 * expression that selects every element whose id attribute is that id); any other
 * element by an absolute XPath 1.0 location path of `tag` or `tag[n]` steps,
 * root first (abbreviated syntax, section 2.5 of the XPath 1.0
 * recommendation).  The resolver is modelled for exactly these two shapes.
 */
module XPath {

  import opened Wrappers
  import opened Dom
  import Js

  /** One location step `tag` (index None) or `tag[n]`. */
  datatype Segment = Segment(tag: string, index: Option<nat>)

  datatype Address =
    | IdAddress(id: string)              // //*[@id="id"]
    | TreeAddress(segments: seq<Segment>) // /tag/tag[n]/...

  // ---------------------------------------------------------------------
  // Encoding: element -> address
  // ---------------------------------------------------------------------

  /** The encoder counts a preceding sibling when it is not a doctype and has the element's node name. */
  predicate CountedAs(sibling: Node, name: string) {
    sibling.nodeType != DOCUMENT_TYPE_NODE && sibling.nodeName == name
  }

  function SameNameCount(s: seq<Node>, name: string): nat
    decreases s
  {
    if s == [] then 0 else (if CountedAs(s[0], name) then 1 else 0) + SameNameCount(s[1..], name)
  }

  /** The segment for child `k` among the siblings `cs`. */
  function SegmentOf(cs: seq<Node>, k: nat): Segment
    requires k < |cs|
  {
    var index := SameNameCount(cs[..k], cs[k].nodeName);
    Segment(Lower(cs[k].nodeName), if index == 0 then None else Some(index + 1))
  }

  /**
   * The segments `getElementTreeXPath` collects walking up from the node at
   * `loc` while the node is an element; the root has no parent and no siblings.
   */
  function TreeSegments(doc: Node, loc: Loc): (r: seq<Segment>)
    requires ValidLoc(doc, loc)
    ensures |r| > 0 <==> IsElement(NodeAt(doc, loc))
    ensures |r| > 0 ==> r[|r| - 1].tag == Lower(NodeAt(doc, loc).nodeName)
    decreases |loc|
  {
    if !IsElement(NodeAt(doc, loc)) then []
    else if loc == [] then [Segment(Lower(doc.nodeName), None)]
    else
      ParentAt(doc, loc);
      TreeSegments(doc, Parent(loc)) + [SegmentOf(NodeAt(doc, Parent(loc)).children, Last(loc))]
  }

  /**
   * The encoder never writes an index 0 or 1: the first element with its
   * name gets a bare `tag` step, the others `tag[n]` with n at least 2.
   */
  lemma {:induction false} TreeSegmentsIndices(doc: Node, loc: Loc, i: nat)
    requires ValidLoc(doc, loc) && i < |TreeSegments(doc, loc)|
    ensures TreeSegments(doc, loc)[i].index.None? || TreeSegments(doc, loc)[i].index.value >= 2
    decreases |loc|
  {
    if loc != [] && i < |TreeSegments(doc, loc)| - 1 {
      ParentAt(doc, loc);
      TreeSegmentsIndices(doc, Parent(loc), i);
    }
  }

  /** `getElementTreeXPath`: the path, or null when no segment was collected. */
  function TreePath(doc: Node, loc: Loc): (r: Option<seq<Segment>>)
    requires ValidLoc(doc, loc)
    ensures r.Some? <==> IsElement(NodeAt(doc, loc))
    ensures r.Some? ==> |r.value| > 0 && r.value == TreeSegments(doc, loc)
  {
    var segs := TreeSegments(doc, loc);
    if |segs| > 0 then Some(segs) else None
  }

  /** `getElementXPath`: an id lookup for an element with a non-empty id, otherwise the tree path. */
  function ElementXPath(doc: Node, loc: Loc): (r: Option<Address>)
    requires ValidLoc(doc, loc)
    ensures r.None? <==> !IsElement(NodeAt(doc, loc))
    ensures IsElement(NodeAt(doc, loc)) && NodeAt(doc, loc).id != "" ==> r == Some(IdAddress(NodeAt(doc, loc).id))
    ensures IsElement(NodeAt(doc, loc)) && NodeAt(doc, loc).id == "" ==> r == Some(TreeAddress(TreeSegments(doc, loc)))
  {
    var n := NodeAt(doc, loc);
    if IsElement(n) && n.id != "" then Some(IdAddress(n.id))
    else match TreePath(doc, loc)
      case Some(segs) => Some(TreeAddress(segs))
      case None => None
  }

  /** The inner loop of `getElementTreeXPath`: previous siblings of `cs[k]` with its name, doctypes skipped. */
  method PrecedingSameName(cs: seq<Node>, k: nat) returns (index: nat)
    requires k < |cs|
    ensures index == SameNameCount(cs[..k], cs[k].nodeName)
    ensures index <= k
  {
    index := 0;
    var j := k;
    while j > 0
      invariant 0 <= j <= k
      invariant index == SameNameCount(cs[j..k], cs[k].nodeName)
      invariant index <= k - j
    {
      j := j - 1;
      assert cs[j..k][1..] == cs[j + 1..k];
      var sibling := cs[j];
      if sibling.nodeType == DOCUMENT_TYPE_NODE {
        continue;
      }
      if sibling.nodeName == cs[k].nodeName {
        index := index + 1;
      }
    }
    assert cs[0..k] == cs[..k];
  }

  /** `getElementTreeXPath`: walk up through the elements, prepending one segment per level. */
  method GetElementTreeXPath(doc: Node, loc: Loc) returns (r: Option<seq<Segment>>)
    requires ValidLoc(doc, loc)
    ensures r == TreePath(doc, loc)
    ensures r.Some? <==> IsElement(NodeAt(doc, loc))
  {
    var paths: seq<Segment> := [];
    var element: Option<Loc> := Some(loc);
    while element.Some? && IsElement(NodeAt(doc, element.value))
      invariant element.Some? ==> ValidLoc(doc, element.value)
      invariant element.Some? ==> TreeSegments(doc, loc) == TreeSegments(doc, element.value) + paths
      invariant element.None? ==> TreeSegments(doc, loc) == paths
      invariant IsElement(NodeAt(doc, loc)) <==> |paths| > 0 || (element.Some? && IsElement(NodeAt(doc, element.value)))
      decreases if element.Some? then |element.value| + 1 else 0
    {
      var e := element.value;
      var index := 0;
      if e != [] {
        ParentAt(doc, e);
        index := PrecedingSameName(NodeAt(doc, Parent(e)).children, Last(e));
      }
      var tagName := Lower(NodeAt(doc, e).nodeName);
      var pathIndex := if index != 0 then Some(index + 1) else None;
      var segment := Segment(tagName, pathIndex);
      if e != [] {
        ghost var above := TreeSegments(doc, Parent(e));
        assert TreeSegments(doc, e) == above + [segment];
        PrependStep(above, segment, paths);
      }
      paths := [segment] + paths;
      element := if e == [] then None else Some(Parent(e));
    }
    assert element.Some? ==> TreeSegments(doc, element.value) == [];
    assert TreeSegments(doc, loc) == paths;
    r := if |paths| > 0 then Some(paths) else None;
  }

  /** Prepending a segment to the collected path is appending it to the path above. */
  lemma PrependStep(above: seq<Segment>, segment: Segment, paths: seq<Segment>)
    ensures (above + [segment]) + paths == above + ([segment] + paths)
  {
  }

  /** `getElementXPath`. */
  method GetElementXPath(doc: Node, loc: Loc) returns (r: Option<Address>)
    requires ValidLoc(doc, loc)
    ensures r == ElementXPath(doc, loc)
    ensures IsElement(NodeAt(doc, loc)) && NodeAt(doc, loc).id != "" ==> r == Some(IdAddress(NodeAt(doc, loc).id))
    ensures r.None? <==> !IsElement(NodeAt(doc, loc))
  {
    var element := NodeAt(doc, loc);
    if IsElement(element) && element.id != "" {
      r := Some(IdAddress(element.id));
    } else {
      var p := GetElementTreeXPath(doc, loc);
      r := if p.Some? then Some(TreeAddress(p.value)) else None;
    }
  }

  // ---------------------------------------------------------------------
  // Resolution: address -> element
  // ---------------------------------------------------------------------

  /** The XPath name test of step `tag` in an HTML document. */
  predicate Matches(n: Node, tag: string) {
    IsElement(n) && Lower(n.nodeName) == tag
  }

  function MatchCount(s: seq<Node>, tag: string): nat
    decreases s
  {
    if s == [] then 0 else (if Matches(s[0], tag) then 1 else 0) + MatchCount(s[1..], tag)
  }

  /**
   * Child `k` of `cs` passes step `seg`: the name test and, when written, the
   * position predicate `[n]`, which counts only the children passing the name test.
   */
  predicate StepSelects(cs: seq<Node>, seg: Segment, k: nat) {
    k < |cs| && Matches(cs[k], seg.tag) &&
    (seg.index.Some? ==> MatchCount(cs[..k], seg.tag) + 1 == seg.index.value)
  }

  /** The location path `segs`, evaluated from `n`, selects the node at `l` (relative to `n`). */
  predicate Selects(n: Node, segs: seq<Segment>, l: Loc)
    decreases segs
  {
    if segs == [] then l == []
    else l != [] && StepSelects(n.children, segs[0], l[0]) && Selects(n.children[l[0]], segs[1..], l[1..])
  }

  /** Document order: an ancestor comes before its descendants, and earlier siblings' subtrees first. */
  predicate Before(a: Loc, b: Loc)
    decreases a
  {
    b != [] && (a == [] || a[0] < b[0] || (a[0] == b[0] && Before(a[1..], b[1..])))
  }

  /**
   * The depth-first search for the first node in document order that the
   * path `segs` selects below `n`, trying the children from `from` on: a
   * child passing the first step is entered, and when nothing below it is
   * selected the search goes on with its next sibling.
   */
  function Walk(n: Node, segs: seq<Segment>, from: nat): (r: Option<Loc>)
    ensures r.Some? ==> ValidLoc(n, r.value) && |r.value| == |segs|
    decreases |segs|, |n.children| - from
  {
    if segs == [] then Some([])
    else if from >= |n.children| then None
    else
      var below := if StepSelects(n.children, segs[0], from) then Walk(n.children[from], segs[1..], 0) else None;
      match below
      case Some(l) =>
        assert ([from] + l)[1..] == l;
        Some([from] + l)
      case None => Walk(n, segs, from + 1)
  }

  /** `document.evaluate` of a location path, first ordered node; the location found is relative to `n`. */
  function ResolveSegments(n: Node, segs: seq<Segment>): (r: Option<Loc>)
    ensures r.Some? ==> ValidLoc(n, r.value) && |r.value| == |segs|
  {
    Walk(n, segs, 0)
  }

  /**
   * The first element strictly below `n`, in document order, whose `id` is
   * `x`, looking only at children `from` onwards.
   */
  function FindId(n: Node, x: string, from: nat): (r: Option<Loc>)
    ensures r.Some? ==> ValidLoc(n, r.value) && r.value != [] && r.value[0] >= from
    ensures r.Some? ==> IsElement(NodeAt(n, r.value)) && NodeAt(n, r.value).id == x
    decreases n, |n.children| - from
  {
    if from >= |n.children| then None
    else
      var c := n.children[from];
      if IsElement(c) && c.id == x then Some([from])
      else match FindId(c, x, 0)
        case Some(l) =>
          assert ([from] + l)[1..] == l;
          Some([from] + l)
        case None => FindId(n, x, from + 1)
  }


  /**
   * `getElementByXPath`, for the addresses the encoder produces: the first
   * node in document order that the address selects; null resolves to nothing.
   */
  function Resolve(doc: Node, a: Option<Address>): (r: Option<Loc>)
    ensures r.Some? ==> ValidLoc(doc, r.value)
    ensures a.None? ==> r.None?
  {
    match a
    case None => None
    case Some(IdAddress(x)) => FindId(doc, x, 0)
    case Some(TreeAddress(segs)) => ResolveSegments(doc, segs)
  }

  // ---------------------------------------------------------------------
  // Lemmas
  // ---------------------------------------------------------------------

  lemma {:induction false} MatchCountAppend(a: seq<Node>, b: seq<Node>, tag: string)
    ensures MatchCount(a + b, tag) == MatchCount(a, tag) + MatchCount(b, tag)
    decreases a
  {
    if a == [] {
      assert a + b == b;
    } else {
      assert (a + b)[0] == a[0];
      assert (a + b)[1..] == a[1..] + b;
      MatchCountAppend(a[1..], b, tag);
    }
  }

  /** A matching child raises the count of matches before every later position. */
  lemma MatchCountGrows(cs: seq<Node>, tag: string, j: nat, k: nat)
    requires j < k <= |cs| && Matches(cs[j], tag)
    ensures MatchCount(cs[..j], tag) < MatchCount(cs[..k], tag)
  {
    assert cs[..k] == cs[..j] + cs[j..k];
    MatchCountAppend(cs[..j], cs[j..k], tag);
    assert cs[j..k][0] == cs[j];
  }

  /** Two matching children with the same number of matches before them are the same child. */
  lemma MatchPositionUnique(cs: seq<Node>, tag: string, j: nat, k: nat)
    requires j < |cs| && k < |cs| && Matches(cs[j], tag) && Matches(cs[k], tag)
    requires MatchCount(cs[..j], tag) == MatchCount(cs[..k], tag)
    ensures j == k
  {
    if j < k {
      MatchCountGrows(cs, tag, j, k);
    } else if k < j {
      MatchCountGrows(cs, tag, k, j);
    }
  }

  /**
   * Among consistently named siblings, the encoder's count of preceding
   * same-name siblings is the count of preceding siblings that pass the
   * element's name test.
   */
  lemma {:induction false} SameNameCountIsMatchCount(s: seq<Node>, d: Node)
    requires IsElement(d)
    requires forall i :: 0 <= i < |s| ==> NamedApart(s[i], d)
    ensures SameNameCount(s, d.nodeName) == MatchCount(s, Lower(d.nodeName))
    decreases s
  {
    if s != [] {
      assert NamedApart(s[0], d);
      SameNameCountIsMatchCount(s[1..], d);
    }
  }

  /** Every node the path selects is a node of the subtree, one level deep per step. */
  lemma {:induction false} SelectsValid(n: Node, segs: seq<Segment>, l: Loc)
    requires Selects(n, segs, l)
    ensures ValidLoc(n, l) && |l| == |segs|
    decreases segs
  {
    if segs != [] {
      SelectsValid(n.children[l[0]], segs[1..], l[1..]);
    }
  }

  /** A node passing one more step below a selected node is selected by the longer path. */
  lemma {:induction false} SelectsExtend(n: Node, segs: seq<Segment>, s: Segment, p: Loc, k: nat)
    requires Selects(n, segs, p) && ValidLoc(n, p) && StepSelects(NodeAt(n, p).children, s, k)
    ensures Selects(n, segs + [s], p + [k])
    decreases segs
  {
    if segs == [] {
      assert segs + [s] == [s] && p + [k] == [k];
      assert [s][1..] == [] && [k][1..] == [];
    } else {
      assert (segs + [s])[0] == segs[0] && (segs + [s])[1..] == segs[1..] + [s];
      assert (p + [k])[0] == p[0] && (p + [k])[1..] == p[1..] + [k];
      SelectsExtend(n.children[p[0]], segs[1..], s, p[1..], k);
    }
  }

  /** A node selected by a path with one more step is a child, passing that step, of a node the shorter path selects. */
  lemma {:induction false} SelectsParent(n: Node, segs: seq<Segment>, s: Segment, l: Loc)
    requires Selects(n, segs + [s], l)
    ensures l != [] && ValidLoc(n, Parent(l)) && Selects(n, segs, Parent(l))
    ensures StepSelects(NodeAt(n, Parent(l)).children, s, Last(l))
    decreases segs
  {
    assert (segs + [s])[0] == if segs == [] then s else segs[0];
    if segs == [] {
      assert segs + [s] == [s] && [s][1..] == [];
      assert l == [l[0]];
    } else {
      assert (segs + [s])[1..] == segs[1..] + [s];
      var c := n.children[l[0]];
      SelectsParent(c, segs[1..], s, l[1..]);
      assert Parent(l) == [l[0]] + Parent(l[1..]);
      assert Parent(l)[0] == l[0] && Parent(l)[1..] == Parent(l[1..]);
      SelectsValid(c, segs[1..], Parent(l[1..]));
    }
  }

  /** The search answers with a node the path selects, found at or after child `from`. */
  lemma {:induction false} WalkSelects(n: Node, segs: seq<Segment>, from: nat)
    requires Walk(n, segs, from).Some?
    ensures Selects(n, segs, Walk(n, segs, from).value)
    ensures segs != [] ==> Walk(n, segs, from).value[0] >= from
    decreases |segs|, |n.children| - from
  {
    if segs != [] {
      var cs := n.children;
      if StepSelects(cs, segs[0], from) && Walk(cs[from], segs[1..], 0).Some? {
        var l := Walk(cs[from], segs[1..], 0).value;
        WalkSelects(cs[from], segs[1..], 0);
        assert Walk(n, segs, from).value == [from] + l;
        assert ([from] + l)[1..] == l;
      } else {
        WalkSelects(n, segs, from + 1);
      }
    }
  }

  /**
   * Whenever the path selects a node at or after child `from`, the search
   * finds one, and the one it finds is that node or comes before it in
   * document order.
   */
  lemma {:induction false} WalkFindsFirst(n: Node, segs: seq<Segment>, from: nat, l: Loc)
    requires Selects(n, segs, l) && (segs != [] ==> l[0] >= from)
    ensures Walk(n, segs, from).Some?
    ensures Walk(n, segs, from).value == l || Before(Walk(n, segs, from).value, l)
    decreases |segs|, |n.children| - from
  {
    if segs != [] {
      var cs := n.children;
      if from == l[0] {
        WalkFindsFirst(cs[from], segs[1..], 0, l[1..]);
        var r := Walk(cs[from], segs[1..], 0).value;
        assert Walk(n, segs, from).value == [from] + r;
        assert ([from] + r)[0] == from && ([from] + r)[1..] == r;
        if r == l[1..] {
          assert [from] + r == l;
        }
      } else if StepSelects(cs, segs[0], from) && Walk(cs[from], segs[1..], 0).Some? {
        var r := Walk(cs[from], segs[1..], 0).value;
        assert Walk(n, segs, from).value == [from] + r;
        assert ([from] + r)[0] == from;
      } else {
        WalkFindsFirst(n, segs, from + 1, l);
      }
    }
  }

  /** Every node the resolver finds is selected by the path in the XPath reading. */
  lemma ResolveSelects(n: Node, segs: seq<Segment>)
    requires ResolveSegments(n, segs).Some?
    ensures Selects(n, segs, ResolveSegments(n, segs).value)
  {
    WalkSelects(n, segs, 0);
  }

  /**
   * Whenever the path selects some node, the resolver finds a node, and it is
   * the first selected one in document order: the node `document.evaluate`
   * returns when asked for the first ordered node.
   */
  lemma ResolveIsFirstSelected(n: Node, segs: seq<Segment>, l: Loc)
    requires Selects(n, segs, l)
    ensures ResolveSegments(n, segs).Some?
    ensures ResolveSegments(n, segs).value == l || Before(ResolveSegments(n, segs).value, l)
  {
    WalkFindsFirst(n, segs, 0, l);
  }

  /** Document order is a strict order: no two locations each come before the other. */
  lemma {:induction false} BeforeAsymmetric(a: Loc, b: Loc)
    requires Before(a, b)
    ensures !Before(b, a)
    decreases a
  {
    if a != [] && a[0] == b[0] {
      BeforeAsymmetric(a[1..], b[1..]);
    }
  }

  /** Order between two nodes at the same depth carries over to their children. */
  lemma {:induction false} BeforeBelow(p: Loc, q: Loc, a: nat, b: nat)
    requires |p| == |q| && Before(p, q)
    ensures Before(p + [a], q + [b])
    decreases p
  {
    assert (p + [a])[0] == p[0] && (q + [b])[0] == q[0];
    if p[0] == q[0] {
      assert (p + [a])[1..] == p[1..] + [a] && (q + [b])[1..] == q[1..] + [b];
      BeforeBelow(p[1..], q[1..], a, b);
    }
  }

  /** An earlier sibling comes first. */
  lemma {:induction false} BeforeSibling(p: Loc, a: nat, b: nat)
    requires a < b
    ensures Before(p + [a], p + [b])
    decreases p
  {
    if p == [] {
      assert p + [a] == [a] && p + [b] == [b];
    } else {
      assert (p + [a])[0] == p[0] && (p + [b])[0] == p[0];
      assert (p + [a])[1..] == p[1..] + [a] && (p + [b])[1..] == p[1..] + [b];
      BeforeSibling(p[1..], a, b);
    }
  }

  /**
   * The step the encoder writes for an element passes that element, and no
   * earlier sibling: without an index the element is the first with its
   * name, and with one the index counts exactly the earlier ones.
   */
  lemma SegmentSelects(cs: seq<Node>, k: nat, j: nat)
    requires SiblingNamesConsistent(cs) && k < |cs| && IsElement(cs[k])
    ensures StepSelects(cs, SegmentOf(cs, k), k)
    ensures StepSelects(cs, SegmentOf(cs, k), j) ==> k <= j
  {
    forall i | 0 <= i < k
      ensures NamedApart(cs[..k][i], cs[k])
    {
      assert cs[..k][i] == cs[i];
    }
    SameNameCountIsMatchCount(cs[..k], cs[k]);
    if j < k && Matches(cs[j], SegmentOf(cs, k).tag) {
      MatchCountGrows(cs, SegmentOf(cs, k).tag, j, k);
    }
  }

  /** In a document the tree path of an element has one step per level and selects the element. */
  lemma {:induction false} TreePathSelects(doc: Node, loc: Loc)
    requires Document(doc) && ValidLoc(doc, loc) && IsElement(NodeAt(doc, loc))
    ensures loc != [] && |TreeSegments(doc, loc)| == |loc|
    ensures Selects(doc, TreeSegments(doc, loc), loc)
    decreases |loc|
  {
    AncestorsAreElements(doc, loc);
    var p := Parent(loc);
    if p != [] {
      TreePathSelects(doc, p);
    } else {
      assert TreeSegments(doc, p) == [];
    }
    ParentAt(doc, loc);
    var cs := NodeAt(doc, p).children;
    var seg := SegmentOf(cs, Last(loc));
    assert TreeSegments(doc, loc) == TreeSegments(doc, p) + [seg];
    WellFormedAt(doc, p);
    SegmentSelects(cs, Last(loc), Last(loc));
    SelectsExtend(doc, TreeSegments(doc, p), seg, p, Last(loc));
    assert p + [Last(loc)] == loc;
  }

  /**
   * Every node the tree path of an element selects is the element itself or
   * comes after it in document order.
   */
  lemma {:induction false} TreePathFirstInDocumentOrder(doc: Node, loc: Loc, other: Loc)
    requires Document(doc) && ValidLoc(doc, loc) && IsElement(NodeAt(doc, loc))
    requires Selects(doc, TreeSegments(doc, loc), other)
    ensures other == loc || Before(loc, other)
    decreases |loc|
  {
    AncestorsAreElements(doc, loc);
    var p := Parent(loc);
    ParentAt(doc, loc);
    var cs := NodeAt(doc, p).children;
    var seg := SegmentOf(cs, Last(loc));
    assert TreeSegments(doc, loc) == TreeSegments(doc, p) + [seg];
    SelectsParent(doc, TreeSegments(doc, p), seg, other);
    var q := Parent(other);
    SelectsValid(doc, TreeSegments(doc, p), q);
    if p != [] {
      TreePathSelects(doc, p);
      TreePathFirstInDocumentOrder(doc, p, q);
    } else {
      assert TreeSegments(doc, p) == [];
    }
    assert loc == p + [Last(loc)] && other == q + [Last(other)];
    if q == p {
      WellFormedAt(doc, p);
      SegmentSelects(cs, Last(loc), Last(other));
      if Last(loc) < Last(other) {
        BeforeSibling(p, Last(loc), Last(other));
      }
    } else {
      BeforeBelow(p, q, Last(loc), Last(other));
    }
  }

  /**
   * Round trip of the structural path: in a document, resolving the path the
   * encoder builds for an element yields that element.
   */
  lemma TreePathRoundTrip(doc: Node, loc: Loc)
    requires Document(doc) && ValidLoc(doc, loc) && IsElement(NodeAt(doc, loc))
    ensures TreePath(doc, loc) == Some(TreeSegments(doc, loc))
    ensures ResolveSegments(doc, TreeSegments(doc, loc)) == Some(loc)
  {
    var segs := TreeSegments(doc, loc);
    TreePathSelects(doc, loc);
    ResolveIsFirstSelected(doc, segs, loc);
    var r := ResolveSegments(doc, segs).value;
    ResolveSelects(doc, segs);
    TreePathFirstInDocumentOrder(doc, loc, r);
    if r != loc {
      BeforeAsymmetric(r, loc);
    }
  }

  /**
   * `FindId` returns the first element in document order, from child `from`
   * on, whose id is `x`: it finds one whenever one exists, and none precedes it.
   */
  lemma {:induction false} FindIdFirst(n: Node, x: string, from: nat, l: Loc)
    requires ValidLoc(n, l) && l != [] && l[0] >= from
    requires IsElement(NodeAt(n, l)) && NodeAt(n, l).id == x
    ensures FindId(n, x, from).Some?
    ensures FindId(n, x, from).value == l || Before(FindId(n, x, from).value, l)
    decreases n, |n.children| - from
  {
    var c := n.children[from];
    if IsElement(c) && c.id == x {
      if l[0] == from && |l| > 1 {
        assert Before([], l[1..]);
      }
    } else if l[0] == from {
      assert l[1..] != [];
      FindIdFirst(c, x, 0, l[1..]);
      var r := FindId(c, x, 0).value;
      assert FindId(n, x, from).value == [from] + r;
      assert ([from] + r)[1..] == r;
    } else {
      FindIdFirst(n, x, from + 1, l);
      match FindId(c, x, 0)
      case Some(r) =>
        assert ([from] + r)[0] == from;
      case None =>
    }
  }

  /** Whether `x` is the id of no element of `doc` other than the one at `loc`. */
  ghost predicate IdOnlyAt(doc: Node, x: string, loc: Loc) {
    forall l :: ValidLoc(doc, l) && l != [] && IsElement(NodeAt(doc, l)) && NodeAt(doc, l).id == x ==> l == loc
  }

  /**
   * The headline round trip: on an unchanged document, resolving the address
   * `getElementXPath` computed for an element yields that element, provided
   * its id (if it has one) is carried by no other element.
   */
  lemma AddressRoundTrip(doc: Node, loc: Loc)
    requires Document(doc) && ValidLoc(doc, loc) && IsElement(NodeAt(doc, loc))
    requires NodeAt(doc, loc).id != "" ==> IdOnlyAt(doc, NodeAt(doc, loc).id, loc)
    ensures ElementXPath(doc, loc).Some?
    ensures Resolve(doc, ElementXPath(doc, loc)) == Some(loc)
  {
    var x := NodeAt(doc, loc).id;
    if x != "" {
      assert loc != [];
      FindIdFirst(doc, x, 0, loc);
    } else {
      TreePathRoundTrip(doc, loc);
    }
  }

}
