/** The tree query of src/htmlParser.ts: a pre-order depth-first search over a
    parsed document that collects the elements whose tag name, `class`
    attribute and listed attributes equal those of a query.

    The document is a finite tree of values. Element identity is not modelled:
    two structurally equal subtrees are equal values, and a result keeps one
    entry per visited element, duplicates included. */
module HtmlParser {
  import opened Results
  import opened Text

  /** A parsed XML node: an element with its tag name, attributes and children
      in document order, or a run of character data. */
  datatype Node =
    | Element(name: string, attributes: map<string, string>, children: seq<Node>)
    | TextNode(content: string)

  type Element = n: Node | n.Element? witness Element("", map[], [])

  /** The element nodes of `ns`, in order. */
  function ElementsOf(ns: seq<Node>): (r: seq<Element>)
    ensures |r| <= |ns|
    ensures forall k :: 0 <= k < |r| ==> r[k] in ns
  {
    if ns == [] then []
    else
      var rest := ElementsOf(ns[1..]);
      if ns[0].Element? then [ns[0]] + rest else rest
  }

  /** `element.getChildren()`: the element children, text left out. */
  function ChildElements(e: Element): (r: seq<Element>)
    ensures forall k :: 0 <= k < |r| ==> r[k] in e.children
  {
    ElementsOf(e.children)
  }

  /** `element.getChildren(name)`: the element children with that tag name. */
  function ChildrenNamed(e: Element, name: string): (r: seq<Element>)
    ensures forall k :: 0 <= k < |r| ==> r[k].name == name && r[k] in e.children
  {
    Named(ChildElements(e), name)
  }

  function Named(es: seq<Element>, name: string): (r: seq<Element>)
    ensures forall k :: 0 <= k < |r| ==> r[k].name == name && r[k] in es
  {
    if es == [] then []
    else
      var rest := Named(es[1..], name);
      assert forall x :: x in es[1..] ==> x in es;
      if es[0].name == name then [es[0]] + rest else rest
  }

  /** `element.getValue()`: the text of every descendant text node, in document order. */
  function TextValue(n: Node): string
    decreases n, 1
  {
    match n
    case TextNode(t) => t
    case Element(_, _, cs) => TextOfChildren(n, |cs|)
  }

  /** The text of the first `k` children of `n`. */
  function TextOfChildren(n: Node, k: nat): string
    requires n.Element? && k <= |n.children|
    decreases n, 0, k
  {
    if k == 0 then "" else TextOfChildren(n, k - 1) + TextValue(n.children[k - 1])
  }

  /** The query: the tag name, an optional exact `class` value and an optional
      list of attribute name/value pairs (a JavaScript Map, in insertion order). */
  datatype ParserQuery = ParserQuery(name: string, className: Option<string>, attrs: Option<seq<(string, string)>>)

  /** The early-exit loop over `q.attrs`: every pair is present with an equal value. */
  predicate MatchAttrs(e: Element, entries: seq<(string, string)>) {
    |entries| == 0
    || (entries[0].0 in e.attributes && e.attributes[entries[0].0] == entries[0].1
        && MatchAttrs(e, entries[1..]))
  }

  /** `matchQuery(node, q)`. */
  predicate MatchQuery(e: Element, q: ParserQuery) {
    && e.name == q.name
    && (q.className.None? || ("class" in e.attributes && e.attributes["class"] == q.className.value))
    && (q.attrs.None? || MatchAttrs(e, q.attrs.value))
  }

  /** The attribute loop accepts exactly when every listed key is on the element
      with the listed value; an empty list imposes nothing. */
  lemma {:induction false} MatchAttrsAll(e: Element, entries: seq<(string, string)>)
    ensures MatchAttrs(e, entries) <==>
      forall k :: 0 <= k < |entries| ==> entries[k].0 in e.attributes && e.attributes[entries[k].0] == entries[k].1
  {
    if |entries| > 0 {
      MatchAttrsAll(e, entries[1..]);
      assert forall k :: 0 < k < |entries| ==> entries[k] == entries[1..][k - 1];
    }
  }

  /** What `matchQuery` demands, constraint by constraint. */
  lemma MatchQueryMeaning(e: Element, q: ParserQuery)
    ensures MatchQuery(e, q) <==>
      && e.name == q.name
      && (match q.className
          case None => true
          case Some(c) => "class" in e.attributes && e.attributes["class"] == c)
      && (match q.attrs
          case None => true
          case Some(entries) =>
            forall k :: 0 <= k < |entries| ==> entries[k].0 in e.attributes && e.attributes[entries[k].0] == entries[k].1)
  {
    if q.attrs.Some? {
      MatchAttrsAll(e, q.attrs.value);
    }
  }

  /** The elements of `es` that match `q`, in order. */
  function Select(es: seq<Element>, q: ParserQuery): (r: seq<Element>)
    ensures |r| <= |es|
  {
    if es == [] then []
    else
      var last := es[|es| - 1];
      Select(es[..|es| - 1], q) + (if MatchQuery(last, q) then [last] else [])
  }

  /** `Select` keeps exactly the matching elements. */
  lemma {:induction false} SelectMembers(es: seq<Element>, q: ParserQuery, x: Element)
    ensures x in Select(es, q) <==> x in es && MatchQuery(x, q)
  {
    if es != [] {
      SelectMembers(es[..|es| - 1], q, x);
      assert es == es[..|es| - 1] + [es[|es| - 1]];
    }
  }

  lemma SelectSingle(e: Element, q: ParserQuery)
    ensures Select([e], q) == if MatchQuery(e, q) then [e] else []
  {
    assert [e][..0] == [];
  }

  lemma {:induction false} SelectConcat(a: seq<Element>, b: seq<Element>, q: ParserQuery)
    ensures Select(a + b, q) == Select(a, q) + Select(b, q)
  {
    if b != [] {
      assert (a + b)[..|a + b| - 1] == a + b[..|b| - 1];
      SelectConcat(a, b[..|b| - 1], q);
    } else {
      assert a + b == a;
    }
  }

  /** Every element of the tree rooted at `e`, in pre-order: an element before
      its descendants, and an earlier child's subtree before a later child's. */
  function Preorder(e: Element): seq<Element>
    decreases e, 1
  {
    [e] + ChildrenPreorder(e, |ChildElements(e)|)
  }

  /** The pre-order listings of the first `k` element children of `e`, concatenated. */
  function ChildrenPreorder(e: Element, k: nat): seq<Element>
    requires k <= |ChildElements(e)|
    decreases e, 0, k
  {
    if k == 0 then []
    else
      var c := ChildElements(e)[k - 1];
      assert c in e.children;
      ChildrenPreorder(e, k - 1) + Preorder(c)
  }

  /** Visiting one more child appends the matches of its subtree. */
  lemma ChildrenStep(e: Element, q: ParserQuery, i: nat)
    requires i < |ChildElements(e)|
    ensures Select(ChildrenPreorder(e, i + 1), q) == Select(ChildrenPreorder(e, i), q) + Matches(ChildElements(e)[i], q)
  {
    SelectConcat(ChildrenPreorder(e, i), Preorder(ChildElements(e)[i]), q);
  }

  /** The matches of a tree: the root's own, then its children's subtrees'. */
  lemma MatchesUnfold(e: Element, q: ParserQuery)
    ensures Matches(e, q) == Select([e], q) + Select(ChildrenPreorder(e, |ChildElements(e)|), q)
  {
    SelectConcat([e], ChildrenPreorder(e, |ChildElements(e)|), q);
  }

  /** What `find` returns: the matching elements in pre-order. */
  function Matches(root: Element, q: ParserQuery): seq<Element> {
    Select(Preorder(root), q)
  }

  /** `x` is `e` or an element below it. */
  ghost predicate InTree(x: Element, e: Element)
    decreases e, 1
  {
    x == e || InChildren(x, e, |ChildElements(e)|)
  }

  /** `x` lies in the subtree of one of the first `k` element children of `e`. */
  ghost predicate InChildren(x: Element, e: Element, k: nat)
    requires k <= |ChildElements(e)|
    decreases e, 0, k
  {
    if k == 0 then false
    else
      var c := ChildElements(e)[k - 1];
      assert c in e.children;
      InChildren(x, e, k - 1) || InTree(x, c)
  }

  lemma {:induction false} ChildrenPreorderMembers(x: Element, e: Element, k: nat)
    requires k <= |ChildElements(e)|
    ensures x in ChildrenPreorder(e, k) <==> InChildren(x, e, k)
    decreases e, 0, k
  {
    if k > 0 {
      var c := ChildElements(e)[k - 1];
      assert c in e.children;
      ChildrenPreorderMembers(x, e, k - 1);
      PreorderMembers(x, c);
    }
  }

  /** The pre-order listing holds exactly the elements of the tree. */
  lemma {:induction false} PreorderMembers(x: Element, e: Element)
    ensures x in Preorder(e) <==> InTree(x, e)
    decreases e, 1
  {
    ChildrenPreorderMembers(x, e, |ChildElements(e)|);
  }

  /** Soundness of `find`: each returned element matches and lies in the tree. */
  lemma FindSound(root: Element, q: ParserQuery, k: nat)
    requires k < |Matches(root, q)|
    ensures MatchQuery(Matches(root, q)[k], q) && InTree(Matches(root, q)[k], root)
  {
    var x := Matches(root, q)[k];
    SelectMembers(Preorder(root), q, x);
    PreorderMembers(x, root);
  }

  /** Completeness of `find`: each matching element of the tree is returned. */
  lemma FindComplete(root: Element, q: ParserQuery, x: Element)
    requires InTree(x, root) && MatchQuery(x, q)
    ensures x in Matches(root, q)
  {
    PreorderMembers(x, root);
    SelectMembers(Preorder(root), q, x);
  }

  /** The matches of a list of siblings, first sibling's subtree first. */
  function SiblingMatches(cs: seq<Element>, q: ParserQuery): seq<Element>
  {
    if cs == [] then [] else Matches(cs[0], q) + SiblingMatches(cs[1..], q)
  }

  lemma {:induction false} SiblingMatchesSnoc(cs: seq<Element>, c: Element, q: ParserQuery)
    ensures SiblingMatches(cs + [c], q) == SiblingMatches(cs, q) + Matches(c, q)
  {
    if cs == [] {
      assert [c][1..] == [];
    } else {
      assert (cs + [c])[1..] == cs[1..] + [c];
      SiblingMatchesSnoc(cs[1..], c, q);
    }
  }

  lemma {:induction false} ChildrenMatches(e: Element, q: ParserQuery, k: nat)
    requires k <= |ChildElements(e)|
    ensures Select(ChildrenPreorder(e, k), q) == SiblingMatches(ChildElements(e)[..k], q)
  {
    if k > 0 {
      var cs := ChildElements(e);
      ChildrenMatches(e, q, k - 1);
      ChildrenStep(e, q, k - 1);
      TakeSnoc(cs, k);
      SiblingMatchesSnoc(cs[..k - 1], cs[k - 1], q);
    }
  }


  /** Pre-order of the result: the root (if it matches) comes first, then the
      matches in each child's subtree, child by child. */
  lemma MatchesOrder(e: Element, q: ParserQuery)
    ensures Matches(e, q) == (if MatchQuery(e, q) then [e] else []) + SiblingMatches(ChildElements(e), q)
  {
    var cs := ChildElements(e);
    SelectConcat([e], ChildrenPreorder(e, |cs|), q);
    ChildrenMatches(e, q, |cs|);
    assert cs[..|cs|] == cs;
    SelectSingle(e, q);
  }

  /** A tree without a matching element yields an empty result. */
  lemma NoMatchEmpty(root: Element, q: ParserQuery)
    requires forall x: Element :: InTree(x, root) ==> !MatchQuery(x, q)
    ensures Matches(root, q) == []
  {
    if Matches(root, q) != [] {
      FindSound(root, q, 0);
    }
  }

  /** A single element yields itself or nothing. */
  lemma LeafMatches(e: Element, q: ParserQuery)
    requires ChildElements(e) == []
    ensures Matches(e, q) == (if MatchQuery(e, q) then [e] else [])
  {
    MatchesOrder(e, q);
  }

  /** The result has at most one entry per element of the tree. */
  lemma MatchesBound(root: Element, q: ParserQuery)
    ensures |Matches(root, q)| <= |Preorder(root)|
  {
  }

  /** The JavaScript array that `_dfs` pushes into. */
  class ElementList {
    var items: seq<Element>

    constructor()
      ensures items == []
    {
      items := [];
    }

    method Push(e: Element)
      modifies this
      ensures items == old(items) + [e]
    {
      items := items + [e];
    }
  }

  class Parser {
    const root: Element

    constructor(root: Element)
      ensures this.root == root
    {
      this.root := root;
    }

    /** `find(q)`: the matching elements of the tree, in pre-order. */
    method Find(q: ParserQuery) returns (result: seq<Element>)
      ensures result == Matches(root, q)
    {
      var acc := new ElementList();
      Dfs(root, q, acc);
      result := acc.items;
    }

    /** `_dfs(node, q, result)`: appends the matches below `node` to `result`,
        leaving what was there before as a prefix. */
    method Dfs(node: Element, q: ParserQuery, result: ElementList)
      modifies result
      ensures result.items == old(result.items) + Matches(node, q)
      decreases node, 1
    {
      ghost var start := result.items;
      SelectSingle(node, q);
      if MatchQuery(node, q) {
        result.Push(node);
      }
      assert result.items == start + Select([node], q);
      DfsChildren(node, q, result);
      MatchesUnfold(node, q);
      assert result.items == start + (Select([node], q) + Select(ChildrenPreorder(node, |ChildElements(node)|), q));
    }

    /** The index loop of `_dfs` over the children of `node`. */
    method DfsChildren(node: Element, q: ParserQuery, result: ElementList)
      modifies result
      ensures result.items == old(result.items) + Select(ChildrenPreorder(node, |ChildElements(node)|), q)
      decreases node, 0
    {
      ghost var start := result.items;
      var children := ChildElements(node);
      for i := 0 to |children|
        invariant result.items == start + Select(ChildrenPreorder(node, i), q)
      {
        var child := children[i];
        assert child in node.children;
        Dfs(child, q, result);
        ChildrenStep(node, q, i);
        AppendAssoc(start, Select(ChildrenPreorder(node, i), q), Matches(child, q));
      }
    }
  }
}
