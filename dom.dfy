/**
 * The parsed XML tree as the extraction engine sees it through the DOM, the
 * CSS selectors it queries the tree with, and the two tree accessors of the
 * source: the direct-child lookup and the nearest enclosing tab.
 */
module Dom {
  import opened Wrappers
  import opened JsString

  /**
   * An XML element: its tag (`nodeName`, which for XML is also `tagName`), its
   * attributes, its element children in document order and its `textContent`.
   */
  datatype Element = Element(
    nodeName: string,
    attributes: map<string, string>,
    children: seq<Element>,
    textContent: string)

  /** `element.getAttribute(name)`: `None` stands for `null`, an absent attribute. */
  function GetAttribute(e: Element, name: string): Option<string> {
    if name in e.attributes then Some(e.attributes[name]) else None
  }

  /**
   * An element in place: together with its ancestors, outermost first, so that
   * the last ancestor is its `parentElement` and the first is the document's root.
   */
  datatype Node = Node(element: Element, ancestors: seq<Element>)

  /** The elements of the trees `cs`, whose parent chain is `ancestors`, in document order. */
  function Forest(cs: seq<Element>, ancestors: seq<Element>): seq<Node>
    decreases cs
  {
    if cs == [] then []
    else [Node(cs[0], ancestors)] + Forest(cs[0].children, ancestors + [cs[0]]) + Forest(cs[1..], ancestors)
  }

  /** The proper descendants of `n`, in document order. */
  function Descendants(n: Node): seq<Node> {
    Forest(n.element.children, n.ancestors + [n.element])
  }

  /** Every element of the document whose root element is `root`, in document order. */
  function DocumentElements(root: Element): seq<Node> {
    Forest([root], [])
  }

  /** The `i`-th child of `n`, in place. */
  function ChildAt(n: Node, i: nat): Node
    requires i < |n.element.children|
  {
    Node(n.element.children[i], n.ancestors + [n.element])
  }

  /** A descendant of a node of `Forest(cs, ancestors)` is itself a node of that forest. */
  lemma {:induction false} ForestClosed(cs: seq<Element>, ancestors: seq<Element>, p: Node, d: Node)
    requires p in Forest(cs, ancestors) && d in Descendants(p)
    ensures d in Forest(cs, ancestors)
    decreases cs
  {
    var inner := Forest(cs[0].children, ancestors + [cs[0]]);
    if p == Node(cs[0], ancestors) {
    } else if p in inner {
      ForestClosed(cs[0].children, ancestors + [cs[0]], p, d);
    } else {
      ForestClosed(cs[1..], ancestors, p, d);
    }
  }

  /** A child of `n` is one of its descendants. */
  lemma ChildIsDescendant(n: Node, i: nat)
    requires i < |n.element.children|
    ensures ChildAt(n, i) in Descendants(n)
  {
    ForestHasChildren(n.element.children, n.ancestors + [n.element], i);
  }

  lemma {:induction false} ForestHasChildren(cs: seq<Element>, ancestors: seq<Element>, i: nat)
    requires i < |cs|
    ensures Node(cs[i], ancestors) in Forest(cs, ancestors)
    decreases cs
  {
    if i > 0 {
      ForestHasChildren(cs[1..], ancestors, i - 1);
    }
  }

  // ---------------------------------------------------------------- selectors

  /** A compound selector: a tag (`None` for `*`) and at most one `[attribute="value"]` test. */
  datatype Compound = Compound(tag: Option<string>, attribute: Option<(string, string)>)

  /** The complex selectors the source uses: `c`, `parent > c` and `ancestor c`. */
  datatype Selector =
    | Is(compound: Compound)
    | Child(parent: Selector, compound: Compound)
    | Within(ancestor: Selector, compound: Compound)

  /** The selector `tag`. */
  function Tag(tag: string): Compound {
    Compound(Some(tag), None)
  }

  /** The selector `tag[name="value"]`. */
  function TagWith(tag: string, name: string, value: string): Compound {
    Compound(Some(tag), Some((name, value)))
  }

  /** The selector `*`. */
  const Any: Compound := Compound(None, None)

  predicate CompoundMatches(c: Compound, e: Element) {
    && (c.tag.None? || e.nodeName == c.tag.value)
    && (c.attribute.None? || GetAttribute(e, c.attribute.value.0) == Some(c.attribute.value.1))
  }

  /** Does the element `e`, whose ancestors are `ancestors`, match `s`? */
  predicate Matches(s: Selector, e: Element, ancestors: seq<Element>)
    decreases s, 0
  {
    && CompoundMatches(s.compound, e)
    && match s
       case Is(_) => true
       case Child(p, _) =>
         |ancestors| > 0 && Matches(p, ancestors[|ancestors| - 1], ancestors[..|ancestors| - 1])
       case Within(p, _) => SomeAncestorMatches(p, ancestors)
  }

  /** Does some element of the chain `ancestors` match `s`? */
  predicate SomeAncestorMatches(s: Selector, ancestors: seq<Element>)
    decreases s, |ancestors| + 1
  {
    && |ancestors| > 0
    && (|| Matches(s, ancestors[|ancestors| - 1], ancestors[..|ancestors| - 1])
        || SomeAncestorMatches(s, ancestors[..|ancestors| - 1]))
  }

  /** Does `n` match one of a selector list `s1, s2, ...`? */
  predicate MatchesAny(selectors: seq<Selector>, n: Node) {
    exists i :: 0 <= i < |selectors| && Matches(selectors[i], n.element, n.ancestors)
  }

  /** The nodes of `nodes` that match the selector list, in their order. */
  function Select(nodes: seq<Node>, selectors: seq<Selector>): (r: seq<Node>)
    ensures |r| <= |nodes|
  {
    if nodes == [] then []
    else (if MatchesAny(selectors, nodes[0]) then [nodes[0]] else []) + Select(nodes[1..], selectors)
  }

  /** A node is selected exactly when it is one of the candidates and matches. */
  lemma {:induction false} SelectMembership(nodes: seq<Node>, selectors: seq<Selector>, m: Node)
    ensures m in Select(nodes, selectors) <==> m in nodes && MatchesAny(selectors, m)
  {
    if nodes != [] {
      SelectMembership(nodes[1..], selectors, m);
      assert nodes == [nodes[0]] + nodes[1..];
    }
  }

  /** Selecting from a concatenation selects from each part, in order. */
  lemma {:induction false} SelectAppend(a: seq<Node>, b: seq<Node>, selectors: seq<Selector>)
    ensures Select(a + b, selectors) == Select(a, selectors) + Select(b, selectors)
  {
    if a == [] {
      assert a + b == b;
    } else {
      var head := if MatchesAny(selectors, a[0]) then [a[0]] else [];
      assert (a + b)[0] == a[0] && (a + b)[1..] == a[1..] + b;
      calc {
        Select(a + b, selectors);
        head + Select(a[1..] + b, selectors);
        { SelectAppend(a[1..], b, selectors); }
        head + (Select(a[1..], selectors) + Select(b, selectors));
        (head + Select(a[1..], selectors)) + Select(b, selectors);
        Select(a, selectors) + Select(b, selectors);
      }
    }
  }

  /** `n.querySelectorAll(selectors)`. */
  function QuerySelectorAll(n: Node, selectors: seq<Selector>): seq<Node> {
    Select(Descendants(n), selectors)
  }

  /** `n.querySelector(selectors)`: the first match in document order, `None` for `null`. */
  function QuerySelector(n: Node, selectors: seq<Selector>): (r: Option<Node>)
  {
    var all := QuerySelectorAll(n, selectors);
    if all == [] then None else Some(all[0])
  }

  /** The first selected node is the first candidate that matches. */
  lemma {:induction false} SelectFirst(nodes: seq<Node>, selectors: seq<Selector>)
    requires Select(nodes, selectors) != []
    ensures exists i :: && 0 <= i < |nodes| && nodes[i] == Select(nodes, selectors)[0]
                        && MatchesAny(selectors, nodes[i])
                        && forall k :: 0 <= k < i ==> !MatchesAny(selectors, nodes[k])
  {
    if !MatchesAny(selectors, nodes[0]) {
      var rest := nodes[1..];
      SelectFirst(rest, selectors);
      var i :| && 0 <= i < |rest| && rest[i] == Select(rest, selectors)[0]
               && MatchesAny(selectors, rest[i])
               && forall k :: 0 <= k < i ==> !MatchesAny(selectors, rest[k]);
      forall k | 0 <= k < i + 1
        ensures !MatchesAny(selectors, nodes[k])
      {
        if k > 0 {
          assert nodes[k] == rest[k - 1];
        }
      }
      assert nodes[i + 1] == rest[i];
    }
  }

  /**
   * `querySelector` finds a node exactly when some descendant matches, and
   * what it finds is the first matching descendant in document order.
   */
  lemma QuerySelectorFinds(n: Node, selectors: seq<Selector>)
    ensures QuerySelector(n, selectors).None? <==> forall m :: m in Descendants(n) ==> !MatchesAny(selectors, m)
    ensures QuerySelector(n, selectors).Some? ==>
              exists i :: && 0 <= i < |Descendants(n)| && Descendants(n)[i] == QuerySelector(n, selectors).value
                          && MatchesAny(selectors, Descendants(n)[i])
                          && forall k :: 0 <= k < i ==> !MatchesAny(selectors, Descendants(n)[k])
  {
    var all := QuerySelectorAll(n, selectors);
    forall m | m in Descendants(n)
      ensures m in all <==> MatchesAny(selectors, m)
    {
      SelectMembership(Descendants(n), selectors, m);
    }
    if all != [] {
      SelectFirst(Descendants(n), selectors);
    }
  }

  /** `found?.textContent.trim()`. */
  function TrimmedText(found: Option<Node>): Option<string> {
    match found
    case None => None
    case Some(m) => Some(Trim(m.element.textContent))
  }

  /** `found?.textContent`, untrimmed. */
  function Text(found: Option<Node>): Option<string> {
    match found
    case None => None
    case Some(m) => Some(m.element.textContent)
  }

  /** `a || b` on two query results: the first that found something. */
  function OrElse(a: Option<Node>, b: Option<Node>): (r: Option<Node>)
    ensures r.Some? <==> a.Some? || b.Some?
  {
    if a.Some? then a else b
  }

  /** `document.querySelectorAll(selectors)`. */
  function DocumentQuerySelectorAll(root: Element, selectors: seq<Selector>): seq<Node> {
    Select(DocumentElements(root), selectors)
  }

  /** `document.querySelector(selectors)`. */
  function DocumentQuerySelector(root: Element, selectors: seq<Selector>): Option<Node> {
    var all := DocumentQuerySelectorAll(root, selectors);
    if all == [] then None else Some(all[0])
  }

  // ----------------------------------------------------------- tree accessors

  /** The index of the first element of `cs` whose tag is `tag`. */
  function FirstWithTag(cs: seq<Element>, tag: string): (r: Option<nat>)
    ensures r.None? ==> forall i :: 0 <= i < |cs| ==> cs[i].nodeName != tag
    ensures r.Some? ==> r.value < |cs| && cs[r.value].nodeName == tag
                        && forall i :: 0 <= i < r.value ==> cs[i].nodeName != tag
  {
    if cs == [] then None
    else if cs[0].nodeName == tag then Some(0)
    else match FirstWithTag(cs[1..], tag)
      case None => None
      case Some(i) => Some(i + 1)
  }

  /** The first child with tag `tag` is the one `FirstWithTag` finds. */
  lemma FirstWithTagIs(cs: seq<Element>, tag: string, i: nat)
    requires i < |cs| && cs[i].nodeName == tag
    requires forall k :: 0 <= k < i ==> cs[k].nodeName != tag
    ensures FirstWithTag(cs, tag) == Some(i)
  {
  }

  /** `getDirectChild(element, tagName)`: the first child of `n` whose tag is `tag`. */
  function GetDirectChild(n: Node, tag: string): (r: Option<Node>)
    ensures r.None? ==> forall i :: 0 <= i < |n.element.children| ==> n.element.children[i].nodeName != tag
    ensures r.Some? ==> exists i :: && 0 <= i < |n.element.children| && r.value == ChildAt(n, i)
                                  && n.element.children[i].nodeName == tag
                                  && forall k :: 0 <= k < i ==> n.element.children[k].nodeName != tag
  {
    match FirstWithTag(n.element.children, tag)
    case None => None
    case Some(i) => Some(ChildAt(n, i))
  }

  /** The owning tab of a grid as `findParentTab` reports it. */
  datatype Tab = Tab(name: Option<string>, labelText: Option<string>, order: Option<string>)

  function TabOf(e: Element): Tab {
    Tab(GetAttribute(e, "name"), GetAttribute(e, "label"), GetAttribute(e, "order"))
  }

  /**
   * The index in `ancestors` of the nearest `tab`, looking upwards from the
   * parent and giving up at the first `form` or at the root.
   */
  function NearestTab(ancestors: seq<Element>): (r: Option<nat>)
    ensures r.Some? ==> && r.value < |ancestors| && ancestors[r.value].nodeName == "tab"
                        && forall k :: r.value < k < |ancestors| ==>
                             ancestors[k].nodeName != "tab" && ancestors[k].nodeName != "form"
    ensures r.None? ==> forall k :: 0 <= k < |ancestors| && ancestors[k].nodeName == "tab" ==>
                          exists j :: k < j < |ancestors| && ancestors[j].nodeName == "form"
    decreases |ancestors|
  {
    if ancestors == [] then None
    else
      var p := |ancestors| - 1;
      if ancestors[p].nodeName == "form" then None
      else if ancestors[p].nodeName == "tab" then Some(p)
      else NearestTab(ancestors[..p])
  }

  /** The tab descriptor `findParentTab` returns for the node `n`. */
  function ParentTab(n: Node): Option<Tab> {
    match NearestTab(n.ancestors)
    case None => None
    case Some(k) => Some(TabOf(n.ancestors[k]))
  }

  /** `findParentTab(gridElement)`: walks `parentElement` upwards until a `tab`, a `form` or the root. */
  method FindParentTab(grid: Node) returns (tab: Option<Tab>)
    ensures tab == ParentTab(grid)
  {
    var ancestors := grid.ancestors;
    var i := |ancestors|;
    assert ancestors[..i] == ancestors;
    while i > 0 && ancestors[i - 1].nodeName != "form"
      invariant 0 <= i <= |ancestors|
      invariant NearestTab(ancestors) == NearestTab(ancestors[..i])
    {
      var parent := ancestors[i - 1];
      if parent.nodeName == "tab" {
        return Some(TabOf(parent));
      }
      assert ancestors[..i][..i - 1] == ancestors[..i - 1];
      i := i - 1;
    }
    return None;
  }
}
