/**
 * The node table standing for the host document: each element with the parts of it the
 * script reads (tag, classes, attributes, textContent, href, image properties and sizes)
 * and writes (inline visibility and position, attributes, appended children), the
 * ancestor walk of Element.closest, and the updates the script makes.
 */
module Dom {
  import opened Wrappers
  import opened Text
  import opened Cards

  type NodeId = nat

  /** The two inline style properties the script sets. */
  datatype Style = Style(visibility: Option<string>, position: Option<string>)

  const NoStyle: Style := Style(None, None)

  /** Whether an element belongs to the host page or was built by the script; a badge records the image it stands for. */
  datatype Made = HostElement | CardElement(card: Card) | BadgeElement(badge: Badge, img: NodeId)

  datatype Node = Node(
    tag: string,               // tagName
    classes: seq<string>,      // classList
    attrs: map<string, string>,
    text: string,              // textContent
    href: Option<string>,      // the href property; None on an element that is not an anchor
    src: string,               // the src and currentSrc properties of an image
    currentSrc: string,
    offsetWidth: nat,
    width: nat,
    parent: Option<NodeId>,    // parentElement
    children: seq<NodeId>,     // element children, in document order
    depth: nat,                // how many element ancestors the element has
    style: Style,
    made: Made)

  type Tree = map<NodeId, Node>

  /** Parents are in the table and closer to the root; children are in the table and name their parent. */
  ghost predicate WellFormed(t: Tree) {
    && (forall id :: id in t && t[id].parent.Some? ==>
          t[id].parent.value in t && t[t[id].parent.value].depth < t[id].depth)
    && (forall id, k :: id in t && 0 <= k < |t[id].children| ==>
          t[id].children[k] in t && t[t[id].children[k]].parent == Some(id))
  }

  /** A simple selector of the lists the script passes to closest(). */
  datatype Simple = Type(name: string) | Class(name: string)

  predicate Matches(n: Node, s: Simple) {
    match s
    case Type(name) => LowerCase(n.tag) == name
    case Class(name) => name in n.classes
  }

  /** A selector list matches when one of its selectors does. */
  predicate MatchesAny(n: Node, sels: seq<Simple>) {
    exists k :: 0 <= k < |sels| && Matches(n, sels[k])
  }

  /** The element and its ancestors, nearest first, up to the root. */
  function Ancestors(t: Tree, id: NodeId): (r: seq<NodeId>)
    requires WellFormed(t) && id in t
    ensures |r| >= 1 && r[0] == id
    ensures forall k :: 0 <= k < |r| ==> r[k] in t
    ensures forall k :: 0 <= k < |r| - 1 ==> t[r[k]].parent == Some(r[k + 1])
    ensures t[r[|r| - 1]].parent.None?
    decreases t[id].depth
  {
    match t[id].parent
    case None => [id]
    case Some(p) => [id] + Ancestors(t, p)
  }

  /** Element.closest: the element itself or its nearest ancestor matching the list. */
  function Closest(t: Tree, id: NodeId, sels: seq<Simple>): (r: Option<NodeId>)
    requires WellFormed(t) && id in t
    ensures r.Some? ==> r.value in t && MatchesAny(t[r.value], sels)
    decreases t[id].depth
  {
    if MatchesAny(t[id], sels) then Some(id)
    else
      match t[id].parent
      case None => None
      case Some(p) => Closest(t, p, sels)
  }

  /** No element among the first `k` of `chain` matches the list. */
  ghost predicate NoneMatchBefore(t: Tree, chain: seq<NodeId>, k: nat, sels: seq<Simple>)
    requires k <= |chain| && forall j :: 0 <= j < |chain| ==> chain[j] in t
  {
    forall j :: 0 <= j < k ==> !MatchesAny(t[chain[j]], sels)
  }

  /** closest() finds the first matching element of the ancestor chain, and None only when none matches. */
  lemma {:induction false} ClosestIsNearest(t: Tree, id: NodeId, sels: seq<Simple>)
    requires WellFormed(t) && id in t
    ensures Closest(t, id, sels).None? ==>
      forall k :: 0 <= k < |Ancestors(t, id)| ==> !MatchesAny(t[Ancestors(t, id)[k]], sels)
    ensures Closest(t, id, sels).Some? ==>
      exists k :: 0 <= k < |Ancestors(t, id)| && Ancestors(t, id)[k] == Closest(t, id, sels).value &&
        NoneMatchBefore(t, Ancestors(t, id), k, sels)
    decreases t[id].depth
  {
    var chain := Ancestors(t, id);
    if MatchesAny(t[id], sels) {
      assert chain[0] == id && NoneMatchBefore(t, chain, 0, sels);
    } else if t[id].parent.Some? {
      var p := t[id].parent.value;
      ClosestIsNearest(t, p, sels);
      var rest := Ancestors(t, p);
      assert chain == [id] + rest;
      assert Closest(t, id, sels) == Closest(t, p, sels);
      if Closest(t, p, sels).None? {
        forall k | 0 <= k < |chain| ensures !MatchesAny(t[chain[k]], sels) {
          if k > 0 {
            assert chain[k] == rest[k - 1];
          }
        }
      } else {
        var a := Closest(t, p, sels).value;
        var k :| 0 <= k < |rest| && rest[k] == a && NoneMatchBefore(t, rest, k, sels);
        assert chain[k + 1] == a;
        forall j | 0 <= j < k + 1 ensures !MatchesAny(t[chain[j]], sels) {
          if j > 0 {
            assert chain[j] == rest[j - 1];
          }
        }
        assert NoneMatchBefore(t, chain, k + 1, sels);
      }
    }
  }

  /** `el?.textContent` */
  function TextOf(t: Tree, el: Option<NodeId>): Option<string> {
    if el.Some? && el.value in t then Some(t[el.value].text) else None
  }

  /** `el?.textContent?.trim()` */
  function TrimmedText(t: Tree, el: Option<NodeId>): (r: Option<string>)
    ensures r.Some? <==> TextOf(t, el).Some?
    ensures r.Some? ==> r.value == Trim(TextOf(t, el).value)
  {
    match TextOf(t, el)
    case None => None
    case Some(s) => Some(Trim(s))
  }

  /** `el?.getAttribute(name)`: None for a missing element or attribute. */
  function AttrOf(t: Tree, el: Option<NodeId>, name: string): Option<string> {
    if el.Some? && el.value in t && name in t[el.value].attrs then Some(t[el.value].attrs[name]) else None
  }

  /** `el?.href` */
  function HrefOf(t: Tree, el: Option<NodeId>): Option<string> {
    if el.Some? && el.value in t then t[el.value].href else None
  }

  /** The image properties getThumbnailSrc reads from `el`. */
  function ImgOf(t: Tree, el: Option<NodeId>): Option<ImgView> {
    if el.Some? && el.value in t then
      Some(ImgView(t[el.value].src, t[el.value].currentSrc, AttrOf(t, el, "data-src")))
    else None
  }

  /** An element that keeps everything but its style and its children, which only gain a suffix. */
  predicate Kept(a: Node, b: Node) {
    && b.(style := a.style, children := a.children) == a
    && a.children <= b.children
  }

  /** `u` has every element of `t`, each kept. */
  ghost predicate Grows(t: Tree, u: Tree) {
    t.Keys <= u.Keys && forall id :: id in t ==> Kept(t[id], u[id])
  }

  lemma GrowsTransitive(t: Tree, u: Tree, v: Tree)
    requires Grows(t, u) && Grows(u, v)
    ensures Grows(t, v)
  {
    forall id | id in t ensures Kept(t[id], v[id]) {
      var a, b, c := t[id], u[id], v[id];
      assert a.children == b.children[..|a.children|];
      assert b.children == c.children[..|b.children|];
    }
  }

  /** Two tables with the same elements in the same tree shape. */
  ghost predicate SameShape(t: Tree, u: Tree) {
    && t.Keys == u.Keys
    && forall id :: id in t ==>
         u[id].parent == t[id].parent && u[id].children == t[id].children && u[id].depth == t[id].depth
  }

  lemma SameShapeWellFormed(t: Tree, u: Tree)
    requires WellFormed(t) && SameShape(t, u)
    ensures WellFormed(u)
  {
    forall id, k | id in u && 0 <= k < |u[id].children|
      ensures u[id].children[k] in u && u[u[id].children[k]].parent == Some(id)
    {
      assert t[id].children[k] in t;
    }
  }

  /** `el.style.position = position` */
  function WithPosition(t: Tree, id: NodeId, position: string): (r: Tree)
    requires id in t
    ensures SameShape(t, r) && Grows(t, r)
    ensures r[id].style == t[id].style.(position := Some(position))
    ensures r[id].(style := t[id].style) == t[id]
    ensures forall x :: x in t && x != id ==> r[x] == t[x]
  {
    t[id := t[id].(style := t[id].style.(position := Some(position)))]
  }

  /** `el.style.visibility = visibility` */
  function WithVisibility(t: Tree, id: NodeId, visibility: string): (r: Tree)
    requires id in t
    ensures SameShape(t, r) && Grows(t, r)
    ensures r[id].style == t[id].style.(visibility := Some(visibility))
    ensures r[id].(style := t[id].style) == t[id]
    ensures forall x :: x in t && x != id ==> r[x] == t[x]
  {
    t[id := t[id].(style := t[id].style.(visibility := Some(visibility)))]
  }

  /** `el.setAttribute(name, value)` */
  function SetAttribute(t: Tree, id: NodeId, name: string, value: string): (r: Tree)
    requires id in t
    ensures SameShape(t, r)
    ensures r[id] == t[id].(attrs := t[id].attrs[name := value])
    ensures forall x :: x in t && x != id ==> r[x] == t[x]
  {
    t[id := t[id].(attrs := t[id].attrs[name := value])]
  }

  /** An element the script creates: a detached div with the given classes. */
  function Created(classes: seq<string>, made: Made): Node {
    Node("div", classes, map[], "", None, "", "", 0, 0, None, [], 0, NoStyle, made)
  }

  /** `parent.appendChild(node)` for a freshly created node with a fresh identity. */
  function AppendChild(t: Tree, parent: NodeId, child: NodeId, node: Node): (r: Tree)
    requires parent in t && child !in t
    ensures Grows(t, r)
    ensures r.Keys == t.Keys + {child}
    ensures r[parent].children == t[parent].children + [child]
    ensures r[child].parent == Some(parent)
    ensures r[child].children == []
    ensures r[child] == node.(parent := Some(parent), depth := t[parent].depth + 1, children := [])
    ensures r[parent] == t[parent].(children := t[parent].children + [child])
    ensures forall x :: x in t && x != parent ==> r[x] == t[x]
  {
    var attached := node.(parent := Some(parent), depth := t[parent].depth + 1, children := []);
    t[child := attached][parent := t[parent].(children := t[parent].children + [child])]
  }

  lemma AppendChildWellFormed(t: Tree, parent: NodeId, child: NodeId, node: Node)
    requires WellFormed(t) && parent in t && child !in t
    ensures WellFormed(AppendChild(t, parent, child, node))
  {
    var r := AppendChild(t, parent, child, node);
    forall id, k | id in r && 0 <= k < |r[id].children|
      ensures r[id].children[k] in r && r[r[id].children[k]].parent == Some(id)
    {
      if id == parent {
        if k < |t[parent].children| {
          assert r[id].children[k] == t[parent].children[k];
        }
      } else if id != child {
        assert r[id] == t[id];
        assert t[id].children[k] != child;
      }
    }
  }

  /** The veil-card class that marks a card, which hiding skips. */
  predicate IsCard(n: Node) {
    "veil-card" in n.classes
  }

  /**
   * The forEach over Array.from(container.children): every child without the veil-card
   * class is made hidden, in order.
   */
  function HideChildren(t: Tree, cs: seq<NodeId>): (r: Tree)
    ensures SameShape(t, r) && Grows(t, r)
    ensures forall id :: id in t ==> r[id].(style := t[id].style) == t[id]
  {
    if cs == [] then t
    else
      var before := HideChildren(t, cs[..|cs| - 1]);
      var c := cs[|cs| - 1];
      if c in before && !IsCard(before[c]) then WithVisibility(before, c, "hidden") else before
  }

  /** Hiding makes exactly the non-card children among `cs` hidden and leaves everything else alone. */
  lemma {:induction false} HideChildrenEffect(t: Tree, cs: seq<NodeId>, id: NodeId)
    requires id in t
    ensures HideChildren(t, cs)[id] ==
      if id in cs && !IsCard(t[id]) then t[id].(style := t[id].style.(visibility := Some("hidden")))
      else t[id]
  {
    if cs != [] {
      var init := cs[..|cs| - 1];
      HideChildrenEffect(t, init, id);
      assert id in cs <==> id in init || id == cs[|cs| - 1];
    }
  }
}
