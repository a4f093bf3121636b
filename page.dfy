/**
 * The effect of the content script on the page, as values: the node table, the next fresh
 * element identity, and the two processed sets. replaceThumbnail and replaceAvatar are
 * transitions on this state, and the two scans fold them over the elements their query
 * returns. The class in the Script module runs the same steps in place.
 */
module Page {
  import opened Wrappers
  import opened Text
  import opened Settings
  import opened Cards
  import opened Dom
  import opened Extract

  datatype Page = Page(
    nodes: Tree,
    nextId: NodeId,            // the identity the next created element gets
    thumbs: set<NodeId>,       // processedThumbnails
    avatars: set<NodeId>)      // processedAvatars

  /** A well-formed table whose identities all lie below the next fresh one. */
  ghost predicate Valid(p: Page) {
    WellFormed(p.nodes) && forall id :: id in p.nodes ==> id < p.nextId
  }

  /** The two kinds of element the script transforms. */
  datatype Kind = Thumbnail | Avatar

  /** The attribute a scan stamps on each element it hands on. */
  function Stamp(k: Kind): string {
    match k
    case Thumbnail => "veil-processed"
    case Avatar => "veil-avatar-processed"
  }

  function Processed(p: Page, k: Kind): set<NodeId> {
    match k
    case Thumbnail => p.thumbs
    case Avatar => p.avatars
  }

  /** `r` is `p` with elements added, none lost, the old ones kept, and the new ones without attributes. */
  ghost predicate Extends(p: Page, r: Page) {
    && Grows(p.nodes, r.nodes) && p.nextId <= r.nextId
    && forall id :: id in r.nodes && id !in p.nodes ==> r.nodes[id].attrs == map[]
  }

  lemma ExtendsTransitive(p: Page, m: Page, r: Page)
    requires Extends(p, m) && Extends(m, r)
    ensures Extends(p, r)
  {
    GrowsTransitive(p.nodes, m.nodes, r.nodes);
    forall id | id in r.nodes && id !in p.nodes ensures r.nodes[id].attrs == map[] {
      if id in m.nodes {
        assert Kept(m.nodes[id], r.nodes[id]);
      }
    }
  }

  /** Elements still there, and attributes, where set, still set. */
  ghost predicate Persists(p: Page, r: Page) {
    && p.nodes.Keys <= r.nodes.Keys && p.nextId <= r.nextId
    && forall id :: id in p.nodes ==> p.nodes[id].attrs.Keys <= r.nodes[id].attrs.Keys
  }

  /** The element a card becomes once appended. */
  function CardNode(card: Card): Node {
    Created(card.classes, CardElement(card))
  }

  /** The element the avatar badge of image `img` becomes once appended. */
  function BadgeNode(badge: Badge, img: NodeId): Node {
    Created(["veil-avatar"], BadgeElement(badge, img))
  }

  /**
   * The card replaceThumbnail builds for a container, when extractVideoData finds a
   * renderer: the mode's card over the extracted data and the image source read from
   * the container's first img.
   */
  function ThumbnailCard(t: Tree, container: NodeId, cfg: Config, q: Query): (r: Option<Card>)
    requires WellFormed(t) && container in t
    ensures r.None? <==> Closest(t, container, ThumbnailRenderers).None?
    ensures r.Some? ==> "veil-card" in r.value.classes
  {
    match ExtractVideoData(t, container, q)
    case None => None
    case Some(v) =>
      var imgSrc := ThumbnailSrc(ImgOf(t, q(container, "img")), v.videoId);
      ModeDispatch(v, cfg, imgSrc);
      Some(CreateCard(v, cfg, imgSrc))
  }

  /**
   * The DOM work of replaceThumbnail once the card exists: position the container, hide its
   * non-card children, append the card as element `id`.
   */
  function AttachCard(t: Tree, container: NodeId, id: NodeId, card: Card): (r: Tree)
    requires WellFormed(t) && container in t && id !in t
    ensures WellFormed(r) && Grows(t, r) && r.Keys == t.Keys + {id} && r[id].attrs == map[]
  {
    var positioned := WithPosition(t, container, "relative");
    var hidden := HideChildren(positioned, positioned[container].children);
    SameShapeWellFormed(t, hidden);
    AppendChildWellFormed(hidden, container, id, CardNode(card));
    GrowsTransitive(t, positioned, hidden);
    var r := AppendChild(hidden, container, id, CardNode(card));
    GrowsTransitive(t, hidden, r);
    r
  }

  /**
   * The container becomes relatively positioned and gains exactly one child, the card, after
   * all its old children; each old child is hidden unless it is itself a card; no other
   * element changes.
   */
  lemma AttachCardEffect(t: Tree, container: NodeId, id: NodeId, card: Card)
    requires WellFormed(t) && container in t && id !in t
    ensures var r := AttachCard(t, container, id, card);
      var c0 := t[container];
      && r[id].made == CardElement(card)
      && r[id].parent == Some(container)
      && r[container] == c0.(style := c0.style.(position := Some("relative")), children := c0.children + [id])
      && (forall c :: c in c0.children ==>
            r[c] == if IsCard(t[c]) then t[c] else t[c].(style := t[c].style.(visibility := Some("hidden"))))
      && (forall x :: x in t && x != container && x !in c0.children ==> r[x] == t[x])
  {
    var positioned := WithPosition(t, container, "relative");
    var kids := positioned[container].children;
    assert container !in kids;
    HideChildrenEffect(positioned, kids, container);
    forall x | x in t && x != container
      ensures HideChildren(positioned, kids)[x] ==
        if x in kids && !IsCard(t[x]) then t[x].(style := t[x].style.(visibility := Some("hidden"))) else t[x]
    {
      HideChildrenEffect(positioned, kids, x);
    }
  }

  /**
   * replaceThumbnail: nothing for a container already processed; otherwise the container is
   * marked first, and only then is extraction tried, a failure leaving it just marked.
   */
  function ReplaceThumbnail(p: Page, cfg: Config, container: NodeId, q: Query): (r: Page)
    requires Valid(p) && container in p.nodes
    ensures Valid(r) && Extends(p, r)
    ensures r.thumbs == p.thumbs + {container} && r.avatars == p.avatars
    ensures container in p.thumbs ==> r == p
  {
    if container in p.thumbs then p
    else
      var marked := p.(thumbs := p.thumbs + {container});
      match ThumbnailCard(p.nodes, container, cfg, q)
      case None => marked
      case Some(card) => marked.(nodes := AttachCard(p.nodes, container, p.nextId, card), nextId := p.nextId + 1)
  }

  /** A container not yet processed whose renderer is found gets the card of ThumbnailCard, as AttachCard places it. */
  lemma ReplaceThumbnailEffect(p: Page, cfg: Config, container: NodeId, q: Query)
    requires Valid(p) && container in p.nodes && container !in p.thumbs
    ensures var r := ReplaceThumbnail(p, cfg, container, q);
      match ThumbnailCard(p.nodes, container, cfg, q)
      case None => r == p.(thumbs := p.thumbs + {container})
      case Some(card) =>
        var c0 := p.nodes[container];
        && r.nodes.Keys == p.nodes.Keys + {p.nextId} && r.nextId == p.nextId + 1
        && r.nodes[p.nextId].made == CardElement(card)
        && r.nodes[p.nextId].parent == Some(container)
        && r.nodes[container] == c0.(style := c0.style.(position := Some("relative")), children := c0.children + [p.nextId])
        && (forall c :: c in c0.children ==>
              r.nodes[c] == if IsCard(p.nodes[c]) then p.nodes[c]
                            else p.nodes[c].(style := p.nodes[c].style.(visibility := Some("hidden"))))
        && (forall x :: x in p.nodes && x != container && x !in c0.children ==> r.nodes[x] == p.nodes[x])
  {
    match ThumbnailCard(p.nodes, container, cfg, q)
    case None =>
    case Some(card) => AttachCardEffect(p.nodes, container, p.nextId, card);
  }

  /**
   * The DOM work of replaceAvatar on an image with a parent: the parent becomes relative,
   * the image hidden and absolute, and the badge is appended to the parent as element `id`.
   */
  function AttachBadge(t: Tree, img: NodeId, parent: NodeId, id: NodeId, badge: Badge): (r: Tree)
    requires WellFormed(t) && img in t && parent in t && id !in t
    ensures WellFormed(r) && Grows(t, r) && r.Keys == t.Keys + {id} && r[id].attrs == map[]
  {
    var t1 := WithPosition(t, parent, "relative");
    var t2 := WithVisibility(t1, img, "hidden");
    var t3 := WithPosition(t2, img, "absolute");
    SameShapeWellFormed(t, t3);
    AppendChildWellFormed(t3, parent, id, BadgeNode(badge, img));
    GrowsTransitive(t, t1, t2);
    GrowsTransitive(t, t2, t3);
    var r := AppendChild(t3, parent, id, BadgeNode(badge, img));
    GrowsTransitive(t, t3, r);
    r
  }

  /** The badge createAvatarReplacement builds for an image: its resolved channel name and its size. */
  function AvatarBadge(t: Tree, img: NodeId, q: Query): Badge
    requires WellFormed(t) && img in t
  {
    AvatarReplacement(ChannelName(t, img, q), AvatarSize(t[img].offsetWidth, t[img].width))
  }

  /** The image ends hidden and absolute, the parent relative with the badge as its last child, and nothing else changes. */
  lemma AttachBadgeEffect(t: Tree, img: NodeId, parent: NodeId, id: NodeId, badge: Badge)
    requires WellFormed(t) && img in t && parent in t && id !in t && img != parent
    ensures var r := AttachBadge(t, img, parent, id, badge);
      && r[img] == t[img].(style := t[img].style.(visibility := Some("hidden"), position := Some("absolute")))
      && r[parent] == t[parent].(style := t[parent].style.(position := Some("relative")),
                                 children := t[parent].children + [id])
      && r[id].made == BadgeElement(badge, img)
      && r[id].parent == Some(parent)
      && (forall x :: x in t && x != img && x != parent ==> r[x] == t[x])
  {
    var t1 := WithPosition(t, parent, "relative");
    var t2 := WithVisibility(t1, img, "hidden");
    var t3 := WithPosition(t2, img, "absolute");
    assert t3[parent] == t[parent].(style := t[parent].style.(position := Some("relative")));
    assert AttachBadge(t, img, parent, id, badge) == AppendChild(t3, parent, id, BadgeNode(badge, img));
  }

  /**
   * replaceAvatar: nothing for an image already processed; otherwise the image is marked,
   * and when it has a parent the badge for the resolved channel name is attached.
   */
  function ReplaceAvatar(p: Page, img: NodeId, q: Query): (r: Page)
    requires Valid(p) && img in p.nodes
    ensures Valid(r) && Extends(p, r)
    ensures r.avatars == p.avatars + {img} && r.thumbs == p.thumbs
    ensures img in p.avatars ==> r == p
  {
    if img in p.avatars then p
    else
      var marked := p.(avatars := p.avatars + {img});
      match p.nodes[img].parent
      case None => marked
      case Some(parent) => marked.(nodes := AttachBadge(p.nodes, img, parent, p.nextId, AvatarBadge(p.nodes, img, q)), nextId := p.nextId + 1)
  }

  /**
   * An avatar image with a parent ends hidden and absolutely positioned, its parent relative,
   * with the badge of the resolved name and size as the parent's last child; an image without
   * a parent is only marked.
   */
  lemma ReplaceAvatarEffect(p: Page, img: NodeId, q: Query)
    requires Valid(p) && img in p.nodes && img !in p.avatars
    ensures var r := ReplaceAvatar(p, img, q);
      var n := p.nodes[img];
      match n.parent
      case None => r == p.(avatars := p.avatars + {img})
      case Some(parent) =>
        && r.nodes.Keys == p.nodes.Keys + {p.nextId} && r.nextId == p.nextId + 1
        && r.nodes[img] == n.(style := n.style.(visibility := Some("hidden"), position := Some("absolute")))
        && r.nodes[parent] == p.nodes[parent].(style := p.nodes[parent].style.(position := Some("relative")),
                                               children := p.nodes[parent].children + [p.nextId])
        && r.nodes[p.nextId].made == BadgeElement(AvatarBadge(p.nodes, img, q), img)
        && r.nodes[p.nextId].parent == Some(parent)
        && (forall x :: x in p.nodes && x != img && x != parent ==> r.nodes[x] == p.nodes[x])
  {
    match p.nodes[img].parent
    case None =>
    case Some(parent) =>
      assert parent != img;
      AttachBadgeEffect(p.nodes, img, parent, p.nextId, AvatarBadge(p.nodes, img, q));
  }

  function Replace(p: Page, k: Kind, cfg: Config, el: NodeId, q: Query): (r: Page)
    requires Valid(p) && el in p.nodes
    ensures Valid(r) && Extends(p, r)
    ensures Processed(r, k) == Processed(p, k) + {el}
    ensures k.Thumbnail? ==> r.avatars == p.avatars
    ensures k.Avatar? ==> r.thumbs == p.thumbs
  {
    match k
    case Thumbnail => ReplaceThumbnail(p, cfg, el, q)
    case Avatar => ReplaceAvatar(p, el, q)
  }

  /** `el.setAttribute(stamp, 'true')` followed by the replacement. */
  function StampAndReplace(p: Page, k: Kind, cfg: Config, el: NodeId, q: Query): (r: Page)
    requires Valid(p) && el in p.nodes
    ensures Valid(r) && Persists(p, r)
    ensures Processed(r, k) == Processed(p, k) + {el}
    ensures k.Thumbnail? ==> r.avatars == p.avatars
    ensures k.Avatar? ==> r.thumbs == p.thumbs
    ensures Stamp(k) in r.nodes[el].attrs
  {
    var stamped := p.(nodes := SetAttribute(p.nodes, el, Stamp(k), "true"));
    SameShapeWellFormed(p.nodes, stamped.nodes);
    var r := Replace(stamped, k, cfg, el, q);
    assert Kept(stamped.nodes[el], r.nodes[el]);
    assert forall id :: id in p.nodes ==> p.nodes[id].attrs.Keys <= r.nodes[id].attrs.Keys by {
      forall id | id in p.nodes ensures p.nodes[id].attrs.Keys <= r.nodes[id].attrs.Keys {
        assert Kept(stamped.nodes[id], r.nodes[id]);
      }
    }
    r
  }

  /** The forEach of a scan: stamp and replace each element in turn. */
  function ProcessAll(p: Page, k: Kind, cfg: Config, els: seq<NodeId>, q: Query): (r: Page)
    requires Valid(p) && forall e :: e in els ==> e in p.nodes
    ensures Valid(r) && Persists(p, r)
    decreases |els|
  {
    if els == [] then p
    else
      var before := ProcessAll(p, k, cfg, els[..|els| - 1], q);
      assert els[|els| - 1] in els;
      StampAndReplace(before, k, cfg, els[|els| - 1], q)
  }

  /** The forEach over one more element is the forEach over the others followed by that element. */
  lemma ProcessAllSnoc(p: Page, k: Kind, cfg: Config, els: seq<NodeId>, i: nat, q: Query)
    requires Valid(p) && forall e :: e in els ==> e in p.nodes
    requires i < |els|
    ensures els[i] in ProcessAll(p, k, cfg, els[..i], q).nodes
    ensures ProcessAll(p, k, cfg, els[..i + 1], q) ==
      StampAndReplace(ProcessAll(p, k, cfg, els[..i], q), k, cfg, els[i], q)
  {
    var s := els[..i + 1];
    assert s[..|s| - 1] == els[..i] && s[|s| - 1] == els[i];
    assert els[i] in els;
  }

  /** A scan's forEach processes exactly the elements it is given, stamps each, and leaves the other set alone. */
  lemma {:induction false} ProcessAllMarks(p: Page, k: Kind, cfg: Config, els: seq<NodeId>, q: Query)
    requires Valid(p) && forall e :: e in els ==> e in p.nodes
    ensures var r := ProcessAll(p, k, cfg, els, q);
      && (forall x :: x in Processed(r, k) <==> x in Processed(p, k) || x in els)
      && (k.Thumbnail? ==> r.avatars == p.avatars)
      && (k.Avatar? ==> r.thumbs == p.thumbs)
      && forall e :: e in els ==> Stamp(k) in r.nodes[e].attrs
    decreases |els|
  {
    if els != [] {
      var init := els[..|els| - 1];
      var e := els[|els| - 1];
      assert forall x :: x in els <==> x in init || x == e;
      ProcessAllMarks(p, k, cfg, init, q);
      var before := ProcessAll(p, k, cfg, init, q);
      var r := StampAndReplace(before, k, cfg, e, q);
      assert ProcessAll(p, k, cfg, els, q) == r;
    }
  }

  /** The matches of `sel:not([stamp])`: those of `sel` that do not carry the stamp. */
  function Unstamped(t: Tree, matches: seq<NodeId>, stamp: string): (r: seq<NodeId>)
    requires forall m :: m in matches ==> m in t
    ensures forall e :: e in r <==> e in matches && stamp !in t[e].attrs
    ensures r == [] <==> forall m :: m in matches ==> stamp in t[m].attrs
  {
    if matches == [] then []
    else
      var init := matches[..|matches| - 1];
      var m := matches[|matches| - 1];
      assert forall x :: x in matches <==> x in init || x == m;
      Unstamped(t, init, stamp) + if stamp !in t[m].attrs then [m] else []
  }

  /** scanForThumbnails; `matches` are the elements `ytd-thumbnail, #thumbnail, yt-thumbnail-view-model` selects, in document order. */
  function ScanThumbnails(p: Page, cfg: Config, matches: seq<NodeId>, q: Query): (r: Page)
    requires Valid(p) && forall m :: m in matches ==> m in p.nodes
    ensures Valid(r) && Persists(p, r)
    ensures !cfg.enabled ==> r == p
  {
    if !cfg.enabled then p
    else ProcessAll(p, Thumbnail, cfg, Unstamped(p.nodes, matches, Stamp(Thumbnail)), q)
  }

  /** scanForAvatars; `matches` are the elements the eleven avatar selectors select, in document order. */
  function ScanAvatars(p: Page, cfg: Config, matches: seq<NodeId>, q: Query): (r: Page)
    requires Valid(p) && forall m :: m in matches ==> m in p.nodes
    ensures Valid(r) && Persists(p, r)
    ensures !cfg.enabled || !cfg.hideChannelAvatars ==> r == p
  {
    if !cfg.enabled || !cfg.hideChannelAvatars then p
    else ProcessAll(p, Avatar, cfg, Unstamped(p.nodes, matches, Stamp(Avatar)), q)
  }

  /** Every stamped element is in its processed set: only the scans stamp, and they replace what they stamp. */
  ghost predicate Consistent(p: Page) {
    forall id :: id in p.nodes ==>
      (Stamp(Thumbnail) in p.nodes[id].attrs ==> id in p.thumbs) &&
      (Stamp(Avatar) in p.nodes[id].attrs ==> id in p.avatars)
  }

  /** One stamp-and-replace step keeps every stamped element processed. */
  lemma StampAndReplaceConsistent(p: Page, k: Kind, cfg: Config, el: NodeId, q: Query)
    requires Valid(p) && Consistent(p) && el in p.nodes
    ensures Consistent(StampAndReplace(p, k, cfg, el, q))
  {
    var stamped := p.(nodes := SetAttribute(p.nodes, el, Stamp(k), "true"));
    SameShapeWellFormed(p.nodes, stamped.nodes);
    var r := Replace(stamped, k, cfg, el, q);
    forall id | id in r.nodes
      ensures Stamp(Thumbnail) in r.nodes[id].attrs ==> id in r.thumbs
      ensures Stamp(Avatar) in r.nodes[id].attrs ==> id in r.avatars
    {
      if id in stamped.nodes {
        assert Kept(stamped.nodes[id], r.nodes[id]);
      }
    }
  }

  lemma {:induction false} ProcessAllConsistent(p: Page, k: Kind, cfg: Config, els: seq<NodeId>, q: Query)
    requires Valid(p) && Consistent(p) && forall e :: e in els ==> e in p.nodes
    ensures Consistent(ProcessAll(p, k, cfg, els, q))
    decreases |els|
  {
    if els != [] {
      var init := els[..|els| - 1];
      assert forall x :: x in init ==> x in els;
      ProcessAllConsistent(p, k, cfg, init, q);
      assert els[|els| - 1] in els;
      StampAndReplaceConsistent(ProcessAll(p, k, cfg, init, q), k, cfg, els[|els| - 1], q);
    }
  }


  /** An enabled thumbnail scan leaves every matched element stamped and processed. */
  lemma ScanThumbnailsCoversMatches(p: Page, cfg: Config, matches: seq<NodeId>, q: Query)
    requires Valid(p) && Consistent(p) && forall m :: m in matches ==> m in p.nodes
    requires cfg.enabled
    ensures var r := ScanThumbnails(p, cfg, matches, q);
      forall m :: m in matches ==> Stamp(Thumbnail) in r.nodes[m].attrs && m in r.thumbs
  {
    var els := Unstamped(p.nodes, matches, Stamp(Thumbnail));
    ProcessAllMarks(p, Thumbnail, cfg, els, q);
    ProcessAllConsistent(p, Thumbnail, cfg, els, q);
  }

  /** An avatar scan that runs leaves every matched image stamped and processed. */
  lemma ScanAvatarsCoversMatches(p: Page, cfg: Config, matches: seq<NodeId>, q: Query)
    requires Valid(p) && Consistent(p) && forall m :: m in matches ==> m in p.nodes
    requires cfg.enabled && cfg.hideChannelAvatars
    ensures var r := ScanAvatars(p, cfg, matches, q);
      forall m :: m in matches ==> Stamp(Avatar) in r.nodes[m].attrs && m in r.avatars
  {
    var els := Unstamped(p.nodes, matches, Stamp(Avatar));
    ProcessAllMarks(p, Avatar, cfg, els, q);
    ProcessAllConsistent(p, Avatar, cfg, els, q);
  }

  /** A second scan over the same matches finds nothing left to do. */
  lemma ScanThumbnailsIdempotent(p: Page, cfg: Config, matches: seq<NodeId>, q: Query)
    requires Valid(p) && forall m :: m in matches ==> m in p.nodes
    ensures var r := ScanThumbnails(p, cfg, matches, q);
      ScanThumbnails(r, cfg, matches, q) == r
  {
    var r := ScanThumbnails(p, cfg, matches, q);
    if cfg.enabled {
      var els := Unstamped(p.nodes, matches, Stamp(Thumbnail));
      ProcessAllMarks(p, Thumbnail, cfg, els, q);
      assert r == ProcessAll(p, Thumbnail, cfg, els, q);
      forall m | m in matches ensures Stamp(Thumbnail) in r.nodes[m].attrs {
        if m !in els {
          assert Stamp(Thumbnail) in p.nodes[m].attrs;
        }
      }
      assert Unstamped(r.nodes, matches, Stamp(Thumbnail)) == [];
      assert ProcessAll(r, Thumbnail, cfg, [], q) == r;
    }
  }

  /** Likewise for the avatar scan. */
  lemma ScanAvatarsIdempotent(p: Page, cfg: Config, matches: seq<NodeId>, q: Query)
    requires Valid(p) && forall m :: m in matches ==> m in p.nodes
    ensures var r := ScanAvatars(p, cfg, matches, q);
      ScanAvatars(r, cfg, matches, q) == r
  {
    var r := ScanAvatars(p, cfg, matches, q);
    if cfg.enabled && cfg.hideChannelAvatars {
      var els := Unstamped(p.nodes, matches, Stamp(Avatar));
      ProcessAllMarks(p, Avatar, cfg, els, q);
      assert r == ProcessAll(p, Avatar, cfg, els, q);
      forall m | m in matches ensures Stamp(Avatar) in r.nodes[m].attrs {
        if m !in els {
          assert Stamp(Avatar) in p.nodes[m].attrs;
        }
      }
      assert Unstamped(r.nodes, matches, Stamp(Avatar)) == [];
      assert ProcessAll(r, Avatar, cfg, [], q) == r;
    }
  }

  // ---------------------------------------------------------------------------------
  // At most once: an element carries at most one card, and only a processed thumbnail one
  // ---------------------------------------------------------------------------------

  /** How many of the elements `cs` are cards. */
  function CardsAmong(t: Tree, cs: seq<NodeId>): (n: nat)
    ensures n <= |cs|
  {
    if cs == [] then 0
    else
      var c := cs[|cs| - 1];
      CardsAmong(t, cs[..|cs| - 1]) + if c in t && t[c].made.CardElement? then 1 else 0
  }

  lemma {:induction false} CardsAmongSameMade(t: Tree, u: Tree, cs: seq<NodeId>)
    requires forall c :: c in cs ==> c in t && c in u && u[c].made == t[c].made
    ensures CardsAmong(u, cs) == CardsAmong(t, cs)
  {
    if cs != [] {
      var init := cs[..|cs| - 1];
      assert forall c :: c in init ==> c in cs;
      CardsAmongSameMade(t, u, init);
      assert cs[|cs| - 1] in cs;
    }
  }

  lemma CardsAmongAppend(t: Tree, cs: seq<NodeId>, c: NodeId)
    ensures CardsAmong(t, cs + [c]) == CardsAmong(t, cs) + if c in t && t[c].made.CardElement? then 1 else 0
  {
    assert (cs + [c])[..|cs|] == cs;
  }

  /** No element has more than one card among its children, and only a processed thumbnail has one. */
  ghost predicate AtMostOnce(p: Page) {
    forall x :: x in p.nodes ==> CardsAmong(p.nodes, p.nodes[x].children) <= if x in p.thumbs then 1 else 0
  }

  /** A host page, before the script runs, has no card anywhere. */
  lemma HostPageAtMostOnce(p: Page)
    requires WellFormed(p.nodes)
    requires forall x :: x in p.nodes ==> !p.nodes[x].made.CardElement?
    ensures AtMostOnce(p)
  {
    forall x | x in p.nodes ensures CardsAmong(p.nodes, p.nodes[x].children) == 0 {
      CardsAmongNone(p.nodes, p.nodes[x].children);
    }
  }

  lemma {:induction false} CardsAmongNone(t: Tree, cs: seq<NodeId>)
    requires forall c :: c in cs && c in t ==> !t[c].made.CardElement?
    ensures CardsAmong(t, cs) == 0
  {
    if cs != [] {
      var init := cs[..|cs| - 1];
      assert forall c :: c in init ==> c in cs;
      CardsAmongNone(t, init);
      assert cs[|cs| - 1] in cs;
    }
  }

  /** Counting the children of an old element gives the same answer in a table that grew from it. */
  lemma CountKept(p: Page, r: Page, x: NodeId)
    requires Valid(p) && Grows(p.nodes, r.nodes) && x in p.nodes
    ensures CardsAmong(r.nodes, p.nodes[x].children) == CardsAmong(p.nodes, p.nodes[x].children)
  {
    forall c | c in p.nodes[x].children ensures c in p.nodes && c in r.nodes && r.nodes[c].made == p.nodes[c].made {
      assert Kept(p.nodes[c], r.nodes[c]);
    }
    CardsAmongSameMade(p.nodes, r.nodes, p.nodes[x].children);
  }

  lemma ReplaceThumbnailAtMostOnce(p: Page, cfg: Config, container: NodeId, q: Query)
    requires Valid(p) && AtMostOnce(p) && container in p.nodes
    ensures AtMostOnce(ReplaceThumbnail(p, cfg, container, q))
  {
    var r := ReplaceThumbnail(p, cfg, container, q);
    if container !in p.thumbs && ThumbnailCard(p.nodes, container, cfg, q).Some? {
      ReplaceThumbnailEffect(p, cfg, container, q);
      var c0 := p.nodes[container];
      forall x | x in r.nodes
        ensures CardsAmong(r.nodes, r.nodes[x].children) <= if x in r.thumbs then 1 else 0
      {
        if x == p.nextId {
        } else if x == container {
          CountKept(p, r, container);
          CardsAmongAppend(r.nodes, c0.children, p.nextId);
        } else {
          assert r.nodes[x].children == p.nodes[x].children;
          CountKept(p, r, x);
        }
      }
    }
  }

  lemma ReplaceAvatarAtMostOnce(p: Page, img: NodeId, q: Query)
    requires Valid(p) && AtMostOnce(p) && img in p.nodes
    ensures AtMostOnce(ReplaceAvatar(p, img, q))
  {
    var r := ReplaceAvatar(p, img, q);
    if img !in p.avatars && p.nodes[img].parent.Some? {
      ReplaceAvatarEffect(p, img, q);
      var parent := p.nodes[img].parent.value;
      forall x | x in r.nodes
        ensures CardsAmong(r.nodes, r.nodes[x].children) <= if x in r.thumbs then 1 else 0
      {
        if x == p.nextId {
        } else if x == parent {
          CountKept(p, r, parent);
          CardsAmongAppend(r.nodes, p.nodes[parent].children, p.nextId);
        } else {
          assert r.nodes[x].children == p.nodes[x].children;
          CountKept(p, r, x);
        }
      }
    }
  }

  /** Stamping an attribute changes no element's children and no element into a card. */
  lemma StampKeepsAtMostOnce(p: Page, el: NodeId, name: string)
    requires Valid(p) && AtMostOnce(p) && el in p.nodes
    ensures Valid(p.(nodes := SetAttribute(p.nodes, el, name, "true")))
    ensures AtMostOnce(p.(nodes := SetAttribute(p.nodes, el, name, "true")))
  {
    var stamped := p.(nodes := SetAttribute(p.nodes, el, name, "true"));
    SameShapeWellFormed(p.nodes, stamped.nodes);
    forall x | x in stamped.nodes
      ensures CardsAmong(stamped.nodes, stamped.nodes[x].children) <= if x in stamped.thumbs then 1 else 0
    {
      forall c | c in p.nodes[x].children ensures c in p.nodes && c in stamped.nodes && stamped.nodes[c].made == p.nodes[c].made {
      }
      CardsAmongSameMade(p.nodes, stamped.nodes, p.nodes[x].children);
    }
  }

  lemma StampAndReplaceAtMostOnce(p: Page, k: Kind, cfg: Config, el: NodeId, q: Query)
    requires Valid(p) && AtMostOnce(p) && el in p.nodes
    ensures AtMostOnce(StampAndReplace(p, k, cfg, el, q))
  {
    var stamped := p.(nodes := SetAttribute(p.nodes, el, Stamp(k), "true"));
    StampKeepsAtMostOnce(p, el, Stamp(k));
    match k
    case Thumbnail => ReplaceThumbnailAtMostOnce(stamped, cfg, el, q);
    case Avatar => ReplaceAvatarAtMostOnce(stamped, el, q);
  }

  lemma {:induction false} ProcessAllAtMostOnce(p: Page, k: Kind, cfg: Config, els: seq<NodeId>, q: Query)
    requires Valid(p) && AtMostOnce(p) && forall e :: e in els ==> e in p.nodes
    ensures AtMostOnce(ProcessAll(p, k, cfg, els, q))
    decreases |els|
  {
    if els != [] {
      var init := els[..|els| - 1];
      assert forall x :: x in init ==> x in els;
      ProcessAllAtMostOnce(p, k, cfg, init, q);
      assert els[|els| - 1] in els;
      StampAndReplaceAtMostOnce(ProcessAll(p, k, cfg, init, q), k, cfg, els[|els| - 1], q);
    }
  }

  // ---------------------------------------------------------------------------------
  // At most once for avatars: an image has at most one badge, and only a processed one
  // ---------------------------------------------------------------------------------

  /** The image element `b` is the badge of, if it is a badge. */
  function BadgeImg(t: Tree, b: NodeId): (r: Option<NodeId>)
    ensures r.Some? <==> b in t && t[b].made.BadgeElement?
  {
    if b in t && t[b].made.BadgeElement? then Some(t[b].made.img) else None
  }

  /** Every badge stands for a processed image, and no two badges stand for the same image. */
  ghost predicate BadgesAtMostOnce(p: Page) {
    && (forall b :: BadgeImg(p.nodes, b).Some? ==> BadgeImg(p.nodes, b).value in p.avatars)
    && (forall b1, b2 :: BadgeImg(p.nodes, b1).Some? && BadgeImg(p.nodes, b1) == BadgeImg(p.nodes, b2) ==> b1 == b2)
  }

  /** Growing the page by elements that are not badges, and processing more images, keeps the badge invariant. */
  lemma BadgesKept(p: Page, r: Page)
    requires BadgesAtMostOnce(p) && p.nodes.Keys <= r.nodes.Keys && p.avatars <= r.avatars
    requires forall x :: x in p.nodes ==> r.nodes[x].made == p.nodes[x].made
    requires forall x :: x in r.nodes && x !in p.nodes ==> !r.nodes[x].made.BadgeElement?
    ensures BadgesAtMostOnce(r)
  {
    assert forall b :: BadgeImg(r.nodes, b) == BadgeImg(p.nodes, b);
  }

  lemma ReplaceThumbnailBadges(p: Page, cfg: Config, container: NodeId, q: Query)
    requires Valid(p) && BadgesAtMostOnce(p) && container in p.nodes
    ensures BadgesAtMostOnce(ReplaceThumbnail(p, cfg, container, q))
  {
    var r := ReplaceThumbnail(p, cfg, container, q);
    forall x | x in p.nodes ensures r.nodes[x].made == p.nodes[x].made {
      assert Kept(p.nodes[x], r.nodes[x]);
    }
    if container !in p.thumbs {
      ReplaceThumbnailEffect(p, cfg, container, q);
    }
    BadgesKept(p, r);
  }

  /** A table that grew keeps what each old element is. */
  lemma GrowsKeepsMade(t: Tree, u: Tree)
    requires Grows(t, u)
    ensures forall x :: x in t ==> u[x].made == t[x].made
  {
    forall x | x in t ensures u[x].made == t[x].made {
      assert Kept(t[x], u[x]);
    }
  }

  /** One new badge, for an image not processed before and processed now, keeps the badge invariant. */
  lemma BadgeAdded(p: Page, r: Page, img: NodeId, id: NodeId)
    requires BadgesAtMostOnce(p) && img !in p.avatars && id !in p.nodes
    requires r.nodes.Keys == p.nodes.Keys + {id} && r.avatars == p.avatars + {img}
    requires forall x :: x in p.nodes ==> r.nodes[x].made == p.nodes[x].made
    requires r.nodes[id].made.BadgeElement? && r.nodes[id].made.img == img
    ensures BadgesAtMostOnce(r)
  {
    assert forall b :: BadgeImg(p.nodes, b).Some? ==> BadgeImg(p.nodes, b) != Some(img);
    assert forall b :: b in p.nodes ==> BadgeImg(r.nodes, b) == BadgeImg(p.nodes, b);
  }

  /** The badge replaceAvatar adds stands for an image that was not yet processed, so it is the only one. */
  lemma ReplaceAvatarBadges(p: Page, img: NodeId, q: Query)
    requires Valid(p) && BadgesAtMostOnce(p) && img in p.nodes
    ensures BadgesAtMostOnce(ReplaceAvatar(p, img, q))
  {
    var r := ReplaceAvatar(p, img, q);
    GrowsKeepsMade(p.nodes, r.nodes);
    if img !in p.avatars && p.nodes[img].parent.Some? {
      ReplaceAvatarEffect(p, img, q);
      BadgeAdded(p, r, img, p.nextId);
    } else {
      BadgesKept(p, r);
    }
  }

  lemma StampAndReplaceBadges(p: Page, k: Kind, cfg: Config, el: NodeId, q: Query)
    requires Valid(p) && BadgesAtMostOnce(p) && el in p.nodes
    ensures BadgesAtMostOnce(StampAndReplace(p, k, cfg, el, q))
  {
    var stamped := p.(nodes := SetAttribute(p.nodes, el, Stamp(k), "true"));
    SameShapeWellFormed(p.nodes, stamped.nodes);
    BadgesKept(p, stamped);
    match k
    case Thumbnail => ReplaceThumbnailBadges(stamped, cfg, el, q);
    case Avatar => ReplaceAvatarBadges(stamped, el, q);
  }

  lemma {:induction false} ProcessAllBadges(p: Page, k: Kind, cfg: Config, els: seq<NodeId>, q: Query)
    requires Valid(p) && BadgesAtMostOnce(p) && forall e :: e in els ==> e in p.nodes
    ensures BadgesAtMostOnce(ProcessAll(p, k, cfg, els, q))
    decreases |els|
  {
    if els != [] {
      var init := els[..|els| - 1];
      assert forall x :: x in init ==> x in els;
      ProcessAllBadges(p, k, cfg, init, q);
      assert els[|els| - 1] in els;
      StampAndReplaceBadges(ProcessAll(p, k, cfg, init, q), k, cfg, els[|els| - 1], q);
    }
  }

  /** Both processed sets hold elements of the page only. */
  ghost predicate Tracked(p: Page) {
    p.thumbs <= p.nodes.Keys && p.avatars <= p.nodes.Keys
  }

  /** What every page between two scans satisfies. */
  ghost predicate Invariant(p: Page) {
    Valid(p) && Tracked(p) && AtMostOnce(p) && BadgesAtMostOnce(p) && Consistent(p)
  }

  /** A thumbnail scan keeps both invariants of the page: nothing transformed twice, every stamp processed. */
  lemma ScanThumbnailsKeeps(p: Page, cfg: Config, matches: seq<NodeId>, q: Query)
    requires Invariant(p) && forall m :: m in matches ==> m in p.nodes
    ensures Invariant(ScanThumbnails(p, cfg, matches, q))
  {
    if cfg.enabled {
      var els := Unstamped(p.nodes, matches, Stamp(Thumbnail));
      ProcessAllAtMostOnce(p, Thumbnail, cfg, els, q);
      ProcessAllBadges(p, Thumbnail, cfg, els, q);
      ProcessAllConsistent(p, Thumbnail, cfg, els, q);
      ProcessAllMarks(p, Thumbnail, cfg, els, q);
    }
  }

  /** An avatar scan keeps both invariants of the page. */
  lemma ScanAvatarsKeeps(p: Page, cfg: Config, matches: seq<NodeId>, q: Query)
    requires Invariant(p) && forall m :: m in matches ==> m in p.nodes
    ensures Invariant(ScanAvatars(p, cfg, matches, q))
  {
    if cfg.enabled && cfg.hideChannelAvatars {
      var els := Unstamped(p.nodes, matches, Stamp(Avatar));
      ProcessAllAtMostOnce(p, Avatar, cfg, els, q);
      ProcessAllBadges(p, Avatar, cfg, els, q);
      ProcessAllConsistent(p, Avatar, cfg, els, q);
      ProcessAllMarks(p, Avatar, cfg, els, q);
    }
  }

  // ---------------------------------------------------------------------------------
  // The host page between scans
  // ---------------------------------------------------------------------------------

  /**
   * The host page appends an element of its own under `parent`, as YouTube does when more
   * videos scroll in; the element gets the next fresh identity and has no children yet.
   */
  function HostInsert(p: Page, parent: NodeId, node: Node): (r: Page)
    requires Valid(p) && parent in p.nodes
    ensures Valid(r) && Grows(p.nodes, r.nodes)
    ensures r.nodes.Keys == p.nodes.Keys + {p.nextId} && r.nextId == p.nextId + 1
    ensures r.nodes[p.nextId] == node.(parent := Some(parent), depth := p.nodes[parent].depth + 1, children := [])
    ensures r.nodes[parent] == p.nodes[parent].(children := p.nodes[parent].children + [p.nextId])
    ensures forall x :: x in p.nodes && x != parent ==> r.nodes[x] == p.nodes[x]
    ensures r.thumbs == p.thumbs && r.avatars == p.avatars
  {
    AppendChildWellFormed(p.nodes, parent, p.nextId, node);
    p.(nodes := AppendChild(p.nodes, parent, p.nextId, node), nextId := p.nextId + 1)
  }

  /** A host element appended under a parent adds no card, so the card invariant is kept. */
  lemma HostInsertAtMostOnce(p: Page, parent: NodeId, node: Node)
    requires Valid(p) && AtMostOnce(p) && parent in p.nodes && node.made == HostElement
    ensures AtMostOnce(HostInsert(p, parent, node))
  {
    var r := HostInsert(p, parent, node);
    forall x | x in r.nodes
      ensures CardsAmong(r.nodes, r.nodes[x].children) <= if x in r.thumbs then 1 else 0
    {
      if x == p.nextId {
      } else if x == parent {
        CountKept(p, r, parent);
        CardsAmongAppend(r.nodes, p.nodes[parent].children, p.nextId);
      } else {
        CountKept(p, r, x);
      }
    }
  }

  /** An unstamped element keeps every stamped element processed. */
  lemma HostInsertConsistent(p: Page, parent: NodeId, node: Node)
    requires Valid(p) && Consistent(p) && parent in p.nodes
    requires Stamp(Thumbnail) !in node.attrs && Stamp(Avatar) !in node.attrs
    ensures Consistent(HostInsert(p, parent, node))
  {
  }

  /**
   * An element the host page inserts, which is neither built by the script nor stamped, keeps
   * every invariant of the page, and it is not processed yet.
   */
  lemma HostInsertKeeps(p: Page, parent: NodeId, node: Node)
    requires Invariant(p) && parent in p.nodes
    requires node.made == HostElement && Stamp(Thumbnail) !in node.attrs && Stamp(Avatar) !in node.attrs
    ensures var r := HostInsert(p, parent, node);
      Invariant(r) && p.nextId !in r.thumbs && p.nextId !in r.avatars
  {
    var r := HostInsert(p, parent, node);
    GrowsKeepsMade(p.nodes, r.nodes);
    BadgesKept(p, r);
    HostInsertAtMostOnce(p, parent, node);
    HostInsertConsistent(p, parent, node);
  }

  /** The rescan after an insertion reaches the new element: a thumbnail not processed before is processed now. */
  lemma InsertedThumbnailIsScanned(p: Page, parent: NodeId, node: Node, cfg: Config, matches: seq<NodeId>, q: Query)
    requires Invariant(p) && parent in p.nodes
    requires node.made == HostElement && Stamp(Thumbnail) !in node.attrs && Stamp(Avatar) !in node.attrs
    requires cfg.enabled
    requires forall m :: m in matches ==> m in HostInsert(p, parent, node).nodes
    requires p.nextId in matches
    ensures var r := HostInsert(p, parent, node);
      p.nextId !in r.thumbs && p.nextId in ScanThumbnails(r, cfg, matches, q).thumbs
  {
    HostInsertKeeps(p, parent, node);
    ScanThumbnailsCoversMatches(HostInsert(p, parent, node), cfg, matches, q);
  }

  /** Likewise an inserted avatar image is processed by the next avatar scan that runs. */
  lemma InsertedAvatarIsScanned(p: Page, parent: NodeId, node: Node, cfg: Config, matches: seq<NodeId>, q: Query)
    requires Invariant(p) && parent in p.nodes
    requires node.made == HostElement && Stamp(Thumbnail) !in node.attrs && Stamp(Avatar) !in node.attrs
    requires cfg.enabled && cfg.hideChannelAvatars
    requires forall m :: m in matches ==> m in HostInsert(p, parent, node).nodes
    requires p.nextId in matches
    ensures var r := HostInsert(p, parent, node);
      p.nextId !in r.avatars && p.nextId in ScanAvatars(r, cfg, matches, q).avatars
  {
    HostInsertKeeps(p, parent, node);
    ScanAvatarsCoversMatches(HostInsert(p, parent, node), cfg, matches, q);
  }
}
