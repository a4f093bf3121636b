/**
 * The content script as an object: the configuration it loads, the page it changes in
 * place, its two processed sets and the debounce timer of its observer. Each method does
 * what the function of the same name does and is specified by the matching transition
 * of the Page and Debounce modules.
 */
module Script {
  import opened Wrappers
  import opened Text
  import opened Settings
  import opened Cards
  import opened Dom
  import opened Extract
  import Page
  import opened Debounce

  /** The steps of the script in the order they happen, for stating that order. */
  datatype Step = ConfigLoaded | ThumbnailScan | AvatarScan | ObserverInstalled

  /** One `if (data.k !== undefined) CONFIG.k = data.k` line of loadConfig. */
  method LoadFlag(stored: Option<bool>, current: bool) returns (value: bool)
    ensures stored.Some? ==> value == stored.value
    ensures stored.None? ==> value == current
  {
    value := current;
    if stored.Some? {
      value := stored.value;
    }
  }

  /** One `if (data.k) CONFIG.k = data.k` line of loadConfig: an empty string is not loaded. */
  method LoadName(stored: Option<string>, current: string) returns (value: string)
    ensures Truthy(stored) ==> value == stored.value
    ensures !Truthy(stored) ==> value == current
  {
    value := current;
    if Truthy(stored) {
      value := stored.value;
    }
  }

  /** The merge of loadConfig, one stored key after the other. */
  method MergeStored(current: Config, d: Stored) returns (c: Config)
    ensures c == Merge(current, d)
  {
    var enabled := LoadFlag(d.enabled, current.enabled);
    var mode := LoadName(d.mode, current.mode);
    var font := LoadName(d.font, current.font);
    var showChannel := LoadFlag(d.showChannel, current.showChannel);
    var showDuration := LoadFlag(d.showDuration, current.showDuration);
    var showNoise := LoadFlag(d.showNoise, current.showNoise);
    var accentFromHash := LoadFlag(d.accentFromHash, current.accentFromHash);
    var hideChannelAvatars := LoadFlag(d.hideChannelAvatars, current.hideChannelAvatars);
    c := current.(enabled := enabled, mode := mode, font := font, showChannel := showChannel,
      showDuration := showDuration, showNoise := showNoise, accentFromHash := accentFromHash,
      hideChannelAvatars := hideChannelAvatars);
  }

  /** The forEach of replaceThumbnail that hides every child of the container that is not a card. */
  method HideAll(t: Tree, children: seq<NodeId>) returns (u: Tree)
    ensures u == HideChildren(t, children)
  {
    u := t;
    for i := 0 to |children|
      invariant u == HideChildren(t, children[..i])
    {
      var child := children[i];
      if child in u && !IsCard(u[child]) {
        u := WithVisibility(u, child, "hidden");
      }
      assert children[..i + 1][..i] == children[..i];
    }
    assert children[..|children|] == children;
  }

  /** The style changes and the insertion of replaceThumbnail, once the card is built. */
  method AttachCardTo(t: Tree, container: NodeId, id: NodeId, card: Card) returns (u: Tree)
    requires WellFormed(t) && container in t && id !in t
    ensures u == Page.AttachCard(t, container, id, card)
  {
    u := WithPosition(t, container, "relative");
    u := HideAll(u, u[container].children);
    u := AppendChild(u, container, id, Page.CardNode(card));
  }

  /** The style changes and the insertion of replaceAvatar, once the badge is built. */
  method AttachBadgeTo(t: Tree, img: NodeId, parent: NodeId, id: NodeId, badge: Badge) returns (u: Tree)
    requires WellFormed(t) && img in t && parent in t && id !in t
    ensures u == Page.AttachBadge(t, img, parent, id, badge)
  {
    u := WithPosition(t, parent, "relative");
    u := WithVisibility(u, img, "hidden");
    u := WithPosition(u, img, "absolute");
    u := AppendChild(u, parent, id, Page.BadgeNode(badge, img));
  }

  /** The thumbnail it builds for a container: the video data, the image source and the card for the mode. */
  method CardFor(t: Tree, container: NodeId, cfg: Config, q: Query) returns (card: Option<Card>)
    requires WellFormed(t) && container in t
    ensures card == Page.ThumbnailCard(t, container, cfg, q)
  {
    var videoData := ExtractVideoData(t, container, q);
    if videoData.None? {
      return None;
    }
    var v := videoData.value;
    var imgSrc := ThumbnailSrc(ImgOf(t, q(container, "img")), v.videoId);
    card := Some(CreateCard(v, cfg, imgSrc));
  }

  /** The channel name and the size replaceAvatar computes, and the badge it builds from them. */
  method BadgeFor(t: Tree, img: NodeId, q: Query) returns (badge: Badge)
    requires WellFormed(t) && img in t
    ensures badge == Page.AvatarBadge(t, img, q)
  {
    var channelName := ResolveChannel(t, img, q);
    var size := AvatarSize(t[img].offsetWidth, t[img].width);
    badge := AvatarReplacement(channelName, size);
  }

  /** replaceThumbnail on the page as it stands: mark the container, then place the card if one is built. */
  method ReplaceThumbnailOn(p: Page.Page, cfg: Config, container: NodeId, q: Query) returns (r: Page.Page)
    requires Page.Valid(p) && container in p.nodes
    ensures r == Page.ReplaceThumbnail(p, cfg, container, q)
  {
    if container in p.thumbs {
      return p;
    }
    assert WellFormed(p.nodes) && p.nextId !in p.nodes;
    var card := CardFor(p.nodes, container, cfg, q);
    if card.None? {
      return p.(thumbs := p.thumbs + {container});
    }
    r := PlaceCard(p, cfg, container, q, card.value);
  }

  /** The part of replaceThumbnail after the card exists. */
  method PlaceCard(p: Page.Page, cfg: Config, container: NodeId, q: Query, card: Card) returns (r: Page.Page)
    requires Page.Valid(p) && container in p.nodes && container !in p.thumbs
    requires Page.ThumbnailCard(p.nodes, container, cfg, q) == Some(card)
    ensures r == Page.ReplaceThumbnail(p, cfg, container, q)
  {
    assert WellFormed(p.nodes) && p.nextId !in p.nodes;
    var nodes := AttachCardTo(p.nodes, container, p.nextId, card);
    r := Page.Page(nodes, p.nextId + 1, p.thumbs + {container}, p.avatars);
  }

  /** replaceAvatar on the page as it stands: mark the image, then place the badge if the image has a parent. */
  method ReplaceAvatarOn(p: Page.Page, img: NodeId, q: Query) returns (r: Page.Page)
    requires Page.Valid(p) && img in p.nodes
    ensures r == Page.ReplaceAvatar(p, img, q)
  {
    if img in p.avatars {
      return p;
    }
    if p.nodes[img].parent.None? {
      return p.(avatars := p.avatars + {img});
    }
    r := PlaceBadge(p, img, q);
  }

  /** The part of replaceAvatar for an image with a parent. */
  method PlaceBadge(p: Page.Page, img: NodeId, q: Query) returns (r: Page.Page)
    requires Page.Valid(p) && img in p.nodes && img !in p.avatars && p.nodes[img].parent.Some?
    ensures r == Page.ReplaceAvatar(p, img, q)
  {
    var parent := p.nodes[img].parent.value;
    assert WellFormed(p.nodes) && parent in p.nodes && p.nextId !in p.nodes;
    var badge := BadgeFor(p.nodes, img, q);
    var nodes := AttachBadgeTo(p.nodes, img, parent, p.nextId, badge);
    r := Page.Page(nodes, p.nextId + 1, p.thumbs, p.avatars + {img});
  }

  /** One iteration of a scan's forEach: stamp the element, then replace it. */
  method StampAndReplaceOn(p: Page.Page, k: Page.Kind, cfg: Config, el: NodeId, q: Query) returns (r: Page.Page)
    requires Page.Valid(p) && el in p.nodes
    ensures r == Page.StampAndReplace(p, k, cfg, el, q)
  {
    var stamped := p.(nodes := SetAttribute(p.nodes, el, Page.Stamp(k), "true"));
    SameShapeWellFormed(p.nodes, stamped.nodes);
    match k
    case Thumbnail => r := ReplaceThumbnailOn(stamped, cfg, el, q);
    case Avatar => r := ReplaceAvatarOn(stamped, el, q);
  }

  /** The forEach shared by both scans, one element after the other in document order. */
  method ProcessAllOn(p: Page.Page, k: Page.Kind, cfg: Config, els: seq<NodeId>, q: Query) returns (r: Page.Page)
    requires Page.Valid(p) && forall e :: e in els ==> e in p.nodes
    ensures r == Page.ProcessAll(p, k, cfg, els, q)
  {
    r := p;
    for i := 0 to |els|
      invariant r == Page.ProcessAll(p, k, cfg, els[..i], q)
    {
      Page.ProcessAllSnoc(p, k, cfg, els, i, q);
      r := StampAndReplaceOn(r, k, cfg, els[i], q);
    }
    assert els[..|els|] == els;
  }

  /** scanForThumbnails on the page as it stands: nothing when disabled, else every unstamped match. */
  method ScanThumbnailsOn(p: Page.Page, cfg: Config, matches: seq<NodeId>, q: Query) returns (r: Page.Page)
    requires Page.Valid(p) && forall m :: m in matches ==> m in p.nodes
    ensures r == Page.ScanThumbnails(p, cfg, matches, q)
  {
    if !cfg.enabled {
      return p;
    }
    var thumbnails := Page.Unstamped(p.nodes, matches, Page.Stamp(Page.Thumbnail));
    r := ProcessAllOn(p, Page.Thumbnail, cfg, thumbnails, q);
  }

  /** scanForAvatars on the page as it stands: nothing unless enabled and hiding avatars, else every unstamped match. */
  method ScanAvatarsOn(p: Page.Page, cfg: Config, matches: seq<NodeId>, q: Query) returns (r: Page.Page)
    requires Page.Valid(p) && forall m :: m in matches ==> m in p.nodes
    ensures r == Page.ScanAvatars(p, cfg, matches, q)
  {
    if !cfg.enabled || !cfg.hideChannelAvatars {
      return p;
    }
    var avatars := Page.Unstamped(p.nodes, matches, Page.Stamp(Page.Avatar));
    r := ProcessAllOn(p, Page.Avatar, cfg, avatars, q);
  }

  class ContentScript {
    var config: Config
    var nodes: Tree
    var nextId: NodeId
    var processedThumbnails: set<NodeId>
    var processedAvatars: set<NodeId>
    var timers: Timers
    var observing: bool
    ghost var trace: seq<Step>

    /** The page as the Page module sees it. */
    function State(): Page.Page
      reads this`nodes, this`nextId, this`processedThumbnails, this`processedAvatars
    {
      Page.Page(nodes, nextId, processedThumbnails, processedAvatars)
    }

    /**
     * What holds between the script's entry points: the page is well formed, no element is
     * transformed twice, every stamped element is processed, and at most one timer is pending.
     */
    ghost predicate Valid()
      reads this`nodes, this`nextId, this`processedThumbnails, this`processedAvatars, this`timers
    {
      Page.Invariant(State()) && Debounce.Invariant(timers)
    }

    /** Writes a page computed from the current one back to the fields that hold it. */
    method Commit(r: Page.Page)
      requires Page.Invariant(r) && Debounce.Invariant(timers)
      modifies this
      ensures Valid() && State() == r
      ensures config == old(config) && timers == old(timers) && observing == old(observing) && trace == old(trace)
    {
      nodes, nextId, processedThumbnails, processedAvatars := r.nodes, r.nextId, r.thumbs, r.avatars;
    }

    /** The script's state when it starts on a host page that carries no card and no stamp. */
    constructor (page: Tree, firstFree: NodeId)
      requires WellFormed(page) && forall id :: id in page ==> id < firstFree
      requires forall id :: id in page ==>
        page[id].made == HostElement &&
        Page.Stamp(Page.Thumbnail) !in page[id].attrs && Page.Stamp(Page.Avatar) !in page[id].attrs
      ensures Valid()
      ensures config == Defaults && nodes == page && nextId == firstFree
      ensures processedThumbnails == {} && processedAvatars == {}
      ensures timers == NoTimers && !observing && trace == []
    {
      config := Defaults;
      nodes := page;
      nextId := firstFree;
      processedThumbnails := {};
      processedAvatars := {};
      timers := NoTimers;
      observing := false;
      trace := [];
      new;
      Page.HostPageAtMostOnce(State());
    }

    /** loadConfig once the store has answered; None stands for a read that failed and was caught. */
    method LoadConfig(data: Option<Stored>)
      requires Valid()
      modifies this
      ensures Valid()
      ensures config == if data.Some? then Merge(old(config), data.value) else old(config)
      ensures State() == old(State()) && timers == old(timers) && observing == old(observing)
      ensures trace == old(trace) + [ConfigLoaded]
    {
      if data.Some? {
        config := MergeStored(config, data.value);
      }
      trace := trace + [ConfigLoaded];
    }

    /** scanForThumbnails; `matches` are what the three thumbnail selectors select, in document order. */
    method ScanForThumbnails(matches: seq<NodeId>, q: Query)
      requires Valid() && forall m :: m in matches ==> m in nodes
      modifies this
      ensures Valid()
      ensures State() == Page.ScanThumbnails(old(State()), old(config), matches, q)
      ensures config == old(config) && timers == old(timers) && observing == old(observing)
      ensures trace == old(trace) + [ThumbnailScan]
    {
      trace := trace + [ThumbnailScan];
      var p := State();
      Page.ScanThumbnailsKeeps(p, config, matches, q);
      var r := ScanThumbnailsOn(p, config, matches, q);
      Commit(r);
    }

    /** scanForAvatars; `matches` are what the eleven avatar selectors select, in document order. */
    method ScanForAvatars(matches: seq<NodeId>, q: Query)
      requires Valid() && forall m :: m in matches ==> m in nodes
      modifies this
      ensures Valid()
      ensures State() == Page.ScanAvatars(old(State()), old(config), matches, q)
      ensures config == old(config) && timers == old(timers) && observing == old(observing)
      ensures trace == old(trace) + [AvatarScan]
    {
      trace := trace + [AvatarScan];
      var p := State();
      Page.ScanAvatarsKeeps(p, config, matches, q);
      var r := ScanAvatarsOn(p, config, matches, q);
      Commit(r);
    }

    /**
     * The host page appends an element of its own under `parent`, such as a video that
     * scrolls in; it becomes element `id`, unprocessed until a scan reaches it.
     */
    method HostInsert(parent: NodeId, node: Node) returns (id: NodeId)
      requires Valid() && parent in nodes
      requires node.made == HostElement
      requires Page.Stamp(Page.Thumbnail) !in node.attrs && Page.Stamp(Page.Avatar) !in node.attrs
      modifies this
      ensures Valid()
      ensures id == old(nextId) && id !in processedThumbnails && id !in processedAvatars
      ensures State() == Page.HostInsert(old(State()), parent, node)
      ensures config == old(config) && timers == old(timers) && observing == old(observing) && trace == old(trace)
    {
      var p := State();
      Page.HostInsertKeeps(p, parent, node);
      var r := Page.HostInsert(p, parent, node);
      id := nextId;
      Commit(r);
    }

    /** setupObserver: start observing the document's subtree. */
    method SetupObserver()
      requires Valid()
      modifies this
      ensures Valid() && observing
      ensures State() == old(State()) && config == old(config) && timers == old(timers)
      ensures trace == old(trace) + [ObserverInstalled]
    {
      observing := true;
      trace := trace + [ObserverInstalled];
    }

    /** The observer's callback on one batch of mutation records. */
    method OnMutations(batch: seq<nat>)
      requires Valid() && observing
      modifies this
      ensures Valid()
      ensures timers == Debounce.OnMutations(old(timers), batch)
      ensures |timers.pending| <= 1
      ensures State() == old(State()) && config == old(config) && observing == old(observing) && trace == old(trace)
    {
      OnMutationsKeepsInvariant(timers, batch);
      var shouldScan := ShouldScan(batch);
      if shouldScan {
        timers := ClearTimeout(timers, timers.timeout);
        timers := SetTimeout(timers);
      }
    }

    /** The pending timer fires: the thumbnail scan runs, then the avatar scan. */
    method FireTimer(id: TimerId, thumbnailMatches: seq<NodeId>, avatarMatches: seq<NodeId>, q: Query)
      requires Valid() && id in timers.pending
      requires forall m :: m in thumbnailMatches ==> m in nodes
      requires forall m :: m in avatarMatches ==> m in nodes
      modifies this
      ensures Valid() && timers == Fire(old(timers), id) && timers.pending == {}
      ensures State() ==
        Page.ScanAvatars(Page.ScanThumbnails(old(State()), config, thumbnailMatches, q), config, avatarMatches, q)
      ensures config == old(config) && observing == old(observing)
      ensures trace == old(trace) + [ThumbnailScan, AvatarScan]
    {
      timers := Fire(timers, id);
      ScanForThumbnails(thumbnailMatches, q);
      ScanForAvatars(avatarMatches, q);
    }

    /**
     * init: load the configuration; stop there when disabled; otherwise the thumbnail scan,
     * the avatar scan and the observer, in that order.
     */
    method Init(data: Option<Stored>, thumbnailMatches: seq<NodeId>, avatarMatches: seq<NodeId>, q: Query)
      requires Valid()
      requires forall m :: m in thumbnailMatches ==> m in nodes
      requires forall m :: m in avatarMatches ==> m in nodes
      modifies this
      ensures Valid()
      ensures config == if data.Some? then Merge(old(config), data.value) else old(config)
      ensures !config.enabled ==>
        State() == old(State()) && observing == old(observing) && trace == old(trace) + [ConfigLoaded]
      ensures config.enabled ==>
        && State() == Page.ScanAvatars(Page.ScanThumbnails(old(State()), config, thumbnailMatches, q), config, avatarMatches, q)
        && observing
        && trace == old(trace) + [ConfigLoaded, ThumbnailScan, AvatarScan, ObserverInstalled]
      ensures timers == old(timers)
    {
      LoadConfig(data);
      if !config.enabled {
        return;
      }
      ScanForThumbnails(thumbnailMatches, q);
      ScanForAvatars(avatarMatches, q);
      SetupObserver();
    }
  }
}
