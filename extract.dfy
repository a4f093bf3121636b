/**
 * The fallback chains that read the page: extractVideoData, which finds the video
 * renderer around a thumbnail and reads title, channel, duration and video id with the
 * selectors of the renderer's generation, and the four-strategy channel-name resolver of
 * replaceAvatar. Closest-ancestor walks run over the node table; what querySelector
 * answers for a selector inside an element is an input (`Query`).
 */
module Extract {
  import opened Wrappers
  import opened Text
  import opened Cards
  import opened Dom
  import VideoId

  /** `root.querySelector(selector)`: the first element under `root` the selector matches. */
  type Query = (NodeId, string) -> Option<NodeId>

  /** The renderer tags extractVideoData looks for around a thumbnail container. */
  const ThumbnailRenderers: seq<Simple> := [
    Type("ytd-rich-item-renderer"),
    Type("ytd-video-renderer"),
    Type("ytd-compact-video-renderer"),
    Type("ytd-grid-video-renderer"),
    Type("ytd-reel-item-renderer"),
    Type("yt-lockup-view-model"),
    Type("ytm-shorts-lockup-view-model")
  ]

  /** The four selectors extractVideoData asks a renderer for. */
  datatype Schema = Schema(title: string, channel: string, duration: string, link: string)

  /** The selectors of the view-model renderers (the 2024 page structure). */
  const ViewModelSchema: Schema := Schema(
    "h3, [id*=\"video-title\"], .yt-lockup-metadata-view-model-wiz__title",
    ".yt-lockup-metadata-view-model-wiz__metadata a, [id*=\"channel-name\"]",
    ".badge-shape-wiz__text, [class*=\"time-status\"]",
    "a[href*=\"/watch?v=\"], a[href*=\"/shorts/\"]")

  /** The selectors of the older ytd-* renderers. */
  const LegacySchema: Schema := Schema(
    "#video-title, #video-title-link, h3 a",
    "#channel-name #text, ytd-channel-name #text, #channel-name a",
    "ytd-thumbnail-overlay-time-status-renderer, span.ytd-thumbnail-overlay-time-status-renderer",
    "a#thumbnail, a#video-title, a")

  /** A renderer whose lower-cased tag name contains "view-model" is of the new generation. */
  predicate IsViewModel(tag: string) {
    Contains(LowerCase(tag), "view-model")
  }

  function SchemaFor(tag: string): Schema {
    if IsViewModel(tag) then ViewModelSchema else LegacySchema
  }

  /** `el?.textContent?.trim() || el?.getAttribute('title')` */
  function TitleOf(t: Tree, el: Option<NodeId>): (r: Option<string>)
    ensures Truthy(TrimmedText(t, el)) ==> r == TrimmedText(t, el) && r.value != [] && Trimmed(r.value)
    ensures !Truthy(TrimmedText(t, el)) ==> r == AttrOf(t, el, "title")
  {
    var trimmed := TrimmedText(t, el);
    if Truthy(trimmed) then trimmed else AttrOf(t, el, "title")
  }

  /**
   * extractVideoData: null when no renderer encloses the container; otherwise the four
   * fields read with the renderer's schema. Channel and duration come back trimmed, and a
   * video id is always eleven id characters.
   */
  function ExtractVideoData(t: Tree, container: NodeId, q: Query): (r: Option<VideoData>)
    requires WellFormed(t) && container in t
    ensures r.None? <==> Closest(t, container, ThumbnailRenderers).None?
    ensures r.Some? && r.value.channel.Some? ==> Trimmed(r.value.channel.value)
    ensures r.Some? && r.value.duration.Some? ==> Trimmed(r.value.duration.value)
    ensures r.Some? && r.value.videoId.Some? ==>
      |r.value.videoId.value| == VideoId.IdLength &&
      forall k :: 0 <= k < |r.value.videoId.value| ==> VideoId.IdChar(r.value.videoId.value[k])
  {
    match Closest(t, container, ThumbnailRenderers)
    case None => None
    case Some(renderer) =>
      var s := SchemaFor(t[renderer].tag);
      Some(VideoData(
        TitleOf(t, q(renderer, s.title)),
        TrimmedText(t, q(renderer, s.channel)),
        TrimmedText(t, q(renderer, s.duration)),
        VideoId.ExtractVideoId(HrefOf(t, q(renderer, s.link)))))
  }

  /** A lower-cased tag without the letter w cannot contain "view-model". */
  lemma WithoutWNotViewModel(tag: string)
    requires 'w' !in LowerCase(tag)
    ensures !IsViewModel(tag)
  {
    var s := LowerCase(tag);
    var p := "view-model";
    forall j: nat | j + |p| <= |s| ensures !OccursAt(s, p, j) {
      assert s[j + 3] in s;
      assert s[j..j + |p|][3] != p[3];
    }
  }

  /** A lower-cased tag with "view-model" at `j` is a view-model tag. */
  lemma ViewModelAt(tag: string, j: nat)
    requires OccursAt(LowerCase(tag), "view-model", j)
    ensures IsViewModel(tag)
  {
  }

  lemma LockupTag(s: string)
    requires s == "yt-lockup-view-model"
    ensures OccursAt(s, "view-model", 10)
  {
    assert s == "yt-lockup-" + "view-model";
  }

  lemma ShortsTag(s: string)
    requires s == "ytm-shorts-lockup-view-model"
    ensures OccursAt(s, "view-model", 18)
  {
    assert s == "ytm-shorts-lockup-" + "view-model";
  }

  /** None of the five ytd-* tags has a w, and none has the length of a view-model tag. */
  lemma LegacyTag(s: string)
    requires s == "ytd-rich-item-renderer" || s == "ytd-video-renderer" || s == "ytd-compact-video-renderer"
      || s == "ytd-grid-video-renderer" || s == "ytd-reel-item-renderer"
    ensures 'w' !in s && |s| != 20 && |s| != 28
  {
  }

  /** An element matching one of the seven renderer tags is a view model exactly when it is one of the two new ones. */
  lemma RendererTag(n: Node)
    requires MatchesAny(n, ThumbnailRenderers)
    ensures IsViewModel(n.tag) <==>
      LowerCase(n.tag) == "yt-lockup-view-model" || LowerCase(n.tag) == "ytm-shorts-lockup-view-model"
  {
    var tag := LowerCase(n.tag);
    var k :| 0 <= k < |ThumbnailRenderers| && Matches(n, ThumbnailRenderers[k]);
    if k == 5 {
      LockupTag(tag);
      ViewModelAt(n.tag, 10);
    } else if k == 6 {
      ShortsTag(tag);
      ViewModelAt(n.tag, 18);
    } else {
      LegacyTag(tag);
      WithoutWNotViewModel(n.tag);
    }
  }

  /**
   * The renderer closest() finds is read with the new selectors exactly when it is a
   * yt-lockup-view-model or a ytm-shorts-lockup-view-model; the five ytd-* renderers are
   * read with the legacy ones.
   */
  lemma RendererGenerations(t: Tree, container: NodeId)
    requires WellFormed(t) && container in t && Closest(t, container, ThumbnailRenderers).Some?
    ensures var tag := LowerCase(t[Closest(t, container, ThumbnailRenderers).value].tag);
      IsViewModel(t[Closest(t, container, ThumbnailRenderers).value].tag) <==>
        tag == "yt-lockup-view-model" || tag == "ytm-shorts-lockup-view-model"
  {
    RendererTag(t[Closest(t, container, ThumbnailRenderers).value]);
  }

  /** Two queries that agree on a schema's four selectors inside `renderer`. */
  ghost predicate AgreeOn(q1: Query, q2: Query, renderer: NodeId, s: Schema) {
    && q1(renderer, s.title) == q2(renderer, s.title)
    && q1(renderer, s.channel) == q2(renderer, s.channel)
    && q1(renderer, s.duration) == q2(renderer, s.duration)
    && q1(renderer, s.link) == q2(renderer, s.link)
  }

  /**
   * A view-model renderer is read with the new selectors only: two queries that agree on
   * those four give the same video data, whatever the legacy selectors would find.
   */
  lemma ViewModelReadsNewSelectors(t: Tree, container: NodeId, q1: Query, q2: Query)
    requires WellFormed(t) && container in t
    requires var renderer := Closest(t, container, ThumbnailRenderers);
      renderer.Some? && IsViewModel(t[renderer.value].tag) && AgreeOn(q1, q2, renderer.value, ViewModelSchema)
    ensures ExtractVideoData(t, container, q1) == ExtractVideoData(t, container, q2)
  {
  }

  /** Any other renderer is read with the legacy selectors only. */
  lemma LegacyReadsOldSelectors(t: Tree, container: NodeId, q1: Query, q2: Query)
    requires WellFormed(t) && container in t
    requires var renderer := Closest(t, container, ThumbnailRenderers);
      renderer.Some? && !IsViewModel(t[renderer.value].tag) && AgreeOn(q1, q2, renderer.value, LegacySchema)
    ensures ExtractVideoData(t, container, q1) == ExtractVideoData(t, container, q2)
  {
  }

  // ---------------------------------------------------------------------------------
  // The channel-name resolver of replaceAvatar
  // ---------------------------------------------------------------------------------

  /** Strategy 1 looks for this wrapper around the avatar image. */
  const AvatarShape: seq<Simple> := [Class("yt-spec-avatar-shape")]

  /** Strategy 2 looks for one of these renderers around the avatar image. */
  const AvatarRenderers: seq<Simple> := [
    Type("ytd-rich-item-renderer"),
    Type("ytd-video-renderer"),
    Type("ytd-compact-video-renderer"),
    Type("ytd-grid-video-renderer"),
    Type("yt-lockup-view-model"),
    Type("ytd-video-owner-renderer"),
    Type("ytd-comment-renderer")
  ]

  /** The @handle link strategy 2 tries first. */
  const HandleLink: string := "a[href^=\"/@\"]"

  /** The selectors strategy 2 falls back to, in order. */
  const ChannelSelectors: seq<string> := [
    "yt-formatted-string.ytd-channel-name",
    "#channel-name yt-formatted-string",
    "#channel-name #text",
    "ytd-channel-name #text",
    "#text.ytd-channel-name",
    "#owner-text a",
    "#author-text span",
    "#author-text"
  ]

  /** Strategy 3 looks for one of these wrappers around the avatar image. */
  const LabelContainers: seq<Simple> := [
    Type("a"),
    Type("yt-decorated-avatar-view-model"),
    Type("yt-avatar-shape")
  ]

  /** The prefix of the accessible label on a channel link. */
  const ChannelPrefix: string := "Go to channel "

  /** `label.replace('Go to channel ', '').trim()` on a label that starts with the prefix. */
  function StripPrefix(labelText: string): (r: string)
    requires StartsWith(labelText, ChannelPrefix)
    ensures r == Trim(labelText[|ChannelPrefix|..])
  {
    ReplacePrefix(labelText, ChannelPrefix);
    Trim(ReplaceFirst(labelText, ChannelPrefix, ""))
  }

  /** The aria-label of the nearest .yt-spec-avatar-shape, if there is one. */
  function ShapeLabel(t: Tree, img: NodeId): Option<string>
    requires WellFormed(t) && img in t
  {
    var shape := Closest(t, img, AvatarShape);
    if shape.Some? then AttrOf(t, shape, "aria-label") else None
  }

  /**
   * Strategy 1: a name only when the shape's label starts with the prefix; the name is the
   * rest of the label, trimmed (it may be empty).
   */
  function FromAvatarShape(t: Tree, img: NodeId): (r: Option<string>)
    requires WellFormed(t) && img in t
    ensures r.Some? <==> ShapeLabel(t, img).Some? && StartsWith(ShapeLabel(t, img).value, ChannelPrefix)
    ensures r.Some? ==> r.value == Trim(ShapeLabel(t, img).value[|ChannelPrefix|..])
  {
    var labelText := ShapeLabel(t, img);
    if Truthy(labelText) && StartsWith(labelText.value, ChannelPrefix) then Some(StripPrefix(labelText.value)) else None
  }

  /** The selector at `k` is the first of `sels` whose element has non-blank text. */
  ghost predicate FirstTextAt(t: Tree, root: NodeId, sels: seq<string>, q: Query, k: nat)
    requires k < |sels|
  {
    && Truthy(TrimmedText(t, q(root, sels[k])))
    && forall j :: 0 <= j < k ==> !Truthy(TrimmedText(t, q(root, sels[j])))
  }

  /** The first selector of `sels` whose element under `root` has non-blank text, trimmed. */
  function FirstNonBlankText(t: Tree, root: NodeId, sels: seq<string>, q: Query): (r: Option<string>)
    ensures r.Some? ==> r.value != [] && Trimmed(r.value)
  {
    if sels == [] then None
    else
      var text := TrimmedText(t, q(root, sels[0]));
      if Truthy(text) then text else FirstNonBlankText(t, root, sels[1..], q)
  }

  /** Nothing is found exactly when every selector's text is blank. */
  lemma {:induction false} FirstNonBlankTextNone(t: Tree, root: NodeId, sels: seq<string>, q: Query)
    ensures FirstNonBlankText(t, root, sels, q).None? <==>
      forall k :: 0 <= k < |sels| ==> !Truthy(TrimmedText(t, q(root, sels[k])))
    decreases |sels|
  {
    if sels != [] && !Truthy(TrimmedText(t, q(root, sels[0]))) {
      var rest := sels[1..];
      FirstNonBlankTextNone(t, root, rest, q);
      if FirstNonBlankText(t, root, rest, q).None? {
        forall k | 0 <= k < |sels| ensures !Truthy(TrimmedText(t, q(root, sels[k]))) {
          if k > 0 {
            assert sels[k] == rest[k - 1];
          }
        }
      } else {
        var k :| 0 <= k < |rest| && Truthy(TrimmedText(t, q(root, rest[k])));
        assert rest[k] == sels[k + 1];
      }
    }
  }

  /** What is found is the text of the first selector whose text is not blank. */
  lemma {:induction false} FirstNonBlankTextFirst(t: Tree, root: NodeId, sels: seq<string>, q: Query)
    ensures FirstNonBlankText(t, root, sels, q).Some? ==>
      exists k :: 0 <= k < |sels| && FirstTextAt(t, root, sels, q, k) &&
        FirstNonBlankText(t, root, sels, q) == TrimmedText(t, q(root, sels[k]))
    decreases |sels|
  {
    if sels != [] {
      if Truthy(TrimmedText(t, q(root, sels[0]))) {
        assert FirstTextAt(t, root, sels, q, 0);
      } else if FirstNonBlankText(t, root, sels[1..], q).Some? {
        var rest := sels[1..];
        FirstNonBlankTextFirst(t, root, rest, q);
        var k :| 0 <= k < |rest| && FirstTextAt(t, root, rest, q, k) &&
          FirstNonBlankText(t, root, rest, q) == TrimmedText(t, q(root, rest[k]));
        forall j | 0 <= j < k + 1 ensures !Truthy(TrimmedText(t, q(root, sels[j]))) {
          if j > 0 {
            assert sels[j] == rest[j - 1];
          }
        }
        assert rest[k] == sels[k + 1];
        assert FirstTextAt(t, root, sels, q, k + 1);
      }
    }
  }

  /** The for-of over the fallback selectors, leaving the loop at the first non-blank text. */
  method FirstChannelText(t: Tree, root: NodeId, sels: seq<string>, q: Query) returns (found: Option<string>)
    ensures found == FirstNonBlankText(t, root, sels, q)
  {
    found := None;
    for i := 0 to |sels|
      invariant found.None?
      invariant FirstNonBlankText(t, root, sels, q) == FirstNonBlankText(t, root, sels[i..], q)
    {
      var text := TrimmedText(t, q(root, sels[i]));
      if Truthy(text) {
        found := text;
        break;
      }
      assert sels[i..][1..] == sels[i + 1..];
    }
  }

  /**
   * Strategy 2: inside the nearest renderer, the trimmed text of the @handle link when it is
   * not blank, else the first fallback selector with non-blank text.
   */
  function FromRenderer(t: Tree, img: NodeId, q: Query): (r: Option<string>)
    requires WellFormed(t) && img in t
    ensures Closest(t, img, AvatarRenderers).None? ==> r.None?
    ensures r.Some? ==> r.value != [] && Trimmed(r.value)
  {
    match Closest(t, img, AvatarRenderers)
    case None => None
    case Some(renderer) =>
      var handle := TrimmedText(t, q(renderer, HandleLink));
      if Truthy(handle) then handle else FirstNonBlankText(t, renderer, ChannelSelectors, q)
  }

  /** `container.getAttribute('aria-label') || container.getAttribute('title')` of the nearest wrapper. */
  function ContainerLabel(t: Tree, img: NodeId): Option<string>
    requires WellFormed(t) && img in t
  {
    var container := Closest(t, img, LabelContainers);
    var aria := AttrOf(t, container, "aria-label");
    if Truthy(aria) then aria else AttrOf(t, container, "title")
  }

  /**
   * Strategy 3: a non-empty label gives a name; a prefixed label is stripped and trimmed,
   * any other label is taken exactly as it stands, white space included.
   */
  function FromLabel(t: Tree, img: NodeId): (r: Option<string>)
    requires WellFormed(t) && img in t
    ensures r.Some? <==> Truthy(ContainerLabel(t, img))
    ensures r.Some? && StartsWith(ContainerLabel(t, img).value, ChannelPrefix) ==>
      r.value == Trim(ContainerLabel(t, img).value[|ChannelPrefix|..])
    ensures r.Some? && !StartsWith(ContainerLabel(t, img).value, ChannelPrefix) ==>
      r == ContainerLabel(t, img)
  {
    var labelText := ContainerLabel(t, img);
    if !Truthy(labelText) then None
    else if StartsWith(labelText.value, ChannelPrefix) then Some(StripPrefix(labelText.value))
    else labelText
  }

  /** Strategy 4: the image's alt text, trimmed, when it is not blank. */
  function FromAlt(t: Tree, img: NodeId): (r: Option<string>)
    requires img in t
    ensures r.Some? <==> AttrOf(t, Some(img), "alt").Some? && !Blank(AttrOf(t, Some(img), "alt").value)
    ensures r.Some? ==> r.value != [] && r.value == Trim(AttrOf(t, Some(img), "alt").value)
  {
    var alt := AttrOf(t, Some(img), "alt");
    if Truthy(alt) && Trim(alt.value) != "" then Some(Trim(alt.value)) else None
  }

  /** `if (!channelName) { … if (found) channelName = found; }`: a later strategy is consulted only after a falsy name. */
  function Fallback(name: Option<string>, next: Option<string>): (r: Option<string>)
    ensures Truthy(name) ==> r == name
    ensures !Truthy(name) && next.Some? ==> r == next
    ensures !Truthy(name) && next.None? ==> r == name
  {
    if Truthy(name) then name else if next.Some? then next else name
  }

  /** The channel name replaceAvatar settles on; None is the initial null. */
  function ChannelName(t: Tree, img: NodeId, q: Query): (r: Option<string>)
    requires WellFormed(t) && img in t
    ensures Truthy(r) <==>
      Truthy(FromAvatarShape(t, img)) || FromRenderer(t, img, q).Some? ||
      Truthy(FromLabel(t, img)) || FromAlt(t, img).Some?
  {
    Fallback(Fallback(Fallback(FromAvatarShape(t, img), FromRenderer(t, img, q)), FromLabel(t, img)), FromAlt(t, img))
  }

  /** The first strategy with a non-empty name decides; each later one is consulted only after the earlier ones gave nothing usable. */
  lemma FirstUsableStrategyWins(t: Tree, img: NodeId, q: Query)
    requires WellFormed(t) && img in t
    ensures var s1, s2, s3, s4 := FromAvatarShape(t, img), FromRenderer(t, img, q), FromLabel(t, img), FromAlt(t, img);
      var r := ChannelName(t, img, q);
      && (Truthy(s1) ==> r == s1)
      && (!Truthy(s1) && s2.Some? ==> r == s2)
      && (!Truthy(s1) && s2.None? && Truthy(s3) ==> r == s3)
      && (!Truthy(s1) && s2.None? && !Truthy(s3) && s4.Some? ==> r == s4)
      && (!Truthy(s1) && s2.None? && !Truthy(s3) && s4.None? ==> !Truthy(r))
  {
  }

  /**
   * A label without the prefix that is only white space ends the chain: the alt text is never
   * consulted, and the badge shows '?'.
   */
  lemma BlankLabelStopsChain(t: Tree, img: NodeId, q: Query)
    requires WellFormed(t) && img in t
    requires !Truthy(FromAvatarShape(t, img)) && FromRenderer(t, img, q).None?
    requires Truthy(ContainerLabel(t, img)) && Blank(ContainerLabel(t, img).value)
    ensures ChannelName(t, img, q) == ContainerLabel(t, img)
    ensures GetInitials(ChannelName(t, img, q)) == "?"
  {
    var labelText := ContainerLabel(t, img).value;
    assert IsSpace(labelText[0]) && ChannelPrefix[0] == 'G';
  }

  /**
   * The resolver as replaceAvatar runs it: each strategy in turn, guarded by `!channelName`,
   * the fallback selectors through FirstChannelText.
   */
  method ResolveChannel(t: Tree, img: NodeId, q: Query) returns (channelName: Option<string>)
    requires WellFormed(t) && img in t
    ensures channelName == ChannelName(t, img, q)
  {
    channelName := None;
    var avatarShape := Closest(t, img, AvatarShape);
    if avatarShape.Some? {
      var ariaLabel := AttrOf(t, avatarShape, "aria-label");
      if Truthy(ariaLabel) && StartsWith(ariaLabel.value, ChannelPrefix) {
        channelName := Some(StripPrefix(ariaLabel.value));
      }
    }
    if !Truthy(channelName) {
      var renderer := Closest(t, img, AvatarRenderers);
      if renderer.Some? {
        var handle := TrimmedText(t, q(renderer.value, HandleLink));
        if Truthy(handle) {
          channelName := handle;
        }
        if !Truthy(channelName) {
          var found := FirstChannelText(t, renderer.value, ChannelSelectors, q);
          if found.Some? {
            channelName := found;
          }
        }
      }
    }
    if !Truthy(channelName) {
      var labelText := ContainerLabel(t, img);
      if Truthy(labelText) {
        channelName := if StartsWith(labelText.value, ChannelPrefix) then Some(StripPrefix(labelText.value)) else labelText;
      }
    }
    if !Truthy(channelName) {
      var alt := AttrOf(t, Some(img), "alt");
      if Truthy(alt) && Trim(alt.value) != "" {
        channelName := Some(Trim(alt.value));
      }
    }
  }
}
