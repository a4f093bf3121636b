/**
 * The card renderer and the avatar renderer: pure functions from the extracted data and
 * the configuration to a description of the element the script builds (its classes, its
 * inline style and, in order, the child elements its innerHTML template produces).
 */
module Cards {
  import opened Wrappers
  import opened Text
  import opened ColorHash
  import opened Settings

  /** What extractVideoData finds; every field may be missing. */
  datatype VideoData = VideoData(
    title: Option<string>,
    channel: Option<string>,
    duration: Option<string>,
    videoId: Option<string>)

  /** The FONTS table. */
  const Fonts: map<string, string> := map[
    "cormorant" := "\"Cormorant Garamond\", \"Times New Roman\", serif",
    "system" := "-apple-system, \"SF Pro Display\", BlinkMacSystemFont, \"Segoe UI\", sans-serif",
    "futura" := "\"Jost\", Futura, \"Century Gothic\", sans-serif",
    "cursive" := "\"Dancing Script\", cursive"]

  /** `FONTS[CONFIG.font] || FONTS['cormorant']`: an unknown key falls back to the Cormorant stack. */
  function FontStack(key: string): (r: string)
    ensures key in Fonts ==> r == Fonts[key]
    ensures key !in Fonts ==> r == Fonts["cormorant"]
  {
    if key in Fonts && Fonts[key] != "" then Fonts[key] else Fonts["cormorant"]
  }

  /** The three image properties getThumbnailSrc reads: src, currentSrc and the data-src attribute. */
  datatype ImgView = ImgView(src: string, currentSrc: string, dataSrc: Option<string>)

  /** `s && s.startsWith('http')` */
  predicate IsHttp(s: Option<string>) {
    s.Some? && s.value != "" && StartsWith(s.value, "http")
  }

  /** The thumbnail URL synthesised from a video id. */
  function SynthesizedThumbnail(videoId: string): string {
    "https://i.ytimg.com/vi/" + videoId + "/hqdefault.jpg"
  }

  /** getThumbnailSrc */
  function ThumbnailSrc(img: Option<ImgView>, videoId: Option<string>): (r: string)
    ensures r == "" || StartsWith(r, "http")
    ensures r == "" <==> !Truthy(videoId) && (img.Some? ==>
      !IsHttp(Some(img.value.src)) && !IsHttp(Some(img.value.currentSrc)) && !IsHttp(img.value.dataSrc))
  {
    if img.Some? && IsHttp(Some(img.value.src)) then img.value.src
    else if img.Some? && IsHttp(Some(img.value.currentSrc)) then img.value.currentSrc
    else if img.Some? && IsHttp(img.value.dataSrc) then img.value.dataSrc.value
    else if Truthy(videoId) then SynthesizedThumbnail(videoId.value)
    else ""
  }

  /** The image sources in the order they are tried. */
  function Candidates(img: ImgView): seq<Option<string>> {
    [Some(img.src), Some(img.currentSrc), img.dataSrc]
  }

  /** The first candidate that starts with "http". */
  function FirstHttp(cs: seq<Option<string>>): (r: Option<string>)
    ensures r.Some? ==> StartsWith(r.value, "http") && Some(r.value) in cs
    ensures r.None? <==> forall k :: 0 <= k < |cs| ==> !IsHttp(cs[k])
    ensures r.Some? ==> exists k :: 0 <= k < |cs| && cs[k] == r && forall j :: 0 <= j < k ==> !IsHttp(cs[j])
  {
    if cs == [] then None
    else if IsHttp(cs[0]) then cs[0]
    else
      var rest := FirstHttp(cs[1..]);
      assert rest.Some? ==> exists k :: 0 < k < |cs| && cs[k] == rest && forall j :: 0 <= j < k ==> !IsHttp(cs[j]) by {
        if rest.Some? {
          var k :| 0 <= k < |cs[1..]| && cs[1..][k] == rest && forall j :: 0 <= j < k ==> !IsHttp(cs[1..][j]);
          assert cs[k + 1] == rest;
          forall j | 0 <= j < k + 1 ensures !IsHttp(cs[j]) {
            if j > 0 { assert cs[j] == cs[1..][j - 1]; }
          }
        }
      }
      rest
  }

  /**
   * getThumbnailSrc returns the first image source that starts with "http"; only when
   * there is none does it synthesise a URL from a non-empty video id, and otherwise ''.
   */
  lemma ThumbnailSrcIsFirstHttp(img: Option<ImgView>, videoId: Option<string>)
    ensures ThumbnailSrc(img, videoId) ==
      var found := if img.Some? then FirstHttp(Candidates(img.value)) else None;
      if found.Some? then found.value
      else if Truthy(videoId) then SynthesizedThumbnail(videoId.value)
      else ""
  {
    if img.Some? {
      var v := img.value;
      var cs := Candidates(v);
      assert cs[1..] == [Some(v.currentSrc), v.dataSrc];
      assert cs[1..][1..] == [v.dataSrc];
      assert cs[1..][1..][1..] == [];
      var last := FirstHttp([v.dataSrc]);
      assert last == if IsHttp(v.dataSrc) then v.dataSrc else None;
      var middle := FirstHttp([Some(v.currentSrc), v.dataSrc]);
      assert middle == if IsHttp(Some(v.currentSrc)) then Some(v.currentSrc) else last;
      assert FirstHttp(cs) == if IsHttp(Some(v.src)) then Some(v.src) else middle;
    }
  }

  /** One child element of a card, in template order; text fields hold escaped HTML. */
  datatype Segment =
    | Noise                                          // div.veil-noise
    | Content(title: string, channel: Option<string>) // div.veil-content: h3.veil-title, then span.veil-channel
    | DurationBadge(text: string)                    // span.veil-duration
    | FilmFrame(image: Option<string>)               // div.veil-film-frame: img.veil-film-img, overlay, grain, two letterboxes
    | Timecode(text: string)                         // span.veil-timecode

  /** A card element: its classes, the inline style it gets, and its children. */
  datatype Card = Card(
    classes: seq<string>,
    fontFamily: Option<string>,
    accent: Option<Color>,      // the --veil-accent property, with data-accent="true"
    background: Option<Color>,  // style.backgroundColor
    segments: seq<Segment>)

  /** `videoData.title || 'Untitled'` */
  function TitleText(title: Option<string>): string {
    if Truthy(title) then title.value else "Untitled"
  }

  /** The markup inside a segment carries no tag of its own: no '<' or '>' in its text. */
  predicate Inert(html: string) {
    forall k :: 0 <= k < |html| ==> html[k] != '<' && html[k] != '>'
  }

  /** createTextCard */
  function TextCard(v: VideoData, cfg: Config): (r: Card)
    ensures "veil-card" in r.classes && "veil-text-card" in r.classes
    ensures r.fontFamily == Some(FontStack(cfg.font))
    ensures r.accent.Some? <==> cfg.accentFromHash && Truthy(v.videoId)
    ensures r.accent.Some? ==> r.accent.value == AccentColor(v.videoId)
    ensures r.background.None?
  {
    var noise := if cfg.showNoise then [Noise] else [];
    var channel := if cfg.showChannel && Truthy(v.channel) then Some(EscapeHtml(v.channel)) else None;
    var content := [Content(EscapeHtml(Some(TitleText(v.title))), channel)];
    var duration := if cfg.showDuration && Truthy(v.duration) then [DurationBadge(EscapeHtml(v.duration))] else [];
    Card(
      classes := ["veil-card", "veil-text-card"],
      fontFamily := Some(FontStack(cfg.font)),
      accent := if cfg.accentFromHash && Truthy(v.videoId) then Some(AccentColor(v.videoId)) else None,
      background := None,
      segments := noise + content + duration)
  }

  /** The noise layer is there iff showNoise; the content block always follows it. */
  lemma TextCardNoise(v: VideoData, cfg: Config)
    ensures var segs := TextCard(v, cfg).segments;
      && (Noise in segs <==> cfg.showNoise)
      && (exists k :: 0 <= k < |segs| && segs[k].Content?)
  {
    var segs := TextCard(v, cfg).segments;
    var n := if cfg.showNoise then 1 else 0;
    assert segs[n].Content?;
  }

  /**
   * The content block shows the escaped title, or 'Untitled', and a channel line iff
   * showChannel and the channel is non-empty; both read back as the original text.
   */
  lemma TextCardContent(v: VideoData, cfg: Config)
    ensures var segs := TextCard(v, cfg).segments;
      forall k :: 0 <= k < |segs| && segs[k].Content? ==>
        var c := segs[k];
        && Unescape(c.title) == TitleText(v.title) && Inert(c.title)
        && (c.channel.Some? <==> cfg.showChannel && Truthy(v.channel))
        && (c.channel.Some? ==> Unescape(c.channel.value) == v.channel.value && Inert(c.channel.value))
  {
  }

  /** The duration badge is there iff showDuration and the duration is non-empty. */
  lemma TextCardDuration(v: VideoData, cfg: Config)
    ensures var segs := TextCard(v, cfg).segments;
      && ((exists k :: 0 <= k < |segs| && segs[k].DurationBadge?) <==> cfg.showDuration && Truthy(v.duration))
      && (forall k :: 0 <= k < |segs| && segs[k].DurationBadge? ==>
            Unescape(segs[k].text) == v.duration.value && Inert(segs[k].text))
  {
    var segs := TextCard(v, cfg).segments;
    var n := if cfg.showNoise then 1 else 0;
    if cfg.showDuration && Truthy(v.duration) {
      assert segs[n + 1].DurationBadge?;
    }
  }

  /** createFilmCard: the image source goes into the img element as it is, without escaping. */
  function FilmCard(v: VideoData, cfg: Config, imgSrc: string): (r: Card)
    ensures "veil-card" in r.classes && "veil-film-card" in r.classes
    ensures r.fontFamily.None? && r.accent.None? && r.background.None?
    ensures |r.segments| >= 1 && r.segments[0].FilmFrame?
    ensures r.segments[0].image.Some? <==> imgSrc != ""
    ensures r.segments[0].image.Some? ==> r.segments[0].image.value == imgSrc
    ensures (exists k :: 0 <= k < |r.segments| && r.segments[k].Timecode?) <==>
      cfg.showDuration && Truthy(v.duration)
    ensures forall k :: 0 <= k < |r.segments| && r.segments[k].Timecode? ==>
      Unescape(r.segments[k].text) == v.duration.value && Inert(r.segments[k].text)
  {
    var frame := [FilmFrame(if imgSrc != "" then Some(imgSrc) else None)];
    var timecode := if cfg.showDuration && Truthy(v.duration) then [Timecode(EscapeHtml(v.duration))] else [];
    var segments := frame + timecode;
    assert timecode != [] ==> segments[1] == timecode[0];
    Card(["veil-card", "veil-film-card"], None, None, None, segments)
  }

  /** createSolidCard: the hashed colour of the video id, or #1a1a1a without one; the image is unused. */
  function SolidCard(v: VideoData, imgSrc: string): (r: Card)
    ensures "veil-card" in r.classes && "veil-solid-card" in r.classes
    ensures Truthy(v.videoId) ==> r.background == Some(AccentColor(v.videoId))
    ensures !Truthy(v.videoId) ==> r.background == Some(Hex("#1a1a1a"))
    ensures r.segments == []
  {
    var color := if Truthy(v.videoId) then AccentColor(v.videoId) else Hex("#1a1a1a");
    Card(["veil-card", "veil-solid-card"], None, None, Some(color), [])
  }

  /** The switch on CONFIG.mode in replaceThumbnail. */
  function CreateCard(v: VideoData, cfg: Config, imgSrc: string): Card {
    match cfg.mode
    case "film" => FilmCard(v, cfg, imgSrc)
    case "solid" => SolidCard(v, imgSrc)
    case _ => TextCard(v, cfg)
  }

  /** 'film' and 'solid' select their cards; 'text', 'blur' and any other value the text card. */
  lemma ModeDispatch(v: VideoData, cfg: Config, imgSrc: string)
    ensures cfg.mode == "film" ==> CreateCard(v, cfg, imgSrc) == FilmCard(v, cfg, imgSrc)
    ensures cfg.mode == "solid" ==> CreateCard(v, cfg, imgSrc) == SolidCard(v, imgSrc)
    ensures cfg.mode != "film" && cfg.mode != "solid" ==> CreateCard(v, cfg, imgSrc) == TextCard(v, cfg)
    ensures "veil-card" in CreateCard(v, cfg, imgSrc).classes
  {
  }

  /** The blur mode has no card of its own: it renders the text card. */
  lemma BlurIsText(v: VideoData, cfg: Config, imgSrc: string)
    requires cfg.mode == "blur"
    ensures "veil-text-card" in CreateCard(v, cfg, imgSrc).classes
  {
  }

  /** The initials badge createAvatarReplacement builds. */
  datatype Badge = Badge(initial: string, background: Color, size: int, fontSize: real)

  /** `avatarImg.offsetWidth || avatarImg.width || 40` */
  function AvatarSize(offsetWidth: nat, width: nat): (r: nat)
    ensures r > 0
    ensures offsetWidth > 0 ==> r == offsetWidth
    ensures offsetWidth == 0 && width > 0 ==> r == width
    ensures offsetWidth == 0 && width == 0 ==> r == 40
  {
    if offsetWidth != 0 then offsetWidth else if width != 0 then width else 40
  }

  /** createAvatarReplacement: the initial, the avatar colour, the size and Math.max(10, size * 0.4). */
  function AvatarReplacement(channelName: Option<string>, size: int): (b: Badge)
    ensures b.initial == GetInitials(channelName) && |b.initial| == 1
    ensures b.background == AvatarColor(channelName)
    ensures b.size == size
    ensures b.fontSize >= 10.0 && b.fontSize >= size as real * 0.4
    ensures b.fontSize == 10.0 || b.fontSize == size as real * 0.4
  {
    var scaled := size as real * 0.4;
    Badge(GetInitials(channelName), AvatarColor(channelName), size, if 10.0 > scaled then 10.0 else scaled)
  }

  /** A missing or blank name gives the '?' badge; a missing or empty one also the fixed dark grey. */
  lemma UnknownChannelBadge(channelName: Option<string>, size: int)
    requires !Truthy(channelName) || Blank(channelName.value)
    ensures AvatarReplacement(channelName, size).initial == "?"
    ensures !Truthy(channelName) ==> AvatarReplacement(channelName, size).background == Hsl(0, 0, 20)
  {
  }
}
