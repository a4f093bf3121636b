# veil content script, modelled in Dafny

veil is a browser extension that hides YouTube's visual hooks. Its content script
(`src/content.js`) replaces video thumbnails with flat typographic cards. It also replaces
channel avatars with an initials badge. One rule is central: each element is transformed
at most once, however often the page is rescanned.

This project models that script.

- **Configuration.** The defaults, the merge of the values read from the settings store
  (`loadConfig`), and the rule that reloads the page after a settings change.
- **Pure helpers.** The colour hash, video-id extraction, `escapeHtml`, `truncate`,
  `formatDuration`, `getInitials` and `getThumbnailSrc`.
- **Renderers.** The three card renderers (text, film, solid) and the avatar badge renderer.
- **Page readers.** `extractVideoData` and the four-strategy channel-name resolver of
  `replaceAvatar`, run over a node table that stands for the document.
- **DOM transformations.** `replaceThumbnail` and `replaceAvatar`, and the two scans that
  stamp and process every match.
- **Observer and start-up.** The observer's debounce timer, and `init`.

Modules, in dependency order:

| module | file | what it holds |
|---|---|---|
| Wrappers | wrappers.dfy | `Option`, standing for both `null` and `undefined` |
| Text | text.dfy | trim, startsWith, indexOf, replace, ASCII case mapping, escapeHtml, truncate, formatDuration, getInitials |
| Ecma | ecma.dfy | ToInt32, `<< 5`, the truncating `%`, Number-to-String, UTF-16 code units |
| ColorHash | color.dfy | hashToColor and hashToAvatarColor, as functions and as the loop the source runs |
| Settings | settings.dfy | the CONFIG record, the loadConfig merge, the reload condition of the storage listener |
| Cards | cards.dfy | FONTS, getThumbnailSrc, createTextCard/FilmCard/SolidCard, the mode switch, createAvatarReplacement |
| VideoId | videoid.dfy | extractVideoId, with its two regular expressions written as an explicit leftmost scan |
| Dom | dom.dfy | the node table, `closest`, and the style, attribute and appendChild updates |
| Extract | extract.dfy | extractVideoData and the channel-name strategies |
| Page | page.dfy | the page as a value: replaceThumbnail, replaceAvatar, both scans, and the invariants they keep |
| Debounce | debounce.dfy | the observer's clearTimeout/setTimeout debounce |
| Script | script.dfy | the script as an object (`ContentScript`): its methods run the same steps, with loops, and commit them to its fields |

The page is a value of `Page.Page`:

- the node table;
- the identity the next created element gets;
- the two processed sets, `processedThumbnails` and `processedAvatars`.

`Page.ReplaceThumbnail`, `Page.ReplaceAvatar`, `Page.ScanThumbnails` and `Page.ScanAvatars`
are its transitions. The methods of the Script module compute the same transitions step by
step, in the order the source runs them:

- position the container;
- hide its children one by one;
- append the card;
- stamp each element, then replace it.

Each method is proved equal to its transition. The class `Script.ContentScript` holds the
configuration, the page, the timers and whether the observer is installed. Its `Valid()`
makes three invariants hold between entry points:

- no element carries more than one card, and only a processed thumbnail carries one;
- no image has more than one badge, and only a processed image has one;
- every stamped element is in its processed set, and every processed element is in the page;
- at most one debounce timer is pending.

Between scans the host page keeps adding elements, such as videos that scroll in
(`ContentScript.HostInsert`). Such an element starts unprocessed, the invariants still hold,
and the next scan that matches it processes it (`Page.InsertedThumbnailIsScanned`).

No element is transformed twice: a container gains a card only while it is not yet
processed, and it is marked processed first.

Some behaviour of the code as written differs from what its comments or names suggest. The
model follows the code:

- **extractVideoId is not anchored on the right.** A run of twelve id characters yields its
  first eleven (`VideoId.TwelveCharacterRun`).
- **getInitials does not filter non-letters.** The comment says a non-letter is returned as
  it is, and so it is; the upper-casing is what changes a letter.
- **`blur` has no card of its own.** The mode switch falls through to the text card
  (`Cards.BlurIsText`).
- **The film card escapes nothing but the duration.** The image source goes into its
  `<img src>` unescaped.
- **A blank label ends the channel-name chain.** A strategy-3 label without the
  "Go to channel " prefix is taken as it stands, so one made only of white space stops the
  chain: the alt text is never read, and the badge shows "?" (`Extract.BlankLabelStopsChain`).
- **formatDuration and truncate are never called.** formatDuration keeps a blank duration as
  a blank string, where the card code would treat the same value as present. Both are
  modelled as they stand.
- **Order in replaceAvatar.** The code resolves the channel name before it checks for a
  parent. The model checks the parent first. Resolution reads the page and changes nothing,
  so the result is the same.

## Model

| member | source | states |
|---|---|---|
| Text.Trim | src/content.js:215-236 | the result has no white space at either end, is no longer than the input, and is empty exactly when the input is all white space |
| Text.TrimCharacterised | src/content.js:215-236 | trim removes exactly the white space around a middle part that neither starts nor ends with white space |
| Text.TrimIdempotent | src/content.js:73-77 | trimming twice is trimming once |
| Text.IndexOfFrom | src/content.js:212 | the leftmost occurrence at or after the start, or none when there is no occurrence (includes) |
| Text.ReplacePrefix | src/content.js:346 | replacing a present prefix by '' drops exactly that prefix |
| Text.UpperCase | src/content.js:84 | same length; each character mapped by toUpperCase (ASCII letters) |
| Text.LowerCase | src/content.js:212 | same length; each character mapped by toLowerCase (ASCII letters) |
| Text.EscapeText | src/content.js:539-544 | the escaped text never contains '<' or '>' |
| Text.UnescapeEscape | src/content.js:539-544 | escaping loses nothing: reading the HTML back gives the original text |
| Text.EscapeHtml | src/content.js:539-544 | a falsy argument gives ''; anything else its escaped text, which reads back as the argument and holds no tag |
| Text.Truncate | src/content.js:67-70 | a falsy or short text comes back unchanged; a longer one is cut to maxLength characters, trimmed, and given the literal suffix |
| Text.FormatDuration | src/content.js:73-77 | null exactly for a falsy text; otherwise the trimmed text, which trimming leaves alone |
| Text.GetInitials | src/content.js:80-85 | one character: '?' for a null, empty or blank name, else the upper-cased first character of the trimmed name |
| Ecma.ToInt32 | src/content.js:51 | the value in [-2^31, 2^31) congruent to the argument modulo 2^32 |
| Ecma.ToInt32Unique | src/content.js:51 | that value is the only one in range with that congruence |
| Ecma.ShiftLeft5IsToInt32 | src/content.js:51 | `x << 5` equals ToInt32 of 32·x |
| Ecma.TruncRem | src/content.js:53 | `%` keeps the sign of the dividend and has magnitude |a| mod n |
| Ecma.Hue | src/content.js:53 | Math.abs(h % 360) lies in [0, 360) and equals |h| mod 360 |
| Ecma.Decimal | src/content.js:54 | the decimal spelling is non-empty, all digits, with no leading zero |
| Ecma.DecimalRoundTrip | src/content.js:54 | parsing the spelling gives the number back |
| Ecma.CodeUnits | src/content.js:50-51 | one code unit for a BMP character, two for any other, each below 2^16 |
| Ecma.Utf16 | src/content.js:50-51 | at least one code unit per character, each below 2^16 |
| Ecma.Utf16RoundTrip | src/content.js:50-51 | decoding the code units gives the string back |
| Ecma.Utf16Bmp | src/content.js:50-51 | for BMP text, length and charCodeAt agree with the characters |
| ColorHash.HashRecurrence | src/content.js:49-52 | each step is hash' = code + ToInt32(32·hash) − hash in exact arithmetic |
| ColorHash.StringHash | src/content.js:49-52 | the loop computes Hash over the string's UTF-16 code units |
| ColorHash.AccentColor | src/content.js:47-55 | #ffffff for a falsy string, else hsl(|hash| mod 360, 15%, 70%) |
| ColorHash.AvatarColor | src/content.js:88-96 | hsl(0, 0%, 20%) for a falsy string, else hsl(|hash| mod 360, 25%, 25%) |
| ColorHash.HashToColor | src/content.js:47-55 | the method's colour is AccentColor of its argument, with a hue below 360 |
| ColorHash.HashToAvatarColor | src/content.js:88-96 | the method's colour is AvatarColor of its argument, with a hue below 360 |
| ColorHash.SameHue | src/content.js:47-96 | the accent and avatar colours of one string have the same hue |
| ColorHash.CssHue | src/content.js:54 | the hue can be read back from the hsl() text |
| ColorHash.CssDistinguishesHues | src/content.js:54 | distinct hues give distinct CSS text |
| Settings.Merge | src/content.js:510-517 | a boolean key is taken whenever it is defined, even when false; mode and font only when non-empty; debug never |
| Settings.MergeNothing | src/content.js:510-517 | an empty store changes nothing |
| Settings.MergeIdempotent | src/content.js:510-517 | loading the same values twice is loading them once |
| Settings.MergeComplete | src/content.js:503-517 | a store holding every key decides the whole configuration except debug |
| Settings.ShouldReloadIffReloadKeyChanged | src/content.js:525-533 | the page reloads iff the change is in the sync area and touches enabled, mode, font or hideChannelAvatars |
| Settings.DisplayFlagsDoNotReload | src/content.js:529 | a change to display flags only never reloads |
| Cards.FontStack | src/content.js:24-29 | a known key gives its font stack; any other key gives the Cormorant stack (line 134) |
| Cards.FirstHttp | src/content.js:101-115 | the first candidate starting with "http", and none only when no candidate does |
| Cards.ThumbnailSrc | src/content.js:99-123 | '' or an http URL; '' exactly when no image source is http and the video id is falsy |
| Cards.ThumbnailSrcIsFirstHttp | src/content.js:99-123 | src, currentSrc, then data-src, first http one wins; only then the URL built from the video id, else '' |
| Cards.TextCard | src/content.js:129-155 | classes veil-card and veil-text-card, the FONTS stack, an accent iff accentFromHash and a video id, no background |
| Cards.TextCardNoise | src/content.js:144-145 | the noise layer is present iff showNoise; the content block is always there |
| Cards.TextCardContent | src/content.js:145-149 | the escaped title, or 'Untitled', and a channel line iff showChannel and a non-empty channel, both reading back to the originals |
| Cards.TextCardDuration | src/content.js:150-151 | the duration badge is present iff showDuration and a non-empty duration, and reads back to it |
| Cards.FilmCard | src/content.js:157-176 | the film frame first, holding the image iff imgSrc is non-empty, unescaped; a timecode iff showDuration and a duration |
| Cards.SolidCard | src/content.js:178-188 | background: the hashed colour of the video id, or #1a1a1a without one; no children |
| Cards.ModeDispatch | src/content.js:264-275 | 'film' and 'solid' select their cards; any other mode the text card; every card has class veil-card |
| Cards.BlurIsText | src/content.js:271-273 | the blur mode renders the text card |
| Cards.AvatarSize | src/content.js:418 | offsetWidth when non-zero, else width when non-zero, else 40 |
| Cards.AvatarReplacement | src/content.js:323-332 | getInitials, hashToAvatarColor, the size, and a font size of max(10, 0.4·size) |
| Cards.UnknownChannelBadge | src/content.js:323-332 | a missing or blank name gives '?'; a missing or empty one also the fixed grey |
| VideoId.FirstMatch | src/content.js:61-62 | the leftmost match at or after the start index, none before it, and none at all when it fails |
| VideoId.Captured | src/content.js:63 | the captured group is eleven id characters |
| VideoId.ExtractVideoId | src/content.js:58-64 | null for a falsy url; any id found is eleven characters of [a-zA-Z0-9_-] |
| VideoId.FoundIffSomeMatch | src/content.js:58-64 | an id is found exactly when one of the two patterns matches somewhere |
| VideoId.WatchMatchWins | src/content.js:61 | the leftmost ?v=/&v= match gives the id, whatever else the url holds |
| VideoId.ShortsOnlyAsFallback | src/content.js:61-62 | the /shorts/ pattern decides only when ?v=/&v= matches nowhere |
| VideoId.TwelveCharacterRun | src/content.js:60-61 | a twelve-character run after ?v= yields its first eleven |
| VideoId.TenCharacterRun | src/content.js:60-61 | a ten-character run yields nothing |
| Dom.Ancestors | src/content.js:197 | the chain from an element up to the root, each link a parent |
| Dom.Closest | src/content.js:197-205 | a result of closest() is in the page and matches the selector list |
| Dom.ClosestIsNearest | src/content.js:197-205 | closest() is the first matching element of the ancestor chain, and none only when none matches |
| Dom.TrimmedText | src/content.js:218 | `el?.textContent?.trim()` is defined exactly when the element is, and trimmed |
| Dom.WithPosition | src/content.js:279 | the element's position becomes the given value; the rest of the element and every other element stay as they were |
| Dom.WithVisibility | src/content.js:284 | the element's visibility becomes the given value; the rest of the element and every other element stay as they were |
| Dom.SetAttribute | src/content.js:310 | only the element's attribute map changes, by that one entry |
| Dom.AppendChild | src/content.js:289 | the new element becomes the parent's last child and nothing else changes |
| Dom.AppendChildWellFormed | src/content.js:289 | appending keeps the table a well-formed tree |
| Dom.HideChildren | src/content.js:282-286 | only inline styles change |
| Dom.HideChildrenEffect | src/content.js:282-286 | exactly the listed children without the veil-card class become hidden |
| Extract.TitleOf | src/content.js:215 | the trimmed text when non-empty, else the title attribute |
| Extract.ExtractVideoData | src/content.js:194-243 | null exactly when no renderer encloses the container; channel and duration trimmed; a video id is eleven id characters |
| Extract.RendererGenerations | src/content.js:197-212 | the renderer found is read as a view model exactly when it is a yt-lockup-view-model or a ytm-shorts-lockup-view-model; the five ytd-* renderers are not |
| Extract.RendererTag | src/content.js:197-212 | an element matching one of the seven renderer tags is a view model exactly when its tag is one of the two new ones |
| Extract.ViewModelReadsNewSelectors | src/content.js:212-226 | for a view-model renderer, two queries that agree on the four new selectors give the same video data, whatever the legacy selectors find |
| Extract.LegacyReadsOldSelectors | src/content.js:227-240 | for any other renderer, two queries that agree on the four legacy selectors give the same video data |
| Extract.StripPrefix | src/content.js:346 | the label after the prefix, trimmed |
| Extract.FromAvatarShape | src/content.js:342-348 | a name exactly when the shape's label starts with the prefix; the rest of the label, trimmed |
| Extract.FirstNonBlankText | src/content.js:382-388 | a found text is non-empty and trimmed |
| Extract.FirstNonBlankTextNone | src/content.js:382-388 | nothing is found exactly when every selector's text is blank |
| Extract.FirstNonBlankTextFirst | src/content.js:382-388 | what is found is the text of the first selector with non-blank text |
| Extract.FirstChannelText | src/content.js:382-388 | the loop with its break finds what FirstNonBlankText describes |
| Extract.FromRenderer | src/content.js:350-391 | no renderer, no name; a found name is non-empty and trimmed |
| Extract.FromLabel | src/content.js:393-405 | a name iff the label is non-empty; a prefixed label stripped and trimmed, any other taken as it stands |
| Extract.FromAlt | src/content.js:407-413 | a name iff the alt text is present and not blank; the trimmed alt text |
| Extract.Fallback | src/content.js:351 | a truthy name is kept; otherwise a found next name replaces it |
| Extract.ChannelName | src/content.js:338-413 | the name is truthy exactly when some strategy gives a usable name |
| Extract.FirstUsableStrategyWins | src/content.js:338-413 | the first strategy with a usable name decides; later ones only after earlier ones fail |
| Extract.BlankLabelStopsChain | src/content.js:397-403 | an unprefixed all-white-space label becomes the name, so the alt text is skipped and the badge shows '?' |
| Extract.ResolveChannel | src/content.js:338-413 | the guarded strategy sequence computes ChannelName |
| Page.ThumbnailCard | src/content.js:249-275 | a card exactly when a renderer encloses the container; it has class veil-card |
| Page.AttachCard | src/content.js:277-289 | the tree stays well formed and grows by exactly the card, old elements kept |
| Page.AttachCardEffect | src/content.js:277-289 | container relative with the card as last child; each old non-card child hidden; nothing else changes |
| Page.ReplaceThumbnail | src/content.js:245-290 | an already processed container is untouched; otherwise it is marked, also when extraction fails |
| Page.ReplaceThumbnailEffect | src/content.js:245-290 | an unprocessed container is only marked without a renderer, and otherwise gets ThumbnailCard's card as AttachCard places it |
| Page.AttachBadge | src/content.js:424-431 | the tree stays well formed and grows by exactly the badge |
| Page.AttachBadgeEffect | src/content.js:424-431 | image hidden and absolute, parent relative with the badge as last child, nothing else changes |
| Page.ReplaceAvatar | src/content.js:334-432 | an already processed image is untouched; otherwise it is marked |
| Page.ReplaceAvatarEffect | src/content.js:334-432 | without a parent the image is only marked; with one it gets the badge of the resolved name and size |
| Page.Replace | src/content.js:311 | element marked processed in its own set, the other set unchanged |
| Page.StampAndReplace | src/content.js:309-312 | the element carries the stamp afterwards and is processed; attributes persist |
| Page.ProcessAll | src/content.js:309-312 | the forEach keeps the page valid; elements and attributes persist |
| Page.ProcessAllSnoc | src/content.js:309-312 | the forEach over one more element is the forEach followed by that element |
| Page.ProcessAllMarks | src/content.js:309-312 | exactly the given elements join the processed set, each stamped; the other set unchanged |
| Page.Unstamped | src/content.js:300-307 | `:not([stamp])` keeps exactly the matches without the stamp |
| Page.ScanThumbnails | src/content.js:296-317 | the page is unchanged when disabled |
| Page.ScanAvatars | src/content.js:434-465 | the page is unchanged unless enabled and hiding avatars |
| Page.StampAndReplaceConsistent | src/content.js:309-312 | after a step every stamped element is processed |
| Page.ProcessAllConsistent | src/content.js:309-312 | the forEach keeps every stamped element processed |
| Page.ScanThumbnailsCoversMatches | src/content.js:296-317 | an enabled scan leaves every match stamped and processed |
| Page.ScanAvatarsCoversMatches | src/content.js:434-465 | an avatar scan that runs leaves every match stamped and processed |
| Page.ScanThumbnailsIdempotent | src/content.js:296-317 | a second thumbnail scan over the same matches changes nothing |
| Page.ScanAvatarsIdempotent | src/content.js:434-465 | a second avatar scan over the same matches changes nothing |
| Page.HostPageAtMostOnce | src/content.js:35-36 | a host page without cards satisfies the at-most-once invariant |
| Page.ReplaceThumbnailAtMostOnce | src/content.js:245-290 | replaceThumbnail keeps at most one card per element, and only on processed thumbnails |
| Page.ReplaceAvatarAtMostOnce | src/content.js:334-432 | replaceAvatar keeps that invariant |
| Page.StampKeepsAtMostOnce | src/content.js:310 | stamping keeps the page valid and keeps the invariant |
| Page.StampAndReplaceAtMostOnce | src/content.js:309-312 | one stamp-and-replace step keeps it |
| Page.ProcessAllAtMostOnce | src/content.js:309-312 | the whole forEach keeps it |
| Page.ReplaceThumbnailBadges | src/content.js:245-290 | replaceThumbnail adds no badge, so the badge invariant is kept |
| Page.ReplaceAvatarBadges | src/content.js:334-432 | the badge replaceAvatar adds is for an image not processed before, so each image still has at most one badge, and only a processed image has one |
| Page.StampAndReplaceBadges | src/content.js:309-312 | one stamp-and-replace step keeps the badge invariant |
| Page.ProcessAllBadges | src/content.js:309-312 | the whole forEach keeps it |
| Page.ScanThumbnailsKeeps | src/content.js:296-317 | a thumbnail scan keeps every page invariant: cards and badges at most once, stamps processed, processed elements in the page |
| Page.ScanAvatarsKeeps | src/content.js:434-465 | an avatar scan keeps every page invariant |
| Page.HostInsert | src/content.js:471-480 | the host page's new element is the parent's last child, with a fresh identity and no children; nothing else changes, and the processed sets stay |
| Page.HostInsertAtMostOnce | src/content.js:471-480 | a host element adds no card, so the card invariant is kept |
| Page.HostInsertConsistent | src/content.js:471-480 | an unstamped new element keeps every stamped element processed |
| Page.HostInsertKeeps | src/content.js:471-480 | a host insertion keeps every page invariant and leaves the new element unprocessed |
| Page.InsertedThumbnailIsScanned | src/content.js:471-488 | the rescan after an insertion processes the new thumbnail when it is among the matches |
| Page.InsertedAvatarIsScanned | src/content.js:471-488 | the next avatar scan that runs processes the new image when it is among the matches |
| Debounce.NoTimersInvariant | src/content.js:471-483 | the state before the first batch satisfies the timer invariant |
| Debounce.AtMostOnePending | src/content.js:482-488 | the invariant means at most one timer is pending |
| Debounce.ClearTimeout | src/content.js:483 | cancels that handle, or nothing for an undefined one |
| Debounce.SetTimeout | src/content.js:484-487 | a fresh handle, stored and pending |
| Debounce.RestartReplacesPending | src/content.js:482-488 | after a restart only the new timer is pending; the old one is cancelled |
| Debounce.ShouldScan | src/content.js:473-480 | the loop with its break answers whether some record added nodes |
| Debounce.OnMutations | src/content.js:472-489 | the timers are untouched unless some record added nodes, then restarted |
| Debounce.OnMutationsKeepsInvariant | src/content.js:472-489 | every batch keeps the invariant and at most one timer pending |
| Debounce.Fire | src/content.js:484-487 | the fired timer is pending no more; with the invariant nothing is pending |
| Script.LoadFlag | src/content.js:510 | a defined stored flag replaces the current value, even when false |
| Script.LoadName | src/content.js:511-512 | a non-empty stored name replaces the current one |
| Script.MergeStored | src/content.js:510-517 | the eight guarded assignments of loadConfig compute Merge |
| Script.HideAll | src/content.js:282-286 | the loop computes HideChildren |
| Script.AttachCardTo | src/content.js:279-289 | the three in-place steps compute AttachCard |
| Script.AttachBadgeTo | src/content.js:426-429 | the four in-place steps compute AttachBadge |
| Script.CardFor | src/content.js:249-275 | extraction, image source and mode switch compute ThumbnailCard |
| Script.BadgeFor | src/content.js:338-421 | the resolved name and the size compute the badge |
| Script.ReplaceThumbnailOn | src/content.js:245-290 | the method computes Page.ReplaceThumbnail |
| Script.PlaceCard | src/content.js:277-289 | placing an existing card completes Page.ReplaceThumbnail |
| Script.ReplaceAvatarOn | src/content.js:334-432 | the method computes Page.ReplaceAvatar |
| Script.PlaceBadge | src/content.js:417-431 | placing the badge under the parent completes Page.ReplaceAvatar |
| Script.StampAndReplaceOn | src/content.js:309-312 | stamping then replacing computes Page.StampAndReplace |
| Script.ProcessAllOn | src/content.js:309-312 | the forEach loop computes Page.ProcessAll |
| Script.ScanThumbnailsOn | src/content.js:296-317 | the method computes Page.ScanThumbnails |
| Script.ScanAvatarsOn | src/content.js:434-465 | the method computes Page.ScanAvatars |
| Script.ContentScript.constructor | src/content.js:11-36 | the defaults, the host page, empty processed sets, no timer, no observer; the invariants hold |
| Script.ContentScript.LoadConfig | src/content.js:503-523 | the configuration becomes the merge, or stays when the read fails; nothing else changes |
| Script.ContentScript.ScanForThumbnails | src/content.js:296-317 | the page becomes ScanThumbnails of the old page; the invariants are kept |
| Script.ContentScript.ScanForAvatars | src/content.js:434-465 | the page becomes ScanAvatars of the old page; the invariants are kept |
| Script.ContentScript.HostInsert | src/content.js:471-480 | the page becomes Page.HostInsert of the old one; the new element is unprocessed; the invariants are kept |
| Script.ContentScript.SetupObserver | src/content.js:471-497 | the observer is installed; nothing else changes |
| Script.ContentScript.OnMutations | src/content.js:472-489 | the timers follow Debounce.OnMutations, with at most one pending |
| Script.ContentScript.FireTimer | src/content.js:484-487 | the timer fires; the thumbnail scan, then the avatar scan; no timer left pending |
| Script.ContentScript.Init | src/content.js:550-568 | load, then stop when disabled, or both scans and the observer in that order |

## Left out

- src/popup.js and src/background.js are not part of this model: they are the settings UI
  and the install-time defaults.
- chrome.storage I/O: the values read are a parameter of `LoadConfig`, and a read that
  throws is `None`. The stored values are taken to have the types the popup writes.
- `window.location.reload()`: the model decides whether to reload (`Settings.ShouldReload`)
  and does not perform the reload.
- The CSS selector engine: what `querySelector` returns is an input function, and the base
  matches of each scan are an input sequence. Each is fixed for one call. `closest` is
  modelled only for type and class selectors, which are the only ones the script passes to it.
- MutationObserver delivery and timing: batches arrive as calls of `OnMutations`, timers
  fire as calls of `FireTimer`, and the 100 ms delay is not modelled. The observer's target
  (`document.body`, subtree) is not modelled either.
- WeakSet garbage collection: the processed sets are plain sets.
- `log` and the `debug` flag: logging is output only.
- `ContentScript` methods: each computes on a snapshot of the page and commits it in one
  assignment. The order of the individual DOM writes is captured by the value-level methods
  (`Script.AttachCardTo`, `Script.HideAll`, …), not by the fields.
- Cards.AvatarReplacement: the font size is an exact real, and the CSS text
  `size * 0.4 + 'px'` (floating-point formatting) is not modelled.
- Text.Truncate: the suffix is the literal as it stands in the source (a mis-decoded
  ellipsis). Lengths count characters, not UTF-16 code units.
- Text.GetInitials: `charAt(0)` is taken as the first character, not the first UTF-16
  code unit. Case mapping covers ASCII letters only.
- ColorHash.Hash: the hash is an exact integer. JavaScript doubles give the same result
  while |hash| stays below 2^53, which holds for strings of fewer than about four million
  code units.
- Cards.FontStack: a key that names an inherited Object property is not modelled.
- The host page only adds elements. It does not remove, move or recycle them, and it never
  sets veil's stamp attributes. The processed sets therefore never name a detached element.
- The card's `data-accent` attribute (line 139) is not an entry of the card element's
  attributes. The accent is recorded in the card value, so the script's new elements carry
  no attributes at all.
- The cards' textContent: inserting a card does not change any element's `text` field.
  The host page's text is what the script reads.
- Script.ContentScript.constructor: requires that the host page starts with no stamps and no
  elements built by the script.
