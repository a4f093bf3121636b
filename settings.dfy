/**
 * The content script's configuration: the built-in defaults, the merge of what the
 * settings store returns (loadConfig), and the predicate on a storage change event
 * that decides whether the page is reloaded.
 */
module Settings {
  import opened Wrappers
  import opened Text

  datatype Config = Config(
    enabled: bool,
    mode: string,
    font: string,
    showChannel: bool,
    showDuration: bool,
    showNoise: bool,
    accentFromHash: bool,
    hideChannelAvatars: bool,
    debug: bool)

  /** The CONFIG object literal the script starts from. */
  const Defaults: Config := Config(
    enabled := true, mode := "text", font := "cormorant", showChannel := true,
    showDuration := true, showNoise := true, accentFromHash := false,
    hideChannelAvatars := true, debug := false)

  /** What `chrome.storage.sync.get` returns for the eight keys: None for a key that is undefined. */
  datatype Stored = Stored(
    enabled: Option<bool>,
    mode: Option<string>,
    font: Option<string>,
    showChannel: Option<bool>,
    showDuration: Option<bool>,
    showNoise: Option<bool>,
    accentFromHash: Option<bool>,
    hideChannelAvatars: Option<bool>)

  const NothingStored: Stored := Stored(None, None, None, None, None, None, None, None)

  /** `if (data.k !== undefined) CONFIG.k = data.k` */
  function IfDefined(stored: Option<bool>, current: bool): bool {
    if stored.Some? then stored.value else current
  }

  /** `if (data.k) CONFIG.k = data.k` */
  function IfTruthy(stored: Option<string>, current: string): string {
    if Truthy(stored) then stored.value else current
  }

  /**
   * The effect of loadConfig: a boolean key replaces the current value whenever it is
   * defined, even as false; mode and font only when non-empty; debug is never loaded.
   */
  function Merge(c: Config, d: Stored): (r: Config)
    ensures d.enabled.Some? ==> r.enabled == d.enabled.value
    ensures d.enabled.None? ==> r.enabled == c.enabled
    ensures Truthy(d.mode) ==> r.mode == d.mode.value
    ensures !Truthy(d.mode) ==> r.mode == c.mode
    ensures Truthy(d.font) ==> r.font == d.font.value
    ensures !Truthy(d.font) ==> r.font == c.font
    ensures d.showChannel.Some? ==> r.showChannel == d.showChannel.value
    ensures d.showChannel.None? ==> r.showChannel == c.showChannel
    ensures d.showDuration.Some? ==> r.showDuration == d.showDuration.value
    ensures d.showDuration.None? ==> r.showDuration == c.showDuration
    ensures d.showNoise.Some? ==> r.showNoise == d.showNoise.value
    ensures d.showNoise.None? ==> r.showNoise == c.showNoise
    ensures d.accentFromHash.Some? ==> r.accentFromHash == d.accentFromHash.value
    ensures d.accentFromHash.None? ==> r.accentFromHash == c.accentFromHash
    ensures d.hideChannelAvatars.Some? ==> r.hideChannelAvatars == d.hideChannelAvatars.value
    ensures d.hideChannelAvatars.None? ==> r.hideChannelAvatars == c.hideChannelAvatars
    ensures r.debug == c.debug
  {
    Config(
      enabled := IfDefined(d.enabled, c.enabled),
      mode := IfTruthy(d.mode, c.mode),
      font := IfTruthy(d.font, c.font),
      showChannel := IfDefined(d.showChannel, c.showChannel),
      showDuration := IfDefined(d.showDuration, c.showDuration),
      showNoise := IfDefined(d.showNoise, c.showNoise),
      accentFromHash := IfDefined(d.accentFromHash, c.accentFromHash),
      hideChannelAvatars := IfDefined(d.hideChannelAvatars, c.hideChannelAvatars),
      debug := c.debug)
  }

  /** An empty store leaves the configuration as it was. */
  lemma MergeNothing(c: Config)
    ensures Merge(c, NothingStored) == c
  {
  }

  /** Loading the same stored settings twice is loading them once. */
  lemma MergeIdempotent(c: Config, d: Stored)
    ensures Merge(Merge(c, d), d) == Merge(c, d)
  {
  }

  /** A store holding every key fully determines the loaded configuration, except debug. */
  lemma MergeComplete(c1: Config, c2: Config, d: Stored)
    requires d.enabled.Some? && Truthy(d.mode) && Truthy(d.font) && d.showChannel.Some?
    requires d.showDuration.Some? && d.showNoise.Some? && d.accentFromHash.Some?
    requires d.hideChannelAvatars.Some?
    requires c1.debug == c2.debug
    ensures Merge(c1, d) == Merge(c2, d)
  {
  }

  /** The changed keys that make the script reload the page. */
  const ReloadKeys: set<string> := {"enabled", "mode", "font", "hideChannelAvatars"}

  /**
   * The storage.onChanged listener reloads the page iff the change is in the sync area
   * and touches enabled, mode, font or hideChannelAvatars (each change record is an
   * object, so `changes.k` is truthy exactly when k changed).
   */
  function ShouldReload(area: string, changedKeys: set<string>): bool {
    area == "sync" &&
    ("enabled" in changedKeys || "mode" in changedKeys || "font" in changedKeys ||
     "hideChannelAvatars" in changedKeys)
  }

  /** The reload decision depends only on whether a reload key is among the changed ones. */
  lemma ShouldReloadIffReloadKeyChanged(area: string, changedKeys: set<string>)
    ensures ShouldReload(area, changedKeys) <==> area == "sync" && changedKeys * ReloadKeys != {}
  {
    var both := changedKeys * ReloadKeys;
    if ShouldReload(area, changedKeys) {
      var k := if "enabled" in changedKeys then "enabled"
        else if "mode" in changedKeys then "mode"
        else if "font" in changedKeys then "font"
        else "hideChannelAvatars";
      assert k in both;
    }
  }

  /** Changing only display flags never reloads: those take effect on the next page load. */
  lemma DisplayFlagsDoNotReload(area: string, changedKeys: set<string>)
    requires changedKeys <= {"showChannel", "showDuration", "showNoise", "accentFromHash"}
    ensures !ShouldReload(area, changedKeys)
  {
    assert "enabled" !in changedKeys && "mode" !in changedKeys;
    assert "font" !in changedKeys && "hideChannelAvatars" !in changedKeys;
  }
}
