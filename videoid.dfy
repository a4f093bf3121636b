/**
 * extractVideoId: the two regular expressions `[?&]v=([a-zA-Z0-9_-]{11})` and
 * `\/shorts\/([a-zA-Z0-9_-]{11})`, tried in that order, as an explicit leftmost scan.
 */
module VideoId {
  import opened Wrappers
  import opened Text

  /** The character class `[a-zA-Z0-9_-]`. */
  predicate IdChar(c: char) {
    ('a' <= c <= 'z') || ('A' <= c <= 'Z') || ('0' <= c <= '9') || c == '_' || c == '-'
  }

  const IdLength: nat := 11

  /** Eleven id characters start at index k (nothing is said about the character after them). */
  predicate IdRunAt(s: string, k: nat) {
    k + IdLength <= |s| && forall j :: k <= j < k + IdLength ==> IdChar(s[j])
  }

  /** The two URL shapes, each a fixed token followed by the captured id. */
  datatype Shape = Watch | Shorts

  /** Length of the token before the captured group: `?v=` or `&v=`, and `/shorts/`. */
  function TokenLength(p: Shape): nat {
    match p
    case Watch => 3
    case Shorts => 8
  }

  predicate TokenAt(p: Shape, s: string, i: nat) {
    match p
    case Watch => i + 3 <= |s| && (s[i] == '?' || s[i] == '&') && s[i + 1] == 'v' && s[i + 2] == '='
    case Shorts => i + 8 <= |s| && s[i..i + 8] == "/shorts/"
  }

  /** The regular expression of shape p matches s at index i. */
  predicate MatchAt(p: Shape, s: string, i: nat) {
    TokenAt(p, s, i) && IdRunAt(s, i + TokenLength(p))
  }

  /** The captured group of a match at index i. */
  function Captured(p: Shape, s: string, i: nat): (id: string)
    requires MatchAt(p, s, i)
    ensures |id| == IdLength && forall k :: 0 <= k < |id| ==> IdChar(id[k])
  {
    s[i + TokenLength(p)..i + TokenLength(p) + IdLength]
  }

  /** String.prototype.match without the g flag: the leftmost index at or after `from` where p matches. */
  function FirstMatch(p: Shape, s: string, from: nat): (r: Option<nat>)
    ensures r.Some? ==> from <= r.value && MatchAt(p, s, r.value)
    ensures r.Some? ==> forall j: nat :: from <= j < r.value ==> !MatchAt(p, s, j)
    ensures r.None? ==> forall j: nat :: from <= j ==> !MatchAt(p, s, j)
    decreases |s| - from
  {
    if from >= |s| then None
    else if MatchAt(p, s, from) then Some(from)
    else FirstMatch(p, s, from + 1)
  }

  /**
   * extractVideoId: null for a falsy url; otherwise the id after the leftmost `?v=`/`&v=`,
   * or failing any such match the id after the leftmost `/shorts/`, or null.
   */
  function ExtractVideoId(url: Option<string>): (r: Option<string>)
    ensures !Truthy(url) ==> r.None?
    ensures r.Some? ==> |r.value| == IdLength && forall k :: 0 <= k < |r.value| ==> IdChar(r.value[k])
  {
    if !Truthy(url) then None
    else
      var s := url.value;
      match FirstMatch(Watch, s, 0)
      case Some(k) => Some(Captured(Watch, s, k))
      case None =>
        match FirstMatch(Shorts, s, 0)
        case Some(k) => Some(Captured(Shorts, s, k))
        case None => None
  }

  /** An id is found exactly when one of the two shapes matches somewhere. */
  lemma FoundIffSomeMatch(s: string)
    requires s != []
    ensures ExtractVideoId(Some(s)).Some? <==> exists k: nat :: MatchAt(Watch, s, k) || MatchAt(Shorts, s, k)
  {
    if ExtractVideoId(Some(s)).None? {
      forall k: nat ensures !MatchAt(Watch, s, k) && !MatchAt(Shorts, s, k) {
      }
    }
  }

  /** The leftmost `?v=`/`&v=` match wins, whatever else the url holds. */
  lemma WatchMatchWins(s: string, k: nat)
    requires MatchAt(Watch, s, k)
    requires forall j: nat :: j < k ==> !MatchAt(Watch, s, j)
    ensures ExtractVideoId(Some(s)) == Some(s[k + 3..k + 14])
  {
    var r := FirstMatch(Watch, s, 0);
    assert r.Some?;
    if r.value != k {
      assert false;
    }
  }

  /** The `/shorts/` shape is used only when no `?v=`/`&v=` match exists anywhere. */
  lemma ShortsOnlyAsFallback(s: string, k: nat)
    requires forall j: nat :: !MatchAt(Watch, s, j)
    requires MatchAt(Shorts, s, k)
    requires forall j: nat :: j < k ==> !MatchAt(Shorts, s, j)
    ensures ExtractVideoId(Some(s)) == Some(s[k + 8..k + 19])
  {
    var r := FirstMatch(Shorts, s, 0);
    assert r.Some?;
    if r.value != k {
      assert false;
    }
  }

  /**
   * The pattern is not anchored on the right: a run of twelve id characters after `?v=`
   * yields its first eleven.
   */
  lemma TwelveCharacterRun()
    ensures ExtractVideoId(Some("/watch?v=abcdefghijkl")) == Some("abcdefghijk")
  {
    var id := "abcdefghijk";
    var s := "/watch?v=" + id + "l";
    assert s == "/watch?v=abcdefghijkl";
    assert s[9..20] == id;
    assert MatchAt(Watch, s, 6) by {
      forall j | 9 <= j < 20 ensures IdChar(s[j]) {
        assert s[j] == id[j - 9];
      }
    }
    forall j: nat | j < 6 ensures !MatchAt(Watch, s, j) {
      assert s[j] != '?' && s[j] != '&';
    }
    WatchMatchWins(s, 6);
  }

  /** A ten-character run matches nothing. */
  lemma TenCharacterRun()
    ensures ExtractVideoId(Some("/watch?v=abcdefghij")).None?
  {
    var s := "/watch?v=abcdefghij";
    forall j: nat ensures !MatchAt(Watch, s, j) && !MatchAt(Shorts, s, j) {
      if j + 14 <= |s| {
        assert s[j] != '?' && s[j] != '&';
      }
      if j + 19 <= |s| {
        assert s[1] != 's';
      }
    }
    FoundIffSomeMatch(s);
  }
}
