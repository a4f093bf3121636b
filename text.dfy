/**
 * The string operations the content script uses, with the meaning JavaScript's
 * String methods give them (ECMA-262, section 22.1.3), and its small text
 * helpers: escapeHtml, truncate, formatDuration and getInitials.
 */
module Text {
  import opened Wrappers

  /** JavaScript truthiness of a string that may be null or undefined: only a non-empty string is truthy. */
  predicate Truthy(s: Option<string>) {
    s.Some? && s.value != ""
  }

  /** The value itself when it is truthy, otherwise None (the `x || null` idiom). */
  function NonBlank(s: Option<string>): (r: Option<string>)
    ensures r.Some? <==> Truthy(s)
    ensures r.Some? ==> r == s
  {
    if Truthy(s) then s else None
  }

  /**
   * The WhiteSpace and LineTerminator code points that String.prototype.trim removes
   * (ECMA-262, sections 12.2 and 12.3: the listed characters and category Zs).
   */
  predicate IsSpace(c: char) {
    || c == '\t' || c == '\n' || c == '\U{000B}' || c == '\U{000C}' || c == '\r' || c == ' '
    || c == '\U{00A0}' || c == '\U{1680}' || ('\U{2000}' <= c <= '\U{200A}')
    || c == '\U{2028}' || c == '\U{2029}' || c == '\U{202F}' || c == '\U{205F}'
    || c == '\U{3000}' || c == '\U{FEFF}'
  }

  /** Every character is white space; the empty string is blank. */
  predicate Blank(s: string) {
    forall k :: 0 <= k < |s| ==> IsSpace(s[k])
  }

  /** No white space at either end, as trim leaves a string. */
  predicate Trimmed(s: string) {
    s == [] || (!IsSpace(s[0]) && !IsSpace(s[|s| - 1]))
  }

  /** String.prototype.trimStart: the suffix left after dropping leading white space. */
  function TrimStart(s: string): (r: string)
    ensures |r| <= |s| && r == s[|s| - |r|..]
    ensures Blank(s[..|s| - |r|])
    ensures r != [] ==> !IsSpace(r[0])
  {
    if s != [] && IsSpace(s[0]) then TrimStart(s[1..]) else s
  }

  /** String.prototype.trimEnd: the prefix left after dropping trailing white space. */
  function TrimEnd(s: string): (r: string)
    ensures |r| <= |s| && r == s[..|r|]
    ensures Blank(s[|r|..])
    ensures r != [] ==> !IsSpace(r[|r| - 1])
  {
    if s != [] && IsSpace(s[|s| - 1]) then TrimEnd(s[..|s| - 1]) else s
  }

  /** String.prototype.trim. */
  function Trim(s: string): (r: string)
    ensures |r| <= |s| && Trimmed(r)
    ensures r != [] ==> !IsSpace(r[0]) && !IsSpace(r[|r| - 1])
    ensures r == [] <==> Blank(s)
  {
    var m := TrimStart(s);
    var r := TrimEnd(m);
    assert r == [] ==> Blank(s) by {
      if r == [] {
        assert s == s[..|s| - |m|] + m;
        assert Blank(m[|r|..]) && m[|r|..] == m;
      }
    }
    r
  }

  lemma {:induction false} TrimStartBlankPrefix(a: string, m: string)
    requires Blank(a)
    requires m == [] || !IsSpace(m[0])
    ensures TrimStart(a + m) == m
    decreases |a|
  {
    if a != [] {
      assert (a + m)[1..] == a[1..] + m;
      TrimStartBlankPrefix(a[1..], m);
    } else {
      assert a + m == m;
    }
  }

  lemma {:induction false} TrimEndBlankSuffix(m: string, b: string)
    requires Blank(b)
    requires m == [] || !IsSpace(m[|m| - 1])
    ensures TrimEnd(m + b) == m
    decreases |b|
  {
    if b != [] {
      assert (m + b)[..|m + b| - 1] == m + b[..|b| - 1];
      TrimEndBlankSuffix(m, b[..|b| - 1]);
    } else {
      assert m + b == m;
    }
  }

  /**
   * Trim is characterised independently of how it is computed: whatever surrounds a
   * middle part that neither starts nor ends with white space, if it is all white space, goes.
   */
  lemma TrimCharacterised(a: string, m: string, b: string)
    requires Blank(a) && Blank(b)
    requires m != [] ==> !IsSpace(m[0]) && !IsSpace(m[|m| - 1])
    ensures Trim(a + m + b) == m
  {
    assert a + m + b == a + (m + b);
    if m == [] {
      assert m + b == b;
      TrimStartBlankPrefix(a + b, []);
      assert a + b + [] == a + b;
      assert Blank(a + b);
      assert TrimStart(a + b) == [];
    } else {
      TrimStartBlankPrefix(a, m + b);
      TrimEndBlankSuffix(m, b);
    }
  }

  /** Trimming twice is trimming once. */
  lemma TrimIdempotent(s: string)
    ensures Trim(Trim(s)) == Trim(s)
  {
    var r := Trim(s);
    assert TrimStart(r) == r;
    assert TrimEnd(r) == r;
  }

  /** String.prototype.startsWith with a string argument. */
  predicate StartsWith(s: string, p: string) {
    p <= s
  }

  /** `p` occurs in `s` starting at index `j`. */
  predicate OccursAt(s: string, p: string, j: nat) {
    j + |p| <= |s| && s[j..j + |p|] == p
  }

  /** String.prototype.indexOf(p, from) as an Option: the leftmost occurrence at or after `from`. */
  function IndexOfFrom(s: string, p: string, from: nat): (r: Option<nat>)
    ensures r.Some? ==> from <= r.value && OccursAt(s, p, r.value)
    ensures r.Some? ==> forall j: nat :: from <= j < r.value ==> !OccursAt(s, p, j)
    ensures r.None? ==> forall j: nat :: from <= j ==> !OccursAt(s, p, j)
    decreases |s| - from
  {
    if from + |p| > |s| then None
    else if s[from..from + |p|] == p then Some(from)
    else IndexOfFrom(s, p, from + 1)
  }

  /** String.prototype.includes. */
  predicate Contains(s: string, p: string) {
    IndexOfFrom(s, p, 0).Some?
  }

  /** String.prototype.replace with a string pattern: only the first occurrence is replaced. */
  function ReplaceFirst(s: string, p: string, q: string): (r: string)
  {
    match IndexOfFrom(s, p, 0)
    case None => s
    case Some(k) => s[..k] + q + s[k + |p|..]
  }

  /** Replacing a prefix that is present by the empty string drops exactly that prefix. */
  lemma ReplacePrefix(s: string, p: string)
    requires StartsWith(s, p)
    ensures ReplaceFirst(s, p, "") == s[|p|..]
  {
    assert s[0..|p|] == p;
  }

  /** String.prototype.toUpperCase on one character; only ASCII letters are mapped. */
  function UpperChar(c: char): (r: char)
    ensures 'a' <= c <= 'z' ==> 'A' <= r <= 'Z' && r as int == c as int - 32
    ensures !('a' <= c <= 'z') ==> r == c
  {
    if 'a' <= c <= 'z' then (c as int - 32) as char else c
  }

  function UpperCase(s: string): (r: string)
    ensures |r| == |s|
    ensures forall k :: 0 <= k < |s| ==> r[k] == UpperChar(s[k])
  {
    if s == [] then [] else [UpperChar(s[0])] + UpperCase(s[1..])
  }

  /** String.prototype.toLowerCase on one character; only ASCII letters are mapped. */
  function LowerChar(c: char): (r: char)
    ensures 'A' <= c <= 'Z' ==> 'a' <= r <= 'z' && r as int == c as int + 32
    ensures !('A' <= c <= 'Z') ==> r == c
  {
    if 'A' <= c <= 'Z' then (c as int + 32) as char else c
  }

  function LowerCase(s: string): (r: string)
    ensures |r| == |s|
    ensures forall k :: 0 <= k < |s| ==> r[k] == LowerChar(s[k])
  {
    if s == [] then [] else [LowerChar(s[0])] + LowerCase(s[1..])
  }

  /** What serialising a text node through innerHTML writes for one character. */
  function EscapeChar(c: char): string {
    if c == '&' then "&amp;"
    else if c == '<' then "&lt;"
    else if c == '>' then "&gt;"
    else if c == '\U{00A0}' then "&nbsp;"
    else [c]
  }

  /** The innerHTML of a div whose textContent is `s`. */
  function EscapeText(s: string): (r: string)
    ensures |r| >= |s|
    ensures forall k :: 0 <= k < |r| ==> r[k] != '<' && r[k] != '>'
  {
    if s == [] then [] else EscapeChar(s[0]) + EscapeText(s[1..])
  }

  /** The inverse of EscapeText: what an HTML parser reads back from the escaped text. */
  function Unescape(s: string): string
    decreases |s|
  {
    if s == [] then []
    else if StartsWith(s, "&amp;") then "&" + Unescape(s[5..])
    else if StartsWith(s, "&lt;") then "<" + Unescape(s[4..])
    else if StartsWith(s, "&gt;") then ">" + Unescape(s[4..])
    else if StartsWith(s, "&nbsp;") then "\U{00A0}" + Unescape(s[6..])
    else [s[0]] + Unescape(s[1..])
  }

  lemma UnescapeChar(c: char, rest: string)
    ensures Unescape(EscapeChar(c) + rest) == [c] + Unescape(rest)
  {
    var e := EscapeChar(c) + rest;
    if c == '&' {
      assert e[..5] == "&amp;" && e[5..] == rest;
    } else if c == '<' {
      assert e[..4] == "&lt;" && e[4..] == rest;
      assert e[1] == 'l';
      assert !StartsWith(e, "&amp;");
    } else if c == '>' {
      assert e[..4] == "&gt;" && e[4..] == rest;
      assert e[1] == 'g';
      assert !StartsWith(e, "&amp;") && !StartsWith(e, "&lt;");
    } else if c == '\U{00A0}' {
      assert e[..6] == "&nbsp;" && e[6..] == rest;
      assert e[1] == 'n';
      assert !StartsWith(e, "&amp;") && !StartsWith(e, "&lt;") && !StartsWith(e, "&gt;");
    } else {
      assert e[0] == c && e[1..] == rest;
    }
  }

  /** Escaping loses nothing: the text reads back exactly, so the markup carries it as inert text. */
  lemma {:induction false} UnescapeEscape(s: string)
    ensures Unescape(EscapeText(s)) == s
  {
    if s != [] {
      UnescapeEscape(s[1..]);
      UnescapeChar(s[0], EscapeText(s[1..]));
      assert [s[0]] + s[1..] == s;
    }
  }

  /** escapeHtml: a falsy argument gives the empty string, anything else its escaped text. */
  function EscapeHtml(text: Option<string>): (r: string)
    ensures !Truthy(text) ==> r == ""
    ensures Truthy(text) ==> Unescape(r) == text.value
    ensures forall k :: 0 <= k < |r| ==> r[k] != '<' && r[k] != '>'
  {
    if !Truthy(text) then ""
    else
      UnescapeEscape(text.value);
      EscapeText(text.value)
  }

  /** The suffix truncate appends, as the literal stands in the source (a mis-decoded ellipsis). */
  const Ellipsis: string := "\U{00E2}\U{20AC}\U{00A6}"

  /**
   * truncate(text, maxLength): a falsy text, and one no longer than maxLength, come back
   * unchanged; a longer one is cut to its first maxLength characters (String.prototype.substring
   * clamps a negative bound to 0), trimmed, and given the suffix.
   */
  function Truncate(text: Option<string>, maxLength: int): (r: Option<string>)
    ensures !Truthy(text) || |text.value| <= maxLength ==> r == text
    ensures Truthy(text) && |text.value| > maxLength ==>
      var cut := if maxLength < 0 then 0 else maxLength;
      && r.Some?
      && |r.value| <= cut + |Ellipsis|
      && r.value == Trim(text.value[..cut]) + Ellipsis
  {
    if !Truthy(text) || |text.value| <= maxLength then text
    else
      var cut := if maxLength < 0 then 0 else maxLength;
      Some(Trim(text.value[..cut]) + Ellipsis)
  }

  /** formatDuration: a falsy text gives null; anything else is trimmed. */
  function FormatDuration(durationText: Option<string>): (r: Option<string>)
    ensures r.None? <==> !Truthy(durationText)
    ensures r.Some? ==> r.value == Trim(durationText.value) && Trim(r.value) == r.value
  {
    if !Truthy(durationText) then None
    else
      TrimIdempotent(durationText.value);
      Some(Trim(durationText.value))
  }

  /**
   * getInitials: '?' for a null, empty or blank name; otherwise the first character of the
   * trimmed name, upper-cased. A first character that is not a letter is returned as it is.
   */
  function GetInitials(channelName: Option<string>): (r: string)
    ensures |r| == 1
    ensures !Truthy(channelName) || Blank(channelName.value) ==> r == "?"
    ensures Truthy(channelName) && !Blank(channelName.value) ==>
      r == [UpperChar(Trim(channelName.value)[0])]
  {
    if !Truthy(channelName) then "?"
    else
      var trimmed := Trim(channelName.value);
      var firstChar := if trimmed == [] then "" else [trimmed[0]];
      var upper := UpperCase(firstChar);
      if upper == "" then "?" else upper
  }
}
