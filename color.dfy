/**
 * The deterministic colours of hashToColor (card accent and solid background) and
 * hashToAvatarColor (avatar badge): a rolling hash over the string's UTF-16 code units,
 * reduced to a hue.
 */
module ColorHash {
  import opened Wrappers
  import opened Text
  import opened Ecma

  /** A CSS colour as the script writes it: a hex literal or an hsl() triple in percent. */
  datatype Color = Hex(code: string) | Hsl(hue: nat, saturation: nat, lightness: nat)

  /** The CSS text of a colour: `hsl(<hue>, <s>%, <l>%)` or the hex literal. */
  function Css(c: Color): string {
    match c
    case Hex(code) => code
    case Hsl(h, s, l) => "hsl(" + Decimal(h) + ", " + Decimal(s) + "%, " + Decimal(l) + "%)"
  }

  /** One step of the loop body: `hash = code + ((hash << 5) - hash)`. */
  function Step(hash: int, code: int): int {
    code + (ShiftLeft5(hash) - hash)
  }

  /** The hash after the loop has consumed `units`, starting from 0. */
  function Hash(units: seq<int>): int {
    if units == [] then 0 else Step(Hash(units[..|units| - 1]), units[|units| - 1])
  }

  /** The recurrence in exact arithmetic: hash' = code + ToInt32(32 * hash) - hash. */
  lemma HashRecurrence(units: seq<int>, code: int)
    ensures Hash(units + [code]) == code + ToInt32(32 * Hash(units)) - Hash(units)
  {
    assert (units + [code])[..|units|] == units;
    ShiftLeft5IsToInt32(Hash(units));
  }

  /** The loop shared by hashToColor and hashToAvatarColor. */
  method StringHash(str: string) returns (hash: int)
    ensures hash == Hash(Utf16(str))
  {
    var units := Utf16(str);
    hash := 0;
    for i := 0 to |units|
      invariant hash == Hash(units[..i])
    {
      assert units[..i + 1][..i] == units[..i];
      hash := units[i] + (ShiftLeft5(hash) - hash);
    }
    assert units[..|units|] == units;
  }

  /** hashToColor: white for a falsy string, otherwise the hashed hue at 15% saturation, 70% lightness. */
  function AccentColor(str: Option<string>): (c: Color)
    ensures !Truthy(str) ==> c == Hex("#ffffff")
    ensures Truthy(str) ==> c == Hsl(Abs(Hash(Utf16(str.value))) % 360, 15, 70)
  {
    if !Truthy(str) then Hex("#ffffff") else Hsl(Hue(Hash(Utf16(str.value))), 15, 70)
  }

  /** hashToAvatarColor: dark grey for a falsy string, otherwise the hashed hue at 25% and 25%. */
  function AvatarColor(str: Option<string>): (c: Color)
    ensures !Truthy(str) ==> c == Hsl(0, 0, 20)
    ensures Truthy(str) ==> c == Hsl(Abs(Hash(Utf16(str.value))) % 360, 25, 25)
  {
    if !Truthy(str) then Hsl(0, 0, 20) else Hsl(Hue(Hash(Utf16(str.value))), 25, 25)
  }

  method HashToColor(str: Option<string>) returns (c: Color)
    ensures c == AccentColor(str)
    ensures c.Hsl? ==> c.hue < 360
  {
    if !Truthy(str) {
      return Hex("#ffffff");
    }
    var hash := StringHash(str.value);
    var hue := Abs(TruncRem(hash, 360));
    c := Hsl(hue, 15, 70);
  }

  method HashToAvatarColor(str: Option<string>) returns (c: Color)
    ensures c == AvatarColor(str)
    ensures c.hue < 360
  {
    if !Truthy(str) {
      return Hsl(0, 0, 20);
    }
    var hash := StringHash(str.value);
    var hue := Abs(TruncRem(hash, 360));
    c := Hsl(hue, 25, 25);
  }

  /** The accent and avatar colours of one string share the hue; only saturation and lightness differ. */
  lemma SameHue(str: Option<string>)
    requires Truthy(str)
    ensures AccentColor(str).hue == AvatarColor(str).hue
  {
  }

  predicate IsDigit(c: char) {
    '0' <= c <= '9'
  }

  /** The run of decimal digits a string starts with. */
  function LeadingDigits(s: string): (r: string)
    ensures forall k :: 0 <= k < |r| ==> '0' <= r[k] <= '9'
  {
    if s != [] && IsDigit(s[0]) then [s[0]] + LeadingDigits(s[1..]) else []
  }

  lemma {:induction false} LeadingDigitsOf(d: string, tail: string)
    requires forall k :: 0 <= k < |d| ==> IsDigit(d[k])
    requires tail != [] && !IsDigit(tail[0])
    ensures LeadingDigits(d + tail) == d
  {
    if d != [] {
      assert (d + tail)[1..] == d[1..] + tail;
      LeadingDigitsOf(d[1..], tail);
    } else {
      assert d + tail == tail;
    }
  }

  /** The hue can be read back from the CSS text of an hsl() colour. */
  lemma CssHue(c: Color)
    requires c.Hsl?
    ensures |Css(c)| > 4 && ParseDecimal(LeadingDigits(Css(c)[4..])) == c.hue
  {
    var tail := ", " + Decimal(c.saturation) + "%, " + Decimal(c.lightness) + "%)";
    assert Css(c)[4..] == Decimal(c.hue) + tail;
    LeadingDigitsOf(Decimal(c.hue), tail);
    DecimalRoundTrip(c.hue);
  }

  /** Two colours with distinct hues have distinct CSS text. */
  lemma CssDistinguishesHues(a: Color, b: Color)
    requires a.Hsl? && b.Hsl?
    requires a.hue != b.hue
    ensures Css(a) != Css(b)
  {
    CssHue(a);
    CssHue(b);
  }
}
