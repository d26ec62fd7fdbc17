/** The colour classifier: `color_to_hex` formats a sample as `#rrggbb` and
    `get_color_name` asks the colour-name table, falling back to "Unknown". */
module Classifier {
  import opened Wrappers
  import opened Pixels

  /** The name used when the table has no entry for a colour. */
  const UnknownName: string := "Unknown"

  predicate IsLowerHexDigit(ch: char) {
    '0' <= ch <= '9' || 'a' <= ch <= 'f'
  }

  /** The lower-case hexadecimal digit for 0..15, as `{:x}` writes it. */
  function HexDigit(d: int): (ch: char)
    requires 0 <= d < 16
    ensures IsLowerHexDigit(ch)
  {
    if d < 10 then ('0' as int + d) as char else ('a' as int + d - 10) as char
  }

  /** The value of a lower-case hexadecimal digit; the inverse of HexDigit. */
  function DigitValue(ch: char): (d: int)
    requires IsLowerHexDigit(ch)
    ensures 0 <= d < 16 && HexDigit(d) == ch
  {
    if ch <= '9' then ch as int - '0' as int else ch as int - 'a' as int + 10
  }

  /** HexDigit is one-to-one: DigitValue undoes it. */
  lemma DigitRoundTrip(d: int)
    requires 0 <= d < 16
    ensures DigitValue(HexDigit(d)) == d
  {
  }

  /** A byte as two lower-case hexadecimal digits, zero-padded (`{:02x}`). */
  function Hex2(v: Byte): (s: string)
    ensures |s| == 2 && IsLowerHexDigit(s[0]) && IsLowerHexDigit(s[1])
    ensures 16 * DigitValue(s[0]) + DigitValue(s[1]) == v
  {
    DigitRoundTrip(v / 16);
    DigitRoundTrip(v % 16);
    [HexDigit(v / 16), HexDigit(v % 16)]
  }

  /** The byte written by the two hexadecimal digits at s[i], s[i + 1]. */
  function ByteAt(s: string, i: nat): int
    requires i + 1 < |s| && IsLowerHexDigit(s[i]) && IsLowerHexDigit(s[i + 1])
  {
    16 * DigitValue(s[i]) + DigitValue(s[i + 1])
  }

  /** Whether s has the form `#rrggbb` with lower-case digits. */
  predicate IsHexColor(s: string) {
    |s| == 7 && s[0] == '#' && forall i :: 1 <= i < 7 ==> IsLowerHexDigit(s[i])
  }

  /** `color_to_hex(rgb)`: seven characters, '#' and then two lower-case digits
      each for red, green and blue, in that order. */
  function ColorToHex(rgb: Triple): (s: string)
    ensures IsHexColor(s)
    ensures ByteAt(s, 1) == rgb.0 && ByteAt(s, 3) == rgb.1 && ByteAt(s, 5) == rgb.2
  {
    "#" + Hex2(rgb.0) + Hex2(rgb.1) + Hex2(rgb.2)
  }

  /** Reads a `#rrggbb` string back into its triple; None for anything else. */
  function ParseHex(s: string): (r: Option<Triple>)
    ensures r.Some? <==> IsHexColor(s)
  {
    if IsHexColor(s) then Some((ByteAt(s, 1), ByteAt(s, 3), ByteAt(s, 5))) else None
  }

  /** Parsing a formatted colour gives the colour back. */
  lemma HexRoundTrip(rgb: Triple)
    ensures ParseHex(ColorToHex(rgb)) == Some(rgb)
  {
  }

  /** Two digits determine the byte they write, and the byte the two digits. */
  lemma Hex2Canonical(s: string, i: nat)
    requires i + 1 < |s| && IsLowerHexDigit(s[i]) && IsLowerHexDigit(s[i + 1])
    ensures 0 <= ByteAt(s, i) < 256 && Hex2(ByteAt(s, i)) == s[i..i + 2]
  {
    var hi, lo := DigitValue(s[i]), DigitValue(s[i + 1]);
    var v := 16 * hi + lo;
    assert v / 16 == hi && v % 16 == lo;
    assert Hex2(v) == [HexDigit(hi), HexDigit(lo)];
  }

  /** Every `#rrggbb` string is the formatting of exactly the colour it parses
      to: the format is canonical, so ParseHex and ColorToHex are inverses. */
  lemma HexCanonical(s: string, rgb: Triple)
    ensures ParseHex(s) == Some(rgb) <==> IsHexColor(s) && ColorToHex(rgb) == s
  {
    if IsHexColor(s) && ColorToHex(rgb) == s {
      HexRoundTrip(rgb);
    }
    if ParseHex(s) == Some(rgb) {
      Hex2Canonical(s, 1);
      Hex2Canonical(s, 3);
      Hex2Canonical(s, 5);
      assert s == [s[0]] + s[1..3] + s[3..5] + s[5..7];
    }
  }

  /** Different colours get different hex codes. */
  lemma ColorToHexInjective(a: Triple, b: Triple)
    ensures ColorToHex(a) == ColorToHex(b) <==> a == b
  {
    HexRoundTrip(a);
    HexRoundTrip(b);
  }

  /** The colour (255, 0, 16) is written "#ff0010". */
  lemma HexExample()
    ensures ColorToHex((255, 0, 16)) == "#ff0010"
  {
    assert Hex2(255) == "ff" && Hex2(0) == "00" && Hex2(16) == "10";
  }

  /** `get_color_name(rgb)`: the table's name for the colour when the table has
      one, "Unknown" when the lookup signals not-found; never an error. */
  function GetColorName(table: map<Triple, string>, rgb: Triple): (name: string)
    ensures rgb in table ==> name == table[rgb]
    ensures rgb !in table ==> name == UnknownName
    ensures name in table.Values || name == UnknownName
  {
    if rgb in table then table[rgb] else UnknownName
  }

  /** A sample with its hex code and name, as the processing step reports it. */
  datatype Classified = Classified(rgb: Triple, hex: string, name: string)

  /** The classification of one sample: its hex code and its name. */
  function Classify(table: map<Triple, string>, rgb: Triple): (c: Classified)
    ensures c.rgb == rgb && ParseHex(c.hex) == Some(rgb)
    ensures c.name == GetColorName(table, rgb)
  {
    HexRoundTrip(rgb);
    Classified(rgb, ColorToHex(rgb), GetColorName(table, rgb))
  }
}
