/**
 * `System.Guid` as the 128-bit number its 32 hexadecimal digits spell, with
 * the canonical "D" formatting used when a Guid is interpolated into a message,
 * and `Guid.TryParse` for the "N", "D", "B" and "P" layouts.
 */
module Guids {
  import opened Wrappers
  import opened DotNetText

  function Pow16(n: nat): (p: nat)
    ensures p >= 1
  {
    if n == 0 then 1 else 16 * Pow16(n - 1)
  }

  const GuidLimit: nat := Pow16(32)

  type Guid = g: nat | g < GuidLimit

  /** `Guid.Empty`, the value a missing Guid field of a request body deserialises to. */
  const Empty: Guid := 0

  function HexDigit(d: nat): (c: char)
    requires d < 16
  {
    if d < 10 then ('0' as int + d) as char else ('a' as int + d - 10) as char
  }

  /** The value of one hexadecimal digit, either case. */
  function HexValue(c: char): (v: Option<nat>)
    ensures v.Some? ==> v.value < 16
  {
    if '0' <= c <= '9' then Some(c as int - '0' as int)
    else if 'a' <= c <= 'f' then Some(c as int - 'a' as int + 10)
    else if 'A' <= c <= 'F' then Some(c as int - 'A' as int + 10)
    else None
  }

  lemma HexValueOfDigit(d: nat)
    requires d < 16
    ensures HexValue(HexDigit(d)) == Some(d)
  {
  }

  /** The last `width` hexadecimal digits of `n`, most significant first. */
  function ToHex(n: nat, width: nat): (s: string)
    ensures |s| == width
  {
    if width == 0 then [] else ToHex(n / 16, width - 1) + [HexDigit(n % 16)]
  }

  /** The number a string of hexadecimal digits spells, or `None` if some character is not one. */
  function FromHex(s: string): (v: Option<nat>)
    ensures v.Some? ==> v.value < Pow16(|s|)
  {
    if s == [] then Some(0)
    else
      match (FromHex(s[..|s| - 1]), HexValue(s[|s| - 1]))
      case (Some(hi), Some(lo)) => Some(hi * 16 + lo)
      case _ => None
  }

  lemma {:induction false} FromHexToHex(n: nat, width: nat)
    requires n < Pow16(width)
    ensures FromHex(ToHex(n, width)) == Some(n)
  {
    if width > 0 {
      var s := ToHex(n, width);
      assert s[..|s| - 1] == ToHex(n / 16, width - 1);
      FromHexToHex(n / 16, width - 1);
      HexValueOfDigit(n % 16);
    }
  }

  /** `Guid.ToString()`: the "D" layout, 8-4-4-4-12 lower-case digits separated by hyphens. */
  function Format(g: Guid): (s: string)
    ensures |s| == 36
    ensures s[8] == '-' && s[13] == '-' && s[18] == '-' && s[23] == '-'
  {
    var h := ToHex(g, 32);
    h[..8] + "-" + h[8..12] + "-" + h[12..16] + "-" + h[16..20] + "-" + h[20..]
  }

  /** The "N" layout: exactly 32 hexadecimal digits. */
  function ParseN(s: string): (r: Option<Guid>)
  {
    if |s| != 32 then None
    else
      match FromHex(s)
      case Some(v) => Some(v as Guid)
      case None => None
  }

  /** The "D" layout: 36 characters, hyphens at offsets 8, 13, 18 and 23, hex digits elsewhere. */
  function ParseD(s: string): (r: Option<Guid>)
  {
    if |s| == 36 && s[8] == '-' && s[13] == '-' && s[18] == '-' && s[23] == '-' then
      ParseN(s[..8] + s[9..13] + s[14..18] + s[19..23] + s[24..])
    else None
  }

  /** `Guid.TryParse`: white space is trimmed, then the "N", "D", "B" (braces) or "P" (parentheses) layout is accepted. */
  function TryParse(input: Option<string>): (r: Option<Guid>)
    ensures input.None? ==> r.None?
  {
    match input
    case None => None
    case Some(raw) =>
      var s := Trim(raw);
      if |s| == 32 then ParseN(s)
      else if |s| == 36 then ParseD(s)
      else if |s| == 38 && ((s[0] == '{' && s[37] == '}') || (s[0] == '(' && s[37] == ')')) then ParseD(s[1..37])
      else None
  }

  lemma {:induction false} HexDigitsOnly(n: nat, width: nat)
    ensures forall i | 0 <= i < width :: HexValue(ToHex(n, width)[i]).Some?
  {
    if width > 0 {
      HexDigitsOnly(n / 16, width - 1);
      HexValueOfDigit(n % 16);
    }
  }

  lemma {:induction false} ParseFormat(g: Guid)
    ensures ParseD(Format(g)) == Some(g)
  {
    var h := ToHex(g, 32);
    var s := Format(g);
    assert s == h[..8] + "-" + h[8..12] + "-" + h[12..16] + "-" + h[16..20] + "-" + h[20..];
    assert s[..8] == h[..8];
    assert s[9..13] == h[8..12];
    assert s[14..18] == h[12..16];
    assert s[19..23] == h[16..20];
    assert s[24..] == h[20..];
    assert h == h[..8] + h[8..12] + h[12..16] + h[16..20] + h[20..];
    FromHexToHex(g, 32);
  }

  /** The message form of a Guid is accepted back by `Guid.TryParse`. */
  lemma {:induction false} TryParseFormat(g: Guid)
    ensures TryParse(Some(Format(g))) == Some(g)
  {
    var h := ToHex(g, 32);
    var s := Format(g);
    HexDigitsOnly(g, 32);
    forall i | 0 <= i < 36 ensures !IsWhiteSpace(s[i]) {
      if i < 8 { assert s[i] == h[i]; }
      else if 8 < i < 13 { assert s[i] == h[i - 1]; }
      else if 13 < i < 18 { assert s[i] == h[i - 2]; }
      else if 18 < i < 23 { assert s[i] == h[i - 3]; }
      else if 23 < i { assert s[i] == h[i - 4]; }
    }
    ParseFormat(g);
  }
}
