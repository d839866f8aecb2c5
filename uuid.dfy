/** The textual form of a user's UUID, as the append log writes it
    (uuid.UUID.String) and reads it back (uuid.Parse): the layout of
    section 3 of RFC 4122, lower-case hexadecimal in groups 8-4-4-4-12. */
module Uuid {
  import opened Types

  /** The lower-case hexadecimal digit of a value below 16. */
  function HexDigit(d: nat): (c: Byte)
    requires d < 16
    ensures '0' <= c <= '9' || 'a' <= c <= 'f'
  {
    if d < 10 then ('0' as int + d) as char else ('a' as int + d - 10) as char
  }

  /** The value of a hexadecimal digit in either case; None for any other byte. */
  function HexValue(c: Byte): (v: Option<nat>)
    ensures v.Some? ==> v.value < 16
    ensures v.Some? <==> ('0' <= c <= '9' || 'a' <= c <= 'f' || 'A' <= c <= 'F')
  {
    if '0' <= c <= '9' then Some(c as int - '0' as int)
    else if 'a' <= c <= 'f' then Some(c as int - 'a' as int + 10)
    else if 'A' <= c <= 'F' then Some(c as int - 'A' as int + 10)
    else None
  }

  lemma HexValueDigit(d: nat)
    requires d < 16
    ensures HexValue(HexDigit(d)) == Some(d)
  {
  }

  /** Two lower-case hexadecimal digits per octet, high nibble first. */
  function Hex(bs: seq<Octet>): (s: Text)
    ensures |s| == 2 * |bs|
    ensures forall i | 0 <= i < |s| :: '0' <= s[i] <= '9' || 'a' <= s[i] <= 'f'
  {
    if bs == [] then []
    else [HexDigit(bs[0] / 16), HexDigit(bs[0] % 16)] + Hex(bs[1..])
  }

  /** Octets from pairs of hexadecimal digits; None if a byte is not a digit
      or a digit is left over. */
  function ParseHex(s: Text): (r: Option<seq<Octet>>)
    ensures r.Some? ==> 2 * |r.value| == |s|
    decreases |s|
  {
    if s == [] then Some([])
    else if |s| < 2 then None
    else
      match (HexValue(s[0]), HexValue(s[1]), ParseHex(s[2..]))
      case (Some(hi), Some(lo), Some(rest)) => Some([hi * 16 + lo] + rest)
      case _ => None
  }

  lemma {:induction false} ParseHexHex(bs: seq<Octet>)
    ensures ParseHex(Hex(bs)) == Some(bs)
  {
    if bs != [] {
      var s := Hex(bs);
      HexValueDigit(bs[0] / 16);
      HexValueDigit(bs[0] % 16);
      assert s[2..] == Hex(bs[1..]);
      ParseHexHex(bs[1..]);
      assert [bs[0]] + bs[1..] == bs;
    }
  }

  /** uuid.UUID.String: xxxxxxxx-xxxx-xxxx-xxxx-xxxxxxxxxxxx. */
  function Format(u: User): (s: Text)
    ensures |s| == 36
    ensures s[8] == '-' && s[13] == '-' && s[18] == '-' && s[23] == '-'
    ensures ',' !in s && '\n' !in s
  {
    var h := Hex(u);
    var dash: Text := ['-'];
    var s := h[..8] + dash + h[8..12] + dash + h[12..16] + dash + h[16..20] + dash + h[20..];
    assert ',' !in h && '\n' !in h;
    s
  }

  /** The 32 digits of a 36-character form, without its four dashes. */
  function Undash(s: Text): (h: Text)
    requires |s| == 36
    ensures |h| == 32
  {
    s[..8] + s[9..13] + s[14..18] + s[19..23] + s[24..]
  }

  /** uuid.Parse for the forms the service meets: the 36-character form with
      dashes at 8, 13, 18 and 23, and the bare 32-digit form; digits of either
      case. Every other length, a misplaced dash or a non-digit is an error. */
  function Parse(s: Text): (r: Option<User>)
    ensures r.Some? ==> |s| == 36 || |s| == 32
  {
    var digits :=
      if |s| == 36 && s[8] == '-' && s[13] == '-' && s[18] == '-' && s[23] == '-' then Some(Undash(s))
      else if |s| == 32 then Some(s)
      else None;
    if digits.None? then None
    else
      match ParseHex(digits.value)
      case Some(bs) =>
        var u: User := bs;
        Some(u)
      case None => None
  }

  /** Reading back what String wrote gives the same UUID. */
  lemma ParseFormat(u: User)
    ensures Parse(Format(u)) == Some(u)
  {
    var h := Hex(u);
    var s := Format(u);
    assert Undash(s) == h by {
      assert s[..8] == h[..8];
      assert s[9..13] == h[8..12];
      assert s[14..18] == h[12..16];
      assert s[19..23] == h[16..20];
      assert s[24..] == h[20..];
      assert h == h[..8] + h[8..12] + h[12..16] + h[16..20] + h[20..];
    }
    ParseHexHex(u);
  }

  /** Format is one-to-one: two users with the same text are the same user. */
  lemma FormatInjective(u: User, v: User)
    requires Format(u) == Format(v)
    ensures u == v
  {
    ParseFormat(u);
    ParseFormat(v);
  }
}
