/** base64.StdEncoding, which the append log uses for the URL field: the
    alphabet of section 4 of RFC 4648, with '=' padding. Decoding accepts
    non-zero bits in the unused part of a padded quantum, as Go does. */
module Base64 {
  import opened Types

  /** The six-bit value of one digit: A-Z, a-z, 0-9, '+', '/'. */
  function Char(v: nat): (c: Byte)
    requires v < 64
    ensures c != '=' && c != ',' && c != '\n'
  {
    if v < 26 then ('A' as int + v) as char
    else if v < 52 then ('a' as int + v - 26) as char
    else if v < 62 then ('0' as int + v - 52) as char
    else if v == 62 then '+'
    else '/'
  }

  /** The digit's value, or None for a byte outside the alphabet (the pad '='
      included). */
  function Value(c: Byte): (v: Option<nat>)
    ensures v.Some? ==> v.value < 64
  {
    if 'A' <= c <= 'Z' then Some(c as int - 'A' as int)
    else if 'a' <= c <= 'z' then Some(c as int - 'a' as int + 26)
    else if '0' <= c <= '9' then Some(c as int - '0' as int + 52)
    else if c == '+' then Some(62)
    else if c == '/' then Some(63)
    else None
  }

  lemma ValueChar(v: nat)
    requires v < 64
    ensures Value(Char(v)) == Some(v)
  {
  }

  /** Value and Char are inverse on the alphabet. */
  lemma CharValue(c: Byte)
    requires Value(c).Some?
    ensures Char(Value(c).value) == c
  {
  }

  /** The four digits of three bytes. */
  function Quantum(b0: nat, b1: nat, b2: nat): (q: Text)
    requires b0 < 256 && b1 < 256 && b2 < 256
    ensures |q| == 4
  {
    [Char(b0 / 4), Char((b0 % 4) * 16 + b1 / 16), Char((b1 % 16) * 4 + b2 / 64), Char(b2 % 64)]
  }

  /** StdEncoding.EncodeToString; a last group of one or two bytes is padded
      with '=' to a full quantum. */
  function Encode(s: Text): (e: Text)
    ensures |e| % 4 == 0
    decreases |s|
  {
    if s == [] then []
    else if |s| == 1 then
      var b0 := s[0] as int;
      [Char(b0 / 4), Char((b0 % 4) * 16), '=', '=']
    else if |s| == 2 then
      var b0, b1 := s[0] as int, s[1] as int;
      [Char(b0 / 4), Char((b0 % 4) * 16 + b1 / 16), Char((b1 % 16) * 4), '=']
    else
      Quantum(s[0] as int, s[1] as int, s[2] as int) + Encode(s[3..])
  }

  /** Three bytes from four digit values. */
  function Bytes(v0: nat, v1: nat, v2: nat, v3: nat): (b: Text)
    requires v0 < 64 && v1 < 64 && v2 < 64 && v3 < 64
    ensures |b| == 3
  {
    [(v0 * 4 + v1 / 16) as char, ((v1 % 16) * 16 + v2 / 4) as char, ((v2 % 4) * 64 + v3) as char]
  }

  /** A quantum without padding. */
  function DecodeFull(q: Text): (r: Option<Text>)
    requires |q| == 4
    ensures r.Some? ==> |r.value| == 3
  {
    var v0, v1, v2, v3 := Value(q[0]), Value(q[1]), Value(q[2]), Value(q[3]);
    if v0.Some? && v1.Some? && v2.Some? && v3.Some? then Some(Bytes(v0.value, v1.value, v2.value, v3.value))
    else None
  }

  /** The last quantum, which may end in "==" (one byte) or "=" (two bytes). */
  function DecodeLast(q: Text): (r: Option<Text>)
    requires |q| == 4
  {
    var v0, v1, v2 := Value(q[0]), Value(q[1]), Value(q[2]);
    if q[2] == '=' && q[3] == '=' then
      if v0.Some? && v1.Some? then Some(Bytes(v0.value, v1.value, 0, 0)[..1]) else None
    else if q[3] == '=' then
      if v0.Some? && v1.Some? && v2.Some? then Some(Bytes(v0.value, v1.value, v2.value, 0)[..2]) else None
    else DecodeFull(q)
  }

  /** StdEncoding.DecodeString on input without line breaks: whole quanta
      only, padding only in the last one; any other such input is a
      CorruptInputError (None). */
  function Decode(e: Text): (r: Option<Text>)
    decreases |e|
  {
    if e == [] then Some([])
    else if |e| < 4 then None
    else if |e| == 4 then DecodeLast(e)
    else
      var b, rest := DecodeFull(e[..4]), Decode(e[4..]);
      if b.Some? && rest.Some? then Some(b.value + rest.value) else None
  }

  /** The bit arithmetic of one quantum undoes itself. */
  lemma BytesQuantum(b0: nat, b1: nat, b2: nat)
    requires b0 < 256 && b1 < 256 && b2 < 256
    ensures Bytes(b0 / 4, (b0 % 4) * 16 + b1 / 16, (b1 % 16) * 4 + b2 / 64, b2 % 64)
         == [b0 as char, b1 as char, b2 as char]
  {
    var v1 := (b0 % 4) * 16 + b1 / 16;
    var v2 := (b1 % 16) * 4 + b2 / 64;
    assert v1 / 16 == b0 % 4 && v1 % 16 == b1 / 16;
    assert v2 / 4 == b1 % 16 && v2 % 4 == b2 / 64;
  }

  lemma DecodeQuantum(b0: nat, b1: nat, b2: nat)
    requires b0 < 256 && b1 < 256 && b2 < 256
    ensures DecodeFull(Quantum(b0, b1, b2)) == Some([b0 as char, b1 as char, b2 as char])
  {
    ValueChar(b0 / 4);
    ValueChar((b0 % 4) * 16 + b1 / 16);
    ValueChar((b1 % 16) * 4 + b2 / 64);
    ValueChar(b2 % 64);
    BytesQuantum(b0, b1, b2);
  }

  /** A last quantum "xy==" carries one byte. */
  lemma DecodeLastOne(b0: nat)
    requires b0 < 256
    ensures DecodeLast([Char(b0 / 4), Char((b0 % 4) * 16), '=', '=']) == Some([b0 as char])
  {
    var v0, v1 := b0 / 4, (b0 % 4) * 16;
    ValueChar(v0);
    ValueChar(v1);
    var q: Text := [Char(v0), Char(v1), '=', '='];
    assert q[2] == '=' && q[3] == '=';
    assert Value(q[0]) == Some(v0) && Value(q[1]) == Some(v1);
    assert v0 * 4 + v1 / 16 == b0;
    assert Bytes(v0, v1, 0, 0)[..1] == [b0 as char];
  }

  /** A last quantum "xyz=" carries two bytes. */
  lemma DecodeLastTwo(b0: nat, b1: nat)
    requires b0 < 256 && b1 < 256
    ensures DecodeLast([Char(b0 / 4), Char((b0 % 4) * 16 + b1 / 16), Char((b1 % 16) * 4), '='])
         == Some([b0 as char, b1 as char])
  {
    var v0, v1, v2 := b0 / 4, (b0 % 4) * 16 + b1 / 16, (b1 % 16) * 4;
    ValueChar(v0);
    ValueChar(v1);
    ValueChar(v2);
    assert v0 * 4 + v1 / 16 == b0;
    assert (v1 % 16) * 16 + v2 / 4 == b1;
    var q: Text := [Char(v0), Char(v1), Char(v2), '='];
    assert q[2] != '=' && q[3] == '=';
    assert Value(q[0]) == Some(v0) && Value(q[1]) == Some(v1) && Value(q[2]) == Some(v2);
    assert Bytes(v0, v1, v2, 0)[..2] == [b0 as char, b1 as char];
  }

  lemma EncodeOneByte(s: Text)
    requires |s| == 1
    ensures Encode(s) == [Char(s[0] as int / 4), Char((s[0] as int % 4) * 16), '=', '=']
  {
  }

  lemma EncodeTwoBytes(s: Text)
    requires |s| == 2
    ensures Encode(s)
         == [Char(s[0] as int / 4), Char((s[0] as int % 4) * 16 + s[1] as int / 16), Char((s[1] as int % 16) * 4), '=']
  {
  }

  lemma DecodeOneQuantum(e: Text)
    requires |e| == 4
    ensures Decode(e) == DecodeLast(e)
  {
  }

  lemma DecodeEncodeOne(s: Text)
    requires |s| == 1
    ensures Decode(Encode(s)) == Some(s)
  {
    var b0 := s[0] as int;
    var e := Encode(s);
    EncodeOneByte(s);
    DecodeOneQuantum(e);
    DecodeLastOne(b0);
    assert s == [b0 as char];
    assert Decode(e) == Some(s);
  }

  lemma DecodeEncodeTwo(s: Text)
    requires |s| == 2
    ensures Decode(Encode(s)) == Some(s)
  {
    var b0, b1 := s[0] as int, s[1] as int;
    var v0, v1, v2 := b0 / 4, (b0 % 4) * 16 + b1 / 16, (b1 % 16) * 4;
    var e := Encode(s);
    EncodeTwoBytes(s);
    assert e == [Char(v0), Char(v1), Char(v2), '='];
    ValueChar(v0);
    ValueChar(v1);
    ValueChar(v2);
    assert e[2] != '=' && e[3] == '=';
    assert Value(e[0]) == Some(v0) && Value(e[1]) == Some(v1) && Value(e[2]) == Some(v2);
    assert v0 * 4 + v1 / 16 == b0;
    assert (v1 % 16) * 16 + v2 / 4 == b1;
    var d := Bytes(v0, v1, v2, 0)[..2];
    assert d == s;
    assert DecodeLast(e) == Some(d);
    DecodeOneQuantum(e);
  }

  /** Decoding an encoding gives back the URL's bytes. */
  lemma {:induction false} DecodeEncode(s: Text)
    ensures Decode(Encode(s)) == Some(s)
    decreases |s|
  {
    if |s| == 1 {
      DecodeEncodeOne(s);
    } else if |s| == 2 {
      DecodeEncodeTwo(s);
    } else if |s| >= 3 {
      var e := Encode(s);
      var q := Quantum(s[0] as int, s[1] as int, s[2] as int);
      DecodeQuantum(s[0] as int, s[1] as int, s[2] as int);
      if |s| == 3 {
        assert e == q + [];
        assert q[3] != '=';
        assert s == [s[0], s[1], s[2]];
      } else {
        DecodeEncode(s[3..]);
        assert e[..4] == q && e[4..] == Encode(s[3..]);
        assert s == [s[0], s[1], s[2]] + s[3..];
      }
    }
  }

  /** An encoding holds no comma and no newline, so it is one field of one
      log line. */
  lemma {:induction false} EncodeClean(s: Text)
    ensures ',' !in Encode(s) && '\n' !in Encode(s)
    decreases |s|
  {
    if |s| >= 3 {
      EncodeClean(s[3..]);
    }
  }
}
