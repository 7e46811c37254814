/** Base64 with padding (section 4 of RFC 4648), and a decoder that accepts
    exactly what the encoder produces. */
module Base64 {
  import opened Common

  const PAD: byte := 61

  /** The alphabet: A-Z, a-z, 0-9, plus, slash. */
  function Symbol(v: int): (b: byte)
    requires 0 <= v < 64
    ensures b != PAD && 0x20 < b < 0x7F
  {
    if v < 26 then 65 + v else if v < 52 then 71 + v else if v < 62 then v - 4 else if v == 62 then 43 else 47
  }

  function Digit(b: byte): (v: Option<int>)
    ensures v.Some? ==> 0 <= v.value < 64
  {
    if 65 <= b <= 90 then Some(b as int - 65)
    else if 97 <= b <= 122 then Some(b as int - 71)
    else if 48 <= b <= 57 then Some(b as int + 4)
    else if b == 43 then Some(62)
    else if b == 47 then Some(63)
    else None
  }

  lemma SymbolRoundTrip(v: int)
    requires 0 <= v < 64
    ensures Digit(Symbol(v)) == Some(v)
  {
  }

  function Encode(b: seq<byte>): seq<byte> {
    if |b| == 0 then
      []
    else if |b| == 1 then
      [Symbol(b[0] / 4), Symbol(b[0] % 4 * 16), PAD, PAD]
    else if |b| == 2 then
      [Symbol(b[0] / 4), Symbol(b[0] % 4 * 16 + b[1] / 16), Symbol(b[1] % 16 * 4), PAD]
    else
      [Symbol(b[0] / 4), Symbol(b[0] % 4 * 16 + b[1] / 16), Symbol(b[1] % 16 * 4 + b[2] / 64), Symbol(b[2] % 64)]
      + Encode(b[3..])
  }

  /** The octets that four six-bit groups make. */
  function Octet0(v0: int, v1: int): byte
    requires 0 <= v0 < 64 && 0 <= v1 < 64
  {
    v0 * 4 + v1 / 16
  }

  function Octet1(v1: int, v2: int): byte
    requires 0 <= v1 < 64 && 0 <= v2 < 64
  {
    v1 % 16 * 16 + v2 / 4
  }

  function Octet2(v2: int, v3: int): byte
    requires 0 <= v2 < 64 && 0 <= v3 < 64
  {
    v2 % 4 * 64 + v3
  }

  function Decode(e: seq<byte>): Option<seq<byte>> {
    if |e| == 0 then
      Some([])
    else if |e| < 4 || Digit(e[0]).None? || Digit(e[1]).None? then
      None
    else
      var v0, v1 := Digit(e[0]).value, Digit(e[1]).value;
      if e[2] == PAD then
        if |e| == 4 && e[3] == PAD && v1 % 16 == 0 then Some([Octet0(v0, v1)]) else None
      else if Digit(e[2]).None? then
        None
      else
        var v2 := Digit(e[2]).value;
        if e[3] == PAD then
          if |e| == 4 && v2 % 4 == 0 then Some([Octet0(v0, v1), Octet1(v1, v2)]) else None
        else if Digit(e[3]).None? then
          None
        else
          match Decode(e[4..])
          case None => None
          case Some(rest) => Some([Octet0(v0, v1), Octet1(v1, v2), Octet2(v2, Digit(e[3]).value)] + rest)
  }

  /** The four six-bit groups of three octets put together again. */
  lemma Groups(b0: byte, b1: byte, b2: byte)
    ensures var v0, v1 := b0 as int / 4, b0 as int % 4 * 16 + b1 as int / 16;
            var v2, v3 := b1 as int % 16 * 4 + b2 as int / 64, b2 as int % 64;
            v0 * 4 + v1 / 16 == b0 && v1 % 16 * 16 + v2 / 4 == b1 && v2 % 4 * 64 + v3 == b2
  {
  }

  lemma OneOctet(b0: byte)
    ensures Decode(Encode([b0])) == Some([b0])
  {
    SymbolRoundTrip(b0 / 4);
    SymbolRoundTrip(b0 % 4 * 16);
  }

  lemma TwoOctets(b0: byte, b1: byte)
    ensures Decode(Encode([b0, b1])) == Some([b0, b1])
  {
    var v0, v1, v2 := b0 / 4, b0 % 4 * 16 + b1 / 16, b1 % 16 * 4;
    EncodesTwo(b0, b1);
    TwoGroups(b0, b1);
    RegroupedTwo(v0, v1, v2, b0, b1);
  }

  lemma EncodesTwo(b0: byte, b1: byte)
    ensures Encode([b0, b1]) == [Symbol(b0 / 4), Symbol(b0 % 4 * 16 + b1 / 16), Symbol(b1 % 16 * 4), PAD]
  {
  }

  lemma TwoGroups(b0: byte, b1: byte)
    ensures Octet0(b0 / 4, b0 % 4 * 16 + b1 / 16) == b0
    ensures Octet1(b0 % 4 * 16 + b1 / 16, b1 % 16 * 4) == b1
  {
  }

  lemma RegroupedTwo(v0: int, v1: int, v2: int, b0: byte, b1: byte)
    requires 0 <= v0 < 64 && 0 <= v1 < 64 && 0 <= v2 < 64 && v2 % 4 == 0
    requires Octet0(v0, v1) == b0 && Octet1(v1, v2) == b1
    ensures Decode([Symbol(v0), Symbol(v1), Symbol(v2), PAD]) == Some([b0, b1])
  {
    ThreeSymbols(v0, v1, v2);
  }

  lemma ThreeSymbols(v0: int, v1: int, v2: int)
    requires 0 <= v0 < 64 && 0 <= v1 < 64 && 0 <= v2 < 64 && v2 % 4 == 0
    ensures Decode([Symbol(v0), Symbol(v1), Symbol(v2), PAD]) == Some([Octet0(v0, v1), Octet1(v1, v2)])
  {
    SymbolRoundTrip(v0);
    SymbolRoundTrip(v1);
    SymbolRoundTrip(v2);
  }

  lemma FourSymbols(v0: int, v1: int, v2: int, v3: int, e: seq<byte>)
    requires 0 <= v0 < 64 && 0 <= v1 < 64 && 0 <= v2 < 64 && 0 <= v3 < 64
    ensures Decode([Symbol(v0), Symbol(v1), Symbol(v2), Symbol(v3)] + e)
         == match Decode(e) {
              case None => None
              case Some(rest) => Some([Octet0(v0, v1), Octet1(v1, v2), Octet2(v2, v3)] + rest)
            }
  {
    SymbolRoundTrip(v0);
    SymbolRoundTrip(v1);
    SymbolRoundTrip(v2);
    SymbolRoundTrip(v3);
    var symbols := [Symbol(v0), Symbol(v1), Symbol(v2), Symbol(v3)];
    assert (symbols + e)[4..] == e;
  }

  lemma ThreeOctets(b0: byte, b1: byte, b2: byte, e: seq<byte>)
    ensures Decode([Symbol(b0 / 4), Symbol(b0 % 4 * 16 + b1 / 16), Symbol(b1 % 16 * 4 + b2 / 64), Symbol(b2 % 64)] + e)
         == if Decode(e).Some? then Some([b0, b1, b2] + Decode(e).value) else None
  {
    Groups(b0, b1, b2);
    Regrouped(b0 / 4, b0 % 4 * 16 + b1 / 16, b1 % 16 * 4 + b2 / 64, b2 % 64, b0, b1, b2, e);
  }

  lemma Regrouped(v0: int, v1: int, v2: int, v3: int, b0: byte, b1: byte, b2: byte, e: seq<byte>)
    requires 0 <= v0 < 64 && 0 <= v1 < 64 && 0 <= v2 < 64 && 0 <= v3 < 64
    requires Octet0(v0, v1) == b0 && Octet1(v1, v2) == b1 && Octet2(v2, v3) == b2
    ensures Decode([Symbol(v0), Symbol(v1), Symbol(v2), Symbol(v3)] + e)
         == if Decode(e).Some? then Some([b0, b1, b2] + Decode(e).value) else None
  {
    FourSymbols(v0, v1, v2, v3, e);
  }

  /** The alphabet of the standard, symbol by symbol. */
  lemma AlphabetIsStandard(v: int)
    requires 0 <= v < 64
    ensures v < 26 ==> Symbol(v) as char == "ABCDEFGHIJKLMNOPQRSTUVWXYZ"[v]
    ensures 26 <= v < 52 ==> Symbol(v) as char == "abcdefghijklmnopqrstuvwxyz"[v - 26]
    ensures 52 <= v < 62 ==> Symbol(v) as char == "0123456789"[v - 52]
    ensures v == 62 ==> Symbol(v) as char == '+'
    ensures v == 63 ==> Symbol(v) as char == '/'
  {
  }

  /** Four symbols carry three octets as one number, most significant first; with
      fewer octets the missing ones count as zero and whole symbols of zeros are
      padding. */
  lemma BigEndian(b: seq<byte>) returns (v0: int, v1: int, v2: int, v3: int)
    requires 1 <= |b| <= 3
    ensures 0 <= v0 < 64 && 0 <= v1 < 64 && 0 <= v2 < 64 && 0 <= v3 < 64
    ensures ((v0 * 64 + v1) * 64 + v2) * 64 + v3
         == (b[0] as int * 256 + (if |b| > 1 then b[1] as int else 0)) * 256 + (if |b| > 2 then b[2] as int else 0)
    ensures Encode(b)
         == [Symbol(v0), Symbol(v1), if |b| > 1 then Symbol(v2) else 61, if |b| > 2 then Symbol(v3) else 61]
  {
    var b0: int, b1: int, b2: int := b[0], if |b| > 1 then b[1] else 0, if |b| > 2 then b[2] else 0;
    v0, v1, v2, v3 := b0 / 4, b0 % 4 * 16 + b1 / 16, b1 % 16 * 4 + b2 / 64, b2 % 64;
    assert b[|b|..] == [];
  }

  /** Decoding undoes encoding, for every length and padding. */
  lemma {:induction false} RoundTrip(b: seq<byte>)
    ensures Decode(Encode(b)) == Some(b)
  {
    if |b| == 0 {
    } else if |b| == 1 {
      assert b == [b[0]];
      OneOctet(b[0]);
    } else if |b| == 2 {
      assert b == [b[0], b[1]];
      TwoOctets(b[0], b[1]);
    } else {
      RoundTrip(b[3..]);
      ThreeOctets(b[0], b[1], b[2], Encode(b[3..]));
      assert b == [b[0], b[1], b[2]] + b[3..];
    }
  }

  lemma DigitRoundTrip(b: byte)
    requires Digit(b).Some?
    ensures Symbol(Digit(b).value) == b
  {
  }

  /** The six-bit groups of the octets put together from six-bit groups. */
  lemma Octets(v0: int, v1: int, v2: int, v3: int)
    requires 0 <= v0 < 64 && 0 <= v1 < 64 && 0 <= v2 < 64 && 0 <= v3 < 64
    ensures var b0, b1, b2 := Octet0(v0, v1), Octet1(v1, v2), Octet2(v2, v3);
            && 0 <= b0 < 256 && 0 <= b1 < 256 && 0 <= b2 < 256
            && b0 / 4 == v0 && b0 % 4 * 16 + b1 / 16 == v1 && b1 % 16 * 4 + b2 / 64 == v2 && b2 % 64 == v3
  {
  }

  lemma EncodeOne(v0: int, v1: int)
    requires 0 <= v0 < 64 && 0 <= v1 < 64 && v1 % 16 == 0
    ensures Encode([Octet0(v0, v1)]) == [Symbol(v0), Symbol(v1), PAD, PAD]
  {
    Octets(v0, v1, 0, 0);
  }

  lemma EncodeTwo(v0: int, v1: int, v2: int)
    requires 0 <= v0 < 64 && 0 <= v1 < 64 && 0 <= v2 < 64 && v2 % 4 == 0
    ensures Encode([Octet0(v0, v1), Octet1(v1, v2)]) == [Symbol(v0), Symbol(v1), Symbol(v2), PAD]
  {
    Octets(v0, v1, v2, 0);
  }

  lemma EncodeThree(v0: int, v1: int, v2: int, v3: int, rest: seq<byte>)
    requires 0 <= v0 < 64 && 0 <= v1 < 64 && 0 <= v2 < 64 && 0 <= v3 < 64
    ensures Encode([Octet0(v0, v1), Octet1(v1, v2), Octet2(v2, v3)] + rest)
         == [Symbol(v0), Symbol(v1), Symbol(v2), Symbol(v3)] + Encode(rest)
  {
    Octets(v0, v1, v2, v3);
    EncodeGroup(Octet0(v0, v1), Octet1(v1, v2), Octet2(v2, v3), rest);
  }

  /** A last group of one or two octets. */
  lemma PaddedGroup(e: seq<byte>)
    requires |e| >= 4 && Decode(e).Some? && (e[2] == PAD || e[3] == PAD)
    ensures Encode(Decode(e).value) == e
  {
    var d0, d1, d2 := Digit(e[0]), Digit(e[1]), Digit(e[2]);
    DigitRoundTrip(e[0]);
    DigitRoundTrip(e[1]);
    assert e == [e[0], e[1], e[2], e[3]];
    if e[2] == PAD {
      EncodeOne(d0.value, d1.value);
    } else {
      DigitRoundTrip(e[2]);
      EncodeTwo(d0.value, d1.value, d2.value);
    }
  }

  lemma FullGroup(v0: int, v1: int, v2: int, v3: int, e: seq<byte>)
    requires 0 <= v0 < 64 && 0 <= v1 < 64 && 0 <= v2 < 64 && 0 <= v3 < 64
    requires Decode(e).Some? && Encode(Decode(e).value) == e
    ensures var whole := [Symbol(v0), Symbol(v1), Symbol(v2), Symbol(v3)] + e;
            Decode(whole).Some? && Encode(Decode(whole).value) == whole
  {
    FourSymbols(v0, v1, v2, v3, e);
    EncodeThree(v0, v1, v2, v3, Decode(e).value);
  }

  lemma FullGroupDigits(e: seq<byte>)
    requires |e| >= 4 && Decode(e).Some? && e[2] != PAD && e[3] != PAD
    ensures Digit(e[0]).Some? && Digit(e[1]).Some? && Digit(e[2]).Some? && Digit(e[3]).Some?
    ensures Decode(e[4..]).Some?
  {
  }

  /** Whatever decodes is the one encoding of its octets. */
  lemma {:induction false} DecodedIsEncoded(e: seq<byte>)
    requires Decode(e).Some?
    ensures Encode(Decode(e).value) == e
  {
    if |e| > 0 {
      if e[2] == PAD || e[3] == PAD {
        PaddedGroup(e);
      } else {
        FullGroupDigits(e);
        DecodedIsEncoded(e[4..]);
        DigitRoundTrip(e[0]);
        DigitRoundTrip(e[1]);
        DigitRoundTrip(e[2]);
        DigitRoundTrip(e[3]);
        FullGroup(Digit(e[0]).value, Digit(e[1]).value, Digit(e[2]).value, Digit(e[3]).value, e[4..]);
        assert e == [e[0], e[1], e[2], e[3]] + e[4..];
      }
    }
  }

  lemma EncodeGroup(b0: byte, b1: byte, b2: byte, rest: seq<byte>)
    ensures Encode([b0, b1, b2] + rest)
         == [Symbol(b0 / 4), Symbol(b0 % 4 * 16 + b1 / 16), Symbol(b1 % 16 * 4 + b2 / 64), Symbol(b2 % 64)]
            + Encode(rest)
  {
    assert ([b0, b1, b2] + rest)[3..] == rest;
  }

  lemma Injective(a: seq<byte>, b: seq<byte>)
    requires Encode(a) == Encode(b)
    ensures a == b
  {
    RoundTrip(a);
    RoundTrip(b);
  }

  /** Encoded text is printable ASCII. */
  lemma {:induction false} Printable(b: seq<byte>)
    ensures forall i :: 0 <= i < |Encode(b)| ==> 0x20 < Encode(b)[i] < 0x7F
  {
    if |b| > 2 {
      Printable(b[3..]);
    }
  }
}
