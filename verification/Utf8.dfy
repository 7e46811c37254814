/** UTF-8 (section 3 of RFC 3629): the encoder used by `as_bytes` and
    `TextEncoder`, and the replacing decoder behind `from_utf8_lossy` and
    `TextDecoder`. A Dafny `char` is exactly a Unicode scalar value. */
module Utf8 {
  import opened Common

  const REPLACEMENT: char := '\U{FFFD}'

  const BYTE_ORDER_MARK: char := '\U{FEFF}'

  function EncodeChar(c: char): (b: seq<byte>)
    ensures 1 <= |b| <= 4
  {
    var n := c as int;
    if n < 0x80 then
      [n]
    else if n < 0x800 then
      [0xC0 + n / 0x40, 0x80 + n % 0x40]
    else if n < 0x1_0000 then
      [0xE0 + n / 0x1000, 0x80 + n / 0x40 % 0x40, 0x80 + n % 0x40]
    else
      [0xF0 + n / 0x4_0000, 0x80 + n / 0x1000 % 0x40, 0x80 + n / 0x40 % 0x40, 0x80 + n % 0x40]
  }

  function Encode(s: string): seq<byte> {
    if s == [] then [] else EncodeChar(s[0]) + Encode(s[1..])
  }

  predicate Continuation(b: byte) {
    0x80 <= b <= 0xBF
  }

  /** The narrower range of a second byte that rules out overlong forms,
      surrogates and values above U+10FFFF. */
  predicate SecondByte(lead: byte, b: byte) {
    && Continuation(b)
    && (lead == 0xE0 ==> 0xA0 <= b)
    && (lead == 0xED ==> b <= 0x9F)
    && (lead == 0xF0 ==> 0x90 <= b)
    && (lead == 0xF4 ==> b <= 0x8F)
  }

  /** Appends the six payload bits of a continuation byte. */
  function Append(high: int, b: int): int {
    high * 0x40 + (b - 0x80)
  }

  /** One character and the number of bytes it used; a broken sequence yields
      one replacement character for its longest well-formed beginning. */
  function DecodeChar(b: seq<byte>): (r: (char, nat))
    requires b != []
    ensures 1 <= r.1 <= |b|
  {
    var lead := b[0];
    if lead < 0x80 then
      (lead as char, 1)
    else if 0xC2 <= lead <= 0xDF then
      if |b| > 1 && Continuation(b[1]) then
        (Append(lead - 0xC0, b[1]) as char, 2)
      else
        (REPLACEMENT, 1)
    else if 0xE0 <= lead <= 0xEF then
      if |b| <= 1 || !SecondByte(lead, b[1]) then
        (REPLACEMENT, 1)
      else if |b| > 2 && Continuation(b[2]) then
        (Append(Append(lead - 0xE0, b[1]), b[2]) as char, 3)
      else
        (REPLACEMENT, 2)
    else if 0xF0 <= lead <= 0xF4 then
      if |b| <= 1 || !SecondByte(lead, b[1]) then
        (REPLACEMENT, 1)
      else if |b| <= 2 || !Continuation(b[2]) then
        (REPLACEMENT, 2)
      else if |b| > 3 && Continuation(b[3]) then
        (Append(Append(Append(lead - 0xF0, b[1]), b[2]), b[3]) as char, 4)
      else
        (REPLACEMENT, 3)
    else
      (REPLACEMENT, 1)
  }

  /** Rust's `String::from_utf8_lossy`. */
  function Lossy(b: seq<byte>): string {
    if b == [] then [] else var (c, n) := DecodeChar(b); [c] + Lossy(b[n..])
  }

  /** A default `TextDecoder`: the same replacement, but a leading byte order
      mark is dropped. */
  function TextDecoder(b: seq<byte>): string {
    var s := Lossy(b);
    if s != [] && s[0] == BYTE_ORDER_MARK then s[1..] else s
  }

  lemma DecodeEncodedChar(c: char, rest: seq<byte>)
    ensures DecodeChar(EncodeChar(c) + rest) == (c, |EncodeChar(c)|)
  {
    var n := c as int;
    var e := EncodeChar(c);
    var b := e + rest;
    assert forall i :: 0 <= i < |e| ==> b[i] == e[i];
    if 0x800 <= n < 0x1_0000 {
      ThreeParts(n);
    } else if 0x1_0000 <= n {
      FourParts(n);
    }
  }

  lemma ThreeParts(n: nat)
    ensures n == (n / 0x1000 * 0x40 + n / 0x40 % 0x40) * 0x40 + n % 0x40
  {
    var m := n / 0x40;
    assert m / 0x40 == n / 0x1000;
    assert m == m / 0x40 * 0x40 + m % 0x40;
  }

  lemma FourParts(n: nat)
    ensures n == ((n / 0x4_0000 * 0x40 + n / 0x1000 % 0x40) * 0x40 + n / 0x40 % 0x40) * 0x40 + n % 0x40
  {
    var m := n / 0x1000;
    ThreeParts(n);
    assert m / 0x40 == n / 0x4_0000;
    assert m == m / 0x40 * 0x40 + m % 0x40;
  }

  /** The bits of a character stand in its bytes as section 3 of RFC 3629 lays out. */
  lemma BitsOf(c: char)
    ensures var e := EncodeChar(c);
            match |e|
            case 1 => e[0] == c as int < 0x80
            case 2 => 0x80 <= c as int < 0x800 && c as int == (e[0] - 0xC0) as int * 0x40 + (e[1] - 0x80) as int
            case 3 =>
              && 0x800 <= c as int < 0x1_0000
              && c as int == Append(Append(e[0] - 0xE0, e[1]), e[2])
            case _ =>
              && 0x1_0000 <= c as int
              && c as int == Append(Append(Append(e[0] - 0xF0, e[1]), e[2]), e[3])
  {
    if 0x800 <= c as int < 0x1_0000 {
      ThreeParts(c as int);
    } else if 0x1_0000 <= c as int {
      FourParts(c as int);
    }
  }

  /** The bytes begin the encoding of some character. */
  ghost predicate Begins(b: seq<byte>) {
    exists c :: b <= EncodeChar(c)
  }

  lemma DecodesBeginning(b: seq<byte>, d: char)
    requires EncodeChar(d) <= b
    ensures b != [] && DecodeChar(b) == (d, |EncodeChar(d)|) && b[..|EncodeChar(d)|] == EncodeChar(d)
  {
    var e := EncodeChar(d);
    DecodeEncodedChar(d, b[|e|..]);
    assert e + b[|e|..] == b;
  }

  /** A character other than the replacement is decoded from its own encoding only;
      the replacement also stands for bytes that no character's encoding begins. */
  lemma DecodesExactly(b: seq<byte>)
    requires b != []
    ensures var (c, n) := DecodeChar(b);
            b[..n] == EncodeChar(c) || (c == REPLACEMENT && forall d :: !(EncodeChar(d) <= b))
  {
    var (c, n) := DecodeChar(b);
    WellFormed(b);
    forall d ensures EncodeChar(d) <= b ==> b[..n] == EncodeChar(c) {
      if EncodeChar(d) <= b {
        DecodesBeginning(b, d);
      }
    }
  }

  lemma Parts(x: nat, y: nat, z: nat)
    requires y < 0x40 && z < 0x40
    ensures var n := (x * 0x40 + y) * 0x40 + z;
            n / 0x1000 == x && n / 0x40 == x * 0x40 + y && n / 0x40 % 0x40 == y && n % 0x40 == z
  {
    var n, m := (x * 0x40 + y) * 0x40 + z, x * 0x40 + y;
    assert n / 0x40 == m && m / 0x40 == x;
    assert n / 0x1000 == n / 0x40 / 0x40;
  }

  lemma ThreeBytes(lead: byte, b1: byte, b2: byte)
    requires 0xE0 <= lead <= 0xEF && SecondByte(lead, b1) && Continuation(b2)
    ensures EncodeChar(Append(Append(lead - 0xE0, b1), b2) as char) == [lead, b1, b2]
  {
    Parts(lead - 0xE0, b1 - 0x80, b2 - 0x80);
  }

  lemma FourBytes(lead: byte, b1: byte, b2: byte, b3: byte)
    requires 0xF0 <= lead <= 0xF4 && SecondByte(lead, b1) && Continuation(b2) && Continuation(b3)
    ensures EncodeChar(Append(Append(Append(lead - 0xF0, b1), b2), b3) as char) == [lead, b1, b2, b3]
  {
    Parts(lead - 0xF0, b1 - 0x80, b2 - 0x80);
    var m := Append(Append(lead - 0xF0, b1), b2);
    var n := Append(m, b3);
    assert n / 0x40 == m && n % 0x40 == b3 - 0x80;
    assert n / 0x1000 == m / 0x40 && n / 0x4_0000 == m / 0x1000;
  }

  lemma WellFormed(b: seq<byte>)
    requires b != []
    ensures var (c, n) := DecodeChar(b); c != REPLACEMENT ==> b[..n] == EncodeChar(c)
  {
    var (c, n) := DecodeChar(b);
    if c != REPLACEMENT && n == 3 {
      ThreeBytes(b[0], b[1], b[2]);
      assert b[..3] == [b[0], b[1], b[2]];
    } else if c != REPLACEMENT && n == 4 {
      FourBytes(b[0], b[1], b[2], b[3]);
      assert b[..4] == [b[0], b[1], b[2], b[3]];
    }
  }

  /** Of malformed bytes the longest beginning of a character is replaced, or else
      one byte. */
  lemma ReplacesLongestBeginning(b: seq<byte>)
    requires b != [] && forall d :: !(EncodeChar(d) <= b)
    ensures var (c, n) := DecodeChar(b);
            && c == REPLACEMENT && (n == 1 || Begins(b[..n]))
            && (n < |b| ==> !Begins(b[..n + 1]))
  {
    DecodesExactly(b);
    var (c, n) := DecodeChar(b);
    assert b[..n] == EncodeChar(c) ==> EncodeChar(c) <= b;
    if n > 1 {
      Beginning(b);
    }
    if n < |b| {
      forall d ensures !(b[..n + 1] <= EncodeChar(d)) {
        NoLongerBeginning(b, d);
      }
    }
  }

  lemma Beginning(b: seq<byte>)
    requires b != [] && (forall d :: !(EncodeChar(d) <= b)) && DecodeChar(b).1 > 1
    ensures Begins(b[..DecodeChar(b).1])
  {
    var lead, n := b[0], DecodeChar(b).1;
    Malformed(b);
    if lead <= 0xEF {
      var d := Append(Append(lead - 0xE0, b[1]), 0x80) as char;
      ThreeBytes(lead, b[1], 0x80);
      assert b[..n] <= EncodeChar(d);
    } else {
      var third := if n > 2 then b[2] else 0x80;
      var d := Append(Append(Append(lead - 0xF0, b[1]), third), 0x80) as char;
      FourBytes(lead, b[1], third, 0x80);
      assert b[..n] <= EncodeChar(d);
    }
  }

  /** A lead byte with all its continuation bytes. */
  predicate Complete(b: seq<byte>) {
    && b != []
    && (|| (0xC2 <= b[0] <= 0xDF && |b| > 1 && Continuation(b[1]))
        || (0xE0 <= b[0] <= 0xEF && |b| > 2 && SecondByte(b[0], b[1]) && Continuation(b[2]))
        || (0xF0 <= b[0] <= 0xF4 && |b| > 3 && SecondByte(b[0], b[1]) && Continuation(b[2]) && Continuation(b[3])))
  }

  lemma CompleteEncodes(b: seq<byte>)
    requires Complete(b)
    ensures exists d :: EncodeChar(d) <= b
  {
    if b[0] <= 0xDF {
      assert EncodeChar(Append(b[0] - 0xC0, b[1]) as char) <= b;
    } else if b[0] <= 0xEF {
      ThreeBytes(b[0], b[1], b[2]);
      assert EncodeChar(Append(Append(b[0] - 0xE0, b[1]), b[2]) as char) <= b;
    } else {
      FourBytes(b[0], b[1], b[2], b[3]);
      assert EncodeChar(Append(Append(Append(b[0] - 0xF0, b[1]), b[2]), b[3]) as char) <= b;
    }
  }

  /** The shapes of malformed bytes that are replaced together. */
  lemma Malformed(b: seq<byte>)
    requires b != [] && (forall d :: !(EncodeChar(d) <= b)) && DecodeChar(b).1 > 1
    ensures |b| > 1 && SecondByte(b[0], b[1])
    ensures if b[0] <= 0xEF then 0xE0 <= b[0] && DecodeChar(b).1 == 2
            else b[0] <= 0xF4 && DecodeChar(b).1 <= 3 && (DecodeChar(b).1 == 3 ==> Continuation(b[2]))
  {
    if Complete(b) {
      CompleteEncodes(b);
    }
  }

  lemma NoLongerBeginning(b: seq<byte>, d: char)
    requires b != [] && forall c :: !(EncodeChar(c) <= b)
    requires DecodeChar(b).1 < |b|
    ensures !(b[..DecodeChar(b).1 + 1] <= EncodeChar(d))
  {
    var n := DecodeChar(b).1;
    var e := EncodeChar(d);
    if b[..n + 1] <= e {
      assert forall i :: 0 <= i < n + 1 ==> b[i] == e[i];
    }
  }

  /** Decoding undoes encoding on every text. */
  lemma {:induction false} RoundTrip(s: string)
    ensures Lossy(Encode(s)) == s
  {
    if s != [] {
      var e := EncodeChar(s[0]);
      DecodeEncodedChar(s[0], Encode(s[1..]));
      assert (e + Encode(s[1..]))[|e|..] == Encode(s[1..]);
      RoundTrip(s[1..]);
    }
  }

  lemma Injective(s: string, t: string)
    requires Encode(s) == Encode(t)
    ensures s == t
  {
    RoundTrip(s);
    RoundTrip(t);
  }

  lemma {:induction false} Distributes(s: string, t: string)
    ensures Encode(s + t) == Encode(s) + Encode(t)
  {
    if s == [] {
      assert s + t == t;
    } else {
      assert (s + t)[1..] == s[1..] + t;
      Distributes(s[1..], t);
    }
  }

  /** `TextDecoder` and `from_utf8_lossy` read an encoded text alike exactly
      when the text does not start with a byte order mark. */
  lemma DecodersAgree(s: string)
    ensures TextDecoder(Encode(s)) == Lossy(Encode(s)) <==> !(s != [] && s[0] == BYTE_ORDER_MARK)
  {
    RoundTrip(s);
  }
}
