/** Decimal text: how numbers are printed, and the three readers that meet it
    on the wire (JSON integers, Rust's `str::parse::<i32>`, JavaScript's
    `Number`). */
module Decimal {
  import opened Common

  predicate IsDigit(c: char) {
    '0' <= c <= '9'
  }

  predicate AllDigits(s: string) {
    forall i :: 0 <= i < |s| ==> IsDigit(s[i])
  }

  function Digit(d: int): (c: char)
    requires 0 <= d < 10
    ensures IsDigit(c)
  {
    (48 + d) as char
  }

  /** The canonical decimal form: no sign, no leading zero. */
  function Print(n: nat): string {
    if n < 10 then [Digit(n)] else Print(n / 10) + [Digit(n % 10)]
  }

  function Abs(n: int): nat {
    if n < 0 then -n else n
  }

  function PrintSigned(n: int): string {
    if n < 0 then "-" + Print(Abs(n)) else Print(Abs(n))
  }

  function Value(s: string): nat
    requires AllDigits(s)
  {
    if s == [] then 0 else Value(s[..|s| - 1]) * 10 + (s[|s| - 1] as int - 48)
  }

  predicate Canonical(s: string) {
    s != [] && AllDigits(s) && (s[0] == '0' ==> |s| == 1)
  }

  /** Printing is canonical and reads back. */
  lemma {:induction false} PrintReads(n: nat)
    ensures Canonical(Print(n))
    ensures Value(Print(n)) == n
    ensures Print(n)[0] == '0' <==> n == 0
  {
    if n < 10 {
      assert Print(n)[..0] == [];
    } else {
      PrintReads(n / 10);
      var s := Print(n);
      assert s[..|s| - 1] == Print(n / 10);
    }
  }

  /** Only the printed form is canonical: reading and printing are inverse. */
  lemma {:induction false} CanonicalPrints(s: string)
    requires Canonical(s)
    ensures Print(Value(s)) == s
    ensures Value(s) == 0 ==> s == "0"
  {
    var front, last := s[..|s| - 1], s[|s| - 1];
    assert s == front + [last];
    if |s| == 1 {
      assert Value(front) == 0;
    } else {
      CanonicalPrints(front);
      assert front != "0";
      assert Value(front) > 0;
      var v := Value(s);
      assert v / 10 == Value(front) && v % 10 == last as int - 48;
    }
  }

  /** Length of the leading run of digits. */
  function DigitRun(s: string): (k: nat)
    ensures k <= |s| && AllDigits(s[..k])
    ensures k < |s| ==> !IsDigit(s[k])
  {
    if s != [] && IsDigit(s[0]) then
      var k := DigitRun(s[1..]);
      assert s[..k + 1] == [s[0]] + s[1..][..k];
      k + 1
    else
      0
  }

  lemma {:induction false} DigitRunOf(digits: string, rest: string)
    requires AllDigits(digits)
    requires rest != [] ==> !IsDigit(rest[0])
    ensures DigitRun(digits + rest) == |digits|
  {
    if digits == [] {
      assert digits + rest == rest;
    } else {
      assert (digits + rest)[1..] == digits[1..] + rest;
      DigitRunOf(digits[1..], rest);
    }
  }

  /** A JSON integer (section 6 of RFC 8259) that must fit a `u16`, and the
      text after it. */
  function ReadU16(s: string): Option<(u16, string)> {
    var k := DigitRun(s);
    if Canonical(s[..k]) && Value(s[..k]) < 0x1_0000 then Some((Value(s[..k]), s[k..])) else None
  }

  lemma ReadsPrintedU16(n: u16, rest: string)
    requires rest != [] ==> !IsDigit(rest[0])
    ensures ReadU16(Print(n) + rest) == Some((n, rest))
  {
    PrintReads(n);
    DigitRunOf(Print(n), rest);
    assert (Print(n) + rest)[..|Print(n)|] == Print(n);
    assert (Print(n) + rest)[|Print(n)|..] == rest;
  }

  /** What `ReadU16` takes is exactly the printed form of what it returns. */
  lemma ReadU16Exact(s: string)
    requires ReadU16(s).Some?
    ensures var (n, rest) := ReadU16(s).value; s == Print(n) + rest
  {
    var k := DigitRun(s);
    CanonicalPrints(s[..k]);
    assert s == s[..k] + s[k..];
  }

  /** `str::parse::<i32>`: an optional sign, at least one digit, nothing else,
      and a value that fits. */
  function ParseI32(s: string): Option<i32> {
    var signed := s != [] && (s[0] == '-' || s[0] == '+');
    var digits := if signed then s[1..] else s;
    if digits == [] || !AllDigits(digits) then
      None
    else
      var v: int := if signed && s[0] == '-' then -(Value(digits) as int) else Value(digits);
      if -0x8000_0000 <= v < 0x8000_0000 then Some(v) else None
  }

  lemma ParsesPrintedI32(n: i32)
    ensures ParseI32(PrintSigned(n)) == Some(n)
  {
    PrintReads(Abs(n));
    if n < 0 {
      assert PrintSigned(n)[1..] == Print(Abs(n));
    }
  }

  /** A JavaScript number as far as exit codes need it. `Other` stands for
      every value that is not read from plain decimal digits. */
  datatype JsNumber = Integer(value: int) | Other

  predicate JsSpace(c: char) {
    c == ' ' || c == '\t' || c == '\n' || c == '\r'
  }

  function TrimStart(s: string): string {
    if s != [] && JsSpace(s[0]) then TrimStart(s[1..]) else s
  }

  function TrimEnd(s: string): string {
    if s != [] && JsSpace(s[|s| - 1]) then TrimEnd(s[..|s| - 1]) else s
  }

  /** JavaScript's `Number(text)` on blank text and on signed digit strings. */
  function Number(text: string): JsNumber {
    var s := TrimEnd(TrimStart(text));
    if s == [] then
      Integer(0)
    else
      var signed := s[0] == '-' || s[0] == '+';
      var digits := if signed then s[1..] else s;
      if digits == [] || !AllDigits(digits) then
        Other
      else
        Integer(if s[0] == '-' then -(Value(digits) as int) else Value(digits))
  }

  lemma NumberReadsPrinted(n: int)
    ensures Number(PrintSigned(n)) == Integer(n)
  {
    PrintReads(Abs(n));
    var s := PrintSigned(n);
    assert IsDigit(s[|s| - 1]);
    if n < 0 {
      assert s[1..] == Print(Abs(n));
    }
  }
}
