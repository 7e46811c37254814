/** Which bytes each decoder takes for what: the grammar of the two-field object,
    and for every result the frames that give it, by their bytes. */
module ProtocolExact {
  import opened Common
  import opened Protocol
  import Decimal
  import Utf8

  // ---- The grammar of the resize object -----------------------------------------------

  predicate Blank(s: string) {
    forall i :: 0 <= i < |s| ==> JsonSpace(s[i])
  }

  /** `s` is blanks, the token and `rest`. */
  ghost predicate Spaced(s: string, token: string, rest: string) {
    exists w :: Blank(w) && s == w + token + rest
  }

  lemma {:induction false} SkipsBlanks(w: string, t: string)
    requires Blank(w) && (t == [] || !JsonSpace(t[0]))
    ensures SkipSpace(w + t) == t
  {
    if w == [] {
      assert w + t == t;
    } else {
      assert (w + t)[1..] == w[1..] + t && (w + t)[0] == w[0];
      SkipsBlanks(w[1..], t);
    }
  }

  lemma {:induction false} BlanksSkipped(s: string) returns (w: string)
    ensures Blank(w) && s == w + SkipSpace(s)
  {
    if s != [] && JsonSpace(s[0]) {
      var v := BlanksSkipped(s[1..]);
      w := [s[0]] + v;
    } else {
      w := [];
    }
  }

  lemma TokenExactly(s: string, token: string, rest: string)
    requires token != [] && !JsonSpace(token[0])
    ensures Token(s, token) == Some(rest) <==> Spaced(s, token, rest)
  {
    if Token(s, token) == Some(rest) {
      var w := BlanksSkipped(s);
      assert s == w + token + rest;
    }
    if w :| Blank(w) && s == w + token + rest {
      assert s == w + (token + rest) && (token + rest)[0] == token[0];
      SkipsBlanks(w, token + rest);
      assert (token + rest)[|token|..] == rest;
    }
  }

  /** A printed number that ends where it ends. */
  ghost predicate IsNumber(s: string, n: u16, rest: string) {
    Spaced(s, Decimal.Print(n), rest) && (rest == [] || !Decimal.IsDigit(rest[0]))
  }

  ghost predicate IsMember(s: string, name: string, n: u16, rest: string) {
    exists afterName, afterColon ::
      Spaced(s, Quoted(name), afterName) && Spaced(afterName, ":", afterColon) && IsNumber(afterColon, n, rest)
  }

  /** Two members, the closing brace and nothing more than blanks. */
  ghost predicate IsPair(s: string, first: string, a: u16, second: string, b: u16) {
    exists afterFirst, afterComma, afterSecond, end ::
      && IsMember(s, first, a, afterFirst) && Spaced(afterFirst, ",", afterComma)
      && IsMember(afterComma, second, b, afterSecond) && Spaced(afterSecond, "}", end) && Blank(end)
  }

  /** The object with both fields, in either order. */
  ghost predicate IsSize(s: string, size: Size) {
    exists body ::
      && Spaced(s, "{", body)
      && (IsPair(body, "cols", size.cols, "rows", size.rows) || IsPair(body, "rows", size.rows, "cols", size.cols))
  }

  lemma NumberTaken(s: string, n: u16, rest: string)
    requires Decimal.ReadU16(SkipSpace(s)) == Some((n, rest))
    ensures IsNumber(s, n, rest)
  {
    var w := BlanksSkipped(s);
    var t := SkipSpace(s);
    Decimal.ReadU16Exact(t);
    assert s == w + Decimal.Print(n) + rest;
    assert rest == t[Decimal.DigitRun(t)..];
  }

  lemma TakesNumber(s: string, n: u16, rest: string)
    requires IsNumber(s, n, rest)
    ensures Decimal.ReadU16(SkipSpace(s)) == Some((n, rest))
  {
    var digits := Decimal.Print(n);
    var w :| Blank(w) && s == w + digits + rest;
    Decimal.PrintReads(n);
    assert s == w + (digits + rest) && (digits + rest)[0] == digits[0];
    SkipsBlanks(w, digits + rest);
    Decimal.ReadsPrintedU16(n, rest);
  }

  lemma NumberExactly(s: string, n: u16, rest: string)
    ensures Decimal.ReadU16(SkipSpace(s)) == Some((n, rest)) <==> IsNumber(s, n, rest)
  {
    if Decimal.ReadU16(SkipSpace(s)) == Some((n, rest)) {
      NumberTaken(s, n, rest);
    }
    if IsNumber(s, n, rest) {
      TakesNumber(s, n, rest);
    }
  }

  lemma MemberExactly(s: string, name: string, n: u16, rest: string)
    ensures Member(s, name) == Some((n, rest)) <==> IsMember(s, name, n, rest)
  {
    assert Quoted(name)[0] == '"';
    if Member(s, name) == Some((n, rest)) {
      var afterName := Token(s, Quoted(name)).value;
      var afterColon := Token(afterName, ":").value;
      TokenExactly(s, Quoted(name), afterName);
      TokenExactly(afterName, ":", afterColon);
      NumberExactly(afterColon, n, rest);
    }
    if afterName, afterColon :| Spaced(s, Quoted(name), afterName) && Spaced(afterName, ":", afterColon)
                                && IsNumber(afterColon, n, rest) {
      TokenExactly(s, Quoted(name), afterName);
      TokenExactly(afterName, ":", afterColon);
      NumberExactly(afterColon, n, rest);
    }
  }

  lemma SkipsToNothing(s: string)
    ensures SkipSpace(s) == [] <==> Blank(s)
  {
    var w := BlanksSkipped(s);
    if Blank(s) {
      assert s == s + [];
      SkipsBlanks(s, []);
    }
  }

  lemma PairTaken(s: string, first: string, a: u16, second: string, b: u16)
    requires Members(s, first, second) == Some((a, b))
    ensures IsPair(s, first, a, second, b)
  {
    var afterFirst := Member(s, first).value.1;
    var afterComma := Token(afterFirst, ",").value;
    var afterSecond := Member(afterComma, second).value.1;
    var end := Token(afterSecond, "}").value;
    MemberExactly(s, first, a, afterFirst);
    TokenExactly(afterFirst, ",", afterComma);
    MemberExactly(afterComma, second, b, afterSecond);
    TokenExactly(afterSecond, "}", end);
    SkipsToNothing(end);
  }

  lemma TakesPair(s: string, first: string, a: u16, second: string, b: u16)
    requires IsPair(s, first, a, second, b)
    ensures Members(s, first, second) == Some((a, b))
  {
    var afterFirst, afterComma, afterSecond, end :|
      && IsMember(s, first, a, afterFirst) && Spaced(afterFirst, ",", afterComma)
      && IsMember(afterComma, second, b, afterSecond) && Spaced(afterSecond, "}", end) && Blank(end);
    TakesParts(s, first, a, second, b, afterFirst, afterComma, afterSecond, end);
  }

  lemma TakesParts(s: string, first: string, a: u16, second: string, b: u16,
                   afterFirst: string, afterComma: string, afterSecond: string, end: string)
    requires IsMember(s, first, a, afterFirst) && Spaced(afterFirst, ",", afterComma)
    requires IsMember(afterComma, second, b, afterSecond) && Spaced(afterSecond, "}", end) && Blank(end)
    ensures Members(s, first, second) == Some((a, b))
  {
    MemberExactly(s, first, a, afterFirst);
    TokenExactly(afterFirst, ",", afterComma);
    MemberExactly(afterComma, second, b, afterSecond);
    TokenExactly(afterSecond, "}", end);
    SkipsToNothing(end);
  }

  /** A text starts with one name only. */
  lemma OneName(s: string, a: u16, x: string, b: u16, y: string)
    requires IsMember(s, "cols", a, x)
    ensures !IsMember(s, "rows", b, y)
  {
    assert Quoted("cols")[1] == 'c' && Quoted("rows")[1] == 'r';
    MemberExactly(s, "cols", a, x);
    assert SkipSpace(s)[1] == 'c';
    MemberExactly(s, "rows", b, y);
  }

  lemma PairStarts(s: string, first: string, a: u16, second: string, b: u16) returns (rest: string)
    requires IsPair(s, first, a, second, b)
    ensures IsMember(s, first, a, rest)
  {
    var afterFirst, afterComma, afterSecond, end :|
      && IsMember(s, first, a, afterFirst) && Spaced(afterFirst, ",", afterComma)
      && IsMember(afterComma, second, b, afterSecond) && Spaced(afterSecond, "}", end) && Blank(end);
    rest := afterFirst;
  }

  /** The reader takes a text for a size exactly if it is the object with both
      fields, in either order, with blanks anywhere between its parts. */
  lemma SizeExactly(s: string, size: Size)
    ensures ReadSize(s) == Some(size) <==> IsSize(s, size)
  {
    if ReadSize(s) == Some(size) {
      SizeTaken(s, size);
    }
    if body :| Spaced(s, "{", body)
               && (IsPair(body, "cols", size.cols, "rows", size.rows)
                   || IsPair(body, "rows", size.rows, "cols", size.cols)) {
      TokenExactly(s, "{", body);
      if IsPair(body, "cols", size.cols, "rows", size.rows) {
        TakesPair(body, "cols", size.cols, "rows", size.rows);
      } else {
        TakesPair(body, "rows", size.rows, "cols", size.cols);
        NotBothOrders(body, size.rows, size.cols);
      }
    }
  }

  lemma NotBothOrders(body: string, rows: u16, cols: u16)
    requires IsPair(body, "rows", rows, "cols", cols)
    ensures Members(body, "cols", "rows").None?
  {
    if Members(body, "cols", "rows").Some? {
      var (a, b) := Members(body, "cols", "rows").value;
      PairTaken(body, "cols", a, "rows", b);
      var x := PairStarts(body, "cols", a, "rows", b);
      var y := PairStarts(body, "rows", rows, "cols", cols);
      OneName(body, a, x, rows, y);
    }
  }

  lemma SizeTaken(s: string, size: Size)
    requires ReadSize(s) == Some(size)
    ensures IsSize(s, size)
  {
    var body := Token(s, "{").value;
    TokenExactly(s, "{", body);
    if Members(body, "cols", "rows").Some? {
      PairTaken(body, "cols", size.cols, "rows", size.rows);
    } else {
      PairTaken(body, "rows", size.rows, "cols", size.cols);
    }
  }

  /** The printed form, character for character. */
  lemma PrintsAs()
    ensures PrintSize(Size(80, 24)) == "{\"cols\":80,\"rows\":24}"
  {
    assert Decimal.Print(80) == "80" && Decimal.Print(24) == "24";
  }

  // ---- Client frames ---------------------------------------------------------------------

  /** The frames that are refused, and why, by their bytes. */
  ghost predicate Refuses(frame: seq<byte>, error: DecodeError) {
    match error
    case EmptyFrame => frame == []
    case InvalidResize => frame != [] && frame[0] == 0 && forall size :: !IsSize(Utf8.Lossy(frame[1..]), size)
    case UnknownPrefix(prefix) => frame != [] && frame[0] == prefix && prefix > 1
    case InvalidExitCode => false
  }

  lemma UnreadableSize(payload: string)
    ensures ReadSize(payload).None? <==> forall size :: !IsSize(payload, size)
  {
    if ReadSize(payload).Some? {
      SizeExactly(payload, ReadSize(payload).value);
    }
    forall size ensures IsSize(payload, size) ==> ReadSize(payload).Some? {
      SizeExactly(payload, size);
    }
  }

  /** Every result of the server's decoder and exactly the frames that give it: input
      is a frame tagged 1, a resize one tagged 0 with a size, and everything else is
      refused with its own error. */
  lemma ClientExactly(frame: seq<byte>, data: seq<byte>, size: Size, error: DecodeError)
    ensures DecodeClient(frame) == Ok(Input(data)) <==> frame == [1] + data
    ensures DecodeClient(frame) == Ok(Resize(size))
            <==> frame != [] && frame[0] == 0 && IsSize(Utf8.Lossy(frame[1..]), size)
    ensures DecodeClient(frame) == Err(error) <==> Refuses(frame, error)
  {
    if frame != [] {
      assert frame == [frame[0]] + frame[1..];
      SizeExactly(Utf8.Lossy(frame[1..]), size);
      UnreadableSize(Utf8.Lossy(frame[1..]));
    }
    assert ([1] + data)[1..] == data;
  }

  // ---- Server frames ---------------------------------------------------------------------

  /** The text is the digits with a sign that fits the number. */
  predicate SignedDigits(text: string, n: int, digits: string) {
    && digits != [] && Decimal.AllDigits(digits)
    && if text == "-" + digits then n == -(Decimal.Value(digits) as int)
       else (text == digits || text == "+" + digits) && n == Decimal.Value(digits)
  }

  /** A signed decimal text that stands for the number. */
  ghost predicate Reads(text: string, n: int) {
    exists digits :: SignedDigits(text, n, digits)
  }

  /** `str::parse::<i32>` takes exactly the signed decimal texts in range. */
  lemma ParseExactly(text: string, n: i32)
    ensures Decimal.ParseI32(text) == Some(n) <==> Reads(text, n)
  {
    if Decimal.ParseI32(text) == Some(n) {
      var signed := text[0] == '-' || text[0] == '+';
      var digits := if signed then text[1..] else text;
      assert signed ==> text == [text[0]] + digits;
      assert SignedDigits(text, n, digits);
    }
    if digits :| SignedDigits(text, n, digits) {
      if text == digits {
        assert Decimal.IsDigit(digits[0]);
      } else {
        assert text[1..] == digits;
      }
    }
  }

  predicate JsBlank(s: string) {
    forall i :: 0 <= i < |s| ==> Decimal.JsSpace(s[i])
  }

  /** Neither starts nor ends with a blank. */
  predicate Tight(s: string) {
    s != [] ==> !Decimal.JsSpace(s[0]) && !Decimal.JsSpace(s[|s| - 1])
  }

  lemma {:induction false} StartTrimmed(w: string, t: string)
    requires JsBlank(w) && (t == [] || !Decimal.JsSpace(t[0]))
    ensures Decimal.TrimStart(w + t) == t
  {
    if w == [] {
      assert w + t == t;
    } else {
      assert (w + t)[1..] == w[1..] + t && (w + t)[0] == w[0];
      StartTrimmed(w[1..], t);
    }
  }

  lemma {:induction false} EndTrimmed(t: string, v: string)
    requires JsBlank(v) && (t == [] || !Decimal.JsSpace(t[|t| - 1]))
    ensures Decimal.TrimEnd(t + v) == t
  {
    if v == [] {
      assert t + v == t;
    } else {
      var s := t + v;
      assert s[..|s| - 1] == t + v[..|v| - 1] && s[|s| - 1] == v[|v| - 1];
      EndTrimmed(t, v[..|v| - 1]);
    }
  }

  lemma {:induction false} StartSplits(s: string) returns (w: string)
    ensures JsBlank(w) && s == w + Decimal.TrimStart(s)
    ensures Decimal.TrimStart(s) != [] ==> !Decimal.JsSpace(Decimal.TrimStart(s)[0])
  {
    if s != [] && Decimal.JsSpace(s[0]) {
      var more := StartSplits(s[1..]);
      w := [s[0]] + more;
    } else {
      w := [];
    }
  }

  lemma {:induction false} EndSplits(s: string) returns (v: string)
    ensures JsBlank(v) && s == Decimal.TrimEnd(s) + v
    ensures Decimal.TrimEnd(s) != [] ==>
              !Decimal.JsSpace(Decimal.TrimEnd(s)[|Decimal.TrimEnd(s)| - 1]) && Decimal.TrimEnd(s)[0] == s[0]
  {
    if s != [] && Decimal.JsSpace(s[|s| - 1]) {
      var more := EndSplits(s[..|s| - 1]);
      v := more + [s[|s| - 1]];
      assert s == s[..|s| - 1] + [s[|s| - 1]];
    } else {
      v := [];
    }
  }

  /** What is left of a text when it is trimmed at both ends. */
  lemma Trimmed(text: string) returns (w: string, v: string)
    ensures var s := Decimal.TrimEnd(Decimal.TrimStart(text));
            JsBlank(w) && JsBlank(v) && Tight(s) && text == w + s + v
  {
    w := StartSplits(text);
    v := EndSplits(Decimal.TrimStart(text));
  }

  lemma TrimsTo(w: string, s: string, v: string)
    requires JsBlank(w) && JsBlank(v) && s != [] && Tight(s)
    ensures Decimal.TrimEnd(Decimal.TrimStart(w + s + v)) == s
  {
    assert w + s + v == w + (s + v) && (s + v)[0] == s[0];
    StartTrimmed(w, s + v);
    EndTrimmed(s, v);
  }

  /** Blanks around a signed decimal text. */
  predicate Around(text: string, w: string, s: string, v: string, n: int, digits: string) {
    JsBlank(w) && JsBlank(v) && text == w + s + v && SignedDigits(s, n, digits)
  }

  ghost predicate ReadsAround(text: string, n: int) {
    exists w, s, v, digits :: Around(text, w, s, v, n, digits)
  }

  /** `Number` reads blank text as zero, and otherwise exactly the signed decimal texts
      with blanks around them as their value. */
  lemma NumberOf(text: string, n: int)
    ensures Decimal.Number(text) == Decimal.Integer(n) <==> (JsBlank(text) && n == 0) || ReadsAround(text, n)
  {
    var s := Decimal.TrimEnd(Decimal.TrimStart(text));
    var w, v := Trimmed(text);
    if s == [] {
      assert JsBlank(text);
      if a, b, c, digits :| Around(text, a, b, c, n, digits) {
        DigitsAreNotBlank(text, a, b, c, n, digits);
      }
    } else {
      assert text[|w|] == s[0];
      NumberOfTight(text, w, s, v, n);
    }
  }

  lemma DigitsAreNotBlank(text: string, w: string, s: string, v: string, n: int, digits: string)
    requires Around(text, w, s, v, n, digits)
    ensures !JsBlank(text)
  {
    SignedIsTight(s, n, digits);
    assert text[|w|] == s[0];
  }

  lemma SignedIsTight(s: string, n: int, digits: string)
    requires SignedDigits(s, n, digits)
    ensures s != [] && Tight(s)
  {
    assert Decimal.IsDigit(digits[0]) && Decimal.IsDigit(digits[|digits| - 1]);
    assert s[|s| - 1] == digits[|digits| - 1];
  }

  lemma NumberOfTight(text: string, w: string, s: string, v: string, n: int)
    requires s == Decimal.TrimEnd(Decimal.TrimStart(text)) && s != []
    requires JsBlank(w) && JsBlank(v) && text == w + s + v
    ensures Decimal.Number(text) == Decimal.Integer(n) <==> ReadsAround(text, n)
  {
    var signed := s[0] == '-' || s[0] == '+';
    var digits := if signed then s[1..] else s;
    assert signed ==> s == [s[0]] + digits;
    if Decimal.Number(text) == Decimal.Integer(n) {
      assert Around(text, w, s, v, n, digits);
    }
    if a, b, c, d :| Around(text, a, b, c, n, d) {
      SignedIsTight(b, n, d);
      TrimsTo(a, b, c);
      assert Decimal.IsDigit(d[0]);
      assert b != d ==> b[1..] == d;
    }
  }

  /** Every result of the client's decoder and exactly the frames that give it. */
  lemma ServerExactly(frame: seq<byte>, data: seq<byte>, text: string, code: i32, prefix: byte)
    ensures DecodeServer(frame) == Ok(Output(data)) <==> frame == [2] + data
    ensures DecodeServer(frame) == Ok(Error(text)) <==> frame != [] && frame[0] == 3 && text == Utf8.Lossy(frame[1..])
    ensures DecodeServer(frame) == Ok(Exited(code))
            <==> frame != [] && frame[0] == 4 && Reads(Utf8.Lossy(frame[1..]), code)
    ensures DecodeServer(frame) == Err(EmptyFrame) <==> frame == []
    ensures DecodeServer(frame) == Err(UnknownPrefix(prefix))
            <==> frame != [] && frame[0] == prefix && (prefix < 2 || prefix > 4)
    ensures DecodeServer(frame) == Err(InvalidExitCode)
            <==> frame != [] && frame[0] == 4 && forall n: i32 :: !Reads(Utf8.Lossy(frame[1..]), n)
  {
    assert ([2] + data)[1..] == data;
    if frame != [] {
      var payload := Utf8.Lossy(frame[1..]);
      assert frame == [frame[0]] + frame[1..];
      ParseExactly(payload, code);
      forall n: i32 ensures Reads(payload, n) <==> Decimal.ParseI32(payload) == Some(n) {
        ParseExactly(payload, n);
      }
    }
  }

  /** Every result of the browser's decoder and exactly the frames that give it. */
  lemma BrowserExactly(frame: seq<byte>, data: seq<byte>, text: string, code: Decimal.JsNumber)
    ensures BrowserDecode(frame) == Some(BrowserOutput(data)) <==> frame == [2] + data
    ensures BrowserDecode(frame) == Some(BrowserError(text))
            <==> frame != [] && frame[0] == 3 && text == Utf8.TextDecoder(frame[1..])
    ensures BrowserDecode(frame) == Some(BrowserExited(code))
            <==> frame != [] && frame[0] == 4 && code == Decimal.Number(Utf8.TextDecoder(frame[1..]))
    ensures BrowserDecode(frame) == None <==> frame == [] || frame[0] < 2 || frame[0] > 4
  {
    assert ([2] + data)[1..] == data;
    if frame != [] {
      assert frame == [frame[0]] + frame[1..];
    }
  }
}
