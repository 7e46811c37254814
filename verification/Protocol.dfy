/** The wire protocol, as the Rust crate and as the browser write it: one tag
    byte and a payload. */
module Protocol {
  import opened Common
  import Utf8
  import Decimal

  const CLIENT_RESIZE: byte := 0
  const CLIENT_INPUT: byte := 1
  const SERVER_OUTPUT: byte := 2
  const SERVER_ERROR: byte := 3
  const SERVER_EXITED: byte := 4

  datatype ClientMessage = Resize(size: Size) | Input(data: seq<byte>)

  datatype ServerMessage = Output(data: seq<byte>) | Error(message: string) | Exited(code: i32)

  datatype DecodeError =
    | EmptyFrame
    | UnknownPrefix(prefix: byte)
    | InvalidResize
    | InvalidExitCode

  // ---- The resize object -------------------------------------------------

  function Quoted(name: string): string {
    "\"" + name + "\""
  }

  function PrintMember(name: string, n: u16): string {
    Quoted(name) + ":" + Decimal.Print(n)
  }

  /** What both `serde_json::to_vec` and `JSON.stringify` print. */
  function PrintSize(size: Size): string {
    "{" + PrintMember("cols", size.cols) + "," + PrintMember("rows", size.rows) + "}"
  }

  predicate JsonSpace(c: char) {
    c == ' ' || c == '\t' || c == '\n' || c == '\r'
  }

  function SkipSpace(s: string): (r: string)
    ensures |r| <= |s|
  {
    if s != [] && JsonSpace(s[0]) then SkipSpace(s[1..]) else s
  }

  /** Consumes a token after optional white space. */
  function Token(s: string, token: string): Option<string> {
    var r := SkipSpace(s);
    if token <= r then Some(r[|token|..]) else None
  }

  /** One `"name": number` member. */
  function Member(s: string, name: string): Option<(u16, string)> {
    match Token(s, Quoted(name))
    case None => None
    case Some(afterName) =>
      match Token(afterName, ":")
      case None => None
      case Some(afterColon) => Decimal.ReadU16(SkipSpace(afterColon))
  }

  /** The two members in the given order, up to the end of the payload. */
  function Members(s: string, first: string, second: string): Option<(u16, u16)> {
    match Member(s, first)
    case None => None
    case Some((a, afterFirst)) =>
      match Token(afterFirst, ",")
      case None => None
      case Some(afterComma) =>
        match Member(afterComma, second)
        case None => None
        case Some((b, afterSecond)) =>
          match Token(afterSecond, "}")
          case None => None
          case Some(rest) => if SkipSpace(rest) == [] then Some((a, b)) else None
  }

  /** The JSON reader for the two-field object, fields in either order. */
  function ReadSize(s: string): Option<Size> {
    match Token(s, "{")
    case None => None
    case Some(body) =>
      match Members(body, "cols", "rows")
      case Some((cols, rows)) => Some(Size(cols, rows))
      case None =>
        match Members(body, "rows", "cols")
        case Some((rows, cols)) => Some(Size(cols, rows))
        case None => None
  }

  lemma TokenHere(s: string, token: string, rest: string)
    requires s == token + rest
    requires token != [] && !JsonSpace(token[0])
    ensures Token(s, token) == Some(rest)
  {
    assert s[0] == token[0];
    assert s[|token|..] == rest;
  }

  lemma MemberHere(name: string, n: u16, rest: string)
    requires rest != [] ==> !Decimal.IsDigit(rest[0])
    ensures Member(PrintMember(name, n) + rest, name) == Some((n, rest))
  {
    var number := Decimal.Print(n) + rest;
    assert PrintMember(name, n) + rest == Quoted(name) + (":" + number);
    TokenHere(PrintMember(name, n) + rest, Quoted(name), ":" + number);
    TokenHere(":" + number, ":", number);
    Decimal.PrintReads(n);
    assert number[0] == Decimal.Print(n)[0];
    Decimal.ReadsPrintedU16(n, rest);
  }

  lemma MembersHere(first: string, a: u16, second: string, b: u16)
    ensures Members(PrintMember(first, a) + ("," + (PrintMember(second, b) + "}")), first, second) == Some((a, b))
  {
    var last := PrintMember(second, b) + "}";
    MemberHere(first, a, "," + last);
    TokenHere("," + last, ",", last);
    MemberHere(second, b, "}");
    TokenHere("}", "}", []);
  }

  /** Reading a printed size gives the size back, for all `u16` pairs. */
  lemma SizeRoundTrip(size: Size)
    ensures ReadSize(PrintSize(size)) == Some(size)
  {
    var cols, rows := PrintMember("cols", size.cols), PrintMember("rows", size.rows);
    var body := cols + ("," + (rows + "}"));
    assert PrintSize(size) == "{" + body;
    TokenHere(PrintSize(size), "{", body);
    MembersHere("cols", size.cols, "rows", size.rows);
  }

  // ---- Rust ---------------------------------------------------------------

  /** The bytes of a client message. */
  function ClientFrame(m: ClientMessage): seq<byte> {
    match m
    case Resize(size) => [CLIENT_RESIZE] + Utf8.Encode(PrintSize(size))
    case Input(data) => [CLIENT_INPUT] + data
  }

  /** The bytes of a server message. */
  function ServerFrame(m: ServerMessage): seq<byte> {
    match m
    case Output(data) => [SERVER_OUTPUT] + data
    case Error(message) => [SERVER_ERROR] + Utf8.Encode(message)
    case Exited(code) => [SERVER_EXITED] + Utf8.Encode(Decimal.PrintSigned(code))
  }

  function DecodeClient(frame: seq<byte>): Result<ClientMessage, DecodeError> {
    if frame == [] then
      Err(EmptyFrame)
    else if frame[0] == CLIENT_RESIZE then
      match ReadSize(Utf8.Lossy(frame[1..]))
      case Some(size) => Ok(Resize(size))
      case None => Err(InvalidResize)
    else if frame[0] == CLIENT_INPUT then
      Ok(Input(frame[1..]))
    else
      Err(UnknownPrefix(frame[0]))
  }

  function DecodeServer(frame: seq<byte>): Result<ServerMessage, DecodeError> {
    if frame == [] then
      Err(EmptyFrame)
    else if frame[0] == SERVER_OUTPUT then
      Ok(Output(frame[1..]))
    else if frame[0] == SERVER_ERROR then
      Ok(Error(Utf8.Lossy(frame[1..])))
    else if frame[0] == SERVER_EXITED then
      match Decimal.ParseI32(Utf8.Lossy(frame[1..]))
      case Some(code) => Ok(Exited(code))
      case None => Err(InvalidExitCode)
    else
      Err(UnknownPrefix(frame[0]))
  }

  /** `ClientMessage::encode`, which grows a vector. */
  method EncodeClient(m: ClientMessage) returns (frame: seq<byte>)
    ensures frame == ClientFrame(m)
    ensures DecodeClient(frame) == Ok(m)
  {
    match m {
      case Resize(size) =>
        frame := [CLIENT_RESIZE];
        frame := frame + Utf8.Encode(PrintSize(size));
      case Input(data) =>
        frame := [];
        frame := frame + [CLIENT_INPUT];
        frame := frame + data;
    }
    ClientRoundTrip(m);
  }

  /** `ServerMessage::encode`. */
  method EncodeServer(m: ServerMessage) returns (frame: seq<byte>)
    ensures frame == ServerFrame(m)
    ensures DecodeServer(frame) == Ok(m)
  {
    frame := [];
    match m {
      case Output(data) =>
        frame := frame + [SERVER_OUTPUT];
        frame := frame + data;
      case Error(message) =>
        frame := frame + [SERVER_ERROR];
        frame := frame + Utf8.Encode(message);
      case Exited(code) =>
        var payload := Decimal.PrintSigned(code);
        frame := frame + [SERVER_EXITED];
        frame := frame + Utf8.Encode(payload);
    }
    ServerRoundTrip(m);
  }

  /** Decoding an encoded client message gives the message back. */
  lemma ClientRoundTrip(m: ClientMessage)
    ensures DecodeClient(ClientFrame(m)) == Ok(m)
  {
    match m {
      case Resize(size) =>
        assert ClientFrame(m)[1..] == Utf8.Encode(PrintSize(size));
        Utf8.RoundTrip(PrintSize(size));
        SizeRoundTrip(size);
      case Input(data) =>
        assert ClientFrame(m)[1..] == data;
    }
  }

  /** Decoding an encoded server message gives the message back, for every
      output, every text and every `i32` code. */
  lemma ServerRoundTrip(m: ServerMessage)
    ensures DecodeServer(ServerFrame(m)) == Ok(m)
  {
    match m {
      case Output(data) =>
        assert ServerFrame(m)[1..] == data;
      case Error(message) =>
        assert ServerFrame(m)[1..] == Utf8.Encode(message);
        Utf8.RoundTrip(message);
      case Exited(code) =>
        assert ServerFrame(m)[1..] == Utf8.Encode(Decimal.PrintSigned(code));
        Utf8.RoundTrip(Decimal.PrintSigned(code));
        Decimal.ParsesPrintedI32(code);
    }
  }

  // ---- The browser ----------------------------------------------------------

  datatype BrowserFrame =
    | BrowserOutput(data: seq<byte>)
    | BrowserError(message: string)
    | BrowserExited(code: Decimal.JsNumber)

  /** `decodeServerFrame`; `None` is the thrown error of an unknown prefix. */
  function BrowserDecode(frame: seq<byte>): Option<BrowserFrame> {
    if frame == [] then
      None
    else if frame[0] == SERVER_OUTPUT then
      Some(BrowserOutput(frame[1..]))
    else if frame[0] == SERVER_ERROR then
      Some(BrowserError(Utf8.TextDecoder(frame[1..])))
    else if frame[0] == SERVER_EXITED then
      Some(BrowserExited(Decimal.Number(Utf8.TextDecoder(frame[1..]))))
    else
      None
  }

  /** The browser's view of a server message. */
  function Seen(m: ServerMessage): BrowserFrame {
    match m
    case Output(data) => BrowserOutput(data)
    case Error(message) => BrowserError(message)
    case Exited(code) => BrowserExited(Decimal.Integer(code))
  }

  predicate StartsWithByteOrderMark(m: ServerMessage) {
    m.Error? && m.message != [] && m.message[0] == Utf8.BYTE_ORDER_MARK
  }

  /** The browser reads every encoded server message as Rust does, except an
      error text that starts with a byte order mark. */
  lemma ServerDecodersAgree(m: ServerMessage)
    ensures BrowserDecode(ServerFrame(m)) == Some(Seen(m)) <==> !StartsWithByteOrderMark(m)
  {
    match m {
      case Output(data) =>
        assert ServerFrame(m)[1..] == data;
      case Error(message) =>
        assert ServerFrame(m)[1..] == Utf8.Encode(message);
        Utf8.RoundTrip(message);
        Utf8.DecodersAgree(message);
      case Exited(code) =>
        var payload := Decimal.PrintSigned(code);
        assert ServerFrame(m)[1..] == Utf8.Encode(payload);
        Utf8.RoundTrip(payload);
        Decimal.PrintReads(Decimal.Abs(code));
        Decimal.NumberReadsPrinted(code);
    }
  }

  /** An error text that starts with a byte order mark loses it in the browser. */
  lemma ByteOrderMarkIsLost()
    ensures DecodeServer(ServerFrame(Error("\U{FEFF}no"))) == Ok(Error("\U{FEFF}no"))
    ensures BrowserDecode(ServerFrame(Error("\U{FEFF}no"))) == Some(BrowserError("no"))
  {
    var text := "\U{FEFF}no";
    ServerRoundTrip(Error(text));
    assert ServerFrame(Error(text))[1..] == Utf8.Encode(text);
    Utf8.RoundTrip(text);
    assert text[1..] == "no";
  }

  /** `frame.set(data, 1)`. */
  method CopyAfterTag(frame: array<byte>, data: seq<byte>)
    requires frame.Length == |data| + 1
    modifies frame
    ensures frame[..] == [old(frame[0])] + data
  {
    for i := 0 to |data|
      invariant frame[0] == old(frame[0])
      invariant forall k :: 0 <= k < i ==> frame[k + 1] == data[k]
    {
      frame[i + 1] := data[i];
    }
  }

  /** The argument of `encodeInput`: a string or a `Uint8Array`. */
  datatype BrowserInput = Characters(text: string) | Octets(data: seq<byte>)

  function InputBytes(input: BrowserInput): seq<byte> {
    match input
    case Characters(text) => Utf8.Encode(text)
    case Octets(data) => data
  }

  /** `encodeInput`: the frame Rust reads as the text's UTF-8 or as the given bytes. */
  method BrowserEncodeInput(input: BrowserInput) returns (frame: array<byte>)
    ensures fresh(frame)
    ensures frame[..] == ClientFrame(Input(InputBytes(input)))
    ensures DecodeClient(frame[..]) == Ok(Input(InputBytes(input)))
  {
    var data := InputBytes(input);
    frame := new byte[|data| + 1];
    frame[0] := CLIENT_INPUT;
    CopyAfterTag(frame, data);
    ClientRoundTrip(Input(data));
  }

  /** `encodeResize`: byte for byte the frame Rust's encoder builds. */
  method BrowserEncodeResize(cols: u16, rows: u16) returns (frame: array<byte>)
    ensures fresh(frame)
    ensures frame[..] == ClientFrame(Resize(Size(cols, rows)))
  {
    var payload := Utf8.Encode(PrintSize(Size(cols, rows)));
    frame := new byte[|payload| + 1];
    frame[0] := CLIENT_RESIZE;
    CopyAfterTag(frame, payload);
  }
}
