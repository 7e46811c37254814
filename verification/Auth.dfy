/** Basic authentication: the credential both sides are configured with, the
    header the client builds and the server's check of it. */
module Auth {
  import opened Common
  import Base64
  import Utf8

  datatype Credential = Credential(username: string, password: string)

  // ---- Credentials -----------------------------------------------------------------------

  /** Position of the first colon, or the length. */
  function ColonIndex(s: string): (k: nat)
    ensures k <= |s|
    ensures ':' !in s[..k]
    ensures k < |s| ==> s[k] == ':'
  {
    if s == [] || s[0] == ':' then
      0
    else
      var k := ColonIndex(s[1..]);
      assert s[..k + 1] == [s[0]] + s[1..][..k];
      k + 1
  }

  /** `Credential::new`: split at the first colon. */
  function New(value: string): Option<Credential> {
    var k := ColonIndex(value);
    if k < |value| then Some(Credential(value[..k], value[k + 1..])) else None
  }

  /** `to_basic_pair`. */
  function Pair(c: Credential): string {
    c.username + ":" + c.password
  }

  /** What `new` can build: a user name without colon (section 2 of RFC 7617). */
  predicate WellFormed(c: Credential) {
    ':' !in c.username
  }

  lemma {:induction false} ColonIndexOf(user: string, rest: string)
    requires ':' !in user
    ensures ColonIndex(user + ":" + rest) == |user|
  {
    var s := user + ":" + rest;
    if user == [] {
      assert s[0] == ':';
    } else {
      assert s[0] == user[0] && user[0] in user;
      assert s[1..] == user[1..] + ":" + rest;
      ColonIndexOf(user[1..], rest);
    }
  }

  /** Well-formed credentials are exactly the results of `new`, and the pair text
      determines the credential. */
  lemma PairRoundTrip(c: Credential)
    requires WellFormed(c)
    ensures New(Pair(c)) == Some(c)
  {
    ColonIndexOf(c.username, c.password);
    assert Pair(c)[..|c.username|] == c.username;
    assert Pair(c)[|c.username| + 1..] == c.password;
  }

  lemma NewRoundTrip(value: string)
    ensures New(value).Some? <==> ':' in value
    ensures New(value).Some? ==> WellFormed(New(value).value) && Pair(New(value).value) == value
  {
    var k := ColonIndex(value);
    if k < |value| {
      assert value == value[..k] + ":" + value[k + 1..];
      assert value[k] in value;
    } else {
      assert value == value[..k];
    }
  }

  // ---- The header ----------------------------------------------------------------------------

  /** "Basic " */
  const BASIC: seq<byte> := [66, 97, 115, 105, 99, 32]

  function Token(c: Credential): seq<byte> {
    Base64.Encode(Utf8.Encode(Pair(c)))
  }

  /** `basic_auth_header`. */
  function ClientHeader(c: Option<Credential>): Option<seq<byte>> {
    if c.Some? then Some(BASIC + Token(c.value)) else None
  }

  /** The server's verdict: everything without a configured credential, otherwise
      only the one header value. */
  predicate Accepts(server: Option<Credential>, header: Option<seq<byte>>) {
    server.None? || header == Some(BASIC + Token(server.value))
  }

  /** A server configured with one credential accepts the header of a client
      configured with another exactly when they are the same. */
  lemma AcceptsIffSame(server: Credential, client: Credential)
    requires WellFormed(server) && WellFormed(client)
    ensures Accepts(Some(server), ClientHeader(Some(client))) <==> server == client
  {
    if Accepts(Some(server), ClientHeader(Some(client))) {
      assert (BASIC + Token(client))[6..] == Token(client);
      assert (BASIC + Token(server))[6..] == Token(server);
      Base64.Injective(Utf8.Encode(Pair(server)), Utf8.Encode(Pair(client)));
      Utf8.Injective(Pair(server), Pair(client));
      PairRoundTrip(server);
      PairRoundTrip(client);
    }
  }

  /** The same in terms of the two configured texts, which is what users write. */
  lemma AcceptsIffSameText(server: string, client: string)
    requires New(server).Some? && New(client).Some?
    ensures Accepts(New(server), ClientHeader(New(client))) <==> server == client
  {
    NewRoundTrip(server);
    NewRoundTrip(client);
    AcceptsIffSame(New(server).value, New(client).value);
  }

  /** The header is "Basic " and the base64 of the UTF-8 of user name, colon and
      password. */
  lemma HeaderOpens(c: Credential)
    ensures var header := ClientHeader(Some(c));
            && header.Some?
            && Utf8.Encode("Basic ") <= header.value
            && Base64.Decode(header.value[6..]) == Some(Utf8.Encode(c.username + ":" + c.password))
  {
    assert Utf8.Encode("Basic ") == BASIC by {
      AsciiIsItself("Basic ");
    }
    assert (BASIC + Token(c))[6..] == Token(c);
    Base64.RoundTrip(Utf8.Encode(Pair(c)));
  }

  lemma {:induction false} AsciiIsItself(s: string)
    requires forall i :: 0 <= i < |s| ==> s[i] < 0x80 as char
    ensures |Utf8.Encode(s)| == |s| && forall i :: 0 <= i < |s| ==> Utf8.Encode(s)[i] == s[i] as int
  {
    if s != [] {
      AsciiIsItself(s[1..]);
    }
  }

  /** A client without credential is accepted exactly by a server without one. */
  lemma AnonymousClient(server: Option<Credential>)
    ensures Accepts(server, ClientHeader(None)) <==> server.None?
  {
  }

  // ---- The comparison ----------------------------------------------------------------------------

  /** Bitwise exclusive or. */
  function Xor(a: nat, b: nat): nat
    decreases a + b
  {
    if a == 0 && b == 0 then 0 else 2 * Xor(a / 2, b / 2) + (if a % 2 != b % 2 then 1 else 0)
  }

  /** Bitwise or. */
  function Or(a: nat, b: nat): nat
    decreases a + b
  {
    if a == 0 && b == 0 then 0 else 2 * Or(a / 2, b / 2) + (if a % 2 != 0 || b % 2 != 0 then 1 else 0)
  }

  lemma {:induction false} XorZero(a: nat, b: nat)
    ensures Xor(a, b) == 0 <==> a == b
    decreases a + b
  {
    if a != 0 || b != 0 {
      XorZero(a / 2, b / 2);
    }
  }

  lemma {:induction false} OrZero(a: nat, b: nat)
    ensures Or(a, b) == 0 <==> a == 0 && b == 0
    decreases a + b
  {
    if a != 0 || b != 0 {
      OrZero(a / 2, b / 2);
    }
  }

  /** `get(index).copied().unwrap_or_default()`. */
  function ByteAt(s: seq<byte>, i: nat): byte {
    if i < |s| then s[i] else 0
  }

  /** `constant_time_eq`: the accumulated difference is zero exactly for equal
      byte strings, a shorter one padded with zeros included. */
  method ConstantTimeEq(left: seq<byte>, right: seq<byte>) returns (equal: bool)
    ensures equal <==> left == right
  {
    var maxLen := if |left| < |right| then |right| else |left|;
    var diff := Xor(|left|, |right|);
    XorZero(|left|, |right|);
    for i := 0 to maxLen
      invariant diff == 0 <==> |left| == |right| && forall k :: 0 <= k < i ==> ByteAt(left, k) == ByteAt(right, k)
    {
      var a, b := ByteAt(left, i), ByteAt(right, i);
      XorZero(a, b);
      OrZero(diff, Xor(a, b));
      diff := Or(diff, Xor(a, b));
    }
    equal := diff == 0;
    if equal {
      forall k | 0 <= k < |left| ensures left[k] == right[k] {
        assert ByteAt(left, k) == ByteAt(right, k);
      }
    }
  }

  /** Visible ASCII, blanks and tabs: what `to_str` lets through. */
  predicate Visible(value: seq<byte>) {
    forall i :: 0 <= i < |value| ==> value[i] == 9 || 32 <= value[i] <= 126
  }

  /** `validate_headers`, test by test. */
  method ValidateHeaders(server: Option<Credential>, header: Option<seq<byte>>) returns (valid: bool)
    ensures valid <==> Accepts(server, header)
  {
    if server.None? {
      return true;
    }
    if header.None? {
      return false;
    }
    var value, token := header.value, Token(server.value);
    Base64.Printable(Utf8.Encode(Pair(server.value)));
    assert Visible(BASIC + token);
    if !Visible(value) {
      return false;
    }
    if !(BASIC <= value) {
      return false;
    }
    assert value == BASIC + value[|BASIC|..];
    valid := ConstantTimeEq(value[|BASIC|..], token);
  }

  // ---- Credential files ------------------------------------------------------------------------------

  datatype FileError = NotOneLine | NotUserPassword

  predicate EndsWith(s: string, suffix: string) {
    |suffix| <= |s| && s[|s| - |suffix|..] == suffix
  }

  function StripSuffix(s: string, suffix: string): string {
    if EndsWith(s, suffix) then s[..|s| - |suffix|] else s
  }

  predicate SingleLine(line: string) {
    '\r' !in line && '\n' !in line && '\0' !in line
  }

  /** `CredentialArgs::resolve` on the content of a file. */
  function ResolveFile(content: string): Result<Credential, FileError> {
    var line := if EndsWith(content, "\r\n") then StripSuffix(content, "\r\n") else StripSuffix(content, "\n");
    if !SingleLine(line) then
      Err(NotOneLine)
    else
      match New(line)
      case Some(c) => Ok(c)
      case None => Err(NotUserPassword)
  }

  /** The three ways to write a line in a file. */
  predicate Holds(content: string, line: string) {
    content == line || content == line + "\n" || content == line + "\r\n"
  }

  lemma StripWritten(line: string, ending: string)
    requires SingleLine(line)
    requires ending == [] || ending == "\n" || ending == "\r\n"
    ensures ResolveFile(line + ending)
         == match New(line) { case Some(c) => Ok(c) case None => Err(NotUserPassword) }
  {
    var content := line + ending;
    if EndsWith(content, "\n") {
      assert content[|content| - 1] == '\n';
    }
    if ending == [] {
      assert content == line;
      assert |line| > 0 ==> line[|line| - 1] in line;
    } else if ending == "\n" {
      assert content[|line|..] == "\n";
      if line != [] {
        assert content[|content| - 2] == line[|line| - 1] && line[|line| - 1] in line;
      }
      assert StripSuffix(content, "\n") == line;
    } else {
      assert content[|line|..] == "\r\n";
      assert StripSuffix(content, "\r\n") == line;
    }
  }

  lemma AcceptedIsHeld(content: string, c: Credential) returns (line: string)
    requires ResolveFile(content) == Ok(c)
    ensures SingleLine(line) && Holds(content, line) && New(line) == Some(c)
  {
    line := if EndsWith(content, "\r\n") then StripSuffix(content, "\r\n") else StripSuffix(content, "\n");
    if EndsWith(content, "\r\n") {
      assert content == line + "\r\n";
    } else if EndsWith(content, "\n") {
      assert content == line + "\n";
    }
  }

  lemma HeldIsAccepted(content: string, line: string, c: Credential)
    requires SingleLine(line) && Holds(content, line) && New(line) == Some(c)
    ensures ResolveFile(content) == Ok(c)
  {
    StripWritten(line, if content == line then [] else content[|line|..]);
    assert line + [] == line;
  }

  /** Every outcome of a file: it is read as its one line, refused for having no such
      line, or refused for a line without a colon. */
  lemma FileExactly(content: string)
    ensures ResolveFile(content) == Err(NotOneLine)
            <==> !exists line :: Holds(content, line) && '\r' !in line && '\n' !in line && '\0' !in line
    ensures ResolveFile(content) == Err(NotUserPassword)
            <==> exists line ::
                   Holds(content, line) && '\r' !in line && '\n' !in line && '\0' !in line && ':' !in line
  {
    if ResolveFile(content) != Err(NotOneLine) {
      var line := LineOf(content);
      LineDecides(content, line);
    }
    forall line | SingleLine(line) && Holds(content, line)
      ensures ResolveFile(content) != Err(NotOneLine)
      ensures ResolveFile(content) == Err(NotUserPassword) <==> ':' !in line
    {
      LineDecides(content, line);
    }
  }

  lemma LineDecides(content: string, line: string)
    requires SingleLine(line) && Holds(content, line)
    ensures ResolveFile(content) != Err(NotOneLine)
    ensures ResolveFile(content) == Err(NotUserPassword) <==> ':' !in line
  {
    StripWritten(line, if content == line then [] else content[|line|..]);
    assert line + [] == line;
    NewRoundTrip(line);
  }

  lemma LineOf(content: string) returns (line: string)
    requires ResolveFile(content) != Err(NotOneLine)
    ensures SingleLine(line) && Holds(content, line)
  {
    line := if EndsWith(content, "\r\n") then StripSuffix(content, "\r\n") else StripSuffix(content, "\n");
    if EndsWith(content, "\r\n") {
      assert content == line + "\r\n";
    } else if EndsWith(content, "\n") {
      assert content == line + "\n";
    }
  }

  /** A file is accepted exactly when it is one line free of CR, LF and NUL with a colon,
      bare or ended by one LF or CRLF, and then means what that line means as an
      argument. */
  lemma FileIsOneLine(content: string, c: Credential)
    ensures ResolveFile(content) == Ok(c)
            <==> exists line ::
                   && '\r' !in line && '\n' !in line && '\0' !in line
                   && Holds(content, line) && New(line) == Some(c)
  {
    if ResolveFile(content) == Ok(c) {
      var line := AcceptedIsHeld(content, c);
    }
    if line :| SingleLine(line) && Holds(content, line) && New(line) == Some(c) {
      HeldIsAccepted(content, line, c);
    }
  }
}
