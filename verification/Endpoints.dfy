/** Request dispatch, and the URLs browser and command-line client derive from a
    mount URL. */
module Endpoints {
  import opened Common
  import opened Paths
  import Routing

  // ---- Dispatch -----------------------------------------------------------------------

  /** What a request is answered with. */
  datatype Route =
    | NoContent
    | Unauthorized
    | Upgrade
    | RedirectTo(location: string)
    | Serve(path: string)

  const CHECK: string := "/auth/check"

  const WS: string := "/ws"

  predicate ExtensionlessWithoutSlash(path: string, isGet: bool) {
    && isGet
    && path != "/"
    && !EndsWith(path, "/")
    && !EndsWith(path, WS)
    && !EndsWith(path, CHECK)
    && !HasExtension(path)
  }

  function Dispatch(path: string, isGet: bool, authorised: bool): Route {
    if EndsWith(path, CHECK) || path == CHECK then
      if authorised then NoContent else Unauthorized
    else if EndsWith(path, WS) || path == WS then
      if authorised then Upgrade else Unauthorized
    else if !authorised then
      Unauthorized
    else if ExtensionlessWithoutSlash(path, isGet) then
      RedirectTo(path + "/")
    else
      Serve(path)
  }

  // ---- Redirects ------------------------------------------------------------------------

  /** Where a client of the same server goes for a Location header: a reference with
      two leading slashes names another authority (section 4.2 of RFC 3986),
      another absolute path is freed of dot segments. */
  function Follow(location: string): Option<string> {
    if "//" <= location then None else Some(RemoveDots(location))
  }

  lemma TrailingSlash(front: string)
    ensures Segments(front + "/") == Segments(front) + [[]]
    ensures LastSegment(front + "/") == [] && !HasExtension(front + "/")
  {
    SlashSeparates(front, []);
    assert front + "/" + [] == front + "/";
  }

  lemma SlashForm(s: string)
    requires EndsWith(s, "/")
    ensures s != [] && s[|s| - 1] == '/' && s == s[..|s| - 1] + "/"
  {
    SuffixEnd(s, "/");
  }

  lemma SlashIsNoEndpoint(s: string)
    requires EndsWith(s, "/")
    ensures !EndsWith(s, WS) && !EndsWith(s, CHECK)
  {
    SuffixEnd(s, "/");
    SuffixEnd(s, WS);
    SuffixEnd(s, CHECK);
  }

  /** A path ending in a slash is served, as the index page. */
  lemma SlashServesIndex(path: string, isGet: bool)
    requires EndsWith(path, "/")
    ensures Dispatch(path, isGet, true) == Serve(path)
    ensures Routing.AssetPath(path) == Routing.INDEX
  {
    SlashForm(path);
    TrailingSlash(path[..|path| - 1]);
    SlashIsNoEndpoint(path);
    TrimmedSegments(path);
  }

  lemma RedirectKeepsSlash(path: string)
    requires path != []
    ensures EndsWith(RemoveDots(path + "/"), "/")
  {
    TrailingSlash(path);
    RemoveDotsKeepsLast(path + "/", Segments(path), []);
    var front := Absolute(Walk([], Segments(path)[1..]));
    assert "/" + [] == "/";
    EndsWithOwnTail(front, "/");
  }

  /** A path ends in a slash exactly when its last segment is empty. */
  lemma SlashIsEmptySegment(path: string)
    requires path != []
    ensures EndsWith(path, "/") <==> LastSegment(path) == []
  {
    if EndsWith(path, "/") {
      SlashForm(path);
      TrailingSlash(path[..|path| - 1]);
    } else {
      assert path[|path| - 1..] == [path[|path| - 1]];
      LastCharInSegment(path);
    }
  }

  lemma {:induction false} LastCharInSegment(s: string)
    requires s != [] && s[|s| - 1] != '/'
    ensures LastSegment(s) != []
  {
    if |s| == 1 {
      PlainSegment(s);
    } else {
      LastCharInSegment(s[1..]);
    }
  }

  /** Every answer of the server and exactly when it is given: nothing without
      authorisation, and a redirect for a GET of a page without its slash. */
  lemma DispatchExactly(path: string, isGet: bool, authorised: bool)
    requires path != []
    ensures var route := Dispatch(path, isGet, authorised);
            && (route == Unauthorized <==> !authorised)
            && (route == NoContent <==> authorised && EndsWith(path, "/auth/check"))
            && (route == Upgrade <==> authorised && EndsWith(path, "/ws"))
            && (route.RedirectTo? <==>
                  && authorised && isGet && !EndsWith(path, "/auth/check") && !EndsWith(path, "/ws")
                  && LastSegment(path) != [] && '.' !in LastSegment(path))
            && (route.RedirectTo? ==> route.location == path + "/")
            && (route.Serve? ==> route.path == path)
  {
    SlashIsEmptySegment(path);
    SlashMeansServe(path);
  }

  lemma SlashMeansServe(path: string)
    ensures path == "/" ==> EndsWith(path, "/")
    ensures EndsWith(path, WS) ==> !EndsWith(path, CHECK)
  {
    if EndsWith(path, WS) {
      SocketIsNoCheck(path);
    }
  }

  /** The redirect of an authorised GET leads back to this server exactly when the
      path does not start with two slashes, for clients that resolve references by
      RFC 3986, and then to the index page at once:
      the second request is served and not redirected again. */
  lemma RedirectReachesIndex(path: string, location: string)
    requires path != [] && path[0] == '/'
    requires Dispatch(path, true, true) == RedirectTo(location)
    ensures Follow(location).Some? <==> !("//" <= path)
    ensures Follow(location).Some? ==>
              var next := Follow(location).value;
              Dispatch(next, true, true) == Serve(next) && Routing.AssetPath(next) == Routing.INDEX
    ensures HasParentSegment(location) <==> HasParentSegment(path)
  {
    assert location == path + "/";
    assert |path| > 1;
    assert location[..2] == path[..2];
    RedirectKeepsSlash(path);
    SlashServesIndex(RemoveDots(location), true);
    TrailingSlash(path);
  }

  /** A GET of "//host/x" is redirected to another authority. */
  lemma RedirectLeavesServer()
    ensures Dispatch("//host" + "/" + "x", true, true) == RedirectTo("//host" + "/" + "x" + "/")
    ensures Follow("//host" + "/" + "x" + "/").None?
  {
    PageRedirects("//host", "x");
    assert ("//host" + "/" + "x" + "/")[..2] == "//";
  }

  lemma PageRedirects(front: string, name: string)
    requires name != [] && '/' !in name && '.' !in name && name[|name| - 1] != 's' && name[|name| - 1] != 'k'
    ensures Dispatch(front + "/" + name, true, true) == RedirectTo(front + "/" + name + "/")
  {
    var path := front + "/" + name;
    PlainSegment(name);
    SlashSeparates(front, name);
    assert LastSegment(path) == name;
    assert path[|path| - 1] == name[|name| - 1] && name[|name| - 1] in name;
    SuffixEnd(path, "/");
    SuffixEnd(path, WS);
    SuffixEnd(path, CHECK);
  }

  // ---- Mount URLs ---------------------------------------------------------------------------

  /** A parsed URL, as far as the endpoints need it. */
  datatype Url = Url(scheme: string, authority: string, path: string, query: Option<string>, fragment: Option<string>)

  /** A URL whose path is a directory. */
  function WithSlash(u: Url): Url {
    if EndsWith(u.path, "/") then u else u.(path := u.path + "/")
  }

  /** Everything up to and including the last slash (section 5.2.3 of RFC 3986). */
  function Directory(path: string): string {
    if path == [] || path[|path| - 1] == '/' then path else Directory(path[..|path| - 1])
  }

  /** Resolving a relative path without query (section 5.2.2 of RFC 3986). */
  function Resolve(base: Url, relative: string): Url {
    Url(base.scheme, base.authority, RemoveDots(Directory(base.path) + relative), None, None)
  }

  /** The browser's socket URL. */
  function BrowserSocket(page: Url): Url {
    var url := Resolve(WithSlash(page), "ws");
    url.(scheme := if url.scheme == "https" then "wss" else "ws")
  }

  /** `resolveAuthCheckUrl`: one expression. */
  function BrowserCheck(page: Url): Url {
    Resolve(WithSlash(page), "auth/check")
  }

  /** The client's socket URL. */
  function ClientSocket(connect: Url): Option<Url> {
    var url := Resolve(WithSlash(connect), "ws");
    if url.scheme == "http" then Some(url.(scheme := "ws"))
    else if url.scheme == "https" then Some(url.(scheme := "wss"))
    else if url.scheme == "ws" || url.scheme == "wss" then Some(url)
    else None
  }

  /** `ensureTrailingSlash`, which assigns the path of its URL. */
  method EnsureTrailingSlash(value: Url) returns (url: Url)
    ensures url == WithSlash(value)
    ensures EndsWith(url.path, "/")
  {
    url := value;
    if !EndsWith(url.path, "/") {
      url := url.(path := url.path + "/");
      EndsWithOwnTail(value.path, "/");
    }
  }

  /** `resolveWebSocketUrl`, which assigns the scheme. */
  method ResolveWebSocketUrl(page: Url) returns (url: Url)
    ensures url == BrowserSocket(page)
  {
    var base := EnsureTrailingSlash(page);
    url := Resolve(base, "ws");
    url := url.(scheme := if url.scheme == "https" then "wss" else "ws");
  }

  /** The command-line client, which changes its URL in place. */
  method ResolveWsUrl(connect: Url) returns (url: Option<Url>)
    ensures url == ClientSocket(connect)
  {
    var base := connect;
    if !EndsWith(base.path, "/") {
      base := base.(path := base.path + "/");
    }
    var joined := Resolve(base, "ws");
    match joined.scheme {
      case "http" => joined := joined.(scheme := "ws");
      case "https" => joined := joined.(scheme := "wss");
      case "ws" =>
      case "wss" =>
      case _ => return None;
    }
    url := Some(joined);
  }

  lemma DirectoryOfSlash(u: Url)
    ensures EndsWith(WithSlash(u).path, "/") && Directory(WithSlash(u).path) == WithSlash(u).path
  {
    if !EndsWith(u.path, "/") {
      EndsWithOwnTail(u.path, "/");
    }
    SlashForm(WithSlash(u).path);
  }

  /** Below a directory the relative path adds its segments. */
  lemma SegmentsBelow(directory: string, relative: string)
    requires EndsWith(directory, "/")
    ensures Segments(directory + relative) == Segments(directory[..|directory| - 1]) + Segments(relative)
  {
    SlashForm(directory);
    SlashSeparates(directory[..|directory| - 1], relative);
  }

  lemma OneBelow(directory: string, last: string)
    requires EndsWith(directory, "/") && '/' !in last && !IsDot(last)
    ensures EndsWith(RemoveDots(directory + last), "/" + last)
  {
    var front := Segments(directory[..|directory| - 1]);
    SegmentsBelow(directory, last);
    PlainSegment(last);
    RemoveDotsKeepsLast(directory + last, front, last);
    var head := Absolute(Walk([], front[1..]));
    EndsWithOwnTail(head, "/" + last);
  }

  lemma TwoSegments(one: string, two: string)
    requires '/' !in one && '/' !in two
    ensures Segments(one + "/" + two) == [one, two]
  {
    PlainSegment(one);
    PlainSegment(two);
    SlashSeparates(one, two);
  }

  lemma TwoBelow(directory: string, one: string, two: string)
    requires EndsWith(directory, "/") && '/' !in one && '/' !in two && !IsDot(one) && !IsDot(two)
    ensures EndsWith(RemoveDots(directory + (one + "/" + two)), "/" + one + "/" + two)
  {
    var front, relative := Segments(directory[..|directory| - 1]), one + "/" + two;
    SegmentsBelow(directory, relative);
    TwoSegments(one, two);
    assert front + [one, two] == front + [one] + [two];
    RemoveDotsKeepsLastTwo(directory + relative, front, one, two);
    var head := Absolute(Walk([], front[1..]));
    assert head + ("/" + one) + ("/" + two) == head + ("/" + one + "/" + two);
    EndsWithOwnTail(head, "/" + one + "/" + two);
  }

  lemma SocketPath(directory: string)
    requires EndsWith(directory, "/")
    ensures EndsWith(RemoveDots(directory + "ws"), WS)
  {
    OneBelow(directory, "ws");
    assert "/" + "ws" == WS;
  }

  lemma CheckName()
    ensures "auth" + "/" + "check" == "auth/check"
    ensures "/" + "auth" + "/" + "check" == CHECK
  {
  }

  lemma CheckPath(directory: string)
    requires EndsWith(directory, "/")
    ensures EndsWith(RemoveDots(directory + "auth/check"), CHECK)
  {
    CheckName();
    assert '/' !in "auth" && '/' !in "check";
    TwoBelow(directory, "auth", "check");
  }

  lemma SocketIsNoCheck(path: string)
    requires EndsWith(path, WS)
    ensures !EndsWith(path, CHECK)
  {
    SuffixEnd(path, WS);
    SuffixEnd(path, CHECK);
  }

  /** For every mount URL, what the browser and the client derive reaches the
      auth-check and the WebSocket branch, whatever the method. */
  lemma DerivedUrlsReachEndpoints(mount: Url, isGet: bool, authorised: bool)
    ensures Dispatch(BrowserCheck(mount).path, isGet, authorised) == if authorised then NoContent else Unauthorized
    ensures Dispatch(BrowserSocket(mount).path, isGet, authorised) == if authorised then Upgrade else Unauthorized
    ensures ClientSocket(mount).Some? ==>
              Dispatch(ClientSocket(mount).value.path, isGet, authorised)
                == if authorised then Upgrade else Unauthorized
  {
    DirectoryOfSlash(mount);
    SocketPath(WithSlash(mount).path);
    CheckPath(WithSlash(mount).path);
    SocketIsNoCheck(BrowserSocket(mount).path);
  }

  /** Browser and client derive the same WebSocket URL exactly for http, https and
      ws; a wss URL given to the client stays secure, a page of another scheme is
      refused by the client. */
  lemma SocketUrlsAgree(mount: Url)
    ensures ClientSocket(mount) == Some(BrowserSocket(mount))
            <==> mount.scheme == "http" || mount.scheme == "https" || mount.scheme == "ws"
  {
    assert "ws" != "wss";
    assert WithSlash(mount).scheme == mount.scheme;
  }

  /** A secure page stays secure and no other is made so, for both clients; authority
      is kept, and query and fragment are dropped. */
  lemma SecurityIsKept(mount: Url)
    ensures BrowserSocket(mount).scheme == if mount.scheme == "https" then "wss" else "ws"
    ensures ClientSocket(mount).Some?
            <==> mount.scheme == "http" || mount.scheme == "https" || mount.scheme == "ws" || mount.scheme == "wss"
    ensures ClientSocket(mount).Some? ==>
              && (ClientSocket(mount).value.scheme == "wss" <==> mount.scheme == "https" || mount.scheme == "wss")
              && (ClientSocket(mount).value.scheme == "ws" <==> mount.scheme == "http" || mount.scheme == "ws")
              && ClientSocket(mount).value == BrowserSocket(mount).(scheme := ClientSocket(mount).value.scheme)
    ensures BrowserCheck(mount).scheme == mount.scheme
    ensures forall url :: url == BrowserSocket(mount) || url == BrowserCheck(mount) ==>
              url.authority == mount.authority && url.query == None && url.fragment == None
  {
    assert "ws" != "wss" && "http" != "https" && "http"[0] != "ws"[0];
    assert WithSlash(mount).scheme == mount.scheme && WithSlash(mount).authority == mount.authority;
  }

  /** Below a plain directory a plain relative path stays where it is. */
  lemma StaysBelow(mount: Url, relative: string)
    requires mount.path != [] && mount.path[0] == '/'
    requires forall x :: x in Segments(mount.path) ==> !IsDot(x)
    requires forall x :: x in Segments(relative) ==> !IsDot(x)
    ensures RemoveDots(WithSlash(mount).path + relative) == WithSlash(mount).path + relative
  {
    var p := WithSlash(mount).path;
    DirectoryOfSlash(mount);
    SegmentsBelow(p, relative);
    if EndsWith(mount.path, "/") {
      SlashForm(mount.path);
      TrailingSlash(p[..|p| - 1]);
    } else {
      assert p[..|p| - 1] == mount.path;
    }
    forall x | x in Segments(p + relative) ensures !IsDot(x) {
      if x in Segments(p[..|p| - 1]) {
        assert x in Segments(mount.path);
      }
    }
    PlainPathStays(p + relative);
  }

  /** With a normalised mount path the endpoints lie directly below it. */
  lemma EndpointsBelowMount(mount: Url)
    requires mount.path != [] && mount.path[0] == '/'
    requires forall x :: x in Segments(mount.path) ==> !IsDot(x)
    ensures BrowserSocket(mount).path == WithSlash(mount).path + "ws"
    ensures BrowserCheck(mount).path == WithSlash(mount).path + "auth/check"
    ensures WithSlash(mount).path == mount.path + if mount.path[|mount.path| - 1] == '/' then "" else "/"
    ensures BrowserSocket(mount).authority == mount.authority && BrowserSocket(mount).query == None
  {
    DirectoryOfSlash(mount);
    assert EndsWith(mount.path, "/") <==> mount.path[|mount.path| - 1..] == "/";
    PlainSegment("ws");
    StaysBelow(mount, "ws");
    CheckSegments();
    StaysBelow(mount, "auth/check");
  }

  lemma CheckSegments()
    ensures forall x :: x in Segments("auth/check") ==> !IsDot(x)
  {
    CheckName();
    assert '/' !in "auth" && '/' !in "check";
    TwoSegments("auth", "check");
  }
}
