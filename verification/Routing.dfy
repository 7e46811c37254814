/** Which file a request path means, under any mount prefix. */
module Routing {
  import opened Common
  import opened Paths

  // ---- Asset paths ---------------------------------------------------------------------

  const ASSETS: string := "assets/"

  const INDEX: string := "index.html"

  /** The rest of a path from its first "assets/" on: `find` and the slice. */
  function FromAssets(s: string): (r: Option<string>)
    ensures r.Some? ==> ASSETS <= r.value && |r.value| <= |s|
  {
    if ASSETS <= s then Some(s) else if s == [] then None else FromAssets(s[1..])
  }

  predicate MentionsAssets(s: string) {
    FromAssets(s).Some?
  }

  /** `asset_relative_path`. */
  function AssetPath(request: string): string {
    var path := TrimSlashes(request);
    if path == [] || !HasExtension(path) then
      INDEX
    else
      match FromAssets(path)
      case Some(rest) => rest
      case None => path
  }

  /** The directory name is one segment. */
  lemma AssetsSegments(rest: string)
    ensures Segments(ASSETS + rest) == ["assets"] + Segments(rest)
  {
    PlainSegment("assets");
    SlashSeparates("assets", rest);
    assert ASSETS + rest == "assets" + "/" + rest;
  }

  /** The part from the first "assets/" on ends like the whole path. */
  lemma {:induction false} FromAssetsSegments(s: string)
    requires MentionsAssets(s)
    ensures var rest := FromAssets(s).value[|ASSETS|..];
            && Segments(FromAssets(s).value) == ["assets"] + Segments(rest)
            && TailOf(Segments(s), Segments(rest)) && |Segments(rest)| < |Segments(s)|
  {
    var found := FromAssets(s).value;
    var rest := found[|ASSETS|..];
    AssetsSegments(rest);
    assert found == ASSETS + rest;
    if !(ASSETS <= s) {
      FromAssetsSegments(s[1..]);
      PushKeepsTail(s[0], Segments(s[1..]), Segments(rest));
    }
  }

  lemma PrefixHasSlash(s: string)
    ensures ASSETS <= s ==> '/' in s
  {
    if ASSETS <= s {
      assert s[|ASSETS| - 1] == '/';
    }
  }

  lemma {:induction false} NeedsSlash(s: string)
    requires '/' !in s
    ensures !MentionsAssets(s)
  {
    PrefixHasSlash(s);
    if s != [] {
      assert forall c :: c in s[1..] ==> c in s;
      NeedsSlash(s[1..]);
    }
  }

  lemma IndexFacts()
    ensures Segments(INDEX) == [INDEX] && HasExtension(INDEX) && !MentionsAssets(INDEX) && TrimSlashes(INDEX) == INDEX
  {
    assert '/' !in INDEX;
    PlainSegment(INDEX);
    NeedsSlash(INDEX);
    assert INDEX[5] == '.';
    assert INDEX[0] != '/';
  }

  lemma ExtensionSurvives(request: string)
    ensures HasExtension(TrimSlashes(request)) <==> HasExtension(request)
    ensures HasExtension(request) ==> TrimSlashes(request) != []
  {
    TrimmedSegments(request);
    assert LastSegment([]) == [];
  }

  /** For every request path without a climbing segment, the asset path is relative,
      has no climbing segment, and read from any directory stays under it. */
  lemma AssetPathIsContained(request: string, root: seq<string>)
    requires !HasParentSegment(request)
    ensures var path := AssetPath(request);
            && path != [] && path[0] != '/'
            && !HasParentSegment(path)
            && root <= Walk(root, Segments(path))
  {
    var trimmed, path := TrimSlashes(request), AssetPath(request);
    TrimmedSegments(request);
    TailMembers(Segments(request), Segments(trimmed));
    if trimmed == [] || !HasExtension(trimmed) {
      IndexFacts();
    } else if MentionsAssets(trimmed) {
      FromAssetsSegments(trimmed);
      TailMembers(Segments(trimmed), Segments(path[|ASSETS|..]));
      assert "assets" != "..";
      assert path[0] == ASSETS[0];
    }
    WalkStaysUnder(root, Segments(path));
  }

  lemma AlreadyDerived(path: string)
    requires path != [] && path[0] != '/' && HasExtension(path)
    requires ASSETS <= path || !MentionsAssets(path)
    ensures AssetPath(path) == path
  {
  }

  /** Deriving the asset path again changes nothing. */
  lemma AssetPathIdempotent(request: string)
    ensures AssetPath(AssetPath(request)) == AssetPath(request)
  {
    var trimmed, path := TrimSlashes(request), AssetPath(request);
    if trimmed == [] || !HasExtension(trimmed) {
      IndexFacts();
      AlreadyDerived(INDEX);
    } else if MentionsAssets(trimmed) {
      FromAssetsSegments(trimmed);
      TailMembers(Segments(trimmed), Segments(path[|ASSETS|..]));
      assert path[0] == ASSETS[0];
      AlreadyDerived(path);
    } else {
      AlreadyDerived(trimmed);
    }
  }

  /** "assets/" stands at this place. */
  predicate OccursAt(s: string, k: nat) {
    k <= |s| && ASSETS <= s[k..]
  }

  ghost predicate OccursFirst(s: string, k: nat) {
    OccursAt(s, k) && forall j: nat :: j < k ==> !OccursAt(s, j)
  }

  lemma {:induction false} FirstOccurrence(s: string)
    ensures FromAssets(s).None? ==> forall k: nat :: !OccursAt(s, k)
    ensures FromAssets(s).Some? ==>
              var k := |s| - |FromAssets(s).value|;
              OccursAt(s, k) && FromAssets(s).value == s[k..] && forall j: nat :: j < k ==> !OccursAt(s, j)
  {
    if ASSETS <= s {
      assert s[0..] == s;
    } else if s == [] {
      forall k: nat ensures !OccursAt(s, k) {
      }
    } else {
      FirstOccurrence(s[1..]);
      assert s[0..] == s;
      forall k: nat | 1 <= k <= |s| ensures OccursAt(s, k) <==> OccursAt(s[1..], k - 1) {
        assert s[k..] == s[1..][k - 1..];
      }
    }
  }

  lemma {:induction false} SlashesTrimmed(s: string) returns (slashes: string)
    ensures OnlySlashes(slashes) && s == slashes + TrimSlashes(s)
  {
    if s != [] && s[0] == '/' {
      var more := SlashesTrimmed(s[1..]);
      slashes := "/" + more;
    } else {
      slashes := [];
    }
  }

  /** The asset of every request path: the index page unless the last segment has a
      dot, and otherwise the path without leading slashes, from its first "assets/"
      on where there is one. */
  lemma AssetPathExactly(request: string) returns (slashes: string, path: string)
    ensures OnlySlashes(slashes) && request == slashes + path && (path == [] || path[0] != '/')
    ensures '.' !in LastSegment(request) ==> AssetPath(request) == "index.html"
    ensures '.' in LastSegment(request) && (forall k: nat :: !OccursAt(path, k)) ==> AssetPath(request) == path
    ensures forall k: nat :: '.' in LastSegment(request) && OccursFirst(path, k) ==> AssetPath(request) == path[k..]
  {
    slashes := SlashesTrimmed(request);
    path := TrimSlashes(request);
    FirstOccurrence(path);
    ExtensionSurvives(request);
  }

  // ---- Mount prefixes ----------------------------------------------------------------------

  predicate OnlySlashes(s: string) {
    forall i :: 0 <= i < |s| ==> s[i] == '/'
  }

  lemma {:induction false} FromAssetsTrimmed(s: string)
    ensures FromAssets(TrimSlashes(s)) == FromAssets(s)
  {
    if s != [] && s[0] == '/' {
      assert ASSETS[0] != '/';
      FromAssetsTrimmed(s[1..]);
    }
  }

  /** A prefix that ends in a slash and does not mention "assets/" neither adds nor
      hides one. */
  lemma {:induction false} FromAssetsBehind(prefix: string, rest: string)
    requires prefix != [] ==> prefix[|prefix| - 1] == '/'
    requires !MentionsAssets(prefix)
    ensures FromAssets(prefix + rest) == FromAssets(rest)
  {
    var s := prefix + rest;
    if prefix == [] {
      assert s == rest;
    } else {
      NoPrefixAcross(prefix, rest);
      assert s[1..] == prefix[1..] + rest;
      FromAssetsBehind(prefix[1..], rest);
    }
  }

  lemma NoPrefixAcross(prefix: string, rest: string)
    requires prefix != [] && prefix[|prefix| - 1] == '/'
    ensures ASSETS <= prefix + rest ==> ASSETS <= prefix
  {
    var s, n := prefix + rest, |prefix| - 1;
    assert s[n] == '/';
    assert forall k :: 0 <= k < |ASSETS| - 1 ==> ASSETS[k] != '/';
    if ASSETS <= s {
      assert forall k :: 0 <= k < |ASSETS| ==> s[k] == ASSETS[k];
      assert n >= |ASSETS| - 1;
      assert prefix[..|ASSETS|] == s[..|ASSETS|];
    }
  }

  lemma {:induction false} TrimOfConcat(prefix: string, rest: string)
    ensures OnlySlashes(prefix) ==> TrimSlashes(prefix + rest) == TrimSlashes(rest)
    ensures !OnlySlashes(prefix) ==> |TrimSlashes(prefix + rest)| > |rest|
  {
    if prefix == [] {
      assert prefix + rest == rest;
    } else {
      assert (prefix + rest)[0] == prefix[0];
      if prefix[0] == '/' {
        assert (prefix + rest)[1..] == prefix[1..] + rest;
        assert OnlySlashes(prefix[1..]) ==> OnlySlashes(prefix) by {
          assert prefix == [prefix[0]] + prefix[1..];
        }
        TrimOfConcat(prefix[1..], rest);
      }
    }
  }

  lemma ExtensionBehind(prefix: string, rest: string)
    requires prefix != [] && prefix[|prefix| - 1] == '/'
    ensures HasExtension(prefix + rest) <==> HasExtension(rest)
  {
    var front := prefix[..|prefix| - 1];
    assert prefix + rest == front + "/" + rest;
    SlashSeparates(front, rest);
  }

  /** A mount prefix that ends in a slash and does not mention "assets/" leads to the
      same asset as no prefix exactly for pages, for paths into "assets/", and for
      prefixes of slashes only: other files are looked up with the prefix. */
  lemma MountPrefixLaw(prefix: string, rest: string)
    requires prefix != [] && prefix[|prefix| - 1] == '/' && !MentionsAssets(prefix)
    ensures AssetPath(prefix + rest) == AssetPath(rest)
            <==> !HasExtension(rest) || MentionsAssets(rest) || OnlySlashes(prefix)
  {
    ExtensionBehind(prefix, rest);
    ExtensionSurvives(prefix + rest);
    ExtensionSurvives(rest);
    FromAssetsTrimmed(prefix + rest);
    FromAssetsTrimmed(rest);
    FromAssetsBehind(prefix, rest);
    TrimOfConcat(prefix, rest);
  }

  lemma FileHasExtension(directory: string, name: string)
    requires '/' !in name && '.' in name
    ensures HasExtension(directory + "/" + name) && HasExtension(name)
  {
    PlainSegment(name);
    SlashSeparates(directory, name);
    assert LastSegment(directory + "/" + name) == name;
  }

  lemma FileMentionsNothing(prefix: string, name: string)
    requires prefix != [] && prefix[|prefix| - 1] == '/' && !MentionsAssets(prefix)
    requires '/' !in name
    ensures !MentionsAssets(prefix + name) && !MentionsAssets(name)
  {
    NeedsSlash(name);
    FromAssetsBehind(prefix, name);
  }

  lemma LeadingSlash(path: string)
    requires path != [] && path[0] != '/'
    ensures AssetPath("/" + path) == AssetPath(path)
  {
    assert ("/" + path)[1..] == path;
    assert TrimSlashes("/" + path) == TrimSlashes(path) == path;
  }

  /** A file right below a mount directory is looked up with its directory. */
  lemma MountedFile(directory: string, name: string)
    requires directory != [] && directory[0] != '/' && !MentionsAssets(directory + "/")
    requires name != [] && '/' !in name && '.' in name
    ensures AssetPath("/" + (directory + "/" + name)) == directory + "/" + name
    ensures AssetPath(name) == name
  {
    var prefix, path := directory + "/", directory + "/" + name;
    assert prefix[|prefix| - 1] == '/';
    assert path[0] == directory[0] && name[0] in name;
    FileHasExtension(directory, name);
    FileMentionsNothing(prefix, name);
    LeadingSlash(path);
    AlreadyDerived(path);
    AlreadyDerived(name);
  }

  const ICON: string := "favicon.ico"

  /** Behind the mount prefix "/mount/" an icon is looked up with the prefix. */
  lemma MountedIconDiffers()
    ensures AssetPath("/" + ("mount" + "/" + ICON)) == "mount" + "/" + ICON != ICON == AssetPath(ICON)
  {
    ShortMentionsNothing("mount" + "/");
    assert ICON[7] == '.' && '/' !in ICON;
    MountedFile("mount", ICON);
  }

  lemma {:induction false} ShortMentionsNothing(s: string)
    requires |s| < |ASSETS|
    ensures !MentionsAssets(s)
  {
    if s != [] {
      ShortMentionsNothing(s[1..]);
    }
  }

  // ---- Lookup order ---------------------------------------------------------------------------

  /** Where a loaded asset comes from. */
  datatype Loaded = NotFound | External(path: string) | Embedded(path: string)

  /** `load`: `external` is absent without an external directory, and tells which
      files can be read there; `embedded` tells which files are built in. */
  function Load(request: string, external: Option<string -> bool>, useDist: bool, embedded: string -> bool): Loaded {
    if HasParentSegment(request) then
      NotFound
    else
      var path := AssetPath(request);
      if external.Some? && external.value(path) then
        External(path)
      else
        match SelectCandidate([DIST + path, path], useDist, embedded)
        case Some(candidate) => Embedded(candidate)
        case None => NotFound
  }

  const DIST: string := "dist/"

  predicate Allowed(candidate: string, useDist: bool) {
    useDist || !(DIST <= candidate)
  }

  /** `select_embedded_candidate`: filter, then find. */
  function SelectCandidate(candidates: seq<string>, useDist: bool, present: string -> bool): Option<string> {
    if candidates == [] then
      None
    else if Allowed(candidates[0], useDist) && present(candidates[0]) then
      Some(candidates[0])
    else
      SelectCandidate(candidates[1..], useDist, present)
  }

  /** Of two candidates the first one allowed and present is taken. */
  lemma SelectsFirst(one: string, two: string, useDist: bool, present: string -> bool)
    ensures SelectCandidate([one, two], useDist, present)
         == if Allowed(one, useDist) && present(one) then Some(one)
            else if Allowed(two, useDist) && present(two) then Some(two)
            else None
  {
    assert SelectCandidate([two], useDist, present)
        == if Allowed(two, useDist) && present(two) then Some(two) else None;
    assert [one, two][1..] == [two];
  }

  /** Whatever is served has no climbing segment; an external file hides embedded
      ones, a generated one hides the fallback, and without generated files none of
      their paths is served; nothing is found exactly if the request climbs or no
      file is there. */
  lemma LoadedIsContained(request: string, external: Option<string -> bool>, useDist: bool, embedded: string -> bool)
    ensures var path, loaded := AssetPath(request), Load(request, external, useDist, embedded);
            var outside, generated := external.Some? && external.value(path), useDist && embedded("dist/" + path);
            var fallback := (useDist || !("dist/" <= path)) && embedded(path);
            && (".." in Segments(request) ==> loaded == NotFound)
            && (".." !in Segments(request) ==>
                  && ".." !in Segments(path)
                  && loaded == if outside then External(path)
                               else if generated then Embedded("dist/" + path)
                               else if fallback then Embedded(path)
                               else NotFound)
  {
    var path := AssetPath(request);
    if !HasParentSegment(request) {
      AssetPathIsContained(request, []);
      SelectsFirst(DIST + path, path, useDist, embedded);
      assert "dist/" <= DIST + path;
    }
  }
}
