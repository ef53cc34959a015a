/**
 What asset names and settings mean for a lookup: which names are refused, which places are
 searched and in which order, and that a found asset is remembered.
 */
module AssetLaws {
  import opened Basics
  import opened AssetCache

  // ---------------------------------------------------------------- refused names

  /** The parts of a path between its slashes. */
  function Segments(path: string): (parts: seq<string>)
    ensures parts != []
    decreases |path|
  {
    if path == "" then [""]
    else
      var rest := Segments(path[1..]);
      if path[0] == '/' then [""] + rest else [[path[0]] + rest[0]] + rest[1..]
  }

  /** A path climbs out of its directory, or has an empty part that is not its last. */
  ghost predicate Strays(path: string) {
    var parts := Segments(path);
    ".." in parts || exists i :: 0 <= i < |parts| - 1 && parts[i] == ""
  }

  /** `s` is, or starts with and goes on behind a slash, `part`. */
  predicate FirstPartIs(s: string, part: string) {
    part <= s && (|s| == |part| || s[|part|] == '/')
  }

  lemma {:induction false} FirstSegment(path: string, part: string)
    requires '/' !in part
    ensures Segments(path)[0] == part <==> FirstPartIs(path, part)
    ensures |Segments(path)| == 1 <==> '/' !in path
    decreases |path|
  {
    if path != "" {
      FirstSegment(path[1..], if part == "" then "" else part[1..]);
      assert path == [path[0]] + path[1..];
      assert part != "" ==> part == [part[0]] + part[1..];
      if part != "" && path[0] != '/' {
        assert FirstPartIs(path, part) <==> path[0] == part[0] && FirstPartIs(path[1..], part[1..]);
        var first := Segments(path[1..])[0];
        assert ([path[0]] + first)[0] == path[0] && ([path[0]] + first)[1..] == first;
      }
    }
  }

  lemma OccursLater(path: string, part: string)
    requires path != ""
    ensures Contains(path, part) <==> part <= path || Contains(path[1..], part)
  {
    if Contains(path, part) {
      var i :| 0 <= i <= |path| && OccursAt(path, part, i);
      if i > 0 {
        assert path[1..][i - 1..i - 1 + |part|] == path[i..i + |part|];
        assert OccursAt(path[1..], part, i - 1);
      }
    }
    if part <= path {
      assert OccursAt(path, part, 0);
    }
    if Contains(path[1..], part) {
      var i :| 0 <= i <= |path| - 1 && OccursAt(path[1..], part, i);
      assert path[i + 1..i + 1 + |part|] == path[1..][i..i + |part|];
      assert OccursAt(path, part, i + 1);
    }
  }

  /** A `..` part behind a slash. */
  ghost predicate ClimbsLater(path: string) {
    Contains(path, "/../") || EndsClimbing(path)
  }

  lemma {:induction false} ClimbsExactly(path: string)
    ensures ".." in Segments(path) <==> FirstPartIs(path, "..") || ClimbsLater(path)
    ensures ".." in Segments(path)[1..] <==> ClimbsLater(path)
    decreases |path|
  {
    FirstSegment(path, "..");
    if path != "" {
      var rest := path[1..];
      ClimbsExactly(rest);
      OccursLater(path, "/../");
      ClimbsStep(path);
      SegmentsStep(path);
    }
  }

  lemma SegmentsStep(path: string)
    requires path != ""
    ensures Segments(path)[1..] == if path[0] == '/' then Segments(path[1..]) else Segments(path[1..])[1..]
    ensures ".." in Segments(path) <==> Segments(path)[0] == ".." || ".." in Segments(path)[1..]
  {
    var parts := Segments(path);
    assert parts == [parts[0]] + parts[1..];
  }

  predicate EndsClimbing(path: string) {
    |path| >= 3 && path[|path| - 3..] == "/.."
  }

  lemma EndsClimbingStep(path: string)
    requires path != ""
    ensures EndsClimbing(path) <==> EndsClimbing(path[1..]) || path == "/.."
  {
    assert |path| > 3 ==> path[|path| - 3..] == path[1..][|path| - 4..];
    assert |path| == 3 ==> path[0..] == path;
  }

  lemma StartsClimbing(path: string)
    requires path != ""
    ensures "/../" <= path || path == "/.." <==> path[0] == '/' && FirstPartIs(path[1..], "..")
  {
    var rest := path[1..];
    assert path == [path[0]] + rest;
    assert "/../" == "/" + "../" && "/.." == "/" + "..";
    if path[0] == '/' && FirstPartIs(rest, "..") && |rest| > 2 {
      assert rest[..2] == ".." && path[..4] == "/../";
    }
  }

  lemma ClimbsStep(path: string)
    requires path != ""
    ensures ClimbsLater(path) <==> ClimbsLater(path[1..]) || (path[0] == '/' && FirstPartIs(path[1..], ".."))
  {
    OccursLater(path, "/../");
    EndsClimbingStep(path);
    StartsClimbing(path);
  }

  /** An empty part that is not the last. */
  ghost predicate HasEmpty(parts: seq<string>) {
    exists i :: 0 <= i < |parts| - 1 && parts[i] == ""
  }

  lemma EmptyFirst(parts: seq<string>)
    requires parts != []
    ensures HasEmpty(parts) <==> |parts| > 1 && (parts[0] == "" || HasEmpty(parts[1..]))
  {
    if |parts| > 1 && HasEmpty(parts[1..]) {
      var i :| 0 <= i < |parts[1..]| - 1 && parts[1..][i] == "";
      assert parts[i + 1] == "";
    }
    if HasEmpty(parts) {
      var i :| 0 <= i < |parts| - 1 && parts[i] == "";
      assert i > 0 ==> parts[1..][i - 1] == "";
    }
  }

  /** A slash with nothing before it, or two in a row. */
  predicate DoubledSlash(path: string) {
    (path != "" && path[0] == '/') || Contains(path, "//")
  }

  lemma {:induction false} EmptyExactly(path: string)
    ensures HasEmpty(Segments(path)) <==> DoubledSlash(path)
    ensures HasEmpty(Segments(path)[1..]) <==> Contains(path, "//")
    decreases |path|
  {
    EmptyFirst(Segments(path));
    FirstSegment(path, "");
    if path == "" {
      assert !Contains("", "//");
    } else {
      EmptyExactly(path[1..]);
      OccursLater(path, "//");
      SegmentsStep(path);
      FirstSegment(path[1..], "");
      EmptyFirst(Segments(path[1..]));
      assert "//" <= path <==> path[0] == '/' && path[1..] != "" && path[1] == '/';
    }
  }

  /** A name is refused exactly when it is empty, a single dot, climbs with a `..` part, or has
      an empty part ahead of its last. */
  lemma RefusedExactlyWhen(path: string)
    ensures HasUnsafePathSegment(path) <==> path == "" || path == "." || Strays(path)
  {
    ClimbsExactly(path);
    EmptyExactly(path);
    assert FirstPartIs(path, "..") <==> path == ".." || "../" <= path;
  }

  // ---------------------------------------------------------------- where a name is looked for

  lemma UriPrefixes(rest: string)
    ensures StripAssetUriPrefix("rbxasset://" + rest) == rest
    ensures StripAssetUriPrefix("file:///android_asset/" + rest) == rest
  {
    var a, b := "rbxasset://" + rest, "file:///android_asset/" + rest;
    assert a[0] == 'r' && b[0] == 'f';
    assert a[|"rbxasset://"|..] == rest && b[|"file:///android_asset/"|..] == rest;
  }

  lemma DirectoryPrefixes(rest: string)
    ensures StripAndroidAssetPrefix("assets/" + rest) == rest
    ensures StripAndroidAssetPrefix("content/" + rest) == rest
  {
    var a, b := "assets/" + rest, "content/" + rest;
    assert a[0] == 'a' && b[0] == 'c';
    assert a[7..] == rest && b[8..] == rest;
  }

  /** The six places inside one directory, in order. */
  function Inside(dir: string, requested: string, isOverlay: bool): seq<Asset> {
    var stripped := StripAndroidAssetPrefix(requested);
    [Asset(dir + "/" + requested, isOverlay), Asset(dir + "/" + stripped, isOverlay),
     Asset(dir + "/content/" + requested, isOverlay), Asset(dir + "/content/" + stripped, isOverlay),
     Asset(dir + "/ExtraContent/" + requested, isOverlay), Asset(dir + "/ExtraContent/" + stripped, isOverlay)]
  }

  lemma DirectoryPlaces(s: Settings, requested: string, d: nat)
    requires d < |Directories(s)|
    ensures |Candidates(s, requested)| == 6 * |Directories(s)|
    ensures var dir := Directories(s)[d];
            Candidates(s, requested)[6 * d..6 * d + 6] == Inside(dir.path, requested, dir.isOverlay)
  {
    var dirs, candidates := Directories(s), Candidates(s, requested);
    var places := Inside(dirs[d].path, requested, dirs[d].isOverlay);
    forall k | 0 <= k < 6
      ensures candidates[6 * d + k] == places[k]
    {
      assert (6 * d + k) / 6 == d && (6 * d + k) % 6 == k;
      FormInside(dirs[d], requested, k);
    }
  }

  function Joined(dirs: seq<Directory>, requested: string): (places: seq<Asset>)
    ensures |places| == 6 * |dirs|
  {
    if dirs == [] then []
    else
      var n := |dirs| - 1;
      Joined(dirs[..n], requested) + Inside(dirs[n].path, requested, dirs[n].isOverlay)
  }

  lemma {:induction false} CandidatesJoined(s: Settings, requested: string, n: nat)
    requires n <= |Directories(s)|
    ensures |Candidates(s, requested)| == 6 * |Directories(s)|
    ensures Candidates(s, requested)[..6 * n] == Joined(Directories(s)[..n], requested)
  {
    var candidates, dirs := Candidates(s, requested), Directories(s);
    if n > 0 {
      var m: nat := n - 1;
      CandidatesJoined(s, requested, m);
      DirectoryPlaces(s, requested, m);
      OneMoreSlice(candidates, 6 * m, 6 * n);
      assert dirs[..n][..m] == dirs[..m] && dirs[..n][m] == dirs[m];
    }
  }

  lemma OneMoreSlice<T>(s: seq<T>, i: nat, j: nat)
    requires i <= j <= |s|
    ensures s[..j] == s[..i] + s[i..j]
  {
  }

  /** The candidates are the six places of one directory after another. */
  lemma CandidatesInOrder(s: Settings, requested: string)
    ensures Candidates(s, requested) == Joined(Directories(s), requested)
  {
    var dirs, candidates := Directories(s), Candidates(s, requested);
    CandidatesJoined(s, requested, |dirs|);
    assert dirs[..|dirs|] == dirs && candidates[..|candidates|] == candidates;
  }

  /** The overlay comes first, then the font overlay, then the root; an overlay that is
      switched off is not searched. */
  lemma DirectoriesInOrder(root: string, overlay: string, fonts: string)
    ensures Directories(Settings(root, "", "")) == [Directory(root, false)]
    ensures overlay != "" ==>
              Directories(Settings(root, overlay, "")) == [Directory(overlay, true), Directory(root, false)]
    ensures fonts != "" ==>
              Directories(Settings(root, "", fonts)) == [Directory(fonts, true), Directory(root, false)]
    ensures overlay != "" && fonts != "" ==>
              Directories(Settings(root, overlay, fonts)) ==
              [Directory(overlay, true), Directory(fonts, true), Directory(root, false)]
  {
  }

  lemma FormInside(dir: Directory, requested: string, k: nat)
    requires k < 6
    ensures Asset(dir.path + Form(requested, k), dir.isOverlay) == Inside(dir.path, requested, dir.isOverlay)[k]
  {
    var name := if k % 2 == 0 then requested else StripAndroidAssetPrefix(requested);
    assert dir.path + ("/" + name) == dir.path + "/" + name;
    assert dir.path + ("/content/" + name) == dir.path + "/content/" + name;
    assert dir.path + ("/ExtraContent/" + name) == dir.path + "/ExtraContent/" + name;
  }

  /** Without environment variables the stock directories are searched; a switch of "0" leaves
      the root alone, fonts included; unset or any other, it leaves the overlay on. */
  lemma EnvironmentMeans(env: Environment)
    ensures env == Environment(None, None, None, None) ==>
              SettingsOf(env) == Settings("rbx_bin/assets", "rbx_bin/asset_overlay", "")
    ensures env.overlaySwitch == Some("0") ==> Directories(SettingsOf(env)) == [Directory(SettingsOf(env).root, false)]
    ensures env.overlaySwitch != Some("0") && env.overlayDir.Some? ==> SettingsOf(env).overlay == env.overlayDir.value
    ensures env.root.Some? ==> SettingsOf(env).root == env.root.value
    ensures env.fontDir.Some? && SettingsOf(env).overlay != "" ==> SettingsOf(env).fontOverlay == env.fontDir.value
  {
  }

  // ---------------------------------------------------------------- remembering

  /** Storing keeps every other entry, but for the victim of a full cache. */
  lemma StoredKeepsOthers(cache: Cache, key: string, asset: Asset, victim: string, k: string)
    requires k != key
    ensures var cache' := Stored(cache, key, asset, victim);
            && (k in cache' ==> k in cache && cache'[k] == cache[k])
            && (k in cache && k !in cache' ==> k == victim && |cache| >= MAX_CACHED)
  {
  }

  /** A found asset is stored under its key; every other entry stays, but for the victim of a
      full cache.  A lookup that finds nothing forgets its key only. */
  lemma LookupRemembers(cache: Cache, key: string, candidates: seq<Asset>, files: set<string>, victim: string, k: string)
    ensures var (cache', answer) := LookupAmong(cache, key, candidates, files, victim);
            && (answer.Some? ==> key in cache' && cache'[key] == answer.value && answer.value.path in files)
            && (answer.None? ==> cache' == cache - {key})
            && (k != key && k in cache' ==> k in cache && cache'[k] == cache[k])
            && (k != key && k in cache && k !in cache' ==> k == victim && |cache - {key}| >= MAX_CACHED)
  {
    var found := FirstExisting(candidates, files);
    if found.Some? && k != key {
      StoredKeepsOthers(cache - {key}, key, found.value, victim, k);
    }
  }
}
