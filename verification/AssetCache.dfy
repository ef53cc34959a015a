/**
 Asset lookup through a cache of resolved paths, keyed by the lookup's settings and name.
 */
module AssetCache {
  import opened Basics

  const NUL := '\0'
  const MAX_CACHED := 5120

  datatype Asset = Asset(path: string, isOverlay: bool)

  /** The directories in force; an empty overlay directory is switched off. */
  datatype Settings = Settings(root: string, overlay: string, fontOverlay: string)

  // ---------------------------------------------------------------- names

  predicate StartsWith(s: string, prefix: string) {
    prefix <= s
  }

  predicate Contains(s: string, part: string) {
    exists i :: 0 <= i <= |s| && OccursAt(s, part, i)
  }

  predicate OccursAt(s: string, part: string, i: nat) {
    i + |part| <= |s| && s[i..i + |part|] == part
  }

  function StripAssetUriPrefix(path: string): string {
    if StartsWith(path, "file:///android_asset/") then path[|"file:///android_asset/"|..]
    else if StartsWith(path, "rbxasset://") then path[|"rbxasset://"|..]
    else path
  }

  function StripAndroidAssetPrefix(path: string): string {
    if StartsWith(path, "assets/") then path[7..]
    else if StartsWith(path, "content/") then path[8..]
    else path
  }

  predicate HasUnsafePathSegment(path: string) {
    || path == "" || path[0] == '/' || path == "." || path == ".."
    || Contains(path, "/../") || StartsWith(path, "../")
    || (|path| >= 3 && path[|path| - 3..] == "/..") || Contains(path, "//")
  }

  predicate NulFree(s: string) {
    NUL !in s
  }

  predicate NulFreeSettings(s: Settings) {
    NulFree(s.root) && NulFree(s.overlay) && NulFree(s.fontOverlay)
  }

  /** The environment variables a lookup reads; an empty one counts as unset. */
  datatype Environment = Environment(root: Option<string>, overlayDir: Option<string>,
                                     overlaySwitch: Option<string>, fontDir: Option<string>)

  /** The settings in force: switching the overlay off also switches off the font overlay. */
  function SettingsOf(env: Environment): Settings {
    var overlay := if env.overlaySwitch == Some("0") then ""
                   else if env.overlayDir.Some? then env.overlayDir.value else "rbx_bin/asset_overlay";
    Settings(if env.root.Some? then env.root.value else "rbx_bin/assets", overlay,
             if overlay == "" || env.fontDir.None? then "" else env.fontDir.value)
  }

  function Key(s: Settings, requested: string): string {
    s.root + [NUL] + (s.overlay + [NUL] + s.fontOverlay) + [NUL] + requested
  }

  // ---------------------------------------------------------------- the plain lookup

  datatype Directory = Directory(path: string, isOverlay: bool)

  /** The directories searched, in order: overlay, font overlay, root. */
  function Directories(s: Settings): (dirs: seq<Directory>)
    ensures 1 <= |dirs| <= 3
  {
    (if s.overlay == "" then [] else [Directory(s.overlay, true)])
    + (if s.fontOverlay == "" then [] else [Directory(s.fontOverlay, true)])
    + [Directory(s.root, false)]
  }

  const FORMS := 6

  /** The places a name is looked for inside one directory, in order: directly, under content
      and under ExtraContent, each with the name as given and without its prefix. */
  function Form(requested: string, k: nat): string {
    var name := if k % 2 == 0 then requested else StripAndroidAssetPrefix(requested);
    (if k < 2 then "/" else if k < 4 then "/content/" else "/ExtraContent/") + name
  }

  /** All candidates in order. */
  function Candidates(s: Settings, requested: string): (candidates: seq<Asset>)
    ensures candidates != []
  {
    var dirs := Directories(s);
    seq(FORMS * |dirs|, i requires 0 <= i < FORMS * |dirs| =>
      Asset(dirs[i / FORMS].path + Form(requested, i % FORMS), dirs[i / FORMS].isOverlay))
  }

  /** The first candidate that exists. */
  function FirstExisting(candidates: seq<Asset>, files: set<string>): (r: Option<Asset>)
    ensures r.Some? ==> r.value in candidates && r.value.path in files
    ensures r.None? ==> forall i :: 0 <= i < |candidates| ==> candidates[i].path !in files
  {
    if candidates == [] then None
    else if candidates[0].path in files then Some(candidates[0])
    else FirstExisting(candidates[1..], files)
  }

  function PlainLookup(s: Settings, requested: string, files: set<string>): Option<Asset> {
    FirstExisting(Candidates(s, requested), files)
  }

  // ---------------------------------------------------------------- keys do not collide

  lemma FirstNul(a: string, x: string)
    requires NulFree(a)
    ensures (a + [NUL] + x)[|a|] == NUL && forall i :: 0 <= i < |a| ==> (a + [NUL] + x)[i] != NUL
  {
    assert forall i :: 0 <= i < |a| ==> a[i] in a;
  }

  lemma SplitAtNul(a: string, x: string, b: string, y: string)
    requires NulFree(a) && NulFree(b) && a + [NUL] + x == b + [NUL] + y
    ensures a == b && x == y
  {
    FirstNul(a, x);
    FirstNul(b, y);
    var u := a + [NUL] + x;
    assert |a| == |b|;
    assert a == u[..|a|] && b == (b + [NUL] + y)[..|a|];
    assert x == u[|a| + 1..] && y == (b + [NUL] + y)[|a| + 1..];
  }

  /** Lookups with different settings or names never share a key. */
  lemma KeyInjective(s: Settings, requested: string, s': Settings, requested': string)
    requires NulFreeSettings(s) && NulFreeSettings(s')
    requires Key(s, requested) == Key(s', requested')
    ensures s == s' && requested == requested'
  {
    var rest := s.overlay + [NUL] + (s.fontOverlay + [NUL] + requested);
    var rest' := s'.overlay + [NUL] + (s'.fontOverlay + [NUL] + requested');
    assert Key(s, requested) == s.root + [NUL] + rest;
    assert Key(s', requested') == s'.root + [NUL] + rest';
    SplitAtNul(s.root, rest, s'.root, rest');
    SplitAtNul(s.overlay, s.fontOverlay + [NUL] + requested, s'.overlay, s'.fontOverlay + [NUL] + requested');
    SplitAtNul(s.fontOverlay, requested, s'.fontOverlay, requested');
  }

  // ---------------------------------------------------------------- the cached lookup

  type Cache = map<string, Asset>

  /** Stores a resolved asset, dropping `victim` first when a new key finds the cache full. */
  function Stored(cache: Cache, key: string, asset: Asset, victim: string): Cache {
    (if |cache| >= MAX_CACHED && key !in cache then cache - {victim} else cache)[key := asset]
  }

  /** What a lookup does with the cache, and its answer. */
  function LookupAmong(cache: Cache, key: string, candidates: seq<Asset>, files: set<string>, victim: string)
    : (r: (Cache, Option<Asset>))
  {
    if key in cache && cache[key].path in files then (cache, Some(cache[key]))
    else
      var cleared := cache - {key};
      var found := FirstExisting(candidates, files);
      if found.None? then (cleared, None) else (Stored(cleared, key, found.value, victim), found)
  }

  function Lookup(cache: Cache, s: Settings, requested: string, files: set<string>, victim: string)
    : (r: (Cache, Option<Asset>))
  {
    LookupAmong(cache, Key(s, requested), Candidates(s, requested), files, victim)
  }

  /** The cache entry is a candidate, and no candidate ahead of it exists. */
  ghost predicate EntryOk(candidates: seq<Asset>, asset: Asset, files: set<string>) {
    exists i :: FirstAt(candidates, asset, i) && NoneBefore(candidates, i, files)
  }

  /** `asset` first occurs at `i`. */
  ghost predicate FirstAt(candidates: seq<Asset>, asset: Asset, i: int) {
    0 <= i < |candidates| && candidates[i] == asset && asset !in candidates[..i]
  }

  ghost predicate NoneBefore(candidates: seq<Asset>, i: int, files: set<string>)
    requires 0 <= i <= |candidates|
  {
    forall j :: 0 <= j < i ==> candidates[j].path !in files
  }

  ghost predicate CacheOk(cache: Cache, files: set<string>) {
    && |cache| <= MAX_CACHED
    && forall s, requested :: NulFreeSettings(s) && Key(s, requested) in cache ==>
         EntryOk(Candidates(s, requested), cache[Key(s, requested)], files)
  }

  lemma {:induction false} FirstExistingAt(candidates: seq<Asset>, files: set<string>)
    requires FirstExisting(candidates, files).Some?
    ensures EntryOk(candidates, FirstExisting(candidates, files).value, files)
  {
    var asset := FirstExisting(candidates, files).value;
    if candidates[0].path in files {
      assert FirstAt(candidates, asset, 0) && NoneBefore(candidates, 0, files);
    } else {
      FirstExistingAt(candidates[1..], files);
      var i :| FirstAt(candidates[1..], asset, i) && NoneBefore(candidates[1..], i, files);
      assert candidates[0] != asset;
      assert candidates[..i + 1] == [candidates[0]] + candidates[1..][..i];
      forall j | 0 <= j < i + 1
        ensures candidates[j].path !in files
      {
        assert j > 0 ==> candidates[j] == candidates[1..][j - 1];
      }
      assert FirstAt(candidates, asset, i + 1) && NoneBefore(candidates, i + 1, files);
    }
  }

  /** An existing candidate is what the plain lookup finds exactly when no candidate ahead of
      its first place exists. */
  lemma {:induction false} ExistingIsFirst(candidates: seq<Asset>, asset: Asset, i: nat, files: set<string>)
    requires FirstAt(candidates, asset, i) && asset.path in files
    ensures FirstExisting(candidates, files) == Some(asset) <==> NoneBefore(candidates, i, files)
  {
    if i > 0 {
      assert candidates[0] in candidates[..i];
      assert candidates[1..][..i - 1] == candidates[..i][1..];
      ExistingIsFirst(candidates[1..], asset, i - 1, files);
      if candidates[0].path !in files {
        assert NoneBefore(candidates, i, files) <==> NoneBefore(candidates[1..], i - 1, files) by {
          assert forall j :: 0 <= j < i - 1 ==> candidates[1..][j] == candidates[j + 1];
          if NoneBefore(candidates[1..], i - 1, files) {
            forall j | 0 <= j < i
              ensures candidates[j].path !in files
            {
              assert j > 0 ==> candidates[1..][j - 1].path !in files;
            }
          }
        }
      }
    }
  }

  /** When may a lookup differ from the plain one?  Exactly when its key is cached, the cached
      file still exists, and a candidate ahead of it exists by now. */
  lemma LookupIsPlainExactlyWhen(cache: Cache, s: Settings, requested: string, files: set<string>, victim: string,
                                 i: nat)
    requires Key(s, requested) in cache ==> FirstAt(Candidates(s, requested), cache[Key(s, requested)], i)
    ensures var key := Key(s, requested);
            Lookup(cache, s, requested, files, victim).1 == PlainLookup(s, requested, files) <==>
            !(key in cache && cache[key].path in files && !NoneBefore(Candidates(s, requested), i, files))
  {
    var key := Key(s, requested);
    if key in cache && cache[key].path in files {
      ExistingIsFirst(Candidates(s, requested), cache[key], i, files);
    }
  }

  lemma LookupAgrees(cache: Cache, s: Settings, requested: string, files: set<string>, victim: string)
    requires CacheOk(cache, files) && NulFreeSettings(s)
    ensures Lookup(cache, s, requested, files, victim).1 == PlainLookup(s, requested, files)
  {
    var key := Key(s, requested);
    if key in cache {
      var i :| FirstAt(Candidates(s, requested), cache[key], i) && NoneBefore(Candidates(s, requested), i, files);
      LookupIsPlainExactlyWhen(cache, s, requested, files, victim, i);
    }
  }

  /** The victim is some other entry whenever one must go. */
  ghost predicate VictimOk(cache: Cache, key: string, victim: string) {
    |cache| >= MAX_CACHED && key !in cache ==> victim in cache
  }

  lemma StoredSize(cache: Cache, key: string, asset: Asset, victim: string)
    requires |cache| <= MAX_CACHED && VictimOk(cache, key, victim)
    ensures |Stored(cache, key, asset, victim)| <= MAX_CACHED
  {
    var kept := if |cache| >= MAX_CACHED && key !in cache then cache - {victim} else cache;
    if |cache| >= MAX_CACHED && key !in cache {
      assert kept.Keys == cache.Keys - {victim};
      assert |kept| == |kept.Keys| && |cache| == |cache.Keys|;
    }
    var stored := kept[key := asset];
    assert stored.Keys == kept.Keys + {key};
    assert |stored| == |stored.Keys| && |kept| == |kept.Keys|;
  }

  /** Storing an asset with nothing ahead of it keeps the cache right. */
  lemma StoredKeeps(cache: Cache, s: Settings, requested: string, asset: Asset, files: set<string>, victim: string)
    requires CacheOk(cache, files) && NulFreeSettings(s)
    requires EntryOk(Candidates(s, requested), asset, files) && VictimOk(cache, Key(s, requested), victim)
    ensures CacheOk(Stored(cache, Key(s, requested), asset, victim), files)
  {
    var key := Key(s, requested);
    StoredSize(cache, key, asset, victim);
    var stored := Stored(cache, key, asset, victim);
    forall s', requested' | NulFreeSettings(s') && Key(s', requested') in stored
      ensures EntryOk(Candidates(s', requested'), stored[Key(s', requested')], files)
    {
      if Key(s', requested') == key {
        KeyInjective(s', requested', s, requested);
      }
    }
  }

  lemma LookupKeeps(cache: Cache, s: Settings, requested: string, files: set<string>, victim: string)
    requires CacheOk(cache, files) && NulFreeSettings(s)
    requires VictimOk(cache - {Key(s, requested)}, Key(s, requested), victim)
    ensures CacheOk(Lookup(cache, s, requested, files, victim).0, files)
  {
    var key := Key(s, requested);
    if !(key in cache && cache[key].path in files) {
      FewerEntries(cache, key);
      if PlainLookup(s, requested, files).Some? {
        FirstExistingAt(Candidates(s, requested), files);
        StoredKeeps(cache - {key}, s, requested, PlainLookup(s, requested, files).value, files, victim);
      }
    }
  }

  lemma FewerEntries(cache: Cache, key: string)
    ensures |cache - {key}| <= |cache|
  {
    var rest := cache - {key};
    assert rest.Keys == cache.Keys - {key};
    assert |rest| == |rest.Keys| && |cache| == |cache.Keys|;
    assert cache.Keys == rest.Keys + (cache.Keys * {key});
  }

  lemma DeletionKeeps(cache: Cache, files: set<string>, fewer: set<string>)
    requires CacheOk(cache, files) && fewer <= files
    ensures CacheOk(cache, fewer)
  {
    forall s, requested | NulFreeSettings(s) && Key(s, requested) in cache
      ensures EntryOk(Candidates(s, requested), cache[Key(s, requested)], fewer)
    {
      var i :| FirstAt(Candidates(s, requested), cache[Key(s, requested)], i)
               && NoneBefore(Candidates(s, requested), i, files);
      assert NoneBefore(Candidates(s, requested), i, fewer);
    }
  }

  // ---------------------------------------------------------------- the object

  class AssetLookupCache {
    var resolvedPaths: Cache

    constructor ()
      ensures resolvedPaths == map[]
    {
      resolvedPaths := map[];
    }

    method CacheResolvedAsset(key: string, asset: Asset) returns (victim: string)
      modifies `resolvedPaths
      ensures VictimOk(old(resolvedPaths), key, victim)
      ensures resolvedPaths == Stored(old(resolvedPaths), key, asset, victim)
    {
      victim := key;
      if |resolvedPaths| >= MAX_CACHED && key !in resolvedPaths {
        SomeKey(resolvedPaths);
        victim :| victim in resolvedPaths.Keys;
        resolvedPaths := resolvedPaths - {victim};
      }
      resolvedPaths := resolvedPaths[key := asset];
    }

    /** `ResolveAssetPath`: unsafe names resolve to nothing and leave the cache alone. */
    method ResolveAssetPath(filename: Option<string>, env: Environment, files: set<string>)
      returns (r: Option<Asset>, ghost victim: string)
      modifies `resolvedPaths
      ensures var unsafe := filename.None? || HasUnsafePathSegment(StripAssetUriPrefix(filename.value));
              && (unsafe ==> r.None? && resolvedPaths == old(resolvedPaths))
              && (!unsafe ==>
                    var s, requested := SettingsOf(env), StripAssetUriPrefix(filename.value);
                    && VictimOk(old(resolvedPaths) - {Key(s, requested)}, Key(s, requested), victim)
                    && (resolvedPaths, r) == Lookup(old(resolvedPaths), s, requested, files, victim))
    {
      victim := "";
      if filename.None? {
        return None, victim;
      }
      var requested := StripAssetUriPrefix(filename.value);
      if HasUnsafePathSegment(requested) {
        return None, victim;
      }
      var s := SettingsOf(env);
      var key := Key(s, requested);
      if |resolvedPaths - {key}| >= MAX_CACHED {
        SomeKey(resolvedPaths - {key});
        victim :| victim in (resolvedPaths - {key}).Keys;
      }
      if key in resolvedPaths {
        if resolvedPaths[key].path in files {
          return Some(resolvedPaths[key]), victim;
        }
      }
      resolvedPaths := resolvedPaths - {key};
      r := Search(Candidates(s, requested), files);
      if r.Some? {
        victim := CacheResolvedAsset(key, r.value);
      }
    }
  }

  /** Tests the candidates in order. */
  method Search(candidates: seq<Asset>, files: set<string>) returns (r: Option<Asset>)
    ensures r == FirstExisting(candidates, files)
  {
    for i := 0 to |candidates|
      invariant FirstExisting(candidates[i..], files) == FirstExisting(candidates, files)
    {
      assert candidates[i..][0] == candidates[i] && candidates[i..][1..] == candidates[i + 1..];
      if candidates[i].path in files {
        return Some(candidates[i]);
      }
    }
    return None;
  }

  lemma SomeKey(cache: Cache)
    requires |cache| > 0
    ensures exists k :: k in cache.Keys
  {
    assert (forall k :: k !in cache.Keys) ==> cache.Keys == {};
    assert |cache| == |cache.Keys|;
  }

  // ---------------------------------------------------------------- every interleaving of lookups

  /** Where a lookup stands.  `at` records the files there were when its answer was decided. */
  datatype Progress =
    | Looking                                            // the locked look into the cache is next
    | Testing(next: nat)                                 // candidate `next` is tested next
    | Storing(asset: Asset, at: set<string>)             // the locked store is next
    | Returned(answer: Option<Asset>, at: set<string>)

  datatype Call = Call(settings: Settings, requested: string, progress: Progress)

  datatype World = World(cache: Cache, files: set<string>, calls: map<nat, Call>)

  /** Any number of lookups run at once, under settings of their own; files come and go. */
  datatype Action =
    | Begin(id: nat, settings: Settings, requested: string)
    | Look(id: nat)
    | Test(id: nat)
    | Store(id: nat, victim: string)
    | Delete(path: string)
    | Create(path: string)

  function CandidatesOf(c: Call): (candidates: seq<Asset>)
    ensures candidates != []
  {
    Candidates(c.settings, c.requested)
  }

  function KeyOf(c: Call): string {
    Key(c.settings, c.requested)
  }

  ghost predicate Enabled(w: World, a: Action) {
    match a
    case Begin(id, settings, _) => id !in w.calls && NulFreeSettings(settings)
    case Look(id) => id in w.calls && w.calls[id].progress.Looking?
    case Test(id) =>
      && id in w.calls && w.calls[id].progress.Testing?
      && w.calls[id].progress.next < |CandidatesOf(w.calls[id])|
    case Store(id, victim) =>
      id in w.calls && w.calls[id].progress.Storing? && VictimOk(w.cache, KeyOf(w.calls[id]), victim)
    case Delete(_) => true
    case Create(_) => true
  }

  function Advance(w: World, id: nat, p: Progress): World
    requires id in w.calls
  {
    w.(calls := w.calls[id := w.calls[id].(progress := p)])
  }

  /** What testing candidate `next` leads to. */
  function Tested(candidates: seq<Asset>, next: nat, files: set<string>): Progress
    requires next < |candidates|
  {
    if candidates[next].path in files then Storing(candidates[next], files)
    else if next + 1 < |candidates| then Testing(next + 1)
    else Returned(None, files)
  }

  ghost function Apply(w: World, a: Action): World
    requires Enabled(w, a)
  {
    match a
    case Begin(id, settings, requested) => w.(calls := w.calls[id := Call(settings, requested, Looking)])
    case Look(id) =>
      var key := KeyOf(w.calls[id]);
      if key in w.cache && w.cache[key].path in w.files then Advance(w, id, Returned(Some(w.cache[key]), w.files))
      else Advance(w, id, Testing(0)).(cache := w.cache - {key})
    case Test(id) => Advance(w, id, Tested(CandidatesOf(w.calls[id]), w.calls[id].progress.next, w.files))
    case Store(id, victim) =>
      var asset := w.calls[id].progress.asset;
      Advance(w, id, Returned(Some(asset), w.calls[id].progress.at)).(
        cache := Stored(w.cache, KeyOf(w.calls[id]), asset, victim))
    case Delete(path) => w.(files := w.files - {path})
    case Create(path) => w.(files := w.files + {path})
  }

  ghost predicate IsRun(w: World, acts: seq<Action>)
    decreases |acts|
  {
    acts == [] || (Enabled(w, acts[0]) && IsRun(Apply(w, acts[0]), acts[1..]))
  }

  ghost function After(w: World, acts: seq<Action>): World
    requires IsRun(w, acts)
    decreases |acts|
  {
    if acts == [] then w else After(Apply(w, acts[0]), acts[1..])
  }

  // ---------------------------------------------------------------- with files created

  /** What every run keeps of one lookup: what it found is a candidate that existed. */
  ghost predicate ProgressListed(candidates: seq<Asset>, p: Progress) {
    match p
    case Looking => true
    case Testing(next) => next < |candidates|
    case Storing(asset, at) => asset in candidates && asset.path in at
    case Returned(answer, at) => answer.Some? ==> answer.value in candidates && answer.value.path in at
  }

  ghost predicate CallListed(c: Call) {
    NulFreeSettings(c.settings) && ProgressListed(CandidatesOf(c), c.progress)
  }

  /** Every entry is one of its key's candidates. */
  ghost predicate CacheListed(cache: Cache) {
    && |cache| <= MAX_CACHED
    && forall s, requested :: NulFreeSettings(s) && Key(s, requested) in cache ==>
         cache[Key(s, requested)] in Candidates(s, requested)
  }

  ghost predicate WorldListed(w: World) {
    CacheListed(w.cache) && forall id :: id in w.calls ==> CallListed(w.calls[id])
  }

  lemma StoreListed(cache: Cache, s: Settings, requested: string, asset: Asset, victim: string)
    requires CacheListed(cache) && NulFreeSettings(s) && asset in Candidates(s, requested)
    requires VictimOk(cache, Key(s, requested), victim)
    ensures CacheListed(Stored(cache, Key(s, requested), asset, victim))
  {
    var key := Key(s, requested);
    StoredSize(cache, key, asset, victim);
    var stored := Stored(cache, key, asset, victim);
    forall s', requested' | NulFreeSettings(s') && Key(s', requested') in stored
      ensures stored[Key(s', requested')] in Candidates(s', requested')
    {
      if Key(s', requested') == key {
        KeyInjective(s', requested', s, requested);
      }
    }
  }

  lemma TestListed(c: Call, next: nat, files: set<string>)
    requires c.progress == Testing(next) && CallListed(c)
    ensures CallListed(c.(progress := Tested(CandidatesOf(c), next, files)))
  {
  }

  lemma AdvanceListed(w: World, id: nat, p: Progress)
    requires WorldListed(w) && id in w.calls && ProgressListed(CandidatesOf(w.calls[id]), p)
    ensures WorldListed(Advance(w, id, p))
  {
    assert CallListed(w.calls[id]);
  }

  lemma LookListed(w: World, id: nat)
    requires WorldListed(w) && Enabled(w, Look(id))
    ensures WorldListed(Apply(w, Look(id)))
  {
    var c := w.calls[id];
    assert CallListed(c);
    FewerEntries(w.cache, KeyOf(c));
    AdvanceListed(w.(cache := w.cache - {KeyOf(c)}), id, Testing(0));
  }

  lemma StoreStepListed(w: World, id: nat, victim: string)
    requires WorldListed(w) && Enabled(w, Store(id, victim))
    ensures WorldListed(Apply(w, Store(id, victim)))
  {
    var c := w.calls[id];
    var asset := c.progress.asset;
    assert CallListed(c);
    StoreListed(w.cache, c.settings, c.requested, asset, victim);
    AdvanceListed(w.(cache := Stored(w.cache, KeyOf(c), asset, victim)), id, Returned(Some(asset), c.progress.at));
  }

  lemma TestStepListed(w: World, id: nat)
    requires WorldListed(w) && Enabled(w, Test(id))
    ensures WorldListed(Apply(w, Test(id)))
  {
    assert CallListed(w.calls[id]);
    TestListed(w.calls[id], w.calls[id].progress.next, w.files);
    AdvanceListed(w, id, Tested(CandidatesOf(w.calls[id]), w.calls[id].progress.next, w.files));
  }

  lemma StepListed(w: World, a: Action)
    requires WorldListed(w) && Enabled(w, a)
    ensures WorldListed(Apply(w, a))
  {
    match a
    case Begin(_, _, _) =>
    case Look(id) => LookListed(w, id);
    case Test(id) => TestStepListed(w, id);
    case Store(id, victim) => StoreStepListed(w, id, victim);
    case Delete(_) =>
    case Create(_) =>
  }

  lemma {:induction false} RunListed(w: World, acts: seq<Action>)
    requires WorldListed(w) && IsRun(w, acts)
    ensures WorldListed(After(w, acts))
    decreases |acts|
  {
    if acts != [] {
      StepListed(w, acts[0]);
      RunListed(Apply(w, acts[0]), acts[1..]);
    }
  }

  /** The number of candidates that must not exist for `answer` to be the plain one. */
  ghost function Ahead(candidates: seq<Asset>, answer: Option<Asset>): (n: nat)
    requires answer.Some? ==> answer.value in candidates
    ensures if answer.Some? then FirstAt(candidates, answer.value, n) else n == |candidates|
  {
    if answer.None? then |candidates|
    else if candidates[0] == answer.value then 0
    else
      assert answer.value in candidates[1..];
      var n := Ahead(candidates[1..], answer);
      assert candidates[..n + 1] == [candidates[0]] + candidates[1..][..n];
      n + 1
  }

  lemma AnswerIsPlain(candidates: seq<Asset>, answer: Option<Asset>, files: set<string>)
    requires answer.Some? ==> answer.value in candidates && answer.value.path in files
    ensures FirstExisting(candidates, files) == answer <==> NoneBefore(candidates, Ahead(candidates, answer), files)
  {
    if answer.Some? {
      ExistingIsFirst(candidates, answer.value, Ahead(candidates, answer), files);
    } else if NoneBefore(candidates, |candidates|, files) {
      assert FirstExisting(candidates, files).None?;
    }
  }

  /** In every run of any number of lookups with evictions, setting changes, deletions and
      creations: a returned answer is the plain one for the files there were when it was
      decided exactly when no candidate ahead of it existed then.  The cache keeps its bound. */
  lemma AnswerIsPlainExactlyWhen(files: set<string>, acts: seq<Action>, id: nat)
    requires IsRun(World(map[], files, map[]), acts)
    ensures |After(World(map[], files, map[]), acts).cache| <= 5120
    ensures var w := After(World(map[], files, map[]), acts);
            id in w.calls && w.calls[id].progress.Returned? ==>
              var c := w.calls[id];
              var answer, at := c.progress.answer, c.progress.at;
              && (answer.Some? ==> answer.value in CandidatesOf(c))
              && (PlainLookup(c.settings, c.requested, at) == answer <==>
                  NoneBefore(CandidatesOf(c), Ahead(CandidatesOf(c), answer), at))
  {
    RunListed(World(map[], files, map[]), acts);
    var w := After(World(map[], files, map[]), acts);
    if id in w.calls && w.calls[id].progress.Returned? {
      var c := w.calls[id];
      assert CallListed(c);
      AnswerIsPlain(CandidatesOf(c), c.progress.answer, c.progress.at);
    }
  }

  // ---------------------------------------------------------------- without files created

  /** What runs without creations keep of one lookup: nothing ahead of where it stands exists,
      and what it returned was the plain answer. */
  ghost predicate ProgressOk(candidates: seq<Asset>, p: Progress, files: set<string>) {
    match p
    case Looking => true
    case Testing(next) => next < |candidates| && NoneBefore(candidates, next, files)
    case Storing(asset, at) => EntryOk(candidates, asset, files) && FirstExisting(candidates, at) == Some(asset)
    case Returned(answer, at) => FirstExisting(candidates, at) == answer
  }

  ghost predicate CallOk(c: Call, files: set<string>) {
    NulFreeSettings(c.settings) && ProgressOk(CandidatesOf(c), c.progress, files)
  }

  ghost predicate WorldOk(w: World) {
    CacheOk(w.cache, w.files) && forall id :: id in w.calls ==> CallOk(w.calls[id], w.files)
  }

  lemma {:induction false} FirstExistingIs(candidates: seq<Asset>, next: nat, files: set<string>)
    requires next < |candidates| && NoneBefore(candidates, next, files)
    ensures candidates[next].path in files ==>
              FirstExisting(candidates, files) == Some(candidates[next])
    ensures candidates[next].path !in files && next + 1 == |candidates| ==> FirstExisting(candidates, files) == None
    decreases next
  {
    if next > 0 {
      assert candidates[0].path !in files;
      assert forall j :: 0 <= j < next - 1 ==> candidates[1..][j] == candidates[j + 1];
      FirstExistingIs(candidates[1..], next - 1, files);
    }
  }

  lemma LookKeeps(w: World, id: nat)
    requires WorldOk(w) && Enabled(w, Look(id))
    ensures WorldOk(Apply(w, Look(id)))
  {
    var c := w.calls[id];
    FewerEntries(w.cache, KeyOf(c));
    assert CallOk(c, w.files);
    LookupAgrees(w.cache, c.settings, c.requested, w.files, "");
  }

  lemma TestedCandidate(candidates: seq<Asset>, next: nat, files: set<string>)
    requires next < |candidates| && NoneBefore(candidates, next, files)
    ensures ProgressOk(candidates, Tested(candidates, next, files), files)
  {
    FirstExistingIs(candidates, next, files);
    if candidates[next].path in files {
      FirstExistingAt(candidates, files);
    }
  }

  lemma TestedOk(c: Call, next: nat, files: set<string>)
    requires c.progress == Testing(next) && CallOk(c, files)
    ensures CallOk(c.(progress := Tested(CandidatesOf(c), next, files)), files)
  {
    TestedCandidate(CandidatesOf(c), next, files);
  }

  lemma TestKeeps(w: World, id: nat)
    requires WorldOk(w) && Enabled(w, Test(id))
    ensures WorldOk(Apply(w, Test(id)))
  {
    TestedOk(w.calls[id], w.calls[id].progress.next, w.files);
  }

  lemma StoreKeeps(w: World, id: nat, victim: string)
    requires WorldOk(w) && Enabled(w, Store(id, victim))
    ensures WorldOk(Apply(w, Store(id, victim)))
  {
    var c := w.calls[id];
    assert CallOk(c, w.files);
    StoredKeeps(w.cache, c.settings, c.requested, c.progress.asset, w.files, victim);
  }

  lemma EntryKept(candidates: seq<Asset>, asset: Asset, files: set<string>, fewer: set<string>)
    requires EntryOk(candidates, asset, files) && fewer <= files
    ensures EntryOk(candidates, asset, fewer)
  {
    var i :| FirstAt(candidates, asset, i) && NoneBefore(candidates, i, files);
    assert NoneBefore(candidates, i, fewer);
  }

  lemma DeleteKeeps(w: World, path: string)
    requires WorldOk(w)
    ensures WorldOk(Apply(w, Delete(path)))
  {
    var fewer := w.files - {path};
    DeletionKeeps(w.cache, w.files, fewer);
    forall id | id in w.calls
      ensures CallOk(w.calls[id], fewer)
    {
      var c := w.calls[id];
      assert CallOk(c, w.files);
      if c.progress.Storing? {
        EntryKept(CandidatesOf(c), c.progress.asset, w.files, fewer);
      }
    }
  }

  lemma StepKeeps(w: World, a: Action)
    requires WorldOk(w) && Enabled(w, a) && !a.Create?
    ensures WorldOk(Apply(w, a))
  {
    match a
    case Begin(_, _, _) =>
    case Look(id) => LookKeeps(w, id);
    case Test(id) => TestKeeps(w, id);
    case Store(id, victim) => StoreKeeps(w, id, victim);
    case Delete(path) => DeleteKeeps(w, path);
  }

  lemma {:induction false} RunKeeps(w: World, acts: seq<Action>)
    requires WorldOk(w) && IsRun(w, acts) && (forall i :: 0 <= i < |acts| ==> !acts[i].Create?)
    ensures WorldOk(After(w, acts))
    decreases |acts|
  {
    if acts != [] {
      StepKeeps(w, acts[0]);
      RunKeeps(Apply(w, acts[0]), acts[1..]);
    }
  }

  /** In every interleaving of any number of lookups with evictions, setting changes and file
      deletions, each answer is the path and overlay flag that the plain ordered search gives
      for the files there were when it was decided, and the cache is within its bound. */
  lemma CachedEqualsPlain(files: set<string>, acts: seq<Action>, id: nat)
    requires IsRun(World(map[], files, map[]), acts) && forall i :: 0 <= i < |acts| ==> !acts[i].Create?
    ensures var w := After(World(map[], files, map[]), acts);
            && |w.cache| <= 5120
            && (id in w.calls && w.calls[id].progress.Returned? ==>
                  var c := w.calls[id];
                  c.progress.answer == PlainLookup(c.settings, c.requested, c.progress.at))
  {
    RunKeeps(World(map[], files, map[]), acts);
    var w := After(World(map[], files, map[]), acts);
    assert id in w.calls ==> CallOk(w.calls[id], w.files);
  }

  // ---------------------------------------------------------------- an undisturbed lookup

  /** Where a search that tests candidates from `next` on ends up. */
  function Searched(candidates: seq<Asset>, next: nat, files: set<string>): Progress
    requires next <= |candidates|
  {
    var found := FirstExisting(candidates[next..], files);
    if found.Some? then Storing(found.value, files) else Returned(None, files)
  }

  lemma SearchedStep(candidates: seq<Asset>, next: nat, files: set<string>)
    requires next < |candidates|
    ensures var p := Tested(candidates, next, files);
            if p.Testing? then p == Testing(next + 1) && Searched(candidates, next + 1, files) == Searched(candidates, next, files)
            else p == Searched(candidates, next, files)
  {
    assert candidates[next..][0] == candidates[next] && candidates[next..][1..] == candidates[next + 1..];
  }

  /** The tests from `next` on, with nothing in between. */
  lemma {:induction false} TestsRun(w: World, id: nat, candidates: seq<Asset>, next: nat) returns (acts: seq<Action>)
    requires id in w.calls && w.calls[id].progress == Testing(next) && next < |candidates|
    requires CandidatesOf(w.calls[id]) == candidates
    ensures IsRun(w, acts) && After(w, acts) == Advance(w, id, Searched(candidates, next, w.files))
    decreases |candidates| - next
  {
    SearchedStep(candidates, next, w.files);
    var w' := Apply(w, Test(id));
    if w'.calls[id].progress.Testing? {
      var rest := TestsRun(w', id, candidates, next + 1);
      OverwriteCall(w, id, Testing(next + 1), Searched(candidates, next + 1, w.files));
      FirstStep(w, Test(id), rest);
      acts := [Test(id)] + rest;
    } else {
      assert IsRun(w', []) && After(w', []) == w';
      FirstStep(w, Test(id), []);
      acts := [Test(id)] + [];
    }
  }

  lemma FirstStep(w: World, a: Action, rest: seq<Action>)
    requires Enabled(w, a) && IsRun(Apply(w, a), rest)
    ensures IsRun(w, [a] + rest) && After(w, [a] + rest) == After(Apply(w, a), rest)
  {
    assert ([a] + rest)[0] == a && ([a] + rest)[1..] == rest;
  }

  lemma OverwriteCall(w: World, id: nat, p: Progress, q: Progress)
    requires id in w.calls
    ensures Advance(Advance(w, id, p), id, q) == Advance(w, id, q)
  {
  }

  lemma {:induction false} RunConcat(w: World, a: seq<Action>, b: seq<Action>)
    requires IsRun(w, a) && IsRun(After(w, a), b)
    ensures IsRun(w, a + b) && After(w, a + b) == After(After(w, a), b)
    decreases |a|
  {
    if a == [] {
      assert a + b == b;
    } else {
      RunConcat(Apply(w, a[0]), a[1..], b);
      assert (a + b)[1..] == a[1..] + b;
    }
  }

  lemma OneStep(w: World, acts: seq<Action>, a: Action)
    requires IsRun(w, acts) && Enabled(After(w, acts), a)
    ensures IsRun(w, acts + [a]) && After(w, acts + [a]) == Apply(After(w, acts), a)
  {
    var e := After(w, acts);
    assert [a][0] == a && [a][1..] == [] && After(Apply(e, a), []) == Apply(e, a);
    RunConcat(w, acts, [a]);
  }

  /** The tests and the store of a lookup that found nothing in the cache. */
  lemma SearchRun(w: World, id: nat, candidates: seq<Asset>, key: string, victim: string) returns (acts: seq<Action>)
    requires id in w.calls && w.calls[id].progress == Testing(0) && VictimOk(w.cache, key, victim)
    requires candidates == CandidatesOf(w.calls[id]) && key == KeyOf(w.calls[id])
    ensures IsRun(w, acts)
    ensures var found := FirstExisting(candidates, w.files);
            After(w, acts) == Advance(w, id, Returned(found, w.files)).(
              cache := if found.Some? then Stored(w.cache, key, found.value, victim) else w.cache)
  {
    acts := TestsRun(w, id, candidates, 0);
    assert candidates[0..] == candidates;
    var found := FirstExisting(candidates, w.files);
    if found.Some? {
      OneStep(w, acts, Store(id, victim));
      acts := acts + [Store(id, victim)];
      OverwriteCall(w, id, Storing(found.value, w.files), Returned(found, w.files));
    }
  }

  /** The look into the cache and all that follows. */
  lemma LookRun(w: World, id: nat, candidates: seq<Asset>, key: string, victim: string) returns (acts: seq<Action>)
    requires id in w.calls && w.calls[id].progress == Looking && VictimOk(w.cache - {key}, key, victim)
    requires candidates == CandidatesOf(w.calls[id]) && key == KeyOf(w.calls[id])
    ensures IsRun(w, acts)
    ensures var (cache, answer) := LookupAmong(w.cache, key, candidates, w.files, victim);
            After(w, acts) == Advance(w, id, Returned(answer, w.files)).(cache := cache)
  {
    var looked := Apply(w, Look(id));
    acts := [];
    if !(key in w.cache && w.cache[key].path in w.files) {
      acts := SearchRun(looked, id, candidates, key, victim);
      OverwriteCall(w, id, Testing(0), Returned(FirstExisting(candidates, w.files), w.files));
    }
    assert IsRun(looked, acts);
    FirstStep(w, Look(id), acts);
    acts := [Look(id)] + acts;
  }

  /** The steps of one lookup, with nothing in between, do what `Lookup` says. */
  lemma UndisturbedLookup(w: World, id: nat, s: Settings, requested: string, victim: string)
    returns (acts: seq<Action>)
    requires id !in w.calls && NulFreeSettings(s)
    requires VictimOk(w.cache - {Key(s, requested)}, Key(s, requested), victim)
    ensures IsRun(w, acts)
    ensures var (cache, answer) := Lookup(w.cache, s, requested, w.files, victim);
            After(w, acts) ==
            w.(cache := cache, calls := w.calls[id := Call(s, requested, Returned(answer, w.files))])
  {
    var begin := Begin(id, s, requested);
    var look := LookRun(Apply(w, begin), id, Candidates(s, requested), Key(s, requested), victim);
    FirstStep(w, begin, look);
    acts := [begin] + look;
  }

  /** Creating files is different: an overlay file added after a root file was cached is not
      seen. */
  lemma CreationGoesUnseen()
    ensures var s := Settings("r", "o", "");
            var cache := Lookup(map[], s, "a", {"r/a"}, "").0;
            && Lookup(cache, s, "a", {"r/a", "o/a"}, "").1 == Some(Asset("r/a", false))
            && PlainLookup(s, "a", {"r/a", "o/a"}) == Some(Asset("o/a", true))
  {
    var s := Settings("r", "o", "");
    var candidates := Candidates(s, "a");
    assert StripAndroidAssetPrefix("a") == "a";
    assert Directories(s) == [Directory("o", true), Directory("r", false)];
    assert candidates[0] == Asset("o/a", true) && candidates[6] == Asset("r/a", false);
    forall j | 0 <= j < 6
      ensures candidates[j].isOverlay && candidates[j].path !in {"r/a"}
    {
      assert candidates[j].path[0] == 'o';
    }
    assert FirstAt(candidates, Asset("r/a", false), 6);
    ExistingIsFirst(candidates, Asset("r/a", false), 6, {"r/a"});
    ExistingIsFirst(candidates, Asset("o/a", true), 0, {"r/a", "o/a"});
  }
}
