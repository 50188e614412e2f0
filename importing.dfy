/** The lazy importer of packages/load.go: NewImporter, Importer.Import,
    loadPkgExport and Load. Opening and decoding an export-data artifact,
    and producing the artifacts (loadDeps), are functions supplied by the
    caller. */
module Importing {
  import opened Outcome
  import opened GoPath
  import opened GoTypes
  import opened Listing

  /** The outcome of opening an artifact and running gcexportdata on it:
      a package, or a failure reason; either way the decoder may have put
      the packages it resolved on the way into the shared cache (`added`). */
  datatype Decoding =
    | Decoded(pkg: Package, added: map<string, Package>)
    | Failed(reason: string, added: map<string, Package>)

  /** (artifact file, import path, current cache) to the decoder's outcome. */
  type Decoder = (string, string, map<string, Package>) -> Decoding

  /** loadDeps: (scratch directory, import paths) to the artifact of each path. */
  type DepsLoader = (string, seq<string>) -> Result<map<string, string>>

  /** The scratch directory handed to loadDeps (getTempDir). */
  function TempDir(conf: Config): string {
    Join(conf.modRoot, ".gop/_dummy")
  }

  /** A cache entry Import may return without decoding. */
  predicate IsLoaded(cache: map<string, Package>, path: string) {
    path in cache && cache[path].complete
  }

  /** The cache NewImporter builds: the caller's entries, or none, with
      "unsafe" set to types.Unsafe. */
  function Seeded(entries: map<string, Package>): (c: map<string, Package>)
    ensures IsLoaded(c, "unsafe") && c["unsafe"] == Unsafe
    ensures forall p :: p != "unsafe" ==> (p in c <==> p in entries) && (p in entries ==> c[p] == entries[p])
  {
    entries["unsafe" := Unsafe]
  }

  /** What one Import of `path` returns and what the cache holds afterwards. */
  function ImportStep(cache: map<string, Package>, artifacts: map<string, string>, decode: Decoder,
                      path: string): (Result<Package>, map<string, Package>)
  {
    if IsLoaded(cache, path) then (Ok(cache[path]), cache)
    else if path in artifacts then
      var d := decode(artifacts[path], path, cache);
      (if d.Decoded? then Ok(d.pkg) else Err(DecodeFailed(d.reason)), cache + d.added)
    else (Err(NotExist), cache)
  }

  /** The state of Load after importing a prefix of the paths. */
  datatype ImportRun = ImportRun(done: seq<Package>, cache: map<string, Package>, err: Option<Error>)

  /** Import each path in order, stopping at the first error; `done` holds
      the packages of the paths imported successfully. */
  function ImportAll(cache: map<string, Package>, artifacts: map<string, string>, decode: Decoder,
                     paths: seq<string>): (r: ImportRun)
    ensures r.err.None? ==> |r.done| == |paths|
    ensures r.err.Some? ==> |r.done| < |paths|
    decreases |paths|
  {
    if paths == [] then ImportRun([], cache, None)
    else
      var prev := ImportAll(cache, artifacts, decode, paths[..|paths| - 1]);
      if prev.err.Some? then prev
      else
        var (res, cache') := ImportStep(prev.cache, artifacts, decode, paths[|paths| - 1]);
        if res.Ok? then ImportRun(prev.done + [res.value], cache', None)
        else ImportRun(prev.done, cache', Some(res.error))
  }

  class Importer {
    const pkgs: map<string, string>
    const loaded: PackageCache
    const decode: Decoder

    constructor (pkgs: map<string, string>, loaded: PackageCache, decode: Decoder)
      ensures this.pkgs == pkgs && this.loaded == loaded && this.decode == decode
    {
      this.pkgs := pkgs;
      this.loaded := loaded;
      this.decode := decode;
    }

    /** Import: a complete cached package is returned as is; otherwise a
        path with an artifact is decoded; any other path is ENOENT. */
    method Import(pkgPath: string) returns (r: Result<Package>)
      modifies loaded
      ensures IsLoaded(old(loaded.entries), pkgPath) ==>
                r == Ok(old(loaded.entries)[pkgPath]) && loaded.entries == old(loaded.entries)
      ensures !IsLoaded(old(loaded.entries), pkgPath) && pkgPath in pkgs ==>
                var d := decode(pkgs[pkgPath], pkgPath, old(loaded.entries));
                r == (if d.Decoded? then Ok(d.pkg) else Err(DecodeFailed(d.reason))) &&
                loaded.entries == old(loaded.entries) + d.added
      ensures !IsLoaded(old(loaded.entries), pkgPath) && pkgPath !in pkgs ==>
                r == Err(NotExist) && loaded.entries == old(loaded.entries)
      ensures (r, loaded.entries) == ImportStep(old(loaded.entries), pkgs, decode, pkgPath)
    {
      if pkgPath in loaded.entries && loaded.entries[pkgPath].complete {
        return Ok(loaded.entries[pkgPath]);
      }
      if pkgPath in pkgs {
        r := LoadPkgExport(pkgs[pkgPath], pkgPath);
        return;
      }
      return Err(NotExist);
    }

    /** The loop of Load: import `paths` in order into a slice of the same
        length, stopping at the first error. */
    method ImportEach(paths: seq<string>) returns (pkgs: array<Option<Package>>, err: Option<Error>)
      modifies loaded
      ensures fresh(pkgs)
      ensures var run := ImportAll(old(loaded.entries), this.pkgs, decode, paths);
              err == run.err && pkgs[..] == Slots(run.done, |paths|) && loaded.entries == run.cache
    {
      ghost var start := loaded.entries;
      ghost var done: seq<Package> := [];
      err := None;
      pkgs := new Option<Package>[|paths|](_ => None);
      assert pkgs[..] == Slots([], |paths|);
      for i := 0 to |paths|
        invariant fresh(pkgs) && pkgs.Length == |paths|
        invariant err == None
        invariant ImportAll(start, this.pkgs, decode, paths[..i]) == ImportRun(done, loaded.entries, None)
        invariant |done| == i && pkgs[..] == Slots(done, |paths|)
      {
        ImportAllSnoc(start, this.pkgs, decode, paths, i);
        var r := Import(paths[i]);
        if r.Err? {
          err := Some(r.error);
          ImportAllStopsAtError(start, this.pkgs, decode, paths, i + 1);
          return;
        }
        SlotsFill(done, r.value, |paths|);
        pkgs[i] := Some(r.value);
        done := done + [r.value];
      }
      assert paths[..|paths|] == paths;
    }

    /** loadPkgExport: decode artifact `expfile` against the shared cache. */
    method LoadPkgExport(expfile: string, pkgPath: string) returns (r: Result<Package>)
      modifies loaded
      ensures var d := decode(expfile, pkgPath, old(loaded.entries));
              r == (if d.Decoded? then Ok(d.pkg) else Err(DecodeFailed(d.reason))) &&
              loaded.entries == old(loaded.entries) + d.added
    {
      var d := decode(expfile, pkgPath, loaded.entries);
      loaded.entries := loaded.entries + d.added;
      if d.Decoded? {
        r := Ok(d.pkg);
      } else {
        r := Err(DecodeFailed(d.reason));
      }
    }
  }

  /** NewImporter: resolve the patterns, obtain their artifacts and build an
      importer over the caller's cache (or a fresh one) with "unsafe" seeded. */
  method NewImporter(conf: Config, host: Host, loadDeps: DepsLoader, decode: Decoder, patterns: seq<string>)
    returns (p: Importer?, pkgPaths: seq<string>, err: Option<Error>)
    modifies if conf.loaded != null then {conf.loaded} else {}
    ensures var (listed, listErr) := ListFrom(conf, host, ModRoot(conf, host), patterns);
            pkgPaths == listed &&
            (listErr.Some? ==> p == null && err == listErr) &&
            (listErr.None? && loadDeps(TempDir(conf), listed).Err? ==>
               p == null && err == Some(loadDeps(TempDir(conf), listed).error)) &&
            (listErr.None? && loadDeps(TempDir(conf), listed).Ok? ==>
               p != null && err.None? && p.pkgs == loadDeps(TempDir(conf), listed).value && p.decode == decode)
    ensures p != null ==>
              (conf.loaded != null ==> p.loaded == conf.loaded) &&
              (conf.loaded == null ==> fresh(p.loaded)) &&
              p.loaded.entries == Seeded(if conf.loaded != null then old(conf.loaded.entries) else map[])
    ensures p == null && conf.loaded != null ==> conf.loaded.entries == old(conf.loaded.entries)
  {
    pkgPaths, err := List(conf, host, patterns);
    if err.Some? {
      return null, pkgPaths, err;
    }
    var deps := loadDeps(TempDir(conf), pkgPaths);
    if deps.Err? {
      return null, pkgPaths, Some(deps.error);
    }
    var loaded := conf.loaded;
    if loaded == null {
      loaded := new PackageCache(map[]);
    }
    loaded.entries := loaded.entries["unsafe" := Unsafe];
    p := new Importer(deps.value, loaded, decode);
  }

  /** The slice Load returns for a path list of length n after filling in
      `done`: those packages first, nil after them. */
  function Slots(done: seq<Package>, n: nat): (s: seq<Option<Package>>)
    requires |done| <= n
    ensures |s| == n
    ensures forall k :: 0 <= k < n ==> s[k] == if k < |done| then Some(done[k]) else None
  {
    seq(n, k requires 0 <= k < n => if k < |done| then Some(done[k]) else None)
  }

  /** Load: import every resolved path in order into a slice as long as the
      path list; the first failing Import ends the loop, leaving nil at its
      position and after it. */
  method Load(conf: Config, host: Host, loadDeps: DepsLoader, decode: Decoder, patterns: seq<string>)
    returns (pkgs: array?<Option<Package>>, err: Option<Error>)
    modifies if conf.loaded != null then {conf.loaded} else {}
    ensures var (listed, listErr) := ListFrom(conf, host, ModRoot(conf, host), patterns);
            var deps := loadDeps(TempDir(conf), listed);
            (listErr.Some? ==> pkgs == null && err == listErr) &&
            (listErr.None? && deps.Err? ==> pkgs == null && err == Some(deps.error)) &&
            (listErr.None? && deps.Ok? ==>
               var run := ImportAll(Seeded(if conf.loaded != null then old(conf.loaded.entries) else map[]),
                                    deps.value, decode, listed);
               pkgs != null && fresh(pkgs) && err == run.err &&
               pkgs[..] == Slots(run.done, |listed|) &&
               (conf.loaded != null ==> conf.loaded.entries == run.cache))
    ensures pkgs == null && conf.loaded != null ==> conf.loaded.entries == old(conf.loaded.entries)
  {
    var p, pkgPaths;
    p, pkgPaths, err := NewImporter(conf, host, loadDeps, decode, patterns);
    if err.Some? {
      return null, err;
    }
    pkgs, err := p.ImportEach(pkgPaths);
  }

  lemma SlotsFill(done: seq<Package>, pkg: Package, n: nat)
    requires |done| < n
    ensures Slots(done, n)[|done| := Some(pkg)] == Slots(done + [pkg], n)
  {
  }

  /** One more step of Load's loop. */
  lemma ImportAllSnoc(cache: map<string, Package>, artifacts: map<string, string>, decode: Decoder,
                      paths: seq<string>, i: nat)
    requires i < |paths|
    requires ImportAll(cache, artifacts, decode, paths[..i]).err.None?
    ensures var prev := ImportAll(cache, artifacts, decode, paths[..i]);
            var (res, cache') := ImportStep(prev.cache, artifacts, decode, paths[i]);
            ImportAll(cache, artifacts, decode, paths[..i + 1]) ==
              if res.Ok? then ImportRun(prev.done + [res.value], cache', None)
              else ImportRun(prev.done, cache', Some(res.error))
  {
    assert paths[..i + 1][..i] == paths[..i];
  }

  // ---------------------------------------------------------------------
  // Properties of Import

  /** A complete cached package short-circuits Import: neither the artifact
      map nor the decoder is consulted, and the cache stays as it is. */
  lemma CompleteEntryReturned(cache: map<string, Package>, artifacts: map<string, string>, decode: Decoder,
                              artifacts': map<string, string>, decode': Decoder, path: string)
    requires IsLoaded(cache, path)
    ensures ImportStep(cache, artifacts, decode, path) == (Ok(cache[path]), cache)
    ensures ImportStep(cache, artifacts, decode, path) == ImportStep(cache, artifacts', decode', path)
  {
  }

  /** ENOENT is reported exactly for a path that is neither loaded nor has
      an artifact; a decode failure is always a different error. */
  lemma NotExistExactly(cache: map<string, Package>, artifacts: map<string, string>, decode: Decoder, path: string)
    ensures ImportStep(cache, artifacts, decode, path).0 == Err(NotExist)
            <==> !IsLoaded(cache, path) && path !in artifacts
    ensures ImportStep(cache, artifacts, decode, path).0.Err? &&
            ImportStep(cache, artifacts, decode, path).0.error != NotExist
            ==> !IsLoaded(cache, path) && path in artifacts &&
                decode(artifacts[path], path, cache).Failed?
  {
  }

  /** Import itself writes nothing into the cache: every change comes from
      the decoder, and only when the path was decoded. */
  lemma ImportOnlyDecoderWrites(cache: map<string, Package>, artifacts: map<string, string>, decode: Decoder,
                                path: string)
    ensures var c' := ImportStep(cache, artifacts, decode, path).1;
            c' == cache ||
            (!IsLoaded(cache, path) && path in artifacts &&
             c' == cache + decode(artifacts[path], path, cache).added)
  {
  }

  /** A failed decode is not remembered: unless the decoder itself left a
      complete entry behind, the next Import of the path decodes again. */
  lemma FailureNotCached(cache: map<string, Package>, artifacts: map<string, string>, decode: Decoder,
                         decode': Decoder, path: string)
    requires ImportStep(cache, artifacts, decode, path).0.Err?
    requires !IsLoaded(ImportStep(cache, artifacts, decode, path).1, path)
    requires path in artifacts
    ensures var c' := ImportStep(cache, artifacts, decode, path).1;
            var d := decode'(artifacts[path], path, c');
            ImportStep(c', artifacts, decode', path) ==
              (if d.Decoded? then Ok(d.pkg) else Err(DecodeFailed(d.reason)), c' + d.added)
  {
  }

  /** The decoder stores the package it decodes in the cache under its
      import path and marks it complete, as gcexportdata.Read does through
      the imports map it is given. */
  ghost predicate RecordsResult(decode: Decoder) {
    forall file, path, cache ::
      decode(file, path, cache).Decoded? ==>
        path in decode(file, path, cache).added &&
        decode(file, path, cache).added[path] == decode(file, path, cache).pkg &&
        decode(file, path, cache).pkg.complete
  }

  /** With such a decoder, importing a path again after it succeeded gives
      the same package from the cache, without decoding, whatever the
      artifacts and the decoder are by then. */
  lemma ImportTwice(cache: map<string, Package>, artifacts: map<string, string>, decode: Decoder,
                    artifacts': map<string, string>, decode': Decoder, path: string)
    requires RecordsResult(decode)
    requires ImportStep(cache, artifacts, decode, path).0.Ok?
    ensures var (r, c') := ImportStep(cache, artifacts, decode, path);
            ImportStep(c', artifacts', decode', path) == (r, c')
  {
  }

  /** Right after NewImporter, "unsafe" imports as types.Unsafe whatever the
      artifact map and the decoder, even with no artifacts at all. */
  lemma UnsafeAlwaysImports(entries: map<string, Package>, artifacts: map<string, string>, decode: Decoder)
    ensures ImportStep(Seeded(entries), artifacts, decode, "unsafe") == (Ok(Unsafe), Seeded(entries))
  {
  }

  /** The decoder never replaces a complete package already in the cache it
      is given; gcexportdata reuses such a package rather than building a
      new one. */
  ghost predicate KeepsLoaded(decode: Decoder) {
    forall file, path, cache, k ::
      IsLoaded(cache, k) && k in decode(file, path, cache).added ==> decode(file, path, cache).added[k] == cache[k]
  }

  /** With such a decoder, an Import keeps every complete entry of the cache. */
  lemma ImportStepKeepsLoaded(cache: map<string, Package>, artifacts: map<string, string>, decode: Decoder,
                              path: string)
    requires KeepsLoaded(decode)
    ensures forall k :: IsLoaded(cache, k) ==>
              k in ImportStep(cache, artifacts, decode, path).1 && ImportStep(cache, artifacts, decode, path).1[k] == cache[k]
  {
    if !IsLoaded(cache, path) && path in artifacts {
      var d := decode(artifacts[path], path, cache);
      forall k | IsLoaded(cache, k) && k in d.added
        ensures d.added[k] == cache[k]
      {
      }
    }
  }

  /** ... and so does the whole of Load's import loop. */
  lemma {:induction false} ImportAllKeepsLoaded(cache: map<string, Package>, artifacts: map<string, string>,
                                                decode: Decoder, paths: seq<string>)
    requires KeepsLoaded(decode)
    ensures forall k :: IsLoaded(cache, k) ==>
              k in ImportAll(cache, artifacts, decode, paths).cache &&
              ImportAll(cache, artifacts, decode, paths).cache[k] == cache[k]
    decreases |paths|
  {
    if paths != [] {
      var prev := ImportAll(cache, artifacts, decode, paths[..|paths| - 1]);
      ImportAllKeepsLoaded(cache, artifacts, decode, paths[..|paths| - 1]);
      ImportStepKeepsLoaded(prev.cache, artifacts, decode, paths[|paths| - 1]);
    }
  }

  /** With a decoder that keeps complete packages, "unsafe" imports as
      types.Unsafe, without touching the cache, at every point of Load's
      loop, whatever was imported before. */
  lemma UnsafeImportsThroughout(entries: map<string, Package>, artifacts: map<string, string>, decode: Decoder,
                                paths: seq<string>)
    requires KeepsLoaded(decode)
    ensures var c := ImportAll(Seeded(entries), artifacts, decode, paths).cache;
            ImportStep(c, artifacts, decode, "unsafe") == (Ok(Unsafe), c)
  {
    ImportAllKeepsLoaded(Seeded(entries), artifacts, decode, paths);
    assert IsLoaded(Seeded(entries), "unsafe");
  }

  // ---------------------------------------------------------------------
  // Properties of Load

  /** Once an Import fails, Load stops: later paths change nothing. */
  lemma {:induction false} ImportAllStopsAtError(cache: map<string, Package>, artifacts: map<string, string>,
                                                 decode: Decoder, paths: seq<string>, k: nat)
    requires k <= |paths|
    requires ImportAll(cache, artifacts, decode, paths[..k]).err.Some?
    ensures ImportAll(cache, artifacts, decode, paths) == ImportAll(cache, artifacts, decode, paths[..k])
    decreases |paths| - k
  {
    if k < |paths| {
      assert paths[..k + 1][..k] == paths[..k];
      ImportAllStopsAtError(cache, artifacts, decode, paths, k + 1);
    } else {
      assert paths[..k] == paths;
    }
  }

  /** What the imports of the first k paths fill in is a prefix of what all
      of them fill in, and it was reached without an error when k is within
      the filled part. */
  lemma {:induction false} ImportAllPrefix(cache: map<string, Package>, artifacts: map<string, string>,
                                           decode: Decoder, paths: seq<string>, k: nat)
    requires k <= |paths|
    ensures ImportAll(cache, artifacts, decode, paths[..k]).done <= ImportAll(cache, artifacts, decode, paths).done
    ensures k <= |ImportAll(cache, artifacts, decode, paths).done| ==>
              ImportAll(cache, artifacts, decode, paths[..k]).err.None?
    decreases |paths|
  {
    if k == |paths| {
      assert paths[..k] == paths;
    } else {
      var n := |paths| - 1;
      var init := paths[..n];
      assert init[..k] == paths[..k];
      ImportAllPrefix(cache, artifacts, decode, init, k);
      var sub := ImportAll(cache, artifacts, decode, paths[..k]);
      var prev := ImportAll(cache, artifacts, decode, init);
      var r := ImportAll(cache, artifacts, decode, paths);
      assert prev.done <= r.done;
      assert sub.done <= prev.done;
      assert sub.done <= r.done by {
        assert r.done[..|sub.done|] == prev.done[..|sub.done|];
      }
    }
  }

  /** The k-th package Load fills in is the result of importing the k-th
      path against the cache left by the imports before it. */
  lemma ImportAllInOrder(cache: map<string, Package>, artifacts: map<string, string>, decode: Decoder,
                         paths: seq<string>, k: nat)
    requires k < |ImportAll(cache, artifacts, decode, paths).done|
    ensures ImportStep(ImportAll(cache, artifacts, decode, paths[..k]).cache, artifacts, decode, paths[k]).0
            == Ok(ImportAll(cache, artifacts, decode, paths).done[k])
  {
    ImportAllPrefix(cache, artifacts, decode, paths, k);
    ImportAllPrefix(cache, artifacts, decode, paths, k + 1);
    ImportAllSnoc(cache, artifacts, decode, paths, k);
  }

  /** When Load fails, the error is that of importing the first path not
      filled in, against the cache the successful imports left behind. */
  lemma ImportAllFailsAtFirstError(cache: map<string, Package>, artifacts: map<string, string>,
                                   decode: Decoder, paths: seq<string>)
    requires ImportAll(cache, artifacts, decode, paths).err.Some?
    ensures var r := ImportAll(cache, artifacts, decode, paths);
            var before := ImportAll(cache, artifacts, decode, paths[..|r.done|]);
            before.err.None? && before.done == r.done &&
            ImportStep(before.cache, artifacts, decode, paths[|r.done|]) == (Err(r.err.value), r.cache)
  {
    var r := ImportAll(cache, artifacts, decode, paths);
    var m := |r.done|;
    ImportAllPrefix(cache, artifacts, decode, paths, m);
    ImportAllPrefix(cache, artifacts, decode, paths, m + 1);
    ImportAllSnoc(cache, artifacts, decode, paths, m);
    ImportAllStopsAtError(cache, artifacts, decode, paths, m + 1);
  }
}
