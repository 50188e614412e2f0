# Package loading for a Go module, modelled in Dafny

This project models `packages/load.go`, the package loader of a Go-based
code generator. The loader does two jobs.

- **Pattern expansion** (`List`, `listPkgs`, `doListPkgs`). It turns
  package patterns into import paths. A pattern can be a plain import path,
  a directory, or a directory followed by `/...`.
- **Lazy import** (`NewImporter`, `Importer.Import`, `loadPkgExport`,
  `Load`). It turns import paths into type-checked packages. A complete
  package already in the shared cache is returned as it is. Otherwise the
  package is decoded from its export-data artifact.

Modules:

- `Outcome` (`outcome.dfy`): `Option`, `Result` and the loader's errors:
  outside available modules, directory read failure, `ENOENT`, decode
  failure and dependency-loading failure.
- `GoPath` (`gopath.dfy`): models of `strings.HasSuffix`, `path.Ext` and
  `path.Join`.
- `GoTypes` (`gotypes.dfy`): a package with its import path and its
  `Complete()` flag; `types.Unsafe`; `PackageCache`. `PackageCache` is a
  class because a Go map is shared by reference between the caller's
  `Config.Loaded` and the importer.
- `Listing` (`listing.dfy`): `Config`; the host the loader runs on; the
  methods `DoListPkgs`, `ListPkgs` and `List`. The host is a directory tree
  (a map from directory path to its entries) plus `filepath.Abs` and
  `filepath.Rel` as given functions. Each method is proved against a
  specification function: `Walk`/`Subtrees`, `ListPkgsSpec` and `ListFrom`.
  The lemmas about those functions state what the loader promises.
- `Importing` (`importing.dfy`): the `Importer` class; the methods
  `NewImporter` and `Load`; the specification functions `ImportStep` and
  `ImportAll` with their lemmas. `ImportStep` covers one import. `ImportAll`
  covers Load's loop. The decoder and `loadDeps` are functions the caller
  supplies.

Where descriptions of this loader differ from the code, the model follows
the code:

- Directory results are post-order. Each directory's import path is
  appended after everything found in its subdirectories. Only directories
  holding a source file directly are listed. `ExampleModuleTree` proves
  this for a module root `/m` containing `/m/a/x.go` and `/m/b/sub/y.go`.
  The result is `example.com/m/a`, then `example.com/m/b/sub`. It is not the
  module root first.
- An outside-module pattern makes `List` return a nil list. Results of
  earlier patterns are not kept alongside the error
  (`ListOutsideDiscards`).
- A failed read of a pattern's own directory returns the list built so far,
  together with the error. This holds for the top directory of a `/...`
  pattern too. Only unreadable subdirectories are skipped silently.
- `NewImporter` overwrites any `"unsafe"` entry the caller's cache already
  had. Later imports keep that entry only if the decoder leaves complete
  packages alone (`UnsafeImportsThroughout`).

## Model

| member | source | states |
|---|---|---|
| `Listing.SplitPattern` | packages/load.go:58-65 | a pattern is recursive exactly when it ends in `/...`; the suffix is stripped and putting it back gives the pattern again, except that a bare `/...` becomes `/`; a non-recursive pattern is unchanged |
| `Listing.RelativeToModule` | packages/load.go:67-69 | a directory pattern is accepted exactly when `Abs` succeeds, `Rel` from the module root succeeds, and the relative path does not start with `..`; the accepted value is exactly what `Rel` returned for the absolute pattern |
| `Listing.DoListPkgs` | packages/load.go:84-110 | the returned list is the input list followed by the walk of the directory; reading the directory fails exactly when it is missing from the tree, and the error is then returned with the list unchanged |
| `Listing.ListPkgs` | packages/load.go:57-82 | returns exactly what `ListPkgsSpec` gives for the pattern: the walk for a directory pattern, the pattern itself for an import path, a nil list with the outside-modules error for an escaping directory |
| `Listing.List` | packages/load.go:112-123 | patterns are expanded left to right onto one list from the absolutised module root, and the loop stops at the first error (the `ListFrom` fold) |
| `Listing.WalkUnderBase` | packages/load.go:95-98 | every path a directory's walk yields is its own import path or lies under that path plus `/` |
| `Listing.SubtreesUnderBase` | packages/load.go:95-98 | every path found in subdirectories lies under the parent's import path plus `/`, since a child's path is `pkgPathBase+"/"+name` |
| `Listing.OwnPathLast` | packages/load.go:89-108 | a directory's own import path is listed exactly when the directory directly holds a non-directory entry, not starting with `_`, with a supported extension; when listed it is the last path and occurs once; subdirectory contents never qualify the parent |
| `Listing.WalkNonRecursive` | packages/load.go:95-98 | without `/...` no subdirectory is visited: the walk is the directory's own path or nothing |
| `Listing.SubtreesAppend` | packages/load.go:90-105 | entries are scanned in order: the paths found below a concatenation of entries are those of the first part followed by those of the second |
| `Listing.UnreadableSubdirSkipped` | packages/load.go:85-88 | a subdirectory that cannot be read adds nothing to the walk, and the entries after it are still scanned (its error is dropped at line 97) |
| `Listing.WalkMembers` | packages/load.go:84-110 | a `/...` walk yields exactly the import paths `base/n1/.../nk` of the directories reached through a chain of entries that are directories not starting with `_`, every directory on the way readable, and whose last directory directly holds a source file |
| `Listing.WalkSound` | packages/load.go:84-110 | every path a `/...` walk yields is the import path of such a reachable package directory |
| `Listing.SubtreesSound` | packages/load.go:90-105 | every path found below a prefix of a directory's entries is the import path of a package directory reached through one of them |
| `Listing.WalkComplete` | packages/load.go:84-110 | every package directory reachable through walked subdirectories is listed under its import path |
| `Listing.SubtreesHasChild` | packages/load.go:95-98 | everything the walk of a subdirectory entry yields is part of its parent's walk |
| `Listing.WalkNoDuplicates` | packages/load.go:84-110 | when every directory's entry names are non-empty, free of `/` and distinct, as `os.ReadDir` returns them, a walk lists no import path twice, recursive or not |
| `Listing.SubtreesNoDuplicates` | packages/load.go:90-105 | under the same condition, the paths found below any prefix of a directory's entries are pairwise distinct |
| `Listing.SubtreesUnderEntries` | packages/load.go:95-98 | every path found below a list of entries is the import path of one of those entries or lies under it |
| `Listing.UnderOneEntry` | packages/load.go:97 | two child paths `base/a` and `base/b`, with `a` and `b` free of `/`, have a common path at or below them only when `a` and `b` are equal |
| `Listing.ImportPathPatternKept` | packages/load.go:78-81 | a pattern starting with neither `.` nor `/` is appended unchanged after `/...` is stripped, with no error, and the result does not depend on the host's file system, `Abs` or `Rel` |
| `Listing.OutsidePatternRejected` | packages/load.go:67-71 | a directory pattern yields the outside-modules error exactly when `RelativeToModule` rejects it, and that error always comes with a nil list |
| `Listing.ListPkgsAppendOnly` | packages/load.go:76-81 | except for the outside-modules error, the given list is a prefix of the returned one; on a read failure the list is returned unchanged |
| `Listing.ListStopsAtError` | packages/load.go:117-121 | once a pattern fails, later patterns change neither the list nor the error |
| `Listing.ListAccumulates` | packages/load.go:117-121 | when `List` succeeds, the list after any number of the first patterns is a prefix of the final list |
| `Listing.ListOutsideDiscards` | packages/load.go:118-119 | when `List` fails because a pattern is outside the module, it returns a nil list, which discards earlier patterns' results |
| `Listing.ExampleModuleTree` | packages/load.go:84-110 | for `/m` holding `a/x.go` and `b/sub/y.go`, the recursive walk is `example.com/m/a` then `example.com/m/b/sub` |
| `GoPath.Join` | packages/load.go:76 | joining a clean element other than `""`, `.` or `/` with a non-empty relative path other than `.` puts one `/` between them; an empty or `.` relative path gives the element back |
| `GoPath.Ext` | packages/load.go:100 | the extension is empty or starts with `.`, is a suffix of the name, and has no `.` or `/` after its first character; it is empty only when no `.` follows the last `/` |
| `Importing.Seeded` | packages/load.go:163-167 | after seeding, `"unsafe"` maps to the complete `types.Unsafe`, and every other entry is as the caller supplied it |
| `Importing.Importer.Import` | packages/load.go:172-180 | returns a complete cached entry without changing the cache; otherwise, for a path with an artifact, returns the decoder's package or its error as a decode failure and adds to the cache only what the decoder added; otherwise returns `ENOENT` and leaves the cache alone |
| `Importing.Importer.LoadPkgExport` | packages/load.go:182-194 | the artifact is decoded against the shared cache; its package or its error is returned, and the cache gains what the decoder put in it |
| `Importing.Importer.ImportEach` | packages/load.go:130-135 | the fresh slice is as long as the path list; it holds the package of each path imported before the first error, in order, and nil from the failing position on; the error and the final cache are those of `ImportAll` |
| `Importing.NewImporter` | packages/load.go:147-170 | returns the resolved paths in every case; fails with List's error or loadDeps' error; otherwise the importer holds loadDeps' artifact map, shares the caller's cache (or a fresh one), and that cache is seeded with `"unsafe"`; on failure the caller's cache is untouched |
| `Importing.Load` | packages/load.go:125-137 | fails without a slice when resolution or loadDeps fails, and then leaves the caller's cache as it was; otherwise returns a slice as long as the resolved paths, filled in order up to the first failing `Import`, nil after it, with that error, and the caller's cache ends as `ImportAll` leaves it |
| `Importing.ImportAll` | packages/load.go:131-135 | without an error every path has been imported; with one, fewer packages than paths were filled in |
| `Importing.CompleteEntryReturned` | packages/load.go:173-175 | a complete cached entry is returned with the cache unchanged, whatever the artifact map and the decoder are |
| `Importing.NotExistExactly` | packages/load.go:176-179 | `ENOENT` is returned exactly when the path is neither complete in the cache nor in the artifact map; any other error comes from a failed decode of that path's artifact |
| `Importing.ImportOnlyDecoderWrites` | packages/load.go:172-180 | after an import the cache is unchanged, or it gained exactly what the decoder added while decoding that path |
| `Importing.FailureNotCached` | packages/load.go:172-180 | after a failed decode that left no complete entry for the path, the next import of the path decodes its artifact again |
| `Importing.ImportTwice` | packages/load.go:172-193 | with a decoder that records the package it decodes as complete under its path, a second import of a path that succeeded returns the same package from the cache, without decoding and leaving the cache as it was |
| `Importing.UnsafeAlwaysImports` | packages/load.go:167 | on a seeded cache, importing `"unsafe"` returns `types.Unsafe` and leaves the cache alone, even with an empty artifact map |
| `Importing.ImportStepKeepsLoaded` | packages/load.go:172-193 | with a decoder that reuses complete packages, an import keeps every complete cache entry as it was |
| `Importing.ImportAllKeepsLoaded` | packages/load.go:131-135 | with such a decoder, Load's whole import loop keeps every complete cache entry as it was |
| `Importing.UnsafeImportsThroughout` | packages/load.go:167 | with such a decoder, `"unsafe"` imports as `types.Unsafe`, leaving the cache alone, from every cache Load's loop reaches |
| `Importing.ImportAllStopsAtError` | packages/load.go:132-134 | once an import fails, later paths change neither the packages, the cache nor the error |
| `Importing.ImportAllPrefix` | packages/load.go:131-135 | the packages filled in for the first k paths are a prefix of those for all paths, and no error has happened within the filled part |
| `Importing.ImportAllInOrder` | packages/load.go:131-132 | the k-th package filled in is the result of importing the k-th path against the cache left by the imports before it |
| `Importing.ImportAllFailsAtFirstError` | packages/load.go:132-134 | Load's error is the error of importing the first path that was not filled in, against the cache the earlier imports left |

## Left out

- File-system I/O is not modelled as such. `os.ReadDir` is replaced by the
  directory tree, a map from directory path to entries, where a missing key
  means the read fails. The tree is keyed by the exact path strings the
  loader builds. It does not identify `//a` with `/a`, as an operating
  system would.
- `os.ReadDir` sorts entries by name. The model scans them in the order the
  tree gives and proves its properties for any order.
- `filepath.Abs` and `filepath.Rel` depend on the operating system and the
  working directory. They are functions supplied with the host.
  `filepath.ToSlash` is the identity, as on Unix.
- Listing.Config: a nil `*Config` is not modelled. A caller passes a
  `Config` whose fields play the role of Go's zero values.
- GoPath.Join: the cleaning pass of `path.Join` and `filepath.Join` is not
  modelled. The model handles `""` and `.` as either element, and `/` as
  the first element. For a
  clean module path or module root and a clean relative path not starting
  with `..`, it gives the same result as Go. An unclean `Config.ModPath` or
  `Config.ModRoot` is not cleaned. For example, `a/` joined with `b` gives
  `a//b` and not `a/b`. `filepath.Rel` returns clean paths, so only the
  caller's configuration can differ.
- Importing.UnsafeImportsThroughout: the decoder is supplied, so the model
  cannot show that `gcexportdata.Read` reuses complete packages. The lemma
  assumes this as its `KeepsLoaded` precondition. Without it, a decoder
  could replace the `"unsafe"` entry, and `UnsafeAlwaysImports` holds only
  right after `NewImporter`.
- `loadDeps` compiles dependencies. It is a function from the scratch
  directory and the import paths to an artifact map or an error.
- `os.Open`, `gcexportdata.NewReader` and `gcexportdata.Read` form one
  deterministic decoder function. It maps the artifact file, the import
  path and the current cache to a package or a failure reason, plus the
  entries it put into the cache. A repaired artifact is modelled as a
  different decoder (`FailureNotCached`). Closing the file is not modelled.
- `token.FileSet` is only passed through, so it is not modelled.
- `types.Package` is reduced to its import path and its `Complete()` flag.
  Package identity is value equality.
- Importing.ImportTwice: a second import returns the cached package only for
  a decoder that stores the package it decodes as complete under its path
  (`RecordsResult`). The decoder is supplied from outside, so the model
  assumes this of `gcexportdata.Read` and does not prove it.
- A nil `*types.Package` stored in the cache would make `Import` panic.
  The model's cache holds no nil packages.
- Error messages are not modelled. Each error constructor carries the
  directory or reason the message would name.
- Go slices are modelled as sequences, with a nil slice as the empty
  sequence. Load's result slice is an array, and nil when no slice is made.
- Importing.Importer.ImportEach is the loop of `Load`, written as its own
  method so that `Load` itself is only the call to `NewImporter` and then
  that loop.
