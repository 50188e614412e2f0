/** Pattern expansion: listPkgs, doListPkgs and List of packages/load.go.
    The file system is an abstract directory tree and filepath.Abs /
    filepath.Rel are functions supplied by the host. */
module Listing {
  import opened Outcome
  import opened GoPath
  import opened GoTypes

  /** One entry returned by os.ReadDir. */
  datatype DirEntry = DirEntry(name: string, isDir: bool)

  /** Directory path (as handed to os.ReadDir) to its entries, in the order
      ReadDir returns them; a path that is not a key cannot be read. */
  type FileSystem = map<string, seq<DirEntry>>

  /** What the operating system supplies: the directory tree, filepath.Abs
      (None is an error) and filepath.Rel(base, target) (None is an error). */
  datatype Host = Host(
    fs: FileSystem,
    abs: string -> Option<string>,
    rel: (string, string) -> Option<string>)

  /** Config of load.go (the Fset field is not modelled; a nil
      SupportedExts or Loaded is None or null). */
  datatype Config = Config(
    modRoot: string,
    modPath: string,
    supportedExts: Option<set<string>>,
    loaded: PackageCache?)

  const DefaultSupportedExts: set<string> := {".go"}

  /** The recursive-pattern marker. */
  const Multi: string := "/..."

  function SupportedExts(conf: Config): set<string> {
    if conf.supportedExts.Some? then conf.supportedExts.value else DefaultSupportedExts
  }

  /** First step of listPkgs: a trailing "/..." is removed and makes the
      pattern recursive; an empty remainder stands for "/". */
  function SplitPattern(pattern: string): (r: (string, bool))
    ensures r.1 <==> HasSuffix(pattern, Multi)
    ensures !r.1 ==> r.0 == pattern
    ensures r.1 ==> r.0 != "" && (if pattern == Multi then r.0 == "/" else r.0 + Multi == pattern)
  {
    if HasSuffix(pattern, Multi) then
      var stripped := pattern[..|pattern| - |Multi|];
      assert pattern == stripped + Multi;
      (if stripped == "" then "/" else stripped, true)
    else
      (pattern, false)
  }

  /** A pattern naming a directory rather than an import path. */
  predicate IsDirPattern(pat: string) {
    "." <= pat || "/" <= pat
  }

  /** The module-relative form of a directory pattern, or None when
      filepath.Abs or filepath.Rel fails or the relative path starts with "..". */
  function RelativeToModule(host: Host, modRoot: string, pat: string): (r: Option<string>)
    ensures r.Some? ==> !(".." <= r.value)
    ensures r.Some? <==> host.abs(pat).Some? && host.rel(modRoot, host.abs(pat).value).Some?
                         && !(".." <= host.rel(modRoot, host.abs(pat).value).value)
    ensures r.Some? ==> host.abs(pat).Some? && r == host.rel(modRoot, host.abs(pat).value)
  {
    var patAbs := host.abs(pat);
    if patAbs.None? then None
    else
      var patRel := host.rel(modRoot, patAbs.value);
      if patRel.None? || ".." <= patRel.value then None else patRel
  }

  /** A direct entry that makes its directory a package: a file, not
      starting with '_', whose extension is supported. */
  predicate IsSourceFile(e: DirEntry, exts: set<string>) {
    !e.isDir && !("_" <= e.name) && Ext(e.name) in exts
  }

  predicate HasSourceFile(es: seq<DirEntry>, exts: set<string>) {
    exists k :: 0 <= k < |es| && IsSourceFile(es[k], exts)
  }

  /** A subdirectory entry the recursive walk descends into. */
  predicate IsWalkedDir(e: DirEntry) {
    e.isDir && !("_" <= e.name)
  }

  /** The directories of `fs` whose path is at least n long; it shrinks
      strictly on every descent, which bounds the walk. */
  function LongKeys(fs: FileSystem, n: nat): set<string> {
    set d | d in fs && |d| >= n
  }

  lemma LongKeysShrink(fs: FileSystem, dir: string, child: string)
    requires dir in fs && |dir| < |child|
    ensures LongKeys(fs, |child|) < LongKeys(fs, |dir|)
  {
    assert dir in LongKeys(fs, |dir|) - LongKeys(fs, |child|);
  }

  /** The import paths doListPkgs appends for directory `dir` whose import
      path is `base`: those of its walked subdirectories in entry order, then
      `base` itself when `dir` directly holds a source file. */
  function Walk(fs: FileSystem, exts: set<string>, base: string, dir: string, recursive: bool): seq<string>
    decreases LongKeys(fs, |dir|), 1, 0
  {
    if dir !in fs then []
    else
      Subtrees(fs, exts, base, dir, recursive, fs[dir]) +
      (if HasSourceFile(fs[dir], exts) then [base] else [])
  }

  /** The import paths found below the entries `es` of `dir`; a child's
      import path is base + "/" + name and its directory dir + "/" + name. */
  function Subtrees(fs: FileSystem, exts: set<string>, base: string, dir: string, recursive: bool,
                    es: seq<DirEntry>): seq<string>
    requires dir in fs
    decreases LongKeys(fs, |dir|), 0, |es|
  {
    if es == [] then []
    else
      var e := es[|es| - 1];
      Subtrees(fs, exts, base, dir, recursive, es[..|es| - 1]) +
      (if recursive && IsWalkedDir(e) then
         LongKeysShrink(fs, dir, dir + "/" + e.name);
         Walk(fs, exts, base + "/" + e.name, dir + "/" + e.name, true)
       else [])
  }

  lemma HasSourceFileSnoc(es: seq<DirEntry>, e: DirEntry, exts: set<string>)
    ensures HasSourceFile(es + [e], exts) <==> HasSourceFile(es, exts) || IsSourceFile(e, exts)
  {
    if IsSourceFile(e, exts) {
      assert (es + [e])[|es|] == e;
    }
    if HasSourceFile(es, exts) {
      var k :| 0 <= k < |es| && IsSourceFile(es[k], exts);
      assert (es + [e])[k] == es[k];
    }
  }

  lemma AppendAssoc<T>(a: seq<T>, b: seq<T>, c: seq<T>)
    ensures (a + b) + c == a + (b + c)
  {
  }

  /** What one more entry of `dir` adds to the scan. */
  lemma ScanStep(fs: FileSystem, exts: set<string>, base: string, dir: string, recursive: bool, i: nat)
    requires dir in fs && i < |fs[dir]|
    ensures var es := fs[dir]; var e := es[i];
            (HasSourceFile(es[..i + 1], exts) <==> HasSourceFile(es[..i], exts) || IsSourceFile(e, exts)) &&
            Subtrees(fs, exts, base, dir, recursive, es[..i + 1]) ==
              Subtrees(fs, exts, base, dir, recursive, es[..i]) +
              (if recursive && IsWalkedDir(e) then Walk(fs, exts, base + "/" + e.name, dir + "/" + e.name, true)
               else [])
  {
    var es := fs[dir];
    assert es[..i + 1] == es[..i] + [es[i]];
    HasSourceFileSnoc(es[..i], es[i], exts);
  }

  /** doListPkgs: scan directory `pat`; the error of a failed read is
      returned with the list unchanged, errors below it are dropped. */
  method DoListPkgs(fs: FileSystem, pkgPaths: seq<string>, pkgPathBase: string, pat: string,
                    exts: set<string>, recursive: bool)
    returns (out: seq<string>, err: Option<Error>)
    ensures out == pkgPaths + Walk(fs, exts, pkgPathBase, pat, recursive)
    ensures err == if pat in fs then None else Some(ReadDirFailed(pat))
    decreases LongKeys(fs, |pat|)
  {
    if pat !in fs {
      return pkgPaths, Some(ReadDirFailed(pat));
    }
    var fis := fs[pat];
    var noSourceFile := true;
    out, err := pkgPaths, None;
    for i := 0 to |fis|
      invariant noSourceFile == !HasSourceFile(fis[..i], exts)
      invariant out == pkgPaths + Subtrees(fs, exts, pkgPathBase, pat, recursive, fis[..i])
    {
      var fi := fis[i];
      ScanStep(fs, exts, pkgPathBase, pat, recursive, i);
      if "_" <= fi.name {
        continue;
      }
      if fi.isDir {
        if recursive {
          LongKeysShrink(fs, pat, pat + "/" + fi.name);
          ghost var before := Subtrees(fs, exts, pkgPathBase, pat, recursive, fis[..i]);
          var ignored;
          out, ignored := DoListPkgs(fs, out, pkgPathBase + "/" + fi.name, pat + "/" + fi.name, exts, true);
          AppendAssoc(pkgPaths, before, Walk(fs, exts, pkgPathBase + "/" + fi.name, pat + "/" + fi.name, true));
        }
      } else if noSourceFile {
        var ext := Ext(fi.name);
        if ext in exts {
          noSourceFile := false;
        }
      }
    }
    assert fis[..|fis|] == fis;
    if !noSourceFile {
      out := out + [pkgPathBase];
    }
  }

  /** What listPkgs returns for one pattern, given the list so far. */
  function ListPkgsSpec(conf: Config, host: Host, modRoot: string, pkgPaths: seq<string>, pattern: string)
    : (seq<string>, Option<Error>)
  {
    var (pat, recursive) := SplitPattern(pattern);
    if IsDirPattern(pat) then
      var rel := RelativeToModule(host, modRoot, pat);
      if rel.None? then ([], Some(OutsideModules(pat)))
      else
        var base := Join(conf.modPath, rel.value);
        (pkgPaths + Walk(host.fs, SupportedExts(conf), base, pat, recursive),
         if pat in host.fs then None else Some(ReadDirFailed(pat)))
    else
      (pkgPaths + [pat], None)
  }

  /** listPkgs: expand one pattern onto the end of pkgPaths. */
  method ListPkgs(conf: Config, host: Host, pkgPaths: seq<string>, pattern: string, modRoot: string)
    returns (out: seq<string>, err: Option<Error>)
    ensures (out, err) == ListPkgsSpec(conf, host, modRoot, pkgPaths, pattern)
  {
    var (pat, recursive) := SplitPattern(pattern);
    if IsDirPattern(pat) {
      var patRel := RelativeToModule(host, modRoot, pat);
      if patRel.None? {
        return [], Some(OutsideModules(pat));
      }
      var exts := SupportedExts(conf);
      var pkgPathBase := Join(conf.modPath, patRel.value);
      out, err := DoListPkgs(host.fs, pkgPaths, pkgPathBase, pat, exts, recursive);
    } else {
      out, err := pkgPaths + [pat], None;
    }
  }

  /** The module root List works against: filepath.Abs(conf.ModRoot), or ""
      when that fails (List ignores the error). */
  function ModRoot(conf: Config, host: Host): string {
    var a := host.abs(conf.modRoot);
    if a.Some? then a.value else ""
  }

  /** What List returns for `patterns`: each pattern expanded left to right
      onto the list so far, stopping at the first error. */
  function ListFrom(conf: Config, host: Host, modRoot: string, patterns: seq<string>)
    : (seq<string>, Option<Error>)
    decreases |patterns|
  {
    if patterns == [] then ([], None)
    else
      var prev := ListFrom(conf, host, modRoot, patterns[..|patterns| - 1]);
      if prev.1.Some? then prev
      else ListPkgsSpec(conf, host, modRoot, prev.0, patterns[|patterns| - 1])
  }

  /** List */
  method List(conf: Config, host: Host, patterns: seq<string>)
    returns (pkgPaths: seq<string>, err: Option<Error>)
    ensures (pkgPaths, err) == ListFrom(conf, host, ModRoot(conf, host), patterns)
  {
    var modRoot := ModRoot(conf, host);
    pkgPaths, err := [], None;
    for i := 0 to |patterns|
      invariant err == None
      invariant (pkgPaths, err) == ListFrom(conf, host, modRoot, patterns[..i])
    {
      assert patterns[..i + 1][..i] == patterns[..i];
      pkgPaths, err := ListPkgs(conf, host, pkgPaths, patterns[i], modRoot);
      assert (pkgPaths, err) == ListFrom(conf, host, modRoot, patterns[..i + 1]);
      if err.Some? {
        ListStopsAtError(conf, host, modRoot, patterns, i + 1);
        return;
      }
    }
    assert patterns[..|patterns|] == patterns;
  }

  // ---------------------------------------------------------------------
  // Properties of the directory walk

  lemma PrefixTrans<T>(a: seq<T>, b: seq<T>, c: seq<T>)
    requires a <= b && b <= c
    ensures a <= c
  {
    assert c[..|a|] == b[..|a|];
  }

  /** Every path the walk of `dir` yields is `base` itself or lies under
      base + "/". */
  lemma {:induction false} WalkUnderBase(fs: FileSystem, exts: set<string>, base: string, dir: string,
                                         recursive: bool)
    ensures forall x :: x in Walk(fs, exts, base, dir, recursive) ==> x == base || base + "/" <= x
    decreases LongKeys(fs, |dir|), 1, 0
  {
    if dir in fs {
      SubtreesUnderBase(fs, exts, base, dir, recursive, fs[dir]);
    }
  }

  /** Every path found below the entries of `dir` lies under base + "/". */
  lemma {:induction false} SubtreesUnderBase(fs: FileSystem, exts: set<string>, base: string, dir: string,
                                             recursive: bool, es: seq<DirEntry>)
    requires dir in fs
    ensures forall x :: x in Subtrees(fs, exts, base, dir, recursive, es) ==> base + "/" <= x
    decreases LongKeys(fs, |dir|), 0, |es|
  {
    if es != [] {
      var e := es[|es| - 1];
      SubtreesUnderBase(fs, exts, base, dir, recursive, es[..|es| - 1]);
      if recursive && IsWalkedDir(e) {
        var childBase := base + "/" + e.name;
        LongKeysShrink(fs, dir, dir + "/" + e.name);
        WalkUnderBase(fs, exts, childBase, dir + "/" + e.name, true);
        assert base + "/" <= childBase;
        forall x | x in Walk(fs, exts, childBase, dir + "/" + e.name, true)
          ensures base + "/" <= x
        {
          if x != childBase {
            assert childBase <= childBase + "/";
            PrefixTrans(childBase, childBase + "/", x);
            PrefixTrans(base + "/", childBase, x);
          }
        }
      }
    }
  }

  /** doListPkgs appends its own import path exactly when the directory
      directly holds a source file; it is then the last path appended and
      appears nowhere before it. What subdirectories hold never qualifies
      the parent. */
  lemma OwnPathLast(fs: FileSystem, exts: set<string>, base: string, dir: string, recursive: bool)
    ensures var w := Walk(fs, exts, base, dir, recursive);
            (base in w <==> dir in fs && HasSourceFile(fs[dir], exts)) &&
            (base in w ==> w[|w| - 1] == base && base !in w[..|w| - 1])
  {
    if dir in fs {
      var sub := Subtrees(fs, exts, base, dir, recursive, fs[dir]);
      SubtreesUnderBase(fs, exts, base, dir, recursive, fs[dir]);
      assert base !in sub;
      var w := Walk(fs, exts, base, dir, recursive);
      if HasSourceFile(fs[dir], exts) {
        assert w == sub + [base];
        assert w[..|w| - 1] == sub;
      }
    }
  }

  /** Without recursion no subdirectory contributes anything. */
  lemma {:induction false} SubtreesNonRecursive(fs: FileSystem, exts: set<string>, base: string, dir: string,
                                                es: seq<DirEntry>)
    requires dir in fs
    ensures Subtrees(fs, exts, base, dir, false, es) == []
    decreases |es|
  {
    if es != [] {
      SubtreesNonRecursive(fs, exts, base, dir, es[..|es| - 1]);
    }
  }

  /** A non-recursive pattern lists at most the directory itself. */
  lemma WalkNonRecursive(fs: FileSystem, exts: set<string>, base: string, dir: string)
    ensures Walk(fs, exts, base, dir, false) ==
            if dir in fs && HasSourceFile(fs[dir], exts) then [base] else []
  {
    if dir in fs {
      SubtreesNonRecursive(fs, exts, base, dir, fs[dir]);
    }
  }

  /** The entries of a directory contribute in order: the paths found below
      a concatenation are those found below each part, one after the other. */
  lemma {:induction false} SubtreesAppend(fs: FileSystem, exts: set<string>, base: string, dir: string,
                                          recursive: bool, es1: seq<DirEntry>, es2: seq<DirEntry>)
    requires dir in fs
    ensures Subtrees(fs, exts, base, dir, recursive, es1 + es2) ==
            Subtrees(fs, exts, base, dir, recursive, es1) + Subtrees(fs, exts, base, dir, recursive, es2)
    decreases |es2|
  {
    if es2 != [] {
      var n := |es2| - 1;
      assert (es1 + es2)[..|es1 + es2| - 1] == es1 + es2[..n];
      assert (es1 + es2)[|es1 + es2| - 1] == es2[n];
      SubtreesAppend(fs, exts, base, dir, recursive, es1, es2[..n]);
    } else {
      assert es1 + es2 == es1;
    }
  }

  /** An unreadable subdirectory adds nothing during recursion, and the
      walk carries on with the entries after it. */
  lemma UnreadableSubdirSkipped(fs: FileSystem, exts: set<string>, base: string, dir: string, k: nat)
    requires dir in fs && k < |fs[dir]|
    requires fs[dir][k].isDir && dir + "/" + fs[dir][k].name !in fs
    ensures Subtrees(fs, exts, base, dir, true, fs[dir]) ==
            Subtrees(fs, exts, base, dir, true, fs[dir][..k]) + Subtrees(fs, exts, base, dir, true, fs[dir][k + 1..])
  {
    var es := fs[dir];
    var head := es[..k] + [es[k]];
    assert es == head + es[k + 1..];
    SubtreesAppend(fs, exts, base, dir, true, head, es[k + 1..]);
    assert head[..|head| - 1] == es[..k] && head[|head| - 1] == es[k];
    assert Walk(fs, exts, base + "/" + es[k].name, dir + "/" + es[k].name, true) == [];
    assert Subtrees(fs, exts, base, dir, true, head) == Subtrees(fs, exts, base, dir, true, es[..k]);
  }

  // ---------------------------------------------------------------------
  // Which import paths a recursive walk yields

  /** `p` followed by "/" + n for each name n of `names`, in order. */
  function Descend(p: string, names: seq<string>): string
    decreases |names|
  {
    if names == [] then p else Descend(p + "/" + names[0], names[1..])
  }

  /** Some walked subdirectory entry of `es` is called `name`. */
  predicate HasWalkedEntry(es: seq<DirEntry>, name: string) {
    exists k :: 0 <= k < |es| && IsWalkedDir(es[k]) && es[k].name == name
  }

  /** Starting at `dir`, each name in turn is a walked subdirectory entry of
      a readable directory reached so far. */
  predicate Reaches(fs: FileSystem, dir: string, names: seq<string>)
    decreases |names|
  {
    names == [] ||
    (dir in fs && HasWalkedEntry(fs[dir], names[0]) && Reaches(fs, dir + "/" + names[0], names[1..]))
  }

  /** The directory reached from `dir` through `names` is readable and
      directly holds a source file, so it is a package. */
  predicate Listed(fs: FileSystem, exts: set<string>, dir: string, names: seq<string>) {
    Reaches(fs, dir, names) && Descend(dir, names) in fs && HasSourceFile(fs[Descend(dir, names)], exts)
  }

  /** Every path of a recursive walk names a package directory reached
      through walked subdirectories. */
  lemma {:induction false} WalkSound(fs: FileSystem, exts: set<string>, base: string, dir: string)
    ensures forall x :: x in Walk(fs, exts, base, dir, true) ==>
              exists names :: Listed(fs, exts, dir, names) && x == Descend(base, names)
    decreases LongKeys(fs, |dir|), 1, 0
  {
    if dir in fs {
      SubtreesSound(fs, exts, base, dir, fs[dir]);
      if HasSourceFile(fs[dir], exts) {
        assert Listed(fs, exts, dir, []) && base == Descend(base, []);
      }
    }
  }

  lemma {:induction false} SubtreesSound(fs: FileSystem, exts: set<string>, base: string, dir: string,
                                         es: seq<DirEntry>)
    requires dir in fs && es <= fs[dir]
    ensures forall x :: x in Subtrees(fs, exts, base, dir, true, es) ==>
              exists names :: Listed(fs, exts, dir, names) && x == Descend(base, names)
    decreases LongKeys(fs, |dir|), 0, |es|
  {
    if es != [] {
      var n := |es| - 1;
      var e := es[n];
      assert es[..n] <= fs[dir];
      SubtreesSound(fs, exts, base, dir, es[..n]);
      if IsWalkedDir(e) {
        var child := dir + "/" + e.name;
        var cbase := base + "/" + e.name;
        LongKeysShrink(fs, dir, child);
        WalkSound(fs, exts, cbase, child);
        assert fs[dir][n] == e;
        assert HasWalkedEntry(fs[dir], e.name);
        forall x | x in Walk(fs, exts, cbase, child, true)
          ensures exists names :: Listed(fs, exts, dir, names) && x == Descend(base, names)
        {
          var rest :| Listed(fs, exts, child, rest) && x == Descend(cbase, rest);
          var names := [e.name] + rest;
          assert names[0] == e.name && names[1..] == rest;
          assert Descend(dir, names) == Descend(child, rest);
          assert Listed(fs, exts, dir, names);
          assert x == Descend(base, names);
        }
      }
    }
  }

  /** A walked entry's whole subtree walk is part of its parent's walk. */
  lemma SubtreesHasChild(fs: FileSystem, exts: set<string>, base: string, dir: string, k: nat)
    requires dir in fs && k < |fs[dir]| && IsWalkedDir(fs[dir][k])
    ensures forall x :: x in Walk(fs, exts, base + "/" + fs[dir][k].name, dir + "/" + fs[dir][k].name, true) ==>
              x in Walk(fs, exts, base, dir, true)
  {
    var es := fs[dir];
    var head := es[..k] + [es[k]];
    assert es == head + es[k + 1..];
    SubtreesAppend(fs, exts, base, dir, true, head, es[k + 1..]);
    assert head[..|head| - 1] == es[..k] && head[|head| - 1] == es[k];
  }

  /** Every package directory reached through walked subdirectories is
      listed by a recursive walk, under its import path. */
  lemma {:induction false} WalkComplete(fs: FileSystem, exts: set<string>, base: string, dir: string,
                                        names: seq<string>)
    requires Listed(fs, exts, dir, names)
    ensures Descend(base, names) in Walk(fs, exts, base, dir, true)
    decreases |names|
  {
    if names == [] {
      assert Walk(fs, exts, base, dir, true) ==
             Subtrees(fs, exts, base, dir, true, fs[dir]) + [base];
    } else {
      var child := dir + "/" + names[0];
      assert Descend(dir, names) == Descend(child, names[1..]);
      assert Listed(fs, exts, child, names[1..]);
      WalkComplete(fs, exts, base + "/" + names[0], child, names[1..]);
      var k :| 0 <= k < |fs[dir]| && IsWalkedDir(fs[dir][k]) && fs[dir][k].name == names[0];
      SubtreesHasChild(fs, exts, base, dir, k);
    }
  }

  /** The paths `doListPkgs` yields for a pattern ending in "/..." are
      exactly the import paths of the directories reachable through entries
      that are directories not starting with '_', each readable, that
      directly hold a source file. */
  lemma WalkMembers(fs: FileSystem, exts: set<string>, base: string, dir: string)
    ensures forall x :: x in Walk(fs, exts, base, dir, true) <==>
              exists names :: Listed(fs, exts, dir, names) && x == Descend(base, names)
  {
    WalkSound(fs, exts, base, dir);
    forall names | Listed(fs, exts, dir, names) {
      WalkComplete(fs, exts, base, dir, names);
    }
  }

  // ---------------------------------------------------------------------
  // A walk lists each directory once

  /** What os.ReadDir guarantees of every directory it reads: entry names
      are non-empty, hold no '/', and are pairwise distinct. */
  predicate WellFormed(fs: FileSystem) {
    (forall d, i :: d in fs && 0 <= i < |fs[d]| ==> fs[d][i].name != "" && '/' !in fs[d][i].name) &&
    (forall d, i, j :: d in fs && 0 <= i < j < |fs[d]| ==> fs[d][i].name != fs[d][j].name)
  }

  predicate NoDuplicates<T(==)>(s: seq<T>) {
    forall i, j :: 0 <= i < j < |s| ==> s[i] != s[j]
  }

  lemma NoDuplicatesAppend<T>(a: seq<T>, b: seq<T>)
    requires NoDuplicates(a) && NoDuplicates(b)
    requires forall x :: x in a ==> x !in b
    ensures NoDuplicates(a + b)
  {
    forall i, j | 0 <= i < j < |a + b|
      ensures (a + b)[i] != (a + b)[j]
    {
      if i < |a| && |a| <= j {
        assert (a + b)[i] in a && (a + b)[j] == b[j - |a|];
      }
    }
  }

  /** `x` is the import path of the child `name` of `base`, or lies below it. */
  predicate UnderEntry(x: string, base: string, name: string) {
    x == base + "/" + name || base + "/" + name + "/" <= x
  }

  /** Two children whose names hold no '/' have nothing below them in
      common unless they are the same child. */
  lemma UnderOneEntry(x: string, base: string, a: string, b: string)
    requires '/' !in a && '/' !in b
    requires UnderEntry(x, base, a) && UnderEntry(x, base, b)
    ensures a == b
  {
    var p := |base| + 1;
    assert forall i :: 0 <= i < |a| ==> x[p + i] == a[i];
    assert forall i :: 0 <= i < |b| ==> x[p + i] == b[i];
    assert p + |a| < |x| ==> x[p + |a|] == '/';
    assert p + |b| < |x| ==> x[p + |b|] == '/';
    if |a| == |b| {
      assert a == x[p..p + |a|] == b;
    }
  }

  /** Everything found below a list of entries lies under one of them. */
  lemma {:induction false} SubtreesUnderEntries(fs: FileSystem, exts: set<string>, base: string, dir: string,
                                                recursive: bool, es: seq<DirEntry>)
    requires dir in fs
    ensures forall x :: x in Subtrees(fs, exts, base, dir, recursive, es) ==>
              exists k :: 0 <= k < |es| && UnderEntry(x, base, es[k].name)
    decreases |es|
  {
    if es != [] {
      var n := |es| - 1;
      var e := es[n];
      var child := dir + "/" + e.name;
      var cbase := base + "/" + e.name;
      SubtreesUnderEntries(fs, exts, base, dir, recursive, es[..n]);
      WalkUnderBase(fs, exts, cbase, child, true);
      forall x | x in Subtrees(fs, exts, base, dir, recursive, es)
        ensures exists k :: 0 <= k < |es| && UnderEntry(x, base, es[k].name)
      {
        if recursive && IsWalkedDir(e) && x in Walk(fs, exts, cbase, child, true) {
          assert UnderEntry(x, base, es[n].name);
        } else {
          assert x in Subtrees(fs, exts, base, dir, recursive, es[..n]);
          var k :| 0 <= k < n && UnderEntry(x, base, es[..n][k].name);
          assert es[..n][k] == es[k];
        }
      }
    }
  }

  /** On a tree whose directories are as os.ReadDir returns them, the walk
      lists no import path twice. */
  lemma {:induction false} WalkNoDuplicates(fs: FileSystem, exts: set<string>, base: string, dir: string,
                                            recursive: bool)
    requires WellFormed(fs)
    ensures NoDuplicates(Walk(fs, exts, base, dir, recursive))
    decreases LongKeys(fs, |dir|), 1, 0
  {
    if dir in fs {
      var sub := Subtrees(fs, exts, base, dir, recursive, fs[dir]);
      SubtreesNoDuplicates(fs, exts, base, dir, recursive, fs[dir]);
      SubtreesUnderBase(fs, exts, base, dir, recursive, fs[dir]);
      if HasSourceFile(fs[dir], exts) {
        NoDuplicatesAppend(sub, [base]);
      }
    }
  }

  lemma {:induction false} SubtreesNoDuplicates(fs: FileSystem, exts: set<string>, base: string, dir: string,
                                                recursive: bool, es: seq<DirEntry>)
    requires WellFormed(fs) && dir in fs && es <= fs[dir]
    ensures NoDuplicates(Subtrees(fs, exts, base, dir, recursive, es))
    decreases LongKeys(fs, |dir|), 0, |es|
  {
    if es != [] {
      var n := |es| - 1;
      var e := es[n];
      assert es[..n] <= fs[dir];
      SubtreesNoDuplicates(fs, exts, base, dir, recursive, es[..n]);
      if recursive && IsWalkedDir(e) {
        var child := dir + "/" + e.name;
        var cbase := base + "/" + e.name;
        var before := Subtrees(fs, exts, base, dir, recursive, es[..n]);
        LongKeysShrink(fs, dir, child);
        WalkNoDuplicates(fs, exts, cbase, child, true);
        WalkUnderBase(fs, exts, cbase, child, true);
        SubtreesUnderEntries(fs, exts, base, dir, recursive, es[..n]);
        forall x | x in before
          ensures x !in Walk(fs, exts, cbase, child, true)
        {
          var k :| 0 <= k < n && UnderEntry(x, base, es[..n][k].name);
          assert es[..n][k] == fs[dir][k] && e == fs[dir][n];
          if x in Walk(fs, exts, cbase, child, true) {
            UnderOneEntry(x, base, fs[dir][k].name, e.name);
            assert false;
          }
        }
        NoDuplicatesAppend(before, Walk(fs, exts, cbase, child, true));
      }
    }
  }

  // ---------------------------------------------------------------------
  // Properties of listPkgs and List

  /** A pattern starting with neither '.' nor '/' is appended as it stands
      (once "/..." is stripped) and the file system is never consulted. */
  lemma ImportPathPatternKept(conf: Config, host: Host, host': Host, modRoot: string,
                              pkgPaths: seq<string>, pattern: string)
    requires !IsDirPattern(SplitPattern(pattern).0)
    ensures ListPkgsSpec(conf, host, modRoot, pkgPaths, pattern) == (pkgPaths + [SplitPattern(pattern).0], None)
    ensures ListPkgsSpec(conf, host, modRoot, pkgPaths, pattern) == ListPkgsSpec(conf, host', modRoot, pkgPaths, pattern)
  {
  }

  /** A directory pattern outside the module root yields a nil list and the
      "outside available modules" error. */
  lemma OutsidePatternRejected(conf: Config, host: Host, modRoot: string, pkgPaths: seq<string>, pattern: string)
    requires IsDirPattern(SplitPattern(pattern).0)
    ensures var pat := SplitPattern(pattern).0;
            ListPkgsSpec(conf, host, modRoot, pkgPaths, pattern).1 == Some(OutsideModules(pat))
            <==> RelativeToModule(host, modRoot, pat).None?
    ensures ListPkgsSpec(conf, host, modRoot, pkgPaths, pattern).1.Some?
            && ListPkgsSpec(conf, host, modRoot, pkgPaths, pattern).1.value.OutsideModules?
            ==> ListPkgsSpec(conf, host, modRoot, pkgPaths, pattern).0 == []
  {
  }

  /** Apart from the "outside available modules" error, listPkgs only
      appends: the list it was given is a prefix of the one it returns. */
  lemma ListPkgsAppendOnly(conf: Config, host: Host, modRoot: string, pkgPaths: seq<string>, pattern: string)
    ensures var (out, err) := ListPkgsSpec(conf, host, modRoot, pkgPaths, pattern);
            (err.Some? && err.value.OutsideModules?) || pkgPaths <= out
    ensures var (out, err) := ListPkgsSpec(conf, host, modRoot, pkgPaths, pattern);
            err.Some? && err.value.ReadDirFailed? ==> out == pkgPaths
  {
  }

  /** Once a pattern fails, List stops: later patterns change nothing. */
  lemma {:induction false} ListStopsAtError(conf: Config, host: Host, modRoot: string, patterns: seq<string>, k: nat)
    requires k <= |patterns|
    requires ListFrom(conf, host, modRoot, patterns[..k]).1.Some?
    ensures ListFrom(conf, host, modRoot, patterns) == ListFrom(conf, host, modRoot, patterns[..k])
    decreases |patterns| - k
  {
    if k < |patterns| {
      var longer := patterns[..k + 1];
      assert longer[..k] == patterns[..k];
      ListStopsAtError(conf, host, modRoot, patterns, k + 1);
    } else {
      assert patterns[..k] == patterns;
    }
  }

  /** Without an error, every pattern's result extends the previous ones:
      the list after the first k patterns is a prefix of the final list. */
  lemma {:induction false} ListAccumulates(conf: Config, host: Host, modRoot: string, patterns: seq<string>, k: nat)
    requires k <= |patterns|
    requires ListFrom(conf, host, modRoot, patterns).1.None?
    ensures ListFrom(conf, host, modRoot, patterns[..k]).1.None?
    ensures ListFrom(conf, host, modRoot, patterns[..k]).0 <= ListFrom(conf, host, modRoot, patterns).0
    decreases |patterns|
  {
    if k < |patterns| {
      var n := |patterns| - 1;
      var init := patterns[..n];
      ListAccumulates(conf, host, modRoot, init, k);
      assert init[..k] == patterns[..k];
      var prev := ListFrom(conf, host, modRoot, init);
      ListPkgsAppendOnly(conf, host, modRoot, prev.0, patterns[n]);
      PrefixTrans(ListFrom(conf, host, modRoot, init[..k]).0, prev.0, ListFrom(conf, host, modRoot, patterns).0);
    } else {
      assert patterns[..k] == patterns;
    }
  }

  /** An outside-module pattern discards what earlier patterns found: List
      returns a nil list with the error. */
  lemma {:induction false} ListOutsideDiscards(conf: Config, host: Host, modRoot: string, patterns: seq<string>)
    requires ListFrom(conf, host, modRoot, patterns).1.Some?
    requires ListFrom(conf, host, modRoot, patterns).1.value.OutsideModules?
    ensures ListFrom(conf, host, modRoot, patterns).0 == []
    decreases |patterns|
  {
    var n := |patterns| - 1;
    var prev := ListFrom(conf, host, modRoot, patterns[..n]);
    if prev.1.Some? {
      ListOutsideDiscards(conf, host, modRoot, patterns[..n]);
    } else {
      OutsidePatternRejected(conf, host, modRoot, prev.0, patterns[n]);
    }
  }

  // ---------------------------------------------------------------------
  // A worked example

  /** A file named x.go or y.go is a source file for the default extensions. */
  lemma GoFileIsSource(name: string)
    requires name == "x.go" || name == "y.go"
    ensures IsSourceFile(DirEntry(name, false), DefaultSupportedExts)
  {
    assert name[1..] == ".go";
    assert name[1] == '.' && name[2] == 'g' && name[3] == 'o';
    assert ExtBefore(name, 2) == ".go";
    assert ExtBefore(name, 3) == ".go";
    assert ExtBefore(name, 4) == ".go";
    assert Ext(name) == ".go";
    assert name[0] != '_';
    assert !("_" <= name);
    assert Ext(name) in DefaultSupportedExts;
  }

  /** A directory holding nothing but one source file lists just itself. */
  lemma WalkSingleSourceFile(fs: FileSystem, exts: set<string>, base: string, dir: string, e: DirEntry)
    requires dir in fs && fs[dir] == [e] && IsSourceFile(e, exts)
    ensures Walk(fs, exts, base, dir, true) == [base]
  {
    assert fs[dir][..0] == [];
    assert IsSourceFile(fs[dir][0], exts);
    assert HasSourceFile(fs[dir], exts);
    assert Subtrees(fs, exts, base, dir, true, fs[dir]) == [];
  }

  /** A directory holding nothing but subdirectories a, then b (or only a)
      lists what they list, in that order. */
  lemma WalkOnlySubdirs(fs: FileSystem, exts: set<string>, base: string, dir: string, a: string, b: string,
                        both: bool)
    requires dir in fs && !("_" <= a) && !("_" <= b)
    requires fs[dir] == if both then [DirEntry(a, true), DirEntry(b, true)] else [DirEntry(a, true)]
    ensures Walk(fs, exts, base, dir, true) ==
            Walk(fs, exts, base + "/" + a, dir + "/" + a, true) +
            (if both then Walk(fs, exts, base + "/" + b, dir + "/" + b, true) else [])
  {
    var es := fs[dir];
    assert !HasSourceFile(es, exts);
    assert es[..1] == [DirEntry(a, true)] && es[..1][..0] == [];
    assert Subtrees(fs, exts, base, dir, true, es[..1]) == Walk(fs, exts, base + "/" + a, dir + "/" + a, true);
    if both {
      assert es[..|es| - 1] == es[..1];
    }
    assert Walk(fs, exts, base, dir, true) == Subtrees(fs, exts, base, dir, true, es);
  }

  /** Module root /m with /m/a/x.go and /m/b/sub/y.go. */
  const ExampleTree: FileSystem := map[
    "/m" := [DirEntry("a", true), DirEntry("b", true)],
    "/m/a" := [DirEntry("x.go", false)],
    "/m/b" := [DirEntry("sub", true)],
    "/m/b/sub" := [DirEntry("y.go", false)]]

  lemma ExampleLeaves()
    ensures Walk(ExampleTree, DefaultSupportedExts, "example.com/m/a", "/m/a", true) == ["example.com/m/a"]
    ensures Walk(ExampleTree, DefaultSupportedExts, "example.com/m/b/sub", "/m/b/sub", true) == ["example.com/m/b/sub"]
  {
    GoFileIsSource("x.go");
    GoFileIsSource("y.go");
    WalkSingleSourceFile(ExampleTree, DefaultSupportedExts, "example.com/m/a", "/m/a", DirEntry("x.go", false));
    WalkSingleSourceFile(ExampleTree, DefaultSupportedExts, "example.com/m/b/sub", "/m/b/sub", DirEntry("y.go", false));
  }

  lemma ExampleB()
    ensures Walk(ExampleTree, DefaultSupportedExts, "example.com/m/b", "/m/b", true) == ["example.com/m/b/sub"]
  {
    ExampleLeaves();
    assert "/m/b" + "/" + "sub" == "/m/b/sub" && "example.com/m/b" + "/" + "sub" == "example.com/m/b/sub";
    WalkOnlySubdirs(ExampleTree, DefaultSupportedExts, "example.com/m/b", "/m/b", "sub", "", false);
  }

  /** In the example tree the walk of /m lists a, then b/sub; the root and
      b hold no file of their own and are not listed, and each directory
      comes after its subdirectories. */
  lemma ExampleModuleTree()
    ensures Walk(ExampleTree, DefaultSupportedExts, "example.com/m", "/m", true) ==
            ["example.com/m/a", "example.com/m/b/sub"]
  {
    ExampleLeaves();
    ExampleB();
    assert "/m" + "/" + "a" == "/m/a" && "/m" + "/" + "b" == "/m/b";
    assert "example.com/m" + "/" + "a" == "example.com/m/a" && "example.com/m" + "/" + "b" == "example.com/m/b";
    WalkOnlySubdirs(ExampleTree, DefaultSupportedExts, "example.com/m", "/m", "a", "b", true);
  }
}
