// Taking a backup (crates/guardian/src/backup.rs): walk the server directory,
// archive every regular file that cannot be fetched again; and what restoring
// such an archive gives back.
module BackupArchive {
  import opened Options
  import opened Tree
  import opened ScopedFiles
  import opened Archive
  import opened PathOrder
  import opened Staging
  import opened Restore

  const EXCLUDED := ["cache", "libraries", "versions", "logs", ".paper"]
  const EXCLUDED_FILES := ["server.jar"]

  // `included` looks at the first component only.
  predicate Included(p: Path) {
    p == [] || (p[0] !in EXCLUDED && p[0] !in EXCLUDED_FILES)
  }

  /** What can be fetched again is left out: five directories and one file, at the
      top of the server directory only. */
  lemma WhatIsIncluded(p: Path)
    ensures Included(p) <==>
            p == [] || p[0] !in {"cache", "libraries", "versions", "logs", ".paper", "server.jar"}
  {
  }

  // Names as a file system hands them out.
  ghost predicate ProperNames(t: FileTree) {
    forall p | p in t :: ProperPath(p)
  }

  predicate IsFile(t: FileTree, p: Path) {
    p in t && t[p].File?
  }

  /* ----- the walk ----- */

  function ChildDirs(t: FileTree, dir: Path): set<Path> {
    set p | p in t && |p| == |dir| + 1 && IsPrefix(dir, p) && t[p].Dir?
  }

  function ChildFiles(t: FileTree, dir: Path): set<Path> {
    set p | p in t && |p| == |dir| + 1 && IsPrefix(dir, p) && t[p].File?
  }

  lemma ChildIffParent(t: FileTree, dir: Path, p: Path)
    requires p in t && p != []
    ensures (|p| == |dir| + 1 && IsPrefix(dir, p)) <==> Parent(p) == dir
  {
  }

  method Listing(s: set<Path>) returns (l: seq<Path>)
    ensures Distinct(l) && forall p :: p in l <==> p in s
  {
    l := [];
    var todo := s;
    while todo != {}
      invariant Distinct(l) && todo <= s && forall p :: p in l <==> p in s && p !in todo
      decreases todo
    {
      var p :| p in todo;
      l := l + [p];
      todo := todo - {p};
    }
  }

  // The directories of the tree, the root included.
  ghost function AllDirs(t: FileTree): set<Path> {
    {[]} + set p | p in t && t[p].Dir?
  }

  // The state of the worklist: visited directories, those still on the stack.
  ghost predicate Walking(t: FileTree, visited: set<Path>, stack: seq<Path>) {
    && Distinct(stack)
    && visited <= AllDirs(t) && (forall d | d in stack :: d in AllDirs(t) && d !in visited)
    && ([] in visited || [] in stack)
    && (forall d | d in visited || d in stack :: d == [] || Parent(d) in visited)
    && (forall p | p in t && p != [] && Parent(p) in visited && t[p].Dir? :: p in visited || p in stack)
  }

  // The files found so far are those of the visited directories, each once.
  ghost predicate Found(t: FileTree, visited: set<Path>, out: seq<Path>) {
    Distinct(out) && forall p :: p in out <==> p != [] && IsFile(t, p) && Parent(p) in visited
  }

  lemma WalkStep(t: FileTree, visited: set<Path>, stack: seq<Path>, dirs: seq<Path>)
    requires WellFormed(t) && stack != [] && Walking(t, visited, stack)
    requires Distinct(dirs) && (forall p :: p in dirs <==> p in ChildDirs(t, stack[|stack| - 1]))
    ensures Walking(t, visited + {stack[|stack| - 1]}, stack[..|stack| - 1] + dirs)
  {
    var dir, rest := stack[|stack| - 1], stack[..|stack| - 1];
    assert stack == rest + [dir];
    assert dir in stack && dir !in visited;
    forall d | d in dirs
      ensures d !in rest && d !in visited && d != dir && d in AllDirs(t) && d != [] && Parent(d) == dir
    {
      ChildIffParent(t, dir, d);
      assert d in rest ==> d in stack;
    }
    DistinctUnion(rest, dirs);
    var visited', stack' := visited + {dir}, rest + dirs;
    assert forall d | d in stack' :: d in AllDirs(t) && d !in visited';
    assert forall d | d in visited' || d in stack' :: d == [] || Parent(d) in visited';
    forall p | p in t && p != [] && Parent(p) in visited' && t[p].Dir?
      ensures p in visited' || p in stack'
    {
      if Parent(p) == dir {
        ChildIffParent(t, dir, p);
        assert p in dirs;
      } else {
        assert p in visited || p in stack;
      }
    }
  }

  lemma FoundMore(t: FileTree, visited: set<Path>, dir: Path, out: seq<Path>, files: seq<Path>)
    requires WellFormed(t) && Found(t, visited, out) && dir !in visited
    requires Distinct(files) && (forall p :: p in files <==> p in ChildFiles(t, dir))
    ensures Found(t, visited + {dir}, out + files)
  {
    forall f
      ensures f in files <==> f != [] && IsFile(t, f) && Parent(f) == dir
    {
      if f in t && f != [] {
        ChildIffParent(t, dir, f);
      }
    }
    DistinctUnion(out, files);
  }

  lemma DistinctUnion(a: seq<Path>, b: seq<Path>)
    requires Distinct(a) && Distinct(b) && (forall x | x in b :: x !in a)
    ensures Distinct(a + b)
  {
    var s := a + b;
    forall i, j | 0 <= i < j < |s|
      ensures s[i] != s[j]
    {
      if i < |a| <= j {
        assert s[j] in b && s[i] in a;
      }
    }
  }

  // When the stack is empty every directory has been visited.
  lemma {:induction false} WalkIsComplete(t: FileTree, visited: set<Path>, d: Path)
    requires WellFormed(t) && Walking(t, visited, []) && IsDir(t, d)
    ensures d in visited
    decreases |d|
  {
    if d != [] {
      WalkIsComplete(t, visited, Parent(d));
    }
  }

  /** walk_scoped lists every regular file exactly once, in path order, and its
      worklist ends. */
  method WalkScoped(fs: ScopedFs) returns (r: Option<seq<Path>>)
    requires fs.Valid()
    ensures r.Some? ==> Distinct(r.value) && forall p :: p in r.value <==> IsFile(fs.tree, p)
    ensures r.Some? ==> Ascending(r.value)
    ensures !fs.faulty ==> r.Some?
  {
    var out: seq<Path>, stack: seq<Path> := [], [[]];
    ghost var visited: set<Path> := {};
    while stack != []
      invariant Walking(fs.tree, visited, stack) && Found(fs.tree, visited, out)
      decreases AllDirs(fs.tree) - visited
    {
      var failed := fs.Fault(MayFail);
      if failed {
        return None;
      }
      var dir := stack[|stack| - 1];
      var dirs := Listing(ChildDirs(fs.tree, dir));
      var files := Listing(ChildFiles(fs.tree, dir));
      assert dir in stack;
      WalkStep(fs.tree, visited, stack, dirs);
      FoundMore(fs.tree, visited, dir, out, files);
      stack := stack[..|stack| - 1] + dirs;
      out := out + files;
      visited := visited + {dir};
    }
    forall p | IsFile(fs.tree, p)
      ensures p in out
    {
      assert IsDir(fs.tree, Parent(p));
      WalkIsComplete(fs.tree, visited, Parent(p));
    }
    SortAscends(out);
    AscendingIsDistinct(Sort(out));
    r := Some(Sort(out));
  }

  /* ----- the archive ----- */

  function EntryFor(t: FileTree, p: Path): Entry
    requires IsFile(t, p)
  {
    Entry(JoinSlash(p), RegularFile, |t[p].content|, t[p].content)
  }

  function ArchiveOf(t: FileTree, paths: seq<Path>): (es: seq<Entry>)
    requires forall p | p in paths :: IsFile(t, p)
    ensures |es| == |paths| && forall i | 0 <= i < |paths| :: es[i] == EntryFor(t, paths[i])
  {
    if paths == [] then
      []
    else
      assert paths[|paths| - 1] in paths;
      assert forall p | p in paths[..|paths| - 1] :: p in paths;
      ArchiveOf(t, paths[..|paths| - 1]) + [EntryFor(t, paths[|paths| - 1])]
  }

  // The files of a backup, in some order.
  ghost predicate BackupPaths(t: FileTree, paths: seq<Path>) {
    Distinct(paths) && forall p :: p in paths <==> IsFile(t, p) && Included(p)
  }

  method CreateArchive(fs: ScopedFs) returns (r: Option<seq<Entry>>, ghost paths: seq<Path>)
    requires fs.Valid()
    ensures r.Some? ==> BackupPaths(fs.tree, paths) && Ascending(paths) && r.value == ArchiveOf(fs.tree, paths)
    ensures !fs.faulty ==> r.Some?
  {
    paths := [];
    var walked := WalkScoped(fs);
    if walked.None? {
      return None, paths;
    }
    var all := walked.value;
    var entries: seq<Entry> := [];
    for i := 0 to |all|
      invariant Distinct(paths) && (forall p :: p in paths <==> p in all[..i] && Included(p))
      invariant Ascending(paths)
      invariant forall p | p in paths :: IsFile(fs.tree, p)
      invariant entries == ArchiveOf(fs.tree, paths)
    {
      assert all[..i + 1] == all[..i] + [all[i]];
      assert all[i] in all;
      if Included(all[i]) {
        var failed := fs.Fault(MayFail);
        if failed {
          return None, paths;
        }
        assert all[i] !in all[..i];
        assert forall p | p in paths :: PathLess(p, all[i]);
        ghost var more := paths + [all[i]];
        assert more[..|more| - 1] == paths;
        entries := entries + [EntryFor(fs.tree, all[i])];
        paths := more;
      }
    }
    assert all[..|all|] == all;
    r := Some(entries);
  }

  /** The archive depends on the directory alone, not on the order in which the
      walk came upon its files. */
  lemma BackupIsDetermined(t: FileTree, a: seq<Path>, b: seq<Path>)
    requires BackupPaths(t, a) && Ascending(a) && BackupPaths(t, b) && Ascending(b)
    ensures ArchiveOf(t, a) == ArchiveOf(t, b)
  {
    AscendingIsUnique(a, b);
  }

  /* ----- what the archive asks for ----- */

  lemma {:induction false} ArchiveTargets(t: FileTree, paths: seq<Path>)
    requires WellFormed(t) && ProperNames(t) && (forall p | p in paths :: IsFile(t, p))
    ensures var es := ArchiveOf(t, paths);
            FilePaths(es) == paths && DirPaths(es) == [] && forall i | 0 <= i < |es| :: Target(es[i]) == paths[i]
  {
    if paths != [] {
      var init, p := paths[..|paths| - 1], paths[|paths| - 1];
      assert paths == init + [p];
      assert p in paths && p != [];
      ArchiveTargets(t, init);
      MemberNameRoundTrip(p);
      ExtendByEntry(ArchiveOf(t, init), EntryFor(t, p));
    }
  }

  lemma {:induction false} ArchiveFiles(t: FileTree, paths: seq<Path>)
    requires WellFormed(t) && ProperNames(t) && (forall p | p in paths :: IsFile(t, p))
    ensures var files := FilesOf(ArchiveOf(t, paths));
            forall p | p in files :: p in paths && files[p] == t[p].content
  {
    if paths != [] {
      var init, p := paths[..|paths| - 1], paths[|paths| - 1];
      assert paths == init + [p];
      assert p in paths && p != [];
      ArchiveFiles(t, init);
      MemberNameRoundTrip(p);
      ExtendByEntry(ArchiveOf(t, init), EntryFor(t, p));
    }
  }

  lemma ArchiveDirs(t: FileTree, paths: seq<Path>)
    requires WellFormed(t) && ProperNames(t) && (forall p | p in paths :: IsFile(t, p))
    ensures forall d | d in DirsOf(ArchiveOf(t, paths)) :: d in t && t[d] == Dir
  {
    var es := ArchiveOf(t, paths);
    ArchiveTargets(t, paths);
    DirsHaveNoRoot(es);
    forall d | d in DirsOf(es)
      ensures d in t && t[d] == Dir
    {
      DirsAreExplained(es, d);
      var p :| p in FilePaths(es) && p != [] && IsPrefix(d, Parent(p));
      PrefixStep(p);
      ProperPrefixIsDir(t, p, d);
    }
  }

  lemma ArchivePaths(t: FileTree, paths: seq<Path>)
    requires WellFormed(t) && ProperNames(t) && (forall p | p in paths :: IsFile(t, p))
    ensures var es := ArchiveOf(t, paths);
            && FilePaths(es) == paths && DirPaths(es) == []
            && (forall p :: p in FilesOf(es) <==> p in paths)
            && (forall p | p in paths :: FilesOf(es)[p] == t[p].content)
            && (forall d | d in DirsOf(es) :: d in t && t[d] == Dir)
            && (forall i | 0 <= i < |es| :: Target(es[i]) == paths[i])
  {
    ArchiveTargets(t, paths);
    FilePathsAreFiles(ArchiveOf(t, paths));
    ArchiveFiles(t, paths);
    ArchiveDirs(t, paths);
  }

  /** A backup never conflicts with itself or with the tree it was taken from,
      and restoring it there changes nothing. */
  lemma BackupIsConflictFree(t: FileTree, paths: seq<Path>)
    requires WellFormed(t) && ProperNames(t) && (forall p | p in paths :: IsFile(t, p)) && Distinct(paths)
    ensures ConflictFree(ArchiveOf(t, paths))
    ensures NoConflict(t, ArchiveOf(t, paths))
    ensures Overlay(t, ArchiveOf(t, paths)) == t
  {
    ArchivePaths(t, paths);
    OverlayOfSame(t, ArchiveOf(t, paths));
  }

  lemma OverlayOfSame(t: FileTree, es: seq<Entry>)
    requires forall p | p in FilesOf(es) :: p in t && t[p] == File(FilesOf(es)[p])
    requires forall d | d in DirsOf(es) :: d in t
    ensures Overlay(t, es) == t
  {
  }

  // The first component decides, and parents share it.
  lemma ExcludedIsUntouched(t: FileTree, paths: seq<Path>, q: Path)
    requires WellFormed(t) && ProperNames(t) && BackupPaths(t, paths) && q != [] && !Included(q)
    ensures q !in FilesOf(ArchiveOf(t, paths)) && q !in DirsOf(ArchiveOf(t, paths))
  {
    ArchivePaths(t, paths);
    var es := ArchiveOf(t, paths);
    forall p | p in paths
      ensures p != [] && p[0] != q[0] && !IsPrefix(q, Parent(p))
    {
      assert IsFile(t, p) && Included(p);
    }
    if q in DirsOf(es) {
      DirsAreExplained(es, q);
    }
  }

  /** Backup, then restore over any later tree: every archived file has its
      original bytes again, excluded paths are left alone, and so is every other
      file or link. */
  lemma BackupRestoreRoundTrip(t: FileTree, paths: seq<Path>, later: FileTree)
    requires WellFormed(t) && ProperNames(t) && BackupPaths(t, paths)
    ensures var restored := Overlay(later, ArchiveOf(t, paths));
            && (forall p | IsFile(t, p) && Included(p) :: p in restored && restored[p] == t[p])
            && (forall p | p != [] && !Included(p) :: p in restored <==> p in later)
            && (forall p | p in later && !(IsFile(t, p) && Included(p)) :: p in restored && restored[p] == later[p])
  {
    ArchivePaths(t, paths);
    forall p | p != [] && !Included(p)
      ensures p !in FilesOf(ArchiveOf(t, paths)) && p !in DirsOf(ArchiveOf(t, paths))
    {
      ExcludedIsUntouched(t, paths, p);
    }
  }

  ghost predicate AllSafe(paths: seq<Path>) {
    forall p | p in paths :: SafeMember(JoinSlash(p))
  }

  lemma {:induction false} SameTreeUsage(t: FileTree, paths: seq<Path>)
    requires WellFormed(t) && ProperNames(t) && (forall p | p in paths :: IsFile(t, p)) && Distinct(paths)
    ensures ProjectedUsage(t, ArchiveOf(t, paths)) == TreeSize(t)
  {
    ArchivePaths(t, paths);
    assert OverlayFiles(t, FilesOf(ArchiveOf(t, paths))) == t;
  }

  // The bytes of the listed files.
  ghost function BytesOf(t: FileTree, paths: seq<Path>): nat
    requires forall p | p in paths :: IsFile(t, p)
  {
    TotalBytes(ArchiveOf(t, paths))
  }

  /** Exactly when a backup can be restored into the tree it was taken from: all
      its names are accepted by safe_member, and the limits and the quota admit
      it. A name with a backslash, or a first letter followed by a colon, is
      archived but refused on the way back. */
  lemma RestorableInPlace(t: FileTree, paths: seq<Path>, limits: ArchiveLimits, quota: u64)
    requires WellFormed(t) && ProperNames(t) && (forall p | p in paths :: IsFile(t, p)) && Distinct(paths)
    ensures Expandable(t, ArchiveOf(t, paths), limits, quota) <==>
            && AllSafe(paths)
            && |paths| <= limits.maxEntries
            && (forall p | p in paths :: LenAt(t, p) <= limits.maxFileBytes)
            && BytesOf(t, paths) <= limits.maxTotalBytes
            && (paths != [] ==> TreeSize(t) <= quota)
  {
    var es := ArchiveOf(t, paths);
    BackupIsConflictFree(t, paths);
    PlainBackup(t, paths, limits);
    forall k | 0 < k <= |es|
      ensures QuotaAt(t, es, k, quota) <==> TreeSize(t) <= quota
    {
      BackupUsageAt(t, paths, k);
    }
    if Expandable(t, es, limits, quota) && paths != [] {
      assert QuotaAt(t, es, |es|, quota);
    }
  }

  lemma PlainFile(t: FileTree, p: Path, limits: ArchiveLimits)
    requires WellFormed(t) && ProperNames(t) && IsFile(t, p)
    ensures PlainEntry(EntryFor(t, p), limits) <==> SafeMember(JoinSlash(p)) && LenAt(t, p) <= limits.maxFileBytes
  {
    assert p != [] && ProperPath(p);
    MemberNameRoundTrip(p);
  }

  lemma PlainBackup(t: FileTree, paths: seq<Path>, limits: ArchiveLimits)
    requires WellFormed(t) && ProperNames(t) && (forall p | p in paths :: IsFile(t, p))
    ensures (forall e | e in ArchiveOf(t, paths) :: PlainEntry(e, limits)) <==>
            AllSafe(paths) && forall p | p in paths :: LenAt(t, p) <= limits.maxFileBytes
  {
    var es := ArchiveOf(t, paths);
    forall p | p in paths
      ensures EntryFor(t, p) in es
    {
      var i :| 0 <= i < |paths| && paths[i] == p;
      assert es[i] == EntryFor(t, p);
    }
    forall p | p in paths
      ensures PlainEntry(EntryFor(t, p), limits) <==> SafeMember(JoinSlash(p)) && LenAt(t, p) <= limits.maxFileBytes
    {
      PlainFile(t, p, limits);
    }
    forall e | e in es
      ensures exists p :: p in paths && e == EntryFor(t, p)
    {
      var i :| 0 <= i < |es| && es[i] == e;
      assert paths[i] in paths;
    }
  }

  // Restoring any part of a backup in place leaves the usage as it is.
  lemma BackupUsageAt(t: FileTree, paths: seq<Path>, k: nat)
    requires WellFormed(t) && ProperNames(t) && (forall p | p in paths :: IsFile(t, p)) && Distinct(paths)
    requires 0 < k <= |paths|
    ensures ArchiveOf(t, paths)[k - 1].kind.RegularFile?
    ensures ProjectedUsage(t, ArchiveOf(t, paths)[..k]) == TreeSize(t)
  {
    forall p | p in paths[..k]
      ensures IsFile(t, p)
    {
      assert p in paths;
    }
    assert ArchiveOf(t, paths)[..k] == ArchiveOf(t, paths[..k]);
    SameTreeUsage(t, paths[..k]);
  }

  /** A file that is archived but never restored: its name holds a backslash,
      which safe_member refuses under any limits. */
  lemma ArchivedButRefused(limits: ArchiveLimits, quota: u64)
    ensures var t := map[["a\\b"] := File([])];
            && WellFormed(t) && ProperNames(t) && BackupPaths(t, [["a\\b"]])
            && !Expandable(t, ArchiveOf(t, [["a\\b"]]), limits, quota)
  {
    var p := ["a\\b"];
    var t := map[p := File([])];
    assert Parent(p) == [];
    assert p[0] == "a\\b" && "a\\b"[1] == '\\';
    AShortNameIsIncluded(p);
    assert [p][0] == p;
    var es := ArchiveOf(t, [p]);
    assert es[0] == EntryFor(t, p) && es[0] in es;
    assert JoinSlash(p) == "a\\b";
    assert !PlainEntry(es[0], limits);
  }

  lemma AShortNameIsIncluded(p: Path)
    requires p != [] && |p[0]| == 3
    ensures Included(p)
  {
    assert forall x | x in EXCLUDED || x in EXCLUDED_FILES :: |x| > 3;
  }

  /** The whole cycle on two directories: whatever the target has become, a
      restore that reports success brings every backed-up file back; and on two
      machines that do not fail it succeeds exactly when it is admissible. */
  method BackupThenRestore(source: ScopedFs, target: ScopedFs, suffix: string, limits: ArchiveLimits, quota: u64)
    returns (ok: bool, ghost paths: seq<Path>)
    requires source.Valid() && target.Valid() && ProperNames(source.tree) && source != target
    requires forall p | p in source.tree || p in target.tree :: !InStaging(RESTORE_STAGING_PREFIX + suffix, p)
    modifies target
    ensures target.Valid()
    ensures ok ==> forall p | IsFile(source.tree, p) && Included(p) ::
              p in target.tree && target.tree[p] == source.tree[p]
    ensures ok ==> forall p | p in old(target.tree) && !(IsFile(source.tree, p) && Included(p)) ::
              p in target.tree && target.tree[p] == old(target.tree)[p]
    ensures !source.faulty ==> BackupPaths(source.tree, paths)
    ensures !source.faulty && !target.faulty && target.lookupsReliable && TreeSize(old(target.tree)) <= U64_MAX ==>
              (ok <==> && Expandable(old(target.tree), ArchiveOf(source.tree, paths), limits, quota)
                       && NoConflict(old(target.tree), ArchiveOf(source.tree, paths)))
  {
    var archive;
    archive, paths := CreateArchive(source);
    if archive.None? {
      return false, paths;
    }
    ArchivePaths(source.tree, paths);
    var s := RESTORE_STAGING_PREFIX + suffix;
    forall e | e in archive.value
      ensures !InStaging(s, Target(e))
    {
      var i :| 0 <= i < |archive.value| && archive.value[i] == e;
      assert paths[i] in paths;
    }
    var r, cleaned, _, _ := Restore.Restore(target, suffix, archive.value, limits, quota);
    BackupRestoreRoundTrip(source.tree, paths, old(target.tree));
    ok := r.Ok?;
    if ok {
      forall p | p in Live(target.tree, s)
        ensures p in target.tree && target.tree[p] == Overlay(old(target.tree), archive.value)[p]
      {
      }
      assert forall p | p in Overlay(old(target.tree), archive.value) :: p in Live(target.tree, s);
    }
  }
}
