// The staging phase of a restore (crates/guardian/src/backup.rs): every archive
// entry is expanded below a fresh directory inside the live tree, with entry,
// byte and quota limits, before anything the operator sees is touched.
module Staging {
  import opened Options
  import opened Tree
  import opened ScopedFiles
  import opened Archive

  datatype RestoreError = UnsafeArchiveEntry | ArchiveLimit | ServerDiskQuotaExceeded | Io
  datatype Result<+T> = Ok(value: T) | Err(error: RestoreError)

  // The running byte counters of expand_and_commit.
  datatype Counters = Counters(total: u64, usage: u64)

  datatype ArchiveLimits = ArchiveLimits(maxEntries: nat, maxTotalBytes: u64, maxFileBytes: u64)

  const RESTORE_STAGING_PREFIX := ".mcpanel-restore-"
  const COPY_BUFFER := 65536

  /* ----- the staging subtree ----- */

  function Staged(s: string, p: Path): Path { [s, "new"] + p }

  function Saved(s: string, p: Path): Path { [s, "old"] + p }

  predicate InStaging(s: string, p: Path) { p != [] && p[0] == s }

  // What the operator sees: everything outside the staging subtree.
  ghost function Live(t: FileTree, s: string): FileTree {
    map p | p in t && !InStaging(s, p) :: t[p]
  }

  // The random suffix makes the staging name new to the tree and the archive.
  ghost predicate Fresh(t: FileTree, es: seq<Entry>, s: string) {
    && (forall p | p in t :: !InStaging(s, p))
    && (forall e | e in es :: !InStaging(s, Target(e)))
  }

  lemma StagingParents(s: string, p: Path)
    requires p != []
    ensures Parent(Staged(s, p)) == Staged(s, Parent(p))
    ensures Parent(Saved(s, p)) == Saved(s, Parent(p))
  {
  }

  lemma StagedIsInjective(s: string, p: Path, q: Path)
    ensures Staged(s, p) == Staged(s, q) <==> p == q
    ensures Saved(s, p) == Saved(s, q) <==> p == q
    ensures Staged(s, p) != Saved(s, q)
  {
    assert Staged(s, p)[2..] == p && Staged(s, q)[2..] == q;
    assert Saved(s, p)[2..] == p && Saved(s, q)[2..] == q;
    assert Staged(s, p)[1] != Saved(s, q)[1];
  }

  // The prefixes of a staged path.
  lemma PrefixesOfStaged(s: string, q: Path, p: Path)
    requires q != [] && IsPrefix(q, Staged(s, p))
    ensures q == [s] || (exists r :: IsPrefix(r, p) && q == Staged(s, r))
  {
    if |q| > 1 {
      var r := p[..|q| - 2];
      assert q == Staged(s, r);
      assert IsPrefix(r, p);
    } else {
      assert q == [Staged(s, p)[0]];
    }
  }

  lemma PrefixesOfSaved(s: string, q: Path, p: Path)
    requires q != [] && IsPrefix(q, Saved(s, p))
    ensures q == [s] || (exists r :: IsPrefix(r, p) && q == Saved(s, r))
  {
    if |q| > 1 {
      var r := p[..|q| - 2];
      assert q == Saved(s, r);
      assert IsPrefix(r, p);
    } else {
      assert q == [Saved(s, p)[0]];
    }
  }

  // Directories created for a path outside the staging subtree stay outside it.
  lemma PrefixStaysLive(s: string, q: Path, p: Path)
    requires q != [] && IsPrefix(q, p) && !InStaging(s, p)
    ensures !InStaging(s, q)
  {
  }

  lemma PrefixStaysStaged(s: string, q: Path, p: Path)
    requires q != [] && IsPrefix(q, p) && InStaging(s, p)
    ensures InStaging(s, q)
  {
  }

  // Work inside the staging subtree does not show outside it.
  lemma GrewInStaging(before: FileTree, after: FileTree, p: Path, s: string)
    requires Grew(before, after, p) && InStaging(s, p) && [] !in after
    ensures Live(after, s) == Live(before, s)
  {
  }

  /* ----- the staging phase ----- */

  // The staged subtree holds exactly what the entries read so far ask for.
  ghost predicate StagedIs(t: FileTree, s: string, dirs: set<Path>, files: map<Path, Bytes>) {
    && (forall q :: Staged(s, q) in t <==> q == [] || q in dirs || q in files)
    && (forall q | q == [] || q in dirs :: Staged(s, q) in t && t[Staged(s, q)] == Dir)
    && (forall q | q in files :: Staged(s, q) in t && t[Staged(s, q)] == File(files[q]))
  }

  // Nothing has been displaced yet.
  ghost predicate NothingSaved(t: FileTree, s: string) {
    && IsDir(t, Saved(s, []))
    && forall q | q != [] :: Saved(s, q) !in t
  }

  lemma GrewStaged(before: FileTree, after: FileTree, p: Path, s: string, dirs: set<Path>, files: map<Path, Bytes>)
    requires WellFormed(before) && WellFormed(after)
    requires StagedIs(before, s, dirs, files) && NothingSaved(before, s)
    requires after == WithDirs(before, Staged(s, p)) && Passable(after, Staged(s, p))
    requires dirs !! files.Keys
    ensures StagedIs(after, s, dirs + Ancestors(p), files) && NothingSaved(after, s)
    ensures Ancestors(p) !! files.Keys
  {
    forall q
      ensures Staged(s, q) in after <==> q == [] || q in dirs + Ancestors(p) || q in files
    {
      StagedPrefix(s, q, p);
    }
    forall q | q in Ancestors(p)
      ensures Staged(s, q) in after && after[Staged(s, q)] == Dir && q !in files
    {
      StagedPrefix(s, q, p);
    }
    forall q | q != []
      ensures Saved(s, q) !in after
    {
      if IsPrefix(Saved(s, q), Staged(s, p)) {
        PrefixesOfStaged(s, Saved(s, q), p);
        var r :| Saved(s, q) == Staged(s, r);
        StagedIsInjective(s, r, q);
      }
    }
  }

  lemma StagedPrefix(s: string, q: Path, p: Path)
    ensures IsPrefix(Staged(s, q), Staged(s, p)) <==> IsPrefix(q, p)
    ensures IsPrefix(Saved(s, q), Saved(s, p)) <==> IsPrefix(q, p)
  {
    if |q| <= |p| {
      assert Staged(s, p)[..|q| + 2] == Staged(s, p[..|q|]);
      assert Saved(s, p)[..|q| + 2] == Saved(s, p[..|q|]);
      StagedIsInjective(s, p[..|q|], q);
    }
  }

  // Writing one staged file leaves everything else where it is.
  lemma PutStagedFile(t: FileTree, s: string, p: Path, bytes: Bytes, dirs: set<Path>, files: map<Path, Bytes>)
    requires StagedIs(t, s, dirs, files) && NothingSaved(t, s)
    requires p != [] && p !in dirs
    ensures StagedIs(t[Staged(s, p) := File(bytes)], s, dirs, files[p := bytes])
    ensures NothingSaved(t[Staged(s, p) := File(bytes)], s)
    ensures Live(t[Staged(s, p) := File(bytes)], s) == Live(t, s)
  {
    forall q
      ensures Staged(s, q) == Staged(s, p) <==> q == p
      ensures Saved(s, q) != Staged(s, p)
    {
      StagedIsInjective(s, q, p);
      StagedIsInjective(s, p, q);
    }
  }

  /* ----- limits and quota ----- */

  ghost function TotalBytes(es: seq<Entry>): nat {
    if es == [] then
      0
    else
      var e := es[|es| - 1];
      TotalBytes(es[..|es| - 1]) + (if e.kind.RegularFile? then |e.content| else 0)
  }

  // What copy_limited demands before each write.
  predicate CopyAllowed(n: nat, already: nat, limits: ArchiveLimits, usage: nat, replaced: nat, quota: nat) {
    n == 0 || (n <= limits.maxFileBytes && already + n <= limits.maxTotalBytes
               && replaced <= usage && usage - replaced + n <= quota)
  }

  ghost predicate PartWritten(before: FileTree, after: FileTree, staged: Path, content: Bytes, n: nat) {
    n <= |content| && after == before[staged := File(content[..n])]
  }

  lemma WriteMore(before: FileTree, mid: FileTree, after: FileTree, staged: Path, content: Bytes, n: nat, chunk: Bytes)
    requires PartWritten(before, mid, staged, content, n)
    requires n + |chunk| <= |content| && chunk == content[n..n + |chunk|]
    requires after == mid[staged := File(content[..n] + chunk)]
    ensures PartWritten(before, after, staged, content, n + |chunk|)
  {
    assert content[..n] + chunk == content[..n + |chunk|];
  }

  lemma SlicePrefix(content: Bytes, start: nat, end: nat, n: nat)
    requires start <= end <= |content| && n <= end - start
    ensures content[start..end][..n] == content[start..start + n]
  {
  }

  // The staged file never holds a byte that a limit forbids.
  method CopyLimited(fs: ScopedFs, staged: Path, content: Bytes, already: u64, limits: ArchiveLimits,
                     usage: u64, replaced: nat, quota: u64)
    returns (r: Result<u64>, ghost written: nat)
    requires fs.Valid() && staged in fs.tree && fs.tree[staged] == File([])
    modifies fs
    ensures fs.Valid()
    ensures PartWritten(old(fs.tree), fs.tree, staged, content, written)
    ensures CopyAllowed(written, already, limits, usage, replaced, quota)
    ensures r.Ok? ==> r.value == written == |content|
    ensures CopyAllowed(|content|, already, limits, usage, replaced, quota) && !fs.faulty ==> r.Ok?
  {
    var fileBytes: nat := 0;
    written := 0;
    assert content[..0] == [];
    while fileBytes < |content|
      invariant written == fileBytes <= |content|
      invariant fs.Valid() && PartWritten(old(fs.tree), fs.tree, staged, content, fileBytes)
      invariant CopyAllowed(fileBytes, already, limits, usage, replaced, quota)
    {
      var failed := fs.Fault(MayFail);
      if failed {
        return Err(Io), written;
      }
      var read: nat :| 1 <= read <= COPY_BUFFER && read <= |content| - fileBytes;
      var nextFile := fileBytes + read;
      if nextFile > U64_MAX || already + nextFile > U64_MAX
         || nextFile > limits.maxFileBytes || already + nextFile > limits.maxTotalBytes
      {
        return Err(ArchiveLimit), written;
      }
      if usage < replaced || usage - replaced + nextFile > U64_MAX || usage - replaced + nextFile > quota {
        return Err(ServerDiskQuotaExceeded), written;
      }
      var reached := AppendPart(fs, staged, content, fileBytes, nextFile, old(fs.tree));
      written := reached;
      if reached < nextFile {
        return Err(Io), written;
      }
      fileBytes := nextFile;
    }
    r := Ok(fileBytes);
  }

  method AppendPart(fs: ScopedFs, staged: Path, content: Bytes, start: nat, end: nat, ghost before: FileTree)
    returns (reached: nat)
    requires fs.Valid() && staged in fs.tree
    requires start < end <= |content| && PartWritten(before, fs.tree, staged, content, start)
    modifies fs
    ensures fs.Valid() && start <= reached <= end
    ensures PartWritten(before, fs.tree, staged, content, reached)
    ensures !fs.faulty ==> reached == end
  {
    ghost var mid := fs.tree;
    var chunk := content[start..end];
    var ok := fs.Append(staged, chunk);
    reached := end;
    if ok {
      WriteMore(before, mid, fs.tree, staged, content, start, chunk);
    } else {
      ghost var n :| 0 <= n <= |chunk| && PartAppended(mid, fs.tree, staged, chunk[..n]);
      SlicePrefix(content, start, end, n);
      WriteMore(before, mid, fs.tree, staged, content, start, chunk[..n]);
      reached := |fs.tree[staged].content|;
    }
  }

  /* ----- expanding one entry ----- */

  // The usage the counter stands for: the live tree with the staged files on top.
  ghost function ProjectedUsage(live: FileTree, es: seq<Entry>): nat {
    TreeSize(OverlayFiles(live, FilesOf(es)))
  }

  /** When entry `e`, read after `init`, is staged on a machine that does not
      fail: an accepted name, a plain kind, no clash with a staged path, and
      every limit respected by the tree the restore would produce. */
  ghost predicate EntryAccepted(live: FileTree, init: seq<Entry>, e: Entry, limits: ArchiveLimits, quota: u64) {
    && SafeMember(e.raw)
    && |init| < limits.maxEntries
    && (e.kind.Directory? || e.kind.RegularFile?)
    && DirsOfEntry(e) !! FilesOf(init).Keys
    && (e.kind.RegularFile? ==>
          && Target(e) != [] && e.declared <= limits.maxFileBytes
          && Target(e) !in DirsOf(init) && Target(e) !in FilesOf(init)
          && (e.content != [] ==> |e.content| <= limits.maxFileBytes
                                  && TotalBytes(init) + |e.content| <= limits.maxTotalBytes)
          && ProjectedUsage(live, init + [e]) <= quota)
  }

  // What one entry must be, whatever comes before it.
  predicate PlainEntry(e: Entry, limits: ArchiveLimits) {
    && SafeMember(e.raw)
    && (e.kind.Directory? || e.kind.RegularFile?)
    && (e.kind.RegularFile? ==>
          Target(e) != [] && e.declared <= limits.maxFileBytes && |e.content| <= limits.maxFileBytes)
  }

  /** Which archives can be staged: safe names and plain entries, no path used
      twice, the count and the totals within the limits, and the tree that each
      prefix ending in a file would produce within the quota. */
  ghost predicate Expandable(live: FileTree, es: seq<Entry>, limits: ArchiveLimits, quota: u64) {
    && |es| <= limits.maxEntries
    && (forall e | e in es :: PlainEntry(e, limits))
    && ConflictFree(es)
    && TotalBytes(es) <= limits.maxTotalBytes
    && (forall k | 0 < k <= |es| :: QuotaAt(live, es, k, quota))
  }

  lemma ConflictFreeExtends(init: seq<Entry>, e: Entry)
    requires e.kind.Directory? || (e.kind.RegularFile? && Target(e) != [])
    ensures ConflictFree(init + [e]) <==>
            && ConflictFree(init) && DirsOfEntry(e) !! FilesOf(init).Keys
            && (e.kind.RegularFile? ==> Target(e) !in DirsOf(init) && Target(e) !in FilesOf(init))
  {
    ExtendByEntry(init, e);
    FilePathsAreFiles(init);
    var before, after := FilePaths(init), FilePaths(init + [e]);
    assert forall i | 0 <= i < |before| :: after[i] == before[i];
    if e.kind.RegularFile? {
      PrefixStep(Target(e));
      assert Target(e) !in DirsOfEntry(e);
      assert after[|before|] == Target(e);
      if Target(e) in before {
        var i :| 0 <= i < |before| && before[i] == Target(e);
        assert after[i] == after[|before|];
      }
    }
  }

  // If the k-th entry is a file, the tree so far fits the quota.
  ghost predicate QuotaAt(live: FileTree, es: seq<Entry>, k: nat, quota: nat)
    requires 0 < k <= |es|
  {
    es[k - 1].kind.RegularFile? ==> ProjectedUsage(live, es[..k]) <= quota
  }

  lemma QuotaAtPrefix(live: FileTree, init: seq<Entry>, e: Entry, k: nat, quota: nat)
    requires 0 < k <= |init|
    ensures QuotaAt(live, init + [e], k, quota) <==> QuotaAt(live, init, k, quota)
  {
    assert (init + [e])[..k] == init[..k];
  }

  lemma UsageExtends(live: FileTree, init: seq<Entry>, e: Entry, quota: nat)
    ensures (forall k | 0 < k <= |init| + 1 :: QuotaAt(live, init + [e], k, quota))
            <==> && (forall k | 0 < k <= |init| :: QuotaAt(live, init, k, quota))
                 && (e.kind.RegularFile? ==> ProjectedUsage(live, init + [e]) <= quota)
  {
    assert (init + [e])[..|init| + 1] == init + [e];
    assert QuotaAt(live, init + [e], |init| + 1, quota) <==>
           (e.kind.RegularFile? ==> ProjectedUsage(live, init + [e]) <= quota);
    forall k | 0 < k <= |init|
      ensures QuotaAt(live, init + [e], k, quota) <==> QuotaAt(live, init, k, quota)
    {
      QuotaAtPrefix(live, init, e, k, quota);
    }
  }

  /** An archive can be staged exactly when staging would accept its entries one
      after the other. */
  lemma ExpandableExtends(live: FileTree, init: seq<Entry>, e: Entry, limits: ArchiveLimits, quota: u64)
    ensures Expandable(live, init + [e], limits, quota) <==>
            Expandable(live, init, limits, quota) && EntryAccepted(live, init, e, limits, quota)
  {
    ExtendByEntry(init, e);
    UsageExtends(live, init, e, quota);
    assert e in init + [e] && forall x | x in init :: x in init + [e];
    if PlainEntry(e, limits) {
      ConflictFreeExtends(init, e);
    }
  }

  lemma {:induction false} ExpandablePrefix(live: FileTree, es: seq<Entry>, k: nat, limits: ArchiveLimits, quota: u64)
    requires k <= |es| && Expandable(live, es, limits, quota)
    ensures Expandable(live, es[..k], limits, quota)
  {
    if k < |es| {
      var init := es[..|es| - 1];
      assert es == init + [es[|es| - 1]];
      ExpandableExtends(live, init, es[|es| - 1], limits, quota);
      ExpandablePrefix(live, init, k, limits, quota);
      assert init[..k] == es[..k];
    } else {
      assert es[..k] == es;
    }
  }

  // What the loop of expand_and_commit knows after reading `es`.
  ghost predicate Expanded(t: FileTree, live: FileTree, s: string, es: seq<Entry>, limits: ArchiveLimits, total: nat) {
    && StagingHolds(t, live, s, DirsOf(es), FilesOf(es))
    && Admitted(es, limits, total)
  }

  ghost predicate StagingHolds(t: FileTree, live: FileTree, s: string, dirs: set<Path>, files: map<Path, Bytes>) {
    WellFormed(t) && Live(t, s) == live && StagedIs(t, s, dirs, files) && NothingSaved(t, s)
  }

  // The entries read so far are safe, plain, free of clashes and within the limits.
  ghost predicate Admitted(es: seq<Entry>, limits: ArchiveLimits, total: nat) {
    && ConflictFree(es) && [] !in FilesOf(es)
    && |es| <= limits.maxEntries
    && (forall e | e in es :: SafeMember(e.raw) && (e.kind.Directory? || e.kind.RegularFile?)
                              && (e.kind.RegularFile? ==> |e.content| <= limits.maxFileBytes))
    && total == TotalBytes(es) <= limits.maxTotalBytes
  }

  lemma AdmitFile(init: seq<Entry>, e: Entry, limits: ArchiveLimits, total: nat)
    requires Admitted(init, limits, total)
    requires SafeMember(e.raw) && |init| < limits.maxEntries && e.kind.RegularFile? && Target(e) != []
    requires Target(e) !in FilesOf(init) && Target(e) !in DirsOf(init)
    requires Ancestors(Parent(Target(e))) !! FilesOf(init).Keys
    requires |e.content| <= limits.maxFileBytes && total + |e.content| <= limits.maxTotalBytes
    ensures Admitted(init + [e], limits, total + |e.content|)
  {
    ExtendByEntry(init, e);
    DistinctWithOneMore(init, Target(e));
    PrefixStep(Target(e));
    assert Target(e) !in Ancestors(Parent(Target(e)));
  }

  lemma CountFile(live: FileTree, init: seq<Entry>, e: Entry, usage: nat, replaced: nat, reliable: bool)
    requires UsageCounts(live, init, usage, reliable)
    requires e.kind.RegularFile? && Target(e) !in FilesOf(init)
    requires replaced <= LenAt(live, Target(e))
    requires reliable ==> replaced == LenAt(live, Target(e))
    ensures TreeSize(live) <= U64_MAX ==> replaced <= usage
    ensures replaced <= usage ==> UsageCounts(live, init + [e], usage - replaced + |e.content|, reliable)
  {
    ExtendByEntry(init, e);
    OverlayOneFile(live, FilesOf(init), Target(e), e.content);
    if Target(e) in live {
      ReplacedIsCounted(live, init, Target(e));
    }
  }

  // The counter is exact when the lookups are truthful and the tree fits 64 bits.
  ghost predicate UsageCounts(live: FileTree, es: seq<Entry>, usage: nat, reliable: bool) {
    TreeSize(live) <= U64_MAX ==>
      ProjectedUsage(live, es) <= usage && (reliable ==> usage == ProjectedUsage(live, es))
  }

  lemma ExtendByEntry(init: seq<Entry>, e: Entry)
    ensures (init + [e])[..|init|] == init && (init + [e])[|init|] == e
    ensures DirsOf(init + [e]) == DirsOf(init) + DirsOfEntry(e)
    ensures FilesOf(init + [e]) == if e.kind.RegularFile? then FilesOf(init)[Target(e) := e.content] else FilesOf(init)
    ensures FilePaths(init + [e]) == FilePaths(init) + (if e.kind.RegularFile? then [Target(e)] else [])
    ensures DirPaths(init + [e]) == DirPaths(init) + (if e.kind.Directory? && Target(e) != [] then [Target(e)] else [])
    ensures TotalBytes(init + [e]) == TotalBytes(init) + (if e.kind.RegularFile? then |e.content| else 0)
  {
  }

  lemma DistinctWithOneMore(init: seq<Entry>, p: Path)
    requires Distinct(FilePaths(init)) && p !in FilesOf(init)
    ensures Distinct(FilePaths(init) + [p])
  {
    FilePathsAreFiles(init);
  }

  // A file replaced for the first time is part of what the counter counts.
  lemma ReplacedIsCounted(live: FileTree, es: seq<Entry>, p: Path)
    requires p in live && p !in FilesOf(es)
    ensures Len(live[p]) <= ProjectedUsage(live, es)
  {
    var u := OverlayFiles(live, FilesOf(es));
    assert u[p] == live[p];
    SizeWithout(u, p);
  }

  // create_dir_all below the staged root.
  method StageDirs(fs: ScopedFs, s: string, p: Path,
                   ghost live: FileTree, ghost dirs: set<Path>, ghost files: map<Path, Bytes>)
    returns (ok: bool)
    requires StagingHolds(fs.tree, live, s, dirs, files) && dirs !! files.Keys && [] !in files
    modifies fs
    ensures fs.Valid() && Live(fs.tree, s) == live
    ensures ok ==> StagingHolds(fs.tree, live, s, dirs + Ancestors(p), files) && Ancestors(p) !! files.Keys
    ensures ok ==> Passable(fs.tree, Staged(s, p)) && WithDirs(fs.tree, Staged(s, p)) == fs.tree
    ensures !fs.faulty && Ancestors(p) !! files.Keys ==> ok
  {
    ghost var before := fs.tree;
    StagedPassable(before, s, p, dirs, files);
    ok := fs.CreateDirAll(Staged(s, p), MayFail);
    GrewInStaging(before, fs.tree, Staged(s, p), s);
    if ok {
      GrewStaged(before, fs.tree, p, s, dirs, files);
      GrownAlready(before, fs.tree, Staged(s, p));
    }
  }

  method StageDirectory(fs: ScopedFs, s: string, e: Entry, limits: ArchiveLimits,
                        ghost live: FileTree, ghost init: seq<Entry>, ghost total: nat)
    returns (ok: bool)
    requires Expanded(fs.tree, live, s, init, limits, total)
    requires SafeMember(e.raw) && |init| < limits.maxEntries && e.kind.Directory?
    modifies fs
    ensures fs.Valid() && Live(fs.tree, s) == live
    ensures ok ==> Expanded(fs.tree, live, s, init + [e], limits, total) && DirsOfEntry(e) !! FilesOf(init).Keys
    ensures !fs.faulty && DirsOfEntry(e) !! FilesOf(init).Keys ==> ok
  {
    ExtendByEntry(init, e);
    if Target(e) == [] {
      return true;
    }
    ok := StageDirs(fs, s, Target(e), live, DirsOf(init), FilesOf(init));
  }

  // In the staged subtree only staged files stand in the way of a directory.
  lemma StagedPassable(t: FileTree, s: string, p: Path, dirs: set<Path>, files: map<Path, Bytes>)
    requires WellFormed(t) && StagedIs(t, s, dirs, files)
    ensures Ancestors(p) !! files.Keys && dirs !! files.Keys && [] !in files ==> Passable(t, Staged(s, p))
  {
    if Ancestors(p) !! files.Keys && dirs !! files.Keys && [] !in files {
      forall q | q != [] && IsPrefix(q, Staged(s, p)) && q in t
        ensures t[q].Dir?
      {
        PrefixesOfStaged(s, q, p);
        if q == [s] {
          assert Parent(Staged(s, [])) == [s];
          assert Staged(s, []) in t;
        } else {
          var r :| IsPrefix(r, p) && q == Staged(s, r);
          assert r != [] ==> r in Ancestors(p);
        }
      }
    }
  }

  // Create the empty staged file, and learn what it will replace.
  method OpenStaged(fs: ScopedFs, s: string, p: Path,
                    ghost live: FileTree, ghost dirs: set<Path>, ghost files: map<Path, Bytes>)
    returns (ok: bool, replaced: nat)
    requires StagingHolds(fs.tree, live, s, dirs, files)
    requires dirs !! files.Keys && [] !in dirs && [] !in files && p != [] && !InStaging(s, p)
    modifies fs
    ensures fs.Valid() && Live(fs.tree, s) == live
    ensures ok ==> p !in files && p !in dirs && Ancestors(Parent(p)) !! files.Keys
    ensures ok ==> StagingHolds(fs.tree, live, s, dirs + Ancestors(Parent(p)), files[p := []])
    ensures ok ==> replaced <= LenAt(live, p)
    ensures ok && fs.lookupsReliable ==> replaced == LenAt(live, p)
    ensures !fs.faulty && Ancestors(Parent(p)) !! files.Keys && p !in dirs && p !in files ==> ok
  {
    StagingParents(s, p);
    PrefixStep(p);
    ok := StageDirs(fs, s, Parent(p), live, dirs, files);
    if !ok {
      return false, 0;
    }
    replaced := ReplacedSize(fs, s, p, live);
    ok := CreateStaged(fs, s, p, live, dirs + Ancestors(Parent(p)), files);
  }

  // The size of the file that is about to be replaced, 0 if there is none.
  method ReplacedSize(fs: ScopedFs, s: string, p: Path, ghost live: FileTree) returns (replaced: nat)
    requires Live(fs.tree, s) == live && !InStaging(s, p)
    modifies fs`misses
    ensures replaced <= LenAt(live, p)
    ensures fs.lookupsReliable ==> replaced == LenAt(live, p)
  {
    var existing := fs.Metadata(p);
    replaced := if existing.Some? && existing.value.File? then |existing.value.content| else 0;
    assert p in fs.tree <==> p in live;
  }

  // Create the empty file in a staged directory that exists.
  method CreateStaged(fs: ScopedFs, s: string, p: Path,
                      ghost live: FileTree, ghost dirs: set<Path>, ghost files: map<Path, Bytes>)
    returns (ok: bool)
    requires StagingHolds(fs.tree, live, s, dirs, files)
    requires dirs !! files.Keys && [] !in files && p != [] && Passable(fs.tree, Staged(s, Parent(p)))
    requires WithDirs(fs.tree, Staged(s, Parent(p))) == fs.tree
    modifies fs`tree
    ensures fs.Valid() && Live(fs.tree, s) == live
    ensures ok ==> p !in files && p !in dirs && StagingHolds(fs.tree, live, s, dirs, files[p := []])
    ensures !fs.faulty && p !in dirs && p !in files ==> ok
  {
    StagingParents(s, p);
    ghost var grown := fs.tree;
    ok := fs.CreateNewFile(Staged(s, p));
    if ok {
      PutStagedFile(grown, s, p, [], dirs, files);
    } else {
      NewFileInStaging(grown, fs.tree, s, p);
    }
  }

  lemma GrownAlready(before: FileTree, after: FileTree, p: Path)
    requires after == WithDirs(before, p) && Passable(after, p)
    ensures WithDirs(after, p) == after
  {
  }

  // Create the staged file and fill it.
  method WriteStaged(fs: ScopedFs, s: string, p: Path, content: Bytes, limits: ArchiveLimits,
                     total: u64, usage: u64, quota: u64,
                     ghost live: FileTree, ghost dirs: set<Path>, ghost files: map<Path, Bytes>)
    returns (r: Result<u64>, replaced: nat)
    requires StagingHolds(fs.tree, live, s, dirs, files)
    requires dirs !! files.Keys && [] !in dirs && [] !in files && p != [] && !InStaging(s, p)
    modifies fs
    ensures fs.Valid() && Live(fs.tree, s) == live
    ensures r.Ok? ==> p !in files && p !in dirs && Ancestors(Parent(p)) !! files.Keys && r.value == |content|
    ensures r.Ok? ==> StagingHolds(fs.tree, live, s, dirs + Ancestors(Parent(p)), files[p := content])
    ensures r.Ok? ==> CopyAllowed(|content|, total, limits, usage, replaced, quota)
    ensures r.Ok? ==> replaced <= LenAt(live, p)
    ensures r.Ok? && fs.lookupsReliable ==> replaced == LenAt(live, p)
    ensures (!fs.faulty && fs.lookupsReliable && Ancestors(Parent(p)) !! files.Keys && p !in dirs && p !in files
             && CopyAllowed(|content|, total, limits, usage, LenAt(live, p), quota)) ==> r.Ok?
  {
    var ok;
    ok, replaced := OpenStaged(fs, s, p, live, dirs, files);
    if !ok {
      return Err(Io), replaced;
    }
    PrefixStep(p);
    ghost var created := fs.tree;
    ghost var written;
    r, written := CopyLimited(fs, Staged(s, p), content, total, limits, usage, replaced, quota);
    PutStagedFile(created, s, p, content[..written], dirs + Ancestors(Parent(p)), files[p := []]);
    if r.Ok? {
      assert content[..written] == content;
      assert files[p := []][p := content] == files[p := content];
    }
  }

  method StageFile(fs: ScopedFs, s: string, e: Entry, limits: ArchiveLimits, total: u64, usage: u64, quota: u64,
                   ghost live: FileTree, ghost init: seq<Entry>)
    returns (r: Result<Counters>)
    requires Expanded(fs.tree, live, s, init, limits, total)
    requires UsageCounts(live, init, usage, fs.lookupsReliable)
    requires SafeMember(e.raw) && |init| < limits.maxEntries && e.kind.RegularFile? && !InStaging(s, Target(e))
    modifies fs
    ensures fs.Valid() && Live(fs.tree, s) == live
    ensures r.Ok? ==> Expanded(fs.tree, live, s, init + [e], limits, r.value.total)
    ensures r.Ok? ==> UsageCounts(live, init + [e], r.value.usage, fs.lookupsReliable) && r.value.usage <= quota
    ensures fs.lookupsReliable && TreeSize(live) <= U64_MAX && r.Ok? ==> EntryAccepted(live, init, e, limits, quota)
    ensures fs.lookupsReliable && TreeSize(live) <= U64_MAX && !fs.faulty && EntryAccepted(live, init, e, limits, quota)
            ==> r.Ok?
  {
    if e.declared > limits.maxFileBytes {
      return Err(ArchiveLimit);
    }
    if Target(e) == [] {
      return Err(UnsafeArchiveEntry);
    }
    DirsHaveNoRoot(init);
    ExtendByEntry(init, e);
    if fs.lookupsReliable && Target(e) !in FilesOf(init) {
      CountFile(live, init, e, usage, LenAt(live, Target(e)), true);
    }
    var copied, replaced := WriteStaged(fs, s, Target(e), e.content, limits, total, usage, quota,
                                        live, DirsOf(init), FilesOf(init));
    if copied.Err? {
      return Err(copied.error);
    }
    CountFile(live, init, e, usage, replaced, fs.lookupsReliable);
    if total + copied.value > U64_MAX {
      return Err(ArchiveLimit);
    }
    // for a tree of 64-bit size this subtraction is safe
    assert TreeSize(live) <= U64_MAX ==> replaced <= usage;
    if usage < replaced || usage - replaced + copied.value > U64_MAX {
      return Err(ServerDiskQuotaExceeded);
    }
    var usage': u64 := usage - replaced + copied.value;
    if usage' > quota {
      return Err(ServerDiskQuotaExceeded);
    }
    AdmitFile(init, e, limits, total);
    var total': u64 := total + copied.value;
    r := Ok(Counters(total', usage'));
  }

  lemma NewFileInStaging(before: FileTree, after: FileTree, s: string, p: Path)
    requires p != [] && [] !in after
    requires Grew(before, after, Parent(Staged(s, p)))
             || (Staged(s, p) !in before && Staged(s, p) in after
                 && Grew(before, after - {Staged(s, p)}, Parent(Staged(s, p))))
    ensures Live(after, s) == Live(before, s)
  {
    StagingParents(s, p);
    if Grew(before, after, Parent(Staged(s, p))) {
      GrewInStaging(before, after, Staged(s, Parent(p)), s);
    } else {
      GrewInStaging(before, after - {Staged(s, p)}, Staged(s, Parent(p)), s);
      assert Live(after, s) == Live(after - {Staged(s, p)}, s);
    }
  }
}
