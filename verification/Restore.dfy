// The transactional restore of crates/guardian/src/backup.rs: the staged files
// are renamed over the live tree one by one, with a journal of the displaced
// originals, and any failure rolls the journal back, newest first.
module Restore {
  import opened Options
  import opened Tree
  import opened ScopedFiles
  import opened DirectorySizes
  import opened Archive
  import opened MemberNames
  import opened Staging

  /* ----- expanding the whole archive ----- */

  // The relative paths the commit phase must publish, in archive order.
  datatype Plan = Plan(directories: seq<Path>, files: seq<Path>)

  lemma EmptyStagingIsWeightless(t: FileTree, s: string)
    requires forall p | p in t && InStaging(s, p) :: t[p] == Dir
    ensures TreeSize(t) == TreeSize(Live(t, s))
  {
    var scratch := map p | p in t && InStaging(s, p) :: t[p];
    assert t == Live(t, s) + scratch;
    SizeOfDirs(scratch);
    SizeOfUnion(Live(t, s), scratch);
  }

  // What is known of the staging phase after reading `es`.
  ghost predicate Progress(t: FileTree, live: FileTree, s: string, es: seq<Entry>,
                           limits: ArchiveLimits, c: Counters, reliable: bool)
  {
    && Expanded(t, live, s, es, limits, c.total)
    && UsageCounts(live, es, c.usage, reliable)
  }

  // One turn of the loop over the archive.
  method StageEntry(fs: ScopedFs, s: string, e: Entry, entries: nat, limits: ArchiveLimits, c: Counters, quota: u64,
                    ghost live: FileTree, ghost init: seq<Entry>)
    returns (r: Result<Counters>)
    requires entries == |init| + 1
    requires Progress(fs.tree, live, s, init, limits, c, fs.lookupsReliable)
    requires !InStaging(s, Target(e))
    modifies fs
    ensures fs.Valid() && Live(fs.tree, s) == live
    ensures r.Ok? ==> Progress(fs.tree, live, s, init + [e], limits, r.value, fs.lookupsReliable)
    ensures r.Ok? ==> StaysBelow([e])
    ensures r.Ok? && e.kind.RegularFile? ==> r.value.usage <= quota
    ensures r.Ok? && !e.kind.RegularFile? ==> r.value.usage == c.usage && e.kind.Directory?
    ensures fs.lookupsReliable && TreeSize(live) <= U64_MAX && r.Ok? ==> EntryAccepted(live, init, e, limits, quota)
    ensures fs.lookupsReliable && TreeSize(live) <= U64_MAX && !fs.faulty && EntryAccepted(live, init, e, limits, quota)
            ==> r.Ok?
  {
    var corrupt := fs.Fault(MayFail);
    if corrupt {
      return Err(Io);
    }
    if !SafeMember(e.raw) {
      return Err(UnsafeArchiveEntry);
    }
    AcceptedArchive([e]);
    if entries > limits.maxEntries {
      return Err(ArchiveLimit);
    }
    match e.kind {
      case LinkEntry => r := Err(UnsafeArchiveEntry);
      case OtherEntry => r := Err(UnsafeArchiveEntry);
      case Directory =>
        ExtendByEntry(init, e);
        var ok := StageDirectory(fs, s, e, limits, live, init, c.total);
        r := if ok then Ok(c) else Err(Io);
      case RegularFile =>
        r := StageFile(fs, s, e, limits, c.total, c.usage, quota, live, init);
    }
  }

  lemma ExpandableStep(live: FileTree, es: seq<Entry>, k: nat, limits: ArchiveLimits, quota: u64)
    requires k < |es|
    ensures es[..k + 1] == es[..k] + [es[k]]
    ensures Expandable(live, es, limits, quota) ==> EntryAccepted(live, es[..k], es[k], limits, quota)
    ensures Expandable(live, es[..k], limits, quota) && EntryAccepted(live, es[..k], es[k], limits, quota)
            ==> Expandable(live, es[..k] + [es[k]], limits, quota)
  {
    assert es[..k + 1] == es[..k] + [es[k]];
    ExpandableExtends(live, es[..k], es[k], limits, quota);
    if Expandable(live, es, limits, quota) {
      ExpandablePrefix(live, es, k + 1, limits, quota);
    }
  }

  lemma PathsGrow(init: seq<Entry>, e: Entry, directories: seq<Path>, files: seq<Path>)
    requires directories == DirPaths(init) && files == FilePaths(init)
    ensures e.kind.RegularFile? ==> directories == DirPaths(init + [e]) && files + [Target(e)] == FilePaths(init + [e])
    ensures e.kind.Directory? ==>
              (if Target(e) != [] then directories + [Target(e)] else directories) == DirPaths(init + [e])
              && files == FilePaths(init + [e])
  {
  }

  // The loop of expand_and_commit after reading `es`.
  ghost predicate Reading(t: FileTree, live: FileTree, s: string, es: seq<Entry>, limits: ArchiveLimits, quota: u64,
                          c: Counters, plan: Plan, reliable: bool)
  {
    && Progress(t, live, s, es, limits, c, reliable)
    && (plan.files != [] ==> c.usage <= quota)
    && plan == Plan(DirPaths(es), FilePaths(es))
    && (reliable && TreeSize(live) <= U64_MAX ==> Expandable(live, es, limits, quota))
  }

  function Extended(plan: Plan, e: Entry): Plan {
    if e.kind.RegularFile? then plan.(files := plan.files + [Target(e)])
    else if Target(e) != [] then plan.(directories := plan.directories + [Target(e)])
    else plan
  }

  lemma ReadOneMore(t: FileTree, live: FileTree, s: string, init: seq<Entry>, e: Entry, limits: ArchiveLimits,
                    quota: u64, c: Counters, c': Counters, plan: Plan, reliable: bool)
    requires plan == Plan(DirPaths(init), FilePaths(init))
    requires plan.files != [] ==> c.usage <= quota
    requires e.kind.RegularFile? || e.kind.Directory?
    requires Progress(t, live, s, init + [e], limits, c', reliable)
    requires if e.kind.RegularFile? then c'.usage <= quota else c'.usage == c.usage
    requires reliable && TreeSize(live) <= U64_MAX ==> Expandable(live, init + [e], limits, quota)
    ensures Reading(t, live, s, init + [e], limits, quota, c', Extended(plan, e), reliable)
  {
    PathsGrow(init, e, plan.directories, plan.files);
  }

  lemma ReadNothing(t: FileTree, live: FileTree, s: string, limits: ArchiveLimits, quota: u64, usage: u64,
                    reliable: bool)
    requires StagingHolds(t, live, s, {}, map[]) && usage == Saturated(TreeSize(live))
    ensures Reading(t, live, s, [], limits, quota, Counters(0, usage), Plan([], []), reliable)
  {
    OverlayNothing(live);
  }

  method Expand(fs: ScopedFs, s: string, archive: seq<Entry>, limits: ArchiveLimits, quota: u64, ghost live: FileTree)
    returns (r: Result<Plan>)
    requires StagingHolds(fs.tree, live, s, {}, map[])
    requires forall p | p in fs.tree && InStaging(s, p) :: fs.tree[p] == Dir
    requires forall e | e in archive :: !InStaging(s, Target(e))
    modifies fs
    ensures fs.Valid() && Live(fs.tree, s) == live
    ensures r.Ok? ==> Expanded(fs.tree, live, s, archive, limits, TotalBytes(archive))
    ensures r.Ok? ==> r.value == Plan(DirPaths(archive), FilePaths(archive))
    ensures r.Ok? && FilePaths(archive) != [] && TreeSize(live) <= U64_MAX ==> ProjectedUsage(live, archive) <= quota
    ensures fs.lookupsReliable && TreeSize(live) <= U64_MAX && r.Ok? ==> Expandable(live, archive, limits, quota)
    ensures fs.lookupsReliable && TreeSize(live) <= U64_MAX && !fs.faulty && Expandable(live, archive, limits, quota)
            ==> r.Ok?
  {
    var size := DirectorySize(fs);
    if size.None? {
      return Err(Io);
    }
    EmptyStagingIsWeightless(fs.tree, s);
    ReadNothing(fs.tree, live, s, limits, quota, size.value, fs.lookupsReliable);
    r := ReadEntries(fs, s, archive, limits, quota, size.value, live);
  }

  // The loop over the archive.
  method ReadEntries(fs: ScopedFs, s: string, archive: seq<Entry>, limits: ArchiveLimits, quota: u64, usage: u64,
                     ghost live: FileTree)
    returns (r: Result<Plan>)
    requires Reading(fs.tree, live, s, [], limits, quota, Counters(0, usage), Plan([], []), fs.lookupsReliable)
    requires forall e | e in archive :: !InStaging(s, Target(e))
    modifies fs
    ensures fs.Valid() && Live(fs.tree, s) == live
    ensures r.Ok? ==> exists c :: Reading(fs.tree, live, s, archive, limits, quota, c, r.value, fs.lookupsReliable)
    ensures fs.lookupsReliable && TreeSize(live) <= U64_MAX && !fs.faulty && Expandable(live, archive, limits, quota)
            ==> r.Ok?
  {
    var c, plan := Counters(0, usage), Plan([], []);
    var k := 0;
    assert archive[..0] == [];
    while k < |archive|
      invariant 0 <= k <= |archive|
      invariant Reading(fs.tree, live, s, archive[..k], limits, quota, c, plan, fs.lookupsReliable)
    {
      var staged := StageNth(fs, s, archive, k, limits, quota, c, plan, live);
      if staged.Err? {
        return Err(staged.error);
      }
      c, plan := staged.value, Extended(plan, archive[k]);
      k := k + 1;
    }
    assert archive[..k] == archive;
    r := Ok(plan);
  }

  method StageNth(fs: ScopedFs, s: string, archive: seq<Entry>, k: nat, limits: ArchiveLimits, quota: u64,
                  c: Counters, plan: Plan, ghost live: FileTree)
    returns (r: Result<Counters>)
    requires k < |archive| && Reading(fs.tree, live, s, archive[..k], limits, quota, c, plan, fs.lookupsReliable)
    requires !InStaging(s, Target(archive[k]))
    modifies fs
    ensures fs.Valid() && Live(fs.tree, s) == live
    ensures r.Ok? ==> Reading(fs.tree, live, s, archive[..k + 1], limits, quota, r.value,
                              Extended(plan, archive[k]), fs.lookupsReliable)
    ensures fs.lookupsReliable && TreeSize(live) <= U64_MAX && !fs.faulty && Expandable(live, archive, limits, quota)
            ==> r.Ok?
  {
    ExpandableStep(live, archive, k, limits, quota);
    r := StageNext(fs, s, archive[k], k + 1, limits, quota, c, plan, live, archive[..k]);
  }

  method StageNext(fs: ScopedFs, s: string, e: Entry, entries: nat, limits: ArchiveLimits, quota: u64,
                   c: Counters, plan: Plan, ghost live: FileTree, ghost init: seq<Entry>)
    returns (r: Result<Counters>)
    requires Reading(fs.tree, live, s, init, limits, quota, c, plan, fs.lookupsReliable)
    requires entries == |init| + 1 && !InStaging(s, Target(e))
    modifies fs
    ensures fs.Valid() && Live(fs.tree, s) == live
    ensures r.Ok? ==> Reading(fs.tree, live, s, init + [e], limits, quota, r.value, Extended(plan, e),
                              fs.lookupsReliable)
    ensures fs.lookupsReliable && TreeSize(live) <= U64_MAX && !fs.faulty && EntryAccepted(live, init, e, limits, quota)
            ==> r.Ok?
  {
    r := StageEntry(fs, s, e, entries, limits, c, quota, live, init);
    if r.Ok? {
      ExpandableExtends(live, init, e, limits, quota);
      ReadOneMore(fs.tree, live, s, init, e, limits, quota, c, r.value, plan, fs.lookupsReliable);
    }
  }

  /* ----- publishing one file ----- */

  // Only directories on the way to p, or to its place in the journal, appeared.
  ghost predicate OnlyPrepared(before: FileTree, after: FileTree, s: string, p: Path)
    requires p != []
  {
    && (forall q | q in before :: q in after && after[q] == before[q])
    && (forall q | q in after && q !in before ::
          after[q] == Dir && (IsPrefix(q, Parent(p)) || IsPrefix(q, Saved(s, Parent(p)))))
  }

  // The original of p now sits in the journal.
  ghost predicate Displaced(before: FileTree, after: FileTree, s: string, p: Path)
    requires p != []
  {
    && p in before && p !in after && Saved(s, p) in after && after[Saved(s, p)] == before[p]
    && (forall q | q in before && q != p && q != Saved(s, p) :: q in after && after[q] == before[q])
    && (forall q | q in after && q !in before && q != Saved(s, p) ::
          after[q] == Dir && (IsPrefix(q, Parent(p)) || IsPrefix(q, Saved(s, Parent(p)))))
  }

  // The staged file now sits at p, and its original, if any, in the journal.
  ghost predicate Published(before: FileTree, after: FileTree, s: string, p: Path, displaced: bool)
    requires p != []
  {
    && Staged(s, p) in before && p in after && after[p] == before[Staged(s, p)] && Staged(s, p) !in after
    && (displaced ==> p in before && Saved(s, p) in after && after[Saved(s, p)] == before[p])
    && (forall q | q in before && q != p && q != Staged(s, p) && !(displaced && q == Saved(s, p)) ::
          q in after && after[q] == before[q])
    && (forall q | q in after && q !in before && q != p && !(displaced && q == Saved(s, p)) ::
          after[q] == Dir && (IsPrefix(q, Parent(p)) || IsPrefix(q, Saved(s, Parent(p)))))
  }

  method Displace(fs: ScopedFs, s: string, p: Path) returns (ok: bool)
    requires fs.Valid() && p != [] && !InStaging(s, p) && IsLeaf(fs.tree, p)
    requires Saved(s, p) in fs.tree ==> !fs.tree[Saved(s, p)].Dir?
    modifies fs
    ensures fs.Valid()
    ensures Saved(s, p) !in old(fs.tree) ==> fs.misses == old(fs.misses)
    ensures Saved(s, p) !in old(fs.tree) && ok ==> Displaced(old(fs.tree), fs.tree, s, p)
    ensures Saved(s, p) !in old(fs.tree) && !ok ==> OnlyPrepared(old(fs.tree), fs.tree, s, p)
    ensures ok ==> forall q | q in old(fs.tree) && q != p && q != Saved(s, p) ::
                     q in fs.tree && fs.tree[q] == old(fs.tree)[q]
    ensures Saved(s, p) in fs.tree ==> !fs.tree[Saved(s, p)].Dir?
    ensures !fs.faulty && Saved(s, p) !in old(fs.tree) && Passable(old(fs.tree), Saved(s, Parent(p))) ==> ok
  {
    StagingParents(s, p);
    PrefixStep(Saved(s, p));
    StagedIsInjective(s, [], p);
    ok := fs.CreateDirAll(Saved(s, Parent(p)), MayFail);
    if !ok {
      return;
    }
    ghost var prepared := fs.tree;
    var journalled := fs.Metadata(Saved(s, p));
    if journalled.Some? {
      // the journal already holds the first version of p; keep that one
      WithoutLeaf(fs.tree, p);
      ok := fs.Remove(p, MayFail);
    } else {
      GrownAlready(old(fs.tree), prepared, Saved(s, Parent(p)));
      ok := fs.Rename(p, Saved(s, p), MayFail);
    }
  }

  /* publish_one: `Some(displaced)` when the staged file is in place. */
  method PublishOne(fs: ScopedFs, s: string, p: Path) returns (r: Option<bool>)
    requires fs.Valid() && p != [] && !InStaging(s, p)
    requires Staged(s, p) in fs.tree && fs.tree[Staged(s, p)].File?
    requires Saved(s, p) in fs.tree ==> !fs.tree[Saved(s, p)].Dir?
    modifies fs
    ensures fs.Valid()
    ensures Saved(s, p) !in old(fs.tree) && r.Some? ==> Published(old(fs.tree), fs.tree, s, p, r.value)
    ensures Saved(s, p) !in old(fs.tree) && r.Some? ==> !IsDir(old(fs.tree), p) && Passable(old(fs.tree), Parent(p))
    ensures Saved(s, p) !in old(fs.tree) && r.Some? && fs.lookupsReliable ==> r.value == (p in old(fs.tree))
    ensures Saved(s, p) !in old(fs.tree) ==> fs.misses == old(fs.misses) || fs.misses == old(fs.misses) + [p]
    ensures Saved(s, p) !in old(fs.tree) && r.Some? && p in old(fs.tree) ==> (r.value <==> fs.misses == old(fs.misses))
    ensures Saved(s, p) !in old(fs.tree) && fs.lookupsReliable ==> fs.misses == old(fs.misses)
    ensures Saved(s, p) !in old(fs.tree) && r.None? ==> OnlyPrepared(old(fs.tree), fs.tree, s, p)
    ensures (!fs.faulty && fs.lookupsReliable && Saved(s, p) !in old(fs.tree) && !IsDir(old(fs.tree), p)
             && Passable(old(fs.tree), Parent(p)) && Passable(old(fs.tree), Saved(s, Parent(p)))) ==> r.Some?
  {
    StagedIsInjective(s, p, p);
    ghost var start := fs.tree;
    var ok := PrepareParent(fs, s, p);
    if !ok {
      return None;
    }
    ghost var prepared := fs.tree;
    assert Parent(p) != p && Parent(p) != Saved(s, p);
    var existing := fs.Metadata(p);
    if existing.Some? && existing.value.Dir? {
      // a file never replaces a directory
      return None;
    }
    var displaced := existing.Some?;
    if displaced {
      ok := Displace(fs, s, p);
      if !ok {
        return None;
      }
    }
    ghost var cleared := fs.tree;
    ok := MoveIntoPlace(fs, s, p, displaced);
    if Saved(s, p) !in start {
      ComposePublish(start, prepared, cleared, fs.tree, s, p, displaced, ok);
    }
    r := if ok then Some(displaced) else None;
  }

  // Rename the staged file over p; if that fails, give a displaced original back.
  method MoveIntoPlace(fs: ScopedFs, s: string, p: Path, displaced: bool) returns (ok: bool)
    requires fs.Valid() && p != [] && !InStaging(s, p) && IsDir(fs.tree, Parent(p))
    requires Staged(s, p) in fs.tree && fs.tree[Staged(s, p)].File?
    requires Saved(s, p) in fs.tree ==> !fs.tree[Saved(s, p)].Dir?
    modifies fs`tree
    ensures fs.Valid()
    ensures ok ==> !IsDir(old(fs.tree), p)
                   && fs.tree == (old(fs.tree) - {Staged(s, p)})[p := old(fs.tree)[Staged(s, p)]]
    ensures !ok && !displaced ==> fs.tree == old(fs.tree)
    ensures !ok && displaced && Saved(s, p) in old(fs.tree) && p !in old(fs.tree) ==>
              fs.tree == (old(fs.tree) - {Saved(s, p)})[p := old(fs.tree)[Saved(s, p)]]
    ensures !fs.faulty && !IsDir(old(fs.tree), p) ==> ok
  {
    ExistingDir(fs.tree, Parent(p));
    ok := fs.Rename(Staged(s, p), p, MayFail);
    if !ok {
      GrewNothing(old(fs.tree), fs.tree, Parent(p));
      if displaced {
        // p itself is not in the list that the caller undoes
        var _ := fs.Rename(Saved(s, p), p, MustWork);
      }
    }
  }

  lemma ComposePublish(start: FileTree, prepared: FileTree, cleared: FileTree, after: FileTree,
                       s: string, p: Path, displaced: bool, ok: bool)
    requires p != [] && !InStaging(s, p) && Staged(s, p) in start && Saved(s, p) !in start
    requires OnlyPrepared(start, prepared, s, p) && (p in prepared <==> p in start) && Saved(s, p) !in prepared
    requires if displaced then Displaced(prepared, cleared, s, p) else cleared == prepared
    requires ok ==> after == (cleared - {Staged(s, p)})[p := cleared[Staged(s, p)]]
    requires !ok && !displaced ==> after == cleared
    requires !ok && displaced ==> after == (cleared - {Saved(s, p)})[p := cleared[Saved(s, p)]]
    ensures ok ==> Published(start, after, s, p, displaced)
    ensures !ok ==> OnlyPrepared(start, after, s, p)
  {
    StagedIsInjective(s, p, p);
    assert Staged(s, p) != Saved(s, p);
    assert cleared[Staged(s, p)] == start[Staged(s, p)];
  }

  method PrepareParent(fs: ScopedFs, s: string, p: Path) returns (ok: bool)
    requires fs.Valid() && p != [] && !InStaging(s, p)
    modifies fs`tree
    ensures fs.Valid() && OnlyPrepared(old(fs.tree), fs.tree, s, p)
    ensures ok ==> IsDir(fs.tree, Parent(p)) && Passable(old(fs.tree), Parent(p))
    ensures forall q | InStaging(s, q) :: q in fs.tree <==> q in old(fs.tree)
    ensures p in fs.tree <==> p in old(fs.tree)
    ensures !fs.faulty && Passable(old(fs.tree), Parent(p)) ==> ok
  {
    ok := true;
    PrefixStep(p);
    if Parent(p) != [] {
      ok := fs.CreateDirAll(Parent(p), MayFail);
      forall q | q in fs.tree && q !in old(fs.tree)
        ensures !InStaging(s, q) && q != p
      {
        PrefixStaysLive(s, q, Parent(p));
      }
    }
  }

  /* ----- the journal ----- */

  // The live tree is the original one with the first n files replaced.
  ghost predicate LiveKept(base: FileTree, t: FileTree, s: string, dirs: set<Path>, files: seq<Path>, n: nat)
    requires n <= |files|
  {
    && (forall p | p in base && p !in files[..n] :: p in t && t[p] == base[p])
    && (forall p | p in t && !InStaging(s, p) && p !in base && p !in files[..n] :: t[p] == Dir && p in dirs)
  }

  // Entry i of the journal can be undone: the file is in place, and its
  // displaced original is kept under the same relative path.
  ghost predicate Undoable(base: FileTree, t: FileTree, s: string, p: Path, displaced: bool) {
    && IsLeaf(t, p)
    && (displaced ==> IsLeaf(base, p) && Saved(s, p) in t && t[Saved(s, p)] == base[p])
    && !IsDir(base, p)
  }

  ghost predicate JournalKept(base: FileTree, t: FileTree, s: string, files: seq<Path>, flags: seq<bool>, n: nat)
    requires n <= |files| && n <= |flags|
  {
    forall i | 0 <= i < n :: Undoable(base, t, s, files[i], flags[i])
  }

  // Whatever was replaced so far was seen, and is in the journal.
  ghost predicate AllSeen(base: FileTree, files: seq<Path>, flags: seq<bool>)
    requires |flags| <= |files|
  {
    forall i | 0 <= i < |flags| && files[i] in base :: flags[i]
  }

  // The journal holds an original exactly when its metadata lookup did not fail.
  ghost predicate Tied(base: FileTree, files: seq<Path>, flags: seq<bool>, missed: seq<Path>)
    requires |flags| <= |files|
  {
    forall i | 0 <= i < |flags| && files[i] in base :: flags[i] <==> files[i] !in missed
  }

  // No lookup failed of an original that was replaced.
  ghost predicate NoneMissed(base: FileTree, replaced: seq<Path>, missed: seq<Path>) {
    forall p | p in replaced && p in base :: p !in missed
  }

  // An original that was replaced without being seen: its metadata lookup failed.
  ghost predicate Lost(base: FileTree, files: seq<Path>, flags: seq<bool>, p: Path)
    requires |flags| <= |files|
  {
    p in base && exists i :: 0 <= i < |flags| && files[i] == p && !flags[i]
  }

  // The live tree after a rollback: the originals are back except the lost ones,
  // which are gone, and only directories were added.
  ghost predicate RolledBack(base: FileTree, live: FileTree, dirs: set<Path>, files: seq<Path>, flags: seq<bool>)
    requires |flags| <= |files|
  {
    && (forall p | p in base :: (p in live && live[p] == base[p]) <==> !Lost(base, files, flags, p))
    && (forall p | p in base && Lost(base, files, flags, p) :: p !in live)
    && (forall p | p in live && p !in base :: live[p] == Dir && p in dirs)
  }

  // All but the first n files have been undone.
  ghost predicate Rolling(base: FileTree, t: FileTree, s: string, dirs: set<Path>, files: seq<Path>,
                          flags: seq<bool>, n: nat)
    requires n <= |flags| <= |files|
  {
    && (forall p | p in base && p !in files[..|flags|] :: p in t && t[p] == base[p])
    && (forall i | n <= i < |flags| ::
          if flags[i] then files[i] in base && files[i] in t && t[files[i]] == base[files[i]] else files[i] !in t)
    && (forall p | p in t && !InStaging(s, p) && p !in base && p !in files[..n] :: t[p] == Dir && p in dirs)
  }

  ghost predicate LiveOnly(s: string, base: FileTree, files: seq<Path>) {
    && (forall p | p in base :: !InStaging(s, p))
    && (forall i | 0 <= i < |files| :: files[i] != [] && !InStaging(s, files[i]))
    && Distinct(files)
  }

  // Undo one published file.
  method UndoOne(fs: ScopedFs, s: string, p: Path, displaced: bool, ghost base: FileTree)
    requires fs.Valid() && p != [] && !InStaging(s, p) && Undoable(base, fs.tree, s, p, displaced)
    modifies fs`tree
    ensures fs.Valid()
    ensures displaced ==> fs.tree == (old(fs.tree) - {Saved(s, p)})[p := base[p]]
    ensures !displaced ==> fs.tree == old(fs.tree) - {p}
  {
    WithoutLeaf(fs.tree, p);
    assert IsDir(fs.tree, Parent(p));
    var _ := fs.Remove(p, MustWork);
    if displaced {
      ghost var removed := fs.tree;
      assert Parent(p) != p;
      assert IsDir(removed, Parent(p));
      ExistingDir(removed, Parent(p));
      var _ := fs.Rename(Saved(s, p), p, MustWork);
      assert fs.tree == (removed - {Saved(s, p)})[p := base[p]];
    }
  }

  /** rollback_published, newest first: every original comes back if and only if
      the journal holds it. */
  method RollbackPublished(fs: ScopedFs, s: string, files: seq<Path>, published: seq<bool>,
                           ghost base: FileTree, ghost dirs: set<Path>)
    requires fs.Valid() && LiveOnly(s, base, files) && |published| <= |files|
    requires LiveKept(base, fs.tree, s, dirs, files, |published|)
    requires JournalKept(base, fs.tree, s, files, published, |published|)
    modifies fs`tree
    ensures fs.Valid() && RolledBack(base, Live(fs.tree, s), dirs, files, published)
    ensures (forall p | p in base :: p in fs.tree && fs.tree[p] == base[p]) <==> AllSeen(base, files, published)
  {
    var n := |published|;
    while n > 0
      invariant 0 <= n <= |published|
      invariant fs.Valid()
      invariant Rolling(base, fs.tree, s, dirs, files, published, n)
      invariant JournalKept(base, fs.tree, s, files, published, n)
    {
      n := n - 1;
      ghost var before := fs.tree;
      UndoOne(fs, s, files[n], published[n], base);
      UndoKeeps(base, before, fs.tree, s, dirs, files, published, n);
      UndoKeepsJournal(base, before, fs.tree, s, files, published, n);
    }
    RollbackEnds(base, fs.tree, s, dirs, files, published);
  }

  lemma UndoKeepsJournal(base: FileTree, before: FileTree, after: FileTree, s: string,
                         files: seq<Path>, flags: seq<bool>, n: nat)
    requires LiveOnly(s, base, files) && n < |flags| <= |files|
    requires JournalKept(base, before, s, files, flags, n + 1)
    requires flags[n] ==> after == (before - {Saved(s, files[n])})[files[n] := base[files[n]]]
    requires !flags[n] ==> after == before - {files[n]}
    ensures JournalKept(base, after, s, files, flags, n)
  {
    var p := files[n];
    forall i | 0 <= i < n
      ensures Undoable(base, after, s, files[i], flags[i])
    {
      assert Undoable(base, before, s, files[i], flags[i]);
      assert files[i] != p;
      StagedIsInjective(s, files[i], p);
    }
  }

  lemma UndoKeeps(base: FileTree, before: FileTree, after: FileTree, s: string, dirs: set<Path>,
                  files: seq<Path>, flags: seq<bool>, n: nat)
    requires LiveOnly(s, base, files) && n < |flags| <= |files|
    requires Rolling(base, before, s, dirs, files, flags, n + 1)
    requires Undoable(base, before, s, files[n], flags[n])
    requires flags[n] ==> after == (before - {Saved(s, files[n])})[files[n] := base[files[n]]]
    requires !flags[n] ==> after == before - {files[n]}
    ensures Rolling(base, after, s, dirs, files, flags, n)
  {
    var p := files[n];
    assert files[..n + 1] == files[..n] + [p];
    assert p in files[..|flags|];
    assert forall i | n < i < |flags| :: files[i] != p;
  }

  lemma RollbackEnds(base: FileTree, t: FileTree, s: string, dirs: set<Path>, files: seq<Path>, flags: seq<bool>)
    requires LiveOnly(s, base, files) && |flags| <= |files| && Rolling(base, t, s, dirs, files, flags, 0)
    ensures RolledBack(base, Live(t, s), dirs, files, flags)
    ensures (forall p | p in base :: p in t && t[p] == base[p]) <==> AllSeen(base, files, flags)
  {
    assert forall p | p in base :: p in Live(t, s) <==> p in t;
    forall p | p in base
      ensures (p in t && t[p] == base[p]) <==> !Lost(base, files, flags, p)
      ensures Lost(base, files, flags, p) ==> p !in t
    {
      if p in files[..|flags|] {
        var i :| 0 <= i < |flags| && files[i] == p;
        assert forall j | 0 <= j < |flags| && files[j] == p :: j == i;
      }
    }
    if !AllSeen(base, files, flags) {
      var i :| 0 <= i < |flags| && files[i] in base && !flags[i];
      assert files[i] !in t;
    }
  }

  /** How a restore can lose a file: the lookup of ["a"] fails, so publishing
      replaces it without a journal entry, and undoing that removes it. */
  lemma AFailedLookupCanLoseAFile()
    ensures var s, p := ".mcpanel-restore-0", ["a"];
            var before := map[p := File([1]), [s] := Dir, [s, "new"] := Dir, [s, "new", "a"] := File([2])];
            var after := map[p := File([2]), [s] := Dir, [s, "new"] := Dir];
            && WellFormed(before) && WellFormed(after) && Published(before, after, s, p, false)
            && Lost(Live(before, s), [p], [false], p)
            && RolledBack(Live(before, s), Live(after - {p}, s), {}, [p], [false])
            && Live(after - {p}, s) != Live(before, s)
  {
    var s, p := ".mcpanel-restore-0", ["a"];
    var before := map[p := File([1]), [s] := Dir, [s, "new"] := Dir, [s, "new", "a"] := File([2])];
    var after := map[p := File([2]), [s] := Dir, [s, "new"] := Dir];
    assert p[0] != s by {
      assert |p[0]| != |s|;
    }
    assert Staged(s, p) == [s, "new", "a"];
    assert Parent(p) == [] && Parent([s]) == [] && Parent([s, "new"]) == [s] && Parent([s, "new", "a"]) == [s, "new"];
    assert forall q | q in before && !InStaging(s, q) :: q == p;
    assert forall q | q in after && !InStaging(s, q) :: q == p;
    assert p in Live(before, s) && [false][0] == false && [p][0] == p;
  }

  /* ----- the commit phase ----- */

  ghost predicate SomePrefix(r: Path, files: seq<Path>) {
    exists f :: f in files && IsPrefix(r, f)
  }

  // The displaced subtree holds displaced files and the directories above them.
  ghost predicate SavedIs(t: FileTree, s: string, files: seq<Path>) {
    forall r | Saved(s, r) in t ::
      r in files || (t[Saved(s, r)] == Dir && (r == [] || SomePrefix(r, files)))
  }

  // What holds once the first n files are published.
  ghost predicate Committing(base: FileTree, t: FileTree, s: string, es: seq<Entry>, flags: seq<bool>,
                             missed: seq<Path>) {
    var files, n := FilePaths(es), |flags|;
    && WellFormed(t) && n <= |files|
    && LiveKept(base, t, s, DirsOf(es), files, n)
    && JournalKept(base, t, s, files, flags, n)
    && Tied(base, files, flags, missed) && (forall p | p in missed :: p in files[..n])
    && (forall i | 0 <= i < n :: files[i] in FilesOf(es) && t[files[i]] == File(FilesOf(es)[files[i]]))
    && (forall i | n <= i < |files| :: files[i] in FilesOf(es) && Staged(s, files[i]) in t
                                       && t[Staged(s, files[i])] == File(FilesOf(es)[files[i]]))
    && SavedIs(t, s, files[..n])
    && (forall d | d in DirPaths(es) :: IsDir(t, d))
  }

  // Before the first rename: the directory entries have been created.
  ghost predicate DirectoriesMade(base: FileTree, t: FileTree, s: string, es: seq<Entry>, m: nat)
    requires m <= |DirPaths(es)|
  {
    && WellFormed(t)
    && LiveKept(base, t, s, DirsOf(es), FilePaths(es), 0)
    && StagedIs(t, s, DirsOf(es), FilesOf(es)) && NothingSaved(t, s)
    && (forall i | 0 <= i < m :: IsDir(t, DirPaths(es)[i]))
  }

  /** Nothing in the live tree stands in the way of the archive: no file or link
      where it needs a directory, no directory where it needs a file. */
  ghost predicate NoConflict(base: FileTree, es: seq<Entry>) {
    && (forall d | d in DirsOf(es) && d in base :: base[d].Dir?)
    && (forall f | f in FilesOf(es) && f in base :: !base[f].Dir?)
  }

  ghost predicate Archived(s: string, base: FileTree, es: seq<Entry>) {
    && ConflictFree(es) && [] !in FilesOf(es)
    && (forall p | p in base :: !InStaging(s, p))
    && (forall e | e in es :: !InStaging(s, Target(e)))
  }

  lemma {:induction false} PathsAreTargets(es: seq<Entry>)
    ensures forall p | p in FilePaths(es) :: exists e :: e in es && Target(e) == p
    ensures forall p | p in DirPaths(es) :: p != [] && exists e :: e in es && Target(e) == p
  {
    if es != [] {
      var init, last := es[..|es| - 1], es[|es| - 1];
      assert es == init + [last];
      PathsAreTargets(init);
    }
  }

  lemma ArchivedPaths(s: string, base: FileTree, es: seq<Entry>)
    requires Archived(s, base, es)
    ensures LiveOnly(s, base, FilePaths(es))
    ensures forall i | 0 <= i < |DirPaths(es)| :: DirPaths(es)[i] != [] && !InStaging(s, DirPaths(es)[i])
    ensures forall i | 0 <= i < |FilePaths(es)| :: FilePaths(es)[i] in FilesOf(es)
    ensures forall d | d in DirsOf(es) :: !InStaging(s, d)
  {
    PathsAreTargets(es);
    FilePathsAreFiles(es);
    forall i | 0 <= i < |FilePaths(es)|
      ensures FilePaths(es)[i] != [] && !InStaging(s, FilePaths(es)[i])
    {
      assert FilePaths(es)[i] in FilePaths(es);
    }
    forall i | 0 <= i < |DirPaths(es)|
      ensures DirPaths(es)[i] != [] && !InStaging(s, DirPaths(es)[i])
    {
      assert DirPaths(es)[i] in DirPaths(es);
    }
    DirsHaveNoRoot(es);
    forall d | d in DirsOf(es)
      ensures !InStaging(s, d)
    {
      DirsAreExplained(es, d);
      if p :| p in DirPaths(es) && IsPrefix(d, p) {
        PrefixStaysLive(s, d, p);
      } else {
        var p :| p in FilePaths(es) && p != [] && IsPrefix(d, Parent(p));
        PrefixStep(p);
        PrefixStaysLive(s, d, p);
      }
    }
  }

  lemma DirectoryMade(base: FileTree, before: FileTree, after: FileTree, s: string, es: seq<Entry>, m: nat)
    requires Archived(s, base, es) && m < |DirPaths(es)|
    requires DirectoriesMade(base, before, s, es, m)
    requires WellFormed(after) && Grew(before, after, DirPaths(es)[m])
    ensures DirectoriesMade(base, after, s, es, m)
    ensures IsDir(after, DirPaths(es)[m]) ==> DirectoriesMade(base, after, s, es, m + 1)
  {
    ArchivedPaths(s, base, es);
    var d := DirPaths(es)[m];
    forall q | q in after && q !in before
      ensures q in DirsOf(es) && !InStaging(s, q)
    {
      DirPathsAreDirs(es, d, q);
      PrefixStaysLive(s, q, d);
    }
    StagingUntouched(before, after, s, DirsOf(es), FilesOf(es));
    assert LiveKept(base, after, s, DirsOf(es), FilePaths(es), 0);
  }

  lemma StagingUntouched(before: FileTree, after: FileTree, s: string, dirs: set<Path>, files: map<Path, Bytes>)
    requires StagedIs(before, s, dirs, files) && NothingSaved(before, s)
    requires forall q | q in before :: q in after && after[q] == before[q]
    requires forall q | q in after && q !in before :: !InStaging(s, q)
    ensures StagedIs(after, s, dirs, files) && NothingSaved(after, s)
  {
    forall q
      ensures Staged(s, q) in after <==> Staged(s, q) in before
      ensures Saved(s, q) in after <==> Saved(s, q) in before
    {
      assert InStaging(s, Staged(s, q)) && InStaging(s, Saved(s, q));
    }
  }

  // In a live tree without conflicts the needed directories can be made.
  lemma DirectoriesArePassable(base: FileTree, t: FileTree, s: string, es: seq<Entry>, n: nat, p: Path)
    requires Archived(s, base, es) && NoConflict(base, es) && n <= |FilePaths(es)|
    requires LiveKept(base, t, s, DirsOf(es), FilePaths(es), n)
    requires forall q | q != [] && IsPrefix(q, p) :: q in DirsOf(es)
    ensures Passable(t, p)
  {
    ArchivedPaths(s, base, es);
    FilePathsAreFiles(es);
    forall q | q != [] && IsPrefix(q, p) && q in t
      ensures t[q].Dir?
    {
      assert q in DirsOf(es) && q !in FilesOf(es);
      assert q !in FilePaths(es)[..n];
    }
  }

  lemma CommitStarts(base: FileTree, t: FileTree, s: string, es: seq<Entry>, missed: seq<Path>)
    requires missed == [] && Archived(s, base, es) && DirectoriesMade(base, t, s, es, |DirPaths(es)|)
    ensures Committing(base, t, s, es, [], missed)
  {
    ArchivedPaths(s, base, es);
  }

  // The next file is neither above nor below one that was published already.
  lemma Unrelated(s: string, base: FileTree, es: seq<Entry>, n: nat)
    requires Archived(s, base, es) && n < |FilePaths(es)| && FilePaths(es)[n] != []
    ensures FilePaths(es)[n] !in FilePaths(es)[..n]
    ensures !SomePrefix(FilePaths(es)[n], FilePaths(es)[..n])
    ensures forall r | IsPrefix(r, Parent(FilePaths(es)[n])) :: r !in FilePaths(es)[..n]
  {
    ArchivedPaths(s, base, es);
    FilePathsAreFiles(es);
    assert [] !in FilePaths(es);
    ConflictFreePaths(es);
    var p := FilePaths(es)[n];
    PrefixStep(p);
    assert p in FilePaths(es);
    forall f | f in FilePaths(es)[..n]
      ensures f != p && !IsPrefix(p, f) && !IsPrefix(f, p)
    {
      assert f in FilePaths(es);
    }
  }

  lemma NotYetSaved(base: FileTree, t: FileTree, s: string, es: seq<Entry>, flags: seq<bool>, missed: seq<Path>)
    requires Archived(s, base, es) && Committing(base, t, s, es, flags, missed) && |flags| < |FilePaths(es)|
    requires FilePaths(es)[|flags|] != []
    ensures Saved(s, FilePaths(es)[|flags|]) !in t
    ensures Passable(t, Saved(s, Parent(FilePaths(es)[|flags|])))
  {
    var files, n := FilePaths(es), |flags|;
    var p := files[n];
    Unrelated(s, base, es, n);
    assert IsDir(t, [s]) by {
      assert Staged(s, p) in t;
      assert Staged(s, p)[..1] == [s];
      ProperPrefixIsDir(t, Staged(s, p), [s]);
    }
    forall q | q != [] && IsPrefix(q, Saved(s, Parent(p))) && q in t
      ensures t[q].Dir?
    {
      PrefixesOfSaved(s, q, Parent(p));
      if q != [s] {
        var r :| IsPrefix(r, Parent(p)) && q == Saved(s, r);
        assert r !in files[..n];
      }
    }
  }

  lemma PublishKeeps(base: FileTree, before: FileTree, after: FileTree, s: string, es: seq<Entry>,
                     flags: seq<bool>, displaced: bool, missed: seq<Path>, missed': seq<Path>)
    requires Archived(s, base, es) && Committing(base, before, s, es, flags, missed) && |flags| < |FilePaths(es)|
    requires FilePaths(es)[|flags|] != [] && WellFormed(after)
    requires Published(before, after, s, FilePaths(es)[|flags|], displaced) && !IsDir(before, FilePaths(es)[|flags|])
    requires MissedAtMost(FilePaths(es)[|flags|], before, displaced, missed, missed')
    ensures Committing(base, after, s, es, flags + [displaced], missed')
  {
    var files, n := FilePaths(es), |flags|;
    ArchivedPaths(s, base, es);
    NewDirsOfPublish(base, before, after, s, es, n, displaced);
    LiveAfterPublish(base, before, after, s, DirsOf(es), files, n, displaced);
    DirsAfterPublish(before, after, s, files[n], displaced);
    JournalAfterPublish(base, before, after, s, es, flags, displaced, missed, missed');
    assert files[n] in base <==> files[n] in before;
    TiedAfterPublish(base, files, flags, displaced, missed, missed');
    StagedAfterPublish(before, after, s, files, n, displaced);
    SavedAfterPublish(before, after, s, files, n, displaced);
  }

  lemma LiveAfterPublish(base: FileTree, before: FileTree, after: FileTree, s: string, dirs: set<Path>,
                         files: seq<Path>, n: nat, displaced: bool)
    requires n < |files| && files[n] != [] && (forall p | p in base :: !InStaging(s, p))
    requires LiveKept(base, before, s, dirs, files, n)
    requires Published(before, after, s, files[n], displaced)
    requires forall q | q in after && !InStaging(s, q) && q !in before && q != files[n] :: after[q] == Dir && q in dirs
    ensures LiveKept(base, after, s, dirs, files, n + 1)
  {
    var p, done, more := files[n], files[..n], files[..n + 1];
    assert more == done + [p];
    forall q | q in base && q !in more
      ensures q in after && after[q] == base[q]
    {
      assert q in before && before[q] == base[q] && !InStaging(s, q);
    }
    forall q | q in after && !InStaging(s, q) && q !in base && q !in more
      ensures after[q] == Dir && q in dirs
    {
      if q in before {
        assert before[q] == Dir && q in dirs;
        assert after[q] == before[q];
      }
    }
  }

  lemma DirsAfterPublish(before: FileTree, after: FileTree, s: string, p: Path, displaced: bool)
    requires p != [] && !InStaging(s, p) && !IsDir(before, p) && Published(before, after, s, p, displaced)
    ensures forall d | IsDir(before, d) && !InStaging(s, d) :: IsDir(after, d)
  {
  }

  lemma JournalAfterPublish(base: FileTree, before: FileTree, after: FileTree, s: string, es: seq<Entry>,
                            flags: seq<bool>, displaced: bool, missed: seq<Path>, missed': seq<Path>)
    requires Archived(s, base, es) && Committing(base, before, s, es, flags, missed) && |flags| < |FilePaths(es)|
    requires FilePaths(es)[|flags|] != []
    requires Published(before, after, s, FilePaths(es)[|flags|], displaced) && !IsDir(before, FilePaths(es)[|flags|])
    requires MissedAtMost(FilePaths(es)[|flags|], before, displaced, missed, missed')
    ensures JournalKept(base, after, s, FilePaths(es), flags + [displaced], |flags| + 1)
    ensures forall i | 0 <= i < |flags| + 1 :: after[FilePaths(es)[i]] == File(FilesOf(es)[FilePaths(es)[i]])
  {
    var files, n := FilePaths(es), |flags|;
    var p := files[n];
    ArchivedPaths(s, base, es);
    Unrelated(s, base, es, n);
    assert p in base ==> p in before && before[p] == base[p];
    assert p in before ==> p in base;
    forall i | 0 <= i < n + 1
      ensures Undoable(base, after, s, files[i], (flags + [displaced])[i])
      ensures after[files[i]] == File(FilesOf(es)[files[i]])
    {
      StagedIsInjective(s, files[i], p);
      if i < n {
        assert Undoable(base, before, s, files[i], flags[i]);
      }
    }
  }

  // What one publication can add to the failed lookups.
  ghost predicate MissedAtMost(p: Path, before: FileTree, displaced: bool, missed: seq<Path>, missed': seq<Path>) {
    && (missed' == missed || missed' == missed + [p])
    && (p in before ==> (displaced <==> missed' == missed))
  }

  lemma NextIsNew(files: seq<Path>, n: nat)
    requires n < |files| && Distinct(files)
    ensures files[n] !in files[..n] && files[..n + 1] == files[..n] + [files[n]]
  {
  }

  lemma TiedAfterPublish(base: FileTree, files: seq<Path>, flags: seq<bool>, displaced: bool,
                         missed: seq<Path>, missed': seq<Path>)
    requires |flags| < |files| && Distinct(files) && Tied(base, files, flags, missed)
    requires forall p | p in missed :: p in files[..|flags|]
    requires MissedAtMost(files[|flags|], base, displaced, missed, missed')
    ensures Tied(base, files, flags + [displaced], missed')
    ensures forall p | p in missed' :: p in files[..|flags| + 1]
  {
    var n := |flags|;
    NextIsNew(files, n);
    assert files[n] !in missed;
    forall i | 0 <= i < n
      ensures files[i] != files[n]
    {
      assert files[i] in files[..n];
    }
  }

  lemma StagedAfterPublish(before: FileTree, after: FileTree, s: string, files: seq<Path>, n: nat, displaced: bool)
    requires n < |files| && files[n] != [] && !InStaging(s, files[n]) && Distinct(files)
    requires Published(before, after, s, files[n], displaced)
    ensures forall i | n + 1 <= i < |files| && Staged(s, files[i]) in before ::
              Staged(s, files[i]) in after && after[Staged(s, files[i])] == before[Staged(s, files[i])]
  {
    forall i | n + 1 <= i < |files| && Staged(s, files[i]) in before
      ensures Staged(s, files[i]) in after && after[Staged(s, files[i])] == before[Staged(s, files[i])]
    {
      StagedIsInjective(s, files[i], files[n]);
    }
  }

  // The directories a publication makes are ones the archive needs.
  lemma NewDirsOfPublish(base: FileTree, before: FileTree, after: FileTree, s: string, es: seq<Entry>,
                         n: nat, displaced: bool)
    requires Archived(s, base, es) && n < |FilePaths(es)| && FilePaths(es)[n] != [] && [] !in after
    requires Published(before, after, s, FilePaths(es)[n], displaced)
    ensures forall q | q in after && !InStaging(s, q) && q !in before && q != FilePaths(es)[n] ::
              after[q] == Dir && q in DirsOf(es)
  {
    var p := FilePaths(es)[n];
    ArchivedPaths(s, base, es);
    forall q | q in after && !InStaging(s, q) && q !in before && q != p
      ensures after[q] == Dir && q in DirsOf(es)
    {
      if IsPrefix(q, Parent(p)) {
        FileParentsAreDirs(es, p, q);
      } else {
        PrefixStaysStaged(s, q, Saved(s, Parent(p)));
      }
    }
  }

  lemma SavedAfterPublish(before: FileTree, after: FileTree, s: string, files: seq<Path>, n: nat, displaced: bool)
    requires n < |files| && files[n] != [] && !InStaging(s, files[n])
    requires SavedIs(before, s, files[..n]) && Published(before, after, s, files[n], displaced)
    ensures SavedIs(after, s, files[..n + 1])
  {
    var p := files[n];
    PrefixStep(p);
    assert files[..n + 1] == files[..n] + [p];
    forall r | Saved(s, r) in after
      ensures r in files[..n + 1]
              || (after[Saved(s, r)] == Dir && (r == [] || SomePrefix(r, files[..n + 1])))
    {
      StagedIsInjective(s, r, p);
      StagedIsInjective(s, p, r);
      if r !in files[..n + 1] {
        if Saved(s, r) in before {
          assert before[Saved(s, r)] == Dir;
          if r != [] {
            var f :| f in files[..n] && IsPrefix(r, f);
            assert f in files[..n + 1];
          }
        } else {
          assert IsPrefix(Saved(s, r), Saved(s, Parent(p))) || IsPrefix(Saved(s, r), Parent(p));
          if IsPrefix(Saved(s, r), Parent(p)) {
            PrefixTransitive(Saved(s, r), Parent(p), p);
            PrefixStaysLive(s, Saved(s, r), p);
          } else {
            StagedPrefix(s, r, Parent(p));
            assert IsPrefix(r, p) && p in files[..n + 1];
          }
        }
      }
    }
  }

  // A refused publication leaves a tree that the journal can still undo.
  lemma RefusalKeeps(base: FileTree, before: FileTree, after: FileTree, s: string, es: seq<Entry>,
                     flags: seq<bool>, missed: seq<Path>)
    requires Archived(s, base, es) && Committing(base, before, s, es, flags, missed) && |flags| < |FilePaths(es)|
    requires FilePaths(es)[|flags|] != [] && WellFormed(after)
    requires OnlyPrepared(before, after, s, FilePaths(es)[|flags|])
    ensures LiveKept(base, after, s, DirsOf(es), FilePaths(es), |flags|)
    ensures JournalKept(base, after, s, FilePaths(es), flags, |flags|)
  {
    var files, n := FilePaths(es), |flags|;
    var p := files[n];
    ArchivedPaths(s, base, es);
    forall q | q in after && !InStaging(s, q) && q !in base && q !in files[..n]
      ensures after[q] == Dir && q in DirsOf(es)
    {
      if q !in before {
        if IsPrefix(q, Parent(p)) {
          FileParentsAreDirs(es, p, q);
        } else {
          PrefixStaysStaged(s, q, Saved(s, Parent(p)));
        }
      }
    }
    forall i | 0 <= i < n
      ensures Undoable(base, after, s, files[i], flags[i])
    {
      assert Undoable(base, before, s, files[i], flags[i]);
    }
  }

  lemma TiedAfterRefusal(base: FileTree, files: seq<Path>, flags: seq<bool>, missed: seq<Path>, missed': seq<Path>)
    requires |flags| < |files| && Distinct(files) && Tied(base, files, flags, missed)
    requires missed' == missed || missed' == missed + [files[|flags|]]
    ensures Tied(base, files, flags, missed')
  {
    assert forall i | 0 <= i < |flags| :: files[i] != files[|flags|];
  }

  // After the last rename the live tree is the overlay.
  lemma CommitEnds(base: FileTree, t: FileTree, s: string, es: seq<Entry>, flags: seq<bool>, missed: seq<Path>)
    requires Archived(s, base, es) && Committing(base, t, s, es, flags, missed) && |flags| == |FilePaths(es)|
    ensures Live(t, s) == Overlay(base, es)
    ensures NoConflict(base, es)
  {
    FinalFiles(base, t, s, es, flags);
    FinalDirs(base, t, s, es);
    FinalTree(base, t, s, es);
  }

  lemma FinalTree(base: FileTree, t: FileTree, s: string, es: seq<Entry>)
    requires Archived(s, base, es)
    requires LiveKept(base, t, s, DirsOf(es), FilePaths(es), |FilePaths(es)|)
    requires forall f | f in FilesOf(es) ::
               !InStaging(s, f) && f in t && t[f] == File(FilesOf(es)[f]) && (f in base ==> !base[f].Dir?)
    requires forall d | d in DirsOf(es) :: !InStaging(s, d) && d in t && t[d] == Dir
    ensures Live(t, s) == Overlay(base, es)
    ensures NoConflict(base, es)
  {
    FilePathsAreFiles(es);
    var files := FilePaths(es);
    assert files[..|files|] == files;
    var live, over := Live(t, s), Overlay(base, es);
    forall p | p in live
      ensures p in over && over[p] == live[p]
    {
      assert p in base || p in files || (t[p] == Dir && p in DirsOf(es));
    }
    forall p | p in over
      ensures p in live
    {
      assert p in base ==> !InStaging(s, p);
    }
  }

  lemma FinalFiles(base: FileTree, t: FileTree, s: string, es: seq<Entry>, flags: seq<bool>)
    requires Archived(s, base, es) && |flags| == |FilePaths(es)|
    requires forall i | 0 <= i < |flags| :: Undoable(base, t, s, FilePaths(es)[i], flags[i])
    requires forall i | 0 <= i < |flags| ::
               var f := FilePaths(es)[i];
               f in FilesOf(es) && f in t && t[f] == File(FilesOf(es)[f])
    requires LiveKept(base, t, s, DirsOf(es), FilePaths(es), |flags|)
    ensures forall f | f in FilesOf(es) ::
              !InStaging(s, f) && f in t && t[f] == File(FilesOf(es)[f]) && (f in base ==> !base[f].Dir?)
  {
    var files := FilePaths(es);
    ArchivedPaths(s, base, es);
    FilePathsAreFiles(es);
    forall f | f in FilesOf(es)
      ensures !InStaging(s, f) && f in t && t[f] == File(FilesOf(es)[f]) && (f in base ==> !base[f].Dir?)
    {
      var i :| 0 <= i < |files| && files[i] == f;
      assert Undoable(base, t, s, files[i], flags[i]);
    }
  }

  lemma FinalDirs(base: FileTree, t: FileTree, s: string, es: seq<Entry>)
    requires Archived(s, base, es) && WellFormed(t)
    requires forall f | f in FilesOf(es) :: f in t
    requires forall d | d in DirPaths(es) :: IsDir(t, d)
    ensures forall d | d in DirsOf(es) :: !InStaging(s, d) && d in t && t[d] == Dir
  {
    ArchivedPaths(s, base, es);
    FilePathsAreFiles(es);
    DirsHaveNoRoot(es);
    forall d | d in DirsOf(es)
      ensures d in t && t[d] == Dir
    {
      DirsAreExplained(es, d);
      if p :| p in DirPaths(es) && IsPrefix(d, p) {
        assert IsDir(t, p);
        if d != p {
          ProperPrefixIsDir(t, p, d);
        }
      } else {
        var p :| p in FilePaths(es) && p != [] && IsPrefix(d, Parent(p));
        PrefixStep(p);
        ProperPrefixIsDir(t, p, d);
      }
    }
  }

  method MakeDirectories(fs: ScopedFs, s: string, directories: seq<Path>, ghost base: FileTree, ghost es: seq<Entry>)
    returns (ok: bool)
    requires Archived(s, base, es) && directories == DirPaths(es)
    requires DirectoriesMade(base, fs.tree, s, es, 0)
    modifies fs`tree
    ensures fs.Valid() && LiveKept(base, fs.tree, s, DirsOf(es), FilePaths(es), 0)
    ensures ok ==> DirectoriesMade(base, fs.tree, s, es, |DirPaths(es)|)
    ensures !fs.faulty && NoConflict(base, es) ==> ok
  {
    var k := 0;
    while k < |directories|
      invariant 0 <= k <= |directories| && DirectoriesMade(base, fs.tree, s, es, k)
    {
      ghost var before := fs.tree;
      if NoConflict(base, es) {
        forall q | q != [] && IsPrefix(q, directories[k])
          ensures q in DirsOf(es)
        {
          DirPathsAreDirs(es, directories[k], q);
        }
        DirectoriesArePassable(base, before, s, es, 0, directories[k]);
      }
      ok := fs.CreateDirAll(directories[k], MayFail);
      DirectoryMade(base, before, fs.tree, s, es, k);
      if !ok {
        return;
      }
      k := k + 1;
    }
    ok := true;
  }

  lemma ReadyToPublish(base: FileTree, t: FileTree, s: string, es: seq<Entry>, flags: seq<bool>, missed: seq<Path>)
    requires Archived(s, base, es) && Committing(base, t, s, es, flags, missed) && |flags| < |FilePaths(es)|
    ensures FilePaths(es)[|flags|] != [] && !InStaging(s, FilePaths(es)[|flags|])
    ensures Staged(s, FilePaths(es)[|flags|]) in t && t[Staged(s, FilePaths(es)[|flags|])].File?
    ensures NoConflict(base, es) ==>
              !IsDir(t, FilePaths(es)[|flags|]) && Passable(t, Parent(FilePaths(es)[|flags|]))
  {
    var p := FilePaths(es)[|flags|];
    ArchivedPaths(s, base, es);
    Unrelated(s, base, es, |flags|);
    if NoConflict(base, es) {
      forall q | q != [] && IsPrefix(q, Parent(p))
        ensures q in DirsOf(es)
      {
        FileParentsAreDirs(es, p, q);
      }
      DirectoriesArePassable(base, t, s, es, |flags|, Parent(p));
    }
  }

  // A failed commit was undone as far as its journal goes.
  ghost predicate Undone(base: FileTree, live: FileTree, es: seq<Entry>, journal: seq<bool>, missed: seq<Path>) {
    && |journal| <= |FilePaths(es)|
    && RolledBack(base, live, DirsOf(es), FilePaths(es), journal)
    && Tied(base, FilePaths(es), journal, missed)
  }

  lemma NothingPublished(base: FileTree, t: FileTree, s: string, dirs: set<Path>, files: seq<Path>)
    requires LiveKept(base, t, s, dirs, files, 0) && (forall p | p in base :: !InStaging(s, p))
    ensures RolledBack(base, Live(t, s), dirs, files, [])
  {
    assert files[..0] == [];
    assert forall p | p in base :: p in Live(t, s);
  }

  // The lookups that have failed since `start`; none, if lookups are truthful.
  ghost predicate MissedSince(misses: seq<Path>, start: seq<Path>, missed: seq<Path>, reliable: bool) {
    misses == start + missed && (reliable ==> missed == [])
  }

  lemma OneMoreMiss(misses: seq<Path>, misses': seq<Path>, start: seq<Path>, missed: seq<Path>, p: Path, reliable: bool)
    requires MissedSince(misses, start, missed, reliable)
    requires misses' == misses || (misses' == misses + [p] && !reliable)
    ensures MissedSince(misses', start, if misses' == misses then missed else missed + [p], reliable)
  {
  }

  // One turn of the commit loop.
  method PublishNext(fs: ScopedFs, s: string, files: seq<Path>, ghost base: FileTree, ghost es: seq<Entry>,
                     journal: seq<bool>, ghost start: seq<Path>, ghost missed: seq<Path>)
    returns (outcome: Option<bool>, ghost missed': seq<Path>)
    requires Archived(s, base, es) && files == FilePaths(es) && |journal| < |files|
    requires Committing(base, fs.tree, s, es, journal, missed)
    requires MissedSince(fs.misses, start, missed, fs.lookupsReliable)
    modifies fs
    ensures fs.Valid() && MissedSince(fs.misses, start, missed', fs.lookupsReliable)
    ensures outcome.Some? ==> Committing(base, fs.tree, s, es, journal + [outcome.value], missed')
    ensures outcome.None? ==> LiveKept(base, fs.tree, s, DirsOf(es), files, |journal|)
    ensures outcome.None? ==> JournalKept(base, fs.tree, s, files, journal, |journal|)
    ensures outcome.None? ==> Tied(base, files, journal, missed')
    ensures !fs.faulty && fs.lookupsReliable && NoConflict(base, es) ==> outcome.Some?
  {
    ghost var before, misses := fs.tree, fs.misses;
    ReadyToPublish(base, before, s, es, journal, missed);
    NotYetSaved(base, before, s, es, journal, missed);
    outcome := PublishOne(fs, s, files[|journal|]);
    OneMoreMiss(misses, fs.misses, start, missed, files[|journal|], fs.lookupsReliable);
    missed' := if fs.misses == misses then missed else missed + [files[|journal|]];
    if outcome.Some? {
      PublishKeeps(base, before, fs.tree, s, es, journal, outcome.value, missed, missed');
    } else {
      RefusalKeeps(base, before, fs.tree, s, es, journal, missed);
      ArchivedPaths(s, base, es);
      TiedAfterRefusal(base, files, journal, missed, missed');
    }
  }

  // The commit loop, once the directories exist.
  method PublishAll(fs: ScopedFs, s: string, files: seq<Path>, ghost base: FileTree, ghost es: seq<Entry>,
                    ghost start: seq<Path>)
    returns (ok: bool, ghost published: seq<bool>, ghost missed: seq<Path>)
    requires Archived(s, base, es) && files == FilePaths(es)
    requires Committing(base, fs.tree, s, es, [], []) && fs.misses == start
    modifies fs
    ensures fs.Valid() && MissedSince(fs.misses, start, missed, fs.lookupsReliable)
    ensures ok ==> Live(fs.tree, s) == Overlay(base, es) && NoConflict(base, es)
    ensures !ok ==> Undone(base, Live(fs.tree, s), es, published, missed)
    ensures !fs.faulty && fs.lookupsReliable && NoConflict(base, es) ==> ok
  {
    ArchivedPaths(s, base, es);
    var journal: seq<bool> := [];
    missed := [];
    assert start + [] == start;
    while |journal| < |files|
      invariant |journal| <= |files|
      invariant Committing(base, fs.tree, s, es, journal, missed)
      invariant MissedSince(fs.misses, start, missed, fs.lookupsReliable)
    {
      var outcome;
      outcome, missed := PublishNext(fs, s, files, base, es, journal, start, missed);
      if outcome.None? {
        RollbackPublished(fs, s, files, journal, base, DirsOf(es));
        return false, journal, missed;
      }
      journal := journal + [outcome.value];
    }
    CommitEnds(base, fs.tree, s, es, journal, missed);
    ok, published := true, journal;
  }

  /** commit_staged_tree: publish every staged file, or undo what was published. */
  method CommitStagedTree(fs: ScopedFs, s: string, plan: Plan, ghost base: FileTree, ghost es: seq<Entry>)
    returns (ok: bool, ghost published: seq<bool>, ghost missed: seq<Path>)
    requires Archived(s, base, es) && plan == Plan(DirPaths(es), FilePaths(es))
    requires StagingHolds(fs.tree, base, s, DirsOf(es), FilesOf(es))
    modifies fs
    ensures fs.Valid() && MissedSince(fs.misses, old(fs.misses), missed, fs.lookupsReliable)
    ensures ok ==> Live(fs.tree, s) == Overlay(base, es) && NoConflict(base, es)
    ensures !ok ==> Undone(base, Live(fs.tree, s), es, published, missed)
    ensures !fs.faulty && fs.lookupsReliable && NoConflict(base, es) ==> ok
  {
    ArchivedPaths(s, base, es);
    assert forall p | p in base :: p in Live(fs.tree, s);
    ok := MakeDirectories(fs, s, plan.directories, base, es);
    if !ok {
      NothingPublished(base, fs.tree, s, DirsOf(es), FilePaths(es));
      return false, [], [];
    }
    CommitStarts(base, fs.tree, s, es, []);
    ok, published, missed := PublishAll(fs, s, plan.files, base, es, fs.misses);
  }

  /* ----- the whole restore ----- */

  /** What a failed restore may have done to the tree the operator sees: every
      file, link and directory is where it was, unchanged, and the only
      additions are directories the archive asked for. */
  ghost predicate OnlyDirectoriesAdded(before: FileTree, after: FileTree, es: seq<Entry>) {
    && (forall p | p in before :: p in after && after[p] == before[p])
    && (forall p | p in after && p !in before :: after[p] == Dir && p in DirsOf(es))
  }

  ghost predicate IsSuffix(tail: seq<Path>, s: seq<Path>) {
    |tail| <= |s| && s[|s| - |tail|..] == tail
  }

  method ExpandAndCommit(fs: ScopedFs, s: string, archive: seq<Entry>, limits: ArchiveLimits, quota: u64,
                         ghost live: FileTree)
    returns (r: Result<()>, ghost journal: seq<bool>, ghost missed: seq<Path>)
    requires StagingHolds(fs.tree, live, s, {}, map[])
    requires forall p | p in fs.tree && InStaging(s, p) :: fs.tree[p] == Dir
    requires Fresh(live, archive, s)
    modifies fs
    ensures fs.Valid()
    ensures r.Ok? ==> Live(fs.tree, s) == Overlay(live, archive)
    ensures r.Ok? ==> Admitted(archive, limits, TotalBytes(archive)) && NoConflict(live, archive)
    ensures r.Ok? && FilePaths(archive) != [] && TreeSize(live) <= U64_MAX ==> TreeSize(Overlay(live, archive)) <= quota
    ensures r.Err? ==> Undone(live, Live(fs.tree, s), archive, journal, missed)
    ensures IsSuffix(missed, fs.misses) && (fs.lookupsReliable ==> missed == [])
    ensures fs.lookupsReliable && TreeSize(live) <= U64_MAX && r.Ok? ==> Expandable(live, archive, limits, quota)
    ensures (fs.lookupsReliable && TreeSize(live) <= U64_MAX && !fs.faulty
             && Expandable(live, archive, limits, quota) && NoConflict(live, archive)) ==> r.Ok?
  {
    var expanded := Expand(fs, s, archive, limits, quota, live);
    assert forall p | p in live :: p in Live(fs.tree, s) && fs.tree[p] == live[p];
    assert forall p | p in fs.tree && !InStaging(s, p) :: p in Live(fs.tree, s);
    if expanded.Err? {
      return Err(expanded.error), [], [];
    }
    OverlaySize(live, archive);
    var ok;
    ok, journal, missed := CommitStagedTree(fs, s, expanded.value, live, archive);
    r := if ok then Ok(()) else Err(Io);
  }

  lemma PrefixesOfPair(s: string, name: string)
    ensures forall q :: q != [] && IsPrefix(q, [s, name]) <==> q == [s] || q == [s, name]
  {
  }

  // The tree with an empty staging subtree.
  ghost predicate StagingMade(live: FileTree, t: FileTree, s: string) {
    && (forall q | q in live :: q in t && t[q] == live[q])
    && (forall q | q in t && q !in live :: t[q] == Dir && (q == [s] || q == [s, "new"] || q == [s, "old"]))
    && [s] in t && [s, "new"] in t && [s, "old"] in t
  }

  lemma StagingIsEmpty(live: FileTree, t: FileTree, s: string)
    requires WellFormed(t) && StagingMade(live, t, s) && (forall p | p in live :: !InStaging(s, p))
    ensures StagingHolds(t, live, s, {}, map[])
    ensures forall p | p in t && InStaging(s, p) :: t[p] == Dir
  {
    assert Staged(s, []) == [s, "new"] && Saved(s, []) == [s, "old"];
    forall q
      ensures Staged(s, q) in t <==> q == []
      ensures Saved(s, q) in t <==> q == []
    {
      assert |Staged(s, q)| == |Saved(s, q)| == |q| + 2;
    }
    assert Live(t, s) == live;
  }

  method MakeStaging(fs: ScopedFs, s: string, ghost live: FileTree) returns (ok: bool)
    requires fs.Valid() && fs.tree == live && (forall p | p in live :: !InStaging(s, p))
    modifies fs`tree
    ensures fs.Valid() && Live(fs.tree, s) == live
    ensures ok ==> StagingMade(live, fs.tree, s)
    ensures !ok ==> OnlyEmptyStaging(fs.tree, s)
    ensures !fs.faulty ==> ok
  {
    assert Live(live, s) == live;
    PrefixesOfPair(s, "new");
    PrefixesOfPair(s, "old");
    ok := fs.CreateDirAll([s, "new"], MayFail);
    GrewInStaging(live, fs.tree, [s, "new"], s);
    if ok {
      ghost var first := fs.tree;
      ok := fs.CreateDirAll([s, "old"], MayFail);
      GrewInStaging(first, fs.tree, [s, "old"], s);
    }
  }

  // Staging directories at most, which are there if making them failed half-way.
  ghost predicate OnlyEmptyStaging(t: FileTree, s: string) {
    forall p | p in t && InStaging(s, p) :: t[p] == Dir
  }

  lemma LiveHasNoStaging(t: FileTree, s: string)
    ensures OnlyEmptyStaging(Live(t, s), s)
  {
  }

  lemma NothingToRemove(t: FileTree, s: string)
    requires WellFormed(t) && [s] !in t
    ensures t == Live(t, s)
  {
    forall p | p in t
      ensures !InStaging(s, p)
    {
      if InStaging(s, p) {
        assert IsPrefix([s], p);
        if p != [s] {
          ProperPrefixIsDir(t, p, [s]);
        }
      }
    }
  }

  /** restore_with_limits_and_quota. An Err result adds only directories, and
      leaves every original entry in place, if and only if no metadata lookup
      failed, in the commit, of a file it had replaced; an Ok result yields
      exactly the original tree overridden by the archive, within every limit;
      and on a machine that does not fail the restore succeeds exactly when the
      archive is admissible and nothing in the live tree conflicts with it. The
      staging subtree is gone whenever its removal succeeded; if removals work,
      nothing but empty staging directories can stay. */
  method Restore(fs: ScopedFs, suffix: string, archive: seq<Entry>, limits: ArchiveLimits, quota: u64)
    returns (r: Result<()>, cleaned: bool, ghost journal: seq<bool>, ghost missed: seq<Path>)
    requires fs.Valid() && Fresh(fs.tree, archive, RESTORE_STAGING_PREFIX + suffix)
    modifies fs
    ensures fs.Valid()
    ensures var s := RESTORE_STAGING_PREFIX + suffix;
            r.Ok? ==> Live(fs.tree, s) == Overlay(old(fs.tree), archive)
    ensures r.Ok? ==> Admitted(archive, limits, TotalBytes(archive)) && NoConflict(old(fs.tree), archive)
    ensures r.Ok? ==> StaysBelow(archive)
    ensures r.Ok? && FilePaths(archive) != [] && TreeSize(old(fs.tree)) <= U64_MAX ==>
              TreeSize(Overlay(old(fs.tree), archive)) <= quota
    ensures r.Err? && fs.lookupsReliable ==>
              OnlyDirectoriesAdded(old(fs.tree), Live(fs.tree, RESTORE_STAGING_PREFIX + suffix), archive)
    ensures IsSuffix(missed, fs.misses) && (fs.lookupsReliable ==> missed == [])
    ensures r.Err? ==>
              Undone(old(fs.tree), Live(fs.tree, RESTORE_STAGING_PREFIX + suffix), archive, journal, missed)
    ensures r.Err? ==>
              (OnlyDirectoriesAdded(old(fs.tree), Live(fs.tree, RESTORE_STAGING_PREFIX + suffix), archive)
               <==> NoneMissed(old(fs.tree), FilePaths(archive)[..|journal|], missed))
    ensures !fs.removalsFail ==> OnlyEmptyStaging(fs.tree, RESTORE_STAGING_PREFIX + suffix)
    ensures !fs.removalsFail && r.Ok? ==> fs.tree == Live(fs.tree, RESTORE_STAGING_PREFIX + suffix)
    ensures cleaned ==> fs.tree == Live(fs.tree, RESTORE_STAGING_PREFIX + suffix)
    ensures fs.lookupsReliable && TreeSize(old(fs.tree)) <= U64_MAX && !fs.faulty ==>
              (r.Ok? <==> Expandable(old(fs.tree), archive, limits, quota) && NoConflict(old(fs.tree), archive))
  {
    var s := RESTORE_STAGING_PREFIX + suffix;
    ghost var live := fs.tree;
    var ok := MakeStaging(fs, s, live);
    if !ok {
      NothingSeenIsUndone(live, archive);
      return Err(Io), false, [], [];
    }
    StagingIsEmpty(live, fs.tree, s);
    r, journal, missed := ExpandAndCommit(fs, s, archive, limits, quota, live);
    if r.Ok? {
      AcceptedArchive(archive);
    }
    cleaned := RemoveStaging(fs, s);
    LiveHasNoStaging(fs.tree, s);
    if r.Err? {
      UndoneOrLost(live, Live(fs.tree, s), archive, journal, missed);
    }
  }

  // `let _ = remove`: the staging subtree is scratch space.
  method RemoveStaging(fs: ScopedFs, s: string) returns (cleaned: bool)
    requires fs.Valid()
    modifies fs`tree
    ensures fs.Valid() && Live(fs.tree, s) == Live(old(fs.tree), s)
    ensures cleaned || !fs.removalsFail ==> fs.tree == Live(fs.tree, s)
  {
    ghost var done := fs.tree;
    cleaned := fs.Remove([s], MayFail);
    if [s] !in done {
      NothingToRemove(done, s);
      assert fs.tree == done;
    }
    RemovingStaging(done, fs.tree, s);
    if cleaned {
      NothingStagedIsLeft(done, s);
    }
  }

  lemma NothingSeenIsUndone(live: FileTree, es: seq<Entry>)
    ensures Undone(live, live, es, [], []) && OnlyDirectoriesAdded(live, live, es)
  {
  }

  lemma NothingStagedIsLeft(t: FileTree, s: string)
    ensures Without(t, [s]) == Live(Without(t, [s]), s)
  {
  }

  // A rollback is complete exactly when no lookup failed of what it replaced.
  lemma UndoneOrLost(live: FileTree, after: FileTree, es: seq<Entry>, journal: seq<bool>, missed: seq<Path>)
    requires Undone(live, after, es, journal, missed)
    ensures OnlyDirectoriesAdded(live, after, es) <==> NoneMissed(live, FilePaths(es)[..|journal|], missed)
  {
    var files := FilePaths(es);
    if NoneMissed(live, files[..|journal|], missed) {
      forall p | p in live
        ensures !Lost(live, files, journal, p)
      {
        if i :| 0 <= i < |journal| && files[i] == p {
          assert files[..|journal|][i] == p;
        }
      }
    } else {
      var p :| p in files[..|journal|] && p in live && p in missed;
      var i :| 0 <= i < |journal| && files[i] == p;
      assert Lost(live, files, journal, p);
    }
  }

  lemma RemovingStaging(before: FileTree, after: FileTree, s: string)
    requires Pruned(before, after, [s])
    ensures Live(after, s) == Live(before, s)
  {
  }
}
