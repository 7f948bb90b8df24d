// Disk quota accounting of src/api/files.rs: multipart uploads and archive
// extraction keep counters that bound the real size of the server directory.
module Quota {
  import opened Options
  import opened Tree
  import opened ScopedFiles
  import opened DirectorySizes

  datatype Limits = Limits(maxUploadBytes: u64, maxServerDiskBytes: u64,
                           maxExtractedBytes: u64, maxExtractedFileBytes: u64, maxArchiveEntries: nat)

  function SaturatingSub(a: nat, b: nat): nat {
    if a < b then 0 else a - b
  }

  // Every entry is still there, unchanged.
  ghost predicate Intact(before: FileTree, after: FileTree) {
    forall q | q in before :: q in after && after[q] == before[q]
  }

  /** At most a temporary file was left behind; if removals work, at most an
      empty one, whose creation was reported to fail. */
  ghost predicate Left(before: FileTree, after: FileTree, temporary: Path, tidy: bool) {
    && Intact(before, after) && (forall q | q in after && q !in before :: q == temporary)
    && (tidy && temporary in after && temporary !in before ==> after[temporary] == File([]))
  }

  // At most that, and directories on the way to p.
  ghost predicate LeftOnTheWay(before: FileTree, after: FileTree, p: Path, temporary: Path, tidy: bool) {
    && Intact(before, after)
    && (forall q | q in after && q !in before :: q == temporary || (after[q] == Dir && IsPrefix(q, p)))
    && (tidy && temporary in after && temporary !in before ==> after[temporary] == File([]) || after[temporary] == Dir)
  }

  lemma CreatingDirsIsFree(before: FileTree, after: FileTree, p: Path)
    requires Grew(before, after, p)
    ensures TreeSize(after) == TreeSize(before)
  {
    var added := map q | q in after && q !in before :: after[q];
    assert after == before + added;
    SizeOfDirs(added);
    SizeOfUnion(before, added);
  }

  lemma RemovingShrinks(before: FileTree, after: FileTree, p: Path)
    requires Pruned(before, after, p)
    ensures TreeSize(after) <= TreeSize(before)
  {
    var gone := map q | q in before && q !in after :: before[q];
    assert before == after + gone;
    SizeOfUnion(after, gone);
  }

  /* ----- a temporary file beside its target ----- */

  method CreateTemporary(fs: ScopedFs, temporary: Path) returns (ok: bool)
    requires fs.Valid() && temporary != [] && IsDir(fs.tree, Parent(temporary))
    modifies fs
    ensures fs.Valid() && Left(old(fs.tree), fs.tree, temporary, !fs.removalsFail)
    ensures TreeSize(fs.tree) == TreeSize(old(fs.tree))
    ensures ok ==> temporary !in old(fs.tree) && fs.tree == old(fs.tree)[temporary := File([])]
    ensures !fs.faulty && temporary !in old(fs.tree) ==> ok
  {
    ExistingDir(fs.tree, Parent(temporary));
    ghost var before := fs.tree;
    ok := fs.CreateNewFile(temporary);
    if fs.tree != before {
      assert temporary in fs.tree && fs.tree == before[temporary := File([])] by {
        GrewNothing(before, if ok then before else fs.tree - {temporary}, Parent(temporary));
      }
      SizeUpdate(before, temporary, File([]));
    }
  }

  // `let _ = remove`: nothing but the temporary file can go.
  method Discard(fs: ScopedFs, temporary: Path, ghost before: FileTree)
    requires fs.Valid() && temporary != [] && IsLeaf(fs.tree, temporary)
    requires temporary !in before && Left(before, fs.tree, temporary, false)
    modifies fs
    ensures fs.Valid() && Left(before, fs.tree, temporary, !fs.removalsFail)
    ensures !fs.removalsFail ==> temporary !in fs.tree
    ensures TreeSize(fs.tree) <= TreeSize(old(fs.tree))
  {
    WithoutLeaf(fs.tree, temporary);
    ghost var filled := fs.tree;
    var _ := fs.Remove(temporary, MayFail);
    RemovingShrinks(filled, fs.tree, temporary);
    forall q | q in before
      ensures q in fs.tree && fs.tree[q] == before[q]
    {
      assert q in Without(filled, temporary);
    }
  }

  // Rename the filled temporary file over its target, or try to remove it.
  method PublishTemporary(fs: ScopedFs, temporary: Path, target: Path, ghost before: FileTree) returns (ok: bool)
    requires fs.Valid() && temporary != [] && target != [] && Parent(temporary) == Parent(target)
    requires temporary in fs.tree && fs.tree[temporary].File? && IsDir(before, Parent(target))
    requires temporary !in before && fs.tree == before[temporary := fs.tree[temporary]]
    modifies fs
    ensures fs.Valid()
    ensures ok ==> fs.tree == before[target := old(fs.tree)[temporary]] && !IsDir(before, target)
    ensures !ok ==> Left(before, fs.tree, temporary, !fs.removalsFail) && TreeSize(fs.tree) <= TreeSize(old(fs.tree))
    ensures !fs.faulty && !IsDir(before, target) ==> ok
  {
    ghost var filled := fs.tree;
    assert Parent(target) != temporary;
    ExistingDir(filled, Parent(target));
    ok := fs.Rename(temporary, target, MayFail);
    if ok {
      assert (filled - {temporary})[target := filled[temporary]] == before[target := filled[temporary]];
    } else {
      assert fs.tree == filled by {
        assert Grew(filled, fs.tree, Parent(target));
        assert forall q | q in fs.tree && q !in filled :: IsPrefix(q, Parent(target));
      }
      Discard(fs, temporary, before);
    }
  }

  /* ----- multipart upload ----- */

  // One multipart field: a file name, and the chunks in which its body arrives.
  datatype Field = Field(name: string, chunks: seq<Bytes>)

  function Joined(chunks: seq<Bytes>): Bytes {
    if chunks == [] then [] else Joined(chunks[..|chunks| - 1]) + chunks[|chunks| - 1]
  }

  lemma {:induction false} JoinedPrefix(chunks: seq<Bytes>, k: nat)
    requires k <= |chunks|
    ensures |Joined(chunks[..k])| <= |Joined(chunks)|
  {
    if k < |chunks| {
      JoinedPrefix(chunks[..|chunks| - 1], k);
      assert chunks[..|chunks| - 1][..k] == chunks[..k];
    } else {
      assert chunks[..k] == chunks;
    }
  }

  /** Nothing of a body is lost, doubled or moved, however it is cut into chunks. */
  lemma {:induction false} JoinedInOrder(a: seq<Bytes>, b: seq<Bytes>, chunk: Bytes)
    ensures Joined(a + b) == Joined(a) + Joined(b) && Joined([chunk]) == chunk
  {
    if b == [] {
      assert a + b == a;
    } else {
      var n := |b| - 1;
      JoinedInOrder(a, b[..n], chunk);
      assert (a + b)[..|a + b| - 1] == a + b[..n];
    }
    assert [chunk][..0] == [];
  }

  function PathOf(directory: Path, f: Field): Path { directory + [f.name] }

  function TemporaryOf(directory: Path, suffix: string): Path { directory + [".mcpanel-upload-" + suffix] }

  // The tree once every field has been published, in order.
  ghost function AfterFields(t: FileTree, directory: Path, fields: seq<Field>): FileTree {
    if fields == [] then
      t
    else
      var f := fields[|fields| - 1];
      AfterFields(t, directory, fields[..|fields| - 1])[PathOf(directory, f) := File(Joined(f.chunks))]
  }

  ghost function WrittenBy(fields: seq<Field>): nat {
    if fields == [] then 0
    else WrittenBy(fields[..|fields| - 1]) + |Joined(fields[|fields| - 1].chunks)|
  }

  function Targets(directory: Path, fields: seq<Field>): set<Path> {
    set i | 0 <= i < |fields| :: PathOf(directory, fields[i])
  }

  /** An uploaded file is in the directory under its own name, with the bytes of
      the last field of that name. */
  lemma {:induction false} FileOfAnUpload(t: FileTree, directory: Path, fields: seq<Field>, i: nat)
    requires i < |fields| && forall j | i < j < |fields| :: fields[j].name != fields[i].name
    ensures var p, after := directory + [fields[i].name], AfterFields(t, directory, fields);
            p in after && after[p] == File(Joined(fields[i].chunks))
  {
    var n := |fields| - 1;
    if i < n {
      FileOfAnUpload(t, directory, fields[..n], i);
      assert (directory + [fields[i].name])[|directory|] == fields[i].name;
    }
  }

  /** And under no other name has anything changed. */
  lemma {:induction false} RestOfAnUpload(t: FileTree, directory: Path, fields: seq<Field>, p: Path)
    requires forall i | 0 <= i < |fields| :: p != directory + [fields[i].name]
    ensures var after := AfterFields(t, directory, fields); (p in after <==> p in t) && (p in t ==> after[p] == t[p])
  {
    if fields != [] {
      RestOfAnUpload(t, directory, fields[..|fields| - 1], p);
    }
  }

  // The bytes of the originals that the fields replace, each counted once.
  ghost function ReplacedBy(t: FileTree, directory: Path, fields: seq<Field>): nat {
    if fields == [] then
      0
    else
      var init, p := fields[..|fields| - 1], PathOf(directory, fields[|fields| - 1]);
      ReplacedBy(t, directory, init) + (if p in Targets(directory, init) then 0 else LenAt(t, p))
  }

  // What is checked before each chunk is written.
  predicate Fits(existing: nat, written: nat, replaced: nat, limits: Limits) {
    && written <= limits.maxUploadBytes
    && existing + written <= U64_MAX
    && SaturatingSub(existing + written, replaced) <= limits.maxServerDiskBytes
  }

  /** Which uploads a machine that does not fail accepts, `t` being the directory
      before the first field and `existing` its size. */
  ghost predicate Accepted(t: FileTree, directory: Path, fields: seq<Field>, suffixes: seq<string>,
                           existing: nat, limits: Limits)
    requires |suffixes| == |fields|
  {
    fields == []
    || (var n := |fields| - 1;
        var now := AfterFields(t, directory, fields[..n]);
        && Accepted(t, directory, fields[..n], suffixes[..n], existing, limits)
        && TemporaryOf(directory, suffixes[n]) !in now && !IsDir(now, PathOf(directory, fields[n]))
        && Fits(existing, WrittenBy(fields), ReplacedBy(t, directory, fields), limits))
  }

  lemma {:induction false} AcceptedPrefix(t: FileTree, directory: Path, fields: seq<Field>, suffixes: seq<string>,
                                          existing: nat, limits: Limits, k: nat)
    requires |suffixes| == |fields| && k <= |fields| && Accepted(t, directory, fields, suffixes, existing, limits)
    ensures Accepted(t, directory, fields[..k], suffixes[..k], existing, limits)
  {
    if k < |fields| {
      var n := |fields| - 1;
      AcceptedPrefix(t, directory, fields[..n], suffixes[..n], existing, limits, k);
      assert fields[..n][..k] == fields[..k] && suffixes[..n][..k] == suffixes[..k];
    } else {
      assert fields[..k] == fields && suffixes[..k] == suffixes;
    }
  }

  lemma OneMoreField(t: FileTree, directory: Path, fields: seq<Field>, suffixes: seq<string>, k: nat)
    requires k < |fields| == |suffixes|
    ensures fields[..k + 1][..k] == fields[..k] && suffixes[..k + 1][..k] == suffixes[..k]
    ensures AfterFields(t, directory, fields[..k + 1])
            == AfterFields(t, directory, fields[..k])[PathOf(directory, fields[k]) := File(Joined(fields[k].chunks))]
    ensures WrittenBy(fields[..k + 1]) == WrittenBy(fields[..k]) + |Joined(fields[k].chunks)|
    ensures Targets(directory, fields[..k + 1]) == Targets(directory, fields[..k]) + {PathOf(directory, fields[k])}
  {
    var more := fields[..k + 1];
    assert more[..k] == fields[..k] && more[k] == fields[k] && suffixes[..k + 1][..k] == suffixes[..k];
    assert forall i | 0 <= i < k :: more[i] == fields[..k][i];
  }

  // Paths that no field names are as they were.
  lemma {:induction false} Untargeted(t: FileTree, directory: Path, fields: seq<Field>, p: Path)
    requires p !in Targets(directory, fields)
    ensures p in AfterFields(t, directory, fields) <==> p in t
    ensures p in t ==> AfterFields(t, directory, fields)[p] == t[p]
  {
    if fields != [] {
      var n := |fields| - 1;
      assert forall i | 0 <= i < n :: fields[..n][i] == fields[i];
      assert PathOf(directory, fields[n]) in Targets(directory, fields);
      Untargeted(t, directory, fields[..n], p);
    }
  }

  lemma {:induction false} GrewAfterFields(before: FileTree, after: FileTree, directory: Path, fields: seq<Field>)
    requires Grew(before, after, directory)
    ensures Grew(AfterFields(before, directory, fields), AfterFields(after, directory, fields), directory)
  {
    if fields != [] {
      GrewAfterFields(before, after, directory, fields[..|fields| - 1]);
    }
  }

  // The counters of `upload`: they dominate the real size, and fit the limits.
  ghost predicate Dominates(t: FileTree, existing: nat, written: nat, replaced: nat, limits: Limits) {
    TreeSize(t) + replaced <= existing + written && Fits(existing, written, replaced, limits)
  }

  // One more field changes both sides alike, unless its path came up before.
  lemma CountersStep(t: FileTree, directory: Path, init: seq<Field>, f: Field)
    ensures var p, now := PathOf(directory, f), AfterFields(t, directory, init);
            TreeSize(now[p := File(Joined(f.chunks))])
            + (if p in Targets(directory, init) then LenAt(now, p) else LenAt(t, p))
            == TreeSize(now) + |Joined(f.chunks)|
  {
    var p, now := PathOf(directory, f), AfterFields(t, directory, init);
    SizeUpdate(now, p, File(Joined(f.chunks)));
    if p !in Targets(directory, init) {
      Untargeted(t, directory, init, p);
    }
  }

  /** What was there, plus what was written, minus what was replaced once, is at
      least the real size. */
  lemma {:induction false} CountersDominate(t: FileTree, directory: Path, fields: seq<Field>)
    ensures TreeSize(AfterFields(t, directory, fields)) + ReplacedBy(t, directory, fields)
            <= TreeSize(t) + WrittenBy(fields)
  {
    if fields != [] {
      var n := |fields| - 1;
      CountersDominate(t, directory, fields[..n]);
      CountersStep(t, directory, fields[..n], fields[n]);
    }
  }

  /** It is exactly the real size when no path is uploaded twice. */
  lemma {:induction false} CountersAreExact(t: FileTree, directory: Path, fields: seq<Field>)
    requires |Targets(directory, fields)| == |fields|
    ensures TreeSize(AfterFields(t, directory, fields)) + ReplacedBy(t, directory, fields)
            == TreeSize(t) + WrittenBy(fields)
  {
    if fields != [] {
      var n := |fields| - 1;
      assert fields[..n] + [fields[n]] == fields;
      TargetsOfOneMore(directory, fields[..n], fields[n]);
      CountersAreExact(t, directory, fields[..n]);
      CountersStep(t, directory, fields[..n], fields[n]);
    }
  }

  lemma {:induction false} TargetsOfOneMore(directory: Path, init: seq<Field>, f: Field)
    ensures Targets(directory, init + [f]) == Targets(directory, init) + {PathOf(directory, f)}
    ensures |Targets(directory, init)| <= |init|
  {
    var more := init + [f];
    assert forall i | 0 <= i < |init| :: more[i] == init[i];
    assert more[|init|] == f;
    if init == [] {
      assert Targets(directory, init) == {};
    } else {
      TargetsOfOneMore(directory, init[..|init| - 1], init[|init| - 1]);
      assert init[..|init| - 1] + [init[|init| - 1]] == init;
    }
  }

  lemma AcceptedIsWithin(t: FileTree, directory: Path, fields: seq<Field>, suffixes: seq<string>,
                         existing: nat, limits: Limits)
    requires |suffixes| == |fields| && fields != []
    requires Accepted(t, directory, fields, suffixes, existing, limits) && TreeSize(t) <= existing
    ensures TreeSize(AfterFields(t, directory, fields)) <= limits.maxServerDiskBytes
  {
    CountersDominate(t, directory, fields);
  }

  /* Stream one field into a temporary file, checking every chunk first. */
  method Receive(fs: ScopedFs, temporary: Path, chunks: seq<Bytes>, existing: u64, written: u64, replaced: nat,
                 limits: Limits)
    returns (received: Option<nat>)
    requires fs.Valid() && temporary in fs.tree && fs.tree[temporary] == File([])
    requires Fits(existing, written, replaced, limits)
    modifies fs
    ensures fs.Valid() && exists content: Bytes :: fs.tree == old(fs.tree)[temporary := File(content)]
    ensures received.Some? ==> received.value == |Joined(chunks)|
                               && fs.tree == old(fs.tree)[temporary := File(Joined(chunks))]
    ensures received.Some? ==> Fits(existing, written + |Joined(chunks)|, replaced, limits)
    ensures !fs.faulty && Fits(existing, written + |Joined(chunks)|, replaced, limits) ==> received.Some?
  {
    var bytes: nat := 0;
    assert fs.tree == old(fs.tree)[temporary := File([])];
    for i := 0 to |chunks|
      invariant fs.Valid() && bytes == |Joined(chunks[..i])|
      invariant fs.tree == old(fs.tree)[temporary := File(Joined(chunks[..i]))]
      invariant Fits(existing, written + bytes, replaced, limits)
    {
      assert chunks[..i + 1][..i] == chunks[..i];
      JoinedPrefix(chunks, i + 1);
      var next := bytes + |chunks[i]|;
      if next > U64_MAX || written + next > U64_MAX || existing + written + next > U64_MAX {
        return None;
      }
      if next > limits.maxUploadBytes || written + next > limits.maxUploadBytes
         || SaturatingSub(existing + written + next, replaced) > limits.maxServerDiskBytes
      {
        return None;
      }
      ghost var before := fs.tree;
      var ok := fs.Append(temporary, chunks[i]);
      if !ok {
        ghost var n :| 0 <= n <= |chunks[i]| && PartAppended(before, fs.tree, temporary, chunks[i][..n]);
        assert fs.tree == old(fs.tree)[temporary := File(before[temporary].content + chunks[i][..n])];
        return None;
      }
      bytes := next;
    }
    assert chunks[..|chunks|] == chunks;
    var failed := fs.Fault(MayFail);
    received := if failed then None else Some(bytes);
  }

  // Receive a field into its temporary file; on failure try to remove it.
  method StageField(fs: ScopedFs, temporary: Path, chunks: seq<Bytes>, existing: u64, written: u64,
                    replaced: nat, limits: Limits)
    returns (received: Option<nat>)
    requires fs.Valid() && temporary != [] && IsDir(fs.tree, Parent(temporary))
    requires Fits(existing, written, replaced, limits)
    modifies fs
    ensures fs.Valid()
    ensures received.Some? ==> temporary !in old(fs.tree) && received.value == |Joined(chunks)|
                               && fs.tree == old(fs.tree)[temporary := File(Joined(chunks))]
    ensures received.Some? ==> Fits(existing, written + |Joined(chunks)|, replaced, limits)
    ensures received.None? ==> Left(old(fs.tree), fs.tree, temporary, !fs.removalsFail)
    ensures (!fs.faulty && temporary !in old(fs.tree)
             && Fits(existing, written + |Joined(chunks)|, replaced, limits)) ==> received.Some?
  {
    ghost var start := fs.tree;
    var ok := CreateTemporary(fs, temporary);
    if !ok {
      return None;
    }
    ghost var created := fs.tree;
    received := Receive(fs, temporary, chunks, existing, written, replaced, limits);
    ghost var content: Bytes :| fs.tree == created[temporary := File(content)];
    assert fs.tree == start[temporary := File(content)];
    if received.None? {
      Discard(fs, temporary, start);
    }
  }

  // A replaced file is counted the first time its path is uploaded.
  ghost predicate Counted(t: FileTree, path: Path, before: nat, after: nat, replaced: set<Path>, reliable: bool) {
    var whole := if path in replaced then 0 else LenAt(t, path);
    before <= after <= before + whole && (reliable ==> after == before + whole)
  }

  /** One field. When it is published, exactly its file has changed, and the
      counters still dominate the real size and fit the limits. A field that is
      not published leaves every entry as it was. */
  method PublishField(fs: ScopedFs, directory: Path, field: Field, suffix: string,
                      existing: u64, written: u64, replacedBytes: nat, replaced: set<Path>, limits: Limits)
    returns (r: Option<(nat, nat)>)
    requires fs.Valid() && IsDir(fs.tree, directory)
    requires Dominates(fs.tree, existing, written, replacedBytes, limits)
    modifies fs
    ensures fs.Valid()
    ensures r.Some? ==> fs.tree == old(fs.tree)[PathOf(directory, field) := File(Joined(field.chunks))]
    ensures r.Some? ==> r.value.0 == written + |Joined(field.chunks)|
    ensures r.Some? ==> Counted(old(fs.tree), PathOf(directory, field), replacedBytes, r.value.1, replaced,
                                fs.lookupsReliable)
    ensures r.Some? ==> Dominates(fs.tree, existing, r.value.0, r.value.1, limits)
    ensures r.Some? ==> TemporaryOf(directory, suffix) !in old(fs.tree)
    ensures r.Some? ==> !IsDir(old(fs.tree), PathOf(directory, field))
    ensures r.None? ==> Left(old(fs.tree), fs.tree, TemporaryOf(directory, suffix), !fs.removalsFail)
    ensures (!fs.faulty && fs.lookupsReliable
             && TemporaryOf(directory, suffix) !in old(fs.tree) && !IsDir(old(fs.tree), PathOf(directory, field))
             && Fits(existing, written + |Joined(field.chunks)|,
                     replacedBytes + (if PathOf(directory, field) in replaced then 0
                                      else LenAt(old(fs.tree), PathOf(directory, field))), limits)) ==> r.Some?
  {
    var path, temporary := PathOf(directory, field), TemporaryOf(directory, suffix);
    var oldSize := 0;
    if path !in replaced {
      var existed := fs.Metadata(path);
      oldSize := if existed.Some? && existed.value.File? then |existed.value.content| else 0;
    }
    ghost var start := fs.tree;
    var replacedBytes' := replacedBytes + oldSize;
    SizeUpdate(start, path, File(Joined(field.chunks)));
    if path in start {
      SizeWithout(start, path);
    }
    // so the saturating addition never saturates
    assert replacedBytes' <= U64_MAX;
    assert Parent(temporary) == directory == Parent(path);
    var received := StageField(fs, temporary, field.chunks, existing, written, replacedBytes', limits);
    if received.None? {
      return None;
    }
    var ok := PublishTemporary(fs, temporary, path, start);
    if !ok {
      return None;
    }
    r := Some((written + received.value, replacedBytes'));
  }

  // The loop of `upload` after the first k fields.
  ghost predicate Uploading(t: FileTree, now: FileTree, directory: Path, fields: seq<Field>,
                            suffixes: seq<string>, k: nat,
                            existing: u64, written: nat, replacedBytes: nat, replaced: set<Path>,
                            limits: Limits, reliable: bool)
    requires k <= |fields| == |suffixes|
  {
    && WellFormed(now) && IsDir(now, directory) && now == AfterFields(t, directory, fields[..k])
    && written == WrittenBy(fields[..k]) && replaced == Targets(directory, fields[..k])
    && replacedBytes <= ReplacedBy(t, directory, fields[..k]) && TreeSize(t) == existing
    && (reliable ==> replacedBytes == ReplacedBy(t, directory, fields[..k]))
    && Fits(existing, written, replacedBytes, limits)
    && Accepted(t, directory, fields[..k], suffixes[..k], existing, limits)
  }

  lemma UploadStep(t: FileTree, now: FileTree, after: FileTree, directory: Path, fields: seq<Field>,
                   suffixes: seq<string>, k: nat,
                   existing: u64, written: nat, replacedBytes: nat, replacedBytes': nat, replaced: set<Path>,
                   limits: Limits, reliable: bool)
    requires k < |fields| == |suffixes|
    requires Uploading(t, now, directory, fields, suffixes, k, existing, written, replacedBytes, replaced,
                       limits, reliable)
    requires after == now[PathOf(directory, fields[k]) := File(Joined(fields[k].chunks))] && WellFormed(after)
    requires Counted(now, PathOf(directory, fields[k]), replacedBytes, replacedBytes', replaced, reliable)
    requires Fits(existing, written + |Joined(fields[k].chunks)|, replacedBytes', limits)
    requires TemporaryOf(directory, suffixes[k]) !in now && !IsDir(now, PathOf(directory, fields[k]))
    ensures Uploading(t, after, directory, fields, suffixes, k + 1, existing,
                      written + |Joined(fields[k].chunks)|, replacedBytes',
                      replaced + {PathOf(directory, fields[k])}, limits, reliable)
  {
    var path := PathOf(directory, fields[k]);
    OneMoreField(t, directory, fields, suffixes, k);
    ReplacedByOneMore(t, directory, fields, k);
    assert path != directory;
  }

  // A path that comes up for the first time still holds its original.
  lemma ReplacedByOneMore(t: FileTree, directory: Path, fields: seq<Field>, k: nat)
    requires k < |fields|
    ensures ReplacedBy(t, directory, fields[..k + 1])
            == ReplacedBy(t, directory, fields[..k])
               + (if PathOf(directory, fields[k]) in Targets(directory, fields[..k]) then 0
                  else LenAt(AfterFields(t, directory, fields[..k]), PathOf(directory, fields[k])))
  {
    assert fields[..k + 1][..k] == fields[..k];
    if PathOf(directory, fields[k]) !in Targets(directory, fields[..k]) {
      Untargeted(t, directory, fields[..k], PathOf(directory, fields[k]));
    }
  }

  // What the next field of an accepted upload can rely on.
  lemma NextIsAccepted(t: FileTree, directory: Path, fields: seq<Field>, suffixes: seq<string>, k: nat,
                       existing: nat, limits: Limits)
    requires k < |fields| == |suffixes| && Accepted(t, directory, fields, suffixes, existing, limits)
    ensures var now := AfterFields(t, directory, fields[..k]);
            && TemporaryOf(directory, suffixes[k]) !in now && !IsDir(now, PathOf(directory, fields[k]))
            && Fits(existing, WrittenBy(fields[..k]) + |Joined(fields[k].chunks)|,
                    ReplacedBy(t, directory, fields[..k + 1]), limits)
  {
    AcceptedPrefix(t, directory, fields, suffixes, existing, limits, k + 1);
    OneMoreField(t, directory, fields, suffixes, k);
  }

  // One turn of the loop.
  method NextField(fs: ScopedFs, directory: Path, fields: seq<Field>, suffixes: seq<string>, k: nat,
                   existing: u64, written: u64, replacedBytes: nat, replaced: set<Path>, limits: Limits,
                   ghost t: FileTree)
    returns (r: Option<(nat, nat)>)
    requires k < |fields| == |suffixes|
    requires Uploading(t, fs.tree, directory, fields, suffixes, k, existing, written, replacedBytes, replaced,
                       limits, fs.lookupsReliable)
    modifies fs
    ensures fs.Valid()
    ensures r.Some? ==> Uploading(t, fs.tree, directory, fields, suffixes, k + 1, existing, r.value.0, r.value.1,
                                  replaced + {PathOf(directory, fields[k])}, limits, fs.lookupsReliable)
    ensures r.None? ==> Left(AfterFields(t, directory, fields[..k]), fs.tree, TemporaryOf(directory, suffixes[k]),
                             !fs.removalsFail)
    ensures !fs.faulty && fs.lookupsReliable && Accepted(t, directory, fields, suffixes, existing, limits) ==> r.Some?
  {
    ghost var now := fs.tree;
    CountersDominate(t, directory, fields[..k]);
    ReplacedByOneMore(t, directory, fields, k);
    if Accepted(t, directory, fields, suffixes, existing, limits) {
      NextIsAccepted(t, directory, fields, suffixes, k, existing, limits);
    }
    r := PublishField(fs, directory, fields[k], suffixes[k], existing, written, replacedBytes, replaced, limits);
    if r.Some? {
      UploadStep(t, now, fs.tree, directory, fields, suffixes, k, existing, written, replacedBytes, r.value.1,
                 replaced, limits, fs.lookupsReliable);
    }
  }

  // The directory was within the quota after each published field.
  lemma PublishedIsWithin(t: FileTree, directory: Path, fields: seq<Field>, suffixes: seq<string>, n: nat,
                          existing: nat, limits: Limits)
    requires n <= |fields| == |suffixes| && TreeSize(t) <= existing
    requires Accepted(t, directory, fields[..n], suffixes[..n], existing, limits)
    ensures forall k | 0 < k <= n :: TreeSize(AfterFields(t, directory, fields[..k])) <= limits.maxServerDiskBytes
  {
    forall k | 0 < k <= n
      ensures TreeSize(AfterFields(t, directory, fields[..k])) <= limits.maxServerDiskBytes
    {
      AcceptedPrefix(t, directory, fields[..n], suffixes[..n], existing, limits, k);
      assert fields[..n][..k] == fields[..k] && suffixes[..n][..k] == suffixes[..k];
      AcceptedIsWithin(t, directory, fields[..k], suffixes[..k], existing, limits);
    }
  }

  // The loop over the fields, once the directory exists.
  method PublishFields(fs: ScopedFs, directory: Path, fields: seq<Field>, suffixes: seq<string>, existing: u64,
                       limits: Limits)
    returns (ok: bool, ghost published: nat)
    requires fs.Valid() && IsDir(fs.tree, directory) && |suffixes| == |fields|
    requires TreeSize(fs.tree) == existing <= limits.maxServerDiskBytes
    modifies fs
    ensures fs.Valid() && published <= |fields|
    ensures !ok ==> published < |fields|
                    && Left(AfterFields(old(fs.tree), directory, fields[..published]), fs.tree,
                            TemporaryOf(directory, suffixes[published]), !fs.removalsFail)
    ensures Accepted(old(fs.tree), directory, fields[..published], suffixes[..published], existing, limits)
    ensures ok ==> published == |fields| && fs.tree == AfterFields(old(fs.tree), directory, fields)
    ensures (!fs.faulty && fs.lookupsReliable
             && Accepted(old(fs.tree), directory, fields, suffixes, existing, limits)) ==> ok
  {
    ghost var t := fs.tree;
    published := 0;
    var written: nat, replacedBytes: nat, replaced: set<Path> := 0, 0, {};
    for i := 0 to |fields|
      invariant Uploading(t, fs.tree, directory, fields, suffixes, i, existing, written, replacedBytes,
                          replaced, limits, fs.lookupsReliable)
      invariant published == i
    {
      var next := NextField(fs, directory, fields, suffixes, i, existing, written, replacedBytes, replaced, limits, t);
      if next.None? {
        return false, published;
      }
      written, replacedBytes, replaced := next.value.0, next.value.1, replaced + {PathOf(directory, fields[i])};
      published := i + 1;
    }
    assert fields[..|fields|] == fields && suffixes[..|fields|] == suffixes;
    ok := true;
  }

  /** `upload`. Each published file leaves the directory exactly as the fields so
      far ask for and within the quota, also when one request uploads the same
      path several times; a refused request has published a prefix of its fields,
      and apart from that left at most one temporary file and directories on the
      way; and a machine that does not fail accepts exactly
      the uploads that fit. */
  method Upload(fs: ScopedFs, directory: Path, fields: seq<Field>, suffixes: seq<string>, limits: Limits)
    returns (ok: bool, ghost published: nat)
    requires fs.Valid() && |suffixes| == |fields| && TreeSize(fs.tree) <= U64_MAX
    modifies fs
    ensures fs.Valid() && published <= |fields|
    ensures !ok ==> LeftOnTheWay(AfterFields(old(fs.tree), directory, fields[..published]), fs.tree, directory,
                                 if published < |fields| then TemporaryOf(directory, suffixes[published]) else [],
                                 !fs.removalsFail)
    ensures forall k | 0 < k <= published ::
              TreeSize(AfterFields(WithDirs(old(fs.tree), directory), directory, fields[..k]))
              <= limits.maxServerDiskBytes
    ensures ok ==> published == |fields| > 0
                   && fs.tree == AfterFields(WithDirs(old(fs.tree), directory), directory, fields)
    ensures !fs.faulty && fs.lookupsReliable ==>
              (ok <==> fields != [] && UploadFits(old(fs.tree), directory, fields, suffixes, limits))
  {
    published := 0;
    ghost var before := fs.tree;
    var usage := DirectorySize(fs);
    if usage.None? || usage.value > limits.maxServerDiskBytes {
      return false, published;
    }
    ok := fs.CreateDirAll(directory, MayFail);
    CreatingDirsIsFree(before, fs.tree, directory);
    if !ok {
      return false, published;
    }
    ghost var t := fs.tree;
    assert directory != [] ==> IsPrefix(directory, directory);
    ok, published := PublishFields(fs, directory, fields, suffixes, usage.value, limits);
    GrewAfterFields(before, t, directory, fields[..published]);
    PublishedIsWithin(t, directory, fields, suffixes, published, usage.value, limits);
    assert fields[..|fields|] == fields && suffixes[..|fields|] == suffixes;
    ok := ok && |fields| > 0;
  }

  ghost predicate UploadFits(t: FileTree, directory: Path, fields: seq<Field>, suffixes: seq<string>, limits: Limits)
    requires |suffixes| == |fields|
  {
    && TreeSize(t) <= limits.maxServerDiskBytes && Passable(t, directory)
    && Accepted(WithDirs(t, directory), directory, fields, suffixes, TreeSize(t), limits)
  }

  /* ----- archive extraction ----- */

  datatype Member = DirectoryMember(path: Path) | FileMember(path: Path, content: Bytes)

  // The tree once every member has been extracted, in order.
  ghost function AfterMembers(t: FileTree, destination: Path, members: seq<Member>): FileTree {
    if members == [] then
      t
    else
      AfterMember(AfterMembers(t, destination, members[..|members| - 1]), destination, members[|members| - 1])
  }

  ghost function AfterMember(t: FileTree, destination: Path, m: Member): FileTree {
    if m.path == [] then t
    else if m.DirectoryMember? then WithDirs(t, destination + m.path)
    else WithDirs(t, destination + Parent(m.path))[destination + m.path := File(m.content)]
  }

  /** An extracted file is below the destination under its path in the archive,
      with the content of the last member of that path. */
  lemma {:induction false} FileOfAnExtraction(t: FileTree, destination: Path, members: seq<Member>, i: nat)
    requires i < |members| && members[i].FileMember? && members[i].path != []
    requires forall j | i < j < |members| :: members[j].path != members[i].path
    ensures var p, after := destination + members[i].path, AfterMembers(t, destination, members);
            p in after && after[p] == File(members[i].content)
  {
    var n := |members| - 1;
    if i < n {
      FileOfAnExtraction(t, destination, members[..n], i);
      assert (destination + members[i].path)[|destination|..] == members[i].path;
      assert (destination + members[n].path)[|destination|..] == members[n].path;
    }
  }

  function BytesIn(m: Member): nat {
    if m.FileMember? && m.path != [] then |m.content| else 0
  }

  function ExtractedBy(members: seq<Member>): nat {
    if members == [] then 0 else ExtractedBy(members[..|members| - 1]) + BytesIn(members[|members| - 1])
  }

  function MemberTemporary(destination: Path, path: Path, suffix: string): Path
    requires path != []
  {
    destination + Parent(path) + [".mcpanel-extract-" + suffix]
  }

  // What is checked before each part of a member is written.
  predicate Extractable(bytes: nat, total: nat, baseUsage: nat, limits: Limits) {
    bytes == 0 || (bytes <= limits.maxExtractedFileBytes && total + bytes <= limits.maxExtractedBytes
                   && Saturated(baseUsage + total + bytes) <= limits.maxServerDiskBytes)
  }

  // What a member that was not extracted can leave behind.
  ghost predicate LeftByMember(before: FileTree, after: FileTree, destination: Path, m: Member, suffix: string,
                               tidy: bool)
  {
    if m.path == [] then
      after == before
    else if m.DirectoryMember? then
      LeftOnTheWay(before, after, destination + m.path, [], tidy)
    else
      LeftOnTheWay(before, after, destination + Parent(m.path), MemberTemporary(destination, m.path, suffix), tidy)
  }

  lemma SlicesJoin(content: Bytes, start: nat, end: nat, n: nat)
    requires start <= end <= |content| && n <= end - start
    ensures content[..start] + content[start..end][..n] == content[..start + n]
    ensures content[start..end][..end - start] == content[start..end]
  {
    assert content[start..end][..n] == content[start..start + n];
  }

  // What one member needs of the tree it is extracted into.
  ghost predicate MemberFits(now: FileTree, destination: Path, m: Member, suffix: string, total: nat,
                             baseUsage: nat, limits: Limits) {
    m.path == []
    || (m.DirectoryMember? && Passable(now, destination + m.path))
    || (m.FileMember? && Passable(now, destination + Parent(m.path))
        && MemberTemporary(destination, m.path, suffix) !in now && !IsDir(now, destination + m.path)
        && Extractable(|m.content|, total, baseUsage, limits))
  }

  /** Which archives a machine that does not fail extracts. */
  ghost predicate AllFit(t: FileTree, destination: Path, members: seq<Member>, suffixes: seq<string>,
                         baseUsage: nat, limits: Limits)
    requires |suffixes| == |members|
  {
    members == []
    || (var n := |members| - 1;
        && AllFit(t, destination, members[..n], suffixes[..n], baseUsage, limits)
        && n < limits.maxArchiveEntries
        && MemberFits(AfterMembers(t, destination, members[..n]), destination, members[n], suffixes[n],
                      ExtractedBy(members[..n]), baseUsage, limits))
  }

  lemma {:induction false} AllFitPrefix(t: FileTree, destination: Path, members: seq<Member>, suffixes: seq<string>,
                                        baseUsage: nat, limits: Limits, k: nat)
    requires |suffixes| == |members| && k <= |members| && AllFit(t, destination, members, suffixes, baseUsage, limits)
    ensures AllFit(t, destination, members[..k], suffixes[..k], baseUsage, limits)
  {
    if k < |members| {
      var n := |members| - 1;
      AllFitPrefix(t, destination, members[..n], suffixes[..n], baseUsage, limits, k);
      assert members[..n][..k] == members[..k] && suffixes[..n][..k] == suffixes[..k];
    } else {
      assert members[..k] == members && suffixes[..k] == suffixes;
    }
  }

  lemma MemberSize(t: FileTree, destination: Path, m: Member)
    ensures TreeSize(AfterMember(t, destination, m)) <= TreeSize(t) + BytesIn(m)
  {
    if m.path != [] {
      var p := if m.DirectoryMember? then destination + m.path else destination + Parent(m.path);
      CreatingDirsIsFree(t, WithDirs(t, p), p);
      if m.FileMember? {
        SizeUpdate(WithDirs(t, p), destination + m.path, File(m.content));
      }
    }
  }

  // At most what was there plus what was extracted, and within the quota once
  // a byte was extracted.
  ghost predicate Within(t: FileTree, destination: Path, members: seq<Member>, baseUsage: nat, limits: Limits) {
    && TreeSize(AfterMembers(t, destination, members)) <= baseUsage + ExtractedBy(members)
    && (ExtractedBy(members) > 0 ==> Saturated(baseUsage + ExtractedBy(members)) <= limits.maxServerDiskBytes)
  }

  /** Members that fit leave a directory within the bounds. */
  lemma {:induction false} MembersAreWithin(t: FileTree, destination: Path, members: seq<Member>, suffixes: seq<string>,
                                            baseUsage: nat, limits: Limits)
    requires |suffixes| == |members| && AllFit(t, destination, members, suffixes, baseUsage, limits)
    requires TreeSize(t) <= baseUsage
    ensures Within(t, destination, members, baseUsage, limits)
  {
    if members != [] {
      var n := |members| - 1;
      MembersAreWithin(t, destination, members[..n], suffixes[..n], baseUsage, limits);
      MemberSize(AfterMembers(t, destination, members[..n]), destination, members[n]);
    }
  }

  lemma WithinAt(t: FileTree, destination: Path, members: seq<Member>, suffixes: seq<string>, n: nat, k: nat,
                 baseUsage: nat, limits: Limits)
    requires k <= n <= |members| == |suffixes| && TreeSize(t) <= baseUsage
    requires AllFit(t, destination, members[..n], suffixes[..n], baseUsage, limits)
    ensures Within(t, destination, members[..k], baseUsage, limits)
  {
    AllFitPrefix(t, destination, members[..n], suffixes[..n], baseUsage, limits, k);
    assert members[..n][..k] == members[..k] && suffixes[..n][..k] == suffixes[..k];
    MembersAreWithin(t, destination, members[..k], suffixes[..k], baseUsage, limits);
  }

  lemma WithinThroughout(t: FileTree, destination: Path, members: seq<Member>, suffixes: seq<string>, n: nat,
                         baseUsage: nat, limits: Limits)
    requires n <= |members| == |suffixes| && TreeSize(t) <= baseUsage
    requires AllFit(t, destination, members[..n], suffixes[..n], baseUsage, limits)
    ensures forall k | 0 <= k <= n :: Within(t, destination, members[..k], baseUsage, limits)
  {
    forall k | 0 <= k <= n
      ensures Within(t, destination, members[..k], baseUsage, limits)
    {
      WithinAt(t, destination, members, suffixes, n, k, baseUsage, limits);
    }
  }

  class Extraction {
    const fs: ScopedFs
    const destination: Path
    const limits: Limits
    const baseUsage: u64
    var total: nat
    var entries: nat

    constructor (fs: ScopedFs, destination: Path, limits: Limits, baseUsage: u64)
      ensures this.fs == fs && this.destination == destination && this.limits == limits && this.baseUsage == baseUsage
      ensures total == 0 && entries == 0
    {
      this.fs, this.destination, this.limits, this.baseUsage := fs, destination, limits, baseUsage;
      total, entries := 0, 0;
    }

    // The directory is within the quota, or no larger than it was.
    ghost predicate QuotaKept()
      reads this, fs
    {
      TreeSize(fs.tree) <= baseUsage || Saturated(TreeSize(fs.tree)) <= limits.maxServerDiskBytes
    }

    // The bytes extracted so far, on top of what was there, bound the real size.
    ghost predicate Bounded()
      reads this, fs
    {
      && fs.Valid()
      && TreeSize(fs.tree) <= baseUsage + total
      && total <= limits.maxExtractedBytes
      && (total > 0 ==> Saturated(baseUsage + total) <= limits.maxServerDiskBytes)
    }

    method Count() returns (ok: bool)
      modifies this`entries
      ensures entries == old(entries) + 1
      ensures ok <==> entries <= limits.maxArchiveEntries
    {
      entries := entries + 1;
      ok := entries <= limits.maxArchiveEntries;
    }

    /* The copy loop of copy_file: every check precedes its write. */
    method Fill(temporary: Path, content: Bytes) returns (ok: bool, ghost reached: nat)
      requires fs.Valid() && temporary in fs.tree && fs.tree[temporary] == File([])
      requires total <= U64_MAX
      modifies fs
      ensures fs.Valid() && reached <= |content| && fs.tree == old(fs.tree)[temporary := File(content[..reached])]
      ensures Extractable(reached, total, baseUsage, limits)
      ensures ok ==> reached == |content| && Extractable(|content|, total, baseUsage, limits)
      ensures !fs.faulty && Extractable(|content|, total, baseUsage, limits) ==> ok
    {
      var fileBytes: nat := 0;
      reached := 0;
      assert content[..0] == [];
      assert fs.tree == old(fs.tree)[temporary := File(content[..0])];
      while fileBytes < |content|
        invariant fileBytes == reached <= |content|
        invariant fs.Valid() && fs.tree == old(fs.tree)[temporary := File(content[..reached])]
        invariant Extractable(fileBytes, total, baseUsage, limits)
      {
        var failed := fs.Fault(MayFail);
        if failed {
          return false, reached;
        }
        var read: nat :| 1 <= read <= 65536 && read <= |content| - fileBytes;
        var next := fileBytes + read;
        if next > U64_MAX || total + next > U64_MAX || next > limits.maxExtractedFileBytes
           || total + next > limits.maxExtractedBytes
           || Saturated(baseUsage + total + next) > limits.maxServerDiskBytes
        {
          return false, reached;
        }
        ghost var before := fs.tree;
        ok := fs.Append(temporary, content[fileBytes..next]);
        if !ok {
          ghost var n :| 0 <= n <= read && PartAppended(before, fs.tree, temporary, content[fileBytes..next][..n]);
          SlicesJoin(content, fileBytes, next, n);
          return false, fileBytes + n;
        }
        SlicesJoin(content, fileBytes, next, read);
        fileBytes, reached := next, next;
      }
      assert content[..|content|] == content;
      var failed := fs.Fault(MayFail);
      ok := !failed;
    }

    // Create the member's parent, and an empty temporary file in it.
    method OpenMember(parent: Path, temporary: Path) returns (ok: bool)
      requires fs.Valid() && temporary != [] && Parent(temporary) == parent
      modifies fs
      ensures fs.Valid()
      ensures ok ==> Passable(old(fs.tree), parent) && temporary !in WithDirs(old(fs.tree), parent)
                     && fs.tree == WithDirs(old(fs.tree), parent)[temporary := File([])]
                     && IsDir(WithDirs(old(fs.tree), parent), parent)
                     && TreeSize(WithDirs(old(fs.tree), parent)) == TreeSize(old(fs.tree))
      ensures !ok ==> LeftOnTheWay(old(fs.tree), fs.tree, parent, temporary, !fs.removalsFail)
                      && TreeSize(fs.tree) == TreeSize(old(fs.tree))
      ensures (!fs.faulty && Passable(old(fs.tree), parent) && temporary !in WithDirs(old(fs.tree), parent)) ==> ok
    {
      ghost var start := fs.tree;
      ok := fs.CreateDirAll(parent, MayFail);
      CreatingDirsIsFree(start, fs.tree, parent);
      assert IsPrefix(parent, parent);
      if ok {
        ok := CreateTemporary(fs, temporary);
      }
    }

    // Fill the temporary file and publish it; `reached` bytes passed the checks.
    method FillMember(temporary: Path, target: Path, content: Bytes, ghost made: FileTree)
      returns (ok: bool, ghost reached: nat)
      requires fs.Valid() && total <= U64_MAX
      requires temporary != [] && target != [] && Parent(temporary) == Parent(target) && IsDir(made, Parent(target))
      requires temporary !in made && fs.tree == made[temporary := File([])]
      modifies fs
      ensures fs.Valid()
      ensures ok ==> reached == |content| && fs.tree == made[target := File(content)] && !IsDir(made, target)
      ensures !ok ==> Left(made, fs.tree, temporary, !fs.removalsFail)
      ensures TreeSize(fs.tree) <= TreeSize(made) + reached && Extractable(reached, total, baseUsage, limits)
      ensures !fs.faulty && !IsDir(made, target) && Extractable(|content|, total, baseUsage, limits) ==> ok
    {
      ok, reached := Fill(temporary, content);
      assert fs.tree == made[temporary := File(content[..reached])];
      SizeUpdate(made, temporary, File(content[..reached]));
      if !ok {
        Discard(fs, temporary, made);
        return;
      }
      assert content[..reached] == content;
      ok := PublishTemporary(fs, temporary, target, made);
      SizeUpdate(made, target, File(content));
    }

    method CopyFile(relative: Path, content: Bytes, suffix: string) returns (ok: bool)
      requires Bounded() && relative != []
      modifies this`total, fs
      ensures fs.Valid()
      ensures ok ==> Bounded() && total == old(total) + |content|
      ensures ok ==> fs.tree == AfterMember(old(fs.tree), destination, FileMember(relative, content))
      ensures !ok ==> total == old(total)
                      && LeftOnTheWay(old(fs.tree), fs.tree, destination + Parent(relative),
                                      MemberTemporary(destination, relative, suffix), !fs.removalsFail)
      ensures QuotaKept()
      ensures ok ==> MemberFits(old(fs.tree), destination, FileMember(relative, content), suffix, old(total),
                                baseUsage, limits)
      ensures !fs.faulty && MemberFits(old(fs.tree), destination, FileMember(relative, content), suffix, total,
                                       baseUsage, limits)
              ==> ok
    {
      var parent, target := destination + Parent(relative), destination + relative;
      var temporary := MemberTemporary(destination, relative, suffix);
      assert Parent(temporary) == parent == Parent(target);
      ghost var made := WithDirs(fs.tree, parent);
      ok := OpenMember(parent, temporary);
      if !ok {
        return;
      }
      ghost var reached;
      ok, reached := FillMember(temporary, target, content, made);
      if ok {
        total := total + |content|;
      }
    }

    // One turn of the loop over the archive.
    method ExtractOne(m: Member, suffix: string) returns (ok: bool)
      requires Bounded()
      modifies this, fs
      ensures fs.Valid() && entries == old(entries) + 1
      ensures ok ==> Bounded() && total == old(total) + BytesIn(m)
      ensures ok ==> fs.tree == AfterMember(old(fs.tree), destination, m)
      ensures !ok ==> total == old(total)
                      && LeftByMember(old(fs.tree), fs.tree, destination, m, suffix, !fs.removalsFail)
      ensures QuotaKept()
      ensures ok ==> entries <= limits.maxArchiveEntries
                     && MemberFits(old(fs.tree), destination, m, suffix, old(total), baseUsage, limits)
      ensures (!fs.faulty && old(entries) < limits.maxArchiveEntries
               && MemberFits(old(fs.tree), destination, m, suffix, old(total), baseUsage, limits)) ==> ok
    {
      ok := Count();
      if !ok || m.path == [] {
        return;
      }
      match m {
        case DirectoryMember(path) =>
          ghost var before := fs.tree;
          ok := fs.CreateDirAll(destination + path, MayFail);
          CreatingDirsIsFree(before, fs.tree, destination + path);
        case FileMember(path, content) =>
          ok := CopyFile(path, content, suffix);
      }
    }

    // What is known after the first k members.
    ghost predicate Extracting(t: FileTree, members: seq<Member>, suffixes: seq<string>, k: nat)
      requires k <= |members| == |suffixes|
      reads this, fs
    {
      && Bounded() && entries == k && total == ExtractedBy(members[..k])
      && fs.tree == AfterMembers(t, destination, members[..k])
      && AllFit(t, destination, members[..k], suffixes[..k], baseUsage, limits)
    }

    method ExtractNth(members: seq<Member>, suffixes: seq<string>, k: nat, ghost t: FileTree) returns (ok: bool)
      requires k < |members| == |suffixes| && Extracting(t, members, suffixes, k)
      modifies this, fs
      ensures fs.Valid() && QuotaKept()
      ensures ok ==> Extracting(t, members, suffixes, k + 1)
      ensures !ok ==> LeftByMember(AfterMembers(t, destination, members[..k]), fs.tree, destination,
                                   members[k], suffixes[k], !fs.removalsFail)
      ensures !fs.faulty && AllFit(t, destination, members, suffixes, baseUsage, limits) ==> ok
    {
      assert members[..k + 1][..k] == members[..k] && suffixes[..k + 1][..k] == suffixes[..k];
      if AllFit(t, destination, members, suffixes, baseUsage, limits) {
        AllFitPrefix(t, destination, members, suffixes, baseUsage, limits, k + 1);
      }
      ok := ExtractOne(members[k], suffixes[k]);
    }

    // The loop over the archive.
    method ExtractMembers(members: seq<Member>, suffixes: seq<string>) returns (ok: bool, ghost extracted: nat)
      requires Bounded() && total == 0 && entries == 0 && |suffixes| == |members|
      modifies this, fs
      ensures fs.Valid() && QuotaKept() && extracted <= |members|
      ensures !ok ==> extracted < |members|
                      && LeftByMember(AfterMembers(old(fs.tree), destination, members[..extracted]), fs.tree,
                                      destination, members[extracted], suffixes[extracted], !fs.removalsFail)
      ensures AllFit(old(fs.tree), destination, members[..extracted], suffixes[..extracted], baseUsage, limits)
      ensures ok ==> extracted == |members| && Extracting(old(fs.tree), members, suffixes, |members|)
      ensures !fs.faulty && AllFit(old(fs.tree), destination, members, suffixes, baseUsage, limits) ==> ok
    {
      ghost var t := fs.tree;
      extracted := 0;
      for i := 0 to |members|
        invariant extracted == i && QuotaKept() && Extracting(t, members, suffixes, i)
      {
        ok := ExtractNth(members, suffixes, i, t);
        if !ok {
          return;
        }
        extracted := i + 1;
      }
      ok := true;
    }

    /** extract_zip and extract_tar_gz after their members have been vetted. On
        success the directory is exactly what the members ask for; a failure has
        extracted a prefix, and apart from that left at most one temporary file
        and directories on the way; after every member, and at the end, the
        directory is at most base + extracted bytes and within the quota if a
        byte was extracted; and a machine that does not fail extracts exactly
        the archives that fit. */
    method ExtractAll(members: seq<Member>, suffixes: seq<string>) returns (ok: bool, ghost extracted: nat)
      requires Bounded() && total == 0 && entries == 0 && |suffixes| == |members|
      modifies this, fs
      ensures fs.Valid() && extracted <= |members|
      ensures !ok ==> extracted < |members|
                      && LeftByMember(AfterMembers(old(fs.tree), destination, members[..extracted]), fs.tree,
                                      destination, members[extracted], suffixes[extracted], !fs.removalsFail)
      ensures forall k | 0 <= k <= extracted :: Within(old(fs.tree), destination, members[..k], baseUsage, limits)
      ensures QuotaKept()
      ensures ok ==> extracted == |members| == entries && fs.tree == AfterMembers(old(fs.tree), destination, members)
      ensures ok ==> Bounded() && total == ExtractedBy(members)
      ensures ok && total > 0 ==> Saturated(TreeSize(fs.tree)) <= limits.maxServerDiskBytes
      ensures !fs.faulty ==> (ok <==> AllFit(old(fs.tree), destination, members, suffixes, baseUsage, limits))
    {
      ghost var start := fs.tree;
      ok, extracted := ExtractMembers(members, suffixes);
      WithinThroughout(start, destination, members, suffixes, extracted, baseUsage, limits);
      assert members[..|members|] == members && suffixes[..|members|] == suffixes;
    }
  }
}
