// Archive entries as crates/guardian/src/backup.rs reads them, and what an
// archive asks for: which files with which bytes, and which directories.
module Archive {
  import opened Tree

  datatype EntryKind = Directory | RegularFile | LinkEntry | OtherEntry

  /** One tar entry: the member name as written, what the header calls it, the
      size it declares, and the bytes that follow. */
  datatype Entry = Entry(raw: string, kind: EntryKind, declared: nat, content: Bytes)

  /* ----- member names ----- */

  // Cut at every '/'.
  function SplitSlash(s: string): (r: seq<string>)
    ensures r != []
    ensures forall i | 0 <= i < |r| :: '/' !in r[i]
  {
    if s == [] then
      [""]
    else
      var rest := SplitSlash(s[1..]);
      if s[0] == '/' then [""] + rest else [[s[0]] + rest[0]] + rest[1..]
  }

  function JoinSlash(p: Path): string {
    if p == [] then
      ""
    else if |p| == 1 then
      p[0]
    else
      p[0] + "/" + JoinSlash(p[1..])
  }

  // The components that name something: empty parts and `.` denote nothing.
  function Named(parts: seq<string>): (p: Path)
    ensures forall i | 0 <= i < |p| :: p[i] in parts && p[i] != "" && p[i] != "."
  {
    if parts == [] then
      []
    else if parts[0] == "" || parts[0] == "." then
      Named(parts[1..])
    else
      [parts[0]] + Named(parts[1..])
  }

  predicate IsAsciiLetter(c: char) {
    'a' <= c <= 'z' || 'A' <= c <= 'Z'
  }

  // safe_member: no absolute path, no backslash, no drive letter, no `..`.
  predicate SafeMember(raw: string) {
    && !(|raw| > 0 && raw[0] == '/')
    && '\\' !in raw
    && !(|raw| >= 2 && IsAsciiLetter(raw[0]) && raw[1] == ':')
    && ".." !in SplitSlash(raw)
  }

  // normalise_member keeps the normal components and drops the rest.
  function Normalise(raw: string): (p: Path) {
    KeepNormal(Named(SplitSlash(raw)))
  }

  function KeepNormal(parts: seq<string>): (p: Path)
    ensures ".." !in parts ==> p == parts
  {
    if parts == [] then
      []
    else if parts[0] == ".." then
      KeepNormal(parts[1..])
    else
      [parts[0]] + KeepNormal(parts[1..])
  }

  // A component that stays where it is put: a non-empty name that is not a
  // relative reference and holds no separator.
  predicate ProperName(n: string) {
    n != "" && n != "." && n != ".." && '/' !in n
  }

  predicate ProperPath(p: Path) {
    forall i | 0 <= i < |p| :: ProperName(p[i])
  }

  lemma {:induction false} SplitKeepsChars(s: string)
    ensures forall part, c | part in SplitSlash(s) && c in part :: c in s
  {
    if s != [] {
      SplitKeepsChars(s[1..]);
    }
  }

  /** An accepted member name denotes a path below the destination: proper
      names only, with no separator of any platform left in them. */
  lemma SafeMemberStaysInside(raw: string)
    requires SafeMember(raw)
    ensures ProperPath(Normalise(raw))
    ensures forall i | 0 <= i < |Normalise(raw)| :: '\\' !in Normalise(raw)[i]
  {
    var parts := SplitSlash(raw);
    var p := Named(parts);
    assert ".." !in p;
    assert Normalise(raw) == p;
    SplitKeepsChars(raw);
    forall i | 0 <= i < |p|
      ensures ProperName(p[i]) && '\\' !in p[i]
    {
      assert p[i] in parts;
    }
  }

  lemma {:induction false} SplitOfJoin(p: Path)
    requires p != [] && ProperPath(p)
    ensures SplitSlash(JoinSlash(p)) == p
  {
    if |p| == 1 {
      SplitNoSlash(p[0]);
    } else {
      assert ProperPath(p[1..]);
      SplitOfJoin(p[1..]);
      SplitAtFirst(p[0], JoinSlash(p[1..]));
      assert p[0] + "/" + JoinSlash(p[1..]) == p[0] + ("/" + JoinSlash(p[1..]));
      assert p == [p[0]] + p[1..];
    }
  }

  lemma {:induction false} SplitNoSlash(n: string)
    requires '/' !in n
    ensures SplitSlash(n) == [n]
  {
    if n != [] {
      SplitNoSlash(n[1..]);
      assert [n[0]] + n[1..] == n;
    }
  }

  lemma {:induction false} SplitAtFirst(n: string, rest: string)
    requires '/' !in n
    ensures SplitSlash(n + ("/" + rest)) == [n] + SplitSlash(rest)
  {
    if n == [] {
      assert n + ("/" + rest) == "/" + rest;
      assert ("/" + rest)[1..] == rest;
    } else {
      SplitAtFirst(n[1..], rest);
      assert (n + ("/" + rest))[1..] == n[1..] + ("/" + rest);
      assert [n[0]] + n[1..] == n;
    }
  }

  lemma {:induction false} NamedOfProper(p: Path)
    requires ProperPath(p)
    ensures Named(p) == p
  {
    if p != [] {
      assert ProperName(p[0]) && ProperPath(p[1..]);
      NamedOfProper(p[1..]);
    }
  }

  /** Writing a path with '/' between its names and reading it back is the
      identity; the written form is refused only for a backslash anywhere or a
      drive-letter prefix. */
  lemma MemberNameRoundTrip(p: Path)
    requires p != [] && ProperPath(p)
    ensures Normalise(JoinSlash(p)) == p
    ensures SafeMember(JoinSlash(p)) <==>
            !(exists i :: 0 <= i < |p| && '\\' in p[i])
            && !(|JoinSlash(p)| >= 2 && IsAsciiLetter(JoinSlash(p)[0]) && JoinSlash(p)[1] == ':')
  {
    SplitOfJoin(p);
    NamedOfProper(p);
    assert ProperName(p[0]);
    assert JoinSlash(p)[0] == p[0][0];
    assert ".." !in p;
    JoinChars(p);
    SplitKeepsChars(JoinSlash(p));
  }

  lemma {:induction false} JoinChars(p: Path)
    ensures forall c | c in JoinSlash(p) && c != '/' :: exists i :: 0 <= i < |p| && c in p[i]
  {
    if |p| == 1 {
      assert JoinSlash(p) == p[0];
    } else if |p| > 1 {
      JoinChars(p[1..]);
      forall c | c in JoinSlash(p) && c != '/'
        ensures exists i :: 0 <= i < |p| && c in p[i]
      {
        if c !in p[0] {
          assert c in JoinSlash(p[1..]);
          var i :| 0 <= i < |p[1..]| && c in p[1..][i];
          assert c in p[i + 1];
        }
      }
    }
  }

  /* ----- what an archive asks for ----- */

  function Target(e: Entry): Path {
    Normalise(e.raw)
  }

  // The relative paths the commit phase publishes, in archive order.
  function FilePaths(es: seq<Entry>): seq<Path> {
    if es == [] then
      []
    else
      var e := es[|es| - 1];
      FilePaths(es[..|es| - 1]) + (if e.kind.RegularFile? then [Target(e)] else [])
  }

  function DirPaths(es: seq<Entry>): seq<Path> {
    if es == [] then
      []
    else
      var e := es[|es| - 1];
      DirPaths(es[..|es| - 1]) + (if e.kind.Directory? && Target(e) != [] then [Target(e)] else [])
  }

  ghost function FilesOf(es: seq<Entry>): map<Path, Bytes> {
    if es == [] then
      map[]
    else
      var e := es[|es| - 1];
      var before := FilesOf(es[..|es| - 1]);
      if e.kind.RegularFile? then before[Target(e) := e.content] else before
  }

  // Every directory that must exist: directory entries, their parents, and
  // the parents of files.
  ghost function DirsOf(es: seq<Entry>): set<Path> {
    if es == [] then
      {}
    else
      DirsOf(es[..|es| - 1]) + DirsOfEntry(es[|es| - 1])
  }

  ghost function DirsOfEntry(e: Entry): set<Path> {
    if e.kind.Directory? then
      Ancestors(Target(e))
    else if e.kind.RegularFile? && Target(e) != [] then
      Ancestors(Parent(Target(e)))
    else
      {}
  }

  ghost predicate Distinct<T(!new)>(s: seq<T>) {
    forall i, j | 0 <= i < j < |s| :: s[i] != s[j]
  }

  // No path is used twice: neither two files, nor a file and a directory.
  ghost predicate ConflictFree(es: seq<Entry>) {
    && Distinct(FilePaths(es))
    && DirsOf(es) !! FilesOf(es).Keys
  }

  lemma {:induction false} FilePathsAreFiles(es: seq<Entry>)
    ensures forall p :: p in FilePaths(es) <==> p in FilesOf(es)
  {
    if es != [] {
      FilePathsAreFiles(es[..|es| - 1]);
    }
  }

  lemma {:induction false} DirsHaveNoRoot(es: seq<Entry>)
    ensures [] !in DirsOf(es)
  {
    if es != [] {
      DirsHaveNoRoot(es[..|es| - 1]);
    }
  }

  lemma {:induction false} FileParentsAreDirs(es: seq<Entry>, p: Path, q: Path)
    requires p in FilesOf(es) && p != [] && q != [] && IsPrefix(q, Parent(p))
    ensures q in DirsOf(es)
  {
    var init, e := es[..|es| - 1], es[|es| - 1];
    if !(e.kind.RegularFile? && Target(e) == p) {
      FileParentsAreDirs(init, p, q);
    }
  }

  lemma {:induction false} DirPathsAreDirs(es: seq<Entry>, p: Path, q: Path)
    requires p in DirPaths(es) && q != [] && IsPrefix(q, p)
    ensures q in DirsOf(es)
  {
    var init, e := es[..|es| - 1], es[|es| - 1];
    if p in DirPaths(init) {
      DirPathsAreDirs(init, p, q);
    } else {
      assert q in DirsOfEntry(e);
    }
  }

  // Every needed directory is explained by a directory entry or a file.
  lemma {:induction false} DirsAreExplained(es: seq<Entry>, q: Path)
    requires q in DirsOf(es)
    ensures (exists p :: p in DirPaths(es) && IsPrefix(q, p))
            || (exists p :: p in FilePaths(es) && p != [] && IsPrefix(q, Parent(p)))
  {
    var init, e := es[..|es| - 1], es[|es| - 1];
    if q in DirsOf(init) {
      DirsAreExplained(init, q);
      assert forall p :: p in DirPaths(init) ==> p in DirPaths(es);
      assert forall p :: p in FilePaths(init) ==> p in FilePaths(es);
    } else {
      assert q in DirsOfEntry(e);
      if e.kind.Directory? {
        assert Target(e) in DirPaths(es);
      } else {
        assert Target(e) in FilePaths(es);
      }
    }
  }

  /** What ConflictFree says about the paths themselves: no file is repeated and
      no file path is, or lies above, another file or a directory entry. */
  lemma ConflictFreePaths(es: seq<Entry>)
    requires [] !in FilePaths(es)
    ensures ConflictFree(es) <==>
            && Distinct(FilePaths(es))
            && (forall f, g | f in FilePaths(es) && g in FilePaths(es) && f != g :: !IsPrefix(f, g))
            && (forall f, d | f in FilePaths(es) && d in DirPaths(es) :: !IsPrefix(f, d))
  {
    FilePathsAreFiles(es);
    if ConflictFree(es) {
      forall f, g | f in FilePaths(es) && g in FilePaths(es) && f != g
        ensures !IsPrefix(f, g)
      {
        if IsPrefix(f, g) {
          PrefixStep(g);
          FileParentsAreDirs(es, g, f);
        }
      }
      forall f, d | f in FilePaths(es) && d in DirPaths(es)
        ensures !IsPrefix(f, d)
      {
        if IsPrefix(f, d) {
          DirPathsAreDirs(es, d, f);
        }
      }
    }
    if && (forall f, g | f in FilePaths(es) && g in FilePaths(es) && f != g :: !IsPrefix(f, g))
       && (forall f, d | f in FilePaths(es) && d in DirPaths(es) :: !IsPrefix(f, d))
    {
      forall f | f in DirsOf(es) && f in FilesOf(es)
        ensures false
      {
        DirsAreExplained(es, f);
        if p :| p in FilePaths(es) && p != [] && IsPrefix(f, Parent(p)) {
          PrefixStep(p);
        }
      }
    }
  }

  /* ----- the tree an archive makes of another ----- */

  ghost function Overlay(t: FileTree, es: seq<Entry>): FileTree {
    map p | p in t.Keys + DirsOf(es) + FilesOf(es).Keys ::
      if p in FilesOf(es) then File(FilesOf(es)[p])
      else if p in t then t[p]
      else Dir
  }

  // The files alone, without the directories they need.
  ghost function OverlayFiles(t: FileTree, files: map<Path, Bytes>): FileTree {
    map p | p in t.Keys + files.Keys :: if p in files then File(files[p]) else t[p]
  }

  lemma OverlaySize(t: FileTree, es: seq<Entry>)
    ensures TreeSize(Overlay(t, es)) == TreeSize(OverlayFiles(t, FilesOf(es)))
  {
    var a := OverlayFiles(t, FilesOf(es));
    var b := map p | p in DirsOf(es) - a.Keys :: Dir;
    assert Overlay(t, es) == a + b;
    SizeOfDirs(b);
    SizeOfUnion(a, b);
  }

  lemma OverlayOneFile(t: FileTree, files: map<Path, Bytes>, p: Path, bytes: Bytes)
    requires p !in files
    ensures TreeSize(OverlayFiles(t, files[p := bytes]))
            == TreeSize(OverlayFiles(t, files)) - LenAt(t, p) + |bytes|
  {
    var a := OverlayFiles(t, files);
    assert OverlayFiles(t, files[p := bytes]) == a[p := File(bytes)];
    SizeUpdate(a, p, File(bytes));
  }

  lemma OverlayNothing(t: FileTree)
    ensures OverlayFiles(t, map[]) == t
  {
  }

  /* ----- order ----- */

  lemma {:induction false} FileComesFromEntry(es: seq<Entry>, p: Path)
    requires p in FilesOf(es)
    ensures exists e :: e in es && e.kind.RegularFile? && Target(e) == p && FilesOf(es)[p] == e.content
  {
    var init, last := es[..|es| - 1], es[|es| - 1];
    if !(last.kind.RegularFile? && Target(last) == p) {
      FileComesFromEntry(init, p);
      var e :| e in init && e.kind.RegularFile? && Target(e) == p && FilesOf(init)[p] == e.content;
      assert e in es;
    } else {
      assert last in es;
    }
  }

  lemma {:induction false} EntryGivesFile(es: seq<Entry>, e: Entry)
    requires e in es && e.kind.RegularFile? && Distinct(FilePaths(es))
    ensures Target(e) in FilesOf(es) && FilesOf(es)[Target(e)] == e.content
  {
    var init, last := es[..|es| - 1], es[|es| - 1];
    assert es == init + [last];
    var paths, before := FilePaths(es), FilePaths(init);
    assert Distinct(before) by {
      assert forall i | 0 <= i < |before| :: paths[i] == before[i];
    }
    if e in init {
      EntryGivesFile(init, e);
      FilePathsAreFiles(init);
      assert last.kind.RegularFile? ==> forall i | 0 <= i < |before| :: before[i] == paths[i] != paths[|before|];
    }
  }

  lemma {:induction false} DirsComeFromEntries(es: seq<Entry>, q: Path)
    ensures q in DirsOf(es) <==> exists e :: e in es && q in DirsOfEntry(e)
  {
    if es != [] {
      var init, last := es[..|es| - 1], es[|es| - 1];
      assert es == init + [last];
      DirsComeFromEntries(init, q);
    }
  }

  lemma {:induction false} FilePathsAppend(a: seq<Entry>, b: seq<Entry>)
    ensures FilePaths(a + b) == FilePaths(a) + FilePaths(b)
  {
    if b == [] {
      assert a + b == a;
    } else {
      var init := b[..|b| - 1];
      assert (a + b)[..|a + b| - 1] == a + init && (a + b)[|a + b| - 1] == b[|b| - 1];
      FilePathsAppend(a, init);
    }
  }

  // The last entry of one order, taken out of the other.
  lemma TakeOutLast(es: seq<Entry>, fs: seq<Entry>) returns (a: seq<Entry>, b: seq<Entry>)
    requires multiset(es) == multiset(fs) && es != []
    ensures fs == a + [es[|es| - 1]] + b && multiset(es[..|es| - 1]) == multiset(a + b)
  {
    var init, last := es[..|es| - 1], es[|es| - 1];
    assert es == init + [last];
    assert last in multiset(fs);
    var i :| 0 <= i < |fs| && fs[i] == last;
    a, b := fs[..i], fs[i + 1..];
    assert fs == a + [last] + b;
    assert es == init + [last] + [] && init == init + [];
    OneTakenOut(init, last, []);
    OneTakenOut(a, last, b);
  }

  lemma OneTakenOut(a: seq<Entry>, e: Entry, b: seq<Entry>)
    ensures multiset(a + b) == multiset(a + [e] + b) - multiset{e}
  {
  }

  lemma PathsOfThree(a: seq<Entry>, e: Entry, b: seq<Entry>)
    ensures multiset(FilePaths(a + [e] + b)) == multiset(FilePaths(a + b)) + multiset(FilePaths([e]))
  {
    FilePathsAppend(a + [e], b);
    FilePathsAppend(a, [e]);
    FilePathsAppend(a, b);
  }

  lemma {:induction false} PathsIgnoreOrder(es: seq<Entry>, fs: seq<Entry>)
    requires multiset(es) == multiset(fs)
    ensures multiset(FilePaths(es)) == multiset(FilePaths(fs))
    decreases |es|
  {
    if es == [] {
      assert fs == [] by {
        assert |fs| == |multiset(fs)|;
      }
    } else {
      var init, last := es[..|es| - 1], es[|es| - 1];
      assert es == init + [last] + [];
      var a, b := TakeOutLast(es, fs);
      PathsIgnoreOrder(init, a + b);
      PathsOfThree(a, last, b);
      PathsOfThree(init, last, []);
      assert init + [] == init;
    }
  }

  lemma {:induction false} DistinctIsMultiset(s: seq<Path>)
    ensures Distinct(s) <==> forall p :: multiset(s)[p] <= 1
  {
    if s != [] {
      var init, last := s[..|s| - 1], s[|s| - 1];
      assert s == init + [last];
      DistinctIsMultiset(init);
      assert last in init <==> last in multiset(init);
      if Distinct(s) {
        assert Distinct(init);
        assert last !in init;
      }
      if forall p :: multiset(s)[p] <= 1 {
        assert forall p :: multiset(init)[p] <= multiset(s)[p];
        assert multiset(s)[last] == multiset(init)[last] + 1;
        assert last !in init;
        forall i, j | 0 <= i < j < |s|
          ensures s[i] != s[j]
        {
          assert s[i] == init[i];
        }
      }
    }
  }

  /** The result of a restore does not depend on the order of the entries. */
  lemma OverlayIgnoresOrder(t: FileTree, es: seq<Entry>, fs: seq<Entry>)
    requires multiset(es) == multiset(fs)
    requires ConflictFree(es)
    ensures ConflictFree(fs) && Overlay(t, es) == Overlay(t, fs)
  {
    PathsIgnoreOrder(es, fs);
    DistinctIsMultiset(FilePaths(es));
    DistinctIsMultiset(FilePaths(fs));
    forall e
      ensures e in es <==> e in fs
    {
      assert e in multiset(es) <==> e in multiset(fs);
    }
    forall q
      ensures q in DirsOf(es) <==> q in DirsOf(fs)
    {
      DirsComeFromEntries(es, q);
      DirsComeFromEntries(fs, q);
    }
    SameFiles(es, fs);
    SameFiles(fs, es);
    assert FilesOf(es) == FilesOf(fs);
    assert DirsOf(es) == DirsOf(fs);
  }

  lemma SameFiles(es: seq<Entry>, fs: seq<Entry>)
    requires forall e | e in es :: e in fs
    requires Distinct(FilePaths(fs))
    ensures forall p | p in FilesOf(es) :: p in FilesOf(fs) && FilesOf(fs)[p] == FilesOf(es)[p]
  {
    forall p | p in FilesOf(es)
      ensures p in FilesOf(fs) && FilesOf(fs)[p] == FilesOf(es)[p]
    {
      FileComesFromEntry(es, p);
      var e :| e in es && e.kind.RegularFile? && Target(e) == p && FilesOf(es)[p] == e.content;
      EntryGivesFile(fs, e);
    }
  }
}
