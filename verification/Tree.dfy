// A server directory as a value: a finite map from relative paths to nodes.
module Tree {

  type Path = seq<string>
  type Bytes = seq<bv8>

  const U64_MAX: nat := 0xFFFF_FFFF_FFFF_FFFF

  // Unsigned 64-bit counters; every addition that can overflow is checked.
  type u64 = n: nat | n <= U64_MAX

  /** What a name can denote. A symbolic link is an inert leaf: no operation of
      the scoped file system follows one. */
  datatype Node = Dir | File(content: Bytes) | Link(target: string)

  type FileTree = map<Path, Node>

  function Parent(p: Path): (q: Path)
    requires p != []
  {
    p[..|p| - 1]
  }

  // The root itself is the empty path; it is a directory and is not listed.
  predicate IsDir(t: FileTree, p: Path) {
    p == [] || (p in t && t[p].Dir?)
  }

  predicate IsLeaf(t: FileTree, p: Path) {
    p in t && !t[p].Dir?
  }

  predicate WellFormed(t: FileTree) {
    [] !in t && forall p {:trigger Parent(p)} | p in t :: p != [] && IsDir(t, Parent(p))
  }

  /* ----- prefixes ----- */

  predicate IsPrefix(q: Path, p: Path) {
    |q| <= |p| && p[..|q|] == q
  }

  lemma PrefixStep(p: Path)
    requires p != []
    ensures IsPrefix(Parent(p), p)
    ensures forall q: Path :: IsPrefix(q, p) <==> q == p || IsPrefix(q, Parent(p))
  {
  }

  lemma PrefixTransitive(a: Path, b: Path, c: Path)
    requires IsPrefix(a, b) && IsPrefix(b, c)
    ensures IsPrefix(a, c)
  {
  }

  // The non-empty prefixes of a path, itself included.
  ghost function Ancestors(p: Path): (s: set<Path>)
    ensures forall q :: q in s <==> q != [] && IsPrefix(q, p)
  {
    if p == [] then
      {}
    else
      PrefixStep(p);
      Ancestors(Parent(p)) + {p}
  }

  // In a well-formed tree, every proper prefix of an entry is a directory.
  lemma ProperPrefixIsDir(t: FileTree, p: Path, q: Path)
    requires WellFormed(t) && p in t && IsPrefix(q, p) && q != p
    ensures IsDir(t, q)
  {
    PrefixStep(p);
    if q != Parent(p) {
      ProperPrefixIsDir(t, Parent(p), q);
    }
  }

  /* ----- the effect of creating a directory and its missing parents ----- */

  ghost function WithDirs(t: FileTree, p: Path): FileTree {
    map q | q in t.Keys + Ancestors(p) :: if q in t then t[q] else Dir
  }

  // Nothing was removed or changed, and only prefixes of p appeared, as directories.
  ghost predicate Grew(before: FileTree, after: FileTree, p: Path) {
    && (forall q | q in before :: q in after && after[q] == before[q])
    && (forall q | q in after && q !in before :: after[q] == Dir && IsPrefix(q, p))
  }

  // No non-empty prefix of p is a file or a link.
  ghost predicate Passable(t: FileTree, p: Path) {
    forall q | q != [] && IsPrefix(q, p) && q in t :: t[q].Dir?
  }

  // A directory that exists needs nothing created.
  lemma ExistingDir(t: FileTree, p: Path)
    requires WellFormed(t) && IsDir(t, p)
    ensures WithDirs(t, p) == t && Passable(t, p)
  {
    forall q | q != [] && IsPrefix(q, p)
      ensures q in t && t[q].Dir?
    {
      if q != p {
        ProperPrefixIsDir(t, p, q);
      }
    }
  }

  lemma GrewAllIsWithDirs(before: FileTree, after: FileTree, p: Path)
    requires Grew(before, after, p) && [] !in after
    requires forall q | q != [] && IsPrefix(q, p) :: q in after
    ensures after == WithDirs(before, p)
  {
  }

  lemma GrewNothing(before: FileTree, after: FileTree, p: Path)
    requires WellFormed(before) && IsDir(before, p) && Grew(before, after, p) && [] !in after
    ensures after == before
  {
    ExistingDir(before, p);
    assert forall q | q in after :: q in before;
  }

  // A missing name below a directory can be created, or a leaf replaced.
  lemma PutIsWellFormed(t: FileTree, p: Path, n: Node)
    requires WellFormed(t) && p != [] && IsDir(t, Parent(p)) && !TurnsDirIntoLeaf(t, p, n)
    ensures WellFormed(t[p := n])
  {
  }

  // A directory is never turned into a leaf.
  predicate TurnsDirIntoLeaf(t: FileTree, p: Path, n: Node) {
    p in t && t[p].Dir? && !n.Dir?
  }

  lemma DropLeafIsWellFormed(t: FileTree, p: Path)
    requires WellFormed(t) && IsLeaf(t, p)
    ensures WellFormed(t - {p})
  {
  }

  lemma GrewStep(before: FileTree, t: FileTree, here: Path)
    requires here != [] && Grew(before, t, Parent(here)) && here !in t
    ensures Grew(before, t[here := Dir], here)
  {
  }

  lemma GrewLonger(before: FileTree, after: FileTree, p: Path, q: Path)
    requires Grew(before, after, p) && IsPrefix(p, q)
    ensures Grew(before, after, q)
  {
  }

  /* ----- sizes ----- */

  function Len(n: Node): nat {
    if n.File? then |n.content| else 0
  }

  function LenAt(t: FileTree, p: Path): nat {
    if p in t then Len(t[p]) else 0
  }

  // The bytes of all regular files of a tree.
  ghost function TreeSize(t: FileTree): nat {
    if t == map[] then
      0
    else
      var p :| p in t;
      Len(t[p]) + TreeSize(t - {p})
  }

  lemma {:induction false} SizeWithout(t: FileTree, p: Path)
    requires p in t
    ensures TreeSize(t) == Len(t[p]) + TreeSize(t - {p})
    decreases |t|
  {
    var q :| q in t && TreeSize(t) == Len(t[q]) + TreeSize(t - {q});
    if q != p {
      SizeWithout(t - {q}, p);
      SizeWithout(t - {p}, q);
      assert t - {q} - {p} == t - {p} - {q};
    }
  }

  lemma SizeUpdate(t: FileTree, p: Path, n: Node)
    ensures TreeSize(t[p := n]) == TreeSize(t) - LenAt(t, p) + Len(n)
  {
    SizeWithout(t[p := n], p);
    if p in t {
      SizeWithout(t, p);
      assert t[p := n] - {p} == t - {p};
    } else {
      assert t[p := n] - {p} == t;
    }
  }

  lemma {:induction false} SizeOfUnion(a: FileTree, b: FileTree)
    requires a.Keys !! b.Keys
    ensures TreeSize(a + b) == TreeSize(a) + TreeSize(b)
    decreases b.Keys
  {
    if b == map[] {
      assert a + b == a;
    } else {
      var p :| p in b;
      var rest := b - {p};
      SizeWithout(b, p);
      SizeOfUnion(a, rest);
      MergeOneMore(a, b, p);
      SizeUpdate(a + rest, p, b[p]);
    }
  }

  lemma MergeOneMore(a: FileTree, b: FileTree, p: Path)
    requires a.Keys !! b.Keys && p in b
    ensures a + b == (a + (b - {p}))[p := b[p]] && p !in a + (b - {p})
  {
  }

  // Directories weigh nothing.
  lemma {:induction false} SizeOfDirs(t: FileTree)
    requires forall p | p in t :: Len(t[p]) == 0
    ensures TreeSize(t) == 0
    decreases |t|
  {
    if t != map[] {
      var p :| p in t;
      SizeWithout(t, p);
      SizeOfDirs(t - {p});
    }
  }
}
