// directory_size_from of crates/guardian/src/fs.rs: a recursive walk that adds
// up regular files, skips links, and saturates at 64 bits.
module DirectorySizes {
  import opened Options
  import opened Tree
  import opened ScopedFiles

  function Saturated(n: nat): u64 {
    if n > U64_MAX then U64_MAX else n
  }

  function SaturatingAdd(a: u64, b: u64): u64 {
    Saturated(a + b)
  }

  // Everything strictly below a directory.
  ghost function Below(t: FileTree, dir: Path): FileTree {
    map p | p in t && IsPrefix(dir, p) && p != dir :: t[p]
  }

  function Children(t: FileTree, dir: Path): set<Path> {
    set p | p in t && |p| == |dir| + 1 && IsPrefix(dir, p)
  }

  // The entries at or below one of the given children.
  ghost function UnderAny(t: FileTree, kids: set<Path>, depth: nat): FileTree {
    map p | p in t && depth < |p| && p[..depth + 1] in kids :: t[p]
  }

  lemma UnderOneMore(t: FileTree, dir: Path, kids: set<Path>, k: Path)
    requires WellFormed(t) && k in Children(t, dir) && k !in kids
    ensures TreeSize(UnderAny(t, kids + {k}, |dir|))
            == TreeSize(UnderAny(t, kids, |dir|)) + Len(t[k]) + TreeSize(Below(t, k))
  {
    var a, b := UnderAny(t, kids, |dir|), Below(t, k);
    assert k !in b;
    var c := b[k := t[k]];
    SizeUpdate(b, k, t[k]);
    SplitOneMore(t, dir, kids, k, c);
    SizeOfUnion(a, c);
  }

  lemma SplitOneMore(t: FileTree, dir: Path, kids: set<Path>, k: Path, c: FileTree)
    requires k in t && |k| == |dir| + 1 && k !in kids && c == Below(t, k)[k := t[k]]
    ensures UnderAny(t, kids, |dir|).Keys !! c.Keys
    ensures UnderAny(t, kids + {k}, |dir|) == UnderAny(t, kids, |dir|) + c
  {
    var a, u := UnderAny(t, kids, |dir|), UnderAny(t, kids + {k}, |dir|);
    assert k[..|dir| + 1] == k;
    forall p | p in t
      ensures p in c <==> |dir| < |p| && p[..|dir| + 1] == k
    {
    }
    assert forall p | p in a :: p !in c;
    assert forall p | p in u :: p in a || p in c;
    assert forall p | p in a + c :: p in u && u[p] == (a + c)[p];
  }

  lemma UnderAllIsBelow(t: FileTree, dir: Path)
    requires WellFormed(t)
    ensures UnderAny(t, Children(t, dir), |dir|) == Below(t, dir)
  {
    forall p | p in t
      ensures (IsPrefix(dir, p) && p != dir) <==> (|dir| < |p| && p[..|dir| + 1] in Children(t, dir))
    {
      if |dir| < |p| {
        var k := p[..|dir| + 1];
        assert k[..|dir|] == p[..|dir|];
        if IsPrefix(dir, p) {
          if k != p {
            assert IsPrefix(k, p);
            ProperPrefixIsDir(t, p, k);
          }
          assert k in Children(t, dir);
        }
      }
    }
  }

  lemma ChildIsBelow(t: FileTree, dir: Path, k: Path)
    requires k in Children(t, dir)
    ensures Below(t, k).Keys < Below(t, dir).Keys
  {
    assert k in Below(t, dir) && k !in Below(t, k);
    forall p | p in Below(t, k)
      ensures p in Below(t, dir)
    {
      PrefixTransitive(dir, k, p);
    }
  }

  lemma NothingBelowLeaf(t: FileTree, k: Path)
    requires WellFormed(t) && IsLeaf(t, k) && k != []
    ensures Below(t, k) == map[]
  {
    forall p | p in Below(t, k)
      ensures false
    {
      ProperPrefixIsDir(t, p, k);
    }
  }

  /** The recursive walk computes the flat sum over the whole subtree. */
  method DirectorySizeFrom(fs: ScopedFs, dir: Path) returns (size: Option<u64>)
    requires fs.Valid()
    ensures size.Some? ==> size.value == Saturated(TreeSize(Below(fs.tree, dir)))
    ensures !fs.faulty ==> size.Some?
    decreases Below(fs.tree, dir).Keys
  {
    var total: u64 := 0;
    var todo := Children(fs.tree, dir);
    ghost var done: set<Path> := {};
    assert UnderAny(fs.tree, {}, |dir|) == map[];
    while todo != {}
      invariant done + todo == Children(fs.tree, dir) && done !! todo
      invariant total == Saturated(TreeSize(UnderAny(fs.tree, done, |dir|)))
      decreases todo
    {
      var failed := fs.Fault(MayFail);
      if failed {
        return None;
      }
      var k :| k in todo;
      UnderOneMore(fs.tree, dir, done, k);
      ChildIsBelow(fs.tree, dir, k);
      match fs.tree[k] {
        case Link(_) =>
          NothingBelowLeaf(fs.tree, k);
        case Dir =>
          var inner := DirectorySizeFrom(fs, k);
          if inner.None? {
            return None;
          }
          total := SaturatingAdd(total, inner.value);
        case File(content) =>
          NothingBelowLeaf(fs.tree, k);
          total := SaturatingAdd(total, Saturated(|content|));
      }
      todo := todo - {k};
      done := done + {k};
    }
    assert done == Children(fs.tree, dir);
    UnderAllIsBelow(fs.tree, dir);
    size := Some(total);
  }

  // directory_size(".")
  method DirectorySize(fs: ScopedFs) returns (size: Option<u64>)
    requires fs.Valid()
    ensures size.Some? ==> size.value == Saturated(TreeSize(fs.tree))
    ensures !fs.faulty ==> size.Some?
  {
    size := DirectorySizeFrom(fs, []);
    assert Below(fs.tree, []) == fs.tree;
  }
}
