// The scoped file system of crates/guardian/src/fs.rs: one mutable tree, and
// operations that resolve every component by name without following links.
module ScopedFiles {
  import opened Options
  import opened Tree

  /** Whether the environment may fail an operation that is otherwise possible.
      The rollback of a restore is written against operations that work. */
  datatype Trust = MayFail | MustWork

  class ScopedFs {
    var tree: FileTree
    // Whether a metadata lookup of an existing entry can fail.
    const lookupsReliable: bool
    // Whether the environment injects faults at all.
    const faulty: bool
    // Whether a removal is among the operations that can fail.
    const removalsFail: bool
    // The existing entries whose metadata lookup failed, in order.
    ghost var misses: seq<Path>

    ghost predicate Valid()
      reads this
    {
      WellFormed(tree)
    }

    constructor (initial: FileTree, reliable: bool, faults: bool, removalFaults: bool)
      requires WellFormed(initial)
      ensures Valid() && tree == initial && misses == []
      ensures lookupsReliable == reliable && faulty == faults && removalsFail == removalFaults
    {
      tree, lookupsReliable, faulty, removalsFail, misses := initial, reliable, faults, removalFaults, [];
    }

    method Fault(trust: Trust) returns (failed: bool)
      ensures failed ==> trust.MayFail? && faulty
    {
      failed := *;
      failed := failed && trust.MayFail? && faulty;
    }

    // metadata(path).ok()
    method Metadata(path: Path) returns (node: Option<Node>)
      modifies `misses
      ensures node.Some? ==> path in tree && node.value == tree[path]
      ensures node.None? && lookupsReliable ==> path !in tree
      ensures misses == if path in tree && node.None? then old(misses) + [path] else old(misses)
    {
      var failed: bool := *;
      if path in tree && (lookupsReliable || !failed) {
        node := Some(tree[path]);
      } else {
        node := None;
        if path in tree {
          misses := misses + [path];
        }
      }
    }

    method CreateDirAll(path: Path, trust: Trust) returns (ok: bool)
      requires Valid()
      modifies `tree
      ensures Valid() && Grew(old(tree), tree, path)
      ensures ok ==> tree == WithDirs(old(tree), path) && Passable(tree, path)
      ensures ok ==> Passable(old(tree), path)
      ensures Passable(old(tree), path) && (trust.MustWork? || !faulty) ==> ok
    {
      var k := 0;
      while k < |path|
        invariant 0 <= k <= |path|
        invariant Valid() && Grew(old(tree), tree, path[..k])
        invariant forall q | q != [] && IsPrefix(q, path[..k]) :: q in tree && tree[q].Dir?
      {
        var here := path[..k + 1];
        assert Parent(here) == path[..k] && IsPrefix(here, path);
        PrefixStep(here);
        assert IsDir(tree, Parent(here));
        var failed := Fault(trust);
        if failed {
          GrewLonger(old(tree), tree, path[..k], path);
          return false;
        }
        if here !in tree {
          PutIsWellFormed(tree, here, Dir);
          GrewStep(old(tree), tree, here);
          tree := tree[here := Dir];
        } else {
          GrewLonger(old(tree), tree, Parent(here), here);
        }
        // open_dir_nofollow refuses anything that is not a directory
        failed := Fault(trust);
        if failed || !tree[here].Dir? {
          GrewLonger(old(tree), tree, here, path);
          return false;
        }
        k := k + 1;
      }
      assert path[..|path|] == path;
      GrewAllIsWithDirs(old(tree), tree, path);
      ok := true;
    }

    // Create an empty file where no entry exists.
    method CreateNewFile(path: Path) returns (ok: bool)
      requires Valid() && path != []
      modifies `tree
      ensures Valid()
      ensures ok ==> Passable(old(tree), Parent(path)) && path !in old(tree)
      ensures ok ==> tree == WithDirs(old(tree), Parent(path))[path := File([])]
      ensures !ok ==> Grew(old(tree), tree, Parent(path))
                      || (path !in old(tree) && path in tree && tree[path] == File([])
                          && Grew(old(tree), tree - {path}, Parent(path)))
      ensures Passable(old(tree), Parent(path)) && path !in old(tree) && !faulty ==> ok
    {
      PrefixStep(path);
      ok := CreateDirAll(Parent(path), MayFail);
      if !ok || path in tree {
        return false;
      }
      var failed := Fault(MayFail);
      if failed {
        return false;
      }
      ghost var grown := tree;
      tree := tree[path := File([])];
      assert tree - {path} == grown;
      // restricting the permissions comes after the file exists
      failed := Fault(MayFail);
      ok := !failed;
    }

    // write_all: on failure an arbitrary part of the chunk has reached the file.
    method Append(path: Path, chunk: Bytes) returns (ok: bool)
      requires Valid() && path in tree && tree[path].File?
      modifies `tree
      ensures Valid()
      ensures ok ==> tree == old(tree)[path := File(old(tree)[path].content + chunk)]
      ensures !ok ==> exists n :: 0 <= n <= |chunk| && PartAppended(old(tree), tree, path, chunk[..n])
      ensures !faulty ==> ok
    {
      var failed := Fault(MayFail);
      var n := |chunk|;
      if failed {
        n :| 0 <= n <= |chunk|;
      }
      assert chunk[..|chunk|] == chunk;
      tree := tree[path := File(tree[path].content + chunk[..n])];
      assert PartAppended(old(tree), tree, path, chunk[..n]);
      ok := !failed;
    }

    /** rename(2): atomic and by name. A file or link replaces a file or link; a
        directory moves with everything below it, onto a free name or an empty
        directory, and never into itself. */
    method Rename(from: Path, to: Path, trust: Trust) returns (ok: bool)
      requires Valid() && from != [] && to != []
      modifies `tree
      ensures Valid()
      ensures ok ==> Passable(old(tree), Parent(to)) && CanRename(old(tree), from, to)
      ensures ok && IsLeaf(old(tree), from) ==>
                tree == (WithDirs(old(tree), Parent(to)) - {from})[to := old(tree)[from]]
      ensures ok && !IsLeaf(old(tree), from) ==> tree == Moved(WithDirs(old(tree), Parent(to)), from, to)
      ensures !ok ==> Grew(old(tree), tree, Parent(to))
      ensures (Passable(old(tree), Parent(to)) && CanRename(old(tree), from, to) && (trust.MustWork? || !faulty)) ==> ok
    {
      ghost var before := tree;
      PrefixStep(to);
      ok := CreateDirAll(Parent(to), trust);
      RenameAfterGrowth(before, tree, from, to);
      if !ok || !CanRename(tree, from, to) {
        return false;
      }
      var failed := Fault(trust);
      if failed {
        return false;
      }
      assert IsPrefix(Parent(to), Parent(to));
      if tree[from].Dir? {
        MovedIsWellFormed(tree, from, to);
        tree := Moved(tree, from, to);
      } else {
        var node := tree[from];
        assert IsDir(tree, Parent(to));
        DropLeafIsWellFormed(tree, from);
        PutIsWellFormed(tree - {from}, to, node);
        tree := (tree - {from})[to := node];
      }
    }

    method Remove(path: Path, trust: Trust) returns (ok: bool)
      requires Valid() && path != []
      modifies `tree
      ensures Valid()
      ensures ok ==> path in old(tree) && tree == Without(old(tree), path)
      ensures Pruned(old(tree), tree, path)
      ensures path in old(tree) && (trust.MustWork? || !faulty || !removalsFail) ==> ok
    {
      if path !in tree {
        return false;
      }
      var failed := Fault(trust);
      if failed && removalsFail {
        // remove_dir_all can stop half-way
        var rest: FileTree :| WellFormed(rest) && Pruned(tree, rest, path);
        tree := rest;
        return false;
      }
      WithoutIsWellFormed(tree, path);
      tree := Without(tree, path);
      ok := true;
    }
  }

  ghost predicate PartAppended(before: FileTree, after: FileTree, path: Path, part: Bytes) {
    path in before && before[path].File? && after == before[path := File(before[path].content + part)]
  }

  predicate IsEmptyDir(t: FileTree, dir: Path) {
    dir in t && t[dir].Dir? && forall p | p in t && IsPrefix(dir, p) :: p == dir
  }

  // What rename(2) demands of the two names.
  predicate CanRename(t: FileTree, from: Path, to: Path) {
    && from in t
    && (if t[from].Dir? then
          from == to || (!IsPrefix(from, to) && (to !in t || IsEmptyDir(t, to)))
        else
          !IsDir(t, to))
  }

  // The new names of a directory and of everything below it.
  /** A directory moves to a free name or over a directory that is empty, but
      never below itself; anything else moves to any name that is no directory. */
  lemma WhereThingsCanMove(t: FileTree, from: Path, to: Path)
    requires from in t && to != []
    ensures t[from] == Dir && from != to && to !in t ==> (CanRename(t, from, to) <==> !IsPrefix(from, to))
    ensures t[from] == Dir && from != to && to in t ==>
              (CanRename(t, from, to) <==>
               !IsPrefix(from, to) && t[to] == Dir && forall p | p in t && p != to :: !IsPrefix(to, p))
    ensures t[from] != Dir ==> (CanRename(t, from, to) <==> (to in t ==> t[to] != Dir))
    ensures t[from] == Dir && from == to ==> CanRename(t, from, to)
  {
  }

  function NamesBelow(t: FileTree, from: Path, to: Path): set<Path> {
    set p | p in t && IsPrefix(from, p) :: to + p[|from|..]
  }

  // The tree with a directory and everything below it under its new name.
  function Moved(t: FileTree, from: Path, to: Path): FileTree
    requires from in t
  {
    if from == to then t
    else
      Without(t, from)
      + map q | q in NamesBelow(t, from, to) && from + q[|to|..] in t :: t[from + q[|to|..]]
  }

  lemma MovedAt(t: FileTree, from: Path, to: Path, q: Path)
    requires from in t && from != to
    ensures q in Moved(t, from, to) <==>
            (q in t && !IsPrefix(from, q)) || (IsPrefix(to, q) && from + q[|to|..] in t)
    ensures IsPrefix(to, q) && from + q[|to|..] in t ==> Moved(t, from, to)[q] == t[from + q[|to|..]]
    ensures q in t && !IsPrefix(from, q) && !(IsPrefix(to, q) && from + q[|to|..] in t) ==>
              Moved(t, from, to)[q] == t[q]
  {
    if IsPrefix(to, q) {
      var p := from + q[|to|..];
      assert p[|from|..] == q[|to|..] && to + p[|from|..] == q && p[..|from|] == from;
    }
    forall p | p in t && IsPrefix(from, p) && q == to + p[|from|..]
      ensures IsPrefix(to, q) && from + q[|to|..] == p
    {
      assert q[..|to|] == to && q[|to|..] == p[|from|..];
      assert p == p[..|from|] + p[|from|..];
    }
  }

  lemma MovedIsWellFormed(t: FileTree, from: Path, to: Path)
    requires WellFormed(t) && from != [] && to != [] && IsDir(t, Parent(to))
    requires CanRename(t, from, to) && t[from].Dir?
    ensures WellFormed(Moved(t, from, to))
  {
    if from != to {
      var u := Moved(t, from, to);
      forall q | q in u
        ensures q != [] && IsDir(u, Parent(q))
      {
        MovedAt(t, from, to, q);
        assert q != [];
        PrefixStep(q);
        MovedAt(t, from, to, Parent(q));
        if IsPrefix(to, q) && from + q[|to|..] in t {
          MovedParent(t, from, to, q);
        } else {
          assert IsDir(t, Parent(q)) && !IsPrefix(from, Parent(q));
          if Parent(q) != [] && IsPrefix(to, Parent(q)) && from + Parent(q)[|to|..] in t {
            PrefixTransitive(to, Parent(q), q);
            if q != to {
              ProperPrefixIsDir(t, q, to);
            }
          }
        }
      }
    }
  }

  lemma MovedParent(t: FileTree, from: Path, to: Path, q: Path)
    requires WellFormed(t) && from != [] && to != [] && from != to && IsDir(t, Parent(to)) && q != []
    requires CanRename(t, from, to) && t[from].Dir? && IsPrefix(to, q) && from + q[|to|..] in t
    ensures IsDir(Moved(t, from, to), Parent(q))
  {
    var p := from + q[|to|..];
    PrefixStep(q);
    MovedAt(t, from, to, Parent(q));
    if q == to {
      PrefixStep(to);
      assert !IsPrefix(from, Parent(to));
      assert !IsPrefix(to, Parent(to));
    } else {
      assert Parent(p) == from + Parent(q)[|to|..];
      assert Parent(q)[|to|..] != [] ==> Parent(p) in t;
      assert IsDir(t, Parent(p));
    }
  }

  // What was below one name is below the other, and nothing else has changed.
  lemma MovedKeepsContents(t: FileTree, from: Path, to: Path)
    requires WellFormed(t) && from in t && CanRename(t, from, to) && t[from].Dir? && from != to && to != []
    ensures forall q | q in t && !IsPrefix(from, q) && !IsPrefix(to, q) ::
              q in Moved(t, from, to) && Moved(t, from, to)[q] == t[q]
    ensures forall r :: from + r in t <==> to + r in Moved(t, from, to)
    ensures forall r | from + r in t :: Moved(t, from, to)[to + r] == t[from + r]
  {
    forall q | q in t && !IsPrefix(from, q) && !IsPrefix(to, q)
      ensures q in Moved(t, from, to) && Moved(t, from, to)[q] == t[q]
    {
      MovedAt(t, from, to, q);
    }
    forall r
      ensures from + r in t <==> to + r in Moved(t, from, to)
      ensures from + r in t ==> Moved(t, from, to)[to + r] == t[from + r]
    {
      MovedAt(t, from, to, to + r);
      assert (to + r)[|to|..] == r && (to + r)[..|to|] == to;
      if to + r in t && r != [] {
        ProperPrefixIsDir(t, to + r, to);
      }
      assert r == [] ==> from + r == from;
    }
  }

  // Making the directories above `to` does not decide whether the rename is allowed.
  lemma RenameAfterGrowth(before: FileTree, after: FileTree, from: Path, to: Path)
    requires to != [] && WellFormed(before) && WellFormed(after) && Grew(before, after, Parent(to))
    ensures from in before ==> (CanRename(after, from, to) <==> CanRename(before, from, to))
    ensures from !in before ==> !CanRename(after, from, to)
  {
    PrefixStep(to);
    forall q | q in after && q !in before
      ensures !IsPrefix(to, q) && IsPrefix(q, to)
    {
    }
  }

  // The tree without an entry and everything below it.
  function Without(t: FileTree, path: Path): FileTree {
    map p | p in t && !(IsPrefix(path, p)) :: t[p]
  }

  predicate Pruned(before: FileTree, after: FileTree, path: Path) {
    && (forall p | p in after :: p in before && after[p] == before[p])
    && (forall p | p in before && !(IsPrefix(path, p)) :: p in after)
  }

  lemma WithoutIsWellFormed(t: FileTree, path: Path)
    requires WellFormed(t)
    ensures WellFormed(Without(t, path))
  {
  }

  // A file or link has nothing below it, so removing it removes one entry.
  lemma WithoutLeaf(t: FileTree, path: Path)
    requires WellFormed(t) && IsLeaf(t, path) && path != []
    ensures Without(t, path) == t - {path}
  {
    forall p | p in t && IsPrefix(path, p) && p != path
      ensures false
    {
      ProperPrefixIsDir(t, p, path);
    }
  }
}
