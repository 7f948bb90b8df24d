// The order in which a walk lists its files: paths compare component by
// component, and components character by character.
module PathOrder {
  import opened Tree

  predicate NameLess(a: string, b: string) {
    b != "" && (a == "" || a[0] < b[0] || (a[0] == b[0] && NameLess(a[1..], b[1..])))
  }

  predicate PathLess(a: Path, b: Path) {
    b != [] && (a == [] || NameLess(a[0], b[0]) || (a[0] == b[0] && PathLess(a[1..], b[1..])))
  }

  lemma {:induction false} NamesAreOrdered(a: string, b: string)
    ensures !(NameLess(a, b) && NameLess(b, a))
    ensures a == b <==> !NameLess(a, b) && !NameLess(b, a)
  {
    if a != "" && b != "" && a[0] == b[0] {
      NamesAreOrdered(a[1..], b[1..]);
      assert a == [a[0]] + a[1..] && b == [b[0]] + b[1..];
    }
  }

  lemma {:induction false} NameLessIsTransitive(a: string, b: string, c: string)
    requires NameLess(a, b) && NameLess(b, c)
    ensures NameLess(a, c)
  {
    if a != "" && a[0] == b[0] == c[0] {
      NameLessIsTransitive(a[1..], b[1..], c[1..]);
    }
  }

  lemma {:induction false} PathsAreOrdered(a: Path, b: Path)
    ensures !(PathLess(a, b) && PathLess(b, a))
    ensures a == b <==> !PathLess(a, b) && !PathLess(b, a)
  {
    if a != [] && b != [] {
      NamesAreOrdered(a[0], b[0]);
      if a[0] == b[0] {
        PathsAreOrdered(a[1..], b[1..]);
        assert a == [a[0]] + a[1..] && b == [b[0]] + b[1..];
      }
    }
  }

  lemma {:induction false} PathLessIsTransitive(a: Path, b: Path, c: Path)
    requires PathLess(a, b) && PathLess(b, c)
    ensures PathLess(a, c)
  {
    if a != [] {
      NamesAreOrdered(a[0], b[0]);
      NamesAreOrdered(b[0], c[0]);
      if a[0] == b[0] == c[0] {
        PathLessIsTransitive(a[1..], b[1..], c[1..]);
      } else if NameLess(a[0], b[0]) && NameLess(b[0], c[0]) {
        NameLessIsTransitive(a[0], b[0], c[0]);
      }
    }
  }

  ghost predicate Ascending(s: seq<Path>) {
    forall i, j | 0 <= i < j < |s| :: PathLess(s[i], s[j])
  }

  // The library's sort.
  function Insert(p: Path, s: seq<Path>): seq<Path> {
    if s == [] || !PathLess(s[0], p) then [p] + s else [s[0]] + Insert(p, s[1..])
  }

  function Sort(s: seq<Path>): seq<Path> {
    if s == [] then [] else Insert(s[0], Sort(s[1..]))
  }

  lemma {:induction false} InsertAscends(p: Path, s: seq<Path>)
    requires Ascending(s) && p !in s
    ensures Ascending(Insert(p, s))
    ensures forall q :: q in Insert(p, s) <==> q == p || q in s
  {
    if s != [] {
      PathsAreOrdered(s[0], p);
      assert s == [s[0]] + s[1..];
      if PathLess(s[0], p) {
        InsertAscends(p, s[1..]);
        assert forall q | q in Insert(p, s[1..]) :: PathLess(s[0], q);
      } else {
        forall j | 0 < j < |s|
          ensures PathLess(p, s[j])
        {
          PathLessIsTransitive(p, s[0], s[j]);
        }
      }
    }
  }

  lemma {:induction false} SortAscends(s: seq<Path>)
    requires forall i, j | 0 <= i < j < |s| :: s[i] != s[j]
    ensures Ascending(Sort(s))
    ensures forall q :: q in Sort(s) <==> q in s
  {
    if s != [] {
      SortAscends(s[1..]);
      assert s == [s[0]] + s[1..];
      assert s[0] !in s[1..];
      InsertAscends(s[0], Sort(s[1..]));
    }
  }

  lemma AscendingIsDistinct(s: seq<Path>)
    requires Ascending(s)
    ensures forall i, j | 0 <= i < j < |s| :: s[i] != s[j]
  {
    forall i, j | 0 <= i < j < |s|
      ensures s[i] != s[j]
    {
      PathsAreOrdered(s[i], s[j]);
    }
  }

  /** There is one way to list a set of paths in order. */
  lemma {:induction false} AscendingIsUnique(a: seq<Path>, b: seq<Path>)
    requires Ascending(a) && Ascending(b) && (forall p :: p in a <==> p in b)
    ensures a == b
  {
    if b != [] {
      assert b[0] in b;
    }
    if a != [] {
      assert a[0] in a && b != [] && b[0] in b;
      FirstIsSmallest(a, b[0]);
      FirstIsSmallest(b, a[0]);
      PathsAreOrdered(a[0], b[0]);
      assert a[0] == b[0];
      AscendingIsDistinct(a);
      AscendingIsDistinct(b);
      assert a == [a[0]] + a[1..] && b == [b[0]] + b[1..];
      assert a[0] !in a[1..] && b[0] !in b[1..];
      forall p
        ensures p in a[1..] <==> p in b[1..]
      {
        assert p in a[1..] <==> p in a && p != a[0];
        assert p in b[1..] <==> p in b && p != b[0];
      }
      AscendingIsUnique(a[1..], b[1..]);
    }
  }

  lemma FirstIsSmallest(s: seq<Path>, p: Path)
    requires Ascending(s) && p in s
    ensures p == s[0] || PathLess(s[0], p)
  {
    var i :| 0 <= i < |s| && s[i] == p;
  }
}
