// What an archive's member name leads to, read the way a file system reads it,
// and which names crates/guardian/src/backup.rs accepts.
module MemberNames {
  import opened Options
  import opened Tree
  import opened Archive

  // `..` stands at position i, between separators or the ends of the name.
  predicate DotDotAt(raw: string, i: nat) {
    && i + 2 <= |raw| && raw[i] == '.' && raw[i + 1] == '.'
    && (i == 0 || raw[i - 1] == '/')
    && (i + 2 == |raw| || raw[i + 2] == '/')
  }

  // From `at`, one component after the other: `..` goes up, and above the
  // destination there is nothing.
  function Walk(at: Path, parts: seq<string>): Option<Path>
    decreases |parts|
  {
    if parts == [] then Some(at)
    else if parts[0] == "" || parts[0] == "." then Walk(at, parts[1..])
    else if parts[0] == ".." then (if at == [] then None else Walk(Parent(at), parts[1..]))
    else Walk(at + [parts[0]], parts[1..])
  }

  /** Where a name leads, seen from the destination: nowhere below it if the name
      starts at the root or climbs out. */
  function LeadsTo(raw: string): Option<Path> {
    if raw != "" && raw[0] == '/' then None else Walk([], SplitSlash(raw))
  }

  // The slash that ends the first component, or the end of the name.
  function FirstSlash(raw: string): (k: nat)
    ensures k <= |raw| && '/' !in raw[..k] && (k < |raw| ==> raw[k] == '/')
  {
    if raw == "" || raw[0] == '/' then
      0
    else
      var k := FirstSlash(raw[1..]);
      assert raw[..k + 1] == [raw[0]] + raw[1..][..k];
      k + 1
  }

  // Where `..` can stand, seen from the first separator.
  lemma DotDotAround(raw: string, k: nat, i: nat)
    requires k < |raw| && raw[k] == '/' && '/' !in raw[..k]
    ensures DotDotAt(raw, i) <==> (i == 0 && raw[..k] == "..") || (i > k && DotDotAt(raw[k + 1..], i - k - 1))
  {
    assert forall j | 0 <= j < k :: raw[..k][j] == raw[j];
    var rest := raw[k + 1..];
    assert forall j | 0 <= j < |rest| :: rest[j] == raw[k + 1 + j];
    if raw[..k] == ".." {
      assert raw[0] == raw[..k][0] && raw[1] == raw[..k][1];
    }
  }

  lemma DotDotAlone(raw: string)
    requires '/' !in raw
    ensures raw == ".." <==> exists i :: DotDotAt(raw, i)
  {
    assert raw == ".." ==> DotDotAt(raw, 0);
  }

  lemma DotDotSomewhere(raw: string, k: nat, rest: string)
    requires k < |raw| && raw[k] == '/' && '/' !in raw[..k] && rest == raw[k + 1..]
    ensures (exists i :: DotDotAt(raw, i)) <==> raw[..k] == ".." || exists i :: DotDotAt(rest, i)
  {
    DotDotAround(raw, k, 0);
    if i: nat :| DotDotAt(raw, i) {
      DotDotAround(raw, k, i);
    }
    if i: nat :| DotDotAt(rest, i) {
      DotDotAround(raw, k, i + k + 1);
    }
  }

  lemma {:induction false} DotDotIsAComponent(raw: string)
    ensures ".." in SplitSlash(raw) <==> exists i :: DotDotAt(raw, i)
    decreases |raw|
  {
    var k := FirstSlash(raw);
    if k == |raw| {
      assert raw[..k] == raw;
      SplitNoSlash(raw);
      DotDotAlone(raw);
    } else {
      assert raw == raw[..k] + ("/" + raw[k + 1..]);
      SplitAtFirst(raw[..k], raw[k + 1..]);
      DotDotIsAComponent(raw[k + 1..]);
      DotDotSomewhere(raw, k, raw[k + 1..]);
    }
  }

  lemma {:induction false} WalkingDown(at: Path, parts: seq<string>)
    requires ".." !in parts
    ensures Walk(at, parts) == Some(at + Named(parts))
    decreases |parts|
  {
    if parts == [] {
      assert at + [] == at;
    } else if parts[0] == "" || parts[0] == "." {
      WalkingDown(at, parts[1..]);
    } else {
      WalkingDown(at + [parts[0]], parts[1..]);
      assert at + [parts[0]] + Named(parts[1..]) == at + ([parts[0]] + Named(parts[1..]));
    }
  }

  lemma DownwardNames(raw: string)
    requires ".." !in SplitSlash(raw)
    ensures Normalise(raw) == Named(SplitSlash(raw))
  {
  }

  /** An archive none of whose members is absolute, climbs, or is written for
      another platform, and each of which is put where its name leads. */
  ghost predicate StaysBelow(es: seq<Entry>) {
    && (forall e | e in es :: (e.raw != "" ==> e.raw[0] != '/') && '\\' !in e.raw)
    && (forall e, i | e in es :: !DotDotAt(e.raw, i))
    && (forall e | e in es :: LeadsTo(e.raw) == Some(Target(e)))
  }

  lemma AcceptedArchive(es: seq<Entry>)
    requires forall e | e in es :: SafeMember(e.raw)
    ensures StaysBelow(es)
  {
    forall e | e in es
      ensures (forall i :: !DotDotAt(e.raw, i)) && LeadsTo(e.raw) == Some(Target(e))
    {
      AcceptedNames(e.raw);
    }
  }

  /** An accepted name leads to exactly the path it is normalised to, and a name
      is accepted exactly when it leads below the destination without ever going
      up, and holds no backslash and no drive letter. */
  lemma AcceptedNames(raw: string)
    ensures SafeMember(raw) ==> LeadsTo(raw) == Some(Normalise(raw))
    ensures SafeMember(raw) <==>
            && LeadsTo(raw).Some? && (forall i :: !DotDotAt(raw, i)) && '\\' !in raw
            && !(|raw| >= 2 && raw[1] == ':' && ('a' <= raw[0] <= 'z' || 'A' <= raw[0] <= 'Z'))
  {
    DotDotIsAComponent(raw);
    if ".." !in SplitSlash(raw) {
      WalkingDown([], SplitSlash(raw));
      assert [] + Named(SplitSlash(raw)) == Named(SplitSlash(raw));
      DownwardNames(raw);
    }
  }

  lemma {:induction false} SplitBeforeSlash(s: string)
    ensures SplitSlash(s + "/") == SplitSlash(s) + [""]
  {
    if s != "" {
      SplitBeforeSlash(s[1..]);
      assert (s + "/")[1..] == s[1..] + "/";
    }
  }

  lemma {:induction false} NamedBeforeEmpty(parts: seq<string>)
    ensures Named(parts + [""]) == Named(parts)
  {
    if parts != [] {
      NamedBeforeEmpty(parts[1..]);
      assert (parts + [""])[1..] == parts[1..] + [""];
    }
  }

  lemma SplitOfSpellings(p: Path)
    requires p != [] && ProperPath(p)
    ensures SplitSlash("./" + JoinSlash(p)) == ["."] + p
    ensures SplitSlash(JoinSlash(p) + "/") == p + [""]
  {
    SplitOfJoin(p);
    assert "./" + JoinSlash(p) == "." + ("/" + JoinSlash(p));
    SplitAtFirst(".", JoinSlash(p));
    SplitBeforeSlash(JoinSlash(p));
  }

  lemma NamedOfSpellings(p: Path)
    requires ProperPath(p)
    ensures Named(["."] + p) == p && Named(p + [""]) == p
    ensures ".." !in ["."] + p && ".." !in p + [""]
  {
    NamedOfProper(p);
    NamedBeforeEmpty(p);
    assert (["."] + p)[1..] == p;
  }

  lemma FirstOfJoin(p: Path)
    requires p != [] && ProperPath(p)
    ensures JoinSlash(p) != "" && JoinSlash(p)[0] != '/'
    ensures ".." !in p
  {
    assert ProperName(p[0]) && JoinSlash(p)[0] == p[0][0];
  }

  /** The other spellings of a path that archivers use, `./p` and `p/`, lead to
      it as well; a leading `./` even hides a drive letter. */
  lemma OtherSpellings(p: Path)
    requires p != [] && ProperPath(p)
    ensures Normalise("./" + JoinSlash(p)) == p && Normalise(JoinSlash(p) + "/") == p
    ensures SafeMember("./" + JoinSlash(p)) <==> '\\' !in JoinSlash(p)
    ensures SafeMember(JoinSlash(p) + "/") <==> SafeMember(JoinSlash(p))
  {
    SplitOfJoin(p);
    SplitOfSpellings(p);
    NamedOfSpellings(p);
    FirstOfJoin(p);
  }
}
