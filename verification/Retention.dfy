// The retention planner of src/backups/retention.rs.
module Retention {
  import opened Options

  /** A stored backup: `createdAt` is the sort key of its timestamp text, and
      `age` its age in seconds when that text is a readable timestamp. */
  datatype Backup = Backup(id: int, createdAt: int, age: Option<int>)

  datatype Policy = Policy(maxBackups: nat, maxAgeDays: Option<nat>)

  const SECONDS_PER_DAY := 86_400

  predicate IsOlderThan(b: Backup, maxDays: nat) {
    b.age.Some? && b.age.value > maxDays * SECONDS_PER_DAY
  }

  predicate Expired(b: Backup, policy: Policy) {
    policy.maxAgeDays.Some? && IsOlderThan(b, policy.maxAgeDays.value)
  }

  /* ----- the library's stable sort, newest first ----- */

  function Insert(b: Backup, s: seq<Backup>): seq<Backup> {
    if s == [] || s[0].createdAt <= b.createdAt then [b] + s else [s[0]] + Insert(b, s[1..])
  }

  function NewestFirst(s: seq<Backup>): seq<Backup> {
    if s == [] then [] else Insert(s[0], NewestFirst(s[1..]))
  }

  ghost predicate Descending(s: seq<Backup>) {
    forall i, j | 0 <= i < j < |s| :: s[i].createdAt >= s[j].createdAt
  }

  ghost predicate DistinctIds(s: seq<Backup>) {
    forall i, j | 0 <= i < j < |s| :: s[i].id != s[j].id
  }

  function Filter(keep: Backup -> bool, s: seq<Backup>): seq<Backup> {
    if s == [] then []
    else if keep(s[0]) then [s[0]] + Filter(keep, s[1..])
    else Filter(keep, s[1..])
  }

  lemma {:induction false} FilterElements(keep: Backup -> bool, s: seq<Backup>)
    ensures forall b :: b in Filter(keep, s) <==> b in s && keep(b)
  {
    if s != [] {
      FilterElements(keep, s[1..]);
      assert s == [s[0]] + s[1..];
    }
  }

  /* ----- the strictly increasing list of ids ----- */

  function InsertId(id: int, s: seq<int>): seq<int> {
    if s == [] || id < s[0] then [id] + s
    else if id == s[0] then s
    else [s[0]] + InsertId(id, s[1..])
  }

  function SortDedup(s: seq<int>): seq<int> {
    if s == [] then [] else InsertId(s[0], SortDedup(s[1..]))
  }

  ghost predicate Increasing(s: seq<int>) {
    forall i, j | 0 <= i < j < |s| :: s[i] < s[j]
  }

  lemma {:induction false} InsertIdKeeps(id: int, s: seq<int>)
    requires Increasing(s)
    ensures Increasing(InsertId(id, s))
    ensures forall x :: x in InsertId(id, s) <==> x == id || x in s
  {
    if s != [] && id > s[0] {
      InsertIdKeeps(id, s[1..]);
      assert s == [s[0]] + s[1..];
      var rest := InsertId(id, s[1..]);
      forall j | 0 <= j < |rest|
        ensures s[0] < rest[j]
      {
        assert rest[j] in rest;
      }
    }
  }

  lemma {:induction false} SortDedupKeeps(s: seq<int>)
    ensures Increasing(SortDedup(s))
    ensures forall x :: x in SortDedup(s) <==> x in s
  {
    if s != [] {
      SortDedupKeeps(s[1..]);
      InsertIdKeeps(s[0], SortDedup(s[1..]));
      assert s == [s[0]] + s[1..];
    }
  }

  /* ----- the plan ----- */

  predicate Survives(b: Backup, policy: Policy, newId: int) {
    b.id == newId || !Expired(b, policy)
  }

  // What the age rule leaves, newest first.
  function Survivors(backups: seq<Backup>, policy: Policy, newId: int): seq<Backup> {
    Filter((b: Backup) => Survives(b, policy, newId), NewestFirst(backups))
  }

  // Beyond the first maxBackups survivors, everything but the new backup goes.
  predicate BeyondLimit(survivors: seq<Backup>, maxBackups: nat, newId: int, id: int) {
    id != newId && exists i :: maxBackups <= i < |survivors| && survivors[i].id == id
  }

  /** Which ids the planner selects for deletion. */
  ghost predicate Selected(backups: seq<Backup>, policy: Policy, newId: int, id: int) {
    || (id != newId && exists b :: b in backups && b.id == id && Expired(b, policy))
    || BeyondLimit(Survivors(backups, policy, newId), policy.maxBackups, newId, id)
  }

  // Protect the new backup, drop what is too old, keep the rest in order.
  method ApplyAgeRule(sorted: seq<Backup>, policy: Policy, newId: int)
    returns (remaining: seq<Backup>, toDelete: seq<int>)
    ensures remaining == Filter((b: Backup) => Survives(b, policy, newId), sorted)
    ensures forall id :: id in toDelete <==>
              id != newId && exists b :: b in sorted && b.id == id && Expired(b, policy)
  {
    remaining, toDelete := [], [];
    for i := 0 to |sorted|
      invariant remaining == Filter((b: Backup) => Survives(b, policy, newId), sorted[..i])
      invariant forall id :: id in toDelete <==>
                  id != newId && exists b :: b in sorted[..i] && b.id == id && Expired(b, policy)
    {
      var b := sorted[i];
      assert sorted[..i + 1] == sorted[..i] + [b];
      FilterAppend((b: Backup) => Survives(b, policy, newId), sorted[..i], [b]);
      if b.id == newId {
        remaining := remaining + [b];
      } else if Expired(b, policy) {
        toDelete := toDelete + [b.id];
      } else {
        remaining := remaining + [b];
      }
    }
    assert sorted[..|sorted|] == sorted;
  }

  // Keep the first maxBackups, and the new backup wherever it is.
  method ApplyLimit(remaining: seq<Backup>, policy: Policy, newId: int) returns (toDelete: seq<int>)
    ensures forall id :: id in toDelete <==> BeyondLimit(remaining, policy.maxBackups, newId, id)
  {
    toDelete := [];
    if |remaining| > policy.maxBackups {
      for i := policy.maxBackups to |remaining|
        invariant forall id :: id in toDelete <==>
                    id != newId && exists j :: policy.maxBackups <= j < i && remaining[j].id == id
      {
        if remaining[i].id == newId {
          continue;
        }
        toDelete := toDelete + [remaining[i].id];
      }
    }
  }

  /** A backup of that id is older than so many days of 24 hours; one that is
      exactly that old, or whose timestamp cannot be read, is not. */
  predicate HasOldBackup(backups: seq<Backup>, maxAgeDays: Option<nat>, id: int) {
    exists b :: b in backups && b.id == id && maxAgeDays.Some? && b.age.Some?
                && b.age.value > maxAgeDays.value * 24 * 60 * 60
  }

  /** plan_retention: exactly what is selected, in order, each once. Whatever is
      too old goes, but for the new backup; and nothing else does while there are
      no more backups than the limit allows. */
  method PlanRetention(backups: seq<Backup>, policy: Policy, newId: int) returns (toDelete: seq<int>)
    ensures Increasing(toDelete)
    ensures forall id :: id in toDelete <==> Selected(backups, policy, newId, id)
    ensures forall id :: HasOldBackup(backups, policy.maxAgeDays, id) && id != newId ==> id in toDelete
    ensures |backups| <= policy.maxBackups ==>
              forall id :: id in toDelete ==> HasOldBackup(backups, policy.maxAgeDays, id) && id != newId
  {
    toDelete := SelectBackups(backups, policy, newId);
    forall id
      ensures HasOldBackup(backups, policy.maxAgeDays, id) && id != newId ==> Selected(backups, policy, newId, id)
      ensures |backups| <= policy.maxBackups && Selected(backups, policy, newId, id) ==>
                HasOldBackup(backups, policy.maxAgeDays, id) && id != newId
    {
      WhatTheAgeRuleSelects(backups, policy, newId, id);
    }
  }

  method SelectBackups(backups: seq<Backup>, policy: Policy, newId: int) returns (toDelete: seq<int>)
    ensures Increasing(toDelete)
    ensures forall id :: id in toDelete <==> Selected(backups, policy, newId, id)
  {
    if backups == [] {
      return [];
    }
    var sorted := NewestFirst(backups);
    SortIsPermutation(backups);
    var remaining, expired := ApplyAgeRule(sorted, policy, newId);
    SortDescends(backups);
    FilterDescends((b: Backup) => Survives(b, policy, newId), sorted);
    SortSorted(remaining);
    remaining := NewestFirst(remaining);
    var beyond := ApplyLimit(remaining, policy, newId);
    toDelete := expired + beyond;
    SortDedupKeeps(toDelete);
    toDelete := SortDedup(toDelete);
  }

  /* ----- laws of the sort and of the filter ----- */

  lemma {:induction false} InsertIsPermutation(b: Backup, s: seq<Backup>)
    ensures multiset(Insert(b, s)) == multiset(s) + multiset{b}
  {
    if s != [] && s[0].createdAt > b.createdAt {
      InsertIsPermutation(b, s[1..]);
      assert s == [s[0]] + s[1..];
    }
  }

  lemma {:induction false} SortIsPermutation(s: seq<Backup>)
    ensures multiset(NewestFirst(s)) == multiset(s)
    ensures forall b :: b in NewestFirst(s) <==> b in s
  {
    if s != [] {
      SortIsPermutation(s[1..]);
      InsertIsPermutation(s[0], NewestFirst(s[1..]));
      assert s == [s[0]] + s[1..];
    }
    forall b
      ensures b in NewestFirst(s) <==> b in s
    {
      assert b in NewestFirst(s) <==> b in multiset(NewestFirst(s));
      assert b in s <==> b in multiset(s);
    }
  }

  lemma {:induction false} InsertDescends(b: Backup, s: seq<Backup>)
    requires Descending(s)
    ensures Descending(Insert(b, s))
    ensures forall c :: c in Insert(b, s) <==> c == b || c in s
  {
    if s != [] && s[0].createdAt > b.createdAt {
      InsertDescends(b, s[1..]);
      assert s == [s[0]] + s[1..];
      assert forall c | c in Insert(b, s[1..]) :: s[0].createdAt >= c.createdAt;
    }
  }

  lemma {:induction false} SortDescends(s: seq<Backup>)
    ensures Descending(NewestFirst(s))
  {
    if s != [] {
      SortDescends(s[1..]);
      InsertDescends(s[0], NewestFirst(s[1..]));
    }
  }

  lemma {:induction false} SortSorted(s: seq<Backup>)
    requires Descending(s)
    ensures NewestFirst(s) == s
  {
    if s != [] {
      SortSorted(s[1..]);
    }
  }

  lemma {:induction false} FilterAppend(keep: Backup -> bool, s: seq<Backup>, t: seq<Backup>)
    ensures Filter(keep, s + t) == Filter(keep, s) + Filter(keep, t)
  {
    if s == [] {
      assert s + t == t;
    } else {
      FilterAppend(keep, s[1..], t);
      assert (s + t)[1..] == s[1..] + t && (s + t)[0] == s[0];
    }
  }

  lemma {:induction false} FilterDescends(keep: Backup -> bool, s: seq<Backup>)
    requires Descending(s)
    ensures Descending(Filter(keep, s))
  {
    if s != [] {
      FilterDescends(keep, s[1..]);
      FilterElements(keep, s[1..]);
      assert forall c | c in Filter(keep, s[1..]) :: c in s[1..] && s[0].createdAt >= c.createdAt;
    }
  }

  lemma {:induction false} FilterDistinct(keep: Backup -> bool, s: seq<Backup>)
    requires DistinctIds(s)
    ensures DistinctIds(Filter(keep, s))
  {
    if s != [] {
      FilterDistinct(keep, s[1..]);
      FilterElements(keep, s[1..]);
      assert forall b | b in s[1..] :: b.id != s[0].id;
      assert forall b | b in Filter(keep, s[1..]) :: b.id != s[0].id;
    }
  }

  lemma {:induction false} InsertDistinct(b: Backup, s: seq<Backup>)
    requires DistinctIds(s) && (forall c | c in s :: c.id != b.id)
    ensures DistinctIds(Insert(b, s))
    ensures forall c :: c in Insert(b, s) <==> c == b || c in s
  {
    if s != [] && s[0].createdAt > b.createdAt {
      InsertDistinct(b, s[1..]);
      assert s == [s[0]] + s[1..];
      assert forall c | c in s[1..] :: c.id != s[0].id;
    }
  }

  lemma {:induction false} SortDistinct(s: seq<Backup>)
    requires DistinctIds(s)
    ensures DistinctIds(NewestFirst(s))
  {
    if s != [] {
      SortDistinct(s[1..]);
      SortIsPermutation(s[1..]);
      assert forall c | c in s[1..] :: c.id != s[0].id;
      InsertDistinct(s[0], NewestFirst(s[1..]));
    }
  }

  lemma {:induction false} FilterOfInsert(keep: Backup -> bool, b: Backup, s: seq<Backup>)
    requires Descending(s)
    ensures Filter(keep, Insert(b, s)) == if keep(b) then Insert(b, Filter(keep, s)) else Filter(keep, s)
  {
    if s == [] || s[0].createdAt <= b.createdAt {
      var f := Filter(keep, s);
      FilterElements(keep, s);
      assert ([b] + s)[1..] == s;
      assert f != [] ==> f[0] in s;
    } else {
      FilterOfInsert(keep, b, s[1..]);
      assert ([s[0]] + Insert(b, s[1..]))[1..] == Insert(b, s[1..]);
    }
  }

  // Stability: sorting commutes with filtering.
  lemma {:induction false} SortOfFilter(keep: Backup -> bool, s: seq<Backup>)
    ensures NewestFirst(Filter(keep, s)) == Filter(keep, NewestFirst(s))
  {
    if s != [] {
      SortOfFilter(keep, s[1..]);
      SortDescends(s[1..]);
      FilterOfInsert(keep, s[0], NewestFirst(s[1..]));
      if keep(s[0]) {
        assert Filter(keep, s)[1..] == Filter(keep, s[1..]);
      }
    }
  }

  lemma {:induction false} FilterAll(keep: Backup -> bool, s: seq<Backup>)
    requires forall b | b in s :: keep(b)
    ensures Filter(keep, s) == s
  {
    if s != [] {
      FilterAll(keep, s[1..]);
    }
  }

  lemma {:induction false} FilterNone(keep: Backup -> bool, s: seq<Backup>)
    requires forall b | b in s :: !keep(b)
    ensures Filter(keep, s) == []
  {
    if s != [] {
      FilterNone(keep, s[1..]);
    }
  }

  lemma {:induction false} FilterTwice(a: Backup -> bool, b: Backup -> bool, s: seq<Backup>)
    requires forall x | x in s && b(x) :: a(x)
    ensures Filter(b, Filter(a, s)) == Filter(b, s)
    ensures Filter(a, Filter(b, s)) == Filter(b, s)
  {
    if s != [] {
      FilterTwice(a, b, s[1..]);
      assert s == [s[0]] + s[1..];
    }
  }

  lemma {:induction false} FilterAgree(a: Backup -> bool, b: Backup -> bool, s: seq<Backup>)
    requires forall x | x in s :: a(x) == b(x)
    ensures Filter(a, s) == Filter(b, s)
  {
    if s != [] {
      FilterAgree(a, b, s[1..]);
      assert s == [s[0]] + s[1..];
    }
  }

  /* ----- laws of the plan ----- */

  // What is left once the selected backups are gone.
  ghost function Kept(backups: seq<Backup>, policy: Policy, newId: int): seq<Backup> {
    Filter((b: Backup) => !Selected(backups, policy, newId, b.id), backups)
  }

  lemma NewIsNeverSelected(backups: seq<Backup>, policy: Policy, newId: int)
    ensures !Selected(backups, policy, newId, newId)
  {
  }

  // With distinct ids, a survivor is selected exactly when it is beyond the limit.
  lemma SelectedSurvivor(backups: seq<Backup>, policy: Policy, newId: int, i: nat)
    requires DistinctIds(backups) && i < |Survivors(backups, policy, newId)|
    ensures var v := Survivors(backups, policy, newId);
            Selected(backups, policy, newId, v[i].id) <==> i >= policy.maxBackups && v[i].id != newId
  {
    var v := Survivors(backups, policy, newId);
    SortIsPermutation(backups);
    SortDistinct(backups);
    FilterDistinct((b: Backup) => Survives(b, policy, newId), NewestFirst(backups));
    FilterElements((b: Backup) => Survives(b, policy, newId), NewestFirst(backups));
    assert v[i] in v;
    forall b | b in backups && b.id == v[i].id
      ensures b == v[i]
    {
      SameId(backups, b, v[i]);
    }
  }

  lemma SameId(s: seq<Backup>, a: Backup, b: Backup)
    requires DistinctIds(s) && a in s && b in s && a.id == b.id
    ensures a == b
  {
  }

  // Up to the limit every survivor is kept; beyond it only the new backup is.
  lemma KeptSurvivors(backups: seq<Backup>, policy: Policy, newId: int, m: nat)
    requires DistinctIds(backups)
    requires var v := Survivors(backups, policy, newId);
             m == if policy.maxBackups <= |v| then policy.maxBackups else |v|
    ensures forall b | b in Survivors(backups, policy, newId)[..m] :: !Selected(backups, policy, newId, b.id)
    ensures forall b | b in Survivors(backups, policy, newId)[m..] ::
              !Selected(backups, policy, newId, b.id) <==> b.id == newId
  {
    var v := Survivors(backups, policy, newId);
    forall b | b in v[..m]
      ensures !Selected(backups, policy, newId, b.id)
    {
      var i :| 0 <= i < m && v[i] == b;
      SelectedSurvivor(backups, policy, newId, i);
    }
    forall b | b in v[m..]
      ensures !Selected(backups, policy, newId, b.id) <==> b.id == newId
    {
      var i :| 0 <= i < |v[m..]| && v[m..][i] == b;
      assert v[m + i] == b;
      SelectedSurvivor(backups, policy, newId, m + i);
    }
  }

  lemma KeptInOrder(backups: seq<Backup>, policy: Policy, newId: int)
    ensures NewestFirst(Kept(backups, policy, newId))
            == Filter((b: Backup) => !Selected(backups, policy, newId, b.id), Survivors(backups, policy, newId))
  {
    var keep := (b: Backup) => !Selected(backups, policy, newId, b.id);
    SortOfFilter(keep, backups);
    SortIsPermutation(backups);
    FilterTwice((b: Backup) => Survives(b, policy, newId), keep, NewestFirst(backups));
  }

  // Everything kept survived the age rule, and it is the survivors up to the
  // limit, plus the new backup when it sorts beyond it.
  lemma KeptNewestFirst(backups: seq<Backup>, policy: Policy, newId: int)
    requires DistinctIds(backups)
    ensures var v := Survivors(backups, policy, newId);
            var m := if policy.maxBackups <= |v| then policy.maxBackups else |v|;
            NewestFirst(Kept(backups, policy, newId)) == v[..m] + Filter((b: Backup) => b.id == newId, v[m..])
  {
    var v := Survivors(backups, policy, newId);
    var m := if policy.maxBackups <= |v| then policy.maxBackups else |v|;
    var keep := (b: Backup) => !Selected(backups, policy, newId, b.id);
    KeptInOrder(backups, policy, newId);
    KeptSurvivors(backups, policy, newId, m);
    assert v == v[..m] + v[m..];
    FilterAppend(keep, v[..m], v[m..]);
    FilterAll(keep, v[..m]);
    FilterAgree(keep, (b: Backup) => b.id == newId, v[m..]);
  }

  lemma {:induction false} AtMostOneNew(s: seq<Backup>, newId: int)
    requires DistinctIds(s)
    ensures |Filter((b: Backup) => b.id == newId, s)| <= 1
  {
    if s != [] {
      var isNew := (b: Backup) => b.id == newId;
      AtMostOneNew(s[1..], newId);
      if s[0].id == newId {
        assert forall b | b in s[1..] :: b.id != newId;
        FilterNone(isNew, s[1..]);
      }
    }
  }

  lemma NewBeyond(v: seq<Backup>, m: nat, newId: int)
    requires m <= |v| && DistinctIds(v)
    ensures |Filter((b: Backup) => b.id == newId, v[m..])| <= 1
    ensures |Filter((b: Backup) => b.id == newId, v[m..])| == 1 <==> exists i :: m <= i < |v| && v[i].id == newId
  {
    var isNew := (b: Backup) => b.id == newId;
    AtMostOneNew(v[m..], newId);
    FilterElements(isNew, v[m..]);
    var extra := Filter(isNew, v[m..]);
    if extra != [] {
      assert extra[0] in extra && extra[0] in v[m..];
      var i :| 0 <= i < |v[m..]| && v[m..][i] == extra[0];
      assert v[m + i].id == newId;
    }
    if i :| m <= i < |v| && v[i].id == newId {
      assert v[i] == v[m..][i - m];
      assert v[i] in extra;
    }
  }

  /** At most maxBackups are kept, or one more exactly when the new backup sorts
      beyond the limit. */
  lemma KeptCount(backups: seq<Backup>, policy: Policy, newId: int)
    requires DistinctIds(backups)
    ensures |Kept(backups, policy, newId)| <= policy.maxBackups + 1
    ensures |Kept(backups, policy, newId)| == policy.maxBackups + 1 <==>
            exists i :: policy.maxBackups <= i < |Survivors(backups, policy, newId)|
                        && Survivors(backups, policy, newId)[i].id == newId
  {
    var v := Survivors(backups, policy, newId);
    var m := if policy.maxBackups <= |v| then policy.maxBackups else |v|;
    var kept := Kept(backups, policy, newId);
    KeptNewestFirst(backups, policy, newId);
    SortIsPermutation(kept);
    assert |NewestFirst(kept)| == |multiset(NewestFirst(kept))| == |kept|;
    SortDistinct(backups);
    FilterDistinct((b: Backup) => Survives(b, policy, newId), NewestFirst(backups));
    NewBeyond(v, m, newId);
  }

  lemma {:induction false} FilterShrinks(keep: Backup -> bool, s: seq<Backup>)
    ensures |Filter(keep, s)| <= |s|
  {
    if s != [] {
      FilterShrinks(keep, s[1..]);
    }
  }

  lemma WhatTheAgeRuleSelects(backups: seq<Backup>, policy: Policy, newId: int, id: int)
    ensures HasOldBackup(backups, policy.maxAgeDays, id) && id != newId ==> Selected(backups, policy, newId, id)
    ensures |backups| <= policy.maxBackups && Selected(backups, policy, newId, id) ==>
              HasOldBackup(backups, policy.maxAgeDays, id) && id != newId
  {
    assert forall b: Backup :: Expired(b, policy) <==>
        policy.maxAgeDays.Some? && b.age.Some? && b.age.value > policy.maxAgeDays.value * 24 * 60 * 60;
    SortIsPermutation(backups);
    assert |NewestFirst(backups)| == |multiset(NewestFirst(backups))| == |backups|;
    FilterShrinks((b: Backup) => Survives(b, policy, newId), NewestFirst(backups));
  }

  // Only listed backups are selected.
  lemma SelectedIsListed(backups: seq<Backup>, policy: Policy, newId: int, id: int)
    requires Selected(backups, policy, newId, id)
    ensures exists b :: b in backups && b.id == id
  {
    var v := Survivors(backups, policy, newId);
    SortIsPermutation(backups);
    FilterElements((b: Backup) => Survives(b, policy, newId), NewestFirst(backups));
    if i :| policy.maxBackups <= i < |v| && v[i].id == id {
      assert v[i] in v;
    }
  }

  /** The planner keeps no expired backup but the new one, and never deletes an
      unexpired backup that is newer than one it keeps. */
  lemma KeepsTheNewest(backups: seq<Backup>, policy: Policy, newId: int, kept: Backup, gone: Backup)
    requires DistinctIds(backups) && kept in backups && gone in backups && kept.id != newId
    requires !Selected(backups, policy, newId, kept.id) && Selected(backups, policy, newId, gone.id)
    ensures !Expired(kept, policy)
    ensures !Expired(gone, policy) ==> kept.createdAt >= gone.createdAt
  {
    var v := Survivors(backups, policy, newId);
    SortIsPermutation(backups);
    SortDescends(backups);
    FilterDescends((b: Backup) => Survives(b, policy, newId), NewestFirst(backups));
    if !Expired(gone, policy) {
      FilterElements((b: Backup) => Survives(b, policy, newId), NewestFirst(backups));
      assert kept in v && gone in v;
      var i :| 0 <= i < |v| && v[i] == kept;
      var j :| 0 <= j < |v| && v[j] == gone;
      SelectedSurvivor(backups, policy, newId, i);
      SelectedSurvivor(backups, policy, newId, j);
    }
  }

  /** A larger limit deletes no more. */
  lemma LargerLimitDeletesLess(backups: seq<Backup>, policy: Policy, larger: Policy, newId: int, id: int)
    requires larger.maxAgeDays == policy.maxAgeDays && policy.maxBackups <= larger.maxBackups
    requires Selected(backups, larger, newId, id)
    ensures Selected(backups, policy, newId, id)
  {
    var survives := (b: Backup) => Survives(b, policy, newId);
    var survives' := (b: Backup) => Survives(b, larger, newId);
    FilterAgree(survives, survives', NewestFirst(backups));
    assert forall b :: Expired(b, policy) == Expired(b, larger);
  }

  /** Planning again on what was kept selects nothing. */
  lemma PlanIsIdempotent(backups: seq<Backup>, policy: Policy, newId: int, id: int)
    requires DistinctIds(backups)
    ensures !Selected(Kept(backups, policy, newId), policy, newId, id)
  {
    var kept := Kept(backups, policy, newId);
    var v := Survivors(backups, policy, newId);
    var m := if policy.maxBackups <= |v| then policy.maxBackups else |v|;
    var survives := (b: Backup) => Survives(b, policy, newId);
    var isNew := (b: Backup) => b.id == newId;
    FilterElements((b: Backup) => !Selected(backups, policy, newId, b.id), backups);
    FilterElements(isNew, v[m..]);
    forall b | b in kept && b.id != newId
      ensures !Expired(b, policy)
    {
      assert !Selected(backups, policy, newId, b.id) && b in backups;
    }
    SortIsPermutation(kept);
    FilterAll(survives, NewestFirst(kept));
    KeptNewestFirst(backups, policy, newId);
    var w := Survivors(kept, policy, newId);
    assert w == v[..m] + Filter(isNew, v[m..]);
    forall i | policy.maxBackups <= i < |w|
      ensures w[i].id == newId
    {
      assert w[i] in Filter(isNew, v[m..]);
    }
  }
}
