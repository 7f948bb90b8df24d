// The persisted panel document and the invariants that bootstrap demands of it
// (src/store.rs, src/state.rs).
module PanelData {
  import opened Options
  import opened Properties
  import opened Settings

  const U64_MAX: nat := 0xFFFF_FFFF_FFFF_FFFF
  // The type of the sums; every addition that can overflow is checked.
  type u64 = n: nat | n <= U64_MAX

  const MAX_PERMISSIONS := 1024

  datatype User = User(name: string, hash: string, admin: bool, servers: seq<string>)

  datatype Binding = Binding(tunnel: string, localAddress: string, localPort: nat)

  datatype Server = Server(id: string, name: string, config: Config, supervision: Supervision,
                           binding: Option<Binding>, backupPolicy: Option<BackupPolicy>)

  datatype StoredBackup = StoredBackup(id: string, server: string)

  datatype Document = Document(users: seq<User>, servers: seq<Server>, backups: seq<StoredBackup>,
                               storage: BackupPolicy)

  /* ----- fields ----- */

  predicate Loopback(address: string) {
    address == "127.0.0.1" || address == "::1"
  }

  predicate ValidBinding(b: Option<Binding>) {
    b.Some? ==> b.value.localPort != 0 && Loopback(b.value.localAddress)
  }

  /* ----- the invariants ----- */

  predicate HasAdmin(users: seq<User>) {
    exists u :: u in users && u.admin
  }

  predicate UniqueNames(users: seq<User>) {
    forall i, j | 0 <= i < j < |users| :: users[i].name != users[j].name
  }

  predicate UsersOk(users: seq<User>) {
    && (users != [] ==> HasAdmin(users))
    && (forall u | u in users :: ValidName(u.name))
    && UniqueNames(users)
  }

  predicate UniqueIds(servers: seq<Server>) {
    forall i, j | 0 <= i < j < |servers| :: servers[i].id != servers[j].id
  }

  predicate UniquePorts(servers: seq<Server>) {
    forall i, j | 0 <= i < j < |servers| :: servers[i].config.port != servers[j].config.port
  }

  function StoredHeap(servers: seq<Server>): nat {
    if servers == [] then 0 else StoredHeap(servers[..|servers| - 1]) + servers[|servers| - 1].config.heap
  }

  predicate ServerOk(s: Server, max: nat) {
    && ValidId(s.id) && ValidName(s.name) && ValidConfig(s.config) && s.config.heap <= max
    && ValidSupervision(s.supervision) && ValidBinding(s.binding)
  }

  predicate ServersOk(servers: seq<Server>, max: nat) {
    && (forall s | s in servers :: ServerOk(s, max))
    && UniqueIds(servers) && UniquePorts(servers) && StoredHeap(servers) <= max
  }

  function Ids(servers: seq<Server>): set<string> {
    set s | s in servers :: s.id
  }

  predicate Repeats(ids: seq<string>) {
    exists i, j :: 0 <= i < j < |ids| && ids[i] == ids[j]
  }

  predicate PermissionsOk(users: seq<User>, ids: set<string>) {
    forall u | u in users ::
      |u.servers| <= MAX_PERMISSIONS && !Repeats(u.servers) && forall id | id in u.servers :: id in ids
  }

  predicate UniqueBackups(backups: seq<StoredBackup>) {
    forall i, j | 0 <= i < j < |backups| :: backups[i].id != backups[j].id
  }

  predicate BackupsOk(backups: seq<StoredBackup>, ids: set<string>) {
    && (forall b | b in backups :: ValidId(b.id) && ValidId(b.server) && b.server in ids)
    && UniqueBackups(backups)
  }

  predicate PolicyOk(s: Server) {
    s.backupPolicy.Some? ==> ValidPolicy(s.backupPolicy.value)
  }

  /** Everything validate_persisted_invariants checks. */
  predicate PersistedOk(d: Document, max: nat) {
    && UsersOk(d.users) && ServersOk(d.servers, max)
    && PermissionsOk(d.users, Ids(d.servers))
    && ValidPolicy(d.storage) && BackupsOk(d.backups, Ids(d.servers))
    && (forall s | s in d.servers :: PolicyOk(s))
  }

  /** What is checked of one record, one account and one grant, in figures: a
      tunnel leads to this machine and to a port. */
  lemma RecordLimits(s: Server, u: User, ids: set<string>, max: nat)
    ensures ServerOk(s, max) <==>
            && s.id != "" && IdLimits(s.id, 64) && LabelLimits(s.name)
            && ValidConfig(s.config) && s.config.heap <= max && ValidSupervision(s.supervision)
            && (s.binding.Some? ==>
                  && s.binding.value.localPort >= 1
                  && (s.binding.value.localAddress == "127.0.0.1" || s.binding.value.localAddress == "::1"))
    ensures UsersOk([u]) <==> u.admin && LabelLimits(u.name)
    ensures PermissionsOk([u], ids) <==>
            && |u.servers| <= 1_024
            && forall i | 0 <= i < |u.servers| :: u.servers[i] in ids && u.servers[i] !in u.servers[..i]
  {
    ControlCharacters();
    PolicyLimits(DEFAULT_POLICY, s.id);
    assert u in [u];
    if PermissionsOk([u], ids) {
      forall i | 0 <= i < |u.servers|
        ensures u.servers[i] !in u.servers[..i]
      {
      }
    }
  }

  /* ----- the check, as written: loops filling hash sets ----- */

  method CheckUsers(users: seq<User>) returns (ok: bool)
    ensures ok <==> UsersOk(users)
  {
    var admin := false;
    for i := 0 to |users|
      invariant admin <==> exists j :: 0 <= j < i && users[j].admin
    {
      admin := admin || users[i].admin;
    }
    if users != [] && !admin {
      return false;
    }
    if admin {
      var j :| 0 <= j < |users| && users[j].admin;
      assert users[j] in users;
    }
    ok := CheckNames(users);
  }

  method CheckNames(users: seq<User>) returns (ok: bool)
    ensures ok <==> (forall u | u in users :: ValidName(u.name)) && UniqueNames(users)
  {
    var names: set<string> := {};
    for i := 0 to |users|
      invariant names == set j | 0 <= j < i :: users[j].name
      invariant forall j | 0 <= j < i :: ValidName(users[j].name)
      invariant forall j, k | 0 <= j < k < i :: users[j].name != users[k].name
    {
      assert users[i] in users;
      if !ValidName(users[i].name) || users[i].name in names {
        return false;
      }
      names := names + {users[i].name};
    }
    ok := true;
  }

  function Ports(servers: seq<Server>): set<nat> {
    set s | s in servers :: s.config.port
  }

  // What one more record must satisfy.
  predicate FitsAfter(init: seq<Server>, s: Server, max: nat) {
    && ServerOk(s, max) && s.id !in Ids(init) && s.config.port !in Ports(init)
    && StoredHeap(init) + s.config.heap <= max
  }

  lemma ServersOkStep(init: seq<Server>, s: Server, max: nat)
    ensures ServersOk(init + [s], max) <==> ServersOk(init, max) && FitsAfter(init, s, max)
    ensures StoredHeap(init + [s]) == StoredHeap(init) + s.config.heap
    ensures Ids(init + [s]) == Ids(init) + {s.id} && Ports(init + [s]) == Ports(init) + {s.config.port}
  {
    var all := init + [s];
    assert all[..|init|] == init;
    assert (forall x | x in all :: ServerOk(x, max))
           <==> (forall x | x in init :: ServerOk(x, max)) && ServerOk(s, max) by {
      assert s in all && forall x | x in init :: x in all;
    }
    UniqueStep(init, s);
    NamesOfOneMore(init, s);
  }

  lemma NamesOfOneMore(init: seq<Server>, s: Server)
    ensures Ids(init + [s]) == Ids(init) + {s.id} && Ports(init + [s]) == Ports(init) + {s.config.port}
  {
  }

  lemma UniqueStep(init: seq<Server>, s: Server)
    ensures UniqueIds(init + [s]) <==> UniqueIds(init) && s.id !in Ids(init)
    ensures UniquePorts(init + [s]) <==> UniquePorts(init) && s.config.port !in Ports(init)
  {
    var all := init + [s];
    assert all[|init|] == s && forall i | 0 <= i < |init| :: all[i] == init[i] && init[i] in init;
  }

  lemma ServersOkInit(servers: seq<Server>, max: nat)
    requires servers != [] && ServersOk(servers, max)
    ensures ServersOk(servers[..|servers| - 1], max)
  {
  }

  lemma {:induction false} ServersOkPrefix(servers: seq<Server>, k: nat, max: nat)
    requires k <= |servers| && ServersOk(servers, max)
    ensures ServersOk(servers[..k], max)
  {
    if k == |servers| {
      assert servers[..k] == servers;
    } else {
      ServersOkInit(servers, max);
      ServersOkPrefix(servers[..|servers| - 1], k, max);
      assert servers[..|servers| - 1][..k] == servers[..k];
    }
  }

  method CheckServers(servers: seq<Server>, max: nat) returns (ok: bool)
    requires max <= U64_MAX
    ensures ok <==> ServersOk(servers, max)
  {
    var ids: set<string>, ports: set<nat>, total: u64 := {}, {}, 0;
    for i := 0 to |servers|
      invariant ids == Ids(servers[..i]) && ports == Ports(servers[..i])
      invariant total == StoredHeap(servers[..i]) && ServersOk(servers[..i], max)
    {
      var s := servers[i];
      assert servers[..i + 1] == servers[..i] + [s];
      ServersOkStep(servers[..i], s, max);
      if ServersOk(servers, max) {
        ServersOkPrefix(servers, i + 1, max);
      }
      if !ValidId(s.id) || s.id in ids || !ValidName(s.name) || !ValidConfig(s.config) || s.config.heap > max {
        return false;
      }
      if total + s.config.heap > U64_MAX {
        return false;
      }
      total := total + s.config.heap;
      if total > max {
        return false;
      }
      if !ValidSupervision(s.supervision) || s.config.port in ports || !ValidBinding(s.binding) {
        return false;
      }
      ids, ports := ids + {s.id}, ports + {s.config.port};
    }
    assert servers[..|servers|] == servers;
    ok := true;
  }

  method CheckPermissions(granted: seq<string>, ids: set<string>) returns (ok: bool)
    ensures ok <==> !Repeats(granted) && forall id | id in granted :: id in ids
  {
    var seen: set<string> := {};
    for i := 0 to |granted|
      invariant seen == set j | 0 <= j < i :: granted[j]
      invariant forall j | 0 <= j < i :: granted[j] in ids
      invariant forall j, k | 0 <= j < k < i :: granted[j] != granted[k]
    {
      assert granted[i] in granted;
      if granted[i] !in ids || granted[i] in seen {
        return false;
      }
      seen := seen + {granted[i]};
    }
    ok := true;
  }

  method CheckBackups(backups: seq<StoredBackup>, ids: set<string>) returns (ok: bool)
    ensures ok <==> BackupsOk(backups, ids)
  {
    var seen: set<string> := {};
    for i := 0 to |backups|
      invariant seen == set j | 0 <= j < i :: backups[j].id
      invariant forall j | 0 <= j < i :: ValidId(backups[j].id) && ValidId(backups[j].server)
      invariant forall j | 0 <= j < i :: backups[j].server in ids
      invariant forall j, k | 0 <= j < k < i :: backups[j].id != backups[k].id
    {
      var b := backups[i];
      assert b in backups;
      if !ValidId(b.id) || !ValidId(b.server) || b.server !in ids || b.id in seen {
        return false;
      }
      seen := seen + {b.id};
    }
    ok := true;
  }

  method CheckAllPermissions(users: seq<User>, ids: set<string>) returns (ok: bool)
    ensures ok <==> PermissionsOk(users, ids)
  {
    for i := 0 to |users|
      invariant forall j | 0 <= j < i :: PermissionsOk([users[j]], ids)
    {
      var granted := users[i].servers;
      assert users[i] in users;
      if |granted| > MAX_PERMISSIONS {
        return false;
      }
      ok := CheckPermissions(granted, ids);
      if !ok {
        return;
      }
    }
    forall u | u in users
      ensures |u.servers| <= MAX_PERMISSIONS && !Repeats(u.servers) && forall id | id in u.servers :: id in ids
    {
      var j :| 0 <= j < |users| && users[j] == u;
      assert u in [users[j]];
    }
    ok := true;
  }

  method CheckPolicies(servers: seq<Server>) returns (ok: bool)
    ensures ok <==> forall s | s in servers :: PolicyOk(s)
  {
    for i := 0 to |servers|
      invariant forall j | 0 <= j < i :: PolicyOk(servers[j])
    {
      assert servers[i] in servers;
      if !PolicyOk(servers[i]) {
        return false;
      }
    }
    ok := true;
  }

  /** The bootstrap check accepts exactly the documents with all invariants. */
  method ValidatePersistedInvariants(d: Document, max: nat) returns (ok: bool)
    requires max <= U64_MAX
    ensures ok <==> PersistedOk(d, max)
  {
    ok := CheckUsers(d.users);
    if !ok {
      return;
    }
    ok := CheckServers(d.servers, max);
    if !ok {
      return;
    }
    ok := CheckAllPermissions(d.users, Ids(d.servers));
    if !ok || !ValidPolicy(d.storage) {
      return false;
    }
    ok := CheckBackups(d.backups, Ids(d.servers));
    if !ok {
      return;
    }
    ok := CheckPolicies(d.servers);
  }

  /* ----- cleanup_orphan_backups ----- */

  function KeepBackups(backups: seq<StoredBackup>, ids: set<string>): (r: seq<StoredBackup>)
    ensures forall b :: b in r <==> b in backups && b.server in ids
  {
    if backups == [] then
      []
    else
      assert backups == [backups[0]] + backups[1..];
      (if backups[0].server in ids then [backups[0]] else []) + KeepBackups(backups[1..], ids)
  }

  lemma {:induction false} KeepBackupsUnique(backups: seq<StoredBackup>, ids: set<string>)
    requires UniqueBackups(backups)
    ensures UniqueBackups(KeepBackups(backups, ids))
  {
    if backups != [] {
      KeepBackupsUnique(backups[1..], ids);
      assert forall b | b in backups[1..] :: b.id != backups[0].id;
    }
  }

  function CleanupOrphans(d: Document): Document {
    d.(backups := KeepBackups(d.backups, Ids(d.servers)))
  }
}
