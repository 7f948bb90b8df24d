// Runs of the panel: handlers, launches, exits, reboots and late backup commits,
// interleaved one step at a time. A server mutation takes the mutation lock,
// reads each guardian's launch configuration at its own moment, and commits
// later, while processes exit and start in between.
module PanelRuns {
  import opened Options
  import opened Properties
  import opened Settings
  import opened PanelData
  import opened Panel

  /** A server mutation in flight. An update also holds the resource lock of its
      target, which a launch of that server needs. */
  datatype Pending = Pending(target: Option<string>, active: ActiveConfigs, read: set<string>)

  datatype World = World(data: Document, running: ActiveConfigs, budget: nat, pending: Option<Pending>,
                         usedServers: set<string>, usedBackups: set<string>)

  datatype Step =
    | Setup(username: string, hash: string)
    | AddUser(username: string, hash: string, admin: bool, granted: seq<string>)
    | EditUser(username: string, newHash: Option<string>, newAdmin: Option<bool>, newGrant: Option<seq<string>>)
    | RemoveUser(requester: string, username: string)
    | BeginCreate
    | BeginUpdate(id: string)
    | ReadActive(id: string)
    | CommitCreate(record: Server)
    | CommitUpdate(patch: Patch)
    | Abandon
    | DeleteServer(id: string)
    | Bind(id: string, binding: Option<Binding>)
    | PatchStorage(update: PolicyUpdate)
    | PatchPolicy(id: string, inherit: bool, update: PolicyUpdate)
    | Start(id: string)
    | Exit(id: string)
    | CommitBackup(server: string, backup: string)
    | RemoveBackup(backup: string)
    | Reboot

  function Adopt(w: World, r: Result<Document>): World {
    if r.Ok? then w.(data := r.value) else w
  }

  function DropBackup(backups: seq<StoredBackup>, id: string): (r: seq<StoredBackup>)
    ensures forall b :: b in r <==> b in backups && b.id != id
  {
    if backups == [] then
      []
    else
      assert backups == [backups[0]] + backups[1..];
      (if backups[0].id != id then [backups[0]] else []) + DropBackup(backups[1..], id)
  }

  // Every guardian has been asked; guardians and records name the same servers.
  predicate AllRead(w: World, p: Pending) {
    forall s | s in w.data.servers :: s.id in p.read
  }

  function WithBinding(servers: seq<Server>, id: string, b: Option<Binding>): seq<Server> {
    var i := ServerAt(servers, id);
    if i < |servers| then servers[i := servers[i].(binding := b)] else servers
  }

  predicate BindsStoredPort(servers: seq<Server>, id: string, b: Option<Binding>) {
    var i := ServerAt(servers, id);
    b.Some? && i < |servers| ==> b.value.localPort == servers[i].config.port
  }

  /** One step. A request that is refused, or a step that is not enabled, leaves
      the world as it is. */
  function Next(w: World, step: Step): World {
    match step
    case Setup(username, hash) =>
      if ValidateName(username).None? then w else Adopt(w, SetupTx(w.data, ValidateName(username).value, hash))
    case AddUser(username, hash, admin, granted) =>
      // an account exists: the requester signed in as one
      if ValidateName(username).None? || w.data.users == [] then w
      else Adopt(w, CreateUserTx(w.data, User(ValidateName(username).value, hash, admin, granted)))
    case EditUser(username, hash, admin, granted) =>
      Adopt(w, UpdateUserTx(w.data, username, hash, admin, granted))
    case RemoveUser(requester, username) =>
      Adopt(w, DeleteUserTx(w.data, requester, username))
    case BeginCreate =>
      if w.pending.Some? then w else w.(pending := Some(Pending(None, map[], {})))
    case BeginUpdate(id) =>
      if w.pending.Some? || ServerAt(w.data.servers, id) == |w.data.servers| then w
      else w.(pending := Some(Pending(Some(id), map[], {})))
    case ReadActive(id) =>
      if w.pending.None? then w
      else
        var p := w.pending.value;
        w.(pending := Some(p.(read := p.read + {id},
                              active := if id in w.running then p.active[id := w.running[id]] else p.active - {id})))
    case CommitCreate(record) =>
      if w.pending.None? || w.pending.value.target.Some? || !AllRead(w, w.pending.value)
         || record.id in w.usedServers || !ValidId(record.id)
         || record != NewServer(record.id, record.name, record.config)
         || ValidateName(record.name) != Some(record.name) || !RecordOk(record, w.budget) then w
      else
        Adopt(w, CreateServerTx(w.data, w.pending.value.active, record, w.budget))
          .(pending := None, usedServers := w.usedServers + {record.id})
    case CommitUpdate(patch) =>
      if w.pending.None? || w.pending.value.target.None? || !AllRead(w, w.pending.value) then w
      else
        Adopt(w, UpdateServerTx(w.data, w.pending.value.active, w.pending.value.target.value, patch, w.budget))
          .(pending := None)
    case Abandon =>
      w.(pending := None)
    case DeleteServer(id) =>
      if w.pending.Some? || id in w.running then w else w.(data := DeleteServerTx(w.data, id))
    case Bind(id, b) =>
      // attach and heal refuse unless the binding is for the stored port
      if w.pending.Some? || !ValidBinding(b) || !BindsStoredPort(w.data.servers, id, b) then w
      else w.(data := w.data.(servers := WithBinding(w.data.servers, id, b)))
    case PatchStorage(u) => Adopt(w, PatchStorageTx(w.data, u))
    case PatchPolicy(id, inherit, u) => Adopt(w, PatchPolicyTx(w.data, id, inherit, u))
    case Start(id) =>
      var i := ServerAt(w.data.servers, id);
      if i == |w.data.servers| || id in w.running || (w.pending.Some? && w.pending.value.target == Some(id)) then w
      else w.(running := w.running[id := LaunchOf(w.data.servers[i])])
    case Exit(id) =>
      w.(running := w.running - {id})
    case CommitBackup(server, backup) =>
      // the upload started while the server existed; it may be gone by now
      if server !in w.usedServers || backup in w.usedBackups || !ValidId(backup) then w
      else w.(data := w.data.(backups := w.data.backups + [StoredBackup(backup, server)]),
              usedBackups := w.usedBackups + {backup})
    case RemoveBackup(backup) =>
      w.(data := w.data.(backups := DropBackup(w.data.backups, backup)))
    case Reboot =>
      w.(data := CleanupOrphans(w.data), running := map[], pending := None)
  }

  function Run(w: World, steps: seq<Step>): World {
    if steps == [] then w else Next(Run(w, steps[..|steps| - 1]), steps[|steps| - 1])
  }

  /* ----- what every step keeps ----- */

  // No port is held, stored or running, by two servers.
  ghost predicate PortsDisjoint(servers: seq<Server>, running: ActiveConfigs) {
    forall s, t, p | s in servers && t in servers && s.id != t.id && HoldsPort(s, running, p) ::
      !HoldsPort(t, running, p)
  }

  // What was read about a guardian may be stale, but only harmlessly: since then
  // its process has at most exited, or started on the stored configuration.
  ghost predicate Harmless(w: World, p: Pending) {
    forall s | s in w.data.servers && s.id in p.read && s.id in w.running ::
      (s.id in p.active && w.running[s.id] == p.active[s.id])
      || (p.target != Some(s.id) && w.running[s.id] == LaunchOf(s))
  }

  ghost predicate Resources(w: World) {
    && PortsDisjoint(w.data.servers, w.running)
    && Reserved(w.data.servers, w.running) <= w.budget
    && w.running.Keys <= Ids(w.data.servers)
    && (w.pending.Some? ==> Harmless(w, w.pending.value))
  }

  ghost predicate BackupIdsOk(w: World) {
    && UniqueBackups(w.data.backups)
    && (forall b | b in w.data.backups ::
          ValidId(b.id) && ValidId(b.server) && b.id in w.usedBackups && b.server in w.usedServers)
  }

  // A tunnel leads to the port its server is configured for.
  predicate BindingOk(s: Server) {
    s.binding.Some? ==> s.binding.value.localPort == s.config.port
  }

  ghost predicate DocumentOk(w: World) {
    && UsersOk(w.data.users)
    && ServersOk(w.data.servers, w.budget)
    && PermissionsOk(w.data.users, Ids(w.data.servers))
    && ValidPolicy(w.data.storage)
    && (forall s | s in w.data.servers :: PolicyOk(s) && BindingOk(s))
    && Ids(w.data.servers) <= w.usedServers
    && (forall id | id in w.usedServers :: ValidId(id))
    && BackupIdsOk(w)
  }

  ghost predicate Inv(w: World) {
    DocumentOk(w) && Resources(w)
  }

  // A fresh installation.
  function FreshWorld(budget: nat): World {
    World(Document([], [], [], DEFAULT_POLICY), map[], budget, None, {}, {})
  }

  lemma FreshWorldOk(budget: nat)
    ensures Inv(FreshWorld(budget))
  {
  }

  /* ----- users ----- */

  lemma {:induction false} AdminCountSplit(a: seq<User>, b: seq<User>)
    ensures AdminCount(a + b) == AdminCount(a) + AdminCount(b)
  {
    if b == [] {
      assert a + b == a;
    } else {
      AdminCountSplit(a, b[..|b| - 1]);
      assert (a + b)[..|a + b| - 1] == a + b[..|b| - 1];
    }
  }

  lemma {:induction false} AdminCountPositive(users: seq<User>)
    ensures AdminCount(users) > 0 <==> HasAdmin(users)
  {
    if users != [] {
      var init, last := users[..|users| - 1], users[|users| - 1];
      AdminCountPositive(init);
      assert users == init + [last];
      assert last in users && forall u | u in init :: u in users;
    }
  }

  // Replacing or removing one user keeps an administrator unless it was the last.
  lemma AdminCountOfThree(a: seq<User>, b: seq<User>, c: seq<User>)
    ensures AdminCount(a + b + c) == AdminCount(a) + AdminCount(b) + AdminCount(c)
  {
    AdminCountSplit(a + b, c);
    AdminCountSplit(a, b);
  }

  lemma AdminSurvives(before: seq<User>, one: seq<User>, after: seq<User>, mid: seq<User>)
    requires HasAdmin(before + one + after)
    requires AdminCount(one) <= 1
    requires AdminCount(one) == 1 && !HasAdmin(mid) ==> AdminCount(before + one + after) != 1
    ensures HasAdmin(before + mid + after)
  {
    AdminCountOfThree(before, one, after);
    AdminCountOfThree(before, mid, after);
    AdminCountPositive(before + one + after);
    AdminCountPositive(mid);
    AdminCountPositive(before + mid + after);
  }

  lemma CutAt(users: seq<User>, i: nat)
    requires i < |users|
    ensures users == users[..i] + [users[i]] + users[i + 1..]
  {
  }

  // Exchanging one account for none or one keeps an administrator.
  lemma AdminSurvivesAt(users: seq<User>, i: nat, mid: seq<User>)
    requires i < |users| && HasAdmin(users)
    requires users[i].admin && !HasAdmin(mid) ==> AdminCount(users) != 1
    ensures HasAdmin(users[..i] + mid + users[i + 1..])
  {
    var a, one, b := users[..i], [users[i]], users[i + 1..];
    CutAt(users, i);
    assert one[..0] == [];
    AdminSurvives(a, one, b, mid);
  }

  // A change of accounts leaves ports, memory and backups alone.
  lemma UsersOnly(w: World, users: seq<User>)
    requires Inv(w) && UsersOk(users) && PermissionsOk(users, Ids(w.data.servers))
    ensures Inv(w.(data := w.data.(users := users)))
  {
  }

  lemma AppendUser(users: seq<User>, u: User)
    requires (users != [] ==> UsersOk(users)) && ValidName(u.name) && UserAt(users, u.name) == |users|
    requires users == [] ==> u.admin
    ensures UsersOk(users + [u])
  {
  }

  lemma SetupKeeps(w: World, username: string, hash: string)
    requires Inv(w)
    ensures Inv(Next(w, Setup(username, hash)))
  {
    ValidatedNameIsValid(username);
    if ValidateName(username).Some? && w.data.users == [] {
      var u := User(ValidateName(username).value, hash, true, []);
      AppendUser(w.data.users, u);
      UsersOnly(w, w.data.users + [u]);
    }
  }

  lemma AddUserKeeps(w: World, username: string, hash: string, admin: bool, granted: seq<string>)
    requires Inv(w)
    ensures Inv(Next(w, AddUser(username, hash, admin, granted)))
  {
    ValidatedNameIsValid(username);
    if ValidateName(username).Some? && w.data.users != [] {
      var u := User(ValidateName(username).value, hash, admin, granted);
      if CreateUserTx(w.data, u).Ok? {
        AppendUser(w.data.users, u);
        UsersOnly(w, w.data.users + [u]);
      }
    }
  }

  lemma AdminAfterEdit(users: seq<User>, i: nat, u: User)
    requires i < |users| && HasAdmin(users) && (users[i].admin && !u.admin ==> AdminCount(users) != 1)
    ensures HasAdmin(users[i := u])
  {
    assert HasAdmin([u]) <==> u.admin by {
      assert u in [u] && forall x | x in [u] :: x == u;
    }
    AdminSurvivesAt(users, i, [u]);
    assert users[i := u] == users[..i] + [u] + users[i + 1..];
  }

  lemma ReplaceUser(users: seq<User>, i: nat, u: User, ids: set<string>)
    requires i < |users| && UsersOk(users) && PermissionsOk(users, ids) && u.name == users[i].name
    requires users[i].admin && !u.admin ==> AdminCount(users) != 1
    requires u.servers == users[i].servers || PermissionsOk([u], ids)
    ensures UsersOk(users[i := u]) && PermissionsOk(users[i := u], ids) && users[i := u] != []
  {
    assert users[i] in users && u in [u];
    AdminAfterEdit(users, i, u);
    var edited := users[i := u];
    forall x | x in edited
      ensures x == u || x in users
    {
    }
  }

  lemma EditUserKeeps(w: World, username: string, hash: Option<string>, admin: Option<bool>,
                      granted: Option<seq<string>>)
    requires Inv(w)
    ensures Inv(Next(w, EditUser(username, hash, admin, granted)))
    ensures w.data.users != [] ==> Next(w, EditUser(username, hash, admin, granted)).data.users != []
  {
    var users, i := w.data.users, UserAt(w.data.users, username);
    if UpdateUserTx(w.data, username, hash, admin, granted).Ok? {
      var u := Revised(users[i], hash, admin, granted);
      ReplaceUser(users, i, u, Ids(w.data.servers));
      UsersOnly(w, users[i := u]);
    }
  }

  lemma RemoveUserAt(users: seq<User>, i: nat, ids: set<string>)
    requires i < |users| && UsersOk(users) && PermissionsOk(users, ids)
    requires users[i].admin ==> AdminCount(users) != 1
    ensures UsersOk(users[..i] + users[i + 1..]) && PermissionsOk(users[..i] + users[i + 1..], ids)
    ensures users[..i] + users[i + 1..] != []
  {
    var rest := users[..i] + users[i + 1..];
    RestKeepsAdmin(users, i);
    RestIsUnique(users, i);
    RestIsSubset(users, i);
    assert rest != [] by {
      var a :| a in rest && a.admin;
    }
  }

  lemma RestKeepsAdmin(users: seq<User>, i: nat)
    requires i < |users| && HasAdmin(users) && (users[i].admin ==> AdminCount(users) != 1)
    ensures HasAdmin(users[..i] + users[i + 1..])
  {
    NoAdminInNothing();
    AdminSurvivesAt(users, i, []);
    assert users[..i] + [] + users[i + 1..] == users[..i] + users[i + 1..];
  }

  lemma RestIsSubset(users: seq<User>, i: nat)
    requires i < |users|
    ensures forall x | x in users[..i] + users[i + 1..] :: x in users
  {
  }

  lemma NoAdminInNothing()
    ensures !HasAdmin([])
  {
  }

  lemma RestIsUnique(users: seq<User>, i: nat)
    requires i < |users| && UniqueNames(users)
    ensures UniqueNames(users[..i] + users[i + 1..])
  {
  }

  lemma RemoveUserKeeps(w: World, requester: string, username: string)
    requires Inv(w)
    ensures Inv(Next(w, RemoveUser(requester, username)))
    ensures w.data.users != [] ==> Next(w, RemoveUser(requester, username)).data.users != []
  {
    var users, i := w.data.users, UserAt(w.data.users, username);
    if DeleteUserTx(w.data, requester, username).Ok? {
      assert users[i] in users;
      RemoveUserAt(users, i, Ids(w.data.servers));
      UsersOnly(w, users[..i] + users[i + 1..]);
    }
  }

  /* ----- memory and ports ----- */

  // The larger of stored and running only shrinks.
  ghost predicate NoMoreHeap(servers: seq<Server>, a: ActiveConfigs, b: ActiveConfigs) {
    forall s | s in servers :: ReservedHeap(s.id, s.config.heap, a) <= ReservedHeap(s.id, s.config.heap, b)
  }

  lemma {:induction false} ReservedMonotone(servers: seq<Server>, a: ActiveConfigs, b: ActiveConfigs, id: string)
    requires NoMoreHeap(servers, a, b)
    ensures Reserved(servers, a) <= Reserved(servers, b)
    ensures ReservedExcept(servers, a, id) <= ReservedExcept(servers, b, id)
  {
    if servers != [] {
      var init, last := servers[..|servers| - 1], servers[|servers| - 1];
      assert last in servers && forall s | s in init :: s in servers;
      ReservedMonotone(init, a, b, id);
    }
  }

  lemma {:induction false} StoredWithinReserved(servers: seq<Server>, active: ActiveConfigs)
    ensures StoredHeap(servers) <= Reserved(servers, active)
  {
    if servers != [] {
      StoredWithinReserved(servers[..|servers| - 1], active);
    }
  }

  lemma {:induction false} ReservedWithoutAbsent(servers: seq<Server>, active: ActiveConfigs, id: string)
    requires forall s | s in servers :: s.id != id
    ensures ReservedExcept(servers, active, id) == Reserved(servers, active)
  {
    if servers != [] {
      var init, last := servers[..|servers| - 1], servers[|servers| - 1];
      assert last in servers && forall s | s in init :: s in servers;
      ReservedWithoutAbsent(init, active, id);
    }
  }

  // Replacing one record replaces its share of the sums.
  lemma {:induction false} ReplaceShare(servers: seq<Server>, active: ActiveConfigs, i: nat, next: Server)
    requires i < |servers| && UniqueIds(servers) && next.id == servers[i].id
    ensures Reserved(servers[i := next], active)
            == ReservedExcept(servers, active, next.id) + ReservedHeap(next.id, next.config.heap, active)
  {
    var n := |servers| - 1;
    var init, last := servers[..n], servers[n];
    var replaced := servers[i := next];
    if i < n {
      assert replaced[..n] == init[i := next] && replaced[n] == last;
      ReplaceShare(init, active, i, next);
      assert last.id != next.id;
    } else {
      assert replaced[..n] == init && replaced[n] == next;
      forall s | s in init
        ensures s.id != next.id
      {
      }
      ReservedWithoutAbsent(init, active, next.id);
    }
  }

  lemma {:induction false} SameConfigs(servers: seq<Server>, active: ActiveConfigs, i: nat, next: Server)
    requires i < |servers| && next.id == servers[i].id && next.config == servers[i].config
    ensures Reserved(servers[i := next], active) == Reserved(servers, active)
    ensures StoredHeap(servers[i := next]) == StoredHeap(servers)
  {
    var n := |servers| - 1;
    var replaced := servers[i := next];
    if i < n {
      assert replaced[..n] == servers[..n][i := next] && replaced[n] == servers[n];
      SameConfigs(servers[..n], active, i, next);
    } else {
      assert replaced[..n] == servers[..n] && replaced[n] == next;
    }
  }

  // A stale snapshot still accounts for every port and every heap in use.
  lemma SnapshotCovers(w: World, p: Pending)
    requires Harmless(w, p) && AllRead(w, p)
    ensures NoMoreHeap(w.data.servers, w.running, p.active)
    ensures forall s, port | s in w.data.servers && !HoldsPort(s, p.active, port) :: !HoldsPort(s, w.running, port)
    ensures p.target.Some? ==> forall heap ::
              ReservedHeap(p.target.value, heap, w.running) <= ReservedHeap(p.target.value, heap, p.active)
              || p.target.value !in Ids(w.data.servers)
  {
    forall s | s in w.data.servers
      ensures ReservedHeap(s.id, s.config.heap, w.running) <= ReservedHeap(s.id, s.config.heap, p.active)
    {
      assert s.id in p.read;
    }
    forall s, port | s in w.data.servers && !HoldsPort(s, p.active, port)
      ensures !HoldsPort(s, w.running, port)
    {
      assert s.id in p.read;
    }
    if p.target.Some? && p.target.value in Ids(w.data.servers) {
      var s :| s in w.data.servers && s.id == p.target.value;
      assert s.id in p.read;
    }
  }

  lemma CommitCreateKeeps(w: World, record: Server)
    requires Inv(w)
    ensures Inv(Next(w, CommitCreate(record)))
  {
    if Next(w, CommitCreate(record)) != w {
      var p := w.pending.value;
      if CreateServerTx(w.data, p.active, record, w.budget).Ok? {
        assert record.id !in w.running;
        TrimTwice(record.name);
        CreatedServersOk(w, p, record);
        AppendedPorts(w.data.servers, record, w.running);
      }
    }
  }

  lemma CreatedServersOk(w: World, p: Pending, record: Server)
    requires ServersOk(w.data.servers, w.budget) && Harmless(w, p) && AllRead(w, p)
    requires ServerOk(record, w.budget) && record.id !in Ids(w.data.servers) && record.id !in w.running
    requires CreateServerTx(w.data, p.active, record, w.budget).Ok?
    ensures ServersOk(w.data.servers + [record], w.budget)
    ensures Reserved(w.data.servers + [record], w.running) <= w.budget
    ensures forall s | s in w.data.servers :: !HoldsPort(s, w.running, record.config.port)
  {
    var servers := w.data.servers;
    SnapshotCovers(w, p);
    ReservedMonotone(servers, w.running, p.active, "");
    StoredWithinReserved(servers, w.running);
    assert (servers + [record])[..|servers|] == servers;
    forall s | s in servers
      ensures !HoldsPort(s, w.running, record.config.port)
    {
      assert !HoldsPort(s, p.active, record.config.port);
    }
    assert record.config.port !in Ports(servers) by {
      forall s | s in servers
        ensures s.config.port != record.config.port
      {
        assert !HoldsPort(s, w.running, record.config.port);
      }
    }
    ServersOkStep(servers, record, w.budget);
  }

  lemma AppendedPorts(servers: seq<Server>, record: Server, running: ActiveConfigs)
    requires PortsDisjoint(servers, running) && record.id !in running
    requires forall s | s in servers :: !HoldsPort(s, running, record.config.port)
    ensures PortsDisjoint(servers + [record], running)
  {
  }

  lemma UpdateKeepsBinding(d: Document, active: ActiveConfigs, id: string, patch: Patch, max: nat)
    requires UpdateServerTx(d, active, id, patch, max).Ok?
    requires forall s | s in d.servers :: PolicyOk(s) && BindingOk(s)
    ensures var next := Patched(d.servers[ServerAt(d.servers, id)], patch);
            PolicyOk(next) && BindingOk(next)
  {
    assert d.servers[ServerAt(d.servers, id)] in d.servers;
  }

  lemma UpdatedWorldOk(w: World, p: Pending, patch: Patch)
    requires Inv(w) && w.pending == Some(p) && p.target.Some? && AllRead(w, p)
    requires UpdateServerTx(w.data, p.active, p.target.value, patch, w.budget).Ok?
    ensures Inv(w.(data := UpdateServerTx(w.data, p.active, p.target.value, patch, w.budget).value, pending := None))
  {
    var i := ServerAt(w.data.servers, p.target.value);
    UpdatedServersOk(w, p, patch);
    UpdateKeepsBinding(w.data, p.active, p.target.value, patch, w.budget);
    ReplacedKeeps(w.(pending := None), i, Patched(w.data.servers[i], patch));
  }

  lemma CommitUpdateKeeps(w: World, patch: Patch)
    requires Inv(w)
    ensures Inv(Next(w, CommitUpdate(patch)))
  {
    if w.pending.Some? && w.pending.value.target.Some? && AllRead(w, w.pending.value) {
      var p := w.pending.value;
      if UpdateServerTx(w.data, p.active, p.target.value, patch, w.budget).Ok? {
        UpdatedWorldOk(w, p, patch);
      }
    }
  }

  lemma UpdatedServersOk(w: World, p: Pending, patch: Patch)
    requires ServersOk(w.data.servers, w.budget) && PortsDisjoint(w.data.servers, w.running)
    requires Harmless(w, p) && AllRead(w, p) && p.target.Some?
    requires UpdateServerTx(w.data, p.active, p.target.value, patch, w.budget).Ok?
    ensures var i := ServerAt(w.data.servers, p.target.value);
            var replaced := w.data.servers[i := Patched(w.data.servers[i], patch)];
            && ServersOk(replaced, w.budget) && PortsDisjoint(replaced, w.running)
            && Ids(replaced) == Ids(w.data.servers) && Reserved(replaced, w.running) <= w.budget
  {
    var id, servers := p.target.value, w.data.servers;
    var i := ServerAt(servers, id);
    var next := Patched(servers[i], patch);
    assert servers[i] in servers && servers[i].id == id && id in Ids(servers);
    if patch.name.Some? {
      ValidatedNameIsValid(patch.name.value);
    }
    SnapshotCovers(w, p);
    ReservedMonotone(servers, w.running, p.active, id);
    ReplaceShare(servers, w.running, i, next);
    StoredWithinReserved(servers[i := next], w.running);
    forall s | s in servers && s.id != id
      ensures !HoldsPort(s, w.running, next.config.port)
    {
      if patch.port.Some? {
        assert !HoldsPort(s, p.active, patch.port.value);
      } else {
        assert HoldsPort(servers[i], w.running, next.config.port);
      }
    }
    ReplacedServersOk(servers, w.running, i, next, w.budget);
  }

  // One record exchanged for another with the same id.
  lemma ReplacedElements(servers: seq<Server>, i: nat, next: Server)
    requires i < |servers| && UniqueIds(servers) && next.id == servers[i].id
    ensures forall s :: s in servers[i := next] <==> s == next || (s in servers && s.id != next.id)
    ensures Ids(servers[i := next]) == Ids(servers)
  {
    var replaced := servers[i := next];
    assert replaced[i] == next && servers[i] in servers;
    forall s
      ensures s in replaced <==> s == next || (s in servers && s.id != next.id)
    {
      if s in replaced {
        var k :| 0 <= k < |replaced| && replaced[k] == s;
        assert k != i ==> s == servers[k];
      }
      if s in servers && s.id != next.id {
        var k :| 0 <= k < |servers| && servers[k] == s;
        assert replaced[k] == s;
      }
    }
    forall id | id in Ids(servers)
      ensures id in Ids(replaced)
    {
      var s :| s in servers && s.id == id;
      assert id == next.id || s in replaced;
    }
  }

  lemma ReplacedUnique(servers: seq<Server>, i: nat, next: Server)
    requires i < |servers| && UniqueIds(servers) && UniquePorts(servers) && next.id == servers[i].id
    requires forall s | s in servers && s.id != next.id :: s.config.port != next.config.port
    ensures UniqueIds(servers[i := next]) && UniquePorts(servers[i := next])
  {
    var replaced := servers[i := next];
    forall j, k | 0 <= j < k < |replaced|
      ensures replaced[j].id != replaced[k].id && replaced[j].config.port != replaced[k].config.port
    {
      assert j != i ==> servers[j] in servers && servers[j].id != next.id;
      assert k != i ==> servers[k] in servers && servers[k].id != next.id;
    }
  }

  lemma ReplacedPorts(servers: seq<Server>, running: ActiveConfigs, i: nat, next: Server)
    requires i < |servers| && UniqueIds(servers) && PortsDisjoint(servers, running) && next.id == servers[i].id
    requires forall s | s in servers && s.id != next.id :: !HoldsPort(s, running, next.config.port)
    ensures PortsDisjoint(servers[i := next], running)
  {
    ReplacedElements(servers, i, next);
    assert servers[i] in servers;
    forall s, port | s in servers && s.id != next.id && HoldsPort(next, running, port)
      ensures !HoldsPort(s, running, port)
    {
      if port != next.config.port {
        assert HoldsPort(servers[i], running, port);
      }
    }
  }

  lemma ReplacedServersOk(servers: seq<Server>, running: ActiveConfigs, i: nat, next: Server, max: nat)
    requires i < |servers| && ServersOk(servers, max) && PortsDisjoint(servers, running)
    requires next.id == servers[i].id && ServerOk(next, max)
    requires StoredHeap(servers[i := next]) <= max
    requires forall s | s in servers && s.id != next.id :: !HoldsPort(s, running, next.config.port)
    ensures ServersOk(servers[i := next], max) && PortsDisjoint(servers[i := next], running)
    ensures Ids(servers[i := next]) == Ids(servers)
  {
    ReplacedElements(servers, i, next);
    ReplacedPorts(servers, running, i, next);
    forall s | s in servers && s.id != next.id
      ensures s.config.port != next.config.port
    {
      assert !HoldsPort(s, running, next.config.port);
    }
    ReplacedUnique(servers, i, next);
  }

  lemma ReplacedKeeps(w: World, i: nat, next: Server)
    requires DocumentOk(w) && w.pending.None? && i < |w.data.servers| && w.running.Keys <= Ids(w.data.servers)
    requires ServersOk(w.data.servers[i := next], w.budget) && PortsDisjoint(w.data.servers[i := next], w.running)
    requires Ids(w.data.servers[i := next]) == Ids(w.data.servers) && PolicyOk(next) && BindingOk(next)
    requires Reserved(w.data.servers[i := next], w.running) <= w.budget
    ensures Inv(w.(data := w.data.(servers := w.data.servers[i := next])))
  {
  }

  /* ----- deletion ----- */

  lemma {:induction false} DropIdKeeps(ids: seq<string>, id: string)
    requires !Repeats(ids)
    ensures !Repeats(DropId(ids, id)) && |DropId(ids, id)| <= |ids|
  {
    if ids != [] {
      forall x | x in ids[1..]
        ensures x != ids[0]
      {
        var j :| 0 <= j < |ids[1..]| && ids[1..][j] == x;
        assert ids[j + 1] == x;
      }
      assert forall i, j | 0 <= i < j < |ids[1..]| :: ids[1..][i] == ids[i + 1] != ids[j + 1] == ids[1..][j];
      DropIdKeeps(ids[1..], id);
      var rest := DropId(ids[1..], id);
      forall j | 0 <= j < |rest|
        ensures rest[j] != ids[0]
      {
        assert rest[j] in rest;
      }
    }
  }

  lemma SumsOfOneMore(init: seq<Server>, s: Server, active: ActiveConfigs)
    ensures Reserved(init + [s], active) == Reserved(init, active) + ReservedHeap(s.id, s.config.heap, active)
    ensures StoredHeap(init + [s]) == StoredHeap(init) + s.config.heap
  {
  }

  lemma {:induction false} DropServerShrinks(servers: seq<Server>, id: string, running: ActiveConfigs)
    ensures Reserved(DropServer(servers, id), running) <= Reserved(servers, running)
    ensures StoredHeap(DropServer(servers, id)) <= StoredHeap(servers)
  {
    if servers != [] {
      var init, last := servers[..|servers| - 1], servers[|servers| - 1];
      assert servers == init + [last];
      DropServerShrinks(init, id, running);
      SumsOfOneMore(init, last, running);
      var kept := DropServer(init, id);
      SumsOfOneMore(kept, last, running);
      assert DropServer(servers, id) == if last.id != id then kept + [last] else kept;
    }
  }

  lemma {:induction false} DropServerKeeps(servers: seq<Server>, id: string, max: nat)
    requires ServersOk(servers, max)
    ensures ServersOk(DropServer(servers, id), max)
  {
    if servers != [] {
      var init, last := servers[..|servers| - 1], servers[|servers| - 1];
      assert servers == init + [last];
      ServersOkStep(init, last, max);
      DropServerKeeps(init, id, max);
      var kept := DropServer(init, id);
      assert DropServer(servers, id) == if last.id != id then kept + [last] else kept;
      if last.id != id {
        DropServerShrinks(init, id, map[]);
        StillFits(init, kept, last, max);
        ServersOkStep(kept, last, max);
      }
    }
  }

  lemma StillFits(init: seq<Server>, kept: seq<Server>, last: Server, max: nat)
    requires FitsAfter(init, last, max) && StoredHeap(kept) <= StoredHeap(init)
    requires forall s | s in kept :: s in init
    ensures FitsAfter(kept, last, max)
  {
  }

  lemma {:induction false} DropBackupsKeeps(backups: seq<StoredBackup>, id: string)
    requires UniqueBackups(backups)
    ensures UniqueBackups(DropBackupsOf(backups, id)) && UniqueBackups(DropBackup(backups, id))
  {
    if backups != [] {
      DropBackupsKeeps(backups[1..], id);
      assert forall b | b in backups[1..] :: b.id != backups[0].id;
    }
  }

  lemma RevokeKeepsUsers(users: seq<User>, id: string)
    requires UsersOk(users)
    ensures UsersOk(Revoke(users, id))
  {
    var r := Revoke(users, id);
    forall u | u in r
      ensures ValidName(u.name)
    {
      var i :| 0 <= i < |r| && r[i] == u;
      assert users[i] in users;
    }
    if users != [] {
      var a :| a in users && a.admin;
      var i :| 0 <= i < |users| && users[i] == a;
      assert r[i].admin && r[i] in r;
    }
  }

  lemma RevokeKeeps(users: seq<User>, id: string, ids: set<string>)
    requires UsersOk(users) && PermissionsOk(users, ids)
    ensures UsersOk(Revoke(users, id)) && PermissionsOk(Revoke(users, id), ids - {id})
  {
    RevokeKeepsUsers(users, id);
    var r := Revoke(users, id);
    forall u | u in r
      ensures |u.servers| <= MAX_PERMISSIONS && !Repeats(u.servers)
      ensures forall x | x in u.servers :: x in ids - {id}
    {
      var i :| 0 <= i < |r| && r[i] == u;
      assert users[i] in users;
      DropIdKeeps(users[i].servers, id);
    }
  }

  lemma DroppedPorts(servers: seq<Server>, id: string, running: ActiveConfigs)
    requires PortsDisjoint(servers, running) && running.Keys <= Ids(servers) && id !in running
    ensures PortsDisjoint(DropServer(servers, id), running)
    ensures Ids(DropServer(servers, id)) == Ids(servers) - {id}
    ensures running.Keys <= Ids(DropServer(servers, id))
  {
  }

  lemma DeleteServerKeeps(w: World, id: string)
    requires Inv(w)
    ensures Inv(Next(w, DeleteServer(id)))
  {
    if w.pending.None? && id !in w.running {
      var d := DeleteServerTx(w.data, id);
      RevokeKeeps(w.data.users, id, Ids(w.data.servers));
      DropServerKeeps(w.data.servers, id, w.budget);
      DropServerShrinks(w.data.servers, id, w.running);
      DropBackupsKeeps(w.data.backups, id);
      DroppedPorts(w.data.servers, id, w.running);
      assert DocumentOk(w.(data := d));
      assert Resources(w.(data := d));
    }
  }

  /* ----- the other steps ----- */

  // A record changed in a field that no sum and no port depends on.
  lemma CosmeticIsHarmless(w: World, p: Pending, i: nat, next: Server)
    requires Harmless(w, p) && i < |w.data.servers|
    requires next.id == w.data.servers[i].id && next.config == w.data.servers[i].config
    ensures Harmless(w.(data := w.data.(servers := w.data.servers[i := next])), p)
  {
    var servers, replaced := w.data.servers, w.data.servers[i := next];
    forall s | s in replaced
      ensures exists t :: t in servers && t.id == s.id && LaunchOf(t) == LaunchOf(s)
    {
      var k :| 0 <= k < |replaced| && replaced[k] == s;
      assert servers[k] in servers;
    }
  }

  lemma CosmeticChange(w: World, i: nat, next: Server)
    requires Inv(w) && i < |w.data.servers|
    requires next.id == w.data.servers[i].id && next.config == w.data.servers[i].config
    requires ServerOk(next, w.budget) && PolicyOk(next) && BindingOk(next)
    ensures Inv(w.(data := w.data.(servers := w.data.servers[i := next])))
  {
    var servers := w.data.servers;
    assert servers[i] in servers;
    SameConfigs(servers, w.running, i, next);
    forall s | s in servers && s.id != next.id
      ensures !HoldsPort(s, w.running, next.config.port)
    {
      assert HoldsPort(servers[i], w.running, next.config.port);
    }
    ReplacedServersOk(servers, w.running, i, next, w.budget);
    ReplacedKeeps(w.(pending := None), i, next);
    if w.pending.Some? {
      CosmeticIsHarmless(w, w.pending.value, i, next);
    }
  }

  lemma BoundServerOk(w: World, i: nat, b: Option<Binding>)
    requires Inv(w) && i < |w.data.servers| && ValidBinding(b)
    requires b.Some? ==> b.value.localPort == w.data.servers[i].config.port
    ensures Inv(w.(data := w.data.(servers := w.data.servers[i := w.data.servers[i].(binding := b)])))
  {
    assert w.data.servers[i] in w.data.servers;
    CosmeticChange(w, i, w.data.servers[i].(binding := b));
  }

  lemma BindKeeps(w: World, id: string, b: Option<Binding>)
    requires Inv(w)
    ensures Inv(Next(w, Bind(id, b)))
  {
    var i := ServerAt(w.data.servers, id);
    if w.pending.None? && ValidBinding(b) && BindsStoredPort(w.data.servers, id, b) && i < |w.data.servers| {
      BoundServerOk(w, i, b);
    }
  }

  // A step that concerns the global backup settings only.
  lemma StorageOnly(w: World, storage: BackupPolicy)
    requires Inv(w) && ValidPolicy(storage)
    ensures Inv(w.(data := w.data.(storage := storage)))
  {
  }

  lemma PatchStorageKeeps(w: World, u: PolicyUpdate)
    requires Inv(w)
    ensures Inv(Next(w, PatchStorage(u)))
  {
    if PatchStorageTx(w.data, u).Ok? {
      UpdatedPolicyIsValid(w.data.storage, u);
      StorageOnly(w, UpdatedPolicy(w.data.storage, u).value);
    }
  }

  lemma PatchPolicyKeeps(w: World, id: string, inherit: bool, u: PolicyUpdate)
    requires Inv(w)
    ensures Inv(Next(w, PatchPolicy(id, inherit, u)))
  {
    var i := ServerAt(w.data.servers, id);
    if PatchPolicyTx(w.data, id, inherit, u).Ok? {
      var s := w.data.servers[i];
      assert s in w.data.servers;
      if inherit {
        CosmeticChange(w, i, s.(backupPolicy := None));
      } else {
        var stored := OrElse(s.backupPolicy, DEFAULT_POLICY);
        UpdatedPolicyIsValid(stored, u);
        CosmeticChange(w, i, s.(backupPolicy := UpdatedPolicy(stored, u)));
      }
    }
  }

  lemma SameIdSameServer(servers: seq<Server>, s: Server, t: Server)
    requires UniqueIds(servers) && s in servers && t in servers && s.id == t.id
    ensures s == t
  {
  }

  // A launch on the stored configuration holds nothing new.
  lemma LaunchHoldsNothingNew(servers: seq<Server>, running: ActiveConfigs, s: Server)
    requires UniqueIds(servers) && s in servers && s.id !in running
    ensures var now := running[s.id := LaunchOf(s)];
            && (forall t, port | t in servers && HoldsPort(t, now, port) :: HoldsPort(t, running, port))
            && NoMoreHeap(servers, now, running)
  {
    forall t | t in servers && t.id == s.id
      ensures t == s
    {
      SameIdSameServer(servers, s, t);
    }
  }

  lemma FewerPorts(servers: seq<Server>, before: ActiveConfigs, after: ActiveConfigs)
    requires PortsDisjoint(servers, before)
    requires forall t, port | t in servers && HoldsPort(t, after, port) :: HoldsPort(t, before, port)
    ensures PortsDisjoint(servers, after)
  {
  }

  lemma StartKeeps(w: World, id: string)
    requires Inv(w)
    ensures Inv(Next(w, Start(id)))
  {
    var servers, i := w.data.servers, ServerAt(w.data.servers, id);
    if i < |servers| && id !in w.running && !(w.pending.Some? && w.pending.value.target == Some(id)) {
      var s := servers[i];
      assert s in servers;
      var now := w.running[id := LaunchOf(s)];
      LaunchHoldsNothingNew(servers, w.running, s);
      FewerPorts(servers, w.running, now);
      ReservedMonotone(servers, now, w.running, "");
      if w.pending.Some? {
        StartIsHarmless(w, w.pending.value, s);
      }
      assert Resources(w.(running := now));
    }
  }

  lemma StartIsHarmless(w: World, p: Pending, s: Server)
    requires UniqueIds(w.data.servers) && Harmless(w, p) && s in w.data.servers && p.target != Some(s.id)
    ensures Harmless(w.(running := w.running[s.id := LaunchOf(s)]), p)
  {
  }

  lemma ExitKeeps(w: World, id: string)
    requires Inv(w)
    ensures Inv(Next(w, Exit(id)))
  {
    StoppedKeeps(w, w.running - {id});
  }

  lemma ReadIsHarmless(w: World, p: Pending, id: string)
    requires Harmless(w, p)
    ensures Harmless(w, p.(read := p.read + {id},
                           active := if id in w.running then p.active[id := w.running[id]] else p.active - {id}))
  {
  }

  // A step that concerns the mutation in flight only.
  lemma PendingOnly(w: World, p: Option<Pending>)
    requires Inv(w) && (p.Some? ==> Harmless(w, p.value))
    ensures Inv(w.(pending := p))
  {
  }

  lemma ReadActiveKeeps(w: World, id: string)
    requires Inv(w)
    ensures Inv(Next(w, ReadActive(id)))
  {
    if w.pending.Some? {
      var p := w.pending.value;
      ReadIsHarmless(w, p, id);
      PendingOnly(w, Some(p.(read := p.read + {id},
                             active := if id in w.running then p.active[id := w.running[id]] else p.active - {id})));
    }
  }

  // A step that concerns backup metadata only.
  lemma BackupsOnly(w: World, backups: seq<StoredBackup>, used: set<string>)
    requires Inv(w) && BackupIdsOk(w.(data := w.data.(backups := backups), usedBackups := used))
    ensures Inv(w.(data := w.data.(backups := backups), usedBackups := used))
  {
  }

  lemma CommitBackupKeeps(w: World, server: string, backup: string)
    requires Inv(w)
    ensures Inv(Next(w, CommitBackup(server, backup)))
  {
    if server in w.usedServers && backup !in w.usedBackups && ValidId(backup) {
      BackupsOnly(w, w.data.backups + [StoredBackup(backup, server)], w.usedBackups + {backup});
    }
  }

  lemma RemoveBackupKeeps(w: World, backup: string)
    requires Inv(w)
    ensures Inv(Next(w, RemoveBackup(backup)))
  {
    DropBackupsKeeps(w.data.backups, backup);
    BackupsOnly(w, DropBackup(w.data.backups, backup), w.usedBackups);
  }

  // With processes gone, ports and heaps are only freed.
  lemma StoppedKeeps(w: World, running: ActiveConfigs)
    requires Resources(w) && running.Keys <= w.running.Keys
    requires forall id | id in running :: running[id] == w.running[id]
    ensures PortsDisjoint(w.data.servers, running)
    ensures Reserved(w.data.servers, running) <= w.budget
  {
    assert forall t, port | t in w.data.servers && HoldsPort(t, running, port) :: HoldsPort(t, w.running, port);
    ReservedMonotone(w.data.servers, running, w.running, "");
  }

  lemma RebootKeeps(w: World)
    requires Inv(w)
    ensures Inv(Next(w, Reboot))
  {
    KeepBackupsUnique(w.data.backups, Ids(w.data.servers));
    StoppedKeeps(w, map[]);
    assert BackupIdsOk(Next(w, Reboot));
  }

  /** Every step keeps the invariant. */
  lemma StepKeeps(w: World, step: Step)
    requires Inv(w)
    ensures Inv(Next(w, step))
  {
    match step
    case Setup(username, hash) => SetupKeeps(w, username, hash);
    case AddUser(username, hash, admin, granted) => AddUserKeeps(w, username, hash, admin, granted);
    case EditUser(username, hash, admin, granted) => EditUserKeeps(w, username, hash, admin, granted);
    case RemoveUser(requester, username) => RemoveUserKeeps(w, requester, username);
    case BeginCreate =>
    case BeginUpdate(id) =>
    case ReadActive(id) => ReadActiveKeeps(w, id);
    case CommitCreate(record) => CommitCreateKeeps(w, record);
    case CommitUpdate(patch) => CommitUpdateKeeps(w, patch);
    case Abandon =>
    case DeleteServer(id) => DeleteServerKeeps(w, id);
    case Bind(id, b) => BindKeeps(w, id, b);
    case PatchStorage(u) => PatchStorageKeeps(w, u);
    case PatchPolicy(id, inherit, u) => PatchPolicyKeeps(w, id, inherit, u);
    case Start(id) => StartKeeps(w, id);
    case Exit(id) => ExitKeeps(w, id);
    case CommitBackup(server, backup) => CommitBackupKeeps(w, server, backup);
    case RemoveBackup(backup) => RemoveBackupKeeps(w, backup);
    case Reboot => RebootKeeps(w);
  }

  /* ----- runs ----- */

  lemma StepKeepsBudget(w: World, step: Step)
    ensures Next(w, step).budget == w.budget
  {
  }

  lemma {:induction false} RunKeepsBudget(w: World, steps: seq<Step>)
    ensures Run(w, steps).budget == w.budget
  {
    if steps != [] {
      RunKeepsBudget(w, steps[..|steps| - 1]);
      StepKeepsBudget(Run(w, steps[..|steps| - 1]), steps[|steps| - 1]);
    }
  }

  lemma {:induction false} RunKeeps(w: World, steps: seq<Step>)
    requires Inv(w)
    ensures Inv(Run(w, steps))
  {
    if steps != [] {
      var before, step := Run(w, steps[..|steps| - 1]), steps[|steps| - 1];
      RunKeeps(w, steps[..|steps| - 1]);
      StepKeeps(before, step);
      var after := Next(before, step);
      assert Run(w, steps) == after;
    }
  }

  /** Binding and unbinding change that one field of that one record. */
  lemma BindTakesEffect(w: World, id: string, b: Option<Binding>)
    requires w.pending.None? && ValidBinding(b) && ServerAt(w.data.servers, id) < |w.data.servers|
    requires b.Some? ==> b.value.localPort == w.data.servers[ServerAt(w.data.servers, id)].config.port
    ensures var i, after := ServerAt(w.data.servers, id), Next(w, Bind(id, b));
            && |after.data.servers| == |w.data.servers| && after.data.servers[i].binding == b
            && after.data.servers[i] == w.data.servers[i].(binding := b)
            && (forall j | 0 <= j < |w.data.servers| && j != i :: after.data.servers[j] == w.data.servers[j])
            && after == w.(data := w.data.(servers := after.data.servers))
  {
  }

  /** A process can start, on the stored configuration, at any time at which its
      own server is not being changed. */
  lemma StartTakesEffect(w: World, id: string, i: nat)
    requires i == ServerAt(w.data.servers, id) < |w.data.servers| && id !in w.running
    requires w.pending.Some? ==> w.pending.value.target != Some(id)
    ensures Next(w, Start(id))
            == w.(running := w.running[id := Launch(w.data.servers[i].config.heap, w.data.servers[i].config.port)])
  {
  }

  // A stop of the panel ends all processes and every mutation.
  lemma RebootTakesEffect(w: World)
    ensures Next(w, Reboot).running == map[] && Next(w, Reboot).pending.None?
    ensures forall b :: b in Next(w, Reboot).data.backups <==>
                        b in w.data.backups && b.server in Ids(w.data.servers)
  {
  }

  /** Metadata can be committed late, when its server is already gone, and
      removed at any time. */
  lemma BackupsTakeEffect(w: World, server: string, backup: string)
    requires server in w.usedServers && backup !in w.usedBackups && ValidId(backup)
    ensures Next(w, CommitBackup(server, backup)).data.backups == w.data.backups + [StoredBackup(backup, server)]
    ensures forall b :: b in Next(w, RemoveBackup(backup)).data.backups <==> b in w.data.backups && b.id != backup
  {
  }

  // Neither stored nor running does one server have the port of another.
  ghost predicate NoPortTwice(servers: seq<Server>, running: ActiveConfigs) {
    forall s, t | s in servers && t in servers && s.id != t.id :: PortsDiffer(s, t, running)
  }

  ghost predicate PortsDiffer(s: Server, t: Server, running: ActiveConfigs) {
    && s.config.port != t.config.port
    && (t.id in running ==> s.config.port != running[t.id].port)
    && (s.id in running && t.id in running ==> running[s.id].port != running[t.id].port)
  }

  lemma HeldPortsDiffer(s: Server, t: Server, servers: seq<Server>, running: ActiveConfigs)
    requires PortsDisjoint(servers, running) && s in servers && t in servers && s.id != t.id
    ensures PortsDiffer(s, t, running)
  {
    assert HoldsPort(s, running, s.config.port);
    assert s.id in running ==> HoldsPort(s, running, running[s.id].port);
  }

  lemma ResourcesSpelledOut(w: World)
    requires Resources(w)
    ensures NoPortTwice(w.data.servers, w.running)
    ensures HeapInUse(Claims(w.data.servers), w.running) <= w.budget
  {
    ReservedIsTheTotal(w.data.servers, w.running);
    forall s, t | s in w.data.servers && t in w.data.servers && s.id != t.id
      ensures PortsDiffer(s, t, w.running)
    {
      HeldPortsDiffer(s, t, w.data.servers, w.running);
    }
  }

  /** After any run from a fresh installation no two servers hold one port,
      stored or running, and the heaps fit the budget, although every mutation
      decides on configurations read before it commits. */
  lemma RunsShareNoPortAndFitTheBudget(budget: nat, steps: seq<Step>)
    ensures var w := Run(FreshWorld(budget), steps);
            && NoPortTwice(w.data.servers, w.running)
            && HeapInUse(Claims(w.data.servers), w.running) <= budget
  {
    FreshWorldOk(budget);
    RunKeeps(FreshWorld(budget), steps);
    RunKeepsBudget(FreshWorld(budget), steps);
    ResourcesSpelledOut(Run(FreshWorld(budget), steps));
  }

  /** In any run a tunnel leads to the port its server is configured for, on this
      machine: attach and heal bind that port, and an update refuses to move it away. */
  lemma RunsKeepBindingPorts(budget: nat, steps: seq<Step>)
    ensures forall s | s in Run(FreshWorld(budget), steps).data.servers && s.binding.Some? ::
              && s.binding.value.localPort == s.config.port != 0
              && (s.binding.value.localAddress == "127.0.0.1" || s.binding.value.localAddress == "::1")
  {
    FreshWorldOk(budget);
    RunKeeps(FreshWorld(budget), steps);
  }

  /** A document left by any run, whenever the panel stops, passes the bootstrap
      check under the same limits once orphaned backup metadata is removed. */
  lemma RunsBootAgain(budget: nat, steps: seq<Step>)
    ensures PersistedOk(CleanupOrphans(Run(FreshWorld(budget), steps).data), budget)
  {
    FreshWorldOk(budget);
    RunKeeps(FreshWorld(budget), steps);
    RunKeepsBudget(FreshWorld(budget), steps);
    var d := Run(FreshWorld(budget), steps).data;
    KeepBackupsUnique(d.backups, Ids(d.servers));
  }

  // Removing the orphans first is needed exactly when a server is gone.
  lemma BootWithoutCleanup(w: World)
    requires Inv(w)
    ensures PersistedOk(w.data, w.budget) <==> forall b | b in w.data.backups :: b.server in Ids(w.data.servers)
  {
  }

  /* ----- accounts ----- */

  lemma OtherStepsKeepAccounts(w: World, step: Step)
    requires w.data.users != [] && !step.EditUser? && !step.RemoveUser?
    ensures Next(w, step).data.users != []
  {
  }

  lemma AccountsStay(w: World, step: Step)
    requires Inv(w) && w.data.users != []
    ensures Next(w, step).data.users != []
  {
    if step.EditUser? {
      EditUserKeeps(w, step.username, step.newHash, step.newAdmin, step.newGrant);
    } else if step.RemoveUser? {
      RemoveUserKeeps(w, step.requester, step.username);
    } else {
      OtherStepsKeepAccounts(w, step);
    }
  }

  predicate SetupSucceeds(w: World, step: Step) {
    step.Setup? && ValidateName(step.username).Some? && w.data.users == []
  }

  // How many setup requests of a run were granted.
  function SetupCount(w: World, steps: seq<Step>): nat {
    if steps == [] then
      0
    else
      SetupCount(w, steps[..|steps| - 1])
      + (if SetupSucceeds(Run(w, steps[..|steps| - 1]), steps[|steps| - 1]) then 1 else 0)
  }

  /** Setup is granted at most once in any run; once it was, or once any account
      exists, there is an administrator for the rest of the run. */
  lemma {:induction false} SetupOnceAndAdminForever(w: World, steps: seq<Step>)
    requires Inv(w)
    ensures SetupCount(w, steps) <= 1
    ensures SetupCount(w, steps) == 1 || w.data.users != [] ==> HasAdmin(Run(w, steps).data.users)
  {
    RunKeeps(w, steps);
    if steps != [] {
      var past, step := steps[..|steps| - 1], steps[|steps| - 1];
      SetupOnceAndAdminForever(w, past);
      RunKeeps(w, past);
      if Run(w, past).data.users != [] {
        AccountsStay(Run(w, past), step);
      }
    }
  }
}
