// The handlers' transactions on the panel document (src/api/servers.rs,
// src/api/users.rs, src/api/setup.rs): each works on a copy of the document and
// the store adopts the copy only when the transaction succeeds.
module Panel {
  import opened Options
  import opened Properties
  import opened Settings
  import opened PanelData

  datatype ApiError = BadRequest | NotFound | Conflict | Forbidden
  datatype Result<+T> = Ok(value: T) | Err(error: ApiError)

  // What a live process was launched with.
  datatype Launch = Launch(heap: nat, port: nat)

  type ActiveConfigs = map<string, Launch>

  function LaunchOf(s: Server): Launch {
    Launch(s.config.heap, s.config.port)
  }

  /* ----- names, permissions and lookups ----- */

  // validate_name and validate_username.
  function ValidateName(input: string): Option<string> {
    var name := Trim(input);
    if name == "" || ByteLen(name) > 128 || HasControl(name) then None else Some(name)
  }

  /** A name is accepted without the blanks around it, if one line of at most 128
      bytes is left. */
  lemma AcceptedName(input: string)
    ensures LabelLimits(Trim(input)) ==> ValidateName(input) == Some(Trim(input))
    ensures !LabelLimits(Trim(input)) ==> ValidateName(input) == None
  {
    ControlCharacters();
    TrimTwice(input);
  }

  lemma ValidatedNameIsValid(input: string)
    ensures ValidateName(input).Some? ==> ValidName(ValidateName(input).value)
  {
    TrimTwice(input);
  }

  predicate GrantOk(granted: seq<string>, servers: seq<Server>) {
    && |granted| <= MAX_PERMISSIONS && !Repeats(granted)
    && forall id | id in granted :: id in Ids(servers) && ByteLen(id) <= 128 && !HasControl(id)
  }

  /** validate_server_ids accepts exactly short lists of distinct known ids. */
  method ValidateServerIds(granted: seq<string>, available: seq<Server>) returns (ok: bool)
    ensures ok <==> GrantOk(granted, available)
  {
    if |granted| > MAX_PERMISSIONS {
      return false;
    }
    var unique: set<string> := {};
    for i := 0 to |granted|
      invariant unique == set j | 0 <= j < i :: granted[j]
      invariant forall j, k | 0 <= j < k < i :: granted[j] != granted[k]
      invariant forall j | 0 <= j < i :: granted[j] in Ids(available) && ByteLen(granted[j]) <= 128
                                              && !HasControl(granted[j])
    {
      assert granted[i] in granted;
      var known := false;
      for k := 0 to |available|
        invariant known <==> exists j :: 0 <= j < k && available[j].id == granted[i]
      {
        known := known || available[k].id == granted[i];
      }
      assert known <==> granted[i] in Ids(available) by {
        if known {
          var j :| 0 <= j < |available| && available[j].id == granted[i];
          assert available[j] in available;
        }
      }
      if ByteLen(granted[i]) > 128 || HasControl(granted[i]) || granted[i] in unique || !known {
        return false;
      }
      unique := unique + {granted[i]};
    }
    ok := true;
  }

  // Position of the first match, or the length.
  function UserAt(users: seq<User>, name: string): (i: nat)
    ensures i <= |users| && (i < |users| ==> users[i].name == name)
    ensures forall j | 0 <= j < i :: users[j].name != name
  {
    if users == [] || users[0].name == name then 0 else 1 + UserAt(users[1..], name)
  }

  function ServerAt(servers: seq<Server>, id: string): (i: nat)
    ensures i <= |servers| && (i < |servers| ==> servers[i].id == id)
    ensures forall j | 0 <= j < i :: servers[j].id != id
  {
    if servers == [] || servers[0].id == id then 0 else 1 + ServerAt(servers[1..], id)
  }

  function AdminCount(users: seq<User>): nat {
    if users == [] then 0
    else AdminCount(users[..|users| - 1]) + (if users[|users| - 1].admin then 1 else 0)
  }

  /* ----- ports and memory ----- */

  // A server holds its stored port and the port its process was launched with.
  predicate HoldsPort(s: Server, active: ActiveConfigs, port: nat) {
    s.config.port == port || (s.id in active && active[s.id].port == port)
  }

  predicate PortIsTaken(servers: seq<Server>, active: ActiveConfigs, port: nat, excluding: Option<string>) {
    exists s :: s in servers && excluding != Some(s.id) && HoldsPort(s, active, port)
  }

  // The heap a server occupies: the larger of stored and running.
  function ReservedHeap(id: string, configured: nat, active: ActiveConfigs): nat {
    if id in active && active[id].heap > configured then active[id].heap else configured
  }

  function Reserved(servers: seq<Server>, active: ActiveConfigs): nat {
    if servers == [] then 0
    else Reserved(servers[..|servers| - 1], active)
         + ReservedHeap(servers[|servers| - 1].id, servers[|servers| - 1].config.heap, active)
  }

  function ReservedExcept(servers: seq<Server>, active: ActiveConfigs, id: string): nat {
    if servers == [] then 0
    else ReservedExcept(servers[..|servers| - 1], active, id)
         + (var s := servers[|servers| - 1]; if s.id == id then 0 else ReservedHeap(s.id, s.config.heap, active))
  }

  // The heap demand that validate_aggregate_memory compares with the budget.
  function Demand(servers: seq<Server>, active: ActiveConfigs, replacing: Option<(string, nat)>,
                  additional: Option<nat>): nat {
    (match replacing
     case None => Reserved(servers, active)
     case Some(r) => ReservedExcept(servers, active, r.0) + ReservedHeap(r.0, r.1, active))
    + (if additional.Some? then additional.value else 0)
  }

  /* ----- the same sum, server by server ----- */

  // What a server claims: its id and its configured heap.
  type Claim = (string, nat)

  function Claims(servers: seq<Server>): (claims: seq<Claim>)
    ensures |claims| == |servers|
    ensures forall i | 0 <= i < |servers| :: claims[i] == (servers[i].id, servers[i].config.heap)
  {
    seq(|servers|, i requires 0 <= i < |servers| => (servers[i].id, servers[i].config.heap))
  }

  /** What each claimant occupies: at least what it is configured for, at least
      what its process was launched with, and one of the two. */
  function PeakHeaps(claims: seq<Claim>, active: ActiveConfigs): (heaps: seq<nat>)
    ensures |heaps| == |claims|
    ensures forall i | 0 <= i < |claims| ::
              && claims[i].1 <= heaps[i] && (claims[i].0 in active ==> active[claims[i].0].heap <= heaps[i])
              && (heaps[i] == claims[i].1 || (claims[i].0 in active && heaps[i] == active[claims[i].0].heap))
  {
    if claims == [] then
      []
    else
      var last := claims[|claims| - 1];
      PeakHeaps(claims[..|claims| - 1], active) + [ReservedHeap(last.0, last.1, active)]
  }

  function Total(heaps: seq<nat>): nat {
    if heaps == [] then 0 else Total(heaps[..|heaps| - 1]) + heaps[|heaps| - 1]
  }

  // The heap in use, by running processes or as configured, whichever is more.
  function HeapInUse(claims: seq<Claim>, active: ActiveConfigs): nat {
    Total(PeakHeaps(claims, active))
  }

  // All claims, or one server's claim exchanged for another.
  function ClaimsWith(servers: seq<Server>, replacing: Option<Claim>): seq<Claim> {
    if replacing.None? then Claims(servers) else Claims(DropServer(servers, replacing.value.0)) + [replacing.value]
  }

  lemma {:induction false} ReservedIsTheTotal(servers: seq<Server>, active: ActiveConfigs)
    ensures Reserved(servers, active) == Total(PeakHeaps(Claims(servers), active))
  {
    if servers != [] {
      var n := |servers| - 1;
      ReservedIsTheTotal(servers[..n], active);
      assert Claims(servers)[..n] == Claims(servers[..n]);
      var heaps := PeakHeaps(Claims(servers), active);
      assert heaps[..n] == PeakHeaps(Claims(servers[..n]), active);
    }
  }

  lemma {:induction false} ReservedExceptIsTheRest(servers: seq<Server>, active: ActiveConfigs, id: string)
    ensures ReservedExcept(servers, active, id) == Reserved(DropServer(servers, id), active)
  {
    if servers != [] {
      var init, last := servers[..|servers| - 1], servers[|servers| - 1];
      ReservedExceptIsTheRest(init, active, id);
      var rest := DropServer(init, id);
      if last.id != id {
        assert (rest + [last])[..|rest|] == rest;
      } else {
        assert rest + [] == rest;
      }
    }
  }

  /** The demand is the sum of what the claimants occupy, and what is added. */
  lemma DemandIsTheTotal(servers: seq<Server>, active: ActiveConfigs, replacing: Option<Claim>, additional: Option<nat>)
    ensures Demand(servers, active, replacing, additional)
            == HeapInUse(ClaimsWith(servers, replacing), active)
               + (if additional.Some? then additional.value else 0)
  {
    ReservedIsTheTotal(servers, active);
    if replacing.Some? {
      var rest := DropServer(servers, replacing.value.0);
      ReservedExceptIsTheRest(servers, active, replacing.value.0);
      ReservedIsTheTotal(rest, active);
      var claims := Claims(rest) + [replacing.value];
      assert claims[..|rest|] == Claims(rest);
      var heaps := PeakHeaps(claims, active);
      assert heaps[..|rest|] == PeakHeaps(Claims(rest), active);
    }
  }

  lemma {:induction false} PartialDemand(servers: seq<Server>, active: ActiveConfigs, id: string, k: nat)
    requires k <= |servers|
    ensures Reserved(servers[..k], active) <= Reserved(servers, active)
    ensures ReservedExcept(servers[..k], active, id) <= ReservedExcept(servers, active, id)
  {
    if k < |servers| {
      PartialDemand(servers[..|servers| - 1], active, id, k);
      assert servers[..|servers| - 1][..k] == servers[..k];
    } else {
      assert servers[..k] == servers;
    }
  }

  /** validate_aggregate_memory accepts exactly when what every server would
      occupy, and what is added, fits. */
  method ValidateAggregateMemory(servers: seq<Server>, active: ActiveConfigs, replacing: Option<Claim>,
                                 additional: Option<nat>, max: nat)
    returns (ok: bool)
    requires max <= U64_MAX
    ensures ok <==> HeapInUse(ClaimsWith(servers, replacing), active)
                    + (if additional.Some? then additional.value else 0) <= max
    ensures ok <==> Demand(servers, active, replacing, additional) <= max
  {
    DemandIsTheTotal(servers, active, replacing, additional);
    ok := FitsDemand(servers, active, replacing, additional, max);
  }

  // The loop, with every addition checked.
  method FitsDemand(servers: seq<Server>, active: ActiveConfigs, replacing: Option<(string, nat)>,
                                 additional: Option<nat>, max: nat)
    returns (ok: bool)
    requires max <= U64_MAX
    ensures ok <==> Demand(servers, active, replacing, additional) <= max
  {
    var total: u64 := 0;
    for i := 0 to |servers|
      invariant total == if replacing.None? then Reserved(servers[..i], active)
                         else ReservedExcept(servers[..i], active, replacing.value.0)
    {
      assert servers[..i + 1][..i] == servers[..i];
      var s := servers[i];
      if replacing.Some? && replacing.value.0 == s.id {
        continue;
      }
      PartialDemand(servers, active, if replacing.Some? then replacing.value.0 else "", i + 1);
      if total + ReservedHeap(s.id, s.config.heap, active) > U64_MAX {
        return false;
      }
      total := total + ReservedHeap(s.id, s.config.heap, active);
    }
    assert servers[..|servers|] == servers;
    if replacing.Some? {
      if total + ReservedHeap(replacing.value.0, replacing.value.1, active) > U64_MAX {
        return false;
      }
      total := total + ReservedHeap(replacing.value.0, replacing.value.1, active);
    }
    if additional.Some? {
      if total + additional.value > U64_MAX {
        return false;
      }
      total := total + additional.value;
    }
    ok := total <= max;
  }

  /* ----- the transactions as functions of the document ----- */

  function SetupTx(d: Document, name: string, hash: string): Result<Document> {
    if d.users != [] then Err(Forbidden) else Ok(d.(users := d.users + [User(name, hash, true, [])]))
  }

  function CreateUserTx(d: Document, user: User): Result<Document> {
    if UserAt(d.users, user.name) < |d.users| then Err(Conflict)
    else if !GrantOk(user.servers, d.servers) then Err(BadRequest)
    else Ok(d.(users := d.users + [user]))
  }

  function Revised(u: User, hash: Option<string>, admin: Option<bool>, servers: Option<seq<string>>): User {
    User(u.name,
         if hash.Some? then hash.value else u.hash,
         if admin.Some? then admin.value else u.admin,
         if servers.Some? then servers.value else u.servers)
  }

  function UpdateUserTx(d: Document, name: string, hash: Option<string>, admin: Option<bool>,
                        servers: Option<seq<string>>)
    : Result<Document>
  {
    var i := UserAt(d.users, name);
    if i == |d.users| then Err(NotFound)
    else if servers.Some? && !GrantOk(servers.value, d.servers) then Err(BadRequest)
    else if admin == Some(false) && d.users[i].admin && AdminCount(d.users) == 1 then Err(BadRequest)
    else Ok(d.(users := d.users[i := Revised(d.users[i], hash, admin, servers)]))
  }

  function DeleteUserTx(d: Document, requester: string, name: string): Result<Document> {
    var i := UserAt(d.users, name);
    if name == requester then Err(BadRequest)
    else if i == |d.users| then Err(NotFound)
    else if d.users[i].admin && AdminCount(d.users) == 1 then Err(BadRequest)
    else Ok(d.(users := d.users[..i] + d.users[i + 1..]))
  }

  datatype Memory = Memory(minHeap: nat, heap: nat)

  // Fields of a PATCH request; absent fields stay as they are.
  datatype Patch = Patch(name: Option<string>, core: Option<string>, version: Option<string>,
                         build: Option<Option<string>>,
                         javaMajor: Option<nat>, memory: Option<Memory>, port: Option<nat>,
                         jvmArgs: Option<seq<string>>, serverArgs: Option<seq<string>>,
                         supervision: Option<Supervision>)

  function OrElse<T>(change: Option<T>, current: T): T {
    if change.Some? then change.value else current
  }

  function RecordOk(s: Server, max: nat): bool {
    ValidConfig(s.config) && s.config.heap <= max && ValidSupervision(s.supervision)
  }

  /** The handlers demand of a record just what bootstrap demands beyond its id,
      its name and its tunnel. */
  lemma RecordOkIsWhatBootDemands(s: Server, max: nat)
    ensures ServerOk(s, max) <==> RecordOk(s, max) && ValidId(s.id) && ValidName(s.name) && ValidBinding(s.binding)
  {
  }

  // The body of POST /api/servers, with the fresh id it is given.
  function NewServer(id: string, name: string, config: Config): Server {
    Server(id, name, config.(jvmArgs := [], serverArgs := ["nogui"]), DEFAULT_SUPERVISION, None, None)
  }

  /** A new server runs without a window and with the default supervision, bound
      to no tunnel; everything else is as asked for. */
  lemma NewServerFields(id: string, name: string, config: Config)
    ensures var s := NewServer(id, name, config);
            && s.id == id && s.name == name && s.binding.None? && s.backupPolicy.None?
            && s.config.core == config.core && s.config.version == config.version && s.config.build == config.build
            && s.config.javaMajor == config.javaMajor && s.config.port == config.port
            && s.config.minHeap == config.minHeap && s.config.heap == config.heap
            && s.config.jvmArgs == [] && s.config.serverArgs == ["nogui"]
            && s.supervision.autoRestart && s.supervision.maxRetries == 3 && s.supervision.retryDelay == 5
            && s.supervision.stopTimeout == 60 && s.supervision.consoleBuffer == 500
            && s.supervision.prepareTimeout == 900
  {
  }

  function CreateServerTx(d: Document, active: ActiveConfigs, record: Server, max: nat): Result<Document> {
    if PortIsTaken(d.servers, active, record.config.port, None) then Err(Conflict)
    else if Demand(d.servers, active, None, Some(record.config.heap)) > max then Err(Conflict)
    else Ok(d.(servers := d.servers + [record]))
  }

  function PatchedConfig(c: Config, patch: Patch): Config {
    var memory := OrElse(patch.memory, Memory(c.minHeap, c.heap));
    Config(OrElse(patch.core, c.core), OrElse(patch.version, c.version), OrElse(patch.build, c.build),
           OrElse(patch.javaMajor, c.javaMajor), memory.minHeap, memory.heap,
           OrElse(patch.jvmArgs, c.jvmArgs), OrElse(patch.serverArgs, c.serverArgs), OrElse(patch.port, c.port))
  }

  function Patched(s: Server, patch: Patch): Server {
    var name := if patch.name.Some? && ValidateName(patch.name.value).Some?
                then ValidateName(patch.name.value).value else s.name;
    s.(name := name,
       config := PatchedConfig(s.config, patch), supervision := OrElse(patch.supervision, s.supervision))
  }

  // Why a PATCH that makes `next` of a record is refused, in the order of the checks.
  function PatchRefusal(servers: seq<Server>, active: ActiveConfigs, next: Server, patch: Patch, max: nat)
    : Option<ApiError>
  {
    if patch.name.Some? && ValidateName(patch.name.value).None? then Some(BadRequest)
    else if patch.port.Some? && PortIsTaken(servers, active, patch.port.value, Some(next.id)) then Some(Conflict)
    else if patch.port.Some? && next.binding.Some? && next.binding.value.localPort != patch.port.value
    then Some(Conflict)
    else if !RecordOk(next, max) then Some(BadRequest)
    else if Demand(servers, active, Some((next.id, next.config.heap)), None) > max then Some(Conflict)
    else None
  }

  function UpdateServerTx(d: Document, active: ActiveConfigs, id: string, patch: Patch, max: nat): Result<Document> {
    var i := ServerAt(d.servers, id);
    if i == |d.servers| then Err(NotFound)
    else
      var next := Patched(d.servers[i], patch);
      var refusal := PatchRefusal(d.servers, active, next, patch, max);
      if refusal.Some? then Err(refusal.value) else Ok(d.(servers := d.servers[i := next]))
  }

  function DropId(ids: seq<string>, id: string): (r: seq<string>)
    ensures forall x :: x in r <==> x in ids && x != id
  {
    if ids == [] then
      []
    else
      assert ids == [ids[0]] + ids[1..];
      (if ids[0] != id then [ids[0]] else []) + DropId(ids[1..], id)
  }

  function DropServer(servers: seq<Server>, id: string): (r: seq<Server>)
    ensures forall s :: s in r <==> s in servers && s.id != id
  {
    if servers == [] then
      []
    else
      var init, last := servers[..|servers| - 1], servers[|servers| - 1];
      assert servers == init + [last];
      DropServer(init, id) + (if last.id != id then [last] else [])
  }

  function DropBackupsOf(backups: seq<StoredBackup>, id: string): (r: seq<StoredBackup>)
    ensures forall b :: b in r <==> b in backups && b.server != id
  {
    if backups == [] then
      []
    else
      assert backups == [backups[0]] + backups[1..];
      (if backups[0].server != id then [backups[0]] else []) + DropBackupsOf(backups[1..], id)
  }

  function Revoke(users: seq<User>, id: string): (r: seq<User>)
    ensures |r| == |users|
    ensures forall i | 0 <= i < |users| :: r[i] == users[i].(servers := DropId(users[i].servers, id))
  {
    if users == [] then
      []
    else
      Revoke(users[..|users| - 1], id)
      + [users[|users| - 1].(servers := DropId(users[|users| - 1].servers, id))]
  }

  // The record, every permission that names it, and its backup metadata go.
  function DeleteServerTx(d: Document, id: string): Document {
    Document(Revoke(d.users, id), DropServer(d.servers, id), DropBackupsOf(d.backups, id), d.storage)
  }

  // PATCH of the global backup settings: always local.
  function PatchStorageTx(d: Document, u: PolicyUpdate): Result<Document> {
    if u.provider.Some? && u.provider.value != Local then Err(BadRequest)
    else if UpdatedPolicy(d.storage, u).None? then Err(BadRequest)
    else Ok(d.(storage := UpdatedPolicy(d.storage, u).value))
  }

  // PATCH of one server's override, or a return to the global settings.
  function PatchPolicyTx(d: Document, id: string, inherit: bool, u: PolicyUpdate): Result<Document> {
    var i := ServerAt(d.servers, id);
    if u.retention.Some? && !ValidRetention(u.retention.value) then Err(BadRequest)
    else if i == |d.servers| then Err(NotFound)
    else if inherit then Ok(d.(servers := d.servers[i := d.servers[i].(backupPolicy := None)]))
    else
      var next := UpdatedPolicy(OrElse(d.servers[i].backupPolicy, DEFAULT_POLICY), u);
      if next.None? then Err(BadRequest)
      else Ok(d.(servers := d.servers[i := d.servers[i].(backupPolicy := next)]))
  }

  /** The global settings stay local; a server can have its own, or go back to
      the global ones. A refusal says what was wrong. */
  lemma BackupSettings(d: Document, id: string, inherit: bool, u: PolicyUpdate)
    ensures PatchStorageTx(d, u).Ok? <==> u.provider != Some(GoogleDrive) && UpdatedPolicy(d.storage, u).Some?
    ensures PatchStorageTx(d, u).Ok? ==>
              && PatchStorageTx(d, u).value.storage == UpdatedPolicy(d.storage, u).value
              && PatchStorageTx(d, u).value == d.(storage := PatchStorageTx(d, u).value.storage)
    ensures var i, r := ServerAt(d.servers, id), PatchPolicyTx(d, id, inherit, u);
            && (r == Err(NotFound) <==> (u.retention.None? || ValidRetention(u.retention.value)) && i == |d.servers|)
            && (r.Ok? <==> && (u.retention.None? || ValidRetention(u.retention.value)) && i < |d.servers|
                           && (inherit || UpdatedPolicy(OrElse(d.servers[i].backupPolicy, DEFAULT_POLICY), u).Some?))
            && (r.Ok? ==>
                  && r.value == d.(servers := d.servers[i := r.value.servers[i]])
                  && r.value.servers[i] == d.servers[i].(backupPolicy := r.value.servers[i].backupPolicy)
                  && (inherit ==> r.value.servers[i].backupPolicy.None?)
                  && (!inherit ==> r.value.servers[i].backupPolicy
                                   == UpdatedPolicy(OrElse(d.servers[i].backupPolicy, DEFAULT_POLICY), u)))
  {
  }

  /* ----- what a PATCH means ----- */

  // Nobody else is an administrator.
  ghost predicate OnlyAdmin(users: seq<User>, i: nat)
    requires i < |users|
  {
    users[i].admin && forall j | 0 <= j < |users| && j != i :: !users[j].admin
  }

  lemma {:induction false} NoAdmins(users: seq<User>)
    ensures AdminCount(users) == 0 <==> forall j | 0 <= j < |users| :: !users[j].admin
  {
    if users != [] {
      NoAdmins(users[..|users| - 1]);
      assert forall j | 0 <= j < |users| - 1 :: users[..|users| - 1][j] == users[j];
    }
  }

  /** The count that guards demotion and deletion says exactly that an
      administrator is the only one. */
  lemma {:induction false} CountIsOneForTheOnlyAdmin(users: seq<User>, i: nat)
    requires i < |users| && users[i].admin
    ensures AdminCount(users) == 1 <==> OnlyAdmin(users, i)
  {
    var n := |users| - 1;
    var init := users[..n];
    assert forall j | 0 <= j < n :: init[j] == users[j];
    NoAdmins(init);
    if i < n {
      CountIsOneForTheOnlyAdmin(init, i);
      if users[n].admin {
        assert AdminCount(init) != 0;
      }
    }
  }

  /** A PATCH puts each field it gives into the field of that name, and keeps
      every field it does not give. */
  lemma PatchedFields(s: Server, patch: Patch)
    ensures var c, p := s.config, Patched(s, patch).config;
            && (patch.core.Some? ==> p.core == patch.core.value) && (patch.core.None? ==> p.core == c.core)
            && (patch.version.Some? ==> p.version == patch.version.value)
            && (patch.version.None? ==> p.version == c.version)
            && (patch.build.Some? ==> p.build == patch.build.value) && (patch.build.None? ==> p.build == c.build)
            && (patch.javaMajor.Some? ==> p.javaMajor == patch.javaMajor.value)
            && (patch.javaMajor.None? ==> p.javaMajor == c.javaMajor)
            && (patch.memory.Some? ==> p.minHeap == patch.memory.value.minHeap && p.heap == patch.memory.value.heap)
            && (patch.memory.None? ==> p.minHeap == c.minHeap && p.heap == c.heap)
            && (patch.port.Some? ==> p.port == patch.port.value) && (patch.port.None? ==> p.port == c.port)
            && (patch.jvmArgs.Some? ==> p.jvmArgs == patch.jvmArgs.value)
            && (patch.jvmArgs.None? ==> p.jvmArgs == c.jvmArgs)
            && (patch.serverArgs.Some? ==> p.serverArgs == patch.serverArgs.value)
            && (patch.serverArgs.None? ==> p.serverArgs == c.serverArgs)
    ensures patch.name.None? ==> Patched(s, patch).name == s.name
    ensures patch.name.Some? && ValidateName(patch.name.value).Some? ==>
              Patched(s, patch).name == Trim(patch.name.value)
    ensures patch.supervision.Some? ==> Patched(s, patch).supervision == patch.supervision.value
    ensures patch.supervision.None? ==> Patched(s, patch).supervision == s.supervision
    ensures Patched(s, patch).id == s.id && Patched(s, patch).binding == s.binding
    ensures Patched(s, patch).backupPolicy == s.backupPolicy
  {
  }

  lemma PatchedTwice(s: Server, patch: Patch)
    ensures Patched(Patched(s, patch), patch) == Patched(s, patch)
    ensures Patched(s, patch).id == s.id && Patched(s, patch).binding == s.binding
    ensures Patched(s, patch).backupPolicy == s.backupPolicy
  {
  }

  lemma {:induction false} DemandOfOthers(servers: seq<Server>, active: ActiveConfigs, i: nat, next: Server)
    requires i < |servers| && next.id == servers[i].id
    ensures ReservedExcept(servers[i := next], active, next.id) == ReservedExcept(servers, active, next.id)
  {
    var n := |servers| - 1;
    if i < n {
      assert servers[i := next][..n] == servers[..n][i := next];
      DemandOfOthers(servers[..n], active, i, next);
    } else {
      assert servers[i := next][..n] == servers[..n];
    }
  }

  lemma ReplacedAt(servers: seq<Server>, id: string, next: Server)
    requires ServerAt(servers, id) < |servers| && next.id == id
    ensures ServerAt(servers[ServerAt(servers, id) := next], id) == ServerAt(servers, id)
    ensures forall active, port | !PortIsTaken(servers, active, port, Some(id)) ::
              !PortIsTaken(servers[ServerAt(servers, id) := next], active, port, Some(id))
  {
    var i := ServerAt(servers, id);
    var replaced := servers[i := next];
    assert replaced[i].id == id && forall j | 0 <= j < i :: replaced[j] == servers[j];
    forall s | s in replaced && s.id != id
      ensures s in servers
    {
      var k :| 0 <= k < |replaced| && replaced[k] == s;
      assert s == servers[k];
    }
  }

  /** A PATCH that was accepted can be sent again: it is accepted again, and
      changes nothing more. */
  lemma UpdateIsIdempotent(d: Document, active: ActiveConfigs, id: string, patch: Patch, max: nat)
    requires UpdateServerTx(d, active, id, patch, max).Ok?
    ensures var once := UpdateServerTx(d, active, id, patch, max).value;
            UpdateServerTx(once, active, id, patch, max) == Ok(once)
  {
    var i := ServerAt(d.servers, id);
    var next := Patched(d.servers[i], patch);
    PatchedTwice(d.servers[i], patch);
    ReplacedAt(d.servers, id, next);
    DemandOfOthers(d.servers, active, i, next);
    assert d.servers[i := next][i := next] == d.servers[i := next];
  }
}
