// The handlers as they change the panel in place (src/api/setup.rs,
// src/api/users.rs, src/api/servers.rs), while everything else goes on around
// them: each is a run of steps, so what holds in every run holds after it.
module Handlers {
  import opened Options
  import opened Properties
  import opened Settings
  import opened PanelData
  import opened Panel
  import opened PanelRuns

  // What can happen while a handler holds the server mutation lock.
  predicate Concurrent(step: Step) {
    step.Setup? || step.AddUser? || step.EditUser? || step.RemoveUser? || step.PatchStorage? || step.PatchPolicy?
    || step.Start? || step.Exit? || step.CommitBackup? || step.RemoveBackup?
  }

  /** Only what takes the mutation lock itself has to wait, and a reboot ends the
      handler. */
  lemma WhatHasToWait(step: Step)
    ensures !Concurrent(step) <==>
            || step.BeginCreate? || step.BeginUpdate? || step.ReadActive? || step.CommitCreate? || step.CommitUpdate?
            || step.Abandon? || step.DeleteServer? || step.Bind? || step.Reboot?
  {
  }

  lemma PatchPolicyKeepsIds(d: Document, id: string, inherit: bool, u: PolicyUpdate)
    requires UniqueIds(d.servers) && PatchPolicyTx(d, id, inherit, u).Ok?
    ensures Ids(PatchPolicyTx(d, id, inherit, u).value.servers) == Ids(d.servers)
  {
    var i := ServerAt(d.servers, id);
    ReplacedElements(d.servers, i, PatchPolicyTx(d, id, inherit, u).value.servers[i]);
  }

  lemma ConcurrentKeepsServers(w: World, step: Step)
    requires UniqueIds(w.data.servers) && Concurrent(step)
    ensures Next(w, step).pending == w.pending && Next(w, step).usedServers == w.usedServers
    ensures Ids(Next(w, step).data.servers) == Ids(w.data.servers)
  {
    if step.PatchPolicy? {
      if PatchPolicyTx(w.data, step.id, step.inherit, step.update).Ok? {
        PatchPolicyKeepsIds(w.data, step.id, step.inherit, step.update);
      }
    } else {
      assert Next(w, step).data.servers == w.data.servers;
    }
  }

  /* ----- what a process has been through ----- */

  // The account has the name that was typed, once that is trimmed.
  predicate IsCalled(u: User, username: string) {
    Some(u.name) == ValidateName(username)
  }

  // The steps taken since the installation, and the world after each.
  datatype Log = Log(worlds: seq<World>, steps: seq<Step>)

  ghost predicate IsRun(log: Log, budget: nat, w: World) {
    && |log.worlds| == |log.steps| + 1
    && log.worlds[0] == FreshWorld(budget) && log.worlds[|log.steps|] == w
    && forall i {:trigger log.steps[i]} | 0 <= i < |log.steps| :: log.worlds[i + 1] == Next(log.worlds[i], log.steps[i])
  }

  ghost predicate Continues(before: Log, after: Log) {
    before.steps <= after.steps
  }

  function Then(log: Log, step: Step, after: World): Log {
    Log(log.worlds + [after], log.steps + [step])
  }

  lemma RunGoesOn(log: Log, budget: nat, w: World, step: Step)
    requires IsRun(log, budget, w)
    ensures IsRun(Then(log, step, Next(w, step)), budget, Next(w, step))
    ensures Continues(log, Then(log, step, Next(w, step)))
  {
    var longer := Then(log, step, Next(w, step));
    forall i {:trigger longer.steps[i]} | 0 <= i < |longer.steps|
      ensures longer.worlds[i + 1] == Next(longer.worlds[i], longer.steps[i])
    {
      assert i < |log.steps| ==> longer.steps[i] == log.steps[i];
    }
  }

  lemma {:induction false} RunMeansRun(log: Log, budget: nat, w: World)
    requires IsRun(log, budget, w)
    ensures w == Run(FreshWorld(budget), log.steps)
    decreases |log.steps|
  {
    var n := |log.steps| - 1;
    if n >= 0 {
      var shorter := Log(log.worlds[..n + 1], log.steps[..n]);
      forall i {:trigger shorter.steps[i]} | 0 <= i < n
        ensures shorter.worlds[i + 1] == Next(shorter.worlds[i], shorter.steps[i])
      {
        assert shorter.steps[i] == log.steps[i];
      }
      RunMeansRun(shorter, budget, log.worlds[n]);
      assert log.steps[n] == log.steps[|log.steps| - 1];
    }
  }

  lemma RunMeansInv(log: Log, budget: nat, w: World)
    requires IsRun(log, budget, w)
    ensures Inv(w) && w.budget == budget
  {
    RunMeansRun(log, budget, w);
    FreshWorldOk(budget);
    RunKeeps(FreshWorld(budget), log.steps);
    RunKeepsBudget(FreshWorld(budget), log.steps);
  }

  lemma RunMeansSafe(log: Log, budget: nat, w: World)
    requires IsRun(log, budget, w)
    ensures NoPortTwice(w.data.servers, w.running) && HeapInUse(Claims(w.data.servers), w.running) <= budget
  {
    RunMeansInv(log, budget, w);
    ResourcesSpelledOut(w);
  }

  lemma UnusedIsNew(log: Log, budget: nat, w: World, id: string)
    requires IsRun(log, budget, w) && id !in w.usedServers
    ensures id !in Ids(w.data.servers)
  {
    RunMeansInv(log, budget, w);
  }

  lemma CommitUpdateIs(w: World, id: string, patch: Patch, ok: bool, data: Document)
    requires w.pending.Some? && w.pending.value.target == Some(id) && AllRead(w, w.pending.value)
    requires ServerAt(w.data.servers, id) < |w.data.servers|
    requires ok <==> UpdateServerTx(w.data, w.pending.value.active, id, patch, w.budget).Ok?
    requires var servers, i := w.data.servers, ServerAt(w.data.servers, id);
             data == if ok then w.data.(servers := servers[i := Patched(servers[i], patch)]) else w.data
    ensures Next(w, CommitUpdate(patch)) == w.(data := data, pending := None)
  {
  }

  lemma RunMeansAccounts(log: Log, budget: nat, w: World)
    requires IsRun(log, budget, w)
    ensures UniqueNames(w.data.users) && (w.data.users != [] ==> HasAdmin(w.data.users))
  {
    RunMeansInv(log, budget, w);
  }

  // No server but `id` has the port, stored or running.
  predicate PortIsFree(servers: seq<Server>, active: ActiveConfigs, port: nat, id: string) {
    forall s | s in servers && s.id != id ::
      s.config.port != port && (s.id in active ==> active[s.id].port != port)
  }

  lemma FreeIsNotTaken(servers: seq<Server>, active: ActiveConfigs, port: nat, id: string)
    ensures PortIsTaken(servers, active, port, Some(id)) <==> !PortIsFree(servers, active, port, id)
    ensures id !in Ids(servers) ==>
              (PortIsTaken(servers, active, port, None) <==> !PortIsFree(servers, active, port, id))
  {
    assert forall s | s in servers ::
        HoldsPort(s, active, port) <==> (s.config.port == port || (s.id in active && active[s.id].port == port));
    assert forall s | s in servers :: s.id in Ids(servers);
  }

  /** What a PATCH of a server must satisfy: a proper name, a port that is free
      for the others and that of its tunnel, a valid record, and memory that fits. */
  predicate PatchAccepted(servers: seq<Server>, active: ActiveConfigs, i: nat, patch: Patch, budget: nat)
    requires i < |servers|
  {
    var next := Patched(servers[i], patch);
    && (patch.name.Some? ==> ValidateName(patch.name.value).Some?)
    && (patch.port.Some? ==>
          && PortIsFree(servers, active, patch.port.value, servers[i].id)
          && (servers[i].binding.Some? ==> servers[i].binding.value.localPort == patch.port.value))
    && RecordOk(next, budget)
    && HeapInUse(ClaimsWith(servers, Some((next.id, next.config.heap))), active) <= budget
  }

  // A world of the run in which a mutation has read every guardian.
  ghost predicate Deciding(log: Log, at: World, target: Option<string>) {
    at in log.worlds && at.pending.Some? && at.pending.value.target == target && AllRead(at, at.pending.value)
  }

  class Process {
    var w: World
    const budget: nat
    ghost var log: Log

    // The world is what some run has made of a fresh installation.
    ghost predicate Valid()
      reads this
    {
      IsRun(log, budget, w)
    }

    constructor (budget: nat)
      ensures Valid() && this.budget == budget && w == FreshWorld(budget)
    {
      this.budget, w, log := budget, FreshWorld(budget), Log([FreshWorld(budget)], []);
    }

    // The world has just taken a step.
    ghost method Record(step: Step, before: World)
      requires IsRun(log, budget, before) && w == Next(before, step)
      modifies `log
      ensures Valid() && log == Then(old(log), step, w) && Continues(old(log), log)
    {
      RunGoesOn(log, budget, before, step);
      log := Then(log, step, w);
    }

    /* ----- accounts ----- */

    /** create_setup: granted exactly to the first account, an administrator. */
    method CreateSetup(username: string, hash: string) returns (r: Result<()>)
      requires Valid()
      modifies this
      ensures Valid() && log == Then(old(log), Setup(username, hash), w)
      ensures r.Ok? <==> ValidateName(username).Some? && old(w.data.users) == []
      ensures r.Ok? ==> |w.data.users| == 1 && w.data.users[0].admin && HasAdmin(w.data.users)
                        && Some(w.data.users[0].name) == ValidateName(username) && w.data.users[0].hash == hash
      ensures r == Err(Forbidden) <==> ValidateName(username).Some? && old(w.data.users) != []
      ensures r.Err? ==> w == old(w)
      ensures w == old(w).(data := old(w.data).(users := w.data.users))
    {
      ghost var before := w;
      var name := ValidateName(username);
      if name.None? {
        r := Err(BadRequest);
      } else if w.data.users != [] {
        r := Err(Forbidden);
      } else {
        var first := User(name.value, hash, true, []);
        w := w.(data := w.data.(users := w.data.users + [first]));
        assert w.data.users == [first] && first in w.data.users;
        r := Ok(());
      }
      Record(Setup(username, hash), before);
    }

    method CountAdmins() returns (n: nat)
      ensures n == AdminCount(w.data.users)
    {
      n := 0;
      for i := 0 to |w.data.users|
        invariant n == AdminCount(w.data.users[..i])
      {
        assert w.data.users[..i + 1][..i] == w.data.users[..i];
        if w.data.users[i].admin {
          n := n + 1;
        }
      }
      assert w.data.users[..|w.data.users|] == w.data.users;
    }

    /** The guard on demotion and deletion: the account is the only administrator. */
    method IsOnlyAdmin(index: nat) returns (only: bool)
      requires index < |w.data.users|
      ensures only <==> OnlyAdmin(w.data.users, index)
      ensures only <==> w.data.users[index].admin && AdminCount(w.data.users) == 1
    {
      if !w.data.users[index].admin {
        return false;
      }
      var admins := CountAdmins();
      CountIsOneForTheOnlyAdmin(w.data.users, index);
      only := admins == 1;
    }

    /** create: appends the account unless its name is taken or its grant refused. */
    method CreateUser(username: string, hash: string, admin: bool, granted: seq<string>) returns (r: Result<()>)
      requires Valid() && w.data.users != []
      modifies this
      ensures Valid() && log == Then(old(log), AddUser(username, hash, admin, granted), w)
      ensures r == Err(Conflict) <==>
                ValidateName(username).Some? && exists u :: u in old(w.data.users) && IsCalled(u, username)
      ensures r.Ok? <==> && ValidateName(username).Some? && GrantOk(granted, old(w.data.servers))
                         && forall u | u in old(w.data.users) :: !IsCalled(u, username)
      ensures r.Ok? ==> exists u :: w.data.users == old(w.data.users) + [u] && IsCalled(u, username)
                                    && u.hash == hash && u.admin == admin && u.servers == granted
      ensures r.Err? ==> w == old(w)
      ensures w == old(w).(data := old(w.data).(users := w.data.users)) && HasAdmin(w.data.users)
    {
      ghost var before := w;
      var name := ValidateName(username);
      if name.None? {
        r := Err(BadRequest);
      } else {
        var i := UserAt(w.data.users, name.value);
        assert i < |w.data.users| ==> w.data.users[i] in w.data.users;
        if i < |w.data.users| {
          r := Err(Conflict);
        } else {
          var accepted := ValidateServerIds(granted, w.data.servers);
          if !accepted {
            r := Err(BadRequest);
          } else {
            w := w.(data := w.data.(users := w.data.users + [User(name.value, hash, admin, granted)]));
            r := Ok(());
          }
        }
      }
      Record(AddUser(username, hash, admin, granted), before);
      RunMeansAccounts(log, budget, w);
      assert w.data.users != [];
    }

    /** update: changes the fields that are given, of that account only. The only
        administrator cannot be demoted. */
    method UpdateUser(name: string, hash: Option<string>, admin: Option<bool>, granted: Option<seq<string>>)
      returns (r: Result<()>)
      requires Valid()
      modifies this
      ensures Valid() && log == Then(old(log), EditUser(name, hash, admin, granted), w)
      ensures var i := UserAt(old(w.data.users), name);
              && (r == Err(NotFound) <==> i == |old(w.data.users)|)
              && (r.Ok? <==> && i < |old(w.data.users)|
                             && (granted.Some? ==> GrantOk(granted.value, old(w.data.servers)))
                             && !(admin == Some(false) && OnlyAdmin(old(w.data.users), i)))
              && (r.Ok? ==> w.data.users == old(w.data.users)[i := Revised(old(w.data.users)[i], hash, admin, granted)])
      ensures r.Err? ==> w == old(w)
      ensures w == old(w).(data := old(w.data).(users := w.data.users))
      ensures w.data.users != [] ==> HasAdmin(w.data.users)
    {
      ghost var before := w;
      var index := UserAt(w.data.users, name);
      if index == |w.data.users| {
        r := Err(NotFound);
      } else {
        var accepted := true;
        if granted.Some? {
          accepted := ValidateServerIds(granted.value, w.data.servers);
        }
        var only := IsOnlyAdmin(index);
        if !accepted || (admin == Some(false) && only) {
          r := Err(BadRequest);
        } else {
          var next := Edited(w.data.users[index], hash, admin, granted);
          w := w.(data := w.data.(users := w.data.users[index := next]));
          r := Ok(());
        }
      }
      Record(EditUser(name, hash, admin, granted), before);
      RunMeansAccounts(log, budget, w);
    }

    /** delete: removes exactly that account; neither one's own nor that of the
        only administrator. */
    method DeleteUser(requester: string, name: string) returns (r: Result<()>)
      requires Valid()
      modifies this
      ensures Valid() && log == Then(old(log), RemoveUser(requester, name), w)
      ensures var i := UserAt(old(w.data.users), name);
              r.Ok? <==> name != requester && i < |old(w.data.users)| && !OnlyAdmin(old(w.data.users), i)
      ensures r.Ok? ==> forall u :: u in w.data.users <==> u in old(w.data.users) && u.name != name
      ensures r.Ok? ==> |w.data.users| == |old(w.data.users)| - 1 && HasAdmin(w.data.users)
      ensures r.Err? ==> w == old(w)
      ensures w == old(w).(data := old(w.data).(users := w.data.users))
    {
      ghost var before := w;
      RunMeansAccounts(log, budget, w);
      var index := UserAt(w.data.users, name);
      if name == requester {
        r := Err(BadRequest);
      } else if index == |w.data.users| {
        r := Err(NotFound);
      } else {
        var only := IsOnlyAdmin(index);
        if only {
          r := Err(BadRequest);
        } else {
          RestIsOthers(w.data.users, index);
          RestKeepsAdmin(w.data.users, index);
          w := w.(data := w.data.(users := w.data.users[..index] + w.data.users[index + 1..]));
          r := Ok(());
        }
      }
      Record(RemoveUser(requester, name), before);
    }

    /* ----- servers ----- */

    // One thing that happens meanwhile.
    method InterfereOnce(step: Step)
      requires Valid() && Concurrent(step)
      modifies this
      ensures Valid() && Continues(old(log), log)
      ensures w.pending == old(w.pending) && w.usedServers == old(w.usedServers)
      ensures Ids(w.data.servers) == Ids(old(w.data.servers))
    {
      RunMeansInv(log, budget, w);
      ConcurrentKeepsServers(w, step);
      RunGoesOn(log, budget, w, step);
      log := Then(log, step, Next(w, step));
      w := Next(w, step);
    }

    // Everything else goes on while the lock is held.
    method Interfere()
      requires Valid()
      modifies this
      ensures Valid() && Continues(old(log), log)
      ensures w.pending == old(w.pending) && w.usedServers == old(w.usedServers)
      ensures Ids(w.data.servers) == Ids(old(w.data.servers))
    {
      var n: nat := *;
      while n > 0
        invariant Valid() && Continues(old(log), log)
        invariant w.pending == old(w.pending) && w.usedServers == old(w.usedServers)
        invariant Ids(w.data.servers) == Ids(old(w.data.servers))
      {
        var step: Step := *;
        if Concurrent(step) {
          InterfereOnce(step);
        }
        n := n - 1;
      }
    }

    // One guardian is asked for the configuration of its live process.
    method ReadOne(id: string, active: ActiveConfigs) returns (more: ActiveConfigs)
      requires Valid() && w.pending.Some? && w.pending.value.active == active
      modifies this
      ensures Valid() && Continues(old(log), log) && w == old(w).(pending := w.pending)
      ensures w.pending.Some? && w.pending.value.target == old(w.pending.value.target) && w.pending.value.active == more
      ensures w.pending.value.read == old(w.pending.value.read) + {id}
    {
      ghost var before := w;
      more := if id in w.running then active[id := w.running[id]] else active - {id};
      w := w.(pending := Some(w.pending.value.(read := w.pending.value.read + {id}, active := more)));
      Record(ReadActive(id), before);
    }

    /** active_configs: each guardian is asked at its own moment, while processes
        exit and start in between. */
    method ReadActiveConfigs() returns (active: ActiveConfigs)
      requires Valid() && w.pending.Some? && w.pending.value.read == {} && w.pending.value.active == map[]
      modifies this
      ensures Valid() && Continues(old(log), log)
      ensures w.pending.Some? && w.pending.value.target == old(w.pending.value.target)
      ensures w.pending.value.active == active
      ensures forall id | id in Ids(w.data.servers) :: id in w.pending.value.read
      ensures w.usedServers == old(w.usedServers) && Ids(w.data.servers) == Ids(old(w.data.servers))
    {
      var guardians := w.data.servers;
      active := map[];
      for i := 0 to |guardians|
        invariant Valid() && Continues(old(log), log)
        invariant w.pending.Some? && w.pending.value.target == old(w.pending.value.target)
        invariant w.pending.value.active == active
        invariant w.usedServers == old(w.usedServers) && Ids(w.data.servers) == Ids(old(w.data.servers))
        invariant forall j | 0 <= j < i :: guardians[j].id in w.pending.value.read
      {
        Interfere();
        active := ReadOne(guardians[i].id, active);
      }
      forall id | id in Ids(w.data.servers)
        ensures id in w.pending.value.read
      {
        var g :| g in guardians && g.id == id;
        var j :| 0 <= j < |guardians| && guardians[j] == g;
      }
    }

    method Begin(target: Option<string>)
      requires Valid() && w.pending.None?
      requires target.Some? ==> ServerAt(w.data.servers, target.value) < |w.data.servers|
      modifies this
      ensures Valid() && Continues(old(log), log) && w == old(w).(pending := Some(Pending(target, map[], {})))
    {
      ghost var before := w;
      w := w.(pending := Some(Pending(target, map[], {})));
      Record(if target.Some? then BeginUpdate(target.value) else BeginCreate, before);
    }

    // The closure of `create`: the checks, and the push.
    method InsertServer(record: Server, active: ActiveConfigs) returns (r: Result<()>)
      requires Valid() && w.budget == budget <= U64_MAX && w.pending.Some? && w.pending.value.target.None?
      requires w.pending.value.active == active && AllRead(w, w.pending.value)
      requires record.id !in w.usedServers && ValidId(record.id)
      requires record == NewServer(record.id, record.name, record.config)
      requires ValidateName(record.name) == Some(record.name) && RecordOk(record, budget)
      modifies this
      ensures Valid() && Continues(old(log), log) && w.pending.None?
      ensures r.Ok? <==>
                && PortIsFree(old(w.data.servers), active, record.config.port, record.id)
                && HeapInUse(Claims(old(w.data.servers)), active) + record.config.heap <= budget
      ensures w.data == if r.Ok? then old(w.data).(servers := old(w.data.servers) + [record]) else old(w.data)
      ensures r.Err? ==> r == Err(Conflict)
      ensures log.worlds == old(log.worlds) + [w]
    {
      ghost var before := w;
      UnusedIsNew(log, budget, w, record.id);
      var data;
      r, data := CheckedInsert(w.data, record, active, budget);
      w := w.(data := data, pending := None, usedServers := w.usedServers + {record.id});
      Record(CommitCreate(record), before);
    }

    /** create: decides on configurations read before the transaction, and still
        no two servers hold one port and the heaps fit the budget. */
    method CreateServer(name: string, config: Config, id: string) returns (r: Result<()>, ghost at: World)
      requires Valid() && w.pending.None? && budget <= U64_MAX
      requires ValidId(id) && id !in w.usedServers
      modifies this
      ensures Valid() && Continues(old(log), log) && w.pending.None?
      ensures NoPortTwice(w.data.servers, w.running)
      ensures HeapInUse(Claims(w.data.servers), w.running) <= budget
      ensures r == Err(BadRequest) <==>
                ValidateName(name).None? || !RecordOk(NewServer(id, ValidateName(name).value, config), budget)
      ensures r.Ok? ==> var record := NewServer(id, ValidateName(name).value, config);
                        w.data == at.data.(servers := at.data.servers + [record])
      ensures r.Err? ==> w.data == at.data
      ensures Ids(w.data.servers) == if r.Ok? then Ids(old(w.data.servers)) + {id} else Ids(old(w.data.servers))
      ensures r != Err(BadRequest) ==>
                && Deciding(log, at, None)
                && (r.Ok? <==> && PortIsFree(at.data.servers, at.pending.value.active, config.port, id)
                               && HeapInUse(Claims(at.data.servers), at.pending.value.active) + config.heap
                                  <= budget)
      ensures r.Err? ==> r == Err(BadRequest) || r == Err(Conflict)
    {
      at := w;
      RunMeansInv(log, budget, w);
      RunMeansSafe(log, budget, w);
      var validName := ValidateName(name);
      if validName.None? || !RecordOk(NewServer(id, validName.value, config), budget) {
        return Err(BadRequest), at;
      }
      var record := NewServer(id, validName.value, config);
      Begin(None);
      var active := ReadActiveConfigs();
      Interfere();
      RunMeansInv(log, budget, w);
      at := w;
      TrimTwice(name);
      AllReadStays(w, w.pending.value);
      r := InsertServer(record, active);
      NamesOfOneMore(at.data.servers, record);
      RunMeansInv(log, budget, w);
      RunMeansSafe(log, budget, w);
    }

    // The closure of `update`: the checks in order, and the exchange.
    method ReplaceServer(id: string, patch: Patch, active: ActiveConfigs) returns (r: Result<()>)
      requires Valid() && w.budget == budget <= U64_MAX && w.pending.Some? && w.pending.value.target == Some(id)
      requires w.pending.value.active == active && AllRead(w, w.pending.value)
      requires ServerAt(w.data.servers, id) < |w.data.servers|
      modifies this
      ensures Valid() && Continues(old(log), log) && w.pending.None?
      ensures var servers, i := old(w.data.servers), ServerAt(old(w.data.servers), id);
              w.data == if r.Ok? then old(w.data).(servers := servers[i := Patched(servers[i], patch)]) else old(w.data)
      ensures r.Ok? <==> PatchAccepted(old(w.data.servers), active, ServerAt(old(w.data.servers), id), patch, budget)
      ensures r.Err? ==> r == Err(BadRequest) || r == Err(Conflict)
      ensures log.worlds == old(log.worlds) + [w]
    {
      var data;
      r, data := CheckedPatch(w.data, id, patch, active, budget);
      CommitUpdateIs(w, id, patch, r.Ok?, data);
      Commit(CommitUpdate(patch), data);
    }

    // The end of a mutation: the document is exchanged, or stays.
    method Commit(step: Step, data: Document)
      requires Valid() && Next(w, step) == w.(data := data, pending := None)
      modifies this
      ensures Valid() && Continues(old(log), log) && log.worlds == old(log.worlds) + [w]
      ensures w == old(w).(data := data, pending := None)
    {
      ghost var before := w;
      w := w.(data := data, pending := None);
      Record(step, before);
    }

    /** update: the same for a change of one record, of which only the given
        fields change; a refusal changes nothing. */
    method UpdateServer(id: string, patch: Patch) returns (r: Result<()>, ghost at: World)
      requires Valid() && w.pending.None? && budget <= U64_MAX
      modifies this
      ensures Valid() && Continues(old(log), log) && w.pending.None?
      ensures NoPortTwice(w.data.servers, w.running)
      ensures HeapInUse(Claims(w.data.servers), w.running) <= budget
      ensures Ids(w.data.servers) == Ids(old(w.data.servers))
      ensures r == Err(NotFound) <==> id !in Ids(old(w.data.servers))
      ensures r.Ok? ==> var i := ServerAt(at.data.servers, id);
                        i < |at.data.servers|
                        && w.data == at.data.(servers := at.data.servers[i := Patched(at.data.servers[i], patch)])
      ensures r.Err? ==> w.data == at.data
      ensures r != Err(NotFound) ==>
                && Deciding(log, at, Some(id)) && ServerAt(at.data.servers, id) < |at.data.servers|
                && (r.Ok? <==> PatchAccepted(at.data.servers, at.pending.value.active, ServerAt(at.data.servers, id),
                                             patch, budget))
      ensures r.Err? ==> r == Err(NotFound) || r == Err(BadRequest) || r == Err(Conflict)
    {
      at := w;
      RunMeansInv(log, budget, w);
      RunMeansSafe(log, budget, w);
      FoundById(w.data.servers, id);
      if ServerAt(w.data.servers, id) == |w.data.servers| {
        return Err(NotFound), at;
      }
      Begin(Some(id));
      var active := ReadActiveConfigs();
      Interfere();
      RunMeansInv(log, budget, w);
      at := w;
      FoundById(w.data.servers, id);
      AllReadStays(w, w.pending.value);
      r := ReplaceServer(id, patch, active);
      ghost var i := ServerAt(at.data.servers, id);
      ReplacedElements(at.data.servers, i, Patched(at.data.servers[i], patch));
      RunMeansInv(log, budget, w);
      RunMeansSafe(log, budget, w);
    }

    /** The transaction of DELETE /api/servers/:id, once its process is settled:
        the record goes, with every permission that names it and its backup
        metadata, and nothing else. */
    method DeleteServer(id: string)
      requires Valid() && w.pending.None? && id !in w.running
      modifies this
      ensures Valid() && log == Then(old(log), Step.DeleteServer(id), w)
      ensures forall s :: s in w.data.servers <==> s in old(w.data.servers) && s.id != id
      ensures forall b :: b in w.data.backups <==> b in old(w.data.backups) && b.server != id
      ensures |w.data.users| == |old(w.data.users)|
      ensures forall i, x | 0 <= i < |w.data.users| ::
                x in w.data.users[i].servers <==> x in old(w.data.users)[i].servers && x != id
      ensures forall i | 0 <= i < |w.data.users| ::
                w.data.users[i] == old(w.data.users)[i].(servers := w.data.users[i].servers)
      ensures w == old(w).(data := w.data) && w.data.storage == old(w.data.storage)
    {
      ghost var before := w;
      var users := w.data.users;
      for i := 0 to |users|
        invariant |users| == |w.data.users| && w == before && log == old(log)
        invariant forall j | 0 <= j < i :: users[j] == w.data.users[j].(servers := DropId(w.data.users[j].servers, id))
        invariant forall j | i <= j < |users| :: users[j] == w.data.users[j]
      {
        users := users[i := users[i].(servers := DropId(users[i].servers, id))];
      }
      assert users == Revoke(w.data.users, id);
      w := w.(data := w.data.(servers := DropServer(w.data.servers, id), users := users,
                              backups := DropBackupsOf(w.data.backups, id)));
      Record(Step.DeleteServer(id), before);
    }
  }

  // The field assignments of an account update.
  method Edited(u: User, hash: Option<string>, admin: Option<bool>, granted: Option<seq<string>>) returns (next: User)
    ensures next == Revised(u, hash, admin, granted)
  {
    next := u;
    if hash.Some? {
      next := next.(hash := hash.value);
    }
    if admin.Some? {
      next := next.(admin := admin.value);
    }
    if granted.Some? {
      next := next.(servers := granted.value);
    }
  }

  // The checks of the closure of `create`, and the push.
  method CheckedInsert(data: Document, record: Server, active: ActiveConfigs, budget: nat)
    returns (r: Result<()>, next: Document)
    requires budget <= U64_MAX && record.id !in Ids(data.servers)
    ensures next == if r.Ok? then data.(servers := data.servers + [record]) else data
    ensures r.Ok? <==> && PortIsFree(data.servers, active, record.config.port, record.id)
                       && HeapInUse(Claims(data.servers), active) + record.config.heap <= budget
    ensures r.Err? ==> r == Err(Conflict)
    ensures r.Ok? <==> CreateServerTx(data, active, record, budget).Ok?
  {
    next := data;
    FreeIsNotTaken(data.servers, active, record.config.port, record.id);
    if PortIsTaken(data.servers, active, record.config.port, None) {
      return Err(Conflict), next;
    }
    var fits := ValidateAggregateMemory(data.servers, active, None, Some(record.config.heap), budget);
    if !fits {
      return Err(Conflict), next;
    }
    r, next := Ok(()), data.(servers := data.servers + [record]);
  }

  // The checks of the closure of `update`, in order, and the exchange.
  method CheckedPatch(data: Document, id: string, patch: Patch, active: ActiveConfigs, budget: nat)
    returns (r: Result<()>, changed: Document)
    requires budget <= U64_MAX && ServerAt(data.servers, id) < |data.servers|
    ensures var i := ServerAt(data.servers, id);
            && changed == (if r.Ok? then data.(servers := data.servers[i := Patched(data.servers[i], patch)]) else data)
            && (r.Ok? <==> PatchAccepted(data.servers, active, i, patch, budget))
    ensures r.Err? ==> r == Err(BadRequest) || r == Err(Conflict)
    ensures r.Ok? <==> UpdateServerTx(data, active, id, patch, budget).Ok?
  {
    PatchTxAccepts(data, active, id, patch, budget);
    changed := data;
    var index := ServerAt(data.servers, id);
    var next := ApplyPatch(data.servers[index], patch);
    var refusal := Refusal(data.servers, next, patch, active, budget);
    if refusal.Some? {
      return Err(refusal.value), changed;
    }
    r, changed := Ok(()), data.(servers := data.servers[index := next]);
  }

  method Refusal(servers: seq<Server>, next: Server, patch: Patch, active: ActiveConfigs, budget: nat)
    returns (refusal: Option<ApiError>)
    requires budget <= U64_MAX
    ensures refusal == PatchRefusal(servers, active, next, patch, budget)
  {
    if patch.name.Some? && ValidateName(patch.name.value).None? {
      return Some(BadRequest);
    }
    if patch.port.Some? {
      if PortIsTaken(servers, active, patch.port.value, Some(next.id)) {
        return Some(Conflict);
      }
      if next.binding.Some? && next.binding.value.localPort != patch.port.value {
        return Some(Conflict);
      }
    }
    if !RecordOk(next, budget) {
      return Some(BadRequest);
    }
    var fits := ValidateAggregateMemory(servers, active, Some((next.id, next.config.heap)), None, budget);
    refusal := if fits then None else Some(Conflict);
  }

  lemma RefusalMeans(servers: seq<Server>, active: ActiveConfigs, next: Server, patch: Patch, budget: nat)
    ensures PatchRefusal(servers, active, next, patch, budget).None? <==>
              && (patch.name.Some? ==> ValidateName(patch.name.value).Some?)
              && (patch.port.Some? ==> PortIsFree(servers, active, patch.port.value, next.id))
              && (patch.port.Some? && next.binding.Some? ==> next.binding.value.localPort == patch.port.value)
              && RecordOk(next, budget)
              && HeapInUse(ClaimsWith(servers, Some((next.id, next.config.heap))), active) <= budget
    ensures PatchRefusal(servers, active, next, patch, budget) in {None, Some(BadRequest), Some(Conflict)}
  {
    if patch.port.Some? {
      FreeIsNotTaken(servers, active, patch.port.value, next.id);
    }
    DemandIsTheTotal(servers, active, Some((next.id, next.config.heap)), None);
  }

  lemma PatchTxAccepts(d: Document, active: ActiveConfigs, id: string, patch: Patch, budget: nat)
    requires ServerAt(d.servers, id) < |d.servers|
    ensures var i, r := ServerAt(d.servers, id), UpdateServerTx(d, active, id, patch, budget);
            && (r.Ok? <==> PatchAccepted(d.servers, active, i, patch, budget))
            && (r.Err? ==> r.error == BadRequest || r.error == Conflict)
  {
    var i := ServerAt(d.servers, id);
    PatchedTwice(d.servers[i], patch);
    RefusalMeans(d.servers, active, Patched(d.servers[i], patch), patch, budget);
  }

  // The field assignments of a PATCH request.
  method ApplyPatch(slot: Server, patch: Patch) returns (next: Server)
    ensures next == Patched(slot, patch)
  {
    next := slot;
    if patch.name.Some? {
      var name := ValidateName(patch.name.value);
      next := if name.Some? then next.(name := name.value) else next;
    }
    var c := next.config;
    c := c.(core := OrElse(patch.core, c.core), version := OrElse(patch.version, c.version));
    c := c.(build := OrElse(patch.build, c.build), javaMajor := OrElse(patch.javaMajor, c.javaMajor));
    if patch.memory.Some? {
      c := c.(minHeap := patch.memory.value.minHeap, heap := patch.memory.value.heap);
    }
    c := c.(port := OrElse(patch.port, c.port));
    c := c.(jvmArgs := OrElse(patch.jvmArgs, c.jvmArgs), serverArgs := OrElse(patch.serverArgs, c.serverArgs));
    next := next.(config := c, supervision := OrElse(patch.supervision, next.supervision));
  }

  lemma FoundById(servers: seq<Server>, id: string)
    ensures ServerAt(servers, id) < |servers| <==> id in Ids(servers)
  {
    if id in Ids(servers) {
      var s :| s in servers && s.id == id;
      var j :| 0 <= j < |servers| && servers[j] == s;
    }
    if ServerAt(servers, id) < |servers| {
      assert servers[ServerAt(servers, id)] in servers;
    }
  }

  lemma AllReadStays(w: World, p: Pending)
    requires forall id | id in Ids(w.data.servers) :: id in p.read
    ensures AllRead(w, p)
  {
  }

  lemma RestIsOthers(users: seq<User>, i: nat)
    requires i < |users| && UniqueNames(users)
    ensures forall u :: u in users[..i] + users[i + 1..] <==> u in users && u.name != users[i].name
  {
    var rest := users[..i] + users[i + 1..];
    forall u
      ensures u in rest <==> u in users && u.name != users[i].name
    {
      if u in rest {
        var k :| 0 <= k < |rest| && rest[k] == u;
        assert u == users[if k < i then k else k + 1];
      }
      if u in users && u.name != users[i].name {
        var k :| 0 <= k < |users| && users[k] == u;
        assert rest[if k < i then k else k - 1] == u;
      }
    }
  }
}
