// Desired state of the Playit tunnels (src/api/playit.rs, src/api/servers.rs,
// queue_playit_cleanup of src/store.rs): a server's binding, and the durable
// queue of remote deletions, while the remote side fails as it likes.
module Playit {
  import opened Options

  datatype Cleanup = Cleanup(server: string, tunnel: string)

  /** The panel's part is `servers`, `bound` and `queue`; `reported` is what
      Playit reports at the moment. The last four record what became of tunnels:
      every one the panel bound, those deleted remotely, those found missing when
      the panel let go of them, and those an operator told it to forget. */
  datatype State = State(servers: set<string>, usedServers: set<string>,
                         bound: map<string, string>, queue: seq<Cleanup>, reported: set<string>,
                         everBound: set<string>, deleted: set<string>, missing: set<string>, forgotten: set<string>)

  // How a remote delete ends; a lost reply looks like a failure to the panel.
  datatype Outcome = Deleted | NotFound | Refused | ReplyLost

  // Deleting something that Playit does not report answers "not found".
  predicate Settles(s: State, tunnel: string, o: Outcome) {
    o.Deleted? || (o.NotFound? && tunnel !in s.reported)
  }

  function RemoteDelete(s: State, tunnel: string, o: Outcome): State {
    if o.Deleted? || o.ReplyLost? then s.(reported := s.reported - {tunnel}, deleted := s.deleted + {tunnel})
    else if o.NotFound? && tunnel !in s.reported then s.(missing := s.missing + {tunnel})
    else s
  }

  /* ----- the queue ----- */

  // queue_playit_cleanup: idempotent.
  function Enqueue(queue: seq<Cleanup>, c: Cleanup): (q: seq<Cleanup>)
    ensures forall x :: x in q <==> x in queue || x == c
  {
    if c in queue then queue else queue + [c]
  }

  // retain: drop one entry.
  function Dequeue(queue: seq<Cleanup>, c: Cleanup): (q: seq<Cleanup>)
    ensures forall x :: x in q <==> x in queue && x != c
  {
    if queue == [] then
      []
    else
      assert queue == [queue[0]] + queue[1..];
      (if queue[0] != c then [queue[0]] else []) + Dequeue(queue[1..], c)
  }

  function DequeueServer(queue: seq<Cleanup>, server: string): (q: seq<Cleanup>)
    ensures forall x :: x in q <==> x in queue && x.server != server
  {
    if queue == [] then
      []
    else
      assert queue == [queue[0]] + queue[1..];
      (if queue[0].server != server then [queue[0]] else []) + DequeueServer(queue[1..], server)
  }

  function PendingOf(queue: seq<Cleanup>, server: string): (tunnels: seq<string>)
    ensures forall t :: t in tunnels <==> Cleanup(server, t) in queue
  {
    if queue == [] then
      []
    else
      assert queue == [queue[0]] + queue[1..];
      (if queue[0].server == server then [queue[0].tunnel] else []) + PendingOf(queue[1..], server)
  }

  ghost predicate NoDuplicates<T(!new)>(s: seq<T>) {
    forall i, j | 0 <= i < j < |s| :: s[i] != s[j]
  }

  lemma OneInFront<T(!new)>(x: T, s: seq<T>)
    ensures NoDuplicates([x] + s) <==> NoDuplicates(s) && x !in s
  {
    var more := [x] + s;
    assert more[1..] == s;
    assert forall i | 0 <= i < |s| :: more[i + 1] == s[i];
    if NoDuplicates(more) {
      forall i, j | 0 <= i < j < |s|
        ensures s[i] != s[j]
      {
        assert more[i + 1] != more[j + 1];
      }
      forall i | 0 <= i < |s|
        ensures s[i] != x
      {
        assert more[i + 1] != more[0];
      }
    }
  }

  lemma {:induction false} DequeueKeepsDistinct(queue: seq<Cleanup>, c: Cleanup, server: string)
    requires NoDuplicates(queue)
    ensures NoDuplicates(Dequeue(queue, c)) && NoDuplicates(DequeueServer(queue, server))
  {
    if queue != [] {
      assert queue == [queue[0]] + queue[1..];
      OneInFront(queue[0], queue[1..]);
      DequeueKeepsDistinct(queue[1..], c, server);
      OneInFront(queue[0], Dequeue(queue[1..], c));
      OneInFront(queue[0], DequeueServer(queue[1..], server));
    }
  }

  lemma {:induction false} DequeueOneMore(queue: seq<Cleanup>, last: Cleanup, c: Cleanup)
    ensures Dequeue(queue + [last], c) == Dequeue(queue, c) + (if last != c then [last] else [])
  {
    if queue == [] {
      assert queue + [last] == [last];
    } else {
      assert (queue + [last])[1..] == queue[1..] + [last];
      DequeueOneMore(queue[1..], last, c);
    }
  }

  lemma {:induction false} PendingIsDistinct(queue: seq<Cleanup>, server: string)
    requires NoDuplicates(queue)
    ensures NoDuplicates(PendingOf(queue, server))
  {
    if queue != [] {
      assert queue == [queue[0]] + queue[1..];
      OneInFront(queue[0], queue[1..]);
      PendingIsDistinct(queue[1..], server);
      OneInFront(queue[0].tunnel, PendingOf(queue[1..], server));
    }
  }

  /* ----- the handlers as functions of the state ----- */

  // One turn of retry_server_cleanup, and the remote half of a detach.
  function RetryOne(s: State, server: string, tunnel: string, o: Outcome): State {
    var after := RemoteDelete(s, tunnel, o);
    if Settles(s, tunnel, o) then after.(queue := Dequeue(after.queue, Cleanup(server, tunnel))) else after
  }

  predicate CleanupPending(s: State, server: string) {
    exists c :: c in s.queue && c.server == server
  }

  /** What reconcile_server_tunnel may return: the stored tunnel if Playit still
      reports it, and otherwise any tunnel that is live once it returns. */
  predicate Reconciled(s: State, stored: Option<string>, tunnel: string) {
    stored.Some? && stored.value in s.reported ==> tunnel == stored.value
  }

  // The server now stands for this tunnel, whatever became of it before. One it
  // replaces was not reported.
  function Rebind(s: State, server: string, tunnel: string): State {
    s.(bound := s.bound[server := tunnel], everBound := s.everBound + {tunnel}, reported := s.reported + {tunnel},
       missing := (if server in s.bound && s.bound[server] != tunnel then s.missing + {s.bound[server]} else s.missing)
                  - {tunnel},
       deleted := s.deleted - {tunnel}, forgotten := s.forgotten - {tunnel})
  }

  function Stored(s: State, server: string): Option<string> {
    if server in s.bound then Some(s.bound[server]) else None
  }

  // attach, once the cleanup retry is done.
  function AttachNext(s: State, server: string, ensured: Option<string>): State {
    if server !in s.bound && CleanupPending(s, server) then s
    else if ensured.None? || !Reconciled(s, Stored(s, server), ensured.value) then s
    else Rebind(s, server, ensured.value)
  }

  function HealNext(s: State, server: string, ensured: Option<string>): State {
    if server !in s.bound then s
    else if ensured.None? || !Reconciled(s, Stored(s, server), ensured.value) then s
    else Rebind(s, server, ensured.value)
  }

  // The local commit of a detach: unbound and queued in one transaction.
  function Unbind(s: State, server: string): State
    requires server in s.bound
  {
    s.(bound := s.bound - {server}, queue := Enqueue(s.queue, Cleanup(server, s.bound[server])))
  }

  function ForgetNext(s: State, server: string): State {
    s.(bound := s.bound - {server}, queue := DequeueServer(s.queue, server),
       forgotten := s.forgotten + (set t | t in PendingOf(s.queue, server))
                    + (if server in s.bound then {s.bound[server]} else {}))
  }

  // The record and the binding go, and the deletion is queued, in one transaction.
  function DeleteServerNext(s: State, server: string): State {
    (if server in s.bound then Unbind(s, server) else s).(servers := s.servers - {server})
  }

  datatype Step =
    | RemoteChange(reported: set<string>)
    | AddServer(id: string)
    | Retry(server: string, tunnel: string, outcome: Outcome)
    | Attach(server: string, ensured: Option<string>)
    | Heal(server: string, ensured: Option<string>)
    | Detach(server: string)
    | Forget(server: string)
    | DeleteServer(server: string)
    | DeleteAccountTunnel(tunnel: string, outcome: Outcome)

  /** One step. All handlers hold the server mutation lock, so they follow each
      other; between any two steps the remote side changes as it likes. A detach
      is its local commit, and then a retry of what it queued; a stop in between
      leaves the entry in the queue. */
  function Next(s: State, step: Step): State {
    match step
    case RemoteChange(reported) => s.(reported := reported)
    case AddServer(id) =>
      if id in s.usedServers then s else s.(servers := s.servers + {id}, usedServers := s.usedServers + {id})
    case Retry(server, tunnel, outcome) =>
      if Cleanup(server, tunnel) !in s.queue then s else RetryOne(s, server, tunnel, outcome)
    case Attach(server, ensured) => if server !in s.servers then s else AttachNext(s, server, ensured)
    case Heal(server, ensured) => if server !in s.servers then s else HealNext(s, server, ensured)
    case Detach(server) => if server !in s.bound then s else Unbind(s, server)
    case Forget(server) => if server !in s.servers then s else ForgetNext(s, server)
    case DeleteServer(server) => if server !in s.servers then s else DeleteServerNext(s, server)
    case DeleteAccountTunnel(tunnel, outcome) =>
      if tunnel in s.bound.Values then s else RemoteDelete(s, tunnel, outcome)
  }

  function Run(s: State, steps: seq<Step>): State {
    if steps == [] then s else Next(Run(s, steps[..|steps| - 1]), steps[|steps| - 1])
  }

  /* ----- what every step keeps ----- */

  // Where a tunnel can be once the panel has bound it.
  ghost predicate Accounted(s: State, tunnel: string) {
    || (exists server :: server in s.bound && s.bound[server] == tunnel)
    || (exists c :: c in s.queue && c.tunnel == tunnel)
    || tunnel in s.deleted || tunnel in s.missing || tunnel in s.forgotten
  }

  ghost predicate Inv(s: State) {
    && NoDuplicates(s.queue)
    && (forall c | c in s.queue :: c.server !in s.bound && c.server in s.usedServers)
    && s.bound.Keys <= s.servers <= s.usedServers
    && (forall t | t in s.everBound :: Accounted(s, t))
  }

  lemma RemoteDeleteKeeps(s: State, tunnel: string, o: Outcome)
    requires Inv(s)
    ensures Inv(RemoteDelete(s, tunnel, o))
    ensures Settles(s, tunnel, o) ==> tunnel in RemoteDelete(s, tunnel, o).deleted + RemoteDelete(s, tunnel, o).missing
  {
    var after := RemoteDelete(s, tunnel, o);
    forall t | t in after.everBound
      ensures Accounted(after, t)
    {
      assert Accounted(s, t);
    }
  }

  lemma RetryOneKeeps(s: State, server: string, tunnel: string, o: Outcome)
    requires Inv(s)
    ensures Inv(RetryOne(s, server, tunnel, o))
    ensures RetryOne(s, server, tunnel, o).bound == s.bound
  {
    RemoteDeleteKeeps(s, tunnel, o);
    var mid, after := RemoteDelete(s, tunnel, o), RetryOne(s, server, tunnel, o);
    DequeueKeepsDistinct(mid.queue, Cleanup(server, tunnel), server);
    forall t | t in after.everBound
      ensures Accounted(after, t)
    {
      assert Accounted(mid, t);
      if c :| c in mid.queue && c.tunnel == t {
        assert c in after.queue || (c == Cleanup(server, tunnel) && Settles(s, tunnel, o));
      }
    }
  }

  // An entry whose tunnel has met its fate can go.
  lemma SettledEntryCanGo(s: State, server: string, tunnel: string)
    requires Inv(s) && tunnel in s.deleted + s.missing
    ensures Inv(s.(queue := Dequeue(s.queue, Cleanup(server, tunnel))))
  {
    var after := s.(queue := Dequeue(s.queue, Cleanup(server, tunnel)));
    DequeueKeepsDistinct(s.queue, Cleanup(server, tunnel), server);
    forall t | t in after.everBound
      ensures Accounted(after, t)
    {
      assert Accounted(s, t);
      if c :| c in s.queue && c.tunnel == t {
        assert c in after.queue || c == Cleanup(server, tunnel);
      }
    }
  }

  lemma RebindKeeps(s: State, server: string, tunnel: string)
    requires Inv(s) && server in s.servers && !CleanupPending(s, server)
    ensures Inv(Rebind(s, server, tunnel))
  {
    var after := Rebind(s, server, tunnel);
    assert after.bound[server] == tunnel;
    forall t | t in after.everBound
      ensures Accounted(after, t)
    {
      if t != tunnel {
        assert Accounted(s, t);
        if other :| other in s.bound && s.bound[other] == t {
          assert other != server ==> after.bound[other] == t;
        }
      }
    }
  }

  lemma UnbindKeeps(s: State, server: string)
    requires Inv(s) && server in s.bound
    ensures Inv(Unbind(s, server))
  {
    var after := Unbind(s, server);
    forall t | t in after.everBound
      ensures Accounted(after, t)
    {
      assert Accounted(s, t);
      if other :| other in s.bound && s.bound[other] == t {
        if other == server {
          assert Cleanup(server, t) in after.queue;
        } else {
          assert other in after.bound && after.bound[other] == t;
        }
      }
    }
  }

  lemma ForgetKeeps(s: State, server: string)
    requires Inv(s)
    ensures Inv(ForgetNext(s, server))
    ensures !CleanupPending(ForgetNext(s, server), server) && server !in ForgetNext(s, server).bound
  {
    var after := ForgetNext(s, server);
    DequeueKeepsDistinct(s.queue, Cleanup(server, ""), server);
    forall t | t in after.everBound
      ensures Accounted(after, t)
    {
      assert Accounted(s, t);
      if other :| other in s.bound && s.bound[other] == t {
        assert other != server ==> other in after.bound && after.bound[other] == t;
      } else if c :| c in s.queue && c.tunnel == t {
        assert c == Cleanup(c.server, t);
        assert c.server != server ==> c in after.queue;
        assert c.server == server ==> t in PendingOf(s.queue, server);
      }
    }
  }

  lemma DeleteServerKeeps(s: State, server: string)
    requires Inv(s)
    ensures Inv(DeleteServerNext(s, server))
    ensures server in s.bound ==> Cleanup(server, s.bound[server]) in DeleteServerNext(s, server).queue
  {
    if server in s.bound {
      UnbindKeeps(s, server);
      SameAccounts(Unbind(s, server), DeleteServerNext(s, server));
    } else {
      SameAccounts(s, DeleteServerNext(s, server));
    }
  }

  lemma SameAccounts(s: State, after: State)
    requires after == s.(servers := after.servers, usedServers := after.usedServers, reported := after.reported)
    ensures forall t | Accounted(s, t) :: Accounted(after, t)
  {
  }

  /** Every step keeps the invariant. */
  lemma StepKeeps(s: State, step: Step)
    requires Inv(s)
    ensures Inv(Next(s, step))
  {
    match step
    case RemoteChange(reported) => SameAccounts(s, Next(s, step));
    case AddServer(id) => SameAccounts(s, Next(s, step));
    case Retry(server, tunnel, outcome) =>
      RetryOneKeeps(s, server, tunnel, outcome);
    case Attach(server, ensured) =>
      if server in s.servers && AttachNext(s, server, ensured) != s {
        RebindKeeps(s, server, ensured.value);
      }
    case Heal(server, ensured) =>
      if server in s.servers && HealNext(s, server, ensured) != s {
        RebindKeeps(s, server, ensured.value);
      }
    case Detach(server) =>
      if server in s.bound {
        UnbindKeeps(s, server);
      }
    case Forget(server) => ForgetKeeps(s, server);
    case DeleteServer(server) => DeleteServerKeeps(s, server);
    case DeleteAccountTunnel(tunnel, outcome) => RemoteDeleteKeeps(s, tunnel, outcome);
  }

  lemma {:induction false} RunKeeps(s: State, steps: seq<Step>)
    requires Inv(s)
    ensures Inv(Run(s, steps))
  {
    if steps != [] {
      var before, step := Run(s, steps[..|steps| - 1]), steps[|steps| - 1];
      RunKeeps(s, steps[..|steps| - 1]);
      StepKeeps(before, step);
      var after := Next(before, step);
      assert Run(s, steps) == after;
    }
  }

  function FreshState(): State {
    State({}, {}, map[], [], {}, {}, {}, {}, {})
  }

  /** In every run from a fresh installation: a bound server has no cleanup entry,
      the queue holds nothing twice, and no tunnel the panel ever bound is lost:
      it is still bound, or queued, deleted, found missing, or forgotten. */
  lemma NoTunnelIsLost(steps: seq<Step>, server: string, tunnel: string)
    ensures var s := Run(FreshState(), steps);
            && (server in s.bound ==> !CleanupPending(s, server))
            && NoDuplicates(s.queue)
            && (tunnel in s.everBound ==> Accounted(s, tunnel))
  {
    RunKeeps(FreshState(), steps);
  }

  /** The records are honest: a tunnel becomes missing only if Playit did not
      report it, deleted only if it is gone from the report, and forgotten only
      by an operator's request about the server that held it; and binding a
      tunnel ends whatever had become of it. */
  lemma FatesAreEarned(s: State, step: Step, t: string)
    ensures var after := Next(s, step);
            && (t in after.missing && t !in s.missing ==> t !in s.reported)
            && (t in after.deleted && t !in s.deleted ==> t !in after.reported)
            && (t in after.forgotten && t !in s.forgotten ==>
                  step.Forget? && (Cleanup(step.server, t) in s.queue
                                   || (step.server in s.bound && s.bound[step.server] == t)))
    ensures (step.Attach? || step.Heal?) && Next(s, step) != s ==>
              var after := Next(s, step);
              step.server in after.bound && after.bound[step.server] !in after.deleted + after.missing + after.forgotten
  {
  }

  /** Right after a server was bound to a tunnel, the tunnel is accounted for by a
      binding or the queue only: letting go of it is not excused by its past. */
  lemma BoundAgainIsBoundAnew(s: State, server: string, tunnel: string)
    requires Inv(s) && server in s.servers && !CleanupPending(s, server)
    ensures Accounted(Rebind(s, server, tunnel), tunnel)
    ensures var dropped := Rebind(s, server, tunnel).(bound := s.bound - {server});
            Accounted(dropped, tunnel) <==>
            (exists other :: other != server && other in s.bound && s.bound[other] == tunnel)
            || (exists c :: c in s.queue && c.tunnel == tunnel)
  {
    var dropped := Rebind(s, server, tunnel).(bound := s.bound - {server});
    assert Rebind(s, server, tunnel).bound[server] == tunnel;
    if other :| other != server && other in s.bound && s.bound[other] == tunnel {
      assert other in dropped.bound && dropped.bound[other] == tunnel;
    }
  }

  /* ----- an attach whose local commit fails ----- */

  // compensate_attach_failure: a tunnel that was created is deleted again, or
  // queued if that fails; not finding it is no failure. One that was only reused
  // is left alone.
  function Compensate(s: State, server: string, tunnel: string, created: bool, o: Outcome): State {
    var ensured := s.(reported := s.reported + {tunnel});
    if !created then ensured
    else if o.Deleted? || o.NotFound? then RemoteDelete(ensured, tunnel, o)
    else
      var after := RemoteDelete(ensured, tunnel, o);
      after.(queue := Enqueue(after.queue, Cleanup(server, tunnel)))
  }

  /** The compensation keeps the desired state exactly unless it has to queue a
      deletion for a server that is bound: after a failed repair the server keeps
      its old binding beside a cleanup entry for the new tunnel. */
  lemma CompensationKeeps(s: State, server: string, tunnel: string, created: bool, o: Outcome)
    requires Inv(s) && server in s.servers
    ensures Inv(Compensate(s, server, tunnel, created, o)) <==>
            !(created && !o.Deleted? && !o.NotFound? && server in s.bound)
  {
    var ensured := s.(reported := s.reported + {tunnel});
    SameAccounts(s, ensured);
    var after := Compensate(s, server, tunnel, created, o);
    if created {
      RemoteDeleteKeeps(ensured, tunnel, o);
      if !o.Deleted? && !o.NotFound? {
        assert Cleanup(server, tunnel) in after.queue;
        var mid := RemoteDelete(ensured, tunnel, o);
        forall t | t in after.everBound
          ensures Accounted(after, t)
        {
          assert Accounted(mid, t);
        }
      }
    }
  }

  /** A run after which it breaks: a bound tunnel disappears, the repair creates
      another, the local commit fails, and so does the delete. */
  lemma CompensationCanBreak()
    ensures var s := Run(FreshState(), [AddServer("a"), Attach("a", Some("t0")), RemoteChange({})]);
            && Inv(s) && "a" in s.bound && s.bound["a"] !in s.reported
            && !Inv(Compensate(s, "a", "t1", true, Refused))
  {
    var steps := [AddServer("a"), Attach("a", Some("t0")), RemoteChange({})];
    RunOfThree(FreshState(), steps[0], steps[1], steps[2]);
    var s := Run(FreshState(), steps);
    RunKeeps(FreshState(), steps);
    CompensationKeeps(s, "a", "t1", true, Refused);
  }

  lemma RunOfOneMore(s: State, steps: seq<Step>, step: Step)
    ensures Run(s, steps + [step]) == Next(Run(s, steps), step)
  {
    assert (steps + [step])[..|steps|] == steps;
  }

  lemma RunOfThree(s: State, a: Step, b: Step, c: Step)
    ensures Run(s, [a, b, c]) == Next(Next(Next(s, a), b), c)
  {
    assert [a, b, c] == [a, b] + [c] && [a, b] == [a] + [b] && [a] == [] + [a];
    RunOfOneMore(s, [a, b], c);
    RunOfOneMore(s, [a], b);
    RunOfOneMore(s, [], a);
  }

  /* ----- what a retry deletes ----- */

  /** A retry takes a bound tunnel away exactly when the tunnel it deletes is
      bound, by another server that was attached to it meanwhile. */
  lemma RetrySparesBound(s: State, server: string, tunnel: string, o: Outcome)
    requires Inv(s) && Cleanup(server, tunnel) in s.queue
    ensures (forall t | t in s.bound.Values && t in s.reported :: t in Next(s, Retry(server, tunnel, o)).reported) <==>
            !((o.Deleted? || o.ReplyLost?) && tunnel in s.reported
              && exists other :: other != server && other in s.bound && s.bound[other] == tunnel)
  {
    var after := Next(s, Retry(server, tunnel, o));
    if other :| other != server && other in s.bound && s.bound[other] == tunnel {
      assert tunnel in s.bound.Values;
    }
  }

  /** Where that happens: one server is detached, another is attached to the
      tunnel that waits for its deletion, and then the first is reconciled. */
  lemma ARetryCanDeleteABoundTunnel(s: State, a: string, b: string)
    requires Inv(s) && a in s.bound && b in s.servers && b !in s.bound && s.queue == []
    ensures var t := s.bound[a];
            var later := Next(Next(s, Detach(a)), Attach(b, Some(t)));
            && Inv(later) && b in later.bound && later.bound[b] == t && t in later.reported
            && t !in Next(later, Retry(a, t, Deleted)).reported
  {
    var t := s.bound[a];
    var detached := Next(s, Detach(a));
    StepKeeps(s, Detach(a));
    assert detached.queue == [Cleanup(a, t)] && !CleanupPending(detached, b);
    StepKeeps(detached, Attach(b, Some(t)));
  }

  /** Such a state is reached by adding two servers and attaching one. */
  lemma TwoServersOneTunnel()
    ensures var s := Run(FreshState(), [AddServer("a"), AddServer("b"), Attach("a", Some("t"))]);
            Inv(s) && "a" in s.bound && "b" in s.servers && "b" !in s.bound && s.queue == []
  {
    var steps := [AddServer("a"), AddServer("b"), Attach("a", Some("t"))];
    RunOfThree(FreshState(), steps[0], steps[1], steps[2]);
    RunKeeps(FreshState(), steps);
  }

  /** Deleting a tunnel of the account leaves the tunnels that servers are bound
      to, and does to every other one what Playit answers. */
  lemma AccountDeleteSparesBound(s: State, tunnel: string, o: Outcome)
    ensures var after := Next(s, DeleteAccountTunnel(tunnel, o));
            && (tunnel in s.bound.Values ==> after == s)
            && (tunnel !in s.bound.Values && (o.Deleted? || o.ReplyLost?) ==> tunnel !in after.reported)
            && (forall t | t in s.reported && t != tunnel :: t in after.reported)
            && after.bound == s.bound && after.queue == s.queue
  {
  }

  /* ----- the handlers, in place ----- */

  /** The live state, and the steps that led to it from a fresh installation. */
  class Bindings {
    var s: State
    // Whether Playit answers every delete conclusively and grants every reconcile.
    const cooperative: bool
    ghost var trace: seq<Step>

    ghost predicate Valid()
      reads this
    {
      s == Run(FreshState(), trace)
    }

    constructor (cooperates: bool)
      ensures Valid() && s == FreshState() && cooperative == cooperates
    {
      s, trace, cooperative := FreshState(), [], cooperates;
    }

    // What every reachable state satisfies.
    lemma ValidMeansInv()
      requires Valid()
      ensures Inv(s)
    {
      RunKeeps(FreshState(), trace);
    }

    ghost method Record(step: Step, before: State)
      requires before == Run(FreshState(), trace) && s == Next(before, step)
      modifies `trace
      ensures Valid() && trace == old(trace) + [step]
    {
      trace := trace + [step];
      assert trace[..|trace| - 1] == old(trace);
    }

    // The remote side does as it likes.
    method Remote()
      requires Valid()
      modifies this
      ensures Valid() && old(trace) <= trace
      ensures s == old(s).(reported := s.reported)
    {
      var reported: set<string> := *;
      ghost var before := s;
      s := s.(reported := reported);
      Record(RemoteChange(reported), before);
    }

    /** A remote delete changes nothing the panel decides on. A conclusive answer
        means the tunnel is gone from the report and its fate is on record; an
        inconclusive one may still have deleted it. */
    method DeleteAgentTunnel(tunnel: string) returns (o: Outcome)
      modifies `s
      ensures s == RemoteDelete(old(s), tunnel, o)
      ensures s.bound == old(s.bound) && s.queue == old(s.queue) && s.forgotten == old(s.forgotten)
      ensures o.Deleted? || o.NotFound? ==> tunnel !in s.reported && tunnel in s.deleted + s.missing
      ensures o.NotFound? ==> tunnel !in old(s).reported
      ensures cooperative ==> o.Deleted? || o.NotFound?
      ensures s.reported == old(s.reported) || s.reported == old(s.reported) - {tunnel}
      ensures Inv(old(s)) ==> Inv(s)
    {
      if Inv(s) {
        forall answer
          ensures Inv(RemoteDelete(s, tunnel, answer))
        {
          RemoteDeleteKeeps(s, tunnel, answer);
        }
      }
      o := *;
      if cooperative {
        o := if tunnel in s.reported then Deleted else NotFound;
      } else if o.NotFound? && tunnel in s.reported {
        o := Refused;
      }
      s := RemoteDelete(s, tunnel, o);
    }

    // queue_playit_cleanup: look for the entry, and add it if it is not there.
    method QueueCleanup(server: string, tunnel: string)
      modifies `s
      ensures s == old(s).(queue := Enqueue(old(s).queue, Cleanup(server, tunnel)))
      ensures NoDuplicates(old(s).queue) ==> NoDuplicates(s.queue)
    {
      var queued := false;
      for i := 0 to |s.queue|
        invariant s == old(s) && (queued <==> Cleanup(server, tunnel) in s.queue[..i])
      {
        assert s.queue[..i + 1] == s.queue[..i] + [s.queue[i]];
        queued := queued || (s.queue[i].server == server && s.queue[i].tunnel == tunnel);
      }
      assert s.queue[..|s.queue|] == s.queue;
      if !queued {
        s := s.(queue := s.queue + [Cleanup(server, tunnel)]);
      }
    }

    /** retain: the entry is gone, every other one is kept once, and nothing but
        the queue changes. The tunnel must have met its fate for that to be safe. */
    method RemoveCleanup(server: string, tunnel: string)
      modifies `s
      ensures s == old(s).(queue := s.queue) && s.queue == Dequeue(old(s).queue, Cleanup(server, tunnel))
      ensures forall c :: c in s.queue <==> c in old(s).queue && c != Cleanup(server, tunnel)
      ensures Inv(old(s)) && tunnel in s.deleted + s.missing ==> Inv(s)
    {
      ghost var before := s;
      var kept: seq<Cleanup> := [];
      for i := 0 to |s.queue|
        invariant s == old(s) && kept == Dequeue(s.queue[..i], Cleanup(server, tunnel))
      {
        var c := s.queue[i];
        assert s.queue[..i + 1] == s.queue[..i] + [c];
        DequeueOneMore(s.queue[..i], c, Cleanup(server, tunnel));
        if c.server != server || c.tunnel != tunnel {
          kept := kept + [c];
        }
      }
      assert s.queue[..|s.queue|] == s.queue;
      s := s.(queue := kept);
      if Inv(before) && tunnel in s.deleted + s.missing {
        SettledEntryCanGo(before, server, tunnel);
      }
    }

    /** Delete a queued tunnel remotely: its entry goes exactly on a conclusive
        answer, and then the tunnel has met its fate. */
    method SettleCleanup(server: string, tunnel: string) returns (answer: Outcome)
      requires Valid() && Cleanup(server, tunnel) in s.queue
      modifies this
      ensures Valid() && old(trace) <= trace
      ensures s.bound == old(s.bound) && s.servers == old(s.servers)
      ensures forall c | c in s.queue :: c in old(s).queue
      ensures forall c | c in old(s).queue && c != Cleanup(server, tunnel) :: c in s.queue
      ensures old(s.deleted) <= s.deleted <= old(s.deleted) + {tunnel} && old(s.missing) <= s.missing
      ensures Cleanup(server, tunnel) !in s.queue <==> answer.Deleted? || answer.NotFound?
      ensures Cleanup(server, tunnel) !in s.queue ==> tunnel in s.deleted + s.missing && tunnel !in s.reported
      ensures cooperative ==> answer.Deleted? || answer.NotFound?
    {
      ghost var before := s;
      answer := DeleteAgentTunnel(tunnel);
      if answer.Deleted? || answer.NotFound? {
        RemoveCleanup(server, tunnel);
      }
      Record(Retry(server, tunnel, answer), before);
    }

    /** retry_server_cleanup: whatever Playit answers, each entry of the server is
        still queued or its tunnel has met its fate, no other entry is touched and
        no other tunnel deleted; if Playit cooperates, nothing stays queued. */
    method RetryServerCleanup(server: string)
      requires Valid()
      modifies this
      ensures Valid() && old(trace) <= trace
      ensures s.bound == old(s.bound) && s.servers == old(s.servers)
      ensures forall c :: c in s.queue ==> c in old(s).queue
      ensures forall c | c in old(s).queue ::
                c in s.queue || (c.server == server && c.tunnel in s.deleted + s.missing)
      ensures forall t | t in s.deleted && t !in old(s).deleted :: Cleanup(server, t) in old(s).queue
      ensures cooperative ==> !CleanupPending(s, server)
    {
      var pending := PendingOf(s.queue, server);
      ValidMeansInv();
      PendingIsDistinct(s.queue, server);
      for i := 0 to |pending|
        invariant Valid() && old(trace) <= trace
        invariant s.bound == old(s.bound) && s.servers == old(s.servers)
        invariant forall c | c in s.queue :: c in old(s).queue
        invariant forall c | c in old(s).queue ::
                    c in s.queue || (c.server == server && c.tunnel in s.deleted + s.missing)
        invariant forall j | i <= j < |pending| :: Cleanup(server, pending[j]) in s.queue
        invariant forall t | t in s.deleted && t !in old(s).deleted :: Cleanup(server, t) in old(s).queue
        invariant cooperative ==> forall j | 0 <= j < i :: Cleanup(server, pending[j]) !in s.queue
      {
        Remote();
        var _ := SettleCleanup(server, pending[i]);
      }
      forall c | c in s.queue && c.server == server
        ensures !cooperative
      {
        assert c == Cleanup(server, c.tunnel) && c.tunnel in pending;
      }
    }

    // reconcile_server_tunnel: adopt the stored tunnel if it is still reported.
    method Reconcile(server: string) returns (ensured: Option<string>)
      requires Valid()
      modifies this
      ensures Valid() && old(trace) <= trace
      ensures s == old(s).(reported := s.reported)
      ensures ensured.Some? ==> Reconciled(s, Stored(s, server), ensured.value)
      ensures cooperative ==> ensured.Some?
    {
      Remote();
      var refused: bool := *;
      var live: string := *;
      ensured := if refused && !cooperative then None else Some(live);
      if ensured.Some? && server in s.bound && s.bound[server] in s.reported {
        ensured := Some(s.bound[server]);
      }
    }

    /** attach: an unbound server is attached only once its cleanup is settled,
        and a success leaves it bound with nothing queued; a refusal leaves the
        binding as it was, and needs Playit not to cooperate. */
    method AttachServer(server: string) returns (ok: bool)
      requires Valid() && server in s.servers
      modifies this
      ensures Valid() && old(trace) <= trace
      ensures ok ==> server in s.bound && s.bound[server] in s.reported && !CleanupPending(s, server)
      ensures !ok ==> s.bound == old(s.bound)
      ensures cooperative ==> ok
      ensures forall other | other != server :: other in s.bound <==> other in old(s).bound
      ensures forall other | other != server && other in s.bound :: s.bound[other] == old(s).bound[other]
    {
      var previous := Stored(s, server);
      if previous.None? {
        RetryServerCleanup(server);
        if CleanupPending(s, server) {
          return false;
        }
      }
      var ensured := Reconcile(server);
      if ensured.None? {
        return false;
      }
      // the lock is held: neither the association nor the port has changed
      assert Stored(s, server) == previous;
      ghost var before := s;
      s := Rebind(s, server, ensured.value);
      ValidNext(before);
      Record(Attach(server, ensured), before);
      ValidMeansInv();
      ok := true;
    }

    /** heal: repairs the binding of a bound server, and then deletes no tunnel;
        for one that is not bound it only retries the deletions queued for it. */
    method HealServer(server: string) returns (ok: bool)
      requires Valid() && server in s.servers
      modifies this
      ensures Valid() && old(trace) <= trace
      ensures s.bound.Keys == old(s.bound.Keys)
      ensures ok ==> server in s.bound && s.bound[server] in s.reported && !CleanupPending(s, server)
      ensures !ok ==> s.bound == old(s.bound)
      ensures forall other | other != server && other in s.bound :: s.bound[other] == old(s).bound[other]
      ensures forall t | t in s.deleted && t !in old(s).deleted :: Cleanup(server, t) in old(s).queue
      ensures server in old(s).bound ==> s.deleted <= old(s).deleted
      ensures cooperative ==> !CleanupPending(s, server) && (ok <==> server in old(s).bound)
    {
      ValidMeansInv();
      RetryServerCleanup(server);
      if server !in s.bound {
        return false;
      }
      var ensured := Reconcile(server);
      if ensured.None? {
        return false;
      }
      ghost var before := s;
      s := Rebind(s, server, ensured.value);
      ValidNext(before);
      Record(Heal(server, ensured), before);
      ValidMeansInv();
      ok := true;
    }

    lemma ValidNext(before: State)
      requires before == Run(FreshState(), trace)
      ensures Inv(before)
    {
      RunKeeps(FreshState(), trace);
    }

    /** detach: whatever Playit answers, the server is unbound, and its tunnel is
        either gone or waiting in the queue. */
    method DetachServer(server: string)
      requires Valid()
      modifies this
      ensures Valid() && old(trace) <= trace && s.bound == old(s).bound - {server}
      ensures server in old(s).bound ==>
                var t := old(s).bound[server];
                Cleanup(server, t) in s.queue || t in s.deleted || t in s.missing
      ensures cooperative && server in old(s).bound ==>
                var t := old(s).bound[server];
                Cleanup(server, t) !in s.queue && t in s.deleted + s.missing && t !in s.reported
      ensures cooperative && server !in old(s).bound ==> !CleanupPending(s, server)
    {
      if server !in s.bound {
        RetryServerCleanup(server);
        return;
      }
      ghost var before := s;
      var tunnel := s.bound[server];
      s := s.(bound := s.bound - {server});
      QueueCleanup(server, tunnel);
      Record(Detach(server), before);
      Remote();
      var _ := SettleCleanup(server, tunnel);
    }

    // forget leaves the remote tunnels alone.
    method ForgetServer(server: string)
      requires Valid() && server in s.servers
      modifies this
      ensures Valid() && old(trace) <= trace && s.reported == old(s.reported)
      ensures server !in s.bound && !CleanupPending(s, server)
      ensures forall other | other != server && other in old(s).bound ::
                other in s.bound && s.bound[other] == old(s).bound[other]
      ensures forall c | c in old(s).queue && c.server != server :: c in s.queue
    {
      ghost var before := s;
      ValidMeansInv();
      ForgetKeeps(s, server);
      s := ForgetNext(s, server);
      Record(Forget(server), before);
    }

    /** delete_account_tunnel: refused, and nothing is touched, if a server is
        bound to the tunnel; a success means it is gone. */
    method DeleteTunnelOfAccount(tunnel: string) returns (ok: bool)
      requires Valid()
      modifies this
      ensures Valid() && old(trace) <= trace
      ensures tunnel in old(s).bound.Values ==> !ok && s == old(s)
      ensures s.bound == old(s).bound && s.queue == old(s).queue && s.servers == old(s).servers
      ensures ok ==> tunnel !in s.reported && tunnel in s.deleted + s.missing
      ensures cooperative ==> (ok <==> tunnel !in old(s).bound.Values)
    {
      if tunnel in s.bound.Values {
        return false;
      }
      Remote();
      ghost var before := s;
      var answer := DeleteAgentTunnel(tunnel);
      Record(Step.DeleteAccountTunnel(tunnel, answer), before);
      ok := answer.Deleted? || answer.NotFound?;
    }

    /** Deleting a server: its tunnel is queued in the transaction that removes
        the record, and only then deleted remotely. */
    method DeleteServerTunnel(server: string)
      requires Valid() && server in s.servers
      modifies this
      ensures Valid() && old(trace) <= trace
      ensures server !in s.servers && s.bound == old(s).bound - {server}
      ensures server in old(s).bound ==>
                var t := old(s).bound[server];
                Cleanup(server, t) in s.queue || t in s.deleted || t in s.missing
      ensures cooperative && server in old(s).bound ==>
                var t := old(s).bound[server];
                Cleanup(server, t) !in s.queue && t in s.deleted + s.missing && t !in s.reported
    {
      ghost var before := s;
      var binding := Stored(s, server);
      if binding.Some? {
        QueueCleanup(server, binding.value);
      }
      s := s.(bound := s.bound - {server}, servers := s.servers - {server});
      Record(DeleteServer(server), before);
      if binding.Some? {
        Remote();
        var _ := SettleCleanup(server, binding.value);
      }
    }
  }
}
