// The create run of src/api/backups.rs: upload, commit the metadata, compensate,
// then apply retention, with any of these failing. The backup lock is held for
// the whole run, so only runs of other servers go on in between.
module BackupRun {
  import opened Retention

  // Backup metadata in the panel document.
  datatype Stored = Stored(server: int, backup: Backup)

  datatype Snapshot = Snapshot(objects: set<(int, int)>, metadata: seq<Stored>)

  /** What is done to the provider or the store, and whether it is reported to
      have worked; or whatever other servers' runs do. */
  datatype Act = Others | PutObject(done: bool) | PushMetadata(done: bool)
               | DropObject(id: int, done: bool) | DropMetadata(id: int, done: bool)

  datatype Event = Event(act: Act, before: Snapshot, after: Snapshot)

  function OfServer(metadata: seq<Stored>, server: int): (r: seq<Backup>)
    ensures forall b :: b in r <==> exists m :: m in metadata && m.server == server && m.backup == b
  {
    if metadata == [] then
      []
    else
      assert metadata == [metadata[0]] + metadata[1..];
      (if metadata[0].server == server then [metadata[0].backup] else []) + OfServer(metadata[1..], server)
  }

  function WithoutId(metadata: seq<Stored>, id: int): (r: seq<Stored>)
    ensures forall m :: m in r <==> m in metadata && m.backup.id != id
  {
    if metadata == [] then
      []
    else
      assert metadata == [metadata[0]] + metadata[1..];
      (if metadata[0].backup.id != id then [metadata[0]] else []) + WithoutId(metadata[1..], id)
  }

  predicate Lists(metadata: seq<Stored>, server: int, id: int) {
    exists b :: b in OfServer(metadata, server) && b.id == id
  }

  // The object exists and the panel knows about it.
  predicate Complete(w: Snapshot, server: int, id: int) {
    (server, id) in w.objects && Lists(w.metadata, server, id)
  }

  lemma CompleteMeans(w: Snapshot, server: int, id: int)
    ensures Complete(w, server, id) <==>
            (server, id) in w.objects && exists m :: m in w.metadata && m.server == server && m.backup.id == id
  {
    if b :| b in OfServer(w.metadata, server) && b.id == id {
      assert Stored(server, b) in w.metadata;
    }
    if m :| m in w.metadata && m.server == server && m.backup.id == id {
      assert m.backup in OfServer(w.metadata, server);
    }
  }

  ghost predicate HasComplete(w: Snapshot, server: int) {
    exists id :: Complete(w, server, id)
  }

  predicate UniqueIds(metadata: seq<Stored>) {
    forall i, j | 0 <= i < j < |metadata| :: metadata[i].backup.id != metadata[j].backup.id
  }

  // The new id has never been used.
  ghost predicate FreshId(w: Snapshot, id: int) {
    && (forall o | o in w.objects :: o.1 != id)
    && (forall m | m in w.metadata :: m.backup.id != id)
  }

  /** What a run for `server` sees of the others: its own objects and metadata
      stay, its new id is not taken, and ids stay unique. */
  predicate Undisturbed(before: Snapshot, after: Snapshot, server: int, newId: int) {
    && (forall o | o in before.objects && o.0 == server :: o in after.objects)
    && (forall o | o in after.objects && o.0 == server :: o in before.objects)
    && OfServer(after.metadata, server) == OfServer(before.metadata, server)
    && (forall m | m in after.metadata && m.backup.id == newId :: m in before.metadata)
    && (UniqueIds(before.metadata) ==> UniqueIds(after.metadata))
  }

  // A change made for `server` that disturbs no other server's run.
  ghost predicate LeavesOthers(before: Snapshot, after: Snapshot, server: int, newId: int) {
    forall other, id | other != server && id != newId :: Undisturbed(before, after, other, id)
  }

  // Since `past`, the run itself has disturbed no other server's run.
  ghost predicate Considerate(past: seq<Event>, history: seq<Event>, server: int, newId: int) {
    && past <= history
    && forall j | |past| <= j < |history| && history[j].act != Others ::
         LeavesOthers(history[j].before, history[j].after, server, newId)
  }

  // The new backup was complete after every change since `past`.
  ghost predicate StaysComplete(past: seq<Event>, history: seq<Event>, server: int, newId: int) {
    past <= history && forall j | |past| <= j < |history| :: Complete(history[j].after, server, newId)
  }

  // It was done since `past`.
  ghost predicate Did(past: seq<Event>, history: seq<Event>, act: Act) {
    exists j :: |past| <= j < |history| && history[j].act == act
  }

  // The object was to be deleted; if that worked, its metadata was to be dropped.
  ghost predicate Tried(past: seq<Event>, history: seq<Event>, id: int) {
    || Did(past, history, DropObject(id, false))
    || (Did(past, history, DropObject(id, true))
        && (Did(past, history, DropMetadata(id, true)) || Did(past, history, DropMetadata(id, false))))
  }

  ghost predicate AllTried(past: seq<Event>, history: seq<Event>, ids: seq<int>) {
    forall id | id in ids :: Tried(past, history, id)
  }

  lemma OneMoreTried(past: seq<Event>, history: seq<Event>, later: seq<Event>, ids: seq<int>, i: nat)
    requires i < |ids| && history <= later && AllTried(past, history, ids[..i]) && Tried(past, later, ids[i])
    ensures AllTried(past, later, ids[..i + 1])
  {
    forall id | id in ids[..i + 1]
      ensures Tried(past, later, id)
    {
      if id != ids[i] {
        assert ids[..i + 1] == ids[..i] + [ids[i]];
        DidStays(past, history, later, id);
      }
    }
  }

  lemma DidStays(past: seq<Event>, history: seq<Event>, later: seq<Event>, id: int)
    requires history <= later
    ensures forall act :: Did(past, history, act) ==> Did(past, later, act)
    ensures Tried(past, history, id) ==> Tried(past, later, id)
  {
    forall act | Did(past, history, act)
      ensures Did(past, later, act)
    {
      var j :| |past| <= j < |history| && history[j].act == act;
      assert later[j].act == act;
    }
  }

  lemma DidIt(past: seq<Event>, history: seq<Event>, e: Event)
    requires past <= history
    ensures Did(past, history + [e], e.act)
    ensures forall act :: Did(past, history + [e], act) <==> act == e.act || Did(past, history, act)
  {
    var later := history + [e];
    assert later[|history|].act == e.act;
    DidStays(past, history, later, 0);
    forall act | Did(past, later, act) && act != e.act
      ensures Did(past, history, act)
    {
      var j :| |past| <= j < |later| && later[j].act == act;
      assert history[j].act == act;
    }
  }

  /** The provider's objects and the panel's metadata. Each step records the
      change it makes. */
  class World {
    var objects: set<(int, int)>
    var metadata: seq<Stored>
    // Whether an upload, a delete or a store update can fail.
    const uploadsFail: bool
    const deletesFail: bool
    const updatesFail: bool
    ghost var history: seq<Event>

    ghost function Now(): Snapshot
      reads this
    {
      Snapshot(objects, metadata)
    }

    constructor (objects: set<(int, int)>, metadata: seq<Stored>, uploadsFail: bool, deletesFail: bool,
                 updatesFail: bool)
      ensures this.objects == objects && this.metadata == metadata && history == []
      ensures this.uploadsFail == uploadsFail && this.deletesFail == deletesFail && this.updatesFail == updatesFail
    {
      this.objects, this.metadata, history := objects, metadata, [];
      this.uploadsFail, this.deletesFail, this.updatesFail := uploadsFail, deletesFail, updatesFail;
    }

    method Fault(possible: bool) returns (failed: bool)
      ensures failed ==> possible
    {
      failed := *;
      failed := failed && possible;
    }

    // Other servers' runs, any number of their steps.
    method Meanwhile(server: int, newId: int)
      modifies this
      ensures Undisturbed(old(Now()), Now(), server, newId)
      ensures history == old(history) + [Event(Others, old(Now()), Now())]
    {
      var before := Snapshot(objects, metadata);
      var after: Snapshot := *;
      if Undisturbed(before, after, server, newId) {
        objects, metadata := after.objects, after.metadata;
      }
      history := history + [Event(Others, before, Now())];
    }

    // A failed upload may still have left an object.
    method Upload(server: int, id: int) returns (ok: bool)
      modifies this
      ensures objects == old(objects) || objects == old(objects) + {(server, id)}
      ensures ok ==> (server, id) in objects
      ensures !uploadsFail ==> ok
      ensures metadata == old(metadata) && history == old(history) + [Event(PutObject(ok), old(Now()), Now())]
    {
      ghost var before := Now();
      var undone := Fault(uploadsFail);
      var unconfirmed := Fault(uploadsFail);
      ok := !undone && !unconfirmed;
      if !undone {
        objects := objects + {(server, id)};
      }
      history := history + [Event(PutObject(ok), before, Now())];
    }

    // A failed delete may still have removed the object.
    method DeleteObject(server: int, id: int) returns (ok: bool)
      modifies this
      ensures objects == old(objects) || objects == old(objects) - {(server, id)}
      ensures ok ==> (server, id) !in objects
      ensures !deletesFail ==> ok
      ensures metadata == old(metadata) && history == old(history) + [Event(DropObject(id, ok), old(Now()), Now())]
    {
      ghost var before := Now();
      var undone := Fault(deletesFail);
      var unconfirmed := Fault(deletesFail);
      ok := !undone && !unconfirmed;
      if !undone {
        objects := objects - {(server, id)};
      }
      history := history + [Event(DropObject(id, ok), before, Now())];
    }

    // A store update that fails changes nothing.
    method Push(m: Stored) returns (ok: bool)
      modifies this
      ensures objects == old(objects) && history == old(history) + [Event(PushMetadata(ok), old(Now()), Now())]
      ensures !updatesFail ==> ok
      ensures metadata == if ok then old(metadata) + [m] else old(metadata)
    {
      ghost var before := Now();
      var failed := Fault(updatesFail);
      ok := !failed;
      if ok {
        metadata := metadata + [m];
      }
      history := history + [Event(PushMetadata(ok), before, Now())];
    }

    method Retain(id: int) returns (ok: bool)
      modifies this
      ensures objects == old(objects) && history == old(history) + [Event(DropMetadata(id, ok), old(Now()), Now())]
      ensures !updatesFail ==> ok
      ensures metadata == if ok then WithoutId(old(metadata), id) else old(metadata)
    {
      ghost var before := Now();
      var failed := Fault(updatesFail);
      ok := !failed;
      if ok {
        metadata := WithoutId(metadata, id);
      }
      history := history + [Event(DropMetadata(id, ok), before, Now())];
    }
  }

  // Of this server, only backups in `ids` went and only the new one came.
  ghost predicate OnlyDropped(before: Snapshot, after: Snapshot, server: int, added: Backup, ids: seq<int>) {
    && (forall o | o in before.objects && o.0 == server && o.1 !in ids :: o in after.objects)
    && (forall o | o in after.objects && o.0 == server :: o in before.objects || o == (server, added.id))
    && (forall b | b in OfServer(before.metadata, server) && b.id !in ids :: b in OfServer(after.metadata, server))
    && (forall b | b in OfServer(after.metadata, server) :: b in OfServer(before.metadata, server) || b == added)
  }

  // The selected backups are gone, object and metadata.
  ghost predicate AllGone(w: Snapshot, server: int, ids: seq<int>) {
    forall id | id in ids :: (server, id) !in w.objects && !Lists(w.metadata, server, id)
  }

  // No object has lost its metadata.
  ghost predicate NoOrphans(before: Snapshot, after: Snapshot, server: int) {
    forall id | Lists(before.metadata, server, id) && (server, id) in after.objects :: Lists(after.metadata, server, id)
  }

  /** `create` after the archive is staged, with other servers' runs going on
      between its steps. Whatever fails, no state on the way has lost the
      server's last complete backup, and no step of this run disturbs another;
      a run that reports success ends with the new backup complete; nothing but
      the backups retention selected is ever removed, all of those are tried, and
      an object goes before its metadata; without failures all of them are gone.
      A run that fails after the upload ends by deleting the new object. */
  method Create(world: World, server: int, added: Backup, policy: Policy) returns (ok: bool, ghost selected: seq<int>)
    requires UniqueIds(world.metadata) && FreshId(world.Now(), added.id)
    modifies world
    ensures UniqueIds(world.metadata)
    ensures ok ==> (server, added.id) in world.objects && Stored(server, added) in world.metadata
    ensures Considerate(old(world.history), world.history, server, added.id)
    ensures HasComplete(old(world.Now()), server) ==>
              forall i | |old(world.history)| <= i < |world.history| :: HasComplete(world.history[i].after, server)
    ensures OnlyDropped(old(world.Now()), world.Now(), server, added, selected)
    ensures added.id !in selected
    ensures forall id | id in selected ::
              Selected(OfServer(old(world.metadata), server) + [added], policy, added.id, id)
    ensures ok ==> forall id ::
              Selected(OfServer(old(world.metadata), server) + [added], policy, added.id, id) ==> id in selected
    ensures !world.uploadsFail && !world.updatesFail ==> ok
    ensures !world.deletesFail && !world.updatesFail ==> AllGone(world.Now(), server, selected)
    ensures ok ==> AllTried(old(world.history), world.history, selected)
    ensures ok ==> NoOrphans(old(world.Now()), world.Now(), server)
    ensures !ok ==> selected == [] && Compensated(old(world.history), world.history, old(world.Now()), world.Now(),
                                                  server, added.id, world.deletesFail)
  {
    selected := [];
    ok := UploadAndPush(world, server, added);
    if ok {
      ghost var past := world.history;
      selected := ApplyRetention(world, server, added, policy);
      forall id | id in selected
        ensures Tried(old(world.history), world.history, id)
      {
        TriedLater(old(world.history), past, world.history, id);
      }
    }
  }

  /** A failed run ends with an attempt to delete the new object, unless the
      upload itself had failed; and if deletes work, the server's objects are
      what they were. */
  ghost predicate Compensated(past: seq<Event>, history: seq<Event>, before: Snapshot, after: Snapshot, server: int,
                              newId: int, deletesFail: bool) {
    Did(past, history, PutObject(true)) ==>
      && history != []
      && (history[|history| - 1].act == DropObject(newId, true)
          || (deletesFail && history[|history| - 1].act == DropObject(newId, false)))
      && (history[|history| - 1].act.done ==>
            forall o: (int, int) | o.0 == server :: o in after.objects <==> o in before.objects)
  }

  lemma TriedLater(past: seq<Event>, mid: seq<Event>, history: seq<Event>, id: int)
    requires past <= mid && Tried(mid, history, id)
    ensures Tried(past, history, id)
  {
    forall act | Did(mid, history, act)
      ensures Did(past, history, act)
    {
      var j :| |mid| <= j < |history| && history[j].act == act;
    }
  }

  // Before the metadata is committed: this server's backups are as they were,
  // except perhaps for the new object, and the new id is free.
  ghost predicate Uploading(start: Snapshot, w: Snapshot, server: int, newId: int) {
    && UniqueIds(w.metadata)
    && (forall m | m in w.metadata :: m.backup.id != newId)
    && OfServer(w.metadata, server) == OfServer(start.metadata, server)
    && (forall o | o in start.objects && o.0 == server :: o in w.objects)
    && (forall o | o in w.objects && o.0 == server :: o in start.objects || o == (server, newId))
  }

  // Every state since `past` has kept some complete backup.
  ghost predicate NeverWithout(past: seq<Event>, history: seq<Event>, start: Snapshot, server: int) {
    && past <= history
    && (HasComplete(start, server) ==>
          forall j | |past| <= j < |history| :: HasComplete(history[j].after, server))
  }

  // What holds up to the commit.
  ghost predicate Early(start: Snapshot, past: seq<Event>, history: seq<Event>, w: Snapshot, server: int, newId: int) {
    && Uploading(start, w, server, newId)
    && Considerate(past, history, server, newId)
    && NeverWithout(past, history, start, server)
  }

  // A change of the new object only, by this run, or anything others do.
  ghost predicate EarlyChange(e: Event, server: int, newId: int) {
    if e.act != Others then
      && e.after.metadata == e.before.metadata
      && (|| e.after.objects == e.before.objects
          || e.after.objects == e.before.objects + {(server, newId)}
          || e.after.objects == e.before.objects - {(server, newId)})
    else
      Undisturbed(e.before, e.after, server, newId)
  }

  // Uploading the new object, or dropping it again, keeps every complete backup.
  lemma StillComplete(start: Snapshot, e: Event, server: int, newId: int)
    requires FreshId(start, newId) && Uploading(start, e.before, server, newId)
    requires EarlyChange(e, server, newId)
    ensures Uploading(start, e.after, server, newId)
    ensures HasComplete(start, server) ==> HasComplete(e.after, server)
  {
    if HasComplete(start, server) {
      var k :| Complete(start, server, k);
      assert Complete(e.after, server, k);
    }
  }

  lemma EventJoins(past: seq<Event>, history: seq<Event>, e: Event, start: Snapshot, server: int, newId: int)
    requires Considerate(past, history, server, newId) && NeverWithout(past, history, start, server)
    requires e.act != Others ==> LeavesOthers(e.before, e.after, server, newId)
    requires HasComplete(start, server) ==> HasComplete(e.after, server)
    ensures Considerate(past, history + [e], server, newId) && NeverWithout(past, history + [e], start, server)
  {
  }

  lemma EarlyKeeps(start: Snapshot, past: seq<Event>, history: seq<Event>, e: Event, server: int, newId: int)
    requires FreshId(start, newId) && Early(start, past, history, e.before, server, newId)
    requires EarlyChange(e, server, newId)
    ensures Early(start, past, history + [e], e.after, server, newId)
  {
    StillComplete(start, e, server, newId);
    assert e.act != Others ==> LeavesOthers(e.before, e.after, server, newId);
    EventJoins(past, history, e, start, server, newId);
  }

  lemma OfServerOneMore(metadata: seq<Stored>, m: Stored, server: int)
    ensures OfServer(metadata + [m], server) ==
            OfServer(metadata, server) + if m.server == server then [m.backup] else []
  {
    if metadata != [] {
      assert (metadata + [m])[1..] == metadata[1..] + [m];
      OfServerOneMore(metadata[1..], m, server);
    }
  }

  // Committing the metadata completes the new backup and concerns no other server.
  lemma PushCompletes(before: Snapshot, after: Snapshot, server: int, added: Backup)
    requires UniqueIds(before.metadata) && (forall m | m in before.metadata :: m.backup.id != added.id)
    requires after == before.(metadata := before.metadata + [Stored(server, added)])
    ensures OfServer(after.metadata, server) == OfServer(before.metadata, server) + [added]
    ensures LeavesOthers(before, after, server, added.id) && UniqueIds(after.metadata)
  {
    var m := Stored(server, added);
    OfServerOneMore(before.metadata, m, server);
    forall other, id | other != server && id != added.id
      ensures Undisturbed(before, after, other, id)
    {
      OfServerOneMore(before.metadata, m, other);
    }
  }

  // Other servers' runs before the commit.
  method MeanwhileEarly(world: World, server: int, newId: int, ghost start: Snapshot, ghost past: seq<Event>)
    requires FreshId(start, newId) && Early(start, past, world.history, world.Now(), server, newId)
    modifies world
    ensures Early(start, past, world.history, world.Now(), server, newId)
    ensures (server, newId) in old(world.objects) ==> (server, newId) in world.objects
    ensures world.history == old(world.history) + [Event(Others, old(world.Now()), world.Now())]
  {
    ghost var e := Event(Others, world.Now(), world.Now());
    world.Meanwhile(server, newId);
    EarlyKeeps(start, past, old(world.history), e.(after := world.Now()), server, newId);
  }

  method UploadEarly(world: World, server: int, newId: int, ghost start: Snapshot, ghost past: seq<Event>)
    returns (ok: bool)
    requires FreshId(start, newId) && Early(start, past, world.history, world.Now(), server, newId)
    modifies world
    ensures Early(start, past, world.history, world.Now(), server, newId)
    ensures ok ==> (server, newId) in world.objects
    ensures !world.uploadsFail ==> ok
    ensures world.history == old(world.history) + [Event(PutObject(ok), old(world.Now()), world.Now())]
  {
    ghost var e := Event(PutObject(true), world.Now(), world.Now());
    ok := world.Upload(server, newId);
    EarlyKeeps(start, past, old(world.history), e.(act := PutObject(ok), after := world.Now()), server, newId);
  }

  // The metadata was not committed: drop the object, and ignore a failure.
  method Compensate(world: World, server: int, newId: int, ghost start: Snapshot, ghost past: seq<Event>)
    requires FreshId(start, newId) && Early(start, past, world.history, world.Now(), server, newId)
    modifies world
    ensures Early(start, past, world.history, world.Now(), server, newId)
    ensures Compensated(past, world.history, start, world.Now(), server, newId, world.deletesFail)
  {
    ghost var e := Event(Others, world.Now(), world.Now());
    ghost var done := world.DeleteObject(server, newId);
    e := e.(act := DropObject(newId, done), after := world.Now());
    EarlyKeeps(start, past, old(world.history), e, server, newId);
  }

  // The commit of the metadata.
  method PushAdded(world: World, server: int, added: Backup, ghost start: Snapshot, ghost past: seq<Event>)
    returns (ok: bool)
    requires (server, added.id) in world.objects
    requires FreshId(start, added.id) && Early(start, past, world.history, world.Now(), server, added.id)
    modifies world
    ensures !ok ==> Early(start, past, world.history, world.Now(), server, added.id)
    ensures ok ==> Considerate(past, world.history, server, added.id)
                   && NeverWithout(past, world.history, start, server)
                   && UniqueIds(world.metadata) && world.objects == old(world.objects)
                   && OfServer(world.metadata, server) == OfServer(start.metadata, server) + [added]
    ensures !world.updatesFail ==> ok
  {
    ghost var e := Event(Others, world.Now(), world.Now());
    ok := world.Push(Stored(server, added));
    e := e.(act := PushMetadata(ok), after := world.Now());
    if ok {
      PushCompletes(e.before, e.after, server, added);
      assert added in OfServer(world.metadata, server);
      assert Complete(e.after, server, added.id);
      EventJoins(past, old(world.history), e, start, server, added.id);
    } else {
      EarlyKeeps(start, past, old(world.history), e, server, added.id);
    }
  }

  // Upload, commit, and the compensation of a failed commit.
  method UploadAndPush(world: World, server: int, added: Backup) returns (ok: bool)
    requires UniqueIds(world.metadata) && FreshId(world.Now(), added.id)
    modifies world
    ensures UniqueIds(world.metadata)
    ensures Considerate(old(world.history), world.history, server, added.id)
    ensures NeverWithout(old(world.history), world.history, old(world.Now()), server)
    ensures OnlyDropped(old(world.Now()), world.Now(), server, added, [])
    ensures ok ==> OfServer(world.metadata, server) == OfServer(old(world.metadata), server) + [added]
    ensures ok ==> Complete(world.Now(), server, added.id)
    ensures !world.uploadsFail && !world.updatesFail ==> ok
    ensures !ok ==> Compensated(old(world.history), world.history, old(world.Now()), world.Now(), server, added.id,
                                world.deletesFail)
  {
    ghost var start, past := world.Now(), world.history;
    MeanwhileEarly(world, server, added.id, start, past);
    ghost var others, h := world.history[|past|], world.history;
    ok := UploadEarly(world, server, added.id, start, past);
    if !ok {
      DidIt(past, past, others);
      DidIt(past, h, world.history[|h|]);
      return;
    }
    MeanwhileEarly(world, server, added.id, start, past);
    ok := PushAdded(world, server, added, start, past);
    if ok {
      assert added in OfServer(world.metadata, server);
    } else {
      MeanwhileEarly(world, server, added.id, start, past);
      Compensate(world, server, added.id, start, past);
    }
  }

  // Deleting what retention selects, once the new backup is complete.
  method ApplyRetention(world: World, server: int, added: Backup, policy: Policy) returns (ghost selected: seq<int>)
    requires UniqueIds(world.metadata) && Complete(world.Now(), server, added.id)
    modifies world
    ensures UniqueIds(world.metadata)
    ensures Considerate(old(world.history), world.history, server, added.id)
    ensures StaysComplete(old(world.history), world.history, server, added.id)
    ensures Complete(world.Now(), server, added.id)
    ensures OnlyDropped(old(world.Now()), world.Now(), server, added, selected)
    ensures added.id !in selected
    ensures forall id ::
              id in selected <==> Selected(OfServer(old(world.metadata), server), policy, added.id, id)
    ensures !world.deletesFail && !world.updatesFail ==> AllGone(world.Now(), server, selected)
    ensures AllTried(old(world.history), world.history, selected)
    ensures NoOrphans(old(world.Now()), world.Now(), server)
  {
    ghost var start, past := world.Now(), world.history;
    var all := OfServer(world.metadata, server);
    var toDelete := PlanRetention(all, policy, added.id);
    selected := toDelete;
    NewIsNeverSelected(all, policy, added.id);
    forall id | id in toDelete
      ensures Lists(start.metadata, server, id)
    {
      SelectedIsListed(all, policy, added.id, id);
    }
    DeleteSelected(world, server, added, toDelete, start, past);
  }

  // The deletion loop.
  method DeleteSelected(world: World, server: int, added: Backup, toDelete: seq<int>,
                        ghost start: Snapshot, ghost past: seq<Event>)
    requires Remaining(start, world.Now(), server, added, toDelete, 0)
    requires Recorded(past, world.history, server, added.id)
    modifies world
    ensures Remaining(start, world.Now(), server, added, toDelete, |toDelete|)
    ensures Recorded(past, world.history, server, added.id)
    ensures !world.deletesFail && !world.updatesFail ==> AllGone(world.Now(), server, toDelete)
    ensures AllTried(past, world.history, toDelete)
  {
    for i := 0 to |toDelete|
      invariant Remaining(start, world.Now(), server, added, toDelete, i)
      invariant Recorded(past, world.history, server, added.id)
      invariant !world.deletesFail && !world.updatesFail ==> AllGone(world.Now(), server, toDelete[..i])
      invariant AllTried(past, world.history, toDelete[..i])
    {
      ghost var before := world.history;
      DeleteOne(world, server, added, toDelete, i, start, past);
      OneMoreTried(past, before, world.history, toDelete, i);
    }
    assert toDelete[..|toDelete|] == toDelete;
  }

  // What the deletion loop keeps of the state: the backups it has still to delete are listed.
  ghost predicate Remaining(start: Snapshot, w: Snapshot, server: int, added: Backup, toDelete: seq<int>, i: nat) {
    && Increasing(toDelete) && added.id !in toDelete
    && UniqueIds(w.metadata) && Complete(w, server, added.id)
    && OnlyDropped(start, w, server, added, toDelete)
    && (forall j | i <= j < |toDelete| :: Lists(w.metadata, server, toDelete[j]))
    && NoOrphans(start, w, server)
  }

  // And of the events.
  ghost predicate Recorded(past: seq<Event>, history: seq<Event>, server: int, newId: int) {
    Considerate(past, history, server, newId) && StaysComplete(past, history, server, newId)
  }

  lemma RecordOne(past: seq<Event>, history: seq<Event>, e: Event, server: int, newId: int)
    requires Recorded(past, history, server, newId) && Complete(e.after, server, newId)
    requires e.act != Others ==> LeavesOthers(e.before, e.after, server, newId)
    ensures Recorded(past, history + [e], server, newId)
  {
  }

  lemma DroppingKeepsIdsUnique(metadata: seq<Stored>, id: int)
    requires UniqueIds(metadata)
    ensures UniqueIds(WithoutId(metadata, id))
  {
    if metadata != [] {
      DroppingKeepsIdsUnique(metadata[1..], id);
      var rest := WithoutId(metadata[1..], id);
      forall j | 0 <= j < |rest|
        ensures rest[j].backup.id != metadata[0].backup.id
      {
        assert rest[j] in metadata[1..];
      }
    }
  }

  lemma DroppingAnotherId(metadata: seq<Stored>, id: int, server: int)
    requires forall m | m in metadata && m.server == server :: m.backup.id != id
    ensures OfServer(WithoutId(metadata, id), server) == OfServer(metadata, server)
  {
    if metadata != [] {
      DroppingAnotherId(metadata[1..], id, server);
      var first, rest := metadata[0], WithoutId(metadata[1..], id);
      if first.backup.id == id {
        assert WithoutId(metadata, id) == rest;
      } else {
        assert WithoutId(metadata, id) == [first] + rest && ([first] + rest)[1..] == rest;
      }
    }
  }

  // A listed id is nobody else's, so dropping it by id alone takes one server's backup.
  lemma ListedForOneServer(metadata: seq<Stored>, server: int, other: int, id: int)
    requires UniqueIds(metadata) && Lists(metadata, server, id) && other != server
    ensures forall m | m in metadata && m.server == other :: m.backup.id != id
  {
    var b :| b in OfServer(metadata, server) && b.id == id;
    var i :| 0 <= i < |metadata| && metadata[i] == Stored(server, b);
    forall m | m in metadata && m.server == other
      ensures m.backup.id != id
    {
      var j :| 0 <= j < |metadata| && metadata[j] == m;
      assert i != j;
    }
  }

  // Dropping the object of backup i leaves the same metadata.
  lemma ObjectDropKeeps(start: Snapshot, before: Snapshot, after: Snapshot, server: int, added: Backup,
                        toDelete: seq<int>, i: nat)
    requires i < |toDelete| && Remaining(start, before, server, added, toDelete, i)
    requires after == before.(objects := before.objects - {(server, toDelete[i])})
    ensures Remaining(start, after, server, added, toDelete, i)
  {
    assert toDelete[i] in toDelete;
  }

  // Whatever others do, the same backups are left to delete, and what is gone stays gone.
  lemma MeanwhileKeeps(start: Snapshot, before: Snapshot, after: Snapshot, server: int, added: Backup,
                       toDelete: seq<int>, i: nat)
    requires Remaining(start, before, server, added, toDelete, i) && Undisturbed(before, after, server, added.id)
    ensures Remaining(start, after, server, added, toDelete, i)
  {
    assert OfServer(after.metadata, server) == OfServer(before.metadata, server);
    assert forall n :: Lists(before.metadata, server, n) ==> Lists(after.metadata, server, n);
  }

  lemma GoneStaysGone(before: Snapshot, after: Snapshot, server: int, newId: int, ids: seq<int>)
    requires AllGone(before, server, ids) && Undisturbed(before, after, server, newId)
    ensures AllGone(after, server, ids)
  {
    forall id | id in ids
      ensures !Lists(after.metadata, server, id)
    {
      assert !Lists(before.metadata, server, id);
    }
  }

  lemma OwnAfterDrop(metadata: seq<Stored>, id: int, server: int)
    ensures forall b :: b in OfServer(WithoutId(metadata, id), server) <==>
                        b in OfServer(metadata, server) && b.id != id
  {
  }

  // Dropping its metadata leaves only the later ones to delete.
  lemma RetainKeeps(start: Snapshot, before: Snapshot, after: Snapshot, server: int, added: Backup,
                    toDelete: seq<int>, i: nat)
    requires i < |toDelete| && Remaining(start, before, server, added, toDelete, i)
    requires (server, toDelete[i]) !in before.objects
    requires after == before.(metadata := WithoutId(before.metadata, toDelete[i]))
    ensures Remaining(start, after, server, added, toDelete, i + 1)
  {
    var id := toDelete[i];
    assert id in toDelete;
    DroppingKeepsIdsUnique(before.metadata, id);
    OwnAfterDrop(before.metadata, id, server);
    assert forall n :: n != id && Lists(before.metadata, server, n) ==> Lists(after.metadata, server, n);
  }

  // And concerns no other server.
  lemma RetainLeavesOthers(before: Snapshot, after: Snapshot, server: int, newId: int, id: int)
    requires UniqueIds(before.metadata) && Lists(before.metadata, server, id)
    requires after == before.(metadata := WithoutId(before.metadata, id))
    ensures LeavesOthers(before, after, server, newId)
  {
    DroppingKeepsIdsUnique(before.metadata, id);
    forall other, n | other != server && n != newId
      ensures Undisturbed(before, after, other, n)
    {
      ListedForOneServer(before.metadata, server, other, id);
      DroppingAnotherId(before.metadata, id, other);
    }
  }

  lemma OneMoreGone(before: Snapshot, after: Snapshot, server: int, ids: seq<int>, i: nat)
    requires i < |ids| && AllGone(before, server, ids[..i]) && (server, ids[i]) !in before.objects
    requires after == before.(metadata := WithoutId(before.metadata, ids[i]))
    ensures AllGone(after, server, ids[..i + 1])
  {
    OwnAfterDrop(before.metadata, ids[i], server);
    forall id | id in ids[..i + 1]
      ensures (server, id) !in after.objects && !Lists(after.metadata, server, id)
    {
      assert id != ids[i] ==> id in ids[..i];
      assert Lists(after.metadata, server, id) ==> Lists(before.metadata, server, id);
    }
  }

  // One turn of the loop: the object first, then its metadata.
  method DeleteOne(world: World, server: int, added: Backup, toDelete: seq<int>, i: nat,
                   ghost start: Snapshot, ghost past: seq<Event>)
    requires i < |toDelete| && Remaining(start, world.Now(), server, added, toDelete, i)
    requires Recorded(past, world.history, server, added.id)
    requires !world.deletesFail && !world.updatesFail ==> AllGone(world.Now(), server, toDelete[..i])
    modifies world
    ensures Remaining(start, world.Now(), server, added, toDelete, i + 1)
    ensures Recorded(past, world.history, server, added.id)
    ensures !world.deletesFail && !world.updatesFail ==> AllGone(world.Now(), server, toDelete[..i + 1])
    ensures old(world.history) <= world.history && Tried(past, world.history, toDelete[i])
  {
    assert toDelete[i] in toDelete;
    if toDelete[i] == added.id {
      return;
    }
    var deleted := DeleteItsObject(world, server, added, toDelete, i, start, past);
    if deleted {
      ghost var h := world.history;
      DropItsMetadata(world, server, added, toDelete, i, start, past);
      DidStays(past, h, world.history, toDelete[i]);
    }
  }

  method DropItsMetadata(world: World, server: int, added: Backup, toDelete: seq<int>, i: nat,
                         ghost start: Snapshot, ghost past: seq<Event>)
    requires i < |toDelete| && Remaining(start, world.Now(), server, added, toDelete, i)
    requires (server, toDelete[i]) !in world.objects
    requires Recorded(past, world.history, server, added.id)
    modifies world
    ensures Remaining(start, world.Now(), server, added, toDelete, i + 1)
    ensures Recorded(past, world.history, server, added.id)
    ensures world.objects == old(world.objects)
    ensures !world.updatesFail && AllGone(old(world.Now()), server, toDelete[..i]) ==>
              AllGone(world.Now(), server, toDelete[..i + 1])
    ensures old(world.history) <= world.history
    ensures Did(past, world.history, DropMetadata(toDelete[i], true))
            || Did(past, world.history, DropMetadata(toDelete[i], false))
  {
    ghost var before := world.Now();
    var ok := world.Retain(toDelete[i]);
    if ok {
      RetainKeeps(start, before, world.Now(), server, added, toDelete, i);
      RetainLeavesOthers(before, world.Now(), server, added.id, toDelete[i]);
      if AllGone(before, server, toDelete[..i]) {
        OneMoreGone(before, world.Now(), server, toDelete, i);
      }
    }
    ghost var e := Event(DropMetadata(toDelete[i], ok), before, world.Now());
    RecordOne(past, old(world.history), e, server, added.id);
    DidIt(past, old(world.history), e);
  }

  method MeanwhileDeleting(world: World, server: int, added: Backup, toDelete: seq<int>, i: nat,
                           ghost start: Snapshot, ghost past: seq<Event>)
    requires i < |toDelete| && Remaining(start, world.Now(), server, added, toDelete, i)
    requires Recorded(past, world.history, server, added.id)
    modifies world
    ensures Remaining(start, world.Now(), server, added, toDelete, i)
    ensures Recorded(past, world.history, server, added.id)
    ensures (server, toDelete[i]) !in old(world.objects) ==> (server, toDelete[i]) !in world.objects
    ensures AllGone(old(world.Now()), server, toDelete[..i]) ==> AllGone(world.Now(), server, toDelete[..i])
    ensures old(world.history) <= world.history
  {
    ghost var before := world.Now();
    world.Meanwhile(server, added.id);
    MeanwhileKeeps(start, before, world.Now(), server, added, toDelete, i);
    if AllGone(before, server, toDelete[..i]) {
      GoneStaysGone(before, world.Now(), server, added.id, toDelete[..i]);
    }
    RecordOne(past, old(world.history), Event(Others, before, world.Now()), server, added.id);
  }

  method DropItsObject(world: World, server: int, added: Backup, toDelete: seq<int>, i: nat,
                       ghost start: Snapshot, ghost past: seq<Event>) returns (ok: bool)
    requires i < |toDelete| && Remaining(start, world.Now(), server, added, toDelete, i)
    requires Recorded(past, world.history, server, added.id)
    modifies world
    ensures Remaining(start, world.Now(), server, added, toDelete, i)
    ensures Recorded(past, world.history, server, added.id)
    ensures ok ==> (server, toDelete[i]) !in world.objects
    ensures !world.deletesFail ==> ok
    ensures old(world.history) <= world.history && Did(past, world.history, DropObject(toDelete[i], ok))
    ensures AllGone(old(world.Now()), server, toDelete[..i]) ==> AllGone(world.Now(), server, toDelete[..i])
  {
    ghost var before := world.Now();
    ok := world.DeleteObject(server, toDelete[i]);
    if world.objects != before.objects {
      ObjectDropKeeps(start, before, world.Now(), server, added, toDelete, i);
    }
    ghost var e := Event(DropObject(toDelete[i], ok), before, world.Now());
    RecordOne(past, old(world.history), e, server, added.id);
    DidIt(past, old(world.history), e);
  }

  // Other servers' runs go on before and after the provider's answer.
  method DeleteItsObject(world: World, server: int, added: Backup, toDelete: seq<int>, i: nat,
                         ghost start: Snapshot, ghost past: seq<Event>) returns (ok: bool)
    requires i < |toDelete| && Remaining(start, world.Now(), server, added, toDelete, i)
    requires Recorded(past, world.history, server, added.id)
    modifies world
    ensures Remaining(start, world.Now(), server, added, toDelete, i)
    ensures Recorded(past, world.history, server, added.id)
    ensures ok ==> (server, toDelete[i]) !in world.objects
    ensures !world.deletesFail ==> ok
    ensures old(world.history) <= world.history && Did(past, world.history, DropObject(toDelete[i], ok))
    ensures AllGone(old(world.Now()), server, toDelete[..i]) ==> AllGone(world.Now(), server, toDelete[..i])
  {
    MeanwhileDeleting(world, server, added, toDelete, i, start, past);
    ok := DropItsObject(world, server, added, toDelete, i, start, past);
    ghost var h := world.history;
    MeanwhileDeleting(world, server, added, toDelete, i, start, past);
    DidStays(past, h, world.history, toDelete[i]);
  }

  lemma MeanwhileAddsUp(a: Snapshot, b: Snapshot, c: Snapshot, server: int, newId: int)
    requires Undisturbed(a, b, server, newId) && Undisturbed(b, c, server, newId)
    ensures Undisturbed(a, c, server, newId)
  {
  }

  /** What `Create` guarantees to others is what it asks of them: any number of
      steps of other servers' runs, in any order, disturb this one in nothing. */
  lemma {:induction false} OthersAreTolerated(events: seq<Event>, owners: seq<(int, int)>, server: int, newId: int)
    requires |events| == |owners| > 0
    requires forall i | 0 < i < |events| :: events[i - 1].after == events[i].before
    requires forall i | 0 <= i < |events| ::
               && owners[i].0 != server && owners[i].1 != newId
               && LeavesOthers(events[i].before, events[i].after, owners[i].0, owners[i].1)
    ensures Undisturbed(events[0].before, events[|events| - 1].after, server, newId)
  {
    var last := |events| - 1;
    if last > 0 {
      OthersAreTolerated(events[..last], owners[..last], server, newId);
      MeanwhileAddsUp(events[0].before, events[last].before, events[last].after, server, newId);
    }
  }
}
