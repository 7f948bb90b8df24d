// The resumable chunk protocol of src/backups/google_drive.rs: send a chunk,
// ask for the committed offset when the reply is lost, resume from there.
module ResumableUpload {
  import opened Options

  type Bytes = seq<bv8>

  const CHUNK_SIZE := 8 * 1024 * 1024
  const MAX_ATTEMPTS := 4

  /** A Content-Range header: `bytes first-last/complete`, with an inclusive
      last position (section 14.4 of RFC 9110). */
  datatype ContentRange = ContentRange(first: nat, last: nat, complete: nat)

  datatype Request = Request(range: ContentRange, body: Bytes)

  // What the client sees of a chunk request; a lost reply is a failure too.
  datatype Reply = Success | Incomplete | Failed(retryable: bool)

  // What the client sees of a status query; a 308 may come without a Range.
  datatype Status = Complete | Committed(last: nat) | NoRange | StatusUnknown

  /** What the client did and saw: a chunk request, a status query, or a read of
      the local file that failed. */
  datatype Exchange = Sent(request: Request, reply: Reply) | Asked(status: Status) | ReadFailed

  // A range that a recipient must accept as valid and that describes the body.
  predicate Describes(r: Request) {
    && r.range.first <= r.range.last < r.range.complete
    && |r.body| == r.range.last - r.range.first + 1
  }

  // Bytes the server already holds are ignored; it never forgets one.
  function Merged(stored: Bytes, first: nat, part: Bytes): Bytes
    requires first <= |stored|
  {
    if |stored| - first <= |part| then stored + part[|stored| - first..] else stored
  }

  /** An upload session. The server may commit any part of a request body and
      lose any reply, but a 2xx or 308 reply to a chunk acknowledges all of it.
      A status reply tells the committed offset, or has no readable Range: that
      is right while nothing is committed, and otherwise happens a finite number
      of times, `unreadable` more. */
  class Session {
    const size: nat
    // Whether anything can go wrong: a request, a reply, a read of the local file.
    const faulty: bool
    var stored: Bytes
    var unreadable: nat
    ghost var requests: seq<Request>
    ghost var trace: seq<Exchange>

    constructor (total: nat, faults: bool, unreadableReplies: nat)
      ensures size == total && faulty == faults && unreadable == unreadableReplies
      ensures stored == [] && requests == [] && trace == []
    {
      size, faulty, unreadable, stored, requests, trace := total, faults, unreadableReplies, [], [], [];
    }

    method Fault() returns (failed: bool)
      ensures failed ==> faulty
    {
      failed := *;
      failed := failed && faulty;
    }

    // Read at most a chunk of the local file; nothing is read only at its end.
    method ReadChunk(from: nat) returns (n: Option<nat>)
      requires from <= size
      modifies `trace
      ensures n.Some? ==> trace == old(trace) && n.value <= CHUNK_SIZE && n.value <= size - from
      ensures n.Some? ==> (n.value == 0 <==> from == size)
      ensures n.None? ==> faulty && trace == old(trace) + [ReadFailed]
    {
      var failed := Fault();
      if failed {
        trace := trace + [ReadFailed];
        return None;
      }
      if from == size {
        return Some(0);
      }
      var k: nat :| 1 <= k <= CHUNK_SIZE && k <= size - from;
      n := Some(k);
    }

    method Put(request: Request) returns (reply: Reply)
      requires Describes(request) && request.range.complete == size
      requires request.range.first <= |stored|
      modifies `stored, `requests, `trace
      ensures trace == old(trace) + [Sent(request, reply)]
      ensures exists n :: 0 <= n <= |request.body|
                          && stored == Merged(old(stored), request.range.first, request.body[..n])
      ensures !reply.Failed? ==> stored == Merged(old(stored), request.range.first, request.body)
      ensures requests == old(requests) + [request]
      ensures reply.Success? ==> |stored| == size
      ensures reply.Incomplete? ==> |stored| != size
      ensures !faulty ==> !reply.Failed?
    {
      var n := |request.body|;
      if faulty {
        n :| 0 <= n <= |request.body|;
      }
      stored := Merged(stored, request.range.first, request.body[..n]);
      requests := requests + [request];
      assert request.body[..|request.body|] == request.body;
      var lost := Fault();
      if n < |request.body| || lost {
        var retryable: bool := *;
        reply := Failed(retryable);
      } else if |stored| == size {
        reply := Success;
      } else {
        reply := Incomplete;
      }
      trace := trace + [Sent(request, reply)];
    }

    method QueryStatus() returns (status: Status)
      requires |stored| <= size
      modifies `unreadable, `trace
      ensures trace == old(trace) + [Asked(status)]
      ensures unreadable <= old(unreadable)
      ensures status.Complete? ==> |stored| == size
      ensures !faulty ==> !status.StatusUnknown?
      ensures status.Committed? ==> status.last + 1 == |stored|
      ensures status.NoRange? ==> stored == [] || unreadable < old(unreadable)
    {
      var lost := Fault();
      var noRange: bool := *;
      if lost {
        status := StatusUnknown;
      } else if |stored| == size {
        status := Complete;
      } else if stored == [] {
        status := NoRange;
      } else if noRange && unreadable > 0 {
        unreadable := unreadable - 1;
        status := NoRange;
      } else {
        status := Committed(|stored| - 1);
      }
      trace := trace + [Asked(status)];
    }
  }

  /* ----- the protocol, as seen by the client ----- */

  // The offset a status reply gives, if it gives one.
  function Offset(status: Status, size: nat): Option<nat> {
    match status
    case Complete => Some(size)
    case Committed(last) => Some(last + 1)
    case NoRange => Some(0)
    case StatusUnknown => None
  }

  // Where the next request has to start.
  function Due(trace: seq<Exchange>, size: nat): nat {
    if trace == [] then
      0
    else
      var before := trace[..|trace| - 1];
      match trace[|trace| - 1]
      case Sent(request, reply) => if reply.Failed? then request.range.first else request.range.last + 1
      case Asked(status) => if Offset(status, size).Some? then Offset(status, size).value else Due(before, size)
      case ReadFailed => Due(before, size)
  }

  // How often in a row sending from this offset has failed.
  function Failures(trace: seq<Exchange>, size: nat): nat {
    if trace == [] then
      0
    else
      var before := trace[..|trace| - 1];
      match trace[|trace| - 1]
      case Sent(_, reply) => if reply.Failed? then Failures(before, size) + 1 else 0
      case Asked(_) => if Due(trace, size) == Due(before, size) then Failures(before, size) else 0
      case ReadFailed => Failures(before, size)
  }

  // The last chunk went through, or its failure has been asked about.
  ghost predicate MaySend(trace: seq<Exchange>) {
    trace == [] || trace[|trace| - 1].Asked?
    || (trace[|trace| - 1].Sent? && !trace[|trace| - 1].reply.Failed?)
  }

  // A failure that can be retried, and not yet the fourth in a row.
  ghost predicate MayAsk(trace: seq<Exchange>, size: nat) {
    && trace != [] && trace[|trace| - 1].Sent? && trace[|trace| - 1].reply == Failed(true)
    && Failures(trace, size) < 4
  }

  /** Every request starts where the replies so far say, every failure is asked
      about before anything is sent again, and only retryable ones are. */
  ghost predicate FollowsProtocol(trace: seq<Exchange>, size: nat) {
    trace == []
    || (var before := trace[..|trace| - 1];
        && FollowsProtocol(before, size)
        && match trace[|trace| - 1]
           case Sent(request, _) => MaySend(before) && request.range.first == Due(before, size)
           case Asked(_) => MayAsk(before, size)
           case ReadFailed => MaySend(before))
  }

  // A failure that cannot be retried, or the fourth in a row.
  ghost predicate GaveUp(trace: seq<Exchange>, size: nat) {
    && trace != [] && trace[|trace| - 1].Sent? && trace[|trace| - 1].reply.Failed?
    && (trace[|trace| - 1].reply.retryable ==> Failures(trace, size) == 4)
  }

  // Ready for the next chunk.
  ghost predicate Ready(trace: seq<Exchange>, size: nat, due: nat) {
    FollowsProtocol(trace, size) && MaySend(trace) && Due(trace, size) == due && Failures(trace, size) == 0
  }

  lemma OneMore(trace: seq<Exchange>, e: Exchange)
    ensures (trace + [e])[..|trace|] == trace
  {
  }

  /** query_upload_status: the committed offset, if it could be learnt; a 308
      without a readable Range counts as 0. */
  method QueryUploadStatus(session: Session, total: nat) returns (committed: Option<nat>)
    requires |session.stored| <= session.size == total
    modifies session`unreadable, session`trace
    ensures exists status :: session.trace == old(session.trace) + [Asked(status)] && committed == Offset(status, total)
    ensures session.unreadable <= old(session.unreadable)
    ensures committed.Some? ==> committed.value <= |session.stored|
    ensures committed.Some? && committed.value != |session.stored| ==>
              committed.value == 0 && session.unreadable < old(session.unreadable)
  {
    var status := session.QueryStatus();
    match status {
      case Complete => committed := Some(total);
      case Committed(last) => committed := Some(last + 1);
      case NoRange => committed := Some(0);
      case StatusUnknown => committed := None;
    }
  }

  // The server holds the first bytes of the file, at least up to `uploaded`.
  ghost predicate InStep(stored: Bytes, file: Bytes, uploaded: nat) {
    uploaded <= |stored| <= |file| && stored == file[..|stored|]
  }

  // Every request carried exactly the bytes of the file that its range names.
  ghost predicate Faithful(requests: seq<Request>, file: Bytes) {
    forall r | r in requests ::
      && Describes(r) && r.range.complete == |file| && r.body == file[r.range.first..r.range.last + 1]
      && |r.body| <= 8_388_608
  }

  lemma MergedStaysInStep(stored: Bytes, file: Bytes, uploaded: nat, first: nat, part: Bytes)
    requires InStep(stored, file, uploaded) && first <= uploaded
    requires first + |part| <= |file| && part == file[first..first + |part|]
    ensures InStep(Merged(stored, first, part), file, uploaded)
    ensures first + |part| <= |Merged(stored, first, part)|
    ensures |stored| <= |Merged(stored, first, part)|
  {
    if |stored| - first <= |part| {
      assert Merged(stored, first, part) == file[..first + |part|];
    }
  }

  /** One chunk: at most four attempts, asking for the committed offset between
      them, and giving up only on a failure that cannot be retried or on the
      fourth. On success either the whole chunk is committed and `next` is still
      its start, or `next` is the offset to resume from: a later one, or 0 after a
      status reply without a readable Range. */
  method SendChunk(session: Session, file: Bytes, start: nat, n: nat) returns (ok: bool, next: nat)
    requires InStep(session.stored, file, start) && Faithful(session.requests, file) && session.size == |file|
    requires 1 <= n <= |file| - start && n <= CHUNK_SIZE
    requires Ready(session.trace, |file|, start)
    modifies session
    ensures FollowsProtocol(session.trace, |file|)
    ensures ok ==> Ready(session.trace, |file|, if next == start then start + n else next)
    ensures !ok ==> GaveUp(session.trace, |file|)
    ensures InStep(session.stored, file, start) && Faithful(session.requests, file)
    ensures |old(session.requests)| < |session.requests| <= |old(session.requests)| + MAX_ATTEMPTS
    ensures ok && next == start ==> start + n <= |session.stored|
    ensures session.unreadable <= old(session.unreadable)
    ensures ok && next != start ==> next <= |session.stored|
    ensures ok && next != start ==> start < next || session.unreadable < old(session.unreadable)
    ensures !session.faulty ==> ok && next == start && |session.requests| == |old(session.requests)| + 1
  {
    next := start;
    var attempts := 0;
    while true
      invariant 0 <= attempts < MAX_ATTEMPTS && next == start
      invariant Attempting(session.trace, |file|, start, attempts)
      invariant !session.faulty ==> attempts == 0
      invariant InStep(session.stored, file, start) && Faithful(session.requests, file)
      invariant session.unreadable <= old(session.unreadable)
      invariant |session.requests| == |old(session.requests)| + attempts
      decreases MAX_ATTEMPTS - attempts
    {
      ghost var before := session.trace;
      var reply := PutChunk(session, file, start, n);
      AttemptMade(before, session.trace, |file|, start, n, attempts, reply);
      if !reply.Failed? {
        return true, next;
      }
      attempts := attempts + 1;
      if !reply.retryable || attempts >= MAX_ATTEMPTS {
        return false, next;
      }
      before := session.trace;
      var committed := QueryUploadStatus(session, |file|);
      StatusAsked(before, session.trace, |file|, start, attempts, committed);
      if committed.Some? && committed.value != start {
        next := committed.value;
        return true, next;
      }
    }
  }

  // Before an attempt: so many have failed.
  ghost predicate Attempting(trace: seq<Exchange>, size: nat, start: nat, attempts: nat) {
    FollowsProtocol(trace, size) && MaySend(trace) && Due(trace, size) == start && Failures(trace, size) == attempts
  }

  lemma AttemptMade(before: seq<Exchange>, after: seq<Exchange>, size: nat, start: nat, n: nat, attempts: nat,
                    reply: Reply)
    requires Attempting(before, size, start, attempts) && n > 0
    requires exists request: Request :: request.range.first == start && request.range.last == start + n - 1
                               && after == before + [Sent(request, reply)]
    ensures FollowsProtocol(after, size)
    ensures !reply.Failed? ==> Ready(after, size, start + n)
    ensures reply.Failed? ==> Due(after, size) == start && Failures(after, size) == attempts + 1
    ensures reply.Failed? && (!reply.retryable || attempts + 1 == 4) ==> GaveUp(after, size)
    ensures reply.Failed? && reply.retryable && attempts + 1 < 4 ==> MayAsk(after, size)
  {
    OneMore(before, after[|before|]);
  }

  lemma StatusAsked(before: seq<Exchange>, after: seq<Exchange>, size: nat, start: nat, attempts: nat,
                    committed: Option<nat>)
    requires FollowsProtocol(before, size) && MayAsk(before, size)
    requires Due(before, size) == start && Failures(before, size) == attempts
    requires exists status :: after == before + [Asked(status)] && committed == Offset(status, size)
    ensures committed.Some? && committed.value != start ==> Ready(after, size, committed.value)
    ensures committed.None? || committed.value == start ==> Attempting(after, size, start, attempts)
  {
    OneMore(before, after[|before|]);
  }

  // One attempt: the request names exactly the bytes it carries.
  method PutChunk(session: Session, file: Bytes, start: nat, n: nat) returns (reply: Reply)
    requires InStep(session.stored, file, start) && Faithful(session.requests, file) && session.size == |file|
    requires 1 <= n <= |file| - start && n <= CHUNK_SIZE
    modifies session`stored, session`requests, session`trace
    ensures exists request: Request :: request.range.first == start && request.range.last == start + n - 1
                              && session.trace == old(session.trace) + [Sent(request, reply)]
    ensures InStep(session.stored, file, start) && Faithful(session.requests, file)
    ensures |session.requests| == |old(session.requests)| + 1
    ensures !reply.Failed? ==> start + n <= |session.stored|
    ensures !session.faulty ==> !reply.Failed?
  {
    var request := Request(ContentRange(start, start + n - 1, |file|), file[start..start + n]);
    ghost var before := session.stored;
    reply := session.Put(request);
    ghost var k :| 0 <= k <= n && session.stored == Merged(before, start, request.body[..k]);
    assert request.body[..k] == file[start..start + k];
    MergedStaysInStep(before, file, start, start, request.body[..k]);
    MergedStaysInStep(before, file, start, start, request.body);
  }

  // Four requests per byte, and four more per byte for each restart at 0.
  function Budget(uploaded: nat, size: nat, restarts: nat): nat {
    MAX_ATTEMPTS * (uploaded + size * restarts)
  }

  lemma {:induction false} MoreRestarts(size: nat, restarts: nat, more: nat)
    requires restarts < more
    ensures size * restarts + size <= size * more
    decreases more
  {
    assert size * more == size * (more - 1) + size;
    if restarts < more - 1 {
      MoreRestarts(size, restarts, more - 1);
    }
  }

  lemma BudgetGrows(start: nat, next: nat, size: nat, restarts: nat, more: nat)
    requires start < size && next <= size && restarts <= more
    requires start < next || restarts < more
    ensures Budget(start, size, restarts) + MAX_ATTEMPTS <= Budget(next, size, more)
  {
    if restarts < more {
      MoreRestarts(size, restarts, more);
    }
  }

  /** The chunk loop of `upload`. If it ends without an error the server holds
      exactly the file; it ends with an error exactly when the local file could
      not be read or a chunk was given up; the client follows the protocol; every
      request's range names the bytes it carries; and the loop ends after at most
      four requests per byte of the file, as many again for each status reply
      without a readable Range. Without faults it succeeds. */
  method Upload(session: Session, file: Bytes) returns (ok: bool)
    requires session.stored == [] && session.requests == [] && session.trace == [] && session.size == |file|
    modifies session
    ensures FollowsProtocol(session.trace, |file|)
    ensures ok ==> Ready(session.trace, |file|, |file|)
    ensures !ok <==> GaveUp(session.trace, |file|)
                     || (session.trace != [] && session.trace[|session.trace| - 1].ReadFailed?)
    ensures ok ==> session.stored == file
    ensures Faithful(session.requests, file)
    ensures session.stored <= file
    ensures session.unreadable <= old(session.unreadable)
    ensures |session.requests| <= Budget(|file|, |file|, old(session.unreadable) - session.unreadable)
    ensures !session.faulty ==> ok && |session.requests| <= |file|
  {
    ghost var replies := session.unreadable;
    var uploaded: nat := 0;
    while true
      invariant InStep(session.stored, file, uploaded) && Faithful(session.requests, file)
      invariant Ready(session.trace, |file|, uploaded)
      invariant session.unreadable <= replies
      invariant |session.requests| <= Budget(uploaded, |file|, replies - session.unreadable)
      invariant !session.faulty ==> |session.requests| <= uploaded
      decreases session.unreadable, |file| - uploaded
    {
      // seek to `uploaded`, then read: a read may return fewer bytes than asked
      ghost var read := session.trace;
      var chunk := session.ReadChunk(uploaded);
      if chunk.None? {
        OneMore(read, ReadFailed);
        return false;
      }
      if chunk.value == 0 {
        break;
      }
      var n, start := chunk.value, uploaded;
      ghost var before := replies - session.unreadable;
      var sent, next := SendChunk(session, file, start, n);
      BudgetGrows(start, |file|, |file|, before, replies - session.unreadable);
      if !sent {
        return false;
      }
      BudgetGrows(start, if next == start then start + n else next, |file|, before, replies - session.unreadable);
      uploaded := next;
      if uploaded == start {
        uploaded := uploaded + n;
      } else {
        continue;
      }
    }
    ok := true;
  }
}
