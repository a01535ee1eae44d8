// One handle_expired as a function of the queue's state: it pops the timers that are due,
// runs their callbacks, which may add and cancel timers of the same queue or throw, and gives
// the batch back.  The lemmas say what that comes to.
module TimerBatch {
  import opened Options
  import opened TimerState

  // ---------- What callbacks leave alone ----------

  // From q to r, callbacks cancelled these sequences and no others: a timer that was indexed
  // is deleted if it is among them and untouched otherwise, whatever addresses are reused;
  // the batch is untouched; what was deleted stays deleted; and what they added is indexed
  // unless they cancelled it too.
  ghost predicate OnlyCancelled(q: State, r: State, cancels: seq<Seqno>) {
    && r.batch == q.batch && r.horizon == q.horizon && r.callingExpired == q.callingExpired
    && r.canceling == q.canceling + cancels
    && q.nextSeq <= r.nextSeq && q.clock <= r.clock && r.fd.read == q.fd.read
    && (forall k :: 0 <= k < |q.batch| ==>
          q.batch[k] in q.heap && q.batch[k] in r.heap && r.heap[q.batch[k]] == q.heap[q.batch[k]])
    && (forall s {:trigger s in q.active} :: s in q.active ==>
          if s in cancels then s in r.deletedAt
          else && s in r.active && r.active[s] == q.active[s]
               && q.active[s] in q.heap && q.active[s] in r.heap
               && r.heap[q.active[s]] == q.heap[q.active[s]])
    && (forall s {:trigger s in q.deletedAt} :: s in q.deletedAt ==>
          s in r.deletedAt && r.deletedAt[s] == q.deletedAt[s])
    && AddedStay(q.nextSeq, r.nextSeq, r.active, cancels)
  }

  ghost predicate AddedStay(from: Seqno, to: Seqno, active: map<Seqno, Addr>, cancels: seq<Seqno>) {
    forall s: Seqno {:trigger s in active} :: from <= s < to ==> s in active || s in cancels
  }

  lemma OnlyCancelledTwice(q: State, r: State, t: State, c: seq<Seqno>, d: seq<Seqno>)
    requires OnlyCancelled(q, r, c) && OnlyCancelled(r, t, d)
    ensures OnlyCancelled(q, t, c + d)
  {
    assert q.canceling + c + d == q.canceling + (c + d);
    forall s: Seqno | q.nextSeq <= s < t.nextSeq
      ensures s in t.active || s in c + d
    {
      assert s < r.nextSeq ==> s in r.active || s in c;
    }
  }

  lemma CoreFacts(q: State)
    requires Core(q)
    ensures Indexed(q.timers, q.active, q.heap)
    ensures forall s :: s in q.active ==> q.active[s] in q.heap && q.heap[q.active[s]].seqno == s
    ensures forall s, t :: s in q.active && t in q.active && q.active[s] == q.active[t] ==> s == t
    ensures forall k :: 0 <= k < |q.batch| ==> q.batch[k] in q.heap
    ensures forall k, s :: 0 <= k < |q.batch| && s in q.active ==> q.batch[k] != q.active[s]
    ensures forall s :: s in q.active ==> s !in q.deletedAt
    ensures q.nextSeq !in q.active
  {
    assert forall s :: s in q.active ==> s in q.owner;
  }

  lemma InsertShape(q: State, callback: Script, when: Time, interval: int, addr: Addr, now: Time, latency: Latency)
    requires q.clock <= now
    ensures var r := Inserted(q, callback, when, interval, addr, now, latency);
            && r == q.(nextSeq := q.nextSeq + 1,
                       heap := q.heap[addr := Timer(callback, when, interval, q.nextSeq)],
                       owner := q.owner[q.nextSeq := addr],
                       timers := q.timers + {Entry(when, addr)},
                       active := q.active[q.nextSeq := addr],
                       clock := r.clock, fd := r.fd, nonNegative := r.nonNegative)
            && q.clock <= r.clock && r.fd.read == q.fd.read
            && r.nonNegative == (q.nonNegative && when >= now && interval >= 0 && NonNegative(callback))
  {
    hide NonNegative;
  }

  // From q to r, timer t is new, under the next sequence and at a free address.
  ghost predicate Gains(q: State, r: State, t: Timer) {
    && t.seqno == q.nextSeq && r.nextSeq == q.nextSeq + 1 && t.seqno in r.active
    && var a := r.active[t.seqno];
       && a !in q.heap && r.heap == q.heap[a := t] && r.timers == q.timers + {Entry(t.expiration, a)}
       && r.active == q.active[t.seqno := a]
       && r.fired == q.fired && r.deletedAt == q.deletedAt && r.batch == q.batch && r.fd.read == q.fd.read
  }

  lemma InsertGains(q: State, callback: Script, when: Time, interval: int, addr: Addr, now: Time, latency: Latency)
    requires addr !in q.heap && q.clock <= now
    ensures Gains(q, Inserted(q, callback, when, interval, addr, now, latency),
                  Timer(callback, when, interval, q.nextSeq))
  {
    hide Inserted, NonNegative;
    InsertShape(q, callback, when, interval, addr, now, latency);
  }

  lemma InsertOnlyAdds(q: State, callback: Script, when: Time, interval: int, addr: Addr, now: Time, latency: Latency)
    requires Core(q) && CanInsert(q, addr, now)
    ensures var r := Inserted(q, callback, when, interval, addr, now, latency);
            && OnlyCancelled(q, r, [])
            && r.ran == q.ran && r.fired == q.fired
            && r.nonNegative == (q.nonNegative && when >= now && interval >= 0 && NonNegative(callback))
            && r.nextSeq == q.nextSeq + 1
            && q.nextSeq in r.active && r.active[q.nextSeq] == addr
            && addr in r.heap && r.heap[addr] == Timer(callback, when, interval, q.nextSeq)
  {
    hide Core, Inserted, NonNegative;
    CoreFacts(q);
    InsertShape(q, callback, when, interval, addr, now, latency);
  }

  // cancel looks a timer up by its sequence: the address in the id, which may by now belong
  // to another timer, plays no part.
  lemma CancelOnlyCancels(q: State, id: TimerId, now: Time, lag: nat)
    requires Core(q) && q.callingExpired && q.clock <= now
    ensures OnlyCancelled(q, Cancelled(q, id, now, lag), if id.timer.Some? then [id.seqno] else [])
  {
    hide Core, Indexed, Cancelled, OnlyCancelled;
    CoreFacts(q);
    CancelCases(q, id, now, lag);
    if id.timer.Some? && id.seqno in q.active {
      CancelShape(q, id, now, lag);
      DropsOnlyOne(q, Cancelled(q, id, now, lag), id.seqno);
    } else if id.timer.Some? {
      NotesOnly(q, id.seqno);
    } else {
      OnlyCancelledNothing(q);
    }
  }

  lemma DropsOnlyOne(q: State, r: State, s: Seqno)
    requires Core(q) && s in q.active && q.callingExpired
    requires r == q.(timers := r.timers, active := q.active - {s}, heap := q.heap - {q.active[s]},
                     owner := r.owner, deletedAt := q.deletedAt[s := |q.fired|],
                     canceling := q.canceling + [s], fd := r.fd, clock := r.clock)
    requires q.clock <= r.clock && r.fd.read == q.fd.read
    ensures OnlyCancelled(q, r, [s])
  {
    hide Core;
    CoreFacts(q);
  }

  lemma NotesOnly(q: State, s: Seqno)
    requires Core(q) && s !in q.active
    ensures OnlyCancelled(q, q.(canceling := q.canceling + [s]), [s])
  {
    hide Core;
    CoreFacts(q);
  }

  lemma CancelIsIdempotent(q: State, id: TimerId, now: Time, later: Time, lag: nat)
    requires Valid(q) && q.clock <= now <= later
    ensures var r := Cancelled(q, id, now, lag);
            Valid(r) && Cancelled(r, id, later, lag) == r
  {
    hide Valid, Indexed, Cancelled;
    ValidIsIndexed(q);
    NotCalling(q);
    CancelKeeps(q, id, now, lag);
    CancelCases(q, id, now, lag);
    if id.timer.Some? && id.seqno in q.active {
      CancelShape(q, id, now, lag);
    }
    var r := Cancelled(q, id, now, lag);
    ValidIsIndexed(r);
    CancelCases(r, id, later, lag);
  }

  lemma NotCalling(q: State)
    requires Valid(q)
    ensures !q.callingExpired
  {
  }

  // Outside a batch, a stale or repeated id changes nothing at all, and a live one removes
  // exactly its own timer.
  lemma CancelIsExact(q: State, id: TimerId, now: Time, lag: nat)
    requires Valid(q) && q.clock <= now
    ensures var r := Cancelled(q, id, now, lag);
            && (id.timer.None? || id.seqno !in q.active ==> r == q)
            && r.nextSeq == q.nextSeq && r.fired == q.fired
            && (forall a :: a in r.heap <==> a in q.heap && (id.timer.None? || q.heap[a].seqno != id.seqno))
            && (forall a :: a in r.heap ==> r.heap[a] == q.heap[a])
            && (id.timer.Some? && 1 <= id.seqno < q.nextSeq ==> id.seqno in r.deletedAt)
  {
    if id.timer.Some? && id.seqno in q.active {
      CancelShape(q, id, now, lag);
      hide History, InOrder, FdAgrees, Cancelled;
    } else {
      hide Indexed, History, InOrder, FdAgrees;
    }
  }

  lemma OnlyCancelledNothing(q: State)
    requires Core(q)
    ensures OnlyCancelled(q, q, [])
  {
    BatchIsLive(q);
  }

  lemma CancelLeavesRuns(q: State, id: TimerId, now: Time, lag: nat)
    requires Core(q) && q.clock <= now
    ensures var r := Cancelled(q, id, now, lag);
            r.ran == q.ran && r.fired == q.fired && r.nonNegative == q.nonNegative
  {
    if id.timer.Some? && id.seqno in q.active {
      CancelShape(q, id, now, lag);
      hide Cancelled, Inverse, Placed, Issued;
    }
  }

  lemma EntryCancelsNothing(q: State, r: State, cancels: seq<Seqno>)
    requires q.ran < |q.batch| && q.batch[q.ran] in q.heap
    requires OnlyCancelled(RunNext(q), r, cancels)
    ensures OnlyCancelled(q, r, cancels)
  {
  }

  // ---------- A callback ----------

  lemma InBatchIsCore(q: State)
    requires InBatch(q)
    ensures Core(q) && Indexed(q.timers, q.active, q.heap) && q.callingExpired
    ensures forall a :: a !in q.heap ==> CanInsert(q, a, q.clock)
  {
  }

  ghost function Performed(q: State, action: Action): (r: State)
    requires InBatch(q) && !action.Throw?
    ensures InBatch(r)
  {
    hide InBatch, Core, CanInsert, Inserted, Cancelled, Indexed;
    InBatchIsCore(q);
    match action
    case Elapse(ns) =>
      ElapseKeeps(q, ns);
      q.(clock := q.clock + ns)
    case After(delay, body, hint, latency) =>
      var addr := Allocate(q.heap, hint);
      InsertKeeps(q, body, q.clock + delay, 0, addr, q.clock, latency);
      Inserted(q, body, q.clock + delay, 0, addr, q.clock, latency)
    case Every(interval, body, hint, latency) =>
      var addr := Allocate(q.heap, hint);
      InsertKeeps(q, body, q.clock + interval, interval, addr, q.clock, latency);
      Inserted(q, body, q.clock + interval, interval, addr, q.clock, latency)
    case CancelTimer(id, latency) =>
      CancelKeeps(q, id, q.clock + latency.read, latency.call);
      Cancelled(q, id, q.clock + latency.read, latency.call)
  }

  // The callback up to its n-th action; what comes after a throw is never reached.
  ghost function CalledUpTo(q: State, script: Script, n: nat): (r: State)
    requires InBatch(q) && n <= FirstThrow(script)
    ensures InBatch(r)
  {
    if n == 0 then q else Performed(CalledUpTo(q, script, n - 1), script[n - 1])
  }

  ghost predicate CallbackFrame(q: State, r: State, cancels: seq<Seqno>, nonNegative: bool) {
    && OnlyCancelled(q, r, cancels)
    && r.ran == q.ran && r.fired == q.fired
    && (q.nonNegative && nonNegative ==> r.nonNegative)
  }

  // A callback's clock moves by what passes in it, and what it adds is due a delay or an interval
  // after that, and again after every further interval.
  lemma PerformedAdds(q: State, action: Action)
    requires InBatch(q) && !action.Throw?
    ensures var r := Performed(q, action);
            match action
            case Elapse(ns) => r == q.(clock := q.clock + ns)
            case After(delay, body, _, _) => Gains(q, r, Timer(body, q.clock + delay, 0, q.nextSeq))
            case Every(interval, body, _, _) =>
              Gains(q, r, Timer(body, q.clock + interval, interval, q.nextSeq))
            case CancelTimer(_, _) => r.nextSeq == q.nextSeq
  {
    hide InBatch, Core, CanInsert, Inserted, Cancelled, Gains;
    InBatchIsCore(q);
    match action {
      case Elapse(_) =>
      case After(delay, body, hint, latency) =>
        InsertGains(q, body, q.clock + delay, 0, Allocate(q.heap, hint), q.clock, latency);
      case Every(interval, body, hint, latency) =>
        InsertGains(q, body, q.clock + interval, interval, Allocate(q.heap, hint), q.clock, latency);
      case CancelTimer(id, latency) => CancelIssuesNothing(q, id, q.clock + latency.read, latency.call);
    }
  }

  lemma CancelIssuesNothing(q: State, id: TimerId, now: Time, lag: nat)
    requires Indexed(q.timers, q.active, q.heap)
    ensures Cancelled(q, id, now, lag).nextSeq == q.nextSeq
  {
    hide Indexed, Earliest, IsEarliest;
  }

  lemma PerformedFrame(q: State, action: Action)
    requires InBatch(q) && !action.Throw?
    ensures CallbackFrame(q, Performed(q, action), CancelOf(action), DelayAtLeast(action, 0))
  {
    hide InBatch, OnlyCancelled, Core, CanInsert, Cancelled, Inserted;
    InBatchIsCore(q);
    match action {
      case Elapse(ns) =>
        ElapseChangesNothing(q, ns);
      case After(delay, body, hint, latency) =>
        InsertOnlyAdds(q, body, q.clock + delay, 0, Allocate(q.heap, hint), q.clock, latency);
      case Every(interval, body, hint, latency) =>
        InsertOnlyAdds(q, body, q.clock + interval, interval, Allocate(q.heap, hint), q.clock, latency);
      case CancelTimer(id, latency) =>
        CancelOnlyCancels(q, id, q.clock + latency.read, latency.call);
        CancelLeavesRuns(q, id, q.clock + latency.read, latency.call);
    }
  }

  lemma ElapseKeeps(q: State, ns: nat)
    requires InBatch(q)
    ensures InBatch(q.(clock := q.clock + ns))
  {
  }

  lemma ElapseChangesNothing(q: State, ns: nat)
    requires Core(q)
    ensures OnlyCancelled(q, q.(clock := q.clock + ns), [])
  {
    OnlyCancelledNothing(q);
  }

  lemma {:induction false} CalledFrame(q: State, script: Script, n: nat)
    requires InBatch(q) && n <= FirstThrow(script)
    ensures CallbackFrame(q, CalledUpTo(q, script, n), CancelsUpTo(script, n), NonNegative(script))
  {
    hide InBatch, OnlyCancelled, Core, Performed;
    if n == 0 {
      InBatchIsCore(q);
      OnlyCancelledNothing(q);
    } else {
      var p := CalledUpTo(q, script, n - 1);
      CalledFrame(q, script, n - 1);
      PerformedFrame(p, script[n - 1]);
      OnlyCancelledTwice(q, p, Performed(p, script[n - 1]), CancelsUpTo(script, n - 1), CancelOf(script[n - 1]));
    }
  }

  // ---------- The three loops ----------

  ghost function PopAll(q: State, now: Time): (r: State)
    requires Popping(q, now)
    ensures Popping(r, now) && forall e :: e in r.timers ==> e.when > now
    decreases |q.timers|
  {
    if q.timers == {} || Earliest(q.timers).when > now then q
    else
      PopKeeps(q, now);
      PopAll(Popped(q), now)
  }

  ghost function RunUpTo(q: State, n: nat): (r: State)
    requires InBatch(q) && q.ran == 0 && n <= |q.batch|
    ensures InBatch(r) && r.ran == n && r.batch == q.batch
  {
    hide InBatch, Core, OnlyCancelled, RunNext, NonNegative, Cancels;
    if n == 0 then q
    else
      var p := RunUpTo(q, n - 1);
      InBatchIsCore(p);
      BatchIsLive(p);
      RunKeeps(p);
      RunNextShape(p);
      var script := p.heap[p.batch[n - 1]].callback;
      CalledFrame(RunNext(p), script, FirstThrow(script));
      SameBatch(RunNext(p), CalledUpTo(RunNext(p), script, FirstThrow(script)),
                CancelsUpTo(script, FirstThrow(script)));
      CalledUpTo(RunNext(p), script, FirstThrow(script))
  }

  lemma RunNextShape(q: State)
    requires q.ran < |q.batch| && q.batch[q.ran] in q.heap
    ensures RunNext(q).ran == q.ran + 1 && RunNext(q).batch == q.batch
  {
  }

  lemma SameBatch(q: State, r: State, cancels: seq<Seqno>)
    requires OnlyCancelled(q, r, cancels)
    ensures r.batch == q.batch
  {
  }

  ghost function GivenBackUpTo(q: State, n: nat): (r: State)
    requires GivingBack(q) && n <= |q.batch|
    ensures GivingBack(r) && r.batch == q.batch[n..]
  {
    hide GivingBack, Core, GivenBack;
    if n == 0 then q
    else
      var p := GivenBackUpTo(q, n - 1);
      GivingBackIsCore(p);
      BatchIsLive(p);
      GiveBackKeeps(p);
      GivenBackShortens(p);
      GivenBack(p)
  }

  lemma GivenBackShortens(q: State)
    requires q.ran == |q.batch| > 0 && q.batch[0] in q.heap
    ensures GivenBack(q).batch == q.batch[1..]
  {
  }

  ghost function HandleExpired(q: State, now: Time, latency: Latency): (r: State)
    requires Valid(q) && q.clock <= now
    ensures Valid(r)
  {
    hide Valid, Popping, PoppedFrom, InBatch, GivingBack;
    PoppingStarts(q, now);
    var popped := PopAll(q, now);
    StartKeeps(popped, now);
    PoppingFacts(popped, now);
    var after := RunUpTo(Started(popped, now), |popped.batch|);
    GiveBackStarts(after);
    var back := GivenBackUpTo(after.(callingExpired := false), |popped.batch|);
    FinishKeeps(back, back.clock + latency.read, latency.call);
    Finished(back, back.clock + latency.read, latency.call)
  }

  // The timers that handle_expired pops, in that order.
  ghost function Batch(q: State, now: Time): seq<Addr>
    requires Valid(q) && q.clock <= now
  {
    PoppingStarts(q, now);
    PopAll(q, now).batch
  }

  lemma PoppingStarts(q: State, now: Time)
    requires Valid(q) && q.clock <= now
    ensures Popping(q, now) && PoppedFrom(q, q)
  {
  }

  // ---------- What they come to ----------

  // The batch: exactly the timers due by now, in the order of the set.
  ghost predicate IsBatch(q: State, expired: seq<Addr>, now: Time) {
    && (forall k :: 0 <= k < |expired| ==>
          && expired[k] in q.heap && q.heap[expired[k]].expiration <= now
          && Entry(q.heap[expired[k]].expiration, expired[k]) in q.timers)
    && (forall k, l :: 0 <= k < l < |expired| && expired[k] in q.heap && expired[l] in q.heap ==>
          Before(Entry(q.heap[expired[k]].expiration, expired[k]), Entry(q.heap[expired[l]].expiration, expired[l])))
    && (forall e {:trigger e in q.timers} :: e in q.timers && e.when <= now ==> e.addr in expired)
  }

  function Firings(expired: seq<Addr>, heap: map<Addr, Timer>, now: Time): (f: seq<Firing>)
    requires forall k :: 0 <= k < |expired| ==> expired[k] in heap
    ensures |f| == |expired|
  {
    seq(|expired|, k requires 0 <= k < |expired| =>
      Firing(heap[expired[k]].seqno, heap[expired[k]].expiration, heap[expired[k]].interval, now))
  }

  function BatchCancels(expired: seq<Addr>, heap: map<Addr, Timer>, n: nat): seq<Seqno>
    requires n <= |expired| && forall k :: 0 <= k < |expired| ==> expired[k] in heap
  {
    if n == 0 then [] else BatchCancels(expired, heap, n - 1) + Cancels(heap[expired[n - 1]].callback)
  }

  // A timer of the batch is queued again, one interval after the batch's reading and otherwise
  // the same, exactly when it is periodic and was not cancelled meanwhile, and is deleted
  // otherwise; any other timer stays as it was unless it was cancelled.
  ghost predicate AfterBatch(q: State, r: State, expired: seq<Addr>, cancels: seq<Seqno>, now: Time) {
    forall s {:trigger s in q.active} :: s in q.active && q.active[s] in q.heap ==>
      var a := q.active[s];
      var t := q.heap[a];
      if s in cancels || (a in expired && t.interval <= 0) then s in r.deletedAt && s !in r.active
      else
        && s in r.active && r.active[s] == a && a in r.heap
        && r.heap[a] == if a in expired then Timer(t.callback, now + t.interval, t.interval, s) else t
  }

  ghost predicate DeletedStay(before: map<Seqno, nat>, after: map<Seqno, nat>) {
    forall s {:trigger s in before} :: s in before ==> s in after && after[s] == before[s]
  }

  // Between two rounds of the first loop that began in q.
  ghost predicate PoppedFrom(q: State, r: State) {
    && r == q.(timers := r.timers, active := r.active, batch := r.batch)
    && r.timers <= q.timers
    && (forall e {:trigger e in q.timers} :: e in q.timers ==> e in r.timers || e.addr in r.batch)
    && (forall k :: 0 <= k < |r.batch| ==>
          r.batch[k] in q.heap && Entry(q.heap[r.batch[k]].expiration, r.batch[k]) in q.timers)
    && (forall s {:trigger s in q.active} :: s in q.active ==>
          q.active[s] in r.batch || (s in r.active && r.active[s] == q.active[s]))
  }

  lemma PopStep(q: State, r: State, now: Time)
    requires Popping(r, now) && PoppedFrom(q, r) && r.timers != {}
    ensures PoppedFrom(q, Popped(r))
  {
    hide Inverse, Placed, Issued, History, Queued, QueuedAfter, InOrder;
    var e := Earliest(r.timers);
    assert forall a :: a in r.batch ==> a in r.batch + [e.addr];
    assert e.addr in r.batch + [e.addr];
  }

  // Between two rounds of the last loop that began in q: what it has done with the first i ...
  ghost predicate Handled(q: State, r: State, expired: seq<Addr>, i: nat) {
    forall k :: 0 <= k < i <= |expired| && expired[k] in q.heap ==>
      HandledOne(q, r, expired[k])
  }

  ghost predicate HandledOne(q: State, r: State, a: Addr)
    requires a in q.heap
  {
    var t := q.heap[a];
    if t.interval > 0 && t.seqno !in q.canceling then
      && t.seqno in r.active && r.active[t.seqno] == a
      && a in r.heap && r.heap[a] == Timer(t.callback, q.horizon + t.interval, t.interval, t.seqno)
    else t.seqno in r.deletedAt
  }

  // ... the rest of the batch as it was ...
  ghost predicate Waiting(q: State, r: State, expired: seq<Addr>, i: nat) {
    && i <= |expired| && r.batch == expired[i..]
    && (forall k :: i <= k < |expired| && expired[k] in q.heap ==>
          expired[k] in r.heap && r.heap[expired[k]] == q.heap[expired[k]])
  }

  // ... and everything else left alone.
  ghost predicate Untouched(q: State, r: State) {
    && r == q.(timers := r.timers, active := r.active, heap := r.heap, owner := r.owner,
               deletedAt := r.deletedAt, batch := r.batch, ran := r.ran)
    && (forall s {:trigger s in q.active} :: s in q.active ==>
          && s in r.active && r.active[s] == q.active[s]
          && q.active[s] in q.heap && q.active[s] in r.heap
          && r.heap[q.active[s]] == q.heap[q.active[s]])
    && (forall s {:trigger s in q.deletedAt} :: s in q.deletedAt ==>
          s in r.deletedAt && r.deletedAt[s] == q.deletedAt[s])
  }

  lemma GiveBackWaits(q: State, r: State, expired: seq<Addr>, i: nat)
    requires Core(q) && q.batch == expired
    requires r.ran == |r.batch| > 0 && r.batch[0] in r.heap
    requires Waiting(q, r, expired, i)
    ensures Waiting(q, GivenBack(r), expired, i + 1)
  {
    hide Core;
    DistinctBatch(q);
    assert r.batch[1..] == expired[i + 1..] && r.batch[0] == expired[i];
  }

  lemma GiveBackUntouched(q: State, r: State)
    requires Core(q) && GivingBack(r) && r.batch != []
    requires Untouched(q, r) && r.batch[0] in q.batch && r.batch[0] in r.heap
    ensures Untouched(q, GivenBack(r))
  {
    hide Core, GivingBack, GivenBack;
    var a := r.batch[0];
    var k :| 0 <= k < |q.batch| && q.batch[k] == a;
    GivingBackIsCore(r);
    CoreFacts(q);
    BatchIsLive(r);
    LiveIsNotDeleted(r);
    assert forall s :: s in q.active ==> q.active[s] != a && s != r.heap[a].seqno;
    assert r.heap[a].seqno !in q.deletedAt;
    GivenBackLeaves(r);
  }

  // A round of the last loop changes nothing but its own timer.
  lemma GivenBackLeaves(q: State)
    requires q.ran == |q.batch| > 0 && q.batch[0] in q.heap
    ensures var r := GivenBack(q);
            var a := q.batch[0];
            var s := q.heap[a].seqno;
            && r == q.(timers := r.timers, active := r.active, heap := r.heap, owner := r.owner,
                       deletedAt := r.deletedAt, batch := r.batch, ran := r.ran)
            && (forall b :: b in q.heap && b != a ==> b in r.heap && r.heap[b] == q.heap[b])
            && (forall u :: u in q.active && u != s ==> u in r.active && r.active[u] == q.active[u])
            && (forall u :: u in q.deletedAt && u != s ==> u in r.deletedAt && r.deletedAt[u] == q.deletedAt[u])
  {
  }

  lemma GiveBackHandles(q: State, r: State, expired: seq<Addr>, i: nat)
    requires Core(q) && q.batch == expired && i < |expired|
    requires r.ran == |r.batch| > 0 && r.batch[0] == expired[i]
    requires expired[i] in q.heap && expired[i] in r.heap && r.heap[expired[i]] == q.heap[expired[i]]
    requires r.canceling == q.canceling && r.horizon == q.horizon
    requires Handled(q, r, expired, i)
    ensures Handled(q, GivenBack(r), expired, i + 1)
  {
    hide Core;
    DistinctBatch(q);
    forall k | 0 <= k < i + 1
      ensures HandledOne(q, GivenBack(r), expired[k])
    {
      if k < i {
        assert HandledOne(q, r, expired[k]);
      }
    }
  }

  lemma DistinctBatch(q: State)
    requires Core(q)
    ensures forall k, l :: 0 <= k < l < |q.batch| ==>
              && q.batch[k] != q.batch[l]
              && q.batch[k] in q.heap && q.batch[l] in q.heap
              && q.heap[q.batch[k]].seqno != q.heap[q.batch[l]].seqno
  {
  }

  lemma {:induction false} PopAllFrom(q: State, r: State, now: Time)
    requires Popping(r, now) && PoppedFrom(q, r)
    ensures PoppedFrom(q, PopAll(r, now))
    decreases |r.timers|
  {
    if r.timers != {} && Earliest(r.timers).when <= now {
      PopKeeps(r, now);
      PopStep(q, r, now);
      hide Popping, PoppedFrom;
      PopAllFrom(q, Popped(r), now);
    }
  }

  lemma {:induction false} RunUpToMeans(q: State, n: nat)
    requires InBatch(q) && q.ran == 0 && n <= |q.batch|
    ensures forall k :: 0 <= k < |q.batch| ==> q.batch[k] in q.heap
    ensures var r := RunUpTo(q, n);
            && OnlyCancelled(q, r, BatchCancels(q.batch, q.heap, n))
            && r.fired == q.fired + Firings(q.batch, q.heap, q.horizon)[..n]
            && (q.nonNegative ==> r.nonNegative)
  {
    hide InBatch, Core, OnlyCancelled, Cancels, RunNext, CalledUpTo;
    InBatchIsCore(q);
    BatchIsLive(q);
    if n == 0 {
      OnlyCancelledNothing(q);
    } else {
      var p := RunUpTo(q, n - 1);
      RunUpToMeans(q, n - 1);
      RunKeeps(p);
      InBatchIsCore(p);
      BatchIsLive(p);
      BatchIsNonNegative(p, n - 1);
      RunUpToStep(q, p, n);
    }
  }

  lemma BatchIsNonNegative(q: State, k: nat)
    requires InBatch(q) && k < |q.batch| && q.batch[k] in q.heap
    ensures q.nonNegative ==> NonNegative(q.heap[q.batch[k]].callback)
  {
  }

  lemma OnlyCancelledFacts(q: State, r: State, cancels: seq<Seqno>, k: nat)
    requires OnlyCancelled(q, r, cancels) && k < |q.batch|
    ensures r.horizon == q.horizon && r.batch == q.batch && q.batch[k] in q.heap && q.batch[k] in r.heap
    ensures r.heap[q.batch[k]] == q.heap[q.batch[k]]
  {
  }

  lemma RunUpToStep(q: State, p: State, n: nat)
    requires 0 < n <= |q.batch| && forall k :: 0 <= k < |q.batch| ==> q.batch[k] in q.heap
    requires p.ran == n - 1 && p.batch == q.batch && p.batch[n - 1] in p.heap && InBatch(RunNext(p))
    requires p.nonNegative ==> NonNegative(p.heap[p.batch[n - 1]].callback)
    requires OnlyCancelled(q, p, BatchCancels(q.batch, q.heap, n - 1))
    requires p.fired == q.fired + Firings(q.batch, q.heap, q.horizon)[..n - 1]
    requires q.nonNegative ==> p.nonNegative
    ensures var script := p.heap[p.batch[n - 1]].callback;
            var r := CalledUpTo(RunNext(p), script, FirstThrow(script));
            && OnlyCancelled(q, r, BatchCancels(q.batch, q.heap, n))
            && r.fired == q.fired + Firings(q.batch, q.heap, q.horizon)[..n]
            && (q.nonNegative ==> r.nonNegative)
  {
    hide OnlyCancelled, InBatch, Core, CancelsUpTo, NonNegative, Firings;
    var script := p.heap[p.batch[n - 1]].callback;
    var r := CalledUpTo(RunNext(p), script, FirstThrow(script));
    CalledFrame(RunNext(p), script, FirstThrow(script));
    OnlyCancelledFacts(q, p, BatchCancels(q.batch, q.heap, n - 1), n - 1);
    EntryCancelsNothing(p, r, Cancels(script));
    OnlyCancelledTwice(q, p, r, BatchCancels(q.batch, q.heap, n - 1), Cancels(script));
    FiringsGrow(q.batch, q.heap, q.horizon, n);
  }

  lemma FiringsGrow(expired: seq<Addr>, heap: map<Addr, Timer>, now: Time, n: nat)
    requires 0 < n <= |expired| && forall k :: 0 <= k < |expired| ==> expired[k] in heap
    ensures var t := heap[expired[n - 1]];
            Firings(expired, heap, now)[..n]
              == Firings(expired, heap, now)[..n - 1] + [Firing(t.seqno, t.expiration, t.interval, now)]
  {
    var all := Firings(expired, heap, now);
    assert all[..n] == all[..n - 1] + [all[n - 1]];
  }

  lemma {:induction false} GivenBackUpToMeans(q: State, n: nat)
    requires GivingBack(q) && n <= |q.batch|
    ensures var r := GivenBackUpTo(q, n);
            Handled(q, r, q.batch, n) && Waiting(q, r, q.batch, n) && Untouched(q, r)
  {
    hide Core, GivingBack, Handled, Waiting, Untouched, GivenBack;
    GivingBackIsCore(q);
    if n == 0 {
      NothingGivenBack(q);
    } else {
      var p := GivenBackUpTo(q, n - 1);
      GivenBackUpToMeans(q, n - 1);
      GiveBackFacts(q, p, n - 1);
      GiveBackHandles(q, p, q.batch, n - 1);
      GiveBackWaits(q, p, q.batch, n - 1);
      GiveBackUntouched(q, p);
    }
  }

  lemma NothingGivenBack(q: State)
    requires GivingBack(q)
    ensures Handled(q, q, q.batch, 0) && Waiting(q, q, q.batch, 0) && Untouched(q, q)
  {
    hide Indexed, Inverse, Issued, History, InOrder;
    BatchIsLive(q);
    IndexIsLive(q);
  }

  lemma IndexIsLive(q: State)
    requires Core(q)
    ensures forall s :: s in q.active ==> q.active[s] in q.heap
  {
  }

  lemma GivingBackIsCore(q: State)
    requires GivingBack(q)
    ensures Core(q) && q.ran == |q.batch|
  {
  }

  lemma GiveBackFacts(q: State, r: State, i: nat)
    requires GivingBack(q) && GivingBack(r) && i < |q.batch|
    requires Waiting(q, r, q.batch, i) && Untouched(q, r)
    ensures r.batch != [] && r.batch[0] == q.batch[i] && r.ran == |r.batch|
    ensures r.horizon == q.horizon && r.canceling == q.canceling
    ensures q.batch[i] in q.heap && q.batch[i] in r.heap && r.heap[q.batch[i]] == q.heap[q.batch[i]]
  {
    hide Core, GivingBack;
    GivingBackIsCore(q);
    GivingBackIsCore(r);
    BatchIsLive(q);
  }

  lemma PoppedIsBatch(q: State, r: State, now: Time)
    requires Popping(r, now) && PoppedFrom(q, r)
    requires forall e :: e in r.timers ==> e.when > now
    ensures IsBatch(q, r.batch, now)
  {
  }

  // handle_expired in full: which callbacks run and in what order, what they cancel, and
  // which timers are left.
  lemma HandleExpiredMeans(q: State, now: Time, latency: Latency) returns (expired: seq<Addr>, cancels: seq<Seqno>)
    requires Valid(q) && q.clock <= now
    ensures expired == Batch(q, now) && IsBatch(q, expired, now)
    ensures cancels == BatchCancels(expired, q.heap, |expired|)
    ensures var r := HandleExpired(q, now, latency);
            && r.fired == q.fired + Firings(expired, q.heap, now)
            && AfterBatch(q, r, expired, cancels, now)
            && (q.nonNegative ==> r.nonNegative)
            && (r.timers != {} ==> r.fd.armed.Some?)
            && r.fd.read == q.fd.read
            && DeletedStay(q.deletedAt, r.deletedAt)
            && q.nextSeq <= r.nextSeq && AddedStay(q.nextSeq, r.nextSeq, r.active, cancels)
            && forall s :: s in r.active ==> s !in r.deletedAt
  {
    hide AddedStay, Valid, Popping, PoppedFrom, InBatch, GivingBack, IsBatch, AfterBatch, PopAll, RunUpTo,
         GivenBackUpTo, Core, BatchCancels, Firings, DeletedStay, Finished;
    PoppingStarts(q, now);
    PopAllFrom(q, q, now);
    var a := PopAll(q, now);
    PoppedFacts(q, a);
    PoppedIsBatch(q, a, now);
    StartKeeps(a, now);
    PoppingFacts(a, now);
    var b := RunUpTo(Started(a, now), |a.batch|);
    GiveBackStarts(b);
    var r := GivenBackUpTo(b.(callingExpired := false), |a.batch|);
    expired := a.batch;
    cancels := BatchCancels(expired, q.heap, |expired|);
    RestMeans(q, a, Started(a, now), b, b.(callingExpired := false), r, now);
    FinishedShape(r, r.clock + latency.read, latency.call);
    FinishKeeps(r, r.clock + latency.read, latency.call);
    ValidIsCore(Finished(r, r.clock + latency.read, latency.call));
    CoreFacts(Finished(r, r.clock + latency.read, latency.call));
    AfterIsStable(q, r, Finished(r, r.clock + latency.read, latency.call), expired, cancels, now);
  }

  lemma FinishedShape(q: State, now: Time, lag: nat)
    ensures var r := Finished(q, now, lag);
            && r == q.(canceling := r.canceling, fd := r.fd, clock := r.clock)
            && (r.timers != {} ==> r.fd.armed.Some?) && r.fd.read == q.fd.read
  {
  }

  ghost predicate RestDone(q: State, a: State, r: State, now: Time) {
    && a.heap == q.heap && (forall k :: 0 <= k < |a.batch| ==> a.batch[k] in q.heap)
    && var cancels := BatchCancels(a.batch, q.heap, |a.batch|);
       && AfterBatch(q, r, a.batch, cancels, now)
       && r.fired == q.fired + Firings(a.batch, q.heap, now)
       && (q.nonNegative ==> r.nonNegative) && r.fd.read == q.fd.read
       && DeletedStay(q.deletedAt, r.deletedAt)
       && q.nextSeq <= r.nextSeq && AddedStay(q.nextSeq, r.nextSeq, r.active, cancels)
  }

  // The second and the last loop, after the first has led from q to a.
  lemma RestMeans(q: State, a: State, s: State, b: State, c: State, r: State, now: Time)
    requires s == Started(a, now) && s.ran == 0 && s.canceling == [] && InBatch(s)
    requires b == RunUpTo(s, |s.batch|)
    requires c == b.(callingExpired := false) && GivingBack(c)
    requires r == GivenBackUpTo(c, |c.batch|)
    requires Valid(q) && PoppedFrom(q, a)
    ensures RestDone(q, a, r, now)
  {
    hide AddedStay, DeletedStay, Valid, PoppedFrom, InBatch, GivingBack, OnlyCancelled, Handled, Untouched,
         Waiting, Core, AfterBatch, RunUpTo, GivenBackUpTo;
    PoppedFacts(q, a);
    RunUpToMeans(Started(a, now), |a.batch|);
    var all := Firings(a.batch, q.heap, now);
    assert all[..|a.batch|] == all;
    GivenBackUpToMeans(c, |a.batch|);
    GivingBackIsCore(r);
    InBatchIsCore(b);
    var cancels := BatchCancels(a.batch, q.heap, |a.batch|);
    RunFacts(Started(a, now), b, cancels);
    UntouchedFacts(c, r);
    AddedStayToo(q.nextSeq, r.nextSeq, b.active, r.active, cancels);
    DeletedStayTwice(q.deletedAt, b.deletedAt, r.deletedAt);
    AfterAll(q, a, b, r, a.batch, cancels, now);
  }

  lemma PoppedFacts(q: State, a: State)
    requires Valid(q) && PoppedFrom(q, a)
    ensures a.heap == q.heap && a.fired == q.fired && a.nonNegative == q.nonNegative && a.fd == q.fd
    ensures a.deletedAt == q.deletedAt && a.nextSeq == q.nextSeq
    ensures forall k :: 0 <= k < |a.batch| ==> a.batch[k] in q.heap
  {
  }

  lemma PoppingFacts(q: State, now: Time)
    requires Popping(q, now)
    ensures q.ran == 0 && q.canceling == []
  {
  }

  lemma RunFacts(q: State, r: State, cancels: seq<Seqno>)
    requires OnlyCancelled(q, r, cancels) && q.canceling == []
    ensures r.canceling == cancels && r.fd.read == q.fd.read && DeletedStay(q.deletedAt, r.deletedAt)
    ensures q.nextSeq <= r.nextSeq && AddedStay(q.nextSeq, r.nextSeq, r.active, cancels)
  {
  }

  lemma GiveBackStarts(q: State)
    requires InBatch(q) && q.ran == |q.batch|
    ensures GivingBack(q.(callingExpired := false))
  {
  }

  lemma UntouchedFacts(q: State, r: State)
    requires Untouched(q, r)
    ensures r.fired == q.fired && r.nonNegative == q.nonNegative && r.fd == q.fd && r.clock == q.clock
    ensures DeletedStay(q.deletedAt, r.deletedAt)
    ensures r.nextSeq == q.nextSeq && forall s :: s in q.active ==> s in r.active
  {
  }

  lemma AddedStayToo(from: Seqno, to: Seqno, active: map<Seqno, Addr>, later: map<Seqno, Addr>, cancels: seq<Seqno>)
    requires AddedStay(from, to, active, cancels) && forall s :: s in active ==> s in later
    ensures AddedStay(from, to, later, cancels)
  {
    forall s: Seqno | from <= s < to
      ensures s in later || s in cancels
    {
      assert s in active ==> s in later;
    }
  }

  lemma DeletedStayTwice(a: map<Seqno, nat>, b: map<Seqno, nat>, c: map<Seqno, nat>)
    requires DeletedStay(a, b) && DeletedStay(b, c)
    ensures DeletedStay(a, c)
  {
  }

  lemma AfterIsStable(q: State, r: State, t: State, expired: seq<Addr>, cancels: seq<Seqno>, now: Time)
    requires AfterBatch(q, r, expired, cancels, now)
    requires t == r.(canceling := t.canceling, fd := t.fd, clock := t.clock)
    ensures AfterBatch(q, t, expired, cancels, now)
  {
  }

  lemma ValidIsCore(q: State)
    requires Valid(q)
    ensures Core(q)
  {
  }

  lemma AfterAll(q: State, a: State, b: State, r: State, expired: seq<Addr>, cancels: seq<Seqno>, now: Time)
    requires Valid(q) && PoppedFrom(q, a) && a.batch == expired
    requires Core(b) && OnlyCancelled(Started(a, now), b, cancels) && b.canceling == cancels
    requires Handled(b.(callingExpired := false), r, expired, |expired|) && Untouched(b.(callingExpired := false), r)
    requires Core(r)
    ensures AfterBatch(q, r, expired, cancels, now)
  {
    hide Valid, Core;
    ValidIsCore(q);
    CoreFacts(q);
    CoreFacts(b);
    CoreFacts(r);
    LiveIsNotDeleted(r);
    PoppedFacts(q, a);
    forall s | s in q.active && q.active[s] in expired
      ensures HandledOne(b.(callingExpired := false), r, q.active[s])
    {
      var k :| 0 <= k < |expired| && expired[k] == q.active[s];
    }
  }

  lemma PoppingIsIndexed(q: State, now: Time)
    requires Popping(q, now)
    ensures Indexed(q.timers, q.active, q.heap)
  {
  }

  lemma GivenBackKeepsHorizon(q: State)
    requires q.ran == |q.batch| > 0 && q.batch[0] in q.heap
    ensures GivenBack(q).horizon == q.horizon
  {
  }

  lemma RunUpToKeepsHorizon(q: State, n: nat)
    requires InBatch(q) && q.ran == 0 && n <= |q.batch|
    ensures RunUpTo(q, n).horizon == q.horizon
  {
    hide InBatch, OnlyCancelled;
    RunUpToMeans(q, n);
    SameHorizon(q, RunUpTo(q, n), BatchCancels(q.batch, q.heap, n));
  }

  lemma SameHorizon(q: State, r: State, cancels: seq<Seqno>)
    requires OnlyCancelled(q, r, cancels)
    ensures r.horizon == q.horizon
  {
  }

  // ---------- The kernel and the watcher ----------

  function Expired(q: State, at: Time): State {
    if q.fd.armed.Some? && q.fd.armed.value.deadline <= at then
      q.(clock := at, fd := q.fd.(armed := None, ticks := true))
    else
      q.(clock := at)
  }

  // A read needs an expiry to complete; a failed one consumes nothing.
  function Read(q: State, ok: bool): State {
    if !q.fd.read.Posted? then q
    else if !ok then q.(fd := q.fd.(read := Failed))
    else if q.fd.ticks then q.(fd := q.fd.(read := Done, ticks := false))
    else q
  }

  function Posting(q: State): State {
    if q.fd.read.NotStarted? then q.(fd := q.fd.(read := Posted)) else q
  }

  ghost function Completed(q: State, now: Time, latency: Latency): State
    requires Valid(q) && q.clock <= now
  {
    var r := if q.fd.read.Done? then HandleExpired(q, now, latency) else q;
    r.(fd := r.fd.(read := Posted))
  }

  lemma KernelKeeps(q: State, at: Time, ok: bool)
    requires Valid(q) && q.clock <= at
    ensures Valid(Expired(q, at)) && Valid(Read(q, ok)) && Valid(Posting(q))
  {
    hide Indexed, Inverse, Placed, Issued, Runs, SameInterval, AllDue, Quiet, InOrder;
  }

  lemma CompletedKeeps(q: State, now: Time, latency: Latency)
    requires Valid(q) && q.clock <= now && (q.fd.read.Done? || q.fd.read.Failed?)
    ensures Valid(Completed(q, now, latency))
  {
    hide Indexed, Inverse, Placed, Issued, Runs, SameInterval, AllDue, Quiet, InOrder, IsBatch, AfterBatch,
         HandleExpired;
    if q.fd.read.Done? {
      var expired, cancels := HandleExpiredMeans(q, now, latency);
    }
  }

  // A failed read of the timerfd runs nothing and changes nothing; a completed one runs callbacks
  // exactly if some timer is due.  The read is posted again after either.
  lemma CompletionMeans(q: State, now: Time, latency: Latency)
    requires Valid(q) && q.clock <= now && (q.fd.read.Done? || q.fd.read.Failed?)
    ensures var r := Completed(q, now, latency);
            && q.fired <= r.fired && r.fd.read.Posted?
            && (q.fd.read.Failed? ==> r == q.(fd := TimerFd(q.fd.armed, q.fd.ticks, Posted)))
            && (r.fired == q.fired <==> q.fd.read.Failed? || forall e :: e in q.timers ==> e.when > now)
  {
    hide AddedStay, Valid, AfterBatch, DeletedStay, HandleExpired, BatchCancels, Batch;
    if q.fd.read.Done? {
      var expired, cancels := HandleExpiredMeans(q, now, latency);
      NothingIsDue(q, expired, now);
    }
  }

  lemma NothingIsDue(q: State, expired: seq<Addr>, now: Time)
    requires IsBatch(q, expired, now)
    ensures expired == [] <==> forall e :: e in q.timers ==> e.when > now
  {
    forall e | e in q.timers && e.when <= now
      ensures expired != []
    {
      assert e.addr in expired;
    }
    if expired != [] {
      assert Entry(q.heap[expired[0]].expiration, expired[0]) in q.timers;
    }
  }

  lemma ValidIsIndexed(q: State)
    requires Valid(q) || InBatch(q)
    ensures Indexed(q.timers, q.active, q.heap)
  {
  }

  lemma CancelCases(q: State, id: TimerId, now: Time, lag: nat)
    requires Indexed(q.timers, q.active, q.heap)
    ensures id.timer.None? ==> Cancelled(q, id, now, lag) == q
    ensures id.timer.Some? && id.seqno !in q.active ==>
              Cancelled(q, id, now, lag) == if q.callingExpired then q.(canceling := q.canceling + [id.seqno]) else q
  {
  }

  // ---------- The destructor ----------

  // Between two deletions, with the entries of rest still to go.
  ghost predicate TearingDown(q: State, rest: set<Entry>) {
    && Inverse(q.heap, q.owner) && Issued(q.nextSeq, q.owner, q.deletedAt)
    && (forall a {:trigger a in q.heap} :: a in q.heap ==> Entry(q.heap[a].expiration, a) in rest)
    && (forall e {:trigger e in rest} :: e in rest ==> e.addr in q.heap && q.heap[e.addr].expiration == e.when)
  }

  lemma TearDownStarts(q: State)
    requires Valid(q)
    ensures TearingDown(q, q.timers)
  {
  }

  lemma TearDownStep(q: State, rest: set<Entry>, e: Entry)
    requires TearingDown(q, rest) && e in rest
    ensures e.addr in q.heap && TearingDown(Deleted(q, e.addr), rest - {e})
  {
    DeleteKeepsIssued(q, e.addr);
    hide Inverse, Issued;
  }

  lemma TearDownEnds(q: State)
    requires TearingDown(q, {})
    ensures q.heap == map[] && forall s :: 1 <= s < q.nextSeq ==> s in q.deletedAt
  {
  }

  lemma NewTop(timers: set<Entry>, when: Time)
    ensures (forall e :: e in timers ==> when < e.when) <==> timers == {} || when < Earliest(timers).when
  {
  }
}
