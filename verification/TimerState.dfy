// The state of a per-scheduler timer queue and the steps that change it: an ordered set of
// (expiration, Timer*) pairs, a sequence-to-timer index, Timer objects that are allocated
// and deleted by hand, and the kernel's timerfd.  The lemmas say what every step keeps.
module TimerState {
  import opened Options

  type Time = int    // nanoseconds on the steady clock
  type Addr = nat    // the address of a Timer object; a freed address may be handed out again
  type Seqno = nat   // TimerSequence, without its 64-bit wrap-around

  datatype TimerId = TimerId(timer: Option<Addr>, seqno: Seqno)

  // Time that passes inside a call: between its two clock readings, and between the second and
  // the kernel's start of the relative setting.
  datatype Latency = Latency(read: nat, call: nat)

  // What a callback does, as the queue sees it: time passes, it adds and cancels timers of
  // the same queue, and it may end by throwing.  `hint` is where the allocator starts looking.
  datatype Action =
    | Elapse(ns: nat)
    | After(delay: int, body: seq<Action>, hint: Addr, latency: Latency)
    | Every(interval: int, body: seq<Action>, hint: Addr, latency: Latency)
    | CancelTimer(id: TimerId, latency: Latency)
    | Throw

  type Script = seq<Action>

  datatype Timer = Timer(callback: Script, expiration: Time, interval: int, seqno: Seqno) {
    predicate Repeat() {
      interval > 0
    }

    function Restart(now: Time): Timer {
      this.(expiration := now + interval)
    }
  }

  datatype Entry = Entry(when: Time, addr: Addr)

  // One run of a callback: its timer, the expiration it was queued under, its interval, and
  // the clock reading of the batch it ran in.
  datatype Firing = Firing(seqno: Seqno, expiration: Time, interval: int, at: Time)

  // The kernel's side: a one-shot setting, an unread expiry, and the watcher's read.
  // A setting is relative and counts from the call, which comes lag after the clock reading.
  datatype Setting = Setting(when: Time, setAt: Time, lag: nat, deadline: Time)
  datatype ReadState = NotStarted | Posted | Done | Failed
  datatype TimerFd = TimerFd(armed: Option<Setting>, ticks: bool, read: ReadState)

  datatype State = State(
    nextSeq: Seqno,
    timers: set<Entry>,
    active: map<Seqno, Addr>,
    callingExpired: bool,
    canceling: seq<Seqno>,
    heap: map<Addr, Timer>,        // the Timer objects allocated and not yet deleted
    fd: TimerFd,
    clock: Time,                   // the latest reading of the steady clock
    batch: seq<Addr>,              // handle_expired's vector, as far as not yet given back
    ran: nat,                      // how many of the batch have been run
    horizon: Time,                 // the clock reading of the latest batch
    fired: seq<Firing>,            // every run of a callback so far
    owner: map<Seqno, Addr>,       // the inverse of the heap
    deletedAt: map<Seqno, nat>,    // for a deleted timer, how many runs came before
    nonNegative: bool)             // every delay and interval so far was non-negative

  // ---------- The order of the set ----------

  predicate Before(a: Entry, b: Entry) {
    a.when < b.when || (a.when == b.when && a.addr < b.addr)
  }

  predicate IsEarliest(e: Entry, s: set<Entry>) {
    e in s && forall f :: f in s ==> f == e || Before(e, f)
  }

  lemma EarliestExists(s: set<Entry>)
    requires s != {}
    ensures exists e :: IsEarliest(e, s)
  {
    var x :| x in s;
    if s == {x} {
      assert IsEarliest(x, s);
    } else {
      EarliestExists(s - {x});
      var y :| IsEarliest(y, s - {x});
      assert forall f :: f in s ==> f == x || f in s - {x};
      assert IsEarliest(if Before(x, y) then x else y, s);
    }
  }

  // std::set::begin
  ghost function Earliest(s: set<Entry>): (e: Entry)
    requires s != {}
    ensures IsEarliest(e, s)
  {
    EarliestExists(s);
    var e :| IsEarliest(e, s);
    e
  }

  // ---------- Callbacks ----------

  function FirstThrow(script: Script): (n: nat)
    ensures n <= |script|
    ensures forall i :: 0 <= i < n ==> !script[i].Throw?
    ensures n < |script| ==> script[n].Throw?
  {
    if script == [] || script[0].Throw? then 0 else 1 + FirstThrow(script[1..])
  }

  function CancelOf(action: Action): seq<Seqno> {
    if action.CancelTimer? && action.id.timer.Some? then [action.id.seqno] else []
  }

  function CancelsUpTo(script: Script, n: nat): seq<Seqno>
    requires n <= |script|
  {
    if n == 0 then [] else CancelsUpTo(script, n - 1) + CancelOf(script[n - 1])
  }

  // The sequences that a callback cancels, in order, up to where it throws.
  function Cancels(script: Script): seq<Seqno> {
    CancelsUpTo(script, FirstThrow(script))
  }

  // Every delay and interval that the callback or the ones it adds may ask for.
  predicate DelaysAtLeast(script: Script, min: int) {
    forall a :: a in script ==> DelayAtLeast(a, min)
  }

  predicate DelayAtLeast(a: Action, min: int) {
    match a
    case After(delay, body, _, _) => delay >= min && DelaysAtLeast(body, min)
    case Every(interval, body, _, _) => interval >= min && DelaysAtLeast(body, min)
    case _ => true
  }

  predicate NonNegative(script: Script) {
    DelaysAtLeast(script, 0)
  }

  // ---------- What a run promises ----------

  // Callbacks ran in order of expiration.
  predicate Ordered(fired: seq<Firing>) {
    forall i, j :: 0 <= i < j < |fired| ==> fired[i].expiration <= fired[j].expiration
  }

  // No callback ran early, and the batches read a monotone clock.
  predicate NeverEarly(fired: seq<Firing>) {
    && (forall i :: 0 <= i < |fired| ==> fired[i].expiration <= fired[i].at)
    && (forall i, j :: 0 <= i < j < |fired| ==> fired[i].at <= fired[j].at)
  }

  // A timer runs again only if it is periodic, and then at least one interval later.
  predicate Spaced(fired: seq<Firing>) {
    forall i, j :: 0 <= i < j < |fired| && fired[i].seqno == fired[j].seqno ==>
      fired[i].interval > 0 && fired[j].at >= fired[i].at + fired[i].interval
  }

  // ---------- Invariants ----------

  // The ordered set and the index are one bijection.
  ghost predicate Indexed(timers: set<Entry>, active: map<Seqno, Addr>, heap: map<Addr, Timer>) {
    && (forall e {:trigger e in timers} :: e in timers ==>
          && e.addr in heap
          && heap[e.addr].expiration == e.when
          && heap[e.addr].seqno in active
          && active[heap[e.addr].seqno] == e.addr)
    && (forall s {:trigger s in active} :: s in active ==>
          && active[s] in heap
          && heap[active[s]].seqno == s
          && Entry(heap[active[s]].expiration, active[s]) in timers)
  }

  // owner is the inverse of the heap.
  ghost predicate Inverse(heap: map<Addr, Timer>, owner: map<Seqno, Addr>) {
    && (forall a {:trigger a in heap} :: a in heap ==>
          heap[a].seqno in owner && owner[heap[a].seqno] == a)
    && (forall s {:trigger s in owner} :: s in owner ==>
          owner[s] in heap && heap[owner[s]].seqno == s)
  }

  // A live timer is indexed or in the batch, never both, and at one place of the batch.
  ghost predicate Placed(heap: map<Addr, Timer>, active: map<Seqno, Addr>, batch: seq<Addr>) {
    && (forall a {:trigger a in heap} :: a in heap ==> heap[a].seqno in active || a in batch)
    && (forall i :: 0 <= i < |batch| ==> batch[i] in heap && heap[batch[i]].seqno !in active)
    && (forall i, j :: 0 <= i < j < |batch| ==> batch[i] != batch[j])
  }

  // Every sequence ever issued is live or deleted, never both.
  ghost predicate Issued(nextSeq: Seqno, owner: map<Seqno, Addr>, deletedAt: map<Seqno, nat>) {
    && nextSeq >= 1
    && (forall s {:trigger s in owner} {:trigger s in deletedAt} ::
          1 <= s < nextSeq <==> s in owner || s in deletedAt)
    && (forall s {:trigger s in owner} :: s in owner ==> s !in deletedAt)
  }

  ghost predicate Core(q: State) {
    && Indexed(q.timers, q.active, q.heap)
    && Inverse(q.heap, q.owner)
    && Placed(q.heap, q.active, q.batch)
    && Issued(q.nextSeq, q.owner, q.deletedAt)
  }

  // A timer may run at or after its expiration: its earlier runs were periodic ones, all at
  // least an interval before.
  ghost predicate Due(t: Timer, fired: seq<Firing>) {
    forall i :: 0 <= i < |fired| && fired[i].seqno == t.seqno ==>
      fired[i].interval > 0 && fired[i].at + fired[i].interval <= t.expiration
  }

  ghost predicate AllDue(timers: set<Entry>, heap: map<Addr, Timer>, fired: seq<Firing>) {
    forall e {:trigger e in timers} :: e in timers && e.addr in heap ==> Due(heap[e.addr], fired)
  }

  ghost predicate Runs(fired: seq<Firing>, horizon: Time, nextSeq: Seqno) {
    && NeverEarly(fired) && Spaced(fired)
    && (forall i :: 0 <= i < |fired| ==> fired[i].at <= horizon && fired[i].seqno < nextSeq)
  }

  ghost predicate SameInterval(heap: map<Addr, Timer>, fired: seq<Firing>) {
    forall a, i :: a in heap && 0 <= i < |fired| && fired[i].seqno == heap[a].seqno ==>
      fired[i].interval == heap[a].interval
  }

  // A deleted timer never runs again.
  ghost predicate Quiet(deletedAt: map<Seqno, nat>, fired: seq<Firing>) {
    forall s {:trigger s in deletedAt} :: s in deletedAt ==>
      && deletedAt[s] <= |fired|
      && forall i :: deletedAt[s] <= i < |fired| ==> fired[i].seqno != s
  }

  ghost predicate History(q: State) {
    && q.horizon <= q.clock
    && Runs(q.fired, q.horizon, q.nextSeq)
    && SameInterval(q.heap, q.fired)
    && AllDue(q.timers, q.heap, q.fired)
    && Quiet(q.deletedAt, q.fired)
  }

  // With non-negative delays only, nothing can be added before the latest batch.
  ghost predicate InOrder(fired: seq<Firing>, horizon: Time, timers: set<Entry>, heap: map<Addr, Timer>) {
    && Ordered(fired)
    && (forall i :: 0 <= i < |fired| ==> fired[i].expiration <= horizon)
    && (forall e {:trigger e in timers} :: e in timers ==> horizon <= e.when)
    && (forall a {:trigger a in heap} :: a in heap ==>
          NonNegative(heap[a].callback) && heap[a].interval >= 0)
  }

  // The part of the batch that has yet to run: due by the horizon and in the set's order.
  ghost predicate Queued(rest: seq<Addr>, heap: map<Addr, Timer>, fired: seq<Firing>, horizon: Time) {
    && (forall k :: 0 <= k < |rest| && rest[k] in heap ==>
          heap[rest[k]].expiration <= horizon && Due(heap[rest[k]], fired))
    && (forall k, l :: 0 <= k < l < |rest| && rest[k] in heap && rest[l] in heap ==>
          Before(Entry(heap[rest[k]].expiration, rest[k]), Entry(heap[rest[l]].expiration, rest[l])))
  }

  // Nothing that is still to run in the batch comes before what has run.
  ghost predicate QueuedAfter(rest: seq<Addr>, heap: map<Addr, Timer>, fired: seq<Firing>) {
    forall i, k :: 0 <= i < |fired| && 0 <= k < |rest| && rest[k] in heap ==>
      fired[i].expiration <= heap[rest[k]].expiration
  }

  // The timerfd agrees with the set: it is set for the earliest expiration, or it has
  // expired and that has not been handled yet; it is never set for an empty set.
  ghost predicate FdAgrees(timers: set<Entry>, fd: TimerFd, clock: Time) {
    && (timers != {} ==> fd.armed.Some? || fd.ticks || fd.read.Done?)
    && (fd.armed.Some? ==>
          var s := fd.armed.value;
          && timers != {} && s.when == Earliest(timers).when
          && s.setAt <= clock
          && s.deadline == Deadline(s.when, s.setAt, s.lag))
  }

  // What every caller sees between two calls.
  ghost predicate Valid(q: State) {
    && Core(q) && History(q)
    && (q.nonNegative ==> InOrder(q.fired, q.horizon, q.timers, q.heap))
    && FdAgrees(q.timers, q.fd, q.clock)
    && !q.callingExpired && q.batch == [] && q.canceling == [] && q.ran == 0
  }

  // What a callback sees.
  ghost predicate InBatch(q: State) {
    && Core(q) && History(q)
    && (q.nonNegative ==> InOrder(q.fired, q.horizon, q.timers, q.heap))
    && q.callingExpired && q.ran <= |q.batch|
    && Queued(q.batch[q.ran..], q.heap, q.fired, q.horizon)
    && (q.nonNegative ==> QueuedAfter(q.batch[q.ran..], q.heap, q.fired))
  }

  // ---------- reset_timerfd and disarm_timerfd ----------

  // The relative setting is clamped to one nanosecond, because zero would disarm; it counts
  // from the call, which comes lag after the clock reading.
  function Deadline(when: Time, now: Time, lag: nat): (d: Time)
    ensures d >= when && d > now
    ensures d == when + lag || d == now + lag + 1
  {
    now + lag + (if when - now <= 0 then 1 else when - now)
  }

  function Reset(q: State, when: Time, now: Time, lag: nat): State {
    q.(clock := now,
       fd := q.fd.(armed := Some(Setting(when, now, lag, Deadline(when, now, lag))), ticks := false))
  }

  function Disarm(q: State): State {
    q.(fd := q.fd.(armed := None, ticks := false))
  }

  ghost function SetForEarliest(q: State, now: Time, lag: nat): State {
    if q.timers == {} then Disarm(q) else Reset(q, Earliest(q.timers).when, now, lag)
  }

  // ---------- add and add_periodic ----------

  // operator new: some address that is free now.  Every free address is an answer.
  function Allocate(heap: map<Addr, Timer>, hint: Addr): (a: Addr)
    ensures a !in heap
    ensures hint !in heap ==> a == hint
    decreases set k | k in heap && k >= hint
  {
    if hint !in heap then hint
    else
      assert (set k | k in heap && k >= hint) == (set k | k in heap && k >= hint + 1) + {hint};
      Allocate(heap, hint + 1)
  }

  // A new timer in the heap, the set and the index.
  function Linked(q: State, callback: Script, when: Time, interval: int, addr: Addr, now: Time): State {
    q.(nextSeq := q.nextSeq + 1,
       heap := q.heap[addr := Timer(callback, when, interval, q.nextSeq)],
       owner := q.owner[q.nextSeq := addr],
       timers := q.timers + {Entry(when, addr)},
       active := q.active[q.nextSeq := addr],
       clock := now,
       nonNegative := q.nonNegative && when >= now && interval >= 0 && NonNegative(callback))
  }

  ghost function Inserted(q: State, callback: Script, when: Time, interval: int,
                          addr: Addr, now: Time, latency: Latency): State
  {
    var newTop := forall e :: e in q.timers ==> when < e.when;
    var r := Linked(q, callback, when, interval, addr, now);
    if newTop then Reset(r, when, now + latency.read, latency.call) else r
  }

  ghost predicate CanInsert(q: State, addr: Addr, now: Time) {
    addr !in q.heap && q.clock <= now
  }

  lemma InsertKeepsCore(q: State, t: Timer, addr: Addr)
    requires Core(q) && addr !in q.heap && t.seqno == q.nextSeq
    ensures Indexed(q.timers + {Entry(t.expiration, addr)}, q.active[t.seqno := addr], q.heap[addr := t])
    ensures Inverse(q.heap[addr := t], q.owner[t.seqno := addr])
    ensures Placed(q.heap[addr := t], q.active[t.seqno := addr], q.batch)
    ensures Issued(q.nextSeq + 1, q.owner[t.seqno := addr], q.deletedAt)
  {
    assert t.seqno !in q.owner;
    assert t.seqno !in q.active;
  }

  lemma InsertKeepsHistory(q: State, t: Timer, addr: Addr)
    requires Core(q) && History(q) && addr !in q.heap && t.seqno == q.nextSeq
    ensures Runs(q.fired, q.horizon, q.nextSeq + 1)
    ensures SameInterval(q.heap[addr := t], q.fired)
    ensures AllDue(q.timers + {Entry(t.expiration, addr)}, q.heap[addr := t], q.fired)
  {
  }

  lemma BatchIsLive(q: State)
    requires Core(q)
    ensures forall k :: 0 <= k < |q.batch| ==> q.batch[k] in q.heap && q.heap[q.batch[k]].seqno !in q.active
    ensures forall k, s :: 0 <= k < |q.batch| && s in q.active ==> q.batch[k] != q.active[s]
  {
  }

  // What is still to run does not depend on other timers.
  lemma QueuedFrame(rest: seq<Addr>, heap: map<Addr, Timer>, heap': map<Addr, Timer>, fired: seq<Firing>, horizon: Time)
    requires forall k :: 0 <= k < |rest| ==>
               rest[k] in heap && rest[k] in heap' && heap'[rest[k]] == heap[rest[k]]
    requires Queued(rest, heap, fired, horizon)
    ensures Queued(rest, heap', fired, horizon)
    ensures QueuedAfter(rest, heap, fired) ==> QueuedAfter(rest, heap', fired)
  {
  }

  lemma InsertKeepsFd(q: State, when: Time, addr: Addr, now: Time)
    requires FdAgrees(q.timers, q.fd, q.clock) && q.clock <= now
    requires exists e :: e in q.timers && e.when <= when
    ensures FdAgrees(q.timers + {Entry(when, addr)}, q.fd, now)
  {
  }

  lemma InsertKeeps(q: State, callback: Script, when: Time, interval: int, addr: Addr, now: Time, latency: Latency)
    requires Valid(q) || InBatch(q)
    requires CanInsert(q, addr, now)
    ensures var r := Inserted(q, callback, when, interval, addr, now, latency);
            if q.callingExpired then InBatch(r) else Valid(r)
  {
    hide Indexed, Inverse, Placed, Issued, Runs, SameInterval, AllDue, Quiet, Queued, QueuedAfter;
    BatchIsLive(q);
    var t := Timer(callback, when, interval, q.nextSeq);
    InsertKeepsCore(q, t, addr);
    InsertKeepsHistory(q, t, addr);
    if InBatch(q) {
      QueuedFrame(q.batch[q.ran..], q.heap, q.heap[addr := t], q.fired, q.horizon);
    }
    if Valid(q) && exists e :: e in q.timers && e.when <= when {
      InsertKeepsFd(q, when, addr, now);
    }
  }

  // ---------- cancel ----------

  // delete t, for the timer at address a.
  function Deleted(q: State, a: Addr): State
    requires a in q.heap
  {
    q.(heap := q.heap - {a},
       owner := q.owner - {q.heap[a].seqno},
       deletedAt := q.deletedAt[q.heap[a].seqno := |q.fired|])
  }

  ghost function Cancelled(q: State, id: TimerId, now: Time, lag: nat): State
    requires Indexed(q.timers, q.active, q.heap)
  {
    var noted := if q.callingExpired then q.(canceling := q.canceling + [id.seqno]) else q;
    if id.timer.None? then q
    else if id.seqno !in q.active then noted
    else
      var a := q.active[id.seqno];
      var e := Entry(q.heap[a].expiration, a);
      var r := Deleted(noted, a).(timers := q.timers - {e}, active := q.active - {id.seqno});
      if e == Earliest(q.timers) then SetForEarliest(r, now, lag) else r
  }

  lemma DropFromCore(q: State, s: Seqno)
    requires Core(q) && s in q.active
    ensures var a := q.active[s];
            && Indexed(q.timers - {Entry(q.heap[a].expiration, a)}, q.active - {s}, q.heap - {a})
            && Inverse(q.heap - {a}, q.owner - {s})
            && Placed(q.heap - {a}, q.active - {s}, q.batch)
            && Issued(q.nextSeq, q.owner - {s}, q.deletedAt[s := |q.fired|])
  {
    var a := q.active[s];
    assert q.owner[s] == a;
    assert a !in q.batch;
  }

  lemma DropFromHistory(q: State, s: Seqno)
    requires Core(q) && History(q) && s in q.active
    ensures var a := q.active[s];
            && SameInterval(q.heap - {a}, q.fired)
            && AllDue(q.timers - {Entry(q.heap[a].expiration, a)}, q.heap - {a}, q.fired)
            && Quiet(q.deletedAt[s := |q.fired|], q.fired)
  {
  }

  lemma DropFromFd(q: State, e: Entry)
    requires FdAgrees(q.timers, q.fd, q.clock) && e in q.timers && e != Earliest(q.timers)
    ensures FdAgrees(q.timers - {e}, q.fd, q.clock)
  {
    assert Earliest(q.timers) in q.timers - {e};
  }

  lemma DropFromOrder(q: State, a: Addr, e: Entry)
    requires InOrder(q.fired, q.horizon, q.timers, q.heap)
    ensures InOrder(q.fired, q.horizon, q.timers - {e}, q.heap - {a})
  {
  }

  lemma CancelShape(q: State, id: TimerId, now: Time, lag: nat)
    requires Indexed(q.timers, q.active, q.heap) && q.clock <= now
    requires id.timer.Some? && id.seqno in q.active
    ensures var a := q.active[id.seqno];
            var e := Entry(q.heap[a].expiration, a);
            var r := Cancelled(q, id, now, lag);
            && r == q.(timers := q.timers - {e},
                       active := q.active - {id.seqno},
                       heap := q.heap - {a},
                       owner := q.owner - {id.seqno},
                       deletedAt := q.deletedAt[id.seqno := |q.fired|],
                       canceling := if q.callingExpired then q.canceling + [id.seqno] else q.canceling,
                       fd := r.fd,
                       clock := r.clock)
            && q.clock <= r.clock && r.fd.read == q.fd.read
            && (FdAgrees(q.timers, q.fd, q.clock) ==> FdAgrees(r.timers, r.fd, r.clock))
  {
    var a := q.active[id.seqno];
    var e := Entry(q.heap[a].expiration, a);
    if e != Earliest(q.timers) && FdAgrees(q.timers, q.fd, q.clock) {
      DropFromFd(q, e);
    }
  }

  lemma CancelKeeps(q: State, id: TimerId, now: Time, lag: nat)
    requires Valid(q) || InBatch(q)
    requires q.clock <= now
    ensures var r := Cancelled(q, id, now, lag);
            if q.callingExpired then InBatch(r) else Valid(r)
  {
    if id.timer.Some? && id.seqno in q.active {
      BatchIsLive(q);
      CancelShape(q, id, now, lag);
      var a := q.active[id.seqno];
      hide Indexed, Inverse, Placed, Issued, Runs, SameInterval, AllDue, Quiet, Queued, QueuedAfter, InOrder,
           FdAgrees, Cancelled;
      DropFromCore(q, id.seqno);
      if q.nonNegative {
        DropFromOrder(q, a, Entry(q.heap[a].expiration, a));
      }
      DropFromHistory(q, id.seqno);
      if InBatch(q) {
        QueuedFrame(q.batch[q.ran..], q.heap, q.heap - {a}, q.fired, q.horizon);
      }
    }
  }

  // ---------- handle_expired ----------

  // One round of the first loop.
  ghost function Popped(q: State): State
    requires Indexed(q.timers, q.active, q.heap) && q.timers != {}
  {
    var e := Earliest(q.timers);
    q.(timers := q.timers - {e},
       active := q.active - {q.heap[e.addr].seqno},
       batch := q.batch + [e.addr])
  }

  // Between two rounds of the first loop, with the clock read as now.
  ghost predicate Popping(q: State, now: Time) {
    && Core(q) && History(q)
    && (q.nonNegative ==> InOrder(q.fired, q.horizon, q.timers, q.heap) && QueuedAfter(q.batch, q.heap, q.fired))
    && Queued(q.batch, q.heap, q.fired, now)
    && (forall k, e :: 0 <= k < |q.batch| && e in q.timers && q.batch[k] in q.heap ==>
          Before(Entry(q.heap[q.batch[k]].expiration, q.batch[k]), e))
    && q.ran == 0 && q.canceling == [] && !q.callingExpired && q.clock <= now
  }

  lemma PopKeepsCore(q: State)
    requires Core(q) && q.timers != {}
    ensures Core(Popped(q))
  {
    var e := Earliest(q.timers);
    var s := q.heap[e.addr].seqno;
    assert e.addr !in q.batch;
    assert Indexed(q.timers - {e}, q.active - {s}, q.heap);
    assert e.addr in q.batch + [e.addr];
    assert forall a :: a in q.batch ==> a in q.batch + [e.addr];
  }

  lemma EarliestFacts(q: State)
    requires Core(q) && History(q) && q.timers != {}
    ensures var e := Earliest(q.timers);
            && e in q.timers && e.addr in q.heap && q.heap[e.addr].expiration == e.when
            && Due(q.heap[e.addr], q.fired)
            && forall f :: f in q.timers - {e} ==> Before(e, f)
  {
  }

  lemma QueuedGrows(batch: seq<Addr>, a: Addr, heap: map<Addr, Timer>, fired: seq<Firing>, now: Time)
    requires Queued(batch, heap, fired, now)
    requires a in heap && heap[a].expiration <= now && Due(heap[a], fired)
    requires forall k :: 0 <= k < |batch| && batch[k] in heap ==>
               Before(Entry(heap[batch[k]].expiration, batch[k]), Entry(heap[a].expiration, a))
    ensures Queued(batch + [a], heap, fired, now)
    ensures QueuedAfter(batch, heap, fired)
              && (forall i :: 0 <= i < |fired| ==> fired[i].expiration <= heap[a].expiration) ==>
              QueuedAfter(batch + [a], heap, fired)
  {
    hide Due;
  }

  lemma PopKeepsOrder(q: State)
    requires InOrder(q.fired, q.horizon, q.timers, q.heap) && q.timers != {}
    ensures var e := Earliest(q.timers);
            && InOrder(q.fired, q.horizon, q.timers - {e}, q.heap)
            && forall i :: 0 <= i < |q.fired| ==> q.fired[i].expiration <= e.when
  {
    hide Ordered;
  }

  lemma PopKeepsHistory(q: State)
    requires Core(q) && History(q) && q.timers != {}
    ensures History(Popped(q))
  {
    hide Core, Runs, SameInterval, Quiet, Due;
    CoreIsIndexed(q);
  }

  lemma CoreIsIndexed(q: State)
    requires Core(q)
    ensures Indexed(q.timers, q.active, q.heap)
  {
  }

  lemma PopKeeps(q: State, now: Time)
    requires Popping(q, now) && q.timers != {} && Earliest(q.timers).when <= now
    ensures Popping(Popped(q), now)
  {
    hide Core, History, InOrder, Queued, QueuedAfter, Earliest, Due;
    CoreIsIndexed(q);
    PopKeepsCore(q);
    PopKeepsHistory(q);
    EarliestFacts(q);
    QueuedGrows(q.batch, Earliest(q.timers).addr, q.heap, q.fired, now);
    if q.nonNegative {
      PopKeepsOrder(q);
    }
  }

  function Started(q: State, now: Time): State {
    q.(callingExpired := true, horizon := now, clock := now)
  }

  lemma StartKeeps(q: State, now: Time)
    requires Popping(q, now) && forall e :: e in q.timers ==> e.when > now
    ensures InBatch(Started(q, now))
  {
    assert q.batch[0..] == q.batch;
  }

  // Entering the next callback of the batch.
  function RunNext(q: State): State
    requires q.ran < |q.batch| && q.batch[q.ran] in q.heap
  {
    var t := q.heap[q.batch[q.ran]];
    q.(fired := q.fired + [Firing(t.seqno, t.expiration, t.interval, q.horizon)], ran := q.ran + 1)
  }

  lemma LiveIsNotDeleted(q: State)
    requires Core(q)
    ensures forall a :: a in q.heap ==> q.heap[a].seqno < q.nextSeq && q.heap[a].seqno !in q.deletedAt
  {
  }

  lemma RunKeepsHistory(q: State)
    requires InBatch(q) && q.ran < |q.batch|
    ensures var r := RunNext(q);
            && Runs(r.fired, r.horizon, r.nextSeq)
            && SameInterval(r.heap, r.fired)
            && AllDue(r.timers, r.heap, r.fired)
            && Quiet(r.deletedAt, r.fired)
  {
    hide Issued, InOrder, QueuedAfter;
    var t := q.heap[q.batch[q.ran]];
    assert q.batch[q.ran..][0] == q.batch[q.ran];
    assert Due(t, q.fired);
    LiveIsNotDeleted(q);
  }

  lemma RunKeepsQueued(q: State)
    requires InBatch(q) && q.ran < |q.batch|
    ensures var r := RunNext(q);
            && Queued(r.batch[r.ran..], r.heap, r.fired, r.horizon)
            && (r.nonNegative ==>
                  InOrder(r.fired, r.horizon, r.timers, r.heap) && QueuedAfter(r.batch[r.ran..], r.heap, r.fired))
  {
    hide Indexed, Issued, Runs, SameInterval, AllDue, Quiet;
    var rest := q.batch[q.ran..];
    assert rest[0] == q.batch[q.ran] && rest[1..] == q.batch[q.ran + 1..];
  }

  lemma RunKeeps(q: State)
    requires InBatch(q) && q.ran < |q.batch|
    ensures InBatch(RunNext(q))
  {
    hide Indexed, Inverse, Issued, Runs, SameInterval, AllDue, Quiet, Queued, QueuedAfter, InOrder;
    RunKeepsHistory(q);
    RunKeepsQueued(q);
  }

  // Between two rounds of the last loop.
  ghost predicate GivingBack(q: State) {
    && Core(q) && History(q)
    && (q.nonNegative ==> InOrder(q.fired, q.horizon, q.timers, q.heap))
    && !q.callingExpired && q.ran == |q.batch|
  }

  // One round of the last loop: back into the set, or deleted.
  function GivenBack(q: State): State
    requires q.ran == |q.batch| > 0 && q.batch[0] in q.heap
  {
    var a := q.batch[0];
    var t := q.heap[a];
    var r := q.(batch := q.batch[1..], ran := q.ran - 1);
    if t.Repeat() && t.seqno !in q.canceling then
      r.(heap := q.heap[a := t.Restart(q.horizon)],
         timers := q.timers + {Entry(t.Restart(q.horizon).expiration, a)},
         active := q.active[t.seqno := a])
    else
      Deleted(r, a)
  }

  lemma RestartKeepsIndexed(q: State, t: Timer)
    requires Indexed(q.timers, q.active, q.heap) && Placed(q.heap, q.active, q.batch)
    requires q.batch != [] && t.seqno == q.heap[q.batch[0]].seqno
    ensures var a := q.batch[0];
            Indexed(q.timers + {Entry(t.expiration, a)}, q.active[t.seqno := a], q.heap[a := t])
  {
    var a := q.batch[0];
    assert t.seqno !in q.active;
    assert forall e :: e in q.timers ==> e.addr != a;
  }

  lemma FirstOfBatch(batch: seq<Addr>)
    requires batch != [] && forall i, j :: 0 <= i < j < |batch| ==> batch[i] != batch[j]
    ensures batch == [batch[0]] + batch[1..] && batch[0] !in batch[1..]
  {
  }

  lemma DistinctSeqnos(q: State)
    requires Inverse(q.heap, q.owner)
    ensures forall a, b :: a in q.heap && b in q.heap && q.heap[a].seqno == q.heap[b].seqno ==> a == b
  {
  }

  lemma RestartKeepsPlaced(q: State, t: Timer)
    requires Placed(q.heap, q.active, q.batch) && Inverse(q.heap, q.owner)
    requires q.batch != [] && q.batch[0] in q.heap && t.seqno == q.heap[q.batch[0]].seqno
    ensures Inverse(q.heap[q.batch[0] := t], q.owner)
    ensures Placed(q.heap[q.batch[0] := t], q.active[t.seqno := q.batch[0]], q.batch[1..])
  {
    hide Placed;
    DistinctSeqnos(q);
    MovesToIndex(q.heap, q.active, q.batch, t);
  }

  lemma MovesToIndex(heap: map<Addr, Timer>, active: map<Seqno, Addr>, batch: seq<Addr>, t: Timer)
    requires Placed(heap, active, batch) && batch != [] && t.seqno == heap[batch[0]].seqno
    requires forall a, b :: a in heap && b in heap && heap[a].seqno == heap[b].seqno ==> a == b
    ensures Placed(heap[batch[0] := t], active[t.seqno := batch[0]], batch[1..])
  {
    var a, rest := batch[0], batch[1..];
    FirstOfBatch(batch);
    forall b | b in heap
      ensures heap[b].seqno in active || b == a || b in rest
    {
      assert b in batch ==> b in [a] + rest;
    }
  }

  lemma DeleteKeepsIndexed(q: State)
    requires Indexed(q.timers, q.active, q.heap) && Placed(q.heap, q.active, q.batch)
    requires q.batch != []
    ensures Indexed(q.timers, q.active, q.heap - {q.batch[0]})
  {
  }

  lemma DeleteKeepsPlaced(q: State)
    requires Placed(q.heap, q.active, q.batch) && q.batch != []
    ensures Placed(q.heap - {q.batch[0]}, q.active, q.batch[1..])
  {
    var a, rest := q.batch[0], q.batch[1..];
    FirstOfBatch(q.batch);
    forall b | b in q.heap
      ensures q.heap[b].seqno in q.active || b == a || b in rest
    {
      assert b in q.batch ==> b in [a] + rest;
    }
  }

  lemma DeleteKeepsIssued(q: State, a: Addr)
    requires Inverse(q.heap, q.owner) && Issued(q.nextSeq, q.owner, q.deletedAt) && a in q.heap
    ensures var s := q.heap[a].seqno;
            && Inverse(q.heap - {a}, q.owner - {s})
            && Issued(q.nextSeq, q.owner - {s}, q.deletedAt[s := |q.fired|])
  {
  }

  lemma RestartKeepsHistory(q: State)
    requires GivingBack(q) && q.batch != [] && q.batch[0] in q.heap
    requires q.heap[q.batch[0]].Repeat()
    ensures var a := q.batch[0];
            var t := q.heap[a].Restart(q.horizon);
            && SameInterval(q.heap[a := t], q.fired)
            && AllDue(q.timers + {Entry(t.expiration, a)}, q.heap[a := t], q.fired)
  {
    hide Core, InOrder, Quiet;
    BatchIsLive(q);
  }

  lemma DeleteKeepsHistory(q: State)
    requires GivingBack(q) && q.batch != [] && q.batch[0] in q.heap
    ensures var a := q.batch[0];
            && SameInterval(q.heap - {a}, q.fired)
            && AllDue(q.timers, q.heap - {a}, q.fired)
            && Quiet(q.deletedAt[q.heap[a].seqno := |q.fired|], q.fired)
  {
    hide Core, InOrder;
  }

  lemma GiveBackKeepsOrder(q: State, t: Timer)
    requires InOrder(q.fired, q.horizon, q.timers, q.heap) && q.batch != [] && q.batch[0] in q.heap
    ensures var a := q.batch[0];
            && InOrder(q.fired, q.horizon, q.timers, q.heap - {a})
            && (t == q.heap[a].(expiration := q.horizon + q.heap[a].interval) ==>
                  InOrder(q.fired, q.horizon, q.timers + {Entry(t.expiration, a)}, q.heap[a := t]))
  {
    hide Ordered;
  }

  lemma GiveBackKeeps(q: State)
    requires GivingBack(q) && q.batch != []
    ensures GivingBack(GivenBack(q))
  {
    hide Indexed, Inverse, Issued, Runs, SameInterval, AllDue, Quiet, InOrder, Placed;
    BatchIsLive(q);
    var t := q.heap[q.batch[0]];
    if q.nonNegative {
      GiveBackKeepsOrder(q, t.Restart(q.horizon));
    }
    if t.Repeat() && t.seqno !in q.canceling {
      RestartKeepsHistory(q);
      RestartKeepsIndexed(q, t.Restart(q.horizon));
      RestartKeepsPlaced(q, t.Restart(q.horizon));
    } else {
      DeleteKeepsHistory(q);
      DeleteKeepsIndexed(q);
      DeleteKeepsPlaced(q);
      DeleteKeepsIssued(q, q.batch[0]);
    }
  }

  ghost function Finished(q: State, now: Time, lag: nat): State {
    SetForEarliest(q.(canceling := []), now, lag)
  }

  lemma FinishKeeps(q: State, now: Time, lag: nat)
    requires GivingBack(q) && q.batch == [] && q.clock <= now
    ensures Valid(Finished(q, now, lag))
  {
  }
}
