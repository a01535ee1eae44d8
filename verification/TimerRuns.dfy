// Whole runs of a timer queue: any sequence of calls, callbacks, kernel steps and watcher
// completions, with any clock readings that do not go backwards.
module TimerRuns {
  import opened Options
  import opened TimerState
  import opened TimerBatch

  // `gap` is the time since the latest clock reading.
  datatype Event =
    | StartWatcher
    | Add(callback: Script, delay: int, hint: Addr, gap: nat, latency: Latency)
    | AddPeriodic(callback: Script, interval: int, hint: Addr, gap: nat, latency: Latency)
    | Cancel(id: TimerId, gap: nat, lag: nat)
    | Expire(gap: nat)
    | CompleteRead(ok: bool)
    | OnComplete(gap: nat, latency: Latency)

  function Initial(now: Time): (q: State)
    ensures Valid(q)
  {
    State(1, {}, map[], false, [], map[], TimerFd(None, false, NotStarted), now,
          [], 0, now, [], map[], map[], true)
  }

  ghost function Step(q: State, e: Event): (r: State)
    requires Valid(q)
    ensures Valid(r)
  {
    hide Valid, Inserted, Cancelled, Completed, Indexed;
    ValidIsIndexed(q);
    match e
    case StartWatcher =>
      KernelKeeps(q, q.clock, true);
      Posting(q)
    case Add(callback, delay, hint, gap, latency) =>
      var addr, now := Allocate(q.heap, hint), q.clock + gap;
      InsertKeepsValid(q, callback, now + delay, 0, addr, now, latency);
      Inserted(q, callback, now + delay, 0, addr, now, latency)
    case AddPeriodic(callback, interval, hint, gap, latency) =>
      var addr, now := Allocate(q.heap, hint), q.clock + gap;
      InsertKeepsValid(q, callback, now + interval, interval, addr, now, latency);
      Inserted(q, callback, now + interval, interval, addr, now, latency)
    case Cancel(id, gap, lag) =>
      CancelKeepsValid(q, id, q.clock + gap, lag);
      Cancelled(q, id, q.clock + gap, lag)
    case Expire(gap) =>
      KernelKeeps(q, q.clock + gap, true);
      Expired(q, q.clock + gap)
    case CompleteRead(ok) =>
      KernelKeeps(q, q.clock, ok);
      Read(q, ok)
    case OnComplete(gap, latency) =>
      if q.fd.read.Done? || q.fd.read.Failed? then
        CompletedKeeps(q, q.clock + gap, latency);
        Completed(q, q.clock + gap, latency)
      else q
  }

  lemma InsertKeepsValid(q: State, callback: Script, when: Time, interval: int, addr: Addr, now: Time, latency: Latency)
    requires Valid(q) && addr !in q.heap && q.clock <= now
    ensures Valid(Inserted(q, callback, when, interval, addr, now, latency))
  {
    InsertKeeps(q, callback, when, interval, addr, now, latency);
  }

  lemma CancelKeepsValid(q: State, id: TimerId, now: Time, lag: nat)
    requires Valid(q) && q.clock <= now
    ensures Indexed(q.timers, q.active, q.heap)
    ensures Valid(Cancelled(q, id, now, lag))
  {
    CancelKeeps(q, id, now, lag);
  }

  ghost function Run(q: State, events: seq<Event>): (r: State)
    requires Valid(q)
    ensures Valid(r)
    decreases |events|
  {
    if events == [] then q else Run(Step(q, events[0]), events[1..])
  }

  // Timers that are added between batches: what they call, when they are due, how often.
  lemma AddMeans(q: State, e: Event)
    requires Valid(q)
    ensures e.Add? ==> Gains(q, Step(q, e), Timer(e.callback, q.clock + e.gap + e.delay, 0, q.nextSeq))
    ensures e.AddPeriodic? ==>
              Gains(q, Step(q, e), Timer(e.callback, q.clock + e.gap + e.interval, e.interval, q.nextSeq))
  {
    hide Valid, Inserted, Indexed, Gains;
    if e.Add? {
      var now := q.clock + e.gap;
      InsertGains(q, e.callback, now + e.delay, 0, Allocate(q.heap, e.hint), now, e.latency);
    } else if e.AddPeriodic? {
      var now := q.clock + e.gap;
      InsertGains(q, e.callback, now + e.interval, e.interval, Allocate(q.heap, e.hint), now, e.latency);
    }
  }

  // ---------- Every run ----------

  // No callback runs before its expiration, a one-shot timer runs at most once, and two runs of
  // a periodic timer are at least one interval apart.
  lemma RunsAreTimely(now: Time, events: seq<Event>)
    ensures var fired := Run(Initial(now), events).fired;
            NeverEarly(fired) && Spaced(fired)
  {
  }

  // Every timer ever issued is allocated at exactly one address, and then either indexed under
  // its current expiration or not indexed at all, or it has been deleted.
  lemma NothingLeaks(now: Time, events: seq<Event>, s: Seqno)
    ensures var q := Run(Initial(now), events);
            1 <= s < q.nextSeq ==>
              if s in q.active then
                && q.active[s] in q.heap && q.heap[q.active[s]].seqno == s
                && Entry(q.heap[q.active[s]].expiration, q.active[s]) in q.timers
                && (forall a :: a in q.heap && q.heap[a].seqno == s ==> a == q.active[s])
                && s !in q.deletedAt
              else s in q.deletedAt && forall a :: a in q.heap ==> q.heap[a].seqno != s
  {
    var q := Run(Initial(now), events);
    hide History, InOrder, FdAgrees;
    if s in q.active {
      assert q.owner[s] == q.active[s];
    }
  }

  // Between two calls the timerfd is set for the earliest expiration, at least one nanosecond
  // after the clock reading and later by what timerfd_settime lagged behind that; it is unset
  // only if nothing is queued or it has expired and that has not been handled yet.
  lemma TimerfdAgrees(now: Time, events: seq<Event>)
    ensures var q := Run(Initial(now), events);
            && !q.callingExpired
            && (q.timers == {} ==> q.fd.armed.None?)
            && (q.timers != {} && q.fd.armed.None? ==> q.fd.ticks || q.fd.read.Done?)
            && (q.fd.armed.Some? ==>
                  var s := q.fd.armed.value;
                  && q.timers != {} && s.when == Earliest(q.timers).when
                  && s.deadline == s.lag + (if s.when <= s.setAt then s.setAt + 1 else s.when))
  {
    hide Core, History, InOrder;
  }

  ghost predicate AsksAtLeast(e: Event, min: int) {
    match e
    case Add(callback, delay, _, _, _) => delay >= min && DelaysAtLeast(callback, min)
    case AddPeriodic(callback, interval, _, _, _) => interval >= min && DelaysAtLeast(callback, min)
    case _ => true
  }

  lemma {:induction false} LargerDelays(script: Script, min: int)
    requires min >= 0 && DelaysAtLeast(script, min)
    ensures NonNegative(script)
  {
    forall a | a in script
      ensures DelayAtLeast(a, 0)
    {
      assert DelayAtLeast(a, min);
      match a {
        case After(_, body, _, _) => LargerDelays(body, min);
        case Every(_, body, _, _) => LargerDelays(body, min);
        case _ =>
      }
    }
  }

  lemma StepKeepsNonNegative(q: State, e: Event)
    requires Valid(q) && q.nonNegative && AsksAtLeast(e, 0)
    ensures Step(q, e).nonNegative
  {
    hide Valid, Indexed, HandleExpired, AfterBatch, IsBatch, NonNegative;
    ValidIsIndexed(q);
    match e {
      case Add(callback, _, _, _, _) =>
        NonNegativeMeans(callback);
      case AddPeriodic(callback, _, _, _, _) =>
        NonNegativeMeans(callback);
      case Cancel(id, gap, lag) =>
        CancelLeavesRecord(q, id, q.clock + gap, lag);
      case OnComplete(gap, latency) =>
        if q.fd.read.Done? {
          var expired, cancels := HandleExpiredMeans(q, q.clock + gap, latency);
        }
      case _ =>
    }
  }

  lemma NonNegativeMeans(script: Script)
    ensures NonNegative(script) == DelaysAtLeast(script, 0)
  {
  }

  lemma CancelLeavesRecord(q: State, id: TimerId, now: Time, lag: nat)
    requires Valid(q) && q.clock <= now
    ensures var r := Cancelled(q, id, now, lag);
            r.fired == q.fired && r.nonNegative == q.nonNegative && DeletedStay(q.deletedAt, r.deletedAt)
  {
    CancelLeavesRuns(q, id, now, lag);
    if id.timer.Some? && id.seqno in q.active {
      CancelShape(q, id, now, lag);
      assert id.seqno in q.owner;
    }
  }

  lemma {:induction false} RunKeepsNonNegative(q: State, events: seq<Event>)
    requires Valid(q) && q.nonNegative && forall e :: e in events ==> AsksAtLeast(e, 0)
    ensures Run(q, events).nonNegative
    decreases |events|
  {
    if events != [] {
      hide Valid, Step;
      StepKeepsNonNegative(q, events[0]);
      assert forall e :: e in events[1..] ==> e in events;
      RunKeepsNonNegative(Step(q, events[0]), events[1..]);
    }
  }

  lemma OrderedWhenNonNegative(q: State)
    requires Valid(q) && q.nonNegative
    ensures Ordered(q.fired)
  {
  }

  // ---------- Due timers run ----------

  lemma DueTimerRuns(q: State, e: Entry, now: Time, latency: Latency) returns (i: nat)
    requires Valid(q) && q.clock <= now && e in q.timers && e.when <= now
    ensures var r := HandleExpired(q, now, latency);
            && q.fired <= r.fired && |q.fired| <= i < |r.fired|
            && e.addr in q.heap
            && r.fired[i] == Firing(q.heap[e.addr].seqno, e.when, q.heap[e.addr].interval, now)
  {
    hide AfterBatch, HandleExpired, History, InOrder, FdAgrees, Inverse, Placed, Issued;
    var expired, cancels := HandleExpiredMeans(q, now, latency);
    assert e.addr in expired;
    var k :| 0 <= k < |expired| && expired[k] == e.addr;
    i := |q.fired| + k;
  }

  // How far the setting in force, if any, lagged behind its clock reading.
  function Lag(q: State): nat {
    if q.fd.armed.Some? then q.fd.armed.value.lag else 0
  }

  // The timerfd never misses the earliest timer: once the clock is past its expiration (and
  // past the latest reading) by more than the lag of the setting, the kernel finds something to
  // report, and the watcher's completion runs the timer.
  lemma EarliestTimerRuns(q: State, gap: nat, latency: Latency)
    requires Valid(q) && q.timers != {} && (q.fd.read.Posted? || q.fd.read.Done?)
    requires gap > Lag(q) && Earliest(q.timers).when + Lag(q) <= q.clock + gap
    ensures var e := Earliest(q.timers);
            var r := Run(q, [Expire(gap), CompleteRead(true), OnComplete(0, latency)]);
            && e.addr in q.heap
            && exists i :: |q.fired| <= i < |r.fired|
                 && r.fired[i].seqno == q.heap[e.addr].seqno && r.fired[i].expiration == e.when
  {
    hide Valid, Step, HandleExpired;
    var events := [Expire(gap), CompleteRead(true), OnComplete(0, latency)];
    var a := Step(q, events[0]);
    var b := Step(a, events[1]);
    var c := Step(b, events[2]);
    assert events[1..] == [events[1], events[2]] && events[1..][1..] == [events[2]];
    assert Run(q, events) == Run(a, events[1..]) == Run(b, [events[2]]) == Run(c, []) == c;
    ExpiryIsRead(q, gap);
    CompletionRuns(b, latency);
    var i := DueTimerRuns(b, Earliest(q.timers), b.clock, latency);
    var e := Earliest(q.timers);
    assert c.fired[i] == Firing(q.heap[e.addr].seqno, e.when, q.heap[e.addr].interval, b.clock);
    assert c == Run(q, events);
  }

  lemma ExpiryIsRead(q: State, gap: nat)
    requires Valid(q) && q.timers != {} && (q.fd.read.Posted? || q.fd.read.Done?)
    requires gap > Lag(q) && Earliest(q.timers).when + Lag(q) <= q.clock + gap
    ensures var b := Step(Step(q, Expire(gap)), CompleteRead(true));
            && b.fd.read.Done? && b.fired == q.fired && b.heap == q.heap && b.timers == q.timers
            && b.clock == q.clock + gap
  {
    hide Valid, Earliest, IsEarliest;
    SetForFirst(q);
    var a := Step(q, Expire(gap));
    assert a.fd.ticks || a.fd.read.Done?;
  }

  lemma SetForFirst(q: State)
    requires Valid(q) && q.timers != {}
    ensures q.fd.armed.Some? || q.fd.ticks || q.fd.read.Done?
    ensures q.fd.armed.Some? ==>
              || q.fd.armed.value.deadline <= Earliest(q.timers).when + Lag(q)
              || q.fd.armed.value.deadline <= q.clock + 1 + Lag(q)
  {
  }

  lemma CompletionRuns(q: State, latency: Latency)
    requires Valid(q) && q.fd.read.Done?
    ensures Step(q, OnComplete(0, latency)).fired == HandleExpired(q, q.clock, latency).fired
  {
    hide Valid, HandleExpired;
  }

  // ---------- Cancelled timers stay silent ----------

  lemma StepKeepsDeleted(q: State, e: Event)
    requires Valid(q)
    ensures DeletedStay(q.deletedAt, Step(q, e).deletedAt) && q.fired <= Step(q, e).fired
  {
    hide Valid, Indexed, Cancelled, Completed, NonNegative, DeletedStay;
    ValidIsIndexed(q);
    assert DeletedStay(q.deletedAt, q.deletedAt) by { NothingDeleted(q.deletedAt); }
    match e {
      case Cancel(id, gap, lag) =>
        CancelLeavesRecord(q, id, q.clock + gap, lag);
      case OnComplete(gap, latency) =>
        if q.fd.read.Done? || q.fd.read.Failed? {
          CompletedKeepsDeleted(q, q.clock + gap, latency);
        }
      case _ =>
    }
  }

  lemma NothingDeleted(d: map<Seqno, nat>)
    ensures DeletedStay(d, d)
  {
  }

  lemma CompletedKeepsDeleted(q: State, now: Time, latency: Latency)
    requires Valid(q) && q.clock <= now && (q.fd.read.Done? || q.fd.read.Failed?)
    ensures DeletedStay(q.deletedAt, Completed(q, now, latency).deletedAt)
    ensures q.fired <= Completed(q, now, latency).fired
  {
    hide Valid, HandleExpired, AfterBatch, IsBatch, DeletedStay;
    NothingDeleted(q.deletedAt);
    if q.fd.read.Done? {
      var expired, cancels := HandleExpiredMeans(q, now, latency);
    }
  }

  lemma {:induction false} RunKeepsDeleted(q: State, events: seq<Event>)
    requires Valid(q)
    ensures DeletedStay(q.deletedAt, Run(q, events).deletedAt) && q.fired <= Run(q, events).fired
    decreases |events|
  {
    if events != [] {
      hide Valid, Step, DeletedStay;
      StepKeepsDeleted(q, events[0]);
      RunKeepsDeleted(Step(q, events[0]), events[1..]);
      DeletedStayTwice(q.deletedAt, Step(q, events[0]).deletedAt, Run(q, events).deletedAt);
    } else {
      assert Run(q, events) == q;
    }
  }

  lemma DeletedIsSilent(q: State, events: seq<Event>, s: Seqno)
    requires Valid(q) && s in q.deletedAt
    ensures var r := Run(q, events);
            forall i :: |q.fired| <= i < |r.fired| ==> r.fired[i].seqno != s
  {
    RunKeepsDeleted(q, events);
    hide Core, InOrder, FdAgrees;
    var r := Run(q, events);
    assert s in r.deletedAt && r.deletedAt[s] <= |q.fired|;
  }

  // A timer cancelled outside a batch never runs again, whatever happens later and whoever
  // gets its address.
  lemma CancelIsFinal(q: State, id: TimerId, gap: nat, lag: nat, events: seq<Event>)
    requires Valid(q) && id.timer.Some? && 1 <= id.seqno < q.nextSeq
    ensures var r := Run(Step(q, Cancel(id, gap, lag)), events);
            forall i :: |q.fired| <= i < |r.fired| ==> r.fired[i].seqno != id.seqno
  {
    hide Valid, Run, Cancelled, Indexed;
    ValidIsIndexed(q);
    CancelIsExact(q, id, q.clock + gap, lag);
    DeletedIsSilent(Step(q, Cancel(id, gap, lag)), events, id.seqno);
  }

  // A timer that a callback cancels, be it in the batch or not, is gone when handle_expired
  // returns and never runs again; one in the batch may still run as part of it.
  lemma CancelInCallbackIsFinal(q: State, now: Time, latency: Latency, events: seq<Event>, s: Seqno)
    returns (expired: seq<Addr>, cancels: seq<Seqno>)
    requires Valid(q) && q.clock <= now && s in q.active
    ensures IsBatch(q, expired, now) && cancels == BatchCancels(expired, q.heap, |expired|)
    ensures s in cancels ==>
              var r := HandleExpired(q, now, latency);
              var t := Run(r, events);
              && s !in r.active
              && forall i :: |r.fired| <= i < |t.fired| ==> t.fired[i].seqno != s
  {
    hide Run, HandleExpired, IsBatch, Inverse, Placed, Issued, History, InOrder, FdAgrees;
    expired, cancels := HandleExpiredMeans(q, now, latency);
    if s in cancels {
      DeletedIsSilent(HandleExpired(q, now, latency), events, s);
    }
  }

  // ---------- The order of runs ----------

  lemma {:induction false} RunTwice(q: State, a: seq<Event>, b: seq<Event>)
    requires Valid(q)
    ensures Run(q, a + b) == Run(Run(q, a), b)
    decreases |a|
  {
    hide Valid, Step;
    if a == [] {
      assert a + b == b;
    } else {
      assert (a + b)[0] == a[0] && (a + b)[1..] == a[1..] + b;
      RunTwice(Step(q, a[0]), a[1..], b);
    }
  }

  function NoDelay(): Latency {
    Latency(0, 0)
  }

  // With one timer, and that with an empty callback, a batch takes no time.
  lemma OneTimerTakesNoTime(q: State, e: Entry, now: Time)
    requires Valid(q) && q.clock <= now && q.timers == {e} && e.when <= now
    requires e.addr in q.heap && q.heap[e.addr].callback == []
    ensures HandleExpired(q, now, NoDelay()).clock == now
  {
    hide Valid, Popping, InBatch, GivingBack, PoppedFrom, RunUpTo, GivenBackUpTo, GivenBack;
    PoppingStarts(q, now);
    PoppingFacts(q, now);
    PoppingIsIndexed(q, now);
    NoBatch(q);
    PopKeeps(q, now);
    var a := Popped(q);
    assert a.batch == [e.addr] && a.timers == {};
    assert PopAll(q, now) == PopAll(a, now) == a;
    StartKeeps(a, now);
    var b := Started(a, now);
    RunOfOne(b);
    GiveBackStarts(RunUpTo(b, 1));
    GiveBackOfOne(RunUpTo(b, 1).(callingExpired := false));
  }

  lemma RunOfOne(q: State)
    requires InBatch(q) && q.ran == 0 && |q.batch| == 1 && q.batch[0] in q.heap
    requires q.heap[q.batch[0]].callback == []
    ensures RunUpTo(q, 1) == RunNext(q)
  {
    hide InBatch;
    assert RunUpTo(q, 0) == q;
    assert RunUpTo(q, 1) == CalledUpTo(RunNext(q), [], 0) == RunNext(q);
  }

  lemma GiveBackOfOne(q: State)
    requires GivingBack(q) && |q.batch| == 1
    ensures GivenBackUpTo(q, 1).clock == q.clock
  {
    hide GivingBack, Core;
    GivingBackIsCore(q);
    BatchIsLive(q);
    assert GivenBackUpTo(q, 0) == q;
    assert GivenBackUpTo(q, 1) == GivenBack(q);
  }

  lemma NoBatch(q: State)
    requires Valid(q)
    ensures q.batch == []
  {
  }

  // One timer due at 1 runs at 1; then one is added for 1 + delay, and it runs after the first.
  lemma LateAddition(delay: int) returns (events: seq<Event>)
    requires delay < 0
    ensures forall e :: e in events ==> AsksAtLeast(e, delay)
    ensures !Ordered(Run(Initial(0), events).fired)
  {
    hide Valid, Step, Run;
    var round := [Expire(1), CompleteRead(true), OnComplete(0, NoDelay())];
    var a, b := StartWatcher, Add([], 1, 0, 0, NoDelay());
    var c := Add([], delay, 0, 0, NoDelay());
    var q := FirstTimer();
    RoundOfOne(q);
    var r := Run(q, round);
    var last := LateRound(r, delay);
    events := [a, b] + round + [c] + last;
    RunTwice(Initial(0), [a, b] + round + [c], last);
    RunTwice(Initial(0), [a, b] + round, [c]);
    RunTwice(Initial(0), [a, b], round);
    RunOne(r, c);
  }

  lemma FirstTimer() returns (q: State)
    ensures Valid(q) && q == Run(Initial(0), [StartWatcher, Add([], 1, 0, 0, NoDelay())])
    ensures q.timers == {Entry(1, 0)} && q.clock == 0 && q.fd.read.Posted?
    ensures q.heap == map[0 := Timer([], 1, 0, 1)] && Lag(q) == 0
  {
    hide Valid;
    var a, b := StartWatcher, Add([], 1, 0, 0, NoDelay());
    var p := Step(Initial(0), a);
    q := Step(p, b);
    RunOne(p, b);
    assert [a, b][1..] == [b];
  }

  lemma RunOne(q: State, e: Event)
    requires Valid(q)
    ensures Run(q, [e]) == Step(q, e)
  {
    hide Valid, Step;
    assert [e][1..] == [];
  }

  lemma LateRound(r: State, delay: int) returns (round: seq<Event>)
    requires Valid(r) && delay < 0 && r.clock == 1 && r.fd.read.Posted?
    requires exists i :: 0 <= i < |r.fired| && r.fired[i].expiration == 1
    ensures forall e :: e in round ==> AsksAtLeast(e, delay)
    ensures !Ordered(Run(Step(r, Add([], delay, 0, 0, NoDelay())), round).fired)
  {
    hide Valid, HandleExpired, Run;
    var i :| 0 <= i < |r.fired| && r.fired[i].expiration == 1;
    var t := Step(r, Add([], delay, 0, 0, NoDelay()));
    round := [Expire(1 + Lag(t)), CompleteRead(true), OnComplete(0, NoDelay())];
    EarliestTimerRuns(t, 1 + Lag(t), NoDelay());
    var u := Run(t, round);
    var j :| |t.fired| <= j < |u.fired| && u.fired[j].expiration == Earliest(t.timers).when;
    RunKeepsDeleted(t, round);
    assert u.fired[i].expiration > u.fired[j].expiration;
  }

  // Where LateAddition stands after its first round.
  lemma RoundOfOne(q: State)
    requires Valid(q) && q.timers == {Entry(1, 0)} && q.clock == 0 && q.fd.read.Posted?
    requires q.heap == map[0 := Timer([], 1, 0, 1)] && Lag(q) == 0
    ensures var r := Run(q, [Expire(1), CompleteRead(true), OnComplete(0, NoDelay())]);
            && r.clock == 1 && r.fd.read.Posted?
            && exists i :: 0 <= i < |r.fired| && r.fired[i].expiration == 1
  {
    hide Core, History, InOrder, HandleExpired;
    EarliestTimerRuns(q, 1, NoDelay());
    var events := [Expire(1), CompleteRead(true), OnComplete(0, NoDelay())];
    var a := Step(q, events[0]);
    var b := Step(a, events[1]);
    var c := Step(b, events[2]);
    assert events[1..] == [events[1], events[2]] && events[1..][1..] == [events[2]];
    assert Run(q, events) == Run(a, events[1..]) == Run(b, [events[2]]) == Run(c, []) == c;
    assert Earliest(q.timers) == Entry(1, 0);
    OneTimerTakesNoTime(b, Entry(1, 0), 1);
  }

  // With delays bounded from below by min, callbacks run in order of expiration in every run,
  // across batches as well as within one, exactly when min is not negative.
  lemma OrderedIffNonNegative(min: int)
    ensures (forall now: Time, events: seq<Event> :: (forall e :: e in events ==> AsksAtLeast(e, min)) ==>
               Ordered(Run(Initial(now), events).fired)) <==> min >= 0
  {
    if min >= 0 {
      forall now: Time, events: seq<Event> | forall e :: e in events ==> AsksAtLeast(e, min)
        ensures Ordered(Run(Initial(now), events).fired)
      {
        forall e | e in events
          ensures AsksAtLeast(e, 0)
        {
          assert AsksAtLeast(e, min);
          match e {
            case Add(callback, _, _, _, _) => LargerDelays(callback, min);
            case AddPeriodic(callback, _, _, _, _) => LargerDelays(callback, min);
            case _ =>
          }
        }
        RunKeepsNonNegative(Initial(now), events);
        OrderedWhenNonNegative(Run(Initial(now), events));
      }
    } else {
      var events := LateAddition(min);
      assert !Ordered(Run(Initial(0), events).fired);
    }
  }
}
