// The timer queue as an object: its fields change in place, callbacks run in the middle of
// handle_expired and call back into it, and the kernel's timerfd takes steps of its own.
// Clock readings and the addresses that the allocator hands out are parameters.  Each method is
// proved against the function on states that says what it does.
module TimerQueues {
  import opened Options
  import opened TimerState
  import opened TimerBatch

  class TimerQueue {
    var nextSeq: Seqno
    var timers: set<Entry>
    var active: map<Seqno, Addr>
    var callingExpired: bool
    var canceling: seq<Seqno>
    var heap: map<Addr, Timer>
    var fd: TimerFd
    var clock: Time

    ghost var batch: seq<Addr>
    ghost var ran: nat
    ghost var horizon: Time
    ghost var fired: seq<Firing>
    ghost var owner: map<Seqno, Addr>
    ghost var deletedAt: map<Seqno, nat>
    ghost var nonNegative: bool

    ghost function View(): State
      reads this
    {
      State(nextSeq, timers, active, callingExpired, canceling, heap, fd, clock,
            batch, ran, horizon, fired, owner, deletedAt, nonNegative)
    }

    constructor (now: Time)
      ensures Valid(View())
      ensures View() == State(1, {}, map[], false, [], map[], TimerFd(None, false, NotStarted), now,
                              [], 0, now, [], map[], map[], true)
    {
      nextSeq, timers, active := 1, {}, map[];
      callingExpired, canceling := false, [];
      heap, fd, clock := map[], TimerFd(None, false, NotStarted), now;
      batch, ran, horizon, fired := [], 0, now, [];
      owner, deletedAt, nonNegative := map[], map[], true;
    }

    method ResetTimerfd(when: Time, now: Time, lag: nat)
      modifies this`fd, this`clock
      ensures View() == Reset(old(View()), when, now, lag)
    {
      clock := now;
      var ns := when - now;
      if ns <= 0 {
        ns := 1;
      }
      fd := fd.(armed := Some(Setting(when, now, lag, now + lag + ns)), ticks := false);
    }

    method DisarmTimerfd()
      modifies this`fd
      ensures View() == Disarm(old(View()))
    {
      fd := fd.(armed := None, ticks := false);
    }

    method Begin() returns (e: Entry)
      requires timers != {}
      ensures e == Earliest(timers)
    {
      EarliestExists(timers);
      e :| IsEarliest(e, timers);
      assert IsEarliest(Earliest(timers), timers);
    }

    // What add and add_periodic have in common.
    method Insert(callback: Script, when: Time, interval: int, addr: Addr, now: Time, latency: Latency)
      returns (id: TimerId)
      requires Valid(View()) || InBatch(View())
      requires CanInsert(View(), addr, now)
      modifies this
      ensures View() == Inserted(old(View()), callback, when, interval, addr, now, latency)
      ensures if old(callingExpired) then InBatch(View()) else Valid(View())
      ensures id == TimerId(Some(addr), old(nextSeq))
    {
      hide Valid, InBatch, CanInsert, Linked;
      NewTop(timers, when);
      InsertKeeps(View(), callback, when, interval, addr, now, latency);
      id := TimerId(Some(addr), nextSeq);
      var newTop := timers == {};
      if !newTop {
        var first := Begin();
        newTop := when < first.when;
      }
      Link(callback, when, interval, addr, now);
      if newTop {
        ResetTimerfd(when, now + latency.read, latency.call);
      }
    }

    method Link(callback: Script, when: Time, interval: int, addr: Addr, now: Time)
      modifies this
      ensures View() == Linked(old(View()), callback, when, interval, addr, now)
    {
      hide NonNegative;
      clock := now;
      timers := timers + {Entry(when, addr)};
      active := active[nextSeq := addr];
      NewTimer(callback, when, interval, addr);
    }

    // `new Timer`, which takes the next sequence.
    method NewTimer(callback: Script, when: Time, interval: int, addr: Addr)
      modifies this`heap, this`nextSeq, this`owner, this`nonNegative
      ensures nextSeq == old(nextSeq) + 1
      ensures heap == old(heap)[addr := Timer(callback, when, interval, old(nextSeq))]
      ensures owner == old(owner)[old(nextSeq) := addr]
      ensures nonNegative == (old(nonNegative) && when >= clock && interval >= 0 && NonNegative(callback))
    {
      heap := heap[addr := Timer(callback, when, interval, nextSeq)];
      owner := owner[nextSeq := addr];
      nonNegative := nonNegative && when >= clock && interval >= 0 && NonNegative(callback);
      nextSeq := nextSeq + 1;
    }

    method Add(callback: Script, delay: int, addr: Addr, now: Time, latency: Latency) returns (id: TimerId)
      requires Valid(View()) || InBatch(View())
      requires CanInsert(View(), addr, now)
      modifies this
      ensures View() == Inserted(old(View()), callback, now + delay, 0, addr, now, latency)
      ensures if old(callingExpired) then InBatch(View()) else Valid(View())
      ensures id == TimerId(Some(addr), old(nextSeq))
    {
      hide Valid, InBatch, Inserted, CanInsert;
      id := Insert(callback, now + delay, 0, addr, now, latency);
    }

    method AddPeriodic(callback: Script, interval: int, addr: Addr, now: Time, latency: Latency) returns (id: TimerId)
      requires Valid(View()) || InBatch(View())
      requires CanInsert(View(), addr, now)
      modifies this
      ensures View() == Inserted(old(View()), callback, now + interval, interval, addr, now, latency)
      ensures if old(callingExpired) then InBatch(View()) else Valid(View())
      ensures id == TimerId(Some(addr), old(nextSeq))
    {
      hide Valid, InBatch, Inserted, CanInsert;
      id := Insert(callback, now + interval, interval, addr, now, latency);
    }

    // `delete t`: it needs a timer that is still allocated.
    method Delete(a: Addr)
      requires a in heap
      modifies this`heap, this`owner, this`deletedAt
      ensures View() == Deleted(old(View()), a)
    {
      owner := owner - {heap[a].seqno};
      deletedAt := deletedAt[heap[a].seqno := |fired|];
      heap := heap - {a};
    }

    method SetTimerfd(now: Time, lag: nat)
      modifies this`fd, this`clock
      ensures View() == SetForEarliest(old(View()), now, lag)
    {
      if timers == {} {
        DisarmTimerfd();
      } else {
        var first := Begin();
        ResetTimerfd(first.when, now, lag);
      }
    }

    method Cancel(id: TimerId, now: Time, lag: nat)
      requires Valid(View()) || InBatch(View())
      requires clock <= now
      modifies this
      ensures View() == Cancelled(old(View()), id, now, lag)
      ensures if old(callingExpired) then InBatch(View()) else Valid(View())
    {
      hide Valid, InBatch, Cancelled, Indexed;
      ValidIsIndexed(View());
      CancelCases(View(), id, now, lag);
      CancelKeeps(View(), id, now, lag);
      if id.timer.None? {
        return;
      }
      if id.seqno !in active {
        if callingExpired {
          canceling := canceling + [id.seqno];
        }
        return;
      }
      Erase(id, now, lag);
    }

    // The rest of cancel, for a timer that is in the set.
    method Erase(id: TimerId, now: Time, lag: nat)
      requires Indexed(timers, active, heap) && id.timer.Some? && id.seqno in active
      modifies this
      ensures View() == Cancelled(old(View()), id, now, lag)
    {
      var seqno := id.seqno;
      var a := active[seqno];
      var first := Begin();
      var wasTop := first.addr == a;
      assert wasTop <==> first == Entry(heap[a].expiration, a);
      timers := timers - {Entry(heap[a].expiration, a)};
      active := active - {seqno};
      if callingExpired {
        canceling := canceling + [seqno];
      }
      Delete(a);
      if wasTop {
        SetTimerfd(now, lag);
      }
    }

    // One thing that a callback does.
    method Perform(action: Action)
      requires InBatch(View()) && !action.Throw?
      modifies this
      ensures View() == Performed(old(View()), action)
    {
      hide InBatch, Valid, Core, Inserted, Cancelled, CanInsert, Indexed;
      InBatchIsCore(View());
      match action {
        case Elapse(ns) =>
          clock := clock + ns;
        case After(delay, body, hint, latency) =>
          var id := Add(body, delay, Allocate(heap, hint), clock, latency);
        case Every(interval, body, hint, latency) =>
          var id := AddPeriodic(body, interval, Allocate(heap, hint), clock, latency);
        case CancelTimer(id, latency) =>
          Cancel(id, clock + latency.read, latency.call);
      }
    }

    // A callback, up to its end or to where it throws; handle_expired catches what it throws.
    method Call(script: Script) returns (threw: bool)
      requires InBatch(View())
      modifies this
      ensures View() == CalledUpTo(old(View()), script, FirstThrow(script))
      ensures threw <==> exists a :: a in script && a.Throw?
    {
      hide InBatch, Performed;
      var i := 0;
      while i < |script| && !script[i].Throw?
        invariant 0 <= i <= FirstThrow(script)
        invariant View() == CalledUpTo(old(View()), script, i)
      {
        Perform(script[i]);
        i := i + 1;
      }
      threw := i < |script|;
    }

    method PopExpired(now: Time) returns (expired: seq<Addr>)
      requires Valid(View()) && Popping(View(), now)
      modifies this`timers, this`active, this`batch
      ensures Popping(old(View()), now) && View() == PopAll(old(View()), now)
      ensures expired == batch
    {
      hide Valid, Popping, Popped, Indexed;
      expired := NoBatch();
      while timers != {}
        invariant Popping(View(), now) && PopAll(View(), now) == PopAll(old(View()), now)
        invariant expired == batch
        decreases |timers|
      {
        var first := Begin();
        if first.when > now {
          break;
        }
        PoppingIsIndexed(View(), now);
        PopKeeps(View(), now);
        PopOne(first);
        expired := expired + [first.addr];
      }
    }

    method NoBatch() returns (expired: seq<Addr>)
      requires Valid(View())
      ensures expired == [] == batch
    {
      expired := [];
    }

    method PopOne(first: Entry)
      requires Indexed(timers, active, heap) && timers != {} && first == Earliest(timers)
      modifies this`timers, this`active, this`batch
      ensures View() == Popped(old(View())) && batch == old(batch) + [first.addr]
      ensures |timers| < |old(timers)|
    {
      batch := batch + [first.addr];
      active := active - {heap[first.addr].seqno};
      timers := timers - {first};
    }

    // handle_expired enters the next callback of its batch.
    ghost method Enter()
      requires ran < |batch| && batch[ran] in heap
      modifies this`fired, this`ran
      ensures View() == RunNext(old(View()))
    {
      var t := heap[batch[ran]];
      fired := fired + [Firing(t.seqno, t.expiration, t.interval, horizon)];
      ran := ran + 1;
    }

    method RunBatch(expired: seq<Addr>)
      requires InBatch(View()) && expired == batch && ran == 0
      modifies this
      ensures View() == RunUpTo(old(View()), |expired|)
    {
      hide InBatch, RunNext, CalledUpTo, Core;
      var i := 0;
      while i < |expired|
        invariant 0 <= i <= |expired|
        invariant View() == RunUpTo(old(View()), i)
      {
        InBatchIsCore(View());
        BatchIsLive(View());
        RunKeeps(View());
        var t := heap[expired[i]];
        Enter();
        var threw := Call(t.callback);
        i := i + 1;
      }
    }

    method GiveBackOne(a: Addr, now: Time)
      requires batch != [] && batch[0] == a && a in heap && ran == |batch| && now == horizon
      modifies this
      ensures View() == GivenBack(old(View()))
    {
      batch := batch[1..];
      ran := ran - 1;
      if heap[a].Repeat() && heap[a].seqno !in canceling {
        Reinsert(a, now);
      } else {
        Delete(a);
      }
    }

    method Reinsert(a: Addr, now: Time)
      requires a in heap
      modifies this`heap, this`timers, this`active
      ensures var was := old(heap)[a];
              var t := Timer(was.callback, now + was.interval, was.interval, was.seqno);
              && heap == old(heap)[a := t] && timers == old(timers) + {Entry(t.expiration, a)}
              && active == old(active)[t.seqno := a]
    {
      heap := heap[a := heap[a].Restart(now)];
      timers := timers + {Entry(heap[a].expiration, a)};
      active := active[heap[a].seqno := a];
    }

    method GiveBack(expired: seq<Addr>, now: Time)
      requires GivingBack(View()) && expired == batch && now == horizon
      modifies this
      ensures View() == GivenBackUpTo(old(View()), |expired|)
    {
      hide GivingBack, GivenBack, Core;
      var i := 0;
      while i < |expired|
        invariant 0 <= i <= |expired|
        invariant View() == GivenBackUpTo(old(View()), i)
        invariant now == horizon
      {
        GivingBackIsCore(View());
        BatchIsLive(View());
        GivenBackKeepsHorizon(View());
        GiveBackOne(expired[i], now);
        i := i + 1;
      }
    }

    // What a completed read of the timerfd leads to.
    method HandleExpired(now: Time, latency: Latency)
      requires Valid(View()) && clock <= now
      modifies this
      ensures View() == TimerBatch.HandleExpired(old(View()), now, latency)
      ensures Valid(View())
    {
      hide Valid, Popping, PoppedFrom, InBatch, GivingBack, Core, PopAll, RunUpTo, GivenBackUpTo, SetForEarliest;
      PoppingStarts(View(), now);
      var expired := PopExpired(now);
      StartKeeps(View(), now);
      PoppingFacts(View(), now);
      StartBatch(now);
      RunBatch(expired);
      GiveBackStarts(View());
      RunUpToKeepsHorizon(Started(PopAll(old(View()), now), now), |expired|);
      callingExpired := false;
      GiveBack(expired, now);
      FinishKeeps(View(), clock + latency.read, latency.call);
      FinishBatch(clock + latency.read, latency.call);
    }

    method StartBatch(now: Time)
      modifies this`clock, this`horizon, this`callingExpired
      ensures View() == Started(old(View()), now)
    {
      clock, horizon := now, now;
      callingExpired := true;
    }

    method FinishBatch(now: Time, lag: nat)
      modifies this`canceling, this`fd, this`clock
      ensures View() == Finished(old(View()), now, lag)
    {
      canceling := [];
      SetTimerfd(now, lag);
    }

    // The kernel finds the deadline passed.
    method KernelExpires(at: Time)
      requires Valid(View()) && clock <= at
      modifies this`clock, this`fd
      ensures Valid(View())
      ensures View() == Expired(old(View()), at)
    {
      clock := at;
      if fd.armed.Some? && fd.armed.value.deadline <= at {
        fd := fd.(armed := None, ticks := true);
      }
    }

    // The kernel completes the watcher's read, or fails it.
    method KernelReads(ok: bool)
      requires Valid(View())
      modifies this`fd
      ensures Valid(View())
      ensures View() == Read(old(View()), ok)
    {
      if fd.read.Posted? {
        if !ok {
          fd := fd.(read := Failed);
        } else if fd.ticks {
          fd := fd.(read := Done, ticks := false);
        }
      }
    }

    // start, with a submission entry to be had.
    method Start()
      requires Valid(View())
      modifies this`fd
      ensures Valid(View())
      ensures View() == Posting(old(View()))
    {
      if fd.read.NotStarted? {
        fd := fd.(read := Posted);
      }
    }

    // TimerfdWatcher::on_complete, with a submission entry to be had.
    method OnComplete(now: Time, latency: Latency)
      requires Valid(View()) && clock <= now
      requires fd.read.Done? || fd.read.Failed?
      modifies this
      ensures Valid(View())
      ensures View() == Completed(old(View()), now, latency)
    {
      hide Valid, TimerBatch.HandleExpired;
      CompletedKeeps(View(), now, latency);
      if fd.read.Done? {
        HandleExpired(now, latency);
      }
      fd := fd.(read := Posted);
    }

    // The destructor, which can only run between two calls: every timer ever issued has been
    // deleted by the end, each one once.
    method Destroy()
      requires Valid(View())
      modifies this
      ensures heap == map[]
      ensures forall s :: 1 <= s < nextSeq ==> s in deletedAt
      ensures nextSeq == old(nextSeq)
    {
      hide Valid, TearingDown;
      TearDownStarts(View());
      var rest := timers;
      while rest != {}
        invariant TearingDown(View(), rest)
        invariant nextSeq == old(nextSeq)
        decreases rest
      {
        var e :| e in rest;
        TearDownStep(View(), rest, e);
        rest := rest - {e};
        Delete(e.addr);
      }
      TearDownEnds(View());
    }
  }
}
