// What becomes of the timers that the callbacks of a batch add and cancel, action by action.
module TimerAdditions {
  import opened Options
  import opened TimerState
  import opened TimerBatch
  import opened TimerRuns

  // ---------- From one action to the end of the batch ----------

  function CancelsBetween(script: Script, i: nat, n: nat): seq<Seqno>
    requires i <= n <= |script|
  {
    if n == i then [] else CancelsBetween(script, i, n - 1) + CancelOf(script[n - 1])
  }

  lemma {:induction false} CancelsSplit(script: Script, i: nat, n: nat)
    requires i <= n <= |script|
    ensures CancelsUpTo(script, n) == CancelsUpTo(script, i) + CancelsBetween(script, i, n)
  {
    if n > i {
      CancelsSplit(script, i, n - 1);
    }
  }

  lemma {:induction false} CalledRest(q: State, script: Script, i: nat, n: nat)
    requires InBatch(q) && i <= n <= FirstThrow(script)
    ensures OnlyCancelled(CalledUpTo(q, script, i), CalledUpTo(q, script, n), CancelsBetween(script, i, n))
  {
    hide InBatch, OnlyCancelled, Core, Performed;
    var m := CalledUpTo(q, script, i);
    if n == i {
      InBatchIsCore(m);
      OnlyCancelledNothing(m);
    } else {
      var p := CalledUpTo(q, script, n - 1);
      CalledRest(q, script, i, n - 1);
      PerformedFrame(p, script[n - 1]);
      OnlyCancelledTwice(m, p, Performed(p, script[n - 1]), CancelsBetween(script, i, n - 1), CancelOf(script[n - 1]));
    }
  }

  // The callbacks of the batch from the k-th on.
  lemma {:induction false} RunRest(q: State, k: nat, n: nat) returns (cancels: seq<Seqno>)
    requires InBatch(q) && q.ran == 0 && k <= n <= |q.batch|
    requires forall j :: 0 <= j < |q.batch| ==> q.batch[j] in q.heap
    ensures OnlyCancelled(RunUpTo(q, k), RunUpTo(q, n), cancels)
    ensures BatchCancels(q.batch, q.heap, n) == BatchCancels(q.batch, q.heap, k) + cancels
  {
    hide InBatch, OnlyCancelled, Core, Cancels, RunNext, CalledUpTo, FirstThrow;
    if n == k {
      InBatchIsCore(RunUpTo(q, k));
      OnlyCancelledNothing(RunUpTo(q, k));
      cancels := [];
    } else {
      var before := RunRest(q, k, n - 1);
      var p := RunUpTo(q, n - 1);
      var script := NextScript(q, n - 1);
      CallbackRuns(q, n - 1);
      OnlyCancelledTwice(RunUpTo(q, k), p, RunUpTo(q, n), before, Cancels(script));
      cancels := before + Cancels(script);
    }
  }

  // The callback that runs as the k-th of the batch.
  ghost function NextScript(q: State, k: nat): Script
    requires InBatch(q) && q.ran == 0 && k < |q.batch| && q.batch[k] in q.heap
  {
    q.heap[q.batch[k]].callback
  }

  lemma CallbackRuns(q: State, k: nat)
    requires InBatch(q) && q.ran == 0 && k < |q.batch|
    requires forall j :: 0 <= j < |q.batch| ==> q.batch[j] in q.heap
    ensures var p := RunUpTo(q, k);
            var script := NextScript(q, k);
            && p.ran == k && p.batch == q.batch && p.batch[k] in p.heap && p.heap[p.batch[k]].callback == script
            && InBatch(RunNext(p))
            && RunUpTo(q, k + 1) == CalledUpTo(RunNext(p), script, FirstThrow(script))
            && OnlyCancelled(p, RunUpTo(q, k + 1), Cancels(script))
  {
    hide InBatch, OnlyCancelled, Core, RunNext, CalledUpTo;
    var p := RunUpTo(q, k);
    var script := NextScript(q, k);
    InBatchIsCore(p);
    BatchIsLive(p);
    RunKeeps(p);
    RunUpToMeans(q, k);
    OnlyCancelledFacts(q, p, BatchCancels(q.batch, q.heap, k), k);
    CalledFrame(RunNext(p), script, FirstThrow(script));
    EntryCancelsNothing(p, CalledUpTo(RunNext(p), script, FirstThrow(script)), Cancels(script));
  }

  // ---------- One action ----------

  // The state of the queue when the k-th callback of the batch has performed i actions.
  ghost function AtAction(q: State, k: nat, i: nat): (p: State)
    requires InBatch(q) && q.ran == 0 && k < |q.batch|
    requires forall j :: 0 <= j < |q.batch| ==> q.batch[j] in q.heap
    requires i <= FirstThrow(NextScript(q, k))
    ensures InBatch(p)
  {
    hide InBatch, OnlyCancelled, Core, RunNext;
    CallbackRuns(q, k);
    CalledUpTo(RunNext(RunUpTo(q, k)), NextScript(q, k), i)
  }

  // From there to the end of the batch, the callbacks cancel what is left of their cancels.
  lemma RestOfBatch(q: State, k: nat, i: nat) returns (later: seq<Seqno>)
    requires InBatch(q) && q.ran == 0 && k < |q.batch|
    requires forall j :: 0 <= j < |q.batch| ==> q.batch[j] in q.heap
    requires i <= FirstThrow(NextScript(q, k))
    ensures OnlyCancelled(AtAction(q, k, i), RunUpTo(q, |q.batch|), later)
    ensures BatchCancels(q.batch, q.heap, |q.batch|)
         == BatchCancels(q.batch, q.heap, k) + CancelsUpTo(NextScript(q, k), i) + later
  {
    hide InBatch, OnlyCancelled, Core, RunNext, CalledUpTo, RunUpTo, BatchCancels, CancelsUpTo, CancelsBetween;
    var script := NextScript(q, k);
    var n := FirstThrow(script);
    CallbackRuns(q, k);
    CalledRest(RunNext(RunUpTo(q, k)), script, i, n);
    CancelsSplit(script, i, n);
    var after := RunRest(q, k + 1, |q.batch|);
    later := CancelsBetween(script, i, n) + after;
    OnlyCancelledTwice(AtAction(q, k, i), RunUpTo(q, k + 1), RunUpTo(q, |q.batch|),
                       CancelsBetween(script, i, n), after);
    OneMoreCallback(q, k);
    Regroup(BatchCancels(q.batch, q.heap, k), CancelsUpTo(script, i), CancelsBetween(script, i, n), after);
  }

  lemma OneMoreCallback(q: State, k: nat)
    requires InBatch(q) && q.ran == 0 && k < |q.batch|
    requires forall j :: 0 <= j < |q.batch| ==> q.batch[j] in q.heap
    ensures BatchCancels(q.batch, q.heap, k + 1)
         == BatchCancels(q.batch, q.heap, k) + CancelsUpTo(NextScript(q, k), FirstThrow(NextScript(q, k)))
  {
    hide InBatch;
  }

  lemma Regroup(a: seq<Seqno>, b: seq<Seqno>, c: seq<Seqno>, d: seq<Seqno>)
    ensures (a + (b + c)) + d == a + b + (c + d)
  {
  }

  // ---------- Whole batches ----------

  // handle_expired at its first callback.
  ghost function Begun(q: State, now: Time): (s: State)
    requires Valid(q) && q.clock <= now
    ensures InBatch(s) && s.ran == 0 && s.canceling == [] && s.nextSeq == q.nextSeq
    ensures s.batch == Batch(q, now) && s.heap == q.heap
    ensures forall j :: 0 <= j < |s.batch| ==> s.batch[j] in s.heap
  {
    hide Valid, Popping, PoppedFrom, InBatch, PopAll;
    PoppingStarts(q, now);
    PopAllFrom(q, q, now);
    var a := PopAll(q, now);
    PoppedFacts(q, a);
    StartKeeps(a, now);
    PoppingFacts(a, now);
    Started(a, now)
  }

  // At its last callback's end, and when it returns.
  lemma EndOfBatch(q: State, now: Time, latency: Latency) returns (b: State, r: State)
    requires Valid(q) && q.clock <= now
    ensures b == RunUpTo(Begun(q, now), |Begun(q, now).batch|) && r == HandleExpired(q, now, latency)
    ensures Core(b) && Core(r)
    ensures forall s :: s in b.active ==> s in r.active && r.active[s] == b.active[s]
    ensures forall s :: s in b.active ==>
              b.active[s] in b.heap && b.active[s] in r.heap && r.heap[b.active[s]] == b.heap[b.active[s]]
    ensures forall s :: s in b.deletedAt ==> s in r.deletedAt
    ensures forall k :: 0 <= k < |b.batch| ==>
              && b.batch[k] in b.heap
              && (b.heap[b.batch[k]].seqno in b.canceling ==> b.heap[b.batch[k]].seqno in r.deletedAt)
  {
    hide Valid, Popping, PoppedFrom, InBatch, GivingBack, PopAll, RunUpTo, GivenBackUpTo, Core, Finished, Handled,
         Untouched, Waiting;
    var s := Begun(q, now);
    b := RunUpTo(s, |s.batch|);
    GiveBackStarts(b);
    var c := b.(callingExpired := false);
    var t := GivenBackUpTo(c, |s.batch|);
    r := Finished(t, t.clock + latency.read, latency.call);
    ReturnsFinished(q, now, latency);
    GivingBackIsCore(c);
    GivingBackIsCore(t);
    GivenBackUpToMeans(c, |c.batch|);
    FinishedShape(t, t.clock + latency.read, latency.call);
    CoreIsSame(c, b);
    CoreIsSame(t, r);
    BatchIsLive(b);
    LeftBehind(c, t);
  }

  lemma ReturnsFinished(q: State, now: Time, latency: Latency)
    requires Valid(q) && q.clock <= now
    ensures var s := Begun(q, now);
            var b := RunUpTo(s, |s.batch|);
            && GivingBack(b.(callingExpired := false))
            && var t := GivenBackUpTo(b.(callingExpired := false), |s.batch|);
               HandleExpired(q, now, latency) == Finished(t, t.clock + latency.read, latency.call)
  {
    hide Valid, Popping, PoppedFrom, InBatch, GivingBack, PopAll, RunUpTo, GivenBackUpTo, Core, Finished;
    GiveBackStarts(RunUpTo(Begun(q, now), |Begun(q, now).batch|));
  }

  lemma CoreIsSame(q: State, r: State)
    requires Core(q)
    requires r.timers == q.timers && r.active == q.active && r.heap == q.heap && r.owner == q.owner
    requires r.batch == q.batch && r.nextSeq == q.nextSeq && r.deletedAt == q.deletedAt
    ensures Core(r)
  {
  }

  lemma LeftBehind(c: State, t: State)
    requires Untouched(c, t) && Handled(c, t, c.batch, |c.batch|)
    requires forall k :: 0 <= k < |c.batch| ==> c.batch[k] in c.heap
    ensures forall s :: s in c.active ==> s in t.active && t.active[s] == c.active[s]
    ensures forall s :: s in c.active ==>
              c.active[s] in c.heap && c.active[s] in t.heap && t.heap[c.active[s]] == c.heap[c.active[s]]
    ensures forall s :: s in c.deletedAt ==> s in t.deletedAt
    ensures forall k :: 0 <= k < |c.batch| && c.heap[c.batch[k]].seqno in c.canceling ==>
              c.heap[c.batch[k]].seqno in t.deletedAt
  {
    forall k | 0 <= k < |c.batch|
      ensures HandledOne(c, t, c.batch[k])
    {
    }
  }

  // The timer that a callback adds.
  function NewTimer(p: State, action: Action): Timer
    requires action.After? || action.Every?
  {
    match action
    case After(delay, body, _, _) => Timer(body, p.clock + delay, 0, p.nextSeq)
    case Every(interval, body, _, _) => Timer(body, p.clock + interval, interval, p.nextSeq)
  }

  lemma ActionIsPerformed(q: State, k: nat, i: nat)
    requires InBatch(q) && q.ran == 0 && k < |q.batch|
    requires forall j :: 0 <= j < |q.batch| ==> q.batch[j] in q.heap
    requires i < FirstThrow(NextScript(q, k))
    ensures AtAction(q, k, i + 1) == Performed(AtAction(q, k, i), NextScript(q, k)[i])
  {
    hide InBatch, Performed, RunUpTo, RunNext;
    CallbackRuns(q, k);
  }

  lemma AddsTimer(p: State, action: Action)
    requires InBatch(p) && (action.After? || action.Every?)
    ensures var m := Performed(p, action);
            var t := NewTimer(p, action);
            && t.seqno == p.nextSeq && m.nextSeq == p.nextSeq + 1
            && t.seqno in m.active && m.active[t.seqno] in m.heap && m.heap[m.active[t.seqno]] == t
  {
    hide InBatch, Core, Inserted, OnlyCancelled, CanInsert;
    InBatchIsCore(p);
    match action {
      case After(delay, body, hint, latency) =>
        InsertOnlyAdds(p, body, p.clock + delay, 0, Allocate(p.heap, hint), p.clock, latency);
      case Every(interval, body, hint, latency) =>
        InsertOnlyAdds(p, body, p.clock + interval, interval, Allocate(p.heap, hint), p.clock, latency);
    }
  }

  lemma KeptOrCancelled(m: State, b: State, later: seq<Seqno>, s: Seqno)
    requires OnlyCancelled(m, b, later) && s in m.active
    ensures if s in later then s in b.deletedAt
            else && s in b.active && m.active[s] in m.heap && b.active[s] in b.heap
                 && b.heap[b.active[s]] == m.heap[m.active[s]]
    ensures m.nextSeq <= b.nextSeq
  {
  }

  // Sequences only grow in the course of a batch.
  lemma SinceBegun(q: State, k: nat, i: nat)
    requires InBatch(q) && q.ran == 0 && k < |q.batch|
    requires forall j :: 0 <= j < |q.batch| ==> q.batch[j] in q.heap
    requires i <= FirstThrow(NextScript(q, k))
    ensures q.nextSeq <= AtAction(q, k, i).nextSeq
  {
    hide InBatch, Core, OnlyCancelled, RunUpTo, CalledUpTo, Cancels;
    CallbackRuns(q, k);
    RunUpToMeans(q, k);
    NextSeqGrows(q, RunUpTo(q, k), BatchCancels(q.batch, q.heap, k));
    CalledFrame(RunNext(RunUpTo(q, k)), NextScript(q, k), i);
    NextSeqGrows(RunNext(RunUpTo(q, k)), AtAction(q, k, i), CancelsUpTo(NextScript(q, k), i));
  }

  lemma NextSeqGrows(q: State, r: State, cancels: seq<Seqno>)
    requires OnlyCancelled(q, r, cancels)
    ensures q.nextSeq <= r.nextSeq
  {
  }

  lemma OnlyOldOnesRun(q: State, expired: seq<Addr>, now: Time)
    requires Valid(q) && IsBatch(q, expired, now)
    ensures forall k :: 0 <= k < |expired| ==> expired[k] in q.heap
    ensures forall k :: 0 <= k < |expired| ==> Firings(expired, q.heap, now)[k].seqno < q.nextSeq
  {
    hide History, InOrder, FdAgrees;
    LiveIsNotDeleted(q);
  }

  lemma SeqnosIssued(q: State, s: Seqno)
    requires Core(q) && (s in q.active || s in q.deletedAt)
    ensures s < q.nextSeq
  {
    assert s in q.active ==> s in q.owner;
  }

  // A cancel deletes the timer, unless that has been done or the timer is in the batch.
  lemma CancelsOrNotes(p: State, action: Action)
    requires InBatch(p) && action.CancelTimer? && action.id.timer.Some? && 1 <= action.id.seqno < p.nextSeq
    ensures var m := Performed(p, action);
            var s := action.id.seqno;
            && s in m.canceling
            && (|| s in m.deletedAt
                || exists k :: 0 <= k < |m.batch| && m.batch[k] in m.heap && m.heap[m.batch[k]].seqno == s)
  {
    hide InBatch, Core, Cancelled, Indexed;
    InBatchIsCore(p);
    CancelCases(p, action.id, p.clock + action.latency.read, action.latency.call);
    if action.id.seqno in p.active {
      CancelShape(p, action.id, p.clock + action.latency.read, action.latency.call);
    } else {
      DeletedOrInBatch(p, action.id.seqno);
    }
  }

  lemma DeletedOrInBatch(p: State, s: Seqno)
    requires Core(p) && 1 <= s < p.nextSeq && s !in p.active
    ensures s in p.deletedAt || exists k :: 0 <= k < |p.batch| && p.batch[k] in p.heap && p.heap[p.batch[k]].seqno == s
  {
    if s !in p.deletedAt {
      assert s in p.owner;
      var a := p.owner[s];
      assert a in p.heap && a in p.batch;
      var k :| 0 <= k < |p.batch| && p.batch[k] == a;
    }
  }

  lemma CancelledStays(m: State, b: State, later: seq<Seqno>, s: Seqno)
    requires OnlyCancelled(m, b, later) && s in m.canceling
    requires s in m.deletedAt || exists k :: 0 <= k < |m.batch| && m.batch[k] in m.heap && m.heap[m.batch[k]].seqno == s
    ensures s in b.canceling
    ensures s in b.deletedAt || exists k :: 0 <= k < |b.batch| && b.batch[k] in b.heap && b.heap[b.batch[k]].seqno == s
  {
    if s !in m.deletedAt {
      var k :| 0 <= k < |m.batch| && m.batch[k] in m.heap && m.heap[m.batch[k]].seqno == s;
      assert b.batch[k] == m.batch[k] && b.heap[b.batch[k]] == m.heap[m.batch[k]];
    }
  }

  // A timer that the k-th callback of a batch adds with its i-th action does not run in that
  // batch, whatever its delay.  When handle_expired returns it is indexed under its own
  // expiration, unless one of the later actions of the batch cancels its sequence: then it is
  // deleted.
  lemma AddedInBatch(q: State, now: Time, latency: Latency, k: nat, i: nat) returns (later: seq<Seqno>)
    requires Valid(q) && q.clock <= now && k < |Begun(q, now).batch|
    requires i < FirstThrow(NextScript(Begun(q, now), k))
    requires var action := NextScript(Begun(q, now), k)[i]; action.After? || action.Every?
    ensures var b := Begun(q, now);
            BatchCancels(b.batch, b.heap, |b.batch|)
              == BatchCancels(b.batch, b.heap, k) + CancelsUpTo(NextScript(b, k), i + 1) + later
    ensures var p := AtAction(Begun(q, now), k, i);
            var t := NewTimer(p, NextScript(Begun(q, now), k)[i]);
            var r := HandleExpired(q, now, latency);
            && q.nextSeq <= t.seqno < r.nextSeq
            && (if t.seqno in later then t.seqno in r.deletedAt && t.seqno !in r.active
                else t.seqno in r.active && r.active[t.seqno] in r.heap && r.heap[r.active[t.seqno]] == t)
            && q.fired <= r.fired
            && forall x :: |q.fired| <= x < |r.fired| ==> r.fired[x].seqno != t.seqno
  {
    hide Valid, InBatch, Core, OnlyCancelled, RunUpTo, CalledUpTo, HandleExpired, IsBatch, AfterBatch, Begun,
         NextScript;
    var s := Begun(q, now);
    var p := AtAction(s, k, i);
    var m := AtAction(s, k, i + 1);
    var action := NextScript(s, k)[i];
    var t := NewTimer(p, action);
    ActionIsPerformed(s, k, i);
    AddsTimer(p, action);
    later := RestOfBatch(s, k, i + 1);
    var b, r := EndOfBatch(q, now, latency);
    KeptOrCancelled(m, b, later, t.seqno);
    CoreFacts(b);
    CoreFacts(r);
    SinceBegun(s, k, i);
    var expired, cancels := HandleExpiredMeans(q, now, latency);
    OnlyOldOnesRun(q, expired, now);
    SeqnosIssued(r, t.seqno);
  }

  // A timer that the i-th action of the k-th callback of a batch cancels, be it queued, in the
  // batch itself or added by the batch, is deleted when handle_expired returns and never runs
  // after that.
  lemma CancelledInBatch(q: State, now: Time, latency: Latency, k: nat, i: nat, events: seq<Event>)
    requires Valid(q) && q.clock <= now && k < |Begun(q, now).batch|
    requires i < FirstThrow(NextScript(Begun(q, now), k))
    requires var action := NextScript(Begun(q, now), k)[i];
             && action.CancelTimer? && action.id.timer.Some?
             && 1 <= action.id.seqno < AtAction(Begun(q, now), k, i).nextSeq
    ensures var s := NextScript(Begun(q, now), k)[i].id.seqno;
            var r := HandleExpired(q, now, latency);
            && s in r.deletedAt && s !in r.active
            && forall x :: |r.fired| <= x < |Run(r, events).fired| ==> Run(r, events).fired[x].seqno != s
  {
    hide Valid, InBatch, Core, OnlyCancelled, RunUpTo, CalledUpTo, HandleExpired, Begun, NextScript, Run;
    var b0 := Begun(q, now);
    var p := AtAction(b0, k, i);
    var m := AtAction(b0, k, i + 1);
    var s := NextScript(b0, k)[i].id.seqno;
    ActionIsPerformed(b0, k, i);
    CancelsOrNotes(p, NextScript(b0, k)[i]);
    var later := RestOfBatch(b0, k, i + 1);
    var b, r := EndOfBatch(q, now, latency);
    CancelledStays(m, b, later, s);
    CoreFacts(r);
    DeletedIsSilent(r, events, s);
  }

  // Cancelled by the k-th callback of a batch, or by itself, a timer runs again if and only if
  // it has a place in the batch behind that callback.
  lemma CancelledRunsAgainIff(q: State, now: Time, latency: Latency, k: nat, i: nat, events: seq<Event>)
    requires Valid(q) && q.clock <= now && k < |Begun(q, now).batch|
    requires i < FirstThrow(NextScript(Begun(q, now), k))
    requires var action := NextScript(Begun(q, now), k)[i];
             && action.CancelTimer? && action.id.timer.Some?
             && 1 <= action.id.seqno < AtAction(Begun(q, now), k, i).nextSeq
    ensures var s := NextScript(Begun(q, now), k)[i].id.seqno;
            var fired := Run(HandleExpired(q, now, latency), events).fired;
            var batch := Batch(q, now);
            (exists x :: |q.fired| + k < x < |fired| && fired[x].seqno == s)
              <==> exists j :: k < j < |batch| && batch[j] in q.heap && q.heap[batch[j]].seqno == s
  {
    hide Valid, InBatch, Core, HandleExpired, Begun, NextScript, AtAction, Run, IsBatch, AfterBatch, Batch,
         BatchCancels;
    var s := NextScript(Begun(q, now), k)[i].id.seqno;
    var r := HandleExpired(q, now, latency);
    var fired := Run(r, events).fired;
    var batch := Batch(q, now);
    var expired, cancels := HandleExpiredMeans(q, now, latency);
    CancelledInBatch(q, now, latency, k, i, events);
    RunKeepsDeleted(r, events);
    OnlyOldOnesRun(q, batch, now);
    BatchFires(q, batch, now, r.fired, fired);
    SamePlaces(q, batch, |r.fired|, fired, k, s);
  }

  lemma SamePlaces(q: State, batch: seq<Addr>, end: nat, fired: seq<Firing>, k: nat, s: Seqno)
    requires end == |q.fired| + |batch| <= |fired|
    requires forall j :: 0 <= j < |batch| ==> batch[j] in q.heap
    requires forall j :: 0 <= j < |batch| ==> fired[|q.fired| + j].seqno == q.heap[batch[j]].seqno
    requires forall x :: end <= x < |fired| ==> fired[x].seqno != s
    ensures (exists x :: |q.fired| + k < x < |fired| && fired[x].seqno == s)
              <==> exists j :: k < j < |batch| && batch[j] in q.heap && q.heap[batch[j]].seqno == s
  {
    var n := |q.fired|;
    if x :| n + k < x < |fired| && fired[x].seqno == s {
      assert fired[n + (x - n)].seqno == q.heap[batch[x - n]].seqno;
    }
    if j :| k < j < |batch| && batch[j] in q.heap && q.heap[batch[j]].seqno == s {
      assert fired[n + j].seqno == s;
    }
  }

  lemma BatchFires(q: State, batch: seq<Addr>, now: Time, after: seq<Firing>, fired: seq<Firing>)
    requires forall j :: 0 <= j < |batch| ==> batch[j] in q.heap
    requires after == q.fired + Firings(batch, q.heap, now) && after <= fired
    ensures |after| == |q.fired| + |batch|
    ensures forall j :: 0 <= j < |batch| ==> fired[|q.fired| + j].seqno == q.heap[batch[j]].seqno
    ensures forall x :: |q.fired| <= x < |after| ==> fired[x].seqno == q.heap[batch[x - |q.fired|]].seqno
  {
  }
}
