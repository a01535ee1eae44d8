// The thread pool: its queue, its condition variable and its workers as interleaved atomic
// steps.  A worker that finds nothing to do still holds the lock until it sleeps, so posting
// cannot come in between; stop() does not take the lock and can.
module ThreadPool {
  type Worker = nat
  type Job = nat   // what names a task; the same name may be enqueued again

  datatype Status =
    | Awake                // about to lock the queue and look
    | Deciding             // found no task and no stop, holds the lock, about to sleep
    | Sleeping
    | Busy(job: Job)
    | Gone                 // has left worker_loop

  datatype Pool = Pool(
    queue: seq<Job>,
    workers: map<Worker, Status>,
    notifies: nat,         // pushes whose notify_one is still to come
    stopping: bool,
    pushed: seq<Job>,      // every task pushed, in that order
    started: seq<Job>,     // every task taken by a worker, in that order
    done: multiset<Job>,
    late: seq<Job>)        // every task pushed when all workers had gone, in that order

  datatype Label =
    | Push(j: Job)                    // enqueue: lock and push
    | NotifySleeper(w: Worker)        // enqueue: notify_one finds w asleep
    | NotifyNobody                    // enqueue: notify_one finds nobody asleep
    | Spurious(w: Worker)
    | Look(w: Worker)                 // one mutex section of worker_loop
    | Sleep(w: Worker)                // releases the lock
    | Finish(w: Worker)               // the task returns or throws; either is swallowed
    | SetStop                         // stop: the store
    | NotifyAll                       // stop: notify_all

  predicate Unlocked(p: Pool) {
    forall w :: w in p.workers ==> !p.workers[w].Deciding?
  }

  predicate AllGone(p: Pool) {
    forall w :: w in p.workers ==> p.workers[w].Gone?
  }

  predicate Enabled(p: Pool, l: Label) {
    match l
    case Push(_) => Unlocked(p)
    case NotifySleeper(w) => p.notifies > 0 && w in p.workers && p.workers[w].Sleeping?
    case NotifyNobody => p.notifies > 0 && forall w :: w in p.workers ==> !p.workers[w].Sleeping?
    case Spurious(w) => w in p.workers && p.workers[w].Sleeping?
    case Look(w) => Unlocked(p) && w in p.workers && p.workers[w].Awake?
    case Sleep(w) => w in p.workers && p.workers[w].Deciding?
    case Finish(w) => w in p.workers && p.workers[w].Busy?
    case SetStop => true
    case NotifyAll => p.stopping
  }

  function Step(p: Pool, l: Label): Pool
    requires Enabled(p, l)
  {
    match l
    case Push(j) =>
      p.(queue := p.queue + [j], notifies := p.notifies + 1,
         pushed := p.pushed + [j], late := if AllGone(p) then p.late + [j] else p.late)
    case NotifySleeper(w) => p.(workers := p.workers[w := Awake], notifies := p.notifies - 1)
    case NotifyNobody => p.(notifies := p.notifies - 1)
    case Spurious(w) => p.(workers := p.workers[w := Awake])
    case Look(w) =>
      if p.queue != [] then
        p.(workers := p.workers[w := Busy(p.queue[0])], queue := p.queue[1..], started := p.started + [p.queue[0]])
      else if p.stopping then p.(workers := p.workers[w := Gone])
      else p.(workers := p.workers[w := Deciding])
    case Sleep(w) => p.(workers := p.workers[w := Sleeping])
    case Finish(w) =>
      p.(workers := p.workers[w := Awake], done := p.done + multiset{p.workers[w].job})
    case SetStop => p.(stopping := true)
    case NotifyAll =>
      p.(workers := map w | w in p.workers :: if p.workers[w].Sleeping? then Awake else p.workers[w])
  }

  // start() on a pool asked for n threads.
  function Initial(n: nat): (p: Pool)
    ensures |p.workers| == if n == 0 then 1 else n
  {
    Pool([], Threads(if n == 0 then 1 else n), 0, false, [], [], multiset{}, [])
  }

  function Threads(n: nat): (workers: map<Worker, Status>)
    ensures |workers| == n
    ensures forall w :: w in workers ==> w < n && workers[w].Awake?
  {
    if n == 0 then map[] else Threads(n - 1)[n - 1 := Awake]
  }

  // ---------- Invariants ----------

  // Workers that will look at the queue again without being notified.
  ghost function Attending(p: Pool): set<Worker> {
    set w | w in p.workers && (p.workers[w].Awake? || p.workers[w].Busy?)
  }

  predicate SomeoneSleeps(p: Pool) {
    exists w :: w in p.workers && p.workers[w].Sleeping?
  }

  predicate SomeoneDecides(p: Pool) {
    exists w :: w in p.workers && p.workers[w].Deciding?
  }

  ghost predicate WorkConserving(p: Pool) {
    && (SomeoneSleeps(p) ==> |p.queue| <= |Attending(p)| + p.notifies)
    && (SomeoneDecides(p) ==> p.queue == [])
  }

  // The workers that are running task j.
  ghost function Holders(workers: map<Worker, Status>, j: Job): set<Worker> {
    set w | w in workers && workers[w] == Busy(j)
  }

  // Every task started is running or done, as often as it was started.
  ghost predicate Accounted(p: Pool) {
    forall j: Job :: multiset(p.started)[j] == |Holders(p.workers, j)| + p.done[j]
  }

  // So somebody attends to a queued task, or is going to be woken for it, if and only if not
  // all workers have gone.
  lemma QueueIsAttended(p: Pool)
    requires WorkConserving(p) && p.queue != []
    ensures Attending(p) != {} || (p.notifies > 0 && SomeoneSleeps(p)) <==> !AllGone(p)
  {
    if Attending(p) == {} && !AllGone(p) {
      var w :| w in p.workers && !p.workers[w].Gone?;
      assert w !in Attending(p);
    } else if w :| w in Attending(p) {
      assert !p.workers[w].Gone?;
    }
  }

  // Tasks are started in the order in which they were pushed, and the rest is queued.
  predicate InTurn(p: Pool) {
    p.pushed == p.started + p.queue
  }

  predicate SomeoneGone(p: Pool) {
    exists w :: w in p.workers && p.workers[w].Gone?
  }

  // A worker leaves only when there is a stop.  The last one leaves nothing behind, and what
  // comes after stays.
  predicate LeftEmpty(p: Pool) {
    && (SomeoneGone(p) ==> p.stopping)
    && (if AllGone(p) then p.queue == p.late else p.late == [])
  }

  ghost predicate Inv(p: Pool) {
    WorkConserving(p) && Accounted(p) && InTurn(p) && LeftEmpty(p)
  }

  // ---------- Counting ----------

  lemma HoldersUpdate(workers: map<Worker, Status>, w: Worker, s: Status, j: Job)
    requires w in workers
    ensures |Holders(workers[w := s], j)| + (if workers[w] == Busy(j) then 1 else 0)
         == |Holders(workers, j)| + (if s == Busy(j) then 1 else 0)
  {
    var rest := Holders(workers, j) - {w};
    assert Holders(workers, j) == if workers[w] == Busy(j) then rest + {w} else rest;
    assert Holders(workers[w := s], j) == if s == Busy(j) then rest + {w} else rest;
  }

  lemma AttendingUpdate(p: Pool, w: Worker, s: Status)
    requires w in p.workers
    ensures var r := p.(workers := p.workers[w := s]);
            |Attending(r)| == |Attending(p)|
              - (if p.workers[w].Awake? || p.workers[w].Busy? then 1 else 0)
              + (if s.Awake? || s.Busy? then 1 else 0)
  {
    AttendingSet(p, w, s);
    hide Attending;
    var rest := Attending(p) - {w};
    assert w !in rest;
  }

  lemma AttendingSet(p: Pool, w: Worker, s: Status)
    requires w in p.workers
    ensures var r := p.(workers := p.workers[w := s]);
            var rest := Attending(p) - {w};
            && Attending(p) == (if p.workers[w].Awake? || p.workers[w].Busy? then rest + {w} else rest)
            && Attending(r) == (if s.Awake? || s.Busy? then rest + {w} else rest)
  {
  }

  // ---------- Steps ----------

  lemma StepConservesWork(p: Pool, l: Label)
    requires WorkConserving(p) && Enabled(p, l)
    ensures WorkConserving(Step(p, l))
  {
    var r := Step(p, l);
    match l {
      case NotifySleeper(w) => AttendingUpdate(p, w, Awake);
      case Spurious(w) => AttendingUpdate(p, w, Awake);
      case Look(w) => AttendingUpdate(p, w, r.workers[w]);
      case Sleep(w) => AttendingUpdate(p, w, Sleeping);
      case Finish(w) => AttendingUpdate(p, w, Awake);
      case _ =>
    }
    assert Attending(r) == Attending(r.(workers := r.workers));
  }

  lemma StepAccounts(p: Pool, l: Label)
    requires Accounted(p) && Enabled(p, l)
    ensures Accounted(Step(p, l))
  {
    hide Unlocked;
    var r := Step(p, l);
    forall j: Job
      ensures multiset(r.started)[j] == |Holders(r.workers, j)| + r.done[j]
    {
      StepAccountsFor(p, l, j);
    }
  }

  lemma StepAccountsFor(p: Pool, l: Label, j: Job)
    requires Enabled(p, l)
    requires multiset(p.started)[j] == |Holders(p.workers, j)| + p.done[j]
    ensures var r := Step(p, l);
            multiset(r.started)[j] == |Holders(r.workers, j)| + r.done[j]
  {
    hide Unlocked, Holders;
    var r := Step(p, l);
    match l {
      case Look(w) =>
        HoldersUpdate(p.workers, w, r.workers[w], j);
      case Finish(w) => HoldersUpdate(p.workers, w, Awake, j);
      case NotifySleeper(w) => HoldersUpdate(p.workers, w, Awake, j);
      case Spurious(w) => HoldersUpdate(p.workers, w, Awake, j);
      case Sleep(w) => HoldersUpdate(p.workers, w, Sleeping, j);
      case NotifyAll => WakingHolds(p.workers, j);
      case _ =>
    }
  }

  lemma WakingHolds(workers: map<Worker, Status>, j: Job)
    ensures Holders(map w | w in workers :: if workers[w].Sleeping? then Awake else workers[w], j)
         == Holders(workers, j)
  {
  }

  lemma StepKeepsTurn(p: Pool, l: Label)
    requires InTurn(p) && Enabled(p, l)
    ensures InTurn(Step(p, l))
  {
    if l.Look? && p.queue != [] {
      assert p.queue == [p.queue[0]] + p.queue[1..];
    }
  }

  lemma StepKeepsEmpty(p: Pool, l: Label)
    requires LeftEmpty(p) && Enabled(p, l)
    ensures LeftEmpty(Step(p, l))
  {
    hide AllGone, SomeoneGone, Unlocked, LeftEmpty;
    var r := Step(p, l);
    LeftMeans(p);
    LeftMeans(r);
    GoneAfter(p, l);
  }

  lemma LeftMeans(p: Pool)
    ensures LeftEmpty(p) <==>
              (SomeoneGone(p) ==> p.stopping) && (if AllGone(p) then p.queue == p.late else p.late == [])
  {
  }

  // Who has gone stays gone; a worker goes only from an empty queue in a stopped pool.
  lemma GoneAfter(p: Pool, l: Label)
    requires Enabled(p, l)
    ensures var r := Step(p, l);
            && (AllGone(p) ==> AllGone(r) && !l.Look?)
            && (!AllGone(p) && AllGone(r) ==> l.Look? && p.queue == [] && p.stopping)
            && (SomeoneGone(r) ==> SomeoneGone(p) || p.stopping)
  {
    var r := Step(p, l);
    if !AllGone(p) {
      var w :| w in p.workers && !p.workers[w].Gone?;
      if !(l.Look? && l.w == w && p.queue == [] && p.stopping) {
        assert w in r.workers && !r.workers[w].Gone?;
      }
    }
  }

  lemma StepKeepsInv(p: Pool, l: Label)
    requires Inv(p) && Enabled(p, l)
    ensures Inv(Step(p, l))
  {
    hide WorkConserving, Accounted, InTurn, LeftEmpty, Step;
    StepConservesWork(p, l);
    StepAccounts(p, l);
    StepKeepsTurn(p, l);
    StepKeepsEmpty(p, l);
  }

  // ---------- Every interleaving ----------

  ghost predicate Reaches(p: Pool, labels: seq<Label>, r: Pool)
    decreases |labels|
  {
    if labels == [] then p == r
    else Enabled(p, labels[0]) && Reaches(Step(p, labels[0]), labels[1..], r)
  }

  lemma StepKeepsWorkers(p: Pool, l: Label)
    requires Enabled(p, l)
    ensures Step(p, l).workers.Keys == p.workers.Keys
  {
  }

  lemma {:induction false} RunKeepsInv(p: Pool, labels: seq<Label>, r: Pool)
    requires Inv(p) && Reaches(p, labels, r)
    ensures Inv(r) && r.workers.Keys == p.workers.Keys
    decreases |labels|
  {
    hide Inv, Step, Enabled;
    if labels != [] {
      StepKeepsWorkers(p, labels[0]);
      StepKeepsInv(p, labels[0]);
      RunKeepsInv(Step(p, labels[0]), labels[1..], r);
    }
  }

  lemma InitialInv(n: nat)
    ensures Inv(Initial(n))
  {
    assert forall j: Job :: Holders(Initial(n).workers, j) == {};
  }

  // While some worker sleeps there are enough awake ones, or notifications on their way, for
  // everything queued.
  lemma SleepersAreNotNeeded(n: nat, labels: seq<Label>, p: Pool)
    requires Reaches(Initial(n), labels, p) && SomeoneSleeps(p)
    ensures |p.queue| <= |Attending(p)| + p.notifies
  {
    InitialInv(n);
    RunKeepsInv(Initial(n), labels, p);
    hide Reaches;
  }

  // What a run pushes, what its workers turn to and what they finish, one label at a time.
  function PushedBy(labels: seq<Label>): seq<Job> {
    if labels == [] then []
    else (if labels[0].Push? then [labels[0].j] else []) + PushedBy(labels[1..])
  }

  function Taken(p: Pool, l: Label): seq<Job>
    requires Enabled(p, l)
  {
    if !l.Look? then []
    else
      match Step(p, l).workers[l.w]
      case Busy(j) => [j]
      case _ => []
  }

  function TakenBy(p: Pool, labels: seq<Label>): seq<Job>
    decreases |labels|
  {
    if labels == [] || !Enabled(p, labels[0]) then []
    else Taken(p, labels[0]) + TakenBy(Step(p, labels[0]), labels[1..])
  }

  function Finished(p: Pool, l: Label): multiset<Job>
    requires Enabled(p, l)
  {
    if l.Finish? then multiset{p.workers[l.w].job} else multiset{}
  }

  function FinishedBy(p: Pool, labels: seq<Label>): multiset<Job>
    decreases |labels|
  {
    if labels == [] || !Enabled(p, labels[0]) then multiset{}
    else Finished(p, labels[0]) + FinishedBy(Step(p, labels[0]), labels[1..])
  }

  lemma HistoryStep(p: Pool, l: Label)
    requires Enabled(p, l)
    ensures var r := Step(p, l);
            && r.pushed == p.pushed + (if l.Push? then [l.j] else [])
            && r.started == p.started + Taken(p, l)
            && r.done == p.done + Finished(p, l)
            && r.stopping == (p.stopping || l.SetStop?)
  {
  }

  lemma {:induction false} HistoryOf(p: Pool, labels: seq<Label>, r: Pool)
    requires Reaches(p, labels, r)
    ensures r.pushed == p.pushed + PushedBy(labels)
    ensures r.started == p.started + TakenBy(p, labels)
    ensures r.done == p.done + FinishedBy(p, labels)
    ensures r.stopping <==> p.stopping || SetStop in labels
    decreases |labels|
  {
    hide Enabled, Step, Taken, Finished;
    if labels != [] {
      HistoryStep(p, labels[0]);
      HistoryOf(Step(p, labels[0]), labels[1..], r);
      assert labels == [labels[0]] + labels[1..];
    }
  }

  lemma RunFromStart(n: nat, labels: seq<Label>, p: Pool)
    requires Reaches(Initial(n), labels, p)
    ensures Inv(p) && p.workers != map[]
    ensures p.pushed == PushedBy(labels) && p.started == TakenBy(Initial(n), labels)
    ensures p.done == FinishedBy(Initial(n), labels) && (p.stopping <==> SetStop in labels)
  {
    hide Reaches, TakenBy, FinishedBy, PushedBy, Inv;
    InitialInv(n);
    RunKeepsInv(Initial(n), labels, p);
    HistoryOf(Initial(n), labels, p);
    StartIsBlank(n);
    assert [] + PushedBy(labels) == PushedBy(labels);
    assert [] + TakenBy(Initial(n), labels) == TakenBy(Initial(n), labels);
    assert multiset{} + FinishedBy(Initial(n), labels) == FinishedBy(Initial(n), labels);
  }

  lemma StartIsBlank(n: nat)
    ensures var p := Initial(n);
            p.pushed == [] && p.started == [] && p.done == multiset{} && !p.stopping && p.workers.Keys != {}
  {
    assert 0 in Threads(if n == 0 then 1 else n) by { FirstThread(if n == 0 then 1 else n); }
  }

  lemma {:induction false} FirstThread(n: nat)
    requires n > 0
    ensures 0 in Threads(n)
  {
    if n > 1 {
      FirstThread(n - 1);
    }
  }

  // Workers turn to tasks in the order in which they were pushed; each one is run once, and is
  // queued, running or done.
  lemma TasksRunOnce(n: nat, labels: seq<Label>, p: Pool)
    requires Reaches(Initial(n), labels, p)
    ensures PushedBy(labels) == TakenBy(Initial(n), labels) + p.queue
    ensures forall j: Job ::
              multiset(TakenBy(Initial(n), labels))[j] == |Holders(p.workers, j)| + FinishedBy(Initial(n), labels)[j]
  {
    hide Reaches, TakenBy, FinishedBy, PushedBy, Initial;
    RunFromStart(n, labels, p);
  }

  // ---------- When stop() returns ----------

  // stop() returns when every worker is gone.  Then every task has been run to its end, once
  // for each time it was pushed, but for those pushed after the last worker had gone: they
  // are what is queued.  So all tasks have run if and only if there were none of these.
  lemma StopDrains(n: nat, labels: seq<Label>, p: Pool)
    requires Reaches(Initial(n), labels, p) && AllGone(p)
    ensures SetStop in labels && p.queue == p.late
    ensures var finished := FinishedBy(Initial(n), labels);
            && multiset(PushedBy(labels)) == finished + multiset(p.late)
            && finished == multiset(TakenBy(Initial(n), labels))
            && (finished == multiset(PushedBy(labels)) <==> p.late == [])
  {
    hide Reaches, TakenBy, FinishedBy, PushedBy, Initial, Inv, AllGone;
    RunFromStart(n, labels, p);
    Drained(p);
  }

  lemma Drained(p: Pool)
    requires Inv(p) && AllGone(p) && p.workers != map[]
    ensures p.stopping && p.queue == p.late && p.done == multiset(p.started)
    ensures multiset(p.pushed) == p.done + multiset(p.late)
    ensures p.done == multiset(p.pushed) <==> p.late == []
  {
    hide WorkConserving, Accounted;
    NobodyHolds(p);
    SomebodyWent(p);
    if p.late != [] {
      assert multiset(p.pushed)[p.late[0]] > p.done[p.late[0]];
    }
  }

  lemma SomebodyWent(p: Pool)
    requires AllGone(p) && p.workers != map[]
    ensures SomeoneGone(p)
  {
    var w :| w in p.workers;
  }

  lemma NobodyHolds(p: Pool)
    requires AllGone(p) && Accounted(p)
    ensures p.done == multiset(p.started)
  {
    assert forall j: Job :: Holders(p.workers, j) == {};
  }

  // The step with which the last worker goes leaves the queue empty, and from then on what is
  // pushed is exactly what is queued and nothing runs.
  lemma LastWorkerLeavesNothing(n: nat, before: seq<Label>, p: Pool, l: Label, after: seq<Label>, r: Pool)
    requires Reaches(Initial(n), before, p) && Enabled(p, l)
    requires !AllGone(p) && AllGone(Step(p, l)) && Reaches(Step(p, l), after, r)
    ensures r.queue == PushedBy(after) && r.late == PushedBy(after)
    ensures r.done == Step(p, l).done == multiset(PushedBy(before))
  {
    hide Reaches, TakenBy, FinishedBy, PushedBy, Initial, Inv, AllGone, Enabled, Step;
    RunFromStart(n, before, p);
    LastLeaves(p, l);
    LateTaskIsStranded(Step(p, l), after, r);
  }

  lemma LastLeaves(p: Pool, l: Label)
    requires Inv(p) && Enabled(p, l) && !AllGone(p) && AllGone(Step(p, l))
    ensures var q := Step(p, l); q.queue == [] && q.late == [] && q.done == multiset(p.pushed)
  {
    StepKeepsInv(p, l);
    GoneAfter(p, l);
    NobodyHolds(Step(p, l));
  }

  // A task pushed after the last worker has gone never runs.
  lemma {:induction false} LateTaskIsStranded(p: Pool, labels: seq<Label>, r: Pool)
    requires Reaches(p, labels, r) && AllGone(p)
    ensures r.queue == p.queue + PushedBy(labels) && r.late == p.late + PushedBy(labels)
    ensures r.done == p.done && r.started == p.started && r.workers == p.workers
    decreases |labels|
  {
    hide AllGone, Step, Enabled, PushedBy;
    PushedByMore(labels);
    if labels != [] {
      var q := Step(p, labels[0]);
      GoneStep(p, labels[0]);
      LateTaskIsStranded(q, labels[1..], r);
      Regroup(p.queue, labels, q.queue);
      Regroup(p.late, labels, q.late);
    }
  }

  lemma PushedByMore(labels: seq<Label>)
    ensures labels == [] ==> PushedBy(labels) == []
    ensures labels != [] ==>
              PushedBy(labels) == (if labels[0].Push? then [labels[0].j] else []) + PushedBy(labels[1..])
  {
  }

  lemma Regroup(s: seq<Job>, labels: seq<Label>, t: seq<Job>)
    requires labels != [] && t == s + (if labels[0].Push? then [labels[0].j] else [])
    ensures t + PushedBy(labels[1..]) == s + PushedBy(labels)
  {
    PushedByMore(labels);
  }

  lemma GoneStep(p: Pool, l: Label)
    requires AllGone(p) && Enabled(p, l)
    ensures var q := Step(p, l);
            && AllGone(q) && q.workers == p.workers && q.done == p.done && q.started == p.started
            && q.queue == p.queue + (if l.Push? then [l.j] else [])
            && q.late == p.late + (if l.Push? then [l.j] else [])
  {
    assert Step(p, l).workers == p.workers;
  }

  // And there are runs with such a task, in a pool of one worker.
  lemma TaskCanBeStranded(j: Job) returns (labels: seq<Label>, p: Pool)
    ensures Reaches(Initial(1), labels, p) && AllGone(p) && p.queue == [j] && p.done == multiset{}
  {
    hide Reaches;
    var a := Initial(1);
    assert Threads(1) == map[0 := Awake];
    var b := a.(stopping := true);
    var c := b.(workers := map[0 := Gone]);
    p := c.(queue := [j], pushed := [j], late := [j], notifies := 1);
    StaysThere(p);
    labels := StepsInto(c, Push(j), p, [], p);
    labels := StepsInto(b, Look(0), c, labels, p);
    labels := StepsInto(a, SetStop, b, labels, p);
  }

  // ---------- Whether stop() returns ----------

  // What is left to happen once stop() has notified: no pushes, no spurious wakeups.
  predicate Quiet(l: Label) {
    !l.Push? && !l.Spurious? && !l.SetStop? && !l.NotifyAll?
  }

  predicate AllQuiet(labels: seq<Label>) {
    forall l :: l in labels ==> Quiet(l)
  }

  // stop() waits for a worker and nothing more happens.
  ghost predicate Stuck(p: Pool) {
    !AllGone(p) && forall l :: Quiet(l) ==> !Enabled(p, l)
  }

  // No worker sleeps or is about to, in a stopped pool.
  predicate Restless(p: Pool) {
    p.stopping && !SomeoneSleeps(p) && !SomeoneDecides(p)
  }

  ghost function In(p: Pool, busy: bool): set<Worker> {
    set w | w in p.workers && Is(p.workers[w], busy)
  }

  // A bound on the quiet steps to come.
  ghost function Work(p: Pool): nat {
    |In(p, false)| + 2 * |In(p, true)| + 2 * |p.queue| + p.notifies
  }

  predicate Is(s: Status, busy: bool) {
    if busy then s.Busy? else s.Awake?
  }

  lemma InUpdate(p: Pool, w: Worker, s: Status, busy: bool)
    requires w in p.workers
    ensures |In(p.(workers := p.workers[w := s]), busy)| + (if Is(p.workers[w], busy) then 1 else 0)
         == |In(p, busy)| + (if Is(s, busy) then 1 else 0)
  {
    hide Is;
    var r := p.(workers := p.workers[w := s]);
    var rest := In(p, busy) - {w};
    assert In(p, busy) == if Is(p.workers[w], busy) then rest + {w} else rest;
    assert In(r, busy) == if Is(s, busy) then rest + {w} else rest;
  }

  lemma SameIn(p: Pool, r: Pool, busy: bool)
    requires p.workers == r.workers
    ensures In(p, busy) == In(r, busy)
  {
  }

  lemma RestlessStep(p: Pool, l: Label)
    requires Restless(p) && Enabled(p, l) && Quiet(l)
    ensures Restless(Step(p, l)) && Work(Step(p, l)) < Work(p)
  {
    hide In;
    var r := Step(p, l);
    if l.Look? || l.Finish? {
      InUpdate(p, l.w, r.workers[l.w], false);
      InUpdate(p, l.w, r.workers[l.w], true);
      var m := p.(workers := r.workers);
      SameIn(m, r, false);
      SameIn(m, r, true);
    } else {
      SameIn(p, r, false);
      SameIn(p, r, true);
    }
  }

  lemma RestlessIsNotStuck(p: Pool)
    requires Restless(p)
    ensures !Stuck(p)
  {
    if !AllGone(p) {
      var w :| w in p.workers && !p.workers[w].Gone?;
      assert p.workers[w].Awake? ==> Enabled(p, Look(w)) && Quiet(Look(w));
      assert p.workers[w].Busy? ==> Enabled(p, Finish(w)) && Quiet(Finish(w));
    }
  }

  // From there stop() returns: quiet runs are bounded and none ends but with everybody gone.
  lemma {:induction false} StopReturns(p: Pool, labels: seq<Label>, r: Pool)
    requires Restless(p) && Reaches(p, labels, r) && AllQuiet(labels)
    ensures |labels| + Work(r) <= Work(p)
    ensures !Stuck(r)
    decreases |labels|
  {
    hide Restless, Work, Stuck, Enabled, Step, Quiet;
    if labels == [] {
      RestlessIsNotStuck(p);
    } else {
      RestlessStep(p, labels[0]);
      assert AllQuiet(labels[1..]) by {
        assert forall l :: l in labels[1..] ==> l in labels;
      }
      StopReturns(Step(p, labels[0]), labels[1..], r);
    }
  }

  // ---------- and when it may not ----------

  // All that is left of the pool: whoever is not asleep leaves.
  ghost predicate Leaving(p: Pool) {
    && p.stopping && p.queue == [] && p.notifies == 0
    && !SomeoneDecides(p)
  }

  lemma StuckAsleep(p: Pool)
    requires p.notifies == 0 && SomeoneSleeps(p)
    requires forall w :: w in p.workers ==> p.workers[w].Gone? || p.workers[w].Sleeping?
    ensures Stuck(p)
  {
  }

  // The sleepers stay and the others leave, one after the other.
  lemma {:induction false} OthersLeave(p: Pool) returns (labels: seq<Label>, r: Pool)
    requires Leaving(p) && SomeoneSleeps(p)
    ensures Reaches(p, labels, r) && AllQuiet(labels) && Stuck(r)
    decreases Work(p)
  {
    hide Reaches, Stuck, Work;
    if w :| w in p.workers && (p.workers[w].Awake? || p.workers[w].Busy?) {
      var l := if p.workers[w].Awake? then Look(w) else Finish(w);
      var q := Step(p, l);
      LeavingStep(p, l);
      labels, r := OthersLeave(q);
      labels := StepsInto(p, l, q, labels, r);
    } else {
      StaysThere(p);
      StuckAsleep(p);
      labels, r := [], p;
    }
  }

  lemma LeavingStep(p: Pool, l: Label)
    requires Leaving(p) && SomeoneSleeps(p) && Enabled(p, l) && (l.Look? || l.Finish?)
    ensures Leaving(Step(p, l)) && SomeoneSleeps(Step(p, l)) && Work(Step(p, l)) < Work(p)
  {
    var r := Step(p, l);
    InUpdate(p, l.w, r.workers[l.w], false);
    InUpdate(p, l.w, r.workers[l.w], true);
    var m := p.(workers := r.workers);
    SameIn(m, r, false);
    SameIn(m, r, true);
    hide In;
    var w :| w in p.workers && p.workers[w].Sleeping?;
    assert r.workers[w].Sleeping?;
  }

  ghost function Deciders(p: Pool): set<Worker> {
    set w | w in p.workers && p.workers[w].Deciding?
  }

  // Whoever has decided to sleep does so.
  lemma {:induction false} DecidersSleep(p: Pool) returns (labels: seq<Label>, r: Pool)
    requires p.stopping && p.queue == [] && p.notifies == 0 && (SomeoneDecides(p) || SomeoneSleeps(p))
    ensures Reaches(p, labels, r) && AllQuiet(labels) && Stuck(r)
    decreases Deciders(p)
  {
    hide Reaches, Stuck;
    if w :| w in p.workers && p.workers[w].Deciding? {
      var q := Step(p, Sleep(w));
      assert w in Deciders(p) && Deciders(q) == Deciders(p) - {w};
      assert q.workers[w].Sleeping?;
      labels, r := DecidersSleep(q);
      labels := StepsInto(p, Sleep(w), q, labels, r);
    } else {
      labels, r := OthersLeave(p);
    }
  }

  // Notifications that are still to come find nobody asleep.
  lemma {:induction false} NotifiesPass(p: Pool) returns (labels: seq<Label>, r: Pool)
    requires p.stopping && p.queue == [] && SomeoneDecides(p) && !SomeoneSleeps(p)
    ensures Reaches(p, labels, r) && AllQuiet(labels) && Stuck(r)
    decreases p.notifies
  {
    hide Reaches, Stuck;
    if p.notifies > 0 {
      var q := Step(p, NotifyNobody);
      labels, r := NotifiesPass(q);
      labels := StepsInto(p, NotifyNobody, q, labels, r);
    } else {
      labels, r := DecidersSleep(p);
    }
  }

  // stop() sets its flag without the lock, so it can hang: what follows its notify_all can get
  // stuck, with a worker that only a spurious wakeup or a later push could wake, if and only
  // if some worker was between its look at the queue and its sleep at that moment.
  lemma StopHangsIff(n: nat, before: seq<Label>, p: Pool)
    requires Reaches(Initial(n), before, p) && p.stopping
    ensures (exists labels, r :: Reaches(Step(p, NotifyAll), labels, r) && AllQuiet(labels) && Stuck(r))
              <==> SomeoneDecides(p)
  {
    InitialInv(n);
    RunKeepsInv(Initial(n), before, p);
    hide Reaches, Stuck;
    var q := Step(p, NotifyAll);
    if SomeoneDecides(p) {
      var w :| w in p.workers && p.workers[w].Deciding?;
      assert q.workers[w].Deciding?;
      var labels, r := NotifiesPass(q);
    } else {
      forall labels, r | Reaches(q, labels, r) && AllQuiet(labels)
        ensures !Stuck(r)
      {
        StopReturns(q, labels, r);
      }
    }
  }

  // And that moment can come, in a pool of one worker.
  lemma StopMayHang() returns (labels: seq<Label>, p: Pool)
    ensures Reaches(Initial(1), labels, p) && p.stopping && SomeoneDecides(p)
  {
    hide Reaches;
    var a := Initial(1);
    assert Threads(1) == map[0 := Awake];
    var b := a.(workers := map[0 := Deciding]);
    p := b.(stopping := true);
    assert p.workers[0].Deciding?;
    StaysThere(p);
    labels := StepsInto(b, SetStop, p, [], p);
    labels := StepsInto(a, Look(0), b, labels, p);
  }

  lemma StaysThere(p: Pool)
    ensures Reaches(p, [], p)
  {
  }

  lemma StepsInto(p: Pool, l: Label, m: Pool, rest: seq<Label>, r: Pool) returns (labels: seq<Label>)
    requires Enabled(p, l) && Step(p, l) == m && Reaches(m, rest, r)
    ensures labels == [l] + rest && Reaches(p, labels, r)
    ensures AllQuiet(rest) && Quiet(l) ==> AllQuiet(labels)
  {
    labels := [l] + rest;
    assert labels[1..] == rest;
  }
}
