// `co_await pool.submit(fn)` from end to end: coroutines on any number of schedulers, a thread
// pool and the way back, composed from the event loops and the pool.  A coroutine suspends on
// its scheduler, the closure runs on a pool thread, and the handle is posted home.  Other
// coroutines and other tasks share the schedulers and the pool.
module SubmitSystem {
  import EL = EventLoop
  import TP = ThreadPool

  type Handle = nat
  type Sched = nat
  type Worker = nat

  // What an awaiter's slot comes to hold.
  datatype Outcome = Returned(value: int) | Thrown(error: int)

  // Where the awaiter of a suspended coroutine stands.
  datatype Phase =
    | Queued                           // in the pool's queue, slot empty
    | Called(w: Worker)                // fn is running, slot empty
    | Filled(w: Worker, o: Outcome)    // slot written, not posted yet
    | Posted(o: Outcome)               // posted, slot written

  datatype Status =
    | Running(on: Sched)
    | Suspended(src: Sched, phase: Phase)
    | Ended

  datatype Coroutine = Coroutine(
    status: Status,
    submits: nat,               // await_suspend calls
    produced: seq<Outcome>,     // outcomes written into slots
    delivered: seq<Outcome>)    // outcomes taken out by await_resume

  // The program counter of the closure that a pool thread is running.  After the push it
  // holds its scheduler and nothing of the awaiter.
  datatype Closure =
    | Calling(h: Handle)
    | Returning(h: Handle)
    | Owing(s: Sched)

  datatype System = System(
    loops: map<Sched, EL.State>,
    pool: TP.Pool,
    closures: map<Worker, Closure>,
    coroutines: map<Handle, Coroutine>)

  datatype Label =
    | LoopStep(s: Sched, l: EL.Label)    // anything that moves no handle of these coroutines
    | PoolStep(pl: TP.Label)             // anything that moves no task of theirs
    | Spawn(h: Handle, s: Sched)
    | Submit(h: Handle)                  // await_suspend, up to the push
    | Claim(w: Worker)                   // a worker takes a task
    | Return(w: Worker, o: Outcome)      // fn is done and the slot is written
    | PostBack(w: Worker)                // src_sched_->post(handle_): the push
    | Wake(w: Worker)                    // and the write
    | ResumeOn(s: Sched)                 // the loop resumes a handle; await_resume
    | End(h: Handle)

  // Handles are moved freely but for those of the coroutines here, whose moves have labels of
  // their own; the pool's threads do nothing else while they run a closure.
  predicate Foreign(sys: System, loop: EL.State, l: EL.Label)
    requires EL.Enabled(loop, l)
  {
    match l
    case ByPoster(Post(p, h)) => p !in sys.pool.workers && h !in sys.coroutines
    case ByPoster(PostTask(p, t)) => p !in sys.pool.workers && NoneOf([t], sys.coroutines.Keys)
    case ByPoster(BootTask(t)) => NoneOf([t], sys.coroutines.Keys)
    case ByPoster(RemoteStop(p)) => p !in sys.pool.workers
    case ByPoster(Write(p)) => p !in sys.pool.workers
    case ByLoop(Resume) => loop.ready[0] !in sys.coroutines
    case ByCode(PushReady(h)) => h !in sys.coroutines
    case _ => true
  }

  predicate ForeignJob(sys: System, l: TP.Label) {
    match l
    case Push(j) => j !in sys.coroutines
    case Look(_) => sys.pool.queue == [] || sys.pool.queue[0] !in sys.coroutines
    case Finish(w) => w !in sys.closures
    case _ => true
  }

  // A handle that has yet to be allocated is in no queue.
  predicate Unused(sys: System, h: Handle) {
    && h !in sys.coroutines && h !in sys.pool.queue
    && forall t {:trigger t in sys.loops} :: t in sys.loops ==>
         && h !in sys.loops[t].handles && h !in sys.loops[t].ready
         && NoneOf(sys.loops[t].tasks, {h}) && NoneOf(sys.loops[t].swapped, {h})
  }

  predicate NoneOf(tasks: seq<EL.Task>, handles: set<Handle>) {
    forall i, h :: 0 <= i < |tasks| && h in tasks[i].readies ==> h !in handles
  }

  predicate OnThread(sys: System, s: Sched) {
    s in sys.loops && EL.Enabled(sys.loops[s], EL.ByCode(EL.Prepare))
  }

  predicate RunningHere(sys: System, h: Handle) {
    h in sys.coroutines && sys.coroutines[h].status.Running? && OnThread(sys, sys.coroutines[h].status.on)
  }

  predicate Enabled(sys: System, l: Label) {
    match l
    case LoopStep(s, l) => s in sys.loops && EL.Enabled(sys.loops[s], l) && Foreign(sys, sys.loops[s], l)
    case PoolStep(l) => TP.Enabled(sys.pool, l) && ForeignJob(sys, l)
    case Spawn(h, s) => Unused(sys, h) && OnThread(sys, s)
    case Submit(h) => RunningHere(sys, h) && TP.Enabled(sys.pool, TP.Push(h))
    case Claim(w) => TP.Enabled(sys.pool, TP.Look(w)) && sys.pool.queue != [] && sys.pool.queue[0] in sys.coroutines
    case Return(w, _) => w in sys.closures && sys.closures[w].Calling?
    case PostBack(w) => w in sys.closures && sys.closures[w].Returning?
    case Wake(w) => w in sys.closures && sys.closures[w].Owing?
    case ResumeOn(s) =>
      s in sys.loops && EL.Enabled(sys.loops[s], EL.ByLoop(EL.Resume)) && sys.loops[s].ready[0] in sys.coroutines
    case End(h) => RunningHere(sys, h)
  }

  // What a step needs of the objects it touches: the awaiter is still there for the closure,
  // the scheduler for the post, and a resumed coroutine has its result at home.
  predicate Safe(sys: System, l: Label)
    requires Enabled(sys, l)
  {
    match l
    case Claim(_) => Waits(sys, sys.pool.queue[0], Queued)
    case Return(w, _) => Waits(sys, sys.closures[w].h, Called(w))
    case PostBack(w) =>
      var h := sys.closures[w].h;
      && h in sys.coroutines && sys.coroutines[h].status.Suspended?
      && sys.coroutines[h].status.phase.Filled? && sys.coroutines[h].status.phase.w == w
      && sys.coroutines[h].status.src in sys.loops
    case Wake(w) => sys.closures[w].s in sys.loops && w in sys.loops[sys.closures[w].s].owed
    case ResumeOn(s) =>
      var h := sys.loops[s].ready[0];
      && h in sys.coroutines && sys.coroutines[h].status.Suspended?
      && sys.coroutines[h].status.phase.Posted? && sys.coroutines[h].status.src == s
    case _ => true
  }

  predicate Waits(sys: System, h: Handle, phase: Phase) {
    && h in sys.coroutines && sys.coroutines[h].status.Suspended?
    && sys.coroutines[h].status.phase == phase
  }

  function SetPhase(c: Coroutine, phase: Phase): Coroutine
    requires c.status.Suspended?
  {
    c.(status := Suspended(c.status.src, phase))
  }

  function Step(sys: System, l: Label): System
    requires Enabled(sys, l) && Safe(sys, l)
  {
    match l
    case LoopStep(s, l) => sys.(loops := sys.loops[s := EL.Step(sys.loops[s], l)])
    case PoolStep(l) => sys.(pool := TP.Step(sys.pool, l))
    case Spawn(h, s) => sys.(coroutines := sys.coroutines[h := Coroutine(Running(s), 0, [], [])])
    case Submit(h) =>
      var c := sys.coroutines[h];
      sys.(pool := TP.Step(sys.pool, TP.Push(h)),
           coroutines := sys.coroutines[h := c.(status := Suspended(c.status.on, Queued), submits := c.submits + 1)])
    case Claim(w) =>
      var h := sys.pool.queue[0];
      sys.(pool := TP.Step(sys.pool, TP.Look(w)),
           closures := sys.closures[w := Calling(h)],
           coroutines := sys.coroutines[h := SetPhase(sys.coroutines[h], Called(w))])
    case Return(w, o) =>
      var h := sys.closures[w].h;
      var c := sys.coroutines[h];
      sys.(closures := sys.closures[w := Returning(h)],
           coroutines := sys.coroutines[h := SetPhase(c, Filled(w, o)).(produced := c.produced + [o])])
    case PostBack(w) =>
      var h := sys.closures[w].h;
      var c := sys.coroutines[h];
      var s := c.status.src;
      sys.(closures := sys.closures[w := Owing(s)],
           loops := sys.loops[s := EL.Step(sys.loops[s], EL.ByPoster(EL.Post(w, h)))],
           coroutines := sys.coroutines[h := SetPhase(c, Posted(c.status.phase.o))])
    case Wake(w) =>
      var s := sys.closures[w].s;
      sys.(closures := sys.closures - {w},
           loops := sys.loops[s := EL.Step(sys.loops[s], EL.ByPoster(EL.Write(w)))])
    case ResumeOn(s) =>
      var h := sys.loops[s].ready[0];
      var c := sys.coroutines[h];
      sys.(loops := sys.loops[s := EL.Step(sys.loops[s], EL.ByLoop(EL.Resume))],
           coroutines := sys.coroutines[h := c.(status := Running(s), delivered := c.delivered + [c.status.phase.o])])
    case End(h) =>
      sys.(coroutines := sys.coroutines[h := sys.coroutines[h].(status := Ended)])
  }

  // ---------- Invariants ----------

  function InQueue(pool: TP.Pool, h: Handle): nat {
    multiset(pool.queue)[h]
  }

  function AtLoop(loop: EL.State, h: Handle): nat {
    multiset(loop.handles)[h] + multiset(loop.ready)[h]
  }

  predicate PostedTo(c: Coroutine, s: Sched) {
    c.status.Suspended? && c.status.phase.Posted? && c.status.src == s
  }

  // A suspended coroutine's handle is in the pool's queue, in one closure, or at its own
  // scheduler, exactly once; any other coroutine's is nowhere.
  ghost predicate QueueAgrees(pool: TP.Pool, coroutines: map<Handle, Coroutine>) {
    forall h {:trigger h in coroutines} :: h in coroutines ==>
      InQueue(pool, h) == if IsQueued(coroutines[h]) then 1 else 0
  }

  predicate IsQueued(c: Coroutine) {
    c.status.Suspended? && c.status.phase.Queued?
  }

  ghost predicate LoopsAgree(loops: map<Sched, EL.State>, coroutines: map<Handle, Coroutine>) {
    && (forall s, h :: s in loops && h in coroutines ==>
          AtLoop(loops[s], h) == if PostedTo(coroutines[h], s) then 1 else 0)
    && (forall s {:trigger s in loops} :: s in loops ==>
          NoneOf(loops[s].tasks, coroutines.Keys) && NoneOf(loops[s].swapped, coroutines.Keys))
    && (forall h {:trigger h in coroutines} :: h in coroutines && coroutines[h].status.Suspended? ==>
          coroutines[h].status.src in loops)
    && (forall h {:trigger h in coroutines} :: h in coroutines && coroutines[h].status.Running? ==>
          coroutines[h].status.on in loops)
  }

  ghost predicate ClosuresAgree(closures: map<Worker, Closure>, pool: TP.Pool, coroutines: map<Handle, Coroutine>) {
    && (forall w {:trigger w in closures} :: w in closures ==>
          && w in pool.workers && pool.workers[w].Busy?
          && match closures[w] {
               case Calling(h) =>
                 && h in coroutines && coroutines[h].status.Suspended?
                 && coroutines[h].status.phase == Called(w)
               case Returning(h) =>
                 && h in coroutines && coroutines[h].status.Suspended?
                 && coroutines[h].status.phase.Filled? && coroutines[h].status.phase.w == w
               case Owing(_) => true
             })
    && (forall h {:trigger h in coroutines} :: h in coroutines && coroutines[h].status.Suspended? ==>
          match coroutines[h].status.phase {
            case Called(w) => w in closures && closures[w] == Calling(h)
            case Filled(w, _) => w in closures && closures[w] == Returning(h)
            case _ => true
          })
  }

  ghost predicate WritesOwed(closures: map<Worker, Closure>, pool: TP.Pool, loops: map<Sched, EL.State>) {
    && (forall w, s :: w in pool.workers && s in loops ==>
          loops[s].owed[w] == if w in closures && closures[w] == Owing(s) then 1 else 0)
    && (forall w {:trigger w in closures} :: w in closures && closures[w].Owing? ==> closures[w].s in loops)
  }

  // Every outcome written into a slot has been delivered, once and in order, or is in the
  // slot of the await under way.
  predicate Delivers(c: Coroutine) {
    && c.submits == |c.delivered| + (if c.status.Suspended? then 1 else 0)
    && c.produced == c.delivered +
         (if c.status.Suspended? && (c.status.phase.Filled? || c.status.phase.Posted?)
          then [c.status.phase.o] else [])
  }

  ghost predicate Parts(sys: System) {
    && TP.Inv(sys.pool)
    && (forall s {:trigger s in sys.loops} :: s in sys.loops ==> EL.Inv(sys.loops[s]))
    && (forall h {:trigger h in sys.coroutines} :: h in sys.coroutines ==> Delivers(sys.coroutines[h]))
  }

  ghost predicate Inv(sys: System) {
    && QueueAgrees(sys.pool, sys.coroutines)
    && LoopsAgree(sys.loops, sys.coroutines)
    && ClosuresAgree(sys.closures, sys.pool, sys.coroutines)
    && WritesOwed(sys.closures, sys.pool, sys.loops)
    && Parts(sys)
  }

  // ---------- No step touches what is gone ----------

  lemma InvIsSafe(sys: System, l: Label)
    requires Inv(sys) && Enabled(sys, l)
    ensures Safe(sys, l)
  {
    hide QueueAgrees, LoopsAgree, ClosuresAgree, WritesOwed, Parts, EL.Enabled, TP.Enabled;
    match l {
      case Claim(_) => ClaimIsSafe(sys);
      case Return(w, _) => ClosureIsSafe(sys, w);
      case PostBack(w) => ClosureIsSafe(sys, w);
      case Wake(w) => WakeIsSafe(sys, w);
      case ResumeOn(s) => ResumeIsSafe(sys, s);
      case _ =>
    }
  }

  lemma ClaimIsSafe(sys: System)
    requires QueueAgrees(sys.pool, sys.coroutines) && sys.pool.queue != [] && sys.pool.queue[0] in sys.coroutines
    ensures Waits(sys, sys.pool.queue[0], Queued)
  {
    assert sys.pool.queue[0] in sys.pool.queue;
  }

  lemma ClosureIsSafe(sys: System, w: Worker)
    requires ClosuresAgree(sys.closures, sys.pool, sys.coroutines) && LoopsAgree(sys.loops, sys.coroutines)
    requires w in sys.closures && !sys.closures[w].Owing?
    ensures var h := sys.closures[w].h;
            && (sys.closures[w].Calling? ==> Waits(sys, h, Called(w)))
            && h in sys.coroutines && sys.coroutines[h].status.Suspended?
            && (sys.closures[w].Returning? ==>
                  && sys.coroutines[h].status.phase.Filled? && sys.coroutines[h].status.phase.w == w
                  && sys.coroutines[h].status.src in sys.loops)
  {
    hide AtLoop, NoneOf, PostedTo;
  }

  lemma WakeIsSafe(sys: System, w: Worker)
    requires ClosuresAgree(sys.closures, sys.pool, sys.coroutines)
    requires WritesOwed(sys.closures, sys.pool, sys.loops) && w in sys.closures && sys.closures[w].Owing?
    ensures sys.closures[w].s in sys.loops && w in sys.loops[sys.closures[w].s].owed
  {
  }

  lemma ResumeIsSafe(sys: System, s: Sched)
    requires LoopsAgree(sys.loops, sys.coroutines)
    requires s in sys.loops && EL.Enabled(sys.loops[s], EL.ByLoop(EL.Resume))
    requires sys.loops[s].ready[0] in sys.coroutines
    ensures sys.loops[s].ready[0] in sys.coroutines && PostedTo(sys.coroutines[sys.loops[s].ready[0]], s)
  {
    hide LoopsAgree, PostedTo, NoneOf;
    LoopFacts(sys);
    ReadyIsThere(sys.loops[s]);
  }

  lemma ReadyIsThere(loop: EL.State)
    requires EL.Enabled(loop, EL.ByLoop(EL.Resume))
    ensures AtLoop(loop, loop.ready[0]) > 0
  {
    assert loop.ready[0] in loop.ready;
  }

  // ---------- Every step keeps it ----------

  ghost predicate SameHandles(loop: EL.State, r: EL.State, ours: set<Handle>) {
    && (forall h {:trigger h in ours} :: h in ours ==> AtLoop(r, h) == AtLoop(loop, h))
    && NoneOf(r.tasks, ours) && NoneOf(r.swapped, ours)
  }

  lemma LoopEffect(sys: System, loop: EL.State, l: EL.Label)
    requires EL.Enabled(loop, l) && Foreign(sys, loop, l)
    requires NoneOf(loop.tasks, sys.coroutines.Keys) && NoneOf(loop.swapped, sys.coroutines.Keys)
    ensures var r := EL.Step(loop, l);
            && SameHandles(loop, r, sys.coroutines.Keys)
            && (forall w :: w in sys.pool.workers ==> r.owed[w] == loop.owed[w])
  {
    hide SameHandles, NoneOf, EL.PosterStep, EL.LoopStep, EL.CodeStep, EL.KernelStep;
    match l {
      case ByLoop(ll) => LoopLeaves(loop, ll, sys.coroutines.Keys);
      case ByPoster(p) => PosterLeaves(sys, loop, p);
      case ByCode(c) => CodeLeaves(loop, c, sys.coroutines.Keys);
      case ByKernel(k) => KernelLeaves(loop, k, sys.coroutines.Keys);
    }
  }

  lemma LoopLeaves(loop: EL.State, l: EL.LoopLabel, ours: set<Handle>)
    requires EL.LoopEnabled(loop, l) && (l.Resume? ==> loop.ready[0] !in ours)
    requires NoneOf(loop.tasks, ours) && NoneOf(loop.swapped, ours)
    ensures var r := EL.LoopStep(loop, l); SameHandles(loop, r, ours) && r.owed == loop.owed
  {
    hide NoneOf, AtLoop, SameHandles, EL.LoopStep;
    match l {
      case RunTask => TaskLeaves(loop, ours);
      case Swap => SwapLeaves(loop, ours);
      case Resume => ResumeLeaves(loop, ours);
      case _ => OthersLeave(loop, l, ours);
    }
  }

  lemma TaskLeaves(loop: EL.State, ours: set<Handle>)
    requires EL.LoopEnabled(loop, EL.RunTask)
    requires NoneOf(loop.tasks, ours) && NoneOf(loop.swapped, ours)
    ensures var r := EL.LoopStep(loop, EL.RunTask); SameHandles(loop, r, ours) && r.owed == loop.owed
  {
    var r := EL.LoopStep(loop, EL.RunTask);
    forall h | h in ours
      ensures AtLoop(r, h) == AtLoop(loop, h)
    {
      assert h !in loop.swapped[0].readies;
    }
  }

  lemma SwapLeaves(loop: EL.State, ours: set<Handle>)
    requires EL.LoopEnabled(loop, EL.Swap)
    requires NoneOf(loop.tasks, ours) && NoneOf(loop.swapped, ours)
    ensures var r := EL.LoopStep(loop, EL.Swap); SameHandles(loop, r, ours) && r.owed == loop.owed
  {
    hide NoneOf;
    var r := EL.LoopStep(loop, EL.Swap);
    assert NoneOf([], ours) by { NothingIsNone(ours); }
    assert forall h: Handle ::
        multiset(loop.ready + loop.handles)[h] == multiset(loop.ready)[h] + multiset(loop.handles)[h];
  }

  lemma NothingIsNone(ours: set<Handle>)
    ensures NoneOf([], ours)
  {
  }

  lemma ResumeLeaves(loop: EL.State, ours: set<Handle>)
    requires EL.LoopEnabled(loop, EL.Resume) && loop.ready[0] !in ours
    requires NoneOf(loop.tasks, ours) && NoneOf(loop.swapped, ours)
    ensures var r := EL.LoopStep(loop, EL.Resume); SameHandles(loop, r, ours) && r.owed == loop.owed
  {
    hide NoneOf;
    assert loop.ready == [loop.ready[0]] + loop.ready[1..];
  }

  lemma OthersLeave(loop: EL.State, l: EL.LoopLabel, ours: set<Handle>)
    requires EL.LoopEnabled(loop, l) && !l.Resume? && !l.RunTask? && !l.Swap?
    requires NoneOf(loop.tasks, ours) && NoneOf(loop.swapped, ours)
    ensures var r := EL.LoopStep(loop, l); SameHandles(loop, r, ours) && r.owed == loop.owed
  {
    hide NoneOf, AtLoop, SameHandles;
    SameSeqsSameHandles(loop, EL.LoopStep(loop, l), ours);
  }

  lemma SameSeqsSameHandles(loop: EL.State, r: EL.State, ours: set<Handle>)
    requires r.handles == loop.handles && r.ready == loop.ready
    requires NoneOf(r.tasks, ours) && NoneOf(r.swapped, ours)
    ensures SameHandles(loop, r, ours)
  {
  }

  lemma PosterLeaves(sys: System, loop: EL.State, l: EL.PosterLabel)
    requires EL.PosterEnabled(loop, l) && Foreign(sys, loop, EL.ByPoster(l))
    requires NoneOf(loop.tasks, sys.coroutines.Keys) && NoneOf(loop.swapped, sys.coroutines.Keys)
    ensures var r := EL.PosterStep(loop, l);
            && SameHandles(loop, r, sys.coroutines.Keys)
            && (forall w :: w in sys.pool.workers ==> r.owed[w] == loop.owed[w])
  {
    var ours := sys.coroutines.Keys;
    var r := EL.PosterStep(loop, l);
    if l.PostTask? || l.BootTask? {
      assert [l.t][0] == l.t;
      assert NoneOf(loop.tasks + [l.t], ours);
    }
  }

  lemma CodeLeaves(loop: EL.State, l: EL.CodeLabel, ours: set<Handle>)
    requires l.PushReady? ==> l.h !in ours
    requires NoneOf(loop.tasks, ours) && NoneOf(loop.swapped, ours)
    ensures var r := EL.CodeStep(loop, l); SameHandles(loop, r, ours) && r.owed == loop.owed
  {
    hide NoneOf;
  }

  lemma KernelLeaves(loop: EL.State, l: EL.KernelLabel, ours: set<Handle>)
    requires EL.KernelEnabled(loop, l)
    requires NoneOf(loop.tasks, ours) && NoneOf(loop.swapped, ours)
    ensures var r := EL.KernelStep(loop, l); SameHandles(loop, r, ours) && r.owed == loop.owed
  {
    hide NoneOf, AtLoop, SameHandles;
    SameSeqsSameHandles(loop, EL.KernelStep(loop, l), ours);
  }

  lemma QueueKept(sys: System, l: Label)
    requires Inv(sys) && Enabled(sys, l) && Safe(sys, l)
    ensures var r := Step(sys, l); QueueAgrees(r.pool, r.coroutines)
  {
    hide QueueAgrees, LoopsAgree, ClosuresAgree, WritesOwed, Parts, EL.Step, TP.Step;
    var r := Step(sys, l);
    match l {
      case Submit(h) => JobPushed(sys.pool, sys.coroutines, h, r.coroutines[h]);
      case Claim(w) => JobPopped(sys.pool, sys.coroutines, w, r.coroutines[sys.pool.queue[0]]);
      case PoolStep(pl) =>
        PoolKeepsQueue(sys, pl);
        SameQueueAgrees(sys.pool, r.pool, sys.coroutines);
      case Spawn(h, s) => OthersAgree(sys.pool, sys.coroutines, h, r.coroutines[h]);
      case Return(w, _) => OthersAgree(sys.pool, sys.coroutines, sys.closures[w].h, r.coroutines[sys.closures[w].h]);
      case PostBack(w) => OthersAgree(sys.pool, sys.coroutines, sys.closures[w].h, r.coroutines[sys.closures[w].h]);
      case ResumeOn(s) =>
        var h := sys.loops[s].ready[0];
        OthersAgree(sys.pool, sys.coroutines, h, r.coroutines[h]);
      case End(h) => OthersAgree(sys.pool, sys.coroutines, h, r.coroutines[h]);
      case _ =>
    }
  }

  lemma SameQueueAgrees(pool: TP.Pool, r: TP.Pool, coroutines: map<Handle, Coroutine>)
    requires QueueAgrees(pool, coroutines)
    requires forall h :: h in coroutines ==> InQueue(r, h) == InQueue(pool, h)
    ensures QueueAgrees(r, coroutines)
  {
  }

  lemma JobPushed(pool: TP.Pool, coroutines: map<Handle, Coroutine>, h: Handle, c: Coroutine)
    requires QueueAgrees(pool, coroutines) && TP.Enabled(pool, TP.Push(h))
    requires h in coroutines && !IsQueued(coroutines[h]) && IsQueued(c)
    ensures QueueAgrees(TP.Step(pool, TP.Push(h)), coroutines[h := c])
  {
    hide IsQueued;
  }

  lemma PopsFront(pool: TP.Pool, w: Worker)
    requires TP.Enabled(pool, TP.Look(w)) && pool.queue != []
    ensures TP.Step(pool, TP.Look(w)).queue == pool.queue[1..]
  {
  }

  lemma JobPopped(pool: TP.Pool, coroutines: map<Handle, Coroutine>, w: Worker, c: Coroutine)
    requires QueueAgrees(pool, coroutines) && TP.Enabled(pool, TP.Look(w)) && pool.queue != []
    requires pool.queue[0] in coroutines && !IsQueued(c)
    ensures QueueAgrees(TP.Step(pool, TP.Look(w)), coroutines[pool.queue[0] := c])
  {
    hide IsQueued, TP.Enabled;
    var q := pool.queue;
    var r := TP.Step(pool, TP.Look(w));
    assert r.queue == q[1..] by {
      PopsFront(pool, w);
    }
    assert q == [q[0]] + q[1..];
    assert q[0] in q && InQueue(pool, q[0]) > 0;
    forall h: Handle
      ensures InQueue(pool, h) == InQueue(r, h) + if h == q[0] then 1 else 0
    {
      assert multiset(q)[h] == multiset([q[0]])[h] + multiset(q[1..])[h];
    }
  }

  // A coroutine that is not queued, or not there yet, changes to another such state.
  lemma OthersAgree(pool: TP.Pool, coroutines: map<Handle, Coroutine>, h: Handle, c: Coroutine)
    requires QueueAgrees(pool, coroutines) && !IsQueued(c)
    requires if h in coroutines then !IsQueued(coroutines[h]) else h !in pool.queue
    ensures QueueAgrees(pool, coroutines[h := c])
  {
    hide IsQueued;
  }

  lemma PoolKeepsQueue(sys: System, pl: TP.Label)
    requires Enabled(sys, PoolStep(pl))
    ensures forall h :: h in sys.coroutines ==> InQueue(TP.Step(sys.pool, pl), h) == InQueue(sys.pool, h)
    ensures TP.Step(sys.pool, pl).workers.Keys == sys.pool.workers.Keys
    ensures forall w :: w in sys.closures && w in sys.pool.workers && sys.pool.workers[w].Busy? ==>
              TP.Step(sys.pool, pl).workers[w] == sys.pool.workers[w]
  {
    PoolQueue(sys, pl);
    hide Foreign, EL.Enabled;
  }

  lemma PoolQueue(sys: System, pl: TP.Label)
    requires Enabled(sys, PoolStep(pl))
    ensures forall h :: h in sys.coroutines ==> InQueue(TP.Step(sys.pool, pl), h) == InQueue(sys.pool, h)
  {
    hide TP.Unlocked, TP.AllGone;
    var q, r := sys.pool.queue, TP.Step(sys.pool, pl).queue;
    if pl.Look? && q != [] {
      assert q == [q[0]] + q[1..] && r == q[1..];
    } else if pl.Push? {
      assert r == q + [pl.j];
    } else {
      assert r == q;
    }
  }

  // One scheduler takes a step that moves no handle.
  lemma LoopReplaced(loops: map<Sched, EL.State>, coroutines: map<Handle, Coroutine>, s: Sched, r: EL.State)
    requires LoopsAgree(loops, coroutines) && s in loops && SameHandles(loops[s], r, coroutines.Keys)
    ensures LoopsAgree(loops[s := r], coroutines)
  {
    hide AtLoop, NoneOf;
  }

  // One scheduler and one coroutine change together.
  lemma BothReplaced(loops: map<Sched, EL.State>, coroutines: map<Handle, Coroutine>,
                     s: Sched, r: EL.State, h: Handle, c: Coroutine)
    requires LoopsAgree(loops, coroutines) && s in loops && h in coroutines
    requires forall x: Handle :: x != h ==> AtLoop(r, x) == AtLoop(loops[s], x)
    requires AtLoop(r, h) == if PostedTo(c, s) then 1 else 0
    requires forall t :: t != s ==> PostedTo(c, t) == PostedTo(coroutines[h], t)
    requires r.tasks == loops[s].tasks && r.swapped == loops[s].swapped
    requires c.status.Suspended? ==> c.status.src in loops
    requires c.status.Running? ==> c.status.on in loops
    ensures LoopsAgree(loops[s := r], coroutines[h := c])
  {
    hide AtLoop, NoneOf, PostedTo;
    assert coroutines[h := c].Keys == coroutines.Keys;
  }

  // A coroutine that is at no scheduler changes to another such state.
  lemma CoroutineReplaced(loops: map<Sched, EL.State>, coroutines: map<Handle, Coroutine>, h: Handle, c: Coroutine)
    requires LoopsAgree(loops, coroutines)
    requires h in coroutines ==> forall s :: !PostedTo(coroutines[h], s)
    requires h !in coroutines ==> forall s {:trigger s in loops} :: s in loops ==>
               AtLoop(loops[s], h) == 0 && NoneOf(loops[s].tasks, {h}) && NoneOf(loops[s].swapped, {h})
    requires forall s :: !PostedTo(c, s)
    requires c.status.Suspended? ==> c.status.src in loops
    requires c.status.Running? ==> c.status.on in loops
    ensures LoopsAgree(loops, coroutines[h := c])
  {
    hide AtLoop, NoneOf, PostedTo;
    forall s {:trigger s in loops} | s in loops
      ensures NoneOf(loops[s].tasks, coroutines[h := c].Keys) && NoneOf(loops[s].swapped, coroutines[h := c].Keys)
    {
      OneMore(loops[s].tasks, coroutines, h, c);
      OneMore(loops[s].swapped, coroutines, h, c);
    }
  }

  lemma OneMore(tasks: seq<EL.Task>, coroutines: map<Handle, Coroutine>, h: Handle, c: Coroutine)
    requires NoneOf(tasks, coroutines.Keys) && (h !in coroutines ==> NoneOf(tasks, {h}))
    ensures NoneOf(tasks, coroutines[h := c].Keys)
  {
    assert coroutines[h := c].Keys == coroutines.Keys + {h};
  }

  lemma LoopsKept(sys: System, l: Label)
    requires Inv(sys) && Enabled(sys, l) && Safe(sys, l)
    ensures var r := Step(sys, l); LoopsAgree(r.loops, r.coroutines)
  {
    hide QueueAgrees, ClosuresAgree, WritesOwed, Parts, TP.Step, LoopsAgree, EL.Step, AtLoop, NoneOf, SameHandles;
    LoopFacts(sys);
    match l {
      case LoopStep(s, el) =>
        LoopEffect(sys, sys.loops[s], el);
        LoopReplaced(sys.loops, sys.coroutines, s, EL.Step(sys.loops[s], el));
      case Wake(w) =>
        var s := sys.closures[w].s;
        WriteMoves(sys.loops[s], w, sys.coroutines.Keys);
        LoopReplaced(sys.loops, sys.coroutines, s, EL.Step(sys.loops[s], EL.ByPoster(EL.Write(w))));
      case ResumeOn(s) =>
        var h := sys.loops[s].ready[0];
        ResumeMoves(sys.loops[s]);
        BothReplaced(sys.loops, sys.coroutines, s, Step(sys, l).loops[s], h, Step(sys, l).coroutines[h]);
      case PostBack(w) =>
        var h := sys.closures[w].h;
        var s := sys.coroutines[h].status.src;
        PostMoves(sys.loops[s], w, h);
        BothReplaced(sys.loops, sys.coroutines, s, Step(sys, l).loops[s], h, Step(sys, l).coroutines[h]);
      case PoolStep(_) =>
      case Spawn(h, _) =>
        UnusedIsNowhere(sys, h);
        CoroutineReplaced(sys.loops, sys.coroutines, h, Step(sys, l).coroutines[h]);
      case Submit(h) => CoroutineReplaced(sys.loops, sys.coroutines, h, Step(sys, l).coroutines[h]);
      case Claim(w) =>
        var h := sys.pool.queue[0];
        CoroutineReplaced(sys.loops, sys.coroutines, h, Step(sys, l).coroutines[h]);
      case Return(w, _) =>
        var h := sys.closures[w].h;
        CoroutineReplaced(sys.loops, sys.coroutines, h, Step(sys, l).coroutines[h]);
      case End(h) => CoroutineReplaced(sys.loops, sys.coroutines, h, Step(sys, l).coroutines[h]);
    }
  }

  lemma UnusedIsNowhere(sys: System, h: Handle)
    requires Unused(sys, h)
    ensures forall s {:trigger s in sys.loops} :: s in sys.loops ==>
              AtLoop(sys.loops[s], h) == 0 && NoneOf(sys.loops[s].tasks, {h}) && NoneOf(sys.loops[s].swapped, {h})
  {
    hide NoneOf;
  }

  lemma LoopFacts(sys: System)
    requires LoopsAgree(sys.loops, sys.coroutines)
    ensures forall s :: s in sys.loops ==>
              && NoneOf(sys.loops[s].tasks, sys.coroutines.Keys)
              && NoneOf(sys.loops[s].swapped, sys.coroutines.Keys)
    ensures forall h :: h in sys.coroutines && sys.coroutines[h].status.Suspended? ==>
              sys.coroutines[h].status.src in sys.loops
    ensures forall s, h :: s in sys.loops && h in sys.coroutines ==>
              AtLoop(sys.loops[s], h) == if PostedTo(sys.coroutines[h], s) then 1 else 0
  {
  }

  lemma ResumeMoves(loop: EL.State)
    requires EL.Enabled(loop, EL.ByLoop(EL.Resume))
    ensures var r := EL.Step(loop, EL.ByLoop(EL.Resume));
            && (forall h: Handle :: AtLoop(loop, h) == AtLoop(r, h) + if h == loop.ready[0] then 1 else 0)
            && r.tasks == loop.tasks && r.swapped == loop.swapped && r.owed == loop.owed
  {
    assert loop.ready == [loop.ready[0]] + loop.ready[1..];
  }

  lemma PostMoves(loop: EL.State, w: Worker, h: Handle)
    ensures var r := EL.Step(loop, EL.ByPoster(EL.Post(w, h)));
            && (forall x: Handle :: AtLoop(r, x) == AtLoop(loop, x) + if x == h then 1 else 0)
            && r.tasks == loop.tasks && r.swapped == loop.swapped
            && r.owed == loop.owed + multiset{w}
  {
  }

  lemma WriteMoves(loop: EL.State, w: Worker, ours: set<Handle>)
    requires w in loop.owed && NoneOf(loop.tasks, ours) && NoneOf(loop.swapped, ours)
    ensures var r := EL.Step(loop, EL.ByPoster(EL.Write(w)));
            SameHandles(loop, r, ours) && r.owed == loop.owed - multiset{w}
  {
  }

  // The coroutine of h and the closure of w, which is about h before or after, change.
  lemma ClosureReplaced(closures: map<Worker, Closure>, pool: TP.Pool, coroutines: map<Handle, Coroutine>,
                        r: map<Worker, Closure>, h: Handle, c: Coroutine, w: Worker)
    requires ClosuresAgree(closures, pool, coroutines)
    requires forall x {:trigger x in r} :: x in r ==> x in pool.workers && pool.workers[x].Busy?
    requires forall x {:trigger x in closures} {:trigger x in r} :: x != w ==> (x in r <==> x in closures)
    requires forall x :: x != w && x in closures ==> r[x] == closures[x]
    requires w in closures && !closures[w].Owing? ==> closures[w].h == h
    requires w in r && !r[w].Owing? ==> r[w].h == h
    requires h in coroutines ==> OnlyAt(coroutines[h], w)
    requires OnlyAt(c, w)
    requires w in r && r[w].Calling? <==> c.status.Suspended? && c.status.phase.Called?
    requires w in r && r[w].Returning? <==> c.status.Suspended? && c.status.phase.Filled?
    ensures ClosuresAgree(r, pool, coroutines[h := c])
  {
  }

  // No worker but w has anything to do with the coroutine.
  predicate OnlyAt(c: Coroutine, w: Worker) {
    c.status.Suspended? ==>
      match c.status.phase
      case Called(x) => x == w
      case Filled(x, _) => x == w
      case _ => true
  }

  predicate AtNoWorker(c: Coroutine) {
    c.status.Suspended? ==> c.status.phase.Queued? || c.status.phase.Posted?
  }

  lemma OthersClosures(closures: map<Worker, Closure>, pool: TP.Pool, coroutines: map<Handle, Coroutine>,
                       h: Handle, c: Coroutine)
    requires ClosuresAgree(closures, pool, coroutines) && AtNoWorker(c)
    requires h in coroutines ==> AtNoWorker(coroutines[h])
    ensures ClosuresAgree(closures, pool, coroutines[h := c])
  {
  }

  lemma ClosuresPool(closures: map<Worker, Closure>, pool: TP.Pool, coroutines: map<Handle, Coroutine>, r: TP.Pool)
    requires ClosuresAgree(closures, pool, coroutines)
    requires forall w :: w in closures && w in pool.workers && pool.workers[w].Busy? ==>
               w in r.workers && r.workers[w] == pool.workers[w]
    ensures ClosuresAgree(closures, r, coroutines)
  {
  }

  lemma ClaimKeepsClosures(sys: System, w: Worker)
    requires Inv(sys) && Enabled(sys, Claim(w)) && Safe(sys, Claim(w))
    ensures var r := Step(sys, Claim(w)); ClosuresAgree(r.closures, r.pool, r.coroutines)
  {
    hide QueueAgrees, LoopsAgree, WritesOwed, Parts, ClosuresAgree;
    var r := Step(sys, Claim(w));
    var h := sys.pool.queue[0];
    ClosureFacts(sys);
    ClaimerIsNew(sys, w);
    ClosuresPool(sys.closures, sys.pool, sys.coroutines, r.pool);
    ClosureReplaced(sys.closures, r.pool, sys.coroutines, r.closures, h, r.coroutines[h], w);
  }

  lemma ClosuresKept(sys: System, l: Label)
    requires Inv(sys) && Enabled(sys, l) && Safe(sys, l)
    ensures var r := Step(sys, l); ClosuresAgree(r.closures, r.pool, r.coroutines)
  {
    hide QueueAgrees, LoopsAgree, WritesOwed, Parts, ClosuresAgree, EL.Step, TP.Step, TP.Enabled;
    ClosureFacts(sys);
    var r := Step(sys, l);
    match l {
      case PoolStep(pl) =>
        PoolKeepsQueue(sys, pl);
        ClosuresPool(sys.closures, sys.pool, sys.coroutines, r.pool);
      case Claim(w) => ClaimKeepsClosures(sys, w);
      case Submit(h) =>
        PushKeepsWorkers(sys.pool, h);
        ClosuresPool(sys.closures, sys.pool, sys.coroutines, r.pool);
        OthersClosures(sys.closures, r.pool, sys.coroutines, h, r.coroutines[h]);
      case Return(w, _) =>
        ClosureReplaced(sys.closures, sys.pool, sys.coroutines, r.closures,
                        sys.closures[w].h, r.coroutines[sys.closures[w].h], w);
      case PostBack(w) =>
        ClosureReplaced(sys.closures, sys.pool, sys.coroutines, r.closures,
                        sys.closures[w].h, r.coroutines[sys.closures[w].h], w);
      case Wake(w) => WokenKeepsClosures(sys.closures, sys.pool, sys.coroutines, w);
      case Spawn(h, _) => OthersClosures(sys.closures, sys.pool, sys.coroutines, h, r.coroutines[h]);
      case ResumeOn(s) =>
        var h := sys.loops[s].ready[0];
        OthersClosures(sys.closures, sys.pool, sys.coroutines, h, r.coroutines[h]);
      case End(h) => OthersClosures(sys.closures, sys.pool, sys.coroutines, h, r.coroutines[h]);
      case LoopStep(_, _) =>
    }
  }

  lemma PushKeepsWorkers(pool: TP.Pool, h: Handle)
    requires TP.Enabled(pool, TP.Push(h))
    ensures TP.Step(pool, TP.Push(h)).workers == pool.workers
  {
  }

  lemma WokenKeepsClosures(closures: map<Worker, Closure>, pool: TP.Pool, coroutines: map<Handle, Coroutine>, w: Worker)
    requires ClosuresAgree(closures, pool, coroutines) && w in closures && closures[w].Owing?
    ensures ClosuresAgree(closures - {w}, pool, coroutines)
  {
  }

  // One scheduler and one closure change together.
  lemma OwedReplaced(closures: map<Worker, Closure>, pool: TP.Pool, loops: map<Sched, EL.State>,
                     closures': map<Worker, Closure>, s: Sched, r: EL.State, w: Worker)
    requires WritesOwed(closures, pool, loops) && s in loops
    requires closures'.Keys == closures.Keys || closures'.Keys == closures.Keys - {w}
    requires forall x :: x in closures' && x != w ==> closures'[x] == closures[x]
    requires forall x: Worker :: x != w && x in pool.workers ==> r.owed[x] == loops[s].owed[x]
    requires w in pool.workers ==> r.owed[w] == if w in closures' && closures'[w] == Owing(s) then 1 else 0
    requires w in closures && closures[w].Owing? ==> closures[w].s == s
    requires w in closures' && closures'[w].Owing? ==> closures'[w].s == s
    ensures WritesOwed(closures', pool, loops[s := r])
  {
  }

  lemma OwedSame(closures: map<Worker, Closure>, pool: TP.Pool, loops: map<Sched, EL.State>,
                 closures': map<Worker, Closure>, pool': TP.Pool)
    requires WritesOwed(closures, pool, loops) && pool'.workers.Keys == pool.workers.Keys
    requires forall x {:trigger x in closures} {:trigger x in closures'} ::
               x in closures && closures[x].Owing? ==> x in closures' && closures'[x] == closures[x]
    requires forall x {:trigger x in closures} {:trigger x in closures'} ::
               x in closures' && closures'[x].Owing? ==> x in closures && closures'[x] == closures[x]
    ensures WritesOwed(closures', pool', loops)
  {
  }

  lemma OwedFacts(sys: System)
    requires WritesOwed(sys.closures, sys.pool, sys.loops)
    ensures forall w, s :: w in sys.pool.workers && s in sys.loops ==>
              sys.loops[s].owed[w] == if w in sys.closures && sys.closures[w] == Owing(s) then 1 else 0
  {
  }

  lemma ClosureFacts(sys: System)
    requires ClosuresAgree(sys.closures, sys.pool, sys.coroutines)
    ensures forall w :: w in sys.closures ==> w in sys.pool.workers && sys.pool.workers[w].Busy?
  {
  }

  lemma WritesKept(sys: System, l: Label)
    requires Inv(sys) && Enabled(sys, l) && Safe(sys, l)
    ensures var r := Step(sys, l); WritesOwed(r.closures, r.pool, r.loops)
  {
    hide QueueAgrees, Parts, LoopsAgree, ClosuresAgree, WritesOwed, EL.Step, TP.Step, TP.Enabled;
    var r := Step(sys, l);
    match l {
      case LoopStep(s, el) => LoopKeepsWrites(sys, s, el);
      case PoolStep(pl) =>
        PoolKeepsQueue(sys, pl);
        OwedSame(sys.closures, sys.pool, sys.loops, r.closures, r.pool);
      case Submit(h) =>
        TP.StepKeepsWorkers(sys.pool, TP.Push(h));
        OwedSame(sys.closures, sys.pool, sys.loops, r.closures, r.pool);
      case Claim(w) =>
        TP.StepKeepsWorkers(sys.pool, TP.Look(w));
        ClaimerIsNew(sys, w);
        OwedSame(sys.closures, sys.pool, sys.loops, r.closures, r.pool);
      case Return(_, _) => OwedSame(sys.closures, sys.pool, sys.loops, r.closures, r.pool);
      case ResumeOn(s) => ResumeKeepsWrites(sys, s);
      case PostBack(w) => PostKeepsWrites(sys, w);
      case Wake(w) => WakeKeepsWrites(sys, w);
      case Spawn(_, _) =>
      case End(_) =>
    }
  }

  lemma PostKeepsWrites(sys: System, w: Worker)
    requires Inv(sys) && Enabled(sys, PostBack(w)) && Safe(sys, PostBack(w))
    ensures var r := Step(sys, PostBack(w)); WritesOwed(r.closures, r.pool, r.loops)
  {
    hide QueueAgrees, Parts, LoopsAgree, ClosuresAgree, WritesOwed, EL.Step;
    OwedFacts(sys);
    ClosureFacts(sys);
    var r := Step(sys, PostBack(w));
    var s := sys.coroutines[sys.closures[w].h].status.src;
    PostMoves(sys.loops[s], w, sys.closures[w].h);
    OwedReplaced(sys.closures, sys.pool, sys.loops, r.closures, s, r.loops[s], w);
  }

  lemma WakeKeepsWrites(sys: System, w: Worker)
    requires Inv(sys) && Enabled(sys, Wake(w)) && Safe(sys, Wake(w))
    ensures var r := Step(sys, Wake(w)); WritesOwed(r.closures, r.pool, r.loops)
  {
    hide QueueAgrees, Parts, LoopsAgree, ClosuresAgree, WritesOwed, EL.Step;
    LoopFacts(sys);
    OwedFacts(sys);
    ClosureFacts(sys);
    var r := Step(sys, Wake(w));
    var s := sys.closures[w].s;
    WriteMoves(sys.loops[s], w, sys.coroutines.Keys);
    OwedReplaced(sys.closures, sys.pool, sys.loops, r.closures, s, r.loops[s], w);
  }

  lemma LoopKeepsWrites(sys: System, s: Sched, l: EL.Label)
    requires Inv(sys) && Enabled(sys, LoopStep(s, l))
    ensures WritesOwed(sys.closures, sys.pool, sys.loops[s := EL.Step(sys.loops[s], l)])
  {
    hide QueueAgrees, Parts, LoopsAgree, ClosuresAgree, EL.Step, AtLoop, NoneOf, SameHandles, PostedTo;
    LoopFacts(sys);
    LoopEffect(sys, sys.loops[s], l);
  }

  lemma ResumeKeepsWrites(sys: System, s: Sched)
    requires Inv(sys) && Enabled(sys, ResumeOn(s)) && Safe(sys, ResumeOn(s))
    ensures var r := Step(sys, ResumeOn(s)); WritesOwed(r.closures, r.pool, r.loops)
  {
    hide QueueAgrees, Parts, LoopsAgree, ClosuresAgree, EL.Step, AtLoop, NoneOf, SameHandles, PostedTo;
    ResumeMoves(sys.loops[s]);
  }

  lemma ClaimerIsNew(sys: System, w: Worker)
    requires ClosuresAgree(sys.closures, sys.pool, sys.coroutines) && TP.Enabled(sys.pool, TP.Look(w))
    ensures w !in sys.closures
  {
  }

  lemma PartsKept(sys: System, l: Label)
    requires Inv(sys) && Enabled(sys, l) && Safe(sys, l)
    ensures Parts(Step(sys, l))
  {
    hide QueueAgrees, LoopsAgree, ClosuresAgree, WritesOwed, EL.Inv, TP.Inv, EL.Step, TP.Step;
    match l {
      case LoopStep(s, el) => EL.StepKeepsInv(sys.loops[s], el);
      case PoolStep(pl) => TP.StepKeepsInv(sys.pool, pl);
      case Submit(h) => TP.StepKeepsInv(sys.pool, TP.Push(h));
      case Claim(w) => TP.StepKeepsInv(sys.pool, TP.Look(w));
      case PostBack(w) =>
        var h := sys.closures[w].h;
        EL.StepKeepsInv(sys.loops[sys.coroutines[h].status.src], EL.ByPoster(EL.Post(w, h)));
      case Wake(w) => EL.StepKeepsInv(sys.loops[sys.closures[w].s], EL.ByPoster(EL.Write(w)));
      case ResumeOn(s) => EL.StepKeepsInv(sys.loops[s], EL.ByLoop(EL.Resume));
      case _ =>
    }
  }

  lemma StepKeepsInv(sys: System, l: Label)
    requires Inv(sys) && Enabled(sys, l)
    ensures Safe(sys, l) && Inv(Step(sys, l))
  {
    hide QueueAgrees, LoopsAgree, ClosuresAgree, WritesOwed, Parts, Enabled, Safe, Step;
    InvIsSafe(sys, l);
    QueueKept(sys, l);
    LoopsKept(sys, l);
    ClosuresKept(sys, l);
    WritesKept(sys, l);
    PartsKept(sys, l);
  }

  // ---------- Every interleaving ----------

  ghost predicate Reaches(sys: System, labels: seq<Label>, r: System)
    decreases |labels|
  {
    if labels == [] then sys == r
    else
      && Enabled(sys, labels[0]) && Safe(sys, labels[0])
      && Reaches(Step(sys, labels[0]), labels[1..], r)
  }

  ghost predicate Initial(sys: System) {
    && (exists n :: sys.pool == TP.Initial(n))
    && sys.closures == map[] && sys.coroutines == map[]
    && forall s {:trigger s in sys.loops} :: s in sys.loops ==> sys.loops[s] == EL.Initial()
  }

  lemma InitialInv(sys: System)
    requires Initial(sys)
    ensures Inv(sys)
  {
    hide EL.Inv, TP.Inv;
    EL.InitialInv();
    var n :| sys.pool == TP.Initial(n);
    TP.InitialInv(n);
  }

  lemma {:induction false} RunKeepsInv(sys: System, labels: seq<Label>, r: System)
    requires Inv(sys) && Reaches(sys, labels, r)
    ensures Inv(r)
    decreases |labels|
  {
    hide Inv, Enabled, Safe, Step;
    if labels != [] {
      StepKeepsInv(sys, labels[0]);
      RunKeepsInv(Step(sys, labels[0]), labels[1..], r);
    }
  }

  // ---------- co_await pool.submit(fn) from end to end ----------

  // The workers whose closure still uses the awaiter of h.
  ghost function Carriers(closures: map<Worker, Closure>, h: Handle): set<Worker> {
    set w | w in closures && (closures[w] == Calling(h) || closures[w] == Returning(h))
  }

  // The handle of a suspended coroutine is at exactly one of the pool's queue, a closure and
  // the scheduler it suspended on; a running or ended coroutine's is at none of them.
  ghost predicate InOnePlace(sys: System, h: Handle)
    requires h in sys.coroutines
  {
    var status := sys.coroutines[h].status;
    && (forall s :: s in sys.loops && (status.Suspended? ==> s != status.src) ==> AtLoop(sys.loops[s], h) == 0)
    && (status.Suspended? ==>
          && status.src in sys.loops
          && InQueue(sys.pool, h) + |Carriers(sys.closures, h)| + AtLoop(sys.loops[status.src], h) == 1)
    && (!status.Suspended? ==> InQueue(sys.pool, h) == 0 && Carriers(sys.closures, h) == {})
  }

  lemma HandleIsInOnePlace(start: System, labels: seq<Label>, sys: System, h: Handle)
    requires Initial(start) && Reaches(start, labels, sys) && h in sys.coroutines
    ensures InOnePlace(sys, h)
  {
    InitialInv(start);
    RunKeepsInv(start, labels, sys);
    OnePlace(sys, h);
  }

  lemma OnePlace(sys: System, h: Handle)
    requires h in sys.coroutines
    requires QueueAgrees(sys.pool, sys.coroutines) && LoopsAgree(sys.loops, sys.coroutines)
    requires ClosuresAgree(sys.closures, sys.pool, sys.coroutines)
    ensures InOnePlace(sys, h)
  {
    hide AtLoop, InQueue, NoneOf;
    var status := sys.coroutines[h].status;
    if status.Suspended? && (status.phase.Called? || status.phase.Filled?) {
      assert Carriers(sys.closures, h) == {status.phase.w};
    } else {
      assert Carriers(sys.closures, h) == {};
    }
  }

  // Whatever step comes next finds what it touches: a closure fills and posts the awaiter of
  // a coroutine that is still suspended on it, and only a write of the eventfd follows a post.
  lemma AwaiterOutlivesClosure(start: System, labels: seq<Label>, sys: System, l: Label)
    requires Initial(start) && Reaches(start, labels, sys) && Enabled(sys, l)
    ensures Safe(sys, l)
  {
    InitialInv(start);
    RunKeepsInv(start, labels, sys);
    InvIsSafe(sys, l);
  }

  // The outcome that a step makes fn return or throw for h: the label of a worker whose closure
  // is calling fn for h.
  function Answer(sys: System, l: Label, h: Handle): seq<Outcome> {
    if l.Return? && l.w in sys.closures && sys.closures[l.w] == Calling(h) then [l.o] else []
  }

  // What fn came to in a run, over all the awaits of h.
  function Answers(sys: System, labels: seq<Label>, h: Handle): seq<Outcome>
    decreases |labels|
  {
    if labels == [] || !Enabled(sys, labels[0]) || !Safe(sys, labels[0]) then []
    else Answer(sys, labels[0], h) + Answers(Step(sys, labels[0]), labels[1..], h)
  }

  // The awaits of h in a run.
  function Awaits(labels: seq<Label>, h: Handle): nat {
    if labels == [] then 0 else (if labels[0] == Submit(h) then 1 else 0) + Awaits(labels[1..], h)
  }

  function Written(sys: System, h: Handle): seq<Outcome> {
    if h in sys.coroutines then sys.coroutines[h].produced else []
  }

  function Submitted(sys: System, h: Handle): nat {
    if h in sys.coroutines then sys.coroutines[h].submits else 0
  }

  lemma StepIsAnswer(sys: System, l: Label, h: Handle)
    requires ClosuresAgree(sys.closures, sys.pool, sys.coroutines) && Enabled(sys, l) && Safe(sys, l)
    ensures var r := Step(sys, l);
            && Written(r, h) == Written(sys, h) + Answer(sys, l, h)
            && Submitted(r, h) == Submitted(sys, h) + if l == Submit(h) then 1 else 0
  {
    hide EL.Enabled, EL.Step, TP.Enabled, TP.Step, NoneOf;
  }

  lemma {:induction false} RunIsAnswered(sys: System, labels: seq<Label>, r: System, h: Handle)
    requires Inv(sys) && Reaches(sys, labels, r)
    ensures Written(r, h) == Written(sys, h) + Answers(sys, labels, h)
    ensures Submitted(r, h) == Submitted(sys, h) + Awaits(labels, h)
    decreases |labels|
  {
    hide Inv, Enabled, Safe, Step, Written, Submitted, Answer;
    if labels != [] {
      StepKeepsInv(sys, labels[0]);
      StepIsAnswer(sys, labels[0], h) by { ClosuresOfInv(sys); }
      RunIsAnswered(Step(sys, labels[0]), labels[1..], r, h);
    }
  }

  lemma ClosuresOfInv(sys: System)
    requires Inv(sys)
    ensures ClosuresAgree(sys.closures, sys.pool, sys.coroutines)
  {
  }

  lemma HistoryOf(start: System, labels: seq<Label>, sys: System, h: Handle)
    requires Initial(start) && Reaches(start, labels, sys) && h in sys.coroutines
    ensures Inv(sys) && Delivers(sys.coroutines[h])
    ensures sys.coroutines[h].produced == Answers(start, labels, h)
    ensures sys.coroutines[h].submits == Awaits(labels, h)
  {
    hide Inv, Delivers, Answers, Awaits, Reaches, Initial;
    InitialInv(start);
    RunKeepsInv(start, labels, sys);
    RunIsAnswered(start, labels, sys, h);
    StartsEmpty(start);
    DeliversOf(sys, h);
    assert [] + Answers(start, labels, h) == Answers(start, labels, h);
  }

  lemma StartsEmpty(start: System)
    requires Initial(start)
    ensures start.coroutines == map[]
  {
  }

  lemma DeliversOf(sys: System, h: Handle)
    requires Inv(sys) && h in sys.coroutines
    ensures Delivers(sys.coroutines[h])
  {
    hide QueueAgrees, LoopsAgree, ClosuresAgree, WritesOwed, EL.Inv, TP.Inv;
  }

  // A coroutine runs on, or has suspended on, scheduler s.
  predicate IsAt(sys: System, h: Handle, s: Sched) {
    h in sys.coroutines &&
    match sys.coroutines[h].status
    case Running(on) => on == s
    case Suspended(src, _) => src == s
    case Ended => true
  }

  lemma {:induction false} StaysAt(sys: System, labels: seq<Label>, r: System, h: Handle, s: Sched)
    requires IsAt(sys, h, s) && Reaches(sys, labels, r)
    ensures IsAt(r, h, s)
    decreases |labels|
  {
    hide EL.Enabled, EL.Step, TP.Enabled, TP.Step, NoneOf;
    if labels != [] {
      StaysAt(Step(sys, labels[0]), labels[1..], r, h, s);
    }
  }

  // A coroutine never leaves the scheduler it was spawned on, whatever it awaits.
  lemma {:induction false} StaysHome(start: System, labels: seq<Label>, sys: System, h: Handle, s: Sched)
    requires Reaches(start, labels, sys) && Spawn(h, s) in labels
    ensures IsAt(sys, h, s)
    decreases |labels|
  {
    hide IsAt, Enabled, Safe, Step;
    var next := Step(start, labels[0]);
    if labels[0] == Spawn(h, s) {
      assert IsAt(next, h, s) by { SpawnedAt(start, h, s); }
      StaysAt(next, labels[1..], sys, h, s);
    } else {
      StaysHome(next, labels[1..], sys, h, s);
    }
  }

  lemma SpawnedAt(sys: System, h: Handle, s: Sched)
    requires Enabled(sys, Spawn(h, s)) && Safe(sys, Spawn(h, s))
    ensures IsAt(Step(sys, Spawn(h, s)), h, s)
  {
  }

  lemma HomeOf(sys: System, h: Handle, s: Sched)
    requires IsAt(sys, h, s) && sys.coroutines[h].status.Suspended?
    ensures sys.coroutines[h].status.src == s
  {
  }

  // A loop resumes a coroutine only on the scheduler it suspended on, which is the one it was
  // spawned on, with its slot full, and await_resume takes out what fn came to for this await.
  lemma ResumedAtHome(start: System, labels: seq<Label>, sys: System, s: Sched)
    requires Initial(start) && Reaches(start, labels, sys) && Enabled(sys, ResumeOn(s))
    ensures var h := sys.loops[s].ready[0];
            && h in sys.coroutines && sys.coroutines[h].status.Suspended?
            && sys.coroutines[h].status.src == s && sys.coroutines[h].status.phase.Posted?
            && (forall home :: Spawn(h, home) in labels ==> home == s)
            && Safe(sys, ResumeOn(s))
            && (var c := sys.coroutines[h];
                var r := Step(sys, ResumeOn(s)).coroutines[h];
                && r.status == Running(s)
                && Answers(start, labels, h) == c.delivered + [c.status.phase.o]
                && r.delivered == Answers(start, labels, h)
                && |r.delivered| == Awaits(labels, h))
  {
    hide Inv, Answers, Awaits, Reaches, Initial, IsAt, Foreign, NoneOf, EL.Step, TP.Enabled, TP.Step;
    var h := sys.loops[s].ready[0];
    HistoryOf(start, labels, sys, h);
    InvIsSafe(sys, ResumeOn(s));
    forall home | Spawn(h, home) in labels
      ensures home == s
    {
      StaysHome(start, labels, sys, h, home);
      HomeOf(sys, h, home);
    }
  }

  // Each co_await is answered once: what has been taken out is what fn came to, in that order
  // and once for every await that is over; at most one answer is still in its slot.
  lemma AwaitsAnsweredOnce(start: System, labels: seq<Label>, sys: System, h: Handle)
    requires Initial(start) && Reaches(start, labels, sys) && h in sys.coroutines
    ensures var c := sys.coroutines[h];
            var answers := Answers(start, labels, h);
            && |c.delivered| == Awaits(labels, h) - (if c.status.Suspended? then 1 else 0)
            && match c.status {
                 case Suspended(_, Filled(_, o)) => answers == c.delivered + [o]
                 case Suspended(_, Posted(o)) => answers == c.delivered + [o]
                 case _ => answers == c.delivered
               }
  {
    hide Inv, Answers, Awaits, Reaches, Initial;
    HistoryOf(start, labels, sys, h);
  }

  // Somebody attends to a suspended coroutine as far as the next hand it goes through: it is
  // queued and a worker is awake or is going to be woken, or a worker is busy with it, or it is
  // posted to a scheduler that has not left run() and is not blocked unless a write is owed or
  // the watcher's read can complete.
  ghost predicate Attended(sys: System, h: Handle)
    requires h in sys.coroutines && sys.coroutines[h].status.Suspended?
  {
    var c := sys.coroutines[h].status;
    match c.phase {
      case Queued =>
        && h in sys.pool.queue
        && (TP.Attending(sys.pool) != {} || (sys.pool.notifies > 0 && TP.SomeoneSleeps(sys.pool)))
      case Called(w) =>
        && w in sys.pool.workers && sys.pool.workers[w].Busy?
        && forall o :: Enabled(sys, Return(w, o))
      case Filled(w, _) => w in sys.pool.workers && sys.pool.workers[w].Busy? && Enabled(sys, PostBack(w))
      case Posted(_) =>
        && c.src in sys.loops && !sys.loops[c.src].pc.Exited?
        && (EL.Blocked(sys.loops[c.src]) ==>
              sys.loops[c.src].owed != multiset{} || EL.KernelEnabled(sys.loops[c.src], EL.KernelRead))
    }
  }

  // It is queued in a pool whose workers have all gone, or posted to a loop that has exited.
  predicate Stranded(sys: System, h: Handle) {
    && h in sys.coroutines && sys.coroutines[h].status.Suspended?
    && var c := sys.coroutines[h].status;
       || (c.phase.Queued? && TP.AllGone(sys.pool))
       || (c.phase.Posted? && c.src in sys.loops && sys.loops[c.src].pc.Exited?)
  }

  // Somebody attends to a suspended coroutine if and only if it is not stranded.
  lemma AttendedUnlessStranded(start: System, labels: seq<Label>, sys: System, h: Handle)
    requires Initial(start) && Reaches(start, labels, sys)
    requires h in sys.coroutines && sys.coroutines[h].status.Suspended?
    ensures Attended(sys, h) <==> !Stranded(sys, h)
  {
    InitialInv(start);
    RunKeepsInv(start, labels, sys);
    AttendedOrStranded(sys, h);
  }

  lemma AttendedOrStranded(sys: System, h: Handle)
    requires Inv(sys) && h in sys.coroutines && sys.coroutines[h].status.Suspended?
    ensures Attended(sys, h) <==> !Stranded(sys, h)
  {
    hide QueueAgrees, ClosuresAgree, LoopsAgree, WritesOwed, EL.Inv, TP.Inv, TP.Attending, TP.SomeoneSleeps, TP.AllGone;
    var c := sys.coroutines[h].status;
    match c.phase {
      case Queued => QueuedIsThere(sys, h);
      case Called(w) => CarriedIsThere(sys, h);
      case Filled(w, _) => CarriedIsThere(sys, h);
      case Posted(_) =>
        PostedIsThere(sys, h);
        if EL.Blocked(sys.loops[c.src]) {
          BlockedLoopWakes(sys.loops[c.src], h);
        }
    }
  }

  lemma QueuedIsThere(sys: System, h: Handle)
    requires QueueAgrees(sys.pool, sys.coroutines) && TP.Inv(sys.pool)
    requires h in sys.coroutines && IsQueued(sys.coroutines[h])
    ensures h in sys.pool.queue
    ensures (TP.Attending(sys.pool) != {} || (sys.pool.notifies > 0 && TP.SomeoneSleeps(sys.pool)))
         <==> !TP.AllGone(sys.pool)
  {
    hide TP.Accounted, TP.LeftEmpty, TP.Attending, TP.SomeoneSleeps, TP.AllGone, TP.WorkConserving;
    assert InQueue(sys.pool, h) == 1;
    TP.QueueIsAttended(sys.pool);
  }

  lemma CarriedIsThere(sys: System, h: Handle)
    requires ClosuresAgree(sys.closures, sys.pool, sys.coroutines)
    requires h in sys.coroutines && sys.coroutines[h].status.Suspended?
    ensures match sys.coroutines[h].status.phase {
              case Called(w) =>
                && w in sys.pool.workers && sys.pool.workers[w].Busy?
                && w in sys.closures && sys.closures[w].Calling?
              case Filled(w, _) =>
                && w in sys.pool.workers && sys.pool.workers[w].Busy?
                && w in sys.closures && sys.closures[w].Returning?
              case _ => true
            }
  {
  }

  lemma PostedIsThere(sys: System, h: Handle)
    requires LoopsAgree(sys.loops, sys.coroutines)
    requires h in sys.coroutines && sys.coroutines[h].status.Suspended? && sys.coroutines[h].status.phase.Posted?
    ensures sys.coroutines[h].status.src in sys.loops
    ensures AtLoop(sys.loops[sys.coroutines[h].status.src], h) == 1
  {
    hide AtLoop, NoneOf;
  }

  lemma BlockedLoopWakes(loop: EL.State, h: Handle)
    requires EL.Inv(loop) && AtLoop(loop, h) > 0 && EL.Blocked(loop)
    ensures loop.owed != multiset{} || EL.KernelEnabled(loop, EL.KernelRead)
  {
  }

  // ---------- Stranded coroutines ----------

  // Stranding is for good: no step takes such a coroutine anywhere.
  lemma StrandedStep(sys: System, l: Label, h: Handle)
    requires Stranded(sys, h) && Enabled(sys, l) && Safe(sys, l)
    ensures var r := Step(sys, l); Stranded(r, h) && r.coroutines[h] == sys.coroutines[h]
  {
    hide TP.Step, EL.Step, EL.Enabled, TP.Enabled, Foreign, ForeignJob, TP.AllGone;
    PoolStays(sys, l);
    LoopsStay(sys, l, sys.coroutines[h].status.src);
    match l {
      case Claim(w) => NobodyClaims(sys.pool, w);
      case ResumeOn(s) => NobodyResumes(sys.loops[s]);
      case _ =>
    }
  }

  lemma NobodyClaims(pool: TP.Pool, w: Worker)
    requires TP.Enabled(pool, TP.Look(w))
    ensures !TP.AllGone(pool)
  {
  }

  lemma NobodyResumes(loop: EL.State)
    requires EL.Enabled(loop, EL.ByLoop(EL.Resume))
    ensures !loop.pc.Exited?
  {
  }

  lemma PoolStays(sys: System, l: Label)
    requires Enabled(sys, l) && Safe(sys, l)
    ensures TP.AllGone(sys.pool) ==> TP.AllGone(Step(sys, l).pool)
  {
    hide EL.Step, EL.Enabled, TP.AllGone, TP.Step, Foreign, Unused;
    match l {
      case PoolStep(pl) => TP.GoneAfter(sys.pool, pl);
      case Submit(h) => TP.GoneAfter(sys.pool, TP.Push(h));
      case Claim(w) => TP.GoneAfter(sys.pool, TP.Look(w));
      case _ =>
    }
  }

  lemma LoopsStay(sys: System, l: Label, s: Sched)
    requires Enabled(sys, l) && Safe(sys, l)
    ensures s in sys.loops && sys.loops[s].pc.Exited? ==>
              s in Step(sys, l).loops && Step(sys, l).loops[s].pc.Exited?
  {
    hide EL.Step, EL.Enabled, TP.Step, TP.Enabled, Foreign, ForeignJob, Unused;
    if s in sys.loops && sys.loops[s].pc.Exited? {
      match l {
        case LoopStep(t, el) => if t == s { EL.ExitedStays(sys.loops[s], el); }
        case PostBack(w) =>
          var h := sys.closures[w].h;
          if sys.coroutines[h].status.src == s {
            PostEnabled(sys.loops[s], w, h);
            EL.ExitedStays(sys.loops[s], EL.ByPoster(EL.Post(w, h)));
          }
        case Wake(w) =>
          if sys.closures[w].s == s {
            WriteEnabled(sys.loops[s], w);
            EL.ExitedStays(sys.loops[s], EL.ByPoster(EL.Write(w)));
          }
        case ResumeOn(t) => if t == s { EL.ExitedStays(sys.loops[s], EL.ByLoop(EL.Resume)); }
        case _ =>
      }
    }
  }

  lemma PostEnabled(loop: EL.State, w: Worker, h: Handle)
    ensures EL.Enabled(loop, EL.ByPoster(EL.Post(w, h)))
  {
  }

  lemma WriteEnabled(loop: EL.State, w: Worker)
    requires w in loop.owed
    ensures EL.Enabled(loop, EL.ByPoster(EL.Write(w)))
  {
  }

  lemma {:induction false} StrandedForGood(sys: System, labels: seq<Label>, r: System, h: Handle)
    requires Stranded(sys, h) && Reaches(sys, labels, r)
    ensures Stranded(r, h) && r.coroutines[h] == sys.coroutines[h]
    decreases |labels|
  {
    hide Stranded, Enabled, Safe, Step;
    if labels != [] {
      StrandedIsThere(sys, h);
      StrandedStep(sys, labels[0], h);
      StrandedForGood(Step(sys, labels[0]), labels[1..], r, h);
      StrandedIsThere(r, h);
    }
  }

  lemma StrandedIsThere(sys: System, h: Handle)
    requires Stranded(sys, h)
    ensures h in sys.coroutines
  {
  }

  // ---------- and how it comes to that ----------

  lemma StaysThere(sys: System)
    ensures Reaches(sys, [], sys)
  {
  }

  lemma StepsInto(sys: System, l: Label, m: System, rest: seq<Label>, r: System) returns (labels: seq<Label>)
    requires Enabled(sys, l) && Safe(sys, l) && Step(sys, l) == m && Reaches(m, rest, r)
    ensures Reaches(sys, labels, r)
  {
    labels := [l] + rest;
    assert labels[1..] == rest;
  }

  // One scheduler takes a step by itself.
  lemma LoopMoves(loop: EL.State, pool: TP.Pool, closures: map<Worker, Closure>, coroutines: map<Handle, Coroutine>,
                  l: EL.Label, next: EL.State, rest: seq<Label>, r: System) returns (labels: seq<Label>)
    requires EL.Enabled(loop, l) && EL.Step(loop, l) == next && (l.ByLoop? || l.ByCode?)
    requires l.ByLoop? ==> !l.l.Resume?
    requires l.ByCode? ==> !l.c.PushReady?
    requires Reaches(System(map[0 := next], pool, closures, coroutines), rest, r)
    ensures Reaches(System(map[0 := loop], pool, closures, coroutines), labels, r)
  {
    hide Reaches, EL.Step, EL.Enabled;
    var sys := System(map[0 := loop], pool, closures, coroutines);
    assert Enabled(sys, LoopStep(0, l));
    assert sys.loops[0 := next] == map[0 := next];
    labels := StepsInto(sys, LoopStep(0, l), System(map[0 := next], pool, closures, coroutines), rest, r);
  }

  // The loop at the point where it runs tasks for the first time.
  function RunsTasks(): EL.State {
    EL.Initial().(pc := EL.RunTasks, prepared := multiset{EL.Watcher})
  }

  lemma LoopComesUp(pool: TP.Pool, rest: seq<Label>, r: System) returns (labels: seq<Label>)
    requires Reaches(System(map[0 := RunsTasks()], pool, map[], map[]), rest, r)
    ensures Reaches(System(map[0 := EL.Initial()], pool, map[], map[]), labels, r)
  {
    hide Reaches;
    var a := EL.Initial().(pc := EL.Entered);
    var b := RunsTasks().(pc := EL.Top);
    var c := RunsTasks().(pc := EL.Drain);
    labels := LoopMoves(c, pool, map[], map[], EL.ByLoop(EL.Swap), RunsTasks(), rest, r);
    labels := LoopMoves(b, pool, map[], map[], EL.ByLoop(EL.LoopTop), c, labels, r);
    labels := LoopMoves(a, pool, map[], map[], EL.ByLoop(EL.Arm), b, labels, r);
    labels := LoopMoves(EL.Initial(), pool, map[], map[], EL.ByLoop(EL.Enter), a, labels, r);
  }

  // A coroutine comes up on the scheduler and submits.
  lemma CoroutineSubmits(pool: TP.Pool, after: TP.Pool, rest: seq<Label>, r: System) returns (labels: seq<Label>)
    requires pool.queue == [] && TP.Enabled(pool, TP.Push(0)) && after == TP.Step(pool, TP.Push(0))
    requires Reaches(System(map[0 := RunsTasks()], after, map[], One(Suspended(0, Queued), [])), rest, r)
    ensures Reaches(System(map[0 := RunsTasks()], pool, map[], map[]), labels, r)
  {
    hide Reaches, TP.Step, TP.Enabled;
    var a := System(map[0 := RunsTasks()], pool, map[], map[]);
    var b := a.(coroutines := map[0 := Coroutine(Running(0), 0, [], [])]);
    var c := b.(pool := after, coroutines := map[0 := Coroutine(Suspended(0, Queued), 1, [], [])]);
    assert b.coroutines[0 := Coroutine(Suspended(0, Queued), 1, [], [])] == c.coroutines;
    assert Step(b, Submit(0)) == c;
    labels := StepsInto(b, Submit(0), c, rest, r);
    assert Unused(a, 0) && OnThread(a, 0);
    labels := StepsInto(a, Spawn(0, 0), b, labels, r);
  }

  // The pool is stopped before the coroutine submits: it is queued, and all workers are gone.
  lemma QueuedForGood() returns (start: System, labels: seq<Label>, sys: System)
    ensures Initial(start) && Reaches(start, labels, sys)
    ensures Stranded(sys, 0) && sys.coroutines[0].status == Suspended(0, Queued)
  {
    hide Reaches;
    var unused := TP.Initial(1);
    var stopped := unused.(stopping := true);
    var gone := stopped.(workers := map[0 := TP.Gone]);
    assert TP.Threads(1) == map[0 := TP.Awake];
    var after := TP.Step(gone, TP.Push(0));
    sys := System(map[0 := RunsTasks()], after, map[], map[0 := Coroutine(Suspended(0, Queued), 1, [], [])]);
    StaysThere(sys);
    labels := CoroutineSubmits(gone, after, [], sys);
    labels := LoopComesUp(gone, labels, sys);
    var a := System(map[0 := EL.Initial()], gone, map[], map[]);
    var b := a.(pool := stopped);
    start := a.(pool := unused);
    labels := PoolMoves(b, TP.Look(0), a, labels, sys);
    labels := PoolMoves(start, TP.SetStop, b, labels, sys);
  }

  lemma PoolMoves(sys: System, l: TP.Label, m: System, rest: seq<Label>, r: System) returns (labels: seq<Label>)
    requires TP.Enabled(sys.pool, l) && (l.SetStop? || (l.Look? && sys.pool.queue == []))
    requires m == sys.(pool := TP.Step(sys.pool, l)) && Reaches(m, rest, r)
    ensures Reaches(sys, labels, r)
  {
    hide Reaches, TP.Enabled, TP.Step;
    labels := StepsInto(sys, PoolStep(l), m, rest, r);
  }

  // The loop is stopped while the closure runs: the handle is posted to a loop that has exited.
  lemma PostedForGood(o: Outcome) returns (start: System, labels: seq<Label>, sys: System)
    ensures Initial(start) && Reaches(start, labels, sys)
    ensures Stranded(sys, 0) && sys.coroutines[0].status == Suspended(0, Posted(o))
  {
    hide Reaches;
    var pool := TP.Initial(1);
    assert TP.Threads(1) == map[0 := TP.Awake];
    var pushed := TP.Step(pool, TP.Push(0));
    start := System(map[0 := EL.Initial()], pool, map[], map[]);
    labels, sys := StopsWhileCalled(pushed, o);
    labels := CoroutineSubmits(pool, pushed, labels, sys);
    labels := LoopComesUp(pool, labels, sys);
  }

  function One(status: Status, produced: seq<Outcome>): map<Handle, Coroutine> {
    map[0 := Coroutine(status, 1, produced, [])]
  }

  lemma OnePut(status: Status, produced: seq<Outcome>, next: Status, more: seq<Outcome>)
    ensures One(status, produced)[0 := Coroutine(next, 1, more, [])] == One(next, more)
  {
  }

  // The loop after a stop from its own thread, and once it has left.
  function Stopping(): EL.State {
    RunsTasks().(stopping := true, inflight := multiset{EL.Watcher, EL.Nop}, prepared := multiset{})
  }

  function Left(): EL.State {
    Stopping().(pc := EL.Exited)
  }

  lemma StopsWhileCalled(pool: TP.Pool, o: Outcome) returns (labels: seq<Label>, sys: System)
    requires pool.queue == [0] && TP.Enabled(pool, TP.Look(0))
    ensures Reaches(System(map[0 := RunsTasks()], pool, map[], One(Suspended(0, Queued), [])), labels, sys)
    ensures Stranded(sys, 0) && sys.coroutines[0].status == Suspended(0, Posted(o))
  {
    hide Reaches, TP.Step, TP.Enabled, EL.Step, EL.Enabled;
    labels, sys := PostsAtLast(TP.Step(pool, TP.Look(0)), o);
    labels := ClosureFillsSlot(pool, o, labels, sys);
  }

  // The loop has left and the closure has yet to post.
  lemma LeavesWhileCalled(pool: TP.Pool, o: Outcome) returns (labels: seq<Label>, sys: System)
    requires pool.queue == [0] && TP.Enabled(pool, TP.Look(0))
    ensures Reaches(System(map[0 := RunsTasks()], pool, map[], One(Suspended(0, Queued), [])), labels, sys)
    ensures sys.loops == map[0 := Left()] && sys.coroutines == One(Suspended(0, Filled(0, o)), [o])
  {
    hide Reaches, TP.Step, TP.Enabled;
    var busy := TP.Step(pool, TP.Look(0));
    sys := System(map[0 := Left()], busy, map[0 := Returning(0)], One(Suspended(0, Filled(0, o)), [o]));
    StaysThere(sys);
    labels := ClosureFillsSlot(pool, o, [], sys);
  }

  lemma ClosureFillsSlot(pool: TP.Pool, o: Outcome, rest: seq<Label>, r: System) returns (labels: seq<Label>)
    requires pool.queue == [0] && TP.Enabled(pool, TP.Look(0))
    requires Reaches(System(map[0 := Left()], TP.Step(pool, TP.Look(0)), map[0 := Returning(0)],
                            One(Suspended(0, Filled(0, o)), [o])), rest, r)
    ensures Reaches(System(map[0 := RunsTasks()], pool, map[], One(Suspended(0, Queued), [])), labels, r)
  {
    hide Reaches, TP.Step, TP.Enabled, EL.Step, EL.Enabled;
    var busy := TP.Step(pool, TP.Look(0));
    labels := LoopLeavesRun(busy, map[0 := Returning(0)], One(Suspended(0, Filled(0, o)), [o]), rest, r);
    var e := System(map[0 := RunsTasks()], busy, map[0 := Returning(0)], One(Suspended(0, Filled(0, o)), [o]));
    var d := System(map[0 := RunsTasks()], busy, map[0 := Calling(0)], One(Suspended(0, Called(0)), []));
    var c := System(map[0 := RunsTasks()], pool, map[], One(Suspended(0, Queued), []));
    OnePut(Suspended(0, Called(0)), [], Suspended(0, Filled(0, o)), [o]);
    assert d.closures[0 := Returning(0)] == e.closures && [] + [o] == [o];
    labels := StepsInto(d, Return(0, o), e, labels, r);
    OnePut(Suspended(0, Queued), [], Suspended(0, Called(0)), []);
    labels := StepsInto(c, Claim(0), d, labels, r);
  }

  lemma LoopLeavesRun(pool: TP.Pool, closures: map<Worker, Closure>, coroutines: map<Handle, Coroutine>,
                      rest: seq<Label>, r: System) returns (labels: seq<Label>)
    requires Reaches(System(map[0 := Left()], pool, closures, coroutines), rest, r)
    ensures Reaches(System(map[0 := RunsTasks()], pool, closures, coroutines), labels, r)
  {
    hide Reaches;
    var check := Stopping().(pc := EL.CheckStop);
    var ready := Stopping().(pc := EL.RunReady);
    labels := LoopMoves(check, pool, closures, coroutines, EL.ByLoop(EL.Check), Left(), rest, r);
    labels := LoopMoves(ready, pool, closures, coroutines, EL.ByLoop(EL.ReadyDone), check, labels, r);
    labels := LoopMoves(Stopping(), pool, closures, coroutines, EL.ByLoop(EL.TasksDone), ready, labels, r);
    assert EL.Step(RunsTasks(), EL.ByCode(EL.OwnStop)) == Stopping();
    labels := LoopMoves(RunsTasks(), pool, closures, coroutines, EL.ByCode(EL.OwnStop), Stopping(), labels, r);
  }

  lemma PostsAtLast(pool: TP.Pool, o: Outcome) returns (labels: seq<Label>, sys: System)
    ensures Reaches(System(map[0 := Left()], pool, map[0 := Returning(0)], One(Suspended(0, Filled(0, o)), [o])),
                    labels, sys)
    ensures Stranded(sys, 0) && sys.coroutines[0].status == Suspended(0, Posted(o))
  {
    hide Reaches;
    var a := System(map[0 := Left()], pool, map[0 := Returning(0)], One(Suspended(0, Filled(0, o)), [o]));
    sys := Step(a, PostBack(0));
    StaysThere(sys);
    labels := StepsInto(a, PostBack(0), sys, [], sys);
  }
}
