// Which suspended coroutines are ever resumed: the exact condition, for every reachable state
// of the schedulers and the pool.
module SubmitProgress {
  import opened SubmitSystem
  import EL = EventLoop
  import TP = ThreadPool

  // No continuation resumes a coroutine that is queued in a pool without workers, or whose
  // scheduler is past its last drain and does not have it ready.
  predicate Lost(sys: System, h: Handle) {
    && h in sys.coroutines && sys.coroutines[h].status.Suspended?
    && var c := sys.coroutines[h].status;
       || (c.phase.Queued? && TP.AllGone(sys.pool))
       || (c.src in sys.loops && EL.LastDrainOver(sys.loops[c.src]) && h !in sys.loops[c.src].ready)
  }

  // ---------- Lost is for good ----------

  lemma PartFacts(sys: System, s: Sched)
    requires Inv(sys) && s in sys.loops
    ensures EL.Inv(sys.loops[s]) && EL.Local(sys.loops[s])
    ensures NoneOf(sys.loops[s].tasks, sys.coroutines.Keys) && NoneOf(sys.loops[s].swapped, sys.coroutines.Keys)
  {
    hide QueueAgrees, ClosuresAgree, WritesOwed, NoneOf;
  }

  // A step of its loop makes no coroutine ready after the last drain.
  lemma NotMadeReady(sys: System, loop: EL.State, l: EL.Label, h: Handle)
    requires EL.Enabled(loop, l) && Foreign(sys, loop, l) && l != EL.ByLoop(EL.Swap)
    requires NoneOf(loop.swapped, sys.coroutines.Keys)
    requires h in sys.coroutines && h !in loop.ready
    ensures h !in EL.Step(loop, l).ready
  {
    hide EL.KernelStep, EL.PosterStep, EL.LoopStep, EL.CodeStep;
    match l {
      case ByLoop(ll) => LoopMakesNotReady(loop, ll, sys.coroutines.Keys, h);
      case ByPoster(p) => PosterMakesNotReady(loop, p);
      case ByCode(c) => CodeMakesNotReady(loop, c, h);
      case ByKernel(k) => KernelMakesNotReady(loop, k);
    }
  }

  lemma LoopMakesNotReady(loop: EL.State, l: EL.LoopLabel, ours: set<Handle>, h: Handle)
    requires EL.LoopEnabled(loop, l) && !l.Swap? && NoneOf(loop.swapped, ours)
    requires h in ours && h !in loop.ready
    ensures h !in EL.LoopStep(loop, l).ready
  {
  }

  lemma PosterMakesNotReady(loop: EL.State, l: EL.PosterLabel)
    requires EL.PosterEnabled(loop, l)
    ensures EL.PosterStep(loop, l).ready == loop.ready
  {
  }

  lemma CodeMakesNotReady(loop: EL.State, l: EL.CodeLabel, h: Handle)
    requires (l.PushReady? ==> l.h != h) && h !in loop.ready
    ensures h !in EL.CodeStep(loop, l).ready
  {
  }

  lemma KernelMakesNotReady(loop: EL.State, l: EL.KernelLabel)
    requires EL.KernelEnabled(loop, l)
    ensures EL.KernelStep(loop, l).ready == loop.ready
  {
  }

  ghost predicate PastIt(sys: System, s: Sched, h: Handle) {
    s in sys.loops && EL.LastDrainOver(sys.loops[s]) && h !in sys.loops[s].ready
  }

  lemma LoopStaysPast(sys: System, l: Label, s: Sched, h: Handle)
    requires Inv(sys) && Enabled(sys, l) && Safe(sys, l) && h in sys.coroutines && PastIt(sys, s, h)
    ensures PastIt(Step(sys, l), s, h)
  {
    hide Inv, EL.Step, EL.Enabled, EL.LastDrainOver, TP.Step, TP.Enabled, Foreign, ForeignJob, Unused;
    PartFacts(sys, s);
    match l {
      case LoopStep(t, el) =>
        if t == s {
          EL.LastDrainStays(sys.loops[s], el);
          NotMadeReady(sys, sys.loops[s], el, h);
        }
      case PostBack(w) =>
        var x := sys.closures[w].h;
        if sys.coroutines[x].status.src == s {
          PostEnabled(sys.loops[s], w, x);
          EL.LastDrainStays(sys.loops[s], EL.ByPoster(EL.Post(w, x)));
          SameReady(sys.loops[s], EL.Post(w, x));
        }
      case Wake(w) =>
        if sys.closures[w].s == s {
          WriteEnabled(sys.loops[s], w);
          EL.LastDrainStays(sys.loops[s], EL.ByPoster(EL.Write(w)));
          SameReady(sys.loops[s], EL.Write(w));
        }
      case ResumeOn(t) =>
        if t == s {
          EL.LastDrainStays(sys.loops[s], EL.ByLoop(EL.Resume));
          ResumingTakes(sys.loops[s]);
        }
      case _ =>
    }
  }

  lemma SameReady(loop: EL.State, l: EL.PosterLabel)
    requires EL.PosterEnabled(loop, l)
    ensures EL.Enabled(loop, EL.ByPoster(l)) && EL.Step(loop, EL.ByPoster(l)).ready == loop.ready
  {
  }

  lemma ResumingTakes(loop: EL.State)
    requires EL.Enabled(loop, EL.ByLoop(EL.Resume))
    ensures loop.ready != [] && EL.Step(loop, EL.ByLoop(EL.Resume)).ready == loop.ready[1..]
  {
  }

  // The loop of a scheduler resumes this very coroutine.
  predicate Resumes(sys: System, l: Label, h: Handle) {
    l.ResumeOn? && l.s in sys.loops && sys.loops[l.s].ready != [] && sys.loops[l.s].ready[0] == h
  }

  // No step but a resumption on its scheduler takes a coroutine out of its suspension.
  lemma SuspensionStays(sys: System, l: Label, h: Handle)
    requires Enabled(sys, l) && Safe(sys, l) && h in sys.coroutines && sys.coroutines[h].status.Suspended?
    requires !Resumes(sys, l, h)
    ensures var r := Step(sys, l);
            && h in r.coroutines && r.coroutines[h].status.Suspended?
            && r.coroutines[h].status.src == sys.coroutines[h].status.src
            && r.coroutines[h].delivered == sys.coroutines[h].delivered
  {
    hide EL.Step, EL.Enabled, TP.Step, TP.Enabled, Foreign, ForeignJob;
    if l.ResumeOn? {
      ResumingTakes(sys.loops[l.s]);
    }
  }

  lemma LostStep(sys: System, l: Label, h: Handle)
    requires Inv(sys) && Lost(sys, h) && Enabled(sys, l) && Safe(sys, l)
    ensures Lost(Step(sys, l), h)
    ensures Step(sys, l).coroutines[h].status.Suspended?
    ensures Step(sys, l).coroutines[h].delivered == sys.coroutines[h].delivered
  {
    hide Inv, Step, Enabled, Safe, EL.LastDrainOver, TP.AllGone;
    var c := sys.coroutines[h].status;
    if c.phase.Queued? && TP.AllGone(sys.pool) {
      QueuedStays(sys, l, h);
    } else {
      LoopStaysPast(sys, l, c.src, h);
      NotResumedPast(sys, l, h);
      SuspensionStays(sys, l, h);
    }
  }

  lemma QueuedStays(sys: System, l: Label, h: Handle)
    requires Enabled(sys, l) && Safe(sys, l) && TP.AllGone(sys.pool)
    requires h in sys.coroutines && sys.coroutines[h].status.Suspended? && sys.coroutines[h].status.phase.Queued?
    ensures var r := Step(sys, l);
            && h in r.coroutines && r.coroutines[h] == sys.coroutines[h] && TP.AllGone(r.pool)
  {
    hide Enabled, Safe, Step, TP.AllGone;
    StrandedStep(sys, l, h);
    PoolStays(sys, l);
  }

  lemma NotResumedPast(sys: System, l: Label, h: Handle)
    requires Enabled(sys, l) && Safe(sys, l)
    requires h in sys.coroutines && sys.coroutines[h].status.Suspended?
    requires sys.coroutines[h].status.src in sys.loops && h !in sys.loops[sys.coroutines[h].status.src].ready
    ensures !Resumes(sys, l, h)
  {
    hide EL.Step, TP.Step, TP.Enabled, Foreign, ForeignJob;
  }

  lemma {:induction false} LostForGood(sys: System, labels: seq<Label>, r: System, h: Handle)
    requires Inv(sys) && Lost(sys, h) && Reaches(sys, labels, r)
    ensures Lost(r, h) && r.coroutines[h].delivered == sys.coroutines[h].delivered
    decreases |labels|
  {
    hide Inv, Lost, Enabled, Safe, Step;
    LostIsThere(sys, h);
    if labels != [] {
      StepKeepsInv(sys, labels[0]);
      LostStep(sys, labels[0], h);
      LostForGood(Step(sys, labels[0]), labels[1..], r, h);
      LostIsThere(r, h);
    }
  }

  lemma LostIsThere(sys: System, h: Handle)
    requires Lost(sys, h)
    ensures h in sys.coroutines
  {
  }

  // ---------- What is ready runs in this round ----------

  predicate Round(pc: EL.Pc) {
    pc.RunTasks? || pc.RunReady?
  }

  // A coroutine of ours is made ready by a drain only, and the loop resumes it before it looks
  // at stopping_ again.
  ghost predicate InRound(loops: map<Sched, EL.State>, coroutines: map<Handle, Coroutine>) {
    forall s, h :: s in loops && h in coroutines && h in loops[s].ready ==> Round(loops[s].pc)
  }

  lemma StaysInRound(loop: EL.State, l: EL.Label)
    requires EL.Enabled(loop, l) && Round(loop.pc) && loop.ready != []
    ensures Round(EL.Step(loop, l).pc)
  {
    hide EL.PosterStep, EL.CodeStep, EL.KernelStep;
    match l {
      case ByLoop(_) =>
      case ByPoster(p) => EL.PosterLeaves(loop, p);
      case ByCode(c) => EL.CodeLeaves(loop, c);
      case ByKernel(k) => EL.KernelLeaves(loop, k);
    }
  }

  lemma SwapStartsRound(loop: EL.State)
    requires EL.Enabled(loop, EL.ByLoop(EL.Swap))
    ensures Round(EL.Step(loop, EL.ByLoop(EL.Swap)).pc)
  {
  }

  lemma LoopKeepsRound(sys: System, s: Sched, l: EL.Label, h: Handle)
    requires Inv(sys) && Enabled(sys, LoopStep(s, l)) && InRound(sys.loops, sys.coroutines) && h in sys.coroutines
    ensures h in EL.Step(sys.loops[s], l).ready ==> Round(EL.Step(sys.loops[s], l).pc)
  {
    hide Inv, EL.Step, EL.Enabled, Round, NoneOf;
    PartFacts(sys, s);
    if l == EL.ByLoop(EL.Swap) {
      SwapStartsRound(sys.loops[s]);
    } else if h !in sys.loops[s].ready {
      NotMadeReady(sys, sys.loops[s], l, h);
    } else {
      StaysInRound(sys.loops[s], l);
    }
  }

  lemma StepKeepsRound(sys: System, l: Label)
    requires Inv(sys) && Enabled(sys, l) && Safe(sys, l) && InRound(sys.loops, sys.coroutines)
    ensures InRound(Step(sys, l).loops, Step(sys, l).coroutines)
  {
    var r := Step(sys, l);
    forall s, h | s in r.loops && h in r.coroutines && h in r.loops[s].ready
      ensures Round(r.loops[s].pc)
    {
      StepKeepsRoundOf(sys, l, s, h);
    }
  }

  lemma StepKeepsRoundOf(sys: System, l: Label, s: Sched, h: Handle)
    requires Inv(sys) && Enabled(sys, l) && Safe(sys, l) && InRound(sys.loops, sys.coroutines)
    requires s in Step(sys, l).loops && h in Step(sys, l).coroutines
    ensures h in Step(sys, l).loops[s].ready ==> Round(Step(sys, l).loops[s].pc)
  {
    hide Inv, EL.Step, EL.Enabled, TP.Step, TP.Enabled, Foreign, ForeignJob, Round, NoneOf;
    match l {
      case LoopStep(t, el) => if t == s { LoopKeepsRound(sys, s, el, h); }
      case PostBack(w) =>
        var x := sys.closures[w].h;
        if sys.coroutines[x].status.src == s {
          PostLeavesRound(sys.loops[s], EL.Post(w, x));
        }
      case Wake(w) =>
        if sys.closures[w].s == s {
          PostLeavesRound(sys.loops[s], EL.Write(w));
        }
      case ResumeOn(t) => if t == s { ResumeLeavesRound(sys.loops[s]); }
      case _ =>
    }
  }

  lemma PostLeavesRound(loop: EL.State, l: EL.PosterLabel)
    requires EL.PosterEnabled(loop, l)
    ensures var r := EL.Step(loop, EL.ByPoster(l)); r.ready == loop.ready && r.pc == loop.pc
  {
  }

  lemma ResumeLeavesRound(loop: EL.State)
    requires EL.Enabled(loop, EL.ByLoop(EL.Resume))
    ensures Round(EL.Step(loop, EL.ByLoop(EL.Resume)).pc)
  {
  }

  ghost predicate Good(sys: System) {
    Inv(sys) && InRound(sys.loops, sys.coroutines)
  }

  lemma {:induction false} RunIsGood(sys: System, labels: seq<Label>, r: System)
    requires Good(sys) && Reaches(sys, labels, r)
    ensures Good(r)
    decreases |labels|
  {
    hide Inv, InRound, Enabled, Safe, Step;
    if labels != [] {
      StepKeepsInv(sys, labels[0]);
      StepKeepsRound(sys, labels[0]);
      RunIsGood(Step(sys, labels[0]), labels[1..], r);
    }
  }

  lemma InitialIsGood(sys: System)
    requires Initial(sys)
    ensures Good(sys)
  {
    hide Inv;
    InitialInv(sys);
  }

  // ---------- Orderly continuations ----------

  // Steps that nobody outside has to bring about: the loops, the pool, the closures, writes
  // that are owed and reads of the kernel that are due; no signal, no spurious wakeup, no stop,
  // nothing posted, submitted or spawned.
  predicate Orderly(l: Label) {
    match l
    case LoopStep(_, ByLoop(x)) => !x.Interrupted?
    case LoopStep(_, ByKernel(k)) => k.KernelRead?
    case LoopStep(_, ByPoster(p)) => p.Write?
    case LoopStep(_, ByCode(_)) => false
    case PoolStep(pl) => TP.Quiet(pl)
    case Spawn(_, _) => false
    case Submit(_) => false
    case End(_) => false
    case _ => true
  }

  ghost predicate Leads(sys: System, r: System) {
    exists labels :: Reaches(sys, labels, r) && forall l :: l in labels ==> Orderly(l)
  }

  lemma {:induction false} ReachesTwice(sys: System, a: seq<Label>, m: System, b: seq<Label>, r: System)
    requires Reaches(sys, a, m) && Reaches(m, b, r)
    ensures Reaches(sys, a + b, r)
    decreases |a|
  {
    hide Enabled, Safe, Step;
    if a == [] {
      assert a + b == b;
    } else {
      assert (a + b)[0] == a[0] && (a + b)[1..] == a[1..] + b;
      ReachesTwice(Step(sys, a[0]), a[1..], m, b, r);
    }
  }

  lemma LeadsTwice(sys: System, m: System, r: System)
    requires Leads(sys, m) && Leads(m, r)
    ensures Leads(sys, r)
  {
    hide Reaches, Orderly;
    var a :| Reaches(sys, a, m) && forall l :: l in a ==> Orderly(l);
    var b :| Reaches(m, b, r) && forall l :: l in b ==> Orderly(l);
    ReachesTwice(sys, a, m, b, r);
  }

  lemma LeadsNowhere(sys: System)
    ensures Leads(sys, sys)
  {
    assert Reaches(sys, [], sys);
  }

  lemma StepLeads(sys: System, l: Label)
    requires Good(sys) && Enabled(sys, l) && Orderly(l)
    ensures Safe(sys, l) && Leads(sys, Step(sys, l)) && Good(Step(sys, l))
  {
    hide Inv, InRound, Enabled, Safe, Step, Orderly;
    StepKeepsInv(sys, l);
    StepKeepsRound(sys, l);
    var r := Step(sys, l);
    assert [l][1..] == [];
    assert Reaches(r, [], r);
    assert Reaches(sys, [l], r);
  }

  // ---------- From a wait, or anywhere, to the next drain ----------

  // How far the loop is from its drain: points of the program, and what is left to do there.
  function Distance(pc: EL.Pc): nat {
    match pc
    case RunTasks => 9
    case RunReady => 8
    case CheckStop => 7
    case Submit => 6
    case Waiting => 5
    case Process => 4
    case NotStarted => 3
    case Entered => 2
    case Top => 1
    case _ => 0
  }

  function ToDo(loop: EL.State): nat {
    match loop.pc
    case RunTasks => |loop.swapped|
    case RunReady => |loop.ready|
    case Waiting => if loop.cq != [] then 0 else if loop.counter > 0 then 1 else 2
    case Process => |loop.batch|
    case _ => 0
  }

  predicate Nearer(r: EL.State, loop: EL.State) {
    || Distance(r.pc) < Distance(loop.pc)
    || (Distance(r.pc) == Distance(loop.pc) && ToDo(r) < ToDo(loop))
  }

  // What the loop, or the kernel for it, does next; where it waits with nothing to take and
  // nothing written, a write has to come first.
  function Next(loop: EL.State): EL.Label {
    match loop.pc
    case NotStarted => EL.ByLoop(EL.Enter)
    case Entered => EL.ByLoop(EL.Arm)
    case Top => EL.ByLoop(EL.LoopTop)
    case Drain => EL.ByLoop(EL.Swap)
    case RunTasks => EL.ByLoop(if loop.swapped != [] then EL.RunTask else EL.TasksDone)
    case RunReady => EL.ByLoop(if loop.ready != [] then EL.Resume else EL.ReadyDone)
    case CheckStop => EL.ByLoop(EL.Check)
    case Submit => EL.ByLoop(EL.SubmitAll)
    case Waiting => if loop.cq != [] then EL.ByLoop(EL.Wake) else EL.ByKernel(EL.KernelRead)
    case Process => EL.ByLoop(if loop.batch != [] then EL.Complete else EL.BatchDone)
    case Exited => EL.ByKernel(EL.KernelRead)
  }

  predicate NeedsWrite(loop: EL.State) {
    loop.pc.Waiting? && loop.cq == [] && loop.counter == 0
  }

  lemma NextIsEnabled(loop: EL.State)
    requires EL.Inv(loop) && !loop.pc.Exited? && !NeedsWrite(loop)
    ensures EL.Enabled(loop, Next(loop))
  {
    if loop.pc.Waiting? && loop.cq == [] {
      EL.TakesWatcher(loop);
    }
  }

  // On the way to its drain, a loop that is not past its last one comes nearer with every
  // step, keeps what is posted and does not get past its last drain.
  lemma NextComesNearer(loop: EL.State)
    requires EL.Inv(loop) && !EL.LastDrainOver(loop) && !loop.pc.Drain? && !NeedsWrite(loop)
    ensures EL.Enabled(loop, Next(loop))
    ensures var r := EL.Step(loop, Next(loop));
            && r.handles == loop.handles && !EL.LastDrainOver(r) && Nearer(r, loop)
  {
    hide EL.OneWatcher, EL.NoLostWakeup, EL.NoLostStop, EL.StopTaskKept, EL.Local, EL.LastDrainOver,
         EL.Step, EL.Enabled;
    LastDrainMeans(loop);
    NextIsEnabled(loop);
    match loop.pc {
      case RunTasks => TasksComeNearer(loop);
      case RunReady => ReadyComeNearer(loop);
      case Waiting => WaitComesNearer(loop);
      case Process => BatchComesNearer(loop);
      case _ => PointsComeNearer(loop);
    }
  }

  lemma LastDrainMeans(loop: EL.State)
    ensures EL.LastDrainOver(loop) <==>
              || loop.pc.Exited?
              || (&& !loop.pc.NotStarted? && !loop.pc.Drain?
                  && (loop.stopping || exists t :: t in loop.swapped && t.stops))
  {
  }

  lemma TasksComeNearer(loop: EL.State)
    requires loop.pc.RunTasks? && !EL.LastDrainOver(loop)
    ensures EL.Enabled(loop, Next(loop))
    ensures var r := EL.Step(loop, Next(loop));
            && r.handles == loop.handles && !EL.LastDrainOver(r) && Nearer(r, loop)
  {
    if loop.swapped != [] {
      assert loop.swapped[0] in loop.swapped;
      assert forall t :: t in loop.swapped[1..] ==> t in loop.swapped;
    }
  }

  lemma ReadyComeNearer(loop: EL.State)
    requires loop.pc.RunReady? && !EL.LastDrainOver(loop)
    ensures EL.Enabled(loop, Next(loop))
    ensures var r := EL.Step(loop, Next(loop));
            && r.handles == loop.handles && !EL.LastDrainOver(r) && Nearer(r, loop)
  {
  }

  lemma WaitComesNearer(loop: EL.State)
    requires loop.pc.Waiting? && !EL.LastDrainOver(loop) && !NeedsWrite(loop) && EL.Enabled(loop, Next(loop))
    ensures var r := EL.Step(loop, Next(loop));
            && r.handles == loop.handles && !EL.LastDrainOver(r) && Nearer(r, loop)
  {
  }

  lemma BatchComesNearer(loop: EL.State)
    requires loop.pc.Process? && !EL.LastDrainOver(loop)
    ensures EL.Enabled(loop, Next(loop))
    ensures var r := EL.Step(loop, Next(loop));
            && r.handles == loop.handles && !EL.LastDrainOver(r) && Nearer(r, loop)
  {
  }

  lemma PointsComeNearer(loop: EL.State)
    requires EL.Local(loop) && !EL.LastDrainOver(loop) && !loop.pc.Drain? && EL.Enabled(loop, Next(loop))
    requires !loop.pc.RunTasks? && !loop.pc.RunReady? && !loop.pc.Waiting? && !loop.pc.Process?
    ensures var r := EL.Step(loop, Next(loop));
            && r.handles == loop.handles && !EL.LastDrainOver(r) && Nearer(r, loop)
  {
    hide EL.LastDrainOver, EL.Step, EL.Enabled;
    LastDrainMeans(loop);
    var r := EL.Step(loop, Next(loop));
    LastDrainMeans(r);
    if loop.pc.CheckStop? || loop.pc.Submit? {
      LatePoints(loop);
    } else {
      EarlyPoints(loop);
    }
  }

  lemma LatePoints(loop: EL.State)
    requires (loop.pc.CheckStop? && !loop.stopping) || loop.pc.Submit?
    ensures var r := EL.Step(loop, Next(loop));
            && r.handles == loop.handles && r.swapped == loop.swapped && r.stopping == loop.stopping
            && Distance(r.pc) < Distance(loop.pc) && !r.pc.Exited?
  {
  }

  lemma EarlyPoints(loop: EL.State)
    requires loop.pc.NotStarted? || loop.pc.Entered? || (loop.pc.Top? && !loop.stopping)
    ensures var r := EL.Step(loop, Next(loop));
            && r.handles == loop.handles && r.swapped == loop.swapped
            && (r.stopping ==> loop.stopping && !loop.pc.NotStarted?)
            && Distance(r.pc) < Distance(loop.pc) && !r.pc.Exited?
  {
  }

  // ---------- The way to the drain, in the whole system ----------

  // The handle waits in the cross-thread queue of a loop that will drain it yet.
  ghost predicate WaitsFor(sys: System, h: Handle, s: Sched) {
    && s in sys.loops && h in sys.coroutines && PostedTo(sys.coroutines[h], s)
    && h in sys.loops[s].handles && !EL.LastDrainOver(sys.loops[s])
  }

  lemma HandleIsOnce(sys: System, h: Handle, s: Sched)
    requires Inv(sys) && s in sys.loops && h in sys.coroutines && PostedTo(sys.coroutines[h], s)
    ensures h in sys.loops[s].handles <==> h !in sys.loops[s].ready
  {
    hide QueueAgrees, ClosuresAgree, WritesOwed, Parts, LoopsAgree;
    LoopFacts(sys);
    assert AtLoop(sys.loops[s], h) == 1;
  }

  // The step of the system that is the next one of loop s.
  ghost function NextOf(sys: System, s: Sched): Label
    requires s in sys.loops
  {
    var loop := sys.loops[s];
    if Next(loop) == EL.ByLoop(EL.Resume) && loop.ready != [] && loop.ready[0] in sys.coroutines then ResumeOn(s)
    else LoopStep(s, Next(loop))
  }

  lemma NextOfIsEnabled(sys: System, s: Sched)
    requires s in sys.loops && EL.Enabled(sys.loops[s], Next(sys.loops[s])) && !sys.loops[s].pc.Exited?
    ensures Enabled(sys, NextOf(sys, s)) && Orderly(NextOf(sys, s))
    ensures Safe(sys, NextOf(sys, s)) ==>
              var r := Step(sys, NextOf(sys, s));
              && r.loops == sys.loops[s := EL.Step(sys.loops[s], Next(sys.loops[s]))]
              && (forall x :: x in sys.coroutines && !(NextOf(sys, s).ResumeOn? && x == sys.loops[s].ready[0]) ==>
                    x in r.coroutines && r.coroutines[x] == sys.coroutines[x])
  {
    hide EL.Step, TP.Step;
  }

  lemma NextStep(sys: System, h: Handle, s: Sched) returns (r: System)
    requires Good(sys) && WaitsFor(sys, h, s) && !sys.loops[s].pc.Drain? && !NeedsWrite(sys.loops[s])
    ensures Good(r) && Leads(sys, r) && WaitsFor(r, h, s) && r.coroutines[h] == sys.coroutines[h]
    ensures Nearer(r.loops[s], sys.loops[s])
  {
    hide Inv, InRound, Enabled, Safe, Step, EL.Step, EL.Enabled, EL.LastDrainOver, Leads, Orderly, EL.Inv, NeedsWrite,
         Nearer, NoneOf;
    PartFacts(sys, s);
    NextComesNearer(sys.loops[s]);
    LastDrainMeans(sys.loops[s]);
    NextOfIsEnabled(sys, s);
    HandleIsOnce(sys, h, s);
    StepLeads(sys, NextOf(sys, s));
    r := Step(sys, NextOf(sys, s));
    assert NextOf(sys, s).ResumeOn? ==> sys.loops[s].ready[0] in sys.loops[s].ready;
  }

  // Where the loop waits unwritten, somebody owes it a write.
  lemma WriteStep(sys: System, h: Handle, s: Sched) returns (r: System)
    requires Good(sys) && WaitsFor(sys, h, s) && NeedsWrite(sys.loops[s])
    ensures Good(r) && Leads(sys, r) && WaitsFor(r, h, s) && r.coroutines[h] == sys.coroutines[h]
    ensures Nearer(r.loops[s], sys.loops[s])
  {
    hide Inv, InRound, Enabled, Safe, Step, EL.Enabled, Leads, Orderly, EL.Inv, NoneOf, EL.LastDrainOver, EL.Step;
    PartFacts(sys, s);
    var p := SomebodyOwes(sys.loops[s], h);
    var l := WriterOf(sys, s, p);
    StepLeads(sys, l);
    r := Step(sys, l);
    WriteComesNearer(sys.loops[s], p);
    WriteChanges(sys, s, p, l);
  }

  lemma SomebodyOwes(loop: EL.State, h: Handle) returns (p: EL.Poster)
    requires EL.Inv(loop) && NeedsWrite(loop) && h in loop.handles
    ensures p in loop.owed
  {
    assert EL.WakeupPending(loop);
    assert loop.owed != multiset{};
    p :| p in loop.owed;
  }

  // A write is owed by one of the closures or by another thread.
  lemma WriterOf(sys: System, s: Sched, p: EL.Poster) returns (l: Label)
    requires Inv(sys) && s in sys.loops && p in sys.loops[s].owed
    ensures Enabled(sys, l) && Orderly(l)
    ensures l == Wake(p) || l == LoopStep(s, EL.ByPoster(EL.Write(p)))
    ensures l == Wake(p) ==> p in sys.closures && sys.closures[p] == Owing(s)
  {
    hide QueueAgrees, LoopsAgree, ClosuresAgree, Parts;
    if p in sys.pool.workers {
      l := Wake(p);
      assert sys.loops[s].owed[p] > 0;
    } else {
      l := LoopStep(s, EL.ByPoster(EL.Write(p)));
    }
  }

  lemma WriteComesNearer(loop: EL.State, p: EL.Poster)
    requires p in loop.owed && NeedsWrite(loop)
    ensures EL.Enabled(loop, EL.ByPoster(EL.Write(p)))
    ensures var r := EL.Step(loop, EL.ByPoster(EL.Write(p)));
            && r.handles == loop.handles && EL.LastDrainOver(r) == EL.LastDrainOver(loop) && Nearer(r, loop)
  {
  }

  lemma WriteChanges(sys: System, s: Sched, p: EL.Poster, l: Label)
    requires s in sys.loops && EL.Enabled(sys.loops[s], EL.ByPoster(EL.Write(p)))
    requires Enabled(sys, l) && Safe(sys, l)
    requires || l == LoopStep(s, EL.ByPoster(EL.Write(p)))
             || (l == Wake(p) && p in sys.closures && sys.closures[p] == Owing(s))
    ensures var r := Step(sys, l);
            && r.loops == sys.loops[s := EL.Step(sys.loops[s], EL.ByPoster(EL.Write(p)))]
            && r.coroutines == sys.coroutines
  {
    hide EL.Step;
  }

  lemma {:induction false} ComesToDrain(sys: System, h: Handle, s: Sched) returns (r: System)
    requires Good(sys) && WaitsFor(sys, h, s)
    ensures Good(r) && Leads(sys, r) && WaitsFor(r, h, s) && r.coroutines[h] == sys.coroutines[h]
    ensures r.loops[s].pc.Drain?
    decreases Distance(sys.loops[s].pc), ToDo(sys.loops[s])
  {
    hide Good, Leads, EL.LastDrainOver, NeedsWrite;
    if sys.loops[s].pc.Drain? {
      LeadsNowhere(sys);
      r := sys;
    } else {
      var m: System;
      if NeedsWrite(sys.loops[s]) {
        m := WriteStep(sys, h, s);
      } else {
        m := NextStep(sys, h, s);
      }
      r := ComesToDrain(m, h, s);
      LeadsTwice(sys, m, r);
    }
  }

  // ---------- From the drain to the resumption ----------

  ghost predicate IsReady(sys: System, h: Handle, s: Sched) {
    && s in sys.loops && h in sys.coroutines && PostedTo(sys.coroutines[h], s)
    && h in sys.loops[s].ready && Round(sys.loops[s].pc)
  }

  predicate ResumedFrom(c: Coroutine, r: Coroutine) {
    && c.status.Suspended? && c.status.phase.Posted?
    && r.status == Running(c.status.src) && r.delivered == c.delivered + [c.status.phase.o]
  }

  lemma DrainMakesReady(sys: System, h: Handle, s: Sched) returns (r: System)
    requires Good(sys) && WaitsFor(sys, h, s) && sys.loops[s].pc.Drain?
    ensures Good(r) && Leads(sys, r) && IsReady(r, h, s) && r.coroutines[h] == sys.coroutines[h]
  {
    hide Inv, InRound, Enabled, Safe, Step, Leads, Orderly, EL.LastDrainOver;
    var loop := sys.loops[s];
    assert EL.Enabled(loop, Next(loop));
    NextOfIsEnabled(sys, s);
    StepLeads(sys, NextOf(sys, s));
    r := Step(sys, NextOf(sys, s));
    assert h in loop.ready + loop.handles;
  }

  lemma {:induction false} ReadyIsResumed(sys: System, h: Handle, s: Sched) returns (r: System)
    requires Good(sys) && IsReady(sys, h, s)
    ensures Leads(sys, r) && h in r.coroutines && ResumedFrom(sys.coroutines[h], r.coroutines[h])
    decreases Distance(sys.loops[s].pc), ToDo(sys.loops[s])
  {
    hide Inv, InRound, Leads;
    var m := RoundGoesOn(sys, h, s);
    if ResumedFrom(sys.coroutines[h], m.coroutines[h]) {
      r := m;
    } else {
      r := ReadyIsResumed(m, h, s);
      LeadsTwice(sys, m, r);
    }
  }

  // One step of the round resumes the coroutine or leaves less to do before it.
  lemma RoundGoesOn(sys: System, h: Handle, s: Sched) returns (r: System)
    requires Good(sys) && IsReady(sys, h, s)
    ensures Good(r) && Leads(sys, r) && h in r.coroutines
    ensures ResumedFrom(sys.coroutines[h], r.coroutines[h])
         || (IsReady(r, h, s) && r.coroutines[h] == sys.coroutines[h] && Nearer(r.loops[s], sys.loops[s]))
  {
    hide Inv, InRound, Enabled, Safe, Step, EL.Step, EL.Enabled, Leads, Orderly, Nearer;
    var loop := sys.loops[s];
    RoundStep(loop, h);
    NextOfIsEnabled(sys, s);
    StepLeads(sys, NextOf(sys, s));
    r := Step(sys, NextOf(sys, s));
    if NextOf(sys, s).ResumeOn? && loop.ready[0] == h {
      ResumptionDelivers(sys, s);
    }
  }

  lemma RoundStep(loop: EL.State, h: Handle)
    requires Round(loop.pc) && h in loop.ready
    ensures EL.Enabled(loop, Next(loop))
    ensures var r := EL.Step(loop, Next(loop));
            && Round(r.pc) && Nearer(r, loop)
            && ((Next(loop) == EL.ByLoop(EL.Resume) && loop.ready[0] == h) || h in r.ready)
  {
  }

  lemma ResumptionDelivers(sys: System, s: Sched)
    requires Enabled(sys, ResumeOn(s)) && Safe(sys, ResumeOn(s))
    ensures var h := sys.loops[s].ready[0];
            var r := Step(sys, ResumeOn(s));
            h in r.coroutines && ResumedFrom(sys.coroutines[h], r.coroutines[h])
  {
    hide EL.Step;
  }

  lemma PostedIsResumed(sys: System, h: Handle, s: Sched) returns (r: System)
    requires Good(sys) && (WaitsFor(sys, h, s) || IsReady(sys, h, s))
    ensures Leads(sys, r) && h in sys.coroutines && h in r.coroutines
    ensures ResumedFrom(sys.coroutines[h], r.coroutines[h])
  {
    hide Good, Leads, EL.LastDrainOver, Round;
    if WaitsFor(sys, h, s) {
      var a := ComesToDrain(sys, h, s);
      var b := DrainMakesReady(a, h, s);
      r := ReadyIsResumed(b, h, s);
      LeadsTwice(sys, a, b);
      LeadsTwice(sys, b, r);
    } else {
      r := ReadyIsResumed(sys, h, s);
    }
  }

  // ---------- Through the pool ----------

  // What posts and writes leave of a loop: it is where it was, with at least the handles.
  predicate Held(loop: EL.State, r: EL.State) {
    && r.pc == loop.pc && r.stopping == loop.stopping && r.swapped == loop.swapped && r.ready == loop.ready
    && forall x :: x in loop.handles ==> x in r.handles
  }

  ghost predicate AllHeld(loops: map<Sched, EL.State>, r: map<Sched, EL.State>) {
    && loops.Keys == r.Keys
    && forall s {:trigger s in loops} :: s in loops ==> Held(loops[s], r[s])
  }

  lemma AllHeldTwice(a: map<Sched, EL.State>, b: map<Sched, EL.State>, c: map<Sched, EL.State>)
    requires AllHeld(a, b) && AllHeld(b, c)
    ensures AllHeld(a, c)
  {
    forall s {:trigger s in a} | s in a
      ensures Held(a[s], c[s])
    {
      assert s in b;
    }
  }

  lemma PosterHolds(loop: EL.State, l: EL.PosterLabel)
    requires EL.PosterEnabled(loop, l) && (l.Post? || l.Write?)
    ensures Held(loop, EL.Step(loop, EL.ByPoster(l)))
  {
  }

  lemma LoopsHeld(sys: System, l: Label)
    requires Enabled(sys, l) && Safe(sys, l)
    requires l.PoolStep? || l.Claim? || l.Return? || l.PostBack? || l.Wake?
    ensures AllHeld(sys.loops, Step(sys, l).loops)
  {
    hide EL.Step, TP.Step, TP.Enabled, Held;
    assert forall loop: EL.State :: Held(loop, loop) by { Unchanged(); }
    match l {
      case PostBack(w) =>
        var h := sys.closures[w].h;
        PosterHolds(sys.loops[sys.coroutines[h].status.src], EL.Post(w, h));
      case Wake(w) => PosterHolds(sys.loops[sys.closures[w].s], EL.Write(w));
      case _ =>
    }
  }

  lemma Unchanged()
    ensures forall loop: EL.State :: Held(loop, loop)
  {
  }

  // From sys to r nothing happened to h, and the queue and the loops are held.
  ghost predicate Beside(sys: System, r: System, h: Handle) {
    && h in sys.coroutines && h in r.coroutines && r.coroutines[h] == sys.coroutines[h]
    && AllHeld(sys.loops, r.loops) && r.pool.queue == sys.pool.queue
  }

  lemma BesideTwice(a: System, b: System, c: System, h: Handle)
    requires Beside(a, b, h) && Beside(b, c, h)
    ensures Beside(a, c, h)
  {
    hide AllHeld;
    AllHeldTwice(a.loops, b.loops, c.loops);
  }

  // How much of its closure, and then of the task, a busy worker has yet to do.
  function Stage(sys: System, w: Worker): nat {
    if w !in sys.closures then 0
    else match sys.closures[w]
      case Calling(_) => 3
      case Returning(_) => 2
      case Owing(_) => 1
  }

  lemma StageStep(sys: System, w: Worker, h: Handle) returns (r: System)
    requires Good(sys) && w in sys.closures && w in sys.pool.workers && sys.pool.workers[w].Busy?
    requires h in sys.coroutines && IsQueued(sys.coroutines[h])
    ensures Good(r) && Leads(sys, r) && Beside(sys, r, h)
    ensures w in r.pool.workers && r.pool.workers[w].Busy? && Stage(r, w) < Stage(sys, w)
  {
    hide Inv, InRound, Safe, EL.Step, EL.Enabled, TP.Step, TP.Enabled, Leads, AllHeld;
    var l := match sys.closures[w]
      case Calling(_) => Return(w, Returned(0))
      case Returning(_) => PostBack(w)
      case Owing(_) => Wake(w);
    StepLeads(sys, l);
    r := Step(sys, l);
    LoopsHeld(sys, l);
    OthersUntouched(sys, l, w, h);
  }

  lemma OthersUntouched(sys: System, l: Label, w: Worker, h: Handle)
    requires Enabled(sys, l) && Safe(sys, l) && h in sys.coroutines && IsQueued(sys.coroutines[h])
    requires l == Return(w, Returned(0)) || l == PostBack(w) || l == Wake(w)
    ensures var r := Step(sys, l);
            && h in r.coroutines && r.coroutines[h] == sys.coroutines[h] && r.pool == sys.pool
            && Stage(r, w) < Stage(sys, w)
  {
    hide EL.Step, TP.Step;
  }

  lemma {:induction false} WorkerComesFree(sys: System, w: Worker, h: Handle) returns (r: System)
    requires Good(sys) && w in sys.pool.workers && sys.pool.workers[w].Busy?
    requires h in sys.coroutines && IsQueued(sys.coroutines[h])
    ensures Good(r) && Leads(sys, r) && Beside(sys, r, h)
    ensures w in r.pool.workers && r.pool.workers[w].Awake?
    decreases Stage(sys, w)
  {
    hide Good, Leads, AllHeld, Enabled, Safe, Step;
    if w in sys.closures {
      var m := StageStep(sys, w, h);
      r := WorkerComesFree(m, w, h);
      LeadsTwice(sys, m, r);
      BesideTwice(sys, m, r, h);
    } else {
      r := PoolGoesOn(sys, TP.Finish(w), h);
    }
  }

  // A step of the pool that takes no task.
  lemma PoolGoesOn(sys: System, l: TP.Label, h: Handle) returns (r: System)
    requires Good(sys) && TP.Enabled(sys.pool, l) && h in sys.coroutines
    requires (l.Finish? && l.w !in sys.closures) || l.NotifySleeper?
    ensures Good(r) && Leads(sys, r) && Beside(sys, r, h)
    ensures l.w in r.pool.workers && r.pool.workers[l.w].Awake?
  {
    hide Inv, InRound, Safe, EL.Step, EL.Enabled, Leads, AllHeld;
    StepLeads(sys, PoolStep(l));
    r := Step(sys, PoolStep(l));
    LoopsHeld(sys, PoolStep(l));
  }

  // While anything is queued and not all workers have gone, some worker gets to look.
  lemma SomebodyLooks(sys: System, h: Handle) returns (r: System, w: Worker)
    requires Good(sys) && h in sys.coroutines && IsQueued(sys.coroutines[h]) && !TP.AllGone(sys.pool)
    ensures Good(r) && Leads(sys, r) && Beside(sys, r, h)
    ensures h in r.pool.queue && TP.Enabled(r.pool, TP.Look(w))
  {
    hide Leads, Inv, InRound, AllHeld, TP.Enabled, TP.AllGone, TP.Attending, TP.SomeoneSleeps;
    QueueHolds(sys, h);
    TP.QueueIsAttended(sys.pool);
    w := Candidate(sys.pool);
    if sys.pool.workers[w].Awake? {
      LeadsNowhere(sys);
      AllHeldAlready(sys.loops);
      r := sys;
    } else if sys.pool.workers[w].Busy? {
      r := WorkerComesFree(sys, w, h);
    } else {
      CanNotify(sys.pool, w);
      r := PoolGoesOn(sys, TP.NotifySleeper(w), h);
    }
    QueueHolds(r, h);
    CanLook(r.pool, w);
  }

  lemma AllHeldAlready(loops: map<Sched, EL.State>)
    ensures AllHeld(loops, loops)
  {
  }

  lemma QueueHolds(sys: System, h: Handle)
    requires Inv(sys) && h in sys.coroutines && IsQueued(sys.coroutines[h])
    ensures h in sys.pool.queue && TP.WorkConserving(sys.pool)
  {
    hide LoopsAgree, ClosuresAgree, WritesOwed, TP.WorkConserving, TP.Accounted, TP.LeftEmpty;
    assert InQueue(sys.pool, h) == 1;
  }

  lemma Candidate(pool: TP.Pool) returns (w: Worker)
    requires TP.Attending(pool) != {} || (pool.notifies > 0 && TP.SomeoneSleeps(pool))
    ensures w in pool.workers
    ensures pool.workers[w].Awake? || pool.workers[w].Busy? || (pool.workers[w].Sleeping? && pool.notifies > 0)
  {
    if TP.Attending(pool) != {} {
      w :| w in TP.Attending(pool);
    } else {
      w :| w in pool.workers && pool.workers[w].Sleeping?;
    }
  }

  lemma CanNotify(pool: TP.Pool, w: Worker)
    requires w in pool.workers && pool.workers[w].Sleeping? && pool.notifies > 0
    ensures TP.Enabled(pool, TP.NotifySleeper(w))
  {
  }

  // With tasks in the queue nobody has the lock.
  lemma CanLook(pool: TP.Pool, w: Worker)
    requires TP.WorkConserving(pool) && pool.queue != [] && w in pool.workers && pool.workers[w].Awake?
    ensures TP.Enabled(pool, TP.Look(w))
  {
  }

  // ---------- The queue is worked off ----------

  ghost predicate IsCalled(sys: System, r: System, h: Handle, w: Worker) {
    && h in sys.coroutines && sys.coroutines[h].status.Suspended?
    && h in r.coroutines && r.coroutines[h] == SetPhase(sys.coroutines[h], Called(w))
    && w in r.closures && r.closures[w] == Calling(h)
    && AllHeld(sys.loops, r.loops)
  }

  lemma LookTakes(sys: System, h: Handle, w: Worker) returns (r: System)
    requires Good(sys) && h in sys.coroutines && IsQueued(sys.coroutines[h])
    requires h in sys.pool.queue && TP.Enabled(sys.pool, TP.Look(w))
    ensures Good(r) && Leads(sys, r)
    ensures if sys.pool.queue[0] == h then IsCalled(sys, r, h, w)
            else && h in r.coroutines && r.coroutines[h] == sys.coroutines[h] && AllHeld(sys.loops, r.loops)
                 && r.pool.queue == sys.pool.queue[1..] && !TP.AllGone(r.pool)
  {
    hide Inv, InRound, Safe, EL.Step, EL.Enabled, Leads, AllHeld, TP.Enabled, TP.Step, TP.AllGone;
    var l := if sys.pool.queue[0] in sys.coroutines then Claim(w) else PoolStep(TP.Look(w));
    StepLeads(sys, l);
    r := Step(sys, l);
    LoopsHeld(sys, l);
    LookPops(sys.pool, w);
  }

  lemma LookPops(pool: TP.Pool, w: Worker)
    requires TP.Enabled(pool, TP.Look(w)) && pool.queue != []
    ensures var r := TP.Step(pool, TP.Look(w)); r.queue == pool.queue[1..] && !TP.AllGone(r)
  {
    assert TP.Step(pool, TP.Look(w)).workers[w].Busy?;
  }

  lemma {:induction false} QueuedIsCalled(sys: System, h: Handle) returns (r: System, w: Worker)
    requires Good(sys) && h in sys.coroutines && IsQueued(sys.coroutines[h]) && !TP.AllGone(sys.pool)
    ensures Good(r) && Leads(sys, r) && IsCalled(sys, r, h, w)
    decreases |sys.pool.queue|
  {
    hide Good, Leads, AllHeld, TP.Enabled, TP.AllGone;
    var m, x := SomebodyLooks(sys, h);
    var n := LookTakes(m, h, x);
    LeadsTwice(sys, m, n);
    AllHeldTwice(sys.loops, m.loops, n.loops);
    if m.pool.queue[0] == h {
      r, w := n, x;
    } else {
      r, w := QueuedIsCalled(n, h);
      LeadsTwice(sys, n, r);
      AllHeldTwice(sys.loops, n.loops, r.loops);
    }
  }

  // ---------- The closure posts the handle home ----------

  ghost predicate IsPosted(sys: System, r: System, h: Handle) {
    && h in sys.coroutines && sys.coroutines[h].status.Suspended?
    && h in r.coroutines && r.coroutines[h].status.Suspended? && r.coroutines[h].status.phase.Posted?
    && r.coroutines[h].status.src == sys.coroutines[h].status.src
    && r.coroutines[h].delivered == sys.coroutines[h].delivered
    && AllHeld(sys.loops, r.loops)
    && sys.coroutines[h].status.src in r.loops && h in r.loops[sys.coroutines[h].status.src].handles
  }

  lemma FilledIsPosted(sys: System, h: Handle, w: Worker) returns (r: System)
    requires Good(sys) && w in sys.closures && sys.closures[w] == Returning(h)
    requires h in sys.coroutines && sys.coroutines[h].status.Suspended?
    ensures Good(r) && Leads(sys, r) && IsPosted(sys, r, h)
  {
    hide Inv, InRound, Leads, AllHeld, EL.Step, EL.Enabled;
    var l := PostBack(w);
    StepLeads(sys, l);
    r := Step(sys, l);
    LoopsHeld(sys, l);
    PostedLast(sys.loops[sys.coroutines[h].status.src], w, h);
  }

  lemma PostedLast(loop: EL.State, w: Worker, h: Handle)
    ensures EL.Enabled(loop, EL.ByPoster(EL.Post(w, h)))
    ensures h in EL.Step(loop, EL.ByPoster(EL.Post(w, h))).handles
  {
    var r := EL.Step(loop, EL.ByPoster(EL.Post(w, h)));
    assert r.handles[|loop.handles|] == h;
  }

  lemma CalledIsFilled(sys: System, h: Handle, w: Worker) returns (r: System)
    requires Good(sys) && w in sys.closures && sys.closures[w] == Calling(h)
    requires h in sys.coroutines && sys.coroutines[h].status.Suspended?
    ensures Good(r) && Leads(sys, r) && AllHeld(sys.loops, r.loops)
    ensures w in r.closures && r.closures[w] == Returning(h)
    ensures h in r.coroutines && r.coroutines[h].status.Suspended?
    ensures r.coroutines[h].status.src == sys.coroutines[h].status.src
    ensures r.coroutines[h].delivered == sys.coroutines[h].delivered
  {
    hide Inv, InRound, Leads, AllHeld;
    var l := Return(w, Returned(0));
    StepLeads(sys, l);
    r := Step(sys, l);
    LoopsHeld(sys, l);
  }

  lemma ComesHome(sys: System, h: Handle) returns (r: System)
    requires Good(sys) && h in sys.coroutines && sys.coroutines[h].status.Suspended?
    requires !sys.coroutines[h].status.phase.Posted?
    requires sys.coroutines[h].status.phase.Queued? ==> !TP.AllGone(sys.pool)
    ensures Good(r) && Leads(sys, r) && IsPosted(sys, r, h)
  {
    hide Good, Leads, AllHeld, TP.AllGone;
    match sys.coroutines[h].status.phase {
      case Queued =>
        var a, w := QueuedIsCalled(sys, h);
        var b := CalledIsFilled(a, h, w);
        r := FilledIsPosted(b, h, w);
        LeadsTwice(sys, a, b);
        LeadsTwice(sys, b, r);
        AllHeldTwice(sys.loops, a.loops, b.loops);
        AllHeldTwice(sys.loops, b.loops, r.loops);
      case Called(w) =>
        CarrierOf(sys, h);
        var b := CalledIsFilled(sys, h, w);
        r := FilledIsPosted(b, h, w);
        LeadsTwice(sys, b, r);
        AllHeldTwice(sys.loops, b.loops, r.loops);
      case Filled(w, _) =>
        CarrierOf(sys, h);
        r := FilledIsPosted(sys, h, w);
    }
  }

  lemma CarrierOf(sys: System, h: Handle)
    requires Good(sys) && h in sys.coroutines && sys.coroutines[h].status.Suspended?
    ensures match sys.coroutines[h].status.phase {
              case Called(w) => w in sys.closures && sys.closures[w] == Calling(h)
              case Filled(w, _) => w in sys.closures && sys.closures[w] == Returning(h)
              case _ => true
            }
  {
    hide QueueAgrees, LoopsAgree, WritesOwed, Parts, InRound;
  }

  // ---------- The exact condition ----------

  // A continuation takes h out of its suspension: its await is over and has its outcome.
  ghost predicate IsResumedIn(sys: System, r: System, h: Handle)
    requires h in sys.coroutines
  {
    h in r.coroutines && |r.coroutines[h].delivered| > |sys.coroutines[h].delivered|
  }

  lemma NotLostIsResumed(sys: System, h: Handle) returns (r: System)
    requires Good(sys) && h in sys.coroutines && sys.coroutines[h].status.Suspended? && !Lost(sys, h)
    ensures Leads(sys, r) && IsResumedIn(sys, r, h)
  {
    hide Good, Leads, EL.LastDrainOver, TP.AllGone, AllHeld;
    var s := sys.coroutines[h].status.src;
    HomeFacts(sys, h);
    if sys.coroutines[h].status.phase.Posted? {
      r := PostedIsResumed(sys, h, s);
    } else {
      var m := ComesHome(sys, h);
      HeldIsNotOver(sys.loops, m.loops, s);
      r := PostedIsResumed(m, h, s);
      LeadsTwice(sys, m, r);
    }
  }

  lemma HeldIsNotOver(loops: map<Sched, EL.State>, r: map<Sched, EL.State>, s: Sched)
    requires AllHeld(loops, r) && s in loops
    ensures s in r && EL.LastDrainOver(r[s]) == EL.LastDrainOver(loops[s])
  {
    assert Held(loops[s], r[s]);
  }

  lemma HomeFacts(sys: System, h: Handle)
    requires Good(sys) && h in sys.coroutines && sys.coroutines[h].status.Suspended?
    ensures var s := sys.coroutines[h].status.src;
            && s in sys.loops
            && (!sys.coroutines[h].status.phase.Posted? ==> h !in sys.loops[s].ready)
            && (sys.coroutines[h].status.phase.Posted? ==>
                  if h in sys.loops[s].ready then IsReady(sys, h, s) else h in sys.loops[s].handles)
  {
    hide QueueAgrees, ClosuresAgree, WritesOwed, Parts, NoneOf;
    var s := sys.coroutines[h].status.src;
    LoopFacts(sys);
    if sys.coroutines[h].status.phase.Posted? {
      HandleIsOnce(sys, h, s);
    } else {
      assert AtLoop(sys.loops[s], h) == 0;
    }
  }

  ghost predicate SomeRunResumes(sys: System, h: Handle)
    requires h in sys.coroutines
  {
    exists labels, r :: Reaches(sys, labels, r) && IsResumedIn(sys, r, h)
  }

  ghost predicate OrderlyRunResumes(sys: System, h: Handle)
    requires h in sys.coroutines
  {
    exists r :: Leads(sys, r) && IsResumedIn(sys, r, h)
  }

  lemma OrderlyIsSome(sys: System, h: Handle)
    requires h in sys.coroutines && OrderlyRunResumes(sys, h)
    ensures SomeRunResumes(sys, h)
  {
    var r :| Leads(sys, r) && IsResumedIn(sys, r, h);
    var labels :| Reaches(sys, labels, r) && forall l :: l in labels ==> Orderly(l);
    assert Reaches(sys, labels, r) && IsResumedIn(sys, r, h);
  }

  lemma LostHasNoRun(sys: System, h: Handle)
    requires Inv(sys) && Lost(sys, h)
    ensures !SomeRunResumes(sys, h)
  {
    hide Inv, Lost, Reaches;
    LostIsThere(sys, h);
    forall labels, r | Reaches(sys, labels, r)
      ensures !IsResumedIn(sys, r, h)
    {
      LostForGood(sys, labels, r, h);
    }
  }

  // In every reachable state, a suspended coroutine is resumed in some continuation if and
  // only if it is not lost: neither queued in a pool whose workers have all gone, nor suspended
  // on a loop that is past its last drain and does not have it ready.  And if it is not lost,
  // loops, pool and kernel get it there by themselves, with no signal, no spurious wakeup and
  // nothing more posted.
  lemma ResumedIffNotLost(start: System, before: seq<Label>, sys: System, h: Handle)
    requires Initial(start) && Reaches(start, before, sys)
    requires h in sys.coroutines && sys.coroutines[h].status.Suspended?
    ensures SomeRunResumes(sys, h) <==> !Lost(sys, h)
    ensures OrderlyRunResumes(sys, h) <==> !Lost(sys, h)
  {
    hide Inv, InRound, Lost, Reaches, Leads, SomeRunResumes;
    InitialIsGood(start);
    RunIsGood(start, before, sys);
    if Lost(sys, h) {
      LostHasNoRun(sys, h);
    } else {
      var r := NotLostIsResumed(sys, h);
    }
    if OrderlyRunResumes(sys, h) {
      OrderlyIsSome(sys, h);
    }
  }

  // The loop may leave while the closure is still at work: the coroutine is lost already.
  lemma LostWhileCalled(o: Outcome) returns (start: System, labels: seq<Label>, sys: System)
    ensures Initial(start) && Reaches(start, labels, sys)
    ensures Lost(sys, 0) && sys.coroutines[0].status == Suspended(0, Filled(0, o))
  {
    hide Reaches;
    var pool := TP.Initial(1);
    assert TP.Threads(1) == map[0 := TP.Awake];
    var pushed := TP.Step(pool, TP.Push(0));
    start := System(map[0 := EL.Initial()], pool, map[], map[]);
    labels, sys := LeavesWhileCalled(pushed, o);
    labels := CoroutineSubmits(pool, pushed, labels, sys);
    labels := LoopComesUp(pool, labels, sys);
  }
}
