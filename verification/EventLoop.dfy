// One scheduler's event loop, the threads that post to it and the kernel, as interleaved
// atomic steps: a mutex section, an atomic access, a system call or a kernel completion each.
// The loop runs once; every submission entry that it asks for is to be had.
module EventLoop {
  type Handle = nat   // a coroutine handle
  type Poster = nat   // a thread other than the loop's

  // A posted piece of code, by what it does to its scheduler: handles it makes ready, and
  // whether it calls stop().
  datatype Task = Task(readies: seq<Handle>, stops: bool)

  // Operations on the ring: the watcher's read of the eventfd, the no-op that stop() submits
  // on the loop's own thread, and everything else.
  datatype Op = Watcher | Nop | Other

  datatype Pc =
    | NotStarted   // before run(), or in it before the reset of stopping_
    | Entered      // after the reset, before the watcher's first read is prepared
    | Top          // at the loop condition
    | Drain        // about to swap the cross-thread queues out
    | RunTasks     // running the tasks swapped out
    | RunReady     // resuming ready coroutines
    | CheckStop    // at the second look at stopping_
    | Submit       // about to submit and wait
    | Waiting      // inside submit_and_wait
    | Process      // handling a batch of completions
    | Exited

  datatype State = State(
    pc: Pc,
    handles: seq<Handle>,     // cross_.handles
    tasks: seq<Task>,         // cross_.tasks
    swapped: seq<Task>,       // the local vector of drain_cross_queue
    ready: seq<Handle>,
    stopping: bool,
    owed: multiset<Poster>,   // posters that have published and not yet written the eventfd
    counter: nat,             // the eventfd's counter
    prepared: multiset<Op>,   // submission entries not yet submitted
    inflight: multiset<Op>,   // submitted and not completed
    cq: seq<Op>,              // completions not yet taken
    batch: seq<Op>,           // completions taken and not yet handled
    stopSent: bool)           // a task that calls stop() has been posted

  const BATCH: nat := 64

  // Threads other than the loop's.
  datatype PosterLabel =
    | Post(p: Poster, h: Handle)        // post: lock and push
    | PostTask(p: Poster, t: Task)      // post_task: lock and push
    | BootTask(t: Task)                 // queue_boot_task, before run()
    | RemoteStop(p: Poster)             // stop: the exchange
    | Write(p: Poster)                  // wake_remote: the write

  // run(), in program order.
  datatype LoopLabel =
    | Enter                             // the reset of stopping_
    | Arm                               // rearm_eventfd_watch
    | LoopTop | Swap | RunTask | TasksDone | Resume | ReadyDone | Check | SubmitAll
    | Wake                              // submit_and_wait returns and a batch is taken
    | Interrupted                       // it returns for a signal and there is nothing to take
    | Complete | BatchDone              // on_complete of one completion; cq_advance

  // What tasks, coroutines and completions do on the loop's thread besides.
  datatype CodeLabel =
    | PushReady(h: Handle)
    | Prepare
    | OwnStop

  datatype KernelLabel =
    | KernelRead                        // the counter is above zero
    | KernelFail                        // the read fails and leaves the counter alone
    | KernelOther(op: Op)               // another operation completes

  datatype Label =
    | ByPoster(p: PosterLabel)
    | ByLoop(l: LoopLabel)
    | ByCode(c: CodeLabel)
    | ByKernel(k: KernelLabel)

  predicate Enabled(s: State, l: Label) {
    match l
    case ByPoster(p) => PosterEnabled(s, p)
    case ByLoop(l) => LoopEnabled(s, l)
    case ByCode(_) => s.pc.RunTasks? || s.pc.RunReady? || s.pc.Process?
    case ByKernel(k) => KernelEnabled(s, k)
  }

  function Step(s: State, l: Label): State
    requires Enabled(s, l)
  {
    match l
    case ByPoster(p) => PosterStep(s, p)
    case ByLoop(l) => LoopStep(s, l)
    case ByCode(c) => CodeStep(s, c)
    case ByKernel(k) => KernelStep(s, k)
  }

  predicate PosterEnabled(s: State, l: PosterLabel) {
    match l
    case BootTask(_) => s.pc.NotStarted?
    case Write(p) => p in s.owed
    case _ => true
  }

  function PosterStep(s: State, l: PosterLabel): State
    requires PosterEnabled(s, l)
  {
    match l
    case Post(p, h) =>
      s.(handles := s.handles + [h], owed := s.owed + multiset{p})
    case PostTask(p, t) =>
      s.(tasks := s.tasks + [t], owed := s.owed + multiset{p}, stopSent := s.stopSent || t.stops)
    case BootTask(t) =>
      s.(tasks := s.tasks + [t], stopSent := s.stopSent || t.stops)
    case RemoteStop(p) =>
      if s.stopping then s else s.(stopping := true, owed := s.owed + multiset{p})
    case Write(p) =>
      s.(owed := s.owed - multiset{p}, counter := s.counter + 1)
  }

  predicate LoopEnabled(s: State, l: LoopLabel) {
    match l
    case Enter => s.pc.NotStarted?
    case Arm => s.pc.Entered?
    case LoopTop => s.pc.Top?
    case Swap => s.pc.Drain?
    case RunTask => s.pc.RunTasks? && s.swapped != []
    case TasksDone => s.pc.RunTasks? && s.swapped == []
    case Resume => s.pc.RunReady? && s.ready != []
    case ReadyDone => s.pc.RunReady? && s.ready == []
    case Check => s.pc.CheckStop?
    case SubmitAll => s.pc.Submit?
    case Wake => s.pc.Waiting? && s.cq != []
    case Interrupted => s.pc.Waiting? && s.cq == []
    case Complete => s.pc.Process? && s.batch != []
    case BatchDone => s.pc.Process? && s.batch == []
  }

  function LoopStep(s: State, l: LoopLabel): State
    requires LoopEnabled(s, l)
  {
    match l
    case Enter => s.(stopping := false, pc := Entered)
    case Arm => s.(prepared := s.prepared + multiset{Watcher}, pc := Top)
    case LoopTop => s.(pc := if s.stopping then Exited else Drain)
    case Swap =>
      s.(ready := s.ready + s.handles, handles := [], swapped := s.tasks, tasks := [], pc := RunTasks)
    case RunTask =>
      var t := s.swapped[0];
      var r := s.(swapped := s.swapped[1..], ready := s.ready + t.readies);
      if t.stops then StopHere(r) else r
    case TasksDone => s.(pc := RunReady)
    case Resume =>
      s.(ready := s.ready[1..])
    case ReadyDone => s.(pc := CheckStop)
    case Check => s.(pc := if s.stopping then Exited else Submit)
    case SubmitAll =>
      s.(inflight := s.inflight + s.prepared, prepared := multiset{}, pc := Waiting)
    case Wake =>
      var n := if |s.cq| < BATCH then |s.cq| else BATCH;
      s.(batch := s.cq[..n], cq := s.cq[n..], pc := Process)
    case Interrupted => s.(pc := Process)
    case Complete =>
      s.(batch := s.batch[1..],
         prepared := if s.batch[0].Watcher? then s.prepared + multiset{Watcher} else s.prepared)
    case BatchDone => s.(pc := Top)
  }

  // stop() on the loop's own thread: a no-op is prepared and everything prepared submitted.
  function StopHere(s: State): State {
    if s.stopping then s
    else s.(stopping := true,
            inflight := s.inflight + s.prepared + multiset{Nop},
            prepared := multiset{})
  }

  function CodeStep(s: State, l: CodeLabel): State {
    match l
    case PushReady(h) => s.(ready := s.ready + [h])
    case Prepare => s.(prepared := s.prepared + multiset{Other})
    case OwnStop => StopHere(s)
  }

  predicate KernelEnabled(s: State, l: KernelLabel) {
    match l
    case KernelRead => Watcher in s.inflight && s.counter > 0
    case KernelFail => Watcher in s.inflight
    case KernelOther(op) => op in s.inflight && !op.Watcher?
  }

  function KernelStep(s: State, l: KernelLabel): State
    requires KernelEnabled(s, l)
  {
    match l
    case KernelRead =>
      s.(counter := 0, inflight := s.inflight - multiset{Watcher}, cq := s.cq + [Watcher])
    case KernelFail =>
      s.(inflight := s.inflight - multiset{Watcher}, cq := s.cq + [Watcher])
    case KernelOther(op) =>
      s.(inflight := s.inflight - multiset{op}, cq := s.cq + [op])
  }

  function Initial(): State {
    State(NotStarted, [], [], [], [], false, multiset{}, 0, multiset{}, multiset{}, [], [], false)
  }

  // ---------- Invariants ----------

  predicate Started(pc: Pc) {
    !pc.NotStarted? && !pc.Entered?
  }

  // The watcher's read is at exactly one place once the loop has started.
  predicate OneWatcher(s: State) {
    s.prepared[Watcher] + s.inflight[Watcher] + multiset(s.cq)[Watcher] + multiset(s.batch)[Watcher]
      == if Started(s.pc) then 1 else 0
  }

  // What the loop holds locally at each point; in particular it never waits with a ready
  // coroutine, an unhandled completion or an unsubmitted entry.
  predicate Local(s: State) {
    && (s.batch != [] ==> s.pc.Process?)
    && (s.swapped != [] ==> s.pc.RunTasks?)
    && (s.pc.CheckStop? || s.pc.Submit? || s.pc.Waiting? ==> s.ready == [])
    && (s.pc.Waiting? ==> s.prepared == multiset{})
    && (s.pc.NotStarted? || s.pc.Entered? ==>
          && s.ready == [] && s.prepared == multiset{} && s.inflight == multiset{} && s.cq == [])
  }

  // Points from which the loop drains the cross-thread queues (or exits) before it waits.
  predicate DrainsFirst(pc: Pc) {
    pc.NotStarted? || pc.Entered? || pc.Top? || pc.Drain? || pc.Process? || pc.Exited?
  }

  // Points from which the loop looks at stopping_ before it waits.
  predicate ChecksFirst(pc: Pc) {
    !pc.Submit? && !pc.Waiting?
  }

  // Something is on its way that ends a wait.
  predicate WakeupPending(s: State) {
    s.owed != multiset{} || s.counter > 0 || Watcher in s.cq || Watcher in s.batch
  }

  predicate NoLostWakeup(s: State) {
    s.handles != [] || s.tasks != [] ==> WakeupPending(s) || DrainsFirst(s.pc)
  }

  predicate NoLostStop(s: State) {
    s.stopping ==> WakeupPending(s) || ChecksFirst(s.pc)
  }

  // A stop that was posted as a task has taken effect or is still queued.
  predicate StopTaskKept(s: State) {
    s.stopSent ==>
      || (exists t :: t in s.tasks && t.stops)
      || (exists t :: t in s.swapped && t.stops)
      || (s.stopping && Started(s.pc))
  }

  predicate Inv(s: State) {
    OneWatcher(s) && Local(s) && NoLostWakeup(s) && NoLostStop(s) && StopTaskKept(s)
  }

  lemma PosterKeeps(s: State, l: PosterLabel)
    requires Inv(s) && PosterEnabled(s, l)
    ensures Inv(PosterStep(s, l))
  {
    hide OneWatcher, Local, StopTaskKept, NoLostWakeup, NoLostStop, PosterStep;
    PosterKeepsStopTask(s, l);
    PosterKeepsWakeups(s, l);
    PosterKeepsRest(s, l);
  }

  lemma PosterKeepsWakeups(s: State, l: PosterLabel)
    requires PosterEnabled(s, l)
    ensures NoLostWakeup(s) ==> NoLostWakeup(PosterStep(s, l))
    ensures NoLostStop(s) ==> NoLostStop(PosterStep(s, l))
  {
    assert !l.Write? && !l.BootTask? && PosterStep(s, l) != s ==> l.p in PosterStep(s, l).owed;
  }

  lemma PosterKeepsRest(s: State, l: PosterLabel)
    requires PosterEnabled(s, l)
    ensures OneWatcher(s) ==> OneWatcher(PosterStep(s, l))
    ensures Local(s) ==> Local(PosterStep(s, l))
  {
  }

  lemma PosterKeepsStopTask(s: State, l: PosterLabel)
    requires StopTaskKept(s) && PosterEnabled(s, l)
    ensures StopTaskKept(PosterStep(s, l))
  {
    if l.PostTask? || l.BootTask? {
      assert forall t :: t in s.tasks + [l.t] <==> t in s.tasks || t == l.t;
    }
  }

  lemma CodeKeeps(s: State, l: CodeLabel)
    requires Inv(s) && Enabled(s, ByCode(l))
    ensures Inv(CodeStep(s, l))
  {
    hide OneWatcher, Local, StopTaskKept, NoLostWakeup, NoLostStop, CodeStep;
    CodeKeepsStopTask(s, l);
    CodeKeepsQueues(s, l);
    CodeKeepsRing(s, l);
  }

  lemma CodeKeepsStopTask(s: State, l: CodeLabel)
    requires StopTaskKept(s) && Enabled(s, ByCode(l))
    ensures StopTaskKept(CodeStep(s, l))
  {
  }

  lemma CodeKeepsQueues(s: State, l: CodeLabel)
    requires Enabled(s, ByCode(l))
    ensures NoLostWakeup(s) ==> NoLostWakeup(CodeStep(s, l))
    ensures NoLostStop(CodeStep(s, l))
  {
  }

  lemma CodeKeepsRing(s: State, l: CodeLabel)
    requires Enabled(s, ByCode(l))
    ensures OneWatcher(s) ==> OneWatcher(CodeStep(s, l))
    ensures Local(s) ==> Local(CodeStep(s, l))
  {
  }

  lemma KernelKeeps(s: State, l: KernelLabel)
    requires Inv(s) && KernelEnabled(s, l)
    ensures Inv(KernelStep(s, l))
  {
  }

  lemma CountSplit(ops: seq<Op>, n: nat)
    requires n <= |ops|
    ensures multiset(ops[..n])[Watcher] + multiset(ops[n..])[Watcher] == multiset(ops)[Watcher]
    ensures n == 1 ==> multiset(ops[..1])[Watcher] == if ops[0].Watcher? then 1 else 0
  {
    assert ops == ops[..n] + ops[n..];
    if n == 1 {
      assert ops[..1] == [ops[0]];
    }
  }

  lemma TakingKeepsWatcher(s: State)
    requires OneWatcher(s) && Local(s) && LoopEnabled(s, Wake)
    ensures OneWatcher(LoopStep(s, Wake))
  {
    CountSplit(s.cq, if |s.cq| < BATCH then |s.cq| else BATCH);
  }

  lemma HandlingKeepsWatcher(s: State)
    requires OneWatcher(s) && LoopEnabled(s, Complete)
    ensures OneWatcher(LoopStep(s, Complete))
  {
    CountSplit(s.batch, 1);
  }

  lemma LoopKeepsWatcher(s: State, l: LoopLabel)
    requires OneWatcher(s) && Local(s) && LoopEnabled(s, l)
    ensures OneWatcher(LoopStep(s, l))
  {
    hide OneWatcher, Local, LoopStep;
    if l.Wake? {
      TakingKeepsWatcher(s);
    } else if l.Complete? {
      HandlingKeepsWatcher(s);
    } else {
      LeavingKeepsWatcher(s, l);
    }
  }

  lemma LeavingKeepsWatcher(s: State, l: LoopLabel)
    requires OneWatcher(s) && Local(s) && LoopEnabled(s, l) && !l.Wake? && !l.Complete?
    ensures OneWatcher(LoopStep(s, l))
  {
    var r := LoopStep(s, l);
    SameTaken(s, l);
    if l.Arm? {
      assert r.prepared == s.prepared + multiset{Watcher} && r.inflight == s.inflight;
    } else if l.SubmitAll? {
      assert r.inflight == s.inflight + s.prepared;
    } else if l.RunTask? && s.swapped[0].stops && !s.stopping {
      assert r.inflight == s.inflight + s.prepared + multiset{Nop};
    } else {
      assert r.prepared == s.prepared && r.inflight == s.inflight;
    }
  }

  lemma SameTaken(s: State, l: LoopLabel)
    requires LoopEnabled(s, l) && !l.Wake? && !l.Complete?
    ensures LoopStep(s, l).cq == s.cq && LoopStep(s, l).batch == s.batch
    ensures !l.Arm? ==> Started(LoopStep(s, l).pc) == Started(s.pc)
  {
    hide LoopStep, LoopEnabled, Started;
    match l {
      case RunTask => TaskTakesNothing(s);
      case _ => OthersTakeNothing(s, l);
    }
  }

  lemma TaskTakesNothing(s: State)
    requires LoopEnabled(s, RunTask)
    ensures LoopStep(s, RunTask).cq == s.cq && LoopStep(s, RunTask).batch == s.batch
    ensures LoopStep(s, RunTask).pc == s.pc
  {
  }

  lemma OthersTakeNothing(s: State, l: LoopLabel)
    requires LoopEnabled(s, l) && !l.Wake? && !l.Complete? && !l.RunTask?
    ensures LoopStep(s, l).cq == s.cq && LoopStep(s, l).batch == s.batch
    ensures !l.Arm? ==> Started(LoopStep(s, l).pc) == Started(s.pc)
  {
  }

  lemma LoopKeepsLocal(s: State, l: LoopLabel)
    requires Local(s) && LoopEnabled(s, l)
    ensures Local(LoopStep(s, l))
  {
    hide Local, LoopStep;
    match l {
      case SubmitAll => SubmittingKeepsLocal(s);
      case RunTask => RunningKeepsLocal(s);
      case Wake => TakingKeepsLocal(s);
      case Complete => HandlingKeepsLocal(s);
      case _ => OthersKeepLocal(s, l);
    }
  }

  lemma SubmittingKeepsLocal(s: State)
    requires Local(s) && LoopEnabled(s, SubmitAll)
    ensures Local(LoopStep(s, SubmitAll))
  {
  }

  lemma RunningKeepsLocal(s: State)
    requires Local(s) && LoopEnabled(s, RunTask)
    ensures Local(LoopStep(s, RunTask))
  {
  }

  lemma TakingKeepsLocal(s: State)
    requires Local(s) && LoopEnabled(s, Wake)
    ensures Local(LoopStep(s, Wake))
  {
  }

  lemma HandlingKeepsLocal(s: State)
    requires Local(s) && LoopEnabled(s, Complete)
    ensures Local(LoopStep(s, Complete))
  {
  }

  lemma OthersKeepLocal(s: State, l: LoopLabel)
    requires Local(s) && LoopEnabled(s, l)
    requires !l.SubmitAll? && !l.RunTask? && !l.Wake? && !l.Complete?
    ensures Local(LoopStep(s, l))
  {
  }

  lemma LoopKeepsWakeups(s: State, l: LoopLabel)
    requires Local(s) && NoLostWakeup(s) && NoLostStop(s) && LoopEnabled(s, l)
    ensures NoLostWakeup(LoopStep(s, l)) && NoLostStop(LoopStep(s, l))
  {
    hide LoopStep, WakeupPending, Local;
    if l.Wake? || l.Complete? {
      ProcessingDrains(s, l);
    } else {
      SamePending(s, l);
      WaitComesLast(s, l);
    }
  }

  lemma ProcessingDrains(s: State, l: LoopLabel)
    requires LoopEnabled(s, l) && (l.Wake? || l.Complete?)
    ensures LoopStep(s, l).pc.Process?
  {
  }

  lemma SamePending(s: State, l: LoopLabel)
    requires LoopEnabled(s, l) && !l.Wake? && !l.Complete?
    ensures WakeupPending(LoopStep(s, l)) == WakeupPending(s)
  {
    hide LoopStep, LoopEnabled;
    SameTaken(s, l);
    SameOwed(s, l);
  }

  lemma SameOwed(s: State, l: LoopLabel)
    requires LoopEnabled(s, l)
    ensures LoopStep(s, l).owed == s.owed && LoopStep(s, l).counter == s.counter
  {
  }

  // The loop comes to a wait only by a drain and a look at stopping_.
  lemma WaitComesLast(s: State, l: LoopLabel)
    requires LoopEnabled(s, l)
    ensures var r := LoopStep(s, l);
            && (if l.Swap? then r.handles == [] && r.tasks == [] else r.handles == s.handles && r.tasks == s.tasks)
            && (DrainsFirst(s.pc) && !l.Swap? ==> DrainsFirst(r.pc))
            && (r.pc.Submit? ==> !r.stopping)
            && (r.pc.Waiting? ==> s.pc.Submit? && r.stopping == s.stopping)
  {
  }

  lemma LoopKeepsStopTask(s: State, l: LoopLabel)
    requires Local(s) && StopTaskKept(s) && LoopEnabled(s, l)
    ensures StopTaskKept(LoopStep(s, l))
  {
    hide StopTaskKept, LoopStep;
    match l {
      case RunTask => RunningKeepsStop(s);
      case Swap => SwappingKeepsStop(s);
      case _ => OthersKeepStop(s, l);
    }
  }

  lemma RunningKeepsStop(s: State)
    requires StopTaskKept(s) && LoopEnabled(s, RunTask)
    ensures StopTaskKept(LoopStep(s, RunTask))
  {
    assert forall u :: u in s.swapped ==> u == s.swapped[0] || u in s.swapped[1..];
  }

  lemma SwappingKeepsStop(s: State)
    requires Local(s) && StopTaskKept(s) && LoopEnabled(s, Swap)
    ensures StopTaskKept(LoopStep(s, Swap))
  {
  }

  lemma OthersKeepStop(s: State, l: LoopLabel)
    requires StopTaskKept(s) && LoopEnabled(s, l) && !l.RunTask? && !l.Swap?
    ensures StopTaskKept(LoopStep(s, l))
  {
    hide LoopStep, LoopEnabled;
    SameTasks(s, l);
  }

  lemma SameTasks(s: State, l: LoopLabel)
    requires LoopEnabled(s, l) && !l.RunTask? && !l.Swap?
    ensures var r := LoopStep(s, l);
            && r.tasks == s.tasks && r.swapped == s.swapped && r.stopSent == s.stopSent
            && (Started(s.pc) ==> Started(r.pc) && r.stopping == s.stopping)
  {
  }

  lemma StepKeepsInv(s: State, l: Label)
    requires Inv(s) && Enabled(s, l)
    ensures Inv(Step(s, l))
  {
    hide OneWatcher, Local, NoLostWakeup, NoLostStop, StopTaskKept;
    hide PosterStep, LoopStep, CodeStep, KernelStep;
    match l {
      case ByPoster(p) => PosterKeeps(s, p);
      case ByLoop(l) =>
        LoopKeepsWatcher(s, l);
        LoopKeepsLocal(s, l);
        LoopKeepsWakeups(s, l);
        LoopKeepsStopTask(s, l);
      case ByCode(c) => CodeKeeps(s, c);
      case ByKernel(k) => KernelKeeps(s, k);
    }
  }

  // ---------- Every interleaving ----------

  ghost predicate Reaches(s: State, labels: seq<Label>, t: State)
    decreases |labels|
  {
    if labels == [] then s == t
    else Enabled(s, labels[0]) && Reaches(Step(s, labels[0]), labels[1..], t)
  }

  lemma {:induction false} RunKeepsInv(s: State, labels: seq<Label>, t: State)
    requires Inv(s) && Reaches(s, labels, t)
    ensures Inv(t)
    decreases |labels|
  {
    hide Inv, Step, Enabled;
    if labels != [] {
      StepKeepsInv(s, labels[0]);
      RunKeepsInv(Step(s, labels[0]), labels[1..], t);
    }
  }

  lemma ExitedStays(s: State, l: Label)
    requires s.pc.Exited? && Enabled(s, l)
    ensures Step(s, l).pc.Exited?
  {
  }

  lemma InitialInv()
    ensures Inv(Initial())
  {
  }

  predicate Blocked(s: State) {
    s.pc.Waiting? && s.cq == []
  }

  // No lost wakeup: the loop never blocks on a posted handle, a posted task or a stop unless a
  // poster still owes its write or the kernel can complete the watcher's read; and it never
  // blocks with a coroutine that is ready or a completion that it has taken.
  lemma NoLostWakeups(labels: seq<Label>, t: State)
    requires Reaches(Initial(), labels, t) && Blocked(t)
    ensures t.handles != [] || t.tasks != [] || t.stopping || t.stopSent ==>
              t.owed != multiset{} || KernelEnabled(t, KernelRead)
    ensures t.ready == [] && t.swapped == [] && t.batch == [] && Watcher in t.inflight
  {
    InitialInv();
    RunKeepsInv(Initial(), labels, t);
    hide Reaches;
  }

  // The watcher's read is prepared, submitted or completed, never two of these and never none.
  lemma WatcherIsUnique(labels: seq<Label>, t: State)
    requires Reaches(Initial(), labels, t) && Started(t.pc)
    ensures t.prepared[Watcher] + t.inflight[Watcher] + multiset(t.cq + t.batch)[Watcher] == 1
  {
    InitialInv();
    RunKeepsInv(Initial(), labels, t);
    hide Reaches;
  }

  // Once the eventfd has been written, the kernel and the loop alone get from blocked to the
  // next drain (or, stopped, out of the loop).
  lemma WriteEndsWait(t: State) returns (labels: seq<Label>, u: State)
    requires Inv(t) && Blocked(t) && t.counter > 0
    ensures Reaches(t, labels, u)
    ensures forall l :: l in labels ==> (l.ByLoop? && !l.l.Interrupted?) || l.ByKernel?
    ensures if t.stopping then u.pc.Exited? else u.pc.Drain?
    ensures u.handles == t.handles && u.tasks == t.tasks
  {
    TakesWatcher(t);
    hide Inv, Reaches;
    var top := t.(pc := Top, counter := 0, prepared := t.prepared + multiset{Watcher},
                  inflight := t.inflight - multiset{Watcher});
    var wake := WokenUp(t, top);
    u := Step(top, ByLoop(LoopTop));
    assert Reaches(top, [ByLoop(LoopTop)], u) by {
      StepReaches(top, ByLoop(LoopTop));
    }
    ReachesTwice(t, wake, top, [ByLoop(LoopTop)], u);
    labels := wake + [ByLoop(LoopTop)];
  }

  lemma StepReaches(s: State, l: Label)
    requires Enabled(s, l)
    ensures Reaches(s, [l], Step(s, l))
  {
    assert Reaches(Step(s, l), [], Step(s, l));
  }

  lemma TakesWatcher(t: State)
    requires Inv(t) && Blocked(t)
    ensures Watcher in t.inflight && t.batch == []
  {
  }

  // ---------- What others than the loop leave alone ----------

  lemma PosterLeaves(x: State, l: PosterLabel)
    requires PosterEnabled(x, l)
    ensures var r := PosterStep(x, l); r.pc == x.pc && r.ready == x.ready && r.swapped == x.swapped
  {
  }

  lemma CodeLeaves(x: State, l: CodeLabel)
    ensures var r := CodeStep(x, l);
            && r.pc == x.pc && r.handles == x.handles && r.tasks == x.tasks && r.swapped == x.swapped
            && r.ready == x.ready + (if l.PushReady? then [l.h] else [])
  {
  }

  lemma KernelLeaves(x: State, l: KernelLabel)
    requires KernelEnabled(x, l)
    ensures var r := KernelStep(x, l);
            && r.pc == x.pc && r.handles == x.handles && r.tasks == x.tasks
            && r.ready == x.ready && r.swapped == x.swapped
  {
  }

  // ---------- Stops ----------

  lemma {:induction false} StoppingStays(s: State, labels: seq<Label>, t: State)
    requires s.stopping && !s.pc.NotStarted? && Reaches(s, labels, t)
    ensures t.stopping && !t.pc.NotStarted?
    decreases |labels|
  {
    if labels != [] {
      StoppingStays(Step(s, labels[0]), labels[1..], t);
    }
  }

  // A stop after the reset at the head of run() is final: from then on the loop exits, or a
  // wakeup is under way whenever it blocks.
  lemma StopIsNotLost(before: seq<Label>, s: State, labels: seq<Label>, t: State)
    requires Reaches(Initial(), before, s) && s.stopping && !s.pc.NotStarted?
    requires Reaches(s, labels, t)
    ensures t.stopping
    ensures Blocked(t) ==> t.owed != multiset{} || KernelEnabled(t, KernelRead)
  {
    InitialInv();
    RunKeepsInv(Initial(), before, s);
    RunKeepsInv(s, labels, t);
    StoppingStays(s, labels, t);
    hide Reaches;
  }

  ghost predicate StaysStopped(s: State) {
    forall labels, t :: Reaches(s, labels, t) ==> t.stopping
  }

  // A stop is final if and only if it comes after the reset: what is set before is cleared by
  // the run's first step.
  lemma StopStaysIff(s: State)
    requires s.stopping
    ensures StaysStopped(s) <==> !s.pc.NotStarted?
  {
    hide StaysStopped, Reaches;
    if s.pc.NotStarted? {
      ResetForgets(s);
    } else {
      assert StaysStopped(s) by {
        AfterResetStays(s);
      }
    }
  }

  lemma ResetForgets(s: State)
    requires s.pc.NotStarted?
    ensures !StaysStopped(s)
  {
    var l := ByLoop(Enter);
    assert LoopEnabled(s, Enter);
    StepReaches(s, l);
    var t := Step(s, l);
    assert Reaches(s, [l], t) && !t.stopping;
  }

  lemma AfterResetStays(s: State)
    requires s.stopping && !s.pc.NotStarted?
    ensures StaysStopped(s)
  {
    forall labels, t | Reaches(s, labels, t)
      ensures t.stopping
    {
      StoppingStays(s, labels, t);
    }
  }

  // The loop has drained the cross-thread queues for the last time: it has left, or is past
  // its drain and stopped or about to run a task that stops it.
  predicate LastDrainOver(s: State) {
    || s.pc.Exited?
    || (!s.pc.NotStarted? && !s.pc.Drain? && (s.stopping || exists t :: t in s.swapped && t.stops))
  }

  lemma LastDrainStays(s: State, l: Label)
    requires LastDrainOver(s) && Local(s) && Enabled(s, l)
    ensures LastDrainOver(Step(s, l)) && l != ByLoop(Swap)
  {
    hide LoopStep, PosterStep, CodeStep, KernelStep, LastDrainOver;
    match l {
      case ByLoop(l) => LoopKeepsLastDrain(s, l);
      case ByPoster(p) => PosterKeepsLastDrain(s, p);
      case ByCode(c) => CodeKeepsLastDrain(s, c);
      case ByKernel(k) => KernelKeepsLastDrain(s, k);
    }
  }

  lemma LoopKeepsLastDrain(s: State, l: LoopLabel)
    requires LastDrainOver(s) && Local(s) && LoopEnabled(s, l)
    ensures LastDrainOver(LoopStep(s, l)) && !l.Swap?
  {
    if l.RunTask? {
      assert forall u :: u in s.swapped ==> u == s.swapped[0] || u in s.swapped[1..];
    }
  }

  lemma PosterKeepsLastDrain(s: State, l: PosterLabel)
    requires LastDrainOver(s) && PosterEnabled(s, l)
    ensures LastDrainOver(PosterStep(s, l))
  {
  }

  lemma CodeKeepsLastDrain(s: State, l: CodeLabel)
    requires LastDrainOver(s)
    ensures LastDrainOver(CodeStep(s, l))
  {
  }

  lemma KernelKeepsLastDrain(s: State, l: KernelLabel)
    requires LastDrainOver(s) && KernelEnabled(s, l)
    ensures LastDrainOver(KernelStep(s, l))
  {
  }

  // A stop() that is posted as a task, be it before run(), has taken effect once the tasks
  // have been run, and then the loop never gets to another submission.
  lemma PostedStopTakesEffect(labels: seq<Label>, t: State)
    requires Reaches(Initial(), labels, t) && t.stopSent
    requires forall u :: u in t.tasks + t.swapped ==> !u.stops
    ensures t.stopping && Started(t.pc)
    ensures LoopEnabled(t, Check) ==> LoopStep(t, Check).pc.Exited?
    ensures LoopEnabled(t, LoopTop) ==> LoopStep(t, LoopTop).pc.Exited?
  {
    InitialInv();
    RunKeepsInv(Initial(), labels, t);
    hide Reaches;
    assert forall u :: u in t.tasks || u in t.swapped ==> u in t.tasks + t.swapped;
  }

  function OneRound(): seq<Label> {
    [ByLoop(LoopTop), ByLoop(Swap), ByLoop(TasksDone), ByLoop(ReadyDone), ByLoop(Check), ByLoop(SubmitAll)]
  }

  lemma {:induction false} ReachesTwice(s: State, a: seq<Label>, t: State, b: seq<Label>, u: State)
    requires Reaches(s, a, t) && Reaches(t, b, u)
    ensures Reaches(s, a + b, u)
    decreases |a|
  {
    hide Enabled, Step;
    if a == [] {
      assert a + b == b;
    } else {
      assert (a + b)[0] == a[0] && (a + b)[1..] == a[1..] + b;
      ReachesTwice(Step(s, a[0]), a[1..], t, b, u);
    }
  }

  // A round of the loop with nothing to do ends in a wait.
  lemma IdleRound(s: State)
    requires s.pc.Top? && !s.stopping && s.handles == [] && s.tasks == [] && s.ready == []
    ensures var t := s.(pc := Waiting, swapped := [],
                        inflight := s.inflight + s.prepared, prepared := multiset{});
            Reaches(s, OneRound(), t)
  {
    hide Reaches;
    var t := s.(pc := Waiting, swapped := [], inflight := s.inflight + s.prepared, prepared := multiset{});
    var base := s.(swapped := []);
    assert s.ready + s.handles == [];
    assert Reaches(t, [], t) by {
      StaysThere(t);
    }
    var l5 := StepsInto(base.(pc := Submit), ByLoop(SubmitAll), t, [], t);
    var l4 := StepsInto(base.(pc := CheckStop), ByLoop(Check), base.(pc := Submit), l5, t);
    var l3 := StepsInto(base.(pc := RunReady), ByLoop(ReadyDone), base.(pc := CheckStop), l4, t);
    var l2 := StepsInto(base.(pc := RunTasks), ByLoop(TasksDone), base.(pc := RunReady), l3, t);
    var l1 := StepsInto(s.(pc := Drain), ByLoop(Swap), base.(pc := RunTasks), l2, t);
    var l0 := StepsInto(s, ByLoop(LoopTop), s.(pc := Drain), l1, t);
    assert l0 == OneRound();
  }

  lemma StaysThere(s: State)
    ensures Reaches(s, [], s)
  {
  }

  lemma StepsInto(s: State, l: Label, m: State, rest: seq<Label>, t: State) returns (labels: seq<Label>)
    requires Enabled(s, l) && Step(s, l) == m && Reaches(m, rest, t)
    ensures labels == [l] + rest && Reaches(s, labels, t)
  {
    labels := [l] + rest;
    assert labels[1..] == rest;
  }

  // A stop() before run() resets stopping_ is forgotten: this run ends blocked, with the
  // eventfd written and read and nothing left that could ever end the wait by itself.
  lemma StopBeforeRunIsForgotten() returns (labels: seq<Label>, t: State)
    ensures ByPoster(RemoteStop(0)) in labels
    ensures Reaches(Initial(), labels, t) && Blocked(t)
    ensures !t.stopping && t.owed == multiset{} && !KernelEnabled(t, KernelRead)
  {
    hide Reaches, Step;
    var d := Initial().(pc := Top, counter := 1, prepared := multiset{Watcher});
    var first := StoppedThenStarted(d);
    IdleRound(d);
    var e := d.(pc := Waiting, inflight := multiset{Watcher}, prepared := multiset{});
    assert d.(swapped := [], inflight := d.inflight + d.prepared, pc := Waiting, prepared := multiset{}) == e;
    ReachesTwice(Initial(), first, d, OneRound(), e);
    var f := e.(pc := Top, counter := 0, prepared := multiset{Watcher}, inflight := multiset{});
    var wake := WokenUp(e, f);
    ReachesTwice(Initial(), first + OneRound(), e, wake, f);
    IdleRound(f);
    t := f.(pc := Waiting, swapped := [], inflight := f.inflight + f.prepared, prepared := multiset{});
    ReachesTwice(Initial(), first + OneRound() + wake, f, OneRound(), t);
    labels := first + OneRound() + wake + OneRound();
    assert labels[0] == first[0];
  }

  lemma StoppedThenStarted(d: State) returns (first: seq<Label>)
    requires d == Initial().(pc := Top, counter := 1, prepared := multiset{Watcher})
    ensures Reaches(Initial(), first, d) && first != [] && first[0] == ByPoster(RemoteStop(0))
  {
    var a := Initial().(stopping := true, owed := multiset{0});
    var b := a.(owed := multiset{}, counter := 1);
    var c := b.(stopping := false, pc := Entered);
    first := [ByPoster(RemoteStop(0)), ByPoster(Write(0)), ByLoop(Enter), ByLoop(Arm)];
    assert Step(a, ByPoster(Write(0))) == b;
    assert first[1..] == [ByPoster(Write(0)), ByLoop(Enter), ByLoop(Arm)];
    assert first[1..][1..] == [ByLoop(Enter), ByLoop(Arm)];
    assert first[1..][1..][1..] == [ByLoop(Arm)];
    assert Step(c, ByLoop(Arm)) == d;
    assert Reaches(d, [], d) && Reaches(c, [ByLoop(Arm)], d) && Reaches(b, first[1..][1..], d);
    assert Reaches(a, first[1..], d);
  }

  lemma WokenUp(e: State, f: State) returns (wake: seq<Label>)
    requires Blocked(e) && e.batch == [] && Watcher in e.inflight && e.counter > 0
    requires f == e.(pc := Top, counter := 0, prepared := e.prepared + multiset{Watcher},
                     inflight := e.inflight - multiset{Watcher})
    ensures Reaches(e, wake, f)
    ensures forall l :: l in wake ==> (l.ByLoop? && !l.l.Interrupted?) || l.ByKernel?
  {
    hide Reaches;
    var a := e.(inflight := e.inflight - multiset{Watcher}, counter := 0, cq := [Watcher]);
    var b := a.(cq := [], batch := [Watcher], pc := Process);
    var c := b.(batch := [], prepared := e.prepared + multiset{Watcher});
    StaysThere(f);
    wake := StepsInto(c, ByLoop(BatchDone), f, [], f);
    wake := StepsInto(b, ByLoop(Complete), c, wake, f);
    wake := StepsInto(a, ByLoop(Wake), b, wake, f);
    wake := StepsInto(e, ByKernel(KernelRead), a, wake, f);
  }
}
