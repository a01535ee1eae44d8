// What comes of everything that is handed to an event loop, told from the steps of a run alone:
// posted tasks run once and in order, handles are resumed as often as they were asked to be and
// in order, and every I/O operation is handled once.
module EventLoopRuns {
  import opened EventLoop

  // ---------- What the steps of a run ask for, and what it does ----------

  function AskedBy(l: Label): seq<Handle> {
    match l
    case ByPoster(Post(_, h)) => [h]
    case ByPoster(PostTask(_, t)) => t.readies
    case ByPoster(BootTask(t)) => t.readies
    case ByCode(PushReady(h)) => [h]
    case _ => []
  }

  // The handles that are to be resumed: those posted, those made ready by code, and those that
  // the posted tasks are going to make ready.
  function Asked(labels: seq<Label>): multiset<Handle> {
    if labels == [] then multiset{} else multiset(AskedBy(labels[0])) + Asked(labels[1..])
  }

  function TasksBy(l: Label): seq<Task> {
    match l
    case ByPoster(PostTask(_, t)) => [t]
    case ByPoster(BootTask(t)) => [t]
    case _ => []
  }

  function Tasks(labels: seq<Label>): seq<Task> {
    if labels == [] then [] else TasksBy(labels[0]) + Tasks(labels[1..])
  }

  // The handle that is resumed, the task that is run and the completion that is handled.
  function ResumedBy(s: State, l: Label): seq<Handle>
    requires Enabled(s, l)
  {
    if l == ByLoop(Resume) then [s.ready[0]] else []
  }

  function RunBy(s: State, l: Label): seq<Task>
    requires Enabled(s, l)
  {
    if l == ByLoop(RunTask) then [s.swapped[0]] else []
  }

  function HandledBy(s: State, l: Label): seq<Op>
    requires Enabled(s, l)
  {
    if l == ByLoop(Complete) then [s.batch[0]] else []
  }

  predicate Runs(s: State, labels: seq<Label>)
    decreases |labels|
  {
    labels == [] || (Enabled(s, labels[0]) && Runs(Step(s, labels[0]), labels[1..]))
  }

  function Resumed(s: State, labels: seq<Label>): seq<Handle>
    requires Runs(s, labels)
    decreases |labels|
  {
    if labels == [] then [] else ResumedBy(s, labels[0]) + Resumed(Step(s, labels[0]), labels[1..])
  }

  function Ran(s: State, labels: seq<Label>): seq<Task>
    requires Runs(s, labels)
    decreases |labels|
  {
    if labels == [] then [] else RunBy(s, labels[0]) + Ran(Step(s, labels[0]), labels[1..])
  }

  function Handled(s: State, labels: seq<Label>): seq<Op>
    requires Runs(s, labels)
    decreases |labels|
  {
    if labels == [] then [] else HandledBy(s, labels[0]) + Handled(Step(s, labels[0]), labels[1..])
  }

  lemma {:induction false} ReachesRuns(s: State, labels: seq<Label>, t: State)
    requires Reaches(s, labels, t)
    ensures Runs(s, labels)
    decreases |labels|
  {
    hide Enabled, Step;
    if labels != [] {
      ReachesRuns(Step(s, labels[0]), labels[1..], t);
    }
  }

  // ---------- Tasks ----------

  // What a step of the loop makes of the tasks.
  lemma TaskStep(s: State, l: Label)
    requires Enabled(s, l) && Local(s)
    ensures RunBy(s, l) + (Step(s, l).swapped + Step(s, l).tasks) == (s.swapped + s.tasks) + TasksBy(l)
  {
    hide LoopStep, PosterStep, CodeStep, KernelStep;
    match l {
      case ByLoop(ll) => LoopTaskStep(s, ll);
      case ByPoster(p) => PosterTaskStep(s, p);
      case ByCode(c) => CodeLeaves(s, c);
      case ByKernel(k) => KernelLeaves(s, k);
    }
  }

  lemma LoopTaskStep(s: State, l: LoopLabel)
    requires LoopEnabled(s, l) && Local(s)
    ensures var r := LoopStep(s, l);
            (if l.RunTask? then [s.swapped[0]] else []) + (r.swapped + r.tasks) == s.swapped + s.tasks
  {
    if l.RunTask? {
      assert s.swapped == [s.swapped[0]] + s.swapped[1..];
    } else if !l.Swap? {
      SameTasks(s, l);
    }
  }

  lemma PosterTaskStep(s: State, l: PosterLabel)
    requires PosterEnabled(s, l)
    ensures var r := PosterStep(s, l);
            r.swapped + r.tasks == (s.swapped + s.tasks) + TasksBy(ByPoster(l))
  {
  }

  lemma {:induction false} TasksKept(s: State, labels: seq<Label>, t: State)
    requires Inv(s) && Reaches(s, labels, t) && Runs(s, labels)
    ensures Ran(s, labels) + (t.swapped + t.tasks) == (s.swapped + s.tasks) + Tasks(labels)
    decreases |labels|
  {
    hide Inv, Enabled, Step, RunBy, TasksBy;
    if labels == [] {
      assert (s.swapped + s.tasks) + [] == s.swapped + s.tasks;
      assert [] + (s.swapped + s.tasks) == s.swapped + s.tasks;
    } else {
      var l := labels[0];
      var m := Step(s, l);
      IsLocal(s);
      StepKeepsInv(s, l);
      TaskStep(s, l);
      TasksKept(m, labels[1..], t);
      Shuffle(RunBy(s, l), Ran(m, labels[1..]), t.swapped + t.tasks, m.swapped + m.tasks, Tasks(labels[1..]),
              s.swapped + s.tasks, TasksBy(l));
    }
  }

  lemma IsLocal(s: State)
    requires Inv(s)
    ensures Local(s)
  {
  }

  lemma Shuffle<T>(a: seq<T>, b: seq<T>, c: seq<T>, d: seq<T>, e: seq<T>, f: seq<T>, g: seq<T>)
    requires b + c == d + e && a + d == f + g
    ensures (a + b) + c == f + (g + e)
  {
    assert (a + b) + c == a + (b + c);
    assert a + (d + e) == (a + d) + e;
    assert (f + g) + e == f + (g + e);
  }

  // Tasks are run once each and in the order in which they were posted; those not run yet are
  // the last ones, and they are queued or swapped out.
  lemma TasksRunInOrder(labels: seq<Label>, t: State)
    requires Reaches(Initial(), labels, t)
    ensures Runs(Initial(), labels) && Ran(Initial(), labels) + (t.swapped + t.tasks) == Tasks(labels)
  {
    ReachesRuns(Initial(), labels, t);
    InitialInv();
    TasksKept(Initial(), labels, t);
    hide Reaches, Runs, Ran, Tasks;
    assert [] + Tasks(labels) == Tasks(labels);
  }

  // ---------- Handles, by number ----------

  function Readies(tasks: seq<Task>): multiset<Handle> {
    if tasks == [] then multiset{} else multiset(tasks[0].readies) + Readies(tasks[1..])
  }

  lemma {:induction false} ReadiesConcat(a: seq<Task>, b: seq<Task>)
    ensures Readies(a + b) == Readies(a) + Readies(b)
  {
    if a == [] {
      assert a + b == b;
    } else {
      assert (a + b)[1..] == a[1..] + b;
      ReadiesConcat(a[1..], b);
    }
  }

  // The handles that the loop has taken over, and those that it has yet to take over.
  function Inside(s: State): multiset<Handle> {
    multiset(s.ready) + Readies(s.swapped)
  }

  function Outside(s: State): multiset<Handle> {
    multiset(s.handles) + Readies(s.tasks)
  }

  lemma HandleStep(s: State, l: Label)
    requires Enabled(s, l) && Local(s)
    ensures var r := Step(s, l);
            && Inside(r) + Outside(r) + multiset(ResumedBy(s, l)) == Inside(s) + Outside(s) + multiset(AskedBy(l))
            && (l != ByLoop(Swap) ==> forall h: Handle :: Inside(r)[h] + multiset(ResumedBy(s, l))[h] >= Inside(s)[h])
            && (l == ByLoop(Swap) ==> Outside(r) == multiset{})
  {
    hide LoopStep, PosterStep, CodeStep, KernelStep, LoopEnabled, PosterEnabled, KernelEnabled,
         Local, Inside, Outside;
    match l {
      case ByLoop(ll) => LoopHandleStep(s, ll);
      case ByPoster(p) => PosterHandleStep(s, p);
      case ByCode(c) => CodeHandleStep(s, c);
      case ByKernel(k) => KernelHandleStep(s, k);
    }
  }

  lemma CodeHandleStep(s: State, l: CodeLabel)
    ensures var r := CodeStep(s, l);
            && Inside(r) == Inside(s) + multiset(AskedBy(ByCode(l)))
            && Outside(r) == Outside(s)
  {
    CodeLeaves(s, l);
    hide CodeStep, Readies;
  }

  lemma KernelHandleStep(s: State, l: KernelLabel)
    requires KernelEnabled(s, l)
    ensures var r := KernelStep(s, l); Inside(r) == Inside(s) && Outside(r) == Outside(s)
  {
    KernelLeaves(s, l);
    hide KernelStep, Readies;
  }

  lemma LoopHandleStep(s: State, l: LoopLabel)
    requires LoopEnabled(s, l) && Local(s)
    ensures var r := LoopStep(s, l);
            var resumed := if l.Resume? then multiset{s.ready[0]} else multiset{};
            && Inside(r) + Outside(r) + resumed == Inside(s) + Outside(s)
            && (!l.Swap? ==> forall h: Handle :: Inside(r)[h] + resumed[h] >= Inside(s)[h])
            && (l.Swap? ==> Outside(r) == multiset{})
  {
    hide LoopStep, LoopEnabled, Local;
    match l {
      case Resume => ResumeHandleStep(s);
      case RunTask => TaskHandleStep(s);
      case Swap => SwapHandleStep(s);
      case _ => OtherHandleStep(s, l);
    }
  }

  lemma ResumeHandleStep(s: State)
    requires LoopEnabled(s, Resume)
    ensures var r := LoopStep(s, Resume);
            && Inside(r) + multiset{s.ready[0]} == Inside(s) && Outside(r) == Outside(s)
  {
    assert s.ready == [s.ready[0]] + s.ready[1..];
  }

  lemma TaskHandleStep(s: State)
    requires LoopEnabled(s, RunTask)
    ensures var r := LoopStep(s, RunTask); Inside(r) == Inside(s) && Outside(r) == Outside(s)
  {
    var r := LoopStep(s, RunTask);
    var first, rest := multiset(s.swapped[0].readies), Readies(s.swapped[1..]);
    assert Readies(s.swapped) == first + rest;
    hide Readies;
    assert r.swapped == s.swapped[1..] && r.handles == s.handles && r.tasks == s.tasks;
    assert multiset(r.ready) == multiset(s.ready) + first;
  }

  lemma SwapHandleStep(s: State)
    requires LoopEnabled(s, Swap) && Local(s)
    ensures var r := LoopStep(s, Swap);
            Inside(r) == Inside(s) + Outside(s) && Outside(r) == multiset{}
  {
  }

  lemma OtherHandleStep(s: State, l: LoopLabel)
    requires LoopEnabled(s, l) && !l.Resume? && !l.RunTask? && !l.Swap?
    ensures var r := LoopStep(s, l); Inside(r) == Inside(s) && Outside(r) == Outside(s)
  {
    SameTasks(s, l);
    WaitComesLast(s, l);
    SameReady(s, l);
    hide LoopStep;
  }

  lemma SameReady(s: State, l: LoopLabel)
    requires LoopEnabled(s, l) && !l.Resume? && !l.RunTask? && !l.Swap?
    ensures LoopStep(s, l).ready == s.ready
  {
  }

  lemma PosterHandleStep(s: State, l: PosterLabel)
    requires PosterEnabled(s, l)
    ensures var r := PosterStep(s, l);
            && Inside(r) == Inside(s)
            && Outside(r) == Outside(s) + multiset(AskedBy(ByPoster(l)))
  {
    if l.PostTask? || l.BootTask? {
      ReadiesConcat(s.tasks, [l.t]);
      assert [l.t][1..] == [];
    }
  }

  // As often as a handle has been asked for it is held or has been resumed.
  lemma {:induction false} HandlesKept(s: State, labels: seq<Label>, t: State)
    requires Inv(s) && Reaches(s, labels, t) && Runs(s, labels)
    ensures Inside(t) + Outside(t) + multiset(Resumed(s, labels)) == Inside(s) + Outside(s) + Asked(labels)
    decreases |labels|
  {
    hide Inv, Enabled, Step, ResumedBy, AskedBy, Inside, Outside;
    if labels != [] {
      var l := labels[0];
      IsLocal(s);
      StepKeepsInv(s, l);
      HandleStep(s, l);
      var m := Step(s, l);
      HandlesKept(m, labels[1..], t);
      var rest := Resumed(m, labels[1..]);
      assert multiset(ResumedBy(s, l) + rest) == multiset(ResumedBy(s, l)) + multiset(rest);
      Balance(Inside(t) + Outside(t), multiset(rest), Inside(m) + Outside(m), Asked(labels[1..]),
              multiset(ResumedBy(s, l)), Inside(s) + Outside(s), multiset(AskedBy(l)));
    }
  }

  lemma Balance<T>(a: multiset<T>, b: multiset<T>, c: multiset<T>, d: multiset<T>, e: multiset<T>,
                   f: multiset<T>, g: multiset<T>)
    requires a + b == c + d && c + e == f + g
    ensures a + (e + b) == f + (g + d)
  {
    assert a + (e + b) == (c + d) + e;
    assert f + (g + d) == (c + e) + d;
  }

  lemma HandlesAreConserved(labels: seq<Label>, t: State)
    requires Reaches(Initial(), labels, t)
    ensures Runs(Initial(), labels)
    ensures Inside(t) + Outside(t) + multiset(Resumed(Initial(), labels)) == Asked(labels)
  {
    ReachesRuns(Initial(), labels, t);
    InitialInv();
    HandlesKept(Initial(), labels, t);
    hide Reaches, Runs, Resumed, Asked;
  }

  // Since s, with n resumptions of h so far: the loop has not drained yet and all is still
  // there, or what was there has been taken over.
  predicate DrainedSince(s: State, x: State, h: Handle, n: nat) {
    || (DrainsFirst(x.pc) && Inside(x)[h] + Outside(x)[h] + n >= Inside(s)[h] + Outside(s)[h])
    || Inside(x)[h] + n >= Inside(s)[h] + Outside(s)[h]
  }

  lemma StepDrains(s: State, x: State, l: Label, h: Handle, n: nat)
    requires Local(x) && DrainedSince(s, x, h, n) && Enabled(x, l)
    ensures DrainedSince(s, Step(x, l), h, n + multiset(ResumedBy(x, l))[h])
  {
    hide Local, Inside, Outside, ResumedBy, AskedBy, LoopStep, PosterStep, CodeStep, KernelStep, DrainsFirst;
    HandleStep(x, l);
    PcStep(x, l);
    var r := Step(x, l);
    assert (Inside(r) + Outside(r) + multiset(ResumedBy(x, l)))[h]
        == (Inside(x) + Outside(x) + multiset(AskedBy(l)))[h];
  }

  lemma PcStep(x: State, l: Label)
    requires Enabled(x, l)
    ensures DrainsFirst(x.pc) && l != ByLoop(Swap) ==> DrainsFirst(Step(x, l).pc)
  {
    hide LoopStep, PosterStep, CodeStep, KernelStep, DrainsFirst;
    match l {
      case ByLoop(ll) => WaitComesLast(x, ll);
      case ByPoster(p) => PosterLeaves(x, p);
      case ByCode(c) => CodeLeaves(x, c);
      case ByKernel(k) => KernelLeaves(x, k);
    }
  }

  lemma {:induction false} RunDrains(s: State, x: State, labels: seq<Label>, t: State, h: Handle, n: nat)
    requires Inv(x) && DrainedSince(s, x, h, n) && Reaches(x, labels, t) && Runs(x, labels)
    ensures DrainedSince(s, t, h, n + multiset(Resumed(x, labels))[h])
    decreases |labels|
  {
    hide Inv, DrainedSince, Step, Enabled, ResumedBy;
    if labels != [] {
      var l := labels[0];
      IsLocal(x);
      StepKeepsInv(x, l);
      StepDrains(s, x, l, h, n);
      RunDrains(s, Step(x, l), labels[1..], t, h, n + multiset(ResumedBy(x, l))[h]);
    }
  }

  // Whatever has been asked for by a moment when the loop is not between a drain and its next
  // wait, directly or by a task yet to run, has been resumed as often when the loop next waits.
  lemma AskedIsResumed(before: seq<Label>, s: State, labels: seq<Label>, t: State, h: Handle)
    requires Reaches(Initial(), before, s) && DrainsFirst(s.pc)
    requires Reaches(s, labels, t) && t.pc.Waiting?
    ensures Runs(Initial(), before) && Runs(s, labels)
    ensures multiset(Resumed(Initial(), before))[h] + multiset(Resumed(s, labels))[h] >= Asked(before)[h]
  {
    hide Reaches, Runs, Resumed, Asked, Inv, Inside, Outside, DrainsFirst;
    HandlesAreConserved(before, s);
    ReachesRuns(s, labels, t);
    InitialInv();
    RunKeepsInv(Initial(), before, s);
    RunDrains(s, s, labels, t, h, 0);
    RunKeepsInv(s, labels, t);
    WaitsEmpty(t);
    assert (Inside(s) + Outside(s) + multiset(Resumed(Initial(), before)))[h] == Asked(before)[h];
  }

  lemma WaitsEmpty(t: State)
    requires Inv(t) && t.pc.Waiting?
    ensures Inside(t) == multiset{} && !DrainsFirst(t.pc)
  {
  }

  // ---------- Handles, by order ----------

  function Only(s: seq<Handle>, these: set<Handle>): seq<Handle> {
    if s == [] then [] else (if s[0] in these then [s[0]] else []) + Only(s[1..], these)
  }

  lemma {:induction false} OnlyConcat(a: seq<Handle>, b: seq<Handle>, these: set<Handle>)
    ensures Only(a + b, these) == Only(a, these) + Only(b, these)
  {
    if a == [] {
      assert a + b == b;
    } else {
      assert (a + b)[1..] == a[1..] + b && (a + b)[0] == a[0];
      OnlyConcat(a[1..], b, these);
      OnlyFirst(a, these);
      OnlyFirst(a + b, these);
      hide Only;
      var first := if a[0] in these then [a[0]] else [];
      assert (first + Only(a[1..], these)) + Only(b, these) == first + (Only(a[1..], these) + Only(b, these));
    }
  }

  lemma OnlyFirst(s: seq<Handle>, these: set<Handle>)
    requires s != []
    ensures Only(s, these) == (if s[0] in these then [s[0]] else []) + Only(s[1..], these)
  {
  }

  lemma {:induction false} OnlyNone(s: seq<Handle>, these: set<Handle>)
    requires forall h :: h in s ==> h !in these
    ensures Only(s, these) == []
  {
    if s != [] {
      OnlyNone(s[1..], these);
    }
  }

  // Handles that come by post only, and not by way of tasks or code on the loop's thread.
  predicate ByPostOnly(l: Label, these: set<Handle>) {
    match l
    case ByPoster(PostTask(_, t)) => forall h :: h in t.readies ==> h !in these
    case ByPoster(BootTask(t)) => forall h :: h in t.readies ==> h !in these
    case ByCode(PushReady(h)) => h !in these
    case _ => true
  }

  function PostedBy(l: Label): seq<Handle> {
    match l
    case ByPoster(Post(_, h)) => [h]
    case _ => []
  }

  function Posted(labels: seq<Label>): seq<Handle> {
    if labels == [] then [] else PostedBy(labels[0]) + Posted(labels[1..])
  }

  predicate TasksWithout(tasks: seq<Task>, these: set<Handle>) {
    forall t, h :: t in tasks && h in t.readies ==> h !in these
  }

  // The handles of interest on their way, in the order in which they will be resumed.
  function Line(s: State, these: set<Handle>): seq<Handle> {
    Only(s.ready, these) + Only(s.handles, these)
  }

  lemma LineStep(s: State, l: Label, these: set<Handle>)
    requires Enabled(s, l) && ByPostOnly(l, these)
    requires TasksWithout(s.tasks, these) && TasksWithout(s.swapped, these)
    ensures var r := Step(s, l);
            && TasksWithout(r.tasks, these) && TasksWithout(r.swapped, these)
            && Only(ResumedBy(s, l), these) + Line(r, these) == Line(s, these) + Only(PostedBy(l), these)
  {
    hide LoopStep, PosterStep, CodeStep, KernelStep, Only, TasksWithout;
    Nothing(these);
    match l {
      case ByLoop(ll) => LoopLineStep(s, ll, these);
      case ByPoster(p) => PosterLineStep(s, p, these);
      case ByCode(c) =>
        CodeLeaves(s, c);
        CodeLineStep(s, c, these);
      case ByKernel(k) => KernelLeaves(s, k);
    }
  }

  lemma Nothing(these: set<Handle>)
    ensures Only([], these) == [] && TasksWithout([], these)
  {
  }

  lemma CodeLineStep(s: State, l: CodeLabel, these: set<Handle>)
    requires l.PushReady? ==> l.h !in these
    ensures Only(CodeStep(s, l).ready, these) == Only(s.ready, these)
  {
    hide Only;
    if l.PushReady? {
      OnlyConcat(s.ready, [l.h], these);
      OnlyNone([l.h], these);
    }
  }

  lemma PosterLineStep(s: State, l: PosterLabel, these: set<Handle>)
    requires PosterEnabled(s, l) && ByPostOnly(ByPoster(l), these)
    requires TasksWithout(s.tasks, these) && TasksWithout(s.swapped, these)
    ensures var r := PosterStep(s, l);
            && TasksWithout(r.tasks, these) && TasksWithout(r.swapped, these)
            && Line(r, these) == Line(s, these) + Only(PostedBy(ByPoster(l)), these)
  {
    hide Only;
    Nothing(these);
    if l.Post? {
      OnlyConcat(s.handles, [l.h], these);
    }
  }

  lemma LoopLineStep(s: State, l: LoopLabel, these: set<Handle>)
    requires LoopEnabled(s, l) && TasksWithout(s.tasks, these) && TasksWithout(s.swapped, these)
    ensures var r := LoopStep(s, l);
            && TasksWithout(r.tasks, these) && TasksWithout(r.swapped, these)
            && Only(if l.Resume? then [s.ready[0]] else [], these) + Line(r, these) == Line(s, these)
  {
    hide Only, LoopStep, LoopEnabled, TasksWithout;
    Nothing(these);
    match l {
      case Resume => ResumeLineStep(s, these);
      case RunTask => TaskLineStep(s, these);
      case Swap => SwapLineStep(s, these);
      case _ =>
        SameTasks(s, l);
        WaitComesLast(s, l);
        SameReady(s, l);
    }
  }

  lemma ResumeLineStep(s: State, these: set<Handle>)
    requires LoopEnabled(s, Resume)
    ensures var r := LoopStep(s, Resume);
            && r.tasks == s.tasks && r.swapped == s.swapped
            && Only([s.ready[0]], these) + Line(r, these) == Line(s, these)
  {
    hide Only;
    assert s.ready == [s.ready[0]] + s.ready[1..];
    OnlyConcat([s.ready[0]], s.ready[1..], these);
  }

  lemma TaskLineStep(s: State, these: set<Handle>)
    requires LoopEnabled(s, RunTask) && TasksWithout(s.swapped, these)
    ensures var r := LoopStep(s, RunTask);
            && r.tasks == s.tasks && TasksWithout(r.swapped, these) && Line(r, these) == Line(s, these)
  {
    hide Only;
    var t := s.swapped[0];
    OnlyConcat(s.ready, t.readies, these);
    OnlyNone(t.readies, these);
  }

  lemma SwapLineStep(s: State, these: set<Handle>)
    requires LoopEnabled(s, Swap) && TasksWithout(s.tasks, these)
    ensures var r := LoopStep(s, Swap);
            && TasksWithout(r.tasks, these) && TasksWithout(r.swapped, these) && Line(r, these) == Line(s, these)
  {
    hide Only;
    Nothing(these);
    OnlyConcat(s.ready, s.handles, these);
  }

  lemma {:induction false} LineKept(s: State, labels: seq<Label>, t: State, these: set<Handle>)
    requires Reaches(s, labels, t) && Runs(s, labels) && forall l :: l in labels ==> ByPostOnly(l, these)
    requires TasksWithout(s.tasks, these) && TasksWithout(s.swapped, these)
    ensures Only(Resumed(s, labels), these) + Line(t, these) == Line(s, these) + Only(Posted(labels), these)
    decreases |labels|
  {
    hide Enabled, Step, ResumedBy, PostedBy, ByPostOnly, Only, TasksWithout, Line;
    Nothing(these);
    if labels == [] {
      assert [] + Line(s, these) == Line(s, these) == Line(s, these) + [];
    } else {
      var l := labels[0];
      var m := Step(s, l);
      assert l in labels && forall x :: x in labels[1..] ==> x in labels;
      LineStep(s, l, these);
      LineKept(m, labels[1..], t, these);
      OnlyConcat(ResumedBy(s, l), Resumed(m, labels[1..]), these);
      OnlyConcat(PostedBy(l), Posted(labels[1..]), these);
      Shuffle(Only(ResumedBy(s, l), these), Only(Resumed(m, labels[1..]), these), Line(t, these), Line(m, these),
              Only(Posted(labels[1..]), these), Line(s, these), Only(PostedBy(l), these));
    }
  }

  // Handles that come by post only are resumed in the order in which they were posted.
  lemma PostedResumeInOrder(labels: seq<Label>, t: State, these: set<Handle>)
    requires Reaches(Initial(), labels, t) && forall l :: l in labels ==> ByPostOnly(l, these)
    ensures Runs(Initial(), labels)
    ensures Only(Resumed(Initial(), labels), these) <= Only(Posted(labels), these)
    ensures Only(Resumed(Initial(), labels), these) + Line(t, these) == Only(Posted(labels), these)
  {
    ReachesRuns(Initial(), labels, t);
    LineKept(Initial(), labels, t, these);
    hide Reaches, Runs, Resumed, Posted;
    assert Line(Initial(), these) == [];
    assert [] + Only(Posted(labels), these) == Only(Posted(labels), these);
  }

  // ---------- Operations ----------

  function Prepares(labels: seq<Label>): nat {
    if labels == [] then 0 else (if labels[0] == ByCode(Prepare) then 1 else 0) + Prepares(labels[1..])
  }

  // I/O operations that are prepared, in flight, completed or in the batch at hand.
  function UnderWay(s: State): nat {
    s.prepared[Other] + s.inflight[Other] + multiset(s.cq)[Other] + multiset(s.batch)[Other]
  }

  lemma OpStep(s: State, l: Label)
    requires Enabled(s, l) && Local(s)
    ensures UnderWay(Step(s, l)) + multiset(HandledBy(s, l))[Other]
         == UnderWay(s) + (if l == ByCode(Prepare) then 1 else 0)
  {
    hide LoopStep, PosterStep, CodeStep, KernelStep, Local;
    match l {
      case ByLoop(ll) => LoopOpStep(s, ll);
      case ByPoster(p) => PosterOpStep(s, p);
      case ByCode(c) => CodeOpStep(s, c);
      case ByKernel(k) => KernelOpStep(s, k);
    }
  }

  lemma PosterOpStep(s: State, l: PosterLabel)
    requires PosterEnabled(s, l)
    ensures UnderWay(PosterStep(s, l)) == UnderWay(s)
  {
  }

  lemma CodeOpStep(s: State, l: CodeLabel)
    ensures UnderWay(CodeStep(s, l)) == UnderWay(s) + if l.Prepare? then 1 else 0
  {
  }

  lemma KernelOpStep(s: State, l: KernelLabel)
    requires KernelEnabled(s, l)
    ensures UnderWay(KernelStep(s, l)) == UnderWay(s)
  {
  }

  lemma LoopOpStep(s: State, l: LoopLabel)
    requires LoopEnabled(s, l) && Local(s)
    ensures UnderWay(LoopStep(s, l)) + multiset(if l.Complete? then [s.batch[0]] else [])[Other] == UnderWay(s)
  {
    hide LoopStep, LoopEnabled, Local;
    match l {
      case Wake => WakeOpStep(s);
      case Complete => CompleteOpStep(s);
      case _ => OtherOpStep(s, l);
    }
  }

  lemma WakeOpStep(s: State)
    requires LoopEnabled(s, Wake) && Local(s)
    ensures UnderWay(LoopStep(s, Wake)) == UnderWay(s)
  {
    var n := if |s.cq| < BATCH then |s.cq| else BATCH;
    assert s.cq == s.cq[..n] + s.cq[n..];
  }

  lemma CompleteOpStep(s: State)
    requires LoopEnabled(s, Complete)
    ensures UnderWay(LoopStep(s, Complete)) + multiset([s.batch[0]])[Other] == UnderWay(s)
  {
    assert s.batch == [s.batch[0]] + s.batch[1..];
  }

  lemma OtherOpStep(s: State, l: LoopLabel)
    requires LoopEnabled(s, l) && !l.Wake? && !l.Complete?
    ensures UnderWay(LoopStep(s, l)) == UnderWay(s)
  {
    SameTaken(s, l);
  }

  lemma {:induction false} OpsKept(s: State, labels: seq<Label>, t: State)
    requires Inv(s) && Reaches(s, labels, t) && Runs(s, labels)
    ensures UnderWay(t) + multiset(Handled(s, labels))[Other] == UnderWay(s) + Prepares(labels)
    decreases |labels|
  {
    hide Inv, Enabled, Step, HandledBy, UnderWay;
    if labels != [] {
      IsLocal(s);
      StepKeepsInv(s, labels[0]);
      OpStep(s, labels[0]);
      OpsKept(Step(s, labels[0]), labels[1..], t);
    }
  }

  // Every I/O operation that was prepared is under way or has been handled, once; and whenever
  // the loop waits, those under way have been submitted.
  lemma OperationsAreHandledOnce(labels: seq<Label>, t: State)
    requires Reaches(Initial(), labels, t)
    ensures Runs(Initial(), labels)
    ensures UnderWay(t) + multiset(Handled(Initial(), labels))[Other] == Prepares(labels)
    ensures t.pc.Waiting? ==> UnderWay(t) == t.inflight[Other] + multiset(t.cq)[Other]
  {
    ReachesRuns(Initial(), labels, t);
    InitialInv();
    OpsKept(Initial(), labels, t);
    RunKeepsInv(Initial(), labels, t);
    hide Reaches, Runs, Handled, Prepares;
  }

  // One wait takes at most 64 completions, the oldest first.
  lemma OneBatch(s: State)
    requires LoopEnabled(s, Wake) && Local(s)
    ensures var r := LoopStep(s, Wake);
            && r.batch + r.cq == s.cq && (|r.batch| == 64 || r.cq == []) && 0 < |r.batch| <= 64
  {
  }

  // ---------- Stops ----------

  lemma StopAgainDoesNothing(s: State, p: Poster)
    requires s.stopping
    ensures PosterStep(s, RemoteStop(p)) == s && CodeStep(s, OwnStop) == s
  {
  }

  // A stop from the loop's own thread submits everything prepared and a no-op that completes.
  lemma OwnStopWakes(s: State)
    requires !s.stopping
    ensures var r := CodeStep(s, OwnStop);
            r.stopping && r.prepared == multiset{} && r.inflight == s.inflight + s.prepared + multiset{Nop}
  {
  }

  lemma {:induction false} StopSentIff(s: State, labels: seq<Label>, t: State)
    requires Reaches(s, labels, t)
    ensures t.stopSent <==> s.stopSent || exists u :: u in Tasks(labels) && u.stops
    decreases |labels|
  {
    hide Enabled, Step, TasksBy;
    if labels != [] {
      OneStopSent(s, labels[0]);
      StopSentIff(Step(s, labels[0]), labels[1..], t);
    }
  }

  lemma OneStopSent(s: State, l: Label)
    requires Enabled(s, l)
    ensures Step(s, l).stopSent <==> s.stopSent || exists u :: u in TasksBy(l) && u.stops
  {
    if l.ByPoster? && (l.p.PostTask? || l.p.BootTask?) {
      assert l.p.t in TasksBy(l);
    }
  }

  // A task that calls stop(), posted at any time or booted, has stopped the loop once it is no
  // longer queued.
  lemma StoppingTaskStops(labels: seq<Label>, t: State, u: Task)
    requires Reaches(Initial(), labels, t) && u in Tasks(labels) && u.stops
    requires forall v :: v in t.tasks + t.swapped ==> !v.stops
    ensures t.stopping && Started(t.pc)
  {
    StopSentIff(Initial(), labels, t);
    PostedStopTakesEffect(labels, t);
  }
}
