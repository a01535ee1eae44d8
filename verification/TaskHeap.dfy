// Coroutine frames on the heap: who owns them, who continues whom, and the steps that the
// trampoline of symmetric transfer takes over them.
module TaskHeaps {
  import opened Options
  import opened TaskPrograms

  type Id = nat   // a coroutine handle

  // The Task object that owns a frame: a local variable of another frame.
  datatype Owner = Owner(frame: Id, slot: nat)

  datatype Frame = Frame(
    code: Body,                     // what is left to run
    env: Env,
    tasks: seq<Option<Id>>,         // handle_ of each local Task
    continuation: Option<Id>,       // continuation_; None is noop_coroutine
    result: Option<Outcome>,        // result_; set when the frame is at its final suspend
    pending: nat,                   // suspensions in Task::await_suspend without a resumption
    owner: Option<Owner>)           // None for the frame that the scheduler spawned

  datatype Heap = Heap(frames: map<Id, Frame>, next: Id, destroyed: set<Id>)

  // Where control goes: by a jump to a handle, or back to the event loop.
  datatype Control = Jump(to: Id) | Waits(at: Id) | Finished | Faulted

  datatype Turn = Turn(heap: Heap, control: Control)

  function HandleAt(f: Frame, i: nat): Option<Id> {
    if i < |f.tasks| then f.tasks[i] else None
  }

  // ---------- Steps ----------

  // A call of a coroutine function: a new frame at its initial suspend.
  function Create(h: Heap, code: Body, env: Env, owner: Option<Owner>): Heap {
    Heap(h.frames[h.next := Frame(code, env, [], None, None, 0, owner)], h.next + 1, h.destroyed)
  }

  function Declared(h: Heap, id: Id, child: Body, args: Env, next: Body): (r: Heap)
    requires id in h.frames
    ensures id in r.frames
  {
    var f := h.frames[id];
    var r := Create(h, child, args, Some(Owner(id, |f.tasks|)));
    r.(frames := r.frames[id := f.(tasks := f.tasks + [Some(h.next)], code := next)])
  }

  // The destructor of local Task i.
  function Reset(h: Heap, id: Id, i: nat): (r: Heap)
    requires id in h.frames
    ensures id in r.frames
  {
    var f := h.frames[id];
    match HandleAt(f, i)
    case None => h
    case Some(x) => Heap((h.frames - {x})[id := f.(tasks := f.tasks[i := None])], h.next, h.destroyed + {x})
  }

  // Move assignment between two local Tasks; on the same one it does nothing.
  function MoveTask(h: Heap, id: Id, to: nat, from: nat): (r: Heap)
    requires id in h.frames
    ensures id in r.frames
  {
    var n := |h.frames[id].tasks|;
    if to < n && from < n && to != from then Exchange(Reset(h, id, to), id, to, from) else h
  }

  function Exchange(h: Heap, id: Id, to: nat, from: nat): (r: Heap)
    requires id in h.frames
    requires to < |h.frames[id].tasks| && from < |h.frames[id].tasks|
    ensures id in r.frames
  {
    var f := h.frames[id];
    var t := f.tasks[from];
    var frames := h.frames[id := f.(tasks := f.tasks[to := t][from := None])];
    h.(frames := if t.Some? && t.value in frames
                 then frames[t.value := frames[t.value].(owner := Some(Owner(id, to)))]
                 else frames)
  }

  // The locals of a frame go, the last declared first.
  function ResetAll(h: Heap, id: Id, n: nat): (r: Heap)
    requires id in h.frames
    ensures id in r.frames
    decreases n
  {
    if n == 0 then h else ResetAll(Reset(h, id, n - 1), id, n - 1)
  }

  // The end of a body: its locals are destroyed and result_ is set.
  function Finish(h: Heap, id: Id, o: Outcome): Heap
    requires id in h.frames
  {
    var r := ResetAll(h, id, |h.frames[id].tasks|);
    r.(frames := r.frames[id := r.frames[id].(tasks := [], result := Some(o))])
  }

  function Goto(h: Heap, id: Id, code: Body, env: Env): Heap
    requires id in h.frames
  {
    h.(frames := h.frames[id := h.frames[id].(code := code, env := env)])
  }

  // Task::await_suspend
  function Suspend(h: Heap, caller: Id, task: Id): Heap
    requires caller in h.frames && task in h.frames
  {
    var frames := h.frames[task := h.frames[task].(continuation := Some(caller))];
    h.(frames := frames[caller := frames[caller].(pending := frames[caller].pending + 1)])
  }

  // Task::await_resume: the caller goes on with the outcome.
  function Resume(h: Heap, caller: Id, o: Outcome): (r: Heap)
    requires caller in h.frames && h.frames[caller].code.Await?
    ensures caller in r.frames
  {
    var f := h.frames[caller];
    h.(frames := h.frames[caller := f.(code := CodeAfter(f.code, o), env := EnvAfter(f.code, f.env, o),
                                       pending := if f.pending > 0 then f.pending - 1 else 0)])
  }

  // FinalAwaiter::await_suspend
  function Transfer(continuation: Option<Id>): Control {
    match continuation
    case None => Finished
    case Some(c) => Jump(c)
  }

  predicate Live(h: Heap, id: Id) {
    && id in h.frames
    && forall i :: 0 <= i < |h.frames[id].tasks| && h.frames[id].tasks[i].Some? ==>
         h.frames[id].tasks[i].value in h.frames
  }

  // One turn of the frame that has control.
  function Step(h: Heap, id: Id): Turn
    requires Live(h, id)
  {
    var f := h.frames[id];
    match f.code
    case Return(value) => Turn(Finish(h, id, Value(value(f.env))), Transfer(f.continuation))
    case Throw(error) => Turn(Finish(h, id, Exception(error(f.env))), Transfer(f.continuation))
    case If(test, yes, no) => Turn(Goto(h, id, if test(f.env) then yes else no, f.env), Jump(id))
    case Input(_) => Turn(h, Waits(id))
    case Declare(child, args, next) => Turn(Declared(h, id, child, args(f.env), next), Jump(id))
    case Move(to, from, next) => Turn(Goto(MoveTask(h, id, to, from), id, next, f.env), Jump(id))
    case Discard(task, next) => Turn(Goto(Reset(h, id, task), id, next, f.env), Jump(id))
    case Await(task, _, _) =>
      match HandleAt(f, task)
      case None => Turn(h, Faulted)
      case Some(x) =>
        if h.frames[x].result.Some? then Turn(Resume(h, id, h.frames[x].result.value), Jump(id))
        else Turn(Suspend(h, id, x), Jump(x))
  }

  // The event loop resumes a frame with what its I/O operation brought.
  function Feed(h: Heap, id: Id, v: int): Heap
    requires id in h.frames && h.frames[id].code.Input?
  {
    Goto(h, id, h.frames[id].code.next, h.frames[id].env + [v])
  }

  // ---------- Invariants ----------

  // Every handle ever given out is of a frame that exists or was destroyed, not both.
  ghost predicate Ids(h: Heap) {
    && h.frames.Keys !! h.destroyed
    && forall x: Id :: (x in h.frames || x in h.destroyed) <==> x < h.next
  }

  ghost predicate OwnedAt(frames: map<Id, Frame>, x: Id, f: Id, i: nat) {
    x in frames && frames[x].owner == Some(Owner(f, i))
  }

  // The Tasks of f and the frames that name f as their owner are the same.
  ghost predicate Holds(frames: map<Id, Frame>, f: Id)
    requires f in frames
  {
    && (forall i :: 0 <= i < |frames[f].tasks| && frames[f].tasks[i].Some? ==>
          OwnedAt(frames, frames[f].tasks[i].value, f, i))
    && (forall x {:trigger x in frames} :: x in frames && frames[x].owner.Some? && frames[x].owner.value.frame == f ==>
          HandleAt(frames[f], frames[x].owner.value.slot) == Some(x))
  }

  ghost predicate Ownership(frames: map<Id, Frame>, root: Id) {
    && root in frames
    && (forall f {:trigger f in frames} :: f in frames ==>
          && Holds(frames, f)
          && (frames[f].owner.None? <==> f == root)
          && (frames[f].owner.Some? ==> frames[f].owner.value.frame in frames))
  }

  // a awaits b and nothing else.
  ghost predicate Link(frames: map<Id, Frame>, a: Id, b: Id) {
    && a in frames && b in frames
    && frames[a].code.Await? && HandleAt(frames[a], frames[a].code.task) == Some(b)
    && frames[a].pending == 1 && frames[b].continuation == Some(a)
  }

  // The frames that have begun and not ended, from the spawned one up to the one that has
  // control, each awaiting the next.
  ghost predicate Chained(frames: map<Id, Frame>, chain: seq<Id>, root: Id) {
    && (forall i {:trigger chain[i]} :: 0 <= i < |chain| ==> chain[i] in frames && frames[chain[i]].result.None?)
    && (forall i, j :: 0 <= i < j < |chain| ==> chain[i] != chain[j])
    && (forall i, j :: 0 <= i && j == i + 1 && j < |chain| ==> Link(frames, chain[i], chain[j]))
    && (chain != [] ==> chain[0] == root && frames[root].continuation.None?)
  }

  // All others hold nothing and await nothing.
  ghost predicate Leaves(frames: map<Id, Frame>, chain: seq<Id>) {
    forall x {:trigger x in frames} :: x in frames && x !in chain ==> Leaf(frames[x])
  }

  predicate Leaf(f: Frame) {
    f.tasks == [] && f.pending == 0
  }

  // The frame in control waits for nothing, or it has just been continued by the Task that
  // it awaits, which is done.
  ghost predicate Ready(frames: map<Id, Frame>, top: Id)
    requires top in frames
  {
    var f := frames[top];
    || f.pending == 0
    || (f.pending == 1 && f.code.Await? && HandleAt(f, f.code.task).Some?
        && HandleAt(f, f.code.task).value in frames
        && frames[HandleAt(f, f.code.task).value].result.Some?)
  }

  ghost predicate Inv(h: Heap, root: Id, chain: seq<Id>) {
    && Ids(h)
    && Ownership(h.frames, root)
    && Chained(h.frames, chain, root)
    && Leaves(h.frames, chain)
    && (chain == [] ==> h.frames[root].result.Some? && !h.frames[root].result.value.Fault?)
    && (chain != [] ==> Ready(h.frames, chain[|chain| - 1]))
    && NoFaults(h.frames)
  }

  // A fault ends everything, so no frame ever has it as its outcome.
  ghost predicate NoFaults(frames: map<Id, Frame>) {
    forall x {:trigger x in frames} :: x in frames && frames[x].result.Some? ==> !frames[x].result.value.Fault?
  }

  function Top(chain: seq<Id>): Id
    requires chain != []
  {
    chain[|chain| - 1]
  }

  // ---------- A turn that leaves everybody else alone ----------

  ghost predicate Mine(frames: map<Id, Frame>, x: Id, top: Id) {
    x in frames && frames[x].owner.Some? && frames[x].owner.value.frame == top
  }

  // Frames change only if they are top or belong to it; what belongs to it is a leaf.
  ghost predicate Local(frames: map<Id, Frame>, r: map<Id, Frame>, top: Id) {
    && top in frames && top in r
    && r[top].owner == frames[top].owner && r[top].continuation == frames[top].continuation
    && Holds(r, top)
    && (forall x {:trigger x in frames} :: x in frames && x != top && !Mine(frames, x, top) ==>
          x in r && r[x] == frames[x])
    && (forall x {:trigger x in r} :: x in r && x != top ==> Mine(r, x, top) == (x !in frames || Mine(frames, x, top)))
    && (forall x {:trigger x in r} :: x in r && Mine(r, x, top) ==> Leaf(r[x]))
  }

  lemma ChainOwner(frames: map<Id, Frame>, root: Id, chain: seq<Id>, j: nat)
    requires Ownership(frames, root) && Chained(frames, chain, root) && j < |chain|
    ensures chain[j] in frames
    ensures j == 0 ==> frames[chain[j]].owner.None?
    ensures j > 0 ==> frames[chain[j]].owner.Some? && frames[chain[j]].owner.value.frame == chain[j - 1]
  {
    if j > 0 {
      assert Link(frames, chain[j - 1], chain[j]);
      assert Holds(frames, chain[j - 1]);
      assert OwnedAt(frames, chain[j], chain[j - 1], frames[chain[j - 1]].code.task);
    }
  }

  lemma ChildIsLeaf(frames: map<Id, Frame>, root: Id, chain: seq<Id>, x: Id)
    requires Ownership(frames, root) && Chained(frames, chain, root) && Leaves(frames, chain) && chain != []
    requires Mine(frames, x, Top(chain))
    ensures x !in chain && Leaf(frames[x]) && x != root
  {
    if x in chain {
      var j :| 0 <= j < |chain| && chain[j] == x;
      ChainOwner(frames, root, chain, j);
      assert false;
    }
  }

  lemma BelowIsOther(frames: map<Id, Frame>, root: Id, chain: seq<Id>, i: nat)
    requires Ownership(frames, root) && Chained(frames, chain, root) && Leaves(frames, chain)
    requires i < |chain| - 1
    ensures chain[i] in frames && chain[i] != Top(chain) && !Mine(frames, chain[i], Top(chain))
  {
    if Mine(frames, chain[i], Top(chain)) {
      ChildIsLeaf(frames, root, chain, chain[i]);
    }
  }

  lemma LocalKeepsHolds(frames: map<Id, Frame>, r: map<Id, Frame>, root: Id, chain: seq<Id>, f: Id)
    requires Ownership(frames, root) && Chained(frames, chain, root) && Leaves(frames, chain) && chain != []
    requires Local(frames, r, Top(chain)) && f in r
    ensures Holds(r, f)
  {
    var top := Top(chain);
    if f != top && !Mine(r, f, top) {
      assert f in frames && r[f] == frames[f] && Holds(frames, f);
      forall i | 0 <= i < |r[f].tasks| && r[f].tasks[i].Some?
        ensures OwnedAt(r, r[f].tasks[i].value, f, i)
      {
        assert OwnedAt(frames, r[f].tasks[i].value, f, i);
      }
    } else if f != top {
      NothingInLeaf(frames, r, root, chain, f);
    }
  }

  lemma NothingInLeaf(frames: map<Id, Frame>, r: map<Id, Frame>, root: Id, chain: seq<Id>, f: Id)
    requires Ownership(frames, root) && Chained(frames, chain, root) && Leaves(frames, chain) && chain != []
    requires Local(frames, r, Top(chain)) && f in r && f != Top(chain) && Mine(r, f, Top(chain))
    ensures r[f].tasks == []
    ensures forall x {:trigger x in r} :: x in r && r[x].owner.Some? ==> r[x].owner.value.frame != f
  {
    var top := Top(chain);
    if f in frames {
      ChildIsLeaf(frames, root, chain, f);
      assert Holds(frames, f);
    }
    forall x {:trigger x in r} | x in r && r[x].owner.Some?
      ensures r[x].owner.value.frame != f
    {
      if x == top || !Mine(r, x, top) {
        assert x in frames && r[x].owner == frames[x].owner;
        assert frames[x].owner.value.frame in frames;
        assert f in frames ==> HandleAt(frames[f], frames[x].owner.value.slot) != Some(x);
      }
    }
  }

  lemma OwnersStay(frames: map<Id, Frame>, r: map<Id, Frame>, root: Id, chain: seq<Id>, f: Id)
    requires Ownership(frames, root) && Chained(frames, chain, root) && Leaves(frames, chain) && chain != []
    requires Local(frames, r, Top(chain)) && f in frames && frames[f].owner.Some?
    ensures frames[f].owner.value.frame in r
  {
    var g := frames[f].owner.value.frame;
    assert Holds(frames, g);
    assert frames[g].tasks != [];
    if g != Top(chain) && Mine(frames, g, Top(chain)) {
      ChildIsLeaf(frames, root, chain, g);
      assert false;
    }
  }

  lemma LocalKeepsOwnership(frames: map<Id, Frame>, r: map<Id, Frame>, root: Id, chain: seq<Id>)
    requires Ownership(frames, root) && Chained(frames, chain, root) && Leaves(frames, chain) && chain != []
    requires Local(frames, r, Top(chain))
    ensures Ownership(r, root)
  {
    hide Holds, Leaves, Leaf, Link;
    var top := Top(chain);
    forall f {:trigger f in r} | f in r
      ensures Holds(r, f) && (r[f].owner.None? <==> f == root)
      ensures r[f].owner.Some? ==> r[f].owner.value.frame in r
    {
      LocalKeepsHolds(frames, r, root, chain, f);
      if f in frames && Mine(frames, f, top) && f != top {
        ChildIsLeaf(frames, root, chain, f);
      } else if f in frames && frames[f].owner.Some? {
        OwnersStay(frames, r, root, chain, f);
      }
    }
    assert frames[root].owner.None?;
  }

  lemma LocalKeepsChain(frames: map<Id, Frame>, r: map<Id, Frame>, root: Id, chain: seq<Id>)
    requires Ownership(frames, root) && Chained(frames, chain, root) && Leaves(frames, chain) && chain != []
    requires Local(frames, r, Top(chain))
    ensures Chained(r, chain[..|chain| - 1], root)
    ensures |chain| > 1 ==> Link(r, chain[|chain| - 2], Top(chain))
    ensures r[Top(chain)].result.None? ==> Chained(r, chain, root)
  {
    hide Holds, Leaves, Ownership, Mine;
    var below := chain[..|chain| - 1];
    forall i | 0 <= i < |below|
      ensures below[i] in r && r[below[i]] == frames[below[i]]
    {
      BelowIsOther(frames, root, chain, i);
    }
  }

  lemma LocalKeepsLeaves(frames: map<Id, Frame>, r: map<Id, Frame>, root: Id, chain: seq<Id>)
    requires Leaves(frames, chain) && chain != [] && Local(frames, r, Top(chain))
    ensures Leaves(r, chain)
    ensures Leaf(r[Top(chain)]) ==> Leaves(r, chain[..|chain| - 1])
  {
    hide Leaf, Holds;
    assert chain == chain[..|chain| - 1] + [Top(chain)];
  }

  // ---------- Reading the heap ----------

  // A Task variable as a value; the one being awaited is left blank.
  function SlotOf(frames: map<Id, Frame>, t: Option<Id>, awaited: Option<Id>): Slot {
    if t.None? || t == awaited || t.value !in frames then Empty
    else
      var f := frames[t.value];
      if f.result.Some? then Done(f.result.value) else Fresh(f.code, f.env)
  }

  function View(frames: map<Id, Frame>, id: Id, awaited: Option<Id>): Activation
    requires id in frames
  {
    var f := frames[id];
    Activation(f.code, f.env, seq(|f.tasks|, i requires 0 <= i < |f.tasks| => SlotOf(frames, f.tasks[i], awaited)))
  }

  predicate AllIn(frames: map<Id, Frame>, chain: seq<Id>) {
    forall i :: 0 <= i < |chain| ==> chain[i] in frames
  }

  function Pile(frames: map<Id, Frame>, chain: seq<Id>, awaited: Option<Id>): (pile: seq<Activation>)
    requires AllIn(frames, chain)
    ensures |pile| == |chain|
  {
    if chain == [] then []
    else Pile(frames, chain[..|chain| - 1], Some(Top(chain))) + [View(frames, Top(chain), awaited)]
  }

  // The pile of calls below the one in control reads the same after its turn.
  lemma {:induction false} LocalKeepsPile(frames: map<Id, Frame>, r: map<Id, Frame>, root: Id, chain: seq<Id>, n: nat)
    requires n < |chain| && AllIn(frames, chain) && AllIn(r, chain[..|chain| - 1])
    requires AllIn(r, chain[..n]) && AllIn(frames, chain[..n])
    requires Ownership(frames, root) && Chained(frames, chain, root) && Leaves(frames, chain)
    requires Local(frames, r, Top(chain))
    ensures Pile(r, chain[..n], Some(chain[n])) == Pile(frames, chain[..n], Some(chain[n]))
  {
    hide Leaves, Ownership, Local, Chained, Holds, View;
    if n > 0 {
      assert chain[n - 1] in frames && chain[..n][n - 1] in r;
      assert chain[..n][..n - 1] == chain[..n - 1];
      LocalKeepsPile(frames, r, root, chain, n - 1);
      LocalKeepsView(frames, r, root, chain, n - 1);
    }
  }

  lemma LocalKeepsView(frames: map<Id, Frame>, r: map<Id, Frame>, root: Id, chain: seq<Id>, n: nat)
    requires Ownership(frames, root) && Chained(frames, chain, root) && Leaves(frames, chain)
    requires n < |chain| - 1 && Local(frames, r, Top(chain))
    requires chain[n] in frames && chain[n] in r
    ensures View(r, chain[n], Some(chain[n + 1])) == View(frames, chain[n], Some(chain[n + 1]))
  {
    hide Leaves, Leaf;
    var f := chain[n];
    BelowIsOther(frames, root, chain, n);
    assert Holds(frames, f);
    forall i | 0 <= i < |frames[f].tasks|
      ensures SlotOf(r, frames[f].tasks[i], Some(chain[n + 1]))
           == SlotOf(frames, frames[f].tasks[i], Some(chain[n + 1]))
    {
      SlotKept(frames, r, root, chain, n, i);
    }
  }

  lemma SlotKept(frames: map<Id, Frame>, r: map<Id, Frame>, root: Id, chain: seq<Id>, n: nat, i: nat)
    requires Ownership(frames, root) && Chained(frames, chain, root) && Leaves(frames, chain)
    requires n < |chain| - 1 && Local(frames, r, Top(chain))
    requires chain[n] in frames && i < |frames[chain[n]].tasks|
    ensures var t := frames[chain[n]].tasks[i];
            SlotOf(r, t, Some(chain[n + 1])) == SlotOf(frames, t, Some(chain[n + 1]))
  {
    hide Leaves, Leaf, Ownership, Chained, Holds, Mine, Local;
    var f := chain[n];
    var top := Top(chain);
    var t := frames[f].tasks[i];
    if t.Some? {
      HeldIsOwned(frames, root, f, i);
      BelowIsOther(frames, root, chain, n);
      if t.value == top {
        TopIsAwaited(frames, root, chain, n, i);
      } else {
        OthersTasksStay(frames, r, top, f, i);
      }
    }
  }

  lemma HeldIsOwned(frames: map<Id, Frame>, root: Id, f: Id, i: nat)
    requires Ownership(frames, root) && f in frames && i < |frames[f].tasks| && frames[f].tasks[i].Some?
    ensures OwnedAt(frames, frames[f].tasks[i].value, f, i)
  {
    assert Holds(frames, f);
  }

  lemma OthersTasksStay(frames: map<Id, Frame>, r: map<Id, Frame>, top: Id, f: Id, i: nat)
    requires Local(frames, r, top) && f in frames && f != top
    requires i < |frames[f].tasks| && frames[f].tasks[i].Some?
    requires OwnedAt(frames, frames[f].tasks[i].value, f, i) && frames[f].tasks[i].value != top
    ensures var x := frames[f].tasks[i].value; x in frames && x in r && r[x] == frames[x]
  {
    hide Holds, Leaf;
  }

  // Only the frame just below holds the Task of the frame in control.
  lemma TopIsAwaited(frames: map<Id, Frame>, root: Id, chain: seq<Id>, n: nat, i: nat)
    requires Ownership(frames, root) && Chained(frames, chain, root)
    requires n < |chain| - 1 && OwnedAt(frames, Top(chain), chain[n], i)
    ensures n + 1 == |chain| - 1
  {
    var m := |chain| - 2;
    assert Link(frames, chain[m], chain[m + 1]);
    assert Holds(frames, chain[m]);
    assert OwnedAt(frames, Top(chain), chain[m], frames[chain[m]].code.task);
  }

  // ---------- What each operation does to the frame in control ----------

  ghost predicate Settled(h: Heap, top: Id) {
    && Ids(h) && NoFaults(h.frames)
    && top in h.frames && Holds(h.frames, top) && !Mine(h.frames, top, top)
    && (forall x {:trigger x in h.frames} :: x in h.frames && Mine(h.frames, x, top) ==> Leaf(h.frames[x]))
  }

  ghost predicate Turned(h: Heap, r: Heap, top: Id) {
    Settled(r, top) && Local(h.frames, r.frames, top)
  }

  lemma TurnedTwice(h: Heap, m: Heap, r: Heap, top: Id)
    requires Turned(h, m, top) && Turned(m, r, top)
    ensures Turned(h, r, top)
  {
    hide Ids, NoFaults, Holds, Leaf;
  }

  lemma TurnedByNothing(h: Heap, top: Id)
    requires Settled(h, top)
    ensures Turned(h, h, top)
  {
    hide Ids, NoFaults, Holds, Leaf;
  }

  lemma InvSettles(h: Heap, root: Id, chain: seq<Id>)
    requires Inv(h, root, chain) && chain != []
    ensures Settled(h, Top(chain)) && Live(h, Top(chain))
    ensures h.frames[Top(chain)].result.None?
  {
    hide Ids, NoFaults, Leaf, Ready;
    var top := Top(chain);
    assert Holds(h.frames, top);
    forall x {:trigger x in h.frames} | x in h.frames && Mine(h.frames, x, top)
      ensures Leaf(h.frames[x]) && x != top
    {
      ChildIsLeaf(h.frames, root, chain, x);
    }
    forall i | 0 <= i < |h.frames[top].tasks| && h.frames[top].tasks[i].Some?
      ensures h.frames[top].tasks[i].value in h.frames
    {
      assert OwnedAt(h.frames, h.frames[top].tasks[i].value, top, i);
    }
  }

  lemma GotoTurns(h: Heap, top: Id, code: Body, env: Env)
    requires Settled(h, top)
    ensures var r := Goto(h, top, code, env);
            && Turned(h, r, top)
            && View(r.frames, top, None) == View(h.frames, top, None).(code := code, env := env)
            && r.frames[top].pending == h.frames[top].pending && r.frames[top].result == h.frames[top].result
  {
    var r := Goto(h, top, code, env);
    forall i | 0 <= i < |h.frames[top].tasks|
      ensures SlotOf(r.frames, h.frames[top].tasks[i], None) == SlotOf(h.frames, h.frames[top].tasks[i], None)
    {
      if h.frames[top].tasks[i].Some? {
        ChildIsOther(h, top, i);
      }
    }
  }

  lemma ChildIsOther(h: Heap, top: Id, i: nat)
    requires Settled(h, top) && i < |h.frames[top].tasks| && h.frames[top].tasks[i].Some?
    ensures var x := h.frames[top].tasks[i].value;
            && x in h.frames && x != top && OwnedAt(h.frames, x, top, i)
            && Mine(h.frames, x, top) && Leaf(h.frames[x])
  {
    assert OwnedAt(h.frames, h.frames[top].tasks[i].value, top, i);
  }

  lemma ResetTurns(h: Heap, top: Id, i: nat)
    requires Settled(h, top)
    ensures var r := Reset(h, top, i);
            && Turned(h, r, top)
            && r.frames[top] == h.frames[top].(tasks := r.frames[top].tasks)
            && |r.frames[top].tasks| == |h.frames[top].tasks|
            && HandleAt(r.frames[top], i).None?
            && (forall j :: 0 <= j < |h.frames[top].tasks| && j != i ==>
                  r.frames[top].tasks[j] == h.frames[top].tasks[j])
  {
    var t := HandleAt(h.frames[top], i);
    if t.None? {
      TurnedByNothing(h, top);
    } else {
      ChildIsOther(h, top, i);
      ResetHolds(h, top, i);
    }
  }

  lemma ResetHolds(h: Heap, top: Id, i: nat)
    requires Settled(h, top) && i < |h.frames[top].tasks| && h.frames[top].tasks[i].Some?
    ensures Holds(Reset(h, top, i).frames, top)
  {
    var r := Reset(h, top, i);
    forall j | 0 <= j < |r.frames[top].tasks| && r.frames[top].tasks[j].Some?
      ensures OwnedAt(r.frames, r.frames[top].tasks[j].value, top, j)
    {
      ChildIsOther(h, top, i);
      ChildIsOther(h, top, j);
    }
  }

  lemma ResetViews(h: Heap, top: Id, i: nat)
    requires Settled(h, top)
    ensures var a := View(h.frames, top, None);
            View(Reset(h, top, i).frames, top, None) == a.(slots := Set(a.slots, i, Empty))
  {
    var r := Reset(h, top, i);
    ResetTurns(h, top, i);
    forall j | 0 <= j < |h.frames[top].tasks| && j != i
      ensures SlotOf(r.frames, h.frames[top].tasks[j], None) == SlotOf(h.frames, h.frames[top].tasks[j], None)
    {
      SlotOutlives(h, top, i, j);
    }
  }

  lemma SlotOutlives(h: Heap, top: Id, i: nat, j: nat)
    requires Settled(h, top) && j < |h.frames[top].tasks| && j != i
    ensures SlotOf(Reset(h, top, i).frames, h.frames[top].tasks[j], None)
         == SlotOf(h.frames, h.frames[top].tasks[j], None)
  {
    if h.frames[top].tasks[j].Some? {
      ChildIsOther(h, top, j);
      if HandleAt(h.frames[top], i).Some? {
        ChildIsOther(h, top, i);
      }
    }
  }

  lemma ExchangeTurns(h: Heap, top: Id, to: nat, from: nat)
    requires Settled(h, top) && to != from
    requires to < |h.frames[top].tasks| && from < |h.frames[top].tasks| && h.frames[top].tasks[to].None?
    ensures var r := Exchange(h, top, to, from);
            && Turned(h, r, top)
            && r.frames[top]
                 == h.frames[top].(tasks := h.frames[top].tasks[to := h.frames[top].tasks[from]][from := None])
  {
    if h.frames[top].tasks[from].Some? {
      ChildIsOther(h, top, from);
    }
    ExchangeHolds(h, top, to, from);
    hide Holds;
  }

  lemma ExchangeHolds(h: Heap, top: Id, to: nat, from: nat)
    requires Settled(h, top) && to != from
    requires to < |h.frames[top].tasks| && from < |h.frames[top].tasks| && h.frames[top].tasks[to].None?
    ensures Holds(Exchange(h, top, to, from).frames, top)
  {
    if h.frames[top].tasks[from].Some? {
      ChildIsOther(h, top, from);
    }
    var r := Exchange(h, top, to, from);
    forall j | 0 <= j < |r.frames[top].tasks| && r.frames[top].tasks[j].Some?
      ensures OwnedAt(r.frames, r.frames[top].tasks[j].value, top, j)
    {
      if j != to {
        ChildIsOther(h, top, j);
      }
    }
  }

  lemma ExchangeViews(h: Heap, top: Id, to: nat, from: nat)
    requires Settled(h, top) && to != from
    requires to < |h.frames[top].tasks| && from < |h.frames[top].tasks| && h.frames[top].tasks[to].None?
    ensures var a := View(h.frames, top, None);
            View(Exchange(h, top, to, from).frames, top, None) == a.(slots := Moved(a.slots, to, from))
  {
    var r := Exchange(h, top, to, from);
    var was := h.frames[top].tasks;
    ExchangeTurns(h, top, to, from);
    forall j | 0 <= j < |was|
      ensures SlotOf(r.frames, was[j], None) == SlotOf(h.frames, was[j], None)
    {
      if was[j].Some? {
        ChildIsOther(h, top, j);
      }
    }
  }

  lemma MoveTurns(h: Heap, top: Id, to: nat, from: nat)
    requires top in h.frames && Settled(h, top)
    ensures var r := MoveTask(h, top, to, from);
            && Turned(h, r, top)
            && r.frames[top].pending == h.frames[top].pending && r.frames[top].result == h.frames[top].result
            && (var a := View(h.frames, top, None);
                View(r.frames, top, None) == a.(slots := Moved(a.slots, to, from)))
  {
    hide Settled, Local, View, Exchange, Reset;
    var n := |h.frames[top].tasks|;
    SlotsCount(h.frames, top);
    if to < n && from < n && to != from {
      var m := Reset(h, top, to);
      ResetTurns(h, top, to);
      ResetViews(h, top, to);
      ExchangeTurns(m, top, to, from);
      ExchangeViews(m, top, to, from);
      TurnedTwice(h, m, Exchange(m, top, to, from), top);
    } else {
      TurnedByNothing(h, top);
    }
  }

  lemma SlotsCount(frames: map<Id, Frame>, id: Id)
    requires id in frames
    ensures |View(frames, id, None).slots| == |frames[id].tasks|
  {
  }

  lemma DeclaredTurns(h: Heap, top: Id, child: Body, args: Env, next: Body)
    requires Settled(h, top)
    ensures var r := Declared(h, top, child, args, next);
            && Turned(h, r, top)
            && r.frames[top].pending == h.frames[top].pending && r.frames[top].result == h.frames[top].result
  {
    hide Holds, Ids;
    DeclaredHolds(h, top, child, args, next);
    DeclaredIsFresh(h, top, child, args, next);
  }

  lemma DeclaredIsFresh(h: Heap, top: Id, child: Body, args: Env, next: Body)
    requires Ids(h) && top in h.frames
    ensures Ids(Declared(h, top, child, args, next)) && h.next !in h.frames
  {
  }

  lemma DeclaredHolds(h: Heap, top: Id, child: Body, args: Env, next: Body)
    requires Settled(h, top)
    ensures Holds(Declared(h, top, child, args, next).frames, top)
  {
    var r := Declared(h, top, child, args, next);
    forall j | 0 <= j < |r.frames[top].tasks| && r.frames[top].tasks[j].Some?
      ensures OwnedAt(r.frames, r.frames[top].tasks[j].value, top, j)
    {
      if j < |h.frames[top].tasks| {
        ChildIsOther(h, top, j);
      }
    }
  }

  lemma DeclaredViews(h: Heap, top: Id, child: Body, args: Env, next: Body)
    requires Settled(h, top)
    ensures var a := View(h.frames, top, None);
            View(Declared(h, top, child, args, next).frames, top, None)
              == a.(code := next, slots := a.slots + [Fresh(child, args)])
  {
    var r := Declared(h, top, child, args, next);
    forall j | 0 <= j < |h.frames[top].tasks|
      ensures SlotOf(r.frames, h.frames[top].tasks[j], None) == SlotOf(h.frames, h.frames[top].tasks[j], None)
    {
      if h.frames[top].tasks[j].Some? {
        ChildIsOther(h, top, j);
      }
    }
  }

  lemma {:induction false} ResetAllTurns(h: Heap, top: Id, n: nat)
    requires top in h.frames && Settled(h, top) && n <= |h.frames[top].tasks|
    requires forall i :: n <= i < |h.frames[top].tasks| ==> h.frames[top].tasks[i].None?
    ensures var r := ResetAll(h, top, n);
            && Turned(h, r, top)
            && r.frames[top] == h.frames[top].(tasks := r.frames[top].tasks)
            && (forall i :: 0 <= i < |r.frames[top].tasks| ==> r.frames[top].tasks[i].None?)
    decreases n
  {
    hide Settled, Local, Reset;
    if n == 0 {
      TurnedByNothing(h, top);
    } else {
      var m := Reset(h, top, n - 1);
      ResetTurns(h, top, n - 1);
      ResetAllTurns(m, top, n - 1);
      TurnedTwice(h, m, ResetAll(m, top, n - 1), top);
    }
  }

  lemma ClearTurns(h: Heap, top: Id, o: Outcome)
    requires Settled(h, top) && !o.Fault?
    requires forall i :: 0 <= i < |h.frames[top].tasks| ==> h.frames[top].tasks[i].None?
    ensures var r := h.(frames := h.frames[top := h.frames[top].(tasks := [], result := Some(o))]);
            Turned(h, r, top)
  {
  }

  lemma FinishTurns(h: Heap, top: Id, o: Outcome)
    requires top in h.frames && Settled(h, top) && !o.Fault?
    ensures var r := Finish(h, top, o);
            && Turned(h, r, top)
            && r.frames[top] == h.frames[top].(tasks := [], result := Some(o))
  {
    hide Settled, Local, ResetAll;
    var n := |h.frames[top].tasks|;
    var m := ResetAll(h, top, n);
    ResetAllTurns(h, top, n);
    ClearTurns(m, top, o);
    TurnedTwice(h, m, Finish(h, top, o), top);
  }

  lemma SuspendTurns(h: Heap, top: Id, i: nat)
    requires Settled(h, top) && HandleAt(h.frames[top], i).Some?
    requires HandleAt(h.frames[top], i).value in h.frames
    ensures var x := HandleAt(h.frames[top], i).value;
            var r := Suspend(h, top, x);
            && Turned(h, r, top) && x != top
            && r.frames[top] == h.frames[top].(pending := h.frames[top].pending + 1)
            && r.frames[x] == h.frames[x].(continuation := Some(top))
  {
    ChildIsOther(h, top, i);
    SuspendHolds(h, top, i);
    hide Holds;
  }

  lemma SuspendHolds(h: Heap, top: Id, i: nat)
    requires Settled(h, top) && HandleAt(h.frames[top], i).Some?
    requires HandleAt(h.frames[top], i).value in h.frames
    ensures Holds(Suspend(h, top, HandleAt(h.frames[top], i).value).frames, top)
  {
    ChildIsOther(h, top, i);
    var r := Suspend(h, top, HandleAt(h.frames[top], i).value);
    forall j | 0 <= j < |r.frames[top].tasks| && r.frames[top].tasks[j].Some?
      ensures OwnedAt(r.frames, r.frames[top].tasks[j].value, top, j)
    {
      ChildIsOther(h, top, j);
    }
  }

  lemma ResumeTurns(h: Heap, top: Id, o: Outcome)
    requires Settled(h, top) && h.frames[top].code.Await?
    ensures var r := Resume(h, top, o);
            && Turned(h, r, top) && r.frames[top].result == h.frames[top].result
            && View(r.frames, top, None) == Taken(View(h.frames, top, None), o)
            && (h.frames[top].pending <= 1 ==> r.frames[top].pending == 0)
  {
    var r := Resume(h, top, o);
    forall i | 0 <= i < |h.frames[top].tasks|
      ensures SlotOf(r.frames, h.frames[top].tasks[i], None) == SlotOf(h.frames, h.frames[top].tasks[i], None)
    {
      if h.frames[top].tasks[i].Some? {
        ChildIsOther(h, top, i);
      }
    }
  }

  // ---------- Every turn ----------

  // The chain after a turn of its topmost frame.
  function Next(h: Heap, chain: seq<Id>): seq<Id>
    requires chain != [] && Live(h, Top(chain))
  {
    var f := h.frames[Top(chain)];
    if f.code.Return? || f.code.Throw? then chain[..|chain| - 1]
    else if f.code.Await? && HandleAt(f, f.code.task).Some?
            && h.frames[HandleAt(f, f.code.task).value].result.None?
    then chain + [HandleAt(f, f.code.task).value]
    else chain
  }

  // The outcome that a running chain of frames is going to have.
  function Meaning(h: Heap, root: Id, chain: seq<Id>, input: nat -> int, k: nat): Result
    requires root in h.frames && AllIn(h.frames, chain)
    requires chain == [] ==> h.frames[root].result.Some?
  {
    if chain == [] then Result(h.frames[root].result.value, k)
    else
      Unwind(Pile(h.frames, chain[..|chain| - 1], Some(Top(chain))),
             EvalOf(View(h.frames, Top(chain), None), input, k), input)
  }

  function Work(h: Heap, chain: seq<Id>): nat
    requires AllIn(h.frames, chain)
  {
    PileSize(Pile(h.frames, chain, None))
  }

  lemma InvChain(h: Heap, root: Id, chain: seq<Id>)
    requires Inv(h, root, chain)
    ensures AllIn(h.frames, chain) && root in h.frames && (chain == [] ==> h.frames[root].result.Some?)
    ensures chain != [] ==> AllIn(h.frames, chain[..|chain| - 1]) && Top(chain) in h.frames
    ensures chain != [] ==> Ready(h.frames, Top(chain))
  {
  }

  lemma TurnKeepsInv(h: Heap, r: Heap, root: Id, chain: seq<Id>)
    requires Inv(h, root, chain) && chain != [] && Turned(h, r, Top(chain))
    requires r.frames[Top(chain)].result.None? && Ready(r.frames, Top(chain))
    ensures Inv(r, root, chain)
  {
    hide Ids, NoFaults, Holds, Mine, Leaf, Link;
    LocalKeepsOwnership(h.frames, r.frames, root, chain);
    LocalKeepsChain(h.frames, r.frames, root, chain);
    LocalKeepsLeaves(h.frames, r.frames, root, chain);
  }

  lemma TurnKeepsMeaning(h: Heap, r: Heap, root: Id, chain: seq<Id>, input: nat -> int,
                         k: nat, m: nat)
    requires chain != [] && AllIn(h.frames, chain) && AllIn(r.frames, chain) && root in h.frames && root in r.frames
    requires Inv(h, root, chain) && Turned(h, r, Top(chain))
    requires SameMeaning(View(h.frames, Top(chain), None), k, View(r.frames, Top(chain), None), m, input)
    ensures Meaning(r, root, chain, input, m) == Meaning(h, root, chain, input, k)
    ensures Work(r, chain) < Work(h, chain)
  {
    hide Ids, NoFaults, Holds, Mine, Leaf, Link, Chained, Leaves, Ownership, Local, View, EvalOf, ActivationSize,
         Unwind;
    var n := |chain| - 1;
    assert chain[..n] == chain[..|chain| - 1];
    LocalKeepsPile(h.frames, r.frames, root, chain, n);
  }

  // A turn that ends with the same frame in control.
  ghost predicate StepsOn(h: Heap, r: Heap, top: Id, input: nat -> int, k: nat) {
    && top in h.frames && top in r.frames
    && Turned(h, r, top)
    && r.frames[top].result.None? && r.frames[top].pending == 0
    && SameMeaning(View(h.frames, top, None), k, View(r.frames, top, None), k, input)
  }

  predicate Calm(h: Heap, top: Id) {
    Live(h, top) && h.frames[top].result.None? && h.frames[top].pending == 0
  }

  lemma IfStepsOn(h: Heap, top: Id, input: nat -> int, k: nat)
    requires Calm(h, top) && Settled(h, top) && h.frames[top].code.If?
    ensures StepsOn(h, Step(h, top).heap, top, input, k)
  {
    hide Settled, Local, View;
    var f := h.frames[top];
    GotoTurns(h, top, if f.code.test(f.env) then f.code.yes else f.code.no, f.env);
    ViewReads(h.frames, top);
  }

  lemma ViewReads(frames: map<Id, Frame>, id: Id)
    requires id in frames
    ensures var a := View(frames, id, None);
            && a.code == frames[id].code && a.env == frames[id].env && |a.slots| == |frames[id].tasks|
  {
  }

  lemma MoveStepsOn(h: Heap, top: Id, input: nat -> int, k: nat)
    requires Calm(h, top) && Settled(h, top) && h.frames[top].code.Move?
    ensures StepsOn(h, Step(h, top).heap, top, input, k)
  {
    hide Settled, Local, View, MoveTask;
    var f := h.frames[top];
    var m := MoveTask(h, top, f.code.to, f.code.from);
    MoveTurns(h, top, f.code.to, f.code.from);
    GotoTurns(m, top, f.code.next, f.env);
    TurnedTwice(h, m, Goto(m, top, f.code.next, f.env), top);
    ViewReads(h.frames, top);
    MovedSize(View(h.frames, top, None).slots, f.code.to, f.code.from);
  }

  lemma DiscardStepsOn(h: Heap, top: Id, input: nat -> int, k: nat)
    requires Calm(h, top) && Settled(h, top) && h.frames[top].code.Discard?
    ensures StepsOn(h, Step(h, top).heap, top, input, k)
  {
    hide Settled, Local, View, Reset;
    var f := h.frames[top];
    var m := Reset(h, top, f.code.task);
    ResetTurns(h, top, f.code.task);
    ResetViews(h, top, f.code.task);
    GotoTurns(m, top, f.code.next, f.env);
    TurnedTwice(h, m, Goto(m, top, f.code.next, f.env), top);
    ViewReads(h.frames, top);
    SetSmaller(View(h.frames, top, None).slots, f.code.task, Empty);
  }

  lemma DeclareStepsOn(h: Heap, top: Id, input: nat -> int, k: nat)
    requires Calm(h, top) && Settled(h, top) && h.frames[top].code.Declare?
    ensures StepsOn(h, Step(h, top).heap, top, input, k)
  {
    hide Settled, Local, View, Declared;
    var f := h.frames[top];
    DeclaredTurns(h, top, f.code.child, f.code.args(f.env), f.code.next);
    DeclaredViews(h, top, f.code.child, f.code.args(f.env), f.code.next);
    ViewReads(h.frames, top);
    var a := View(h.frames, top, None);
    var made := Fresh(f.code.child, f.code.args(f.env));
    AppendSize(a.slots, made);
    assert EvalOf(a, input, k) == Eval(f.code.next, f.env, a.slots + [made], input, k);
    assert StepsOn(h, Step(h, top).heap, top, input, k);
  }

  lemma TakeStepsOn(h: Heap, top: Id, input: nat -> int, k: nat)
    requires Live(h, top) && Settled(h, top) && h.frames[top].code.Await?
    requires h.frames[top].result.None? && h.frames[top].pending <= 1
    requires HandleAt(h.frames[top], h.frames[top].code.task).Some?
    requires h.frames[HandleAt(h.frames[top], h.frames[top].code.task).value].result.Some?
    ensures StepsOn(h, Step(h, top).heap, top, input, k)
  {
    hide Settled, Local, View, Resume;
    var f := h.frames[top];
    var x := HandleAt(f, f.code.task).value;
    var o := h.frames[x].result.value;
    TakenIsDone(h, top, f.code.task);
    var r := Resume(h, top, o);
    assert Step(h, top).heap == r;
    ResumeTurns(h, top, o);
    ViewReads(h.frames, top);
    TakingKeepsMeaning(View(h.frames, top, None), o, View(r.frames, top, None), input, k);
    assert r.frames[top].result.None? && r.frames[top].pending == 0;
    assert StepsOn(h, r, top, input, k);
  }

  lemma TakenIsDone(h: Heap, top: Id, i: nat)
    requires Live(h, top) && Settled(h, top) && HandleAt(h.frames[top], i).Some?
    requires h.frames[HandleAt(h.frames[top], i).value].result.Some?
    ensures var o := h.frames[HandleAt(h.frames[top], i).value].result.value;
            At(View(h.frames, top, None).slots, i) == Done(o) && !o.Fault?
  {
  }

  // ---------- Starting a Task ----------

  lemma SuspendKeepsInv(h: Heap, root: Id, chain: seq<Id>)
    requires Inv(h, root, chain) && chain != [] && Live(h, Top(chain)) && Starts(h, Top(chain))
    ensures var x := HandleAt(h.frames[Top(chain)], h.frames[Top(chain)].code.task).value;
            Inv(Suspend(h, Top(chain), x), root, chain + [x])
  {
    var top := Top(chain);
    var i := h.frames[top].code.task;
    var x := HandleAt(h.frames[top], i).value;
    var r := Suspend(h, top, x);
    InvSettles(h, root, chain);
    ChildIsOther(h, top, i);
    ChildIsLeaf(h.frames, root, chain, x);
    assert Link(r.frames, top, x) by {
      SuspendTurns(h, top, i);
    }
    hide Ids, NoFaults, Holds, Mine, Leaf, Link, Settled;
    SuspendTurns(h, top, i);
    LocalKeepsOwnership(h.frames, r.frames, root, chain);
    LocalKeepsChain(h.frames, r.frames, root, chain);
    LocalKeepsLeaves(h.frames, r.frames, root, chain);
    ChainGrows(r.frames, chain, root, x);
  }

  predicate Starts(h: Heap, top: Id)
    requires Live(h, top)
  {
    var f := h.frames[top];
    && f.code.Await? && HandleAt(f, f.code.task).Some?
    && h.frames[HandleAt(f, f.code.task).value].result.None?
  }

  lemma ChainGrows(frames: map<Id, Frame>, chain: seq<Id>, root: Id, x: Id)
    requires Chained(frames, chain, root) && Leaves(frames, chain) && chain != [] && x !in chain && x in frames
    requires Link(frames, Top(chain), x) && frames[x].result.None? && Leaf(frames[x])
    ensures Chained(frames, chain + [x], root) && Leaves(frames, chain + [x]) && Ready(frames, x)
  {
    hide Link;
    var r := chain + [x];
    forall i, j | 0 <= i && j == i + 1 && j < |r|
      ensures Link(frames, r[i], r[j])
    {
      if j == |chain| {
        assert r[i] == Top(chain);
      } else {
        assert Link(frames, chain[i], chain[j]);
      }
    }
    assert r[0] == chain[0];
    assert forall y :: y in chain ==> y in r;
  }

  lemma SuspendKeepsMeaning(h: Heap, root: Id, chain: seq<Id>, input: nat -> int, k: nat)
    requires chain != [] && AllIn(h.frames, chain) && root in h.frames
    requires Inv(h, root, chain) && Live(h, Top(chain)) && Starts(h, Top(chain))
    ensures var x := HandleAt(h.frames[Top(chain)], h.frames[Top(chain)].code.task).value;
            var r := Suspend(h, Top(chain), x);
            && Meaning(r, root, chain + [x], input, k) == Meaning(h, root, chain, input, k)
            && Work(r, chain + [x]) < Work(h, chain)
  {
    var top := Top(chain);
    var i := h.frames[top].code.task;
    var x := HandleAt(h.frames[top], i).value;
    var r := Suspend(h, top, x);
    var n := |chain| - 1;
    InvSettles(h, root, chain);
    SuspendTurns(h, top, i);
    SuspendViews(h, root, chain);
    hide Ids, NoFaults, Holds, Mine, Leaf, Link, Chained, Leaves, Ownership, Local, View, EvalOf, ActivationSize,
         Unwind;
    assert chain[..n] == chain[..|chain| - 1];
    LocalKeepsPile(h.frames, r.frames, root, chain, n);
    var below := Pile(h.frames, chain[..n], Some(top));
    assert (chain + [x])[..|chain|] == chain;
    StartingKeepsMeaning(below, View(h.frames, top, None), View(r.frames, top, Some(x)), View(r.frames, x, None),
                         input, k);
  }

  lemma SuspendViews(h: Heap, root: Id, chain: seq<Id>)
    requires Inv(h, root, chain) && chain != [] && Live(h, Top(chain)) && Starts(h, Top(chain))
    ensures var top := Top(chain);
            var i := h.frames[top].code.task;
            var x := HandleAt(h.frames[top], i).value;
            var r := Suspend(h, top, x).frames;
            && View(r, x, None) == Activation(h.frames[x].code, h.frames[x].env, [])
            && At(View(h.frames, top, None).slots, i) == Fresh(h.frames[x].code, h.frames[x].env)
            && View(r, top, Some(x))
                 == View(h.frames, top, None).(slots := View(h.frames, top, None).slots[i := Empty])
  {
    hide Ids, Chained, Leaves, Ready;
    var top := Top(chain);
    var i := h.frames[top].code.task;
    InvSettles(h, root, chain);
    ChildIsOther(h, top, i);
    forall j | 0 <= j < |h.frames[top].tasks| && j != i && h.frames[top].tasks[j].Some?
      ensures h.frames[top].tasks[j] != h.frames[top].tasks[i] && h.frames[top].tasks[j].value != top
    {
      ChildIsOther(h, top, j);
    }
  }

  // ---------- Ending a Task ----------

  predicate Ends(h: Heap, top: Id)
    requires top in h.frames
  {
    h.frames[top].code.Return? || h.frames[top].code.Throw?
  }

  function EndsWith(h: Heap, top: Id): Outcome
    requires top in h.frames && Ends(h, top)
  {
    var f := h.frames[top];
    if f.code.Return? then Value(f.code.value(f.env)) else Exception(f.code.error(f.env))
  }

  lemma FinishKeepsInv(h: Heap, root: Id, chain: seq<Id>)
    requires Inv(h, root, chain) && chain != [] && Live(h, Top(chain)) && Ends(h, Top(chain))
    ensures Inv(Finish(h, Top(chain), EndsWith(h, Top(chain))), root, chain[..|chain| - 1])
    ensures Transfer(h.frames[Top(chain)].continuation)
         == if |chain| == 1 then Finished else Jump(chain[|chain| - 2])
  {
    var top := Top(chain);
    var o := EndsWith(h, top);
    var r := Finish(h, top, o);
    InvSettles(h, root, chain);
    assert h.frames[top].pending == 0;
    FinishTurns(h, top, o);
    assert Leaf(r.frames[top]);
    assert |chain| > 1 ==> Link(h.frames, chain[|chain| - 2], chain[|chain| - 1]);
    hide Ids, NoFaults, Holds, Mine, Leaf, Settled;
    LocalKeepsOwnership(h.frames, r.frames, root, chain);
    LocalKeepsChain(h.frames, r.frames, root, chain);
    LocalKeepsLeaves(h.frames, r.frames, root, chain);
  }

  // The frame below reads what the ended one left in the slot that it awaits.
  lemma FinishViews(h: Heap, root: Id, chain: seq<Id>)
    requires Inv(h, root, chain) && |chain| > 1 && Live(h, Top(chain)) && Ends(h, Top(chain))
    requires chain[|chain| - 2] in h.frames
    ensures var top := Top(chain);
            var p := chain[|chain| - 2];
            var o := EndsWith(h, top);
            var masked := View(h.frames, p, Some(top));
            var r := Finish(h, top, o).frames;
            && p in r
            && masked.code.Await? && masked.code.task < |masked.slots|
            && View(r, p, None) == masked.(slots := masked.slots[masked.code.task := Done(o)])
  {
    hide Ids, Ready, NoFaults, Finish, Ownership, Chained, Leaves, Local, Holds, SlotOf;
    var n := |chain| - 2;
    var top := Top(chain);
    var p := chain[n];
    var o := EndsWith(h, top);
    var r := Finish(h, top, o);
    InvSettles(h, root, chain);
    FinishTurns(h, top, o);
    BelowIsOther(h.frames, root, chain, n);
    OtherFrameStays(h.frames, r.frames, top, p);
    AwaitsTop(h.frames, root, chain);
    var i := h.frames[p].code.task;
    assert SlotOf(r.frames, Some(top), None) == Done(o) by {
      DoneIsRead(r.frames, top, o);
    }
    forall j | 0 <= j < |h.frames[p].tasks| && j != i
      ensures SlotOf(r.frames, h.frames[p].tasks[j], None) == SlotOf(h.frames, h.frames[p].tasks[j], Some(top))
    {
      SlotKept(h.frames, r.frames, root, chain, n, j);
      UnmaskedReads(r.frames, h.frames[p].tasks[j], top);
    }
  }

  lemma OtherFrameStays(frames: map<Id, Frame>, r: map<Id, Frame>, top: Id, p: Id)
    requires Local(frames, r, top) && p in frames && p != top && !Mine(frames, p, top)
    ensures p in r && r[p] == frames[p]
  {
    hide Holds, Leaf;
  }

  lemma AwaitsTop(frames: map<Id, Frame>, root: Id, chain: seq<Id>)
    requires Ownership(frames, root) && Chained(frames, chain, root) && |chain| > 1
    ensures var p := chain[|chain| - 2];
            && p in frames && frames[p].code.Await?
            && frames[p].code.task < |frames[p].tasks| && frames[p].tasks[frames[p].code.task] == Some(Top(chain))
            && forall j :: 0 <= j < |frames[p].tasks| && j != frames[p].code.task ==>
                 frames[p].tasks[j] != Some(Top(chain))
  {
    var n := |chain| - 2;
    var p := chain[n];
    assert Link(frames, chain[n], chain[n + 1]) && Holds(frames, p);
    assert OwnedAt(frames, Top(chain), p, frames[p].code.task);
    forall j | 0 <= j < |frames[p].tasks| && frames[p].tasks[j] == Some(Top(chain))
      ensures j == frames[p].code.task
    {
      assert OwnedAt(frames, Top(chain), p, j);
    }
  }

  lemma DoneIsRead(frames: map<Id, Frame>, x: Id, o: Outcome)
    requires x in frames && frames[x].result == Some(o)
    ensures SlotOf(frames, Some(x), None) == Done(o)
  {
  }

  lemma UnmaskedReads(frames: map<Id, Frame>, t: Option<Id>, awaited: Id)
    requires t != Some(awaited)
    ensures SlotOf(frames, t, None) == SlotOf(frames, t, Some(awaited))
  {
  }

  lemma FinishKeepsMeaning(h: Heap, root: Id, chain: seq<Id>, input: nat -> int, k: nat)
    requires chain != [] && AllIn(h.frames, chain) && root in h.frames
    requires Inv(h, root, chain) && Live(h, Top(chain)) && Ends(h, Top(chain))
    ensures var r := Finish(h, Top(chain), EndsWith(h, Top(chain)));
            && root in r.frames && AllIn(r.frames, chain[..|chain| - 1])
            && (chain[..|chain| - 1] == [] ==> r.frames[root].result.Some?)
            && Meaning(r, root, chain[..|chain| - 1], input, k) == Meaning(h, root, chain, input, k)
            && Work(r, chain[..|chain| - 1]) < Work(h, chain)
  {
    var top := Top(chain);
    var o := EndsWith(h, top);
    var r := Finish(h, top, o);
    FinishKeepsInv(h, root, chain);
    InvSettles(h, root, chain);
    FinishTurns(h, top, o);
    assert EvalOf(View(h.frames, top, None), input, k) == Result(o, k);
    if |chain| == 1 {
      OneFrameEnds(h, r, root, chain, input, k, o);
    } else {
      DeepFrameEnds(h, r, root, chain, input, k, o);
    }
  }

  lemma OneFrameEnds(h: Heap, r: Heap, root: Id, chain: seq<Id>, input: nat -> int, k: nat, o: Outcome)
    requires |chain| == 1 && AllIn(h.frames, chain) && root in h.frames && root in r.frames && chain[0] == root
    requires r.frames[root].result == Some(o)
    requires EvalOf(View(h.frames, Top(chain), None), input, k) == Result(o, k)
    ensures Meaning(r, root, [], input, k) == Meaning(h, root, chain, input, k)
    ensures Work(r, []) < Work(h, chain)
  {
    hide View, EvalOf;
    assert chain[..0] == [];
  }

  lemma DeepFrameEnds(h: Heap, r: Heap, root: Id, chain: seq<Id>, input: nat -> int, k: nat, o: Outcome)
    requires |chain| > 1 && AllIn(h.frames, chain) && root in h.frames && root in r.frames
    requires AllIn(r.frames, chain[..|chain| - 1])
    requires Inv(h, root, chain) && Live(h, Top(chain)) && Ends(h, Top(chain)) && o == EndsWith(h, Top(chain))
    requires r == Finish(h, Top(chain), o)
    requires EvalOf(View(h.frames, Top(chain), None), input, k) == Result(o, k)
    ensures Meaning(r, root, chain[..|chain| - 1], input, k) == Meaning(h, root, chain, input, k)
    ensures Work(r, chain[..|chain| - 1]) < Work(h, chain)
  {
    var n := |chain| - 1;
    var top := Top(chain);
    assert chain[n - 1] in h.frames && chain[..n][n - 1] in r.frames;
    InvSettles(h, root, chain);
    FinishTurns(h, top, o);
    FinishViews(h, root, chain);
    hide Ids, NoFaults, Holds, Mine, Leaf, Link, Chained, Leaves, Ownership, Local, View, EvalOf, ActivationSize,
         Unwind, Finish;
    assert chain[..n][..n - 1] == chain[..n - 1];
    LocalKeepsPile(h.frames, r.frames, root, chain, n - 1);
    var below := Pile(h.frames, chain[..n - 1], Some(chain[n - 1]));
    EndingKeepsMeaning(below, View(h.frames, chain[n - 1], Some(top)), View(r.frames, chain[n - 1], None),
                       Result(o, k), input);
  }

  // ---------- The trampoline ----------

  // What one turn does: control goes back to the event loop as it should, or to the frame
  // that the chain of awaits says, and then the chain still means the same and less is left.
  ghost predicate GoodTurn(h: Heap, root: Id, chain: seq<Id>, input: nat -> int, k: nat)
    requires chain != [] && Inv(h, root, chain)
  {
    InvChain(h, root, chain);
    InvSettles(h, root, chain);
    var f := h.frames[Top(chain)];
    var t := Step(h, Top(chain));
    var next := Next(h, chain);
    match t.control {
      case Faulted => t.heap == h && Meaning(h, root, chain, input, k) == Result(Fault, k)
      case Waits(at) => t.heap == h && at == Top(chain) && f.code.Input?
      case _ =>
        && Inv(t.heap, root, next) && AllIn(t.heap.frames, next) && root in t.heap.frames
        && t.control == (if next == [] then Finished else Jump(Top(next)))
        && (next == [] ==> t.heap.frames[root].result.Some?)
        && Meaning(t.heap, root, next, input, k) == Meaning(h, root, chain, input, k)
        && Work(t.heap, next) < Work(h, chain)
    }
  }

  lemma StepIsGood(h: Heap, root: Id, chain: seq<Id>, input: nat -> int, k: nat)
    requires chain != [] && Inv(h, root, chain)
    ensures GoodTurn(h, root, chain, input, k)
  {
    hide Inv, Step, Meaning, Work, Settled, Turned, Local, StepsOn, Finish, View;
    InvChain(h, root, chain);
    InvSettles(h, root, chain);
    var top := Top(chain);
    ReadyFacts(h.frames, top);
    if Ends(h, top) {
      EndIsGood(h, root, chain, input, k);
    } else if h.frames[top].code.Await? {
      AwaitIsGood(h, root, chain, input, k);
    } else if h.frames[top].code.Input? {
      WaitIsGood(h, root, chain, input, k);
    } else {
      LocalIsGood(h, root, chain, input, k);
    }
  }

  lemma ReadyFacts(frames: map<Id, Frame>, top: Id)
    requires top in frames && Ready(frames, top)
    ensures frames[top].pending <= 1
    ensures !frames[top].code.Await? ==> frames[top].pending == 0
  {
  }

  lemma WaitIsGood(h: Heap, root: Id, chain: seq<Id>, input: nat -> int, k: nat)
    requires chain != [] && Inv(h, root, chain) && Top(chain) in h.frames && h.frames[Top(chain)].code.Input?
    ensures GoodTurn(h, root, chain, input, k)
  {
    hide Inv;
    InvSettles(h, root, chain);
  }

  lemma EndIsGood(h: Heap, root: Id, chain: seq<Id>, input: nat -> int, k: nat)
    requires chain != [] && Inv(h, root, chain) && Top(chain) in h.frames && Ends(h, Top(chain))
    ensures GoodTurn(h, root, chain, input, k)
  {
    hide Inv, Meaning, Work, Finish, Settled;
    InvChain(h, root, chain);
    InvSettles(h, root, chain);
    FinishKeepsInv(h, root, chain);
    FinishKeepsMeaning(h, root, chain, input, k);
  }

  lemma AwaitIsGood(h: Heap, root: Id, chain: seq<Id>, input: nat -> int, k: nat)
    requires chain != [] && Inv(h, root, chain) && Top(chain) in h.frames && h.frames[Top(chain)].code.Await?
    ensures GoodTurn(h, root, chain, input, k)
  {
    hide Inv, Meaning, Work, Settled, Suspend, Resume, View, StepsOn, Ready;
    InvChain(h, root, chain);
    InvSettles(h, root, chain);
    var top := Top(chain);
    var i := h.frames[top].code.task;
    ReadyFacts(h.frames, top);
    if HandleAt(h.frames[top], i).None? {
      EmptyFaults(h, root, chain, input, k);
    } else if Starts(h, top) {
      var x := HandleAt(h.frames[top], i).value;
      SuspendKeepsInv(h, root, chain);
      SuspendKeepsMeaning(h, root, chain, input, k);
      InvChain(Suspend(h, top, x), root, chain + [x]);
    } else {
      TakeStepsOn(h, top, input, k);
      StepOnIsGood(h, root, chain, input, k);
    }
  }

  lemma EmptyFaults(h: Heap, root: Id, chain: seq<Id>, input: nat -> int, k: nat)
    requires chain != [] && AllIn(h.frames, chain) && root in h.frames
    requires h.frames[Top(chain)].code.Await?
    requires HandleAt(h.frames[Top(chain)], h.frames[Top(chain)].code.task).None?
    ensures Meaning(h, root, chain, input, k) == Result(Fault, k)
  {
  }

  // The same frame stays in control.
  lemma StepOnIsGood(h: Heap, root: Id, chain: seq<Id>, input: nat -> int, k: nat)
    requires chain != [] && Inv(h, root, chain) && Live(h, Top(chain)) && !Ends(h, Top(chain))
    requires !h.frames[Top(chain)].code.Input? && !Starts(h, Top(chain))
    requires !Step(h, Top(chain)).control.Faulted?
    requires StepsOn(h, Step(h, Top(chain)).heap, Top(chain), input, k)
    ensures GoodTurn(h, root, chain, input, k)
  {
    hide Inv, Meaning, Work, Settled, View, Turned, SameMeaning;
    var r := Step(h, Top(chain)).heap;
    InvChain(h, root, chain);
    TurnKeepsInv(h, r, root, chain);
    InvChain(r, root, chain);
    TurnKeepsMeaning(h, r, root, chain, input, k, k);
  }

  lemma LocalIsGood(h: Heap, root: Id, chain: seq<Id>, input: nat -> int, k: nat)
    requires chain != [] && Inv(h, root, chain) && Live(h, Top(chain)) && !Ends(h, Top(chain))
    requires !h.frames[Top(chain)].code.Input? && !h.frames[Top(chain)].code.Await?
    requires h.frames[Top(chain)].pending == 0
    ensures GoodTurn(h, root, chain, input, k)
  {
    hide Inv, Meaning, Work, Settled, View, StepsOn, Goto, MoveTask, Declared, Reset;
    InvSettles(h, root, chain);
    var top := Top(chain);
    match h.frames[top].code {
      case If(_, _, _) => IfStepsOn(h, top, input, k);
      case Declare(_, _, _) => DeclareStepsOn(h, top, input, k);
      case Move(_, _, _) => MoveStepsOn(h, top, input, k);
      case Discard(_, _) => DiscardStepsOn(h, top, input, k);
    }
    StepOnIsGood(h, root, chain, input, k);
  }

  // ---------- The event loop's part ----------

  lemma FeedIsGood(h: Heap, root: Id, chain: seq<Id>, input: nat -> int, k: nat)
    requires chain != [] && Inv(h, root, chain) && Top(chain) in h.frames && h.frames[Top(chain)].code.Input?
    requires AllIn(h.frames, chain) && root in h.frames
    ensures var r := Feed(h, Top(chain), input(k));
            && Inv(r, root, chain) && AllIn(r.frames, chain) && root in r.frames
            && Meaning(r, root, chain, input, k + 1) == Meaning(h, root, chain, input, k)
            && Work(r, chain) < Work(h, chain)
  {
    hide Inv, Meaning, Work, Settled, View, Turned;
    var top := Top(chain);
    var r := Feed(h, top, input(k));
    InvChain(h, root, chain);
    InvSettles(h, root, chain);
    ReadyFacts(h.frames, top);
    GotoTurns(h, top, h.frames[top].code.next, h.frames[top].env + [input(k)]);
    ViewReads(h.frames, top);
    TurnKeepsInv(h, r, root, chain);
    InvChain(r, root, chain);
    TurnKeepsMeaning(h, r, root, chain, input, k, k + 1);
  }

  // At any moment between turns each frame in the chain but the last is suspended once, on the
  // next one, which is not done and will continue it; no other frame but the last is suspended.
  lemma WaitersWait(h: Heap, root: Id, chain: seq<Id>, x: Id)
    requires Inv(h, root, chain) && chain != [] && x in h.frames && x != Top(chain)
    ensures x !in chain ==> h.frames[x].pending == 0
    ensures x in chain ==>
              && h.frames[x].pending == 1 && h.frames[x].code.Await?
              && HandleAt(h.frames[x], h.frames[x].code.task).Some?
              && var awaited := HandleAt(h.frames[x], h.frames[x].code.task).value;
                 && awaited in chain && h.frames[awaited].result.None?
                 && h.frames[awaited].continuation == Some(x)
  {
    if x in chain {
      var i :| 0 <= i < |chain| && chain[i] == x;
      assert Link(h.frames, chain[i], chain[i + 1]);
    }
  }

  // A turn resumes no suspended frame but the one in control, and that only when the Task it
  // awaits is done; control passes to no other frame but the Task that it starts or the frame
  // that awaits it.
  lemma ResumedOnlyWhenDone(h: Heap, root: Id, chain: seq<Id>, x: Id)
    requires Inv(h, root, chain) && chain != [] && Live(h, Top(chain))
    requires x in h.frames && h.frames[x].pending > 0
    requires x in Step(h, Top(chain)).heap.frames && Step(h, Top(chain)).heap.frames[x].pending == 0
    ensures x == Top(chain) && h.frames[x].code.Await?
    ensures var t := HandleAt(h.frames[x], h.frames[x].code.task);
            t.Some? && t.value in h.frames && h.frames[t.value].result.Some?
  {
    hide Settled, Finish, Reset, MoveTask, Declared, Suspend, Resume, Ownership, Chained, Link, Ids;
    InvSettles(h, root, chain);
    InvChain(h, root, chain);
    if x != Top(chain) {
      OthersStayPut(h, root, chain, x);
      assert false;
    }
  }

  lemma StepIsLocal(h: Heap, root: Id, chain: seq<Id>)
    requires Inv(h, root, chain) && chain != [] && Live(h, Top(chain))
    ensures Turned(h, Step(h, Top(chain)).heap, Top(chain))
  {
    hide Inv, Settled, Turned, View, Meaning, Work, Finish, Reset, MoveTask, Declared, Suspend, Resume, Goto;
    var top := Top(chain);
    var input: nat -> int := k => 0;
    InvChain(h, root, chain);
    InvSettles(h, root, chain);
    ReadyFacts(h.frames, top);
    TurnedByNothing(h, top);
    match h.frames[top].code {
      case Return(_) => FinishTurns(h, top, EndsWith(h, top));
      case Throw(_) => FinishTurns(h, top, EndsWith(h, top));
      case If(_, _, _) => IfStepsOn(h, top, input, 0);
      case Input(_) =>
      case Declare(_, _, _) => DeclareStepsOn(h, top, input, 0);
      case Move(_, _, _) => MoveStepsOn(h, top, input, 0);
      case Discard(_, _) => DiscardStepsOn(h, top, input, 0);
      case Await(task, _, _) =>
        if HandleAt(h.frames[top], task).Some? {
          if Starts(h, top) {
            SuspendTurns(h, top, task);
          } else {
            TakeStepsOn(h, top, input, 0);
          }
        }
    }
  }

  lemma OthersStayPut(h: Heap, root: Id, chain: seq<Id>, x: Id)
    requires Inv(h, root, chain) && chain != [] && Live(h, Top(chain))
    requires x in h.frames && x != Top(chain) && h.frames[x].pending > 0
    ensures var r := Step(h, Top(chain)).heap; x in r.frames && r.frames[x].pending == h.frames[x].pending
  {
    hide Step;
    var top := Top(chain);
    WaitersWait(h, root, chain, x);
    if Mine(h.frames, x, top) {
      ChildIsLeaf(h.frames, root, chain, x);
      assert false;
    }
    StepIsLocal(h, root, chain);
  }
}
