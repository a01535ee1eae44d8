// The frames as objects that change in place: the operations of a promise and of a Task, and
// the loop that runs a spawned coroutine by jumping from handle to handle.
module TaskRuntimes {
  import opened Options
  import opened TaskPrograms
  import opened TaskHeaps

  // What the coroutines in a chain are going to end with, and how much they have left to do.
  ghost function Fate(h: Heap, root: Id, chain: seq<Id>, input: nat -> int, k: nat): Result
    requires Inv(h, root, chain)
  {
    InvChain(h, root, chain);
    Meaning(h, root, chain, input, k)
  }

  ghost function Left(h: Heap, root: Id, chain: seq<Id>): nat
    requires Inv(h, root, chain)
  {
    InvChain(h, root, chain);
    Work(h, chain)
  }

  class Runtime {
    var frames: map<Id, Frame>
    var next: Id
    var destroyed: set<Id>
    var native: seq<Id>    // the native stack: the coroutine that each resume() under way has got to
    var deepest: nat       // how deep it has ever been
    ghost var chain: seq<Id>

    ghost function View(): Heap
      reads this
    {
      Heap(frames, next, destroyed)
    }

    // Scheduler::spawn of a coroutine: its frame, suspended at the start.
    constructor (code: Body, env: Env)
      ensures Inv(View(), 0, chain) && chain == [0]
      ensures forall input :: Fate(View(), 0, chain, input, 0) == Eval(code, env, [], input, 0)
      ensures native == [] && deepest == 0
    {
      frames := map[0 := Frame(code, env, [], None, None, 0, None)];
      next, destroyed, chain := 1, {}, [0];
      native, deepest := [], 0;
      new;
      SpawnedInv(View(), code, env);
    }

    method Create(code: Body, env: Env, owner: Option<Owner>) returns (id: Id)
      modifies this`frames, this`next
      ensures View() == TaskHeaps.Create(old(View()), code, env, owner) && id == old(next)
    {
      id := next;
      frames, next := frames[id := Frame(code, env, [], None, None, 0, owner)], next + 1;
    }

    // coroutine_handle::destroy, which needs a frame that still exists.
    method Destroy(id: Id)
      requires id in frames
      modifies this`frames, this`destroyed
      ensures frames == old(frames) - {id} && destroyed == old(destroyed) + {id}
    {
      frames, destroyed := frames - {id}, destroyed + {id};
    }

    // ~Task of local i
    method ResetLocal(id: Id, i: nat)
      requires Live(View(), id)
      requires HandleAt(frames[id], i) != Some(id)
      modifies this`frames, this`destroyed
      ensures View() == Reset(old(View()), id, i)
    {
      var t := HandleAt(frames[id], i);
      if t.Some? {
        Destroy(t.value);
        frames := frames[id := frames[id].(tasks := frames[id].tasks[i := None])];
      }
    }

    // Task::operator=(Task&&)
    method MoveAssign(id: Id, to: nat, from: nat)
      requires Settled(View(), id) && Live(View(), id)
      modifies this`frames, this`destroyed
      ensures View() == MoveTask(old(View()), id, to, from)
    {
      if to != from && to < |frames[id].tasks| && from < |frames[id].tasks| {
        if frames[id].tasks[to].Some? {
          ChildIsOther(View(), id, to);
        }
        ResetLocal(id, to);
        var handle := frames[id].tasks[from];
        frames := frames[id := frames[id].(tasks := frames[id].tasks[to := handle][from := None])];
        if handle.Some? && handle.value in frames {
          frames := frames[handle.value := frames[handle.value].(owner := Some(Owner(id, to)))];
        }
      }
    }

    method DestroyLocals(id: Id)
      requires id in frames && Settled(View(), id)
      modifies this`frames, this`destroyed
      ensures View() == ResetAll(old(View()), id, |old(frames)[id].tasks|)
    {
      hide Settled, Reset, Local;
      var i := |frames[id].tasks|;
      while i > 0
        invariant id in frames && Settled(View(), id) && 0 <= i <= |frames[id].tasks| && next == old(next)
        invariant ResetAll(View(), id, i) == ResetAll(old(View()), id, |old(frames)[id].tasks|)
      {
        i := i - 1;
        ResetTurns(View(), id, i);
        SettledIsLive(View(), id, i);
        ResetLocal(id, i);
      }
    }

    method StoreResult(id: Id, o: Outcome)
      requires id in frames
      modifies this`frames
      ensures View() == Stored(old(View()), id, o)
    {
      frames := frames[id := frames[id].(result := Some(o))];
    }

    // A returned value is stored before the locals are destroyed, an exception after; then
    // comes FinalAwaiter::await_suspend.
    method FinalSuspend(id: Id, o: Outcome) returns (c: Control)
      requires id in frames && Settled(View(), id) && !o.Fault?
      modifies this`frames, this`destroyed
      ensures View() == Finish(old(View()), id, o)
      ensures c == Transfer(old(frames)[id].continuation)
    {
      hide Settled, Local;
      ResetAllTurns(View(), id, |frames[id].tasks|);
      if o.Value? {
        StoreFirst(View(), id, o);
        StoreResult(id, o);
        DestroyLocals(id);
      } else {
        DestroyLocals(id);
        StoreResult(id, o);
      }
      frames := frames[id := frames[id].(tasks := [])];
      c := match frames[id].continuation { case None => Finished case Some(h) => Jump(h) };
    }

    // Task::await_ready: an empty Task is ready too.
    method AwaitReady(task: Option<Id>) returns (ready: bool)
      requires task.Some? ==> task.value in frames
      ensures ready <==> task.None? || frames[task.value].result.Some?
    {
      ready := task.None? || frames[task.value].result.Some?;
    }

    // Task::await_suspend: to where control jumps.
    method AwaitSuspend(caller: Id, task: Id) returns (to: Id)
      requires caller in frames && task in frames
      modifies this`frames
      ensures View() == Suspend(old(View()), caller, task) && to == task
    {
      frames := frames[task := frames[task].(continuation := Some(caller))];
      frames := frames[caller := frames[caller].(pending := frames[caller].pending + 1)];
      to := task;
    }

    // Task::await_resume needs a Task that is done.
    method AwaitResume(caller: Id, task: Id)
      requires caller in frames && task in frames && frames[caller].code.Await?
      requires frames[task].result.Some?
      modifies this`frames
      ensures View() == Resume(old(View()), caller, old(frames)[task].result.value)
    {
      var f := frames[caller];
      var o := frames[task].result.value;
      f := f.(code := CodeAfter(f.code, o), env := EnvAfter(f.code, f.env, o),
              pending := if f.pending > 0 then f.pending - 1 else 0);
      frames := frames[caller := f];
    }

    method Continue(id: Id, code: Body, env: Env)
      requires id in frames
      modifies this`frames
      ensures View() == Goto(old(View()), id, code, env)
    {
      frames := frames[id := frames[id].(code := code, env := env)];
    }

    // One turn of the frame in control.
    method TakeTurn(id: Id) returns (c: Control)
      requires Live(View(), id) && Settled(View(), id)
      modifies this`frames, this`next, this`destroyed
      ensures Turn(View(), c) == Step(old(View()), id)
    {
      hide Settled, Reset, MoveTask, Finish, Suspend, Resume, Goto, Local;
      var f := frames[id];
      match f.code {
        case Return(value) => c := FinalSuspend(id, Value(value(f.env)));
        case Throw(error) => c := FinalSuspend(id, Exception(error(f.env)));
        case If(test, yes, no) => Continue(id, if test(f.env) then yes else no, f.env); c := Jump(id);
        case Input(_) => c := Waits(id);
        case Declare(child, args, next_) =>
          var x := Create(child, args(f.env), Some(Owner(id, |f.tasks|)));
          frames := frames[id := f.(tasks := f.tasks + [Some(x)], code := next_)];
          c := Jump(id);
        case Move(to, from, next_) =>
          MoveAssign(id, to, from);
          Continue(id, next_, f.env);
          c := Jump(id);
        case Discard(task, next_) =>
          SettledIsLive(View(), id, task);
          ResetLocal(id, task);
          Continue(id, next_, f.env);
          c := Jump(id);
        case Await(task, _, _) =>
          var ready := AwaitReady(HandleAt(f, task));
          if HandleAt(f, task).None? {
            return Faulted;   // await_resume would look into a frame that is not there
          }
          if ready {
            AwaitResume(id, f.tasks[task].value);
            c := Jump(id);
          } else {
            var to := AwaitSuspend(id, f.tasks[task].value);
            c := Jump(to);
          }
      }
    }

    // coroutine_handle::resume: a call, and so a native stack frame.
    method Enter(id: Id)
      modifies this`native, this`deepest
      ensures native == old(native) + [id]
      ensures deepest == if old(deepest) < |native| then |native| else old(deepest)
    {
      native := native + [id];
      deepest := if deepest < |native| then |native| else deepest;
    }

    // Symmetric transfer: the coroutine that was got to gives way to another in its place.
    method Replace(to: Id)
      requires native != []
      modifies this`native
      ensures native == old(native)[|old(native)| - 1 := to]
    {
      native := native[|native| - 1 := to];
    }

    method Return()
      requires native != []
      modifies this`native
      ensures native == old(native)[..|old(native)| - 1]
    {
      native := native[..|native| - 1];
    }

    // One resume() from the event loop: every transfer of control from coroutine to coroutine
    // is a round of this loop, whatever the nesting, and none is a call; the native stack is
    // never deeper than by the one frame of this resume().
    method Trampoline(root: Id, id: Id, ghost input: nat -> int, ghost k: nat) returns (c: Control)
      requires chain != [] && Inv(View(), root, chain) && id == Top(chain)
      modifies this
      ensures !c.Jump? && Inv(View(), root, chain)
      ensures native == old(native)
      ensures deepest == if old(deepest) < |native| + 1 then |native| + 1 else old(deepest)
      ensures Fate(View(), root, chain, input, k) == old(Fate(View(), root, chain, input, k))
      ensures Left(View(), root, chain) <= old(Left(View(), root, chain))
      ensures c.Finished? <==> chain == []
      ensures c.Waits? ==> c.at == Top(chain) && c.at in frames && frames[c.at].code.Input?
      ensures c.Faulted? ==> Fate(View(), root, chain, input, k) == Result(Fault, k)
    {
      hide Inv, Step, Meaning, Work, Settled;
      c := Jump(id);
      Enter(id);
      while c.Jump?
        invariant |native| == |old(native)| + 1 && native[..|old(native)|] == old(native)
        invariant c.Jump? ==> native[|old(native)|] == c.to
        invariant deepest == if old(deepest) < |native| then |native| else old(deepest)
        invariant Inv(View(), root, chain)
        invariant Fate(View(), root, chain, input, k) == old(Fate(View(), root, chain, input, k))
        invariant Left(View(), root, chain) <= old(Left(View(), root, chain))
        invariant c.Jump? ==> chain != [] && c.to == Top(chain)
        invariant c.Finished? <==> chain == []
        invariant c.Waits? ==> chain != [] && c.at == Top(chain) && c.at in frames && frames[c.at].code.Input?
        invariant c.Faulted? ==> Fate(View(), root, chain, input, k) == Result(Fault, k)
        decreases Left(View(), root, chain), if c.Jump? then 1 else 0
      {
        ghost var before := View();
        InvChain(before, root, chain);
        InvSettles(before, root, chain);
        StepIsGood(before, root, chain, input, k);
        ghost var rest := Next(before, chain);
        c := TakeTurn(c.to);
        if c.Jump? {
          Replace(c.to);
        }
        if c.Jump? || c.Finished? {
          chain := rest;
        }
      }
      Return();
    }

    // The event loop hands a waiting coroutine what its I/O brought.
    method Receive(id: Id, v: int)
      requires id in frames && frames[id].code.Input?
      modifies this`frames
      ensures View() == Feed(old(View()), id, v)
    {
      Continue(id, frames[id].code.next, frames[id].env + [v]);
    }
  }

  // return_value or unhandled_exception.
  function Stored(h: Heap, id: Id, o: Outcome): Heap
    requires id in h.frames
  {
    h.(frames := h.frames[id := h.frames[id].(result := Some(o))])
  }

  // It makes no difference which comes first.
  lemma StoreFirst(h: Heap, id: Id, o: Outcome)
    requires id in h.frames && Settled(h, id) && !o.Fault?
    ensures Settled(Stored(h, id, o), id)
    ensures ResetAll(Stored(h, id, o), id, |h.frames[id].tasks|)
         == Stored(ResetAll(h, id, |h.frames[id].tasks|), id, o)
  {
    assert Holds(Stored(h, id, o).frames, id);
    StoreCommutes(h, id, o, |h.frames[id].tasks|);
  }

  lemma {:induction false} StoreCommutes(h: Heap, id: Id, o: Outcome, n: nat)
    requires id in h.frames && Settled(h, id) && !o.Fault?
    ensures ResetAll(Stored(h, id, o), id, n) == Stored(ResetAll(h, id, n), id, o)
    decreases n
  {
    if n > 0 {
      SettledIsLive(h, id, n - 1);
      ResetTurns(h, id, n - 1);
      StoreCommutes(Reset(h, id, n - 1), id, o, n - 1);
      assert Reset(Stored(h, id, o), id, n - 1) == Stored(Reset(h, id, n - 1), id, o) by {
        ResetThenStore(h, id, o, n - 1);
      }
    }
  }

  lemma ResetThenStore(h: Heap, id: Id, o: Outcome, i: nat)
    requires id in h.frames && HandleAt(h.frames[id], i) != Some(id)
    ensures Reset(Stored(h, id, o), id, i) == Stored(Reset(h, id, i), id, o)
  {
  }

  lemma SettledIsLive(h: Heap, id: Id, i: nat)
    requires Settled(h, id)
    ensures id in h.frames && Live(h, id) && HandleAt(h.frames[id], i) != Some(id)
  {
    forall j | 0 <= j < |h.frames[id].tasks| && h.frames[id].tasks[j].Some?
      ensures h.frames[id].tasks[j].value in h.frames && h.frames[id].tasks[j].value != id
    {
      ChildIsOther(h, id, j);
    }
  }

  lemma SpawnedInv(h: Heap, code: Body, env: Env)
    requires h == Heap(map[0 := Frame(code, env, [], None, None, 0, None)], 1, {})
    ensures Inv(h, 0, [0])
    ensures forall input :: Fate(h, 0, [0], input, 0) == Eval(code, env, [], input, 0)
  {
    assert Holds(h.frames, 0);
    assert [0][..0] == [] && Top([0]) == 0;
    assert View(h.frames, 0, None) == Activation(code, env, []);
  }

  // A coroutine that the scheduler spawns and that is resumed with each input as it comes ends
  // with what plain recursion gives; when it is done, so is every frame that was ever made:
  // each of them has been destroyed, and none twice.  However deep its awaits are nested, the
  // native stack has never been deeper than one resume().
  method SpawnAndRun(code: Body, env: Env, input: nat -> int)
    returns (o: Outcome, taken: nat, created: nat, destroyed: set<Id>, deepest: nat)
    ensures Result(o, taken) == Eval(code, env, [], input, 0)
    ensures deepest == 1
    ensures !o.Fault? ==> forall x: Id :: x in destroyed <==> x < created
  {
    hide Inv, Meaning, Work, Settled;
    var rt := new Runtime(code, env);
    taken := 0;
    var c := Jump(0);
    while !c.Finished? && !c.Faulted?
      invariant Inv(rt.View(), 0, rt.chain) && fresh(rt)
      invariant rt.native == [] && rt.deepest == if c == Jump(0) && rt.deepest == 0 then 0 else 1
      invariant c.Finished? || c.Faulted? ==> rt.deepest == 1
      invariant Fate(rt.View(), 0, rt.chain, input, taken) == Eval(code, env, [], input, 0)
      invariant c.Finished? <==> rt.chain == []
      invariant c.Jump? ==> c.to == Top(rt.chain)
      invariant c.Waits? ==> c.at == Top(rt.chain) && c.at in rt.frames && rt.frames[c.at].code.Input?
      invariant c.Faulted? ==> Fate(rt.View(), 0, rt.chain, input, taken) == Result(Fault, taken)
      decreases Left(rt.View(), 0, rt.chain), if c.Jump? then 1 else 0
    {
      var id := if c.Waits? then c.at else c.to;
      if c.Waits? {
        InvChain(rt.View(), 0, rt.chain);
        FeedIsGood(rt.View(), 0, rt.chain, input, taken);
        rt.Receive(id, input(taken));
        taken := taken + 1;
      }
      c := rt.Trampoline(0, id, input, taken);
    }
    if c.Faulted? {
      return Fault, taken, rt.next, rt.destroyed, rt.deepest;
    }
    EndsAlone(rt.View(), 0);
    o := rt.frames[0].result.value;
    rt.Destroy(0);
    created, destroyed, deepest := rt.next, rt.destroyed, rt.deepest;
  }

  // Once the spawned coroutine has ended, its frame is the only one left.
  lemma EndsAlone(h: Heap, root: Id)
    requires Inv(h, root, [])
    ensures h.frames.Keys == {root} && h.frames[root].result.Some?
    ensures root !in h.destroyed
    ensures forall x: Id :: x in h.destroyed || x == root <==> x < h.next
    ensures forall input, k :: Fate(h, root, [], input, k) == Result(h.frames[root].result.value, k)
  {
    hide Ids;
    forall x {:trigger x in h.frames} | x in h.frames
      ensures x == root
    {
      NobodyIsOwned(h, root, x);
    }
    LastIds(h, root);
  }

  lemma OwnerHasTasks(frames: map<Id, Frame>, root: Id, x: Id)
    requires Ownership(frames, root) && x in frames && frames[x].owner.Some?
    ensures frames[x].owner.value.frame in frames && frames[frames[x].owner.value.frame].tasks != []
  {
    assert Holds(frames, frames[x].owner.value.frame);
  }

  lemma NobodyIsOwned(h: Heap, root: Id, x: Id)
    requires Ownership(h.frames, root) && Leaves(h.frames, []) && x in h.frames
    ensures x == root
  {
    if h.frames[x].owner.Some? {
      OwnerHasTasks(h.frames, root, x);
      assert false;
    }
  }

  lemma LastIds(h: Heap, root: Id)
    requires Ids(h) && root in h.frames && forall x {:trigger x in h.frames} :: x in h.frames ==> x == root
    ensures root !in h.destroyed
    ensures forall x: Id :: x in h.destroyed || x == root <==> x < h.next
  {
  }
}
