// Coroutine bodies over Task objects, and what they mean by plain recursion: a Task is a
// call that has not been made yet, and awaiting it makes the call.
module TaskPrograms {
  import opened Options

  type Env = seq<int>   // a coroutine's parameters and the values it has received since

  // How a coroutine ends.  Fault is the undefined behaviour of awaiting an empty Task.
  datatype Outcome = Value(v: int) | Exception(e: int) | Fault

  datatype Body =
    | Return(value: Env -> int)
    | Throw(error: Env -> int)
    | If(test: Env -> bool, yes: Body, no: Body)
    | Input(next: Body)                                  // co_await of an I/O operation
    | Declare(child: Body, args: Env -> Env, next: Body) // Task t = child(args);
    | Move(to: nat, from: nat, next: Body)               // t = std::move(u);
    | Discard(task: nat, next: Body)                     // { Task gone = std::move(t); }
    | Await(task: nat, next: Body, handler: Option<Body>)
      // x = co_await t; with the handler if it is in a try block of its own

  // A Task variable; the n-th declared one has number n, and other numbers are empty.
  datatype Slot = Empty | Fresh(code: Body, env: Env) | Done(o: Outcome)

  function At(slots: seq<Slot>, i: nat): Slot {
    if i < |slots| then slots[i] else Empty
  }

  function Set(slots: seq<Slot>, i: nat, slot: Slot): seq<Slot> {
    if i < |slots| then slots[i := slot] else slots
  }

  function Moved(slots: seq<Slot>, to: nat, from: nat): seq<Slot> {
    if to < |slots| && from < |slots| && to != from then slots[to := slots[from]][from := Empty] else slots
  }

  // ---------- Sizes ----------

  function Size(code: Body): (n: nat)
    ensures n > 0
  {
    match code
    case Return(_) => 1
    case Throw(_) => 1
    case If(_, yes, no) => 1 + Size(yes) + Size(no)
    case Input(next) => 1 + Size(next)
    case Declare(child, _, next) => 2 + Size(child) + Size(next)
    case Move(_, _, next) => 1 + Size(next)
    case Discard(_, next) => 1 + Size(next)
    case Await(_, next, handler) => 1 + Size(next) + HandlerSize(handler)
  }

  function HandlerSize(handler: Option<Body>): nat {
    match handler
    case None => 0
    case Some(code) => Size(code)
  }

  function SlotSize(slot: Slot): nat {
    if slot.Fresh? then 1 + Size(slot.code) else 0
  }

  function SlotsSize(slots: seq<Slot>): nat {
    if slots == [] then 0 else SlotsSize(slots[..|slots| - 1]) + SlotSize(slots[|slots| - 1])
  }

  lemma {:induction false} SetSize(slots: seq<Slot>, i: nat, slot: Slot)
    requires i < |slots|
    ensures SlotsSize(slots[i := slot]) + SlotSize(slots[i]) == SlotsSize(slots) + SlotSize(slot)
  {
    var n := |slots| - 1;
    if i == n {
      assert slots[i := slot][..n] == slots[..n];
    } else {
      assert slots[i := slot][..n] == slots[..n][i := slot];
      SetSize(slots[..n], i, slot);
    }
  }

  lemma AppendSize(slots: seq<Slot>, slot: Slot)
    ensures SlotsSize(slots + [slot]) == SlotsSize(slots) + SlotSize(slot)
  {
    assert (slots + [slot])[..|slots|] == slots;
  }

  lemma MovedSize(slots: seq<Slot>, to: nat, from: nat)
    ensures SlotsSize(Moved(slots, to, from)) <= SlotsSize(slots)
  {
    if to < |slots| && from < |slots| && to != from {
      SetSize(slots, to, slots[from]);
      SetSize(slots[to := slots[from]], from, Empty);
    }
  }

  lemma SetSmaller(slots: seq<Slot>, i: nat, slot: Slot)
    requires !slot.Fresh?
    ensures SlotsSize(Set(slots, i, slot)) + SlotSize(At(slots, i)) == SlotsSize(slots)
  {
    if i < |slots| {
      SetSize(slots, i, slot);
    }
  }

  // ---------- Evaluation ----------

  datatype Result = Result(o: Outcome, k: nat)   // k inputs have been taken so far

  function Eval(code: Body, env: Env, slots: seq<Slot>, input: nat -> int, k: nat): Result
    decreases Size(code) + SlotsSize(slots), 0
  {
    match code
    case Return(value) => Result(Value(value(env)), k)
    case Throw(error) => Result(Exception(error(env)), k)
    case If(test, yes, no) => Eval(if test(env) then yes else no, env, slots, input, k)
    case Input(next) => Eval(next, env + [input(k)], slots, input, k + 1)
    case Declare(child, args, next) =>
      AppendSize(slots, Fresh(child, args(env)));
      Eval(next, env, slots + [Fresh(child, args(env))], input, k)
    case Move(to, from, next) =>
      MovedSize(slots, to, from);
      Eval(next, env, Moved(slots, to, from), input, k)
    case Discard(task, next) =>
      SetSmaller(slots, task, Empty);
      Eval(next, env, Set(slots, task, Empty), input, k)
    case Await(task, next, handler) =>
      match At(slots, task)
      case Empty => Result(Fault, k)
      case Done(o) => After(o, next, handler, env, slots, input, k)
      case Fresh(child, args) =>
        SetSmaller(slots, task, Empty);
        var r := Eval(child, args, [], input, k);
        SetSmaller(slots, task, Done(r.o));
        After(r.o, next, handler, env, Set(slots, task, Done(r.o)), input, r.k)
  }

  // What follows an await whose Task ended with o.
  function After(o: Outcome, next: Body, handler: Option<Body>, env: Env, slots: seq<Slot>,
                 input: nat -> int, k: nat): Result
    decreases Size(next) + HandlerSize(handler) + SlotsSize(slots), 1
  {
    match o
    case Value(v) => Eval(next, env + [v], slots, input, k)
    case Exception(e) =>
      if handler.Some? then Eval(handler.value, env + [e], slots, input, k) else Result(o, k)
    case Fault => Result(Fault, k)
  }

  // Awaiting a Task where it has just been made is calling it: its value is received, and its
  // exception goes to the handler or ends the caller.
  lemma AwaitIsCall(child: Body, args: Env -> Env, next: Body, handler: Option<Body>,
                    env: Env, slots: seq<Slot>, input: nat -> int, k: nat)
    ensures var call := Eval(child, args(env), [], input, k);
            var made := slots + [Done(call.o)];
            Eval(Declare(child, args, Await(|slots|, next, handler)), env, slots, input, k)
              == if call.o.Value? then Eval(next, env + [call.o.v], made, input, call.k)
                 else if call.o.Exception? && handler.Some? then
                   Eval(handler.value, env + [call.o.e], made, input, call.k)
                 else call
  {
    var declared := slots + [Fresh(child, args(env))];
    var r := Eval(child, args(env), [], input, k);
    assert Set(declared, |slots|, Done(r.o)) == slots + [Done(r.o)];
    assert Eval(Await(|slots|, next, handler), env, declared, input, k)
        == After(r.o, next, handler, env, slots + [Done(r.o)], input, r.k);
  }

  // A move takes the Task from one variable to another and leaves the first empty; a move to
  // itself changes nothing.
  lemma MovedMeans(slots: seq<Slot>, to: nat, from: nat, i: nat)
    requires to < |slots| && from < |slots|
    ensures |Moved(slots, to, from)| == |slots|
    ensures At(Moved(slots, to, from), i)
         == if i == to then At(slots, from) else if i == from then Empty else At(slots, i)
  {
  }

  // ---------- Suspended evaluations ----------

  // A call in progress: its frame, read as a value.
  datatype Activation = Activation(code: Body, env: Env, slots: seq<Slot>)

  function EvalOf(a: Activation, input: nat -> int, k: nat): Result {
    Eval(a.code, a.env, a.slots, input, k)
  }

  // The result of a pile of calls, each awaiting the next, once the topmost has ended with r.
  function Unwind(below: seq<Activation>, r: Result, input: nat -> int): Result
    decreases |below|
  {
    if below == [] || r.o.Fault? || !below[|below| - 1].code.Await? then r
    else
      var a := below[|below| - 1];
      Unwind(below[..|below| - 1],
             After(r.o, a.code.next, a.code.handler, a.env, Set(a.slots, a.code.task, Done(r.o)), input, r.k),
             input)
  }

  function ActivationSize(a: Activation): nat {
    Size(a.code) + SlotsSize(a.slots)
  }

  function PileSize(pile: seq<Activation>): nat {
    if pile == [] then 0 else PileSize(pile[..|pile| - 1]) + ActivationSize(pile[|pile| - 1])
  }

  // What one turn of the topmost call must do to it.
  predicate SameMeaning(a: Activation, k: nat, b: Activation, m: nat, input: nat -> int) {
    EvalOf(b, input, m) == EvalOf(a, input, k) && ActivationSize(b) < ActivationSize(a)
  }

  // Taking a finished Task's outcome is what evaluation does next.
  lemma TakingKeepsMeaning(a: Activation, o: Outcome, b: Activation, input: nat -> int, k: nat)
    requires a.code.Await? && At(a.slots, a.code.task) == Done(o) && !o.Fault?
    requires b == Taken(a, o)
    ensures SameMeaning(a, k, b, k, input)
  {
    assert EvalOf(a, input, k) == After(o, a.code.next, a.code.handler, a.env, a.slots, input, k);
    assert Size(a.code) == 1 + Size(a.code.next) + HandlerSize(a.code.handler);
    if o.Exception? && a.code.handler.None? {
      var e := o.e;
      assert EvalOf(b, input, k) == Result(Exception(e), k);
      assert Size(b.code) == 1;
    }
  }

  // The frame after await_resume: it goes on with the value, in the handler, or unwinds.
  function Taken(a: Activation, o: Outcome): Activation
    requires a.code.Await?
  {
    a.(code := CodeAfter(a.code, o), env := EnvAfter(a.code, a.env, o))
  }

  function CodeAfter(code: Body, o: Outcome): Body
    requires code.Await?
  {
    match o
    case Value(_) => code.next
    case Exception(e) => if code.handler.Some? then code.handler.value else Throw(_ => e)
    case Fault => Throw(_ => 0)
  }

  function EnvAfter(code: Body, env: Env, o: Outcome): Env
    requires code.Await?
  {
    match o
    case Value(v) => env + [v]
    case Exception(e) => if code.handler.Some? then env + [e] else env
    case Fault => env
  }

  // Starting a Task moves its evaluation from the awaiting call to the top of the pile.
  lemma StartingKeepsMeaning(below: seq<Activation>, a: Activation, masked: Activation, child: Activation,
                             input: nat -> int, k: nat)
    requires a.code.Await? && At(a.slots, a.code.task) == Fresh(child.code, child.env) && child.slots == []
    requires masked == a.(slots := a.slots[a.code.task := Empty])
    ensures Unwind(below + [masked], EvalOf(child, input, k), input) == Unwind(below, EvalOf(a, input, k), input)
    ensures PileSize(below + [masked]) + ActivationSize(child) < PileSize(below) + ActivationSize(a)
  {
    var r := EvalOf(child, input, k);
    assert EvalOf(a, input, k) == After(r.o, a.code.next, a.code.handler, a.env,
                                        Set(a.slots, a.code.task, Done(r.o)), input, r.k);
    assert (below + [masked])[..|below|] == below;
    assert Set(masked.slots, a.code.task, Done(r.o)) == Set(a.slots, a.code.task, Done(r.o));
    SetSmaller(a.slots, a.code.task, Empty);
  }

  // Ending a call moves its outcome into the slot of the one that awaits it.
  lemma EndingKeepsMeaning(below: seq<Activation>, masked: Activation, a: Activation, r: Result, input: nat -> int)
    requires masked.code.Await? && masked.code.task < |masked.slots| && !r.o.Fault?
    requires a == masked.(slots := masked.slots[masked.code.task := Done(r.o)])
    ensures Unwind(below, EvalOf(a, input, r.k), input) == Unwind(below + [masked], r, input)
    ensures PileSize(below) + ActivationSize(a) <= PileSize(below + [masked])
  {
    assert (below + [masked])[..|below|] == below;
    SetSize(masked.slots, masked.code.task, Done(r.o));
  }
}
