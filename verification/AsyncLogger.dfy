// The logger as an object, and what its lock sections add up to over a whole run.
module AsyncLoggers {
  import opened Options
  import opened LoggerState

  class AsyncLogger {
    var current: Option<Buffer>
    var next: Option<Buffer>
    var buffers: seq<Option<Buffer>>
    var newBuf1: Option<Buffer>
    var newBuf2: Option<Buffer>
    var toWrite: seq<Option<Buffer>>
    var running: bool
    var started: bool
    var terminating: bool
    var file: seq<Item>
    var stderr: seq<Line>

    ghost var pc: Pc
    ghost var accepted: seq<Line>
    ghost var late: seq<Line>
    ghost var rounds: seq<Round>

    ghost function View(): State
      reads this
    {
      State(current, next, buffers, newBuf1, newBuf2, toWrite, running, started, terminating, file, stderr,
            pc, accepted, late, rounds)
    }

    // init: the front end's two buffers and the back end's two.
    constructor ()
      ensures View() == Initial()
    {
      current, next, buffers := Some([]), Some([]), [];
      newBuf1, newBuf2, toWrite := Some([]), Some([]), [];
      running, started, terminating := true, true, false;
      file, stderr := [], [];
      pc, accepted, late, rounds := Loop, [], [], [];
    }

    method Append(line: Line)
      requires Inv(View()) && Safe(View(), DoAppend(line))
      modifies this
      ensures View() == LoggerState.Append(old(View()), line) && Inv(View())
    {
      hide Conserved, FileAgrees, GoodRounds, Clean, Pointers, Kept, Put, Avail;
      StepKeepsInv(View(), DoAppend(line));
      if terminating || !started {
        stderr := stderr + [line];
        return;
      }
      if Avail(current.value) > |line| {
        if Over(pc) {
          late := late + Kept(current.value, line);
        } else {
          accepted := accepted + Kept(current.value, line);
        }
        current := Some(Put(current.value, line));
        return;
      }
      buffers := buffers + [current];
      if next.Some? {
        current, next := next, None;
      } else {
        current := Some([]);
      }
      accepted := accepted + Kept(current.value, line);
      current := Some(Put(current.value, line));
    }

    // The back end's lock section; whether it has waited, and why it woke, makes no difference.
    method Collect()
      requires Inv(View()) && pc.Loop?
      modifies this
      ensures View() == Swap(old(View())) && Inv(View())
    {
      hide Inv;
      NothingTaken(View());
      StepIsSafe(View(), DoSwap);
      StepKeepsInv(View(), DoSwap);
      HandOver();
      if next.None? {
        next, newBuf2 := newBuf2, None;
      }
      pc := Swapped;
    }

    method HandOver()
      requires toWrite == []
      modifies this`buffers, this`current, this`newBuf1, this`toWrite
      ensures buffers == [] && toWrite == old(buffers) + [old(current)]
      ensures current == old(newBuf1) && newBuf1 == None
    {
      buffers := buffers + [current];
      current, newBuf1 := newBuf1, None;
      toWrite, buffers := buffers, toWrite;
    }

    method LimitBacklog()
      requires Inv(View()) && pc.Swapped?
      modifies this
      ensures View() == Drop(old(View())) && Inv(View())
    {
      hide Conserved, FileAgrees, GoodRounds, Clean, Pointers, Values;
      StepIsSafe(View(), DoDrop);
      StepKeepsInv(View(), DoDrop);
      rounds := Drop(View()).rounds;
      if |toWrite| > BACKLOG {
        file := file + [Notice(|toWrite| - 2)];
        toWrite := toWrite[..2];
      }
      pc := Writing(0);
    }

    method WriteAll()
      requires Inv(View()) && pc == Writing(0)
      modifies this`file, this`pc
      ensures Inv(View()) && pc == Writing(|toWrite|)
      ensures file == old(file) + Texts(Lines(old(Unwritten(View()))))
    {
      hide FileOf, Lines, Texts, Conserved, Clean, GoodRounds, Values;
      var i := 0;
      while i < |toWrite|
        invariant i <= |toWrite| && pc == Writing(i) && Inv(View())
        invariant FileOf(rounds) == old(file) + Texts(Lines(old(Unwritten(View()))))
      {
        StepIsSafe(View(), DoWriteOne);
        StepKeepsInv(View(), DoWriteOne);
        file := file + Texts(toWrite[i].value);
        i := i + 1;
        pc := Writing(i);
      }
      NothingUnwritten(View());
    }

    method TakeSparesBack()
      requires Inv(View()) && pc == Writing(|toWrite|)
      modifies this
      ensures View() == Recycle(old(View())) && Inv(View())
      ensures newBuf1 == Some([]) && newBuf2 == Some([])
    {
      hide Inv, Step, Recycle;
      RecycleMeans(View());
      if |toWrite| > 2 {
        toWrite := toWrite[..2];
      }
      RefillSpares();
      toWrite := [];
      pc := Loop;
    }

    // A missing spare is the newest of the buffers just written, emptied.
    method RefillSpares()
      requires newBuf1.None? ==> toWrite != []
      modifies this`newBuf1, this`newBuf2, this`toWrite
      ensures old(newBuf1).None? ==> newBuf1 == Emptied(old(toWrite)[|old(toWrite)| - 1])
      ensures old(newBuf1).Some? ==> newBuf1 == old(newBuf1)
      ensures old(newBuf2).None? && old(newBuf1).None? && |old(toWrite)| > 1 ==>
                newBuf2 == Emptied(old(toWrite)[|old(toWrite)| - 2])
      ensures old(newBuf2).Some? ==> newBuf2 == old(newBuf2)
    {
      if newBuf1.None? {
        newBuf1 := Emptied(toWrite[|toWrite| - 1]);
        toWrite := toWrite[..|toWrite| - 1];
      }
      if newBuf2.None? && toWrite != [] {
        newBuf2 := Emptied(toWrite[|toWrite| - 1]);
        toWrite := toWrite[..|toWrite| - 1];
      }
    }

    // One round of the back end with nobody in between: everything held in front goes into the
    // file, or two buffers of it and a notice of how many do not.
    method RunRound() returns (ghost round: Round)
      requires Inv(View()) && pc.Loop?
      modifies this
      ensures Inv(View()) && pc.Loop? && InFront(View()) == []
      ensures Lines(round.written + round.dropped) == old(InFront(View())) && GoodRound(round)
      ensures file == old(file) + RoundItems(round)
    {
      hide FileOf, Lines, Texts, Conserved, Clean, GoodRounds, FileAgrees, Values, RoundItems, Pointers, AllSome;
      HeldInFront(View());
      Collect();
      ghost var before := View();
      LimitBacklog();
      round := DropMeans(before);
      WriteAll();
      TakeSparesBack();
    }

    // The lock section after the loop.
    method TakeCurrent()
      requires Inv(View()) && pc.Loop? && !running
      modifies this
      ensures View() == Drain(old(View())) && Inv(View())
    {
      hide Conserved, FileAgrees, GoodRounds, Clean, Pointers, Values, Size;
      StepIsSafe(View(), DoDrain);
      StepKeepsInv(View(), DoDrain);
      rounds := Drain(View()).rounds;
      if current.Some? && Size(current.value) > 0 {
        buffers, current := buffers + [current], None;
      }
      pc := Draining(0);
    }

    method WriteRest()
      requires Inv(View()) && pc == Draining(0)
      modifies this`file, this`pc, this`buffers
      ensures Inv(View()) && pc.Done? && file == FileOf(rounds)
    {
      hide FileOf, Lines, Texts, Conserved, Clean, GoodRounds, Values;
      var i := 0;
      while i < |buffers|
        invariant i <= |buffers| && pc == Draining(i) && Inv(View())
      {
        StepIsSafe(View(), DoDrainOne);
        StepKeepsInv(View(), DoDrainOne);
        file := file + Texts(buffers[i].value);
        i := i + 1;
        pc := Draining(i);
      }
      NothingUnwritten(View());
      StepIsSafe(View(), DoLeave);
      StepKeepsInv(View(), DoLeave);
      buffers := [];
      pc := Done;
    }

    method FinalFlush()
      requires Inv(View()) && pc.Loop? && !running
      modifies this
      ensures Inv(View()) && pc.Done? && InFront(View()) == []
      ensures file == old(file) + Texts(old(InFront(View())))
    {
      hide Conserved, FileAgrees, GoodRounds, Clean, Pointers, Values, Size, FileOf, Texts, Lines;
      DrainMeans(View());
      TakeCurrent();
      WriteRest();
      LeftNothing(View());
    }

    method RequestStop()
      modifies this`running
      ensures View() == old(View()).(running := false)
    {
      running := false;
    }

    // shutdown or flush_and_stop with the back end at its loop condition and nobody else at
    // work: whatever was held in front is in the file when it returns, and appends fall back.
    method Shutdown()
      requires Inv(View()) && pc.Loop?
      modifies this
      ensures Inv(View()) && pc.Done? && FallsBack(View())
      ensures file == old(file) + Texts(old(InFront(View())))
    {
      hide Conserved, FileAgrees, GoodRounds, Clean, Pointers, Values, Size, FileOf, Texts, Lines, Drain;
      StepKeepsInv(View(), Stop);
      HeldInFront(View());
      ghost var front := InFront(View());
      RequestStop();
      assert InFront(View()) == front;
      FinalFlush();
      StepKeepsInv(View(), Joined);
      started := false;
    }
  }

  lemma NothingTaken(s: State)
    requires Inv(s) && s.pc.Loop?
    ensures s.toWrite == []
  {
  }

  lemma NothingUnwritten(s: State)
    requires Inv(s)
    requires s.pc == Writing(|s.toWrite|) || s.pc == Draining(|s.buffers|)
    ensures FileOf(s.rounds) == s.file
  {
    hide FileOf;
    assert Unwritten(s) == [];
    assert s.file + [] == s.file;
  }

  // Both spare buffers are back at the end of a round.
  lemma RecycleMeans(s: State)
    requires Inv(s) && s.pc == Writing(|s.toWrite|)
    ensures Recycle(s) == s.(newBuf1 := Some([]), newBuf2 := Some([]), toWrite := [], pc := Loop)
    ensures Inv(Recycle(s))
    ensures AllSome(s.toWrite) && s.toWrite != []
    ensures s.newBuf1.None? && (s.newBuf2.None? ==> |s.toWrite| >= 2) && s.newBuf2 in {None, Some([])}
  {
    hide Conserved, FileAgrees, GoodRounds;
    StepIsSafe(s, DoRecycle);
    StepKeepsInv(s, DoRecycle);
  }

  lemma HeldInFront(s: State)
    requires Inv(s) && s.pc.Loop?
    ensures AllSome(s.buffers) && AllSome(s.buffers + [s.current])
    ensures Lines(Values(s.buffers + [s.current])) == InFront(s)
    ensures AllSome(Swap(s).buffers) && InFront(Swap(s)) == []
  {
    ValuesPush(s.buffers, s.current);
  }

  // More than 25 buffers: the two oldest are written, the others dropped and their number
  // reported; otherwise nothing is dropped.
  lemma DropMeans(s: State) returns (round: Round)
    requires Inv(s) && s.pc.Swapped?
    ensures Drop(s).rounds == s.rounds + [round]
    ensures round.written + round.dropped == Values(s.toWrite)
    ensures if |s.toWrite| > 25 then |round.written| == 2 else round.dropped == []
    ensures GoodRound(round)
    ensures AllSome(Drop(s).toWrite) && AllSome(Drop(s).buffers)
    ensures Drop(s).file + Texts(Lines(Unwritten(Drop(s)))) == s.file + RoundItems(round)
  {
    hide Texts, Lines, Conserved, Clean, GoodRounds, FileAgrees;
    DropShape(s);
    round := Drop(s).rounds[|s.rounds|];
    assert Unwritten(Drop(s)) == round.written;
  }

  lemma DrainMeans(s: State)
    requires Inv(s) && s.pc.Loop?
    ensures AllSome(s.buffers) && AllSome(Drain(s).buffers)
    ensures FileOf(Drain(s).rounds) == s.file + Texts(InFront(s))
  {
    hide FileOf, Texts, Lines, Values, Conserved, Clean, GoodRounds, RoundItems, FileAgrees, Behind, Size;
    NoLines();
    LoopHasWritten(s);
    DrainShape(s);
    DrainRound(s);
    assert [] + Texts(InFront(s)) == Texts(InFront(s));
  }

  lemma LoopHasWritten(s: State)
    requires FileAgrees(s) && s.pc.Loop?
    ensures FileOf(s.rounds) == s.file
  {
    hide FileOf, Texts, Lines, Values;
    NoLines();
    assert s.file + [] == s.file;
  }

  lemma DrainRound(s: State)
    requires AllSome(s.buffers) && s.pc.Loop? && s.current.Some? && Clean(s)
    ensures AllSome(Drain(s).buffers)
    ensures FileOf(Drain(s).rounds) == FileOf(s.rounds) + ([] + Texts(Lines(Values(Drain(s).buffers))))
  {
    hide FileOf, Texts, Lines, Values;
    DrainShape(s);
    RoundAdded(s.rounds, Round(Values(Drain(s).buffers), []));
  }

  lemma LeftNothing(s: State)
    requires Inv(s) && s.pc.Done?
    ensures AllSome(s.buffers) && AllSome(s.toWrite) && InFront(s) == [] && FileOf(s.rounds) == s.file
    ensures s.accepted == RoundLines(s.rounds)
  {
    hide FileOf, RoundLines;
    NoLines();
    assert s.file + [] == s.file;
  }

  // ---------- Whole runs ----------

  ghost predicate Reaches(s: State, labels: seq<Label>, t: State)
    decreases |labels|
  {
    if labels == [] then s == t
    else
      && Enabled(s, labels[0]) && Safe(s, labels[0])
      && Reaches(Step(s, labels[0]), labels[1..], t)
  }

  lemma InitialInv()
    ensures Inv(Initial())
  {
    assert Values([]) == [];
  }

  lemma {:induction false} RunKeepsInv(s: State, labels: seq<Label>, t: State)
    requires Inv(s) && Reaches(s, labels, t)
    ensures Inv(t)
    decreases |labels|
  {
    hide Inv, Step, Enabled, Safe;
    if labels != [] {
      StepKeepsInv(s, labels[0]);
      RunKeepsInv(Step(s, labels[0]), labels[1..], t);
    }
  }

  // ---------- What a run was given ----------

  // A line as it is stored: nothing of an empty one, and what fits into a buffer.
  function Piece(line: Line): seq<Line> {
    if line == "" then [] else [if |line| > 4194304 then line[..4194304] else line]
  }

  // The lines appended before the last lock section, the join and the destructor.
  function Logged(labels: seq<Label>): seq<Line> {
    if labels == [] || labels[0] in {DoDrain, Joined, Terminate} then []
    else (if labels[0].DoAppend? then Piece(labels[0].line) else []) + Logged(labels[1..])
  }

  // The lines appended after the join or the beginning of the destructor.
  function FellBack(labels: seq<Label>, over: bool): seq<Line> {
    if labels == [] then []
    else
      (if labels[0].DoAppend? && over then [labels[0].line] else [])
      + FellBack(labels[1..], over || labels[0] in {Joined, Terminate})
  }

  // An append stores its line, whole if it fits into a buffer at all, as one piece.
  lemma AppendStores(labels: seq<Label>, s: State, line: Line)
    requires Reaches(Initial(), labels, s) && !Over(s.pc) && !FallsBack(s)
    ensures s.current.Some?
    ensures Append(s, line).accepted
         == s.accepted + if line == "" then [] else [if |line| > 4194304 then line[..4194304] else line]
  {
    InitialInv();
    RunKeepsInv(Initial(), labels, s);
    StoresWhole(s, line);
  }

  lemma StoresWhole(s: State, line: Line)
    requires Inv(s) && !Over(s.pc) && !FallsBack(s)
    ensures s.current.Some? && Append(s, line).accepted == s.accepted + Piece(line)
  {
    hide Conserved, FileAgrees, GoodRounds, FallsBack, AllSome, Size;
    assert Size([]) == 0 by { SizeZero([]); }
    SizeFits(s.current.value, line);
  }

  lemma SizeFits(b: Buffer, line: Line)
    ensures Size(b) >= 0
    ensures |line| < Avail(b) ==> |line| <= CAPACITY
  {
  }

  // What there is to do for a step of whatever kind.
  lemma StepIsGiven(s: State, l: Label)
    requires Inv(s) && Enabled(s, l) && Safe(s, l)
    ensures var r := Step(s, l);
            && r.accepted == s.accepted + (if l.DoAppend? && !Over(s.pc) && !FallsBack(s) then Piece(l.line) else [])
            && r.stderr == s.stderr + (if l.DoAppend? && FallsBack(s) then [l.line] else [])
            && FallsBack(r) == (FallsBack(s) || l in {Joined, Terminate})
            && Over(r.pc) == (Over(s.pc) || l.DoDrain?)
  {
    hide Inv, Piece, Kept, Avail, Put, Step;
    if l.DoAppend? {
      AppendIsGiven(s, l.line);
    } else {
      OthersAreGiven(s, l);
    }
  }

  lemma AppendIsGiven(s: State, line: Line)
    requires Inv(s) && Safe(s, DoAppend(line))
    ensures var r := Append(s, line);
            && r.accepted == s.accepted + (if !Over(s.pc) && !FallsBack(s) then Piece(line) else [])
            && r.stderr == s.stderr + (if FallsBack(s) then [line] else [])
            && FallsBack(r) == FallsBack(s) && r.pc == s.pc
    ensures Step(s, DoAppend(line)) == Append(s, line)
  {
    if !Over(s.pc) && !FallsBack(s) {
      StoresWhole(s, line);
    }
    hide Inv, Piece, Kept, Avail, Put;
  }

  lemma OthersAreGiven(s: State, l: Label)
    requires Enabled(s, l) && Safe(s, l) && !l.DoAppend?
    ensures var r := Step(s, l);
            && r.accepted == s.accepted && r.stderr == s.stderr
            && FallsBack(r) == (FallsBack(s) || l in {Joined, Terminate})
            && Over(r.pc) == (Over(s.pc) || l.DoDrain?)
  {
    hide Values, Texts, Size;
  }

  lemma {:induction false} RunIsGiven(s: State, labels: seq<Label>, t: State)
    requires Inv(s) && Reaches(s, labels, t)
    ensures t.accepted == s.accepted + if Over(s.pc) || FallsBack(s) then [] else Logged(labels)
    ensures t.stderr == s.stderr + FellBack(labels, FallsBack(s))
    decreases |labels|
  {
    hide Inv, Step, Enabled, Safe, Over, FallsBack, Piece;
    if labels != [] {
      StepKeepsInv(s, labels[0]);
      StepIsGiven(s, labels[0]);
      RunIsGiven(Step(s, labels[0]), labels[1..], t);
    }
  }

  lemma LoggedIsAccepted(labels: seq<Label>, s: State)
    requires Reaches(Initial(), labels, s)
    ensures Inv(s) && s.accepted == Logged(labels) && s.stderr == FellBack(labels, false)
  {
    InitialInv();
    RunKeepsInv(Initial(), labels, s);
    RunIsGiven(Initial(), labels, s);
    hide Reaches, Inv, Logged, FellBack;
  }

  // An append that finds the logger stopped or going writes its line to stderr and does nothing
  // else, and nobody else writes there.
  lemma FallbackMeans(labels: seq<Label>, s: State, line: Line)
    requires Reaches(Initial(), labels, s)
    ensures s.stderr == FellBack(labels, false)
    ensures Joined in labels || Terminate in labels <==> FallsBack(s)
    ensures FallsBack(s) ==> Append(s, line) == s.(stderr := s.stderr + [line])
  {
    LoggedIsAccepted(labels, s);
    InitialInv();
    BackIsFallenOn(Initial(), labels, s);
    hide Inv, Reaches, FellBack, Kept, Put, Avail;
  }

  lemma {:induction false} BackIsFallenOn(s: State, labels: seq<Label>, t: State)
    requires Inv(s) && Reaches(s, labels, t)
    ensures FallsBack(t) <==> FallsBack(s) || Joined in labels || Terminate in labels
    decreases |labels|
  {
    hide Inv, Step, Enabled, Safe, FallsBack;
    if labels != [] {
      StepKeepsInv(s, labels[0]);
      StepIsGiven(s, labels[0]);
      BackIsFallenOn(Step(s, labels[0]), labels[1..], t);
      assert labels == [labels[0]] + labels[1..];
    }
  }

  // ---------- Room ----------

  // The characters in a buffer, which it holds one after the other.
  function Text(b: Buffer): string {
    if b == [] then "" else b[0] + Text(b[1..])
  }

  lemma {:induction false} SizeIsText(b: Buffer)
    ensures Size(b) == |Text(b)|
  {
    if b != [] {
      SizeIsText(b[1..]);
    }
  }

  predicate Fits(b: Option<Buffer>) {
    b.Some? ==> Size(b.value) <= CAPACITY
  }

  predicate AllFit(s: State) {
    && Fits(s.current) && Fits(s.next) && Fits(s.newBuf1) && Fits(s.newBuf2)
    && (forall i :: 0 <= i < |s.buffers| ==> Fits(s.buffers[i]))
    && (forall i :: 0 <= i < |s.toWrite| ==> Fits(s.toWrite[i]))
  }

  lemma {:induction false} SizePut(b: Buffer, line: Line)
    ensures Size(b + [line]) == Size(b) + |line|
  {
    if b == [] {
      assert b + [line] == [line];
    } else {
      assert (b + [line])[1..] == b[1..] + [line];
      SizePut(b[1..], line);
    }
  }

  lemma PutFits(b: Buffer, line: Line)
    requires Size(b) <= CAPACITY
    ensures Size(Put(b, line)) <= CAPACITY
  {
    hide Size;
    SizePut(b, Cut(b, line));
    assert b + [] == b;
  }

  lemma StepFits(s: State, l: Label)
    requires AllFit(s) && Enabled(s, l) && Safe(s, l)
    ensures AllFit(Step(s, l))
  {
    hide AllFit, Safe, Enabled, Append;
    match l {
      case DoAppend(line) => AppendFits(s, line);
      case DoSwap => SwapFits(s);
      case DoDrop => DropFits(s);
      case DoRecycle => RecycleFits(s);
      case DoDrain => DrainFits(s);
      case _ => OthersFit(s, l);
    }
  }

  lemma SwapFits(s: State)
    requires AllFit(s)
    ensures AllFit(Swap(s))
  {
    hide Size;
  }

  lemma DropFits(s: State)
    requires AllFit(s) && Safe(s, DoDrop)
    ensures AllFit(Drop(s))
  {
    hide Fits, Values;
  }

  lemma RecycleFits(s: State)
    requires AllFit(s) && Safe(s, DoRecycle)
    ensures AllFit(Recycle(s))
  {
    hide Size;
    NoText();
  }

  lemma DrainFits(s: State)
    requires AllFit(s) && Safe(s, DoDrain)
    ensures AllFit(Drain(s))
  {
    hide Size, Values;
  }

  lemma OthersFit(s: State, l: Label)
    requires AllFit(s) && Enabled(s, l) && Safe(s, l)
    requires !l.DoAppend? && !l.DoSwap? && !l.DoDrop? && !l.DoRecycle? && !l.DoDrain?
    ensures AllFit(Step(s, l))
  {
    hide Fits, Texts;
  }

  lemma AppendFits(s: State, line: Line)
    requires AllFit(s) && Safe(s, DoAppend(line))
    ensures AllFit(Append(s, line)) && Step(s, DoAppend(line)) == Append(s, line)
  {
    hide Put, Kept, Size, Avail, CAPACITY;
    NoText();
    if !FallsBack(s) {
      PutFits(s.current.value, line);
      PutFits(if s.next.Some? then s.next.value else [], line);
    }
  }

  lemma NoText()
    ensures Size([]) == 0 <= CAPACITY
  {
  }

  lemma {:induction false} RunFits(s: State, labels: seq<Label>, t: State)
    requires AllFit(s) && Reaches(s, labels, t)
    ensures AllFit(t)
    decreases |labels|
  {
    hide AllFit, Step, Enabled, Safe;
    if labels != [] {
      StepFits(s, labels[0]);
      RunFits(Step(s, labels[0]), labels[1..], t);
    }
  }

  // A buffer holds no more than 4 MiB of text; an append hands the current one over exactly if
  // it has no room for the line and a byte more, and uses the next one, or a new one, for it.
  lemma BuffersFillUp(labels: seq<Label>, s: State, line: Line)
    requires Reaches(Initial(), labels, s) && !Over(s.pc) && !FallsBack(s)
    ensures s.current.Some? && |Text(s.current.value)| <= 4194304
    ensures forall i :: 0 <= i < |s.buffers| && s.buffers[i].Some? ==> |Text(s.buffers[i].value)| <= 4194304
    ensures var r := Append(s, line);
            var room := 4194304 - |Text(s.current.value)|;
            if |line| < room then
              r == s.(current := Some(s.current.value + Piece(line)), accepted := r.accepted)
            else
              r == s.(buffers := s.buffers + [s.current], current := Some(Piece(line)), next := None,
                      accepted := r.accepted)
  {
    InitialInv();
    RunKeepsInv(Initial(), labels, s);
    NoText();
    RunFits(Initial(), labels, s);
    hide Reaches, Text, Size, Conserved, FileAgrees, GoodRounds;
    SizeIsText(s.current.value);
    forall i | 0 <= i < |s.buffers| && s.buffers[i].Some?
      ensures |Text(s.buffers[i].value)| <= 4194304
    {
      SizeIsText(s.buffers[i].value);
    }
    AppendCases(s, line);
  }

  lemma AppendCases(s: State, line: Line)
    requires Pointers(s) && Clean(s) && !Over(s.pc) && !FallsBack(s)
    ensures var r := Append(s, line);
            if |line| < Avail(s.current.value) then
              r == s.(current := Some(s.current.value + Piece(line)), accepted := r.accepted)
            else
              r == s.(buffers := s.buffers + [s.current], current := Some(Piece(line)), next := None,
                      accepted := r.accepted)
  {
    hide AllSome, Size;
    NoText();
    SizeFits(s.current.value, line);
    assert Put([], line) == Piece(line);
  }

  // ---------- What becomes of it ----------

  predicate Lossless(rounds: seq<Round>) {
    forall i :: 0 <= i < |rounds| ==> rounds[i].dropped == []
  }

  lemma {:induction false} LosslessFile(rounds: seq<Round>)
    requires Lossless(rounds)
    ensures FileOf(rounds) == Texts(RoundLines(rounds))
  {
    hide Texts, Lines;
    if rounds == [] {
      NoLines();
    } else {
      var below := rounds[..|rounds| - 1];
      var r := rounds[|rounds| - 1];
      LosslessFile(below);
      assert r.written + r.dropped == r.written;
      assert RoundItems(r) == Texts(Lines(r.written));
      TextsConcat(RoundLines(below), Lines(r.written));
    }
  }

  // Where no round has dropped anything, the file, then what the round under way has yet to
  // write, then what has been taken out of the lock, then what is held in front are the lines
  // logged, each whole, once and in the order of their lock sections.
  lemma LogIsConserved(labels: seq<Label>, s: State)
    requires Reaches(Initial(), labels, s) && Lossless(s.rounds)
    ensures AllSome(s.buffers) && AllSome(s.toWrite)
    ensures s.file + Texts(Lines(Unwritten(s)))
              + Texts(if s.pc.Swapped? then Lines(Values(s.toWrite)) else [])
              + Texts(InFront(s))
            == Texts(Logged(labels))
  {
    LoggedIsAccepted(labels, s);
    hide Reaches, Logged;
    hide Lines, Values, Texts, FileOf, RoundLines, Pointers, Unwritten, InFront;
    LosslessFile(s.rounds);
    var taken := if s.pc.Swapped? then Lines(Values(s.toWrite)) else [];
    TextsConcat(RoundLines(s.rounds), taken);
    TextsConcat(Behind(s), InFront(s));
  }

  // Whatever was dropped, it was all but the two oldest of more than 25 buffers, the file says
  // how many there were, and all else is in its place.
  lemma DropsAreReported(labels: seq<Label>, s: State)
    requires Reaches(Initial(), labels, s)
    ensures AllSome(s.buffers) && AllSome(s.toWrite)
    ensures Logged(labels) == Behind(s) + InFront(s)
    ensures s.file + Texts(Lines(Unwritten(s))) == FileOf(s.rounds)
    ensures forall i :: 0 <= i < |s.rounds| && s.rounds[i].dropped != [] ==>
              |s.rounds[i].written| == 2 && |s.rounds[i].written| + |s.rounds[i].dropped| > 25
  {
    LoggedIsAccepted(labels, s);
    hide Reaches, Logged;
  }

  // When the back end is gone, all that was ever logged has been through a round.
  lemma ShutdownFlushes(labels: seq<Label>, s: State)
    requires Reaches(Initial(), labels, s) && s.pc.Done?
    ensures RoundLines(s.rounds) == Logged(labels) && FileOf(s.rounds) == s.file
    ensures Lossless(s.rounds) ==> s.file == Texts(Logged(labels))
  {
    LoggedIsAccepted(labels, s);
    LeftNothing(s);
    hide Reaches, Inv, Logged;
    if Lossless(s.rounds) {
      LosslessFile(s.rounds);
    }
  }

  // Nothing that any thread does dereferences a buffer that is not there, but for an append
  // after the last lock section; in particular the current buffer is there whenever the lock is
  // free up to that, and while the next one is missing a full one waits for the back end.
  lemma NothingIsNull(labels: seq<Label>, s: State, l: Label)
    requires Reaches(Initial(), labels, s)
    ensures Enabled(s, l) && !LateAppend(s, l) ==> Safe(s, l)
    ensures !Over(s.pc) ==> s.current.Some? && (s.next.None? ==> s.buffers != [])
    ensures s.pc.Loop? ==> s.newBuf1.Some? && s.newBuf2.Some?
  {
    InitialInv();
    RunKeepsInv(Initial(), labels, s);
    if Enabled(s, l) && !LateAppend(s, l) {
      StepIsSafe(s, l);
    }
    hide Reaches;
  }

  // The last lock section takes the current buffer away if and only if it holds something, so
  // an append right after it finds none exactly then.
  lemma DrainTakesCurrent(labels: seq<Label>, s: State, line: Line)
    requires Reaches(Initial(), labels, s) && Enabled(s, DoDrain) && !FallsBack(s)
    requires |line| < 4194304
    ensures AllSome(s.buffers) && s.current.Some?
    ensures Safe(Drain(s), DoAppend(line)) <==> s.current.value == []
  {
    InitialInv();
    RunKeepsInv(Initial(), labels, s);
    hide Reaches;
    SizeZero(s.current.value);
  }

  // A late append that does find a buffer stores its line, and that line is never written: from
  // the last lock section on what is going to be in the file is settled.
  lemma {:induction false} LateLinesAreLost(s: State, labels: seq<Label>, t: State)
    requires Inv(s) && Over(s.pc) && Reaches(s, labels, t)
    ensures Over(t.pc) && t.rounds == s.rounds && t.accepted == s.accepted
    ensures s.late <= t.late && LinesOf(t.current) == t.late
    decreases |labels|
  {
    if labels == [] {
      hide Conserved, FileAgrees, GoodRounds, Clean;
    } else {
      StepKeepsInv(s, labels[0]);
      LateStep(s, labels[0]);
      hide Inv, Step, Enabled, Safe, Over;
      LateLinesAreLost(Step(s, labels[0]), labels[1..], t);
    }
  }

  lemma LateStep(s: State, l: Label)
    requires Over(s.pc) && Enabled(s, l) && Safe(s, l)
    ensures var r := Step(s, l);
            && Over(r.pc) && r.rounds == s.rounds && r.accepted == s.accepted && s.late <= r.late
  {
  }

  lemma LateLineIsNeverWritten(labels: seq<Label>, s: State, line: Line, after: seq<Label>, t: State)
    requires Reaches(Initial(), labels, s) && Over(s.pc) && !FallsBack(s) && Safe(s, DoAppend(line))
    requires Reaches(Append(s, line), after, t) && t.pc.Done?
    ensures RoundLines(t.rounds) == Logged(labels) && t.file == FileOf(s.rounds)
    ensures s.late + Kept(s.current.value, line) <= t.late
  {
    LoggedIsAccepted(labels, s);
    StepKeepsInv(s, DoAppend(line));
    LateAppendKeeps(s, line);
    LateLinesAreLost(Append(s, line), after, t);
    RunKeepsInv(Append(s, line), after, t);
    LeftNothing(t);
    hide Reaches, Inv;
  }
}
