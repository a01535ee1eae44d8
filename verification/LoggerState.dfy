// Double-buffered logging: what the front end's appends and the back end's rounds do to the
// buffers, and that no line is lost, repeated, reordered or split but for what a round reports.
module LoggerState {
  import opened Options

  const CAPACITY: nat := 4 * 1024 * 1024
  const BACKLOG: nat := 25

  type Line = string
  type Buffer = seq<Line>   // the pieces of text in a FixedBuffer, none of them empty

  // What is in the log file: text, or the notice that buffers were dropped.
  datatype Item = Text(line: Line) | Notice(dropped: nat)

  // The buffers of one round of the back end: those written and then those dropped.
  datatype Round = Round(written: seq<Buffer>, dropped: seq<Buffer>)

  // Where the back end is; each is one of its loop's lock sections or what follows it.
  datatype Pc =
    | Loop                  // at the loop condition
    | Swapped               // out of the lock with what to write
    | Writing(i: nat)
    | Draining(i: nat)      // out of the last lock section
    | Done

  datatype State = State(
    current: Option<Buffer>,
    next: Option<Buffer>,
    buffers: seq<Option<Buffer>>,
    newBuf1: Option<Buffer>,
    newBuf2: Option<Buffer>,
    toWrite: seq<Option<Buffer>>,
    running: bool,
    started: bool,
    terminating: bool,
    file: seq<Item>,
    stderr: seq<Line>,
    pc: Pc,
    accepted: seq<Line>,    // what the appends stored, in the order of their lock sections
    late: seq<Line>,        // what they stored after the back end's last lock section
    rounds: seq<Round>)

  // ---------- Buffers ----------

  function Size(b: Buffer): nat {
    if b == [] then 0 else |b[0]| + Size(b[1..])
  }

  function Avail(b: Buffer): int {
    CAPACITY - Size(b)
  }

  // FixedBuffer::append cuts what does not fit.
  function Cut(b: Buffer, line: Line): Line {
    if Avail(b) <= 0 then "" else if |line| > Avail(b) then line[..Avail(b)] else line
  }

  function Put(b: Buffer, line: Line): Buffer {
    b + Kept(b, line)
  }

  function Kept(b: Buffer, line: Line): seq<Line> {
    if Cut(b, line) == "" then [] else [Cut(b, line)]
  }

  // ---------- Steps ----------

  function Initial(): State {
    State(Some([]), Some([]), [], Some([]), Some([]), [], true, true, false, [], [], Loop, [], [], [])
  }

  predicate FallsBack(s: State) {
    s.terminating || !s.started
  }

  // After the back end's last lock section.
  predicate Over(pc: Pc) {
    pc.Draining? || pc.Done?
  }

  function Append(s: State, line: Line): State
    requires FallsBack(s) || s.current.Some?
  {
    if FallsBack(s) then s.(stderr := s.stderr + [line])
    else
      var b := s.current.value;
      if Avail(b) > |line| then
        var r := s.(current := Some(Put(b, line)));
        if Over(s.pc) then r.(late := s.late + Kept(b, line)) else r.(accepted := s.accepted + Kept(b, line))
      else
        var spare := if s.next.Some? then s.next.value else [];
        s.(buffers := s.buffers + [s.current],
           current := Some(Put(spare, line)),
           next := None,
           accepted := s.accepted + Kept(spare, line))
  }

  // The back end's lock section.
  function Swap(s: State): State {
    s.(toWrite := s.buffers + [s.current],
       buffers := [],
       current := s.newBuf1,
       newBuf1 := None,
       next := if s.next.None? then s.newBuf2 else s.next,
       newBuf2 := if s.next.None? then None else s.newBuf2,
       pc := Swapped)
  }

  function Values(bufs: seq<Option<Buffer>>): (r: seq<Buffer>)
    requires AllSome(bufs)
    ensures |r| == |bufs|
  {
    seq(|bufs|, i requires 0 <= i < |bufs| => bufs[i].value)
  }

  predicate AllSome(bufs: seq<Option<Buffer>>) {
    forall i :: 0 <= i < |bufs| ==> bufs[i].Some?
  }

  // The backlog limit.
  function Drop(s: State): State
    requires AllSome(s.toWrite)
  {
    var n := |s.toWrite|;
    if n > BACKLOG then
      s.(file := s.file + [Notice(n - 2)],
         toWrite := s.toWrite[..2],
         rounds := s.rounds + [Round(Values(s.toWrite)[..2], Values(s.toWrite)[2..])],
         pc := Writing(0))
    else
      s.(rounds := s.rounds + [Round(Values(s.toWrite), [])], pc := Writing(0))
  }

  function Texts(b: Buffer): (items: seq<Item>)
    ensures |items| == |b|
  {
    seq(|b|, i requires 0 <= i < |b| => Text(b[i]))
  }

  function WriteOne(s: State): State
    requires s.pc.Writing? && s.pc.i < |s.toWrite| && s.toWrite[s.pc.i].Some?
  {
    s.(file := s.file + Texts(s.toWrite[s.pc.i].value), pc := Writing(s.pc.i + 1))
  }

  // The spare buffers are taken back, newest first, and emptied.
  function Recycle(s: State): State
    requires s.newBuf1.None? ==> s.toWrite != []
  {
    var kept := if |s.toWrite| > 2 then s.toWrite[..2] else s.toWrite;
    var afterFirst := if s.newBuf1.None? then kept[..|kept| - 1] else kept;
    s.(newBuf1 := if s.newBuf1.None? then Emptied(kept[|kept| - 1]) else s.newBuf1,
       newBuf2 := if s.newBuf2.None? && afterFirst != [] then Emptied(afterFirst[|afterFirst| - 1]) else s.newBuf2,
       toWrite := [],
       pc := Loop)
  }

  function Emptied(b: Option<Buffer>): Option<Buffer> {
    if b.None? then None else Some([])
  }

  // The last lock section, once the loop has been left.
  function Drain(s: State): State
    requires AllSome(s.buffers)
  {
    var takes := s.current.Some? && Size(s.current.value) > 0;
    var rest := if takes then s.buffers + [s.current] else s.buffers;
    s.(buffers := rest, current := if takes then None else s.current,
       rounds := s.rounds + [Round(Values(rest), [])], pc := Draining(0))
  }

  function DrainOne(s: State): State
    requires s.pc.Draining? && s.pc.i < |s.buffers| && s.buffers[s.pc.i].Some?
  {
    s.(file := s.file + Texts(s.buffers[s.pc.i].value), pc := Draining(s.pc.i + 1))
  }

  function Leave(s: State): State {
    s.(buffers := [], pc := Done)
  }

  datatype Label =
    | DoAppend(line: Line)
    | DoSwap | DoDrop | DoWriteOne | DoRecycle | DoDrain | DoDrainOne | DoLeave
    | Stop          // shutdown or flush_and_stop: running_ is cleared
    | Joined        // and the back end has been joined
    | Terminate     // the logger's destructor begins

  predicate Enabled(s: State, l: Label) {
    match l
    case DoAppend(_) => true
    case DoSwap => s.pc.Loop?      // the loop condition may have been read before a stop
    case DoDrop => s.pc.Swapped?
    case DoWriteOne => s.pc.Writing? && s.pc.i < |s.toWrite|
    case DoRecycle => s.pc.Writing? && s.pc.i >= |s.toWrite|
    case DoDrain => s.pc.Loop? && !s.running
    case DoDrainOne => s.pc.Draining? && s.pc.i < |s.buffers|
    case DoLeave => s.pc.Draining? && s.pc.i >= |s.buffers|
    case Stop => true
    case Joined => s.pc.Done?
    case Terminate => true
  }

  // What a step dereferences is there, and nobody pushes onto the vector that the back end
  // reads without the lock in the end.
  predicate Safe(s: State, l: Label) {
    match l
    case DoAppend(line) =>
      FallsBack(s) || (s.current.Some? && (Over(s.pc) ==> Avail(s.current.value) > |line|))
    case DoDrop => AllSome(s.toWrite)
    case DoWriteOne => s.pc.Writing? && s.pc.i < |s.toWrite| && s.toWrite[s.pc.i].Some?
    case DoRecycle => s.newBuf1.None? ==> s.toWrite != []
    case DoDrain => AllSome(s.buffers)
    case DoDrainOne => s.pc.Draining? && s.pc.i < |s.buffers| && s.buffers[s.pc.i].Some?
    case _ => true
  }

  function Step(s: State, l: Label): State
    requires Enabled(s, l) && Safe(s, l)
  {
    match l
    case DoAppend(line) => Append(s, line)
    case DoSwap => Swap(s)
    case DoDrop => Drop(s)
    case DoWriteOne => WriteOne(s)
    case DoRecycle => Recycle(s)
    case DoDrain => Drain(s)
    case DoDrainOne => DrainOne(s)
    case DoLeave => Leave(s)
    case Stop => s.(running := false)
    case Joined => s.(started := false)
    case Terminate => s.(terminating := true)
  }

  // ---------- Invariants ----------

  function Lines(bufs: seq<Buffer>): seq<Line> {
    if bufs == [] then [] else bufs[0] + Lines(bufs[1..])
  }

  function LinesOf(b: Option<Buffer>): seq<Line> {
    if b.Some? then b.value else []
  }

  function RoundLines(rounds: seq<Round>): seq<Line> {
    if rounds == [] then []
    else
      var r := rounds[|rounds| - 1];
      RoundLines(rounds[..|rounds| - 1]) + Lines(r.written + r.dropped)
  }

  // What the rounds put into the file.
  function FileOf(rounds: seq<Round>): seq<Item> {
    if rounds == [] then []
    else
      var r := rounds[|rounds| - 1];
      FileOf(rounds[..|rounds| - 1]) + RoundItems(r)
  }

  function RoundItems(r: Round): seq<Item> {
    (if r.dropped == [] then [] else [Notice(|r.dropped|)]) + Texts(Lines(r.written))
  }

  predicate GoodRound(r: Round) {
    r.dropped != [] ==> |r.written| == 2 && |r.written| + |r.dropped| > BACKLOG
  }

  // The back end always has what it is going to hand over, and recovers it in every round.
  predicate Pointers(s: State) {
    && AllSome(s.buffers) && AllSome(s.toWrite)
    && (!Over(s.pc) ==> s.current.Some? && (s.next.None? ==> s.buffers != []))
    && (s.pc.Loop? ==> s.newBuf1.Some? && s.newBuf2.Some? && s.toWrite == [])
    && (s.pc.Swapped? || s.pc.Writing? ==>
          && s.newBuf1.None? && s.toWrite != []
          && (s.newBuf2.None? ==> |s.toWrite| >= 2))
    && (s.pc.Writing? ==> s.pc.i <= |s.toWrite|)
    && (s.pc.Draining? ==> s.pc.i <= |s.buffers|)
    && (if Over(s.pc) then LinesOf(s.current) == s.late else s.late == [])
  }

  predicate Blank(b: Option<Buffer>) {
    b.None? || b.value == []
  }

  // Spare buffers are empty, and no text in the current one is.
  predicate Clean(s: State) {
    && Blank(s.next) && Blank(s.newBuf1) && Blank(s.newBuf2)
    && (s.current.Some? ==> "" !in s.current.value)
  }

  // What the back end has taken out of the lock, and what the front end holds.
  function Behind(s: State): seq<Line>
    requires AllSome(s.toWrite)
  {
    RoundLines(s.rounds) + if s.pc.Swapped? then Lines(Values(s.toWrite)) else []
  }

  function InFront(s: State): seq<Line>
    requires AllSome(s.buffers)
  {
    if Over(s.pc) then [] else Lines(Values(s.buffers)) + LinesOf(s.current)
  }

  // Everything stored has been through a round, is about to, or is held in front; in the order
  // in which it was appended.
  ghost predicate Conserved(s: State) {
    AllSome(s.buffers) && AllSome(s.toWrite) && s.accepted == Behind(s) + InFront(s)
  }

  // The file is what the rounds put there, but for what the round under way has yet to write.
  ghost predicate FileAgrees(s: State) {
    AllSome(s.buffers) && AllSome(s.toWrite) &&
    FileOf(s.rounds) == s.file + Texts(Lines(Unwritten(s)))
  }

  function Unwritten(s: State): seq<Buffer>
    requires AllSome(s.buffers) && AllSome(s.toWrite)
  {
    if s.pc.Writing? && s.pc.i <= |s.toWrite| then Values(s.toWrite)[s.pc.i..]
    else if s.pc.Draining? && s.pc.i <= |s.buffers| then Values(s.buffers)[s.pc.i..]
    else []
  }

  predicate GoodRounds(rounds: seq<Round>) {
    forall i :: 0 <= i < |rounds| ==> GoodRound(rounds[i])
  }

  ghost predicate Inv(s: State) {
    Pointers(s) && Clean(s) && Conserved(s) && FileAgrees(s) && GoodRounds(s.rounds)
  }

  // ---------- Sequences of buffers ----------

  lemma {:induction false} LinesConcat(a: seq<Buffer>, b: seq<Buffer>)
    ensures Lines(a + b) == Lines(a) + Lines(b)
  {
    if a == [] {
      assert a + b == b;
    } else {
      LinesConcat(a[1..], b);
      assert (a + b)[1..] == a[1..] + b;
    }
  }

  lemma LinesOne(b: Buffer)
    ensures Lines([b]) == b
  {
    assert [b][1..] == [];
  }

  lemma ValuesPush(bufs: seq<Option<Buffer>>, b: Option<Buffer>)
    requires AllSome(bufs) && b.Some?
    ensures AllSome(bufs + [b])
    ensures Lines(Values(bufs + [b])) == Lines(Values(bufs)) + b.value
  {
    assert Values(bufs + [b]) == Values(bufs) + [b.value];
    LinesConcat(Values(bufs), [b.value]);
    LinesOne(b.value);
  }

  lemma ValuesTake(bufs: seq<Option<Buffer>>, n: nat)
    requires AllSome(bufs) && n <= |bufs|
    ensures AllSome(bufs[..n]) && Values(bufs[..n]) == Values(bufs)[..n]
  {
  }

  lemma RoundAdded(rounds: seq<Round>, r: Round)
    ensures RoundLines(rounds + [r]) == RoundLines(rounds) + Lines(r.written + r.dropped)
    ensures FileOf(rounds + [r]) == FileOf(rounds) + RoundItems(r)
  {
    assert (rounds + [r])[..|rounds|] == rounds;
  }

  lemma TextsConcat(a: Buffer, b: Buffer)
    ensures Texts(a + b) == Texts(a) + Texts(b)
  {
  }

  // ---------- Every step keeps it ----------

  predicate LateAppend(s: State, l: Label) {
    l.DoAppend? && Over(s.pc) && !FallsBack(s)
  }

  // Only an append after the last lock section can go wrong.
  lemma StepIsSafe(s: State, l: Label)
    requires Inv(s) && Enabled(s, l) && !LateAppend(s, l)
    ensures Safe(s, l)
  {
  }

  lemma SizeZero(b: Buffer)
    requires "" !in b
    ensures Size(b) == 0 <==> b == []
  {
    if b != [] {
      assert b[0] in b;
    }
  }

  lemma StepKeepsPointers(s: State, l: Label)
    requires Pointers(s) && Clean(s) && Enabled(s, l) && Safe(s, l)
    ensures Pointers(Step(s, l))
  {
    hide Pointers, Drain;
    if l.DoDrain? {
      DrainKeepsPointers(s);
    } else {
      OthersKeepPointers(s, l);
    }
  }

  lemma DrainKeepsPointers(s: State)
    requires Pointers(s) && Clean(s) && Enabled(s, DoDrain)
    ensures Pointers(Drain(s))
  {
    SizeZero(s.current.value);
  }

  lemma OthersKeepPointers(s: State, l: Label)
    requires Pointers(s) && Enabled(s, l) && Safe(s, l) && !l.DoDrain?
    ensures Pointers(Step(s, l))
  {
    hide Values, Size, Kept, Avail;
  }

  lemma StepKeepsClean(s: State, l: Label)
    requires Pointers(s) && Clean(s) && Enabled(s, l) && Safe(s, l)
    ensures Clean(Step(s, l))
  {
  }

  lemma StepKeepsRounds(s: State, l: Label)
    requires GoodRounds(s.rounds) && Pointers(s) && Enabled(s, l) && Safe(s, l)
    ensures GoodRounds(Step(s, l).rounds)
  {
  }

  lemma AppendConserves(s: State, line: Line)
    requires Conserved(s) && Clean(s) && !Over(s.pc)
    requires s.current.Some? && !FallsBack(s)
    ensures Conserved(Append(s, line))
  {
    hide Conserved, RoundLines, Lines, Values, Behind, InFront, Clean, Cut, Kept, Avail, Size, FallsBack;
    var r := Append(s, line);
    ConservedMeans(s);
    if Avail(s.current.value) <= |line| {
      ValuesPush(s.buffers, s.current);
    }
    AppendMovesFront(s, line);
    BehindStays(s, r);
    var stored := r.accepted[|s.accepted|..];
    assert s.accepted + stored == Behind(s) + (InFront(s) + stored);
    ConservedMeans(r);
  }

  // A late append changes nothing that is ever going to be written.
  lemma LateAppendKeeps(s: State, line: Line)
    requires Over(s.pc) && !FallsBack(s) && Safe(s, DoAppend(line))
    ensures var r := Append(s, line);
            && r == s.(current := r.current, late := s.late + Kept(s.current.value, line))
            && LinesOf(r.current) == LinesOf(s.current) + Kept(s.current.value, line)
    ensures Conserved(s) ==> Conserved(Append(s, line))
    ensures FileAgrees(s) ==> FileAgrees(Append(s, line))
  {
    hide RoundLines, Lines, Values, FileOf, Texts;
  }

  lemma ConservedMeans(s: State)
    ensures Conserved(s) ==> AllSome(s.buffers) && AllSome(s.toWrite)
    ensures AllSome(s.buffers) && AllSome(s.toWrite) ==> (Conserved(s) <==> s.accepted == Behind(s) + InFront(s))
  {
  }

  lemma BehindStays(s: State, r: State)
    requires AllSome(s.toWrite) && r.toWrite == s.toWrite && r.rounds == s.rounds && r.pc == s.pc
    ensures Behind(r) == Behind(s)
  {
  }

  lemma AppendMovesFront(s: State, line: Line)
    requires AllSome(s.buffers) && !Over(s.pc)
    requires s.current.Some? && !FallsBack(s) && Clean(s)
    ensures var r := Append(s, line);
            && AllSome(r.buffers) && s.accepted <= r.accepted
            && InFront(r) == InFront(s) + r.accepted[|s.accepted|..]
  {
    hide Lines, Values, Kept, Avail, Size, FallsBack, AllSome;
    if Avail(s.current.value) <= |line| {
      ValuesPush(s.buffers, s.current);
    }
  }

  lemma SwapConserves(s: State)
    requires Conserved(s) && Pointers(s) && Clean(s) && Enabled(s, DoSwap)
    ensures Conserved(Swap(s))
  {
    hide Conserved, RoundLines, Lines, Values, Behind, InFront, AllSome;
    var r := Swap(s);
    ConservedMeans(s);
    ValuesPush(s.buffers, s.current);
    NothingHeld();
    SwapMoves(s);
    ConservedMeans(r);
  }

  lemma NothingHeld()
    ensures AllSome([]) && Lines(Values([])) == []
  {
  }

  lemma SwapMoves(s: State)
    requires Pointers(s) && s.pc.Loop? && Blank(s.newBuf1)
    ensures AllSome(Swap(s).toWrite)
    ensures Behind(Swap(s)) == Behind(s) + InFront(s) && InFront(Swap(s)) == []
  {
    hide RoundLines, Lines;
    ValuesPush(s.buffers, s.current);
    NothingHeld();
  }

  lemma DropConserves(s: State)
    requires AllSome(s.toWrite) && AllSome(s.buffers) && s.pc.Swapped?
    ensures Conserved(s) ==> Conserved(Drop(s))
    ensures FileAgrees(s) ==> FileAgrees(Drop(s))
  {
    hide Conserved, FileAgrees, RoundLines, FileOf, Lines, Values, Texts, RoundItems;
    var r := Drop(s);
    var values := Values(s.toWrite);
    var round := r.rounds[|s.rounds|];
    DropShape(s);
    RoundAdded(s.rounds, round);
    ConservedMeans(s);
    ConservedMeans(r);
    DropsBehind(s, r, round);
    DropsFile(s, r, round);
  }

  lemma DropShape(s: State)
    requires AllSome(s.toWrite) && s.pc.Swapped?
    ensures var r := Drop(s);
            && |r.rounds| == |s.rounds| + 1 && r.rounds == s.rounds + [r.rounds[|s.rounds|]]
            && AllSome(r.toWrite) && r.pc == Writing(0) && r.buffers == s.buffers && r.current == s.current
            && r.accepted == s.accepted
            && (var round := r.rounds[|s.rounds|];
                && round.written + round.dropped == Values(s.toWrite)
                && round.written == Values(r.toWrite)
                && r.file == s.file + if round.dropped == [] then [] else [Notice(|round.dropped|)])
  {
    ValuesTake(s.toWrite, if |s.toWrite| > BACKLOG then 2 else |s.toWrite|);
  }

  lemma DropsBehind(s: State, r: State, round: Round)
    requires AllSome(s.toWrite) && AllSome(r.toWrite) && s.pc.Swapped? && r.pc.Writing?
    requires AllSome(s.buffers) && r.buffers == s.buffers && r.current == s.current
    requires RoundLines(r.rounds) == RoundLines(s.rounds) + Lines(round.written + round.dropped)
    requires round.written + round.dropped == Values(s.toWrite)
    ensures Behind(r) == Behind(s) && InFront(r) == InFront(s)
  {
    hide RoundLines, Lines, Values;
  }

  lemma DropsFile(s: State, r: State, round: Round)
    requires AllSome(s.toWrite) && AllSome(r.toWrite) && s.pc.Swapped? && r.pc == Writing(0)
    requires AllSome(s.buffers) && r.buffers == s.buffers
    requires FileOf(r.rounds) == FileOf(s.rounds) + RoundItems(round) && round.written == Values(r.toWrite)
    requires r.file == s.file + if round.dropped == [] then [] else [Notice(|round.dropped|)]
    ensures FileAgrees(s) ==> FileAgrees(r)
  {
    hide Lines, Values, FileOf, Texts, AllSome;
    NoLines();
    assert Values(r.toWrite)[0..] == Values(r.toWrite);
    assert s.file + [] == s.file;
  }

  lemma NoLines()
    ensures Lines([]) == [] && Texts([]) == []
  {
  }

  lemma WritingAgrees(bufs: seq<Buffer>, i: nat, file: seq<Item>)
    requires i < |bufs|
    ensures file + Texts(Lines(bufs[i..])) == (file + Texts(bufs[i])) + Texts(Lines(bufs[i + 1..]))
  {
    assert bufs[i..] == [bufs[i]] + bufs[i..][1..] && bufs[i..][1..] == bufs[i + 1..];
    TextsConcat(bufs[i], Lines(bufs[i + 1..]));
  }

  lemma DrainConserves(s: State)
    requires AllSome(s.toWrite) && AllSome(s.buffers) && s.pc.Loop? && s.current.Some? && Clean(s)
    ensures Conserved(s) ==> Conserved(Drain(s))
    ensures FileAgrees(s) ==> FileAgrees(Drain(s))
  {
    hide Conserved, FileAgrees, RoundLines, FileOf, Lines, Values, Texts, RoundItems;
    var r := Drain(s);
    var round := Round(Values(r.buffers), []);
    DrainShape(s);
    RoundAdded(s.rounds, round);
    assert round.written + round.dropped == round.written;
    ConservedMeans(s);
    ConservedMeans(r);
    DrainsBehind(s, r);
    DrainsFile(s, r);
  }

  lemma DrainShape(s: State)
    requires AllSome(s.buffers) && s.pc.Loop? && s.current.Some? && Clean(s)
    ensures var r := Drain(s);
            && AllSome(r.buffers) && LinesOf(r.current) == []
            && Lines(Values(r.buffers)) == Lines(Values(s.buffers)) + s.current.value
  {
    SizeZero(s.current.value);
    ValuesPush(s.buffers, s.current);
  }

  lemma DrainsBehind(s: State, r: State)
    requires AllSome(s.toWrite) && AllSome(s.buffers) && s.pc.Loop? && s.current.Some?
    requires AllSome(r.buffers) && r.pc.Draining? && LinesOf(r.current) == [] && r.toWrite == s.toWrite
    requires Lines(Values(r.buffers)) == Lines(Values(s.buffers)) + s.current.value
    requires RoundLines(r.rounds) == RoundLines(s.rounds) + Lines(Values(r.buffers))
    ensures Behind(r) + InFront(r) == Behind(s) + InFront(s)
  {
    hide RoundLines, Lines, Values, AllSome;
  }

  lemma DrainsFile(s: State, r: State)
    requires AllSome(s.toWrite) && AllSome(s.buffers) && s.pc.Loop?
    requires AllSome(r.buffers) && r.pc == Draining(0) && r.toWrite == s.toWrite && r.file == s.file
    requires FileOf(r.rounds) == FileOf(s.rounds) + RoundItems(Round(Values(r.buffers), []))
    ensures FileAgrees(s) ==> FileAgrees(r)
  {
    hide Lines, Values, FileOf, Texts, AllSome;
    NoLines();
    assert Values(r.buffers)[0..] == Values(r.buffers);
    assert s.file + [] == s.file;
    assert [] + Texts(Lines(Values(r.buffers))) == Texts(Lines(Values(r.buffers)));
  }

  lemma StepConserves(s: State, l: Label)
    requires Inv(s) && Enabled(s, l) && Safe(s, l)
    ensures Conserved(Step(s, l))
  {
    hide Append, Swap, Drop, Drain, Clean, Conserved, FileAgrees, GoodRounds, FallsBack;
    match l {
      case DoAppend(line) =>
        if FallsBack(s) {
          FallbackKeeps(s, line);
        } else if Over(s.pc) {
          LateAppendKeeps(s, line);
        } else {
          AppendConserves(s, line);
        }
      case DoSwap => SwapConserves(s);
      case DoDrop => DropConserves(s);
      case DoDrain => DrainConserves(s);
      case _ => RestConserves(s, l);
    }
  }

  lemma FallbackKeeps(s: State, line: Line)
    requires FallsBack(s)
    ensures Conserved(s) ==> Conserved(Append(s, line))
    ensures FileAgrees(s) ==> FileAgrees(Append(s, line))
  {
  }

  lemma RestConserves(s: State, l: Label)
    requires Inv(s) && Enabled(s, l) && Safe(s, l)
    requires !l.DoAppend? && !l.DoSwap? && !l.DoDrop? && !l.DoDrain?
    ensures Conserved(Step(s, l))
  {
  }

  lemma WriteAgrees(s: State, l: Label)
    requires FileAgrees(s) && Enabled(s, l) && Safe(s, l) && (l.DoWriteOne? || l.DoDrainOne?)
    ensures FileAgrees(Step(s, l))
  {
    hide Lines, FileOf, Texts;
    if l.DoWriteOne? {
      WritingAgrees(Values(s.toWrite), s.pc.i, s.file);
    } else {
      WritingAgrees(Values(s.buffers), s.pc.i, s.file);
    }
  }

  lemma LoopAgrees(s: State, l: Label)
    requires FileAgrees(s) && Pointers(s) && Enabled(s, l) && Safe(s, l)
    requires l.DoSwap? || l.DoRecycle? || l.DoLeave? || l.Stop? || l.Joined? || l.Terminate?
    ensures FileAgrees(Step(s, l))
  {
    hide Lines, FileOf, Texts, Values;
    if l.Stop? || l.Joined? || l.Terminate? {
      assert Unwritten(Step(s, l)) == Unwritten(s);
    } else {
      assert Unwritten(s) == [] && Unwritten(Step(s, l)) == [];
    }
  }

  lemma AppendAgrees(s: State, line: Line)
    requires FileAgrees(s) && Pointers(s) && Safe(s, DoAppend(line))
    ensures FileAgrees(Append(s, line))
  {
    hide Lines, FileOf, Texts, Avail, Kept;
  }

  lemma StepKeepsFile(s: State, l: Label)
    requires Inv(s) && Enabled(s, l) && Safe(s, l)
    ensures FileAgrees(Step(s, l))
  {
    hide Append, Swap, Drop, Drain, Clean, Conserved, FileAgrees, GoodRounds;
    match l {
      case DoAppend(line) => AppendAgrees(s, line);
      case DoDrop => DropConserves(s);
      case DoDrain => DrainConserves(s);
      case DoWriteOne => WriteAgrees(s, l);
      case DoDrainOne => WriteAgrees(s, l);
      case _ => LoopAgrees(s, l);
    }
  }

  lemma StepKeepsInv(s: State, l: Label)
    requires Inv(s) && Enabled(s, l) && Safe(s, l)
    ensures Inv(Step(s, l))
  {
    hide Pointers, Clean, Conserved, FileAgrees, GoodRounds, Step, Enabled, Safe;
    StepKeepsPointers(s, l);
    StepKeepsClean(s, l);
    StepConserves(s, l);
    StepKeepsFile(s, l);
    StepKeepsRounds(s, l);
  }
}
