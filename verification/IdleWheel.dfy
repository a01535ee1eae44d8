// The idle-connection wheel: a ring of buckets of shared entries.  An entry lives as long as
// some bucket holds it; the wheel never looks at a clock or at an entry's age, and yet evicts
// exactly what a table of last activities says.
module IdleWheels {
  import opened Options
  import opened CircularBuffers

  type Id = nat
  type Connection = nat
  type Bucket = set<Id>

  datatype Wheel = Wheel(
    buckets: seq<Bucket>,            // from the oldest to the newest
    refs: map<Id, nat>,              // the reference count of each entry that exists
    connection: map<Id, Connection>, // wconn
    alive: set<Connection>,
    next: Id,
    destroyed: set<Id>,
    shutdowns: set<Id>,              // entries whose destructor has spawned a shutdown
    ticks: nat)                      // how often the wheel has been turned

  // ---------- Operations ----------

  function BucketCount(idle: int): (n: nat)
    ensures n >= 1 && n >= idle && (n == 1 || n == idle)
  {
    if idle > 0 then idle else 1
  }

  function NoEntries(n: nat): (buckets: seq<Bucket>)
    ensures |buckets| == n && forall i :: 0 <= i < n ==> buckets[i] == {}
  {
    if n == 0 then [] else NoEntries(n - 1) + [{}]
  }

  function Initial(idle: int): Wheel {
    Wheel(NoEntries(BucketCount(idle)), map[], map[], {}, 0, {}, {}, 0)
  }

  // back().insert(e), which takes a reference unless the bucket has one.
  function Inserted(w: Wheel, e: Id): Wheel
    requires w.buckets != []
  {
    var n := |w.buckets| - 1;
    w.(buckets := w.buckets[n := w.buckets[n] + {e}],
       refs := if e in w.buckets[n] then w.refs
               else w.refs[e := 1 + if e in w.refs then w.refs[e] else 0])
  }

  function Registered(w: Wheel, c: Connection): Wheel
    requires w.buckets != []
  {
    Inserted(w.(next := w.next + 1, connection := w.connection[w.next := c], alive := w.alive + {c}), w.next)
  }

  // refresh through the connection's weak pointer, which is empty once the entry is gone.
  function Refreshed(w: Wheel, e: Id): Wheel
    requires w.buckets != []
  {
    if e in w.refs then Inserted(w, e) else w
  }

  // One reference less, and the entry's destructor with the last one.
  function Dropped(w: Wheel, e: Id): Wheel
    requires e in w.refs
  {
    if w.refs[e] > 1 then w.(refs := w.refs[e := w.refs[e] - 1])
    else
      w.(refs := w.refs - {e}, destroyed := w.destroyed + {e},
         shutdowns := if e in w.connection && w.connection[e] in w.alive then w.shutdowns + {e} else w.shutdowns)
  }

  // The destructor of a bucket drops a reference to each of its entries.
  function DroppedAll(w: Wheel, bucket: Bucket): Wheel {
    var gone := set e | e in bucket && e in w.refs && w.refs[e] <= 1;
    w.(refs := map e | e in w.refs && e !in gone :: if e in bucket then w.refs[e] - 1 else w.refs[e],
       destroyed := w.destroyed + gone,
       shutdowns := w.shutdowns + set e | e in gone && e in w.connection && w.connection[e] in w.alive)
  }

  // push_back of an empty bucket: the oldest one goes.
  function Ticked(w: Wheel): Wheel
    requires w.buckets != []
  {
    DroppedAll(w, w.buckets[0]).(buckets := w.buckets[1..] + [{}], ticks := w.ticks + 1)
  }

  function Closed(w: Wheel, c: Connection): Wheel {
    w.(alive := w.alive - {c})
  }

  // ---------- What the buckets say ----------

  function Count(buckets: seq<Bucket>, e: Id): nat {
    if buckets == [] then 0
    else Count(buckets[..|buckets| - 1], e) + if e in buckets[|buckets| - 1] then 1 else 0
  }

  // The newest bucket that holds e.
  function Latest(buckets: seq<Bucket>, e: Id): (i: int)
    ensures -1 <= i < |buckets|
  {
    if buckets == [] then -1
    else if e in buckets[|buckets| - 1] then |buckets| - 1
    else Latest(buckets[..|buckets| - 1], e)
  }

  ghost predicate Inv(w: Wheel) {
    && w.buckets != []
    && (forall e: Id {:trigger e in w.refs} :: e in w.refs <==> Count(w.buckets, e) > 0)
    && (forall e: Id {:trigger e in w.refs} :: e in w.refs ==> w.refs[e] == Count(w.buckets, e))
    && (forall e: Id {:trigger e in w.refs} {:trigger e in w.destroyed} ::
          e in w.refs || e in w.destroyed <==> e < w.next)
    && w.refs.Keys !! w.destroyed && w.shutdowns <= w.destroyed
    && (forall e: Id {:trigger e in w.connection} :: e in w.connection <==> e < w.next)
  }

  // ---------- Counting ----------

  lemma {:induction false} CountShift(buckets: seq<Bucket>, e: Id)
    requires buckets != []
    ensures Count(buckets[1..], e) + (if e in buckets[0] then 1 else 0) == Count(buckets, e)
  {
    var n := |buckets| - 1;
    if n > 0 {
      assert buckets[1..][..n - 1] == buckets[..n][1..];
      CountShift(buckets[..n], e);
    } else {
      assert buckets[1..] == [] && buckets[..n] == [];
    }
  }

  lemma {:induction false} LatestShift(buckets: seq<Bucket>, e: Id)
    requires buckets != []
    ensures Latest(buckets[1..], e) == (if Latest(buckets, e) <= 0 then -1 else Latest(buckets, e) - 1)
  {
    var n := |buckets| - 1;
    if n > 0 {
      assert buckets[1..][..n - 1] == buckets[..n][1..];
      LatestShift(buckets[..n], e);
    } else {
      assert buckets[1..] == [] && buckets[..n] == [];
    }
  }

  lemma {:induction false} CountMeansLatest(buckets: seq<Bucket>, e: Id)
    ensures Count(buckets, e) > 0 <==> Latest(buckets, e) >= 0
    ensures Latest(buckets, e) == 0 ==> Count(buckets, e) == 1 && e in buckets[0]
    ensures Count(buckets, e) == 1 && e in buckets[0] ==> Latest(buckets, e) == 0
  {
    if buckets != [] {
      CountMeansLatest(buckets[..|buckets| - 1], e);
      if |buckets| > 1 && e in buckets[0] {
        SomewhereCounts(buckets[..|buckets| - 1], e);
      }
    }
  }

  lemma {:induction false} SomewhereCounts(buckets: seq<Bucket>, e: Id)
    requires buckets != [] && e in buckets[0]
    ensures Count(buckets, e) > 0
  {
    CountShift(buckets, e);
  }

  lemma TickMoves(buckets: seq<Bucket>, e: Id)
    requires buckets != []
    ensures Count(buckets[1..] + [{}], e) + (if e in buckets[0] then 1 else 0) == Count(buckets, e)
    ensures Latest(buckets[1..] + [{}], e) == (if Latest(buckets, e) <= 0 then -1 else Latest(buckets, e) - 1)
  {
    assert (buckets[1..] + [{}])[..|buckets| - 1] == buckets[1..];
    CountShift(buckets, e);
    LatestShift(buckets, e);
  }

  lemma InsertMoves(buckets: seq<Bucket>, e: Id, x: Id)
    requires buckets != []
    ensures var n := |buckets| - 1;
            var r := buckets[n := buckets[n] + {e}];
            && Count(r, x) == Count(buckets, x) + (if x == e && e !in buckets[n] then 1 else 0)
            && Latest(r, x) == (if x == e then n else Latest(buckets, x))
  {
    var n := |buckets| - 1;
    assert buckets[n := buckets[n] + {e}][..n] == buckets[..n];
  }

  // ---------- Every operation keeps it ----------

  lemma InitialInv(idle: int)
    ensures Inv(Initial(idle))
  {
    assert BucketCount(idle) > 0;
    forall e: Id
      ensures Count(Initial(idle).buckets, e) == 0
    {
      EmptyCounts(BucketCount(idle), e);
    }
  }

  lemma {:induction false} EmptyCounts(n: nat, e: Id)
    ensures Count(NoEntries(n), e) == 0
  {
    if n > 0 {
      assert NoEntries(n)[..n - 1] == NoEntries(n - 1);
      EmptyCounts(n - 1, e);
    }
  }

  lemma InsertedKeeps(w: Wheel, e: Id)
    requires Inv(w) && e in w.refs
    ensures Inv(Inserted(w, e))
  {
    forall x: Id
      ensures var r := Inserted(w, e); (x in r.refs <==> Count(r.buckets, x) > 0)
      ensures var r := Inserted(w, e); x in r.refs ==> r.refs[x] == Count(r.buckets, x)
    {
      InsertMoves(w.buckets, e, x);
    }
  }

  lemma RegisteredKeeps(w: Wheel, c: Connection)
    requires Inv(w)
    ensures Inv(Registered(w, c))
  {
    forall x: Id
      ensures var r := Registered(w, c); (x in r.refs <==> Count(r.buckets, x) > 0)
      ensures var r := Registered(w, c); x in r.refs ==> r.refs[x] == Count(r.buckets, x)
    {
      InsertMoves(w.buckets, w.next, x);
      NewcomerIsNowhere(w);
    }
  }

  lemma NewcomerIsNowhere(w: Wheel)
    requires Inv(w)
    ensures w.next !in w.refs && w.next !in w.buckets[|w.buckets| - 1] && Count(w.buckets, w.next) == 0
  {
    assert w.next !in w.refs;
  }

  lemma TickedKeeps(w: Wheel)
    requires Inv(w)
    ensures Inv(Ticked(w))
  {
    var r := Ticked(w);
    forall x: Id
      ensures x in r.refs <==> Count(r.buckets, x) > 0
      ensures x in r.refs ==> r.refs[x] == Count(r.buckets, x)
    {
      TickMoves(w.buckets, x);
    }
  }

  // ---------- The table ----------

  // The plain way: when each entry was last registered or refreshed, and who is out.
  datatype Table = Table(
    last: map<Id, int>,
    ticks: nat,
    connection: map<Id, Connection>,
    alive: set<Connection>,
    next: Id,
    out: set<Id>,
    shutdowns: set<Id>)

  // The table that a wheel stands for.
  ghost function TableOf(w: Wheel): Table {
    Table(map e | e in w.refs :: w.ticks + 1 - |w.buckets| + Latest(w.buckets, e),
          w.ticks, w.connection, w.alive, w.next, w.destroyed, w.shutdowns)
  }

  function TableStep(t: Table, n: nat, l: Label): Table {
    match l
    case Register(c) =>
      t.(last := t.last[t.next := t.ticks], next := t.next + 1,
         connection := t.connection[t.next := c], alive := t.alive + {c})
    case Refresh(e) => if e in t.last then t.(last := t.last[e := t.ticks]) else t
    case Tick =>
      // one tick later every entry that has been idle for n of them is out
      var idle := set e | e in t.last && t.ticks + 1 - t.last[e] >= n;
      t.(last := t.last - idle, ticks := t.ticks + 1, out := t.out + idle,
         shutdowns := t.shutdowns + set e | e in idle && e in t.connection && t.connection[e] in t.alive)
    case Close(c) => t.(alive := t.alive - {c})
  }

  datatype Label =
    | Register(c: Connection)
    | Refresh(e: Id)
    | Tick
    | Close(c: Connection)   // the connection object is destroyed

  function Step(w: Wheel, l: Label): (r: Wheel)
    requires w.buckets != []
    ensures |r.buckets| == |w.buckets|
  {
    match l
    case Register(c) => Registered(w, c)
    case Refresh(e) => Refreshed(w, e)
    case Tick => Ticked(w)
    case Close(c) => Closed(w, c)
  }

  lemma InsertedLast(w: Wheel, e: Id)
    requires Inv(w)
    ensures TableOf(Inserted(w, e)).last == TableOf(w).last[e := w.ticks]
  {
    forall x: Id
      ensures Latest(Inserted(w, e).buckets, x) == if x == e then |w.buckets| - 1 else Latest(w.buckets, x)
    {
      InsertMoves(w.buckets, e, x);
    }
    assert e in w.buckets[|w.buckets| - 1] ==> e in w.refs by {
      assert Count(w.buckets, e) >= if e in w.buckets[|w.buckets| - 1] then 1 else 0;
    }
  }

  // Idle for n ticks means: in the oldest bucket and in no other.
  lemma TickedLast(w: Wheel)
    requires Inv(w)
    ensures var t := TableOf(w);
            && (forall e: Id :: (e in w.buckets[0] && e in w.refs && w.refs[e] <= 1)
                  <==> (e in t.last && t.ticks + 1 - t.last[e] >= |w.buckets|))
            && TableOf(Ticked(w)).last == t.last - (set e | e in t.last && t.ticks + 1 - t.last[e] >= |w.buckets|)
  {
    var r := Ticked(w);
    forall x: Id | x in w.refs
      ensures x in w.buckets[0] && w.refs[x] <= 1 <==> Latest(w.buckets, x) == 0
      ensures Latest(w.buckets, x) > 0 ==> Latest(r.buckets, x) == Latest(w.buckets, x) - 1
    {
      TickMoves(w.buckets, x);
      CountMeansLatest(w.buckets, x);
    }
    forall x: Id | x in w.buckets[0]
      ensures x in w.refs
    {
      SomewhereCounts(w.buckets, x);
    }
    forall x: Id | x in w.refs
      ensures Latest(w.buckets, x) >= 0
    {
      CountMeansLatest(w.buckets, x);
    }
  }

  lemma StepKeepsInv(w: Wheel, l: Label)
    requires Inv(w)
    ensures Inv(Step(w, l)) && |Step(w, l).buckets| == |w.buckets|
  {
    match l {
      case Register(c) => RegisteredKeeps(w, c);
      case Refresh(e) =>
        if e in w.refs {
          InsertedKeeps(w, e);
        }
      case Tick => TickedKeeps(w);
      case Close(_) =>
    }
  }

  // Whatever happens next, the wheel and the table do the same.
  lemma StepRefines(w: Wheel, l: Label)
    requires Inv(w)
    ensures TableOf(Step(w, l)) == TableStep(TableOf(w), |w.buckets|, l)
  {
    hide Latest, Count;
    match l {
      case Register(c) => RegisterRefines(w, c);
      case Refresh(e) => InsertedLast(w, e);
      case Tick => TickedLast(w);
      case Close(_) =>
    }
  }

  lemma RegisterRefines(w: Wheel, c: Connection)
    requires Inv(w)
    ensures TableOf(Registered(w, c)) == TableStep(TableOf(w), |w.buckets|, Register(c))
  {
    forall x: Id
      ensures Latest(Registered(w, c).buckets, x) == if x == w.next then |w.buckets| - 1 else Latest(w.buckets, x)
    {
      InsertMoves(w.buckets, w.next, x);
    }
    NewcomerIsNowhere(w);
  }

  // ---------- Whole runs ----------

  function Run(w: Wheel, labels: seq<Label>): (r: Wheel)
    requires w.buckets != []
    ensures |r.buckets| == |w.buckets|
    decreases |labels|
  {
    if labels == [] then w else Run(Step(w, labels[0]), labels[1..])
  }

  function TableRun(t: Table, n: nat, labels: seq<Label>): Table
    decreases |labels|
  {
    if labels == [] then t else TableRun(TableStep(t, n, labels[0]), n, labels[1..])
  }

  lemma {:induction false} RunKeepsInv(w: Wheel, labels: seq<Label>)
    requires Inv(w)
    ensures Inv(Run(w, labels)) && |Run(w, labels).buckets| == |w.buckets|
    ensures TableOf(Run(w, labels)) == TableRun(TableOf(w), |w.buckets|, labels)
    decreases |labels|
  {
    hide TableOf, TableStep, Step, Inv;
    assert Inv(w) ==> w.buckets != [] by { HasBuckets(w); }
    if labels != [] {
      StepKeepsInv(w, labels[0]);
      StepRefines(w, labels[0]);
      RunKeepsInv(Step(w, labels[0]), labels[1..]);
    }
  }

  lemma HasBuckets(w: Wheel)
    ensures Inv(w) ==> w.buckets != []
  {
  }

  function EmptyTable(): Table {
    Table(map[], 0, map[], {}, 0, {}, {})
  }

  // A wheel for an idle time of so many seconds does, over any run, what the table for as many
  // ticks does: same entries alive, same evicted, same shutdowns.  The reference count of an
  // entry is the number of buckets that hold it, and no entry is destroyed twice.
  lemma WheelIsTable(idle: int, labels: seq<Label>)
    ensures var w := Run(Initial(idle), labels);
            && TableOf(w) == TableRun(EmptyTable(), if idle > 1 then idle else 1, labels)
            && (forall e: Id {:trigger e in w.refs} :: e in w.refs ==> w.refs[e] == Count(w.buckets, e) > 0)
            && w.refs.Keys !! w.destroyed
  {
    InitialInv(idle);
    RunKeepsInv(Initial(idle), labels);
    assert TableOf(Initial(idle)) == EmptyTable();
    hide Run, TableRun, TableOf;
  }

  function TicksIn(labels: seq<Label>): nat {
    if labels == [] then 0 else (if labels[0].Tick? then 1 else 0) + TicksIn(labels[1..])
  }

  // In the table an entry that is never refreshed is out with the n-th tick and not before.
  lemma {:induction false} TableForgets(t: Table, n: nat, labels: seq<Label>, e: Id)
    requires e < t.next && Refresh(e) !in labels
    requires e in t.last ==> t.ticks - t.last[e] < n
    ensures var r := TableRun(t, n, labels);
            && (e !in t.last ==> e !in r.last)
            && (e in t.last ==> (e in r.last <==> t.ticks + TicksIn(labels) - t.last[e] < n))
    decreases |labels|
  {
    if labels != [] {
      var m := TableStep(t, n, labels[0]);
      TableForgets(m, n, labels[1..], e);
    }
  }

  // The label registers entry e or finds it to refresh.
  predicate Touches(w: Wheel, l: Label, e: Id) {
    (l.Register? && e == w.next) || (l == Refresh(e) && e in w.refs)
  }

  lemma TouchedLast(w: Wheel, l: Label, e: Id)
    requires Inv(w) && Touches(w, l, e)
    ensures var t := TableOf(Step(w, l));
            e < t.next && e in t.last && t.last[e] == t.ticks && e !in t.shutdowns
    ensures l.Register? ==> (var r := Step(w, l); e in r.connection && r.connection[e] == l.c && l.c in r.alive)
  {
    StepRefines(w, l);
    hide Latest, Count;
    if l.Refresh? {
      assert e in w.refs;
    }
  }

  // So an entry just registered or refreshed outlives any run without another refresh if and
  // only if the run has fewer ticks than the wheel was given seconds, whatever others do.
  lemma EvictedAfterItsTime(idle: int, before: seq<Label>, l: Label, e: Id, after: seq<Label>)
    requires Touches(Run(Initial(idle), before), l, e) && Refresh(e) !in after
    ensures var r := Run(Step(Run(Initial(idle), before), l), after);
            var seconds := if idle > 1 then idle else 1;
            && (e in r.refs <==> TicksIn(after) < seconds)
            && (e in r.destroyed <==> TicksIn(after) >= seconds)
  {
    InitialInv(idle);
    RunKeepsInv(Initial(idle), before);
    var was := Run(Initial(idle), before);
    StepKeepsInv(was, l);
    TouchedLast(was, l, e);
    var w := Step(was, l);
    RunKeepsInv(w, after);
    hide Run, TableRun, Latest, Count, Step;
    TableForgets(TableOf(w), |w.buckets|, after, e);
    IdsStay(w, after);
  }

  // Whether connection c exists at the n-th tick of a run, if there is one.
  function OpenAtTick(labels: seq<Label>, n: nat, c: Connection, open: bool): bool {
    if labels == [] then false
    else
      match labels[0]
      case Tick => if n <= 1 then open else OpenAtTick(labels[1..], n - 1, c, open)
      case Register(d) => OpenAtTick(labels[1..], n, c, open || d == c)
      case Close(d) => OpenAtTick(labels[1..], n, c, open && d != c)
      case Refresh(_) => OpenAtTick(labels[1..], n, c, open)
  }

  lemma {:induction false} TableShuts(t: Table, n: nat, labels: seq<Label>, e: Id)
    requires e < t.next && Refresh(e) !in labels && e in t.connection
    requires e in t.last ==> t.ticks - t.last[e] < n && e !in t.shutdowns
    ensures var r := TableRun(t, n, labels);
            e in r.shutdowns <==>
              if e in t.last then
                OpenAtTick(labels, n - (t.ticks - t.last[e]), t.connection[e], t.connection[e] in t.alive)
              else e in t.shutdowns
    decreases |labels|
  {
    if labels != [] {
      var m := TableStep(t, n, labels[0]);
      TableShuts(m, n, labels[1..], e);
    }
  }

  // How a run goes on after a label that touches e.
  lemma TouchedRun(idle: int, before: seq<Label>, l: Label, e: Id, after: seq<Label>)
    requires Touches(Run(Initial(idle), before), l, e)
    ensures var w := Step(Run(Initial(idle), before), l);
            var t := TableOf(w);
            && TableOf(Run(w, after)) == TableRun(t, if idle > 1 then idle else 1, after)
            && e < t.next && e in t.last && t.last[e] == t.ticks && e !in t.shutdowns
            && (l.Register? ==> e in t.connection && t.connection[e] == l.c && l.c in t.alive)
  {
    InitialInv(idle);
    RunKeepsInv(Initial(idle), before);
    var was := Run(Initial(idle), before);
    StepKeepsInv(was, l);
    TouchedLast(was, l, e);
    RunKeepsInv(Step(was, l), after);
    hide Run, TableRun, Latest, Count, Step, Inv;
  }

  // An entry that is never refreshed has its connection shut down, by the tick that evicts it,
  // if and only if the connection still exists then.
  lemma ShutDownIfOpen(idle: int, before: seq<Label>, c: Connection, after: seq<Label>)
    requires Refresh(Run(Initial(idle), before).next) !in after
    ensures var w := Run(Initial(idle), before);
            var r := Run(Step(w, Register(c)), after);
            w.next in r.shutdowns <==> OpenAtTick(after, if idle > 1 then idle else 1, c, true)
  {
    hide Run, TableRun, Step, Inv, TableOf, OpenAtTick;
    var w := Run(Initial(idle), before);
    var t := TableOf(Step(w, Register(c)));
    TouchedRun(idle, before, Register(c), w.next, after);
    TableShuts(t, if idle > 1 then idle else 1, after, w.next);
    TableShutdowns(Run(Step(w, Register(c)), after));
  }

  lemma TableShutdowns(w: Wheel)
    ensures TableOf(w).shutdowns == w.shutdowns
  {
  }

  lemma {:induction false} IdsStay(w: Wheel, labels: seq<Label>)
    requires w.buckets != []
    ensures Run(w, labels).next >= w.next
    decreases |labels|
  {
    if labels != [] {
      IdsStay(Step(w, labels[0]), labels[1..]);
    }
  }

  // ---------- The wheel as an object ----------

  lemma DroppedOneMore(w: Wheel, done: Bucket, e: Id)
    requires w.refs.Keys !! w.destroyed && e in w.refs && e !in done
    ensures e in DroppedAll(w, done).refs && e !in DroppedAll(w, done).destroyed
    ensures Dropped(DroppedAll(w, done), e) == DroppedAll(w, done + {e})
  {
    var m := DroppedAll(w, done);
    assert Dropped(m, e).refs == DroppedAll(w, done + {e}).refs;
    assert Dropped(m, e).destroyed == DroppedAll(w, done + {e}).destroyed;
    assert Dropped(m, e).shutdowns == DroppedAll(w, done + {e}).shutdowns;
  }

  class IdleConnectionWheel {
    const buckets: CircularBuffer<Bucket>
    var refs: map<Id, nat>
    var connection: map<Id, Connection>
    var alive: set<Connection>
    var next: Id
    var destroyed: set<Id>
    var shutdowns: set<Id>
    ghost var ticks: nat

    ghost predicate Valid()
      reads this, buckets, buckets.buffer
    {
      buckets.Valid() && buckets.size == buckets.capacity && Inv(View())
    }

    ghost function View(): Wheel
      requires buckets.Valid()
      reads this, buckets, buckets.buffer
    {
      Wheel(buckets.Contents(), refs, connection, alive, next, destroyed, shutdowns, ticks)
    }

    constructor (idle: int)
      ensures Valid() && View() == Initial(idle) && fresh(buckets) && fresh(buckets.buffer)
      ensures |buckets.Contents()| == buckets.capacity == if idle > 1 then idle else 1
      ensures forall i :: 0 <= i < buckets.capacity ==> buckets.Contents()[i] == {}
    {
      var n := if idle > 0 then idle else 1;
      buckets := new CircularBuffer<Bucket>(n, {});
      refs, connection, alive, next := map[], map[], {}, 0;
      destroyed, shutdowns, ticks := {}, {}, 0;
      new;
      var i := 0;
      while i < n
        invariant 0 <= i <= n && buckets.Valid() && buckets.capacity == n && fresh(buckets) && fresh(buckets.buffer)
        invariant buckets.Contents() == NoEntries(i) && buckets.size == i
        invariant refs == map[] && connection == map[] && alive == {} && next == 0
        invariant destroyed == {} && shutdowns == {} && ticks == 0
      {
        var blank := buckets.PushBack({});
        i := i + 1;
      }
      InitialInv(idle);
    }

    // Inserts into the newest bucket.
    method Insert(e: Id)
      requires buckets.Valid() && buckets.size == buckets.capacity
      modifies this`refs, buckets, buckets.buffer
      ensures buckets.Valid() && buckets.size == buckets.capacity
      ensures View() == Inserted(old(View()), e)
    {
      var back := buckets.Back();
      if e !in back.value {
        refs := refs[e := 1 + if e in refs then refs[e] else 0];
      }
      buckets.AssignBack(back.value + {e});
    }

    method RegisterConn(c: Connection) returns (e: Id)
      requires Valid()
      modifies this, buckets, buckets.buffer
      ensures Valid() && View() == Registered(old(View()), c) && e == old(next)
    {
      RegisteredKeeps(View(), c);
      e := next;
      next, connection, alive := next + 1, connection[next := c], alive + {c};
      Insert(e);
    }

    method Refresh(e: Id)
      requires Valid()
      modifies this, buckets, buckets.buffer
      ensures Valid() && View() == Refreshed(old(View()), e)
    {
      if e in refs {
        InsertedKeeps(View(), e);
        Insert(e);
      }
    }

    // One shared_ptr to e is destroyed; ~IdleEntry runs with the last, once.
    method DropReference(e: Id)
      requires buckets.Valid() && e in refs && e !in destroyed
      modifies this`refs, this`destroyed, this`shutdowns
      ensures View() == Dropped(old(View()), e)
    {
      if refs[e] > 1 {
        refs := refs[e := refs[e] - 1];
      } else {
        refs, destroyed := refs - {e}, destroyed + {e};
        if e in connection && connection[e] in alive {
          shutdowns := shutdowns + {e};
        }
      }
    }

    method Tick()
      requires Valid()
      modifies this, buckets, buckets.buffer
      ensures Valid() && View() == Ticked(old(View()))
    {
      hide Inv, DroppedAll, Dropped, Window;
      TickedKeeps(View());
      OldestExist(View());
      ghost var w := View();
      var rest := buckets.PushBack({});
      ghost var done := {};
      ghost var m := w.(buckets := w.buckets[1..] + [{}]);
      TickedDrops(w);
      while rest != {}
        invariant buckets.Valid() && buckets.size == buckets.capacity
        invariant done !! rest && done + rest == w.buckets[0] && ticks == w.ticks
        invariant View() == DroppedAll(m, done)
      {
        var e :| e in rest;
        DroppedOneMore(m, done, e);
        DropReference(e);
        rest := rest - {e};
        done := done + {e};
      }
      ticks := ticks + 1;
    }

    method CloseConnection(c: Connection)
      requires Valid()
      modifies this`alive
      ensures Valid() && View() == Closed(old(View()), c)
    {
      StepKeepsInv(View(), Close(c));
      alive := alive - {c};
    }
  }

  lemma OldestExist(w: Wheel)
    requires Inv(w)
    ensures w.refs.Keys !! w.destroyed && w.buckets != []
    ensures forall e :: e in w.buckets[0] ==> e in w.refs
  {
    forall e | e in w.buckets[0]
      ensures e in w.refs
    {
      SomewhereCounts(w.buckets, e);
    }
  }

  lemma TickedDrops(w: Wheel)
    requires w.buckets != []
    ensures var m := w.(buckets := w.buckets[1..] + [{}]);
            && DroppedAll(m, {}) == m
            && Ticked(w) == DroppedAll(m, w.buckets[0]).(ticks := w.ticks + 1)
            && DroppedAll(m, w.buckets[0]).ticks == w.ticks
  {
    var m := w.(buckets := w.buckets[1..] + [{}]);
    assert DroppedAll(m, {}).refs == m.refs && DroppedAll(m, {}).shutdowns == m.shutdowns;
  }
}
