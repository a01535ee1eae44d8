// A fixed array used as a ring: pushing onto a full one overwrites the oldest element.
module CircularBuffers {
  import opened Options

  // The last `capacity` elements of everything ever pushed.
  function Window<T>(pushed: seq<T>, capacity: nat): seq<T> {
    if |pushed| <= capacity then pushed else pushed[|pushed| - capacity..]
  }

  lemma WindowGrows<T>(pushed: seq<T>, capacity: nat, x: T)
    requires capacity > 0
    ensures var w := Window(pushed, capacity);
            Window(pushed + [x], capacity) == (if |w| == capacity then w[1..] else w) + [x]
  {
  }

  lemma WindowEnds<T>(pushed: seq<T>, capacity: nat, x: T)
    requires capacity > 0 && pushed != []
    ensures var w := Window(pushed, capacity);
            && w != [] && w[|w| - 1] == pushed[|pushed| - 1]
            && Window(pushed[|pushed| - 1 := x], capacity) == w[|w| - 1 := x]
  {
  }

  // ---------- Indices on the ring ----------

  function Next(index: nat, capacity: nat): nat
    requires capacity > 0
  {
    (index + 1) % capacity
  }

  function Prev(index: nat, capacity: nat): nat
    requires capacity > 0
  {
    (index + capacity - 1) % capacity
  }

  lemma Small(x: nat, m: nat)
    requires x < m
    ensures x % m == x
  {
  }

  lemma OneTurn(x: nat, m: nat)
    requires x < m
    ensures (x + m) % m == x
  {
    var q := (x + m) / m;
    assert x + m == q * m + (x + m) % m;
    assert q >= 2 ==> q * m >= 2 * m;
    assert q <= 0 ==> q * m <= 0;
    assert q == 1;
  }

  lemma Wraps(index: nat, capacity: nat)
    requires index < capacity
    ensures Next(index, capacity) == if index + 1 < capacity then index + 1 else 0
    ensures Prev(index, capacity) == if index > 0 then index - 1 else capacity - 1
  {
    if index + 1 < capacity {
      Small(index + 1, capacity);
    } else {
      OneTurn(0, capacity);
    }
    if index > 0 {
      OneTurn(index - 1, capacity);
    } else {
      Small(capacity - 1, capacity);
    }
  }

  class CircularBuffer<T> {
    const buffer: array<T>
    const capacity: nat
    var size: nat
    var head: nat
    var tail: nat
    ghost var pushed: seq<T>   // every element pushed, as it is now

    ghost predicate Valid()
      reads this, buffer
    {
      && buffer.Length == capacity
      && size <= capacity && head < capacity && tail < capacity
      && (size < capacity ==> head == 0 && tail == size)
      && (size == capacity ==> head == tail)
      && Contents() == Window(pushed, capacity)
    }

    // From the oldest element to the newest.
    ghost function Contents(): seq<T>
      requires size <= buffer.Length && head <= buffer.Length
      reads this, buffer
    {
      if size < capacity then buffer[..size] else buffer[head..] + buffer[..head]
    }

    constructor (capacity: nat, blank: T)
      requires capacity > 0
      ensures Valid() && fresh(buffer) && this.capacity == capacity
      ensures pushed == [] && Contents() == []
    {
      this.capacity := capacity;
      buffer := new T[capacity](_ => blank);
      size, head, tail := 0, 0, 0;
      pushed := [];
    }

    // The element that the new one is assigned over comes back; it is destroyed.
    method PushBack(item: T) returns (displaced: T)
      requires Valid()
      modifies this, buffer
      ensures old(size) == capacity ==> displaced == old(Contents())[0]
      ensures Valid() && pushed == old(pushed) + [item]
      ensures Contents() == (if old(size) == capacity then old(Contents())[1..] else old(Contents())) + [item]
      ensures size == |Contents()|
    {
      hide Next, Window;
      WindowGrows(pushed, capacity, item);
      Wraps(tail, capacity);
      displaced := buffer[tail];
      if size == capacity {
        buffer[tail] := item;
        tail := Next(tail, capacity);
        head := tail;
        assert Contents() == old(Contents())[1..] + [item];
      } else {
        buffer[tail] := item;
        tail := Next(tail, capacity);
        size := size + 1;
        assert Contents() == old(Contents()) + [item];
      }
      pushed := pushed + [item];
    }

    // back(): nothing where the original throws.
    method Back() returns (x: Option<T>)
      requires Valid()
      ensures x == if pushed == [] then None else Some(pushed[|pushed| - 1])
      ensures x == if Contents() == [] then None else Some(Contents()[|Contents()| - 1])
    {
      if size == 0 {
        return None;
      }
      WindowEnds(pushed, capacity, pushed[|pushed| - 1]);
      Wraps(tail, capacity);
      x := Some(buffer[Prev(tail, capacity)]);
    }

    // An assignment through the reference that back() returns.
    method AssignBack(item: T)
      requires Valid() && size > 0
      modifies this`pushed, buffer
      ensures Valid() && pushed == old(pushed)[|old(pushed)| - 1 := item]
      ensures Contents() == old(Contents())[|old(Contents())| - 1 := item]
    {
      WindowEnds(pushed, capacity, item);
      Wraps(tail, capacity);
      buffer[Prev(tail, capacity)] := item;
      assert Contents() == old(Contents())[|old(Contents())| - 1 := item];
      pushed := pushed[|pushed| - 1 := item];
    }

    // An iterator: its position, or none at the end.
    function Begin(): Option<nat>
      reads this
    {
      if size == 0 then None else Some(head)
    }

    function After(pos: nat): Option<nat>
      requires capacity > 0
      reads this
    {
      if Next(pos, capacity) == tail || size == 0 then None else Some(Next(pos, capacity))
    }

    // A loop from begin() to end() visits each element once, from the oldest to the newest.
    method Visit() returns (visited: seq<T>)
      requires Valid()
      ensures visited == Contents() && visited == Window(pushed, capacity)
    {
      hide Next, Window;
      visited := [];
      var it := Begin();
      while it.Some?
        invariant |visited| <= size && visited == Contents()[..|visited|]
        invariant it.Some? ==>
                    && |visited| < size
                    && it.value == if head + |visited| < capacity then head + |visited|
                                   else head + |visited| - capacity
        invariant it.None? ==> |visited| == size
        decreases size - |visited|, if it.Some? then 1 else 0
      {
        Wraps(it.value, capacity);
        assert Contents()[|visited|] == buffer[it.value];
        visited := visited + [buffer[it.value]];
        it := After(it.value);
      }
    }
  }
}
