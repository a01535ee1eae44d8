// The connection buffer: a growing array with a read and a write index that behaves as a
// queue of bytes, and the receive operation that lets the kernel write into it.
module Buffers {
  type Byte = x: int | 0 <= x < 256

  const CHEAP_PREPEND: nat := 8
  const MIN_RECV: nat := 4096

  function Min(a: int, b: int): int {
    if a < b then a else b
  }

  class Buffer {
    var buffer: array<Byte>
    var reader: nat
    var writer: nat
    ghost var appended: seq<Byte>   // everything ever appended or received
    ghost var taken: nat            // how much of it has been retrieved

    ghost predicate Valid()
      reads this, buffer
    {
      && CHEAP_PREPEND <= reader <= writer <= buffer.Length
      && taken <= |appended|
      && Contents() == appended[taken..]
    }

    // The readable bytes.
    ghost function Contents(): seq<Byte>
      requires reader <= writer <= buffer.Length
      reads this, buffer
    {
      buffer[reader..writer]
    }

    constructor (initialSize: nat)
      ensures Valid() && fresh(buffer) && appended == [] && taken == 0
      ensures buffer.Length == 8 + initialSize
      ensures reader == 8 && writer == 8
    {
      buffer := new Byte[CHEAP_PREPEND + initialSize](_ => 0);
      reader, writer := CHEAP_PREPEND, CHEAP_PREPEND;
      appended, taken := [], 0;
    }

    function ReadableBytes(): int
      reads this
    {
      writer - reader
    }

    function WritableBytes(): int
      reads this, buffer
    {
      buffer.Length - writer
    }

    // Taking more than there is takes everything.
    method Retrieve(len: nat)
      requires Valid()
      modifies this`reader, this`writer, this`taken
      ensures Valid()
      ensures taken == old(taken) + Min(len, old(ReadableBytes()))
      ensures Contents() == old(Contents())[Min(len, old(ReadableBytes()))..]
      ensures WritableBytes() >= old(WritableBytes())
    {
      taken := taken + Min(len, ReadableBytes());
      if len < ReadableBytes() {
        reader := reader + len;
      } else {
        RetrieveAll();
      }
    }

    method RetrieveAll()
      modifies this`reader, this`writer
      ensures reader == 8 && writer == 8
    {
      reader, writer := CHEAP_PREPEND, CHEAP_PREPEND;
    }

    // The bytes need only be in the storage; those beyond the readable ones are left-overs.
    method RetrieveAsString(len: nat) returns (s: seq<Byte>)
      requires Valid() && reader + len <= buffer.Length
      modifies this`reader, this`writer, this`taken
      ensures Valid() && |s| == len
      ensures len <= old(ReadableBytes()) ==> s + Contents() == old(Contents())
      ensures len >= old(ReadableBytes()) ==> old(Contents()) <= s && Contents() == []
      ensures taken == old(taken) + Min(len, old(ReadableBytes()))
    {
      s := buffer[reader..reader + len];
      assert len >= ReadableBytes() ==> Contents() == s[..ReadableBytes()];
      Retrieve(len);
    }

    method RetrieveAllAsString() returns (s: seq<Byte>)
      requires Valid()
      modifies this`reader, this`writer, this`taken
      ensures Valid() && s == old(Contents()) && Contents() == []
      ensures taken == |appended|
    {
      s := RetrieveAsString(ReadableBytes());
    }

    // vector::resize: what fits is kept, the rest is zero.
    method Resize(n: nat)
      modifies this`buffer
      ensures fresh(buffer) && buffer.Length == n
      ensures forall i :: 0 <= i < n ==> buffer[i] == if i < old(buffer.Length) then old(buffer[i]) else 0
    {
      var was := buffer;
      buffer := new Byte[n](i reads was => if 0 <= i < was.Length then was[i] else 0);
    }

    // memmove of the readable bytes to the front, which they may overlap.
    method MoveToFront()
      requires CHEAP_PREPEND <= reader <= writer <= buffer.Length
      modifies this`reader, this`writer, buffer
      ensures reader == 8 && writer == 8 + old(writer - reader)
      ensures buffer[reader..writer] == old(buffer[reader..writer])
    {
      var n := writer - reader;
      ghost var was := buffer[..];
      var i := 0;
      while i < n
        invariant 0 <= i <= n && reader == old(reader) && writer == old(writer)
        invariant buffer[CHEAP_PREPEND..CHEAP_PREPEND + i] == was[reader..reader + i]
        invariant buffer[reader + i..writer] == was[reader + i..writer]
      {
        var b := buffer[reader + i];
        assert b == buffer[reader + i..writer][0];
        ghost var rest := buffer[reader + i..writer];
        buffer[CHEAP_PREPEND + i] := b;
        assert buffer[reader + i + 1..writer] == rest[1..];
        i := i + 1;
      }
      reader := CHEAP_PREPEND;
      writer := reader + n;
    }

    method MakeSpace(len: nat)
      requires Valid() && WritableBytes() < len
      modifies this`buffer, this`reader, this`writer, buffer
      ensures Valid() && Contents() == old(Contents()) && WritableBytes() >= len
      ensures buffer == old(buffer) || fresh(buffer)
      ensures buffer.Length >= old(buffer.Length)
      ensures buffer.Length > old(buffer.Length) <==>
                old(buffer.Length) < old(ReadableBytes()) + len + 8
      ensures buffer.Length > old(buffer.Length) ==>
                buffer.Length == old(writer) + len < ReadableBytes() + 2 * len + 8
    {
      if WritableBytes() + reader < len + CHEAP_PREPEND {
        Resize(writer + len);
      } else {
        MoveToFront();
      }
    }

    method EnsureWritableBytes(len: nat)
      requires Valid()
      modifies this`buffer, this`reader, this`writer, buffer
      ensures Valid() && Contents() == old(Contents()) && WritableBytes() >= len
      ensures buffer == old(buffer) || fresh(buffer)
      ensures buffer.Length >= old(buffer.Length)
      ensures buffer.Length > old(buffer.Length) ==>
                && old(buffer.Length) < ReadableBytes() + len + 8
                && buffer.Length < ReadableBytes() + 2 * len + 8
    {
      if WritableBytes() < len {
        MakeSpace(len);
      }
    }

    // memcpy to the write position, which leaves the readable bytes alone.
    method CopyIn(data: seq<Byte>)
      requires Valid() && |data| <= WritableBytes()
      modifies buffer
      ensures Valid() && Contents() == old(Contents())
      ensures buffer[writer..writer + |data|] == data
    {
      ghost var was := Contents();
      var i := 0;
      while i < |data|
        invariant 0 <= i <= |data| && Contents() == was
        invariant buffer[writer..writer + i] == data[..i]
      {
        buffer[writer + i] := data[i];
        i := i + 1;
      }
    }

    method HasWritten(n: nat)
      requires Valid() && n <= WritableBytes()
      modifies this`writer, this`appended
      ensures Valid() && Contents() == old(Contents()) + buffer[old(writer)..old(writer) + n]
      ensures appended == old(appended) + buffer[old(writer)..old(writer) + n]
    {
      appended := appended + buffer[writer..writer + n];
      writer := writer + n;
    }

    method Append(data: seq<Byte>)
      requires Valid()
      modifies this`buffer, this`reader, this`writer, this`appended, buffer
      ensures Valid() && Contents() == old(Contents()) + data && appended == old(appended) + data
      ensures buffer == old(buffer) || fresh(buffer)
      ensures buffer.Length >= old(buffer.Length)
      ensures buffer.Length > old(buffer.Length) ==>
                buffer.Length < old(ReadableBytes()) + 2 * |data| + 8
    {
      EnsureWritableBytes(|data|);
      CopyIn(data);
      HasWritten(|data|);
    }
  }

  // A receive: the kernel writes where await_suspend points it, and on_complete accounts for it.
  class RecvIntoBuffer {
    const buf: Buffer
    var start: nat      // the space offered to the kernel
    var offered: nat
    var result: int

    constructor (buf: Buffer)
      ensures this.buf == buf
    {
      this.buf := buf;
      start, offered, result := 0, 0, 0;
    }

    method AwaitSuspend()
      requires buf.Valid()
      modifies this`start, this`offered, buf`buffer, buf`reader, buf`writer, buf.buffer
      ensures buf.Valid() && buf.Contents() == old(buf.Contents()) && offered >= 4096
      ensures start == buf.writer && offered == buf.WritableBytes()
      ensures buf.buffer == old(buf.buffer) || fresh(buf.buffer)
    {
      buf.EnsureWritableBytes(MIN_RECV);
      start, offered := buf.writer, buf.WritableBytes();
    }

    // The kernel: it writes into the space that it was offered, and no further.
    method KernelWrites(data: seq<Byte>)
      requires buf.Valid() && start == buf.writer && offered == buf.WritableBytes() && |data| <= offered
      modifies buf.buffer
      ensures buf.Valid() && buf.Contents() == old(buf.Contents())
      ensures buf.buffer[start..start + |data|] == data
    {
      buf.CopyIn(data);
    }

    // Nobody has touched the buffer since: then hasWritten finds its bound met.
    method OnComplete(res: int)
      requires buf.Valid() && start == buf.writer && offered == buf.WritableBytes() && res <= offered
      modifies this`result, buf`writer, buf`appended
      ensures buf.Valid() && result == res
      ensures buf.Contents() == old(buf.Contents()) + if res > 0 then buf.buffer[start..start + res] else []
      ensures buf.appended == old(buf.appended) + if res > 0 then buf.buffer[start..start + res] else []
    {
      result := res;
      if res > 0 {
        buf.HasWritten(res);
      }
    }
  }

  // A receive from end to end: what arrives is what the buffer gains, an error or an end of
  // the stream gains nothing, and nothing that was there is lost.
  method Recv(buf: Buffer, data: seq<Byte>, error: int) returns (n: int)
    requires buf.Valid() && error <= 0 && (error < 0 ==> data == [])
    modifies buf, buf.buffer
    ensures buf.Valid() && (buf.buffer == old(buf.buffer) || fresh(buf.buffer))
    ensures n == (if error < 0 then error else |data|) || (error == 0 && 4096 <= n < |data|)
    ensures buf.Contents() == old(buf.Contents()) + (if n > 0 then data[..n] else [])
    ensures buf.appended == old(buf.appended) + (if n > 0 then data[..n] else [])
  {
    var awaiter := new RecvIntoBuffer(buf);
    awaiter.AwaitSuspend();
    var arrived := if |data| <= awaiter.offered then data else data[..awaiter.offered];
    assert arrived == data[..|arrived|];
    awaiter.KernelWrites(arrived);
    n := if error < 0 then error else |arrived|;
    awaiter.OnComplete(n);
    n := awaiter.result;
  }

  // ---------- Any sequence of operations ----------

  // Skip is a retrieve whose bytes have been looked at through peek().
  datatype Op =
    | Put(data: seq<Byte>)
    | Take(len: nat)
    | Skip(len: nat)
    | Receive(data: seq<Byte>, error: int)

  // What one operation puts in: all of an append, and of what arrives for a receive as much
  // as it was offered space for, which is never less than 4096 bytes.
  predicate Adds(op: Op, added: seq<Byte>) {
    match op
    case Put(data) => added == data
    case Take(_) => added == []
    case Skip(_) => added == []
    case Receive(data, error) =>
      if error < 0 then added == []
      else added <= data && (added == data || |added| >= 4096)
  }

  ghost predicate Feeds(ops: seq<Op>, fed: seq<Byte>) {
    if ops == [] then fed == []
    else exists before, added ::
           Feeds(ops[..|ops| - 1], before) && Adds(ops[|ops| - 1], added) && fed == before + added
  }

  lemma FeedsMore(ops: seq<Op>, i: nat, before: seq<Byte>, added: seq<Byte>)
    requires i < |ops| && Feeds(ops[..i], before) && Adds(ops[i], added)
    ensures Feeds(ops[..i + 1], before + added)
  {
    assert ops[..i + 1][..i] == ops[..i];
  }

  method PerformPut(buf: Buffer, data: seq<Byte>)
    requires buf.Valid()
    modifies buf, buf.buffer
    ensures buf.Valid() && (buf.buffer == old(buf.buffer) || fresh(buf.buffer))
    ensures buf.Contents() == old(buf.Contents()) + data
  {
    buf.Append(data);
  }

  method PerformTake(buf: Buffer, len: nat) returns (out: seq<Byte>)
    requires buf.Valid()
    modifies buf
    ensures buf.Valid() && buf.buffer == old(buf.buffer)
    ensures out + buf.Contents() == old(buf.Contents())
  {
    out := buf.RetrieveAsString(if len < buf.ReadableBytes() then len else buf.ReadableBytes());
  }

  method PerformSkip(buf: Buffer, len: nat) returns (out: seq<Byte>)
    requires buf.Valid()
    modifies buf
    ensures buf.Valid() && buf.buffer == old(buf.buffer)
    ensures out + buf.Contents() == old(buf.Contents())
  {
    var seen := if len < buf.ReadableBytes() then len else buf.ReadableBytes();
    out := buf.buffer[buf.reader..buf.reader + seen];
    assert out == buf.Contents()[..seen];
    buf.Retrieve(len);
  }

  method PerformReceive(buf: Buffer, data: seq<Byte>, error: int) returns (added: seq<Byte>)
    requires buf.Valid()
    modifies buf, buf.buffer
    ensures buf.Valid() && (buf.buffer == old(buf.buffer) || fresh(buf.buffer))
    ensures Adds(Receive(data, error), added) && buf.Contents() == old(buf.Contents()) + added
  {
    var n := Recv(buf, if error < 0 then [] else data, if error < 0 then error else 0);
    added := if n > 0 then data[..n] else [];
  }

  method Perform(buf: Buffer, op: Op) returns (out: seq<Byte>, added: seq<Byte>)
    requires buf.Valid()
    modifies buf, buf.buffer
    ensures buf.Valid() && (buf.buffer == old(buf.buffer) || fresh(buf.buffer))
    ensures Adds(op, added) && out + buf.Contents() == old(buf.Contents()) + added
  {
    out, added := [], [];
    match op {
      case Put(data) =>
        PerformPut(buf, data);
        added := data;
      case Take(len) => out := PerformTake(buf, len);
      case Skip(len) => out := PerformSkip(buf, len);
      case Receive(data, error) => added := PerformReceive(buf, data, error);
    }
  }

  // The buffer is a queue: what has come out, then what is still in it, is what went in.
  method RunOps(initialSize: nat, ops: seq<Op>) returns (out: seq<Byte>, left: seq<Byte>, fed: seq<Byte>)
    ensures Feeds(ops, fed) && out + left == fed
  {
    hide Feeds, Adds;
    var buf := new Buffer(initialSize);
    out := [];
    fed := [];
    var i := 0;
    assert Feeds(ops[..0], fed) by {
      NothingFed(ops);
    }
    while i < |ops|
      invariant 0 <= i <= |ops| && buf.Valid() && fresh(buf) && fresh(buf.buffer)
      invariant Feeds(ops[..i], fed) && out + buf.Contents() == fed
    {
      var s, added := Perform(buf, ops[i]);
      FeedsMore(ops, i, fed, added);
      assert (out + s) + buf.Contents() == out + (s + buf.Contents());
      out := out + s;
      fed := fed + added;
      i := i + 1;
    }
    assert ops[..|ops|] == ops;
    left := buf.RetrieveAllAsString();
  }

  lemma NothingFed(ops: seq<Op>)
    ensures Feeds(ops[..0], [])
  {
  }
}
