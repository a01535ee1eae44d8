// The send loop of a connection and the echo handler over it: what comes out is what went in
// up to some point, unless a write of nothing is followed by one of something.
module Echoes {
  import opened Options

  type Byte = x: int | 0 <= x < 256

  // One turn of the handler: what recv_fixed brought and what the writes then return, for as
  // long as they have returned.
  datatype Round = Round(chunk: seq<Byte>, results: seq<int>)

  // How send_fixed ends; Pending is a send whose last write has not returned yet.
  datatype Ending = Full | Short | Failed(error: int) | Pending

  datatype Sent = Sent(written: seq<Byte>, ending: Ending)

  // A write takes at most what it is given, and is made only while something is left.
  predicate Legal(data: seq<Byte>, results: seq<int>) {
    results != [] ==>
      && data != [] && results[0] <= |data|
      && if results[0] <= 0 then |results| == 1 else Legal(data[results[0]..], results[1..])
  }

  // What the writes send and how they end, one after the other.
  function Send(data: seq<Byte>, results: seq<int>): (r: Sent)
    requires Legal(data, results)
    ensures r.written <= data
    ensures r.ending.Full? ==> r.written == data
    ensures r.ending.Short? ==> |r.written| < |data|
  {
    if data == [] then Sent([], Full)
    else if results == [] then Sent([], Pending)
    else if results[0] < 0 then Sent([], Failed(results[0]))
    else if results[0] == 0 then Sent([], Short)
    else
      var rest := Send(data[results[0]..], results[1..]);
      Sent(data[..results[0]] + rest.written, rest.ending)
  }

  // The bytes that writes with these results take.
  function Total(results: seq<int>): nat {
    if results == [] then 0 else (if results[0] > 0 then results[0] else 0) + Total(results[1..])
  }

  // A send writes the front of its data, as much as its writes took, and ends with the last byte,
  // with a write of nothing, with an error, or not yet.
  lemma {:induction false} SendMeans(data: seq<Byte>, results: seq<int>)
    requires Legal(data, results)
    ensures Total(results) <= |data| && Send(data, results).written == data[..Total(results)]
    ensures match Send(data, results).ending
            case Full => Total(results) == |data|
            case Short => Total(results) < |data| && results != [] && results[|results| - 1] == 0
            case Failed(e) => Total(results) < |data| && results != [] && results[|results| - 1] == e < 0
            case Pending => Total(results) < |data| && (results == [] || results[|results| - 1] > 0)
    decreases |results|
  {
    if results != [] && results[0] > 0 {
      var k, rest := results[0], results[1..];
      SendMeans(data[k..], rest);
      assert data[..k] + data[k..][..Total(rest)] == data[..k + Total(rest)];
      assert rest != [] ==> rest[|rest| - 1] == results[|results| - 1];
    } else if results != [] {
      assert results == [results[0]];
    }
  }

  predicate AllLegal(rounds: seq<Round>) {
    forall i :: 0 <= i < |rounds| ==> rounds[i].chunk != [] && Legal(rounds[i].chunk, rounds[i].results)
  }

  function Result(r: Round): Sent
    requires Legal(r.chunk, r.results)
  {
    Send(r.chunk, r.results)
  }

  predicate GoesOn(e: Ending) {
    e.Full? || e.Short?
  }

  // What the handler has written, and what it has received.
  function Out(rounds: seq<Round>): seq<Byte>
    requires AllLegal(rounds)
  {
    if rounds == [] then []
    else Result(rounds[0]).written + if GoesOn(Result(rounds[0]).ending) then Out(rounds[1..]) else []
  }

  function In(rounds: seq<Round>): seq<Byte>
    requires AllLegal(rounds)
  {
    if rounds == [] then []
    else rounds[0].chunk + if GoesOn(Result(rounds[0]).ending) then In(rounds[1..]) else []
  }

  // ---------- The condition ----------

  // Some send gives up with bytes left over and a later one writes something.
  predicate SkipsThenWrites(rounds: seq<Round>)
    requires AllLegal(rounds)
  {
    rounds != [] &&
    match Result(rounds[0]).ending
    case Full => SkipsThenWrites(rounds[1..])
    case Short => Out(rounds[1..]) != []
    case _ => false
  }

  // The same receive lengths and write results with other bytes.
  predicate SameShape(a: seq<Round>, b: seq<Round>) {
    && |a| == |b|
    && forall i :: 0 <= i < |a| ==> |a[i].chunk| == |b[i].chunk| && a[i].results == b[i].results
  }

  lemma {:induction false} ShapeIsLegal(a: seq<Byte>, b: seq<Byte>, results: seq<int>)
    requires |a| == |b| && Legal(a, results)
    ensures Legal(b, results)
    ensures Send(b, results).ending == Send(a, results).ending
    ensures |Send(b, results).written| == |Send(a, results).written|
    decreases |results|
  {
    if results != [] && results[0] > 0 {
      ShapeIsLegal(a[results[0]..], b[results[0]..], results[1..]);
    }
  }

  lemma {:induction false} ShapeKeeps(a: seq<Round>, b: seq<Round>)
    requires AllLegal(a) && SameShape(a, b)
    ensures AllLegal(b) && |Out(b)| == |Out(a)| && (SkipsThenWrites(b) <==> SkipsThenWrites(a))
    decreases |a|
  {
    forall i | 0 <= i < |b|
      ensures b[i].chunk != [] && Legal(b[i].chunk, b[i].results)
    {
      ShapeIsLegal(a[i].chunk, b[i].chunk, a[i].results);
    }
    if a != [] {
      ShapeIsLegal(a[0].chunk, b[0].chunk, a[0].results);
      ShapeKeeps(a[1..], b[1..]);
    }
  }

  lemma {:induction false} EchoIsPrefix(rounds: seq<Round>)
    requires AllLegal(rounds) && !SkipsThenWrites(rounds)
    ensures Out(rounds) <= In(rounds)
  {
    if rounds != [] && Result(rounds[0]).ending.Full? {
      EchoIsPrefix(rounds[1..]);
    }
  }

  // ---------- Bytes that show the gap ----------

  function Fill(n: nat, b: Byte): seq<Byte> {
    seq(n, i => b)
  }

  function Filled(rounds: seq<Round>, b: Byte): (r: seq<Round>)
    ensures SameShape(rounds, r)
  {
    seq(|rounds|, i requires 0 <= i < |rounds| => Round(Fill(|rounds[i].chunk|, b), rounds[i].results))
  }

  // Zeros up to the round that is cut short, ones from there on.
  function Marked(rounds: seq<Round>): (r: seq<Round>)
    requires AllLegal(rounds)
    ensures SameShape(rounds, r)
  {
    if rounds == [] then []
    else
      [Round(Fill(|rounds[0].chunk|, 0), rounds[0].results)]
      + if Result(rounds[0]).ending.Full? then Marked(rounds[1..]) else Filled(rounds[1..], 1)
  }

  lemma {:induction false} FilledOut(rounds: seq<Round>, b: Byte)
    requires AllLegal(rounds)
    ensures AllLegal(Filled(rounds, b))
    ensures forall i :: 0 <= i < |Out(Filled(rounds, b))| ==> Out(Filled(rounds, b))[i] == b
  {
    ShapeKeeps(rounds, Filled(rounds, b));
    if rounds != [] {
      assert Filled(rounds, b)[1..] == Filled(rounds[1..], b);
      FilledOut(rounds[1..], b);
    }
  }

  lemma {:induction false} GapShows(rounds: seq<Round>)
    requires AllLegal(rounds) && SkipsThenWrites(rounds)
    ensures AllLegal(Marked(rounds)) && !(Out(Marked(rounds)) <= In(Marked(rounds)))
  {
    var marked := Marked(rounds);
    ShapeKeeps(rounds, marked);
    ShapeIsLegal(rounds[0].chunk, marked[0].chunk, rounds[0].results);
    var sent := Result(marked[0]);
    if sent.ending.Full? {
      assert marked[1..] == Marked(rounds[1..]);
      GapShows(rounds[1..]);
      PrefixBehind(marked[0].chunk, Out(marked[1..]), In(marked[1..]));
    } else {
      assert marked[1..] == Filled(rounds[1..], 1);
      ShapeKeeps(rounds[1..], marked[1..]);
      FilledOut(rounds[1..], 1);
      var k := |sent.written|;
      assert Out(marked)[k] == Out(marked[1..])[0] == 1;
      assert In(marked)[k] == marked[0].chunk[k] == 0;
    }
  }

  lemma PrefixBehind(a: seq<Byte>, b: seq<Byte>, c: seq<Byte>)
    ensures a + b <= a + c <==> b <= c
  {
    if a + b <= a + c {
      assert b == (a + b)[|a|..] && c == (a + c)[|a|..];
    }
  }

  // For given lengths and write results, what is written is a prefix of what is received
  // whatever the bytes are if and only if no send gives up short before another writes.
  lemma EchoIsPrefixIff(rounds: seq<Round>)
    requires AllLegal(rounds)
    ensures !SkipsThenWrites(rounds) <==>
              forall other :: SameShape(rounds, other) ==> AllLegal(other) && Out(other) <= In(other)
  {
    if SkipsThenWrites(rounds) {
      GapShows(rounds);
    } else {
      forall other | SameShape(rounds, other)
        ensures AllLegal(other) && Out(other) <= In(other)
      {
        ShapeKeeps(rounds, other);
        EchoIsPrefix(other);
      }
    }
  }

  // The handler goes on after a short send, whose rest it never writes, but not after an error.
  lemma ShortIsSkipped(a: Byte, b: Byte)
    ensures var rounds := [Round([a], [0]), Round([b], [1])];
            AllLegal(rounds) && Out(rounds) == [b] && In(rounds) == [a, b]
    ensures var rounds := [Round([a], [-1]), Round([b], [1])];
            AllLegal(rounds) && Out(rounds) == [] && In(rounds) == [a]
  {
    var last := [Round([b], [1])];
    assert Legal([b], [1]) by { assert [b][1..] == [] && [1][1..] == []; }
    assert AllLegal(last) && last[1..] == [];
    NothingAfter(last);
    assert Send([b], [1]) == Sent([b], Full) by { SendMeans([b], [1]); assert [b][..1] == [b]; }
    assert Out(last) == [b] && In(last) == [b];
    assert Send([a], [0]) == Sent([], Short) && Send([a], [-1]) == Sent([], Failed(-1));
    assert [Round([a], [0]), Round([b], [1])][1..] == last;
  }

  // Writes that return a positive count or an error never get there.
  lemma {:induction false} PositiveWritesDoNotSkip(rounds: seq<Round>)
    requires AllLegal(rounds)
    requires forall i :: 0 <= i < |rounds| ==> 0 !in rounds[i].results
    ensures !SkipsThenWrites(rounds) && Out(rounds) <= In(rounds)
  {
    if rounds != [] {
      PositiveIsNotShort(rounds[0].chunk, rounds[0].results);
      PositiveWritesDoNotSkip(rounds[1..]);
    }
  }

  lemma {:induction false} PositiveIsNotShort(data: seq<Byte>, results: seq<int>)
    requires Legal(data, results) && 0 !in results
    ensures !Send(data, results).ending.Short?
  {
    if results != [] && results[0] > 0 {
      PositiveIsNotShort(data[results[0]..], results[1..]);
    }
  }

  // ---------- The loops ----------

  lemma WriteUnfolds(data: seq<Byte>, results: seq<int>, p: nat, i: nat)
    requires p < |data| && i <= |results| && Legal(data[p..], results[i..])
    ensures var r := Send(data[p..], results[i..]);
            if i == |results| then r == Sent([], Pending)
            else if results[i] < 0 then r == Sent([], Failed(results[i]))
            else if results[i] == 0 then r == Sent([], Short)
            else
              var k := results[i];
              && p + k <= |data| && Legal(data[p + k..], results[i + 1..])
              && (var rest := Send(data[p + k..], results[i + 1..]);
                  r == Sent(data[p..p + k] + rest.written, rest.ending))
  {
    if i < |results| && results[i] > 0 {
      assert results[i..][0] == results[i] && results[i..][1..] == results[i + 1..];
      assert data[p..][results[i]..] == data[p + results[i]..];
      assert data[p..][..results[i]] == data[p..p + results[i]];
    }
  }

  lemma NothingLeft(results: seq<int>)
    requires Legal([], results)
    ensures Send([], results) == Sent([], Full)
  {
  }

  lemma NothingAfter(rounds: seq<Round>)
    requires AllLegal(rounds)
    ensures rounds[0..] == rounds && rounds[|rounds|..] == [] && Out([]) == [] && In([]) == []
  {
  }

  lemma RoundUnfolds(rounds: seq<Round>, i: nat)
    requires AllLegal(rounds) && i < |rounds|
    ensures AllLegal(rounds[i..]) && AllLegal(rounds[i + 1..])
    ensures var more := GoesOn(Result(rounds[i]).ending);
            && Out(rounds[i..]) == Result(rounds[i]).written + (if more then Out(rounds[i + 1..]) else [])
            && In(rounds[i..]) == rounds[i].chunk + (if more then In(rounds[i + 1..]) else [])
  {
    assert rounds[i..][0] == rounds[i] && rounds[i..][1..] == rounds[i + 1..];
  }

  class TcpConnection {
    var sent: seq<Byte>       // accepted by the socket
    var received: seq<Byte>

    constructor ()
      ensures sent == [] && received == []
    {
      sent, received := [], [];
    }

    // send_fixed: the count, the error of the write that failed, or nothing yet.
    method SendFixed(data: seq<Byte>, results: seq<int>) returns (n: Option<int>)
      requires Legal(data, results)
      modifies this`sent
      ensures sent == old(sent) + Send(data, results).written
      ensures match Send(data, results).ending
              case Full => n == Some(|data|)
              case Short => n == Some(|Send(data, results).written|) && n.value < |data|
              case Failed(e) => n == Some(e) && e < 0
              case Pending => n == None
    {
      hide Send, Legal;
      var p, remaining, total, i := 0, |data|, 0, 0;
      assert data[0..] == data && results[0..] == results;
      while remaining > 0
        invariant 0 <= p <= |data| && remaining == |data| - p && total == p && i <= |results|
        invariant Legal(data[p..], results[i..])
        invariant old(sent) + Send(data, results).written == sent + Send(data[p..], results[i..]).written
        invariant |sent| == |old(sent)| + p
        invariant Send(data, results).ending == Send(data[p..], results[i..]).ending
        decreases remaining
      {
        WriteUnfolds(data, results, p, i);
        if i == |results| {
          return None;
        }
        var k := results[i];
        if k < 0 {
          return Some(k);
        }
        if k == 0 {
          return Some(total);
        }
        sent := sent + data[p..p + k];
        total, p, remaining, i := total + k, p + k, remaining - k, i + 1;
      }
      NothingLeft(results[i..]);
      n := Some(total);
    }

    // The handler, up to an end of the stream after the last round.
    method Echo(rounds: seq<Round>)
      requires AllLegal(rounds)
      modifies this
      ensures sent == old(sent) + Out(rounds) && received == old(received) + In(rounds)
    {
      hide Out, In, Send, Legal;
      var i := 0;
      NothingAfter(rounds);
      while i < |rounds|
        invariant 0 <= i <= |rounds| && AllLegal(rounds[i..])
        invariant sent + Out(rounds[i..]) == old(sent) + Out(rounds)
        invariant received + In(rounds[i..]) == old(received) + In(rounds)
      {
        RoundUnfolds(rounds, i);
        received := received + rounds[i].chunk;
        var n := SendFixed(rounds[i].chunk, rounds[i].results);
        if n.None? || n.value < 0 {
          return;
        }
        i := i + 1;
      }
    }
  }
}
