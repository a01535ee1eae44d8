// Numbers in log lines: digits are written back to front by repeated division, reversed in
// place and appended to a fixed buffer.
module LogStreams {
  import opened Options

  const SMALL: nat := 4000      // SmallBuffer
  const NUMERIC: nat := 48      // kMaxNumericSize
  const TWO63: int := 0x8000_0000_0000_0000
  const TWO64: int := 0x1_0000_0000_0000_0000

  // ---------- What a numeral is ----------

  const HEX := "0123456789ABCDEF"

  function DigitOf(c: char): Option<nat> {
    if '0' <= c <= '9' then Some((c - '0') as nat)
    else if 'A' <= c <= 'F' then Some(10 + (c - 'A') as nat)
    else None
  }

  lemma DigitsRoundTrip(d: nat, c: char)
    ensures d < 16 ==> DigitOf(HEX[d]) == Some(d)
    ensures DigitOf(c).Some? ==> DigitOf(c).value < 16 && HEX[DigitOf(c).value] == c
  {
  }

  // The numeral of m, without leading zeros.
  function Numeral(m: nat, base: nat): (s: string)
    requires 2 <= base <= 16
    ensures s != []
  {
    if m < base then [HEX[m]] else Numeral(m / base, base) + [HEX[m % base]]
  }

  function Value(s: string, base: nat): Option<nat> {
    if s == [] then Some(0)
    else
      var high := Value(s[..|s| - 1], base);
      var low := DigitOf(s[|s| - 1]);
      if high.Some? && low.Some? && low.value < base then Some(high.value * base + low.value) else None
  }

  // An optional sign and at least one decimal digit.
  function Parse(s: string): Option<int> {
    if s != [] && s[0] == '-' then
      var m := Value(s[1..], 10);
      var v: int := if m.Some? then m.value else 0;
      if |s| > 1 && m.Some? then Some(-v) else None
    else
      var m := Value(s, 10);
      if s != [] && m.Some? then Some(m.value) else None
  }

  function Magnitude(v: int): nat {
    if v < 0 then -v else v
  }

  function Shown(v: int): string {
    if v < 0 then ['-'] + Numeral(-v, 10) else Numeral(v, 10)
  }

  lemma Multiplies(q: int, d: int)
    requires d > 1
    ensures q >= 0 ==> q * d >= 2 * q
    ensures q >= 1 ==> q * d >= d
    ensures q <= -1 ==> q * d <= -d
  {
  }

  lemma DividesDown(m: nat, d: int)
    requires d > 1
    ensures m == (m / d) * d + m % d && 0 <= m % d < d && m / d >= 0
    ensures m / d == 0 <==> m < d
    ensures m > 0 ==> m / d < m
  {
    Multiplies(m / d, d);
  }

  lemma {:induction false} ValueOfNumeral(m: nat, base: nat)
    requires 2 <= base <= 16
    ensures Value(Numeral(m, base), base) == Some(m)
  {
    hide Value, DigitOf, Numeral;
    EmptyValue(base);
    NumeralGrows(m, base);
    if m < base {
      DigitsRoundTrip(m, ' ');
      ValueOfMore([], HEX[m], base);
      assert [] + [HEX[m]] == [HEX[m]];
    } else {
      var q, r := m / base, m % base;
      DividesDown(m, base);
      assert q * base + r == m;
      ValueOfNumeral(q, base);
      DigitsRoundTrip(r, ' ');
      ValueOfMore(Numeral(q, base), HEX[r], base);
    }
  }

  lemma EmptyValue(base: nat)
    ensures Value([], base) == Some(0)
  {
  }

  lemma ValueOfMore(s: string, c: char, base: nat)
    ensures Value(s + [c], base) ==
      if Value(s, base).Some? && DigitOf(c).Some? && DigitOf(c).value < base
      then Some(Value(s, base).value * base + DigitOf(c).value) else None
  {
    assert (s + [c])[..|s|] == s;
  }

  lemma {:induction false} FirstDigit(m: nat, base: nat)
    requires 2 <= base <= 16
    ensures Numeral(m, base)[0] == '0' ==> m == 0
    ensures DigitOf(Numeral(m, base)[0]).Some?
  {
    if m < base {
      DigitsRoundTrip(m, ' ');
    } else {
      FirstDigit(m / base, base);
    }
  }

  // Whatever is printed is read back, and has no leading zero.
  lemma ParseShown(v: int)
    ensures Parse(Shown(v)) == Some(v)
    ensures var digits := if v < 0 then Shown(v)[1..] else Shown(v);
            digits[0] == '0' ==> v == 0 && Shown(v) == "0"
  {
    ValueOfNumeral(Magnitude(v), 10);
    FirstDigit(Magnitude(v), 10);
    if v < 0 {
      assert Shown(v)[1..] == Numeral(-v, 10);
    }
  }

  // A numeral without leading zeros is the one that is printed for its value.
  lemma {:induction false} NumeralOfValue(s: string, base: nat)
    requires 2 <= base <= 16 && s != [] && Value(s, base).Some?
    requires s[0] == '0' ==> |s| == 1
    ensures Numeral(Value(s, base).value, base) == s
    ensures s[0] != '0' ==> Value(s, base).value > 0
  {
    hide Value, DigitOf, Numeral;
    var n := |s| - 1;
    var front := s[..n];
    assert s == front + [s[n]];
    ValueOfMore(front, s[n], base);
    DigitsRoundTrip(0, s[n]);
    if n == 0 {
      EmptyValue(base);
      assert front == [];
      OneDigit(s[0], base);
    } else {
      assert s[0] == front[0];
      NumeralOfValue(front, base);
      MoreDigits(Value(front, base).value, DigitOf(s[n]).value, base);
    }
  }

  lemma OneDigit(c: char, base: nat)
    requires 2 <= base <= 16 && DigitOf(c).Some? && DigitOf(c).value < base
    ensures Numeral(DigitOf(c).value, base) == [c]
    ensures c != '0' ==> DigitOf(c).value > 0
  {
    DigitsRoundTrip(DigitOf(c).value, c);
  }

  lemma MoreDigits(high: nat, low: nat, base: nat)
    requires 2 <= base <= 16 && low < base && high > 0
    ensures Numeral(high * base + low, base) == Numeral(high, base) + [HEX[low]]
    ensures high * base + low > 0
  {
    hide Numeral;
    Divides(high, base, low);
    NumeralGrows(high * base + low, base);
  }

  lemma NumeralGrows(m: nat, base: nat)
    requires 2 <= base <= 16
    ensures m % base < 16 && m / base >= 0
    ensures Numeral(m, base) == (if m < base then [] else Numeral(m / base, base)) + [HEX[m % base]]
  {
    DividesDown(m, base);
  }

  lemma Divides(high: nat, base: nat, low: nat)
    requires low < base && base > 1
    ensures (high * base + low) / base == high && (high * base + low) % base == low
    ensures high > 0 ==> high * base + low >= base
  {
    var v: int := high * base + low;
    var d := v / base - high;
    assert d * base == low - v % base;
    Multiplies(d, base);
    Multiplies(high, base);
  }

  // And the other way round: text that is read as v and has no leading zero, and no sign
  // before zero, is what is printed for v.
  lemma ShownParse(s: string)
    requires Parse(s).Some?
    requires var digits := if s[0] == '-' then s[1..] else s; digits[0] == '0' ==> s == "0"
    ensures Shown(Parse(s).value) == s
  {
    if s[0] == '-' {
      NumeralOfValue(s[1..], 10);
      assert s == ['-'] + s[1..];
    } else {
      NumeralOfValue(s, 10);
    }
  }

  // ---------- How long it gets ----------

  function Power(base: nat, k: nat): nat {
    if k == 0 then 1 else base * Power(base, k - 1)
  }

  lemma {:induction false} NumeralLength(m: nat, base: nat, k: nat)
    requires 2 <= base <= 16 && k > 0 && m < Power(base, k)
    ensures |Numeral(m, base)| <= k
  {
    NumeralGrows(m, base);
    if m >= base {
      DividesDown(m, base);
      PowerDivides(m / base, m, base, k);
      NumeralLength(m / base, base, k - 1);
    }
  }

  lemma PowerDivides(q: nat, m: nat, base: nat, k: nat)
    requires q * base <= m && base <= m < Power(base, k) && k > 0
    ensures k > 1 && q < Power(base, k - 1)
  {
    assert Power(base, 1) == base * Power(base, 0) == base;
    var p := Power(base, k - 1);
    assert q >= p ==> q * base >= p * base;
    assert p * base == Power(base, k);
  }

  lemma WordLength(v: int)
    requires -TWO63 <= v < TWO64
    ensures |Shown(v)| <= 20
    ensures v >= 0 ==> |Numeral(v, 16)| <= 16
  {
    assert Power(10, 10) == 10000000000;
    PowerSum(10, 10, 10);
    PowerSum(10, 10, 9);
    assert Power(10, 9) == 1000000000;
    if v < 0 {
      NumeralLength(-v, 10, 19);
    } else {
      assert Power(16, 8) == 0x1_0000_0000;
      PowerSum(16, 8, 8);
      NumeralLength(v, 10, 20);
      NumeralLength(v, 16, 16);
    }
  }

  lemma {:induction false} PowerSum(base: nat, a: nat, b: nat)
    ensures Power(base, a + b) == Power(base, a) * Power(base, b)
  {
    if a > 0 {
      PowerSum(base, a - 1, b);
      assert Power(base, a + b) == base * Power(base, a + b - 1);
    }
  }

  // ---------- The loops ----------

  // Division and remainder that truncate toward zero.
  function Quotient(i: int, d: int): int
    requires d > 0
  {
    if i < 0 then -((-i) / d) else i / d
  }

  function Remainder(i: int, d: int): int
    requires d > 0
  {
    if i < 0 then -((-i) % d) else i % d
  }

  function Reversed(s: string): (r: string)
    ensures |r| == |s|
  {
    if s == [] then [] else [s[|s| - 1]] + Reversed(s[..|s| - 1])
  }

  lemma {:induction false} ReversedAt(s: string, k: nat)
    requires k < |s|
    ensures Reversed(s)[k] == s[|s| - 1 - k]
  {
    if k > 0 {
      ReversedAt(s[..|s| - 1], k - 1);
    }
  }

  // std::reverse of n characters from `at` on.
  method ReverseInPlace(buf: array<char>, at: nat, n: nat)
    requires at + n <= buf.Length
    modifies buf
    ensures buf[at..at + n] == Reversed(old(buf[at..at + n]))
    ensures buf[..at] == old(buf[..at])
  {
    hide Reversed;
    ghost var was := buf[..];
    var i := 0;
    while i < n / 2
      invariant 0 <= i <= n / 2
      invariant forall j :: (at <= j < at + i || at + n - i <= j < at + n) ==> buf[j] == was[2 * at + n - 1 - j]
      invariant buf[..at] == was[..at]
      invariant forall j :: at + i <= j < at + n - i ==> buf[j] == was[j]
    {
      buf[at + i], buf[at + n - 1 - i] := buf[at + n - 1 - i], buf[at + i];
      i := i + 1;
    }
    ghost var range := was[at..at + n];
    forall k | 0 <= k < n
      ensures buf[at..at + n][k] == Reversed(range)[k]
    {
      ReversedAt(range, k);
      assert buf[at + k] == was[2 * at + n - 1 - (at + k)];
    }
  }

  // The table has a digit for every remainder from -9 to 9.
  const DIGITS := "9876543210123456789"

  lemma DigitTable(r: int)
    requires -9 <= r <= 9
    ensures DIGITS[9 + r] == HEX[Magnitude(r)]
  {
  }

  lemma TruncatedDivision(i: int, d: int)
    requires d > 1
    ensures Magnitude(Quotient(i, d)) == Magnitude(i) / d
    ensures Magnitude(Remainder(i, d)) == Magnitude(i) % d && -d < Remainder(i, d) < d
    ensures Quotient(i, d) == 0 <==> Magnitude(i) < d
    ensures i != 0 ==> Magnitude(Quotient(i, d)) < Magnitude(i)
  {
    DividesDown(Magnitude(i), d);
  }

  lemma EmittedMore(emitted: string, c: char)
    ensures Reversed(emitted + [c]) == [c] + Reversed(emitted)
  {
    assert (emitted + [c])[..|emitted|] == emitted;
  }

  // What is still to be emitted.
  function Rest(i: int, more: bool): string {
    if more then Numeral(Magnitude(i), 10) else []
  }

  // The next digit goes in front of those emitted, once they are reversed.
  lemma EmitsNext(i: int, emitted: string)
    ensures var lsd := Remainder(i, 10);
            var q := Quotient(i, 10);
            && -9 <= lsd <= 9 && (q != 0 ==> Magnitude(q) < Magnitude(i))
            && Rest(i, true) + Reversed(emitted) == Rest(q, q != 0) + Reversed(emitted + [DIGITS[9 + lsd]])
            && |Rest(i, true)| == 1 + |Rest(q, q != 0)|
  {
    hide Numeral, Reversed;
    TruncatedDivision(i, 10);
    NumeralGrows(Magnitude(i), 10);
    DigitTable(Remainder(i, 10));
    EmittedMore(emitted, DIGITS[9 + Remainder(i, 10)]);
  }

  // The do-while loop: the digits of any value, the last one first, with no negation.
  method EmitDigits(buf: array<char>, value: int) returns (p: nat)
    requires buf.Length >= |Numeral(Magnitude(value), 10)|
    modifies buf
    ensures p == |Numeral(Magnitude(value), 10)| <= buf.Length
    ensures Reversed(buf[..p]) == Numeral(Magnitude(value), 10)
  {
    hide Rest, Numeral, Reversed, Quotient, Remainder;
    RestOfAll(value);
    var i := value;
    p := 0;
    var more := true;
    assert buf[..0] == [];
    while more
      invariant |Rest(i, more)| + p == |Numeral(Magnitude(value), 10)|
      invariant Rest(i, more) + Reversed(buf[..p]) == Numeral(Magnitude(value), 10)
      decreases more, Magnitude(i)
    {
      EmitsNext(i, buf[..p]);
      ghost var before := buf[..p];
      var lsd := Remainder(i, 10);
      buf[p] := DIGITS[9 + lsd];
      assert buf[..p + 1] == before + [DIGITS[9 + lsd]];
      p := p + 1;
      i := Quotient(i, 10);
      more := i != 0;
    }
    NothingLeft(i);
  }

  lemma RestOfAll(value: int)
    ensures Rest(value, true) == Numeral(Magnitude(value), 10) && Reversed([]) == []
    ensures Rest(value, true) + Reversed([]) == Rest(value, true)
  {
  }

  lemma NothingLeft(i: int)
    ensures Rest(i, false) == []
    ensures forall s: string :: [] + s == s
  {
  }

  // convert: any signed or unsigned value of at most 64 bits.
  method Convert(buf: array<char>, value: int) returns (n: nat)
    requires buf.Length > 20 && -TWO63 <= value < TWO64
    modifies buf
    ensures n <= 20 && buf[..n] == Shown(value)
  {
    hide Numeral, Power, Reversed;
    WordLength(value);
    assert |Numeral(Magnitude(value), 10)| + (if value < 0 then 1 else 0) <= 20;
    var p := EmitDigits(buf, value);
    if value < 0 {
      EmittedMore(buf[..p], '-');
      ghost var before := buf[..p];
      buf[p] := '-';
      assert buf[..p + 1] == before + ['-'];
      p := p + 1;
    }
    ghost var emitted := buf[..p];
    buf[p] := '\0';
    assert buf[0..0 + p] == emitted;
    ReverseInPlace(buf, 0, p);
    n := p;
  }

  // convertHex of a pointer, from buf[at] on; v & 0xf and v >> 4 are its remainder and quotient.
  method ConvertHex(buf: array<char>, at: nat, value: int) returns (n: nat)
    requires buf.Length > at + 16 && 0 <= value < TWO64
    modifies buf
    ensures n <= 16 && at + n <= buf.Length && buf[at..at + n] == Numeral(value, 16)
    ensures buf[..at] == old(buf[..at])
  {
    hide Numeral, Power, Reversed;
    WordLength(value);
    var v: nat := value;
    var p := 0;
    var more := true;
    ghost var prefix := buf[..at];
    while more
      invariant p <= |Numeral(value, 16)| <= 16 && (more <==> p == 0 || v != 0)
      invariant buf[..at] == prefix
      invariant if more then Numeral(v, 16) + Reversed(buf[at..at + p]) == Numeral(value, 16)
                else Reversed(buf[at..at + p]) == Numeral(value, 16)
      decreases if more then 1 + v else 0
    {
      DividesDown(v, 16);
      NumeralGrows(v, 16);
      ghost var before := buf[at..at + p];
      EmittedMore(before, HEX[v % 16]);
      buf[at + p] := HEX[v % 16];
      assert buf[at..at + (p + 1)] == before + [HEX[v % 16]];
      v := v / 16;
      p := p + 1;
      more := v != 0;
    }
    ghost var before := buf[at..at + p];
    buf[at + p] := '\0';
    assert buf[at..at + p] == before;
    ReverseInPlace(buf, at, p);
    n := p;
  }

  function Min(a: int, b: int): int {
    if a < b then a else b
  }

  // FixedBuffer: a byte array and a cursor.
  class FixedBuffer {
    const data: array<char>
    var cur: nat

    ghost predicate Valid()
      reads this
    {
      cur <= data.Length
    }

    ghost function Contents(): string
      requires Valid()
      reads this, data
    {
      data[..cur]
    }

    constructor (capacity: nat)
      ensures Valid() && Contents() == [] && data.Length == capacity && fresh(data)
    {
      data := new char[capacity](_ => '\0');
      cur := 0;
    }

    function Avail(): int
      reads this
    {
      data.Length - cur
    }

    // What does not fit is cut off.
    method Append(s: string)
      requires Valid()
      modifies this`cur, data
      ensures Valid() && Contents() == old(Contents()) + s[..Min(|s|, old(Avail()))]
    {
      var len := if |s| > Avail() then Avail() else |s|;
      ghost var was := Contents();
      var i := 0;
      while i < len
        invariant 0 <= i <= len && cur == old(cur)
        invariant data[..cur + i] == was + s[..i]
      {
        data[cur + i] := s[i];
        i := i + 1;
      }
      cur := cur + len;
    }

    method Reset()
      modifies this`cur
      ensures Valid() && Contents() == []
    {
      cur := 0;
    }
  }

  // operator<< of a line in the making.
  class LogStream {
    const buffer: FixedBuffer

    constructor ()
      ensures buffer.Valid() && buffer.Contents() == [] && buffer.data.Length == 4000
      ensures fresh(buffer) && fresh(buffer.data)
    {
      buffer := new FixedBuffer(SMALL);
    }

    // An integer of any type: the whole numeral or, near the end of the buffer, nothing.
    method FormatInteger(v: int)
      requires buffer.Valid() && buffer.data.Length == 4000 && -TWO63 <= v < TWO64
      modifies buffer`cur, buffer.data
      ensures buffer.Valid()
      ensures buffer.Contents()
           == old(buffer.Contents()) + if old(buffer.cur) + 48 < 4000 then Shown(v) else []
    {
      if buffer.cur + NUMERIC < SMALL {
        var buf := new char[NUMERIC];
        var n := Convert(buf, v);
        assert buf[..n] == Shown(v);
        buffer.Append(buf[..n]);
      }
    }

    method FormatPointer(v: int)
      requires buffer.Valid() && buffer.data.Length == 4000 && 0 <= v < TWO64
      modifies buffer`cur, buffer.data
      ensures buffer.Valid()
      ensures buffer.Contents()
           == old(buffer.Contents()) + if old(buffer.cur) + 48 < 4000 then "0x" + Numeral(v, 16) else []
    {
      if buffer.cur + NUMERIC < SMALL {
        var buf := new char[NUMERIC];
        buf[0], buf[1] := '0', 'x';
        var n := ConvertHex(buf, 2, v);
        assert buf[..2 + n] == buf[..2] + buf[2..2 + n];
        assert buf[..2] == "0x";
        buffer.Append(buf[..2 + n]);
      }
    }
  }

  // Text that an empty stream holds after one number is read back as that number.
  method PrintAndRead(v: int) returns (s: string)
    requires -TWO63 <= v < TWO64
    ensures s == Shown(v) && Parse(s) == Some(v) && |s| <= 20
  {
    var stream := new LogStream();
    stream.FormatInteger(v);
    s := stream.buffer.data[..stream.buffer.cur];
    ParseShown(v);
    WordLength(v);
  }

  lemma HexRoundTrip(v: nat)
    ensures Value(Numeral(v, 16), 16) == Some(v)
    ensures Numeral(v, 16)[0] == '0' ==> v == 0
  {
    ValueOfNumeral(v, 16);
    FirstDigit(v, 16);
  }
}
