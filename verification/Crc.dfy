/** CRC-32 as used to frame durable records: the table-driven form is division by the reflected
    IEEE 802.3 polynomial, and no corruption confined to 32 consecutive bits goes unnoticed.
    A 32-bit word is its bits, least significant first. */
module Crc {
  import opened Basics
  import opened Types

  type Bits = seq<bool>

  predicate IsWord(w: Bits) {
    |w| == 32
  }

  /** A polynomial the division can be run backwards with. */
  predicate IsGenerator(p: Bits) {
    IsWord(p) && p[31]
  }

  function Zeros(n: nat): (r: Bits)
    ensures |r| == n && forall i :: 0 <= i < n ==> !r[i]
  {
    seq(n, _ => false)
  }

  function Ones(n: nat): (r: Bits)
    ensures |r| == n && forall i :: 0 <= i < n ==> r[i]
  {
    seq(n, _ => true)
  }

  function Xor(a: Bits, b: Bits): (r: Bits)
    requires |a| == |b|
    ensures |r| == |a| && forall i :: 0 <= i < |a| ==> r[i] == (a[i] != b[i])
  {
    seq(|a|, i requires 0 <= i < |a| => a[i] != b[i])
  }

  function ToBits(n: nat, width: nat): (r: Bits)
    ensures |r| == width
  {
    if width == 0 then [] else [n % 2 == 1] + ToBits(n / 2, width - 1)
  }

  function ValueOf(b: Bits): nat {
    if b == [] then 0 else (if b[0] then 1 else 0) + 2 * ValueOf(b[1..])
  }

  lemma {:induction false} ValueBound(b: Bits)
    ensures ValueOf(b) < Power(|b|)
  {
    if b != [] { ValueBound(b[1..]); }
  }

  /** A number's low bits, then zeros. */
  lemma {:induction false} BitsOfValue(b: Bits, width: nat)
    requires |b| <= width
    ensures ToBits(ValueOf(b), width) == b + Zeros(width - |b|)
  {
    if b == [] {
      ZeroBits(width);
      assert b + Zeros(width) == Zeros(width);
    } else {
      BitsOfValue(b[1..], width - 1);
      assert ValueOf(b) / 2 == ValueOf(b[1..]);
      assert b + Zeros(width - |b|) == [b[0]] + (b[1..] + Zeros(width - |b|));
    }
  }

  lemma {:induction false} ZeroBits(width: nat)
    ensures ToBits(0, width) == Zeros(width)
  {
    if width > 0 { ZeroBits(width - 1); }
  }

  lemma {:induction false} ValueOfBits(n: nat, width: nat)
    requires n < Power(width)
    ensures ValueOf(ToBits(n, width)) == n
  {
    if width > 0 {
      ValueOfBits(n / 2, width - 1);
      assert ToBits(n, width)[1..] == ToBits(n / 2, width - 1);
    }
  }

  // ---------------------------------------------------------------- division, bit by bit

  function Shifted(r: Bits, n: nat): (s: Bits)
    requires n <= |r|
    ensures |s| == |r|
  {
    r[n..] + Zeros(n)
  }

  function Reduce(p: Bits, r: Bits): (s: Bits)
    requires |p| == |r| > 0
    ensures |s| == |r|
  {
    if r[0] then Xor(p, Shifted(r, 1)) else Shifted(r, 1)
  }

  function Steps(p: Bits, r: Bits, n: nat): (s: Bits)
    requires IsWord(p) && IsWord(r)
    ensures IsWord(s)
  {
    if n == 0 then r else Reduce(p, Steps(p, r, n - 1))
  }

  function Widen(b: Bits): (w: Bits)
    requires |b| <= 32
    ensures IsWord(w)
  {
    b + Zeros(32 - |b|)
  }

  /** The register after a message: each byte enters at the low end, then eight division steps. */
  function Divide(p: Bits, r: Bits, data: Bytes): (s: Bits)
    requires IsWord(p) && IsWord(r)
    ensures IsWord(s)
  {
    if data == [] then r
    else Steps(p, Xor(Divide(p, r, data[..|data| - 1]), Widen(ToBits(data[|data| - 1] as nat, 8))), 8)
  }

  function Crc(p: Bits, data: Bytes): (r: Bits)
    requires IsWord(p)
    ensures IsWord(r)
  {
    Xor(Divide(p, Ones(32), data), Ones(32))
  }

  // ---------------------------------------------------------------- division is linear and invertible

  lemma ReduceLinear(p: Bits, a: Bits, b: Bits)
    requires |p| == |a| == |b| > 0
    ensures Reduce(p, Xor(a, b)) == Xor(Reduce(p, a), Reduce(p, b))
  {
    var s, t := Shifted(a, 1), Shifted(b, 1);
    assert Shifted(Xor(a, b), 1) == Xor(s, t);
    assert Xor(p, Xor(s, t)) == Xor(Xor(p, s), t) == Xor(s, Xor(p, t));
    assert Xor(Xor(p, s), Xor(p, t)) == Xor(s, t);
  }

  /** The top bit of the polynomial reveals the bit that fell out. */
  lemma ReduceInjective(p: Bits, a: Bits, b: Bits)
    requires |p| == |a| == |b| > 0 && p[|p| - 1] && Reduce(p, a) == Reduce(p, b)
    ensures a == b
  {
    var n := |p| - 1;
    assert Reduce(p, a)[n] == a[0] && Reduce(p, b)[n] == b[0];
    forall i | 0 < i <= n ensures a[i] == b[i] {
      assert Reduce(p, a)[i - 1] == Reduce(p, b)[i - 1];
      assert Shifted(a, 1)[i - 1] == a[i] && Shifted(b, 1)[i - 1] == b[i];
    }
  }

  lemma {:induction false} StepsLinear(p: Bits, a: Bits, b: Bits, n: nat)
    requires IsWord(p) && IsWord(a) && IsWord(b)
    ensures Steps(p, Xor(a, b), n) == Xor(Steps(p, a, n), Steps(p, b, n))
  {
    if n > 0 {
      StepsLinear(p, a, b, n - 1);
      ReduceLinear(p, Steps(p, a, n - 1), Steps(p, b, n - 1));
    }
  }

  lemma {:induction false} StepsInjective(p: Bits, a: Bits, b: Bits, n: nat)
    requires IsGenerator(p) && IsWord(a) && IsWord(b) && Steps(p, a, n) == Steps(p, b, n)
    ensures a == b
  {
    if n > 0 {
      ReduceInjective(p, Steps(p, a, n - 1), Steps(p, b, n - 1));
      StepsInjective(p, a, b, n - 1);
    }
  }

  /** As long as only zeros fall out, division just shifts. */
  lemma {:induction false} StepsShift(p: Bits, x: Bits, n: nat)
    requires IsWord(p) && IsWord(x) && n <= 32 && forall i :: 0 <= i < n ==> !x[i]
    ensures Steps(p, x, n) == Shifted(x, n)
  {
    if n > 0 {
      StepsShift(p, x, n - 1);
      assert Shifted(x, n - 1)[0] == x[n - 1];
      assert Shifted(Shifted(x, n - 1), 1) == Shifted(x, n);
    }
  }

  /** One table step is eight division steps. */
  lemma {:induction false} TableStep(p: Bits, x: Bits)
    requires IsWord(p) && IsWord(x)
    ensures Steps(p, x, 8) == Xor(Steps(p, Widen(x[..8]), 8), Shifted(x, 8))
  {
    var low, high := Widen(x[..8]), Zeros(8) + x[8..];
    assert x == Xor(low, high);
    StepsLinear(p, low, high, 8);
    StepsShift(p, high, 8);
    assert Shifted(high, 8) == Shifted(x, 8);
  }

  // ---------------------------------------------------------------- the table-driven form

  method MakeTable(p: Bits) returns (table: array<Bits>)
    requires IsWord(p)
    ensures fresh(table) && table.Length == 256
    ensures forall i :: 0 <= i < 256 ==> table[i] == Steps(p, ToBits(i, 32), 8)
  {
    table := new Bits[256](_ => []);
    var i := 0;
    while i < 256
      invariant 0 <= i <= 256
      invariant forall k :: 0 <= k < i ==> table[k] == Steps(p, ToBits(k, 32), 8)
    {
      var c := ToBits(i, 32);
      var k := 0;
      while k < 8
        invariant 0 <= k <= 8 && c == Steps(p, ToBits(i, 32), k)
      {
        c := if c[0] then Xor(p, Shifted(c, 1)) else Shifted(c, 1);
        k := k + 1;
      }
      table[i] := c;
      i := i + 1;
    }
  }

  /** One byte of the message is one table entry and one shift. */
  lemma {:induction false} NextByte(p: Bits, crc: Bits, data: Bytes, n: nat)
    requires IsWord(p) && n < |data| && crc == Divide(p, Ones(32), data[..n])
    ensures var index := ValueOf(Xor(crc, Widen(ToBits(data[n] as nat, 8)))[..8]);
      index < 256 && Divide(p, Ones(32), data[..n + 1]) == Xor(Steps(p, ToBits(index, 32), 8), Shifted(crc, 8))
  {
    var mixed := Xor(crc, Widen(ToBits(data[n] as nat, 8)));
    Lookup(p, mixed);
    assert Shifted(mixed, 8) == Shifted(crc, 8);
    assert data[..n + 1][..n] == data[..n];
  }

  /** The table-driven checksum equals division bit by bit, on every message. */
  method Checksum(p: Bits, table: array<Bits>, data: Bytes) returns (crc: Bits)
    requires IsWord(p) && table.Length == 256 && forall i :: 0 <= i < 256 ==> table[i] == Steps(p, ToBits(i, 32), 8)
    ensures crc == Crc(p, data)
  {
    crc := Ones(32);
    var n := 0;
    while n < |data|
      invariant 0 <= n <= |data| && IsWord(crc) && crc == Divide(p, Ones(32), data[..n])
    {
      var mixed := Xor(crc, Widen(ToBits(data[n] as nat, 8)));
      var index := ValueOf(mixed[..8]);
      NextByte(p, crc, data, n);
      crc := Xor(table[index], Shifted(crc, 8));
      n := n + 1;
    }
    assert data[..n] == data;
    crc := Xor(crc, Ones(32));
  }

  lemma {:induction false} ByteIndex(b: Bits)
    requires |b| == 8
    ensures ValueOf(b) < 256
  {
    ValueBound(b);
    assert Power(4) == 16 && Power(8) == 16 * Power(4);
  }

  lemma {:induction false} Lookup(p: Bits, mixed: Bits)
    requires IsWord(p) && IsWord(mixed)
    ensures ValueOf(mixed[..8]) < 256
      && Steps(p, mixed, 8) == Xor(Steps(p, ToBits(ValueOf(mixed[..8]), 32), 8), Shifted(mixed, 8))
  {
    var low := mixed[..8];
    ByteIndex(low);
    assert ToBits(ValueOf(low), 32) == Widen(low) by { BitsOfValue(low, 32); }
    TableStep(p, mixed);
  }

  // ---------------------------------------------------------------- bursts

  /** The bits of a message, in the order they enter the register. */
  function Stream(data: Bytes): (r: Bits)
    ensures |r| == 8 * |data|
  {
    if data == [] then [] else Stream(data[..|data| - 1]) + ToBits(data[|data| - 1] as nat, 8)
  }

  lemma {:induction false} StreamInjective(a: Bytes, b: Bytes)
    requires |a| == |b| && Stream(a) == Stream(b)
    ensures a == b
  {
    if a != [] {
      var n := |a| - 1;
      assert Stream(a)[..8 * n] == Stream(a[..n]) && Stream(a)[8 * n..] == ToBits(a[n] as nat, 8);
      assert Stream(b)[..8 * n] == Stream(b[..n]) && Stream(b)[8 * n..] == ToBits(b[n] as nat, 8);
      StreamInjective(a[..n], b[..n]);
      assert Power(4) == 16 && Power(8) == 16 * Power(4);
      ValueOfBits(a[n] as nat, 8);
      ValueOfBits(b[n] as nat, 8);
      assert a == a[..n] + [a[n]] && b == b[..n] + [b[n]];
    }
  }

  /** The register after a stream of bits: each enters at the low end, then one division step. */
  function Feed(p: Bits, r: Bits, bits: Bits): (s: Bits)
    requires IsWord(p) && IsWord(r)
    ensures IsWord(s)
  {
    if bits == [] then r else Reduce(p, Xor(Feed(p, r, bits[..|bits| - 1]), Widen([bits[|bits| - 1]])))
  }

  /** A bit xored in after `k` steps might as well have been xored in `k` bits up beforehand. */
  lemma LateBit(p: Bits, before: Bits, bit: bool, k: nat)
    requires IsWord(p) && IsWord(before) && k < 32
    ensures Xor(Steps(p, before, k), Widen([bit])) == Steps(p, Xor(before, Zeros(k) + [bit] + Zeros(31 - k)), k)
  {
    var late := Zeros(k) + [bit] + Zeros(31 - k);
    StepsShift(p, late, k);
    assert Shifted(late, k) == Widen([bit]);
    StepsLinear(p, before, late, k);
  }

  lemma JoinBit(r: Bits, bits: Bits, bit: bool)
    requires IsWord(r) && |bits| < 32
    ensures Xor(Xor(r, Widen(bits)), Zeros(|bits|) + [bit] + Zeros(31 - |bits|)) == Xor(r, Widen(bits + [bit]))
  {
  }

  /** Up to 32 bits act like one word: xor them in at once, then divide. */
  lemma {:induction false} ShortFeed(p: Bits, r: Bits, bits: Bits)
    requires IsWord(p) && IsWord(r) && |bits| <= 32
    ensures Feed(p, r, bits) == Steps(p, Xor(r, Widen(bits)), |bits|)
    decreases |bits|
  {
    if bits == [] {
      assert Xor(r, Widen([])) == r;
    } else {
      var n := |bits| - 1;
      var init, bit := bits[..n], bits[n];
      ShortFeed(p, r, init);
      LateBit(p, Xor(r, Widen(init)), bit, n);
      JoinBit(r, init, bit);
      assert init + [bit] == bits;
    }
  }

  lemma {:induction false} FeedAppend(p: Bits, r: Bits, a: Bits, b: Bits)
    requires IsWord(p) && IsWord(r)
    ensures Feed(p, r, a + b) == Feed(p, Feed(p, r, a), b)
    decreases |b|
  {
    if b == [] {
      assert a + b == a;
    } else {
      assert (a + b)[..|a + b| - 1] == a + b[..|b| - 1];
      FeedAppend(p, r, a, b[..|b| - 1]);
    }
  }

  /** Dividing byte by byte is dividing the message's bit stream. */
  lemma {:induction false} DivideIsFeed(p: Bits, r: Bits, data: Bytes)
    requires IsWord(p) && IsWord(r)
    ensures Divide(p, r, data) == Feed(p, r, Stream(data))
    decreases |data|
  {
    if data != [] {
      var init, byte := data[..|data| - 1], ToBits(data[|data| - 1] as nat, 8);
      DivideIsFeed(p, r, init);
      FeedAppend(p, r, Stream(init), byte);
      ShortFeed(p, Feed(p, r, Stream(init)), byte);
    }
  }

  /** Different windows of up to 32 bits leave different registers. */
  lemma {:induction false} WindowSeparates(p: Bits, r: Bits, a: Bits, b: Bits)
    requires IsGenerator(p) && IsWord(r) && |a| == |b| <= 32 && Feed(p, r, a) == Feed(p, r, b)
    ensures a == b
  {
    ShortFeed(p, r, a);
    ShortFeed(p, r, b);
    var x, y := Xor(r, Widen(a)), Xor(r, Widen(b));
    StepsInjective(p, x, y, |a|);
    forall i | 0 <= i < |a| ensures a[i] == b[i] {
      assert x[i] == y[i] && Widen(a)[i] == a[i] && Widen(b)[i] == b[i];
    }
  }

  /** A common tail never merges two registers. */
  lemma {:induction false} TailSeparates(p: Bits, x: Bits, y: Bits, tail: Bits)
    requires IsGenerator(p) && IsWord(x) && IsWord(y) && Feed(p, x, tail) == Feed(p, y, tail)
    ensures x == y
    decreases |tail|
  {
    if tail != [] {
      var init, bit := tail[..|tail| - 1], Widen([tail[|tail| - 1]]);
      ReduceInjective(p, Xor(Feed(p, x, init), bit), Xor(Feed(p, y, init), bit));
      XorCancel(Feed(p, x, init), Feed(p, y, init), bit);
      TailSeparates(p, x, y, init);
    }
  }

  lemma XorCancel(x: Bits, y: Bits, k: Bits)
    requires |x| == |y| == |k| && Xor(x, k) == Xor(y, k)
    ensures x == y
  {
    forall i | 0 <= i < |x| ensures x[i] == y[i] {
      assert Xor(x, k)[i] == Xor(y, k)[i];
    }
  }

  /** Bit streams that differ only inside one window of at most 32 bits leave different registers. */
  lemma {:induction false} StreamSeparates(p: Bits, before: Bits, a: Bits, b: Bits, after: Bits)
    requires IsGenerator(p) && |a| == |b| <= 32 && a != b
    ensures Feed(p, Ones(32), before + a + after) != Feed(p, Ones(32), before + b + after)
  {
    var r := Feed(p, Ones(32), before);
    FeedAppend(p, Ones(32), before, a);
    FeedAppend(p, Ones(32), before, b);
    FeedAppend(p, Ones(32), before + a, after);
    FeedAppend(p, Ones(32), before + b, after);
    if Feed(p, Ones(32), before + a + after) == Feed(p, Ones(32), before + b + after) {
      TailSeparates(p, Feed(p, r, a), Feed(p, r, b), after);
      WindowSeparates(p, r, a, b);
      assert false;
    }
  }

  /** The messages' bits agree outside `width` consecutive bits from `from` on. */
  predicate AgreeOutside(x: Bytes, y: Bytes, from: nat, width: nat) {
    && |x| == |y| && from + width <= 8 * |x|
    && Stream(x)[..from] == Stream(y)[..from] && Stream(x)[from + width..] == Stream(y)[from + width..]
  }

  /** Burst detection: different messages of equal length whose bits agree outside some 32 consecutive ones,
      wherever these lie, never share a checksum. */
  lemma BurstDetected(p: Bits, x: Bytes, y: Bytes, from: nat, width: nat)
    requires IsGenerator(p) && x != y && width <= 32 && AgreeOutside(x, y, from, width)
    ensures Crc(p, x) != Crc(p, y)
  {
    var u, v := Stream(x), Stream(y);
    var a, b := u[from..from + width], v[from..from + width];
    assert u == u[..from] + a + u[from + width..] && v == u[..from] + b + u[from + width..];
    if a == b { StreamInjective(x, y); assert false; }
    StreamSeparates(p, u[..from], a, b, u[from + width..]);
    DivideIsFeed(p, Ones(32), x);
    DivideIsFeed(p, Ones(32), y);
    if Crc(p, x) == Crc(p, y) {
      XorCancel(Divide(p, Ones(32), x), Divide(p, Ones(32), y), Ones(32));
      assert false;
    }
  }

  // ---------------------------------------------------------------- IEEE 802.3

  const POLYNOMIAL: Bits := ToBits(0xEDB8_8320, 32)

  lemma {:induction false} TopBit(n: nat, width: nat)
    requires width > 0 && Power(width - 1) <= n < Power(width)
    ensures ToBits(n, width)[width - 1]
  {
    if width > 1 { TopBit(n / 2, width - 1); }
  }

  lemma PolynomialTop()
    ensures POLYNOMIAL[31]
  {
    assert Power(4) == 16 && Power(8) == 16 * Power(4) && Power(12) == 16 * Power(8) && Power(16) == 16 * Power(12);
    assert Power(20) == 16 * Power(16) && Power(24) == 16 * Power(20) && Power(28) == 16 * Power(24);
    assert Power(31) == 8 * Power(28) && Power(32) == 2 * Power(31);
    TopBit(0xEDB8_8320, 32);
  }

  /** The checksum of durable records. */
  function Crc32(data: Bytes): (r: Bits)
    ensures IsWord(r)
  {
    Crc(POLYNOMIAL, data)
  }

  /** The checksum computed as the source does, with the table for this polynomial. */
  method Compute(data: Bytes) returns (crc: Bits)
    ensures crc == Crc32(data)
  {
    var table := MakeTable(POLYNOMIAL);
    crc := Checksum(POLYNOMIAL, table, data);
  }

  lemma Crc32DetectsBursts(x: Bytes, y: Bytes, from: nat, width: nat)
    requires x != y && width <= 32 && AgreeOutside(x, y, from, width)
    ensures Crc32(x) != Crc32(y)
  {
    PolynomialTop();
    BurstDetected(POLYNOMIAL, x, y, from, width);
  }

  lemma {:induction false} StreamAppend(a: Bytes, b: Bytes)
    ensures Stream(a + b) == Stream(a) + Stream(b)
    decreases |b|
  {
    if b == [] {
      assert a + b == a;
    } else {
      var init, last := b[..|b| - 1], ToBits(b[|b| - 1] as nat, 8);
      assert (a + b)[..|a + b| - 1] == a + init && (a + b)[|a + b| - 1] == b[|b| - 1];
      StreamAppend(a, init);
      Associates(Stream(a), Stream(init), last);
    }
  }

  /** In particular any damage to at most four consecutive bytes is detected. */
  lemma Crc32DetectsDamagedBytes(before: Bytes, a: Bytes, b: Bytes, after: Bytes)
    requires |a| == |b| <= 4 && a != b
    ensures Crc32(before + a + after) != Crc32(before + b + after)
  {
    var x, y := before + a + after, before + b + after;
    StreamAppend(before, a);
    StreamAppend(before + a, after);
    StreamAppend(before, b);
    StreamAppend(before + b, after);
    var from, width := 8 * |before|, 8 * |a|;
    assert Stream(x)[..from] == Stream(before) == Stream(y)[..from];
    assert Stream(x)[from + width..] == Stream(after) == Stream(y)[from + width..];
    assert x[|before|..|before| + |a|] == a && y[|before|..|before| + |a|] == b;
    Crc32DetectsBursts(x, y, from, width);
  }

  // ---------------------------------------------------------------- how the register starts and ends

  lemma {:induction false} DivideAppend(p: Bits, r: Bits, a: Bytes, b: Bytes)
    requires IsWord(p) && IsWord(r)
    ensures Divide(p, r, a + b) == Divide(p, Divide(p, r, a), b)
  {
    DivideIsFeed(p, r, a + b);
    DivideIsFeed(p, r, a);
    DivideIsFeed(p, Divide(p, r, a), b);
    StreamAppend(a, b);
    FeedAppend(p, r, Stream(a), Stream(b));
  }

  /** A word as the four bytes it is stored in, low byte first. */
  function WordBytes(w: Bits): (r: Bytes)
    requires IsWord(w)
    ensures |r| == 4
  {
    ByteIndex(w[..8]);
    ByteIndex(w[8..16]);
    ByteIndex(w[16..24]);
    ByteIndex(w[24..]);
    [ValueOf(w[..8]) as Byte, ValueOf(w[8..16]) as Byte, ValueOf(w[16..24]) as Byte, ValueOf(w[24..]) as Byte]
  }

  lemma {:induction false} ByteStream(b: Bits)
    requires |b| == 8
    ensures ValueOf(b) < 256 && Stream([ValueOf(b) as Byte]) == b
  {
    ByteIndex(b);
    BitsOfValue(b, 8);
    assert b + Zeros(0) == b;
    var d := [ValueOf(b) as Byte];
    assert d[..0] == [];
  }

  lemma {:induction false} WordStream(w: Bits)
    requires IsWord(w)
    ensures Stream(WordBytes(w)) == w
  {
    var a, b, c, d := w[..8], w[8..16], w[16..24], w[24..];
    ByteStream(a);
    ByteStream(b);
    ByteStream(c);
    ByteStream(d);
    var x, y, z, t := [ValueOf(a) as Byte], [ValueOf(b) as Byte], [ValueOf(c) as Byte], [ValueOf(d) as Byte];
    StreamAppend(x, y);
    StreamAppend(x + y, z);
    StreamAppend(x + y + z, t);
    assert WordBytes(w) == x + y + z + t;
    assert w == a + b + c + d;
  }

  /** The residue law: a message followed by its own checksum always has the same checksum, whatever the message.
      This is what the final complement is for. */
  lemma {:induction false} Residue(p: Bits, data: Bytes)
    requires IsWord(p)
    ensures Crc(p, data + WordBytes(Crc(p, data))) == Xor(Steps(p, Ones(32), 32), Ones(32))
  {
    var r, crc := Divide(p, Ones(32), data), Crc(p, data);
    DivideAppend(p, Ones(32), data, WordBytes(crc));
    DivideIsFeed(p, r, WordBytes(crc));
    WordStream(crc);
    ShortFeed(p, r, crc);
    assert Widen(crc) == crc;
    assert Xor(r, crc) == Ones(32);
  }

  /** The empty message has checksum zero: the register starts as it is complemented. */
  lemma EmptyChecksum(p: Bits)
    requires IsWord(p)
    ensures Crc(p, []) == Zeros(32)
  {
  }

  function Halved(n: nat, i: nat): nat {
    if i == 0 then n else Halved(n / 2, i - 1)
  }

  lemma {:induction false} BitAt(n: nat, width: nat, i: nat)
    requires i < width
    ensures ToBits(n, width)[i] == (Halved(n, i) % 2 == 1)
  {
    if i > 0 { BitAt(n / 2, width - 1, i - 1); }
  }

  lemma PolynomialLow()
    ensures forall i :: 0 <= i < 5 ==> !POLYNOMIAL[i]
    ensures POLYNOMIAL[5] && !POLYNOMIAL[6]
  {
    var n := 0xEDB8_8320;
    forall i: nat | i < 7 ensures POLYNOMIAL[i] == (Halved(n, i) % 2 == 1) { BitAt(n, 32, i); }
    assert n / 2 == 0x76DC_4190 && n / 4 == 0x3B6E_20C8 && n / 8 == 0x1DB7_1064;
    assert Halved(n, 0) == n && Halved(n, 1) == Halved(n / 2, 0)
      && Halved(n, 2) == Halved(n / 2, 1) == Halved(n / 4, 0);
    assert Halved(n, 3) == Halved(n / 4, 1) == n / 8 && Halved(n, 4) == Halved(n / 4, 2) == Halved(n / 8, 1) == n / 16;
    assert Halved(n, 5) == Halved(n / 8, 2) == Halved(n / 16, 1) == n / 32;
    assert Halved(n, 6) == Halved(n / 8, 3) == Halved(n / 16, 2) == Halved(n / 32, 1) == n / 64;
  }

  /** One bit of one division step. */
  lemma StepBit(p: Bits, r: Bits, n: nat, i: nat)
    requires IsWord(p) && IsWord(r) && i < 32
    ensures Steps(p, r, n + 1)[i] == ((i < 31 && Steps(p, r, n)[i + 1]) != (Steps(p, r, n)[0] && p[i]))
  {
  }

  /** The low end of the store's polynomial. */
  predicate LowEnd(p: Bits) {
    IsWord(p) && (forall i :: 0 <= i < 5 ==> !p[i]) && p[5] && !p[6]
  }

  lemma {:induction false} ClearBit(p: Bits, k: nat)
    requires LowEnd(p) && 2 <= k <= 7
    ensures !Steps(p, Ones(32), k)[7 - k]
  {
    StepBit(p, Ones(32), k - 1, 7 - k);
    if k == 2 {
      StepBit(p, Ones(32), 0, 0);
      StepBit(p, Ones(32), 0, 6);
    } else {
      ClearBit(p, k - 1);
    }
  }

  /** A zero byte moves the initial register. */
  lemma {:induction false} ZeroMoves(p: Bits)
    requires LowEnd(p)
    ensures Steps(p, Ones(32), 8) != Ones(32)
  {
    ClearBit(p, 7);
    StepBit(p, Ones(32), 7, 31);
  }

  lemma {:induction false} ZeroByte(p: Bits, r: Bits)
    requires IsWord(p) && IsWord(r)
    ensures Divide(p, r, [0]) == Steps(p, r, 8)
  {
    ZeroBits(8);
    var zero: Bytes := [0];
    assert zero[..0] == [] && Divide(p, r, []) == r;
    assert Xor(r, Widen(Zeros(8))) == r;
  }

  /** Registers that differ still differ after any message. */
  lemma {:induction false} RegistersApart(p: Bits, x: Bits, y: Bits, data: Bytes)
    requires IsGenerator(p) && IsWord(x) && IsWord(y) && x != y
    ensures Divide(p, x, data) != Divide(p, y, data)
  {
    DivideIsFeed(p, x, data);
    DivideIsFeed(p, y, data);
    if Feed(p, x, Stream(data)) == Feed(p, y, Stream(data)) { TailSeparates(p, x, y, Stream(data)); }
  }

  lemma {:induction false} FrontSeparates(p: Bits, data: Bytes)
    requires IsGenerator(p) && LowEnd(p)
    ensures Crc(p, [0] + data) != Crc(p, data)
  {
    ZeroMoves(p);
    ZeroByte(p, Ones(32));
    DivideAppend(p, Ones(32), [0], data);
    RegistersApart(p, Steps(p, Ones(32), 8), Ones(32), data);
    if Crc(p, [0] + data) == Crc(p, data) {
      XorCancel(Divide(p, Ones(32), [0] + data), Divide(p, Ones(32), data), Ones(32));
    }
  }

  /** A zero byte put in front of any message changes its checksum. This is what the initial register of ones
      is for. */
  lemma LeadingZeroDetected(data: Bytes)
    ensures Crc32([0] + data) != Crc32(data)
  {
    PolynomialTop();
    PolynomialLow();
    FrontSeparates(POLYNOMIAL, data);
  }
}
