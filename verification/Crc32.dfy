/**
 The CRC-32 of the STUN FINGERPRINT attribute: a table of 256 remainders, one look-up a byte.

 A 32-bit word is its sequence of bits, lowest bit first. The reference definition is a shift
 register that takes one message bit at a time.
 */
module Crc32 {
  import opened Bytes
  import opened Powers

  const TABLE_SIZE: nat := 256

  const BYTE_BITS: nat := 8

  type Word = w: seq<bool> | |w| == 32 witness seq(32, _ => false)

  // ---------- words and numbers ----------

  /** Bit i of n. */
  predicate BitAt(n: nat, i: nat)
    decreases i, n
  {
    if i == 0 then n % 2 == 1 else BitAt(n / 2, i - 1)
  }

  /** The 32 low bits of n. */
  function ToWord(n: nat): (r: Word) {
    seq(32, i requires 0 <= i < 32 => BitAt(n, i))
  }

  function Value(bits: seq<bool>): (r: nat) {
    if bits == [] then 0 else (if bits[0] then 1 else 0) + 2 * Value(bits[1..])
  }

  lemma {:induction false} ValueBound(bits: seq<bool>)
    ensures Value(bits) < Power2(|bits|)
  {
    if bits != [] {
      ValueBound(bits[1..]);
    }
  }

  lemma {:induction false} BitsOfValue(bits: seq<bool>, i: nat)
    requires i < |bits|
    ensures BitAt(Value(bits), i) == bits[i]
    decreases i
  {
    assert Value(bits) / 2 == Value(bits[1..]);
    if i > 0 {
      BitsOfValue(bits[1..], i - 1);
    }
  }

  lemma {:induction false} HighBits(n: nat, i: nat, j: nat)
    requires j <= i && n < Power2(j)
    ensures !BitAt(n, i)
    decreases i
  {
    if j > 0 {
      HighBits(n / 2, i - 1, j - 1);
    } else if i > 0 {
      HighBits(0, i - 1, 0);
    }
  }

  const POLYNOMIAL: Word := ToWord(0xedb88320)

  const ALL_ONES: Word := ToWord(0xffffffff)

  // ---------- machine operations ----------

  function Xor(a: Word, b: Word): (r: Word) {
    seq(32, i requires 0 <= i < 32 => a[i] != b[i])
  }

  function ShiftRight(a: Word, n: nat): (r: Word) {
    seq(32, i requires 0 <= i < 32 => i + n < 32 && a[i + n])
  }

  /** Keeps the n low bits. */
  function Low(a: Word, n: nat): (r: Word) {
    seq(32, i requires 0 <= i < 32 => i < n && a[i])
  }

  // ---------- the reference: one bit at a time ----------

  /** One clock of the shift register without input. */
  function Clock(c: Word): (r: Word) {
    if c[0] then Xor(POLYNOMIAL, ShiftRight(c, 1)) else ShiftRight(c, 1)
  }

  /** Shifts the n low bits of x into the register, lowest bit first. */
  function FeedBits(c: Word, x: Word, n: nat): (r: Word)
    decreases n, c, x
  {
    if n == 0 then c else FeedBits(Clock(Xor(c, Low(x, 1))), ShiftRight(x, 1), n - 1)
  }

  function FeedBytes(c: Word, buf: Bytes): (r: Word)
    decreases |buf|
  {
    if buf == [] then c else FeedBytes(FeedBits(c, ToWord(buf[0]), BYTE_BITS), buf[1..])
  }

  /** CRC-32 continued from `crc`, computed bit by bit. */
  function BitwiseCrc(crc: Word, buf: Bytes): (r: Word) {
    Xor(FeedBytes(Xor(crc, ALL_ONES), buf), ALL_ONES)
  }

  // ---------- the table ----------

  function Clocks(c: Word, n: nat): (r: Word)
    decreases n, c
  {
    if n == 0 then c else Clocks(Clock(c), n - 1)
  }

  /** The remainder of one byte. */
  function Entry(n: nat): (r: Word) {
    Clocks(ToWord(n), BYTE_BITS)
  }

  ghost predicate IsTable(table: seq<Word>) {
    |table| == TABLE_SIZE && forall n: nat :: n < TABLE_SIZE ==> table[n] == Entry(n)
  }

  lemma {:induction false} ClocksStep(c: Word, k: nat)
    ensures Clocks(c, k + 1) == Clock(Clocks(c, k))
    decreases k
  {
    if k > 0 {
      ClocksStep(Clock(c), k - 1);
    }
  }

  /** The inner loop: one clock a round. */
  method Remainder(n: nat) returns (c: Word)
    ensures c == Entry(n)
  {
    c := ToWord(n);
    ghost var start := c;
    var k := 0;
    while k < BYTE_BITS
      invariant 0 <= k <= BYTE_BITS && c == Clocks(start, k)
    {
      ClocksStep(start, k);
      if c[0] {
        c := Xor(POLYNOMIAL, ShiftRight(c, 1));
      } else {
        c := ShiftRight(c, 1);
      }
      k := k + 1;
    }
  }

  /** The outer loop: one remainder an entry. */
  method Crc32Table() returns (table: seq<Word>)
    ensures IsTable(table)
  {
    var entries := new Word[TABLE_SIZE];
    var n := 0;
    while n < TABLE_SIZE
      invariant 0 <= n <= TABLE_SIZE
      invariant forall i: nat :: i < n ==> entries[i] == Entry(i)
    {
      var c := Remainder(n);
      entries[n] := c;
      n := n + 1;
    }
    table := entries[..];
  }

  // ---------- one look-up does the work of eight bits ----------

  /** The bits of x above the lowest only move down when the register is clocked. */
  lemma ClockSplit(c: Word, x: Word)
    ensures Clock(Xor(c, x)) == Xor(Clock(Xor(c, Low(x, 1))), ShiftRight(x, 1))
  {
    assert Xor(c, x)[0] == Xor(c, Low(x, 1))[0];
    var l, r := Clock(Xor(c, x)), Xor(Clock(Xor(c, Low(x, 1))), ShiftRight(x, 1));
    assert forall i :: 0 <= i < 32 ==> l[i] == r[i];
  }

  lemma ShiftNone(x: Word)
    ensures ShiftRight(x, 0) == x
  {
  }

  lemma ShiftTwice(x: Word, n: nat)
    ensures ShiftRight(ShiftRight(x, 1), n) == ShiftRight(x, n + 1)
  {
  }

  /** Xoring n bits in at once and clocking equals feeding them one at a time. */
  lemma {:induction false} FeedIsXor(c: Word, x: Word, n: nat)
    ensures Clocks(Xor(c, x), n) == Xor(FeedBits(c, x, n), ShiftRight(x, n))
    decreases n
  {
    if n == 0 {
      ShiftNone(x);
    } else {
      ClockSplit(c, x);
      FeedIsXor(Clock(Xor(c, Low(x, 1))), ShiftRight(x, 1), n - 1);
      ShiftTwice(x, n - 1);
    }
  }

  lemma LowShift(x: Word, y: Word, n: nat)
    requires n > 0 && Low(x, n) == Low(y, n)
    ensures Low(x, 1) == Low(y, 1) && Low(ShiftRight(x, 1), n - 1) == Low(ShiftRight(y, 1), n - 1)
  {
    assert forall i :: 0 <= i < 32 && i < n ==> x[i] == Low(x, n)[i] && y[i] == Low(y, n)[i];
  }

  /** Feeding n bits looks at the n low bits only. */
  lemma {:induction false} FeedLow(c: Word, x: Word, y: Word, n: nat)
    requires Low(x, n) == Low(y, n)
    ensures FeedBits(c, x, n) == FeedBits(c, y, n)
    decreases n
  {
    if n > 0 {
      LowShift(x, y, n);
      FeedLow(Clock(Xor(c, Low(x, 1))), ShiftRight(x, 1), ShiftRight(y, 1), n - 1);
    }
  }

  lemma XorZero(a: Word, zero: Word)
    requires forall i :: 0 <= i < 32 ==> !zero[i]
    ensures Xor(a, zero) == a && Xor(zero, a) == a
  {
  }

  lemma LowFacts(y: Word)
    ensures Low(Low(y, 8), 8) == Low(y, 8)
    ensures forall i :: 0 <= i < 32 ==> !ShiftRight(Low(y, BYTE_BITS), 8)[i] && !Low(y, 0)[i]
  {
  }

  /** Eight clocks of a word: eight clocks of its low byte, with the other three bytes moved down. */
  lemma {:induction false} LowByteDecides(y: Word)
    ensures Clocks(y, BYTE_BITS) == Xor(Clocks(Low(y, BYTE_BITS), 8), ShiftRight(y, BYTE_BITS))
  {
    var zero, low := Low(y, 0), Low(y, 8);
    LowFacts(y);
    FeedIsXor(zero, y, BYTE_BITS);
    FeedIsXor(zero, low, BYTE_BITS);
    FeedLow(zero, y, low, BYTE_BITS);
    XorZero(y, zero);
    XorZero(low, zero);
    XorZero(FeedBits(zero, low, BYTE_BITS), ShiftRight(low, BYTE_BITS));
  }

  /** The place in the table of register xor byte. */
  function Index(c: Word, b: Byte): (r: nat) {
    Value(Xor(c, ToWord(b))[..8])
  }

  /** A byte fed bit by bit is one look-up at the low byte of register xor byte. */
  lemma {:induction false} LookupIsFeed(c: Word, b: Byte)
    ensures Index(c, b) < TABLE_SIZE
    ensures FeedBits(c, ToWord(b), BYTE_BITS) == Xor(Entry(Index(c, b)), ShiftRight(c, BYTE_BITS))
  {
    var x := ToWord(b);
    ByteBits(b);
    IndexOfLowByte(Xor(c, x));
    FeedWhole(c, x);
    LowByteDecides(Xor(c, x));
    ByteShift(c, x);
  }

  lemma {:induction false} FeedWhole(c: Word, x: Word)
    requires forall i :: 8 <= i < 32 ==> !x[i]
    ensures Clocks(Xor(c, x), BYTE_BITS) == FeedBits(c, x, BYTE_BITS)
  {
    FeedIsXor(c, x, BYTE_BITS);
    XorZero(FeedBits(c, x, BYTE_BITS), ShiftRight(x, BYTE_BITS));
  }

  lemma ByteShift(c: Word, x: Word)
    requires forall i :: 8 <= i < 32 ==> !x[i]
    ensures ShiftRight(Xor(c, x), BYTE_BITS) == ShiftRight(c, BYTE_BITS)
  {
  }

  /** The low byte of a word, taken as a number and made a word again, is the word without its other bits. */
  lemma IndexOfLowByte(y: Word)
    ensures Value(y[..8]) < 256 && ToWord(Value(y[..8])) == Low(y, 8)
  {
    var n := Value(y[..8]);
    ValueBound(y[..8]);
    assert Power2(8) == 256;
    forall i | 0 <= i < 32
      ensures BitAt(n, i) == Low(y, 8)[i]
    {
      if i < 8 {
        BitsOfValue(y[..8], i);
      } else {
        HighBits(n, i, 8);
      }
    }
  }

  lemma ByteBits(b: Byte)
    ensures forall i :: 8 <= i < 32 ==> !ToWord(b)[i]
  {
    assert Power2(8) == 256;
    forall i | 8 <= i < 32
      ensures !BitAt(b, i)
    {
      HighBits(b, i, 8);
    }
  }

  /** The table-driven loop: the same CRC as bit by bit, from any starting value. */
  method UpdateCrc32(table: seq<Word>, crc: Word, buf: Bytes) returns (r: Word)
    requires IsTable(table)
    ensures r == BitwiseCrc(crc, buf)
  {
    var c := Xor(crc, ALL_ONES);
    var n := 0;
    while n < |buf|
      invariant 0 <= n <= |buf|
      invariant FeedBytes(c, buf[n..]) == FeedBytes(Xor(crc, ALL_ONES), buf)
    {
      LookupIsFeed(c, buf[n]);
      assert buf[n..][0] == buf[n] && buf[n..][1..] == buf[n + 1..];
      c := Xor(table[Index(c, buf[n])], ShiftRight(c, BYTE_BITS));
      n := n + 1;
    }
    r := Xor(c, ALL_ONES);
  }

  // ---------- piecewise updates ----------

  lemma {:induction false} FeedBytesAppend(c: Word, a: Bytes, b: Bytes)
    ensures FeedBytes(c, a + b) == FeedBytes(FeedBytes(c, a), b)
    decreases |a|
  {
    if a == [] {
      assert a + b == b;
    } else {
      assert (a + b)[1..] == a[1..] + b;
      FeedBytesAppend(FeedBits(c, ToWord(a[0]), BYTE_BITS), a[1..], b);
    }
  }

  /** Updating over a and then over b is updating over both at once. */
  lemma UpdateAppend(crc: Word, a: Bytes, b: Bytes)
    ensures BitwiseCrc(crc, a + b) == BitwiseCrc(BitwiseCrc(crc, a), b)
  {
    FeedBytesAppend(Xor(crc, ALL_ONES), a, b);
    var c := FeedBytes(Xor(crc, ALL_ONES), a);
    assert Xor(Xor(c, ALL_ONES), ALL_ONES) == c;
  }

  // ---------- the FINGERPRINT value ----------

  const FINGERPRINT_XOR: Word := ToWord(0x5354554e)

  /** A word in network byte order. */
  function WordBytes(w: Word): (r: Bytes)
    ensures |r| == 4
  {
    ValueBound(w[..8]);
    ValueBound(w[8..16]);
    ValueBound(w[16..24]);
    ValueBound(w[24..]);
    assert Power2(8) == 256;
    [Value(w[24..]), Value(w[16..24]), Value(w[8..16]), Value(w[..8])]
  }

  /** The four bytes of a FINGERPRINT over `data`. */
  function FingerprintValue(data: Bytes): (r: Bytes)
    ensures |r| == 4
  {
    WordBytes(Xor(BitwiseCrc(ToWord(0), data), FINGERPRINT_XOR))
  }
}
