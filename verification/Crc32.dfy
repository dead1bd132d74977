/**
 The CRC-32 of src/fixtures/demo-v2-images.ts: shift-and-xor on a reflected 32-bit register,
 compared with polynomial division over GF(2) (section 3.4 of RFC 2083).
 */
module Crc32 {
  import opened Bits

  const POLY := 0xedb88320
  const ONES := 0xffffffff

  type Word = w: int | 0 <= w < 0x1_0000_0000

  function WordXor(a: Word, b: Word): (r: Word)
    ensures r == Xor(a, b)
  {
    WordIsPow2();
    XorBound(a, b, 32);
    Xor(a, b)
  }

  /** One bit round: shift right, and fold the polynomial in when a one fell out. */
  function Round(c: Word): Word {
    if c % 2 == 1 then WordXor(c / 2, POLY) else c / 2
  }

  function Rounds(c: Word, n: nat): Word
    decreases n
  {
    if n == 0 then c else Rounds(Round(c), n - 1)
  }

  function Register(c: Word, bytes: seq<Byte>): Word
    decreases |bytes|
  {
    if bytes == [] then c else Register(Rounds(WordXor(c, bytes[0]), 8), bytes[1..])
  }

  function Crc(bytes: seq<Byte>): Word {
    WordXor(Register(ONES, bytes), ONES)
  }

  /** crc32 as the source computes it. */
  method ComputeCrc(buffer: seq<Byte>) returns (result: Word)
    ensures result == Crc(buffer)
  {
    var crc: Word := ONES;
    var i := 0;
    while i < |buffer|
      invariant 0 <= i <= |buffer|
      invariant Register(crc, buffer[i..]) == Register(ONES, buffer)
    {
      ghost var before := crc;
      crc := WordXor(crc, buffer[i]);
      var bit := 0;
      while bit < 8
        invariant 0 <= bit <= 8
        invariant Rounds(crc, 8 - bit) == Rounds(WordXor(before, buffer[i]), 8)
      {
        crc := if crc % 2 == 1 then WordXor(crc / 2, POLY) else crc / 2;
        bit := bit + 1;
      }
      assert buffer[i..][1..] == buffer[i + 1..];
      i := i + 1;
    }
    result := WordXor(crc, ONES);
  }

  // ---------- error detection ----------

  /** A bit round loses nothing: the top bit of the result says whether a one fell out. */
  lemma RoundInjective(c: Word, d: Word)
    requires Round(c) == Round(d)
    ensures c == d
  {
    WordIsPow2();
    RoundTop(c);
    RoundTop(d);
    assert c % 2 == d % 2;
    if c % 2 == 1 {
      XorCancels(c / 2, POLY);
      XorCancels(d / 2, POLY);
    }
  }

  lemma RoundTop(c: Word)
    ensures Round(c) >= 0x8000_0000 <==> c % 2 == 1
  {
    WordIsPow2();
    XorTop(c / 2, POLY, 31);
  }

  /** ... and every word is the result of a round, so a round permutes the 32-bit words. */
  lemma RoundSurjective(d: Word) returns (c: Word)
    ensures Round(c) == d
  {
    WordIsPow2();
    if d >= 0x8000_0000 {
      XorTop(d, POLY, 31);
      c := 2 * Xor(d, POLY) + 1;
      assert c / 2 == Xor(d, POLY);
      XorCancels(d, POLY);
    } else {
      c := 2 * d;
    }
  }

  lemma {:induction false} RoundsInjective(c: Word, d: Word, n: nat)
    requires Rounds(c, n) == Rounds(d, n)
    ensures c == d
    decreases n
  {
    if n > 0 {
      RoundsInjective(Round(c), Round(d), n - 1);
      RoundInjective(c, d);
    }
  }

  lemma {:induction false} RegisterInjective(c: Word, d: Word, bytes: seq<Byte>)
    requires Register(c, bytes) == Register(d, bytes)
    ensures c == d
    decreases |bytes|
  {
    if bytes != [] {
      var c', d' := Rounds(WordXor(c, bytes[0]), 8), Rounds(WordXor(d, bytes[0]), 8);
      RegisterInjective(c', d', bytes[1..]);
      RoundsInjective(WordXor(c, bytes[0]), WordXor(d, bytes[0]), 8);
      XorCancels(c, bytes[0]);
      XorCancels(d, bytes[0]);
    }
  }

  lemma {:induction false} RegisterAppend(c: Word, a: seq<Byte>, b: seq<Byte>)
    ensures Register(c, a + b) == Register(Register(c, a), b)
    decreases |a|
  {
    if a == [] {
      assert a + b == b;
    } else {
      assert (a + b)[1..] == a[1..] + b;
      RegisterAppend(Rounds(WordXor(c, a[0]), 8), a[1..], b);
    }
  }

  /** Only the lowest bit of what is folded in matters to the next round; the rest shifts along. */
  lemma RoundSplit(c: Word, d: Word)
    ensures Round(WordXor(c, d)) == WordXor(Round(WordXor(c, d % 2)), d / 2)
  {
    XorUnfold(c, d);
    XorUnfold(c, d % 2);
    XorZero(c / 2);
    assert d % 2 / 2 == 0;
    var x, y := WordXor(c, d), WordXor(c, d % 2);
    assert x / 2 == Xor(c / 2, d / 2) && y / 2 == c / 2 && x % 2 == y % 2;
    hide Xor;
    if x % 2 == 1 {
      XorAssociates(c / 2, d / 2, POLY);
      XorCommutes(d / 2, POLY);
      XorAssociates(c / 2, POLY, d / 2);
    }
  }

  /** The low bits of what is folded in go through the rounds; the rest arrives shifted down. */
  lemma {:induction false} RoundsSplit(c: Word, low: nat, high: nat, n: nat)
    requires low < Pow2(n) && low < 0x1_0000_0000 && high < 0x1_0000_0000
    requires low + Pow2(n) * high < 0x1_0000_0000
    ensures Rounds(WordXor(c, low + Pow2(n) * high), n) == WordXor(Rounds(WordXor(c, low), n), high)
    decreases n
  {
    if n == 0 {
      XorZero(c);
    } else {
      var d, d' := low + Pow2(n) * high, low / 2 + Pow2(n - 1) * high;
      assert d == low + 2 * (Pow2(n - 1) * high);
      assert d / 2 == d' && d % 2 == low % 2;
      RoundSplit(c, d);
      RoundSplit(c, low);
      hide Round, Xor;
      RoundsSplit(Round(WordXor(c, low % 2)), low / 2, high, n - 1);
    }
  }

  /** The bytes as one little-endian number. */
  function LittleEndian(bytes: seq<Byte>): (n: nat)
    ensures n < Pow2(8 * |bytes|)
  {
    if bytes == [] then 0
    else
      assert Pow2(8 * |bytes|) == 256 * Pow2(8 * |bytes[1..]|) by { Pow2Byte(8 * |bytes[1..]|); }
      bytes[0] + 256 * LittleEndian(bytes[1..])
  }

  lemma {:induction false} LittleEndianInjective(a: seq<Byte>, b: seq<Byte>)
    requires |a| == |b| && LittleEndian(a) == LittleEndian(b)
    ensures a == b
    decreases |a|
  {
    if a != [] {
      assert a[0] == b[0] && LittleEndian(a[1..]) == LittleEndian(b[1..]);
      LittleEndianInjective(a[1..], b[1..]);
      assert a == [a[0]] + a[1..] && b == [b[0]] + b[1..];
    }
  }

  lemma {:induction false} RoundsAdd(c: Word, m: nat, n: nat)
    ensures Rounds(c, m + n) == Rounds(Rounds(c, m), n)
    decreases m
  {
    if m > 0 { RoundsAdd(Round(c), m - 1, n); }
  }

  lemma {:induction false} LittleEndianBound(bytes: seq<Byte>)
    requires |bytes| <= 4
    ensures LittleEndian(bytes) < 0x1_0000_0000
  {
    assert Pow2(8) == 256 && Pow2(0) == 1;
    WordIsPow2();
    Pow2Byte(8);
    Pow2Byte(16);
  }

  /** Up to four bytes can be folded in at once, before any of their rounds. */
  lemma {:induction false} RegisterAtOnce(c: Word, bytes: seq<Byte>)
    requires |bytes| <= 4 && LittleEndian(bytes) < 0x1_0000_0000
    ensures Register(c, bytes) == Rounds(WordXor(c, LittleEndian(bytes)), 8 * |bytes|)
    decreases |bytes|
  {
    if bytes == [] {
      XorZero(c);
    } else {
      var first, rest := bytes[0], LittleEndian(bytes[1..]);
      RegisterAtOnce(Rounds(WordXor(c, first), 8), bytes[1..]);
      var all: Word := LittleEndian(bytes);
      assert Pow2(8) == 256;
      assert all == first + 256 * rest;
      hide Xor, Rounds, LittleEndian;
      RoundsSplit(c, first, rest, 8);
      RoundsAdd(WordXor(c, all), 8, 8 * |bytes[1..]|);
    }
  }

  /**
   Every burst of at most four bytes is detected: two messages that agree outside one window of at
   most 32 bits have equal checksums only when they are equal. A single changed byte is a window of one.
   */
  lemma BurstIsDetected(prefix: seq<Byte>, x: seq<Byte>, y: seq<Byte>, suffix: seq<Byte>)
    requires |x| == |y| <= 4
    ensures Crc(prefix + x + suffix) == Crc(prefix + y + suffix) <==> x == y
  {
    if Crc(prefix + x + suffix) == Crc(prefix + y + suffix) {
      XorCancels(Register(ONES, prefix + x + suffix), ONES);
      XorCancels(Register(ONES, prefix + y + suffix), ONES);
      RegisterAppend(ONES, prefix + x, suffix);
      RegisterAppend(ONES, prefix + y, suffix);
      RegisterInjective(Register(ONES, prefix + x), Register(ONES, prefix + y), suffix);
      RegisterAppend(ONES, prefix, x);
      RegisterAppend(ONES, prefix, y);
      var c := Register(ONES, prefix);
      LittleEndianBound(x);
      LittleEndianBound(y);
      RegisterAtOnce(c, x);
      RegisterAtOnce(c, y);
      RoundsInjective(WordXor(c, LittleEndian(x)), WordXor(c, LittleEndian(y)), 8 * |x|);
      XorCancels(LittleEndian(x), c);
      XorCancels(LittleEndian(y), c);
      LittleEndianInjective(x, y);
    }
  }
}
