/** Error detection of the CRC-32, bit by bit: bursts at any bit offset (src/fixtures/demo-v2-images.ts). */
module CrcBursts {
  import opened Bits
  import opened Crc32
  import opened CrcPolynomial

  /** The bits as a number, first bit lowest. */
  function Number(bits: seq<bool>): (n: nat)
    ensures n < Pow2(|bits|)
  {
    if bits == [] then 0 else (if bits[0] then 1 else 0) + 2 * Number(bits[1..])
  }

  lemma {:induction false} BitsOfNumber(bits: seq<bool>)
    ensures ByteBits(Number(bits), |bits|) == bits
  {
    if bits != [] {
      BitsOfNumber(bits[1..]);
      assert Number(bits) / 2 == Number(bits[1..]);
      assert bits == [bits[0]] + bits[1..];
    }
  }

  /** Up to 32 bits can be folded in at once, before any of their rounds. */
  lemma FeedAtOnce(c: Word, bits: seq<bool>)
    requires |bits| <= 32
    ensures Number(bits) < 0x1_0000_0000
    ensures FeedAll(c, bits) == Rounds(WordXor(c, Number(bits)), |bits|)
  {
    WordIsPow2();
    PowMonotone(|bits|, 32);
    BitsOfNumber(bits);
    FeedByte(c, Number(bits), |bits|);
  }

  lemma {:induction false} FeedAllInjective(c: Word, d: Word, bits: seq<bool>)
    requires FeedAll(c, bits) == FeedAll(d, bits)
    ensures c == d
    decreases |bits|
  {
    if bits != [] {
      var n := |bits| - 1;
      var bit: Word := if bits[n] then 1 else 0;
      var c', d' := FeedAll(c, bits[..n]), FeedAll(d, bits[..n]);
      RoundInjective(WordXor(c', bit), WordXor(d', bit));
      XorCancels(c', bit);
      XorCancels(d', bit);
      FeedAllInjective(c, d, bits[..n]);
    }
  }

  lemma {:induction false} ByteBitsInjective(a: nat, b: nat, n: nat)
    requires a < Pow2(n) && b < Pow2(n) && ByteBits(a, n) == ByteBits(b, n)
    ensures a == b
    decreases n
  {
    if n > 0 {
      assert ByteBits(a, n)[0] == ByteBits(b, n)[0] && ByteBits(a, n)[1..] == ByteBits(b, n)[1..];
      ByteBitsInjective(a / 2, b / 2, n - 1);
    }
  }

  lemma {:induction false} MessageBitsInjective(x: seq<Byte>, y: seq<Byte>)
    requires |x| == |y|
    ensures MessageBits(x) == MessageBits(y) ==> x == y
    decreases |x|
  {
    if x != [] && MessageBits(x) == MessageBits(y) {
      assert Pow2(8) == 256;
      assert MessageBits(x)[..8] == ByteBits(x[0], 8) && MessageBits(y)[..8] == ByteBits(y[0], 8);
      assert MessageBits(x)[8..] == MessageBits(x[1..]) && MessageBits(y)[8..] == MessageBits(y[1..]);
      ByteBitsInjective(x[0], y[0], 8);
      MessageBitsInjective(x[1..], y[1..]);
      assert x == [x[0]] + x[1..] && y == [y[0]] + y[1..];
    }
  }

  /** Two bit strings that agree outside one window of at most 32 bits feed to one register only when they are equal. */
  lemma WindowIsSeen(c: Word, a: seq<bool>, u: seq<bool>, v: seq<bool>, b: seq<bool>)
    requires |u| == |v| <= 32 && FeedAll(c, a + u + b) == FeedAll(c, a + v + b)
    ensures u == v
  {
    FeedAppend(c, a + u, b);
    FeedAppend(c, a + v, b);
    FeedAllInjective(FeedAll(c, a + u), FeedAll(c, a + v), b);
    FeedAppend(c, a, u);
    FeedAppend(c, a, v);
    var d := FeedAll(c, a);
    FeedAtOnce(d, u);
    FeedAtOnce(d, v);
    hide FeedAll, Rounds, Number, Xor;
    RoundsInjective(WordXor(d, Number(u)), WordXor(d, Number(v)), |u|);
    XorCancels(Number(u), d);
    XorCancels(Number(v), d);
    BitsOfNumber(u);
    BitsOfNumber(v);
  }

  /**
   Every burst of at most 32 bits is detected, at whatever bit it starts: two messages of one length whose bits, in
   transmission order, agree outside k <= 32 consecutive positions have equal checksums only when they are equal.
   */
  lemma {:induction false} BitBurstIsDetected(x: seq<Byte>, y: seq<Byte>, i: nat, k: nat)
    requires |x| == |y| && k <= 32 && i + k <= 8 * |x|
    requires MessageBits(x)[..i] == MessageBits(y)[..i] && MessageBits(x)[i + k..] == MessageBits(y)[i + k..]
    ensures Crc(x) == Crc(y) <==> x == y
  {
    if Crc(x) == Crc(y) {
      var xs, ys := MessageBits(x), MessageBits(y);
      XorCancels(Register(ONES, x), ONES);
      XorCancels(Register(ONES, y), ONES);
      FeedMessage(ONES, x);
      FeedMessage(ONES, y);
      hide FeedAll, Register, MessageBits, Xor;
      assert xs == xs[..i] + xs[i..i + k] + xs[i + k..];
      assert ys == ys[..i] + ys[i..i + k] + ys[i + k..];
      WindowIsSeen(ONES, xs[..i], xs[i..i + k], ys[i..i + k], xs[i + k..]);
      MessageBitsInjective(x, y);
    }
  }
}
