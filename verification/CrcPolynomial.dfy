/**
 The reference definition: CRC-32 is the remainder of a division of polynomials over GF(2), with the
 register preset to ones and complemented at the end. A polynomial is the set of its exponents.
 */
module CrcPolynomial {
  import opened Bits
  import opened Crc32

  type Poly = set<nat>

  function Add(p: Poly, q: Poly): Poly {
    (p - q) + (q - p)
  }

  function TimesX(p: Poly): Poly {
    set i | i in p :: i + 1
  }

  function Term(present: bool, p: Poly): Poly {
    if present then p else {}
  }

  /** Horner's rule: the coefficients of a, highest first, times g. */
  function Product(a: seq<bool>, g: Poly): Poly {
    if a == [] then {}
    else var n := |a| - 1; Add(TimesX(Product(a[..n], g)), Term(a[n], g))
  }

  // x^32 + x^26 + x^23 + x^22 + x^16 + x^12 + x^11 + x^10 + x^8 + x^7 + x^5 + x^4 + x^2 + x + 1
  const GENERATOR: Poly := {32, 26, 23, 22, 16, 12, 11, 10, 8, 7, 5, 4, 2, 1, 0}

  ghost predicate Reduced(p: Poly) {
    forall i :: i in p ==> i < 32
  }

  ghost predicate IsRemainder(dividend: Poly, r: Poly) {
    Reduced(r) && exists q: seq<bool> :: Add(dividend, r) == Product(q, GENERATOR)
  }

  /** The message bits in transmission order: bytes in order, lowest bit first. */
  function ByteBits(b: nat, n: nat): (r: seq<bool>)
    ensures |r| == n
  {
    if n == 0 then [] else [b % 2 == 1] + ByteBits(b / 2, n - 1)
  }

  function MessageBits(bytes: seq<Byte>): (r: seq<bool>)
    ensures |r| == 8 * |bytes|
  {
    if bytes == [] then [] else ByteBits(bytes[0], 8) + MessageBits(bytes[1..])
  }

  function Shifted(p: Poly, n: nat): Poly {
    set i | i in p :: i + n
  }

  const ALL_ONES: Poly := set i: nat | i < 32

  /** x^32 times the message, with the 32 leading ones the register is preset to. */
  function Dividend(bits: seq<bool>): Poly {
    Add(Shifted(Product(bits, {0}), 32), Shifted(ALL_ONES, |bits|))
  }

  /** The polynomial held in the reflected register: the lowest bit is the coefficient of x^31. */
  function RegisterPoly(c: Word): Poly {
    set i: nat | i < 32 && Coefficient(c, i)
  }

  predicate Coefficient(c: Word, i: nat)
    requires i < 32
  {
    Bit(c, 31 - i)
  }

  // ---------- one message bit ----------

  function Feed(c: Word, bit: bool): Word {
    Round(WordXor(c, if bit then 1 else 0))
  }

  function FeedAll(c: Word, bits: seq<bool>): Word {
    if bits == [] then c else var n := |bits| - 1; Feed(FeedAll(c, bits[..n]), bits[n])
  }

  lemma BitOfQuarter(a: nat, j: nat)
    ensures Bit(a, j + 2) == Bit(a / 4, j)
  {
    assert Bit(a, j + 2) == Bit(a / 2, j + 1) == Bit(a / 2 / 2, j);
    assert a / 2 / 2 == a / 4;
  }

  lemma BitOfByte(a: nat, j: nat)
    ensures Bit(a, j + 8) == Bit(a / 256, j)
  {
    hide Bit;
    BitOfQuarter(a, j + 6);
    BitOfQuarter(a / 4, j + 4);
    BitOfQuarter(a / 16, j + 2);
    BitOfQuarter(a / 64, j);
    assert a / 4 / 4 == a / 16 && a / 16 / 4 == a / 64 && a / 64 / 4 == a / 256;
  }

  lemma BitOfModulus(a: nat, j: nat)
    requires j < 8
    ensures Bit(a, j) == Bit(a % 256, j)
  {
    assert Pow2(8) == 256;
    LowBits(a % 256, a / 256, j, 8);
  }

  lemma {:induction false} LowBits(low: nat, high: nat, j: nat, n: nat)
    requires j < n
    ensures Bit(low + Pow2(n) * high, j) == Bit(low, j)
    decreases n
  {
    assert low + Pow2(n) * high == low + 2 * (Pow2(n - 1) * high);
    assert (low + Pow2(n) * high) / 2 == low / 2 + Pow2(n - 1) * high;
    if j > 0 { LowBits(low / 2, high, j - 1, n - 1); }
  }

  lemma Bits20(j: nat)
    requires j < 8
    ensures Bit(0x20, j) <==> j in {5}
  {
    assert !Bit(0x20, 0) && !Bit(0x20, 1) && !Bit(0x20, 2) && !Bit(0x20, 3);
    assert !Bit(0x20, 4) && Bit(0x20, 5) && !Bit(0x20, 6) && !Bit(0x20, 7);
    hide Bit;
  }

  lemma PolyByte0(j: nat)
    requires j < 8
    ensures Bit(0xedb88320, j) <==> 31 - j in GENERATOR
  {
    hide Bit;
    Bits20(j);
    BitOfModulus(0xedb88320, j);
  }

  lemma Bits83(j: nat)
    requires j < 8
    ensures Bit(0x83, j) <==> j in {0, 1, 7}
  {
    assert Bit(0x83, 0) && Bit(0x83, 1) && !Bit(0x83, 2) && !Bit(0x83, 3);
    assert !Bit(0x83, 4) && !Bit(0x83, 5) && !Bit(0x83, 6) && Bit(0x83, 7);
    hide Bit;
  }

  lemma PolyByte1(j: nat)
    requires j < 8
    ensures Bit(0xedb88320, j + 8) <==> 23 - j in GENERATOR
  {
    hide Bit;
    Bits83(j);
    BitOfByte(0xedb88320, j);
    BitOfModulus(0xedb883, j);
  }

  lemma BitsB8(j: nat)
    requires j < 8
    ensures Bit(0xb8, j) <==> j in {3, 4, 5, 7}
  {
    assert !Bit(0xb8, 0) && !Bit(0xb8, 1) && !Bit(0xb8, 2) && Bit(0xb8, 3);
    assert Bit(0xb8, 4) && Bit(0xb8, 5) && !Bit(0xb8, 6) && Bit(0xb8, 7);
    hide Bit;
  }

  lemma PolyByte2(j: nat)
    requires j < 8
    ensures Bit(0xedb88320, j + 16) <==> 15 - j in GENERATOR
  {
    hide Bit;
    BitsB8(j);
    BitOfByte(0xedb88320, j + 8);
    BitOfByte(0xedb883, j);
    BitOfModulus(0xedb8, j);
  }

  lemma BitsED(j: nat)
    requires j < 8
    ensures Bit(0xed, j) <==> j in {0, 2, 3, 5, 6, 7}
  {
    assert Bit(0xed, 0) && !Bit(0xed, 1) && Bit(0xed, 2) && Bit(0xed, 3);
    assert !Bit(0xed, 4) && Bit(0xed, 5) && Bit(0xed, 6) && Bit(0xed, 7);
    hide Bit;
  }

  lemma PolyByte3(j: nat)
    requires j < 8
    ensures Bit(0xedb88320, j + 24) <==> 7 - j in GENERATOR
  {
    hide Bit;
    BitsED(j);
    BitOfByte(0xedb88320, j + 16);
    BitOfByte(0xedb883, j + 8);
    BitOfByte(0xedb8, j);
  }

  /** The constant 0xedb88320, read lowest bit first, is the generator without its leading term. */
  lemma PolyBits()
    ensures Add(RegisterPoly(POLY), {32}) == GENERATOR
  {
    forall i: nat | i < 32
      ensures Coefficient(POLY, i) <==> i in GENERATOR
    {
      hide Bit;
      var j := 31 - i;
      if j < 8 { PolyByte0(j); }
      else if j < 16 { PolyByte1(j - 8); }
      else if j < 24 { PolyByte2(j - 16); }
      else { PolyByte3(j - 24); }
    }
  }

  lemma {:induction false} LowOnes(n: nat, j: nat)
    requires j < n
    ensures Bit(Pow2(n) - 1, j)
    decreases n
  {
    assert (Pow2(n) - 1) / 2 == Pow2(n - 1) - 1;
    if j > 0 { LowOnes(n - 1, j - 1); }
  }

  lemma OnesPoly()
    ensures RegisterPoly(ONES) == ALL_ONES
  {
    WordIsPow2();
    forall i: nat | i < 32
      ensures Coefficient(ONES, i)
    {
      LowOnes(32, 31 - i);
    }
  }

  lemma XorPoly(a: Word, b: Word)
    ensures RegisterPoly(WordXor(a, b)) == Add(RegisterPoly(a), RegisterPoly(b))
  {
    forall i: nat | i < 32
      ensures Coefficient(WordXor(a, b), i) == (Coefficient(a, i) != Coefficient(b, i))
    {
      BitOfXor(a, b, 31 - i);
    }
  }

  /** Shifting the register right multiplies its polynomial by x; the bit that falls out is x^32. */
  lemma ShiftPoly(c: Word)
    ensures TimesX(RegisterPoly(c)) == Add(RegisterPoly(c / 2), Term(c % 2 == 1, {32}))
  {
    WordIsPow2();
    NoHighBits(c, 32, 32);
    forall i: nat
      ensures i in TimesX(RegisterPoly(c)) <==> i in Add(RegisterPoly(c / 2), Term(c % 2 == 1, {32}))
    {
      if 0 < i <= 32 {
        assert i in TimesX(RegisterPoly(c)) <==> i - 1 in RegisterPoly(c);
        assert Coefficient(c, i - 1) == Bit(c, 32 - i);
      }
      if i < 32 {
        assert Coefficient(c / 2, i) == Bit(c, 32 - i);
      }
    }
  }

  /** Feeding one bit multiplies by x, adds the bit at x^32, and reduces once by the generator. */
  lemma FeedPoly(c: Word, bit: bool) returns (quotientBit: bool)
    ensures RegisterPoly(Feed(c, bit))
         == Add(Add(TimesX(RegisterPoly(c)), Term(bit, {32})), Term(quotientBit, GENERATOR))
  {
    var b := if bit then 1 else 0;
    var fed := WordXor(c, b);
    quotientBit := fed % 2 == 1;
    XorUnfold(c, b);
    XorZero(c / 2);
    assert fed / 2 == c / 2 && (fed % 2 == 1) == ((c % 2 == 1) != bit);
    hide Xor;
    ShiftPoly(c);
    var half := RegisterPoly(c / 2);
    XorPoly(c / 2, POLY);
    PolyBits();
    assert RegisterPoly(Round(fed)) == if quotientBit then Add(half, RegisterPoly(POLY)) else half;
    hide RegisterPoly;
    HighTerm(half, RegisterPoly(POLY), c % 2 == 1, bit);
  }

  lemma HighTerm(half: Poly, low: Poly, out: bool, bit: bool)
    ensures Add(Add(Add(half, Term(out, {32})), Term(bit, {32})), Term(out != bit, Add(low, {32})))
         == if out != bit then Add(half, low) else half
  {
  }

  // ---------- the whole message ----------

  lemma {:induction false} FeedAppend(c: Word, a: seq<bool>, b: seq<bool>)
    ensures FeedAll(c, a + b) == FeedAll(FeedAll(c, a), b)
    decreases |b|
  {
    if b == [] {
      assert a + b == a;
    } else {
      var n := |b| - 1;
      assert (a + b)[..|a + b| - 1] == a + b[..n];
      FeedAppend(c, a, b[..n]);
    }
  }

  lemma FeedFirst(c: Word, bit: bool, rest: seq<bool>)
    ensures FeedAll(c, [bit] + rest) == FeedAll(Feed(c, bit), rest)
  {
    FeedAppend(c, [bit], rest);
    hide Feed;
    assert [bit][..0] == [] && FeedAll(c, [bit]) == Feed(FeedAll(c, []), bit);
  }

  lemma {:induction false} FeedByte(c: Word, b: nat, n: nat)
    requires b < Pow2(n) && b < 0x1_0000_0000
    ensures FeedAll(c, ByteBits(b, n)) == Rounds(WordXor(c, b), n)
    decreases n
  {
    if n == 0 {
      XorZero(c);
    } else {
      var bit := b % 2 == 1;
      assert Feed(c, bit) == Round(WordXor(c, b % 2));
      RoundSplit(c, b);
      assert ByteBits(b, n) == [bit] + ByteBits(b / 2, n - 1);
      assert Rounds(WordXor(c, b), n) == Rounds(Round(WordXor(c, b)), n - 1);
      hide FeedAll, Feed, Round, Rounds, WordXor, Xor, ByteBits;
      FeedFirst(c, bit, ByteBits(b / 2, n - 1));
      FeedByte(Feed(c, bit), b / 2, n - 1);
    }
  }

  lemma {:induction false} FeedMessage(c: Word, bytes: seq<Byte>)
    ensures FeedAll(c, MessageBits(bytes)) == Register(c, bytes)
    decreases |bytes|
  {
    if bytes != [] {
      assert Pow2(8) == 256;
      FeedByte(c, bytes[0], 8);
      FeedAppend(c, ByteBits(bytes[0], 8), MessageBits(bytes[1..]));
      FeedMessage(Rounds(WordXor(c, bytes[0]), 8), bytes[1..]);
    }
  }

  /** The dividend grows the way the register does: times x, plus the bit at x^32. */
  lemma DividendStep(bits: seq<bool>)
    requires bits != []
    ensures Dividend(bits) == Add(TimesX(Dividend(bits[..|bits| - 1])), Term(bits[|bits| - 1], {32}))
  {
    var n := |bits| - 1;
    var m, b := Product(bits[..n], {0}), bits[n];
    ShiftAdd(TimesX(m), Term(b, {0}), 32);
    assert Shifted(Term(b, {0}), 32) == Term(b, {32});
    ShiftTimesX(m, 32);
    assert Shifted(ALL_ONES, n + 1) == TimesX(Shifted(ALL_ONES, n)) by { ShiftTwice(ALL_ONES, n); }
    TimesXAdd(Shifted(m, 32), Shifted(ALL_ONES, n));
    AddRegroup(TimesX(Shifted(m, 32)), Term(b, {32}), TimesX(Shifted(ALL_ONES, n)));
  }

  lemma ShiftAdd(p: Poly, q: Poly, n: nat)
    ensures Shifted(Add(p, q), n) == Add(Shifted(p, n), Shifted(q, n))
  {
    forall i: nat
      ensures i in Shifted(Add(p, q), n) <==> i in Add(Shifted(p, n), Shifted(q, n))
    {
      InShifted(p, n, i);
      InShifted(q, n, i);
      InShifted(Add(p, q), n, i);
    }
  }

  lemma InShifted(p: Poly, n: nat, i: nat)
    ensures i in Shifted(p, n) <==> i >= n && i - n in p
  {
    if i >= n && i - n in p {
      assert (i - n) + n in Shifted(p, n);
    }
  }

  lemma InTimesX(p: Poly, i: nat)
    ensures i in TimesX(p) <==> i >= 1 && i - 1 in p
  {
    if i >= 1 && i - 1 in p {
      assert (i - 1) + 1 in TimesX(p);
    }
  }

  lemma ShiftTimesX(p: Poly, n: nat)
    ensures Shifted(TimesX(p), n) == TimesX(Shifted(p, n))
  {
    forall i: nat
      ensures i in Shifted(TimesX(p), n) <==> i in TimesX(Shifted(p, n))
    {
      InShifted(TimesX(p), n, i);
      InTimesX(Shifted(p, n), i);
      if i >= n { InTimesX(p, i - n); }
      if i >= 1 { InShifted(p, n, i - 1); }
    }
  }

  lemma ShiftTwice(p: Poly, n: nat)
    ensures Shifted(p, n + 1) == TimesX(Shifted(p, n))
  {
    forall i: nat
      ensures i in Shifted(p, n + 1) <==> i in TimesX(Shifted(p, n))
    {
      InShifted(p, n + 1, i);
      InTimesX(Shifted(p, n), i);
      if i >= 1 { InShifted(p, n, i - 1); }
    }
  }

  lemma TimesXAdd(p: Poly, q: Poly)
    ensures TimesX(Add(p, q)) == Add(TimesX(p), TimesX(q))
  {
    forall i: nat
      ensures i in TimesX(Add(p, q)) <==> i in Add(TimesX(p), TimesX(q))
    {
      InTimesX(p, i);
      InTimesX(q, i);
      InTimesX(Add(p, q), i);
    }
  }

  lemma AddRegroup(p: Poly, q: Poly, r: Poly)
    ensures Add(Add(p, q), r) == Add(Add(p, r), q)
  {
  }

  lemma AddPairs(p: Poly, q: Poly, r: Poly, s: Poly)
    ensures Add(Add(p, q), Add(r, s)) == Add(Add(p, r), Add(q, s))
  {
  }

  /** After every bit the register is the dividend so far, reduced: the quotient grows by one bit. */
  lemma {:induction false} RegisterIsReduced(bits: seq<bool>) returns (quotient: seq<bool>)
    ensures Add(Dividend(bits), RegisterPoly(FeedAll(ONES, bits))) == Product(quotient, GENERATOR)
    decreases |bits|
  {
    if bits == [] {
      quotient := [];
      OnesPoly();
      assert Shifted(ALL_ONES, 0) == ALL_ONES && Shifted({}, 32) == {};
      assert Add(ALL_ONES, ALL_ONES) == {} && Add({}, ALL_ONES) == ALL_ONES;
    } else {
      var n := |bits| - 1;
      var before, b := bits[..n], bits[n];
      var q := RegisterIsReduced(before);
      var c := FeedAll(ONES, before);
      var t := FeedPoly(c, b);
      DividendStep(bits);
      var d, r := Dividend(before), RegisterPoly(c);
      quotient := q + [t];
      assert quotient[..|q|] == q;
      TimesXAdd(d, r);
      hide Dividend, RegisterPoly, TimesX, FeedAll, Feed;
      CancelBit(TimesX(d), TimesX(r), Term(b, {32}), Term(t, GENERATOR));
    }
  }

  lemma CancelBit(d: Poly, r: Poly, bit: Poly, g: Poly)
    ensures Add(Add(d, bit), Add(Add(r, bit), g)) == Add(Add(d, r), g)
  {
  }

  /**
   The checksum is the complement of the remainder of the ones-conditioned message under division by
   the generator, with coefficients in reflected order.
   */
  lemma CrcIsRemainder(bytes: seq<Byte>)
    ensures IsRemainder(Dividend(MessageBits(bytes)), Add(ALL_ONES, RegisterPoly(Crc(bytes))))
  {
    var q := RegisterIsReduced(MessageBits(bytes));
    FeedMessage(ONES, bytes);
    var r := RegisterPoly(Register(ONES, bytes));
    XorPoly(Register(ONES, bytes), ONES);
    OnesPoly();
    assert Add(ALL_ONES, Add(r, ALL_ONES)) == r;
  }

  // ---------- the remainder is unique ----------

  lemma {:induction false} ProductPadded(k: nat, q: seq<bool>, g: Poly)
    ensures Product(seq(k, _ => false) + q, g) == Product(q, g)
    decreases |q|, k
  {
    var all := seq(k, _ => false) + q;
    if q == [] {
      if k > 0 {
        assert all[..|all| - 1] == seq(k - 1, _ => false) + [];
        ProductPadded(k - 1, [], g);
        assert Add(TimesX({}), {}) == {};
      }
    } else {
      var n := |q| - 1;
      assert all[..|all| - 1] == seq(k, _ => false) + q[..n];
      ProductPadded(k, q[..n], g);
    }
  }

  function XorBits(a: seq<bool>, b: seq<bool>): (r: seq<bool>)
    requires |a| == |b|
    ensures |r| == |a|
  {
    seq(|a|, i requires 0 <= i < |a| => a[i] != b[i])
  }

  lemma {:induction false} ProductOfXor(a: seq<bool>, b: seq<bool>, g: Poly)
    requires |a| == |b|
    ensures Product(XorBits(a, b), g) == Add(Product(a, g), Product(b, g))
    decreases |a|
  {
    if a != [] {
      var n := |a| - 1;
      assert XorBits(a, b)[..n] == XorBits(a[..n], b[..n]);
      ProductOfXor(a[..n], b[..n], g);
      TimesXAdd(Product(a[..n], g), Product(b[..n], g));
      AddPairs(TimesX(Product(a[..n], g)), Term(a[n], g), TimesX(Product(b[..n], g)), Term(b[n], g));
      assert Term(a[n] != b[n], g) == Add(Term(a[n], g), Term(b[n], g));
    }
  }

  lemma LeadingTerm(p: Poly, b: bool)
    requires p == {} || exists i :: i in p && i >= 32
    ensures var next := Add(TimesX(p), Term(b, GENERATOR));
            next == {} || exists i :: i in next && i >= 32
  {
    var next := Add(TimesX(p), Term(b, GENERATOR));
    if p == {} {
      assert TimesX(p) == {} && Add({}, {}) == {};
      assert b ==> 32 in next;
    } else {
      var i :| i in p && i >= 32;
      InTimesX(p, i + 1);
      GeneratorDegree(i + 1);
      hide TimesX;
      assert i + 1 in next;
    }
  }

  lemma GeneratorDegree(i: nat)
    ensures i in GENERATOR ==> i <= 32
  {
  }

  /** A multiple of the generator is zero or has degree at least 32. */
  lemma {:induction false} MultipleIsLarge(q: seq<bool>)
    ensures Product(q, GENERATOR) == {} || exists i :: i in Product(q, GENERATOR) && i >= 32
    decreases |q|
  {
    if q != [] {
      var n := |q| - 1;
      var p := Product(q[..n], GENERATOR);
      MultipleIsLarge(q[..n]);
      LeadingTerm(p, q[n]);
    }
  }

  /** Division has one remainder, so the characterisation above determines the checksum. */
  lemma RemainderUnique(d: Poly, r1: Poly, r2: Poly)
    requires IsRemainder(d, r1) && IsRemainder(d, r2)
    ensures r1 == r2
  {
    var q1: seq<bool> :| Add(d, r1) == Product(q1, GENERATOR);
    var q2: seq<bool> :| Add(d, r2) == Product(q2, GENERATOR);
    var a, b := seq(|q2|, _ => false) + q1, seq(|q1|, _ => false) + q2;
    ProductPadded(|q2|, q1, GENERATOR);
    ProductPadded(|q1|, q2, GENERATOR);
    ProductOfXor(a, b, GENERATOR);
    assert Add(Add(d, r1), Add(d, r2)) == Add(r1, r2);
    MultipleIsLarge(XorBits(a, b));
    assert Reduced(Add(r1, r2));
    assert Add(r1, r2) == {};
    forall i: nat
      ensures i in r1 <==> i in r2
    {
      assert i !in Add(r1, r2);
    }
  }
}
