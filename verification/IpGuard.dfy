/**
 The address guard (src/utils/ip-guard.ts): dotted-quad parsing, the CIDR mask test, and the
 IPv4-mapped part of the IPv6 check. Strings are lower-cased ASCII literals as `net.isIP` accepts them.
 */
module IpGuard {
  import opened Wrappers
  import opened Bits
  import opened Text

  type Address = a: int | 0 <= a < 0x1_0000_0000

  // ---------- decimal numbers ----------

  predicate AllDigits(s: string) {
    forall i :: 0 <= i < |s| ==> IsDigit(s[i])
  }

  /** `Number(part)` on a digit string. */
  function Decimal(s: string): nat
    requires AllDigits(s)
  {
    if s == "" then 0 else 10 * Decimal(s[..|s| - 1]) + DigitValue(s[|s| - 1])
  }

  function DigitChar(d: nat): (c: char)
    requires d < 10
    ensures IsDigit(c) && DigitValue(c) == d
  {
    ('0' as int + d) as char
  }

  function PrintOctet(n: nat): (s: string)
    requires n < 256
    ensures 1 <= |s| <= 3 && AllDigits(s)
  {
    if n < 10 then [DigitChar(n)]
    else if n < 100 then [DigitChar(n / 10), DigitChar(n % 10)]
    else [DigitChar(n / 100), DigitChar(n / 10 % 10), DigitChar(n % 10)]
  }

  lemma DecimalSnoc(s: string, c: char)
    requires AllDigits(s) && IsDigit(c)
    ensures AllDigits(s + [c]) && Decimal(s + [c]) == 10 * Decimal(s) + DigitValue(c)
  {
    assert (s + [c])[..|s + [c]| - 1] == s;
  }

  lemma OctetRoundTrip(n: nat)
    requires n < 256
    ensures Decimal(PrintOctet(n)) == n
  {
    var ones, tens, hundreds := DigitChar(n % 10), DigitChar(n / 10 % 10), DigitChar(n / 100);
    if n < 10 {
      DecimalSnoc("", DigitChar(n));
    } else if n < 100 {
      DecimalSnoc("", DigitChar(n / 10));
      DecimalSnoc([DigitChar(n / 10)], ones);
    } else {
      assert n / 10 == 10 * (n / 100) + n / 10 % 10 && n == 10 * (n / 10) + n % 10;
      DecimalSnoc("", hundreds);
      DecimalSnoc([hundreds], tens);
      DecimalSnoc([hundreds, tens], ones);
      assert PrintOctet(n) == [hundreds, tens] + [ones];
      assert "" + [hundreds] == [hundreds] && [hundreds] + [tens] == [hundreds, tens];
    }
  }

  // ---------- ipv4ToInt ----------

  /** What the loop over the parts computes: None as soon as a part is not one to three digits up to 255. */
  function Fold(parts: seq<string>, value: nat): Option<nat> {
    if parts == [] then Some(value)
    else if !(1 <= |parts[0]| <= 3 && AllDigits(parts[0])) || Decimal(parts[0]) > 255 then None
    else Fold(parts[1..], value * 256 + Decimal(parts[0]))
  }

  function Ipv4ToInt(ip: string): Option<Address> {
    var parts := Split(ip, '.');
    if |parts| != 4 then None
    else
      FourPartsBound(parts);
      Fold(parts, 0)
  }

  method ParseIpv4(ip: string) returns (r: Option<Address>)
    ensures r == Ipv4ToInt(ip)
  {
    var parts := Split(ip, '.');
    if |parts| != 4 { return None; }
    var value := 0;
    var i := 0;
    while i < 4
      invariant 0 <= i <= 4
      invariant Fold(parts[i..], value) == Fold(parts, 0)
    {
      if !(1 <= |parts[i]| <= 3 && AllDigits(parts[i])) { return None; }
      var n := Decimal(parts[i]);
      if n > 255 { return None; }
      value := value * 256 + n;
      assert parts[i..][1..] == parts[i + 1..];
      i := i + 1;
    }
    r := Some(value % 0x1_0000_0000);
    assert parts[4..] == [];
    FourPartsBound(parts);
  }

  lemma FourPartsBound(parts: seq<string>)
    requires |parts| == 4
    ensures Fold(parts, 0).Some? ==> Fold(parts, 0).value < 0x1_0000_0000
  {
    if Fold(parts, 0).Some? {
      FoldBound(parts, 0);
      WordIsPow2();
    }
  }

  lemma {:induction false} FoldBound(parts: seq<string>, value: nat)
    requires Fold(parts, value).Some?
    ensures Fold(parts, value).value < (value + 1) * Pow2(8 * |parts|)
    decreases |parts|
  {
    if parts != [] {
      FoldBound(parts[1..], value * 256 + Decimal(parts[0]));
      var p := Pow2(8 * |parts[1..]|);
      Pow2Byte(8 * |parts[1..]|);
      ScaledBound(value, Decimal(parts[0]), p);
    } else {
      assert Pow2(0) == 1;
    }
  }

  lemma ScaledBound(value: nat, n: nat, p: nat)
    requires n < 256
    ensures (value * 256 + n + 1) * p <= (value + 1) * (256 * p)
  {
    assert (value + 1) * (256 * p) - (value * 256 + n + 1) * p == (255 - n) * p;
  }

  function Octet(v: Address, k: nat): (o: nat)
    requires k < 4
    ensures o < 256
  {
    if k == 0 then v / 256 / 256 / 256
    else if k == 1 then v / 256 / 256 % 256
    else if k == 2 then v / 256 % 256
    else v % 256
  }

  function PrintAddress(v: Address): string {
    PrintOctet(Octet(v, 0)) + "."
    + (PrintOctet(Octet(v, 1)) + "." + (PrintOctet(Octet(v, 2)) + "." + PrintOctet(Octet(v, 3))))
  }

  lemma FoldOctet(n: nat, rest: seq<string>, value: nat)
    requires n < 256
    ensures Fold([PrintOctet(n)] + rest, value) == Fold(rest, value * 256 + n)
  {
    OctetRoundTrip(n);
    assert ([PrintOctet(n)] + rest)[1..] == rest;
  }

  lemma SplitFour(a: string, b: string, c: string, d: string)
    requires '.' !in a && '.' !in b && '.' !in c && '.' !in d
    ensures Split(a + "." + (b + "." + (c + "." + d)), '.') == [a] + ([b] + ([c] + [d]))
  {
    hide Split;
    SplitAt(a, '.', b + "." + (c + "." + d));
    SplitAt(b, '.', c + "." + d);
    SplitAt(c, '.', d);
    SplitNone(d, '.');
  }

  lemma FourOctets(a: nat, b: nat, c: nat, d: nat)
    requires a < 256 && b < 256 && c < 256 && d < 256
    ensures Ipv4ToInt(PrintOctet(a) + "." + (PrintOctet(b) + "." + (PrintOctet(c) + "." + PrintOctet(d))))
         == Some(((a * 256 + b) * 256 + c) * 256 + d)
  {
    var pa, pb, pc, pd := PrintOctet(a), PrintOctet(b), PrintOctet(c), PrintOctet(d);
    assert '.' !in pa && '.' !in pb && '.' !in pc && '.' !in pd;
    hide PrintOctet, Split, Fold, AllDigits, Decimal;
    SplitFour(pa, pb, pc, pd);
    FoldOctet(a, [pb] + ([pc] + [pd]), 0);
    FoldOctet(b, [pc] + [pd], a);
    FoldOctet(c, [pd], a * 256 + b);
    FoldOctet(d, [], (a * 256 + b) * 256 + c);
    assert [pd] + [] == [pd];
    FoldEmpty(((a * 256 + b) * 256 + c) * 256 + d);
  }

  lemma FoldEmpty(value: nat)
    ensures Fold([], value) == Some(value)
  {
  }

  /** Reading a printed address gives the address back. */
  lemma AddressRoundTrip(v: Address)
    ensures Ipv4ToInt(PrintAddress(v)) == Some(v)
  {
    var a, b := v / 256, v / 256 / 256;
    assert v == 256 * a + v % 256 && a == 256 * b + a % 256 && b == 256 * (b / 256) + b % 256;
    hide Ipv4ToInt, PrintOctet;
    FourOctets(Octet(v, 0), Octet(v, 1), Octet(v, 2), Octet(v, 3));
  }

  // ---------- the mask test ----------

  /** `(0xffffffff << (32 - bits)) >>> 0` for a prefix length of 1 to 32. */
  function Mask(bits: nat): nat
    requires bits <= 32
  {
    WordIsPow2();
    PowMonotone(32 - bits, 32);
    0x1_0000_0000 - Pow2(32 - bits)
  }

  /** inRange, once the text of the range has been parsed; the shift by 32 has its own branch. */
  predicate InRange(value: Address, base: nat, bits: nat)
    requires bits <= 32
  {
    bits == 0 || And(value, Mask(bits)) == And(base, Mask(bits))
  }

  lemma {:induction false} AndOnes(r: nat, n: nat)
    requires r < Pow2(n)
    ensures And(r, Pow2(n) - 1) == r
    decreases n
  {
    if n > 0 && r > 0 {
      assert (Pow2(n) - 1) / 2 == Pow2(n - 1) - 1 && (Pow2(n) - 1) % 2 == 1;
      AndOnes(r / 2, n - 1);
    }
  }

  lemma {:induction false} AndClearsLow(q: nat, r: nat, n: nat, k: nat)
    requires k <= n && r < Pow2(k) && q * Pow2(k) + r < Pow2(n) && Pow2(k) <= Pow2(n)
    ensures And(q * Pow2(k) + r, Pow2(n) - Pow2(k)) == q * Pow2(k)
    decreases k
  {
    var v := q * Pow2(k) + r;
    if k == 0 {
      AndOnes(v, n);
    } else {
      var h := q * Pow2(k - 1);
      assert q * Pow2(k) == 2 * h;
      assert v / 2 == h + r / 2;
      var mask := Pow2(n) - Pow2(k);
      assert mask == 2 * (Pow2(n - 1) - Pow2(k - 1));
      assert mask / 2 == Pow2(n - 1) - Pow2(k - 1) && mask % 2 == 0;
      AndClearsLow(q, r / 2, n - 1, k - 1);
    }
  }

  /** What is left of an address after dropping its host bits. */
  function Prefix(v: nat, bits: nat): nat
    requires bits <= 32
  {
    NonNegativeQuotient(v, Pow2(32 - bits));
    v / Pow2(32 - bits)
  }

  lemma NonNegativeQuotient(v: nat, m: nat)
    requires m > 0
    ensures v / m >= 0
  {
  }

  lemma PrefixRange(v: nat, bits: nat)
    requires bits <= 32
    ensures Prefix(v, bits) * Pow2(32 - bits) <= v < Prefix(v, bits) * Pow2(32 - bits) + Pow2(32 - bits)
  {
    var m := Pow2(32 - bits);
    assert v == (v / m) * m + v % m;
  }

  lemma PrefixUnique(v: nat, bits: nat, q: nat)
    requires bits <= 32 && q * Pow2(32 - bits) <= v < q * Pow2(32 - bits) + Pow2(32 - bits)
    ensures Prefix(v, bits) == q
  {
    PrefixRange(v, bits);
    var m, p := Pow2(32 - bits), Prefix(v, bits);
    hide Prefix, Pow2;
    if p > q {
      NextMultiple(q, p, m);
    } else if q > p {
      NextMultiple(p, q, m);
    }
  }

  lemma NextMultiple(a: nat, b: nat, m: nat)
    requires a < b
    ensures b * m >= a * m + m
  {
    assert b * m == a * m + m + (b - a - 1) * m;
  }

  lemma SameMultiple(a: nat, b: nat, m: nat)
    requires m > 0 && a * m == b * m
    ensures a == b
  {
    if a > b {
      NextMultiple(b, a, m);
    } else if b > a {
      NextMultiple(a, b, m);
    }
  }

  lemma MaskKeepsPrefix(v: Address, bits: nat)
    requires bits <= 32
    ensures And(v, Mask(bits)) == Prefix(v, bits) * Pow2(32 - bits)
  {
    WordIsPow2();
    PowMonotone(32 - bits, 32);
    PrefixRange(v, bits);
    hide Pow2, And, Prefix;
    var q := Prefix(v, bits);
    AndClearsLow(q, v - q * Pow2(32 - bits), 32, 32 - bits);
  }

  lemma NoPrefix(v: Address)
    ensures Prefix(v, 0) == 0
  {
    WordIsPow2();
    PrefixUnique(v, 0, 0);
  }

  /** The mask test agrees with division: two addresses match when their prefixes are equal. */
  lemma MaskTestIsDivision(v: Address, base: Address, bits: nat)
    requires bits <= 32
    ensures InRange(v, base, bits) <==> v / Pow2(32 - bits) == base / Pow2(32 - bits)
  {
    assert Prefix(v, bits) == v / Pow2(32 - bits) && Prefix(base, bits) == base / Pow2(32 - bits);
    NoPrefix(v);
    NoPrefix(base);
    MaskKeepsPrefix(v, bits);
    MaskKeepsPrefix(base, bits);
    hide Pow2, And, Prefix, Mask;
    if Prefix(v, bits) * Pow2(32 - bits) == Prefix(base, bits) * Pow2(32 - bits) {
      SameMultiple(Prefix(v, bits), Prefix(base, bits), Pow2(32 - bits));
    }
  }

  // ---------- the table ----------

  predicate IsCidr(text: string) {
    var parts := Split(text, '/');
    |parts| == 2 && 1 <= |parts[1]| && AllDigits(parts[1]) && Decimal(parts[1]) <= 32
  }

  /** inRange on the text of a range: an unreadable base matches nothing. */
  predicate InRangeText(value: Address, text: string)
    requires IsCidr(text)
  {
    var parts := Split(text, '/');
    var base := Ipv4ToInt(parts[0]);
    base.Some? && InRange(value, base.value, Decimal(parts[1]))
  }

  datatype Block = Block(a: nat, b: nat, c: nat, d: nat, bits: nat)

  /** "a.b.c.d/bits" */
  function BlockText(k: Block): string
    requires k.a < 256 && k.b < 256 && k.c < 256 && k.d < 256 && k.bits < 256
  {
    PrintOctet(k.a) + "." + (PrintOctet(k.b) + "." + (PrintOctet(k.c) + "." + PrintOctet(k.d)))
    + "/" + PrintOctet(k.bits)
  }

  predicate BlockOk(k: Block) {
    k.a < 256 && k.b < 256 && k.c < 256 && k.d < 256 && 1 <= k.bits <= 32
  }

  function BlockBase(k: Block): Address
    requires BlockOk(k)
  {
    ((k.a * 256 + k.b) * 256 + k.c) * 256 + k.d
  }

  const BLOCKED: seq<Block> := [
    Block(0, 0, 0, 0, 8), Block(10, 0, 0, 0, 8), Block(100, 64, 0, 0, 10), Block(127, 0, 0, 0, 8),
    Block(169, 254, 0, 0, 16), Block(172, 16, 0, 0, 12), Block(192, 0, 0, 0, 24), Block(192, 0, 2, 0, 24),
    Block(192, 168, 0, 0, 16), Block(198, 18, 0, 0, 15), Block(198, 51, 100, 0, 24), Block(203, 0, 113, 0, 24),
    Block(224, 0, 0, 0, 4), Block(240, 0, 0, 0, 4)]

  lemma BlocksOk()
    ensures forall k :: k in BLOCKED ==> BlockOk(k)
  {
  }

  lemma BlockTextMeaning(k: Block, v: Address)
    requires BlockOk(k)
    ensures IsCidr(BlockText(k)) && InRangeText(v, BlockText(k)) == InRange(v, BlockBase(k), k.bits)
  {
    BlockParts(k);
    FourOctets(k.a, k.b, k.c, k.d);
    OctetRoundTrip(k.bits);
    hide PrintOctet, Split, Ipv4ToInt, InRange, BlockText;
  }

  lemma BlockParts(k: Block)
    requires BlockOk(k)
    ensures Split(BlockText(k), '/')
         == [PrintOctet(k.a) + "." + (PrintOctet(k.b) + "." + (PrintOctet(k.c) + "." + PrintOctet(k.d))),
             PrintOctet(k.bits)]
  {
    var base := PrintOctet(k.a) + "." + (PrintOctet(k.b) + "." + (PrintOctet(k.c) + "." + PrintOctet(k.d)));
    assert '/' !in base;
    hide PrintOctet, Split;
    assert BlockText(k) == base + ['/'] + PrintOctet(k.bits);
    SplitAt(base, '/', PrintOctet(k.bits));
    SlashFree(k.bits);
  }

  lemma SlashFree(n: nat)
    requires n < 256
    ensures Split(PrintOctet(n), '/') == [PrintOctet(n)]
  {
    SplitNone(PrintOctet(n), '/');
  }

  predicate BlockMatches(k: Block, value: Address)
    requires BlockOk(k)
  {
    BlockTextMeaning(k, value);
    InRangeText(value, BlockText(k))
  }

  predicate IsBlockedIpv4(ip: string) {
    BlocksOk();
    match Ipv4ToInt(ip)
    case None => true
    case Some(value) => exists i :: 0 <= i < |BLOCKED| && BlockMatches(BLOCKED[i], value)
  }

  // The same table as closed intervals of addresses.
  const RESERVED: seq<(Address, Address)> := [
    (0x00000000, 0x00ffffff), (0x0a000000, 0x0affffff), (0x64400000, 0x647fffff), (0x7f000000, 0x7fffffff),
    (0xa9fe0000, 0xa9feffff), (0xac100000, 0xac1fffff), (0xc0000000, 0xc00000ff), (0xc0000200, 0xc00002ff),
    (0xc0a80000, 0xc0a8ffff), (0xc6120000, 0xc613ffff), (0xc6336400, 0xc63364ff), (0xcb007100, 0xcb0071ff),
    (0xe0000000, 0xefffffff), (0xf0000000, 0xffffffff)]

  predicate Reserved(v: Address) {
    exists i :: 0 <= i < |RESERVED| && RESERVED[i].0 <= v <= RESERVED[i].1
  }

  lemma Powers()
    ensures Pow2(8) == 0x100 && Pow2(16) == 0x1_0000 && Pow2(17) == 0x2_0000 && Pow2(20) == 0x10_0000
    ensures Pow2(22) == 0x40_0000 && Pow2(24) == 0x100_0000 && Pow2(28) == 0x1000_0000
  {
    Pow2Byte(8);
    Pow2Byte(16);
    assert Pow2(18) == 4 * Pow2(16) && Pow2(20) == 4 * Pow2(18);
    assert Pow2(26) == 4 * Pow2(24) && Pow2(28) == 4 * Pow2(26);
  }

  /** A range whose base is the q-th multiple of its size matches exactly the q-th interval of that size. */
  lemma BlockInterval(k: Block, v: Address, q: nat, size: nat)
    requires BlockOk(k) && size == Pow2(32 - k.bits) && BlockBase(k) == q * size
    ensures BlockMatches(k, v) <==> BlockBase(k) <= v < BlockBase(k) + size
  {
    BlockTextMeaning(k, v);
    MaskTestIsDivision(v, BlockBase(k), k.bits);
    assert Prefix(v, k.bits) == v / Pow2(32 - k.bits);
    assert Prefix(BlockBase(k), k.bits) == BlockBase(k) / Pow2(32 - k.bits);
    hide Pow2, Prefix, BlockText, InRange, InRangeText, BlockBase;
    PrefixUnique(BlockBase(k), k.bits, q);
    PrefixRange(v, k.bits);
    if BlockBase(k) <= v < BlockBase(k) + Pow2(32 - k.bits) {
      PrefixUnique(v, k.bits, q);
    }
  }

  /** Range i of the table and interval i agree. */
  predicate RowAgrees(i: nat, v: Address)
    requires i < |BLOCKED|
  {
    BlockOk(BLOCKED[i]) && (BlockMatches(BLOCKED[i], v) <==> RESERVED[i].0 <= v <= RESERVED[i].1)
  }

  lemma ZeroBase()
    ensures BlockBase(Block(0, 0, 0, 0, 8)) == 0
  {
  }

  lemma Row0(v: Address)
    ensures RowAgrees(0, v)
  {
    Powers();
    ZeroBase();
    hide Pow2, BlockMatches, BlockBase;
    BlockInterval(Block(0, 0, 0, 0, 8), v, 0x0, 0x1000000);
  }

  lemma Rows0(v: Address)
    ensures RowAgrees(1, v) && RowAgrees(2, v)
  {
    Powers();
    hide Pow2, BlockMatches;
    BlockInterval(Block(10, 0, 0, 0, 8), v, 0xa, 0x1000000);
    BlockInterval(Block(100, 64, 0, 0, 10), v, 0x191, 0x400000);
  }

  lemma Rows1(v: Address)
    ensures RowAgrees(3, v) && RowAgrees(4, v) && RowAgrees(5, v)
  {
    Powers();
    hide Pow2, BlockMatches;
    BlockInterval(Block(127, 0, 0, 0, 8), v, 0x7f, 0x1000000);
    BlockInterval(Block(169, 254, 0, 0, 16), v, 0xa9fe, 0x10000);
    BlockInterval(Block(172, 16, 0, 0, 12), v, 0xac1, 0x100000);
  }

  lemma Rows2(v: Address)
    ensures RowAgrees(6, v) && RowAgrees(7, v) && RowAgrees(8, v)
  {
    Powers();
    hide Pow2, BlockMatches;
    BlockInterval(Block(192, 0, 0, 0, 24), v, 0xc00000, 0x100);
    BlockInterval(Block(192, 0, 2, 0, 24), v, 0xc00002, 0x100);
    BlockInterval(Block(192, 168, 0, 0, 16), v, 0xc0a8, 0x10000);
  }

  lemma Rows3(v: Address)
    ensures RowAgrees(9, v) && RowAgrees(10, v) && RowAgrees(11, v)
  {
    Powers();
    hide Pow2, BlockMatches;
    BlockInterval(Block(198, 18, 0, 0, 15), v, 0x6309, 0x20000);
    BlockInterval(Block(198, 51, 100, 0, 24), v, 0xc63364, 0x100);
    BlockInterval(Block(203, 0, 113, 0, 24), v, 0xcb0071, 0x100);
  }

  lemma Rows4(v: Address)
    ensures RowAgrees(12, v) && RowAgrees(13, v)
  {
    Powers();
    hide Pow2, BlockMatches;
    BlockInterval(Block(224, 0, 0, 0, 4), v, 0xe, 0x10000000);
    BlockInterval(Block(240, 0, 0, 0, 4), v, 0xf, 0x10000000);
  }

  lemma TableInterval(i: nat, v: Address)
    requires i < |BLOCKED|
    ensures RowAgrees(i, v)
  {
    hide RowAgrees;
    Row0(v);
    Rows0(v);
    Rows1(v);
    Rows2(v);
    Rows3(v);
    Rows4(v);
  }

  /** The verdict on a printed address is membership in the fourteen reserved intervals. */
  lemma BlockedIsReserved(v: Address)
    ensures IsBlockedIpv4(PrintAddress(v)) <==> Reserved(v)
  {
    AddressRoundTrip(v);
    BlocksOk();
    forall i | 0 <= i < |BLOCKED|
      ensures BlockMatches(BLOCKED[i], v) <==> RESERVED[i].0 <= v <= RESERVED[i].1
    {
      TableInterval(i, v);
    }
  }

  // ---------- IPv4-mapped IPv6 ----------

  /** `[0-9a-f]` */
  predicate IsHexDigit(c: char) { IsDigit(c) || 'a' <= c <= 'f' }

  predicate AllHex(s: string) {
    forall i :: 0 <= i < |s| ==> IsHexDigit(s[i])
  }

  /** `parseInt(s, 16)` on one to four hex digits. */
  function Hex(s: string): (v: nat)
    requires AllHex(s) && |s| <= 4
    ensures v < 0x1_0000
  {
    (if |s| > 3 then HexValue(s[|s| - 4]) else 0) * 0x1000 + (if |s| > 2 then HexValue(s[|s| - 3]) else 0) * 0x100
    + (if |s| > 1 then HexValue(s[|s| - 2]) else 0) * 0x10 + (if |s| > 0 then HexValue(s[|s| - 1]) else 0)
  }

  function Lower(s: string): (r: string)
    ensures |r| == |s|
  {
    seq(|s|, i requires 0 <= i < |s| => if 'A' <= s[i] <= 'Z' then (s[i] as int + 32) as char else s[i])
  }

  predicate IsDottedQuad(s: string) {
    var parts := Split(s, '.');
    |parts| == 4 && forall i :: 0 <= i < 4 ==> 1 <= |parts[i]| <= 3 && AllDigits(parts[i])
  }

  /** The two groups of the hex-form mapped address, when the text has that form. */
  function HexGroups(addr: string): Option<(string, string)> {
    if !("::ffff:" <= addr) then None
    else
      var parts := Split(addr[7..], ':');
      if |parts| == 2 && 1 <= |parts[0]| <= 4 && 1 <= |parts[1]| <= 4 && AllHex(parts[0]) && AllHex(parts[1])
      then Some((parts[0], parts[1])) else None
  }

  predicate IsBlockedIpv6(ip: string) {
    IsBlockedPlain(Split(Lower(ip), '%')[0])
  }

  /** The decision once the literal is in lower case and its zone is gone. */
  predicate IsBlockedPlain(addr: string) {
    if "::ffff:" <= addr && IsDottedQuad(addr[7..]) then IsBlockedIpv4(addr[7..])
    else if "::" <= addr && IsDottedQuad(addr[2..]) then IsBlockedIpv4(addr[2..])
    else if HexGroups(addr).Some? then
      var (high, low) := HexGroups(addr).value;
      var hi, lo := Hex(high), Hex(low);
      IsBlockedIpv4(PrintOctet(LowByte(hi / 256)) + "." + (PrintOctet(LowByte(hi)) + "."
                    + (PrintOctet(LowByte(lo / 256)) + "." + PrintOctet(LowByte(lo)))))
    else
      || addr == "::" || addr == "::1"
      || "fe80" <= addr || "fe9" <= addr || "fea" <= addr || "feb" <= addr
      || "fc" <= addr || "fd" <= addr
      || "ff" <= addr
      || "2001:db8" <= addr
  }

  /** `n & 0xff` */
  function LowByte(n: nat): (b: nat)
    ensures b < 256
  {
    AndLowByte(n);
    And(n, 0xff)
  }

  lemma {:induction false} AndLow(q: nat, r: nat, n: nat)
    requires r < Pow2(n)
    ensures And(q * Pow2(n) + r, Pow2(n) - 1) == r
    decreases n
  {
    var v := q * Pow2(n) + r;
    if n == 0 {
      AndWithZero(v);
    } else {
      var h := q * Pow2(n - 1);
      assert v == 2 * h + r;
      assert v / 2 == h + r / 2 && v % 2 == r % 2;
      assert (Pow2(n) - 1) / 2 == Pow2(n - 1) - 1 && (Pow2(n) - 1) % 2 == 1;
      AndLow(q, r / 2, n - 1);
    }
  }

  lemma {:induction false} AndWithZero(v: nat)
    ensures And(v, 0) == 0
  {
    if v > 0 { AndWithZero(v / 2); }
  }

  lemma AndLowByte(n: nat)
    ensures And(n, 0xff) == n % 256
  {
    assert Pow2(8) == 256;
    AndLow(n / 256, n % 256, 8);
  }

  lemma {:induction false} CleanSplit(head: string, sep: char, s: string)
    requires sep !in head && (s == "" || s[0] == sep)
    ensures Split(head + s, sep)[0] == head
    decreases |head|
  {
    if head == "" {
      assert head + s == s;
    } else {
      assert (head + s)[1..] == head[1..] + s;
      CleanSplit(head[1..], sep, s);
      assert [head[0]] + head[1..] == head;
    }
  }

  /** What remains of an IPv6 literal after lower-casing and dropping the zone. */
  ghost predicate Denotes(ip: string, addr: string) {
    '%' !in addr && exists zone: string :: (zone == "" || zone[0] == '%') && Lower(ip) == addr + zone
  }

  lemma ZoneDropped(ip: string, addr: string)
    requires Denotes(ip, addr)
    ensures Split(Lower(ip), '%')[0] == addr
  {
    var zone: string :| (zone == "" || zone[0] == '%') && Lower(ip) == addr + zone;
    CleanSplit(addr, '%', zone);
  }

  lemma NoDotNoQuad(s: string)
    requires '.' !in s
    ensures !IsDottedQuad(s)
  {
    SplitNone(s, '.');
  }

  /** The hex form ::ffff:h:l is judged as the IPv4 address with those 32 bits, in any letter case and
      with or without a zone. */
  lemma HexMappedVerdict(ip: string, high: string, low: string)
    requires AllHex(high) && AllHex(low) && 1 <= |high| <= 4 && 1 <= |low| <= 4
    requires Denotes(ip, "::ffff:" + (high + ":" + low))
    ensures IsBlockedIpv6(ip) <==> Reserved(Hex(high) * 0x1_0000 + Hex(low))
  {
    ZoneDropped(ip, "::ffff:" + (high + ":" + low));
    HexForm(high, low);
    MappedOctets(Hex(high), Hex(low));
    BlockedIsReserved(Hex(high) * 0x1_0000 + Hex(low));
    var addr := "::ffff:" + (high + ":" + low);
    hide *;
    HexBranch(addr, high, low);
    BlockedWhenPlain(ip, addr);
  }

  lemma BlockedWhenPlain(ip: string, addr: string)
    requires Split(Lower(ip), '%')[0] == addr
    ensures IsBlockedIpv6(ip) <==> IsBlockedPlain(addr)
  {
    hide IsBlockedPlain, Lower, Split;
  }

  lemma HexBranch(addr: string, high: string, low: string)
    requires "::" <= addr && "::ffff:" <= addr && !IsDottedQuad(addr[7..]) && !IsDottedQuad(addr[2..])
    requires AllHex(high) && AllHex(low) && HexGroups(addr) == Some((high, low))
    ensures var hi, lo := Hex(high), Hex(low);
            IsBlockedPlain(addr)
            <==> IsBlockedIpv4(PrintOctet(LowByte(hi / 256)) + "." + (PrintOctet(LowByte(hi)) + "."
                               + (PrintOctet(LowByte(lo / 256)) + "." + PrintOctet(LowByte(lo)))))
  {
    hide HexGroups, IsDottedQuad, IsBlockedIpv4, PrintOctet, LowByte, Hex, AllHex;
  }

  /** Only the hex branch applies to the hex form, and it reads back the two groups. */
  lemma HexForm(high: string, low: string)
    requires AllHex(high) && AllHex(low) && 1 <= |high| <= 4 && 1 <= |low| <= 4
    ensures var addr := "::ffff:" + (high + ":" + low);
            && "::" <= addr && "::ffff:" <= addr && !IsDottedQuad(addr[7..]) && !IsDottedQuad(addr[2..])
            && HexGroups(addr) == Some((high, low))
  {
    var tail := high + ":" + low;
    var addr := "::ffff:" + tail;
    assert addr[7..] == tail && addr[2..] == "ffff:" + tail;
    assert ':' !in high && ':' !in low && '.' !in high && '.' !in low;
    assert '.' !in tail && '.' !in "ffff:" + tail;
    hide AllHex, IsDottedQuad, Split;
    NoDotNoQuad(tail);
    NoDotNoQuad("ffff:" + tail);
    SplitAt(high, ':', low);
    SplitNone(low, ':');
  }

  lemma MappedOctets(hi: nat, lo: nat)
    requires hi < 0x1_0000 && lo < 0x1_0000
    ensures PrintOctet(LowByte(hi / 256)) + "." + (PrintOctet(LowByte(hi)) + "."
            + (PrintOctet(LowByte(lo / 256)) + "." + PrintOctet(LowByte(lo))))
         == PrintAddress(hi * 0x1_0000 + lo)
  {
    AndLowByte(hi / 256);
    AndLowByte(hi);
    AndLowByte(lo / 256);
    AndLowByte(lo);
    SplitHalves(hi, lo);
    hide PrintOctet, LowByte;
  }

  lemma SplitHalves(hi: nat, lo: nat)
    requires hi < 0x1_0000 && lo < 0x1_0000
    ensures var v: Address := hi * 0x1_0000 + lo;
            && Octet(v, 0) == hi / 256 % 256 && Octet(v, 1) == hi % 256
            && Octet(v, 2) == lo / 256 % 256 && Octet(v, 3) == lo % 256
  {
    var v: Address := hi * 0x1_0000 + lo;
    assert v / 256 == hi * 256 + lo / 256;
    assert v / 256 / 256 == hi;
  }

  lemma PrintedIsQuad(v: Address)
    ensures IsDottedQuad(PrintAddress(v))
  {
    var a, b := PrintOctet(Octet(v, 0)), PrintOctet(Octet(v, 1));
    var c, d := PrintOctet(Octet(v, 2)), PrintOctet(Octet(v, 3));
    SplitFour(a, b, c, d);
    assert [a] + ([b] + ([c] + [d])) == [a, b, c, d];
    hide PrintOctet, Split;
  }

  /** The dotted form ::ffff:a.b.c.d is judged as a.b.c.d. */
  lemma DottedMappedVerdict(ip: string, v: Address)
    requires Denotes(ip, "::ffff:" + PrintAddress(v))
    ensures IsBlockedIpv6(ip) <==> Reserved(v)
  {
    var addr := "::ffff:" + PrintAddress(v);
    ZoneDropped(ip, addr);
    assert addr[7..] == PrintAddress(v);
    PrintedIsQuad(v);
    BlockedIsReserved(v);
    hide PrintAddress, Split, IsBlockedIpv4, IsDottedQuad, HexGroups, Lower;
  }

  lemma NotMappedDotted(q: string)
    requires forall c :: c in q ==> IsDigit(c) || c == '.'
    ensures !("::ffff:" <= "::" + q)
  {
    var p := "::ffff:";
    assert p[2] == 'f';
    assert q != "" ==> ("::" + q)[2] == q[0] && q[0] in q;
  }

  lemma ColonNoQuad(s: string)
    requires ':' in s
    ensures !IsDottedQuad(s)
  {
    SplitHolds(s, '.', ':');
  }

  lemma PrintedIsPlain(v: Address)
    ensures forall c :: c in PrintAddress(v) ==> IsDigit(c) || c == '.'
    ensures '.' in PrintAddress(v)
  {
    var a, b := PrintOctet(Octet(v, 0)), PrintOctet(Octet(v, 1));
    var c, d := PrintOctet(Octet(v, 2)), PrintOctet(Octet(v, 3));
    assert PrintAddress(v) == a + "." + (b + "." + (c + "." + d));
    assert PrintAddress(v)[|a|] == '.';
    hide PrintOctet, Octet;
  }

  /** The dotted form ::a.b.c.d, the IPv4-compatible address, is judged as a.b.c.d too. */
  lemma DottedCompatibleVerdict(ip: string, v: Address)
    requires Denotes(ip, "::" + PrintAddress(v))
    ensures IsBlockedIpv6(ip) <==> Reserved(v)
  {
    var addr := "::" + PrintAddress(v);
    ZoneDropped(ip, addr);
    assert addr[2..] == PrintAddress(v);
    PrintedIsQuad(v);
    BlockedIsReserved(v);
    PrintedIsPlain(v);
    NotMappedDotted(PrintAddress(v));
    hide PrintAddress, Split, IsBlockedIpv4, IsDottedQuad, HexGroups, Lower;
  }
}
