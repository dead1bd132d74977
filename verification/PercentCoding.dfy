/**
 Percent-encoded UTF-8: the encoder of application/x-www-form-urlencoded (section 5 of the WHATWG URL Standard) and
 ECMAScript's `decodeURIComponent`. A char is a Unicode scalar value.
 */
module PercentCoding {
  import opened Wrappers
  import opened Bits
  import opened Text

  // ---------- UTF-8 ----------

  function Utf8(c: char): (o: seq<Byte>)
    ensures 1 <= |o| <= 4
  {
    var n := c as int;
    if n < 0x80 then [n]
    else if n < 0x800 then [0xC0 + n / 64, 0x80 + n % 64]
    else if n < 0x1_0000 then [0xE0 + n / 4096, 0x80 + n / 64 % 64, 0x80 + n % 64]
    else [0xF0 + n / 262144, 0x80 + n / 4096 % 64, 0x80 + n / 64 % 64, 0x80 + n % 64]
  }

  /** How many octets the lead octet announces; 0 when it cannot start a sequence. */
  function Announced(b: Byte): (n: nat)
    ensures n <= 4
  {
    if b < 0x80 then 1
    else if 0xC0 <= b < 0xE0 then 2
    else if 0xE0 <= b < 0xF0 then 3
    else if 0xF0 <= b < 0xF8 then 4
    else 0
  }

  predicate Continuation(b: Byte) { 0x80 <= b < 0xC0 }

  function Scalar(n: nat, least: nat): Option<char> {
    if n < least || 0xD800 <= n < 0xE000 || n > 0x10_FFFF then None else Some(n as char)
  }

  /** The strict decoding of one sequence: overlong forms, surrogates and values past U+10FFFF are errors. */
  function FromUtf8(o: seq<Byte>): Option<char>
    requires o != []
  {
    if |o| != Announced(o[0]) || !(forall i :: 1 <= i < |o| ==> Continuation(o[i])) then None
    else if |o| == 1 then Scalar(o[0], 0)
    else if |o| == 2 then Scalar((o[0] as int - 0xC0) * 64 + (o[1] as int - 0x80), 0x80)
    else if |o| == 3 then Scalar((o[0] as int - 0xE0) * 4096 + (o[1] as int - 0x80) * 64 + (o[2] as int - 0x80), 0x800)
    else Scalar((o[0] as int - 0xF0) * 262144 + (o[1] as int - 0x80) * 4096 + (o[2] as int - 0x80) * 64
                + (o[3] as int - 0x80), 0x1_0000)
  }

  lemma ThreeDigits(n: nat, a: nat, b: nat, c: nat)
    requires b < 64 && c < 64
    ensures n == a * 4096 + b * 64 + c <==> a == n / 4096 && b == n / 64 % 64 && c == n % 64
  {
    assert n == n / 64 * 64 + n % 64;
    assert n / 64 == n / 64 / 64 * 64 + n / 64 % 64;
    assert n / 64 / 64 == n / 4096;
    if n == a * 4096 + b * 64 + c {
      assert n == (a * 64 + b) * 64 + c;
      assert n / 64 == a * 64 + b;
    }
  }

  lemma FourDigits(n: nat, a: nat, b: nat, c: nat, d: nat)
    requires b < 64 && c < 64 && d < 64
    ensures n == a * 262144 + b * 4096 + c * 64 + d
       <==> a == n / 262144 && b == n / 4096 % 64 && c == n / 64 % 64 && d == n % 64
  {
    ThreeDigits(n, a * 64 + b, c, d);
    assert n / 4096 == n / 4096 / 64 * 64 + n / 4096 % 64;
    assert n / 4096 / 64 == n / 262144;
  }

  /** FromUtf8 accepts exactly the UTF-8 encodings: it inverts Utf8 and no other octet sequence decodes. */
  lemma Utf8IsExact(o: seq<Byte>, c: char)
    requires o != []
    ensures FromUtf8(o) == Some(c) <==> o == Utf8(c)
  {
    if |o| == 3 {
      Exact3(o, c);
    } else if |o| == 4 {
      Exact4(o, c);
    } else if |o| == 2 {
      Exact2(o, c);
    }
  }

  lemma Exact2(o: seq<Byte>, c: char)
    requires |o| == 2
    ensures FromUtf8(o) == Some(c) <==> o == Utf8(c)
  {
  }

  lemma Exact3(o: seq<Byte>, c: char)
    requires |o| == 3
    ensures FromUtf8(o) == Some(c) <==> o == Utf8(c)
  {
    var n := c as int;
    if Continuation(o[1]) && Continuation(o[2]) && Announced(o[0]) == 3 {
      ThreeDigits(n, o[0] - 0xE0, o[1] - 0x80, o[2] - 0x80);
    }
    if 0x800 <= n < 0x1_0000 { ThreeDigits(n, n / 4096, n / 64 % 64, n % 64); }
  }

  lemma Exact4(o: seq<Byte>, c: char)
    requires |o| == 4
    ensures FromUtf8(o) == Some(c) <==> o == Utf8(c)
  {
    var n := c as int;
    if Continuation(o[1]) && Continuation(o[2]) && Continuation(o[3]) && Announced(o[0]) == 4 {
      FourDigits(n, o[0] - 0xF0, o[1] - 0x80, o[2] - 0x80, o[3] - 0x80);
    }
    if 0x1_0000 <= n { FourDigits(n, n / 262144, n / 4096 % 64, n / 64 % 64, n % 64); }
  }

  // ---------- percent triples ----------

  function HexChar(d: nat): (c: char)
    requires d < 16
    ensures IsHex(c) && HexValue(c) == d
    ensures '0' <= c <= '9' || 'A' <= c <= 'F'
  {
    if d < 10 then ('0' as int + d) as char else ('A' as int + d - 10) as char
  }

  function Percent(b: Byte): (s: string)
    ensures |s| == 3
  {
    ['%', HexChar(b / 16), HexChar(b % 16)]
  }

  function Percents(o: seq<Byte>): string {
    if o == [] then "" else Percent(o[0]) + Percents(o[1..])
  }

  /** One %XX triple at the front of s. */
  function Triple(s: string): Option<Byte> {
    if |s| >= 3 && s[0] == '%' && IsHex(s[1]) && IsHex(s[2]) then Some(HexValue(s[1]) * 16 + HexValue(s[2])) else None
  }

  /** n triples at the front of s. */
  function Triples(s: string, n: nat): (r: Option<seq<Byte>>)
    ensures r.Some? ==> |r.value| == n && |s| >= 3 * n
  {
    if n == 0 then Some([])
    else
      var b := Triple(s);
      if b.None? then None
      else
        var rest := Triples(s[3..], n - 1);
        if rest.None? then None else Some([b.value] + rest.value)
  }

  function Push(c: char, rest: Option<string>): Option<string> {
    if rest.None? then None else Some([c] + rest.value)
  }

  /** decodeURIComponent; None stands for the URIError it throws. */
  function Decode(s: string): Option<string>
    decreases |s|
  {
    if s == "" then Some("")
    else if s[0] != '%' then Push(s[0], Decode(s[1..]))
    else
      var lead := Triple(s);
      if lead.None? || Announced(lead.value) == 0 then None
      else
        var n := Announced(lead.value);
        var octets := Triples(s, n);
        if octets.None? || FromUtf8(octets.value).None? then None
        else Push(FromUtf8(octets.value).value, Decode(s[3 * n..]))
  }

  lemma TripleOfPercent(b: Byte, rest: string)
    ensures Triple(Percent(b) + rest) == Some(b)
    ensures (Percent(b) + rest)[3..] == rest
  {
    assert b == b / 16 * 16 + b % 16;
  }

  lemma {:induction false} TriplesOfPercents(o: seq<Byte>, rest: string)
    ensures Triples(Percents(o) + rest, |o|) == Some(o)
    ensures |Percents(o)| == 3 * |o|
    decreases |o|
  {
    if o != [] {
      var tail := Percents(o[1..]) + rest;
      TripleOfPercent(o[0], tail);
      TriplesOfPercents(o[1..], rest);
      assert [o[0]] + o[1..] == o;
      hide Percent, Triple;
      assert Percents(o) == Percent(o[0]) + Percents(o[1..]);
      assert Percents(o) + rest == Percent(o[0]) + tail;
      hide Percents;
    }
  }

  lemma Utf8Lead(c: char)
    ensures Announced(Utf8(c)[0]) == |Utf8(c)|
  {
  }

  /** The percent-encoded form of a character decodes to it, whatever follows. */
  lemma DecodeEncodedChar(c: char, rest: string)
    ensures Decode(Percents(Utf8(c)) + rest) == Push(c, Decode(rest))
  {
    var o := Utf8(c);
    var s := Percents(o) + rest;
    Utf8Lead(c);
    Utf8IsExact(o, c);
    TriplesOfPercents(o, rest);
    assert Percents(o) + rest == Percent(o[0]) + (Percents(o[1..]) + rest);
    TripleOfPercent(o[0], Percents(o[1..]) + rest);
    assert s[3 * |o|..] == rest;
    assert s[0] == '%';
    hide Utf8, FromUtf8, Triples, Triple, Percents, Percent, Announced, Push;
  }
}
