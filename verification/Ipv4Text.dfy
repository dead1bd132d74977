/**
 Which texts the IPv4 guard reads as addresses (`ipv4ToInt` of src/utils/ip-guard.ts), and its verdict on any text.
 */
module Ipv4Text {
  import opened Wrappers
  import opened IpGuard
  import Text

  /** One to three decimal digits, with or without leading zeros, worth at most 255. */
  predicate Reads(s: string, n: nat) {
    && 1 <= |s| <= 3 && (forall i :: 0 <= i < |s| ==> '0' <= s[i] <= '9') && n <= 255
    && n == (if |s| > 2 then s[|s| - 3] as int - 48 else 0) * 100 + (if |s| > 1 then s[|s| - 2] as int - 48 else 0) * 10
            + (s[|s| - 1] as int - 48)
  }

  /** Four such numbers with dots between them. */
  ghost predicate Quad(ip: string, parts: seq<string>, ns: seq<nat>) {
    && |parts| == |ns| == 4 && (forall i :: 0 <= i < 4 ==> Reads(parts[i], ns[i]))
    && ip == parts[0] + "." + (parts[1] + "." + (parts[2] + "." + parts[3]))
  }

  function Worth(ns: seq<nat>): nat
    requires |ns| == 4
  {
    ns[0] * 0x100_0000 + ns[1] * 0x1_0000 + ns[2] * 0x100 + ns[3]
  }

  lemma DecimalIs(s: string)
    requires 1 <= |s| <= 3 && AllDigits(s)
    ensures Decimal(s) == (if |s| > 2 then s[|s| - 3] as int - 48 else 0) * 100
                          + (if |s| > 1 then s[|s| - 2] as int - 48 else 0) * 10 + (s[|s| - 1] as int - 48)
  {
    DecimalSnoc("", s[0]);
    if |s| == 1 {
      assert s == "" + [s[0]];
    } else {
      DecimalSnoc([s[0]], s[1]);
      assert "" + [s[0]] == [s[0]];
      if |s| == 2 {
        assert s == [s[0]] + [s[1]];
      } else {
        DecimalSnoc([s[0]] + [s[1]], s[2]);
        assert s == [s[0]] + [s[1]] + [s[2]];
      }
    }
  }

  lemma DecimalReads(s: string)
    requires 1 <= |s| <= 3 && AllDigits(s)
    ensures Decimal(s) <= 255 <==> Reads(s, Decimal(s))
  {
    DecimalIs(s);
    hide Decimal;
    assert forall i :: 0 <= i < |s| ==> Text.IsDigit(s[i]);
  }

  lemma ReadsDecimal(s: string, n: nat)
    requires Reads(s, n)
    ensures AllDigits(s) && Decimal(s) == n
  {
    assert AllDigits(s);
    DecimalIs(s);
    hide Decimal;
  }

  lemma QuadParses(ip: string, parts: seq<string>, ns: seq<nat>)
    requires Quad(ip, parts, ns)
    ensures Worth(ns) < 0x1_0000_0000 && Ipv4ToInt(ip) == Some(Worth(ns))
  {
    forall i | 0 <= i < 4
      ensures AllDigits(parts[i]) && Decimal(parts[i]) == ns[i] && '.' !in parts[i]
    {
      ReadsDecimal(parts[i], ns[i]);
    }
    SplitFour(parts[0], parts[1], parts[2], parts[3]);
    assert [parts[0]] + ([parts[1]] + ([parts[2]] + [parts[3]])) == parts;
    hide Decimal, Text.Split;
    assert Text.Split(ip, '.') == parts;
    FoldFour(parts);
  }

  lemma FoldFour(parts: seq<string>)
    requires |parts| == 4
    requires forall i :: 0 <= i < 4 ==> 1 <= |parts[i]| <= 3 && AllDigits(parts[i]) && Decimal(parts[i]) <= 255
    ensures Fold(parts, 0) == Some(((Decimal(parts[0]) * 256 + Decimal(parts[1])) * 256 + Decimal(parts[2])) * 256
                                   + Decimal(parts[3]))
  {
    hide Decimal, AllDigits;
    var p1, p2, p3 := parts[1..], parts[1..][1..], parts[1..][1..][1..];
    var n0, n1, n2 := Decimal(parts[0]), Decimal(parts[1]), Decimal(parts[2]);
    assert Fold(parts, 0) == Fold(p1, n0);
    assert p1[0] == parts[1] && Fold(p1, n0) == Fold(p2, n0 * 256 + n1);
    assert p2[0] == parts[2] && Fold(p2, n0 * 256 + n1) == Fold(p3, (n0 * 256 + n1) * 256 + n2);
    var value := (n0 * 256 + n1) * 256 + n2;
    assert p3[0] == parts[3] && p3[1..] == [];
    assert Fold(p3, value) == Fold([], value * 256 + Decimal(parts[3]));
  }

  lemma {:induction false} FoldReads(parts: seq<string>, value: nat)
    requires Fold(parts, value).Some?
    ensures forall i :: 0 <= i < |parts| ==> AllDigits(parts[i]) && Reads(parts[i], Decimal(parts[i]))
    decreases |parts|
  {
    if parts != [] {
      DecimalReads(parts[0]);
      assert Reads(parts[0], Decimal(parts[0]));
      var rest := parts[1..];
      FoldReads(rest, value * 256 + Decimal(parts[0]));
      hide Decimal, Reads, AllDigits, Fold;
      forall i | 0 <= i < |parts|
        ensures AllDigits(parts[i]) && Reads(parts[i], Decimal(parts[i]))
      {
        assert i > 0 ==> parts[i] == rest[i - 1];
      }
    }
  }

  /** Which texts are read as an address, and as which: exactly the dotted quads of such numbers. */
  lemma ReadIff(ip: string, v: Address)
    ensures Ipv4ToInt(ip) == Some(v) <==> exists parts, ns :: Quad(ip, parts, ns) && v == Worth(ns)
  {
    if Ipv4ToInt(ip) == Some(v) {
      var parts := Text.Split(ip, '.');
      FoldReads(parts, 0);
      Text.SplitJoins(ip, '.');
      var ns: seq<nat> := [Decimal(parts[0]), Decimal(parts[1]), Decimal(parts[2]), Decimal(parts[3])];
      hide Decimal, Reads, Text.Split, Fold, AllDigits, Worth;
      FourJoined(parts);
      assert Quad(ip, parts, ns);
      QuadParses(ip, parts, ns);
    }
    if parts, ns :| Quad(ip, parts, ns) && v == Worth(ns) { QuadParses(ip, parts, ns); }
  }

  lemma FourJoined(parts: seq<string>)
    requires |parts| == 4
    ensures Text.Joined(parts, '.') == parts[0] + "." + (parts[1] + "." + (parts[2] + "." + parts[3]))
  {
    var p1 := parts[1..];
    var p2 := p1[1..];
    assert Text.Joined(p2[1..], '.') == parts[3];
    assert Text.Joined(p2, '.') == parts[2] + "." + parts[3];
    assert Text.Joined(p1, '.') == parts[1] + "." + (parts[2] + "." + parts[3]);
  }

  /** The verdict on any text at all: an address is refused for its interval, and what is no address is refused. */
  lemma VerdictOnAnyText(ip: string)
    ensures IsBlockedIpv4(ip)
       <==> forall parts, ns :: Quad(ip, parts, ns) ==> Worth(ns) < 0x1_0000_0000 && Reserved(Worth(ns))
  {
    hide Reserved, Worth, Reads, Ipv4ToInt;
    forall parts, ns | Quad(ip, parts, ns)
      ensures Worth(ns) < 0x1_0000_0000 && Ipv4ToInt(ip) == Some(Worth(ns))
    {
      QuadParses(ip, parts, ns);
    }
    if Ipv4ToInt(ip).Some? {
      var v := Ipv4ToInt(ip).value;
      ReadIff(ip, v);
      SameVerdict(ip, v);
    }
  }

  lemma SameVerdict(ip: string, v: Address)
    requires Ipv4ToInt(ip) == Some(v)
    ensures IsBlockedIpv4(ip) <==> Reserved(v)
  {
    AddressRoundTrip(v);
    BlockedIsReserved(v);
    hide Reserved, BlockMatches, Ipv4ToInt, PrintAddress;
  }
}
