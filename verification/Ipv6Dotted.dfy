/**
 IPv6 literals whose last 32 bits are written as a dotted quad (section 2.2 of RFC 4291), as the address guard
 (src/utils/ip-guard.ts) judges them. Only two spellings have their quad examined.
 */
module Ipv6Dotted {
  import opened Wrappers
  import opened Text
  import opened IpGuard
  import opened Ipv6Text

  predicate AddressDotted(gs: seq<nat>, run: Option<Run>) {
    |gs| == 6 && Small(gs) && (run.Some? ==> ZeroRun(gs, run.value))
  }

  /** Groups, each with its colon, and then the quad. */
  function Tailed(gs: seq<nat>, quad: string): string {
    if gs == [] then quad else HexText(gs[0]) + (":" + Tailed(gs[1..], quad))
  }

  /** Six groups without leading zeros, with or without one "::", and a dotted quad. */
  function DottedLiteral(gs: seq<nat>, run: Option<Run>, v: Address): string
    requires AddressDotted(gs, run)
  {
    match run
    case None => Tailed(gs, PrintAddress(v))
    case Some(r) => Join(gs[..r.start]) + ("::" + Tailed(gs[r.end..], PrintAddress(v)))
  }

  // ---------- the verdict ----------

  predicate DottedVerdict(gs: seq<nat>, run: Option<Run>, v: Address)
    requires AddressDotted(gs, run)
  {
    if run.Some? && run.value.start == 0 then
      (run.value.end == 6 || (run.value.end == 5 && gs[5] == 0xffff)) && Reserved(v)
    else
      FirstBlocked(gs[0]) || (gs[0] == 0x2001 && SecondBlocked(gs[1]))
  }

  lemma LeadingDotted(ip: string, gs: seq<nat>, run: Option<Run>, v: Address)
    requires AddressDotted(gs, run) && (run.Some? ==> run.value.start > 0) && Denotes(ip, DottedLiteral(gs, run, v))
    ensures IsBlockedIpv6(ip) <==> DottedVerdict(gs, run, v)
  {
    hide IsBlockedIpv6, Denotes, FirstBlocked, SecondBlocked, HexText, PrintAddress, Reserved, Join;
    match run
    case None =>
      var rest := Tailed(gs[1..], PrintAddress(v));
      assert rest == HexText(gs[1]) + (":" + Tailed(gs[2..], PrintAddress(v)));
      SecondGroup(gs[1], ":" + Tailed(gs[2..], PrintAddress(v)));
      GroupFirst(ip, gs[0], rest);
    case Some(r) =>
      var rest := LeadingRun(gs, r, Tailed(gs[r.end..], PrintAddress(v)));
      GroupFirst(ip, gs[0], rest);
  }

  lemma {:induction false} TailedHolds(gs: seq<nat>, v: Address)
    ensures '.' in Tailed(gs, PrintAddress(v)) && (gs != [] ==> ':' in Tailed(gs, PrintAddress(v)))
  {
    if gs == [] {
      PrintedIsPlain(v);
    } else {
      var rest := Tailed(gs[1..], PrintAddress(v));
      TailedHolds(gs[1..], v);
      hide PrintAddress, HexText, Tailed;
      assert (":" + rest)[0] == ':' && forall c :: c in rest ==> c in ":" + rest;
    }
  }

  /** Groups that end in a quad are not two hex groups. */
  lemma DottedNoHexGroups(addr: string)
    requires |addr| >= 7 && '.' in addr[7..]
    ensures HexGroups(addr).None?
  {
    SplitHolds(addr[7..], ':', '.');
    hide Split;
  }

  lemma UnderColons(ip: string, addr: string)
    requires Denotes(ip, addr) && "::" <= addr && !IsDottedQuad(addr[2..]) && HexGroups(addr).None? && '.' in addr
    requires "::ffff:" <= addr ==> !IsDottedQuad(addr[7..])
    ensures !IsBlockedIpv6(ip)
  {
    ZoneDropped(ip, addr);
    ColonFirst(addr);
    assert '.' !in "::" && '.' !in "::1";
    hide HexGroups, IsDottedQuad, Split, Lower, Denotes;
  }

  /** Groups that begin with ffff and go on: the text after the prefix still holds a colon. */
  lemma UnexaminedMapped(ip: string, rest: string)
    requires ':' in rest && '.' in rest && Denotes(ip, "::ffff:" + rest)
    ensures !IsBlockedIpv6(ip)
  {
    var addr := "::ffff:" + rest;
    assert addr[7..] == rest && addr[2..] == "ffff:" + rest;
    assert addr[2..][4] == ':' && addr[..2] == "::";
    ColonNoQuad(rest);
    ColonNoQuad(addr[2..]);
    DottedNoHexGroups(addr);
    hide Denotes, IsBlockedIpv6, HexGroups, IsDottedQuad;
    UnderColons(ip, addr);
  }

  lemma UnexaminedOther(ip: string, x: string)
    requires ':' in x && '.' in x && !("::ffff:" <= "::" + x) && Denotes(ip, "::" + x)
    ensures !IsBlockedIpv6(ip)
  {
    var addr := "::" + x;
    assert addr[2..] == x && addr[..2] == "::";
    ColonNoQuad(x);
    NoPrefixNoGroups(addr);
    hide Denotes, IsBlockedIpv6, HexGroups, IsDottedQuad;
    UnderColons(ip, addr);
  }

  /** A compressed literal with a group left that is not just ffff is never examined for its quad. */
  lemma UnexaminedQuad(ip: string, gs: seq<nat>, v: Address)
    requires gs != [] && gs != [0xffff] && Small(gs) && Denotes(ip, "::" + Tailed(gs, PrintAddress(v)))
    ensures !IsBlockedIpv6(ip)
  {
    var x, rest := Tailed(gs, PrintAddress(v)), Tailed(gs[1..], PrintAddress(v));
    assert x == HexText(gs[0]) + (":" + rest);
    TailedHolds(gs, v);
    TailedHolds(gs[1..], v);
    hide *;
    MappedStart(x);
    MappedMany(gs[0], rest);
    if gs[0] == 0xffff {
      MappedText();
      ThroughMapped(rest);
      assert gs[1..] == [] ==> gs == [0xffff];
      UnexaminedMapped(ip, rest);
    } else {
      UnexaminedOther(ip, x);
    }
  }

  lemma ThroughMapped(rest: string)
    ensures "::" + ("ffff" + (":" + rest)) == "::ffff:" + rest
  {
  }

  lemma NoPrefixNoGroups(addr: string)
    requires !("::ffff:" <= addr)
    ensures HexGroups(addr).None?
  {
  }

  lemma StartsDotted(gs: seq<nat>, run: Run, v: Address)
    requires AddressDotted(gs, Some(run)) && run.start == 0
    ensures DottedLiteral(gs, Some(run), v) == "::" + Tailed(gs[run.end..], PrintAddress(v))
  {
    hide Tailed, PrintAddress;
    assert gs[..0] == [] && Join([]) == "";
    var later := "::" + Tailed(gs[run.end..], PrintAddress(v));
    assert "" + later == later;
  }

  lemma OnlyMapped(quad: string)
    ensures "::" + Tailed([0xffff], quad) == "::ffff:" + quad
  {
    MappedText();
    hide HexText;
    assert Tailed([0xffff], quad) == "ffff" + (":" + quad);
    ThroughMapped(quad);
  }

  /** With the run first, only what follows it matters. */
  lemma AfterRun(gs: seq<nat>, run: Run, v: Address)
    requires AddressDotted(gs, Some(run)) && run.start == 0
    ensures run.end <= |gs| && Small(gs[run.end..])
    ensures DottedVerdict(gs, Some(run), v)
       <==> (gs[run.end..] == [] || gs[run.end..] == [0xffff]) && Reserved(v)
  {
    hide Reserved, FirstBlocked, SecondBlocked;
    assert run.end == 5 ==> gs[run.end..] == [gs[5]];
  }

  lemma CompressedDotted(ip: string, gs: seq<nat>, run: Run, v: Address)
    requires AddressDotted(gs, Some(run)) && run.start == 0 && Denotes(ip, DottedLiteral(gs, Some(run), v))
    ensures IsBlockedIpv6(ip) <==> DottedVerdict(gs, Some(run), v)
  {
    AfterRun(gs, run, v);
    StartsDotted(gs, run, v);
    var later := gs[run.end..];
    assert Tailed([], PrintAddress(v)) == PrintAddress(v);
    hide *;
    if later == [] {
      DottedCompatibleVerdict(ip, v);
    } else if later == [0xffff] {
      OnlyMapped(PrintAddress(v));
      DottedMappedVerdict(ip, v);
    } else {
      UnexaminedQuad(ip, later, v);
    }
  }

  /** The verdict on every literal that ends in a dotted quad, in any letter case, with or without a zone. */
  lemma DottedLiteralVerdict(ip: string, gs: seq<nat>, run: Option<Run>, v: Address)
    requires AddressDotted(gs, run) && Denotes(ip, DottedLiteral(gs, run, v))
    ensures IsBlockedIpv6(ip) <==> DottedVerdict(gs, run, v)
  {
    hide *;
    if run.Some? && run.value.start == 0 {
      CompressedDotted(ip, gs, run.value, v);
    } else {
      LeadingDotted(ip, gs, run, v);
    }
  }

  // ---------- against the ranges ----------

  /** The eight groups of the address. */
  function AllGroups(gs: seq<nat>, v: Address): (all: seq<nat>)
    requires |gs| == 6 && Small(gs)
    ensures |all| == 8 && Small(all)
  {
    gs + [v / 0x1_0000, v % 0x1_0000]
  }

  /** The leading groups of an address that embeds an IPv4 address: IPv4-compatible or IPv4-mapped. */
  predicate Embeds(gs: seq<nat>)
    requires |gs| == 6
  {
    ZeroUpTo(gs, 5) && (gs[5] == 0 || gs[5] == 0xffff)
  }

  /** All the zeros in front of the embedded address are written as "::". */
  predicate FullyCompressed(gs: seq<nat>, run: Option<Run>)
    requires |gs| == 6
  {
    run == Some(Run(0, if gs[5] == 0 then 6 else 5))
  }

  predicate DottedDiscrepant(gs: seq<nat>, run: Option<Run>, v: Address)
    requires |gs| == 6
  {
    || PrefixDiscrepant(gs[0], gs[1])
    || (Embeds(gs) && Reserved(v) && !FullyCompressed(gs, run))
  }

  lemma ReservedDotted(gs: seq<nat>, v: Address)
    requires |gs| == 6 && Small(gs)
    ensures Reserved6(Value(AllGroups(gs, v))) <==>
            || 0xfe80 <= gs[0] <= 0xfebf || 0xfc00 <= gs[0] <= 0xfdff || 0xff00 <= gs[0] <= 0xffff
            || (gs[0] == 0x2001 && gs[1] == 0xdb8)
            || (Embeds(gs) && Reserved(v))
  {
    var all := AllGroups(gs, v);
    ReservedGroups(all);
    assert all[6] * 0x1_0000 + all[7] == v;
    assert forall i :: 0 <= i < 6 ==> all[i] == gs[i];
    assert ZeroUpTo(all, 5) <==> ZeroUpTo(gs, 5);
    if v <= 1 { assert RESERVED[0].0 <= v <= RESERVED[0].1; }
    hide Value, Reserved6, Reserved;
  }

  /**
   For every literal with a dotted tail, canonical or not: the verdict is what the 128-bit ranges ask for exactly
   outside the discrepant first groups and the embedded reserved addresses whose leading zeros are not all compressed.
   */
  lemma DottedVerdictIff(ip: string, gs: seq<nat>, run: Option<Run>, v: Address)
    requires AddressDotted(gs, run) && Denotes(ip, DottedLiteral(gs, run, v))
    ensures (IsBlockedIpv6(ip) <==> Reserved6(Value(AllGroups(gs, v)))) <==> !DottedDiscrepant(gs, run, v)
  {
    DottedLiteralVerdict(ip, gs, run, v);
    ReservedDotted(gs, v);
    hide Denotes, IsBlockedIpv6, DottedLiteral, Reserved, Value, Reserved6, AllGroups;
  }

  /** Loopback, mapped and with its zeros written out as 0:0:0:0:0:ffff:127.0.0.1, is let through. */
  lemma SpelledOutMappedLoopback(ip: string)
    requires Denotes(ip, DottedLiteral(Zeros(5) + [0xffff], None, 0x7f00_0001))
    ensures !IsBlockedIpv6(ip) && Reserved6(Value(AllGroups(Zeros(5) + [0xffff], 0x7f00_0001)))
  {
    LoopbackReserved();
    var gs := Zeros(5) + [0xffff];
    DottedLiteralVerdict(ip, gs, None, 0x7f00_0001);
    ReservedDotted(gs, 0x7f00_0001);
    hide Denotes, IsBlockedIpv6, DottedLiteral, Value, Reserved6, AllGroups, Reserved, Zeros;
  }
}
