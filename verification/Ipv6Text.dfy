/**
 The IPv6 half of the address guard (src/utils/ip-guard.ts), which tests textual prefixes, against the 128-bit ranges
 those prefixes stand for.
 */
module Ipv6Text {
  import opened Wrappers
  import opened Text
  import opened IpGuard

  // ---------- groups and their text ----------

  function LowerHexChar(d: nat): (c: char)
    requires d < 16
    ensures IsHexDigit(c) && HexValue(c) == d
  {
    if d < 10 then ('0' as int + d) as char else ('a' as int + d - 10) as char
  }

  /** A group without leading zeros. */
  function HexText(g: nat): (s: string)
    ensures AllHex(s) && s != ""
  {
    (if g < 16 then "" else HexText(g / 16)) + [LowerHexChar(g % 16)]
  }

  predicate Small(gs: seq<nat>) {
    forall i :: 0 <= i < |gs| ==> gs[i] < 0x1_0000
  }

  function Join(gs: seq<nat>): string {
    if gs == [] then ""
    else if |gs| == 1 then HexText(gs[0])
    else HexText(gs[0]) + (":" + Join(gs[1..]))
  }

  /** Positions [start, end) of the zero groups written as "::". */
  datatype Run = Run(start: nat, end: nat)

  predicate ZeroRun(gs: seq<nat>, r: Run) {
    r.start < r.end <= |gs| && forall i :: r.start <= i < r.end ==> gs[i] == 0
  }

  predicate Address6(gs: seq<nat>, run: Option<Run>) {
    |gs| == 8 && Small(gs) && (run.Some? ==> ZeroRun(gs, run.value))
  }

  /** A literal of lower-case groups without leading zeros, with or without one "::". */
  function Literal(gs: seq<nat>, run: Option<Run>): string
    requires Address6(gs, run)
  {
    match run
    case None => Join(gs)
    case Some(r) => Join(gs[..r.start]) + ("::" + Join(gs[r.end..]))
  }

  // ---------- text facts ----------

  lemma HexTextSnoc(s: string, c: char)
    requires AllHex(s) && IsHexDigit(c) && |s| <= 3
    ensures AllHex(s + [c]) && Hex(s + [c]) == 16 * Hex(s) + HexValue(c)
  {
    var t := s + [c];
    assert forall i :: 0 <= i < |s| ==> t[i] == s[i];
  }

  lemma {:induction false} HexTextValue(g: nat, n: nat)
    requires 1 <= n <= 4 && (n == 1 ==> g < 16) && (n == 2 ==> g < 256) && (n == 3 ==> g < 4096) && g < 0x1_0000
    ensures |HexText(g)| <= n && Hex(HexText(g)) == g
    decreases n
  {
    if g >= 16 {
      HexTextValue(g / 16, n - 1);
      HexTextSnoc(HexText(g / 16), LowerHexChar(g % 16));
    } else {
      HexTextSnoc("", LowerHexChar(g));
      assert "" + [LowerHexChar(g)] == [LowerHexChar(g)];
    }
  }

  lemma {:induction false} HexTextInjective(a: nat, b: nat)
    requires HexText(a) == HexText(b)
    ensures a == b
    decreases a + b
  {
    var s, t := HexText(a), HexText(b);
    assert s[|s| - 1] == LowerHexChar(a % 16) && t[|t| - 1] == LowerHexChar(b % 16);
    assert s[..|s| - 1] == (if a < 16 then "" else HexText(a / 16));
    assert t[..|t| - 1] == (if b < 16 then "" else HexText(b / 16));
    if a >= 16 && b >= 16 { HexTextInjective(a / 16, b / 16); }
  }

  /** p's digits are the leading digits of g's. */
  predicate Begins(p: nat, g: nat)
    decreases g
  {
    p == g || (g >= 16 && Begins(p, g / 16))
  }

  lemma {:induction false} BeginsIsPrefix(p: nat, g: nat)
    ensures HexText(p) <= HexText(g) <==> Begins(p, g)
    decreases g
  {
    var s, t := HexText(p), HexText(g);
    var front := if g < 16 then "" else HexText(g / 16);
    assert t == front + [LowerHexChar(g % 16)];
    assert t[..|t| - 1] == front;
    if s <= t && |s| < |t| { assert s == t[..|s|] == front[..|s|]; }
    if s <= t && |s| == |t| {
      assert s == t;
      HexTextInjective(p, g);
    }
    if g >= 16 {
      BeginsIsPrefix(p, g / 16);
      if s <= front { assert front == t[..|front|]; }
    }
  }

  lemma PrefixStep(p: string, s: string)
    requires p != ""
    ensures p <= s <==> s != "" && p[0] == s[0] && p[1..] <= s[1..]
  {
    if s != "" && p[0] == s[0] && p[1..] <= s[1..] {
      assert p == [p[0]] + p[1..] && s == [s[0]] + s[1..];
    }
  }

  lemma {:induction false} PrefixStopsAtColon(p: string, h: string, tail: string)
    requires ':' !in p && (tail == "" || tail[0] == ':')
    ensures p <= h + tail <==> p <= h
    decreases |h|
  {
    if p != "" {
      PrefixStep(p, h + tail);
      PrefixStep(p, h);
      if h == "" {
        assert h + tail == tail;
        assert p[0] in p;
      } else {
        assert (h + tail)[1..] == h[1..] + tail;
        PrefixStopsAtColon(p[1..], h[1..], tail);
      }
    }
  }

  lemma {:induction false} PrefixThroughColon(a: string, b: string, h: string, rest: string)
    requires ':' !in a && ':' !in h
    ensures a + (":" + b) <= h + (":" + rest) <==> a == h && b <= rest
    decreases |a|
  {
    var p, s := a + (":" + b), h + (":" + rest);
    PrefixStep(p, s);
    if a == "" {
      assert p == ":" + b && p[1..] == b;
      if h == "" {
        assert s == ":" + rest && s[1..] == rest;
      } else {
        assert s[0] == h[0] && h[0] in h;
      }
    } else if h == "" {
      assert p[0] == a[0] && a[0] in a && s[0] == ':';
    } else {
      assert p[0] == a[0] && s[0] == h[0];
      assert p[1..] == a[1..] + (":" + b) && s[1..] == h[1..] + (":" + rest);
      PrefixThroughColon(a[1..], b, h[1..], rest);
      assert a == [a[0]] + a[1..] && h == [h[0]] + h[1..];
    }
  }

  lemma HexIsPlain(g: nat)
    ensures ':' !in HexText(g) && '.' !in HexText(g) && '%' !in HexText(g)
  {
    var s := HexText(g);
    assert forall c :: c in s ==> IsHexDigit(c);
  }

  lemma {:induction false} JoinIsPlain(gs: seq<nat>)
    ensures '.' !in Join(gs) && '%' !in Join(gs)
    ensures gs != [] ==> Join(gs) != "" && Join(gs)[0] != ':'
  {
    if gs != [] {
      HexIsPlain(gs[0]);
      JoinIsPlain(gs[1..]);
    }
  }

  // ---------- the prefixes, as ranges of groups ----------

  /** First groups whose text begins with one of the tested prefixes. */
  predicate FirstBlocked(g: nat) {
    || g == 0xfe80 || 0xfe9 <= g <= 0xfeb || 0xfe90 <= g <= 0xfebf
    || 0xfc <= g <= 0xfd || 0xfc0 <= g <= 0xfdf || 0xfc00 <= g <= 0xfdff
    || g == 0xff || 0xff0 <= g <= 0xfff || 0xff00 <= g <= 0xffff
  }

  /** Second groups whose text begins with "db8". */
  predicate SecondBlocked(g: nat) {
    g == 0xdb8 || 0xdb80 <= g <= 0xdb8f
  }

  lemma MoreText(g: nat, d: nat)
    requires g > 0 && d < 16
    ensures HexText(16 * g + d) == HexText(g) + [LowerHexChar(d)]
  {
    assert (16 * g + d) / 16 == g && (16 * g + d) % 16 == d;
  }

  lemma OneDigit(d: nat)
    requires d < 16
    ensures HexText(d) == [LowerHexChar(d)]
  {
    assert "" + [LowerHexChar(d)] == [LowerHexChar(d)];
  }

  lemma LinkLocalTexts()
    ensures HexText(0xfe80) == "fe80" && HexText(0xfe9) == "fe9" && HexText(0xfea) == "fea" && HexText(0xfeb) == "feb"
  {
    hide HexText;
    OneDigit(0xf);
    MoreText(0xf, 0xe);
    MoreText(0xfe, 8);
    MoreText(0xfe8, 0);
    MoreText(0xfe, 9);
    MoreText(0xfe, 0xa);
    MoreText(0xfe, 0xb);
  }

  lemma ShortTexts()
    ensures HexText(0xfc) == "fc" && HexText(0xfd) == "fd" && HexText(0xff) == "ff" && HexText(1) == "1"
  {
    hide HexText;
    OneDigit(0xf);
    OneDigit(1);
    MoreText(0xf, 0xc);
    MoreText(0xf, 0xd);
    MoreText(0xf, 0xf);
  }

  lemma DocumentationTexts()
    ensures HexText(0x2001) == "2001" && HexText(0xdb8) == "db8"
  {
    hide HexText;
    OneDigit(2);
    MoreText(2, 0);
    MoreText(0x20, 0);
    MoreText(0x200, 1);
    OneDigit(0xd);
    MoreText(0xd, 0xb);
    MoreText(0xdb, 8);
  }

  lemma MappedText()
    ensures HexText(0xffff) == "ffff"
  {
    hide HexText;
    OneDigit(0xf);
    MoreText(0xf, 0xf);
    MoreText(0xff, 0xf);
    MoreText(0xfff, 0xf);
  }

  lemma BeginsFour(p: nat, g: nat)
    requires p > 0 && g < 0x1_0000
    ensures Begins(p, g) <==> p == g || p == g / 16 || p == g / 256 || p == g / 4096
  {
    assert g / 16 / 16 == g / 256 && g / 256 / 16 == g / 4096;
    assert Begins(p, g) <==> p == g || (g >= 16 && Begins(p, g / 16));
    assert Begins(p, g / 16) <==> p == g / 16 || (g / 16 >= 16 && Begins(p, g / 256));
    assert Begins(p, g / 256) <==> p == g / 256 || (g / 256 >= 16 && Begins(p, g / 4096));
    assert g / 4096 < 16;
  }

  lemma FirstPrefixes(g: nat)
    requires g < 0x1_0000
    ensures var s := HexText(g);
            ("fe80" <= s || "fe9" <= s || "fea" <= s || "feb" <= s || "fc" <= s || "fd" <= s || "ff" <= s)
            <==> FirstBlocked(g)
  {
    LinkLocalTexts();
    ShortTexts();
    hide HexText, Begins;
    BeginsIsPrefix(0xfe80, g);
    BeginsIsPrefix(0xfe9, g);
    BeginsIsPrefix(0xfea, g);
    BeginsIsPrefix(0xfeb, g);
    BeginsIsPrefix(0xfc, g);
    BeginsIsPrefix(0xfd, g);
    BeginsIsPrefix(0xff, g);
    BeginsFour(0xfe80, g);
    BeginsFour(0xfe9, g);
    BeginsFour(0xfea, g);
    BeginsFour(0xfeb, g);
    BeginsFour(0xfc, g);
    BeginsFour(0xfd, g);
    BeginsFour(0xff, g);
  }

  lemma SecondPrefix(g: nat)
    requires g < 0x1_0000
    ensures "db8" <= HexText(g) <==> SecondBlocked(g)
  {
    DocumentationTexts();
    hide HexText, Begins;
    BeginsIsPrefix(0xdb8, g);
    BeginsFour(0xdb8, g);
  }

  // ---------- the verdict on a literal ----------

  lemma PlainDecision(ip: string, addr: string)
    requires Denotes(ip, addr) && '.' !in addr && HexGroups(addr).None?
    ensures IsBlockedIpv6(ip) <==>
            || addr == "::" || addr == "::1"
            || "fe80" <= addr || "fe9" <= addr || "fea" <= addr || "feb" <= addr
            || "fc" <= addr || "fd" <= addr
            || "ff" <= addr
            || "2001:db8" <= addr
  {
    ZoneDropped(ip, addr);
    if |addr| >= 7 { NoDotNoQuad(addr[7..]); }
    if |addr| >= 2 { NoDotNoQuad(addr[2..]); }
    hide HexGroups, IsDottedQuad, Split, Lower, Denotes;
  }

  /** A literal that does not begin with a colon is only tested for the prefixes, whatever its tail. */
  lemma GroupDecision(ip: string, addr: string)
    requires Denotes(ip, addr) && addr != "" && addr[0] != ':'
    ensures IsBlockedIpv6(ip) <==>
            || "fe80" <= addr || "fe9" <= addr || "fea" <= addr || "feb" <= addr
            || "fc" <= addr || "fd" <= addr
            || "ff" <= addr
            || "2001:db8" <= addr
  {
    ZoneDropped(ip, addr);
    PrefixStep("::ffff:", addr);
    PrefixStep("::", addr);
    assert HexGroups(addr).None?;
    hide HexGroups, IsDottedQuad, Split, Lower, Denotes;
  }

  /** A literal that begins with a group is judged by that group and by what follows the first colon. */
  lemma GroupFirst(ip: string, g: nat, rest: string)
    requires g < 0x1_0000 && Denotes(ip, HexText(g) + (":" + rest))
    ensures IsBlockedIpv6(ip) <==> FirstBlocked(g) || (g == 0x2001 && "db8" <= rest)
  {
    var h, tail := HexText(g), ":" + rest;
    var addr := h + tail;
    HexIsPlain(g);
    assert addr[0] == h[0] && h[0] in h;
    GroupDecision(ip, addr);
    FirstPrefixes(g);
    hide Denotes, IsBlockedIpv6, HexGroups, HexText, FirstBlocked;
    PrefixStopsAtColon("fe80", h, tail);
    PrefixStopsAtColon("fe9", h, tail);
    PrefixStopsAtColon("fea", h, tail);
    PrefixStopsAtColon("feb", h, tail);
    PrefixStopsAtColon("fc", h, tail);
    PrefixStopsAtColon("fd", h, tail);
    PrefixStopsAtColon("ff", h, tail);
    PrefixThroughColon("2001", "db8", h, rest);
    assert "2001" + (":" + "db8") == "2001:db8";
    DocumentationTexts();
    if h == "2001" { HexTextInjective(g, 0x2001); }
  }

  lemma JoinFirst(gs: seq<nat>) returns (tail: string)
    requires gs != []
    ensures Join(gs) == HexText(gs[0]) + tail && (tail == "" || tail[0] == ':')
    ensures |gs| > 1 ==> tail == ":" + Join(gs[1..])
  {
    tail := if |gs| == 1 then "" else ":" + Join(gs[1..]);
  }

  /** Whether the text after the first colon begins with a second group that matters. */
  lemma SecondGroup(g: nat, tail: string)
    requires g < 0x1_0000 && (tail == "" || tail[0] == ':')
    ensures "db8" <= HexText(g) + tail <==> SecondBlocked(g)
  {
    PrefixStopsAtColon("db8", HexText(g), tail);
    SecondPrefix(g);
  }

  lemma LeadingGroup(gs: seq<nat>, run: Option<Run>) returns (rest: string)
    requires Address6(gs, run) && (run.Some? ==> run.value.start > 0)
    ensures Literal(gs, run) == HexText(gs[0]) + (":" + rest)
    ensures "db8" <= rest <==> SecondBlocked(gs[1])
  {
    match run
    case None =>
      rest := Join(gs[1..]);
      var tail := JoinFirst(gs[1..]);
      SecondGroup(gs[1], tail);
    case Some(r) =>
      rest := LeadingRun(gs, r, Join(gs[r.end..]));
  }

  lemma LeadingRun(gs: seq<nat>, r: Run, later: string) returns (rest: string)
    requires Small(gs) && ZeroRun(gs, r) && r.start > 0
    ensures Join(gs[..r.start]) + ("::" + later) == HexText(gs[0]) + (":" + rest)
    ensures "db8" <= rest <==> SecondBlocked(gs[1])
  {
    var after := "::" + later;
    if r.start == 1 {
      rest := ":" + later;
      assert gs[..1] == [gs[0]] && after == ":" + rest;
      assert gs[1] == 0;
      PrefixStep("db8", rest);
    } else {
      var front := gs[..r.start];
      var first := JoinFirst(front);
      assert front[1..] != [] && front[1..][0] == gs[1];
      var tail := JoinFirst(front[1..]);
      rest := Join(front[1..]) + after;
      assert (HexText(gs[0]) + (":" + Join(front[1..]))) + after == HexText(gs[0]) + (":" + rest);
      assert rest == HexText(gs[1]) + (tail + after);
      SecondGroup(gs[1], tail + after);
    }
  }

  lemma {:induction false} SplitJoin(gs: seq<nat>)
    requires gs != [] && Small(gs)
    ensures var parts := Split(Join(gs), ':');
            |parts| == |gs| && forall i :: 0 <= i < |gs| ==> parts[i] == HexText(gs[i])
    decreases |gs|
  {
    HexIsPlain(gs[0]);
    hide Split, HexText;
    if |gs| == 1 {
      SplitNone(HexText(gs[0]), ':');
    } else {
      SplitJoin(gs[1..]);
      SplitAt(HexText(gs[0]), ':', Join(gs[1..]));
      assert HexText(gs[0]) + (":" + Join(gs[1..])) == HexText(gs[0]) + [':'] + Join(gs[1..]);
    }
  }

  lemma AfterColons(p: string, rest: string)
    ensures "::" + p <= "::" + rest <==> p <= rest
  {
    PrefixStep("::" + p, "::" + rest);
    PrefixStep(":" + p, ":" + rest);
    assert ("::" + p)[1..] == ":" + p && ("::" + rest)[1..] == ":" + rest;
    assert (":" + p)[1..] == p && (":" + rest)[1..] == rest;
  }

  lemma MappedOne(g: nat)
    ensures !("ffff:" <= HexText(g))
  {
    HexIsPlain(g);
    hide HexText;
    assert "ffff:"[4] == ':';
    ColonInside("ffff:", HexText(g));
  }

  lemma MappedMany(g: nat, rest: string)
    ensures "ffff:" <= HexText(g) + (":" + rest) <==> g == 0xffff
  {
    HexIsPlain(g);
    MappedText();
    hide HexText;
    assert "ffff" + (":" + "") == "ffff:";
    PrefixThroughColon("ffff", "", HexText(g), rest);
    if HexText(g) == "ffff" { HexTextInjective(g, 0xffff); }
  }

  lemma MappedStart(rest: string)
    ensures "::ffff:" <= "::" + rest <==> "ffff:" <= rest
  {
    assert "::" + "ffff:" == "::ffff:";
    AfterColons("ffff:", rest);
  }

  lemma MappedPrefix(gs: seq<nat>)
    requires gs != [] && Small(gs)
    ensures "::ffff:" <= "::" + Join(gs) <==> |gs| > 1 && gs[0] == 0xffff
  {
    MappedStart(Join(gs));
    if |gs| == 1 {
      assert Join(gs) == HexText(gs[0]);
      hide Join, HexText;
      MappedOne(gs[0]);
    } else {
      assert Join(gs) == HexText(gs[0]) + (":" + Join(gs[1..]));
      hide Join, HexText;
      MappedMany(gs[0], Join(gs[1..]));
    }
  }

  lemma MappedRest(gs: seq<nat>)
    requires |gs| > 1 && gs[0] == 0xffff
    ensures ("::" + Join(gs))[7..] == Join(gs[1..])
  {
    MappedText();
    hide HexText;
    var rest := Join(gs[1..]);
    assert "::" + Join(gs) == "::" + ("ffff" + (":" + rest)) == "::ffff:" + rest;
  }

  lemma ColonInside(p: string, s: string)
    requires ':' in p && ':' !in s
    ensures !(p <= s)
  {
    var i :| 0 <= i < |p| && p[i] == ':';
    assert forall j :: 0 <= j < |s| ==> s[j] != ':';
  }

  /** Which compressed literals are read as IPv4-mapped: those with exactly ffff and two more groups after "::". */
  lemma MappedIff(gs: seq<nat>)
    requires gs != [] && Small(gs)
    ensures HexGroups("::" + Join(gs)).Some? <==> |gs| == 3 && gs[0] == 0xffff
  {
    MappedPrefix(gs);
    if |gs| > 1 && gs[0] == 0xffff {
      MappedRest(gs);
      SplitJoin(gs[1..]);
      if |gs| == 3 {
        HexTextValue(gs[1], 4);
        HexTextValue(gs[2], 4);
      }
    }
    hide Split, HexText, Join, Hex;
  }

  lemma OnlyOne(gs: seq<nat>)
    requires gs != [] && Small(gs)
    ensures Join(gs) == "1" <==> gs == [1]
  {
    ShortTexts();
    HexIsPlain(gs[0]);
    if |gs| == 1 {
      if HexText(gs[0]) == "1" { HexTextInjective(gs[0], 1); }
    } else {
      assert |Join(gs)| >= 2;
    }
  }

  lemma CompressedMapped(ip: string, gs: seq<nat>)
    requires |gs| == 3 && gs[0] == 0xffff && Small(gs) && Denotes(ip, "::" + Join(gs))
    ensures IsBlockedIpv6(ip) <==> Reserved(gs[1] * 0x1_0000 + gs[2])
  {
    MappedText();
    HexTextValue(gs[1], 4);
    HexTextValue(gs[2], 4);
    JoinThree(gs);
    hide HexText, Hex, AllHex, Denotes, IsBlockedIpv6, Reserved, HexGroups, Join;
    HexMappedVerdict(ip, HexText(gs[1]), HexText(gs[2]));
  }

  lemma {:induction false} CompressedPlain(ip: string, gs: seq<nat>)
    requires gs != [] && !(|gs| == 3 && gs[0] == 0xffff) && Small(gs) && Denotes(ip, "::" + Join(gs))
    ensures IsBlockedIpv6(ip) <==> gs == [1]
  {
    var addr := "::" + Join(gs);
    JoinIsPlain(gs);
    MappedIff(gs);
    OnlyOne(gs);
    ColonsThen(Join(gs));
    hide Denotes, IsBlockedIpv6, HexGroups, Join, Small;
    PlainColons(ip, addr);
  }

  lemma ColonsThen(x: string)
    ensures "::" + x == "::1" <==> x == "1"
    ensures "::" + x == "::" <==> x == ""
  {
    assert ("::" + x)[2..] == x && "::1"[2..] == "1" && "::"[2..] == "";
  }

  lemma PlainColons(ip: string, addr: string)
    requires Denotes(ip, addr) && '.' !in addr && HexGroups(addr).None? && addr != "" && addr[0] == ':'
    ensures IsBlockedIpv6(ip) <==> addr == "::" || addr == "::1"
  {
    PlainDecision(ip, addr);
    ColonFirst(addr);
    hide *;
  }

  lemma CompressedFirst(ip: string, gs: seq<nat>)
    requires gs != [] && Small(gs) && Denotes(ip, "::" + Join(gs))
    ensures IsBlockedIpv6(ip) <==>
            gs == [1] || (|gs| == 3 && gs[0] == 0xffff && Reserved(gs[1] * 0x1_0000 + gs[2]))
  {
    hide Denotes, IsBlockedIpv6, Join, Reserved, Small;
    if |gs| == 3 && gs[0] == 0xffff {
      CompressedMapped(ip, gs);
    } else {
      CompressedPlain(ip, gs);
    }
  }

  lemma ColonFirst(addr: string)
    requires addr != "" && addr[0] == ':'
    ensures !("fe80" <= addr) && !("fe9" <= addr) && !("fea" <= addr) && !("feb" <= addr) && !("fc" <= addr)
            && !("fd" <= addr) && !("ff" <= addr) && !("2001:db8" <= addr)
  {
    PrefixStep("fe80", addr);
    PrefixStep("fe9", addr);
    PrefixStep("fea", addr);
    PrefixStep("feb", addr);
    PrefixStep("fc", addr);
    PrefixStep("fd", addr);
    PrefixStep("ff", addr);
    PrefixStep("2001:db8", addr);
  }

  lemma JoinThree(gs: seq<nat>)
    requires |gs| == 3 && HexText(gs[0]) == "ffff"
    ensures "::" + Join(gs) == "::ffff:" + (HexText(gs[1]) + ":" + HexText(gs[2]))
  {
    hide HexText;
    assert gs[1..][1..] == [gs[2]];
    assert Join(gs[1..]) == HexText(gs[1]) + (":" + HexText(gs[2]));
    assert Join(gs) == "ffff" + (":" + Join(gs[1..]));
  }

  /** The verdict as the text gives it. */
  predicate TextVerdict(gs: seq<nat>, run: Option<Run>)
    requires Address6(gs, run)
  {
    if run.Some? && run.value.start == 0 then
      var end := run.value.end;
      || end == 8
      || (end == 7 && gs[7] == 1)
      || (end == 5 && gs[5] == 0xffff && Reserved(gs[6] * 0x1_0000 + gs[7]))
    else
      FirstBlocked(gs[0]) || (gs[0] == 0x2001 && SecondBlocked(gs[1]))
  }

  /** With the run first, only what follows it matters. */
  lemma AfterRun(gs: seq<nat>, run: Run)
    requires Address6(gs, Some(run)) && run.start == 0
    ensures run.end <= |gs| && Small(gs[run.end..])
    ensures var later := gs[run.end..];
            TextVerdict(gs, Some(run))
            <==> || later == [] || later == [1]
                 || (|later| == 3 && later[0] == 0xffff && Reserved(later[1] * 0x1_0000 + later[2]))
  {
    hide Reserved, FirstBlocked, SecondBlocked;
    assert run.end == 7 ==> gs[run.end..] == [gs[7]];
    assert run.end == 5 ==> gs[run.end..] == [gs[5], gs[6], gs[7]];
  }

  lemma CompressedLiteral(ip: string, gs: seq<nat>, run: Run)
    requires Address6(gs, Some(run)) && run.start == 0 && Denotes(ip, Literal(gs, Some(run)))
    ensures IsBlockedIpv6(ip) <==> TextVerdict(gs, Some(run))
  {
    StartsCompressed(gs, run);
    AfterRun(gs, run);
    var later := gs[run.end..];
    hide *;
    if later == [] {
      OnlyColons(ip);
    } else {
      CompressedFirst(ip, later);
    }
  }

  lemma StartsCompressed(gs: seq<nat>, run: Run)
    requires Address6(gs, Some(run)) && run.start == 0
    ensures Literal(gs, Some(run)) == "::" + Join(gs[run.end..])
  {
    assert gs[..0] == [] && Join([]) == "";
    var later := "::" + Join(gs[run.end..]);
    assert "" + later == later;
  }

  lemma OnlyColons(ip: string)
    requires Denotes(ip, "::" + Join([]))
    ensures IsBlockedIpv6(ip)
  {
    assert "::" + Join([]) == "::" && HexGroups("::").None?;
    hide Denotes, IsBlockedIpv6, HexGroups;
    PlainColons(ip, "::");
  }

  lemma LeadingLiteral(ip: string, gs: seq<nat>, run: Option<Run>)
    requires Address6(gs, run) && (run.Some? ==> run.value.start > 0) && Denotes(ip, Literal(gs, run))
    ensures IsBlockedIpv6(ip) <==> TextVerdict(gs, run)
  {
    hide Literal, IsBlockedIpv6, Denotes, FirstBlocked, SecondBlocked, HexText;
    var rest := LeadingGroup(gs, run);
    GroupFirst(ip, gs[0], rest);
  }

  /**
   The verdict on every literal of groups without leading zeros, in any letter case, with or without a zone, and with
   any run of zeros compressed.
   */
  lemma LiteralVerdict(ip: string, gs: seq<nat>, run: Option<Run>)
    requires Address6(gs, run) && Denotes(ip, Literal(gs, run))
    ensures IsBlockedIpv6(ip) <==> TextVerdict(gs, run)
  {
    hide *;
    if run.Some? && run.value.start == 0 {
      CompressedLiteral(ip, gs, run.value);
    } else {
      LeadingLiteral(ip, gs, run);
    }
  }

  // ---------- the 128-bit value and the ranges meant ----------

  /** The groups as one number, first group highest. */
  function Value(gs: seq<nat>): nat {
    if gs == [] then 0 else Value(gs[..|gs| - 1]) * 0x1_0000 + gs[|gs| - 1]
  }

  /** What is left after dropping n low groups. */
  function Above(v: nat, n: nat): nat {
    if n == 0 then v else Above(v / 0x1_0000, n - 1)
  }

  /**
   The addresses the guard means to refuse: unspecified and loopback, link-local fe80::/10, unique local fc00::/7,
   multicast ff00::/8, documentation 2001:db8::/32, and the IPv4-compatible and IPv4-mapped addresses (sections
   2.5.5.1 and 2.5.5.2 of RFC 4291) of reserved ones.
   */
  predicate Reserved6(v: nat) {
    || v == 0 || v == 1
    || Above(v, 7) / 64 == 0xfe80 / 64
    || Above(v, 7) / 512 == 0xfc00 / 512
    || Above(v, 7) / 256 == 0xff00 / 256
    || Above(v, 6) == 0x2001_0db8
    || ((Above(v, 2) == 0 || Above(v, 2) == 0xffff) && Reserved(v % 0x1_0000_0000))
  }

  lemma {:induction false} AboveValue(gs: seq<nat>, n: nat)
    requires Small(gs) && n <= |gs|
    ensures Above(Value(gs), n) == Value(gs[..|gs| - n])
    decreases n
  {
    if n == 0 {
      assert gs[..|gs|] == gs;
    } else {
      var front := gs[..|gs| - 1];
      assert Value(gs) / 0x1_0000 == Value(front);
      AboveValue(front, n - 1);
      assert front[..|front| - (n - 1)] == gs[..|gs| - n];
    }
  }

  lemma {:induction false} ValueInjective(a: seq<nat>, b: seq<nat>)
    requires |a| == |b| && Small(a) && Small(b) && Value(a) == Value(b)
    ensures a == b
    decreases |a|
  {
    if a != [] {
      var n := |a| - 1;
      assert Value(a[..n]) == Value(b[..n]) && a[n] == b[n];
      ValueInjective(a[..n], b[..n]);
      assert a == a[..n] + [a[n]] && b == b[..n] + [b[n]];
    }
  }

  function Zeros(n: nat): (z: seq<nat>)
    ensures |z| == n && forall i :: 0 <= i < n ==> z[i] == 0
  {
    if n == 0 then [] else Zeros(n - 1) + [0]
  }

  lemma {:induction false} ValueOfZeros(n: nat)
    ensures Value(Zeros(n)) == 0
  {
    if n > 0 {
      ValueOfZeros(n - 1);
      assert Zeros(n)[..n - 1] == Zeros(n - 1);
    }
  }

  /** A short value, written with leading zero groups. */
  lemma ValueOfLast(n: nat, g: nat)
    requires g < 0x1_0000
    ensures Value(Zeros(n) + [g]) == g && Small(Zeros(n) + [g])
  {
    ValueOfZeros(n);
    assert (Zeros(n) + [g])[..n] == Zeros(n);
  }

  lemma ValueIsLast(gs: seq<nat>, g: nat)
    requires gs != [] && Small(gs) && g < 0x1_0000
    ensures Value(gs) == g <==> gs == Zeros(|gs| - 1) + [g]
  {
    ValueOfLast(|gs| - 1, g);
    if Value(gs) == g { ValueInjective(gs, Zeros(|gs| - 1) + [g]); }
  }

  lemma TopGroups(gs: seq<nat>)
    requires |gs| == 8 && Small(gs)
    ensures Above(Value(gs), 7) == gs[0]
    ensures Above(Value(gs), 6) == gs[0] * 0x1_0000 + gs[1]
    ensures Above(Value(gs), 2) == Value(gs[..6])
    ensures Value(gs) % 0x1_0000_0000 == gs[6] * 0x1_0000 + gs[7]
  {
    AboveValue(gs, 7);
    AboveValue(gs, 6);
    AboveValue(gs, 2);
    assert gs[..1][..0] == [] && gs[..2][..1] == gs[..1];
    assert Value(gs[..1]) == gs[0];
    assert Value(gs[..2]) == gs[0] * 0x1_0000 + gs[1];
    assert gs[..7][..6] == gs[..6];
    assert Value(gs) == Value(gs[..7]) * 0x1_0000 + gs[7];
    assert Value(gs[..7]) == Value(gs[..6]) * 0x1_0000 + gs[6];
    var low := gs[6] * 0x1_0000 + gs[7];
    assert Value(gs) == Value(gs[..6]) * 0x1_0000_0000 + low;
  }

  predicate ZeroUpTo(gs: seq<nat>, n: nat)
    requires n <= |gs|
  {
    forall i :: 0 <= i < n ==> gs[i] == 0
  }

  lemma LastOnly(gs: seq<nat>, g: nat)
    requires gs != [] && Small(gs) && g < 0x1_0000
    ensures Value(gs) == g <==> ZeroUpTo(gs, |gs| - 1) && gs[|gs| - 1] == g
  {
    ValueIsLast(gs, g);
    var n := |gs| - 1;
    if ZeroUpTo(gs, n) && gs[n] == g {
      assert gs == Zeros(n) + [g];
    }
  }

  /** The ranges, read off the groups. */
  lemma ReservedGroups(gs: seq<nat>)
    requires |gs| == 8 && Small(gs)
    ensures Reserved6(Value(gs)) <==>
            || (ZeroUpTo(gs, 7) && gs[7] <= 1)
            || 0xfe80 <= gs[0] <= 0xfebf || 0xfc00 <= gs[0] <= 0xfdff || 0xff00 <= gs[0] <= 0xffff
            || (gs[0] == 0x2001 && gs[1] == 0xdb8)
            || (ZeroUpTo(gs, 5) && (gs[5] == 0 || gs[5] == 0xffff) && Reserved(gs[6] * 0x1_0000 + gs[7]))
  {
    TopGroups(gs);
    LastOnly(gs, 0);
    LastOnly(gs, 1);
    LastOnly(gs[..6], 0);
    LastOnly(gs[..6], 0xffff);
    assert ZeroUpTo(gs[..6], 5) <==> ZeroUpTo(gs, 5);
    hide Above, Value, Reserved, ZeroUpTo;
  }

  // ---------- canonical literals ----------

  /**
   The rule of section 4.2 of RFC 5952: "::" replaces the longest run of at least two zero groups, the first if tied.
   */
  ghost predicate Canonical(gs: seq<nat>, run: Option<Run>) {
    match run
    case None => forall r :: ZeroRun(gs, r) ==> r.end - r.start < 2
    case Some(best) =>
      && best.end - best.start >= 2
      && forall r :: ZeroRun(gs, r) ==>
           || r.end - r.start < best.end - best.start
           || (r.end - r.start == best.end - best.start && best.start <= r.start)
  }

  /** An address that begins with exactly n >= 5 zero groups has them compressed. */
  lemma LeadingZerosCompressed(gs: seq<nat>, run: Option<Run>, n: nat)
    requires Address6(gs, run) && Canonical(gs, run) && 5 <= n <= 8
    requires ZeroUpTo(gs, n) && (n < 8 ==> gs[n] != 0)
    ensures run == Some(Run(0, n))
  {
    assert ZeroRun(gs, Run(0, n));
  }

  /** First and second groups on which the textual prefixes and the ranges part ways. */
  predicate PrefixDiscrepant(first: nat, second: nat) {
    || 0xfe81 <= first <= 0xfe8f
    || 0xfe9 <= first <= 0xfeb || 0xfc <= first <= 0xfd || 0xfc0 <= first <= 0xfdf
    || first == 0xff || 0xff0 <= first <= 0xfff
    || (first == 0x2001 && 0xdb80 <= second <= 0xdb8f)
  }

  /** Where the verdict on a canonical literal and the ranges part ways. */
  predicate Discrepant(gs: seq<nat>)
    requires |gs| == 8 && Small(gs)
  {
    || PrefixDiscrepant(gs[0], gs[1])
    || (ZeroUpTo(gs, 6) && !(gs[6] == 0 && gs[7] <= 1) && Reserved(gs[6] * 0x1_0000 + gs[7]))
  }

  lemma GroupsDecide(gs: seq<nat>, run: Option<Run>)
    requires Address6(gs, run) && Canonical(gs, run)
    ensures TextVerdict(gs, run) == Reserved6(Value(gs)) <==> !Discrepant(gs)
  {
    ReservedGroups(gs);
    assert run.Some? && run.value.start == 0 ==> gs[0] == 0;
    if gs[0] == 0 {
      if ZeroUpTo(gs, 8) { LeadingZerosCompressed(gs, run, 8); }
      else if ZeroUpTo(gs, 7) { LeadingZerosCompressed(gs, run, 7); }
      else if ZeroUpTo(gs, 6) { LeadingZerosCompressed(gs, run, 6); }
      else if ZeroUpTo(gs, 5) && gs[5] == 0xffff { LeadingZerosCompressed(gs, run, 5); }
    }
    hide Reserved6, Value, Reserved, Canonical;
  }

  /**
   For canonical literals: the text test and the 128-bit ranges agree exactly outside the listed groups. Link-local
   addresses fe81 to fe8f and the hex form of IPv4-compatible addresses are let through; the others are refused in
   excess.
   */
  lemma CanonicalVerdictIff(ip: string, gs: seq<nat>, run: Option<Run>)
    requires Address6(gs, run) && Canonical(gs, run) && Denotes(ip, Literal(gs, run))
    ensures (IsBlockedIpv6(ip) <==> Reserved6(Value(gs))) <==> !Discrepant(gs)
  {
    hide *;
    LiteralVerdict(ip, gs, run);
    GroupsDecide(gs, run);
  }

  /** A link-local address the prefixes do not cover: fe81::1. */
  lemma LinkLocalGap(ip: string)
    requires Denotes(ip, "fe81::1")
    ensures !IsBlockedIpv6(ip) && Reserved6(Value([0xfe81] + Zeros(6) + [1]))
  {
    var gs, run := [0xfe81] + Zeros(6) + [1], Some(Run(1, 7));
    assert gs[..1] == [0xfe81] && gs[7..] == [1];
    GapText();
    assert Literal(gs, run) == HexText(0xfe81) + ("::" + HexText(1));
    ReservedGroups(gs);
    hide Literal, Value, Reserved6, HexText, Denotes, IsBlockedIpv6, Reserved;
    LiteralVerdict(ip, gs, run);
  }

  lemma GapText()
    ensures HexText(0xfe81) + ("::" + HexText(1)) == "fe81::1"
  {
    hide HexText;
    OneDigit(0xf);
    OneDigit(1);
    MoreText(0xf, 0xe);
    MoreText(0xfe, 8);
    MoreText(0xfe8, 1);
  }

  /** Outside canonical form more can differ: loopback with its zeros written out is not recognised. */
  lemma SpelledOutLoopback(ip: string)
    requires Denotes(ip, Literal(Zeros(7) + [1], None))
    ensures !IsBlockedIpv6(ip) && Reserved6(Value(Zeros(7) + [1]))
  {
    ValueOfLast(7, 1);
    LiteralVerdict(ip, Zeros(7) + [1], None);
    hide Literal, Value, Zeros;
  }

  /**
   The same address in two spellings: ::127.0.0.1 is refused, and ::7f00:1, its canonical form in hex, is not.
   */
  lemma CompatibleGap(dotted: string, hex: string)
    requires Denotes(dotted, "::" + PrintAddress(0x7f00_0001)) && Denotes(hex, "::7f00:1")
    ensures IsBlockedIpv6(dotted) && !IsBlockedIpv6(hex) && Reserved6(Value(Zeros(6) + [0x7f00, 1]))
  {
    var gs := Zeros(6) + [0x7f00, 1];
    LoopbackReserved();
    DottedCompatibleVerdict(dotted, 0x7f00_0001);
    CompatibleText();
    assert gs[6..] == [0x7f00, 1];
    assert Join(gs[6..]) == HexText(0x7f00) + (":" + HexText(1));
    StartsCompressed(gs, Run(0, 6));
    ReservedGroups(gs);
    hide Literal, Value, Reserved6, HexText, Denotes, IsBlockedIpv6, Reserved, Join, Zeros, PrintAddress;
    LiteralVerdict(hex, gs, Some(Run(0, 6)));
  }

  lemma LoopbackReserved()
    ensures Reserved(0x7f00_0001)
  {
    assert RESERVED[3].0 <= 0x7f00_0001 <= RESERVED[3].1;
  }

  lemma CompatibleText()
    ensures "::" + (HexText(0x7f00) + (":" + HexText(1))) == "::7f00:1"
  {
    hide HexText;
    OneDigit(7);
    OneDigit(1);
    MoreText(7, 0xf);
    MoreText(0x7f, 0);
    MoreText(0x7f0, 0);
  }

  lemma NotFirst()
    ensures !FirstBlocked(0x2001)
  {
  }

  /** ... nor is the documentation prefix when its second group is padded. */
  lemma PaddedDocumentation(ip: string)
    requires Denotes(ip, "2001:0db8::1")
    ensures !IsBlockedIpv6(ip)
  {
    DocumentationTexts();
    hide HexText, Denotes, IsBlockedIpv6, FirstBlocked;
    assert "2001" + (":" + "0db8::1") == "2001:0db8::1";
    PrefixStep("db8", "0db8::1");
    assert !FirstBlocked(0x2001) by { NotFirst(); }
    GroupFirst(ip, 0x2001, "0db8::1");
  }

  // ---------- letter case ----------

  /** The same letter in either case, or the same character. */
  predicate SameLetter(a: char, b: char) {
    || a == b
    || (exists k :: 0 <= k < 26 && a == "ABCDEFGHIJKLMNOPQRSTUVWXYZ"[k] && b == "abcdefghijklmnopqrstuvwxyz"[k])
    || (exists k :: 0 <= k < 26 && b == "ABCDEFGHIJKLMNOPQRSTUVWXYZ"[k] && a == "abcdefghijklmnopqrstuvwxyz"[k])
  }

  lemma Alphabets(k: nat)
    requires k < 26
    ensures "ABCDEFGHIJKLMNOPQRSTUVWXYZ"[k] == ('A' as int + k) as char
    ensures "abcdefghijklmnopqrstuvwxyz"[k] == ('a' as int + k) as char
  {
  }

  lemma SameLowered(a: char, b: char)
    requires SameLetter(a, b)
    ensures Lower([a]) == Lower([b])
  {
    if k :| 0 <= k < 26 && a == "ABCDEFGHIJKLMNOPQRSTUVWXYZ"[k] && b == "abcdefghijklmnopqrstuvwxyz"[k] {
      Alphabets(k);
    }
    if k :| 0 <= k < 26 && b == "ABCDEFGHIJKLMNOPQRSTUVWXYZ"[k] && a == "abcdefghijklmnopqrstuvwxyz"[k] {
      Alphabets(k);
    }
  }

  lemma LowerAt(s: string, i: nat)
    requires i < |s|
    ensures [Lower(s)[i]] == Lower([s[i]])
  {
  }

  /** For any text at all: two spellings that differ only in the case of letters get the same verdict. */
  lemma AnyCaseSameVerdict(a: string, b: string)
    requires |a| == |b| && forall i :: 0 <= i < |a| ==> SameLetter(a[i], b[i])
    ensures IsBlockedIpv6(a) <==> IsBlockedIpv6(b)
  {
    hide SameLetter, IsBlockedPlain;
    forall i | 0 <= i < |a|
      ensures Lower(a)[i] == Lower(b)[i]
    {
      SameLowered(a[i], b[i]);
      LowerAt(a, i);
      LowerAt(b, i);
      hide Lower;
      assert [Lower(a)[i]] == [Lower(b)[i]];
    }
    hide Lower;
    assert Lower(a) == Lower(b);
  }

  /** A literal in lower case denotes itself, and so does any of it in capitals, with whatever zone behind it. */
  lemma DenotesInAnyCase(ip: string, addr: string, zone: string)
    requires '%' !in addr && (zone == "" || zone[0] == '%')
    requires forall i :: 0 <= i < |addr| ==> !('A' <= addr[i] <= 'Z')
    requires |ip| == |addr + zone| && forall i :: 0 <= i < |ip| ==> SameLetter(ip[i], (addr + zone)[i])
    ensures Denotes(ip, addr)
  {
    var full, rest := addr + zone, Lower(zone);
    forall i | 0 <= i < |ip|
      ensures Lower(ip)[i] == (addr + rest)[i]
    {
      SameLowered(ip[i], full[i]);
      LowerAt(ip, i);
      LowerAt(full, i);
      assert [Lower(ip)[i]] == Lower([full[i]]);
      assert i < |addr| ==> full[i] == addr[i] && Lower([addr[i]]) == [addr[i]];
      assert i >= |addr| ==> full[i] == zone[i - |addr|];
      if i >= |addr| { LowerAt(zone, i - |addr|); }
    }
    assert Lower(ip) == addr + rest;
    assert rest == "" || rest[0] == '%';
  }
}
