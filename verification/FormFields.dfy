/**
 What any form body at all means to the dashboard (`parseFormBody` of src/dashboard/security.ts), whether or not a
 serializer made it: which texts unescape to what, where a piece is cut, which piece of a name counts, what fails.
 */
module FormFields {
  import opened Wrappers
  import opened Bits
  import opened PercentCoding
  import opened FormBody
  import Text

  // ---------- unescaping ----------

  /** A hexadecimal digit in either case. */
  predicate Hexit(c: char, v: nat) {
    v < 16 && (c == "0123456789abcdef"[v] || c == "0123456789ABCDEF"[v])
  }

  /** The octet after a percent sign. */
  predicate Escape(s: string, b: Byte) {
    |s| == 3 && s[0] == '%' && Hexit(s[1], b / 16) && Hexit(s[2], b % 16)
  }

  /** A stretch of text that stands for one character: itself, a plus for a space, or its UTF-8 octets escaped. */
  ghost predicate StandsFor(p: string, c: char) {
    || (c != '%' && c != '+' && p == [c])
    || (c == ' ' && p == "+")
    || (|p| == 3 * |Utf8(c)| && forall k :: 0 <= k < |Utf8(c)| ==> Escape(p[3 * k..3 * k + 3], Utf8(c)[k]))
  }

  function Concat(ps: seq<string>): string {
    if ps == [] then "" else ps[0] + Concat(ps[1..])
  }

  ghost predicate Spelled(ps: seq<string>, s: string, t: string) {
    |ps| == |t| && Concat(ps) == s && forall i :: 0 <= i < |ps| ==> StandsFor(ps[i], t[i])
  }

  /** The text reads as t, stretch by stretch. */
  ghost predicate Reads(s: string, t: string) {
    exists ps :: Spelled(ps, s, t)
  }

  lemma HexitIs(c: char)
    ensures Text.IsHex(c) ==> Hexit(c, Text.HexValue(c))
    ensures forall v :: Hexit(c, v) ==> Text.IsHex(c) && v == Text.HexValue(c)
  {
    if Text.IsHex(c) {
      var v := Text.HexValue(c);
      assert if c <= '9' then "0123456789abcdef"[v] == c
             else if c <= 'F' then "0123456789ABCDEF"[v] == c else "0123456789abcdef"[v] == c by {
        LowerAt(v);
        UpperAt(v);
      }
    }
    forall v | Hexit(c, v)
      ensures Text.IsHex(c) && v == Text.HexValue(c)
    {
      LowerAt(v);
      UpperAt(v);
    }
  }

  lemma LowerAt(v: nat)
    requires v < 16
    ensures "0123456789abcdef"[v] == if v < 10 then ('0' as int + v) as char else ('a' as int + v - 10) as char
  {
  }

  lemma UpperAt(v: nat)
    requires v < 16
    ensures "0123456789ABCDEF"[v] == if v < 10 then ('0' as int + v) as char else ('A' as int + v - 10) as char
  {
  }

  lemma TripleIs(s: string, b: Byte)
    ensures Triple(s) == Some(b) <==> |s| >= 3 && Escape(s[..3], b)
  {
    if |s| >= 3 {
      HexitIs(s[1]);
      HexitIs(s[2]);
      hide Hexit, Text.IsHex, Text.HexValue;
      assert b == b / 16 * 16 + b % 16;
    }
  }

  lemma {:induction false} TriplesAre(s: string, n: nat, o: seq<Byte>)
    requires |o| == n
    ensures Triples(s, n) == Some(o)
       <==> |s| >= 3 * n && forall k :: 0 <= k < n ==> Escape(s[3 * k..3 * k + 3], o[k])
    decreases n
  {
    if n > 0 {
      TripleIs(s, o[0]);
      hide Triple, Escape;
      if |s| >= 3 {
        TriplesAre(s[3..], n - 1, o[1..]);
        assert o == [o[0]] + o[1..];
        EscapesCons(s, n, o);
      }
    }
  }

  lemma EscapesCons(s: string, n: nat, o: seq<Byte>)
    requires |o| == n > 0 && |s| >= 3
    ensures (|s| >= 3 * n && forall k :: 0 <= k < n ==> Escape(s[3 * k..3 * k + 3], o[k]))
       <==> Escape(s[..3], o[0]) && |s[3..]| >= 3 * (n - 1)
            && forall k :: 0 <= k < n - 1 ==> Escape(s[3..][3 * k..3 * k + 3], o[1..][k])
  {
    var rest, later := s[3..], o[1..];
    hide Escape;
    if |s| >= 3 * n {
      assert s[3 * 0..3 * 0 + 3] == s[..3];
      forall k | 0 <= k < n - 1
        ensures s[3 * (k + 1)..3 * (k + 1) + 3] == rest[3 * k..3 * k + 3] && o[k + 1] == later[k]
      {
      }
      if Escape(s[..3], o[0]) && forall k :: 0 <= k < n - 1 ==> Escape(rest[3 * k..3 * k + 3], later[k]) {
        forall k | 0 <= k < n
          ensures Escape(s[3 * k..3 * k + 3], o[k])
        {
          if k > 0 {
            assert Escape(rest[3 * (k - 1)..3 * (k - 1) + 3], later[k - 1]);
            assert rest[3 * (k - 1)..3 * (k - 1) + 3] == s[3 * k..3 * k + 3];
          }
        }
      }
    }
  }

  lemma {:induction false} PlusAt(s: string)
    ensures |PlusToSpace(s)| == |s|
    ensures forall i :: 0 <= i < |s| ==> PlusToSpace(s)[i] == if s[i] == '+' then ' ' else s[i]
  {
    if s != "" {
      PlusAt(s[1..]);
      assert forall i :: 0 < i < |s| ==> s[i] == s[1..][i - 1];
    }
  }

  // ---------- which texts unescape ----------

  lemma EscapesArePlain(p: string, o: seq<Byte>)
    requires |p| == 3 * |o| && forall k :: 0 <= k < |o| ==> Escape(p[3 * k..3 * k + 3], o[k])
    ensures '+' !in p
  {
    forall i | 0 <= i < |p|
      ensures p[i] != '+'
    {
      var x := p[3 * (i / 3)..3 * (i / 3) + 3];
      EscapeHasNoSpace(x, o[i / 3], i % 3);
      assert p[i] == x[i % 3];
    }
  }

  /** A stretch decodes to the character it stands for, whatever follows. */
  lemma StretchDecodes(p: string, c: char, rest: string)
    requires StandsFor(p, c)
    ensures p != "" && Decode(PlusToSpace(p) + rest) == Push(c, Decode(rest))
  {
    hide Push;
    if c != '%' && c != '+' && p == [c] {
      NoPlus(p);
      DecodeLiteral(c, rest);
    } else if c == ' ' && p == "+" {
      assert PlusToSpace("+") == " ";
      DecodeLiteral(' ', rest);
    } else {
      var o, s := Utf8(c), p + rest;
      EscapesArePlain(p, o);
      NoPlus(p);
      Utf8Lead(c);
      Utf8IsExact(o, c);
      hide Utf8, FromUtf8, Announced, Escape;
      assert forall k :: 0 <= k < |o| ==> s[3 * k..3 * k + 3] == p[3 * k..3 * k + 3];
      TriplesAre(s, |o|, o);
      assert s[3 * |o|..] == rest;
      LeadTriple(s, |o|, o);
      hide Triples, Triple;
    }
  }

  lemma LeadTriple(s: string, n: nat, o: seq<Byte>)
    requires n > 0 && Triples(s, n) == Some(o)
    ensures |s| >= 3 && s[0] == '%' && Triple(s) == Some(o[0])
  {
  }

  lemma {:induction false} SpelledDecodes(ps: seq<string>, s: string, t: string)
    requires Spelled(ps, s, t)
    ensures Decode(PlusToSpace(s)) == Some(t)
    decreases |ps|
  {
    if ps != [] {
      var rest := Concat(ps[1..]);
      hide StandsFor;
      assert forall i :: 0 <= i < |ps| - 1 ==> ps[1..][i] == ps[i + 1] && t[1..][i] == t[i + 1];
      SpelledDecodes(ps[1..], rest, t[1..]);
      PlusConcat(ps[0], rest);
      StretchDecodes(ps[0], t[0], PlusToSpace(rest));
      hide Decode, PlusToSpace;
      assert t == [t[0]] + t[1..];
    }
  }

  lemma SpelledCons(p: string, ps: seq<string>, s: string, t: string)
    requires |p| <= |s| && t != "" && StandsFor(p, t[0]) && s[..|p|] == p && Spelled(ps, s[|p|..], t[1..])
    ensures Spelled([p] + ps, s, t)
  {
    hide StandsFor;
    assert ([p] + ps)[1..] == ps;
    assert s == p + s[|p|..];
  }

  lemma {:induction false} DecodedIsSpelled(s: string) returns (ps: seq<string>)
    requires Decode(PlusToSpace(s)).Some?
    ensures Spelled(ps, s, Decode(PlusToSpace(s)).value)
    decreases |s|
  {
    ps := [];
    if s != "" {
      var z := PlusToSpace(s);
      var t := Decode(z).value;
      PlusAt(s);
      if z[0] != '%' {
        assert z[1..] == PlusToSpace(s[1..]);
        var rest := DecodedIsSpelled(s[1..]);
        assert StandsFor([s[0]], z[0]) by {
          if s[0] == '+' { assert [s[0]] == "+"; }
        }
        assert t == [z[0]] + Decode(z[1..]).value;
        hide Decode, StandsFor, Spelled, PlusToSpace;
        SpelledCons([s[0]], rest, s, t);
        ps := [[s[0]]] + rest;
      } else {
        var n, c := EscapedFront(z);
        SameFront(s, n, c);
        var rest := DecodedIsSpelled(s[3 * n..]);
        hide Decode, StandsFor, Spelled, PlusToSpace;
        SpelledCons(s[..3 * n], rest, s, t);
        ps := [s[..3 * n]] + rest;
      }
    }
  }

  /** What decodes and starts with a percent sign starts with the escapes of one character. */
  lemma EscapedFront(z: string) returns (n: nat, c: char)
    requires z != "" && z[0] == '%' && Decode(z).Some?
    ensures 1 <= n <= 4 && 3 * n <= |z| && n == |Utf8(c)|
    ensures forall k :: 0 <= k < n ==> Escape(z[3 * k..3 * k + 3], Utf8(c)[k])
    ensures Decode(z[3 * n..]).Some? && Decode(z).value == [c] + Decode(z[3 * n..]).value
  {
    n := Announced(Triple(z).value);
    var o := Triples(z, n).value;
    c := FromUtf8(o).value;
    Utf8IsExact(o, c);
    TriplesAre(z, n, o);
    hide Utf8, FromUtf8, Announced, Triple, Triples, Escape;
  }

  lemma SameFront(s: string, n: nat, c: char)
    requires |PlusToSpace(s)| == |s| && 3 * n <= |s| && n == |Utf8(c)|
    requires forall k :: 0 <= k < n ==> Escape(PlusToSpace(s)[3 * k..3 * k + 3], Utf8(c)[k])
    ensures StandsFor(s[..3 * n], c) && PlusToSpace(s)[3 * n..] == PlusToSpace(s[3 * n..])
  {
    var z, front := PlusToSpace(s), s[..3 * n];
    assert s == front + s[3 * n..];
    PlusConcat(front, s[3 * n..]);
    PlusAt(front);
    PlusAt(s);
    var o := Utf8(c);
    hide PlusToSpace, Utf8;
    assert z[..3 * n] == PlusToSpace(front);
    forall k | 0 <= k < n
      ensures PlusToSpace(front)[3 * k..3 * k + 3] == z[3 * k..3 * k + 3]
    {
      assert z[..3 * n][3 * k..3 * k + 3] == z[3 * k..3 * k + 3];
    }
    hide Escape;
    EscapesHaveNoPlus(front, o);
  }

  /** Escapes have no space in them, so none of it was a plus. */
  lemma EscapesHaveNoPlus(front: string, o: seq<Byte>)
    requires |PlusToSpace(front)| == |front| == 3 * |o|
    requires forall k :: 0 <= k < |o| ==> Escape(PlusToSpace(front)[3 * k..3 * k + 3], o[k])
    ensures PlusToSpace(front) == front
  {
    var z := PlusToSpace(front);
    PlusAt(front);
    hide PlusToSpace;
    forall i | 0 <= i < |z|
      ensures z[i] == front[i]
    {
      var x := z[3 * (i / 3)..3 * (i / 3) + 3];
      EscapeHasNoSpace(x, o[i / 3], i % 3);
      assert z[i] == x[i % 3];
    }
  }

  lemma EscapeHasNoSpace(x: string, b: Byte, i: nat)
    requires Escape(x, b) && i < 3
    ensures x[i] != ' ' && x[i] != '+'
  {
    if i > 0 { HexitIs(x[i]); }
    hide Hexit;
  }

  /** Which texts unescape and to what: exactly those that can be cut into stretches that stand for characters. */
  lemma UnescapesIff(s: string, t: string)
    ensures Decode(PlusToSpace(s)) == Some(t) <==> Reads(s, t)
  {
    hide Spelled;
    if Decode(PlusToSpace(s)) == Some(t) {
      var ps := DecodedIsSpelled(s);
    }
    if ps :| Spelled(ps, s, t) { SpelledDecodes(ps, s, t); }
  }

  // ---------- a piece ----------

  /** The piece is a name, up to the first equals sign, and then a value; the value is empty when there is no sign. */
  ghost predicate Field(piece: string, k: string, v: string) {
    exists n :: FieldAt(piece, n, k, v)
  }

  ghost predicate FieldAt(piece: string, n: nat, k: string, v: string) {
    && n <= |piece| && '=' !in piece[..n] && Reads(piece[..n], k)
    && if n == |piece| then v == "" else piece[n] == '=' && Reads(piece[n + 1..], v)
  }

  lemma NotBefore(piece: string, n: nat)
    requires n <= |piece| && '=' !in piece[..n]
    ensures forall i :: 0 <= i < n ==> piece[i] != '='
  {
    assert forall i :: 0 <= i < n ==> piece[..n][i] == piece[i] && piece[..n][i] in piece[..n];
  }

  /** Where a piece is cut and what its two halves say, for every piece. */
  lemma PieceTold(piece: string, k: string, v: string)
    ensures DecodePair(piece) == Some((k, v)) <==> Field(piece, k, v)
  {
    var idx := IndexOf(piece, '=');
    var n: nat := if idx.None? then |piece| else idx.value;
    assert piece[..|piece|] == piece;
    UnescapesIff(piece[..n], k);
    if idx.Some? { UnescapesIff(piece[n + 1..], v); }
    assert DecodePair(piece) == Some((k, v)) <==> FieldAt(piece, n, k, v);
    hide DecodePair, IndexOf, Decode, PlusToSpace, Reads;
    forall m: nat | FieldAt(piece, m, k, v)
      ensures m == n
    {
      NotBefore(piece, m);
      NotBefore(piece, n);
    }
  }

  // ---------- the body ----------

  ghost predicate Names(piece: string, k: string) {
    exists v :: Field(piece, k, v)
  }

  /** Piece i gives k its value v, and no later one names k. */
  ghost predicate LastSays(parts: seq<string>, i: nat, k: string, v: string) {
    && i < |parts| && parts[i] != "" && Field(parts[i], k, v)
    && forall j :: i < j < |parts| && parts[j] != "" ==> !Names(parts[j], k)
  }

  ghost predicate Unnamed(parts: seq<string>, k: string) {
    forall i :: 0 <= i < |parts| && parts[i] != "" ==> !Names(parts[i], k)
  }

  /** What the map holds for k after these pieces. */
  ghost predicate Holds(parts: seq<string>, before: map<string, string>, after: map<string, string>, k: string) {
    if k == "__proto__" || Unnamed(parts, k)
    then (k in after <==> k in before) && (k in after ==> after[k] == before[k])
    else k in after && exists i :: LastSays(parts, i, k, after[k])
  }

  lemma NamesIs(piece: string, k: string)
    ensures Names(piece, k) <==> DecodePair(piece).Some? && DecodePair(piece).value.0 == k
  {
    hide Field, DecodePair;
    if DecodePair(piece).Some? { PieceTold(piece, k, DecodePair(piece).value.1); }
    forall v | Field(piece, k, v)
      ensures DecodePair(piece) == Some((k, v))
    {
      PieceTold(piece, k, v);
    }
  }

  lemma HoldsCons(piece: string, rest: seq<string>, before: map<string, string>, m: map<string, string>,
                  after: map<string, string>, k: string)
    requires Holds(rest, m, after, k)
    requires if piece == "" then m == before
             else DecodePair(piece).Some? && m == Assign(before, DecodePair(piece).value.0, DecodePair(piece).value.1)
    ensures Holds([piece] + rest, before, after, k)
  {
    var says := piece != "" && Names(piece, k);
    NamesIs(piece, k);
    if piece != "" { PieceTold(piece, k, DecodePair(piece).value.1); }
    assert k != "__proto__" ==> if says then k in m && Field(piece, k, m[k])
                                else (k in m <==> k in before) && (k in m ==> m[k] == before[k]);
    assert k == "__proto__" ==> (k in m <==> k in before) && (k in m ==> m[k] == before[k]);
    hide Field, DecodePair, Names, Assign, Unnamed, LastSays;
    UnnamedCons(piece, rest, k);
    if k != "__proto__" {
      if Unnamed(rest, k) {
        if says { FirstSaysLast(piece, rest, k, after[k]); }
      } else {
        var i: nat :| LastSays(rest, i, k, after[k]);
        LaterSaysLast(piece, rest, i, k, after[k]);
      }
    }
  }

  lemma UnnamedCons(piece: string, rest: seq<string>, k: string)
    ensures Unnamed([piece] + rest, k) <==> !(piece != "" && Names(piece, k)) && Unnamed(rest, k)
  {
    var parts := [piece] + rest;
    hide Names;
    assert parts[0] == piece && forall i :: 0 <= i < |rest| ==> parts[i + 1] == rest[i];
    assert forall i :: 0 < i < |parts| ==> parts[i] == rest[i - 1];
  }

  lemma FirstSaysLast(piece: string, rest: seq<string>, k: string, v: string)
    requires piece != "" && Field(piece, k, v) && Unnamed(rest, k)
    ensures LastSays([piece] + rest, 0, k, v)
  {
    var parts := [piece] + rest;
    hide Field, Names;
    assert forall i :: 0 < i < |parts| ==> parts[i] == rest[i - 1];
  }

  lemma LaterSaysLast(piece: string, rest: seq<string>, i: nat, k: string, v: string)
    requires LastSays(rest, i, k, v)
    ensures LastSays([piece] + rest, i + 1, k, v)
  {
    var parts := [piece] + rest;
    hide Field, Names;
    assert forall j :: 0 < j < |parts| ==> parts[j] == rest[j - 1];
  }

  ghost predicate Readable(piece: string) {
    piece == "" || exists k, v :: Field(piece, k, v)
  }

  lemma ReadableIs(piece: string)
    ensures Readable(piece) <==> piece == "" || DecodePair(piece).Some?
  {
    hide Field, DecodePair;
    if DecodePair(piece).Some? { PieceTold(piece, DecodePair(piece).value.0, DecodePair(piece).value.1); }
    forall k, v | Field(piece, k, v)
      ensures DecodePair(piece) == Some((k, v))
    {
      PieceTold(piece, k, v);
    }
  }

  lemma {:induction false} FillTells(parts: seq<string>, out: map<string, string>)
    ensures var r := FillFrom(parts, out);
            && (r.Some? <==> forall i :: 0 <= i < |parts| ==> Readable(parts[i]))
            && (r.Some? ==> forall k :: Holds(parts, out, r.value, k))
    decreases |parts|
  {
    hide Readable, Holds, DecodePair;
    if parts == [] {
      forall k ensures Holds([], out, out, k) { NothingHolds(out, k); }
    } else {
      var piece, rest := parts[0], parts[1..];
      assert parts == [piece] + rest;
      ReadableIs(piece);
      assert forall i :: 0 < i < |parts| ==> parts[i] == rest[i - 1];
      assert forall i :: 0 <= i < |rest| ==> parts[i + 1] == rest[i];
      if Readable(piece) {
        var m := if piece == "" then out else Assign(out, DecodePair(piece).value.0, DecodePair(piece).value.1);
        FillTells(rest, m);
        var r := FillFrom(rest, m);
        assert FillFrom(parts, out) == r;
        hide FillFrom, Assign;
        if r.Some? {
          forall k ensures Holds(parts, out, r.value, k) { HoldsCons(piece, rest, out, m, r.value, k); }
        }
      }
    }
  }

  lemma NothingHolds(out: map<string, string>, k: string)
    ensures Holds([], out, out, k)
  {
  }

  /**
   Any body at all: with its pieces between the ampersands, it fails exactly when some piece that is not empty cannot
   be read, and otherwise each name but `__proto__` has the value of the last piece that names it, and no other is
   there.
   */
  lemma BodyTold(raw: string)
    ensures var parts, r := Text.Split(raw, '&'), FillFrom(Text.Split(raw, '&'), map[]);
            && Text.Joined(parts, '&') == raw && (forall p :: p in parts ==> '&' !in p)
            && (r.Some? <==> forall i :: 0 <= i < |parts| ==> Readable(parts[i]))
            && (r.Some? ==> forall k ::
                  if k == "__proto__" || Unnamed(parts, k) then k !in r.value
                  else k in r.value && exists i :: LastSays(parts, i, k, r.value[k]))
  {
    var parts, empty: map<string, string> := Text.Split(raw, '&'), map[];
    var r := FillFrom(parts, empty);
    Text.SplitJoins(raw, '&');
    FillTells(parts, empty);
    hide FillFrom, Text.Split, Readable, Unnamed, LastSays;
    if r.Some? {
      forall k
        ensures if k == "__proto__" || Unnamed(parts, k) then k !in r.value
                else k in r.value && exists i :: LastSays(parts, i, k, r.value[k])
      {
        assert Holds(parts, empty, r.value, k);
      }
    }
  }
}
