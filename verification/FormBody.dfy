/** Form decoding and token comparison of the local dashboard (src/dashboard/security.ts). */
module FormBody {
  import opened Wrappers
  import opened Bits
  import opened PercentCoding
  import Text

  // ---------- csrfMatches ----------

  /** Strings here are sequences of UTF-16 code units, as charCodeAt sees them. */
  type CodeUnits = seq<bv16>

  /**
   The loop never stops early, and still answers exactly whether a non-empty token was sent and is the expected one.
   */
  method CsrfMatches(expected: CodeUnits, provided: Option<CodeUnits>) returns (r: bool)
    ensures r <==> provided == Some(expected) && expected != []
  {
    if provided.None? || provided.value == [] || |provided.value| != |expected| { return false; }
    var diff: bv16 := 0;
    var i := 0;
    while i < |expected|
      invariant 0 <= i <= |expected|
      invariant diff == 0 <==> forall j :: 0 <= j < i ==> expected[j] == provided.value[j]
    {
      OrXor(diff, expected[i], provided.value[i]);
      diff := diff | (expected[i] ^ provided.value[i]);
      i := i + 1;
    }
    r := diff == 0;
    assert r ==> expected == provided.value;
  }

  lemma OrXor(d: bv16, a: bv16, b: bv16)
    ensures d | (a ^ b) == 0 <==> d == 0 && a == b
  {
  }

  // ---------- parseFormBody ----------

  /**
   A plain object's own string fields. Assigning a string to `__proto__` reaches the inherited setter, which ignores
   it.
   */
  function Assign(out: map<string, string>, k: string, v: string): map<string, string> {
    if k == "__proto__" then out else out[k := v]
  }

  function IndexOf(s: string, c: char): (r: Option<nat>)
    ensures r.Some? ==> r.value < |s| && s[r.value] == c && c !in s[..r.value]
    ensures r.None? ==> c !in s
  {
    if s == "" then None
    else if s[0] == c then Some(0)
    else
      var rest := IndexOf(s[1..], c);
      if rest.None? then None
      else
        assert s[..rest.value + 1] == [s[0]] + s[1..][..rest.value];
        Some(rest.value + 1)
  }

  function PlusToSpace(s: string): string {
    if s == "" then "" else [if s[0] == '+' then ' ' else s[0]] + PlusToSpace(s[1..])
  }

  function DecodePair(pair: string): Option<(string, string)> {
    var idx := IndexOf(pair, '=');
    var k := Decode(PlusToSpace(if idx.None? then pair else pair[..idx.value]));
    var v := if idx.None? then Some("") else Decode(PlusToSpace(pair[idx.value + 1..]));
    if k.None? || v.None? then None else Some((k.value, v.value))
  }

  function FillFrom(parts: seq<string>, out: map<string, string>): Option<map<string, string>>
    decreases |parts|
  {
    if parts == [] then Some(out)
    else if parts[0] == "" then FillFrom(parts[1..], out)
    else
      var p := DecodePair(parts[0]);
      if p.None? then None else FillFrom(parts[1..], Assign(out, p.value.0, p.value.1))
  }

  /** None is the URIError that escapes. */
  method ParseFormBody(raw: string) returns (r: Option<map<string, string>>)
    ensures r == FillFrom(Text.Split(raw, '&'), map[])
  {
    var out := map[];
    var parts := Text.Split(raw, '&');
    var i := 0;
    while i < |parts|
      invariant 0 <= i <= |parts|
      invariant FillFrom(parts[i..], out) == FillFrom(parts, map[])
    {
      var pair := parts[i];
      assert parts[i..][1..] == parts[i + 1..];
      i := i + 1;
      if pair == "" { continue; }
      var idx := IndexOf(pair, '=');
      var k := Decode(PlusToSpace(if idx.None? then pair else pair[..idx.value]));
      if k.None? { return None; }
      var v := if idx.None? then Some("") else Decode(PlusToSpace(pair[idx.value + 1..]));
      if v.None? { return None; }
      out := Assign(out, k.value, v.value);
    }
    r := Some(out);
  }

  // ---------- the serializer of the standard ----------

  predicate Kept(c: char) {
    '0' <= c <= '9' || 'A' <= c <= 'Z' || 'a' <= c <= 'z' || c == '*' || c == '-' || c == '.' || c == '_'
  }

  function EncodeChar(c: char): string {
    if Kept(c) then [c] else if c == ' ' then "+" else Percents(Utf8(c))
  }

  function Encode(s: string): string {
    if s == "" then "" else EncodeChar(s[0]) + Encode(s[1..])
  }

  type Pairs = seq<(string, string)>

  function EncodePair(p: (string, string)): string {
    Encode(p.0) + "=" + Encode(p.1)
  }

  function Serialize(pairs: Pairs): string {
    if pairs == [] then ""
    else if |pairs| == 1 then EncodePair(pairs[0])
    else EncodePair(pairs[0]) + "&" + Serialize(pairs[1..])
  }

  /** What the pairs mean as a map: the last value of a name wins. */
  function Meaning(pairs: Pairs, out: map<string, string>): map<string, string>
    decreases |pairs|
  {
    if pairs == [] then out else Meaning(pairs[1..], out[pairs[0].0 := pairs[0].1])
  }

  // ---------- the round trip ----------

  predicate Plain(c: char) { c != '+' && c != '&' && c != '=' }

  lemma {:induction false} PercentsArePlain(o: seq<Byte>)
    ensures forall i :: 0 <= i < |Percents(o)| ==> Plain(Percents(o)[i])
  {
    if o != [] { PercentsArePlain(o[1..]); }
  }

  lemma EncodedCharIsPlain(c: char)
    ensures forall x :: x in EncodeChar(c) ==> x != '&' && x != '='
    ensures '+' in EncodeChar(c) ==> EncodeChar(c) == "+"
  {
    if !Kept(c) && c != ' ' { PercentsArePlain(Utf8(c)); }
  }

  lemma {:induction false} EncodedIsPlain(s: string)
    ensures '&' !in Encode(s) && '=' !in Encode(s)
  {
    if s != "" {
      EncodedCharIsPlain(s[0]);
      EncodedIsPlain(s[1..]);
      hide EncodeChar;
    }
  }

  lemma {:induction false} PlusConcat(a: string, b: string)
    ensures PlusToSpace(a + b) == PlusToSpace(a) + PlusToSpace(b)
    decreases |a|
  {
    if a == "" {
      assert a + b == b;
    } else {
      assert (a + b)[1..] == a[1..] + b;
      PlusConcat(a[1..], b);
    }
  }

  lemma {:induction false} NoPlus(a: string)
    requires '+' !in a
    ensures PlusToSpace(a) == a
  {
    if a != "" {
      NoPlus(a[1..]);
      assert a == [a[0]] + a[1..];
    }
  }

  lemma DecodeLiteral(c: char, rest: string)
    requires c != '%'
    ensures Decode([c] + rest) == Push(c, Decode(rest))
  {
    assert ([c] + rest)[1..] == rest;
  }

  lemma DecodeOneChar(c: char, rest: string)
    ensures Decode(PlusToSpace(EncodeChar(c)) + rest) == Push(c, Decode(rest))
  {
    EncodedCharIsPlain(c);
    if Kept(c) {
      NoPlus([c]);
      DecodeLiteral(c, rest);
    } else if c == ' ' {
      assert PlusToSpace("+") == " ";
      DecodeLiteral(' ', rest);
    } else {
      EncodedIsNotPlus(c);
      NoPlus(Percents(Utf8(c)));
      DecodeEncodedChar(c, rest);
    }
  }

  lemma EncodedIsNotPlus(c: char)
    ensures '+' !in Percents(Utf8(c))
  {
    PercentsArePlain(Utf8(c));
  }

  /** decodeURIComponent after the plus-to-space replacement undoes the encoder on every string. */
  lemma {:induction false} DecodeEncode(s: string)
    ensures Decode(PlusToSpace(Encode(s))) == Some(s)
  {
    if s != "" {
      DecodeEncode(s[1..]);
      hide Decode, EncodeChar;
      PlusConcat(EncodeChar(s[0]), Encode(s[1..]));
      DecodeOneChar(s[0], PlusToSpace(Encode(s[1..])));
      assert s == [s[0]] + s[1..];
    }
  }

  lemma {:induction false} IndexOfFirst(head: string, c: char, tail: string)
    requires c !in head
    ensures IndexOf(head + [c] + tail, c) == Some(|head|)
    decreases |head|
  {
    if head != "" {
      assert (head + [c] + tail)[1..] == head[1..] + [c] + tail;
      IndexOfFirst(head[1..], c, tail);
    }
  }

  lemma PairRoundTrip(p: (string, string))
    ensures DecodePair(EncodePair(p)) == Some(p)
    ensures '&' !in EncodePair(p) && EncodePair(p) != ""
  {
    var k, v := Encode(p.0), Encode(p.1);
    EncodedIsPlain(p.0);
    EncodedIsPlain(p.1);
    IndexOfFirst(k, '=', v);
    assert EncodePair(p) == k + ['='] + v;
    assert (k + ['='] + v)[..|k|] == k && (k + ['='] + v)[|k| + 1..] == v;
    DecodeEncode(p.0);
    DecodeEncode(p.1);
  }

  function Encoded(pairs: Pairs): seq<string> {
    if pairs == [] then [] else [EncodePair(pairs[0])] + Encoded(pairs[1..])
  }

  lemma {:induction false} SplitSerialized(pairs: Pairs)
    requires pairs != []
    ensures Text.Split(Serialize(pairs), '&') == Encoded(pairs)
  {
    PairRoundTrip(pairs[0]);
    hide EncodePair, DecodePair, Text.Split;
    if |pairs| == 1 {
      Text.SplitNone(EncodePair(pairs[0]), '&');
      assert pairs[1..] == [];
    } else {
      SplitSerialized(pairs[1..]);
      Text.SplitAt(EncodePair(pairs[0]), '&', Serialize(pairs[1..]));
      assert EncodePair(pairs[0]) + "&" + Serialize(pairs[1..]) == EncodePair(pairs[0]) + ['&'] + Serialize(pairs[1..]);
    }
  }

  lemma FillStep(p: (string, string), parts: seq<string>, out: map<string, string>)
    ensures FillFrom([EncodePair(p)] + parts, out) == FillFrom(parts, Assign(out, p.0, p.1))
  {
    PairRoundTrip(p);
    hide EncodePair, DecodePair, Assign;
    assert ([EncodePair(p)] + parts)[1..] == parts;
  }

  lemma AssignLessProto(out: map<string, string>, k: string, v: string)
    ensures Assign(out - {"__proto__"}, k, v) == out[k := v] - {"__proto__"}
  {
  }

  lemma {:induction false} FillEncoded(pairs: Pairs, out: map<string, string>)
    ensures FillFrom(Encoded(pairs), out - {"__proto__"}) == Some(Meaning(pairs, out) - {"__proto__"})
    decreases |pairs|
  {
    hide EncodePair, Assign, FillFrom;
    if pairs == [] {
      FillNothing(out - {"__proto__"});
    } else {
      var p := pairs[0];
      FillStep(p, Encoded(pairs[1..]), out - {"__proto__"});
      AssignLessProto(out, p.0, p.1);
      FillEncoded(pairs[1..], out[p.0 := p.1]);
    }
  }

  lemma FillNothing(out: map<string, string>)
    ensures FillFrom([], out) == FillFrom([""], out) == Some(out)
  {
    assert [""][1..] == [];
  }

  /** Parsing the serialization of any list of pairs gives its meaning as a map, less the name `__proto__`. */
  lemma ParseSerialized(pairs: Pairs)
    ensures FillFrom(Text.Split(Serialize(pairs), '&'), map[]) == Some(Meaning(pairs, map[]) - {"__proto__"})
  {
    var empty: map<string, string> := map[];
    assert empty - {"__proto__"} == empty;
    if pairs == [] {
      FillNothing(empty);
    } else {
      SplitSerialized(pairs);
      FillEncoded(pairs, empty);
    }
  }

  lemma {:induction false} MeaningHas(pairs: Pairs, out: map<string, string>, k: string)
    ensures k in Meaning(pairs, out) <==> k in out || exists i :: 0 <= i < |pairs| && pairs[i].0 == k
    decreases |pairs|
  {
    if pairs != [] {
      MeaningHas(pairs[1..], out[pairs[0].0 := pairs[0].1], k);
      assert forall i :: 0 <= i < |pairs| - 1 ==> pairs[1..][i] == pairs[i + 1];
      if i :| 0 <= i < |pairs| && pairs[i].0 == k {
        assert i > 0 ==> pairs[1..][i - 1].0 == k;
      }
    }
  }

  /** The whole map comes back exactly when no name is `__proto__`. */
  lemma RoundTripIff(pairs: Pairs)
    ensures FillFrom(Text.Split(Serialize(pairs), '&'), map[]) == Some(Meaning(pairs, map[]))
       <==> forall i :: 0 <= i < |pairs| ==> pairs[i].0 != "__proto__"
  {
    ParseSerialized(pairs);
    MeaningHas(pairs, map[], "__proto__");
    var m := Meaning(pairs, map[]);
    hide *;
    if "__proto__" !in m {
      assert m - {"__proto__"} == m;
    } else {
      assert "__proto__" !in m - {"__proto__"};
    }
  }
}
