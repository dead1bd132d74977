/**
 Canonical form of plain data trees (`sortValue` of src/utils/hash.ts). Strings are sequences of
 UTF-16 code units. An object is its list of own properties in enumeration order, which JavaScript
 fixes as integer-index keys in numeric order and then the other keys in insertion order.
 */
module CanonicalJson {
  type CodeUnit = c: int | 0 <= c < 0x1_0000
  type Key = seq<CodeUnit>

  datatype Json =
    | Undefined
    | Null
    | Scalar(text: string)
    | Arr(items: seq<Json>)
    | Obj(fields: seq<(Key, Json)>)

  type Fields = seq<(Key, Json)>

  // ---------- key orders ----------

  /** `a < b` on strings: by code units. */
  predicate Less(a: Key, b: Key) {
    if b == [] then false
    else if a == [] then true
    else a[0] < b[0] || (a[0] == b[0] && Less(a[1..], b[1..]))
  }

  predicate IsIndex(k: Key) {
    && 1 <= |k| <= 10 && (forall i :: 0 <= i < |k| ==> 48 <= k[i] <= 57)
    && (k[0] == 48 ==> |k| == 1)
    && Value(k) < 4294967295
  }

  function Value(k: Key): int {
    if k == [] then 0
    else
      var digit: int := k[|k| - 1];
      10 * Value(k[..|k| - 1]) + digit - 48
  }

  /** Numeric order of integer-index keys: they have no leading zero, so shorter is smaller. */
  predicate IndexLess(a: Key, b: Key) {
    |a| < |b| || (|a| == |b| && Less(a, b))
  }

  predicate Before(numeric: bool, a: Key, b: Key) {
    if numeric then IndexLess(a, b) else Less(a, b)
  }

  /** Key order is decided at the first code unit that differs, and a proper prefix comes first. */
  lemma {:induction false} LessMeans(a: Key, b: Key, n: nat)
    requires n <= |a| && n <= |b| && a[..n] == b[..n] && (n < |a| && n < |b| ==> a[n] != b[n])
    ensures Less(a, b) <==> n < |b| && (n == |a| || a[n] < b[n])
    decreases n
  {
    if n > 0 {
      assert a[0] == a[..n][0] == b[..n][0] == b[0];
      assert a[1..][..n - 1] == a[..n][1..] == b[..n][1..] == b[1..][..n - 1];
      LessMeans(a[1..], b[1..], n - 1);
    }
  }

  lemma {:induction false} LessIrreflexive(a: Key)
    ensures !Less(a, a)
  {
    if a != [] { LessIrreflexive(a[1..]); }
  }

  lemma {:induction false} LessTransitive(a: Key, b: Key, c: Key)
    requires Less(a, b) && Less(b, c)
    ensures Less(a, c)
    decreases |a|
  {
    if a != [] && a[0] == b[0] && b[0] == c[0] { LessTransitive(a[1..], b[1..], c[1..]); }
  }

  lemma {:induction false} LessTotal(a: Key, b: Key)
    ensures a == b || Less(a, b) || Less(b, a)
    decreases |a|
  {
    if a != [] && b != [] && a[0] == b[0] {
      LessTotal(a[1..], b[1..]);
      assert a == [a[0]] + a[1..] && b == [b[0]] + b[1..];
    }
  }

  lemma BeforeIsTotalOrder(numeric: bool, a: Key, b: Key, c: Key)
    ensures !Before(numeric, a, a)
    ensures a == b || Before(numeric, a, b) || Before(numeric, b, a)
    ensures Before(numeric, a, b) && Before(numeric, b, c) ==> Before(numeric, a, c)
  {
    LessIrreflexive(a);
    LessTotal(a, b);
    if Less(a, b) && Less(b, c) { LessTransitive(a, b, c); }
  }

  // ---------- sorting fields ----------

  ghost predicate DistinctKeys(fs: Fields) {
    forall i, j :: 0 <= i < j < |fs| ==> fs[i].0 != fs[j].0
  }

  ghost predicate Ascending(numeric: bool, fs: Fields) {
    forall i, j :: 0 <= i < j < |fs| ==> Before(numeric, fs[i].0, fs[j].0)
  }

  ghost predicate SameElements(a: Fields, b: Fields) {
    forall e :: e in a <==> e in b
  }

  function Insert(numeric: bool, e: (Key, Json), fs: Fields): Fields {
    if fs == [] || Before(numeric, e.0, fs[0].0) then [e] + fs
    else [fs[0]] + Insert(numeric, e, fs[1..])
  }

  function Sort(numeric: bool, fs: Fields): (r: Fields)
    ensures forall e :: e in r ==> e in fs
  {
    if fs == [] then []
    else
      InsertElements(numeric, fs[0], Sort(numeric, fs[1..]));
      Insert(numeric, fs[0], Sort(numeric, fs[1..]))
  }

  lemma {:induction false} InsertElements(numeric: bool, e: (Key, Json), fs: Fields)
    ensures SameElements(Insert(numeric, e, fs), [e] + fs)
    decreases |fs|
  {
    if fs != [] {
      assert fs == [fs[0]] + fs[1..];
      if !Before(numeric, e.0, fs[0].0) { InsertElements(numeric, e, fs[1..]); }
    }
  }

  lemma {:induction false} InsertAscending(numeric: bool, e: (Key, Json), fs: Fields)
    requires Ascending(numeric, fs) && forall f :: f in fs ==> f.0 != e.0
    ensures Ascending(numeric, Insert(numeric, e, fs))
    decreases |fs|
  {
    if fs == [] {
    } else if Before(numeric, e.0, fs[0].0) {
      forall j | 0 <= j < |fs|
        ensures Before(numeric, e.0, fs[j].0)
      {
        if j > 0 { BeforeIsTotalOrder(numeric, e.0, fs[0].0, fs[j].0); }
      }
    } else {
      assert fs[0] in fs && forall f :: f in fs[1..] ==> f in fs;
      BeforeIsTotalOrder(numeric, e.0, fs[0].0, fs[0].0);
      InsertAscending(numeric, e, fs[1..]);
      InsertElements(numeric, e, fs[1..]);
      var r := Insert(numeric, e, fs[1..]);
      forall j | 0 <= j < |r|
        ensures Before(numeric, fs[0].0, r[j].0)
      {
        assert r[j] in [e] + fs[1..];
      }
    }
  }

  lemma {:induction false} SortSpec(numeric: bool, fs: Fields)
    requires DistinctKeys(fs)
    ensures Ascending(numeric, Sort(numeric, fs)) && SameElements(Sort(numeric, fs), fs)
    decreases |fs|
  {
    if fs != [] {
      assert fs == [fs[0]] + fs[1..];
      SortSpec(numeric, fs[1..]);
      InsertElements(numeric, fs[0], Sort(numeric, fs[1..]));
      InsertAscending(numeric, fs[0], Sort(numeric, fs[1..]));
    }
  }

  /** A strictly ascending list is determined by its elements. */
  lemma {:induction false} AscendingUnique(numeric: bool, a: Fields, b: Fields)
    requires Ascending(numeric, a) && Ascending(numeric, b) && SameElements(a, b)
    ensures a == b
    decreases |a|
  {
    if a == [] {
      if b != [] { FirstElement(b); }
    } else {
      assert a[0] in b && b != [];
      assert b[0] in a;
      BeforeIsTotalOrder(numeric, a[0].0, b[0].0, a[0].0);
      BeforeIsTotalOrder(numeric, b[0].0, a[0].0, b[0].0);
      assert a[0] == b[0];
      forall e
        ensures e in a[1..] <==> e in b[1..]
      {
        TailMember(numeric, a, e);
        TailMember(numeric, b, e);
      }
      AscendingUnique(numeric, a[1..], b[1..]);
      assert a == [a[0]] + a[1..] && b == [b[0]] + b[1..];
    }
  }

  lemma FirstElement(b: Fields)
    requires b != []
    ensures b[0] in b
  {
  }

  lemma TailMember(numeric: bool, a: Fields, e: (Key, Json))
    requires Ascending(numeric, a) && a != []
    ensures e in a[1..] <==> e in a && e != a[0]
  {
    BeforeIsTotalOrder(numeric, a[0].0, a[0].0, a[0].0);
    assert a == [a[0]] + a[1..];
  }

  // ---------- sortValue ----------

  /** `.filter(([, v]) => v !== undefined)` */
  function Kept(fs: Fields): (r: Fields)
    ensures forall e :: e in r <==> e in fs && e.1 != Undefined
  {
    if fs == [] then []
    else
      assert fs == fs[..|fs| - 1] + [fs[|fs| - 1]];
      Kept(fs[..|fs| - 1]) + (if fs[|fs| - 1].1 == Undefined then [] else [fs[|fs| - 1]])
  }

  function Select(index: bool, fs: Fields): (r: Fields)
    ensures forall e :: e in r <==> e in fs && IsIndex(e.0) == index
  {
    if fs == [] then []
    else
      assert fs == fs[..|fs| - 1] + [fs[|fs| - 1]];
      Select(index, fs[..|fs| - 1]) + (if IsIndex(fs[|fs| - 1].0) == index then [fs[|fs| - 1]] else [])
  }

  /** `Object.fromEntries`: the new object enumerates index keys numerically, then the rest as inserted. */
  function FromEntries(fs: Fields): Fields {
    Sort(true, Select(true, fs)) + Select(false, fs)
  }

  function SortValue(v: Json): Json
    decreases v
  {
    match v
    case Arr(items) => Arr(seq(|items|, i requires 0 <= i < |items| => SortValue(items[i])))
    case Obj(fields) =>
      var entries := Sort(false, Kept(fields));
      Obj(FromEntries(seq(|entries|, i requires 0 <= i < |entries| =>
        assert entries[i] in Kept(fields) && entries[i] in fields;
        (entries[i].0, SortValue(entries[i].1)))))
    case _ => v
  }

  // ---------- semantic equality ----------

  /** JavaScript objects have distinct keys, at every depth. */
  ghost predicate WellFormed(v: Json)
    decreases v
  {
    match v
    case Arr(items) => forall i :: 0 <= i < |items| ==> WellFormed(items[i])
    case Obj(fields) => DistinctKeys(fields) && forall i :: 0 <= i < |fields| ==> WellFormed(fields[i].1)
    case _ => true
  }

  /** Equal up to key order and undefined-valued fields, at every depth. */
  ghost predicate Equivalent(a: Json, b: Json)
    decreases a
  {
    if a.Arr? && b.Arr? then
      |a.items| == |b.items| && forall i :: 0 <= i < |a.items| ==> Equivalent(a.items[i], b.items[i])
    else if a.Obj? && b.Obj? then
      && (forall i :: 0 <= i < |a.fields| && a.fields[i].1 != Undefined ==>
            exists j :: 0 <= j < |b.fields| && b.fields[j].0 == a.fields[i].0
                        && Equivalent(a.fields[i].1, b.fields[j].1))
      && (forall j :: 0 <= j < |b.fields| && b.fields[j].1 != Undefined ==>
            exists i :: 0 <= i < |a.fields| && a.fields[i].0 == b.fields[j].0
                        && Equivalent(a.fields[i].1, b.fields[j].1))
    else a == b && !a.Arr? && !a.Obj?
  }

  // ---------- what the canonical fields are ----------

  /** The fields of the result before re-enumeration: sorted, undefined dropped, values canonical. */
  function SortedFields(fields: Fields): Fields {
    var entries := Sort(false, Kept(fields));
    seq(|entries|, i requires 0 <= i < |entries| => (entries[i].0, SortValue(entries[i].1)))
  }

  lemma SortValueOfObject(fields: Fields)
    ensures SortValue(Obj(fields)) == Obj(FromEntries(SortedFields(fields)))
  {
    hide FromEntries, Sort, Kept;
    var entries := Sort(false, Kept(fields));
    assert seq(|entries|, i requires 0 <= i < |entries| =>
             assert entries[i] in Kept(fields) && entries[i] in fields;
             (entries[i].0, SortValue(entries[i].1))) == SortedFields(fields);
  }

  /** e is a canonical field of the object: the key and canonical value of some defined field. */
  ghost predicate Canonical(fields: Fields, e: (Key, Json)) {
    exists i :: 0 <= i < |fields| && fields[i].1 != Undefined && e == (fields[i].0, SortValue(fields[i].1))
  }

  lemma {:induction false} KeptDistinct(fs: Fields)
    requires DistinctKeys(fs)
    ensures DistinctKeys(Kept(fs))
    decreases |fs|
  {
    if fs != [] {
      var n := |fs| - 1;
      KeptDistinct(fs[..n]);
      forall e | e in Kept(fs[..n])
        ensures e.0 != fs[n].0
      {
        assert e in fs[..n];
      }
    }
  }

  lemma SortedFieldsSpec(fields: Fields)
    requires DistinctKeys(fields)
    ensures Ascending(false, SortedFields(fields))
    ensures forall e :: e in SortedFields(fields) <==> Canonical(fields, e)
  {
    hide Sort, Kept, SortValue;
    var entries, r := Sort(false, Kept(fields)), SortedFields(fields);
    KeptDistinct(fields);
    SortSpec(false, Kept(fields));
    forall e
      ensures e in r <==> Canonical(fields, e)
    {
      if e in r {
        var j :| 0 <= j < |r| && r[j] == e;
        assert entries[j] in entries && entries[j] in fields;
        var i :| 0 <= i < |fields| && fields[i] == entries[j];
        assert e == (fields[i].0, SortValue(fields[i].1));
      }
      if Canonical(fields, e) {
        var i :| 0 <= i < |fields| && fields[i].1 != Undefined && e == (fields[i].0, SortValue(fields[i].1));
        assert fields[i] in fields && fields[i] in entries;
        var j :| 0 <= j < |entries| && entries[j] == fields[i];
        assert r[j] == e;
      }
    }
  }

  lemma AscendingDistinct(numeric: bool, fs: Fields)
    requires Ascending(numeric, fs)
    ensures DistinctKeys(fs)
  {
    forall i, j | 0 <= i < j < |fs|
      ensures fs[i].0 != fs[j].0
    {
      BeforeIsTotalOrder(numeric, fs[i].0, fs[i].0, fs[i].0);
    }
  }

  lemma {:induction false} SelectDistinct(index: bool, fs: Fields)
    requires DistinctKeys(fs)
    ensures DistinctKeys(Select(index, fs))
    decreases |fs|
  {
    if fs != [] {
      var n := |fs| - 1;
      SelectDistinct(index, fs[..n]);
      forall e | e in Select(index, fs[..n])
        ensures e.0 != fs[n].0
      {
        assert e in fs[..n];
      }
    }
  }

  /** Re-enumeration keeps every field, once. */
  lemma FromEntriesSpec(fs: Fields)
    requires DistinctKeys(fs)
    ensures SameElements(FromEntries(fs), fs) && DistinctKeys(FromEntries(fs))
  {
    hide Sort, Select, IsIndex;
    SelectDistinct(true, fs);
    SelectDistinct(false, fs);
    SortSpec(true, Select(true, fs));
    var a, b := Sort(true, Select(true, fs)), Select(false, fs);
    AscendingDistinct(true, a);
    forall e
      ensures e in a + b <==> e in fs
    {
      assert e in a + b <==> e in a || e in b;
    }
    forall x, y | 0 <= x < |a| && 0 <= y < |b|
      ensures a[x].0 != b[y].0
    {
      assert a[x] in Select(true, fs) && b[y] in b;
    }
  }

  lemma CanonicalFields(fields: Fields, e: (Key, Json))
    requires DistinctKeys(fields)
    ensures e in FromEntries(SortedFields(fields)) <==> Canonical(fields, e)
  {
    SortedFieldsSpec(fields);
    AscendingDistinct(false, SortedFields(fields));
    FromEntriesSpec(SortedFields(fields));
    hide SortedFields, FromEntries, Canonical;
  }

  // ---------- main results ----------

  /** Two trees have the same canonical form exactly when they are semantically equal. */
  lemma {:induction false} SortValueDecides(a: Json, b: Json)
    requires WellFormed(a) && WellFormed(b)
    ensures SortValue(a) == SortValue(b) <==> Equivalent(a, b)
    decreases a
  {
    if a.Arr? && b.Arr? {
      forall i | 0 <= i < |a.items| && |a.items| == |b.items|
        ensures SortValue(a.items[i]) == SortValue(b.items[i]) <==> Equivalent(a.items[i], b.items[i])
      {
        SortValueDecides(a.items[i], b.items[i]);
      }
      ArraysDecide(a, b);
    } else if a.Obj? && b.Obj? {
      forall i, j | 0 <= i < |a.fields| && 0 <= j < |b.fields|
        ensures SortValue(a.fields[i].1) == SortValue(b.fields[j].1) <==> Equivalent(a.fields[i].1, b.fields[j].1)
      {
        SortValueDecides(a.fields[i].1, b.fields[j].1);
      }
      ObjectsDecide(a, b);
    }
  }

  lemma ArraysDecide(a: Json, b: Json)
    requires a.Arr? && b.Arr?
    requires |a.items| == |b.items| ==> forall i :: 0 <= i < |a.items| ==>
               (SortValue(a.items[i]) == SortValue(b.items[i]) <==> Equivalent(a.items[i], b.items[i]))
    ensures SortValue(a) == SortValue(b) <==> Equivalent(a, b)
  {
    var x, y := SortValue(a).items, SortValue(b).items;
    assert |x| == |a.items| && |y| == |b.items|;
    if |x| == |y| {
      assert forall i :: 0 <= i < |x| ==> x[i] == SortValue(a.items[i]) && y[i] == SortValue(b.items[i]);
    }
  }

  /** Every defined field of a is found in b with an equal canonical value. */
  ghost predicate FieldsWithin(a: Fields, b: Fields) {
    forall i :: 0 <= i < |a| && a[i].1 != Undefined ==> Canonical(b, (a[i].0, SortValue(a[i].1)))
  }

  lemma ObjectsDecide(a: Json, b: Json)
    requires a.Obj? && b.Obj? && DistinctKeys(a.fields) && DistinctKeys(b.fields)
    requires forall i, j :: 0 <= i < |a.fields| && 0 <= j < |b.fields| ==>
               (SortValue(a.fields[i].1) == SortValue(b.fields[j].1) <==> Equivalent(a.fields[i].1, b.fields[j].1))
    ensures SortValue(a) == SortValue(b) <==> Equivalent(a, b)
  {
    SameFormSameFields(a.fields, b.fields);
    WithinIsEquivalent(a, b);
    hide SortValue, FieldsWithin, Equivalent;
  }

  lemma SameFormSameFields(a: Fields, b: Fields)
    requires DistinctKeys(a) && DistinctKeys(b)
    ensures SortValue(Obj(a)) == SortValue(Obj(b)) <==> FieldsWithin(a, b) && FieldsWithin(b, a)
  {
    SortValueOfObject(a);
    SortValueOfObject(b);
    var x, y := SortedFields(a), SortedFields(b);
    hide SortValue, FromEntries, SortedFields;
    forall e
      ensures e in FromEntries(x) <==> Canonical(a, e)
      ensures e in FromEntries(y) <==> Canonical(b, e)
    {
      CanonicalFields(a, e);
      CanonicalFields(b, e);
    }
    if FromEntries(x) == FromEntries(y) {
      forall e
        ensures Canonical(a, e) <==> Canonical(b, e)
      {
        assert e in FromEntries(x) <==> e in FromEntries(y);
      }
      assert forall i :: 0 <= i < |a| && a[i].1 != Undefined ==> Canonical(a, (a[i].0, SortValue(a[i].1)));
      assert forall i :: 0 <= i < |b| && b[i].1 != Undefined ==> Canonical(b, (b[i].0, SortValue(b[i].1)));
    }
    if FieldsWithin(a, b) && FieldsWithin(b, a) {
      SortedFieldsSpec(a);
      SortedFieldsSpec(b);
      AscendingUnique(false, x, y);
    }
  }

  lemma WithinIsEquivalent(a: Json, b: Json)
    requires a.Obj? && b.Obj?
    requires forall i, j :: 0 <= i < |a.fields| && 0 <= j < |b.fields| ==>
               (SortValue(a.fields[i].1) == SortValue(b.fields[j].1) <==> Equivalent(a.fields[i].1, b.fields[j].1))
    ensures FieldsWithin(a.fields, b.fields) && FieldsWithin(b.fields, a.fields) <==> Equivalent(a, b)
  {
    UndefinedStays(a.fields);
    UndefinedStays(b.fields);
    hide SortValue;
  }

  /** Only undefined has undefined as its canonical form. */
  lemma UndefinedStays(fs: Fields)
    ensures forall i :: 0 <= i < |fs| ==> (SortValue(fs[i].1) == Undefined <==> fs[i].1 == Undefined)
  {
  }

  /** The canonical form is a tree of the same meaning. */
  lemma {:induction false} SortValueKeepsMeaning(v: Json)
    requires WellFormed(v)
    ensures WellFormed(SortValue(v)) && Equivalent(SortValue(v), v)
    decreases v
  {
    if v.Arr? {
      forall i | 0 <= i < |v.items|
        ensures WellFormed(SortValue(v.items[i])) && Equivalent(SortValue(v.items[i]), v.items[i])
      {
        SortValueKeepsMeaning(v.items[i]);
      }
    } else if v.Obj? {
      forall i | 0 <= i < |v.fields|
        ensures WellFormed(SortValue(v.fields[i].1)) && Equivalent(SortValue(v.fields[i].1), v.fields[i].1)
      {
        SortValueKeepsMeaning(v.fields[i].1);
      }
      ObjectKeepsMeaning(v.fields);
    }
  }

  /** The canonical object has distinct keys, and its fields are exactly the canonical fields. */
  lemma CanonicalObject(fields: Fields)
    requires DistinctKeys(fields)
    ensures var r := FromEntries(SortedFields(fields));
            SortValue(Obj(fields)) == Obj(r) && DistinctKeys(r) && forall e :: e in r <==> Canonical(fields, e)
  {
    SortValueOfObject(fields);
    SortedFieldsSpec(fields);
    AscendingDistinct(false, SortedFields(fields));
    FromEntriesSpec(SortedFields(fields));
    hide SortValue, FromEntries, SortedFields, DistinctKeys, Canonical;
  }

  ghost predicate FieldsKeepMeaning(fields: Fields) {
    forall i :: 0 <= i < |fields| ==>
      WellFormed(SortValue(fields[i].1)) && Equivalent(SortValue(fields[i].1), fields[i].1)
  }

  lemma CanonicalFieldsWellFormed(fields: Fields, r: Fields)
    requires FieldsKeepMeaning(fields) && DistinctKeys(r) && forall e :: e in r <==> Canonical(fields, e)
    ensures WellFormed(Obj(r))
  {
    hide SortValue, Equivalent, DistinctKeys;
    forall i | 0 <= i < |r|
      ensures WellFormed(r[i].1)
    {
      assert r[i] in r;
      assert Canonical(fields, r[i]);
    }
    assert DistinctKeys(r);
  }

  lemma CanonicalFieldsEquivalent(fields: Fields, r: Fields)
    requires FieldsKeepMeaning(fields) && forall e :: e in r <==> Canonical(fields, e)
    ensures Equivalent(Obj(r), Obj(fields))
  {
    UndefinedStays(fields);
    hide SortValue, WellFormed;
    forall i | 0 <= i < |r|
      ensures exists j :: 0 <= j < |fields| && fields[j].0 == r[i].0 && Equivalent(r[i].1, fields[j].1)
    {
      assert r[i] in r;
      assert Canonical(fields, r[i]);
    }
    forall j | 0 <= j < |fields| && fields[j].1 != Undefined
      ensures exists i :: 0 <= i < |r| && r[i].0 == fields[j].0 && Equivalent(r[i].1, fields[j].1)
    {
      var e := (fields[j].0, SortValue(fields[j].1));
      assert Canonical(fields, e);
      var i :| 0 <= i < |r| && r[i] == e;
    }
  }

  lemma ObjectKeepsMeaning(fields: Fields)
    requires DistinctKeys(fields) && FieldsKeepMeaning(fields)
    ensures WellFormed(SortValue(Obj(fields))) && Equivalent(SortValue(Obj(fields)), Obj(fields))
  {
    CanonicalObject(fields);
    hide *;
    var r := FromEntries(SortedFields(fields));
    CanonicalFieldsWellFormed(fields, r);
    CanonicalFieldsEquivalent(fields, r);
  }

  /** Canonicalising twice changes nothing. */
  lemma SortValueIdempotent(v: Json)
    requires WellFormed(v)
    ensures SortValue(SortValue(v)) == SortValue(v)
  {
    SortValueKeepsMeaning(v);
    SortValueDecides(SortValue(v), v);
  }
}
