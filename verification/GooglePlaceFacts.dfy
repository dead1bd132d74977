/**
 The fact store behind Place Details (src/persistence/google-place-details-store.ts): two writers with
 different precedence over one append-only table with at most one current fact per (lead, type).
 */
module GooglePlaceFacts {
  import opened Wrappers
  import Text

  datatype FactType =
    | GooglePlaceId | BusinessName | CandidateWebsiteUrl | FormattedAddress | City | Country | Category
    | BusinessStatus | Rating | ReviewCount | Phone | OtherFact(name: string)

  datatype Source = GooglePlaces | Mock | Manual | Website

  // A row of lead_facts; its id is its position.
  datatype Row = Row(leadId: string, kind: FactType, value: string, source: Source,
                     current: bool, supersededBy: Option<nat>)

  type Table = seq<Row>

  // ---------- the repository ----------

  predicate Same(r: Row, leadId: string, kind: FactType) {
    r.leadId == leadId && r.kind == kind
  }

  /** getCurrentFact */
  function Current(t: Table, leadId: string, kind: FactType): (r: Option<nat>)
    ensures r.Some? ==> r.value < |t| && Same(t[r.value], leadId, kind) && t[r.value].current
    ensures r.None? ==> forall i :: 0 <= i < |t| ==> !(Same(t[i], leadId, kind) && t[i].current)
  {
    if t == [] then None
    else
      var n := |t| - 1;
      if Same(t[n], leadId, kind) && t[n].current then Some(n) else Current(t[..n], leadId, kind)
  }

  /** The two updates of writeCurrentFact on an existing row: demote the current one, link the unlinked ones. */
  function Demoted(r: Row, leadId: string, kind: FactType, id: nat): Row {
    if !Same(r, leadId, kind) then r
    else r.(current := false, supersededBy := if r.supersededBy.None? then Some(id) else r.supersededBy)
  }

  /** writeCurrentFact: demote, insert, link. */
  function WriteCurrent(t: Table, leadId: string, kind: FactType, value: string, source: Source): (r: Table)
    ensures |r| == |t| + 1
    ensures forall i :: 0 <= i < |t| ==> r[i] == Demoted(t[i], leadId, kind, |t|)
  {
    seq(|t|, i requires 0 <= i < |t| => Demoted(t[i], leadId, kind, |t|))
    + [Row(leadId, kind, value, source, true, None)]
  }

  /** Row j is the next row of row i's lead and type. */
  ghost predicate NextOf(t: Table, i: nat, j: nat) {
    && i < j < |t| && Same(t[j], t[i].leadId, t[i].kind)
    && forall k :: i < k < j ==> !Same(t[k], t[i].leadId, t[i].kind)
  }

  ghost predicate LastOf(t: Table, i: nat) {
    i < |t| && forall k :: i < k < |t| ==> !Same(t[k], t[i].leadId, t[i].kind)
  }

  ghost predicate RowChained(t: Table, i: nat)
    requires i < |t|
  {
    if t[i].current then t[i].supersededBy == None && LastOf(t, i)
    else t[i].supersededBy.Some? && NextOf(t, i, t[i].supersededBy.value)
  }

  /** The whole history of a (lead, type) is one chain: each row superseded by the next, the last current. */
  ghost predicate Chained(t: Table) {
    forall i {:trigger t[i]} :: 0 <= i < |t| ==> RowChained(t, i)
  }

  /** Chained tables satisfy the partial unique index: two current rows of one lead and type are one row. */
  lemma OneCurrentFact(t: Table, i: nat, j: nat)
    requires Chained(t) && i < |t| && j < |t| && t[i].current && t[j].current
    requires Same(t[j], t[i].leadId, t[i].kind)
    ensures i == j
  {
    assert LastOf(t, i) && LastOf(t, j);
  }

  /** In a chained table a (lead, type) without a current row has no row at all. */
  lemma {:induction false} NoCurrentNoRows(t: Table, leadId: string, kind: FactType, i: nat)
    requires Chained(t) && Current(t, leadId, kind).None? && i < |t|
    ensures !Same(t[i], leadId, kind)
    decreases |t| - i
  {
    if !t[i].current && Same(t[i], leadId, kind) {
      assert NextOf(t, i, t[i].supersededBy.value);
      NoCurrentNoRows(t, leadId, kind, t[i].supersededBy.value);
    }
  }

  lemma CurrentRowStaysChained(t: Table, leadId: string, kind: FactType, value: string, source: Source, i: nat)
    requires i < |t| && t[i].current && RowChained(t, i)
    ensures RowChained(WriteCurrent(t, leadId, kind, value, source), i)
  {
    if Same(t[i], leadId, kind) { assert NextOf(WriteCurrent(t, leadId, kind, value, source), i, |t|); }
  }

  lemma LinkedRowStaysChained(t: Table, leadId: string, kind: FactType, value: string, source: Source, i: nat)
    requires i < |t| && !t[i].current && RowChained(t, i)
    ensures RowChained(WriteCurrent(t, leadId, kind, value, source), i)
  {
    assert NextOf(t, i, t[i].supersededBy.value);
  }

  lemma WriteKeepsChain(t: Table, leadId: string, kind: FactType, value: string, source: Source)
    requires Chained(t)
    ensures Chained(WriteCurrent(t, leadId, kind, value, source))
  {
    var r := WriteCurrent(t, leadId, kind, value, source);
    assert forall i :: 0 <= i < |t| ==> RowChained(t, i);
    assert RowChained(r, |t|);
    forall i | 0 <= i < |r|
      ensures RowChained(r, i)
    {
      hide RowChained, WriteCurrent;
      if i < |t| {
        if t[i].current {
          CurrentRowStaysChained(t, leadId, kind, value, source, i);
        } else {
          LinkedRowStaysChained(t, leadId, kind, value, source, i);
        }
      }
    }
    hide WriteCurrent, NextOf, LastOf;
  }

  // ---------- what the two writers supply ----------

  datatype PlaceDetails = PlaceDetails(displayName: Option<string>, websiteUri: Option<string>,
                                       formattedAddress: Option<string>, locality: Option<string>,
                                       country: Option<string>, primaryType: Option<string>, firstType: Option<string>,
                                       businessStatus: Option<string>, rating: Option<string>,
                                       userRatingCount: Option<string>, nationalPhoneNumber: Option<string>)

  type Facts = seq<(FactType, string)>

  /** Only values that are present and not blank become facts, trimmed. */
  function Supplied(values: seq<(FactType, Option<string>)>): Facts {
    if values == [] then []
    else
      var (kind, raw) := values[0];
      (if raw.Some? && Text.Trim(raw.value) != "" then [(kind, Text.Trim(raw.value))] else []) + Supplied(values[1..])
  }

  function BuildGooglePlaceFacts(placeId: string, d: PlaceDetails, persistApprovedPhone: bool): Facts {
    Supplied([(GooglePlaceId, Some(placeId)), (BusinessName, d.displayName), (CandidateWebsiteUrl, d.websiteUri),
              (FormattedAddress, d.formattedAddress), (City, d.locality), (Country, d.country),
              (Category, if d.primaryType.Some? then d.primaryType else d.firstType),
              (BusinessStatus, d.businessStatus), (Rating, d.rating), (ReviewCount, d.userRatingCount),
              (Phone, if persistApprovedPhone then d.nationalPhoneNumber else None)])
  }

  function BuildBackfillFacts(d: PlaceDetails): Facts {
    Supplied([(Rating, d.rating), (ReviewCount, d.userRatingCount), (Phone, d.nationalPhoneNumber)])
  }

  ghost predicate DistinctKinds(facts: Facts) {
    forall i, j :: 0 <= i < j < |facts| ==> facts[i].0 != facts[j].0
  }

  lemma {:induction false} SuppliedListed(values: seq<(FactType, Option<string>)>)
    ensures forall f :: f in Supplied(values) ==> exists i :: 0 <= i < |values| && values[i].0 == f.0
    decreases |values|
  {
    if values != [] {
      var later, rest := values[1..], Supplied(values[1..]);
      SuppliedListed(later);
      forall f | f in Supplied(values)
        ensures exists i :: 0 <= i < |values| && values[i].0 == f.0
      {
        if f in rest {
          var i :| 0 <= i < |later| && later[i].0 == f.0;
          assert values[i + 1].0 == f.0;
        } else {
          assert values[0].0 == f.0;
        }
      }
    }
  }

  lemma FirstNotLater(values: seq<(FactType, Option<string>)>)
    requires values != [] && forall i, j :: 0 <= i < j < |values| ==> values[i].0 != values[j].0
    ensures forall f :: f in Supplied(values[1..]) ==> f.0 != values[0].0
  {
    var later := values[1..];
    SuppliedListed(later);
    hide Supplied;
    forall f | f in Supplied(later)
      ensures f.0 != values[0].0
    {
      var i :| 0 <= i < |later| && later[i].0 == f.0;
      assert values[i + 1].0 == f.0;
    }
  }

  lemma DistinctCons(first: (FactType, string), rest: Facts)
    requires DistinctKinds(rest) && forall f :: f in rest ==> f.0 != first.0
    ensures DistinctKinds([first] + rest)
  {
    var all := [first] + rest;
    assert forall k :: 0 < k < |all| ==> all[k] == rest[k - 1] && rest[k - 1] in rest;
  }

  lemma {:induction false} SuppliedKinds(values: seq<(FactType, Option<string>)>)
    ensures forall f :: f in Supplied(values) ==> exists i :: 0 <= i < |values| && values[i].0 == f.0
    ensures (forall i, j :: 0 <= i < j < |values| ==> values[i].0 != values[j].0) ==> DistinctKinds(Supplied(values))
    decreases |values|
  {
    SuppliedListed(values);
    if values == [] {
      assert Supplied(values) == [];
    } else if forall i, j :: 0 <= i < j < |values| ==> values[i].0 != values[j].0 {
      var all, rest, first := Supplied(values), Supplied(values[1..]), values[0].1;
      var value := Text.Trim(if first.Some? then first.value else "");
      FirstNotLater(values);
      SuppliedKinds(values[1..]);
      assert all == rest || all == [(values[0].0, value)] + rest by {
        assert [] + rest == rest;
        hide Text.Trim;
      }
      hide *;
      if all != rest { DistinctCons((values[0].0, value), rest); }
    }
  }

  lemma GoogleKinds(placeId: string, d: PlaceDetails, persistApprovedPhone: bool)
    ensures DistinctKinds(BuildGooglePlaceFacts(placeId, d, persistApprovedPhone))
  {
    hide Supplied, DistinctKinds, Text.Trim;
    SuppliedKinds([(GooglePlaceId, Some(placeId)), (BusinessName, d.displayName), (CandidateWebsiteUrl, d.websiteUri),
                   (FormattedAddress, d.formattedAddress), (City, d.locality), (Country, d.country),
                   (Category, if d.primaryType.Some? then d.primaryType else d.firstType),
                   (BusinessStatus, d.businessStatus), (Rating, d.rating), (ReviewCount, d.userRatingCount),
                   (Phone, if persistApprovedPhone then d.nationalPhoneNumber else None)]);
  }

  lemma BackfillKinds(d: PlaceDetails)
    ensures DistinctKinds(BuildBackfillFacts(d))
    ensures forall f :: f in BuildBackfillFacts(d) ==> f.0 in {Rating, ReviewCount, Phone}
  {
    hide Supplied, DistinctKinds, Text.Trim;
    SuppliedKinds([(Rating, d.rating), (ReviewCount, d.userRatingCount), (Phone, d.nationalPhoneNumber)]);
  }

  // ---------- the two writers ----------

  /** Whether persist leaves the current fact of this type alone. */
  predicate PersistSkips(t: Table, leadId: string, f: (FactType, string)) {
    var e := Current(t, leadId, f.0);
    e.Some? && (t[e.value].source != GooglePlaces || t[e.value].value == f.1)
  }

  function PersistFacts(t: Table, leadId: string, facts: Facts): Table
    decreases |facts|
  {
    if facts == [] then t
    else if PersistSkips(t, leadId, facts[0]) then PersistFacts(t, leadId, facts[1..])
    else PersistFacts(WriteCurrent(t, leadId, facts[0].0, facts[0].1, GooglePlaces), leadId, facts[1..])
  }

  datatype Backfilled = Backfilled(table: Table, written: seq<FactType>, skipped: seq<FactType>)

  function BackfillFacts(b: Backfilled, leadId: string, facts: Facts): Backfilled
    decreases |facts|
  {
    if facts == [] then b
    else if Current(b.table, leadId, facts[0].0).Some? then
      BackfillFacts(b.(skipped := b.skipped + [facts[0].0]), leadId, facts[1..])
    else
      BackfillFacts(b.(table := WriteCurrent(b.table, leadId, facts[0].0, facts[0].1, GooglePlaces),
                       written := b.written + [facts[0].0]), leadId, facts[1..])
  }

  datatype StoreError = PlaceBindingMismatch

  class FactStore {
    // Place id each lead is bound to.
    var placeOf: map<string, string>
    var rows: Table

    constructor (places: map<string, string>)
      ensures placeOf == places && rows == []
    {
      placeOf, rows := places, [];
    }

    predicate Bound(leadId: string, placeId: string)
      reads this
    {
      leadId in placeOf && placeOf[leadId] == placeId
    }

    method WriteCurrentFact(leadId: string, kind: FactType, value: string, source: Source)
      modifies this`rows
      ensures rows == WriteCurrent(old(rows), leadId, kind, value, source)
    {
      var id := |rows|;
      rows := seq(|rows|, i requires 0 <= i < |rows| reads this => Demoted(rows[i], leadId, kind, id));
      rows := rows + [Row(leadId, kind, value, source, true, None)];
    }

    method Persist(leadId: string, placeId: string, d: PlaceDetails, persistApprovedPhone: bool)
      returns (r: Result<nat, StoreError>)
      modifies this`rows
      ensures r == (if Bound(leadId, placeId) then Ok(|rows| - |old(rows)|) else Err(PlaceBindingMismatch))
      ensures rows == if Bound(leadId, placeId)
                      then PersistFacts(old(rows), leadId, BuildGooglePlaceFacts(placeId, d, persistApprovedPhone))
                      else old(rows)
    {
      if !(leadId in placeOf && placeOf[leadId] == placeId) { return Err(PlaceBindingMismatch); }
      var facts := BuildGooglePlaceFacts(placeId, d, persistApprovedPhone);
      var written := 0;
      var i := 0;
      while i < |facts|
        invariant 0 <= i <= |facts|
        invariant written == |rows| - |old(rows)|
        invariant PersistFacts(rows, leadId, facts[i..]) == PersistFacts(old(rows), leadId, facts)
      {
        var existing := Current(rows, leadId, facts[i].0);
        assert facts[i..][1..] == facts[i + 1..];
        if existing.Some? && rows[existing.value].source != GooglePlaces { i := i + 1; continue; }
        if existing.Some? && rows[existing.value].value == facts[i].1 { i := i + 1; continue; }
        WriteCurrentFact(leadId, facts[i].0, facts[i].1, GooglePlaces);
        written := written + 1;
        i := i + 1;
      }
      r := Ok(written);
    }

    method BackfillMissing(leadId: string, placeId: string, d: PlaceDetails)
      returns (r: Result<(seq<FactType>, seq<FactType>), StoreError>)
      modifies this`rows
      ensures var b := BackfillFacts(Backfilled(old(rows), [], []), leadId, BuildBackfillFacts(d));
              if Bound(leadId, placeId) then r == Ok((b.written, b.skipped)) && rows == b.table
              else r == Err(PlaceBindingMismatch) && rows == old(rows)
    {
      if !(leadId in placeOf && placeOf[leadId] == placeId) { return Err(PlaceBindingMismatch); }
      var facts := BuildBackfillFacts(d);
      var written, skipped := [], [];
      var i := 0;
      while i < |facts|
        invariant 0 <= i <= |facts|
        invariant BackfillFacts(Backfilled(rows, written, skipped), leadId, facts[i..])
               == BackfillFacts(Backfilled(old(rows), [], []), leadId, facts)
      {
        var existing := Current(rows, leadId, facts[i].0);
        assert facts[i..][1..] == facts[i + 1..];
        if existing.Some? {
          skipped := skipped + [facts[i].0];
          i := i + 1;
          continue;
        }
        WriteCurrentFact(leadId, facts[i].0, facts[i].1, GooglePlaces);
        written := written + [facts[i].0];
        i := i + 1;
      }
      r := Ok((written, skipped));
    }
  }

  // ---------- precedence ----------

  /** Row i is current, and not from Google. */
  predicate Foreign(t: Table, i: nat) {
    i < |t| && t[i].current && t[i].source != GooglePlaces
  }

  lemma {:induction false} CurrentAgrees(t: Table, t': Table, leadId: string, kind: FactType)
    requires |t| == |t'|
    requires forall i :: 0 <= i < |t| ==>
      (Same(t[i], leadId, kind) && t[i].current <==> Same(t'[i], leadId, kind) && t'[i].current)
    ensures Current(t, leadId, kind) == Current(t', leadId, kind)
  {
    if t != [] {
      var n := |t| - 1;
      assert forall i :: 0 <= i < n ==> t[..n][i] == t[i] && t'[..n][i] == t'[i];
      if !(Same(t[n], leadId, kind) && t[n].current) { CurrentAgrees(t[..n], t'[..n], leadId, kind); }
    }
  }

  /** A write makes its own row the current one of its lead and type, and moves no other current fact. */
  lemma CurrentAfterWrite(t: Table, leadId: string, kind: FactType, value: string, source: Source,
                          leadId': string, kind': FactType)
    ensures Current(WriteCurrent(t, leadId, kind, value, source), leadId', kind')
         == if leadId' == leadId && kind' == kind then Some(|t|) else Current(t, leadId', kind')
  {
    var r := WriteCurrent(t, leadId, kind, value, source);
    assert r[..|r| - 1] == r[..|t|];
    if !(leadId' == leadId && kind' == kind) {
      assert forall i :: 0 <= i < |t| ==> r[..|t|][i] == r[i];
      CurrentAgrees(t, r[..|t|], leadId', kind');
    }
  }

  /** The current fact of a foreign source survives any write that persist or backfillMissing decides on. */
  lemma GoogleWriteSparesForeign(t: Table, leadId: string, f: (FactType, string), i: nat)
    requires Chained(t) && Foreign(t, i) && !PersistSkips(t, leadId, f)
    ensures WriteCurrent(t, leadId, f.0, f.1, GooglePlaces)[i] == t[i]
  {
    if Same(t[i], leadId, f.0) { OneCurrentFact(t, Current(t, leadId, f.0).value, i); }
  }

  /** persist keeps the chains, and never touches a current row of another source or another lead. */
  lemma {:induction false} PersistSafe(t: Table, leadId: string, facts: Facts)
    requires Chained(t)
    ensures var r := PersistFacts(t, leadId, facts);
            && Chained(r) && |t| <= |r|
            && forall i: nat :: i < |t| && (Foreign(t, i) || t[i].leadId != leadId) ==> r[i] == t[i]
    decreases |facts|
  {
    if facts == [] {
    } else if PersistSkips(t, leadId, facts[0]) {
      PersistSafe(t, leadId, facts[1..]);
    } else {
      var t' := WriteCurrent(t, leadId, facts[0].0, facts[0].1, GooglePlaces);
      WriteKeepsChain(t, leadId, facts[0].0, facts[0].1, GooglePlaces);
      forall i: nat | i < |t| && (Foreign(t, i) || t[i].leadId != leadId)
        ensures t'[i] == t[i]
      {
        if Foreign(t, i) { GoogleWriteSparesForeign(t, leadId, facts[0], i); }
      }
      hide Chained, PersistSkips, WriteCurrent;
      PersistSafe(t', leadId, facts[1..]);
    }
  }

  /** persist leaves the current fact of a type it was not given alone. */
  lemma {:induction false} PersistLeavesUnsupplied(t: Table, leadId: string, facts: Facts, leadId': string,
                                                   kind: FactType)
    requires leadId' != leadId || forall f :: f in facts ==> f.0 != kind
    ensures var r := PersistFacts(t, leadId, facts);
            && Current(r, leadId', kind) == Current(t, leadId', kind)
            && |t| <= |r|
            && forall i :: 0 <= i < |t| && Same(t[i], leadId', kind) ==> r[i] == t[i]
    decreases |facts|
  {
    hide Current;
    if facts == [] {
    } else {
      assert facts[0] in facts;
      if PersistSkips(t, leadId, facts[0]) {
        PersistLeavesUnsupplied(t, leadId, facts[1..], leadId', kind);
      } else {
        CurrentAfterWrite(t, leadId, facts[0].0, facts[0].1, GooglePlaces, leadId', kind);
        var t' := WriteCurrent(t, leadId, facts[0].0, facts[0].1, GooglePlaces);
        hide PersistSkips;
        PersistLeavesUnsupplied(t', leadId, facts[1..], leadId', kind);
      }
    }
  }

  function PersistOne(t: Table, leadId: string, f: (FactType, string)): Table {
    if PersistSkips(t, leadId, f) then t else WriteCurrent(t, leadId, f.0, f.1, GooglePlaces)
  }

  lemma OneSettles(t: Table, leadId: string, f: (FactType, string))
    ensures PersistSkips(PersistOne(t, leadId, f), leadId, f)
  {
    CurrentAfterWrite(t, leadId, f.0, f.1, GooglePlaces, leadId, f.0);
    hide Current;
  }

  lemma StaysSettled(t: Table, leadId: string, facts: Facts, f: (FactType, string))
    requires PersistSkips(t, leadId, f) && forall x :: x in facts ==> x.0 != f.0
    ensures PersistSkips(PersistFacts(t, leadId, facts), leadId, f)
  {
    PersistLeavesUnsupplied(t, leadId, facts, leadId, f.0);
    hide PersistFacts;
  }

  /**
   After persist, the current fact of every supplied type is another source's, or holds the supplied value: nothing is
   left to write for it.
   */
  lemma {:induction false} PersistSettles(t: Table, leadId: string, facts: Facts, k: nat)
    requires DistinctKinds(facts) && k < |facts|
    ensures PersistSkips(PersistFacts(t, leadId, facts), leadId, facts[k])
    decreases |facts|
  {
    hide PersistSkips, WriteCurrent;
    var rest := facts[1..];
    var t' := PersistOne(t, leadId, facts[0]);
    assert PersistFacts(t, leadId, facts) == PersistFacts(t', leadId, rest);
    hide PersistOne, PersistFacts;
    if k == 0 {
      OneSettles(t, leadId, facts[0]);
      StaysSettled(t', leadId, rest, facts[0]);
    } else {
      PersistSettles(t', leadId, rest, k - 1);
    }
  }

  lemma {:induction false} AllSkipped(t: Table, leadId: string, facts: Facts)
    requires forall k :: 0 <= k < |facts| ==> PersistSkips(t, leadId, facts[k])
    ensures PersistFacts(t, leadId, facts) == t
    decreases |facts|
  {
    if facts != [] {
      hide PersistSkips;
      assert forall k :: 0 <= k < |facts[1..]| ==> facts[1..][k] == facts[k + 1];
      AllSkipped(t, leadId, facts[1..]);
    }
  }

  /** Repeating persist with the same Place Details writes nothing. */
  lemma PersistTwice(t: Table, leadId: string, placeId: string, d: PlaceDetails, persistApprovedPhone: bool)
    ensures var facts := BuildGooglePlaceFacts(placeId, d, persistApprovedPhone);
            PersistFacts(PersistFacts(t, leadId, facts), leadId, facts) == PersistFacts(t, leadId, facts)
  {
    var facts := BuildGooglePlaceFacts(placeId, d, persistApprovedPhone);
    GoogleKinds(placeId, d, persistApprovedPhone);
    hide BuildGooglePlaceFacts, PersistFacts, PersistSkips;
    var r := PersistFacts(t, leadId, facts);
    forall k | 0 <= k < |facts|
      ensures PersistSkips(r, leadId, facts[k])
    {
      PersistSettles(t, leadId, facts, k);
    }
    AllSkipped(r, leadId, facts);
  }

  // ---------- the missing-only backfill ----------

  /** The supplied facts whose type has (want) or lacks (not want) a current fact in t. */
  function Having(t: Table, leadId: string, facts: Facts, want: bool): Facts {
    if facts == [] then []
    else (if Current(t, leadId, facts[0].0).Some? == want then [facts[0]] else []) + Having(t, leadId, facts[1..], want)
  }

  function Kinds(facts: Facts): seq<FactType> {
    if facts == [] then [] else [facts[0].0] + Kinds(facts[1..])
  }

  function NewRows(leadId: string, facts: Facts): Table {
    if facts == [] then []
    else [Row(leadId, facts[0].0, facts[0].1, GooglePlaces, true, None)] + NewRows(leadId, facts[1..])
  }

  lemma {:induction false} HavingAfterWrite(t: Table, leadId: string, f: (FactType, string), facts: Facts, want: bool)
    requires forall k :: 0 <= k < |facts| ==> facts[k].0 != f.0
    ensures Having(WriteCurrent(t, leadId, f.0, f.1, GooglePlaces), leadId, facts, want)
         == Having(t, leadId, facts, want)
    decreases |facts|
  {
    if facts != [] {
      CurrentAfterWrite(t, leadId, f.0, f.1, GooglePlaces, leadId, facts[0].0);
      hide Current, WriteCurrent;
      HavingAfterWrite(t, leadId, f, facts[1..], want);
    }
  }

  /** Writing a missing fact only appends its row. */
  lemma WriteMissing(t: Table, leadId: string, f: (FactType, string))
    requires Chained(t) && Current(t, leadId, f.0).None?
    ensures WriteCurrent(t, leadId, f.0, f.1, GooglePlaces) == t + NewRows(leadId, [f])
  {
    forall i: nat | i < |t|
      ensures !Same(t[i], leadId, f.0)
    {
      NoCurrentNoRows(t, leadId, f.0, i);
    }
  }

  lemma HavingStep(t: Table, leadId: string, facts: Facts, want: bool)
    requires facts != []
    ensures if Current(t, leadId, facts[0].0).Some? == want then
              var rest := Having(t, leadId, facts[1..], want);
              && Having(t, leadId, facts, want) == [facts[0]] + rest
              && Kinds(Having(t, leadId, facts, want)) == [facts[0].0] + Kinds(rest)
              && NewRows(leadId, Having(t, leadId, facts, want)) == NewRows(leadId, [facts[0]]) + NewRows(leadId, rest)
            else Having(t, leadId, facts, want) == Having(t, leadId, facts[1..], want)
  {
    hide Current;
    var rest := Having(t, leadId, facts[1..], want);
    assert ([facts[0]] + rest)[1..] == rest;
  }

  lemma RestDistinct(facts: Facts)
    requires facts != [] && DistinctKinds(facts)
    ensures DistinctKinds(facts[1..])
  {
  }

  lemma BackfillSkipStep(b: Backfilled, leadId: string, facts: Facts)
    requires facts != [] && Current(b.table, leadId, facts[0].0).Some?
    ensures BackfillFacts(b, leadId, facts)
         == BackfillFacts(b.(skipped := b.skipped + [facts[0].0]), leadId, facts[1..])
  {
    hide Current;
  }

  lemma BackfillWriteStep(b: Backfilled, leadId: string, facts: Facts)
    requires Chained(b.table) && DistinctKinds(facts) && facts != [] && Current(b.table, leadId, facts[0].0).None?
    ensures var t' := WriteCurrent(b.table, leadId, facts[0].0, facts[0].1, GooglePlaces);
            && t' == b.table + NewRows(leadId, [facts[0]])
            && BackfillFacts(b, leadId, facts)
               == BackfillFacts(Backfilled(t', b.written + [facts[0].0], b.skipped), leadId, facts[1..])
            && Having(t', leadId, facts[1..], false) == Having(b.table, leadId, facts[1..], false)
            && Having(t', leadId, facts[1..], true) == Having(b.table, leadId, facts[1..], true)
  {
    WriteMissing(b.table, leadId, facts[0]);
    hide Chained, WriteCurrent, NewRows;
    HavingAfterWrite(b.table, leadId, facts[0], facts[1..], false);
    HavingAfterWrite(b.table, leadId, facts[0], facts[1..], true);
  }

  /**
   The whole effect of backfillMissing, read off the table it starts from: it appends one row per supplied type that has
   no current fact, leaves every existing row as it was, and reports the supplied types split in two.
   */
  lemma {:induction false} BackfillExactly(b: Backfilled, leadId: string, facts: Facts)
    requires Chained(b.table) && DistinctKinds(facts)
    ensures var r := BackfillFacts(b, leadId, facts);
            && r.table == b.table + NewRows(leadId, Having(b.table, leadId, facts, false))
            && r.written == b.written + Kinds(Having(b.table, leadId, facts, false))
            && r.skipped == b.skipped + Kinds(Having(b.table, leadId, facts, true))
            && Chained(r.table)
    decreases |facts|
  {
    if facts == [] {
      hide Chained, Current;
      assert Having(b.table, leadId, facts, false) == Having(b.table, leadId, facts, true) == [];
    } else {
      hide *;
      HavingStep(b.table, leadId, facts, false);
      HavingStep(b.table, leadId, facts, true);
      RestDistinct(facts);
      if Current(b.table, leadId, facts[0].0).Some? {
        BackfillSkipStep(b, leadId, facts);
        BackfillExactly(b.(skipped := b.skipped + [facts[0].0]), leadId, facts[1..]);
        Regroup(b.skipped, [facts[0].0], Kinds(Having(b.table, leadId, facts[1..], true)));
      } else {
        BackfillWriteStep(b, leadId, facts);
        WriteKeepsChain(b.table, leadId, facts[0].0, facts[0].1, GooglePlaces);
        var t' := WriteCurrent(b.table, leadId, facts[0].0, facts[0].1, GooglePlaces);
        BackfillExactly(Backfilled(t', b.written + [facts[0].0], b.skipped), leadId, facts[1..]);
        var rest := Having(b.table, leadId, facts[1..], false);
        Regroup(b.table, NewRows(leadId, [facts[0]]), NewRows(leadId, rest));
        Regroup(b.written, [facts[0].0], Kinds(rest));
      }
    }
  }

  lemma Regroup<T>(a: seq<T>, b: seq<T>, c: seq<T>)
    ensures a + b + c == a + (b + c)
  {
  }

  lemma {:induction false} HavingSplits(t: Table, leadId: string, facts: Facts)
    ensures multiset(Kinds(Having(t, leadId, facts, false))) + multiset(Kinds(Having(t, leadId, facts, true)))
         == multiset(Kinds(facts))
  {
    if facts != [] {
      HavingSplits(t, leadId, facts[1..]);
      HavingStep(t, leadId, facts, false);
      HavingStep(t, leadId, facts, true);
      assert Kinds(facts) == [facts[0].0] + Kinds(facts[1..]);
      hide Current, Having, Kinds, NewRows;
    }
  }

  lemma {:induction false} HavingOnly(t: Table, leadId: string, facts: Facts, want: bool)
    ensures forall x :: x in Having(t, leadId, facts, want) ==> x in facts && Current(t, leadId, x.0).Some? == want
    ensures (forall f :: f in facts ==> Current(t, leadId, f.0).Some? == want) ==>
              Having(t, leadId, facts, want) == facts
    ensures (forall f :: f in facts ==> Current(t, leadId, f.0).Some? != want) ==> Having(t, leadId, facts, want) == []
  {
    if facts != [] {
      hide Current;
      HavingOnly(t, leadId, facts[1..], want);
      assert facts[0] in facts && facts == [facts[0]] + facts[1..];
    }
  }

  lemma {:induction false} NewRowsOf(leadId: string, facts: Facts)
    ensures |NewRows(leadId, facts)| == |facts|
    ensures forall i :: 0 <= i < |facts| ==>
      NewRows(leadId, facts)[i] == Row(leadId, facts[i].0, facts[i].1, GooglePlaces, true, None)
  {
    if facts != [] { NewRowsOf(leadId, facts[1..]); }
  }

  lemma {:induction false} KindsOf(facts: Facts)
    ensures |Kinds(facts)| == |facts|
    ensures forall i :: 0 <= i < |facts| ==> Kinds(facts)[i] == facts[i].0
  {
    if facts != [] { KindsOf(facts[1..]); }
  }

  /** Each row backfillMissing appends is a current Google row of a supplied type that had no current fact. */
  ghost predicate FilledIn(t: Table, leadId: string, facts: Facts, row: Row) {
    && row == Row(leadId, row.kind, row.value, GooglePlaces, true, None)
    && row.kind in {Rating, ReviewCount, Phone} && Current(t, leadId, row.kind).None?
    && (row.kind, row.value) in facts
  }

  lemma AppendedIsFilledIn(t: Table, leadId: string, facts: Facts, f: (FactType, string))
    requires f in facts && f.0 in {Rating, ReviewCount, Phone} && Current(t, leadId, f.0).None?
    ensures FilledIn(t, leadId, facts, Row(leadId, f.0, f.1, GooglePlaces, true, None))
  {
    hide Current;
  }

  lemma BackfillAppends(t: Table, leadId: string, d: PlaceDetails)
    requires Chained(t)
    ensures var facts := BuildBackfillFacts(d);
            var r := BackfillFacts(Backfilled(t, [], []), leadId, facts).table;
            && Chained(r) && t <= r
            && forall i :: |t| <= i < |r| ==> FilledIn(t, leadId, facts, r[i])
  {
    var facts := BuildBackfillFacts(d);
    BackfillKinds(d);
    hide *;
    BackfillExactly(Backfilled(t, [], []), leadId, facts);
    var missing := Having(t, leadId, facts, false);
    HavingOnly(t, leadId, facts, false);
    NewRowsOf(leadId, missing);
    var r := BackfillFacts(Backfilled(t, [], []), leadId, facts).table;
    forall i | |t| <= i < |r|
      ensures FilledIn(t, leadId, facts, r[i])
    {
      assert missing[i - |t|] in missing;
      AppendedIsFilledIn(t, leadId, facts, missing[i - |t|]);
    }
  }

  /**
   backfillMissing as a whole, for any Place Details response: existing rows keep every field, each appended row is a
   current Google row of this lead and of type rating, review_count or phone that had no current fact, and the written
   and skipped lists together are exactly the supplied types.
   */
  lemma BackfillIsMissingOnly(t: Table, leadId: string, d: PlaceDetails)
    requires Chained(t)
    ensures var facts := BuildBackfillFacts(d);
            var r := BackfillFacts(Backfilled(t, [], []), leadId, facts);
            && Chained(r.table) && t <= r.table
            && (forall i :: |t| <= i < |r.table| ==> FilledIn(t, leadId, facts, r.table[i]))
            && (forall k :: k in r.written ==> Current(t, leadId, k).None?)
            && (forall k :: k in r.skipped ==> Current(t, leadId, k).Some?)
            && multiset(r.written) + multiset(r.skipped) == multiset(Kinds(facts))
  {
    hide *;
    BackfillAppends(t, leadId, d);
    var facts := BuildBackfillFacts(d);
    BackfillKinds(d);
    BackfillExactly(Backfilled(t, [], []), leadId, facts);
    HavingSplits(t, leadId, facts);
    var r := BackfillFacts(Backfilled(t, [], []), leadId, facts);
    assert r.written == Kinds(Having(t, leadId, facts, false));
    assert r.skipped == Kinds(Having(t, leadId, facts, true));
    KindsHaving(t, leadId, facts, false);
    KindsHaving(t, leadId, facts, true);
  }

  lemma KindsHaving(t: Table, leadId: string, facts: Facts, want: bool)
    ensures forall k :: k in Kinds(Having(t, leadId, facts, want)) ==> Current(t, leadId, k).Some? == want
  {
    hide *;
    var chosen := Having(t, leadId, facts, want);
    HavingOnly(t, leadId, facts, want);
    KindsOf(chosen);
    forall k | k in Kinds(chosen)
      ensures Current(t, leadId, k).Some? == want
    {
      var j :| 0 <= j < |chosen| && Kinds(chosen)[j] == k;
      assert chosen[j] in chosen;
    }
  }

  /** After a write the type has a current fact, and no type loses one. */
  lemma {:induction false} BackfillFills(b: Backfilled, leadId: string, facts: Facts, kind: FactType)
    ensures var r := BackfillFacts(b, leadId, facts).table;
            (Current(b.table, leadId, kind).Some? || exists f :: f in facts && f.0 == kind)
            <==> Current(r, leadId, kind).Some?
    decreases |facts|
  {
    if facts != [] {
      assert facts == [facts[0]] + facts[1..];
      if Current(b.table, leadId, facts[0].0).Some? {
        hide Current;
        BackfillFills(b.(skipped := b.skipped + [facts[0].0]), leadId, facts[1..], kind);
      } else {
        CurrentAfterWrite(b.table, leadId, facts[0].0, facts[0].1, GooglePlaces, leadId, kind);
        hide Current, WriteCurrent;
        var t' := WriteCurrent(b.table, leadId, facts[0].0, facts[0].1, GooglePlaces);
        BackfillFills(Backfilled(t', b.written + [facts[0].0], b.skipped), leadId, facts[1..], kind);
      }
    }
  }

  /** Repeating backfillMissing writes nothing and reports every supplied type as skipped. */
  lemma BackfillTwice(t: Table, leadId: string, d: PlaceDetails)
    requires Chained(t)
    ensures var facts := BuildBackfillFacts(d);
            var first := BackfillFacts(Backfilled(t, [], []), leadId, facts);
            BackfillFacts(Backfilled(first.table, [], []), leadId, facts)
            == Backfilled(first.table, [], Kinds(facts))
  {
    var facts := BuildBackfillFacts(d);
    BackfillKinds(d);
    hide *;
    var first := BackfillFacts(Backfilled(t, [], []), leadId, facts);
    BackfillExactly(Backfilled(t, [], []), leadId, facts);
    BackfillExactly(Backfilled(first.table, [], []), leadId, facts);
    forall f | f in facts
      ensures Current(first.table, leadId, f.0).Some?
    {
      BackfillFills(Backfilled(t, [], []), leadId, facts, f.0);
    }
    HavingOnly(first.table, leadId, facts, true);
    HavingOnly(first.table, leadId, facts, false);
    NewRowsOf(leadId, []);
    KindsOf([]);
  }

  // ---------- any serial history ----------

  /** Transactions that do not overlap: the two Google writers, and writes of any other provenance. */
  datatype Op =
    | PersistOp(leadId: string, placeId: string, details: PlaceDetails, persistApprovedPhone: bool)
    | BackfillOp(leadId: string, placeId: string, details: PlaceDetails)
    | OtherOp(leadId: string, kind: FactType, value: string, source: Source)

  function Applied(t: Table, op: Op): Table {
    match op
    case PersistOp(l, p, d, phone) => PersistFacts(t, l, BuildGooglePlaceFacts(p, d, phone))
    case BackfillOp(l, _, d) => BackfillFacts(Backfilled(t, [], []), l, BuildBackfillFacts(d)).table
    case OtherOp(l, kind, value, source) => WriteCurrent(t, l, kind, value, source)
  }

  function Run(t: Table, ops: seq<Op>): Table
    decreases |ops|
  {
    if ops == [] then t else Run(Applied(t, ops[0]), ops[1..])
  }

  lemma OneOpIsSafe(t: Table, op: Op, i: nat)
    requires Chained(t)
    ensures var r := Applied(t, op);
            && Chained(r) && |t| <= |r|
            && (Foreign(t, i) && !(op.OtherOp? && Same(t[i], op.leadId, op.kind)) ==> r[i] == t[i])
  {
    hide Chained, Current;
    match op
    case PersistOp(l, p, d, phone) => {
      hide BuildGooglePlaceFacts;
      PersistSafe(t, l, BuildGooglePlaceFacts(p, d, phone));
    }
    case BackfillOp(l, _, d) => {
      hide BuildBackfillFacts;
      BackfillIsMissingOnly(t, l, d);
    }
    case OtherOp(l, kind, value, source) => WriteKeepsChain(t, l, kind, value, source);
  }

  /**
   Over any serial history of the two Google writers mixed with writes of other provenance: every (lead, type) keeps a
   single chain, hence at most one current fact, and a current fact from a source other than Google stays exactly as
   it is until a write that is not Google's replaces it.
   */
  lemma {:induction false} HistoryKeepsPrecedence(t: Table, ops: seq<Op>, i: nat)
    requires Chained(t)
    ensures Chained(Run(t, ops)) && |t| <= |Run(t, ops)|
    ensures Foreign(t, i) && (forall op :: op in ops ==> !(op.OtherOp? && Same(t[i], op.leadId, op.kind)))
            ==> Run(t, ops)[i] == t[i]
    decreases |ops|
  {
    if ops != [] {
      OneOpIsSafe(t, ops[0], i);
      hide Chained, Applied, Same;
      var rest := ops[1..];
      assert ops == [ops[0]] + rest && ops[0] in ops;
      HistoryKeepsPrecedence(Applied(t, ops[0]), rest, i);
    }
  }
}
