/**
 Which field of a Place Details response ends up as which fact (src/persistence/google-place-details-store.ts), for both
 writers and field by field.
 */
module GooglePlaceFields {
  import opened Wrappers
  import opened GooglePlaceFacts
  import Text

  /** What a field is worth as a fact: its text without white space around it, unless nothing is left. */
  function Worth(field: Option<string>): Option<string> {
    if field.None? || Text.Trim(field.value) == "" then None else Some(Text.Trim(field.value))
  }

  /** The facts of this lead and type, and the current one, are what they were. */
  ghost predicate Untouched(t: Table, r: Table, leadId: string, kind: FactType) {
    && |t| <= |r| && Current(r, leadId, kind) == Current(t, leadId, kind)
    && (forall i :: 0 <= i < |t| && Same(t[i], leadId, kind) ==> r[i] == t[i])
    && (forall i :: 0 <= i < |r| && Same(r[i], leadId, kind) ==> i < |t| && r[i] == t[i])
  }

  /** The current fact of this lead and type is now a new Google fact with this value. */
  ghost predicate Written(r: Table, leadId: string, kind: FactType, value: string) {
    && Current(r, leadId, kind).Some?
    && r[Current(r, leadId, kind).value] == Row(leadId, kind, value, GooglePlaces, true, None)
  }

  /** persist, on one type: a current fact of another source or of the same value stands, anything else is replaced. */
  ghost predicate Persisted(t: Table, r: Table, leadId: string, kind: FactType, value: Option<string>) {
    var before := Current(t, leadId, kind);
    if value.None? || (before.Some? && (t[before.value].source != GooglePlaces || t[before.value].value == value.value))
    then Untouched(t, r, leadId, kind)
    else Written(r, leadId, kind, value.value)
  }

  /** backfillMissing, on one type: a current fact stands, whatever its source, and only a missing one is written. */
  ghost predicate FilledWhenMissing(t: Table, b: Backfilled, leadId: string, kind: FactType, value: Option<string>) {
    && (kind in b.written <==> value.Some? && Current(t, leadId, kind).None?)
    && (kind in b.skipped <==> value.Some? && Current(t, leadId, kind).Some?)
    && if kind in b.written then Written(b.table, leadId, kind, value.value)
       else Untouched(t, b.table, leadId, kind)
  }

  // ---------- what is supplied ----------

  function Given(facts: Facts, kind: FactType): Option<string> {
    if facts == [] then None else if facts[0].0 == kind then Some(facts[0].1) else Given(facts[1..], kind)
  }

  lemma {:induction false} GivenIsIn(facts: Facts, kind: FactType)
    ensures Given(facts, kind).Some? ==> (kind, Given(facts, kind).value) in facts
    ensures Given(facts, kind).None? ==> forall f :: f in facts ==> f.0 != kind
  {
    if facts != [] { GivenIsIn(facts[1..], kind); }
  }

  ghost predicate EachOnce(values: seq<(FactType, Option<string>)>) {
    forall j, k :: 0 <= j < k < |values| ==> values[j].0 != values[k].0
  }

  /** Supplying a list of fields of different types gives each type just what its field is worth. */
  lemma {:induction false} SuppliedGives(values: seq<(FactType, Option<string>)>, i: nat, kind: FactType,
                                         field: Option<string>)
    requires EachOnce(values) && i < |values| && values[i] == (kind, field)
    ensures Given(Supplied(values), kind) == Worth(field)
    decreases |values|
  {
    hide Text.Trim;
    var rest := Supplied(values[1..]);
    if i > 0 {
      assert values[1..][i - 1] == values[i];
      SuppliedGives(values[1..], i - 1, kind, field);
      SkipFirst(rest, values[0].0, Text.Trim(if values[0].1.Some? then values[0].1.value else ""), values[i].0);
      assert [] + rest == rest;
    } else {
      SuppliedKinds(values[1..]);
      forall f | f in rest
        ensures f.0 != values[0].0
      {
        var k :| 0 <= k < |values[1..]| && values[1..][k].0 == f.0;
        assert values[k + 1].0 == f.0;
      }
      GivenIsIn(rest, values[0].0);
      assert [] + rest == rest;
    }
  }

  lemma SkipFirst(rest: Facts, other: FactType, value: string, kind: FactType)
    requires other != kind
    ensures Given([(other, value)] + rest, kind) == Given(rest, kind)
  {
    assert ([(other, value)] + rest)[1..] == rest;
  }

  lemma {:induction false} NotListedNotGiven(values: seq<(FactType, Option<string>)>, kind: FactType)
    requires forall i :: 0 <= i < |values| ==> values[i].0 != kind
    ensures Given(Supplied(values), kind) == None
  {
    SuppliedKinds(values);
    GivenIsIn(Supplied(values), kind);
    hide Supplied, Given;
  }

  // ---------- persist ----------

  lemma UntouchedByOther(t: Table, leadId: string, f: (FactType, string), kind: FactType)
    requires f.0 != kind
    ensures Untouched(t, WriteCurrent(t, leadId, f.0, f.1, GooglePlaces), leadId, kind)
  {
    CurrentAfterWrite(t, leadId, f.0, f.1, GooglePlaces, leadId, kind);
    hide Current;
  }

  lemma UntouchedThen(t: Table, m: Table, r: Table, leadId: string, kind: FactType, value: Option<string>)
    requires Untouched(t, m, leadId, kind) && Persisted(m, r, leadId, kind, value)
    ensures Persisted(t, r, leadId, kind, value)
  {
    hide Current;
  }

  lemma RestUntouched(t: Table, leadId: string, facts: Facts, kind: FactType)
    requires forall f :: f in facts ==> f.0 != kind
    ensures Untouched(t, PersistFacts(t, leadId, facts), leadId, kind)
    decreases |facts|
  {
    hide Current;
    if facts != [] {
      assert facts[0] in facts;
      if PersistSkips(t, leadId, facts[0]) {
        RestUntouched(t, leadId, facts[1..], kind);
      } else {
        UntouchedByOther(t, leadId, facts[0], kind);
        RestUntouched(WriteCurrent(t, leadId, facts[0].0, facts[0].1, GooglePlaces), leadId, facts[1..], kind);
        hide PersistSkips, PersistFacts, WriteCurrent;
      }
    }
  }

  lemma WriteIsCurrent(t: Table, leadId: string, f: (FactType, string))
    ensures Written(WriteCurrent(t, leadId, f.0, f.1, GooglePlaces), leadId, f.0, f.1)
  {
    CurrentAfterWrite(t, leadId, f.0, f.1, GooglePlaces, leadId, f.0);
    hide Current;
  }

  lemma WrittenThenUntouched(m: Table, r: Table, leadId: string, kind: FactType, value: string)
    requires Written(m, leadId, kind, value) && Untouched(m, r, leadId, kind)
    ensures Written(r, leadId, kind, value)
  {
  }

  /** persist treats each type by what it is given for it, whatever else it is given. */
  lemma {:induction false} PersistsGiven(t: Table, leadId: string, facts: Facts, kind: FactType)
    requires DistinctKinds(facts)
    ensures Persisted(t, PersistFacts(t, leadId, facts), leadId, kind, Given(facts, kind))
    decreases |facts|
  {
    hide Current, WriteCurrent;
    if facts != [] {
      var f, rest := facts[0], facts[1..];
      var t1 := PersistOne(t, leadId, f);
      var r := PersistFacts(t1, leadId, rest);
      assert PersistFacts(t, leadId, facts) == r;
      if f.0 == kind {
        RestUntouched(t1, leadId, rest, kind);
        if !PersistSkips(t, leadId, f) {
          WriteIsCurrent(t, leadId, f);
          WrittenThenUntouched(t1, r, leadId, kind, f.1);
        }
      } else {
        assert Untouched(t, t1, leadId, kind) by {
          if !PersistSkips(t, leadId, f) { UntouchedByOther(t, leadId, f, kind); }
        }
        PersistsGiven(t1, leadId, rest, kind);
        UntouchedThen(t, t1, r, leadId, kind, Given(rest, kind));
      }
    }
  }

  lemma NoneWorthNothing()
    ensures Worth(None) == None
  {
  }

  function Fields(placeId: string, d: PlaceDetails, approved: bool): (values: seq<(FactType, Option<string>)>)
    ensures |values| == 11 && EachOnce(values)
  {
    [(GooglePlaceId, Some(placeId)), (BusinessName, d.displayName), (CandidateWebsiteUrl, d.websiteUri),
     (FormattedAddress, d.formattedAddress), (City, d.locality), (Country, d.country),
     (Category, if d.primaryType.Some? then d.primaryType else d.firstType),
     (BusinessStatus, d.businessStatus), (Rating, d.rating), (ReviewCount, d.userRatingCount),
     (Phone, if approved then d.nationalPhoneNumber else None)]
  }

  lemma FieldsAreSupplied(placeId: string, d: PlaceDetails, approved: bool)
    ensures BuildGooglePlaceFacts(placeId, d, approved) == Supplied(Fields(placeId, d, approved))
    ensures forall f :: f in Fields(placeId, d, approved) ==> !f.0.OtherFact?
  {
    hide Supplied;
  }

  lemma FieldsByPlace(placeId: string, d: PlaceDetails, approved: bool)
    ensures var values := Fields(placeId, d, approved);
            && values[0] == (GooglePlaceId, Some(placeId)) && values[1] == (BusinessName, d.displayName)
            && values[2] == (CandidateWebsiteUrl, d.websiteUri) && values[3] == (FormattedAddress, d.formattedAddress)
            && values[4] == (City, d.locality) && values[5] == (Country, d.country)
            && values[6] == (Category, if d.primaryType.Some? then d.primaryType else d.firstType)
            && values[7] == (BusinessStatus, d.businessStatus) && values[8] == (Rating, d.rating)
            && values[9] == (ReviewCount, d.userRatingCount)
            && values[10] == (Phone, if approved then d.nationalPhoneNumber else None)
  {
  }

  /** The facts persist is given, type by type. */
  lemma FieldsOfDetails(placeId: string, d: PlaceDetails, approved: bool)
    ensures var facts := BuildGooglePlaceFacts(placeId, d, approved);
            && Given(facts, GooglePlaceId) == Worth(Some(placeId))
            && Given(facts, BusinessName) == Worth(d.displayName)
            && Given(facts, CandidateWebsiteUrl) == Worth(d.websiteUri)
            && Given(facts, FormattedAddress) == Worth(d.formattedAddress)
            && Given(facts, City) == Worth(d.locality)
            && Given(facts, Country) == Worth(d.country)
            && Given(facts, Category) == Worth(if d.primaryType.Some? then d.primaryType else d.firstType)
            && Given(facts, BusinessStatus) == Worth(d.businessStatus)
            && Given(facts, Rating) == Worth(d.rating)
            && Given(facts, ReviewCount) == Worth(d.userRatingCount)
            && Given(facts, Phone) == (if approved then Worth(d.nationalPhoneNumber) else None)
            && forall name :: Given(facts, OtherFact(name)) == None
  {
    var values := Fields(placeId, d, approved);
    FieldsAreSupplied(placeId, d, approved);
    FieldsByPlace(placeId, d, approved);
    NoneWorthNothing();
    hide *;
    SuppliedGives(values, 0, GooglePlaceId, Some(placeId));
    SuppliedGives(values, 1, BusinessName, d.displayName);
    SuppliedGives(values, 2, CandidateWebsiteUrl, d.websiteUri);
    SuppliedGives(values, 3, FormattedAddress, d.formattedAddress);
    SuppliedGives(values, 4, City, d.locality);
    SuppliedGives(values, 5, Country, d.country);
    SuppliedGives(values, 6, Category, if d.primaryType.Some? then d.primaryType else d.firstType);
    SuppliedGives(values, 7, BusinessStatus, d.businessStatus);
    SuppliedGives(values, 8, Rating, d.rating);
    SuppliedGives(values, 9, ReviewCount, d.userRatingCount);
    SuppliedGives(values, 10, Phone, if approved then d.nationalPhoneNumber else None);
    forall name
      ensures Given(Supplied(values), OtherFact(name)) == None
    {
      NotListedNotGiven(values, OtherFact(name));
    }
  }

  /**
   persist as a whole, field by field: each of the eleven types depends on its own field of the response alone, the
   phone on the approval too, and every other type is left alone. A type whose field is missing or blank keeps its
   facts; one whose current fact is foreign or has the value already keeps it; any other ends with the field's value
   as a Google fact.
   */
  lemma PersistByField(t: Table, leadId: string, placeId: string, d: PlaceDetails, approved: bool)
    ensures var r := PersistFacts(t, leadId, BuildGooglePlaceFacts(placeId, d, approved));
            && Persisted(t, r, leadId, GooglePlaceId, Worth(Some(placeId)))
            && Persisted(t, r, leadId, BusinessName, Worth(d.displayName))
            && Persisted(t, r, leadId, CandidateWebsiteUrl, Worth(d.websiteUri))
            && Persisted(t, r, leadId, FormattedAddress, Worth(d.formattedAddress))
            && Persisted(t, r, leadId, City, Worth(d.locality))
            && Persisted(t, r, leadId, Country, Worth(d.country))
            && Persisted(t, r, leadId, Category, Worth(if d.primaryType.Some? then d.primaryType else d.firstType))
            && Persisted(t, r, leadId, BusinessStatus, Worth(d.businessStatus))
            && Persisted(t, r, leadId, Rating, Worth(d.rating))
            && Persisted(t, r, leadId, ReviewCount, Worth(d.userRatingCount))
            && (approved ==> Persisted(t, r, leadId, Phone, Worth(d.nationalPhoneNumber)))
            && (!approved ==> Untouched(t, r, leadId, Phone))
            && forall name :: Untouched(t, r, leadId, OtherFact(name))
  {
    var facts := BuildGooglePlaceFacts(placeId, d, approved);
    GoogleKinds(placeId, d, approved);
    FieldsOfDetails(placeId, d, approved);
    forall kind
      ensures Persisted(t, PersistFacts(t, leadId, facts), leadId, kind, Given(facts, kind))
    {
      PersistsGiven(t, leadId, facts, kind);
    }
    hide BuildGooglePlaceFacts, PersistFacts, Given, Worth, Untouched, Written, Current;
  }

  // ---------- backfillMissing ----------

  /** The facts backfillMissing is given, type by type. */
  lemma FieldsOfBackfill(d: PlaceDetails)
    ensures var facts := BuildBackfillFacts(d);
            && Given(facts, Rating) == Worth(d.rating) && Given(facts, ReviewCount) == Worth(d.userRatingCount)
            && Given(facts, Phone) == Worth(d.nationalPhoneNumber)
            && forall kind :: kind !in {Rating, ReviewCount, Phone} ==> Given(facts, kind) == None
  {
    var values := [(Rating, d.rating), (ReviewCount, d.userRatingCount), (Phone, d.nationalPhoneNumber)];
    assert EachOnce(values);
    hide Supplied, Given, Worth, EachOnce;
    SuppliedGives(values, 0, Rating, d.rating);
    SuppliedGives(values, 1, ReviewCount, d.userRatingCount);
    SuppliedGives(values, 2, Phone, d.nationalPhoneNumber);
    forall kind | kind !in {Rating, ReviewCount, Phone}
      ensures Given(Supplied(values), kind) == None
    {
      NotListedNotGiven(values, kind);
    }
  }

  /** What one round of backfillMissing adds for a type, from any state of its lists. */
  ghost predicate Fills(b: Backfilled, r: Backfilled, leadId: string, kind: FactType, value: Option<string>) {
    var missing := value.Some? && Current(b.table, leadId, kind).None?;
    && (kind in r.written <==> kind in b.written || missing)
    && (kind in r.skipped <==> kind in b.skipped || (value.Some? && !missing))
    && if missing then Written(r.table, leadId, kind, value.value) else Untouched(b.table, r.table, leadId, kind)
  }

  lemma OtherFillsLater(b: Backfilled, m: Backfilled, r: Backfilled, leadId: string, f: (FactType, string),
                        kind: FactType,
                        value: Option<string>)
    requires f.0 != kind && Fills(m, r, leadId, kind, value)
    requires if Current(b.table, leadId, f.0).Some? then m == b.(skipped := b.skipped + [f.0])
             else m == Backfilled(WriteCurrent(b.table, leadId, f.0, f.1, GooglePlaces), b.written + [f.0], b.skipped)
    ensures Fills(b, r, leadId, kind, value)
  {
    if Current(b.table, leadId, f.0).None? { UntouchedByOther(b.table, leadId, f, kind); }
    hide Current, WriteCurrent;
  }

  lemma SameFillsNow(b: Backfilled, m: Backfilled, r: Backfilled, leadId: string, f: (FactType, string))
    requires Fills(m, r, leadId, f.0, None)
    requires if Current(b.table, leadId, f.0).Some? then m == b.(skipped := b.skipped + [f.0])
             else m == Backfilled(WriteCurrent(b.table, leadId, f.0, f.1, GooglePlaces), b.written + [f.0], b.skipped)
    ensures Fills(b, r, leadId, f.0, Some(f.1))
  {
    if Current(b.table, leadId, f.0).None? {
      WriteIsCurrent(b.table, leadId, f);
      hide Current, WriteCurrent, Written, Untouched;
      WrittenThenUntouched(m.table, r.table, leadId, f.0, f.1);
    } else {
      hide Current, WriteCurrent;
    }
  }

  lemma {:induction false} BackfillsGiven(b: Backfilled, leadId: string, facts: Facts, kind: FactType)
    requires DistinctKinds(facts)
    ensures Fills(b, BackfillFacts(b, leadId, facts), leadId, kind, Given(facts, kind))
    decreases |facts|
  {
    if facts == [] {
      hide Current;
    } else {
      var f, rest := facts[0], facts[1..];
      var m := if Current(b.table, leadId, f.0).Some? then b.(skipped := b.skipped + [f.0])
               else Backfilled(WriteCurrent(b.table, leadId, f.0, f.1, GooglePlaces), b.written + [f.0], b.skipped);
      hide Current, WriteCurrent, Fills;
      assert BackfillFacts(b, leadId, facts) == BackfillFacts(m, leadId, rest);
      BackfillsGiven(m, leadId, rest, kind);
      GivenIsIn(rest, kind);
      if f.0 == kind {
        SameFillsNow(b, m, BackfillFacts(m, leadId, rest), leadId, f);
      } else {
        OtherFillsLater(b, m, BackfillFacts(m, leadId, rest), leadId, f, kind, Given(rest, kind));
      }
    }
  }

  lemma FillsFromNothing(t: Table, r: Backfilled, leadId: string, kind: FactType, value: Option<string>)
    requires Fills(Backfilled(t, [], []), r, leadId, kind, value)
    ensures FilledWhenMissing(t, r, leadId, kind, value)
    ensures value == None ==> Untouched(t, r.table, leadId, kind)
  {
    hide Untouched, Written, Current;
  }

  /**
   backfillMissing as a whole, field by field: rating, review count and phone each depend on their own field alone and
   are written exactly when that is not blank and the lead has no current fact of the type; every other type is left
   alone.
   */
  lemma BackfillByField(t: Table, leadId: string, d: PlaceDetails)
    ensures var b := BackfillFacts(Backfilled(t, [], []), leadId, BuildBackfillFacts(d));
            && FilledWhenMissing(t, b, leadId, Rating, Worth(d.rating))
            && FilledWhenMissing(t, b, leadId, ReviewCount, Worth(d.userRatingCount))
            && FilledWhenMissing(t, b, leadId, Phone, Worth(d.nationalPhoneNumber))
            && forall kind :: kind !in {Rating, ReviewCount, Phone} ==> Untouched(t, b.table, leadId, kind)
  {
    var facts, start := BuildBackfillFacts(d), Backfilled(t, [], []);
    BackfillKinds(d);
    FieldsOfBackfill(d);
    var b := BackfillFacts(start, leadId, facts);
    hide *;
    forall kind
      ensures FilledWhenMissing(t, b, leadId, kind, Given(facts, kind))
      ensures Given(facts, kind) == None ==> Untouched(t, b.table, leadId, kind)
    {
      BackfillsGiven(start, leadId, facts, kind);
      FillsFromNothing(t, b, leadId, kind, Given(facts, kind));
    }
  }
}
