/**
 The file a re-ranking leaves (src/cli/commands/decision-makers-rerank.ts), and why it leaves none, in plain terms.
 */
module RerankOrder {
  import opened Wrappers
  import opened Rerank
  import Text

  /** How sure an entry is; one without a confidence counts as -1. */
  function Sureness(e: Entry): real {
    match e.confidence
    case Some(c) => c
    case None => -1.0
  }

  /** The entries of one tier and sureness, in the order they stand in. */
  function Alike(es: seq<Entry>, tierOf: Taxonomy, tier: nat, sureness: real): seq<Entry> {
    if es == [] then []
    else
      (if tierOf(es[0].title) == Some(tier) && Sureness(es[0]) == sureness then [es[0]] else [])
      + Alike(es[1..], tierOf, tier, sureness)
  }

  /** Lower tiers first, surer entries first within a tier, and entries alike in both as they stood before. */
  ghost predicate Arranged(before: seq<Entry>, after: seq<Entry>, tierOf: Taxonomy) {
    && multiset(after) == multiset(before)
    && (forall i :: 0 <= i < |after| ==> tierOf(after[i].title).Some?)
    && (forall i, j :: 0 <= i < j < |after| ==>
          var t, u := tierOf(after[i].title).value, tierOf(after[j].title).value;
          t < u || (t == u && Sureness(after[i]) >= Sureness(after[j])))
    && (forall tier, sureness :: Alike(after, tierOf, tier, sureness) == Alike(before, tierOf, tier, sureness))
  }

  lemma {:induction false} AlikeIsTies(es: seq<Entry>, tierOf: Taxonomy, k: Ranked)
    requires Mapped(es, tierOf)
    ensures Alike(es, tierOf, k.tier, Sureness(k.entry)) == Entries(Ties(Tiered(es, tierOf), k))
  {
    if es != [] {
      AlikeIsTies(es[1..], tierOf, k);
      var rest := Tiered(es[1..], tierOf);
      var x := Ranked(es[0], tierOf(es[0].title).value);
      assert Tiered(es, tierOf) == [x] + rest && ([x] + rest)[1..] == rest;
      assert Entries([x] + Ties(rest, k)) == [es[0]] + Entries(Ties(rest, k));
    }
  }

  lemma AlikeKept(es: seq<Entry>, tierOf: Taxonomy, tier: nat, sureness: real)
    requires Mapped(es, tierOf)
    ensures Alike(RerankedLead(es, tierOf), tierOf, tier, sureness) == Alike(es, tierOf, tier, sureness)
  {
    var k := Ranked(Entry("", "", None, None, Some(sureness)), tier);
    RerankedTiers(es, tierOf);
    AlikeIsTies(es, tierOf, k);
    AlikeIsTies(RerankedLead(es, tierOf), tierOf, k);
    SortTies(Tiered(es, tierOf), k);
    hide RerankedLead, Alike, Tiered, Sort, Ties, Entries, Mapped;
  }

  lemma SortedPair(sorted: seq<Ranked>, tierOf: Taxonomy, i: nat, j: nat)
    requires Ordered(sorted) && i < j < |sorted|
    requires forall r :: r in sorted ==> tierOf(r.entry.title) == Some(r.tier)
    ensures var a, b := sorted[i].entry, sorted[j].entry;
            && tierOf(a.title).Some? && tierOf(b.title).Some?
            && var t, u := tierOf(a.title).value, tierOf(b.title).value;
               t < u || (t == u && Sureness(a) >= Sureness(b))
  {
    assert sorted[i] in sorted && sorted[j] in sorted && !Before(sorted[j], sorted[i]);
  }

  lemma RerankedInTierOrder(es: seq<Entry>, tierOf: Taxonomy)
    requires Mapped(es, tierOf)
    ensures var after := RerankedLead(es, tierOf);
            && (forall i :: 0 <= i < |after| ==> tierOf(after[i].title).Some?)
            && forall i, j :: 0 <= i < j < |after| ==>
                 var t, u := tierOf(after[i].title).value, tierOf(after[j].title).value;
                 t < u || (t == u && Sureness(after[i]) >= Sureness(after[j]))
  {
    var sorted := Sort(Tiered(es, tierOf));
    RerankedTiers(es, tierOf);
    SortOrdered(Tiered(es, tierOf));
    TieredWhole(RerankedLead(es, tierOf), tierOf);
    assert RerankedLead(es, tierOf) == Entries(sorted);
    hide RerankedLead, Tiered, Sort, Ordered, Sureness;
    forall i, j | 0 <= i < j < |sorted|
      ensures var a, b := sorted[i].entry, sorted[j].entry;
              && tierOf(a.title).Some? && tierOf(b.title).Some?
              && var t, u := tierOf(a.title).value, tierOf(b.title).value;
                 t < u || (t == u && Sureness(a) >= Sureness(b))
    {
      SortedPair(sorted, tierOf, i, j);
    }
  }

  /** Re-ranking a lead arranges it. */
  lemma RerankedIsArranged(es: seq<Entry>, tierOf: Taxonomy)
    requires Mapped(es, tierOf)
    ensures Arranged(es, RerankedLead(es, tierOf), tierOf)
  {
    RerankedLeadIsOrdered(es, tierOf);
    RerankedInTierOrder(es, tierOf);
    forall tier, sureness
      ensures Alike(RerankedLead(es, tierOf), tierOf, tier, sureness) == Alike(es, tierOf, tier, sureness)
    {
      AlikeKept(es, tierOf, tier, sureness);
    }
    hide RerankedLead, Alike, Sureness, NamesMove, InOrder, Mapped;
  }

  /** The leads the command is about. */
  function About(f: CandidatesFile, lead: Option<string>): seq<string> {
    match lead
    case None => f.order
    case Some(id) => [Text.Trim(id)]
  }

  lemma {:induction false} FirstUnmappedIs(data: Data, leads: seq<string>, tierOf: Taxonomy)
    ensures var u := FirstUnmapped(data, leads, tierOf);
            u.Some? ==> u.value in leads && u.value in data
                        && exists i :: 0 <= i < |data[u.value]| && tierOf(data[u.value][i].title).None?
  {
    if leads != [] { FirstUnmappedIs(data, leads[1..], tierOf); }
  }

  /**
   The command as a whole. It is refused for a missing file, a blank --lead, one that is not in the file, or a lead
   among those it is about with an entry of no tier; otherwise, without --confirm it only reports. A confirmed run
   writes when the names of some lead move, and then every lead it is about is arranged and every other is as it was.
   */
  lemma CommandTold(file: Option<CandidatesFile>, lead: Option<string>, confirm: bool, tierOf: Taxonomy)
    ensures var (r, after) := RunOf(file, lead, confirm, tierOf);
            if file.None? then r == Refused(CandidatesFileMissing) && after == None
            else if lead.Some? && Text.Trim(lead.value) == "" then r == Refused(InvalidArgument) && after == file
            else if lead.Some? && Text.Trim(lead.value) !in file.value.entries then
              r == Refused(LeadNotInCandidatesFile) && after == file
            else
              var data, leads := file.value.entries, About(file.value, lead);
              if exists l, i :: l in leads && l in data && 0 <= i < |data[l]| && tierOf(data[l][i].title).None? then
                && r.Refused? && r.why.CandidateBecameUnmapped? && after == file
                && r.why.leadId in leads && r.why.leadId in data
                && exists i :: 0 <= i < |data[r.why.leadId]| && tierOf(data[r.why.leadId][i].title).None?
              else
                && !r.Refused? && (r.DryRun? <==> !confirm) && (!r.Wrote? ==> after == file)
                && (r.Wrote? <==> confirm && exists l :: l in leads && l in data && NamesMove(data[l], tierOf))
                && (r.Wrote? ==>
                      && after.Some? && after.value.order == file.value.order && after.value.entries.Keys == data.Keys
                      && forall l :: l in data ==>
                           if l in leads then Arranged(data[l], after.value.entries[l], tierOf)
                           else after.value.entries[l] == data[l])
  {
    if file.Some? && Precheck(file, lead).None? {
      var data, leads := file.value.entries, About(file.value, lead);
      assert leads == Targets(file.value, lead);
      FirstUnmappedIs(data, leads, tierOf);
      FirstUnmappedNone(data, leads, tierOf);
      CountMovedZero(data, leads, tierOf);
      RerankAllAt(data, data, leads, tierOf);
      AllMappedMeans(data, leads, tierOf);
      hide FirstUnmapped, CountMoved, RerankAll, NamesMove, RerankedLead, Arranged, Text.Trim;
      if AllMapped(data, leads, tierOf) {
        forall l | l in leads && l in data
          ensures Arranged(data[l], RerankedLead(data[l], tierOf), tierOf)
        {
          RerankedIsArranged(data[l], tierOf);
        }
      }
    }
  }

  lemma AllMappedMeans(data: Data, leads: seq<string>, tierOf: Taxonomy)
    ensures AllMapped(data, leads, tierOf)
       <==> !exists l, i :: l in leads && l in data && 0 <= i < |data[l]| && tierOf(data[l][i].title).None?
  {
    if AllMapped(data, leads, tierOf) {
      forall l, i | l in leads && l in data && 0 <= i < |data[l]|
        ensures tierOf(data[l][i].title).Some?
      {
        assert Mapped(data[l], tierOf);
      }
    }
  }
}
