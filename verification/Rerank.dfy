/**
 Offline re-ranking of stored candidates (src/cli/commands/decision-makers-rerank.ts): tiering, a stable sort, and a
 write that happens for all leads or for none.
 */
module Rerank {
  import opened Wrappers
  import Text

  datatype Entry = Entry(fullName: string, title: string, sourceUrl: Option<string>, evidenceSnippet: Option<string>,
                         confidence: Option<real>)

  datatype Ranked = Ranked(entry: Entry, tier: nat)

  /** candidates.json: the object and the order of its keys. */
  datatype CandidatesFile = CandidatesFile(order: seq<string>, entries: map<string, seq<Entry>>)

  // ---------- the sort ----------

  function Confidence(e: Entry): real {
    if e.confidence.Some? then e.confidence.value else -1.0
  }

  predicate Before(a: Ranked, b: Ranked) {
    a.tier < b.tier || (a.tier == b.tier && Confidence(a.entry) > Confidence(b.entry))
  }

  /** x stood before everything in s, so it goes in front of its ties. */
  function Insert(x: Ranked, s: seq<Ranked>): seq<Ranked> {
    if s == [] || !Before(s[0], x) then [x] + s else [s[0]] + Insert(x, s[1..])
  }

  /** Array.prototype.sort with the comparator of line 75. */
  function Sort(s: seq<Ranked>): seq<Ranked> {
    if s == [] then [] else Insert(s[0], Sort(s[1..]))
  }

  predicate Ordered(s: seq<Ranked>) {
    forall i, j :: 0 <= i < j < |s| ==> !Before(s[j], s[i])
  }

  predicate Tied(a: Ranked, b: Ranked) {
    a.tier == b.tier && Confidence(a.entry) == Confidence(b.entry)
  }

  /** The members of s that tie with k, in the order they stand in s. */
  function Ties(s: seq<Ranked>, k: Ranked): seq<Ranked> {
    if s == [] then [] else (if Tied(s[0], k) then [s[0]] else []) + Ties(s[1..], k)
  }

  /** t is a stable sort of s: in order, and every class of ties keeps its members and their order. */
  ghost predicate StableSortOf(s: seq<Ranked>, t: seq<Ranked>) {
    Ordered(t) && forall k :: Ties(t, k) == Ties(s, k)
  }

  lemma {:induction false} InsertOrdered(x: Ranked, s: seq<Ranked>)
    requires Ordered(s)
    ensures Ordered(Insert(x, s))
    ensures forall y :: y in Insert(x, s) ==> y == x || y in s
    decreases |s|
  {
    if s == [] || !Before(s[0], x) {
    } else {
      InsertOrdered(x, s[1..]);
      var rest := Insert(x, s[1..]);
      forall j | 0 <= j < |rest|
        ensures !Before(rest[j], s[0])
      {
        assert rest[j] in rest;
      }
    }
  }

  lemma {:induction false} InsertTies(x: Ranked, s: seq<Ranked>, k: Ranked)
    ensures Ties(Insert(x, s), k) == (if Tied(x, k) then [x] else []) + Ties(s, k)
    decreases |s|
  {
    if s == [] || !Before(s[0], x) {
      assert ([x] + s)[1..] == s;
    } else {
      InsertTies(x, s[1..], k);
      assert ([s[0]] + Insert(x, s[1..]))[1..] == Insert(x, s[1..]);
    }
  }

  lemma {:induction false} SortOrdered(s: seq<Ranked>)
    ensures Ordered(Sort(s))
  {
    if s != [] {
      SortOrdered(s[1..]);
      InsertOrdered(s[0], Sort(s[1..]));
    }
  }

  lemma {:induction false} SortTies(s: seq<Ranked>, k: Ranked)
    ensures Ties(Sort(s), k) == Ties(s, k)
  {
    if s != [] {
      SortTies(s[1..], k);
      InsertTies(s[0], Sort(s[1..]), k);
    }
  }

  lemma {:induction false} TiesOf(s: seq<Ranked>, k: Ranked)
    ensures forall y :: y in Ties(s, k) <==> y in s && Tied(y, k)
  {
    if s != [] {
      TiesOf(s[1..], k);
      assert s == [s[0]] + s[1..];
    }
  }

  lemma SameMembers(s: seq<Ranked>, t: seq<Ranked>)
    requires forall k :: Ties(s, k) == Ties(t, k)
    ensures forall y :: y in s ==> y in t
  {
    forall y | y in s
      ensures y in t
    {
      TiesOf(s, y);
      TiesOf(t, y);
      assert Ties(s, y) == Ties(t, y);
    }
  }

  /** Two orderly sequences with the same tie classes are the same sequence: the stable sort is unique. */
  lemma {:induction false} StableSortUnique(s: seq<Ranked>, t: seq<Ranked>)
    requires Ordered(s) && Ordered(t)
    requires forall k :: Ties(s, k) == Ties(t, k)
    ensures s == t
    decreases |s|
  {
    SameMembers(s, t);
    SameMembers(t, s);
    assert s != [] ==> s[0] in t;
    assert t != [] ==> t[0] in s;
    if s != [] {
      HeadsTie(s, t);
      assert Ties(s, s[0]) == Ties(t, s[0]);
      assert s[0] == Ties(s, s[0])[0] && t[0] == Ties(t, s[0])[0];
      forall k
        ensures Ties(s[1..], k) == Ties(t[1..], k)
      {
        TiesTail(s, k);
        TiesTail(t, k);
        assert Ties(s, k) == Ties(t, k);
      }
      StableSortUnique(s[1..], t[1..]);
      assert s == [s[0]] + s[1..] && t == [t[0]] + t[1..];
    }
  }

  lemma HeadsTie(s: seq<Ranked>, t: seq<Ranked>)
    requires Ordered(s) && Ordered(t) && s != [] && t != [] && s[0] in t && t[0] in s
    ensures Tied(s[0], t[0])
  {
    var i :| 0 <= i < |t| && t[i] == s[0];
    var j :| 0 <= j < |s| && s[j] == t[0];
    assert i > 0 ==> !Before(t[i], t[0]);
    assert j > 0 ==> !Before(s[j], s[0]);
  }

  lemma TiesTail(s: seq<Ranked>, k: Ranked)
    requires s != []
    ensures Ties(s[1..], k) == if Tied(s[0], k) then Ties(s, k)[1..] else Ties(s, k)
  {
  }

  /** The sort of line 75 is a stable sort by tier, then confidence downwards, and the only one. */
  lemma SortIsTheStableSort(s: seq<Ranked>, t: seq<Ranked>)
    ensures StableSortOf(s, t) <==> t == Sort(s)
  {
    SortOrdered(s);
    forall k
      ensures Ties(Sort(s), k) == Ties(s, k)
    {
      SortTies(s, k);
    }
    if StableSortOf(s, t) { StableSortUnique(t, Sort(s)); }
  }

  lemma {:induction false} InsertPermutes(x: Ranked, s: seq<Ranked>)
    ensures multiset(Insert(x, s)) == multiset{x} + multiset(s)
    decreases |s|
  {
    if s == [] || !Before(s[0], x) {
    } else {
      InsertPermutes(x, s[1..]);
      assert s == [s[0]] + s[1..];
    }
  }

  lemma {:induction false} SortPermutes(s: seq<Ranked>)
    ensures multiset(Sort(s)) == multiset(s)
  {
    if s != [] {
      SortPermutes(s[1..]);
      InsertPermutes(s[0], Sort(s[1..]));
      assert s == [s[0]] + s[1..];
    }
  }

  lemma SortOfOrdered(s: seq<Ranked>)
    requires Ordered(s)
    ensures Sort(s) == s
  {
    SortIsTheStableSort(s, s);
  }

  // ---------- one lead ----------

  /** classifyValidatedTitlePriority, by title. */
  type Taxonomy = string -> Option<nat>

  function Tiered(entries: seq<Entry>, tierOf: Taxonomy): seq<Ranked> {
    if entries == [] then []
    else
      var tier := tierOf(entries[0].title);
      (if tier.Some? then [Ranked(entries[0], tier.value)] else []) + Tiered(entries[1..], tierOf)
  }

  predicate Mapped(entries: seq<Entry>, tierOf: Taxonomy) {
    forall i :: 0 <= i < |entries| ==> tierOf(entries[i].title).Some?
  }

  function Entries(s: seq<Ranked>): (r: seq<Entry>)
    ensures |r| == |s| && forall i :: 0 <= i < |s| ==> r[i] == s[i].entry
  {
    seq(|s|, i requires 0 <= i < |s| => s[i].entry)
  }

  function Names(s: seq<Ranked>): (r: seq<string>)
    ensures |r| == |s| && forall i :: 0 <= i < |s| ==> r[i] == s[i].entry.fullName
  {
    seq(|s|, i requires 0 <= i < |s| => s[i].entry.fullName)
  }

  function RerankedLead(entries: seq<Entry>, tierOf: Taxonomy): seq<Entry> {
    Entries(Sort(Tiered(entries, tierOf)))
  }

  /** The "reordered" flag, which compares names only. */
  predicate NamesMove(entries: seq<Entry>, tierOf: Taxonomy) {
    var tiered := Tiered(entries, tierOf);
    Names(Sort(tiered)) != Names(tiered)
  }

  predicate InOrder(entries: seq<Entry>, tierOf: Taxonomy) {
    Ordered(Tiered(entries, tierOf))
  }

  lemma {:induction false} TieredWhole(entries: seq<Entry>, tierOf: Taxonomy)
    requires Mapped(entries, tierOf)
    ensures Entries(Tiered(entries, tierOf)) == entries
    ensures forall r :: r in Tiered(entries, tierOf) ==> tierOf(r.entry.title) == Some(r.tier)
  {
    if entries != [] { TieredWhole(entries[1..], tierOf); }
  }

  lemma {:induction false} TieredBack(s: seq<Ranked>, tierOf: Taxonomy)
    requires forall r :: r in s ==> tierOf(r.entry.title) == Some(r.tier)
    ensures Tiered(Entries(s), tierOf) == s
    ensures Mapped(Entries(s), tierOf)
  {
    if s != [] {
      TieredBack(s[1..], tierOf);
      assert Entries(s)[1..] == Entries(s[1..]);
      assert s[0] in s;
      assert Mapped(Entries(s), tierOf) by {
        forall i | 0 <= i < |s|
          ensures tierOf(Entries(s)[i].title).Some?
        {
          assert s[i] in s;
        }
      }
    }
  }

  /** The re-ranked lead, read back, tiers to exactly the sorted list. */
  lemma RerankedTiers(entries: seq<Entry>, tierOf: Taxonomy)
    requires Mapped(entries, tierOf)
    ensures var r := RerankedLead(entries, tierOf);
            Mapped(r, tierOf) && Tiered(r, tierOf) == Sort(Tiered(entries, tierOf))
  {
    var tiered := Tiered(entries, tierOf);
    TieredWhole(entries, tierOf);
    SortPermutes(tiered);
    forall r | r in Sort(tiered)
      ensures tierOf(r.entry.title) == Some(r.tier)
    {
      assert r in multiset(tiered);
    }
    TieredBack(Sort(tiered), tierOf);
  }

  lemma EntriesConcat(a: seq<Ranked>, b: seq<Ranked>)
    ensures multiset(Entries(a + b)) == multiset(Entries(a)) + multiset(Entries(b))
  {
    assert Entries(a + b) == Entries(a) + Entries(b);
  }

  lemma EntriesWithout(t: seq<Ranked>, j: nat)
    requires j < |t|
    ensures multiset(t) == multiset(t[..j] + t[j + 1..]) + multiset{t[j]}
    ensures multiset(Entries(t)) == multiset(Entries(t[..j] + t[j + 1..])) + multiset{t[j].entry}
  {
    hide Entries;
    assert t == (t[..j] + [t[j]]) + t[j + 1..];
    EntriesConcat(t[..j] + [t[j]], t[j + 1..]);
    EntriesConcat(t[..j], [t[j]]);
    EntriesConcat(t[..j], t[j + 1..]);
    assert Entries([t[j]]) == [t[j].entry];
  }

  lemma {:induction false} EntriesPermute(s: seq<Ranked>, t: seq<Ranked>)
    requires multiset(s) == multiset(t)
    ensures multiset(Entries(s)) == multiset(Entries(t))
    decreases |s|
  {
    hide Entries;
    assert |s| == |multiset(s)| == |multiset(t)| == |t|;
    if s != [] {
      assert s[0] in multiset(t);
      var j :| 0 <= j < |t| && t[j] == s[0];
      EntriesWithout(s, 0);
      EntriesWithout(t, j);
      var s', t' := s[..0] + s[1..], t[..j] + t[j + 1..];
      assert multiset(s') == multiset(s) - multiset{s[0]};
      assert multiset(t') == multiset(t) - multiset{s[0]};
      EntriesPermute(s', t');
    }
  }

  /**
   Re-ranking one fully mapped lead: the same entries with the same contents, in tier order, and stable under a second
   re-ranking; it is the identity exactly when the lead was already in order.
   */
  lemma RerankedLeadIsOrdered(entries: seq<Entry>, tierOf: Taxonomy)
    requires Mapped(entries, tierOf)
    ensures var r := RerankedLead(entries, tierOf);
            && multiset(r) == multiset(entries)
            && Mapped(r, tierOf) && InOrder(r, tierOf) && !NamesMove(r, tierOf)
            && RerankedLead(r, tierOf) == r
            && (r == entries <==> InOrder(entries, tierOf))
  {
    var tiered := Tiered(entries, tierOf);
    RerankedTiers(entries, tierOf);
    TieredWhole(entries, tierOf);
    SortOrdered(tiered);
    SortOfOrdered(Sort(tiered));
    SortPermutes(tiered);
    EntriesPermute(Sort(tiered), tiered);
    if InOrder(entries, tierOf) { SortOfOrdered(tiered); }
  }

  /** With distinct names the flag is exact: the names move when and only when the lead was out of order. */
  lemma NamesMoveIffOutOfOrder(entries: seq<Entry>, tierOf: Taxonomy)
    requires Mapped(entries, tierOf)
    requires forall i, j :: 0 <= i < j < |entries| ==> entries[i].fullName != entries[j].fullName
    ensures NamesMove(entries, tierOf) <==> !InOrder(entries, tierOf)
  {
    var tiered := Tiered(entries, tierOf);
    TieredWhole(entries, tierOf);
    if InOrder(entries, tierOf) {
      SortOfOrdered(tiered);
    } else if !NamesMove(entries, tierOf) {
      SortPermutes(tiered);
      SortOrdered(tiered);
      assert Names(Sort(tiered)) == Names(tiered);
      forall i | 0 <= i < |tiered|
        ensures Sort(tiered)[i] == tiered[i]
      {
        SameNameSameEntry(tiered, Sort(tiered), i);
      }
    }
  }

  lemma SameNameSameEntry(s: seq<Ranked>, t: seq<Ranked>, i: nat)
    requires multiset(s) == multiset(t) && Names(s) == Names(t) && i < |s|
    requires forall a, b :: 0 <= a < b < |s| ==> Entries(s)[a].fullName != Entries(s)[b].fullName
    ensures i < |t| && t[i] == s[i]
  {
    assert |s| == |Names(s)| == |t|;
    assert t[i] in multiset(s);
    var j :| 0 <= j < |s| && s[j] == t[i];
    assert Names(s)[j] == Names(t)[i] == Names(s)[i];
    assert Entries(s)[i].fullName == Entries(s)[j].fullName;
  }

  // ---------- the command ----------

  datatype Refusal =
    | CandidatesFileMissing | InvalidArgument | LeadNotInCandidatesFile | CandidateBecameUnmapped(leadId: string)

  datatype Outcome = Refused(why: Refusal) | DryRun(changed: nat) | Untouched | Wrote(changed: nat)

  function Precheck(file: Option<CandidatesFile>, lead: Option<string>): Option<Refusal> {
    if file.None? then Some(CandidatesFileMissing)
    else if lead.Some? && Text.Trim(lead.value) == "" then Some(InvalidArgument)
    else if lead.Some? && Text.Trim(lead.value) !in file.value.entries then Some(LeadNotInCandidatesFile)
    else None
  }

  function Targets(f: CandidatesFile, lead: Option<string>): seq<string> {
    if lead.Some? then [Text.Trim(lead.value)] else f.order
  }

  type Data = map<string, seq<Entry>>

  function FirstUnmapped(data: Data, leads: seq<string>, tierOf: Taxonomy): Option<string> {
    if leads == [] then None
    else if leads[0] in data && !Mapped(data[leads[0]], tierOf) then Some(leads[0])
    else FirstUnmapped(data, leads[1..], tierOf)
  }

  function RerankAll(data: Data, next: Data, leads: seq<string>, tierOf: Taxonomy): Data
    decreases |leads|
  {
    if leads == [] then next
    else if leads[0] !in data then RerankAll(data, next, leads[1..], tierOf)
    else RerankAll(data, next[leads[0] := RerankedLead(data[leads[0]], tierOf)], leads[1..], tierOf)
  }

  function CountMoved(data: Data, leads: seq<string>, tierOf: Taxonomy): nat {
    if leads == [] then 0
    else (if leads[0] in data && NamesMove(data[leads[0]], tierOf) then 1 else 0) + CountMoved(data, leads[1..], tierOf)
  }

  /** The command as a function: what it reports, and the file it leaves. */
  function RunOf(file: Option<CandidatesFile>, lead: Option<string>, confirm: bool, tierOf: Taxonomy)
    : (Outcome, Option<CandidatesFile>)
  {
    if Precheck(file, lead).Some? then (Refused(Precheck(file, lead).value), file)
    else
      var f := file.value;
      var leads := Targets(f, lead);
      var unmapped := FirstUnmapped(f.entries, leads, tierOf);
      var changed := CountMoved(f.entries, leads, tierOf);
      if unmapped.Some? then (Refused(CandidateBecameUnmapped(unmapped.value)), file)
      else if !confirm then (DryRun(changed), file)
      else if changed == 0 then (Untouched, file)
      else (Wrote(changed), Some(f.(entries := RerankAll(f.entries, f.entries, leads, tierOf))))
  }

  class Disk {
    var file: Option<CandidatesFile>

    constructor (initial: Option<CandidatesFile>)
      ensures file == initial
    {
      file := initial;
    }

    method Rerank(lead: Option<string>, confirm: bool, tierOf: Taxonomy) returns (r: Outcome)
      modifies this
      ensures (r, file) == RunOf(old(file), lead, confirm, tierOf)
    {
      if file.None? { return Refused(CandidatesFileMissing); }
      var f := file.value;
      if lead.Some? && Text.Trim(lead.value) == "" { return Refused(InvalidArgument); }
      if lead.Some? && Text.Trim(lead.value) !in f.entries { return Refused(LeadNotInCandidatesFile); }
      var leads := Targets(f, lead);
      var next, changed := f.entries, 0;
      var i := 0;
      while i < |leads|
        invariant 0 <= i <= |leads|
        invariant file == old(file)
        invariant FirstUnmapped(f.entries, leads[i..], tierOf) == FirstUnmapped(f.entries, leads, tierOf)
        invariant RerankAll(f.entries, next, leads[i..], tierOf) == RerankAll(f.entries, f.entries, leads, tierOf)
        invariant changed + CountMoved(f.entries, leads[i..], tierOf) == CountMoved(f.entries, leads, tierOf)
      {
        var leadId := leads[i];
        assert leads[i..][1..] == leads[i + 1..];
        i := i + 1;
        if leadId !in f.entries { continue; }
        var tiered, unmapped := Tier(f.entries[leadId], tierOf);
        if |unmapped| > 0 { return Refused(CandidateBecameUnmapped(leadId)); }
        var sorted := Sort(tiered);
        if Names(tiered) != Names(sorted) { changed := changed + 1; }
        next := next[leadId := Entries(sorted)];
      }
      if !confirm { return DryRun(changed); }
      if changed == 0 { return Untouched; }
      file := Some(f.(entries := next));
      r := Wrote(changed);
    }
  }

  lemma TierStep(entries: seq<Entry>, tierOf: Taxonomy, tiered: seq<Ranked>, j: nat)
    requires j < |entries|
    ensures match tierOf(entries[j].title)
            case None => Tiered(entries[j..], tierOf) == Tiered(entries[j + 1..], tierOf)
            case Some(tier) =>
              var x := Ranked(entries[j], tier);
              && tiered + Tiered(entries[j..], tierOf) == tiered + [x] + Tiered(entries[j + 1..], tierOf)
              && multiset(Entries(tiered + [x])) == multiset(Entries(tiered)) + multiset{entries[j]}
  {
    assert entries[j..][1..] == entries[j + 1..];
    if tierOf(entries[j].title).Some? {
      var x := Ranked(entries[j], tierOf(entries[j].title).value);
      EntriesConcat(tiered, [x]);
      assert Entries([x]) == [entries[j]];
    }
  }

  /** The inner loop: each entry lands in exactly one of the two lists, in file order. */
  method Tier(entries: seq<Entry>, tierOf: Taxonomy) returns (tiered: seq<Ranked>, unmapped: seq<Entry>)
    ensures tiered == Tiered(entries, tierOf)
    ensures unmapped == [] <==> Mapped(entries, tierOf)
    ensures multiset(Entries(tiered)) + multiset(unmapped) == multiset(entries)
  {
    TierStart(entries, tierOf);
    tiered, unmapped := [], [];
    var j := 0;
    hide *;
    while j < |entries|
      invariant 0 <= j <= |entries|
      invariant tiered + Tiered(entries[j..], tierOf) == Tiered(entries, tierOf)
      invariant unmapped == [] <==> Mapped(entries[..j], tierOf)
      invariant multiset(Entries(tiered)) + multiset(unmapped) == multiset(entries[..j])
    {
      var tier := tierOf(entries[j].title);
      TierStep(entries, tierOf, tiered, j);
      MappedSnoc(entries, tierOf, j);
      if tier.None? {
        unmapped := unmapped + [entries[j]];
      } else {
        tiered := tiered + [Ranked(entries[j], tier.value)];
      }
      j := j + 1;
    }
    TierEnd(entries, tierOf, tiered);
  }

  lemma TierStart(entries: seq<Entry>, tierOf: Taxonomy)
    ensures Entries([]) == [] && entries[0..] == entries && Mapped(entries[..0], tierOf)
  {
  }

  lemma TierEnd(entries: seq<Entry>, tierOf: Taxonomy, tiered: seq<Ranked>)
    ensures entries[..|entries|] == entries
    ensures tiered + Tiered(entries[|entries|..], tierOf) == tiered
  {
    assert entries[|entries|..] == [];
  }

  lemma MappedSnoc(entries: seq<Entry>, tierOf: Taxonomy, j: nat)
    requires j < |entries|
    ensures Mapped(entries[..j + 1], tierOf) <==> Mapped(entries[..j], tierOf) && tierOf(entries[j].title).Some?
    ensures multiset(entries[..j + 1]) == multiset(entries[..j]) + multiset{entries[j]}
  {
    assert entries[..j + 1] == entries[..j] + [entries[j]];
    if Mapped(entries[..j + 1], tierOf) {
      assert forall k :: 0 <= k < j ==> entries[..j][k] == entries[..j + 1][k];
      assert entries[..j + 1][j] == entries[j];
    }
  }

  // ---------- the command's promises ----------

  ghost predicate AllMapped(data: Data, leads: seq<string>, tierOf: Taxonomy) {
    forall l :: l in leads && l in data ==> Mapped(data[l], tierOf)
  }

  ghost predicate AllInOrder(data: Data, leads: seq<string>, tierOf: Taxonomy) {
    forall l :: l in leads && l in data ==> InOrder(data[l], tierOf)
  }

  lemma {:induction false} FirstUnmappedNone(data: Data, leads: seq<string>, tierOf: Taxonomy)
    ensures FirstUnmapped(data, leads, tierOf).None? <==> AllMapped(data, leads, tierOf)
  {
    if leads != [] {
      FirstUnmappedNone(data, leads[1..], tierOf);
      assert leads == [leads[0]] + leads[1..];
      hide Mapped;
    }
  }

  lemma {:induction false} CountMovedZero(data: Data, leads: seq<string>, tierOf: Taxonomy)
    ensures CountMoved(data, leads, tierOf) == 0
       <==> forall l :: l in leads && l in data ==> !NamesMove(data[l], tierOf)
  {
    if leads != [] {
      CountMovedZero(data, leads[1..], tierOf);
      assert leads == [leads[0]] + leads[1..];
      hide NamesMove;
    }
  }

  /** Targeted leads are re-ranked, every other lead is as it was, and no lead appears or disappears. */
  lemma {:induction false} RerankAllAt(data: Data, next: Data, leads: seq<string>, tierOf: Taxonomy)
    requires data.Keys == next.Keys
    ensures var r := RerankAll(data, next, leads, tierOf);
            && r.Keys == data.Keys
            && forall l :: l in data ==> r[l] == if l in leads then RerankedLead(data[l], tierOf) else next[l]
    decreases |leads|
  {
    if leads != [] {
      hide RerankedLead;
      assert leads == [leads[0]] + leads[1..];
      if leads[0] !in data {
        RerankAllAt(data, next, leads[1..], tierOf);
      } else {
        RerankAllAt(data, next[leads[0] := RerankedLead(data[leads[0]], tierOf)], leads[1..], tierOf);
      }
    }
  }

  /**
   Refusals: exactly a missing file, a bad --lead, or an unmapped entry among the targeted leads; nothing is written.
   */
  lemma RefusedIffUnmapped(file: Option<CandidatesFile>, lead: Option<string>, confirm: bool, tierOf: Taxonomy)
    ensures var (r, after) := RunOf(file, lead, confirm, tierOf);
            && (r.Refused? <==> Precheck(file, lead).Some?
                                || !AllMapped(file.value.entries, Targets(file.value, lead), tierOf))
            && (r.Refused? || r.DryRun? || r.Untouched? ==> after == file)
  {
    if Precheck(file, lead).None? {
      FirstUnmappedNone(file.value.entries, Targets(file.value, lead), tierOf);
    }
  }

  /**
   What a confirmed run that is not refused leaves behind: the same leads, each with the same entries; leads that were
   not targeted untouched; and every targeted lead in tier order exactly when the run wrote, or they all were already.
   */
  lemma ConfirmedRun(file: Option<CandidatesFile>, lead: Option<string>, tierOf: Taxonomy)
    requires Precheck(file, lead).None?
    requires AllMapped(file.value.entries, Targets(file.value, lead), tierOf)
    ensures var (r, after) := RunOf(file, lead, true, tierOf);
            var data, leads := file.value.entries, Targets(file.value, lead);
            && after.Some? && after.value.order == file.value.order && after.value.entries.Keys == data.Keys
            && (forall l :: l in data ==> multiset(after.value.entries[l]) == multiset(data[l]))
            && (forall l :: l in data && l !in leads ==> after.value.entries[l] == data[l])
            && (r.Wrote? <==> exists l :: l in leads && l in data && NamesMove(data[l], tierOf))
            && (AllInOrder(after.value.entries, leads, tierOf) <==> r.Wrote? || AllInOrder(data, leads, tierOf))
  {
    var data, leads := file.value.entries, Targets(file.value, lead);
    FirstUnmappedNone(data, leads, tierOf);
    CountMovedZero(data, leads, tierOf);
    RerankAllAt(data, data, leads, tierOf);
    hide FirstUnmapped, CountMoved, RerankAll, Precheck, Targets, NamesMove, RerankedLead, Mapped, InOrder;
    forall l | l in leads && l in data
      ensures multiset(RerankedLead(data[l], tierOf)) == multiset(data[l])
      ensures InOrder(RerankedLead(data[l], tierOf), tierOf)
    {
      RerankedLeadIsOrdered(data[l], tierOf);
    }
  }

  /** A second confirmed run with the same arguments finds nothing to change. */
  lemma SecondRunChangesNothing(file: Option<CandidatesFile>, lead: Option<string>, tierOf: Taxonomy)
    ensures var (r, after) := RunOf(file, lead, true, tierOf);
            RunOf(after, lead, true, tierOf) == (if r.Refused? then r else Untouched, after)
  {
    var (r, after) := RunOf(file, lead, true, tierOf);
    if r.Wrote? {
      var data, leads := file.value.entries, Targets(file.value, lead);
      FirstUnmappedNone(data, leads, tierOf);
      RerankAllAt(data, data, leads, tierOf);
      var data' := after.value.entries;
      hide FirstUnmapped, CountMoved, RerankAll, NamesMove, RerankedLead, Mapped, InOrder;
      forall l | l in leads && l in data
        ensures Mapped(data'[l], tierOf) && !NamesMove(data'[l], tierOf)
      {
        RerankedLeadIsOrdered(data[l], tierOf);
      }
      FirstUnmappedNone(data', leads, tierOf);
      CountMovedZero(data', leads, tierOf);
    }
  }

  /** When every targeted lead has distinct names, a confirmed run writes exactly when some lead is out of order. */
  lemma DistinctNamesWriteIffOutOfOrder(file: Option<CandidatesFile>, lead: Option<string>, tierOf: Taxonomy)
    requires Precheck(file, lead).None?
    requires AllMapped(file.value.entries, Targets(file.value, lead), tierOf)
    requires forall l :: l in Targets(file.value, lead) && l in file.value.entries ==>
               forall i, j :: 0 <= i < j < |file.value.entries[l]| ==>
                 file.value.entries[l][i].fullName != file.value.entries[l][j].fullName
    ensures RunOf(file, lead, true, tierOf).0.Wrote?
       <==> !AllInOrder(file.value.entries, Targets(file.value, lead), tierOf)
  {
    var data, leads := file.value.entries, Targets(file.value, lead);
    ConfirmedRun(file, lead, tierOf);
    hide RunOf, Targets, Precheck, NamesMove, InOrder;
    forall l | l in leads && l in data
      ensures NamesMove(data[l], tierOf) <==> !InOrder(data[l], tierOf)
    {
      NamesMoveIffOutOfOrder(data[l], tierOf);
    }
  }

  /** Without that, a lead can stay out of order: two entries of one name swap, no name moves, nothing is written. */
  lemma SameNameStaysOutOfOrder()
    ensures var manager := Entry("Ann Lee", "Practice Manager", None, None, None);
            var owner := Entry("Ann Lee", "Owner", None, None, None);
            var tierOf := (t: string) => if t == "Owner" then Some(1) else Some(3);
            var file := Some(CandidatesFile(["lead"], map["lead" := [manager, owner]]));
            && !InOrder([manager, owner], tierOf)
            && RunOf(file, None, true, tierOf) == (Untouched, file)
  {
    var manager := Entry("Ann Lee", "Practice Manager", None, None, None);
    var owner := Entry("Ann Lee", "Owner", None, None, None);
    var tierOf := (t: string) => if t == "Owner" then Some(1) else Some(3);
    var a, b := Ranked(manager, 3), Ranked(owner, 1);
    var file := Some(CandidatesFile(["lead"], map["lead" := [manager, owner]]));
    var data := file.value.entries;
    assert manager.title != "Owner" by { assert manager.title[0] != "Owner"[0]; }
    assert Tiered([owner], tierOf) == [b];
    assert [manager, owner][1..] == [owner];
    assert Tiered([manager, owner], tierOf) == [a, b];
    assert Before([a, b][1], [a, b][0]);
    assert Sort([b]) == [b];
    assert [a, b][1..] == [b];
    assert Insert(a, []) == [a];
    assert Sort([a, b]) == [b, a];
    assert Names([a, b]) == Names([b, a]);
    FirstUnmappedNone(data, ["lead"], tierOf);
    CountMovedZero(data, ["lead"], tierOf);
  }
}
