/**
 What lead collection writes (src/pipeline/collect-leads.ts): the rows each candidate leaves, told candidate by
 candidate over every run, and what a whole run does to the facts, the lead rows and the counters.
 */
module LeadCollectionHistory {
  import opened Wrappers
  import opened LeadCollection
  import opened LeadCollectionRuns
  import Text

  // ---------- what one candidate leaves ----------

  predicate Blank(s: Option<string>) {
    s.None? || Text.Trim(s.value) == ""
  }

  /** The value of the last input of this type. */
  function LastInput(inputs: seq<(string, string)>, kind: string): Option<string> {
    if inputs == [] then None
    else
      var n := |inputs| - 1;
      if inputs[n].0 == kind then Some(inputs[n].1) else LastInput(inputs[..n], kind)
  }

  type Facts = map<(nat, string), FactValue>

  function FactAt(facts: Facts, lead: nat, kind: string): Option<FactValue> {
    if (lead, kind) in facts then Some(facts[(lead, kind)]) else None
  }

  /** The facts a lead made from these facts starts with: of each type the last value built. */
  function FirstFact(env: Env, facts: Option<LeadFacts>, kind: string): Option<FactValue> {
    if facts.None? then None
    else
      match LastInput(env.factInputs(facts.value), kind)
      case None => None
      case Some(value) => Some(FactValue(value, env.factsSource))
  }

  /** One entity, one observation and one event are appended. */
  ghost predicate Appends(b: Db, a: Db, entity: Entity, o: Observation, e: Event) {
    && a.core.entities == b.core.entities + [entity]
    && a.observations == b.observations + [o]
    && a.events == b.events + [e]
  }

  /** One lead is appended, and of all facts only its own are new. */
  ghost predicate AddsLead(env: Env, b: Db, a: Db, row: Lead) {
    && a.core.leads == b.core.leads + [row]
    && forall lead: nat, kind: string ::
         FactAt(a.core.facts, lead, kind)
         == if lead == |b.core.leads| && FirstFact(env, row.facts, kind).Some? then FirstFact(env, row.facts, kind)
            else FactAt(b.core.facts, lead, kind)
  }

  /** A place seen for the first time, by decision. */
  ghost predicate FirstSeen(env: Env, b: Db, a: Db, c: Candidate, placeId: string, request: nat, now: nat) {
    var entity, lead := |b.core.entities|, |b.core.leads|;
    && a.lastSeen == b.lastSeen[entity := now]
    && match (if c.facts.None? then Unique else env.decide(c.facts.value, b.core.leads))
       case Duplicate(merged, tier) =>
         && a.core.leads == b.core.leads && a.core.facts == b.core.facts
         && Appends(b, a, Entity(env.provider, placeId, merged),
                    Observation(entity, request, DUPLICATE, MergeTier(tier)),
                    Event(Some(merged), LEAD_DUPLICATE, false))
       case Branch(_) =>
         && AddsLead(env, b, a, Lead(placeId, env.provider, c.facts, UniqueLead, None))
         && Appends(b, a, Entity(env.provider, placeId, lead),
                    Observation(entity, request, CREATED, BranchTier),
                    Event(Some(lead), LEAD_BRANCH, true))
       case Ambiguous(other) =>
         && AddsLead(env, b, a, Lead(placeId, env.provider, c.facts, AmbiguousLead, Some(other)))
         && Appends(b, a, Entity(env.provider, placeId, lead),
                    Observation(entity, request, AMBIGUOUS, AmbiguousTier),
                    Event(Some(lead), LEAD_AMBIGUOUS, true))
       case Unique =>
         && AddsLead(env, b, a, Lead(placeId, env.provider, c.facts, UniqueLead, None))
         && Appends(b, a, Entity(env.provider, placeId, lead),
                    Observation(entity, request, CREATED, NoTier),
                    Event(Some(lead), LEAD_COLLECTED, true))
  }

  /** A place seen before, at row i of the entities. */
  ghost predicate SeenAgain(env: Env, b: Db, a: Db, i: nat, placeId: string, request: nat, now: nat) {
    && i < |b.core.entities|
    && b.core.entities[i].provider == env.provider && b.core.entities[i].sourcePlaceId == placeId
    && a == b.(lastSeen := b.lastSeen[i := now],
               observations := b.observations + [Observation(i, request, REFRESHED, PlaceIdTier)],
               events := b.events + [Event(Some(b.core.entities[i].leadId), SOURCE_REFRESHED, false)])
  }

  ghost predicate Leaves(env: Env, b: Db, a: Db, c: Candidate, request: nat, now: nat) {
    var placeId := Text.Trim(c.sourcePlaceId);
    if placeId == "" || (&& c.facts.Some? && Blank(c.facts.value.businessName) && Blank(c.facts.value.domain)
                         && Blank(c.facts.value.phone)) then
      a == b.(events := b.events + [Event(None, LEAD_REJECTED, false)])
    else if exists e :: e in b.core.entities && e.provider == env.provider && e.sourcePlaceId == placeId then
      exists i :: SeenAgain(env, b, a, i, placeId, request, now)
    else
      FirstSeen(env, b, a, c, placeId, request, now)
  }

  lemma {:induction false} WriteFactsMeans(facts: Facts, lead: nat, source: string, inputs: seq<(string, string)>,
                                           l: nat, kind: string)
    ensures FactAt(WriteFacts(facts, lead, source, inputs), l, kind)
         == if l == lead && LastInput(inputs, kind).Some? then Some(FactValue(LastInput(inputs, kind).value, source))
            else FactAt(facts, l, kind)
    decreases |inputs|
  {
    if inputs != [] {
      WriteFactsMeans(facts, lead, source, inputs[..|inputs| - 1], l, kind);
    }
  }

  lemma NewLeadLeaves(env: Env, b: Db, c: Candidate, request: nat, now: nat)
    requires !Known(env, b.core, c) && !Decide(env, b.core, c).Duplicate?
    ensures AddsLead(env, b, Process(env, b, c, request, now).0, NewLeadRow(env, c, Decide(env, b.core, c)))
  {
    var row := NewLeadRow(env, c, Decide(env, b.core, c));
    var inputs := FactsOf(env, c, Decide(env, b.core, c));
    forall l: nat, kind: string
      ensures FactAt(CoreStep(env, b.core, c).facts, l, kind)
           == if l == |b.core.leads| && FirstFact(env, row.facts, kind).Some? then FirstFact(env, row.facts, kind)
              else FactAt(b.core.facts, l, kind)
    {
      WriteFactsMeans(b.core.facts, |b.core.leads|, env.factsSource, inputs, l, kind);
    }
    hide WriteFacts, FirstFact, LastInput, Malformed, FindEntity;
  }

  /** Processing a candidate leaves exactly the rows of its case, and reports the lead of its event. */
  lemma ProcessLeaves(env: Env, b: Db, c: Candidate, request: nat, now: nat)
    ensures var (a, o) := Process(env, b, c, request, now);
            && Leaves(env, b, a, c, request, now)
            && a.events != [] && o.leadId == a.events[|a.events| - 1].leadId
            && o.newLead == a.events[|a.events| - 1].toStatusNew
  {
    var a := Process(env, b, c, request, now).0;
    var placeId := Text.Trim(c.sourcePlaceId);
    hide WriteFacts, AddsLead, Text.Trim;
    if !Malformed(c) {
      var known := FindEntity(b.core.entities, env.provider, placeId);
      if known.Some? {
        assert b.core.entities[known.value] in b.core.entities;
        assert SeenAgain(env, b, a, known.value, placeId, request, now);
      } else if !Decide(env, b.core, c).Duplicate? {
        NewLeadLeaves(env, b, c, request, now);
      } else {
        assert WriteFacts(b.core.facts, Decide(env, b.core, c).leadId, env.factsSource, []) == b.core.facts by {
          NothingToWrite(b.core.facts, Decide(env, b.core, c).leadId, env.factsSource);
        }
      }
    }
  }

  lemma NothingToWrite(facts: Facts, lead: nat, source: string)
    ensures WriteFacts(facts, lead, source, []) == facts
  {
  }

  // ---------- what a run leaves, candidate by candidate ----------

  /** The candidates a provider gets to hand over, each with the number of its page's recorded request. */
  function Handed(pages: seq<PageEvent>, request: nat): seq<(Candidate, nat)> {
    if pages == [] || pages[0].ProviderThrows? || pages[0].recordThrows || pages[0].failedStatus then []
    else
      var cs := pages[0].candidates;
      seq(|cs|, i requires 0 <= i < |cs| => (cs[i], request + 1)) + Handed(pages[1..], request + 1)
  }

  /** Attempt k: a fault leaves the database as it was, and anything else leaves what the candidate calls for. */
  ghost predicate Attempted(env: Env, b: Db, a: Db, handed: (Candidate, nat), sched: Schedule, k: nat) {
    if Fails(env, b.core, handed.0, sched.faults(k)) then a == b
    else Leaves(env, b, a, handed.0, handed.1, sched.clock(k))
  }

  /** The databases between the attempts, the first of which is the k-th of the run. */
  ghost predicate Chain(env: Env, dbs: seq<Db>, handed: seq<(Candidate, nat)>, sched: Schedule, k: nat) {
    && 1 <= |dbs| <= |handed| + 1
    && forall i :: 0 <= i < |dbs| - 1 ==> Attempted(env, dbs[i], dbs[i + 1], handed[i], sched, k + i)
  }

  /** What it takes to be the chain of a run from s to t. */
  ghost predicate ChainOf(env: Env, dbs: seq<Db>, handed: seq<(Candidate, nat)>, sched: Schedule, s: RunState,
                          t: RunState) {
    && Chain(env, dbs, handed, sched, s.summary.Attempted())
    && dbs[0] == s.db && dbs[|dbs| - 1] == t.db
    && t.summary.Attempted() == s.summary.Attempted() + |dbs| - 1
    && (!t.summary.stoppedAtCap ==> |dbs| == |handed| + 1)
  }

  lemma AttemptIsChained(env: Env, s: RunState, c: Candidate, sched: Schedule)
    ensures var t, k := AttemptOne(env, s, c, sched), s.summary.Attempted();
            && Attempted(env, s.db, t.db, (c, s.summary.requests), sched, k)
            && t.summary.requests == s.summary.requests && t.summary.Attempted() == k + 1
            && t.summary.stoppedAtCap == s.summary.stoppedAtCap
  {
    var k := s.summary.Attempted();
    ProcessLeaves(env, s.db, c, s.summary.requests, sched.clock(k));
    CountEffect(s.summary, Threw);
    CountEffect(s.summary, Committed(Process(env, s.db, c, s.summary.requests, sched.clock(k)).1));
    hide Process, Leaves, Fails, Summary.Attempted;
  }

  lemma ChainCons(env: Env, dbs: seq<Db>, handed: seq<(Candidate, nat)>, sched: Schedule, k: nat,
                  b: Db, first: (Candidate, nat))
    requires Chain(env, dbs, handed, sched, k + 1) && Attempted(env, b, dbs[0], first, sched, k)
    ensures Chain(env, [b] + dbs, [first] + handed, sched, k)
  {
    hide Attempted;
    var all, from := [b] + dbs, [first] + handed;
    forall i | 0 <= i < |dbs|
      ensures Attempted(env, all[i], all[i + 1], from[i], sched, k + i)
    {
      if i > 0 {
        assert all[i] == dbs[i - 1] && all[i + 1] == dbs[i] && from[i] == handed[i - 1];
        assert Attempted(env, dbs[i - 1], dbs[i - 1 + 1], handed[i - 1], sched, k + 1 + (i - 1));
      }
    }
  }

  function OfPage(cs: seq<Candidate>, request: nat): seq<(Candidate, nat)> {
    seq(|cs|, i requires 0 <= i < |cs| => (cs[i], request))
  }

  lemma OneMoreAttempt(env: Env, s: RunState, c: Candidate, rest: seq<Db>, later: seq<(Candidate, nat)>,
                       sched: Schedule,
                       t: RunState)
    requires ChainOf(env, rest, later, sched, AttemptOne(env, s, c, sched), t)
    ensures ChainOf(env, [s.db] + rest, [(c, s.summary.requests)] + later, sched, s, t)
  {
    AttemptIsChained(env, s, c, sched);
    hide AttemptOne, Attempted, Summary.Attempted;
    ChainCons(env, rest, later, sched, s.summary.Attempted(), s.db, (c, s.summary.requests));
  }

  lemma OfPageCons(cs: seq<Candidate>, request: nat)
    requires cs != []
    ensures [(cs[0], request)] + OfPage(cs[1..], request) == OfPage(cs, request)
  {
  }

  lemma StoppedAtOnce(env: Env, s: RunState, cs: seq<Candidate>, cap: int, sched: Schedule)
    requires (cs == [] || s.summary.NewLeads() >= cap) && !s.summary.stoppedAtCap
    ensures ChainOf(env, [s.db], OfPage(cs, s.summary.requests), sched, s, RunCandidates(env, s, cs, cap, sched))
  {
  }

  lemma {:induction false} CandidatesAreChained(env: Env, s: RunState, cs: seq<Candidate>, cap: int, sched: Schedule)
    returns (dbs: seq<Db>)
    requires !s.summary.stoppedAtCap
    ensures var t := RunCandidates(env, s, cs, cap, sched);
            && ChainOf(env, dbs, OfPage(cs, s.summary.requests), sched, s, t)
            && t.summary.requests == s.summary.requests
    decreases |cs|
  {
    CandidatesLeavePageCounters(env, s, cs, cap, sched);
    hide AttemptOne, ChainOf, Summary.Attempted, Summary.NewLeads, OfPage;
    if cs == [] || s.summary.NewLeads() >= cap {
      dbs := [s.db];
      StoppedAtOnce(env, s, cs, cap, sched);
    } else {
      var next := AttemptOne(env, s, cs[0], sched);
      AttemptIsChained(env, s, cs[0], sched);
      var rest := CandidatesAreChained(env, next, cs[1..], cap, sched);
      OneMoreAttempt(env, s, cs[0], rest, OfPage(cs[1..], s.summary.requests), sched,
                     RunCandidates(env, next, cs[1..], cap, sched));
      OfPageCons(cs, s.summary.requests);
      dbs := [s.db] + rest;
    }
  }

  /** Two chains, the first of which used up its candidates, make one. */
  lemma ChainJoin(env: Env, one: seq<Db>, two: seq<Db>, h1: seq<(Candidate, nat)>, h2: seq<(Candidate, nat)>,
                  sched: Schedule, k: nat)
    requires Chain(env, one, h1, sched, k) && |one| == |h1| + 1
    requires Chain(env, two, h2, sched, k + |h1|) && two[0] == one[|one| - 1]
    ensures Chain(env, one + two[1..], h1 + h2, sched, k)
  {
    hide Attempted;
    var all, from := one + two[1..], h1 + h2;
    forall i | 0 <= i < |all| - 1
      ensures Attempted(env, all[i], all[i + 1], from[i], sched, k + i)
    {
      if i >= |h1| {
        var j := i - |h1|;
        assert all[i] == two[j] && all[i + 1] == two[j + 1] && from[i] == h2[j];
        assert Attempted(env, two[j], two[j + 1], h2[j], sched, k + |h1| + j);
      } else {
        assert Attempted(env, one[i], one[i + 1], h1[i], sched, k + i);
      }
    }
  }

  lemma MoreHanded(env: Env, dbs: seq<Db>, handed: seq<(Candidate, nat)>, more: seq<(Candidate, nat)>, sched: Schedule,
                   k: nat)
    requires Chain(env, dbs, handed, sched, k)
    ensures Chain(env, dbs, handed + more, sched, k)
  {
    hide Attempted;
    forall i | 0 <= i < |dbs| - 1
      ensures Attempted(env, dbs[i], dbs[i + 1], (handed + more)[i], sched, k + i)
    {
      assert (handed + more)[i] == handed[i];
    }
  }

  lemma PageOpens(s: RunState, pages: seq<PageEvent>)
    requires pages != [] && !Stops(pages[0])
    ensures var s0, r := OpenPage(s, pages[0]), s.summary.requests;
            && s0.db == s.db && s0.summary.requests == r + 1
            && s0.summary.Attempted() == s.summary.Attempted() && s0.summary.stoppedAtCap == s.summary.stoppedAtCap
            && Handed(pages, r) == OfPage(pages[0].candidates, r + 1) + Handed(pages[1..], r + 1)
  {
  }

  lemma RunOfPages(env: Env, s: RunState, pages: seq<PageEvent>, cap: int, sched: Schedule)
    ensures var t := RunPages(env, s, pages, cap, sched);
            if pages == [] || Stops(pages[0]) then
              && t.db == s.db && t.summary.Attempted() == s.summary.Attempted()
              && Handed(pages, s.summary.requests) == []
            else
              var s1 := RunCandidates(env, OpenPage(s, pages[0]), pages[0].candidates, cap, sched);
              t == if s1.summary.stoppedAtCap then s1 else RunPages(env, s1, pages[1..], cap, sched)
  {
    hide RunCandidates;
  }

  lemma NothingHanded(env: Env, sched: Schedule, s: RunState, t: RunState)
    requires t.db == s.db && t.summary.Attempted() == s.summary.Attempted()
    ensures ChainOf(env, [s.db], [], sched, s, t)
  {
    hide Summary.Attempted;
  }

  lemma StoppedOnPage(env: Env, dbs: seq<Db>, here: seq<(Candidate, nat)>, later: seq<(Candidate, nat)>,
                      sched: Schedule,
                      s: RunState, t: RunState)
    requires ChainOf(env, dbs, here, sched, s, t) && t.summary.stoppedAtCap
    ensures ChainOf(env, dbs, here + later, sched, s, t)
  {
    hide Summary.Attempted, Attempted;
    MoreHanded(env, dbs, here, later, sched, s.summary.Attempted());
  }

  lemma OnToNextPage(env: Env, one: seq<Db>, two: seq<Db>, here: seq<(Candidate, nat)>, later: seq<(Candidate, nat)>,
                     sched: Schedule, s: RunState, m: RunState, t: RunState)
    requires ChainOf(env, one, here, sched, s, m) && !m.summary.stoppedAtCap && ChainOf(env, two, later, sched, m, t)
    ensures |two| >= 1
    ensures ChainOf(env, one + two[1..], here + later, sched, s, t)
  {
    hide Summary.Attempted, Attempted;
    ChainJoin(env, one, two, here, later, sched, s.summary.Attempted());
  }

  lemma {:induction false} PagesAreChained(env: Env, s: RunState, pages: seq<PageEvent>, cap: int, sched: Schedule)
    returns (dbs: seq<Db>)
    requires !s.summary.stoppedAtCap
    ensures ChainOf(env, dbs, Handed(pages, s.summary.requests), sched, s, RunPages(env, s, pages, cap, sched))
    decreases |pages|
  {
    hide RunPages, RunCandidates, OpenPage, Handed, ChainOf, OfPage, Summary.Attempted;
    var r, t := s.summary.requests, RunPages(env, s, pages, cap, sched);
    RunOfPages(env, s, pages, cap, sched);
    if pages == [] || Stops(pages[0]) {
      dbs := [s.db];
      NothingHanded(env, sched, s, t);
    } else {
      var s0, cs := OpenPage(s, pages[0]), pages[0].candidates;
      PageOpens(s, pages);
      var s1 := RunCandidates(env, s0, cs, cap, sched);
      dbs := CandidatesAreChained(env, s0, cs, cap, sched);
      SamePage(env, dbs, OfPage(cs, r + 1), sched, s, s0, s1);
      if s1.summary.stoppedAtCap {
        StoppedOnPage(env, dbs, OfPage(cs, r + 1), Handed(pages[1..], r + 1), sched, s, t);
      } else {
        var two := PagesAreChained(env, s1, pages[1..], cap, sched);
        OnToNextPage(env, dbs, two, OfPage(cs, r + 1), Handed(pages[1..], r + 1), sched, s, s1, t);
        dbs := dbs + two[1..];
      }
    }
  }

  lemma SamePage(env: Env, dbs: seq<Db>, handed: seq<(Candidate, nat)>, sched: Schedule, s: RunState, s0: RunState,
                 t: RunState)
    requires ChainOf(env, dbs, handed, sched, s0, t)
    requires s0.db == s.db && s0.summary.Attempted() == s.summary.Attempted()
    ensures ChainOf(env, dbs, handed, sched, s, t)
  {
  }

  /**
   A run, told from the candidates handed over: attempt k is the k-th of them, in order and up to where the cap
   stopped the run, and leaves exactly the rows of its case, or nothing at all when a fault strikes it.
   */
  lemma RunIsChain(env: Env, db: Db, pages: seq<PageEvent>, cap: int, sched: Schedule) returns (dbs: seq<Db>)
    ensures var t := Run(env, db, pages, cap, sched);
            && Chain(env, dbs, Handed(pages, 0), sched, 0)
            && dbs[0] == db && dbs[|dbs| - 1] == t.db && t.summary.Attempted() == |dbs| - 1
            && (!t.summary.stoppedAtCap ==> |dbs| == |Handed(pages, 0)| + 1)
  {
    ZeroAttempted();
    hide Chain, RunPages, Handed, Summary.Attempted;
    dbs := PagesAreChained(env, RunState(db, ZERO), pages, cap, sched);
  }

  // ---------- what a whole run does to leads and facts ----------

  /** Facts are about leads that exist. */
  ghost predicate FactsBelong(core: Core) {
    forall key :: key in core.facts ==> key.0 < |core.leads|
  }

  /** A lead row made when the leads before it were there: flagged exactly when the decision was ambiguous. */
  ghost predicate RowExplained(env: Env, before: seq<Lead>, row: Lead) {
    && row.source == env.provider
    && match (if row.facts.None? then Unique else env.decide(row.facts.value, before))
       case Duplicate(_, _) => false
       case Ambiguous(other) => row.dedupStatus == AmbiguousLead && row.duplicateOf == Some(other)
       case _ => row.dedupStatus == UniqueLead && row.duplicateOf == None
  }

  ghost predicate MadeFrom(row: Lead, handed: seq<(Candidate, nat)>) {
    exists i :: && 0 <= i < |handed|
                && Text.Trim(handed[i].0.sourcePlaceId) == row.placeId && handed[i].0.facts == row.facts
  }

  /** From one database to a later one: old leads and their facts stand, and each new lead has just its own facts. */
  ghost predicate OnlyNewLeads(env: Env, b: Db, a: Db, handed: seq<(Candidate, nat)>) {
    && b.core.leads <= a.core.leads && FactsBelong(a.core)
    && (forall lead: nat, kind: string :: lead < |b.core.leads| ==>
          FactAt(a.core.facts, lead, kind) == FactAt(b.core.facts, lead, kind))
    && (forall lead: nat, kind: string :: |b.core.leads| <= lead < |a.core.leads| ==>
          FactAt(a.core.facts, lead, kind) == FirstFact(env, a.core.leads[lead].facts, kind))
    && (forall lead: nat :: |b.core.leads| <= lead < |a.core.leads| ==>
          RowExplained(env, a.core.leads[..lead], a.core.leads[lead]) && MadeFrom(a.core.leads[lead], handed))
  }

  lemma SameCoreOnlyNew(env: Env, b: Db, m: Db, a: Db, handed: seq<(Candidate, nat)>)
    requires OnlyNewLeads(env, b, m, handed) && a.core.leads == m.core.leads && a.core.facts == m.core.facts
    ensures OnlyNewLeads(env, b, a, handed)
  {
    hide RowExplained, FirstFact, MadeFrom, FactAt;
  }

  lemma AddedOnlyNew(env: Env, b: Db, m: Db, a: Db, row: Lead, handed: seq<(Candidate, nat)>)
    requires OnlyNewLeads(env, b, m, handed) && AddsLead(env, m, a, row)
    requires RowExplained(env, m.core.leads, row) && MadeFrom(row, handed)
    ensures OnlyNewLeads(env, b, a, handed)
  {
    hide RowExplained, MadeFrom, FirstFact;
    var n := |m.core.leads|;
    forall key | key in a.core.facts
      ensures key.0 < |a.core.leads|
    {
      assert FactAt(a.core.facts, key.0, key.1).Some?;
    }
    forall lead: nat, kind: string | |b.core.leads| <= lead < |a.core.leads|
      ensures FactAt(a.core.facts, lead, kind) == FirstFact(env, a.core.leads[lead].facts, kind)
    {
      if lead == n { assert FactAt(m.core.facts, lead, kind).None?; }
    }
    forall lead: nat | |b.core.leads| <= lead < |a.core.leads|
      ensures RowExplained(env, a.core.leads[..lead], a.core.leads[lead]) && MadeFrom(a.core.leads[lead], handed)
    {
      if lead < n {
        assert a.core.leads[..lead] == m.core.leads[..lead];
      } else {
        assert a.core.leads[..lead] == m.core.leads;
      }
    }
  }

  lemma FirstSeenOnlyNew(env: Env, b: Db, m: Db, a: Db, c: Candidate, request: nat, now: nat,
                         handed: seq<(Candidate, nat)>, i: nat)
    requires OnlyNewLeads(env, b, m, handed) && FirstSeen(env, m, a, c, Text.Trim(c.sourcePlaceId), request, now)
    requires i < |handed| && handed[i].0 == c
    ensures OnlyNewLeads(env, b, a, handed)
  {
    var id := Text.Trim(c.sourcePlaceId);
    hide OnlyNewLeads, AddsLead, Text.Trim;
    match (if c.facts.None? then Unique else env.decide(c.facts.value, m.core.leads))
    case Duplicate(_, _) => SameCoreOnlyNew(env, b, m, a, handed);
    case Ambiguous(other) =>
      AddedOnlyNew(env, b, m, a, Lead(id, env.provider, c.facts, AmbiguousLead, Some(other)), handed);
    case _ =>
      AddedOnlyNew(env, b, m, a, Lead(id, env.provider, c.facts, UniqueLead, None), handed);
  }

  lemma AttemptOnlyNew(env: Env, b: Db, m: Db, a: Db, handed: seq<(Candidate, nat)>, i: nat, sched: Schedule, k: nat)
    requires OnlyNewLeads(env, b, m, handed) && i < |handed| && Attempted(env, m, a, handed[i], sched, k)
    ensures OnlyNewLeads(env, b, a, handed)
  {
    var (c, request) := handed[i];
    hide OnlyNewLeads, FirstSeen, Fails, Text.Trim;
    if a.core.leads == m.core.leads && a.core.facts == m.core.facts {
      SameCoreOnlyNew(env, b, m, a, handed);
    } else {
      FirstSeenOnlyNew(env, b, m, a, c, request, sched.clock(k), handed, i);
    }
  }

  lemma {:induction false} ChainOnlyNew(env: Env, dbs: seq<Db>, handed: seq<(Candidate, nat)>, sched: Schedule, n: nat)
    requires Chain(env, dbs, handed, sched, 0) && FactsBelong(dbs[0].core) && n < |dbs|
    ensures OnlyNewLeads(env, dbs[0], dbs[n], handed)
    decreases n
  {
    hide Attempted, RowExplained, MadeFrom, FirstFact;
    if n == 0 {
      var core := dbs[0].core;
      assert forall lead: nat, kind: string :: lead >= |core.leads| ==> FactAt(core.facts, lead, kind).None?;
    } else {
      ChainOnlyNew(env, dbs, handed, sched, n - 1);
      assert Attempted(env, dbs[n - 1], dbs[n - 1 + 1], handed[n - 1], sched, 0 + (n - 1));
      AttemptOnlyNew(env, dbs[0], dbs[n - 1], dbs[n], handed, n - 1, sched, n - 1);
    }
  }

  /**
   Over every run with any faults: no fact of a lead that was there before is added, changed or removed, whatever the
   candidates; a lead made in the run has of each type exactly the last value built from the candidate it was made from,
   and is flagged as a possible duplicate exactly when the decision on that candidate was ambiguous.
   */
  lemma RunAddsOnlyNewLeads(env: Env, db: Db, pages: seq<PageEvent>, cap: int, sched: Schedule)
    requires FactsBelong(db.core)
    ensures OnlyNewLeads(env, db, Run(env, db, pages, cap, sched).db, Handed(pages, 0))
  {
    var dbs := RunIsChain(env, db, pages, cap, sched);
    hide Chain, OnlyNewLeads, Run, Handed;
    ChainOnlyNew(env, dbs, Handed(pages, 0), sched, |dbs| - 1);
  }

  // ---------- the counters ----------

  function Tally(events: seq<Event>, kind: EventType): nat {
    if events == [] then 0
    else Tally(events[..|events| - 1], kind) + (if events[|events| - 1].kind == kind then 1 else 0)
  }

  lemma TallySnoc(events: seq<Event>, e: Event, kind: EventType)
    ensures Tally(events + [e], kind) == Tally(events, kind) + (if e.kind == kind then 1 else 0)
  {
    assert (events + [e])[..|events|] == events;
  }

  /** Each counter stands where the events of its own kind do. */
  predicate CountersAre(sum: Summary, from: Summary, added: EventType -> int) {
    && sum.created == from.created + added(LEAD_COLLECTED) && sum.duplicates == from.duplicates + added(LEAD_DUPLICATE)
    && sum.refreshed == from.refreshed + added(SOURCE_REFRESHED)
    && sum.ambiguous == from.ambiguous + added(LEAD_AMBIGUOUS)
    && sum.branches == from.branches + added(LEAD_BRANCH) && sum.rejected == from.rejected + added(LEAD_REJECTED)
  }

  ghost predicate CountsEvents(s: RunState, t: RunState) {
    CountersAre(t.summary, s.summary, kind => Tally(t.db.events, kind) - Tally(s.db.events, kind))
  }

  lemma AttemptCountsEvents(env: Env, s: RunState, c: Candidate, sched: Schedule)
    ensures CountsEvents(s, AttemptOne(env, s, c, sched))
  {
    var k, t := s.summary.Attempted(), AttemptOne(env, s, c, sched);
    hide CoreStep, FindEntity, Malformed, Writes, Summary.Attempted, Tally;
    if !Fails(env, s.db.core, c, sched.faults(k)) {
      var a := Process(env, s.db, c, s.summary.requests, sched.clock(k)).0;
      var e := a.events[|s.db.events|];
      assert a.events == s.db.events + [e];
      forall kind { TallySnoc(s.db.events, e, kind); }
    }
  }

  lemma CountsChain(a: RunState, b: RunState, c: RunState)
    requires CountsEvents(a, b) && CountsEvents(b, c)
    ensures CountsEvents(a, c)
  {
    hide Tally;
  }

  lemma {:induction false} CandidatesCountEvents(env: Env, s: RunState, cs: seq<Candidate>, cap: int, sched: Schedule)
    ensures CountsEvents(s, RunCandidates(env, s, cs, cap, sched))
    decreases |cs|
  {
    if cs != [] && s.summary.NewLeads() < cap {
      var next := AttemptOne(env, s, cs[0], sched);
      AttemptCountsEvents(env, s, cs[0], sched);
      hide AttemptOne, CountersAre;
      CandidatesCountEvents(env, next, cs[1..], cap, sched);
      CountsChain(s, next, RunCandidates(env, next, cs[1..], cap, sched));
    }
  }

  lemma {:induction false} PagesCountEvents(env: Env, s: RunState, pages: seq<PageEvent>, cap: int, sched: Schedule)
    ensures CountsEvents(s, RunPages(env, s, pages, cap, sched))
    decreases |pages|
  {
    if pages != [] && !Stops(pages[0]) {
      var s0 := OpenPage(s, pages[0]);
      assert CountsEvents(s, s0);
      CandidatesCountEvents(env, s0, pages[0].candidates, cap, sched);
      var s1 := RunCandidates(env, s0, pages[0].candidates, cap, sched);
      hide RunCandidates, CountersAre, OpenPage, Tally;
      CountsChain(s, s0, s1);
      PagesCountEvents(env, s1, pages[1..], cap, sched);
      CountsChain(s, s1, RunPages(env, s1, pages[1..], cap, sched));
    }
  }

  /** Over every run: each of the six outcome counters is the number of events of its own kind that the run appended. */
  lemma CountersMatchEvents(env: Env, db: Db, pages: seq<PageEvent>, cap: int, sched: Schedule)
    ensures var t := Run(env, db, pages, cap, sched);
            CountersAre(t.summary, ZERO, kind => Tally(t.db.events, kind) - Tally(db.events, kind))
  {
    PagesCountEvents(env, RunState(db, ZERO), pages, cap, sched);
    hide RunPages, Tally, CountersAre;
  }

  /** The first n pages are what a run saw of its provider: all but the last let it go on. */
  predicate Reached(pages: seq<PageEvent>, n: nat) {
    n <= |pages| && forall i :: 0 <= i < n - 1 ==> pages[i].Page? && !pages[i].recordThrows && !pages[i].failedStatus
  }

  /** What the page counters of a run say when it saw n pages. */
  predicate PageCounters(sum: Summary, from: Summary, pages: seq<PageEvent>, n: nat) {
    && Reached(pages, n)
    && var last := if n == 0 then Page([], false, false) else pages[n - 1];
       && sum.pages == from.pages + n - (if last.ProviderThrows? then 1 else 0)
       && sum.requests == from.requests + n - (if last.ProviderThrows? || last.recordThrows then 1 else 0)
       && sum.interrupted == (from.interrupted || last.ProviderThrows? || last.recordThrows || last.failedStatus)
       && (sum.stoppedAtCap ==> !sum.interrupted || from.interrupted)
       && (!sum.stoppedAtCap && !sum.interrupted ==> n == |pages|)
  }

  lemma {:induction false} CandidatesLeavePageCounters(env: Env, s: RunState, cs: seq<Candidate>, cap: int,
                                                        sched: Schedule)
    ensures var t := RunCandidates(env, s, cs, cap, sched).summary;
            t.pages == s.summary.pages && t.requests == s.summary.requests && t.interrupted == s.summary.interrupted
    decreases |cs|
  {
    if cs != [] && s.summary.NewLeads() < cap {
      assert var t := AttemptOne(env, s, cs[0], sched).summary;
             t.pages == s.summary.pages && t.requests == s.summary.requests && t.interrupted == s.summary.interrupted;
      hide AttemptOne;
      CandidatesLeavePageCounters(env, AttemptOne(env, s, cs[0], sched), cs[1..], cap, sched);
    }
  }

  /** Every page fetched and every request recorded is counted, and the run says why it ended where it did. */
  lemma {:induction false} PagesAreCounted(env: Env, s: RunState, pages: seq<PageEvent>, cap: int, sched: Schedule)
    returns (n: nat)
    requires !s.summary.stoppedAtCap && !s.summary.interrupted
    ensures PageCounters(RunPages(env, s, pages, cap, sched).summary, s.summary, pages, n)
    decreases |pages|
  {
    if pages == [] {
      n := 0;
    } else if Stops(pages[0]) {
      n := 1;
    } else {
      var s0 := OpenPage(s, pages[0]);
      var s1 := RunCandidates(env, s0, pages[0].candidates, cap, sched);
      CandidatesLeavePageCounters(env, s0, pages[0].candidates, cap, sched);
      hide RunCandidates;
      if s1.summary.stoppedAtCap {
        n := 1;
      } else {
        var rest := PagesAreCounted(env, s1, pages[1..], cap, sched);
        n := rest + 1;
        assert rest > 0 ==> pages[1..][rest - 1] == pages[n - 1];
        assert forall i :: 0 < i < n - 1 ==> pages[i] == pages[1..][i - 1];
      }
    }
  }
}
