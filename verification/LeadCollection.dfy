/**
 Lead collection (src/pipeline/collect-leads.ts): pages of candidates, one transaction per
 candidate, a cap on new leads, rollback of a throwing candidate, and reruns from page 1.

 The dedup decision (findDedupCandidates followed by decideMatch) and the fact builder are
 arbitrary deterministic functions, so every theorem holds whatever they compute.
 */
module LeadCollection {
  import opened Wrappers
  import Text

  datatype LeadFacts = LeadFacts(businessName: Option<string>, domain: Option<string>,
                                 phone: Option<string>, rest: map<string, string>)

  datatype Candidate = Candidate(sourcePlaceId: string, facts: Option<LeadFacts>)

  datatype DedupStatus = UniqueLead | AmbiguousLead

  // A lead row; its id is its position in the table (a fresh counter).
  datatype Lead = Lead(placeId: string, source: string, facts: Option<LeadFacts>,
                       dedupStatus: DedupStatus, duplicateOf: Option<nat>)

  datatype Entity = Entity(provider: string, sourcePlaceId: string, leadId: nat)

  datatype FactValue = FactValue(value: string, sourceType: string)

  datatype MatchTier = PlaceIdTier | NoTier | BranchTier | AmbiguousTier | MergeTier(name: string)

  datatype Decision =
    | Duplicate(leadId: nat, tier: string)
    | Branch(relatedLeadId: nat)
    | Ambiguous(candidateLeadId: nat)
    | Unique

  datatype ProcessingResult = CREATED | DUPLICATE | REFRESHED | AMBIGUOUS | BRANCH | REJECTED

  datatype Observation = Observation(entity: nat, requestId: nat, result: ProcessingResult, tier: MatchTier)

  datatype EventType = LEAD_REJECTED | SOURCE_REFRESHED | LEAD_COLLECTED | LEAD_DUPLICATE | LEAD_BRANCH | LEAD_AMBIGUOUS

  datatype Event = Event(leadId: Option<nat>, kind: EventType, toStatusNew: bool)

  datatype Outcome = Outcome(result: ProcessingResult, newLead: bool, leadId: Option<nat>)

  /** What two runs are compared on: no timestamps, no append-only history. */
  datatype Core = Core(leads: seq<Lead>, entities: seq<Entity>, facts: map<(nat, string), FactValue>)

  datatype Db = Db(core: Core, lastSeen: map<nat, nat>, observations: seq<Observation>, events: seq<Event>)

  datatype Env = Env(provider: string,
                     decide: (LeadFacts, seq<Lead>) -> Decision,
                     factInputs: LeadFacts -> seq<(string, string)>,
                     factsSource: string)

  /** decideMatch merges only into a lead it was shown. */
  ghost predicate DecidesAmongLeads(env: Env) {
    forall f: LeadFacts, leads: seq<Lead> :: DecisionInside(env.decide(f, leads), leads)
  }

  predicate DecisionInside(d: Decision, leads: seq<Lead>) {
    match d
    case Duplicate(id, _) => id < |leads|
    case Branch(id) => id < |leads|
    case Ambiguous(id) => id < |leads|
    case Unique => true
  }

  // ---------- one candidate ----------

  predicate Present(s: Option<string>) {
    s.Some? && Text.Trim(s.value) != ""
  }

  predicate HasIdentity(facts: LeadFacts) {
    Present(facts.businessName) || Present(facts.domain) || Present(facts.phone)
  }

  predicate Malformed(c: Candidate) {
    Text.Trim(c.sourcePlaceId) == "" || (c.facts.Some? && !HasIdentity(c.facts.value))
  }

  /** The row `findByProviderPlaceId` returns. */
  function FindEntity(entities: seq<Entity>, provider: string, placeId: string): (r: Option<nat>)
    ensures r.Some? ==> r.value < |entities| && entities[r.value].provider == provider
                        && entities[r.value].sourcePlaceId == placeId
    ensures r.None? ==> forall e :: e in entities ==> e.provider != provider || e.sourcePlaceId != placeId
  {
    if entities == [] then None
    else
      var last := |entities| - 1;
      if entities[last].provider == provider && entities[last].sourcePlaceId == placeId then Some(last)
      else FindEntity(entities[..last], provider, placeId)
  }

  /** `writeCurrentFact` for each built fact, in order. */
  function WriteFacts(facts: map<(nat, string), FactValue>, leadId: nat, source: string,
                      inputs: seq<(string, string)>): map<(nat, string), FactValue>
  {
    if inputs == [] then facts
    else
      var n := |inputs| - 1;
      WriteFacts(facts, leadId, source, inputs[..n])[(leadId, inputs[n].0) := FactValue(inputs[n].1, source)]
  }

  /** How a candidate that is neither malformed nor known is classified. */
  function Decide(env: Env, core: Core, c: Candidate): Decision {
    if c.facts.None? then Unique else env.decide(c.facts.value, core.leads)
  }

  function NewLeadRow(env: Env, c: Candidate, d: Decision): Lead {
    Lead(Text.Trim(c.sourcePlaceId), env.provider, c.facts,
         if d.Ambiguous? then AmbiguousLead else UniqueLead,
         if d.Ambiguous? then Some(d.candidateLeadId) else None)
  }

  function ResultOf(d: Decision): ProcessingResult {
    match d
    case Duplicate(_, _) => DUPLICATE
    case Branch(_) => BRANCH
    case Ambiguous(_) => AMBIGUOUS
    case Unique => CREATED
  }

  function TierOf(d: Decision): MatchTier {
    match d
    case Duplicate(_, tier) => MergeTier(tier)
    case Branch(_) => BranchTier
    case Ambiguous(_) => AmbiguousTier
    case Unique => NoTier
  }

  function EventOf(d: Decision): EventType {
    match d
    case Duplicate(_, _) => LEAD_DUPLICATE
    case Branch(_) => LEAD_BRANCH
    case Ambiguous(_) => LEAD_AMBIGUOUS
    case Unique => LEAD_COLLECTED
  }

  function LeadIdOf(core: Core, d: Decision): nat {
    if d.Duplicate? then d.leadId else |core.leads|
  }

  function FactsOf(env: Env, c: Candidate, d: Decision): seq<(string, string)> {
    if c.facts.Some? && !d.Duplicate? then env.factInputs(c.facts.value) else []
  }

  /** Effect of one candidate on leads, entities and facts. */
  function CoreStep(env: Env, core: Core, c: Candidate): Core {
    if Known(env, core, c) then core
    else
      var d := Decide(env, core, c);
      var leadId := LeadIdOf(core, d);
      Core(if d.Duplicate? then core.leads else core.leads + [NewLeadRow(env, c, d)],
           core.entities + [Entity(env.provider, Text.Trim(c.sourcePlaceId), leadId)],
           WriteFacts(core.facts, leadId, env.factsSource, FactsOf(env, c, d)))
  }

  /** A candidate that can no longer change leads, entities or facts. */
  predicate Known(env: Env, core: Core, c: Candidate) {
    Malformed(c) || FindEntity(core.entities, env.provider, Text.Trim(c.sourcePlaceId)).Some?
  }

  predicate MakesLead(env: Env, core: Core, c: Candidate) {
    !Known(env, core, c) && !Decide(env, core, c).Duplicate?
  }

  /** The committed result of processing one candidate, on the whole database. */
  function Process(env: Env, db: Db, c: Candidate, requestId: nat, now: nat): (Db, Outcome) {
    var core := db.core;
    if Malformed(c) then
      (db.(events := db.events + [Event(None, LEAD_REJECTED, false)]), Outcome(REJECTED, false, None))
    else
      match FindEntity(core.entities, env.provider, Text.Trim(c.sourcePlaceId))
      case Some(e) =>
        var leadId := core.entities[e].leadId;
        (db.(lastSeen := db.lastSeen[e := now],
             observations := db.observations + [Observation(e, requestId, REFRESHED, PlaceIdTier)],
             events := db.events + [Event(Some(leadId), SOURCE_REFRESHED, false)]),
         Outcome(REFRESHED, false, Some(leadId)))
      case None =>
        var d := Decide(env, core, c);
        var r := ResultOf(d);
        var e := |core.entities|;
        var leadId := LeadIdOf(core, d);
        (Db(CoreStep(env, core, c), db.lastSeen[e := now],
            db.observations + [Observation(e, requestId, if r == BRANCH then CREATED else r, TierOf(d))],
            db.events + [Event(Some(leadId), EventOf(d), r != DUPLICATE)]),
         Outcome(r, r != DUPLICATE, Some(leadId)))
  }

  /** How many store writes the candidate performs; a throw can hit any of them. */
  function Writes(env: Env, core: Core, c: Candidate): nat {
    if Malformed(c) then 1
    else if Known(env, core, c) then 3
    else
      var d := Decide(env, core, c);
      (if d.Duplicate? then 0 else 1) + |FactsOf(env, c, d)| + 3
  }

  datatype Attempt = Committed(outcome: Outcome) | Threw

  /** The transaction-scoped repositories, written step by step; `fuse` says which write throws. */
  class LeadStore {
    var leads: seq<Lead>
    var entities: seq<Entity>
    var facts: map<(nat, string), FactValue>
    var lastSeen: map<nat, nat>
    var observations: seq<Observation>
    var events: seq<Event>
    var fuse: Option<nat>

    constructor ()
      ensures Contents() == Db(Core([], [], map[]), map[], [], [])
    {
      leads, entities, facts, lastSeen, observations, events := [], [], map[], map[], [], [];
      fuse := None;
    }

    function Contents(): Db
      reads this
    {
      Db(Core(leads, entities, facts), lastSeen, observations, events)
    }

    ghost predicate Burns(from: Option<nat>, writes: nat)
      reads this
    {
      if from.None? then fuse.None? else from.value >= writes && fuse == Some(from.value - writes)
    }

    /** One store write is about to happen: it throws when the fuse has burnt down. */
    method Burn() returns (threw: bool)
      modifies this`fuse
      ensures threw <==> old(fuse) == Some(0)
      ensures !threw ==> Burns(old(fuse), 1)
    {
      threw := fuse == Some(0);
      if fuse.Some? && !threw {
        fuse := Some(fuse.value - 1);
      }
    }

    method WriteFactInputs(leadId: nat, source: string, inputs: seq<(string, string)>) returns (threw: bool)
      modifies this`fuse, this`facts
      ensures threw <==> old(fuse).Some? && old(fuse).value < |inputs|
      ensures !threw ==> Burns(old(fuse), |inputs|) && facts == WriteFacts(old(facts), leadId, source, inputs)
    {
      var i := 0;
      assert inputs[..0] == [];
      while i < |inputs|
        invariant 0 <= i <= |inputs|
        invariant Burns(old(fuse), i)
        invariant facts == WriteFacts(old(facts), leadId, source, inputs[..i])
      {
        threw := Burn();
        if threw { return; }
        facts := facts[(leadId, inputs[i].0) := FactValue(inputs[i].1, source)];
        i := i + 1;
        assert inputs[..i][..i - 1] == inputs[..i - 1];
      }
      assert inputs[..i] == inputs;
      threw := false;
    }

    /** The two history rows every accepted candidate ends with. */
    method Record(o: Observation, e: Event) returns (threw: bool)
      modifies this`fuse, this`observations, this`events
      ensures threw <==> old(fuse).Some? && old(fuse).value < 2
      ensures !threw ==> Burns(old(fuse), 2)
                         && observations == old(observations) + [o] && events == old(events) + [e]
    {
      threw := Burn();
      if threw { return; }
      observations := observations + [o];
      threw := Burn();
      if threw { return; }
      events := events + [e];
    }

    /** A known place: touched, observed again, and nothing else. */
    method Observe(entity: nat, now: nat, o: Observation, e: Event) returns (threw: bool)
      modifies this`fuse, this`lastSeen, this`observations, this`events
      ensures threw <==> old(fuse).Some? && old(fuse).value < 3
      ensures !threw ==> Burns(old(fuse), 3) && lastSeen == old(lastSeen)[entity := now]
                         && observations == old(observations) + [o] && events == old(events) + [e]
    {
      threw := Burn();
      if threw { return; }
      lastSeen := lastSeen[entity := now];
      threw := Record(o, e);
    }

    /** processCandidate: the writes of one candidate, any of which may throw and leave the rest undone. */
    method ProcessCandidate(env: Env, c: Candidate, requestId: nat, now: nat) returns (a: Attempt)
      requires DecidesAmongLeads(env)
      modifies this
      ensures a.Threw? <==> old(fuse).Some? && old(fuse).value < Writes(env, old(Contents()).core, c)
      ensures a.Committed? ==>
                (Contents(), a.outcome) == Process(env, old(Contents()), c, requestId, now)
    {
      hide NewLeadRow, TierOf, EventOf, HasIdentity, Text.Trim;
      var placeId := Text.Trim(c.sourcePlaceId);
      var threw;
      if placeId == "" || (c.facts.Some? && !HasIdentity(c.facts.value)) {
        threw := Burn();
        if threw { return Threw; }
        events := events + [Event(None, LEAD_REJECTED, false)];
        return Committed(Outcome(REJECTED, false, None));
      }
      var existing := FindEntity(entities, env.provider, placeId);
      if existing.Some? {
        var leadId := entities[existing.value].leadId;
        threw := Observe(existing.value, now, Observation(existing.value, requestId, REFRESHED, PlaceIdTier),
                         Event(Some(leadId), SOURCE_REFRESHED, false));
        if threw { return Threw; }
        return Committed(Outcome(REFRESHED, false, Some(leadId)));
      }
      ghost var core := Contents().core;
      var decision := if c.facts.None? then Unique else env.decide(c.facts.value, leads);
      var result := ResultOf(decision);
      var leadId := |leads|;
      if decision.Duplicate? {
        leadId := decision.leadId;
      } else {
        threw := Burn();
        if threw { return Threw; }
        leads := leads + [NewLeadRow(env, c, decision)];
      }
      if c.facts.Some? && result != DUPLICATE {
        threw := WriteFactInputs(leadId, env.factsSource, env.factInputs(c.facts.value));
        if threw { return Threw; }
      }
      assert facts == WriteFacts(core.facts, leadId, env.factsSource, FactsOf(env, c, decision));
      threw := Burn();
      if threw { return Threw; }
      var e := |entities|;
      entities := entities + [Entity(env.provider, placeId, leadId)];
      lastSeen := lastSeen[e := now];
      threw := Record(Observation(e, requestId, if result == BRANCH then CREATED else result, TierOf(decision)),
                      Event(Some(leadId), EventOf(decision), result != DUPLICATE));
      if threw { return Threw; }
      return Committed(Outcome(result, result != DUPLICATE, Some(leadId)));
    }

    /** The unit of work: a candidate that throws leaves every table as it was. */
    method Transaction(env: Env, c: Candidate, requestId: nat, now: nat, fault: Option<nat>) returns (a: Attempt)
      requires DecidesAmongLeads(env)
      modifies this
      ensures a.Threw? <==> Fails(env, old(Contents()).core, c, fault)
      ensures a.Threw? ==> Contents() == old(Contents())
      ensures a.Committed? ==> (Contents(), a.outcome) == Process(env, old(Contents()), c, requestId, now)
    {
      var before := Contents();
      fuse := fault;
      a := ProcessCandidate(env, c, requestId, now);
      if a.Threw? {
        leads, entities, facts := before.core.leads, before.core.entities, before.core.facts;
        lastSeen, observations, events := before.lastSeen, before.observations, before.events;
      }
    }
  }

  predicate Fails(env: Env, core: Core, c: Candidate, fault: Option<nat>) {
    fault.Some? && fault.value < Writes(env, core, c)
  }

  // ---------- a whole run ----------

  datatype PageEvent =
    | Page(candidates: seq<Candidate>, failedStatus: bool, recordThrows: bool)
    | ProviderThrows

  datatype Summary = Summary(created: nat, duplicates: nat, refreshed: nat, ambiguous: nat, branches: nat,
                             rejected: nat, failed: nat, requests: nat, pages: nat,
                             stoppedAtCap: bool, interrupted: bool)
  {
    function NewLeads(): nat { created + ambiguous + branches }

    function NewEntities(): nat { NewLeads() + duplicates }

    function Attempted(): nat { NewEntities() + refreshed + rejected + failed }

    function Count(a: Attempt): Summary {
      match a
      case Threw => this.(failed := failed + 1)
      case Committed(o) =>
        match o.result
        case CREATED => this.(created := created + 1)
        case DUPLICATE => this.(duplicates := duplicates + 1)
        case REFRESHED => this.(refreshed := refreshed + 1)
        case AMBIGUOUS => this.(ambiguous := ambiguous + 1)
        case BRANCH => this.(branches := branches + 1)
        case REJECTED => this.(rejected := rejected + 1)
    }
  }

  function Uniform(n: nat): Summary { Summary(n, n, n, n, n, n, n, n, n, false, false) }

  const ZERO := Uniform(0)

  /** Faults and the clock are indexed by the number of candidates attempted so far in the run. */
  datatype Schedule = Schedule(faults: nat -> Option<nat>, clock: nat -> nat)

  datatype RunState = RunState(db: Db, summary: Summary)

  function AttemptOne(env: Env, s: RunState, c: Candidate, sched: Schedule): RunState {
    var k := s.summary.Attempted();
    if Fails(env, s.db.core, c, sched.faults(k)) then RunState(s.db, s.summary.Count(Threw))
    else
      var (db, o) := Process(env, s.db, c, s.summary.requests, sched.clock(k));
      RunState(db, s.summary.Count(Committed(o)))
  }

  function RunCandidates(env: Env, s: RunState, cs: seq<Candidate>, cap: int, sched: Schedule): RunState
    decreases |cs|
  {
    if cs == [] then s
    else if s.summary.NewLeads() >= cap then s.(summary := s.summary.(stoppedAtCap := true))
    else RunCandidates(env, AttemptOne(env, s, cs[0], sched), cs[1..], cap, sched)
  }

  /** The page is counted, recorded, and its status checked, before any candidate is touched. */
  function OpenPage(s: RunState, page: PageEvent): RunState {
    match page
    case ProviderThrows => s.(summary := s.summary.(interrupted := true))
    case Page(_, failedStatus, recordThrows) =>
      var sum := s.summary.(pages := s.summary.pages + 1);
      if recordThrows then s.(summary := sum.(interrupted := true))
      else s.(summary := sum.(requests := sum.requests + 1, interrupted := sum.interrupted || failedStatus))
  }

  predicate Stops(page: PageEvent) {
    page.ProviderThrows? || page.failedStatus || page.recordThrows
  }

  function RunPages(env: Env, s: RunState, pages: seq<PageEvent>, cap: int, sched: Schedule): RunState
    decreases |pages|
  {
    if pages == [] then s
    else if Stops(pages[0]) then OpenPage(s, pages[0])
    else
      var s' := RunCandidates(env, OpenPage(s, pages[0]), pages[0].candidates, cap, sched);
      if s'.summary.stoppedAtCap then s' else RunPages(env, s', pages[1..], cap, sched)
  }

  function Run(env: Env, db: Db, pages: seq<PageEvent>, cap: int, sched: Schedule): RunState {
    RunPages(env, RunState(db, ZERO), pages, cap, sched)
  }

  /** The candidates a run gets to see: those of the pages before the first interruption. */
  function Visible(pages: seq<PageEvent>): seq<Candidate> {
    if pages == [] || Stops(pages[0]) then [] else pages[0].candidates + Visible(pages[1..])
  }

  method CollectPage(env: Env, store: LeadStore, candidates: seq<Candidate>, cap: int, sched: Schedule,
                     start: Summary) returns (summary: Summary)
    requires DecidesAmongLeads(env)
    modifies store
    ensures RunState(store.Contents(), summary)
         == RunCandidates(env, RunState(old(store.Contents()), start), candidates, cap, sched)
  {
    summary := start;
    ghost var goal := RunCandidates(env, RunState(store.Contents(), start), candidates, cap, sched);
    var i := 0;
    while i < |candidates|
      invariant 0 <= i <= |candidates|
      invariant RunCandidates(env, RunState(store.Contents(), summary), candidates[i..], cap, sched) == goal
    {
      if summary.NewLeads() >= cap {
        summary := summary.(stoppedAtCap := true);
        return;
      }
      var c, k := candidates[i], summary.Attempted();
      var a := store.Transaction(env, c, summary.requests, sched.clock(k), sched.faults(k));
      summary := summary.Count(a);
      assert candidates[i..][1..] == candidates[i + 1..];
      i := i + 1;
    }
  }

  lemma NextPage(env: Env, s: RunState, pages: seq<PageEvent>, i: nat, cap: int, sched: Schedule)
    requires i < |pages|
    ensures RunPages(env, s, pages[i..], cap, sched)
         == if Stops(pages[i]) then OpenPage(s, pages[i])
            else
              var s' := RunCandidates(env, OpenPage(s, pages[i]), pages[i].candidates, cap, sched);
              if s'.summary.stoppedAtCap then s' else RunPages(env, s', pages[i + 1..], cap, sched)
  {
    assert pages[i..][0] == pages[i] && pages[i..][1..] == pages[i + 1..];
    hide RunCandidates, OpenPage, Stops;
  }

  lemma NoMorePages(env: Env, s: RunState, pages: seq<PageEvent>, cap: int, sched: Schedule)
    ensures RunPages(env, s, pages[|pages|..], cap, sched) == s
    ensures pages[0..] == pages
  {
  }

  /**
   One step of the provider's iterator: it may throw, recording the request may throw, and the status may be FAILED.
   */
  method CountPage(start: Summary, page: PageEvent) returns (summary: Summary, stop: bool)
    ensures stop <==> Stops(page)
    ensures forall db :: OpenPage(RunState(db, start), page) == RunState(db, summary)
  {
    summary := start;
    if page.ProviderThrows? { return summary.(interrupted := true), true; }
    summary := summary.(pages := summary.pages + 1);
    if page.recordThrows { return summary.(interrupted := true), true; }
    summary := summary.(requests := summary.requests + 1);
    if page.failedStatus { return summary.(interrupted := true), true; }
    stop := false;
  }

  /** The page loop with its three ways of stopping early. */
  method CollectPages(env: Env, store: LeadStore, pages: seq<PageEvent>, cap: int, sched: Schedule, start: Summary)
    returns (summary: Summary)
    requires DecidesAmongLeads(env)
    modifies store
    ensures RunState(store.Contents(), summary)
         == RunPages(env, RunState(old(store.Contents()), start), pages, cap, sched)
  {
    summary := start;
    ghost var goal := RunPages(env, RunState(store.Contents(), start), pages, cap, sched);
    NoMorePages(env, RunState(store.Contents(), summary), pages, cap, sched);
    var i := 0;
    hide *;
    while i < |pages|
      invariant 0 <= i <= |pages|
      invariant RunPages(env, RunState(store.Contents(), summary), pages[i..], cap, sched) == goal
    {
      var page := pages[i];
      NextPage(env, RunState(store.Contents(), summary), pages, i, cap, sched);
      var stop;
      summary, stop := CountPage(summary, page);
      if stop { return; }
      summary := CollectPage(env, store, page.candidates, cap, sched, summary);
      if summary.stoppedAtCap {
        return;
      }
      i := i + 1;
    }
    NoMorePages(env, RunState(store.Contents(), summary), pages, cap, sched);
  }

  /** collectLeads: from an empty summary. */
  method CollectLeads(env: Env, store: LeadStore, pages: seq<PageEvent>, cap: int, sched: Schedule)
    returns (summary: Summary)
    requires DecidesAmongLeads(env)
    modifies store
    ensures RunState(store.Contents(), summary) == Run(env, old(store.Contents()), pages, cap, sched)
  {
    hide RunPages;
    summary := CollectPages(env, store, pages, cap, sched, ZERO);
  }
}
