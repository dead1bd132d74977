/**
 The prospect candidate processor (src/pipeline/prospect-candidate-processor.ts): its paid calls and
 what it reports about them on every path, and any interleaving of its runs over one store.
 */
module ProspectProcessor {
  import opened Wrappers
  import LC = LeadCollection
  import Text

  // ---------- one call, sequentially ----------

  // What an awaited service does: answer or throw.
  datatype Reply<+T> = Returns(value: T) | Throws

  datatype ResultKind =
    | DUPLICATE | DISQUALIFIED | SUPPRESSED | CLOSED | NO_WEBSITE | WEBSITE_INVALID | WEBSITE_TRANSIENT
    | MANUAL_REVIEW | QUALIFIED | SYSTEMIC_FAILURE

  datatype ProspectResult = ProspectResult(outcome: ResultKind, leadId: Option<nat>,
                                           detailsRequests: nat, websiteVerifications: nat)

  datatype Existing = Existing(leadId: nat, terminal: bool)

  datatype Decision = ACCEPT | REJECT | REVIEW

  datatype Qualification = Qualification(suppressed: bool, closed: bool, decision: Decision, nextStepAudit: bool)

  datatype EnrichmentOutcome = VERIFIED | TRANSIENT_ERROR | AMBIGUOUS | OTHER

  datatype Enrichment = Enrichment(outcome: EnrichmentOutcome, conflict: bool)

  // Everything the outside world answers during one call.
  datatype Services = Services(
    attached: Reply<bool>, existing: Reply<Option<Existing>>, suppressed: Reply<bool>,
    collected: Reply<LC.Outcome>, details: Reply<Option<string>>, persisted: Reply<()>,
    initial: Reply<Qualification>, validWebsite: bool, currentFacts: Reply<()>, enrichment: Reply<Enrichment>,
    diagnostic: Reply<()>, final: Reply<Qualification>)

  // ---------- how far a call gets ----------

  /** The request is paid for exactly when this call created the candidate. */
  predicate PaysForDetails(s: Services) {
    && s.attached == Returns(false) && s.existing == Returns(None) && s.suppressed == Returns(false)
    && s.collected.Returns? && s.collected.value.leadId.Some? && s.collected.value.result == LC.CREATED
  }

  predicate Judged(s: Services) {
    && PaysForDetails(s) && s.details.Returns? && s.details.value.Some? && s.persisted.Returns?
    && s.initial.Returns? && !s.initial.value.suppressed
  }

  predicate Open(s: Services) {
    Judged(s) && !s.initial.value.closed && s.initial.value.decision != REJECT
  }

  predicate ToVerify(s: Services) {
    Open(s) && Text.Trim(s.details.value.value) != "" && s.validWebsite
  }

  predicate Verifies(s: Services) {
    ToVerify(s) && s.currentFacts.Returns? && s.enrichment.Returns? && s.diagnostic.Returns?
  }

  predicate Confirmed(s: Services) {
    Verifies(s) && s.enrichment.value.outcome == VERIFIED && s.final.Returns?
  }

  /** What each outcome but a systemic failure says about the call. */
  predicate Explains(s: Services, kind: ResultKind) {
    match kind
    case DUPLICATE =>
      || s.attached == Returns(true)
      || (&& s.attached == Returns(false) && s.existing.Returns? && s.existing.value.Some?
          && !s.existing.value.value.terminal)
      || (&& s.attached == Returns(false) && s.existing == Returns(None) && s.suppressed == Returns(false)
          && s.collected.Returns? && !PaysForDetails(s))
    case DISQUALIFIED =>
      || (&& s.attached == Returns(false) && s.existing.Returns? && s.existing.value.Some?
          && s.existing.value.value.terminal)
      || (Judged(s) && !s.initial.value.closed && s.initial.value.decision == REJECT)
      || (Confirmed(s) && s.final.value.decision == REJECT)
    case SUPPRESSED =>
      || (s.attached == Returns(false) && s.existing == Returns(None) && s.suppressed == Returns(true))
      || (&& PaysForDetails(s) && s.details.Returns? && s.details.value.Some? && s.persisted.Returns?
          && s.initial.Returns? && s.initial.value.suppressed)
    case CLOSED => Judged(s) && s.initial.value.closed
    case NO_WEBSITE => Open(s) && Text.Trim(s.details.value.value) == ""
    case WEBSITE_INVALID =>
      || (Open(s) && Text.Trim(s.details.value.value) != "" && !s.validWebsite)
      || (Verifies(s) && s.enrichment.value == Enrichment(OTHER, false))
    case WEBSITE_TRANSIENT => Verifies(s) && s.enrichment.value.outcome == TRANSIENT_ERROR
    case MANUAL_REVIEW =>
      || (&& Verifies(s)
          && (s.enrichment.value.outcome == AMBIGUOUS || s.enrichment.value == Enrichment(OTHER, true)))
      || (&& Confirmed(s) && s.final.value.decision != REJECT
          && (s.final.value.decision == ACCEPT ==> !s.final.value.nextStepAudit))
    case QUALIFIED => Confirmed(s) && s.final.value.decision == ACCEPT && s.final.value.nextStepAudit
    case SYSTEMIC_FAILURE => false
  }

  /** The one path on which the website counter runs ahead of the calls: the facts it needs cannot be read. */
  predicate FactsReadFails(s: Services) {
    ToVerify(s) && s.currentFacts.Throws?
  }

  /**
   Which lead a call is about: the one the place already belongs to, else the one its collection made or found. A call
   that fails names its lead only when it is the details request that failed.
   */
  function ReportedLead(s: Services, outcome: ResultKind): Option<nat> {
    if outcome == SYSTEMIC_FAILURE then
      if PaysForDetails(s) && (s.details.Throws? || s.details.value.None?) then s.collected.value.leadId else None
    else if s.attached != Returns(false) || s.existing.Throws? then None
    else if s.existing.value.Some? then Some(s.existing.value.value.leadId)
    else if s.suppressed == Returns(false) && s.collected.Returns? then s.collected.value.leadId
    else None
  }

  class Processor {
    // `calls`: what the processor believes; reset per call.
    var details: nat
    var website: nat
    // What actually left the machine.
    var detailsSent: nat
    var websiteSent: nat

    constructor ()
      ensures detailsSent == 0 && websiteSent == 0
    {
      details, website, detailsSent, websiteSent := 0, 0, 0, 0;
    }

    /** process: any exception is reported as a systemic failure with the counters reached so far. */
    method Process(s: Services) returns (r: ProspectResult)
      modifies this
      ensures r.detailsRequests == detailsSent - old(detailsSent) <= 1
      ensures r.websiteVerifications == websiteSent - old(websiteSent) + (if FactsReadFails(s) then 1 else 0)
      ensures r.websiteVerifications <= r.detailsRequests
      ensures r.detailsRequests == 1 <==> PaysForDetails(s)
      ensures forall kind :: kind != SYSTEMIC_FAILURE ==> (r.outcome == kind <==> Explains(s, kind))
      ensures r.leadId == ReportedLead(s, r.outcome)
    {
      details, website := 0, 0;
      var attempt := ProcessCandidate(s);
      match attempt {
        case Returns(value) => r := value;
        case Throws => r := ProspectResult(SYSTEMIC_FAILURE, None, details, website);
      }
    }

    method ProcessCandidate(s: Services) returns (r: Reply<ProspectResult>)
      requires details == 0 && website == 0
      modifies this
      ensures details == detailsSent - old(detailsSent) <= 1
      ensures website == websiteSent - old(websiteSent) + (if FactsReadFails(s) then 1 else 0)
      ensures website <= details
      ensures details == 1 <==> PaysForDetails(s)
      ensures r.Returns? ==> r.value.detailsRequests == details && r.value.websiteVerifications == website
      ensures r.Returns? ==>
                forall kind :: kind != SYSTEMIC_FAILURE ==> (r.value.outcome == kind <==> Explains(s, kind))
      ensures r.Throws? ==> forall kind :: !Explains(s, kind)
      ensures r.Throws? ==> ReportedLead(s, SYSTEMIC_FAILURE) == None
      ensures r.Returns? ==> r.value.leadId == ReportedLead(s, r.value.outcome)
    {
      if s.attached.Throws? { return Throws; }
      if s.attached.value { return Report(DUPLICATE, None, 0, 0); }
      if s.existing.Throws? { return Throws; }
      if s.existing.value.Some? {
        var e := s.existing.value.value;
        return Report(if e.terminal then DISQUALIFIED else DUPLICATE, Some(e.leadId), 0, 0);
      }
      if s.suppressed.Throws? { return Throws; }
      if s.suppressed.value { return Report(SUPPRESSED, None, 0, 0); }
      if s.collected.Throws? { return Throws; }
      var leadId := s.collected.value.leadId;
      if leadId.None? || s.collected.value.result != LC.CREATED { return Report(DUPLICATE, leadId, 0, 0); }

      details := 1;
      detailsSent := detailsSent + 1;
      if s.details.Throws? { return Report(SYSTEMIC_FAILURE, leadId, 1, 0); }
      if s.details.value.None? { return Report(SYSTEMIC_FAILURE, leadId, 1, 0); }
      if s.persisted.Throws? { return Throws; }
      if s.initial.Throws? { return Throws; }
      var initial := s.initial.value;
      if initial.suppressed { return Report(SUPPRESSED, leadId, 1, 0); }
      if initial.closed { return Report(CLOSED, leadId, 1, 0); }
      if initial.decision == REJECT { return Report(DISQUALIFIED, leadId, 1, 0); }
      var websiteUrl := Text.Trim(s.details.value.value);
      if websiteUrl == "" { return Report(NO_WEBSITE, leadId, 1, 0); }
      if !s.validWebsite { return Report(WEBSITE_INVALID, leadId, 1, 0); }

      website := 1;
      if s.currentFacts.Throws? { return Throws; }
      websiteSent := websiteSent + 1;
      if s.enrichment.Throws? { return Throws; }
      if s.diagnostic.Throws? { return Throws; }
      var enrichment := s.enrichment.value;
      if enrichment.outcome != VERIFIED {
        var outcome := if enrichment.outcome == TRANSIENT_ERROR then WEBSITE_TRANSIENT
                       else if enrichment.outcome == AMBIGUOUS || enrichment.conflict then MANUAL_REVIEW
                       else WEBSITE_INVALID;
        return Report(outcome, leadId, 1, 1);
      }
      if s.final.Throws? { return Throws; }
      if s.final.value.decision == ACCEPT && s.final.value.nextStepAudit { return Report(QUALIFIED, leadId, 1, 1); }
      if s.final.value.decision == REJECT { return Report(DISQUALIFIED, leadId, 1, 1); }
      return Report(MANUAL_REVIEW, leadId, 1, 1);
    }
  }

  function Report(outcome: ResultKind, leadId: Option<nat>, details: nat, website: nat): Reply<ProspectResult> {
    Returns(ProspectResult(outcome, leadId, details, website))
  }

  /** A call that gets as far as verifying a website and cannot read the lead's facts. */
  function FailingRead(): (s: Services)
    ensures FactsReadFails(s)
  {
    var q := Qualification(false, false, REVIEW, false);
    assert Text.Trim("w") == "w";
    Services(Returns(false), Returns(None), Returns(false), Returns(LC.Outcome(LC.CREATED, true, Some(0))),
             Returns(Some("w")), Returns(()), Returns(q), true, Throws, Throws, Throws, Throws)
  }

  /** The counter at fault: this call reports one website verification and sends none. */
  method CountsUnsentVerification() returns (reported: ProspectResult, sent: nat)
    ensures reported.websiteVerifications == 1 && reported.detailsRequests == 1 && sent == 0
    ensures reported.outcome == SYSTEMIC_FAILURE
  {
    var p := new Processor();
    reported := p.Process(FailingRead());
    sent := p.websiteSent;
    assert !Explains(FailingRead(), reported.outcome);
  }

  // ---------- interleavings ----------

  datatype Phase = Checked | InTransaction | Created | Paid | Finished(reported: nat)

  datatype Call = Call(placeId: string, phase: Phase)

  // The committed entity table (provider google_places), the calls started so far, and the requests sent.
  datatype World = World(entities: set<string>, calls: map<nat, Call>, requests: seq<(nat, string)>)

  datatype Step =
    | Start(p: nat, placeId: string, gatesPass: bool)
    | Begin(p: nat)
    | Commit(p: nat, throws: bool)
    | Request(p: nat)
    | Finish(p: nat)
    | OtherWriter(id: string)

  function Id(c: Call): string { Text.Trim(c.placeId) }

  predicate Enabled(w: World, s: Step) {
    match s
    case Start(p, _, _) => p !in w.calls
    case Begin(p) => p in w.calls && w.calls[p].phase == Checked
    case Commit(p, _) => p in w.calls && w.calls[p].phase == InTransaction
    case Request(p) => p in w.calls && w.calls[p].phase == Created
    case Finish(p) => p in w.calls && w.calls[p].phase == Paid
    case OtherWriter(_) => true
  }

  function SetPhase(w: World, p: nat, phase: Phase): World
    requires p in w.calls
  {
    w.(calls := w.calls[p := w.calls[p].(phase := phase)])
  }

  /**
   The awaited segments of one call. The gates read before the transaction; the transaction looks the
   trimmed id up when it begins and inserts when it commits, where the unique index decides; the paid
   request is sent, successful or not, and counted in the final report.
   */
  function Next(w: World, s: Step): World
    requires Enabled(w, s)
  {
    match s
    case Start(p, placeId, gatesPass) =>
      w.(calls := w.calls[p := Call(placeId, if gatesPass && placeId !in w.entities then Checked else Finished(0))])
    case Begin(p) =>
      var id := Id(w.calls[p]);
      SetPhase(w, p, if id == "" || id in w.entities then Finished(0) else InTransaction)
    case Commit(p, throws) =>
      var id := Id(w.calls[p]);
      if throws || id in w.entities then SetPhase(w, p, Finished(0))
      else SetPhase(w, p, Created).(entities := w.entities + {id})
    case Request(p) =>
      SetPhase(w, p, Paid).(requests := w.requests + [(p, Id(w.calls[p]))])
    case Finish(p) => SetPhase(w, p, Finished(1))
    case OtherWriter(id) => w.(entities := w.entities + {Text.Trim(id)})
  }

  function Empty(entities: set<string>): World { World(entities, map[], []) }

  ghost predicate Run(ws: seq<World>, steps: seq<Step>) {
    && |ws| == |steps| + 1
    && ws[0].calls == map[] && ws[0].requests == []
    && forall i :: 0 <= i < |steps| ==> Enabled(ws[i], steps[i]) && ws[i + 1] == Next(ws[i], steps[i])
  }

  predicate HasPaid(c: Call) { c.phase == Paid || c.phase == Finished(1) }

  ghost predicate RequestsExplained(w: World) {
    forall i :: 0 <= i < |w.requests| ==>
      var (p, id) := w.requests[i];
      p in w.calls && HasPaid(w.calls[p]) && id == Id(w.calls[p]) && id in w.entities
  }

  ghost predicate RequestsDistinct(w: World) {
    forall i, j :: 0 <= i < j < |w.requests| ==>
      w.requests[i].0 != w.requests[j].0 && w.requests[i].1 != w.requests[j].1
  }

  ghost predicate HasRequest(w: World, p: nat) {
    exists i :: 0 <= i < |w.requests| && w.requests[i].0 == p
  }

  ghost predicate ReportsHonest(w: World) {
    && (forall p :: p in w.calls && HasPaid(w.calls[p]) ==> HasRequest(w, p))
    && (forall p :: p in w.calls && w.calls[p].phase.Finished? ==> w.calls[p].phase.reported <= 1)
  }

  /** A created candidate owns its id: committed, not yet paid for, and nobody else's. */
  ghost predicate CreatedOwnsId(w: World) {
    && (forall p :: p in w.calls && w.calls[p].phase == Created ==>
          Id(w.calls[p]) in w.entities && forall i :: 0 <= i < |w.requests| ==> w.requests[i].1 != Id(w.calls[p]))
    && (forall p, q ::
          p in w.calls && q in w.calls && p != q && w.calls[p].phase == Created && w.calls[q].phase == Created
          ==> Id(w.calls[p]) != Id(w.calls[q]))
  }

  ghost predicate Inv(w: World) {
    RequestsExplained(w) && RequestsDistinct(w) && ReportsHonest(w) && CreatedOwnsId(w)
  }

  lemma RequestKeepsReports(w: World, p: nat)
    requires Inv(w) && Enabled(w, Request(p))
    ensures ReportsHonest(Next(w, Request(p)))
  {
    var w' := Next(w, Request(p));
    var n := |w.requests|;
    assert w'.requests[n] == (p, Id(w.calls[p]));
    forall q | q in w'.calls && HasPaid(w'.calls[q])
      ensures HasRequest(w', q)
    {
      if q != p {
        var i :| 0 <= i < n && w.requests[i].0 == q;
        assert w'.requests[i].0 == q;
      }
    }
  }

  lemma RequestKeepsInv(w: World, p: nat)
    requires Inv(w) && Enabled(w, Request(p))
    ensures Inv(Next(w, Request(p)))
  {
    RequestKeepsReports(w, p);
    hide ReportsHonest;
    var w' := Next(w, Request(p));
    var n := |w.requests|;
    forall i | 0 <= i < n
      ensures w'.requests[i].0 != p && w'.requests[i].1 != Id(w.calls[p])
    {
      assert w'.requests[i] == w.requests[i];
    }
  }

  /** Any step that sends nothing leaves the requests, and what the paid calls report, as they were. */
  lemma SilentStepKeepsInv(w: World, s: Step)
    requires Inv(w) && Enabled(w, s) && !s.Request?
    ensures Inv(Next(w, s))
  {
    var w' := Next(w, s);
    assert w'.requests == w.requests && w.entities <= w'.entities;
    assert RequestsDistinct(w');
    assert RequestsExplained(w');
    forall p | p in w'.calls && HasPaid(w'.calls[p])
      ensures HasRequest(w', p)
    {
      assert p in w.calls && HasPaid(w.calls[p]);
      assert HasRequest(w, p);
    }
    assert ReportsHonest(w');
    CreatedStaysOwner(w, s);
  }

  lemma CreatedStaysOwner(w: World, s: Step)
    requires Inv(w) && Enabled(w, s) && !s.Request?
    ensures CreatedOwnsId(Next(w, s))
  {
    var w' := Next(w, s);
    hide HasRequest, HasPaid;
    forall p | p in w'.calls && w'.calls[p].phase == Created
      ensures Id(w'.calls[p]) in w'.entities
      ensures forall i :: 0 <= i < |w'.requests| ==> w'.requests[i].1 != Id(w'.calls[p])
    {
      if s.Commit? && s.p == p {
        assert Id(w.calls[p]) !in w.entities;
      } else {
        assert w'.calls[p] == w.calls[p];
      }
    }
  }

  lemma StepKeepsInv(w: World, s: Step)
    requires Inv(w) && Enabled(w, s)
    ensures Inv(Next(w, s))
  {
    hide Inv, Next, Enabled;
    if s.Request? {
      RequestKeepsInv(w, s.p);
    } else {
      SilentStepKeepsInv(w, s);
    }
  }

  lemma {:induction false} RunKeepsInv(ws: seq<World>, steps: seq<Step>, n: nat)
    requires Run(ws, steps) && n < |ws|
    ensures Inv(ws[n])
    decreases n
  {
    if n > 0 {
      RunKeepsInv(ws, steps, n - 1);
      StepKeepsInv(ws[n - 1], steps[n - 1]);
    }
  }

  /** Requests that a call has sent. */
  function SentBy(requests: seq<(nat, string)>, p: nat): nat {
    if requests == [] then 0
    else SentBy(requests[..|requests| - 1], p) + (if requests[|requests| - 1].0 == p then 1 else 0)
  }

  /** Requests sent for a place id, however it was spelled. */
  function SentFor(requests: seq<(nat, string)>, id: string): nat {
    if requests == [] then 0
    else SentFor(requests[..|requests| - 1], id) + (if requests[|requests| - 1].1 == id then 1 else 0)
  }

  lemma {:induction false} CountDistinct(requests: seq<(nat, string)>, p: nat, id: string)
    requires forall i, j :: 0 <= i < j < |requests| ==> requests[i].0 != requests[j].0 && requests[i].1 != requests[j].1
    ensures SentBy(requests, p) == if exists i :: 0 <= i < |requests| && requests[i].0 == p then 1 else 0
    ensures SentFor(requests, id) == if exists i :: 0 <= i < |requests| && requests[i].1 == id then 1 else 0
    decreases |requests|
  {
    if requests != [] {
      var n := |requests| - 1;
      var front := requests[..n];
      CountDistinct(front, p, id);
      if i :| 0 <= i < n && requests[i].0 == p { assert front[i].0 == p; }
      if i :| 0 <= i < n && requests[i].1 == id { assert front[i].1 == id; }
      if requests[n].0 == p { assert forall i :: 0 <= i < n ==> front[i] == requests[i]; }
      if requests[n].1 == id { assert forall i :: 0 <= i < n ==> front[i] == requests[i]; }
    }
  }

  /** In every reachable state of every interleaving, any number of runs and any other writers: a place
      id is paid for at most once, and every finished call reports exactly the requests it sent. */
  lemma AtMostOneRequestPerPlace(ws: seq<World>, steps: seq<Step>, n: nat)
    requires Run(ws, steps) && n < |ws|
    ensures forall id :: SentFor(ws[n].requests, id) <= 1
    ensures forall p :: p in ws[n].calls && ws[n].calls[p].phase.Finished? ==>
              ws[n].calls[p].phase.reported == SentBy(ws[n].requests, p)
  {
    RunKeepsInv(ws, steps, n);
    var w := ws[n];
    forall id
      ensures SentFor(w.requests, id) <= 1
    {
      CountDistinct(w.requests, 0, id);
    }
    forall p | p in w.calls && w.calls[p].phase.Finished?
      ensures w.calls[p].phase.reported == SentBy(w.requests, p)
    {
      CountDistinct(w.requests, p, "");
      if w.calls[p].phase.reported == 1 { assert HasPaid(w.calls[p]); }
    }
  }

  lemma {:induction false} FinishedForever(ws: seq<World>, steps: seq<Step>, m: nat, n: nat, p: nat)
    requires Run(ws, steps) && m <= n < |ws|
    requires p in ws[m].calls && ws[m].calls[p].phase.Finished?
    ensures p in ws[n].calls && ws[n].calls[p] == ws[m].calls[p]
    decreases n
  {
    if m < n {
      FinishedForever(ws, steps, m, n - 1, p);
      assert ws[n - 1 + 1] == Next(ws[n - 1], steps[n - 1]);
    }
  }

  /** A call that loses the race at commit time never sends a request, then or later. */
  lemma LoserPaysNothing(ws: seq<World>, steps: seq<Step>, m: nat, n: nat, p: nat)
    requires Run(ws, steps) && m < n < |ws|
    requires steps[m].Commit? && steps[m].p == p && p in ws[m].calls && Id(ws[m].calls[p]) in ws[m].entities
    ensures SentBy(ws[n].requests, p) == 0
  {
    assert ws[m + 1] == Next(ws[m], steps[m]);
    FinishedForever(ws, steps, m + 1, n, p);
    AtMostOneRequestPerPlace(ws, steps, n);
  }

  // ---------- one call alone: the steps are the transaction and the processor ----------

  /** The place ids the collection tables hold for a provider: what the machine keeps of them. */
  function PlaceIds(core: LC.Core, provider: string): set<string> {
    set e | e in core.entities && e.provider == provider :: e.sourcePlaceId
  }

  lemma FoundIffListed(core: LC.Core, provider: string, id: string)
    ensures LC.FindEntity(core.entities, provider, id).Some? <==> id in PlaceIds(core, provider)
  {
    var r := LC.FindEntity(core.entities, provider, id);
    if r.Some? {
      assert core.entities[r.value] in core.entities;
    }
  }

  lemma CreatedAddsItsPlace(env: LC.Env, core: LC.Core, c: LC.Candidate)
    ensures PlaceIds(LC.CoreStep(env, core, c), env.provider)
         == PlaceIds(core, env.provider) + (if LC.Known(env, core, c) then {} else {Text.Trim(c.sourcePlaceId)})
  {
    if !LC.Known(env, core, c) {
      var next := LC.CoreStep(env, core, c);
      var added := LC.Entity(env.provider, Text.Trim(c.sourcePlaceId), LC.LeadIdOf(core, LC.Decide(env, core, c)));
      assert next.entities == core.entities + [added];
      assert added in next.entities;
      assert forall e :: e in next.entities ==> e in core.entities || e == added;
    }
  }

  /** What lead collection makes of a place id, given the tables' place ids. */
  lemma CollectedAlone(env: LC.Env, db: LC.Db, placeId: string, requestId: nat, now: nat)
    ensures var (after, o) := LC.Process(env, db, LC.Candidate(placeId, None), requestId, now);
            var id, ids := Text.Trim(placeId), PlaceIds(db.core, env.provider);
            && (o.result == LC.CREATED <==> id != "" && id !in ids)
            && (o.result == LC.CREATED ==> o.leadId.Some?)
            && PlaceIds(after.core, env.provider) == if o.result == LC.CREATED then ids + {id} else ids
  {
    FoundIffListed(db.core, env.provider, Text.Trim(placeId));
    CreatedAddsItsPlace(env, db.core, LC.Candidate(placeId, None));
    hide LC.FindEntity, PlaceIds, LC.WriteFacts, LC.NewLeadRow;
  }

  /**
   Begin and Commit, with nothing in between, are one transaction of lead collection: the same verdict and the same
   place ids, and unchanged place ids when it throws.
   */
  lemma TransactionAlone(w: World, p: nat, env: LC.Env, db: LC.Db, requestId: nat, now: nat, throws: bool)
    requires Enabled(w, Begin(p)) && w.entities == PlaceIds(db.core, env.provider)
    ensures var (after, o) := LC.Process(env, db, LC.Candidate(w.calls[p].placeId, None), requestId, now);
            var begun := Next(w, Begin(p));
            if o.result != LC.CREATED then
              begun.calls[p].phase == Finished(0) && begun.entities == PlaceIds(after.core, env.provider)
            else
              && Enabled(begun, Commit(p, throws))
              && var done := Next(begun, Commit(p, throws));
                 if throws then done.calls[p].phase == Finished(0) && done.entities == PlaceIds(db.core, env.provider)
                 else done.calls[p].phase == Created && done.entities == PlaceIds(after.core, env.provider)
  {
    CollectedAlone(env, db, w.calls[p].placeId, requestId, now);
    hide LC.Process, PlaceIds;
  }

  predicate GatesPass(s: Services) {
    s.attached == Returns(false) && s.existing == Returns(None) && s.suppressed == Returns(false)
  }

  /** The steps of one call that nothing interrupts. */
  function Alone(w: World, p: nat, placeId: string, s: Services): World
    requires p !in w.calls
  {
    var started := Next(w, Start(p, placeId, GatesPass(s)));
    if started.calls[p].phase != Checked then started
    else
      var begun := Next(started, Begin(p));
      if begun.calls[p].phase != InTransaction then begun
      else
        var done := Next(begun, Commit(p, s.collected.Throws?));
        if done.calls[p].phase != Created then done else Next(Next(done, Request(p)), Finish(p))
  }

  /** The services answer as the stores stand: the existing-lead lookup, and the transaction of lead collection. */
  ghost predicate AnswersFrom(s: Services, w: World, placeId: string, env: LC.Env, db: LC.Db, requestId: nat,
                              now: nat)
  {
    && w.entities == PlaceIds(db.core, env.provider)
    && (s.existing == Returns(None) ==> placeId !in w.entities)
    && (s.collected.Throws?
        || s.collected == Returns(LC.Process(env, db, LC.Candidate(placeId, None), requestId, now).1))
  }

  /**
   Run alone, the machine does what the processor does: it sends the one request exactly when the processor pays for
   details, and reports that number.
   */
  lemma AloneIsProcess(w: World, p: nat, placeId: string, s: Services, env: LC.Env, db: LC.Db, requestId: nat, now: nat)
    requires p !in w.calls && AnswersFrom(s, w, placeId, env, db, requestId, now)
    ensures var t := Alone(w, p, placeId, s);
            && t.requests == w.requests + (if PaysForDetails(s) then [(p, Text.Trim(placeId))] else [])
            && t.calls[p].phase == Finished(if PaysForDetails(s) then 1 else 0)
  {
    CollectedAlone(env, db, placeId, requestId, now);
    hide LC.Process, PlaceIds;
  }
}
