/**
 What each lead's turn in a discovery run does (src/cli/commands/discover-decision-makers.ts), case by case: who is paid
 for, what is recorded, and when the run stops; and what that means over every history of runs.
 */
module DiscoveryTurns {
  import opened Wrappers
  import opened Discovery
  import opened DiscoverySafety

  /** The provider requests of a paid call that completed; none when nothing was billed. */
  function Billed(e: Extraction): Option<nat> {
    match e
    case Extracted(_, calls) => Some(calls)
    case SchemaInvalid(calls) => Some(calls)
    case ProviderError(call) => call
    case ExtractionThrows(paid, calls) => if paid then Some(calls) else None
    case NoPages => None
    case BudgetBlocked => None
  }

  /** The retry policy: what is on record leaves room for a paid attempt at this evidence. */
  predicate Wanted(manifest: Manifest, id: string, evidence: string, refresh: bool) {
    || refresh
    || id !in manifest
    || manifest[id].fingerprint != evidence
    || (manifest[id].outcome == PROVIDER_ERROR && manifest[id].attempts < 2)
  }

  /** The record of a finished attempt: attempts add up only at the same evidence. */
  ghost predicate RecordTells(manifest: Manifest, id: string, evidence: string, e: Extraction, r: Record) {
    && r.fingerprint == evidence
    && (r.outcome == FOUND <==> e.Extracted? && e.accepted != [])
    && (r.outcome == NO_CANDIDATE <==> e.Extracted? && e.accepted == [])
    && (r.outcome == SCHEMA_INVALID <==> e.SchemaInvalid?)
    && r.attempts == (if id in manifest && manifest[id].fingerprint == evidence then manifest[id].attempts else 0)
                     + (if Billed(e).Some? then 1 else 0)
  }

  /**
   The files after an extraction: candidates first and only accepted ones, then the record; a failure cuts it short.
   */
  ghost predicate FilesTell(b: Snapshot, a: Snapshot, id: string, evidence: string, e: Extraction, completed: bool) {
    var accepts := e.Extracted? && e.accepted != [];
    var skipped := e.NoPages? || e.BudgetBlocked?;
    var saved := accepts && a.candidates == b.candidates[id := e.accepted];
    var recorded := && !skipped && id in a.manifest && RecordTells(b.manifest, id, evidence, e, a.manifest[id])
                    && a.manifest == b.manifest[id := a.manifest[id]] && (accepts ==> saved)
                    && a.recorded == b.recorded + (if Billed(e).Some? then 1 else 0);
    && (saved || a.candidates == b.candidates)
    && (recorded || (a.manifest == b.manifest && a.recorded == b.recorded))
    && (completed ==> (accepts ==> saved) && (skipped || recorded))
  }

  /** Both budgets have room, and the record has too: the provider is asked. */
  ghost predicate ExtractionTells(st: RunState, t: RunState, id: string, evidence: string, e: Extraction) {
    var billed := Billed(e);
    && t.snap.paid == st.snap.paid + (if billed.Some? then [id] else [])
    && t.paidAttempts == st.paidAttempts + (if billed.Some? then 1 else 0)
    && t.llmCalls == st.llmCalls + (if billed.Some? then billed.value else 0)
    && (t.status == Running || t.status == Aborted)
    && (e.ExtractionThrows? ==> t.status == Aborted)
    && (st.fuse.None? && !e.ExtractionThrows? ==> t.status == Running && t.fuse == None)
    && t.snap.failures == st.snap.failures + (if t.status == Aborted then 1 else 0)
    && FilesTell(st.snap, t.snap, id, evidence, e, t.status == Running)
  }

  /** One lead's turn, from the state before it to the state after it. */
  ghost predicate TurnTells(st: RunState, t: RunState, id: string, site: Site, config: Config) {
    if st.paidAttempts >= config.limit then t == st.(status := Stopped)
    else
      match site.evidence(id)
      case FetchThrows => t == st.(snap := st.snap.(failures := st.snap.failures + 1), status := Aborted)
      case NoEvidence => t == st
      case Fingerprint(f) =>
        if !Wanted(st.snap.manifest, id, f, config.refresh) then t == st
        else if st.llmCalls >= config.maxLlmCalls then t == st.(status := Stopped)
        else ExtractionTells(st, t, id, f, site.extract(id))
  }

  lemma SavesTell(st: RunState, id: string, f: string, e: Extraction)
    requires st.status == Running && !e.ExtractionThrows? && !e.NoPages? && !e.BudgetBlocked?
    ensures var saved := SaveCandidates(st, id, e);
            var t := if saved.status == Aborted then saved else SaveManifest(saved, id, f, e);
            && t.snap.paid == st.snap.paid && t.paidAttempts == st.paidAttempts && t.llmCalls == st.llmCalls
            && (t.status == Running || t.status == Aborted) && (st.fuse.None? ==> t.status == Running && t.fuse == None)
            && t.snap.failures == st.snap.failures + (if t.status == Aborted then 1 else 0)
            && FilesTell(st.snap, t.snap, id, f, e, t.status == Running)
  {
    var saved := SaveCandidates(st, id, e);
    var record := NewRecord(st.snap.manifest, id, f, e);
    assert RecordTells(st.snap.manifest, id, f, e, record);
    hide RecordTells, NewRecord;
    assert st.snap.manifest[id := record][id] == record;
  }

  lemma ChargeTells(st: RunState, id: string, e: Extraction)
    ensures var t, billed := Charge(st, id, e), Billed(e);
            && t.snap == st.snap.(paid := st.snap.paid + if billed.Some? then [id] else [])
            && t.paidAttempts == st.paidAttempts + (if billed.Some? then 1 else 0)
            && t.llmCalls == st.llmCalls + (if billed.Some? then billed.value else 0)
            && t.status == st.status && t.fuse == st.fuse
  {
  }

  lemma ExtractionDoesTell(st: RunState, id: string, f: string, e: Extraction)
    requires st.status == Running
    ensures ExtractionTells(st, AfterExtraction(st, id, f, e), id, f, e)
  {
    ChargeTells(st, id, e);
    var charged := Charge(st, id, e);
    if !e.ExtractionThrows? && !e.NoPages? && !e.BudgetBlocked? && Survives(st.fuse, 1) {
      SavesTell(charged.(fuse := Burnt(st.fuse, 1)), id, f, e);
      hide SaveCandidates, SaveManifest, Charge, FilesTell;
      SamePlacesTell(st.snap, charged.snap, AfterExtraction(st, id, f, e).snap, id, f, e,
                     AfterExtraction(st, id, f, e).status == Running);
    } else {
      hide SaveCandidates, SaveManifest, Charge, RecordTells, Billed;
    }
  }

  lemma SamePlacesTell(b: Snapshot, m: Snapshot, a: Snapshot, id: string, f: string, e: Extraction, completed: bool)
    requires m.candidates == b.candidates && m.manifest == b.manifest && m.recorded == b.recorded
    requires FilesTell(m, a, id, f, e, completed)
    ensures FilesTell(b, a, id, f, e, completed)
  {
    hide RecordTells, Billed;
  }

  /** Every turn does what its case says. */
  lemma TurnDoesTell(st: RunState, id: string, site: Site, config: Config)
    requires st.status == Running
    ensures TurnTells(st, AfterLead(st, id, site, config), id, site, config)
  {
    hide AfterExtraction, ExtractionTells;
    if site.evidence(id).Fingerprint? {
      ExtractionDoesTell(st, id, site.evidence(id).value, site.extract(id));
    }
  }

  /**
   Who is paid for: a lead that gets its turn while both budgets have room is charged if and only if its extraction is
   billed and the run is a refresh, or nothing is on record for it, or the record is about other evidence, or it
   records a provider error with fewer than two attempts.
   */
  lemma ChargedIff(st: RunState, id: string, f: string, site: Site, config: Config)
    requires st.status == Running && st.paidAttempts < config.limit && st.llmCalls < config.maxLlmCalls
    requires site.evidence(id) == Fingerprint(f)
    ensures var t, record := AfterLead(st, id, site, config), Get(st.snap.manifest, id);
            && t.snap.paid == st.snap.paid + (if t.snap.paid == st.snap.paid then [] else [id])
            && (t.snap.paid != st.snap.paid
                <==> && Billed(site.extract(id)).Some?
                     && (|| config.refresh || record.None? || record.value.fingerprint != f
                         || (record.value.outcome == PROVIDER_ERROR && record.value.attempts < 2)))
  {
    TurnDoesTell(st, id, site, config);
    hide AfterLead, FilesTell, Billed;
  }

  // ---------- a run, turn by turn ----------

  /** The states between the turns. */
  ghost predicate Turns(sts: seq<RunState>, ids: seq<string>, site: Site, config: Config) {
    && 1 <= |sts| <= |ids| + 1
    && forall i :: 0 <= i < |sts| - 1 ==>
         sts[i].status == Running && TurnTells(sts[i], sts[i + 1], ids[i], site, config)
  }

  lemma {:induction false} LeadsAreTurns(st: RunState, ids: seq<string>, site: Site, config: Config)
    returns (sts: seq<RunState>)
    ensures Turns(sts, ids, site, config) && sts[0] == st && sts[|sts| - 1] == RunLeads(st, ids, site, config)
    ensures sts[|sts| - 1].status == Running ==> |sts| == |ids| + 1
    decreases |ids|
  {
    hide TurnTells, AfterLead;
    if ids == [] || st.status != Running {
      sts := [st];
    } else {
      TurnDoesTell(st, ids[0], site, config);
      var next := AfterLead(st, ids[0], site, config);
      var rest := LeadsAreTurns(next, ids[1..], site, config);
      sts := [st] + rest;
      forall i | 0 <= i < |sts| - 1
        ensures sts[i].status == Running && TurnTells(sts[i], sts[i + 1], ids[i], site, config)
      {
        if i > 0 {
          assert sts[i] == rest[i - 1] && sts[i + 1] == rest[i - 1 + 1] && ids[i] == ids[1..][i - 1];
        }
      }
    }
  }

  /** A run is a sequence of turns over the first passing leads, ended only by a turn that stops or aborts it. */
  lemma RunIsTurns(b: Snapshot, scope: seq<Lead>, site: Site, config: Config, fuse: Option<nat>)
    returns (ids: seq<string>, sts: seq<RunState>)
    ensures var all := Passing(scope, b.candidates, config.refresh);
            var n := if config.maxLeads <= 1 then 1 else config.maxLeads;
            ids == if |all| <= n then all else all[..n]
    ensures Turns(sts, ids, site, config)
    ensures sts[0] == RunState(b, fuse, 0, 0, Running) && sts[|sts| - 1] == Run(b, scope, site, config, fuse)
    ensures sts[|sts| - 1].status == Running ==> |sts| == |ids| + 1
  {
    SelectIsFirstPassing(scope, b.candidates, config.refresh, config.maxLeads);
    ids := Select(scope, b.candidates, config.refresh, config.maxLeads);
    hide Turns, RunLeads, Select, Passing;
    sts := LeadsAreTurns(RunState(b, fuse, 0, 0, Running), ids, site, config);
  }

  // ---------- over every history ----------

  /** What is on record for the lead answers this evidence for good. */
  predicate Answered(snap: Snapshot, x: string, f: string) {
    && x in snap.manifest && snap.manifest[x].fingerprint == f
    && (snap.manifest[x].outcome == PROVIDER_ERROR ==> snap.manifest[x].attempts >= 2)
  }

  /**
   Once the record for a lead's evidence is found, no candidate or schema invalid, or a provider error that used up its
   two attempts, no later run without --refresh pays for the lead or changes its record while the evidence is the same.
   */
  lemma {:induction false} AnsweredIsNotPaidAgain(snaps: seq<Snapshot>, runs: seq<RunInput>, m: nat, n: nat, x: string,
                                                  f: string)
    requires History(snaps, runs) && m <= n < |snaps| && Answered(snaps[m], x, f)
    requires forall i :: m <= i < n ==>
      && !runs[i].config.refresh
      && (runs[i].site.evidence(x).Fingerprint? ==> runs[i].site.evidence(x).value == f)
    ensures Count(snaps[n].paid, x) == Count(snaps[m].paid, x)
    ensures Get(snaps[n].manifest, x) == Get(snaps[m].manifest, x)
    ensures Get(snaps[n].candidates, x) == Get(snaps[m].candidates, x)
    decreases n
  {
    if m < n {
      AnsweredIsNotPaidAgain(snaps, runs, m, n - 1, x, f);
      var r := runs[n - 1];
      assert snaps[n - 1 + 1] == Run(snaps[n - 1], r.scope, r.site, r.config, r.fuse).snap;
      assert Untouchable(snaps[n - 1], x, r.site, r.config);
      hide Run, Count;
      RunLeavesSettledLeads(snaps[n - 1], r.scope, r.site, r.config, r.fuse, x);
    }
  }
}
