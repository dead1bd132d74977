/**
 Decision-maker discovery with --confirm (src/cli/commands/discover-decision-makers.ts): free fetches,
 paid extractions under two budgets, and two state files written in a fixed order, with crashes and
 thrown errors at any point.
 */
module Discovery {
  import opened Wrappers
  import opened AtomicFile

  datatype Person = Person(fullName: string, title: string)

  datatype Outcome = FOUND | NO_CANDIDATE | SCHEMA_INVALID | PROVIDER_ERROR

  datatype Record = Record(fingerprint: string, outcome: Outcome, attempts: nat)

  type Candidates = map<string, seq<Person>>
  type Manifest = map<string, Record>

  const MAX_PAID_ATTEMPTS := 2

  // What the free fetch yields: an error, no usable page, or the fingerprint of the evidence.
  datatype Evidence = FetchThrows | NoEvidence | Fingerprint(value: string)

  // What the extraction yields; `calls` is the number of provider requests of a completed paid call.
  datatype Extraction =
    | Extracted(accepted: seq<Person>, calls: nat)
    | NoPages
    | BudgetBlocked
    | SchemaInvalid(calls: nat)
    | ProviderError(call: Option<nat>)
    | ExtractionThrows(paid: bool, calls: nat)

  datatype Site = Site(evidence: string -> Evidence, extract: string -> Extraction)

  datatype Lead = Lead(id: string, hasDomain: bool, verifiedContact: bool, bounced: bool)

  datatype Config = Config(limit: nat, maxLeads: nat, maxLlmCalls: nat, refresh: bool)

  // ---------- selection ----------

  predicate HasCandidates(existing: Candidates, id: string) {
    id in existing && existing[id] != []
  }

  predicate Passes(lead: Lead, existing: Candidates, refresh: bool) {
    lead.hasDomain && (lead.bounced || !lead.verifiedContact) && (refresh || !HasCandidates(existing, lead.id))
  }

  /** The selection loop: it stops once the cap is reached, after the push that reached it. */
  function Select(scope: seq<Lead>, existing: Candidates, refresh: bool, cap: int): (r: seq<string>)
    ensures forall id :: id in r ==> refresh || !HasCandidates(existing, id)
  {
    if scope == [] then []
    else if !Passes(scope[0], existing, refresh) then Select(scope[1..], existing, refresh, cap)
    else [scope[0].id] + (if cap <= 1 then [] else Select(scope[1..], existing, refresh, cap - 1))
  }

  /** The leads with a domain, without a usable verified contact and without candidates yet, in scope order. */
  function Passing(scope: seq<Lead>, existing: Candidates, refresh: bool): seq<string> {
    if scope == [] then []
    else
      var lead := scope[0];
      var passes := && lead.hasDomain && (lead.bounced || !lead.verifiedContact)
                    && (refresh || lead.id !in existing || existing[lead.id] == []);
      (if passes then [lead.id] else []) + Passing(scope[1..], existing, refresh)
  }

  /** The selection is the first `cap` passing leads in scope order; a cap below one still lets one through. */
  lemma {:induction false} SelectIsFirstPassing(scope: seq<Lead>, existing: Candidates, refresh: bool, cap: int)
    ensures var all, n := Passing(scope, existing, refresh), if cap <= 1 then 1 else cap;
            Select(scope, existing, refresh, cap) == if |all| <= n then all else all[..n]
    decreases |scope|
  {
    if scope != [] {
      var passes := Passes(scope[0], existing, refresh);
      SelectIsFirstPassing(scope[1..], existing, refresh, if passes then cap - 1 else cap);
      var rest := Passing(scope[1..], existing, refresh);
      if passes {
        assert Passing(scope, existing, refresh) == [scope[0].id] + rest;
        if cap <= 1 {
          assert ([scope[0].id] + rest)[..1] == [scope[0].id];
        } else if |rest| > cap - 1 {
          assert ([scope[0].id] + rest)[..cap] == [scope[0].id] + rest[..cap - 1];
        }
      }
    }
  }

  // ---------- decisions and records ----------

  function Get<T>(m: map<string, T>, id: string): Option<T> {
    if id in m then Some(m[id]) else None
  }

  /** decideAttempt: is a paid call allowed for this evidence? */
  predicate MayAttempt(record: Option<Record>, fingerprint: string, refresh: bool) {
    || refresh
    || record.None?
    || record.value.fingerprint != fingerprint
    || (record.value.outcome == PROVIDER_ERROR && record.value.attempts < MAX_PAID_ATTEMPTS)
  }

  /** Paid attempts on record for this evidence. */
  function Attempts(manifest: Manifest, id: string, fingerprint: string): nat {
    if id in manifest && manifest[id].fingerprint == fingerprint then manifest[id].attempts else 0
  }

  function Paid(e: Extraction): bool {
    match e
    case Extracted(_, _) => true
    case SchemaInvalid(_) => true
    case ProviderError(call) => call.Some?
    case ExtractionThrows(paid, _) => paid
    case NoPages => false
    case BudgetBlocked => false
  }

  function Calls(e: Extraction): nat {
    match e
    case Extracted(_, calls) => calls
    case SchemaInvalid(calls) => calls
    case ProviderError(call) => if call.Some? then call.value else 0
    case ExtractionThrows(paid, calls) => if paid then calls else 0
    case NoPages => 0
    case BudgetBlocked => 0
  }

  function OutcomeOf(e: Extraction): Outcome {
    match e
    case Extracted(accepted, _) => if accepted != [] then FOUND else NO_CANDIDATE
    case SchemaInvalid(_) => SCHEMA_INVALID
    case _ => PROVIDER_ERROR
  }

  /** buildResultRecord: attempts accumulate only at one fingerprint and only for completed paid calls. */
  function NewRecord(manifest: Manifest, id: string, fingerprint: string, e: Extraction): Record {
    Record(fingerprint, OutcomeOf(e), Attempts(manifest, id, fingerprint) + (if Paid(e) then 1 else 0))
  }

  // ---------- one lead ----------

  // The two files as a reader sees them, and the truth about money and mishaps.
  datatype Snapshot = Snapshot(candidates: Candidates, manifest: Manifest,
                               paid: seq<string>, recorded: nat, failures: nat)

  datatype Status = Running | Stopped | Aborted

  datatype RunState = RunState(snap: Snapshot, fuse: Option<nat>, paidAttempts: nat, llmCalls: nat, status: Status)

  /** The process dies, or an exception leaves the loop. */
  function Abort(st: RunState): RunState {
    st.(snap := st.snap.(failures := st.snap.failures + 1), status := Aborted)
  }

  predicate Survives(fuse: Option<nat>, steps: nat) {
    fuse.None? || fuse.value >= steps
  }

  function Burnt(fuse: Option<nat>, steps: nat): Option<nat>
    requires Survives(fuse, steps)
  {
    if fuse.None? then None else Some(fuse.value - steps)
  }

  function Charge(st: RunState, id: string, e: Extraction): RunState {
    if Paid(e)
    then st.(snap := st.snap.(paid := st.snap.paid + [id]),
             paidAttempts := st.paidAttempts + 1, llmCalls := st.llmCalls + Calls(e))
    else st
  }

  /** candidates.json first, and only for a lead with accepted candidates. */
  function SaveCandidates(st: RunState, id: string, e: Extraction): RunState {
    if !e.Extracted? || e.accepted == [] then st
    else if !Survives(st.fuse, STEPS) then Abort(st)
    else st.(snap := st.snap.(candidates := st.snap.candidates[id := e.accepted]), fuse := Burnt(st.fuse, STEPS))
  }

  /** results.json second. */
  function SaveManifest(st: RunState, id: string, fingerprint: string, e: Extraction): RunState {
    if !Survives(st.fuse, STEPS) then Abort(st)
    else
      st.(snap := st.snap.(manifest := st.snap.manifest[id := NewRecord(st.snap.manifest, id, fingerprint, e)],
                           recorded := st.snap.recorded + (if Paid(e) then 1 else 0)),
          fuse := Burnt(st.fuse, STEPS))
  }

  function AfterExtraction(st: RunState, id: string, fingerprint: string, e: Extraction): RunState {
    var charged := Charge(st, id, e);
    if e.ExtractionThrows? || !Survives(st.fuse, 1) then Abort(charged)
    else if e.NoPages? || e.BudgetBlocked? then charged.(fuse := Burnt(st.fuse, 1))
    else
      var saved := SaveCandidates(charged.(fuse := Burnt(st.fuse, 1)), id, e);
      if saved.status == Aborted then saved else SaveManifest(saved, id, fingerprint, e)
  }

  lemma SavesLeaveManifest(st: RunState, id: string, e: Extraction)
    ensures SaveCandidates(st, id, e).snap.manifest == st.snap.manifest
    ensures forall f :: SaveManifest(st, id, f, e).snap.candidates == st.snap.candidates
  {
  }

  lemma ExtractionCounts(st: RunState, id: string, fingerprint: string, e: Extraction)
    ensures var after := AfterExtraction(st, id, fingerprint, e);
            && after.paidAttempts == st.paidAttempts + (if Paid(e) then 1 else 0)
            && after.llmCalls == st.llmCalls + (if Paid(e) then Calls(e) else 0)
  {
  }

  function AfterLead(st: RunState, id: string, site: Site, config: Config): RunState {
    if st.paidAttempts >= config.limit then st.(status := Stopped)
    else
      match site.evidence(id)
      case FetchThrows => Abort(st)
      case NoEvidence => st
      case Fingerprint(f) =>
        if !MayAttempt(Get(st.snap.manifest, id), f, config.refresh) then st
        else if st.llmCalls >= config.maxLlmCalls then st.(status := Stopped)
        else AfterExtraction(st, id, f, site.extract(id))
  }

  function RunLeads(st: RunState, ids: seq<string>, site: Site, config: Config): RunState
    decreases |ids|
  {
    if ids == [] || st.status != Running then st
    else RunLeads(AfterLead(st, ids[0], site, config), ids[1..], site, config)
  }

  function Run(snap: Snapshot, scope: seq<Lead>, site: Site, config: Config, fuse: Option<nat>): RunState {
    RunLeads(RunState(snap, fuse, 0, 0, Running),
             Select(scope, snap.candidates, config.refresh, config.maxLeads), site, config)
  }

  // ---------- the command ----------

  class Workspace {
    const candidatesFile: File<Candidates>
    const resultsFile: File<Manifest>
    var paid: seq<string>
    var recorded: nat
    var failures: nat

    constructor ()
      ensures fresh(candidatesFile) && fresh(resultsFile) && Complete()
      ensures Contents() == Snapshot(map[], map[], [], 0, 0)
    {
      candidatesFile := new File<Candidates>();
      resultsFile := new File<Manifest>();
      paid, recorded, failures := [], 0, 0;
    }

    /** Both files are absent or complete: a reader never meets a truncated one. */
    predicate Complete()
      reads candidatesFile, resultsFile
    {
      !candidatesFile.target.Torn? && !resultsFile.target.Torn?
    }

    function Contents(): Snapshot
      requires Complete()
      reads this, candidatesFile, resultsFile
    {
      Snapshot(if candidatesFile.target.Missing? then map[] else candidatesFile.target.data,
               if resultsFile.target.Missing? then map[] else resultsFile.target.data,
               paid, recorded, failures)
    }

    /** candidates.json: the write that keeps what was paid for. */
    method WriteCandidates(ghost st: RunState, id: string, e: Extraction, existing: Candidates, fuse: Option<nat>)
      returns (existing': Candidates, fuse': Option<nat>, done: bool)
      requires Complete() && Contents() == st.snap && st.fuse == fuse && existing == st.snap.candidates
      requires st.status == Running
      modifies this`failures, candidatesFile
      ensures Complete()
      ensures var after := SaveCandidates(st, id, e);
              && Contents() == after.snap && after.status == (if done then Running else Aborted)
              && (done ==> existing' == after.snap.candidates && fuse' == after.fuse)
    {
      if !e.Extracted? || e.accepted == [] { return existing, fuse, true; }
      existing' := existing[id := e.accepted];
      fuse' := fuse;
      done := candidatesFile.Write(existing', if fuse.None? then STEPS else fuse.value);
      if !done {
        failures := failures + 1;
        return;
      }
      fuse' := Burnt(fuse, STEPS);
    }

    /** results.json: the write that records what was done. */
    method WriteResults(ghost st: RunState, id: string, fingerprint: string, e: Extraction, manifest: Manifest,
                        fuse: Option<nat>)
      returns (manifest': Manifest, fuse': Option<nat>, done: bool)
      requires Complete() && Contents() == st.snap && st.fuse == fuse && manifest == st.snap.manifest
      requires st.status == Running
      modifies this`failures, this`recorded, resultsFile
      ensures Complete()
      ensures var after := SaveManifest(st, id, fingerprint, e);
              && Contents() == after.snap && after.status == (if done then Running else Aborted)
              && (done ==> manifest' == after.snap.manifest && fuse' == after.fuse)
    {
      hide NewRecord, Paid;
      manifest' := manifest[id := NewRecord(manifest, id, fingerprint, e)];
      fuse' := fuse;
      done := resultsFile.Write(manifest', if fuse.None? then STEPS else fuse.value);
      if !done {
        failures := failures + 1;
        return;
      }
      fuse' := Burnt(fuse, STEPS);
      if Paid(e) { recorded := recorded + 1; }
    }

    /** Pay for one lead and persist what was found, then what was done. */
    method ExtractAndRecord(ghost st: RunState, id: string, fingerprint: string, e: Extraction,
                            existing: Candidates, manifest: Manifest, fuse: Option<nat>)
      returns (existing': Candidates, manifest': Manifest, fuse': Option<nat>, aborted: bool)
      requires Complete() && Contents() == st.snap && st.fuse == fuse && st.status == Running
      requires existing == st.snap.candidates && manifest == st.snap.manifest
      modifies this, candidatesFile, resultsFile
      ensures Complete()
      ensures var after := AfterExtraction(st, id, fingerprint, e);
              && Contents() == after.snap && (aborted <==> after.status == Aborted)
              && (!aborted ==> after.status == Running && fuse' == after.fuse
                               && existing' == after.snap.candidates && manifest' == after.snap.manifest)
    {
      hide NewRecord, Calls, Paid;
      existing', manifest', fuse', aborted := existing, manifest, fuse, false;
      if Paid(e) { paid := paid + [id]; }
      if e.ExtractionThrows? || !Survives(fuse, 1) {
        failures := failures + 1;
        return existing, manifest, fuse, true;
      }
      fuse' := Burnt(fuse, 1);
      if e.NoPages? || e.BudgetBlocked? { return; }
      ghost var charged := Charge(st, id, e).(fuse := fuse');
      ghost var saved := SaveCandidates(charged, id, e);
      SavesLeaveManifest(charged, id, e);
      hide SaveCandidates, SaveManifest;
      var done;
      existing', fuse', done := WriteCandidates(charged, id, e, existing, fuse');
      if !done { return existing', manifest', fuse', true; }
      manifest', fuse', done := WriteResults(saved, id, fingerprint, e, manifest, fuse');
      aborted := !done;
    }

    /** The main loop of one --confirm run; `fuse` is when, if ever, the process is killed. */
    method Discover(scope: seq<Lead>, site: Site, config: Config, fuse: Option<nat>)
      returns (paidAttempts: nat, llmCalls: nat, status: Status)
      requires Complete()
      modifies this, candidatesFile, resultsFile
      ensures Complete()
      ensures var after := Run(old(Contents()), scope, site, config, fuse);
              Contents() == after.snap && paidAttempts == after.paidAttempts && llmCalls == after.llmCalls
              && status == after.status
    {
      hide AfterExtraction, Select, NewRecord;
      var existing := if candidatesFile.target.Missing? then map[] else candidatesFile.target.data;
      var manifest := if resultsFile.target.Missing? then map[] else resultsFile.target.data;
      var ids := Select(scope, existing, config.refresh, config.maxLeads);
      paidAttempts, llmCalls, status := 0, 0, Running;
      var left := fuse;
      ghost var goal := Run(Contents(), scope, site, config, fuse);
      var i := 0;
      while i < |ids| && status == Running
        invariant 0 <= i <= |ids|
        invariant Complete()
        invariant status == Running ==> existing == Contents().candidates && manifest == Contents().manifest
        invariant RunLeads(RunState(Contents(), left, paidAttempts, llmCalls, status), ids[i..], site, config)
                    .(fuse := None) == goal.(fuse := None)
      {
        var id := ids[i];
        ghost var st := RunState(Contents(), left, paidAttempts, llmCalls, status);
        assert ids[i..][1..] == ids[i + 1..] && ids[i..][0] == id;
        i := i + 1;
        if paidAttempts >= config.limit {
          status := Stopped;
          break;
        }
        match site.evidence(id) {
          case FetchThrows =>
            failures := failures + 1;
            status := Aborted;
          case NoEvidence =>
          case Fingerprint(fingerprint) =>
            if MayAttempt(Get(manifest, id), fingerprint, config.refresh) {
              if llmCalls >= config.maxLlmCalls {
                status := Stopped;
                break;
              }
              var e := site.extract(id);
              ExtractionCounts(st, id, fingerprint, e);
              if Paid(e) {
                llmCalls := llmCalls + Calls(e);
                paidAttempts := paidAttempts + 1;
              }
              var aborted;
              existing, manifest, left, aborted := ExtractAndRecord(st, id, fingerprint, e, existing, manifest, left);
              if aborted { status := Aborted; }
            }
        }
      }
    }
  }
}
