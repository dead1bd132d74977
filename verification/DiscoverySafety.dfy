/** What discovery guarantees about money and state files, in one run and over every history of runs. */
module DiscoverySafety {
  import opened Wrappers
  import opened Discovery

  // ---------- one lead ----------

  /** A lead whose turn costs nothing and changes nothing. */
  predicate Untouchable(snap: Snapshot, id: string, site: Site, config: Config) {
    match site.evidence(id)
    case FetchThrows => true
    case NoEvidence => true
    case Fingerprint(f) =>
      !MayAttempt(Get(snap.manifest, id), f, config.refresh) || site.extract(id) in {NoPages, BudgetBlocked}
  }

  /** All that one lead's turn can do to the files and the ledger. */
  ghost predicate LeadRel(b: Snapshot, a: Snapshot, id: string, site: Site, config: Config) {
    && (a.paid == b.paid || (a.paid == b.paid + [id] && !Untouchable(b, id, site, config)))
    && (forall x :: x != id ==>
          Get(a.candidates, x) == Get(b.candidates, x) && Get(a.manifest, x) == Get(b.manifest, x))
    && (Get(a.candidates, id) == Get(b.candidates, id) || (HasCandidates(a.candidates, id) && a.paid != b.paid))
    && (Untouchable(b, id, site, config) ==>
          Get(a.candidates, id) == Get(b.candidates, id) && Get(a.manifest, id) == Get(b.manifest, id))
    && b.recorded <= a.recorded && b.failures <= a.failures
    && |a.paid| - |b.paid| <= a.recorded - b.recorded + a.failures - b.failures
    && (site.evidence(id).Fingerprint? ==> Settles(b, a, id, site.evidence(id).value, config))
  }

  /** Attempts on record for this evidence, as far as they use up what a run without --refresh may pay for. */
  function Used(manifest: Manifest, id: string, f: string): (n: nat)
    ensures n <= MAX_PAID_ATTEMPTS
  {
    if Attempts(manifest, id, f) < MAX_PAID_ATTEMPTS then Attempts(manifest, id, f) else MAX_PAID_ATTEMPTS
  }

  /** Every payment for this evidence is on record or lost to a failure, and the record is capped. */
  ghost predicate Settles(b: Snapshot, a: Snapshot, id: string, f: string, config: Config) {
    && |a.paid| - |b.paid| <= Attempts(a.manifest, id, f) - Attempts(b.manifest, id, f) + a.failures - b.failures
    && |a.paid| - |b.paid| <= Used(a.manifest, id, f) - Used(b.manifest, id, f) + a.failures - b.failures
                              + (if config.refresh then 1 else 0)
    && (!config.refresh && Attempts(b.manifest, id, f) <= MAX_PAID_ATTEMPTS ==>
          Attempts(a.manifest, id, f) <= MAX_PAID_ATTEMPTS)
  }

  /** An attempt that was allowed settles: its record counts it, or a failure does. */
  lemma AttemptSettles(st: RunState, id: string, f: string, e: Extraction, config: Config)
    requires MayAttempt(Get(st.snap.manifest, id), f, config.refresh) && st.status == Running
    ensures Settles(st.snap, AfterExtraction(st, id, f, e).snap, id, f, config)
  {
  }

  lemma AcceptedEffect(st: RunState, id: string, f: string, e: Extraction, site: Site, config: Config)
    requires site.evidence(id) == Fingerprint(f) && site.extract(id) == e
    requires MayAttempt(Get(st.snap.manifest, id), f, config.refresh) && st.status == Running
    requires e.Extracted? && e.accepted != []
    ensures var t := AfterExtraction(st, id, f, e);
            && LeadRel(st.snap, t.snap, id, site, config)
            && t.snap.failures == st.snap.failures + (if t.status == Aborted then 1 else 0)
  {
    AttemptSettles(st, id, f, e, config);
    hide Settles;
  }

  lemma OtherEffect(st: RunState, id: string, f: string, e: Extraction, site: Site, config: Config)
    requires site.evidence(id) == Fingerprint(f) && site.extract(id) == e
    requires MayAttempt(Get(st.snap.manifest, id), f, config.refresh) && st.status == Running
    requires !(e.Extracted? && e.accepted != [])
    ensures var t := AfterExtraction(st, id, f, e);
            && LeadRel(st.snap, t.snap, id, site, config)
            && t.snap.failures == st.snap.failures + (if t.status == Aborted then 1 else 0)
  {
    assert SaveCandidates(Charge(st, id, e).(fuse := None), id, e) == Charge(st, id, e).(fuse := None);
    AttemptSettles(st, id, f, e, config);
    hide Settles;
  }

  lemma ExtractionEffect(st: RunState, id: string, f: string, e: Extraction, site: Site, config: Config)
    requires site.evidence(id) == Fingerprint(f) && site.extract(id) == e
    requires MayAttempt(Get(st.snap.manifest, id), f, config.refresh) && st.status == Running
    ensures var t := AfterExtraction(st, id, f, e);
            && LeadRel(st.snap, t.snap, id, site, config)
            && t.snap.failures == st.snap.failures + (if t.status == Aborted then 1 else 0)
  {
    if e.Extracted? && e.accepted != [] {
      AcceptedEffect(st, id, f, e, site, config);
    } else {
      OtherEffect(st, id, f, e, site, config);
    }
    hide *;
  }

  lemma LeadEffect(st: RunState, id: string, site: Site, config: Config)
    requires st.status == Running
    ensures var t := AfterLead(st, id, site, config);
            && LeadRel(st.snap, t.snap, id, site, config)
            && t.snap.failures == st.snap.failures + (if t.status == Aborted then 1 else 0)
  {
    hide AfterExtraction;
    if site.evidence(id).Fingerprint? {
      var f := site.evidence(id).value;
      if MayAttempt(Get(st.snap.manifest, id), f, config.refresh) {
        ExtractionEffect(st, id, f, site.extract(id), site, config);
      }
    }
  }

  // ---------- one run ----------

  function Count(paid: seq<string>, id: string): nat {
    if paid == [] then 0 else Count(paid[..|paid| - 1], id) + (if paid[|paid| - 1] == id then 1 else 0)
  }

  lemma {:induction false} CountAppend(a: seq<string>, b: seq<string>, id: string)
    ensures Count(a + b, id) == Count(a, id) + Count(b, id)
    decreases |b|
  {
    if b == [] {
      assert a + b == a;
    } else {
      assert (a + b)[..|a + b| - 1] == a + b[..|b| - 1];
      CountAppend(a, b[..|b| - 1], id);
    }
  }

  lemma {:induction false} CountMember(a: seq<string>, id: string)
    ensures Count(a, id) > 0 <==> id in a
    decreases |a|
  {
    if a != [] {
      CountMember(a[..|a| - 1], id);
      assert a == a[..|a| - 1] + [a[|a| - 1]];
    }
  }

  /** What a run, or a part of one, does about lead x; `turn` says whether x had a turn. */
  ghost predicate PerLead(b: Snapshot, a: Snapshot, x: string, turn: bool, site: Site, config: Config) {
    && Count(b.paid, x) <= Count(a.paid, x)
       <= Count(b.paid, x) + (if turn && !Untouchable(b, x, site, config) then 1 else 0)
    && (Get(a.candidates, x) == Get(b.candidates, x)
        || (HasCandidates(a.candidates, x) && Count(a.paid, x) != Count(b.paid, x)))
    && (!turn || Untouchable(b, x, site, config) ==> Get(a.manifest, x) == Get(b.manifest, x))
    && (site.evidence(x).Fingerprint? ==> SettlesCount(b, a, x, turn, site.evidence(x).value, config))
  }

  ghost predicate SettlesCount(b: Snapshot, a: Snapshot, x: string, turn: bool, f: string, config: Config) {
    && Count(a.paid, x) - Count(b.paid, x)
       <= Attempts(a.manifest, x, f) - Attempts(b.manifest, x, f) + a.failures - b.failures
    && Count(a.paid, x) - Count(b.paid, x)
       <= Used(a.manifest, x, f) - Used(b.manifest, x, f) + a.failures - b.failures
          + (if turn && config.refresh then 1 else 0)
    && (!config.refresh && Attempts(b.manifest, x, f) <= MAX_PAID_ATTEMPTS ==>
          Attempts(a.manifest, x, f) <= MAX_PAID_ATTEMPTS)
  }

  ghost predicate RunRel(b: Snapshot, a: Snapshot, ids: seq<string>, site: Site, config: Config) {
    && b.paid <= a.paid
    && b.recorded <= a.recorded && b.failures <= a.failures
    && |a.paid| - |b.paid| <= a.recorded - b.recorded + a.failures - b.failures
    && forall x :: PerLead(b, a, x, x in ids, site, config)
  }

  lemma LeadIsRun(b: Snapshot, a: Snapshot, id: string, site: Site, config: Config)
    requires LeadRel(b, a, id, site, config)
    ensures RunRel(b, a, [id], site, config)
  {
    var added: seq<string> := if a.paid == b.paid then [] else [id];
    assert a.paid == b.paid + added;
    forall x
      ensures PerLead(b, a, x, x in [id], site, config)
    {
      CountAppend(b.paid, added, x);
      assert Count([], x) == 0 && Count([id], x) == Count([], x) + (if x == id then 1 else 0) by {
        assert [id][..0] == [];
      }
      hide Untouchable, HasCandidates, Count;
      if x != id { assert Get(a.manifest, x) == Get(b.manifest, x); }
    }
  }

  /** Whether a lead can be touched depends only on its own record. */
  lemma SameRecordSameTurn(b: Snapshot, a: Snapshot, x: string, site: Site, config: Config)
    requires Get(a.manifest, x) == Get(b.manifest, x)
    ensures Untouchable(a, x, site, config) == Untouchable(b, x, site, config)
  {
  }

  lemma PerLeadChain(b: Snapshot, m: Snapshot, a: Snapshot, x: string, t1: bool, t2: bool, site: Site, config: Config)
    requires !(t1 && t2)
    requires PerLead(b, m, x, t1, site, config) && PerLead(m, a, x, t2, site, config)
    ensures PerLead(b, a, x, t1 || t2, site, config)
  {
    if !t1 { SameRecordSameTurn(b, m, x, site, config); }
    hide Untouchable, HasCandidates, Count, Attempts, Used, Get;
  }

  lemma RunsChain(b: Snapshot, m: Snapshot, a: Snapshot, id: string, ids: seq<string>, site: Site, config: Config)
    requires id !in ids
    requires RunRel(b, m, [id], site, config) && RunRel(m, a, ids, site, config)
    ensures RunRel(b, a, [id] + ids, site, config)
  {
    hide PerLead;
    forall x
      ensures PerLead(b, a, x, x in [id] + ids, site, config)
    {
      assert (x in [id] + ids) == (x in [id] || x in ids);
      PerLeadChain(b, m, a, x, x in [id], x in ids, site, config);
    }
  }

  lemma NothingRun(b: Snapshot, ids: seq<string>, site: Site, config: Config)
    ensures RunRel(b, b, ids, site, config)
  {
  }

  lemma {:induction false} RunLeadsEffect(st: RunState, ids: seq<string>, site: Site, config: Config)
    requires Distinct(ids)
    ensures var t := RunLeads(st, ids, site, config);
            && RunRel(st.snap, t.snap, ids, site, config)
            && (st.status == Running ==>
                  t.snap.failures == st.snap.failures + (if t.status == Aborted then 1 else 0))
    decreases |ids|
  {
    if ids == [] || st.status != Running {
      NothingRun(st.snap, ids, site, config);
    } else {
      var next := AfterLead(st, ids[0], site, config);
      LeadEffect(st, ids[0], site, config);
      LeadIsRun(st.snap, next.snap, ids[0], site, config);
      RunLeadsEffect(next, ids[1..], site, config);
      assert ids[0] !in ids[1..] && [ids[0]] + ids[1..] == ids;
      RunsChain(st.snap, next.snap, RunLeads(next, ids[1..], site, config).snap, ids[0], ids[1..], site, config);
    }
  }

  ghost predicate DistinctLeads(scope: seq<Lead>) {
    forall i, j :: 0 <= i < j < |scope| ==> scope[i].id != scope[j].id
  }

  lemma {:induction false} SelectedFrom(scope: seq<Lead>, existing: Candidates, refresh: bool, cap: int, id: string)
    requires id in Select(scope, existing, refresh, cap)
    ensures exists i :: 0 <= i < |scope| && scope[i].id == id
    decreases |scope|
  {
    var rest := if Passes(scope[0], existing, refresh) then cap - 1 else cap;
    hide Passes;
    if id in Select(scope[1..], existing, refresh, rest) {
      SelectedFrom(scope[1..], existing, refresh, rest, id);
      var i :| 0 <= i < |scope[1..]| && scope[1..][i].id == id;
      assert scope[i + 1].id == id;
    } else {
      assert scope[0].id == id;
    }
  }

  lemma {:induction false} SelectDistinct(scope: seq<Lead>, existing: Candidates, refresh: bool, cap: int)
    requires DistinctLeads(scope)
    ensures Distinct(Select(scope, existing, refresh, cap))
    decreases |scope|
  {
    if scope != [] {
      var rest := if Passes(scope[0], existing, refresh) then cap - 1 else cap;
      hide Passes;
      assert DistinctLeads(scope[1..]);
      SelectDistinct(scope[1..], existing, refresh, rest);
      var chosen := Select(scope[1..], existing, refresh, rest);
      forall j | 0 <= j < |chosen|
        ensures chosen[j] != scope[0].id
      {
        SelectedFrom(scope[1..], existing, refresh, rest, chosen[j]);
        var i :| 0 <= i < |scope[1..]| && scope[1..][i].id == chosen[j];
        assert scope[i + 1].id != scope[0].id;
      }
    }
  }

  /** One run, killed or not: the effect on every lead, and on the totals. */
  lemma RunEffect(b: Snapshot, scope: seq<Lead>, site: Site, config: Config, fuse: Option<nat>)
    requires DistinctLeads(scope)
    ensures var t := Run(b, scope, site, config, fuse);
            && RunRel(b, t.snap, Select(scope, b.candidates, config.refresh, config.maxLeads), site, config)
            && t.snap.failures == b.failures + (if t.status == Aborted then 1 else 0)
  {
    SelectDistinct(scope, b.candidates, config.refresh, config.maxLeads);
    RunLeadsEffect(RunState(b, fuse, 0, 0, Running), Select(scope, b.candidates, config.refresh, config.maxLeads),
                   site, config);
    hide RunRel, RunLeads, Select;
  }

  // ---------- budgets ----------

  ghost predicate WithinBudget(st: RunState, config: Config, largest: nat) {
    && st.paidAttempts <= config.limit
    && (if config.maxLlmCalls == 0 then st.llmCalls == 0 else st.llmCalls <= config.maxLlmCalls - 1 + largest)
  }

  lemma LeadStaysInBudget(st: RunState, id: string, site: Site, config: Config, largest: nat)
    requires WithinBudget(st, config, largest) && forall x :: Calls(site.extract(x)) <= largest
    ensures var t := AfterLead(st, id, site, config);
            && WithinBudget(t, config, largest)
            && |t.snap.paid| - t.paidAttempts == |st.snap.paid| - st.paidAttempts
  {
    assert Calls(site.extract(id)) <= largest;
  }

  lemma {:induction false} LeadsStayInBudget(st: RunState, ids: seq<string>, site: Site, config: Config, largest: nat)
    requires WithinBudget(st, config, largest) && forall x :: Calls(site.extract(x)) <= largest
    ensures var t := RunLeads(st, ids, site, config);
            && WithinBudget(t, config, largest)
            && |t.snap.paid| - t.paidAttempts == |st.snap.paid| - st.paidAttempts
    decreases |ids|
  {
    if ids != [] && st.status == Running {
      LeadStaysInBudget(st, ids[0], site, config, largest);
      hide WithinBudget, AfterLead;
      LeadsStayInBudget(AfterLead(st, ids[0], site, config), ids[1..], site, config, largest);
    }
  }

  /** Budgets of one run: every payment is counted against the limit, and the provider requests overrun
      the cap by less than one extraction. */
  lemma RunBudget(b: Snapshot, scope: seq<Lead>, site: Site, config: Config, fuse: Option<nat>, largest: nat)
    requires forall x :: Calls(site.extract(x)) <= largest
    ensures var t := Run(b, scope, site, config, fuse);
            && |t.snap.paid| - |b.paid| == t.paidAttempts <= config.limit
            && (if config.maxLlmCalls == 0 then t.llmCalls == 0 else t.llmCalls <= config.maxLlmCalls - 1 + largest)
  {
    LeadsStayInBudget(RunState(b, fuse, 0, 0, Running), Select(scope, b.candidates, config.refresh, config.maxLeads),
                      site, config, largest);
  }

  /** A lead that is settled, unreachable or blocked by cost is neither charged nor recorded, and no run
      ever empties a list of candidates. */
  lemma RunLeavesSettledLeads(b: Snapshot, scope: seq<Lead>, site: Site, config: Config, fuse: Option<nat>, x: string)
    requires DistinctLeads(scope)
    ensures var t := Run(b, scope, site, config, fuse).snap;
            && (Untouchable(b, x, site, config) ==>
                  Count(t.paid, x) == Count(b.paid, x) && Get(t.candidates, x) == Get(b.candidates, x)
                  && Get(t.manifest, x) == Get(b.manifest, x))
            && (HasCandidates(b.candidates, x) ==> HasCandidates(t.candidates, x))
            && (HasCandidates(b.candidates, x) && !config.refresh ==>
                  Count(t.paid, x) == Count(b.paid, x) && Get(t.candidates, x) == Get(b.candidates, x))
  {
    RunEffect(b, scope, site, config, fuse);
    var ids := Select(scope, b.candidates, config.refresh, config.maxLeads);
    var t := Run(b, scope, site, config, fuse).snap;
    assert PerLead(b, t, x, x in ids, site, config);
    hide Untouchable, SettlesCount, Run, Count;
  }

  // ---------- every history of runs ----------

  datatype RunInput = RunInput(scope: seq<Lead>, site: Site, config: Config, fuse: Option<nat>)

  /** Runs of one writer, with or without --refresh, each starting from the files the previous one left. */
  ghost predicate History(snaps: seq<Snapshot>, runs: seq<RunInput>) {
    && |snaps| == |runs| + 1
    && snaps[0] == Snapshot(map[], map[], [], 0, 0)
    && forall i :: 0 <= i < |runs| ==>
         DistinctLeads(runs[i].scope)
         && snaps[i + 1] == Run(snaps[i], runs[i].scope, runs[i].site, runs[i].config, runs[i].fuse).snap
  }

  lemma HistoryStep(snaps: seq<Snapshot>, runs: seq<RunInput>, i: nat) returns (ids: seq<string>)
    requires History(snaps, runs) && i < |runs|
    ensures RunRel(snaps[i], snaps[i + 1], ids, runs[i].site, runs[i].config)
    ensures snaps[i].failures <= snaps[i + 1].failures <= snaps[i].failures + 1
  {
    var r := runs[i];
    ids := Select(r.scope, snaps[i].candidates, r.config.refresh, r.config.maxLeads);
    RunEffect(snaps[i], r.scope, r.site, r.config, r.fuse);
    assert snaps[i + 1] == Run(snaps[i], r.scope, r.site, r.config, r.fuse).snap;
  }

  /** Payments that never made it into the manifest are at most the crashes and thrown errors, and a run
      fails at most once. */
  lemma {:induction false} UnrecordedPayments(snaps: seq<Snapshot>, runs: seq<RunInput>, n: nat)
    requires History(snaps, runs) && n < |snaps|
    ensures |snaps[n].paid| <= snaps[n].recorded + snaps[n].failures
    ensures snaps[n].failures <= n
    decreases n
  {
    if n > 0 {
      UnrecordedPayments(snaps, runs, n - 1);
      var ids := HistoryStep(snaps, runs, n - 1);
    }
  }

  /** The runs among the first n that were given --refresh. */
  function Refreshes(runs: seq<RunInput>, n: nat): nat
    requires n <= |runs|
  {
    if n == 0 then 0 else Refreshes(runs, n - 1) + (if runs[n - 1].config.refresh then 1 else 0)
  }

  /** Once a lead has accepted candidates on disk, no later run without --refresh pays for it again or touches them. */
  lemma {:induction false} FoundOncePaidNeverAgain(snaps: seq<Snapshot>, runs: seq<RunInput>, m: nat, n: nat, x: string)
    requires History(snaps, runs) && m <= n < |snaps|
    requires HasCandidates(snaps[m].candidates, x) && forall i :: m <= i < n ==> !runs[i].config.refresh
    ensures Count(snaps[n].paid, x) == Count(snaps[m].paid, x)
    ensures Get(snaps[n].candidates, x) == Get(snaps[m].candidates, x)
    decreases n
  {
    if m < n {
      FoundOncePaidNeverAgain(snaps, runs, m, n - 1, x);
      var r := runs[n - 1];
      assert snaps[n - 1 + 1] == Run(snaps[n - 1], r.scope, r.site, r.config, r.fuse).snap;
      RunLeavesSettledLeads(snaps[n - 1], r.scope, r.site, r.config, r.fuse, x);
    }
  }

  /** The fingerprint last fetched for lead x in the first n runs. */
  function LastSeen(runs: seq<RunInput>, x: string, n: nat): Option<string>
    requires n <= |runs|
  {
    if n == 0 then None
    else match runs[n - 1].site.evidence(x)
         case Fingerprint(f) => Some(f)
         case _ => LastSeen(runs, x, n - 1)
  }

  /** How often the evidence fetched for lead x was new: the first time, and each time it differed from the last. */
  function Changes(runs: seq<RunInput>, x: string, n: nat): nat
    requires n <= |runs|
  {
    if n == 0 then 0
    else
      var e := runs[n - 1].site.evidence(x);
      Changes(runs, x, n - 1) + (if e.Fingerprint? && LastSeen(runs, x, n - 1) != Some(e.value) then 1 else 0)
  }

  /** What the payments for x so far come to, in terms of the evidence last seen. */
  ghost predicate Accounted(snap: Snapshot, runs: seq<RunInput>, n: nat, x: string)
    requires n <= |runs|
  {
    match LastSeen(runs, x, n)
    case None => Count(snap.paid, x) == 0
    case Some(f) =>
      Count(snap.paid, x) + MAX_PAID_ATTEMPTS
      <= MAX_PAID_ATTEMPTS * Changes(runs, x, n) + Used(snap.manifest, x, f) + snap.failures + Refreshes(runs, n)
  }

  /** One more run keeps the account, whether it sees the same evidence, new evidence or none. */
  lemma AccountStep(b: Snapshot, a: Snapshot, runs: seq<RunInput>, n: nat, x: string, turn: bool)
    requires 0 < n <= |runs| && Accounted(b, runs, n - 1, x)
    requires PerLead(b, a, x, turn, runs[n - 1].site, runs[n - 1].config) && b.failures <= a.failures
    ensures Accounted(a, runs, n, x)
  {
    var r := runs[n - 1];
    if !r.site.evidence(x).Fingerprint? {
      assert Untouchable(b, x, r.site, r.config);
      if LastSeen(runs, x, n).Some? { SameRecordSameUse(b, a, x, LastSeen(runs, x, n).value); }
    }
    hide Count, Untouchable, HasCandidates, Used, Attempts;
  }

  lemma SameRecordSameUse(b: Snapshot, a: Snapshot, x: string, f: string)
    requires Get(a.manifest, x) == Get(b.manifest, x)
    ensures Used(a.manifest, x, f) == Used(b.manifest, x, f)
  {
  }

  /**
   Over every history: a lead is paid for at most twice each time its evidence was new, plus once per crash or thrown
   error and once per run with --refresh.
   */
  lemma {:induction false} PaymentsPerChange(snaps: seq<Snapshot>, runs: seq<RunInput>, n: nat, x: string)
    requires History(snaps, runs) && n < |snaps|
    ensures Accounted(snaps[n], runs, n, x)
    ensures Count(snaps[n].paid, x)
         <= MAX_PAID_ATTEMPTS * Changes(runs, x, n) + snaps[n].failures + Refreshes(runs, n)
    decreases n
  {
    if n > 0 {
      PaymentsPerChange(snaps, runs, n - 1, x);
      var turn := HistoryTurn(snaps, runs, n - 1, x);
      hide *;
      AccountStep(snaps[n - 1], snaps[n], runs, n, x, turn);
    }
    AccountBound(snaps[n], runs, n, x);
    hide *;
  }

  /** What one run of a history does about lead x. */
  lemma HistoryTurn(snaps: seq<Snapshot>, runs: seq<RunInput>, i: nat, x: string) returns (turn: bool)
    requires History(snaps, runs) && i < |runs|
    ensures PerLead(snaps[i], snaps[i + 1], x, turn, runs[i].site, runs[i].config)
    ensures snaps[i].failures <= snaps[i + 1].failures
  {
    var ids := HistoryStep(snaps, runs, i);
    hide History, PerLead;
    turn := x in ids;
  }

  lemma AccountBound(snap: Snapshot, runs: seq<RunInput>, n: nat, x: string)
    requires n <= |runs| && Accounted(snap, runs, n, x)
    ensures Count(snap.paid, x) <= MAX_PAID_ATTEMPTS * Changes(runs, x, n) + snap.failures + Refreshes(runs, n)
  {
  }

  /** The evidence for lead x is the same whenever it can be fetched. */
  ghost predicate SameEvidence(runs: seq<RunInput>, x: string, f: string) {
    forall i :: 0 <= i < |runs| ==> !runs[i].site.evidence(x).Fingerprint? || runs[i].site.evidence(x).value == f
  }

  /** While its evidence does not change, a lead is paid for at most twice plus once per crash or error. */
  lemma {:induction false} PaymentsPerEvidence(snaps: seq<Snapshot>, runs: seq<RunInput>, n: nat, x: string, f: string)
    requires History(snaps, runs) && n < |snaps| && SameEvidence(runs, x, f)
    ensures Count(snaps[n].paid, x) <= Attempts(snaps[n].manifest, x, f) + snaps[n].failures
    ensures Refreshes(runs, n) == 0 ==> Attempts(snaps[n].manifest, x, f) <= MAX_PAID_ATTEMPTS
    ensures Refreshes(runs, n) == 0 ==> Count(snaps[n].paid, x) <= MAX_PAID_ATTEMPTS + snaps[n].failures
    decreases n
  {
    if n > 0 {
      PaymentsPerEvidence(snaps, runs, n - 1, x, f);
      var turn := HistoryTurn(snaps, runs, n - 1, x);
      hide History, PerLead, Count, Attempts;
      EvidenceStep(snaps[n - 1], snaps[n], runs[n - 1], x, turn, f);
    }
  }

  lemma EvidenceStep(b: Snapshot, a: Snapshot, r: RunInput, x: string, turn: bool, f: string)
    requires PerLead(b, a, x, turn, r.site, r.config) && b.failures <= a.failures
    requires r.site.evidence(x).Fingerprint? ==> r.site.evidence(x).value == f
    ensures Count(a.paid, x) - Count(b.paid, x)
         <= Attempts(a.manifest, x, f) - Attempts(b.manifest, x, f) + a.failures - b.failures
    ensures !r.config.refresh && Attempts(b.manifest, x, f) <= MAX_PAID_ATTEMPTS ==>
              Attempts(a.manifest, x, f) <= MAX_PAID_ATTEMPTS
  {
    hide Count, Used;
    if !r.site.evidence(x).Fingerprint? { assert Untouchable(b, x, r.site, r.config); }
  }
}
