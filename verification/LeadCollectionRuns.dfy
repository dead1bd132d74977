/** What lead collection guarantees over whole runs and over pairs of runs. */
module LeadCollectionRuns {
  import opened Wrappers
  import opened LeadCollection
  import Text

  // ---------- invariants of every run, with any mix of rollbacks ----------

  /** The unique index on (provider, place id), and the foreign key to the leads table. */
  ghost predicate Consistent(core: Core) {
    && (forall i, j :: 0 <= i < j < |core.entities| ==>
          core.entities[i].provider != core.entities[j].provider
          || core.entities[i].sourcePlaceId != core.entities[j].sourcePlaceId)
    && (forall e :: e in core.entities ==>
          e.leadId < |core.leads| && e.sourcePlaceId != "" && Text.Trimmed(e.sourcePlaceId))
  }

  function Positive(cap: int): nat { if cap < 0 then 0 else cap }

  // Rows minus what the counters claim: four quantities that no attempt may change.
  function LeadBalance(s: RunState): int { |s.db.core.leads| - s.summary.NewLeads() }

  function EntityBalance(s: RunState): int { |s.db.core.entities| - s.summary.NewEntities() }

  function ObservationBalance(s: RunState): int {
    |s.db.observations| - s.summary.NewEntities() - s.summary.refreshed
  }

  function EventBalance(s: RunState): int { |s.db.events| - s.summary.Attempted() + s.summary.failed }

  /** Rows are only ever appended, and the counters account for every appended row. */
  ghost predicate Accounts(from: RunState, to: RunState) {
    && from.db.core.leads <= to.db.core.leads
    && from.db.core.entities <= to.db.core.entities
    && from.db.observations <= to.db.observations
    && from.db.events <= to.db.events
    && LeadBalance(from) == LeadBalance(to)
    && EntityBalance(from) == EntityBalance(to)
    && ObservationBalance(from) == ObservationBalance(to)
    && EventBalance(from) == EventBalance(to)
  }

  lemma AccountsTransitive(a: RunState, b: RunState, c: RunState)
    requires Accounts(a, b) && Accounts(b, c)
    ensures Accounts(a, c)
  {
    hide LeadBalance, EntityBalance, ObservationBalance, EventBalance;
  }

  /** The committed effect of one candidate, as the counters and the core tables see it. */
  lemma ProcessEffect(env: Env, db: Db, c: Candidate, requestId: nat, now: nat)
    ensures var (db', o) := Process(env, db, c, requestId, now);
            && db'.core == CoreStep(env, db.core, c)
            && db.observations <= db'.observations && db.events <= db'.events
            && |db'.events| == |db.events| + 1
            && |db'.observations| == |db.observations| + (if Malformed(c) then 0 else 1)
            && (o.result == REJECTED <==> Malformed(c))
            && (o.result == REFRESHED <==> Known(env, db.core, c) && !Malformed(c))
            && (o.result in {CREATED, AMBIGUOUS, BRANCH} <==> MakesLead(env, db.core, c))
            && (o.newLead <==> MakesLead(env, db.core, c) )
  {
    var id := Text.Trim(c.sourcePlaceId);
    if !Malformed(c) && FindEntity(db.core.entities, env.provider, id).None? {
      match Decide(env, db.core, c) {
        case Duplicate(_, _) =>
        case Branch(_) =>
        case Ambiguous(_) =>
        case Unique =>
      }
    }
  }

  lemma StepKeepsConsistent(env: Env, core: Core, c: Candidate)
    requires DecidesAmongLeads(env) && Consistent(core)
    ensures var next := CoreStep(env, core, c);
            && Consistent(next)
            && core.leads <= next.leads && core.entities <= next.entities
            && |next.leads| == |core.leads| + (if MakesLead(env, core, c) then 1 else 0)
            && |next.entities| == |core.entities| + (if Known(env, core, c) then 0 else 1)
  {
    Text.TrimIsIdempotent(c.sourcePlaceId);
    if c.facts.Some? {
      assert DecisionInside(env.decide(c.facts.value, core.leads), core.leads);
    }
  }

  lemma CountEffect(sum: Summary, a: Attempt)
    ensures var t := sum.Count(a);
            && t.Attempted() == sum.Attempted() + 1
            && t.failed == sum.failed + (if a.Threw? then 1 else 0)
            && t.refreshed == sum.refreshed + (if a.Committed? && a.outcome.result == REFRESHED then 1 else 0)
            && t.NewLeads() == sum.NewLeads()
               + (if a.Committed? && a.outcome.result in {CREATED, AMBIGUOUS, BRANCH} then 1 else 0)
            && t.NewEntities() == sum.NewEntities()
               + (if a.Threw? || a.outcome.result in {REFRESHED, REJECTED} then 0 else 1)
            && t.stoppedAtCap == sum.stoppedAtCap
  {
    if a.Committed? {
      match a.outcome.result {
        case CREATED =>
        case DUPLICATE =>
        case REFRESHED =>
        case AMBIGUOUS =>
        case BRANCH =>
        case REJECTED =>
      }
    }
  }

  /** One attempt: unchanged tables and a failure counted, or one committed candidate. */
  lemma AttemptKeepsInvariant(env: Env, s: RunState, c: Candidate, sched: Schedule)
    requires DecidesAmongLeads(env) && Consistent(s.db.core)
    ensures var t := AttemptOne(env, s, c, sched);
            && Consistent(t.db.core) && Accounts(s, t)
            && t.summary.Attempted() == s.summary.Attempted() + 1
            && t.summary.NewLeads() <= s.summary.NewLeads() + 1
            && t.summary.stoppedAtCap == s.summary.stoppedAtCap
  {
    var k := s.summary.Attempted();
    if Fails(env, s.db.core, c, sched.faults(k)) {
      CountEffect(s.summary, Threw);
    } else {
      var (_, o) := Process(env, s.db, c, s.summary.requests, sched.clock(k));
      ProcessEffect(env, s.db, c, s.summary.requests, sched.clock(k));
      StepKeepsConsistent(env, s.db.core, c);
      CountEffect(s.summary, Committed(o));
    }
  }

  lemma {:induction false} CandidatesKeepInvariant(env: Env, s: RunState, cs: seq<Candidate>, cap: int, sched: Schedule)
    requires DecidesAmongLeads(env) && Consistent(s.db.core) && !s.summary.stoppedAtCap
    requires s.summary.NewLeads() <= Positive(cap)
    ensures var t := RunCandidates(env, s, cs, cap, sched);
            && Consistent(t.db.core) && Accounts(s, t)
            && Bounded(s.summary.Attempted(), t.summary, |cs|, cap)
    decreases |cs|
  {
    hide AttemptOne, Consistent, LeadBalance, EntityBalance, ObservationBalance, EventBalance;
    StoppingAccounts(s);
    if cs != [] && s.summary.NewLeads() < cap {
      AttemptKeepsInvariant(env, s, cs[0], sched);
      var next := AttemptOne(env, s, cs[0], sched);
      CandidatesKeepInvariant(env, next, cs[1..], cap, sched);
      AccountsTransitive(s, next, RunCandidates(env, next, cs[1..], cap, sched));
    }
  }

  lemma StoppingAccounts(s: RunState)
    ensures Accounts(s, s) && Accounts(s, s.(summary := s.summary.(stoppedAtCap := true)))
  {
  }

  /** How far a run got over `seen` candidates, and what stopping at the cap means. */
  predicate Bounded(attempted: nat, to: Summary, seen: nat, cap: int) {
    && to.NewLeads() <= Positive(cap)
    && to.Attempted() <= attempted + seen
    && (!to.stoppedAtCap ==> to.Attempted() == attempted + seen)
    && (to.stoppedAtCap ==> to.NewLeads() >= cap)
  }

  lemma {:induction false} PagesKeepInvariant(env: Env, s: RunState, pages: seq<PageEvent>, cap: int, sched: Schedule)
    requires DecidesAmongLeads(env) && Consistent(s.db.core) && !s.summary.stoppedAtCap
    requires s.summary.NewLeads() <= Positive(cap)
    ensures var t := RunPages(env, s, pages, cap, sched);
            && Consistent(t.db.core) && Accounts(s, t)
            && Bounded(s.summary.Attempted(), t.summary, |Visible(pages)|, cap)
    decreases |pages|
  {
    hide RunCandidates, Consistent;
    if pages != [] {
      OpenPageAccounts(s, pages[0]);
      if !Stops(pages[0]) {
        var s0 := OpenPage(s, pages[0]);
        CandidatesKeepInvariant(env, s0, pages[0].candidates, cap, sched);
        var s1 := RunCandidates(env, s0, pages[0].candidates, cap, sched);
        AccountsTransitive(s, s0, s1);
        if !s1.summary.stoppedAtCap {
          PagesKeepInvariant(env, s1, pages[1..], cap, sched);
          AccountsTransitive(s, s1, RunPages(env, s1, pages[1..], cap, sched));
        }
      }
    }
  }

  lemma OpenPageAccounts(s: RunState, page: PageEvent)
    ensures var t := OpenPage(s, page);
            && Accounts(s, t) && t.db == s.db && t.summary.stoppedAtCap == s.summary.stoppedAtCap
            && t.summary.NewLeads() == s.summary.NewLeads() && t.summary.Attempted() == s.summary.Attempted()
  {
  }

  /** What the summary of a finished run says about the tables, given how many candidates it could see. */
  ghost predicate Accounted(db: Db, t: RunState, seen: nat, cap: int) {
    var sum, core := t.summary, t.db.core;
    && Consistent(core)
    && db.core.leads <= core.leads && db.core.entities <= core.entities
    && db.observations <= t.db.observations && db.events <= t.db.events
    && |core.leads| == |db.core.leads| + sum.NewLeads()
    && |core.entities| == |db.core.entities| + sum.NewEntities()
    && |t.db.observations| == |db.observations| + sum.NewEntities() + sum.refreshed
    && |t.db.events| == |db.events| + sum.Attempted() - sum.failed
    && Bounded(0, sum, seen, cap)
  }

  lemma AccountedFromStart(s: RunState, t: RunState, seen: nat, cap: int)
    requires Consistent(t.db.core) && Accounts(s, t) && Bounded(s.summary.Attempted(), t.summary, seen, cap)
    requires LeadBalance(s) == |s.db.core.leads| && EntityBalance(s) == |s.db.core.entities|
    requires ObservationBalance(s) == |s.db.observations| && EventBalance(s) == |s.db.events|
    requires s.summary.Attempted() == 0
    ensures Accounted(s.db, t, seen, cap)
  {
    hide Consistent, Bounded, Summary.NewLeads, Summary.NewEntities, Summary.Attempted;
  }

  lemma ZeroLeads() ensures ZERO.NewLeads() == 0 {}

  lemma ZeroEntities() ensures ZERO.NewEntities() == 0 {}

  lemma ZeroAttempted() ensures ZERO.Attempted() == 0 {}

  lemma StartBalances(db: Db)
    ensures var s := RunState(db, ZERO);
            && LeadBalance(s) == |db.core.leads| && EntityBalance(s) == |db.core.entities|
            && ObservationBalance(s) == |db.observations| && EventBalance(s) == |db.events|
  {
    hide Summary.NewLeads, Summary.NewEntities, Summary.Attempted;
    ZeroLeads();
    ZeroEntities();
    ZeroAttempted();
  }

  /** The accounting theorem: every run, whatever throws and wherever it stops. */
  lemma RunInvariant(env: Env, db: Db, pages: seq<PageEvent>, cap: int, sched: Schedule)
    requires DecidesAmongLeads(env) && Consistent(db.core)
    ensures Accounted(db, Run(env, db, pages, cap, sched), |Visible(pages)|, cap)
  {
    hide Consistent, Accounts, Accounted, RunPages, Visible, Bounded;
    hide Summary.NewLeads, Summary.Attempted, LeadBalance, EntityBalance, ObservationBalance, EventBalance;
    ZeroLeads();
    ZeroAttempted();
    StartBalances(db);
    PagesKeepInvariant(env, RunState(db, ZERO), pages, cap, sched);
    AccountedFromStart(RunState(db, ZERO), Run(env, db, pages, cap, sched), |Visible(pages)|, cap);
  }

  // ---------- runs on leads, entities and facts ----------

  /** A run with no throwing candidate, seen on the core tables; `cap` is what is left of the cap. */
  function CoreRun(env: Env, core: Core, cs: seq<Candidate>, cap: nat): Core
    decreases |cs|
  {
    if cs == [] || cap == 0 then core
    else CoreRun(env, CoreStep(env, core, cs[0]), cs[1..], if MakesLead(env, core, cs[0]) then cap - 1 else cap)
  }

  function Left(cap: int, s: RunState): nat {
    if cap <= s.summary.NewLeads() then 0 else cap - s.summary.NewLeads()
  }

  /** Processing a concatenation is processing its halves, the second with what is left of the cap. */
  lemma {:induction false} CoreRunAppend(env: Env, core: Core, a: seq<Candidate>, b: seq<Candidate>, cap: nat)
    ensures CoreRun(env, core, a + b, cap)
         == CoreRun(env, CoreRun(env, core, a, cap), b, cap - Added(env, core, a, cap))
    decreases |a|
  {
    hide CoreStep, Known;
    if a == [] || cap == 0 {
      assert a == [] ==> a + b == b;
    } else {
      assert (a + b)[1..] == a[1..] + b;
      CoreRunAppend(env, CoreStep(env, core, a[0]), a[1..], b, if MakesLead(env, core, a[0]) then cap - 1 else cap);
    }
  }

  /** New leads a run makes. */
  function Added(env: Env, core: Core, cs: seq<Candidate>, cap: nat): (n: nat)
    ensures n <= cap
    decreases |cs|
  {
    if cs == [] || cap == 0 then 0
    else if MakesLead(env, core, cs[0]) then 1 + Added(env, CoreStep(env, core, cs[0]), cs[1..], cap - 1)
    else Added(env, CoreStep(env, core, cs[0]), cs[1..], cap)
  }

  lemma AttemptOnCore(env: Env, s: RunState, c: Candidate, sched: Schedule)
    requires !Fails(env, s.db.core, c, sched.faults(s.summary.Attempted()))
    ensures var t := AttemptOne(env, s, c, sched);
            && t.db.core == CoreStep(env, s.db.core, c)
            && t.summary.NewLeads() == s.summary.NewLeads() + (if MakesLead(env, s.db.core, c) then 1 else 0)
            && t.summary.stoppedAtCap == s.summary.stoppedAtCap
  {
    var k := s.summary.Attempted();
    var (_, o) := Process(env, s.db, c, s.summary.requests, sched.clock(k));
    ProcessEffect(env, s.db, c, s.summary.requests, sched.clock(k));
    CountEffect(s.summary, Committed(o));
  }

  lemma {:induction false} FailuresOnlyGrow(env: Env, s: RunState, cs: seq<Candidate>, cap: int, sched: Schedule)
    ensures s.summary.failed <= RunCandidates(env, s, cs, cap, sched).summary.failed
    decreases |cs|
  {
    if cs != [] && s.summary.NewLeads() < cap {
      AttemptCountsFailure(env, s, cs[0], sched);
      hide AttemptOne, Fails;
      FailuresOnlyGrow(env, AttemptOne(env, s, cs[0], sched), cs[1..], cap, sched);
    }
  }

  lemma AttemptCountsFailure(env: Env, s: RunState, c: Candidate, sched: Schedule)
    ensures var k := s.summary.Attempted();
            AttemptOne(env, s, c, sched).summary.failed
            == s.summary.failed + (if Fails(env, s.db.core, c, sched.faults(k)) then 1 else 0)
  {
    var k := s.summary.Attempted();
    if Fails(env, s.db.core, c, sched.faults(k)) {
      CountEffect(s.summary, Threw);
    } else {
      CountEffect(s.summary, Committed(Process(env, s.db, c, s.summary.requests, sched.clock(k)).1));
    }
    hide Process, Fails;
  }

  lemma {:induction false} PageFailuresOnlyGrow(env: Env, s: RunState, pages: seq<PageEvent>, cap: int, sched: Schedule)
    ensures s.summary.failed <= RunPages(env, s, pages, cap, sched).summary.failed
    decreases |pages|
  {
    if pages != [] && !Stops(pages[0]) {
      var s0 := OpenPage(s, pages[0]);
      FailuresOnlyGrow(env, s0, pages[0].candidates, cap, sched);
      hide RunCandidates;
      PageFailuresOnlyGrow(env, RunCandidates(env, s0, pages[0].candidates, cap, sched), pages[1..], cap, sched);
    }
  }

  lemma {:induction false} CandidatesOnCore(env: Env, s: RunState, cs: seq<Candidate>, cap: int, sched: Schedule)
    requires !s.summary.stoppedAtCap
    requires RunCandidates(env, s, cs, cap, sched).summary.failed == s.summary.failed
    ensures var t := RunCandidates(env, s, cs, cap, sched);
            && t.db.core == CoreRun(env, s.db.core, cs, Left(cap, s))
            && t.summary.NewLeads() == s.summary.NewLeads() + Added(env, s.db.core, cs, Left(cap, s))
            && (t.summary.stoppedAtCap ==> Left(cap, t) == 0)
    decreases |cs|
  {
    if cs != [] && s.summary.NewLeads() < cap {
      var next := AttemptOne(env, s, cs[0], sched);
      AttemptCountsFailure(env, s, cs[0], sched);
      FailuresOnlyGrow(env, next, cs[1..], cap, sched);
      hide Fails, AttemptOne;
      AttemptOnCore(env, s, cs[0], sched);
      CandidatesOnCore(env, next, cs[1..], cap, sched);
    }
  }

  lemma {:induction false} PagesOnCore(env: Env, s: RunState, pages: seq<PageEvent>, cap: int, sched: Schedule)
    requires !s.summary.stoppedAtCap
    requires RunPages(env, s, pages, cap, sched).summary.failed == s.summary.failed
    ensures var t := RunPages(env, s, pages, cap, sched);
            && t.db.core == CoreRun(env, s.db.core, Visible(pages), Left(cap, s))
            && t.summary.NewLeads() == s.summary.NewLeads() + Added(env, s.db.core, Visible(pages), Left(cap, s))
    decreases |pages|
  {
    hide RunCandidates, CoreRun, Added;
    if pages == [] || Stops(pages[0]) {
      NothingToRun(env, s.db.core, Left(cap, s));
    } else {
      var s0 := OpenPage(s, pages[0]);
      var cs := pages[0].candidates;
      var s1 := RunCandidates(env, s0, cs, cap, sched);
      FailuresOnlyGrow(env, s0, cs, cap, sched);
      PageFailuresOnlyGrow(env, s1, pages[1..], cap, sched);
      CandidatesOnCore(env, s0, cs, cap, sched);
      CoreRunAppend(env, s0.db.core, cs, Visible(pages[1..]), Left(cap, s0));
      AddedAppend(env, s0.db.core, cs, Visible(pages[1..]), Left(cap, s0));
      if s1.summary.stoppedAtCap {
        CapUsedUp(env, s1.db.core, Visible(pages[1..]));
      } else {
        PagesOnCore(env, s1, pages[1..], cap, sched);
      }
    }
  }

  /** A whole run in which nothing failed, on the core tables. */
  lemma CleanRunOnCore(env: Env, db: Db, pages: seq<PageEvent>, cap: nat, sched: Schedule)
    ensures var t := Run(env, db, pages, cap, sched);
            t.summary.failed == 0 ==>
              && t.db.core == CoreRun(env, db.core, Visible(pages), cap)
              && t.summary.NewLeads() == Added(env, db.core, Visible(pages), cap)
  {
    hide RunPages, CoreRun, Added, Visible, Summary.NewLeads;
    ZeroLeads();
    if Run(env, db, pages, cap, sched).summary.failed == 0 {
      PagesOnCore(env, RunState(db, ZERO), pages, cap, sched);
    }
  }

  lemma NothingToRun(env: Env, core: Core, cap: nat)
    ensures CoreRun(env, core, [], cap) == core && Added(env, core, [], cap) == 0
  {
  }

  lemma CapUsedUp(env: Env, core: Core, cs: seq<Candidate>)
    ensures CoreRun(env, core, cs, 0) == core && Added(env, core, cs, 0) == 0
  {
  }

  lemma {:induction false} AddedAppend(env: Env, core: Core, a: seq<Candidate>, b: seq<Candidate>, cap: nat)
    ensures Added(env, core, a + b, cap)
         == Added(env, core, a, cap) + Added(env, CoreRun(env, core, a, cap), b, cap - Added(env, core, a, cap))
    decreases |a|
  {
    hide CoreStep, Known;
    if a == [] || cap == 0 {
      assert a == [] ==> a + b == b;
    } else {
      assert (a + b)[1..] == a[1..] + b;
      AddedAppend(env, CoreStep(env, core, a[0]), a[1..], b, if MakesLead(env, core, a[0]) then cap - 1 else cap);
    }
  }

  lemma StepMakesKnown(env: Env, core: Core, c: Candidate)
    ensures Known(env, CoreStep(env, core, c), c)
  {
    var after := CoreStep(env, core, c);
    if !Known(env, core, c) {
      assert after.entities[|core.entities|] in after.entities;
    }
  }

  lemma KnownChangesNothing(env: Env, core: Core, c: Candidate)
    requires Known(env, core, c)
    ensures CoreStep(env, core, c) == core && !MakesLead(env, core, c)
  {
  }

  lemma StepKeepsKnown(env: Env, core: Core, d: Candidate, c: Candidate)
    requires Known(env, core, c)
    ensures Known(env, CoreStep(env, core, d), c)
  {
    if !Malformed(c) {
      var e := FindEntity(core.entities, env.provider, Text.Trim(c.sourcePlaceId)).value;
      var next := CoreStep(env, core, d);
      assert next.entities[e] in next.entities;
    }
  }

  lemma {:induction false} KnownForever(env: Env, core: Core, cs: seq<Candidate>, cap: nat, c: Candidate)
    requires Known(env, core, c)
    ensures Known(env, CoreRun(env, core, cs, cap), c)
    decreases |cs|
  {
    hide CoreStep, Known;
    if cs != [] && cap != 0 {
      StepKeepsKnown(env, core, cs[0], c);
      KnownForever(env, CoreStep(env, core, cs[0]), cs[1..], if MakesLead(env, core, cs[0]) then cap - 1 else cap, c);
    }
  }

  lemma {:induction false} KnownThroughCandidates(env: Env, s: RunState, cs: seq<Candidate>, cap: int, sched: Schedule,
                                                  c: Candidate)
    requires Known(env, s.db.core, c)
    ensures Known(env, RunCandidates(env, s, cs, cap, sched).db.core, c)
    decreases |cs|
  {
    if cs != [] && s.summary.NewLeads() < cap {
      var k := s.summary.Attempted();
      if !Fails(env, s.db.core, cs[0], sched.faults(k)) {
        AttemptOnCore(env, s, cs[0], sched);
        StepKeepsKnown(env, s.db.core, cs[0], c);
      }
      var next := AttemptOne(env, s, cs[0], sched);
      assert Known(env, next.db.core, c);
      hide AttemptOne, Known, Fails;
      KnownThroughCandidates(env, next, cs[1..], cap, sched, c);
    }
  }

  lemma {:induction false} KnownThroughPages(env: Env, s: RunState, pages: seq<PageEvent>, cap: int, sched: Schedule,
                                             c: Candidate)
    requires Known(env, s.db.core, c)
    ensures Known(env, RunPages(env, s, pages, cap, sched).db.core, c)
    decreases |pages|
  {
    hide RunCandidates, Known;
    if pages != [] && !Stops(pages[0]) {
      var s0 := OpenPage(s, pages[0]);
      KnownThroughCandidates(env, s0, pages[0].candidates, cap, sched, c);
      KnownThroughPages(env, RunCandidates(env, s0, pages[0].candidates, cap, sched), pages[1..], cap, sched, c);
    }
  }

  datatype RunInput = RunInput(pages: seq<PageEvent>, cap: int, sched: Schedule)

  /** Any number of runs, one after the other. */
  function Runs(env: Env, db: Db, inputs: seq<RunInput>): Db
    decreases |inputs|
  {
    if inputs == [] then db
    else Runs(env, Run(env, db, inputs[0].pages, inputs[0].cap, inputs[0].sched).db, inputs[1..])
  }

  /**
   Once processed, always known: whatever runs follow, over any pages, caps and faults, processing the candidate again
   leaves leads, entities and facts as they are and only refreshes or rejects it.
   */
  lemma {:induction false} ProcessedOnce(env: Env, db: Db, inputs: seq<RunInput>, c: Candidate, requestId: nat,
                                         now: nat)
    requires Known(env, db.core, c)
    ensures var later := Runs(env, db, inputs);
            var (again, o) := Process(env, later, c, requestId, now);
            again.core == later.core && o.result in {REFRESHED, REJECTED}
    decreases |inputs|
  {
    if inputs == [] {
      KnownChangesNothing(env, db.core, c);
      ProcessEffect(env, db, c, requestId, now);
    } else {
      var run := inputs[0];
      hide Known, Process, RunPages;
      KnownThroughPages(env, RunState(db, ZERO), run.pages, run.cap, run.sched, c);
      ProcessedOnce(env, Run(env, db, run.pages, run.cap, run.sched).db, inputs[1..], c, requestId, now);
    }
  }

  /** Re-reading a prefix costs nothing: the rerun resumes where the first run got to. */
  lemma {:induction false} RerunPrefix(env: Env, core: Core, a: seq<Candidate>, b: seq<Candidate>, n: nat, m: nat)
    requires m > 0
    ensures CoreRun(env, CoreRun(env, core, a, n), a + b, m)
         == CoreRun(env, core, a + b, Added(env, core, a, n) + m)
    decreases |a|
  {
    hide CoreStep, Decide, Known;
    if a == [] {
      assert a + b == b;
    } else if n > 0 {
      var next := CoreStep(env, core, a[0]);
      var n' := if MakesLead(env, core, a[0]) then n - 1 else n;
      StepMakesKnown(env, core, a[0]);
      KnownForever(env, next, a[1..], n', a[0]);
      KnownChangesNothing(env, CoreRun(env, next, a[1..], n'), a[0]);
      assert (a + b)[1..] == a[1..] + b;
      RerunPrefix(env, next, a[1..], b, n', m);
    }
  }

  lemma {:induction false} RerunWhole(env: Env, core: Core, cs: seq<Candidate>, n: nat, m: nat)
    ensures CoreRun(env, CoreRun(env, core, cs, n), cs, m) == CoreRun(env, core, cs, n + m)
    decreases |cs|
  {
    hide CoreStep, Decide, Known;
    if cs != [] && n > 0 && m > 0 {
      var next := CoreStep(env, core, cs[0]);
      var n' := if MakesLead(env, core, cs[0]) then n - 1 else n;
      StepMakesKnown(env, core, cs[0]);
      KnownForever(env, next, cs[1..], n', cs[0]);
      KnownChangesNothing(env, CoreRun(env, next, cs[1..], n'), cs[0]);
      RerunWhole(env, next, cs[1..], n', m);
    }
  }

  // ---------- main results on pairs of runs ----------

  /**
   When no candidate failed in any of the three, a run with cap n and then a run from page 1 with cap m leave what one
   run with cap n + m leaves.
   */
  lemma RunsCompose(env: Env, db: Db, pages: seq<PageEvent>, n: nat, m: nat,
                    first: Schedule, second: Schedule, single: Schedule)
    ensures var one := Run(env, db, pages, n, first);
            var two := Run(env, one.db, pages, m, second);
            var whole := Run(env, db, pages, n + m, single);
            one.summary.failed == two.summary.failed == whole.summary.failed == 0 ==> two.db.core == whole.db.core
  {
    hide Run, CoreRun;
    CleanRunOnCore(env, db, pages, n, first);
    CleanRunOnCore(env, Run(env, db, pages, n, first).db, pages, m, second);
    CleanRunOnCore(env, db, pages, n + m, single);
    RerunWhole(env, db.core, Visible(pages), n, m);
  }

  /**
   A run cut short anywhere, rerun from page 1 with what is left of its cap, leaves what the uncut run leaves, when no
   candidate failed in the three.
   */
  lemma InterruptedRunResumes(env: Env, db: Db, cut: seq<PageEvent>, pages: seq<PageEvent>, n: nat,
                              first: Schedule, second: Schedule, single: Schedule)
    requires Visible(cut) <= Visible(pages)
    ensures var interrupted := Run(env, db, cut, n, first);
            var resumed := Run(env, interrupted.db, pages, n - interrupted.summary.NewLeads(), second);
            var whole := Run(env, db, pages, n, single);
            interrupted.summary.failed == resumed.summary.failed == whole.summary.failed == 0 ==>
              resumed.db.core == whole.db.core
  {
    hide Run, CoreRun, Added, Summary.NewLeads;
    var a, b := Visible(cut), Visible(pages)[|Visible(cut)|..];
    assert Visible(pages) == a + b;
    CleanRunOnCore(env, db, cut, n, first);
    var interrupted := Run(env, db, cut, n, first);
    if interrupted.summary.failed == 0 {
      CleanRunOnCore(env, interrupted.db, pages, n - interrupted.summary.NewLeads(), second);
      CleanRunOnCore(env, db, pages, n, single);
      ResumeOnCore(env, db.core, a, b, n);
    }
  }

  /** With any positive cap m the rerun leaves what one run with the leads already made plus m leaves. */
  lemma InterruptedRunExtends(env: Env, db: Db, cut: seq<PageEvent>, pages: seq<PageEvent>, n: nat, m: nat,
                              first: Schedule, second: Schedule, single: Schedule)
    requires Visible(cut) <= Visible(pages) && m > 0
    ensures var interrupted := Run(env, db, cut, n, first);
            var extended := Run(env, interrupted.db, pages, m, second);
            var whole := Run(env, db, pages, interrupted.summary.NewLeads() + m, single);
            interrupted.summary.failed == extended.summary.failed == whole.summary.failed == 0 ==>
              extended.db.core == whole.db.core
  {
    hide Run, CoreRun, Added, Summary.NewLeads;
    var a, b := Visible(cut), Visible(pages)[|Visible(cut)|..];
    assert Visible(pages) == a + b;
    CleanRunOnCore(env, db, cut, n, first);
    var interrupted := Run(env, db, cut, n, first);
    CleanRunOnCore(env, interrupted.db, pages, m, second);
    CleanRunOnCore(env, db, pages, interrupted.summary.NewLeads() + m, single);
    RerunPrefix(env, db.core, a, b, n, m);
  }

  lemma ResumeOnCore(env: Env, core: Core, a: seq<Candidate>, b: seq<Candidate>, n: nat)
    ensures CoreRun(env, CoreRun(env, core, a, n), a + b, n - Added(env, core, a, n)) == CoreRun(env, core, a + b, n)
  {
    hide CoreStep, Known, CoreRun, Added;
    CapUsedUp(env, CoreRun(env, core, a, n), b);
    CapUsedUp(env, CoreRun(env, core, a, n), a + b);
    if Added(env, core, a, n) < n {
      RerunPrefix(env, core, a, b, n, n - Added(env, core, a, n));
    } else {
      CoreRunAppend(env, core, a, b, n);
    }
  }

  /** Whatever earlier runs left behind, a run in which nothing failed and which its cap did not stop ends with
      every well-formed candidate it saw attached to a lead. */
  lemma CleanRunCoversStream(env: Env, db: Db, pages: seq<PageEvent>, cap: nat, sched: Schedule, c: Candidate)
    requires c in Visible(pages)
    ensures var t := Run(env, db, pages, cap, sched);
            t.summary.failed == 0 && t.summary.NewLeads() < cap ==> Known(env, t.db.core, c)
  {
    hide Run, Known, CoreRun, Added, Visible, Summary.NewLeads;
    CleanRunOnCore(env, db, pages, cap, sched);
    if Added(env, db.core, Visible(pages), cap) < cap {
      UncappedCovers(env, db.core, Visible(pages), cap, c);
    }
  }

  lemma {:induction false} UncappedCovers(env: Env, core: Core, cs: seq<Candidate>, cap: nat, c: Candidate)
    requires c in cs && Added(env, core, cs, cap) < cap
    ensures Known(env, CoreRun(env, core, cs, cap), c)
    decreases |cs|
  {
    var next := CoreStep(env, core, cs[0]);
    var cap' := if MakesLead(env, core, cs[0]) then cap - 1 else cap;
    if c == cs[0] {
      StepMakesKnown(env, core, c);
      KnownForever(env, next, cs[1..], cap', c);
    } else {
      UncappedCovers(env, next, cs[1..], cap', c);
    }
  }

  // ---------- exactly when runs compose ----------

  ghost predicate NoFaults(sched: Schedule) {
    forall k: nat :: sched.faults(k) == None
  }

  lemma {:induction false} NoFaultNoFailure(env: Env, s: RunState, cs: seq<Candidate>, cap: int, sched: Schedule)
    requires NoFaults(sched)
    ensures RunCandidates(env, s, cs, cap, sched).summary.failed == s.summary.failed
    decreases |cs|
  {
    if cs != [] && s.summary.NewLeads() < cap {
      AttemptCountsFailure(env, s, cs[0], sched);
      hide AttemptOne;
      NoFaultNoFailure(env, AttemptOne(env, s, cs[0], sched), cs[1..], cap, sched);
    }
  }

  lemma {:induction false} NoFaultNoFailedPage(env: Env, s: RunState, pages: seq<PageEvent>, cap: int, sched: Schedule)
    requires NoFaults(sched)
    ensures RunPages(env, s, pages, cap, sched).summary.failed == s.summary.failed
    decreases |pages|
  {
    if pages != [] && !Stops(pages[0]) {
      var s0 := OpenPage(s, pages[0]);
      NoFaultNoFailure(env, s0, pages[0].candidates, cap, sched);
      hide RunCandidates, NoFaults;
      NoFaultNoFailedPage(env, RunCandidates(env, s0, pages[0].candidates, cap, sched), pages[1..], cap, sched);
    }
  }

  lemma NoFaultCleanRun(env: Env, db: Db, pages: seq<PageEvent>, cap: int, sched: Schedule)
    requires NoFaults(sched)
    ensures Run(env, db, pages, cap, sched).summary.failed == 0
  {
    hide RunPages;
    NoFaultNoFailedPage(env, RunState(db, ZERO), pages, cap, sched);
  }

  datatype Pair = Pair(env: Env, db: Db, pages: seq<PageEvent>, n: nat, m: nat, second: Schedule, single: Schedule)

  /** On this pair of runs, in which only the first may meet faults, two runs leave what one leaves. */
  ghost predicate ComposesOn(first: Schedule, p: Pair) {
    DecidesAmongLeads(p.env) && NoFaults(p.second) && NoFaults(p.single) ==>
      Run(p.env, Run(p.env, p.db, p.pages, p.n, first).db, p.pages, p.m, p.second).db.core
      == Run(p.env, p.db, p.pages, p.n + p.m, p.single).db.core
  }

  lemma FaultFreeComposes(first: Schedule, p: Pair)
    requires NoFaults(first)
    ensures ComposesOn(first, p)
  {
    if NoFaults(p.second) && NoFaults(p.single) {
      NoFaultCleanRun(p.env, p.db, p.pages, p.n, first);
      NoFaultCleanRun(p.env, Run(p.env, p.db, p.pages, p.n, first).db, p.pages, p.m, p.second);
      NoFaultCleanRun(p.env, p.db, p.pages, p.n + p.m, p.single);
      hide Run, NoFaults;
      RunsCompose(p.env, p.db, p.pages, p.n, p.m, first, p.second, p.single);
    }
  }

  // A stream that exposes a fault at attempt k: k malformed candidates, then two new businesses.
  function Blanks(k: nat): seq<Candidate> {
    if k == 0 then [] else [Candidate("", None)] + Blanks(k - 1)
  }

  function TwoNew(): seq<Candidate> { [Named("a"), Named("b")] }

  function Rows(v: nat): (r: seq<(string, string)>)
    ensures |r| == v
  {
    if v == 0 then [] else Rows(v - 1) + [("phone", "1")]
  }

  /** Nothing is ever a duplicate, and every lead brings so many facts that a fault at write v strikes. */
  function AllNew(v: nat): Env {
    Env("mock", (f: LeadFacts, leads: seq<Lead>) => Unique, (f: LeadFacts) => Rows(v + 1), "mock")
  }

  function Clean(): Schedule { Schedule((i: nat) => None, (i: nat) => 0) }

  lemma TwoNewAre(env: Env, core: Core, c: Candidate)
    requires c in TwoNew() && env.provider == "mock" && (forall f, l :: env.decide(f, l) == Unique)
    requires !Known(env, core, c)
    ensures CoreStep(env, core, c).leads == core.leads + [Lead(c.sourcePlaceId, "mock", c.facts, UniqueLead, None)]
    ensures CoreStep(env, core, c).entities == core.entities + [Entity("mock", c.sourcePlaceId, |core.leads|)]
    ensures MakesLead(env, core, c)
    ensures Writes(env, core, c) == 4 + |env.factInputs(c.facts.value)|
  {
    NamesAreTrimmed();
  }

  lemma NamesAreTrimmed()
    ensures Text.Trim("a") == "a" && Text.Trim("b") == "b" && Text.Trim("1") == "1" && "a" != "b"
    ensures !Malformed(Named("a")) && !Malformed(Named("b"))
  {
    assert Text.Trim("a") == "a" && Text.Trim("b") == "b" && Text.Trim("1") == "1";
    assert "a"[0] != "b"[0];
  }

  lemma BlankIsKnown(env: Env, core: Core)
    ensures Malformed(Candidate("", None)) && Known(env, core, Candidate("", None))
  {
    assert Text.Trim("") == "";
  }

  lemma {:induction false} BlanksCostNothing(env: Env, core: Core, k: nat, tail: seq<Candidate>, cap: nat)
    requires cap > 0
    ensures CoreRun(env, core, Blanks(k) + tail, cap) == CoreRun(env, core, tail, cap)
    decreases k
  {
    hide CoreStep, Known, Malformed, MakesLead;
    if k == 0 {
      assert Blanks(0) + tail == tail;
    } else {
      BlankIsKnown(env, core);
      KnownChangesNothing(env, core, Candidate("", None));
      assert (Blanks(k) + tail)[1..] == Blanks(k - 1) + tail;
      BlanksCostNothing(env, core, k - 1, tail, cap);
    }
  }

  /** A run with no fault before attempt k passes the k malformed candidates without touching the core tables. */
  lemma {:induction false} BlanksAttempted(env: Env, s: RunState, k: nat, tail: seq<Candidate>, cap: int,
                                           sched: Schedule)
    requires s.summary.NewLeads() < cap && !s.summary.stoppedAtCap
    requires forall i: nat :: s.summary.Attempted() <= i < s.summary.Attempted() + k ==> sched.faults(i) == None
    ensures exists t: RunState :: BlanksPassed(s, t, k)
              && RunCandidates(env, s, Blanks(k) + tail, cap, sched) == RunCandidates(env, t, tail, cap, sched)
    decreases k
  {
    if k == 0 {
      assert Blanks(0) + tail == tail && BlanksPassed(s, s, 0);
    } else {
      var c := Candidate("", None);
      var next := AttemptOne(env, s, c, sched);
      BlankIsKnown(env, s.db.core);
      KnownChangesNothing(env, s.db.core, c);
      AttemptOnCore(env, s, c, sched);
      AttemptAdvances(env, s, c, sched);
      assert (Blanks(k) + tail)[1..] == Blanks(k - 1) + tail && (Blanks(k) + tail)[0] == c;
      hide AttemptOne, CoreStep, Known, Malformed, Summary.NewLeads, Summary.Attempted, Fails;
      BlanksAttempted(env, next, k - 1, tail, cap, sched);
      var t: RunState :| BlanksPassed(next, t, k - 1)
        && RunCandidates(env, next, Blanks(k - 1) + tail, cap, sched) == RunCandidates(env, t, tail, cap, sched);
      assert BlanksPassed(s, t, k);
    }
  }

  ghost predicate BlanksPassed(s: RunState, t: RunState, k: nat) {
    && t.db.core == s.db.core && !t.summary.stoppedAtCap
    && t.summary.NewLeads() == s.summary.NewLeads() && t.summary.Attempted() == s.summary.Attempted() + k
  }

  lemma AttemptAdvances(env: Env, s: RunState, c: Candidate, sched: Schedule)
    ensures AttemptOne(env, s, c, sched).summary.Attempted() == s.summary.Attempted() + 1
  {
    var k := s.summary.Attempted();
    if Fails(env, s.db.core, c, sched.faults(k)) {
      CountEffect(s.summary, Threw);
    } else {
      CountEffect(s.summary, Committed(Process(env, s.db, c, s.summary.requests, sched.clock(k)).1));
    }
    hide Process, Fails;
  }

  lemma NothingKnownYet(env: Env, c: Candidate)
    requires c in TwoNew()
    ensures !Known(env, Empty().core, c)
  {
    NamesAreTrimmed();
  }

  lemma OtherStillNew(env: Env)
    requires env.provider == "mock" && (forall f, l :: env.decide(f, l) == Unique)
    ensures !Known(env, CoreStep(env, Empty().core, Named("a")), Named("b"))
  {
    NothingKnownYet(env, Named("a"));
    TwoNewAre(env, Empty().core, Named("a"));
    NamesAreTrimmed();
    var after := CoreStep(env, Empty().core, Named("a"));
    assert after.entities == [Entity("mock", "a", 0)];
    assert after.entities[..0] == [];
    assert FindEntity(after.entities, "mock", "b").None?;
  }

  /** What one clean run over the two businesses leaves: with cap 1 the first of them, with cap 2 both. */
  lemma CleanPair(env: Env)
    requires env.provider == "mock" && (forall f, l :: env.decide(f, l) == Unique)
    ensures |CoreRun(env, Empty().core, TwoNew(), 1).leads| == 1
    ensures |CoreRun(env, Empty().core, TwoNew(), 2).leads| == 2
    ensures CoreRun(env, Empty().core, TwoNew(), 2).leads[0].placeId == "a"
  {
    NothingKnownYet(env, Named("a"));
    TwoNewAre(env, Empty().core, Named("a"));
    OtherStillNew(env);
    var one := CoreStep(env, Empty().core, Named("a"));
    TwoNewAre(env, one, Named("b"));
    var two := CoreStep(env, one, Named("b"));
    hide CoreStep, Known, MakesLead, Writes;
    assert TwoNew()[1..] == [Named("b")] && [Named("b")][1..] == [];
    assert CoreRun(env, Empty().core, TwoNew(), 1) == CoreRun(env, one, TwoNew()[1..], 0) == one;
    assert CoreRun(env, Empty().core, TwoNew(), 2) == CoreRun(env, one, TwoNew()[1..], 1)
        == CoreRun(env, two, [], 0) == two;
  }

  lemma AttemptOnTwo(env: Env, s: RunState, cap: int, sched: Schedule)
    requires s.summary.NewLeads() < cap
    requires Fails(env, s.db.core, Named("a"), sched.faults(s.summary.Attempted()))
    ensures var t := RunCandidates(env, s, TwoNew(), cap, sched);
            t.db.core == s.db.core || t.db.core == CoreStep(env, s.db.core, Named("b"))
  {
    var s1 := AttemptOne(env, s, Named("a"), sched);
    assert s1.db == s.db;
    CountEffect(s.summary, Threw);
    var s2 := AttemptOne(env, s1, Named("b"), sched);
    if !Fails(env, s1.db.core, Named("b"), sched.faults(s1.summary.Attempted())) {
      AttemptOnCore(env, s1, Named("b"), sched);
    }
    assert s2.db.core == s.db.core || s2.db.core == CoreStep(env, s.db.core, Named("b"));
    hide AttemptOne, CoreStep, Fails, Summary.NewLeads;
    assert TwoNew()[1..] == [Named("b")] && [Named("b")][1..] == [];
    assert RunCandidates(env, s, TwoNew(), cap, sched) == RunCandidates(env, s1, [Named("b")], cap, sched)
        == RunCandidates(env, s2, [], cap, sched) == s2;
  }

  lemma FaultStrikes(v: nat)
    ensures Fails(AllNew(v), Empty().core, Named("a"), Some(v))
  {
    NothingKnownYet(AllNew(v), Named("a"));
    TwoNewAre(AllNew(v), Empty().core, Named("a"));
    hide Writes, Known;
  }

  lemma StruckCandidates(first: Schedule, k: nat, v: nat, s: RunState)
    requires first.faults(k) == Some(v) && forall i: nat :: i < k ==> first.faults(i) == None
    requires s.db == Empty() && s.summary.NewLeads() == 0 && s.summary.Attempted() == 0 && !s.summary.stoppedAtCap
    ensures var t := RunCandidates(AllNew(v), s, Blanks(k) + TwoNew(), 1, first);
            t.db.core == Empty().core || t.db.core == CoreStep(AllNew(v), Empty().core, Named("b"))
  {
    var env := AllNew(v);
    FaultStrikes(v);
    hide RunCandidates, CoreStep, Summary.NewLeads, Summary.Attempted, Blanks, TwoNew, AllNew, Fails, Empty, Named;
    BlanksAttempted(env, s, k, TwoNew(), 1, first);
    var r: RunState :| BlanksPassed(s, r, k)
      && RunCandidates(env, s, Blanks(k) + TwoNew(), 1, first) == RunCandidates(env, r, TwoNew(), 1, first);
    assert Fails(env, r.db.core, Named("a"), first.faults(k));
    AttemptOnTwo(env, r, 1, first);
  }

  lemma OnePage(env: Env, s: RunState, cs: seq<Candidate>, cap: int, sched: Schedule)
    requires !s.summary.stoppedAtCap
    ensures var s0 := OpenPage(s, Page(cs, false, false));
            && RunPages(env, s, [Page(cs, false, false)], cap, sched) == RunCandidates(env, s0, cs, cap, sched)
            && s0.db == s.db && s0.summary.NewLeads() == s.summary.NewLeads()
            && s0.summary.Attempted() == s.summary.Attempted() && !s0.summary.stoppedAtCap
  {
    hide RunCandidates;
    assert [Page(cs, false, false)][1..] == [];
  }

  /** The first run, struck at attempt k, ends without business a: it added nothing, or b alone. */
  lemma StruckRun(first: Schedule, k: nat, v: nat)
    requires first.faults(k) == Some(v) && forall i: nat :: i < k ==> first.faults(i) == None
    ensures var pages := [Page(Blanks(k) + TwoNew(), false, false)];
            var core := Run(AllNew(v), Empty(), pages, 1, first).db.core;
            core == Empty().core || core == CoreStep(AllNew(v), Empty().core, Named("b"))
  {
    ZeroLeads();
    ZeroAttempted();
    hide RunPages, RunCandidates, CoreStep, OpenPage, Summary.NewLeads, Summary.Attempted;
    hide Blanks, TwoNew, AllNew, Empty;
    var start := RunState(Empty(), ZERO);
    OnePage(AllNew(v), start, Blanks(k) + TwoNew(), 1, first);
    StruckCandidates(first, k, v, OpenPage(start, Page(Blanks(k) + TwoNew(), false, false)));
  }

  lemma ExposingPage(k: nat)
    ensures Visible([Page(Blanks(k) + TwoNew(), false, false)]) == Blanks(k) + TwoNew()
  {
    hide Blanks, TwoNew;
    var pages := [Page(Blanks(k) + TwoNew(), false, false)];
    assert pages[1..] == [] && Visible(pages[1..]) == [];
  }

  /** What the second run, and the single one, leave of the exposing stream. */
  lemma CleanOverExposing(env: Env, db: Db, k: nat, cap: nat)
    requires cap > 0
    ensures Run(env, db, [Page(Blanks(k) + TwoNew(), false, false)], cap, Clean()).db.core
         == CoreRun(env, db.core, TwoNew(), cap)
  {
    hide Run, CoreRun, Blanks, TwoNew, Visible;
    var pages := [Page(Blanks(k) + TwoNew(), false, false)];
    NoFaultCleanRun(env, db, pages, cap, Clean());
    CleanRunOnCore(env, db, pages, cap, Clean());
    ExposingPage(k);
    BlanksCostNothing(env, db.core, k, TwoNew(), cap);
  }

  /** Every fault, at whatever attempt and write, spoils some pair of runs. */
  lemma FaultBreaksComposition(first: Schedule, k: nat, v: nat)
    requires first.faults(k) == Some(v) && forall i: nat :: i < k ==> first.faults(i) == None
    ensures !ComposesOn(first, Pair(AllNew(v), Empty(), [Page(Blanks(k) + TwoNew(), false, false)], 1, 1,
                                    Clean(), Clean()))
  {
    var env, pages := AllNew(v), [Page(Blanks(k) + TwoNew(), false, false)];
    hide Run, CoreRun, CoreStep, Blanks, Visible, TwoNew, Empty;
    var db := Run(env, Empty(), pages, 1, first).db;
    StruckRun(first, k, v);
    assert DecidesAmongLeads(env);
    CleanOverExposing(env, db, k, 1);
    CleanOverExposing(env, Empty(), k, 2);
    CleanPair(env);
    if db.core != Empty().core {
      SecondKeepsItsPlace(env);
    }
  }

  lemma SecondKeepsItsPlace(env: Env)
    requires env.provider == "mock" && (forall f, l :: env.decide(f, l) == Unique)
    ensures var core := CoreStep(env, Empty().core, Named("b"));
            var leads := CoreRun(env, core, TwoNew(), 1).leads;
            leads != [] && leads[0].placeId == "b" && "a" != "b"
  {
    NothingKnownYet(env, Named("b"));
    TwoNewAre(env, Empty().core, Named("b"));
    NamesAreTrimmed();
    var core := CoreStep(env, Empty().core, Named("b"));
    hide CoreStep, CoreRun;
    LeadsAreKept(env, core, TwoNew(), 1);
  }

  lemma {:induction false} LeastFault(sched: Schedule, k: nat) returns (least: nat)
    requires sched.faults(k) != None
    ensures sched.faults(least) != None && forall i: nat :: i < least ==> sched.faults(i) == None
    decreases k
  {
    if i: nat :| i < k && sched.faults(i) != None {
      least := LeastFault(sched, i);
    } else {
      least := k;
    }
  }

  /**
   Exactly when runs compose: a first run leaves every database, stream, decision function and pair of caps as one run
   would if and only if its schedule strikes no candidate.
   */
  lemma ComposesIffFaultFree(first: Schedule)
    ensures (forall p: Pair :: ComposesOn(first, p)) <==> NoFaults(first)
  {
    hide ComposesOn, AllNew, Empty, Blanks, TwoNew, Clean;
    if NoFaults(first) {
      forall p: Pair
        ensures ComposesOn(first, p)
      {
        FaultFreeComposes(first, p);
      }
    } else {
      var k: nat :| first.faults(k) != None;
      var least := LeastFault(first, k);
      FaultBreaksComposition(first, least, first.faults(least).value);
    }
  }

  // ---------- a fault can also turn a merge around ----------

  // Two businesses with one phone number: whichever is seen first becomes the lead.
  function NamedFacts(name: string): LeadFacts {
    LeadFacts(Some(name), None, Some("1"), map[])
  }

  function Named(name: string): Candidate {
    Candidate(name, Some(NamedFacts(name)))
  }

  function ByPhone(): Env {
    Env("mock", (f: LeadFacts, leads: seq<Lead>) => if leads == [] then Unique else Duplicate(0, "PHONE_ADDRESS"),
        (f: LeadFacts) => [], "mock")
  }

  function Empty(): Db {
    Db(Core([], [], map[]), map[], [], [])
  }

  function FaultAt(k: int): Schedule {
    Schedule((i: nat) => if i == k then Some(0) else None, (i: nat) => 0)
  }

  lemma {:induction false} LeadsAreKept(env: Env, core: Core, cs: seq<Candidate>, cap: nat)
    ensures core.leads <= CoreRun(env, core, cs, cap).leads
    decreases |cs|
  {
    if cs != [] && cap != 0 {
      LeadsAreKept(env, CoreStep(env, core, cs[0]), cs[1..], if MakesLead(env, core, cs[0]) then cap - 1 else cap);
    }
  }

  lemma FirstSeenBecomesLead(name: string)
    requires name == "a" || name == "b"
    ensures CoreStep(ByPhone(), Empty().core, Named(name)).leads
         == [Lead(name, "mock", Some(NamedFacts(name)), UniqueLead, None)]
    ensures !Known(ByPhone(), Empty().core, Named(name))
  {
    assert Text.Trim("a") == "a" && Text.Trim("b") == "b" && Text.Trim("1") == "1";
  }

  lemma FirstAttemptRollsBack(s: RunState)
    requires s.db == Empty() && s.summary.Attempted() == 0 && s.summary.NewLeads() == 0 && !s.summary.stoppedAtCap
    ensures var t := RunCandidates(ByPhone(), s, [Named("a"), Named("b")], 5, FaultAt(0));
            t.db.core == CoreStep(ByPhone(), Empty().core, Named("b")) && !t.summary.stoppedAtCap
  {
    hide Process, Summary.NewLeads, Summary.NewEntities, Summary.Attempted, CoreStep, Known;
    var cs, sched := [Named("a"), Named("b")], FaultAt(0);
    assert Fails(ByPhone(), s.db.core, cs[0], sched.faults(0));
    var s1 := AttemptOne(ByPhone(), s, cs[0], sched);
    CountEffect(s.summary, Threw);
    AttemptOnCore(ByPhone(), s1, cs[1], sched);
    var s2 := AttemptOne(ByPhone(), s1, cs[1], sched);
    assert cs[1..] == [cs[1]] && cs[1..][1..] == [];
    assert RunCandidates(ByPhone(), s1, cs[1..], 5, sched) == RunCandidates(ByPhone(), s2, [], 5, sched) == s2;
  }

  /** A candidate that throws once is processed after its successors, so a merge can go the other way. */
  lemma ThrowingCandidateBreaksComposition()
    ensures DecidesAmongLeads(ByPhone())
    ensures var pages := [Page([Named("a"), Named("b")], false, false)];
            Run(ByPhone(), Run(ByPhone(), Empty(), pages, 5, FaultAt(0)).db, pages, 5, FaultAt(-1)).db.core
            != Run(ByPhone(), Empty(), pages, 10, FaultAt(-1)).db.core
  {
    hide CoreStep, CoreRun, RunCandidates, Known, Summary.NewLeads, Summary.NewEntities, Summary.Attempted;
    ZeroLeads();
    ZeroAttempted();
    OpenPageAccounts(RunState(Empty(), ZERO), Page([Named("a"), Named("b")], false, false));
    var pages := [Page([Named("a"), Named("b")], false, false)];
    var cs := [Named("a"), Named("b")];
    assert pages[1..] == [] && Visible(pages) == cs;
    var first := Run(ByPhone(), Empty(), pages, 5, FaultAt(0));
    FirstAttemptRollsBack(OpenPage(RunState(Empty(), ZERO), pages[0]));
    assert first.db.core == CoreStep(ByPhone(), Empty().core, Named("b"));
    FirstSeenBecomesLead("a");
    FirstSeenBecomesLead("b");
    NoFaultCleanRun(ByPhone(), first.db, pages, 5, FaultAt(-1));
    CleanRunOnCore(ByPhone(), first.db, pages, 5, FaultAt(-1));
    LeadsAreKept(ByPhone(), first.db.core, cs, 5);
    NoFaultCleanRun(ByPhone(), Empty(), pages, 10, FaultAt(-1));
    CleanRunOnCore(ByPhone(), Empty(), pages, 10, FaultAt(-1));
    FirstOfMany(ByPhone(), Empty().core, cs, 10);
    var twice := Run(ByPhone(), first.db, pages, 5, FaultAt(-1)).db.core;
    var once := Run(ByPhone(), Empty(), pages, 10, FaultAt(-1)).db.core;
    assert twice.leads[0].placeId == "b";
    assert once.leads[0].placeId == "a";
    assert "a"[0] != "b"[0];
  }

  lemma FirstOfMany(env: Env, core: Core, cs: seq<Candidate>, cap: nat)
    requires cs != [] && cap > 0
    ensures CoreStep(env, core, cs[0]).leads <= CoreRun(env, core, cs, cap).leads
  {
    LeadsAreKept(env, CoreStep(env, core, cs[0]), cs[1..], if MakesLead(env, core, cs[0]) then cap - 1 else cap);
  }
}
