/**
 The live cascade of contact resolution (src/cli/commands/contact-resolve-batch.ts): per lead, the
 available providers in order until the first verified contact or error, under run-wide caps; then the
 zero-cost generic fallbacks.
 */
module ContactCascade {
  import opened Wrappers

  datatype Provider = Instantly | Hunter

  datatype Target = Target(leadId: string, nextSteps: seq<Provider>)

  datatype Caps = Caps(maxRequests: nat, maxCredits: nat)

  // One service call: it throws (its spend is then not counted), or answers with what it used. When it
  // verifies a person, the resolution row is written, and that write can itself throw.
  datatype Answer =
    | CallThrows
    | Answered(verified: bool, requests: nat, credits: nat, writeThrows: bool)

  // `fallbackThrows` says whose fallback row cannot be written; the exception then leaves the command.
  datatype Services = Services(available: set<Provider>, call: (string, Provider) -> Answer,
                               fallbackThrows: string -> bool)

  datatype Config = Config(perLead: Caps, total: Caps, stopAfterFirstVerified: bool)

  datatype Resolution = PersonalVerified | GenericOfficial

  // One provider call that was made, in order.
  datatype Made = Made(leadId: string, provider: Provider)

  // ---------- one lead ----------

  datatype LeadRun = LeadRun(requests: nat, credits: nat, called: seq<Provider>,
                             verified: bool, errored: bool, written: bool, overBudget: bool)

  predicate OverBudget(requests: nat, credits: nat, c: Config) {
    requests + c.perLead.maxRequests > c.total.maxRequests || credits + c.perLead.maxCredits > c.total.maxCredits
  }

  function Cascade(leadId: string, steps: seq<Provider>, r: LeadRun, s: Services, c: Config): LeadRun
    decreases |steps|
  {
    if steps == [] then r
    else if OverBudget(r.requests, r.credits, c) then r.(overBudget := true)
    else if steps[0] !in s.available then Cascade(leadId, steps[1..], r, s, c)
    else
      var made := r.(called := r.called + [steps[0]]);
      match s.call(leadId, steps[0])
      case CallThrows => made.(errored := true)
      case Answered(verified, requests, credits, writeThrows) =>
        var spent := made.(requests := r.requests + requests, credits := r.credits + credits);
        if verified then spent.(verified := true, errored := writeThrows, written := !writeThrows)
        else Cascade(leadId, steps[1..], spent, s, c)
  }

  // ---------- the batch ----------

  datatype Batch = Batch(requests: nat, credits: nat, verified: nat, unresolved: nat, errored: nat,
                         made: seq<Made>, resolutions: map<string, Resolution>, stoppedEarly: bool)

  function Calls(leadId: string, providers: seq<Provider>): (r: seq<Made>)
    ensures |r| == |providers|
    ensures forall i :: 0 <= i < |r| ==> r[i] == Made(leadId, providers[i])
  {
    seq(|providers|, i requires 0 <= i < |providers| => Made(leadId, providers[i]))
  }

  function StartLead(b: Batch): LeadRun {
    LeadRun(b.requests, b.credits, [], false, false, false, false)
  }

  /** Count the lead under exactly one label and keep what its calls did. */
  function Settle(b: Batch, leadId: string, r: LeadRun, c: Config): Batch {
    b.(requests := r.requests, credits := r.credits,
       verified := b.verified + (if r.verified then 1 else 0),
       errored := b.errored + (if !r.verified && r.errored then 1 else 0),
       unresolved := b.unresolved + (if !r.verified && !r.errored then 1 else 0),
       made := b.made + Calls(leadId, r.called),
       resolutions := if r.written then b.resolutions[leadId := PersonalVerified] else b.resolutions,
       stoppedEarly := r.overBudget || (r.verified && c.stopAfterFirstVerified))
  }

  function RunBatch(targets: seq<Target>, b: Batch, s: Services, c: Config): Batch
    decreases |targets|
  {
    if targets == [] || b.stoppedEarly then b
    else
      var r := Cascade(targets[0].leadId, targets[0].nextSteps, StartLead(b), s, c);
      if r.overBudget && r.called == [] then b.(stoppedEarly := true)
      else RunBatch(targets[1..], Settle(b, targets[0].leadId, r, c), s, c)
  }

  function Start(resolutions: map<string, Resolution>): Batch {
    Batch(0, 0, 0, 0, 0, [], resolutions, false)
  }

  /** The accepted fallbacks are written last, one row each. */
  function WriteFallbacks(accepted: seq<string>, resolutions: map<string, Resolution>): map<string, Resolution> {
    if accepted == [] then resolutions
    else WriteFallbacks(accepted[..|accepted| - 1], resolutions)[accepted[|accepted| - 1] := GenericOfficial]
  }

  /** The fallbacks written before the first one whose write throws. */
  function Reached(accepted: seq<string>, s: Services): seq<string> {
    if accepted == [] || s.fallbackThrows(accepted[0]) then [] else [accepted[0]] + Reached(accepted[1..], s)
  }

  class ResolutionStore {
    var current: map<string, Resolution>

    constructor ()
      ensures current == map[]
    {
      current := map[];
    }

    method WriteCurrentResolution(leadId: string, resolution: Resolution)
      modifies this
      ensures current == old(current)[leadId := resolution]
    {
      current := current[leadId := resolution];
    }
  }

  method CascadeLead(target: Target, start: Batch, s: Services, c: Config, store: ResolutionStore) returns (r: LeadRun)
    requires store.current == start.resolutions
    modifies store
    ensures r == Cascade(target.leadId, target.nextSteps, StartLead(start), s, c)
    ensures store.current
         == if r.written then start.resolutions[target.leadId := PersonalVerified] else start.resolutions
  {
    r := StartLead(start);
    var i := 0;
    while i < |target.nextSteps|
      invariant 0 <= i <= |target.nextSteps|
      invariant Cascade(target.leadId, target.nextSteps[i..], r, s, c)
             == Cascade(target.leadId, target.nextSteps, StartLead(start), s, c)
      invariant store.current == start.resolutions
      invariant !r.written && !r.verified && !r.errored && !r.overBudget
    {
      if OverBudget(r.requests, r.credits, c) {
        return r.(overBudget := true);
      }
      var provider := target.nextSteps[i];
      assert target.nextSteps[i..][1..] == target.nextSteps[i + 1..];
      i := i + 1;
      if provider !in s.available { continue; }
      r := r.(called := r.called + [provider]);
      match s.call(target.leadId, provider) {
        case CallThrows =>
          return r.(errored := true);
        case Answered(verified, requests, credits, writeThrows) =>
          r := r.(requests := r.requests + requests, credits := r.credits + credits);
          if verified {
            r := r.(verified := true);
            if writeThrows {
              return r.(errored := true);
            }
            store.WriteCurrentResolution(target.leadId, PersonalVerified);
            return r.(written := true);
          }
      }
    }
  }

  /** The live part of contactResolveBatchCommand. */
  method ResolveBatch(targets: seq<Target>, fallbacks: seq<string>, s: Services, c: Config, store: ResolutionStore)
    returns (b: Batch, genericCount: nat, aborted: bool)
    modifies store
    ensures b == RunBatch(targets, Start(old(store.current)), s, c)
    ensures store.current == WriteFallbacks(Reached(fallbacks, s), b.resolutions)
    ensures genericCount == |Reached(fallbacks, s)| && (aborted <==> genericCount < |fallbacks|)
  {
    b := Start(store.current);
    var i := 0;
    while i < |targets| && !b.stoppedEarly
      invariant 0 <= i <= |targets|
      invariant store.current == b.resolutions
      invariant RunBatch(targets[i..], b, s, c) == RunBatch(targets, Start(old(store.current)), s, c)
    {
      var target := targets[i];
      assert targets[i..][1..] == targets[i + 1..];
      var r := CascadeLead(target, b, s, c, store);
      if r.overBudget && r.called == [] {
        CascadeWritesOnlyVerified(target.leadId, target.nextSteps, StartLead(b), s, c);
        b := b.(stoppedEarly := true);
        break;
      }
      b := Settle(b, target.leadId, r, c);
      i := i + 1;
    }
    genericCount, aborted := 0, false;
    assert fallbacks[..0] == [];
    while genericCount < |fallbacks|
      invariant 0 <= genericCount <= |fallbacks|
      invariant Reached(fallbacks, s) == fallbacks[..genericCount] + Reached(fallbacks[genericCount..], s)
      invariant store.current == WriteFallbacks(fallbacks[..genericCount], b.resolutions)
    {
      var k := genericCount;
      assert fallbacks[k..][0] == fallbacks[k] && fallbacks[k..][1..] == fallbacks[k + 1..];
      if s.fallbackThrows(fallbacks[k]) {
        aborted := true;
        assert Reached(fallbacks, s) == fallbacks[..k];
        return;
      }
      store.WriteCurrentResolution(fallbacks[k], GenericOfficial);
      genericCount := genericCount + 1;
      assert fallbacks[..k + 1] == fallbacks[..k] + [fallbacks[k]];
      assert fallbacks[..k + 1][..k] == fallbacks[..k];
    }
    assert Reached(fallbacks, s) == fallbacks[..genericCount];
  }

  lemma {:induction false} CascadeWritesOnlyVerified(leadId: string, steps: seq<Provider>, r: LeadRun, s: Services,
                                                     c: Config)
    requires !r.written && !r.verified && !r.errored && !r.overBudget
    ensures var t := Cascade(leadId, steps, r, s, c);
            (t.written <==> t.verified && !t.errored) && (t.overBudget ==> !t.verified)
    decreases |steps|
  {
    if steps != [] && !OverBudget(r.requests, r.credits, c) {
      if steps[0] !in s.available {
        CascadeWritesOnlyVerified(leadId, steps[1..], r, s, c);
      } else if s.call(leadId, steps[0]).Answered? {
        var a := s.call(leadId, steps[0]);
        var spent := r.(called := r.called + [steps[0]],
                        requests := r.requests + a.requests, credits := r.credits + a.credits);
        if !a.verified { CascadeWritesOnlyVerified(leadId, steps[1..], spent, s, c); }
      }
    }
  }

  // ---------- budget ----------

  /** The visible contract of a service: one call stays within its per-lead caps. */
  ghost predicate WithinPerLead(s: Services, c: Config) {
    forall leadId, p :: CallWithin(s.call(leadId, p), c.perLead)
  }

  predicate CallWithin(a: Answer, caps: Caps) {
    a.Answered? ==> a.requests <= caps.maxRequests && a.credits <= caps.maxCredits
  }

  predicate Affordable(requests: nat, credits: nat, c: Config) {
    requests <= c.total.maxRequests && credits <= c.total.maxCredits
  }

  lemma {:induction false} CascadeAffordable(leadId: string, steps: seq<Provider>, r: LeadRun, s: Services, c: Config)
    requires WithinPerLead(s, c) && Affordable(r.requests, r.credits, c)
    ensures var t := Cascade(leadId, steps, r, s, c);
            Affordable(t.requests, t.credits, c) && r.requests <= t.requests && r.credits <= t.credits
    decreases |steps|
  {
    if steps != [] && !OverBudget(r.requests, r.credits, c) {
      if steps[0] !in s.available {
        CascadeAffordable(leadId, steps[1..], r, s, c);
      } else {
        var a := s.call(leadId, steps[0]);
        assert CallWithin(a, c.perLead);
        if a.Answered? && !a.verified {
          var spent := r.(called := r.called + [steps[0]],
                          requests := r.requests + a.requests, credits := r.credits + a.credits);
          CascadeAffordable(leadId, steps[1..], spent, s, c);
        }
      }
    }
  }

  /** Counted spend never exceeds the run-wide caps, from any affordable state of the batch on. */
  lemma {:induction false} BudgetIsKept(targets: seq<Target>, b: Batch, s: Services, c: Config)
    requires WithinPerLead(s, c) && Affordable(b.requests, b.credits, c)
    ensures var t := RunBatch(targets, b, s, c);
            Affordable(t.requests, t.credits, c) && b.requests <= t.requests && b.credits <= t.credits
    decreases |targets|
  {
    if targets != [] && !b.stoppedEarly {
      var r := Cascade(targets[0].leadId, targets[0].nextSteps, StartLead(b), s, c);
      CascadeAffordable(targets[0].leadId, targets[0].nextSteps, StartLead(b), s, c);
      if !(r.overBudget && r.called == []) {
        BudgetIsKept(targets[1..], Settle(b, targets[0].leadId, r, c), s, c);
      }
    }
  }

  // ---------- order of the calls ----------

  function AvailableSteps(steps: seq<Provider>, available: set<Provider>): seq<Provider> {
    if steps == [] then []
    else (if steps[0] in available then [steps[0]] else []) + AvailableSteps(steps[1..], available)
  }

  /** Does this call end the lead? */
  predicate Ends(leadId: string, p: Provider, s: Services) {
    var a := s.call(leadId, p);
    a.CallThrows? || a.verified
  }

  /** The calls made for a lead, and how they ended. */
  ghost predicate InOrder(leadId: string, mine: seq<Provider>, steps: seq<Provider>, t: LeadRun, s: Services) {
    && mine <= steps
    && (forall i :: 0 <= i < |mine| - 1 ==> !Ends(leadId, mine[i], s))
    && (t.verified || t.errored <==> mine != [] && Ends(leadId, mine[|mine| - 1], s))
    && (t.verified ==> s.call(leadId, mine[|mine| - 1]).Answered?)
    && (!t.verified && !t.errored && !t.overBudget ==> mine == steps)
  }

  lemma {:induction false} CascadeOrder(leadId: string, steps: seq<Provider>, r: LeadRun, s: Services, c: Config)
    returns (mine: seq<Provider>)
    requires !r.overBudget && !r.verified && !r.errored
    ensures var t := Cascade(leadId, steps, r, s, c);
            t.called == r.called + mine && InOrder(leadId, mine, AvailableSteps(steps, s.available), t, s)
    decreases |steps|
  {
    mine := [];
    if steps != [] && !OverBudget(r.requests, r.credits, c) {
      var p := steps[0];
      var rest := AvailableSteps(steps[1..], s.available);
      if p !in s.available {
        assert AvailableSteps(steps, s.available) == rest;
        hide InOrder, AvailableSteps;
        mine := CascadeOrder(leadId, steps[1..], r, s, c);
      } else {
        var a := s.call(leadId, p);
        assert AvailableSteps(steps, s.available) == [p] + rest;
        if a.Answered? && !a.verified {
          var spent := r.(called := r.called + [p],
                          requests := r.requests + a.requests, credits := r.credits + a.credits);
          assert Cascade(leadId, steps, r, s, c) == Cascade(leadId, steps[1..], spent, s, c);
          assert !Ends(leadId, p, s);
          hide InOrder, AvailableSteps, Cascade, Ends;
          var later := CascadeOrder(leadId, steps[1..], spent, s, c);
          mine := [p] + later;
          OneMoreCall(leadId, p, later, rest, Cascade(leadId, steps[1..], spent, s, c), s);
          assert r.called + mine == spent.called + later;
        } else {
          mine := [p];
          hide AvailableSteps;
        }
      }
    }
  }

  lemma OneMoreCall(leadId: string, p: Provider, later: seq<Provider>, rest: seq<Provider>, t: LeadRun, s: Services)
    requires !Ends(leadId, p, s) && InOrder(leadId, later, rest, t, s)
    ensures InOrder(leadId, [p] + later, [p] + rest, t, s)
  {
    var mine := [p] + later;
    forall i | 0 <= i < |mine| - 1
      ensures !Ends(leadId, mine[i], s)
    {
      if i > 0 { assert mine[i] == later[i - 1]; }
    }
    hide Ends;
    assert later != [] ==> mine[|mine| - 1] == later[|later| - 1];
  }

  /** The providers called for a lead are a prefix of its available steps that stops at the first
      verified contact or error; without either, only the budget cuts it short. */
  lemma ProvidersCalled(target: Target, b: Batch, s: Services, c: Config)
    ensures var t := Cascade(target.leadId, target.nextSteps, StartLead(b), s, c);
            InOrder(target.leadId, t.called, AvailableSteps(target.nextSteps, s.available), t, s)
  {
    var mine := CascadeOrder(target.leadId, target.nextSteps, StartLead(b), s, c);
    assert [] + mine == mine;
  }

  // ---------- which leads are touched ----------

  function Touched(b: Batch): nat { b.verified + b.unresolved + b.errored }

  ghost predicate AmongFirst(targets: seq<Target>, n: nat, x: string)
    requires n <= |targets|
  {
    exists k :: 0 <= k < n && targets[k].leadId == x
  }

  /** Every lead before `n` was settled under one label; no lead from `n` on was called. */
  ghost predicate TouchedPrefix(targets: seq<Target>, b: Batch, t: Batch, n: nat) {
    && n <= |targets|
    && Touched(t) == Touched(b) + n
    && b.made <= t.made
    && (forall i :: |b.made| <= i < |t.made| ==> AmongFirst(targets, n, t.made[i].leadId))
    && (!t.stoppedEarly ==> n == |targets|)
  }

  lemma {:induction false} TouchedLeads(targets: seq<Target>, b: Batch, s: Services, c: Config) returns (n: nat)
    ensures TouchedPrefix(targets, b, RunBatch(targets, b, s, c), n)
    decreases |targets|
  {
    n := 0;
    if targets != [] && !b.stoppedEarly {
      var lead := targets[0].leadId;
      var r := Cascade(lead, targets[0].nextSteps, StartLead(b), s, c);
      if !(r.overBudget && r.called == []) {
        var next := Settle(b, lead, r, c);
        var m := TouchedLeads(targets[1..], next, s, c);
        n := m + 1;
        var t := RunBatch(targets[1..], next, s, c);
        assert Touched(next) == Touched(b) + 1;
        forall i | |b.made| <= i < |t.made|
          ensures AmongFirst(targets, n, t.made[i].leadId)
        {
          var x := t.made[i].leadId;
          if i < |next.made| {
            assert t.made[i] == next.made[i] && targets[0].leadId == x;
          } else {
            assert AmongFirst(targets[1..], m, x);
            var k :| 0 <= k < m && targets[1..][k].leadId == x;
            assert targets[k + 1].leadId == x;
          }
        }
      }
    }
  }

  /** Verified, unresolved and errored leads together are exactly a prefix of the selection, and after an
      early stop no later lead has been called. */
  lemma CountsAreAPrefix(targets: seq<Target>, resolutions: map<string, Resolution>, s: Services, c: Config)
    ensures var t := RunBatch(targets, Start(resolutions), s, c);
            TouchedPrefix(targets, Start(resolutions), t, Touched(t))
  {
    var n := TouchedLeads(targets, Start(resolutions), s, c);
    NothingTouched(resolutions);
    hide RunBatch, Touched;
  }

  lemma NothingTouched(resolutions: map<string, Resolution>)
    ensures Touched(Start(resolutions)) == 0
  {
  }

  // ---------- resolution rows ----------

  /** The leads whose resolution row was written, and those whose row was lost to a failing write. */
  function Rows(targets: seq<Target>, b: Batch, s: Services, c: Config, lost: bool): set<string>
    decreases |targets|
  {
    if targets == [] || b.stoppedEarly then {}
    else
      var r := Cascade(targets[0].leadId, targets[0].nextSteps, StartLead(b), s, c);
      if r.overBudget && r.called == [] then {}
      else
        (if r.verified && r.errored == lost then {targets[0].leadId} else {})
        + Rows(targets[1..], Settle(b, targets[0].leadId, r, c), s, c, lost)
  }

  ghost predicate DistinctTargets(targets: seq<Target>) {
    forall i, j :: 0 <= i < j < |targets| ==> targets[i].leadId != targets[j].leadId
  }

  ghost predicate IsTarget(targets: seq<Target>, x: string) {
    exists k :: 0 <= k < |targets| && targets[k].leadId == x
  }

  lemma {:induction false} RowsAreTargets(targets: seq<Target>, b: Batch, s: Services, c: Config, lost: bool)
    ensures forall x :: x in Rows(targets, b, s, c, lost) ==> IsTarget(targets, x)
    decreases |targets|
  {
    if targets != [] && !b.stoppedEarly {
      var lead := targets[0].leadId;
      var r := Cascade(lead, targets[0].nextSteps, StartLead(b), s, c);
      if !(r.overBudget && r.called == []) {
        var next := Settle(b, lead, r, c);
        RowsAreTargets(targets[1..], next, s, c, lost);
        forall x | x in Rows(targets[1..], next, s, c, lost)
          ensures IsTarget(targets, x)
        {
          var k :| 0 <= k < |targets[1..]| && targets[1..][k].leadId == x;
          assert targets[k + 1].leadId == x;
        }
        assert targets[0].leadId == lead && IsTarget(targets, lead);
      }
    }
  }

  function Personal(leads: set<string>): map<string, Resolution> {
    map x | x in leads :: PersonalVerified
  }

  /** The reported verified count is the rows written plus the rows lost; the table gains exactly the rows written. */
  lemma {:induction false} VerifiedRows(targets: seq<Target>, b: Batch, s: Services, c: Config)
    requires DistinctTargets(targets)
    ensures var t := RunBatch(targets, b, s, c);
            && t.verified == b.verified + |Rows(targets, b, s, c, false)| + |Rows(targets, b, s, c, true)|
            && t.resolutions == b.resolutions + Personal(Rows(targets, b, s, c, false))
    decreases |targets|
  {
    if targets != [] && !b.stoppedEarly {
      var lead := targets[0].leadId;
      var r := Cascade(lead, targets[0].nextSteps, StartLead(b), s, c);
      CascadeWritesOnlyVerified(lead, targets[0].nextSteps, StartLead(b), s, c);
      if !(r.overBudget && r.called == []) {
        var next := Settle(b, lead, r, c);
        VerifiedRows(targets[1..], next, s, c);
        RowsAreTargets(targets[1..], next, s, c, false);
        RowsAreTargets(targets[1..], next, s, c, true);
        assert !IsTarget(targets[1..], lead);
        hide Cascade, RunBatch, IsTarget;
        AddRow(lead, Rows(targets[1..], next, s, c, false), b.resolutions);
        AddRow(lead, Rows(targets[1..], next, s, c, true), b.resolutions);
      }
    }
  }

  lemma AddRow(lead: string, rows: set<string>, before: map<string, Resolution>)
    requires lead !in rows
    ensures |{lead} + rows| == |rows| + 1 && {} + rows == rows
    ensures before[lead := PersonalVerified] + Personal(rows) == before + Personal({lead} + rows)
  {
  }

  /** The call verifies a person whose row cannot be written. */
  predicate Loses(leadId: string, p: Provider, s: Services) {
    var a := s.call(leadId, p);
    a.Answered? && a.verified && a.writeThrows
  }

  ghost predicate LosingCall(made: seq<Made>, start: nat, x: string, s: Services) {
    exists i :: start <= i < |made| && made[i].leadId == x && Loses(x, made[i].provider, s)
  }

  lemma {:induction false} CascadeLoses(leadId: string, steps: seq<Provider>, r: LeadRun, s: Services, c: Config)
    requires !r.written && !r.verified && !r.errored && !r.overBudget
    ensures var t := Cascade(leadId, steps, r, s, c);
            && r.called <= t.called
            && (t.verified && t.errored <==> exists i :: |r.called| <= i < |t.called| && Loses(leadId, t.called[i], s))
    decreases |steps|
  {
    if steps != [] && !OverBudget(r.requests, r.credits, c) {
      var p := steps[0];
      if p !in s.available {
        CascadeLoses(leadId, steps[1..], r, s, c);
      } else {
        var a := s.call(leadId, p);
        var t := Cascade(leadId, steps, r, s, c);
        if a.Answered? && !a.verified {
          var spent := r.(called := r.called + [p],
                          requests := r.requests + a.requests, credits := r.credits + a.credits);
          CascadeLoses(leadId, steps[1..], spent, s, c);
          assert t.called[|r.called|] == p && !Loses(leadId, p, s);
        } else {
          assert t.called == r.called + [p] && t.called[|r.called|] == p;
        }
      }
    }
  }

  /** A lead's row was lost exactly when some call made for it verified a person and the write of the row threw. */
  lemma {:induction false} LostRowsAreLosingCalls(targets: seq<Target>, b: Batch, s: Services, c: Config)
    ensures var t := RunBatch(targets, b, s, c);
            && b.made <= t.made
            && forall x :: x in Rows(targets, b, s, c, true) <==> LosingCall(t.made, |b.made|, x, s)
    decreases |targets|
  {
    if targets != [] && !b.stoppedEarly {
      var lead := targets[0].leadId;
      var r := Cascade(lead, targets[0].nextSteps, StartLead(b), s, c);
      if !(r.overBudget && r.called == []) {
        var next := Settle(b, lead, r, c);
        var t := RunBatch(targets, b, s, c);
        CascadeLoses(lead, targets[0].nextSteps, StartLead(b), s, c);
        LostRowsAreLosingCalls(targets[1..], next, s, c);
        hide Cascade, Loses;
        assert t == RunBatch(targets[1..], next, s, c) && next.made == b.made + Calls(lead, r.called);
        forall x
          ensures x in Rows(targets, b, s, c, true) <==> LosingCall(t.made, |b.made|, x, s)
        {
          LosingCallSplits(t.made, b.made, lead, r.called, x, s);
        }
      }
    }
  }

  lemma LosingCallSplits(made: seq<Made>, before: seq<Made>, lead: string, called: seq<Provider>, x: string,
                         s: Services)
    requires before + Calls(lead, called) <= made
    ensures LosingCall(made, |before|, x, s)
       <==> (x == lead && exists i :: 0 <= i < |called| && Loses(lead, called[i], s))
            || LosingCall(made, |before| + |called|, x, s)
  {
    hide Loses;
    forall i | 0 <= i < |called|
      ensures made[|before| + i] == Made(lead, called[i])
    {
      assert made[|before| + i] == (before + Calls(lead, called))[|before| + i];
    }
    if i :| |before| <= i < |made| && made[i].leadId == x && Loses(x, made[i].provider, s) {
      if i < |before| + |called| { assert called[i - |before|] == made[i].provider; }
    }
    if i :| 0 <= i < |called| && Loses(lead, called[i], s) {
      assert made[|before| + i].provider == called[i];
    }
  }

  /**
   With distinct leads the verified count equals the rows written exactly when no call made verified a person whose row
   could not be written.
   */
  lemma VerifiedMeansWritten(targets: seq<Target>, before: map<string, Resolution>, s: Services, c: Config)
    requires DistinctTargets(targets)
    ensures var t := RunBatch(targets, Start(before), s, c);
            t.verified == |Rows(targets, Start(before), s, c, false)| <==> forall x :: !LosingCall(t.made, 0, x, s)
  {
    VerifiedRows(targets, Start(before), s, c);
    LostRowsAreLosingCalls(targets, Start(before), s, c);
    hide RunBatch, Rows, LosingCall;
    var lost := Rows(targets, Start(before), s, c, true);
    if lost != {} {
      var x :| x in lost;
    }
  }

  /** One verified person, counted, and no row: the write threw after the flag was set. */
  lemma LostRowIsCounted()
    ensures var s := Services({Instantly}, (l: string, p: Provider) => Answered(true, 1, 1, true),
                              (l: string) => false);
            var c := Config(Caps(1, 1), Caps(9, 9), false);
            var t := RunBatch([Target("lead", [Instantly])], Start(map[]), s, c);
            t.verified == 1 && t.resolutions == map[] && LosingCall(t.made, 0, "lead", s)
  {
    var s := Services({Instantly}, (l: string, p: Provider) => Answered(true, 1, 1, true), (l: string) => false);
    var c := Config(Caps(1, 1), Caps(9, 9), false);
    var b := Start(map[]);
    var targets := [Target("lead", [Instantly])];
    var r := Cascade("lead", [Instantly], StartLead(b), s, c);
    assert r.called == [] + [Instantly] == [Instantly] && r.verified && r.errored && !r.written;
    var t := RunBatch(targets, b, s, c);
    assert targets[1..] == [];
    assert t == Settle(b, "lead", r, c);
    assert t.made == Calls("lead", [Instantly]) && t.made[0] == Made("lead", Instantly);
    assert Loses("lead", Instantly, s);
  }

  lemma {:induction false} FallbackRows(accepted: seq<string>, before: map<string, Resolution>)
    ensures var after := WriteFallbacks(accepted, before);
            && after.Keys == before.Keys + (set x | x in accepted)
            && (forall x :: x in accepted ==> after[x] == GenericOfficial)
            && (forall x :: x in before && x !in accepted ==> after[x] == before[x])
    decreases |accepted|
  {
    if accepted != [] {
      var n := |accepted| - 1;
      FallbackRows(accepted[..n], before);
      assert accepted == accepted[..n] + [accepted[n]];
    }
  }

  lemma {:induction false} ReachedPrefix(accepted: seq<string>, s: Services)
    ensures Reached(accepted, s) <= accepted
    ensures forall x :: x in Reached(accepted, s) ==> !s.fallbackThrows(x)
    ensures var k := |Reached(accepted, s)|; k < |accepted| ==> s.fallbackThrows(accepted[k])
    ensures Reached(accepted, s) == accepted <==> forall x :: x in accepted ==> !s.fallbackThrows(x)
    decreases |accepted|
  {
    if accepted != [] {
      ReachedPrefix(accepted[1..], s);
      assert accepted == [accepted[0]] + accepted[1..];
    }
  }

  lemma ReachedInOrder(accepted: seq<string>, s: Services)
    ensures var k := |Reached(accepted, s)|;
            && k <= |accepted| && Reached(accepted, s) == accepted[..k]
            && (forall i :: 0 <= i < k ==> !s.fallbackThrows(accepted[i]))
  {
    ReachedPrefix(accepted, s);
    var reached := Reached(accepted, s);
    hide Reached;
    assert forall i :: 0 <= i < |reached| ==> accepted[i] == reached[i] && reached[i] in reached;
  }

  /** A fallback lead had no resolution before the run and is not selected by it, so the generic inbox
      never replaces a resolution, in particular not one this run verified, and wherever a throwing write ends the
      command, exactly the fallbacks before it are resolved. */
  lemma FallbackReplacesNothing(targets: seq<Target>, fallbacks: seq<string>, before: map<string, Resolution>,
                                s: Services, c: Config)
    requires DistinctTargets(targets)
    requires forall x :: x in fallbacks ==> x !in before && !IsTarget(targets, x)
    ensures var t := RunBatch(targets, Start(before), s, c);
            var after := WriteFallbacks(Reached(fallbacks, s), t.resolutions);
            var k := |Reached(fallbacks, s)|;
            && k <= |fallbacks| && Reached(fallbacks, s) == fallbacks[..k]
            && (forall i :: 0 <= i < k ==> !s.fallbackThrows(fallbacks[i]))
            && (k < |fallbacks| ==> s.fallbackThrows(fallbacks[k]))
            && (forall x :: x in t.resolutions ==> x in after && after[x] == t.resolutions[x])
            && (forall x :: x in fallbacks ==> (x in after <==> x in Reached(fallbacks, s)))
            && (forall x :: x in Reached(fallbacks, s) ==> x in after && after[x] == GenericOfficial)
  {
    VerifiedRows(targets, Start(before), s, c);
    RowsAreTargets(targets, Start(before), s, c, false);
    ReachedPrefix(fallbacks, s);
    ReachedInOrder(fallbacks, s);
    FallbackRows(Reached(fallbacks, s), RunBatch(targets, Start(before), s, c).resolutions);
    hide RunBatch, Rows, WriteFallbacks, IsTarget, Reached;
  }
}
