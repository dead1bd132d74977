/**
 When a batch of contact resolution stops (src/cli/commands/contact-resolve-batch.ts), told from the steps it would
 consider with endless means: which of them it gets to, what they add up to, and why it goes no further.
 */
module ContactCascadeStops {
  import opened Wrappers
  import opened ContactCascade

  // ---------- the steps, without budgets ----------

  predicate Asked(x: Made, s: Services) {
    x.provider in s.available
  }

  predicate Verifies(x: Made, s: Services) {
    Asked(x, s) && s.call(x.leadId, x.provider).Answered? && s.call(x.leadId, x.provider).verified
  }

  predicate Throws(x: Made, s: Services) {
    Asked(x, s) && s.call(x.leadId, x.provider).CallThrows?
  }

  /** A lead's steps up to the one that verifies a contact or throws. */
  function LeadPath(leadId: string, steps: seq<Provider>, s: Services): seq<Made> {
    if steps == [] then []
    else
      var x := Made(leadId, steps[0]);
      if Verifies(x, s) || Throws(x, s) then [x] else [x] + LeadPath(leadId, steps[1..], s)
  }

  function Path(targets: seq<Target>, s: Services): seq<Made> {
    if targets == [] then []
    else LeadPath(targets[0].leadId, targets[0].nextSteps, s) + Path(targets[1..], s)
  }

  function Requests(xs: seq<Made>, s: Services): nat {
    if xs == [] then 0
    else
      var x := xs[0];
      var a := s.call(x.leadId, x.provider);
      (if Asked(x, s) && a.Answered? then a.requests else 0) + Requests(xs[1..], s)
  }

  function Credits(xs: seq<Made>, s: Services): nat {
    if xs == [] then 0
    else
      var x := xs[0];
      var a := s.call(x.leadId, x.provider);
      (if Asked(x, s) && a.Answered? then a.credits else 0) + Credits(xs[1..], s)
  }

  function Asks(xs: seq<Made>, s: Services): seq<Made> {
    if xs == [] then [] else (if Asked(xs[0], s) then [xs[0]] else []) + Asks(xs[1..], s)
  }

  function CountVerifies(xs: seq<Made>, s: Services): nat {
    if xs == [] then 0 else (if Verifies(xs[0], s) then 1 else 0) + CountVerifies(xs[1..], s)
  }

  function CountThrows(xs: seq<Made>, s: Services): nat {
    if xs == [] then 0 else (if Throws(xs[0], s) then 1 else 0) + CountThrows(xs[1..], s)
  }

  lemma {:induction false} SumsJoin(xs: seq<Made>, ys: seq<Made>, s: Services)
    ensures Requests(xs + ys, s) == Requests(xs, s) + Requests(ys, s)
    ensures Credits(xs + ys, s) == Credits(xs, s) + Credits(ys, s)
    ensures Asks(xs + ys, s) == Asks(xs, s) + Asks(ys, s)
    ensures CountVerifies(xs + ys, s) == CountVerifies(xs, s) + CountVerifies(ys, s)
    ensures CountThrows(xs + ys, s) == CountThrows(xs, s) + CountThrows(ys, s)
    decreases |xs|
  {
    if xs == [] {
      assert xs + ys == ys;
    } else {
      assert (xs + ys)[1..] == xs[1..] + ys;
      SumsJoin(xs[1..], ys, s);
      hide Asked, Verifies, Throws;
    }
  }

  lemma SumsOfOne(x: Made, s: Services)
    ensures var a := s.call(x.leadId, x.provider);
            && Requests([x], s) == (if Asked(x, s) && a.Answered? then a.requests else 0)
            && Credits([x], s) == (if Asked(x, s) && a.Answered? then a.credits else 0)
            && Asks([x], s) == (if Asked(x, s) then [x] else [])
            && CountVerifies([x], s) == (if Verifies(x, s) then 1 else 0)
            && CountThrows([x], s) == (if Throws(x, s) then 1 else 0)
  {
    hide Asked, Verifies, Throws;
    assert [x][1..] == [];
  }

  lemma SumsOfNone(s: Services)
    ensures Requests([], s) == 0 && Credits([], s) == 0 && Asks([], s) == []
    ensures CountVerifies([], s) == 0 && CountThrows([], s) == 0
  {
  }

  lemma {:induction false} NothingAsked(xs: seq<Made>, s: Services)
    requires Asks(xs, s) == []
    ensures Requests(xs, s) == 0 && Credits(xs, s) == 0 && CountVerifies(xs, s) == 0 && CountThrows(xs, s) == 0
  {
    if xs != [] { NothingAsked(xs[1..], s); }
  }

  lemma {:induction false} NoneVerifies(xs: seq<Made>, s: Services)
    requires CountVerifies(xs, s) == 0
    ensures forall i :: 0 <= i < |xs| ==> !Verifies(xs[i], s)
  {
    if xs != [] {
      hide Verifies;
      NoneVerifies(xs[1..], s);
      assert forall i :: 0 < i < |xs| ==> xs[i] == xs[1..][i - 1];
    }
  }

  /** No room is left for one more call at its caps. */
  predicate NoRoom(requests: nat, credits: nat, c: Config) {
    requests + c.perLead.maxRequests > c.total.maxRequests || credits + c.perLead.maxCredits > c.total.maxCredits
  }

  // ---------- one lead ----------

  /** The lead got through the first j steps of its path, each with room for it, and then no further. */
  ghost predicate LeadGot(leadId: string, path: seq<Made>, j: nat, r: LeadRun, t: LeadRun, s: Services, c: Config) {
    && j <= |path|
    && Calls(leadId, t.called) == Calls(leadId, r.called) + Asks(path[..j], s)
    && t.requests == r.requests + Requests(path[..j], s) && t.credits == r.credits + Credits(path[..j], s)
    && (forall i :: 0 <= i < j ==>
          !NoRoom(r.requests + Requests(path[..i], s), r.credits + Credits(path[..i], s), c))
    && (t.overBudget <==> j < |path|) && (j < |path| ==> NoRoom(t.requests, t.credits, c))
    && CountVerifies(path[..j], s) == (if t.verified then 1 else 0)
    && CountThrows(path[..j], s) == (if t.errored && !t.verified then 1 else 0)
    && (t.verified ==> 0 < j == |path| && Verifies(path[j - 1], s))
  }

  lemma LeadGotOneMore(leadId: string, x: Made, rest: seq<Made>, j: nat, r: LeadRun, m: LeadRun, t: LeadRun,
                       s: Services, c: Config)
    requires LeadGot(leadId, rest, j, m, t, s, c) && !NoRoom(r.requests, r.credits, c)
    requires !Verifies(x, s) && !Throws(x, s)
    requires Calls(leadId, m.called) == Calls(leadId, r.called) + Asks([x], s)
    requires m.requests == r.requests + Requests([x], s) && m.credits == r.credits + Credits([x], s)
    ensures LeadGot(leadId, [x] + rest, j + 1, r, t, s, c)
  {
    var path := [x] + rest;
    SumsOfOne(x, s);
    hide Verifies, Throws, Asked, NoRoom, Calls, Requests, Credits, Asks, CountVerifies, CountThrows;
    forall i | 0 <= i <= j
      ensures path[..i + 1] == [x] + rest[..i]
      ensures Requests(path[..i + 1], s) == Requests([x], s) + Requests(rest[..i], s)
      ensures Credits(path[..i + 1], s) == Credits([x], s) + Credits(rest[..i], s)
    {
      assert path[..i + 1] == [x] + rest[..i];
      SumsJoin([x], rest[..i], s);
    }
    SumsJoin([x], rest[..j], s);
    SumsOfNone(s);
    forall i | 0 <= i < j + 1
      ensures !NoRoom(r.requests + Requests(path[..i], s), r.credits + Credits(path[..i], s), c)
    {
      if i == 0 {
        assert path[..0] == [];
      } else {
        assert path[..i - 1 + 1] == path[..i];
        assert !NoRoom(m.requests + Requests(rest[..i - 1], s), m.credits + Credits(rest[..i - 1], s), c);
      }
    }
  }

  lemma LeadGotNothing(leadId: string, path: seq<Made>, r: LeadRun, s: Services, c: Config)
    requires !r.verified && !r.errored && !r.overBudget
    ensures path == [] ==> LeadGot(leadId, path, 0, r, r, s, c)
    ensures path != [] && NoRoom(r.requests, r.credits, c) ==>
              LeadGot(leadId, path, 0, r, r.(overBudget := true), s, c)
  {
    assert path[..0] == [];
    hide NoRoom, Verifies;
    assert Calls(leadId, r.called) + [] == Calls(leadId, r.called);
  }

  lemma LeadGotTheEnd(leadId: string, x: Made, r: LeadRun, t: LeadRun, s: Services, c: Config)
    requires !NoRoom(r.requests, r.credits, c) && Asked(x, s) && x.leadId == leadId && !t.overBudget
    requires t.called == r.called + [x.provider]
    requires t.requests == r.requests + Requests([x], s) && t.credits == r.credits + Credits([x], s)
    requires t.verified == Verifies(x, s) && (Throws(x, s) <==> t.errored && !t.verified)
    ensures LeadGot(leadId, [x], 1, r, t, s, c)
  {
    hide Verifies, Throws, Asked, NoRoom;
    assert [x][..1] == [x] && [x][..0] == [];
    SumsOfOne(x, s);
    assert Calls(leadId, t.called) == Calls(leadId, r.called) + [x];
  }

  lemma {:induction false} CascadeGot(leadId: string, steps: seq<Provider>, r: LeadRun, s: Services, c: Config)
    returns (j: nat)
    requires !r.verified && !r.errored && !r.overBudget
    ensures LeadGot(leadId, LeadPath(leadId, steps, s), j, r, Cascade(leadId, steps, r, s, c), s, c)
    decreases |steps|
  {
    hide LeadGot, Requests, Credits, Asks;
    j := 0;
    LeadGotNothing(leadId, LeadPath(leadId, steps, s), r, s, c);
    if steps != [] && !NoRoom(r.requests, r.credits, c) {
      var x, t := Made(leadId, steps[0]), Cascade(leadId, steps, r, s, c);
      SumsOfOne(x, s);
      if Verifies(x, s) || Throws(x, s) {
        LeadGotTheEnd(leadId, x, r, t, s, c);
        j := 1;
      } else {
        var a := s.call(leadId, steps[0]);
        var m := if !Asked(x, s) then r
                 else r.(called := r.called + [steps[0]],
                         requests := r.requests + a.requests, credits := r.credits + a.credits);
        assert t == Cascade(leadId, steps[1..], m, s, c);
        assert Calls(leadId, m.called) == Calls(leadId, r.called) + Asks([x], s);
        var rest := CascadeGot(leadId, steps[1..], m, s, c);
        LeadGotOneMore(leadId, x, LeadPath(leadId, steps[1..], s), rest, r, m, t, s, c);
        j := rest + 1;
      }
    }
  }

  // ---------- the batch ----------

  predicate Stopped(path: seq<Made>, k: nat, b: Batch, s: Services, c: Config)
    requires k <= |path|
  {
    || (k < |path| && NoRoom(b.requests + Requests(path[..k], s), b.credits + Credits(path[..k], s), c))
    || (c.stopAfterFirstVerified && k > 0 && Verifies(path[k - 1], s))
  }

  ghost predicate Tallied(xs: seq<Made>, b: Batch, t: Batch, s: Services) {
    && t.made == b.made + Asks(xs, s)
    && t.requests == b.requests + Requests(xs, s) && t.credits == b.credits + Credits(xs, s)
    && t.verified == b.verified + CountVerifies(xs, s) && t.errored == b.errored + CountThrows(xs, s)
  }

  /** Each of the first k steps had room, and with the flag only the last of them verified. */
  ghost predicate HadRoom(path: seq<Made>, k: nat, b: Batch, s: Services, c: Config)
    requires k <= |path|
  {
    && (forall i :: 0 <= i < k ==>
          !NoRoom(b.requests + Requests(path[..i], s), b.credits + Credits(path[..i], s), c))
    && (c.stopAfterFirstVerified ==> forall i :: 0 <= i < k - 1 ==> !Verifies(path[i], s))
  }

  /** From b on, the batch got through the first k steps of the path, each with room for it, and then no further. */
  ghost predicate BatchGot(path: seq<Made>, k: nat, b: Batch, t: Batch, s: Services, c: Config) {
    && k <= |path| && Tallied(path[..k], b, t, s) && HadRoom(path, k, b, s, c)
    && (t.stoppedEarly <==> Stopped(path, k, b, s, c))
    && (!t.stoppedEarly ==> k == |path|)
  }

  /** A batch that ends with its first lead, whose run is r. */
  lemma EndsWithLead(p1: seq<Made>, p2: seq<Made>, j: nat, lead: string, r: LeadRun, b: Batch, t: Batch, s: Services,
                     c: Config)
    requires LeadGot(lead, p1, j, StartLead(b), r, s, c) && t.stoppedEarly
    requires if r.overBudget && r.called == [] then t == b.(stoppedEarly := true) else t == Settle(b, lead, r, c)
    ensures BatchGot(p1 + p2, j, b, t, s, c)
  {
    var path := p1 + p2;
    SumsOfNone(s);
    assert path[..j] == p1[..j] && Calls(lead, StartLead(b).called) == [];
    hide Verifies, Throws, Asked, NoRoom, Requests, Credits, Asks, CountVerifies, CountThrows;
    if r.overBudget && r.called == [] {
      assert Asks(p1[..j], s) == [];
      NothingAsked(p1[..j], s);
    }
    forall i | 0 <= i < j
      ensures !NoRoom(b.requests + Requests(path[..i], s), b.credits + Credits(path[..i], s), c)
    {
      assert path[..i] == p1[..i];
    }
    forall i | 0 <= i < j - 1
      ensures !Verifies(path[i], s)
    {
      OnlyTheLast(p1[..j], r.verified, s);
      assert path[i] == p1[..j][i];
    }
  }

  /** When at most one step verifies and, if so, the last, the others do not. */
  lemma OnlyTheLast(xs: seq<Made>, last: bool, s: Services)
    requires CountVerifies(xs, s) == (if last then 1 else 0) && (last ==> xs != [] && Verifies(xs[|xs| - 1], s))
    ensures forall i :: 0 <= i < |xs| - 1 ==> !Verifies(xs[i], s)
  {
    hide Verifies, CountVerifies;
    if last {
      var front := xs[..|xs| - 1];
      assert xs == front + [xs[|xs| - 1]];
      SumsJoin(front, [xs[|xs| - 1]], s);
      SumsOfOne(xs[|xs| - 1], s);
      NoneVerifies(front, s);
      assert forall i :: 0 <= i < |xs| - 1 ==> front[i] == xs[i];
    } else {
      NoneVerifies(xs, s);
    }
  }

  lemma SumsAfter(p1: seq<Made>, p2: seq<Made>, i: nat, s: Services)
    requires i <= |p2|
    ensures var to := (p1 + p2)[..|p1| + i];
            && Requests(to, s) == Requests(p1, s) + Requests(p2[..i], s)
            && Credits(to, s) == Credits(p1, s) + Credits(p2[..i], s)
            && Asks(to, s) == Asks(p1, s) + Asks(p2[..i], s)
            && CountVerifies(to, s) == CountVerifies(p1, s) + CountVerifies(p2[..i], s)
            && CountThrows(to, s) == CountThrows(p1, s) + CountThrows(p2[..i], s)
  {
    assert (p1 + p2)[..|p1| + i] == p1 + p2[..i];
    SumsJoin(p1, p2[..i], s);
  }

  lemma GoesOnWithRoom(p1: seq<Made>, p2: seq<Made>, k: nat, lead: string, r: LeadRun, b: Batch, m: Batch, t: Batch,
                       s: Services, c: Config, i: nat)
    requires LeadGot(lead, p1, |p1|, StartLead(b), r, s, c) && m == Settle(b, lead, r, c)
    requires BatchGot(p2, k, m, t, s, c) && i < |p1| + k
    ensures !NoRoom(b.requests + Requests((p1 + p2)[..i], s), b.credits + Credits((p1 + p2)[..i], s), c)
  {
    var n := |p1|;
    hide Verifies, NoRoom, Requests, Credits, Asks, CountVerifies, CountThrows, Calls;
    if i < n {
      assert (p1 + p2)[..i] == p1[..i];
    } else {
      SumsAfter(p1, p2, i - n, s);
      assert p1[..n] == p1;
      assert !NoRoom(m.requests + Requests(p2[..i - n], s), m.credits + Credits(p2[..i - n], s), c);
    }
  }

  lemma GoesOnUnverified(p1: seq<Made>, p2: seq<Made>, k: nat, lead: string, r: LeadRun, b: Batch, m: Batch, t: Batch,
                         s: Services, c: Config, i: nat)
    requires LeadGot(lead, p1, |p1|, StartLead(b), r, s, c) && m == Settle(b, lead, r, c) && !m.stoppedEarly
    requires BatchGot(p2, k, m, t, s, c) && i < |p1| + k - 1 && c.stopAfterFirstVerified
    ensures !Verifies((p1 + p2)[i], s)
  {
    var n := |p1|;
    hide Verifies, NoRoom, Requests, Credits, Asks, CountVerifies, CountThrows, Calls;
    if i < n {
      assert p1[..n] == p1;
      NoneVerifies(p1, s);
      assert (p1 + p2)[i] == p1[i];
    } else {
      assert (p1 + p2)[i] == p2[i - n];
    }
  }

  lemma GoesOnTallied(p1: seq<Made>, p2: seq<Made>, k: nat, lead: string, r: LeadRun, b: Batch, m: Batch, t: Batch,
                      s: Services, c: Config)
    requires LeadGot(lead, p1, |p1|, StartLead(b), r, s, c) && m == Settle(b, lead, r, c)
    requires k <= |p2| && Tallied(p2[..k], m, t, s)
    ensures Tallied((p1 + p2)[..|p1| + k], b, t, s)
  {
    assert p1[..|p1|] == p1;
    assert Calls(lead, StartLead(b).called) == [];
    hide NoRoom, Verifies, Requests, Credits, Asks, CountVerifies, CountThrows, Calls;
    SumsAfter(p1, p2, k, s);
  }

  lemma GoesOnStopped(p1: seq<Made>, p2: seq<Made>, k: nat, lead: string, r: LeadRun, b: Batch, m: Batch, s: Services,
                      c: Config)
    requires LeadGot(lead, p1, |p1|, StartLead(b), r, s, c) && m == Settle(b, lead, r, c) && !m.stoppedEarly
    requires k <= |p2|
    ensures Stopped(p1 + p2, |p1| + k, b, s, c) <==> Stopped(p2, k, m, s, c)
  {
    var path, n := p1 + p2, |p1|;
    assert p1[..n] == p1;
    hide NoRoom, Verifies, Requests, Credits, Asks, CountVerifies, CountThrows, Calls;
    SumsAfter(p1, p2, k, s);
    if c.stopAfterFirstVerified { NoneVerifies(p1, s); }
    assert n + k > 0 ==> path[n + k - 1] == if k > 0 then p2[k - 1] else p1[n - 1];
  }

  lemma GoesOn(p1: seq<Made>, p2: seq<Made>, k: nat, lead: string, r: LeadRun, b: Batch, m: Batch, t: Batch,
               s: Services,
               c: Config)
    requires LeadGot(lead, p1, |p1|, StartLead(b), r, s, c) && m == Settle(b, lead, r, c) && !m.stoppedEarly
    requires BatchGot(p2, k, m, t, s, c)
    ensures BatchGot(p1 + p2, |p1| + k, b, t, s, c)
  {
    var path, n := p1 + p2, |p1|;
    hide LeadGot, Settle, Tallied, Stopped, NoRoom, Verifies;
    forall i: nat | i < n + k
      ensures !NoRoom(b.requests + Requests(path[..i], s), b.credits + Credits(path[..i], s), c)
    {
      GoesOnWithRoom(p1, p2, k, lead, r, b, m, t, s, c, i);
    }
    forall i: nat | i < n + k - 1 && c.stopAfterFirstVerified
      ensures !Verifies(path[i], s)
    {
      GoesOnUnverified(p1, p2, k, lead, r, b, m, t, s, c, i);
    }
    GoesOnTallied(p1, p2, k, lead, r, b, m, t, s, c);
    GoesOnStopped(p1, p2, k, lead, r, b, m, s, c);
  }

  /**
   The leads that get a label when the batch got through k steps: all those it passed, and one cut short by the budget
   only if some provider was asked for it.
   */
  function Labelled(targets: seq<Target>, k: nat, s: Services, c: Config): nat {
    if targets == [] then 0
    else
      var path := LeadPath(targets[0].leadId, targets[0].nextSteps, s);
      if k < |path| then (if Asks(path[..k], s) == [] then 0 else 1)
      else if c.stopAfterFirstVerified && k == |path| > 0 && Verifies(path[k - 1], s) then 1
      else 1 + Labelled(targets[1..], k - |path|, s, c)
  }

  lemma LabelledHere(targets: seq<Target>, j: nat, r: LeadRun, b: Batch, t: Batch, s: Services, c: Config)
    requires targets != [] && t.stoppedEarly
    requires var lead := targets[0].leadId;
             && LeadGot(lead, LeadPath(lead, targets[0].nextSteps, s), j, StartLead(b), r, s, c)
             && if r.overBudget && r.called == [] then t == b.(stoppedEarly := true) else t == Settle(b, lead, r, c)
    ensures Touched(t) == Touched(b) + Labelled(targets, j, s, c)
  {
    var lead := targets[0].leadId;
    assert Calls(lead, StartLead(b).called) == [];
    hide LeadPath, Verifies, Throws, Asks, NoRoom, Requests, Credits, CountVerifies, CountThrows;
  }

  lemma LabelledOn(targets: seq<Target>, k: nat, r: LeadRun, b: Batch, m: Batch, s: Services, c: Config)
    requires targets != []
    requires var lead := targets[0].leadId;
             var path := LeadPath(lead, targets[0].nextSteps, s);
             && LeadGot(lead, path, |path|, StartLead(b), r, s, c) && m == Settle(b, lead, r, c) && !m.stoppedEarly
    ensures var path := LeadPath(targets[0].leadId, targets[0].nextSteps, s);
            && Touched(m) == Touched(b) + 1
            && Labelled(targets, |path| + k, s, c) == 1 + Labelled(targets[1..], k, s, c)
  {
    var path := LeadPath(targets[0].leadId, targets[0].nextSteps, s);
    assert path[..|path|] == path;
    hide LeadPath, Verifies, Throws, Asks, NoRoom, Requests, Credits, CountVerifies, CountThrows;
    if c.stopAfterFirstVerified { NoneVerifies(path, s); }
  }

  lemma NoLeads(b: Batch, s: Services, c: Config)
    requires !b.stoppedEarly
    ensures BatchGot([], 0, b, b, s, c)
  {
    assert b.made + [] == b.made;
  }

  lemma {:induction false} BatchDidGet(targets: seq<Target>, b: Batch, s: Services, c: Config) returns (k: nat)
    requires !b.stoppedEarly
    ensures BatchGot(Path(targets, s), k, b, RunBatch(targets, b, s, c), s, c)
    ensures Touched(RunBatch(targets, b, s, c)) == Touched(b) + Labelled(targets, k, s, c)
    decreases |targets|
  {
    hide BatchGot, LeadGot, LeadPath, Cascade, Touched, Labelled;
    if targets == [] {
      k := 0;
      NoLeads(b, s, c);
      assert Labelled([], 0, s, c) == 0 by { NoLabels(s, c); }
    } else {
      var lead, steps := targets[0].leadId, targets[0].nextSteps;
      var p1, p2 := LeadPath(lead, steps, s), Path(targets[1..], s);
      var r, t := Cascade(lead, steps, StartLead(b), s, c), RunBatch(targets, b, s, c);
      var j := CascadeGot(lead, steps, StartLead(b), s, c);
      var m := Settle(b, lead, r, c);
      if (r.overBudget && r.called == []) || m.stoppedEarly {
        k := j;
        assert (r.overBudget && r.called == []) || t == RunBatch(targets[1..], m, s, c) == m;
        EndsWithLead(p1, p2, j, lead, r, b, t, s, c);
        LabelledHere(targets, j, r, b, t, s, c);
      } else {
        var rest := BatchDidGet(targets[1..], m, s, c);
        assert j == |p1| by { WholePath(lead, p1, j, StartLead(b), r, s, c); }
        GoesOn(p1, p2, rest, lead, r, b, m, t, s, c);
        LabelledOn(targets, rest, r, b, m, s, c);
        k := |p1| + rest;
      }
    }
  }

  lemma NoLabels(s: Services, c: Config)
    ensures Labelled([], 0, s, c) == 0
  {
  }

  lemma WholePath(lead: string, path: seq<Made>, j: nat, r: LeadRun, t: LeadRun, s: Services, c: Config)
    requires LeadGot(lead, path, j, r, t, s, c) && !t.overBudget
    ensures j == |path|
  {
  }

  /**
   Exactly how far a batch goes: through the longest prefix of its steps in which each had room for one more call at
   its caps and, with --stop-after-first-verified, nothing before the last verified a contact. What was called, spent,
   verified and failed is read off that prefix, as is the number of leads labelled, and the run counts as stopped
   early if and only if the next step had no room or the flag is set and the last step verified.
   */
  lemma HowFarABatchGoes(targets: seq<Target>, before: map<string, Resolution>, s: Services, c: Config) returns (k: nat)
    ensures var path, t := Path(targets, s), RunBatch(targets, Start(before), s, c);
            && k <= |path|
            && t.made == Asks(path[..k], s)
            && t.requests == Requests(path[..k], s) && t.credits == Credits(path[..k], s)
            && t.verified == CountVerifies(path[..k], s) && t.errored == CountThrows(path[..k], s)
            && (forall i :: 0 <= i < k ==> !NoRoom(Requests(path[..i], s), Credits(path[..i], s), c))
            && (c.stopAfterFirstVerified ==> forall i :: 0 <= i < k - 1 ==> !Verifies(path[i], s))
            && (t.stoppedEarly
                <==> || (k < |path| && NoRoom(t.requests, t.credits, c))
                     || (c.stopAfterFirstVerified && k > 0 && Verifies(path[k - 1], s)))
            && (!t.stoppedEarly ==> k == |path|)
            && t.verified + t.errored + t.unresolved == Labelled(targets, k, s, c)
  {
    k := BatchDidGet(targets, Start(before), s, c);
    var path, t := Path(targets, s), RunBatch(targets, Start(before), s, c);
    hide RunBatch, Path, Requests, Credits, Asks, CountVerifies, CountThrows, NoRoom, Verifies, Labelled;
    assert [] + Asks(path[..k], s) == Asks(path[..k], s);
  }

  /** With the flag set at most one lead is verified, by the very last call, and the run stops there. */
  lemma FirstVerifiedIsTheLast(targets: seq<Target>, before: map<string, Resolution>, s: Services, c: Config)
    requires c.stopAfterFirstVerified
    ensures var t := RunBatch(targets, Start(before), s, c);
            && t.verified <= 1
            && (t.verified == 1 ==> t.stoppedEarly && t.made != [] && Verifies(t.made[|t.made| - 1], s))
            && forall i :: 0 <= i < |t.made| - 1 ==> !Verifies(t.made[i], s)
  {
    var k := HowFarABatchGoes(targets, before, s, c);
    var path := Path(targets, s);
    hide RunBatch, Path, NoRoom, Requests, Credits;
    if k > 0 {
      var front, last := path[..k - 1], path[k - 1];
      assert path[..k] == front + [last];
      SumsJoin(front, [last], s);
      SumsOfOne(last, s);
      AskedAmong(front, s);
      NoVerifiersNoCount(front, s);
      var made := Asks(path[..k], s);
      hide Verifies, Asks;
      forall i | 0 <= i < |made| - 1
        ensures !Verifies(made[i], s)
      {
        assert made[i] == Asks(front, s)[i] && made[i] in Asks(front, s);
        var n :| 0 <= n < |front| && front[n] == made[i];
        assert front[n] == path[n];
      }
    }
  }

  lemma {:induction false} AskedAmong(xs: seq<Made>, s: Services)
    ensures forall x :: x in Asks(xs, s) ==> x in xs
  {
    if xs != [] { AskedAmong(xs[1..], s); }
  }

  lemma {:induction false} NoVerifiersNoCount(xs: seq<Made>, s: Services)
    requires forall i :: 0 <= i < |xs| ==> !Verifies(xs[i], s)
    ensures CountVerifies(xs, s) == 0
  {
    if xs != [] {
      hide Verifies;
      NoVerifiersNoCount(xs[1..], s);
    }
  }
}
