/**
 The trail of a guarded fetch (src/utils/safe-fetch.ts): which URLs a call approves, one redirect after the other, and
 what the page it hands back is.
 */
module SafeFetchTrail {
  import opened Wrappers
  import opened Bits
  import opened SafeFetch
  import IpGuard
  import NE = NetworkErrors

  // ---------- what approval asks of a URL ----------

  /** A blocked IPv4 or IPv6 address, or no address at all. */
  predicate Refused(w: World, a: string) {
    match w.isIP(a)
    case 4 => IpGuard.IsBlockedIpv4(a)
    case 6 => IpGuard.IsBlockedIpv6(a)
    case _ => true
  }

  /** A web address without credentials, whose literal host or whose every resolved address is let through. */
  predicate Acceptable(w: World, h: nat, u: Url) {
    && u.protocol in {"http:", "https:"} && u.username == "" && u.password == ""
    && var literal := Unbracketed(u.hostname);
       if w.isIP(literal) != 0 then !Refused(w, literal)
       else
         && w.preflight(h, u.hostname).Ok? && w.preflight(h, u.hostname).value != []
         && forall a :: a in w.preflight(h, u.hostname).value ==> !Refused(w, a)
  }

  /** Stripping takes one bracket off either end and nothing else. */
  lemma UnbracketedMeans(x: string)
    ensures Unbracketed("[" + x + "]") == x
    ensures (x == "" || (x[0] != '[' && x[|x| - 1] != ']')) ==> Unbracketed(x) == x
  {
    assert ("[" + x + "]")[1..] == x + "]" && (x + "]")[..|x|] == x;
  }

  lemma ApprovedIsAcceptable(w: World, h: nat, u: Url)
    ensures Approvable(w, h, u) <==> Acceptable(w, h, u)
  {
    hide IpGuard.IsBlockedIpv4, IpGuard.IsBlockedIpv6, Unbracketed;
    assert forall a :: Blocked(w, a) == Refused(w, a);
    var literal := Unbracketed(u.hostname);
    hide Blocked, Refused;
    if w.isIP(literal) != 0 { assert [literal][0] == literal; }
  }

  // ---------- the trail ----------

  function ApprovalOf(e: Event): seq<(nat, Url)> {
    match e case Approved(h, u) => [(h, u)] case _ => []
  }

  /** The URLs approved, in order, each with its hop. */
  function Approvals(log: seq<Event>): seq<(nat, Url)> {
    if log == [] then [] else ApprovalOf(log[0]) + Approvals(log[1..])
  }

  /** The answer to u on hop h is a redirect that names v, resolved against u. */
  predicate PointsTo(w: World, h: nat, u: Url, v: Url) {
    var reply := w.reply(h, u.text);
    && reply.Response? && 300 <= reply.status <= 399
    && reply.location.Some? && reply.location.value != ""
    && w.join(reply.location.value, u).Some?
    && w.parse(w.join(reply.location.value, u).value) == Some(v)
  }

  /** From the text of a URL, hop by hop, each one acceptable and where the one before it pointed. */
  ghost predicate Trail(w: World, raw: string, hop: nat, us: seq<(nat, Url)>) {
    && (us != [] ==> w.parse(raw) == Some(us[0].1))
    && (forall i :: 0 <= i < |us| ==> us[i].0 == hop + i && Acceptable(w, hop + i, us[i].1))
    && (forall i :: 0 <= i < |us| - 1 ==> PointsTo(w, hop + i, us[i].1, us[i + 1].1))
  }

  function Joined(chunks: seq<seq<Byte>>): seq<Byte> {
    if chunks == [] then [] else chunks[0] + Joined(chunks[1..])
  }

  /** The first approved address of a URL says whether it is reached over IPv4 or IPv6. */
  predicate FamilyTold(w: World, h: nat, u: Url, family: Option<nat>) {
    var literal := Unbracketed(u.hostname);
    var first := if w.isIP(literal) != 0 || w.preflight(h, u.hostname).Err? || w.preflight(h, u.hostname).value == []
                 then literal else w.preflight(h, u.hostname).value[0];
    family == if first == "" then None else Some(if ':' in first then 6 else 4)
  }

  /** A page is the whole body of the answer to u, which is HTML that ended well. */
  predicate PageTold(w: World, h: nat, u: Url, o: Outcome) {
    var reply := w.reply(h, u.text);
    o.Html? ==>
      && reply.Response? && reply.end.Ended? && o.status == reply.status
      && reply.contentType.Some? && reply.contentType.value != "" && w.isHtml(reply.contentType.value)
      && o.html == Joined(reply.chunks)
      && o.finalUrl == u.text && o.host == IpGuard.Lower(u.host)
      && FamilyTold(w, h, u, o.diagnostic.family)
  }

  /** The connection to u is let through: its host is a literal, or every address resolved for it is acceptable. */
  ghost predicate Connects(w: World, h: nat, u: Url) {
    var found := w.atConnect(h, u.hostname);
    || w.isIP(Unbracketed(u.hostname)) != 0
    || (found.Ok? && found.value != [] && forall a :: a in found.value ==> !Refused(w, a))
  }

  /** The connection to u is let through, and its answer is an HTML page in the success range within the cap. */
  ghost predicate PageDue(w: World, h: nat, u: Url, maxBytes: int) {
    var reply := w.reply(h, u.text);
    && Connects(w, h, u)
    && reply.Response? && 200 <= reply.status <= 299 && reply.end.Ended?
    && reply.contentType.Some? && reply.contentType.value != "" && w.isHtml(reply.contentType.value)
    && |Joined(reply.chunks)| <= maxBytes
  }

  /** The lookup for u answers with an error, with nothing, or with an address that is refused. */
  ghost predicate LookupFails(w: World, h: nat, u: Url) {
    var found := w.atConnect(h, u.hostname);
    && w.isIP(Unbracketed(u.hostname)) == 0
    && (found.Err? || found.value == [] || ("" !in found.value && exists a :: a in found.value && Refused(w, a)))
  }

  /** The body of the answer is read: it is no redirect, and HTML or of no declared type. */
  predicate ReadsBody(w: World, reply: Reply) {
    && reply.Response? && !(300 <= reply.status <= 399)
    && (reply.contentType.None? || reply.contentType.value == "" || w.isHtml(reply.contentType.value))
  }

  /** The call ends as transient, for the reason this error is classified under. */
  predicate Classified(w: World, v: NE.Value, o: Outcome) {
    var c := NE.ClassifyNetworkError(w.heap, v, w.normalize);
    && o.Transient? && o.diagnostic.stage == Some(c.stage) && o.diagnostic.errorCode == c.errorCode
    && o.diagnostic.retryable == c.retryable
  }

  predicate Forbidden(o: Outcome) {
    && o.PolicyBlocked? && o.diagnostic.stage == Some(NE.POLICY) && o.diagnostic.errorCode == Some("POLICY_BLOCKED")
    && !o.diagnostic.retryable
  }

  /** How a fetch of u that gets no complete answer ends. */
  ghost predicate FailureTold(w: World, h: nat, u: Url, maxBytes: int, o: Outcome) {
    var reply, found := w.reply(h, u.text), w.atConnect(h, u.hostname);
    && (LookupFails(w, h, u) ==> if found.Err? then Classified(w, w.wrap(found.error), o) else Forbidden(o))
    && (Connects(w, h, u) && reply.RequestError? ==> Classified(w, w.wrap(reply.error), o))
    && (Connects(w, h, u) && ReadsBody(w, reply) && reply.chunks != [] && |Joined(reply.chunks)| > maxBytes ==>
          Forbidden(o))
    && (Connects(w, h, u) && ReadsBody(w, reply) && |Joined(reply.chunks)| <= maxBytes && reply.end.StreamError? ==>
          Classified(w, w.wrap(reply.end.error), o))
    && (Connects(w, h, u) && reply.Response? && !ReadsBody(w, reply)
        && (forall next :: !PointsToText(w, h, u, next)) ==>
          o.diagnostic.httpStatus == Some(reply.status))
  }

  lemma {:induction false} JoinedSnoc(chunks: seq<seq<Byte>>, last: seq<Byte>)
    ensures Joined(chunks + [last]) == Joined(chunks) + last
  {
    if chunks == [] {
      assert [] + [last] == [last] && [last][1..] == [];
    } else {
      assert (chunks + [last])[1..] == chunks[1..] + [last];
      JoinedSnoc(chunks[1..], last);
    }
  }

  lemma {:induction false} FlattenIsJoined(chunks: seq<seq<Byte>>)
    ensures Flatten(chunks) == Joined(chunks)
    decreases |chunks|
  {
    if chunks != [] {
      var n := |chunks| - 1;
      FlattenIsJoined(chunks[..n]);
      JoinedSnoc(chunks[..n], chunks[n]);
      assert chunks[..n] + [chunks[n]] == chunks;
    }
  }

  // ---------- one hop ----------

  /** The answer is a redirect to this text. */
  predicate PointsToText(w: World, h: nat, u: Url, next: string) {
    var reply := w.reply(h, u.text);
    && reply.Response? && 300 <= reply.status <= 399
    && reply.location.Some? && reply.location.value != ""
    && w.join(reply.location.value, u) == Some(next)
  }

  lemma LetThrough(w: World, h: nat, u: Url)
    requires w.isIP(Unbracketed(u.hostname)) == 0
    requires var found := w.atConnect(h, u.hostname);
             found.Ok? && found.value != [] && forall a :: a in found.value ==> !Refused(w, a)
    ensures !ValidatedLookup(w, w.atConnect(h, u.hostname), true).LookupError?
  {
    hide IpGuard.IsBlockedIpv4, IpGuard.IsBlockedIpv6;
    assert forall a :: Blocked(w, a) == Refused(w, a);
    hide Blocked, Refused;
  }

  lemma AnswerTells(w: World, h: nat, u: Url, maxBytes: int)
    ensures var r, reply := FetchHop(w, h, u, maxBytes).result, w.reply(h, u.text);
            && (r.Ok? ==>
                  && reply.Response? && r.value.status == reply.status && r.value.location == reply.location
                  && r.value.contentType == reply.contentType
                  && (!IsRedirect(reply.status) && reply.contentType.Some? && reply.contentType.value != ""
                      && w.isHtml(reply.contentType.value) ==>
                        reply.end.Ended? && r.value.body == Joined(reply.chunks)))
            && (PageDue(w, h, u, maxBytes) ==> r.Ok?)
            && (Connects(w, h, u) && reply.Response? && IsRedirect(reply.status) ==> r.Ok?)
  {
    var reply := w.reply(h, u.text);
    if reply.Response? { FlattenIsJoined(reply.chunks); }
    if Connects(w, h, u) && w.isIP(Unbracketed(u.hostname)) == 0 { LetThrough(w, h, u); }
    hide ValidatedLookup, Offered, Unbracketed, Refused, Flatten, Joined;
  }

  lemma LookupDoesFail(w: World, h: nat, u: Url)
    requires LookupFails(w, h, u)
    ensures var found := w.atConnect(h, u.hostname);
            ValidatedLookup(w, found, true) == LookupError(if found.Err? then Network(found.error) else Policy)
  {
    var found := w.atConnect(h, u.hostname);
    hide IpGuard.IsBlockedIpv4, IpGuard.IsBlockedIpv6, Unbracketed;
    if found.Ok? {
      assert forall a :: Blocked(w, a) == Refused(w, a);
      hide Blocked, Refused;
      if found.value != [] {
        var a :| a in found.value && Refused(w, a);
        var i :| 0 <= i < |found.value| && found.value[i] == a;
        FirstBlockedIn(w, found.value);
      }
    }
  }

  /** A fetch that fails does so for the reason its lookup, its connection or its body gives. */
  lemma FailureTells(w: World, h: nat, u: Url, maxBytes: int, family: Option<nat>)
    ensures var r := FetchHop(w, h, u, maxBytes).result;
            && (r.Err? ==> FailureTold(w, h, u, maxBytes, Failed(w, r.error, h, family)))
            && (r.Ok? ==> forall o: Outcome ::
                  (w.reply(h, u.text).Response? && !ReadsBody(w, w.reply(h, u.text))
                   && (forall next :: !PointsToText(w, h, u, next)) ==>
                     o.diagnostic.httpStatus == Some(w.reply(h, u.text).status))
                  ==> FailureTold(w, h, u, maxBytes, o))
  {
    if LookupFails(w, h, u) { LookupDoesFail(w, h, u); }
    if Connects(w, h, u) && w.isIP(Unbracketed(u.hostname)) == 0 { LetThrough(w, h, u); }
    FailsOrConnects(w, h, u);
    ConnectedTells(w, h, u, maxBytes);
    hide ValidatedLookup, Offered, Unbracketed, Answer, ReadsBody, Joined, LookupFails, Connects, PointsToText;
    hide NE.ClassifyNetworkError;
  }

  lemma ConnectedTells(w: World, h: nat, u: Url, maxBytes: int)
    ensures var r, reply := Answer(w, h, u, maxBytes), w.reply(h, u.text);
            && (reply.RequestError? ==> r == Err(Network(w.wrap(reply.error))))
            && (ReadsBody(w, reply) && reply.chunks != [] && |Joined(reply.chunks)| > maxBytes ==> r == Err(Policy))
            && (ReadsBody(w, reply) && |Joined(reply.chunks)| <= maxBytes && reply.end.StreamError? ==>
                  r == Err(Network(w.wrap(reply.end.error))))
            && (reply.Response? && !ReadsBody(w, reply) ==> r.Ok?)
  {
    var reply := w.reply(h, u.text);
    if reply.Response? { FlattenIsJoined(reply.chunks); }
    hide Flatten, Joined;
  }

  lemma FailsOrConnects(w: World, h: nat, u: Url)
    ensures LookupFails(w, h, u) ==> w.isIP(Unbracketed(u.hostname)) == 0 && !Connects(w, h, u)
  {
    hide Refused, Unbracketed;
  }

  lemma InspectTells(w: World, h: nat, raw: string)
    ensures var i := Inspect(w, h, raw);
            && (i.Ok? ==> w.parse(raw) == Some(i.value.url) && Acceptable(w, h, i.value.url)
                          && FamilyTold(w, h, i.value.url, i.value.family))
            && (i.Err? && w.parse(raw).Some? ==> !Acceptable(w, h, w.parse(raw).value))
  {
    if w.parse(raw).Some? { ApprovedIsAcceptable(w, h, w.parse(raw).value); }
    hide Approvable, Acceptable, Unbracketed;
    if w.parse(raw).Some? { RefusedEarly(w, h, w.parse(raw).value); }
  }

  /** A URL with a forbidden scheme, with credentials or without addresses is not acceptable. */
  lemma RefusedEarly(w: World, h: nat, u: Url)
    ensures !SchemeOk(u) || AddressesOf(w, u, w.preflight(h, u.hostname)).Err? ==> !Acceptable(w, h, u)
    ensures Acceptable(w, h, u) ==> AddressesOf(w, u, w.preflight(h, u.hostname)).Ok?
    ensures Acceptable(w, h, u) ==> AddressesOf(w, u, w.preflight(h, u.hostname)).value != []
  {
    hide Refused, Unbracketed;
  }

  lemma FetchApprovesNothing(w: World, h: nat, u: Url, maxBytes: int)
    ensures Approvals(FetchHop(w, h, u, maxBytes).log) == []
  {
    var log := FetchHop(w, h, u, maxBytes).log;
    hide ValidatedLookup, Answer, Offered, Unbracketed;
    assert Approvals(log[1..]) == [] by {
      if |log| == 2 { assert log[1..][1..] == []; }
    }
  }

  lemma {:induction false} ApprovalsJoin(a: seq<Event>, b: seq<Event>)
    ensures Approvals(a + b) == Approvals(a) + Approvals(b)
    decreases |a|
  {
    if a == [] {
      assert a + b == b;
    } else {
      hide ApprovalOf;
      assert (a + b)[1..] == a[1..] + b;
      ApprovalsJoin(a[1..], b);
      assert Approvals(a + b) == ApprovalOf(a[0]) + (Approvals(a[1..]) + Approvals(b));
    }
  }

  lemma OneApproval(e: Event)
    ensures Approvals([e]) == ApprovalOf(e)
  {
    assert [e][1..] == [];
  }

  lemma StepApproves(w: World, current: string, hop: nat, maxBytes: int)
    ensures var step, i := HopStep(w, current, hop, maxBytes), Inspect(w, hop, current);
            Approvals(step.events) == if i.Ok? then [(hop, i.value.url)] else []
  {
    var i := Inspect(w, hop, current);
    StepCases(w, current, hop, maxBytes);
    if i.Ok? {
      var u := i.value.url;
      var f := FetchHop(w, hop, u, maxBytes);
      FetchApprovesNothing(w, hop, u, maxBytes);
      OneApproval(Approved(hop, u));
      ApprovalsJoin([Approved(hop, u)], f.log);
      hide HopStep, FetchHop, Inspect, Approvals;
      if f.result.Ok? {
        var all := [Approved(hop, u)] + f.log;
        OneApproval(Answered(hop, f.result.value.status));
        ApprovalsJoin(all, [Answered(hop, f.result.value.status)]);
        OneApproval(Redirected(hop));
        ApprovalsJoin(all + [Answered(hop, f.result.value.status)], [Redirected(hop)]);
      }
    }
  }

  /** Where one iteration leads, and what it hands back. */
  lemma StepTells(w: World, current: string, hop: nat, maxBytes: int)
    ensures var step, i := HopStep(w, current, hop, maxBytes), Inspect(w, hop, current);
            && (i.Err? ==> step.Done? && !step.outcome.Html? && RefusalTold(w, hop, current, step.outcome))
            && (i.Ok? && step.Done? ==> PageTold(w, hop, i.value.url, step.outcome)
                                        && (PageDue(w, hop, i.value.url, maxBytes) ==> step.outcome.Html?)
                                        && FailureTold(w, hop, i.value.url, maxBytes, step.outcome))
            && (step.Follow? ==> i.Ok? && PointsToText(w, hop, i.value.url, step.next)
                                 && forall o :: FailureTold(w, hop, i.value.url, maxBytes, o))
            && forall next :: i.Ok? && Connects(w, hop, i.value.url) && PointsToText(w, hop, i.value.url, next) ==>
                 step.Follow? && step.next == next
  {
    var i := Inspect(w, hop, current);
    StepCases(w, current, hop, maxBytes);
    InspectTells(w, hop, current);
    RefusalTells(w, hop, current);
    if i.Ok? {
      AnswerTells(w, hop, i.value.url, maxBytes);
      FailureTells(w, hop, i.value.url, maxBytes, i.value.family);
    }
    hide FailureTold, RefusalTold, HopStep, FetchHop, Inspect, Joined, Acceptable, FamilyTold, Connects;
    hide NE.ClassifyNetworkError, IpGuard.Lower;
  }

  // ---------- the whole call ----------

  /**
   The text is no acceptable URL, and the call ends on that: as forbidden, or as transient when the name lookup
   failed.
   */
  ghost predicate RefusalTold(w: World, h: nat, text: string, o: Outcome) {
    if w.parse(text).None? then Forbidden(o)
    else
      var u := w.parse(text).value;
      && !Acceptable(w, h, u)
      && if && u.protocol in {"http:", "https:"} && u.username == "" && u.password == ""
            && w.isIP(Unbracketed(u.hostname)) == 0 && w.preflight(h, u.hostname).Err?
         then Classified(w, w.preflight(h, u.hostname).error, o)
         else Forbidden(o)
  }

  /** A call from this text goes no further than these URLs because the next one is refused or over the limit. */
  ghost predicate GoesNoFurther(w: World, raw: string, hop: nat, maxRedirects: int, us: seq<(nat, Url)>, o: Outcome) {
    hop + |us| <= maxRedirects ==>
      if us == [] then RefusalTold(w, hop, raw, o)
      else
        var (h, u) := us[|us| - 1];
        Connects(w, h, u) ==> forall next :: PointsToText(w, h, u, next) ==> RefusalTold(w, h + 1, next, o)
  }

  lemma RefusalTells(w: World, h: nat, text: string)
    ensures Inspect(w, h, text).Err? ==> RefusalTold(w, h, text, Failed(w, Inspect(w, h, text).error, h, None))
  {
    if w.parse(text).Some? {
      ApprovedIsAcceptable(w, h, w.parse(text).value);
      RefusedEarly(w, h, w.parse(text).value);
    }
    hide Approvable, Acceptable, Unbracketed, NE.ClassifyNetworkError;
  }

  /** What a call hands back, in terms of the last URL it approved. */
  ghost predicate OutcomeTold(w: World, us: seq<(nat, Url)>, maxBytes: int, o: Outcome) {
    if us == [] then !o.Html?
    else
      var (h, u) := us[|us| - 1];
      PageTold(w, h, u, o) && (PageDue(w, h, u, maxBytes) ==> o.Html?) && FailureTold(w, h, u, maxBytes, o)
  }

  lemma TrailCons(w: World, raw: string, hop: nat, u: Url, next: string, us: seq<(nat, Url)>)
    requires w.parse(raw) == Some(u) && Acceptable(w, hop, u) && PointsToText(w, hop, u, next)
    requires Trail(w, next, hop + 1, us)
    ensures Trail(w, raw, hop, [(hop, u)] + us)
  {
    hide Acceptable;
    var all := [(hop, u)] + us;
    forall i | 0 <= i < |all|
      ensures all[i].0 == hop + i && Acceptable(w, hop + i, all[i].1)
      ensures i < |all| - 1 ==> PointsTo(w, hop + i, all[i].1, all[i + 1].1)
    {
      if i > 0 {
        assert all[i] == us[i - 1] && us[i - 1].0 == hop + 1 + (i - 1);
        if i < |all| - 1 { assert all[i + 1] == us[i - 1 + 1]; }
      }
    }
  }

  lemma LastOfCons(w: World, raw: string, hop: nat, maxRedirects: int, maxBytes: int, u: Url, next: string,
                   us: seq<(nat, Url)>, o: Outcome)
    requires PointsToText(w, hop, u, next) && FailureTold(w, hop, u, maxBytes, o)
    requires GoesNoFurther(w, next, hop + 1, maxRedirects, us, o) && OutcomeTold(w, us, maxBytes, o)
    ensures GoesNoFurther(w, raw, hop, maxRedirects, [(hop, u)] + us, o)
    ensures OutcomeTold(w, [(hop, u)] + us, maxBytes, o)
  {
    hide Acceptable, Connects, Joined, FamilyTold, FailureTold, RefusalTold;
    hide IpGuard.Lower;
    var all := [(hop, u)] + us;
    assert us != [] ==> all[|all| - 1] == us[|us| - 1];
  }

  lemma OneHopTrail(w: World, raw: string, hop: nat, maxRedirects: int, maxBytes: int)
    ensures var step, i := HopStep(w, raw, hop, maxBytes), Inspect(w, hop, raw);
            step.Done? ==>
              && Trail(w, raw, hop, Approvals(step.events))
              && GoesNoFurther(w, raw, hop, maxRedirects, Approvals(step.events), step.outcome)
              && OutcomeTold(w, Approvals(step.events), maxBytes, step.outcome)
  {
    StepTells(w, raw, hop, maxBytes);
    StepApproves(w, raw, hop, maxBytes);
    InspectTells(w, hop, raw);
    hide HopStep, Inspect, Approvals, Acceptable, Connects, PageTold, PageDue, FamilyTold;
    hide FailureTold, RefusalTold;
  }

  /**
   The whole call, from the text it is given: the first URL approved is that text parsed, each later one is where the
   answer to the one before it redirected, all are acceptable, and the call follows redirects as long as they are and
   the limit allows, else it ends on the refusal; a page handed back is the whole HTML body answered for the last of
   them, and such a body within the cap always is handed back; a lookup, connection or body that fails decides how the
   call ends.
   */
  lemma {:induction false} CallTrail(w: World, raw: string, hop: nat, maxRedirects: int, maxBytes: int)
    ensures var r := Get(w, raw, hop, maxRedirects, maxBytes);
            && Trail(w, raw, hop, Approvals(r.log))
            && GoesNoFurther(w, raw, hop, maxRedirects, Approvals(r.log), r.outcome)
            && OutcomeTold(w, Approvals(r.log), maxBytes, r.outcome)
    decreases maxRedirects + 1 - hop
  {
    GetUnfolds(w, raw, hop, maxRedirects, maxBytes);
    if hop > maxRedirects {
      hide Get;
    } else {
      var step, i := HopStep(w, raw, hop, maxBytes), Inspect(w, hop, raw);
      OneHopTrail(w, raw, hop, maxRedirects, maxBytes);
      StepTells(w, raw, hop, maxBytes);
      StepApproves(w, raw, hop, maxBytes);
      InspectTells(w, hop, raw);
      hide *;
      if step.Follow? {
        var rest := Get(w, step.next, hop + 1, maxRedirects, maxBytes);
        CallTrail(w, step.next, hop + 1, maxRedirects, maxBytes);
        ApprovalsJoin(step.events, rest.log);
        TrailCons(w, raw, hop, i.value.url, step.next, Approvals(rest.log));
        LastOfCons(w, raw, hop, maxRedirects, maxBytes, i.value.url, step.next, Approvals(rest.log), rest.outcome);
      }
    }
  }
}
