/**
 The hardened HTML GET (src/utils/safe-fetch.ts): per-hop URL approval, a validated connect-time lookup, a byte cap and
 a manual redirect loop that ends in a typed outcome. URL parsing, `net.isIP`, DNS and the wire are oracles.
 */
module SafeFetch {
  import opened Wrappers
  import opened Bits
  import IpGuard
  import NE = NetworkErrors

  datatype Url = Url(text: string, protocol: string, username: string, password: string, hostname: string, host: string)

  datatype StreamEnd = Ended | StreamError(error: NE.Value)

  datatype Reply =
    | RequestError(error: NE.Value)
    | Response(status: nat, location: Option<string>, contentType: Option<string>,
               chunks: seq<seq<Byte>>, end: StreamEnd)

  /** Everything the code asks the outside; DNS and the wire may answer differently on every hop. */
  datatype World = World(
    parse: string -> Option<Url>,
    join: (string, Url) -> Option<string>,
    isIP: string -> nat,
    preflight: (nat, string) -> Result<seq<string>, NE.Value>,
    atConnect: (nat, string) -> Result<seq<string>, NE.Value>,
    reply: (nat, string) -> Reply,
    isHtml: string -> bool,
    wrap: NE.Value -> NE.Value,
    heap: NE.Heap,
    normalize: string -> string)

  datatype HopError = Policy | Network(error: NE.Value)

  // ---------- addresses ----------

  /** isBlockedIp */
  predicate Blocked(w: World, addr: string) {
    if w.isIP(addr) == 4 then IpGuard.IsBlockedIpv4(addr)
    else if w.isIP(addr) == 6 then IpGuard.IsBlockedIpv6(addr)
    else true
  }

  function Family(addr: string): nat {
    if ':' in addr then 6 else 4
  }

  function FirstBlocked(w: World, addresses: seq<string>): (r: Option<string>)
    ensures r.None? <==> forall i :: 0 <= i < |addresses| ==> !Blocked(w, addresses[i])
  {
    if addresses == [] then None
    else if Blocked(w, addresses[0]) then Some(addresses[0])
    else FirstBlocked(w, addresses[1..])
  }

  datatype LookupAnswer =
    | LookupError(why: HopError)
    | AllAddresses(all: seq<(string, nat)>)
    | OneAddress(address: string, family: nat)

  function WithFamily(addresses: seq<string>): (r: seq<(string, nat)>)
    ensures |r| == |addresses| && forall i :: 0 <= i < |r| ==> r[i] == (addresses[i], Family(addresses[i]))
  {
    seq(|addresses|, i requires 0 <= i < |addresses| => (addresses[i], Family(addresses[i])))
  }

  /** createValidatedLookup. A blocked address that is the empty string is falsy, and passes the test. */
  function ValidatedLookup(w: World, resolved: Result<seq<string>, NE.Value>, all: bool): LookupAnswer {
    match resolved
    case Err(e) => LookupError(Network(e))
    case Ok(addresses) =>
      var blocked := FirstBlocked(w, addresses);
      if blocked.Some? && blocked.value != "" then LookupError(Policy)
      else if addresses == [] then LookupError(Policy)
      else if all then AllAddresses(WithFamily(addresses))
      else OneAddress(addresses[0], Family(addresses[0]))
  }

  function Offered(a: LookupAnswer): seq<string> {
    match a
    case LookupError(_) => []
    case AllAddresses(all) => seq(|all|, i requires 0 <= i < |all| => all[i].0)
    case OneAddress(address, _) => [address]
  }

  /**
   The lookup hands over the whole resolved list or its head, unaltered, and only when it is not empty; if the list
   holds no empty string, it does so exactly when no address in it is blocked. A list it hands over contains a blocked
   address exactly when the first blocked one is the empty string.
   */
  lemma LookupOffersOnlyApproved(w: World, addresses: seq<string>, all: bool)
    ensures var a := ValidatedLookup(w, Ok(addresses), all);
            && (!a.LookupError? ==> addresses != [] && Offered(a) == if all then addresses else addresses[..1])
            && (a.AllAddresses? ==> forall o :: o in a.all ==> o.1 == if ':' in o.0 then 6 else 4)
            && (a.OneAddress? ==> a.family == if ':' in a.address then 6 else 4)
            && ("" !in addresses ==>
                  (a.LookupError? <==> addresses == [] || exists i :: 0 <= i < |addresses| && Blocked(w, addresses[i])))
            && (all && !a.LookupError? ==>
                  ((exists i :: 0 <= i < |addresses| && Blocked(w, addresses[i]))
                   <==> FirstBlocked(w, addresses) == Some("")))
  {
    hide Blocked;
    FirstBlockedIn(w, addresses);
  }

  lemma {:induction false} FirstBlockedIn(w: World, addresses: seq<string>)
    ensures FirstBlocked(w, addresses).Some? ==> FirstBlocked(w, addresses).value in addresses
  {
    if addresses != [] {
      hide Blocked;
      FirstBlockedIn(w, addresses[1..]);
    }
  }

  // ---------- inspectUrlSafe ----------

  function Unbracketed(s: string): string {
    var open := if s != "" && s[0] == '[' then s[1..] else s;
    if open != "" && open[|open| - 1] == ']' then open[..|open| - 1] else open
  }

  datatype Inspected = Inspected(url: Url, family: Option<nat>)

  /** The addresses a host stands for: itself when it is a literal, else what DNS says. */
  function AddressesOf(w: World, url: Url, resolved: Result<seq<string>, NE.Value>): Result<seq<string>, NE.Value> {
    if w.isIP(Unbracketed(url.hostname)) != 0 then Ok([Unbracketed(url.hostname)]) else resolved
  }

  predicate SchemeOk(url: Url) {
    (url.protocol == "http:" || url.protocol == "https:") && url.username == "" && url.password == ""
  }

  /** What approval of a URL on hop h means. */
  predicate Approvable(w: World, h: nat, url: Url) {
    && SchemeOk(url)
    && var a := AddressesOf(w, url, w.preflight(h, url.hostname));
       a.Ok? && a.value != [] && forall i :: 0 <= i < |a.value| ==> !Blocked(w, a.value[i])
  }

  method InspectUrlSafe(w: World, h: nat, raw: string) returns (r: Result<Inspected, HopError>)
    ensures r == Inspect(w, h, raw)
  {
    var parsed := w.parse(raw);
    if parsed.None? { return Err(Policy); }
    var url := parsed.value;
    if url.protocol != "http:" && url.protocol != "https:" { return Err(Policy); }
    if url.username != "" || url.password != "" { return Err(Policy); }
    var found := AddressesOf(w, url, w.preflight(h, url.hostname));
    if found.Err? { return Err(Network(found.error)); }
    var addresses := found.value;
    if |addresses| == 0 { return Err(Policy); }
    var i := 0;
    while i < |addresses|
      invariant 0 <= i <= |addresses|
      invariant forall j :: 0 <= j < i ==> !Blocked(w, addresses[j])
    {
      if Blocked(w, addresses[i]) { return Err(Policy); }
      i := i + 1;
    }
    var first := addresses[0];
    r := Ok(Inspected(url, if first != "" then Some(Family(first)) else None));
  }

  function Inspect(w: World, h: nat, raw: string): Result<Inspected, HopError> {
    if w.parse(raw).None? then Err(Policy)
    else
      var url := w.parse(raw).value;
      var found := AddressesOf(w, url, w.preflight(h, url.hostname));
      if !SchemeOk(url) then Err(Policy)
      else if found.Err? then Err(Network(found.error))
      else if !Approvable(w, h, url) then Err(Policy)
      else Ok(Inspected(url, if found.value[0] != "" then Some(Family(found.value[0])) else None))
  }

  // ---------- one hop ----------

  datatype HopResult = HopResult(status: nat, location: Option<string>, contentType: Option<string>, body: seq<Byte>)

  datatype Event =
    | Approved(hop: nat, url: Url)
    | Requested(hop: nat, url: Url)
    | Dialled(hop: nat, addresses: seq<string>)
    | Answered(hop: nat, status: nat)
    | Redirected(hop: nat)

  function Flatten(chunks: seq<seq<Byte>>): seq<Byte> {
    if chunks == [] then [] else Flatten(chunks[..|chunks| - 1]) + chunks[|chunks| - 1]
  }

  /**
   The body handlers: bytes are kept while the running size is within the cap; the first byte past it aborts the hop.
   */
  method ReadBody(chunks: seq<seq<Byte>>, end: StreamEnd, maxBytes: int) returns (r: Result<seq<Byte>, HopError>)
    ensures r == Body(chunks, end, maxBytes)
  {
    var kept: seq<seq<Byte>> := [];
    var size := 0;
    assert Flatten([]) == [];
    hide Flatten;
    var i := 0;
    while i < |chunks|
      invariant 0 <= i <= |chunks|
      invariant kept == chunks[..i]
      invariant size == |Flatten(kept)|
      invariant i > 0 ==> size <= maxBytes
    {
      var chunk := chunks[i];
      FlattenSnoc(chunks, i);
      size := size + |chunk|;
      if size > maxBytes {
        PrefixIsShorter(chunks, i + 1);
        return Err(Policy);
      }
      kept := kept + [chunk];
      i := i + 1;
      assert chunks[..i] == kept;
    }
    assert chunks[..i] == chunks;
    match end {
      case Ended => return Ok(Flatten(kept));
      case StreamError(e) => return Err(Network(e));
    }
  }

  /** The whole body when it fits, a policy error when it does not; an empty stream never reaches the test. */
  function Body(chunks: seq<seq<Byte>>, end: StreamEnd, maxBytes: int): Result<seq<Byte>, HopError> {
    if chunks != [] && |Flatten(chunks)| > maxBytes then Err(Policy)
    else match end
         case Ended => Ok(Flatten(chunks))
         case StreamError(e) => Err(Network(e))
  }

  lemma FlattenSnoc(chunks: seq<seq<Byte>>, i: nat)
    requires i < |chunks|
    ensures Flatten(chunks[..i + 1]) == Flatten(chunks[..i]) + chunks[i]
  {
    assert chunks[..i + 1][..i] == chunks[..i];
  }

  lemma {:induction false} PrefixIsShorter(chunks: seq<seq<Byte>>, n: nat)
    requires n <= |chunks|
    ensures |Flatten(chunks[..n])| <= |Flatten(chunks)|
    decreases |chunks|
  {
    if n < |chunks| {
      PrefixIsShorter(chunks[..|chunks| - 1], n);
      assert chunks[..|chunks| - 1][..n] == chunks[..n];
    } else {
      assert chunks[..n] == chunks;
    }
  }

  predicate IsRedirect(status: nat) { 300 <= status < 400 }

  datatype Hop = Hop(result: Result<HopResult, HopError>, log: seq<Event>)

  /** The error a request event carries: policy errors pass, anything else is wrapped. */
  function Rejected(w: World, e: HopError): HopError {
    match e case Policy => Policy case Network(v) => Network(w.wrap(v))
  }

  function Answer(w: World, h: nat, url: Url, maxBytes: int): Result<HopResult, HopError> {
    match w.reply(h, url.text)
    case RequestError(e) => Err(Network(w.wrap(e)))
    case Response(status, location, contentType, chunks, end) =>
      if IsRedirect(status) || (contentType.Some? && contentType.value != "" && !w.isHtml(contentType.value))
      then Ok(HopResult(status, location, contentType, []))
      else match Body(chunks, end, maxBytes)
           case Ok(body) => Ok(HopResult(status, location, contentType, body))
           case Err(e) => Err(Rejected(w, e))
  }

  /** fetchHop: literal hosts are dialled as they stand, names only through the validated lookup. */
  function FetchHop(w: World, h: nat, url: Url, maxBytes: int): Hop {
    var literal := Unbracketed(url.hostname);
    if w.isIP(literal) != 0 then
      Hop(Answer(w, h, url, maxBytes), [Requested(h, url), Dialled(h, [literal])])
    else
      match ValidatedLookup(w, w.atConnect(h, url.hostname), true)
      case LookupError(e) => Hop(Err(Rejected(w, e)), [Requested(h, url)])
      case answer => Hop(Answer(w, h, url, maxBytes), [Requested(h, url), Dialled(h, Offered(answer))])
  }

  method Fetch(w: World, h: nat, url: Url, maxBytes: int) returns (r: Result<HopResult, HopError>, log: seq<Event>)
    ensures Hop(r, log) == FetchHop(w, h, url, maxBytes)
  {
    log := [Requested(h, url)];
    var literal := Unbracketed(url.hostname);
    if w.isIP(literal) != 0 {
      log := log + [Dialled(h, [literal])];
    } else {
      var answer := ValidatedLookup(w, w.atConnect(h, url.hostname), true);
      if answer.LookupError? { return Err(Rejected(w, answer.why)), log; }
      log := log + [Dialled(h, Offered(answer))];
    }
    match w.reply(h, url.text) {
      case RequestError(e) => r := Err(Network(w.wrap(e)));
      case Response(status, location, contentType, chunks, end) =>
        if IsRedirect(status) || (contentType.Some? && contentType.value != "" && !w.isHtml(contentType.value)) {
          return Ok(HopResult(status, location, contentType, [])), log;
        }
        var body := ReadBody(chunks, end, maxBytes);
        match body {
          case Ok(bytes) => r := Ok(HopResult(status, location, contentType, bytes));
          case Err(e) => r := Err(Rejected(w, e));
        }
    }
  }

  // ---------- safeGetHtml ----------

  datatype Final = OK | TRANSIENT | INVALID | POLICY_BLOCKED

  datatype Diagnostic = Diagnostic(final: Final, stage: Option<NE.Stage>, errorCode: Option<string>,
                                   httpStatus: Option<nat>, redirectCount: int, family: Option<nat>, retryable: bool)

  datatype Outcome =
    | Html(finalUrl: string, host: string, status: nat, html: seq<Byte>, diagnostic: Diagnostic)
    | PolicyBlocked(diagnostic: Diagnostic)
    | Transient(diagnostic: Diagnostic)
    | Invalid(diagnostic: Diagnostic)

  function Failed(w: World, e: HopError, hop: nat, family: Option<nat>): Outcome {
    match e
    case Policy =>
      PolicyBlocked(Diagnostic(POLICY_BLOCKED, Some(NE.POLICY), Some("POLICY_BLOCKED"), None, hop, family, false))
    case Network(v) =>
      var c := NE.ClassifyNetworkError(w.heap, v, w.normalize);
      Transient(Diagnostic(TRANSIENT, Some(c.stage), c.errorCode, None, hop, family, c.retryable))
  }

  function NextUrl(w: World, res: HopResult, url: Url): Option<string> {
    if res.location.None? || res.location.value == "" then None else w.join(res.location.value, url)
  }

  function BadRedirect(res: HopResult, hop: nat, family: Option<nat>): Outcome {
    Invalid(Diagnostic(INVALID, Some(NE.REDIRECT), Some("INVALID_REDIRECT_LOCATION"), Some(res.status), hop, family,
                       false))
  }

  function TooManyRedirects(maxRedirects: int): Outcome {
    Transient(Diagnostic(TRANSIENT, Some(NE.REDIRECT), Some("TOO_MANY_REDIRECTS"), None, maxRedirects + 1, None, false))
  }

  /** The status and content-type tests on a response that is not a redirect. */
  function Settled(w: World, res: HopResult, url: Url, hop: nat, family: Option<nat>): Outcome {
    var s := res.status;
    if s == 429 then Transient(Diagnostic(TRANSIENT, Some(NE.HTTP), Some("HTTP_429"), Some(s), hop, family, true))
    else if 500 <= s <= 599 then
      Transient(Diagnostic(TRANSIENT, Some(NE.HTTP), Some("HTTP_5XX"), Some(s), hop, family, true))
    else if 400 <= s <= 499 then
      Invalid(Diagnostic(INVALID, Some(NE.HTTP), Some("HTTP_4XX"), Some(s), hop, family, false))
    else if res.contentType.None? || res.contentType.value == "" || !w.isHtml(res.contentType.value) then
      PolicyBlocked(Diagnostic(POLICY_BLOCKED, Some(NE.POLICY), Some("NON_HTML_RESPONSE"), Some(s), hop, family, false))
    else
      Html(url.text, IpGuard.Lower(url.host), s, res.body, Diagnostic(OK, None, None, Some(s), hop, family, false))
  }

  datatype Run = Run(outcome: Outcome, log: seq<Event>)

  datatype Step = Done(outcome: Outcome, events: seq<Event>) | Follow(next: string, events: seq<Event>)

  /** One iteration of the loop. */
  function HopStep(w: World, current: string, hop: nat, maxBytes: int): Step {
    match Inspect(w, hop, current)
    case Err(e) => Done(Failed(w, e, hop, None), [])
    case Ok(i) =>
      var f := FetchHop(w, hop, i.url, maxBytes);
      var events := [Approved(hop, i.url)] + f.log;
      match f.result
      case Err(e) => Done(Failed(w, e, hop, i.family), events)
      case Ok(res) =>
        var all := events + [Answered(hop, res.status)];
        if !IsRedirect(res.status) then Done(Settled(w, res, i.url, hop, i.family), all)
        else
          match NextUrl(w, res, i.url)
          case None => Done(BadRedirect(res, hop, i.family), all)
          case Some(next) => Follow(next, all + [Redirected(hop)])
  }

  /** The rest of a call from a given hop: its outcome, and everything it does. */
  function Get(w: World, current: string, hop: nat, maxRedirects: int, maxBytes: int): Run
    decreases maxRedirects + 1 - hop
  {
    if hop > maxRedirects then Run(TooManyRedirects(maxRedirects), [])
    else
      match HopStep(w, current, hop, maxBytes)
      case Done(outcome, events) => Run(outcome, events)
      case Follow(next, events) => After(events, Get(w, next, hop + 1, maxRedirects, maxBytes))
  }

  function After(log: seq<Event>, rest: Run): Run {
    Run(rest.outcome, log + rest.log)
  }

  method SafeGetHtml(w: World, raw: string, maxRedirects: int, maxBytes: int) returns (r: Outcome, log: seq<Event>)
    ensures Run(r, log) == Get(w, raw, 0, maxRedirects, maxBytes)
  {
    var current := raw;
    log := [];
    var hop: nat := 0;
    CallEnds(w, raw, maxRedirects, maxBytes, log, hop);
    hide *;
    while hop <= maxRedirects
      invariant Get(w, raw, 0, maxRedirects, maxBytes) == After(log, Get(w, current, hop, maxRedirects, maxBytes))
      decreases maxRedirects + 1 - hop
    {
      StepUnfolds(w, current, hop, maxRedirects, maxBytes, log);
      StepCases(w, current, hop, maxBytes);
      var inspected := InspectUrlSafe(w, hop, current);
      if inspected.Err? { return Failed(w, inspected.error, hop, None), log + []; }
      var url, family := inspected.value.url, inspected.value.family;
      var fetched, events := Fetch(w, hop, url, maxBytes);
      events := [Approved(hop, url)] + events;
      if fetched.Err? { return Failed(w, fetched.error, hop, family), log + events; }
      var res := fetched.value;
      events := events + [Answered(hop, res.status)];
      if IsRedirect(res.status) {
        var next := NextUrl(w, res, url);
        if next.None? { return BadRedirect(res, hop, family), log + events; }
        log := log + (events + [Redirected(hop)]);
        current := next.value;
        hop := hop + 1;
        continue;
      }
      return Settled(w, res, url, hop, family), log + events;
    }
    CallEnds(w, current, maxRedirects, maxBytes, log, hop);
    r := TooManyRedirects(maxRedirects);
  }

  lemma CallEnds(w: World, current: string, maxRedirects: int, maxBytes: int, log: seq<Event>, hop: nat)
    ensures hop > maxRedirects ==>
              After(log, Get(w, current, hop, maxRedirects, maxBytes)) == Run(TooManyRedirects(maxRedirects), log)
    ensures log == [] ==>
              After(log, Get(w, current, hop, maxRedirects, maxBytes)) == Get(w, current, hop, maxRedirects, maxBytes)
  {
    hide HopStep, TooManyRedirects;
    assert forall rest: seq<Event> :: [] + rest == rest;
  }

  /** The five ways an iteration goes. */
  lemma StepCases(w: World, current: string, hop: nat, maxBytes: int)
    ensures var step, inspected := HopStep(w, current, hop, maxBytes), Inspect(w, hop, current);
            if inspected.Err? then step == Done(Failed(w, inspected.error, hop, None), [])
            else
              var url, family := inspected.value.url, inspected.value.family;
              var f := FetchHop(w, hop, url, maxBytes);
              var events := [Approved(hop, url)] + f.log;
              if f.result.Err? then step == Done(Failed(w, f.result.error, hop, family), events)
              else
                var res := f.result.value;
                var all := events + [Answered(hop, res.status)];
                && (!IsRedirect(res.status) ==> step == Done(Settled(w, res, url, hop, family), all))
                && (IsRedirect(res.status) && NextUrl(w, res, url).None? ==>
                      step == Done(BadRedirect(res, hop, family), all))
                && (IsRedirect(res.status) && NextUrl(w, res, url).Some? ==>
                      step == Follow(NextUrl(w, res, url).value, all + [Redirected(hop)]))
  {
    hide FetchHop, Inspect, Settled, Failed, NextUrl, BadRedirect, IsRedirect;
  }

  lemma StepUnfolds(w: World, current: string, hop: nat, maxRedirects: int, maxBytes: int, log: seq<Event>)
    requires hop <= maxRedirects
    ensures After(log, Get(w, current, hop, maxRedirects, maxBytes))
         == match HopStep(w, current, hop, maxBytes)
            case Done(outcome, events) => Run(outcome, log + events)
            case Follow(next, events) => After(log + events, Get(w, next, hop + 1, maxRedirects, maxBytes))
  {
    hide HopStep, TooManyRedirects;
    var step := HopStep(w, current, hop, maxBytes);
    if step.Follow? {
      var rest := Get(w, step.next, hop + 1, maxRedirects, maxBytes);
      assert log + (step.events + rest.log) == log + step.events + rest.log;
    }
  }

  // ---------- what every call keeps ----------

  /**
   Each URL is approvable when approved, each request follows the approval of its own URL, and what is dialled for it is
   the literal in that URL or the whole list the connect-time lookup resolved, never empty.
   */
  ghost predicate EventOk(w: World, log: seq<Event>, i: nat)
    requires i < |log|
  {
    match log[i]
    case Approved(h, u) => Approvable(w, h, u)
    case Requested(h, u) => i > 0 && log[i - 1] == Approved(h, u)
    case Dialled(h, addresses) =>
      && i > 0 && log[i - 1].Requested? && log[i - 1].hop == h
      && addresses != [] && AddressesOf(w, log[i - 1].url, w.atConnect(h, log[i - 1].url.hostname)) == Ok(addresses)
    case _ => true
  }

  ghost predicate Lawful(w: World, log: seq<Event>) {
    forall i: nat :: i < |log| ==> EventOk(w, log, i)
  }

  lemma LawfulConcat(w: World, a: seq<Event>, b: seq<Event>)
    requires Lawful(w, a) && Lawful(w, b)
    ensures Lawful(w, a + b)
  {
    hide Approvable, Blocked;
    forall i: nat | i < |a + b|
      ensures EventOk(w, a + b, i)
    {
      if i < |a| {
        assert EventOk(w, a, i);
      } else {
        assert EventOk(w, b, i - |a|);
        assert (a + b)[i] == b[i - |a|];
        if i > |a| { assert (a + b)[i - 1] == b[i - |a| - 1]; }
      }
    }
  }

  lemma FetchIsLawful(w: World, h: nat, url: Url, maxBytes: int)
    requires Approvable(w, h, url)
    ensures Lawful(w, [Approved(h, url)] + FetchHop(w, h, url, maxBytes).log)
  {
    var log := [Approved(h, url)] + FetchHop(w, h, url, maxBytes).log;
    var found := w.atConnect(h, url.hostname);
    if w.isIP(Unbracketed(url.hostname)) == 0 && !ValidatedLookup(w, found, true).LookupError? {
      LookupOffersOnlyApproved(w, found.value, true);
    }
    hide Approvable, Blocked, Answer, ValidatedLookup, Offered, Unbracketed;
  }

  lemma StepIsLawful(w: World, current: string, hop: nat, maxBytes: int)
    ensures Lawful(w, HopStep(w, current, hop, maxBytes).events)
  {
    var inspected := Inspect(w, hop, current);
    if inspected.Ok? {
      var url := inspected.value.url;
      FetchIsLawful(w, hop, url, maxBytes);
      var f := FetchHop(w, hop, url, maxBytes);
      hide Approvable, Blocked, Settled, Failed, FetchHop, Inspect, NextUrl, BadRedirect;
      if f.result.Ok? {
        var events := [Approved(hop, url)] + f.log;
        LawfulConcat(w, events, [Answered(hop, f.result.value.status)]);
        LawfulConcat(w, events + [Answered(hop, f.result.value.status)], [Redirected(hop)]);
      }
    }
  }

  /**
   Every fetch is on a URL approved in the same iteration, and dials what that URL or the connect-time lookup named.
   */
  lemma {:induction false} CallIsLawful(w: World, current: string, hop: nat, maxRedirects: int, maxBytes: int)
    ensures Lawful(w, Get(w, current, hop, maxRedirects, maxBytes).log)
    decreases maxRedirects + 1 - hop
  {
    if hop <= maxRedirects {
      StepIsLawful(w, current, hop, maxBytes);
      hide HopStep, Lawful;
      var step := HopStep(w, current, hop, maxBytes);
      if step.Follow? {
        CallIsLawful(w, step.next, hop + 1, maxRedirects, maxBytes);
        LawfulConcat(w, step.events, Get(w, step.next, hop + 1, maxRedirects, maxBytes).log);
      }
    }
  }

  /** Nothing is dialled that the guard refuses. */
  predicate DialsSafe(w: World, log: seq<Event>) {
    forall e :: e in log && e.Dialled? ==> forall a :: a in e.addresses ==> !Blocked(w, a)
  }

  /** In no list resolved at connect time is an empty string the first address the guard refuses. */
  predicate LookupsPass(w: World, log: seq<Event>) {
    forall e :: e in log && e.Requested? ==> LookupPasses(w, e.hop, e.url)
  }

  predicate LookupPasses(w: World, h: nat, url: Url) {
    && w.isIP(Unbracketed(url.hostname)) == 0
    && w.atConnect(h, url.hostname).Ok?
    ==> FirstBlocked(w, w.atConnect(h, url.hostname).value) != Some("")
  }

  lemma FetchIsSafeIff(w: World, h: nat, url: Url, maxBytes: int)
    requires Approvable(w, h, url)
    ensures var log := FetchHop(w, h, url, maxBytes).log;
            DialsSafe(w, log) <==> LookupsPass(w, log)
  {
    var log := FetchHop(w, h, url, maxBytes).log;
    var literal, found := Unbracketed(url.hostname), w.atConnect(h, url.hostname);
    assert log[0] == Requested(h, url);
    if w.isIP(literal) != 0 {
      assert AddressesOf(w, url, w.preflight(h, url.hostname)) == Ok([literal]);
      assert !Blocked(w, [literal][0]);
      hide Blocked, Answer, Unbracketed;
    } else if ValidatedLookup(w, found, true).LookupError? {
      hide Blocked, Answer, Unbracketed, Approvable;
    } else {
      LookupOffersOnlyApproved(w, found.value, true);
      hide Blocked, Answer, Unbracketed, Approvable, Offered;
      assert log[1] == Dialled(h, found.value);
      assert log[1] in log && log == [log[0], log[1]];
    }
  }

  lemma StepIsSafeIff(w: World, current: string, hop: nat, maxBytes: int)
    ensures var events := HopStep(w, current, hop, maxBytes).events;
            DialsSafe(w, events) <==> LookupsPass(w, events)
  {
    var inspected := Inspect(w, hop, current);
    if inspected.Ok? {
      var url := inspected.value.url;
      var fetched := FetchHop(w, hop, url, maxBytes).log;
      FetchIsSafeIff(w, hop, url, maxBytes);
      StepCases(w, current, hop, maxBytes);
      hide Blocked, LookupPasses, HopStep, FetchHop, Inspect, Settled, Failed, NextUrl, BadRedirect, Approvable;
      var events := HopStep(w, current, hop, maxBytes).events;
      assert forall e :: e in events && (e.Dialled? || e.Requested?) ==> e in fetched;
      assert forall e :: e in fetched ==> e in events;
    }
  }

  lemma SafetyConcat(w: World, a: seq<Event>, b: seq<Event>)
    ensures DialsSafe(w, a + b) <==> DialsSafe(w, a) && DialsSafe(w, b)
    ensures LookupsPass(w, a + b) <==> LookupsPass(w, a) && LookupsPass(w, b)
  {
    hide Blocked, LookupPasses;
    assert forall e :: e in a || e in b <==> e in a + b;
  }

  /**
   For every call: nothing the guard refuses is dialled if and only if in no list resolved at connect time an empty
   string is the first address refused; such a string is the one refusal the lookup does not notice.
   */
  lemma {:induction false} CallIsSafeIff(w: World, current: string, hop: nat, maxRedirects: int, maxBytes: int)
    ensures var log := Get(w, current, hop, maxRedirects, maxBytes).log;
            DialsSafe(w, log) <==> LookupsPass(w, log)
    decreases maxRedirects + 1 - hop
  {
    if hop <= maxRedirects {
      StepIsSafeIff(w, current, hop, maxBytes);
      hide HopStep, Blocked, LookupPasses;
      var step := HopStep(w, current, hop, maxBytes);
      if step.Follow? {
        CallIsSafeIff(w, step.next, hop + 1, maxRedirects, maxBytes);
        hide DialsSafe, LookupsPass;
        SafetyConcat(w, step.events, Get(w, step.next, hop + 1, maxRedirects, maxBytes).log);
      }
    }
  }

  function Requests(log: seq<Event>): nat {
    if log == [] then 0 else (if log[0].Requested? then 1 else 0) + Requests(log[1..])
  }

  function Redirects(log: seq<Event>): nat {
    if log == [] then 0 else (if log[0].Redirected? then 1 else 0) + Redirects(log[1..])
  }

  lemma {:induction false} CountConcat(a: seq<Event>, b: seq<Event>)
    ensures Requests(a + b) == Requests(a) + Requests(b)
    ensures Redirects(a + b) == Redirects(a) + Redirects(b)
    decreases |a|
  {
    if a == [] {
      assert a + b == b;
    } else {
      assert (a + b)[1..] == a[1..] + b;
      CountConcat(a[1..], b);
    }
  }

  lemma OneEvent(e: Event)
    ensures Requests([e]) == (if e.Requested? then 1 else 0)
    ensures Redirects([e]) == (if e.Redirected? then 1 else 0)
  {
    assert [e][1..] == [];
  }

  lemma FetchCounts(w: World, h: nat, url: Url, maxBytes: int)
    ensures Requests(FetchHop(w, h, url, maxBytes).log) == 1 && Redirects(FetchHop(w, h, url, maxBytes).log) == 0
  {
    var log := FetchHop(w, h, url, maxBytes).log;
    hide ValidatedLookup, Answer, Offered, Unbracketed;
    assert log == [log[0]] + log[1..];
    CountConcat([log[0]], log[1..]);
    OneEvent(log[0]);
    if |log| == 2 {
      assert log[1..] == [log[1]];
      OneEvent(log[1]);
    }
  }

  lemma StepCounts(w: World, current: string, hop: nat, maxBytes: int)
    ensures var step := HopStep(w, current, hop, maxBytes);
            && Requests(step.events) == (if Inspect(w, hop, current).Ok? then 1 else 0)
            && Redirects(step.events) == (if step.Follow? then 1 else 0)
            && (step.Done? ==> step.outcome.diagnostic.redirectCount == hop)
  {
    var inspected := Inspect(w, hop, current);
    if inspected.Ok? {
      var url := inspected.value.url;
      var f := FetchHop(w, hop, url, maxBytes);
      FetchCounts(w, hop, url, maxBytes);
      OneEvent(Approved(hop, url));
      CountConcat([Approved(hop, url)], f.log);
      hide FetchHop, Inspect, NextUrl, Requests, Redirects, NE.ClassifyNetworkError, IpGuard.Lower;
      if f.result.Ok? {
        var events := [Approved(hop, url)] + f.log;
        var answered := Answered(hop, f.result.value.status);
        OneEvent(answered);
        CountConcat(events, [answered]);
        OneEvent(Redirected(hop));
        CountConcat(events + [answered], [Redirected(hop)]);
      }
    }
  }

  /**
   At most maxRedirects + 1 fetches in all, and redirectCount is the number of redirects followed, unless the bound is
   already passed at the start (a negative maxRedirects): then nothing is fetched and it is maxRedirects + 1.
   */
  lemma {:induction false} FetchBudget(w: World, current: string, hop: nat, maxRedirects: int, maxBytes: int)
    ensures var r := Get(w, current, hop, maxRedirects, maxBytes);
            && (if hop <= maxRedirects then hop + Requests(r.log) <= maxRedirects + 1 else r.log == [])
            && r.outcome.diagnostic.redirectCount
               == (if hop <= maxRedirects + 1 then hop + Redirects(r.log) else maxRedirects + 1)
            && Redirects(r.log) <= Requests(r.log)
    decreases maxRedirects + 1 - hop
  {
    if hop <= maxRedirects {
      StepCounts(w, current, hop, maxBytes);
      var step := HopStep(w, current, hop, maxBytes);
      assert step.Follow? ==> Inspect(w, hop, current).Ok?;
      hide HopStep, Requests, Redirects, Inspect;
      if step.Follow? {
        FetchBudget(w, step.next, hop + 1, maxRedirects, maxBytes);
        CountConcat(step.events, Get(w, step.next, hop + 1, maxRedirects, maxBytes).log);
      }
    }
  }

  /** Once the limit of redirects is passed, the call ends as a transient redirect failure, whatever came before. */
  lemma {:induction false} TooManyIsTransient(w: World, current: string, hop: nat, maxRedirects: int, maxBytes: int)
    ensures var r := Get(w, current, hop, maxRedirects, maxBytes);
            hop + Redirects(r.log) > maxRedirects ==>
              r.outcome == Transient(Diagnostic(TRANSIENT, Some(NE.REDIRECT), Some("TOO_MANY_REDIRECTS"), None,
                                                maxRedirects + 1, None, false))
    decreases maxRedirects + 1 - hop
  {
    if hop <= maxRedirects {
      StepCounts(w, current, hop, maxBytes);
      var step := HopStep(w, current, hop, maxBytes);
      hide HopStep, Redirects, Inspect;
      if step.Follow? {
        TooManyIsTransient(w, step.next, hop + 1, maxRedirects, maxBytes);
        CountConcat(step.events, Get(w, step.next, hop + 1, maxRedirects, maxBytes).log);
      }
    }
  }

  // ---------- the outcome and its stored diagnostic ----------

  predicate KindMatches(o: Outcome) {
    match o.diagnostic.final
    case OK => o.Html?
    case TRANSIENT => o.Transient?
    case INVALID => o.Invalid?
    case POLICY_BLOCKED => o.PolicyBlocked?
  }

  predicate WireStatus(s: nat) { 100 <= s <= 599 }

  /** The CHECK constraints of website_verification_attempts that a diagnostic can break. */
  predicate Storable(d: Diagnostic) {
    && (d.httpStatus.None? || WireStatus(d.httpStatus.value))
    && d.redirectCount >= 0
    && (d.family.None? || d.family.value in {4, 6})
    && (d.final == OK ==> d.stage.None? && d.errorCode.None?)
  }

  ghost predicate OnlyWireStatuses(log: seq<Event>) {
    forall i :: 0 <= i < |log| && log[i].Answered? ==> WireStatus(log[i].status)
  }

  lemma FetchAnswersNothing(w: World, h: nat, url: Url, maxBytes: int)
    ensures forall i :: 0 <= i < |FetchHop(w, h, url, maxBytes).log| ==> !FetchHop(w, h, url, maxBytes).log[i].Answered?
  {
    hide ValidatedLookup, Answer, Offered, Unbracketed;
  }

  lemma SettledIsStorable(w: World, res: HopResult, url: Url, hop: nat, family: Option<nat>)
    requires family.None? || family.value in {4, 6}
    ensures var o := Settled(w, res, url, hop, family);
            KindMatches(o) && (Storable(o.diagnostic) <==> WireStatus(res.status))
            && (o.Html? ==> o.html == res.body && !(400 <= res.status <= 599))
  {
    hide IpGuard.Lower;
  }

  /** What a completed response that is not a redirect becomes, by status and content type alone. */
  lemma SettledKind(w: World, res: HopResult, url: Url, hop: nat, family: Option<nat>)
    ensures var o := Settled(w, res, url, hop, family);
            && (o.Transient? <==> res.status == 429 || 500 <= res.status <= 599)
            && (o.Invalid? <==> 400 <= res.status <= 499 && res.status != 429)
            && (o.PolicyBlocked? <==> !(400 <= res.status <= 599)
                                      && !(&& res.contentType.Some? && res.contentType.value != ""
                                           && w.isHtml(res.contentType.value)))
            && (o.diagnostic.retryable <==> o.Transient?)
            && o.diagnostic.httpStatus == Some(res.status)
            && (o.Html? ==> o.finalUrl == url.text)
            && (o.diagnostic.stage, o.diagnostic.errorCode)
               == (if res.status == 429 then (Some(NE.HTTP), Some("HTTP_429"))
                   else if 500 <= res.status <= 599 then (Some(NE.HTTP), Some("HTTP_5XX"))
                   else if 400 <= res.status <= 499 then (Some(NE.HTTP), Some("HTTP_4XX"))
                   else if o.Html? then (None, None)
                   else (Some(NE.POLICY), Some("NON_HTML_RESPONSE")))
  {
    hide IpGuard.Lower;
  }

  lemma FailedIsStorable(w: World, e: HopError, hop: nat, family: Option<nat>)
    requires family.None? || family.value in {4, 6}
    ensures var o := Failed(w, e, hop, family);
            KindMatches(o) && Storable(o.diagnostic) && !o.Html?
  {
    hide NE.ClassifyNetworkError;
  }

  lemma InspectedFamily(w: World, h: nat, raw: string)
    requires Inspect(w, h, raw).Ok?
    ensures Inspect(w, h, raw).value.family.None? || Inspect(w, h, raw).value.family.value in {4, 6}
  {
    hide Approvable, AddressesOf;
  }

  lemma StepIsStorable(w: World, current: string, hop: nat, maxBytes: int)
    ensures var step := HopStep(w, current, hop, maxBytes);
            match step
            case Done(o, events) => KindMatches(o) && (Storable(o.diagnostic) <==> OnlyWireStatuses(events))
            case Follow(_, events) => OnlyWireStatuses(events)
  {
    var inspected := Inspect(w, hop, current);
    if inspected.Err? {
      FailedIsStorable(w, inspected.error, hop, None);
    } else {
      var url, family := inspected.value.url, inspected.value.family;
      InspectedFamily(w, hop, current);
      FetchAnswersNothing(w, hop, url, maxBytes);
      var f := FetchHop(w, hop, url, maxBytes);
      var events := [Approved(hop, url)] + f.log;
      hide FetchHop, Inspect, NextUrl, Settled, Failed;
      assert OnlyWireStatuses(events);
      if f.result.Err? {
        FailedIsStorable(w, f.result.error, hop, family);
      } else {
        var all := events + [Answered(hop, f.result.value.status)];
        assert all[|events|] == Answered(hop, f.result.value.status);
        assert OnlyWireStatuses(all) <==> WireStatus(f.result.value.status);
        SettledIsStorable(w, f.result.value, url, hop, family);
      }
    }
  }

  /**
   The outcome's kind and the diagnostic's classification correspond one to one, and the diagnostic satisfies the
   table's constraints exactly when every status received is between 100 and 599 and maxRedirects is at least -1.
   */
  lemma {:induction false} DiagnosticIsStorable(w: World, current: string, hop: nat, maxRedirects: int, maxBytes: int)
    ensures var r := Get(w, current, hop, maxRedirects, maxBytes);
            && KindMatches(r.outcome)
            && (Storable(r.outcome.diagnostic) <==> OnlyWireStatuses(r.log) && maxRedirects >= -1)
    decreases maxRedirects + 1 - hop
  {
    GetUnfolds(w, current, hop, maxRedirects, maxBytes);
    hide *;
    if hop <= maxRedirects {
      StepIsStorable(w, current, hop, maxBytes);
      var step := HopStep(w, current, hop, maxBytes);
      if step.Follow? {
        DiagnosticIsStorable(w, step.next, hop + 1, maxRedirects, maxBytes);
        StatusesConcat(step.events, Get(w, step.next, hop + 1, maxRedirects, maxBytes).log);
      }
    } else {
      LimitIsStorable(maxRedirects);
    }
  }

  lemma GetUnfolds(w: World, current: string, hop: nat, maxRedirects: int, maxBytes: int)
    ensures var r, step := Get(w, current, hop, maxRedirects, maxBytes), HopStep(w, current, hop, maxBytes);
            if hop > maxRedirects then r == Run(TooManyRedirects(maxRedirects), [])
            else match step
                 case Done(outcome, events) => r == Run(outcome, events)
                 case Follow(next, events) =>
                   var rest := Get(w, next, hop + 1, maxRedirects, maxBytes);
                   r.outcome == rest.outcome && r.log == events + rest.log
  {
    hide HopStep, TooManyRedirects;
  }

  lemma LimitIsStorable(maxRedirects: int)
    ensures KindMatches(TooManyRedirects(maxRedirects)) && OnlyWireStatuses([])
    ensures Storable(TooManyRedirects(maxRedirects).diagnostic) <==> maxRedirects >= -1
  {
  }

  lemma StatusesConcat(a: seq<Event>, b: seq<Event>)
    ensures OnlyWireStatuses(a + b) <==> OnlyWireStatuses(a) && OnlyWireStatuses(b)
  {
    if OnlyWireStatuses(a + b) {
      assert forall i :: 0 <= i < |a| ==> (a + b)[i] == a[i];
      assert forall i :: 0 <= i < |b| ==> (a + b)[|a| + i] == b[i];
    }
  }

  lemma AnswerIsCapped(w: World, h: nat, url: Url, maxBytes: int)
    ensures var r := FetchHop(w, h, url, maxBytes).result;
            r.Ok? ==> |r.value.body| <= maxBytes || r.value.body == []
  {
    hide ValidatedLookup, Offered, Unbracketed;
  }

  /** A page is returned only within the byte cap, and never for a 3xx, 4xx or 5xx status. */
  lemma {:induction false} PageIsCapped(w: World, current: string, hop: nat, maxRedirects: int, maxBytes: int)
    ensures var o := Get(w, current, hop, maxRedirects, maxBytes).outcome;
            o.Html? ==> (|o.html| <= maxBytes || o.html == []) && !(300 <= o.status <= 599)
    decreases maxRedirects + 1 - hop
  {
    if hop <= maxRedirects {
      var inspected := Inspect(w, hop, current);
      if inspected.Ok? {
        AnswerIsCapped(w, hop, inspected.value.url, maxBytes);
      }
      var step := HopStep(w, current, hop, maxBytes);
      hide FetchHop, Inspect, NextUrl, NE.ClassifyNetworkError, IpGuard.Lower;
      if step.Follow? { PageIsCapped(w, step.next, hop + 1, maxRedirects, maxBytes); }
    }
  }

  // ---------- the outcome as a function of the last answer ----------

  /**
   A call that ends on an answered request is judged by that status: 429 and 5xx are transient, other 3xx and 4xx
   invalid, and the rest a page or a policy matter; a call that ends otherwise never yields a page, an invalid outcome
   or a status.
   */
  predicate JudgedByLastAnswer(o: Outcome, log: seq<Event>) {
    if log != [] && log[|log| - 1].Answered? then
      var s := log[|log| - 1].status;
      && (o.Transient? <==> s == 429 || 500 <= s <= 599)
      && (o.Invalid? <==> 300 <= s <= 499 && s != 429)
      && (o.diagnostic.retryable <==> o.Transient?)
      && o.diagnostic.httpStatus == Some(s)
      && (o.diagnostic.stage, o.diagnostic.errorCode)
         == (if s == 429 then (Some(NE.HTTP), Some("HTTP_429"))
             else if 500 <= s <= 599 then (Some(NE.HTTP), Some("HTTP_5XX"))
             else if 400 <= s <= 499 then (Some(NE.HTTP), Some("HTTP_4XX"))
             else if 300 <= s <= 399 then (Some(NE.REDIRECT), Some("INVALID_REDIRECT_LOCATION"))
             else if o.Html? then (None, None)
             else (Some(NE.POLICY), Some("NON_HTML_RESPONSE")))
    else
      && (o.Transient? || o.PolicyBlocked?) && o.diagnostic.httpStatus == None
      && (o.PolicyBlocked? ==> o.diagnostic.stage == Some(NE.POLICY) && o.diagnostic.errorCode == Some("POLICY_BLOCKED")
                               && !o.diagnostic.retryable)
  }

  lemma StepIsJudged(w: World, current: string, hop: nat, maxBytes: int)
    ensures match HopStep(w, current, hop, maxBytes)
            case Done(o, events) => JudgedByLastAnswer(o, events)
            case Follow(_, events) => events != [] && events[|events| - 1].Redirected?
  {
    StepCases(w, current, hop, maxBytes);
    var inspected := Inspect(w, hop, current);
    if inspected.Ok? {
      var url, family := inspected.value.url, inspected.value.family;
      FetchAnswersNothing(w, hop, url, maxBytes);
      var f := FetchHop(w, hop, url, maxBytes);
      hide HopStep, FetchHop, Inspect, NextUrl, Settled, NE.ClassifyNetworkError;
      if f.result.Ok? { SettledKind(w, f.result.value, url, hop, family); }
    }
    hide NE.ClassifyNetworkError;
  }

  /** The whole call: its outcome follows the last status answered, wherever in the chain of redirects that was. */
  lemma {:induction false} CallIsJudged(w: World, current: string, hop: nat, maxRedirects: int, maxBytes: int)
    ensures var r := Get(w, current, hop, maxRedirects, maxBytes);
            JudgedByLastAnswer(r.outcome, r.log)
    decreases maxRedirects + 1 - hop
  {
    GetUnfolds(w, current, hop, maxRedirects, maxBytes);
    if hop <= maxRedirects {
      StepIsJudged(w, current, hop, maxBytes);
      hide HopStep, Get, TooManyRedirects;
      var step := HopStep(w, current, hop, maxBytes);
      if step.Follow? {
        CallIsJudged(w, step.next, hop + 1, maxRedirects, maxBytes);
        JudgedAfter(step.events, Get(w, step.next, hop + 1, maxRedirects, maxBytes));
        hide JudgedByLastAnswer;
      }
    } else {
      hide Get;
    }
  }

  /** What comes before does not matter as long as it does not end on an answer. */
  lemma JudgedAfter(before: seq<Event>, rest: Run)
    requires JudgedByLastAnswer(rest.outcome, rest.log) && before != [] && !before[|before| - 1].Answered?
    ensures JudgedByLastAnswer(rest.outcome, before + rest.log)
  {
    var all := before + rest.log;
    assert all[|all| - 1] == if rest.log == [] then before[|before| - 1] else rest.log[|rest.log| - 1];
  }
}
