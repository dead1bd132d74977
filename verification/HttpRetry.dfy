/** Bounded retries with exponential backoff (src/utils/http.ts). */
module HttpRetry {
  import opened Wrappers
  import opened Bits

  /** What one request comes back with: a parsed body, a status that is not ok, or a network, abort or parse error. */
  datatype Reply<T> = Body(value: T) | NotOk(status: int, statusText: string) | Threw(message: string)

  datatype Cause = HttpError(status: int, statusText: string) | OtherError(message: string) | NothingThrown

  datatype Failure = Rethrown(cause: Cause) | HttpRequestFailed(last: Cause)

  datatype Step = Request(attempt: nat) | Sleep(ms: int)

  predicate IsRetriableStatus(status: int) { status == 429 || status >= 500 }

  /** The sleep after attempt n. */
  function Delay(backoff: int, n: nat): int {
    backoff * Pow2(n)
  }

  /** Replies that end the loop whatever the budget: success, or a status outside 429 and 5xx. */
  predicate Ends<T>(r: Reply<T>) {
    r.Body? || (r.NotOk? && !IsRetriableStatus(r.status))
  }

  /** The attempt the loop stops on. */
  function FinalAttempt<T>(server: nat -> Reply<T>, attempt: nat, maxRetries: nat): nat
    requires attempt <= maxRetries
    decreases maxRetries - attempt
  {
    if Ends(server(attempt)) || attempt == maxRetries then attempt else FinalAttempt(server, attempt + 1, maxRetries)
  }

  function Verdict<T>(r: Reply<T>): Result<T, Failure> {
    match r
    case Body(v) => Ok(v)
    case NotOk(status, text) =>
      Err(if IsRetriableStatus(status) then HttpRequestFailed(HttpError(status, text))
          else Rethrown(HttpError(status, text)))
    case Threw(m) => Err(HttpRequestFailed(OtherError(m)))
  }

  /** The steps of a run that stops on attempt k: one sleep between consecutive requests, doubling each time. */
  function Schedule(k: nat, backoff: int): seq<Step> {
    if k == 0 then [Request(0)] else Schedule(k - 1, backoff) + [Sleep(Delay(backoff, k - 1)), Request(k)]
  }

  method PostJson<T>(server: nat -> Reply<T>, maxRetries: int, backoff: int)
    returns (r: Result<T, Failure>, log: seq<Step>)
    ensures maxRetries < 0 ==> log == [] && r == Err(HttpRequestFailed(NothingThrown))
    ensures maxRetries >= 0 ==>
              var k := FinalAttempt(server, 0, maxRetries);
              log == Schedule(k, backoff) && r == Verdict(server(k))
  {
    log := [];
    var lastError := NothingThrown;
    var attempt := 0;
    while attempt <= maxRetries
      invariant 0 <= attempt
      invariant attempt == 0 ==> log == [] && lastError == NothingThrown
      invariant attempt > 0 ==> log == Schedule(attempt - 1, backoff) + [Sleep(Delay(backoff, attempt - 1))]
      invariant attempt > 0 ==> attempt <= maxRetries
      invariant maxRetries >= 0 ==> FinalAttempt(server, 0, maxRetries) == FinalAttempt(server, attempt, maxRetries)
      decreases maxRetries - attempt
    {
      log := log + [Request(attempt)];
      assert log == Schedule(attempt, backoff);
      var res := server(attempt);
      match res {
        case Body(v) =>
          return Ok(v), log;
        case NotOk(status, text) =>
          if IsRetriableStatus(status) && attempt < maxRetries {
            lastError := HttpError(status, "");
            log := log + [Sleep(Delay(backoff, attempt))];
            attempt := attempt + 1;
            continue;
          }
          lastError := HttpError(status, text);
          if !IsRetriableStatus(status) { return Err(Rethrown(lastError)), log; }
        case Threw(m) =>
          lastError := OtherError(m);
      }
      if attempt >= maxRetries {
        return Err(HttpRequestFailed(lastError)), log;
      }
      log := log + [Sleep(Delay(backoff, attempt))];
      attempt := attempt + 1;
    }
    r := Err(HttpRequestFailed(lastError));
  }

  // ---------- what a run amounts to ----------

  function Requests(log: seq<Step>): nat {
    if log == [] then 0 else Requests(log[..|log| - 1]) + if log[|log| - 1].Request? then 1 else 0
  }

  function Slept(log: seq<Step>): int {
    if log == [] then 0 else Slept(log[..|log| - 1]) + if log[|log| - 1].Sleep? then log[|log| - 1].ms else 0
  }

  lemma {:induction false} LogSnoc(log: seq<Step>, s: Step, t: Step)
    ensures Requests(log + [s, t]) == Requests(log) + (if s.Request? then 1 else 0) + (if t.Request? then 1 else 0)
    ensures Slept(log + [s, t]) == Slept(log) + (if s.Sleep? then s.ms else 0) + (if t.Sleep? then t.ms else 0)
  {
    assert (log + [s, t])[..|log| + 1] == log + [s];
    assert (log + [s])[..|log|] == log;
  }

  lemma DelayDoubles(backoff: int, n: nat)
    ensures Delay(backoff, n + 1) == 2 * Delay(backoff, n)
    ensures Delay(backoff, 0) == backoff
  {
    var p := Pow2(n);
    assert backoff * (2 * p) == 2 * (backoff * p);
  }

  /**
   Stopping on attempt k costs k + 1 requests, k sleeps and backoff * 2^k - backoff ms asleep; the last step is a
   request.
   */
  lemma {:induction false} ScheduleCost(k: nat, backoff: int)
    ensures Requests(Schedule(k, backoff)) == k + 1
    ensures |Schedule(k, backoff)| == 2 * k + 1
    ensures Slept(Schedule(k, backoff)) == backoff * Pow2(k) - backoff
    ensures Schedule(k, backoff)[2 * k] == Request(k)
    decreases k
  {
    assert Delay(backoff, k) == backoff * Pow2(k);
    hide Delay, Pow2;
    if k == 0 {
      DelayDoubles(backoff, 0);
      assert [Request(0)][..0] == [];
    } else {
      hide Requests, Slept;
      assert Delay(backoff, k - 1) == backoff * Pow2(k - 1) by { DelayIs(backoff, k - 1); }
      ScheduleCost(k - 1, backoff);
      LogSnoc(Schedule(k - 1, backoff), Sleep(Delay(backoff, k - 1)), Request(k));
      DelayDoubles(backoff, k - 1);
    }
  }

  lemma DelayIs(backoff: int, n: nat)
    ensures Delay(backoff, n) == backoff * Pow2(n)
  {
  }

  /** The final attempt is the first that ends the loop, or the last the budget allows when none does. */
  lemma {:induction false} FinalAttemptIsFirstEnd<T>(server: nat -> Reply<T>, attempt: nat, maxRetries: nat)
    requires attempt <= maxRetries
    ensures var k := FinalAttempt(server, attempt, maxRetries);
            && attempt <= k <= maxRetries
            && (forall i: nat :: attempt <= i < k ==> !Ends(server(i)))
            && (Ends(server(k)) || k == maxRetries)
    decreases maxRetries - attempt
  {
    if !Ends(server(attempt)) && attempt != maxRetries { FinalAttemptIsFirstEnd(server, attempt + 1, maxRetries); }
  }

  /** A reply worth another attempt: an error before or while reading it, or a status of 429 or from 500 up. */
  predicate WorthRetrying<T>(r: Reply<T>) {
    r.Threw? || (r.NotOk? && (r.status == 429 || r.status >= 500))
  }

  /**
   Which replies cost another request: attempt i + 1 is made exactly when the budget allows it and every reply up to i
   is an error, a 429 or a status from 500 up. What the last reply is decides what the caller gets.
   */
  lemma NextRequestIff<T>(server: nat -> Reply<T>, maxRetries: nat, i: nat)
    ensures var k := FinalAttempt(server, 0, maxRetries);
            && (i < k <==> i < maxRetries && forall j: nat :: j <= i ==> WorthRetrying(server(j)))
            && Verdict(server(k)) == match server(k)
                                     case Body(v) => Ok(v)
                                     case Threw(m) => Err(HttpRequestFailed(OtherError(m)))
                                     case NotOk(status, text) =>
                                       if status == 429 || status >= 500
                                       then Err(HttpRequestFailed(HttpError(status, text)))
                                       else Err(Rethrown(HttpError(status, text)))
  {
    FinalAttemptIsFirstEnd(server, 0, maxRetries);
    assert forall j: nat :: Ends(server(j)) <==> !WorthRetrying(server(j));
    hide FinalAttempt, Ends, WorthRetrying;
  }

  /** The steps in order: request 0, then before request i + 1 a sleep of backoff * 2^i. */
  lemma {:induction false} ScheduleAt(k: nat, backoff: int, i: nat)
    requires i <= k
    ensures |Schedule(k, backoff)| == 2 * k + 1
    ensures Schedule(k, backoff)[2 * i] == Request(i)
    ensures i < k ==> Schedule(k, backoff)[2 * i + 1] == Sleep(backoff * Pow2(i))
    decreases k
  {
    hide Pow2;
    if k > 0 {
      ScheduleAt(k - 1, backoff, if i < k then i else i - 1);
      if i == k - 1 { DelayIs(backoff, i); }
    }
  }

  /** A run ends in HTTP_REQUEST_FAILED exactly when every one of the maxRetries + 1 replies is retriable. */
  lemma ExhaustedIffAllRetriable<T>(server: nat -> Reply<T>, maxRetries: nat)
    ensures var k := FinalAttempt(server, 0, maxRetries);
            (Verdict(server(k)).Err? && Verdict(server(k)).error.HttpRequestFailed?)
            <==> forall i: nat :: i <= maxRetries ==> !Ends(server(i))
  {
    FinalAttemptIsFirstEnd(server, 0, maxRetries);
  }

  /**
   More patience never loses an answer: a run that ended on a body or a fatal status takes the same steps and ends the
   same way under any larger budget.
   */
  lemma {:induction false} PatienceKeepsAnswers<T>(server: nat -> Reply<T>, attempt: nat, maxRetries: nat, more: nat)
    requires attempt <= maxRetries <= more
    requires Ends(server(FinalAttempt(server, attempt, maxRetries)))
    ensures FinalAttempt(server, attempt, more) == FinalAttempt(server, attempt, maxRetries)
    decreases maxRetries - attempt
  {
    if !Ends(server(attempt)) && attempt != maxRetries { PatienceKeepsAnswers(server, attempt + 1, maxRetries, more); }
  }
}
