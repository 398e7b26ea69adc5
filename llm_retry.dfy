/**
 * The retry schedule of `call_llm_api`, which the second PR summary backend
 * and the second code search backend share line for line. The POST, the JSON
 * decoding and `time.sleep` are outside the model: what each attempt came to
 * is a parameter, `respond(attempt)`, and the method reports the answer, how
 * many requests it made and the seconds it slept between them, in order.
 */
module LlmRetry {
  import opened Wrappers
  import opened Text

  /** What one request to the chat-completions endpoint came to. */
  datatype Outcome =
    | Reply(content: string)   // a response whose `choices` list is non-empty; the first choice's content
    | NoChoices                // a response without `choices`, or with an empty list
    | TimedOut                 // `requests.exceptions.Timeout`
    | HttpError(status: int)   // `raise_for_status()` on an error status
    | RequestError             // any other `requests.exceptions.RequestException`

  /** The failures after which another attempt follows, unless this was the last one. */
  predicate Retriable(o: Outcome) {
    o.TimedOut? || o.RequestError? || (o.HttpError? && o.status != 401)
  }

  /** `2 ** n`. */
  function Pow2(n: nat): (r: nat)
    ensures r >= 1
  {
    if n == 0 then 1 else 2 * Pow2(n - 1)
  }

  /** The seconds slept after a retriable failure of attempt `attempt` (counted from 0). */
  function WaitAfter(o: Outcome, attempt: nat): nat {
    if o.HttpError? && o.status == 429 then 5 * (attempt + 1) else Pow2(attempt)
  }

  /** What a call did: its answer, the number of requests made and the sleeps between them. */
  datatype Call = Call(answer: Option<string>, requests: nat, waits: seq<nat>)

  /**
   * The call from attempt `attempt` on: a reply ends it with the stripped
   * content; an answer without choices, a 401 and the last attempt's failure
   * end it with nothing; any other failure sleeps and tries again.
   */
  function Attempts(respond: nat -> Outcome, maxRetries: int, attempt: nat): Call
    decreases maxRetries - attempt
  {
    if maxRetries <= attempt then Call(None, 0, [])
    else
      var o := respond(attempt);
      if o.Reply? then Call(Some(Strip(o.content)), 1, [])
      else if !Retriable(o) || attempt == maxRetries - 1 then Call(None, 1, [])
      else
        var later := Attempts(respond, maxRetries, attempt + 1);
        Call(later.answer, later.requests + 1, [WaitAfter(o, attempt)] + later.waits)
  }

  /** The requests made and the sleeps taken so far, followed by the rest of the call. */
  function After(waits: seq<nat>, rest: Call): Call {
    Call(rest.answer, |waits| + rest.requests, waits + rest.waits)
  }

  /** `call_llm_api`: `for attempt in range(max_retries)` with its `try`/`except` ladder. */
  method CallLlmApi(respond: nat -> Outcome, maxRetries: int) returns (answer: Option<string>, requests: nat, waits: seq<nat>)
    ensures Call(answer, requests, waits) == Attempts(respond, maxRetries, 0)
  {
    answer, requests, waits := None, 0, [];
    var rounds := if maxRetries < 0 then 0 else maxRetries;
    for attempt := 0 to rounds
      invariant requests == attempt == |waits|
      invariant Attempts(respond, maxRetries, 0) == After(waits, Attempts(respond, maxRetries, attempt))
    {
      var outcome := respond(attempt);
      requests := requests + 1;
      StopStep(respond, maxRetries, attempt, waits);
      match outcome {
        case Reply(content) =>
          answer := Some(Strip(content));
          return;
        case NoChoices =>
          return;
        case TimedOut =>
          if attempt < maxRetries - 1 {
            RetryStep(respond, maxRetries, attempt, waits);
            waits := waits + [Pow2(attempt)];
          } else {
            return;
          }
        case HttpError(status) =>
          if status == 429 {
            if attempt < maxRetries - 1 {
              RetryStep(respond, maxRetries, attempt, waits);
              waits := waits + [5 * (attempt + 1)];
            } else {
              return;
            }
          } else if status == 401 {
            return;
          } else {
            if attempt < maxRetries - 1 {
              RetryStep(respond, maxRetries, attempt, waits);
              waits := waits + [Pow2(attempt)];
            } else {
              return;
            }
          }
        case RequestError =>
          if attempt < maxRetries - 1 {
            RetryStep(respond, maxRetries, attempt, waits);
            waits := waits + [Pow2(attempt)];
          } else {
            return;
          }
      }
    }
  }

  /** A retriable failure before the last attempt: one more sleep, then the call goes on. */
  lemma RetryStep(respond: nat -> Outcome, maxRetries: int, attempt: nat, waits: seq<nat>)
    requires attempt < maxRetries - 1 && Retriable(respond(attempt))
    ensures After(waits, Attempts(respond, maxRetries, attempt)) ==
      After(waits + [WaitAfter(respond(attempt), attempt)], Attempts(respond, maxRetries, attempt + 1))
  {
    var later := Attempts(respond, maxRetries, attempt + 1);
    assert waits + ([WaitAfter(respond(attempt), attempt)] + later.waits) ==
      (waits + [WaitAfter(respond(attempt), attempt)]) + later.waits;
  }

  /** A reply, a stop or the last attempt: the call ends with this request and no further sleep. */
  lemma StopStep(respond: nat -> Outcome, maxRetries: int, attempt: nat, waits: seq<nat>)
    requires attempt < maxRetries
    ensures respond(attempt).Reply? ==>
      After(waits, Attempts(respond, maxRetries, attempt)) == Call(Some(Strip(respond(attempt).content)), |waits| + 1, waits)
    ensures !respond(attempt).Reply? && (!Retriable(respond(attempt)) || attempt == maxRetries - 1) ==>
      After(waits, Attempts(respond, maxRetries, attempt)) == Call(None, |waits| + 1, waits)
  {
    assert waits + [] == waits;
  }

  /**
   * The size of every call: no more requests than attempts left, and one
   * sleep between each two requests and none after the last.
   */
  lemma {:induction false} AttemptsCount(respond: nat -> Outcome, maxRetries: int, attempt: nat)
    ensures attempt < maxRetries ==> 1 <= Attempts(respond, maxRetries, attempt).requests <= maxRetries - attempt
    ensures maxRetries <= attempt ==> Attempts(respond, maxRetries, attempt) == Call(None, 0, [])
    ensures |Attempts(respond, maxRetries, attempt).waits| ==
      if Attempts(respond, maxRetries, attempt).requests == 0 then 0 else Attempts(respond, maxRetries, attempt).requests - 1
    decreases maxRetries - attempt
  {
    if attempt < maxRetries {
      var o := respond(attempt);
      if !o.Reply? && Retriable(o) && attempt != maxRetries - 1 {
        AttemptsCount(respond, maxRetries, attempt + 1);
      }
    }
  }

  /** Every sleep follows a retriable failure, and lasts what the schedule gives that failure. */
  lemma {:induction false} AttemptsWaits(respond: nat -> Outcome, maxRetries: int, attempt: nat, i: nat)
    requires i < |Attempts(respond, maxRetries, attempt).waits|
    ensures Retriable(respond(attempt + i))
    ensures Attempts(respond, maxRetries, attempt).waits[i] == WaitAfter(respond(attempt + i), attempt + i)
    decreases maxRetries - attempt
  {
    var o := respond(attempt);
    var later := Attempts(respond, maxRetries, attempt + 1);
    assert Attempts(respond, maxRetries, attempt).waits == [WaitAfter(o, attempt)] + later.waits;
    if i > 0 {
      AttemptsWaits(respond, maxRetries, attempt + 1, i - 1);
      assert attempt + 1 + (i - 1) == attempt + i;
    }
  }

  /** An answer comes only from a reply, the last request made, and is its stripped content. */
  lemma {:induction false} AttemptsAnswer(respond: nat -> Outcome, maxRetries: int, attempt: nat)
    requires Attempts(respond, maxRetries, attempt).answer.Some?
    ensures Attempts(respond, maxRetries, attempt).requests >= 1
    ensures respond(attempt + Attempts(respond, maxRetries, attempt).requests - 1).Reply?
    ensures Attempts(respond, maxRetries, attempt).answer ==
      Some(Strip(respond(attempt + Attempts(respond, maxRetries, attempt).requests - 1).content))
    decreases maxRetries - attempt
  {
    var o := respond(attempt);
    var now := Attempts(respond, maxRetries, attempt);
    if !o.Reply? {
      var later := Attempts(respond, maxRetries, attempt + 1);
      assert now == Call(later.answer, later.requests + 1, [WaitAfter(o, attempt)] + later.waits);
      AttemptsAnswer(respond, maxRetries, attempt + 1);
      assert attempt + 1 + later.requests - 1 == attempt + now.requests - 1;
    }
  }

  /**
   * Where a call stops: at the first attempt `k` that is not a retriable
   * failure, or at the last attempt. It has made `k + 1` requests and slept
   * `k` times, and answers the stripped reply if attempt `k` replied and
   * nothing otherwise (a 401, a response without choices, or a failure of the
   * last attempt).
   */
  lemma {:induction false} StopsAt(respond: nat -> Outcome, maxRetries: int, attempt: nat, k: nat)
    requires attempt <= k < maxRetries
    requires forall j :: attempt <= j < k ==> Retriable(respond(j))
    requires !Retriable(respond(k)) || k == maxRetries - 1
    ensures Attempts(respond, maxRetries, attempt).requests == k - attempt + 1
    ensures |Attempts(respond, maxRetries, attempt).waits| == k - attempt
    ensures Attempts(respond, maxRetries, attempt).answer ==
      if respond(k).Reply? then Some(Strip(respond(k).content)) else None
    decreases k - attempt
  {
    if attempt < k {
      assert Retriable(respond(attempt));
      StopsAt(respond, maxRetries, attempt + 1, k);
    }
  }

  /** The first reply, after retriable failures only, is the answer. */
  lemma FirstReplyAnswers(respond: nat -> Outcome, maxRetries: int, k: nat, content: string)
    requires k < maxRetries && respond(k) == Reply(content)
    requires forall j :: 0 <= j < k ==> Retriable(respond(j))
    ensures Attempts(respond, maxRetries, 0).answer == Some(Strip(content))
    ensures Attempts(respond, maxRetries, 0).requests == k + 1
  {
    StopsAt(respond, maxRetries, 0, k);
  }

  /** A 401 ends the call at once with nothing, with no sleep after it. */
  lemma UnauthorizedStops(respond: nat -> Outcome, maxRetries: int, k: nat)
    requires k < maxRetries && respond(k) == HttpError(401)
    requires forall j :: 0 <= j < k ==> Retriable(respond(j))
    ensures Attempts(respond, maxRetries, 0).answer == None
    ensures Attempts(respond, maxRetries, 0).requests == k + 1
    ensures |Attempts(respond, maxRetries, 0).waits| == k
  {
    StopsAt(respond, maxRetries, 0, k);
  }

  /**
   * When every attempt fails in a retriable way, all `max_retries` requests
   * are made, with a sleep between each two of them, and the answer is nothing.
   */
  lemma AllFailuresGiveUp(respond: nat -> Outcome, maxRetries: nat)
    requires maxRetries > 0
    requires forall j :: 0 <= j < maxRetries ==> Retriable(respond(j))
    ensures Attempts(respond, maxRetries, 0).answer == None
    ensures Attempts(respond, maxRetries, 0).requests == maxRetries
    ensures |Attempts(respond, maxRetries, 0).waits| == maxRetries - 1
    ensures forall i :: 0 <= i < maxRetries - 1 ==> Attempts(respond, maxRetries, 0).waits[i] == WaitAfter(respond(i), i)
  {
    StopsAt(respond, maxRetries, 0, maxRetries - 1);
    forall i | 0 <= i < maxRetries - 1
      ensures Attempts(respond, maxRetries, 0).waits[i] == WaitAfter(respond(i), i)
    {
      AttemptsWaits(respond, maxRetries, 0, i);
      assert 0 + i == i;
    }
  }

  /** A non-positive `max_retries` makes no request at all. */
  lemma NoRetriesNoRequest(respond: nat -> Outcome, maxRetries: int)
    requires maxRetries <= 0
    ensures Attempts(respond, maxRetries, 0) == Call(None, 0, [])
  {
  }

  /** The sleep schedule: a rate limit waits `5 * (attempt + 1)` seconds, every other retry `2 ** attempt`. */
  lemma WaitSchedule(respond: nat -> Outcome, maxRetries: int, i: nat)
    requires i < |Attempts(respond, maxRetries, 0).waits|
    ensures respond(i) == HttpError(429) ==> Attempts(respond, maxRetries, 0).waits[i] == 5 * (i + 1)
    ensures respond(i).TimedOut? || respond(i).RequestError? || (respond(i).HttpError? && respond(i).status != 429)
      ==> Attempts(respond, maxRetries, 0).waits[i] == Pow2(i)
    ensures respond(i) != HttpError(401) && !respond(i).Reply? && !respond(i).NoChoices?
  {
    AttemptsWaits(respond, maxRetries, 0, i);
    assert 0 + i == i;
  }
}
