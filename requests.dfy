/** make_req: a GET request retried while the server answers with an HTTP error status.

    The network is an oracle: outcome(i) is what attempt number i (counting from 0) meets. */
module Requests {
  import opened Errors

  /** What one attempt of requests.get followed by raise_for_status ends in. */
  datatype Attempt<T> =
    | Delivered(response: T) // a response with a success status
    | HttpFailure            // raise_for_status raised requests.HTTPError
    | OtherFailure           // requests.get raised something else (connection error, timeout, ...)

  /** The outcome of make_req, with the number of attempts made and of one-second sleeps taken. */
  datatype Reply<T> = Reply(result: Result<T>, attempts: nat, sleeps: nat)

  /** The loop of make_req from attempt i on, attempts and sleeps counted from i. */
  function RetryFrom<T>(outcome: nat -> Attempt<T>, maxAttempts: int, i: nat): (r: Reply<T>)
    ensures r.attempts == 0 <==> i > maxAttempts
    ensures i <= maxAttempts ==> r.attempts <= maxAttempts + 1 - i && r.sleeps == r.attempts - 1
    decreases maxAttempts - i
  {
    if i > maxAttempts then Reply(Err(HttpError), 0, 0)
    else match outcome(i)
      case Delivered(response) => Reply(Ok(response), 1, 0)
      case OtherFailure => Reply(Err(RequestError), 1, 0)
      case HttpFailure =>
        if i == maxAttempts then Reply(Err(HttpError), 1, 0)
        else
          var later := RetryFrom(outcome, maxAttempts, i + 1);
          Reply(later.result, later.attempts + 1, later.sleeps + 1)
  }

  /** make_req as a function of the oracle and max_attempts. */
  function Retry<T>(outcome: nat -> Attempt<T>, maxAttempts: int): (r: Reply<T>)
    ensures maxAttempts < 0 ==> r.attempts == 0
    ensures maxAttempts >= 0 ==> 1 <= r.attempts <= maxAttempts + 1 && r.sleeps == r.attempts - 1
  {
    RetryFrom(outcome, maxAttempts, 0)
  }

  /** After i attempts that all met an HTTP error, the rest of the run is the run from attempt i,
      with i more attempts and i more sleeps. */
  lemma {:induction false} RetryAfterHttpFailures<T>(outcome: nat -> Attempt<T>, maxAttempts: int, i: nat)
    requires i <= maxAttempts
    requires forall j :: 0 <= j < i ==> outcome(j).HttpFailure?
    ensures var later := RetryFrom(outcome, maxAttempts, i);
      Retry(outcome, maxAttempts) == Reply(later.result, later.attempts + i, later.sleeps + i)
  {
    if i > 0 {
      RetryAfterHttpFailures(outcome, maxAttempts, i - 1);
    }
  }

  /** The loop of make_req, attempt by attempt. */
  method MakeReq<T>(outcome: nat -> Attempt<T>, maxAttempts: int) returns (reply: Reply<T>)
    ensures reply == Retry(outcome, maxAttempts)
  {
    var i := 0;
    var sleeps := 0;
    while i < maxAttempts + 1
      invariant 0 <= i && (i == 0 || i <= maxAttempts)
      invariant sleeps == i
      invariant forall j :: 0 <= j < i ==> outcome(j).HttpFailure?
      decreases maxAttempts + 1 - i
    {
      RetryAfterHttpFailures(outcome, maxAttempts, i);
      match outcome(i) {
        case Delivered(response) =>
          return Reply(Ok(response), i + 1, sleeps);
        case OtherFailure =>
          return Reply(Err(RequestError), i + 1, sleeps);
        case HttpFailure =>
          if i == maxAttempts {
            return Reply(Err(HttpError), i + 1, sleeps);
          }
          sleeps := sleeps + 1;
      }
      i := i + 1;
    }
    reply := Reply(Err(HttpError), i, sleeps);
  }

  /** The attempts stop at the first one that did not meet an HTTP error, or after
      max_attempts + 1 attempts: every attempt before the last met an HTTP error, a delivered
      response is returned as it is, any other exception escapes at once, and an HTTP error is
      raised only by the final permitted attempt. One sleep separates consecutive attempts. */
  lemma {:induction false} RetryDecided<T>(outcome: nat -> Attempt<T>, maxAttempts: int)
    requires maxAttempts >= 0
    ensures var r := Retry(outcome, maxAttempts);
      var last := r.attempts - 1;
      1 <= r.attempts <= maxAttempts + 1 && r.sleeps == last
      && (forall j :: 0 <= j < last ==> outcome(j).HttpFailure?)
      && (outcome(last).Delivered? ==> r.result == Ok(outcome(last).response))
      && (outcome(last).OtherFailure? ==> r.result == Err(RequestError))
      && (outcome(last).HttpFailure? ==> last == maxAttempts && r.result == Err(HttpError))
  {
    RetryFromDecided(outcome, maxAttempts, 0);
  }

  lemma {:induction false} RetryFromDecided<T>(outcome: nat -> Attempt<T>, maxAttempts: int, i: nat)
    requires i <= maxAttempts
    ensures var r := RetryFrom(outcome, maxAttempts, i);
      var last := i + r.attempts - 1;
      1 <= r.attempts <= maxAttempts + 1 - i && r.sleeps == r.attempts - 1
      && (forall j :: i <= j < last ==> outcome(j).HttpFailure?)
      && (outcome(last).Delivered? ==> r.result == Ok(outcome(last).response))
      && (outcome(last).OtherFailure? ==> r.result == Err(RequestError))
      && (outcome(last).HttpFailure? ==> last == maxAttempts && r.result == Err(HttpError))
    decreases maxAttempts - i
  {
    if outcome(i).HttpFailure? && i < maxAttempts {
      RetryFromDecided(outcome, maxAttempts, i + 1);
    }
  }

  /** The first response delivered within the permitted attempts is the one returned. */
  lemma FirstDeliveryReturned<T>(outcome: nat -> Attempt<T>, maxAttempts: int, k: nat)
    requires k <= maxAttempts
    requires forall j :: 0 <= j < k ==> outcome(j).HttpFailure?
    requires outcome(k).Delivered?
    ensures Retry(outcome, maxAttempts) == Reply(Ok(outcome(k).response), k + 1, k)
  {
    RetryAfterHttpFailures(outcome, maxAttempts, k);
  }

  /** An exception other than an HTTP error is not retried. */
  lemma OtherFailureNotRetried<T>(outcome: nat -> Attempt<T>, maxAttempts: int, k: nat)
    requires k <= maxAttempts
    requires forall j :: 0 <= j < k ==> outcome(j).HttpFailure?
    requires outcome(k).OtherFailure?
    ensures Retry(outcome, maxAttempts) == Reply(Err(RequestError), k + 1, k)
  {
    RetryAfterHttpFailures(outcome, maxAttempts, k);
  }

  /** When every permitted attempt meets an HTTP error, the last one's error is re-raised after
      max_attempts + 1 attempts. */
  lemma AllHttpFailuresReraised<T>(outcome: nat -> Attempt<T>, maxAttempts: int)
    requires maxAttempts >= 0
    requires forall j :: 0 <= j <= maxAttempts ==> outcome(j).HttpFailure?
    ensures Retry(outcome, maxAttempts) == Reply(Err(HttpError), maxAttempts + 1, maxAttempts)
  {
    RetryAfterHttpFailures(outcome, maxAttempts, maxAttempts);
  }

  /** With a negative max_attempts the loop does not run and HTTPError is raised at once. */
  lemma NoAttemptsWhenNegative<T>(outcome: nat -> Attempt<T>, maxAttempts: int)
    requires maxAttempts < 0
    ensures Retry(outcome, maxAttempts) == Reply(Err(HttpError), 0, 0)
  {
  }

  /** The only exceptions make_req lets out are the HTTP error and the other request errors. */
  lemma RetryErrors<T>(outcome: nat -> Attempt<T>, maxAttempts: int)
    ensures var r := Retry(outcome, maxAttempts);
      r.result.Err? ==> r.result.error == HttpError || r.result.error == RequestError
  {
    if maxAttempts >= 0 {
      RetryDecided(outcome, maxAttempts);
    }
  }

  /** Only the first max_attempts + 1 outcomes matter: oracles that agree on them give the same
      reply. */
  lemma {:induction false} RetryIgnoresLaterOutcomes<T>(a: nat -> Attempt<T>, b: nat -> Attempt<T>, maxAttempts: int, i: nat)
    requires forall j :: i <= j <= maxAttempts ==> a(j) == b(j)
    ensures RetryFrom(a, maxAttempts, i) == RetryFrom(b, maxAttempts, i)
    decreases maxAttempts - i
  {
    if i < maxAttempts {
      RetryIgnoresLaterOutcomes(a, b, maxAttempts, i + 1);
    }
  }
}
