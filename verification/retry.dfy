/** The retrying GET of the script. The network is replaced by the list of
    outcomes its successive attempts would have; an attempt past the end of
    that list fails with `Silent`. Sleeping is recorded, not performed: each
    wait is the integer multiplier of the base delay. */
module Retry {
  import opened Results
  import opened Json

  /** One attempt: the request or the JSON decoding failed with a message,
      or a body was decoded. */
  datatype Attempt = Failed(reason: string) | Received(body: Value)

  /** The error raised once every attempt has failed: the URL and the last
      failure, if there was any attempt at all. */
  datatype FetchError<U> = FetchError(url: U, lastError: Option<string>)

  /** The outcome, how many attempts were made and the backoff multipliers slept with. */
  datatype Fetched<U> = Fetched(outcome: Result<Value, FetchError<U>>, tries: nat, waits: seq<nat>)

  const Silent: Attempt := Failed("no response")

  function AttemptAt(attempts: seq<Attempt>, k: nat): Attempt {
    if k < |attempts| then attempts[k] else Silent
  }

  /** The multipliers 1, 2, ..., n. */
  function Ramp(n: nat): (ws: seq<nat>)
    ensures |ws| == n
    ensures forall i :: 0 <= i < n ==> ws[i] == i + 1
  {
    seq(n, i => i + 1)
  }

  /** Attempt `k` is the first to deliver a body among the first `limit` ones. */
  predicate FirstReceivedAt(attempts: seq<Attempt>, limit: int, k: nat) {
    && k < limit
    && k < |attempts|
    && attempts[k].Received?
    && forall i :: 0 <= i < k ==> attempts[i].Failed?
  }

  /** None of the first `limit` attempts delivers a body. */
  predicate NoneReceived(attempts: seq<Attempt>, limit: int) {
    forall i :: 0 <= i < limit && i < |attempts| ==> attempts[i].Failed?
  }

  function Max0(n: int): nat {
    if n > 0 then n else 0
  }

  /** The loop from attempt `k` on, after `k` failed attempts. */
  function Try<U>(url: U, retries: int, attempts: seq<Attempt>, k: nat,
                  last: Option<string>, waits: seq<nat>): (f: Fetched<U>)
    requires k <= Max0(retries)
    requires NoneReceived(attempts, k)
    requires k == 0 ==> last == None
    requires k > 0 ==> AttemptAt(attempts, k - 1).Failed? && last == Some(AttemptAt(attempts, k - 1).reason)
    requires waits == Ramp(if k < retries then k else Max0(retries - 1))
    ensures k <= f.tries <= Max0(retries)
    ensures f.outcome.Success? ==>
      && 1 <= f.tries
      && FirstReceivedAt(attempts, retries, f.tries - 1)
      && f.outcome.value == attempts[f.tries - 1].body
      && f.waits == Ramp(f.tries - 1)
    ensures f.outcome.Failure? ==>
      && NoneReceived(attempts, retries)
      && f.tries == Max0(retries)
      && f.waits == Ramp(Max0(retries - 1))
      && f.outcome.error.url == url
      && (retries <= 0 ==> f.outcome.error.lastError == None)
      && (retries > 0 ==>
            && AttemptAt(attempts, retries - 1).Failed?
            && f.outcome.error.lastError == Some(AttemptAt(attempts, retries - 1).reason))
    decreases retries - k
  {
    if k >= retries then
      Fetched(Failure(FetchError(url, last)), k, waits)
    else
      match AttemptAt(attempts, k)
      case Received(body) => Fetched(Success(body), k + 1, waits)
      case Failed(reason) =>
        var waits' := if k < retries - 1 then waits + [k + 1] else waits;
        assert k < retries - 1 ==> waits' == Ramp(k + 1);
        Try(url, retries, attempts, k + 1, Some(reason), waits')
  }

  /** At most `retries` attempts; the first body delivered is returned after
      one wait per earlier failure, with multipliers 1..k; if none is
      delivered, the error names the URL and the last failure, and there was
      no wait after the final attempt. */
  function Get<U>(url: U, retries: int, attempts: seq<Attempt>): (f: Fetched<U>)
    ensures f.tries <= Max0(retries)
    ensures f.outcome.Success? ==>
      && 1 <= f.tries
      && FirstReceivedAt(attempts, retries, f.tries - 1)
      && f.outcome.value == attempts[f.tries - 1].body
      && f.waits == Ramp(f.tries - 1)
    ensures f.outcome.Failure? ==>
      && NoneReceived(attempts, retries)
      && f.tries == Max0(retries)
      && f.waits == Ramp(Max0(retries - 1))
      && f.outcome.error.url == url
      && (retries <= 0 ==> f.outcome.error.lastError == None)
      && (retries > 0 ==>
            && AttemptAt(attempts, retries - 1).Failed?
            && f.outcome.error.lastError == Some(AttemptAt(attempts, retries - 1).reason))
  {
    Try(url, retries, attempts, 0, None, [])
  }

  /** Reference: the body of the first attempt, among the first `limit`,
      that delivers one. */
  function FirstBody(attempts: seq<Attempt>, limit: int): Option<Value> {
    if limit <= 0 || |attempts| == 0 then None
    else
      match attempts[0]
      case Received(body) => Some(body)
      case Failed(_) => FirstBody(attempts[1..], limit - 1)
  }

  lemma {:induction false} FirstBodyLocated(attempts: seq<Attempt>, limit: int)
    ensures FirstBody(attempts, limit).None? ==> NoneReceived(attempts, limit)
    ensures FirstBody(attempts, limit).Some? ==>
      exists k :: 0 <= k < |attempts| && FirstReceivedAt(attempts, limit, k) && attempts[k].body == FirstBody(attempts, limit).value
  {
    if limit <= 0 || |attempts| == 0 {
    } else if attempts[0].Received? {
      assert FirstReceivedAt(attempts, limit, 0);
    } else {
      var tail := attempts[1..];
      FirstBodyLocated(tail, limit - 1);
      if FirstBody(tail, limit - 1).None? {
        forall i | 0 <= i < limit && i < |attempts|
          ensures attempts[i].Failed?
        {
          if i > 0 {
            assert attempts[i] == tail[i - 1];
          }
        }
      } else {
        var k :| 0 <= k < |tail| && FirstReceivedAt(tail, limit - 1, k) && tail[k].body == FirstBody(tail, limit - 1).value;
        forall i | 0 <= i < k + 1
          ensures attempts[i].Failed?
        {
          if i > 0 {
            assert attempts[i] == tail[i - 1];
          }
        }
        assert FirstReceivedAt(attempts, limit, k + 1);
      }
    }
  }

  /** The retrying GET returns exactly the first delivered body within the
      limit, and fails exactly when there is none. */
  lemma GetReturnsFirstBody<U>(url: U, retries: int, attempts: seq<Attempt>)
    ensures FirstBody(attempts, retries).Some? ==>
      Get(url, retries, attempts).outcome == Success(FirstBody(attempts, retries).value)
    ensures FirstBody(attempts, retries).None? ==>
      Get(url, retries, attempts).outcome.Failure?
  {
    FirstBodyLocated(attempts, retries);
    if FirstBody(attempts, retries).Some? {
      var k :| 0 <= k < |attempts| && FirstReceivedAt(attempts, retries, k) && attempts[k].body == FirstBody(attempts, retries).value;
    }
  }
}
