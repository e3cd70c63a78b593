/**
 * The shared cache client: its reconnect policy and the module-level client
 * reference that `initRedis` sets, the `'error'` handler clears and
 * `getRedisClient` hands out.
 */
module RedisConfig {
  import opened Wrappers

  /** The error code that makes the client give up at once. */
  const ConnectionRefused: string := "ECONNREFUSED"

  /** One hour, in milliseconds: the longest the client keeps reconnecting. */
  const MaxRetryTime: nat := 1000 * 60 * 60

  /** The last attempt that is still retried. */
  const MaxAttempts: nat := 10

  /** Milliseconds added to the delay per attempt, and the cap on the delay. */
  const DelayStep: nat := 100
  const DelayCap: nat := 3000

  /** Why reconnecting stops; each reason has its own warning. */
  datatype StopReason = Refused | RetryTimeExhausted | AttemptsExhausted

  /** What `retry_strategy` returns: `undefined` (stop) or a delay in milliseconds. */
  datatype RetryDecision = Stop(reason: StopReason) | RetryAfter(delay: nat)

  function Min(a: int, b: int): int {
    if a <= b then a else b
  }

  /**
   * `retry_strategy(options)`. `errorCode` is `options.error.code`, None when
   * there is no error or it carries no code. The checks are tried in order and
   * the first that applies decides.
   */
  function RetryStrategy(errorCode: Option<string>, totalRetryTime: nat, attempt: nat): (r: RetryDecision)
    ensures r == Stop(Refused) <==> errorCode == Some(ConnectionRefused)
    ensures r == Stop(RetryTimeExhausted) <==> errorCode != Some(ConnectionRefused) && totalRetryTime > MaxRetryTime
    ensures r == Stop(AttemptsExhausted) <==>
      errorCode != Some(ConnectionRefused) && totalRetryTime <= MaxRetryTime && attempt > MaxAttempts
    ensures r.RetryAfter? ==> r.delay == attempt * DelayStep && r.delay <= MaxAttempts * DelayStep
  {
    if errorCode.Some? && errorCode.value == ConnectionRefused then Stop(Refused)
    else if totalRetryTime > MaxRetryTime then Stop(RetryTimeExhausted)
    else if attempt > MaxAttempts then Stop(AttemptsExhausted)
    else RetryAfter(Min(attempt * DelayStep, DelayCap))
  }

  /** A refused connection stops reconnecting whatever the attempt count and the time spent. */
  lemma RefusedAlwaysStops(totalRetryTime: nat, attempt: nat)
    ensures RetryStrategy(Some(ConnectionRefused), totalRetryTime, attempt).Stop?
  {
  }

  /** Later attempts never wait less than earlier ones, as long as both are retried. */
  lemma DelayMonotone(errorCode: Option<string>, totalRetryTime: nat, a1: nat, a2: nat)
    requires a1 <= a2
    requires RetryStrategy(errorCode, totalRetryTime, a2).RetryAfter?
    ensures RetryStrategy(errorCode, totalRetryTime, a1).RetryAfter?
    ensures RetryStrategy(errorCode, totalRetryTime, a1).delay <= RetryStrategy(errorCode, totalRetryTime, a2).delay
  {
  }

  /** Because attempts above 10 stop first, the 3000 ms cap on the delay is never reached. */
  lemma CapNeverApplies(errorCode: Option<string>, totalRetryTime: nat, attempt: nat)
    requires RetryStrategy(errorCode, totalRetryTime, attempt).RetryAfter?
    ensures RetryStrategy(errorCode, totalRetryTime, attempt).delay < DelayCap
  {
  }

  /** A handle on one client made by `redis.createClient`. */
  type ClientId = nat

  /** The module-level `redisClient` reference and the clients created so far. */
  class RedisConnection {
    /** `redisClient`: None is `null`. */
    var client: Option<ClientId>
    /** How many clients `initRedis` has created; the next one gets this number. */
    var created: nat

    /** What every method keeps: a client held is one that was created. */
    ghost predicate Valid()
      reads this
    {
      client.Some? ==> client.value < created
    }

    /** Module load: `let redisClient = null`. */
    constructor ()
      ensures Valid() && client == None && created == 0
    {
      client := None;
      created := 0;
    }

    /**
     * `initRedis()`: creates a client, stores it and connects it. When creating
     * or connecting fails the error is swallowed, the reference is reset to
     * null and null is returned.
     */
    method InitRedis(connectOk: bool) returns (r: Option<ClientId>)
      requires Valid()
      modifies this
      ensures Valid() && created == old(created) + 1
      ensures connectOk ==> r == Some(old(created)) && client == r
      ensures !connectOk ==> r == None && client == None
    {
      client := Some(created);
      created := created + 1;
      if !connectOk {
        client := None;
        r := None;
        return;
      }
      r := client;
    }

    /** The client's `'error'` handler: the shared reference becomes null. */
    method OnError()
      requires Valid()
      modifies this
      ensures Valid() && client == None && created == old(created)
    {
      client := None;
    }

    /** `getRedisClient()`. */
    method GetRedisClient() returns (r: Option<ClientId>)
      requires Valid()
      ensures r == client
      ensures r.Some? ==> r.value < created
    {
      r := client;
    }
  }
}
