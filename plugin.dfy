/**
 * The free-tier limiter middleware: a limiter object that owns the map from
 * client key to bucket, its imperative admission check `Allow`, and the
 * request decision `ServeHTTP`. The scenarios at the end follow the
 * repository's handler tests.
 */
module Plugin {
  import opened TokenBucket
  import opened Classifier

  /** The plugin configuration: tokens per second and bucket capacity. */
  datatype Config = Config(rate: int, burst: int)

  /** The configuration used when none is given. */
  const DefaultConfig := Config(10, 20)

  const StatusTooManyRequests := 429

  /** What happens to a request: forwarded without metering, forwarded
      after an admission, or rejected with a status and a `Retry-After`
      value. */
  datatype Decision = PassThrough | Admit | Deny(status: int, retryAfter: string)

  /** The rejection of a metered request over its quota. */
  const RateLimited := Deny(StatusTooManyRequests, "1")

  class FreeTierLimiter {
    const rate: int
    const burst: int
    var clients: map<string, Bucket>

    /** Every bucket within `0 <= tokens <= burst`. */
    ghost predicate Valid()
      reads this
    {
      BucketsValid(clients, burst)
    }

    /** `New`: a limiter with the configured limits and no buckets. */
    constructor (config: Config)
      ensures rate == config.rate && burst == config.burst
      ensures clients == map[] && Valid()
    {
      rate := config.rate;
      burst := config.burst;
      clients := map[];
    }

    /** `allow`: the token-bucket check for `clientIP` at time `now`. The
        decision and the new map are those of `TokenBucket.Check`; so only
        the entry for `clientIP` changes, and when the limits are sane and
        the clock does not run backwards the bounds on every bucket hold
        after the call. */
    method Allow(clientIP: string, now: real) returns (allowed: bool)
      modifies this
      ensures Verdict(allowed, clients) == Check(old(clients), rate, burst, clientIP, now)
      ensures forall k :: k in old(clients) && k != clientIP ==> k in clients && clients[k] == old(clients)[k]
      ensures clientIP in clients && clients[clientIP].lastCheck == now
      ensures (old(Valid()) && burst >= 1 && rate >= 0
               && (clientIP in old(clients) ==> old(clients)[clientIP].lastCheck <= now)) ==> Valid()
    {
      if clientIP !in clients {
        clients := clients[clientIP := Fresh(burst, now)];
        return true;
      }
      ghost var before := clients;
      var client := clients[clientIP];
      var elapsed := now - client.lastCheck;
      var tokens := client.tokens + elapsed * rate as real;
      if tokens > burst as real {
        tokens := burst as real;
      }
      client := Bucket(tokens, now);
      assert client == Refill(before[clientIP], rate, burst, now);
      clients := clients[clientIP := client];
      if client.tokens < 1.0 {
        allowed := false;
      } else {
        client := client.(tokens := client.tokens - 1.0);
        clients := clients[clientIP := client];
        allowed := true;
      }
      if old(Valid()) && burst >= 1 && rate >= 0 && before[clientIP].lastCheck <= now {
        CheckPreservesBounds(before, rate, burst, clientIP, now);
      }
    }

    /** `ServeHTTP`: a request without the free-tier credential passes
        through and leaves the buckets alone; a metered one is checked
        against the bucket of its client IP and, when over quota, rejected
        with 429 and `Retry-After: 1`. `decode` is base64 decoding and `now`
        the clock reading. */
    method ServeHTTP(req: Request, decode: string -> Decoded, now: real) returns (d: Decision)
      modifies this
      ensures !IsFreeUser(req, decode) ==> d == PassThrough && clients == old(clients)
      ensures IsFreeUser(req, decode) ==>
        var v := Check(old(clients), rate, burst, GetClientIP(req), now);
        clients == v.clients && d == (if v.admitted then Admit else RateLimited)
      ensures (old(Valid()) && burst >= 1 && rate >= 0
               && (GetClientIP(req) in old(clients) ==> old(clients)[GetClientIP(req)].lastCheck <= now)) ==> Valid()
    {
      if !IsFreeUser(req, decode) {
        return PassThrough;
      }
      var clientIP := GetClientIP(req);
      var allowed := Allow(clientIP, now);
      if !allowed {
        return RateLimited;
      }
      return Admit;
    }
  }

  // -----------------------------------------------------------------------
  // The handler tests, with the clock readings as parameters

  /** The credential the tests send: "Basic " and base64 of "free:free". */
  const FreePayload := "ZnJlZTpmcmVl"
  const FreeAuth := BasicPrefix + FreePayload

  /** A test request: no headers but `Authorization` and `X-Forwarded-For`,
      and the default test remote address. */
  function TestRequest(auth: string, forwardedFor: string): (req: Request)
    ensures HeaderGet(req.header, "Authorization") == auth
    ensures HeaderGet(req.header, "X-Forwarded-For") == forwardedFor
  {
    Request(map["Authorization" := [auth], "X-Forwarded-For" := [forwardedFor]], "192.0.2.1:1234")
  }

  /** The tests' credential marks a request as free tier. */
  lemma FreeAuthIsMetered(decode: string -> Decoded, forwardedFor: string)
    requires decode(FreePayload) == Decoded(FreeCredentials)
    ensures IsFreeUser(TestRequest(FreeAuth, forwardedFor), decode)
  {
    assert HeaderGet(TestRequest(FreeAuth, forwardedFor).header, "Authorization") == BasicPrefix + FreePayload;
  }

  /** A non-empty address with no comma and no white space at either end,
      such as the tests' 1.2.3.4. */
  predicate PlainAddress(ip: string) {
    ip != "" && ',' !in ip && !GoStrings.IsSpace(ip[0]) && !GoStrings.IsSpace(ip[|ip| - 1])
  }

  /** A single plain forwarded address is the bucket key. */
  lemma ForwardedAddressIsKey(auth: string, ip: string)
    requires PlainAddress(ip)
    ensures GetClientIP(TestRequest(auth, ip)) == ip
  {
    GoStrings.TakeUntilIndex(ip, ',');
    GoStrings.TrimSpaceUnpadded(ip);
  }

  /** With `rate = 1` and `burst = 2`, a fresh key called three times within
      one second is admitted twice and then denied. */
  lemma TwoThenDeny(key: string, t1: real, t2: real, t3: real)
    requires t1 <= t2 <= t3 < t1 + 1.0
    ensures var v1 := Check(map[], 1, 2, key, t1);
      var v2 := Check(v1.clients, 1, 2, key, t2);
      var v3 := Check(v2.clients, 1, 2, key, t3);
      v1.admitted && v2.admitted && !v3.admitted
  {
    var v1 := Check(map[], 1, 2, key, t1);
    assert v1.clients[key] == Bucket(1.0, t1);
    var v2 := Check(v1.clients, 1, 2, key, t2);
    assert Refill(v1.clients[key], 1, 2, t2).tokens == 1.0 + (t2 - t1);
    assert v2.clients[key] == Bucket(t2 - t1, t2);
    assert Refill(v2.clients[key], 1, 2, t3).tokens == t3 - t1;
  }

  /** With `rate = burst = 1`: `ip1` is admitted, `ip2` is admitted on its
      own bucket, and `ip1` within one second is denied. */
  lemma OtherClientInBetween(ip1: string, ip2: string, t1: real, t2: real, t3: real)
    requires ip1 != ip2 && t1 <= t2 <= t3 < t1 + 1.0
    ensures var v1 := Check(map[], 1, 1, ip1, t1);
      var v2 := Check(v1.clients, 1, 1, ip2, t2);
      var v3 := Check(v2.clients, 1, 1, ip1, t3);
      v1.admitted && v2.admitted && !v3.admitted
  {
    var v1 := Check(map[], 1, 1, ip1, t1);
    var v2 := Check(v1.clients, 1, 1, ip2, t2);
    assert v2.clients[ip1] == Bucket(0.0, t1);
    assert Refill(v2.clients[ip1], 1, 1, t3).tokens == t3 - t1;
  }

  /** Ten requests without credentials all pass through, with
      `rate = burst = 1`, and no bucket is created. */
  method NonFreeUserPassesThrough(decode: string -> Decoded, times: seq<real>) returns (decisions: seq<Decision>)
    requires |times| == 10
    ensures |decisions| == 10 && forall i :: 0 <= i < 10 ==> decisions[i] == PassThrough
  {
    var limiter := new FreeTierLimiter(DefaultConfig.(rate := 1, burst := 1));
    var req := Request(map[], "192.0.2.1:1234");
    assert !IsFreeUser(req, decode);
    decisions := [];
    for i := 0 to 10
      invariant |decisions| == i
      invariant forall j :: 0 <= j < i ==> decisions[j] == PassThrough
      invariant limiter.clients == map[]
    {
      var d := limiter.ServeHTTP(req, decode, times[i]);
      decisions := decisions + [d];
    }
  }

  /** With `rate = 1` and `burst = 2`, three free-tier requests from
      1.2.3.4 within one second: two are admitted, the third gets 429 with
      `Retry-After: 1`. */
  method FreeUserRateLimited(decode: string -> Decoded, t1: real, t2: real, t3: real)
    returns (d1: Decision, d2: Decision, d3: Decision)
    requires decode(FreePayload) == Decoded(FreeCredentials)
    requires t1 <= t2 <= t3 < t1 + 1.0
    ensures d1 == Admit && d2 == Admit && d3 == Deny(429, "1")
  {
    var limiter := new FreeTierLimiter(DefaultConfig.(rate := 1, burst := 2));
    var ip := "1.2.3.4";
    var req := TestRequest(FreeAuth, ip);
    FreeAuthIsMetered(decode, ip);
    ForwardedAddressIsKey(FreeAuth, ip);
    TwoThenDeny(ip, t1, t2, t3);
    d1 := limiter.ServeHTTP(req, decode, t1);
    d2 := limiter.ServeHTTP(req, decode, t2);
    d3 := limiter.ServeHTTP(req, decode, t3);
  }

  /** With `rate = burst = 1`: a first address (1.1.1.1 in the test) is
      admitted, then a second one (2.2.2.2) is admitted on its own bucket,
      then the first again within one second gets 429. */
  method DifferentIPsIndependentLimits(decode: string -> Decoded, ip1: string, ip2: string, t1: real, t2: real, t3: real)
    returns (d1: Decision, d2: Decision, d3: Decision)
    requires decode(FreePayload) == Decoded(FreeCredentials)
    requires PlainAddress(ip1) && PlainAddress(ip2) && ip1 != ip2
    requires t1 <= t2 <= t3 < t1 + 1.0
    ensures d1 == Admit && d2 == Admit && d3 == Deny(429, "1")
  {
    var limiter := new FreeTierLimiter(DefaultConfig.(rate := 1, burst := 1));
    var req1 := TestRequest(FreeAuth, ip1);
    var req2 := TestRequest(FreeAuth, ip2);
    FreeAuthIsMetered(decode, ip1);
    FreeAuthIsMetered(decode, ip2);
    ForwardedAddressIsKey(FreeAuth, ip1);
    ForwardedAddressIsKey(FreeAuth, ip2);
    OtherClientInBetween(ip1, ip2, t1, t2, t3);
    d1 := limiter.ServeHTTP(req1, decode, t1);
    d2 := limiter.ServeHTTP(req2, decode, t2);
    d3 := limiter.ServeHTTP(req1, decode, t3);
  }
}
