/**
 * The token-bucket admission rule of the free-tier limiter, as pure
 * functions over the map from client key to bucket. `Check` is one call of
 * `allow`; `Replay` runs a sequence of calls. The imperative limiter in
 * module Plugin is proved to behave as `Check`.
 *
 * Token counts and times are reals (seconds); `rate` and `burst` are the
 * configured integers, converted as `plugin.go` converts them to float64.
 */
module TokenBucket {

  /** One client's bucket: the tokens left and when it was last refilled. */
  datatype Bucket = Bucket(tokens: real, lastCheck: real)

  /** The result of one admission check: the decision and the new map. */
  datatype Verdict = Verdict(admitted: bool, clients: map<string, Bucket>)

  /** One call of the limiter: the client key and the time it arrives. */
  datatype Call = Call(key: string, now: real)

  /** The decisions of a sequence of calls and the map left behind. */
  datatype Trace = Trace(decisions: seq<bool>, clients: map<string, Bucket>)

  /** The bucket created for a key seen for the first time: one request is
      charged at once. */
  function Fresh(burst: int, now: real): Bucket {
    Bucket((burst - 1) as real, now)
  }

  /** Adds `elapsed * rate` tokens, saturating at `burst`, and stamps `now`. */
  function Refill(b: Bucket, rate: int, burst: int, now: real): (r: Bucket)
    ensures r.lastCheck == now
    ensures r.tokens <= burst as real
    ensures r.tokens <= b.tokens + (now - b.lastCheck) * rate as real
    ensures r.tokens == burst as real || r.tokens == b.tokens + (now - b.lastCheck) * rate as real
  {
    var tokens := b.tokens + (now - b.lastCheck) * rate as real;
    Bucket(if tokens > burst as real then burst as real else tokens, now)
  }

  /** One call of `allow` for `key` at time `now`. */
  function Check(clients: map<string, Bucket>, rate: int, burst: int, key: string, now: real): (v: Verdict)
    ensures v.clients.Keys == clients.Keys + {key}
    ensures forall k :: k in clients && k != key ==> k in v.clients && v.clients[k] == clients[k]
    ensures v.clients[key].lastCheck == now
  {
    if key !in clients then
      Verdict(true, clients[key := Fresh(burst, now)])
    else
      var b := Refill(clients[key], rate, burst, now);
      if b.tokens < 1.0 then Verdict(false, clients[key := b])
      else Verdict(true, clients[key := b.(tokens := b.tokens - 1.0)])
  }

  /** The calls in `calls`, one after the other, starting from `clients`. */
  function Replay(clients: map<string, Bucket>, rate: int, burst: int, calls: seq<Call>): (t: Trace)
    ensures |t.decisions| == |calls|
    decreases |calls|
  {
    if calls == [] then Trace([], clients)
    else
      var v := Check(clients, rate, burst, calls[0].key, calls[0].now);
      var rest := Replay(v.clients, rate, burst, calls[1..]);
      Trace([v.admitted] + rest.decisions, rest.clients)
  }

  /** Every bucket holds between 0 and `burst` tokens. */
  ghost predicate BucketsValid(clients: map<string, Bucket>, burst: int) {
    forall k :: k in clients ==> 0.0 <= clients[k].tokens <= burst as real
  }

  /** `k` has the same bucket, or none, in both maps. */
  ghost predicate SameEntry(m1: map<string, Bucket>, m2: map<string, Bucket>, k: string) {
    (k in m1 <==> k in m2) && (k in m1 ==> m1[k] == m2[k])
  }

  // ---------------------------------------------------------------------
  // One call

  /** An unseen key is admitted and gets a bucket with `burst - 1` tokens
      stamped `now`; nothing else changes. */
  lemma NewKeyAdmitted(clients: map<string, Bucket>, rate: int, burst: int, key: string, now: real)
    requires key !in clients
    ensures var v := Check(clients, rate, burst, key, now);
      v.admitted && v.clients == clients[key := Bucket((burst - 1) as real, now)]
  {
  }

  /** For a known key the bucket is first refilled to
      `min(burst, tokens + elapsed * rate)` and stamped `now`; the call is
      denied exactly when fewer than one token is then left. A denial keeps
      the refilled count, an admission takes exactly one token. */
  lemma KnownKeyRefillThenConsume(clients: map<string, Bucket>, rate: int, burst: int, key: string, now: real)
    requires key in clients
    ensures var prev := clients[key];
      var filled := prev.tokens + (now - prev.lastCheck) * rate as real;
      var refilled := if filled <= burst as real then filled else burst as real;
      var v := Check(clients, rate, burst, key, now);
      && (v.admitted <==> refilled >= 1.0)
      && v.clients == clients[key := Bucket(if v.admitted then refilled - 1.0 else refilled, now)]
  {
    var b := Refill(clients[key], rate, burst, now);
    var filled := clients[key].tokens + (now - clients[key].lastCheck) * rate as real;
    assert b.tokens == if filled <= burst as real then filled else burst as real;
  }

  /** A bucket holding exactly one token after the refill admits, and is
      then empty. */
  lemma ExactlyOneTokenAdmits(clients: map<string, Bucket>, rate: int, burst: int, key: string, now: real)
    requires key in clients && Refill(clients[key], rate, burst, now).tokens == 1.0
    ensures var v := Check(clients, rate, burst, key, now);
      v.admitted && v.clients[key] == Bucket(0.0, now)
  {
  }

  /** With `burst >= 1`, a non-negative rate and a clock that does not run
      backwards for `key`, the bounds `0 <= tokens <= burst` survive a call. */
  lemma CheckPreservesBounds(clients: map<string, Bucket>, rate: int, burst: int, key: string, now: real)
    requires BucketsValid(clients, burst)
    requires burst >= 1 && rate >= 0
    requires key in clients ==> clients[key].lastCheck <= now
    ensures BucketsValid(Check(clients, rate, burst, key, now).clients, burst)
  {
    var v := Check(clients, rate, burst, key, now);
    if key in clients {
      RefillWithinBounds(clients[key], rate, burst, now);
      assert 0.0 <= v.clients[key].tokens <= burst as real;
    }
    forall k | k in v.clients ensures 0.0 <= v.clients[k].tokens <= burst as real {
      if k != key {
        assert v.clients[k] == clients[k];
      }
    }
  }

  /** A refill over a non-negative time span keeps `0 <= tokens <= burst`. */
  lemma RefillWithinBounds(b: Bucket, rate: int, burst: int, now: real)
    requires 0.0 <= b.tokens && burst >= 1 && rate >= 0 && b.lastCheck <= now
    ensures 0.0 <= Refill(b, rate, burst, now).tokens <= burst as real
  {
    var gain := (now - b.lastCheck) * rate as real;
    ProductNonNegative(now - b.lastCheck, rate as real);
    assert gain >= 0.0;
    var r := Refill(b, rate, burst, now);
    assert r.tokens == burst as real || r.tokens == b.tokens + gain;
  }

  lemma ProductNonNegative(a: real, b: real)
    requires a >= 0.0 && b >= 0.0
    ensures a * b >= 0.0
  {
  }

  /** A call for one key leaves every other key's bucket as it was. */
  lemma CheckIsolatesOtherKeys(clients: map<string, Bucket>, rate: int, burst: int, key: string, now: real, other: string)
    requires other != key
    ensures SameEntry(clients, Check(clients, rate, burst, key, now).clients, other)
  {
  }

  /** The decision for `key` and its new bucket depend only on the bucket
      `key` had, not on anything else in the map. */
  lemma CheckDependsOnlyOnOwnEntry(m1: map<string, Bucket>, m2: map<string, Bucket>, rate: int, burst: int, key: string, now: real)
    requires SameEntry(m1, m2, key)
    ensures Check(m1, rate, burst, key, now).admitted == Check(m2, rate, burst, key, now).admitted
    ensures SameEntry(Check(m1, rate, burst, key, now).clients, Check(m2, rate, burst, key, now).clients, key)
  {
  }

  /** Once at least one token's worth of time has passed
      (`elapsed * rate >= 1`, that is `elapsed >= 1 / rate`), a bucket that
      held no negative count admits again. */
  lemma RefillAfterWaitAdmits(clients: map<string, Bucket>, rate: int, burst: int, key: string, now: real)
    requires key in clients && clients[key].tokens >= 0.0 && burst >= 1
    requires (now - clients[key].lastCheck) * rate as real >= 1.0
    ensures Check(clients, rate, burst, key, now).admitted
  {
    RefillGainsAToken(clients[key], rate, burst, now);
  }

  lemma RefillGainsAToken(b: Bucket, rate: int, burst: int, now: real)
    requires b.tokens >= 0.0 && burst >= 1 && (now - b.lastCheck) * rate as real >= 1.0
    ensures Refill(b, rate, burst, now).tokens >= 1.0
  {
  }

  /** No time has passed: the refill leaves a bucket within its bounds as it is. */
  lemma RefillNoElapsed(b: Bucket, rate: int, burst: int)
    requires b.tokens <= burst as real
    ensures Refill(b, rate, burst, b.lastCheck) == b
  {
    var zero := b.lastCheck - b.lastCheck;
    assert zero == 0.0;
    assert zero * rate as real == 0.0;
  }

  // ---------------------------------------------------------------------
  // Sequences of calls

  function Repeat<T>(x: T, n: nat): (s: seq<T>)
    ensures |s| == n && forall i :: 0 <= i < n ==> s[i] == x
  {
    seq(n, _ => x)
  }

  /** A bucket stamped `now` holding `j` whole tokens (`j <= burst`) answers
      `j + 1` calls at `now` with `j` admissions and then a denial. */
  lemma {:induction false} DrainAt(clients: map<string, Bucket>, rate: int, burst: int, key: string, now: real, j: nat)
    requires key in clients && clients[key] == Bucket(j as real, now) && j <= burst
    ensures Replay(clients, rate, burst, Repeat(Call(key, now), j + 1)).decisions == Repeat(true, j) + [false]
    decreases j
  {
    var calls := Repeat(Call(key, now), j + 1);
    var v := Check(clients, rate, burst, key, now);
    assert calls[1..] == Repeat(Call(key, now), j);
    if j == 0 {
      RefillNoElapsed(clients[key], rate, burst);
      assert !v.admitted;
    } else {
      RefillNoElapsed(clients[key], rate, burst);
      assert v.admitted && v.clients[key] == Bucket((j - 1) as real, now);
      DrainAt(v.clients, rate, burst, key, now, j - 1);
      assert Repeat(Call(key, now), j) == Repeat(Call(key, now), (j - 1) + 1);
      assert Repeat(true, j) + [false] == [true] + (Repeat(true, j - 1) + [false]);
    }
  }

  /** A key seen for the first time, called `burst + 1` times with no time
      passing, is admitted `burst` times and then denied. */
  lemma BurstThenDeny(clients: map<string, Bucket>, rate: int, burst: int, key: string, now: real)
    requires key !in clients && burst >= 1
    ensures Replay(clients, rate, burst, Repeat(Call(key, now), burst + 1)).decisions == Repeat(true, burst) + [false]
  {
    var calls := Repeat(Call(key, now), burst + 1);
    var v := Check(clients, rate, burst, key, now);
    assert v.admitted && v.clients[key] == Bucket((burst - 1) as real, now);
    assert calls[1..] == Repeat(Call(key, now), (burst - 1) + 1);
    DrainAt(v.clients, rate, burst, key, now, burst - 1);
    assert Repeat(true, burst) + [false] == [true] + (Repeat(true, burst - 1) + [false]);
  }

  /** The calls in `calls` made by client `k`. */
  function CallsOf(calls: seq<Call>, k: string): (r: seq<Call>)
    ensures |r| <= |calls|
  {
    if calls == [] then []
    else (if calls[0].key == k then [calls[0]] else []) + CallsOf(calls[1..], k)
  }

  /** The decisions given to client `k`, picked out of the decisions `ds`
      for `calls`. */
  function DecisionsOf(calls: seq<Call>, ds: seq<bool>, k: string): (r: seq<bool>)
    requires |ds| == |calls|
    ensures |r| == |CallsOf(calls, k)|
  {
    if calls == [] then []
    else (if calls[0].key == k then [ds[0]] else []) + DecisionsOf(calls[1..], ds[1..], k)
  }

  /** Isolation between clients: whatever other clients do in between, the
      decisions client `k` receives are those it would receive if only its
      own calls were made, and its bucket ends up the same. */
  lemma {:induction false} ReplayIsolation(m1: map<string, Bucket>, m2: map<string, Bucket>, rate: int, burst: int, calls: seq<Call>, k: string)
    requires SameEntry(m1, m2, k)
    ensures var t1, t2 := Replay(m1, rate, burst, calls), Replay(m2, rate, burst, CallsOf(calls, k));
      DecisionsOf(calls, t1.decisions, k) == t2.decisions && SameEntry(t1.clients, t2.clients, k)
    decreases |calls|
  {
    if calls != [] {
      var c := calls[0];
      var v1 := Check(m1, rate, burst, c.key, c.now);
      var t1 := Replay(m1, rate, burst, calls);
      assert t1.decisions[1..] == Replay(v1.clients, rate, burst, calls[1..]).decisions;
      if c.key == k {
        CheckDependsOnlyOnOwnEntry(m1, m2, rate, burst, k, c.now);
        var v2 := Check(m2, rate, burst, k, c.now);
        ReplayIsolation(v1.clients, v2.clients, rate, burst, calls[1..], k);
        assert CallsOf(calls, k) == [c] + CallsOf(calls[1..], k);
        assert CallsOf(calls, k)[1..] == CallsOf(calls[1..], k);
      } else {
        CheckIsolatesOtherKeys(m1, rate, burst, c.key, c.now, k);
        ReplayIsolation(v1.clients, m2, rate, burst, calls[1..], k);
        assert CallsOf(calls, k) == CallsOf(calls[1..], k);
      }
    }
  }

  /** Exhausting one client never denies another: from the same map, the
      decisions for `k` are those of `k`'s own calls alone. */
  lemma ClientsAreIndependent(clients: map<string, Bucket>, rate: int, burst: int, calls: seq<Call>, k: string)
    ensures DecisionsOf(calls, Replay(clients, rate, burst, calls).decisions, k)
         == Replay(clients, rate, burst, CallsOf(calls, k)).decisions
  {
    ReplayIsolation(clients, clients, rate, burst, calls, k);
  }

  /** With `rate = 1` and `burst = 1`: a call at 0 is admitted, a call at
      `eps` (under one second later) is denied, a call at 1 is admitted. */
  lemma OnePerSecond(key: string, eps: real)
    requires 0.0 < eps < 1.0
    ensures Replay(map[], 1, 1, [Call(key, 0.0), Call(key, eps), Call(key, 1.0)]).decisions == [true, false, true]
  {
    var calls := [Call(key, 0.0), Call(key, eps), Call(key, 1.0)];
    var v1 := Check(map[], 1, 1, key, 0.0);
    var v2 := Check(v1.clients, 1, 1, key, eps);
    var v3 := Check(v2.clients, 1, 1, key, 1.0);
    assert v1.clients[key] == Bucket(0.0, 0.0);
    assert v2.clients[key] == Bucket(eps, eps) && !v2.admitted;
    assert v3.admitted;
    assert calls[1..] == [Call(key, eps), Call(key, 1.0)];
    assert calls[1..][1..] == [Call(key, 1.0)];
    assert Replay(v2.clients, 1, 1, [Call(key, 1.0)]).decisions == [true];
    assert Replay(v1.clients, 1, 1, calls[1..]).decisions == [false, true];
  }
}
