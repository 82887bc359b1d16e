# Free-tier rate limiter (Traefik middleware plugin), modelled in Dafny

The plugin sits in a Traefik middleware chain. It decides for each HTTP
request whether to forward it or to reject it with `429 Too Many Requests`.
Only requests whose `Authorization` header is HTTP Basic with the exact
credentials `free:free` are metered. Every other request passes through
untouched. A metered request is keyed by its client IP. Each key has its
own token bucket with the plugin's `rate` (tokens per second) and `burst`
(capacity). An unseen key starts with `burst - 1` tokens and is admitted. A
known key is refilled by `elapsed * rate`, capped at `burst`, and stamped
with the current time. It is then denied if fewer than one token is left;
otherwise one token is taken and it is admitted. A denial carries
`Retry-After: 1`.

The model has four modules:

- `GoStrings` (`go_strings.dfy`): the Go `strings` functions the classifier
  uses (`HasPrefix`, `TrimPrefix`, `Index`, `LastIndex`, `TrimSpace`), with
  `unicode.IsSpace` as the white-space test.
- `Classifier` (`classifier.dfy`): `isFreeUser` and `getClientIP` as pure
  functions of the request's headers and remote address.
- `TokenBucket` (`token_bucket.dfy`): the admission rule as a pure function
  `Check` over the map from key to bucket, a `Replay` of a sequence of
  calls, and the lemmas about them: bounds, isolation between keys, the
  exact refill/consume rule, and burst-then-deny.
- `Plugin` (`plugin.dfy`): the class `FreeTierLimiter`, which owns the
  `clients` map. Its imperative `Allow` is proved equal to `Check` and to
  keep the bounds invariant when `burst >= 1`, `rate >= 0` and the key's
  clock does not run backwards. `ServeHTTP` returns the decision
  (`PassThrough`, `Admit`, or `Deny(429, "1")`). The repository's three
  handler tests are methods that drive a fresh limiter.

Inputs from outside the plugin are parameters:

- `now`: the clock reading, in seconds, as a `real`.
- `decode`: base64 decoding of the credential payload, as a function
  returning `Decoded(text)` or `Malformed`.

Tokens and elapsed time are `real`. The Go code uses `float64` for both.

`plugin.go` has a single tier. Its bucket key is the client IP alone, and
`rate` and `burst` are plain integers with no special case (an unconfigured
`rate == 0 && burst == 0` is not passed through): with `burst = 0` an
unseen key is still admitted once, with `-1` tokens.

## Model

| member | source | states |
|---|---|---|
| `TokenBucket.Refill` | plugin.go:125-130 | the refilled bucket is stamped `now` and holds `min(burst, tokens + elapsed * rate)`: never more than `burst`, one of those two values, and never more than the uncapped sum |
| `TokenBucket.Check` | plugin.go:109-138 | one call adds its key to the map, leaves every other key's bucket as it was, and stamps the key's bucket with `now` |
| `TokenBucket.NewKeyAdmitted` | plugin.go:115-121 | an unseen key is admitted and gets `Bucket(burst - 1, now)`; no other entry changes |
| `TokenBucket.KnownKeyRefillThenConsume` | plugin.go:124-137 | for a known key: refill to `min(burst, old + elapsed * rate)` and stamp `now`; denied iff the refilled count is below 1; a denial keeps the refilled count, an admission takes exactly one token |
| `TokenBucket.ExactlyOneTokenAdmits` | plugin.go:132-136 | a bucket holding exactly 1.0 tokens after the refill is admitted and left with 0 |
| `TokenBucket.CheckPreservesBounds` | plugin.go:117-137 | if `burst >= 1`, `rate >= 0` and the key's clock does not run backwards, `0 <= tokens <= burst` for every bucket survives a call |
| `TokenBucket.CheckIsolatesOtherKeys` | plugin.go:115-137 | a call for one key leaves the entry of any other key (present or absent) unchanged |
| `TokenBucket.CheckDependsOnlyOnOwnEntry` | plugin.go:115-137 | the decision and the new bucket for a key depend only on that key's old entry |
| `TokenBucket.RefillAfterWaitAdmits` | plugin.go:125-137 | with `burst >= 1`, a known key whose count is not negative is admitted again once `elapsed * rate >= 1`, that is after a wait of at least `1 / rate` seconds |
| `TokenBucket.RefillGainsAToken` | plugin.go:125-130 | a refill over a span worth at least one token leaves a non-negative bucket with at least one token when `burst >= 1` |
| `TokenBucket.RefillWithinBounds` | plugin.go:125-130 | a refill over a non-negative span with a non-negative rate keeps `0 <= tokens <= burst` |
| `TokenBucket.RefillNoElapsed` | plugin.go:125-130 | with no time elapsed, a refill leaves a bucket at or below `burst` exactly as it was |
| `TokenBucket.DrainAt` | plugin.go:125-137 | a bucket stamped `now` with `j <= burst` whole tokens answers `j + 1` calls at `now` with `j` admissions and then a denial |
| `TokenBucket.BurstThenDeny` | plugin.go:115-137 | a fresh key called `burst + 1` times with no time passing is admitted `burst` times, then denied |
| `TokenBucket.ReplayIsolation` | plugin.go:115-137 | starting from maps that agree on `k`, the decisions `k` receives in any interleaving equal those of `k`'s own calls alone, and `k`'s final bucket is the same |
| `TokenBucket.ClientsAreIndependent` | plugin_test.go:78-126 | exhausting one client never denies another: from one map, a client's decisions depend only on its own calls |
| `TokenBucket.OnePerSecond` | plugin.go:115-137 | with `rate = burst = 1`: calls at 0, at `0 < eps < 1`, and at 1 are admitted, denied, admitted |
| `Plugin.FreeTierLimiter.constructor` | plugin.go:42-50 | a new limiter holds the configured `rate` and `burst` and an empty map, which satisfies the bounds invariant |
| `Plugin.FreeTierLimiter.Allow` | plugin.go:109-138 | the decision and the new map are exactly `Check` of the old map; other keys are untouched; the key is stamped `now`; the bounds invariant is kept under `burst >= 1`, `rate >= 0` and a clock that does not run backwards |
| `Plugin.FreeTierLimiter.ServeHTTP` | plugin.go:52-71 | a request that is not free tier passes through with the map unchanged; a free-tier one is checked against the bucket of its client IP, and is admitted, or denied with 429 and `Retry-After: 1`; the bounds invariant is kept when `burst >= 1`, `rate >= 0` and the key's clock does not run backwards |
| `Classifier.IsFreeUser` | plugin.go:73-85 | true exactly when `Authorization` is "Basic " followed by a payload that decodes to "free:free" |
| `Classifier.NotFreeUser` | plugin.go:73-85 | a missing header, a missing "Basic " prefix, an undecodable payload, or a payload other than "free:free" is not metered |
| `Classifier.GetClientIP` | plugin.go:87-107 | precedence: a non-empty `X-Forwarded-For` gives its trimmed text before the first comma; otherwise a non-empty `X-Real-Ip` verbatim; otherwise `RemoteAddr` up to its last colon, or all of it when it has none |
| `Classifier.ForwardedForEntryHasNoComma` | plugin.go:89-95 | the key taken from `X-Forwarded-For` never contains a comma |
| `Classifier.ForwardedForWins` | plugin.go:87-100 | with a non-empty `X-Forwarded-For`, changing `X-Real-Ip` or `RemoteAddr` does not change the key |
| `Classifier.HeaderGet` | plugin.go:74 | the first value recorded under the name when there is one, and "" when the name is absent or has no values |
| `GoStrings.HasPrefix` | plugin.go:75 | true exactly when the prefix is no longer than the string and agrees with it character by character |
| `GoStrings.IsSpaceLatin1` | plugin.go:92-94 | `IsSpace`, the white-space test `TrimSpace` cuts at, is Go's `unicode.IsSpace`: within Latin-1 it holds exactly for tab, line feed, vertical tab, form feed, carriage return, space, U+0085 and U+00A0 (the other code points it accepts are the remaining Unicode White_Space characters) |
| `GoStrings.TrimPrefix` | plugin.go:79 | with the prefix present, the prefix followed by the result is the input; otherwise the input is returned |
| `GoStrings.Index` | plugin.go:91 | the first position of the character, or -1 exactly when it does not occur |
| `GoStrings.LastIndex` | plugin.go:103 | the last position of the character, or -1 exactly when it does not occur |
| `GoStrings.TakeUntilIndex` | plugin.go:91-94 | slicing at `Index` (or keeping all when there is no comma) gives the text before the first comma |
| `GoStrings.TrimLeftSpace` | plugin.go:92-94 | the result is a suffix of the input, everything dropped before it is white space, and it does not start with white space |
| `GoStrings.TrimRightSpace` | plugin.go:92-94 | the result is a prefix of the input, everything dropped after it is white space, and it does not end with white space |
| `GoStrings.TrimSpace` | plugin.go:92-94 | the result is no longer than the input and neither starts nor ends with white space |
| `GoStrings.TrimSpaceIsSlice` | plugin.go:92-94 | the trimmed string is a slice `s[i..j]` of its input, and everything cut off before `i` and after `j` is white space |
| `GoStrings.TrimSpaceUnpadded` | plugin.go:92-94 | a string with no white space at either end is returned unchanged |
| `GoStrings.TrimSpaceKeepsChars` | plugin.go:92-94 | trimming introduces no character that was not in the input |
| `GoStrings.TrimSpaceIdempotent` | plugin.go:92-94 | trimming twice is the same as trimming once |
| `GoStrings.TakeUntilExcludes` | plugin.go:91-94 | the text before the first comma holds no comma |
| `Plugin.FreeAuthIsMetered` | plugin_test.go:37-76 | a request carrying "Basic ZnJlZTpmcmVl" is metered, given that the payload decodes to "free:free" |
| `Plugin.ForwardedAddressIsKey` | plugin.go:87-95 | a single forwarded address with no comma and no surrounding white space is the bucket key itself |
| `Plugin.TwoThenDeny` | plugin_test.go:37-76 | with `rate = 1`, `burst = 2`, a fresh key's three calls within one second are admitted, admitted, denied |
| `Plugin.OtherClientInBetween` | plugin_test.go:78-126 | with `rate = burst = 1`, a first key admitted, a second key admitted, the first key denied within one second |
| `Plugin.NonFreeUserPassesThrough` | plugin_test.go:11-35 | ten requests without credentials, at any times, all pass through |
| `Plugin.FreeUserRateLimited` | plugin_test.go:37-76 | with `rate = 1`, `burst = 2`, three free-tier requests from 1.2.3.4 within one second are admitted, admitted, and denied with 429 and `Retry-After: 1` |
| `Plugin.DifferentIPsIndependentLimits` | plugin_test.go:78-126 | with `rate = burst = 1`, two distinct plain addresses are each admitted once, and the first is then denied within one second |

## Left out

- Locking: the `sync.RWMutex` (plugin.go:33, 110-111) is concurrency. `Allow` is one atomic method on the object.
- Clock: `time.Now()` and `Time.Sub(...).Seconds()` (plugin.go:113, 125) are replaced by the `now` parameter, a real number of seconds. Go's monotonic clock is modelled only as the "clock does not run backwards" hypothesis of the bounds results.
- `TokenBucket.Refill`, `Plugin.FreeTierLimiter.Allow`: `float64` rounding is not modelled. `tokens` and elapsed time are exact reals, and `float64(f.burst - 1)` and `float64(f.rate)` are exact conversions of unbounded integers, so Go `int` overflow is not modelled either.
- Buckets in place: Go stores `*clientLimiter` references in the map and changes their fields in place (plugin.go:117-136). The model stores bucket values and replaces the map entry. The references never leave `allow`, so no aliasing is lost.
- base64: `base64.StdEncoding.DecodeString` (plugin.go:79) is a library call. It is the `decode` parameter. The tests' payload "ZnJlZTpmcmVl" decoding to "free:free" is a hypothesis of the scenario methods.
- Header canonicalisation: `http.Header.Get` canonicalises the name it is given. The model's header map is taken to be keyed by canonical names already (`Authorization`, `X-Forwarded-For`, `X-Real-Ip`).
- Byte strings: Go strings are UTF-8 bytes, and `TrimSpace` decodes runes. The model's strings are sequences of characters, so invalid UTF-8 is not modelled.
- `FreeUserRateLimited`, `DifferentIPsIndependentLimits`: these tests read the real clock, so their elapsed times are tiny but not zero. The scenarios take the three times as parameters and require them to fall within one second. `DifferentIPsIndependentLimits` is stated for any two distinct plain addresses, not only 1.1.1.1 and 2.2.2.2. None of the scenarios checks the body text of the 429 response. `NonFreeUserPassesThrough` takes ten arbitrary times: its requests carry no credential, so they never reach the clock read in `allow`.
- HTTP glue: `CreateConfig` is only the constant `DefaultConfig` (rate 10, burst 20), which the scenarios override as the tests do. Forwarding to the next handler, the `http.Error` body "Rate limit exceeded for free tier", and writing the `Retry-After` header (plugin.go:19-24, 56, 65-66, 70) are reduced to the `Decision` value.
- Idle-bucket eviction and the multi-tier, header-driven classification are not in `plugin.go` and are not modelled. Buckets accumulate forever, as in `plugin.go`.
