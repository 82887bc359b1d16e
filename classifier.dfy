/**
 * How the free-tier limiter reads a request: whether it carries the
 * free-tier credential (`isFreeUser`) and which key its bucket has
 * (`getClientIP`).
 */
module Classifier {
  import opened GoStrings

  /** Request headers, keyed by canonical header name, each with its values
      in order. */
  type Header = map<string, seq<string>>

  /** The parts of an HTTP request the limiter looks at. */
  datatype Request = Request(header: Header, remoteAddr: string)

  /** The outcome of base64-decoding a credential payload. */
  datatype Decoded = Decoded(text: string) | Malformed

  /** `http.Header.Get`: the first value of `name`, or "" when there is none. */
  function HeaderGet(h: Header, name: string): (v: string)
    ensures name in h && h[name] != [] ==> v == h[name][0]
    ensures name !in h || h[name] == [] ==> v == ""
  {
    if name in h && h[name] != [] then h[name][0] else ""
  }

  const BasicPrefix := "Basic "
  const FreeCredentials := "free:free"

  /** A request is metered when its `Authorization` header starts with
      "Basic " and the rest decodes to exactly "free:free". `decode` stands
      for standard base64 decoding. */
  function IsFreeUser(req: Request, decode: string -> Decoded): (free: bool)
    ensures free <==> exists payload :: HeaderGet(req.header, "Authorization") == BasicPrefix + payload
                                     && decode(payload) == Decoded(FreeCredentials)
  {
    var auth := HeaderGet(req.header, "Authorization");
    if !HasPrefix(auth, BasicPrefix) then false
    else
      var payload := TrimPrefix(auth, BasicPrefix);
      var free := decode(payload) == Decoded(FreeCredentials);
      assert free ==> auth == BasicPrefix + payload;
      assert forall p :: auth == BasicPrefix + p ==> p == payload by {
        forall p | auth == BasicPrefix + p ensures p == payload {
          assert p == auth[|BasicPrefix|..];
        }
      }
      free
  }

  /** The four ways a request escapes metering: no `Authorization` header,
      no "Basic " prefix, a payload that does not decode, or one that decodes
      to something other than "free:free". */
  lemma NotFreeUser(req: Request, decode: string -> Decoded)
    ensures var auth := HeaderGet(req.header, "Authorization");
      || auth == ""
      || !HasPrefix(auth, BasicPrefix)
      || decode(auth[|BasicPrefix|..]) == Malformed
      || decode(auth[|BasicPrefix|..]) != Decoded(FreeCredentials)
      ==> !IsFreeUser(req, decode)
  {
  }

  /** The bucket key: the first `X-Forwarded-For` entry, trimmed; else
      `X-Real-Ip` as given; else the remote address up to its last colon. */
  function GetClientIP(req: Request): (ip: string)
    ensures var xff := HeaderGet(req.header, "X-Forwarded-For");
      xff != "" ==> ip == TrimSpace(TakeUntil(xff, ','))
    ensures var xff, xri := HeaderGet(req.header, "X-Forwarded-For"), HeaderGet(req.header, "X-Real-Ip");
      xff == "" && xri != "" ==> ip == xri
    ensures var xff, xri, addr := HeaderGet(req.header, "X-Forwarded-For"), HeaderGet(req.header, "X-Real-Ip"), req.remoteAddr;
      xff == "" && xri == "" ==>
        if ':' in addr then |ip| < |addr| && addr[..|ip|] == ip && addr[|ip|] == ':' && ':' !in addr[|ip| + 1..]
        else ip == addr
  {
    var xff := HeaderGet(req.header, "X-Forwarded-For");
    if xff != "" then
      TakeUntilIndex(xff, ',');
      var idx := Index(xff, ',');
      if idx != -1 then TrimSpace(xff[..idx]) else TrimSpace(xff)
    else
      var xri := HeaderGet(req.header, "X-Real-Ip");
      if xri != "" then xri
      else
        var idx := LastIndex(req.remoteAddr, ':');
        if idx != -1 then req.remoteAddr[..idx] else req.remoteAddr
  }

  /** The first `X-Forwarded-For` entry never holds a comma. */
  lemma ForwardedForEntryHasNoComma(req: Request)
    requires HeaderGet(req.header, "X-Forwarded-For") != ""
    ensures ',' !in GetClientIP(req)
  {
    var xff := HeaderGet(req.header, "X-Forwarded-For");
    TakeUntilExcludes(xff, ',');
    TrimSpaceKeepsChars(TakeUntil(xff, ','), ',');
  }

  /** A non-empty `X-Forwarded-For` wins over `X-Real-Ip` and the remote
      address: changing those does not change the key. */
  lemma ForwardedForWins(req: Request, xri: seq<string>, addr: string)
    requires HeaderGet(req.header, "X-Forwarded-For") != ""
    ensures GetClientIP(Request(req.header["X-Real-Ip" := xri], addr)) == GetClientIP(req)
  {
    assert HeaderGet(req.header["X-Real-Ip" := xri], "X-Forwarded-For") == HeaderGet(req.header, "X-Forwarded-For");
  }
}
