/**
 * The rate-gated endpoint app/api/check-license/route.ts: resolve the client IP
 * from the proxy headers, charge the rate limiter for it, and only then look at
 * the key and hand it to the license checker.
 */
module CheckLicenseRoute {
  import opened Optional
  import opened Text
  import opened LicenseChecker
  import RateLimit

  /** The parts of an incoming request the routes read; an absent header is `None`. */
  datatype Request = Request(
    forwardedFor: Option<string>,    // x-forwarded-for
    realIp: Option<string>,          // x-real-ip
    cfConnectingIp: Option<string>,  // cf-connecting-ip
    directIp: Option<string>,        // request.ip
    userAgent: Option<string>,       // user-agent
    key: Option<string>)             // ?key=

  /** JavaScript truthiness of a header or parameter: present and not "". */
  predicate Truthy(h: Option<string>)
  {
    h.Some? && h.value != ""
  }

  /** `getClientIP`: the first truthy source in the fixed precedence order. */
  function ClientIp(req: Request): (ip: string)
    ensures Truthy(req.forwardedFor) ==> ',' !in ip && IsTrimmed(ip)
    ensures ip == "" ==> Truthy(req.forwardedFor)
  {
    if Truthy(req.forwardedFor) then
      var first := Trim(Split(req.forwardedFor.value, ',')[0]);
      assert forall c :: c in first ==> c in Split(req.forwardedFor.value, ',')[0];
      first
    else if Truthy(req.realIp) then req.realIp.value
    else if Truthy(req.cfConnectingIp) then req.cfConnectingIp.value
    else if Truthy(req.directIp) then req.directIp.value
    else "unknown"
  }

  /** What the route answers: `{status: "rate_limited", …}`, a verdict, or a database error. */
  datatype Body =
    | Verdict(result: CheckResult)
    | RateLimited(message: string, retryAfter: int)
    | DatabaseError(error: string)

  /** The X-RateLimit-Limit, -Remaining, -Reset and Retry-After header values. */
  datatype RateHeaders = RateHeaders(limit: int, remaining: int, reset: int, retryAfter: Option<int>)

  datatype Response = Response(status: int, body: Body, headers: Option<RateHeaders>)

  /** How `prisma.$connect()` inside `withDatabase` behaves. */
  datatype DbConnect = Connected | Unreachable | UnknownDatabase | OtherFailure

  /** The answer `withDatabase` gives instead of running the handler, if any. */
  function ConnectFailure(connect: DbConnect): (r: Option<Response>)
    ensures r.None? <==> connect.Connected?
    ensures r.Some? ==> r.value.status in {500, 503} && r.value.body.DatabaseError?
  {
    match connect
    case Connected => None
    case Unreachable => Some(Response(503, DatabaseError("Database connection failed"), None))
    case UnknownDatabase => Some(Response(503, DatabaseError("Database not found"), None))
    case OtherFailure => Some(Response(500, DatabaseError("Internal server error"), None))
  }

  const KeyRequired := Response(400, Verdict(CheckResult(CheckStatus.Invalid, "License key is required")), None)

  /**
   * The user-agent handed to the checker: the header when it is non-empty,
   * otherwise none; either way the log records the header's text or "".
   */
  function UserAgentOf(req: Request): (r: Option<string>)
    ensures r.Some? ==> r.value != "" && r == req.userAgent
    ensures UserAgentOrEmpty(r) == (if req.userAgent.Some? then req.userAgent.value else "")
  {
    if Truthy(req.userAgent) then req.userAgent else None
  }

  /**
   * The 429 answer for a refused gate: the body's retry hint and the Retry-After
   * header carry the same number, and the X-RateLimit headers repeat the gate's.
   */
  function RateLimitedResponse(gate: RateLimit.RateLimitResult): (r: Response)
    ensures r.status == 429 && r.body.RateLimited? && r.headers.Some?
    ensures r.headers.value.retryAfter == Some(r.body.retryAfter) && r.body.retryAfter == gate.retryAfter
    ensures r.headers.value.limit == gate.limit && r.headers.value.remaining == gate.remaining
            && r.headers.value.reset == gate.reset
  {
    Response(429, RateLimited("Too many requests. Please try again later.", gate.retryAfter),
             Some(RateHeaders(gate.limit, gate.remaining, gate.reset, Some(gate.retryAfter))))
  }

  /**
   * The headers of a 200 answer: no Retry-After, the gate's limit and reset, and
   * an X-RateLimit-Remaining one below the gate's (see `RemainingHeaderIsOneLow`).
   */
  function SuccessHeaders(gate: RateLimit.RateLimitResult): (h: RateHeaders)
    ensures h.retryAfter.None? && h.limit == gate.limit && h.reset == gate.reset
    ensures h.remaining + 1 == gate.remaining
  {
    RateHeaders(gate.limit, gate.remaining - 1, gate.reset, None)
  }

  /** The limiter's answer for this request. */
  function Gate(store: map<string, RateLimit.Entry>, req: Request, now: int): RateLimit.Step
  {
    RateLimit.Apply(store, ClientIp(req), RateLimit.DefaultLimit, RateLimit.DefaultWindowMs, now)
  }

  /** `GET /api/check-license?key=…`. */
  method Get(limiter: RateLimit.RateLimiter, db: LicenseStore, req: Request, now: int,
             connect: DbConnect, fault: StoreFault) returns (resp: Response)
    modifies limiter, db`logs
    ensures limiter.store == Gate(old(limiter.store), req, now).store
    ensures var gate := Gate(old(limiter.store), req, now).result;
      !gate.success ==> resp == RateLimitedResponse(gate) && db.logs == old(db.logs)
    ensures var gate := Gate(old(limiter.store), req, now).result;
      gate.success && !connect.Connected? ==> resp == ConnectFailure(connect).value && db.logs == old(db.logs)
    ensures var gate := Gate(old(limiter.store), req, now).result;
      gate.success && connect.Connected? && !Truthy(req.key) ==> resp == KeyRequired && db.logs == old(db.logs)
    ensures var gate := Gate(old(limiter.store), req, now).result;
      gate.success && connect.Connected? && Truthy(req.key) ==>
        var o := Check(db.licenses, req.key.value, ClientIp(req), UserAgentOf(req), now, fault);
        resp == Response(200, Verdict(o.response), Some(SuccessHeaders(gate)))
        && db.logs == old(db.logs) + o.appended
  {
    var clientIp := ClientIp(req);
    var gate := limiter.RateLimit(clientIp, RateLimit.DefaultLimit, RateLimit.DefaultWindowMs, now);
    if !gate.success {
      return RateLimitedResponse(gate);
    }
    var failure := ConnectFailure(connect);
    if failure.Some? {
      return failure.value;
    }
    if !Truthy(req.key) {
      return KeyRequired;
    }
    var result := db.CheckLicense(req.key.value, clientIp, UserAgentOf(req), now, fault);
    resp := Response(200, Verdict(result), Some(SuccessHeaders(gate)));
  }

  /** The header precedence: forwarded-for, then x-real-ip, then cf-connecting-ip, then the socket. */
  lemma ClientIpPrecedence(req: Request)
    ensures Truthy(req.forwardedFor) ==> ClientIp(req) == Trim(Split(req.forwardedFor.value, ',')[0])
    ensures !Truthy(req.forwardedFor) && Truthy(req.realIp) ==> ClientIp(req) == req.realIp.value
    ensures !Truthy(req.forwardedFor) && !Truthy(req.realIp) && Truthy(req.cfConnectingIp)
            ==> ClientIp(req) == req.cfConnectingIp.value
    ensures !Truthy(req.forwardedFor) && !Truthy(req.realIp) && !Truthy(req.cfConnectingIp)
            ==> ClientIp(req) == (if Truthy(req.directIp) then req.directIp.value else "unknown")
  {
  }

  /**
   * A proxy chain whose first element is a trimmed address resolves to that
   * address, whatever follows the first comma (", "-separated chains included).
   */
  lemma ForwardedChainGivesFirstHop(req: Request, first: string, rest: string)
    requires ',' !in first && IsTrimmed(first)
    requires req.forwardedFor == Some(first + [','] + rest)
    ensures ClientIp(req) == first
  {
    SplitAfterPiece(first, ',', rest);
  }

  /** A forwarded-for whose first element is blank resolves to the empty IP. */
  lemma BlankFirstHopGivesEmptyIp(req: Request)
    requires req.forwardedFor == Some(" ,10.0.0.1")
    ensures ClientIp(req) == ""
  {
    var s := " ,10.0.0.1";
    assert s == " " + [','] + "10.0.0.1";
    SplitAfterPiece(" ", ',', "10.0.0.1");
    assert Split(s, ',')[0] == " ";
    assert TrimStart(" ") == "";
    assert Trim(" ") == "";
  }

  /**
   * A refused request is answered with X-RateLimit-Remaining 0 and a retry hint
   * of the whole seconds, rounded up, until the window closes; never negative.
   */
  lemma RefusalReportsWait(store: map<string, RateLimit.Entry>, req: Request, now: int)
    requires !Gate(store, req, now).result.success
    ensures ClientIp(req) in store
    ensures RateLimitedResponse(Gate(store, req, now).result).headers.value.remaining == 0
    ensures RateLimitedResponse(Gate(store, req, now).result).body.retryAfter
            == RateLimit.CeilSeconds(store[ClientIp(req)].resetTime - now) >= 0
  {
  }

  /**
   * On a 200 answer X-RateLimit-Remaining is one below the number of further
   * requests the limiter will still admit in the same window.
   */
  lemma RemainingHeaderIsOneLow(store: map<string, RateLimit.Entry>, req: Request, now: int, later: seq<int>)
    requires Gate(store, req, now).result.success
    requires forall i :: 0 <= i < |later| ==> later[i] <= Gate(store, req, now).store[ClientIp(req)].resetTime
    ensures forall i :: 0 <= i < |later| ==>
      RateLimit.Run(Gate(store, req, now).store, ClientIp(req), RateLimit.DefaultLimit,
                    RateLimit.DefaultWindowMs, later)[i].success
      == (i <= SuccessHeaders(Gate(store, req, now).result).remaining)
  {
    RateLimit.RemainingCountsFurtherAdmissions(store, ClientIp(req), RateLimit.DefaultLimit,
                                               RateLimit.DefaultWindowMs, now, later);
  }
}
