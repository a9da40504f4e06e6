/**
 * The ungated endpoint app/api/check-license-simple/route.ts: the same key check
 * and license check as the gated route, with no rate limiter on any path. Its
 * `getClientIP` is a verbatim copy of the gated route's, so the model reuses
 * `CheckLicenseRoute.ClientIp`.
 */
module CheckLicenseSimpleRoute {
  import opened Optional
  import opened LicenseChecker
  import opened CheckLicenseRoute

  /** `GET /api/check-license-simple?key=…`; the signature has no limiter to consult. */
  method Get(db: LicenseStore, req: Request, now: int, connect: DbConnect, fault: StoreFault)
    returns (resp: Response)
    modifies db`logs
    ensures !connect.Connected? ==> resp == ConnectFailure(connect).value && db.logs == old(db.logs)
    ensures connect.Connected? && !Truthy(req.key) ==> resp == KeyRequired && db.logs == old(db.logs)
    ensures connect.Connected? && Truthy(req.key) ==>
      var o := Check(db.licenses, req.key.value, ClientIp(req), UserAgentOf(req), now, fault);
      resp == Response(200, Verdict(o.response), None) && db.logs == old(db.logs) + o.appended
  {
    var failure := ConnectFailure(connect);
    if failure.Some? {
      return failure.value;
    }
    if !Truthy(req.key) {
      return KeyRequired;
    }
    var clientIp := ClientIp(req);
    var result := db.CheckLicense(req.key.value, clientIp, UserAgentOf(req), now, fault);
    resp := Response(200, Verdict(result), None);
  }
}
