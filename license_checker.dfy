/**
 * The license verdict engine of lib/license-checker.ts: one lookup by key, a
 * first-match-wins verdict chain, and one audit-log append whenever the key
 * resolves to a stored row.
 */
module LicenseChecker {
  import opened Optional

  /** The stored `status` column of a license row. */
  datatype LicenseStatus = Active | Expired | Blocked | Deleted

  /** The JSON `allowedIps` column: `null`, or an array of strings. */
  datatype IpField = Absent | Ips(list: seq<string>)

  /** A license row; timestamps are integer milliseconds. */
  datatype License = License(
    id: string,
    key: string,
    name: Option<string>,
    description: Option<string>,
    status: LicenseStatus,
    expiresAt: int,
    allowedIps: IpField,
    createdAt: int,
    createdBy: string)

  /** The `result` column of an audit-log row. */
  datatype LogResult = Valid | Expired | Blocked | Invalid | IpBlocked

  /** One audit-log row. */
  datatype LogEntry = LogEntry(licenseId: string, ip: string, userAgent: string, result: LogResult, createdAt: int)

  /** The `status` a caller sees. */
  datatype CheckStatus = Valid | Expired | Blocked | Invalid | IpBlocked

  datatype CheckResult = CheckResult(status: CheckStatus, message: string)

  /**
   * How the two database calls of one check behave: both succeed, the lookup
   * throws, or the lookup succeeds and the log insert throws.
   */
  datatype StoreFault = NoFault | LookupFails | AppendFails

  const NotFound := CheckResult(CheckStatus.Invalid, "License not found")
  const BlockedResult := CheckResult(CheckStatus.Blocked, "License is blocked")
  const ExpiredResult := CheckResult(CheckStatus.Expired, "License has expired")
  const IpNotAllowed := CheckResult(CheckStatus.IpBlocked, "IP address not allowed")
  const ValidResult := CheckResult(CheckStatus.Valid, "License is valid")
  const InternalError := CheckResult(CheckStatus.Invalid, "Internal error")

  /**
   * The list the checker tests the caller against: a null column stands for the
   * wildcard list, a stored array (even an empty one) for itself.
   */
  function EffectiveIps(f: IpField): (r: seq<string>)
    ensures f.Ips? ==> r == f.list
    ensures r == [] <==> f == Ips([])
    ensures "*" in r <==> f.Absent? || "*" in f.list
  {
    match f
    case Absent => ["*"]
    case Ips(list) => list
  }

  /** Whether the stored column admits `ip`: it is null, holds the wildcard, or lists `ip`. */
  predicate IpAllowed(f: IpField, ip: string)
    ensures IpAllowed(f, ip) <==> f.Absent? || "*" in f.list || ip in f.list
  {
    "*" in EffectiveIps(f) || ip in EffectiveIps(f)
  }

  /**
   * Expiry is re-derived from the timestamp on every check: a row is expired
   * when its status says so or its `expiresAt` lies before `now`; `expiresAt ==
   * now` is not yet expired.
   */
  predicate IsExpired(license: License, now: int)
    ensures !IsExpired(license, now) ==> !license.status.Expired? && now <= license.expiresAt
  {
    license.status == LicenseStatus.Expired || license.expiresAt < now
  }

  /** A verdict together with the code that would be logged for it. */
  datatype Evaluation = Evaluation(response: CheckResult, code: LogResult)

  /**
   * The checker's first-match chain on the lookup's answer `row`. It only ever
   * answers with one of the five fixed verdicts, logs the code that belongs to
   * the verdict, and says `valid` only for a live, unexpired row that admits `ip`.
   */
  function Evaluate(row: Option<License>, ip: string, now: int): (e: Evaluation)
    ensures e.response in {NotFound, BlockedResult, ExpiredResult, IpNotAllowed, ValidResult}
    ensures e.code == CodeOf(e.response.status)
    ensures e.response == ValidResult <==>
      row.Some? && row.value.status.Active? && !IsExpired(row.value, now) && IpAllowed(row.value.allowedIps, ip)
  {
    if row.None? then Evaluation(NotFound, LogResult.Invalid)
    else if row.value.status == LicenseStatus.Deleted then Evaluation(NotFound, LogResult.Invalid)
    else if row.value.status == LicenseStatus.Blocked then Evaluation(BlockedResult, LogResult.Blocked)
    else if IsExpired(row.value, now) then Evaluation(ExpiredResult, LogResult.Expired)
    else if !IpAllowed(row.value.allowedIps, ip) then Evaluation(IpNotAllowed, LogResult.IpBlocked)
    else Evaluation(ValidResult, LogResult.Valid)
  }

  /** The audit code that belongs to each verdict. */
  function CodeOf(status: CheckStatus): LogResult
  {
    match status
    case Valid => LogResult.Valid
    case Expired => LogResult.Expired
    case Blocked => LogResult.Blocked
    case Invalid => LogResult.Invalid
    case IpBlocked => LogResult.IpBlocked
  }

  function Lookup(licenses: map<string, License>, key: string): Option<License>
  {
    if key in licenses then Some(licenses[key]) else None
  }

  /** What one call returns and what it appends to the log. */
  datatype CheckOutcome = CheckOutcome(response: CheckResult, appended: seq<LogEntry>)

  /**
   * The whole of `checkLicense`, with the try/catch: a throwing lookup or insert
   * becomes "Internal error" and nothing is appended.
   */
  function Check(licenses: map<string, License>, key: string, ip: string,
                 userAgent: Option<string>, now: int, fault: StoreFault): (o: CheckOutcome)
    ensures |o.appended| <= 1
    ensures |o.appended| == 1 <==> key in licenses && fault.NoFault?
    ensures o.appended != [] ==>
      o.appended[0] == LogEntry(licenses[key].id, ip, UserAgentOrEmpty(userAgent),
                                CodeOf(o.response.status), now)
    ensures o.response.status == CheckStatus.Valid ==> key in licenses && fault.NoFault?
  {
    if fault.LookupFails? then CheckOutcome(InternalError, [])
    else
      var e := Evaluate(Lookup(licenses, key), ip, now);
      if key !in licenses then CheckOutcome(e.response, [])
      else if fault.AppendFails? then CheckOutcome(InternalError, [])
      else CheckOutcome(e.response, [LogEntry(licenses[key].id, ip, UserAgentOrEmpty(userAgent), e.code, now)])
  }

  /** The user-agent written to the log: the one given, or the empty string when none was. */
  function UserAgentOrEmpty(userAgent: Option<string>): (r: string)
    ensures r == "" <==> userAgent.None? || userAgent.value == ""
    ensures r != "" ==> userAgent == Some(r)
  {
    if userAgent.Some? then userAgent.value else ""
  }

  /** The license and audit-log tables. */
  class LicenseStore {
    var licenses: map<string, License>
    var logs: seq<LogEntry>

    constructor (licenses: map<string, License>)
      ensures this.licenses == licenses && logs == []
    {
      this.licenses := licenses;
      logs := [];
    }

    /** One license check against the stored tables, at the caller-supplied time `now`. */
    method CheckLicense(key: string, ip: string, userAgent: Option<string>, now: int, fault: StoreFault)
      returns (r: CheckResult)
      modifies this`logs
      ensures r == Check(licenses, key, ip, userAgent, now, fault).response
      ensures logs == old(logs) + Check(licenses, key, ip, userAgent, now, fault).appended
    {
      if fault.LookupFails? {
        return InternalError;
      }
      var row := Lookup(licenses, key);
      var e := Evaluate(row, ip, now);
      if row.Some? {
        if fault.AppendFails? {
          return InternalError;
        }
        logs := logs + [LogEntry(row.value.id, ip, UserAgentOrEmpty(userAgent), e.code, now)];
      }
      r := e.response;
    }
  }

  /** The logged code always corresponds to the verdict returned. */
  lemma CodeMatchesVerdict(row: Option<License>, ip: string, now: int)
    ensures Evaluate(row, ip, now).code == CodeOf(Evaluate(row, ip, now).response.status)
  {
  }

  /** The chain read as five disjoint conditions. */
  lemma VerdictOrder(row: Option<License>, ip: string, now: int)
    ensures Evaluate(row, ip, now).response == NotFound
            <==> row.None? || row.value.status == LicenseStatus.Deleted
    ensures Evaluate(row, ip, now).response.status == CheckStatus.Blocked
            <==> row.Some? && row.value.status == LicenseStatus.Blocked
    ensures Evaluate(row, ip, now).response.status == CheckStatus.Expired
            <==> row.Some? && row.value.status in {LicenseStatus.Active, LicenseStatus.Expired}
                 && IsExpired(row.value, now)
    ensures Evaluate(row, ip, now).response.status == CheckStatus.IpBlocked
            <==> row.Some? && row.value.status == LicenseStatus.Active && !IsExpired(row.value, now)
                 && !IpAllowed(row.value.allowedIps, ip)
    ensures Evaluate(row, ip, now).response.status == CheckStatus.Valid
            <==> row.Some? && row.value.status == LicenseStatus.Active && !IsExpired(row.value, now)
                 && IpAllowed(row.value.allowedIps, ip)
  {
  }

  /** An unknown key: "License not found" and nothing logged. */
  lemma MissingKeyNotLogged(licenses: map<string, License>, key: string, ip: string,
                            userAgent: Option<string>, now: int, fault: StoreFault)
    requires key !in licenses && !fault.LookupFails?
    ensures Check(licenses, key, ip, userAgent, now, fault) == CheckOutcome(NotFound, [])
  {
  }

  /**
   * A soft-deleted row answers exactly like an unknown key, yet one INVALID
   * entry is logged for it, since the logging test is row existence only.
   */
  lemma DeletedAnswersLikeMissing(licenses: map<string, License>, key: string, ip: string,
                                  userAgent: Option<string>, now: int)
    requires key in licenses && licenses[key].status == LicenseStatus.Deleted
    ensures Check(licenses, key, ip, userAgent, now, NoFault).response
            == Check(licenses - {key}, key, ip, userAgent, now, NoFault).response
    ensures Check(licenses, key, ip, userAgent, now, NoFault).appended
            == [LogEntry(licenses[key].id, ip, UserAgentOrEmpty(userAgent), LogResult.Invalid, now)]
    ensures Check(licenses - {key}, key, ip, userAgent, now, NoFault).appended == []
  {
  }

  /** BLOCKED wins over an elapsed expiry and over the IP list. */
  lemma BlockedBeatsExpiry(licenses: map<string, License>, key: string, ip: string,
                           userAgent: Option<string>, now: int)
    requires key in licenses && licenses[key].status == LicenseStatus.Blocked
    ensures Check(licenses, key, ip, userAgent, now, NoFault)
            == CheckOutcome(BlockedResult,
                            [LogEntry(licenses[key].id, ip, UserAgentOrEmpty(userAgent), LogResult.Blocked, now)])
  {
  }

  /** Expiry is strict: a row whose `expiresAt` equals `now` is still checked against its IP list. */
  lemma ExpiryIsStrict(license: License, ip: string, now: int)
    requires license.status == LicenseStatus.Active && license.expiresAt == now
    ensures Evaluate(Some(license), ip, now).response
            == (if IpAllowed(license.allowedIps, ip) then ValidResult else IpNotAllowed)
    ensures Evaluate(Some(license), ip, now + 1).response == ExpiredResult
  {
  }

  /** Expiry is permanent: a row expired at `now` is expired at every later time. */
  lemma ExpiryIsPermanent(license: License, now: int, later: int)
    requires IsExpired(license, now) && now <= later
    ensures IsExpired(license, later)
  {
  }

  /** A live license restricted to one address is valid from that address and ip_blocked elsewhere. */
  lemma SingleAddressList(license: License, ip: string, now: int)
    requires license.status == LicenseStatus.Active && !IsExpired(license, now)
    requires license.allowedIps.Ips? && |license.allowedIps.list| == 1 && license.allowedIps.list[0] != "*"
    ensures Evaluate(Some(license), ip, now).response
            == (if ip == license.allowedIps.list[0] then ValidResult else IpNotAllowed)
  {
    assert license.allowedIps.list == [license.allowedIps.list[0]];
  }

  /** A null list admits every IP; an empty array admits none. */
  lemma AllowListDefaults(ip: string)
    ensures IpAllowed(Absent, ip)
    ensures !IpAllowed(Ips([]), ip)
    ensures IpAllowed(Ips(["*"]), ip)
  {
  }

  /** Any failing database call yields "Internal error" and no log entry; nothing escapes. */
  lemma FaultsFailClosed(licenses: map<string, License>, key: string, ip: string,
                         userAgent: Option<string>, now: int, fault: StoreFault)
    requires fault.LookupFails? || (fault.AppendFails? && key in licenses)
    ensures Check(licenses, key, ip, userAgent, now, fault) == CheckOutcome(InternalError, [])
  {
  }

  /**
   * With both database calls succeeding the answer is the chain's answer on the
   * looked-up row; a failing call can only replace it by "Internal error".
   */
  lemma CheckAnswersEvaluate(licenses: map<string, License>, key: string, ip: string,
                             userAgent: Option<string>, now: int, fault: StoreFault)
    ensures Check(licenses, key, ip, userAgent, now, NoFault).response
            == Evaluate(Lookup(licenses, key), ip, now).response
    ensures Check(licenses, key, ip, userAgent, now, fault).response
            in {Evaluate(Lookup(licenses, key), ip, now).response, InternalError}
  {
  }

  /** A string that is not in `list`: one longer than every entry. */
  function Unlisted(list: seq<string>): (w: string)
    ensures forall i :: 0 <= i < |list| ==> |list[i]| < |w|
    ensures w !in list
  {
    if list == [] then ""
    else
      var t := Unlisted(list[1..]);
      var w := if |list[0]| < |t| then t else list[0] + "*";
      assert forall i :: 1 <= i < |list| ==> list[i] == list[1..][i - 1];
      w
  }

  /**
   * A stored list admits every address exactly when it is null or holds the
   * wildcard: any finite list of addresses leaves some address out.
   */
  lemma OpenToAllIffWildcard(f: IpField)
    ensures (forall ip :: IpAllowed(f, ip)) <==> f.Absent? || "*" in f.list
  {
    if f.Ips? && "*" !in f.list {
      var w := Unlisted(f.list);
      assert !IpAllowed(f, w);
    }
  }
}
