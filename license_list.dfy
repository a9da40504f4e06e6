/**
 * The admin table of components/license-list.tsx: how a row shows its allowed
 * IPs and its key, and which status the block/activate action sends.
 */
module LicenseList {
  import opened Text
  import opened LicenseChecker

  /**
   * The allowed-IP cell: "Any IP" for a null list or a list holding the
   * wildcard, else the entries joined with a comma and a space. A license the
   * checker opens to every address is always shown as "Any IP".
   */
  function FormatIps(f: IpField): (r: string)
    ensures (forall ip :: IpAllowed(f, ip)) ==> r == "Any IP"
    ensures r != "Any IP" ==> f.Ips? && forall ip :: IpAllowed(f, ip) <==> ip in f.list
  {
    if f.Absent? then "Any IP"
    else if "*" in f.list then "Any IP"
    else
      OpenToAllIffWildcard(f);
      Join(f.list, ", ")
  }

  /** The row action: an ACTIVE license offers "Block", every other status "Activate". */
  function ToggleTarget(status: LicenseStatus): (r: LicenseStatus)
    ensures r.Blocked? <==> status.Active?
    ensures r.Active? <==> !status.Active?
  {
    if status.Active? then LicenseStatus.Blocked else LicenseStatus.Active
  }

  /** The key cell: its first eight characters (all of a shorter key) and an ellipsis. */
  function DisplayKey(key: string): (r: string)
    ensures |key| >= 8 ==> r == key[..8] + "..."
    ensures |key| < 8 ==> r == key + "..."
  {
    (if |key| < 8 then key else key[..8]) + "..."
  }

  /**
   * What the table shows agrees with what the checker enforces: "Any IP" from a
   * null or wildcard list that admits everyone, otherwise the joined list of
   * exactly the admitted addresses.
   */
  lemma DisplayAgreesWithChecker(f: IpField)
    ensures f.Absent? || "*" in f.list ==> FormatIps(f) == "Any IP" && forall ip :: IpAllowed(f, ip)
    ensures (forall ip :: IpAllowed(f, ip)) <==> f.Absent? || "*" in f.list
    ensures f.Ips? && "*" !in f.list ==>
      FormatIps(f) == Join(f.list, ", ") && forall ip :: IpAllowed(f, ip) <==> ip in f.list
  {
    OpenToAllIffWildcard(f);
  }

  /** Toggling twice returns an ACTIVE or BLOCKED license to where it was; EXPIRED goes to ACTIVE. */
  lemma ToggleBackAndForth(status: LicenseStatus)
    ensures status.Active? || status.Blocked? ==> ToggleTarget(ToggleTarget(status)) == status
    ensures status.Expired? ==> ToggleTarget(status).Active?
  {
  }

  /** Keys that agree on their first 8 characters show the same text. */
  lemma DisplayKeyOnlyShowsPrefix(a: string, b: string)
    requires |a| >= 8 && |b| >= 8 && a[..8] == b[..8]
    ensures DisplayKey(a) == DisplayKey(b)
    ensures |DisplayKey(a)| == 11
  {
  }
}
