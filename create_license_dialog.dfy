/**
 * The submit handler of components/create-license-dialog.tsx: the admin's
 * comma-separated allowed-IP text becomes the stored list, and empty name or
 * description fields become `null`.
 */
module CreateLicenseDialog {
  import opened Optional
  import opened Text
  import opened LicenseChecker

  /** The initial content of the allowed-IP field. */
  const DefaultIpText: string := "*"

  /** Comma-separated entries, each trimmed, empty ones dropped. */
  function ParseIps(text: string): (r: seq<string>)
    ensures forall x :: x in r ==> x != "" && IsTrimmed(x) && ',' !in x
  {
    SplitTrimmed(text, ',')
  }

  /** The wildcard list when nothing is left or any entry is the wildcard, else the entries. */
  function SubmittedIps(text: string): (r: seq<string>)
    ensures r != []
    ensures "*" in r ==> r == ["*"]
    ensures r == ["*"] <==> ParseIps(text) == [] || "*" in ParseIps(text)
    ensures r != ["*"] ==> r == ParseIps(text)
  {
    var ips := ParseIps(text);
    if ips == [] || "*" in ips then ["*"] else ips
  }

  /** The JSON body POSTed to /api/licenses. */
  datatype CreateRequest = CreateRequest(
    name: Option<string>,
    description: Option<string>,
    expiresAt: int,
    allowedIps: seq<string>)

  /** `handleSubmit`'s request body, with the date already in milliseconds. */
  function Submission(name: string, description: string, expiresAt: int, ipText: string): (r: CreateRequest)
    ensures r.name.None? <==> name == ""
    ensures r.description.None? <==> description == ""
    ensures r.allowedIps != []
  {
    CreateRequest(NullIfEmpty(name), NullIfEmpty(description), expiresAt, SubmittedIps(ipText))
  }

  /** The untouched default field submits the wildcard list. */
  lemma DefaultAllowsAnyIp()
    ensures SubmittedIps(DefaultIpText) == ["*"]
  {
    SplitTrimmedStar(',');
  }

  /** A comma-joined list of addresses without a wildcard is submitted as it was typed. */
  lemma SubmittedIpsRoundTrip(ips: seq<string>)
    requires ips != [] && "*" !in ips && WellFormedList(ips, ',')
    ensures SubmittedIps(Join(ips, [','])) == ips
  {
    SplitTrimmedJoin(ips, ',');
  }

  /** A wildcard anywhere collapses the whole list to `["*"]`. */
  lemma WildcardCollapses(ips: seq<string>)
    requires "*" in ips && WellFormedList(ips, ',')
    ensures SubmittedIps(Join(ips, [','])) == ["*"]
  {
    SplitTrimmedJoin(ips, ',');
  }

  /**
   * The license the checker later sees admits an address iff the admin typed it,
   * typed a wildcard, or typed nothing at all.
   */
  lemma SubmittedListAsChecked(text: string, ip: string)
    ensures IpAllowed(Ips(SubmittedIps(text)), ip)
            <==> ParseIps(text) == [] || "*" in ParseIps(text) || ip in ParseIps(text)
  {
  }

  /**
   * The end-to-end scenario: a license created from the text "10.0.0.1", active
   * and not expired, is valid from 10.0.0.1 and ip_blocked from 10.0.0.2.
   */
  lemma CreatedLicenseScenario(license: License, typed: string, now: int)
    requires typed == "10.0.0.1"
    requires license.status == LicenseStatus.Active && license.expiresAt >= now
    requires license.allowedIps == Ips(SubmittedIps(typed))
    ensures Evaluate(Some(license), "10.0.0.1", now).response.status == CheckStatus.Valid
    ensures Evaluate(Some(license), "10.0.0.2", now).response.status == CheckStatus.IpBlocked
  {
    SingleAddressSubmitted();
    SingleAddressList(license, "10.0.0.1", now);
    SingleAddressList(license, "10.0.0.2", now);
  }

  lemma SingleAddressSubmitted()
    ensures SubmittedIps("10.0.0.1") == ["10.0.0.1"]
  {
    var one := "10.0.0.1";
    assert !IsWhitespace(one[0]) && !IsWhitespace(one[|one| - 1]);
    assert forall i :: 0 <= i < |one| ==> one[i] != ',' && one[i] != '*';
    assert WellFormedList([one], ',');
    SubmittedIpsRoundTrip([one]);
    assert Join([one], [',']) == one;
  }
}
