/**
 * The edit form of components/edit-license-dialog.tsx: the stored allowed-IP
 * list is shown one address per line, and on submit the lines are parsed back,
 * with an empty result replaced by `["*"]`.
 */
module EditLicenseDialog {
  import opened Optional
  import opened Text
  import opened LicenseChecker

  /**
   * The text the IP field opens with: a stored array one entry per line, a null
   * column as the wildcard. Parsing it back returns a well-formed stored array.
   */
  function InitialIpText(stored: IpField): (t: string)
    ensures stored.Absent? ==> t == "*"
    ensures stored.Ips? && WellFormedList(stored.list, '\n') ==> ParseIps(t) == stored.list
  {
    match stored
    case Ips(list) =>
      ParsesBack(list);
      Join(list, "\n")
    case Absent => "*"
  }

  lemma ParsesBack(list: seq<string>)
    ensures WellFormedList(list, '\n') ==> ParseIps(Join(list, "\n")) == list
  {
    if WellFormedList(list, '\n') {
      SplitTrimmedJoin(list, '\n');
    }
  }

  /** One entry per line, each trimmed, blank lines dropped. */
  function ParseIps(text: string): (r: seq<string>)
    ensures forall x :: x in r ==> x != "" && IsTrimmed(x) && '\n' !in x
  {
    SplitTrimmed(text, '\n')
  }

  /** The parsed lines, or the wildcard list when none is left; no wildcard collapse here. */
  function SubmittedIps(text: string): (r: seq<string>)
    ensures r != []
    ensures ParseIps(text) != [] ==> r == ParseIps(text)
    ensures ParseIps(text) == [] ==> r == ["*"]
  {
    var ips := ParseIps(text);
    if |ips| > 0 then ips else ["*"]
  }

  /** The name field opens with the stored name, or empty when there is none. */
  function InitialName(name: Option<string>): (r: string)
    ensures r == "" <==> name.None? || name.value == ""
    ensures r != "" ==> name == Some(r)
  {
    if name.Some? then name.value else ""
  }

  /** The statuses the form's select offers. */
  const StatusChoices: seq<LicenseStatus> := [LicenseStatus.Active, LicenseStatus.Blocked, LicenseStatus.Expired]

  /** The status sent: the one picked in the select, or else the license's own. */
  function SubmittedStatus(current: LicenseStatus, picked: Option<LicenseStatus>): (r: LicenseStatus)
    requires picked.Some? ==> picked.value in StatusChoices
    ensures r == current || r in StatusChoices
    ensures r.Deleted? ==> current.Deleted?
  {
    if picked.Some? then picked.value else current
  }

  /** The JSON body PATCHed to /api/licenses/{id}. */
  datatype EditRequest = EditRequest(name: Option<string>, status: LicenseStatus, expiresAt: int, allowedIps: seq<string>)

  function Submission(nameText: string, status: LicenseStatus, expiresAt: int, ipText: string): (r: EditRequest)
    ensures r.name.None? <==> nameText == ""
    ensures r.allowedIps != []
  {
    EditRequest(NullIfEmpty(nameText), status, expiresAt, SubmittedIps(ipText))
  }

  /** Opening the form on a well-formed non-empty list and saving it unchanged keeps the list. */
  lemma UnchangedListRoundTrip(list: seq<string>)
    requires list != [] && WellFormedList(list, '\n')
    ensures SubmittedIps(InitialIpText(Ips(list))) == list
  {
    SplitTrimmedJoin(list, '\n');
  }

  /**
   * Saving unchanged turns a null list into `["*"]`; by
   * `LicenseChecker.AllowListDefaults` both let every address in.
   */
  lemma NullListReadsBackAsWildcard()
    ensures SubmittedIps(InitialIpText(Absent)) == ["*"]
  {
    assert InitialIpText(Absent) == "*";
    SplitTrimmedStar('\n');
  }

  /**
   * Saving unchanged turns a stored empty list into `["*"]`: by
   * `LicenseChecker.AllowListDefaults` the first lets no address in, the second
   * every address.
   */
  lemma EmptyListWidensToWildcard()
    ensures SubmittedIps(InitialIpText(Ips([]))) == ["*"]
  {
    assert InitialIpText(Ips([])) == "";
    SplitTrimmedEmpty('\n');
  }

  /** A wildcard line next to addresses is kept as typed, not collapsed to `["*"]`. */
  lemma WildcardNotCollapsed(list: seq<string>)
    requires "*" in list && |list| >= 2 && WellFormedList(list, '\n')
    ensures SubmittedIps(Join(list, "\n")) == list != ["*"]
  {
    SplitTrimmedJoin(list, '\n');
  }

  /**
   * Saving, reopening and saving again unchanged stores the same list: what a
   * save writes is already a fixed point of the form.
   */
  lemma ReopenSaveIsStable(text: string)
    ensures SubmittedIps(InitialIpText(Ips(SubmittedIps(text)))) == SubmittedIps(text)
  {
    var saved := SubmittedIps(text);
    if ParseIps(text) == [] {
      StarIsWellFormed('\n');
    }
    assert WellFormedList(saved, '\n');
    UnchangedListRoundTrip(saved);
  }

  /** Saving the name field unchanged keeps the stored name (an empty name reads back as null). */
  lemma NameRoundTrip(name: Option<string>)
    requires name.Some? ==> name.value != ""
    ensures NullIfEmpty(InitialName(name)) == name
  {
  }
}
