/** matchStakeholderByEmail, written out identically in lib/integrations/gmail.ts and
    lib/integrations/calendar.ts: the stored email first, then a fuzzy name rule. */
module Matching {
  import opened Wrappers
  import opened Text
  import opened Domain

  /** s.email?.toLowerCase() === email.toLowerCase(); a stakeholder without an email never
      matches this way. */
  predicate EmailMatches(s: Stakeholder, email: string) {
    s.email.Some? && Lower(s.email.value) == Lower(email)
  }

  /** The lowercased names are equal, or either contains the other. */
  predicate NameMatches(s: Stakeholder, name: string) {
    var stored := Lower(s.name);
    var wanted := Lower(name);
    stored == wanted || Contains(stored, wanted) || Contains(wanted, stored)
  }

  /** The position of the first stakeholder whose email matches. */
  function FirstEmailMatch(ss: seq<Stakeholder>, email: string): (r: Option<nat>)
    ensures r.Some? ==> r.value < |ss| && EmailMatches(ss[r.value], email)
                        && forall j :: 0 <= j < r.value ==> !EmailMatches(ss[j], email)
    ensures r.None? ==> forall j :: 0 <= j < |ss| ==> !EmailMatches(ss[j], email)
  {
    if |ss| == 0 then None
    else if EmailMatches(ss[0], email) then Some(0)
    else
      match FirstEmailMatch(ss[1..], email)
      case None => None
      case Some(k) => Some(k + 1)
  }

  /** The position of the first stakeholder whose name matches. */
  function FirstNameMatch(ss: seq<Stakeholder>, name: string): (r: Option<nat>)
    ensures r.Some? ==> r.value < |ss| && NameMatches(ss[r.value], name)
                        && forall j :: 0 <= j < r.value ==> !NameMatches(ss[j], name)
    ensures r.None? ==> forall j :: 0 <= j < |ss| ==> !NameMatches(ss[j], name)
  {
    if |ss| == 0 then None
    else if NameMatches(ss[0], name) then Some(0)
    else
      match FirstNameMatch(ss[1..], name)
      case None => None
      case Some(k) => Some(k + 1)
  }

  /** The matcher: the first email match if there is one, else the first name match. */
  function MatchStakeholder(email: string, name: string, ss: seq<Stakeholder>): (r: Option<Stakeholder>)
    ensures r.None? <==> forall j :: 0 <= j < |ss| ==> !EmailMatches(ss[j], email) && !NameMatches(ss[j], name)
    ensures r.Some? ==> r.value in ss
    ensures (exists j :: 0 <= j < |ss| && EmailMatches(ss[j], email)) ==> r.Some? && EmailMatches(r.value, email)
  {
    match FirstEmailMatch(ss, email)
    case Some(k) => Some(ss[k])
    case None =>
      match FirstNameMatch(ss, name)
      case Some(k) => Some(ss[k])
      case None => None
  }

  /** `!match.email`: no email, or an empty one. */
  predicate LacksEmail(s: Stakeholder) {
    s.email.None? || s.email.value == ""
  }

  /** `!match.lastContactDate || date > match.lastContactDate` */
  predicate IsLater(d: Day, last: Option<Day>) {
    last.None? || d > last.value
  }

  /** The demo account's domains. */
  predicate IsAccountDomain(domain: string) {
    Contains(domain, "ailab") || Contains(domain, "ai-lab") || Contains(domain, "example.com")
  }

  /** A record changed at most its email and date; a changed email replaced a missing
      one, and a changed date is later than the one it replaced. */
  predicate UpdatedForward(before: Stakeholder, after: Stakeholder) {
    after == before.(email := after.email, lastContactDate := after.lastContactDate)
    && (after.email != before.email ==> LacksEmail(before))
    && (after.lastContactDate != before.lastContactDate ==>
          after.lastContactDate.Some? && IsLater(after.lastContactDate.value, before.lastContactDate))
  }

  /** SyncResult without its detail lines: what a sync reports having done. */
  datatype SyncCounts = SyncCounts(newContacts: nat, newActivities: nat, updatedStakeholders: nat)

  /** The email rule wins even over a name match earlier in the list. */
  lemma EmailBeforeName(email: string, name: string, ss: seq<Stakeholder>, k: nat)
    requires k < |ss| && EmailMatches(ss[k], email)
    requires forall j :: 0 <= j < k ==> !EmailMatches(ss[j], email)
    ensures MatchStakeholder(email, name, ss) == Some(ss[k])
  {
    assert FirstEmailMatch(ss, email) == Some(k);
  }

  /** Without an email match, the first name match in collection order is returned. */
  lemma FirstByName(email: string, name: string, ss: seq<Stakeholder>, k: nat)
    requires forall j :: 0 <= j < |ss| ==> !EmailMatches(ss[j], email)
    requires k < |ss| && NameMatches(ss[k], name)
    requires forall j :: 0 <= j < k ==> !NameMatches(ss[j], name)
    ensures MatchStakeholder(email, name, ss) == Some(ss[k])
  {
    assert FirstNameMatch(ss, name) == Some(k);
  }

  /** Every name contains the empty string, so an empty candidate name matches the first
      stakeholder when no email matches. */
  lemma EmptyNameMatchesFirst(email: string, ss: seq<Stakeholder>)
    requires |ss| > 0
    requires forall j :: 0 <= j < |ss| ==> !EmailMatches(ss[j], email)
    ensures MatchStakeholder(email, "", ss) == Some(ss[0])
  {
    ContainsEmpty(Lower(ss[0].name));
    assert Lower("") == "";
    FirstByName(email, "", ss, 0);
  }

  /** Likewise a stakeholder stored with an empty name matches any candidate name. */
  lemma EmptyStoredNameMatches(s: Stakeholder, name: string)
    requires s.name == ""
    ensures NameMatches(s, name)
  {
    ContainsEmpty(Lower(name));
    assert Lower(s.name) == "";
  }

  /** The email comparison ignores letter case on both sides. */
  lemma EmailCaseInsensitive(s: Stakeholder, email: string)
    requires s.email.Some?
    ensures EmailMatches(s, email) <==> EmailMatches(s, Lower(email))
  {
    LowerIdempotent(email);
  }
}
