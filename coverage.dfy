/** components/Dashboard/CoverageMap.tsx: one row per team, in sorted order, with its
    member count, how many were engaged within 30 days, the coverage percentage, a status
    and the member chips ordered by role. */
module CoverageMap {
  import opened Text
  import opened Domain
  import opened Health
  import opened Sorting

  datatype Status = Good | Partial | AtRiskStatus | NoContact

  function StatusLabel(st: Status): string {
    match st
    case Good => "Good"
    case Partial => "Partial"
    case AtRiskStatus => "At Risk"
    case NoContact => "No Contact"
  }

  /** A member chip: the first word of the name, the first word of the role, whether the
      member counts as engaged, and the hover title. */
  datatype Chip = Chip(shortName: string, shortRole: string, engaged: bool, tooltip: string)

  datatype Row = Row(team: string, members: nat, engaged: nat, percent: int, status: Status, chips: seq<Chip>)

  // ---------------------------------------------------------------- sorted teams

  /** Strictly increasing in the default string order. */
  predicate Increasing(s: seq<string>) {
    forall i :: 0 <= i < |s| - 1 ==> StrLess(s[i], s[i + 1])
  }

  /** One insertion step of Array.prototype.sort with the default comparator. */
  function InsertStr(x: string, s: seq<string>): (r: seq<string>)
    ensures |r| == |s| + 1
    ensures r[0] == x || (|s| > 0 && r[0] == s[0])
    ensures multiset(r) == multiset(s) + multiset{x}
  {
    if |s| == 0 || !StrLess(s[0], x) then [x] + s
    else
      assert s == [s[0]] + s[1..];
      [s[0]] + InsertStr(x, s[1..])
  }

  function SortStrings(s: seq<string>): (r: seq<string>)
    ensures multiset(r) == multiset(s)
  {
    if |s| == 0 then []
    else
      assert s == [s[0]] + s[1..];
      InsertStr(s[0], SortStrings(s[1..]))
  }

  /** [...new Set(stakeholders.map((s) => s.team))].sort() */
  function SortedTeams(ss: seq<Stakeholder>): seq<string> {
    SortStrings(TeamOrder(ss))
  }

  lemma {:induction false} InsertStrIncreasing(x: string, s: seq<string>)
    requires Increasing(s) && x !in s
    ensures Increasing(InsertStr(x, s))
  {
    if |s| > 0 {
      if !StrLess(s[0], x) {
        StrLessTotal(x, s[0]);
      } else {
        assert Increasing(s[1..]);
        InsertStrIncreasing(x, s[1..]);
        var r := InsertStr(x, s[1..]);
        assert StrLess(s[0], r[0]);
      }
    }
  }

  lemma {:induction false} SortStringsIncreasing(s: seq<string>)
    requires forall i, j :: 0 <= i < j < |s| ==> s[i] != s[j]
    ensures Increasing(SortStrings(s))
  {
    if |s| > 0 {
      SortStringsIncreasing(s[1..]);
      assert s[0] !in multiset(s[1..]);
      InsertStrIncreasing(s[0], SortStrings(s[1..]));
    }
  }

  /** Adjacent order extends to every pair. */
  lemma {:induction false} IncreasingPairs(s: seq<string>, i: nat, j: nat)
    requires Increasing(s) && i < j < |s|
    ensures StrLess(s[i], s[j])
    decreases j - i
  {
    if i + 1 < j {
      IncreasingPairs(s, i + 1, j);
      StrLessTransitive(s[i], s[i + 1], s[j]);
    }
  }

  /** The rows' teams are the distinct teams of the list, each once, in increasing order. */
  lemma SortedTeamsMeaning(ss: seq<Stakeholder>, t: string)
    ensures Increasing(SortedTeams(ss))
    ensures t in SortedTeams(ss) <==> exists k :: 0 <= k < |ss| && ss[k].team == t
  {
    SortStringsIncreasing(TeamOrder(ss));
    TeamOrderMembers(ss, t);
    assert t in SortedTeams(ss) <==> t in multiset(TeamOrder(ss));
  }

  // ---------------------------------------------------------------- one row

  /** Engaged: contacted, fewer than 30 whole days ago. */
  predicate Engaged(s: Stakeholder, now: int) {
    ContactedWithin(s, now, 30)
  }

  function CountEngaged(ms: seq<Stakeholder>, now: int): (n: nat)
    ensures n <= |ms|
  {
    if |ms| == 0 then 0 else (if Engaged(ms[0], now) then 1 else 0) + CountEngaged(ms[1..], now)
  }

  function CountNever(ms: seq<Stakeholder>): (n: nat)
    ensures n <= |ms|
  {
    if |ms| == 0 then 0 else (if ms[0].lastContactDate.None? then 1 else 0) + CountNever(ms[1..])
  }

  /** A Blocker whose relationship is At Risk, Unknown or Weak. */
  predicate RiskyBlocker(s: Stakeholder) {
    s.role == Blocker
    && (s.relationshipStrength == AtRisk || s.relationshipStrength == Unknown || s.relationshipStrength == Weak)
  }

  predicate HasRiskyBlocker(ms: seq<Stakeholder>) {
    exists k :: 0 <= k < |ms| && RiskyBlocker(ms[k])
  }

  /** Math.round(engaged / members * 100), or 0 for no members. */
  function Percent(engaged: nat, members: nat): int {
    if members > 0 then RoundDiv(100 * engaged, members) else 0
  }

  /** The if/else-if chain choosing the status: first match wins. */
  function Classify(never: nat, members: nat, blocked: bool, percent: int): Status {
    if never == members then NoContact
    else if blocked || percent < 33 then AtRiskStatus
    else if percent < 66 then Partial
    else Good
  }

  /** roleOrder.indexOf(role) */
  function RoleRank(r: Role): int {
    match r
    case EconomicBuyer => 0
    case Champion => 1
    case TechnicalBuyer => 2
    case Blocker => 3
    case Influencer => 4
    case EndUser => 5
  }

  /** The chip sort's key: a smaller rank comes first. */
  function ChipKey(m: Stakeholder): int {
    -RoleRank(m.role)
  }

  /** The members in chip order (the comparator subtracts role ranks; the sort is stable). */
  function ChipOrder(ms: seq<Stakeholder>): seq<Stakeholder> {
    SortDesc(ms, ChipKey)
  }

  function ChipOf(m: Stakeholder, now: int): Chip {
    Chip(Split(m.name, ' ')[0], Split(RoleName(m.role), ' ')[0], Engaged(m, now),
         m.name + " - " + RoleName(m.role) + " - " + StrengthName(m.relationshipStrength))
  }

  /** The status of a team with these members. */
  function StatusOf(ms: seq<Stakeholder>, now: int): Status {
    Classify(CountNever(ms), |ms|, HasRiskyBlocker(ms), Percent(CountEngaged(ms, now), |ms|))
  }

  function RowOf(ss: seq<Stakeholder>, team: string, now: int): Row {
    var ms := TeamMembers(ss, team);
    var engaged := CountEngaged(ms, now);
    var order := ChipOrder(ms);
    Row(team, |ms|, engaged, Percent(engaged, |ms|), StatusOf(ms, now),
        seq(|order|, i requires 0 <= i < |order| => ChipOf(order[i], now)))
  }

  /** The table body: one row per sorted team. */
  function Rows(ss: seq<Stakeholder>, now: int): (r: seq<Row>)
    ensures |r| == |SortedTeams(ss)|
    ensures forall i :: 0 <= i < |r| ==> r[i] == RowOf(ss, SortedTeams(ss)[i], now)
  {
    var teams := SortedTeams(ss);
    seq(|teams|, i requires 0 <= i < |teams| => RowOf(ss, teams[i], now))
  }

  // ---------------------------------------------------------------- properties

  /** A team that occurs in the list has at least one member. */
  lemma {:induction false} TeamMembersNonEmpty(ss: seq<Stakeholder>, k: nat)
    requires k < |ss|
    ensures |TeamMembers(ss, ss[k].team)| >= 1
  {
    var init := ss[..|ss| - 1];
    if k < |ss| - 1 {
      assert init[k] == ss[k];
      TeamMembersNonEmpty(init, k);
    }
  }

  /** Every row's team has a member, so the percentage never divides by zero; engaged
      members are among the members and the percentage lies in 0..100. */
  lemma RowCounts(ss: seq<Stakeholder>, i: nat, now: int)
    requires i < |SortedTeams(ss)|
    ensures Rows(ss, now)[i].members >= 1
    ensures Rows(ss, now)[i].engaged <= Rows(ss, now)[i].members
    ensures 0 <= Rows(ss, now)[i].percent <= 100
  {
    var t := SortedTeams(ss)[i];
    SortedTeamsMeaning(ss, t);
    var k :| 0 <= k < |ss| && ss[k].team == t;
    TeamMembersNonEmpty(ss, k);
    var ms := TeamMembers(ss, t);
    RoundDivBounds(100 * CountEngaged(ms, now), |ms|, 100);
  }

  lemma {:induction false} CountNeverAll(ms: seq<Stakeholder>)
    ensures CountNever(ms) == |ms| <==> forall k :: 0 <= k < |ms| ==> ms[k].lastContactDate.None?
  {
    if |ms| > 0 {
      CountNeverAll(ms[1..]);
      assert forall k :: 1 <= k < |ms| ==> ms[1..][k - 1] == ms[k];
    }
  }

  lemma {:induction false} NeverNotEngaged(ms: seq<Stakeholder>, now: int)
    requires forall k :: 0 <= k < |ms| ==> ms[k].lastContactDate.None?
    ensures CountEngaged(ms, now) == 0
  {
    if |ms| > 0 { NeverNotEngaged(ms[1..], now); }
  }

  /** `No Contact` exactly when nobody in the team was ever contacted, which leaves the
      engaged count and the percentage at 0. */
  lemma NoContactMeaning(ms: seq<Stakeholder>, now: int)
    ensures StatusOf(ms, now) == NoContact <==> forall m :: m in ms ==> m.lastContactDate.None?
    ensures StatusOf(ms, now) == NoContact ==> CountEngaged(ms, now) == 0 && Percent(CountEngaged(ms, now), |ms|) == 0
  {
    CountNeverAll(ms);
    if CountNever(ms) == |ms| {
      NeverNotEngaged(ms, now);
    }
  }

  /** Someone in the team was contacted at some point. */
  predicate Contacted(ms: seq<Stakeholder>) {
    exists m :: m in ms && m.lastContactDate.Some?
  }

  /** The status chain fails its first test exactly when someone was contacted. */
  lemma ContactedMeaning(ms: seq<Stakeholder>)
    ensures CountNever(ms) != |ms| <==> Contacted(ms)
    ensures HasRiskyBlocker(ms) <==> exists m :: m in ms && RiskyBlocker(m)
  {
    CountNeverAll(ms);
    if Contacted(ms) {
      var m :| m in ms && m.lastContactDate.Some?;
      var k :| 0 <= k < |ms| && ms[k] == m;
    } else if |ms| > 0 {
      assert forall k :: 0 <= k < |ms| ==> ms[k] in ms;
    }
    if HasRiskyBlocker(ms) {
      var k :| 0 <= k < |ms| && RiskyBlocker(ms[k]);
      assert ms[k] in ms;
    }
  }

  /** A rounded percentage is 66 or more exactly when at least 65.5% are engaged before
      rounding. */
  lemma PercentAtLeast(e: nat, q: nat)
    requires q > 0
    ensures Percent(e, q) >= 66 <==> 200 * e >= 131 * q
  {
    var r := Percent(e, q);
    assert 2 * q * r <= 200 * e + q < 2 * q * (r + 1);
    if r >= 66 {
      assert 2 * q * 66 <= 2 * q * r by { MulLe(66, r, 2 * q); }
    }
    if 200 * e >= 131 * q {
      assert 2 * q * 66 < 2 * q * (r + 1);
      ScaleLess(2 * q, 66, r + 1);
    }
  }

  /** A rounded percentage is below 33 exactly when fewer than 32.5% are engaged before
      rounding. */
  lemma PercentBelow(e: nat, q: nat)
    requires q > 0
    ensures Percent(e, q) < 33 <==> 200 * e < 65 * q
  {
    var r := Percent(e, q);
    assert 2 * q * r <= 200 * e + q < 2 * q * (r + 1);
    if 200 * e < 65 * q {
      assert 2 * q * r < 2 * q * 33;
      ScaleLess(2 * q, r, 33);
    }
    if r < 33 {
      assert 2 * q * (r + 1) <= 2 * q * 33 by { MulLe(r + 1, 33, 2 * q); }
    }
  }

  /** `At Risk` exactly when someone was contacted and a blocker is At Risk, Unknown or
      Weak, or fewer than 32.5% are engaged; `No Contact` takes precedence. */
  lemma AtRiskMeaning(ms: seq<Stakeholder>, now: int)
    ensures StatusOf(ms, now) == AtRiskStatus
            <==> Contacted(ms)
                 && ((exists m :: m in ms && RiskyBlocker(m)) || 200 * CountEngaged(ms, now) < 65 * |ms|)
  {
    ContactedMeaning(ms);
    if |ms| > 0 {
      PercentBelow(CountEngaged(ms, now), |ms|);
    }
  }

  /** `Partial` exactly when someone was contacted, no blocker is At Risk, Unknown or Weak,
      and between 32.5% and 65.5% are engaged before rounding. */
  lemma PartialMeaning(ms: seq<Stakeholder>, now: int)
    ensures StatusOf(ms, now) == Partial
            <==> Contacted(ms) && (forall m :: m in ms ==> !RiskyBlocker(m))
                 && 65 * |ms| <= 200 * CountEngaged(ms, now) < 131 * |ms|
  {
    ContactedMeaning(ms);
    if |ms| > 0 {
      PercentBelow(CountEngaged(ms, now), |ms|);
      PercentAtLeast(CountEngaged(ms, now), |ms|);
    }
  }

  /** `Good` exactly when someone was contacted, no blocker is At Risk, Unknown or Weak,
      and at least 65.5% of the members are engaged before rounding. */
  lemma GoodMeaning(ms: seq<Stakeholder>, now: int)
    ensures StatusOf(ms, now) == Good
            <==> Contacted(ms) && (forall m :: m in ms ==> !RiskyBlocker(m))
                 && 200 * CountEngaged(ms, now) >= 131 * |ms|
  {
    ContactedMeaning(ms);
    if |ms| > 0 {
      PercentBelow(CountEngaged(ms, now), |ms|);
      PercentAtLeast(CountEngaged(ms, now), |ms|);
    }
  }

  /** Chips go in role order (Economic Buyer, Champion, Technical Buyer, Blocker,
      Influencer, End User), members of one role in list order, every member once. */
  lemma ChipsInRoleOrder(ms: seq<Stakeholder>, r: Role)
    ensures forall i, j :: 0 <= i < j < |ChipOrder(ms)| ==> RoleRank(ChipOrder(ms)[i].role) <= RoleRank(ChipOrder(ms)[j].role)
    ensures multiset(ChipOrder(ms)) == multiset(ms)
    ensures WithKey(ChipOrder(ms), ChipKey, -RoleRank(r)) == WithKey(ms, ChipKey, -RoleRank(r))
  {
    SortDescSorted(ms, ChipKey);
    SortDescPermutation(ms, ChipKey);
    SortDescStable(ms, ChipKey, -RoleRank(r));
  }
}
