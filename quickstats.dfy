/** components/Dashboard/QuickStats.tsx: the four summary cards of the dashboard. */
module QuickStats {
  import opened Domain
  import opened Utils
  import opened Health

  /** The numbers the cards show, and the two warning colours. */
  datatype Stats = Stats(
    total: nat,
    p0Count: nat,
    engagedTeams: nat,
    teams: nat,
    teamsNeedingAttention: int,
    avgDaysSinceContact: int,
    atRiskCount: nat,
    strongCount: nat,
    avgAboveTarget: bool,
    manyAtRisk: bool)

  /** The target the average is compared with, and the at-risk count that turns red. */
  const AVG_TARGET: int := 25
  const AT_RISK_LIMIT: nat := 3

  /** daysSince(s.lastContactDate) ?? 90 */
  function DaysOr90(s: Stakeholder, now: int): int {
    var d := DaysSince(s.lastContactDate, now);
    if d.Some? then d.value else 90
  }

  /** The reduce: the days of every stakeholder added up, never-contacted counting 90. */
  function DaySum(ss: seq<Stakeholder>, now: int): int {
    if |ss| == 0 then 0 else DaysOr90(ss[0], now) + DaySum(ss[1..], now)
  }

  /** Math.round(sum / length), or 0 for an empty list. */
  function AverageDays(ss: seq<Stakeholder>, now: int): int {
    if |ss| > 0 then RoundDiv(DaySum(ss, now), |ss|) else 0
  }

  /** At Risk or Weak, or Unknown for an Economic Buyer or a Blocker. */
  predicate AtRiskRelationship(s: Stakeholder) {
    s.relationshipStrength == AtRisk || s.relationshipStrength == Weak
    || (s.relationshipStrength == Unknown && (s.role == EconomicBuyer || s.role == Blocker))
  }

  function CountAtRisk(ss: seq<Stakeholder>): (n: nat)
    ensures n <= |ss|
  {
    if |ss| == 0 then 0 else (if AtRiskRelationship(ss[0]) then 1 else 0) + CountAtRisk(ss[1..])
  }

  function CountP0(ss: seq<Stakeholder>): (n: nat)
    ensures n <= |ss|
  {
    if |ss| == 0 then 0 else (if ss[0].priority == P0 then 1 else 0) + CountP0(ss[1..])
  }

  function CountStrong(ss: seq<Stakeholder>): (n: nat)
    ensures n <= |ss|
  {
    if |ss| == 0 then 0 else (if ss[0].relationshipStrength == Strong then 1 else 0) + CountStrong(ss[1..])
  }

  /** The teams with someone contacted within 30 days. */
  function EngagedTeams30(ss: seq<Stakeholder>, now: int): set<string> {
    set s | s in ss && ContactedWithin(s, now, 30) :: s.team
  }

  function ComputeStats(ss: seq<Stakeholder>, now: int): (r: Stats)
    ensures r.total == |ss|
    ensures r.p0Count <= r.total && r.atRiskCount <= r.total
    ensures r.engagedTeams <= r.teams && r.teamsNeedingAttention >= 0
    ensures r.teams <= r.total
  {
    var teams := Teams(ss);
    var engaged := EngagedTeams30(ss, now);
    SubsetCard(engaged, teams);
    TeamsBound(ss);
    var avg := AverageDays(ss, now);
    var atRisk := CountAtRisk(ss);
    Stats(|ss|, CountP0(ss), |engaged|, |teams|, |teams| - |engaged|, avg, atRisk, CountStrong(ss),
          avg > AVG_TARGET, atRisk > AT_RISK_LIMIT)
  }

  // ---------------------------------------------------------------- properties

  /** There are never more teams than stakeholders. */
  lemma {:induction false} TeamsBound(ss: seq<Stakeholder>)
    ensures |Teams(ss)| <= |ss|
  {
    if |ss| > 0 {
      TeamsBound(ss[1..]);
      assert Teams(ss) == Teams(ss[1..]) + {ss[0].team} by {
        assert forall s :: s in ss <==> s == ss[0] || s in ss[1..];
      }
    }
  }

  /** The sum lies between |ss| times the smallest and the largest contribution. */
  lemma {:induction false} DaySumBounds(ss: seq<Stakeholder>, now: int, lo: int, hi: int)
    requires forall k :: 0 <= k < |ss| ==> lo <= DaysOr90(ss[k], now) <= hi
    ensures |ss| * lo <= DaySum(ss, now) <= |ss| * hi
  {
    if |ss| > 0 {
      var rest := ss[1..];
      assert forall k :: 0 <= k < |rest| ==> rest[k] == ss[k + 1];
      DaySumBounds(rest, now, lo, hi);
      assert |ss| * lo == lo + |rest| * lo && |ss| * hi == hi + |rest| * hi;
    }
  }

  /** The average lies between the smallest and the largest per-stakeholder value. */
  lemma AverageBounds(ss: seq<Stakeholder>, now: int, lo: int, hi: int)
    requires |ss| > 0
    requires forall k :: 0 <= k < |ss| ==> lo <= DaysOr90(ss[k], now) <= hi
    ensures lo <= AverageDays(ss, now) <= hi
  {
    DaySumBounds(ss, now, lo, hi);
    RoundDivBetween(DaySum(ss, now), |ss|, lo, hi);
  }

  /** Nobody contacted: the average is exactly 90 days. */
  lemma AllNeverContacted(ss: seq<Stakeholder>, now: int)
    requires |ss| > 0
    requires forall k :: 0 <= k < |ss| ==> ss[k].lastContactDate.None?
    ensures AverageDays(ss, now) == 90
  {
    AverageBounds(ss, now, 90, 90);
  }

  /** An empty list shows zero everywhere and no warning. */
  lemma EmptyStats(now: int)
    ensures ComputeStats([], now) == Stats(0, 0, 0, 0, 0, 0, 0, 0, false, false)
  {
    assert Teams([]) == {};
    assert EngagedTeams30([], now) == {};
  }

  /** A Strong relationship is never at risk, so the two cards never count one person twice. */
  lemma {:induction false} StrongAndAtRiskDisjoint(ss: seq<Stakeholder>)
    ensures CountStrong(ss) + CountAtRisk(ss) <= |ss|
  {
    if |ss| > 0 { StrongAndAtRiskDisjoint(ss[1..]); }
  }

  /** Counting P0 stakeholders: zero exactly when there is none. */
  lemma {:induction false} P0CountZero(ss: seq<Stakeholder>)
    ensures CountP0(ss) == 0 <==> forall k :: 0 <= k < |ss| ==> ss[k].priority != P0
  {
    if |ss| > 0 {
      P0CountZero(ss[1..]);
      assert forall k :: 1 <= k < |ss| ==> ss[1..][k - 1] == ss[k];
    }
  }

  /** An Unknown relationship counts only for Economic Buyers and Blockers. */
  lemma UnknownChampionNotAtRisk(s: Stakeholder)
    requires s.relationshipStrength == Unknown && s.role != EconomicBuyer && s.role != Blocker
    ensures CountAtRisk([s]) == 0
  {
  }
}
