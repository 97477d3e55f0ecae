/** The additive deal-health score: computeDealHealthScore in lib/data.ts and its
    duplicate computeScore in app/page.tsx, which adds guards for an empty list. */
module Health {
  import opened Wrappers
  import opened Domain
  import opened Utils

  /** A JavaScript number as far as the score needs one: an integer, or NaN (what 0 / 0
      produces when the stakeholder list is empty). */
  datatype Num = Finite(v: int) | NaN

  function Plus(a: Num, b: Num): Num {
    if a.Finite? && b.Finite? then Finite(a.v + b.v) else NaN
  }

  function Minus(a: Num, b: Num): Num {
    if a.Finite? && b.Finite? then Finite(a.v - b.v) else NaN
  }

  /** Math.min and Math.max: NaN when either argument is NaN. */
  function Min(a: Num, b: Num): Num {
    if a.Finite? && b.Finite? then Finite(if a.v <= b.v then a.v else b.v) else NaN
  }

  function Max(a: Num, b: Num): Num {
    if a.Finite? && b.Finite? then Finite(if a.v >= b.v then a.v else b.v) else NaN
  }

  /** Math.max(0, Math.min(100, x)) */
  function Clamp(x: Num): (r: Num)
    ensures x.NaN? <==> r.NaN?
    ensures r.Finite? ==> 0 <= r.v <= 100
  {
    Max(Finite(0), Min(Finite(100), x))
  }

  /** Math.round(p / q) for q > 0, exactly: the nearest integer, halves rounded up. */
  function RoundDiv(p: int, q: int): (r: int)
    requires q > 0
    ensures 2 * q * r <= 2 * p + q < 2 * q * (r + 1)
  {
    (2 * p + q) / (2 * q)
  }

  /** Rounding a quotient that lies in [0, k] gives an integer in [0, k]. */
  lemma RoundDivBounds(p: int, q: int, k: nat)
    requires q > 0 && 0 <= p <= q * k
    ensures 0 <= RoundDiv(p, q) <= k
  {
    var r := RoundDiv(p, q);
    // 2qr <= 2p + q <= 2qk + q < 2q(k + 1), and 0 < q <= 2p + q < 2q(r + 1)
    assert 2 * p + q <= 2 * q * k + q by { MulLe(2 * p, 2 * q * k, 1); }
    ScaleLess(2 * q, r, k + 1);
    ScaleLess(2 * q, 0, r + 1);
  }

  /** Rounding a quotient that lies between q * lo and q * hi gives an integer in [lo, hi]. */
  lemma RoundDivBetween(p: int, q: int, lo: int, hi: int)
    requires q > 0 && q * lo <= p <= q * hi
    ensures lo <= RoundDiv(p, q) <= hi
  {
    var r := RoundDiv(p, q);
    var m := 2 * q;
    assert m * lo == 2 * (q * lo) && m * hi == 2 * (q * hi);
    assert m * (r + 1) == m * r + m && m * (hi + 1) == m * hi + m;
    assert m * lo < m * (r + 1);
    ScaleLess(m, lo, r + 1);
    assert m * r < m * (hi + 1);
    ScaleLess(m, r, hi + 1);
  }

  lemma MulLe(a: int, b: int, c: int)
    requires a <= b && c >= 0
    ensures a * c <= b * c
  {
  }

  /** Dividing out a positive factor keeps a strict order. */
  lemma ScaleLess(m: int, a: int, b: int)
    requires m > 0 && m * a < m * b
    ensures a < b
  {
  }

  /** Math.round((num / den) * scale) for a ratio num / den in [0, 1]; NaN for 0 / 0. */
  function Ratio(num: nat, den: nat, scale: nat): (r: Num)
    requires num <= den
    ensures den == 0 <==> r.NaN?
    ensures r.Finite? ==> 0 <= r.v <= scale
  {
    if den == 0 then NaN
    else
      RoundDivBounds(num * scale, den, scale);
      Finite(RoundDiv(num * scale, den))
  }

  // ---------------------------------------------------------------- the counted groups

  /** Contacted, and fewer than `limit` whole days ago. */
  predicate ContactedWithin(s: Stakeholder, now: int, limit: int) {
    var d := DaysSince(s.lastContactDate, now);
    d.Some? && d.value < limit
  }

  datatype Group =
    | StrongChampion       // a Champion with a Strong relationship
    | EconomicBuyerGroup   // every Economic Buyer
    | EngagedBuyer         // an Economic Buyer contacted within 30 days and not Weak
    | UnengagedBlocker     // a Blocker never contacted, silent over 30 days, At Risk or Unknown
    | StrongRelationship   // any Strong relationship
    | AtRiskOrWeak         // any At Risk or Weak relationship
    | RecentContact        // contacted within 14 days

  predicate InGroup(s: Stakeholder, g: Group, now: int) {
    match g
    case StrongChampion => s.role == Champion && s.relationshipStrength == Strong
    case EconomicBuyerGroup => s.role == EconomicBuyer
    case EngagedBuyer =>
      s.role == EconomicBuyer && ContactedWithin(s, now, 30) && s.relationshipStrength != Weak
    case UnengagedBlocker =>
      var d := DaysSince(s.lastContactDate, now);
      s.role == Blocker
      && (d.None? || d.value > 30 || s.relationshipStrength == AtRisk || s.relationshipStrength == Unknown)
    case StrongRelationship => s.relationshipStrength == Strong
    case AtRiskOrWeak => s.relationshipStrength == AtRisk || s.relationshipStrength == Weak
    case RecentContact => ContactedWithin(s, now, 14)
  }

  /** stakeholders.filter(...).length for one group. */
  function Count(ss: seq<Stakeholder>, g: Group, now: int): (n: nat)
    ensures n <= |ss|
    ensures n == 0 <==> forall s :: s in ss ==> !InGroup(s, g, now)
  {
    if |ss| == 0 then 0
    else
      assert forall s :: s in ss <==> s == ss[0] || s in ss[1..];
      (if InGroup(ss[0], g, now) then 1 else 0) + Count(ss[1..], g, now)
  }

  /** Engaged buyers are among the economic buyers, so they are never more. */
  lemma {:induction false} EngagedBuyersAmongBuyers(ss: seq<Stakeholder>, now: int)
    ensures Count(ss, EngagedBuyer, now) <= Count(ss, EconomicBuyerGroup, now)
  {
    if |ss| > 0 { EngagedBuyersAmongBuyers(ss[1..], now); }
  }

  /** new Set(stakeholders.map((s) => s.team)) */
  function Teams(ss: seq<Stakeholder>): set<string> {
    set s | s in ss :: s.team
  }

  /** The teams with someone contacted within 45 days. */
  function EngagedTeams(ss: seq<Stakeholder>, now: int): (r: set<string>)
    ensures r <= Teams(ss)
  {
    set s | s in ss && ContactedWithin(s, now, 45) :: s.team
  }

  // ---------------------------------------------------------------- the factors

  /** The factor labels, in the order the rules can emit them. */
  datatype FactorKind =
    | StrongChampions | ChampionCoverage | BuyerEngagement | BuyerGap | UnmanagedBlockers
    | TeamCoverageFactor | RelationshipHealthFactor | ContactRecencyFactor | NoStakeholders

  function Label(k: FactorKind): string {
    match k
    case StrongChampions => "Strong champions"
    case ChampionCoverage => "Champion coverage"
    case BuyerEngagement => "Economic buyer engagement"
    case BuyerGap => "Economic buyer gap"
    case UnmanagedBlockers => "Unmanaged blockers"
    case TeamCoverageFactor => "Team coverage"
    case RelationshipHealthFactor => "Relationship health"
    case ContactRecencyFactor => "Contact recency"
    case NoStakeholders => "No stakeholders"
  }

  datatype Factor = Factor(kind: FactorKind, impact: Num)

  function ChampionFactors(ss: seq<Stakeholder>, now: int): seq<Factor> {
    var n := Count(ss, StrongChampion, now);
    if n >= 2 then [Factor(StrongChampions, Finite(15))]
    else if n == 1 then [Factor(ChampionCoverage, Finite(8))]
    else []
  }

  function EconomicBuyerFactor(ss: seq<Stakeholder>, now: int): Factor {
    var buyers := Count(ss, EconomicBuyerGroup, now);
    if Count(ss, EngagedBuyer, now) == buyers && buyers > 0
    then Factor(BuyerEngagement, Finite(15))
    else Factor(BuyerGap, Finite(-10))
  }

  function BlockerFactors(ss: seq<Stakeholder>, now: int): seq<Factor> {
    var n := Count(ss, UnengagedBlocker, now);
    if n > 0 then [Factor(UnmanagedBlockers, Finite(-8 * n))] else []
  }

  function TeamCoverage(ss: seq<Stakeholder>, now: int): Num {
    EngagedTeamsBound(ss, now);
    Ratio(|EngagedTeams(ss, now)|, |Teams(ss)|, 10)
  }

  function RelationshipHealth(ss: seq<Stakeholder>, now: int): Num {
    Min(Finite(10), Minus(Ratio(Count(ss, StrongRelationship, now), |ss|, 15),
                          Ratio(Count(ss, AtRiskOrWeak, now), |ss|, 10)))
  }

  function ContactRecency(ss: seq<Stakeholder>, now: int): Num {
    Min(Finite(10), Ratio(Count(ss, RecentContact, now), |ss|, 15))
  }

  lemma EngagedTeamsBound(ss: seq<Stakeholder>, now: int)
    ensures |EngagedTeams(ss, now)| <= |Teams(ss)|
  {
    SubsetCard(EngagedTeams(ss, now), Teams(ss));
  }

  lemma SubsetCard<T>(a: set<T>, b: set<T>)
    requires a <= b
    ensures |a| <= |b|
  {
    assert b == a + (b - a);
  }

  /** The factors in their fixed order: champion (optional), economic buyer (always),
      blockers (optional), team coverage, relationship health, recency. */
  function DealFactors(ss: seq<Stakeholder>, now: int): seq<Factor> {
    ChampionFactors(ss, now) + [EconomicBuyerFactor(ss, now)] + BlockerFactors(ss, now)
    + [Factor(TeamCoverageFactor, TeamCoverage(ss, now))]
    + [Factor(RelationshipHealthFactor, RelationshipHealth(ss, now)),
       Factor(ContactRecencyFactor, ContactRecency(ss, now))]
  }

  /** The sum of the impacts, left to right. */
  function ImpactSum(fs: seq<Factor>): Num {
    if |fs| == 0 then Finite(0) else Plus(ImpactSum(fs[..|fs| - 1]), fs[|fs| - 1].impact)
  }

  lemma ImpactSumSnoc(fs: seq<Factor>, f: Factor)
    ensures ImpactSum(fs + [f]) == Plus(ImpactSum(fs), f.impact)
  {
    assert (fs + [f])[..|fs|] == fs;
  }

  /** Whether `total` is the running score for the pushed `factors`: 50 plus their impacts. */
  predicate Tallied(total: Num, factors: seq<Factor>) {
    total == Plus(Finite(50), ImpactSum(factors))
  }

  /** `score += impact; factors.push(...)` for one factor. */
  method Push(total: Num, factors: seq<Factor>, f: Factor) returns (next: Num, pushed: seq<Factor>)
    requires Tallied(total, factors)
    ensures pushed == factors + [f] && Tallied(next, pushed)
  {
    ImpactSumSnoc(factors, f);
    next := Plus(total, f.impact);
    pushed := factors + [f];
  }

  /** The champion rule: +15 for two or more Strong champions, +8 for one, else nothing. */
  method PushChampion(ss: seq<Stakeholder>, now: int, total: Num, factors: seq<Factor>)
    returns (next: Num, pushed: seq<Factor>)
    requires Tallied(total, factors)
    ensures pushed == factors + ChampionFactors(ss, now) && Tallied(next, pushed)
  {
    next, pushed := total, factors;
    var strongChampions := Count(ss, StrongChampion, now);
    if strongChampions >= 2 {
      next, pushed := Push(total, factors, Factor(StrongChampions, Finite(15)));
    } else if strongChampions == 1 {
      next, pushed := Push(total, factors, Factor(ChampionCoverage, Finite(8)));
    }
  }

  /** The economic-buyer rule, which always pushes a factor. */
  method PushBuyer(ss: seq<Stakeholder>, now: int, total: Num, factors: seq<Factor>)
    returns (next: Num, pushed: seq<Factor>)
    requires Tallied(total, factors)
    ensures pushed == factors + [EconomicBuyerFactor(ss, now)] && Tallied(next, pushed)
  {
    var buyers := Count(ss, EconomicBuyerGroup, now);
    var engagedBuyers := Count(ss, EngagedBuyer, now);
    if engagedBuyers == buyers && buyers > 0 {
      next, pushed := Push(total, factors, Factor(BuyerEngagement, Finite(15)));
    } else {
      var penalty := -10;
      next, pushed := Push(total, factors, Factor(BuyerGap, Finite(penalty)));
    }
  }

  /** The blocker rule: -8 per unengaged blocker, pushed only when there is one. */
  method PushBlockers(ss: seq<Stakeholder>, now: int, total: Num, factors: seq<Factor>)
    returns (next: Num, pushed: seq<Factor>)
    requires Tallied(total, factors)
    ensures pushed == factors + BlockerFactors(ss, now) && Tallied(next, pushed)
  {
    next, pushed := total, factors;
    var unengagedBlockers := Count(ss, UnengagedBlocker, now);
    if unengagedBlockers > 0 {
      var penalty := -8 * (unengagedBlockers as int);
      next, pushed := Push(total, factors, Factor(UnmanagedBlockers, Finite(penalty)));
    }
  }

  /** Relationship health and contact recency, in that order. */
  method PushHealthAndRecency(ss: seq<Stakeholder>, now: int, total: Num, factors: seq<Factor>)
    returns (next: Num, pushed: seq<Factor>)
    requires Tallied(total, factors)
    ensures pushed == factors + [Factor(RelationshipHealthFactor, RelationshipHealth(ss, now)),
                                 Factor(ContactRecencyFactor, ContactRecency(ss, now))]
    ensures Tallied(next, pushed)
  {
    var healthPoints := Min(Finite(10), Minus(Ratio(Count(ss, StrongRelationship, now), |ss|, 15),
                                              Ratio(Count(ss, AtRiskOrWeak, now), |ss|, 10)));
    next, pushed := Push(total, factors, Factor(RelationshipHealthFactor, healthPoints));
    var recencyPoints := Min(Finite(10), Ratio(Count(ss, RecentContact, now), |ss|, 15));
    next, pushed := Push(next, pushed, Factor(ContactRecencyFactor, recencyPoints));
  }

  /** computeDealHealthScore: start at 50, add each factor's impact as it is pushed, then
      clamp to [0, 100]. */
  method ComputeDealHealthScore(ss: seq<Stakeholder>, now: int) returns (score: Num, factors: seq<Factor>)
    ensures factors == DealFactors(ss, now)
    ensures score == Clamp(Plus(Finite(50), ImpactSum(factors)))
  {
    var total := Finite(50);
    factors := [];
    total, factors := PushChampion(ss, now, total, factors);
    assert factors == ChampionFactors(ss, now);
    total, factors := PushBuyer(ss, now, total, factors);
    total, factors := PushBlockers(ss, now, total, factors);
    EngagedTeamsBound(ss, now);
    var coveragePoints := Ratio(|EngagedTeams(ss, now)|, |Teams(ss)|, 10);
    total, factors := Push(total, factors, Factor(TeamCoverageFactor, coveragePoints));
    total, factors := PushHealthAndRecency(ss, now, total, factors);
    score := Clamp(total);
  }

  /** computeScore in app/page.tsx: score 0 and the single factor "No stakeholders" for an
      empty list; otherwise the same rules, with a guard against an empty team set. */
  method ComputeScore(ss: seq<Stakeholder>, now: int) returns (score: int, factors: seq<Factor>)
    ensures |ss| == 0 ==> score == 0 && factors == [Factor(NoStakeholders, Finite(0))]
    ensures |ss| > 0 ==> factors == DealFactors(ss, now)
                         && Finite(score) == Clamp(Plus(Finite(50), ImpactSum(factors)))
    ensures 0 <= score <= 100
  {
    if |ss| == 0 {
      return 0, [Factor(NoStakeholders, Finite(0))];
    }
    var total := Finite(50);
    factors := [];
    total, factors := PushChampion(ss, now, total, factors);
    assert factors == ChampionFactors(ss, now);
    total, factors := PushBuyer(ss, now, total, factors);
    total, factors := PushBlockers(ss, now, total, factors);
    EngagedTeamsBound(ss, now);
    var teams := |Teams(ss)|;
    var cp := if teams > 0 then RoundDiv(|EngagedTeams(ss, now)| * 10, teams) else 0;
    assert ss[0].team in Teams(ss);
    assert Finite(cp) == TeamCoverage(ss, now);
    total, factors := Push(total, factors, Factor(TeamCoverageFactor, Finite(cp)));
    total, factors := PushHealthAndRecency(ss, now, total, factors);
    assert factors == DealFactors(ss, now);
    ScoreInRange(ss, now);
    score := Clamp(total).v;
  }

  // ---------------------------------------------------------------- properties

  /** Every factor of a non-empty list is a number, so the score lies in [0, 100]. */
  lemma ScoreInRange(ss: seq<Stakeholder>, now: int)
    requires |ss| > 0
    ensures forall f :: f in DealFactors(ss, now) ==> f.impact.Finite?
    ensures Clamp(Plus(Finite(50), ImpactSum(DealFactors(ss, now)))).Finite?
    ensures 0 <= Clamp(Plus(Finite(50), ImpactSum(DealFactors(ss, now)))).v <= 100
  {
    var fs := DealFactors(ss, now);
    FactorBounds(ss, now);
    forall f | f in fs
      ensures f.impact.Finite?
    {
      InFactors(ss, now, f);
    }
    AllFiniteSum(fs);
  }

  /** Where a factor can come from. */
  lemma InFactors(ss: seq<Stakeholder>, now: int, f: Factor)
    requires f in DealFactors(ss, now)
    ensures || f in ChampionFactors(ss, now) || f == EconomicBuyerFactor(ss, now)
            || f in BlockerFactors(ss, now)
            || f == Factor(TeamCoverageFactor, TeamCoverage(ss, now))
            || f == Factor(RelationshipHealthFactor, RelationshipHealth(ss, now))
            || f == Factor(ContactRecencyFactor, ContactRecency(ss, now))
  {
    var cf := ChampionFactors(ss, now);
    var bf := BlockerFactors(ss, now);
    var a := cf + [EconomicBuyerFactor(ss, now)];
    var b := a + bf;
    var c := b + [Factor(TeamCoverageFactor, TeamCoverage(ss, now))];
    assert DealFactors(ss, now) == c + [Factor(RelationshipHealthFactor, RelationshipHealth(ss, now)),
                                        Factor(ContactRecencyFactor, ContactRecency(ss, now))];
    assert f in c || f == Factor(RelationshipHealthFactor, RelationshipHealth(ss, now))
           || f == Factor(ContactRecencyFactor, ContactRecency(ss, now));
    assert f in c ==> f in b || f == Factor(TeamCoverageFactor, TeamCoverage(ss, now));
    assert f in b ==> f in a || f in bf;
  }

  lemma {:induction false} AllFiniteSum(fs: seq<Factor>)
    requires forall f :: f in fs ==> f.impact.Finite?
    ensures ImpactSum(fs).Finite?
  {
    if |fs| > 0 {
      assert forall f :: f in fs[..|fs| - 1] ==> f in fs;
      AllFiniteSum(fs[..|fs| - 1]);
    }
  }

  /** lib/data.ts has no guard: with no stakeholders the ratios are 0 / 0, the last three
      factors are NaN and so is the score. */
  lemma EmptyInputScoresNaN(now: int)
    ensures DealFactors([], now) == [Factor(BuyerGap, Finite(-10)),
                                     Factor(TeamCoverageFactor, NaN),
                                     Factor(RelationshipHealthFactor, NaN),
                                     Factor(ContactRecencyFactor, NaN)]
    ensures Clamp(Plus(Finite(50), ImpactSum(DealFactors([], now)))) == NaN
  {
    assert Teams([]) == {};
    assert EngagedTeams([], now) == {};
  }

  /** The factor list has four to six entries; the economic-buyer factor is always there,
      right after the optional champion factor, and the list always ends with team
      coverage, relationship health and recency. */
  lemma FactorShape(ss: seq<Stakeholder>, now: int)
    ensures var fs := DealFactors(ss, now);
            && 4 <= |fs| <= 6
            && fs[|ChampionFactors(ss, now)|].kind in {BuyerEngagement, BuyerGap}
            && fs[|fs| - 3].kind == TeamCoverageFactor
            && fs[|fs| - 2].kind == RelationshipHealthFactor
            && fs[|fs| - 1].kind == ContactRecencyFactor
  {
  }

  /** Champions: two or more Strong champions give +15, exactly one gives +8, none gives
      no champion factor (the list then opens with the economic-buyer factor). */
  lemma ChampionRule(ss: seq<Stakeholder>, now: int)
    ensures Count(ss, StrongChampion, now) >= 2 ==> DealFactors(ss, now)[0] == Factor(StrongChampions, Finite(15))
    ensures Count(ss, StrongChampion, now) == 1 ==> DealFactors(ss, now)[0] == Factor(ChampionCoverage, Finite(8))
    ensures Count(ss, StrongChampion, now) == 0 ==> DealFactors(ss, now)[0] == EconomicBuyerFactor(ss, now)
  {
  }

  /** The economic-buyer factor is +15 exactly when there is at least one economic buyer
      and every one of them was contacted within 30 days and is not Weak. */
  lemma EconomicBuyerRule(ss: seq<Stakeholder>, now: int)
    ensures EconomicBuyerFactor(ss, now).impact == Finite(15) <==>
              (exists s :: s in ss && s.role == EconomicBuyer)
              && forall s :: s in ss && s.role == EconomicBuyer ==>
                   ContactedWithin(s, now, 30) && s.relationshipStrength != Weak
    ensures EconomicBuyerFactor(ss, now).impact != Finite(15) ==>
              EconomicBuyerFactor(ss, now) == Factor(BuyerGap, Finite(-10))
  {
    CountAll(ss, now);
  }

  /** All buyers are engaged exactly when no buyer is unengaged. */
  lemma {:induction false} CountAll(ss: seq<Stakeholder>, now: int)
    ensures Count(ss, EngagedBuyer, now) == Count(ss, EconomicBuyerGroup, now) <==>
              forall s :: s in ss && s.role == EconomicBuyer ==> InGroup(s, EngagedBuyer, now)
  {
    if |ss| > 0 {
      CountAll(ss[1..], now);
      EngagedBuyersAmongBuyers(ss[1..], now);
      assert forall s :: s in ss <==> s == ss[0] || s in ss[1..];
    }
  }

  /** Each unengaged blocker costs 8 points: two of them cost 16. */
  lemma BlockerRule(ss: seq<Stakeholder>, now: int)
    ensures Count(ss, UnengagedBlocker, now) > 0 ==>
              Factor(UnmanagedBlockers, Finite(-8 * Count(ss, UnengagedBlocker, now))) in DealFactors(ss, now)
    ensures Count(ss, UnengagedBlocker, now) == 2 ==>
              Factor(UnmanagedBlockers, Finite(-16)) in DealFactors(ss, now)
    ensures Count(ss, UnengagedBlocker, now) == 0 ==>
              forall f :: f in DealFactors(ss, now) ==> f.kind != UnmanagedBlockers
  {
    var fs := DealFactors(ss, now);
    var n := Count(ss, UnengagedBlocker, now);
    if n > 0 {
      BlockerAt(ss, now);
      assert fs[|ChampionFactors(ss, now)| + 1] in fs;
    } else {
      forall f | f in fs
        ensures f.kind != UnmanagedBlockers
      {
        InFactors(ss, now, f);
      }
    }
  }

  /** The blocker factor, when there is one, sits right after the economic-buyer factor. */
  lemma BlockerAt(ss: seq<Stakeholder>, now: int)
    requires Count(ss, UnengagedBlocker, now) > 0
    ensures |ChampionFactors(ss, now)| + 1 < |DealFactors(ss, now)|
    ensures DealFactors(ss, now)[|ChampionFactors(ss, now)| + 1]
            == Factor(UnmanagedBlockers, Finite(-8 * Count(ss, UnengagedBlocker, now)))
  {
    var cf := ChampionFactors(ss, now);
    var bf := BlockerFactors(ss, now);
    var a := cf + [EconomicBuyerFactor(ss, now)];
    var b := a + bf;
    var c := b + [Factor(TeamCoverageFactor, TeamCoverage(ss, now))];
    assert |a| == |cf| + 1;
    assert b[|cf| + 1] == bf[0];
    assert c[|cf| + 1] == b[|cf| + 1];
  }

  /** On a non-empty list, team coverage and recency lie in 0..10 and relationship health
      is at most 10 (it can drop to -10). */
  lemma FactorBounds(ss: seq<Stakeholder>, now: int)
    requires |ss| > 0
    ensures TeamCoverage(ss, now).Finite? && 0 <= TeamCoverage(ss, now).v <= 10
    ensures ContactRecency(ss, now).Finite? && 0 <= ContactRecency(ss, now).v <= 10
    ensures RelationshipHealth(ss, now).Finite? && -10 <= RelationshipHealth(ss, now).v <= 10
  {
    assert ss[0].team in Teams(ss);
  }
}
