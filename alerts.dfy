/** components/Dashboard/CriticalAlerts.tsx: generateAlerts. Six rules push alerts onto one
    list in a fixed order; the last rule first looks at what is already there; the dashboard
    shows the first eight. */
module CriticalAlerts {
  import opened Wrappers
  import opened Text
  import opened Domain
  import opened Utils

  datatype Severity = Critical | Warning | Info

  /** An alert; team alerts carry no stakeholder id. */
  datatype Alert = Alert(severity: Severity, message: string, stakeholderId: Option<string>)

  /** The four per-stakeholder rules that push without looking at earlier alerts. */
  datatype Rule = NeverContacted | AtRiskP0 | SilentBuyer | CoolingChampion

  /** How many alerts the dashboard shows. */
  const SHOWN: nat := 8

  /** The days-since count as a template literal prints it. */
  function DaysText(d: Option<int>): string {
    match d
    case None => "never"
    case Some(n) => IntToString(n)
  }

  /** Whether a rule's filter keeps a stakeholder. */
  predicate Fires(rule: Rule, s: Stakeholder, now: int) {
    var d := DaysSince(s.lastContactDate, now);
    match rule
    case NeverContacted => s.lastContactDate.None? && (s.priority == P0 || s.role == Blocker)
    case AtRiskP0 => s.relationshipStrength == AtRisk && s.priority == P0
    case SilentBuyer => s.role == EconomicBuyer && d.Some? && d.value > 40
    case CoolingChampion => s.role == Champion && d.Some? && d.value > 20
  }

  /** The alert a rule pushes for a stakeholder its filter keeps. */
  function RuleAlert(rule: Rule, s: Stakeholder, now: int): (a: Alert)
    ensures a.stakeholderId == Some(s.id)
    ensures a.severity == (if rule == CoolingChampion then Warning else Critical)
  {
    var d := DaysSince(s.lastContactDate, now);
    match rule
    case NeverContacted =>
      Alert(Critical, s.name + " (" + s.title + ", " + RoleName(s.role) + ") has NEVER been contacted",
            Some(s.id))
    case AtRiskP0 =>
      Alert(Critical, s.name + " (" + RoleName(s.role) + ") relationship is At Risk - " + DaysText(d)
                      + " days since contact", Some(s.id))
    case SilentBuyer =>
      Alert(Critical, "Economic Buyer " + s.name + " last contacted " + DaysText(d)
                      + " days ago - renewal in ~60 days", Some(s.id))
    case CoolingChampion =>
      Alert(Warning, "Champion " + s.name + " hasn't been contacted in " + DaysText(d)
                     + " days - keep momentum", Some(s.id))
  }

  /** stakeholders.filter(rule).forEach(push): the alerts one rule adds, in list order. */
  function Pushes(ss: seq<Stakeholder>, rule: Rule, now: int): (r: seq<Alert>)
    ensures |r| <= |ss|
  {
    if |ss| == 0 then []
    else
      var last := ss[|ss| - 1];
      Pushes(ss[..|ss| - 1], rule, now) + (if Fires(rule, last, now) then [RuleAlert(rule, last, now)] else [])
  }

  // ---------------------------------------------------------------- teams

  /** members.every((m) => m.lastContactDate === null) */
  predicate AllUncontacted(ms: seq<Stakeholder>) {
    forall k :: 0 <= k < |ms| ==> ms[k].lastContactDate.None?
  }

  function TeamAlert(team: string, size: nat): Alert {
    Alert(Critical, team + " team (" + NatToString(size) + " members) has zero engagement", None)
  }

  /** The teams, among `keys`, whose members were all never contacted. */
  function SilentTeams(ss: seq<Stakeholder>, keys: seq<string>): (r: seq<string>)
    ensures forall t :: t in r <==> t in keys && AllUncontacted(TeamMembers(ss, t))
  {
    if |keys| == 0 then []
    else
      var init := SilentTeams(ss, keys[..|keys| - 1]);
      var t := keys[|keys| - 1];
      assert forall u :: u in keys <==> u in keys[..|keys| - 1] || u == t;
      if AllUncontacted(TeamMembers(ss, t)) then init + [t] else init
  }

  /** The zero-engagement alerts for the teams in `keys`, in that order. */
  function TeamAlertsOver(ss: seq<Stakeholder>, keys: seq<string>): (r: seq<Alert>)
    ensures |r| <= |keys|
    ensures forall k :: 0 <= k < |r| ==> r[k].severity == Critical && r[k].stakeholderId.None?
  {
    if |keys| == 0 then []
    else
      var init := TeamAlertsOver(ss, keys[..|keys| - 1]);
      var t := keys[|keys| - 1];
      if AllUncontacted(TeamMembers(ss, t)) then init + [TeamAlert(t, |TeamMembers(ss, t)|)] else init
  }

  /** The alerts the team rule pushes, one per silent team, in Map order. */
  function TeamAlerts(ss: seq<Stakeholder>): seq<Alert> {
    TeamAlertsOver(ss, TeamOrder(ss))
  }

  // ---------------------------------------------------------------- weak relationships

  /** The last rule's filter: a Weak relationship with a buyer, blocker or champion. */
  predicate WeakKey(s: Stakeholder) {
    s.relationshipStrength == Weak && (s.role == EconomicBuyer || s.role == Blocker || s.role == Champion)
  }

  /** alerts.some((a) => a.stakeholderId === id) */
  predicate Mentions(alerts: seq<Alert>, id: string) {
    exists k :: 0 <= k < |alerts| && alerts[k].stakeholderId == Some(id)
  }

  function WeakAlert(s: Stakeholder): Alert {
    Alert(Warning, s.name + " (" + RoleName(s.role) + ") has a Weak relationship - invest in strengthening",
          Some(s.id))
  }

  /** The alerts the last rule adds after `prior`: a Weak key stakeholder is skipped when
      any alert so far, including this rule's own, already names its id. */
  function WeakPushes(prior: seq<Alert>, ss: seq<Stakeholder>): (r: seq<Alert>)
    ensures |r| <= |ss|
  {
    if |ss| == 0 then []
    else
      var init := WeakPushes(prior, ss[..|ss| - 1]);
      var s := ss[|ss| - 1];
      if WeakKey(s) && !Mentions(prior + init, s.id) then init + [WeakAlert(s)] else init
  }

  // ---------------------------------------------------------------- all rules

  /** Every alert the six rules generate, in generation order. */
  function AllAlerts(ss: seq<Stakeholder>, now: int): seq<Alert> {
    Early(ss, now) + WeakPushes(Early(ss, now), ss)
  }

  /** The alerts of the first five rules, which never look at earlier alerts. */
  function Early(ss: seq<Stakeholder>, now: int): seq<Alert> {
    CriticalRules(ss, now) + Pushes(ss, CoolingChampion, now)
  }

  /** The alerts of the first four rules, every one of them critical. */
  function CriticalRules(ss: seq<Stakeholder>, now: int): seq<Alert> {
    Pushes(ss, NeverContacted, now) + Pushes(ss, AtRiskP0, now) + Pushes(ss, SilentBuyer, now)
    + TeamAlerts(ss)
  }

  /** The alerts of the last two rules. */
  function WarningRules(ss: seq<Stakeholder>, now: int): seq<Alert> {
    Pushes(ss, CoolingChampion, now) + WeakPushes(Early(ss, now), ss)
  }

  /** alerts.slice(0, 8) */
  function Shown(ss: seq<Stakeholder>, now: int): seq<Alert> {
    var all := AllAlerts(ss, now);
    if |all| <= SHOWN then all else all[..SHOWN]
  }

  // ---------------------------------------------------------------- the imperative version

  /** One `filter(...).forEach(push)` pass. */
  method PushRule(alerts: seq<Alert>, ss: seq<Stakeholder>, rule: Rule, now: int) returns (out: seq<Alert>)
    ensures out == alerts + Pushes(ss, rule, now)
  {
    out := alerts;
    for i := 0 to |ss|
      invariant out == alerts + Pushes(ss[..i], rule, now)
    {
      assert ss[..i + 1][..i] == ss[..i];
      if Fires(rule, ss[i], now) {
        AlertsAssoc(alerts, Pushes(ss[..i], rule, now), [RuleAlert(rule, ss[i], now)]);
        out := out + [RuleAlert(rule, ss[i], now)];
      }
    }
    assert ss[..|ss|] == ss;
  }

  /** One more stakeholder changes only its own team's members. */
  lemma MembersSnoc(ss: seq<Stakeholder>, i: nat, t: string)
    requires i < |ss|
    ensures TeamMembers(ss[..i + 1], t) == if ss[i].team == t then TeamMembers(ss[..i], t) + [ss[i]] else TeamMembers(ss[..i], t)
    ensures TeamOrder(ss[..i + 1]) == if ss[i].team in TeamOrder(ss[..i]) then TeamOrder(ss[..i]) else TeamOrder(ss[..i]) + [ss[i].team]
  {
    assert ss[..i + 1][..i] == ss[..i];
  }

  /** The `teams` Map: keys in insertion order, each mapped to its members. */
  method GroupByTeam(ss: seq<Stakeholder>) returns (keys: seq<string>, groups: map<string, seq<Stakeholder>>)
    ensures keys == TeamOrder(ss)
    ensures forall t :: t in groups <==> t in keys
    ensures forall t :: t in groups ==> groups[t] == TeamMembers(ss, t)
  {
    keys := [];
    groups := map[];
    for i := 0 to |ss|
      invariant keys == TeamOrder(ss[..i])
      invariant forall t :: t in groups <==> t in keys
      invariant forall t :: t in groups ==> groups[t] == TeamMembers(ss[..i], t)
    {
      var team := ss[i].team;
      MembersSnoc(ss, i, team);
      var current := [];
      if team in groups {
        current := groups[team];
      } else {
        MembersOfAbsent(ss[..i], team);
        keys := keys + [team];
      }
      groups := groups[team := current + [ss[i]]];
      forall t | t in groups
        ensures groups[t] == TeamMembers(ss[..i + 1], t)
      {
        MembersSnoc(ss, i, t);
      }
    }
    assert ss[..|ss|] == ss;
  }

  /** A team that does not occur has no members. */
  lemma {:induction false} MembersOfAbsent(ss: seq<Stakeholder>, t: string)
    requires t !in TeamOrder(ss)
    ensures TeamMembers(ss, t) == []
  {
    if |ss| > 0 {
      MembersSnoc(ss, |ss| - 1, t);
      assert ss[..|ss| - 1 + 1] == ss;
      MembersOfAbsent(ss[..|ss| - 1], t);
    }
  }

  lemma TeamAlertsStep(ss: seq<Stakeholder>, keys: seq<string>, i: nat)
    requires i < |keys|
    ensures TeamAlertsOver(ss, keys[..i + 1]) == TeamAlertsOver(ss, keys[..i])
      + (if AllUncontacted(TeamMembers(ss, keys[i])) then [TeamAlert(keys[i], |TeamMembers(ss, keys[i])|)] else [])
  {
    assert keys[..i + 1][..i] == keys[..i];
  }

  /** teams.forEach: push a zero-engagement alert for every silent team. */
  method PushTeams(alerts: seq<Alert>, ss: seq<Stakeholder>) returns (out: seq<Alert>)
    ensures out == alerts + TeamAlerts(ss)
  {
    var keys, groups := GroupByTeam(ss);
    out := alerts;
    for i := 0 to |keys|
      invariant out == alerts + TeamAlertsOver(ss, keys[..i])
    {
      out := PushTeamAt(alerts, out, ss, keys, groups[keys[i]], i);
    }
    assert keys[..|keys|] == keys;
  }

  /** One team's turn in teams.forEach. */
  method PushTeamAt(alerts: seq<Alert>, out: seq<Alert>, ss: seq<Stakeholder>, keys: seq<string>,
                    members: seq<Stakeholder>, i: nat) returns (out': seq<Alert>)
    requires i < |keys| && members == TeamMembers(ss, keys[i])
    requires out == alerts + TeamAlertsOver(ss, keys[..i])
    ensures out' == alerts + TeamAlertsOver(ss, keys[..i + 1])
  {
    TeamAlertsStep(ss, keys, i);
    out' := out;
    if AllUncontacted(members) {
      AlertsAssoc(alerts, TeamAlertsOver(ss, keys[..i]), [TeamAlert(keys[i], |members|)]);
      out' := out + [TeamAlert(keys[i], |members|)];
    }
  }

  /** The last rule, consulting everything pushed so far. */
  method PushWeak(alerts: seq<Alert>, ss: seq<Stakeholder>) returns (out: seq<Alert>)
    ensures out == alerts + WeakPushes(alerts, ss)
  {
    out := alerts;
    for i := 0 to |ss|
      invariant out == alerts + WeakPushes(alerts, ss[..i])
    {
      assert ss[..i + 1][..i] == ss[..i];
      var s := ss[i];
      if WeakKey(s) && !Mentions(out, s.id) {
        AlertsAssoc(alerts, WeakPushes(alerts, ss[..i]), [WeakAlert(s)]);
        out := out + [WeakAlert(s)];
      }
    }
    assert ss[..|ss|] == ss;
  }

  /** generateAlerts: at most eight alerts, the first eight the rules generate. */
  method GenerateAlerts(ss: seq<Stakeholder>, now: int) returns (alerts: seq<Alert>)
    ensures alerts == Shown(ss, now)
    ensures |alerts| <= SHOWN
    ensures forall k :: 0 <= k < |alerts| ==> alerts[k] == AllAlerts(ss, now)[k]
  {
    alerts := PushRule([], ss, NeverContacted, now);
    assert alerts == Pushes(ss, NeverContacted, now) by {
      assert [] + Pushes(ss, NeverContacted, now) == Pushes(ss, NeverContacted, now);
    }
    alerts := PushRule(alerts, ss, AtRiskP0, now);
    alerts := PushRule(alerts, ss, SilentBuyer, now);
    alerts := PushTeams(alerts, ss);
    alerts := PushRule(alerts, ss, CoolingChampion, now);
    assert alerts == Early(ss, now);
    alerts := PushWeak(alerts, ss);
    assert alerts == AllAlerts(ss, now);
    if |alerts| > SHOWN {
      alerts := alerts[..SHOWN];
    }
  }

  // ---------------------------------------------------------------- properties

  /** A rule pushes an alert for exactly the stakeholders its filter keeps. */
  lemma {:induction false} PushesMembers(ss: seq<Stakeholder>, rule: Rule, now: int, a: Alert)
    ensures a in Pushes(ss, rule, now) <==> PushedFor(ss, rule, now, a)
  {
    if |ss| > 0 {
      PushesMembers(ss[..|ss| - 1], rule, now, a);
      PushesLast(ss, rule, now, a);
      PushedForLast(ss, rule, now, a);
    }
  }

  /** Some stakeholder of the list fires the rule and gets the alert `a`. */
  predicate PushedFor(ss: seq<Stakeholder>, rule: Rule, now: int, a: Alert) {
    exists s :: s in ss && Fires(rule, s, now) && RuleAlert(rule, s, now) == a
  }

  lemma PushesLast(ss: seq<Stakeholder>, rule: Rule, now: int, a: Alert)
    requires |ss| > 0
    ensures a in Pushes(ss, rule, now) <==>
      (a in Pushes(ss[..|ss| - 1], rule, now) || (Fires(rule, ss[|ss| - 1], now) && RuleAlert(rule, ss[|ss| - 1], now) == a))
  {
  }

  lemma PushedForLast(ss: seq<Stakeholder>, rule: Rule, now: int, a: Alert)
    requires |ss| > 0
    ensures PushedFor(ss, rule, now, a) <==>
      (PushedFor(ss[..|ss| - 1], rule, now, a) || (Fires(rule, ss[|ss| - 1], now) && RuleAlert(rule, ss[|ss| - 1], now) == a))
  {
    assert ss == ss[..|ss| - 1] + [ss[|ss| - 1]];
  }

  /** Every alert of a rule has that rule's severity and names a stakeholder. */
  lemma {:induction false} PushesSeverity(ss: seq<Stakeholder>, rule: Rule, now: int)
    ensures forall k :: 0 <= k < |Pushes(ss, rule, now)| ==>
      Pushes(ss, rule, now)[k].severity == (if rule == CoolingChampion then Warning else Critical)
      && Pushes(ss, rule, now)[k].stakeholderId.Some?
  {
    if |ss| > 0 { PushesSeverity(ss[..|ss| - 1], rule, now); }
  }

  lemma {:induction false} WeakPushesWarnings(prior: seq<Alert>, ss: seq<Stakeholder>)
    ensures forall k :: 0 <= k < |WeakPushes(prior, ss)| ==>
      WeakPushes(prior, ss)[k].severity == Warning && WeakPushes(prior, ss)[k].stakeholderId.Some?
  {
    if |ss| > 0 { WeakPushesWarnings(prior, ss[..|ss| - 1]); }
  }

  /** Critical alerts come first: once a warning appears, every later alert is a warning. */
  lemma CriticalBeforeWarning(ss: seq<Stakeholder>, now: int)
    ensures forall i, j :: 0 <= i < j < |AllAlerts(ss, now)| && AllAlerts(ss, now)[i].severity != Critical
              ==> AllAlerts(ss, now)[j].severity == Warning
  {
    var crit := CriticalRules(ss, now);
    var warn := WarningRules(ss, now);
    CriticalRulesCritical(ss, now);
    LaterWarnings(ss, now);
    AllAlertsSplit(ss, now);
    CriticalThenWarning(crit, warn);
  }

  /** The alerts are the critical rules' followed by the warning rules'. */
  lemma AllAlertsSplit(ss: seq<Stakeholder>, now: int)
    ensures AllAlerts(ss, now) == CriticalRules(ss, now) + WarningRules(ss, now)
  {
    var c, p, w := CriticalRules(ss, now), Pushes(ss, CoolingChampion, now), WeakPushes(Early(ss, now), ss);
    AlertsAssoc(c, p, w);
  }

  lemma PrefixIndex(a: seq<Alert>, b: seq<Alert>)
    ensures forall k :: 0 <= k < |a| ==> (a + b)[k] == a[k]
  {
  }

  lemma AlertsAssoc(a: seq<Alert>, b: seq<Alert>, c: seq<Alert>)
    ensures (a + b) + c == a + (b + c)
  {
  }

  /** The first four rules push only critical alerts. */
  lemma CriticalRulesCritical(ss: seq<Stakeholder>, now: int)
    ensures forall k :: 0 <= k < |CriticalRules(ss, now)| ==> CriticalRules(ss, now)[k].severity == Critical
  {
    PushesSeverity(ss, NeverContacted, now);
    PushesSeverity(ss, AtRiskP0, now);
    PushesSeverity(ss, SilentBuyer, now);
  }

  /** The last two rules push only warnings. */
  lemma LaterWarnings(ss: seq<Stakeholder>, now: int)
    ensures forall k :: 0 <= k < |WarningRules(ss, now)| ==> WarningRules(ss, now)[k].severity == Warning
  {
    PushesSeverity(ss, CoolingChampion, now);
    WeakPushesWarnings(Early(ss, now), ss);
  }

  /** Critical alerts followed by warnings: no critical alert after a warning. */
  lemma CriticalThenWarning(crit: seq<Alert>, warn: seq<Alert>)
    requires forall k :: 0 <= k < |crit| ==> crit[k].severity == Critical
    requires forall k :: 0 <= k < |warn| ==> warn[k].severity == Warning
    ensures forall i, j :: 0 <= i < j < |crit + warn| && (crit + warn)[i].severity != Critical
              ==> (crit + warn)[j].severity == Warning
  {
    forall i, j | 0 <= i < j < |crit + warn| && (crit + warn)[i].severity != Critical
      ensures (crit + warn)[j].severity == Warning
    {
      assert i >= |crit|;
      assert (crit + warn)[j] == warn[j - |crit|];
    }
  }

  /** The shown alerts keep that order. */
  lemma ShownCriticalFirst(ss: seq<Stakeholder>, now: int)
    ensures forall i, j :: 0 <= i < j < |Shown(ss, now)| && Shown(ss, now)[i].severity != Critical
              ==> Shown(ss, now)[j].severity == Warning
  {
    CriticalBeforeWarning(ss, now);
  }

  /** A team alert is pushed exactly for the teams that occur in the list and whose every
      member was never contacted; team alerts are critical and carry no stakeholder id. */
  lemma TeamAlertRule(ss: seq<Stakeholder>, team: string)
    ensures team in SilentTeams(ss, TeamOrder(ss)) <==>
              (exists k :: 0 <= k < |ss| && ss[k].team == team)
              && forall k :: 0 <= k < |ss| && ss[k].team == team ==> ss[k].lastContactDate.None?
    ensures forall k :: 0 <= k < |TeamAlerts(ss)| ==> TeamAlerts(ss)[k].severity == Critical && TeamAlerts(ss)[k].stakeholderId.None?
  {
    MembersExact(ss, team);
    TeamOrderMembers(ss, team);
  }

  /** The team rule pushes one alert per silent team and nothing else. */
  lemma {:induction false} TeamAlertsExact(ss: seq<Stakeholder>, keys: seq<string>, a: Alert)
    ensures a in TeamAlertsOver(ss, keys) <==>
              exists t :: t in SilentTeams(ss, keys) && a == TeamAlert(t, |TeamMembers(ss, t)|)
  {
    if |keys| > 0 {
      var init := keys[..|keys| - 1];
      var t := keys[|keys| - 1];
      TeamAlertsExact(ss, init, a);
      if AllUncontacted(TeamMembers(ss, t)) {
        assert SilentTeams(ss, keys) == SilentTeams(ss, init) + [t];
      }
    }
  }

  /** A team is all uncontacted iff every list entry of that team was never contacted. */
  lemma {:induction false} MembersExact(ss: seq<Stakeholder>, team: string)
    ensures AllUncontacted(TeamMembers(ss, team)) <==>
              forall k :: 0 <= k < |ss| && ss[k].team == team ==> ss[k].lastContactDate.None?
  {
    if |ss| > 0 {
      var init := ss[..|ss| - 1];
      var last := ss[|ss| - 1];
      MembersExact(init, team);
      assert forall k :: 0 <= k < |init| ==> init[k] == ss[k];
      var m := TeamMembers(init, team);
      if last.team == team {
        var r := m + [last];
        assert TeamMembers(ss, team) == r;
        assert forall k :: 0 <= k < |m| ==> r[k] == m[k];
        assert r[|m|] == last;
        assert AllUncontacted(r) <==> AllUncontacted(m) && last.lastContactDate.None?;
      }
    }
  }

  /** No Weak-relationship warning names a stakeholder that an earlier alert names. */
  lemma {:induction false} WeakNotRepeated(prior: seq<Alert>, ss: seq<Stakeholder>)
    ensures forall j, i :: 0 <= j < |WeakPushes(prior, ss)| && 0 <= i < |prior| + j ==>
              (prior + WeakPushes(prior, ss))[i].stakeholderId != WeakPushes(prior, ss)[j].stakeholderId
  {
    if |ss| > 0 {
      var init := WeakPushes(prior, ss[..|ss| - 1]);
      WeakNotRepeated(prior, ss[..|ss| - 1]);
      var s := ss[|ss| - 1];
      if WeakKey(s) && !Mentions(prior + init, s.id) {
        var w := init + [WeakAlert(s)];
        assert forall k :: 0 <= k < |prior| + |init| ==> (prior + w)[k] == (prior + init)[k];
      }
    }
  }

  /** Every Weak key stakeholder is named by some alert once the last rule has run: either
      an earlier alert names it or the rule adds one. */
  lemma {:induction false} WeakCovered(prior: seq<Alert>, ss: seq<Stakeholder>)
    ensures forall k :: 0 <= k < |ss| && WeakKey(ss[k]) ==> Mentions(prior + WeakPushes(prior, ss), ss[k].id)
  {
    if |ss| > 0 {
      var init := ss[..|ss| - 1];
      var w := WeakPushes(prior, init);
      var s := ss[|ss| - 1];
      WeakCovered(prior, init);
      var all := prior + WeakPushes(prior, ss);
      WeakPushesStep(prior, ss);
      forall k | 0 <= k < |ss| && WeakKey(ss[k])
        ensures Mentions(all, ss[k].id)
      {
        if k < |init| {
          assert init[k] == ss[k];
          MentionsGrows(prior + w, all, ss[k].id);
        } else if Mentions(prior + w, ss[k].id) {
          MentionsGrows(prior + w, all, ss[k].id);
        } else {
          assert all[|all| - 1] == WeakAlert(s);
        }
      }
    }
  }

  /** The last rule's alerts so far open the alerts after one more stakeholder. */
  lemma WeakPushesStep(prior: seq<Alert>, ss: seq<Stakeholder>)
    requires |ss| > 0
    ensures prior + WeakPushes(prior, ss[..|ss| - 1]) <= prior + WeakPushes(prior, ss)
  {
    var w := WeakPushes(prior, ss[..|ss| - 1]);
    var s := ss[|ss| - 1];
    if WeakKey(s) && !Mentions(prior + w, s.id) {
      AlertsAssoc(prior, w, [WeakAlert(s)]);
    }
  }

  /** An alert list that opens a longer one mentions nothing the longer one does not. */
  lemma MentionsGrows(a: seq<Alert>, b: seq<Alert>, id: string)
    requires a <= b && Mentions(a, id)
    ensures Mentions(b, id)
  {
    var m :| 0 <= m < |a| && a[m].stakeholderId == Some(id);
    assert b[m] == a[m];
  }

  /** The earlier rules do not deduplicate: a never-contacted, At Risk P0 stakeholder alone
      gets two alerts naming it, then its team's zero-engagement alert. */
  lemma SeveralAlertsForOne(s: Stakeholder, now: int)
    requires s.lastContactDate.None? && s.priority == P0 && s.relationshipStrength == AtRisk
    ensures |AllAlerts([s], now)| >= 3
    ensures AllAlerts([s], now)[0].stakeholderId == Some(s.id)
    ensures AllAlerts([s], now)[1].stakeholderId == Some(s.id)
    ensures AllAlerts([s], now)[2] == TeamAlert(s.team, 1)
  {
    CriticalRulesOne(s, now);
    AllAlertsSplit([s], now);
    PrefixIndex(CriticalRules([s], now), WarningRules([s], now));
  }

  lemma CriticalRulesOne(s: Stakeholder, now: int)
    requires s.lastContactDate.None? && s.priority == P0 && s.relationshipStrength == AtRisk
    ensures CriticalRules([s], now) == [RuleAlert(NeverContacted, s, now), RuleAlert(AtRiskP0, s, now), TeamAlert(s.team, 1)]
  {
    assert Fires(NeverContacted, s, now) && Fires(AtRiskP0, s, now) && !Fires(SilentBuyer, s, now);
    PushesOne(s, NeverContacted, now);
    PushesOne(s, AtRiskP0, now);
    PushesOne(s, SilentBuyer, now);
    TeamAlertsOne(s);
    var a, b, t := RuleAlert(NeverContacted, s, now), RuleAlert(AtRiskP0, s, now), TeamAlert(s.team, 1);
    assert CriticalRules([s], now) == [a] + [b] + [] + [t];
  }

  /** A rule over one stakeholder pushes its alert exactly when it fires. */
  lemma PushesOne(s: Stakeholder, rule: Rule, now: int)
    ensures Pushes([s], rule, now) == if Fires(rule, s, now) then [RuleAlert(rule, s, now)] else []
  {
    assert [s][..0] == [];
  }

  /** A never-contacted stakeholder alone makes a silent team of one. */
  lemma TeamAlertsOne(s: Stakeholder)
    requires s.lastContactDate.None?
    ensures TeamAlerts([s]) == [TeamAlert(s.team, 1)]
  {
    assert [s][..0] == [];
    assert TeamOrder([s]) == [s.team];
    assert TeamMembers([s], s.team) == [s];
    assert [s.team][..0] == [];
  }
}
