/** The records of lib/types.ts: stakeholders, activities and their enumerations. */
module Domain {
  import opened Wrappers

  /** A calendar date, as a number of days since 1970-01-01 (midnight UTC). */
  type Day = int

  /** Milliseconds in a day: 1000 * 60 * 60 * 24. */
  const MS_PER_DAY: int := 86400000

  datatype Role = EconomicBuyer | Champion | Influencer | TechnicalBuyer | EndUser | Blocker

  datatype Priority = P0 | P1 | P2

  datatype Strength = Strong | Neutral | Weak | AtRisk | Unknown

  datatype ActivityType = Meeting | Email | Call | Slack

  function RoleName(r: Role): string {
    match r
    case EconomicBuyer => "Economic Buyer"
    case Champion => "Champion"
    case Influencer => "Influencer"
    case TechnicalBuyer => "Technical Buyer"
    case EndUser => "End User"
    case Blocker => "Blocker"
  }

  function PriorityName(p: Priority): string {
    match p
    case P0 => "P0"
    case P1 => "P1"
    case P2 => "P2"
  }

  function StrengthName(s: Strength): string {
    match s
    case Strong => "Strong"
    case Neutral => "Neutral"
    case Weak => "Weak"
    case AtRisk => "At Risk"
    case Unknown => "Unknown"
  }

  function TypeName(t: ActivityType): string {
    match t
    case Meeting => "Meeting"
    case Email => "Email"
    case Call => "Call"
    case Slack => "Slack"
  }

  /** A person relevant to the deal. `lastContactDate == None` means "never contacted";
      `email` and `reportsTo` are optional. */
  datatype Stakeholder = Stakeholder(
    id: string,
    name: string,
    title: string,
    team: string,
    role: Role,
    priority: Priority,
    lastContactDate: Option<Day>,
    relationshipStrength: Strength,
    keyPriorities: seq<string>,
    notes: string,
    email: Option<string>,
    reportsTo: Option<string>)

  /** A dated interaction with one or more stakeholders. */
  datatype Activity = Activity(
    id: string,
    date: Day,
    stakeholderIds: seq<string>,
    kind: ActivityType,
    summary: string)

  /** The built-in team list; the first entry is the form's default. */
  const TEAMS: seq<string> := [
    "Engineering Infrastructure", "Finance", "Legal/Compliance", "Product Team A",
    "Product Team B", "Security", "Procurement"]

  function Ids(ss: seq<Stakeholder>): (r: seq<string>)
    ensures |r| == |ss| && forall i :: 0 <= i < |ss| ==> r[i] == ss[i].id
  {
    seq(|ss|, i requires 0 <= i < |ss| => ss[i].id)
  }

  function ActivityIds(acts: seq<Activity>): (r: seq<string>)
    ensures |r| == |acts| && forall i :: 0 <= i < |acts| ==> r[i] == acts[i].id
  {
    seq(|acts|, i requires 0 <= i < |acts| => acts[i].id)
  }

  /** Array.prototype.find by id: the first stakeholder carrying `id`. */
  function FindById(ss: seq<Stakeholder>, id: string): (r: Option<Stakeholder>)
    ensures r.Some? ==> r.value in ss && r.value.id == id
    ensures r.None? <==> id !in Ids(ss)
  {
    if |ss| == 0 then None
    else if ss[0].id == id then Some(ss[0])
    else
      var r := FindById(ss[1..], id);
      assert Ids(ss) == [ss[0].id] + Ids(ss[1..]);
      r
  }

  /** Array.prototype.findIndex by id. */
  function FirstIndex(ss: seq<Stakeholder>, id: string): (r: Option<nat>)
    ensures r.Some? ==> r.value < |ss| && ss[r.value].id == id
                        && forall j :: 0 <= j < r.value ==> ss[j].id != id
    ensures r.None? <==> forall j :: 0 <= j < |ss| ==> ss[j].id != id
  {
    if |ss| == 0 then None
    else if ss[0].id == id then Some(0)
    else
      match FirstIndex(ss[1..], id)
      case None => None
      case Some(k) => Some(k + 1)
  }

  /** find by id and findIndex by id pick the same record. */
  lemma FindIsFirst(ss: seq<Stakeholder>, id: string)
    ensures FindById(ss, id).Some? <==> FirstIndex(ss, id).Some?
    ensures FirstIndex(ss, id).Some? ==> FindById(ss, id) == Some(ss[FirstIndex(ss, id).value])
  {
    FindFirst(ss, id);
    if FirstIndex(ss, id).None? {
      assert id !in Ids(ss);
    }
  }

  lemma {:induction false} FindFirst(ss: seq<Stakeholder>, id: string)
    ensures FirstIndex(ss, id).Some? ==> FindById(ss, id) == Some(ss[FirstIndex(ss, id).value])
  {
    if |ss| > 0 && ss[0].id != id && FirstIndex(ss, id).Some? {
      var rest := ss[1..];
      FindFirst(rest, id);
      var k := FirstIndex(rest, id).value;
      assert rest[k] == ss[k + 1];
    }
  }

  /** stakeholders.filter((s) => s.team === team): the members of one team, in list order. */
  function TeamMembers(ss: seq<Stakeholder>, team: string): (r: seq<Stakeholder>)
    ensures |r| <= |ss|
    ensures forall m :: m in r ==> m in ss && m.team == team
  {
    if |ss| == 0 then []
    else
      var init := TeamMembers(ss[..|ss| - 1], team);
      var last := ss[|ss| - 1];
      assert forall m :: m in ss[..|ss| - 1] ==> m in ss;
      if last.team == team then init + [last] else init
  }

  /** The distinct teams in order of first appearance, as a Set or Map keyed by team
      iterates them. */
  function TeamOrder(ss: seq<Stakeholder>): (r: seq<string>)
    ensures forall i, j :: 0 <= i < j < |r| ==> r[i] != r[j]
  {
    if |ss| == 0 then []
    else
      var init := TeamOrder(ss[..|ss| - 1]);
      var t := ss[|ss| - 1].team;
      if t in init then init else init + [t]
  }

  /** The keys are exactly the teams that occur in the list. */
  lemma {:induction false} TeamOrderMembers(ss: seq<Stakeholder>, t: string)
    ensures t in TeamOrder(ss) <==> exists k :: 0 <= k < |ss| && ss[k].team == t
  {
    if |ss| > 0 {
      var init := ss[..|ss| - 1];
      TeamOrderMembers(init, t);
      assert forall k :: 0 <= k < |init| ==> init[k] == ss[k];
    }
  }

  /** The sort key of the newest-first activity lists: `new Date(date).getTime()` orders
      ISO dates as their day numbers do. */
  function DateKey(a: Activity): int { a.date }

  predicate NewestFirst(acts: seq<Activity>) {
    forall i, j :: 0 <= i < j < |acts| ==> acts[i].date >= acts[j].date
  }

  predicate UniqueIds(ss: seq<Stakeholder>) {
    forall i, j :: 0 <= i < j < |ss| ==> ss[i].id != ss[j].id
  }
}

/** lib/utils.ts: daysSince (the same function is repeated in lib/data.ts and app/page.tsx)
    and the class-name joiner cn. */
module Utils {
  import opened Wrappers
  import opened Domain
  import opened Text

  /** Whole days elapsed from the date's midnight to `now` (milliseconds), rounded down;
      None for a missing date. */
  function DaysSince(date: Option<Day>, now: int): (r: Option<int>)
    ensures date.None? <==> r.None?
    ensures date.Some? ==> r.value * MS_PER_DAY <= now - date.value * MS_PER_DAY < (r.value + 1) * MS_PER_DAY
  {
    match date
    case None => None
    case Some(d) => Some((now - d * MS_PER_DAY) / MS_PER_DAY)
  }

  /** On day `today` (any instant of it), a date `d` is exactly `today - d` days old;
      dates in the future give negative counts. */
  lemma DaysSinceToday(d: Day, today: int, msIntoDay: int)
    requires 0 <= msIntoDay < MS_PER_DAY
    ensures DaysSince(Some(d), today * MS_PER_DAY + msIntoDay) == Some(today - d)
  {
    var now := today * MS_PER_DAY + msIntoDay;
    var k := DaysSince(Some(d), now).value;
    assert (today - d) * MS_PER_DAY <= now - d * MS_PER_DAY < (today - d + 1) * MS_PER_DAY;
    FloorUnique(now - d * MS_PER_DAY, k, today - d);
  }

  lemma FloorUnique(x: int, a: int, b: int)
    requires a * MS_PER_DAY <= x < (a + 1) * MS_PER_DAY
    requires b * MS_PER_DAY <= x < (b + 1) * MS_PER_DAY
    ensures a == b
  {
  }

  /** A later date is never more days ago. */
  lemma DaysSinceAntitone(d1: Day, d2: Day, now: int)
    requires d1 <= d2
    ensures DaysSince(Some(d2), now).value <= DaysSince(Some(d1), now).value
  {
  }

  /** The decimal digits of n, zero-padded on the left to `width` characters. */
  function Pad(n: nat, width: nat): (r: string)
    ensures |r| >= width && AllDigits(r)
  {
    var digits := NatToString(n);
    if |digits| >= width then digits else seq(width - |digits|, _ => '0') + digits
  }

  /** The "YYYY-MM-DD" text of a day number (the proleptic Gregorian calendar, days
      counted from 1970-01-01), as the application stores dates. */
  function IsoDate(d: Day): (r: string)
    ensures |r| >= 10
  {
    var z := d + 719468;
    var era := z / 146097;
    var doe := z - era * 146097;
    var yoe := (doe - doe / 1460 + doe / 36524 - doe / 146096) / 365;
    var doy := doe - (365 * yoe + yoe / 4 - yoe / 100);
    var mp := (5 * doy + 2) / 153;
    var day := doy - (153 * mp + 2) / 5 + 1;
    var month := if mp < 10 then mp + 3 else mp - 9;
    var year := yoe + era * 400 + (if month <= 2 then 1 else 0);
    Pad(Clip(year), 4) + "-" + Pad(Clip(month), 2) + "-" + Pad(Clip(day), 2)
  }

  /** A negative calendar field (a year before year 0) prints as zero. */
  function Clip(x: int): nat {
    if x < 0 then 0 else x
  }

  /** An argument of cn: a string, a boolean, undefined or null. */
  datatype ClassArg = Str(s: string) | Flag(b: bool) | Undefined | Null

  predicate Truthy(a: ClassArg) {
    match a
    case Str(s) => s != ""
    case Flag(b) => b
    case Undefined => false
    case Null => false
  }

  /** String(a) for a truthy argument; `true` prints as "true". */
  function ArgText(a: ClassArg): string
    requires Truthy(a)
  {
    match a
    case Str(s) => s
    case Flag(_) => "true"
  }

  /** classes.filter(Boolean), rendered as strings. */
  function Kept(args: seq<ClassArg>): (r: seq<string>)
    ensures |r| <= |args|
    ensures forall k :: 0 <= k < |r| ==> r[k] != ""
  {
    if |args| == 0 then []
    else if Truthy(args[0]) then [ArgText(args[0])] + Kept(args[1..])
    else Kept(args[1..])
  }

  /** cn(...classes): the truthy arguments joined by single spaces. */
  function Cn(args: seq<ClassArg>): string {
    Join(Kept(args), " ")
  }

  /** With no truthy argument, cn gives the empty string. */
  lemma {:induction false} CnAllFalsy(args: seq<ClassArg>)
    requires forall k :: 0 <= k < |args| ==> !Truthy(args[k])
    ensures Cn(args) == ""
  {
    KeptAllFalsy(args);
  }

  lemma {:induction false} KeptAllFalsy(args: seq<ClassArg>)
    requires forall k :: 0 <= k < |args| ==> !Truthy(args[k])
    ensures Kept(args) == []
  {
    if |args| > 0 { KeptAllFalsy(args[1..]); }
  }

  /** Every truthy argument survives, in order: splitting the result on spaces gives back
      the kept class names when none of them contains a space. */
  lemma CnSplit(args: seq<ClassArg>)
    requires |Kept(args)| >= 1
    requires forall k :: 0 <= k < |Kept(args)| ==> ' ' !in Kept(args)[k]
    ensures Split(Cn(args), ' ') == Kept(args)
  {
    SplitJoin(Kept(args), ' ');
  }

  /** A `true` argument is kept and rendered as the text "true". */
  lemma CnTrue(args: seq<ClassArg>)
    ensures Kept([Flag(true)] + args) == ["true"] + Kept(args)
  {
    assert ([Flag(true)] + args)[1..] == args;
  }
}
