/** app/timeline/page.tsx: the activity timeline. The visible activities are filtered,
    sorted newest first and grouped by date; the form logs a new activity. The POST to
    /api/activities is a parameter: the record the route answers with. */
module Timeline {
  import opened Wrappers
  import opened Text
  import opened Domain
  import opened Sorting

  // ---------------------------------------------------------------- filter and sort

  /** The filter callback: an empty filter switches itself off; the type filter holds a
      type's display name. */
  predicate Passes(a: Activity, stakeholder: string, kind: string) {
    (stakeholder == "" || stakeholder in a.stakeholderIds)
    && (kind == "" || TypeName(a.kind) == kind)
  }

  function Visible(acts: seq<Activity>, stakeholder: string, kind: string): (r: seq<Activity>)
    ensures |r| <= |acts|
  {
    if |acts| == 0 then []
    else
      var init := Visible(acts[..|acts| - 1], stakeholder, kind);
      if Passes(acts[|acts| - 1], stakeholder, kind) then init + [acts[|acts| - 1]] else init
  }

  /** `filtered`: the visible activities, newest first; the sort is stable, so activities
      of one day keep their list order. */
  function Sorted(acts: seq<Activity>, stakeholder: string, kind: string): seq<Activity> {
    SortDesc(Visible(acts, stakeholder, kind), DateKey)
  }

  // ---------------------------------------------------------------- grouping

  /** The distinct dates in order of first appearance: the key order of the `grouped`
      record, whose keys are date strings that are not array indices. */
  function DateOrder(acts: seq<Activity>): (r: seq<Day>)
    ensures forall i, j :: 0 <= i < j < |r| ==> r[i] != r[j]
  {
    if |acts| == 0 then []
    else
      var init := DateOrder(acts[..|acts| - 1]);
      var d := acts[|acts| - 1].date;
      if d in init then init else init + [d]
  }

  /** The activities of one day, in list order. */
  function OnDate(acts: seq<Activity>, d: Day): (r: seq<Activity>)
    ensures |r| <= |acts|
  {
    if |acts| == 0 then []
    else
      var init := OnDate(acts[..|acts| - 1], d);
      if acts[|acts| - 1].date == d then init + [acts[|acts| - 1]] else init
  }

  /** The groups laid out one after the other, as the page renders them. */
  function Concat(dates: seq<Day>, acts: seq<Activity>): seq<Activity> {
    if |dates| == 0 then [] else Concat(dates[..|dates| - 1], acts) + OnDate(acts, dates[|dates| - 1])
  }

  lemma GroupSnoc(acts: seq<Activity>, i: nat, d: Day)
    requires i < |acts|
    ensures OnDate(acts[..i + 1], d) == if acts[i].date == d then OnDate(acts[..i], d) + [acts[i]] else OnDate(acts[..i], d)
    ensures DateOrder(acts[..i + 1]) == if acts[i].date in DateOrder(acts[..i]) then DateOrder(acts[..i]) else DateOrder(acts[..i]) + [acts[i].date]
  {
    assert acts[..i + 1][..i] == acts[..i];
  }

  /** The reduce into `grouped`: one list per date, keys in insertion order. */
  method GroupByDate(acts: seq<Activity>) returns (dates: seq<Day>, groups: map<Day, seq<Activity>>)
    ensures dates == DateOrder(acts)
    ensures forall d :: d in groups <==> d in dates
    ensures forall d :: d in groups ==> groups[d] == OnDate(acts, d)
  {
    dates := [];
    groups := map[];
    for i := 0 to |acts|
      invariant dates == DateOrder(acts[..i])
      invariant forall d :: d in groups <==> d in dates
      invariant forall d :: d in groups ==> groups[d] == OnDate(acts[..i], d)
    {
      var d := acts[i].date;
      GroupSnoc(acts, i, d);
      var current := [];
      if d in groups {
        current := groups[d];
      } else {
        DateAbsent(acts[..i], d);
        dates := dates + [d];
      }
      groups := groups[d := current + [acts[i]]];
      forall e | e in groups
        ensures groups[e] == OnDate(acts[..i + 1], e)
      {
        GroupSnoc(acts, i, e);
      }
    }
    assert acts[..|acts|] == acts;
  }

  /** A date that does not occur has an empty group. */
  lemma {:induction false} DateAbsent(acts: seq<Activity>, d: Day)
    requires d !in DateOrder(acts)
    ensures OnDate(acts, d) == []
  {
    if |acts| > 0 {
      DateAbsent(acts[..|acts| - 1], d);
    }
  }

  /** The group keys are exactly the dates that occur. */
  lemma {:induction false} DateOrderMembers(acts: seq<Activity>, d: Day)
    ensures d in DateOrder(acts) <==> exists k :: 0 <= k < |acts| && acts[k].date == d
  {
    if |acts| > 0 {
      var init := acts[..|acts| - 1];
      DateOrderMembers(init, d);
      assert forall k :: 0 <= k < |init| ==> init[k] == acts[k];
    }
  }

  /** Every activity of a group carries the group's date and comes from the list. */
  lemma {:induction false} OnDateMembers(acts: seq<Activity>, d: Day, a: Activity)
    ensures a in OnDate(acts, d) <==> a in acts && a.date == d
  {
    if |acts| > 0 {
      var init := acts[..|acts| - 1];
      OnDateMembers(init, d, a);
      assert acts == init + [acts[|acts| - 1]];
    }
  }

  /** In a newest-first list the last date to appear is the date of the last activity. */
  lemma {:induction false} LastDate(acts: seq<Activity>)
    requires |acts| > 0 && NewestFirst(acts)
    ensures |DateOrder(acts)| > 0 && DateOrder(acts)[|DateOrder(acts)| - 1] == acts[|acts| - 1].date
  {
    var init := acts[..|acts| - 1];
    var y := acts[|acts| - 1];
    if |init| > 0 && y.date in DateOrder(init) {
      LastDate(init);
      DateOrderMembers(init, y.date);
      var k :| 0 <= k < |init| && init[k].date == y.date;
      assert acts[k].date >= acts[|init| - 1].date >= y.date;
    }
  }

  /** Groups whose lists agree lay out the same way. */
  lemma {:induction false} ConcatSame(dates: seq<Day>, a: seq<Activity>, b: seq<Activity>)
    requires forall d :: d in dates ==> OnDate(a, d) == OnDate(b, d)
    ensures Concat(dates, a) == Concat(dates, b)
  {
    if |dates| > 0 {
      ConcatSame(dates[..|dates| - 1], a, b);
    }
  }

  /** Grouping a newest-first list loses nothing and reorders nothing: the groups, laid out
      in key order, are the list itself. */
  lemma {:induction false} GroupsRebuildList(acts: seq<Activity>)
    requires NewestFirst(acts)
    ensures Concat(DateOrder(acts), acts) == acts
  {
    if |acts| > 0 {
      var init := acts[..|acts| - 1];
      var x := acts[|acts| - 1];
      var ds := DateOrder(init);
      assert acts == init + [x];
      assert NewestFirst(init);
      GroupsRebuildList(init);
      if x.date in ds {
        LastDate(init);
        DateOrderMembers(init, x.date);
        var k :| 0 <= k < |init| && init[k].date == x.date;
        assert acts[k].date >= acts[|init| - 1].date >= x.date;
        var before := ds[..|ds| - 1];
        assert forall k :: 0 <= k < |before| ==> before[k] == ds[k];
        assert x.date !in before;
        OthersUnchanged(acts, before);
        ConcatSame(before, acts, init);
        calc {
          Concat(DateOrder(acts), acts);
          Concat(ds, acts);
          Concat(before, acts) + OnDate(acts, x.date);
          Concat(before, init) + (OnDate(init, x.date) + [x]);
          { AppendAssoc(Concat(before, init), OnDate(init, x.date), [x]); }
          (Concat(before, init) + OnDate(init, x.date)) + [x];
          Concat(ds, init) + [x];
          init + [x];
          acts;
        }
      } else {
        OthersUnchanged(acts, ds);
        ConcatSame(ds, acts, init);
        DateAbsent(init, x.date);
        var ds' := ds + [x.date];
        assert ds'[..|ds|] == ds;
        calc {
          Concat(DateOrder(acts), acts);
          Concat(ds', acts);
          Concat(ds, acts) + OnDate(acts, x.date);
          Concat(ds, init) + ([] + [x]);
          init + [x];
          acts;
        }
      }
    }
  }

  lemma AppendAssoc(a: seq<Activity>, b: seq<Activity>, c: seq<Activity>)
    ensures a + (b + c) == (a + b) + c
  {
  }

  /** Appending an activity leaves the groups of the other dates as they were. */
  lemma OthersUnchanged(acts: seq<Activity>, dates: seq<Day>)
    requires |acts| > 0 && acts[|acts| - 1].date !in dates
    ensures forall d :: d in dates ==> OnDate(acts, d) == OnDate(acts[..|acts| - 1], d)
  {
  }

  /** The dates of the groups strictly decrease. */
  lemma {:induction false} DatesDecrease(acts: seq<Activity>)
    requires NewestFirst(acts)
    ensures forall i, j :: 0 <= i < j < |DateOrder(acts)| ==> DateOrder(acts)[i] > DateOrder(acts)[j]
  {
    if |acts| > 0 {
      var init := acts[..|acts| - 1];
      var x := acts[|acts| - 1];
      assert NewestFirst(init);
      DatesDecrease(init);
      var ds := DateOrder(init);
      if x.date !in ds {
        forall i | 0 <= i < |ds| ensures ds[i] > x.date {
          DateOrderMembers(init, ds[i]);
          var k :| 0 <= k < |init| && init[k].date == ds[i];
          assert acts[k].date >= x.date;
        }
      }
    }
  }

  /** What the page shows: the filtered activities, newest first, grouped by day, the
      groups laid out in order giving back the sorted list. */
  lemma TimelineShown(acts: seq<Activity>, stakeholder: string, kind: string)
    ensures Concat(DateOrder(Sorted(acts, stakeholder, kind)), Sorted(acts, stakeholder, kind)) == Sorted(acts, stakeholder, kind)
    ensures NewestFirst(Sorted(acts, stakeholder, kind))
    ensures multiset(Sorted(acts, stakeholder, kind)) == multiset(Visible(acts, stakeholder, kind))
  {
    var v := Visible(acts, stakeholder, kind);
    SortDescSorted(v, DateKey);
    SortDescPermutation(v, DateKey);
    var s := Sorted(acts, stakeholder, kind);
    assert NewestFirst(s) by {
      forall i, j | 0 <= i < j < |s| ensures s[i].date >= s[j].date {
        assert DateKey(s[i]) >= DateKey(s[j]);
      }
    }
    GroupsRebuildList(s);
  }

  /** An activity is visible exactly when it is in the list and passes both filters. */
  lemma {:induction false} VisibleMembers(acts: seq<Activity>, stakeholder: string, kind: string, a: Activity)
    ensures a in Visible(acts, stakeholder, kind) <==> a in acts && Passes(a, stakeholder, kind)
  {
    if |acts| > 0 {
      var init := acts[..|acts| - 1];
      VisibleMembers(init, stakeholder, kind, a);
      assert acts == init + [acts[|acts| - 1]];
    }
  }

  /** With both filters off every activity is visible, in list order. */
  lemma {:induction false} NoFiltersKeepAll(acts: seq<Activity>)
    ensures Visible(acts, "", "") == acts
  {
    if |acts| > 0 {
      NoFiltersKeepAll(acts[..|acts| - 1]);
      assert acts == acts[..|acts| - 1] + [acts[|acts| - 1]];
    }
  }

  // ---------------------------------------------------------------- participant names

  datatype Link = Link(name: string, id: string)

  /** The participant chips: each id looked up with `find`; unknown ids are dropped. */
  function Links(ids: seq<string>, ss: seq<Stakeholder>): (r: seq<Link>)
    ensures |r| <= |ids|
  {
    if |ids| == 0 then []
    else
      var init := Links(ids[..|ids| - 1], ss);
      match FindById(ss, ids[|ids| - 1])
      case None => init
      case Some(s) => init + [Link(s.name, s.id)]
  }

  /** A chip names a known participant, by the first stakeholder carrying that id. */
  lemma {:induction false} LinksMeaning(ids: seq<string>, ss: seq<Stakeholder>, l: Link)
    ensures l in Links(ids, ss) <==> exists id :: id in ids && FindById(ss, id).Some? && l == Link(FindById(ss, id).value.name, id)
  {
    if |ids| > 0 {
      var init := ids[..|ids| - 1];
      var last := ids[|ids| - 1];
      LinksMeaning(init, ss, l);
      assert ids == init + [last];
      var found := FindById(ss, last);
      if found.Some? {
        assert Links(ids, ss) == Links(init, ss) + [Link(found.value.name, last)];
        if l == Link(found.value.name, last) {
          assert last in ids;
        }
      } else {
        assert Links(ids, ss) == Links(init, ss);
      }
    }
  }

  /** When every id is known, there is one chip per id. */
  lemma {:induction false} LinksAllKnown(ids: seq<string>, ss: seq<Stakeholder>)
    requires forall k :: 0 <= k < |ids| ==> ids[k] in Ids(ss)
    ensures |Links(ids, ss)| == |ids|
  {
    if |ids| > 0 {
      var init := ids[..|ids| - 1];
      assert forall k :: 0 <= k < |init| ==> init[k] == ids[k];
      LinksAllKnown(init, ss);
      assert ids[|ids| - 1] in Ids(ss);
      var found := FindById(ss, ids[|ids| - 1]);
      assert found.Some?;
      assert Links(ids, ss) == Links(init, ss) + [Link(found.value.name, found.value.id)];
    }
  }

  // ---------------------------------------------------------------- the page

  /** The body of the POST the form sends. */
  datatype Request = Request(date: Day, stakeholderIds: seq<string>, kind: ActivityType, summary: string)

  class Page {
    var activities: seq<Activity>
    var stakeholders: seq<Stakeholder>
    var showForm: bool
    var filterStakeholder: string
    var filterType: string
    var formDate: Day
    var formStakeholders: seq<string>
    var formType: ActivityType
    var formSummary: string

    /** The page before loading: the form dated today, a Meeting with nobody and no text. */
    constructor (today: Day)
      ensures activities == [] && stakeholders == [] && !showForm
      ensures filterStakeholder == "" && filterType == ""
      ensures formDate == today && formStakeholders == [] && formType == Meeting && formSummary == ""
    {
      activities := [];
      stakeholders := [];
      showForm := false;
      filterStakeholder := "";
      filterType := "";
      formDate := today;
      formStakeholders := [];
      formType := Meeting;
      formSummary := "";
    }

    /** The form may be sent only with a participant and a summary that is not blank. */
    predicate CanSubmit()
      reads this
    {
      |formStakeholders| > 0 && Trim(formSummary) != ""
    }

    /** handleAdd. An invalid form sends nothing and changes nothing. A valid one sends the
        form as it is (the summary untrimmed), appends the route's answer, closes the form
        and clears it except for the date. */
    method HandleAdd(created: Activity) returns (sent: Option<Request>)
      modifies this
      ensures !old(CanSubmit()) ==> sent.None? && unchanged(this)
      ensures old(CanSubmit()) ==>
        && sent == Some(Request(old(formDate), old(formStakeholders), old(formType), old(formSummary)))
        && activities == old(activities) + [created]
        && !showForm && formStakeholders == [] && formSummary == "" && formType == Meeting
        && formDate == old(formDate) && stakeholders == old(stakeholders)
        && filterStakeholder == old(filterStakeholder) && filterType == old(filterType)
    {
      if |formStakeholders| == 0 || Trim(formSummary) == "" {
        return None;
      }
      sent := Some(Request(formDate, formStakeholders, formType, formSummary));
      activities := activities + [created];
      showForm := false;
      formStakeholders := [];
      formSummary := "";
      formType := Meeting;
    }
  }
}
