/** components/Dashboard/RecentActivity.tsx: the eight newest activities with the names of
    their participants. */
module RecentActivity {
  import opened Wrappers
  import opened Text
  import opened Domain
  import opened Sorting

  /** The number of activities the card lists. */
  const SHOWN: nat := 8

  /** A sorted copy of the list (the prop itself is left alone), cut to the first eight. */
  function Recent(acts: seq<Activity>): seq<Activity> {
    var sorted := SortDesc(acts, DateKey);
    SortDescLength(acts, DateKey);
    if |sorted| <= SHOWN then sorted else sorted[..SHOWN]
  }

  /** `find(...)?.name ?? "Unknown"` for one participant id. */
  function NameOf(ss: seq<Stakeholder>, id: string): string {
    match FindById(ss, id)
    case Some(s) => s.name
    case None => "Unknown"
  }

  /** The names of the participants, one per id, in the activity's order. */
  function NameList(ss: seq<Stakeholder>, ids: seq<string>): (r: seq<string>)
    ensures |r| == |ids|
  {
    if |ids| == 0 then [] else NameList(ss, ids[..|ids| - 1]) + [NameOf(ss, ids[|ids| - 1])]
  }

  /** The participant line of one activity. */
  function Names(ss: seq<Stakeholder>, a: Activity): string {
    Join(NameList(ss, a.stakeholderIds), ", ")
  }

  // ---------------------------------------------------------------- properties

  /** The card shows min(8, n) activities, newest first, each one from the list, and no
      activity left out is newer than the last one shown. */
  lemma RecentMeaning(acts: seq<Activity>)
    ensures |Recent(acts)| == if |acts| <= SHOWN then |acts| else SHOWN
    ensures NewestFirst(Recent(acts))
    ensures forall a :: a in Recent(acts) ==> a in acts
    ensures forall a :: a in acts ==> a in Recent(acts) || a.date <= Recent(acts)[|Recent(acts)| - 1].date
  {
    var sorted := SortDesc(acts, DateKey);
    SortDescSorted(acts, DateKey);
    SortDescElements(acts, DateKey);
    var r := Recent(acts);
    assert forall i :: 0 <= i < |r| ==> r[i] == sorted[i];
    assert NewestFirst(r) by {
      forall i, j | 0 <= i < j < |r| ensures r[i].date >= r[j].date {
        assert DateKey(sorted[i]) >= DateKey(sorted[j]);
      }
    }
    forall a | a in acts
      ensures a in r || a.date <= r[|r| - 1].date
    {
      var j :| 0 <= j < |sorted| && sorted[j] == a;
      if j >= |r| {
        assert DateKey(sorted[|r| - 1]) >= DateKey(sorted[j]);
      } else {
        assert r[j] == a;
      }
    }
  }

  /** One id shows the name of the first stakeholder carrying it, or "Unknown". */
  lemma NameOfMeaning(ss: seq<Stakeholder>, id: string)
    ensures id !in Ids(ss) ==> NameOf(ss, id) == "Unknown"
    ensures id in Ids(ss) ==> FirstIndex(ss, id).Some? && NameOf(ss, id) == ss[FirstIndex(ss, id).value].name
  {
    FindIsFirst(ss, id);
  }

  lemma {:induction false} NameListAt(ss: seq<Stakeholder>, ids: seq<string>)
    ensures forall k :: 0 <= k < |ids| ==> NameList(ss, ids)[k] == NameOf(ss, ids[k])
  {
    if |ids| > 0 {
      var init := ids[..|ids| - 1];
      NameListAt(ss, init);
      assert forall k :: 0 <= k < |init| ==> ids[k] == init[k];
    }
  }

  /** Each participant shows the name of the first stakeholder with their id, and an id
      no stakeholder carries shows "Unknown". */
  lemma NameListMeaning(ss: seq<Stakeholder>, ids: seq<string>)
    ensures forall k :: 0 <= k < |ids| && ids[k] !in Ids(ss) ==> NameList(ss, ids)[k] == "Unknown"
    ensures forall k :: 0 <= k < |ids| && ids[k] in Ids(ss) ==>
              FirstIndex(ss, ids[k]).Some? && NameList(ss, ids)[k] == ss[FirstIndex(ss, ids[k]).value].name
  {
    NameListAt(ss, ids);
    forall k | 0 <= k < |ids|
      ensures NameOf(ss, ids[k]) == if ids[k] in Ids(ss) then ss[FirstIndex(ss, ids[k]).value].name else "Unknown"
    {
      NameOfMeaning(ss, ids[k]);
    }
  }

  /** A single participant shows as their name alone; no participants show as nothing. */
  lemma NamesOfOneOrNone(ss: seq<Stakeholder>, a: Activity)
    ensures |a.stakeholderIds| == 1 ==> Names(ss, a) == NameOf(ss, a.stakeholderIds[0])
    ensures |a.stakeholderIds| == 0 ==> Names(ss, a) == ""
  {
    if |a.stakeholderIds| == 1 {
      assert NameList(ss, a.stakeholderIds) == NameList(ss, []) + [NameOf(ss, a.stakeholderIds[0])];
    }
  }
}
