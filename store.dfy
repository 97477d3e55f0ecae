/** lib/data.ts: the stakeholder and activity collections of one workspace and the
    operations that change them. Reading and writing the JSON files is left out: each
    collection is a sequence field that the operations reassign. */
module DataStore {
  import opened Wrappers
  import opened Text
  import opened Domain

  // ---------------------------------------------------------------- identifiers

  /** parseInt(id.replace(prefix, ""), 10): the numeric suffix of an identifier. */
  function IdNumber(id: string, prefix: char): Option<int> {
    ParseInt(RemoveFirst(id, prefix))
  }

  /** The reduce that scans for the largest numeric suffix, starting from 0; identifiers
      whose suffix does not parse (NaN) are skipped. */
  function MaxIdNumber(ids: seq<string>, prefix: char): (m: nat)
    ensures forall i :: 0 <= i < |ids| && IdNumber(ids[i], prefix).Some? ==>
              IdNumber(ids[i], prefix).value <= m
    ensures m == 0 || exists i :: 0 <= i < |ids| && IdNumber(ids[i], prefix) == Some(m)
  {
    if |ids| == 0 then 0
    else
      var m := MaxIdNumber(ids[..|ids| - 1], prefix);
      var n := IdNumber(ids[|ids| - 1], prefix);
      assert forall i :: 0 <= i < |ids| - 1 ==> ids[..|ids| - 1][i] == ids[i];
      if n.Some? && n.value > m then n.value else m
  }

  /** `${prefix}${maxId + 1}` */
  function NextId(ids: seq<string>, prefix: char): string {
    [prefix] + NatToString(MaxIdNumber(ids, prefix) + 1)
  }

  /** The issued identifier parses back to one more than every suffix in use, so no
      existing identifier equals it. */
  lemma NextIdFresh(ids: seq<string>, prefix: char)
    ensures IdNumber(NextId(ids, prefix), prefix) == Some(MaxIdNumber(ids, prefix) + 1)
    ensures forall i :: 0 <= i < |ids| && IdNumber(ids[i], prefix).Some? ==>
              IdNumber(ids[i], prefix).value < IdNumber(NextId(ids, prefix), prefix).value
    ensures NextId(ids, prefix) !in ids
  {
    var m := MaxIdNumber(ids, prefix);
    var digits := NatToString(m + 1);
    assert RemoveFirst([prefix] + digits, prefix) == digits;
    ParseIntNatToString(m + 1);
  }

  /** The first identifier of an empty collection is `s1`. */
  lemma FirstStakeholderId()
    ensures NextId([], 's') == "s1"
  {
    assert NatToString(1) == ['1'];
  }

  // ---------------------------------------------------------------- overlay update

  /** Partial<Stakeholder>: each field is either absent (None) or carries a new value. */
  datatype Patch = Patch(
    id: Option<string>,
    name: Option<string>,
    title: Option<string>,
    team: Option<string>,
    role: Option<Role>,
    priority: Option<Priority>,
    lastContactDate: Option<Option<Day>>,
    relationshipStrength: Option<Strength>,
    keyPriorities: Option<seq<string>>,
    notes: Option<string>,
    email: Option<string>,
    reportsTo: Option<Option<string>>)
  {
    /** Object.keys(updates).length > 0 */
    predicate HasFields() {
      id.Some? || name.Some? || title.Some? || team.Some? || role.Some? || priority.Some?
      || lastContactDate.Some? || relationshipStrength.Some? || keyPriorities.Some?
      || notes.Some? || email.Some? || reportsTo.Some?
    }
  }

  const NoChanges: Patch :=
    Patch(None, None, None, None, None, None, None, None, None, None, None, None)

  /** { ...s, ...updates, id }: the fields present in the patch win, and the identifier
      is forced back to `id`. */
  function Overlay(s: Stakeholder, p: Patch, id: string): Stakeholder {
    Stakeholder(
      id,
      p.name.GetOr(s.name),
      p.title.GetOr(s.title),
      p.team.GetOr(s.team),
      p.role.GetOr(s.role),
      p.priority.GetOr(s.priority),
      p.lastContactDate.GetOr(s.lastContactDate),
      p.relationshipStrength.GetOr(s.relationshipStrength),
      p.keyPriorities.GetOr(s.keyPriorities),
      p.notes.GetOr(s.notes),
      if p.email.Some? then p.email else s.email,
      p.reportsTo.GetOr(s.reportsTo))
  }

  /** The overlay keeps the record's identifier even when the patch carries another one,
      and a patch without fields leaves the record as it was. */
  lemma OverlayPinsId(s: Stakeholder, p: Patch)
    ensures Overlay(s, p, s.id).id == s.id
    ensures !p.HasFields() ==> Overlay(s, p, s.id) == s
  {
  }

  /** The records after updateStakeholder(id, p): the first record carrying the identifier
      is overlaid with the patch, and nothing changes when none does. */
  function UpdateById(ss: seq<Stakeholder>, id: string, p: Patch): (r: seq<Stakeholder>)
    ensures FirstIndex(ss, id).None? ==> r == ss
    ensures FirstIndex(ss, id).Some? ==>
              r == ss[FirstIndex(ss, id).value := Overlay(ss[FirstIndex(ss, id).value], p, id)]
  {
    if |ss| == 0 then []
    else if ss[0].id == id then [Overlay(ss[0], p, id)] + ss[1..]
    else [ss[0]] + UpdateById(ss[1..], id, p)
  }

  // ---------------------------------------------------------------- cascading delete

  /** stakeholders.filter((s) => s.id !== id) */
  function WithoutId(ss: seq<Stakeholder>, id: string): (r: seq<Stakeholder>)
    ensures |r| <= |ss|
    ensures |r| == |ss| <==> id !in Ids(ss)
    ensures forall s :: s in r <==> s in ss && s.id != id
  {
    if |ss| == 0 then []
    else
      assert Ids(ss) == [ss[0].id] + Ids(ss[1..]);
      if ss[0].id != id then [ss[0]] + WithoutId(ss[1..], id) else WithoutId(ss[1..], id)
  }

  /** stakeholderIds.filter((sid) => sid !== id) */
  function RemoveId(xs: seq<string>, id: string): (r: seq<string>)
    ensures id !in r
    ensures forall x :: x != id ==> multiset(r)[x] == multiset(xs)[x]
  {
    if |xs| == 0 then []
    else
      assert xs == [xs[0]] + xs[1..];
      if xs[0] == id then RemoveId(xs[1..], id) else [xs[0]] + RemoveId(xs[1..], id)
  }

  /** Removing an identifier that is not there changes nothing. */
  lemma {:induction false} RemoveIdAbsent(xs: seq<string>, id: string)
    requires id !in xs
    ensures RemoveId(xs, id) == xs
  {
    if |xs| > 0 { RemoveIdAbsent(xs[1..], id); }
  }

  /** Removal works element by element, so the surviving identifiers keep their order. */
  lemma {:induction false} RemoveIdAppend(xs: seq<string>, ys: seq<string>, id: string)
    ensures RemoveId(xs + ys, id) == RemoveId(xs, id) + RemoveId(ys, id)
  {
    if |xs| > 0 {
      assert (xs + ys)[1..] == xs[1..] + ys;
      RemoveIdAppend(xs[1..], ys, id);
    } else {
      assert xs + ys == ys;
    }
  }

  /** The activities after deleting stakeholder `id`: the id is dropped from every
      participant list and every activity left without participants is removed. */
  function Prune(acts: seq<Activity>, id: string): (r: seq<Activity>)
    ensures |r| <= |acts|
    ensures forall a :: a in r ==> id !in a.stakeholderIds && |a.stakeholderIds| > 0
    ensures forall a :: a in r ==> exists b :: b in acts && a == b.(stakeholderIds := RemoveId(b.stakeholderIds, id))
  {
    if |acts| == 0 then []
    else
      var a := acts[0].(stakeholderIds := RemoveId(acts[0].stakeholderIds, id));
      var rest := Prune(acts[1..], id);
      assert forall b :: b in acts[1..] ==> b in acts;
      if |a.stakeholderIds| > 0 then [a] + rest else rest
  }

  /** Every activity that still has another participant survives the cascade, with its
      remaining participants in their original order. */
  lemma {:induction false} PruneKeeps(acts: seq<Activity>, id: string, b: Activity)
    requires b in acts
    requires RemoveId(b.stakeholderIds, id) != []
    ensures b.(stakeholderIds := RemoveId(b.stakeholderIds, id)) in Prune(acts, id)
  {
    if acts[0] != b {
      PruneKeeps(acts[1..], id, b);
    }
  }

  /** An activity whose only participant is the deleted stakeholder disappears, and one
      shared with another stakeholder keeps that other participant. */
  lemma PruneScenario(a: Activity, id: string, other: string)
    requires other != id
    ensures Prune([a.(stakeholderIds := [id])], id) == []
    ensures Prune([a.(stakeholderIds := [id, other])], id) == [a.(stakeholderIds := [other])]
  {
    assert RemoveId([id], id) == [];
    assert [id, other][1..] == [other];
    assert RemoveId([other], id) == [other];
    assert RemoveId([id, other], id) == [other];
  }

  /** With identifiers handed out by NextId, adding a record and deleting it again lets
      the very same identifier be issued next: the maximum is recomputed, not stored. */
  lemma AddThenDeleteReissues(ss: seq<Stakeholder>, draft: Stakeholder)
    ensures var c := draft.(id := NextId(Ids(ss), 's'));
            WithoutId(ss + [c], c.id) == ss
            && NextId(Ids(WithoutId(ss + [c], c.id)), 's') == c.id
  {
    var c := draft.(id := NextId(Ids(ss), 's'));
    NextIdFresh(Ids(ss), 's');
    WithoutIdAbsentAppend(ss, c);
  }

  lemma {:induction false} WithoutIdAbsentAppend(ss: seq<Stakeholder>, c: Stakeholder)
    requires c.id !in Ids(ss)
    ensures WithoutId(ss + [c], c.id) == ss
  {
    if |ss| == 0 {
      assert ss + [c] == [c];
    } else {
      var t := ss + [c];
      var rest := ss[1..];
      assert t[0] == ss[0] && t[1..] == rest + [c];
      assert Ids(ss)[0] == ss[0].id;
      assert c.id !in Ids(rest) by {
        assert forall i :: 0 <= i < |rest| ==> Ids(rest)[i] == Ids(ss)[i + 1];
      }
      WithoutIdAbsentAppend(rest, c);
      assert WithoutId(t, c.id) == [ss[0]] + WithoutId(rest + [c], c.id);
      assert ss == [ss[0]] + rest;
    }
  }

  // ---------------------------------------------------------------- appended activities

  /** `after` is `before` followed by the drafts, each stored under an identifier that no
      earlier activity carries (addActivity replaces the draft's id). */
  predicate AppendedAs(before: seq<Activity>, after: seq<Activity>, drafts: seq<Activity>) {
    |after| == |before| + |drafts| && after[..|before|] == before
    && forall k :: 0 <= k < |drafts| ==>
         after[|before| + k] == drafts[k].(id := after[|before| + k].id)
         && after[|before| + k].id !in ActivityIds(after[..|before| + k])
  }

  lemma AppendedNothing(acts: seq<Activity>)
    ensures AppendedAs(acts, acts, [])
  {
  }

  /** One more addActivity extends the appended run by its draft. */
  lemma AppendedMore(before: seq<Activity>, after: seq<Activity>, drafts: seq<Activity>, draft: Activity)
    requires AppendedAs(before, after, drafts)
    ensures var c := draft.(id := NextId(ActivityIds(after), 'a'));
            AppendedAs(before, after + [c], drafts + [draft])
  {
    var c := draft.(id := NextId(ActivityIds(after), 'a'));
    NextIdFresh(ActivityIds(after), 'a');
    var after' := after + [c];
    assert after'[..|after|] == after;
    assert after'[..|before|] == before;
    forall k | 0 <= k < |drafts| + 1
      ensures after'[|before| + k] == (drafts + [draft])[k].(id := after'[|before| + k].id)
      ensures after'[|before| + k].id !in ActivityIds(after'[..|before| + k])
    {
      if k < |drafts| {
        assert after'[..|before| + k] == after[..|before| + k];
      }
    }
  }

  /** The activities after addActivity was called with each draft in turn: every draft
      is stored under the next `a<max + 1>` identifier. */
  function Appended(acts: seq<Activity>, drafts: seq<Activity>): seq<Activity>
    decreases |drafts|
  {
    if |drafts| == 0 then acts
    else
      var prev := Appended(acts, drafts[..|drafts| - 1]);
      prev + [drafts[|drafts| - 1].(id := NextId(ActivityIds(prev), 'a'))]
  }

  /** The run appends the drafts in order, each under an identifier no earlier activity
      carries. */
  lemma {:induction false} AppendedMeaning(acts: seq<Activity>, drafts: seq<Activity>)
    ensures AppendedAs(acts, Appended(acts, drafts), drafts)
    decreases |drafts|
  {
    if |drafts| == 0 {
      AppendedNothing(acts);
    } else {
      var init := drafts[..|drafts| - 1];
      var d := drafts[|drafts| - 1];
      var prev := Appended(acts, init);
      assert drafts == init + [d];
      assert Appended(acts, drafts) == prev + [d.(id := NextId(ActivityIds(prev), 'a'))];
      AppendedMeaning(acts, init);
      AppendedMore(acts, prev, init, d);
    }
  }

  /** One more addActivity after a run of them. */
  lemma AppendedSnoc(acts: seq<Activity>, drafts: seq<Activity>, d: Activity)
    ensures Appended(acts, drafts + [d])
            == Appended(acts, drafts) + [d.(id := NextId(ActivityIds(Appended(acts, drafts)), 'a'))]
  {
    assert (drafts + [d])[..|drafts|] == drafts;
  }

  /** Two runs of addActivity calls are one run over both lists of drafts. */
  lemma {:induction false} AppendedConcat(acts: seq<Activity>, d1: seq<Activity>, d2: seq<Activity>)
    ensures Appended(Appended(acts, d1), d2) == Appended(acts, d1 + d2)
    decreases |d2|
  {
    if |d2| == 0 {
      assert d1 + d2 == d1;
    } else {
      var init := d2[..|d2| - 1];
      var d := d2[|d2| - 1];
      var mid := Appended(acts, d1);
      assert d2 == init + [d];
      assert d1 + d2 == (d1 + init) + [d];
      AppendedConcat(acts, d1, init);
      AppendedSnoc(mid, init, d);
      AppendedSnoc(acts, d1 + init, d);
      assert Appended(mid, d2) == Appended(mid, init) + [d.(id := NextId(ActivityIds(Appended(mid, init)), 'a'))];
    }
  }

  /** Two appended runs in a row are one appended run. */
  lemma AppendedChain(a: seq<Activity>, b: seq<Activity>, c: seq<Activity>, d1: seq<Activity>, d2: seq<Activity>)
    requires AppendedAs(a, b, d1) && AppendedAs(b, c, d2)
    ensures AppendedAs(a, c, d1 + d2)
  {
    assert c[..|a|] == b[..|a|] by {
      assert c[..|b|] == b;
    }
    forall k | 0 <= k < |d1| + |d2|
      ensures c[|a| + k] == (d1 + d2)[k].(id := c[|a| + k].id)
      ensures c[|a| + k].id !in ActivityIds(c[..|a| + k])
    {
      if k < |d1| {
        assert c[|a| + k] == b[|a| + k];
        assert c[..|a| + k] == b[..|a| + k];
      } else {
        var k2 := k - |d1|;
        assert |a| + k == |b| + k2;
      }
    }
  }

  // ---------------------------------------------------------------- the store

  class Store {
    var stakeholders: seq<Stakeholder>
    var activities: seq<Activity>

    constructor (ss: seq<Stakeholder>, acts: seq<Activity>)
      ensures stakeholders == ss && activities == acts
    {
      stakeholders := ss;
      activities := acts;
    }

    /** addStakeholder: append the draft under identifier `s<max + 1>`. */
    method AddStakeholder(draft: Stakeholder) returns (created: Stakeholder)
      modifies this
      ensures created == draft.(id := NextId(Ids(old(stakeholders)), 's'))
      ensures created.id !in Ids(old(stakeholders))
      ensures stakeholders == old(stakeholders) + [created]
      ensures activities == old(activities)
    {
      var id := NextId(Ids(stakeholders), 's');
      NextIdFresh(Ids(stakeholders), 's');
      created := draft.(id := id);
      stakeholders := stakeholders + [created];
    }

    /** updateStakeholder: overlay the patch on the first record with this identifier;
        None, and no write, when there is none. */
    method UpdateStakeholder(id: string, updates: Patch) returns (r: Option<Stakeholder>)
      modifies this
      ensures FirstIndex(old(stakeholders), id).None? ==>
                r.None? && stakeholders == old(stakeholders)
      ensures FirstIndex(old(stakeholders), id).Some? ==>
                var k := FirstIndex(old(stakeholders), id).value;
                r == Some(Overlay(old(stakeholders)[k], updates, id))
                && stakeholders == old(stakeholders)[k := r.value]
      ensures stakeholders == UpdateById(old(stakeholders), id, updates)
      ensures activities == old(activities)
    {
      var index := FirstIndex(stakeholders, id);
      if index.None? {
        return None;
      }
      var updated := Overlay(stakeholders[index.value], updates, id);
      stakeholders := stakeholders[index.value := updated];
      r := Some(updated);
    }

    /** deleteStakeholder: false and no write for an unknown identifier; otherwise the
        stakeholder goes and the activities are pruned. */
    method DeleteStakeholder(id: string) returns (ok: bool)
      modifies this
      ensures ok <==> id in Ids(old(stakeholders))
      ensures ok ==> stakeholders == WithoutId(old(stakeholders), id)
                     && activities == Prune(old(activities), id)
      ensures !ok ==> stakeholders == old(stakeholders) && activities == old(activities)
    {
      var filtered := WithoutId(stakeholders, id);
      if |filtered| == |stakeholders| {
        return false;
      }
      stakeholders := filtered;
      activities := Prune(activities, id);
      ok := true;
    }

    /** addActivity: append the draft under identifier `a<max + 1>`. */
    method AddActivity(draft: Activity) returns (created: Activity)
      modifies this
      ensures created == draft.(id := NextId(ActivityIds(old(activities)), 'a'))
      ensures created.id !in ActivityIds(old(activities))
      ensures activities == old(activities) + [created]
      ensures activities == Appended(old(activities), [draft])
      ensures stakeholders == old(stakeholders)
    {
      var id := NextId(ActivityIds(activities), 'a');
      NextIdFresh(ActivityIds(activities), 'a');
      created := draft.(id := id);
      activities := activities + [created];
    }
  }
}
