/** components/Stakeholders/StakeholderForm.tsx: the add/edit form's initial field values
    and the record handleSubmit hands to onSave. */
module StakeholderForm {
  import opened Wrappers
  import opened Text
  import opened Domain
  import opened Utils

  /** The form's fields as the inputs hold them. The date input holds an ISO date or "";
      the tags are one comma-separated line. */
  datatype Form = Form(
    name: string,
    title: string,
    team: string,
    role: Role,
    priority: Priority,
    lastContactDate: string,
    relationshipStrength: Strength,
    keyPriorities: string,
    notes: string)

  /** What onSave receives: a stakeholder without an id (and without an email or a manager,
      which the form has no field for). */
  datatype Draft = Draft(
    name: string,
    title: string,
    team: string,
    role: Role,
    priority: Priority,
    lastContactDate: Option<string>,
    relationshipStrength: Strength,
    keyPriorities: seq<string>,
    notes: string)

  /** The separator the edit form shows the tags with. */
  const TAG_SEPARATOR: string := ", "

  /** The initial state: the edited stakeholder's values, or the defaults for a new one. */
  function Initial(existing: Option<Stakeholder>): Form {
    match existing
    case None => Form("", "", TEAMS[0], Influencer, P1, "", Unknown, "", "")
    case Some(s) =>
      Form(s.name, s.title, s.team, s.role, s.priority,
           if s.lastContactDate.Some? then IsoDate(s.lastContactDate.value) else "",
           s.relationshipStrength, Join(s.keyPriorities, TAG_SEPARATOR), s.notes)
  }

  // ---------------------------------------------------------------- tag normalisation

  /** `.map((p) => p.trim())` */
  function TrimAll(ps: seq<string>): (r: seq<string>)
    ensures |r| == |ps|
    ensures forall k :: 0 <= k < |ps| ==> r[k] == Trim(ps[k])
  {
    seq(|ps|, k requires 0 <= k < |ps| => Trim(ps[k]))
  }

  /** `.filter(Boolean)`: the empty strings dropped, order kept. */
  function NonEmpty(ps: seq<string>): (r: seq<string>)
    ensures |r| <= |ps|
  {
    if |ps| == 0 then []
    else
      var init := NonEmpty(ps[..|ps| - 1]);
      if ps[|ps| - 1] != "" then init + [ps[|ps| - 1]] else init
  }

  /** The tag line split on commas, each piece trimmed, the empty pieces dropped. */
  function Tags(line: string): seq<string> {
    NonEmpty(TrimAll(Split(line, ',')))
  }

  /** handleSubmit: the fields as they are, except that an empty date becomes null and the
      tag line becomes a list. */
  function Submit(f: Form): Draft {
    Draft(f.name, f.title, f.team, f.role, f.priority,
          if f.lastContactDate == "" then None else Some(f.lastContactDate),
          f.relationshipStrength, Tags(f.keyPriorities), f.notes)
  }

  /** A tag as the form produces it: not empty, no comma, no whitespace at either end. */
  predicate CleanTag(t: string) {
    |t| > 0 && !IsSpace(t[0]) && !IsSpace(t[|t| - 1]) && ',' !in t
  }

  // ---------------------------------------------------------------- properties

  lemma {:induction false} NonEmptyMembers(ps: seq<string>, t: string)
    ensures t in NonEmpty(ps) <==> t in ps && t != ""
  {
    if |ps| > 0 {
      var init := ps[..|ps| - 1];
      NonEmptyMembers(init, t);
      assert ps == init + [ps[|ps| - 1]];
    }
  }

  lemma {:induction false} NonEmptyKeepsAll(ps: seq<string>)
    requires forall k :: 0 <= k < |ps| ==> ps[k] != ""
    ensures NonEmpty(ps) == ps
  {
    if |ps| > 0 {
      var init := ps[..|ps| - 1];
      assert forall k :: 0 <= k < |init| ==> init[k] == ps[k];
      NonEmptyKeepsAll(init);
      assert ps == init + [ps[|ps| - 1]];
    }
  }

  /** Every tag the form submits is clean, whatever was typed. */
  lemma TagsClean(line: string)
    ensures forall t :: t in Tags(line) ==> CleanTag(t)
  {
    var pieces := Split(line, ',');
    var trimmed := TrimAll(pieces);
    forall t | t in Tags(line)
      ensures CleanTag(t)
    {
      NonEmptyMembers(trimmed, t);
      var k :| 0 <= k < |trimmed| && trimmed[k] == t;
      TrimNoEdgeSpace(pieces[k]);
      TrimKeepsOut(pieces[k], ',');
    }
  }

  /** Trimming adds no character. */
  lemma TrimKeepsOut(s: string, c: char)
    requires c !in s
    ensures c !in Trim(s)
  {
    var a := TrimStart(s);
    assert forall i :: 0 <= i < |a| ==> a[i] == s[|s| - |a| + i];
    var b := TrimEnd(a);
    assert forall i :: 0 <= i < |b| ==> b[i] == a[i];
  }

  /** One leading space is trimmed away from a clean tag. */
  lemma TrimSpaced(t: string)
    requires CleanTag(t)
    ensures Trim(" " + t) == t
  {
    assert (" " + t)[1..] == t;
    assert TrimStart(" " + t) == TrimStart(t);
    TrimStartFixed(t);
    TrimEndFixed(t);
  }

  /** The pieces a join with ", " splits into on ',': the first tag, then each later tag
      behind its space. */
  function Spaced(tags: seq<string>): (r: seq<string>)
    ensures |r| == |tags|
    ensures |tags| > 0 ==> r[0] == tags[0]
    ensures forall k :: 0 < k < |tags| ==> r[k] == " " + tags[k]
  {
    if |tags| == 0 then [] else [tags[0]] + seq(|tags| - 1, i requires 0 <= i < |tags| - 1 => " " + tags[i + 1])
  }

  lemma JoinSpaceStep(a: string, rest: seq<string>)
    ensures Join([" " + a] + rest, ",") == " " + Join([a] + rest, ",")
  {
    if |rest| > 0 {
      assert ([" " + a] + rest)[1..] == rest;
      assert ([a] + rest)[1..] == rest;
    }
  }

  /** Joining with ", " is joining the spaced pieces with ",". */
  lemma {:induction false} JoinSpaced(tags: seq<string>)
    requires |tags| > 0
    ensures Join(tags, TAG_SEPARATOR) == Join(Spaced(tags), ",")
    decreases |tags|
  {
    if |tags| > 1 {
      var rest := tags[1..];
      JoinSpaced(rest);
      var sp := Spaced(tags);
      var spRest := Spaced(rest);
      assert sp[1..] == [" " + rest[0]] + spRest[1..];
      assert spRest == [rest[0]] + spRest[1..];
      JoinSpaceStep(rest[0], spRest[1..]);
      calc {
        Join(tags, TAG_SEPARATOR);
        tags[0] + ", " + Join(rest, TAG_SEPARATOR);
        tags[0] + ", " + Join(spRest, ",");
        tags[0] + "," + (" " + Join(spRest, ","));
        tags[0] + "," + Join(sp[1..], ",");
        Join(sp, ",");
      }
    }
  }

  lemma SpacedNoComma(tags: seq<string>)
    requires forall k :: 0 <= k < |tags| ==> CleanTag(tags[k])
    ensures forall k :: 0 <= k < |Spaced(tags)| ==> ',' !in Spaced(tags)[k]
  {
    var sp := Spaced(tags);
    forall k | 0 <= k < |sp| ensures ',' !in sp[k] {
      if k > 0 {
        assert sp[k] == " " + tags[k];
      }
    }
  }

  /** Trimming the spaced pieces gives the tags back. */
  lemma TrimAllSpaced(tags: seq<string>)
    requires forall k :: 0 <= k < |tags| ==> CleanTag(tags[k])
    ensures TrimAll(Spaced(tags)) == tags
  {
    var sp := Spaced(tags);
    var t := TrimAll(sp);
    forall k | 0 <= k < |t| ensures t[k] == tags[k] {
      TrimPiece(tags, k);
    }
  }

  lemma TrimPiece(tags: seq<string>, k: nat)
    requires k < |tags| && CleanTag(tags[k])
    ensures Trim(Spaced(tags)[k]) == tags[k]
  {
    if k == 0 {
      TrimStartFixed(tags[0]);
      TrimEndFixed(tags[0]);
    } else {
      TrimSpaced(tags[k]);
    }
  }

  /** The edit form shows a stakeholder's clean tags as one line, and submitting that line
      gives the same tags back, in order. */
  lemma TagsRoundTrip(tags: seq<string>)
    requires forall k :: 0 <= k < |tags| ==> CleanTag(tags[k])
    ensures Tags(Join(tags, TAG_SEPARATOR)) == tags
  {
    if |tags| == 0 {
      assert Split("", ',') == [""];
      assert TrimAll([""]) == [""];
      assert NonEmpty([""]) == [];
    } else {
      JoinSpaced(tags);
      SpacedNoComma(tags);
      SplitJoin(Spaced(tags), ',');
      TrimAllSpaced(tags);
      NonEmptyKeepsAll(tags);
    }
  }

  /** Opening the edit form on what was just saved and saving again changes no tag. */
  lemma TagsStable(line: string)
    ensures Tags(Join(Tags(line), TAG_SEPARATOR)) == Tags(line)
  {
    TagsClean(line);
    TagsRoundTrip(Tags(line));
  }

  /** A new stakeholder starts in the first team as an Influencer, P1, Unknown, never
      contacted and without tags. */
  lemma NewFormDefaults()
    ensures Submit(Initial(None)) == Draft("", "", "Engineering Infrastructure", Influencer, P1, None, Unknown, [], "")
  {
    assert Split("", ',') == [""];
    assert TrimAll([""]) == [""];
    assert NonEmpty([""]) == [];
  }

  /** Editing a stakeholder with clean tags and saving without a change gives back every
      field the form shows, the contact date as its ISO text. */
  lemma EditUnchanged(s: Stakeholder)
    requires forall k :: 0 <= k < |s.keyPriorities| ==> CleanTag(s.keyPriorities[k])
    ensures var d := Submit(Initial(Some(s)));
      && d.name == s.name && d.title == s.title && d.team == s.team && d.role == s.role
      && d.priority == s.priority && d.relationshipStrength == s.relationshipStrength
      && d.keyPriorities == s.keyPriorities && d.notes == s.notes
      && (s.lastContactDate.None? <==> d.lastContactDate.None?)
  {
    TagsRoundTrip(s.keyPriorities);
  }
}
