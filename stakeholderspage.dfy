/** app/stakeholders/page.tsx: the stakeholder list, its filters and the add handler. The
    POST to /api/stakeholders is a parameter: the record the route answers with. */
module StakeholdersPage {
  import opened Text
  import opened Domain

  /** The five filter fields; an empty string switches a filter off. Role, relationship and
      priority hold the display names the select boxes offer. */
  datatype Filters = Filters(search: string, team: string, role: string, relationship: string, priority: string)

  const NO_FILTERS: Filters := Filters("", "", "", "", "")

  /** A case-insensitive substring search on the name or the title. */
  predicate SearchHit(s: Stakeholder, search: string) {
    Contains(Lower(s.name), Lower(search)) || Contains(Lower(s.title), Lower(search))
  }

  /** The predicate handed to `stakeholders.filter`. */
  predicate Passes(s: Stakeholder, f: Filters) {
    (f.search == "" || SearchHit(s, f.search))
    && (f.team == "" || s.team == f.team)
    && (f.role == "" || RoleName(s.role) == f.role)
    && (f.relationship == "" || StrengthName(s.relationshipStrength) == f.relationship)
    && (f.priority == "" || PriorityName(s.priority) == f.priority)
  }

  /** The visible list. */
  function Filtered(ss: seq<Stakeholder>, f: Filters): (r: seq<Stakeholder>)
    ensures |r| <= |ss|
  {
    if |ss| == 0 then []
    else
      var init := Filtered(ss[..|ss| - 1], f);
      if Passes(ss[|ss| - 1], f) then init + [ss[|ss| - 1]] else init
  }

  class Page {
    var stakeholders: seq<Stakeholder>
    var showForm: bool
    var filters: Filters

    /** The page before the list has loaded. */
    constructor ()
      ensures stakeholders == [] && !showForm && filters == NO_FILTERS
    {
      stakeholders := [];
      showForm := false;
      filters := NO_FILTERS;
    }

    /** The list as shown. */
    function Shown(): seq<Stakeholder>
      reads this
    {
      Filtered(stakeholders, filters)
    }

    /** handleAdd: the created record goes to the end of the list and the form closes. */
    method HandleAdd(created: Stakeholder)
      modifies this
      ensures stakeholders == old(stakeholders) + [created]
      ensures !showForm && filters == old(filters)
      ensures Shown() == old(Shown()) + (if Passes(created, filters) then [created] else [])
    {
      stakeholders := stakeholders + [created];
      showForm := false;
      assert stakeholders[..|stakeholders| - 1] == old(stakeholders);
    }
  }

  // ---------------------------------------------------------------- properties

  /** A record is shown exactly when it is in the list and passes every filter. */
  lemma {:induction false} FilteredMembers(ss: seq<Stakeholder>, f: Filters, s: Stakeholder)
    ensures s in Filtered(ss, f) <==> s in ss && Passes(s, f)
  {
    if |ss| > 0 {
      var init := ss[..|ss| - 1];
      FilteredMembers(init, f, s);
      assert ss == init + [ss[|ss| - 1]];
    }
  }

  /** Filtering keeps order: filtering a concatenation concatenates the filtered parts. */
  lemma {:induction false} FilteredAppend(a: seq<Stakeholder>, b: seq<Stakeholder>, f: Filters)
    ensures Filtered(a + b, f) == Filtered(a, f) + Filtered(b, f)
    decreases |b|
  {
    if |b| == 0 {
      assert a + b == a;
    } else {
      var b' := b[..|b| - 1];
      FilteredAppend(a, b', f);
      assert (a + b)[..|a + b| - 1] == a + b';
    }
  }

  /** With every filter off the whole list is shown, in order. */
  lemma {:induction false} NoFiltersKeepAll(ss: seq<Stakeholder>)
    ensures Filtered(ss, NO_FILTERS) == ss
  {
    if |ss| > 0 {
      NoFiltersKeepAll(ss[..|ss| - 1]);
      assert ss == ss[..|ss| - 1] + [ss[|ss| - 1]];
    }
  }

  /** An empty search matches every name, and the search ignores the case of both sides. */
  lemma SearchIgnoresCase(s: Stakeholder, search: string)
    ensures SearchHit(s, search) == SearchHit(s, Lower(search))
    ensures SearchHit(s, "")
  {
    LowerIdempotent(search);
    assert Lower("") == "";
    ContainsEmpty(Lower(s.name));
  }

  /** Filtering twice with the same filters changes nothing more. */
  lemma {:induction false} FilteredIdempotent(ss: seq<Stakeholder>, f: Filters)
    ensures Filtered(Filtered(ss, f), f) == Filtered(ss, f)
  {
    if |ss| > 0 {
      var init := ss[..|ss| - 1];
      FilteredIdempotent(init, f);
      if Passes(ss[|ss| - 1], f) {
        FilteredAppend(Filtered(init, f), [ss[|ss| - 1]], f);
        assert Filtered([ss[|ss| - 1]], f) == [ss[|ss| - 1]] by {
          assert [ss[|ss| - 1]][..0] == [];
        }
      }
    }
  }

  /** Turning the team filter on can only hide records, and hides those of other teams. */
  lemma {:induction false} NarrowerTeam(ss: seq<Stakeholder>, f: Filters, team: string, s: Stakeholder)
    requires f.team == ""
    requires s in Filtered(ss, f.(team := team))
    ensures s in Filtered(ss, f) && s.team == (if team == "" then s.team else team)
  {
    FilteredMembers(ss, f.(team := team), s);
    FilteredMembers(ss, f, s);
  }
}
