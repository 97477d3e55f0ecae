/** app/api/workspaces/route.ts, POST: validate the company name, derive the workspace id
    from it (a slug) and fill in the defaults. addWorkspace in lib/data.ts is not part of
    this model; it is a parameter that either stores the workspace or reports why not. */
module Workspaces {
  import opened Wrappers
  import opened Text

  /** The optional fields of the request body. */
  datatype Body = Body(
    name: Option<string>,
    description: Option<string>,
    dealContext: Option<string>,
    dealSummary: Option<string>,
    renewalInfo: Option<string>,
    teams: Option<seq<string>>,
    color: Option<string>)

  datatype Workspace = Workspace(
    id: string,
    name: string,
    description: string,
    dealContext: string,
    dealSummary: string,
    renewalInfo: string,
    teams: seq<string>,
    color: string)

  /** A JSON reply: the created workspace (201) or an error message with its status. */
  datatype Reply = Created(workspace: Workspace) | Failed(status: nat, message: string)

  const DEFAULT_COLOR: string := "emerald"

  // ---------------------------------------------------------------- the slug

  /** Drops the leading characters outside [a-z0-9]. */
  function SkipRun(s: string): (r: string)
    ensures |r| <= |s|
    ensures |r| > 0 ==> IsLowerAlnum(r[0])
    ensures forall i :: 0 <= i < |s| - |r| ==> !IsLowerAlnum(s[i])
    ensures r == s[|s| - |r|..]
  {
    if |s| > 0 && !IsLowerAlnum(s[0]) then
      var t := s[1..];
      var r := SkipRun(t);
      assert t[|t| - |r|..] == s[|s| - |r|..];
      assert forall i :: 1 <= i < |s| - |r| ==> s[i] == t[i - 1];
      r
    else s
  }

  /** .replace(/[^a-z0-9]+/g, "-"): every maximal run outside [a-z0-9] becomes one '-'. */
  function Collapse(s: string): (r: string)
    ensures |s| > 0 && IsLowerAlnum(s[0]) ==> |r| > 0 && r[0] == s[0]
    ensures |s| > 0 && !IsLowerAlnum(s[0]) ==> |r| > 0 && r[0] == '-'
    ensures |s| == 0 ==> r == ""
    decreases |s|
  {
    if |s| == 0 then ""
    else if IsLowerAlnum(s[0]) then [s[0]] + Collapse(s[1..])
    else "-" + Collapse(SkipRun(s[1..]))
  }

  /** .replace(/^-|-$/g, ""): one leading and one trailing '-' removed. */
  function StripEdges(s: string): (r: string)
    ensures |r| <= |s| <= |r| + 2
    ensures |s| > 0 && s[0] == '-' ==> |r| < |s| && r == s[1..|r| + 1]
    ensures (|s| == 0 || s[0] != '-') ==> r == s[..|r|]
    ensures (|s| == 0 || (s[0] != '-' && s[|s| - 1] != '-')) ==> r == s
  {
    var t := if |s| > 0 && s[0] == '-' then s[1..] else s;
    if |t| > 0 && t[|t| - 1] == '-' then t[..|t| - 1] else t
  }

  /** The id of a workspace: lower-cased, trimmed, runs collapsed, edge hyphens removed.
      Every slug has the slug shape, and is empty exactly when the lower-cased name holds
      no ASCII letter or digit. */
  function Slug(name: string): (r: string)
    ensures IsSlug(r)
    ensures r == "" <==> !HasAlnum(Lower(name))
  {
    var low := Lower(name);
    var trimmed := Trim(low);
    CollapseShape(trimmed);
    StripEdgesShape(Collapse(trimmed));
    TrimKeepsAlnum(low);
    StripEdges(Collapse(trimmed))
  }

  predicate SlugChar(c: char) {
    IsLowerAlnum(c) || c == '-'
  }

  predicate NoDoubleHyphen(s: string) {
    forall i :: 0 <= i < |s| - 1 ==> !(s[i] == '-' && s[i + 1] == '-')
  }

  /** The shape of every slug. */
  predicate IsSlug(s: string) {
    (forall i :: 0 <= i < |s| ==> SlugChar(s[i]))
    && NoDoubleHyphen(s)
    && (|s| > 0 ==> s[0] != '-' && s[|s| - 1] != '-')
  }

  predicate HasAlnum(s: string) {
    exists i :: 0 <= i < |s| && IsLowerAlnum(s[i])
  }

  // ---------------------------------------------------------------- the handler

  /** `body.x?.trim() || ""` */
  function TrimOrEmpty(x: Option<string>): string {
    if x.Some? then Trim(x.value) else ""
  }

  /** POST /api/workspaces. `rejects` stands for addWorkspace: None when it stores the
      workspace it is handed (and returns it), Some(message) when it throws. */
  function HandlePost(body: Body, rejects: Workspace -> Option<string>): (r: Reply)
    ensures body.name.None? || Trim(body.name.value) == "" ==> r == Failed(400, "Company name is required")
    ensures (body.name.Some? && Trim(body.name.value) != "" && !HasAlnum(Lower(body.name.value)))
              ==> r == Failed(400, "Invalid company name")
    ensures r.Created? ==> body.name.Some? && HasAlnum(Lower(body.name.value))
    ensures r.Created? ==> IsSlug(r.workspace.id) && r.workspace.id == Slug(body.name.value)
    ensures r.Created? ==> r.workspace.name == Trim(body.name.value) && r.workspace.name != ""
    ensures r.Created? ==> rejects(r.workspace).None?
    ensures (r.Failed? && r.status == 409)
              ==> body.name.Some? && rejects(NewWorkspace(Slug(body.name.value), body)) == Some(r.message)
    ensures r.Failed? ==> r.status == 400 || r.status == 409
    ensures (body.name.Some? && Trim(body.name.value) != "" && HasAlnum(Lower(body.name.value))) ==>
              r == Store(NewWorkspace(Slug(body.name.value), body), rejects)
  {
    if body.name.None? || Trim(body.name.value) == "" then
      Failed(400, "Company name is required")
    else
      var id := Slug(body.name.value);
      if id == "" then Failed(400, "Invalid company name")
      else
        Store(NewWorkspace(id, body), rejects)
  }

  /** addWorkspace and its catch: 201 with the workspace it stored, or 409 with the
      message it threw. */
  function Store(w: Workspace, rejects: Workspace -> Option<string>): (r: Reply)
    ensures r.Created? <==> rejects(w).None?
    ensures r.Created? ==> r.workspace == w
    ensures r.Failed? ==> r.status == 409 && rejects(w) == Some(r.message)
  {
    match rejects(w)
    case None => Created(w)
    case Some(message) => Failed(409, message)
  }

  /** The workspace POST builds before handing it to addWorkspace. */
  function NewWorkspace(id: string, body: Body): (w: Workspace)
    requires body.name.Some?
    ensures w.id == id && w.name == Trim(body.name.value)
    ensures w.color != ""
    ensures body.teams.None? ==> w.teams == []
    ensures body.teams.Some? ==> w.teams == body.teams.value
    ensures body.description.None? ==> w.description == ""
    ensures body.description.Some? ==> w.description == Trim(body.description.value)
    ensures body.dealContext.None? ==> w.dealContext == ""
    ensures body.dealContext.Some? ==> w.dealContext == Trim(body.dealContext.value)
    ensures body.dealSummary.None? ==> w.dealSummary == ""
    ensures body.dealSummary.Some? ==> w.dealSummary == Trim(body.dealSummary.value)
    ensures body.renewalInfo.None? ==> w.renewalInfo == ""
    ensures body.renewalInfo.Some? ==> w.renewalInfo == Trim(body.renewalInfo.value)
    ensures (body.color.None? || body.color.value == "") ==> w.color == "emerald"
    ensures body.color.Some? && body.color.value != "" ==> w.color == body.color.value
    ensures (body.description.None? && body.dealContext.None? && body.dealSummary.None?
              && body.renewalInfo.None? && body.teams.None? && body.color.None?)
              ==> w == Workspace(id, Trim(body.name.value), "", "", "", "", [], "emerald")
  {
    Workspace(id, Trim(body.name.value), TrimOrEmpty(body.description), TrimOrEmpty(body.dealContext),
              TrimOrEmpty(body.dealSummary), TrimOrEmpty(body.renewalInfo),
              if body.teams.Some? then body.teams.value else [],
              if body.color.Some? && body.color.value != "" then body.color.value else DEFAULT_COLOR)
  }

  // ---------------------------------------------------------------- slug properties

  /** Collapsing gives only [a-z0-9-] characters, never two hyphens in a row, and keeps the
      letters and digits. */
  lemma {:induction false} CollapseShape(s: string)
    ensures forall i :: 0 <= i < |Collapse(s)| ==> SlugChar(Collapse(s)[i])
    ensures NoDoubleHyphen(Collapse(s))
    ensures HasAlnum(Collapse(s)) <==> HasAlnum(s)
    decreases |s|
  {
    if |s| > 0 {
      if IsLowerAlnum(s[0]) {
        var rest := Collapse(s[1..]);
        CollapseShape(s[1..]);
        assert Collapse(s) == [s[0]] + rest;
        ConsShape(s[0], rest);
      } else {
        var skipped := SkipRun(s[1..]);
        var rest := Collapse(skipped);
        CollapseShape(skipped);
        assert Collapse(s) == "-" + rest;
        assert |rest| > 0 ==> IsLowerAlnum(rest[0]);
        ConsShape('-', rest);
        SkipRunAlnum(s);
      }
    }
  }

  /** A letter or digit, or a hyphen before a letter or digit, in front of a slug-like
      string keeps it slug-like. */
  lemma ConsShape(c: char, rest: string)
    requires SlugChar(c)
    requires forall i :: 0 <= i < |rest| ==> SlugChar(rest[i])
    requires NoDoubleHyphen(rest)
    requires c == '-' && |rest| > 0 ==> IsLowerAlnum(rest[0])
    ensures forall i :: 0 <= i < |[c] + rest| ==> SlugChar(([c] + rest)[i])
    ensures NoDoubleHyphen([c] + rest)
    ensures HasAlnum([c] + rest) <==> IsLowerAlnum(c) || HasAlnum(rest)
  {
    var r := [c] + rest;
    assert forall i :: 1 <= i < |r| ==> r[i] == rest[i - 1];
    if HasAlnum(r) && !IsLowerAlnum(c) {
      var i :| 0 <= i < |r| && IsLowerAlnum(r[i]);
      assert IsLowerAlnum(rest[i - 1]);
    }
    if HasAlnum(rest) {
      var i :| 0 <= i < |rest| && IsLowerAlnum(rest[i]);
      assert IsLowerAlnum(r[i + 1]);
    }
    if IsLowerAlnum(c) {
      assert IsLowerAlnum(r[0]);
    }
  }

  /** The skipped run holds no letter or digit. */
  lemma SkipRunAlnum(s: string)
    requires |s| > 0 && !IsLowerAlnum(s[0])
    ensures HasAlnum(s) <==> HasAlnum(SkipRun(s[1..]))
  {
    HasAlnumTail(s);
    SkipRunHas(s[1..]);
  }

  lemma {:induction false} SkipRunHas(t: string)
    ensures HasAlnum(t) <==> HasAlnum(SkipRun(t))
    decreases |t|
  {
    if |t| > 0 && !IsLowerAlnum(t[0]) {
      HasAlnumTail(t);
      SkipRunHas(t[1..]);
    }
  }

  lemma HasAlnumTail(s: string)
    requires |s| > 0 && !IsLowerAlnum(s[0])
    ensures HasAlnum(s) <==> HasAlnum(s[1..])
  {
    var t := s[1..];
    if HasAlnum(s) {
      var i :| 0 <= i < |s| && IsLowerAlnum(s[i]);
      assert t[i - 1] == s[i];
    }
    if HasAlnum(t) {
      var i :| 0 <= i < |t| && IsLowerAlnum(t[i]);
      assert s[i + 1] == t[i];
    }
  }

  /** Removing the edge hyphens of a collapsed string leaves a slug, empty exactly when
      there was no letter or digit. */
  lemma StripEdgesShape(c: string)
    requires forall i :: 0 <= i < |c| ==> SlugChar(c[i])
    requires NoDoubleHyphen(c)
    ensures IsSlug(StripEdges(c))
    ensures StripEdges(c) == "" <==> !HasAlnum(c)
  {
    var t := if |c| > 0 && c[0] == '-' then c[1..] else c;
    DropLeadingHyphen(c);
    DropTrailingHyphen(t);
  }

  /** Dropping a leading hyphen keeps the slug characters and the letters and digits. */
  lemma DropLeadingHyphen(c: string)
    requires forall i :: 0 <= i < |c| ==> SlugChar(c[i])
    requires NoDoubleHyphen(c)
    ensures var t := if |c| > 0 && c[0] == '-' then c[1..] else c;
      (forall i :: 0 <= i < |t| ==> SlugChar(t[i])) && NoDoubleHyphen(t)
      && (|t| > 0 ==> t[0] != '-') && (HasAlnum(t) <==> HasAlnum(c))
  {
    if |c| > 0 && c[0] == '-' {
      var t := c[1..];
      if |t| > 0 { assert c[0] == '-' && c[1] == t[0]; }
      if HasAlnum(c) {
        var i :| 0 <= i < |c| && IsLowerAlnum(c[i]);
        assert t[i - 1] == c[i];
      }
      if HasAlnum(t) {
        var i :| 0 <= i < |t| && IsLowerAlnum(t[i]);
        assert c[i + 1] == t[i];
      }
    }
  }

  /** Dropping a trailing hyphen from a word that starts with no hyphen gives a slug. */
  lemma DropTrailingHyphen(t: string)
    requires forall i :: 0 <= i < |t| ==> SlugChar(t[i])
    requires NoDoubleHyphen(t)
    requires |t| > 0 ==> t[0] != '-'
    ensures var r := if |t| > 0 && t[|t| - 1] == '-' then t[..|t| - 1] else t;
      IsSlug(r) && (r == "" <==> !HasAlnum(t))
  {
    if |t| > 0 && t[|t| - 1] == '-' {
      var r := t[..|t| - 1];
      assert forall i :: 0 <= i < |r| ==> r[i] == t[i];
      if HasAlnum(t) {
        var i :| 0 <= i < |t| && IsLowerAlnum(t[i]);
        assert r[i] == t[i];
      }
    }
  }

  /** Trimming removes only whitespace, so no letter or digit is lost. */
  lemma TrimKeepsAlnum(s: string)
    ensures HasAlnum(Trim(s)) <==> HasAlnum(s)
  {
    TrimStartKeepsAlnum(s);
    TrimEndKeepsAlnum(TrimStart(s));
  }

  lemma TrimStartKeepsAlnum(s: string)
    ensures HasAlnum(TrimStart(s)) <==> HasAlnum(s)
  {
    if HasAlnum(s) {
      TrimStartFindsAlnum(s);
    }
    if HasAlnum(TrimStart(s)) {
      var a := TrimStart(s);
      var i :| 0 <= i < |a| && IsLowerAlnum(a[i]);
      assert a[i] == s[i + |s| - |a|];
    }
  }

  lemma TrimStartFindsAlnum(s: string)
    requires HasAlnum(s)
    ensures HasAlnum(TrimStart(s))
  {
    var a := TrimStart(s);
    var off := |s| - |a|;
    var i :| 0 <= i < |s| && IsLowerAlnum(s[i]);
    TrimStartDropsSpaces(s);
    NotSpaceInside(s, off, |s|, i);
    assert a[i - off] == s[i];
  }

  lemma TrimEndKeepsAlnum(a: string)
    ensures HasAlnum(TrimEnd(a)) <==> HasAlnum(a)
  {
    var b := TrimEnd(a);
    if HasAlnum(a) {
      var i :| 0 <= i < |a| && IsLowerAlnum(a[i]);
      TrimEndDropsSpaces(a);
      NotSpaceInside(a, 0, |b|, i);
      assert b[i] == a[i];
    }
    if HasAlnum(b) {
      var i :| 0 <= i < |b| && IsLowerAlnum(b[i]);
      assert b[i] == a[i];
    }
  }

  /** A letter or digit lies between the leading and the trailing run of whitespace. */
  lemma NotSpaceInside(s: string, lo: int, hi: int, i: int)
    requires 0 <= lo <= hi <= |s| && 0 <= i < |s| && IsLowerAlnum(s[i])
    requires forall j :: 0 <= j < lo ==> IsSpace(s[j])
    requires forall j :: hi <= j < |s| ==> IsSpace(s[j])
    ensures lo <= i < hi
  {
  }

  /** A slug-shaped string goes through every step unchanged. */
  lemma {:induction false} CollapseFixed(s: string)
    requires forall i :: 0 <= i < |s| ==> SlugChar(s[i])
    requires NoDoubleHyphen(s)
    requires |s| > 0 ==> s[0] != '-' || |s| == 1 || IsLowerAlnum(s[1])
    ensures Collapse(s) == s
    decreases |s|
  {
    if |s| > 0 {
      var rest := s[1..];
      assert forall i :: 0 <= i < |rest| ==> SlugChar(rest[i]);
      if IsLowerAlnum(s[0]) {
        CollapseFixed(rest);
      } else {
        assert SkipRun(rest) == rest;
        CollapseFixed(rest);
      }
    }
  }

  /** Slugging a slug gives it back. */
  lemma SlugIdempotent(name: string)
    ensures Slug(Slug(name)) == Slug(name)
  {
    var s := Slug(name);
    SlugSteps(s);
  }

  /** Every step leaves a slug-shaped string alone. */
  lemma SlugSteps(s: string)
    requires IsSlug(s)
    ensures Lower(s) == s && Trim(s) == s && Collapse(s) == s && StripEdges(s) == s
  {
    SlugLower(s);
    assert forall i :: 0 <= i < |s| ==> !IsSpace(s[i]) by {
      forall i | 0 <= i < |s| ensures !IsSpace(s[i]) {
        assert SlugChar(s[i]);
      }
    }
    TrimNoSpace(s);
    CollapseFixed(s);
  }

  lemma SlugLower(s: string)
    requires forall i :: 0 <= i < |s| ==> SlugChar(s[i])
    ensures Lower(s) == s
  {
    var l := Lower(s);
    forall i | 0 <= i < |s| ensures l[i] == s[i] {
      assert SlugChar(s[i]);
    }
  }
}
