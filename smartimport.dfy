/** app/api/smart-import/route.ts: the parse step (fence stripping of the language
    model's reply, then enrichment of the extracted people with the store's matches) and
    the confirm step (create the new people, merge the updates field by field, log one
    activity). The language model, JSON.parse and findStakeholderMatch are parameters. */
module SmartImport {
  import opened Wrappers
  import opened Text
  import opened Domain
  import opened Utils
  import opened DataStore
  import opened Matching
  import opened Sorting

  /** The route's error messages. */
  const NO_CONTENT: string := "Please provide a transcript or email content to analyze."
  const NO_SOURCE_TYPE: string := "Please select a source type."
  const PARSE_FAILED: string := "Failed to parse AI response. Please try again."
  const NO_PAYLOAD: string := "No import payload provided."

  datatype MatchStatus = New | Existing

  /** A person the model extracted; the match fields are filled in by the parse step. */
  datatype Extracted = Extracted(
    name: string,
    title: string,
    team: string,
    role: Role,
    priority: Priority,
    relationshipStrength: Strength,
    keyPriorities: seq<string>,
    notes: string,
    email: Option<string>,
    matchStatus: Option<MatchStatus>,
    matchedStakeholderId: Option<string>,
    matchConfidence: Option<int>)

  datatype ProposedActivity = ProposedActivity(date: Day, kind: ActivityType, summary: string)

  /** The parts of the model's answer the code reads. */
  datatype ParseResult = ParseResult(stakeholders: Option<seq<Extracted>>,
                                     proposedActivity: Option<ProposedActivity>)

  /** What findStakeholderMatch returns for a hit. */
  datatype MatchRef = MatchRef(id: string, confidence: int)

  /** An error response: HTTP status and message. */
  datatype Failure = Failure(status: nat, message: string)

  // ---------------------------------------------------------------- fence stripping

  const FENCE: string := "```"

  /** replace(/^```(?:json)?\n?/, "") on text known to start with the fence. */
  function StripOpening(s: string): (r: string)
    requires StartsWith(s, FENCE)
    ensures |r| <= |s| - 3 && r == s[|s| - |r|..]
  {
    var a := s[3..];
    var b := if StartsWith(a, "json") then a[4..] else a;
    if StartsWith(b, "\n") then b[1..] else b
  }

  /** replace(/\n?```$/, ""): the leftmost match takes the newline when there is one. */
  function StripClosing(s: string): (r: string)
    ensures |r| <= |s| && r == s[..|r|]
  {
    if EndsWith(s, "\n" + FENCE) then s[..|s| - 4]
    else if EndsWith(s, FENCE) then s[..|s| - 3]
    else s
  }

  /** The reply trimmed, and when it opens with a fence, without the opening fence line
      and the closing fence. */
  function StripFences(reply: string): (r: string)
    ensures !StartsWith(Trim(reply), FENCE) ==> r == Trim(reply)
    ensures |r| <= |Trim(reply)|
  {
    var cleaned := Trim(reply);
    if StartsWith(cleaned, FENCE) then StripClosing(StripOpening(cleaned)) else cleaned
  }

  /** Text that starts and ends with a backtick is its own trim. */
  lemma TrimFenced(t: string)
    requires |t| > 0 && t[0] == '`' && t[|t| - 1] == '`'
    ensures Trim(t) == t
  {
    TrimStartFixed(t);
    TrimEndFixed(t);
  }

  /** The closing strip removes a final newline-and-fence. */
  lemma StripClosingBlock(body: string)
    ensures StripClosing(body + "\n```") == body
  {
    var t := body + "\n```";
    assert t[|t| - 4..] == "\n" + FENCE;
    assert t[..|t| - 4] == body;
  }

  /** A reply fenced as a JSON block gives back exactly the block's body. */
  lemma StripJsonBlock(body: string)
    ensures StripFences("```json\n" + body + "\n```") == body
  {
    var t := "```json\n" + body + "\n```";
    var rest := body + "\n```";
    assert t == "```json\n" + rest;
    TrimFenced(t);
    StripOpeningJson(rest);
    StripClosingBlock(body);
  }

  lemma StripOpeningJson(rest: string)
    ensures StartsWith("```json\n" + rest, FENCE)
    ensures StripOpening("```json\n" + rest) == rest
  {
    var t := "```json\n" + rest;
    assert t[..3] == FENCE;
    var a := t[3..];
    assert a == "json\n" + rest;
    assert a[..4] == "json";
    var b := a[4..];
    assert b == "\n" + rest;
    assert b[..1] == "\n";
    assert b[1..] == rest;
  }

  /** Likewise for a fence without a language tag. */
  lemma StripPlainBlock(body: string)
    ensures StripFences("```\n" + body + "\n```") == body
  {
    var t := "```\n" + body + "\n```";
    var rest := body + "\n```";
    assert t == "```\n" + rest;
    TrimFenced(t);
    StripOpeningPlain(rest);
    StripClosingBlock(body);
  }

  lemma StripOpeningPlain(rest: string)
    ensures StartsWith("```\n" + rest, FENCE)
    ensures StripOpening("```\n" + rest) == rest
  {
    var t := "```\n" + rest;
    assert t[..3] == FENCE;
    var a := t[3..];
    assert a == "\n" + rest;
    assert a[0] == '\n';
    assert !StartsWith(a, "json") by {
      if |a| >= 4 { assert a[..4][0] == '\n'; }
    }
    assert a[1..] == rest;
  }

  /** Surrounding whitespace never matters. */
  lemma StripIgnoresPadding(reply: string)
    ensures StripFences(Trim(reply)) == StripFences(reply)
  {
    TrimIdempotent(reply);
  }

  // ---------------------------------------------------------------- parse

  /** The extracted person after matching: a hit becomes `existing` with the stored name
      (when it is not empty), the matched id and the confidence; a miss becomes `new`. */
  function Enrich(e: Extracted, ss: seq<Stakeholder>, findMatch: (string, seq<Stakeholder>) -> Option<MatchRef>): Extracted {
    match findMatch(e.name, ss)
    case Some(m) =>
      var stored := FindById(ss, m.id);
      e.(name := if stored.Some? && stored.value.name != "" then stored.value.name else e.name,
         matchStatus := Some(Existing),
         matchedStakeholderId := Some(m.id),
         matchConfidence := Some(m.confidence))
    case None => e.(matchStatus := Some(New))
  }

  function EnrichAll(es: seq<Extracted>, ss: seq<Stakeholder>,
                     findMatch: (string, seq<Stakeholder>) -> Option<MatchRef>): (r: seq<Extracted>)
    ensures |r| == |es| && forall i :: 0 <= i < |es| ==> r[i] == Enrich(es[i], ss, findMatch)
  {
    if |es| == 0 then [] else [Enrich(es[0], ss, findMatch)] + EnrichAll(es[1..], ss, findMatch)
  }

  /** A person is `existing` exactly when the matcher found them, and then carries the
      match's id and confidence and the stored name; otherwise only the status changes. */
  lemma EnrichMeaning(e: Extracted, ss: seq<Stakeholder>, findMatch: (string, seq<Stakeholder>) -> Option<MatchRef>)
    ensures var r := Enrich(e, ss, findMatch);
            (r.matchStatus == Some(Existing) <==> findMatch(e.name, ss).Some?)
            && (r.matchStatus == Some(New) <==> findMatch(e.name, ss).None?)
            && r.(name := e.name, matchStatus := e.matchStatus,
                  matchedStakeholderId := e.matchedStakeholderId, matchConfidence := e.matchConfidence) == e
    ensures var r := Enrich(e, ss, findMatch);
            findMatch(e.name, ss).Some? ==>
              var m := findMatch(e.name, ss).value;
              r.matchedStakeholderId == Some(m.id) && r.matchConfidence == Some(m.confidence)
              && (forall s :: s in ss && s.id == m.id && s.name != "" && FindById(ss, m.id) == Some(s) ==> r.name == s.name)
              && (m.id !in Ids(ss) ==> r.name == e.name)
    ensures findMatch(e.name, ss).None? ==> Enrich(e, ss, findMatch) == e.(matchStatus := Some(New))
  {
  }

  /** handleParse, given the text the model replied with and a JSON decoder that fails
      with None. */
  function HandleParse(transcript: Option<string>, sourceType: Option<ActivityType>, ss: seq<Stakeholder>,
                       reply: string, parseJson: string -> Option<ParseResult>,
                       findMatch: (string, seq<Stakeholder>) -> Option<MatchRef>): (r: Result<ParseResult, Failure>)
    ensures (transcript.None? || Trim(transcript.value) == "") ==>
              r == Err(Failure(400, NO_CONTENT))
    ensures transcript.Some? && Trim(transcript.value) != "" && sourceType.None? ==>
              r == Err(Failure(400, NO_SOURCE_TYPE))
    ensures transcript.Some? && Trim(transcript.value) != "" && sourceType.Some? ==>
              (r.Err? <==> parseJson(StripFences(reply)).None?)
              && (r.Err? ==> r.error == Failure(500, PARSE_FAILED))
    ensures r.Ok? ==> r.value.proposedActivity == parseJson(StripFences(reply)).value.proposedActivity
    ensures r.Ok? ==>
              (r.value.stakeholders.Some? <==> parseJson(StripFences(reply)).value.stakeholders.Some?)
              && (r.value.stakeholders.Some? ==>
                    var es := parseJson(StripFences(reply)).value.stakeholders.value;
                    |r.value.stakeholders.value| == |es|
                    && forall i :: 0 <= i < |es| ==>
                         r.value.stakeholders.value[i] == Enrich(es[i], ss, findMatch))
  {
    if transcript.None? || Trim(transcript.value) == "" then
      Err(Failure(400, NO_CONTENT))
    else if sourceType.None? then
      Err(Failure(400, NO_SOURCE_TYPE))
    else
      match parseJson(StripFences(reply))
      case None => Err(Failure(500, PARSE_FAILED))
      case Some(parsed) =>
        if parsed.stakeholders.Some? then
          Ok(parsed.(stakeholders := Some(EnrichAll(parsed.stakeholders.value, ss, findMatch))))
        else Ok(parsed)
  }

  // ---------------------------------------------------------------- merge helpers

  /** [...new Set(xs)]: the first occurrence of each element, in order. */
  function Dedup(xs: seq<string>): (r: seq<string>)
    ensures forall x :: x in r <==> x in xs
    ensures |r| <= |xs|
  {
    if |xs| == 0 then []
    else
      var d := Dedup(xs[..|xs| - 1]);
      assert forall x :: x in xs <==> x in xs[..|xs| - 1] || x == xs[|xs| - 1] by {
        assert xs == xs[..|xs| - 1] + [xs[|xs| - 1]];
      }
      if xs[|xs| - 1] in d then d else d + [xs[|xs| - 1]]
  }

  predicate NoDuplicates(xs: seq<string>) {
    forall i, j :: 0 <= i < j < |xs| ==> xs[i] != xs[j]
  }

  /** The result never repeats an element. */
  lemma {:induction false} DedupDistinct(xs: seq<string>)
    ensures NoDuplicates(Dedup(xs))
  {
    if |xs| > 0 {
      DedupDistinct(xs[..|xs| - 1]);
    }
  }

  /** Deduplicating a concatenation keeps the deduplicated first part as a prefix. */
  lemma {:induction false} DedupPrefix(a: seq<string>, b: seq<string>)
    ensures var d := Dedup(a + b); |Dedup(a)| <= |d| && d[..|Dedup(a)|] == Dedup(a)
    decreases |b|
  {
    if |b| == 0 {
      assert a + b == a;
    } else {
      var ab := a + b;
      assert ab[..|ab| - 1] == a + b[..|b| - 1];
      DedupPrefix(a, b[..|b| - 1]);
    }
  }

  /** A list without repeats is its own deduplication. */
  lemma {:induction false} DedupDistinctFixed(xs: seq<string>)
    requires NoDuplicates(xs)
    ensures Dedup(xs) == xs
  {
    if |xs| > 0 {
      var init := xs[..|xs| - 1];
      DedupDistinctFixed(init);
      assert xs[|xs| - 1] !in init;
      assert xs == init + [xs[|xs| - 1]];
    }
  }

  /** An update entry as the page sends it; an empty list or text means "not given". */
  datatype Update = Update(id: string, keyPriorities: seq<string>, relationshipStrength: Option<Strength>,
                           notes: string, lastContactDate: Option<Day>)

  /** The `updates` object handleConfirm builds for one existing stakeholder. */
  function MergePatch(existing: Stakeholder, u: Update, date: Day): Patch {
    NoChanges.(
      lastContactDate :=
        if u.lastContactDate.Some? && IsLater(u.lastContactDate.value, existing.lastContactDate)
        then Some(u.lastContactDate) else None,
      keyPriorities :=
        if |u.keyPriorities| > 0 then Some(Dedup(existing.keyPriorities + u.keyPriorities)) else None,
      relationshipStrength := u.relationshipStrength,
      notes :=
        if u.notes == "" then None
        else if existing.notes != "" then Some(existing.notes + "\n\n[Smart Import " + IsoDate(date) + "] " + u.notes)
        else Some(u.notes))
  }

  /** A record after smart-import merges: only date, strength, tags and notes differ; the
      date did not move back, no tag was lost, and the old notes open the new ones. */
  predicate Merged(before: Stakeholder, after: Stakeholder) {
    after == before.(lastContactDate := after.lastContactDate, relationshipStrength := after.relationshipStrength,
                     keyPriorities := after.keyPriorities, notes := after.notes)
    && (before.lastContactDate.Some? ==>
          after.lastContactDate.Some? && after.lastContactDate.value >= before.lastContactDate.value)
    && (forall t :: t in before.keyPriorities ==> t in after.keyPriorities)
    && StartsWith(after.notes, before.notes)
  }

  lemma MergedRefl(s: Stakeholder)
    ensures Merged(s, s)
  {
  }

  lemma MergedTrans(a: Stakeholder, b: Stakeholder, c: Stakeholder)
    requires Merged(a, b) && Merged(b, c)
    ensures Merged(a, c)
  {
    assert c.notes[..|b.notes|] == b.notes;
    assert c.notes[..|a.notes|] == c.notes[..|b.notes|][..|a.notes|];
  }

  /** Applying the merge patch is a forward merge, and it writes something exactly when
      the update brings a later date, a tag, a strength or a note. */
  lemma MergePatchForward(existing: Stakeholder, u: Update, date: Day)
    ensures Merged(existing, Overlay(existing, MergePatch(existing, u, date), existing.id))
    ensures MergePatch(existing, u, date).HasFields() <==>
              (u.lastContactDate.Some? && IsLater(u.lastContactDate.value, existing.lastContactDate))
              || |u.keyPriorities| > 0 || u.relationshipStrength.Some? || u.notes != ""
  {
    var p := MergePatch(existing, u, date);
    var after := Overlay(existing, p, existing.id);
    OverlayFour(existing, p);
    if |u.keyPriorities| > 0 {
      assert forall t :: t in existing.keyPriorities ==> t in existing.keyPriorities + u.keyPriorities;
    }
    MergeNotesPrefix(existing, u, date);
  }

  /** A patch that carries only the date, the strength, the tags and the notes changes
      only those. */
  lemma OverlayFour(s: Stakeholder, p: Patch)
    requires p.id.None? && p.name.None? && p.title.None? && p.team.None? && p.role.None?
    requires p.priority.None? && p.email.None? && p.reportsTo.None?
    ensures Overlay(s, p, s.id) == s.(lastContactDate := p.lastContactDate.GetOr(s.lastContactDate),
                                      relationshipStrength := p.relationshipStrength.GetOr(s.relationshipStrength),
                                      keyPriorities := p.keyPriorities.GetOr(s.keyPriorities),
                                      notes := p.notes.GetOr(s.notes))
  {
  }

  /** The merged notes open with the stored ones. */
  lemma MergeNotesPrefix(existing: Stakeholder, u: Update, date: Day)
    ensures StartsWith(MergePatch(existing, u, date).notes.GetOr(existing.notes), existing.notes)
  {
    if u.notes != "" && existing.notes != "" {
      var head := existing.notes + "\n\n[Smart Import ";
      var mid := IsoDate(date) + "] ";
      var n := head + mid + u.notes;
      assert MergePatch(existing, u, date).notes.value == n;
      Framed(head, mid, u.notes);
      assert head[..|existing.notes|] == existing.notes;
      assert n[..|existing.notes|] == head[..|existing.notes|];
    } else if u.notes != "" {
      assert u.notes[..0] == "";
    }
  }

  /** The merged tags: the stored ones first (when they have no repeats), then each new
      tag once. */
  lemma MergeTags(existing: Stakeholder, u: Update, date: Day)
    requires |u.keyPriorities| > 0 && NoDuplicates(existing.keyPriorities)
    ensures var tags := MergePatch(existing, u, date).keyPriorities.value;
            |existing.keyPriorities| <= |tags| && tags[..|existing.keyPriorities|] == existing.keyPriorities
            && NoDuplicates(tags)
            && forall t :: t in tags <==> t in existing.keyPriorities || t in u.keyPriorities
  {
    DedupPrefix(existing.keyPriorities, u.keyPriorities);
    DedupDistinctFixed(existing.keyPriorities);
    DedupDistinct(existing.keyPriorities + u.keyPriorities);
  }

  /** New notes are appended under a dated Smart Import tag, or stored as they are when
      there were none. */
  lemma MergeNotes(existing: Stakeholder, u: Update, date: Day)
    requires u.notes != ""
    ensures existing.notes == "" ==> MergePatch(existing, u, date).notes == Some(u.notes)
    ensures existing.notes != "" ==> MergePatch(existing, u, date).notes.Some?
    ensures existing.notes != "" ==>
              StartsWith(MergePatch(existing, u, date).notes.value, existing.notes + "\n\n[Smart Import ")
              && EndsWith(MergePatch(existing, u, date).notes.value, "] " + u.notes)
  {
    if existing.notes != "" {
      var head := existing.notes + "\n\n[Smart Import ";
      var mid := IsoDate(date) + "] ";
      var n := head + mid + u.notes;
      assert MergePatch(existing, u, date).notes.value == n;
      Framed(head, mid, u.notes);
      assert EndsWith(mid, "] ");
      EndsWithAppend(head + mid, "] ", u.notes);
    }
  }

  lemma Framed(head: string, mid: string, tail: string)
    ensures StartsWith(head + mid + tail, head)
  {
    assert (head + mid + tail)[..|head|] == head;
  }

  lemma EndsWithAppend(a: string, p: string, tail: string)
    requires EndsWith(a, p)
    ensures EndsWith(a + tail, p + tail)
  {
    var t := a + tail;
    assert t[|t| - |p + tail|..] == a[|a| - |p|..] + tail;
  }

  // ---------------------------------------------------------------- the name -> id map

  /** One property of stakeholderIdMap, in insertion order. */
  datatype Entry = Entry(name: string, id: string)

  function Keys(m: seq<Entry>): (r: seq<string>)
    ensures |r| == |m| && forall i :: 0 <= i < |m| ==> r[i] == m[i].name
  {
    seq(|m|, i requires 0 <= i < |m| => m[i].name)
  }

  /** The values of the entries, in the order given. */
  function Values(m: seq<Entry>): (r: seq<string>)
    ensures |r| == |m| && forall i :: 0 <= i < |m| ==> r[i] == m[i].id
  {
    seq(|m|, i requires 0 <= i < |m| => m[i].id)
  }

  /** A property key that is an array index: a decimal numeral without a leading zero
      (other than "0" itself) below 2^32 - 1. */
  predicate IsArrayIndex(k: string) {
    |k| > 0 && AllDigits(k) && (k[0] != '0' || |k| == 1) && DigitsValue(k) < 0xFFFF_FFFF
  }

  /** The entries whose keys are array indices, in insertion order. */
  function IndexEntries(m: seq<Entry>): (r: seq<Entry>)
    ensures forall e :: e in r <==> e in m && IsArrayIndex(e.name)
  {
    if |m| == 0 then []
    else (if IsArrayIndex(m[0].name) then [m[0]] else []) + IndexEntries(m[1..])
  }

  /** The other entries, in insertion order. */
  function OtherEntries(m: seq<Entry>): (r: seq<Entry>)
    ensures forall e :: e in r <==> e in m && !IsArrayIndex(e.name)
  {
    if |m| == 0 then []
    else (if IsArrayIndex(m[0].name) then [] else [m[0]]) + OtherEntries(m[1..])
  }

  /** Sorting by this rank, largest first, puts array indices in ascending order. */
  function IndexRank(e: Entry): int {
    if IsArrayIndex(e.name) then -(DigitsValue(e.name) as int) else 0
  }

  /** The order in which an object lists its own string keys: array indices first, by
      numeric value, then the other keys in insertion order. */
  function PropertyOrder(m: seq<Entry>): seq<Entry> {
    SortDesc(IndexEntries(m), IndexRank) + OtherEntries(m)
  }

  /** Object.values */
  function ObjectValues(m: seq<Entry>): seq<string> {
    Values(PropertyOrder(m))
  }

  lemma {:induction false} SplitEntries(m: seq<Entry>)
    ensures multiset(IndexEntries(m)) + multiset(OtherEntries(m)) == multiset(m)
  {
    if |m| > 0 {
      SplitEntries(m[1..]);
      assert m == [m[0]] + m[1..];
      assert multiset(m) == multiset{m[0]} + multiset(m[1..]);
    }
  }

  lemma {:induction false} NoIndexEntries(m: seq<Entry>)
    requires forall e :: e in m ==> !IsArrayIndex(e.name)
    ensures OtherEntries(m) == m && IndexEntries(m) == []
  {
    if |m| > 0 {
      assert m[0] in m;
      assert forall e :: e in m[1..] ==> e in m;
      NoIndexEntries(m[1..]);
      assert m == [m[0]] + m[1..];
    }
  }

  /** Object.values lists every value once per entry; the array-index keys come first, by
      ascending numeric value, and the rest keep insertion order, so without an
      array-index key it is the insertion order. */
  lemma ObjectValuesOrder(m: seq<Entry>)
    ensures multiset(PropertyOrder(m)) == multiset(m)
    ensures var r := PropertyOrder(m);
            forall i, j :: 0 <= i < j < |r| && IsArrayIndex(r[j].name) ==>
              IsArrayIndex(r[i].name) && DigitsValue(r[i].name) <= DigitsValue(r[j].name)
    ensures var k := |IndexEntries(m)|; k <= |PropertyOrder(m)| && PropertyOrder(m)[k..] == OtherEntries(m)
    ensures (forall e :: e in m ==> !IsArrayIndex(e.name)) ==> ObjectValues(m) == Values(m)
  {
    var idx := IndexEntries(m);
    SplitEntries(m);
    SortDescPermutation(idx, IndexRank);
    IndicesFirst(m);
    assert PropertyOrder(m)[|SortDesc(idx, IndexRank)|..] == OtherEntries(m);
    SortDescLength(idx, IndexRank);
    if forall e :: e in m ==> !IsArrayIndex(e.name) {
      NoIndexEntries(m);
      assert SortDesc(idx, IndexRank) == [];
      assert PropertyOrder(m) == m;
    }
  }

  lemma IndicesFirst(m: seq<Entry>)
    ensures var r := PropertyOrder(m);
            forall i, j :: 0 <= i < j < |r| && IsArrayIndex(r[j].name) ==>
              IsArrayIndex(r[i].name) && DigitsValue(r[i].name) <= DigitsValue(r[j].name)
  {
    var idx := IndexEntries(m);
    var sorted := SortDesc(idx, IndexRank);
    var r := PropertyOrder(m);
    SortDescSorted(idx, IndexRank);
    SortDescElements(idx, IndexRank);
    forall i, j | 0 <= i < j < |r| && IsArrayIndex(r[j].name)
      ensures IsArrayIndex(r[i].name) && DigitsValue(r[i].name) <= DigitsValue(r[j].name)
    {
      if j < |sorted| {
        assert r[i] == sorted[i] && r[j] == sorted[j];
        assert sorted[i] in idx;
        assert IndexRank(sorted[i]) >= IndexRank(sorted[j]);
      }
    }
  }

  function Lookup(m: seq<Entry>, name: string): Option<string> {
    if |m| == 0 then None else if m[0].name == name then Some(m[0].id) else Lookup(m[1..], name)
  }

  /** The one key a plain object does not store: assigning to it runs the inherited
      prototype setter, which ignores a string value. */
  const Proto := "__proto__"

  /** map[name] = id: an existing key keeps its position and takes the new value; a new
      key goes last; the key "__proto__" is not stored at all. */
  function Assign(m: seq<Entry>, name: string, id: string): (r: seq<Entry>)
    ensures name == Proto ==> r == m
    ensures name != Proto ==> Lookup(r, name) == Some(id)
    ensures forall n :: n != name ==> Lookup(r, n) == Lookup(m, n)
    ensures Keys(r) == if name == Proto || name in Keys(m) then Keys(m) else Keys(m) + [name]
  {
    if name == Proto then m
    else if |m| == 0 then [Entry(name, id)]
    else if m[0].name == name then
      var r := [Entry(name, id)] + m[1..];
      assert Keys(r) == Keys(m) by {
        forall i | 0 <= i < |m| ensures Keys(r)[i] == Keys(m)[i] {}
      }
      assert name in Keys(m) by { assert Keys(m)[0] == name; }
      r
    else
      var rest := Assign(m[1..], name, id);
      assert m == [m[0]] + m[1..];
      AssignCons(m[0], m[1..], rest, name, id);
      [m[0]] + rest
  }

  /** An entry with another key in front of an assigned map keeps Assign's contract. */
  lemma AssignCons(e: Entry, t: seq<Entry>, rest: seq<Entry>, name: string, id: string)
    requires e.name != name
    requires Lookup(rest, name) == Some(id)
    requires forall n :: n != name ==> Lookup(rest, n) == Lookup(t, n)
    requires Keys(rest) == if name in Keys(t) then Keys(t) else Keys(t) + [name]
    ensures Lookup([e] + rest, name) == Some(id)
    ensures forall n :: n != name ==> Lookup([e] + rest, n) == Lookup([e] + t, n)
    ensures Keys([e] + rest) == if name in Keys([e] + t) then Keys([e] + t) else Keys([e] + t) + [name]
  {
    LookupCons(e, rest, name);
    forall n | n != name
      ensures Lookup([e] + rest, n) == Lookup([e] + t, n)
    {
      LookupCons(e, rest, n);
      LookupCons(e, t, n);
    }
    KeysAssignCons(e, t, rest, name);
  }

  lemma LookupCons(e: Entry, t: seq<Entry>, n: string)
    ensures Lookup([e] + t, n) == if e.name == n then Some(e.id) else Lookup(t, n)
  {
    assert ([e] + t)[1..] == t;
  }

  lemma KeysAssignCons(e: Entry, t: seq<Entry>, rest: seq<Entry>, name: string)
    requires e.name != name
    requires Keys(rest) == if name in Keys(t) then Keys(t) else Keys(t) + [name]
    ensures Keys([e] + rest) == if name in Keys([e] + t) then Keys([e] + t) else Keys([e] + t) + [name]
  {
    KeysCons(e, t);
    KeysCons(e, rest);
    assert name in Keys([e] + t) <==> name in Keys(t);
    if name !in Keys(t) {
      assert [e.name] + (Keys(t) + [name]) == ([e.name] + Keys(t)) + [name];
    }
  }

  lemma KeysCons(e: Entry, t: seq<Entry>)
    ensures Keys([e] + t) == [e.name] + Keys(t)
  {
    var a, b := Keys([e] + t), [e.name] + Keys(t);
    assert forall i :: 1 <= i < |a| ==> ([e] + t)[i] == t[i - 1];
    assert |a| == |b|;
    assert forall i :: 0 <= i < |a| ==> a[i] == b[i];
  }

  /** Assigning keeps keys unique and adds the key when it is new. */
  lemma AssignKeys(m: seq<Entry>, name: string, id: string)
    requires NoDuplicates(Keys(m))
    ensures NoDuplicates(Keys(Assign(m, name, id)))
    ensures forall n :: n in Keys(Assign(m, name, id)) <==> n in Keys(m) || (n == name && n != Proto)
  {
  }

  /** The entries the first loop acts on: `new`, or carrying a non-empty matched id. */
  predicate Mapped(e: Extracted) {
    e.matchStatus == Some(New) || (e.matchedStakeholderId.Some? && e.matchedStakeholderId.value != "")
  }

  /** The payload entries marked `new`, in order. */
  function NewEntries(es: seq<Extracted>): (r: seq<Extracted>)
    ensures |r| <= |es|
  {
    if |es| == 0 then []
    else
      var init := NewEntries(es[..|es| - 1]);
      if es[|es| - 1].matchStatus == Some(New) then init + [es[|es| - 1]] else init
  }

  /** stakeholderIdMap after the first loop, given the identifiers the created records
      received, one per `new` entry. */
  function IdMap(es: seq<Extracted>, created: seq<string>): (m: seq<Entry>)
    requires |created| == |NewEntries(es)|
    ensures |m| <= |es|
    ensures NoDuplicates(Keys(m))
    ensures forall n :: n in Keys(m) <==> n != Proto && exists e :: e in es && Mapped(e) && e.name == n
  {
    if |es| == 0 then []
    else
      var init := es[..|es| - 1];
      var e := es[|es| - 1];
      assert es == init + [e];
      assert forall x :: x in es <==> x in init || x == e;
      if e.matchStatus == Some(New) then
        var m0 := IdMap(init, created[..|created| - 1]);
        AssignKeys(m0, e.name, created[|created| - 1]);
        Assign(m0, e.name, created[|created| - 1])
      else if e.matchedStakeholderId.Some? && e.matchedStakeholderId.value != "" then
        var m0 := IdMap(init, created);
        AssignKeys(m0, e.name, e.matchedStakeholderId.value);
        Assign(m0, e.name, e.matchedStakeholderId.value)
      else IdMap(init, created)
  }

  /** The last mapped entry of a name decides its identifier: a later entry with the same
      name overwrites an earlier one, so duplicate names collapse into one participant. A
      person named "__proto__" is created but never enters the map. */
  lemma IdMapLastNew(es: seq<Extracted>, created: seq<string>, e: Extracted, c: string)
    requires |created| == |NewEntries(es)| && e.matchStatus == Some(New)
    ensures |created + [c]| == |NewEntries(es + [e])|
    ensures e.name != Proto ==> Lookup(IdMap(es + [e], created + [c]), e.name) == Some(c)
    ensures e.name == Proto ==> IdMap(es + [e], created + [c]) == IdMap(es, created)
  {
    assert (es + [e])[..|es|] == es;
    assert (created + [c])[..|created|] == created;
  }

  lemma IdMapLastMatched(es: seq<Extracted>, created: seq<string>, e: Extracted)
    requires |created| == |NewEntries(es)| && e.matchStatus != Some(New)
    requires e.matchedStakeholderId.Some? && e.matchedStakeholderId.value != ""
    ensures |created| == |NewEntries(es + [e])|
    ensures e.name != Proto ==> Lookup(IdMap(es + [e], created), e.name) == Some(e.matchedStakeholderId.value)
    ensures e.name == Proto ==> IdMap(es + [e], created) == IdMap(es, created)
  {
    assert (es + [e])[..|es|] == es;
  }

  /** Every participant is a created identifier or an entry's matched identifier, and
      there are never more participants than entries. */
  lemma {:induction false} IdMapValues(es: seq<Extracted>, created: seq<string>)
    requires |created| == |NewEntries(es)|
    ensures |Values(IdMap(es, created))| <= |es|
    ensures forall v :: v in Values(IdMap(es, created)) ==>
              v in created || exists e :: e in es && e.matchedStakeholderId == Some(v)
  {
    if |es| > 0 {
      var init := es[..|es| - 1];
      var e := es[|es| - 1];
      assert es == init + [e];
      var createdInit := if e.matchStatus == Some(New) then created[..|created| - 1] else created;
      assert forall x :: x in createdInit ==> x in created;
      IdMapValues(init, createdInit);
      var m0 := IdMap(init, createdInit);
      var m := IdMap(es, created);
      forall v | v in Values(m)
        ensures v in created || exists x :: x in es && x.matchedStakeholderId == Some(v)
      {
        var i :| 0 <= i < |m| && m[i].id == v;
        var n := m[i].name;
        assert forall j :: 0 <= j < i ==> m[j].name != m[i].name by {
          assert forall j :: 0 <= j < i ==> Keys(m)[j] != Keys(m)[i];
        }
        LookupFound(m, i);
        if Mapped(e) && n == e.name {
        } else {
          assert Lookup(m, n) == Lookup(m0, n);
          LookupIn(m0, n);
          assert v in Values(m0);
        }
      }
    }
  }

  /** Lookup finds the first entry with the key. */
  lemma LookupFound(m: seq<Entry>, i: nat)
    requires i < |m| && forall j :: 0 <= j < i ==> m[j].name != m[i].name
    ensures Lookup(m, m[i].name) == Some(m[i].id)
  {
    if i > 0 {
      LookupFound(m[1..], i - 1);
    }
  }

  lemma LookupIn(m: seq<Entry>, n: string)
    requires Lookup(m, n).Some?
    ensures Lookup(m, n).value in Values(m)
  {
    if m[0].name != n {
      LookupIn(m[1..], n);
      assert Values(m[1..]) == Values(m)[1..];
    }
  }

  // ---------------------------------------------------------------- confirm

  datatype ConfirmPayload = ConfirmPayload(stakeholders: seq<Extracted>, activity: ProposedActivity,
                                           stakeholderUpdates: Option<seq<Update>>)

  datatype ConfirmResult = ConfirmResult(createdStakeholders: seq<Stakeholder>,
                                         updatedStakeholders: seq<Stakeholder>,
                                         createdActivity: Activity)

  /** The record addStakeholder receives for a `new` entry: the activity's date becomes
      the last contact. */
  function DraftOf(e: Extracted, date: Day): Stakeholder {
    Stakeholder("", e.name, e.title, e.team, e.role, e.priority, Some(date), e.relationshipStrength,
                e.keyPriorities, e.notes, e.email, None)
  }

  lemma UniqueAppend(ss: seq<Stakeholder>, c: Stakeholder)
    requires UniqueIds(ss) && c.id !in Ids(ss)
    ensures UniqueIds(ss + [c])
  {
    forall i | 0 <= i < |ss| ensures ss[i].id != c.id {
      assert Ids(ss)[i] == ss[i].id;
    }
  }

  lemma IdsAppend(a: seq<Stakeholder>, b: seq<Stakeholder>)
    ensures Ids(a + b) == Ids(a) + Ids(b)
  {
  }

  /** One more `new` entry extends the spec functions of the first loop. */
  lemma CreateStepNew(es: seq<Extracted>, i: nat, created: seq<Stakeholder>, c: Stakeholder)
    requires i < |es| && |created| == |NewEntries(es[..i])| && es[i].matchStatus == Some(New)
    ensures NewEntries(es[..i + 1]) == NewEntries(es[..i]) + [es[i]]
    ensures IdMap(es[..i + 1], Ids(created + [c])) == Assign(IdMap(es[..i], Ids(created)), es[i].name, c.id)
  {
    assert es[..i + 1][..i] == es[..i];
    IdsAppend(created, [c]);
    assert (Ids(created) + [c.id])[..|created|] == Ids(created);
  }

  /** Any other entry leaves the created list alone and may map its matched id. */
  lemma CreateStepOther(es: seq<Extracted>, i: nat, created: seq<Stakeholder>)
    requires i < |es| && |created| == |NewEntries(es[..i])| && es[i].matchStatus != Some(New)
    ensures NewEntries(es[..i + 1]) == NewEntries(es[..i])
    ensures IdMap(es[..i + 1], Ids(created))
            == if es[i].matchedStakeholderId.Some? && es[i].matchedStakeholderId.value != ""
               then Assign(IdMap(es[..i], Ids(created)), es[i].name, es[i].matchedStakeholderId.value)
               else IdMap(es[..i], Ids(created))
  {
    assert es[..i + 1][..i] == es[..i];
  }

  /** The created records are the drafts of these entries, in order, under new ids. */
  predicate CreatedFrom(created: seq<Stakeholder>, entries: seq<Extracted>, date: Day) {
    |created| == |entries|
    && forall k :: 0 <= k < |created| ==> created[k] == DraftOf(entries[k], date).(id := created[k].id)
  }

  lemma CreatedMore(created: seq<Stakeholder>, entries: seq<Extracted>, date: Day, e: Extracted, c: Stakeholder)
    requires CreatedFrom(created, entries, date) && c == DraftOf(e, date).(id := c.id)
    ensures CreatedFrom(created + [c], entries + [e], date)
  {
  }

  /** The first loop: one addStakeholder per `new` entry, and the name -> id map. */
  method CreateNew(store: Store, es: seq<Extracted>, date: Day)
    returns (created: seq<Stakeholder>, idMap: seq<Entry>)
    modifies store
    ensures store.stakeholders == old(store.stakeholders) + created
    ensures store.activities == old(store.activities)
    ensures |created| == |NewEntries(es)|
    ensures forall k :: 0 <= k < |created| ==>
              created[k] == DraftOf(NewEntries(es)[k], date).(id := created[k].id)
    ensures UniqueIds(old(store.stakeholders)) ==> UniqueIds(store.stakeholders)
    ensures idMap == IdMap(es, Ids(created))
  {
    created, idMap := [], [];
    ghost var base := store.stakeholders;
    ghost var acts := store.activities;
    var i := 0;
    while i < |es|
      invariant 0 <= i <= |es|
      invariant store.stakeholders == base + created
      invariant store.activities == acts
      invariant CreatedFrom(created, NewEntries(es[..i]), date)
      invariant UniqueIds(base) ==> UniqueIds(store.stakeholders)
      invariant idMap == IdMap(es[..i], Ids(created))
    {
      created, idMap := CreateStep(store, es, i, date, created, idMap, base);
      i := i + 1;
    }
    assert es[..i] == es;
    assert CreatedFrom(created, NewEntries(es), date);
  }

  /** The first loop's body for entry i: addStakeholder for a `new` entry, then the map. */
  method CreateStep(store: Store, es: seq<Extracted>, i: nat, date: Day, created: seq<Stakeholder>,
                    idMap: seq<Entry>, ghost base: seq<Stakeholder>)
    returns (created': seq<Stakeholder>, idMap': seq<Entry>)
    requires i < |es|
    requires store.stakeholders == base + created
    requires CreatedFrom(created, NewEntries(es[..i]), date)
    requires UniqueIds(base) ==> UniqueIds(store.stakeholders)
    requires idMap == IdMap(es[..i], Ids(created))
    modifies store
    ensures store.stakeholders == base + created'
    ensures store.activities == old(store.activities)
    ensures CreatedFrom(created', NewEntries(es[..i + 1]), date)
    ensures UniqueIds(base) ==> UniqueIds(store.stakeholders)
    ensures idMap' == IdMap(es[..i + 1], Ids(created'))
  {
    var e := es[i];
    if e.matchStatus == Some(New) {
      created', idMap' := AddEntry(store, es, i, date, created, idMap, base);
    } else {
      CreateStepOther(es, i, created);
      created', idMap' := created, idMap;
      if e.matchedStakeholderId.Some? && e.matchedStakeholderId.value != "" {
        idMap' := Assign(idMap, e.name, e.matchedStakeholderId.value);
      }
    }
  }

  /** A `new` entry: addStakeholder with its draft, and its name mapped to the new id. */
  method AddEntry(store: Store, es: seq<Extracted>, i: nat, date: Day, created: seq<Stakeholder>,
                  idMap: seq<Entry>, ghost base: seq<Stakeholder>)
    returns (created': seq<Stakeholder>, idMap': seq<Entry>)
    requires i < |es| && es[i].matchStatus == Some(New)
    requires store.stakeholders == base + created
    requires CreatedFrom(created, NewEntries(es[..i]), date)
    requires UniqueIds(base) ==> UniqueIds(store.stakeholders)
    requires idMap == IdMap(es[..i], Ids(created))
    modifies store
    ensures store.stakeholders == base + created'
    ensures store.activities == old(store.activities)
    ensures CreatedFrom(created', NewEntries(es[..i + 1]), date)
    ensures UniqueIds(base) ==> UniqueIds(store.stakeholders)
    ensures idMap' == IdMap(es[..i + 1], Ids(created'))
  {
    var c := store.AddStakeholder(DraftOf(es[i], date));
    CreatedStep(es, i, date, created, c);
    CreateStepNew(es, i, created, c);
    UniqueSnoc(base, created, c);
    created' := created + [c];
    idMap' := Assign(idMap, es[i].name, c.id);
  }

  lemma UniqueSnoc(base: seq<Stakeholder>, created: seq<Stakeholder>, c: Stakeholder)
    requires c.id !in Ids(base + created)
    ensures base + created + [c] == base + (created + [c])
    ensures UniqueIds(base + created) ==> UniqueIds(base + created + [c])
  {
    if UniqueIds(base + created) {
      UniqueAppend(base + created, c);
    }
  }

  lemma CreatedStep(es: seq<Extracted>, i: nat, date: Day, created: seq<Stakeholder>, c: Stakeholder)
    requires i < |es| && es[i].matchStatus == Some(New)
    requires CreatedFrom(created, NewEntries(es[..i]), date)
    requires c == DraftOf(es[i], date).(id := c.id)
    ensures CreatedFrom(created + [c], NewEntries(es[..i + 1]), date)
  {
    assert es[..i + 1][..i] == es[..i];
    CreatedMore(created, NewEntries(es[..i]), date, es[i], c);
  }

  /** The identifiers of the update entries. */
  function UpdateIds(us: seq<Update>): (r: seq<string>)
    ensures |r| == |us| && forall k :: 0 <= k < |us| ==> r[k] == us[k].id
  {
    seq(|us|, k requires 0 <= k < |us| => us[k].id)
  }

  /** One update entry against the records: the first record with its identifier takes
      the merge patch when the patch writes something, and is then the updated record;
      otherwise nothing changes. */
  function AppliedTo(ss: seq<Stakeholder>, u: Update, date: Day): (seq<Stakeholder>, Option<Stakeholder>) {
    match FirstIndex(ss, u.id)
    case None => (ss, None)
    case Some(k) =>
      var patch := MergePatch(ss[k], u, date);
      if patch.HasFields() then (ss[k := Overlay(ss[k], patch, u.id)], Some(Overlay(ss[k], patch, u.id)))
      else (ss, None)
  }

  /** Merge one update into the current record with that identifier, if there is one and
      the merge writes something. */
  method ApplyUpdate(store: Store, u: Update, date: Day) returns (updated: Option<Stakeholder>)
    modifies store
    ensures updated.Some? <==>
              FirstIndex(old(store.stakeholders), u.id).Some?
              && MergePatch(old(store.stakeholders)[FirstIndex(old(store.stakeholders), u.id).value], u, date).HasFields()
    ensures updated.Some? ==>
              var k := FirstIndex(old(store.stakeholders), u.id).value;
              updated.value == Overlay(old(store.stakeholders)[k], MergePatch(old(store.stakeholders)[k], u, date), u.id)
              && store.stakeholders == old(store.stakeholders)[k := updated.value]
    ensures updated.None? ==> store.stakeholders == old(store.stakeholders)
    ensures (store.stakeholders, updated) == AppliedTo(old(store.stakeholders), u, date)
    ensures Ids(store.stakeholders) == Ids(old(store.stakeholders))
    ensures forall i :: 0 <= i < |store.stakeholders| ==> Merged(old(store.stakeholders)[i], store.stakeholders[i])
    ensures forall i :: 0 <= i < |store.stakeholders| && store.stakeholders[i].id != u.id ==>
              store.stakeholders[i] == old(store.stakeholders)[i]
    ensures store.activities == old(store.activities)
  {
    FindIsFirst(store.stakeholders, u.id);
    var existing := FindById(store.stakeholders, u.id);
    if existing.None? {
      MergedAll(store.stakeholders);
      return None;
    }
    var patch := MergePatch(existing.value, u, date);
    MergePatchForward(existing.value, u, date);
    if patch.HasFields() {
      ghost var before := store.stakeholders;
      ghost var k := FirstIndex(before, u.id).value;
      updated := store.UpdateStakeholder(u.id, patch);
      MergedAt(before, k, updated.value);
    } else {
      MergedAll(store.stakeholders);
      updated := None;
    }
  }

  /** Writing nothing merges every record into itself. */
  lemma MergedAll(ss: seq<Stakeholder>)
    ensures forall i :: 0 <= i < |ss| ==> Merged(ss[i], ss[i])
  {
    forall i | 0 <= i < |ss| ensures Merged(ss[i], ss[i]) {
      MergedRefl(ss[i]);
    }
  }

  /** Replacing one record by a merge of it keeps the identifiers, merges every record and
      leaves the records with other identifiers alone. */
  lemma MergedAt(ss: seq<Stakeholder>, k: nat, v: Stakeholder)
    requires k < |ss| && Merged(ss[k], v)
    ensures Ids(ss[k := v]) == Ids(ss)
    ensures forall i :: 0 <= i < |ss| ==> Merged(ss[i], ss[k := v][i])
    ensures forall i :: 0 <= i < |ss| && ss[k := v][i].id != v.id ==> ss[k := v][i] == ss[i]
    ensures ss[k := v][k] == v
  {
    MergedAll(ss);
  }

  /** The second loop as a fold: the records after the update entries, in order, and the
      updated records the result lists. */
  function Merges(ss: seq<Stakeholder>, us: seq<Update>, date: Day): (seq<Stakeholder>, seq<Stakeholder>)
    decreases |us|
  {
    if |us| == 0 then (ss, [])
    else
      var prev := Merges(ss, us[..|us| - 1], date);
      var step := AppliedTo(prev.0, us[|us| - 1], date);
      (step.0, prev.1 + (if step.1.Some? then [step.1.value] else []))
  }

  lemma MergesSnoc(ss: seq<Stakeholder>, us: seq<Update>, j: nat, date: Day)
    requires j < |us|
    ensures Merges(ss, us[..j + 1], date)
            == var prev := Merges(ss, us[..j], date);
               var step := AppliedTo(prev.0, us[j], date);
               (step.0, prev.1 + (if step.1.Some? then [step.1.value] else []))
  {
    assert us[..j + 1][..j] == us[..j];
  }

  /** The second loop, over the update entries. */
  method ApplyUpdates(store: Store, us: seq<Update>, date: Day) returns (updated: seq<Stakeholder>)
    modifies store
    ensures (store.stakeholders, updated) == Merges(old(store.stakeholders), us, date)
    ensures Ids(store.stakeholders) == Ids(old(store.stakeholders))
    ensures forall i :: 0 <= i < |store.stakeholders| ==> Merged(old(store.stakeholders)[i], store.stakeholders[i])
    ensures forall i :: 0 <= i < |store.stakeholders| && store.stakeholders[i].id !in UpdateIds(us) ==>
              store.stakeholders[i] == old(store.stakeholders)[i]
    ensures store.activities == old(store.activities)
    ensures |updated| <= |us| && forall s :: s in updated ==> s.id in UpdateIds(us)
  {
    updated := [];
    ghost var start := store.stakeholders;
    ghost var acts := store.activities;
    var j := 0;
    while j < |us|
      invariant 0 <= j <= |us|
      invariant (store.stakeholders, updated) == Merges(start, us[..j], date)
      invariant store.activities == acts
    {
      updated := ApplyStep(store, us, j, date, start, updated);
      j := j + 1;
    }
    assert us[..j] == us;
    MergesMeaning(start, us, date);
  }

  /** The second loop's body for update entry j. */
  method ApplyStep(store: Store, us: seq<Update>, j: nat, date: Day, ghost start: seq<Stakeholder>,
                   updated: seq<Stakeholder>)
    returns (updated': seq<Stakeholder>)
    requires j < |us| && (store.stakeholders, updated) == Merges(start, us[..j], date)
    modifies store
    ensures (store.stakeholders, updated') == Merges(start, us[..j + 1], date)
    ensures store.activities == old(store.activities)
  {
    MergesSnoc(start, us, j, date);
    ghost var prev := Merges(start, us[..j], date);
    assert prev.0 == store.stakeholders && prev.1 == updated;
    var r := ApplyUpdate(store, us[j], date);
    ghost var step := AppliedTo(prev.0, us[j], date);
    assert step.0 == store.stakeholders && step.1 == r;
    updated' := updated;
    if r.Some? {
      updated' := updated + [r.value];
    }
    assert Merges(start, us[..j + 1], date) == (step.0, prev.1 + (if step.1.Some? then [step.1.value] else []));
    assert updated' == prev.1 + (if step.1.Some? then [step.1.value] else []);
    assert (store.stakeholders, updated') == (step.0, prev.1 + (if step.1.Some? then [step.1.value] else []));
  }

  /** One update entry keeps the identifiers, merges every record forward and touches
      only records carrying its identifier; the updated record is in the result. */
  lemma AppliedToMeaning(ss: seq<Stakeholder>, u: Update, date: Day)
    ensures var (after, r) := AppliedTo(ss, u, date);
            Ids(after) == Ids(ss)
            && (forall i :: 0 <= i < |ss| ==> Merged(ss[i], after[i]))
            && (forall i :: 0 <= i < |ss| && after[i].id != u.id ==> after[i] == ss[i])
            && (r.Some? ==> r.value.id == u.id && r.value in after)
  {
    MergedAll(ss);
    match FirstIndex(ss, u.id)
    case None =>
    case Some(k) =>
      MergePatchForward(ss[k], u, date);
      if MergePatch(ss[k], u, date).HasFields() {
        MergedAt(ss, k, Overlay(ss[k], MergePatch(ss[k], u, date), u.id));
      }
  }

  /** What the update loop keeps after the entries `us`, from records `ss`. */
  ghost predicate MergeKept(ss: seq<Stakeholder>, us: seq<Update>, after: seq<Stakeholder>, updated: seq<Stakeholder>) {
    Ids(after) == Ids(ss)
    && (forall i :: 0 <= i < |ss| ==> Merged(ss[i], after[i]))
    && (forall i :: 0 <= i < |ss| && after[i].id !in UpdateIds(us) ==> after[i] == ss[i])
    && |updated| <= |us| && (forall s :: s in updated ==> s.id in UpdateIds(us))
  }

  /** The update loop keeps the identifiers, merges every record forward, touches only
      records named by an entry, and lists at most one updated record per entry, each
      named by an entry. */
  lemma {:induction false} MergesMeaning(ss: seq<Stakeholder>, us: seq<Update>, date: Day)
    ensures MergeKept(ss, us, Merges(ss, us, date).0, Merges(ss, us, date).1)
    decreases |us|
  {
    if |us| == 0 {
      MergedAll(ss);
    } else {
      var init := us[..|us| - 1];
      MergesMeaning(ss, init, date);
      MergeStepKept(ss, init, us[|us| - 1], date, Merges(ss, init, date).0, Merges(ss, init, date).1);
      assert init + [us[|us| - 1]] == us;
    }
  }

  lemma MergeStepKept(ss: seq<Stakeholder>, init: seq<Update>, u: Update, date: Day,
                      mid: seq<Stakeholder>, upd: seq<Stakeholder>)
    requires MergeKept(ss, init, mid, upd)
    ensures var step := AppliedTo(mid, u, date);
            MergeKept(ss, init + [u], step.0, upd + (if step.1.Some? then [step.1.value] else []))
  {
    AppliedToMeaning(mid, u, date);
    var step := AppliedTo(mid, u, date);
    var after := step.0;
    assert UpdateIds(init + [u]) == UpdateIds(init) + [u.id];
    forall i | 0 <= i < |ss|
      ensures Merged(ss[i], after[i])
    {
      MergedTrans(ss[i], mid[i], after[i]);
    }
  }

  /** handleConfirm: a missing payload is refused before any write; otherwise the new
      people are created (last contact = the activity's date), the updates merged into
      existing records without moving a date back or losing a tag, and one activity is
      logged for the collected participants, its summary tagged "[Smart Import] ". */
  method HandleConfirm(store: Store, payload: Option<ConfirmPayload>) returns (r: Result<ConfirmResult, Failure>)
    modifies store
    ensures payload.None? ==>
              r == Err(Failure(400, NO_PAYLOAD))
              && store.stakeholders == old(store.stakeholders) && store.activities == old(store.activities)
    ensures payload.Some? ==> r.Ok?
    ensures r.Ok? ==>
              var p := payload.value;
              var created := r.value.createdStakeholders;
              |store.stakeholders| == |old(store.stakeholders)| + |created|
              && Ids(store.stakeholders) == Ids(old(store.stakeholders)) + Ids(created)
              && |created| == |NewEntries(p.stakeholders)|
              && (forall k :: 0 <= k < |created| ==>
                    created[k] == DraftOf(NewEntries(p.stakeholders)[k], p.activity.date).(id := created[k].id))
              && (forall i :: 0 <= i < |old(store.stakeholders)| ==>
                    Merged(old(store.stakeholders)[i], store.stakeholders[i]))
              && (UniqueIds(old(store.stakeholders)) ==> UniqueIds(store.stakeholders))
              && (store.stakeholders, r.value.updatedStakeholders)
                 == Merges(old(store.stakeholders) + created, p.stakeholderUpdates.GetOr([]), p.activity.date)
              && store.activities == old(store.activities) + [r.value.createdActivity]
              && r.value.createdActivity
                 == Activity(NextId(ActivityIds(old(store.activities)), 'a'), p.activity.date,
                             ObjectValues(IdMap(p.stakeholders, Ids(created))), p.activity.kind,
                             "[Smart Import] " + p.activity.summary)
  {
    if payload.None? {
      return Err(Failure(400, NO_PAYLOAD));
    }
    var p := payload.value;
    var created, idMap := CreateNew(store, p.stakeholders, p.activity.date);
    ghost var afterCreate := store.stakeholders;
    var updated := [];
    if p.stakeholderUpdates.Some? {
      updated := ApplyUpdates(store, p.stakeholderUpdates.value, p.activity.date);
    }
    assert (store.stakeholders, updated) == Merges(afterCreate, p.stakeholderUpdates.GetOr([]), p.activity.date);
    IdsAppend(old(store.stakeholders), created);
    forall i | 0 <= i < |old(store.stakeholders)|
      ensures Merged(old(store.stakeholders)[i], store.stakeholders[i])
    {
      assert afterCreate[i] == old(store.stakeholders)[i];
      MergedRefl(afterCreate[i]);
    }
    if UniqueIds(old(store.stakeholders)) {
      assert forall i :: 0 <= i < |store.stakeholders| ==> store.stakeholders[i].id == Ids(afterCreate)[i];
    }
    var activity := store.AddActivity(Activity("", p.activity.date, ObjectValues(idMap), p.activity.kind,
                                                "[Smart Import] " + p.activity.summary));
    r := Ok(ConfirmResult(created, updated, activity));
  }
}
