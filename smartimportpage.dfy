/** app/smart-import/page.tsx: the page's state and its handlers. The fetch to the
    smart-import route is a parameter: the route's answer (an error message or the data)
    or None when the request itself failed. Loading flags and expanded sections are
    presentation and are not kept. */
module SmartImportPage {
  import opened Wrappers
  import opened Text
  import opened Domain
  import opened SmartImport

  /** The page's own error messages. */
  const PASTE_CONTENT: string := "Please paste a transcript or email content to analyze."
  const ANALYZE_FAILED: string := "Failed to analyze content. Please check your API key."
  const IMPORT_FAILED: string := "Failed to import data. Please try again."

  /** The people of a parse result, for the selection handlers; a result without the
      list selects no row. (The render and handleConfirm do not tolerate the missing
      list: see Page.Renders and Page.Confirm.) */
  function Listed(pr: ParseResult): seq<Extracted> {
    if pr.stakeholders.Some? then pr.stakeholders.value else []
  }

  predicate IsSelected(sel: map<nat, bool>, i: nat) {
    i in sel && sel[i]
  }

  /** parseResult.stakeholders.filter((_, i) => selectedStakeholders[i]) */
  function SelectedList(es: seq<Extracted>, sel: map<nat, bool>): (r: seq<Extracted>)
    ensures |r| <= |es|
    ensures forall x :: x in r ==> x in es
  {
    if |es| == 0 then []
    else
      var init := SelectedList(es[..|es| - 1], sel);
      if IsSelected(sel, |es| - 1) then init + [es[|es| - 1]] else init
  }

  /** The filter keeps exactly the rows whose checkbox is ticked, one element per such
      row. */
  lemma {:induction false} SelectedListMeaning(es: seq<Extracted>, sel: map<nat, bool>)
    ensures |SelectedList(es, sel)| == |SelectedBelow(sel, |es|)|
    ensures forall x :: x in SelectedList(es, sel) <==> exists i :: 0 <= i < |es| && IsSelected(sel, i) && es[i] == x
  {
    if |es| > 0 {
      var n := |es| - 1;
      var init := es[..n];
      SelectedListMeaning(init, sel);
      assert forall i :: 0 <= i < n ==> init[i] == es[i];
      if IsSelected(sel, n) {
        assert SelectedBelow(sel, n + 1) == SelectedBelow(sel, n) + {n};
        assert n !in SelectedBelow(sel, n);
      } else {
        assert SelectedBelow(sel, n + 1) == SelectedBelow(sel, n);
      }
    }
  }

  /** The people the update list keeps: `existing`, with a non-empty matched id. */
  predicate Updatable(s: Extracted) {
    s.matchStatus == Some(Existing) && s.matchedStakeholderId.Some? && s.matchedStakeholderId.value != ""
  }

  /** The update entry for one such person, dated the edited activity's day. */
  function UpdateFor(s: Extracted, date: Day): Update
    requires s.matchedStakeholderId.Some?
  {
    Update(s.matchedStakeholderId.value, s.keyPriorities, Some(s.relationshipStrength), s.notes, Some(date))
  }

  /** The update entries the page sends: one per selected `existing` person with a matched
      id, carrying the edited activity's date as the last contact. */
  function UpdatesOf(es: seq<Extracted>, date: Day): (r: seq<Update>)
    ensures |r| <= |es|
  {
    if |es| == 0 then []
    else
      var init := UpdatesOf(es[..|es| - 1], date);
      var s := es[|es| - 1];
      if Updatable(s) then init + [UpdateFor(s, date)] else init
  }

  /** Every update entry comes from a selected `existing` person with a matched id, under
      that id, and dates the contact on the activity's day; and every such person has
      their entry. */
  lemma {:induction false} UpdatesOfMeaning(es: seq<Extracted>, date: Day)
    ensures forall u :: u in UpdatesOf(es, date) ==>
              u.lastContactDate == Some(date)
              && exists s :: s in es && s.matchStatus == Some(Existing) && s.matchedStakeholderId == Some(u.id)
                             && u.id != "" && u.keyPriorities == s.keyPriorities && u.notes == s.notes
    ensures forall s :: s in es && Updatable(s) ==> UpdateFor(s, date) in UpdatesOf(es, date)
  {
    if |es| > 0 {
      var init := es[..|es| - 1];
      UpdatesOfMeaning(init, date);
      assert forall x :: x in init ==> x in es;
      assert es == init + [es[|es| - 1]];
    }
  }

  /** The number of people selected with the given status. */
  function CountStatus(es: seq<Extracted>, sel: map<nat, bool>, status: MatchStatus): (n: nat)
    ensures n <= |es|
  {
    if |es| == 0 then 0
    else
      CountStatus(es[..|es| - 1], sel, status)
      + (if IsSelected(sel, |es| - 1) && es[|es| - 1].matchStatus == Some(status) then 1 else 0)
  }

  /** The count is the number of ticked rows whose person has that status. */
  lemma {:induction false} CountStatusMeaning(es: seq<Extracted>, sel: map<nat, bool>, status: MatchStatus)
    ensures CountStatus(es, sel, status)
            == |set i | 0 <= i < |es| && IsSelected(sel, i) && es[i].matchStatus == Some(status)|
  {
    if |es| > 0 {
      var n := |es| - 1;
      var init := es[..n];
      CountStatusMeaning(init, sel, status);
      var below := set i | 0 <= i < n && IsSelected(sel, i) && init[i].matchStatus == Some(status);
      var all := set i | 0 <= i < |es| && IsSelected(sel, i) && es[i].matchStatus == Some(status);
      assert forall i :: 0 <= i < n ==> init[i] == es[i];
      if IsSelected(sel, n) && es[n].matchStatus == Some(status) {
        assert all == below + {n};
        assert n !in below;
      } else {
        assert all == below;
      }
    }
  }

  /** The rows whose checkbox is ticked. */
  function Chosen(sel: map<nat, bool>): set<nat> {
    set i | i in sel && sel[i]
  }

  /** The selected rows among the first n. */
  function SelectedBelow(sel: map<nat, bool>, n: nat): set<nat> {
    set i | i in sel && i < n && sel[i]
  }

  /** newCount + existingCount never exceeds the number of selected rows. */
  lemma {:induction false} CountsWithinSelection(es: seq<Extracted>, sel: map<nat, bool>)
    ensures CountStatus(es, sel, New) + CountStatus(es, sel, Existing) <= |SelectedBelow(sel, |es|)|
  {
    if |es| > 0 {
      var n := |es| - 1;
      CountsWithinSelection(es[..n], sel);
      assert es[..|es|][..n] == es[..n];
      if IsSelected(sel, n) {
        assert SelectedBelow(sel, n + 1) == SelectedBelow(sel, n) + {n};
        assert n !in SelectedBelow(sel, n);
      } else {
        assert SelectedBelow(sel, n + 1) == SelectedBelow(sel, n);
      }
    }
  }

  /** Every row selected: what a successful analysis sets. */
  function SelectAll(n: nat): (sel: map<nat, bool>)
    ensures forall i: nat :: i in sel <==> i < n
    ensures forall i :: i in sel ==> sel[i]
  {
    if n == 0 then map[]
    else
      var prev := SelectAll(n - 1);
      var k: nat := n - 1;
      assert forall i :: i in prev[k := true] <==> i in prev || i == k;
      prev[k := true]
  }

  class Page {
    var transcript: string
    var sourceType: ActivityType
    var error: Option<string>
    var parseResult: Option<ParseResult>
    var selected: map<nat, bool>
    var editedActivity: Option<ProposedActivity>
    var importResult: Option<ConfirmResult>

    /** Selection keys only name rows of the current result. */
    predicate Valid()
      reads this
    {
      parseResult.Some? ==> forall i :: i in selected ==> i < |Listed(parseResult.value)|
    }

    /** The initial state: empty transcript, Meeting, nothing parsed. */
    constructor ()
      ensures transcript == "" && sourceType == Meeting && error.None? && parseResult.None?
      ensures selected == map[] && editedActivity.None? && importResult.None?
      ensures Valid()
    {
      transcript := "";
      sourceType := Meeting;
      error := None;
      parseResult := None;
      selected := map[];
      editedActivity := None;
      importResult := None;
    }

    /** Object.values(selectedStakeholders).filter(Boolean).length */
    function SelectedCount(): nat
      reads this
    {
      |Chosen(selected)|
    }

    /** The render reads parseResult.stakeholders.filter and .length whenever there is a
        result, so a result without the list makes it throw. */
    predicate Renders()
      reads this
    {
      parseResult.None? || parseResult.value.stakeholders.Some?
    }

    /** newCount and existingCount, zero without a result. */
    function NewCount(): nat
      reads this
      requires Renders()
    {
      if parseResult.None? then 0 else CountStatus(parseResult.value.stakeholders.value, selected, New)
    }

    function ExistingCount(): nat
      reads this
      requires Renders()
    {
      if parseResult.None? then 0 else CountStatus(parseResult.value.stakeholders.value, selected, Existing)
    }

    /** The counts shown above the list never exceed the selection. */
    lemma CountsBounded()
      requires Valid() && Renders()
      ensures NewCount() + ExistingCount() <= SelectedCount()
    {
      if parseResult.Some? {
        var es := Listed(parseResult.value);
        CountsWithinSelection(es, selected);
        assert SelectedBelow(selected, |es|) == Chosen(selected) by {
          forall i | i in selected && selected[i] ensures i in SelectedBelow(selected, |es|) {
            assert i < |es|;
          }
        }
      }
    }

    /** The confirm button is disabled with nothing selected. */
    function ConfirmEnabled(): bool
      reads this
    {
      SelectedCount() > 0
    }

    method SetTranscript(text: string)
      modifies this
      requires Valid()
      ensures transcript == text && Valid()
      ensures parseResult == old(parseResult) && selected == old(selected) && error == old(error)
      ensures editedActivity == old(editedActivity) && importResult == old(importResult)
      ensures sourceType == old(sourceType)
    {
      transcript := text;
    }

    /** handleAnalyze. A blank transcript only sets an error and sends nothing; otherwise
        the trimmed transcript is sent, the previous results are cleared, and a successful
        answer selects every extracted person and, when it proposes one, becomes the
        editable activity (a previous edit otherwise stays). Returns what was sent. */
    method Analyze(answer: Option<Result<ParseResult, string>>) returns (sent: Option<string>)
      modifies this
      requires Valid()
      ensures Valid()
      ensures Trim(old(transcript)) == "" <==> sent.None?
      ensures sent.None? ==>
                error == Some(PASTE_CONTENT)
                && parseResult == old(parseResult) && selected == old(selected)
                && editedActivity == old(editedActivity) && importResult == old(importResult)
      ensures sent.Some? ==> sent.value == Trim(old(transcript)) && importResult.None?
      ensures sent.Some? && answer.None? ==>
                error == Some(ANALYZE_FAILED) && parseResult.None?
      ensures sent.Some? && answer.Some? && answer.value.Err? ==>
                error == Some(answer.value.error) && parseResult.None?
      ensures sent.Some? && (answer.None? || answer.value.Err?) ==>
                selected == old(selected) && editedActivity == old(editedActivity)
      ensures sent.Some? && answer.Some? && answer.value.Ok? ==>
                var data := answer.value.value;
                error.None? && parseResult == Some(data)
                && (forall i: nat :: IsSelected(selected, i) <==> i < |Listed(data)|)
                && editedActivity == (if data.proposedActivity.Some? then data.proposedActivity else old(editedActivity))
      ensures transcript == old(transcript) && sourceType == old(sourceType)
    {
      if Trim(transcript) == "" {
        error := Some(PASTE_CONTENT);
        return None;
      }
      sent := Some(Trim(transcript));
      Receive(answer);
    }

    /** The second half of handleAnalyze: the previous results are cleared and the answer
        recorded, an error message, or the data with every person selected and its
        proposed activity (when there is one) as the editable activity. */
    method Receive(answer: Option<Result<ParseResult, string>>)
      modifies this
      requires Valid()
      ensures Valid()
      ensures importResult.None?
      ensures answer.None? ==>
                error == Some(ANALYZE_FAILED) && parseResult.None?
      ensures answer.Some? && answer.value.Err? ==> error == Some(answer.value.error) && parseResult.None?
      ensures answer.None? || answer.value.Err? ==>
                selected == old(selected) && editedActivity == old(editedActivity)
      ensures answer.Some? && answer.value.Ok? ==>
                var data := answer.value.value;
                error.None? && parseResult == Some(data)
                && (forall i: nat :: IsSelected(selected, i) <==> i < |Listed(data)|)
                && editedActivity == (if data.proposedActivity.Some? then data.proposedActivity else old(editedActivity))
      ensures transcript == old(transcript) && sourceType == old(sourceType)
    {
      error := None;
      parseResult := None;
      importResult := None;
      match answer
      case None =>
        error := Some(ANALYZE_FAILED);
      case Some(Err(message)) =>
        error := Some(message);
      case Some(Ok(data)) =>
        parseResult := Some(data);
        selected := SelectAll(|Listed(data)|);
        if data.proposedActivity.Some? {
          editedActivity := data.proposedActivity;
        }
    }

    /** The payload handleConfirm sends; None when there is no result or no activity, or
        when the result has no list (the filter throws before the request). */
    function Payload(): (p: Option<ConfirmPayload>)
      reads this
      ensures p.Some? <==> parseResult.Some? && editedActivity.Some? && parseResult.value.stakeholders.Some?
      ensures p.Some? ==>
                p.value.activity == editedActivity.value
                && |p.value.stakeholders| == |SelectedBelow(selected, |parseResult.value.stakeholders.value|)|
                && (forall x :: x in p.value.stakeholders <==>
                      exists i :: 0 <= i < |parseResult.value.stakeholders.value| && IsSelected(selected, i)
                                  && parseResult.value.stakeholders.value[i] == x)
                && p.value.stakeholderUpdates == Some(UpdatesOf(p.value.stakeholders, editedActivity.value.date))
    {
      if parseResult.None? || editedActivity.None? || parseResult.value.stakeholders.None? then None
      else
        var chosen := SelectedList(parseResult.value.stakeholders.value, selected);
        SelectedListMeaning(parseResult.value.stakeholders.value, selected);
        Some(ConfirmPayload(chosen, editedActivity.value, Some(UpdatesOf(chosen, editedActivity.value.date))))
    }

    /** handleConfirm: a no-op without a result or an edited activity; otherwise the error
        is cleared and the payload sent and the answer recorded, or, for a result without
        the list, the filter throws and the catch shows the import failure. */
    method Confirm(answer: Option<Result<ConfirmResult, string>>) returns (sent: Option<ConfirmPayload>)
      modifies this
      requires Valid()
      ensures Valid()
      ensures sent == old(Payload())
      ensures old(parseResult).None? || old(editedActivity).None? ==>
                error == old(error) && importResult == old(importResult)
      ensures old(parseResult).Some? && old(editedActivity).Some? && sent.None? ==>
                error == Some(IMPORT_FAILED) && importResult == old(importResult)
      ensures sent.Some? && answer.None? ==> error == Some(IMPORT_FAILED)
      ensures sent.Some? && answer.Some? && answer.value.Err? ==> error == Some(answer.value.error)
      ensures sent.Some? && answer.Some? && answer.value.Ok? ==>
                error.None? && importResult == Some(answer.value.value)
      ensures sent.Some? && !(answer.Some? && answer.value.Ok?) ==> importResult == old(importResult)
      ensures transcript == old(transcript) && parseResult == old(parseResult) && selected == old(selected)
      ensures editedActivity == old(editedActivity) && sourceType == old(sourceType)
    {
      if parseResult.None? || editedActivity.None? {
        return None;
      }
      error := None;
      sent := Payload();
      if sent.None? {
        error := Some(IMPORT_FAILED);
        return;
      }
      match answer
      case None =>
        error := Some(IMPORT_FAILED);
      case Some(Err(message)) =>
        error := Some(message);
      case Some(Ok(data)) =>
        importResult := Some(data);
    }

    /** handleReset */
    method Reset()
      modifies this
      ensures transcript == "" && parseResult.None? && importResult.None? && editedActivity.None?
      ensures selected == map[] && error.None? && sourceType == old(sourceType)
      ensures Valid()
    {
      transcript := "";
      parseResult := None;
      importResult := None;
      editedActivity := None;
      selected := map[];
      error := None;
    }

    /** The checkbox of row i flips that row alone. */
    method Toggle(i: nat)
      modifies this
      requires Valid() && parseResult.Some? && i < |Listed(parseResult.value)|
      ensures Valid()
      ensures IsSelected(selected, i) == !IsSelected(old(selected), i)
      ensures forall j :: j != i ==> IsSelected(selected, j) == IsSelected(old(selected), j)
      ensures transcript == old(transcript) && parseResult == old(parseResult) && error == old(error)
      ensures editedActivity == old(editedActivity) && importResult == old(importResult)
    {
      selected := selected[i := !IsSelected(selected, i)];
    }

    /** Editing a field of the proposed activity; nothing to edit without one. */
    method EditActivity(date: Day, kind: ActivityType, summary: string)
      modifies this
      requires Valid()
      ensures Valid()
      ensures editedActivity == if old(editedActivity).Some? then Some(ProposedActivity(date, kind, summary)) else None
      ensures transcript == old(transcript) && parseResult == old(parseResult) && selected == old(selected)
      ensures error == old(error) && importResult == old(importResult)
    {
      if editedActivity.Some? {
        editedActivity := Some(ProposedActivity(date, kind, summary));
      }
    }
  }

  /** With every row selected after an analysis, the selection count is the number of
      extracted people. */
  lemma {:induction false} SelectAllCount(n: nat)
    ensures |Chosen(SelectAll(n))| == n
  {
    if n > 0 {
      SelectAllCount(n - 1);
      assert Chosen(SelectAll(n)) == Chosen(SelectAll(n - 1)) + {n - 1};
    } else {
      assert Chosen(SelectAll(0)) == {};
    }
  }
}
