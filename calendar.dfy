/** lib/integrations/calendar.ts: syncCalendar over the events the API listed, and
    detectMeetingGaps. Like the Gmail sync, the calendar sync reads the stakeholders and
    activities once; unlike it, the stakeholders it creates join its working list, so a
    later attendee can resolve to one of them. */
module CalendarSync {
  import opened Wrappers
  import opened Text
  import opened Domain
  import opened Utils
  import opened DataStore
  import opened Matching
  import opened Sorting

  /** An attendee as listed ("" for a missing display name or email). */
  datatype RawAttendee = RawAttendee(displayName: string, email: string)

  /** An event as listed: the start is None when it has neither dateTime nor date, and
      otherwise the day before its "T". */
  datatype RawEvent = RawEvent(
    id: string, summary: string, start: Option<Day>, attendees: seq<RawAttendee>, location: string)

  datatype Attendee = Attendee(name: string, email: string)

  /** The CalendarEvent record (end, description and response status are never read). */
  datatype CalendarEvent = CalendarEvent(
    id: string, summary: string, start: Day, attendees: seq<Attendee>, location: string)

  /** displayName || email.split("@")[0] || "Unknown": never empty. */
  function AttendeeOf(a: RawAttendee): (r: Attendee)
    ensures r.email == a.email && r.name != ""
    ensures a.displayName != "" ==> r.name == a.displayName
  {
    var local := Split(a.email, '@')[0];
    var name := if a.displayName != "" then a.displayName else if local != "" then local else "Unknown";
    Attendee(name, a.email)
  }

  function EventOf(e: RawEvent): (r: CalendarEvent)
    requires e.start.Some?
    ensures r.start == e.start.value && r.summary != ""
    ensures |r.attendees| == |e.attendees|
  {
    CalendarEvent(
      e.id, if e.summary == "" then "Untitled" else e.summary, e.start.value,
      seq(|e.attendees|, i requires 0 <= i < |e.attendees| => AttendeeOf(e.attendees[i])),
      e.location)
  }

  /** The events that have a start, in order. */
  function Started(events: seq<RawEvent>): (r: seq<RawEvent>)
    ensures |r| <= |events|
    ensures forall e :: e in r <==> e in events && e.start.Some?
  {
    if |events| == 0 then []
    else
      var rest := Started(events[..|events| - 1]);
      var last := events[|events| - 1];
      assert forall e :: e in events <==> e in events[..|events| - 1] || e == last by {
        assert events == events[..|events| - 1] + [last];
      }
      if last.start.Some? then rest + [last] else rest
  }

  /** The calendarEvents list: the listed events that have a start, read in order. */
  function CalendarEvents(events: seq<RawEvent>): seq<CalendarEvent> {
    seq(|Started(events)|, i requires 0 <= i < |Started(events)| => EventOf(Started(events)[i]))
  }

  /** The loop that builds calendarEvents, skipping events without a start. */
  method ReadEvents(events: seq<RawEvent>) returns (r: seq<CalendarEvent>)
    ensures |r| == |Started(events)|
    ensures forall i :: 0 <= i < |r| ==> r[i] == EventOf(Started(events)[i])
    ensures r == CalendarEvents(events)
  {
    r := [];
    var k := 0;
    while k < |events|
      invariant 0 <= k <= |events|
      invariant |r| == |Started(events[..k])|
      invariant forall i :: 0 <= i < |r| ==> r[i] == EventOf(Started(events[..k])[i])
    {
      StartedSnoc(events, k);
      if events[k].start.Some? {
        ghost var before := Started(events[..k]);
        assert forall i :: 0 <= i < |before| ==> Started(events[..k + 1])[i] == before[i];
        r := r + [EventOf(events[k])];
      }
      k := k + 1;
    }
    assert events[..k] == events;
  }

  lemma StartedSnoc(events: seq<RawEvent>, k: nat)
    requires k < |events|
    ensures Started(events[..k + 1])
            == if events[k].start.Some? then Started(events[..k]) + [events[k]] else Started(events[..k])
  {
    assert events[..k + 1][..k] == events[..k];
  }

  // ---------------------------------------------------------------- stakeholders

  /** new Date(event.start) <= new Date(): the event's midnight is not after `now`. */
  predicate IsPast(start: Day, now: int) {
    start * MS_PER_DAY <= now
  }

  /** The opening of an auto-created stakeholder's notes. */
  const FIRST_SEEN: string := "Auto-detected from Google Calendar. First seen in meeting: \""

  /** The record addStakeholder receives for an unknown attendee of the account. */
  function NewAttendee(a: Attendee, event: CalendarEvent): Stakeholder {
    Stakeholder(
      "", a.name, "Unknown", "Unknown", Influencer, P2, Some(event.start), Unknown, [],
      FIRST_SEEN + event.summary + "\"",
      Some(a.email), None)
  }

  /** The fields of an auto-created stakeholder that the sync never rewrites. */
  predicate CreatedShape(s: Stakeholder) {
    s.title == "Unknown" && s.team == "Unknown" && s.role == Influencer && s.priority == P2
    && s.relationshipStrength == Unknown && s.keyPriorities == [] && s.reportsTo.None?
  }

  // ---------------------------------------------------------------- one attendee

  /** The attendees the loop passes over: no email, or a room resource. */
  predicate Skipped(a: Attendee) {
    a.email == "" || Contains(a.email, "resource.calendar")
  }

  /** email.split("@")[1] names one of the account's domains; without an "@" the domain
      is undefined and the test is falsy. */
  predicate AccountAttendee(a: Attendee) {
    var parts := Split(a.email, '@');
    |parts| >= 2 && IsAccountDomain(parts[1])
  }

  /** The record addStakeholder stores for an unknown attendee of the account, given the
      store's records at that moment. */
  function CreatedFor(a: Attendee, event: CalendarEvent, ss: seq<Stakeholder>): Stakeholder {
    NewAttendee(a, event).(id := NextId(Ids(ss), 's'))
  }

  function DatePatch(d: Day): Patch {
    NoChanges.(lastContactDate := Some(Some(d)))
  }

  function EmailPatch(e: string): Patch {
    NoChanges.(email := Some(e))
  }

  /** The date update is sent, and counted, for matched record m. */
  predicate Dated(m: Stakeholder, event: CalendarEvent, now: int) {
    IsPast(event.start, now) && IsLater(event.start, m.lastContactDate)
  }

  /** The updates sent for a matched attendee, in order: the event's date when the event
      is past and later than m's, then the attendee's email when the event is past and m
      has none. Both are judged on m, the record found in the working list, and are
      written to the store's record carrying m's identifier. */
  function Touch(ss: seq<Stakeholder>, m: Stakeholder, a: Attendee, event: CalendarEvent, now: int): seq<Stakeholder> {
    var dated := if Dated(m, event, now) then UpdateById(ss, m.id, DatePatch(event.start)) else ss;
    if IsPast(event.start, now) && LacksEmail(m) then UpdateById(dated, m.id, EmailPatch(a.email)) else dated
  }

  /** Rewriting a record under its own identifier moves no identifier. */
  lemma FirstIndexKept(ss: seq<Stakeholder>, k: nat, x: Stakeholder, id: string)
    requires k < |ss| && x.id == ss[k].id
    ensures FirstIndex(ss[k := x], id) == FirstIndex(ss, id)
  {
    var r1 := FirstIndex(ss, id);
    var r2 := FirstIndex(ss[k := x], id);
    assert forall j :: 0 <= j < |ss| ==> ss[k := x][j].id == ss[j].id;
  }

  /** The store's record with m's identifier gets the event's date when the event is past
      and later than m's date, and the attendee's email when the event is past and m has
      none; nothing else changes, and without such a record nothing changes at all. */
  lemma TouchEffect(ss: seq<Stakeholder>, m: Stakeholder, a: Attendee, event: CalendarEvent, now: int)
    ensures FirstIndex(ss, m.id).None? ==> Touch(ss, m, a, event, now) == ss
    ensures FirstIndex(ss, m.id).Some? ==>
              var k := FirstIndex(ss, m.id).value;
              Touch(ss, m, a, event, now)
              == ss[k := ss[k].(lastContactDate := if Dated(m, event, now) then Some(event.start) else ss[k].lastContactDate,
                                email := if IsPast(event.start, now) && LacksEmail(m) then Some(a.email) else ss[k].email)]
  {
    var dated := if Dated(m, event, now) then UpdateById(ss, m.id, DatePatch(event.start)) else ss;
    if FirstIndex(ss, m.id).Some? {
      var k := FirstIndex(ss, m.id).value;
      if Dated(m, event, now) {
        FirstIndexKept(ss, k, Overlay(ss[k], DatePatch(event.start), m.id), m.id);
        assert dated == ss[k := ss[k].(lastContactDate := Some(event.start))];
      }
      assert FirstIndex(dated, m.id) == Some(k);
    }
  }

  /** The attendee loop's state: the store's records, the working list, the identifiers
      matched so far and the contacts created and dates updated. */
  datatype Pass = Pass(stakeholders: seq<Stakeholder>, working: seq<Stakeholder>, matched: seq<string>,
                       created: nat, updated: nat)

  /** One attendee: passed over; matched in the working list and brought up to date; or,
      when unknown and of the account, created in the store and the working list and then
      brought up to date like a match; or, unknown and foreign, left alone. */
  function AttendeeStep(p: Pass, a: Attendee, event: CalendarEvent, now: int): Pass {
    if Skipped(a) then p
    else match MatchStakeholder(a.email, a.name, p.working)
      case Some(m) =>
        Pass(Touch(p.stakeholders, m, a, event, now), p.working, p.matched + [m.id],
             p.created, p.updated + (if Dated(m, event, now) then 1 else 0))
      case None =>
        if !AccountAttendee(a) then p
        else
          var s := CreatedFor(a, event, p.stakeholders);
          Pass(Touch(p.stakeholders + [s], s, a, event, now), p.working + [s], p.matched + [s.id],
               p.created + 1, p.updated + (if Dated(s, event, now) then 1 else 0))
  }

  /** A created attendee is matched and counted as new, and its record is left as
      created: its date is the event's and its email is the attendee's. */
  lemma AttendeeStepCreates(p: Pass, a: Attendee, event: CalendarEvent, now: int)
    requires !Skipped(a) && MatchStakeholder(a.email, a.name, p.working).None? && AccountAttendee(a)
    ensures var s := CreatedFor(a, event, p.stakeholders);
            AttendeeStep(p, a, event, now)
            == Pass(p.stakeholders + [s], p.working + [s], p.matched + [s.id], p.created + 1, p.updated)
            && s.id !in Ids(p.stakeholders) && CreatedShape(s)
  {
    var s := CreatedFor(a, event, p.stakeholders);
    NextIdFresh(Ids(p.stakeholders), 's');
    assert !Dated(s, event, now) && !LacksEmail(s);
  }

  /** The attendee loop over one event's attendees, in order. */
  function AttendeesPass(p: Pass, attendees: seq<Attendee>, event: CalendarEvent, now: int): Pass
    decreases |attendees|
  {
    if |attendees| == 0 then p
    else AttendeeStep(AttendeesPass(p, attendees[..|attendees| - 1], event, now), attendees[|attendees| - 1], event, now)
  }

  lemma AttendeesSnoc(p: Pass, attendees: seq<Attendee>, i: nat, event: CalendarEvent, now: int)
    requires i < |attendees|
    ensures AttendeesPass(p, attendees[..i + 1], event, now)
            == AttendeeStep(AttendeesPass(p, attendees[..i], event, now), attendees[i], event, now)
  {
    assert attendees[..i + 1][..i] == attendees[..i];
  }

  /** The attendee loop of one event, from the store's records and the working list. */
  function EventPass(ss: seq<Stakeholder>, working: seq<Stakeholder>, event: CalendarEvent, now: int): Pass {
    AttendeesPass(Pass(ss, working, [], 0, 0), event.attendees, event, now)
  }

  /** Resolve an attendee against the working list, creating the stakeholder when none
      matches and the email's domain is the account's. */
  method ResolveAttendee(store: Store, working: seq<Stakeholder>, a: Attendee, event: CalendarEvent)
    returns (working': seq<Stakeholder>, found: Option<Stakeholder>, created: bool)
    modifies store
    ensures created <==> MatchStakeholder(a.email, a.name, working).None? && AccountAttendee(a)
    ensures !created ==> found == MatchStakeholder(a.email, a.name, working)
                         && working' == working && store.stakeholders == old(store.stakeholders)
    ensures created ==> found == Some(CreatedFor(a, event, old(store.stakeholders)))
                        && store.stakeholders == old(store.stakeholders) + [found.value]
                        && working' == working + [found.value]
    ensures store.activities == old(store.activities)
  {
    working', created := working, false;
    found := MatchStakeholder(a.email, a.name, working);
    if found.None? {
      var parts := Split(a.email, '@');
      if |parts| >= 2 && IsAccountDomain(parts[1]) {
        var s := store.AddStakeholder(NewAttendee(a, event));
        working' := working + [s];
        found := Some(s);
        created := true;
      }
    }
  }

  /** For a past event: the event's date when later than the matched record's, then the
      attendee's email when that record has none (both judged on the matched record). */
  method TouchMatched(store: Store, m: Stakeholder, a: Attendee, event: CalendarEvent, now: int)
    returns (counted: bool)
    modifies store
    ensures store.stakeholders == Touch(old(store.stakeholders), m, a, event, now)
    ensures counted <==> Dated(m, event, now)
    ensures store.activities == old(store.activities)
  {
    counted := false;
    if IsPast(event.start, now) {
      if IsLater(event.start, m.lastContactDate) {
        var _ := store.UpdateStakeholder(m.id, DatePatch(event.start));
        counted := true;
      }
      if LacksEmail(m) {
        var _ := store.UpdateStakeholder(m.id, EmailPatch(a.email));
      }
    }
  }

  lemma InIds(ss: seq<Stakeholder>, s: Stakeholder)
    requires s in ss
    ensures s.id in Ids(ss)
  {
    var q :| 0 <= q < |ss| && ss[q] == s;
    assert Ids(ss)[q] == s.id;
  }

  /** One attendee of one event: the loop body, over the matched identifiers and the
      counts of the event. */
  method SyncAttendee(store: Store, working: seq<Stakeholder>, matchedIds: seq<string>, created: nat, updated: nat,
                      a: Attendee, event: CalendarEvent, now: int)
    returns (working': seq<Stakeholder>, matchedIds': seq<string>, created': nat, updated': nat)
    modifies store
    ensures Pass(store.stakeholders, working', matchedIds', created', updated')
            == AttendeeStep(Pass(old(store.stakeholders), working, matchedIds, created, updated), a, event, now)
    ensures store.activities == old(store.activities)
  {
    working', matchedIds', created', updated' := working, matchedIds, created, updated;
    if a.email == "" || Contains(a.email, "resource.calendar") {
      return;
    }
    var found, isNew;
    working', found, isNew := ResolveAttendee(store, working, a, event);
    if isNew {
      created' := created + 1;
    }
    if found.Some? {
      matchedIds' := matchedIds + [found.value.id];
      var counted := TouchMatched(store, found.value, a, event, now);
      if counted {
        updated' := updated + 1;
      }
    }
  }

  // ---------------------------------------------------------------- logging meetings

  /** existingActivities.find(a => a.date === date && a.type === "Meeting" &&
      ids.some(id => a.stakeholderIds.includes(id))) is truthy. */
  predicate SharedMeeting(existing: seq<Activity>, date: Day, ids: seq<string>) {
    exists a :: a in existing && a.date == date && a.kind == Meeting
                && exists x :: x in ids && x in a.stakeholderIds
  }

  /** The names of the stakeholders with these ids in the working list, dropping missing
      and empty ones (`.filter(Boolean)`). */
  function Names(ids: seq<string>, ss: seq<Stakeholder>): (r: seq<string>)
    ensures |r| <= |ids|
    ensures forall n :: n in r ==> n != ""
  {
    if |ids| == 0 then []
    else
      var rest := Names(ids[1..], ss);
      match FindById(ss, ids[0])
      case Some(s) => if s.name != "" then [s.name] + rest else rest
      case None => rest
  }

  function CalendarSummary(summary: string, names: string, location: string): string {
    "[Auto-logged from Calendar] " + summary
    + (if names != "" then " with " + names else "")
    + (if location != "" then " at " + location else "")
  }

  /** The meeting logged after an event's attendee loop, if any. */
  function EventLog(p: Pass, existing: seq<Activity>, event: CalendarEvent, now: int): Option<Activity> {
    if IsPast(event.start, now) && |p.matched| > 0 && !SharedMeeting(existing, event.start, p.matched) then
      Some(Activity("", event.start, p.matched, Meeting,
                    CalendarSummary(event.summary, Join(Names(p.matched, p.working), ", "), event.location)))
    else None
  }

  function Logged(log: Option<Activity>): seq<Activity> {
    if log.Some? then [log.value] else []
  }

  /** The attendee loop of one event, then the meeting it logs, if any. */
  method SyncEvent(store: Store, working: seq<Stakeholder>, existing: seq<Activity>, event: CalendarEvent, now: int)
    returns (working': seq<Stakeholder>, created: nat, updated: nat, logged: Option<Activity>)
    modifies store
    ensures store.stakeholders == EventPass(old(store.stakeholders), working, event, now).stakeholders
    ensures working' == EventPass(old(store.stakeholders), working, event, now).working
    ensures created == EventPass(old(store.stakeholders), working, event, now).created
    ensures updated == EventPass(old(store.stakeholders), working, event, now).updated
    ensures logged == EventLog(EventPass(old(store.stakeholders), working, event, now), existing, event, now)
    ensures store.activities == Appended(old(store.activities), Logged(logged))
  {
    ghost var p0 := Pass(store.stakeholders, working, [], 0, 0);
    working', created, updated, logged := working, 0, 0, None;
    var matchedIds: seq<string> := [];
    var i := 0;
    while i < |event.attendees|
      invariant 0 <= i <= |event.attendees|
      invariant Pass(store.stakeholders, working', matchedIds, created, updated)
                == AttendeesPass(p0, event.attendees[..i], event, now)
      invariant store.activities == old(store.activities)
    {
      AttendeesSnoc(p0, event.attendees, i, event, now);
      working', matchedIds, created, updated :=
        SyncAttendee(store, working', matchedIds, created, updated, event.attendees[i], event, now);
      i := i + 1;
    }
    assert event.attendees[..i] == event.attendees;
    if IsPast(event.start, now) && |matchedIds| > 0 && !SharedMeeting(existing, event.start, matchedIds) {
      var names := Join(Names(matchedIds, working'), ", ");
      var draft := Activity("", event.start, matchedIds, Meeting, CalendarSummary(event.summary, names, event.location));
      var _ := store.AddActivity(draft);
      logged := Some(draft);
    }
  }

  // ---------------------------------------------------------------- the run

  /** The sync's state between events: the store's records, the working list, the
      meetings logged so far and the counts. */
  datatype Run = Run(stakeholders: seq<Stakeholder>, working: seq<Stakeholder>, logs: seq<Activity>, counts: SyncCounts)

  function EventRun(r: Run, existing: seq<Activity>, event: CalendarEvent, now: int): Run {
    var p := EventPass(r.stakeholders, r.working, event, now);
    var log := Logged(EventLog(p, existing, event, now));
    Run(p.stakeholders, p.working, r.logs + log, AddCounts(r.counts, p.created, |log|, p.updated))
  }

  /** The result's counters after one event's increments. */
  function AddCounts(c: SyncCounts, created: nat, logged: nat, updated: nat): SyncCounts {
    SyncCounts(c.newContacts + created, c.newActivities + logged, c.updatedStakeholders + updated)
  }

  /** The loop over the events, in order. */
  function EventsRun(r: Run, existing: seq<Activity>, events: seq<CalendarEvent>, now: int): Run
    decreases |events|
  {
    if |events| == 0 then r
    else EventRun(EventsRun(r, existing, events[..|events| - 1], now), existing, events[|events| - 1], now)
  }

  lemma EventsSnoc(r: Run, existing: seq<Activity>, events: seq<CalendarEvent>, i: nat, now: int)
    requires i < |events|
    ensures EventsRun(r, existing, events[..i + 1], now) == EventRun(EventsRun(r, existing, events[..i], now), existing, events[i], now)
  {
    assert events[..i + 1][..i] == events[..i];
  }

  /** syncCalendar from the records and activities read at the start: the working list
      starts as the records, and the activities read are the ones duplicates are judged
      against. */
  function CalendarRun(before: seq<Stakeholder>, existing: seq<Activity>, events: seq<CalendarEvent>, now: int): Run {
    EventsRun(Run(before, before, [], SyncCounts(0, 0, 0)), existing, events, now)
  }

  /** One event of the loop over the read events, adding to the run's counts. */
  method RunEvent(store: Store, working: seq<Stakeholder>, existing: seq<Activity>, event: CalendarEvent, now: int,
                  counts: SyncCounts, ghost logs: seq<Activity>)
    returns (working': seq<Stakeholder>, counts': SyncCounts, ghost logs': seq<Activity>)
    requires store.activities == Appended(existing, logs)
    modifies store
    ensures Run(store.stakeholders, working', logs', counts')
            == EventRun(Run(old(store.stakeholders), working, logs, counts), existing, event, now)
    ensures store.activities == Appended(existing, logs')
  {
    var created, updated, logged;
    working', created, updated, logged := SyncEvent(store, working, existing, event, now);
    AppendedConcat(existing, logs, Logged(logged));
    logs' := logs + Logged(logged);
    counts' := AddCounts(counts, created, |Logged(logged)|, updated);
  }

  /** The loop over the read events. */
  method SyncEvents(store: Store, events: seq<CalendarEvent>, now: int) returns (r: SyncCounts)
    modifies store
    ensures store.stakeholders == CalendarRun(old(store.stakeholders), old(store.activities), events, now).stakeholders
    ensures store.activities
            == Appended(old(store.activities), CalendarRun(old(store.stakeholders), old(store.activities), events, now).logs)
    ensures r == CalendarRun(old(store.stakeholders), old(store.activities), events, now).counts
  {
    var stakeholders := store.stakeholders;
    var existing := store.activities;
    var working := stakeholders;
    r := SyncCounts(0, 0, 0);
    ghost var logs: seq<Activity> := [];
    ghost var init := Run(stakeholders, stakeholders, [], r);
    var i := 0;
    while i < |events|
      invariant 0 <= i <= |events|
      invariant Run(store.stakeholders, working, logs, r) == EventsRun(init, existing, events[..i], now)
      invariant store.activities == Appended(existing, logs)
    {
      EventsSnoc(init, existing, events, i, now);
      working, r, logs := RunEvent(store, working, existing, events[i], now, r, logs);
      i := i + 1;
    }
    assert events[..i] == events;
  }

  /** syncCalendar after authentication and the event listing: read the events that have
      a start, then sync each one. */
  method SyncCalendar(store: Store, listed: seq<RawEvent>, now: int) returns (r: SyncCounts)
    modifies store
    ensures store.stakeholders
            == CalendarRun(old(store.stakeholders), old(store.activities), CalendarEvents(listed), now).stakeholders
    ensures store.activities
            == Appended(old(store.activities),
                        CalendarRun(old(store.stakeholders), old(store.activities), CalendarEvents(listed), now).logs)
    ensures r == CalendarRun(old(store.stakeholders), old(store.activities), CalendarEvents(listed), now).counts
    ensures CalendarOutcome(old(store.stakeholders), old(store.activities),
                            store.stakeholders, store.activities, now, r)
    ensures (forall e :: e in listed && e.start.Some? ==> !IsPast(e.start.value, now)) ==>
              r.updatedStakeholders == 0 && r.newActivities == 0
  {
    var events := ReadEvents(listed);
    r := SyncEvents(store, events, now);
    CalendarMeaning(old(store.stakeholders), old(store.activities), events, now);
    FutureEvents(listed, now);
  }

  /** The read events start on the days of the listed events that have a start. */
  lemma FutureEvents(listed: seq<RawEvent>, now: int)
    ensures (forall e :: e in listed && e.start.Some? ==> !IsPast(e.start.value, now)) ==>
              forall e :: e in CalendarEvents(listed) ==> !IsPast(e.start, now)
  {
    var events := CalendarEvents(listed);
    if forall e :: e in listed && e.start.Some? ==> !IsPast(e.start.value, now) {
      forall e | e in events
        ensures !IsPast(e.start, now)
      {
        var i :| 0 <= i < |events| && events[i] == e;
        assert Started(listed)[i] in Started(listed);
      }
    }
  }

  // ---------------------------------------------------------------- what the run keeps

  /** The store against the run's working list: the snapshot followed by the stakeholders
      created so far, identifiers in step; snapshot records changed at most in email and
      date (and, with unique identifiers, only forward); created records keep their shape. */
  ghost predicate StakeholderState(snapshot: seq<Stakeholder>, current: seq<Stakeholder>, working: seq<Stakeholder>) {
    |snapshot| <= |working| && working[..|snapshot|] == snapshot
    && |current| == |working| && Ids(current) == Ids(working)
    && (forall i :: 0 <= i < |snapshot| ==>
          current[i] == snapshot[i].(email := current[i].email, lastContactDate := current[i].lastContactDate))
    && (forall i :: |snapshot| <= i < |working| ==> CreatedShape(current[i]))
    && (UniqueIds(snapshot) ==>
          UniqueIds(working) && forall i :: 0 <= i < |snapshot| ==> UpdatedForward(snapshot[i], current[i]))
  }

  /** A patch the sync sends: a later date, or an email for a record without one. */
  predicate ForwardPatch(p: Patch, m: Stakeholder) {
    (p == NoChanges.(lastContactDate := p.lastContactDate) && p.lastContactDate.Some?
     && p.lastContactDate.value.Some? && IsLater(p.lastContactDate.value.value, m.lastContactDate))
    || (p == NoChanges.(email := p.email) && p.email.Some? && LacksEmail(m))
  }

  lemma StateCreate(snapshot: seq<Stakeholder>, current: seq<Stakeholder>, working: seq<Stakeholder>, c: Stakeholder)
    requires StakeholderState(snapshot, current, working)
    requires c.id !in Ids(current) && CreatedShape(c)
    ensures StakeholderState(snapshot, current + [c], working + [c])
  {
    var w := working + [c];
    assert w[..|snapshot|] == snapshot by {
      assert w[..|working|] == working;
    }
    assert Ids(current + [c]) == Ids(current) + [c.id];
    assert Ids(w) == Ids(working) + [c.id];
    if UniqueIds(snapshot) {
      forall i, j | 0 <= i < j < |w|
        ensures w[i].id != w[j].id
      {
        if j == |working| {
          assert Ids(working)[i] == w[i].id;
        }
      }
    }
  }

  lemma StateUpdate(snapshot: seq<Stakeholder>, current: seq<Stakeholder>, working: seq<Stakeholder>,
                    m: Stakeholder, p: Patch)
    requires StakeholderState(snapshot, current, working)
    requires m in working && ForwardPatch(p, m)
    ensures FirstIndex(current, m.id).Some?
    ensures var k := FirstIndex(current, m.id).value;
            StakeholderState(snapshot, current[k := Overlay(current[k], p, m.id)], working)
  {
    var q :| 0 <= q < |working| && working[q] == m;
    assert Ids(current)[q] == m.id;
    var k := FirstIndex(current, m.id).value;
    var o := Overlay(current[k], p, m.id);
    OverlayForward(current[k], p, m);
    if UniqueIds(snapshot) && k < |snapshot| {
      assert Ids(working)[k] == m.id;
      assert q == k;
      assert m == snapshot[k];
    }
    StateReplace(snapshot, current, working, k, o);
  }

  /** Rewriting one record's email or date, forward of the snapshot, keeps the state. */
  lemma StateReplace(snapshot: seq<Stakeholder>, current: seq<Stakeholder>, working: seq<Stakeholder>,
                     k: nat, o: Stakeholder)
    requires StakeholderState(snapshot, current, working)
    requires k < |current| && o == current[k].(email := o.email, lastContactDate := o.lastContactDate)
    requires UniqueIds(snapshot) && k < |snapshot| ==> UpdatedForward(snapshot[k], o)
    ensures StakeholderState(snapshot, current[k := o], working)
  {
    var after := current[k := o];
    assert Ids(after) == Ids(working) by {
      forall i | 0 <= i < |after|
        ensures Ids(after)[i] == Ids(working)[i]
      {
        assert Ids(current)[i] == Ids(working)[i];
      }
    }
    forall i | 0 <= i < |snapshot|
      ensures after[i] == snapshot[i].(email := after[i].email, lastContactDate := after[i].lastContactDate)
    {
    }
    forall i | |snapshot| <= i < |working|
      ensures CreatedShape(after[i])
    {
    }
  }

  /** A forward patch writes only the email or the date, and only forward of `m`. */
  lemma OverlayForward(s: Stakeholder, p: Patch, m: Stakeholder)
    requires ForwardPatch(p, m) && s.id == m.id
    ensures var o := Overlay(s, p, m.id);
            && o == s.(email := o.email, lastContactDate := o.lastContactDate)
            && (o.email != s.email ==> LacksEmail(m))
            && (o.lastContactDate != s.lastContactDate ==>
                  o.lastContactDate.Some? && IsLater(o.lastContactDate.value, m.lastContactDate))
  {
  }

  /** The updates for a record of the working list keep the state. */
  lemma TouchState(snapshot: seq<Stakeholder>, ss: seq<Stakeholder>, working: seq<Stakeholder>,
                   m: Stakeholder, a: Attendee, event: CalendarEvent, now: int)
    requires StakeholderState(snapshot, ss, working) && m in working
    ensures StakeholderState(snapshot, Touch(ss, m, a, event, now), working)
  {
    var dated := if Dated(m, event, now) then UpdateById(ss, m.id, DatePatch(event.start)) else ss;
    if Dated(m, event, now) {
      StateUpdate(snapshot, ss, working, m, DatePatch(event.start));
    }
    if IsPast(event.start, now) && LacksEmail(m) {
      StateUpdate(snapshot, dated, working, m, EmailPatch(a.email));
    }
  }

  /** The attendee loop's state against the working list it started from. */
  ghost predicate PassState(snapshot: seq<Stakeholder>, working0: seq<Stakeholder>, p: Pass) {
    StakeholderState(snapshot, p.stakeholders, p.working)
    && |working0| <= |p.working| && p.working[..|working0|] == working0
    && |p.working| == |working0| + p.created
    && (forall x :: x in p.matched ==> x in Ids(p.working))
  }

  lemma IdsGrow(w: seq<Stakeholder>, w': seq<Stakeholder>, x: string)
    requires |w| <= |w'| && w'[..|w|] == w && x in Ids(w)
    ensures x in Ids(w')
  {
    var q :| 0 <= q < |w| && Ids(w)[q] == x;
    assert w'[q] == w[q];
    assert Ids(w')[q] == x;
  }

  /** Each attendee keeps the state; only a past event updates a date. */
  lemma AttendeeStepState(snapshot: seq<Stakeholder>, working0: seq<Stakeholder>, p: Pass,
                          a: Attendee, event: CalendarEvent, now: int)
    requires PassState(snapshot, working0, p)
    ensures PassState(snapshot, working0, AttendeeStep(p, a, event, now))
    ensures !IsPast(event.start, now) ==> AttendeeStep(p, a, event, now).updated == p.updated
  {
    if !Skipped(a) {
      match MatchStakeholder(a.email, a.name, p.working)
      case Some(m) =>
        TouchState(snapshot, p.stakeholders, p.working, m, a, event, now);
        InIds(p.working, m);
      case None =>
        if AccountAttendee(a) {
          AttendeeStepCreates(p, a, event, now);
          CreateState(snapshot, working0, p, CreatedFor(a, event, p.stakeholders));
        }
    }
  }

  /** A record created under a fresh identifier and matched keeps the state. */
  lemma CreateState(snapshot: seq<Stakeholder>, working0: seq<Stakeholder>, p: Pass, s: Stakeholder)
    requires PassState(snapshot, working0, p)
    requires s.id !in Ids(p.stakeholders) && CreatedShape(s)
    ensures PassState(snapshot, working0, Pass(p.stakeholders + [s], p.working + [s], p.matched + [s.id],
                                               p.created + 1, p.updated))
  {
    var w := p.working + [s];
    StateCreate(snapshot, p.stakeholders, p.working, s);
    assert w[..|p.working|] == p.working;
    assert w[..|working0|] == working0;
    forall x | x in p.matched + [s.id]
      ensures x in Ids(w)
    {
      if x in p.matched {
        IdsGrow(p.working, w, x);
      } else {
        assert Ids(w)[|p.working|] == s.id;
      }
    }
  }

  lemma {:induction false} AttendeesState(snapshot: seq<Stakeholder>, working0: seq<Stakeholder>, p: Pass,
                                          attendees: seq<Attendee>, event: CalendarEvent, now: int)
    requires PassState(snapshot, working0, p)
    ensures PassState(snapshot, working0, AttendeesPass(p, attendees, event, now))
    ensures !IsPast(event.start, now) ==> AttendeesPass(p, attendees, event, now).updated == p.updated
    decreases |attendees|
  {
    if |attendees| > 0 {
      var init := attendees[..|attendees| - 1];
      AttendeesState(snapshot, working0, p, init, event, now);
      AttendeeStepState(snapshot, working0, AttendeesPass(p, init, event, now), attendees[|attendees| - 1], event, now);
    }
  }

  /** A meeting the calendar sync stores: a past day, at least one participant, all of
      them known, and no Meeting that day in the snapshot sharing any of them. */
  predicate CalendarLog(d: Activity, ids: seq<string>, existing: seq<Activity>, now: int) {
    d.kind == Meeting && IsPast(d.date, now) && |d.stakeholderIds| > 0
    && (forall x :: x in d.stakeholderIds ==> x in ids)
    && !SharedMeeting(existing, d.date, d.stakeholderIds)
  }

  /** A meeting logged against an earlier working list stays logged against a later one. */
  lemma CalendarLogGrow(d: Activity, w: seq<Stakeholder>, w': seq<Stakeholder>, existing: seq<Activity>, now: int)
    requires |w| <= |w'| && w'[..|w|] == w
    requires CalendarLog(d, Ids(w), existing, now)
    ensures CalendarLog(d, Ids(w'), existing, now)
  {
    forall x | x in d.stakeholderIds
      ensures x in Ids(w')
    {
      IdsGrow(w, w', x);
    }
  }

  /** One event logs a meeting exactly when it is past, some attendee was matched or
      created, and no Meeting read at the start that day shares one of them; the meeting
      lists exactly the matched identifiers, on the event's day. */
  lemma EventLogMeaning(snapshot: seq<Stakeholder>, working0: seq<Stakeholder>, p: Pass,
                        existing: seq<Activity>, event: CalendarEvent, now: int)
    requires PassState(snapshot, working0, p)
    ensures EventLog(p, existing, event, now).Some?
            <==> IsPast(event.start, now) && |p.matched| > 0 && !SharedMeeting(existing, event.start, p.matched)
    ensures EventLog(p, existing, event, now).Some? ==>
              var d := EventLog(p, existing, event, now).value;
              d.stakeholderIds == p.matched && d.date == event.start && CalendarLog(d, Ids(p.working), existing, now)
  {
  }

  /** The run's state after some events: the state of the records against the working
      list, the counts of created records and logged meetings, and every logged meeting
      one the sync may store. */
  ghost predicate RunState(before: seq<Stakeholder>, existing: seq<Activity>, r: Run, now: int) {
    StakeholderState(before, r.stakeholders, r.working)
    && |r.working| == |before| + r.counts.newContacts
    && |r.logs| == r.counts.newActivities
    && forall d :: d in r.logs ==> CalendarLog(d, Ids(r.working), existing, now)
  }

  lemma EventRunState(before: seq<Stakeholder>, existing: seq<Activity>, r: Run, event: CalendarEvent, now: int)
    requires RunState(before, existing, r, now)
    ensures RunState(before, existing, EventRun(r, existing, event, now), now)
    ensures !IsPast(event.start, now) ==>
              EventRun(r, existing, event, now).counts.updatedStakeholders == r.counts.updatedStakeholders
              && EventRun(r, existing, event, now).counts.newActivities == r.counts.newActivities
  {
    var p0 := Pass(r.stakeholders, r.working, [], 0, 0);
    assert r.working[..|r.working|] == r.working;
    AttendeesState(before, r.working, p0, event.attendees, event, now);
    var p := EventPass(r.stakeholders, r.working, event, now);
    EventLogMeaning(before, r.working, p, existing, event, now);
    forall d | d in r.logs
      ensures CalendarLog(d, Ids(p.working), existing, now)
    {
      CalendarLogGrow(d, r.working, p.working, existing, now);
    }
  }

  lemma {:induction false} EventsRunState(before: seq<Stakeholder>, existing: seq<Activity>, r: Run,
                                          events: seq<CalendarEvent>, now: int)
    requires RunState(before, existing, r, now)
    ensures RunState(before, existing, EventsRun(r, existing, events, now), now)
    ensures (forall e :: e in events ==> !IsPast(e.start, now)) ==>
              EventsRun(r, existing, events, now).counts.updatedStakeholders == r.counts.updatedStakeholders
              && EventsRun(r, existing, events, now).counts.newActivities == r.counts.newActivities
    decreases |events|
  {
    if |events| > 0 {
      var init := events[..|events| - 1];
      var last := events[|events| - 1];
      EventsRunState(before, existing, r, init, now);
      EventRunState(before, existing, EventsRun(r, existing, init, now), last, now);
      if forall e :: e in events ==> !IsPast(e.start, now) {
        assert last in events;
        assert forall e :: e in init ==> e in events;
      }
    }
  }

  /** What syncCalendar leaves behind: the old stakeholders first, in place, changed only
      in email and date (only forward when identifiers are unique), followed by
      `newContacts` auto-created ones; and `newActivities` meetings appended, each past,
      for known stakeholders, and not already in the activities read at the start. */
  ghost predicate CalendarOutcome(before: seq<Stakeholder>, beforeActs: seq<Activity>,
                                  after: seq<Stakeholder>, afterActs: seq<Activity>,
                                  now: int, r: SyncCounts)
  {
    |after| == |before| + r.newContacts
    && (forall i :: 0 <= i < |before| ==>
          after[i] == before[i].(email := after[i].email, lastContactDate := after[i].lastContactDate))
    && (forall i :: |before| <= i < |after| ==> CreatedShape(after[i]))
    && (UniqueIds(before) ==>
          UniqueIds(after) && forall i :: 0 <= i < |before| ==> UpdatedForward(before[i], after[i]))
    && exists drafts :: AppendedAs(beforeActs, afterActs, drafts)
         && |drafts| == r.newActivities
         && forall d :: d in drafts ==> CalendarLog(d, Ids(after), beforeActs, now)
  }

  /** The run meets the outcome, and with no past event it updates no date and logs no
      meeting. */
  lemma CalendarMeaning(before: seq<Stakeholder>, existing: seq<Activity>, events: seq<CalendarEvent>, now: int)
    ensures var r := CalendarRun(before, existing, events, now);
            CalendarOutcome(before, existing, r.stakeholders, Appended(existing, r.logs), now, r.counts)
    ensures (forall e :: e in events ==> !IsPast(e.start, now)) ==>
              CalendarRun(before, existing, events, now).counts.updatedStakeholders == 0
              && CalendarRun(before, existing, events, now).counts.newActivities == 0
  {
    var init := Run(before, before, [], SyncCounts(0, 0, 0));
    assert before[..|before|] == before;
    assert RunState(before, existing, init, now);
    EventsRunState(before, existing, init, events, now);
    var r := CalendarRun(before, existing, events, now);
    AppendedMeaning(existing, r.logs);
    assert Ids(r.stakeholders) == Ids(r.working);
  }

  // ---------------------------------------------------------------- meeting gaps

  /** A key stakeholder and how long ago their last logged meeting was; None when they
      have none. (The upcoming meeting is always null and is not kept.) */
  datatype MeetingGap = MeetingGap(stakeholder: Stakeholder, daysSinceLastMeeting: Option<int>,
                                   lastMeetingDate: Option<Day>)

  predicate IsKeyStakeholder(s: Stakeholder) {
    s.priority == P0 || s.priority == P1
  }

  predicate MeetingWith(a: Activity, s: Stakeholder) {
    a.kind == Meeting && s.id in a.stakeholderIds
  }

  function MeetingsWith(acts: seq<Activity>, s: Stakeholder): (r: seq<Activity>)
    ensures forall a :: a in r <==> a in acts && MeetingWith(a, s)
  {
    if |acts| == 0 then []
    else (if MeetingWith(acts[0], s) then [acts[0]] else []) + MeetingsWith(acts[1..], s)
  }

  /** The date of the first meeting after sorting them newest first. */
  function LastMeeting(acts: seq<Activity>, s: Stakeholder): Option<Day> {
    var sorted := SortDesc(MeetingsWith(acts, s), (a: Activity) => a.date);
    if |sorted| == 0 then None else Some(sorted[0].date)
  }

  /** The last meeting is the latest date among the stakeholder's meetings, and there is
      one exactly when they have any meeting. */
  lemma LastMeetingIsLatest(acts: seq<Activity>, s: Stakeholder)
    ensures LastMeeting(acts, s).None? <==> forall a :: a in acts ==> !MeetingWith(a, s)
    ensures LastMeeting(acts, s).Some? ==>
              (exists a :: a in acts && MeetingWith(a, s) && a.date == LastMeeting(acts, s).value)
              && forall a :: a in acts && MeetingWith(a, s) ==> a.date <= LastMeeting(acts, s).value
  {
    var key := (a: Activity) => a.date;
    var ms := MeetingsWith(acts, s);
    var sorted := SortDesc(ms, key);
    SortDescPermutation(ms, key);
    SortDescSorted(ms, key);
    assert forall a :: a in sorted <==> a in ms by {
      forall a ensures a in sorted <==> a in ms {
        assert a in sorted <==> a in multiset(sorted);
        assert a in ms <==> a in multiset(ms);
      }
    }
    if |sorted| > 0 {
      assert sorted[0] in sorted;
      forall a | a in ms
        ensures a.date <= sorted[0].date
      {
        var j :| 0 <= j < |sorted| && sorted[j] == a;
        if j > 0 {
          assert key(sorted[0]) >= key(sorted[j]);
        }
      }
    }
  }

  function GapOf(s: Stakeholder, acts: seq<Activity>, now: int): MeetingGap {
    var last := LastMeeting(acts, s);
    MeetingGap(s, DaysSince(last, now), last)
  }

  /** No meeting at all, or the last one more than 14 days ago. */
  predicate Overdue(g: MeetingGap) {
    g.daysSinceLastMeeting.None? || g.daysSinceLastMeeting.value > 14
  }

  /** The filter, map and filter steps, in stakeholder order. */
  function OverdueGaps(ss: seq<Stakeholder>, acts: seq<Activity>, now: int): (r: seq<MeetingGap>)
    ensures forall g :: g in r <==>
              exists s :: s in ss && IsKeyStakeholder(s) && g == GapOf(s, acts, now) && Overdue(g)
  {
    if |ss| == 0 then []
    else
      var g := GapOf(ss[0], acts, now);
      (if IsKeyStakeholder(ss[0]) && Overdue(g) then [g] else []) + OverdueGaps(ss[1..], acts, now)
  }

  /** The comparator as written. */
  function GapCompare(a: MeetingGap, b: MeetingGap): int {
    if a.daysSinceLastMeeting.None? then -1
    else if b.daysSinceLastMeeting.None? then 1
    else b.daysSinceLastMeeting.value - a.daysSinceLastMeeting.value
  }

  /** Two stakeholders without meetings each compare as smaller than the other, so the
      comparator is not a consistent order and their relative position is left to the
      engine's sort. */
  lemma GapCompareInconsistent(s1: Stakeholder, s2: Stakeholder)
    ensures GapCompare(MeetingGap(s1, None, None), MeetingGap(s2, None, None)) < 0
    ensures GapCompare(MeetingGap(s2, None, None), MeetingGap(s1, None, None)) < 0
  {
  }

  /** Where there is a count, a consistent comparator agrees with the one written. */
  lemma GapCompareAgrees(a: MeetingGap, b: MeetingGap, top: int)
    requires a.daysSinceLastMeeting.None? != b.daysSinceLastMeeting.None?
             || a.daysSinceLastMeeting.Some?
    requires a.daysSinceLastMeeting.Some? ==> a.daysSinceLastMeeting.value < top
    requires b.daysSinceLastMeeting.Some? ==> b.daysSinceLastMeeting.value < top
    ensures GapCompare(a, b) < 0 <==> GapKey(a, top) > GapKey(b, top)
  {
  }

  /** The largest day count among the gaps (0 when none has one). */
  function MaxDays(gs: seq<MeetingGap>): (m: int)
    ensures forall g :: g in gs && g.daysSinceLastMeeting.Some? ==> g.daysSinceLastMeeting.value <= m
  {
    if |gs| == 0 then 0
    else
      var rest := MaxDays(gs[1..]);
      match gs[0].daysSinceLastMeeting
      case Some(d) => if d > rest then d else rest
      case None => rest
  }

  /** A sort key above every count for gaps without a meeting, else the count. */
  function GapKey(g: MeetingGap, top: int): int {
    if g.daysSinceLastMeeting.None? then top else g.daysSinceLastMeeting.value
  }

  /** GapKey as the sort key for one bound. */
  function GapKeyOf(top: int): MeetingGap -> int {
    (g: MeetingGap) => GapKey(g, top)
  }

  /** detectMeetingGaps with the comparator made consistent: gaps without a meeting first,
      in stakeholder order, then the rest, longest gap first. */
  function DetectMeetingGaps(ss: seq<Stakeholder>, acts: seq<Activity>, now: int): (r: seq<MeetingGap>)
    ensures forall g :: g in r <==>
              exists s :: s in ss && IsKeyStakeholder(s) && g == GapOf(s, acts, now) && Overdue(g)
    ensures |r| == |OverdueGaps(ss, acts, now)|
  {
    var gaps := OverdueGaps(ss, acts, now);
    var top := GapsTop(ss, acts, now);
    SortGapsElements(gaps, top);
    SortDesc(gaps, GapKeyOf(top))
  }

  /** The sort key of the gaps without a meeting: one above every count. */
  function GapsTop(ss: seq<Stakeholder>, acts: seq<Activity>, now: int): int {
    MaxDays(OverdueGaps(ss, acts, now)) + 1
  }

  /** Sorting gaps by GapKey puts those without a count first and the others by count,
      largest first, and keeps the order of those without a count. */
  lemma SortGapsOrder(gaps: seq<MeetingGap>, top: int)
    requires forall g :: g in gaps && g.daysSinceLastMeeting.Some? ==> g.daysSinceLastMeeting.value < top
    ensures var r := SortDesc(gaps, GapKeyOf(top));
            forall i, j :: 0 <= i < j < |r| ==>
              (r[j].daysSinceLastMeeting.None? ==> r[i].daysSinceLastMeeting.None?)
              && (r[i].daysSinceLastMeeting.Some? && r[j].daysSinceLastMeeting.Some? ==>
                    r[i].daysSinceLastMeeting.value >= r[j].daysSinceLastMeeting.value)
  {
    var key := GapKeyOf(top);
    var r := SortDesc(gaps, key);
    SortDescElements(gaps, key);
    SortDescSorted(gaps, key);
    forall i, j | 0 <= i < j < |r|
      ensures r[j].daysSinceLastMeeting.None? ==> r[i].daysSinceLastMeeting.None?
    {
      assert r[i] in r;
      assert key(r[i]) >= key(r[j]);
    }
  }

  lemma SortGapsElements(gaps: seq<MeetingGap>, top: int)
    ensures forall g :: g in SortDesc(gaps, GapKeyOf(top)) <==> g in gaps
    ensures |SortDesc(gaps, GapKeyOf(top))| == |gaps|
  {
    SortDescElements(gaps, GapKeyOf(top));
  }

  /** Gaps without a meeting come before all others, in stakeholder order, and the others
      run from the longest gap down. */
  lemma MeetingGapsOrder(ss: seq<Stakeholder>, acts: seq<Activity>, now: int)
    ensures var r := DetectMeetingGaps(ss, acts, now);
            forall i, j :: 0 <= i < j < |r| ==>
              (r[j].daysSinceLastMeeting.None? ==> r[i].daysSinceLastMeeting.None?)
              && (r[i].daysSinceLastMeeting.Some? && r[j].daysSinceLastMeeting.Some? ==>
                    r[i].daysSinceLastMeeting.value >= r[j].daysSinceLastMeeting.value)
    ensures WithKey(DetectMeetingGaps(ss, acts, now), GapKeyOf(GapsTop(ss, acts, now)), GapsTop(ss, acts, now))
            == WithKey(OverdueGaps(ss, acts, now), GapKeyOf(GapsTop(ss, acts, now)), GapsTop(ss, acts, now))
  {
    var gaps := OverdueGaps(ss, acts, now);
    var top := GapsTop(ss, acts, now);
    var r := DetectMeetingGaps(ss, acts, now);
    assert r == SortDesc(gaps, GapKeyOf(top));
    SortGapsOrder(gaps, top);
    StableGaps(gaps, top);
    assert WithKey(r, GapKeyOf(top), top) == WithKey(gaps, GapKeyOf(top), top);
  }

  lemma StableGaps(gaps: seq<MeetingGap>, top: int)
    ensures WithKey(SortDesc(gaps, GapKeyOf(top)), GapKeyOf(top), top) == WithKey(gaps, GapKeyOf(top), top)
  {
    SortDescStable(gaps, GapKeyOf(top), top);
  }

  /** A gap without a count is one with no meeting date and no meeting at all, and a gap
      with a count has its last meeting at least 15 days before now. */
  lemma MeetingGapsDates(ss: seq<Stakeholder>, acts: seq<Activity>, now: int, g: MeetingGap)
    requires g in DetectMeetingGaps(ss, acts, now)
    ensures g.daysSinceLastMeeting.None? <==> g.lastMeetingDate.None?
    ensures g.lastMeetingDate.Some? ==> now - g.lastMeetingDate.value * MS_PER_DAY >= 15 * MS_PER_DAY
    ensures g.lastMeetingDate.None? ==> forall a :: a in acts ==> !MeetingWith(a, g.stakeholder)
  {
    var s :| s in ss && IsKeyStakeholder(s) && g == GapOf(s, acts, now) && Overdue(g);
    LastMeetingIsLatest(acts, s);
  }
}
