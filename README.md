# Enterprise deal tracker: a verified model of its core

The deal tracker keeps, for one enterprise deal, the stakeholders on the customer side and
the activities (meetings, emails, calls, Slack threads) logged with them.

**Store and scoring**
- The JSON-file store in `lib/data.ts` issues ids and adds, updates and deletes records.
- Deleting a stakeholder prunes their activities.
- It also computes the deal health score from six factors.

**Syncs**
- Two syncs read Gmail threads and Google Calendar events.
- They update the stakeholders they recognise and log new activities.
- The calendar sync also creates a stakeholder for an unknown attendee of an external domain.

**Smart import**
- An API route sends a pasted transcript to a language model.
- It strips the code fences around the JSON reply and tags each extracted person as new or
  existing.
- On confirmation it creates, merges and logs.

**Pages and dashboard**
- The dashboard derives alerts, team coverage, quick statistics and a score.
- The pages filter, group and sort what they show.
- The org chart builds a reporting forest.

**Module layout.** The model follows the source file by file:

| Module | Source |
|---|---|
| `DataStore` (the `Store` class) | `lib/data.ts` |
| `Health` | `lib/data.ts` scoring and `app/page.tsx` |
| `Utils` | `lib/utils.ts` |
| `SenderParsing`, `Matching`, `GmailSync` | `lib/integrations/gmail.ts` |
| `CalendarSync` | `lib/integrations/calendar.ts` |
| `SmartImport` | `app/api/smart-import/route.ts` |
| `SmartImportPage` | `app/smart-import/page.tsx` |
| `Workspaces` | `app/api/workspaces/route.ts` |
| `CriticalAlerts`, `CoverageMap`, `QuickStats`, `RecentActivity` | the dashboard components |
| `OrgChart`, `StakeholderForm` | the stakeholder components |
| `StakeholdersPage`, `Timeline` | the two list pages |

`Domain` holds the records. `Text` holds the string operations JavaScript provides (case,
trimming, `split`, `parseInt`, string order). `Sorting` is a stable insertion sort by a
numeric key: `Array.prototype.sort` with a comparator that subtracts keys.

**How the source's own form is kept**
- Code that mutates state stays imperative.
  - The store is a class whose methods reassign its lists.
  - The syncs and the import confirmation are methods on that store, with loops and their
    invariants.
  - The React pages are classes whose methods are the event handlers.
- Pure derivations stay functions with lemmas: scores, alerts, filters and grouping.

**Representations**
- Dates are day numbers (`Day`), and the clock is a parameter `now` in milliseconds.
- `daysSince` is the floor of the millisecond difference divided by a day, as in the source.
- `Math.round` of a non-negative ratio is an integer rounding division.
- The one `NaN` the score can produce is a `Num` value.

The two syncs read their input snapshot once and then write through the store. Their contracts
compare the final state with that snapshot:
- records are only ever moved forward (a later contact date, an email where none was set);
- ids are kept;
- every logged activity is appended after the existing ones, with a fresh id.

## Model

| member | source | states |
|---|---|---|
| DataStore.MaxIdNumber | lib/data.ts:30-33 | the largest number among the ids with the given prefix, attained by one of them (0 when none) |
| DataStore.NextIdFresh | lib/data.ts:30-36 | the next id has the number one past the maximum, is larger than every numbered id and is not already in use |
| DataStore.FirstStakeholderId | lib/data.ts:26-41 | the first stakeholder of an empty store gets the id "s1" |
| DataStore.OverlayPinsId | lib/data.ts:50 | an update never changes the record's id, and an empty update leaves the record as it was |
| DataStore.WithoutId | lib/data.ts:57-58 | exactly the records with other ids remain; the list shrinks exactly when the id was present |
| DataStore.RemoveId | lib/data.ts:62-67 | the deleted id no longer occurs among an activity's participants, and every other participant keeps its multiplicity |
| DataStore.RemoveIdAbsent | lib/data.ts:62-67 | an activity without the deleted id keeps its participant list unchanged |
| DataStore.RemoveIdAppend | lib/data.ts:62-67 | removing an id from a concatenation removes it from each part |
| DataStore.Prune | lib/data.ts:62-67 | every kept activity is an original one minus the deleted id and still has a participant |
| DataStore.PruneKeeps | lib/data.ts:62-67 | an activity that keeps a participant after the removal is kept |
| DataStore.PruneScenario | lib/data.ts:62-67 | an activity with only the deleted stakeholder disappears; one shared with another keeps the other |
| DataStore.AddThenDeleteReissues | lib/data.ts:26-70 | adding a stakeholder and deleting it restores the list, and the next add reissues the same id |
| DataStore.AppendedMore | lib/data.ts:81-94 | one more addActivity extends the record of drafts appended so far |
| DataStore.AppendedChain | lib/data.ts:81-94 | two runs of appended activities compose into one |
| DataStore.AppendedMeaning | lib/data.ts:81-94 | a run of addActivity calls keeps the old activities in front and appends each draft in order under an id no earlier activity carries |
| DataStore.AppendedConcat | lib/data.ts:81-94 | two runs of addActivity calls are one run over both lists of drafts |
| DataStore.UpdateById | lib/data.ts:43-53 | the records after an update by id: the first record with the id (found left to right) is overlaid and every other position kept; an unknown id changes nothing |
| DataStore.Store.constructor | lib/data.ts:12-15 | the store holds the stakeholders and activities it was loaded with |
| DataStore.Store.AddStakeholder | lib/data.ts:26-41 | the draft is stored at the end with the next free "s" id; activities are untouched |
| DataStore.Store.UpdateStakeholder | lib/data.ts:43-53 | an unknown id returns null and changes nothing; otherwise the first record with the id is overlaid, keeping its id |
| DataStore.Store.DeleteStakeholder | lib/data.ts:55-70 | the result is true exactly when the id existed; then the record is removed and the activities pruned, otherwise nothing changes |
| DataStore.Store.AddActivity | lib/data.ts:81-94 | the draft is stored at the end with the next free "a" id; stakeholders are untouched |
| Domain.FindById | lib/data.ts:17-20 | a record with that id from the list, or nothing exactly when no record has the id |
| Domain.FirstIndex | lib/data.ts:48 | the index of the first record with the id, or none exactly when no record has it |
| Domain.TeamMembers | components/Dashboard/CoverageMap.tsx:51 | the members of a team come from the list and belong to that team |
| Domain.TeamOrder | components/Dashboard/CriticalAlerts.tsx:65-69 | each team appears once, in order of first appearance |
| Domain.TeamOrderMembers | components/Dashboard/CriticalAlerts.tsx:65-69 | a team is listed exactly when some stakeholder belongs to it |
| Utils.DaysSince | lib/utils.ts:1-7 | null exactly for a missing date; otherwise the floor of the elapsed time in whole days |
| Utils.DaysSinceToday | lib/utils.ts:1-7 | at any moment of a day, the count for a date is the number of calendar days between them |
| Utils.DaysSinceAntitone | lib/utils.ts:1-7 | a later date is never further in the past |
| Utils.IsoDate | app/api/smart-import/route.ts:168 | the YYYY-MM-DD text of a day is at least ten characters |
| Utils.Kept | lib/utils.ts:17-19 | the class names cn keeps are non-empty strings, one per truthy argument at most |
| Utils.CnAllFalsy | lib/utils.ts:17-19 | cn of only falsy arguments is the empty string |
| Utils.CnSplit | lib/utils.ts:17-19 | splitting cn's result on spaces gives back the kept class names |
| Utils.CnTrue | lib/utils.ts:17-19 | a literal true is kept as the class name "true" |
| Health.Clamp | lib/data.ts:232 | NaN stays NaN; any number becomes a value between 0 and 100 |
| Health.RoundDiv | lib/data.ts:186-187 | the integer nearest to p/q, halves rounded up, as Math.round does |
| Health.RoundDivBounds | lib/data.ts:186-187 | a rounded ratio of a share to a whole is between 0 and the scale |
| Health.Ratio | lib/data.ts:186-187 | a ratio over an empty whole is NaN; otherwise it lies between 0 and the scale |
| Health.Count | lib/data.ts:112-115 | the count is zero exactly when no stakeholder is in the group |
| Health.EngagedBuyersAmongBuyers | lib/data.ts:133-137 | no more engaged buyers than economic buyers |
| Health.EngagedTeams | lib/data.ts:177-186 | the engaged teams are among the stakeholders' teams |
| Health.EngagedTeamsBound | lib/data.ts:177-186 | there are no more engaged teams than teams |
| Health.Push | lib/data.ts:116-117 | pushing a factor adds its impact to the running total |
| Health.PushChampion | lib/data.ts:112-130 | the champion factor is pushed and the total kept equal to the sum of impacts |
| Health.PushBuyer | lib/data.ts:133-153 | the economic buyer factor is pushed and the total kept |
| Health.PushBlockers | lib/data.ts:156-174 | the blocker factors are pushed and the total kept |
| Health.PushHealthAndRecency | lib/data.ts:196-230 | the relationship health and contact recency factors are pushed and the total kept |
| Health.ComputeDealHealthScore | lib/data.ts:104-233 | the factors are the six rules' factors in order, and the score is 50 plus their impacts, clamped to 0..100 |
| Health.ComputeScore | app/page.tsx:17-54 | no stakeholders scores 0 with a single "no stakeholders" factor; otherwise the library's factors and clamped sum; always within 0..100 |
| Health.ScoreInRange | lib/data.ts:104-233 | for a non-empty list every factor is a number and the score is between 0 and 100 |
| Health.EmptyInputScoresNaN | lib/data.ts:104-233 | for an empty list the buyer gap is -10, three ratios are NaN, and the score is NaN |
| Health.FactorShape | lib/data.ts:104-233 | four to six factors: champions, the buyer, blockers, then coverage, health and recency last |
| Health.ChampionRule | lib/data.ts:112-130 | two or more Champions with a Strong relationship give +15, exactly one gives +8, and with none the first factor is the economic buyer's |
| Health.EconomicBuyerRule | lib/data.ts:133-153 | +15 exactly when a buyer exists and every buyer was contacted within 30 days and is not Weak; otherwise the -10 buyer gap |
| Health.CountAll | lib/data.ts:133-153 | all buyers are engaged exactly when the engaged count equals the buyer count |
| Health.BlockerRule | lib/data.ts:156-174 | each unengaged blocker costs 8 points; with none there is no blocker factor |
| Health.FactorBounds | lib/data.ts:177-230 | coverage and recency lie in 0..10 and relationship health in -10..10 |
| Text.Lower | lib/integrations/gmail.ts:40 | lower-casing keeps the length and lowers each character |
| Text.LowerIdempotent | lib/integrations/gmail.ts:40 | lower-casing twice is lower-casing once |
| Text.LowerAppend | lib/integrations/gmail.ts:40 | lower-casing distributes over concatenation |
| Text.TrimStart | app/api/workspaces/route.ts:14 | a suffix of the input that does not start with whitespace |
| Text.TrimEnd | app/api/workspaces/route.ts:14 | a prefix of the input that does not end with whitespace |
| Text.TrimNoEdgeSpace | app/api/workspaces/route.ts:14 | a trimmed string has no whitespace at either end |
| Text.TrimIdempotent | app/api/workspaces/route.ts:14 | trimming twice is trimming once |
| Text.TrimEmptyIffBlank | app/api/workspaces/route.ts:14 | the trimmed text is empty exactly when the input is all whitespace |
| Text.Split | components/Stakeholders/StakeholderForm.tsx:48-51 | split gives at least one piece and no piece holds the separator |
| Text.JoinSplit | components/Stakeholders/StakeholderForm.tsx:48-51 | joining the pieces with the separator gives back the string |
| Text.SplitSingle | lib/integrations/calendar.ts:118 | there is one piece exactly when the separator does not occur |
| Text.SplitJoin | components/Stakeholders/StakeholderForm.tsx:33-51 | splitting a join of separator-free pieces gives back the pieces |
| Text.DigitPrefix | lib/data.ts:31 | the longest run of digits at the start |
| Text.NatToString | lib/data.ts:36 | a number prints as a non-empty string of digits |
| Text.NatToStringValue | lib/data.ts:36 | the digits printed for a number denote that number |
| Text.ParseIntNatToString | lib/data.ts:30-36 | parseInt reads back the number an id was printed with |
| Text.StrLessIrreflexive | components/Dashboard/CoverageMap.tsx:20 | no string sorts before itself |
| Text.StrLessTransitive | components/Dashboard/CoverageMap.tsx:20 | the string order is transitive |
| Text.StrLessTotal | components/Dashboard/CoverageMap.tsx:20 | of two different strings one sorts first |
| Text.StrLessAsymmetric | components/Dashboard/CoverageMap.tsx:20 | two strings never sort before each other |
| Sorting.WithKey | app/timeline/page.tsx:88 | the elements with a given key come from the list and carry that key |
| Sorting.WithKeyAppend | app/timeline/page.tsx:88 | selecting by key distributes over concatenation |
| Sorting.InsertPos | app/timeline/page.tsx:88 | an element goes after every strictly larger key and before the first key not larger |
| Sorting.InsertSorted | app/timeline/page.tsx:88 | inserting into a descending list keeps it descending |
| Sorting.SortDescSorted | app/timeline/page.tsx:88 | the sorted list is descending by key |
| Sorting.SortDescPermutation | app/timeline/page.tsx:88 | the sorted list is a permutation of the input |
| Sorting.SortDescStable | app/timeline/page.tsx:88 | elements with equal keys keep their relative order (a stable sort) |
| Sorting.SortDescLength | app/timeline/page.tsx:88 | sorting keeps the length |
| Sorting.SortDescElements | app/timeline/page.tsx:88 | sorting keeps exactly the elements of the input |
| SenderParsing.DropBrackets | lib/integrations/gmail.ts:24 | the fallback address holds no angle bracket |
| SenderParsing.DotsToSpaces | lib/integrations/gmail.ts:25 | replacing dots and separators keeps the length |
| SenderParsing.CapitalizeAll | lib/integrations/gmail.ts:26-29 | every word gets its first letter upper-cased |
| SenderParsing.Fallback | lib/integrations/gmail.ts:24-30 | without a regex match the address is the trimmed, lower-cased input without angle brackets |
| SenderParsing.ExtractNameFromEmail | lib/integrations/gmail.ts:18-31 | on a regex match, the trimmed first group and the lower-cased trimmed second group; otherwise the fallback |
| SenderParsing.DisplayGroups | lib/integrations/gmail.ts:20 | `Name <address>` matches with the name and the address as the two groups |
| SenderParsing.DisplayForm | lib/integrations/gmail.ts:20-23 | `Name <address>` yields the trimmed name and the lower-cased address |
| SenderParsing.BareGroups | lib/integrations/gmail.ts:20 | a bare address matches too: all but the last local character form the name |
| SenderParsing.BareAddress | lib/integrations/gmail.ts:20-23 | "john@example.com" parses as the name "joh" and the address "n@example.com" |
| SenderParsing.LeadingBracketFallsBack | lib/integrations/gmail.ts:20-24 | a header starting with '<' never matches and takes the fallback |
| SenderParsing.NoAtFallsBack | lib/integrations/gmail.ts:20-24 | a header without '@' never matches and takes the fallback |
| SenderParsing.FallbackAddress | lib/integrations/gmail.ts:24 | the fallback address has no brackets and no upper-case letters |
| SenderParsing.SplitBefore | lib/integrations/gmail.ts:25 | the local part before '@' is the first piece of the split |
| Matching.FirstEmailMatch | lib/integrations/gmail.ts:39-41 | the first stakeholder whose email equals the address ignoring case, or none exactly when none does |
| Matching.FirstNameMatch | lib/integrations/gmail.ts:45-53 | the first stakeholder whose name contains, or is contained in, the sender name ignoring case |
| Matching.MatchStakeholder | lib/integrations/gmail.ts:33-55 | no match exactly when neither rule matches anyone; an email match wins whenever one exists |
| Matching.EmailBeforeName | lib/integrations/gmail.ts:39-42 | the first email match is returned whatever the name says |
| Matching.FirstByName | lib/integrations/gmail.ts:45-54 | without an email match the first name match is returned |
| Matching.EmptyNameMatchesFirst | lib/integrations/gmail.ts:45-53 | an empty sender name matches the first stakeholder of the list |
| Matching.EmptyStoredNameMatches | lib/integrations/gmail.ts:48-52 | a stakeholder with an empty name matches every sender name |
| Matching.EmailCaseInsensitive | lib/integrations/gmail.ts:39-41 | the email rule ignores the case of the address |
| GmailSync.ThreadOf | lib/integrations/gmail.ts:112-135 | the record keeps the parsed sender address and the date, and flags an invite exactly when the content type or subject says so |
| GmailSync.ReadThread | lib/integrations/gmail.ts:101-138 | the records after one thread are exactly those of the message loop: an already kept sender is skipped, a new sender's message is kept, an invalid date ends the thread; the processed set stays the set of kept senders |
| GmailSync.ReadFromGrows | lib/integrations/gmail.ts:101-138 | one thread only appends records, for senders not kept before, so senders stay unique |
| GmailSync.ReadFromFirst | lib/integrations/gmail.ts:104-135 | each record a thread adds is that of its sender's first message in the thread, which had a valid date |
| GmailSync.ReadFromComplete | lib/integrations/gmail.ts:101-138 | when every date in a thread is valid, every sender of the thread ends up kept |
| GmailSync.CollectThreads | lib/integrations/gmail.ts:89-143 | the records are exactly those of the loop over the first 30 fetched threads |
| GmailSync.CollectedShape | lib/integrations/gmail.ts:89-143 | one record per sender, each that of a fetched message with a valid date; when every date is valid, every sender of a fetched message is collected |
| GmailSync.EntryOf | lib/integrations/gmail.ts:146-163 | the position of a contact's entry, or none exactly when there is no entry |
| GmailSync.AggregateNew | lib/integrations/gmail.ts:149-155 | a sender not yet in the map appends exactly one new entry built from the thread |
| GmailSync.AggregateMerge | lib/integrations/gmail.ts:156-162 | a known sender's entry, and only it, gets the subject appended and the later of the two dates |
| GmailSync.AggregateContacts | lib/integrations/gmail.ts:146-163 | the entries are exactly the map after every thread, in insertion order |
| GmailSync.FirstsMeaning | lib/integrations/gmail.ts:146-163 | the map's keys are the senders, each once |
| GmailSync.LatestFromMax | lib/integrations/gmail.ts:156-161 | the date held for a sender is the date of one of its threads and no thread of it is later |
| GmailSync.NameFromFirst | lib/integrations/gmail.ts:149-155 | the name held for a sender is the one its first thread gave |
| GmailSync.SubjectsFromUnique | lib/integrations/gmail.ts:113-137 | with one record per sender, each sender has exactly one subject |
| GmailSync.OneSubjectEach | lib/integrations/gmail.ts:202-221 | every aggregated contact has one subject, so the "two or more subjects" creation branch is never taken |
| GmailSync.ContactPatch | lib/integrations/gmail.ts:171-185 | an update is sent exactly when the record lacks an email or the contact date is later |
| GmailSync.UpdatesNeeded | lib/integrations/gmail.ts:187-189 | the update count is zero exactly when no contact needs an update |
| GmailSync.EvolvedUpdate | lib/integrations/gmail.ts:187-192 | applying a contact's patch keeps the record a forward evolution of its snapshot |
| GmailSync.EvolvedForward | lib/integrations/gmail.ts:166-193 | a synced record keeps id and name; an email is only set where none was; a date only moves later |
| GmailSync.FirstThrow | lib/integrations/gmail.ts:195-200 | the first contact that is unmatched and has no '@', or the end when none is: the loop gets through every contact before it |
| GmailSync.ReconcileOne | lib/integrations/gmail.ts:166-200 | one contact: the store becomes the record list after that contact; it throws exactly when unmatched without an '@', and writes exactly when it needs an update |
| GmailSync.ReconcileContacts | lib/integrations/gmail.ts:166-223 | the records are exactly the writes of the contacts before the first throw; it fails exactly when some contact throws; otherwise the count is the number of contacts needing an update; activities untouched |
| GmailSync.ReconcileMeaning | lib/integrations/gmail.ts:166-223 | those writes keep the length and the ids, and move every record forward from its snapshot |
| GmailSync.Snippet | lib/integrations/gmail.ts:275 | a prefix of at most 150 characters, the whole text when short enough |
| GmailSync.LoggedBy | lib/integrations/gmail.ts:226-283 | a thread is logged exactly when it belongs to the pass, its sender matches a stakeholder and no activity of that type was read for them that day; the log is for that one stakeholder, on the thread's date, of the pass's type, with the pass's summary |
| GmailSync.Drafts | lib/integrations/gmail.ts:226-283 | every draft of a pass is a fresh one-participant log of the pass's type, no more than the threads |
| GmailSync.DraftsMembers | lib/integrations/gmail.ts:226-283 | a pass logs exactly the threads LoggedBy accepts: every draft is one thread's log, and every accepted thread's log is among the drafts |
| GmailSync.SameDayTwice | lib/integrations/gmail.ts:264-270 | two emails from one stakeholder on one day in one sync are both logged |
| GmailSync.LogPass | lib/integrations/gmail.ts:227-283 | the pass appends exactly its drafts, with fresh ids, counts them, and leaves stakeholders alone |
| GmailSync.UpdateFromThreads | lib/integrations/gmail.ts:146-223 | the records are exactly the writes of the aggregated contacts before the first throw; it fails exactly when some contact throws, else counts the needed updates; activities untouched |
| GmailSync.LogThreads | lib/integrations/gmail.ts:225-283 | the invite pass then the email pass append exactly both passes' drafts, counted, and leave stakeholders alone |
| GmailSync.SyncLogsFresh | lib/integrations/gmail.ts:225-283 | every log of the sync is for one known stakeholder, of a type not logged for them that day at the start, and there are no more logs than threads |
| GmailSync.ProcessThreads | lib/integrations/gmail.ts:145-290 | the exact outcome: the writes before the first throw; the sync error, with nothing logged, exactly when a contact throws; otherwise both passes' logs appended and the counts |
| GmailSync.SyncMeaning | lib/integrations/gmail.ts:145-290 | the exact outcome keeps the promises: ids kept, records only moved forward, nobody created, fresh one-participant logs appended, nothing appended on an error |
| GmailSync.SyncGmail | lib/integrations/gmail.ts:57-298 | the exact outcome over the threads collected from the fetched messages, and so the promises |
| CalendarSync.AttendeeOf | lib/integrations/calendar.ts:86-90 | an attendee keeps their email and always has a name, the display name when one is set |
| CalendarSync.EventOf | lib/integrations/calendar.ts:84-100 | an event keeps its start and every attendee and always has a title |
| CalendarSync.Started | lib/integrations/calendar.ts:81-83 | exactly the listed events with a start time are kept |
| CalendarSync.ReadEvents | lib/integrations/calendar.ts:79-101 | one event record per listed event with a start, in order, each built from its listed event |
| CalendarSync.TouchEffect | lib/integrations/calendar.ts:146-161 | for a past meeting, the first record with the matched id gets the event's date exactly when it is later than the matched record's, and the attendee's email exactly when the matched record has none; nothing else in the list changes, and an unknown id changes nothing |
| CalendarSync.AttendeeStepCreates | lib/integrations/calendar.ts:116-144 | an unmatched attendee of the account's domain becomes one new record at the end of both the store and the working list, under a fresh id, matched and counted as new, with no other count changed |
| CalendarSync.ResolveAttendee | lib/integrations/calendar.ts:110-144 | it creates exactly when the working list has no match and the address is at the account's domain; otherwise the match is returned and nothing changes; a created record is appended to the store and to the working list |
| CalendarSync.TouchMatched | lib/integrations/calendar.ts:146-161 | the store becomes the touched list, and the update is counted exactly when the meeting is past and later than the matched record's last contact |
| CalendarSync.SyncAttendee | lib/integrations/calendar.ts:107-163 | one attendee moves the store, working list, matched ids and counts exactly as the attendee step: skip empty and resource addresses, match or create, then touch |
| CalendarSync.AttendeeStepState | lib/integrations/calendar.ts:107-163 | each attendee keeps old records as their snapshot with only email and date changed forward, new records at the end, ids unique; a future meeting counts no update |
| CalendarSync.Names | lib/integrations/calendar.ts:176-179 | the names of the matched participants, none of them empty |
| CalendarSync.EventLogMeaning | lib/integrations/calendar.ts:165-190 | an event logs a meeting exactly when it is past, someone was matched and no Meeting read at the start shares a participant that day; the meeting lists the matched ids on the event's date |
| CalendarSync.SyncEvent | lib/integrations/calendar.ts:104-191 | one event leaves the store, working list and counts exactly as the attendee fold, and appends exactly the meeting that the event logs, if any |
| CalendarSync.RunEvent | lib/integrations/calendar.ts:104-192 | one event advances the run (records, working list, logs, counts) exactly as the run's event step |
| CalendarSync.EventRunState | lib/integrations/calendar.ts:104-192 | each event keeps the run's invariant: forward-only updates, created records at the end, every log a fresh past meeting of known participants; a future event counts no update and no log |
| CalendarSync.SyncEvents | lib/integrations/calendar.ts:104-193 | the store's records, the appended meetings and the counts are exactly those of the run over the events |
| CalendarSync.CalendarMeaning | lib/integrations/calendar.ts:104-193 | the run's result meets the calendar outcome: old records only moved forward, new records at the end, one fresh past meeting per logged activity; with only future events nothing is updated or logged |
| CalendarSync.SyncCalendar | lib/integrations/calendar.ts:46-208 | the store and counts are exactly those of the run over the listed events that have a start, so they meet the calendar outcome; with only future events nothing is updated or logged |
| CalendarSync.MeetingsWith | lib/integrations/calendar.ts:217-220 | exactly the meetings the stakeholder took part in |
| CalendarSync.LastMeetingIsLatest | lib/integrations/calendar.ts:217-226 | there is no last meeting exactly when there is no meeting; otherwise it is the latest meeting date |
| CalendarSync.OverdueGaps | lib/integrations/calendar.ts:214-241 | exactly the P0/P1 stakeholders never met or not met for 15 days or more |
| CalendarSync.GapCompareInconsistent | lib/integrations/calendar.ts:242-246 | the comparator ranks each of two never-met stakeholders before the other |
| CalendarSync.GapCompareAgrees | lib/integrations/calendar.ts:242-246 | wherever the comparator is consistent, it orders as the corrected key does |
| CalendarSync.SortGapsOrder | lib/integrations/calendar.ts:242-246 | the corrected sort puts never-met first, then by days since meeting, descending |
| CalendarSync.DetectMeetingGaps | lib/integrations/calendar.ts:210-241 | the gaps are exactly the overdue key stakeholders, one per stakeholder kept by the filter |
| CalendarSync.MeetingGapsOrder | lib/integrations/calendar.ts:242-246 | never-met first, then the longest gaps first, and ties keep the list order |
| CalendarSync.MeetingGapsDates | lib/integrations/calendar.ts:225-241 | a gap has a last date exactly when it has a day count, and that date lies 15 or more days back |
| CriticalAlerts.RuleAlert | components/Dashboard/CriticalAlerts.tsx:22-92 | a rule's alert names the stakeholder and is critical, except the cooling champion warning |
| CriticalAlerts.Pushes | components/Dashboard/CriticalAlerts.tsx:22-62 | a rule pushes at most one alert per stakeholder |
| CriticalAlerts.SilentTeams | components/Dashboard/CriticalAlerts.tsx:70-78 | exactly the teams whose members were all never contacted |
| CriticalAlerts.TeamAlertsOver | components/Dashboard/CriticalAlerts.tsx:70-78 | team alerts are critical, name no stakeholder and are at most one per team |
| CriticalAlerts.WeakPushes | components/Dashboard/CriticalAlerts.tsx:95-111 | the weak-key rule pushes at most one alert per stakeholder |
| CriticalAlerts.PushRule | components/Dashboard/CriticalAlerts.tsx:22-34 | the loop appends exactly the rule's alerts |
| CriticalAlerts.GroupByTeam | components/Dashboard/CriticalAlerts.tsx:65-69 | the map holds each team once, in first-seen order, with all its members |
| CriticalAlerts.PushTeams | components/Dashboard/CriticalAlerts.tsx:70-78 | the loop appends exactly the team alerts |
| CriticalAlerts.PushWeak | components/Dashboard/CriticalAlerts.tsx:95-111 | the loop appends exactly the weak-key alerts |
| CriticalAlerts.GenerateAlerts | components/Dashboard/CriticalAlerts.tsx:18-114 | at most eight alerts, the first ones of the full list in rule order |
| CriticalAlerts.PushesMembers | components/Dashboard/CriticalAlerts.tsx:22-62 | an alert is pushed exactly when its rule fires for some stakeholder |
| CriticalAlerts.PushesSeverity | components/Dashboard/CriticalAlerts.tsx:28-91 | rule alerts are critical except the champion warning, and each names a stakeholder |
| CriticalAlerts.WeakPushesWarnings | components/Dashboard/CriticalAlerts.tsx:103-110 | weak-key alerts are warnings naming a stakeholder |
| CriticalAlerts.CriticalBeforeWarning | components/Dashboard/CriticalAlerts.tsx:18-111 | once a non-critical alert appears, every later one is a warning |
| CriticalAlerts.ShownCriticalFirst | components/Dashboard/CriticalAlerts.tsx:113 | the eight shown alerts keep critical before warning |
| CriticalAlerts.TeamAlertRule | components/Dashboard/CriticalAlerts.tsx:64-78 | a team is alerted exactly when it has members and none was ever contacted |
| CriticalAlerts.TeamAlertsExact | components/Dashboard/CriticalAlerts.tsx:70-78 | each team alert belongs to a silent team and carries its member count |
| CriticalAlerts.MembersExact | components/Dashboard/CriticalAlerts.tsx:71 | the team check looks at every member of the team |
| CriticalAlerts.WeakNotRepeated | components/Dashboard/CriticalAlerts.tsx:104 | no weak-key alert names a stakeholder already named before it |
| CriticalAlerts.WeakCovered | components/Dashboard/CriticalAlerts.tsx:103-110 | every weak key stakeholder ends up named by some alert |
| CriticalAlerts.SeveralAlertsForOne | components/Dashboard/CriticalAlerts.tsx:21-78 | an at-risk P0 never contacted gets two alerts of their own plus their team's |
| CoverageMap.InsertStr | components/Dashboard/CoverageMap.tsx:20 | insertion adds one string and keeps the others |
| CoverageMap.SortStrings | components/Dashboard/CoverageMap.tsx:20 | sorting permutes the team names |
| CoverageMap.SortStringsIncreasing | components/Dashboard/CoverageMap.tsx:20 | distinct names come out strictly increasing in string order |
| CoverageMap.SortedTeamsMeaning | components/Dashboard/CoverageMap.tsx:20 | the rows are every team that has a stakeholder, each once, in string order |
| CoverageMap.CountEngaged | components/Dashboard/CoverageMap.tsx:52-55 | no more engaged members than members |
| CoverageMap.CountNever | components/Dashboard/CoverageMap.tsx:63-65 | no more never-contacted members than members |
| CoverageMap.Rows | components/Dashboard/CoverageMap.tsx:50-82 | one row per sorted team, in that order |
| CoverageMap.RowCounts | components/Dashboard/CoverageMap.tsx:51-69 | every row has a member, no more engaged than members, and a percentage in 0..100 |
| CoverageMap.CountNeverAll | components/Dashboard/CoverageMap.tsx:63-73 | all members are never contacted exactly when the never count is the member count |
| CoverageMap.NeverNotEngaged | components/Dashboard/CoverageMap.tsx:52-65 | members never contacted are never engaged |
| CoverageMap.NoContactMeaning | components/Dashboard/CoverageMap.tsx:71-75 | "no contact" exactly when no member has a contact date, and then 0% engaged |
| CoverageMap.ContactedMeaning | components/Dashboard/CoverageMap.tsx:64-76 | the No Contact test fails exactly when some member was contacted, and the blocker flag is set exactly when some member is a risky blocker |
| CoverageMap.GoodMeaning | components/Dashboard/CoverageMap.tsx:71-82 | Good exactly when someone was contacted, no blocker is At Risk, Unknown or Weak, and at least 65.5% are engaged before rounding |
| CoverageMap.PartialMeaning | components/Dashboard/CoverageMap.tsx:71-82 | Partial exactly when someone was contacted, no blocker is risky, and between 32.5% (included) and 65.5% (excluded) are engaged before rounding |
| CoverageMap.PercentAtLeast | components/Dashboard/CoverageMap.tsx:66-82 | the rounded percentage is 66 or more exactly when at least 65.5% are engaged |
| CoverageMap.PercentBelow | components/Dashboard/CoverageMap.tsx:66-78 | the rounded percentage is below 33 exactly when fewer than 32.5% are engaged |
| CoverageMap.AtRiskMeaning | components/Dashboard/CoverageMap.tsx:71-78 | At Risk exactly when someone was contacted and a blocker is At Risk, Unknown or Weak or fewer than 32.5% are engaged |
| CoverageMap.ChipsInRoleOrder | components/Dashboard/CoverageMap.tsx:107-112 | the chips are the members ordered by role rank, members of one role in list order |
| QuickStats.CountAtRisk | components/Dashboard/QuickStats.tsx:33-39 | no more at-risk relationships than stakeholders |
| QuickStats.CountP0 | components/Dashboard/QuickStats.tsx:47 | no more P0 stakeholders than stakeholders |
| QuickStats.CountStrong | components/Dashboard/QuickStats.tsx:68 | no more strong relationships than stakeholders |
| QuickStats.ComputeStats | components/Dashboard/QuickStats.tsx:11-68 | the total is the list length; P0 and at-risk counts are within it; engaged teams within teams, teams within the total |
| QuickStats.TeamsBound | components/Dashboard/QuickStats.tsx:14 | there are no more teams than stakeholders |
| QuickStats.DaySumBounds | components/Dashboard/QuickStats.tsx:26-29 | the day sum lies between the per-stakeholder bounds times the count |
| QuickStats.AverageBounds | components/Dashboard/QuickStats.tsx:24-31 | the rounded average lies between the per-stakeholder bounds |
| QuickStats.AllNeverContacted | components/Dashboard/QuickStats.tsx:24-31 | when nobody was contacted the average is 90 days |
| QuickStats.EmptyStats | components/Dashboard/QuickStats.tsx:11-68 | an empty list gives all-zero statistics and no flags |
| QuickStats.StrongAndAtRiskDisjoint | components/Dashboard/QuickStats.tsx:33-39 | strong and at-risk relationships never overlap |
| QuickStats.P0CountZero | components/Dashboard/QuickStats.tsx:47 | the P0 count is zero exactly when no stakeholder is P0 |
| QuickStats.UnknownChampionNotAtRisk | components/Dashboard/QuickStats.tsx:33-39 | an Unknown relationship counts as at risk only for buyers and blockers |
| OrgChart.RootsOf | components/Stakeholders/OrgChart.tsx:135-138 | exactly the stakeholders without a known manager |
| OrgChart.ChildrenMembers | components/Stakeholders/OrgChart.tsx:135-143 | a manager's children are exactly the non-roots that report to them |
| OrgChart.BuildTree | components/Stakeholders/OrgChart.tsx:145-148 | a node holds the stakeholder it was built for |
| OrgChart.Forest | components/Stakeholders/OrgChart.tsx:150 | one tree per root |
| OrgChart.IndexById | components/Stakeholders/OrgChart.tsx:128-129 | the map has a key exactly for each stakeholder id |
| OrgChart.FileUnder | components/Stakeholders/OrgChart.tsx:132-143 | the loop yields the roots and the children map |
| OrgChart.OrgTrees | components/Stakeholders/OrgChart.tsx:126-151 | the component renders the forest of the roots |
| OrgChart.RootsAndChildren | components/Stakeholders/OrgChart.tsx:135-143 | every stakeholder is a root or filed under their manager |
| OrgChart.TreeSound | components/Stakeholders/OrgChart.tsx:145-150 | everyone in a tree reports, through a chain, to its root |
| OrgChart.TreeComplete | components/Stakeholders/OrgChart.tsx:145-150 | everyone reporting through a chain to the root is in its tree |
| OrgChart.ForestMeaning | components/Stakeholders/OrgChart.tsx:145-150 | someone appears exactly when they report through a chain to a root |
| OrgChart.BelowClosed | components/Stakeholders/OrgChart.tsx:145-150 | no one in a closed reporting cycle has a root above them |
| OrgChart.CycleNotShown | components/Stakeholders/OrgChart.tsx:145-150 | members of a reporting cycle are not shown at all |
| OrgChart.MutualReportsClosed | components/Stakeholders/OrgChart.tsx:136 | two people reporting to each other form such a cycle |
| OrgChart.ChainDistinctAt | components/Stakeholders/OrgChart.tsx:136-141 | with unique ids a chain from a root down through managers never meets the same person twice |
| OrgChart.ChainBound | components/Stakeholders/OrgChart.tsx:136-141 | with unique ids such a chain is no longer than the stakeholder list |
| OrgChart.FuelEnoughAt | components/Stakeholders/OrgChart.tsx:145-147 | with unique ids, below a chain of length L any depth of at least the list's length minus L builds the same subtree |
| OrgChart.FuelEnough | components/Stakeholders/OrgChart.tsx:145-150 | with unique ids, a root's tree built as deep as the list is long equals every deeper build, so the bound cuts nothing off |
| RecentActivity.NameList | components/Dashboard/RecentActivity.tsx:50-55 | one name per participant |
| RecentActivity.RecentMeaning | components/Dashboard/RecentActivity.tsx:28-30 | at most eight activities, newest first, none newer left out |
| RecentActivity.NameOfMeaning | components/Dashboard/RecentActivity.tsx:50-55 | one id shows the name of the first stakeholder carrying it (find stops at the first), or "Unknown" when none does |
| RecentActivity.NameListMeaning | components/Dashboard/RecentActivity.tsx:50-55 | each participant shows the name of the first stakeholder with their id, and an unknown id shows "Unknown" |
| RecentActivity.NamesOfOneOrNone | components/Dashboard/RecentActivity.tsx:50-55 | one participant shows their name alone, none shows nothing |
| SmartImport.StripOpening | app/api/smart-import/route.ts:66 | the opening fence and its language tag are removed from the front |
| SmartImport.StripClosing | app/api/smart-import/route.ts:66 | a trailing fence is removed from the end |
| SmartImport.StripFences | app/api/smart-import/route.ts:64-67 | an unfenced reply is just trimmed; a fenced one only gets shorter |
| SmartImport.StripClosingBlock | app/api/smart-import/route.ts:66 | a body followed by a closing fence gets the body back |
| SmartImport.StripJsonBlock | app/api/smart-import/route.ts:64-67 | a json-fenced block gives back its body |
| SmartImport.StripPlainBlock | app/api/smart-import/route.ts:64-67 | a plain-fenced block gives back its body |
| SmartImport.StripIgnoresPadding | app/api/smart-import/route.ts:64 | surrounding whitespace does not change the result |
| SmartImport.EnrichAll | app/api/smart-import/route.ts:80-98 | each extracted person is enriched in place, in order |
| SmartImport.EnrichMeaning | app/api/smart-import/route.ts:81-96 | existing exactly when the matcher finds someone, new otherwise; nothing else changes |
| SmartImport.HandleParse | app/api/smart-import/route.ts:39-101 | a 400 for a blank transcript or missing source; a 500 exactly when the JSON does not parse; otherwise the parsed reply with people enriched |
| SmartImport.Dedup | app/api/smart-import/route.ts:158 | the same tags without repeats |
| SmartImport.DedupDistinct | app/api/smart-import/route.ts:158 | the deduplicated tags are distinct |
| SmartImport.DedupPrefix | app/api/smart-import/route.ts:158 | the existing tags keep their place at the front |
| SmartImport.DedupDistinctFixed | app/api/smart-import/route.ts:158 | distinct tags come back unchanged |
| SmartImport.MergePatchForward | app/api/smart-import/route.ts:149-172 | a merge keeps other fields, never moves the date back, keeps every tag, extends the notes; it writes exactly when something is new |
| SmartImport.MergeTags | app/api/smart-import/route.ts:157-160 | merged tags are the old ones first, then the new ones, each once |
| SmartImport.MergeNotes | app/api/smart-import/route.ts:166-170 | new notes replace empty notes or are appended behind a dated Smart Import marker |
| SmartImport.Keys | app/api/smart-import/route.ts:119 | the names the id map is keyed on, in order |
| SmartImport.ObjectValuesOrder | app/api/smart-import/route.ts:182 | Object.values lists every entry once; names that are array indices come first, in ascending numeric order, then the other names in insertion order; without index names it is the insertion order |
| SmartImport.Assign | app/api/smart-import/route.ts:137-139 | setting a name maps it to the id, leaves other names alone, and keeps key order; the name "__proto__" leaves the map unchanged |
| SmartImport.AssignKeys | app/api/smart-import/route.ts:137-139 | the keys stay distinct and gain the name, unless it is "__proto__" |
| SmartImport.NewEntries | app/api/smart-import/route.ts:122-123 | the entries to create come from the list |
| SmartImport.IdMap | app/api/smart-import/route.ts:119-141 | one key per mapped name other than "__proto__", and no other keys |
| SmartImport.IdMapLastNew | app/api/smart-import/route.ts:122-137 | a new person maps to the id just created; one named "__proto__" is created but leaves the map unchanged, so it is no participant |
| SmartImport.IdMapLastMatched | app/api/smart-import/route.ts:138-139 | a matched person maps to the matched id; one named "__proto__" leaves the map unchanged |
| SmartImport.IdMapValues | app/api/smart-import/route.ts:119-141 | every participant id was created or matched |
| Domain.FindIsFirst | app/api/smart-import/route.ts:146 | `find` returns the record at the index `findIndex` would update |
| SmartImport.CreateNew | app/api/smart-import/route.ts:121-141 | creates one stakeholder per new entry, with fresh ids, keeping activities |
| SmartImport.ApplyUpdate | app/api/smart-import/route.ts:145-177 | a record is updated exactly when the id is present and the merge writes some field; then exactly the first record with that id is replaced by the merged record, which is returned; otherwise nothing changes |
| SmartImport.AppliedToMeaning | app/api/smart-import/route.ts:145-177 | one update keeps the ids, merges every record forward, changes only records with its id, and returns a record with that id that is in the list |
| SmartImport.ApplyUpdates | app/api/smart-import/route.ts:144-179 | the records and the updated list are exactly those of applying the entries in order; ids kept, every record merged forward, records not named unchanged, at most one updated record per entry |
| SmartImport.MergesMeaning | app/api/smart-import/route.ts:144-179 | applying the entries in order keeps the ids, merges every record forward, leaves records not named unchanged, and lists at most one updated record per entry, each named by an entry |
| SmartImport.HandleConfirm | app/api/smart-import/route.ts:103-192 | a 400 that changes nothing without a payload; otherwise one stakeholder created per new entry, then the update entries applied in order to the grown list, then one activity appended with the id map's values in Object.values order and the "[Smart Import] " summary |
| SmartImportPage.SelectedList | app/smart-import/page.tsx:117-119 | the selected people come from the extracted list |
| SmartImportPage.SelectedListMeaning | app/smart-import/page.tsx:117-119 | the filter keeps exactly the people whose checkbox is ticked, one element per ticked row |
| SmartImportPage.UpdatesOf | app/smart-import/page.tsx:121-129 | no more updates than extracted people |
| SmartImportPage.UpdatesOfMeaning | app/smart-import/page.tsx:121-129 | each update is for a matched existing person under their id, dated the activity's date, with their tags and notes; and every existing person with a non-empty matched id has their update |
| SmartImportPage.CountStatus | app/smart-import/page.tsx:166-174 | the count is within the list |
| SmartImportPage.CountStatusMeaning | app/smart-import/page.tsx:166-174 | the count is the number of ticked rows whose person has that status |
| SmartImportPage.CountsWithinSelection | app/smart-import/page.tsx:166-174 | the new and existing counts together do not exceed the selection |
| SmartImportPage.SelectAll | app/smart-import/page.tsx:86-90 | every index of the list is selected, and nothing else |
| SmartImportPage.SelectAllCount | app/smart-import/page.tsx:86-90 | selecting all selects as many as there are people |
| SmartImportPage.Page.constructor | app/smart-import/page.tsx:32-54 | the page starts empty: no transcript, result, selection or error, source Meeting |
| SmartImportPage.Page.CountsBounded | app/smart-import/page.tsx:166-174 | when the summary can be drawn, its counts never exceed the selected count |
| SmartImportPage.Page.SetTranscript | app/smart-import/page.tsx:327 | typing changes only the transcript |
| SmartImportPage.Page.Analyze | app/smart-import/page.tsx:60-106 | a blank transcript sends nothing and shows an error; otherwise a good reply sets the result, selects everyone and copies the proposed activity, while a failed one shows its error and leaves the selection and the activity as they were |
| SmartImportPage.Page.Receive | app/smart-import/page.tsx:66-103 | the old result and import result are cleared; a failed request shows the fixed message and an error reply its message, both leaving the selection and the edited activity as they were; a good reply is stored with every listed person selected and its proposed activity copied |
| SmartImportPage.Page.Payload | app/smart-import/page.tsx:111-141 | a payload exists exactly when there is a result with its people list and an activity; it carries the activity, exactly the ticked people, and their updates dated the activity's day |
| SmartImportPage.Page.Confirm | app/smart-import/page.tsx:111-154 | without a result or an activity nothing changes; otherwise the error is cleared and the payload sent and the answer recorded, and a result without its people list throws before sending and shows the import failure |
| SmartImportPage.Page.Reset | app/smart-import/page.tsx:156-164 | everything but the source type is cleared |
| SmartImportPage.Page.Toggle | app/smart-import/page.tsx:466-471 | flips one checkbox and nothing else |
| SmartImportPage.Page.EditActivity | app/smart-import/page.tsx:707-752 | edits the proposed activity when there is one, and nothing else |
| StakeholdersPage.Filtered | app/stakeholders/page.tsx:31-45 | filtering never adds records |
| StakeholdersPage.Page.constructor | app/stakeholders/page.tsx:11-20 | the page starts with no records, filters off and the form closed |
| StakeholdersPage.Page.HandleAdd | app/stakeholders/page.tsx:47-56 | the created record joins the end, the form closes, and it is shown when it passes the filters |
| StakeholdersPage.FilteredMembers | app/stakeholders/page.tsx:31-45 | a record is shown exactly when it is listed and passes every filter |
| StakeholdersPage.FilteredAppend | app/stakeholders/page.tsx:31-45 | filtering keeps the list order |
| StakeholdersPage.NoFiltersKeepAll | app/stakeholders/page.tsx:31-45 | with every filter off the whole list is shown |
| StakeholdersPage.SearchIgnoresCase | app/stakeholders/page.tsx:32-38 | the search ignores case and an empty search matches all |
| StakeholdersPage.FilteredIdempotent | app/stakeholders/page.tsx:31-45 | filtering twice is filtering once |
| StakeholdersPage.NarrowerTeam | app/stakeholders/page.tsx:39 | turning on the team filter only hides records of other teams |
| StakeholderForm.TrimAll | components/Stakeholders/StakeholderForm.tsx:50 | each piece is trimmed, in place |
| StakeholderForm.NonEmpty | components/Stakeholders/StakeholderForm.tsx:51 | dropping empty pieces never adds one |
| StakeholderForm.NonEmptyMembers | components/Stakeholders/StakeholderForm.tsx:51 | exactly the non-empty pieces remain |
| StakeholderForm.NonEmptyKeepsAll | components/Stakeholders/StakeholderForm.tsx:51 | a list without empty pieces is kept whole |
| StakeholderForm.TagsClean | components/Stakeholders/StakeholderForm.tsx:48-51 | every submitted tag is non-empty, has no comma and no edge whitespace |
| StakeholderForm.Spaced | components/Stakeholders/StakeholderForm.tsx:34 | the pieces a ", " join splits into: the first tag, then each later tag behind a space |
| StakeholderForm.JoinSpaced | components/Stakeholders/StakeholderForm.tsx:34 | joining with ", " is joining the spaced pieces with "," |
| StakeholderForm.TagsRoundTrip | components/Stakeholders/StakeholderForm.tsx:33-51 | clean tags shown in the form and submitted come back the same, in order |
| StakeholderForm.TagsStable | components/Stakeholders/StakeholderForm.tsx:33-51 | saving a form a second time changes no tag |
| StakeholderForm.NewFormDefaults | components/Stakeholders/StakeholderForm.tsx:22-54 | a new stakeholder defaults to the first team, Influencer, P1, Unknown, no date and no tags |
| StakeholderForm.EditUnchanged | components/Stakeholders/StakeholderForm.tsx:22-54 | saving an unchanged edit form gives back every shown field |
| Timeline.Visible | app/timeline/page.tsx:81-87 | filtering never adds activities |
| Timeline.DateOrder | app/timeline/page.tsx:91-98 | each date heading appears once |
| Timeline.OnDate | app/timeline/page.tsx:91-98 | a day's group comes from the list |
| Timeline.GroupByDate | app/timeline/page.tsx:91-98 | the groups are keyed by each date once, in first-seen order, with that date's activities |
| Timeline.DateOrderMembers | app/timeline/page.tsx:91-98 | a date has a heading exactly when some activity is on it |
| Timeline.OnDateMembers | app/timeline/page.tsx:91-98 | a group holds exactly the activities of its date |
| Timeline.GroupsRebuildList | app/timeline/page.tsx:91-250 | for a newest-first list, reading the groups in key order gives back the list |
| Timeline.DatesDecrease | app/timeline/page.tsx:81-98 | the date headings run strictly from newest to oldest |
| Timeline.TimelineShown | app/timeline/page.tsx:81-98 | the shown list is the filtered activities newest first, and its groups rebuild it |
| Timeline.VisibleMembers | app/timeline/page.tsx:81-87 | an activity is shown exactly when it passes both filters |
| Timeline.NoFiltersKeepAll | app/timeline/page.tsx:81-87 | with both filters off every activity is shown |
| Timeline.Links | app/timeline/page.tsx:265-268 | at most one link per participant |
| Timeline.LinksMeaning | app/timeline/page.tsx:265-268 | a link exists exactly for each known participant, with their name |
| Timeline.LinksAllKnown | app/timeline/page.tsx:265-268 | when all participants are known, every one gets a link |
| Timeline.Page.constructor | app/timeline/page.tsx:33-46 | the page starts empty, filters off, the form dated today with type Meeting |
| Timeline.Page.HandleAdd | app/timeline/page.tsx:59-79 | an incomplete form sends nothing and changes nothing; otherwise it sends the fields, appends the reply and clears the form but not its date |
| Workspaces.SkipRun | app/api/workspaces/route.ts:25 | drops exactly the leading characters outside a-z and 0-9 |
| Workspaces.Collapse | app/api/workspaces/route.ts:25 | a leading letter or digit is kept, a leading run of others becomes '-' |
| Workspaces.HandlePost | app/api/workspaces/route.ts:10-53 | 400 for a blank name or one without a letter or digit; a created workspace has a slug id from the name and the trimmed name; a 409 carries the store's message |
| Workspaces.NewWorkspace | app/api/workspaces/route.ts:35-44 | the id and trimmed name are set; each optional text field is the trimmed text when present and "" when absent; present teams are kept and absent ones are []; an absent or empty colour is "emerald" and any other colour is kept |
| Workspaces.CollapseShape | app/api/workspaces/route.ts:22-26 | the collapsed text has only a-z, 0-9 and single hyphens, and keeps a letter or digit exactly when the input had one |
| Workspaces.StripEdgesShape | app/api/workspaces/route.ts:26 | stripping the edge hyphens gives a slug, empty exactly when there was no letter or digit |
| Workspaces.StripEdges | app/api/workspaces/route.ts:26 | at most one '-' is removed at each end: a leading '-' is dropped, the rest is a prefix, and text without hyphens at the edges is kept whole |
| Workspaces.Slug | app/api/workspaces/route.ts:22-26 | every slug is well-formed (a-z, 0-9 and single inner hyphens) and empty exactly when the lower-cased name has no ASCII letter or digit |
| Workspaces.Store | app/api/workspaces/route.ts:46-53 | 201 with exactly the workspace handed over when the store accepts it, else 409 with the store's message |
| Workspaces.TrimKeepsAlnum | app/api/workspaces/route.ts:24 | trimming loses no letter or digit |
| Workspaces.CollapseFixed | app/api/workspaces/route.ts:25 | a slug-shaped string collapses to itself |
| Workspaces.SlugIdempotent | app/api/workspaces/route.ts:22-26 | the slug of a slug is itself |

## Left out

- Persistence: the store class holds the lists; reading and writing the JSON files is not modelled.
- `lib/data.ts` takes no workspace argument, so one store stands for one workspace's data.
- Workspace storage: `addWorkspace` is not part of this model. POST /api/workspaces receives it as a parameter that stores the workspace or reports why not.
- Network and third parties: the Gmail and Calendar API calls, OAuth and token refresh are inputs. So are the language-model call and its matcher (`findStakeholderMatch`). Their answers are parameters.
- Clock: `new Date()` is the parameter `now`.
- Dates are day numbers. Date strings, time zones and time-of-day precision within a date are not modelled. An invalid `Date` header is `None`.
- `formatDate` and `toLocaleDateString` are not modelled, because they depend on the locale.
- Floating point: `Math.round` of a ratio is computed on exact rationals. Where a binary floating-point product lands just below a half, the source may round down where the model rounds up.
- Text is ASCII-only: case mapping and whitespace cover ASCII, not all of Unicode.
- Rendering: JSX, icons, colours, and the message text of alerts and factors are not modelled, except where a message is the response.
- React loading flags, expanded sections, effects that fetch lists, and routing are not modelled.
- The gmail sync's detail strings, `saveSyncState`, and the mapping of auth errors to messages are not modelled. The `to` header is parsed by the source but never used.
- POST /api/smart-import's dispatch on `action` (route.ts:16-37) and its catch-all 500 are not modelled. Only its two handlers are.
- `JSON.parse` is a parameter (`parseJson`).
- Request bodies whose fields are not strings (where `.trim()` would throw) are not modelled. Nor is a body that is not valid JSON, or is `null`: in POST /api/workspaces `request.json()` or the field access throws inside the `try`, and the catch answers 409 with the error's message (app/api/workspaces/route.ts:12, :48-51); Workspaces.HandlePost takes an already parsed body.
- OrgChart.BuildTree: expands at most as many levels as there are stakeholders. With unique ids this cuts nothing off (OrgChart.FuelEnough). With duplicate ids the source can recurse without end, and the model stops at that depth instead.
- OrgChart.ForestMeaning: states who appears, not that each person appears exactly once.
- QuickStats.CountAtRisk: the contract only bounds the count. Its meaning is stated by StrongAndAtRiskDisjoint and UnknownChampionNotAtRisk.
- QuickStats.CountP0: the contract only bounds the count. Its meaning is stated by P0CountZero.
- QuickStats.CountStrong: the contract only bounds the count.
- Utils.IsoDate: the contract states only the length of the YYYY-MM-DD text, not the calendar conversion.
- GmailSync.ProcessThreads: the "create a stakeholder" branch is kept as written. OneSubjectEach proves it never runs, so no gmail sync creates anyone.
- GmailSync.SyncGmail: forward-only updates are judged against the snapshot read at the start. A stale snapshot can write an older date over a newer one written since; that interleaving is not modelled.
- CalendarSync.SyncCalendar: kept as written.
  - It creates stakeholders for attendees of future events.
  - It takes an event's start as the last contact date.
  - It may list a matched id twice in one activity.
- Empty date strings: a stored `lastContactDate` of `""` is not modelled; a date is a day or `None`. The dashboard's never-contacted tests compare with `=== null` (components/Dashboard/CriticalAlerts.tsx:25 and :71, components/Dashboard/CoverageMap.tsx:64), so they would count `""` as contacted, while `daysSince` treats it as missing.
- SmartImportPage.Page.Renders: a parse result without its people list makes the render throw at app/smart-import/page.tsx:167-174 and :380. The model states only the condition, and defines the summary counts where the render succeeds; what the page shows after the throw is not modelled.
- SmartImportPage: a parse result holds only the people list and the proposed activity. Its `actionItems` and `sentimentSignals` (rendered at app/smart-import/page.tsx:389, :398, :549 and :607) and any other field the language model returns are passed through by the route and shown by the page, but are not modelled; the confirm payload does not carry them.
- CoverageMap.SortStrings: orders by code point, character by character. The default `sort` compares UTF-16 code units. The two orders agree except when a character above U+FFFF meets one in U+E000–U+FFFF at the first difference: the code-unit order puts the astral character first. Both differ from alphabetical order for non-ASCII text.
- DataStore.NextIdFresh: id numbers are unbounded integers. The source reads them with `parseInt` and adds 1 in JavaScript numbers (lib/data.ts:30-36). From 2^53 up, `max + 1` can round back to the maximum, so an id already in use is issued again; from 10^21 up the number is written in exponent form. The freshness of Store.AddStakeholder, Store.AddActivity, SmartImport.CreateNew and the sync logs rests on this lemma and has the same limit.

## Findings

| source | as written | input that shows it | evidently intended | confidence | as-written member | corrected member |
|---|---|---|---|---|---|---|
| lib/integrations/calendar.ts:242-246 | the comparator returns -1 whenever `a` has no meeting, even when `b` has none either | two P0 stakeholders with no meeting at all: each compares before the other, so the comparator is inconsistent and the order is left to the engine | never-met first, then longest gap first, with a consistent tie between two never-met | not executed | CalendarSync.GapCompareInconsistent | CalendarSync.MeetingGapsOrder |
