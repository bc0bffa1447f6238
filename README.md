# Inspection workflows over the Appwrite document store

This project models the workflow layer of the front end's data module,
`src/lib/appwrite.js`. The workflows are project membership (create, join,
roles, leave, delete), invitations and their notices, defect reports and
engineer metrics, and the calendar. The model works over an abstract document
store and proves properties of it in Dafny.

## How the store is modelled

- **Store.** `DocumentStore.Store` is a class with one `map<Id, Record>` field
  per collection you can write to, plus the counter behind `ID.unique()`. The
  collections are `users`, `projects`, `user_projects`, `project_invitation`,
  `defects`, `engineers_data`, `checklist`, `checklist_items` and
  `user_calendar`. A workflow is a method whose `modifies` clause names, field
  by field, the collections it may change. Its postcondition gives each
  changed collection exactly. The one exception is `Membership.JoinProject`
  after a partial failure (see "Left out").
- **Ids and order.** Ids are naturals handed out in increasing order. A query
  lists its matches in ascending id order, that is, creation order. So
  `documents[0]` is the least matching id (`Documents.First`).
- **Failed writes.** Any remote write may be rejected (`DocumentStore.Attempt`).
  A `Promise.all` or `Promise.allSettled` fan-out is a loop that issues the
  writes one after the other. It reports the ids (or indices) of the rejected
  writes, and, where a workflow stops part-way, which step was rejected. Where the source catches a rejection,
  the model carries on. Where it rethrows, the model returns `Failure(Remote)`
  or `Fail(Remote)`.
- **Values.** Instants are integer milliseconds since the epoch, in UTC.
  Strings are `seq<char>`. JavaScript string `<` is `Clock.LexLess`.
  `Math.round` is floor(x + 1/2), computed exactly on integers.

## Model

| member | source | states |
|---|---|---|
| Documents.First | src/lib/appwrite.js:742-743 | `documents[0]` of a query: none exactly when nothing matches, otherwise the least matching id |
| Documents.Listed | src/lib/appwrite.js:364-370 | a query result listed as a sequence with one entry per matching document |
| Documents.ListedMembers | src/lib/appwrite.js:364-370 | the listed query result holds exactly the matching ids |
| Documents.ListedAscending | src/lib/appwrite.js:364-370 | the listed query result is in ascending id order, that is, creation order |
| Documents.Without | src/lib/appwrite.js:1374 | `filter((id) => id !== x)` leaves no `x`, keeps every other element and adds nothing |
| Documents.WithoutCounts | src/lib/appwrite.js:1374 | the filter removes exactly the occurrences of `x`, as multisets |
| DocumentStore.DeleteEach | src/lib/appwrite.js:346-354 | a fan-out of deletions removes exactly the targets whose deletion was not rejected |
| DocumentStore.CreateEach | src/lib/appwrite.js:372-388 | a fan-out of creations adds the `i`-th record under `base + i` unless that write was rejected, and changes nothing else |
| Membership.ExistUserOrEmail | src/lib/appwrite.js:123-147 | true iff some user has the username or some user has the email |
| Membership.NameTaken | src/lib/appwrite.js:220-228 | true iff some project already has the name |
| Membership.CreateProject | src/lib/appwrite.js:217-259 | a taken name fails with `Duplicate` and writes nothing. Otherwise the project is created with `members` 1 and `usersIds` `[founder]`, then one 'owner' membership, and the roster is in sync. A rejected project write leaves everything as it was. A rejected membership write leaves the orphan project (`orphan`). The id counter moves by one per write issued. Memberships stay unique |
| Membership.FoundingMembership | src/lib/appwrite.js:243-252 | in a fresh project the founder holds exactly the new membership, nobody else holds one, and uniqueness is kept |
| Membership.AddMembership | src/lib/appwrite.js:303-313 | adding a membership for a pair that had none gives the pair exactly that membership and keeps memberships unique |
| Membership.CheckProjectInvitation | src/lib/appwrite.js:334-360 | deletes the user's pending invitations to the project, except the rejected deletions. Succeeds with their count iff none was rejected |
| Membership.SendAllProjectUsersInvitation | src/lib/appwrite.js:362-393 | creates one 'joined' notice per membership of the project, under consecutive fresh ids, except the rejected ones. Nothing else changes |
| Membership.Holders | src/lib/appwrite.js:372-382 | the users of the listed memberships, position by position |
| Membership.JoinNoticesTo | src/lib/appwrite.js:372-386 | one 'joined' notice per listed member, in the same order |
| Membership.JoinNotices | src/lib/appwrite.js:364-387 | the notices of a join: as many as the project has memberships |
| Membership.JoinProject | src/lib/appwrite.js:263-332 | `NotFound` exactly when the project is missing, and `AlreadyMember` exactly when it exists and the user already holds a membership. Either fails before any write. `Remote` exactly when a write of a valid join is rejected. Success iff neither holds and no write is rejected. On success, the pending invitations are gone, the 'joined' notices are added, the one new membership has the role, and the roster is admitted (`members + 1`, user appended). Memberships stay unique |
| Membership.Enrol | src/lib/appwrite.js:294-324 | the writes of a validated join, with the same success state as `JoinProject` |
| Membership.NotifyAndAdmit | src/lib/appwrite.js:296-324 | the notices, then the membership and roster writes of a join. Success iff no write is rejected |
| Membership.AddMember | src/lib/appwrite.js:300-324 | the membership creation and the roster update, each kept iff accepted |
| Membership.JoinNotifiesExistingMembers | src/lib/appwrite.js:364-387 | one 'joined' notice per existing membership, addressed to its holder, never to the joiner. Every existing member gets one |
| Membership.JoinConsumesPendingInvitations | src/lib/appwrite.js:336-354 | after a successful join, the user has no pending invitation to the project |
| Membership.JoinKeepsRosterInSync | src/lib/appwrite.js:300-323 | a join by a non-member keeps the counter, the id list and the memberships in agreement |
| Membership.RoleTarget | src/lib/appwrite.js:545-553 | the membership `currentDocs.find` picks for a user, present iff the user holds one in the project |
| Membership.Applied | src/lib/appwrite.js:547-572 | role updates keep the set of memberships and change nothing but roles |
| Membership.UpdateUserRoles | src/lib/appwrite.js:531-581 | issues one update per request whose user holds a membership with a different role. The memberships become those writes applied, the rejected ones excepted |
| Membership.ApplyRoles | src/lib/appwrite.js:547-573 | the request loop, judged against the snapshot read before it |
| Membership.RoleChangeWasRequested | src/lib/appwrite.js:554-571 | every role that changed was asked for by an accepted request for that membership's user |
| Membership.SoleRequestApplies | src/lib/appwrite.js:554-566 | an accepted request that is the only one for its user sets that user's role |
| Membership.NoRequestsNoChange | src/lib/appwrite.js:532-535 | an empty request list writes nothing |
| Membership.LinkOf | src/lib/appwrite.js:1284-1288 | the `limit(1)` membership query: at most one of the user's memberships, and empty iff they hold none |
| Membership.ExitNotices | src/lib/appwrite.js:1387-1404 | one 'exited' notice per remaining listed member, in list order |
| Membership.DeleteUserRecords | src/lib/appwrite.js:1342-1370 | deletes the user's non-shared checklists and their items, defects, engineer records, the membership and calendar events of the project, except the rejected deletions. Nothing else changes |
| Membership.DeleteChecklists | src/lib/appwrite.js:1312-1364 | deletes the user's non-shared checklists and the items of those checklists, except the rejected deletions |
| Membership.AnnounceDeparture | src/lib/appwrite.js:1373-1404 | the roster update, kept iff accepted, and one exit notice per remaining listed member, except the rejected ones |
| Membership.LeaveProject | src/lib/appwrite.js:1255-1419 | every collection's new state: the user's records deleted (rejected deletions excepted), invitations involving the user deleted, one exit notice per remaining member, and the roster updated. A missing project skips the roster and the notices but not the deletions. Pass iff the roster update and every notice were accepted |
| Membership.LeaveClearsUserRecords | src/lib/appwrite.js:1266-1303 | after the deletions, none of the user's non-shared checklists, their items, defects, engineer records or events in the project remain. Shared checklists and other users' records stay |
| Membership.LeaveRemovesMembership | src/lib/appwrite.js:1284-1288 | with unique memberships, the user holds none in the project afterwards, and every other membership stays |
| Membership.LeaveKeepsOnlyExitNotices | src/lib/appwrite.js:1289-1299 | after a leave in which no invitation deletion was rejected, the only invitations of the project involving the user are the new exit notices |
| Membership.LeaveNotifiesRemainingMembers | src/lib/appwrite.js:1387-1404 | every exit notice is 'exited', is addressed to a listed member, and is never addressed to the leaver |
| Membership.LeaveKeepsRosterInSync | src/lib/appwrite.js:1373-1384 | a listed member leaving keeps the counter, the id list and the memberships in agreement |
| Membership.WithoutKeepsDistinct | src/lib/appwrite.js:1374 | filtering a list without repeats leaves it without repeats |
| Membership.LeaveByUnlistedUserDecrements | src/lib/appwrite.js:1381-1382 | a leaving user missing from `usersIds` still lowers a positive `members` by one, while the list stays as it was |
| Membership.DeleteProject | src/lib/appwrite.js:1421-1435 | everything `leaveProject` does, then the project record removed (`deleted`). Pass iff the record was removed, which happens only after a leave that passed and only for an existing project. Otherwise the projects are as the leave left them |
| Invitations.CheckUserInvited | src/lib/appwrite.js:731-759 | only the first invitation of the project about the user counts. None: false. An 'exited' notice: deleted and false, or a rejected deletion, as `Failure(Remote)`, with nothing written. Any other status: true |
| Invitations.UserByEmail | src/lib/appwrite.js:712-729 | the user found is one with that email, and none is found iff no user has it |
| Invitations.SendUserInvitations | src/lib/appwrite.js:761-790 | processes the list in order and stops early only when aborted. The store ends as the fold of `Step` over the processed entries |
| Invitations.UnknownEmailIsSkipped | src/lib/appwrite.js:764-787 | an entry whose email belongs to no user changes nothing, and the loop goes on |
| Invitations.DuplicateAbortsBatch | src/lib/appwrite.js:765-769 | an entry whose first invitation is not an 'exited' notice stops the batch, and no later entry writes anything |
| Invitations.StepOnlyAddsPending | src/lib/appwrite.js:770-781 | one entry adds only pending invitations of the project from the sender, and removes only 'exited' notices |
| Invitations.BatchAddsOnlyPendingInvitations | src/lib/appwrite.js:761-790 | a whole batch adds only pending invitations from the sender, removes only 'exited' notices, and leaves older documents as they were |
| Invitations.Marked | src/lib/appwrite.js:1122-1181 | marking messages keeps the set of documents |
| Invitations.MarkEach | src/lib/appwrite.js:1122-1141 | one update per unread message, none per read one. A missing document counts as a rejected update |
| Invitations.MarkedIgnores | src/lib/appwrite.js:1134-1138 | a rejection outside the list has no effect |
| Invitations.MarkedExactlyHits | src/lib/appwrite.js:1122-1181 | for a mark that sets a flag, marking applies it to exactly the documents named by unread messages whose update went through. Every other document stays |
| Invitations.ReadAllMessages | src/lib/appwrite.js:1117-1192 | invitations are marked read by the invited user, then requests read by the owner, then calendar messages read. One write per unread message, the rejected ones excepted |
| Invitations.ReadMessagesWriteNothing | src/lib/appwrite.js:1124-1140 | messages already read cause no write and change nothing |
| Invitations.MarkingIsIdempotent | src/lib/appwrite.js:1130-1132 | marking the same messages twice equals marking them once |
| Invitations.MarkReadByInvitedSetsOnlyTheFlag | src/lib/appwrite.js:1130-1132 | the update sets `read_by_invited` and nothing else, and is idempotent |
| Invitations.UpdateInvitationStatus | src/lib/appwrite.js:1194-1208 | an accepted update sets the status and resets `read_by_owner` to false. Otherwise nothing changes |
| Invitations.DeleteReadRequests | src/lib/appwrite.js:1210-1253 | deletes the sender's answered requests that the owner has read and that are more than a day old, except the rejected deletions |
| Invitations.CleanupKeepsLiveInvitations | src/lib/appwrite.js:1217-1222 | a pending, unread, not-sent-by-this-user or recent invitation survives the clean-up |
| Invitations.AnswerDefersCleanup | src/lib/appwrite.js:1200-1203 | just after an answer, the invitation is not up for clean-up, since the owner has not read it |
| Ledger.AddDefectTransaction | src/lib/appwrite.js:607-710 | on success, the defect is recorded (`Reported`) and the counters are tallied (`Tallied`) under fresh ids exactly where a record is new. The result is the defect's id. On failure, nothing is written to the engineers. The defects are then `Reported` if that step was accepted (`recorded`) and unchanged otherwise. The id counter moves by one per new record written or attempted |
| Ledger.RecordDefect | src/lib/appwrite.js:610-658 | the first defect with the same product and defect id gets the reporter as a finder, or else a new defect is created. A rejected write changes nothing |
| Ledger.TallyReport | src/lib/appwrite.js:663-702 | the reporter's first record gets this report's severity counted, or else a new record is created. A rejected write changes nothing |
| Ledger.ReportKeepsDefectsUnique | src/lib/appwrite.js:621-658 | at most one defect per (product, defect id) is kept. Afterwards that pair has exactly the reported document |
| Ledger.ReportRecordsFinder | src/lib/appwrite.js:621-657 | the reporter is among the finders. An existing defect changes only in its finders. A new defect is `foundByUsers = [reporter]`. No other defect changes |
| Ledger.ReportKeepsFindersDistinct | src/lib/appwrite.js:628-631 | the reporter is appended only when absent, so finder lists stay free of repeats |
| Ledger.ReportIsIdempotent | src/lib/appwrite.js:628-642 | reporting the same defect twice leaves the defects as reporting it once |
| Ledger.TallyCountsSeverity | src/lib/appwrite.js:673-701 | `major` goes up by one iff the severity is 'Major', `minor` iff it is 'Minor'. An existing record changes only in its counters. A new record has zero metrics. No other record changes |
| Ledger.RepeatedReportCountsTwice | src/lib/appwrite.js:680-681 | the same Major report submitted twice raises `major` by two |
| Ledger.TallyKeepsEngineersUnique | src/lib/appwrite.js:673-702 | at most one engineer record per (project, product, user) is kept |
| Ledger.Rate | src/lib/appwrite.js:840-841 | `Math.round(size / (time / 60))` for positive time, bracketed as `time*(2r-1) <= 120*size < time*(2r+1)`. 0 otherwise |
| Ledger.UpdateEngineerInfo | src/lib/appwrite.js:824-855 | `NotFound` exactly when there is no record, and then no write. Any failure writes nothing. Otherwise the first record gets the size, the time, the rate and the estimated yield 85, or a rejected write changes nothing |
| Ledger.MetricsKeepCounters | src/lib/appwrite.js:844-854 | the metrics update keeps the defect counters and the uniqueness of records |
| Clock.DayStart | src/lib/appwrite.js:1465 | the UTC midnight of the instant's day: a multiple of a day, at most a day before the instant |
| Clock.MinuteOfDay | src/lib/appwrite.js:1506-1507 | `60 * getUTCHours() + getUTCMinutes()`, below 1440, and the minute the instant falls in |
| Clock.AtMinute | src/lib/appwrite.js:1464-1470 | an instant built from a midnight and a time of day reads back that day and that minute |
| Clock.Pad2 | src/lib/appwrite.js:1508 | `padStart(2, '0')` gives two digits denoting the number |
| Clock.Format | src/lib/appwrite.js:1508 | `HH:MM` is five characters with a colon in the middle |
| Clock.Parse | src/lib/appwrite.js:1464-1474 | a time that parses denotes a minute of the day |
| Clock.FormatParse | src/lib/appwrite.js:1464-1467 | every printed time parses back to the same minute |
| Clock.ParseFormat | src/lib/appwrite.js:1506-1512 | every time that parses prints back as the same string |
| Clock.Pad2Order | src/lib/appwrite.js:1514 | string order on two padded digits is number order |
| Clock.FormatOrder | src/lib/appwrite.js:1514 | string order on printed times is the order of the times |
| Calendar.Bound | src/lib/appwrite.js:1464-1470 | a stored bound lies one day after the requested date, at the requested minute, with zero seconds and milliseconds |
| Calendar.SlotOf | src/lib/appwrite.js:1464-1474 | there are no bounds iff one of the two times does not parse |
| Calendar.FindBlocker | src/lib/appwrite.js:1485-1518 | the walk over the query result finds a blocker iff some event of the user meets the slot and passes the `HH:MM` test |
| Calendar.SaveCalendarInformation | src/lib/appwrite.js:1452-1549 | the new calendar, counter and outcome are those of `Saved` on the old state |
| Calendar.SaveVerdicts | src/lib/appwrite.js:1472-1518 | `InvalidInput` iff a time does not parse. `Overlap` iff it parses and a blocker exists. Success iff neither holds and the write is accepted |
| Calendar.SaveWrites | src/lib/appwrite.js:1522-1535 | a failed booking writes nothing. A successful one adds exactly its event, with the stored bounds, under the fresh id |
| Calendar.StoredBoundsShowRequest | src/lib/appwrite.js:1464-1478 | each stored bound is on the day after its requested date, and prints as its requested `HH:MM` time |
| Calendar.BlockersOverlapInMinutes | src/lib/appwrite.js:1502-1516 | for parsing times, the string test is the minute test: an event blocks iff it meets the slot and its time-of-day interval overlaps the requested one |
| Calendar.BackToBackIsAccepted | src/lib/appwrite.js:1514 | an event ending when the new one starts, or starting when it ends, does not block |
| Calendar.Scheduled | src/lib/appwrite.js:1575-1590 | one outcome per listed member |
| Calendar.SaveCalendarProjectInformation | src/lib/appwrite.js:1551-1598 | a missing project books nothing. Otherwise the request is booked for each id of `usersIds` in turn, whatever the earlier bookings' outcomes |
| Calendar.ScheduleAddsMembersEvents | src/lib/appwrite.js:1575-1590 | a round keeps every old event, and every new event is the request booked for a listed member |
| Calendar.ScheduleReportsBookedIds | src/lib/appwrite.js:1575-1590 | every successful booking of a round names a new event of that member holding the request |
| Calendar.BlockersIgnoreOthers | src/lib/appwrite.js:1486 | other users' events never block a user's booking |
| Calendar.LastMemberSeesOwnCalendar | src/lib/appwrite.js:1575-1587 | a member listed once is not blocked by the bookings made earlier in the round |
| Calendar.ScheduleChecksEachMemberAlone | src/lib/appwrite.js:1575-1590 | when `usersIds` has no repeats, each member's booking is `InvalidInput` iff a time does not parse, and refused as busy iff one of that member's events from before the round blocks it |
| Calendar.RemindedChangesOnlyFlags | src/lib/appwrite.js:1636-1639 | only `reminded` (to the given status) and `isRead` (to false) change |
| Calendar.ChangeUserCalendarReminded | src/lib/appwrite.js:1630-1648 | an accepted update sets `reminded` and marks the event unread. A missing event or a rejected update fails and writes nothing |
| Calendar.DeletePastUserCalendar | src/lib/appwrite.js:1734-1758 | deletes the user's events that ended more than seven days before now, except the rejected deletions. Succeeds with their count iff none was rejected |
| Calendar.PastCleanupKeepsRecent | src/lib/appwrite.js:1735-1756 | other users' events, recent events and rejected deletions survive, and nothing else does. With no rejection, no past event of the user remains |
| Scenarios.ReinvitingAfterDepartureTwice | src/lib/appwrite.js:742-750 | a user who left a project with two other members is the subject of two 'exited' notices. Inviting them twice leaves two pending invitations for them, because only the first match is examined |
| Scenarios.MultiDayBookingIgnoresInnerEvent | src/lib/appwrite.js:1485-1516 | a booking from 10:00 on one day to 09:00 two days later is not blocked by a 12:00-13:00 event on the day in between, although the intervals meet |

## Left out

- **Account and session functions:** signIn, logOut, signUp, getCurrentUser, existCurrentUser, verification, forgotPassword and resetPassword. They call the Appwrite account service, which is not part of this model.
- **File storage:** uploadFileToStorage, getFileView and getFileDownload. These are blob storage calls.
- **Plain reads, display helpers and single-field CRUD:** the getters (getUserEmail, getUserProjects, getProjectAllUsers, getProjectData, getProjectProducts, getProductData, getUserInfoById, getUsernameById, getProductChecklists, getProjectById, getUserProjectById, getUserCalendar), showUserInvitation, showUserRequest, showUserCalendar, formatAppwriteDate, createProductDocument, updateDefectChecks, updateProjectStatus, and the checklist create/update/delete functions. None of them carries workflow logic beyond one store call or display formatting.
- **Other files:** `src/store/searchStore.js`, `src/main.js`, `vite.config.js` and the component tests are not part of this model.
- **Rejected reads:** only writes may be rejected. A query that throws is not modelled. The exception is leaveProject's item query: it falls back to an empty list, modelled as every item deletion being rejected.
- **Concurrency:** the writes of one fan-out are issued in sequence, and two workflows never interleave. Races between concurrent callers are out of scope.
- **Page size:** `listDocuments` without `Query.limit` returns at most 25 documents. The model lists every match. With more than 25 matches the source touches only the first page, and deletePastUserCalendar reports `response.total` after deleting one page only.
- **Floating point:** the rate is computed exactly on integers (`Ledger.Rate`). The source divides in floating point, and accepts non-integer size and time. The model takes integers.
- **Time parsing:** `Clock.Parse` accepts exactly two-digit hours 00-23, a colon and two-digit minutes 00-59. The end-of-day form `24:00` and any lenient forms the engine's date parser accepts are treated as invalid. The date arguments are taken to be valid instants, so an invalid `Date` (which throws before any request) is not modelled.
- **Collection defaults:** the attributes no workflow sets are taken to start as follows: status 'pending', read flags false, `reminded` and `isRead` false, and `$createdAt` equal to the instant of creation.
- **Project lookup:** `getProjectById` uses `Query.contains('$id', …)` and alerts when nothing matches. The model looks the id up exactly and drops the alert. The alerts of getUserInfoByEmail and sendUserInvitations are user-interface effects and are left out too.
- Membership.JoinProject: when a write is rejected part-way, the contract says only which collections may have changed (its frame), not their contents. On success and on the validation failures it gives the full state.
- Invitations.CheckUserInvited: a rejected deletion makes the source log the error and yield `undefined`. The model reports it as `Failure(Remote)`, which sendUserInvitations treats as "not invited", as the source does.
- Invitations.ReadAllMessages: each message is abstracted as an id and the flag the function tests. For invitations that flag is `read_by_invited`. The items showUserInvitation builds carry it under the name `isRead`, so when those items are passed in, every invitation message counts as unread and is written again.
- Calendar.SaveCalendarProjectInformation: the per-member bookings run concurrently in the source. The model books them in list order. This differs only when `usersIds` lists a member twice: the source may then let both bookings pass the overlap check.
- **Engineer counters:** `addDefectTransaction` raises `major` or `minor` on every call, including a repeated report by the same user (src/lib/appwrite.js:660-681). The model does the same (`Ledger.RepeatedReportCountsTwice`).
