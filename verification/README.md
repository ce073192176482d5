# Odysseus: shared-state protocols, modelled and proved

A Dafny model of the small protocols with which Odysseus keeps shared state consistent. Each module
follows one component of the repository.

| module | component |
|---|---|
| `AuthModel`, `AuthMachine`, `AuthManagement` | users, privileges and session tokens: the operations on values, their interleavings step by step, and the manager as an object |
| `BulkMove` | moving many messages over an IMAP server that may lie, refuse or drop the connection |
| `SessionCache`, `SessionManagement` | the chat session cache over the database, on values and as objects |
| `OwnerLocks`, `DefaultAccount` | the per-owner mutex rows, and one default mail account per owner |
| `Recurrence`, `DefaultCalendar`, `IcsText` | recurrence expansion, first-use calendars, iCalendar text |
| `SearchIndex` | the full-text index kept by triggers, and its migration |
| `AtomicStore` | the JSON store: atomic replacement, locked read-modify-write |
| `MailDates`, `ReplyMerge` | date-range listing, merging a reply into a draft |
| `DeviceFlow` | the device-flow polling store |

Code that updates objects in place is a class whose methods are proved against functions on values;
the laws are lemmas about those functions. Concurrent code is a state machine over atomic steps, and
its laws are about every state of every run. A foreign component (mail server, provider, file system)
may do anything that its step relation or its nondeterministic result allows.

## Assumptions

- Stored messages carry timestamps that increase in insertion order, so a transcript is a sequence.
- A recurrence is a strictly increasing sequence of instants, none before the start of its event.
- A COPY answered OK has copied, a FETCH answered OK names exactly the requested messages that are
  there, and the server moves one message as a whole. Apart from that the mail server may do nothing or
  only a part of what it was asked, with any answer.
- Usernames are already stripped and lower-cased; passwords are compared for equality. Where it matters
  (`WellNamed`) no user has the empty or a reserved name at the start; the loader drops such users.
- Session tokens, poll ids and scratch file names are drawn at random and never repeat.
- The slot ids of one owner's default calendar are distinct (they are name-based UUIDs).
- The local index knows the same Date header for a message as the server.
- The checks of one device poll before the provider is called happen at one instant; the clock does
  not run backwards.

## Where the code does less than it says

- `_bulk_move` ignores the status of its closing FETCH (mcp_servers/email_server.py:3335): a refused
  check reads as "nothing is left", so every message found at the start is reported as moved and loses
  its index row (`RefusedCheckMiscounts` is such a call). Giving up after a refused MOVE that did act
  reports 0 (`GivingUpMiscounts`). `ReportIsReliableWhen` says exactly which reports can be trusted, from
  what the client has seen; no mail is lost in any call (`CallIsSafe`).
- `_expand_rrule` tests the limit of 1000 before the exclusion dates (routes/calendar_routes.py:913-927).
  The `truncated` flag means that something was cut off, except in one case: the window holds exactly
  1000 occurrences and an excluded one comes after them (`FlagIsExactWhen`; `FlagCanOverstate` is an
  instance).
- A rule column of white space only passes the recurring branch of the listing filter and the plain
  branch of the expansion, so it is returned although it ended before the window
  (`ContributionIsExactWhen`).
- A deletion keeps its promise that no session is left exactly when no rename to that name had still to
  sweep sessions when it was accepted (`DeletionIsFinalWhen`; `OverlappingRenameLeavesSession` shows how
  that comes about). `validate_token` rejects such a session, although a comment in `delete_user`
  (core/auth.py:337-339) says it does not look at the user map.
- `add_message` keeps a message in the cache whose insert has failed, and the next read shows it
  (`FailedInsertMisleadsNextRead`). The length test notices a wrong cache exactly when its history is
  shorter than the rows (`ReadIsRightWhen`): right away if the message went to an object at least two
  messages short (`FailedInsertOnCachedIsNoticedWhen`), later once two more messages have been stored
  behind the cache (`FailedInsertIsNoticedLaterWhen`).
- The escaping for iCalendar text passes control characters through, which section 3.3.11 of RFC 5545
  does not allow: the output is valid exactly when the text has none besides HTAB and line breaks
  (`EscapeRoundTrips`, `BellIsNotEscaped`).
- Equal row counts mean that no message is missing from the search index exactly when it holds no
  duplicate and no stray row (`EqualCountsMeanComplete`); otherwise the backfill is skipped although one
  is (`EqualCountsCanHideAMissingMessage`), and only a message with inline media gets its row, from the
  scrub.
- A reply that contains a quote marker becomes part of the quoted chain (`MarkerGrowsQuote`), so merging
  again does not replace it; this happens for every such reply (`SecondMergeWinsIff`).

## Model

| member | source | states |
|---|---|---|
| AuthMachine.LockFreeReadLinearizes | core/auth.py:396-403 | Against any interleaving of writers, the two lock-free reads return what the user could do at some moment between them, across whole promote/demote cycles |
| AuthMachine.EveryStepIsARecordStep | core/auth.py:477-501 | All that one step of any operation can do to a record that is an admin after it: one write of the promotion or demotion order, a password change, or nothing |
| AuthMachine.WritesRefineSetAdmin | core/auth.py:453-502 | The field-by-field writes of an accepted promotion or demotion together change the user map as the one-step operation does and release the lock |
| AuthMachine.NeverWithoutAdmin | core/auth.py:303-528 | Every state of every run that starts with an admin has one, and during a demotion an admin other than the one being demoted |
| AuthMachine.StepKeepsAdmin | core/auth.py:462-465 | The invariant behind it, kept by each single step |
| AuthMachine.LastTwoAdminsCannotBothFall | core/auth.py:462-465 | Whatever demotions and deletions race on the last two admins, one of the two stays an admin |
| AuthMachine.AdminsComeFromAdmins | core/auth.py:457-458 | Over every run: whoever becomes an admin was promoted by somebody who was one at that moment, or created as one, or is an admin renamed by an admin |
| AuthMachine.UnauthorisedStepChangesNothing | core/auth.py:317-318 | In every run a deletion, rename, promotion, demotion or reset asked for by anybody but an admin leaves the whole state as it is |
| AuthMachine.LockIsReleased | core/auth.py:453-502 | In every state of every run the holder of the lock can go on, and frees it after at most two steps |
| AuthMachine.DeletedUserHasNoSession | core/auth.py:303-350 | After the session sweep of a deletion no session names the user, whatever logins overlapped it, unless a create or rename produces the name again |
| AuthMachine.StepAddsNoSession | core/auth.py:632-647 | While a name is unused and nothing under way is about to use it, no step issues or renames a session to it |
| AuthMachine.SessionsAreIssuedToUsers | core/auth.py:637-645 | In every run a new session belongs to a user who is in the map when it is issued |
| AuthMachine.SessionLivesUntil | core/auth.py:649-720 | A session ends exactly if it is revoked, its user is swept or reset, or it is found expired or without its user; it changes only its name, with a rename |
| AuthMachine.ResetEndsSessions | core/auth.py:506-517 | An accepted reset leaves the user with the new password and no session before the lock is free again |
| AuthMachine.DeletionIsFinalWhen | core/auth.py:303-350 | In any state where a deletion is accepted: every continuation that does not produce the name again leaves no session under it after the sweep, if and only if no rename to the name had still to sweep |
| AuthMachine.PendingRenameLeavesSession | core/auth.py:372-380 | If one had, a continuation leaves a session under the deleted name: the old name logs in, and the rename takes its session along |
| AuthMachine.RunKeepsWellNamed | core/auth.py:357-368 | In every state of every run users have usable names, and a rename that has still to sweep goes from a usable name to another one |
| AuthMachine.OverlappingRenameLeavesSession | core/auth.py:352-385 | Such a state comes about: from any idle state in which a rename is accepted, a four-step run leaves a session under the name of a deleted user |
| AuthModel.AdminStintIsNeutral | core/auth.py:482-501 | Whatever operations run between a promotion and the demotion of the same record, renames and refused edits included, its effective privileges come back |
| AuthModel.StashSurvivesStint | core/auth.py:484-490 | No operation touches the stash of a record that stays an admin, under whatever name it ends |
| AuthModel.CreatedAdminDemotesToDefaults | core/auth.py:493-500 | A user created as an admin demotes to the default privileges, never to the admin map |
| AuthModel.DemotionRestores | core/auth.py:497-501 | Restoring a stash gives the effective privileges of the record it was taken from, also when its map was missing or empty |
| AuthModel.OnlyAdminsAct | core/auth.py:317-318 | Deleting, renaming, promoting, demoting and resetting change nothing unless an admin asks |
| AuthModel.SetAdminMeans | core/auth.py:453-504 | Exactly when each answer of `set_admin` is given, that the map changes only for an admin and on success, and that the role is then the one asked for |
| AuthModel.EditMeans | core/auth.py:405-430 | What an edit means to readers: each named privilege that has a default takes the value given, every other one and the rest of the record stay; refused for admins and unknown users |
| AuthModel.OpKeepsKinds | core/auth.py:415-426 | Whatever is asked of the manager, every privilege is there with a value of the kind its readers expect |
| AuthModel.PromotionOnlyGrants | core/auth.py:482-491 | A promotion takes no ability away and lifts every limit |
| AuthModel.OthersStay | core/auth.py:280-528 | No operation touches the record of anybody it does not name, and none puts one record over another |
| AuthModel.CreateMeans | core/auth.py:280-301 | An account is created exactly under a free and usable name, with the role, rights and password asked for |
| AuthModel.DeleteAndRenameMean | core/auth.py:303-370 | A deletion removes exactly one user and never the requester; a rename moves one record as it is; when each is accepted |
| AuthModel.NewPasswordIsAccepted | core/auth.py:506-528 | After a reset or a change the new password is the only one accepted, and rights are unchanged; only non-admins are reset |
| AuthManagement.UserRecord.Promote | core/auth.py:482-491 | The three writes of a promotion, in their order, give the promoted record |
| AuthManagement.UserRecord.Demote | core/auth.py:492-501 | The three writes of a demotion, in their order, give the demoted record |
| AuthManagement.AuthManager.SetAdmin | core/auth.py:432-504 | The new user map and the result are those of the one-step operation whose runs are proved above: not found, not authorised, no change, last admin, token store failure, done |
| AuthManagement.AuthManager.CountAdmins | core/auth.py:463 | The loop counts the admins of the user map |
| AuthManagement.AuthManager.GetPrivileges | core/auth.py:396-403 | The effective privileges of a known user, the defaults for an unknown one |
| AuthManagement.AuthManager.MergeRequest | core/auth.py:414-426 | Refused exactly when some known privilege has a value of the wrong kind, whatever the order of the keys; else the current map overlaid with the known keys of the request only |
| AuthManagement.AuthManager.SetPrivileges | core/auth.py:405-430 | One record gets the merged map; unknown users and admins are refused, and a refusal changes nothing |
| AuthManagement.AuthManager.CreateUser | core/auth.py:280-301 | A new record under a free, unreserved, non-empty name, or no change |
| AuthManagement.AuthManager.DeleteUser | core/auth.py:303-350 | On success the record and every session of the user are gone, and nothing else; on refusal nothing changes |
| AuthManagement.AuthManager.RenameUser | core/auth.py:352-385 | On success the same record object is filed under the new name and its sessions follow; on refusal nothing changes |
| AuthManagement.AuthManager.ResetUserPassword | core/auth.py:506-517 | Only an admin resets, only a non-admin is reset, and exactly the sessions of that user end |
| AuthManagement.AuthManager.CreateSessionTrusted | core/auth.py:632-647 | A session is issued exactly when the user is in the map |
| AuthManagement.AuthManager.ValidateToken | core/auth.py:649-672 | A token is accepted exactly when it is known, unexpired and names a user in the map; a known token that is not accepted is dropped |
| BulkMove.Run | mcp_servers/email_server.py:3260-3341 | The commands sent and their answers are a call of the protocol below, with its exit; after every command nothing is lost; the count and the index rows removed are what the call reports, which for a trustworthy report is exactly what left the source |
| BulkMove.CallIsSafe | mcp_servers/email_server.py:3296-3332 | At every moment of every call, whatever the server does: no message is lost that nobody else had flagged, only requested ones are touched, and everything flagged has been copied |
| BulkMove.CopyingFinishesTheMove | mcp_servers/email_server.py:3317-3332 | If copying works and checks are answered, every call empties the source of everything requested and reports all of it, whatever MOVE says and does |
| BulkMove.SingleMovesFinishTheMove | mcp_servers/email_server.py:3307-3315 | If MOVE works for single messages and checks are answered, every call does so too, whatever MOVE does with lists and whatever copying would do |
| BulkMove.BulkServersNeedFewCommands | mcp_servers/email_server.py:3296-3305 | Where commands for many messages work, with or without MOVE, a call sends at most 12 commands for any number of messages |
| BulkMove.CommandsAreJustified | mcp_servers/email_server.py:3297-3332 | Marking comes only right after a granted copy of the same messages, EXPUNGE only after granted marking, and a single message is retried only if the latest check has shown it |
| BulkMove.RefusalsEndTheCall | mcp_servers/email_server.py:3297-3305 | After a refused MOVE the copy comes next; a refused copy or marking ends the call at once |
| BulkMove.AbortedWhen | mcp_servers/email_server.py:3288-3291 | A call is aborted exactly by an exception, except that one in the first FETCH reads as nothing found |
| BulkMove.StepKeepsSafe | mcp_servers/email_server.py:3296-3332 | Any answer and any effect of a command that the discipline allows keeps the safety invariant |
| BulkMove.UncopiedFlagCanLose | mcp_servers/email_server.py:3326-3332 | The discipline is needed: flagging one message that was not copied, then expunging, can lose it |
| BulkMove.ReportIsReliableWhen | mcp_servers/email_server.py:3334-3341 | For every call that returns a count: its report is exactly what left the source on every server that looks the same to the client, if and only if nothing was found, or the closing FETCH was answered, or it was refused after an earlier check had shown that nothing is left |
| BulkMove.TrustworthyReportIsRight | mcp_servers/email_server.py:3336-3338 | Such a report is exactly what left the source |
| BulkMove.GivingUpCanMiscount | mcp_servers/email_server.py:3297-3304 | For every call that gives up, a server that looks the same to the client makes its report wrong |
| BulkMove.RefusedCheckCanMiscount | mcp_servers/email_server.py:3334-3337 | So it does for every call whose closing FETCH is refused and that has not seen before that nothing is left |
| BulkMove.RefusedCheckMiscounts | mcp_servers/email_server.py:3307-3337 | Wherever something requested is there, a whole call in which the server does nothing and refuses all checks but the first reports everything as moved |
| BulkMove.GivingUpMiscounts | mcp_servers/email_server.py:3296-3301 | A whole call in which the refused MOVE moved everything and the COPY is refused reports nothing |
| BulkMove.Transfer | mcp_servers/email_server.py:3296-3332 | Between the first and the closing check the commands are those of the protocol: move, fallback, two checks, both retry rounds, with its early exits |
| BulkMove.CopyThenDelete | mcp_servers/email_server.py:3297-3305 | COPY, then marking only after a granted COPY, then EXPUNGE only after granted marking; a refusal gives up |
| BulkMove.Check | mcp_servers/email_server.py:3309-3311 | SELECT whatever its status, then FETCH; a refused FETCH shows nothing |
| BulkMove.MoveOneByOne | mcp_servers/email_server.py:3312-3315 | Exactly the requested messages that the check showed are moved one by one, in the order of the request |
| BulkMove.CopyOneByOne | mcp_servers/email_server.py:3322-3332 | Each remaining message is copied and marked only if its copy was granted; one EXPUNGE if any marking was |
| BulkMove.MessageIndex.DeleteUids | mcp_servers/email_server.py:2053-2075 | Exactly the rows of the moved messages go, or none when the index cannot be written |
| SessionCache.RunKeepsAgreement | core/session_manager.py:241-516 | From any startup, after any operations on any sessions, cached histories are subsequences of the stored rows and `get_session` returns the stored transcript |
| SessionCache.GetReturnsTranscript | core/session_manager.py:437-516 | Under that invariant the length test is enough: the exact transcript is returned, and an immediate second call reads nothing and changes nothing |
| SessionCache.SubsequenceLength | core/session_manager.py:459-463 | Why comparing two lengths is enough: a subsequence of full length is the whole |
| SessionCache.StepKeepsAgreement | core/session_manager.py:260-430 | Each operation keeps the invariant, failed truncations, replacements and deletions included |
| SessionCache.AddedMessageIsReturned | core/models.py:149-162 | Through a warm, a stub or a detached object alike, an added message is stored last and the next read shows the old transcript followed by it |
| SessionCache.AddedIsCounted | core/session_manager.py:303-306 | Adding through the manager keeps the column equal to the number of rows |
| SessionCache.TruncatedShowsBeginning | core/session_manager.py:336-357 | Truncation keeps the oldest messages, as many as asked for or all; the column counts them and the next read shows exactly them; a refused or failed one stores nothing |
| SessionCache.TruncationsCompose | core/session_manager.py:341-350 | Truncating twice is truncating once, to the shorter length |
| SessionCache.ReplacedShows | core/session_manager.py:396-425 | The next read shows the new messages, or the old ones if the replacement failed |
| SessionCache.CreatedShows | core/session_manager.py:576-606 | A new session is there and empty; an existing one is not overwritten |
| SessionCache.OtherSessionsStay | core/session_manager.py:241-660 | No operation touches the stored messages or the cached object of another session |
| SessionCache.DeletedStaysGone | core/session_manager.py:265-271 | After a committed deletion nothing short of a creation brings the session back: late writes store nothing and reads fail |
| SessionCache.LateWriteDropsGhost | core/session_manager.py:265-271 | A late write for a session without a row drops the cached object that outlived it |
| SessionCache.FailedDeletionLosesNothing | core/session_manager.py:645-658 | After a deletion that did not commit the next read shows the whole transcript |
| SessionCache.ReadIsRightWhen | core/session_manager.py:459-463 | For any cache over any rows, `get_session` returns the stored transcript if and only if the session is not cached, or its history is shorter than the rows, or equal to them |
| SessionCache.FailedInsertMisleadsNextRead | core/session_manager.py:253-258 | After `add_message` with a failed insert the next read is wrong, whatever the state before; after a right one it shows the message behind the stored transcript |
| SessionCache.FailedInsertOnCachedIsNoticedWhen | core/models.py:157-162 | After a failed insert through a cached object the next read is right if and only if the object was at least two messages short |
| SessionCache.FailedInsertIsNoticedLaterWhen | core/session_manager.py:321-323 | After a failed insert and further messages stored through detached objects, a read is right if and only if there were at least two of them |
| SessionManagement.SessionManager.GetSession | core/session_manager.py:437-468 | The object version refines the value version; the returned object is the cached one, and under the invariant it holds the stored transcript |
| SessionManagement.SessionManager.LoadSessions | core/session_manager.py:86-131 | Startup caches one stub, without history but with the counted rows, for each chosen session that has messages |
| SessionManagement.SessionManager.LoadFromDb | core/session_manager.py:518-543 | Hydration files a fresh object with the stored transcript and leaves every other object in place |
| SessionManagement.Database.ReadMessages | core/session_manager.py:165-195 | The loop rebuilds the stored transcript in order |
| SessionManagement.SessionManager.SyncMetadata | core/session_manager.py:470-516 | The cached count becomes the number of stored rows, never the column |
| SessionManagement.SessionManager.PersistMessage | core/session_manager.py:260-325 | A stored message goes to the end of the transcript; without a row the cached object is dropped and nothing is stored |
| SessionManagement.SessionManager.AddMessage | core/session_manager.py:241-258 | Hydrate, append to the cached object, persist: the new store is that of the value version |
| SessionManagement.SessionManager.AddMessageOn | core/models.py:149-162 | Adding through a session object changes the cached history exactly when that object is the cached one of its id |
| SessionManagement.SessionManager.TruncateMessages | core/session_manager.py:327-367 | Both the rows and the cached history keep their first messages, or neither changes |
| SessionManagement.SessionManager.ReplaceMessages | core/session_manager.py:369-431 | Both the rows and the cached history become the new messages, or neither changes |
| SessionManagement.SessionManager.CreateSession | core/session_manager.py:559-613 | A new id gets an empty row, and a fresh empty session is cached and returned; a taken id or a failing insert changes nothing and returns none |
| SessionManagement.SessionManager.DeleteSession | core/session_manager.py:615-660 | A committed deletion removes row and cached object, also of a session without a row; a failing commit loses only the cached object |
| OwnerLocks.NeverDeadlocked | core/database.py:513-556 | In every reachable state of any number of transactions no key is held twice and, if one is unfinished, some transaction can step |
| OwnerLocks.SomebodyCanAdvance | core/database.py:518-523 | Following who blocks whom leads through rising keys to a transaction that can step |
| OwnerLocks.StepKeepsInv | core/database.py:530-556 | Lookup, racing insert, relock, commit and rollback keep: ascending keys, a held prefix, no key held twice |
| OwnerLocks.RunIsBounded | core/database.py:530-556 | A run has no more steps than its transactions can take, so advancing whoever can go on finishes them all |
| OwnerLocks.CommitsUnderAllLocks | core/database.py:527-556 | A transaction that commits holds every one of its keys, alone, and leaves a row for each |
| OwnerLocks.KeysAreScopes | core/database.py:525 | No owner, a missing and an empty one are one scope; every other owner is his own |
| OwnerLocks.OwnerKeys | core/database.py:525 | The keys are exactly the owner scopes named, each once, ascending, with a missing owner and the empty one as one scope |
| DefaultAccount.RenameLeavesOneDefault | routes/auth_routes.py:438-491 | After a rename the merged owner has all accounts of both and exactly one default if either had one, the earliest of the destination else of the source; other rows and the index stay intact |
| DefaultAccount.RenameKeepsTheRest | routes/auth_routes.py:442-490 | A rename changes owners (exactly of the old name up to case) and default flags only, and no default of the survivor's side was created before it |
| DefaultAccount.ClearingLeavesSurvivor | routes/auth_routes.py:466-480 | Clearing the collected ids leaves one default over both owners, the survivor |
| DefaultAccount.PartialMoveKeepsIndex | routes/auth_routes.py:482-490 | After that the owner update cannot break the unique index, however many rows it has reached |
| DefaultAccount.AccountTable.RenameOwner | routes/auth_routes.py:442-491 | The statements compute that result, and the unique index holds after every single row write |
| DefaultAccount.OrderByAge | routes/auth_routes.py:449-463 | The query result: the chosen ids, each once, by creation date and id |
| DefaultAccount.AccountTable.ClearDefaults | routes/auth_routes.py:472-480 | Exactly the given accounts lose the default flag, with the index intact after every row |
| DefaultAccount.AccountTable.MoveOwner | routes/auth_routes.py:482-490 | Exactly the accounts of the old owner, up to case, change owner, with the index intact after every row |
| DefaultAccount.Migrate | core/database.py:2236-2263 | The migration clears exactly the defaults that are not the oldest of their owner |
| DefaultAccount.FindDuplicates | core/database.py:2250-2257 | The one-pass scan with a set of seen owners finds exactly the defaults that have an older rival |
| DefaultAccount.MigrationKeepsOldest | core/database.py:2218-2264 | Each owner that had a default keeps exactly its oldest one: with the smallest date if it has a dated one, else with the smallest id |
| DefaultAccount.MigrationClearsOnlyFlags | core/database.py:2259-2263 | Nothing but default flags changes, and none is set |
| DefaultAccount.EarliestIsOldest | core/database.py:2240-2247 | What the order means: the smallest date, undated rows where the database puts them, the smaller id on a tie |
| DefaultAccount.ScopeIsLockKey | core/database.py:516-525 | The scope of the unique index is the key under which changes are serialised |
| DefaultAccount.MigrationInstallsIndex | core/database.py:2264 | After the migration the unique index holds, whatever the table was |
| DefaultAccount.MigrationIsIdempotent | core/database.py:2221-2226 | A second migration finds nothing to clear and changes nothing |
| Recurrence.ExpandRecurring | routes/calendar_routes.py:889-949 | Ends even for endless rules; returns in order the first 1000 occurrences of the window, and raises the flag exactly when the scan met one more, excluded or not |
| Recurrence.WindowIsExact | routes/calendar_routes.py:901-911 | The window holds an occurrence of the series, at any index, if and only if it starts before the end, ends after the start and is not excluded |
| Recurrence.WindowShowsOccurrences | routes/calendar_routes.py:901-942 | Every entry starts at an instant of the series, meets the window, lasts as long as the event, is known by the day or the minute of its start, is named by no exclusion date, and comes after all before it |
| Recurrence.WindowMissesNothing | routes/calendar_routes.py:901-927 | Every occurrence of the series that meets the window and is named by no exclusion date has such an entry |
| Recurrence.SingleEventShowsItself | routes/calendar_routes.py:851-887 | An event without a recurrence shows itself as stored, if it overlaps the window |
| Recurrence.ScanAfter | routes/calendar_routes.py:893-901 | The skip to the scan start ends and passes over nothing that starts at or after it |
| Recurrence.Collect | routes/calendar_routes.py:901-943 | The loop has collected all of the window before the index it stops at, and stops only at the end of the window, of the series or at the limit |
| Recurrence.FlagIsExactWhen | routes/calendar_routes.py:913-927 | Whatever is cut off is flagged; the flag means that something is cut off if and only if it is not the case that the window holds exactly 1000 occurrences and an excluded one comes after them |
| Recurrence.FlagCanOverstate | routes/calendar_routes.py:913-927 | A series of 1001 meetings with the last one cancelled is flagged although its answer is complete |
| Recurrence.Expand | routes/calendar_routes.py:835-949 | The four kinds of rule: none, blank, unparseable, recurring |
| Recurrence.ListEvents | routes/calendar_routes.py:1296-1328 | The listing is the concatenation of what each stored event contributes, and is flagged exactly when one of them overflows |
| Recurrence.ContributionIsExactWhen | routes/calendar_routes.py:1300-1315 | An event contributes exactly its window, capped at 1000, so the filter drops no series with an occurrence in it, if and only if it is not a blank rule that ended before the window |
| DefaultCalendar.FirstUseConverges | routes/calendar_routes.py:281-357 | All callers that commit for an owner without a calendar, among any number for any owners with any rollbacks, get the same calendar, and it is the owner's only one |
| DefaultCalendar.StepKeepsInv | routes/calendar_routes.py:321-357 | Lookup, racing insert, retry on the next slot, commit and rollback keep what each caller knows about the slots |
| DefaultCalendar.StepChanges | routes/calendar_routes.py:304-357 | A step adds at most the calendar that its caller had pending, under an id that was free, and changes no other caller |
| DefaultCalendar.SomebodyCanStep | routes/calendar_routes.py:339-357 | In any state with an unfinished caller some caller can take a step other than giving up |
| DefaultCalendar.OneCalendar | routes/calendar_routes.py:242-258 | Two calendars that both sit in the first slot left by others are the same |
| DefaultCalendar.TakenSlotsAreCounted | routes/calendar_routes.py:242-258 | Slots of one owner occupied by others are distinct rows, so there are no more of them than calendars |
| DefaultCalendar.SlotLoopIsBounded | routes/calendar_routes.py:304-357 | In every reachable state no caller has tried more slots than there are calendars |
| DefaultCalendar.CalendarDb.EnsureDefault | routes/calendar_routes.py:281-333 | With the writer reservation the loop ends, returns an existing calendar unchanged, or else adds one row in the first slot that others have left |
| IcsText.EscapeRoundTrips | routes/calendar_routes.py:119-134 | Reading the escaped text back by section 3.3.11 of RFC 5545 gives the text with CRLF and CR as LF, if it has no control character besides HTAB and line breaks; with one the output is invalid |
| IcsText.BellIsNotEscaped | routes/calendar_routes.py:126-134 | A text of one BEL is passed through, and the grammar does not allow it |
| IcsText.NormalizedMeans | routes/calendar_routes.py:131-133 | Reading CRLF and CR as LF is what the two usual replacements do |
| IcsText.ChainIsOnePass | routes/calendar_routes.py:126-134 | The six chained replacements are one pass from left to right |
| IcsText.EscapedIsClean | routes/calendar_routes.py:119-134 | The output has no raw line break, and every `;` and `,` follows an odd run of backslashes |
| SearchIndex.RunKeepsInSync | core/database.py:2543-2559 | After any inserts, deletes, updates and scrubs there is exactly one index row per message, with its session, role and text if they were current |
| SearchIndex.StepKeepsInSync | core/database.py:2543-2559 | Each trigger and the scrub keep exactly one row per message |
| SearchIndex.WritesAreFound | core/database.py:2543-2559 | After a write the message has exactly one row, with its session, role and text (or the marker for media); after a deletion neither the message nor a row is left |
| SearchIndex.OtherRowsStay | core/database.py:2543-2559 | No write touches another message or its rows |
| SearchIndex.StepKeepsMediaOut | core/database.py:2509-2521 | Inline media never gets into the index, if the scrub lets none through |
| SearchIndex.EqualCountsMeanComplete | core/database.py:2568-2570 | With equal row counts no message is missing if and only if the index holds no duplicate and no stray row; then it has exactly one row per message |
| SearchIndex.EqualCountsCanHideAMissingMessage | core/database.py:2568-2570 | Every table with equal counts and a duplicate or a stray row lacks some message |
| SearchIndex.Backfill | core/database.py:2571-2588 | Whatever the index was, the rows that were there stay, and exactly the missing messages get one row each, as the insert trigger writes it |
| SearchIndex.ScrubMedia | core/database.py:2600-2626 | Every row of a message with media holds the scrubbed text and the current session and role, every other row is untouched, every message with media has a row; one row per message stays one |
| SearchIndex.ChatStore.Migrate | core/database.py:2560-2590 | Which messages have rows afterwards, for any index: all if the counts differed, else those of before and those with media; from any incomplete index without duplicates and strays it makes one row per message |
| SearchIndex.ChatStore.InsertMessage | core/database.py:2543-2547 | A new message and its index row, or no change for a taken id |
| SearchIndex.ChatStore.DeleteMessage | core/database.py:2549-2552 | The message and all index rows of its id go |
| SearchIndex.ChatStore.UpdateMessage | core/database.py:2554-2559 | The message changes and its index rows are replaced by one current row |
| AtomicStore.UpdatesAreSerial | core/atomic_io.py:28-58 | In every state of every run over threads and processes, with failures and crashes, the store is the result of the applied updates in some serial order, each once, all completed ones among them |
| AtomicStore.OrderFollowsTime | core/atomic_io.py:37-57 | That order is one of real time: what has completed before a transaction starts comes before it |
| AtomicStore.SomebodyCanStep | core/atomic_io.py:37-57 | In every state of every run with an unfinished transaction some transaction can take a step that is not a failure |
| AtomicStore.AloneItCompletes | core/atomic_io.py:37-57 | A transaction with nobody in its way completes with its update applied, its scratch file gone and every other file as it was |
| AtomicStore.CrashReleasesLocks | core/atomic_io.py:37-49 | A crash ends all transactions of its process, frees their locks and touches nothing else |
| AtomicStore.StepKeepsInv | core/atomic_io.py:37-57 | Each step keeps: one holder of the file lock, what it has read is still the content, scratch files are its own |
| AtomicStore.PowerCutLeavesWholeVersion | core/atomic_io.py:72-76 | After a power cut in any state the store holds in full its content with or without the last update |
| AtomicStore.Disk.AtomicWrite | core/atomic_io.py:61-85 | For any combination of faults: after every system call the target is as it was or is the whole synced new text; it is written exactly if nothing but the cleanup fails; no other file is touched, and the scratch file is gone unless the cleanup fails |
| AtomicStore.Disk.WriteScratch | core/atomic_io.py:92-101 | Writing in chunks of any length touches only the scratch file, and succeeds exactly if opening, writing and syncing do, leaving it whole and synced |
| MailDates.PaddingMissesNothing | mcp_servers/email_server.py:2095-2108 | Every message in the exact range is accepted by the padded SENTSINCE and SENTBEFORE criteria, for any header zone within a day, at the ends of the calendar too |
| MailDates.PaddingIsNeeded | mcp_servers/email_server.py:2097-2099 | One day less on either side would miss a message, for every start and for every end that is not midnight |
| MailDates.PaddingIsSmall | mcp_servers/email_server.py:2097-2107 | Whatever the padded search answers was sent less than three days outside of the range |
| MailDates.AdjacentRanges | mcp_servers/email_server.py:1757-1771 | Adjacent ranges share no message and miss none; a range includes its start |
| MailDates.SearchThenFilterIsExact | mcp_servers/email_server.py:1824-1890 | Listing what the search found is listing the whole folder: the first messages of the range, newest UID first, none missed |
| MailDates.ListEmails | mcp_servers/email_server.py:1774-1890 | The result is the first `max_results` wanted messages of the reversed search result; without a range only the newest are looked at |
| MailDates.ListingIsNewestFirst | mcp_servers/email_server.py:1829-1837 | Of an ascending search result the listing shows, newest first, the newest wanted messages, each newer than every wanted one left out; without a range, those of the newest messages that can be read |
| MailDates.WantedMeans | mcp_servers/email_server.py:1757-1771 | A message is wanted if it can be read and its date lies in the range; without a date only if there is no range |
| MailDates.ScanPages | mcp_servers/email_server.py:1834-1888 | The paging loop computes that prefix wherever page boundaries fall and whatever batch fetches miss |
| MailDates.Accept | mcp_servers/email_server.py:1842-1868 | A message is listed exactly when its header can be had and is in range, from whichever of the three sources it comes |
| ReplyMerge.LastMergeWins | mcp_servers/email_server.py:2771-2790 | After any number of merges whose replies before the last hold no quote marker, the document is the one with only the last merged, under the same header, and over the same quoted chain if and only if the last holds none either |
| ReplyMerge.ReplyReadsBack | mcp_servers/email_server.py:2786-2790 | A reply without quote markers is, up to outer spaces, exactly what stands above the quoted chain afterwards; without a header block it becomes the document |
| ReplyMerge.SecondMergeWinsIff | mcp_servers/email_server.py:2781-2789 | Merging twice equals merging only the second reply if and only if the first holds no quote marker |
| ReplyMerge.MarkerGrowsQuote | mcp_servers/email_server.py:2781-2789 | A marker in the reply makes the quoted chain strictly longer |
| ReplyMerge.QuoteOfCombined | mcp_servers/email_server.py:2786-2789 | The chain written under a reply without markers is the chain found again |
| ReplyMerge.HeaderStays | mcp_servers/email_server.py:2773-2775 | Whatever body is written under a header block, the same header and that body are found again |
| ReplyMerge.MergeEmailReplyBody | mcp_servers/email_server.py:2771-2790 | The loop over the markers finds the leftmost one, so the result is the merge the laws are about |
| ReplyMerge.BuiltHeaderIsFound | mcp_servers/email_server.py:2742-2768 | In a built draft whose fields hold no line break, the separator found is the one before the body |
| ReplyMerge.BuiltDraftReadsBack | mcp_servers/email_server.py:2754-2768 | Round trip: the header lines of a built draft, read by name, say exactly the fields it was built from, and the rest is the body |
| ReplyMerge.BuildThenMerge | mcp_servers/email_server.py:2742-2790 | Merging into a built draft keeps every header line and the quoted part of its body |
| ReplyMerge.Find | mcp_servers/email_server.py:2783 | The first occurrence, or none if there is none |
| DeviceFlow.ProviderCallsAreBounded | routes/device_flow.py:159-185 | For each attempt, consecutive provider calls are the interval in force apart, and there are at most floor(lifetime / smallest interval) + 1 of them |
| DeviceFlow.RunKeepsInv | routes/device_flow.py:70-119 | The timing invariant of every attempt in every run, under other attempts, cancellations and restarts |
| DeviceFlow.OverIsForever | routes/device_flow.py:159-191 | The provider is never called again for an attempt that has ended |
| DeviceFlow.AttemptsEnd | routes/device_flow.py:166-191 | An answered poll ends the attempt exactly if it was authorised, failed or raised; cancelling and expiring end it too, the latter without a provider call |
| DeviceFlow.IntervalFallsOnlyOnRequest | routes/device_flow.py:108-115 | The interval changes exactly on an answered `slow_down`: up by 5, or to the value the provider names, at least 1 |
| DeviceFlow.PendingDeviceFlowStore.PruneExpired | routes/device_flow.py:70-74 | Exactly the expired entries go |
| DeviceFlow.PendingDeviceFlowStore.Add | routes/device_flow.py:76-86 | The unexpired entries and a new one that may be polled at once |
| DeviceFlow.PendingDeviceFlowStore.HasPayload | routes/device_flow.py:88-94 | Found exactly when the attempt is pending and unexpired |
| DeviceFlow.EarlyPollIsThrottled | routes/device_flow.py:96-99 | Until the interval in force has passed since the last provider call for an attempt, a poll neither calls the provider nor changes the attempt |
| DeviceFlow.FirstPollIsAnswered | routes/device_flow.py:76-86 | A new attempt has the interval and lifetime asked for, 5 and 900 seconds by default and at least 1, and its first poll reaches the provider |
| DeviceFlow.NextPollIsAnswered | routes/device_flow.py:101-115 | A poll after the interval set by the last answer and within the lifetime reaches the provider |
| DeviceFlow.PollAnswers | routes/device_flow.py:162-167 | "Not found" exactly if no unexpired attempt is pending; otherwise the provider's own answer with one more call, or "pending" without one |
| DeviceFlow.OtherAttemptsStay | routes/device_flow.py:70-119 | No request changes another attempt, unless that has expired |
| DeviceFlow.PendingDeviceFlowStore.ScheduleNext | routes/device_flow.py:101-106 | Only the next poll time of one entry changes |
| DeviceFlow.PendingDeviceFlowStore.SlowDown | routes/device_flow.py:108-115 | Interval and next poll time of one entry change together |
| DeviceFlow.PendingDeviceFlowStore.Pop | routes/device_flow.py:117-119 | One entry goes |
| DeviceFlow.PendingDeviceFlowStore.DevicePoll | routes/device_flow.py:159-185 | The handler calls the provider only for an unexpired attempt whose waiting time is over, and settles it by the answer |

## Left out

- AuthMachine.DeletedUserHasNoSession: says nothing when a create or a rename produces the name during or after the deletion; `DeletionIsFinalWhen` says exactly when a rename that overlaps the deletion matters.
- AuthMachine.LockFreeReadLinearizes: needs the record to stay in the map under its name; a reader that overlaps its rename or deletion is not covered.
- AuthManagement: loading, migrating and saving `auth.json` and `sessions.json`, password hashing, TOTP, the methods that only read.
- BulkMove.Run: a second copy in the destination is not told from the first; other sessions changing the folder, folder name resolution, fixture mail and logout are not modelled.
- SessionCache.RunKeepsAgreement: message inserts do not fail in its runs; `FailedInsertMisleadsNextRead` shows why, and `ReadIsRightWhen` what a read returns without that.
- SessionManagement: session fields other than history and count, message content and metadata, upload reservations, the limit of 100 sessions and the archived filter at startup (an arbitrary choice here), `cleanup_empty_sessions`.
- OwnerLocks: the SQLite branch, which takes a single writer reservation instead of locks; deadlock victims chosen by the database appear as rollbacks.
- DefaultAccount: the other tables with an owner column, preference files, undoing the auth rename when the database fails.
- Recurrence: parsing rules, time zones, the final sort by start, calendar filters and event fields other than times.
- DefaultCalendar: renames and deletions of calendars during first use, the error for an insert that failed without an occupant, how slot ids are computed.
- IcsText: folding long lines, the rest of the export.
- SearchIndex: tokenisation and queries, updates that change a message id, what the scrub writes (an arbitrary function of the content).
- AtomicStore: transactions nested on one store, creating directories, a directory entry older than the last replacement coming back after a power cut.
- MailDates: parsing dates and headers, the shortcut that answers from the local index alone, summaries, fixture mail.
- ReplyMerge: how drafts are stored and versioned.
- DeviceFlow: polls that overlap while the provider is awaited, what a payload contains.
- HTTP routes, middleware, templates, model calls, mail and calendar transport, token refresh in `app.py`, parsing of dates in natural language, column-adding migrations.
