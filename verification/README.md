# mockta, modelled and proved

mockta is a stand-in for part of the Okta management API. Behind its HTTP handlers sits a
small relational store on top of go-memdb: five tables with secondary indexes, uniqueness
and foreign-key checks written by hand, cascading deletes, and a `Reset` that swaps the
whole database while transactions are open. This project models the store, the lock and
swap protocol, the request handlers, the audit log, ID derivation, filters and limits, and
the gap registry, and proves what they promise.

Verify with `dafny verify dfyconfig.toml`.

## How the pieces fit

- `memdb.dfy` states the contract of go-memdb as a table with one separate map per index.
  It does not enforce uniqueness, so that indexes stay exact is a theorem about this
  repository's code.
- `schema.dfy` holds the five schemas, `model.dfy` the store as a record of maps with one
  atomic step per operation, `store.dfy` the class whose methods are proved to perform
  those steps (`Performs`) and keep all indexes exact.
- `concurrency.dfy` interleaves those operations with `Reset`, one lock action at a time;
  `progress.dfy` and `auditorder.dfy` prove liveness and the audit numbering there, and
  `survival.dfy` what becomes of rows and their IDs. A transaction between opening and commit
  is bound only by `Performs`, which each method is proved against.
- `copyonread.dfy` runs the handlers as programs over an explicit heap of structs, one
  statement at a time, any number of them interleaved. `serial.dfy` proves that one of them
  running alone does what its statements say of plain values, and `soloserves.dfy` that this
  is what the request stores and shows.
- `requests.dfy` says what each request does (`Serve`), `handlers.dfy` and `audited.dfy`
  are the handlers and the middleware proved to do that, and `traces.dfy`, `creation.dfy`,
  `profiles.dfy`, `listings.dfy` and `auditlog.dfy` prove properties of runs of requests
  served one at a time; `roundtrips.dfy` spells out, without the functions `Serve` is made of,
  what each request answers and stores and what a GET then shows. `moments.dfy` says of one call in any interleaved run what it
  answers, and so what it creates, lists or reports.
- `programs.dfy` is each handler again as its sequence of store calls, and `network.dfy` runs
  any number of these programs over the machine of `concurrency.dfy`, call by call.
  `interleaved.dfy` says of a log which writes handlers make, a fact `network.dfy` derives
  for each run, and what such logs keep; `overlap.dfy` and `races.dfy` are about what
  overlapping requests can do to a status.
- `filters.dfy`, `ids.dfy`, `gaps.dfy`, `export.dfy`, `chain.dfy` are the self-contained pieces.

There are two levels. Store invariants, the fate of rows and IDs, the audit numbering, the
answers of single calls, what strict mode says of logins, and the agreement of rows with
their profiles hold under every interleaving. What a whole request does, the lifecycle and
the audit log as a record of requests hold for requests served one at a time
(`Traces.After`). Where requests overlap, a handler writes back the status it read; when
exactly that breaks the lifecycle is the subject of `Overlap`, and `Races` has runs that
break it.

## Assumptions

- go-memdb: `Insert` upserts by primary key and refreshes that row's own index entries only;
  a row with an empty value is refused unless the index allows it; a walk ascends by key; one
  write transaction is open at a time per database; a read transaction is a snapshot. Primary
  keys hold no NUL byte.
- `sync.RWMutex`: new readers wait while a writer is announced; the writer gets the lock when
  no reader holds it. An atomic add or store of the audit counter is one step.
- SHA-256 is a parameter: any function from byte strings to 32 bytes. No lemma assumes that it
  has no collisions; the lemma about permissive mode names the two digests it needs to differ.
- Go strings are sequences of bytes, one `char` each. Lower-casing is a parameter: any function
  from strings to strings.
- In `copyonread.dfy` each handler is its sequence of statements on structs: which variable a
  copy or a literal goes to, what is assigned, inserted, read and returned. Checks on the
  request alone are free choices, an insert may fail, and profiles and settings are values,
  since no statement writes into them. That no handler writes to a struct after inserting it,
  and that the programs store what the requests store, is proved of them, not assumed.
- Decoding JSON, reading the query string and matching the route happen before the model: a
  request carries the outcome, malformed bodies included. A response is a status, the rows in
  its payload, and the gap header. Time is a number handed in with the request.
- Each go-memdb call that fails in the model fails for the reason given above; failures the
  source guards against but no input reaches (an unknown table, a row of the wrong type) are absent.

## Where the code differs from what it says

- Adding a membership again is documented as a no-op (`internal/store/groups.go:153-155`). It
  replaces the row, so its creation time changes: the row stays as it was only if the time is
  the same (`Creation.AddingAgain`; an instance is `Creation.AddedAgainLater`).
- A comment says audit rows with an empty gap ID are indexed (`internal/store/schema.go:157-161`).
  They have no entry; asking for the empty gap ID returns nothing (`Stores.Store.AuditByGap`).
- Permissive mode is meant to take any well-formed profile. A valid creation is answered with
  500 if and only if its ID and login are free and it has no login or no e-mail
  (`RoundTrips.UserPosted`; an instance is `Creation.EmptyLoginIsAnError`).
- A limit is read as the number written if and only if that is below 2^63; 2^63 itself is read
  as no limit (`Filters.LimitExactIff`, `Filters.LimitsComeBackIff`).
- The audit sequence is called monotonic (`internal/store/audit.go:9-11`). Once calls have
  finished, the entries have distinct numbers and the log holds exactly 1 to the counter if and
  only if no append that opened on the current database took its number before the counter was
  last cleared (`AuditOrder.NumbersAreCompleteIff`). A run where one did, and an entry was lost,
  is `AuditOrder.ResetCanLoseAnEntry`; a run with a harmless reset is `AuditOrder.ResetCanBeHarmless`.
- The lookup by ID or login can mean two users. In permissive mode an accepted update makes it
  so if and only if the new login is another stored user's ID, an accepted creation if and only
  if its login is a stored ID or its ID a stored login, and nothing else does
  (`Creation.UpdateClashesIff`, `Creation.CreationClashesIff`, `Creation.OthersBringNoClash`; a run
  that does it is `Creation.PermissiveKeyNamesTwo`). In strict mode it cannot happen
  (`Network.KeyNamesOneUserInFlight`).
- A group updated without a name keeps its name but stores the new profile, so the two can
  differ (`Profiles.GroupKeepsNameIff`; an instance is `Profiles.NamelessPutKeepsName`).
- A PUT is said to preserve the status (`internal/handlers/users.go:142-146`), and a DELETE of
  an app to enforce deactivation (`internal/handlers/apps.go:159-163`). Each reads in one
  transaction and writes in another. The PUT changes the status if and only if, since its
  read, the row was written and last with another status (`Overlap.PutChangesStatusIff`); a
  DELETE removes a user that is not DEPROVISIONED, or an app that is not INACTIVE, if and only
  if the same holds of it (`Overlap.DropsLiveUserIff`, `Overlap.DropsLiveAppIff`). Only such a
  PUT makes a user STAGED or PROVISIONED again (`Overlap.FreshAgainIff`). Runs of overlapping
  requests that do each of these are `Races.PutBringsStagedBack`, `Races.DropRemovesActiveUser`
  and `Races.DropRemovesActiveApp`.

## Model

| member | source | states |
|---|---|---|
| MemDB.InsertKeepsIndexesIff | internal/store/schema.go:48-146 | an insert leaves every index the exact inverse of its table if and only if no other row holds the new row's value in a unique index |
| MemDB.RefreshedExact | internal/store/schema.go:48-146 | the same for a single index: exactness survives the refresh iff the index is not unique or the value is free |
| MemDB.DeleteKeepsIndexes | internal/store/users.go:128-151 | removing one row leaves every index exact for the remaining rows |
| MemDB.DeleteAllKeepsIndexes | internal/store/users.go:143-147 | a cascade through a non-unique index removes exactly the rows holding the value, and every index stays exact |
| MemDB.ListedExactly | internal/store/groups.go:196-215 | walking a non-unique index meets exactly the rows with that value |
| MemDB.FirstFindsTheRow | internal/store/users.go:58-70 | a unique index finds the one row with the value, and nothing iff no row has it |
| MemDB.RowsDetermineIndexes | internal/store/schema.go:36-46 | two tables with exact indexes and the same rows are equal, so the indexes hold no state of their own |
| MemDB.HasConsistentTable | internal/store/schema.go:36-46 | every keyed set of rows with distinct unique values is the content of a table with exact indexes |
| Model.SchemasAdmit | internal/store/schema.go:48-171 | a row is accepted by its schema iff its key and each index without AllowMissing have a value |
| Model.ApplyKeepsInv | internal/store/groups.go:105-193 | every operation keeps distinct logins, distinct group names, keyed rows and memberships that join stored rows |
| Model.ByLoginIsTheRow | internal/store/users.go:58-70 | with distinct logins, the lookup by a user's login gives that user |
| Model.RowsDetermineDb | internal/store/store.go:28-35 | the record of maps determines the whole database value, indexes included |
| Model.OutcomeExists | internal/store/store.go:64-77 | each operation can be performed on each good database |
| Model.HasGoodDb | internal/store/schema.go:36-46 | every record of maps that keeps the invariant is the view of some good database |
| Stores.InsertUser | internal/store/users.go:11-39 | once the login check has passed, the insert succeeds iff the user has ID, login and e-mail, adds that row alone and keeps the database good |
| Stores.DeleteOneUser | internal/store/users.go:128-151 | deleting a user and cascading by user ID gives exactly the rows without that user and its memberships, all indexes exact |
| Stores.DeleteOneGroup | internal/store/groups.go:105-127 | the same for a group and its memberships |
| Stores.WalkIsMembersOf | internal/store/groups.go:196-215 | the walk of the group index is the group's memberships in order of user ID |
| Stores.UncheckedInsertBreaksLogin | internal/store/users.go:11-39 | without the login check, an insert lets a second user take the login entry over while the first row stays: the check is needed |
| Stores.Store.constructor | internal/store/store.go:37-46 | a new store is empty, its indexes exact, its audit counter zero |
| Stores.Store.Reset | internal/store/store.go:48-59 | afterwards every table is empty and the audit counter is zero |
| Stores.Store.CreateUser | internal/store/users.go:11-39 | performs the atomic create: conflict on a taken ID or login, refusal of missing values, otherwise one new row, all indexes exact |
| Stores.Store.GetUser | internal/store/users.go:42-54 | answers the stored row, or not found, and changes nothing |
| Stores.Store.GetUserByLogin | internal/store/users.go:58-70 | answers the row with that login among all rows, though it only reads the index |
| Stores.Store.UpdateUser | internal/store/users.go:75-123 | performs the atomic update: not found, conflict with another user's login, or one row replaced with its index entries moved |
| Stores.Store.DeleteUser | internal/store/users.go:128-151 | performs the atomic delete with its cascade |
| Stores.Store.ListUsers | internal/store/users.go:157-178 | answers the first rows in order of ID, all of them when the limit is not positive |
| Stores.Store.CreateGroup | internal/store/groups.go:7-34 | the atomic create of a group, with conflicts on ID and name |
| Stores.Store.GetGroup | internal/store/groups.go:37-49 | answers the stored row, or not found |
| Stores.Store.UpdateGroup | internal/store/groups.go:54-101 | the atomic update of a group, with a conflict on another group's name |
| Stores.Store.DeleteGroup | internal/store/groups.go:105-127 | the atomic delete of a group with its memberships |
| Stores.Store.ListGroups | internal/store/groups.go:130-150 | answers the first groups in order of ID |
| Stores.Store.AddGroupMembership | internal/store/groups.go:156-172 | not found unless both ends are stored, otherwise the pair's row is put in place |
| Stores.Store.RemoveGroupMembership | internal/store/groups.go:176-193 | not found unless the pair is stored, otherwise removes exactly that row |
| Stores.Store.ListGroupMembers | internal/store/groups.go:196-215 | answers exactly the group's memberships, in order of user ID |
| Stores.Store.CreateApp | internal/store/apps.go:7-24 | the atomic create of an app: conflict on the ID alone |
| Stores.Store.GetApp | internal/store/apps.go:27-39 | answers the stored row, or not found |
| Stores.Store.UpdateApp | internal/store/apps.go:43-61 | the atomic update of an app |
| Stores.Store.DeleteApp | internal/store/apps.go:64-81 | the atomic delete of an app |
| Stores.Store.ListApps | internal/store/apps.go:84-105 | answers the first apps in order of ID |
| Stores.Store.InsertEntry | internal/store/audit.go:24-31 | stores the entry under the number it brought, whatever the counter is by then, all indexes exact |
| Stores.Store.AppendAudit | internal/store/audit.go:18-32 | the two one after the other: the entry is stored under the next counter value |
| Stores.Store.AuditByGap | internal/store/audit.go:36-56 | answers, in order of number, exactly the entries with that gap ID; nothing for the empty one |
| Stores.Store.GapsHit | internal/store/audit.go:60-89 | answers in strictly ascending order exactly the non-empty gap IDs that occur in the log |
| Stores.GapsPartitionTheLog | internal/store/audit.go:36-89 | the entries of the listed gaps are disjoint and their sizes add up to the number of entries with a gap ID |
| Stores.Listing | internal/store/users.go:157-178 | the copying loop stops after the limit's worth of rows, and never early |
| Concurrency.StepKeepsInvariant | internal/store/store.go:48-77 | every step of every call keeps the lock discipline, the log of effects and its agreement with all instances |
| Concurrency.EveryRunIsLinear | internal/store/store.go:48-77 | every interleaving with resets answers as if each operation were one atomic step on the record of maps, each finished call once; in every instance and open snapshot all indexes are exact and no membership dangles |
| Concurrency.RealTimeOrder | internal/store/store.go:48-77 | a call that returned before another began takes effect before it |
| Concurrency.AtMostOneWriterLeft | internal/store/store.go:48-59 | while Reset holds the mutex no call holds it for reading, and at most one write transaction is open on any instance |
| Concurrency.WriterCountsBeforeReset | internal/store/store.go:48-59 | the writer still open at the swap counts as happening just before the Reset, and nothing else comes between |
| Concurrency.LateCommitIsInvisible | internal/store/store.go:48-77 | what is committed to a replaced instance changes neither the current one nor the log, and that instance never becomes current again |
| Concurrency.ReplayKeepsRows | internal/store/store.go:48-77 | running any log of operations keeps distinct logins and names and memberships without dangling ends |
| Concurrency.RunIsSafe | internal/store/store.go:48-77 | any continuation of a run keeps the invariant, extends the log and never changes a finished call |
| Progress.NoDeadlock | internal/store/store.go:54-77 | in every state that keeps the invariant some unfinished call can move: waiters for the writer lock hold the read lock, and its holder never asks for the mutex again |
| Progress.SchedulesEnd | internal/store/store.go:54-77 | without new calls, no schedule is longer than a bound read off the open calls |
| Progress.EveryCallCanFinish | internal/store/store.go:54-77 | from every state that keeps the invariant all open calls can be brought to their end |
| AuditOrder.NumbersAreCompleteIff | internal/store/audit.go:18-32 | under every interleaving with resets, once calls are finished: the appends that opened on the current database have distinct numbers and its log holds exactly 1 to the counter if and only if none of them took its number before the last clear; every entry is then kept as numbered |
| AuditOrder.AppendsAreComplete | internal/store/audit.go:18-32 | so without a Reset appends get distinct numbers, and when all calls are finished the log holds exactly 1 to n, each entry as numbered |
| AuditOrder.StepKeepsEras | internal/store/store.go:48-59 | every step keeps: numbers since the last clear are 1 to the counter, each swap is one reset in the log with its clear next, and an append takes effect between the resets around the database it opened on |
| AuditOrder.NothingOverwritten | internal/store/audit.go:18-32 | when the numbers since the last reset are distinct, no append finds its number already in the log |
| AuditOrder.AppendsFillTheTable | internal/store/audit.go:18-32 | after any operations, resets included, the log holds exactly the numbers appended since the last reset |
| AuditOrder.DistinctAppendsAreKept | internal/store/audit.go:18-32 | and, where those differ, each entry as it was appended |
| AuditOrder.ResetCanLoseAnEntry | internal/store/audit.go:22-24 | for any two entries there is a run with one Reset where both appends return, only one entry is stored, and one took its number before the clear and opened after the swap |
| AuditOrder.ResetCanBeHarmless | internal/store/store.go:48-59 | for any entry there is a run with a Reset where the log is that entry under number 1 |
| Survival.RowSurvives | internal/store/users.go:75-102 | through any operations, updates included, a user, group or app stays under its ID until a delete of it or a reset |
| Survival.OnlyCreateAdds | internal/store/groups.go:54-81 | a user, group or app ID appears only by a create of it that is answered Done; no update adds one |
| Survival.TakenIdIsRefused | internal/store/groups.go:7-34 | after a create answered Done, every create of the same ID conflicts until the row is removed, whatever happens in between |
| Survival.TakenIdIsRefusedInRuns | internal/store/users.go:11-39 | the same for calls in any interleaved run with resets |
| Survival.IdsComeFromCreates | internal/store/users.go:11-102 | in any run, every ID in the current database has a create in the log that was answered Done |
| Survival.HeldNameIsRefused | internal/store/users.go:104-123 | while a row holds a login or group name, a create or update that would give it to another row fails and changes nothing |
| Moments.UserCreationAtItsMoment | internal/store/users.go:11-39 | in any interleaved run, a create of a user succeeds iff at its one moment its ID and login are free and no value is missing, and then adds that row alone; otherwise nothing changes and the answer tells the two failures apart |
| Moments.GroupCreationAtItsMoment | internal/store/groups.go:7-34 | the same for a group, its ID and its name |
| Moments.GapReportAtItsMoment | internal/store/audit.go:36-56 | in any interleaved run a gap report is exactly the entries with that non-empty gap ID in the log of its moment |
| Moments.GapsAtTheirMoment | internal/store/audit.go:60-89 | and the list of gaps exactly the non-empty gap IDs there |
| CopyOnRead.HandlersAreTame | internal/handlers/users.go:185-246 | no handler has an assignment after an insert, and each assignment is to a variable holding its own copy or literal |
| CopyOnRead.StepKeepsSeparate | internal/store/cast.go:12-26 | one statement of one program, writing through its pointer, keeps every struct ever stored as it is and unowned |
| CopyOnRead.StoredRowsNeverChange | internal/store/cast.go:12-62 | through any run of any number of handlers, interleaved statement by statement, a struct that was once stored never changes |
| CopyOnRead.SnapshotsHoldStill | internal/store/cast.go:12-62 | in such a run every open read transaction and the committed tables go on showing the same rows with the same contents |
| CopyOnRead.ReadsHandOutCopies | internal/store/cast.go:19-62 | what a read hands out is a new pointer that nothing stored uses, to the contents of the row |
| CopyOnRead.ListAnswersArePrivate | internal/store/users.go:157-178 | through any run among other handlers, the pointers in the slice a list or member list returns are never stored nor held by another program, and the copies behind them never change |
| CopyOnRead.LateWriteShows | internal/handlers/users.go:76-91 | a create that wrote to its struct after the insert would change the stored row and a transaction opened before the write |
| CopyOnRead.AliasWouldShow | internal/store/cast.go:12-26 | had the read returned the stored pointer, a lifecycle write would change open transactions: the copy is needed |
| Serial.StepCommutes | internal/store/cast.go:12-26 | each statement of a handler through its pointers does, seen without pointers, what the statement says of values |
| Serial.AloneIsSolo | internal/store/cast.go:12-62 | after any run of handlers, one that runs from start to end without interruption leaves in the tables, shows and returns what its statements do on values |
| SoloServes.UserProgramsServe | internal/handlers/users.go:59-246 | and for each request for one user that is what `Serve` stores and answers |
| SoloServes.GroupProgramsServe | internal/handlers/groups.go:98-288 | for each request for one group or membership |
| SoloServes.AppProgramsServe | internal/handlers/apps.go:46-183 | for each request for one app |
| SoloServes.UserListReturns | internal/store/users.go:157-178 | the list program returns copies of all users in order of ID |
| SoloServes.GroupListReturns | internal/store/groups.go:130-150 | of all groups |
| SoloServes.AppListReturns | internal/store/apps.go:84-105 | of all apps |
| SoloServes.MemberProgramReturns | internal/handlers/groups.go:291-319 | the member list program returns copies of the memberships and then of the users the request answers with |
| Serial.AppendEnds | internal/store/audit.go:18-32 | the append program stores its own entry under its number, stamped unless it has a time |
| Serial.ResetEnds | internal/store/store.go:48-59 | the reset program leaves empty tables |
| Ids.NewID | internal/store/ids.go:38-49 | always 20 characters of the base32 alphabet, for any digest |
| Ids.IdIsTheNumber | internal/store/ids.go:25-49 | read as a number in base 32, each symbol worth its place in the alphabet, an ID is the first 13 bytes of the digest of kind, NUL and key, read in base 256, divided by 16 |
| Ids.SameIdIffSameHundredBits | internal/store/ids.go:38-49 | two IDs are equal iff the first 100 bits of the two digests agree |
| Ids.SymbolsTellBits | internal/store/ids.go:29-49 | the first n symbols of the encoding agree iff the first 5n bits do |
| Ids.HashInputDetermines | internal/store/ids.go:38-42 | the hash input determines kind and key when kinds hold no NUL, whatever bytes the key holds |
| Ids.SymbolsSpellTheAlphabet | internal/store/ids.go:25-29 | the symbols are those of section 6 of RFC 4648, in its order |
| Filters.ParseOfPrint | internal/handlers/users.go:413-426 | every triple with space-free attribute and operator is read back from its print, spaces and quotes in the value included |
| Filters.PrintOfParse | internal/handlers/users.go:413-426 | every accepted expression is the print of what was read, with space-free attribute and operator |
| Filters.SplitFilterIff | internal/handlers/users.go:413-426 | an expression is read as attribute, operator and value iff it is these, the first two free of spaces, joined by single spaces with the value in quotes |
| Filters.UserFilterIff | internal/handlers/users.go:375-408 | a user filter is accepted iff it is empty or has a known attribute and eq or sw; it selects the users whose named field equals the value, or starts with it |
| Filters.AppFilterIff | internal/handlers/apps.go:248-283 | the same for apps and their attributes |
| Filters.ParseLimit | internal/handlers/users.go:431-443 | the 64-bit loop returns the decimal value of any digit string below 2^63, and 0 for the empty string and for anything that holds a non-digit |
| Filters.LimitExactIff | internal/handlers/users.go:431-443 | for digit strings the result is the number written iff it is below 2^63, and then no step overflows |
| Filters.LimitMeans | internal/handlers/users.go:431-443 | no limit for an empty, non-digit or zero parameter, the number written if that is below 2^63, and beyond that the number that differs by a multiple of 2^64 |
| Filters.DecimalPlaces | internal/handlers/users.go:431-443 | the value of a digit string: each digit its own, each place ten times the next |
| Filters.LimitsComeBackIff | internal/handlers/users.go:431-443 | every number written in decimal is read back as itself iff it is below 2^63 |
| Requests.LooksValidIff | internal/handlers/dto.go:52-55 | a login passes iff it has exactly one at-sign, with something on both sides |
| RoundTrips.ValidatedIff | internal/handlers/users.go:299-345 | a profile is accepted iff it decodes and, in strict mode, is there, has an e-mail and a login with one at-sign and something on both sides |
| RoundTrips.UserPosted | internal/handlers/users.go:59-92 | 400, 409 and 500 on their exact conditions; otherwise the stored user has the given login, e-mail and profile, the status its flag asks for, the ID of its login and both times now, and GETs by ID and by login show it |
| RoundTrips.UserPut | internal/handlers/users.go:147-180 | 404, 400, 409 and 500 on their exact conditions; otherwise login, e-mail, profile and update time are new, and ID, status and creation time stay |
| RoundTrips.UserFetched | internal/handlers/users.go:127-140 | the user with that ID, or else the one with that login, or 404 |
| RoundTrips.UserActivated | internal/handlers/users.go:185-211 | activate and deactivate set their status and the update time and nothing else, or answer 404 |
| RoundTrips.UserDropped | internal/handlers/users.go:214-246 | a DELETE deprovisions, and once deprovisioned removes the row and exactly its memberships; a GET is then 404 |
| RoundTrips.GroupPosted | internal/handlers/groups.go:71-131 | 501 with the right gap for APP_GROUP and BUILT_IN, 400 and 409 on their exact conditions, or the group as given, which a GET shows |
| RoundTrips.GroupFetched | internal/handlers/groups.go:134-143 | the stored group or 404 |
| RoundTrips.GroupPut | internal/handlers/groups.go:146-181 | 404, 400 and 409 on their exact conditions; ID, type and creation time stay, and the name when none is given |
| RoundTrips.GroupDropped | internal/handlers/groups.go:184-192 | the group and exactly its memberships go; a GET is then 404 |
| RoundTrips.MembersShown | internal/handlers/groups.go:291-319 | run alone, exactly the joined users in order of ID, or 404 |
| RoundTrips.MemberPutAndDropped | internal/handlers/groups.go:258-288 | joining needs both ends and sets the time anew; parting undoes it, or is 404 where nothing is joined |
| RoundTrips.AppPosted | internal/handlers/apps.go:46-83 | 501 with its gap for other modes, 400 and 409 on their exact conditions, or an ACTIVE app under its label when it has no name, which a GET shows |
| RoundTrips.AppFetched | internal/handlers/apps.go:86-95 | the stored app or 404 |
| RoundTrips.AppPut | internal/handlers/apps.go:98-131 | name and label are the given ones where not empty, settings the given ones; ID, status, mode and creation time stay |
| RoundTrips.AppActivated | internal/handlers/apps.go:134-157 | activate and deactivate set their status and nothing else, or answer 404 |
| RoundTrips.AppDropped | internal/handlers/apps.go:159-183 | 404, 400 unless INACTIVE, or the app goes and a GET is then 404 |
| Handlers.UsersCreate | internal/handlers/users.go:59-92 | the request has the effect and answer of `Serve`: 400, 409, 500 or one new row with its derived ID |
| Handlers.UsersGet | internal/handlers/users.go:127-140 | ID first, then login, as `Serve` says; nothing changes |
| Handlers.UsersUpdate | internal/handlers/users.go:147-180 | the get, validation and update together have the effect and answer of `Serve` |
| Handlers.UserLifecycle | internal/handlers/users.go:185-213 | the get and update together change one user's status and update time only |
| Handlers.UsersDelete | internal/handlers/users.go:221-246 | deprovisions or removes, as the status found says |
| Handlers.UsersList | internal/handlers/users.go:255-294 | the filtered, limited list, or 400 with the gap ID |
| Handlers.GroupsCreate | internal/handlers/groups.go:98-131 | the checks in order, 501 with its gap ID for unimplemented types, or one new group |
| Handlers.GroupsUpdate | internal/handlers/groups.go:146-181 | the get and update together have the effect and answer of `Serve` |
| Handlers.GroupsDelete | internal/handlers/groups.go:184-192 | removes the group with its memberships, or 404 |
| Handlers.GroupsList | internal/handlers/groups.go:198-228 | the groups whose name starts with the query, or 400 with the gap ID for any filter |
| Handlers.MembershipAdd | internal/handlers/groups.go:258-273 | joins two stored rows, or 404 |
| Handlers.MembershipRemove | internal/handlers/groups.go:276-288 | removes one pair, or 404 |
| Handlers.MembershipList | internal/handlers/groups.go:291-319 | the loop over memberships with one lookup each, run alone, gives the members |
| Handlers.AppsCreate | internal/handlers/apps.go:46-83 | 501 for other sign-on modes, 400 without a label, 409 on a taken ID, or one new ACTIVE app |
| Handlers.AppsUpdate | internal/handlers/apps.go:98-131 | keeps ID, status, mode and what the body leaves empty |
| Handlers.AppLifecycle | internal/handlers/apps.go:134-157 | the get and update together change one app's status only |
| Handlers.AppsDelete | internal/handlers/apps.go:164-183 | 400 unless INACTIVE, otherwise removes the app |
| Handlers.AppsList | internal/handlers/apps.go:188-224 | the filtered, limited list, or 400 with the gap ID |
| Handlers.Pick | internal/handlers/users.go:274-288 | the loop that filters and stops at the limit keeps exactly the first matches |
| Audited.Route | pkg/mockta/server.go:178-246 | each routed request has the effect and answer of `Serve`; one no handler claims is 501 with the identifier the registry looks up |
| Audited.Handle | internal/middleware/audit.go:44-65 | one request, rejected or served, has its effect and then leaves one entry with its status and gap ID |
| AuditLog.RejectedTouchesNothing | internal/middleware/auth.go:31-56 | a request without a valid token is answered 401 whatever it asks for, changes no user, group, membership or app, and adds one entry with status 401 and no gap |
| AuditLog.RejectedLeaveNoTrace | pkg/mockta/server.go:222-225 | over any run, the rows apart from the log are those the authorized requests alone leave, and each authorized request is answered as without the others |
| AuditLog.AuthorizedIsServed | internal/middleware/auth.go:31-56 | a request with one is answered, and changes the rows, as `Serve` says |
| Programs.AloneServes | internal/handlers/users.go:59-294 | each handler as a sequence of store calls, run with nothing in between, changes the rows and responds as `Serve` says, whatever the request |
| Programs.AloneHits | internal/middleware/audit.go:44-65 | the same with the middleware: the rows, the entry appended and the answer are those of `ServeHit` |
| Programs.RejectedOnlyAppends | pkg/mockta/server.go:222-225 | a rejected request makes no store call but an append that says 401 |
| Traces.RunKeepsInv | internal/handlers/users.go:59-246 | every run of requests keeps the store invariant |
| Traces.StatusStep | internal/handlers/users.go:185-246 | what one request of any kind does to one user's status, and when the row can appear or go |
| Traces.DeprovisionedHasACause | internal/handlers/users.go:185-246 | a DEPROVISIONED user was deactivated or deleted once after its creation and after its last activate |
| Traces.RemovalWasPrepared | internal/handlers/users.go:214-246 | only a reset or a DELETE removes a user, and the DELETE only if a deactivate or earlier DELETE came after its creation and last activate |
| Traces.NeverFreshAgain | internal/handlers/users.go:75-92 | STAGED and PROVISIONED are never entered again while the row lives, over any run |
| Overlap.PutChangesStatusIff | internal/handlers/users.go:142-180 | where requests overlap, a PUT writes the status it read, and so changes the status iff since its read the row was written and last with another status |
| Overlap.DropsLiveUserIff | internal/handlers/users.go:214-246 | a DELETE removes a user that is not DEPROVISIONED iff since its read the row was written and last with another status |
| Overlap.DropsLiveAppIff | internal/handlers/apps.go:159-183 | the same for an app that is not INACTIVE |
| Overlap.FreshAgainIff | internal/handlers/users.go:142-180 | a live user becomes STAGED or PROVISIONED again iff a PUT that read it so is written, and that PUT's read was followed by a write with another status |
| Races.PutBringsStagedBack | internal/handlers/users.go:147-180 | for every accepted profile there is a run of overlapping requests in which a PUT alone takes the user from ACTIVE to STAGED |
| Races.DropRemovesActiveUser | internal/handlers/users.go:221-246 | one in which a DELETE alone removes an ACTIVE user |
| Races.DropRemovesActiveApp | internal/handlers/apps.go:164-183 | one in which a DELETE alone removes an ACTIVE app |
| Traces.TwoDeletesRemove | internal/handlers/users.go:214-246 | two DELETEs in a row remove the user and all its memberships, from any status, and nothing else |
| Traces.InactiveHasACause | internal/handlers/apps.go:134-157 | an INACTIVE app was deactivated after its creation and after its last activate |
| Traces.AppRemovalHasACause | internal/handlers/apps.go:159-183 | only a reset or a DELETE removes an app, and the DELETE only if a deactivate came after its creation and last activate |
| Creation.OnlyCreationAddsAnId | internal/handlers/users.go:147-180 | no request but a creation adds a user, and then under the ID of the login given |
| Creation.UpdateClashesIff | internal/handlers/users.go:147-180 | an accepted update makes a key one user's ID and another's login for the first time iff the new login is another stored user's ID |
| Creation.CreationClashesIff | internal/handlers/users.go:59-92 | an accepted creation does iff its login is a stored ID or its ID is a stored login |
| Creation.ClashIsTheLookup | internal/handlers/users.go:127-140 | some key is one user's ID and another's login iff for some key the lookup by ID and the lookup by login find two different users |
| Creation.PermissiveKeyNamesTwo | internal/handlers/users.go:127-140 | in permissive mode two creations suffice |
| Creation.KeyNamesOneUser | internal/handlers/users.go:127-140 | after any run of requests in strict mode, no key is one user's ID and another's login |
| Network.StepKeepsNet | internal/handlers/users.go:59-294 | every arrival, call and store step of any number of overlapping requests keeps: each call is what its handler asks for after the answers it has, and each was made after the earlier ones returned |
| Network.LogIsFromHandlers | internal/handlers/users.go:59-246 | so each write and delete that takes effect is made by some handler from a request and from a row that an earlier event of the log read |
| Network.RunsAreFromHandlers | internal/store/store.go:48-77 | for every run of overlapping requests the rows are those of its log replayed, and that log is one of handlers: the premises of `Overlap` hold of every run |
| Network.AnsweredRequestsAreLogged | internal/middleware/audit.go:44-65 | however requests overlap, a request that is answered has exactly one append among its calls, the last one; its entry is in the log once and carries the request's verb, path and time and the answer's status and gap |
| Network.RejectedInFlight | pkg/mockta/server.go:222-225 | however requests overlap, a rejected one makes one store call at most, the append that says 401 |
| Network.KeyNamesOneUserInFlight | internal/handlers/users.go:127-140 | in strict mode, however requests and resets overlap, no key is one user's ID and another's login |
| Profiles.RowsAgreeWithProfiles | internal/handlers/users.go:59-180 | after any run of requests each user's login and e-mail are those of its stored profile, each group's name that of its profile unless that has none, and all statuses, types and modes are implemented ones |
| Network.RowsAgreeInFlight | internal/handlers/users.go:59-213 | the same however requests overlap, call by call |
| Interleaved.OriginalLoginStaysTaken | internal/handlers/users.go:76-89 | the login a user was created with stays refused to creations under every interleaving, whatever renames come in between, until the row is deleted or the store reset |
| Interleaved.OriginalNameStaysTaken | internal/handlers/groups.go:118-130 | the same for groups and the name they were created with |
| Profiles.GroupKeepsNameIff | internal/handlers/groups.go:146-181 | after an accepted update a group's name is its profile's iff that profile has one; ID, type and creation time stay |
| Profiles.NamelessPutKeepsName | internal/handlers/groups.go:163-176 | a group created with a name and then put with a profile that has none ends with the old name and the new profile |
| Profiles.RenameMovesTheLogin | internal/handlers/users.go:147-180 | after a rename the row is found under its old ID and its new login, the old login is free, status and creation time are kept, and no other user has changed |
| Listings.ListIsExact | internal/handlers/users.go:255-294 | a list rises strictly by ID, holds only stored matches, and a match is missing only when the limit is filled by rows before it |
| Listings.OneListIsExact | internal/handlers/users.go:255-294 | that description fits one list only, so it says all there is to say about the answer |
| Listings.UserListIsExact | internal/handlers/users.go:255-294 | that, for user lists with any accepted filter |
| Listings.AppListIsExact | internal/handlers/apps.go:188-224 | that, for app lists |
| Listings.GroupListIsExact | internal/handlers/groups.go:198-228 | that, for group lists by lower-cased prefix, whatever the lower-casing |
| Listings.UsersShown | internal/handlers/users.go:255-294 | a filter that is not understood is 400 with its gap ID; otherwise the list has the users that meet the filter in order of ID, all of them without a limit, and with one the first min(limit, matches) of them |
| Listings.AppsShown | internal/handlers/apps.go:188-224 | the same for apps |
| Listings.GroupsShown | internal/handlers/groups.go:198-228 | the same for groups, by the start of the lower-cased name; any filter is 400 |
| Ordering.LessIff | internal/store/users.go:157-178 | order of ID means order of bytes: decided where two IDs first differ, a proper prefix first |
| Listings.LoginListIsTheLookup | internal/handlers/users.go:375-408 | the list for login eq "L" is exactly the row the login index finds, or empty |
| Listings.AloneNothingIsSkipped | internal/handlers/groups.go:291-319 | run alone, the member list has one user per membership and never skips |
| Listings.InterleavedMembers | internal/handlers/groups.go:291-319 | with each lookup made in some other state, it holds only users who were members in the snapshot, in order of ID, and is complete iff each still existed |
| Listings.MembersInARun | internal/handlers/groups.go:291-319 | in any run of the store, the users that one ListMembers call and one GetUser call for each of its rows answer were all members in its snapshot, in order of ID, and all of them iff every GetUser found its user |
| Listings.UserListInARun | internal/handlers/users.go:255-294 | in any run, what a user list handler makes of its one store call is the exact list of the rows at that call's moment, for any filter and limit |
| Listings.AppListInARun | internal/handlers/apps.go:188-224 | that, for app lists |
| Listings.GroupListInARun | internal/handlers/groups.go:198-228 | that, for group lists |
| AuditLog.HitAppends | internal/middleware/audit.go:44-65 | one request other than a reset adds one entry under the next number and leaves the others |
| AuditLog.OneEntryPerRequest | internal/middleware/audit.go:44-65 | a run of n requests, rejected ones included, adds exactly the entries k+1 to k+n, in order, with each answer's status and gap ID |
| AuditLog.UnroutedHitIsLogged | internal/handlers/notimplemented.go:18-35 | a request no handler serves changes only the log, whose entry carries 501 and the identifier of the first matching registry entry, or the uncatalogued one; the gap report lists it |
| AuditLog.LogAfterReset | pkg/mockta/server.go:222-246 | after a reset the log is that request as entry 1 followed by exactly the later requests, whatever came before |
| Gaps.MatchesIff | internal/gaps/gaps.go:111-121 | an endpoint with a space matches exactly the requests by its verb whose path starts with its path, one without every request whose path starts with it |
| Gaps.LookupIsFirstCovering | internal/gaps/gaps.go:86-96 | the answer is the identifier of the first entry whose endpoint covers the request in that sense, and unknown iff none does |
| Gaps.MatchesShareTheEndpoint | internal/gaps/gaps.go:111-121 | in a prefix-free registry all entries that match one request have the same endpoint |
| Gaps.OrderIsIrrelevant | internal/gaps/gaps.go:86-121 | for every prefix-free registry, any reordering that keeps equal endpoints in order answers every request alike |
| Gaps.AnswersAgreeIff | internal/gaps/gaps.go:86-121 | two lists of the same prefix-free entries answer every request alike iff each endpoint has the same first identifier in both |
| Gaps.RegistryIsPrefixFree | internal/gaps/gaps.go:144-273 | no registered path is a proper prefix of another, and equal paths both name a verb or both do not |
| Gaps.RegistryAnswers | internal/gaps/gaps.go:144-273 | every request on the path of a registered endpoint, or below it, is answered with the first identifier of that endpoint |
| Gaps.AnswersForAnyVerb | internal/gaps/gaps.go:193-222 | which identifier that is for policies, idps and trustedOrigins, for any verb and whatever follows |
| Gaps.ServersForAnyVerb | internal/gaps/gaps.go:201-208 | for authorizationServers |
| Gaps.MoreAnswersForAnyVerb | internal/gaps/gaps.go:223-250 | for inlineHooks, eventHooks, behaviors and networkZones |
| Gaps.LastAnswersForAnyVerb | internal/gaps/gaps.go:251-273 | for meta/schemas, sessions and SCIM |
| Gaps.AnswersByVerb | internal/gaps/gaps.go:144-192 | and for GET and POST on users, groups and apps |
| Gaps.RegistryOrderIff | internal/gaps/gaps.go:144-273 | any list of the registry's entries answers every request as the registry does iff it has the APP_GROUP entry for POST groups before the BUILT_IN one |
| Export.NotesComeBack | internal/gaps/export.go:38-39 | in a notes cell every pipe follows an inserted backslash, the cell is one line, and removing those backslashes gives the notes back |
| Export.SortById | internal/gaps/export.go:15-17 | sorts the copy in place: a permutation, in order of ID |
| Export.Markdown | internal/gaps/export.go:14-50 | after the header the page splits into one line for each entry, in order of ID; at the pipes without a backslash each line splits into the quoted ID, the quoted endpoint, resource, status, and a cell that unescapes to the notes with newlines as spaces, for entries whose other cells hold no pipe or newline |
| Export.OneSortedOrder | internal/gaps/export.go:15-17 | entries with distinct IDs have one sorted order, and it rises strictly |
| Export.SamePage | internal/gaps/export.go:14-50 | any two permutations of entries with distinct IDs give the same page |
| Chain.Compose | internal/middleware/chain.go:13-18 | the loop nests the middleware, first one outermost |
| Chain.FirstListedRunsFirst | internal/middleware/chain.go:10-18 | a request enters the middleware in the order listed and leaves in the opposite order |
| Chain.RejectionReachesTheOutside | pkg/mockta/server.go:222-225 | a middleware that answers by itself passes its answer through all outer ones, whatever lies inside |

## Left out

- HTTP servers, listeners, shutdown, routing patterns, the CLI, configuration and logging: plumbing.
- The answers of `/users/me`, `/org` and `/health`, and the admin port's 404: fixed payloads that touch no row. Their audit entries are like any other request's.
- Token checking: whether a request is authorized is part of the request.
- JSON text, the error envelope, Link headers, the profile shown when none was stored, and the activation time in a response.
- Markdown's fixed header text is a parameter; resource and notes texts of the registry are not repeated.
- `StubRegistry`, `All` and the two registries' interface: constant answers.
- go-memdb's radix tree, Go's mutex and `sort.Slice`: their contracts are modelled. The in-place sort is an insertion sort that stands for any sort by ID.
- Handlers.MembershipList: is proved for requests run alone; `Listings.MembersInARun` is the interleaved form.
- AuditOrder.NumbersAreCompleteIff: assumes fewer than 2^64 appends, where the counter would wrap.
- AuditOrder.AppendsAreComplete: the same.
- AuditLog.OneEntryPerRequest: assumes fewer than 2^64 entries for the same reason.
- Store methods work on a private copy of the database value that is assigned at commit; the pointers inside rows are modelled in `copyonread.dfy`, which leaves out indexes and locks.
- In `network.dfy` a request's calls are those of its handler and then one audit append; the identifiers of requests and calls are arbitrary, and a request that never makes its next call is allowed.
