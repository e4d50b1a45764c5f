# Comicollect server: a model of its stateful heart

The project models four state machines of the Python backend and proves what they keep over whole
runs:

* **Sync** (`server/comicollect_server.py`, class `Store`): an append-only log of change groups, the
  entity table that is its replay, receipts that make retried mutations harmless, a bounded cache of
  responses, the flat v1 table, and the cut-over from last-writer-wins v1 to v2.
* **Accounts** (`auth_repository.py`, `auth_schema.py`, `auth_action_repository.py`,
  `auth_service.py`): rotating refresh tokens with retries and replay detection, session and token
  retention, action tokens, and logins that race with password resets.
* **Tenants** (`tenant_store.py`): capacity reservations, and erasing an account while work is in
  flight.
* **Throttling** (`rate_limit.py`): fixed windows in a table that evicts the least recently used key.

## How it is built

Each machine exists twice. The specification is a set of functions on values (`Canonical`,
`Projection`, `V1Bridge`, `Paging`, `RequestCache`, `SyncState`; `AuthTables`, `AuthMachine`;
`TenantCapacity`, `TenantErasure`; `RateLimit`), and runs are folds over those functions. The
implementation is a class whose fields are the tables and whose methods follow the Python methods
loop by loop and branch by branch (`SyncStore.Store`, `AuthStore.Repository`,
`TenantStore.Registry`, `RateLimit.Limiter`); each method's postcondition equates its new state and
its answer with the specification. The invariants and theorems are then lemmas about the
specification. A raised exception is an error value and leaves the state as it was, because every
transaction is rolled back; a clock is a parameter.

The specification of copy authority is declarative (every entry normalised where it stands against
the copies that will be active, missing entries appended in text order), so that
`NormalizeCopyAuthority`, which works issue by issue on a growing list, is proved against something
it does not look like. In the same way the token family prune is proved against "the newest live
token and its newest parent", the projection against "the first copy in the order", and the cache
prune against "the longest run of the youngest rows within all three bounds".

Beside the specification stand theorems that say, without naming its functions, what it does to each
row and when it gives each answer: `GroupContents` and `FlatRows` for what a mutation stores and a v1
client sees, `V1Bridge` and `RoundTrip` for what a flat comic becomes, `Acceptance` for the refusals,
`RefreshOutcomes`, `AccountOutcomes` and `ActionOutcomes` for the operations on accounts, and
`RateLimit.AdmittedIff` for the limiter. `JsonText` writes responses and changes out as text, and the
byte counts of `Paging` and `RequestCache` are proved to be its encoded length.

What an id hashes to and how long a change is in JSON are parameters; theorems that depend on real
sizes assume `Paging.MeasuresJson`, which counts every byte of a change but the digits of a price
and the null hint that the bridge leaves out, and holds of its JSON text (`JsonText`). Theorems
about the length of an answer take its numbers to fit 64 bits and the server id to be an identifier
(`SyncRuns.NumbersFit`). A receipt and a cache row keep the payload whose hash the server stores,
`v1:` and `bootstrap:` ids hold the comic they are the hash of, digests and password hashes of the
accounts are opaque numbers.

## What the proofs found

Where a promise does not hold, a theorem says exactly when it does, and a run from an empty store or
database (`Witnesses`, and `SessionLimits.FiveAccessTokens`) meets the failing case.

* **Ids over 64 characters break the flat table.** `validate_comic` cuts the id of a projected row to
  64 characters while v2 allows 128 bytes. After any run every issue a client has changed agrees with
  its row if and only if none with an entry has an id of more than 64 characters
  (`Cutover.RowsFollowEntities`); one request with one copy gets there
  (`Witnesses.LongIssueHasNoRow`). The bridge itself makes such ids (`Cutover.LegacyIdsAreLong`:
  `legacy-` and a digest are 71 characters).
* **The largest timestamp blocks its row.** A projection fails exactly when a row it must replace
  carries 2^63 - 1 (`Cutover.RefreshAllFails`), and then the mutation is refused
  (`Acceptance.NewMutationIsRecordedIff`); one v1 write gets there (`Witnesses.LargestTimestampBlocks`).
* **A last page may pass the response limit by one byte**, because the size is measured with
  `has_more` true, and false is longer. It does so exactly when the whole rest of the log fits the
  page limit and its measure fills the response limit to the byte (`Paging.AnswerPassesLimitIff`). Two
  requests of 400 and 209 collection entries with notes get there (`Witnesses.AnswerPassesLimit`). The
  documentation promises the limit itself; the model follows the code.
* **A cached final page may be old**: an answer from the cache may say that nothing follows although
  the log has grown (`Witnesses.CachedAnswerIsOld`). An answer computed for the call leaves the client
  current exactly when it says so, a cached one exactly when the cursor it was cached with is still the
  head of the log (`SyncRuns.FinalPageIsCurrent`). Polls under new request ids are always computed and
  reach the head (`SyncRuns.PollingReachesHead`).
* **A row dated in the future hides later changes.** A v1 poll asks for rows newer than the time it
  was last answered with, and that is the time of the newest row if the clock is behind it. The row a
  v2 write makes meanwhile comes with the next poll exactly when the clock has passed that time or the
  row had reached it (`V1Polls.RefreshIsSeenIff`); one v1 write gets there
  (`Witnesses.FutureRowHidesChange`). While the clock is ahead, the next poll brings everything
  (`V1Polls.NextPollBringsChanges`).
* **Only digests can make bridged rows share a v2 id**: a v1 id takes at most 64 characters and one
  made from a digest 71 (`Lockstep.OnlyDigestsCollide`), so before activation the entity table is the
  union of the rows unless the digests of two ids collide (`Cutover.UnionBeforeActivation`).
* **Branches that cannot be reached**: "refresh replacement is missing", a replacement already
  consumed under the same request id, `unavailable` from a rotation, the page error for an oversized
  group (`SyncRuns.OversizedGroupIsUnreachable`), a group of one comic over the size limit
  (`Acceptance.V1CallIsRefusedIff`), the `max(1, …)` of Retry-After, and the last UPDATE of a password
  reset, which touches no row.
* **Four access tokens need a clock that goes forward.** The loop keeps the four newest and the one a
  retry needs, which is five at most; that the latter is among the four follows from its being the
  newest (`SessionLimits.FourAccessTokens`). When the clock goes back there are five
  (`SessionLimits.FiveAccessTokens`).
* **Two erasures of one account at a time collide**: if the first fails it unblocks the account while
  the second still deletes (`TenantErasure.TwoErasuresCollide`), and that is the only way
  (`TenantErasure.FailureKeepsExclusionIff`).

## Model

| member | source | states |
|---|---|---|
| StoreLemmas.SortedInOrder | server/comicollect_server.py:619 | `sorted(...)` of a set stands in text order, code point by code point |
| Utf8.TruncateIsLongestPrefix | server/comicollect_server.py:1383-1387 | cutting the encoded bytes and decoding with errors ignored gives the longest prefix of whole characters that fits, which is section 3 of RFC 3629 at work: no cut character survives and no whole one is lost |
| Utf8.CutCharDecodesToNothing | server/comicollect_server.py:1387 | the bytes of a character cut short decode to nothing |
| SyncTypes.ValidateComicIsIdempotent | server/comicollect_server.py:899-931 | what validation returns passes it unchanged: its cuts and clamps are done once |
| Canonical.RecordAt | server/comicollect_server.py:599-617 | the upserts of a group put exactly its changes into the entity table, at its revision, and leave every other row alone |
| Canonical.NormalizedOrigin | server/comicollect_server.py:666-793 | every change of a canonical group is a change of the mutation, normalised, or the implied entry of an issue whose copies changed |
| Authority.ActiveAfterGroup | server/comicollect_server.py:674-701 | the copies counted while normalising are exactly those active once the group is stored |
| Authority.NormalizedEntryAgrees | server/comicollect_server.py:752-792 | a normalised entry's flags, tombstone and operation agree with the number of active copies |
| Authority.GroupKeepsCopyAuthority | server/comicollect_server.py:623-793 | every accepted group keeps: copies have entries, live entries have owned, duplicate and wanted as their active copies say, tombstones have none, operations agree with tombstones, and every issue is described |
| ConcurrentDevices.CopyMutationsCommute | server/comicollect_server.py:666-793 | two copy-only mutations on disjoint copies, accepted in both orders, leave the same copies, flags and tombstones, and the same whole entry where one was stored |
| ConcurrentDevices.DeletionObservesCopies | server/comicollect_server.py:753-789 | a deletion of an entry takes effect if and only if no copy stays active; otherwise every non-derived stored field survives, a missing hint apart |
| GroupContents.AcceptedIff | server/comicollect_server.py:623-664 | the changes of a mutation are refused, always as invalid, if and only if they change an entity twice, move a stored copy to another issue, or name an issue that no custom issue stored or sent explains without describing it |
| GroupContents.SentIsStored | server/comicollect_server.py:594-610 | copies, barcodes and custom issues are stored as they were sent, a custom issue marked deleted exactly when its operation is a deletion |
| GroupContents.SentEntryIsStored | server/comicollect_server.py:790-792 | a live entry is stored with every field as sent but owned, duplicate and wanted, which count the copies active afterwards |
| GroupContents.SentTombstoneIsStored | server/comicollect_server.py:785-789 | with no active copy a deletion is stored as sent, its three derived flags cleared |
| GroupContents.SentTombstoneIsRevived | server/comicollect_server.py:756-792 | with an active copy and no live entry stored, it is stored as the live entry it describes |
| GroupContents.NewEntryIsStored | server/comicollect_server.py:711-752 | copies of an issue without an entry, stored or sent, bring one: live, unread, rating 0, no notes, as late as the latest of the mutation's copies of the issue, with the hint of the first of them in the order of the request that has one |
| GroupContents.KeptEntryIsStored | server/comicollect_server.py:711-718 | an entry that is stored but not sent keeps every field its copies do not decide, and a tombstone becomes live exactly when a copy is active |
| GroupContents.NothingElseIsStored | server/comicollect_server.py:594-610 | keys that were neither sent nor are the entry of an issue whose copies were keep their rows |
| Projection.RowIsValid | server/comicollect_server.py:812-879 | a projected row passes validation unless its timestamp does not fit 64 bits, and is stored as projected with its id cut |
| Projection.RefreshEffect | server/comicollect_server.py:812-879 | a refresh writes the row of one issue, strictly newer than before and keeping its cover, so the UPSERT guard never drops it; of an id too long for a row it writes the row under the first 64 characters, unless that one is as new; it fails if and only if no newer timestamp exists (`FlatRows.RefreshedRow` says what the row holds and when it is dated) |
| FlatRows.RefreshedRow | server/comicollect_server.py:812-879 | for every refresh of an id of at most 64 characters: a row exactly when an entry or a row exists and something describes the issue; title fields of the custom issue, or of the entry's hint, or of the first hinted copy by ordinal and id; pages, writer and artist of the custom issue or none; notes, rating and read mark of the entry; grade, prices and loan of the first active copy, or of the first; deleted if and only if the issue is a tombstone or no live entry is stored; dated with the least time that is not before now and later than the old row; no other row changes |
| FlatRows.RefreshedLongRow | server/comicollect_server.py:812-879 | for a longer id the same fields under its first 64 characters, dated now, unless the row there is as new |
| Projection.UpsertEffect | server/comicollect_server.py:51-53 | the UPSERT replaces a row exactly by a strictly newer one, leaves the table as it was otherwise, and touches no other row |
| Projection.UntouchedView | server/comicollect_server.py:812-852 | a group that does not touch an issue changes nothing its row is projected from |
| V1Bridge.SanitizedIsSanitized | server/comicollect_server.py:1316-1380 | sanitising any stored comic gives fields within every v2 limit |
| V1Bridge.SanitizedTexts | server/comicollect_server.py:1316-1387 | for every comic: edition, publisher, writer, artist, notes and loan become their longest whole-character prefix within the limit, series and title that of the trimmed text; an empty series gets a name, an empty title the series and number, an id that is no identifier its digest |
| V1Bridge.SanitizedFields | server/comicollect_server.py:1316-1380 | number and time move to the nearest value v2 allows, year, pages and prices are dropped when out of range, and owned, read, duplicate, grade, rating and deleted stay |
| V1Bridge.WithinLimitsIsKept | server/comicollect_server.py:1316-1380 | a comic within the v2 limits, its series and title trimmed, is left exactly as it is |
| V1Bridge.V1ChangesAreUploadable | server/comicollect_server.py:1244-1313 | all changes made from a comic pass the v2 validation if and only if its v2 id takes at most 121 bytes |
| V1Bridge.CanonicalizeComic | server/comicollect_server.py:1244-1313 | in a table the bridge wrote, the changes of a comic are always accepted, and their canonical group depends on the comic alone |
| RoundTrip.V1RoundTrip | server/comicollect_server.py:812-879 | recording the changes of a live comic within the v2 limits, its series and title trimmed, and projecting them returns the same fields, a duplicate being one only when owned |
| RoundTrip.BridgedEntities | server/comicollect_server.py:1244-1313 | a bridged comic leaves exactly its issue, entry and two copies: read mark, rating, notes and time on the entry, condition, prices and loan on the first copy, a blank second one for a duplicate; deleted, all but the issue are tombstones that keep those fields; nothing else changes |
| Paging.PageCountIsExact | server/comicollect_server.py:463-479 | every page up to the count fits and one group more would not |
| Paging.PagesProgress | server/comicollect_server.py:463-494 | given the group cap and identifier limits the oversized-group error cannot occur, a page with more to come advances the cursor and is within the limit, and a last page passes it by at most one byte |
| Paging.FitsBelow | server/comicollect_server.py:472-479 | with a page every shorter page of the same request fits |
| Paging.AnswerPassesLimitIff | server/comicollect_server.py:472-494 | for every log and request: an answer takes more than the response limit, and then by one byte as a last page, if and only if the rest of the log is within the page limit and measures exactly the response limit |
| Paging.DataBytesBound | server/comicollect_server.py:1018-1230 | data that validates takes at most 90 thousand bytes in canonical JSON, whatever it escapes to |
| JsonText.ResponseSize | server/comicollect_server.py:466-477 | the size a page is measured with is the length of the encoded canonical JSON text of the response, with its keys, separators, escapes, acknowledgements and groups |
| JsonText.CacheRowSize | server/comicollect_server.py:523-530 | a cache row counts the text of its response, the hash of its payload and its id |
| JsonText.TextsMeasureJson | server/comicollect_server.py:1469-1470 | sizes taken from the canonical JSON text of changes are what the theorems about sizes assume, prices of at most 24 bytes given |
| RequestCache.PruneIsExact | server/comicollect_server.py:514-551 | a row stays in the cache if and only if it and all younger rows are within lifetime, count and bytes |
| RequestCache.InsertedRowSurvives | server/comicollect_server.py:495-511 | a row inserted behind all others survives the pruning that follows |
| RequestCache.InsertKeepsOrder | server/comicollect_server.py:524-543 | rows stay in the order of eviction |
| SyncInvariant.CanonicalIsValid | server/comicollect_server.py:623-664 | canonical changes stay within the limits of v2 |
| SyncInvariant.RecordGroupKeeps | server/comicollect_server.py:572-621 | recording a group keeps the invariant of all tables and adds exactly that group |
| SyncInvariant.DeliverKeeps | server/comicollect_server.py:395-437 | a delivered mutation is remembered with the payload it came with and the revision of its group |
| SyncInvariant.DeliverAllKeeps | server/comicollect_server.py:395-437 | after a request every mutation of it is answered with its own receipt, and the tables only grew |
| SyncInvariant.SyncV1Keeps | server/comicollect_server.py:262-313 | a v1 call keeps the invariant, and changes nothing once v2 is active |
| SyncInvariant.OpenedIsGood | server/comicollect_server.py:250-260 | a store opened on a valid flat table satisfies the invariant |
| SyncRuns.SyncV2Keeps | server/comicollect_server.py:315-511 | every v2 call keeps the invariant, cached answers included, and answers truthfully; without a computed answer nothing changes |
| SyncRuns.ReachableStatesAreGood | server/comicollect_server.py:572-793 | in every reachable state the entity table is the replay of the log, copies decide entries, no mutation id occurs twice, every receipt names its group, and every cached answer is truthful and the only one of its request id |
| SyncRuns.PollingConverges | server/comicollect_server.py:441-494 | a client that polls from cursor zero, with any limits and other devices writing in between, holds every group up to its cursor exactly once and in order, and its own map equals the table if and only if its cursor is the head of the log |
| SyncRuns.FinalPageIsCurrent | server/comicollect_server.py:337-354 | for every client in step and every answered poll: the client holds the server's table afterwards if and only if the answer was computed and says that nothing follows, or came from the cache and its cursor is still the head of the log |
| SyncRuns.OversizedGroupIsUnreachable | server/comicollect_server.py:480-485 | in no reachable state is any request answered that one group exceeds the response limit, while the numbers of the answer fit 64 bits |
| SyncRuns.FreshPollAdvances | server/comicollect_server.py:441-494 | a valid poll without mutations under an id not in the cache is always computed, changes no table and moves the client on unless it is at the head |
| SyncRuns.PollingReachesHead | server/comicollect_server.py:441-494 | interleaved with anything, as many such polls as groups were missing bring a client to where the head was, and its map equals the table if nothing was recorded meanwhile |
| SyncRuns.RetriedRequestGetsSameAnswer | server/comicollect_server.py:337-354 | whatever is called in between and whatever the clock says, the exact retry of a computed request gets the same answer and changes nothing as long as its row is in the cache |
| SyncRuns.AnswerIsCached | server/comicollect_server.py:495-511 | right after a cached answer its row is there, if no row of the cache is from a later time |
| ExactlyOnce.DuplicatesChangeNothing | server/comicollect_server.py:395-409 | leaving out the mutations delivered before leads to the same tables |
| ExactlyOnce.RunIsItsFirstDeliveries | server/comicollect_server.py:337-440 | the tables after any run are those of the run without a cache in which every mutation delivered before and every call without effect is left out; no mutation occurs in it twice |
| Lockstep.RecordKeepsAnchored | server/comicollect_server.py:553-570 | bridging a row keeps every entity owned by a row that the table follows |
| Lockstep.OnlyDigestsCollide | server/comicollect_server.py:1316-1323 | two rows of the flat table never share a v2 id unless the digests of their ids collide |
| Lockstep.TableIsUnionOfRows | server/comicollect_server.py:1244-1313 | the entity table holds what every row says and nothing else, outright when no digests collide and otherwise if and only if the colliding rows describe the same comic |
| Lockstep.WriteV1InLockstep | server/comicollect_server.py:289-303 | an accepted v1 write adds exactly one group, the comic's own, unless that group is over the size limit; a write that is not newer changes nothing |
| Lockstep.NewestWriteWins | server/comicollect_server.py:289-297 | after any accepted list of v1 writes each row is the newest of them and of what was there, the first of equals |
| Lockstep.OpenedInLockstep | server/comicollect_server.py:250-260 | a store opened on a flat table starts in lock-step with it |
| Cutover.RefreshAllShows | server/comicollect_server.py:618-620 | after the refreshes of a group each short affected issue agrees with its row, unless a longer id with an entry lands on it |
| Cutover.RowsFollowEntities | server/comicollect_server.py:812-879 | over every run: before activation the tables are in lock-step, afterwards the row of every issue a client changed is the projection of its entities, and for all of them together if and only if no id with an entry is longer than 64 characters |
| V1Polls.RowsTellEntities | server/comicollect_server.py:812-879 | over every run the row of every issue a client changed tells the issue, entry and copies that are stored, field by field, long ids and the rows they land on apart |
| V1Polls.NextPollBringsChanges | server/comicollect_server.py:305-313 | whatever v2 clients write after one poll of a v1 client, applying the answer to the next gives exactly the flat table, if the clock has passed the time the first poll was answered with, and either v2 is active already or no v1 call is made in between |
| V1Polls.RefreshIsSeenIff | server/comicollect_server.py:845-846 | the next poll brings the row one refresh writes if and only if the clock has passed the time of the last poll or the row had reached it |
| Cutover.UnionBeforeActivation | server/comicollect_server.py:1244-1313 | in every reachable state before activation the entity table is the union of the rows, digest collisions apart |
| Cutover.RunKeepsNewestWrites | server/comicollect_server.py:289-297 | in every such state the tables are those of one list of all accepted v1 writes of the run, and each row is the newest of its writes and what was there when the store was opened, the first of equals |
| Cutover.ActivationFreezesV1 | server/comicollect_server.py:277-291 | once a client has written through v2, no v1 call changes anything in any later state |
| Cutover.LegacyIdsAreLong | server/comicollect_server.py:1319-1323 | an id that is no identifier becomes one of 71 characters, which cannot have a row of its own |
| Cutover.RefreshAllFails | server/comicollect_server.py:845-846 | the projection of a group fails if and only if the row of one of its issues carries the largest timestamp |
| Acceptance.NewMutationIsRecordedIff | server/comicollect_server.py:411-437 | a new mutation is recorded as the next group, with its receipt, if and only if it is acceptable, within the group limit and no row of its issues carries the largest timestamp; each of the three refusals has its own error |
| Acceptance.OneMutationAnswered | server/comicollect_server.py:337-494 | a request with one new mutation is answered if and only if the mutation is recorded, and changes nothing otherwise |
| Acceptance.V1CallIsRefusedIff | server/comicollect_server.py:262-313 | a store opens on every valid flat table, and in every state it can reach a v1 call is refused as invalid if and only if it has too many comics or one that does not validate, as read-only if and only if it is valid and would change a row after activation, and accepted otherwise |
| Acceptance.V2CallIsRefusedIff | server/comicollect_server.py:315-393 | in every good state a v2 call is refused, in this order and each with its own error, exactly for its form, for another server, for a request id cached with another content, for a cursor ahead of the log and for a mutation id recorded with another content; a cached one is answered; a refused call changes nothing |
| Witnesses.LongIssueHasNoRow | server/comicollect_server.py:908 | one request with a copy of an issue whose id has 65 characters leaves that issue without a row |
| Witnesses.LargestTimestampBlocks | server/comicollect_server.py:845-846 | after one v1 write with the largest timestamp a mutation of that comic is refused at any time |
| Witnesses.FutureRowHidesChange | server/comicollect_server.py:305-313 | a v1 write dated in the future, a poll, and a v2 write of another issue, which the next poll leaves out |
| Witnesses.AnswerPassesLimit | server/comicollect_server.py:472-494 | two requests of 400 and 209 valid entries after which a poll is answered in one byte more than the limit |
| Witnesses.CachedAnswerIsOld | server/comicollect_server.py:337-354 | a poll, a write and the retry of the poll, which is told that nothing follows while the client's map is not the server's |
| SyncStore.Store.Open | server/comicollect_server.py:85-260 | initialisation over any valid flat table: the bridged store within the invariant of all its tables, or the error that keeps it from opening |
| SyncStore.Store.CountActive | server/comicollect_server.py:674-701 | the dictionary of copies counts the merged active copies |
| SyncStore.Store.NormalizeCopyAuthority | server/comicollect_server.py:666-793 | the loop over the issues computes the declarative normalisation of a list without repeated keys, whose contents `GroupContents` states key by key |
| SyncStore.Store.CanonicalizeGroup | server/comicollect_server.py:623-664 | accepted if and only if no entity is changed twice, no copy moves and unknown issues are described; the answer is then the declarative normalised group |
| SyncStore.Store.SelectCopies | server/comicollect_server.py:821-832 | the copies of an issue that are no tombstones, each once, sorted by ordinal and id |
| SyncStore.Store.FirstAmong | server/comicollect_server.py:833-844 | of any wanted copies the first in the order, and how many they are |
| SyncStore.Store.FlatRow | server/comicollect_server.py:812-877 | a row exactly when the issue projects, telling issue, entry and copies as `FlatRows.RefreshedRow` does and dated with the least time allowed |
| SyncStore.Store.RefreshProjection | server/comicollect_server.py:812-879 | the flat table becomes the one `FlatRows.RefreshedRow` and `FlatRows.RefreshedLongRow` describe, or the error of the clock limit is returned |
| SyncStore.Store.RecordGroup | server/comicollect_server.py:572-621 | the log grows by the group, its changes stand in the entity table at the new revision, and its issues are refreshed; an oversized group or a refused refresh is the error |
| SyncStore.Store.RecordInternal | server/comicollect_server.py:553-570 | a group of the server's own is recorded once under its id, and a second time changes nothing |
| SyncStore.Store.Bootstrap | server/comicollect_server.py:250-260 | every row bridged in id order within the invariant, or the tables as they were |
| SyncStore.Store.Sync | server/comicollect_server.py:262-313 | one v1 call: refused for a `since` outside 64 bits, otherwise the tables of the specification within the invariant and the answer, or an error and every table as it was |
| SyncStore.Store.RowsSince | server/comicollect_server.py:305-313 | exactly the rows newer than `since`, each once and older ones first, and a time that is the later of the clock and the newest row |
| SyncStore.Store.CheckMutations | server/comicollect_server.py:356-393 | exactly the mutations delivered before are found, with their revisions, and a reused id is refused |
| SyncStore.Store.DeliverMutations | server/comicollect_server.py:395-437 | each mutation is answered once in order, known ones from the receipts looked up before the first was recorded |
| SyncStore.Store.BuildPage | server/comicollect_server.py:441-494 | the page is the longest that fits, with the cursor and flag `Paging.PagesProgress` speaks of |
| SyncStore.Store.PruneRequestCache | server/comicollect_server.py:514-551 | three phases, the last in batches of a hundred with a running total, compute the specified pruning |
| SyncStore.Store.SyncV2 | server/comicollect_server.py:315-511 | one v2 call: the answer and the tables of the specification within the invariant, or an error and every table as it was |
| AuthTables.NewestIsBounded | server/comicollect_backend/auth_schema.py:160-172 | ordering rows and keeping the first ones keeps no more than the limit, each newer than every row dropped |
| AuthTables.NewestIsFilled | server/comicollect_backend/auth_schema.py:160-172 | and it keeps as many as the limit allows |
| AuthInvariant.PruneStaleIsSound | server/comicollect_backend/auth_schema.py:130-142 | pruning stale sessions keeps the invariant and only revokes or deletes |
| AuthInvariant.StaleSessionsAreGone | server/comicollect_backend/auth_schema.py:130-142 | afterwards no expired session is open and none that ended longer ago than the grace period is left; every other one stays, with its tokens |
| AuthInvariant.ExpiredTokensAreGone | server/comicollect_backend/auth_schema.py:184-210 | afterwards every refresh token is live or can be retried and an expired access token is one a retry would hand out; what was live or could be retried stays |
| AuthInvariant.PruneExpiredPairs | server/comicollect_backend/auth_schema.py:184-210 | whatever the global prune deletes, a consumed token that stays keeps the refresh and access token it was exchanged for |
| AuthInvariant.PruneFamilyPairs | server/comicollect_backend/auth_schema.py:213-275 | and so does the prune of one session |
| AuthInvariant.PrunedFamilyIs | server/comicollect_backend/auth_schema.py:220-258 | in a chain of tokens that prune keeps exactly the live token and its consumed parent, and the access token of the parent |
| AuthInvariant.PrunedAccessIsBounded | server/comicollect_backend/auth_schema.py:260-275 | a pruned session holds at most five access tokens |
| AuthOperations.RotationIsSound | server/comicollect_backend/auth_repository.py:468-500 | exchanging a token and pruning its family keeps the invariant |
| AuthOperations.RetryIsSound | server/comicollect_backend/auth_repository.py:402-459 | a consumed token presented again revokes its session exactly when the request id is another; its replacement is never missing |
| AuthOperations.RotateIsSound | server/comicollect_backend/auth_repository.py:371-510 | every rotation keeps the invariant, and is never answered that its replacement is missing or its account unavailable |
| AuthOperations.PrepareMakesRoom | server/comicollect_backend/auth_schema.py:145-181 | before a login at most nine sessions of the account are open, none on its installation, and at most fifty revoked ones are kept |
| AuthOperations.CreateSessionIsSound | server/comicollect_backend/auth_repository.py:275-333 | every login keeps the invariant |
| AuthOperations.SetStatusIsSound | server/comicollect_backend/auth_repository.py:521-534 | an account that is not active has no open session |
| AuthOperations.ReachableTablesAreBounded | server/comicollect_backend/auth_schema.py:145-275 | over every run: ten open sessions of an account, one per installation, sixty rows, two refresh and five access tokens of a session, and token families closed |
| RefreshRetry.RotatePromises | server/comicollect_backend/auth_repository.py:460-510 | a rotation leaves rows from which its exact retry can be answered |
| RefreshRetry.StepKeepsPromise | server/comicollect_backend/auth_repository.py:371-510 | every other operation before the expiry keeps them unless it closes the session or presents the new token |
| RefreshRetry.ExactRetryGetsSamePair | server/comicollect_backend/auth_repository.py:402-449 | over every run in between, the exact retry is answered with the same pair |
| RefreshOutcomes.RefreshAnswers | server/comicollect_backend/auth_repository.py:371-510 | every answer of a refresh with its exact condition on the stored rows: unknown if the session is forgotten, another installation next, then replayed, repeated or expired for an exchanged token, then rotated exactly for an unexchanged unexpired token of an open unexpired session of this installation, unless a new digest is taken |
| RefreshOutcomes.RefreshPairs | server/comicollect_backend/auth_repository.py:441-510 | a rotation hands out the new nonces, no longer than the session lasts; a repetition the nonces and times of the stored pair |
| RefreshOutcomes.RefreshedSessions | server/comicollect_backend/auth_repository.py:371-510 | sessions that ended seven days ago are forgotten, expired ones are closed, a rotation marks its own as seen, a replay closes its own; every other field of every session stays |
| RefreshOutcomes.OtherInstallationGetsNothing | server/comicollect_backend/auth_repository.py:404-407 | a call from another installation gets no credentials and closes no session in use |
| RefreshOutcomes.RefreshedRefreshTokens | server/comicollect_backend/auth_repository.py:472-500 | a rotation marks the presented token with request and replacements and adds the new one, its session keeps no third, and every other refresh token is as it was or gone |
| RefreshOutcomes.UsefulTokensStay | server/comicollect_backend/auth_repository.py:371-500 | no refresh token that is live, or was exchanged for a live one, goes unless its own session is given a new pair, and that pair stays with the token it was given for |
| RefreshOutcomes.RefreshedAccessTokens | server/comicollect_backend/auth_repository.py:482-500 | an unexpired access token of a remembered session stays unless three newer ones of the presented session are usable |
| RefreshOutcomes.RefreshCleansUp | server/comicollect_backend/auth_schema.py:184-275 | after an unknown, exchanged or expired token nothing is left that neither its holder nor a retry could use, and the session has its four newest access tokens and what a retry would hand out |
| SessionLimits.RevokedNeverAuthenticates | server/comicollect_backend/auth_repository.py:335-357 | a session once revoked or deleted never authenticates again, with any token at any time |
| AccountOutcomes.AccessAnswers | server/comicollect_backend/auth_repository.py:335-357 | an access token authenticates if and only if it is stored and unexpired and its session is open, unexpired and of an active account; expired if and only if only the times fail; invalid otherwise |
| AccountOutcomes.LogoutEffect | server/comicollect_backend/auth_repository.py:512-519 | a logout closes the session of its token and changes nothing else |
| AccountOutcomes.StatusEffect | server/comicollect_backend/auth_repository.py:521-534 | a status is written to its account alone, and closes exactly the account's open sessions unless it is active |
| AccountOutcomes.CreationAnswers | server/comicollect_backend/auth_repository.py:150-177 | an account is created if and only if its id and address are new, and is then the only change |
| AccountOutcomes.HashAnswers | server/comicollect_backend/auth_repository.py:252-273 | a hash is written if and only if the account exists and, if one is expected, is active with that hash |
| AccountOutcomes.RegistrationAnswers | server/comicollect_backend/auth_repository.py:179-241 | a registration is refused for a taken id or address, or ids in use, naming the address exactly when that is taken, and a refusal changes nothing |
| AccountOutcomes.RegistrationEffect | server/comicollect_backend/auth_repository.py:207-232 | it adds its session and pair with their exact rows, forgets and closes old sessions, and changes no other row |
| AccountOutcomes.RegistrationKeepsUseful | server/comicollect_backend/auth_schema.py:130-210 | and takes no token that is of use from a remembered session |
| AccountOutcomes.RegistrationCleansUp | server/comicollect_backend/auth_schema.py:184-210 | beside the new pair it leaves no token that neither its holder nor a retry could use |
| SessionLimits.RecentSessionsStay | server/comicollect_backend/auth_schema.py:145-172 | after a login the open sessions are the new one and the nine most recently seen on other installations |
| AccountOutcomes.LoginAnswers | server/comicollect_backend/auth_repository.py:291-304 | a login is refused for its credentials if and only if the account is not stored and active with the verified hash; only ids in use can stop it otherwise, and a refusal changes nothing |
| AccountOutcomes.LoginSessions | server/comicollect_backend/auth_schema.py:145-181 | a login adds its session, closes exactly the expired sessions and those of the account on its installation or with nine more recent ones elsewhere, and keeps of the closed ones the fifty closed last |
| AccountOutcomes.LoginTokens | server/comicollect_backend/auth_schema.py:302-312 | it adds the two rows of its pair; every other token is as it was and of a session that stays beside it undisplaced |
| AccountOutcomes.LoginKeepsUseful | server/comicollect_backend/auth_schema.py:145-210 | tokens of such a session that are of use stay |
| AccountOutcomes.LoginCleansUp | server/comicollect_backend/auth_schema.py:184-210 | beside the new pair no token is left that neither its holder nor a retry could use |
| SessionLimits.FourAccessTokens | server/comicollect_backend/auth_schema.py:260-275 | while the clock does not go back a session never holds more than four access tokens |
| SessionLimits.FiveAccessTokens | server/comicollect_backend/auth_schema.py:260-275 | a registration, three rotations and one at an earlier time leave five |
| LoginReset.OpenedIsProven | server/comicollect_backend/auth_repository.py:291-304 | a session opened with the stored hash is proven by the password the login verified |
| LoginReset.NoSessionFromStaleProof | server/comicollect_backend/auth_service.py:145-173 | however logins, rehashes, resets, logouts and status changes interleave, every open session was opened with the account's present password, proven since its last reset |
| LoginReset.UnprovenLoginDoesNothing | server/comicollect_backend/auth_service.py:145-150 | a login with an address that no active account has with that password when the hash is read opens no session and stores no hash, whatever happens while it is under way |
| LoginReset.ProvenLoginSucceeds | server/comicollect_backend/auth_service.py:145-168 | whoever gives the password of an active account gets a session, its hash renewed or not, unless the ids drawn are in use |
| ActionTokens.IssuedIsTheOnlyPending | server/comicollect_backend/auth_action_repository.py:185-216 | a token just handed out is the only one of its account and purpose that can be used; others stay as they were |
| ActionTokens.EmailEffect | server/comicollect_backend/auth_action_repository.py:87-125 | a consumed confirmation leaves the address verified since its first time and the account dated now, and touches neither passwords nor sessions nor any other account or action token |
| ActionOutcomes.ResetAnswers | server/comicollect_backend/auth_action_repository.py:218-258 | a reset is consumed if and only if its token is stored for resets, unused, not superseded, unexpired and of an active account; repeated if and only if it was used with the same request id and payload; expired exactly for a pending token whose time is over; unavailable and invalid for the rest, each exactly |
| ActionOutcomes.EmailAnswers | server/comicollect_backend/auth_action_repository.py:218-258 | the same for the confirmation of an address, for the account it is given |
| ActionOutcomes.RepeatedReset | server/comicollect_backend/auth_action_repository.py:241-249 | over every run in between, the same request is told that the reset was done, any other that the token is invalid, and neither changes anything, until the row is forgotten |
| ActionOutcomes.RepeatedVerification | server/comicollect_backend/auth_action_repository.py:241-249 | the same for the confirmation of an address |
| ActionOutcomes.AccountIssueAnswers | server/comicollect_backend/auth_action_repository.py:27-55 | a token is handed out if and only if the account is active and, for a verification, not verified; it is added unused, the pending one of its target is superseded, tokens that expired seven days ago go, and nothing else changes |
| ActionOutcomes.EmailIssueAnswers | server/comicollect_backend/auth_action_repository.py:57-85 | the same for an address that an active account bears; without one only old tokens go |
| ActionTokens.ResetEffect | server/comicollect_backend/auth_action_repository.py:127-182 | a consumed reset sets the password and dates the account, closes every open session of the account now and drops their tokens, and leaves the rows of other accounts alone |
| ActionTokens.ResetFrame | server/comicollect_backend/auth_action_repository.py:127-182 | sessions, access, refresh and action tokens of other accounts stay as they were, and so do the account's action tokens for other purposes |
| ActionTokens.ResetSpends | server/comicollect_backend/auth_action_repository.py:127-182 | a reset that is not consumed changes nothing at all |
| ActionTokens.LastSupersedeIsIdle | server/comicollect_backend/auth_action_repository.py:176-181 | the last UPDATE of a reset touches no row |
| ActionTokens.UsedAtMostOnce | server/comicollect_backend/auth_action_repository.py:185-273 | over every run a token is consumed no more often than it was handed out, and one stays pending per account and purpose |
| ActionTokens.ActionTokensAreSingleUse | server/comicollect_backend/auth_action_repository.py:127-182 | a reset token changes the password at most once, and a retry cannot close sessions opened afterwards |
| AuthStore.SelectNewestFirst | server/comicollect_backend/auth_schema.py:160-164 | ORDER BY … DESC: every row once, each newer than the next |
| AuthStore.Repository.PruneStaleSessions | server/comicollect_backend/auth_schema.py:130-142 | leaves the tables `AuthInvariant.StaleSessionsAreGone` describes |
| AuthStore.Repository.PruneExpiredTokens | server/comicollect_backend/auth_schema.py:184-210 | afterwards every refresh token is live or can be retried and every expired access token is one a retry hands out; nothing live or retryable was deleted, and a consumed token that is left has both its replacements |
| AuthStore.Repository.PruneSessionTokenFamily | server/comicollect_backend/auth_schema.py:213-275 | the selects and the loop that grows `keep` leave the newest live token, its newest parent and the access tokens kept for them, and other sessions alone |
| AuthStore.Repository.KeepAccess | server/comicollect_backend/auth_schema.py:260-270 | the loop keeps the four newest usable tokens and the protected one |
| AuthStore.Repository.PrepareNewSession | server/comicollect_backend/auth_schema.py:145-172 | replaced and overflowing sessions are closed and revoked ones trimmed, which makes room for one more |
| AuthStore.Repository.CreateAccount | server/comicollect_backend/auth_repository.py:150-177 | a new account, or a refusal that changes nothing when the address is taken; addresses stay unique |
| AuthStore.Repository.Register | server/comicollect_backend/auth_repository.py:179-241 | account and first session together or neither, with the refusal for a taken address |
| AuthStore.Repository.UpdatePasswordHash | server/comicollect_backend/auth_repository.py:252-273 | a conditional update succeeds only over the expected hash of an active account |
| AuthStore.Repository.CreateSession | server/comicollect_backend/auth_repository.py:275-333 | a session only for the hash that was verified, all retention bounds kept; a collision of ids leaves every table as it was |
| AuthStore.Repository.AuthenticateAccess | server/comicollect_backend/auth_repository.py:335-357 | whoever is authenticated has an open, unexpired session of an active account and an unexpired token of it, and whoever has is authenticated |
| AuthStore.Repository.RotateRefresh | server/comicollect_backend/auth_repository.py:371-510 | every answer exactly under the condition of `RefreshOutcomes.RefreshAnswers`, the tables of the specification within the invariant, and never "missing" or "unavailable" |
| AuthStore.Repository.RevokeSessionByAccess | server/comicollect_backend/auth_repository.py:512-519 | closes the session of the token if it was open and nothing else; the invariant stays |
| AuthStore.Repository.SetAccountStatus | server/comicollect_backend/auth_repository.py:521-534 | an account that stops being active has every session closed; the invariant stays |
| AuthStore.Repository.IssueForAccount | server/comicollect_backend/auth_action_repository.py:27-55 | a token for an active account, superseding its pending one, or nothing for a verified address |
| AuthStore.Repository.IssueForEmail | server/comicollect_backend/auth_action_repository.py:57-85 | a token for the one active account of the address; without one, only old tokens go |
| AuthStore.Repository.ConfirmEmail | server/comicollect_backend/auth_action_repository.py:87-125 | every answer exactly under the condition of `ActionOutcomes.EmailAnswers`; the token is used and the address verified, or nothing changes |
| AuthStore.Repository.ConfirmPasswordReset | server/comicollect_backend/auth_action_repository.py:127-182 | every answer exactly under the condition of `ActionOutcomes.ResetAnswers`; the effect `ActionTokens.ResetEffect` describes within the invariant, or no change |
| TenantCapacity.TakeKeeps | server/comicollect_backend/tenant_store.py:234-275 | every step of admissions, writes and releases keeps map and counter equal to the sums, and what may still be written within limit and reserve |
| TenantCapacity.WriteIsSafe | server/comicollect_backend/tenant_store.py:241-262 | no admitted write takes a tenant over its limit or the free space below the reserve |
| TenantCapacity.CapacityIsKept | server/comicollect_backend/tenant_store.py:234-275 | in every interleaving reservations are conserved, a tenant under its limit stays there, and the free reserve is never touched |
| TenantErasure.TakeExcludes | server/comicollect_backend/tenant_store.py:126-150 | with one erasure per account every step keeps work and deletion apart |
| TenantErasure.ErasureExcludesWork | server/comicollect_backend/tenant_store.py:126-231 | in every interleaving the active counts are the operations in flight, nothing is in flight while files are deleted, and nothing is admitted during an erasure |
| TenantErasure.BlockedUntilFailure | server/comicollect_backend/tenant_store.py:146-150 | a blocked account is unblocked only by a failed deletion |
| TenantErasure.FailureKeepsExclusionIff | server/comicollect_backend/tenant_store.py:146-150 | a failure keeps work and deletion apart if and only if no other erasure of the account is under way |
| TenantErasure.TwoErasuresCollide | server/comicollect_backend/tenant_store.py:126-150 | two erasures of one account, the first failing, let work in while the second deletes |
| TenantStore.Registry.BeginOperation | server/comicollect_backend/tenant_store.py:211-221 | an operation enters unless its account is blocked |
| TenantStore.Registry.EndOperation | server/comicollect_backend/tenant_store.py:222-231 | and leaves; the lookup of its counter never fails |
| TenantStore.Registry.BlockAccount | server/comicollect_backend/tenant_store.py:129-131 | from now on no operation of the account enters until an erasure fails; deletions and work stay apart |
| TenantStore.Registry.TryToDelete | server/comicollect_backend/tenant_store.py:132-134 | it may delete exactly when nothing of the account is in flight |
| TenantStore.Registry.DeletionFailed | server/comicollect_backend/tenant_store.py:146-150 | operations of the account enter again, and deletions and work stay apart if and only if no other erasure of the account is left |
| TenantStore.Registry.ReserveCapacity | server/comicollect_backend/tenant_store.py:234-262 | both checks and the reservation, as one step of the protocol |
| TenantStore.Registry.ReleaseCapacity | server/comicollect_backend/tenant_store.py:265-275 | the release; no counter is missing or goes below zero |
| RateLimit.RetryAfterIsExact | server/comicollect_backend/rate_limit.py:55-65 | a refused call would be admitted exactly from the end of its window on, and Retry-After is the least number of whole seconds that reaches it |
| RateLimit.OwnCallsDecide | server/comicollect_backend/rate_limit.py:47-69 | whatever becomes of other keys, a key that is in the table whenever it is used again is answered by its own calls alone |
| RateLimit.OftenUsedIsNeverEvicted | server/comicollect_backend/rate_limit.py:68-69 | a key is there whenever fewer other keys than the table holds were used since |
| RateLimit.TwiceTheLimit | server/comicollect_backend/rate_limit.py:47-69 | of the calls of such a key the table admits at most twice the limit of its own bucket in any half-open interval of one window, while the clock does not go back between them |
| RateLimit.AdmittedIff | server/comicollect_backend/rate_limit.py:47-67 | a call of such a key is admitted if and only if fewer calls of its window came before it than the limit of its own bucket, or else the common one, allows, its window being opened by the first call that comes a whole window after the opening of the last |
| RateLimit.FreshWindow | server/comicollect_backend/rate_limit.py:52-67 | of a burst within one window after a pause of one exactly the first so many calls as the limit are admitted |
| RateLimit.BoundedRefinesUnbounded | server/comicollect_backend/rate_limit.py:52-69 | on every sequence of calls with fewer other keys between two uses of a key than the table holds, the bounded table is the newest part of the unbounded one and answers alike |
| RateLimit.OneCounterPerKey | server/comicollect_backend/rate_limit.py:52-67 | the unbounded table keeps each key's own counter |
| RateLimit.TableIsBounded | server/comicollect_backend/rate_limit.py:68-69 | the table never holds more than its size, each key once |
| RateLimit.Limiter.Consume | server/comicollect_backend/rate_limit.py:47-69 | table and answer of the bounded specification, the eviction loop leaving the newest entries; size and distinct keys stay |

## Left out

- HTTP, WSGI and SMTP, the command line, configuration, health checks and backups: plumbing without shared state.
- SQLite itself: transactions are taken to be serialisable, a failed one leaves nothing, and a table is a map or a list; the order of rowids is the order of insertion.
- SyncTypes.ValidateComicIsIdempotent: does not state what `validate_comic` makes of missing fields and of texts and numbers in other types, because a comic arrives typed here.
- The shape checks of incoming JSON (missing and extra keys, wrong types, booleans in place of numbers) and the conversions `validate_comic` makes of text and numbers: a request arrives with its fields already typed, and lone surrogates are not characters here.
- Whether an absent `issue_hint` and one that is null are stored differently (the first is 18 bytes shorter, which `Paging.MeasuresJson` leaves open), and the hint's own id, which always equals the issue's.
- Hash functions: a payload stands for its hash, and JSON text only for its length; the digits of a price count as 24 bytes at most.
- Several readings of the clock within one v2 call: one for the call and a later one for the pruning of the cache.
- The order of equally old rows in the answer of a v1 call, which the query leaves open, and the `since` of earlier calls in `SyncState.Run`: a call refused for it changes nothing.
- The `device_id` and `created_at` columns of receipts, `committed_at` of groups, and `revoke_reason` of sessions: nothing reads them back.
- The Flutter client: the polling client of `SyncRuns` stands for any client that sends its own cursor and applies what it gets.
- `update_password_hash` without an expected hash takes no part in `LoginReset`: no caller leaves the expected hash out.
- Password policy, e-mail syntax and Unicode normalisation, and the cost of hashing: a hash is a number with one password behind it, and new hashes are fresh.
- Writes a tenant makes outside a reservation: creating an empty database in `server_id`, and growth beyond four times the payload and 16 MiB; the theorems assume that an operation writes no more than it reserved.
- The cache of open stores in `TenantStore` and `threading.Condition`: a wait is a step that is taken when its condition holds.
- The readers `stats`, `export_snapshot` and `refresh_rate_limit_key`: one query each.
