# openmeeting-server, verified

A Dafny model of the parts of openmeeting-server that carry state or arithmetic worth arguing about: when a
recurring meeting takes place next, the life of a meeting record, the metadata of a live room under concurrent
handlers, the caches in front of MongoDB, single-session tokens, generated identifiers, cell references in
spreadsheets, and the round-robin choice of a LiveKit URL.

`dafny verify dfyconfig.toml` checks all of it.

## How the project is laid out

| file | content |
|---|---|
| `Calendar.dfy` | The Gregorian calendar by counting, and as Go's `time` computes it; the two agree, and `AddDate` is counting. |
| `CivilDates.dfy` | Two textbook formulas for civil dates, Zeller's congruence among them, and the proof that the calendar and the stored seconds agree with them. |
| `Scheduler.dfy` | `nextMeetingTimestamp` with its five loops, proved against "the first element of an orbit that lets the loop leave". |
| `Recurrence.dfy` | What those answers mean: least occurrence, closed forms, drift of monthly meetings, which custom rules hang, monotonicity in the clock. |
| `Meetings.dfy` | Records, booking, and partial updates as `$set` documents. |
| `Lifecycle.dfy`, `MeetingRuns.dfy` | The handlers that create, end, update and refresh meetings; what every run of them keeps, and the exact condition under which Completed is final. |
| `MeetingEffects.dfy` | What every handler does to a meeting, written out: when ending or refreshing completes it, what a booking or an update stores. |
| `CachedRuns.dfy` | The meeting service on top of its cache: when EndMeeting and UpdateMeeting read the record as it is stored, and what happens when they do not. |
| `RoomMetadata.dfy`, `RoomRuns.dfy` | Handlers on a room's metadata, alone and interleaved. |
| `LiveMeetings.dfy` | A record and its room together: what anybody may do in the room, as a function of the requests made so far. |
| `CacheAside.dfy`, `CacheLaws.dfy` | Both caches, under their one key prefix, and when they agree with the collections. |
| `Sessions.dfy` | Login, logout, clearing, and the two acceptors. |
| `Numerals.dfy` | Decimal printing, generated identifiers, spreadsheet columns. |
| `LiveUrls.dfy` | `getLiveURL`. |
| `Basics.dfy` | Optional values and a few facts about division. |

## Conventions

- The clock is read in nanoseconds, because the scheduler compares the raw reading of `time.Now()` with whole
  seconds; everything stored is in seconds. A time zone is a fixed offset, or unknown when it cannot be loaded.
- The scheduler is specified by a relation, `NextIs`, which is defined for every rule. A custom rule whose loop never
  ends at a clock has no answer there, so a handler that asks for it takes no step. `NextMeetingTimestamp` requires
  `Answers`, which is exactly that there is an answer (`AnswersIff`); `EndAnswersIff` and `RefreshAnswersIff` say the same
  of the handlers.
- Nothing is required of the four known repeat kinds other than custom: their loops are proved to end.
- What handlers learn from outside (whether closing the room worked, who hosts it, whether today is a meeting day,
  which attempts to remove a cache key succeed) is a parameter of the step.
- So is the record that EndMeeting and UpdateMeeting have read through the cache. `CachedRuns.Served` ties it to a run of
  the storage; the periodic refresh reads the collection itself.
- The results about civil dates, outcomes and histories spell out constants and cases themselves, so that they do not
  lean on the definitions that they are about. No lemma relies on automatic induction.
- Handlers are methods of a class over the fields they change. Each is proved against a relation or function on the
  state, and the results about runs are lemmas about those.

## What does not hold, and when it does

- Completed is not final in general, for two reasons. `UpdateMeeting` can move the scheduled time of a meeting that does
  not repeat, but not its start time, from which `refreshNonRepeatMeeting` counts: `CompletedCanBeRevived` exhibits a run,
  and `RevivedIffUnsafe` shows that a refresh can complete a record that ending it brings back exactly when the record
  violates `SafeSchedule`. And the guard of `UpdateMeeting` looks at the cached record: a user whose account is the
  identifier of the meeting can stand in its place (`ForeignReadRevives`), and any record that is not read as completed
  can be updated back to life (`UpdateRevivesIff`). A completed record that satisfies `SafeSchedule` never changes again
  as long as it is read as it is stored (`CompletedIsFinal`), and it is as long as the storage takes harmless steps and no
  user is named like the meeting (`CompletedIsFinalThroughCache`).
- Room metadata is sound exactly as long as it is made from the meeting's own record (`FreshIsSoundIff`,
  `RebuildIsSoundIff`). A stale record is one (`ReadNamesItsMeeting`), the document of a user is not.
- A monthly meeting keeps its day of the month for ever exactly when it starts on the 28th or before
  (`MonthlyKeepsDayIff`); otherwise the day changes once, to the 1st, 2nd or 3rd (`MonthlyDriftsOnce`). A custom rule of
  several months keeps it exactly when all months that it aims at have that day (`KeptForEverIff`).
- A custom rule is stored unchecked. Entered at some clock, its loop ends exactly when the rule is `WellFounded` or the
  first round lies after that clock (`CustomLoopEndsIff`); so the scheduler answers at every clock exactly for rules that
  are not custom, well founded, or over before a second round (`AlwaysAnswersIff`).
- The refresh never sets In-Progress: its branches for that repeat the condition that the branch before them has
  refused. A meeting is In-Progress only if it was created so (`IdentityIsKept`).
- Meetings are cached under the prefix meant for users, although a prefix for meetings is defined
  (`pkg/common/cachekey/meeting.go:8-10`). Generated identifiers collide exactly from 10^8 on
  (`UserMeetsMeetingIff`), and accounts can collide at once: `NamesApartIff` and `OwnNameIff` say exactly when reads of
  meetings and batches of users are safe from that, `AccountShadowsIdentifier` and `MeetingShadowsIdentifier` what happens
  otherwise.
- `ExecDel` never reports a failure, so a read can be stale (`ReadCanBeStale`). An update or deletion leaves the cache
  coherent exactly under the conditions of `UpdateCoherentIff` and `DeleteCoherentIff`; everything else always does, and a
  run is coherent throughout exactly when its steps meet them (`EveryStateIsCoherent`).
- Metadata handlers can lose what others write between their read and their write (`UpdateCanBeLost`). Nothing is lost if
  the room is left alone meanwhile (`NothingLostIfLeftAlone`), and `NothingLostIff` says exactly when.
- The round robin is fair across the wrap of its counter exactly when the number of URLs divides 2^64
  (`FairForEverIff`).

## Model

| member | source | states |
|---|---|---|
| Calendar.DayNumberOfDate | internal/rpc/meeting/logic.go:385-408 | The civil date that AddDate takes a day apart into is valid and numbers that same day. |
| Calendar.DateOfDayNumber | internal/rpc/meeting/logic.go:385-408 | Conversely every valid date is recovered from its day number. |
| Calendar.DatesAgree | internal/rpc/meeting/logic.go:385-408 | Go's cycle arithmetic finds the month and day that counting month lengths finds. |
| Calendar.AddDateCounts | internal/rpc/meeting/logic.go:385-412 | AddDate(0, m, d), which goes through the civil date and normalises it, is m months later and then d days later. |
| Calendar.AddDays | internal/rpc/meeting/logic.go:385-393 | Adding only days is adding them to the day number, whatever months that crosses. |
| Calendar.OneMonthIsItsLength | internal/rpc/meeting/logic.go:396 | One month later is exactly the length of the month being left. |
| Calendar.MonthsAdvance | internal/rpc/meeting/logic.go:407-408 | n months advance by 28n to 31n days; none or fewer never advance. |
| CivilDates.DayNumberIsMarchDays | internal/rpc/meeting/logic.go:385-408 | The day number of every date is the textbook count of days from 1 March of the year 0, less 306. |
| CivilDates.WeekdayIsZeller | internal/rpc/meeting/logic.go:392 | Every date falls on the day of the week that Zeller's congruence gives. |
| CivilDates.LocalTimeIff | internal/rpc/meeting/logic.go:366-367 | A stored second and its local date and second of the day determine each other by 86400 times the days from the epoch. |
| CivilDates.EpochIff | internal/rpc/meeting/logic.go:366-367 | A stored second falls on 1 January 1970 in Greenwich iff it is at least 0 and below 86400. |
| Scheduler.IsValidDay | internal/rpc/meeting/logic.go:349-356 | The weekday is in the list. |
| Scheduler.SixTriesSuffice | internal/rpc/meeting/logic.go:410-414 | The inner loop ends within six steps if the list names a day of the week, and otherwise never. |
| Scheduler.RoundMovesForward | internal/rpc/meeting/logic.go:382-416 | Every round of every loop ends, moves at least one day forward and keeps the wall-clock time. |
| Scheduler.CustomRound | internal/rpc/meeting/logic.go:402-414 | One round of the custom loop, if it ends at all, is one step of the orbit: the stride, then the first listed weekday from there. |
| Scheduler.RunLoop | internal/rpc/meeting/logic.go:382-416 | Each loop ends, at the first element of the orbit that its guard rejects. |
| Scheduler.NextMeetingTimestamp | internal/rpc/meeting/logic.go:358-426 | The answer is the one that NextIs relates to the rule and the clock, on every path. |
| Recurrence.NextIsUnique | internal/rpc/meeting/logic.go:358-426 | A rule has at most one answer at a clock. |
| Recurrence.OrbitIncreases | internal/rpc/meeting/logic.go:382-416 | Each loop visits a strictly increasing sequence of times that does not depend on the clock. |
| Recurrence.NextIsLeastOccurrence | internal/rpc/meeting/logic.go:376-425 | Past the first date, the answer is the least occurrence after now within the end date, and 0 iff there is none. |
| Recurrence.AnswerWrittenOut | internal/rpc/meeting/logic.go:359-381 | The answers that need no loop, in nanoseconds: unknown zone, no repetition, first date not passed, unknown repeat type. |
| Recurrence.NextIsAhead | internal/rpc/meeting/logic.go:369-425 | An answer other than "never" is the first date still ahead, or strictly after now; a repeating one respects the end date. |
| Recurrence.NextIsMonotone | internal/rpc/meeting/logic.go:358-426 | A later clock never gives an earlier occurrence, and "never" is for ever, for every known repeat type, well founded or not. |
| Recurrence.NotPositiveStays | internal/rpc/meeting/meeting.go:240-244 | For every rule at all: once the answer is not positive, it never is again. |
| Recurrence.RegularClosedForm | internal/rpc/meeting/logic.go:384-409 | Daily, weekly and custom day or week loops compute s + (floor((now - s) / P) + 1) * P. |
| Recurrence.RegularAnswer | internal/rpc/meeting/logic.go:384-425 | That time, unless it lies after the end date, is the answer. |
| Recurrence.WeekdayLoop | internal/rpc/meeting/logic.go:390-394 | The result is the least day off the weekend, at the scheduled wall-clock time, strictly after now. |
| Recurrence.WeekdayAnswer | internal/rpc/meeting/logic.go:390-394 | In civil dates: the first date after now that is by Zeller neither Saturday nor Sunday, at the first date's wall-clock time. |
| Recurrence.WeekdayLoopIsPrompt | internal/rpc/meeting/logic.go:390-394 | It is at most three days after now. |
| Recurrence.MonthlyRoundIsItsMonth | internal/rpc/meeting/logic.go:395-397 | Each round of one month advances by exactly the length of the month it leaves. |
| Recurrence.SomeMonthsLater | internal/rpc/meeting/logic.go:407-408 | Some months later is the same day, or, where that month is too short, one of the first three days of the month after. |
| Recurrence.MonthlyKeepsDay | internal/rpc/meeting/logic.go:395-408 | From a start on the 28th or before, k rounds of m months are the same day k * m months later. |
| Recurrence.MonthlyDriftsOnce | internal/rpc/meeting/logic.go:395-408 | With any stride in months the day changes at most once, from 29..31 to 1..3. |
| Recurrence.KeptIffFits | internal/rpc/meeting/logic.go:395-408 | The day is kept through k rounds iff every month aimed at by then has it, and then k rounds are k * m months. |
| Recurrence.KeptForEverIff | internal/rpc/meeting/logic.go:395-408 | It is kept for ever iff every month aimed at within the 4800 months of the calendar's cycle has it. |
| Recurrence.YearlyKeepsDay | internal/rpc/meeting/logic.go:407-408 | A stride of whole years keeps every day that is not in February. |
| Recurrence.MonthlyKeepsDayIff | internal/rpc/meeting/logic.go:395-397 | With a stride of one month the day is kept for ever iff the start is not after the 28th. |
| Recurrence.CustomRoundBounds | internal/rpc/meeting/logic.go:398-416 | A custom round advances by its stride and at most six days more, to a listed weekday if any are listed. |
| Recurrence.CustomLoop | internal/rpc/meeting/logic.go:398-416 | The custom loop leaves strictly after now, on a listed weekday, with its last stop not after now. |
| Recurrence.CustomAnswer | internal/rpc/meeting/logic.go:398-416 | In civil dates: strictly after now, at the first date's wall-clock time, on a day of the week that is listed by Zeller, Sunday as 0. |
| Recurrence.CustomLoopEndsIff | internal/rpc/meeting/logic.go:398-416 | Entered at a clock, the custom loop ends iff the rule is well founded (interval >= 1, known unit, a given day list names a weekday) or its first round lies after the clock. |
| Recurrence.AnswersIff | internal/rpc/meeting/logic.go:358-426 | There is an answer at a clock iff the loop, if it is a custom one and entered, ends. |
| Recurrence.AlwaysAnswersIff | internal/rpc/meeting/logic.go:376-416 | There is an answer at every clock iff the zone is unknown, the rule is not custom, it is well founded, or the end date keeps the loop from being entered or lies before its first round. |
| Meetings.GetDBRepeatDayOfWeek | internal/rpc/meeting/convert.go:65-72 | The stored days are a sorted permutation of the requested ones. |
| Meetings.GenerateMeetingDBData4Booking | internal/rpc/meeting/convert.go:27-63 | A booked record: scheduled, starting when scheduled, with the repeat fields that its repeat type keeps. |
| Meetings.SetsCompose | pkg/common/storage/database/mgo/meeting.go:40-45 | Two $set updates in turn are the right-biased union of the two. |
| Meetings.UpdateData.UpdateMainFields | internal/rpc/meeting/convert.go:322-351 | The shared map gains exactly the main fields that the request names. |
| Meetings.UpdateData.UpdateRepeatInfo | internal/rpc/meeting/convert.go:353-369 | It gains the repeat fields; unit, interval and days are reset unless the type is custom. |
| Meetings.UpdateData.UpdateSettings | internal/rpc/meeting/convert.go:371-408 | It gains the patched settings if the request names any. |
| Meetings.GetDBUpdateData | internal/rpc/meeting/convert.go:304-320 | Applying the document to the record gives every requested field and no other, and never the status. |
| Meetings.UpdatesCompose | internal/rpc/meeting/convert.go:304-408 | Two update requests in turn equal the one request that merges them, settings included. |
| Meetings.UpdateKeeps | internal/rpc/meeting/convert.go:304-369 | No update reaches status, identifier, creator or start time, and tidy repeat fields stay tidy. |
| Lifecycle.MeetingServer.GenerateMeetingID | pkg/common/storage/cache/redis/meeting.go:72-78 | The counter goes up by one and the identifier prints it. |
| Lifecycle.MeetingServer.BookMeeting | internal/rpc/meeting/meeting.go:18-35 | One Book step of the store; a failure before the insertion only uses up an identifier. |
| Lifecycle.MeetingServer.CreateImmediateMeeting | internal/rpc/meeting/meeting.go:37-85 | One CreateImmediate step: refused for a user in a meeting, else a new In-Progress record, or a used-up identifier when the room cannot be created. |
| Lifecycle.MeetingServer.EndMeeting | internal/rpc/meeting/meeting.go:222-265 | One End step: permission and next occurrence by the record that was read, room, then status or deletion of the stored one; every error leaves the store as it was. |
| Lifecycle.MeetingServer.UpdateMeeting | internal/rpc/meeting/meeting.go:303-344 | One UpdateInfo step; refused exactly when the record that was read is completed or missing. |
| Lifecycle.MeetingServer.RefreshNonRepeatMeeting | internal/rpc/meeting/logic.go:157-172 | The update makes of the record what RefreshedTo says; the second branch is never taken. |
| Lifecycle.MeetingServer.RefreshRepeatMeeting | internal/rpc/meeting/logic.go:313-347 | The same for repeating meetings, whatever midnight is subtracted. |
| Lifecycle.MeetingServer.RefreshMeetingStatus | internal/rpc/meeting/logic.go:428-450 | Every record that is not completed and whose update is stored is refreshed, every other is untouched. |
| Lifecycle.EndAnswersIff | internal/rpc/meeting/meeting.go:238-244 | EndMeeting can take a step iff the user is refused or the scheduler answers. |
| Lifecycle.RefreshAnswersIff | internal/rpc/meeting/logic.go:313-330 | A record can be refreshed iff the scheduler is not asked about it or answers. |
| MeetingRuns.DeletedIsFinal | internal/rpc/meeting/meeting.go:256-259 | A deleted meeting never comes back, in any run. |
| MeetingRuns.RecordsAreTidy | internal/rpc/meeting/convert.go:50-61 | In every reachable store days are sorted and only custom rules have unit, interval and days. |
| MeetingRuns.IdentityIsKept | internal/rpc/meeting/logic.go:428-450 | Identifier, creator and start time never change, and In-Progress is never entered again after creation. |
| MeetingRuns.CompletedIsFinal | internal/rpc/meeting/meeting.go:222-265 | A completed record that satisfies SafeSchedule is unchanged or deleted ever after, if handlers that find or leave the meeting completed read it as stored. |
| MeetingRuns.UpdateRevivesIff | internal/rpc/meeting/meeting.go:303-314 | Some update request makes a dead completed record schedulable again iff the record that was read is not completed. |
| CachedRuns.ReadIsStored | pkg/common/storage/controller/meeting.go:35-41 | In a run over the storage the handlers read the meeting as stored, if storage steps are harmless and no user is named like it. |
| CachedRuns.CompletedIsFinalThroughCache | internal/rpc/meeting/meeting.go:222-265 | So over such storage a completed record that satisfies SafeSchedule is unchanged or deleted ever after. |
| CachedRuns.ForeignReadRevives | internal/rpc/meeting/meeting.go:303-314 | With a user named like the meeting there is a run, all records safe and all storage steps harmless, from Completed to Scheduled. |
| MeetingRuns.RevivedIffUnsafe | internal/rpc/meeting/logic.go:157-172 | A refresh can complete a record that ending it brings back iff the record violates SafeSchedule. |
| MeetingRuns.CompletedCanBeRevived | internal/rpc/meeting/meeting.go:303-344 | There is a run in which Completed is followed by Scheduled. |
| MeetingRuns.ScheduledByStartIsSafe | internal/rpc/meeting/convert.go:82-105 | A duration that is not negative and a scheduled time not after the start satisfy the guard. |
| MeetingEffects.EndMeans | internal/rpc/meeting/meeting.go:234-264 | Creator or host ending a meeting leaves it Completed iff no positive next occurrence is ever answered again, else Scheduled; cancelling removes it; everything else changes nothing. |
| MeetingEffects.RefreshMeans | internal/rpc/meeting/logic.go:428-450 | A Scheduled or In-Progress record is completed iff it is over, or its end date has passed, or it has no next occurrence; only statuses change. |
| MeetingEffects.BookMeans | internal/rpc/meeting/convert.go:27-63 | A booking stores one new record with the requested fields, starting when scheduled, whose next occurrences are those of the requested rule. |
| MeetingEffects.CreateMeans | internal/rpc/meeting/convert.go:82-105 | An immediate meeting stores one new In-Progress record that starts in the current second. |
| MeetingEffects.BookThenRefresh | internal/rpc/meeting/logic.go:157-172 | A booking without repetition is completed by a refresh iff the booked time plus duration has passed. |
| MeetingEffects.CreateThenRefresh | internal/rpc/meeting/logic.go:157-172 | An immediate meeting is completed by a refresh iff it has lasted longer than its duration. |
| MeetingEffects.SameAnswers | internal/rpc/meeting/convert.go:65-72 | Sorting the days, or fields that only custom rules read, never change an answer of the scheduler. |
| MeetingEffects.UpdateMeans | internal/rpc/meeting/meeting.go:303-332 | An update of a record read as stored is refused if completed, and else changes exactly the fields that the request names. |
| MeetingEffects.UpdateOfOtherRead | internal/rpc/meeting/convert.go:371-408 | Read otherwise, the record brings along all its settings as soon as one is named, and nothing else. |
| MeetingEffects.RefusedMeans | internal/rpc/meeting/meeting.go:303-314 | What does not go through leaves all records as they are, and at most uses up an identifier. |
| MeetingEffects.SwitchesFollowRequests | internal/rpc/meeting/convert.go:388-398 | Over any run of updates each of the nine settings is the last value named for it, or the first one. |
| LiveMeetings.UpdateIsServed | internal/rpc/meeting/meeting.go:303-362 | UpdateMeeting and its rebuild of the room are one step of such a history. |
| RoomMetadata.MergeAndUnique | internal/rpc/meeting/convert.go:410-427 | The result is the first-occurrence deduplication of the concatenation. |
| RoomMetadata.DedupMeans | internal/rpc/meeting/convert.go:410-427 | That has exactly the given elements, each once. |
| RoomMetadata.DedupTwice | internal/rpc/meeting/convert.go:410-427 | Merging in turn is merging the concatenation, and the old list stays a prefix. |
| RoomMetadata.MergeAgain | internal/rpc/meeting/convert.go:410-427 | Repeating a request changes nothing. |
| RoomMetadata.Room.JoinMeeting | internal/rpc/meeting/meeting.go:156-182 | Host, creator or password holder gets in; a user without an entry gets the default one. |
| RoomMetadata.Room.SetMeetingHostInfo | internal/rpc/meeting/meeting.go:498-530 | Only host and creator may; the host is replaced and the co-hosts merged. |
| RoomMetadata.Room.SetPersonalMeetingSettings | internal/rpc/meeting/meeting.go:379-409 | Users set their own entry, the host sets others' limits, and nobody else sets anything. |
| RoomMetadata.Room.SetSelfPersonalSetting | internal/rpc/meeting/logic.go:21-70 | The metadata becomes the self edit; nothing is written only when nothing would change. |
| RoomMetadata.Room.SetParticipantPersonalSetting | internal/rpc/meeting/logic.go:73-136 | The same for the limit. |
| RoomMetadata.EditedEntry | internal/rpc/meeting/logic.go:21-136 | A self edit touches that user's own setting only, a limit edit that user's limit only. |
| RoomMetadata.SettingsFollowHistory | internal/rpc/meeting/logic.go:21-136 | Over any sequence, a user's setting is the last one given (default off), the limit the last one set for them (default on). |
| RoomMetadata.DeviceCheckFollowsHistory | internal/rpc/meeting/permission.go:13-26 | Camera and microphone checks equal meeting setting and last own setting and last limit. |
| RoomMetadata.HostFollowsHistory | internal/rpc/meeting/meeting.go:510-511 | The host is the creator until another is appointed, and then the one appointed last. |
| RoomMetadata.CoHostsFollowHistory | internal/rpc/meeting/meeting.go:516-518 | The co-hosts are the deduplication of all requested lists, in order. |
| RoomMetadata.CoHostsGrow | internal/rpc/meeting/meeting.go:516-518 | However a history goes on, the earlier co-host list is a prefix of the later. |
| LiveMeetings.DeviceCheckFollowsRequests | internal/rpc/meeting/permission.go:13-26 | Over any history of updates and edits the device checks equal the last value named for the meeting and the last own and limit values. |
| LiveMeetings.EntryFollowsRequests | internal/rpc/meeting/meeting.go:157-160 | Entering takes being the creator or the host last appointed, or knowing the password last set. |
| LiveMeetings.PermissionFollowsRequests | internal/rpc/meeting/permission.go:9-11 | The permission check passes exactly the creator and the host last appointed. |
| RoomRuns.EditKeepsSound | internal/rpc/meeting/meeting.go:161-182 | Every edit of a sound value is sound. |
| RoomRuns.FreshIsSoundIff | internal/rpc/meeting/convert.go:131-181 | Metadata made from a record is sound for a room iff it is a record of that meeting. |
| RoomRuns.RebuildIsSoundIff | internal/rpc/meeting/meeting.go:346-362 | A rebuilt detail part is sound iff the record it is made from is one of that meeting. |
| RoomRuns.StepKeepsSound | pkg/rtc/livekit/livekit.go:165-204 | Every read, edit, rebuild, write, opening and closing keeps all stored and private values sound. |
| RoomRuns.EveryValueIsSound | internal/rpc/meeting/meeting.go:346-362 | Under any interleaving: distinct users with the creator among them, distinct co-hosts, own room, original creator. |
| RoomRuns.CreatorIsAlwaysAllowed | internal/rpc/meeting/permission.go:9-11 | The creator passes the permission check at every moment of every run. |
| RoomRuns.WriteReachesItsRoom | pkg/rtc/livekit/livekit.go:189-204 | A write changes the room that its copy was read from, and no other. |
| RoomRuns.ReopenedIsFresh | internal/rpc/meeting/meeting.go:119-141 | A room closed and opened again starts from its record alone. |
| RoomRuns.BareRoomIsJoinedFresh | internal/rpc/meeting/meeting.go:143-148 | A join in a room without metadata starts from a fresh value. |
| RoomRuns.LateWriteWins | internal/rpc/meeting/meeting.go:336-362 | What any handler leaves in the room is its one action on what it read, whatever others wrote in between. |
| RoomRuns.NothingLostIfLeftAlone | internal/rpc/meeting/meeting.go:498-530 | If nobody else wrote to the room or closed it, that is what the handler would have made of the room at its write. |
| RoomRuns.NothingLostIff | internal/rpc/meeting/meeting.go:336-362 | It is so iff the value read and the value overwritten differ at most in what the edit sets; a rebuild needs the same personal data and hosts. |
| RoomRuns.EditsEqualIff | internal/rpc/meeting/logic.go:21-136 | An edit makes two values equal iff they differ at most in what it sets, field by field. |
| RoomRuns.MergesEqualIff | internal/rpc/meeting/convert.go:410-427 | A merge makes two co-host lists equal iff each is a prefix of what it makes of the other. |
| RoomRuns.UpdateCanBeLost | internal/rpc/meeting/meeting.go:156-182 | In every meeting a limit that the host sets between the read and the write of a join is gone afterwards. |
| RoomRuns.FirstOverlapperHandles | internal/rpc/meeting/meeting.go:156-182 | The join in that run is a handler as the results above take them. |
| CacheAside.MetaCache.Copy | pkg/common/storage/cache/redis/meta_cache.go:58-71 | A new object with the same keys. |
| CacheAside.MetaCache.AddKeys | pkg/common/storage/cache/redis/meta_cache.go:101-103 | Keys are appended to this object only. |
| CacheAside.MetaCache.ExecDel | pkg/common/storage/cache/redis/meta_cache.go:77-95 | Exactly the keys for which one of five attempts succeeds are removed. |
| CacheAside.Storage.DelMeeting | pkg/common/storage/cache/redis/meeting.go:61-70 | A fresh object holds the keys; the shared base object still holds none. |
| CacheAside.Storage.TakeWithError | pkg/common/storage/controller/meeting.go:35-41 | A cached read, filling the cache on a miss. |
| CacheAside.Storage.Create | pkg/common/storage/controller/meeting.go:44-53 | All or nothing by the unique index, then invalidation. |
| CacheAside.Storage.Update | pkg/common/storage/controller/meeting.go:55-62 | $set on the record if there is one, then invalidation. |
| CacheAside.Storage.Delete | pkg/common/storage/controller/meeting.go:64-71 | Deletion, then invalidation. |
| CacheAside.Storage.CreateUsers | pkg/common/storage/controller/user.go:72-81 | All or none of the users by the unique index, then invalidation of their identifiers' keys. |
| CacheAside.Storage.GetByAccount | pkg/common/storage/cache/redis/user.go:98-102 | A cached look-up under the account's key. |
| CacheAside.Storage.GetUsersInfo | pkg/common/storage/cache/redis/meta_cache.go:155-181 | The batch of cached look-ups, in order, skipping what is not found. |
| CacheAside.Storage.FindWithError | pkg/common/storage/controller/user.go:60-69 | No error exactly when as many are found as asked for. |
| CacheLaws.CreateMeans | pkg/common/storage/controller/meeting.go:44-53 | Create stores all given meetings and loses none, or changes nothing iff identifiers clash. |
| CacheLaws.RegisterMeans | pkg/common/storage/controller/user.go:72-81 | The same for users. |
| CacheLaws.WritesInvalidate | pkg/common/storage/controller/meeting.go:44-71 | Every write that goes through removes the keys of what it wrote, and no read removes any. |
| CacheLaws.FiveAttempts | pkg/common/storage/cache/redis/meta_cache.go:84-92 | A key is removed iff one of five attempts succeeds. |
| CacheLaws.UpdateCoherentIff | pkg/common/storage/cache/redis/meta_cache.go:77-95 | An update keeps the cache coherent iff an attempt succeeds or there was nothing stale to remove. |
| CacheLaws.DeleteCoherentIff | pkg/common/storage/controller/meeting.go:64-71 | A deletion keeps it coherent iff an attempt succeeds or the meeting was not cached. |
| CacheLaws.StepCoherentIff | pkg/common/storage/controller/meeting.go:35-71 | A step of any kind keeps it coherent iff it is harmless: creations and reads always are. |
| CacheLaws.EveryStateIsCoherent | pkg/common/storage/controller/meeting.go:35-71 | In a run every cached document always equals the stored one iff every step is harmless. |
| CacheLaws.ReadCanBeStale | pkg/common/storage/cache/redis/meta_cache.go:77-95 | For every meeting and update: if all attempts fail, the next read misses the update. |
| CacheLaws.ReadNamesItsMeeting | pkg/common/storage/cache/redis/meeting.go:55-59 | However many removals fail, a meeting that is read has the identifier asked for and the creator it was created with. |
| CacheLaws.TakeRefinesPlainRead | pkg/common/storage/controller/meeting.go:35-41 | In every run of harmless steps a cached read answers as the collection would, for meetings no user is named like. |
| CacheLaws.NamesApartIff | pkg/common/storage/cache/redis/meeting.go:51-59 | No user look-up can spoil a meeting's read iff no user is named like the meeting. |
| CacheLaws.UserShadowsMeeting | pkg/common/storage/cache/redis/meeting.go:51-59 | After a look-up of a namesake, reading the meeting answers that user's password and nothing else. |
| CacheLaws.BatchAligned | pkg/common/storage/controller/user.go:60-69 | Without an error the i-th record is the one of the i-th identifier, duplicates included. |
| CacheLaws.BatchFillsCache | pkg/common/storage/cache/redis/meta_cache.go:155-181 | A batch leaves every stored user that it asked for in the cache. |
| CacheLaws.OwnNameIff | pkg/common/storage/cache/redis/user.go:79-102 | For an identifier that is not cached, no cached read can make the batch answer anything but its user iff nobody else has that account and no meeting that identifier. |
| CacheLaws.MeetingShadowsIdentifier | pkg/common/storage/cache/redis/meeting.go:51-59 | A read of a meeting named like a user makes the batch answer a user without a name. |
| CacheLaws.AccountShadowsIdentifier | pkg/common/storage/cache/redis/user.go:98-102 | An account equal to another user's identifier makes the batch answer the wrong user. |
| Sessions.TokenWindow | pkg/common/token/token.go:33-43 | An issued token is valid from the second of issue for exactly its lifetime in days, and outside of it refused with the error that says on which side. |
| Sessions.UserServer.UserLogin | internal/rpc/user/user.go:136-152 | A token is issued and stored for twelve hours. |
| Sessions.UserServer.ClearUserToken | internal/rpc/user/user.go:201-209 | The marker overwrites the token. |
| Sessions.UserServer.UserLogout | internal/rpc/user/user.go:211-216 | The key is deleted. |
| Sessions.UserServer.ParseToken | internal/rpc/user/user.go:233-252 | The result of every branch. |
| Sessions.UserServer.CheckToken | internal/api/mw/mw.go:40-53 | The result of every branch, through IsValidToken. |
| Sessions.UserServer.IsValidToken | internal/api/mw/mw.go:55-72 | Marker, mismatch and empty token are refused with their own errors. |
| Sessions.AcceptorsAgree | internal/api/mw/mw.go:28-72 | CheckToken and ParseToken accept the same tokens for the same users. |
| Sessions.AcceptedIff | internal/rpc/user/user.go:136-252 | In every reachable state a string is accepted iff the user's last event stored it, within twelve hours and its own lifetime. |
| Sessions.WhyRefused | internal/rpc/user/user.go:233-252 | What either acceptor answers in every reachable state: own error of the token, gone after twelve hours or logout, kicked off by clearing or another login. |
| Sessions.OneSession | internal/api/mw/mw.go:55-72 | Two different tokens of one user are never both accepted. |
| Sessions.LoginEndsSessions | internal/rpc/user/user.go:146-152 | A login ends earlier sessions, unless it issues the very same token. |
| Decimal.NumberOfPadded | pkg/common/storage/cache/redis/user.go:120-126 | Zero padding is undone by reading the number, at every width. |
| Identifiers.MeetingIDInjective | pkg/common/storage/cache/redis/meeting.go:72-78 | Different counters give different meeting identifiers. |
| Identifiers.UserIDInjective | pkg/common/storage/cache/redis/user.go:120-126 | Different counters give different user identifiers. |
| Identifiers.UserMeetsMeetingIff | pkg/common/cachekey/user.go:24-26 | A generated user and meeting share a cache key iff both counters are the same number, at least 10^8. |
| Identifiers.KeysApart | pkg/common/cachekey/user.go:17-34 | Documents, tokens and the two counters never fall on one key. |
| Spreadsheet.Num2AZ | pkg/common/xlsx/utils.go:21-51 | The loops end and spell the number in bijective base 26. |
| Spreadsheet.GetAxis | pkg/common/xlsx/utils.go:17-19 | Column letters followed by the row number. |
| Spreadsheet.NumberOfColumn | pkg/common/xlsx/utils.go:21-51 | Decoding a column gives back its number. |
| Spreadsheet.ColumnOfNumber | pkg/common/xlsx/utils.go:21-51 | Every word over A to Z is the column of its decoding. |
| Spreadsheet.ColumnOrderIff | pkg/common/xlsx/utils.go:21-51 | Columns are ordered, shorter first and then alphabetically, as their numbers. |
| Spreadsheet.ParseAxisOfAxis | pkg/common/xlsx/utils.go:17-19 | A reference is parsed back to exactly its column and row. |
| LiveUrls.LiveKit.GetLiveURL | pkg/rtc/livekit/livekit.go:128-133 | The URL at the counter's old value modulo n, with the 64-bit counter going up by one; one URL needs no counter. |
| LiveUrls.FirstCalls | pkg/rtc/livekit/livekit.go:128-133 | The k-th of the first 2^64 calls gets position k mod n, and then it starts over. |
| LiveUrls.CallsCompose | pkg/rtc/livekit/livekit.go:128-133 | The k-th call after j calls is the (j + k)-th, whoever makes them. |
| LiveUrls.ConsecutiveCalls | pkg/rtc/livekit/livekit.go:128-133 | Without a wrap, any n consecutive calls return each position exactly once. |
| LiveUrls.FairForEverIff | pkg/rtc/livekit/livekit.go:128-133 | That holds across the wrap as well iff n divides 2^64. |
| LiveUrls.FairShare | pkg/rtc/livekit/livekit.go:128-133 | Over k calls each position is returned floor(k/n) or ceil(k/n) times. |

## Left out

- Daylight saving: a zone is a fixed offset, so local days all have 86400 seconds.
- 64-bit overflow of timestamps, intervals and Redis counters; only the wrap of the LiveKit counter is modelled.
- `IsTodayNeedMeeting` and the cycle checks: they rest on `timeutil`, which is not part of this model; their answer is an arbitrary parameter.
- `timeutil.GetTimestampByTimezone` and `GetCurrentTimestampBySecond` are taken to read the current time in whole seconds, the first failing when the zone cannot be loaded.
- Two readings of the clock within one handler are taken as one.
- Cache operations that interleave: each storage operation is one step, and a transaction that fails has no effect.
- JSON and protobuf encoding: documents are taken to round-trip, and settings to be present.
- Redis failures other than those of removing keys, cache expiry, and MongoDB failures other than the unique index and a record that is not found.
- Num2AZ: negative column numbers, on which the code panics.
- LiveUrls.LiveKit.GetLiveURL: an empty list of URLs, on which the code divides by zero.
- Passwords and salts: UserLogin starts after the check has succeeded.
- Client notifications, stream muting, participant lists and the host fail-over callbacks, which no run reaches because createRoom ignores its callback.
- "A user is in at most one room": the check and the join are separate, and the join happens at LiveKit.
- Redis lifetimes are counted from whole seconds.
