# slack-auto-away, modelled in Dafny

slack-auto-away is a Slack app. Each user stores a working schedule, and a periodic job sets
their presence to `auto` when the schedule starts and to `away` when it ends. This project
models the self-contained logic of that app and proves properties of it:

- the job's decision engine (`update-user-status.ts`) and its time helpers (`addMinutes`,
  `stringifyNormalizedTime`, `toMilitaryTime`, the zone range filter, `toWeekday`);
- the `/… from <h> to <h>` command parser (`from.cmd.ts`), the OAuth token-response validation
  (`callback.ts`) and `escapeRegExp`;
- the schedule modal's state transition (`view/schedule/handler.ts`) and `arrayUnique`;
- the user-data record store and the boolean user indexes, over an in-memory bucket
  (`user-data.util.ts`, `user-index.util.ts`, `index-user-data.ts`).

One Dafny module corresponds to one source file:

| module | file |
|---|---|
| `TimeUtil` | `time_util.dfy` |
| `DateUtil` | `date_util.dfy` |
| `TimezoneUtil` | `timezone_util.dfy` |
| `UpdateUserStatus` | `update_user_status.dfy` |
| `ArrayUtil` | `array_util.dfy` |
| `RegExpUtil` | `regexp_util.dfy` |
| `FromCmd` | `from_cmd.dfy` |
| `OAuthCallback` | `oauth_callback.dfy` |
| `ScheduleHandler` | `schedule_handler.dfy` |
| `UserDataConstant` | `user_data_constant.dfy` |
| `Storage` | `storage.dfy` |
| `UserDataUtil` | `user_data.dfy` |
| `UserIndexUtil` | `user_index.dfy` |
| `IndexUserData` | `index_user_data.dfy` |

Three modules hold shared helpers:
- `Wrappers` has `Option` and `Result`.
- `Sequences` has subsequence and duplicate-freedom helpers.
- `JsText` models the JavaScript built-ins the code leans on: `toString`, `padStart`, `trim`
  with its whitespace class, `split`, `parseInt` digits and ASCII case-insensitive comparison.

The pure parts are written as functions and lemmas. The parts that change state in the source
are methods. These include:
- the OAuth diagnostics chain;
- the `from` command's step-by-step hour computation;
- the modal's in-place list edits;
- the `getIndexedUserIds` loop;
- every store operation.

Every such method is proved against a specification function, and the properties are proved
about that function.

The bucket is a `Storage.Bucket` class. It holds a map from key to body and a log of the
requests sent to it. Each S3 call takes an optional fault, which stands for the error S3 would
return. The listing of an index is a sequence of pages that the caller supplies.

Clock reading, timezone offsets and the outcomes of network calls are parameters:
- "now" is a number;
- a zone's offset comes from a given function;
- a fetch and a JSON parse of a response are described by a value saying whether they
  succeeded.

### Where the model departs from the code, and why

- `addMinutes` is imported by the job, but its body is not in `src/util/time.util.ts`. It is
  specified here from its jest cases: minutes carry into the hour, and the hour wraps modulo 24.
- The job reads `userData.schedule.*` in the shape of `UserSchedule`
  (`schedule.cmd.ts:50-63`). The stored `UserData`
  (`src/constant/user-data.constant.ts:11-17`) has flat `scheduleFromHour24` and
  `scheduleToHour24` fields instead. The engine is modelled over the first shape and the index
  job over the second, as each file reads them.
- The job's window test is `start ≤ local ≤ end` on `toMilitaryTime` values, with no midnight
  wrap-around. A ±10 minute window around a time within 10 minutes of midnight is therefore
  empty. This is reproduced and proved (`UpdateUserStatus.InWindowNearMidnightEmpty`), not
  corrected.

## Model

| member | source | states |
|---|---|---|
| TimeUtil.AddMinutes | src/util/time.util.spec.ts:6-46 | the result is always a valid time of day: hour 0..23, minute 0..59 |
| TimeUtil.AddMinutesCarry | src/util/time.util.spec.ts:7-25 | the new minute is (minute + delta) mod 60, and the carry floor((minute + delta)/60) goes into the hour, mod 24 |
| TimeUtil.AddMinutesModular | src/util/time.util.spec.ts:6-46 | the result's minute of day is (hour·60 + minute + delta) mod 1440, for positive and negative deltas |
| TimeUtil.MinuteOfDayInjective | src/util/time.util.spec.ts:6-46 | two valid times with the same minute of day are equal, so the previous row fixes the result |
| TimeUtil.AddMinutesRoundTrip | src/util/time.util.spec.ts:6-46 | adding -delta after adding delta gives back the original time |
| TimeUtil.AddMinutesExamples | src/util/time.util.spec.ts:7-45 | the eight jest cases: +5, +1260, +55, +1315, -5, -300, -25 and -325 minutes from 4:20 |
| TimeUtil.Stringify24Hour | src/util/time.util.ts:5 | the 24h string is five characters: the hour as two digits, then ":00" |
| TimeUtil.Stringify12Hour | src/util/time.util.ts:2-6 | the 12h string is two digits, ":00", then a suffix that is "pm" exactly when hour24 ≥ 12; the digits are hour24 - 12 only when hour24 > 12 |
| TimeUtil.StringifyExamples | src/util/time.util.ts:1-7 | 12 gives ("12:00", "12:00pm"), 0 gives ("00:00", "00:00am"), 24 gives ("24:00", "12:00pm") and 17 gives ("17:00", "05:00pm") |
| DateUtil.ToWeekday | src/util/date.util.ts:3-21 | the result is a weekday exactly when the input is in 0..6, and an error otherwise |
| DateUtil.DayNumber | src/util/date.util.ts:3-17 | every weekday has a number in 0..6 |
| DateUtil.ToWeekdayOfDayNumber | src/util/date.util.ts:3-17 | each weekday's number maps back to that weekday |
| DateUtil.DayNumberOfToWeekday | src/util/date.util.ts:3-17 | an accepted number is the number of the weekday it maps to |
| DateUtil.ToWeekdayInjective | src/util/date.util.ts:3-17 | two accepted numbers that map to the same weekday are equal |
| DateUtil.ToWeekdayTable | src/util/date.util.ts:4-20 | 0 maps to Sunday, 1 to Monday, 5 to Friday and 6 to Saturday; any number outside 0..6 is the error "Unknown weekday: n" |
| TimezoneUtil.TwoDigits | src/util/timezone.util.ts:7 | the padded field is two digits whose value is the number |
| TimezoneUtil.MilitaryText | src/util/timezone.util.ts:7 | the concatenated text is four digits |
| TimezoneUtil.MilitaryTextValue | src/util/timezone.util.ts:6-7 | parsing the concatenated digits gives 100·hour + minute |
| TimezoneUtil.MilitaryTimeMonotone | src/util/timezone.util.ts:6-7 | the value is strictly monotone in (hour, minute) order, agrees with minute-of-day order and is injective |
| TimezoneUtil.ResolveUtcNow | src/util/timezone.util.ts:12-19 | a given positive "now" is used, and otherwise the clock's value |
| TimezoneUtil.LocalClock | src/util/timezone.util.ts:34-38 | a zone's local time is the UTC hour and minute of now + offset: its minute of day is floor(ms / 60000) mod 1440 |
| TimezoneUtil.InRangeMinutes | src/util/timezone.util.ts:40 | a local time is in range exactly when start ≤ local ≤ end, inclusive at both ends |
| TimezoneUtil.InvertedRangeEmpty | src/util/timezone.util.ts:40 | when start is after end, no time is in range; there is no wrap-around past midnight |
| TimezoneUtil.Names | src/util/timezone.util.ts:44 | the names keep the zones' order, one per zone |
| TimezoneUtil.ZonesInTimeRangeMembers | src/util/timezone.util.ts:32-44 | a name is returned exactly when some zone with that name has its local time in range |
| TimezoneUtil.ZonesInTimeRangeOrdered | src/util/timezone.util.ts:24-44 | the result is an order-preserving sub-list of the zone names |
| TimezoneUtil.InvertedRangeNoZones | src/util/timezone.util.ts:40 | a range whose start is after its end returns no zones |
| TimezoneUtil.SixHoursBehindAtMidnight | src/util/timezone.util.spec.ts:46-47 | at a UTC midnight, a zone six hours behind is at 18:00 local time |
| TimezoneUtil.ReginaInRangeAtUtcMidnight | src/util/timezone.util.spec.ts:43-49 | America/Regina (UTC-6) is among the zones in [17:59, 18:01] at any UTC midnight |
| TimezoneUtil.LocalWeekday | src/util/timezone.util.spec.ts:71-87 | the local weekday is toWeekday of (days since the epoch + 4) mod 7, for the local day |
| TimezoneUtil.LocalWeekdayNumber | src/util/timezone.util.spec.ts:71-87 | the weekday's number is (local day + 4) mod 7 |
| TimezoneUtil.LocalWeekdayPeriodic | src/util/timezone.util.spec.ts:71-87 | a week later gives the same weekday, and a day later gives the next one |
| TimezoneUtil.CivilFromDays | src/util/timezone.util.spec.ts:53-69 | the calendar date of a day count has a month in 1..12 and a day in 1..31 |
| TimezoneUtil.FormatDateShape | src/util/timezone.util.spec.ts:53-69 | the local date string is YYYY-MM-DD: ten characters with dashes at 4 and 7, whose digit fields are the year, month and day |
| TimezoneUtil.LocalDate | src/util/timezone.util.spec.ts:53-69 | a local date string is produced exactly when the day's year is not negative |
| TimezoneUtil.ReginaLocalDate | src/util/timezone.util.spec.ts:62-68 | at UTC midnight of 2371-09-23, America/Regina's local date is "2371-09-22" |
| TimezoneUtil.ReginaLocalWeekday | src/util/timezone.util.spec.ts:80-86 | at UTC midnight of 2024-02-13 (a Tuesday), America/Regina's local weekday is Monday |
| UpdateUserStatus.DefaultSchedule | src/functions/slash-command/command/schedule.cmd.ts:50-63 | the default schedule is valid, not paused, has no exception dates and no weekend flags |
| UpdateUserStatus.Evaluate | src/functions/job/update-user-status.ts:57-116 | pause means no update; an excluded local date means no update; setting auto or away needs no pause, no exclusion and no disabled weekend day |
| UpdateUserStatus.DisabledWeekendWins | src/functions/job/update-user-status.ts:71-83 | on a Saturday or Sunday that the schedule disables, there is no update, even with the day's "different" flag set |
| UpdateUserStatus.ActiveTimesChoice | src/functions/job/update-user-status.ts:85-94 | Monday to Friday always use the default times; Saturday and Sunday use their own times exactly when their "different" flag is set |
| UpdateUserStatus.InWindowAwayFromMidnight | src/functions/job/update-user-status.ts:100-108 | away from midnight, the window around t is the inclusive range [t - 10, t + 10] minutes |
| UpdateUserStatus.InWindowNearMidnightEmpty | src/functions/job/update-user-status.ts:100-108 | within 10 minutes of midnight the window is empty, because the range test does not wrap |
| UpdateUserStatus.EvaluateWindows | src/functions/job/update-user-status.ts:100-116 | past the guards, a time in the auto window gives Auto even if it is also in the away window; otherwise the away window gives Away; otherwise there is no change |
| UpdateUserStatus.LocalOutcome | src/functions/job/update-user-status.ts:62-116 | at a local instant, the outcome is an update or one of the engine's reasons for no update |
| UpdateUserStatus.HandleRecord | src/functions/job/update-user-status.ts:42-116 | a missing or empty auth token or timezone means no update; with all fields present, the outcome is the engine's at now + the zone's offset |
| UpdateUserStatus.HandleJob | src/functions/job/update-user-status.ts:31-116 | a read error, and only a read error, gives ReadError; a missing record, and only that, gives MissingUserData; any update needs a token, a timezone and a schedule |
| UpdateUserStatus.ReginaDefaultScheduleMonday | src/functions/job/update-user-status.ts:57-116 | with the default schedule in America/Regina on a Monday: 09:00 local gives Auto, 17:00 gives Away and 18:00 gives no change |
| ArrayUtil.ArrayUniqueNoDuplicates | src/util/array.util.ts:2 | the result has no duplicates |
| ArrayUtil.ArrayUniqueSameValues | src/util/array.util.ts:2 | an element is in the result exactly when it is in the input |
| ArrayUtil.ArrayUniqueOrdered | src/util/array.util.ts:2 | the result is a subsequence of the input |
| ArrayUtil.ArrayUniqueSnoc | src/util/array.util.ts:2 | appending an element keeps the result and adds the element only if it is new, so first occurrences are the ones kept |
| ArrayUtil.ArrayUniqueOfDistinct | src/util/array.util.ts:2 | a duplicate-free input is returned unchanged |
| ArrayUtil.ArrayUniqueIdempotent | src/util/array.util.ts:1-3 | applying it twice is the same as once |
| ArrayUtil.ArrayUniqueLength | src/util/array.util.ts:2 | the result is no longer than the input, and equally long exactly when the input has no duplicates |
| RegExpUtil.EscapeRegExpChar | src/util/regexp.util.ts:1-3 | each of the characters `.*+?^${}()[]\` and the vertical bar becomes a backslash and the character; any other character is copied |
| RegExpUtil.EscapeRegExpConcat | src/util/regexp.util.ts:3 | escaping works character by character: the escape of a + b is the escape of a, then that of b |
| RegExpUtil.EscapeRegExpLength | src/util/regexp.util.ts:3 | the output length is the input length plus the number of special characters |
| RegExpUtil.EscapeRegExpRoundTrip | src/util/regexp.util.ts:3 | dropping each inserted backslash gives back the input |
| RegExpUtil.EscapeRegExpInjective | src/util/regexp.util.ts:3 | two inputs with the same escape are equal |
| RegExpUtil.EscapeRegExpEscaped | src/util/regexp.util.ts:3 | every output is well formed: a special character is always preceded by an inserted backslash |
| RegExpUtil.EscapedIsEscapeOfUnescape | src/util/regexp.util.ts:3 | every well-formed string is the escape of its unescaping |
| RegExpUtil.EscapeRegExpExamples | src/util/regexp.util.ts:3 | the empty string maps to the empty string, and "a.b" to "a\\.b" |
| JsText.PadStart | src/util/time.util.ts:5 | padStart keeps the string at the end, fills the front with the fill character, and is as long as the width if shorter |
| JsText.NatToStringRoundTrip | src/util/time.util.ts:5 | reading back the digits of toString gives the number |
| JsText.TrimStart | src/functions/oauth/callback.ts:49 | trimStart drops exactly the leading whitespace |
| JsText.TrimEnd | src/functions/oauth/callback.ts:49 | trimEnd drops exactly the trailing whitespace |
| JsText.TrimShape | src/functions/oauth/callback.ts:49 | a trimmed string is empty or starts and ends with non-whitespace |
| JsText.Split | src/util/user-index.util.ts:47 | split returns at least one piece, and no piece holds the separator |
| JsText.JoinSplit | src/util/user-index.util.ts:47 | joining the pieces with the separator gives back the string |
| JsText.SplitJoin | src/util/user-index.util.ts:47 | splitting a join of separator-free pieces gives back the pieces |
| FromCmd.MatchSchedule | src/functions/slash-command/command/from.cmd.ts:14-22 | a match under a form yields two hour tokens of that form |
| FromCmd.MatchScheduleOfLayout | src/functions/slash-command/command/from.cmd.ts:14-22 | a text laid out as "from", whitespace, a, whitespace, "to", whitespace, b (keywords in any case) matches exactly when a and b are hour tokens of the form, and yields (a, b) |
| FromCmd.ScheduleWordsLayout | src/functions/slash-command/command/from.cmd.ts:14-22 | any text the pattern accepts has that layout, so nothing else is accepted |
| FromCmd.LeadingDigits | src/functions/slash-command/command/from.cmd.ts:37 | parseInt reads the longest digit prefix |
| FromCmd.Is12hTokenOfNumber | src/functions/slash-command/command/from.cmd.ts:14-17 | 1..12 followed by am or pm, in any case, is a 12h token |
| FromCmd.Is12hTokenValue | src/functions/slash-command/command/from.cmd.ts:14-17 | a 12h token is its own trim, is the numeral of an hour 1..12 followed by am or pm, and parses to that hour |
| FromCmd.Is24hTokenOfNumber | src/functions/slash-command/command/from.cmd.ts:19-22 | the numeral of any of 1..24 is a 24h token |
| FromCmd.Is24hTokenValue | src/functions/slash-command/command/from.cmd.ts:19-22 | a 24h token parses to 1..24 and is that number's numeral, so 0 and 25 and above are rejected |
| FromCmd.FormsExclusive | src/functions/slash-command/command/from.cmd.ts:33-52 | no text matches both the 12h and the 24h form |
| FromCmd.Hour24Of12hValue | src/functions/slash-command/command/from.cmd.ts:37-45 | a pm token gives its hour + 12 and an am token its hour, always in 1..24 |
| FromCmd.ConvertTwelveHour | src/functions/slash-command/command/from.cmd.ts:37-45 | the step-by-step assignment and increment compute the 12h conversion |
| FromCmd.Hour24Of12hExamples | src/functions/slash-command/command/from.cmd.ts:37-45 | 5pm gives 17, 12pm gives 24, 12am gives 12 and 9AM gives 9 |
| FromCmd.ParseScheduleOfMatches | src/functions/slash-command/command/from.cmd.ts:27-52 | the 12h match is used first, the 24h match only when the 12h one fails, and no match gives no hours |
| FromCmd.HoursOfRange | src/functions/slash-command/command/from.cmd.ts:33-52 | whichever form matched, both hours are in 1..24 |
| FromCmd.ParseScheduleHours | src/functions/slash-command/command/from.cmd.ts:14-51 | every accepted input yields from and to hours in 1..24 |
| FromCmd.ReceivedReplyLines | src/functions/slash-command/command/from.cmd.ts:80-88 | the reply is the four lines "Received schedule:", the away line, the clear line and "Storing schedule ...", joined by newlines |
| FromCmd.Command | src/functions/slash-command/command/from.cmd.ts:24-95 | with no match the reply is "Invalid input" and no job is sent; with a match exactly one STORE_SCHEDULE job carries the parsed hours, and the reply renders them |
| FromCmd.TwelveHourCommandExample | src/functions/slash-command/command/from.cmd.ts:14-45 | "from 9am to 5pm" gives hours 9 and 17 |
| FromCmd.TwentyFourHourCommandExample | src/functions/slash-command/command/from.cmd.ts:19-51 | "from 9 to 17" gives hours 9 and 17 |
| FromCmd.RejectedCommandExample | src/functions/slash-command/command/from.cmd.ts:19-22 | "from 0 to 17" is rejected |
| FromCmd.ParseIntExamples | src/functions/slash-command/command/from.cmd.ts:50-51 | parseInt reads "9" as 9 and "17" as 17 |
| OAuthCallback.FirstFailureFrom | src/functions/oauth/callback.ts:46-83 | the first failing check at or after i, if any, is a check that fails |
| OAuthCallback.FirstFailureFromFacts | src/functions/oauth/callback.ts:46-83 | every check before the first failing one passes, and when none fails all of them pass |
| OAuthCallback.UserIdIff | src/functions/oauth/callback.ts:46-51 | userId is set exactly when ok, authed_user and a non-blank id are all present, and its value is the trimmed id |
| OAuthCallback.TokenIff | src/functions/oauth/callback.ts:53-60 | the token is set exactly when userId is set, the comma-split scope holds "users:write" and the trimmed access_token is non-empty; its value is that trimmed token |
| OAuthCallback.TokenNeedsUserId | src/functions/oauth/callback.ts:47-60 | a token is never set without a userId |
| OAuthCallback.UntrimmedScopeRejected | src/functions/oauth/callback.ts:54-55 | the scope "chat:write, users:write" is rejected, because the pieces are not trimmed |
| OAuthCallback.OneDiagnostic | src/functions/oauth/callback.ts:60-82 | validation appends exactly one diagnostic when it fails and none when it succeeds |
| OAuthCallback.FailedOutcome | src/functions/oauth/callback.ts:46-83 | when check i is the first to fail: its message is the only diagnostic, no token is set, and userId is set only when the failure comes after the id checks |
| OAuthCallback.PassedOutcome | src/functions/oauth/callback.ts:46-83 | when every check passes, userId and the token are set and no diagnostic is added |
| OAuthCallback.ValidateTokenResponse | src/functions/oauth/callback.ts:46-83 | the nested checks compute the specified userId, token and diagnostics |
| OAuthCallback.ValidateGrant | src/functions/oauth/callback.ts:53-71 | the scope checks, and the token checks after them, compute the specified token and diagnostics |
| OAuthCallback.ValidateAccessToken | src/functions/oauth/callback.ts:56-65 | the access_token checks compute the specified token and diagnostics |
| OAuthCallback.Callback | src/functions/oauth/callback.ts:4-99 | as written: a fetch failure gives status 200 with the fetch error and no values; an unreadable body ends in a TypeError; a parsed body gives the fetch messages, the data and the validation's diagnostics, userId and token |
| OAuthCallback.CallbackChecked | src/functions/oauth/callback.ts:4-99 | corrected: always status 200 with the given code and state, and a token only with a userId; an unreadable body logs the read error and "Response data: null" and skips validation |
| ScheduleHandler.FlattenInputsDomain | src/view/schedule/handler.ts:34-40 | an action id is in the merged map exactly when some block has it |
| ScheduleHandler.FlattenInputsLast | src/view/schedule/handler.ts:34-40 | the merged value of an action id is the one in the last block that has it |
| ScheduleHandler.RemoveActionIdOf | src/view/schedule/handler.ts:14-16 | "remove-exception-date-" followed by a date matches the remove pattern, and its captured group is that date |
| ScheduleHandler.FirstRemoveClick | src/view/schedule/handler.ts:56-60 | the action found is a button whose id matches the remove pattern; when none is found, no action matches |
| ScheduleHandler.RemoveAllKeeps | src/view/schedule/handler.ts:67 | the filter keeps a date exactly when it is in the list and is not the removed one, and keeps the list order |
| ScheduleHandler.RemoveAllAbsent | src/view/schedule/handler.ts:67 | removing a date that is not in the list changes nothing |
| ScheduleHandler.EditedDatesAdds | src/view/schedule/handler.ts:43-55 | a date that the edit brings into the list required an add-button click, a datepicker input and a value in the date format |
| ScheduleHandler.EditedDatesAppends | src/view/schedule/handler.ts:43-55 | with the add button, a valid datepicker date and no remove button, the date is appended |
| ScheduleHandler.EditedDatesRemoves | src/view/schedule/handler.ts:42-69 | a remove button drops every occurrence of its date, including one added in the same payload, and keeps the other dates in order |
| ScheduleHandler.ModalDates | src/view/schedule/handler.ts:129 | the modal's dates are duplicate-free and are exactly the edited dates |
| ScheduleHandler.ModalFlags | src/view/schedule/handler.ts:71-93 | each disable/different flag is set exactly when its value is selected on that day's checkboxes, and is off when the input is absent or of another kind |
| ScheduleHandler.EditExceptionDates | src/view/schedule/handler.ts:42-69 | the in-place push and the reassigning filter compute the specified edited list |
| ScheduleHandler.WeekendFlags | src/view/schedule/handler.ts:71-93 | the flags start false and are overwritten only when that day's checkboxes input is present, so they equal the specified flags |
| ScheduleHandler.EventHandler | src/view/schedule/handler.ts:18-141 | another payload type returns nothing and sends nothing; bad metadata, a read error, a missing record and a missing token each return their error with no update; otherwise one update with the view id, the token and the computed modal, and its error if it fails |
| UserDataConstant.IndexNameText | src/constant/user-data.constant.ts:3-7 | each index name is a non-empty text without "/" |
| UserDataConstant.IndexNameTextInjective | src/constant/user-data.constant.ts:3-7 | different index names have different texts |
| Storage.GetResult | src/util/user-data.util.ts:20-40 | a read succeeds exactly when there is no fault and the key is stored, and then returns the stored body; a missing key is NoSuchKey |
| Storage.Bucket.Get | src/util/user-data.util.ts:20-29 | a GetObject is logged, nothing is stored, and the result is the stored body or the error |
| Storage.Bucket.Put | src/util/user-data.util.ts:88-101 | a PutObject is logged; without a fault the key now holds the body, and with one nothing changes |
| Storage.Bucket.Delete | src/util/user-data.util.ts:133-142 | a DeleteObject is logged; without a fault the key is gone, and with one nothing changes |
| UserDataUtil.UserDataKey | src/util/user-data.util.ts:25 | the record key is "_userData/" + userId + ".json" |
| UserDataUtil.UserDataKeyInjective | src/util/user-data.util.ts:25 | different users have different record keys |
| UserDataUtil.ReadOutcome | src/util/user-data.util.ts:30-66 | a read error is never NoSuchKey: that one becomes "no record" |
| UserDataUtil.StoredUserDataCases | src/util/user-data.util.ts:30-66 | an absent key is (no error, null); a stored record is returned; an unparsable body is a parse error; an S3 error other than NoSuchKey is returned |
| UserDataUtil.GetUserData | src/util/user-data.util.ts:14-67 | the read sends one GetObject for the record key, changes nothing and returns the specified outcome |
| UserDataUtil.MergeFields | src/util/user-data.util.ts:100 | the stored record has userId forced to the key's user; each field given in the patch wins, and each field it leaves out keeps its existing value |
| UserDataUtil.MergeIntoNothing | src/util/user-data.util.ts:100 | on an absent record, the result is {userId, the patch's fields} |
| UserDataUtil.MergeEmptyPatch | src/util/user-data.util.ts:100 | an empty patch leaves a record unchanged |
| UserDataUtil.MergeTwice | src/util/user-data.util.ts:100 | two merges in a row are one merge of the combined patch, the later one winning |
| UserDataUtil.MergeIdempotent | src/util/user-data.util.ts:100 | merging the same patch twice is merging it once |
| UserDataUtil.SetUserData | src/util/user-data.util.ts:69-109 | a read error other than NoSuchKey is returned with nothing written; otherwise one PutObject of the merged record, returning the store's error |
| UserDataUtil.SetThenGet | src/util/user-data.util.spec.ts:134-152 | after a successful set, get returns the existing record merged with the patch |
| UserDataUtil.SetTouchesOnlyItsKey | src/util/user-data.util.ts:76-105 | set changes no other key, and changes nothing at all when the read or the write fails |
| UserDataUtil.DeleteUserData | src/util/user-data.util.ts:111-150 | a read error is returned; an absent record returns null with no delete sent; a present record is deleted, returning the delete's error |
| UserDataUtil.DeleteOutcome | src/util/user-data.util.spec.ts:170-211 | deleting an absent record changes nothing; after a delete the record reads as absent; other keys are untouched |
| UserIndexUtil.IndexKey | src/util/user-index.util.ts:100 | the index key is "_index/" + index name + "/" + userId |
| UserIndexUtil.IndexKeyInjective | src/util/user-index.util.ts:100 | different (index, user) pairs have different keys |
| UserIndexUtil.IndexKeyOutsideUserData | src/util/user-index.util.ts:100 | no index key is a user-data key |
| UserIndexUtil.KeyTexts | src/util/user-index.util.ts:44 | each listed object gives its key, or "" when it has none, in order |
| UserIndexUtil.NonBlankKeeps | src/util/user-index.util.ts:45 | the filter keeps exactly the keys that are not blank after trim, in order |
| UserIndexUtil.NonBlankOfNoBlank | src/util/user-index.util.ts:45 | a list without blank keys passes the filter unchanged |
| UserIndexUtil.LastSegment | src/util/user-index.util.ts:47 | the text after the last "/" holds no "/" |
| UserIndexUtil.LastSegments | src/util/user-index.util.ts:47 | each key maps to its last segment, in order |
| UserIndexUtil.LastSegmentOfIndexKey | src/util/user-index.util.ts:47 | the last segment of an index key is its userId, when the userId holds no "/" |
| UserIndexUtil.IndexKeyNotBlank | src/util/user-index.util.ts:45 | an index key is never dropped as blank |
| UserIndexUtil.IndexEntries | src/util/user-index.util.spec.ts:88-115 | a page listing the index keys of the given users, in order |
| UserIndexUtil.PageOfIndexKeys | src/util/user-index.util.ts:43-47 | a page of the index keys of distinct, "/"-free user ids gives back exactly those ids |
| UserIndexUtil.PageUserIdsFromKeys | src/util/user-index.util.ts:43-47 | every id from a page is the last segment of a non-blank listed key |
| UserIndexUtil.ListRequestsAt | src/util/user-index.util.ts:26-35 | the n-th listing request has the index prefix and maxKeys, and the continuation token of the page before it, none for the first |
| UserIndexUtil.GetIndexedUserIds | src/util/user-index.util.ts:55-87 | the loop returns the specified outcome and sends the specified listing requests |
| UserIndexUtil.ThreePages | src/util/user-index.util.ts:62-86 | two pages with a token and a last page without one give the concatenation of their ids, in order |
| UserIndexUtil.SevenUsersInPagesOfThree | src/util/user-index.util.spec.ts:88-115 | seven distinct ids listed in pages of 3, 3 and 1 are all returned, in order |
| UserIndexUtil.ListingErrorDiscards | src/util/user-index.util.ts:73-75 | an error on a page returns that error and discards the ids gathered so far |
| UserIndexUtil.IndexedOutcome | src/util/user-index.util.ts:145-167 | without a fault, the answer is whether the key is stored with a non-empty body |
| UserIndexUtil.AddUserIdToIndex | src/util/user-index.util.ts:89-111 | one PutObject of "name:userId" at the index key; without a fault the user is indexed |
| UserIndexUtil.RemoveUserIdFromIndex | src/util/user-index.util.ts:113-136 | one DeleteObject of the index key; without a fault the key is gone |
| UserIndexUtil.IsUserIdIndexed | src/util/user-index.util.ts:138-168 | one GetObject of the index key, nothing changed, and the specified answer |
| UserIndexUtil.AddRemoveIndexed | src/util/user-index.util.ts:89-136 | after add the user is indexed, after remove it is not, and no other (index, user) entry changes |
| UserIndexUtil.AddRemoveIdempotent | src/util/user-index.util.spec.ts:162-243 | adding twice is adding once, removing twice is removing once, and removing an absent entry changes nothing |
| IndexUserData.NonBlankTextIff | src/functions/job/index-user-data.ts:69-75 | HAS_AUTH and HAS_TIMEZONE hold exactly when the field is present and non-blank after trim |
| IndexUserData.HasScheduleIff | src/functions/job/index-user-data.ts:76-83 | HAS_SCHEDULE holds exactly when both hours are present and positive, so hour 0 counts as absent |
| IndexUserData.BooleanIndexUpdater | src/functions/job/index-user-data.ts:16-40 | a true predicate sends one add and a false one sends one remove, returning its error |
| IndexUserData.UpdatedIndexHere | src/functions/job/index-user-data.ts:21-39 | without a fault the user is indexed exactly when the predicate holds; with one nothing changes |
| IndexUserData.UpdatedIndexElsewhere | src/functions/job/index-user-data.ts:21-39 | an update touches no other (index, user) entry |
| IndexUserData.Handler | src/functions/job/index-user-data.ts:44-88 | without a record, or on a read error, nothing changes and only the read is sent; otherwise the three index updates are sent, one per index |
| IndexUserData.UpdateIndexes | src/functions/job/index-user-data.ts:67-84 | the three updates run auth, timezone, schedule, giving the specified bucket and one request per index |
| IndexUserData.IndexedObjectsEntries | src/functions/job/index-user-data.ts:67-84 | each index, unless its update fails, ends up holding the user exactly when its predicate holds; the indexes are updated independently |
| IndexUserData.IndexedObjectsElsewhere | src/functions/job/index-user-data.ts:67-84 | other users' index entries are untouched |

## Left out

- All I/O is left out: S3, SQS, `fetch` to Slack, and the logger. A call's outcome is a parameter (a fault, a given result); stores are the `Bucket` map.
- JSON is not modelled. A stored record is a `Record` body. The only other body is `Text`, which stands for a body that does not parse as JSON. The extra members of stored JSON are not modelled.
- The "Response missing body" and `transformToString` failures of `getUserData` (`user-data.util.ts:43-55`) are not modelled. A stored body always has a payload, and a read fault stands for any S3 error.
- `Promise.all` in the index job is run in the order auth, timezone, schedule. The model has no concurrency.
- S3 pagination is not modelled. A listing run is the sequence of pages the caller supplies, whose last page has no token or fails (`ListingRun`). The source's loop ends only under that condition. `maxKeys` is only carried in the requests.
- IANA timezone data, DST and date-fns-tz are not modelled: a zone's offset is a given number. The `new Date()` fallback is left out: "now" comes in as a parameter.
- The schedule string parsing inside `addMinutes` is not shown. Times are taken already parsed as (hour, minute).
- JavaScript's regex engine is not modelled: each pattern is written out as a predicate over the characters it accepts. `\s` and `trim` use ECMAScript's whitespace set over single characters.
- The modal view's JSON (`src/view/schedule/view.ts`) is left out: the `views.update` request carries the `ModalState` values handed to `modalView`. The same applies to the metadata JSON, whose parse outcome is a parameter.
- Request signing and the other handlers that only move data between services are outside this model.
- `ScheduleHandler.EventHandler`: the metadata's `exceptionDates` is assumed to be a list of strings when present. The source does not check its type.
- `IndexUserData.HasScheduleIff`: stored hours are integers, so `NaN` and fractional hours are not modelled.

## Findings

| source | as written | input that shows it | evidently intended | confidence | as-written member | corrected member |
|---|---|---|---|---|---|---|
| src/functions/oauth/callback.ts:39-46 | when `res.json()` throws, `data` stays `null`, and then `data.ok` throws a TypeError, so the handler never returns its 200 response | a fetch that succeeds with a body that is not JSON: `Fetched(Unreadable(e))` | log the read error and `Response data: null`, skip validation, and return the 200 response with no userId or token | not executed | OAuthCallback.Callback | OAuthCallback.CallbackChecked |
