# Daily reminder system — a verified model of its core

The system reads a configuration of six kinds of recurring rules and works
out, for one reference day in Japan Standard Time, which rules fire and with
what text:

- countdowns to a target date;
- yearly tasks on a month and day;
- monthly tasks on a day of the month, clamped to the month's last day;
- weekly tasks on a set of weekdays;
- specific-week tasks on the n-th given weekday of the month, falling back to the last one;
- last-week tasks on the last given weekday of the month.

It then posts the messages to a Discord webhook. A list of messages is cut
into embeds of at most 20 numbered fields, posted one after another with a
one-second pause between posts. An empty list becomes a single grey "nothing
today" embed. The deployment script contributes two deciding steps:

- reading `KEY=value` lines from a `.env` file and insisting on three secrets;
- comparing a configuration with its decrypted copy.

The model is in six modules, one file each:

- `Wrappers` (`wrappers.dfy`): `Option` and `Result`.
- `Text` (`text.dfy`): the JavaScript string operations the core relies on. These are `String(n)`, `padStart`, a global `replace`, `trim`, `split` and `join`, each with its round trip or characterisation.
- `Calendar` (`calendar.dfy`): proleptic Gregorian days. It covers day numbers, month lengths, the roll-over of `setDate` (`Normalize`) and weekdays within the reference month.
- `Reminder` (`reminder.dfy`): `ReminderProcessor` from `src/reminder.js`. Every `process…` loop is a method proved equal to a specification function. The rules are then characterised by lemmas stating exactly when each one fires.
- `Discord` (`discord.dfy`): `DiscordNotifier` from `src/discord.js`. It is a class whose `log` field records every post and pause. The webhook's answer to the k-th post is the parameter `respond`.
- `Deploy` (`deploy.dfy`): `loadEnvFile` and `validateConfigConsistency` from `scripts/deploy.js`.

The reference day is an argument of type `Today`: a valid calendar date
together with its weekday (0 = Sunday). The clock is not read.

Two behaviours of the code are worth noting:

- `sendWebhook` has no retry on HTTP 429. Its rate-limit branch comes after the `!response.ok` test, which already throws for 429, so it can never run. The model keeps that order (`Discord.DiscordNotifier.SendWebhook`, the dead branch marked by `assert false`).
- The date label is `String(year)` followed by a two-digit month and day. The year is not padded.

## Model

| member | source | states |
|---|---|---|
| Reminder.ProcessCountdowns | src/reminder.js:18-45 | the loop returns exactly the messages of the countdowns that fire, in order (`CountdownReminders`) |
| Reminder.ProcessYearlyTasks | src/reminder.js:47-60 | the loop returns exactly the messages of the yearly tasks that fire, in order |
| Reminder.ProcessMonthlyTasks | src/reminder.js:62-78 | the loop returns exactly the messages of the monthly tasks that fire, in order |
| Reminder.ProcessWeeklyTasks | src/reminder.js:80-93 | the loop returns exactly the messages of the weekly tasks that fire, in order |
| Reminder.FindFirstOccurrence | src/reminder.js:103-108 | walking forward from day 1 stops at the first day of the month on the rule's weekday |
| Reminder.FindLastOccurrence | src/reminder.js:114-117 | walking back from the month's last day stops at the last day on the rule's weekday |
| Reminder.ProcessSpecificWeekTasks | src/reminder.js:95-128 | the loop returns exactly the messages of the specific-week tasks that fire, in order |
| Reminder.ProcessLastWeekTasks | src/reminder.js:130-150 | the loop returns exactly the messages of the last-week tasks that fire, in order |
| Reminder.ProcessReminders | src/reminder.js:152-167 | the result is the formatted date with the six collections' messages in the fixed order countdown, yearly, monthly, weekly, specific-week, last-week |
| Reminder.SkippedOnlyWhenFalse | src/reminder.js:22 | over the modelled values of `enabled` (absent, `true`, `false`), the guard `!enabled && enabled !== undefined` skips a rule exactly when `enabled` is `false` |
| Reminder.EnabledTriState | src/reminder.js:22 | for all six rule kinds, `enabled: false` silences the rule and an absent `enabled` acts like `true` |
| Reminder.FiredAppend | src/reminder.js:152-161 | evaluating two rule lists one after the other gives their messages one after the other |
| Reminder.FiredMember | src/reminder.js:18-45 | a text is emitted exactly when some rule of the list fires with that text |
| Reminder.EvaluateAtMostOnePerRule | src/reminder.js:152-167 | one evaluation emits at most one message per rule; missing or null collections emit none |
| Reminder.UtcHostCountdownEarly | src/reminder.js:24-31 | as the code runs on a UTC host, a countdown says nothing on its target day and announces "本日が…です！" the day before |
| Reminder.CountdownFires | src/reminder.js:24-31 | an enabled countdown fires on every day up to and including its target day, and never after it |
| Reminder.CountdownDaysCount | src/reminder.js:24-29 | the day count is k exactly when the target is k calendar days after the reference day |
| Reminder.CountdownDefaultText | src/reminder.js:35-39 | without a custom message the text is "本日が…です！" on the target day and "…まであとk日です" k days before |
| Reminder.CountdownTomorrow | src/reminder.js:37-38 | the day before the target the default text counts 1 day |
| Reminder.CountdownCustomText | src/reminder.js:33-34 | a custom message has every `{days}` replaced by the day count and nothing else changed |
| Reminder.YearlyFires | src/reminder.js:53 | a yearly task fires exactly when enabled and the month and day both match |
| Reminder.MonthlyFires | src/reminder.js:68-71 | a monthly task fires on its day, or on the last day of a month too short to have it |
| Reminder.WeeklyFires | src/reminder.js:86 | a weekly task fires exactly when today's weekday is in its list |
| Reminder.NthOccurrenceDay | src/reminder.js:103-111 | the n-th occurrence of a weekday is the first occurrence plus n-1 weeks, when that is still in the month |
| Reminder.LastOccurrenceDayIsLast | src/reminder.js:138-141 | the day the backward walk finds is exactly the last occurrence of the weekday in the month |
| Reminder.SpecificWeekFires | src/reminder.js:95-128 | for week 1 to 5: fires on the week-th occurrence of its weekday, or on the last occurrence when the month has no week-th one |
| Reminder.LastWeekFires | src/reminder.js:130-150 | fires exactly on the last occurrence of its weekday in the month |
| Reminder.TwoDigitsRoundTrip | src/reminder.js:13-14 | `padStart(2, '0')` of a month or day gives two characters that read back as the number |
| Reminder.FormatDateRoundTrip | src/reminder.js:11-16 | the date label reads back as the same year, month and day, so different days get different labels |
| Text.NatToStringRoundTrip | src/reminder.js:13 | the decimal rendering of a natural number reads back as that number |
| Text.IntToStringRoundTrip | src/reminder.js:12 | the rendering of an integer, minus sign included, reads back as that integer |
| Text.IntToStringInjective | src/reminder.js:34 | different day counts are rendered as different texts |
| Text.PadStart | src/reminder.js:13-14 | the padded string has the requested width, ends with the input and is filled in front |
| Text.ReplaceAllAbsent | src/reminder.js:34 | a message without `{days}` is left as it is |
| Text.ReplaceAllJoined | src/reminder.js:34 | replacing a placeholder whose first character does not recur replaces exactly the occurrences between placeholder-free pieces |
| Calendar.DaysInMonth | src/reminder.js:68 | day 0 of the next month is the month's last day: 28 to 31, and 29 exactly in a leap February |
| Calendar.DayNumberOrder | src/reminder.js:25-29 | subtracting midnight day numbers orders calendar days as the calendar does; equal numbers mean equal days |
| Calendar.DayDistance | src/reminder.js:28-29 | two days are k days apart by day number exactly when one is k days after the other |
| Calendar.NormalizeDayNumber | src/reminder.js:111 | `setDate` with an out-of-range day lands that many days after the first of the month |
| Calendar.NormalizeNearMonth | src/reminder.js:111-113 | the rolled-over date stays in the month exactly when the day is in range |
| Calendar.FirstOccurrenceDay | src/reminder.js:103-108 | the first day of the month on a weekday is among days 1 to 7, and no earlier day has that weekday |
| Calendar.LastOccurrenceDay | src/reminder.js:138-141 | the last day of the month on a weekday is in the month's last week, and no later day has that weekday |
| Calendar.SameWeekday | src/reminder.js:106-111 | days of the month share a weekday exactly when they are a whole number of weeks apart |
| Discord.ChunksProperties | src/discord.js:30-36 | the chunks concatenate back to the list; there are ceil(n/20) of them; all but the last hold 20 items and the last 1 to 20 |
| Discord.DiscordNotifier.SplitReminders | src/discord.js:30-36 | the loop produces exactly the chunks of 20 taken from the front |
| Discord.EmptyListPayload | src/discord.js:17-18 | an empty list posts exactly one grey embed saying there is nothing today |
| Discord.PayloadCount | src/discord.js:40-49 | one payload per chunk of 20, and one payload for an empty list |
| Discord.PayloadsCarryEveryReminder | src/discord.js:20-24 | reading the field values of the payloads in order gives the reminder list back: each reminder sent once, in order |
| Discord.PayloadShape | src/discord.js:7-28 | every payload carries one blue embed with 1 to 20 fields numbered from 1, not inline; the title gets `(i/n)` only when there are several payloads |
| Discord.FieldLabelInjective | src/discord.js:21 | field labels of different positions differ |
| Discord.SendFailure | src/discord.js:66-69 | the re-raised error starts with "Discord" and ends with the original message |
| Discord.FirstRejection | src/discord.js:86-89 | the first post not accepted (a failed exchange or a status outside 200..299): every earlier post was accepted and it was not; none when all were |
| Discord.TraceLayout | src/discord.js:49-63 | in a run whose posts all succeed, post j is event 2j and every post but the last is followed directly by the one-second pause |
| Discord.TraceShape | src/discord.js:49-63 | when all posts succeed, every payload is posted once, in order, with one pause between consecutive posts and none after the last |
| Discord.DiscordNotifier.SendWebhook | src/discord.js:72-97 | one post is logged; a failed `fetch` or `response.text()` passes its error on, a status outside 200..299 gives the "Discord API エラー" error; the 429 branch cannot be reached |
| Discord.DiscordNotifier.Wait | src/discord.js:61 | the pause is logged and nothing else changes |
| Discord.DiscordNotifier.PostChunks | src/discord.js:46-65 | all chunks are posted with pauses between and the count returned; or the posts up to the first one not accepted are logged and its error (the exchange's own, or the API error) returned |
| Discord.DiscordNotifier.SendNotification | src/discord.js:38-70 | the log and the result match the first post not accepted, a failed exchange included (error wrapped as "Discord通知の送信に失敗しました: …") or full delivery with the message count |
| Discord.PostedSent | src/discord.js:66-69 | the `catch` turns a loop outcome into the notifier's outcome by wrapping only the error |
| Deploy.AssignLine | scripts/deploy.js:23-31 | a line changes the variables exactly as the line's parse says: unchanged for blank, comment, key-less or `=`-less lines |
| Deploy.LoadEnvFile | scripts/deploy.js:15-46 | a missing file gives its error; otherwise the file's variables, or the error naming the first required variable that is absent or empty |
| Deploy.FindMissing | scripts/deploy.js:39-43 | the loop returns the position of the first required variable that is absent or empty |
| Deploy.FirstMissing | scripts/deploy.js:39-43 | that position is unset and all earlier ones are set; none means all are set |
| Deploy.ParseLineMeaning | scripts/deploy.js:24-28 | a line defines something exactly when its trimmed text is not blank, not a comment and has a non-empty key before its first `=`; the value is everything after that `=`, quotes stripped |
| Deploy.KeyValueParse | scripts/deploy.js:24-28 | `key=value` assigns the value with quotes stripped to the key |
| Deploy.QuotedLineRoundTrip | scripts/deploy.js:28 | a value between two quotes, of either kind and matched or not, comes back exactly, even with `=` or quotes inside |
| Deploy.LeadingQuoteOnly | scripts/deploy.js:28 | a quote at the start alone is dropped and the rest, inner quotes included, is kept |
| Deploy.PlainLineRoundTrip | scripts/deploy.js:28 | an unquoted value without trailing blanks comes back exactly |
| Deploy.DefinedKeys | scripts/deploy.js:23-31 | a variable is defined exactly when some line defines it |
| Deploy.LastDefinitionWins | scripts/deploy.js:28 | the last line defining a variable decides its value |
| Deploy.LoadSucceedsIffAllSet | scripts/deploy.js:33-45 | loading succeeds exactly when the three secrets are all set and non-empty |
| Deploy.ValidateConfigConsistency | scripts/deploy.js:123-181 | the answer is true exactly when all six collections are present, their sizes agree and the countdowns agree pairwise on name, target date and enabled |
| Deploy.ConsistentWithItself | scripts/deploy.js:123-172 | a configuration passes against itself exactly when all six collections are present |
| Deploy.ConsistencyIgnoresTaskContents | scripts/deploy.js:136-172 | only countdowns are compared item by item: other collections need only equal sizes |
| Text.JoinSplit | scripts/deploy.js:23 | splitting the file into lines loses nothing: joining them back gives the file |
| Text.SplitJoin | scripts/deploy.js:26-28 | splitting the join of `=`-free pieces gives the pieces back |
| Text.SplitFirst | scripts/deploy.js:26-28 | the key is the text before the first `=` and the rejoined rest is the text after it |
| Text.TrimPadded | scripts/deploy.js:24 | `trim` removes exactly the surrounding white space |

## Left out

- The clock (`getJSTDate`): the reference day and its weekday are a parameter, taken as the Japan calendar day. The code gets that day only on a host whose local time is UTC. On a host set to Japan time the 9-hour shift is applied twice, and from 15:00 the reference day is already the next day.
- Reminder.CountdownFires and the rules built on `CountdownMessage` take both the reference day and the target as Japan calendar days. No single host setting produces both. On a UTC host the target is read a day early (see "## Findings"); on a Japan-time host the reference day is late from 15:00.
- The countdown target: parsing `targetDate` from text is not modelled. The target is a valid calendar date.
- Reminder.YearlyFires, Reminder.MonthlyFires, Reminder.WeeklyFires, Reminder.SpecificWeekFires, Reminder.LastWeekFires: `month`, `day`, `week` and `dayOfWeek` are integers. The code compares them with `===`, `!==` or `includes`, so a string never matches. The two exceptions are `Math.min(task.day, …)` and `(task.week - 1) * 7`, which turn a numeric string into a number (a monthly `day: "15"` fires on the 15th). String and non-integer values are not modelled.
- Reminder.SkippedOnlyWhenFalse: `enabled` is modelled as absent, `true` or `false`. The guard also skips a rule for `null`, `0`, `""` and `NaN`; those values are not modelled.
- Reminder.SpecificWeekFires: characterised only for week 1 to 5. Other week values follow the source's arithmetic in `SpecificWeekTargetDay`, including the month-only comparison, but have no lemma.
- The HTTP exchange (`fetch`, `response.text()`) is the parameter `respond`: a status and body text, or `Failed` with the error either call raised. The `Retry-After` header is not read, because the branch reading it is unreachable.
- Timed waits are `Pause` events in the log; no time passes.
- Console logging, `createEmbed`'s `timestamp` and `testConnection` are left out: they are I/O or the clock.
- The `.env` file system access is the parameter `content`, and `None` stands for a missing file. The other deployment steps are not part of this model because they shell out or encrypt. These are `loadReminderConfig`, `encryptConfig`, `updateCloudflareSecrets` and the deploy command.
- Deploy.LoadEnvFile: object keys such as `__proto__` are treated like any other key.
- Deploy.ValidateConfigConsistency: values that are not collections, and the `catch` for configurations that are not objects, are not modelled. Countdowns are compared on the modelled fields: the target date is a calendar date rather than its text.
- `src/crypto.js`, `src/index.js` and the other scripts are not part of this model.

## Findings

| source | as written | input that shows it | evidently intended | confidence | as-written member | corrected member |
|---|---|---|---|---|---|---|
| src/reminder.js:24-29 | the target `targetDate + 'T00:00:00+09:00'` is read back with the host's local getters; on a UTC host, where the scheduled handler runs, that is 15:00 of the day before, so the count is one day short | a countdown to 2026-10-19 without a custom message: on 2026-10-18 (Japan) it says "本日が…です！", and on 2026-10-19 it says nothing | the whole days from the Japan day of the run to the target date itself | not executed; follows from the date arithmetic on a UTC host | Reminder.UtcHostCountdownEarly | Reminder.CountdownFires |
