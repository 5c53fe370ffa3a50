# slack_notice_bot — a Dafny model of the bot's message handling

The bot is a Ruby `SlackBot` object that runs on a schedule. It keeps a
per-day JSON snapshot of a team channel's history and derives each roster
member's latest activity of the day. Members who have been silent for more
than 90 minutes ("away") or have not posted at all ("offline") get one
reminder notice. Daily work reports are built from messages that start a
line with `【`. Expired reminders are deleted later. This project models
that logic and the run gate of `bin/refresh_today_history.rb`, and proves
properties of it.

Files and modules:

- `text.dfy` (`Text`): substring search, Ruby's `Array#join`, `String#gsub`
  with a literal pattern, and the line-anchored test `/^【/`.
- `messages.dfy` (`Messages`): the values exchanged with the chat platform:
  messages, days, `channels.history` queries, user-list entries, posts.
- `activities.dfy` (`Activities`): the activity Hash of
  `users_latest_activities` and the away/offline classification and notice
  text of `check_is_away`.
- `reports.dfy` (`Reports`): `mapped_members`, `nickname`,
  `format_text_for_report`, and the selection and rendering of `reports`.
- `notices.dfy` (`Notices`): the selection of stale notices in
  `clean_bot_notice`.
- `daily_history.dfy` (`DailyHistory`): what `daily_channels_history`
  returns, loads and caches, and the cache, parse log and name table that
  `send_reports`' sequence of `reports` calls leaves behind.
- `slack_bot.dfy` (`Bot`): the class `SlackBot`. It holds the caches
  (`@history`, `@activities`, `@mapped_members`), the snapshot files, and
  the outbox of posts, prints and deletes.
- `refresh_today_history.dfy` (`RefreshToday`): the weekday/hour gate and the
  dump-then-check sequence of `bin/refresh_today_history.rb`.

Representation choices:

- A Ruby Hash is ordered. The activity Hash is a sequence of `Activity`
  records whose `user` fields are the keys. The `mapped_members` Hash is a
  sequence of (id, name) pairs; `Put` overwrites an existing key in place
  and appends a new one.
- Slack timestamps are decimal strings (`"1500000000.000100"`). The time
  comparisons and formatting use their `to_i`; `Message.ts` is that whole
  number of seconds, and `delete` is given it too (see "Left out").
- The snapshot files are the field `files`, keyed by the day's `%Y-%m-%d`
  string. The remote channel history is a function `Api` from a query to a
  message list. It is passed to every operation that may fetch.
- `post`, `delete` and `puts` append to `posted`, `deleted` and `printed`.
- A Ruby exception (`nickname` on an unknown id) becomes `None` (or
  `ok == false`). State changes made before the raise are kept, and nothing
  is posted afterwards.
- `format_text_for_report` calls `gsub!` on the String stored in the
  cached snapshot. That rewrite of the cached texts is modelled
  (`MarkFormatted`). `ReportsIgnoreRewrites` proves that, when no member is
  listed twice, the rewrite does not change any report `send_reports`
  builds.

As written, `check_is_away` joins the away text and the offline text with
no separator. When both lists are non-empty, the last away line and the
first offline line share one line of the notice. The model keeps this
(`AwayNotice`).

## Model

| member | source | states |
|---|---|---|
| `Messages.Window` | slack_bot.rb:140-142 | the history query starts at the day's local midnight, spans exactly 86400 seconds, and asks for at most 1000 messages |
| `Activities.CollectActivities` | slack_bot.rb:40-47 | the `each` loop, with its two early `next`s, yields exactly `LatestActivities` of the roster and the day's messages |
| `Activities.LatestActivitiesFind` | slack_bot.rb:41-46 | the Hash holds no entry for a non-member or for a member with no message; for any other member it holds the first of their messages in list order, with `message`, `ts` and `user` copied from it |
| `Activities.LatestActivitiesWellFormed` | slack_bot.rb:43-45 | the Hash has at most one entry per user, and only for roster members |
| `Activities.AwayActivities` | slack_bot.rb:52 | a record is selected as away exactly when it is a record of the Hash with `now - ts > 5400` |
| `Activities.OfflineMembers` | slack_bot.rb:53 | `members - keys`: a user is offline exactly when they are in the roster and have no record |
| `Activities.Classification` | slack_bot.rb:52-53 | a roster member is offline iff they posted nothing in the snapshot; away iff their first message in it is more than 5400 s old; never both |
| `Activities.AwayOfflineDisjoint` | slack_bot.rb:52-53 | no away record's user is in the offline list, for any record sequence |
| `Activities.AwayThresholdIsStrict` | slack_bot.rb:12-13 | a gap of exactly 90 minutes is not away; one second more is |
| `Activities.AwayActivitiesAppend` | slack_bot.rb:52 | `select` distributes over concatenation: the away records of `a + b` are those of `a` followed by those of `b`, in order |
| `Activities.OfflineMembersAppend` | slack_bot.rb:53 | `members - keys` distributes over concatenation of the roster, keeping roster order |
| `Activities.AwayNoticeHasMarker` | slack_bot.rb:55-61 | an emitted notice carries `沒發動態` whenever some member is away, and `尚未上線` whenever no member is away (so some member is offline) |
| `Notices.StaleTimestamps` | slack_bot.rb:162 | a timestamp is deleted exactly when some message in the file is a `bot_message` whose text contains one of the two markers |
| `Notices.StaleTimestampsAppend` | slack_bot.rb:162 | `select ... each` over `a + b` deletes the stale timestamps of `a`, then those of `b` |
| `Notices.OwnNoticeIsStale` | slack_bot.rb:157-162 | any notice `check_is_away` posts is selected by `clean_bot_notice` once it appears as a bot message |
| `Reports.BuildNameTable` | slack_bot.rb:122-130 | the loop builds exactly the ordered Hash `NameTableOf(users)` |
| `Reports.NameTableLookup` | slack_bot.rb:125-127 | each id maps to the name of the LAST user-list entry with that id |
| `Reports.NameTableKeys` | slack_bot.rb:124-128 | an id is a key of the table exactly when some user-list entry carries it |
| `Reports.NameTableDistinct` | slack_bot.rb:124-128 | the table holds each of its keys once |
| `Reports.Nickname` | slack_bot.rb:118-120 | the name of the FIRST user-list entry with that id (`find`); `None` (Ruby raises) exactly when no entry has it |
| `Reports.NicknameAgreesWithNameTable` | slack_bot.rb:118-127 | when ids are unique, the header name and the mention name of a member agree |
| `Reports.FormatText` | slack_bot.rb:99-104 | the loop applies one `gsub` per table entry, in insertion order: `FormatWith(table, text)` |
| `Reports.FormatWithoutMentions` | slack_bot.rb:99-104 | text with no `<@` is returned unchanged |
| `Reports.FormatReplacesMentions` | slack_bot.rb:99-104 | on any text made of plain segments and `<@ID>` tokens, every token of a listed id becomes that id's name and every other token and segment is kept in place (plain ids, names without `<`) |
| `Reports.TwoMentionsExample` | slack_bot.rb:99-104 | `<@U1> and <@U2>` with `{U1: "Ann", U2: "Bob"}` becomes `Ann and Bob` |
| `Reports.MentionExample` | slack_bot.rb:101 | `hi <@U2>` with `{U2: "Alice"}` becomes `hi Alice` |
| `Reports.ReportEntries` | slack_bot.rb:71-74 | a message is kept exactly when it is authored by the user, its `ts` is after the day's start, and some line of its text starts with `【` |
| `Reports.EntriesChronological` | slack_bot.rb:71-75 | reversing the kept messages gives the entries of the reversed (oldest-first) snapshot |
| `Reports.ReportExample` | slack_bot.rb:71-78 | the marked message after the day's start is rendered as `[HH:MM] text`, and the unmarked one is left out |
| `Reports.MarkFormatted` | slack_bot.rb:77 | after `reports(user)` the cached list keeps its length and order; exactly the user's entries have their text formatted |
| `Reports.MarkFormattedKeepsOthers` | slack_bot.rb:71-77 | rewriting one member's entries leaves every other member's entries unchanged |
| `Reports.ReportsIgnoreRewrites` | slack_bot.rb:88-90 | with each member listed once, the reports built in sequence on the rewritten cache equal the reports of the snapshot as loaded |
| `Bot.SlackBot.constructor` | slack_bot.rb:17-26 | a new bot has empty caches and an empty outbox, and the caller's roster, user list and files |
| `Bot.SlackBot.DumpDailyHistory` | slack_bot.rb:138-145 | issues one query for the day's window and overwrites only that day's file with the result |
| `Bot.SlackBot.DailyChannelsHistory` | slack_bot.rb:28-35 | returns the cached list if present; otherwise the file, fetched first only if missing; parses and caches a day at most once |
| `Bot.SlackBot.UsersLatestActivities` | slack_bot.rb:37-48 | re-dumps today when `refresh`; once memoised, returns the same Hash and reads nothing; otherwise computes it from today's snapshot |
| `Bot.SlackBot.CheckIsAway` | slack_bot.rb:50-68 | emits nothing when no one is away or offline, otherwise exactly one notice (print in debug mode, else a post to the channel) |
| `Bot.SlackBot.MappedMembers` | slack_bot.rb:122-130 | returns the memoised table, which always equals `NameTableOf(users)` |
| `Bot.SlackBot.FormatTextForReport` | slack_bot.rb:99-104 | returns the text with the table's substitutions and memoises the table |
| `Bot.SlackBot.FormatEntries` | slack_bot.rb:75-78 | one `[HH:MM] text` line per entry; the table is computed only when there is an entry |
| `Bot.SlackBot.RewriteEntries` | slack_bot.rb:101 | the cached day's list becomes `MarkFormatted` of it |
| `Bot.SlackBot.Reports` | slack_bot.rb:70-84 | returns `Report` of the loaded snapshot (header, body, trailing newline) and rewrites the user's cached texts |
| `Bot.SlackBot.RenderReport` | slack_bot.rb:71-83 | on the cached list, returns `Report` of it and rewrites exactly the user's entries in the cache |
| `DailyHistory.CacheAfterReports` | slack_bot.rb:88-90 | the day's cached list after the `reports` calls keeps its length, authors and timestamps, and leaves non-members' messages as they were |
| `DailyHistory.ReachedStep` | slack_bot.rb:88-89 | one `reports` call moves the `map` to the state after it, or ends it with no reports and the settled cache, parse log and name table |
| `Bot.SlackBot.CollectReports` | slack_bot.rb:88-90 | the members' reports in roster order, each on the cache as earlier reports left it, `None` if one raises; the day's cache entry becomes `CacheAfterReports` (every member's entries rewritten up to and including the one that raises), the day is parsed only on a cache miss (the cache is untouched for an empty roster), and the name table is built exactly when some processed member had an entry |
| `Bot.SlackBot.ReportStep` | slack_bot.rb:89 | one `reports` call of the `map` keeps the state the calls so far reach, or ends the map with the settled state |
| `Bot.SlackBot.SendReports` | slack_bot.rb:86-97 | re-dumps the day, then emits once all reports joined by the separator, or nothing when a report raises; leaves the cache, parse log and name table as `CollectReports` states |
| `Bot.SlackBot.PostMessage` | slack_bot.rb:106-110 | appends one post to the channel under the bot's name |
| `Bot.SlackBot.Emit` | slack_bot.rb:63-67 | prints in debug mode, otherwise posts |
| `Bot.SlackBot.Delete` | slack_bot.rb:112-116 | appends one delete of that timestamp |
| `Bot.SlackBot.CleanBotNotice` | slack_bot.rb:157-163 | re-dumps the day, reads the file (not the cache) and deletes exactly `StaleTimestamps` of the fetched list, in file order |
| `Bot.SlackBot.DeleteStale` | slack_bot.rb:162 | the `select ... each` deletes the timestamps of exactly the stale notices of the list, in list order, and nothing else |
| `RefreshToday.GateBoundaries` | bin/refresh_today_history.rb:6-7 | weekends and hours 9 and 19 do not run; Monday 10h and Friday 18h do |
| `RefreshToday.RefreshTodayHistory` | bin/refresh_today_history.rb:3-12 | no bot when the gate fails; otherwise a fresh bot re-dumps today and the away check uses that fresh list, posting `AwayNotice` of it |

## Left out

- HTTP transport (`execute`, `fetch`, `url`, the network side of `post`/`delete`): external; the history call is the `Api` parameter and posts/deletes are outbox appends.
- Configuration and file I/O (`initialize`'s YAML read, `cache_data!`, `channels_info`, `users_list`, `File.read`/`File.write`, JSON encoding): settings, the user list and the snapshot files are given to the constructor; a JSON round trip of a snapshot is taken to be the identity.
- Clock and local time: `Time.now`, `Date.today`, `day.to_time` and both `strftime`/`Time.at` formats are parameters (`now`, `Day`, `dateTime`, `hourMinute`), since they depend on the host's time zone.
- Timestamp parsing: `String#to_i` on Slack's decimal timestamps is taken as already done (`Message.ts`).
- The per-channel file name (`history_filename` includes the channel name): one channel per bot, so files are keyed by day only.
- The server-side limit of 1000 messages per query: whatever the server drops is already absent from the `Api` result.
- Logging with `puts` in `bin/refresh_today_history.rb` (the weekday/hour line and the start/end lines): standard output only.
- Aliasing of the activity's `message` String with the cached message text: a later `gsub!` on today's cache would also change it; the model copies it, and no output reads it.
- `users_latest_activities` reads `Date.today` on every call; the model takes `today` as a parameter, and the memoised Hash is returned whatever the day.
- `Reports.FormatWith`: treats `<@#{member_id}>` as literal text, which holds because Slack ids contain no regular-expression metacharacters.
- `Reports.FormatReplacesMentions`: proved for ids without `<` or `>`, names without `<`, and segments without `<`; other inputs can create or hide tokens across replacements.
- `Reports.FormatWith`: inserts each name literally. Ruby's `gsub!` treats `\0`, `\&`, `\1` and `\\` in a replacement string specially, so a user name containing a backslash sequence is rendered differently by the bot.
- `Bot.SlackBot.Delete`: records the whole seconds of a timestamp, while `clean_bot_notice` passes Slack's full decimal `ts` string to `chat.delete`; two stale notices posted within the same second are not told apart by the model.
- crontab.rb and bin/report_yesterday.rb: the first only prints a fixed crontab; the second only calls `send_reports` (its second call reads `web_team`, which the class does not define).
