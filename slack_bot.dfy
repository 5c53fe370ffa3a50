/**
 * The `SlackBot` object: its per-run caches (`@history`, `@activities`,
 * `@mapped_members`) and the operations that fill and use them.
 *
 * What the Ruby object reaches through I/O is state or a parameter here:
 * the snapshot files under `_data/` are `files` (keyed by day), the remote
 * `channels.history` is an `Api` passed to every operation that may fetch,
 * `users_list.json` is the constant `users`, and the `chat.postMessage`,
 * `chat.delete` and `puts` calls append to `posted`, `deleted` and `printed`.
 * Clock readings and time formatting are parameters.
 */
module Bot {
  import opened Messages
  import opened Text
  import opened Activities
  import opened Reports
  import opened Notices
  import opened DailyHistory

  class SlackBot {
    const channelId: string
    /** `@members`, the roster. */
    const members: seq<string>
    /** `users_list[:members]`, read from `users_list.json`; this model does not rewrite it. */
    const users: seq<User>
    const debug: bool

    /** The snapshot files, by day key. */
    var files: map<string, seq<Message>>
    /** `@history`: parsed snapshots, by day key. */
    var history: map<string, seq<Message>>
    /** The day keys whose file was parsed, in order. */
    var parsed: seq<string>
    /** The `channels.history` queries made, in order. */
    var fetches: seq<HistoryRequest>
    /** `@activities`, `nil` until first computed. */
    var activities: Option<seq<Activity>>
    /** `@mapped_members`, `nil` until first computed. */
    var mappedMembers: Option<NameTable>
    var posted: seq<Post>
    var printed: seq<string>
    /** The timestamps passed to `chat.delete`. */
    var deleted: seq<int>

    /**
     * Each day's file is parsed at most once and exactly the parsed days are
     * cached; a computed activity Hash holds one record per user, for roster
     * members only; a computed name table is the one the user list gives.
     */
    ghost predicate Valid()
      reads this
    {
      && (forall k :: k in history <==> k in parsed)
      && (forall i, j :: 0 <= i < j < |parsed| ==> parsed[i] != parsed[j])
      && (activities.Some? ==> WellFormed(members, activities.value))
      && (mappedMembers.Some? ==> mappedMembers.value == NameTableOf(users))
    }

    /** Emitting `text` once: `puts` in debug mode, otherwise a post to `channel`. */
    ghost predicate Emitted(posted0: seq<Post>, printed0: seq<string>, text: Option<string>, channel: string)
      reads this
    {
      match text
      case None => posted == posted0 && printed == printed0
      case Some(t) =>
        if debug then printed == printed0 + [t] && posted == posted0
        else posted == posted0 + [Post(channel, BotUsername, t)] && printed == printed0
    }

    /** `SlackBot.new`, with the settings and the files on disk given; every cache starts empty. */
    constructor (channelId: string, members: seq<string>, users: seq<User>, debug: bool, files: map<string, seq<Message>>)
      ensures Valid()
      ensures this.channelId == channelId && this.members == members && this.users == users && this.debug == debug
      ensures this.files == files && history == map[] && parsed == [] && fetches == []
      ensures activities == None && mappedMembers == None
      ensures posted == [] && printed == [] && deleted == []
    {
      this.channelId := channelId;
      this.members := members;
      this.users := users;
      this.debug := debug;
      this.files := files;
      history := map[];
      parsed := [];
      fetches := [];
      activities := None;
      mappedMembers := None;
      posted := [];
      printed := [];
      deleted := [];
    }

    /** `dump_daily_history!`: fetches one day from its local midnight and overwrites the day's file. */
    method DumpDailyHistory(day: Day, api: Api)
      requires Valid()
      modifies this`files, this`fetches
      ensures Valid()
      ensures files == Dumped(old(files), day, api)
      ensures fetches == old(fetches) + [Window(day)]
    {
      var query := Window(day);
      fetches := fetches + [query];
      files := files[day.key := api(query)];
    }

    /**
     * `daily_channels_history`: the day's cached list; on a miss, the day's
     * file, fetched first when it is missing, parsed once and cached.
     */
    method DailyChannelsHistory(day: Day, api: Api) returns (msgs: seq<Message>)
      requires Valid()
      modifies this`files, this`fetches, this`history, this`parsed
      ensures Valid()
      ensures msgs == Snapshot(old(history), old(files), day, api)
      ensures history == old(history)[day.key := msgs]
      ensures parsed == old(parsed) + ParsesOfLoad(old(history), day)
      ensures files == FilesAfterLoad(old(history), old(files), day, api)
      ensures fetches == old(fetches) + FetchesOfLoad(old(history), old(files), day)
    {
      if day.key in history {
        msgs := history[day.key];
        return;
      }
      if day.key !in files {
        DumpDailyHistory(day, api);
      }
      msgs := files[day.key];
      history := history[day.key := msgs];
      parsed := parsed + [day.key];
    }

    /**
     * `users_latest_activities`: re-dumps today's file when asked to, then
     * returns the memoised activity Hash, computing it from today's snapshot
     * the first time.
     */
    method UsersLatestActivities(refresh: bool, today: Day, api: Api) returns (acts: seq<Activity>)
      requires Valid()
      modifies this`files, this`fetches, this`history, this`parsed, this`activities
      ensures Valid()
      ensures activities == Some(acts)
      ensures var dumped := if refresh then Dumped(old(files), today, api) else old(files);
        var dumps := if refresh then [Window(today)] else [];
        if old(activities).Some? then
          && acts == old(activities).value
          && files == dumped && fetches == old(fetches) + dumps
          && history == old(history) && parsed == old(parsed)
        else
          && acts == LatestActivities(members, Snapshot(old(history), dumped, today, api))
          && history == old(history)[today.key := Snapshot(old(history), dumped, today, api)]
          && parsed == old(parsed) + ParsesOfLoad(old(history), today)
          && files == FilesAfterLoad(old(history), dumped, today, api)
          && fetches == old(fetches) + dumps + FetchesOfLoad(old(history), dumped, today)
    {
      if refresh {
        DumpDailyHistory(today, api);
      }
      if activities.Some? {
        acts := activities.value;
        return;
      }
      var msgs := DailyChannelsHistory(today, api);
      acts := CollectActivities(members, msgs);
      LatestActivitiesWellFormed(members, msgs);
      activities := Some(acts);
    }

    /** `post(message, channel:)`. */
    method PostMessage(text: string, channel: string)
      modifies this`posted
      ensures posted == old(posted) + [Post(channel, BotUsername, text)]
    {
      posted := posted + [Post(channel, BotUsername, text)];
    }

    /** `puts` in debug mode, `post` otherwise. */
    method Emit(text: string, channel: string)
      modifies this`posted, this`printed
      ensures Emitted(old(posted), old(printed), Some(text), channel)
    {
      if debug {
        printed := printed + [text];
      } else {
        PostMessage(text, channel);
      }
    }

    /**
     * `check_is_away`: classifies the roster against the activity Hash and
     * emits nothing when no member is away or offline, otherwise one notice,
     * the away lines followed by the offline lines.
     */
    method CheckIsAway(now: int, today: Day, api: Api, dateTime: int -> string)
      requires Valid()
      modifies this`files, this`fetches, this`history, this`parsed, this`activities, this`posted, this`printed
      ensures Valid()
      ensures activities.Some?
      ensures old(activities).Some? ==>
        activities == old(activities) && history == old(history) && files == old(files) && fetches == old(fetches)
      ensures old(activities).None? ==>
        && activities.value == LatestActivities(members, Snapshot(old(history), old(files), today, api))
        && history == old(history)[today.key := Snapshot(old(history), old(files), today, api)]
        && files == FilesAfterLoad(old(history), old(files), today, api)
        && fetches == old(fetches) + FetchesOfLoad(old(history), old(files), today)
      ensures Emitted(old(posted), old(printed), AwayNotice(members, activities.value, now, dateTime), channelId)
    {
      var acts := UsersLatestActivities(false, today, api);
      var away := AwayActivities(acts, now);
      // the Ruby method asks for the (memoised) activities a second time
      ghost var h1, f1, q1 := history, files, fetches;
      var acts2 := UsersLatestActivities(false, today, api);
      assert acts2 == acts && history == h1 && files == f1 && fetches == q1;
      var offline := OfflineMembers(members, acts2);
      if !(|away| > 0 || |offline| > 0) {
        return;
      }
      var awayMsg := Join(AwayLines(away, dateTime), "\n");
      var offlineMsg := Join(OfflineLines(offline), "\n");
      Emit(awayMsg + offlineMsg, channelId);
    }

    /** `mapped_members`: the memoised id-to-name table built from the user list. */
    method MappedMembers() returns (table: NameTable)
      requires Valid()
      modifies this`mappedMembers
      ensures Valid()
      ensures table == NameTableOf(users) && mappedMembers == Some(table)
    {
      if mappedMembers.None? {
        var t := BuildNameTable(users);
        mappedMembers := Some(t);
      }
      table := mappedMembers.value;
    }

    /** `format_text_for_report`: every mention of a listed user replaced by their name. */
    method FormatTextForReport(text: string) returns (r: string)
      requires Valid()
      modifies this`mappedMembers
      ensures Valid()
      ensures mappedMembers == Some(NameTableOf(users))
      ensures r == FormatWith(NameTableOf(users), text)
    {
      var table := MappedMembers();
      r := FormatText(table, text);
    }

    /**
     * `reports(user, day:)`: the user's marked messages of the day, oldest
     * first, one line each under a header with their nickname (`None` where
     * `nickname` raises). Formatting rewrites the texts of those messages in
     * the cached snapshot.
     */
    method Reports(user: string, day: Day, api: Api, hourMinute: int -> string) returns (r: Option<string>)
      requires Valid()
      modifies this`files, this`fetches, this`history, this`parsed, this`mappedMembers
      ensures Valid()
      ensures var loaded := Snapshot(old(history), old(files), day, api);
        && r == Report(loaded, user, day, users, hourMinute)
        && history == old(history)[day.key := MarkFormatted(loaded, user, day.start, NameTableOf(users))]
        && mappedMembers == (if ReportEntries(loaded, user, day.start) == [] then old(mappedMembers) else Some(NameTableOf(users)))
      ensures parsed == old(parsed) + ParsesOfLoad(old(history), day)
      ensures files == FilesAfterLoad(old(history), old(files), day, api)
      ensures fetches == old(fetches) + FetchesOfLoad(old(history), old(files), day)
    {
      ghost var cache := history;
      var msgs := DailyChannelsHistory(day, api);
      r := RenderReport(msgs, user, day, hourMinute);
      UpdateTwice(cache, day.key, msgs, MarkFormatted(msgs, user, day.start, NameTableOf(users)));
    }

    /** The body of `reports` once the day's list is loaded and cached. */
    method RenderReport(msgs: seq<Message>, user: string, day: Day, hourMinute: int -> string) returns (r: Option<string>)
      requires Valid() && day.key in history && history[day.key] == msgs
      modifies this`history, this`mappedMembers
      ensures Valid()
      ensures r == Report(msgs, user, day, users, hourMinute)
      ensures history == old(history)[day.key := MarkFormatted(msgs, user, day.start, NameTableOf(users))]
      ensures mappedMembers == (if ReportEntries(msgs, user, day.start) == [] then old(mappedMembers) else Some(NameTableOf(users)))
    {
      var entries := ReportEntries(msgs, user, day.start);
      var lines := FormatEntries(Reverse(entries), hourMinute);
      assert Reverse(entries) == [] <==> entries == [];
      // the gsub! calls of FormatEntries rewrote these texts inside the cached list
      RewriteEntries(day.key, msgs, user, day.start);
      var report := Join(lines, "\n");
      assert report == ReportBody(msgs, user, day.start, NameTableOf(users), hourMinute);
      var nick := Nickname(users, user);
      if nick.None? {
        r := None;
      } else {
        r := Some(ReportText(nick.value, day.key, report));
      }
    }

    /**
     * The effect of `format_text_for_report`'s `gsub!` on the cached list:
     * each report entry's text, the very String the cache holds, rewritten.
     */
    method RewriteEntries(key: string, msgs: seq<Message>, user: string, start: int)
      requires Valid() && key in history && history[key] == msgs
      requires ReportEntries(msgs, user, start) != [] ==> mappedMembers.Some?
      modifies this`history
      ensures Valid()
      ensures history == old(history)[key := MarkFormatted(msgs, user, start, NameTableOf(users))]
    {
      if ReportEntries(msgs, user, start) != [] {
        history := history[key := MarkFormatted(msgs, user, start, mappedMembers.value)];
      } else {
        NoEntriesNothingRewritten(msgs, user, start, NameTableOf(users));
      }
    }

    /** The `map` of `reports`: one `[HH:MM] text` line per entry, formatting each text. */
    method FormatEntries(chrono: seq<Message>, hourMinute: int -> string) returns (lines: seq<string>)
      requires Valid()
      modifies this`mappedMembers
      ensures Valid()
      ensures lines == ReportLines(chrono, NameTableOf(users), hourMinute)
      ensures mappedMembers == if chrono == [] then old(mappedMembers) else Some(NameTableOf(users))
    {
      lines := [];
      var i := 0;
      while i < |chrono|
        invariant 0 <= i <= |chrono|
        invariant Valid()
        invariant lines == ReportLines(chrono[..i], NameTableOf(users), hourMinute)
        invariant mappedMembers == if i == 0 then old(mappedMembers) else Some(NameTableOf(users))
      {
        var text := FormatTextForReport(chrono[i].text);
        assert chrono[..i + 1] == chrono[..i] + [chrono[i]];
        ReportLinesAppend(chrono[..i], chrono[i], NameTableOf(users), hourMinute);
        lines := lines + ["[" + hourMinute(chrono[i].ts) + "] " + text];
        i := i + 1;
      }
      assert chrono[..|chrono|] == chrono;
    }

    /**
     * `send_reports(day:, channel:)`: re-dumps the day, then emits every
     * member's report joined by the separator line, once; nothing is emitted
     * when some member's nickname is missing (`ok` is false where Ruby raises).
     */
    method SendReports(day: Day, channel: string, api: Api, hourMinute: int -> string) returns (ok: bool)
      requires Valid()
      modifies this`files, this`fetches, this`history, this`parsed, this`mappedMembers, this`posted, this`printed
      ensures Valid()
      ensures files == Dumped(old(files), day, api)
      ensures fetches == old(fetches) + [Window(day)]
      ensures var loaded := Snapshot(old(history), Dumped(old(files), day, api), day, api);
        var reports := ReportsInOrder(members, loaded, day, users, hourMinute);
        && ok == reports.Some?
        && Emitted(old(posted), old(printed), if ok then Some(Join(reports.value, ReportSeparator)) else None, channel)
      ensures var loaded := Snapshot(old(history), Dumped(old(files), day, api), day, api);
        && history == (if |members| == 0 then old(history) else old(history)[day.key := CacheAfterReports(members, loaded, day.start, users)])
        && parsed == (if |members| == 0 then old(parsed) else old(parsed) + ParsesOfLoad(old(history), day))
        && mappedMembers == (if TableBuiltBy(members, loaded, day.start, users) then Some(NameTableOf(users)) else old(mappedMembers))
    {
      DumpDailyHistory(day, api);
      var reports := CollectReports(day, api, hourMinute);
      if reports.None? {
        ok := false;
        return;
      }
      var msg := Join(reports.value, ReportSeparator);
      Emit(msg, channel);
      ok := true;
    }

    /**
     * `members.map { |m| reports(m, day: day) }` once the day's file exists;
     * `None` where a `reports` call raises.
     */
    method CollectReports(day: Day, api: Api, hourMinute: int -> string) returns (reports: Option<seq<string>>)
      requires Valid() && day.key in files
      modifies this`files, this`fetches, this`history, this`parsed, this`mappedMembers
      ensures Valid()
      ensures files == old(files) && fetches == old(fetches)
      ensures reports == ReportsInOrder(members, Snapshot(old(history), old(files), day, api), day, users, hourMinute)
      ensures var loaded := Snapshot(old(history), old(files), day, api);
        && history == (if |members| == 0 then old(history) else old(history)[day.key := CacheAfterReports(members, loaded, day.start, users)])
        && parsed == (if |members| == 0 then old(parsed) else old(parsed) + ParsesOfLoad(old(history), day))
        && mappedMembers == (if TableBuiltBy(members, loaded, day.start, users) then Some(NameTableOf(users)) else old(mappedMembers))
    {
      var parts: seq<string> := [];
      var i := 0;
      ghost var built := false;
      ReachedStart(members, users, day, api, hourMinute, files, history, parsed, mappedMembers);
      while i < |members|
        invariant i <= |members|
        invariant Valid()
        invariant files == old(files) && fetches == old(fetches)
        invariant Reached(members, users, i, day, api, hourMinute, files, old(history), old(parsed), old(mappedMembers),
                          parts, built, history, parsed, mappedMembers)
      {
        var r;
        r, built := ReportStep(i, day, api, hourMinute, old(history), old(parsed), old(mappedMembers), parts, built);
        if r.None? {
          return None;
        }
        parts := parts + [r.value];
        i := i + 1;
      }
      RosterDone(members, users, day, api, hourMinute, files, old(history), old(parsed), old(mappedMembers),
                 parts, built, history, parsed, mappedMembers);
      reports := Some(parts);
    }

    /**
     * One `reports` call of `send_reports`' `map`, for the member at `i`: the
     * day's file exists, so nothing is fetched; the cached list is loaded if
     * needed and the member's entries are rewritten.
     */
    method ReportStep(i: nat, day: Day, api: Api, hourMinute: int -> string,
                      ghost h0: map<string, seq<Message>>, ghost p0: seq<string>, ghost m0: Option<NameTable>,
                      ghost parts: seq<string>, ghost built: bool)
      returns (r: Option<string>, ghost built': bool)
      requires Valid() && day.key in files && i < |members|
      requires Reached(members, users, i, day, api, hourMinute, files, h0, p0, m0, parts, built, history, parsed, mappedMembers)
      modifies this`files, this`fetches, this`history, this`parsed, this`mappedMembers
      ensures Valid() && files == old(files) && fetches == old(fetches)
      ensures r.None? ==>
        && ReportsInOrder(members, Snapshot(h0, files, day, api), day, users, hourMinute) == None
        && Settled(members, users, day, api, files, h0, p0, m0, history, parsed, mappedMembers)
      ensures r.Some? ==>
        Reached(members, users, i + 1, day, api, hourMinute, files, h0, p0, m0, parts + [r.value], built', history, parsed, mappedMembers)
    {
      ghost var now := Snapshot(history, files, day, api);
      ghost var h, p, m := history, parsed, mappedMembers;
      r := Reports(members[i], day, api, hourMinute);
      built' := built || ReportEntries(now, members[i], day.start) != [];
      ReachedStep(members, users, i, day, api, hourMinute, files, h0, p0, m0, parts, built, h, p, m, r, history, parsed, mappedMembers);
    }

    /** `delete(ts)`. */
    method Delete(ts: int)
      modifies this`deleted
      ensures deleted == old(deleted) + [ts]
    {
      deleted := deleted + [ts];
    }

    /**
     * `clean_bot_notice(day)`: re-dumps the day, reads its file (not the
     * cache) and deletes every stale bot notice in it, in file order.
     */
    method CleanBotNotice(day: Day, api: Api)
      requires Valid()
      modifies this`files, this`fetches, this`deleted
      ensures Valid()
      ensures files == Dumped(old(files), day, api)
      ensures fetches == old(fetches) + [Window(day)]
      ensures deleted == old(deleted) + StaleTimestamps(api(Window(day)))
    {
      DumpDailyHistory(day, api);
      DeleteStale(files[day.key]);
    }

    /** The `each` loop of `clean_bot_notice`: one delete per stale notice, in list order. */
    method DeleteStale(data: seq<Message>)
      modifies this`deleted
      ensures deleted == old(deleted) + StaleTimestamps(data)
    {
      var i := 0;
      while i < |data|
        invariant 0 <= i <= |data|
        invariant deleted == old(deleted) + StaleTimestamps(data[..i])
      {
        assert data[..i + 1][..i] == data[..i];
        if IsStaleNotice(data[i]) {
          Delete(data[i].ts);
        }
        i := i + 1;
      }
      assert data[..|data|] == data;
    }
  }
}
