/**
 * `bin/refresh_today_history.rb`: on working hours of working days, a new
 * bot re-dumps today's snapshot and then runs the away check.
 */
module RefreshToday {
  import opened Messages
  import opened Activities
  import opened Bot
  import opened DailyHistory

  /** The gate: Monday (1) to Friday (5), hours 10 to 18, both ends included. */
  predicate ShouldRun(wday: int, hour: int)
  {
    1 <= wday <= 5 && 10 <= hour <= 18
  }

  /** The gate's edges: weekends and hours outside 10..18 never run; the boundary days and hours do. */
  lemma GateBoundaries(wday: int, hour: int)
    ensures !ShouldRun(0, hour) && !ShouldRun(6, hour)
    ensures !ShouldRun(wday, 9) && !ShouldRun(wday, 19)
    ensures ShouldRun(1, 10) && ShouldRun(5, 18)
  {
  }

  /** What the away check posts: nothing, or its one notice to the configured channel. */
  function NoticePosts(channelId: string, notice: Option<string>): (ps: seq<Post>)
    ensures |ps| == if notice.Some? then 1 else 0
    ensures forall p :: p in ps ==> p.channel == channelId && p.username == BotUsername && notice == Some(p.text)
  {
    if notice.None? then [] else [Post(channelId, BotUsername, notice.value)]
  }

  /**
   * The script. `bot` is null when the gate stops it; otherwise it is the
   * bot after the run: today's file holds the freshly fetched list, the
   * activities come from that list, and the posts are the away check's.
   */
  method RefreshTodayHistory(wday: int, hour: int, today: Day, now: int, api: Api, dateTime: int -> string,
                             channelId: string, members: seq<string>, users: seq<User>, disk: map<string, seq<Message>>)
    returns (bot: SlackBot?)
    ensures bot == null <==> !ShouldRun(wday, hour)
    ensures bot != null ==>
      && fresh(bot) && bot.Valid()
      && bot.files == Dumped(disk, today, api)
      && bot.fetches == [Window(today)]
      && bot.activities == Some(LatestActivities(members, api(Window(today))))
      && bot.posted == NoticePosts(channelId, AwayNotice(members, LatestActivities(members, api(Window(today))), now, dateTime))
      && bot.printed == [] && bot.deleted == []
  {
    if !(wday >= 1 && wday <= 5) {
      return null;
    }
    if !(hour >= 10 && hour <= 18) {
      return null;
    }
    bot := new SlackBot(channelId, members, users, false, disk);
    bot.DumpDailyHistory(today, api);
    ghost var fetched := api(Window(today));
    LoadAfterDump(bot.history, bot.files, today, api);
    bot.CheckIsAway(now, today, api, dateTime);
    ghost var acts := LatestActivities(members, fetched);
    assert bot.activities == Some(acts);
    assert bot.posted == NoticePosts(channelId, AwayNotice(members, acts, now, dateTime));
  }
}
