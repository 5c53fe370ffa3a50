/**
 * Stale-notice selection of `SlackBot#clean_bot_notice`: the bot's own
 * away and offline reminders found in a day's snapshot.
 */
module Notices {
  import opened Messages
  import opened Text
  import opened Activities

  /** The `subtype` of a message posted through the bot token. */
  const BotMessage := "bot_message"

  /** A bot message whose text carries the away or the offline marker. */
  predicate IsStaleNotice(m: Message)
  {
    m.subtype == Some(BotMessage) && (Contains(m.text, AwayMarker) || Contains(m.text, OfflineMarker))
  }

  /** The timestamps `clean_bot_notice` passes to `delete`, in snapshot order. */
  function StaleTimestamps(data: seq<Message>): (ts: seq<int>)
    ensures forall t :: t in ts <==> exists m :: m in data && IsStaleNotice(m) && m.ts == t
    ensures |ts| <= |data|
  {
    if |data| == 0 then []
    else
      var init := data[..|data| - 1];
      var m := data[|data| - 1];
      assert forall x :: x in data <==> x in init || x == m;
      StaleTimestamps(init) + (if IsStaleNotice(m) then [m.ts] else [])
  }

  /**
   * One delete per stale notice, in file order: the timestamps of a
   * concatenation are those of each part, in order.
   */
  lemma {:induction false} StaleTimestampsAppend(a: seq<Message>, b: seq<Message>)
    ensures StaleTimestamps(a + b) == StaleTimestamps(a) + StaleTimestamps(b)
  {
    if |b| == 0 {
      assert a + b == a;
    } else {
      var init := b[..|b| - 1];
      assert (a + b)[..|a + b| - 1] == a + init;
      StaleTimestampsAppend(a, init);
    }
  }

  /**
   * Every notice `check_is_away` posts is, once it shows up in the history
   * as a bot message, selected by `clean_bot_notice`.
   */
  lemma OwnNoticeIsStale(members: seq<string>, acts: seq<Activity>, now: int, dateTime: int -> string, user: string, ts: int)
    requires AwayNotice(members, acts, now, dateTime).Some?
    ensures IsStaleNotice(Message(user, AwayNotice(members, acts, now, dateTime).value, ts, Some(BotMessage)))
  {
    AwayNoticeHasMarker(members, acts, now, dateTime);
  }
}
