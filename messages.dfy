/**
 * The values the bot reads from and sends to the chat platform.
 */
module Messages {

  datatype Option<+T> = None | Some(value: T)

  /**
   * One entry of a day's channel history: author id, text, timestamp and the
   * optional `subtype` (`bot_message` for posts made through the bot token).
   * The platform sends the timestamp as a decimal string ("1500000000.000100").
   * `ts` holds its `to_i`, the whole seconds, which is what the time
   * comparisons and formatting use; `delete` receives the whole seconds too.
   */
  datatype Message = Message(user: string, text: string, ts: int, subtype: Option<string>)

  /**
   * A calendar day: `key` is its `strftime` form (`%Y-%m-%d`), which names the
   * snapshot file and the in-memory cache entry; `start` is `to_time.to_i`,
   * the epoch second of its local midnight.
   */
  datatype Day = Day(key: string, start: int)

  /** The query of a `channels.history` call. */
  datatype HistoryRequest = HistoryRequest(oldest: int, latest: int, count: nat)

  /** The remote channel history at the time of a call: the messages it returns for a query. */
  type Api = HistoryRequest -> seq<Message>

  /** An entry of the cached user list (`users_list[:members]`). */
  datatype User = User(id: string, name: string)

  /** A `chat.postMessage` call. */
  datatype Post = Post(channel: string, username: string, text: string)

  const SecondsPerDay := 86400
  const HistoryCount := 1000
  /** The display name every post is made under. */
  const BotUsername := "動態機器人"

  /** `dump_daily_history!`'s query: one day from local midnight, at most 1000 messages. */
  function Window(day: Day): (q: HistoryRequest)
    ensures q.oldest == day.start && q.latest - q.oldest == SecondsPerDay
    ensures q.count == HistoryCount
  {
    HistoryRequest(day.start, day.start + SecondsPerDay, HistoryCount)
  }
}
