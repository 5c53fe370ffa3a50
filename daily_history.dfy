/**
 * The day's message list as `daily_channels_history` caches and loads it,
 * and the state `send_reports`' `map` of `reports` calls leaves behind.
 */
module DailyHistory {
  import opened Messages
  import opened Text
  import opened Reports

  /** What `daily_channels_history(day)` returns: the cached list, else the file, else the fetched list. */
  function Snapshot(history: map<string, seq<Message>>, files: map<string, seq<Message>>, day: Day, api: Api): seq<Message>
  {
    if day.key in history then history[day.key]
    else if day.key in files then files[day.key]
    else api(Window(day))
  }

  /** Whether `daily_channels_history(day)` calls `dump_daily_history!`: only when neither cache nor file has the day. */
  predicate LoadFetches(history: map<string, seq<Message>>, files: map<string, seq<Message>>, day: Day)
  {
    day.key !in history && day.key !in files
  }

  /** The files after `dump_daily_history!(day)`: the day's file overwritten with the fetched list. */
  function Dumped(files: map<string, seq<Message>>, day: Day, api: Api): map<string, seq<Message>>
  {
    files[day.key := api(Window(day))]
  }

  /** The files after `daily_channels_history(day)`. */
  function FilesAfterLoad(history: map<string, seq<Message>>, files: map<string, seq<Message>>, day: Day, api: Api): map<string, seq<Message>>
  {
    if LoadFetches(history, files, day) then Dumped(files, day, api) else files
  }

  /** The queries `daily_channels_history(day)` makes: one, or none. */
  function FetchesOfLoad(history: map<string, seq<Message>>, files: map<string, seq<Message>>, day: Day): seq<HistoryRequest>
  {
    if LoadFetches(history, files, day) then [Window(day)] else []
  }

  /** The day keys `daily_channels_history(day)` parses: the day's, on a cache miss. */
  function ParsesOfLoad(history: map<string, seq<Message>>, day: Day): seq<string>
  {
    if day.key in history then [] else [day.key]
  }

  /** Loading a day whose file exists and is not cached reads the file and fetches nothing. */
  lemma LoadAfterDump(history: map<string, seq<Message>>, files: map<string, seq<Message>>, day: Day, api: Api)
    requires day.key !in history && day.key in files
    ensures Snapshot(history, files, day, api) == files[day.key]
    ensures FilesAfterLoad(history, files, day, api) == files
    ensures FetchesOfLoad(history, files, day) == []
  {
  }

  lemma UpdateTwice<K, V>(m: map<K, V>, k: K, v: V, w: V)
    ensures m[k := v][k := w] == m[k := w]
  {
  }

  /**
   * The day's cached list after `reports` ran for `members` in turn: each
   * member's entries rewritten by `gsub!`, up to and including the first
   * member whose `nickname` raises.
   */
  function CacheAfterReports(members: seq<string>, msgs: seq<Message>, start: int, users: seq<User>): (r: seq<Message>)
    ensures |r| == |msgs|
    ensures forall i :: 0 <= i < |msgs| ==> r[i].user == msgs[i].user && r[i].ts == msgs[i].ts
    ensures forall i :: 0 <= i < |msgs| && msgs[i].user !in members ==> r[i] == msgs[i]
    decreases |members|
  {
    if |members| == 0 then msgs
    else
      var next := MarkFormatted(msgs, members[0], start, NameTableOf(users));
      if Nickname(users, members[0]).None? then next
      else CacheAfterReports(members[1..], next, start, users)
  }

  /**
   * Whether those `reports` calls built `mapped_members`: some processed
   * member had an entry to format.
   */
  function TableBuiltBy(members: seq<string>, msgs: seq<Message>, start: int, users: seq<User>): bool
    decreases |members|
  {
    && |members| > 0
    && (|| ReportEntries(msgs, members[0], start) != []
        || (&& Nickname(users, members[0]).Some?
            && TableBuiltBy(members[1..], MarkFormatted(msgs, members[0], start, NameTableOf(users)), start, users)))
  }

  /**
   * One step of the two folds over the roster suffix starting at `i`: what
   * is left to fold after member `i`'s rewrite, or nothing when their
   * `nickname` raises.
   */
  lemma AfterReportsStep(members: seq<string>, i: nat, msgs: seq<Message>, start: int, users: seq<User>,
                         cache: seq<Message>, built: bool, target: bool)
    requires i < |members|
    requires CacheAfterReports(members[i..], msgs, start, users) == cache
    requires (built || TableBuiltBy(members[i..], msgs, start, users)) == target
    ensures var next := MarkFormatted(msgs, members[i], start, NameTableOf(users));
      var built' := built || ReportEntries(msgs, members[i], start) != [];
      if Nickname(users, members[i]).None? then next == cache && built' == target
      else (CacheAfterReports(members[i + 1..], next, start, users) == cache &&
            (built' || TableBuiltBy(members[i + 1..], next, start, users)) == target)
  {
    assert members[i..][1..] == members[i + 1..];
  }

  /**
   * The state of `send_reports`' `map` after the first `i` members, from the
   * cache `h0`, parse log `p0` and name table `m0` it started with: `parts`
   * are their reports, the cache holds the day's list rewritten for them
   * (once loaded), and `built` says whether one of them built the name
   * table. What the remaining members would do then completes the whole
   * roster's reports and rewrites.
   */
  ghost predicate Progress(members: seq<string>, users: seq<User>, i: nat, day: Day, api: Api, hourMinute: int -> string,
                           files: map<string, seq<Message>>, h0: map<string, seq<Message>>, p0: seq<string>, m0: Option<NameTable>,
                           parts: seq<string>, built: bool,
                           history: map<string, seq<Message>>, parsed: seq<string>, mapped: Option<NameTable>)
  {
    && i <= |members|
    && var loaded := Snapshot(h0, files, day, api);
       var now := Snapshot(history, files, day, api);
       && ReportsInOrder(members, loaded, day, users, hourMinute) == Prepend(parts, ReportsInOrder(members[i..], now, day, users, hourMinute))
       && history == (if i == 0 then h0 else h0[day.key := now])
       && parsed == (if i == 0 then p0 else p0 + ParsesOfLoad(h0, day))
       && CacheAfterReports(members[i..], now, day.start, users) == CacheAfterReports(members, loaded, day.start, users)
       && (built || TableBuiltBy(members[i..], now, day.start, users)) == TableBuiltBy(members, loaded, day.start, users)
       && mapped == (if built then Some(NameTableOf(users)) else m0)
  }

  /**
   * The cache, parse log and name table once `send_reports`' `map` has
   * ended, normally or with the first missing nickname.
   */
  ghost predicate Settled(members: seq<string>, users: seq<User>, day: Day, api: Api,
                          files: map<string, seq<Message>>, h0: map<string, seq<Message>>, p0: seq<string>, m0: Option<NameTable>,
                          history: map<string, seq<Message>>, parsed: seq<string>, mapped: Option<NameTable>)
  {
    var loaded := Snapshot(h0, files, day, api);
    && history == (if |members| == 0 then h0 else h0[day.key := CacheAfterReports(members, loaded, day.start, users)])
    && parsed == (if |members| == 0 then p0 else p0 + ParsesOfLoad(h0, day))
    && mapped == (if TableBuiltBy(members, loaded, day.start, users) then Some(NameTableOf(users)) else m0)
  }

  lemma ProgressStart(members: seq<string>, users: seq<User>, day: Day, api: Api, hourMinute: int -> string,
                      files: map<string, seq<Message>>, h0: map<string, seq<Message>>, p0: seq<string>, m0: Option<NameTable>)
    ensures Progress(members, users, 0, day, api, hourMinute, files, h0, p0, m0, [], false, h0, p0, m0)
  {
    assert members[0..] == members;
    var all := ReportsInOrder(members, Snapshot(h0, files, day, api), day, users, hourMinute);
    if all.Some? {
      assert [] + all.value == all.value;
    }
  }

  /** One `reports` call, as `SlackBot.Reports` states it, moves the map on by one member or ends it. */
  lemma ProgressStep(members: seq<string>, users: seq<User>, i: nat, day: Day, api: Api, hourMinute: int -> string,
                     files: map<string, seq<Message>>, h0: map<string, seq<Message>>, p0: seq<string>, m0: Option<NameTable>,
                     parts: seq<string>, built: bool,
                     history: map<string, seq<Message>>, parsed: seq<string>, mapped: Option<NameTable>,
                     r: Option<string>, history': map<string, seq<Message>>, parsed': seq<string>, mapped': Option<NameTable>)
    requires Progress(members, users, i, day, api, hourMinute, files, h0, p0, m0, parts, built, history, parsed, mapped)
    requires i < |members|
    requires var now := Snapshot(history, files, day, api);
      && r == Report(now, members[i], day, users, hourMinute)
      && history' == history[day.key := MarkFormatted(now, members[i], day.start, NameTableOf(users))]
      && parsed' == parsed + ParsesOfLoad(history, day)
      && mapped' == (if ReportEntries(now, members[i], day.start) == [] then mapped else Some(NameTableOf(users)))
    ensures r.None? ==>
      && ReportsInOrder(members, Snapshot(h0, files, day, api), day, users, hourMinute) == None
      && Settled(members, users, day, api, files, h0, p0, m0, history', parsed', mapped')
    ensures r.Some? ==>
      var built' := built || ReportEntries(Snapshot(history, files, day, api), members[i], day.start) != [];
      Progress(members, users, i + 1, day, api, hourMinute, files, h0, p0, m0, parts + [r.value], built', history', parsed', mapped')
  {
    var loaded := Snapshot(h0, files, day, api);
    var now := Snapshot(history, files, day, api);
    var next := MarkFormatted(now, members[i], day.start, NameTableOf(users));
    var cache := CacheAfterReports(members, loaded, day.start, users);
    var target := TableBuiltBy(members, loaded, day.start, users);
    ReportsInOrderStep(members, i, now, r, day, users, hourMinute);
    AfterReportsStep(members, i, now, day.start, users, cache, built, target);
    assert Snapshot(history', files, day, api) == next;
    if i > 0 {
      UpdateTwice(h0, day.key, now, next);
      assert p0 + ParsesOfLoad(h0, day) + [] == p0 + ParsesOfLoad(h0, day);
    }
    if r.Some? {
      PrependAssoc(parts, r.value, ReportsInOrder(members[i + 1..], next, day, users, hourMinute));
    }
  }

  /** The map over the whole roster yields every report and the settled state. */
  lemma ProgressDone(members: seq<string>, users: seq<User>, day: Day, api: Api, hourMinute: int -> string,
                     files: map<string, seq<Message>>, h0: map<string, seq<Message>>, p0: seq<string>, m0: Option<NameTable>,
                     parts: seq<string>, built: bool,
                     history: map<string, seq<Message>>, parsed: seq<string>, mapped: Option<NameTable>)
    requires Progress(members, users, |members|, day, api, hourMinute, files, h0, p0, m0, parts, built, history, parsed, mapped)
    ensures ReportsInOrder(members, Snapshot(h0, files, day, api), day, users, hourMinute) == Some(parts)
    ensures Settled(members, users, day, api, files, h0, p0, m0, history, parsed, mapped)
  {
    assert members[|members|..] == [];
    assert parts + [] == parts;
  }

  /** What `send_reports`' `map` has produced and left in the cache after some of its `reports` calls. */
  datatype RosterState = RosterState(parts: seq<string>, history: map<string, seq<Message>>, parsed: seq<string>,
                                     mapped: Option<NameTable>, built: bool)

  /**
   * The state after `reports` ran for the first `i` members, one call at a
   * time from the cache `h0`, parse log `p0` and name table `m0`; `None`
   * once a call has raised.
   */
  ghost function StateAfter(members: seq<string>, users: seq<User>, i: nat, day: Day, api: Api, hourMinute: int -> string,
                            files: map<string, seq<Message>>, h0: map<string, seq<Message>>, p0: seq<string>, m0: Option<NameTable>)
    : Option<RosterState>
    requires i <= |members|
    decreases i, 0
  {
    if i == 0 then Some(RosterState([], h0, p0, m0, false))
    else StateAfterCall(members, users, i - 1, day, api, hourMinute, files, h0, p0, m0)
  }

  /**
   * The state once the call for the member at `k` has returned. It is a
   * function of its own so that a proof that only passes states along does
   * not have to unfold a call.
   */
  ghost function StateAfterCall(members: seq<string>, users: seq<User>, k: nat, day: Day, api: Api, hourMinute: int -> string,
                                files: map<string, seq<Message>>, h0: map<string, seq<Message>>, p0: seq<string>, m0: Option<NameTable>)
    : Option<RosterState>
    requires k < |members|
    decreases k, 1
  {
    var prev := StateAfter(members, users, k, day, api, hourMinute, files, h0, p0, m0);
    if prev.None? then None
    else
      var st := prev.value;
      var now := Snapshot(st.history, files, day, api);
      var r := Report(now, members[k], day, users, hourMinute);
      var entries := ReportEntries(now, members[k], day.start);
      if r.None? then None
      else Some(RosterState(st.parts + [r.value],
                            st.history[day.key := MarkFormatted(now, members[k], day.start, NameTableOf(users))],
                            st.parsed + ParsesOfLoad(st.history, day),
                            if entries == [] then st.mapped else Some(NameTableOf(users)),
                            st.built || entries != []))
  }

  /** The loop state of `send_reports`' `map` is the state the first `i` calls reach. */
  ghost predicate Reached(members: seq<string>, users: seq<User>, i: nat, day: Day, api: Api, hourMinute: int -> string,
                          files: map<string, seq<Message>>, h0: map<string, seq<Message>>, p0: seq<string>, m0: Option<NameTable>,
                          parts: seq<string>, built: bool,
                          history: map<string, seq<Message>>, parsed: seq<string>, mapped: Option<NameTable>)
  {
    && i <= |members|
    && var st := StateAfter(members, users, i, day, api, hourMinute, files, h0, p0, m0);
       && st.Some?
       && st.value.parts == parts
       && st.value.history == history
       && st.value.parsed == parsed
       && st.value.mapped == mapped
       && st.value.built == built
  }

  /** Before the first call, the map is where it started. */
  lemma ReachedStart(members: seq<string>, users: seq<User>, day: Day, api: Api, hourMinute: int -> string,
                     files: map<string, seq<Message>>, h0: map<string, seq<Message>>, p0: seq<string>, m0: Option<NameTable>)
    ensures Reached(members, users, 0, day, api, hourMinute, files, h0, p0, m0, [], false, h0, p0, m0)
  {
  }

  /** A call that returned: the state before it, and the report and state it produced. */
  lemma CallReturned(members: seq<string>, users: seq<User>, k: nat, day: Day, api: Api, hourMinute: int -> string,
                     files: map<string, seq<Message>>, h0: map<string, seq<Message>>, p0: seq<string>, m0: Option<NameTable>,
                     st: RosterState)
    requires k < |members| && StateAfterCall(members, users, k, day, api, hourMinute, files, h0, p0, m0) == Some(st)
    ensures var prev := StateAfter(members, users, k, day, api, hourMinute, files, h0, p0, m0);
      && prev.Some?
      && var now := Snapshot(prev.value.history, files, day, api);
         var r := Report(now, members[k], day, users, hourMinute);
         var entries := ReportEntries(now, members[k], day.start);
         && r.Some?
         && st.parts == prev.value.parts + [r.value]
         && st.history == prev.value.history[day.key := MarkFormatted(now, members[k], day.start, NameTableOf(users))]
         && st.parsed == prev.value.parsed + ParsesOfLoad(prev.value.history, day)
         && st.mapped == (if entries == [] then prev.value.mapped else Some(NameTableOf(users)))
         && st.built == (prev.value.built || entries != [])
  {
  }

  /** Every state the calls reach satisfies `Progress`. */
  lemma {:induction false} StateAfterProgress(members: seq<string>, users: seq<User>, i: nat, day: Day, api: Api, hourMinute: int -> string,
                                              files: map<string, seq<Message>>, h0: map<string, seq<Message>>, p0: seq<string>, m0: Option<NameTable>,
                                              st: RosterState)
    requires i <= |members| && StateAfter(members, users, i, day, api, hourMinute, files, h0, p0, m0) == Some(st)
    ensures Progress(members, users, i, day, api, hourMinute, files, h0, p0, m0, st.parts, st.built, st.history, st.parsed, st.mapped)
    decreases i
  {
    if i == 0 {
      ProgressStart(members, users, day, api, hourMinute, files, h0, p0, m0);
    } else {
      assert StateAfterCall(members, users, i - 1, day, api, hourMinute, files, h0, p0, m0) == Some(st);
      CallReturned(members, users, i - 1, day, api, hourMinute, files, h0, p0, m0, st);
      var prev := StateAfter(members, users, i - 1, day, api, hourMinute, files, h0, p0, m0).value;
      StateAfterProgress(members, users, i - 1, day, api, hourMinute, files, h0, p0, m0, prev);
      ProgressAfterCall(members, users, i - 1, day, api, hourMinute, files, h0, p0, m0, prev, st);
    }
  }

  /** One `reports` call, as `SlackBot.Reports` states it, reaches the next state or ends the map. */
  lemma ReachedStep(members: seq<string>, users: seq<User>, i: nat, day: Day, api: Api, hourMinute: int -> string,
                    files: map<string, seq<Message>>, h0: map<string, seq<Message>>, p0: seq<string>, m0: Option<NameTable>,
                    parts: seq<string>, built: bool,
                    history: map<string, seq<Message>>, parsed: seq<string>, mapped: Option<NameTable>,
                    r: Option<string>, history': map<string, seq<Message>>, parsed': seq<string>, mapped': Option<NameTable>)
    requires Reached(members, users, i, day, api, hourMinute, files, h0, p0, m0, parts, built, history, parsed, mapped)
    requires i < |members|
    requires var now := Snapshot(history, files, day, api);
      && r == Report(now, members[i], day, users, hourMinute)
      && history' == history[day.key := MarkFormatted(now, members[i], day.start, NameTableOf(users))]
      && parsed' == parsed + ParsesOfLoad(history, day)
      && mapped' == (if ReportEntries(now, members[i], day.start) == [] then mapped else Some(NameTableOf(users)))
    ensures r.None? ==>
      && ReportsInOrder(members, Snapshot(h0, files, day, api), day, users, hourMinute) == None
      && Settled(members, users, day, api, files, h0, p0, m0, history', parsed', mapped')
    ensures r.Some? ==>
      var built' := built || ReportEntries(Snapshot(history, files, day, api), members[i], day.start) != [];
      Reached(members, users, i + 1, day, api, hourMinute, files, h0, p0, m0, parts + [r.value], built', history', parsed', mapped')
  {
    if r.None? {
      ReachedStop(members, users, i, day, api, hourMinute, files, h0, p0, m0, parts, built, history, parsed, mapped, r, history', parsed', mapped');
    } else {
      ReachedNext(members, users, i, day, api, hourMinute, files, h0, p0, m0, parts, built, history, parsed, mapped, r, history', parsed', mapped');
    }
  }

  /** A call that raises ends the map with the settled state. */
  lemma ReachedStop(members: seq<string>, users: seq<User>, i: nat, day: Day, api: Api, hourMinute: int -> string,
                    files: map<string, seq<Message>>, h0: map<string, seq<Message>>, p0: seq<string>, m0: Option<NameTable>,
                    parts: seq<string>, built: bool,
                    history: map<string, seq<Message>>, parsed: seq<string>, mapped: Option<NameTable>,
                    r: Option<string>, history': map<string, seq<Message>>, parsed': seq<string>, mapped': Option<NameTable>)
    requires Reached(members, users, i, day, api, hourMinute, files, h0, p0, m0, parts, built, history, parsed, mapped)
    requires i < |members|
    requires var now := Snapshot(history, files, day, api);
      && r == Report(now, members[i], day, users, hourMinute)
      && history' == history[day.key := MarkFormatted(now, members[i], day.start, NameTableOf(users))]
      && parsed' == parsed + ParsesOfLoad(history, day)
      && mapped' == (if ReportEntries(now, members[i], day.start) == [] then mapped else Some(NameTableOf(users)))
    requires r.None?
    ensures ReportsInOrder(members, Snapshot(h0, files, day, api), day, users, hourMinute) == None
    ensures Settled(members, users, day, api, files, h0, p0, m0, history', parsed', mapped')
  {
    StateAfterProgress(members, users, i, day, api, hourMinute, files, h0, p0, m0, RosterState(parts, history, parsed, mapped, built));
    ProgressStep(members, users, i, day, api, hourMinute, files, h0, p0, m0, parts, built, history, parsed, mapped, r, history', parsed', mapped');
  }

  /** A call that returns a report reaches the state after it. */
  lemma ReachedNext(members: seq<string>, users: seq<User>, i: nat, day: Day, api: Api, hourMinute: int -> string,
                    files: map<string, seq<Message>>, h0: map<string, seq<Message>>, p0: seq<string>, m0: Option<NameTable>,
                    parts: seq<string>, built: bool,
                    history: map<string, seq<Message>>, parsed: seq<string>, mapped: Option<NameTable>,
                    r: Option<string>, history': map<string, seq<Message>>, parsed': seq<string>, mapped': Option<NameTable>)
    requires Reached(members, users, i, day, api, hourMinute, files, h0, p0, m0, parts, built, history, parsed, mapped)
    requires i < |members|
    requires var now := Snapshot(history, files, day, api);
      && r == Report(now, members[i], day, users, hourMinute)
      && history' == history[day.key := MarkFormatted(now, members[i], day.start, NameTableOf(users))]
      && parsed' == parsed + ParsesOfLoad(history, day)
      && mapped' == (if ReportEntries(now, members[i], day.start) == [] then mapped else Some(NameTableOf(users)))
    requires r.Some?
    ensures
      var built' := built || ReportEntries(Snapshot(history, files, day, api), members[i], day.start) != [];
      Reached(members, users, i + 1, day, api, hourMinute, files, h0, p0, m0, parts + [r.value], built', history', parsed', mapped')
  {
    assert StateAfter(members, users, i + 1, day, api, hourMinute, files, h0, p0, m0)
      == StateAfterCall(members, users, i, day, api, hourMinute, files, h0, p0, m0);
  }

  /** `ProgressStep` for a call that returned, as `StateAfterCall` records it. */
  lemma ProgressAfterCall(members: seq<string>, users: seq<User>, k: nat, day: Day, api: Api, hourMinute: int -> string,
                          files: map<string, seq<Message>>, h0: map<string, seq<Message>>, p0: seq<string>, m0: Option<NameTable>,
                          prev: RosterState, st: RosterState)
    requires k < |members|
    requires Progress(members, users, k, day, api, hourMinute, files, h0, p0, m0, prev.parts, prev.built, prev.history, prev.parsed, prev.mapped)
    requires StateAfter(members, users, k, day, api, hourMinute, files, h0, p0, m0) == Some(prev)
    requires StateAfterCall(members, users, k, day, api, hourMinute, files, h0, p0, m0) == Some(st)
    ensures Progress(members, users, k + 1, day, api, hourMinute, files, h0, p0, m0, st.parts, st.built, st.history, st.parsed, st.mapped)
  {
    CallReturned(members, users, k, day, api, hourMinute, files, h0, p0, m0, st);
    var now := Snapshot(prev.history, files, day, api);
    ProgressStep(members, users, k, day, api, hourMinute, files, h0, p0, m0, prev.parts, prev.built,
                 prev.history, prev.parsed, prev.mapped, Report(now, members[k], day, users, hourMinute),
                 st.history, st.parsed, st.mapped);
  }

  /** Once every member's call has returned, the reports and the settled state. */
  lemma RosterDone(members: seq<string>, users: seq<User>, day: Day, api: Api, hourMinute: int -> string,
                   files: map<string, seq<Message>>, h0: map<string, seq<Message>>, p0: seq<string>, m0: Option<NameTable>,
                   parts: seq<string>, built: bool,
                   history: map<string, seq<Message>>, parsed: seq<string>, mapped: Option<NameTable>)
    requires Reached(members, users, |members|, day, api, hourMinute, files, h0, p0, m0, parts, built, history, parsed, mapped)
    ensures ReportsInOrder(members, Snapshot(h0, files, day, api), day, users, hourMinute) == Some(parts)
    ensures Settled(members, users, day, api, files, h0, p0, m0, history, parsed, mapped)
  {
    var st := StateAfter(members, users, |members|, day, api, hourMinute, files, h0, p0, m0).value;
    StateAfterProgress(members, users, |members|, day, api, hourMinute, files, h0, p0, m0, st);
    ProgressDone(members, users, day, api, hourMinute, files, h0, p0, m0, parts, built, history, parsed, mapped);
  }

  /** `parts` in front of the remaining reports, if all of them exist. */
  function Prepend(parts: seq<string>, rest: Option<seq<string>>): Option<seq<string>>
  {
    if rest.None? then None else Some(parts + rest.value)
  }

  /** One step of `ReportsInOrder` over the roster suffix starting at `i`. */
  lemma ReportsInOrderStep(members: seq<string>, i: nat, msgs: seq<Message>, r: Option<string>, day: Day, users: seq<User>, hourMinute: int -> string)
    requires i < |members| && r == Report(msgs, members[i], day, users, hourMinute)
    ensures ReportsInOrder(members[i..], msgs, day, users, hourMinute) ==
      if r.None? then None
      else Prepend([r.value], ReportsInOrder(members[i + 1..], MarkFormatted(msgs, members[i], day.start, NameTableOf(users)), day, users, hourMinute))
  {
    assert members[i..][1..] == members[i + 1..];
  }

  lemma PrependAssoc(parts: seq<string>, r: string, rest: Option<seq<string>>)
    ensures Prepend(parts, Prepend([r], rest)) == Prepend(parts + [r], rest)
  {
    if rest.Some? {
      assert parts + ([r] + rest.value) == (parts + [r]) + rest.value;
    }
  }

  lemma NoEntriesNothingRewritten(msgs: seq<Message>, user: string, start: int, table: NameTable)
    requires ReportEntries(msgs, user, start) == []
    ensures MarkFormatted(msgs, user, start, table) == msgs
  {
    assert forall k :: 0 <= k < |msgs| ==> !IsReportEntry(msgs[k], user, start);
  }

  lemma ReportLinesAppend(entries: seq<Message>, m: Message, table: NameTable, hourMinute: int -> string)
    ensures ReportLines(entries + [m], table, hourMinute) == ReportLines(entries, table, hourMinute) + [ReportLine(m, table, hourMinute)]
  {
  }
}
