/**
 * Latest-activity derivation and the away/offline classification of
 * `SlackBot#users_latest_activities` and `SlackBot#check_is_away`.
 *
 * Ruby's activity Hash keeps its keys in insertion order; here it is a
 * sequence of `Activity` records whose `user` fields are the keys.
 */
module Activities {
  import opened Messages
  import opened Text

  /** One value of the activity Hash: `{ message:, ts:, user: }`. */
  datatype Activity = Activity(message: string, ts: int, user: string)

  function ActivityOf(m: Message): (a: Activity)
    ensures a.user == m.user && a.ts == m.ts && a.message == m.text
  {
    Activity(m.text, m.ts, m.user)
  }

  /** The Hash's keys, in insertion order. */
  function Users(acts: seq<Activity>): (us: seq<string>)
    ensures |us| == |acts|
    ensures forall i :: 0 <= i < |acts| ==> us[i] == acts[i].user
  {
    if |acts| == 0 then [] else Users(acts[..|acts| - 1]) + [acts[|acts| - 1].user]
  }

  /** `@activities[user]`: the record stored under `user`, if any. */
  function Find(acts: seq<Activity>, user: string): (r: Option<Activity>)
    ensures r.Some? ==> r.value in acts && r.value.user == user
    ensures r.None? <==> user !in Users(acts)
  {
    if |acts| == 0 then None
    else if acts[0].user == user then Some(acts[0])
    else Find(acts[1..], user)
  }

  /** At most one record per user, and only for roster members. */
  ghost predicate WellFormed(members: seq<string>, acts: seq<Activity>)
  {
    && (forall i, j :: 0 <= i < j < |acts| ==> acts[i].user != acts[j].user)
    && (forall a :: a in acts ==> a.user in members)
  }

  /**
   * The activity Hash after the `each` loop has visited `msgs`: a message is
   * skipped when its author already has a record or is not in the roster,
   * and otherwise appended.
   */
  function LatestActivities(members: seq<string>, msgs: seq<Message>): seq<Activity>
  {
    if |msgs| == 0 then []
    else
      var prev := LatestActivities(members, msgs[..|msgs| - 1]);
      var m := msgs[|msgs| - 1];
      if Find(prev, m.user).Some? || m.user !in members then prev
      else prev + [ActivityOf(m)]
  }

  /** The loop of `users_latest_activities` that fills `@activities`. */
  method CollectActivities(members: seq<string>, msgs: seq<Message>) returns (acts: seq<Activity>)
    ensures acts == LatestActivities(members, msgs)
  {
    acts := [];
    var i := 0;
    while i < |msgs|
      invariant 0 <= i <= |msgs|
      invariant acts == LatestActivities(members, msgs[..i])
    {
      assert msgs[..i + 1][..i] == msgs[..i];
      var user := msgs[i].user;
      if Find(acts, user).Some? {
        i := i + 1;
        continue;
      }
      if user !in members {
        i := i + 1;
        continue;
      }
      acts := acts + [ActivityOf(msgs[i])];
      i := i + 1;
    }
    assert msgs[..|msgs|] == msgs;
  }

  /** Reference definition: the first message of `user` in list order. */
  function FirstMessageBy(msgs: seq<Message>, user: string): (r: Option<Message>)
    ensures r.Some? ==> r.value in msgs && r.value.user == user
    ensures r.None? <==> forall m :: m in msgs ==> m.user != user
  {
    if |msgs| == 0 then None
    else if msgs[0].user == user then Some(msgs[0])
    else FirstMessageBy(msgs[1..], user)
  }

  lemma {:induction false} FirstMessageByAppend(msgs: seq<Message>, m: Message, user: string)
    ensures FirstMessageBy(msgs + [m], user) ==
      if FirstMessageBy(msgs, user).Some? then FirstMessageBy(msgs, user)
      else if m.user == user then Some(m)
      else None
  {
    if |msgs| > 0 {
      assert (msgs + [m])[1..] == msgs[1..] + [m];
      FirstMessageByAppend(msgs[1..], m, user);
    } else {
      assert (msgs + [m])[1..] == [];
    }
  }

  lemma {:induction false} FindAppend(acts: seq<Activity>, a: Activity, user: string)
    ensures Find(acts + [a], user) ==
      if Find(acts, user).Some? then Find(acts, user)
      else if a.user == user then Some(a)
      else None
  {
    if |acts| > 0 {
      assert (acts + [a])[1..] == acts[1..] + [a];
      FindAppend(acts[1..], a, user);
    } else {
      assert (acts + [a])[1..] == [];
    }
  }

  /**
   * What the activity Hash holds for each user: nothing for a non-member,
   * and for a member exactly the first of their messages in list order, with
   * `message`, `ts` and `user` copied from it (nothing when they posted none).
   */
  lemma {:induction false} LatestActivitiesFind(members: seq<string>, msgs: seq<Message>, user: string)
    ensures Find(LatestActivities(members, msgs), user) ==
      if user in members && FirstMessageBy(msgs, user).Some?
      then Some(ActivityOf(FirstMessageBy(msgs, user).value))
      else None
  {
    if |msgs| > 0 {
      var init := msgs[..|msgs| - 1];
      var m := msgs[|msgs| - 1];
      assert init + [m] == msgs;
      LatestActivitiesFind(members, init, user);
      FirstMessageByAppend(init, m, user);
      var prev := LatestActivities(members, init);
      if !(Find(prev, m.user).Some? || m.user !in members) {
        FindAppend(prev, ActivityOf(m), user);
      }
    }
  }

  /** The activity Hash has at most one entry per user, and only for roster members. */
  lemma {:induction false} LatestActivitiesWellFormed(members: seq<string>, msgs: seq<Message>)
    ensures WellFormed(members, LatestActivities(members, msgs))
  {
    if |msgs| > 0 {
      var init := msgs[..|msgs| - 1];
      LatestActivitiesWellFormed(members, init);
      var prev := LatestActivities(members, init);
      var m := msgs[|msgs| - 1];
      if !(Find(prev, m.user).Some? || m.user !in members) {
        var acts := prev + [ActivityOf(m)];
        forall i, j | 0 <= i < j < |acts| ensures acts[i].user != acts[j].user {
          if j == |prev| {
            assert Users(prev)[i] == prev[i].user;
          }
        }
      }
    }
  }

  const AwayLimitMinutes := 90
  const AwayLimitSeconds := AwayLimitMinutes * 60
  /** `AWAY_LIMIT_MINUTES` as interpolated into the notice text. */
  const AwayLimitMinutesText := "90"

  /** A member is away when more than 90 minutes have passed since their recorded message. */
  predicate IsAway(a: Activity, now: int)
  {
    now - a.ts > AwayLimitSeconds
  }

  /** `users_latest_activities.select { ... }`: the away records, in Hash order. */
  function AwayActivities(acts: seq<Activity>, now: int): (away: seq<Activity>)
    ensures forall a :: a in away <==> a in acts && IsAway(a, now)
    ensures |away| <= |acts|
  {
    if |acts| == 0 then []
    else (if IsAway(acts[0], now) then [acts[0]] else []) + AwayActivities(acts[1..], now)
  }

  /**
   * `members - users_latest_activities.keys`: the roster, in order and with
   * its repetitions, minus every member that has a record.
   */
  function OfflineMembers(members: seq<string>, acts: seq<Activity>): (offline: seq<string>)
    ensures forall u :: u in offline <==> u in members && Find(acts, u).None?
    ensures |offline| <= |members|
  {
    if |members| == 0 then []
    else (if Find(acts, members[0]).None? then [members[0]] else []) + OfflineMembers(members[1..], acts)
  }

  /**
   * The classification of a roster member: offline exactly when they posted
   * nothing in the snapshot, away exactly when their first message in it is
   * more than 90 minutes old, and never both.
   */
  lemma Classification(members: seq<string>, msgs: seq<Message>, now: int, user: string)
    requires user in members
    ensures var acts := LatestActivities(members, msgs);
      && (user in OfflineMembers(members, acts) <==> forall m :: m in msgs ==> m.user != user)
      && ((exists a :: a in AwayActivities(acts, now) && a.user == user) <==>
          FirstMessageBy(msgs, user).Some? && now - FirstMessageBy(msgs, user).value.ts > AwayLimitSeconds)
      && !(user in OfflineMembers(members, acts) && exists a :: a in AwayActivities(acts, now) && a.user == user)
  {
    var acts := LatestActivities(members, msgs);
    LatestActivitiesFind(members, msgs, user);
    LatestActivitiesWellFormed(members, msgs);
    if a :| a in AwayActivities(acts, now) && a.user == user {
      var i :| 0 <= i < |acts| && acts[i] == a;
      assert Users(acts)[i] == user;
      FindUnique(acts, i);
    }
  }

  /** In a record sequence with distinct users, `Find` returns the one record of that user. */
  lemma {:induction false} FindUnique(acts: seq<Activity>, i: nat)
    requires i < |acts|
    requires forall j, k :: 0 <= j < k < |acts| ==> acts[j].user != acts[k].user
    ensures Find(acts, acts[i].user) == Some(acts[i])
  {
    if i > 0 {
      FindUnique(acts[1..], i - 1);
    }
  }

  /** A member with a record is never listed as offline, so no user is both away and offline. */
  lemma AwayOfflineDisjoint(members: seq<string>, acts: seq<Activity>, now: int)
    ensures forall a :: a in AwayActivities(acts, now) ==> a.user !in OfflineMembers(members, acts)
  {
    forall a | a in AwayActivities(acts, now) ensures a.user !in OfflineMembers(members, acts) {
      var i :| 0 <= i < |acts| && acts[i] == a;
      assert Users(acts)[i] == a.user;
    }
  }

  /**
   * `select` keeps the Hash order: the away records of a concatenation are
   * those of each part, in order.
   */
  lemma {:induction false} AwayActivitiesAppend(a: seq<Activity>, b: seq<Activity>, now: int)
    ensures AwayActivities(a + b, now) == AwayActivities(a, now) + AwayActivities(b, now)
  {
    if |a| > 0 {
      assert (a + b)[1..] == a[1..] + b;
      AwayActivitiesAppend(a[1..], b, now);
    } else {
      assert a + b == b;
    }
  }

  /**
   * `members - keys` keeps the roster's order and its repetitions: the
   * offline list of a concatenated roster is that of each part, in order.
   */
  lemma {:induction false} OfflineMembersAppend(m1: seq<string>, m2: seq<string>, acts: seq<Activity>)
    ensures OfflineMembers(m1 + m2, acts) == OfflineMembers(m1, acts) + OfflineMembers(m2, acts)
  {
    if |m1| > 0 {
      assert (m1 + m2)[1..] == m1[1..] + m2;
      OfflineMembersAppend(m1[1..], m2, acts);
    } else {
      assert m1 + m2 == m2;
    }
  }

  /** The threshold is strict: a gap of exactly 5400 seconds is not away, one more second is. */
  lemma AwayThresholdIsStrict(a: Activity)
    ensures !IsAway(a, a.ts + 5400)
    ensures IsAway(a, a.ts + 5401)
  {
  }

  const AwayMarker := "沒發動態"
  const OfflineMarker := "尚未上線"

  /** The notice line for an away member; `dateTime` is `Time.at(ts).strftime('%Y-%m-%d %H:%M:%S')`. */
  function AwayLine(a: Activity, dateTime: int -> string): string
  {
    "使用者 <@" + a.user + "> 已超過 " + AwayLimitMinutesText + " 分鐘" + AwayMarker + "，最後動態時間：" + dateTime(a.ts)
  }

  /** The notice line for an offline member. */
  function OfflineLine(user: string): string
  {
    "使用者 <@" + user + "> 今日" + OfflineMarker
  }

  function AwayLines(away: seq<Activity>, dateTime: int -> string): (lines: seq<string>)
    ensures |lines| == |away|
    ensures forall i :: 0 <= i < |away| ==> lines[i] == AwayLine(away[i], dateTime)
  {
    if |away| == 0 then [] else [AwayLine(away[0], dateTime)] + AwayLines(away[1..], dateTime)
  }

  function OfflineLines(offline: seq<string>): (lines: seq<string>)
    ensures |lines| == |offline|
    ensures forall i :: 0 <= i < |offline| ==> lines[i] == OfflineLine(offline[i])
  {
    if |offline| == 0 then [] else [OfflineLine(offline[0])] + OfflineLines(offline[1..])
  }

  /**
   * What `check_is_away` emits: nothing when no member is away or offline,
   * and otherwise one text, the away lines joined by newlines immediately
   * followed by the offline lines joined by newlines.
   */
  function AwayNotice(members: seq<string>, acts: seq<Activity>, now: int, dateTime: int -> string): Option<string>
  {
    var away := AwayActivities(acts, now);
    var offline := OfflineMembers(members, acts);
    if |away| == 0 && |offline| == 0 then None
    else Some(Join(AwayLines(away, dateTime), "\n") + Join(OfflineLines(offline), "\n"))
  }

  lemma AwayLineHasMarker(a: Activity, dateTime: int -> string)
    ensures Contains(AwayLine(a, dateTime), AwayMarker)
  {
    var head := "使用者 <@" + a.user + "> 已超過 " + AwayLimitMinutesText + " 分鐘";
    var tail := "，最後動態時間：" + dateTime(a.ts);
    assert AwayLine(a, dateTime) == head + AwayMarker + tail;
    ContainsInfix(head, AwayMarker, tail);
  }

  lemma OfflineLineHasMarker(user: string)
    ensures Contains(OfflineLine(user), OfflineMarker)
  {
    var head := "使用者 <@" + user + "> 今日";
    assert OfflineLine(user) == head + OfflineMarker + "";
    ContainsInfix(head, OfflineMarker, "");
  }

  /**
   * Every text `check_is_away` emits carries a marker that identifies a
   * stale notice: the away marker when some member is away, the offline
   * marker otherwise.
   */
  lemma AwayNoticeHasMarker(members: seq<string>, acts: seq<Activity>, now: int, dateTime: int -> string)
    requires AwayNotice(members, acts, now, dateTime).Some?
    ensures var t := AwayNotice(members, acts, now, dateTime).value;
      && (|AwayActivities(acts, now)| > 0 ==> Contains(t, AwayMarker))
      && (|AwayActivities(acts, now)| == 0 ==> Contains(t, OfflineMarker))
  {
    var away := AwayActivities(acts, now);
    var offline := OfflineMembers(members, acts);
    var awayLines := AwayLines(away, dateTime);
    var offlineText := Join(OfflineLines(offline), "\n");
    if |away| > 0 {
      AwayLineHasMarker(away[0], dateTime);
      JoinHasMarker(awayLines, "\n", AwayMarker, offlineText);
    } else {
      assert Join(awayLines, "\n") == "";
      OfflineLineHasMarker(offline[0]);
      JoinHasMarker(OfflineLines(offline), "\n", OfflineMarker, "");
      assert offlineText + "" == Join(awayLines, "\n") + offlineText;
    }
  }
}
