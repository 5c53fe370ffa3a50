/**
 * Daily report rendering: `SlackBot#reports`, `format_text_for_report`,
 * `mapped_members` and `nickname`.
 *
 * `mapped_members` is a Ruby Hash from user id to display name; its
 * insertion order decides the order of the `gsub!` calls, so here it is a
 * `NameTable`, a sequence of (id, name) entries whose ids are its keys.
 */
module Reports {
  import opened Messages
  import opened Text

  type NameTable = seq<(string, string)>

  /** The Hash's keys, in insertion order. */
  function Ids(table: NameTable): (ids: seq<string>)
    ensures |ids| == |table|
    ensures forall i :: 0 <= i < |table| ==> ids[i] == table[i].0
  {
    if |table| == 0 then [] else [table[0].0] + Ids(table[1..])
  }

  /** `table[id]`. */
  function Lookup(table: NameTable, id: string): (r: Option<string>)
    ensures r.None? <==> id !in Ids(table)
    ensures r.Some? ==> (id, r.value) in table
  {
    if |table| == 0 then None
    else if table[0].0 == id then Some(table[0].1)
    else Lookup(table[1..], id)
  }

  /** `table[id] = name`: overwrites the value of a present key in place, else appends. */
  function Put(table: NameTable, id: string, name: string): (t: NameTable)
    ensures id in Ids(table) ==> |t| == |table|
    ensures id !in Ids(table) ==> t == table + [(id, name)]
  {
    if |table| == 0 then [(id, name)]
    else if table[0].0 == id then [(id, name)] + table[1..]
    else [table[0]] + Put(table[1..], id, name)
  }

  /** The Hash `mapped_members` builds from the user list, entry by entry. */
  function NameTableOf(users: seq<User>): NameTable
  {
    if |users| == 0 then []
    else Put(NameTableOf(users[..|users| - 1]), users[|users| - 1].id, users[|users| - 1].name)
  }

  /** The loop of `mapped_members`. */
  method BuildNameTable(users: seq<User>) returns (table: NameTable)
    ensures table == NameTableOf(users)
  {
    table := [];
    var i := 0;
    while i < |users|
      invariant 0 <= i <= |users|
      invariant table == NameTableOf(users[..i])
    {
      assert users[..i + 1][..i] == users[..i];
      table := Put(table, users[i].id, users[i].name);
      i := i + 1;
    }
    assert users[..|users|] == users;
  }

  /** Reference definition: the name of the last user in the list with that id. */
  function LastNameOf(users: seq<User>, id: string): (r: Option<string>)
    ensures r.Some? ==> User(id, r.value) in users
    ensures r.None? <==> forall u :: u in users ==> u.id != id
  {
    if |users| == 0 then None
    else if users[|users| - 1].id == id then Some(users[|users| - 1].name)
    else LastNameOf(users[..|users| - 1], id)
  }

  lemma {:induction false} LookupPut(table: NameTable, id: string, name: string, key: string)
    ensures Lookup(Put(table, id, name), key) == if key == id then Some(name) else Lookup(table, key)
  {
    if |table| > 0 && table[0].0 != id {
      LookupPut(table[1..], id, name, key);
    }
  }

  lemma {:induction false} IdsPut(table: NameTable, id: string, name: string)
    ensures Ids(Put(table, id, name)) == if id in Ids(table) then Ids(table) else Ids(table) + [id]
  {
    if |table| > 0 && table[0].0 != id {
      IdsPut(table[1..], id, name);
    }
  }

  /** `mapped_members` maps every id of the user list to the name of the last user carrying it. */
  lemma {:induction false} NameTableLookup(users: seq<User>, id: string)
    ensures Lookup(NameTableOf(users), id) == LastNameOf(users, id)
  {
    if |users| > 0 {
      var init := users[..|users| - 1];
      var last := users[|users| - 1];
      NameTableLookup(init, id);
      LookupPut(NameTableOf(init), last.id, last.name, id);
    }
  }

  lemma IdsPutMember(table: NameTable, id: string, name: string, key: string)
    ensures key in Ids(Put(table, id, name)) <==> key in Ids(table) || key == id
  {
    IdsPut(table, id, name);
  }

  /** `mapped_members` has a key for exactly the ids of the user list. */
  lemma {:induction false} NameTableKeys(users: seq<User>, id: string)
    ensures id in Ids(NameTableOf(users)) <==> exists u :: u in users && u.id == id
  {
    if |users| > 0 {
      var init := users[..|users| - 1];
      var last := users[|users| - 1];
      NameTableKeys(init, id);
      IdsPutMember(NameTableOf(init), last.id, last.name, id);
      HasIdSnoc(users, id);
    }
  }

  lemma HasIdSnoc(users: seq<User>, id: string)
    requires |users| > 0
    ensures (exists u :: u in users && u.id == id) <==>
      (exists u :: u in users[..|users| - 1] && u.id == id) || users[|users| - 1].id == id
  {
    assert users == users[..|users| - 1] + [users[|users| - 1]];
  }

  /** `mapped_members` holds each of its keys once. */
  lemma {:induction false} NameTableDistinct(users: seq<User>)
    ensures forall i, j :: 0 <= i < j < |NameTableOf(users)| ==> NameTableOf(users)[i].0 != NameTableOf(users)[j].0
  {
    if |users| > 0 {
      var init := users[..|users| - 1];
      var last := users[|users| - 1];
      NameTableDistinct(init);
      var t0 := NameTableOf(init);
      IdsPut(t0, last.id, last.name);
      var t := NameTableOf(users);
      forall i, j | 0 <= i < j < |t| ensures t[i].0 != t[j].0 {
        assert Ids(t)[i] == t[i].0 && Ids(t)[j] == t[j].0;
        if last.id !in Ids(t0) && j == |t| - 1 {
          assert Ids(t0)[i] == t0[i].0;
        } else {
          assert Ids(t0)[i] == t0[i].0 && Ids(t0)[j] == t0[j].0;
        }
      }
    }
  }

  /** `nickname(user_id)`: the name of the first user with that id; `None` where Ruby raises. */
  function Nickname(users: seq<User>, id: string): (r: Option<string>)
    ensures r.Some? ==> exists i :: 0 <= i < |users| && users[i] == User(id, r.value) &&
                                    (forall j :: 0 <= j < i ==> users[j].id != id)
    ensures r.None? <==> forall u :: u in users ==> u.id != id
  {
    if |users| == 0 then None
    else if users[0].id == id then Some(users[0].name)
    else
      var r := Nickname(users[1..], id);
      if r.Some? then
        var i :| 0 <= i < |users[1..]| && users[1..][i] == User(id, r.value) &&
                 (forall j :: 0 <= j < i ==> users[1..][j].id != id);
        assert users[i + 1] == User(id, r.value) && forall j :: 0 <= j < i + 1 ==> users[j].id != id;
        r
      else r
  }

  /** With each id listed once, the first and the last user carrying an id are the same. */
  lemma {:induction false} NicknameIsUnique(users: seq<User>, id: string, i: nat)
    requires i < |users| && users[i].id == id
    requires forall j, k :: 0 <= j < k < |users| ==> users[j].id != users[k].id
    ensures Nickname(users, id) == Some(users[i].name)
    ensures LastNameOf(users, id) == Some(users[i].name)
  {
    if i > 0 {
      NicknameIsUnique(users[1..], id, i - 1);
    }
    if i < |users| - 1 {
      NicknameIsUnique(users[..|users| - 1], id, i);
    }
  }

  /**
   * When the user list holds each id once, the header's `nickname` and the
   * body's `mapped_members` agree on every member's name.
   */
  lemma NicknameAgreesWithNameTable(users: seq<User>, id: string)
    requires forall j, k :: 0 <= j < k < |users| ==> users[j].id != users[k].id
    ensures Lookup(NameTableOf(users), id) == Nickname(users, id)
  {
    NameTableLookup(users, id);
    if i :| 0 <= i < |users| && users[i].id == id {
      NicknameIsUnique(users, id, i);
    } else {
      assert forall u :: u in users ==> u.id != id;
    }
  }

  /** The mention token `<@ID>` of a user id. */
  function Mention(id: string): string
  {
    "<@" + id + ">"
  }

  /** `format_text_for_report`: one `gsub!` per Hash entry, in insertion order. */
  function FormatWith(table: NameTable, text: string): string
  {
    if |table| == 0 then text
    else FormatWith(table[1..], ReplaceAll(text, Mention(table[0].0), table[0].1))
  }

  /** The loop of `format_text_for_report`, rewriting `text` entry by entry. */
  method FormatText(table: NameTable, text: string) returns (r: string)
    ensures r == FormatWith(table, text)
  {
    r := text;
    var i := 0;
    while i < |table|
      invariant 0 <= i <= |table|
      invariant FormatWith(table[i..], r) == FormatWith(table, text)
    {
      assert table[i..][1..] == table[i + 1..];
      r := ReplaceAll(r, Mention(table[i].0), table[i].1);
      i := i + 1;
    }
  }

  /** Text without `<@` has no mention to substitute and is left unchanged. */
  lemma {:induction false} FormatWithoutMentions(table: NameTable, text: string)
    requires !Contains(text, "<@")
    ensures FormatWith(table, text) == text
  {
    if |table| > 0 {
      var id := table[0].0;
      assert Mention(id) == "<@" + (id + ">");
      if Contains(text, Mention(id)) {
        ContainsLonger(text, "<@", id + ">");
      }
      ReplaceAllAbsent(text, Mention(id), table[0].1);
      FormatWithoutMentions(table[1..], text);
    }
  }

  /** Slack user ids and display names carry no angle brackets. */
  predicate PlainId(id: string)
  {
    '<' !in id && '>' !in id
  }

  /** A message text cut into literal segments and `<@ID>` mention tokens. */
  datatype Piece = Plain(text: string) | Token(id: string)

  function PieceText(p: Piece): string
  {
    match p
    case Plain(t) => t
    case Token(id) => Mention(id)
  }

  /** The text the pieces spell out. */
  function Render(ps: seq<Piece>): string
  {
    if |ps| == 0 then "" else PieceText(ps[0]) + Render(ps[1..])
  }

  /** Segments without `<` and tokens of plain ids: no token starts inside a segment. */
  predicate PlainPieces(ps: seq<Piece>)
  {
    forall p :: p in ps ==> (p.Plain? ==> '<' !in p.text) && (p.Token? ==> PlainId(p.id))
  }

  /** Reference rendering: a token of a listed id shows that id's name; everything else is kept. */
  function NamedText(table: NameTable, p: Piece): string
  {
    match p
    case Plain(t) => t
    case Token(id) => if Lookup(table, id).Some? then Lookup(table, id).value else Mention(id)
  }

  function RenderNamed(table: NameTable, ps: seq<Piece>): string
  {
    if |ps| == 0 then "" else NamedText(table, ps[0]) + RenderNamed(table, ps[1..])
  }

  /** The pieces after one `gsub`: every token of `id` has become the segment `name`. */
  function Substitute(ps: seq<Piece>, id: string, name: string): (qs: seq<Piece>)
    ensures |qs| == |ps|
  {
    if |ps| == 0 then []
    else (if ps[0] == Token(id) then [Plain(name)] else [ps[0]]) + Substitute(ps[1..], id, name)
  }

  /** The token of one plain id does not start with the token of another. */
  lemma MentionsDiffer(id: string, other: string, rest: string)
    requires PlainId(id) && PlainId(other) && id != other
    ensures !OccursAt(Mention(id) + rest, Mention(other), 0)
  {
    var s := Mention(id) + rest;
    var m := Mention(other);
    if |m| <= |s| {
      if |other| < |id| {
        assert s[..|m|][2 + |other|] == id[|other|] != m[2 + |other|];
      } else if |other| > |id| {
        assert s[..|m|][2 + |id|] == '>' != other[|id|] == m[2 + |id|];
      } else {
        var k :| 0 <= k < |id| && id[k] != other[k];
        assert s[..|m|][2 + k] == id[k] && m[2 + k] == other[k];
      }
    }
  }

  /** Scanning for another plain id's token passes over this token unchanged. */
  lemma ReplaceAllSkipsMention(other: string, id: string, rest: string, name: string)
    requires PlainId(id) && PlainId(other) && id != other
    ensures ReplaceAll(Mention(other) + rest, Mention(id), name) == Mention(other) + ReplaceAll(rest, Mention(id), name)
  {
    var s := Mention(other) + rest;
    MentionsDiffer(other, id, rest);
    var tail := "@" + other + ">";
    assert '<' !in tail;
    assert s[1..] == tail + rest;
    assert ReplaceAll(s, Mention(id), name) == [s[0]] + ReplaceAll(tail + rest, Mention(id), name);
    ReplaceAllSkipsPrefix(tail, rest, Mention(id), name);
    assert [s[0]] + tail == Mention(other);
  }

  /** `gsub` of one plain id's token on pieces: exactly the tokens of that id are replaced. */
  lemma {:induction false} ReplaceAllPieces(ps: seq<Piece>, id: string, name: string)
    requires PlainPieces(ps) && PlainId(id)
    ensures ReplaceAll(Render(ps), Mention(id), name) == Render(Substitute(ps, id, name))
  {
    if |ps| > 0 {
      var rest := Render(ps[1..]);
      assert PlainPieces(ps[1..]) by {
        forall p | p in ps[1..] ensures p in ps { }
      }
      ReplaceAllPieces(ps[1..], id, name);
      var first := ps[0];
      assert first in ps;
      assert Render(ps) == PieceText(first) + rest;
      var done := ReplaceAll(rest, Mention(id), name);
      if first == Token(id) {
        ReplaceAllSplice("", Mention(id), rest, name);
        assert "" + Mention(id) + rest == Mention(id) + rest;
        assert Render(Substitute(ps, id, name)) == name + done;
      } else {
        if first.Plain? {
          ReplaceAllSkipsPrefix(first.text, rest, Mention(id), name);
        } else {
          ReplaceAllSkipsMention(first.id, id, rest, name);
        }
        assert Render(Substitute(ps, id, name)) == PieceText(first) + done;
      }
    }
  }

  /** Substituting the first entry leaves what the rest of the table still names. */
  lemma {:induction false} RenderNamedStep(table: NameTable, ps: seq<Piece>)
    requires |table| > 0
    ensures RenderNamed(table[1..], Substitute(ps, table[0].0, table[0].1)) == RenderNamed(table, ps)
  {
    if |ps| > 0 {
      RenderNamedStep(table, ps[1..]);
    }
  }

  lemma {:induction false} RenderNamedEmpty(ps: seq<Piece>)
    ensures RenderNamed([], ps) == Render(ps)
  {
    if |ps| > 0 {
      RenderNamedEmpty(ps[1..]);
    }
  }

  /**
   * `format_text_for_report` on a text of plain segments and mention tokens:
   * every token of a listed id becomes that id's name, and every other token
   * and every segment is kept, in place.
   */
  lemma {:induction false} FormatReplacesMentions(table: NameTable, ps: seq<Piece>)
    requires forall e :: e in table ==> PlainId(e.0) && '<' !in e.1
    requires PlainPieces(ps)
    ensures FormatWith(table, Render(ps)) == RenderNamed(table, ps)
  {
    if |table| == 0 {
      RenderNamedEmpty(ps);
    } else {
      var e := table[0];
      assert e in table;
      ReplaceAllPieces(ps, e.0, e.1);
      var qs := Substitute(ps, e.0, e.1);
      assert PlainPieces(qs) by {
        forall p | p in qs ensures (p.Plain? ==> '<' !in p.text) && (p.Token? ==> PlainId(p.id)) {
          SubstitutedPiece(ps, e.0, e.1, p);
        }
      }
      assert forall x :: x in table[1..] ==> x in table;
      FormatReplacesMentions(table[1..], qs);
      RenderNamedStep(table, ps);
    }
  }

  lemma {:induction false} SubstitutedPiece(ps: seq<Piece>, id: string, name: string, p: Piece)
    requires p in Substitute(ps, id, name)
    ensures p in ps || p == Plain(name)
  {
    if p != Substitute(ps, id, name)[0] {
      SubstitutedPiece(ps[1..], id, name, p);
    }
  }

  /** Two members mentioned in one line: `<@U1> and <@U2>` becomes `Ann and Bob`. */
  lemma TwoMentionsExample()
    ensures FormatWith([("U1", "Ann"), ("U2", "Bob")], "<@U1> and <@U2>") == "Ann and Bob"
  {
    var table := [("U1", "Ann"), ("U2", "Bob")];
    var ps := [Token("U1"), Plain(" and "), Token("U2")];
    TwoMentionsPieces(ps);
    TwoMentionsNamed(table, ps);
    assert forall e :: e in table ==> PlainId(e.0) && '<' !in e.1;
    FormatReplacesMentions(table, ps);
  }

  lemma TwoMentionsPieces(ps: seq<Piece>)
    requires ps == [Token("U1"), Plain(" and "), Token("U2")]
    ensures PlainPieces(ps) && Render(ps) == "<@U1> and <@U2>"
  {
    var p1, p2 := ps[1..], ps[2..];
    assert p1[1..] == p2 && p2[1..] == [];
    assert Render(p2) == "<@U2>";
    assert Render(p1) == " and <@U2>";
    assert Render(ps) == "<@U1>" + " and <@U2>";
  }

  lemma TwoMentionsNamed(table: NameTable, ps: seq<Piece>)
    requires table == [("U1", "Ann"), ("U2", "Bob")]
    requires ps == [Token("U1"), Plain(" and "), Token("U2")]
    ensures RenderNamed(table, ps) == "Ann and Bob"
  {
    var p1, p2 := ps[1..], ps[2..];
    assert p1[1..] == p2 && p2[1..] == [];
    assert Lookup(table, "U1") == Some("Ann") && Lookup(table, "U2") == Some("Bob");
    assert RenderNamed(table, p2) == "Bob";
    assert RenderNamed(table, p1) == " and Bob";
    assert RenderNamed(table, ps) == "Ann" + " and Bob";
  }

  /** The marker a report line starts with. */
  const ReportMarker := '【'

  /** The three conditions of `reports`' `select`. */
  predicate IsReportEntry(m: Message, user: string, start: int)
  {
    m.user == user && m.ts > start && SomeLineStartsWith(m.text, ReportMarker)
  }

  /** `select`: the report entries of `user`, in snapshot order. */
  function ReportEntries(msgs: seq<Message>, user: string, start: int): (r: seq<Message>)
    ensures forall m :: m in r <==> m in msgs && IsReportEntry(m, user, start)
    ensures |r| <= |msgs|
  {
    if |msgs| == 0 then []
    else (if IsReportEntry(msgs[0], user, start) then [msgs[0]] else []) + ReportEntries(msgs[1..], user, start)
  }

  function Reverse<T>(s: seq<T>): (r: seq<T>)
    ensures |r| == |s|
    ensures forall i :: 0 <= i < |s| ==> r[i] == s[|s| - 1 - i]
  {
    if |s| == 0 then [] else Reverse(s[1..]) + [s[0]]
  }

  lemma {:induction false} ReportEntriesAppend(a: seq<Message>, b: seq<Message>, user: string, start: int)
    ensures ReportEntries(a + b, user, start) == ReportEntries(a, user, start) + ReportEntries(b, user, start)
  {
    if |a| > 0 {
      assert (a + b)[1..] == a[1..] + b;
      ReportEntriesAppend(a[1..], b, user, start);
    } else {
      assert a + b == b;
    }
  }

  /**
   * The snapshot lists the newest message first; reversing the kept entries
   * gives the entries of the chronological (reversed) snapshot, oldest first.
   */
  lemma {:induction false} EntriesChronological(msgs: seq<Message>, user: string, start: int)
    ensures Reverse(ReportEntries(msgs, user, start)) == ReportEntries(Reverse(msgs), user, start)
  {
    if |msgs| > 0 {
      EntriesChronological(msgs[1..], user, start);
      ReportEntriesAppend(Reverse(msgs[1..]), [msgs[0]], user, start);
      var head := if IsReportEntry(msgs[0], user, start) then [msgs[0]] else [];
      assert Reverse(head + ReportEntries(msgs[1..], user, start)) ==
        Reverse(ReportEntries(msgs[1..], user, start)) + head;
    }
  }

  /** `"[#{time}] #{format_text_for_report(msg[:text])}"`; `hourMinute` is `strftime('%H:%M')`. */
  function ReportLine(m: Message, table: NameTable, hourMinute: int -> string): string
  {
    "[" + hourMinute(m.ts) + "] " + FormatWith(table, m.text)
  }

  function ReportLines(entries: seq<Message>, table: NameTable, hourMinute: int -> string): (lines: seq<string>)
    ensures |lines| == |entries|
    ensures forall i :: 0 <= i < |entries| ==> lines[i] == ReportLine(entries[i], table, hourMinute)
  {
    if |entries| == 0 then [] else [ReportLine(entries[0], table, hourMinute)] + ReportLines(entries[1..], table, hourMinute)
  }

  /** The report body: one line per entry, oldest first. */
  function ReportBody(msgs: seq<Message>, user: string, start: int, table: NameTable, hourMinute: int -> string): string
  {
    Join(ReportLines(Reverse(ReportEntries(msgs, user, start)), table, hourMinute), "\n")
  }

  /** The heredoc of `reports`: a header line, the body, and a final newline. */
  function ReportText(nick: string, dayKey: string, body: string): string
  {
    "研發部 " + nick + " " + dayKey + " 工作日誌\n" + body + "\n"
  }

  /** `reports(user, day:)` on a snapshot; `None` where `nickname` raises. */
  function Report(msgs: seq<Message>, user: string, day: Day, users: seq<User>, hourMinute: int -> string): Option<string>
  {
    var nick := Nickname(users, user);
    if nick.None? then None
    else Some(ReportText(nick.value, day.key, ReportBody(msgs, user, day.start, NameTableOf(users), hourMinute)))
  }

  /**
   * Two messages of the user after the day's start: the one that starts a
   * line with the marker is rendered with its time, the unmarked one is
   * dropped.
   */
  lemma ReportExample(table: NameTable, hourMinute: int -> string)
    ensures var msgs := [Message("U1", "【done】task A", 1000, None), Message("U1", "chat", 1100, None)];
      ReportBody(msgs, "U1", 900, table, hourMinute) == "[" + hourMinute(1000) + "] 【done】task A"
  {
    var msgs := [Message("U1", "【done】task A", 1000, None), Message("U1", "chat", 1100, None)];
    ExampleEntries();
    var line := ReportLine(msgs[0], table, hourMinute);
    ExampleLine(table, hourMinute);
    assert Reverse([msgs[0]]) == [msgs[0]];
    assert ReportLines([msgs[0]], table, hourMinute) == [line];
    assert Join([line], "\n") == line;
  }

  lemma ExampleLine(table: NameTable, hourMinute: int -> string)
    ensures ReportLine(Message("U1", "【done】task A", 1000, None), table, hourMinute) == "[" + hourMinute(1000) + "] 【done】task A"
  {
    var done := "【done】task A";
    assert '<' !in done by {
      assert forall i | 0 <= i < |done| :: done[i] != '<';
    }
    FirstCharAbsent(done, "<@");
    FormatWithoutMentions(table, done);
    assert "[" + hourMinute(1000) + "] 【done】task A" == "[" + hourMinute(1000) + ("] " + done);
  }

  lemma ExampleEntries()
    ensures var msgs := [Message("U1", "【done】task A", 1000, None), Message("U1", "chat", 1100, None)];
      ReportEntries(msgs, "U1", 900) == [msgs[0]]
  {
    var done := "【done】task A";
    var chat := "chat";
    var msgs := [Message("U1", done, 1000, None), Message("U1", chat, 1100, None)];
    assert done[0] == ReportMarker;
    assert IsReportEntry(msgs[0], "U1", 900);
    assert !SomeLineStartsWith(chat, ReportMarker) by {
      assert forall i :: 0 <= i < |chat| ==> chat[i] != ReportMarker;
    }
    assert msgs[1..][1..] == [];
    assert ReportEntries(msgs[1..], "U1", 900) == [];
  }

  /** A mention of a listed id is substituted: `hi <@U2>` with `{U2: "Alice"}` is `hi Alice`. */
  lemma MentionExample()
    ensures FormatWith([("U2", "Alice")], "hi <@U2>") == "hi Alice"
  {
    assert "hi <@U2>" == "hi " + Mention("U2") + "";
    ReplaceAllSplice("hi ", Mention("U2"), "", "Alice");
  }

  /**
   * The snapshot after `reports(user)`: `format_text_for_report` runs `gsub!`
   * on each entry's text, which is the very String held in the day's cache.
   */
  function MarkFormatted(msgs: seq<Message>, user: string, start: int, table: NameTable): (r: seq<Message>)
    ensures |r| == |msgs|
    ensures forall i :: 0 <= i < |msgs| ==>
      r[i] == if IsReportEntry(msgs[i], user, start) then msgs[i].(text := FormatWith(table, msgs[i].text)) else msgs[i]
  {
    if |msgs| == 0 then []
    else
      [if IsReportEntry(msgs[0], user, start) then msgs[0].(text := FormatWith(table, msgs[0].text)) else msgs[0]]
      + MarkFormatted(msgs[1..], user, start, table)
  }

  /** Rewriting one member's entries leaves every other member's entries as they were. */
  lemma {:induction false} MarkFormattedKeepsOthers(msgs: seq<Message>, user: string, other: string, start: int, table: NameTable)
    requires user != other
    ensures ReportEntries(MarkFormatted(msgs, user, start, table), other, start) == ReportEntries(msgs, other, start)
  {
    if |msgs| > 0 {
      var r := MarkFormatted(msgs, user, start, table);
      assert r[1..] == MarkFormatted(msgs[1..], user, start, table);
      MarkFormattedKeepsOthers(msgs[1..], user, other, start, table);
      assert r[0].user == msgs[0].user;
      if msgs[0].user == other {
        assert r[0] == msgs[0];
      }
    }
  }

  /**
   * The reports of `send_reports`, member by member, each seeing the snapshot
   * as the previous members' `gsub!` calls left it; `None` if a member has
   * no nickname.
   */
  function ReportsInOrder(members: seq<string>, msgs: seq<Message>, day: Day, users: seq<User>, hourMinute: int -> string): Option<seq<string>>
    decreases |members|
  {
    if |members| == 0 then Some([])
    else
      var r := Report(msgs, members[0], day, users, hourMinute);
      if r.None? then None
      else
        var rest := ReportsInOrder(members[1..], MarkFormatted(msgs, members[0], day.start, NameTableOf(users)), day, users, hourMinute);
        if rest.None? then None else Some([r.value] + rest.value)
  }

  /** Reference definition: every member's report on the snapshot as loaded. */
  function ReportsOf(members: seq<string>, msgs: seq<Message>, day: Day, users: seq<User>, hourMinute: int -> string): Option<seq<string>>
  {
    if |members| == 0 then Some([])
    else
      var r := Report(msgs, members[0], day, users, hourMinute);
      var rest := ReportsOf(members[1..], msgs, day, users, hourMinute);
      if r.None? || rest.None? then None else Some([r.value] + rest.value)
  }

  lemma {:induction false} ReportsInOrderFrom(members: seq<string>, msgs: seq<Message>, loaded: seq<Message>, day: Day, users: seq<User>, hourMinute: int -> string)
    requires forall i, j :: 0 <= i < j < |members| ==> members[i] != members[j]
    requires forall u :: u in members ==> ReportEntries(msgs, u, day.start) == ReportEntries(loaded, u, day.start)
    ensures ReportsInOrder(members, msgs, day, users, hourMinute) == ReportsOf(members, loaded, day, users, hourMinute)
    decreases |members|
  {
    if |members| > 0 {
      var u := members[0];
      var next := MarkFormatted(msgs, u, day.start, NameTableOf(users));
      forall v | v in members[1..] ensures ReportEntries(next, v, day.start) == ReportEntries(loaded, v, day.start) {
        var k :| 0 <= k < |members[1..]| && members[1..][k] == v;
        assert members[k + 1] == v;
        MarkFormattedKeepsOthers(msgs, u, v, day.start, table := NameTableOf(users));
      }
      ReportsInOrderFrom(members[1..], next, loaded, day, users, hourMinute);
    }
  }

  /**
   * With a roster that lists each member once, the in-place rewriting of
   * cached texts is invisible to `send_reports`: every member's report is
   * the one the loaded snapshot gives.
   */
  lemma ReportsIgnoreRewrites(members: seq<string>, msgs: seq<Message>, day: Day, users: seq<User>, hourMinute: int -> string)
    requires forall i, j :: 0 <= i < j < |members| ==> members[i] != members[j]
    ensures ReportsInOrder(members, msgs, day, users, hourMinute) == ReportsOf(members, msgs, day, users, hourMinute)
  {
    ReportsInOrderFrom(members, msgs, msgs, day, users, hourMinute);
  }

  /** The separator `send_reports` puts between members' reports. */
  const ReportSeparator := "-------------\n"
}
