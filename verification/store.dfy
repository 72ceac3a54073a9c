/** The message store as the session sees it: the `cli_messages` table, the
    `history_enabled` setting, and the two queries the session issues
    against them. Storage failures are not modelled: every query answers and
    every write lands. */
module Store {
  import opened Seqs
  import opened Ordering
  import opened Records

  /** Row cap of one history load (`LIMIT 100`). */
  const HistoryLimit := 100

  /** Row cap of the startup recent-chats query (`LIMIT 20`). */
  const RecentLimit := 20

  /** `stored` holds the rows present when the session began, oldest insert
      first; `persisted` the rows this session has inserted since, in insert
      order; `setting` the `history_enabled` row of `cli_settings`, if any. */
  datatype Db = Db(stored: seq<Message>, persisted: seq<Message>, setting: Option<string>)

  /** The whole `cli_messages` table. */
  function Table(db: Db): seq<Message> {
    db.stored + db.persisted
  }

  /** `saveMessage`: one inserted row, appended to the table. */
  function Persist(db: Db, msg: Message): (r: Db)
    ensures Table(r) == Table(db) + [msg]
    ensures r.stored == db.stored && r.setting == db.setting
  {
    db.(persisted := db.persisted + [msg])
  }

  // ---- the history_enabled setting ----

  /** The value written for a flag. */
  function SettingText(enabled: bool): (t: string)
    ensures SettingAtStartup(Some(t)) == enabled
  {
    if enabled then "true" else "false"
  }

  /** The flag read at startup: on when the row is missing, otherwise on
      exactly when the stored text is "true". */
  function SettingAtStartup(value: Option<string>): (enabled: bool)
    ensures value.None? ==> enabled
    ensures value.Some? ==> (enabled <==> value.value == "true")
  {
    value.None? || value.value == "true"
  }

  /** Startup: reads the flag, inserting the default row when it is missing. */
  function OpenSettings(db: Db): (r: (bool, Db))
    ensures r.1.setting.Some? && SettingAtStartup(r.1.setting) == r.0
    ensures r.0 == SettingAtStartup(db.setting)
    ensures r.1.stored == db.stored && r.1.persisted == db.persisted
    ensures db.setting.Some? ==> r.1 == db
  {
    if db.setting.Some? then (SettingAtStartup(db.setting), db)
    else (true, db.(setting := Some(SettingText(true))))
  }

  /** `UPDATE cli_settings SET value = ? WHERE key = 'history_enabled'`:
      changes an existing row and does nothing when the row is missing. */
  function WriteSetting(db: Db, enabled: bool): (r: Db)
    ensures r.stored == db.stored && r.persisted == db.persisted
    ensures db.setting.Some? ==> r.setting.Some? && SettingAtStartup(r.setting) == enabled
    ensures db.setting.None? ==> r == db
  {
    if db.setting.Some? then db.(setting := Some(SettingText(enabled))) else db
  }

  // ---- history query ----

  /** `ORDER BY timestamp`: rows compared by timestamp only. */
  predicate ByTime(a: Message, b: Message) {
    a.time <= b.time
  }

  lemma ByTimeIsTotalPreorder()
    ensures TotalPreorder(ByTime)
  {
  }

  /** `WHERE chat_jid = ?`: the rows of one conversation, in table order. */
  function ChatRows(rows: seq<Message>, jid: JID): (f: seq<Message>)
    ensures |f| <= |rows|
    ensures forall k :: 0 <= k < |f| ==> f[k].chat == jid
    decreases |rows|
  {
    if |rows| == 0 then []
    else (if rows[0].chat == jid then [rows[0]] else []) + ChatRows(rows[1..], jid)
  }

  /** The filter keeps every row of the conversation, as often as it occurs,
      and nothing else. */
  lemma {:induction false} ChatRowsCount(rows: seq<Message>, jid: JID, x: Message)
    ensures multiset(ChatRows(rows, jid))[x] == if x.chat == jid then multiset(rows)[x] else 0
    decreases |rows|
  {
    if |rows| > 0 {
      ChatRowsCount(rows[1..], jid, x);
      assert rows == [rows[0]] + rows[1..];
    }
  }

  /** Filtering a concatenation filters each part. */
  lemma {:induction false} ChatRowsAppend(a: seq<Message>, b: seq<Message>, jid: JID)
    ensures ChatRows(a + b, jid) == ChatRows(a, jid) + ChatRows(b, jid)
    decreases |a|
  {
    if |a| > 0 {
      ChatRowsAppend(a[1..], b, jid);
      assert (a + b)[1..] == a[1..] + b;
      var head := if a[0].chat == jid then [a[0]] else [];
      assert ChatRows(a + b, jid) == head + ChatRows(a[1..] + b, jid);
      assert ChatRows(a, jid) == head + ChatRows(a[1..], jid);
    } else {
      assert a + b == b;
    }
  }

  /** A prefix of a sorted sequence holds its least elements. */
  lemma PrefixHoldsLeast(s: seq<Message>, n: nat, k: int, x: Message)
    requires Sorted(s, ByTime) && n <= |s| && 0 <= k < n
    requires x in multiset(s) - multiset(s[..n])
    ensures s[k].time <= x.time
  {
    assert s == s[..n] + s[n..];
    assert multiset(s) - multiset(s[..n]) == multiset(s[n..]);
    assert x in s[n..];
    var j :| n <= j < |s| && s[j] == x;
    assert ByTime(s[k], s[j]);
  }

  /** The first `n` rows of a time-sorted sequence are sorted and are its
      oldest rows. */
  lemma TakeOldest(s: seq<Message>, n: nat)
    requires Sorted(s, ByTime)
    ensures var q := Take(s, n);
            && Sorted(q, ByTime)
            && multiset(q) <= multiset(s)
            && (forall k, x :: 0 <= k < |q| && x in multiset(s) - multiset(q) ==> q[k].time <= x.time)
  {
    var q := Take(s, n);
    assert q == s[..|q|];
    assert s == q + s[|q|..];
    forall k, x | 0 <= k < |q| && x in multiset(s) - multiset(q)
      ensures q[k].time <= x.time
    {
      PrefixHoldsLeast(s, |q|, k, x);
    }
  }

  /** Every row drawn from one conversation's rows belongs to it. */
  lemma DrawnRowsBelong(rows: seq<Message>, jid: JID, q: seq<Message>)
    requires multiset(q) <= multiset(ChatRows(rows, jid))
    ensures forall k :: 0 <= k < |q| ==> q[k].chat == jid
  {
    forall k | 0 <= k < |q|
      ensures q[k].chat == jid
    {
      assert q[k] in multiset(q);
    }
  }

  /** The history query of one conversation: `SELECT ... WHERE chat_jid = ?
      ORDER BY timestamp ASC LIMIT 100`, at most `HistoryLimit` rows of that
      conversation in ascending time; which rows they are is
      `QueryKeepsOldest`. Rows with equal timestamps keep their table order. */
  function Query(rows: seq<Message>, jid: JID): (q: seq<Message>)
    ensures |q| == Min(HistoryLimit, |ChatRows(rows, jid)|)
    ensures Sorted(q, ByTime)
    ensures forall k :: 0 <= k < |q| ==> q[k].chat == jid
  {
    ByTimeIsTotalPreorder();
    var sorted := Sort(ChatRows(rows, jid), ByTime);
    TakeOldest(sorted, HistoryLimit);
    DrawnRowsBelong(rows, jid, Take(sorted, HistoryLimit));
    Take(sorted, HistoryLimit)
  }

  /** The rows the history query answers are the conversation's OLDEST rows:
      drawn from its rows, and none of those left out is older than any
      of them. */
  lemma QueryKeepsOldest(rows: seq<Message>, jid: JID)
    ensures var q := Query(rows, jid);
            && multiset(q) <= multiset(ChatRows(rows, jid))
            && forall k, x :: 0 <= k < |q| && x in multiset(ChatRows(rows, jid)) - multiset(q) ==> q[k].time <= x.time
  {
    ByTimeIsTotalPreorder();
    TakeOldest(Sort(ChatRows(rows, jid), ByTime), HistoryLimit);
  }

  // ---- recent chats query ----

  /** The conversations that have at least one row. */
  function Chats(rows: seq<Message>): set<JID> {
    set r | r in rows :: r.chat
  }

  /** `ORDER BY timestamp DESC`: newer rows first. */
  predicate NewerFirst(a: Message, b: Message) {
    a.time >= b.time
  }

  lemma NewerFirstIsTotalPreorder()
    ensures TotalPreorder(NewerFirst)
  {
  }

  /** The conversation identifier of every row, in row order. */
  function ChatIds(rows: seq<Message>): (ids: seq<JID>)
    ensures |ids| == |rows|
    ensures forall k :: 0 <= k < |rows| ==> ids[k] == rows[k].chat
  {
    seq(|rows|, k requires 0 <= k < |rows| => rows[k].chat)
  }

  /** A rearrangement of the rows names the same conversations. */
  lemma ChatIdsOfPermutation(rows: seq<Message>, s: seq<Message>)
    requires multiset(s) == multiset(rows)
    ensures forall id :: id in ChatIds(s) <==> id in Chats(rows)
  {
    var ids := ChatIds(s);
    forall id | id in ids
      ensures id in Chats(rows)
    {
      var i :| 0 <= i < |ids| && ids[i] == id;
      assert s[i] in multiset(rows);
    }
    forall id | id in Chats(rows)
      ensures id in ids
    {
      var r :| r in rows && r.chat == id;
      assert r in multiset(s);
      var j :| 0 <= j < |s| && s[j] == r;
      assert ids[j] == id;
    }
  }

  /** `SELECT chat_jid ... ORDER BY timestamp DESC`: one identifier per row,
      newest row first. */
  function ChatsNewestFirst(rows: seq<Message>): (ids: seq<JID>)
    ensures |ids| == |rows|
    ensures forall id :: id in ids <==> id in Chats(rows)
  {
    NewerFirstIsTotalPreorder();
    var s := Sort(rows, NewerFirst);
    assert |s| == |multiset(s)| == |multiset(rows)| == |rows|;
    ChatIdsOfPermutation(rows, s);
    ChatIds(s)
  }

  /** `loadRecentChats`' query, `SELECT DISTINCT chat_jid FROM cli_messages
      ORDER BY timestamp DESC LIMIT 20`: distinct conversations with stored
      rows, at most `RecentLimit`, and all of them when fewer exist. */
  function RecentChats(rows: seq<Message>): (ids: seq<JID>)
    ensures Distinct(ids)
    ensures |ids| <= RecentLimit
    ensures forall id :: id in ids ==> id in Chats(rows)
    ensures |ids| < RecentLimit ==> forall id :: id in Chats(rows) ==> id in ids
  {
    var all := Dedup(ChatsNewestFirst(rows));
    var ids := Take(all, RecentLimit);
    assert ids == all[..|ids|];
    assert |ids| < RecentLimit ==> ids == all;
    ids
  }
}
