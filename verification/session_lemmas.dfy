/** Properties of the session that relate several calls or several events. */
module SessionLemmas {
  import opened Text
  import opened Seqs
  import opened Ordering
  import opened Records
  import opened Store
  import opened Session

  /** Loading a conversation's history twice in a row is loading it once. */
  lemma LoadHistoryIdempotent(m: Model, jid: JID)
    ensures LoadHistory(LoadHistory(m, jid), jid) == LoadHistory(m, jid)
    ensures m.historyEnabled ==> jid in LoadHistory(m, jid).historyLoaded
  {
  }

  /** Insertion of one identifier into a sorted contact list, in its place. */
  function InsertContact(x: JID, contacts: seq<JID>): (r: seq<JID>)
    requires Sorted(contacts, LessEq)
    ensures Sorted(r, LessEq) && multiset(r) == multiset(contacts) + multiset{x}
  {
    StringOrder();
    Insert(x, contacts, LessEq)
  }

  /** Once the contact list is sorted, an incoming message for an unseen
      conversation puts it in its place, as an insertion into a sorted list would. */
  lemma ReceiveInsertsInPlace(m: Model, msg: Message)
    requires Sorted(m.contacts, LessEq) && msg.chat !in m.contacts
    ensures Receive(m, msg).contacts == InsertContact(msg.chat, m.contacts)
  {
    StringOrder();
    SortIsInsert(msg.chat, m.contacts, LessEq);
  }

  /** A sorted contact list stays sorted through any sequence of events. */
  lemma {:induction false} RunKeepsSorted(m: Model, es: seq<Event>)
    requires CursorInBounds(m) && Sorted(m.contacts, LessEq)
    ensures Sorted(Run(m, es).contacts, LessEq)
    decreases |es|
  {
    if |es| > 0 {
      var next := Step(m, es[0]);
      assert Sorted(next.contacts, LessEq) by {
        if !m.quit && es[0].Incoming? && es[0].msg.chat !in m.contacts {
          assert next == Receive(m, es[0].msg);
        }
      }
      RunKeepsSorted(next, es[1..]);
    }
  }

  /** After a quit no event changes anything. */
  lemma {:induction false} QuitIsFinal(m: Model, es: seq<Event>)
    requires CursorInBounds(m) && m.quit
    ensures Run(m, es) == m
    decreases |es|
  {
    if |es| > 0 {
      QuitIsFinal(Step(m, es[0]), es[1..]);
    }
  }

  /** The cursor bounds hold in every state of every session. */
  lemma SessionKeepsInvariant(client: Client, rows: seq<Message>, setting: Option<string>, es: seq<Event>)
    ensures var m := Run(Start(client, rows, setting), es);
            && (|m.contacts| == 0 ==> m.cursor == 0)
            && (|m.contacts| > 0 ==> 0 <= m.cursor < |m.contacts|)
            && Distinct(m.contacts)
  {
  }

  function Incomings(msgs: seq<Message>): (es: seq<Event>)
    ensures |es| == |msgs|
    ensures forall k :: 0 <= k < |msgs| ==> es[k] == Incoming(msgs[k])
  {
    seq(|msgs|, k requires 0 <= k < |msgs| => Incoming(msgs[k]))
  }

  lemma IncomingsTail(msgs: seq<Message>)
    requires |msgs| > 0
    ensures Incomings(msgs)[0] == Incoming(msgs[0])
    ensures Incomings(msgs)[1..] == Incomings(msgs[1..])
  {
  }

  lemma RenderAllCons(msgs: seq<Message>)
    requires |msgs| > 0
    ensures RenderAll(msgs) == [Render(msgs[0])] + RenderAll(msgs[1..])
  {
  }

  /** The handler applied to incoming messages one after another. It
      leaves the store's session-start rows, the history flag, the loaded
      set and the run state alone. */
  function ReceiveAll(m: Model, msgs: seq<Message>): (r: Model)
    ensures r.db.stored == m.db.stored
    ensures r.historyEnabled == m.historyEnabled && r.historyLoaded == m.historyLoaded
    ensures r.quit == m.quit
    decreases |msgs|
  {
    if |msgs| == 0 then m else ReceiveAll(Receive(m, msgs[0]), msgs[1..])
  }

  /** A run of incoming events is handled as the messages' receptions in turn. */
  lemma {:induction false} RunIncomings(m: Model, msgs: seq<Message>)
    requires CursorInBounds(m) && !m.quit
    ensures Run(m, Incomings(msgs)) == ReceiveAll(m, msgs)
    decreases |msgs|
  {
    if |msgs| == 0 {
      assert Incomings(msgs) == [];
    } else {
      IncomingsTail(msgs);
      var next := Step(m, Incoming(msgs[0]));
      assert next == Receive(m, msgs[0]);
      RunIncomings(next, msgs[1..]);
    }
  }

  lemma ReceiveAllCons(m: Model, msgs: seq<Message>)
    requires |msgs| > 0
    ensures ReceiveAll(m, msgs) == ReceiveAll(Receive(m, msgs[0]), msgs[1..])
  {
  }

  /** Messages received for a conversation append their lines to it in
      arrival order. */
  lemma {:induction false} LiveAppends(m: Model, msgs: seq<Message>, jid: JID)
    requires forall k :: 0 <= k < |msgs| ==> msgs[k].chat == jid
    ensures Buffer(ReceiveAll(m, msgs), jid) == Buffer(m, jid) + RenderAll(msgs)
    decreases |msgs|
  {
    if |msgs| == 0 {
      assert RenderAll(msgs) == [];
    } else {
      var next := Receive(m, msgs[0]);
      LiveAppends(next, msgs[1..], jid);
      ReceiveAllCons(m, msgs);
      RenderAllCons(msgs);
      AppendAssoc(Buffer(m, jid), [Render(msgs[0])], RenderAll(msgs[1..]));
    }
  }

  /** The merge order of a history load: lines received for a conversation
      before its first load end up behind the loaded rows, each exactly
      once: history ++ live. */
  lemma LiveThenLoad(m: Model, msgs: seq<Message>, jid: JID)
    requires CursorInBounds(m) && !m.quit && m.historyEnabled && jid !in m.historyLoaded
    requires forall k :: 0 <= k < |msgs| ==> msgs[k].chat == jid
    ensures var r := LoadHistory(Run(m, Incomings(msgs)), jid);
            && Buffer(r, jid) == RenderAll(Query(m.db.stored, jid)) + Buffer(m, jid) + RenderAll(msgs)
            && |Buffer(r, jid)| == |Query(m.db.stored, jid)| + |Buffer(m, jid)| + |msgs|
  {
    RunIncomings(m, msgs);
    LiveAppends(m, msgs, jid);
  }

  /** Running a concatenation runs its parts in turn. */
  lemma {:induction false} RunAppend(m: Model, a: seq<Event>, b: seq<Event>)
    requires CursorInBounds(m)
    ensures Run(m, a + b) == Run(Run(m, a), b)
    decreases |a|
  {
    if |a| == 0 {
      assert a + b == b;
    } else {
      assert (a + b)[0] == a[0];
      assert (a + b)[1..] == a[1..] + b;
      RunAppend(Step(m, a[0]), a[1..], b);
    }
  }

  /** Typing a text into the empty field and pressing enter sends it once,
      and stores it exactly when history is on. */
  lemma TypeAndSend(m: Model, text: string, now: Time)
    requires CursorInBounds(m) && !m.quit && |m.contacts| > 0 && m.input == ""
    requires 0 < |text| <= CharLimit
    ensures var r := Run(m, [Press(Runes(text)), Press(Enter(now))]);
            var target := m.contacts[m.cursor];
            && r.input == "" && !r.quit
            && r.contacts == m.contacts && r.cursor == m.cursor
            && r.historyEnabled == m.historyEnabled
            && r.client.sent == m.client.sent + [Outgoing(target, text)]
            && Table(r.db) == (if m.historyEnabled then Table(m.db) + [Message(target, SelfLabel, text, true, now)] else Table(m.db))
  {
    var es := [Press(Runes(text)), Press(Enter(now))];
    var typed := m.(input := text);
    assert Step(m, es[0]) == typed;
    var sent := SendMessage(typed, now);
    assert Step(typed, es[1]) == sent;
    assert es[1..][1..] == [];
    assert Run(m, es) == Run(typed, es[1..]) == Run(sent, []) == sent;
  }

  /** The history toggle as a one-event session. */
  lemma ToggleRun(m: Model)
    requires CursorInBounds(m) && !m.quit
    ensures var r := Run(m, [Press(HistoryToggle)]);
            && r.historyEnabled == !m.historyEnabled
            && Table(r.db) == Table(m.db)
            && r.client == m.client && r.contacts == m.contacts && r.cursor == m.cursor
            && r.input == m.input && !r.quit
  {
    var es := [Press(HistoryToggle)];
    assert es[1..] == [];
    assert Run(m, es) == Run(Toggle(m), []);
  }

  /** The key presses that toggle history and then type and send `text`. */
  function ToggleAndSend(text: string, now: Time): (es: seq<Event>)
    ensures |es| == 3 && es[0] == Press(HistoryToggle)
  {
    [Press(HistoryToggle), Press(Runes(text)), Press(Enter(now))]
  }

  /** Toggling history and then sending a text stores it exactly when the
      toggle turned history on. */
  lemma ToggleThenSend(m: Model, text: string, now: Time)
    requires CursorInBounds(m) && !m.quit && |m.contacts| > 0 && m.input == ""
    requires 0 < |text| <= CharLimit
    ensures var r := Run(m, ToggleAndSend(text, now));
            var target := m.contacts[m.cursor];
            && r.historyEnabled == !m.historyEnabled
            && Table(r.db) == (if r.historyEnabled then Table(m.db) + [Message(target, SelfLabel, text, true, now)] else Table(m.db))
            && r.client.sent == m.client.sent + [Outgoing(target, text)]
            && r.input == "" && !r.quit
            && r.contacts == m.contacts && r.cursor == m.cursor
  {
    var toggle := [Press(HistoryToggle)];
    var send := [Press(Runes(text)), Press(Enter(now))];
    ToggleRun(m);
    TypeAndSend(Run(m, toggle), text, now);
    RunAppend(m, toggle, send);
    assert toggle + send == ToggleAndSend(text, now);
  }

  /** Sending with history off stores nothing; after turning it back on the
      next send stores exactly one row. Both sends are requested. */
  lemma ToggleGatesPersistence(m: Model, text: string, t1: Time, t2: Time)
    requires CursorInBounds(m) && !m.quit && m.historyEnabled && |m.contacts| > 0 && m.input == ""
    requires 0 < |text| <= CharLimit
    ensures var r := Run(m, ToggleAndSend(text, t1) + ToggleAndSend(text, t2));
            var target := m.contacts[m.cursor];
            && r.historyEnabled
            && Table(r.db) == Table(m.db) + [Message(target, SelfLabel, text, true, t2)]
            && r.client.sent == m.client.sent + [Outgoing(target, text)] + [Outgoing(target, text)]
            && r.input == ""
  {
    ToggleThenSend(m, text, t1);
    ToggleThenSend(Run(m, ToggleAndSend(text, t1)), text, t2);
    RunAppend(m, ToggleAndSend(text, t1), ToggleAndSend(text, t2));
  }

  /** A new conversation joins the contact list at its sorted place while
      the cursor index stays, so the selected conversation can change: with
      "b@x" selected, a message from "a@x" moves the selection to "a@x". */
  lemma NewContactShiftsSelection(m: Model, msg: Message)
    requires m.contacts == ["b@x"] && m.cursor == 0 && !m.quit
    requires msg.chat == "a@x"
    ensures var r := Step(m, Incoming(msg));
            && r.contacts == ["a@x", "b@x"]
            && r.cursor == 0
            && r.contacts[r.cursor] == "a@x"
  {
    StringOrder();
    var r := Step(m, Incoming(msg));
    assert r == Receive(m, msg);
    assert LessEq("a@x", "b@x");
    assert Sorted(["a@x", "b@x"], LessEq);
    assert multiset(r.contacts) == multiset(["a@x", "b@x"]);
    SortedArrangementUnique(r.contacts, ["a@x", "b@x"], LessEq);
  }

  /** A table holding one row names one conversation. */
  lemma ChatsOfOne(msg: Message)
    ensures Chats([msg]) == {msg.chat}
  {
    assert msg in [msg];
  }

  /** A duplicate-free list drawn from a single conversation that names it
      is that conversation alone. */
  lemma OnlyChat(ids: seq<JID>, jid: JID)
    requires Distinct(ids) && jid in ids && forall id :: id in ids ==> id == jid
    ensures ids == [jid]
  {
    forall i | 0 <= i < |ids|
      ensures ids[i] == jid
    {
      assert ids[i] in ids;
    }
    ConstantCount(ids, jid);
    DistinctCount(ids, jid);
  }

  /** The history query of a table with one row of the conversation is that row. */
  lemma QueryOfOne(msg: Message)
    ensures Query([msg], msg.chat) == [msg]
  {
    assert [msg][1..] == [];
    assert ChatRows([msg], msg.chat) == [msg];
    var q := Query([msg], msg.chat);
    QueryKeepsOldest([msg], msg.chat);
    assert q[0] in multiset(q);
  }

  /** With history on, a table holding one row gives a contact list of that
      row's conversation alone. */
  lemma ContactsOfOneRow(client: Client, db: Db, stored: Message)
    requires db.stored == [stored]
    ensures Unloaded(client, db, true).contacts == [stored.chat]
  {
    var m := Unloaded(client, db, true);
    ChatsOfOne(stored);
    assert |Dedup(ChatsNewestFirst(db.stored))| <= 1;
    assert |m.contacts| < RecentLimit;
    assert stored.chat in m.contacts;
    OnlyChat(m.contacts, stored.chat);
  }

  /** With history on, a table holding one row starts on that row's
      conversation with the row shown. */
  lemma InitialOnOneRow(client: Client, db: Db, stored: Message)
    requires db.stored == [stored]
    ensures var m := InitialModel(client, db, true);
            && m.contacts == [stored.chat] && m.cursor == 0
            && Buffer(m, stored.chat) == [Render(stored)]
  {
    ContactsOfOneRow(client, db, stored);
    assert InitialModel(client, db, true).contacts == Unloaded(client, db, true).contacts;
    QueryOfOne(stored);
    assert RenderAll([stored]) == [Render(stored)];
  }

  /** A table holding one row and no setting starts a session with history
      on, on that row's conversation, with the row shown. */
  lemma StartOnOneRow(client: Client, stored: Message)
    ensures var m := Start(client, [stored], None);
            && m.historyEnabled && !m.quit && m.db.stored == [stored] && m.db.persisted == []
            && m.contacts == [stored.chat] && m.cursor == 0
            && Buffer(m, stored.chat) == [Render(stored)]
  {
    var db := Db([stored], [], Some(SettingText(true)));
    assert OpenSettings(Db([stored], [], None)) == (true, db);
    InitialOnOneRow(client, db, stored);
  }

  /** A stored row is shown at startup in its conversation, which becomes
      the only contact and is selected; a message received for it afterwards
      is shown after that row, and stored too since history is on. */
  lemma HistoryThenLive(client: Client, stored: Message, live: Message)
    requires live.chat == stored.chat
    ensures var r := Step(Start(client, [stored], None), Incoming(live));
            && r.contacts == [stored.chat] && r.cursor == 0
            && Buffer(r, stored.chat) == [Render(stored), Render(live)]
            && Table(r.db) == [stored, live]
  {
    var m := Start(client, [stored], None);
    StartOnOneRow(client, stored);
    assert Table(m.db) == [stored];
    assert Step(m, Incoming(live)) == Receive(m, live);
  }
}
