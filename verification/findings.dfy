/** The history load as the program writes it. Its query reads the whole
    message table, and that includes the rows this session inserted itself
    while history was on: every one of those is already in a buffer, so a
    later first load of that conversation shows it twice. The rest of the
    model uses `Session.LoadHistory`, which reads the rows stored before the
    session began, and `SessionLemmas.LiveThenLoad` proves each live line
    then appears exactly once. */
module Findings {
  import opened Seqs
  import opened Records
  import opened Store
  import opened Session

  /** `loadHistory` as written: the query runs against the whole table. */
  function LoadHistoryAsWritten(m: Model, jid: JID): (r: Model)
    ensures !m.historyEnabled || jid in m.historyLoaded ==> r == m
    ensures m.historyEnabled ==> r.historyLoaded == m.historyLoaded + {jid}
    ensures m.historyEnabled && jid !in m.historyLoaded ==>
              Buffer(r, jid) == RenderAll(Query(Table(m.db), jid)) + Buffer(m, jid)
    ensures forall j :: j != jid ==> Buffer(r, j) == Buffer(m, j)
  {
    LoadHistoryFrom(m, jid, Table(m.db))
  }

  /** The history query over rows holding one row of a conversation. */
  lemma QueryFindsOne(rows: seq<Message>, msg: Message)
    requires ChatRows(rows, msg.chat) == [msg]
    ensures Query(rows, msg.chat) == [msg]
  {
    var q := Query(rows, msg.chat);
    QueryKeepsOldest(rows, msg.chat);
    assert q[0] in multiset(q);
  }

  /** The table after a received message, filtered by its conversation. */
  lemma ReceivedRowIsOnlyRow(m: Model, msg: Message)
    requires ChatRows(Table(m.db), msg.chat) == []
    ensures m.historyEnabled ==> ChatRows(Table(Receive(m, msg).db), msg.chat) == [msg]
    ensures ChatRows(m.db.stored, msg.chat) == []
  {
    ChatRowsAppend(Table(m.db), [msg], msg.chat);
    ChatRowsAppend(m.db.stored, m.db.persisted, msg.chat);
    assert [msg][1..] == [];
  }

  /** After a message for a conversation with no stored rows and no
      loaded history, the as-written load shows it twice. */
  lemma AsWrittenAfterReceive(m: Model, msg: Message)
    requires m.historyEnabled && msg.chat !in m.historyLoaded && Buffer(m, msg.chat) == []
    requires ChatRows(Table(m.db), msg.chat) == []
    ensures Buffer(LoadHistoryAsWritten(Receive(m, msg), msg.chat), msg.chat) == [Render(msg), Render(msg)]
  {
    var r := Receive(m, msg);
    ReceivedRowIsOnlyRow(m, msg);
    QueryFindsOne(Table(r.db), msg);
    assert RenderAll([msg]) == [Render(msg)];
  }

  /** In the same situation the corrected load shows it once. */
  lemma CorrectedAfterReceive(m: Model, msg: Message)
    requires m.historyEnabled && msg.chat !in m.historyLoaded && Buffer(m, msg.chat) == []
    requires ChatRows(Table(m.db), msg.chat) == []
    ensures Buffer(LoadHistory(Receive(m, msg), msg.chat), msg.chat) == [Render(msg)]
  {
    ReceivedRowIsOnlyRow(m, msg);
    assert Query(m.db.stored, msg.chat) == [];
  }

  /** A message arrives, with history on, for a conversation whose history
      is not loaded yet and that has no stored rows (the usual case for a
      conversation that is new to the contact list). Loading its history
      afterwards, as written, shows the message twice; the corrected load
      shows it once. */
  lemma AsWrittenRepeatsLiveMessage(m: Model, msg: Message)
    requires CursorInBounds(m) && !m.quit && m.historyEnabled
    requires msg.chat !in m.historyLoaded && Buffer(m, msg.chat) == []
    requires ChatRows(Table(m.db), msg.chat) == []
    ensures var r := Step(m, Incoming(msg));
            && Buffer(LoadHistoryAsWritten(r, msg.chat), msg.chat) == [Render(msg), Render(msg)]
            && Buffer(LoadHistory(r, msg.chat), msg.chat) == [Render(msg)]
  {
    assert Step(m, Incoming(msg)) == Receive(m, msg);
    AsWrittenAfterReceive(m, msg);
    CorrectedAfterReceive(m, msg);
  }
}
