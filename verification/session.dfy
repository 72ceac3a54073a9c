/** The session state machine of the terminal client: the `model` record,
    startup, history loading, the optimistic send and the event handler
    (`Update`), as one pure transition `Step(m, e)`.

    The messaging client and the database become values inside the model:
    `Client` records the name-lookup answers, the connection flag and the
    sends requested; `Db` records the message table and the setting row. */
module Session {
  import opened Text
  import opened Seqs
  import opened Ordering
  import opened Records
  import opened Store

  /** Rune limit of the text field. */
  const CharLimit := 1000

  /** Width of the text field before the first resize. */
  const InitialInputWidth := 50

  /** Columns taken by the contact pane and the borders; the chat and input
      panes get the rest. */
  const SidebarAllowance := 34

  /** A send requested from the messaging client. Its outcome is never
      reported back to the session. */
  datatype Outgoing = Outgoing(to: JID, text: string)

  /** `directory` holds what the name lookup answers for a conversation;
      `sent` lists the sends requested, oldest first. */
  datatype Client = Client(directory: map<JID, string>, connected: bool, sent: seq<Outgoing>)

  /** The keys the handler distinguishes. `Quit` is "ctrl+c" or "esc",
      `HistoryToggle` is "ctrl+h", `Enter` carries the clock reading taken
      when the message is sent, and `Runes` is text typed into the field. */
  datatype Key = Quit | HistoryToggle | Up | Down | Enter(now: Time) | Runes(text: string)

  datatype Event = Resize(width: int, height: int) | Press(key: Key) | Incoming(msg: Message)

  /** The `model` record. `historyLoaded` is the set of identifiers whose
      map entry is true; `quit` is set once the program has been told to stop. */
  datatype Model = Model(
    client: Client,
    db: Db,
    width: int,
    height: int,
    inputWidth: int,
    input: string,
    conversations: map<JID, seq<Line>>,
    contacts: seq<JID>,
    names: map<JID, string>,
    historyLoaded: set<JID>,
    historyEnabled: bool,
    cursor: int,
    quit: bool)

  /** The lines of one conversation; a missing entry reads as empty. */
  function Buffer(m: Model, jid: JID): seq<Line> {
    if jid in m.conversations then m.conversations[jid] else []
  }

  /** The cursor indexes the contact list, and rests at 0 while it is empty. */
  predicate CursorInBounds(m: Model) {
    if |m.contacts| == 0 then m.cursor == 0 else 0 <= m.cursor < |m.contacts|
  }

  /** What holds of every state the session reaches. */
  predicate Inv(m: Model) {
    && CursorInBounds(m)
    && Distinct(m.contacts)
    && |m.input| <= CharLimit
  }

  /** The name lookup of a conversation; an identifier it cannot resolve is
      shown by its user part, the text before '@'. */
  function ResolveName(client: Client, jid: JID): string {
    if jid in client.directory then client.directory[jid] else BeforeAt(jid)
  }

  // ---- the contact order ----

  lemma StringOrder()
    ensures TotalPreorder(LessEq) && Antisymmetric(LessEq)
  {
    forall a: string, b: string
      ensures LessEq(a, b) || LessEq(b, a)
    {
      LessEqTotal(a, b);
    }
    forall a: string, b: string, c: string | LessEq(a, b) && LessEq(b, c)
      ensures LessEq(a, c)
    {
      LessEqTransitive(a, b, c);
    }
    forall a: string, b: string | LessEq(a, b) && LessEq(b, a)
      ensures a == b
    {
      LessEqAntisymmetric(a, b);
    }
  }

  /** `sort.Strings`. Strings have one sorted arrangement
      (`SortedArrangementUnique`), so insertion sort returns what Go's sort does. */
  function SortStrings(s: seq<string>): (r: seq<string>)
    ensures Sorted(r, LessEq)
    ensures multiset(r) == multiset(s)
  {
    StringOrder();
    Sort(s, LessEq)
  }

  // ---- history ----

  /** `loadHistory(jid)` answering its query from `rows`. */
  function LoadHistoryFrom(m: Model, jid: JID, rows: seq<Message>): (r: Model)
    ensures !m.historyEnabled || jid in m.historyLoaded ==> r == m
    ensures m.historyEnabled ==> r.historyLoaded == m.historyLoaded + {jid}
    ensures m.historyEnabled && jid !in m.historyLoaded ==>
              Buffer(r, jid) == RenderAll(Query(rows, jid)) + Buffer(m, jid)
    ensures forall j :: j != jid ==> Buffer(r, j) == Buffer(m, j)
    ensures r.(conversations := m.conversations, historyLoaded := m.historyLoaded) == m
  {
    if !m.historyEnabled || jid in m.historyLoaded then m
    else
      m.(conversations := m.conversations[jid := RenderAll(Query(rows, jid)) + Buffer(m, jid)],
         historyLoaded := m.historyLoaded + {jid})
  }

  /** The corrected `loadHistory(jid)`: at most once per conversation and only while
      history is on, puts the conversation's oldest stored rows, ascending by
      time, IN FRONT of the lines already buffered. The query reads the rows
      stored before the session began: every row the session inserts itself
      is already in a buffer (see `LiveThenLoad`). */
  function LoadHistory(m: Model, jid: JID): (r: Model)
    ensures !m.historyEnabled || jid in m.historyLoaded ==> r == m
    ensures m.historyEnabled ==> jid in r.historyLoaded && r.historyLoaded == m.historyLoaded + {jid}
    ensures m.historyEnabled && jid !in m.historyLoaded ==>
              && Buffer(r, jid) == RenderAll(Query(m.db.stored, jid)) + Buffer(m, jid)
              && |Buffer(r, jid)| <= HistoryLimit + |Buffer(m, jid)|
    ensures forall j :: j != jid ==> Buffer(r, j) == Buffer(m, j)
    ensures r.(conversations := m.conversations, historyLoaded := m.historyLoaded) == m
  {
    LoadHistoryFrom(m, jid, m.db.stored)
  }

  // ---- startup ----

  /** The model `initialModel` builds before its first history load: the
      recent conversations as contact list when history is on, none otherwise. */
  function Unloaded(client: Client, db: Db, historyEnabled: bool): (m: Model)
    ensures Inv(m) && !m.quit && m.cursor == 0 && m.input == ""
    ensures m.db == db && m.historyEnabled == historyEnabled
    ensures m.conversations == map[] && m.historyLoaded == {}
    ensures !historyEnabled ==> m.contacts == []
    ensures |m.contacts| <= RecentLimit
    ensures forall id :: id in m.contacts ==> id in Chats(db.stored) && id in m.names && m.names[id] == ResolveName(client, id)
    ensures historyEnabled && |m.contacts| < RecentLimit ==> forall id :: id in Chats(db.stored) ==> id in m.contacts
  {
    var contacts := if historyEnabled then RecentChats(db.stored) else [];
    var names := map j | j in contacts :: ResolveName(client, j);
    Model(client, db, 0, 0, InitialInputWidth, "", map[], contacts, names, {}, historyEnabled, 0, false)
  }

  /** `initialModel` after the setting has been read: with history on, the
      recent conversations become the contact list and the first of them has
      its history loaded; with history off the list starts empty. */
  function InitialModel(client: Client, db: Db, historyEnabled: bool): (m: Model)
    ensures Inv(m) && !m.quit && m.cursor == 0 && m.input == ""
    ensures m.db == db && m.historyEnabled == historyEnabled
    ensures !historyEnabled ==> m.contacts == []
    ensures |m.contacts| <= RecentLimit
    ensures forall id :: id in m.contacts ==> id in Chats(db.stored) && id in m.names && m.names[id] == ResolveName(client, id)
    ensures historyEnabled && |m.contacts| < RecentLimit ==> forall id :: id in Chats(db.stored) ==> id in m.contacts
    ensures |m.contacts| == 0 ==> m.historyLoaded == {} && m.conversations == map[]
    ensures |m.contacts| > 0 ==>
              && m.historyLoaded == {m.contacts[0]}
              && Buffer(m, m.contacts[0]) == RenderAll(Query(db.stored, m.contacts[0]))
              && forall j :: j != m.contacts[0] ==> Buffer(m, j) == []
  {
    var m := Unloaded(client, db, historyEnabled);
    if |m.contacts| > 0 then
      var r := LoadHistory(m, m.contacts[0]);
      assert r.contacts == m.contacts && r.names == m.names && r.input == m.input;
      r
    else m
  }

  /** Process start: reads the setting (inserting the default row when it
      is missing), opens the table with the rows found on disk and builds the
      initial model. */
  function Start(client: Client, rows: seq<Message>, setting: Option<string>): (m: Model)
    ensures Inv(m) && !m.quit
    ensures m.historyEnabled == SettingAtStartup(setting)
    ensures m.db.stored == rows && m.db.persisted == []
    ensures m.db.setting.Some? && SettingAtStartup(m.db.setting) == m.historyEnabled
  {
    var boot := OpenSettings(Db(rows, [], setting));
    InitialModel(client, boot.1, boot.0)
  }

  // ---- event handling ----

  /** A window-size event: the text field takes the width beside the
      contact pane. */
  function ApplyResize(m: Model, width: int, height: int): (r: Model)
    ensures r.width == width && r.height == height
    ensures r.inputWidth == width - SidebarAllowance
    ensures r.(width := m.width, height := m.height, inputWidth := m.inputWidth) == m
  {
    m.(width := width, height := height, inputWidth := width - SidebarAllowance)
  }

  /** Quitting disconnects the client and stops the program. */
  function Disconnect(m: Model): (r: Model)
    ensures r.quit && !r.client.connected
    ensures r.client.sent == m.client.sent && r.client.directory == m.client.directory
    ensures r.(client := m.client, quit := m.quit) == m
  {
    m.(client := m.client.(connected := false), quit := true)
  }

  /** Typed runes go to the end of the field; the field never grows past
      `CharLimit`, and what does not fit is dropped. */
  function TypeRunes(input: string, text: string): (r: string)
    ensures input <= r && r[|input|..] <= text
    ensures |input| <= CharLimit ==> |r| <= CharLimit
    ensures |input| + |text| <= CharLimit ==> r == input + text
    ensures |input| <= CharLimit ==> |r| == Min(CharLimit, |input| + |text|)
  {
    var room := CharLimit - |input|;
    if room <= 0 then input
    else if room < |text| then input + text[..room]
    else input + text
  }

  /** The history toggle: flips the flag and writes it to the setting row;
      turning history on loads the selected conversation's history, turning
      it off touches no buffer. */
  function Toggle(m: Model): (r: Model)
    requires CursorInBounds(m)
    ensures CursorInBounds(r)
    ensures r.historyEnabled == !m.historyEnabled
    ensures m.db.setting.Some? ==> r.db.setting.Some? && SettingAtStartup(r.db.setting) == r.historyEnabled
    ensures r.db.stored == m.db.stored && r.db.persisted == m.db.persisted
    ensures !r.historyEnabled ==> r.conversations == m.conversations && r.historyLoaded == m.historyLoaded
    ensures r.historyEnabled && |m.contacts| > 0 ==>
              && m.contacts[m.cursor] in r.historyLoaded
              && (m.contacts[m.cursor] !in m.historyLoaded ==>
                    Buffer(r, m.contacts[m.cursor]) == RenderAll(Query(m.db.stored, m.contacts[m.cursor])) + Buffer(m, m.contacts[m.cursor]))
    ensures r.historyEnabled && |m.contacts| == 0 ==> r.conversations == m.conversations && r.historyLoaded == m.historyLoaded
    ensures forall j :: |m.contacts| == 0 || j != m.contacts[m.cursor] ==> Buffer(r, j) == Buffer(m, j)
    ensures r.contacts == m.contacts && r.cursor == m.cursor && r.input == m.input && r.names == m.names
    ensures r.client == m.client && r.quit == m.quit
    ensures m.historyLoaded <= r.historyLoaded
    ensures r.historyLoaded == (if r.historyEnabled && |m.contacts| > 0 then m.historyLoaded + {m.contacts[m.cursor]} else m.historyLoaded)
    ensures r.historyEnabled && |m.contacts| > 0 && m.contacts[m.cursor] in m.historyLoaded ==> r.conversations == m.conversations
    ensures m.db.setting.None? ==> r.db == m.db
    ensures r.(historyEnabled := m.historyEnabled, db := m.db, conversations := m.conversations, historyLoaded := m.historyLoaded) == m
  {
    var flipped := m.(historyEnabled := !m.historyEnabled, db := WriteSetting(m.db, !m.historyEnabled));
    if flipped.historyEnabled && |flipped.contacts| > 0 then
      LoadHistory(flipped, flipped.contacts[flipped.cursor])
    else flipped
  }

  /** "up": moves the selection one up unless it is at the top, then loads
      the newly selected conversation's history. */
  function MoveUp(m: Model): (r: Model)
    requires CursorInBounds(m)
    ensures CursorInBounds(r)
    ensures m.cursor > 0 ==> r.cursor == m.cursor - 1
    ensures m.cursor > 0 ==>
              var sel := m.contacts[m.cursor - 1];
              && r.historyLoaded == (if m.historyEnabled then m.historyLoaded + {sel} else m.historyLoaded)
              && Buffer(r, sel) == (if m.historyEnabled && sel !in m.historyLoaded
                                    then RenderAll(Query(m.db.stored, sel)) + Buffer(m, sel)
                                    else Buffer(m, sel))
    ensures m.cursor == 0 ==> r == m
    ensures |r.contacts| > 0 ==> forall j :: j != r.contacts[r.cursor] ==> Buffer(r, j) == Buffer(m, j)
    ensures r.(cursor := m.cursor, conversations := m.conversations, historyLoaded := m.historyLoaded) == m
  {
    if m.cursor > 0 then
      var moved := m.(cursor := m.cursor - 1);
      var r := LoadHistory(moved, moved.contacts[moved.cursor]);
      assert r.contacts == m.contacts && r.cursor == moved.cursor;
      r
    else m
  }

  /** "down": moves the selection one down unless it is at the bottom (or
      the list is empty), then loads the newly selected conversation's history. */
  function MoveDown(m: Model): (r: Model)
    requires CursorInBounds(m)
    ensures CursorInBounds(r)
    ensures m.cursor + 1 < |m.contacts| ==> r.cursor == m.cursor + 1
    ensures m.cursor + 1 < |m.contacts| ==>
              var sel := m.contacts[m.cursor + 1];
              && r.historyLoaded == (if m.historyEnabled then m.historyLoaded + {sel} else m.historyLoaded)
              && Buffer(r, sel) == (if m.historyEnabled && sel !in m.historyLoaded
                                    then RenderAll(Query(m.db.stored, sel)) + Buffer(m, sel)
                                    else Buffer(m, sel))
    ensures m.cursor + 1 >= |m.contacts| ==> r == m
    ensures |r.contacts| > 0 ==> forall j :: j != r.contacts[r.cursor] ==> Buffer(r, j) == Buffer(m, j)
    ensures r.(cursor := m.cursor, conversations := m.conversations, historyLoaded := m.historyLoaded) == m
  {
    if m.cursor + 1 < |m.contacts| then
      var moved := m.(cursor := m.cursor + 1);
      var r := LoadHistory(moved, moved.contacts[moved.cursor]);
      assert r.contacts == m.contacts && r.cursor == moved.cursor;
      r
    else m
  }

  /** `sendMessage`: an empty field sends nothing. Otherwise the field is
      cleared, the text is stored while history is on, a send to the selected
      conversation is requested, and exactly one self line with the text is
      appended to that conversation at once, whatever becomes of the send. */
  function SendMessage(m: Model, now: Time): (r: Model)
    requires CursorInBounds(m) && |m.contacts| > 0
    ensures m.input == "" ==> r == m
    ensures m.input != "" ==>
              var target := m.contacts[m.cursor];
              && r.input == ""
              && Buffer(r, target) == Buffer(m, target) + [EchoLine(m.input, now)]
              && r.client.sent == m.client.sent + [Outgoing(target, m.input)]
              && Table(r.db) == (if m.historyEnabled then Table(m.db) + [Message(target, SelfLabel, m.input, true, now)] else Table(m.db))
    ensures forall j :: j != m.contacts[m.cursor] ==> Buffer(r, j) == Buffer(m, j)
    ensures r.db.stored == m.db.stored && r.db.setting == m.db.setting
    ensures r.client.directory == m.client.directory && r.client.connected == m.client.connected
    ensures r.(input := m.input, conversations := m.conversations, client := m.client, db := m.db) == m
  {
    var text := m.input;
    if text == "" then m
    else
      var target := m.contacts[m.cursor];
      var db := if m.historyEnabled then Persist(m.db, Message(target, SelfLabel, text, true, now)) else m.db;
      m.(input := "",
         db := db,
         client := m.client.(sent := m.client.sent + [Outgoing(target, text)]),
         conversations := m.conversations[target := Buffer(m, target) + [EchoLine(text, now)]])
  }

  /** An incoming message: stored while history is on; an unseen conversation
      joins the contact list, which is then sorted, and gets its name looked
      up; one line is appended to the message's conversation. */
  function Receive(m: Model, msg: Message): (r: Model)
    ensures Buffer(r, msg.chat) == Buffer(m, msg.chat) + [Render(msg)]
    ensures forall j :: j != msg.chat ==> Buffer(r, j) == Buffer(m, j)
    ensures Table(r.db) == (if m.historyEnabled then Table(m.db) + [msg] else Table(m.db))
    ensures r.db.stored == m.db.stored && r.db.setting == m.db.setting
    ensures msg.chat in m.contacts ==> r.contacts == m.contacts && r.names == m.names
    ensures msg.chat !in m.contacts ==>
              && Sorted(r.contacts, LessEq)
              && multiset(r.contacts) == multiset(m.contacts) + multiset{msg.chat}
              && multiset(r.contacts)[msg.chat] == 1
              && r.names == m.names[msg.chat := ResolveName(m.client, msg.chat)]
    ensures Distinct(m.contacts) ==> Distinct(r.contacts)
    ensures |r.contacts| >= |m.contacts| && forall c :: c in m.contacts ==> c in r.contacts
    ensures r.(db := m.db, conversations := m.conversations, contacts := m.contacts, names := m.names) == m
  {
    var db := if m.historyEnabled then Persist(m.db, msg) else m.db;
    var conversations := m.conversations[msg.chat := Buffer(m, msg.chat) + [Render(msg)]];
    if msg.chat in m.contacts then
      m.(db := db, conversations := conversations)
    else
      ReceiveContacts(m.contacts, msg.chat);
      m.(db := db,
         contacts := SortStrings([msg.chat] + m.contacts),
         names := m.names[msg.chat := ResolveName(m.client, msg.chat)],
         conversations := conversations)
  }

  /** Inserting an unseen identifier and sorting keeps every old identifier,
      adds the new one once, and keeps the list duplicate-free. */
  lemma ReceiveContacts(contacts: seq<JID>, chat: JID)
    requires chat !in contacts
    ensures var r := SortStrings([chat] + contacts);
            && multiset(r) == multiset(contacts) + multiset{chat}
            && |r| == |contacts| + 1
            && (forall c :: c in contacts ==> c in r)
            && (Distinct(contacts) ==> Distinct(r))
  {
    var r := SortStrings([chat] + contacts);
    assert multiset([chat] + contacts) == multiset(contacts) + multiset{chat};
    assert |r| == |multiset(r)|;
    forall c | c in contacts
      ensures c in r
    {
      assert c in multiset(r);
    }
    if Distinct(contacts) {
      assert Distinct([chat] + contacts);
      PermutationKeepsDistinct([chat] + contacts, r);
    }
  }

  /** A key press. */
  function HandleKey(m: Model, k: Key): (r: Model)
    requires CursorInBounds(m)
    ensures CursorInBounds(r)
    ensures r.contacts == m.contacts
    ensures |r.contacts| > 0 ==> forall j :: j != r.contacts[r.cursor] ==> Buffer(r, j) == Buffer(m, j)
    ensures |r.contacts| == 0 ==> r.conversations == m.conversations
    ensures k.Enter? && (|m.contacts| == 0 || m.input == "") ==> r == m
    ensures k.Runes? ==> r == m.(input := TypeRunes(m.input, k.text))
    ensures m.historyLoaded <= r.historyLoaded
  {
    match k
    case Quit => Disconnect(m)
    case HistoryToggle => Toggle(m)
    case Up => MoveUp(m)
    case Down => MoveDown(m)
    case Enter(now) => if |m.contacts| > 0 then SendMessage(m, now) else m
    case Runes(text) => m.(input := TypeRunes(m.input, text))
  }

  /** `Update`: one event, handled in full before the next. After a quit no
      further event has any effect. Each event changes at most one buffer:
      the message's conversation, or the selection after a key. */
  function Step(m: Model, e: Event): (r: Model)
    requires CursorInBounds(m)
    ensures CursorInBounds(r)
    ensures Inv(m) ==> Inv(r)
    ensures |r.contacts| >= |m.contacts| && forall c :: c in m.contacts ==> c in r.contacts
    ensures m.quit ==> r == m
    ensures !m.quit && e.Incoming? ==> forall j :: j != e.msg.chat ==> Buffer(r, j) == Buffer(m, j)
    ensures e.Press? && |r.contacts| > 0 ==> forall j :: j != r.contacts[r.cursor] ==> Buffer(r, j) == Buffer(m, j)
    ensures e.Resize? || (e.Press? && |r.contacts| == 0) ==> r.conversations == m.conversations
    ensures m.historyLoaded <= r.historyLoaded
  {
    if m.quit then m
    else
      match e
      case Resize(width, height) => ApplyResize(m, width, height)
      case Press(k) => HandleKey(m, k)
      case Incoming(msg) => Receive(m, msg)
  }

  /** The session loop over a sequence of events. */
  function Run(m: Model, es: seq<Event>): (r: Model)
    requires CursorInBounds(m)
    ensures CursorInBounds(r)
    ensures Inv(m) ==> Inv(r)
    ensures |r.contacts| >= |m.contacts| && forall c :: c in m.contacts ==> c in r.contacts
    ensures m.historyLoaded <= r.historyLoaded
    decreases |es|
  {
    if |es| == 0 then m else Run(Step(m, es[0]), es[1..])
  }
}
