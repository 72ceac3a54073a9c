# WhatsApp-CLI session model

This is a Dafny model of the session state machine in the terminal WhatsApp client (`main.go`). The session keeps:

- a contact list of conversation identifiers (JIDs), each with a looked-up display name;
- one buffer of rendered lines per conversation;
- the set of conversations whose stored history has been loaded;
- the history on/off flag, which is backed by the `cli_settings` table;
- a text field and a cursor into the contact list.

The program's `Update` handles one Bubble Tea event at a time. Here that is the pure function `Session.Step(m, e)`, and a whole session is `Session.Run(m, es)`. `Step` loads history with the corrected load of the Findings section, which reads only the rows stored before the session began, so its loads can differ from `Update`'s (see Left out). The modelled events are:

- window resize;
- the keys quit, `ctrl+h`, up, down and enter;
- typed text;
- an incoming WhatsApp message.

The outside world becomes values inside the model:

- `Store.Db` is the `cli_messages` table, split into the rows found at startup and the rows this session inserted, plus the `history_enabled` row;
- `Session.Client` holds the name-lookup answers, the connection flag and the list of sends requested.

`View.Project` models the pure part of `View`: which contact rows are listed and how names are shortened, and which tail of the selected conversation fits the chat pane.

Modules:

- `Text`: substring search, Go's string order, and the text before '@'.
- `Seqs`: options, distinctness, de-duplication, take.
- `Ordering`: a stable insertion sort under a total preorder, and uniqueness of sorted arrangements.
- `Records`: messages, rendered lines, and rendering.
- `Store`: the table, the setting row, the history query and the recent-chats query.
- `Session`: the `model` record, startup, history loading, sending, and `Update`.
- `View`: the screen projection.
- `SessionLemmas`: properties that span several calls or events.
- `Findings`: the history load as written (see Findings).

Three behaviours of the code worth knowing:

- The history query `ORDER BY timestamp ASC LIMIT 100` returns a conversation's OLDEST 100 rows (`Store.QueryKeepsOldest`).
- At startup the contact list is in the order the recent-chats query returns (newest row first). Once a new conversation is inserted, the whole list is sorted and stays in string order from then on (`SessionLemmas.RunKeepsSorted`).
- The cursor keeps its index when a conversation is inserted, so the selected conversation can change (`SessionLemmas.NewContactShiftsSelection`).

## Model

| member | source | states |
|---|---|---|
| Text.Contains | main.go:114 | `strings.Contains`: true exactly when the pattern occurs at some position of the text |
| Text.BeforeAt | main.go:265 | `strings.Split(jid, "@")[0]`: the longest prefix without '@', followed in the identifier by '@' unless it is all of it |
| Text.LessEqTotal | main.go:219 | Go's string order used by `sort.Strings` relates every two strings |
| Text.LessEqTransitive | main.go:219 | Go's string order is transitive |
| Text.LessEqAntisymmetric | main.go:219 | two strings each at most the other are equal, so sorted string lists are unique |
| Ordering.Insert | main.go:219 | inserting into a sorted list gives a sorted permutation of the list plus the element |
| Ordering.Sort | main.go:219 | the result is sorted and a permutation of the input |
| Ordering.SortedArrangementUnique | main.go:219 | two sorted permutations of each other under an antisymmetric order are equal, so any correct sort, Go's included, gives the same list |
| Ordering.SortIsInsert | main.go:216-219 | sorting a sorted list with one element added in front equals inserting that element in its place |
| Records.IsMedia | main.go:114 | content gets the media style exactly when "[Saved" or "CALL" occurs in it |
| Records.Render | main.go:108-118 | a stored or received message is shown with label "Me" and the self colour exactly when it is from me, with its own time and content, and the media style exactly for "[Saved"/"CALL" |
| Records.RenderAll | main.go:103-119 | one rendered line per row, in row order |
| Records.EchoLine | main.go:252 | the sent text is echoed as a self line with label "Me", with the send time, and never in the media style |
| Store.Persist | main.go:127-133 | `saveMessage` appends exactly the one row to the table and leaves the setting alone |
| Store.SettingText | main.go:185-186 | the text written for a flag reads back as that flag |
| Store.SettingAtStartup | main.go:337-341 | history is on when the setting row is missing, otherwise exactly when it holds "true" |
| Store.OpenSettings | main.go:337-345 | startup reads the flag and afterwards a setting row exists that agrees with it; an existing row is left alone |
| Store.WriteSetting | main.go:187 | the UPDATE stores the new flag in an existing row and is a no-op when the row is missing |
| Store.ChatRows | main.go:99 | `WHERE chat_jid = ?` keeps only rows of that conversation |
| Store.ChatRowsCount | main.go:99 | the filter keeps every row of the conversation as often as it occurs, and no other row |
| Store.Query | main.go:99 | the history query returns min(100, rows of the conversation) rows, all of that conversation, ascending by time |
| Store.QueryKeepsOldest | main.go:99 | the rows returned are drawn from the conversation's rows, and none left out is older than any returned (`LIMIT` after `ASC` keeps the oldest) |
| Store.ChatsNewestFirst | main.go:83 | one identifier per row, naming exactly the conversations that have rows |
| Store.RecentChats | main.go:81-94 | `loadRecentChats` gets distinct identifiers, at most 20, each with stored rows, and all of them when fewer than 20 exist |
| Session.SortStrings | main.go:219 | `sort.Strings` returns a sorted permutation of its input |
| Session.LoadHistoryFrom | main.go:96-125 | with history off or the conversation already loaded nothing changes; otherwise the rendered query result goes in FRONT of the existing buffer, the conversation is marked loaded, and no other buffer changes |
| Session.LoadHistory | main.go:96-125 | the same load reading the rows stored before the session: afterwards the conversation is loaded, and its buffer is history ++ old buffer with at most 100 more lines |
| Session.Unloaded | main.go:56-74 | before the first load the contact list is the recent chats when history is on and empty when it is off; every contact's name is the name lookup's answer for it; cursor 0 and empty input |
| Session.InitialModel | main.go:56-79 | `initialModel` additionally loads the first contact's history, so only that conversation has lines or is marked loaded; names are the lookup's answers |
| Session.Start | main.go:337-350 | process start: the flag comes from the setting row (on when missing), a setting row then exists, and the invariant holds |
| Session.ApplyResize | main.go:174-177 | resize stores the window size and sets the text field width to width - 34, and nothing else changes |
| Session.Disconnect | main.go:180-182 | quit disconnects the client and stops the session, and nothing else changes |
| Session.TypeRunes | main.go:60 | typed text is appended to the field up to 1000 runes: exactly min(1000, old + typed) runes are kept, the rest of the text is dropped |
| Session.Toggle | main.go:183-192 | `ctrl+h` negates the flag and writes it to the setting row; turning history on loads the selected conversation's history, marking exactly that conversation loaded, and changes no buffer if it was loaded already; turning it off leaves buffers and loaded marks alone; with no setting row the store is unchanged; nothing else in the model changes |
| Session.MoveUp | main.go:193-197 | up moves the cursor only when it is above 0, then loads the newly selected history: with history on that conversation is marked loaded and, if it was not, its stored history goes in front of its buffer; with history off no buffer or mark changes; the cursor stays in bounds |
| Session.MoveDown | main.go:198-202 | down moves the cursor only when it is below the last index, then loads the newly selected history exactly as up does; the cursor stays in bounds |
| Session.SendMessage | main.go:236-254 | empty input: no change. Otherwise the input is cleared, one send to the selected conversation is requested, exactly one "Me" line is appended to that buffer, and a row is persisted exactly when history is on |
| Session.Receive | main.go:206-230 | an incoming message adds exactly one rendered line to its conversation and no other; it is persisted exactly when history is on; an unseen conversation is added once, the list is sorted and its name is looked up; a known one leaves the list alone |
| Session.ReceiveContacts | main.go:215-219 | prepending an unseen identifier and sorting keeps every old identifier, adds the new one once, and keeps the list duplicate-free |
| Session.HandleKey | main.go:178-205 | a key keeps the contact list and the cursor in bounds; enter with no contacts or an empty input changes nothing; typed text goes to the field |
| Session.Step | main.go:171-234 | `Update` keeps the invariant (cursor bounds, duplicate-free contacts, field limit); the list and the set of loaded conversations never shrink, so a history is loaded at most once; an event changes at most one buffer; nothing happens after quit |
| Session.Run | main.go:171-234 | a whole event sequence keeps the invariant and never shrinks the contact list or the set of loaded conversations |
| View.Shorten | main.go:272-273 | a name over 18 runes becomes its first 15 runes plus "..."; shorter names are unchanged |
| View.ContactName | main.go:264-273 | the looked-up name, or the part of the identifier before '@' when it is missing or empty, shortened |
| View.ChatHeight | main.go:276-278 | the chat pane height is height - 5, clamped at 0 |
| View.TailWindow | main.go:284-286 | the pane shows the last min(lines, height) lines of the buffer |
| View.ContactRows | main.go:263-275 | one row per contact, marked exactly when it is the cursor's, with its shortened name |
| View.ChatPaneOf | main.go:280-287 | the placeholder exactly when there are no contacts, else the tail of the selected buffer |
| View.Project | main.go:256-291 | the screen: history status, one row per contact with only the cursor's marked, each name the shortened looked-up name or text before '@' (`View.ContactName`), sidebar width 30, the tail window of the selected buffer, and pane widths of width - 34 |
| SessionLemmas.LoadHistoryIdempotent | main.go:96-125 | loading a conversation's history twice is the same as loading it once |
| SessionLemmas.InsertContact | main.go:216-219 | inserting an identifier into a sorted list gives a sorted list holding it in addition |
| SessionLemmas.ReceiveInsertsInPlace | main.go:215-219 | with a sorted list, a new conversation is inserted in its sorted place |
| SessionLemmas.RunKeepsSorted | main.go:219 | a sorted contact list stays sorted through any event sequence |
| SessionLemmas.QuitIsFinal | main.go:180-182 | after quit no event sequence changes anything |
| SessionLemmas.SessionKeepsInvariant | main.go:193-220 | from startup, any event sequence keeps the cursor in bounds and the contacts duplicate-free |
| SessionLemmas.ReceiveAll | main.go:206-230 | receiving messages one after another keeps the stored rows, the flag, the loaded marks and the quit flag |
| SessionLemmas.RunIncomings | main.go:206-230 | a run of incoming-message events is receiving those messages in order |
| SessionLemmas.LiveAppends | main.go:230 | messages for one conversation append their rendered lines to its buffer, in arrival order |
| SessionLemmas.LiveThenLoad | main.go:122-123 | live lines received before the first load end up after the loaded history: buffer = history ++ old lines ++ live lines, each line once |
| SessionLemmas.RunAppend | main.go:171-234 | running two event sequences one after the other is running their concatenation |
| SessionLemmas.TypeAndSend | main.go:236-254 | typing text into the empty field and pressing enter requests one send and stores one row exactly when history is on |
| SessionLemmas.ToggleRun | main.go:183-192 | the toggle as an event flips the flag and leaves the table, client, contacts, cursor and input alone |
| SessionLemmas.ToggleThenSend | main.go:183-192 | after toggling, a send is stored exactly when the toggle turned history on |
| SessionLemmas.ToggleGatesPersistence | main.go:244-246 | sending with history toggled off stores nothing; toggled back on, the next send stores exactly one row; both sends are requested |
| SessionLemmas.NewContactShiftsSelection | main.go:215-219 | with "b@x" selected, a message from new "a@x" sorts it first and the unchanged cursor now selects "a@x" |
| SessionLemmas.ContactsOfOneRow | main.go:81-94 | with history on, a table of one row gives that row's conversation as the only contact |
| SessionLemmas.InitialOnOneRow | main.go:74-77 | that conversation is selected at startup and shows the row |
| SessionLemmas.StartOnOneRow | main.go:337-350 | a one-row table with no setting row starts with history on, showing the row |
| SessionLemmas.HistoryThenLive | main.go:206-230 | a message received later for that conversation is shown after the stored row and is stored as well |
| Findings.LoadHistoryAsWritten | main.go:96-125 | the load as written: its query reads the whole table, including rows inserted this session |
| Findings.AsWrittenRepeatsLiveMessage | main.go:99 | a message received with history on for an unloaded conversation with no stored rows shows twice after the as-written load, and once after the corrected `Session.LoadHistory` |

## Left out

- SQL errors and failed writes. Every query answers and every insert lands; a failed query in `loadHistory` would leave the conversation unmarked, and that path is not modelled.
- Schema creation and opening the database (main.go:311-335) are I/O. The model starts from a table value.
- The whatsmeow client is foreign network code. This covers connecting, QR login, the event handler that turns WhatsApp events into `incomingWAMsg` (main.go:352-391), and the outcome of the sends, which run in a goroutine and never report back (main.go:248-251). A send is recorded as requested in `Client.sent`.
- `downloadMedia` (main.go:150-169) does file I/O and a remote download. A message's content is taken as given, including any "[Saved ..." text it produced.
- `resolveName` (main.go:137-148) asks the network and the contact store. `Client.directory` stands for its answers, and an unresolved identifier falls back to the text before '@', standing for `jid.User`. `types.ParseJID` is not modelled.
- The clock: the time of a send is carried by the `Enter(now)` event. `Time.Format("15:04")` is presentation, and a line keeps the raw time.
- lipgloss colours, borders and joins, the status line's wording, and `printBanner`. A line keeps a self flag and a media flag instead of styles, and the screen keeps widths and heights instead of drawn text.
- The `textinput` editing internals (main.go:232), such as deletion, caret movement and the placeholder. Typing is modelled as appending runes up to the 1000-rune limit. Keys other than the handled ones, and events the field ignores, are not events of the model.
- Quit: Bubble Tea stops the program. Here a `quit` flag after which no event has an effect.
- Session.Step / Session.Toggle / Session.MoveUp / Session.MoveDown: load history with the corrected `Session.LoadHistory`, which reads only the rows stored before the session began. The program's query reads the whole table, so its loads differ in two ways. A line received or sent with history on, before its conversation's first load, is shown once here but twice by the program when fewer than 100 rows of that conversation are at least as old (`Findings.AsWrittenRepeatsLiveMessage` shows the case with no stored rows). And a session row with an early timestamp can push a stored row out of the program's 100-row window, so the set of loaded rows can differ too.
- Store.RecentChats: does not state the ORDER of the identifiers. SQLite leaves it unspecified for `DISTINCT` with `ORDER BY` on a column that is not selected. The model takes them newest row first.
- Store.Query: rows with equal timestamps come back in table order in this model. SQLite does not fix that order.
- Strings are sequences of runes. Invalid UTF-8 and byte-level lengths are not modelled.

## Findings

| source | as written | input that shows it | evidently intended | confidence | as-written member | corrected member |
|---|---|---|---|---|---|---|
| main.go:99 | `loadHistory` queries the whole `cli_messages` table, which already holds the rows this session inserted while history was on. Those rows are already in the buffer, and the load puts them in front a second time. | With history on, a message arrives for a conversation that has no stored rows and whose history is not loaded. Selecting that conversation then loads its history, and the buffer shows the message twice. | History gives the lines from before the session, and each line appears once (history ++ live, proved by `SessionLemmas.LiveThenLoad`). | not executed | Findings.AsWrittenRepeatsLiveMessage | Session.LoadHistory |
