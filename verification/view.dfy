/** The pure part of `View`: which contact rows are shown and how their
    names are shortened, and which lines of the selected conversation fit the
    chat pane. Borders, colours and joining panes into text are presentation
    and stay out. */
module View {
  import opened Text
  import opened Seqs
  import opened Records
  import opened Session

  /** Names longer than this many runes are shortened. */
  const NameBudget := 18

  /** Runes a shortened name keeps before the ellipsis. */
  const KeptRunes := 15

  const Ellipsis := "..."

  /** Rows of the screen not available to chat lines: the sidebar is two
      rows shorter than the window and the chat pane three rows shorter still. */
  const SidebarInset := 2
  const ChatInset := 3

  /** Width of the contact pane. */
  const SidebarWidth := 30

  datatype ContactRow = ContactRow(selected: bool, name: string)

  /** The chat pane: the placeholder while no conversation exists, else the
      visible window of the selected buffer. */
  datatype ChatPane = Waiting | Window(lines: seq<Line>)

  datatype Screen = Screen(
    historyOn: bool,
    rows: seq<ContactRow>,
    sidebarWidth: int,
    sidebarHeight: int,
    chatHeight: nat,
    paneWidth: int,
    chat: ChatPane,
    input: string)

  /** A name that fits is shown whole; a longer one as its first
      `KeptRunes` runes and an ellipsis, so no shown name exceeds `NameBudget`. */
  function Shorten(name: string): (r: string)
    ensures |r| <= NameBudget
    ensures |name| <= NameBudget ==> r == name
    ensures |name| > NameBudget ==> |r| == NameBudget && r[..KeptRunes] == name[..KeptRunes] && r[KeptRunes..] == Ellipsis
  {
    if |name| > NameBudget then name[..KeptRunes] + Ellipsis else name
  }

  /** The name shown for a conversation: its looked-up name, or the text
      before '@' in its identifier when that name is missing or empty;
      shortened either way. */
  function ContactName(names: map<JID, string>, jid: JID): (r: string)
    ensures |r| <= NameBudget
    ensures jid in names && names[jid] != "" ==> r == Shorten(names[jid])
    ensures !(jid in names && names[jid] != "") ==> r == Shorten(BeforeAt(jid))
  {
    var name := if jid in names then names[jid] else "";
    Shorten(if name == "" then BeforeAt(jid) else name)
  }

  /** Rows available to chat lines: the window height less five, never negative. */
  function ChatHeight(height: int): (h: nat)
    ensures h >= height - SidebarInset - ChatInset
    ensures h == 0 || h == height - SidebarInset - ChatInset
  {
    var h := height - SidebarInset - ChatInset;
    if h < 0 then 0 else h
  }

  /** Tail clipping: the most recent lines that fit, never the oldest. */
  function TailWindow(msgs: seq<Line>, h: nat): (w: seq<Line>)
    ensures |w| == Min(|msgs|, h)
    ensures w == msgs[|msgs| - |w|..]
  {
    var start := if |msgs| > h then |msgs| - h else 0;
    msgs[start..]
  }

  /** One row per contact, the cursor's row marked. */
  function ContactRows(m: Model): (rows: seq<ContactRow>)
    ensures |rows| == |m.contacts|
    ensures forall i :: 0 <= i < |rows| ==> (rows[i].selected <==> i == m.cursor)
    ensures forall i :: 0 <= i < |rows| ==> rows[i].name == ContactName(m.names, m.contacts[i]) && |rows[i].name| <= NameBudget
  {
    seq(|m.contacts|, i requires 0 <= i < |m.contacts| => ContactRow(i == m.cursor, ContactName(m.names, m.contacts[i])))
  }

  /** The chat pane for a chat height of `h`. */
  function ChatPaneOf(m: Model, h: nat): (c: ChatPane)
    requires CursorInBounds(m)
    ensures c.Waiting? <==> |m.contacts| == 0
    ensures c.Window? ==>
              var msgs := Buffer(m, m.contacts[m.cursor]);
              && |c.lines| == Min(|msgs|, h)
              && c.lines == msgs[|msgs| - |c.lines|..]
  {
    if |m.contacts| > 0 then Window(TailWindow(Buffer(m, m.contacts[m.cursor]), h)) else Waiting
  }

  /** The screen for a model: one row per contact with exactly the cursor's
      row marked, the tail of the selected conversation, or the placeholder
      while the contact list is empty. */
  function Project(m: Model): (s: Screen)
    requires CursorInBounds(m)
    ensures s.historyOn == m.historyEnabled && s.input == m.input
    ensures |s.rows| == |m.contacts|
    ensures forall i :: 0 <= i < |s.rows| ==> (s.rows[i].selected <==> i == m.cursor)
    ensures forall i :: 0 <= i < |s.rows| ==> |s.rows[i].name| <= NameBudget
    ensures forall i :: 0 <= i < |s.rows| ==> s.rows[i].name == ContactName(m.names, m.contacts[i])
    ensures s.sidebarWidth == SidebarWidth
    ensures s.chatHeight == ChatHeight(m.height)
    ensures s.paneWidth == m.width - SidebarAllowance
    ensures s.sidebarHeight == m.height - SidebarInset
    ensures s.chat.Waiting? <==> |m.contacts| == 0
    ensures s.chat.Window? ==>
              var msgs := Buffer(m, m.contacts[m.cursor]);
              && |s.chat.lines| == Min(|msgs|, s.chatHeight)
              && s.chat.lines == msgs[|msgs| - |s.chat.lines|..]
  {
    var h := ChatHeight(m.height);
    var rows := ContactRows(m);
    var chat := ChatPaneOf(m, h);
    Screen(m.historyEnabled, rows, SidebarWidth, m.height - SidebarInset, h, m.width - SidebarAllowance, chat, m.input)
  }
}
