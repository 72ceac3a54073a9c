/** The records the session works with: a chat message (the `incomingWAMsg`
    event and, with the same fields, a row of the `cli_messages` table) and
    the rendered line a conversation buffer holds. */
module Records {
  import opened Text

  /** A conversation identifier (`chat_jid`), e.g. "111@s.whatsapp.net". */
  type JID = string

  /** A point in time; only its order matters to the model. */
  type Time = int

  datatype Message = Message(chat: JID, sender: string, content: string, fromMe: bool, time: Time)

  /** A rendered buffer line `[time] sender: content`. Clock formatting and
      colours are presentation: `self` stands for the self colour of the
      sender label and `media` for the italic media style of the content. */
  datatype Line = Line(time: Time, sender: string, content: string, self: bool, media: bool)

  const SelfLabel := "Me"
  const SavedMarker := "[Saved"
  const CallMarker := "CALL"

  /** Content that marks a saved download or a call gets the media style. */
  function IsMedia(content: string): (b: bool)
    ensures b <==> (exists i :: OccursAt(content, SavedMarker, i)) || (exists i :: OccursAt(content, CallMarker, i))
  {
    Contains(content, SavedMarker) || Contains(content, CallMarker)
  }

  /** The line for a received message or a stored row. */
  function Render(msg: Message): (l: Line)
    ensures l.self <==> msg.fromMe
    ensures msg.fromMe ==> l.sender == SelfLabel
    ensures !msg.fromMe ==> l.sender == msg.sender
    ensures l.media <==> (exists i :: OccursAt(msg.content, SavedMarker, i)) || (exists i :: OccursAt(msg.content, CallMarker, i))
    ensures l.time == msg.time && l.content == msg.content
  {
    Line(msg.time, if msg.fromMe then SelfLabel else msg.sender, msg.content, msg.fromMe, IsMedia(msg.content))
  }

  function RenderAll(rows: seq<Message>): (ls: seq<Line>)
    ensures |ls| == |rows|
    ensures forall k :: 0 <= k < |rows| ==> ls[k] == Render(rows[k])
  {
    seq(|rows|, k requires 0 <= k < |rows| => Render(rows[k]))
  }

  /** The optimistic echo of a sent text: self label and colour, and never the
      media style, whatever the text contains. */
  function EchoLine(text: string, now: Time): (l: Line)
    ensures l.self && l.sender == SelfLabel && !l.media
    ensures l.content == text && l.time == now
  {
    Line(now, SelfLabel, text, true, false)
  }
}
