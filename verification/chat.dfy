/** The chat transport at the boundary of the model: room identifiers, the
    messages the bot sends, and the effect of sending a batch of messages
    one after another where the first failing send stops the batch. */
module Chat {
  import opened Wrappers

  type RoomId = string

  /** `text_html` messages, or `notice_html` ones (rendered less prominently
      by clients). */
  datatype MessageKind = Text | Notice

  /** A message with a plain-text body and an HTML rendering of it. */
  datatype Message = Message(room: RoomId, kind: MessageKind, body: string, html: string)

  /** Sending `messages` in order, each send awaited with `?`. `failure` is
      the transport's answer: `Some(k)` when the k-th send (counting from 0)
      is the first to fail. The result holds the messages that reached the
      room and whether the batch completed. */
  function Deliver(messages: seq<Message>, failure: Option<nat>): (r: (seq<Message>, bool))
    ensures r.1 <==> failure.None? || failure.value >= |messages|
    ensures |r.0| <= |messages| && r.0 == messages[..|r.0|]
    ensures r.1 ==> r.0 == messages
    ensures !r.1 ==> |r.0| == failure.value
  {
    match failure
    case Some(k) => if k < |messages| then (messages[..k], false) else (messages, true)
    case None => (messages, true)
  }
}
