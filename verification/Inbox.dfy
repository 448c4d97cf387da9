/** The receiving side of a channel end, with fragments (src/tachyon/channel.rs): a fragment is collected
    in its group, and its header alone goes through the receiver; taking that header tries to assemble. */
module Inboxes {
  import opened SequenceBuffers
  import opened IntBuffers
  import opened Headers
  import opened ChannelSpec
  import opened FragmentSpec
  import S = ReceiverSpec

  type Groups = r: Received | AllLongEnough(r)

  datatype Inbox = Inbox(receiver: S.State<Bytes>, groups: Groups)

  /** A sequenced datagram arrives.  Those shorter than their header are ignored. */
  function Accepted(box: Inbox, datagram: Bytes): Inbox {
    if |datagram| < HEADER_SIZE then box
    else if datagram[0] != FRAGMENT then box.(receiver := Dispatched(box.receiver, datagram))
    else if |datagram| < FRAGMENTED_HEADER_SIZE then box
    else Inbox(S.ReceivePacket(box.receiver, PlainAt(datagram).sequence, datagram[..FRAGMENTED_HEADER_SIZE]).0,
               Collected(box.groups, datagram))
  }

  /** What a published message yields: its body, or, for a fragment header, the assembled message. */
  function Opened(groups: Groups, message: Bytes): (Groups, Bytes) {
    if |message| >= FRAGMENTED_HEADER_SIZE && message[0] == FRAGMENT then
      match Assembled(groups, FragmentedAt(message))
      case (groups', None) => (groups', [])
      case (groups', Some(body)) => (groups', body)
    else
      (groups, match Body(message) case None => [] case Some(body) => body)
  }

  /** Takes one published message; `None` when there is none. */
  function TakeOne(box: Inbox): (Inbox, Option<Bytes>) {
    match S.TakePublished(box.receiver)
    case (_, None) => (box, None)
    case (receiver, Some(message)) =>
      var (groups, body) := Opened(box.groups, message);
      (Inbox(receiver, groups), Some(body))
  }

  /** The first nonempty body among the next `attempts` messages; the messages before it are dropped. */
  function TakeBody(box: Inbox, attempts: nat): (Inbox, Bytes)
    decreases attempts, box
  {
    if attempts == 0 then (box, [])
    else
      match TakeOne(box)
      case (_, None) => (box, [])
      case (box', Some(body)) => if body != [] then (box', body) else TakeBody(box', attempts - 1)
  }
}
