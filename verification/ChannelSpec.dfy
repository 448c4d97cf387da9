/** The messages of a channel (src/tachyon/channel.rs), as bytes, for channels that do not piggyback
    nacks on reliable messages (a nack redundancy of zero). */
module ChannelSpec {
  import opened Sequence
  import opened SequenceBuffers
  import opened IntBuffers
  import opened Headers
  import opened ByteBufferPools
  import opened SendBuffers
  import S = ReceiverSpec

  /** A reliable message: header and body. */
  function Message(channel: Byte, sequence: U16, body: Bytes): Bytes {
    PlainBytes(Plain(RELIABLE, channel, sequence)) + body
  }

  function NoneMessage(channel: Byte, sequence: U16): Bytes {
    PlainBytes(Plain(NONE_MESSAGE, channel, sequence))
  }

  lemma MessageFields(channel: Byte, sequence: U16, body: Bytes)
    ensures var m := Message(channel, sequence, body);
            |m| == HEADER_SIZE + |body| && PlainAt(m) == Plain(RELIABLE, channel, sequence) && m[HEADER_SIZE..] == body
  {
    var h := Plain(RELIABLE, channel, sequence);
    var m := Message(channel, sequence, body);
    assert m[0..4] == PlainBytes(h);
    PlainRoundTrip(m, h);
  }

  /** What is sent again for a send buffer: its used bytes, or, when it holds a reliable message with a
      nack, the whole backing store rewritten to a plain reliable message. */
  function Resent(buffer: ByteBuffer): Bytes
    requires buffer.length <= |buffer.data| && NACKED_HEADER_SIZE <= |buffer.data|
  {
    if buffer.data[0] == RELIABLE_WITH_NACK then Rewritten(buffer.data) else buffer.data[..buffer.length]
  }

  function Rewritten(data: Bytes): Bytes
    requires NACKED_HEADER_SIZE <= |data|
  {
    PlainBytes(PlainAt(data).(messageType := RELIABLE)) + data[NACKED_HEADER_SIZE..]
  }

  /** The answer to a nacked sequence: the buffer in its slot, or a none message for an empty slot. */
  function Answer(sender: Sender, channel: Byte, sequence: U16): Bytes
    requires SoundSender(sender) && sender.pool.bufferSize == BUFFER_SIZE_DEFAULT
  {
    match Lookup(sender, sequence)
    case Some(entry) => Resent(entry.buffer)
    case None => NoneMessage(channel, sequence)
  }

  /** Rewriting a reliable message with a nack resends its body exactly when the message fills its
      backing store; a pooled buffer that is not full is resent with trailing bytes. */
  lemma RewriteIsExactWhenFull(buffer: ByteBuffer, h: Header, body: Bytes)
    requires h.messageType == RELIABLE_WITH_NACK
    requires buffer.length == NACKED_HEADER_SIZE + |body| <= |buffer.data|
    requires Holds(buffer.data, 0, NackedBytes(h) + body)
    ensures Resent(buffer) == Message(h.channel, h.sequence, body) <==> buffer.length == |buffer.data|
  {
    var data := buffer.data;
    HoldsConcat(data, 0, NackedBytes(h), body);
    PlainOfAny(data, h);
    assert PlainAt(data).(messageType := RELIABLE) == Plain(RELIABLE, h.channel, h.sequence);
    assert |Resent(buffer)| == HEADER_SIZE + |data| - NACKED_HEADER_SIZE;
    if buffer.length == |data| {
      assert data[NACKED_HEADER_SIZE..] == data[NACKED_HEADER_SIZE..NACKED_HEADER_SIZE + |body|];
    }
  }

  // ---- receiving ----

  /** A body of one byte in a pooled buffer is resent with the rest of the buffer behind it. */
  lemma RewriteSendsTheStore(h: Header)
    requires h.messageType == RELIABLE_WITH_NACK
    ensures var buffer := ByteBuffer(NackedBytes(h) + [7] + Zeros(1229), 11, true, 0);
            |Resent(buffer)| == 1234 && Resent(buffer) != Message(h.channel, h.sequence, [7])
  {
    var buffer := ByteBuffer(NackedBytes(h) + [7] + Zeros(1229), 11, true, 0);
    RewriteIsExactWhenFull(buffer, h, [7]);
  }

  /** Dispatch of a received datagram that carries a sequenced message. */
  function Dispatched(receiver: S.State<Bytes>, datagram: Bytes): S.State<Bytes> {
    if |datagram| < HEADER_SIZE then receiver else
    var h := PlainAt(datagram);
    if h.messageType == RELIABLE || h.messageType == RELIABLE_WITH_NACK || h.messageType == NONE_MESSAGE
    then S.ReceivePacket(receiver, h.sequence, datagram).0
    else receiver
  }

  /** The body handed to the application for a published message; none messages have none. */
  function Body(message: Bytes): Option<Bytes> {
    if |message| >= HEADER_SIZE && message[0] == RELIABLE then Some(message[HEADER_SIZE..])
    else if |message| >= NACKED_HEADER_SIZE && message[0] == RELIABLE_WITH_NACK then Some(message[NACKED_HEADER_SIZE..])
    else None
  }
}
