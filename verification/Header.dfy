/** Message headers and their byte forms (src/tachyon/header.rs). */
module Headers {
  import opened Sequence
  import opened IntBuffers

  const UNRELIABLE: Byte := 0
  const RELIABLE: Byte := 1
  const FRAGMENT: Byte := 2
  const NONE_MESSAGE: Byte := 3
  const NACK_MESSAGE: Byte := 4
  const RELIABLE_WITH_NACK: Byte := 5
  const LINK_IDENTITY: Byte := 6
  const UNLINK_IDENTITY: Byte := 7

  const HEADER_SIZE := 4
  const NACKED_HEADER_SIZE := 10
  const FRAGMENTED_HEADER_SIZE := 10

  datatype Header = Header(
    messageType: Byte,
    channel: Byte,
    sequence: U16,
    fragmentGroup: U16,
    fragmentStart: U16,
    fragmentCount: U16,
    startSequence: U16,
    flags: U32)

  function Plain(messageType: Byte, channel: Byte, sequence: U16): Header {
    Header(messageType, channel, sequence, 0, 0, 0, 0, 0)
  }

  function Fragmented(sequence: U16, channel: Byte, group: U16, start: U16, count: U16): Header {
    Header(FRAGMENT, channel, sequence, group, start, count, 0, 0)
  }

  // ---- byte forms ----

  function PlainBytes(h: Header): Bytes {
    [h.messageType, h.channel] + U16Bytes(h.sequence)
  }

  function NackedBytes(h: Header): Bytes {
    PlainBytes(h) + U16Bytes(h.startSequence) + U32Bytes(h.flags)
  }

  function FragmentedBytes(h: Header): Bytes {
    PlainBytes(h) + U16Bytes(h.fragmentGroup) + U16Bytes(h.fragmentStart) + U16Bytes(h.fragmentCount)
  }

  function PlainAt(data: Bytes): Header
    requires |data| >= HEADER_SIZE
  {
    Plain(data[0], data[1], U16At(data, 2))
  }

  function FragmentedAt(data: Bytes): Header
    requires |data| >= FRAGMENTED_HEADER_SIZE
  {
    PlainAt(data).(fragmentGroup := U16At(data, 4), fragmentStart := U16At(data, 6), fragmentCount := U16At(data, 8))
  }

  /** A header read from the bytes it was written as has the fields of its kind. */
  lemma PlainRoundTrip(data: Bytes, h: Header)
    requires Holds(data, 0, PlainBytes(h))
    ensures PlainAt(data) == Plain(h.messageType, h.channel, h.sequence)
  {
    assert data[0] == data[0..4][0] && data[1] == data[0..4][1];
    HoldsConcat(data, 0, [h.messageType, h.channel], U16Bytes(h.sequence));
    U16RoundTrip(data, 2, h.sequence);
  }

  lemma FragmentedRoundTrip(data: Bytes, h: Header)
    requires Holds(data, 0, FragmentedBytes(h))
    ensures FragmentedAt(data) == h.(startSequence := 0, flags := 0)
  {
    var plain, group, start, count :=
      PlainBytes(h), U16Bytes(h.fragmentGroup), U16Bytes(h.fragmentStart), U16Bytes(h.fragmentCount);
    assert |plain| == 4;
    HoldsConcat(data, 0, plain + group + start, count);
    HoldsConcat(data, 0, plain + group, start);
    HoldsConcat(data, 0, plain, group);
    PlainRoundTrip(data, h);
    U16RoundTrip(data, 4, h.fragmentGroup);
    U16RoundTrip(data, 6, h.fragmentStart);
    U16RoundTrip(data, 8, h.fragmentCount);
  }

  /** A plain read of any kind of header gives type, channel and sequence. */
  lemma PlainOfAny(data: Bytes, h: Header)
    requires Holds(data, 0, FragmentedBytes(h)) || Holds(data, 0, NackedBytes(h))
    ensures |data| >= HEADER_SIZE && PlainAt(data) == Plain(h.messageType, h.channel, h.sequence)
  {
    var plain := PlainBytes(h);
    var fragment, nack := U16Bytes(h.fragmentGroup) + U16Bytes(h.fragmentStart) + U16Bytes(h.fragmentCount),
      U16Bytes(h.startSequence) + U32Bytes(h.flags);
    assert FragmentedBytes(h) == plain + fragment && NackedBytes(h) == plain + nack;
    HoldsConcat(data, 0, plain, fragment);
    HoldsConcat(data, 0, plain, nack);
    PlainRoundTrip(data, h);
  }

  // ---- writers and readers ----

  method Write(h: Header, buffer: array<Byte>)
    requires buffer.Length >= HEADER_SIZE
    modifies buffer
    ensures buffer[..] == Overwrite(old(buffer[..]), 0, PlainBytes(h))
  {
    ghost var before := buffer[..];
    var writer := new IntBuffer(0);
    writer.WriteU8(h.messageType, buffer);
    writer.WriteU8(h.channel, buffer);
    OverwriteTwice(before, 0, [h.messageType], [h.channel]);
    writer.WriteU16(h.sequence, buffer);
    OverwriteTwice(before, 0, [h.messageType] + [h.channel], U16Bytes(h.sequence));
    assert [h.messageType] + [h.channel] == [h.messageType, h.channel];
  }

  method WriteNacked(h: Header, buffer: array<Byte>)
    requires buffer.Length >= NACKED_HEADER_SIZE
    modifies buffer
    ensures buffer[..] == Overwrite(old(buffer[..]), 0, NackedBytes(h))
  {
    ghost var before := buffer[..];
    Write(h, buffer);
    var writer := new IntBuffer(HEADER_SIZE);
    writer.WriteU16(h.startSequence, buffer);
    OverwriteTwice(before, 0, PlainBytes(h), U16Bytes(h.startSequence));
    writer.WriteU32(h.flags, buffer);
    OverwriteTwice(before, 0, PlainBytes(h) + U16Bytes(h.startSequence), U32Bytes(h.flags));
  }

  method WriteFragmented(h: Header, buffer: array<Byte>)
    requires buffer.Length >= FRAGMENTED_HEADER_SIZE
    modifies buffer
    ensures buffer[..] == Overwrite(old(buffer[..]), 0, FragmentedBytes(h))
  {
    ghost var before := buffer[..];
    Write(h, buffer);
    var writer := new IntBuffer(HEADER_SIZE);
    var bytes := PlainBytes(h);
    writer.WriteU16(h.fragmentGroup, buffer);
    OverwriteTwice(before, 0, bytes, U16Bytes(h.fragmentGroup));
    bytes := bytes + U16Bytes(h.fragmentGroup);
    writer.WriteU16(h.fragmentStart, buffer);
    OverwriteTwice(before, 0, bytes, U16Bytes(h.fragmentStart));
    bytes := bytes + U16Bytes(h.fragmentStart);
    writer.WriteU16(h.fragmentCount, buffer);
    OverwriteTwice(before, 0, bytes, U16Bytes(h.fragmentCount));
  }

  method Read(buffer: Bytes) returns (h: Header)
    requires |buffer| >= HEADER_SIZE
    ensures h == PlainAt(buffer)
  {
    var reader := new IntBuffer(0);
    var messageType := reader.ReadU8(buffer);
    var channel := reader.ReadU8(buffer);
    var sequence := reader.ReadU16(buffer);
    h := Plain(messageType, channel, sequence);
  }

  method ReadFragmented(buffer: Bytes) returns (h: Header)
    requires |buffer| >= FRAGMENTED_HEADER_SIZE
    ensures h == FragmentedAt(buffer)
  {
    h := Read(buffer);
    var reader := new IntBuffer(HEADER_SIZE);
    var group := reader.ReadU16(buffer);
    var start := reader.ReadU16(buffer);
    var count := reader.ReadU16(buffer);
    h := h.(fragmentGroup := group, fragmentStart := start, fragmentCount := count);
  }
}
