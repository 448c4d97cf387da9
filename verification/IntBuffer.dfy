/** Little-endian integers in byte buffers and the length-prefixed record stream
    (src/tachyon/int_buffer.rs). */
module IntBuffers {
  import opened Sequence
  import opened SequenceBuffers

  type Byte = n: int | 0 <= n < 256
  type Bytes = seq<Byte>

  // ---- byte forms ----

  function U16Bytes(v: U16): Bytes {
    [v % 256, v / 256]
  }

  function U32Bytes(v: U32): Bytes {
    [v % 256, v / 256 % 256, v / 65536 % 256, v / 16777216]
  }

  /** The number with these little-endian bytes. */
  function LittleEndian(b0: int, b1: int, b2: int, b3: int): int {
    b0 + 256 * b1 + 65536 * b2 + 16777216 * b3
  }

  function U16At(data: Bytes, i: nat): U16
    requires i + 2 <= |data|
  {
    LittleEndian(data[i], data[i + 1], 0, 0)
  }

  function U32At(data: Bytes, i: nat): U32
    requires i + 4 <= |data|
  {
    LittleEndian(data[i], data[i + 1], data[i + 2], data[i + 3])
  }

  /** `data` with `bytes` written over it from `at` on. */
  function Overwrite(data: Bytes, at: nat, bytes: Bytes): Bytes
    requires at + |bytes| <= |data|
  {
    data[..at] + bytes + data[at + |bytes|..]
  }

  /** Whether `bytes` stand in `data` from `at` on. */
  predicate Holds(data: Bytes, at: nat, bytes: Bytes) {
    at + |bytes| <= |data| && data[at..at + |bytes|] == bytes
  }

  lemma OverwriteHolds(data: Bytes, at: nat, bytes: Bytes)
    requires at + |bytes| <= |data|
    ensures Holds(Overwrite(data, at, bytes), at, bytes)
  {
  }

  lemma OverwriteTwice(data: Bytes, at: nat, a: Bytes, b: Bytes)
    requires at + |a| + |b| <= |data|
    ensures Overwrite(Overwrite(data, at, a), at + |a|, b) == Overwrite(data, at, a + b)
  {
  }

  lemma HoldsConcat(data: Bytes, at: nat, a: Bytes, b: Bytes)
    ensures Holds(data, at, a + b) <==> Holds(data, at, a) && Holds(data, at + |a|, b)
  {
    if at + |a| + |b| <= |data| {
      assert data[at..at + |a + b|] == data[at..at + |a|] + data[at + |a|..at + |a| + |b|];
      if Holds(data, at, a + b) {
        assert data[at..at + |a|] == (a + b)[..|a|];
        assert data[at + |a|..at + |a| + |b|] == (a + b)[|a|..];
      }
    }
  }

  lemma HoldsByte(data: Bytes, at: nat, b: Byte)
    requires Holds(data, at, [b])
    ensures data[at] == b
  {
    assert data[at..at + 1][0] == data[at];
  }

  /** Reading an integer where its byte form stands gives the integer back. */
  lemma U16RoundTrip(data: Bytes, at: nat, v: U16)
    requires Holds(data, at, U16Bytes(v))
    ensures U16At(data, at) == v
  {
    assert data[at..at + 2][0] == data[at] && data[at..at + 2][1] == data[at + 1];
  }

  lemma U32RoundTrip(data: Bytes, at: nat, v: U32)
    requires Holds(data, at, U32Bytes(v))
    ensures U32At(data, at) == v
  {
    var part := data[at..at + 4];
    assert part[0] == data[at] && part[1] == data[at + 1] && part[2] == data[at + 2] && part[3] == data[at + 3];
    U32Digits(v);
  }

  lemma U32Digits(v: U32)
    ensures v == v % 256 + 256 * (v / 256 % 256) + 65536 * (v / 65536 % 256) + 16777216 * (v / 16777216)
  {
    var high := v / 65536;
    assert v / 256 / 256 == high && high / 256 == v / 16777216;
    assert v == v % 256 + 256 * (v / 256);
    assert v / 256 == v / 256 % 256 + 256 * high;
    assert high == high % 256 + 256 * (high / 256);
  }

  // ---- the cursor ----

  datatype NetworkAddress = NetworkAddress(a: U16, b: U16, c: U16, d: U16, port: U32)

  function AddressBytes(address: NetworkAddress): Bytes {
    U16Bytes(address.a) + U16Bytes(address.b) + U16Bytes(address.c) + U16Bytes(address.d) + U32Bytes(address.port)
  }

  function AddressAt(data: Bytes, i: nat): NetworkAddress
    requires i + 12 <= |data|
  {
    NetworkAddress(U16At(data, i), U16At(data, i + 2), U16At(data, i + 4), U16At(data, i + 6), U32At(data, i + 8))
  }

  lemma AddressRoundTrip(data: Bytes, at: nat, address: NetworkAddress)
    requires Holds(data, at, AddressBytes(address))
    ensures AddressAt(data, at) == address
  {
    var abc := U16Bytes(address.a) + U16Bytes(address.b) + U16Bytes(address.c);
    HoldsConcat(data, at, abc + U16Bytes(address.d), U32Bytes(address.port));
    HoldsConcat(data, at, abc, U16Bytes(address.d));
    HoldsConcat(data, at, U16Bytes(address.a) + U16Bytes(address.b), U16Bytes(address.c));
    HoldsConcat(data, at, U16Bytes(address.a), U16Bytes(address.b));
    U16RoundTrip(data, at, address.a);
    U16RoundTrip(data, at + 2, address.b);
    U16RoundTrip(data, at + 4, address.c);
    U16RoundTrip(data, at + 6, address.d);
    U32RoundTrip(data, at + 8, address.port);
  }

  class IntBuffer {
    var index: nat

    constructor (index: nat)
      ensures this.index == index
    {
      this.index := index;
    }

    method WriteU8(v: Byte, data: array<Byte>)
      requires index < data.Length
      modifies this, data
      ensures index == old(index) + 1
      ensures data[..] == Overwrite(old(data[..]), old(index), [v])
    {
      data[index] := v;
      index := index + 1;
    }

    method WriteU16(v: U16, data: array<Byte>)
      requires index + 2 <= data.Length
      modifies this, data
      ensures index == old(index) + 2
      ensures data[..] == Overwrite(old(data[..]), old(index), U16Bytes(v))
    {
      data[index] := v % 256;
      index := index + 1;
      data[index] := v / 256;
      index := index + 1;
    }

    method WriteU32(v: U32, data: array<Byte>)
      requires index + 4 <= data.Length
      modifies this, data
      ensures index == old(index) + 4
      ensures data[..] == Overwrite(old(data[..]), old(index), U32Bytes(v))
    {
      data[index] := v % 256;
      index := index + 1;
      data[index] := v / 256 % 256;
      index := index + 1;
      data[index] := v / 65536 % 256;
      index := index + 1;
      data[index] := v / 16777216;
      index := index + 1;
    }

    method WriteAddress(address: NetworkAddress, data: array<Byte>)
      requires index + 12 <= data.Length
      modifies this, data
      ensures index == old(index) + 12
      ensures data[..] == Overwrite(old(data[..]), old(index), AddressBytes(address))
    {
      ghost var before, at := data[..], index;
      var bytes := U16Bytes(address.a);
      WriteU16(address.a, data);
      WriteU16(address.b, data);
      OverwriteTwice(before, at, bytes, U16Bytes(address.b));
      bytes := bytes + U16Bytes(address.b);
      WriteU16(address.c, data);
      OverwriteTwice(before, at, bytes, U16Bytes(address.c));
      bytes := bytes + U16Bytes(address.c);
      WriteU16(address.d, data);
      OverwriteTwice(before, at, bytes, U16Bytes(address.d));
      bytes := bytes + U16Bytes(address.d);
      WriteU32(address.port, data);
      OverwriteTwice(before, at, bytes, U32Bytes(address.port));
    }

    method ReadU8(data: Bytes) returns (v: Byte)
      requires index < |data|
      modifies this
      ensures index == old(index) + 1 && v == data[old(index)]
    {
      v := data[index];
      index := index + 1;
    }

    method ReadU16(data: Bytes) returns (v: U16)
      requires index + 2 <= |data|
      modifies this
      ensures index == old(index) + 2 && v == U16At(data, old(index))
    {
      v := LittleEndian(data[index], data[index + 1], 0, 0);
      index := index + 2;
    }

    method ReadU32(data: Bytes) returns (v: U32)
      requires index + 4 <= |data|
      modifies this
      ensures index == old(index) + 4 && v == U32At(data, old(index))
    {
      v := LittleEndian(data[index], data[index + 1], data[index + 2], data[index + 3]);
      index := index + 4;
    }

    method ReadAddress(data: Bytes) returns (address: NetworkAddress)
      requires index + 12 <= |data|
      modifies this
      ensures index == old(index) + 12 && address == AddressAt(data, old(index))
    {
      var a := ReadU16(data);
      var b := ReadU16(data);
      var c := ReadU16(data);
      var d := ReadU16(data);
      var port := ReadU32(data);
      address := NetworkAddress(a, b, c, d, port);
    }
  }

  // ---- the record stream ----

  const RECORD_HEADER_SIZE := 18

  datatype Record = Record(channel: U16, address: NetworkAddress, payload: Bytes)

  function RecordBytes(record: Record): Bytes
    requires |record.payload| < 0x1_0000_0000
  {
    U32Bytes(|record.payload|) + U16Bytes(record.channel) + AddressBytes(record.address) + record.payload
  }

  /** All payload lengths fit the length field. */
  predicate Sized(records: seq<Record>) {
    forall i :: 0 <= i < |records| ==> |records[i].payload| < 0x1_0000_0000
  }

  function StreamBytes(records: seq<Record>): Bytes
    requires Sized(records)
  {
    if records == [] then [] else RecordBytes(records[0]) + StreamBytes(records[1..])
  }

  function StreamSize(records: seq<Record>): nat {
    if records == [] then 0 else RECORD_HEADER_SIZE + |records[0].payload| + StreamSize(records[1..])
  }

  /** The record that stands in `data` at `at`, if a whole one does. */
  function RecordAt(data: Bytes, at: nat): Option<Record> {
    if at + RECORD_HEADER_SIZE > |data| || at + RECORD_HEADER_SIZE + U32At(data, at) > |data| then None
    else Some(Record(U16At(data, at + 4), AddressAt(data, at + 6),
                     data[at + RECORD_HEADER_SIZE..at + RECORD_HEADER_SIZE + U32At(data, at)]))
  }

  /** `count` records read one after the other from `at` on. */
  function ReadRecords(data: Bytes, at: nat, count: nat): Option<seq<Record>>
    decreases count
  {
    if count == 0 then Some([]) else
    match RecordAt(data, at)
    case None => None
    case Some(record) =>
      match ReadRecords(data, at + RECORD_HEADER_SIZE + |record.payload|, count - 1)
      case None => None
      case Some(rest) => Some([record] + rest)
  }

  lemma {:induction false} StreamAppend(records: seq<Record>, record: Record)
    requires Sized(records) && |record.payload| < 0x1_0000_0000
    ensures Sized(records + [record])
    ensures StreamBytes(records + [record]) == StreamBytes(records) + RecordBytes(record)
    ensures |StreamBytes(records)| == StreamSize(records)
    ensures StreamSize(records + [record]) == StreamSize(records) + RECORD_HEADER_SIZE + |record.payload|
  {
    if records == [] {
      assert records + [record] == [record];
      assert StreamBytes([record]) == RecordBytes(record) + StreamBytes([]);
    } else {
      StreamAppend(records[1..], record);
      assert (records + [record])[1..] == records[1..] + [record];
      assert RecordBytes(records[0]) + (StreamBytes(records[1..]) + RecordBytes(record))
          == (RecordBytes(records[0]) + StreamBytes(records[1..])) + RecordBytes(record);
    }
  }

  class LengthPrefixed {
    const reader: IntBuffer
    const writer: IntBuffer

    constructor ()
      ensures fresh(reader) && fresh(writer) && reader != writer
      ensures reader.index == 0 && writer.index == 0
    {
      reader := new IntBuffer(0);
      writer := new IntBuffer(0);
    }

    method Write(channel: U16, address: NetworkAddress, src: Bytes, dst: array<Byte>)
      requires |src| < 0x1_0000_0000
      requires writer.index + RECORD_HEADER_SIZE + |src| <= dst.Length
      modifies writer, dst
      ensures writer.index == old(writer.index) + RECORD_HEADER_SIZE + |src|
      ensures dst[..] == Overwrite(old(dst[..]), old(writer.index), RecordBytes(Record(channel, address, src)))
    {
      ghost var before, at := dst[..], writer.index;
      writer.WriteU32(|src|, dst);
      writer.WriteU16(channel, dst);
      OverwriteTwice(before, at, U32Bytes(|src|), U16Bytes(channel));
      writer.WriteAddress(address, dst);
      OverwriteTwice(before, at, U32Bytes(|src|) + U16Bytes(channel), AddressBytes(address));
      CopyFrom(src, dst, writer.index);
      OverwriteTwice(before, at, U32Bytes(|src|) + U16Bytes(channel) + AddressBytes(address), src);
      writer.index := writer.index + |src|;
    }

    /** `dst[at..at + src.len()].copy_from_slice(src)` */
    static method CopyFrom(src: Bytes, dst: array<Byte>, at: nat)
      requires at + |src| <= dst.Length
      modifies dst
      ensures dst[..] == Overwrite(old(dst[..]), at, src)
    {
      forall i | 0 <= i < |src| {
        dst[at + i] := src[i];
      }
    }

    /** The record at the read index; its payload is `data[start..end]`. */
    method Read(data: Bytes) returns (channel: U16, address: NetworkAddress, start: nat, end: nat)
      requires reader.index + RECORD_HEADER_SIZE <= |data|
      modifies reader
      ensures start == old(reader.index) + RECORD_HEADER_SIZE && end == reader.index >= start
      ensures end <= |data| ==> RecordAt(data, old(reader.index)) == Some(Record(channel, address, data[start..end]))
      ensures end > |data| ==> RecordAt(data, old(reader.index)) == None
    {
      var length := reader.ReadU32(data);
      channel := reader.ReadU16(data);
      address := reader.ReadAddress(data);
      start, end := reader.index, reader.index + length;
      reader.index := reader.index + length;
    }
  }

  lemma {:induction false} SizeOfPrefix(records: seq<Record>, i: nat)
    requires i <= |records|
    ensures StreamSize(records[..i]) <= StreamSize(records)
  {
    if i > 0 {
      assert records[..i][1..] == records[1..][..i - 1];
      SizeOfPrefix(records[1..], i - 1);
    }
  }

  lemma RecordRoundTrip(data: Bytes, at: nat, record: Record)
    requires |record.payload| < 0x1_0000_0000 && Holds(data, at, RecordBytes(record))
    ensures RecordAt(data, at) == Some(record)
  {
    RecordFields(data, at, record);
  }

  lemma RecordFields(data: Bytes, at: nat, record: Record)
    requires |record.payload| < 0x1_0000_0000 && Holds(data, at, RecordBytes(record))
    ensures at + RECORD_HEADER_SIZE + |record.payload| <= |data|
    ensures U32At(data, at) == |record.payload|
    ensures U16At(data, at + 4) == record.channel && AddressAt(data, at + 6) == record.address
    ensures data[at + RECORD_HEADER_SIZE..at + RECORD_HEADER_SIZE + |record.payload|] == record.payload
  {
    RecordParts(data, at, record);
    U32RoundTrip(data, at, |record.payload|);
    U16RoundTrip(data, at + 4, record.channel);
    AddressRoundTrip(data, at + 6, record.address);
  }

  lemma RecordParts(data: Bytes, at: nat, record: Record)
    requires |record.payload| < 0x1_0000_0000 && Holds(data, at, RecordBytes(record))
    ensures Holds(data, at, U32Bytes(|record.payload|)) && Holds(data, at + 4, U16Bytes(record.channel))
    ensures Holds(data, at + 6, AddressBytes(record.address)) && Holds(data, at + RECORD_HEADER_SIZE, record.payload)
  {
    var length, channel, address := U32Bytes(|record.payload|), U16Bytes(record.channel), AddressBytes(record.address);
    assert |length| == 4 && |channel| == 2 && |address| == 12;
    HoldsConcat(data, at, length + channel + address, record.payload);
    HoldsConcat(data, at, length + channel, address);
    HoldsConcat(data, at, length, channel);
  }

  /** Framed stream round trip: reading as many records as were written gives them back in order. */
  lemma {:induction false} StreamRoundTrip(data: Bytes, at: nat, records: seq<Record>)
    requires Sized(records) && Holds(data, at, StreamBytes(records))
    ensures ReadRecords(data, at, |records|) == Some(records)
    decreases records
  {
    if records != [] {
      var first, rest := records[0], records[1..];
      var next := at + RECORD_HEADER_SIZE + |first.payload|;
      assert records == [first] + rest && |records| == |rest| + 1;
      FirstHeld(data, at, records);
      RecordRoundTrip(data, at, first);
      StreamRoundTrip(data, next, rest);
      ReadStep(data, at, next, first, rest);
    }
  }

  lemma {:induction false} FirstHeld(data: Bytes, at: nat, records: seq<Record>)
    requires Sized(records) && records != [] && Holds(data, at, StreamBytes(records))
    ensures Holds(data, at, RecordBytes(records[0]))
    ensures Holds(data, at + RECORD_HEADER_SIZE + |records[0].payload|, StreamBytes(records[1..]))
  {
    HoldsConcat(data, at, RecordBytes(records[0]), StreamBytes(records[1..]));
    assert |RecordBytes(records[0])| == RECORD_HEADER_SIZE + |records[0].payload|;
  }

  lemma {:induction false} ReadStep(data: Bytes, at: nat, next: nat, first: Record, rest: seq<Record>)
    requires next == at + RECORD_HEADER_SIZE + |first.payload| && RecordAt(data, at) == Some(first)
    requires ReadRecords(data, next, |rest|) == Some(rest)
    ensures ReadRecords(data, at, |rest| + 1) == Some([first] + rest)
  {
  }

  /** The stream of the first `i` records grows by the next one, which fits when all do. */
  lemma NextFits(data: Bytes, records: seq<Record>, i: nat)
    requires Sized(records) && i < |records| && StreamSize(records) <= |data| &&
             Holds(data, 0, StreamBytes(records[..i]))
    ensures var size := StreamSize(records[..i]) + RECORD_HEADER_SIZE + |records[i].payload|;
            size <= |data| && StreamSize(records[..i + 1]) == size
    ensures Holds(Overwrite(data, StreamSize(records[..i]), RecordBytes(records[i])), 0, StreamBytes(records[..i + 1]))
  {
    assert records[..i + 1] == records[..i] + [records[i]];
    SizeOfPrefix(records, i + 1);
    StreamAppend(records[..i], records[i]);
    Appended(data, records[..i], records[i]);
  }

  /** Appending one framed record behind the stream. */
  lemma Appended(data: Bytes, records: seq<Record>, record: Record)
    requires Sized(records) && |record.payload| < 0x1_0000_0000
    requires StreamSize(records) + RECORD_HEADER_SIZE + |record.payload| <= |data|
    requires Holds(data, 0, StreamBytes(records))
    ensures Sized(records + [record])
    ensures var data' := Overwrite(data, StreamSize(records), RecordBytes(record));
            Holds(data', 0, StreamBytes(records + [record]))
  {
    StreamAppend(records, record);
    var at, bytes := StreamSize(records), RecordBytes(record);
    var data' := Overwrite(data, at, bytes);
    OverwriteHolds(data, at, bytes);
    assert data'[..at] == data[..at];
    HoldsConcat(data', 0, StreamBytes(records), bytes);
  }

  /** Writes all records with one `LengthPrefixed`. */
  method WriteAll(frames: LengthPrefixed, records: seq<Record>, data: array<Byte>)
    requires Sized(records) && StreamSize(records) <= data.Length && frames.writer.index == 0
    modifies frames.writer, data
    ensures frames.writer.index == StreamSize(records) && Holds(data[..], 0, StreamBytes(records))
  {
    assert records[..0] == [];
    for i := 0 to |records|
      invariant frames.writer.index == StreamSize(records[..i]) && Holds(data[..], 0, StreamBytes(records[..i]))
    {
      NextFits(data[..], records, i);
      frames.Write(records[i].channel, records[i].address, records[i].payload, data);
    }
    assert records[..|records|] == records;
  }

  /** Reads `count` records from where the reader stands. */
  method ReadAll(frames: LengthPrefixed, data: Bytes, count: nat, ghost records: seq<Record>) returns (r: seq<Record>)
    requires count == |records| && ReadRecords(data, frames.reader.index, count) == Some(records)
    modifies frames.reader
    ensures r == records
    ensures frames.reader.index == old(frames.reader.index) + StreamSize(records)
  {
    r := [];
    ghost var start := frames.reader.index;
    for i := 0 to count
      invariant r == records[..i] && Ahead(data, frames.reader.index, records, i, start)
    {
      ReadOneMore(data, frames.reader.index, records, i, start);
      var record := ReadRecord(frames, data, records[i]);
      r := r + [record];
    }
    assert records[..count] == records;
  }

  /** Reads the record at the reader's index. */
  method ReadRecord(frames: LengthPrefixed, data: Bytes, ghost record: Record) returns (r: Record)
    requires RecordAt(data, frames.reader.index) == Some(record)
    modifies frames.reader
    ensures r == record && frames.reader.index == old(frames.reader.index) + RECORD_HEADER_SIZE + |record.payload|
  {
    var channel, address, from, to := frames.Read(data);
    r := Record(channel, address, data[from..to]);
  }

  /** The first `i` records have been read from `start` on, and the others stand at `at`. */
  ghost predicate Ahead(data: Bytes, at: nat, records: seq<Record>, i: nat, start: nat) {
    && i <= |records| && at == start + StreamSize(records[..i])
    && ReadRecords(data, at, |records| - i) == Some(records[i..])
  }

  lemma ReadOneMore(data: Bytes, at: nat, records: seq<Record>, i: nat, start: nat)
    requires i < |records| && Ahead(data, at, records, i, start)
    ensures RecordAt(data, at) == Some(records[i])
    ensures Ahead(data, at + RECORD_HEADER_SIZE + |records[i].payload|, records, i + 1, start)
  {
    assert records[i..][1..] == records[i + 1..] && records[i..][0] == records[i];
    assert records[..i + 1] == records[..i] + [records[i]];
    SizeAppend(records[..i], records[i]);
  }

  lemma {:induction false} SizeAppend(records: seq<Record>, record: Record)
    ensures StreamSize(records + [record]) == StreamSize(records) + RECORD_HEADER_SIZE + |record.payload|
  {
    if records == [] {
      assert [record][1..] == [];
    } else {
      assert (records + [record])[1..] == records[1..] + [record];
      SizeAppend(records[1..], record);
    }
  }

  /** Framed stream round trip with the cursor class: any records that fit, written with one
      `LengthPrefixed` and read back with as many reads, come back in order, and both indices end at the
      sum of 18 plus each payload length. */
  method WriteThenRead(records: seq<Record>, data: array<Byte>) returns (r: seq<Record>, written: nat, read: nat)
    requires Sized(records) && StreamSize(records) <= data.Length
    modifies data
    ensures r == records && written == read == StreamSize(records)
  {
    var frames := new LengthPrefixed();
    WriteAll(frames, records, data);
    StreamRoundTrip(data[..], 0, records);
    r := ReadAll(frames, data[..], |records|, records);
    written, read := frames.writer.index, frames.reader.index;
  }
}
