/** The out buffers of a pool (src/tachyon/pool.rs): each server's messages framed into one buffer, and
    the rotation that hands the filled buffers to the application. */
module OutBuffers {
  import opened SequenceBuffers
  import opened IntBuffers
  import opened PoolRound

  /** A buffer moves by value between the queue and a worker; its bytes stay where they are. */
  datatype OutBuffer = OutBuffer(data: array<Byte>, bytesWritten: nat, count: nat)

  function Limited(messages: seq<Record>): seq<Record> {
    if |messages| <= RECEIVE_LIMIT then messages else messages[..RECEIVE_LIMIT]
  }

  /** The byte count recorded after receiving `messages`, where `before` was recorded: it is set only when
      the server runs empty within the limit. */
  function BytesRecorded(messages: seq<Record>, before: nat): nat {
    if |messages| < RECEIVE_LIMIT then StreamSize(messages) else before
  }

  /** What a reader of the out buffer gets: `count` records from the bytes said to be written. */
  function ReadBack(data: Bytes, bytesWritten: nat, count: nat): Option<seq<Record>>
    requires bytesWritten <= |data|
  {
    ReadRecords(data[..bytesWritten], 0, count)
  }

  lemma {:induction false} StreamLength(records: seq<Record>)
    requires Sized(records)
    ensures |StreamBytes(records)| == StreamSize(records)
  {
    if records != [] {
      StreamLength(records[1..]);
    }
  }

  lemma HoldsInPrefix(data: Bytes, bytes: Bytes, n: nat)
    requires n <= |data| && |bytes| == n && Holds(data, 0, bytes)
    ensures Holds(data[..n], 0, bytes)
  {
    assert data[..n] == bytes;
  }

  /** `receive_server_into_out_buffer`, where `messages` are those the server returns before it runs
      empty.  The byte count is recorded only when the server runs empty within the limit. */
  method ReceiveIntoOutBuffer(messages: seq<Record>, out: OutBuffer) returns (out': OutBuffer)
    requires Sized(messages) && StreamSize(Limited(messages)) <= out.data.Length
    modifies out.data
    ensures out'.data == out.data && out'.count == out.count + |Limited(messages)|
    ensures Holds(out.data[..], 0, StreamBytes(Limited(messages)))
    ensures out'.bytesWritten == BytesRecorded(messages, out.bytesWritten)
  {
    var frames := new LengthPrefixed();
    out' := out;
    var limited := Limited(messages);
    assert limited[..0] == [];
    for i := 0 to RECEIVE_LIMIT
      invariant i <= |messages| && fresh(frames.writer) && fresh(frames.reader)
      invariant out' == out.(count := out.count + i)
      invariant frames.writer.index == StreamSize(limited[..i]) && Holds(out.data[..], 0, StreamBytes(limited[..i]))
    {
      if i == |messages| {
        assert limited == limited[..i];
        return out'.(bytesWritten := frames.writer.index);
      }
      var record := messages[i];
      NextFits(out.data[..], limited, i);
      frames.Write(record.channel, record.address, record.payload, out.data);
      out' := out'.(count := out'.count + 1);
    }
    assert limited == limited[..RECEIVE_LIMIT];
  }

  /** Reading the out buffer back gives every message, in order, exactly when fewer than the limit
      were received; at the limit the recorded byte count stays zero and nothing can be read. */
  lemma OutBufferRoundTrip(data: Bytes, messages: seq<Record>)
    requires Sized(messages) && Holds(data, 0, StreamBytes(Limited(messages)))
    ensures var written := BytesRecorded(messages, 0);
            && written <= |data|
            && (ReadBack(data, written, |Limited(messages)|) == Some(Limited(messages)) <==> |messages| < RECEIVE_LIMIT)
  {
    var limited := Limited(messages);
    StreamLength(limited);
    if |messages| < RECEIVE_LIMIT {
      HoldsInPrefix(data, StreamBytes(limited), StreamSize(messages));
      StreamRoundTrip(data[..StreamSize(messages)], 0, limited);
    } else {
      NothingToRead(data[..0], |limited|);
    }
  }

  /** At the limit: 100000 messages of one byte each fill a buffer that starts empty, and with the byte
      count recorded for them none can be read. */
  lemma FullBufferReadsNothing()
    ensures var record := Record(1, NetworkAddress(127, 0, 0, 1, 8000), [7]);
            var messages := seq(RECEIVE_LIMIT, _ => record);
            && Sized(messages) && |Limited(messages)| == RECEIVE_LIMIT && BytesRecorded(messages, 0) == 0
            && ReadBack(StreamBytes(messages), BytesRecorded(messages, 0), |Limited(messages)|) == None
  {
    var record := Record(1, NetworkAddress(127, 0, 0, 1, 8000), [7]);
    var messages := seq(RECEIVE_LIMIT, _ => record);
    NothingToRead(StreamBytes(messages)[..0], RECEIVE_LIMIT);
  }

  lemma NothingToRead(data: Bytes, count: nat)
    requires |data| == 0 && count > 0
    ensures ReadRecords(data, 0, count) == None
  {
  }

  // ---- rotation ----

  function Cleared(out: OutBuffer): OutBuffer {
    out.(bytesWritten := 0, count := 0)
  }

  /** The filled buffers, in queue order. */
  function Filled(queue: seq<OutBuffer>): seq<OutBuffer> {
    if queue == [] then []
    else (if queue[0].count > 0 then [queue[0]] else []) + Filled(queue[1..])
  }

  /** The index of the first filled buffer, or the length. */
  function FirstFilled(queue: seq<OutBuffer>): nat {
    if queue == [] || queue[0].count > 0 then 0 else 1 + FirstFilled(queue[1..])
  }

  /** The queue after one call. */
  function Rotated(queue: seq<OutBuffer>): seq<OutBuffer> {
    var k := FirstFilled(queue);
    if k < |queue| then queue[k + 1..] + queue[..k] + [Cleared(queue[k])] else queue
  }

  lemma {:induction false} FirstFilledIs(queue: seq<OutBuffer>)
    ensures FirstFilled(queue) <= |queue|
    ensures forall i :: 0 <= i < FirstFilled(queue) ==> queue[i].count == 0
    ensures FirstFilled(queue) < |queue| ==> queue[FirstFilled(queue)].count > 0
    ensures var k := FirstFilled(queue);
            Filled(queue) == if k < |queue| then [queue[k]] + Filled(queue[k + 1..]) else []
  {
    if queue != [] && queue[0].count == 0 {
      var rest := queue[1..];
      FirstFilledIs(rest);
      assert forall i :: 0 < i < |queue| ==> queue[i] == rest[i - 1];
      if FirstFilled(rest) < |rest| {
        assert queue[FirstFilled(queue) + 1..] == rest[FirstFilled(rest) + 1..];
      }
    }
  }

  lemma {:induction false} FilledConcat(a: seq<OutBuffer>, b: seq<OutBuffer>)
    ensures Filled(a + b) == Filled(a) + Filled(b)
  {
    if a == [] {
      assert a + b == b;
    } else {
      FilledConcat(a[1..], b);
      assert (a + b)[1..] == a[1..] + b;
      var here := if a[0].count > 0 then [a[0]] else [];
      assert here + (Filled(a[1..]) + Filled(b)) == (here + Filled(a[1..])) + Filled(b);
    }
  }

  lemma {:induction false} NoneFilled(queue: seq<OutBuffer>)
    requires forall i :: 0 <= i < |queue| ==> queue[i].count == 0
    ensures Filled(queue) == []
  {
    if queue != [] {
      assert forall i :: 0 <= i < |queue[1..]| ==> queue[1..][i] == queue[i + 1];
      NoneFilled(queue[1..]);
    }
  }

  /** One call removes exactly the first filled buffer from the filled ones and keeps their order. */
  lemma {:induction false} RotationTakesFirst(queue: seq<OutBuffer>)
    requires FirstFilled(queue) < |queue|
    ensures Filled(queue) == [queue[FirstFilled(queue)]] + Filled(Rotated(queue))
  {
    FirstFilledIs(queue);
    MovedOn(queue, FirstFilled(queue));
  }

  lemma {:induction false} MovedOn(queue: seq<OutBuffer>, k: nat)
    requires k < |queue| && forall i :: 0 <= i < k ==> queue[i].count == 0
    ensures Filled(queue[k + 1..] + queue[..k] + [Cleared(queue[k])]) == Filled(queue[k + 1..])
  {
    assert forall i :: 0 <= i < k ==> queue[..k][i] == queue[i];
    NoneFilled(queue[..k]);
    NoneFilled([Cleared(queue[k])]);
    NoMoreFilled(queue[k + 1..], queue[..k], [Cleared(queue[k])]);
  }

  lemma NoMoreFilled(kept: seq<OutBuffer>, passed: seq<OutBuffer>, last: seq<OutBuffer>)
    requires Filled(passed) == [] && Filled(last) == []
    ensures Filled(kept + passed + last) == Filled(kept)
  {
    FilledConcat(kept + passed, last);
    FilledConcat(kept, passed);
  }

  /** What the application gets by calling until a count of zero. */
  function Drained(queue: seq<OutBuffer>): seq<OutBuffer>
    decreases |Filled(queue)|
  {
    FirstFilledIs(queue);
    if FirstFilled(queue) < |queue| then
      RotationTakesFirst(queue);
      [queue[FirstFilled(queue)]] + Drained(Rotated(queue))
    else []
  }

  /** Every filled buffer is handed out once, in queue order, however the rotation moves them. */
  lemma {:induction false} DrainedIsFilled(queue: seq<OutBuffer>)
    ensures Drained(queue) == Filled(queue)
    decreases |Filled(queue)|
  {
    FirstFilledIs(queue);
    if FirstFilled(queue) < |queue| {
      RotationTakesFirst(queue);
      DrainedIsFilled(Rotated(queue));
    }
  }

  /** Moving the head to the back rotates by one more. */
  lemma Moved(queue: seq<OutBuffer>, i: nat)
    requires i < |queue|
    ensures var now := queue[i..] + queue[..i];
            now[0] == queue[i] && now[1..] == queue[i + 1..] + queue[..i] &&
              now[1..] + [queue[i]] == queue[i + 1..] + queue[..i + 1]
  {
    assert queue[..i + 1] == queue[..i] + [queue[i]];
  }

  class OutQueue {
    const capacity: nat
    var buffers: seq<OutBuffer>

    /** `create`: the queue is filled with empty buffers. */
    constructor (capacity: nat, length: nat)
      ensures this.capacity == |buffers| == capacity
      ensures forall i :: 0 <= i < capacity ==>
                fresh(buffers[i].data) && buffers[i] == OutBuffer(buffers[i].data, 0, 0) &&
                  buffers[i].data.Length == length
      ensures forall i, j :: 0 <= i < j < capacity ==> buffers[i].data != buffers[j].data
    {
      this.capacity := capacity;
      buffers := [];
      new;
      for k := 0 to capacity
        invariant |buffers| == k
        invariant forall i :: 0 <= i < k ==>
                    fresh(buffers[i].data) && buffers[i] == OutBuffer(buffers[i].data, 0, 0) &&
                      buffers[i].data.Length == length
        invariant forall i, j :: 0 <= i < j < k ==> buffers[i].data != buffers[j].data
      {
        var data := new Byte[length](_ => 0);
        buffers := Push(buffers, capacity, OutBuffer(data, 0, 0));
      }
    }

    /** `get_next_out_buffer` */
    method GetNextOutBuffer(receiveBuffer: array<Byte>) returns (bytesWritten: nat, count: nat)
      requires |buffers| <= capacity
      requires forall i :: 0 <= i < |buffers| ==>
               buffers[i].bytesWritten <= buffers[i].data.Length && buffers[i].bytesWritten <= receiveBuffer.Length
      requires forall i :: 0 <= i < |buffers| ==> buffers[i].data != receiveBuffer
      modifies this, receiveBuffer
      ensures buffers == Rotated(old(buffers))
      ensures count > 0 <==> Filled(old(buffers)) != []
      ensures count == 0 ==> bytesWritten == 0 && receiveBuffer[..] == old(receiveBuffer[..])
      ensures count > 0 ==>
        var out := Filled(old(buffers))[0];
        && bytesWritten == out.bytesWritten && count == out.count && Filled(buffers) == Filled(old(buffers))[1..]
        && out.bytesWritten <= out.data.Length && out.bytesWritten <= receiveBuffer.Length
        && receiveBuffer[..] == Overwrite(old(receiveBuffer[..]), 0, out.data[..out.bytesWritten])
    {
      ghost var queue := buffers;
      FirstFilledIs(queue);
      var n := |buffers|;
      for i := 0 to n
        invariant i <= FirstFilled(queue) && buffers == queue[i..] + queue[..i]
        invariant receiveBuffer[..] == old(receiveBuffer[..])
      {
        var out := buffers[0];
        Moved(queue, i);
        buffers := buffers[1..];
        if out.count == 0 {
          buffers := Push(buffers, capacity, out);
        } else {
          RotationTakesFirst(queue);
          HandOut(out, receiveBuffer);
          return out.bytesWritten, out.count;
        }
      }
      assert queue[n..] + queue[..n] == queue;
      return 0, 0;
    }

    method HandOut(out: OutBuffer, receiveBuffer: array<Byte>)
      requires |buffers| < capacity && out.data != receiveBuffer
      requires out.bytesWritten <= out.data.Length && out.bytesWritten <= receiveBuffer.Length
      modifies this`buffers, receiveBuffer
      ensures buffers == old(buffers) + [Cleared(out)]
      ensures receiveBuffer[..] == Overwrite(old(receiveBuffer[..]), 0, out.data[..out.bytesWritten])
    {
      LengthPrefixed.CopyFrom(out.data[..out.bytesWritten], receiveBuffer, 0);
      buffers := Push(buffers, capacity, Cleared(out));
    }
  }
}
