/** The send ring: the buffers of recently sent packets, kept for resending
    (src/tachyon/send_buffer_manager.rs). */
module SendBuffers {
  import opened Sequence
  import opened SequenceBuffers
  import opened IntBuffers
  import opened ByteBufferPools

  datatype SendBuffer = SendBuffer(sequence: U16, buffer: ByteBuffer)

  datatype Sender = Sender(current: U16, ring: Ring<SendBuffer>, pool: Pool)

  const START := Sender(0, EmptyRing(), EmptyPool(BUFFER_SIZE_DEFAULT, RING_SIZE))

  /** The sender after `create_send_buffer(length)`; the new buffer is in the slot of the new current
      sequence. */
  function Created(s: Sender, length: nat): Sender
    requires s.pool.count == |s.pool.buffers|
  {
    var sequence := Next(s.current);
    match s.ring[Slot(sequence)]
    case Some(previous) =>
      if previous.buffer.pooled && length <= s.pool.bufferSize then
        Sender(sequence, Put(s.ring, sequence, SendBuffer(sequence, previous.buffer.(length := length))), s.pool)
      else
        var (pool, buffer) := Gotten(Returned(s.pool, previous.buffer).0, length);
        Sender(sequence, Put(s.ring, sequence, SendBuffer(sequence, buffer)), pool)
    case None =>
      var (pool, buffer) := Gotten(s.pool, length);
      Sender(sequence, Put(s.ring, sequence, SendBuffer(sequence, buffer)), pool)
  }

  function Lookup(s: Sender, sequence: U16): Option<SendBuffer> {
    s.ring[Slot(sequence)]
  }

  /** Writes `bytes` to the front of the current buffer, as the callers of `create_send_buffer` do. */
  function Filled(s: Sender, bytes: Bytes): Sender
    requires Lookup(s, s.current).Some? && |bytes| <= |Lookup(s, s.current).value.buffer.data|
  {
    var entry := Lookup(s, s.current).value;
    s.(ring := Put(s.ring, s.current, entry.(buffer := entry.buffer.(data := Overwrite(entry.buffer.data, 0, bytes)))))
  }

  ghost predicate SoundSender(s: Sender) {
    && Sound(s.pool)
    && forall i :: 0 <= i < RING_SIZE && s.ring[i].Some? ==> OfPool(s.pool, s.ring[i].value.buffer)
  }

  /** Whatever was sent before, the new buffer has the requested length and holds that many bytes. */
  lemma CreatedFits(s: Sender, length: nat)
    requires SoundSender(s)
    ensures var r := Created(s, length);
            && SoundSender(r) && r.current == Next(s.current)
            && Lookup(r, r.current).Some?
            && var entry := Lookup(r, r.current).value;
               entry.sequence == r.current && entry.buffer.length == length <= |entry.buffer.data|
               && r.ring == Put(s.ring, r.current, entry)
  {
    match s.ring[Slot(Next(s.current))] {
      case Some(previous) =>
        if !(previous.buffer.pooled && length <= s.pool.bufferSize) {
          ReturnedSound(s.pool, previous.buffer);
          GottenFits(Returned(s.pool, previous.buffer).0, length);
        }
      case None =>
        GottenFits(s.pool, length);
    }
  }

  /** The sender after sending the packets `contents`, the first one with sequence 1. */
  function Issued(contents: seq<Bytes>): (s: Sender)
    ensures SoundSender(s) && s.current == Wire(|contents|)
  {
    if contents == [] then START
    else
      var s := Issued(contents[..|contents| - 1]);
      WireStep(|contents| - 1);
      IssueSound(s, contents[|contents| - 1]);
      Issue(s, contents[|contents| - 1])
  }

  /** One packet with the given bytes: `create_send_buffer` and fill. */
  function Issue(s: Sender, bytes: Bytes): Sender
    requires SoundSender(s)
  {
    CreatedFits(s, |bytes|);
    Filled(Created(s, |bytes|), bytes)
  }

  /** `entry` holds exactly `bytes` under `sequence`. */
  predicate EntryHolds(entry: SendBuffer, sequence: U16, bytes: Bytes) {
    && entry.sequence == sequence
    && entry.buffer.length == |bytes| <= |entry.buffer.data|
    && entry.buffer.data[..|bytes|] == bytes
  }

  lemma IssueSound(s: Sender, bytes: Bytes)
    requires SoundSender(s)
    ensures var r := Issue(s, bytes);
            && SoundSender(r) && r.current == Next(s.current)
            && Lookup(r, r.current).Some?
            && EntryHolds(Lookup(r, r.current).value, r.current, bytes)
            && r.ring == Put(s.ring, r.current, Lookup(r, r.current).value)
  {
    CreatedFits(s, |bytes|);
    var c := Created(s, |bytes|);
    var entry := Lookup(c, c.current).value;
    OverwriteHolds(entry.buffer.data, 0, bytes);
  }

  /** Slot `i` is empty or holds one of the last 65534 packets sent through it. */
  ghost predicate Genuine(s: Sender, contents: seq<Bytes>, i: nat)
    requires i < RING_SIZE
  {
    s.ring[i].Some? ==> exists n :: SentInto(contents, n, i) && EntryHolds(s.ring[i].value, Wire(n), contents[n - 1])
  }

  predicate SentInto(contents: seq<Bytes>, n: int, i: nat) {
    1 <= n <= |contents| < n + MODULUS && RingSlot(n) == i
  }

  lemma {:induction false} RingIsGenuine(contents: seq<Bytes>)
    ensures forall i :: 0 <= i < RING_SIZE ==> Genuine(Issued(contents), contents, i)
    ensures forall n :: 1 <= n <= |contents| ==> Issued(contents).ring[RingSlot(n)].Some?
  {
    if contents != [] {
      var before, bytes := contents[..|contents| - 1], contents[|contents| - 1];
      RingIsGenuine(before);
      IssueSound(Issued(before), bytes);
      WireStep(|contents| - 1);
      forall i | 0 <= i < RING_SIZE ensures Genuine(Issued(contents), contents, i) {
        GenuineStep(Issued(before), Issued(contents), before, bytes, i);
        assert before + [bytes] == contents;
      }
    }
  }

  lemma GenuineStep(s: Sender, r: Sender, before: seq<Bytes>, bytes: Bytes, i: nat)
    requires i < RING_SIZE && Genuine(s, before, i)
    requires var w := Wire(|before| + 1);
             && Lookup(r, w).Some? && EntryHolds(Lookup(r, w).value, w, bytes)
             && r.ring == Put(s.ring, w, Lookup(r, w).value)
    ensures Genuine(r, before + [bytes], i)
  {
    var contents := before + [bytes];
    if i == RingSlot(|contents|) {
      assert SentInto(contents, |contents|, i) && contents[|contents| - 1] == bytes;
    } else if s.ring[i].Some? {
      var n :| SentInto(before, n, i) && EntryHolds(s.ring[i].value, Wire(n), before[n - 1]);
      SentKept(before, bytes, n, i);
      assert r.ring[i] == s.ring[i];
    }
  }

  /** A packet that is about to be 65535 old loses its slot just then. */
  lemma SentKept(before: seq<Bytes>, bytes: Bytes, n: int, i: nat)
    requires SentInto(before, n, i) && i != RingSlot(|before| + 1)
    ensures SentInto(before + [bytes], n, i) && (before + [bytes])[n - 1] == before[n - 1]
  {
    WirePeriod(n);
    assert |before| + 1 == n + MODULUS ==> RingSlot(|before| + 1) == RingSlot(n);
  }

  /** A packet is found under its sequence, with its own bytes and length, until its slot's next turn. */
  lemma {:induction false} Retained(contents: seq<Bytes>, n: int)
    requires 1 <= n <= |contents| < n + Turn(n)
    ensures var entry := Lookup(Issued(contents), Wire(n));
            entry.Some? && EntryHolds(entry.value, Wire(n), contents[n - 1])
  {
    var before, bytes := contents[..|contents| - 1], contents[|contents| - 1];
    IssueSound(Issued(before), bytes);
    WireStep(|contents| - 1);
    if n < |contents| {
      Retained(before, n);
      TurnIsExact(n, |contents| - n);
    }
  }

  /** Send-ring retention: each of the 1023 most recently sent packets is still found under its
      sequence, with its own bytes and length. */
  lemma Retention(contents: seq<Bytes>, n: int)
    requires 1 <= n <= |contents| <= n + MAX_SPAN
    ensures var entry := Lookup(Issued(contents), Wire(n));
            entry.Some? && EntryHolds(entry.value, Wire(n), contents[n - 1])
  {
    Retained(contents, n);
  }

  /** The last packet that went into the slot of `n`. */
  lemma {:induction false} LastInto(contents: seq<Bytes>, n: int) returns (m: int)
    requires 1 <= n <= |contents|
    ensures n <= m <= |contents| < m + Turn(m) && RingSlot(m) == RingSlot(n)
    ensures n + Turn(n) <= |contents| ==> n < m
  {
    m := n;
    while m + Turn(m) <= |contents|
      invariant n <= m <= |contents| && RingSlot(m) == RingSlot(n)
      decreases |contents| - m
    {
      TurnIsExact(m, Turn(m));
      m := m + Turn(m);
    }
  }

  /** Retention is exact: while sequences are unambiguous, a packet is found under its sequence if and only
      if its slot has not had its next turn; after that a later packet (`m`) is found instead. */
  lemma {:induction false} RetainedExactly(contents: seq<Bytes>, n: int) returns (m: int)
    requires 1 <= n <= |contents| < n + MODULUS
    ensures n <= m <= |contents| && (m == n <==> |contents| < n + Turn(n))
    ensures var entry := Lookup(Issued(contents), Wire(n));
            && entry.Some? && EntryHolds(entry.value, Wire(m), contents[m - 1])
            && (entry.value.sequence == Wire(n) <==> |contents| < n + Turn(n))
  {
    m := LastInto(contents, n);
    Retained(contents, m);
    if n < m <= n + Turn(n) { TurnIsExact(n, m - n); }
    if Wire(m) == Wire(n) { WireInjective(m, n); }
  }

  /** The 1023 cannot be raised: over the wrap, the packet 1023 back has lost its slot. */
  lemma RetentionIsTight(contents: seq<Bytes>, n: int)
    requires 1 <= n && |contents| == n + 1023 && Wire(n) + 1023 >= MODULUS
    ensures var entry := Lookup(Issued(contents), Wire(n));
            entry.Some? && entry.value.sequence == Wire(|contents|) != Wire(n)
  {
    SlotCollision(n, 1023);
    Retention(contents, |contents|);
    if Wire(n) == Wire(|contents|) { WireInjective(n, |contents|); }
  }

  // ---- the object ----

  class SendBufferManager {
    var currentSequence: U16
    const buffers: SequenceBuffer<SendBuffer>
    const pool: ByteBufferPool

    ghost function Abs(): Sender
      reads this, buffers, pool
    {
      Sender(currentSequence, buffers.values, pool.Abs())
    }

    ghost predicate Valid()
      reads this, buffers, pool
    {
      SoundSender(Abs())
    }

    constructor ()
      ensures Valid() && fresh(buffers) && fresh(pool) && Abs() == START
    {
      currentSequence := 0;
      buffers := new SequenceBuffer();
      pool := new ByteBufferPool(BUFFER_SIZE_DEFAULT, RING_SIZE);
    }

    method GetSendBuffer(sequence: U16) returns (r: Option<SendBuffer>)
      ensures r == Lookup(Abs(), sequence)
    {
      r := buffers.values[sequence % RING_SIZE];
    }

    method CreateSendBuffer(length: nat) returns (r: SendBuffer)
      requires Valid()
      modifies this, buffers, pool
      ensures Valid() && Abs() == Created(old(Abs()), length)
      ensures Lookup(Abs(), currentSequence) == Some(r)
      ensures r.sequence == currentSequence && r.buffer.length == length <= |r.buffer.data|
    {
      ghost var before := Abs();
      CreatedFits(before, length);
      currentSequence := Next(currentSequence);
      var taken := buffers.Take(currentSequence);
      if taken.Some? {
        var buffer := taken.value.buffer;
        if buffer.pooled && length <= pool.bufferSize {
          buffer := buffer.(length := length);
        } else {
          ReturnedSound(before.pool, buffer);
          var _ := pool.ReturnBuffer(buffer);
          buffer := pool.GetBuffer(length);
        }
        r := SendBuffer(currentSequence, buffer);
      } else {
        var buffer := pool.GetBuffer(length);
        r := SendBuffer(currentSequence, buffer);
      }
      buffers.Insert(currentSequence, r);
      assert buffers.values == Put(before.ring, currentSequence, r);
    }

    /** Writes `bytes` into the current buffer. */
    method Fill(bytes: Bytes)
      requires Valid() && Lookup(Abs(), currentSequence).Some?
      requires |bytes| <= |Lookup(Abs(), currentSequence).value.buffer.data|
      modifies buffers
      ensures Valid() && Abs() == Filled(old(Abs()), bytes)
    {
      var entry := buffers.values[currentSequence % RING_SIZE].value;
      var data := bytes + entry.buffer.data[|bytes|..];
      assert data == Overwrite(entry.buffer.data, 0, bytes);
      buffers.Insert(currentSequence, entry.(buffer := entry.buffer.(data := data)));
    }

    /** Creates a buffer for `bytes` and fills it. */
    method Send(bytes: Bytes)
      requires Valid()
      modifies this, buffers, pool
      ensures Valid() && Abs() == Issue(old(Abs()), bytes)
    {
      var _ := CreateSendBuffer(|bytes|);
      Fill(bytes);
    }
  }
}
