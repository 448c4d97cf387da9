/** What each kind of sequenced datagram does to a channel end that receives it, from its bytes. */
module Datagrams {
  import opened Sequence
  import opened IntBuffers
  import opened Nacks
  import opened NackCodec
  import opened Headers
  import opened ChannelSpec
  import opened Inboxes
  import opened Channels
  import Views = ReassemblyProofs
  import Runs = ReceiverRuns
  import S = ReceiverSpec

  /** `datagram` is received as the packet `sequence`, and when it is taken yields `body`. */
  ghost predicate Arrives(box: Inbox, datagram: Bytes, sequence: U16, body: Bytes) {
    && Accepted(box, datagram) == box.(receiver := S.ReceivePacket(box.receiver, sequence, datagram).0)
    && Opened(box.groups, datagram) == (box.groups, body)
  }

  /** `datagram` is reported as a new reliable message exactly when the receiver accepts it. */
  predicate Reported(box: Inbox, datagram: Bytes, sequence: U16) {
    NewReliable(box.receiver, datagram) <==> S.ReceivePacket(box.receiver, sequence, datagram).1
  }

  lemma NackedFields(h: Header, body: Bytes)
    ensures var m := NackedBytes(h) + body;
            && |m| == NACKED_HEADER_SIZE + |body| && m[NACKED_HEADER_SIZE..] == body
            && PlainAt(m) == Plain(h.messageType, h.channel, h.sequence)
            && NackAt(m, HEADER_SIZE) == DEFAULT_NACK.(start := h.startSequence, flags := h.flags)
  {
    var m, nack := NackedBytes(h) + body, DEFAULT_NACK.(start := h.startSequence, flags := h.flags);
    assert m[0..10] == NackedBytes(h);
    PlainOfAny(m, h);
    assert NackedBytes(h) == PlainBytes(h) + NackBytes(nack);
    HoldsConcat(m, 0, PlainBytes(h), NackBytes(nack));
    NackRoundTrip(m, HEADER_SIZE, nack);
  }

  /** A reliable message that carries a nack arrives under its own sequence and yields its body, without the
      nack's bytes. */
  lemma WithNackArrives(box: Inbox, h: Header, body: Bytes)
    requires h.messageType == RELIABLE_WITH_NACK
    ensures var m := NackedBytes(h) + body;
            Arrives(box, m, h.sequence, body) && Reported(box, m, h.sequence)
  {
    NackedFields(h, body);
  }

  lemma ReliableArrives(box: Inbox, channel: Byte, sequence: U16, body: Bytes)
    ensures var m := Message(channel, sequence, body);
            Arrives(box, m, sequence, body) && Reported(box, m, sequence)
  {
    MessageFields(channel, sequence, body);
  }

  /** A none message for `sequence` reads back as such, arrives as that packet and yields nothing. */
  lemma NoneArrives(box: Inbox, channel: Byte, sequence: U16)
    ensures var m := NoneMessage(channel, sequence);
            && PlainAt(m) == Plain(NONE_MESSAGE, channel, sequence)
            && Arrives(box, m, sequence, []) && !NewReliable(box.receiver, m)
  {
    var m := NoneMessage(channel, sequence);
    assert m[0..4] == m;
    PlainRoundTrip(m, Plain(NONE_MESSAGE, channel, sequence));
  }

  /** A datagram of any other type is no packet of the receiver. */
  lemma OtherTypesIgnored(box: Inbox, datagram: Bytes)
    requires datagram != [] && datagram[0] != RELIABLE && datagram[0] != FRAGMENT
    requires datagram[0] != NONE_MESSAGE && datagram[0] != RELIABLE_WITH_NACK
    ensures Accepted(box, datagram) == box && !NewReliable(box.receiver, datagram) && CarriedNack(datagram) == {}
  {
  }

  /** A none message closes the gap it answers: after any skip-free run, ordered or not, it counts as the
      arrival of packet `n`, so that current ends the longest prefix with `n` in it. */
  lemma {:induction false} NoneClosesGap(channel: Byte, ordered: bool, window: WindowSize, events: seq<Runs.Event>,
                                         pay: int -> Bytes, groups: Groups, n: int)
    requires n >= 1 && pay(n) == NoneMessage(channel, Wire(n))
    requires window <= MAX_SPAN && Runs.SkipFree(window, events + [Runs.Arrive(n)])
    ensures var more := events + [Runs.Arrive(n)];
            var box, box' := Inbox(Runs.Run(ordered, window, events, pay), groups),
              Inbox(Runs.Run(ordered, window, more, pay), groups);
            var k := Runs.ViewRun(ordered, window, more).current;
            && Accepted(box, NoneMessage(channel, Wire(n))) == box' && box'.receiver.current == Wire(k)
            && Views.IsPrefix(Runs.Arrived(events) + {n}, k)
            && (n <= k || n in Runs.ViewRun(ordered, window, more).received)
  {
    var more := events + [Runs.Arrive(n)];
    assert Runs.Init(more) == events && Runs.Last(more) == Runs.Arrive(n);
    NoneArrives(Inbox(Runs.Run(ordered, window, events, pay), groups), channel, Wire(n));
    Runs.SkipFreeWhole(ordered, window, more);
    Runs.RunSimulates(ordered, window, more, pay);
  }

  // ---- the nack inside a reliable message ----

  /** The sequence itself and, of the 32 before it, those whose flag is set. */
  function Named(start: U16, flags: U32): set<U16> {
    {start} + set i | 0 <= i < 32 && Bit(flags, i) :: Before(start, i + 1)
  }

  /** A reliable message with a nack asks for the nack's start and the flagged sequences before it, or for
      nothing when the nack starts at sequence 0.  No other message asks for anything. */
  lemma {:induction false} CarriedNackIs(h: Header, body: Bytes)
    ensures CarriedNack(NackedBytes(h) + body)
         == if h.messageType == RELIABLE_WITH_NACK && h.startSequence != 0 then Named(h.startSequence, h.flags) else {}
  {
    var m, nack := NackedBytes(h) + body, DEFAULT_NACK.(start := h.startSequence, flags := h.flags);
    NackedFields(h, body);
    if h.messageType == RELIABLE_WITH_NACK && h.startSequence != 0 {
      forall s ensures s in Nacked(nack) <==> s in Named(h.startSequence, h.flags) {
        NackedIsNamed(nack, s);
      }
    }
  }

  lemma {:induction false} NackedIsNamed(nack: Nack, s: U16)
    ensures s in Nacked(nack) <==> s in Named(nack.start, nack.flags)
  {
    var p, bits := Previous(nack.start), Bits(nack.flags);
    MarkedMembers(bits, p, s);
    assert forall i :: 0 <= i < 32 ==> Before(p, i) == Before(nack.start, i + 1);
  }

  lemma ShortCarriesNone(datagram: Bytes)
    requires |datagram| < NACKED_HEADER_SIZE
    ensures CarriedNack(datagram) == {}
  {
  }
}
