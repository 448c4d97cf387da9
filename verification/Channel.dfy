/** A channel end (src/tachyon/channel.rs): the methods that the protocol's steps stand for.  What a
    method hands to the socket is returned. */
module Channels {
  import opened Sequence
  import opened SequenceBuffers
  import opened IntBuffers
  import opened Nacks
  import opened Headers
  import opened ByteBufferPools
  import opened SendBuffers
  import opened Receivers
  import opened ChannelSpec
  import opened FragmentSpec
  import opened Fragmentations
  import opened Inboxes
  import opened NackCodec
  import S = ReceiverSpec

  const TAKE_ATTEMPTS := 1000

  class Channel {
    const id: Byte
    const address: NetworkAddress
    const sendBuffers: SendBufferManager
    const receiver: Receiver<Bytes>
    const frag: Fragmentation
    var nackedSequences: seq<U16>
    var nackedMap: map<U16, NetworkAddress>

    ghost predicate Valid()
      reads this, frag, sendBuffers, sendBuffers.buffers, sendBuffers.pool
    {
      && frag.Valid() && sendBuffers.Valid() && sendBuffers.pool.bufferSize == BUFFER_SIZE_DEFAULT
      && receiver.Valid()
      && sendBuffers.buffers as object != receiver.buffered as object
      && sendBuffers.buffers as object != receiver.received as object
    }

    ghost function Box(): Inbox
      reads this, frag, sendBuffers, sendBuffers.buffers, sendBuffers.pool, receiver, receiver.buffered,
        receiver.received
      requires Valid()
    {
      Inbox(receiver.Abs(), frag.received)
    }

    constructor (id: Byte, address: NetworkAddress, ordered: bool, window: WindowSize)
      ensures Valid() && this.id == id && this.address == address
      ensures fresh(sendBuffers) && fresh(sendBuffers.buffers) && fresh(sendBuffers.pool)
      ensures fresh(receiver) && fresh(receiver.buffered) && fresh(receiver.received) && fresh(frag)
      ensures sendBuffers.Abs() == START && receiver.Abs() == S.Initial(ordered, window)
      ensures nackedSequences == [] && nackedMap == map[] && frag.received == map[] && frag.nextGroup == 1
    {
      this.id, this.address := id, address;
      sendBuffers := new SendBufferManager();
      receiver := new Receiver(ordered, window);
      frag := new Fragmentation();
      nackedSequences, nackedMap := [], map[];
    }

    method SendReliable(body: Bytes) returns (datagram: Bytes)
      requires Valid()
      modifies sendBuffers, sendBuffers.buffers, sendBuffers.pool
      ensures Valid()
      ensures datagram == Message(id, Next(old(sendBuffers.currentSequence)), body)
      ensures sendBuffers.Abs() == Issue(old(sendBuffers.Abs()), datagram)
    {
      var entry := sendBuffers.CreateSendBuffer(HEADER_SIZE + |body|);
      datagram := Message(id, entry.sequence, body);
      sendBuffers.Fill(datagram);
    }

    method ProcessNackMessage(from: NetworkAddress, nacks: seq<Nack>)
      modifies this`nackedSequences, this`nackedMap
      ensures nackedSequences == Expand(nacks)
      ensures nackedMap.Keys == old(nackedMap.Keys) + set s | s in Expand(nacks)
      ensures forall s :: s in nackedMap ==>
                nackedMap[s] == if s in Expand(nacks) then from else old(nackedMap)[s]
    {
      nackedSequences := [];
      for i := 0 to |nacks|
        invariant nackedSequences == Expand(nacks[..i])
        invariant nackedMap == old(nackedMap)
      {
        nackedSequences := GetNacked(nacks[i], nackedSequences);
        ExpandAppend(nacks[..i], nacks[i]);
        assert nacks[..i + 1] == nacks[..i] + [nacks[i]];
      }
      assert nacks[..|nacks|] == nacks;
      CopyNackedToMap(from);
    }

    method CopyNackedToMap(from: NetworkAddress)
      modifies this`nackedMap
      ensures nackedMap.Keys == old(nackedMap.Keys) + set s | s in nackedSequences
      ensures forall s :: s in nackedMap ==>
                nackedMap[s] == if s in nackedSequences then from else old(nackedMap)[s]
    {
      for i := 0 to |nackedSequences|
        invariant nackedMap.Keys == old(nackedMap.Keys) + set s | s in nackedSequences[..i]
        invariant forall s :: s in nackedMap ==>
                    nackedMap[s] == if s in nackedSequences[..i] then from else old(nackedMap)[s]
      {
        nackedMap := nackedMap[nackedSequences[i] := from];
        assert nackedSequences[..i + 1] == nackedSequences[..i] + [nackedSequences[i]];
      }
      assert nackedSequences[..|nackedSequences|] == nackedSequences;
    }

    /** Answers every nacked sequence once, in the order the map yields them, and forgets them. */
    method ResendNacked() returns (datagrams: seq<(NetworkAddress, Bytes)>)
      requires Valid()
      modifies this`nackedMap
      ensures nackedMap == map[] && |datagrams| == |old(nackedMap)|
      ensures forall s :: s in old(nackedMap) ==>
                (old(nackedMap)[s], Answer(sendBuffers.Abs(), id, s)) in datagrams
      ensures forall d :: d in datagrams ==>
                exists s :: s in old(nackedMap) && d == (old(nackedMap)[s], Answer(sendBuffers.Abs(), id, s))
    {
      datagrams := [];
      ghost var sender := sendBuffers.Abs();
      var pending := nackedMap.Keys;
      while pending != {}
        invariant pending <= nackedMap.Keys && nackedMap == old(nackedMap)
        invariant |datagrams| + |pending| == |nackedMap|
        invariant forall s :: s in nackedMap && s !in pending ==> (nackedMap[s], Answer(sender, id, s)) in datagrams
        invariant forall d :: d in datagrams ==>
                  exists s :: s in nackedMap && d == (nackedMap[s], Answer(sender, id, s))
        decreases pending
      {
        var s :| s in pending;
        var bytes := AnswerNack(s);
        datagrams := datagrams + [(nackedMap[s], bytes)];
        pending := pending - {s};
      }
      nackedMap := map[];
    }

    method AnswerNack(sequence: U16) returns (bytes: Bytes)
      requires Valid()
      ensures bytes == Answer(sendBuffers.Abs(), id, sequence)
    {
      var entry := sendBuffers.GetSendBuffer(sequence);
      match entry {
        case Some(found) =>
          var buffer := found.buffer;
          if buffer.data[0] == RELIABLE_WITH_NACK {
            bytes := Rewritten(buffer.data);
          } else {
            bytes := buffer.data[..buffer.length];
          }
        case None =>
          bytes := NoneMessage(id, sequence);
      }
    }

    /** The nacks to send, if any. */
    method SendNacks() returns (nacks: seq<Nack>)
      modifies receiver`nackList, receiver`nackQueue
      ensures nacks == S.CreateNacks(receiver.Abs()).0 && receiver.nackList == nacks
    {
      var _ := receiver.CreateNacks();
      nacks := receiver.nackList;
    }

    /** The per-frame update: send nacks, resend what was nacked, publish. */
    method Update() returns (nacks: seq<Nack>, datagrams: seq<(NetworkAddress, Bytes)>)
      requires Valid()
      modifies this`nackedMap, receiver, receiver.buffered, receiver.received
      ensures Valid() && nacks == S.CreateNacks(old(receiver.Abs())).0
      ensures nackedMap == map[] && |datagrams| == |old(nackedMap)|
      ensures forall s :: s in old(nackedMap) ==>
                (old(nackedMap)[s], Answer(old(sendBuffers.Abs()), id, s)) in datagrams
      ensures forall d :: d in datagrams ==>
                exists s :: s in old(nackedMap) && d == (old(nackedMap)[s], Answer(old(sendBuffers.Abs()), id, s))
      ensures receiver.Abs() == S.Publish(old(receiver.Abs()))
    {
      nacks := SendNacks();
      datagrams := ResendNacked();
      receiver.Publish();
    }

    /** A reliable body: in one message, or split when it is too long for one.  Empty bodies are refused. */
    method Send(body: Bytes) returns (datagrams: Option<seq<Bytes>>)
      requires Valid()
      modifies frag`nextGroup, sendBuffers, sendBuffers.buffers, sendBuffers.pool
      ensures Valid() && (datagrams.None? <==> body == [])
      ensures body == [] ==> sendBuffers.Abs() == old(sendBuffers.Abs())
      ensures var first := Next(old(sendBuffers.currentSequence));
              if 0 < |body| < FRAGMENT_SIZE then
                && datagrams == Some([Message(id, first, body)])
                && sendBuffers.Abs() == Issue(old(sendBuffers.Abs()), Message(id, first, body))
              else if body != [] then
                var keys := AfterAll(first, |Chunks(body)|);
                && frag.nextGroup == NextGroup(old(frag.nextGroup))
                && sendBuffers.Abs() ==
                   IssueAll(old(sendBuffers.Abs()), Fragments(id, frag.nextGroup, keys, Chunks(body)))
                && datagrams == Some(FetchedAll(sendBuffers.Abs(), keys))
              else true
      ensures forall contents ::
                old(sendBuffers.Abs()) == Issued(contents) && |body| >= FRAGMENT_SIZE ==>
                var first, chunks := |contents| + 1, Chunks(body);
                datagrams == Some(Fragments(id, frag.nextGroup, Keys(first, |chunks|), chunks)) <==>
                RingHolds(first, |chunks|)
    {
      if |body| == 0 {
        return None;
      }
      if |body| >= FRAGMENT_SIZE {
        var keys := frag.CreateFragments(sendBuffers, id, body);
        var fetched := FetchAll(keys);
        forall contents | old(sendBuffers.Abs()) == Issued(contents)
          ensures var first, chunks := |contents| + 1, Chunks(body);
                  fetched == Fragments(id, frag.nextGroup, Keys(first, |chunks|), chunks) <==>
                  RingHolds(first, |chunks|)
        {
          FetchedExactly(contents, id, frag.nextGroup, body);
        }
        return Some(fetched);
      }
      var datagram := SendReliable(body);
      return Some([datagram]);
    }

    method FetchAll(keys: seq<U16>) returns (datagrams: seq<Bytes>)
      requires Valid()
      ensures datagrams == FetchedAll(sendBuffers.Abs(), keys)
    {
      datagrams := [];
      for i := 0 to |keys|
        invariant datagrams == FetchedAll(sendBuffers.Abs(), keys[..i])
      {
        var entry := sendBuffers.GetSendBuffer(keys[i]);
        datagrams := datagrams + [if entry.Some? then entry.value.buffer.data[..entry.value.buffer.length] else []];
        assert keys[..i + 1] == keys[..i] + [keys[i]];
      }
      assert keys[..|keys|] == keys;
    }

    /** A datagram that carries a sequenced message arrives. */
    method ReceiveMessage(from: NetworkAddress, datagram: Bytes) returns (reliable: bool)
      requires Valid()
      modifies this`nackedSequences, this`nackedMap, frag`received, receiver, receiver.buffered, receiver.received
      ensures Valid() && Box() == Accepted(old(Box()), datagram)
      ensures reliable <==> NewReliable(old(receiver.Abs()), datagram)
      ensures nackedMap.Keys == old(nackedMap.Keys) + CarriedNack(datagram)
      ensures forall s :: s in nackedMap ==>
              nackedMap[s] == if s in CarriedNack(datagram) then from else old(nackedMap)[s]
    {
      if |datagram| < HEADER_SIZE {
        return false;
      }
      var h := Headers.Read(datagram);
      if h.messageType == FRAGMENT {
        if |datagram| >= FRAGMENTED_HEADER_SIZE {
          ProcessFragmentMessage(h.sequence, datagram);
        }
        return false;
      }
      if h.messageType == RELIABLE_WITH_NACK && |datagram| >= NACKED_HEADER_SIZE {
        ProcessSingleNack(from, datagram);
      }
      if h.messageType == RELIABLE || h.messageType == RELIABLE_WITH_NACK || h.messageType == NONE_MESSAGE {
        var accepted := receiver.ReceivePacket(h.sequence, datagram);
        return accepted && h.messageType != NONE_MESSAGE;
      }
      return false;
    }

    method ProcessFragmentMessage(sequence: U16, datagram: Bytes)
      requires Valid() && |datagram| >= FRAGMENTED_HEADER_SIZE
      modifies frag`received, receiver, receiver.buffered, receiver.received
      ensures Valid() && frag.received == Collected(old(frag.received), datagram)
      ensures receiver.Abs() == S.ReceivePacket(old(receiver.Abs()), sequence, datagram[..FRAGMENTED_HEADER_SIZE]).0
    {
      var kept, _ := frag.ReceiveFragment(datagram);
      if kept {
        var _ := receiver.ReceivePacket(sequence, datagram[..FRAGMENTED_HEADER_SIZE]);
      }
    }

    method ProcessSingleNack(from: NetworkAddress, datagram: Bytes)
      requires |datagram| >= NACKED_HEADER_SIZE
      modifies this`nackedSequences, this`nackedMap
      ensures nackedSequences == SingleAt(datagram, HEADER_SIZE)
      ensures nackedMap.Keys == old(nackedMap.Keys) + set s | s in SingleAt(datagram, HEADER_SIZE)
      ensures forall s :: s in nackedMap ==>
                nackedMap[s] == if s in SingleAt(datagram, HEADER_SIZE) then from else old(nackedMap)[s]
    {
      nackedSequences := ReadSingle([], datagram, HEADER_SIZE);
      CopyNackedToMap(from);
    }

    /** The next body for the application, empty if there is none. */
    method ReceivePublished() returns (body: Bytes)
      requires Valid()
      modifies receiver`published, frag`received
      ensures Valid() && (Box(), body) == TakeBody(old(Box()), TAKE_ATTEMPTS)
    {
      body := [];
      for i := 0 to TAKE_ATTEMPTS
        invariant Valid() && TakeBody(Box(), TAKE_ATTEMPTS - i) == TakeBody(old(Box()), TAKE_ATTEMPTS)
      {
        var taken := ReceiveOne();
        if taken.None? {
          return [];
        }
        if taken.value != [] {
          return taken.value;
        }
      }
    }

    /** `receive_published_internal` */
    method ReceiveOne() returns (body: Option<Bytes>)
      requires Valid()
      modifies receiver`published, frag`received
      ensures Valid() && (Box(), body) == TakeOne(old(Box()))
    {
      var taken := receiver.TakePublished();
      if taken.None? {
        return None;
      }
      var message := taken.value;
      if |message| >= FRAGMENTED_HEADER_SIZE && message[0] == FRAGMENT {
        var h := ReadFragmented(message);
        var assembled := frag.Assemble(h);
        return Some(if assembled.Some? then assembled.value else []);
      }
      var plain := Body(message);
      return Some(if plain.Some? then plain.value else []);
    }
  }

  /** The datagram is a reliable message that the receiver accepts. */
  predicate NewReliable(receiver: S.State<Bytes>, datagram: Bytes) {
    && |datagram| >= HEADER_SIZE && (datagram[0] == RELIABLE || datagram[0] == RELIABLE_WITH_NACK)
    && S.ReceivePacket(receiver, PlainAt(datagram).sequence, datagram).1
  }

  /** The sequences named by a nack that a reliable message carries. */
  function CarriedNack(datagram: Bytes): set<U16> {
    if |datagram| >= NACKED_HEADER_SIZE && datagram[0] == RELIABLE_WITH_NACK
    then set s | s in SingleAt(datagram, HEADER_SIZE) else {}
  }
}
