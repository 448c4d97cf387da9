/** The fragmentation object of a channel (src/tachyon/fragmentation.rs). */
module Fragmentations {
  import opened Sequence
  import opened SequenceBuffers
  import opened IntBuffers
  import opened Headers
  import opened SendBuffers
  import opened FragmentSpec

  // ---- the length of a group ----

  /** The payload bytes of all fragments of a group, in whatever order they are visited. */
  ghost function TotalPayload(group: map<U16, Bytes>): nat
    requires LongEnough(group)
    decreases |group|
  {
    if group == map[] then 0 else
    var s :| s in group;
    assert |group - {s}| < |group| by { assert (group - {s}).Keys == group.Keys - {s}; }
    |Payload(group[s])| + TotalPayload(group - {s})
  }

  lemma {:induction false} TotalRemove(group: map<U16, Bytes>, s: U16)
    requires LongEnough(group) && s in group
    ensures TotalPayload(group) == |Payload(group[s])| + TotalPayload(group - {s})
    decreases |group|
  {
    assert |group - {s}| < |group| by { assert (group - {s}).Keys == group.Keys - {s}; }
    var t :| t in group && TotalPayload(group) == |Payload(group[t])| + TotalPayload(group - {t});
    if t != s {
      assert |group - {t}| < |group| by { assert (group - {t}).Keys == group.Keys - {t}; }
      TotalRemove(group - {t}, s);
      TotalRemove(group - {s}, t);
      assert group - {t} - {s} == group - {s} - {t};
    }
  }

  // ---- consecutive sequences ----

  /** The sequence `i` steps after `start`; any 65535 consecutive ones are distinct. */
  function After(start: U16, i: nat): U16 {
    if i == 0 then start else Wire((if start == 65535 then -1 else start) + i)
  }

  lemma AfterStep(start: U16, i: nat)
    ensures After(start, i + 1) == Next(After(start, i))
  {
    WireStep((if start == 65535 then -1 else start) + i);
  }

  lemma AfterDiffers(start: U16, i: nat, j: nat)
    requires i < j < 65535
    ensures After(start, i) != After(start, j)
  {
    var base := if start == 65535 then -1 else start as int;
    if Wire(base + i) == Wire(base + j) { WireInjective(base + i, base + j); }
  }

  function AfterAll(start: U16, count: nat): seq<U16> {
    seq<U16>(count, i requires 0 <= i < count => After(start, i))
  }

  /** The sender after sending all of `contents`. */
  function IssueAll(s: Sender, contents: seq<Bytes>): (r: Sender)
    requires SoundSender(s)
    ensures SoundSender(r) && r.pool.bufferSize == s.pool.bufferSize
    ensures contents != [] ==> r.current == After(Next(s.current), |contents| - 1)
  {
    if contents == [] then s
    else
      var before := contents[..|contents| - 1];
      var t := IssueAll(s, before);
      IssueSound(t, contents[|contents| - 1]);
      assert before != [] ==> Next(t.current) == After(Next(s.current), |before|) by {
        if before != [] { AfterStep(Next(s.current), |before| - 1); }
      }
      Issue(t, contents[|contents| - 1])
  }

  /** Fragments sent by a channel's sender get consecutive packet numbers. */
  lemma {:induction false} IssueAllIssued(contents: seq<Bytes>, more: seq<Bytes>)
    ensures IssueAll(Issued(contents), more) == Issued(contents + more)
  {
    if more == [] {
      assert contents + more == contents;
    } else {
      var before := more[..|more| - 1];
      IssueAllIssued(contents, before);
      assert (contents + more)[..|contents + more| - 1] == contents + before;
      assert (contents + more)[|contents + more| - 1] == more[|more| - 1];
    }
  }

  lemma KeysAreAfter(n: int, count: nat)
    ensures AfterAll(Wire(n), count) == Keys(n, count)
  {
    forall i | 0 <= i < count ensures AfterAll(Wire(n), count)[i] == Keys(n, count)[i] {
      AfterWire(n, i);
    }
  }

  function Payloads(group: map<U16, Bytes>, keys: seq<U16>): seq<Bytes>
    requires LongEnough(group) && forall k :: 0 <= k < |keys| ==> keys[k] in group
  {
    seq(|keys|, k requires 0 <= k < |keys| => Payload(group[keys[k]]))
  }

  lemma {:induction false} AfterNext(start: U16, count: nat)
    requires count > 0
    ensures AfterAll(start, count) == [start] + AfterAll(Next(start), count - 1)
  {
    forall i | 0 <= i < count - 1 ensures After(start, i + 1) == After(Next(start), i) {
      var base := if start == 65535 then -1 else start as int;
      WireStep(base);
      AfterWire(base + 1, i);
    }
  }

  lemma AllHeld(group: map<U16, Bytes>, first: U16, rest: seq<U16>)
    ensures var keys := [first] + rest;
            (forall k :: 0 <= k < |keys| ==> keys[k] in group) <==>
            first in group && forall k :: 0 <= k < |rest| ==> rest[k] in group
  {
    var keys := [first] + rest;
    assert keys[0] == first && forall k :: 0 <= k < |rest| ==> rest[k] == keys[k + 1];
  }

  lemma {:induction false} GatheredExactly(group: map<U16, Bytes>, start: U16, count: nat)
    requires LongEnough(group)
    ensures var keys, all := AfterAll(start, count), Gathered(group, start, count);
            && (all.Some? <==> forall k :: 0 <= k < count ==> keys[k] in group)
            && (all.Some? ==> all.value == Joined(Payloads(group, keys)))
    decreases count, start
  {
    if count > 0 {
      AfterNext(start, count);
      GatheredExactly(group, Next(start), count - 1);
      var keys, rest := AfterAll(start, count), AfterAll(Next(start), count - 1);
      AllHeld(group, start, rest);
      if Gathered(group, start, count).Some? {
        assert Payloads(group, keys)[1..] == Payloads(group, rest);
      }
    }
  }

  /** Whatever has been collected: assembling succeeds exactly when the group has as many fragments as the
      header says and they are the consecutive ones from its start on, also over the wrap; it yields their
      payloads in sequence, and drops the group, and only that, once the count is reached. */
  lemma {:induction false} AssembledExactly(received: Received, h: Header)
    requires AllLongEnough(received)
    ensures var (left, body) := Assembled(received, h);
            var keys, counted := AfterAll(h.fragmentStart, h.fragmentCount),
              h.fragmentGroup in received && |received[h.fragmentGroup]| == h.fragmentCount;
            && (body.Some? <==>
                  counted && forall k :: 0 <= k < |keys| ==> keys[k] in received[h.fragmentGroup])
            && (body.Some? ==> body.value == Joined(Payloads(received[h.fragmentGroup], keys)))
            && (forall g :: g in left <==> g in received && (g == h.fragmentGroup ==> !counted))
            && (forall g :: g in left ==> left[g] == received[g])
  {
    if h.fragmentGroup in received {
      GatheredExactly(received[h.fragmentGroup], h.fragmentStart, h.fragmentCount);
    }
  }

  lemma AfterWire(n: int, i: nat)
    ensures After(Wire(n), i) == Wire(n + i)
  {
  }

  class Fragmentation {
    var nextGroup: U16
    var received: Received

    ghost predicate Valid()
      reads this
    {
      1 <= nextGroup < 65534 && AllLongEnough(received)
    }

    constructor ()
      ensures Valid() && nextGroup == 1 && received == map[]
    {
      nextGroup, received := 1, map[];
    }

    method GetNextGroup() returns (group: U16)
      requires Valid()
      modifies this`nextGroup
      ensures Valid() && group == nextGroup == NextGroup(old(nextGroup))
    {
      nextGroup := nextGroup + 1;
      if nextGroup >= 65534 {
        nextGroup := 1;
      }
      group := nextGroup;
    }

    /** Keeps the first copy of each fragment; `complete` when the group has all it announces. */
    method ReceiveFragment(data: Bytes) returns (kept: bool, complete: bool)
      requires Valid() && |data| >= FRAGMENTED_HEADER_SIZE
      modifies this`received
      ensures Valid() && received == Collected(old(received), data) && kept
      ensures var h := FragmentedAt(data); complete <==> |received[h.fragmentGroup]| == h.fragmentCount
    {
      var h := ReadFragmented(data);
      if h.fragmentGroup !in received {
        received := received[h.fragmentGroup := map[]];
      }
      var group := received[h.fragmentGroup];
      if h.sequence !in group {
        group := group[h.sequence := data];
      }
      received := received[h.fragmentGroup := group];
      return true, |group| == h.fragmentCount;
    }

    static method GetGroupLength(group: map<U16, Bytes>) returns (length: nat)
      requires LongEnough(group)
      ensures length == TotalPayload(group)
    {
      length := 0;
      var rest := group;
      while rest != map[]
        invariant LongEnough(rest) && length + TotalPayload(rest) == TotalPayload(group)
        decreases |rest|
      {
        var s :| s in rest;
        TotalRemove(rest, s);
        assert (rest - {s}).Keys == rest.Keys - {s};
        length := length + (|rest[s]| - FRAGMENTED_HEADER_SIZE);
        rest := rest - {s};
      }
    }

    /** The copies never run past the buffer, whose length was summed up beforehand. */
    method Assemble(h: Header) returns (message: Option<Bytes>)
      requires Valid()
      modifies this`received
      ensures Valid() && (received, message) == Assembled(old(received), h)
    {
      if h.fragmentGroup !in received {
        return None;
      }
      var group := received[h.fragmentGroup];
      if |group| != h.fragmentCount {
        return None;
      }
      var bodyLength := GetGroupLength(group);
      var gathered := CopyFragments(group, h.fragmentStart, h.fragmentCount, bodyLength);
      received := received - {h.fragmentGroup};
      return gathered;
    }

    static method CopyPayload(fragment: Bytes, buffer: array<Byte>, offset: nat) returns (end: nat)
      requires |fragment| >= FRAGMENTED_HEADER_SIZE && offset + |Payload(fragment)| <= buffer.Length
      modifies buffer
      ensures end == offset + |Payload(fragment)| && buffer[..end] == old(buffer[..offset]) + Payload(fragment)
    {
      var src := fragment[FRAGMENTED_HEADER_SIZE..];
      ghost var before := buffer[..];
      LengthPrefixed.CopyFrom(src, buffer, offset);
      end := offset + |src|;
      assert buffer[..end] == before[..offset] + src;
    }

    /** The copying loop of `assemble`. */
    static method CopyFragments(group: map<U16, Bytes>, start: U16, count: U16, length: nat) returns (r: Option<Bytes>)
      requires LongEnough(group) && |group| == count && length == TotalPayload(group)
      ensures r == Gathered(group, start, count)
    {
      var buffer := new Byte[length](_ => 0);
      var offset := 0;
      var s := start;
      ghost var rest, whole := group, Gathered(group, start, count);
      ContinuedStep([], [], whole);
      for i := 0 to count
        invariant 0 <= offset <= buffer.Length &&
                  Copying(group, rest, start, i, s, buffer[..offset], count, length, whole)
      {
        if s !in group {
          return None;
        }
        CopyStep(group, rest, start, i, s, buffer[..offset], count, length, whole);
        offset := CopyPayload(group[s], buffer, offset);
        rest := rest - {s};
        s := Next(s);
      }
      assert buffer[..offset] == buffer[..] == buffer[..] + [] by { assert rest == map[]; }
      assert Gathered(group, s, 0) == Some([]);
      return Some(buffer[..]);
    }

    /** One fragment: a send buffer with header and chunk.  The first one starts the group. */
    method CreateFragment(sender: SendBufferManager, channel: Byte, group: U16, isFirst: bool, start: U16, count: U16,
                          chunk: Bytes)
      returns (sequence: U16, start': U16)
      requires sender.Valid()
      modifies sender, sender.buffers, sender.pool
      ensures sender.Valid() && sequence == Next(old(sender.currentSequence))
      ensures start' == if isFirst then sequence else start
      ensures sender.Abs() == Issue(old(sender.Abs()), FragmentBytes(channel, group, start', count, sequence, chunk))
    {
      var entry := sender.CreateSendBuffer(FRAGMENTED_HEADER_SIZE + |chunk|);
      sequence := entry.sequence;
      start' := if isFirst then sequence else start;
      FragmentLength(channel, group, start', count, sequence, chunk);
      sender.Fill(FragmentBytes(channel, group, start', count, sequence, chunk));
    }

    /** Splits `data` and writes one send buffer per fragment. */
    method CreateFragments(sender: SendBufferManager, channel: Byte, data: Bytes) returns (fragments: seq<U16>)
      requires Valid() && sender.Valid()
      modifies this`nextGroup, sender, sender.buffers, sender.pool
      ensures Valid() && sender.Valid() && nextGroup == NextGroup(old(nextGroup))
      ensures fragments == AfterAll(Next(old(sender.currentSequence)), |Chunks(data)|)
      ensures sender.Abs() == IssueAll(old(sender.Abs()), Fragments(channel, nextGroup, fragments, Chunks(data)))
    {
      var chunks := Chunks(data);
      var group := GetNextGroup();
      ghost var before, first := sender.Abs(), Next(sender.currentSequence);
      ghost var all := AfterAll(first, |chunks|);
      ghost var list := Fragments(channel, group, all, chunks);
      fragments := [];
      var start: U16 := 0;
      for i := 0 to |chunks|
        invariant Valid() && sender.Valid() && nextGroup == group == NextGroup(old(nextGroup))
        invariant fragments == all[..i] && (i > 0 ==> start == first)
        invariant sender.Abs() == IssueAll(before, list[..i])
      {
        NextFragment(before, list, i);
        FragmentInList(channel, group, all, chunks, i);
        var sequence;
        sequence, start := CreateFragment(sender, channel, group, i == 0, start, |chunks| % 0x1_0000, chunks[i]);
        PrefixStep(all, i, sequence);
        fragments := fragments + [sequence];
      }
      assert list[..|chunks|] == list && all[..|chunks|] == all;
    }
  }

  lemma NextFragment(s: Sender, list: seq<Bytes>, i: nat)
    requires SoundSender(s) && i < |list|
    ensures IssueAll(s, list[..i + 1]) == Issue(IssueAll(s, list[..i]), list[i])
    ensures Next(IssueAll(s, list[..i]).current) == After(Next(s.current), i)
  {
    assert list[..i + 1][..i] == list[..i];
    if i > 0 { AfterStep(Next(s.current), i - 1); }
  }

  lemma PrefixStep<T>(list: seq<T>, i: nat, x: T)
    requires i < |list| && list[i] == x
    ensures list[..i + 1] == list[..i] + [x]
  {
  }

  lemma FragmentInList(channel: Byte, group: U16, keys: seq<U16>, chunks: seq<Bytes>, i: nat)
    requires i < |chunks| == |keys|
    ensures Fragments(channel, group, keys, chunks)[i]
         == FragmentBytes(channel, group, keys[0], |chunks| % 0x1_0000, keys[i], chunks[i])
  {
  }

  lemma FragmentLength(channel: Byte, group: U16, start: U16, count: U16, sequence: U16, chunk: Bytes)
    ensures |FragmentBytes(channel, group, start, count, sequence, chunk)| == FRAGMENTED_HEADER_SIZE + |chunk|
  {
  }

  /** `done` followed by what is still to be gathered. */
  ghost function Continued(done: Bytes, rest: Option<Bytes>): Option<Bytes> {
    match rest
    case None => None
    case Some(bytes) => Some(done + bytes)
  }

  lemma ContinuedStep(done: Bytes, src: Bytes, rest: Option<Bytes>)
    ensures Continued([], rest) == rest
    ensures Continued(done + src, rest) == Continued(done, Continued(src, rest))
  {
    match rest {
      case None =>
      case Some(bytes) => assert (done + src) + bytes == done + (src + bytes) && [] + bytes == bytes;
    }
  }

  /** The fragments left after the copying loop has visited `i` consecutive sequences. */
  ghost predicate Unvisited(group: map<U16, Bytes>, rest: map<U16, Bytes>, start: U16, i: nat) {
    && LongEnough(rest)
    && (forall t :: t in rest ==> t in group && rest[t] == group[t])
    && (forall t :: t in group && t !in rest ==> exists j :: 0 <= j < i && t == After(start, j))
  }

  /** After `i` iterations of the copying loop, which stands at `s` and has copied `done`. */
  ghost predicate Copying(group: map<U16, Bytes>, rest: map<U16, Bytes>, start: U16, i: nat, s: U16, done: Bytes,
                          count: nat, length: nat, whole: Option<Bytes>) {
    && LongEnough(group) && i <= count && s == After(start, i) && Unvisited(group, rest, start, i)
    && |done| + TotalPayload(rest) == length && |rest| == count - i
    && whole == Continued(done, Gathered(group, s, count - i))
  }

  lemma CopyStep(group: map<U16, Bytes>, rest: map<U16, Bytes>, start: U16, i: nat, s: U16, done: Bytes,
                 count: nat, length: nat, whole: Option<Bytes>)
    requires Copying(group, rest, start, i, s, done, count, length, whole) && i < count < 65536 && s in group
    ensures |group[s]| >= FRAGMENTED_HEADER_SIZE && |done| + |Payload(group[s])| <= length
    ensures Copying(group, rest - {s}, start, i + 1, Next(s), done + Payload(group[s]), count, length, whole)
  {
    Visit(group, rest, start, i);
    ContinuedStep(done, Payload(group[s]), Gathered(group, Next(s), count - i - 1));
  }

  /** The sequence that the loop stands at was not visited before. */
  lemma Visit(group: map<U16, Bytes>, rest: map<U16, Bytes>, start: U16, i: nat)
    requires i < 65535 && After(start, i) in group && Unvisited(group, rest, start, i)
    ensures var s := After(start, i);
            && s in rest && TotalPayload(rest) == |Payload(group[s])| + TotalPayload(rest - {s})
            && |rest - {s}| == |rest| - 1 && Unvisited(group, rest - {s}, start, i + 1)
            && Next(s) == After(start, i + 1)
  {
    var s := After(start, i);
    NotUsed(group, rest, start, i);
    TotalRemove(rest, s);
    AfterStep(start, i);
    assert (rest - {s}).Keys == rest.Keys - {s};
    forall t | t in group && t !in rest - {s} ensures exists j :: 0 <= j < i + 1 && t == After(start, j) {
      if t in rest { assert t == After(start, i); }
    }
  }

  /** The copying loop has not visited the sequence it stands at. */
  lemma NotUsed(group: map<U16, Bytes>, rest: map<U16, Bytes>, start: U16, i: nat)
    requires i < 65535 && After(start, i) in group
    requires forall t :: t in group && t !in rest ==> exists j :: 0 <= j < i && t == After(start, j)
    ensures After(start, i) in rest
  {
    if After(start, i) !in rest {
      var j :| 0 <= j < i && After(start, i) == After(start, j);
      AfterDiffers(start, j, i);
    }
  }

  // ---- from the send ring to the message ----

  /** The bytes sent for a sequence: the used part of the buffer in its slot. */
  function Fetched(s: Sender, sequence: U16): Bytes {
    match Lookup(s, sequence)
    case Some(entry) =>
      if entry.buffer.length <= |entry.buffer.data| then entry.buffer.data[..entry.buffer.length] else []
    case None => []
  }

  function FetchedAll(s: Sender, keys: seq<U16>): seq<Bytes> {
    seq(|keys|, k requires 0 <= k < |keys| => Fetched(s, keys[k]))
  }

  lemma FetchedIs(contents: seq<Bytes>, fragments: seq<Bytes>, k: nat)
    requires k < |fragments| <= 1023
    ensures Fetched(Issued(contents + fragments), Keys(|contents| + 1, |fragments|)[k]) == fragments[k]
  {
    FragmentsAreRetained(contents, fragments, k);
  }

  lemma FetchedEach(s: Sender, keys: seq<U16>, list: seq<Bytes>)
    requires |keys| == |list| && forall k :: 0 <= k < |keys| ==> Fetched(s, keys[k]) == list[k]
    ensures FetchedAll(s, keys) == list
  {
  }

  /** What the sender fetches from its ring for up to 1023 fragments is the fragments, whatever was
      sent before and wherever the sequence counter stands. */
  lemma FetchedAreFragments(contents: seq<Bytes>, fragments: seq<Bytes>)
    requires |fragments| <= 1023
    ensures FetchedAll(IssueAll(Issued(contents), fragments), Keys(|contents| + 1, |fragments|)) == fragments
  {
    IssueAllIssued(contents, fragments);
    var s, keys := Issued(contents + fragments), Keys(|contents| + 1, |fragments|);
    forall k | 0 <= k < |keys| ensures Fetched(s, keys[k]) == fragments[k] {
      FetchedIs(contents, fragments, k);
    }
    FetchedEach(s, keys, fragments);
  }

  /** A sender that has sent `contents` and splits a body of at most 1023 chunks fetches exactly the
      fragments of that body, under consecutive packet numbers. */
  lemma FetchedAfterIssue(contents: seq<Bytes>, channel: Byte, group: U16, body: Bytes)
    requires |body| <= 1023 * FRAGMENT_SIZE
    ensures var s, chunks := Issued(contents), Chunks(body);
            var keys := AfterAll(Next(s.current), |chunks|);
            && keys == Keys(|contents| + 1, |chunks|)
            && FetchedAll(IssueAll(s, Fragments(channel, group, keys, chunks)), keys) ==
               Fragments(channel, group, keys, chunks)
  {
    ChunksJoin(body);
    FetchedExactly(contents, channel, group, body);
  }

  // ---- more fragments than the ring holds ----

  /** The ring still holds all of `count` packets from `first` on once the last is written. */
  predicate RingHolds(first: int, count: nat) {
    count <= 1023 || (count == 1024 && Wire(first) + 1023 < MODULUS)
  }

  /** If it does not, some packet among them has lost its slot to a later one. */
  lemma {:induction false} LostPacket(first: int, count: nat) returns (k: nat)
    requires !RingHolds(first, count)
    ensures k < count && k + Turn(first + k) <= count - 1 <= k + 1024
  {
    if count == 1024 {
      k := 0;
    } else {
      k := count - 1025;
      if Turn(first + k) > 1024 {
        WireStep(first + k);
        k := k + 1;
      }
    }
  }

  lemma {:induction false} HeldPacket(first: int, count: nat, k: nat)
    requires RingHolds(first, count) && k < count
    ensures count - 1 < k + Turn(first + k)
  {
  }

  /** Messages that carry the sequences of consecutive packets. */
  predicate Sequenced(list: seq<Bytes>, first: int) {
    forall i :: 0 <= i < |list| ==> |list[i]| >= HEADER_SIZE && PlainAt(list[i]).sequence == Wire(first + i)
  }

  lemma FetchedEntry(s: Sender, sequence: U16, own: U16, bytes: Bytes)
    requires Lookup(s, sequence).Some? && EntryHolds(Lookup(s, sequence).value, own, bytes)
    ensures Fetched(s, sequence) == bytes
  {
  }

  /** What is fetched for a packet is that packet exactly until its slot's next turn. */
  lemma {:induction false} FetchedInTurn(contents: seq<Bytes>, list: seq<Bytes>, k: nat)
    requires k < |list| && |list| - 1 - k < MODULUS && Sequenced(list, |contents| + 1)
    ensures var n := |contents| + 1 + k;
            Fetched(Issued(contents + list), Wire(n)) == list[k] <==> |list| - 1 < k + Turn(n)
  {
    var n := |contents| + 1 + k;
    var l := FetchedSome(contents, list, k);
    if l != k { OtherPacket(list, |contents| + 1, k, l); }
  }

  /** What is fetched is some packet of the list, the one asked for exactly until its slot's next turn. */
  lemma {:induction false} FetchedSome(contents: seq<Bytes>, list: seq<Bytes>, k: nat) returns (l: nat)
    requires k < |list| && |list| - 1 - k < MODULUS
    ensures var n := |contents| + 1 + k;
            && k <= l < |list| && (l == k <==> |list| - 1 < k + Turn(n))
            && Fetched(Issued(contents + list), Wire(n)) == list[l]
  {
    var all, n := contents + list, |contents| + 1 + k;
    var m := RetainedExactly(all, n);
    l := m - |contents| - 1;
    assert all[m - 1] == list[l];
    FetchedEntry(Issued(all), Wire(n), Wire(m), list[l]);
  }

  lemma OtherPacket(list: seq<Bytes>, first: int, k: nat, l: nat)
    requires k < l < |list| && l - k < MODULUS && Sequenced(list, first)
    ensures list[k] != list[l]
  {
    if Wire(first + k) == Wire(first + l) { WireInjective(first + k, first + l); }
  }

  lemma {:induction false} FetchedAllExactly(contents: seq<Bytes>, list: seq<Bytes>)
    requires Sequenced(list, |contents| + 1)
    ensures var first := |contents| + 1;
            FetchedAll(Issued(contents + list), Keys(first, |list|)) == list <==> RingHolds(first, |list|)
  {
    var s, first, keys := Issued(contents + list), |contents| + 1, Keys(|contents| + 1, |list|);
    if RingHolds(first, |list|) {
      forall k | 0 <= k < |keys| ensures Fetched(s, keys[k]) == list[k] {
        FetchedHeld(contents, list, k);
      }
      FetchedEach(s, keys, list);
    } else {
      var k := FetchedLost(contents, list);
      assert FetchedAll(s, keys)[k] == Fetched(s, keys[k]);
    }
  }

  lemma {:induction false} FetchedHeld(contents: seq<Bytes>, list: seq<Bytes>, k: nat)
    requires Sequenced(list, |contents| + 1) && RingHolds(|contents| + 1, |list|) && k < |list|
    ensures Fetched(Issued(contents + list), Keys(|contents| + 1, |list|)[k]) == list[k]
  {
    KeyAt(|contents| + 1, |list|, k);
    HeldPacket(|contents| + 1, |list|, k);
    FetchedInTurn(contents, list, k);
  }

  lemma {:induction false} FetchedLost(contents: seq<Bytes>, list: seq<Bytes>) returns (k: nat)
    requires Sequenced(list, |contents| + 1) && !RingHolds(|contents| + 1, |list|)
    ensures k < |list| && Fetched(Issued(contents + list), Keys(|contents| + 1, |list|)[k]) != list[k]
  {
    k := LostPacket(|contents| + 1, |list|);
    KeyAt(|contents| + 1, |list|, k);
    FetchedInTurn(contents, list, k);
  }

  lemma {:induction false} FragmentsSequenced(channel: Byte, group: U16, first: int, chunks: seq<Bytes>)
    ensures Sequenced(Fragments(channel, group, Keys(first, |chunks|), chunks), first)
  {
    var keys := Keys(first, |chunks|);
    forall i | 0 <= i < |chunks|
      ensures var f := Fragments(channel, group, keys, chunks)[i];
              |f| >= HEADER_SIZE && PlainAt(f).sequence == Wire(first + i)
    {
      KeyAt(first, |chunks|, i);
      FragmentInList(channel, group, keys, chunks, i);
      FragmentFields(channel, group, keys[0], |chunks| % 0x1_0000, keys[i], chunks[i]);
    }
  }

  /** A body of any length: what is fetched back is exactly its fragments if and only if there are at most
      1023 of them, or 1024 that do not straddle the wrap. */
  lemma {:induction false} FetchedExactly(contents: seq<Bytes>, channel: Byte, group: U16, body: Bytes)
    ensures var s, chunks := Issued(contents), Chunks(body);
            var keys := AfterAll(Next(s.current), |chunks|);
            var fragments := Fragments(channel, group, keys, chunks);
            && keys == Keys(|contents| + 1, |chunks|)
            && (FetchedAll(IssueAll(s, fragments), keys) == fragments <==> RingHolds(|contents| + 1, |chunks|))
  {
    var first, chunks := |contents| + 1, Chunks(body);
    WireStep(|contents|);
    KeysAreAfter(first, |chunks|);
    var fragments := Fragments(channel, group, Keys(first, |chunks|), chunks);
    FragmentsSequenced(channel, group, first, chunks);
    IssueAllIssued(contents, fragments);
    FetchedAllExactly(contents, fragments);
  }

  /** For instance, the first body that is too long wherever the counter stands. */
  lemma {:induction false} TooManyFragments(contents: seq<Bytes>, channel: Byte, group: U16, body: Bytes)
    requires |body| == 1024 * FRAGMENT_SIZE + 1
    ensures var s, chunks := Issued(contents), Chunks(body);
            var keys := AfterAll(Next(s.current), |chunks|);
            var fragments := Fragments(channel, group, keys, chunks);
            |chunks| == 1025 && FetchedAll(IssueAll(s, fragments), keys) != fragments
  {
    ChunksJoin(body);
    FetchedExactly(contents, channel, group, body);
  }

  /** A fragmented message arrives: create its fragments behind any earlier traffic, fetch them from the
      send ring, and deliver them in any order with any duplicates.  `assemble` yields the message as
      soon as all have arrived, and nothing before. */
  lemma FragmentedTransfer(contents: seq<Bytes>, channel: Byte, group: U16, data: Bytes, received: Received,
                           order: seq<int>, h: Header)
    requires 1 <= |Chunks(data)| <= 1023 && InRange(order, |Chunks(data)|)
    requires AllLongEnough(received) && group !in received
    requires h.fragmentGroup == group && h.fragmentStart == Wire(|contents| + 1) && h.fragmentCount == |Chunks(data)|
    ensures var keys := Keys(|contents| + 1, |Chunks(data)|);
            var sender := IssueAll(Issued(contents), Fragments(channel, group, keys, Chunks(data)));
            var fetched := FetchedAll(sender, keys);
            && (forall k :: 0 <= k < |fetched| ==> |fetched[k]| >= FRAGMENTED_HEADER_SIZE)
            && var r := CollectAll(received, fetched, order);
               && AllLongEnough(r)
               && Assembled(r, h) == if AllDelivered(|fetched|, order) then (received, Some(data)) else (r, None)
  {
    FetchedAreFragments(contents, Fragments(channel, group, Keys(|contents| + 1, |Chunks(data)|), Chunks(data)));
    RoundTrip(received, channel, group, |contents| + 1, data, order, h);
  }
}
