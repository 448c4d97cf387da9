/** Splitting a message into fragments and putting it together again, as functions
    (src/tachyon/fragmentation.rs). */
module FragmentSpec {
  import opened Lists
  import opened Sequence
  import opened SequenceBuffers
  import opened IntBuffers
  import opened Headers
  import opened SendBuffers

  const FRAGMENT_SIZE := 1200

  /** Fragments by group and by sequence. */
  type Received = map<U16, map<U16, Bytes>>

  function NextGroup(group: U16): U16
    requires group < 65535
  {
    if group + 1 >= 65534 then 1 else group + 1
  }

  /** The group id of the `i`-th fragmented message of a channel. */
  function GroupId(i: nat): (group: U16)
    ensures 1 <= group < 65534
    decreases i, 0
  {
    if i == 0 then 1 else NextGroup(GroupId(i - 1))
  }

  lemma {:induction false} GroupIdIs(i: nat)
    ensures GroupId(i) == i % 65533 + 1
    decreases i
  {
    if i > 0 {
      GroupIdIs(i - 1);
      NextRemainder(i - 1);
    }
  }

  lemma NextRemainder(i: nat)
    ensures (i + 1) % 65533 == if i % 65533 == 65532 then 0 else i % 65533 + 1
  {
    assert i == 65533 * (i / 65533) + i % 65533;
  }

  /** Group ids are used again after 65533 fragmented messages, and not before. */
  lemma {:induction false} GroupIdsDiffer(i: nat, j: nat)
    requires i < j <= i + 65533
    ensures GroupId(i) == GroupId(j) <==> j == i + 65533
  {
    GroupIdIs(i);
    GroupIdIs(j);
    var turns := j / 65533 - i / 65533;
    assert j - i == 65533 * turns + (j % 65533 - i % 65533);
    assert 0 <= turns <= 1;
  }

  // ---- splitting ----

  function Chunks(data: Bytes): seq<Bytes> {
    if data == [] then []
    else if |data| <= FRAGMENT_SIZE then [data]
    else [data[..FRAGMENT_SIZE]] + Chunks(data[FRAGMENT_SIZE..])
  }

  function Joined(parts: seq<Bytes>): Bytes {
    if parts == [] then [] else parts[0] + Joined(parts[1..])
  }

  lemma {:induction false} ChunksJoin(data: Bytes)
    ensures Joined(Chunks(data)) == data
    ensures |Chunks(data)| == (|data| + FRAGMENT_SIZE - 1) / FRAGMENT_SIZE
  {
    if 0 < |data| <= FRAGMENT_SIZE {
      assert Chunks(data)[1..] == [];
      assert Joined(Chunks(data)) == data + Joined([]);
    } else if |data| > FRAGMENT_SIZE {
      var rest := data[FRAGMENT_SIZE..];
      ChunksJoin(rest);
      assert Chunks(data)[1..] == Chunks(rest);
      assert data == data[..FRAGMENT_SIZE] + rest;
    }
  }

  /** A fragment as it travels. */
  function FragmentBytes(channel: Byte, group: U16, start: U16, count: U16, sequence: U16, chunk: Bytes): Bytes {
    FragmentedBytes(Fragmented(sequence, channel, group, start, count)) + chunk
  }

  /** The sequences of `count` consecutive packets. */
  function Keys(first: int, count: nat): seq<U16> {
    seq<U16>(count, k => Wire(first + k))
  }

  lemma KeyAt(first: int, count: nat, k: nat)
    requires k < count
    ensures Keys(first, count)[k] == Wire(first + k) && Keys(first, count)[0] == Wire(first)
  {
    assert first + 0 == first;
  }

  function FragmentOf(channel: Byte, group: U16, keys: seq<U16>, chunks: seq<Bytes>, k: nat): Bytes
    requires k < |chunks| == |keys|
  {
    FragmentBytes(channel, group, keys[0], |chunks| % 0x1_0000, keys[k], chunks[k])
  }

  /** The fragments of a message with the given chunks, sent under the sequences `keys`. */
  function Fragments(channel: Byte, group: U16, keys: seq<U16>, chunks: seq<Bytes>): seq<Bytes>
    requires |chunks| == |keys|
  {
    seq(|chunks|, k requires 0 <= k < |chunks| => FragmentOf(channel, group, keys, chunks, k))
  }

  lemma KeysDiffer(first: int, count: nat)
    requires count <= 65535
    ensures forall j, k :: 0 <= j < k < count ==> Keys(first, count)[j] != Keys(first, count)[k]
    ensures forall k :: 0 <= k < count - 1 ==> Next(Keys(first, count)[k]) == Keys(first, count)[k + 1]
  {
    var keys := Keys(first, count);
    forall j, k | 0 <= j < k < count ensures keys[j] != keys[k] {
      if Wire(first + j) == Wire(first + k) { WireInjective(first + j, first + k); }
    }
    forall k | 0 <= k < count - 1 ensures Next(keys[k]) == keys[k + 1] {
      WireStep(first + k);
    }
  }

  lemma FragmentFields(channel: Byte, group: U16, start: U16, count: U16, sequence: U16, chunk: Bytes)
    ensures var f := FragmentBytes(channel, group, start, count, sequence, chunk);
            && |f| == FRAGMENTED_HEADER_SIZE + |chunk| && f[FRAGMENTED_HEADER_SIZE..] == chunk
            && FragmentedAt(f) == Fragmented(sequence, channel, group, start, count)
  {
    var h := Fragmented(sequence, channel, group, start, count);
    var f := FragmentBytes(channel, group, start, count, sequence, chunk);
    assert f[0..10] == FragmentedBytes(h);
    FragmentedRoundTrip(f, h);
  }

  // ---- collecting ----

  /** The fragments held after one more arrives; a duplicate changes nothing. */
  function Collected(received: Received, fragment: Bytes): Received
    requires |fragment| >= FRAGMENTED_HEADER_SIZE
  {
    var h := FragmentedAt(fragment);
    var group: map<U16, Bytes> := if h.fragmentGroup in received then received[h.fragmentGroup] else map[];
    received[h.fragmentGroup := if h.sequence in group then group else group[h.sequence := fragment]]
  }

  function Payload(fragment: Bytes): Bytes
    requires |fragment| >= FRAGMENTED_HEADER_SIZE
  {
    fragment[FRAGMENTED_HEADER_SIZE..]
  }

  /** Every fragment is at least as long as its header. */
  predicate LongEnough(group: map<U16, Bytes>) {
    forall s :: s in group ==> |group[s]| >= FRAGMENTED_HEADER_SIZE
  }

  predicate AllLongEnough(received: Received) {
    forall g :: g in received ==> LongEnough(received[g])
  }

  // ---- assembling ----

  /** The payloads of `count` consecutive sequences from `sequence` on, if all are there. */
  function Gathered(group: map<U16, Bytes>, sequence: U16, count: nat): Option<Bytes>
    requires LongEnough(group)
    decreases count
  {
    if count == 0 then Some([])
    else if sequence !in group then None
    else
      match Gathered(group, Next(sequence), count - 1)
      case None => None
      case Some(rest) => Some(Payload(group[sequence]) + rest)
  }

  /** The result of `assemble`: the message if the group is complete, and the groups left. */
  function Assembled(received: Received, h: Header): (Received, Option<Bytes>)
    requires AllLongEnough(received)
  {
    if h.fragmentGroup !in received || |received[h.fragmentGroup]| != h.fragmentCount then (received, None)
    else (received - {h.fragmentGroup}, Gathered(received[h.fragmentGroup], h.fragmentStart, h.fragmentCount))
  }

  // ---- any order, any duplicates ----

  predicate InRange(order: seq<int>, count: nat) {
    forall i :: 0 <= i < |order| ==> 0 <= order[i] < count
  }

  /** The groups after the fragments with the indices `order` arrive, in that order. */
  function CollectAll(received: Received, fragments: seq<Bytes>, order: seq<int>): Received
    requires forall i :: 0 <= i < |fragments| ==> |fragments[i]| >= FRAGMENTED_HEADER_SIZE
    requires InRange(order, |fragments|)
  {
    if order == [] then received
    else Collected(CollectAll(received, fragments, order[..|order| - 1]), fragments[order[|order| - 1]])
  }

  /** Whatever arrives, the first fragment under a group and a sequence stays the one that is held. */
  lemma {:induction false} HeldStays(received: Received, fragments: seq<Bytes>, order: seq<int>, group: U16,
                                     sequence: U16)
    requires forall i :: 0 <= i < |fragments| ==> |fragments[i]| >= FRAGMENTED_HEADER_SIZE
    requires InRange(order, |fragments|) && group in received && sequence in received[group]
    ensures var after := CollectAll(received, fragments, order);
            group in after && sequence in after[group] && after[group][sequence] == received[group][sequence]
    decreases order
  {
    if order != [] { HeldStays(received, fragments, order[..|order| - 1], group, sequence); }
  }

  /** `group` holds exactly the fragments with indices in `got`, under their own keys. */
  ghost predicate HoldsExactly(group: map<U16, Bytes>, keys: seq<U16>, fragments: seq<Bytes>, got: set<int>)
    requires |keys| == |fragments|
  {
    && (forall k :: k in got ==> 0 <= k < |keys| && keys[k] in group && group[keys[k]] == fragments[k])
    && (forall s :: s in group ==> exists k :: k in got && 0 <= k < |keys| && keys[k] == s)
    && |group| == |got|
  }

  lemma CollectOne(group: map<U16, Bytes>, keys: seq<U16>, fragments: seq<Bytes>, got: set<int>, k: int)
    requires |keys| == |fragments| && NoDuplicates(keys) && 0 <= k < |keys|
    requires HoldsExactly(group, keys, fragments, got)
    ensures HoldsExactly(if keys[k] in group then group else group[keys[k] := fragments[k]], keys, fragments, got + {k})
  {
    if keys[k] in group {
      var j :| j in got && 0 <= j < |keys| && keys[j] == keys[k];
      assert j == k && got + {k} == got;
    } else {
      var group' := group[keys[k] := fragments[k]];
      NewKey(group, keys[k], fragments[k]);
      assert k !in got && |got + {k}| == |got| + 1;
      forall j | j in got + {k} ensures keys[j] in group' && group'[keys[j]] == fragments[j] {
        if j != k { assert j in got && keys[j] in group; }
      }
      forall s | s in group' ensures exists j :: j in got + {k} && 0 <= j < |keys| && keys[j] == s {
        if s != keys[k] {
          var j :| j in got && 0 <= j < |keys| && keys[j] == s;
          assert j in got + {k};
        } else {
          assert k in got + {k};
        }
      }
    }
  }

  lemma NewKey(group: map<U16, Bytes>, key: U16, fragment: Bytes)
    requires key !in group
    ensures |group[key := fragment]| == |group| + 1
  {
    assert group[key := fragment].Keys == group.Keys + {key};
  }

  function Indices(order: seq<int>): set<int> {
    set k | k in order
  }

  lemma FragmentAt(channel: Byte, group: U16, keys: seq<U16>, chunks: seq<Bytes>, k: nat)
    requires k < |chunks| == |keys| <= 65535
    ensures var f := Fragments(channel, group, keys, chunks)[k];
            && |f| >= FRAGMENTED_HEADER_SIZE && Payload(f) == chunks[k]
            && FragmentedAt(f) == Fragmented(keys[k], channel, group, keys[0], |chunks|)
  {
    assert |chunks| % 0x1_0000 == |chunks|;
    assert Fragments(channel, group, keys, chunks)[k] ==
           FragmentBytes(channel, group, keys[0], |chunks|, keys[k], chunks[k]);
    FragmentFields(channel, group, keys[0], |chunks|, keys[k], chunks[k]);
  }

  lemma FragmentsAreLong(channel: Byte, group: U16, keys: seq<U16>, chunks: seq<Bytes>)
    requires |chunks| == |keys| <= 65535
    ensures forall k :: 0 <= k < |chunks| ==> |Fragments(channel, group, keys, chunks)[k]| >= FRAGMENTED_HEADER_SIZE
  {
    forall k | 0 <= k < |chunks| ensures |Fragments(channel, group, keys, chunks)[k]| >= FRAGMENTED_HEADER_SIZE {
      FragmentAt(channel, group, keys, chunks, k);
    }
  }

  /** All fragments carry the group, the start, the count and their own key. */
  ghost predicate Labelled(fragments: seq<Bytes>, keys: seq<U16>, group: U16) {
    |fragments| == |keys| &&
    forall k :: 0 <= k < |fragments| ==>
      && |fragments[k]| >= FRAGMENTED_HEADER_SIZE
      && FragmentedAt(fragments[k]).fragmentGroup == group && FragmentedAt(fragments[k]).sequence == keys[k]
  }

  /** After any deliveries the group holds exactly the fragments delivered; other groups are untouched. */
  lemma {:induction false} CollectedExactly(received: Received, group: U16, keys: seq<U16>, fragments: seq<Bytes>,
                                            order: seq<int>)
    requires Labelled(fragments, keys, group) && NoDuplicates(keys) && group !in received
    requires InRange(order, |fragments|)
    ensures var r := CollectAll(received, fragments, order);
            if order == [] then r == received
            else group in r && r - {group} == received && HoldsExactly(r[group], keys, fragments, Indices(order))
  {
    if order != [] {
      var before, k := order[..|order| - 1], order[|order| - 1];
      CollectedExactly(received, group, keys, fragments, before);
      assert order == before + [k];
      IndicesGrow(before, k);
      CollectStep(received, CollectAll(received, fragments, before), group, keys, fragments, Indices(before), k);
    }
  }

  lemma CollectStep(received: Received, r: Received, group: U16, keys: seq<U16>, fragments: seq<Bytes>, got: set<int>,
                    k: int)
    requires Labelled(fragments, keys, group) && NoDuplicates(keys) && group !in received && 0 <= k < |keys|
    requires if group in r then r - {group} == received && HoldsExactly(r[group], keys, fragments, got)
             else r == received && got == {}
    ensures var r' := Collected(r, fragments[k]);
            group in r' && r' - {group} == received && HoldsExactly(r'[group], keys, fragments, got + {k})
  {
    var held: map<U16, Bytes> := if group in r then r[group] else map[];
    assert HoldsExactly(held, keys, fragments, got);
    CollectOne(held, keys, fragments, got, k);
    assert r - {group} == received;
    Regrouped(received, r, group, if keys[k] in held then held else held[keys[k] := fragments[k]]);
  }

  lemma IndicesGrow(before: seq<int>, k: int)
    ensures Indices(before + [k]) == Indices(before) + {k}
    ensures before == [] ==> Indices(before) == {}
  {
  }

  lemma Regrouped(received: Received, r: Received, group: U16, held: map<U16, Bytes>)
    requires group !in received && r - {group} == received
    ensures r[group := held] - {group} == received
  {
    assert forall g :: g in received <==> g in r && g != group;
    forall g | g in received ensures r[g] == received[g] {
      assert g in r - {group};
    }
  }

  /** A complete group gathers to the joined payloads, also when the sequences wrap. */
  lemma {:induction false} GatherAll(group: map<U16, Bytes>, keys: seq<U16>, chunks: seq<Bytes>, from: nat)
    requires LongEnough(group) && |keys| == |chunks| && from < |chunks|
    requires forall k :: 0 <= k < |keys| - 1 ==> Next(keys[k]) == keys[k + 1]
    requires forall k :: 0 <= k < |keys| ==> keys[k] in group && Payload(group[keys[k]]) == chunks[k]
    ensures Gathered(group, keys[from], |chunks| - from) == Some(Joined(chunks[from..]))
    decreases |chunks| - from
  {
    assert chunks[from..][1..] == chunks[from + 1..];
    if from + 1 < |chunks| {
      GatherAll(group, keys, chunks, from + 1);
    } else {
      assert Joined(chunks[from + 1..]) == [];
      assert Gathered(group, Next(keys[from]), 0) == Some([]);
    }
  }

  lemma {:induction false} FullSet(got: set<int>, n: nat)
    requires forall k :: k in got ==> 0 <= k < n
    ensures |got| <= n
    ensures |got| == n <==> forall k :: 0 <= k < n ==> k in got
  {
    if n == 0 {
      assert forall k :: k !in got;
      assert got == {};
    } else {
      var rest := got - {n - 1};
      FullSet(rest, n - 1);
      assert n - 1 in got ==> got == rest + {n - 1};
      assert n - 1 !in got ==> got == rest;
      forall k | 0 <= k < n - 1 ensures k in rest <==> k in got {}
    }
  }

  lemma {:induction false} CollectKeepsWhole(received: Received, fragments: seq<Bytes>, order: seq<int>)
    requires AllLongEnough(received)
    requires forall i :: 0 <= i < |fragments| ==> |fragments[i]| >= FRAGMENTED_HEADER_SIZE
    requires InRange(order, |fragments|)
    ensures AllLongEnough(CollectAll(received, fragments, order))
  {
    if order != [] {
      CollectKeepsWhole(received, fragments, order[..|order| - 1]);
    }
  }

  predicate AllDelivered(count: nat, order: seq<int>) {
    forall k :: 0 <= k < count ==> k in order
  }

  /** Fragmentation round trip: deliver the fragments of a message in any order with any duplicates,
      under a group id not in use.  Until all have arrived `assemble` fails and changes nothing; once
      all have, it returns exactly the message and leaves exactly the other groups. */
  lemma RoundTrip(received: Received, channel: Byte, group: U16, first: int, data: Bytes, order: seq<int>, h: Header)
    requires AllLongEnough(received) && group !in received
    requires 1 <= |Chunks(data)| <= 65535
    requires InRange(order, |Chunks(data)|)
    requires h.fragmentGroup == group && h.fragmentStart == Wire(first) && h.fragmentCount == |Chunks(data)|
    ensures var chunks := Chunks(data);
            var fragments := Fragments(channel, group, Keys(first, |chunks|), chunks);
            && (forall k :: 0 <= k < |chunks| ==> |fragments[k]| >= FRAGMENTED_HEADER_SIZE)
            && var r := CollectAll(received, fragments, order);
               && AllLongEnough(r)
               && Assembled(r, h) == if AllDelivered(|chunks|, order) then (received, Some(data)) else (r, None)
  {
    var chunks := Chunks(data);
    KeysDiffer(first, |chunks|);
    ChunksJoin(data);
    DeliverChunks(received, channel, group, Keys(first, |chunks|), chunks, order, h);
  }

  /** The round trip for given chunks, sent under consecutive distinct keys. */
  lemma DeliverChunks(received: Received, channel: Byte, group: U16, keys: seq<U16>, chunks: seq<Bytes>,
                      order: seq<int>, h: Header)
    requires AllLongEnough(received) && group !in received && NoDuplicates(keys)
    requires 1 <= |chunks| == |keys| <= 65535 && InRange(order, |chunks|)
    requires forall k :: 0 <= k < |keys| - 1 ==> Next(keys[k]) == keys[k + 1]
    requires h.fragmentGroup == group && h.fragmentStart == keys[0] && h.fragmentCount == |chunks|
    ensures var fragments := Fragments(channel, group, keys, chunks);
            && (forall k :: 0 <= k < |chunks| ==> |fragments[k]| >= FRAGMENTED_HEADER_SIZE)
            && var r := CollectAll(received, fragments, order);
               && AllLongEnough(r)
               && Assembled(r, h) ==
                  if AllDelivered(|chunks|, order) then (received, Some(Joined(chunks))) else (r, None)
  {
    var fragments := Fragments(channel, group, keys, chunks);
    FragmentsAreLong(channel, group, keys, chunks);
    forall k | 0 <= k < |chunks| ensures FragmentedAt(fragments[k]).fragmentGroup == group
        && FragmentedAt(fragments[k]).sequence == keys[k] && Payload(fragments[k]) == chunks[k] {
      FragmentAt(channel, group, keys, chunks, k);
    }
    CollectedExactly(received, group, keys, fragments, order);
    CollectKeepsWhole(received, fragments, order);
    AssembledWhenAll(received, CollectAll(received, fragments, order), keys, chunks, fragments, order, h);
  }

  lemma CountDelivered(count: nat, order: seq<int>)
    requires InRange(order, count)
    ensures |Indices(order)| == count <==> AllDelivered(count, order)
  {
    forall k | k in Indices(order) ensures 0 <= k < count {
      assert k in order;
    }
    FullSet(Indices(order), count);
    forall k ensures k in Indices(order) <==> k in order {}
  }

  lemma {:induction false} CompleteGroup(group: map<U16, Bytes>, keys: seq<U16>, chunks: seq<Bytes>,
                                         fragments: seq<Bytes>, order: seq<int>)
    requires LongEnough(group) && 1 <= |chunks| == |keys| == |fragments|
    requires forall k :: 0 <= k < |keys| - 1 ==> Next(keys[k]) == keys[k + 1]
    requires forall k :: 0 <= k < |keys| ==>
             |fragments[k]| >= FRAGMENTED_HEADER_SIZE && Payload(fragments[k]) == chunks[k]
    requires HoldsExactly(group, keys, fragments, Indices(order)) && AllDelivered(|chunks|, order)
    ensures Gathered(group, keys[0], |chunks|) == Some(Joined(chunks))
  {
    forall k | 0 <= k < |keys| ensures k in Indices(order) {
      assert k in order;
    }
    GatherAll(group, keys, chunks, 0);
    assert chunks[0..] == chunks;
  }

  lemma AssembledWhenAll(received: Received, r: Received, keys: seq<U16>, chunks: seq<Bytes>, fragments: seq<Bytes>,
                         order: seq<int>, h: Header)
    requires AllLongEnough(r) && 1 <= |chunks| == |keys| == |fragments| && h.fragmentGroup !in received
    requires h.fragmentStart == keys[0] && h.fragmentCount == |chunks|
    requires forall k :: 0 <= k < |keys| - 1 ==> Next(keys[k]) == keys[k + 1]
    requires forall k :: 0 <= k < |keys| ==>
             |fragments[k]| >= FRAGMENTED_HEADER_SIZE && Payload(fragments[k]) == chunks[k]
    requires InRange(order, |chunks|)
    requires if order == [] then r == received
             else h.fragmentGroup in r && r - {h.fragmentGroup} == received
                  && HoldsExactly(r[h.fragmentGroup], keys, fragments, Indices(order))
    ensures Assembled(r, h) == if AllDelivered(|chunks|, order) then (received, Some(Joined(chunks))) else (r, None)
  {
    if order == [] {
      assert 0 !in order;
    } else {
      CountDelivered(|chunks|, order);
      if AllDelivered(|chunks|, order) {
        CompleteGroup(r[h.fragmentGroup], keys, chunks, fragments, order);
      }
    }
  }

  /** Up to 1023 fragments, all can be fetched from the send ring once the last one is written. */
  lemma {:induction false} FragmentsAreRetained(contents: seq<Bytes>, fragments: seq<Bytes>, k: nat)
    requires k < |fragments| <= 1023
    ensures var n := |contents| + 1 + k;
            var entry := Lookup(Issued(contents + fragments), Wire(n));
            entry.Some? && EntryHolds(entry.value, Wire(n), fragments[k])
  {
    var all, n := contents + fragments, |contents| + 1 + k;
    assert all[n - 1] == fragments[k];
    Retention(all, n);
  }
}
