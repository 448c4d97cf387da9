/** What an application takes from a channel that carries plain and fragmented messages. */
module DeliveryProofs {
  import opened Lists
  import opened Sequence
  import opened SequenceBuffers
  import opened IntBuffers
  import opened Headers
  import opened ChannelSpec
  import opened FragmentSpec
  import opened Inboxes
  import opened Delivery
  import opened DeskProofs
  import Views = ReassemblyProofs
  import Runs = ReceiverRuns
  import S = ReceiverSpec

  // ---- the groups ----

  /** The packet number of fragment `k` of item `j`. */
  function Number(items: seq<Item>, j: nat, k: int): int
    requires j < |items|
  {
    First(items, j) + k
  }

  /** The fragments of item `j` among the packets `recent`, by index. */
  function Got(items: seq<Item>, j: nat, recent: set<int>): set<int>
    requires j < |items|
  {
    set k | 0 <= k < Size(items[j]) && Number(items, j, k) in recent
  }

  /** The group of item `j` holds exactly the fragments `got`; without any, there is no such group. */
  ghost predicate GroupHolds(groups: Received, channel: Byte, items: seq<Item>, j: nat, got: set<int>)
    requires j < |items| && items[j].Split?
  {
    if got == {} then items[j].group !in groups
    else items[j].group in groups &&
         HoldsExactly(groups[items[j].group], Keys(First(items, j), Size(items[j])), ItemFragments(channel, items, j),
                      got)
  }

  ghost predicate GroupsHold(groups: Received, channel: Byte, items: seq<Item>, recent: set<int>) {
    forall j :: 0 <= j < |items| && items[j].Split? ==> GroupHolds(groups, channel, items, j, Got(items, j, recent))
  }

  /** `f` is a fragment with the number of packet `n`, and its header can be read without the rest. */
  predicate IsFragment(f: Bytes, n: int) {
    && |f| >= FRAGMENTED_HEADER_SIZE && f[0] == FRAGMENT && PlainAt(f).sequence == Wire(n)
    && FragmentedAt(f[..FRAGMENTED_HEADER_SIZE]) == FragmentedAt(f)
  }

  /** What a fragment of item `j` says. */
  lemma {:induction false} FragmentOfItem(channel: Byte, items: seq<Item>, j: nat, k: nat)
    requires Proper(items) && j < |items| && items[j].Split? && k < Size(items[j])
    ensures var f, n := ItemFragments(channel, items, j)[k], First(items, j) + k;
            && IsFragment(f, n) && Payload(f) == Chunks(items[j].body)[k]
            && FragmentedAt(f) == Fragmented(Wire(n), channel, items[j].group, Wire(First(items, j)), Size(items[j]))
  {
    FragmentIs(channel, items[j].group, First(items, j), Chunks(items[j].body), k);
  }

  lemma FragmentIs(channel: Byte, group: U16, first: int, chunks: seq<Bytes>, k: nat)
    requires k < |chunks| <= 65535
    ensures var f, n := Fragments(channel, group, Keys(first, |chunks|), chunks)[k], first + k;
            && IsFragment(f, n) && Payload(f) == chunks[k]
            && FragmentedAt(f) == Fragmented(Wire(n), channel, group, Wire(first), |chunks|)
  {
    var keys := Keys(first, |chunks|);
    FragmentAt(channel, group, keys, chunks, k);
    HeaderAlone(Fragments(channel, group, keys, chunks)[k]);
    KeyAt(first, |chunks|, k);
  }

  /** A fragment's header can be read without the rest, and its fields also as those of a plain header. */
  lemma HeaderAlone(f: Bytes)
    requires |f| >= FRAGMENTED_HEADER_SIZE
    ensures FragmentedAt(f[..FRAGMENTED_HEADER_SIZE]) == FragmentedAt(f)
    ensures f[0] == FragmentedAt(f).messageType && PlainAt(f).sequence == FragmentedAt(f).sequence
  {
    var head := f[..FRAGMENTED_HEADER_SIZE];
    assert forall i :: 0 <= i < FRAGMENTED_HEADER_SIZE ==> head[i] == f[i];
  }

  lemma {:induction false} GotGrows(items: seq<Item>, i: nat, j: nat, recent: set<int>, n: int)
    requires i < |items| && j < |items| && Of(items, i, n)
    ensures Got(items, j, recent + {n}) == if i ==
            j then Got(items, j, recent) + {n - First(items, i)} else Got(items, j, recent)
  {
    forall k ensures k in Got(items, j, recent + {n}) <==>
      k in Got(items, j, recent) || (i == j && k == n - First(items, i)) {
      if 0 <= k < Size(items[j]) && Number(items, j, k) == n { OneOwner(items, i, j, n); }
    }
  }

  lemma {:induction false} GotDropped(items: seq<Item>, i: nat, j: nat, recent: set<int>)
    requires i < |items| && j < |items|
    ensures Got(items, j, recent - PacketsOf(items, i)) == if i == j then {} else Got(items, j, recent)
  {
    forall k ensures k in Got(items, j, recent - PacketsOf(items, i)) <==> i != j && k in Got(items, j, recent) {
      var n := Number(items, j, k);
      if 0 <= k < Size(items[j]) {
        assert Of(items, j, n);
        if n in PacketsOf(items, i) { OneOwner(items, i, j, n); }
      }
    }
  }

  /** A fragment of item `i` is collected in its group and touches no other. */
  lemma {:induction false} CollectedHolds(groups: Groups, channel: Byte, items: seq<Item>, recent: set<int>, i: nat,
                                          n: int)
    requires Proper(items) && GroupsHold(groups, channel, items, recent) && Of(items, i, n) && items[i].Split?
    ensures var f := ItemFragments(channel, items, i)[n - First(items, i)];
            |f| >= FRAGMENTED_HEADER_SIZE && GroupsHold(Collected(groups, f), channel, items, recent + {n})
  {
    var k := n - First(items, i);
    FragmentOfItem(channel, items, i, k);
    var f := ItemFragments(channel, items, i)[k];
    forall j | 0 <= j < |items| && items[j].Split?
      ensures GroupHolds(Collected(groups, f), channel, items, j, Got(items, j, recent + {n})) {
      GotGrows(items, i, j, recent, n);
      if i == j {
        OwnGroup(groups, channel, items, i, Got(items, i, recent), k);
      } else {
        OtherGroup(groups, f, channel, items, j, Got(items, j, recent));
      }
    }
  }

  lemma {:induction false} OtherGroup(groups: Groups, f: Bytes, channel: Byte, items: seq<Item>, j: nat, got: set<int>)
    requires |f| >= FRAGMENTED_HEADER_SIZE && j < |items| && items[j].Split? &&
             FragmentedAt(f).fragmentGroup != items[j].group
    requires GroupHolds(groups, channel, items, j, got)
    ensures GroupHolds(Collected(groups, f), channel, items, j, got)
  {
  }

  lemma {:induction false} OwnGroup(groups: Groups, channel: Byte, items: seq<Item>, i: nat, got: set<int>, k: nat)
    requires Proper(items) && i < |items| && items[i].Split? && k < Size(items[i])
    requires GroupHolds(groups, channel, items, i, got)
    ensures var f := ItemFragments(channel, items, i)[k];
            |f| >= FRAGMENTED_HEADER_SIZE && GroupHolds(Collected(groups, f), channel, items, i, got + {k})
  {
    FragmentOfItem(channel, items, i, k);
    KeysDiffer(First(items, i), Size(items[i]));
    CollectInto(groups, items[i].group, Keys(First(items, i), Size(items[i])), ItemFragments(channel, items, i), got,
                k);
    assert k in got + {k};
  }

  lemma CollectInto(groups: Groups, group: U16, keys: seq<U16>, fragments: seq<Bytes>, got: set<int>, k: nat)
    requires k < |keys| == |fragments| && NoDuplicates(keys) && |fragments[k]| >= FRAGMENTED_HEADER_SIZE
    requires FragmentedAt(fragments[k]).fragmentGroup == group && FragmentedAt(fragments[k]).sequence == keys[k]
    requires if got == {} then group !in groups
             else group in groups && HoldsExactly(groups[group], keys, fragments, got)
    ensures var groups' := Collected(groups, fragments[k]);
            group in groups' && HoldsExactly(groups'[group], keys, fragments, got + {k})
  {
    var held: map<U16, Bytes> := if got == {} then map[] else groups[group];
    CollectOne(held, keys, fragments, got, k);
  }

  /** Taking a header of item `i` assembles it exactly when all its fragments are there. */
  lemma {:induction false} AssembledHolds(groups: Groups, channel: Byte, items: seq<Item>, recent: set<int>, i: nat,
                                          k: nat)
    requires Proper(items) && GroupsHold(groups, channel, items, recent)
    requires i < |items| && items[i].Split? && k < Size(items[i])
    ensures var f := ItemFragments(channel, items, i)[k];
            |f| >= FRAGMENTED_HEADER_SIZE &&
            Assembled(groups, FragmentedAt(f)) ==
              if PacketsOf(items, i) <= recent then (groups - {items[i].group}, Some(items[i].body)) else (groups, None)
  {
    FragmentOfItem(channel, items, i, k);
    AssembledGot(groups, channel, items, recent, i, FragmentedAt(ItemFragments(channel, items, i)[k]));
  }

  /** `h` is a header of item `i`. */
  predicate HeaderOf(h: Header, items: seq<Item>, i: nat)
    requires i < |items| && items[i].Split?
  {
    && h.fragmentGroup == items[i].group && h.fragmentStart == Wire(First(items, i))
    && h.fragmentCount == Size(items[i])
  }

  lemma {:induction false} AssembledGot(groups: Groups, channel: Byte, items: seq<Item>, recent: set<int>, i: nat,
                                        h: Header)
    requires Proper(items) && GroupsHold(groups, channel, items, recent)
    requires i < |items| && items[i].Split? && HeaderOf(h, items, i)
    ensures Assembled(groups, h) ==
              if PacketsOf(items, i) <= recent then (groups - {items[i].group}, Some(items[i].body)) else (groups, None)
  {
    AllGot(items, i, recent);
    AssembledFrom(groups, channel, items, i, Got(items, i, recent), h, PacketsOf(items, i) <= recent);
  }

  lemma {:induction false} AssembledFrom(groups: Groups, channel: Byte, items: seq<Item>, i: nat, got: set<int>,
                                         h: Header, all: bool)
    requires Proper(items) && i < |items| && items[i].Split? && GroupHolds(groups, channel, items, i, got)
    requires HeaderOf(h, items, i)
    requires forall k :: k in got ==> 0 <= k < Size(items[i])
    requires all <==> forall k :: 0 <= k < Size(items[i]) ==> k in got
    ensures Assembled(groups, h) == if all then (groups - {items[i].group}, Some(items[i].body)) else (groups, None)
  {
    SizePositive(items[i]);
    FullSet(got, Size(items[i]));
    if all {
      assert 0 in got;
      WholeItem(groups, channel, items, i, got);
    }
  }

  lemma {:induction false} AllGot(items: seq<Item>, i: nat, recent: set<int>)
    requires i < |items|
    ensures PacketsOf(items, i) <= recent <==> forall k :: 0 <= k < Size(items[i]) ==> k in Got(items, i, recent)
  {
    forall k | 0 <= k < Size(items[i]) ensures Number(items, i, k) in PacketsOf(items, i) {
      assert Of(items, i, Number(items, i, k));
    }
    if forall k :: 0 <= k < Size(items[i]) ==> k in Got(items, i, recent) {
      forall n | n in PacketsOf(items, i) ensures n in recent {
        assert n == Number(items, i, n - First(items, i)) && n - First(items, i) in Got(items, i, recent);
      }
    }
  }

  lemma {:induction false} WholeItem(groups: Groups, channel: Byte, items: seq<Item>, i: nat, got: set<int>)
    requires Proper(items) && i < |items| && items[i].Split? && items[i].group in groups
    requires var keys := Keys(First(items, i), Size(items[i]));
             HoldsExactly(groups[items[i].group], keys, ItemFragments(channel, items, i), got)
    requires forall k :: 0 <= k < Size(items[i]) ==> k in got
    ensures Gathered(groups[items[i].group], Wire(First(items, i)), Size(items[i])) == Some(items[i].body)
  {
    var group, keys, chunks := groups[items[i].group], Keys(First(items, i), Size(items[i])), Chunks(items[i].body);
    SizePositive(items[i]);
    forall k | 0 <= k < |keys| ensures keys[k] in group && Payload(group[keys[k]]) == chunks[k] {
      assert k in got;
      FragmentOfItem(channel, items, i, k);
    }
    GatherItem(group, First(items, i), chunks);
    ChunksJoin(items[i].body);
  }

  lemma {:induction false} GatherItem(group: map<U16, Bytes>, first: int, chunks: seq<Bytes>)
    requires LongEnough(group) && 1 <= |chunks| <= 65535
    requires forall k :: 0 <= k < |chunks| ==>
               Keys(first, |chunks|)[k] in group && Payload(group[Keys(first, |chunks|)[k]]) == chunks[k]
    ensures Gathered(group, Wire(first), |chunks|) == Some(Joined(chunks))
  {
    KeysDiffer(first, |chunks|);
    GatherAll(group, Keys(first, |chunks|), chunks, 0);
    assert chunks[0..] == chunks && Keys(first, |chunks|)[0] == Wire(first);
  }

  lemma {:induction false} DroppedHolds(groups: Groups, channel: Byte, items: seq<Item>, recent: set<int>, i: nat)
    requires Proper(items) && GroupsHold(groups, channel, items, recent) && i < |items| && items[i].Split?
    ensures GroupsHold(groups - {items[i].group}, channel, items, recent - PacketsOf(items, i))
  {
    forall j | 0 <= j < |items| && items[j].Split?
      ensures GroupHolds(groups - {items[i].group}, channel, items, j, Got(items, j, recent - PacketsOf(items, i))) {
      GotDropped(items, i, j, recent);
      assert GroupHolds(groups, channel, items, j, Got(items, j, recent));
    }
  }

  /** A plain packet changes nothing for the groups. */
  lemma {:induction false} PlainHolds(groups: Groups, channel: Byte, items: seq<Item>, recent: set<int>, i: nat, n: int)
    requires GroupsHold(groups, channel, items, recent) && Of(items, i, n) && items[i].Plain?
    ensures GroupsHold(groups, channel, items, recent + {n})
    ensures GroupsHold(groups, channel, items, recent - PacketsOf(items, i))
  {
    forall j | 0 <= j < |items| && items[j].Split?
      ensures Got(items, j, recent + {n}) == Got(items, j, recent) == Got(items, j, recent - PacketsOf(items, i)) {
      GotGrows(items, i, j, recent, n);
      GotDropped(items, i, j, recent);
    }
  }

  // ---- the receiver ----

  function Short(packet: Bytes): Bytes {
    if |packet| >= FRAGMENTED_HEADER_SIZE && packet[0] == FRAGMENT then packet[..FRAGMENTED_HEADER_SIZE] else packet
  }

  /** What of each packet goes through the receiver. */
  function Pay(channel: Byte, items: seq<Item>): int -> Bytes {
    n => Short(Packet(channel, items, n))
  }

  lemma {:induction false} PlainPacket(channel: Byte, items: seq<Item>, i: nat, n: int)
    requires Of(items, i, n) && items[i].Plain?
    ensures var m := Packet(channel, items, n);
            && m == Message(channel, Wire(n), items[i].body) && |m| >= HEADER_SIZE && PlainAt(m).sequence == Wire(n)
            && m[0] == RELIABLE && Pay(channel, items)(n) == m && Body(m) == Some(items[i].body)
  {
    OwnerIs(items, i, n);
    MessageFields(channel, Wire(n), items[i].body);
    assert PlainAt(Packet(channel, items, n)).messageType == RELIABLE;
  }

  lemma {:induction false} SplitPacket(channel: Byte, items: seq<Item>, i: nat, n: int)
    requires Proper(items) && Of(items, i, n) && items[i].Split?
    ensures var f := ItemFragments(channel, items, i)[n - First(items, i)];
            && Packet(channel, items, n) == f && IsFragment(f, n) &&
               Pay(channel, items)(n) == f[..FRAGMENTED_HEADER_SIZE]
  {
    FragmentPacket(channel, items, i, n);
    FragmentNumber(channel, items, i, n - First(items, i), n);
    ShortOfFragment(ItemFragments(channel, items, i)[n - First(items, i)], n);
  }

  lemma {:induction false} FragmentNumber(channel: Byte, items: seq<Item>, i: nat, k: nat, n: int)
    requires Proper(items) && i < |items| && items[i].Split? && k < Size(items[i]) && n == First(items, i) + k
    ensures IsFragment(ItemFragments(channel, items, i)[k], n)
  {
    FragmentOfItem(channel, items, i, k);
  }

  lemma ShortOfFragment(f: Bytes, n: int)
    requires IsFragment(f, n)
    ensures Short(f) == f[..FRAGMENTED_HEADER_SIZE]
  {
  }

  lemma {:induction false} FragmentPacket(channel: Byte, items: seq<Item>, i: nat, n: int)
    requires Of(items, i, n) && items[i].Split?
    ensures Packet(channel, items, n) == ItemFragments(channel, items, i)[n - First(items, i)]
  {
    OwnerIs(items, i, n);
  }

  /** Any packet that arrives goes through the receiver, a fragment with its header only. */
  lemma {:induction false} AcceptedReceiver(box: Inbox, channel: Byte, items: seq<Item>, n: int)
    requires Proper(items) && 1 <= n <= Total(items)
    ensures Accepted(box, Packet(channel, items, n)).receiver
         == S.ReceivePacket(box.receiver, Wire(n), Pay(channel, items)(n)).0
  {
    OwnerOf(items, n);
    var i := Owner(items, n);
    if items[i].Plain? {
      PlainPacket(channel, items, i, n);
    } else {
      SplitPacket(channel, items, i, n);
    }
  }

  lemma EventsStep(steps: seq<Step>)
    requires steps != []
    ensures var before, events := Events(steps[..|steps| - 1]), Events(steps);
            match steps[|steps| - 1]
            case Take => events == before
            case Arrive(n) => events != [] && Runs.Init(events) == before && Runs.Last(events) == Runs.Arrive(n)
            case Update => events != [] && Runs.Init(events) == before && Runs.Last(events) == Runs.Update
  {
  }

  /** Up to what was taken from the queue, the receiver in the channel is the receiver on its own. */
  lemma {:induction false} ReceiverIs(channel: Byte, ordered: bool, window: WindowSize, items: seq<Item>,
                                      steps: seq<Step>)
    requires Proper(items) && Existing(items, steps)
    ensures var p := Run(channel, ordered, window, items, steps);
            Runs.Prefixed(p.box.receiver, p.popped) == Runs.Run(ordered, window, Events(steps), Pay(channel, items))
    decreases steps
  {
    if steps != [] {
      var before, step := steps[..|steps| - 1], steps[|steps| - 1];
      ReceiverIs(channel, ordered, window, items, before);
      EventsStep(steps);
      var p := Run(channel, ordered, window, items, before);
      match step {
        case Arrive(n) =>
          AcceptedReceiver(p.box, channel, items, n);
          Runs.StepAppends(p.box.receiver, p.popped, Runs.Arrive(n), Pay(channel, items));
        case Update =>
          Runs.StepAppends(p.box.receiver, p.popped, Runs.Update, Pay(channel, items));
        case Take =>
          TakeKeepsQueue(channel, items, p);
      }
    }
  }

  lemma TakeKeepsQueue(channel: Byte, items: seq<Item>, p: Port)
    ensures var p' := Apply(channel, items, p, Take);
            Runs.Prefixed(p'.box.receiver, p'.popped) == Runs.Prefixed(p.box.receiver, p.popped)
  {
    var s := p.box.receiver;
    if s.published != [] {
      assert (p.popped + [s.published[0]]) + s.published[1..] == p.popped + s.published;
    }
  }

  // ---- the moves of a run ----

  lemma {:induction false} InsAreArrivals(ordered: bool, window: nat, steps: seq<Step>, n: int)
    ensures n in Ins(Moves(ordered, window, steps)) <==> Runs.Arrive(n) in Events(steps)
    decreases steps
  {
    if steps != [] {
      InsAreArrivals(ordered, window, steps[..|steps| - 1], n);
    }
  }

  lemma NextFollows(outs: seq<int>, published: seq<int>)
    requires outs <= published && |outs| < |published|
    ensures outs + [published[|outs|]] <= published
  {
  }

  /** Takes follow the order of publication. */
  lemma {:induction false} OutsFollow(ordered: bool, window: nat, steps: seq<Step>)
    ensures Outs(Moves(ordered, window, steps)) <= Runs.ViewRun(ordered, window, Events(steps)).delivered
    decreases steps
  {
    if steps != [] {
      var before, step := steps[..|steps| - 1], steps[|steps| - 1];
      var moves, published := Moves(ordered, window, before), Runs.ViewRun(ordered, window, Events(before)).delivered;
      OutsFollow(ordered, window, before);
      EventsStep(steps);
      match step {
        case Take =>
          if |Outs(moves)| < |published| {
            MovesMore(moves, Out(published[|Outs(moves)|]));
            NextFollows(Outs(moves), published);
          }
        case Arrive(n) =>
          MovesMore(moves, In(n));
          Runs.DeliveredGrows(ordered, window, Events(steps));
        case Update =>
          Runs.DeliveredGrows(ordered, window, Events(steps));
      }
    }
  }

  /** A run's moves are causal. */
  lemma {:induction false} MovesAreCausal(ordered: bool, window: nat, items: seq<Item>, steps: seq<Step>)
    requires Existing(items, steps)
    ensures Causal(items, Moves(ordered, window, steps))
    decreases steps
  {
    if steps != [] {
      var before, step := steps[..|steps| - 1], steps[|steps| - 1];
      MovesAreCausal(ordered, window, items, before);
      OutsFollow(ordered, window, before);
      NextIsCausal(ordered, window, before);
      CausalMore(items, Moves(ordered, window, before), Moves(ordered, window, steps));
    }
  }

  lemma {:induction false} CausalMore(items: seq<Item>, before: seq<Move>, moves: seq<Move>)
    requires Causal(items, before)
    requires moves == before || (|moves| == |before| + 1 && moves[..|before|] == before)
    requires moves != before ==>
               match moves[|before|]
               case In(n) => 1 <= n <= Total(items)
               case Out(n) => n in Ins(before) && n !in Outs(before)
    ensures Causal(items, moves)
  {
  }

  lemma MovesMore(moves: seq<Move>, move: Move)
    ensures (moves + [move])[..|moves|] == moves
    ensures Outs(moves + [move]) == Outs(moves) + if move.Out? then [move.n] else []
  {
    assert (moves + [move])[..|moves|] == moves;
  }

  /** The next packet to take has arrived and was not taken before. */
  lemma {:induction false} NextIsCausal(ordered: bool, window: nat, steps: seq<Step>)
    requires Outs(Moves(ordered, window, steps)) <= Runs.ViewRun(ordered, window, Events(steps)).delivered
    ensures var moves := Moves(ordered, window, steps);
            var published := Runs.ViewRun(ordered, window, Events(steps)).delivered;
            |Outs(moves)| < |published| ==>
              published[|Outs(moves)|] in Ins(moves) && published[|Outs(moves)|] !in Outs(moves)
  {
    var moves, v := Moves(ordered, window, steps), Runs.ViewRun(ordered, window, Events(steps));
    var k := |Outs(moves)|;
    if k < |v.delivered| {
      Runs.HeldArrived(ordered, window, Events(steps));
      assert v.delivered[k] in Views.Held(v);
      InsAreArrivals(ordered, window, steps, v.delivered[k]);
      assert NoDuplicates(v.delivered) && forall i :: 0 <= i < k ==> Outs(moves)[i] == v.delivered[i];
    }
  }

  // ---- the channel does what the desk says ----

  predicate Known(items: seq<Item>, log: seq<nat>) {
    forall i :: 0 <= i < |log| ==> log[i] < |items|
  }

  ghost predicate Matches(p: Port, d: Desk, channel: Byte, items: seq<Item>) {
    && GroupsHold(p.box.groups, channel, items, d.recent)
    && Known(items, d.log) && p.taken == Bodies(items, d.log)
  }

  lemma {:induction false} ArriveMatches(p: Port, d: Desk, channel: Byte, items: seq<Item>, n: int)
    requires Matches(p, d, channel, items) && Proper(items) && 1 <= n <= Total(items)
    ensures Matches(Apply(channel, items, p, Arrive(n)), DeskStep(items, d, In(n)), channel, items)
  {
    OwnerOf(items, n);
    var i := Owner(items, n);
    if items[i].Plain? {
      PlainPacket(channel, items, i, n);
      PlainHolds(p.box.groups, channel, items, d.recent, i, n);
    } else {
      SplitPacket(channel, items, i, n);
      CollectedHolds(p.box.groups, channel, items, d.recent, i, n);
    }
  }

  /** What taking packet `n` yields. */
  lemma {:induction false} OpenedIs(groups: Groups, channel: Byte, items: seq<Item>, recent: set<int>, i: nat, n: int)
    requires Proper(items) && GroupsHold(groups, channel, items, recent) && Of(items, i, n)
    ensures var (groups', body) := Opened(groups, Pay(channel, items)(n));
            if items[i].Plain? || PacketsOf(items, i) <= recent
            then body == items[i].body && GroupsHold(groups', channel, items, recent - PacketsOf(items, i))
            else body == [] && groups' == groups
  {
    if items[i].Plain? {
      PlainPacket(channel, items, i, n);
      PlainHolds(groups, channel, items, recent, i, n);
    } else {
      OpenedSplit(groups, channel, items, recent, i, n);
      DroppedHolds(groups, channel, items, recent, i);
    }
  }

  lemma {:induction false} OpenedSplit(groups: Groups, channel: Byte, items: seq<Item>, recent: set<int>, i: nat,
                                       n: int)
    requires Proper(items) && GroupsHold(groups, channel, items, recent) && Of(items, i, n) && items[i].Split?
    ensures Opened(groups, Pay(channel, items)(n)) ==
              if PacketsOf(items, i) <= recent then (groups - {items[i].group}, items[i].body) else (groups, [])
  {
    SplitPacket(channel, items, i, n);
    AssembledHolds(groups, channel, items, recent, i, n - First(items, i));
  }

  lemma BodiesAppend(items: seq<Item>, log: seq<nat>, j: nat)
    requires Known(items, log) && j < |items|
    ensures Known(items, log + [j]) && Bodies(items, log + [j]) == Bodies(items, log) + [items[j].body]
  {
  }

  lemma {:induction false} TakeMatches(p: Port, d: Desk, channel: Byte, items: seq<Item>, n: int)
    requires Matches(p, d, channel, items) && Proper(items) && 1 <= n <= Total(items)
    requires p.box.receiver.published != [] && p.box.receiver.published[0] == Pay(channel, items)(n)
    ensures Matches(Apply(channel, items, p, Take), DeskStep(items, d, Out(n)), channel, items)
  {
    OwnerOf(items, n);
    var i := Owner(items, n);
    TakeIs(channel, items, p);
    OpenedIs(p.box.groups, channel, items, d.recent, i, n);
    if HandsOut(items, d, n) {
      assert DeskStep(items, d, Out(n)) == Desk(d.recent - PacketsOf(items, i), d.log + [i]);
      BodiesAppend(items, d.log, i);
    }
  }

  lemma TakeIs(channel: Byte, items: seq<Item>, p: Port)
    requires p.box.receiver.published != []
    ensures var p', (groups, body) := Apply(channel, items, p, Take), Opened(p.box.groups, p.box.receiver.published[0]);
            && p'.box.groups == groups && p'.taken == if body == [] then p.taken else p.taken + [body]
  {
  }

  /** What is at the front of the queue is the next packet of the view. */
  lemma {:induction false} FrontIs(channel: Byte, ordered: bool, window: WindowSize, items: seq<Item>, steps: seq<Step>)
    requires Proper(items) && Existing(items, steps) && window <= MAX_AGE
    requires Runs.AllRecent(ordered, window, Events(steps))
    ensures var p := Run(channel, ordered, window, items, steps);
            var published := Runs.ViewRun(ordered, window, Events(steps)).delivered;
            && |p.popped| + |p.box.receiver.published| == |published|
            && (p.box.receiver.published != [] ==>
                  p.box.receiver.published[0] == Pay(channel, items)(published[|p.popped|]))
  {
    var p, pay := Run(channel, ordered, window, items, steps), Pay(channel, items);
    ReceiverIs(channel, ordered, window, items, steps);
    Runs.RunSimulates(ordered, window, Events(steps), pay);
    var s := p.box.receiver;
    if s.published != [] { assert (p.popped + s.published)[|p.popped|] == s.published[0]; }
  }

  lemma {:induction false} RunMatches(channel: Byte, ordered: bool, window: WindowSize, items: seq<Item>,
                                      steps: seq<Step>)
    requires Proper(items) && Existing(items, steps) && window <= MAX_AGE
    requires Runs.AllRecent(ordered, window, Events(steps))
    ensures var p, moves := Run(channel, ordered, window, items, steps), Moves(ordered, window, steps);
            |p.popped| == |Outs(moves)| && Matches(p, DeskRun(items, moves), channel, items)
    decreases steps
  {
    if steps == [] {
      StartMatches(channel, ordered, window, items);
    } else {
      var before, step := steps[..|steps| - 1], steps[|steps| - 1];
      EventsStep(steps);
      RunMatches(channel, ordered, window, items, before);
      var p, moves := Run(channel, ordered, window, items, before), Moves(ordered, window, before);
      var d := DeskRun(items, moves);
      match step {
        case Arrive(n) =>
          MovesMore(moves, In(n));
          ArriveMatches(p, d, channel, items, n);
        case Update =>
        case Take => TakeStep(channel, ordered, window, items, before);
      }
    }
  }

  lemma StartMatches(channel: Byte, ordered: bool, window: WindowSize, items: seq<Item>)
    ensures Matches(Run(channel, ordered, window, items, []), DeskRun(items, []), channel, items)
  {
    assert Bodies(items, []) == [];
    assert forall j :: 0 <= j < |items| ==> Got(items, j, {}) == {};
  }

  lemma {:induction false} TakeStep(channel: Byte, ordered: bool, window: WindowSize, items: seq<Item>,
                                    steps: seq<Step>)
    requires Proper(items) && Existing(items, steps) && window <= MAX_AGE
    requires Runs.AllRecent(ordered, window, Events(steps))
    requires var p, moves := Run(channel, ordered, window, items, steps), Moves(ordered, window, steps);
             |p.popped| == |Outs(moves)| && Matches(p, DeskRun(items, moves), channel, items)
    ensures var p := Apply(channel, items, Run(channel, ordered, window, items, steps), Take);
            var moves := Moves(ordered, window, steps + [Take]);
            |p.popped| == |Outs(moves)| && Matches(p, DeskRun(items, moves), channel, items)
  {
    var p, moves := Run(channel, ordered, window, items, steps), Moves(ordered, window, steps);
    var published, k := Runs.ViewRun(ordered, window, Events(steps)).delivered, |Outs(moves)|;
    StepMore(ordered, window, steps, Take);
    FrontIs(channel, ordered, window, items, steps);
    if k < |published| {
      NextExists(ordered, window, items, steps);
      TakeFront(p, moves, channel, items, published[k]);
    }
  }

  lemma {:induction false} TakeFront(p: Port, moves: seq<Move>, channel: Byte, items: seq<Item>, n: int)
    requires Proper(items) && Matches(p, DeskRun(items, moves), channel, items) && 1 <= n <= Total(items)
    requires p.box.receiver.published != [] && p.box.receiver.published[0] == Pay(channel, items)(n)
    requires |p.popped| == |Outs(moves)|
    ensures var p', more := Apply(channel, items, p, Take), moves + [Out(n)];
            |p'.popped| == |Outs(more)| && Matches(p', DeskRun(items, more), channel, items)
  {
    MovesMore(moves, Out(n));
    TakeMatches(p, DeskRun(items, moves), channel, items, n);
  }

  /** The next packet to take is one that exists. */
  lemma {:induction false} NextExists(ordered: bool, window: nat, items: seq<Item>, steps: seq<Step>)
    requires Existing(items, steps)
    ensures var published, k := Runs.ViewRun(ordered, window, Events(steps)).delivered,
              |Outs(Moves(ordered, window, steps))|;
            k < |published| ==> 1 <= published[k] <= Total(items)
  {
    var published, k := Runs.ViewRun(ordered, window, Events(steps)).delivered, |Outs(Moves(ordered, window, steps))|;
    MovesAreCausal(ordered, window, items, steps);
    OutsFollow(ordered, window, steps);
    NextIsCausal(ordered, window, steps);
    if k < |published| { InsExist(items, Moves(ordered, window, steps), published[k]); }
  }

  // ---- the results ----

  /** A channel that carries plain and fragmented messages, ordered or not, with skips or without, under
      any reordering and duplication.  The application takes whole messages that were sent, and has every
      message whose packets have all been taken.  It takes none twice exactly when, for no fragmented
      message, all fragments arrive, a header is taken, all fragments arrive again, and another header is
      taken.  On an ordered channel it takes them in the order sent. */
  lemma {:induction false} FragmentedDelivery(channel: Byte, ordered: bool, window: WindowSize, items: seq<Item>,
                                              steps: seq<Step>)
    requires Proper(items) && Existing(items, steps) && window <= MAX_AGE
    requires Runs.AllRecent(ordered, window, Events(steps))
    ensures var p, moves := Run(channel, ordered, window, items, steps), Moves(ordered, window, steps);
            var log := DeskRun(items, moves).log;
            && Known(items, log) && p.taken == Bodies(items, log)
            && (forall j :: 0 <= j < |items| && AllOut(items, j, moves) ==> j in log)
            && (NoDuplicates(log) <==> !Revived(items, moves))
            && (ordered ==> Sorted(log))
  {
    var moves := Moves(ordered, window, steps);
    RunMatches(channel, ordered, window, items, steps);
    MovesAreCausal(ordered, window, items, steps);
    forall j | 0 <= j < |items| && AllOut(items, j, moves) ensures j in DeskRun(items, moves).log {
      NoneMissed(items, moves, j);
    }
    OnceExactly(items, moves);
    if ordered {
      Runs.HeldArrived(ordered, window, Events(steps));
      OutsFollow(ordered, window, steps);
      PrefixIncreases(Outs(moves), Runs.ViewRun(ordered, window, Events(steps)).delivered);
      HandedInOrder(items, moves);
    }
  }

  lemma PrefixIncreases(a: seq<int>, b: seq<int>)
    requires a <= b && Views.Increasing(b)
    ensures Views.Increasing(a)
  {
    assert forall i :: 0 <= i < |a| ==> a[i] == b[i];
  }

  /** Without skips an ordered channel leaves no gaps: unless fragments revive a message, what the
      application has taken is a prefix of what was sent. */
  lemma {:induction false} OrderedPrefix(channel: Byte, window: WindowSize, items: seq<Item>, steps: seq<Step>)
    requires Proper(items) && Existing(items, steps) && window <= MAX_SPAN && Runs.SkipFree(window, Events(steps))
    ensures var p, moves := Run(channel, true, window, items, steps), Moves(true, window, steps);
            && Outs(moves) == Runs.UpTo(|Outs(moves)|) && Shape(DeskRun(items, moves).log)
            && (!Revived(items, moves) ==>
                  |p.taken| <= |items| && forall i :: 0 <= i < |p.taken| ==> p.taken[i] == items[i].body)
  {
    var moves := Moves(true, window, steps);
    OutsInTurn(window, steps);
    MovesAreCausal(true, window, items, steps);
    WithoutGaps(items, moves);
    OnceExactly(items, moves);
    Runs.SkipFreeWhole(true, window, Events(steps));
    RunMatches(channel, true, window, items, steps);
    if !Revived(items, moves) { OnceIsCounting(DeskRun(items, moves).log); }
  }

  /** Without skips an ordered channel yields packets 1, 2, ... in turn. */
  lemma {:induction false} OutsInTurn(window: WindowSize, steps: seq<Step>)
    requires window <= MAX_SPAN && Runs.SkipFree(window, Events(steps))
    ensures var outs := Outs(Moves(true, window, steps)); outs == Runs.UpTo(|outs|)
  {
    Runs.OrderedView(window, Events(steps));
    OutsFollow(true, window, steps);
  }

  /** Messages that are not fragmented cannot be revived. */
  lemma PlainNeverRevives(items: seq<Item>, moves: seq<Move>)
    requires forall j :: 0 <= j < |items| ==> items[j].Plain?
    ensures !Revived(items, moves)
  {
  }

  /** Without skips, when the queue is empty everything that arrived up to the current packet has been
      taken, and on an unordered channel everything closer than the window's end. */
  lemma {:induction false} EmptyQueue(channel: Byte, ordered: bool, window: WindowSize, items: seq<Item>,
                                      steps: seq<Step>)
    requires Proper(items) && Existing(items, steps) && window <= MAX_SPAN && Runs.SkipFree(window, Events(steps))
    requires Run(channel, ordered, window, items, steps).box.receiver.published == []
    ensures var moves, k := Moves(ordered, window, steps), Runs.ViewRun(ordered, window, Events(steps)).current;
            forall n :: n in Ins(moves) && (n <= k || (!ordered && n < k + window)) ==> n in Outs(moves)
  {
    var moves, v := Moves(ordered, window, steps), Runs.ViewRun(ordered, window, Events(steps));
    AllOfQueueTaken(channel, ordered, window, items, steps);
    forall n | n in Ins(moves) && (n <= v.current || (!ordered && n < v.current + window)) ensures n in v.delivered {
      ArrivedPublished(ordered, window, items, steps, n);
    }
  }

  lemma {:induction false} AllOfQueueTaken(channel: Byte, ordered: bool, window: WindowSize, items: seq<Item>,
                                           steps: seq<Step>)
    requires Proper(items) && Existing(items, steps) && window <= MAX_SPAN && Runs.SkipFree(window, Events(steps))
    requires Run(channel, ordered, window, items, steps).box.receiver.published == []
    ensures Outs(Moves(ordered, window, steps)) == Runs.ViewRun(ordered, window, Events(steps)).delivered
  {
    Runs.SkipFreeWhole(ordered, window, Events(steps));
    FrontIs(channel, ordered, window, items, steps);
    RunMatches(channel, ordered, window, items, steps);
    OutsFollow(ordered, window, steps);
  }

  lemma {:induction false} ArrivedPublished(ordered: bool, window: WindowSize, items: seq<Item>, steps: seq<Step>,
                                            n: int)
    requires Existing(items, steps) && window <= MAX_SPAN && Runs.SkipFree(window, Events(steps))
    requires n in Ins(Moves(ordered, window, steps))
    requires var k := Runs.ViewRun(ordered, window, Events(steps)).current; n <= k || (!ordered && n < k + window)
    ensures n in Runs.ViewRun(ordered, window, Events(steps)).delivered
  {
    Runs.SkipFreeWhole(ordered, window, Events(steps));
    MovesAreCausal(ordered, window, items, steps);
    InsExist(items, Moves(ordered, window, steps), n);
    InsAreArrivals(ordered, window, steps, n);
    Runs.ArrivedMembers(Events(steps), n);
    assert n in Views.Held(Runs.ViewRun(ordered, window, Events(steps)));
  }

  // ---- one call for the next body ----

  function Stepper(channel: Byte, items: seq<Item>): (Port, Step) -> Port {
    (p, step) => Apply(channel, items, p, step)
  }

  /** What taking `k` messages from `p` and so getting to `p'` moves. */
  ghost predicate Popped(p: Port, p': Port, k: nat) {
    && k <= |p.box.receiver.published|
    && p'.popped == p.popped + p.box.receiver.published[..k]
    && p'.box.receiver.published == p.box.receiver.published[k..]
  }

  /** A call that tries `attempts` times and returns `box` and `body` gets from `p` to `p'` by `k` takes; `last` is
      the situation before the last of them. */
  ghost predicate CallIs(p: Port, last: Port, p': Port, k: nat, attempts: nat, box: Inbox, body: Bytes) {
    && box == p'.box && Popped(p, p', k) && k <= attempts
    && p'.taken == p.taken + (if body == [] then [] else [body])
    && (body == [] ==> k == attempts || p'.box.receiver.published == [])
    && (body != [] ==> k > 0 && last.taken == p.taken)
  }

  lemma {:induction false} CallOf(channel: Byte, items: seq<Item>, p: Port, attempts: nat) returns (k: nat)
    ensures var (box, body) := TakeBody(p.box, attempts);
            var last := Again(Stepper(channel, items), p, if k == 0 then 0 else k - 1, Take);
            CallIs(p, last, Again(Stepper(channel, items), p, k, Take), k, attempts, box, body)
    decreases attempts, p
  {
    k := 0;
    if attempts > 0 && p.box.receiver.published != [] {
      var p1 := Apply(channel, items, p, Take);
      TakeMoves(channel, items, p);
      if TakeOne(p.box).1 != Some([]) {
        k := 1;
      } else {
        var rest := CallOf(channel, items, p1, attempts - 1);
        k := rest + 1;
        var (box, body) := TakeBody(p1.box, attempts - 1);
        var last := Again(Stepper(channel, items), p1, if rest == 0 then 0 else rest - 1, Take);
        OneMore(p, p1, last, Again(Stepper(channel, items), p1, rest, Take), rest, attempts, box, body);
      }
    }
  }

  lemma {:induction false} RunIsFold(channel: Byte, ordered: bool, window: WindowSize, items: seq<Item>,
                                     steps: seq<Step>)
    ensures Run(channel, ordered, window, items, steps)
         == Fold(Stepper(channel, items), Run(channel, ordered, window, items, []), steps)
    decreases steps
  {
    if steps != [] { RunIsFold(channel, ordered, window, items, steps[..|steps| - 1]); }
  }

  lemma {:induction false} RunAgain(channel: Byte, ordered: bool, window: WindowSize, items: seq<Item>,
                                    steps: seq<Step>, k: nat)
    ensures Run(channel, ordered, window, items, steps + Times(k, Take))
         == Again(Stepper(channel, items), Run(channel, ordered, window, items, steps), k, Take)
  {
    var f, start := Stepper(channel, items), Run(channel, ordered, window, items, []);
    RunIsFold(channel, ordered, window, items, steps);
    RunIsFold(channel, ordered, window, items, steps + Times(k, Take));
    FoldSplit(f, start, steps, Times(k, Take));
    FoldTimes(f, Fold(f, start, steps), k, Take);
  }

  /** One call after any run is `k` takes, each of which pops a message.  Only the last of them can yield a
      body, which is the body returned; without one, `attempts` messages were popped or the queue is empty. */
  lemma {:induction false} NextBody(channel: Byte, ordered: bool, window: WindowSize, items: seq<Item>,
                                    steps: seq<Step>, attempts: nat) returns (k: nat)
    ensures var p := Run(channel, ordered, window, items, steps);
            var last := Run(channel, ordered, window, items, steps + Times(if k == 0 then 0 else k - 1, Take));
            var (box, body) := TakeBody(p.box, attempts);
            CallIs(p, last, Run(channel, ordered, window, items, steps + Times(k, Take)), k, attempts, box, body)
  {
    k := CallOf(channel, items, Run(channel, ordered, window, items, steps), attempts);
    RunAgain(channel, ordered, window, items, steps, k);
    RunAgain(channel, ordered, window, items, steps, if k == 0 then 0 else k - 1);
  }

  /** One take from a queue that is not empty. */
  lemma {:induction false} TakeMoves(channel: Byte, items: seq<Item>, p: Port)
    requires p.box.receiver.published != []
    ensures var p1, (box, body) := Apply(channel, items, p, Take), TakeOne(p.box);
            && body.Some? && box == p1.box && Popped(p, p1, 1)
            && p1.taken == p.taken + (if body.value == [] then [] else [body.value])
  {
  }

  lemma {:induction false} OneMore(p: Port, p1: Port, last: Port, p': Port, k: nat, attempts: nat, box: Inbox,
                                   body: Bytes)
    requires attempts > 0 && Popped(p, p1, 1) && p1.taken == p.taken
    requires CallIs(p1, last, p', k, attempts - 1, box, body)
    ensures CallIs(p, if k == 0 then p else last, p', k + 1, attempts, box, body)
  {
    PoppedOneMore(p, p1, p', k);
  }

  lemma {:induction false} PoppedOneMore(p: Port, p1: Port, p': Port, k: nat)
    requires Popped(p, p1, 1) && Popped(p1, p', k)
    ensures Popped(p, p', k + 1)
  {
    var queue := p.box.receiver.published;
    assert queue[..k + 1] == queue[..1] + queue[1..][..k];
    assert p.popped + queue[..1] + queue[1..][..k] == p.popped + (queue[..1] + queue[1..][..k]);
    assert queue[1..][k..] == queue[k + 1..];
  }

  // ---- handed out twice ----

  /** Both fragments of a message arrive, the first header hands it out, both fragments arrive again, and
      the second header hands it out a second time. */
  lemma {:induction false} DeliveredTwice(channel: Byte, group: U16, body: Bytes, items: seq<Item>, steps: seq<Step>)
    requires |body| == 1201 && items == [Split(group, body)]
    requires steps == [Arrive(1), Arrive(2), Take, Arrive(1), Arrive(2), Take]
    ensures Proper(items) && Existing(items, steps) && Runs.SkipFree(512, Events(steps))
    ensures Run(channel, true, 512, items, steps).taken == [body, body]
  {
    OneOfTwo(items, body);
    TwiceMoves(steps);
    TwiceOnDesk(items, Moves(true, 512, steps));
    TakenIs(channel, 512, items, steps, [0, 0]);
    assert Bodies(items, [0, 0]) == [body, body];
  }

  lemma {:induction false} OneOfTwo(items: seq<Item>, body: Bytes)
    requires |items| == 1 && items[0].Split? && items[0].body == body && |body| == 1201
    ensures Proper(items) && First(items, 1) == 3 && Total(items) == 2
  {
    ChunksJoin(body);
    assert First(items, 0) == 1;
  }

  lemma {:induction false} TakenIs(channel: Byte, window: WindowSize, items: seq<Item>, steps: seq<Step>, log: seq<nat>)
    requires Proper(items) && Existing(items, steps) && window <= MAX_SPAN && Runs.SkipFree(window, Events(steps))
    requires DeskRun(items, Moves(true, window, steps)).log == log
    ensures Known(items, log) && Run(channel, true, window, items, steps).taken == Bodies(items, log)
  {
    Runs.SkipFreeWhole(true, window, Events(steps));
    RunMatches(channel, true, window, items, steps);
  }

  /** One step more. */
  lemma StepMore(ordered: bool, window: nat, steps: seq<Step>, step: Step)
    ensures Events(steps + [step]) == Events(steps) +
              match step case Arrive(n) => [Runs.Arrive(n)] case Update => [Runs.Update] case Take => []
    ensures step.Arrive? ==> Moves(ordered, window, steps + [step]) == Moves(ordered, window, steps) + [In(step.n)]
    ensures var moves := Moves(ordered, window, steps);
            var published := Runs.ViewRun(ordered, window, Events(steps)).delivered;
            var next := if |Outs(moves)| < |published| then moves + [Out(published[|Outs(moves)|])] else moves;
            step.Take? ==> Moves(ordered, window, steps + [step]) == next
  {
    assert (steps + [step])[..|steps|] == steps;
  }

  lemma {:induction false} TwoArrive(steps: seq<Step>)
    ensures var more := steps + [Arrive(1)] + [Arrive(2)];
            && Events(more) == Events(steps) + [Runs.Arrive(1), Runs.Arrive(2)]
            && Moves(true, 512, more) == Moves(true, 512, steps) + [In(1), In(2)]
            && Outs(Moves(true, 512, more)) == Outs(Moves(true, 512, steps))
  {
    var next := steps + [Arrive(1)];
    OneArrives(steps, 1);
    OneArrives(next, 2);
    TwoMore(Moves(true, 512, steps), In(1), In(2));
    TwoMore(Events(steps), Runs.Arrive(1), Runs.Arrive(2));
  }

  lemma TwoMore<T>(list: seq<T>, a: T, b: T)
    ensures list + [a] + [b] == list + [a, b]
  {
  }

  lemma {:induction false} OneArrives(steps: seq<Step>, n: int)
    ensures var more, moves := steps + [Arrive(n)], Moves(true, 512, steps);
            && Events(more) == Events(steps) + [Runs.Arrive(n)] && Moves(true, 512, more) == moves + [In(n)]
            && Outs(moves + [In(n)]) == Outs(moves)
  {
    StepMore(true, 512, steps, Arrive(n));
    MovesMore(Moves(true, 512, steps), In(n));
  }

  lemma {:induction false} TwiceMoves(steps: seq<Step>)
    requires steps == [Arrive(1), Arrive(2), Take, Arrive(1), Arrive(2), Take]
    ensures Runs.SkipFree(512, Events(steps))
    ensures Moves(true, 512, steps) == [In(1), In(2), Out(1), In(1), In(2), Out(2)]
  {
    var s3 := steps[..3];
    OnceTaken(s3);
    var s5 := s3 + [Arrive(1)] + [Arrive(2)];
    TwoArrive(s3);
    TwoPackets(Events(s5));
    TakesNext(s5, 2);
    assert s5 + [Take] == steps;
  }

  lemma {:induction false} OnceTaken(steps: seq<Step>)
    requires steps == [Arrive(1), Arrive(2), Take]
    ensures Events(steps) == [Runs.Arrive(1), Runs.Arrive(2)]
    ensures Moves(true, 512, steps) == [In(1), In(2), Out(1)] && Outs(Moves(true, 512, steps)) == [1]
  {
    var arrivals := steps[..2];
    BothArrived(arrivals);
    TwoPackets(Events(arrivals));
    FirstTaken(arrivals, Moves(true, 512, arrivals), 1);
    assert arrivals + [Take] == steps;
  }

  lemma {:induction false} BothArrived(steps: seq<Step>)
    requires steps == [Arrive(1), Arrive(2)]
    ensures Events(steps) == [Runs.Arrive(1), Runs.Arrive(2)]
    ensures Moves(true, 512, steps) == [In(1), In(2)] && Outs(Moves(true, 512, steps)) == []
  {
    var none: seq<Step> := [];
    TwoArrive(none);
    assert none + [Arrive(1)] + [Arrive(2)] == steps;
  }

  lemma {:induction false} FirstTaken(steps: seq<Step>, moves: seq<Move>, n: int)
    requires n == 1 && Runs.ViewRun(true, 512, Events(steps)).delivered == [1, 2]
    requires moves == Moves(true, 512, steps) && Outs(moves) == []
    ensures Events(steps + [Take]) == Events(steps)
    ensures Moves(true, 512, steps + [Take]) == moves + [Out(n)] && Outs(moves + [Out(n)]) == [n]
  {
    TakesNext(steps, n);
    MovesMore(moves, Out(n));
  }

  lemma {:induction false} TakesNext(steps: seq<Step>, n: int)
    requires Runs.ViewRun(true, 512, Events(steps)).delivered == [1, 2] &&
             |Outs(Moves(true, 512, steps))| == n - 1 && 1 <= n <= 2
    ensures Events(steps + [Take]) == Events(steps)
    ensures Moves(true, 512, steps + [Take]) == Moves(true, 512, steps) + [Out(n)]
  {
    var moves, published := Moves(true, 512, steps), Runs.ViewRun(true, 512, Events(steps)).delivered;
    StepMore(true, 512, steps, Take);
    assert published[|Outs(moves)|] == n;
    assert Events(steps) + [] == Events(steps);
  }

  /** Packets 1 and 2 arrive, in turn and any number of times: both are published. */
  lemma {:induction false} TwoPackets(events: seq<Runs.Event>)
    requires |events| >= 2
    requires forall i :: 0 <= i < |events| ==> events[i] == Runs.Arrive(if i % 2 == 0 then 1 else 2)
    ensures Runs.SkipFree(512, events) && Runs.ViewRun(true, 512, events).delivered == [1, 2]
  {
    ArrivedAlternating(events);
    Runs.OrderedView(512, events);
    var v := Runs.ViewRun(true, 512, events);
    OnlyPrefix(Runs.Arrived(events), v.current);
  }

  lemma OnlyPrefix(packets: set<int>, k: int)
    requires packets == {1, 2} && Views.IsPrefix(packets, k)
    ensures k == 2
  {
    assert k == 0 || k in packets;
  }

  lemma {:induction false} ArrivedAlternating(events: seq<Runs.Event>)
    requires forall i :: 0 <= i < |events| ==> events[i] == Runs.Arrive(if i % 2 == 0 then 1 else 2)
    ensures Runs.SkipFree(512, events)
    ensures Runs.Arrived(events) == if |events| == 0 then {} else if |events| == 1 then {1} else {1, 2}
    decreases events
  {
    if events != [] {
      ArrivedAlternating(Runs.Init(events));
      forall k | Views.IsPrefix(Runs.Arrived(Runs.Init(events)), k) ensures 0 <= k <= 2 {
        assert k == 0 || k in Runs.Arrived(Runs.Init(events));
      }
    }
  }

  lemma {:induction false} TwiceOnDesk(items: seq<Item>, moves: seq<Move>)
    requires |items| == 1 && items[0].Split? && First(items, 1) == 3
    requires moves == [In(1), In(2), Out(1), In(1), In(2), Out(2)]
    ensures DeskRun(items, moves).log == [0, 0]
  {
    OwnerIs(items, 0, 1);
    OwnerIs(items, 0, 2);
    var m1, m2, m3, m4, m5 := moves[..1], moves[..2], moves[..3], moves[..4], moves[..5];
    assert m1[..0] == [] && m2[..1] == m1 && m3[..2] == m2 && m4[..3] == m3 && m5[..4] == m4;
    assert PacketsOf(items, 0) == {1, 2};
    assert DeskRun(items, m1) == Desk({1}, []);
    assert DeskRun(items, m2) == Desk({1, 2}, []);
    assert DeskRun(items, m3) == Desk({}, [0]);
    assert DeskRun(items, m4) == Desk({1}, [0]);
    assert DeskRun(items, m5) == Desk({1, 2}, [0]);
  }
}
