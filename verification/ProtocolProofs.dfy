/** What the two channel ends and the network guarantee over every run. */
module ProtocolProofs {
  import opened Lists
  import opened Sequence
  import opened SequenceBuffers
  import opened IntBuffers
  import opened Nacks
  import opened Headers
  import opened SendBuffers
  import opened ChannelSpec
  import opened FragmentSpec
  import opened Fragmentations
  import opened ReceiverRefinement
  import opened NackProofs
  import opened Numbering
  import opened Protocol
  import D = Delivery
  import Desks = DeskProofs
  import Deliveries = DeliveryProofs
  import Views = ReassemblyProofs
  import Runs = ReceiverRuns
  import S = ReceiverSpec
  import V = Reassembly

  // ---- the invariant ----

  ghost predicate SenderInv(w: World) {
    && w.sender == Issued(Packets(w.channel, w.items))
    && D.Proper(w.items) && Numbered(w.items) && Splits(w.items) <= 65533
  }

  ghost predicate WasSent(w: World, s: U16) {
    exists m :: 1 <= m <= D.Total(w.items) && Wire(m) == s
  }

  ghost predicate FlightInv(w: World, flight: Flight) {
    match flight
    case Data(n, bytes) => 1 <= n <= D.Total(w.items) && bytes == D.Packet(w.channel, w.items, n)
    case NackList(nacks) => forall s :: s in Expand(nacks) ==> WasSent(w, s)
  }

  ghost predicate NetInv(w: World) {
    && (forall flight :: flight in w.net ==> FlightInv(w, flight))
    && (forall s :: s in w.requested ==> WasSent(w, s))
  }

  /** The receiver's situation after the steps that reached it. */
  function ViewOf(ordered: bool, window: nat, steps: seq<D.Step>): V.View {
    Runs.ViewRun(ordered, window, D.Events(steps))
  }

  /** The receiving end has run through `steps`, without a skip, and nothing was sent past its window. */
  ghost predicate PortInv(w: World, ordered: bool, window: WindowSize, steps: seq<D.Step>) {
    && D.Existing(w.items, steps) && Runs.SkipFree(window, D.Events(steps))
    && w.port == D.Run(w.channel, ordered, window, w.items, steps)
    && D.Total(w.items) <= ViewOf(ordered, window, steps).current + window
  }

  ghost predicate Inv(w: World, ordered: bool, window: WindowSize, steps: seq<D.Step>) {
    window <= MAX_SPAN && SenderInv(w) && NetInv(w) && PortInv(w, ordered, window, steps)
  }

  /** What the receiver as if nothing had been taken represents. */
  ghost predicate Shows(w: World, ordered: bool, window: WindowSize, v: V.View, arrived: set<int>) {
    && Rep(Runs.Prefixed(Receiver(w), w.port.popped), v, Deliveries.Pay(w.channel, w.items))
    && Views.Whole(v, ordered, window, arrived) && Receiver(w).window == window
    && v.last <= D.Total(w.items) <= v.current + window
  }

  lemma {:induction false} PortShows(w: World, ordered: bool, window: WindowSize, steps: seq<D.Step>)
    requires window <= MAX_SPAN && D.Proper(w.items) && PortInv(w, ordered, window, steps)
    ensures Shows(w, ordered, window, ViewOf(ordered, window, steps), Runs.Arrived(D.Events(steps)))
    ensures Progress(w) == ViewOf(ordered, window, steps).current
  {
    var events, v := D.Events(steps), ViewOf(ordered, window, steps);
    Runs.SkipFreeWhole(ordered, window, events);
    Runs.RunSimulates(ordered, window, events, Deliveries.Pay(w.channel, w.items));
    Deliveries.ReceiverIs(w.channel, ordered, window, w.items, steps);
    if v.last != 0 { ArrivedExist(w.items, steps, v.last); }
    UnwireRecent(D.Total(w.items), v.current);
  }

  lemma {:induction false} ArrivedExist(items: seq<D.Item>, steps: seq<D.Step>, n: int)
    requires D.Existing(items, steps) && n in Runs.Arrived(D.Events(steps))
    ensures 1 <= n <= D.Total(items)
    decreases steps
  {
    var before := steps[..|steps| - 1];
    Deliveries.EventsStep(steps);
    if n in Runs.Arrived(D.Events(before)) { ArrivedExist(items, before, n); }
  }

  // ---- the receiving end ----

  lemma CurrentGrows(ordered: bool, window: nat, events: seq<Runs.Event>)
    requires events != []
    ensures Runs.ViewRun(ordered, window, Runs.Init(events)).current <= Runs.ViewRun(ordered, window, events).current
  {
    var v := Runs.ViewRun(ordered, window, Runs.Init(events));
    Runs.HeldArrived(ordered, window, Runs.Init(events));
    match Runs.Last(events) {
      case Arrive(n) => Views.ReceiveAdvances(v, ordered, window, n);
      case Update => Views.PublishAdvances(v, ordered, v.current, true, window);
    }
  }

  /** One step of the receiving end. */
  lemma {:induction false} PortStep(w: World, w': World, ordered: bool, window: WindowSize, steps: seq<D.Step>,
                                    step: D.Step)
    requires window <= MAX_SPAN && PortInv(w, ordered, window, steps)
    requires w'.items == w.items && w'.channel == w.channel && w'.port == D.Apply(w.channel, w.items, w.port, step)
    requires step.Arrive? ==>
             1 <= step.n <= D.Total(w.items) && ViewOf(ordered, window, steps).current - MAX_AGE <= step.n
    ensures PortInv(w', ordered, window, steps + [step])
  {
    assert (steps + [step])[..|steps|] == steps;
    StaysSkipFree(ordered, window, steps, step);
    assert D.Existing(w.items, steps + [step]);
    assert D.Run(w.channel, ordered, window, w.items, steps + [step]) == w'.port;
  }

  /** An arrival inside the window causes no skip, and no step moves the current sequence back. */
  lemma {:induction false} StaysSkipFree(ordered: bool, window: WindowSize, steps: seq<D.Step>, step: D.Step)
    requires window <= MAX_SPAN && Runs.SkipFree(window, D.Events(steps))
    requires var k := ViewOf(ordered, window, steps).current; step.Arrive? ==> k - MAX_AGE <= step.n <= k + window
    ensures Runs.SkipFree(window, D.Events(steps + [step]))
    ensures ViewOf(ordered, window, steps).current <= ViewOf(ordered, window, steps + [step]).current
  {
    var events, v := D.Events(steps), ViewOf(ordered, window, steps);
    assert (steps + [step])[..|steps|] == steps;
    Deliveries.EventsStep(steps + [step]);
    Runs.SkipFreeWhole(ordered, window, events);
    Views.PrefixIsUnique(Runs.Arrived(events), v.current);
    if !step.Take? { CurrentGrows(ordered, window, D.Events(steps + [step])); }
  }

  // ---- flights ----

  lemma WasSentGrows(w: World, w': World)
    requires D.Total(w.items) <= D.Total(w'.items)
    ensures forall s :: WasSent(w, s) ==> WasSent(w', s)
  {
  }

  /** Nothing in the network depends on more than the packets sent. */
  lemma NetKept(w: World, w': World)
    requires NetInv(w) && w'.items == w.items && w'.channel == w.channel
    requires w'.net == w.net && w'.requested == w.requested
    ensures NetInv(w')
  {
    forall flight | flight in w'.net ensures FlightInv(w', flight) { SameFlight(w, w', flight); }
    WasSentGrows(w, w');
  }

  lemma SameFlight(w: World, w': World, flight: Flight)
    requires FlightInv(w, flight) && w'.items == w.items && w'.channel == w.channel
    ensures FlightInv(w', flight)
  {
    WasSentGrows(w, w');
  }

  /** Any packet carries its own number and starts with one of two types. */
  lemma {:induction false} PacketHeader(channel: Byte, items: seq<D.Item>, n: int)
    requires D.Proper(items) && 1 <= n <= D.Total(items)
    ensures var packet := D.Packet(channel, items, n);
            |packet| >= HEADER_SIZE && PlainAt(packet).sequence == Wire(n) && packet[0] != RELIABLE_WITH_NACK
  {
    Desks.OwnerOf(items, n);
    var i := D.Owner(items, n);
    if items[i].Plain? {
      Deliveries.PlainPacket(channel, items, i, n);
    } else {
      Deliveries.SplitPacket(channel, items, i, n);
    }
  }

  lemma {:induction false} LaunchIs(channel: Byte, items: seq<D.Item>, n: int)
    requires D.Proper(items) && 1 <= n <= D.Total(items) < n + MODULUS
    ensures Launch(D.Total(items), D.Packet(channel, items, n)) == Data(n, D.Packet(channel, items, n))
  {
    PacketHeader(channel, items, n);
    UnwireRecent(D.Total(items), n);
  }

  // ---- sending ----

  /** The sender emits exactly the packets of the item, and its ring has issued them. */
  lemma {:induction false} EmittedIs(sender: ChannelSender, channel: Byte, items: seq<D.Item>, item: D.Item)
    requires sender == Issued(Packets(channel, items)) && D.Size(item) <= 1023
    ensures var (sender', datagrams) := Emitted(sender, channel, item);
            && datagrams == NewPackets(channel, items, item)
            && sender' == Issued(Packets(channel, items + [item]))
  {
    CountPackets(channel, items);
    PacketsAppend(channel, items, item);
    WireStep(D.Total(items));
    match item {
      case Plain(body) =>
        PlainIssued(Packets(channel, items), NewPackets(channel, items, item)[0]);
      case Split(group, body) =>
        SplitIssued(Packets(channel, items), channel, group, body);
    }
  }

  lemma {:induction false} PlainIssued(contents: seq<Bytes>, message: Bytes)
    ensures Issue(Issued(contents), message) == Issued(contents + [message])
  {
    assert (contents + [message])[..|contents|] == contents;
  }

  lemma {:induction false} SplitIssued(contents: seq<Bytes>, channel: Byte, group: U16, body: Bytes)
    requires |Chunks(body)| <= 1023
    ensures var s, chunks := Issued(contents), Chunks(body);
            var keys := AfterAll(Next(s.current), |chunks|);
            var fragments := Fragments(channel, group, Keys(|contents| + 1, |chunks|), chunks);
            && keys == Keys(|contents| + 1, |chunks|) && IssueAll(s, fragments) == Issued(contents + fragments)
            && FetchedAll(IssueAll(s, fragments), keys) == fragments
  {
    ChunksJoin(body);
    FetchedAfterIssue(contents, channel, group, body);
    IssueAllIssued(contents, Fragments(channel, group, Keys(|contents| + 1, |Chunks(body)|), Chunks(body)));
  }

  lemma {:induction false} SendKeeps(w: World, ordered: bool, window: WindowSize, steps: seq<D.Step>, body: Bytes)
    requires Inv(w, ordered, window, steps) && Enabled(w, Send(body))
    ensures Inv(Apply(w, Send(body)), ordered, window, steps)
  {
    var item, w' := ItemOf(w.items, body), Apply(w, Send(body));
    PortShows(w, ordered, window, steps);
    TotalGrows(w.items, item);
    EmittedIs(w.sender, w.channel, w.items, item);
    SendKeepsItems(w.items, body);
    SendKeepsNet(w, w', item);
    RunStable(w.channel, ordered, window, w.items, item, steps);
  }

  lemma {:induction false} SendKeepsItems(items: seq<D.Item>, body: Bytes)
    requires D.Proper(items) && Numbered(items) && Splits(items) <= 65533 && body != []
    requires |body| >= FRAGMENT_SIZE ==> Splits(items) < 65533
    requires D.Size(ItemOf(items, body)) <= 65535
    ensures var more := items + [ItemOf(items, body)]; D.Proper(more) && Numbered(more) && Splits(more) <= 65533
  {
    NumberedStep(items, body);
    var more := items + [ItemOf(items, body)];
    forall j | 0 <= j < |more| ensures more[j].body != [] && D.Size(more[j]) <= 65535 {
      if j < |items| { assert more[j] == items[j]; }
    }
    NumberedIsProper(more);
  }

  lemma {:induction false} SendKeepsNet(w: World, w': World, item: D.Item)
    requires NetInv(w) && w'.items == w.items + [item] && w'.channel == w.channel && w'.requested == w.requested
    requires D.Proper(w'.items) && D.Size(item) <= 1023
    requires w'.net == w.net + LaunchAll(D.Total(w'.items), NewPackets(w.channel, w.items, item))
    ensures NetInv(w')
  {
    TotalGrows(w.items, item);
    WasSentGrows(w, w');
    forall flight | flight in w'.net ensures FlightInv(w', flight) {
      if flight in w.net {
        if flight.Data? { PacketStable(w.channel, w.items, item, flight.n); }
      } else {
        var d :| d in NewPackets(w.channel, w.items, item) && flight == Launch(D.Total(w'.items), d);
        NewFlight(w, w', item, d);
      }
    }
  }

  lemma {:induction false} NewFlight(w: World, w': World, item: D.Item, d: Bytes)
    requires w'.items == w.items + [item] && w'.channel == w.channel && D.Proper(w'.items) && D.Size(item) <= 1023
    requires d in NewPackets(w.channel, w.items, item)
    ensures FlightInv(w', Launch(D.Total(w'.items), d))
  {
    var added := NewPackets(w.channel, w.items, item);
    var k :| 0 <= k < |added| && added[k] == d;
    SizeOfNew(w.channel, w.items, item);
    NewFlightAt(w, w', item, D.Total(w.items) + 1 + k, d);
  }

  lemma {:induction false} NewFlightAt(w: World, w': World, item: D.Item, n: int, d: Bytes)
    requires w'.items == w.items + [item] && w'.channel == w.channel && D.Proper(w'.items) && D.Size(item) <= 1023
    requires D.Total(w.items) < n <= D.Total(w.items) + D.Size(item)
    requires |NewPackets(w.channel, w.items, item)| == D.Size(item)
    requires d == NewPackets(w.channel, w.items, item)[n - D.Total(w.items) - 1]
    ensures FlightInv(w', Launch(D.Total(w'.items), d))
  {
    TotalGrows(w.items, item);
    NewPacketIs(w.channel, w.items, item, n);
    LaunchIs(w.channel, w'.items, n);
  }

  // ---- delivering ----

  lemma {:induction false} DeliverKeeps(w: World, ordered: bool, window: WindowSize, steps: seq<D.Step>, flight: Flight)
    requires Inv(w, ordered, window, steps) && Enabled(w, Deliver(flight)) && flight.Data?
    ensures Inv(Apply(w, Deliver(flight)), ordered, window, steps + [D.Arrive(flight.n)])
  {
    var w' := Apply(w, Deliver(flight));
    assert FlightInv(w, flight);
    PortShows(w, ordered, window, steps);
    NetKept(w, w');
    PortStep(w, w', ordered, window, steps, D.Arrive(flight.n));
  }

  lemma {:induction false} DeliverNacksKeeps(w: World, ordered: bool, window: WindowSize, steps: seq<D.Step>,
                                             flight: Flight)
    requires Inv(w, ordered, window, steps) && Enabled(w, Deliver(flight)) && flight.NackList?
    ensures Inv(Apply(w, Deliver(flight)), ordered, window, steps)
  {
    var w' := Apply(w, Deliver(flight));
    assert FlightInv(w, flight);
    forall f | f in w'.net ensures FlightInv(w', f) { SameFlight(w, w', f); }
    WasSentGrows(w, w');
  }

  lemma {:induction false} PortKeeps(w: World, ordered: bool, window: WindowSize, steps: seq<D.Step>, step: Step)
    requires Inv(w, ordered, window, steps) && (step.Publish? || step.Take?)
    ensures Inv(Apply(w, step), ordered, window, steps + [if step.Publish? then D.Update else D.Take])
  {
    var w' := Apply(w, step);
    NetKept(w, w');
    PortStep(w, w', ordered, window, steps, if step.Publish? then D.Update else D.Take);
  }

  // ---- nacks ----

  lemma NacksIgnorePublished<P>(s: S.State<P>, prefix: seq<P>)
    ensures S.CreateNacks(Runs.Prefixed(s, prefix)) == S.CreateNacks(s)
  {
    GroupsIgnorePublished(s, prefix, Previous(s.last), s.window / 32, [], 0);
  }

  lemma {:induction false} GroupsIgnorePublished<P>(s: S.State<P>, prefix: seq<P>, sequence: U16, budget: nat,
                                                    nacks: seq<Nack>, count: nat)
    ensures S.NackGroups(Runs.Prefixed(s, prefix), sequence, budget, nacks, count) ==
            S.NackGroups(s, sequence, budget, nacks, count)
    decreases budget
  {
    if budget > 0 {
      if Occupied(s.received, sequence) {
        GroupsIgnorePublished(s, prefix, Previous(sequence), budget - 1, nacks, count);
      } else {
        var head := DEFAULT_NACK.(start := sequence, nackedCount := count + 1);
        FlagsIgnorePublished(s, prefix, sequence, 0, head, count + 1);
        var g := S.NackFlags(s, sequence, 0, head, count + 1);
        GroupsIgnorePublished(s, prefix, Previous(g.sequence), budget - 1, nacks + [g.nack], g.count);
      }
    }
  }

  lemma {:induction false} FlagsIgnorePublished<P>(s: S.State<P>, prefix: seq<P>, sequence: U16, index: nat,
                                                   nack: Nack, count: nat)
    requires index <= FLAG_COUNT
    ensures S.NackFlags(Runs.Prefixed(s, prefix), sequence, index, nack, count) ==
            S.NackFlags(s, sequence, index, nack, count)
    decreases FLAG_COUNT - index
  {
    if index < FLAG_COUNT {
      var p := Previous(sequence);
      if Occupied(s.received, p) {
        FlagsIgnorePublished(s, prefix, p, index + 1, nack, count);
      } else {
        FlagsIgnorePublished(s, prefix, p, index + 1, SetBits(nack, index, true).(nackedCount := count + 1), count + 1);
      }
    }
  }

  /** Nacks name only packets that were sent. */
  lemma {:induction false} NacksWereSent(w: World, ordered: bool, window: WindowSize, v: V.View, arrived: set<int>)
    requires window <= MAX_SPAN && Shows(w, ordered, window, v, arrived)
    ensures FlightInv(w, NackList(S.CreateNacks(Receiver(w)).0))
  {
    var s := Runs.Prefixed(Receiver(w), w.port.popped);
    NacksIgnorePublished(Receiver(w), w.port.popped);
    forall q | q in Expand(S.CreateNacks(Receiver(w)).0) ensures WasSent(w, q) {
      var m := NamedBetween(s, v, Deliveries.Pay(w.channel, w.items), q);
    }
  }

  lemma {:induction false} NackKeeps(w: World, ordered: bool, window: WindowSize, steps: seq<D.Step>)
    requires Inv(w, ordered, window, steps)
    ensures Inv(Apply(w, Step.Nack), ordered, window, steps)
  {
    var w', nacks := Apply(w, Step.Nack), S.CreateNacks(Receiver(w)).0;
    PortShows(w, ordered, window, steps);
    NacksWereSent(w, ordered, window, ViewOf(ordered, window, steps), Runs.Arrived(D.Events(steps)));
    forall f | f in w'.net ensures FlightInv(w', f) {
      SameFlight(w, w', if f in w.net then f else NackList(nacks));
    }
    WasSentGrows(w, w');
  }

  // ---- resending ----

  /** Whatever sequence is asked for: the answer is some packet that was sent, under its own number, or,
      exactly when no packet was ever sent into its slot, a none message for that sequence. */
  lemma {:induction false} AnswerIsGenuine(w: World, s: U16)
    requires SenderInv(w)
    ensures var answer := Answer(w.sender, w.channel, s);
            if exists m :: 1 <= m <= D.Total(w.items) && RingSlot(m) == Slot(s)
            then FlightInv(w, Launch(D.Total(w.items), answer))
            else answer == NoneMessage(w.channel, s)
  {
    var packets, i := Packets(w.channel, w.items), Slot(s);
    CountPackets(w.channel, w.items);
    RingIsGenuine(packets);
    assert Genuine(w.sender, packets, i);
    if w.sender.ring[i].Some? {
      var n :| SentInto(packets, n, i) && EntryHolds(w.sender.ring[i].value, Wire(n), packets[n - 1]);
      PacketIs(w.channel, w.items, n);
      AnswerOf(w, s, n);
    } else {
      assert forall m :: 1 <= m <= |packets| ==> w.sender.ring[RingSlot(m)].Some?;
    }
  }

  lemma SentIntoSlot(w: World, s: U16)
    requires WasSent(w, s)
    ensures exists m :: 1 <= m <= D.Total(w.items) && RingSlot(m) == Slot(s)
  {
    var m :| 1 <= m <= D.Total(w.items) && Wire(m) == s;
    assert RingSlot(m) == Slot(s);
  }

  /** The answer is the packet asked for when that is among the 1023 most recent ones. */
  lemma {:induction false} AnswerIsRecent(w: World, n: int)
    requires SenderInv(w) && 1 <= n <= D.Total(w.items) <= n + MAX_SPAN
    ensures Launch(D.Total(w.items), Answer(w.sender, w.channel, Wire(n))) == Data(n, D.Packet(w.channel, w.items, n))
  {
    PacketIs(w.channel, w.items, n);
    Retention(Packets(w.channel, w.items), n);
    AnswerOf(w, Wire(n), n);
  }

  lemma {:induction false} AnswerOf(w: World, s: U16, n: int)
    requires D.Proper(w.items) && 1 <= n <= D.Total(w.items) < n + MODULUS && Lookup(w.sender, s).Some?
    requires EntryHolds(Lookup(w.sender, s).value, Wire(n), D.Packet(w.channel, w.items, n))
    ensures Launch(D.Total(w.items), Answer(w.sender, w.channel, s)) == Data(n, D.Packet(w.channel, w.items, n))
  {
    var packet, entry := D.Packet(w.channel, w.items, n), Lookup(w.sender, s).value;
    PacketHeader(w.channel, w.items, n);
    assert entry.buffer.data[0] == entry.buffer.data[..|packet|][0] == packet[0];
    LaunchIs(w.channel, w.items, n);
  }

  lemma {:induction false} ResendKeeps(w: World, ordered: bool, window: WindowSize, steps: seq<D.Step>)
    requires Inv(w, ordered, window, steps)
    ensures Inv(Apply(w, Resend), ordered, window, steps)
  {
    var w' := Apply(w, Resend);
    forall f | f in w'.net ensures FlightInv(w', f) {
      if f !in w.net {
        var s :| s in w.requested && f == Launch(D.Total(w.items), Answer(w.sender, w.channel, s));
        SentIntoSlot(w, s);
        AnswerIsGenuine(w, s);
      }
      SameFlight(w, w', f);
    }
  }

  // ---- every run ----

  lemma {:induction false} StepKeeps(w: World, ordered: bool, window: WindowSize, steps: seq<D.Step>, step: Step)
    requires Inv(w, ordered, window, steps) && Enabled(w, step)
    ensures Inv(Apply(w, step), ordered, window, steps + PortStepOf(step))
  {
    assert steps + [] == steps;
    match step {
      case Send(body) => SendKeeps(w, ordered, window, steps, body);
      case Deliver(flight) =>
        if flight.Data? {
          DeliverKeeps(w, ordered, window, steps, flight);
        } else {
          DeliverNacksKeeps(w, ordered, window, steps, flight);
        }
      case Nack => NackKeeps(w, ordered, window, steps);
      case Resend => ResendKeeps(w, ordered, window, steps);
      case Publish => PortKeeps(w, ordered, window, steps, Publish);
      case Take => PortKeeps(w, ordered, window, steps, Take);
    }
  }

  lemma {:induction false} StartInv(channel: Byte, ordered: bool, window: WindowSize)
    requires window <= MAX_SPAN
    ensures Inv(Start(channel, ordered, window), ordered, window, [])
  {
    assert Packets(channel, []) == [];
  }

  lemma {:induction false} RunKeeps(channel: Byte, ordered: bool, window: WindowSize, steps: seq<Step>)
    requires window <= MAX_SPAN && Possible(Start(channel, ordered, window), steps)
    ensures Inv(Run(Start(channel, ordered, window), steps), ordered, window, PortSteps(steps))
    decreases steps
  {
    if steps == [] {
      StartInv(channel, ordered, window);
    } else {
      var before, step := steps[..|steps| - 1], steps[|steps| - 1];
      RunKeeps(channel, ordered, window, before);
      StepKeeps(Run(Start(channel, ordered, window), before), ordered, window, PortSteps(before), step);
      assert PortSteps(steps) == PortSteps(before) + PortStepOf(step);
    }
  }

  // ---- end to end ----

  /** End to end, on ordered and unordered channels, with plain and fragmented messages: whatever the
      network loses, repeats and reorders, and however sends, nacks, resends and takes interleave, the
      receiving application takes whole messages that were sent, and every message whose packets have all
      been taken.  It takes none twice exactly when, for no fragmented message, all fragments arrive, a
      header is taken, all fragments arrive again, and another header is taken.  On an ordered channel it
      takes messages in the order sent and without gaps. */
  lemma {:induction false} EndToEnd(channel: Byte, ordered: bool, window: WindowSize, steps: seq<Step>)
    requires window <= MAX_SPAN && Possible(Start(channel, ordered, window), steps)
    ensures var w, moves := Run(Start(channel, ordered, window), steps), D.Moves(ordered, window, PortSteps(steps));
            var log := D.DeskRun(w.items, moves).log;
            && Deliveries.Known(w.items, log) && w.port.taken == D.Bodies(w.items, log)
            && (forall j :: 0 <= j < |w.items| && D.AllOut(w.items, j, moves) ==> j in log)
            && (NoDuplicates(log) <==> !D.Revived(w.items, moves))
            && (ordered ==> Desks.Shape(log))
  {
    var w, port := Run(Start(channel, ordered, window), steps), PortSteps(steps);
    RunKeeps(channel, ordered, window, steps);
    Runs.SkipFreeWhole(ordered, window, D.Events(port));
    ChannelStays(channel, ordered, window, steps);
    Deliveries.FragmentedDelivery(channel, ordered, window, w.items, port);
    if ordered { Deliveries.OrderedPrefix(channel, window, w.items, port); }
  }

  lemma {:induction false} ChannelStays(channel: Byte, ordered: bool, window: WindowSize, steps: seq<Step>)
    ensures Run(Start(channel, ordered, window), steps).channel == channel
    decreases steps
  {
    if steps != [] { ChannelStays(channel, ordered, window, steps[..|steps| - 1]); }
  }

  /** What an ordered channel hands over is a prefix of what was sent, unless fragments revive a message;
      without fragmented messages, always. */
  lemma {:induction false} TakenIsPrefixOfSent(channel: Byte, window: WindowSize, steps: seq<Step>)
    requires window <= MAX_SPAN && Possible(Start(channel, true, window), steps)
    ensures var w, moves := Run(Start(channel, true, window), steps), D.Moves(true, window, PortSteps(steps));
            && (!D.Revived(w.items, moves) ==> w.port.taken <= Sent(w))
            && (Splits(w.items) == 0 ==> w.port.taken <= Sent(w))
  {
    var w, port := Run(Start(channel, true, window), steps), PortSteps(steps);
    RunKeeps(channel, true, window, steps);
    ChannelStays(channel, true, window, steps);
    Deliveries.OrderedPrefix(channel, window, w.items, port);
    if Splits(w.items) == 0 { AllPlain(w.items, D.Moves(true, window, port)); }
    PrefixOfSent(w);
  }

  lemma PrefixOfSent(w: World)
    ensures w.port.taken <= Sent(w) <==>
            |w.port.taken| <= |w.items| && forall i :: 0 <= i < |w.port.taken| ==> w.port.taken[i] == w.items[i].body
  {
    if w.port.taken <= Sent(w) {
      assert forall i :: 0 <= i < |w.port.taken| ==> w.port.taken[i] == Sent(w)[i];
    }
  }

  /** On an unordered channel without fragmented messages each message is taken at most once, and only if
      it was sent; `log` says which. */
  lemma {:induction false} TakenOnce(channel: Byte, window: WindowSize, steps: seq<Step>) returns (log: seq<nat>)
    requires window <= MAX_SPAN && Possible(Start(channel, false, window), steps)
    requires Splits(Run(Start(channel, false, window), steps).items) == 0
    ensures var w := Run(Start(channel, false, window), steps);
            NoDuplicates(log) && Deliveries.Known(w.items, log) && w.port.taken == D.Bodies(w.items, log)
  {
    var w, moves := Run(Start(channel, false, window), steps), D.Moves(false, window, PortSteps(steps));
    log := D.DeskRun(w.items, moves).log;
    EndToEnd(channel, false, window, steps);
    AllPlain(w.items, moves);
  }

  lemma {:induction false} AllPlain(items: seq<D.Item>, moves: seq<D.Move>)
    requires Splits(items) == 0
    ensures !D.Revived(items, moves)
  {
    forall j | 0 <= j < |items| ensures items[j].Plain? {
      SplitsGrow(items, j, |items|);
      assert items[..|items|] == items;
    }
    Deliveries.PlainNeverRevives(items, moves);
  }

  /** An application that has emptied the queue has taken every packet that arrived up to the current one,
      and on an unordered channel every one closer than the window's end. */
  lemma {:induction false} EmptyQueueHasAll(channel: Byte, ordered: bool, window: WindowSize, steps: seq<Step>)
    requires window <= MAX_SPAN && Possible(Start(channel, ordered, window), steps)
    requires Receiver(Run(Start(channel, ordered, window), steps)).published == []
    ensures var w, moves := Run(Start(channel, ordered, window), steps), D.Moves(ordered, window, PortSteps(steps));
            forall n :: n in D.Ins(moves) && (n <= Progress(w) || (!ordered && n < Progress(w) + window)) ==>
              n in D.Outs(moves)
  {
    var w, port := Run(Start(channel, ordered, window), steps), PortSteps(steps);
    RunKeeps(channel, ordered, window, steps);
    PortShows(w, ordered, window, port);
    ChannelStays(channel, ordered, window, steps);
    Deliveries.EmptyQueue(channel, ordered, window, w.items, port);
  }
}
