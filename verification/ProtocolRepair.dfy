/** One repair round of the protocol, from any reachable world. */
module ProtocolRepair {
  import opened Lists
  import opened Sequence
  import opened SequenceBuffers
  import opened IntBuffers
  import opened Nacks
  import opened ChannelSpec
  import opened ReceiverRefinement
  import opened NackProofs
  import opened Protocol
  import opened ProtocolProofs
  import D = Delivery
  import Desks = DeskProofs
  import Ports = DeliveryProofs
  import Views = ReassemblyProofs
  import Repair
  import Runs = ReceiverRuns
  import S = ReceiverSpec
  import V = Reassembly

  /** The number of the newest packet that reached the receiver. */
  function LastPacket(w: World): int {
    Unwire(D.Total(w.items), Receiver(w).last)
  }

  /** The packets that reached the receiver ahead of its current sequence. */
  function ReceivedAhead(w: World): set<int> {
    set n | Progress(w) < n <= LastPacket(w) && Occupied(Receiver(w).received, Wire(n))
  }

  /** The received packets ahead and the groups of 33 in the window fit the nack budget. */
  predicate RepairBudget(w: World) {
    WithinBudget(ReceivedAhead(w), Progress(w), LastPacket(w) - 1, Receiver(w).window / 32)
  }

  /** How far down the nack walk gets. */
  function WalkFloor(w: World): int {
    Floor(ReceivedAhead(w), Progress(w), LastPacket(w) - 1, Receiver(w).window / 32)
  }

  /** No packet that is missing lies at or below the floor of the nack walk. */
  predicate WindowCovered(w: World) {
    forall n :: Progress(w) < n <= WalkFloor(w) && n < LastPacket(w) ==> n in ReceivedAhead(w)
  }

  lemma {:induction false} BudgetShows(w: World, ordered: bool, window: WindowSize, v: V.View, arrived: set<int>)
    requires window <= MAX_SPAN && Shows(w, ordered, window, v, arrived) && Progress(w) == v.current
    ensures LastPacket(w) == v.last && (WindowCovered(w) <==> Repair.Covered(v, window))
    ensures RepairBudget(w) ==> WindowCovered(w)
  {
    LastIs(w, ordered, window, v, arrived);
    AheadIs(w, v);
    SameBudget(w, v, window);
    if RepairBudget(w) { Repair.BudgetCovers(v, window); }
  }

  lemma {:induction false} LastIs(w: World, ordered: bool, window: WindowSize, v: V.View, arrived: set<int>)
    requires window <= MAX_SPAN && Shows(w, ordered, window, v, arrived)
    ensures LastPacket(w) == v.last && Flags(Receiver(w).received, v.received)
    ensures forall n :: n in v.received ==> v.current < n <= v.last
  {
    UnwireRecent(D.Total(w.items), v.last);
  }

  lemma SameBudget(w: World, v: V.View, window: WindowSize)
    requires ReceivedAhead(w) == v.received && Progress(w) == v.current && LastPacket(w) == v.last
    requires Receiver(w).window == window
    ensures RepairBudget(w) <==> Repair.NackBudget(v, window)
    ensures WindowCovered(w) <==> Repair.Covered(v, window)
  {
    assert WalkFloor(w) == NackFloor(v, window);
  }

  lemma {:induction false} AheadIs(w: World, v: V.View)
    requires Flags(Receiver(w).received, v.received) && Progress(w) == v.current && LastPacket(w) == v.last
    requires v.last <= v.current + MAX_SPAN && forall n :: n in v.received ==> v.current < n <= v.last
    ensures ReceivedAhead(w) == v.received
  {
    forall n ensures n in ReceivedAhead(w) <==> n in v.received {
      if v.current < n <= v.last { FlagRead(Receiver(w).received, v.received, n); }
    }
  }

  function Deliveries(order: seq<Flight>): seq<Step> {
    seq(|order|, i requires 0 <= i < |order| => Deliver(order[i]))
  }

  function Numbers(order: seq<Flight>): seq<int>
    requires forall f :: f in order ==> f.Data?
  {
    seq(|order|, i requires 0 <= i < |order| => order[i].n)
  }

  function ArriveSteps(numbers: seq<int>): seq<D.Step> {
    seq(|numbers|, i requires 0 <= i < |numbers| => D.Arrive(numbers[i]))
  }

  /** The nacks are sent and received, everything nacked is sent again, and `order` is delivered. */
  function RepairSteps(nacks: seq<Nack>, order: seq<Flight>): seq<Step> {
    if nacks == [] then [] else [Step.Nack, Deliver(NackList(nacks)), Resend] + Deliveries(order)
  }

  /** The datagrams that answer a list of nacks. */
  ghost function Answers(w: World, nacks: seq<Nack>): set<Flight> {
    set s | s in Expand(nacks) :: Launch(D.Total(w.items), Answer(w.sender, w.channel, s))
  }

  // ---- running steps one after the other ----

  /** One step more. */
  lemma {:induction false} RunStep(w: World, steps: seq<Step>, step: Step)
    ensures Run(w, steps + [step]) == Apply(Run(w, steps), step)
    ensures Possible(w, steps + [step]) <==> Possible(w, steps) && Enabled(Run(w, steps), step)
  {
    assert (steps + [step])[..|steps|] == steps;
  }

  ghost function Applier(): (World, Step) -> World {
    (w, step) => Apply(w, step)
  }

  lemma {:induction false} RunIsFold(w: World, steps: seq<Step>)
    ensures Run(w, steps) == Fold(Applier(), w, steps)
    decreases steps
  {
    if steps != [] { RunIsFold(w, steps[..|steps| - 1]); }
  }

  lemma {:induction false} RunSplit(w: World, a: seq<Step>, b: seq<Step>)
    ensures Run(w, a + b) == Run(Run(w, a), b)
  {
    RunIsFold(w, a);
    RunIsFold(Run(w, a), b);
    RunIsFold(w, a + b);
    FoldSplit(Applier(), w, a, b);
  }

  lemma {:induction false} RunConcat(w: World, a: seq<Step>, b: seq<Step>)
    ensures Run(w, a + b) == Run(Run(w, a), b)
    ensures Possible(w, a + b) <==> Possible(w, a) && Possible(Run(w, a), b)
    decreases b
  {
    RunSplit(w, a, b);
    if b == [] {
      assert a + b == a;
    } else {
      var before := b[..|b| - 1];
      RunConcat(w, a, before);
      PossibleLast(w, a + b, a + before);
      PossibleLast(Run(w, a), b, before);
    }
  }

  lemma {:induction false} PossibleLast(w: World, steps: seq<Step>, before: seq<Step>)
    requires steps != [] && steps[..|steps| - 1] == before
    ensures Possible(w, steps) <==> Possible(w, before) && Enabled(Run(w, before), steps[|steps| - 1])
  {
  }

  /** `steps` lead from `w` to `r`. */
  ghost predicate Leads(w: World, steps: seq<Step>, r: World) {
    Possible(w, steps) && Run(w, steps) == r
  }

  lemma {:induction false} LeadsOn(w: World, steps: seq<Step>, r: World, step: Step)
    requires Leads(w, steps, r) && Enabled(r, step)
    ensures Leads(w, steps + [step], Apply(r, step))
  {
    RunStep(w, steps, step);
  }

  // ---- delivering the answers ----

  /** What delivering data leaves as it is. */
  ghost predicate Unmoved(w: World, r: World) {
    r.net == w.net && r.items == w.items && r.channel == w.channel && r.sender == w.sender
  }

  /** The flights in `order` can be delivered, which keeps the invariant and last. */
  ghost predicate Delivers(w: World, ordered: bool, window: WindowSize, steps: seq<D.Step>, order: seq<Flight>)
    requires forall f :: f in order ==> f.Data?
  {
    var r, more := Run(w, Deliveries(order)), steps + ArriveSteps(Numbers(order));
    && Possible(w, Deliveries(order)) && Unmoved(w, r) && Inv(r, ordered, window, more)
    && ViewOf(ordered, window, more).last == ViewOf(ordered, window, steps).last
  }

  /** ... when they are all packets between current and last. */
  lemma {:induction false} DeliverAll(w: World, ordered: bool, window: WindowSize, steps: seq<D.Step>,
                                      order: seq<Flight>)
    requires Inv(w, ordered, window, steps)
    requires var v := ViewOf(ordered, window, steps);
             forall f :: f in order ==> f in w.net && f.Data? && v.current < f.n <= v.last
    ensures Delivers(w, ordered, window, steps, order)
    decreases order
  {
    if order == [] {
      assert Deliveries(order) == [] && steps + ArriveSteps(Numbers(order)) == steps;
    } else {
      var before, flight := order[..|order| - 1], order[|order| - 1];
      assert order == before + [flight];
      assert flight in order && forall f :: f in before ==> f in order;
      DeliverAll(w, ordered, window, steps, before);
      PortShows(w, ordered, window, steps);
      DeliverMore(w, ordered, window, steps, before, flight);
    }
  }

  lemma {:induction false} DeliverMore(w: World, ordered: bool, window: WindowSize, steps: seq<D.Step>,
                                       before: seq<Flight>, flight: Flight)
    requires (forall f :: f in before ==> f.Data?) && Delivers(w, ordered, window, steps, before)
    requires flight in w.net && flight.Data?
    requires var v := ViewOf(ordered, window, steps); flight.n <= v.last <= flight.n + MAX_SPAN
    ensures Delivers(w, ordered, window, steps, before + [flight])
  {
    var more := steps + ArriveSteps(Numbers(before));
    DeliverOne(Run(w, Deliveries(before)), ordered, window, more, flight);
    DeliveriesStep(w, before, flight);
    ArrivalsMore(steps, before, flight);
  }

  lemma ArrivalsMore(steps: seq<D.Step>, before: seq<Flight>, flight: Flight)
    requires (forall f :: f in before ==> f.Data?) && (forall f :: f in before + [flight] ==> f.Data?) && flight.Data?
    ensures steps + ArriveSteps(Numbers(before)) + [D.Arrive(flight.n)]
         == steps + ArriveSteps(Numbers(before + [flight]))
  {
    assert Numbers(before + [flight]) == Numbers(before) + [flight.n];
    assert ArriveSteps(Numbers(before) + [flight.n]) == ArriveSteps(Numbers(before)) + [D.Arrive(flight.n)];
  }

  lemma DeliveriesStep(w: World, before: seq<Flight>, flight: Flight)
    requires Possible(w, Deliveries(before)) && Enabled(Run(w, Deliveries(before)), Deliver(flight))
    ensures Possible(w, Deliveries(before + [flight]))
    ensures Run(w, Deliveries(before + [flight])) == Apply(Run(w, Deliveries(before)), Deliver(flight))
  {
    RunStep(w, Deliveries(before), Deliver(flight));
    assert Deliveries(before + [flight]) == Deliveries(before) + [Deliver(flight)];
  }

  lemma {:induction false} DeliverOne(w: World, ordered: bool, window: WindowSize, steps: seq<D.Step>, flight: Flight)
    requires Inv(w, ordered, window, steps) && flight in w.net && flight.Data?
    requires var v := ViewOf(ordered, window, steps); flight.n <= v.last <= flight.n + MAX_SPAN
    ensures Enabled(w, Deliver(flight)) && Unmoved(w, Apply(w, Deliver(flight)))
    ensures Inv(Apply(w, Deliver(flight)), ordered, window, steps + [D.Arrive(flight.n)])
    ensures ViewOf(ordered, window, steps + [D.Arrive(flight.n)]).last == ViewOf(ordered, window, steps).last
  {
    var more := steps + [D.Arrive(flight.n)];
    PortShows(w, ordered, window, steps);
    DeliverKeeps(w, ordered, window, steps, flight);
    assert more[..|steps|] == steps;
    Ports.EventsStep(more);
    Runs.HeldArrived(ordered, window, D.Events(steps));
    Views.ReceiveAdvances(ViewOf(ordered, window, steps), ordered, window, flight.n);
  }

  // ---- the answers ----

  /** A packet that is missing and above the floor of the nack walk. */
  predicate Asked(v: V.View, window: WindowSize, n: int) {
    Gap(v, n) && NackFloor(v, window) < n < v.last
  }

  /** The answers to the nacks of a receiver are the packets it misses above the floor of the walk, each
      with its own number. */
  lemma {:induction false} AnswersAreTheGaps(w: World, ordered: bool, window: WindowSize, v: V.View, arrived: set<int>)
    requires window <= MAX_SPAN && SenderInv(w) && Shows(w, ordered, window, v, arrived)
    ensures forall f :: f in Answers(w, S.CreateNacks(Receiver(w)).0) <==>
              f.Data? && Asked(v, window, f.n) && f.bytes == D.Packet(w.channel, w.items, f.n)
  {
    var nacks, total := S.CreateNacks(Receiver(w)).0, D.Total(w.items);
    GapsAreNamed(w, ordered, window, v, arrived);
    forall f ensures f in Answers(w, nacks) <==>
                     f.Data? && Asked(v, window, f.n) && f.bytes == D.Packet(w.channel, w.items, f.n) {
      if f in Answers(w, nacks) {
        var s :| s in Expand(nacks) && f == Launch(total, Answer(w.sender, w.channel, s));
        var n := Unwire(total, s);
        assert n in Named(nacks, total);
        NamedIsWire(w, ordered, window, v, arrived, s);
        AnswerIsRecent(w, n);
      }
      if f.Data? && Asked(v, window, f.n) && f.bytes == D.Packet(w.channel, w.items, f.n) {
        assert f.n in Named(nacks, total);
        var s :| s in Expand(nacks) && Unwire(total, s) == f.n;
        NamedIsWire(w, ordered, window, v, arrived, s);
        AnswerIsRecent(w, f.n);
      }
    }
  }

  lemma {:induction false} NamedIsWire(w: World, ordered: bool, window: WindowSize, v: V.View, arrived: set<int>,
                                       s: U16)
    requires window <= MAX_SPAN && Shows(w, ordered, window, v, arrived) && s in Expand(S.CreateNacks(Receiver(w)).0)
    ensures Wire(Unwire(D.Total(w.items), s)) == s
  {
    NacksIgnorePublished(Receiver(w), w.port.popped);
    var m := NamedBetween(Runs.Prefixed(Receiver(w), w.port.popped), v, Ports.Pay(w.channel, w.items), s);
  }

  lemma {:induction false} GapsAreNamed(w: World, ordered: bool, window: WindowSize, v: V.View, arrived: set<int>)
    requires window <= MAX_SPAN && Shows(w, ordered, window, v, arrived)
    ensures forall n :: n in Named(S.CreateNacks(Receiver(w)).0, D.Total(w.items)) <==> Asked(v, window, n)
  {
    NacksIgnorePublished(Receiver(w), w.port.popped);
    NamedAreAsked(Runs.Prefixed(Receiver(w), w.port.popped), v, Ports.Pay(w.channel, w.items), D.Total(w.items));
  }

  lemma {:induction false} NamedAreAsked<P>(s: S.State<P>, v: V.View, pay: int -> P, newest: int)
    requires Rep(s, v, pay) && v.last <= newest <= v.current + MAX_AGE
    ensures forall n :: n in Named(S.CreateNacks(s).0, newest) <==> Asked(v, s.window, n)
  {
    NamedAreTheGaps(s, v, pay, newest);
  }

  lemma {:induction false} NumbersOfAnswers(w: World, v: V.View, window: WindowSize, order: seq<Flight>)
    requires forall f :: f in order <==>
               f.Data? && Asked(v, window, f.n) && f.bytes == D.Packet(w.channel, w.items, f.n)
    ensures forall n :: n in Numbers(order) <==> Asked(v, window, n)
  {
    forall n ensures n in Numbers(order) <==> Asked(v, window, n) {
      if n in Numbers(order) {
        var i :| 0 <= i < |order| && Numbers(order)[i] == n;
        assert order[i] in order;
      }
      if Asked(v, window, n) {
        assert Data(n, D.Packet(w.channel, w.items, n)) in order;
        var i :| 0 <= i < |order| && order[i] == Data(n, D.Packet(w.channel, w.items, n));
        assert Numbers(order)[i] == n;
      }
    }
  }

  /** Sending the nacks, receiving them and resending puts all answers into the network. */
  lemma {:induction false} RequestAll(w: World, ordered: bool, window: WindowSize, steps: seq<D.Step>)
    returns (w3: World)
    requires Inv(w, ordered, window, steps) && S.CreateNacks(Receiver(w)).0 != []
    ensures var nacks := S.CreateNacks(Receiver(w)).0; var round := [Step.Nack, Deliver(NackList(nacks)), Resend];
            && Possible(w, round) && w3 == Run(w, round) && Inv(w3, ordered, window, steps)
            && Answers(w, nacks) <= w3.net && w3.port == w.port && w3.items == w.items && w3.channel == w.channel
  {
    var nacks := S.CreateNacks(Receiver(w)).0;
    var w1 := Apply(w, Step.Nack);
    var w2 := Apply(w1, Deliver(NackList(nacks)));
    w3 := Apply(w2, Resend);
    RequestMoves(w, w1, w2, w3, nacks);
    RequestKeeps(w, w1, w2, w3, ordered, window, steps, nacks);
    ThreeLead(w, w1, w2, w3, NackList(nacks));
  }

  lemma {:induction false} RequestMoves(w: World, w1: World, w2: World, w3: World, nacks: seq<Nack>)
    requires nacks == S.CreateNacks(Receiver(w)).0 != [] && w1 == Apply(w, Step.Nack)
    requires w2 == Apply(w1, Deliver(NackList(nacks))) && w3 == Apply(w2, Resend)
    ensures Enabled(w1, Deliver(NackList(nacks))) && Answers(w, nacks) <= w3.net
    ensures w3.port == w.port && w3.items == w.items && w3.channel == w.channel
  {
  }

  lemma {:induction false} RequestKeeps(w: World, w1: World, w2: World, w3: World, ordered: bool, window: WindowSize,
                                        steps: seq<D.Step>, nacks: seq<Nack>)
    requires Inv(w, ordered, window, steps) && w1 == Apply(w, Step.Nack) && Enabled(w1, Deliver(NackList(nacks)))
    requires w2 == Apply(w1, Deliver(NackList(nacks))) && w3 == Apply(w2, Resend)
    ensures Inv(w3, ordered, window, steps)
  {
    NackKeeps(w, ordered, window, steps);
    DeliverNacksKeeps(w1, ordered, window, steps, NackList(nacks));
    ResendKeeps(w2, ordered, window, steps);
  }

  lemma {:induction false} ThreeLead(w: World, w1: World, w2: World, w3: World, nacks: Flight)
    requires w1 == Apply(w, Step.Nack) && Enabled(w1, Deliver(nacks))
    requires w2 == Apply(w1, Deliver(nacks)) && w3 == Apply(w2, Resend)
    ensures Leads(w, [Step.Nack, Deliver(nacks), Resend], w3)
  {
    LeadsOn(w, [], w, Step.Nack);
    assert [] + [Step.Nack] == [Step.Nack];
    LeadsOn(w, [Step.Nack], w1, Deliver(nacks));
    assert [Step.Nack] + [Deliver(nacks)] == [Step.Nack, Deliver(nacks)];
    LeadsOn(w, [Step.Nack, Deliver(nacks)], w2, Resend);
    assert [Step.Nack, Deliver(nacks)] + [Resend] == [Step.Nack, Deliver(nacks), Resend];
  }

  // ---- the round ----

  lemma {:induction false} EventsOfArrivals(steps: seq<D.Step>, numbers: seq<int>)
    ensures D.Events(steps + ArriveSteps(numbers)) == D.Events(steps) + Repair.Arrivals(numbers)
    decreases numbers
  {
    if numbers == [] {
      assert steps + ArriveSteps(numbers) == steps && D.Events(steps) + Repair.Arrivals([]) == D.Events(steps);
    } else {
      var before, n := numbers[..|numbers| - 1], numbers[|numbers| - 1];
      var more, events := steps + ArriveSteps(before), D.Events(steps) + Repair.Arrivals(before);
      EventsOfArrivals(steps, before);
      Ports.StepMore(true, 0, more, D.Arrive(n));
      LastArrival(steps, D.Events(steps), numbers);
    }
  }

  lemma LastArrival(steps: seq<D.Step>, events: seq<Runs.Event>, numbers: seq<int>)
    requires numbers != []
    ensures var before, n := numbers[..|numbers| - 1], numbers[|numbers| - 1];
            && steps + ArriveSteps(numbers) == steps + ArriveSteps(before) + [D.Arrive(n)]
            && events + Repair.Arrivals(numbers) == events + Repair.Arrivals(before) + [Runs.Arrive(n)]
  {
  }

  lemma SomeMember<T>(list: seq<T>)
    ensures list == [] || exists x :: x in list
  {
    if list != [] { assert list[0] in list; }
  }

  /** The repair steps can be taken, and the receiving end has then received the answers. */
  lemma {:induction false} RoundRuns(w: World, ordered: bool, window: WindowSize, steps: seq<D.Step>,
                                     order: seq<Flight>)
    requires Inv(w, ordered, window, steps)
    requires var v := ViewOf(ordered, window, steps);
             forall f :: f in order ==>
               f in Answers(w, S.CreateNacks(Receiver(w)).0) && f.Data? && v.current < f.n <= v.last
    ensures var round := RepairSteps(S.CreateNacks(Receiver(w)).0, order);
            && Possible(w, round) && Run(w, round).items == w.items && Run(w, round).channel == w.channel
            && Inv(Run(w, round), ordered, window, steps + ArriveSteps(Numbers(order)))
  {
    var nacks := S.CreateNacks(Receiver(w)).0;
    if nacks == [] {
      assert Answers(w, nacks) == {};
      SomeMember(order);
      assert steps + ArriveSteps(Numbers(order)) == steps;
    } else {
      var w3 := RequestAll(w, ordered, window, steps);
      DeliverAll(w3, ordered, window, steps, order);
      RunConcat(w, [Step.Nack, Deliver(NackList(nacks)), Resend], Deliveries(order));
    }
  }

  /** One loss-free repair round, in any reachable world, with requests pending or not: send the nacks,
      resend what is asked for and deliver the answers in any order and any number of times.  Every step is
      possible.  The receiver is then current up to its last packet if and only if no packet it missed lay
      at or below the floor of its nack walk, as is the case within the nack budget; then it has published
      everything up to its last packet.  In any case what it published (`delivered`) it published once, and
      in order if the channel is ordered. */
  lemma {:induction false} RepairRoundCloses(channel: Byte, ordered: bool, window: WindowSize, steps: seq<Step>,
                                             order: seq<Flight>)
    returns (delivered: seq<int>)
    requires window <= MAX_SPAN && Possible(Start(channel, ordered, window), steps)
    requires var w := Run(Start(channel, ordered, window), steps);
             forall f :: f in order <==> f in Answers(w, S.CreateNacks(Receiver(w)).0)
    ensures var w := Run(Start(channel, ordered, window), steps);
            var round := RepairSteps(S.CreateNacks(Receiver(w)).0, order);
            var r := Run(w, round);
            && Possible(Start(channel, ordered, window), steps + round)
            && r == Run(Start(channel, ordered, window), steps + round) && r.items == w.items
            && Closes(w, r, delivered) && (RepairBudget(w) ==> WindowCovered(w))
    ensures NoDuplicates(delivered) && (ordered ==> Views.Increasing(delivered))
  {
    var w := Run(Start(channel, ordered, window), steps);
    RunKeeps(channel, ordered, window, steps);
    delivered := RepairCloses(w, ordered, window, PortSteps(steps), order);
    RunConcat(Start(channel, ordered, window), steps, RepairSteps(S.CreateNacks(Receiver(w)).0, order));
  }

  /** From `w` the window has closed in `r` exactly when the nack walk covered it; `delivered` are the
      packets published so far. */
  ghost predicate Closes(w: World, r: World, delivered: seq<int>) {
    && Receiver(r).last == Receiver(w).last
    && (Receiver(r).current == Receiver(r).last <==> WindowCovered(w))
    && Carries(r.port.popped + Receiver(r).published, delivered, Ports.Pay(w.channel, w.items))
    && (WindowCovered(w) ==> Progress(r) == LastPacket(w) && forall n :: n in delivered <==> 1 <= n <= LastPacket(w))
  }

  lemma {:induction false} RepairCloses(w: World, ordered: bool, window: WindowSize, steps: seq<D.Step>,
                                        order: seq<Flight>)
    returns (delivered: seq<int>)
    requires Inv(w, ordered, window, steps)
    requires forall f :: f in order <==> f in Answers(w, S.CreateNacks(Receiver(w)).0)
    ensures var round := RepairSteps(S.CreateNacks(Receiver(w)).0, order);
            Possible(w, round) && Run(w, round).items == w.items && Closes(w, Run(w, round), delivered)
    ensures RepairBudget(w) ==> WindowCovered(w)
    ensures NoDuplicates(delivered) && (ordered ==> Views.Increasing(delivered))
  {
    var v, events := ViewOf(ordered, window, steps), D.Events(steps);
    var r := Run(w, RepairSteps(S.CreateNacks(Receiver(w)).0, order));
    PortShows(w, ordered, window, steps);
    BudgetShows(w, ordered, window, v, Runs.Arrived(events));
    AnswersAreTheGaps(w, ordered, window, v, Runs.Arrived(events));
    FloorBounds(v.received, v.current, v.last - 1, window / 32);
    NumbersOfAnswers(w, v, window, order);
    RoundRuns(w, ordered, window, steps, order);
    delivered := ReceiverCloses(w, r, ordered, window, steps, Numbers(order));
  }

  /** The receiving end after it has received the answers. */
  lemma {:induction false} ReceiverCloses(w: World, r: World, ordered: bool, window: WindowSize, steps: seq<D.Step>,
                                          numbers: seq<int>)
    returns (delivered: seq<int>)
    requires Inv(w, ordered, window, steps) && Inv(r, ordered, window, steps + ArriveSteps(numbers))
    requires r.items == w.items && r.channel == w.channel
    requires var v := ViewOf(ordered, window, steps);
             LastPacket(w) == v.last && (WindowCovered(w) <==> Repair.Covered(v, window)) &&
             forall n :: n in numbers <==> Asked(v, window, n)
    ensures Closes(w, r, delivered)
    ensures NoDuplicates(delivered) && (ordered ==> Views.Increasing(delivered))
  {
    var v, events, pay := ViewOf(ordered, window, steps), D.Events(steps), Ports.Pay(w.channel, w.items);
    Ports.ReceiverIs(w.channel, ordered, window, w.items, steps);
    Ports.ReceiverIs(w.channel, ordered, window, w.items, steps + ArriveSteps(numbers));
    EventsOfArrivals(steps, numbers);
    Repair.NamesTheGaps(ordered, window, events, pay);
    delivered := Repair.RepairRound(ordered, window, events, pay, numbers);
  }

  // ---- taking everything ----

  function Takes(count: nat): seq<Step> {
    seq(count, _ => Take)
  }

  /** Enough takes empty the queue and change nothing else that matters here. */
  lemma {:induction false} TakesDrain(w: World, count: nat)
    ensures var r := Run(w, Takes(count));
            && Possible(w, Takes(count)) && r.items == w.items && r.channel == w.channel
            && Receiver(r).current == Receiver(w).current
            && |Receiver(r).published| == if count < |Receiver(w).published| then |Receiver(w).published| - count else 0
  {
    if count == 0 {
      assert Takes(0) == [];
    } else {
      TakesDrain(w, count - 1);
      RunStep(w, Takes(count - 1), Take);
      assert Takes(count) == Takes(count - 1) + [Take];
      TakeShortens(Run(w, Takes(count - 1)));
    }
  }

  lemma TakeShortens(w: World)
    ensures var r := Apply(w, Take);
            && r.items == w.items && r.channel == w.channel && Receiver(r).current == Receiver(w).current
            && |Receiver(r).published| == if Receiver(w).published == [] then 0 else |Receiver(w).published| - 1
  {
  }

  /** End-to-end completeness.  In any reachable world whose window the nack walk covers: after one
      loss-free repair round and enough takes to empty the queue, the application has taken every message
      whose packets are all numbered up to the last packet that had reached the receiver.  On an ordered
      channel, when that was the last packet sent and no fragments revive a message, it has taken exactly
      the messages sent. */
  lemma {:induction false} RepairedThenTaken(channel: Byte, ordered: bool, window: WindowSize, steps: seq<Step>,
                                             order: seq<Flight>, count: nat)
    requires window <= MAX_SPAN && Possible(Start(channel, ordered, window), steps)
    requires var w := Run(Start(channel, ordered, window), steps);
             && WindowCovered(w) && (forall f :: f in order <==> f in Answers(w, S.CreateNacks(Receiver(w)).0))
             && count >= |Receiver(Run(w, RepairSteps(S.CreateNacks(Receiver(w)).0, order))).published|
    ensures var w := Run(Start(channel, ordered, window), steps);
            var all := steps + RepairSteps(S.CreateNacks(Receiver(w)).0, order) + Takes(count);
            var r := Run(Start(channel, ordered, window), all);
            && Possible(Start(channel, ordered, window), all) && r.items == w.items
            && HandedUpTo(r, ordered, D.Moves(ordered, window, PortSteps(all)), LastPacket(w))
  {
    var start := Start(channel, ordered, window);
    var w := Run(start, steps);
    var round := RepairSteps(S.CreateNacks(Receiver(w)).0, order);
    var _ := RepairRoundCloses(channel, ordered, window, steps, order);
    ThenDrained(start, steps + round, count);
    TakenAll(channel, ordered, window, steps + round + Takes(count), LastPacket(w));
  }

  lemma {:induction false} ThenDrained(start: World, steps: seq<Step>, count: nat)
    requires Possible(start, steps) && count >= |Receiver(Run(start, steps)).published|
    ensures var w, r := Run(start, steps), Run(start, steps + Takes(count));
            && Possible(start, steps + Takes(count)) && r.items == w.items && Progress(r) == Progress(w)
            && Receiver(r).published == []
  {
    TakesDrain(Run(start, steps), count);
    RunConcat(start, steps, Takes(count));
  }

  /** The messages handed out are messages sent, and include all that end at packet `last` or before; on an
      ordered channel, when `last` is the last packet sent and no message is revived, they are exactly the
      messages sent. */
  ghost predicate HandedUpTo(r: World, ordered: bool, moves: seq<D.Move>, last: int) {
    var log := D.DeskRun(r.items, moves).log;
    && Ports.Known(r.items, log) && r.port.taken == D.Bodies(r.items, log)
    && (forall j :: 0 <= j < |r.items| && D.First(r.items, j + 1) <= last + 1 ==> j in log)
    && (ordered && last == D.Total(r.items) && !D.Revived(r.items, moves) ==> r.port.taken == Sent(r))
  }

  /** A run that leaves the queue empty has handed out every message up to the current packet. */
  lemma {:induction false} TakenAll(channel: Byte, ordered: bool, window: WindowSize, steps: seq<Step>, last: int)
    requires window <= MAX_SPAN && Possible(Start(channel, ordered, window), steps)
    requires var r := Run(Start(channel, ordered, window), steps); Receiver(r).published == [] && Progress(r) == last
    ensures HandedUpTo(Run(Start(channel, ordered, window), steps), ordered,
                       D.Moves(ordered, window, PortSteps(steps)), last)
  {
    var r, port := Run(Start(channel, ordered, window), steps), PortSteps(steps);
    var moves := D.Moves(ordered, window, port);
    EndToEnd(channel, ordered, window, steps);
    EmptyQueueHasAll(channel, ordered, window, steps);
    RunKeeps(channel, ordered, window, steps);
    PortShows(r, ordered, window, port);
    ItemsOut(ordered, window, r.items, port, last);
    if ordered && last == D.Total(r.items) && !D.Revived(r.items, moves) {
      AllTaken(r, D.DeskRun(r.items, moves).log);
    }
  }

  /** When all packets up to the current one are taken, so are all items that end there or before. */
  lemma {:induction false} ItemsOut(ordered: bool, window: WindowSize, items: seq<D.Item>, steps: seq<D.Step>,
                                    last: int)
    requires window <= MAX_SPAN && Runs.SkipFree(window, D.Events(steps))
    requires last == ViewOf(ordered, window, steps).current
    requires var moves := D.Moves(ordered, window, steps);
             forall n :: n in D.Ins(moves) && n <= last ==> n in D.Outs(moves)
    ensures forall j :: 0 <= j < |items| && D.First(items, j + 1) <= last + 1 ==>
              D.AllOut(items, j, D.Moves(ordered, window, steps))
  {
    forall j | 0 <= j < |items| && D.First(items, j + 1) <= last + 1
      ensures D.AllOut(items, j, D.Moves(ordered, window, steps))
    {
      forall n | n in D.PacketsOf(items, j) ensures n in D.Outs(D.Moves(ordered, window, steps)) {
        UpToCurrent(ordered, window, steps, n);
      }
    }
  }

  /** Every packet up to the current one has arrived. */
  lemma {:induction false} UpToCurrent(ordered: bool, window: WindowSize, steps: seq<D.Step>, n: int)
    requires window <= MAX_SPAN && Runs.SkipFree(window, D.Events(steps))
    requires 1 <= n <= ViewOf(ordered, window, steps).current
    ensures n in D.Ins(D.Moves(ordered, window, steps))
  {
    Runs.SkipFreeWhole(ordered, window, D.Events(steps));
    Runs.ArrivedMembers(D.Events(steps), n);
    Ports.InsAreArrivals(ordered, window, steps, n);
  }

  lemma {:induction false} AllTaken(r: World, log: seq<nat>)
    requires Ports.Known(r.items, log) && r.port.taken == D.Bodies(r.items, log)
    requires Desks.Shape(log) && NoDuplicates(log)
    requires forall j :: 0 <= j < |r.items| && D.First(r.items, j + 1) <= D.Total(r.items) + 1 ==> j in log
    ensures r.port.taken == Sent(r)
  {
    Desks.OnceIsCounting(log);
    forall j | 0 <= j < |r.items| ensures j in log {
      Desks.FirstGrows(r.items, j + 1, |r.items|);
    }
    assert |log| == |r.items| by {
      if |r.items| > 0 { assert |r.items| - 1 in log; }
      if |log| > 0 { assert log[|log| - 1] < |r.items|; }
    }
  }
}
