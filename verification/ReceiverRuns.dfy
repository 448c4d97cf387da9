/** Whole runs of the wire-level receiver: what is published after any sequence of arrivals. */
module ReceiverRuns {
  import opened Lists
  import opened Sequence
  import opened SequenceBuffers
  import opened ReassemblyProofs
  import opened ReceiverRefinement
  import S = ReceiverSpec
  import V = Reassembly

  /** `Arrive(n)`: a datagram with packet `n` is received.  `Update`: the per-frame call to publish. */
  datatype Event = Arrive(n: int) | Update

  function Init<T>(list: seq<T>): seq<T>
    requires list != []
  {
    list[..|list| - 1]
  }

  function Last<T>(list: seq<T>): T
    requires list != []
  {
    list[|list| - 1]
  }

  function Step<P>(s: S.State<P>, event: Event, pay: int -> P): S.State<P> {
    match event
    case Arrive(n) => S.ReceivePacket(s, Wire(n), pay(n)).0
    case Update => S.Publish(s)
  }

  /** The receiver after `events`, when packet `n` carries the payload `pay(n)`. */
  function Run<P>(ordered: bool, window: WindowSize, events: seq<Event>, pay: int -> P): S.State<P> {
    if events == [] then S.Initial(ordered, window)
    else Step(Run(ordered, window, Init(events), pay), Last(events), pay)
  }

  function ViewRun(ordered: bool, window: nat, events: seq<Event>): V.View {
    if events == [] then V.START else ViewStep(ordered, window, ViewRun(ordered, window, Init(events)), Last(events))
  }

  function ViewStep(ordered: bool, window: nat, v: V.View, event: Event): V.View {
    match event
    case Arrive(n) => V.Receive(v, ordered, window, n)
    case Update => V.Publish(v, ordered, window)
  }

  /** The packets that arrived; the first packet is number 1. */
  function Arrived(events: seq<Event>): set<int> {
    if events == [] then {}
    else Arrived(Init(events)) + if Last(events).Arrive? && Last(events).n >= 1 then {Last(events).n} else {}
  }

  lemma {:induction false} ArrivedMembers(events: seq<Event>, n: int)
    ensures n in Arrived(events) <==> n >= 1 && Arrive(n) in events
  {
    if events != [] {
      ArrivedMembers(Init(events), n);
      assert events == Init(events) + [Last(events)];
    }
  }

  /** Every arrival is at most MAX_AGE behind and `window` ahead of the longest prefix so far. */
  ghost predicate SkipFree(window: nat, events: seq<Event>) {
    events == [] ||
    (SkipFree(window, Init(events)) &&
     (Last(events).Arrive? ==>
        forall k :: IsPrefix(Arrived(Init(events)), k) ==> k - MAX_AGE <= Last(events).n <= k + window))
  }

  /** Every arrival is at most MAX_AGE behind and MAX_SPAN ahead of the current sequence. */
  ghost predicate AllRecent(ordered: bool, window: nat, events: seq<Event>) {
    events == [] ||
    (AllRecent(ordered, window, Init(events)) &&
     (Last(events).Arrive? ==> Recent(V.Skip(ViewRun(ordered, window, Init(events)), window), Last(events).n)))
  }

  lemma StartRep<P>(ordered: bool, window: WindowSize, pay: int -> P)
    ensures Rep(S.Initial<P>(ordered, window), V.START, pay)
  {
  }

  lemma {:induction false} RunSimulates<P>(ordered: bool, window: WindowSize, events: seq<Event>, pay: int -> P)
    requires window <= MAX_AGE && AllRecent(ordered, window, events)
    ensures var s, v := Run(ordered, window, events, pay), ViewRun(ordered, window, events);
            Rep(s, v, pay) && Safe(v, ordered) && s.ordered == ordered && s.window == window
  {
    if events == [] {
      StartRep(ordered, window, pay);
    } else {
      RunSimulates(ordered, window, Init(events), pay);
      var s, v := Run(ordered, window, Init(events), pay), ViewRun(ordered, window, Init(events));
      match Last(events) {
        case Arrive(n) =>
          ReceiveSimulates(s, v, pay, n);
          ReceiveSafe(v, ordered, window, n);
        case Update =>
          PublishSimulates(s, v, pay);
          PublishSafe(v, ordered, window);
      }
    }
  }

  lemma {:induction false} HeldArrived(ordered: bool, window: nat, events: seq<Event>)
    ensures var v := ViewRun(ordered, window, events);
            Safe(v, ordered) && forall n :: n in Held(v) ==> Arrive(n) in events
  {
    if events != [] {
      HeldArrived(ordered, window, Init(events));
      var v := ViewRun(ordered, window, Init(events));
      match Last(events) {
        case Arrive(n) => ReceiveSafe(v, ordered, window, n);
        case Update => PublishSafe(v, ordered, window);
      }
    }
  }

  /** In every run, with or without skips, a receiver publishes no packet twice and none that did not
      arrive, and an ordered receiver publishes packets in increasing order.  The published packets
      are `delivered`. */
  lemma PublishedOnceAndInOrder<P>(ordered: bool, window: WindowSize, events: seq<Event>, pay: int -> P)
    returns (delivered: seq<int>)
    requires window <= MAX_AGE && AllRecent(ordered, window, events)
    ensures Carries(Run(ordered, window, events, pay).published, delivered, pay)
    ensures NoDuplicates(delivered)
    ensures ordered ==> Increasing(delivered)
    ensures forall n :: n in delivered ==> Arrive(n) in events
  {
    RunSimulates(ordered, window, events, pay);
    HeldArrived(ordered, window, events);
    delivered := ViewRun(ordered, window, events).delivered;
  }

  // ---- runs without skips ----

  lemma {:induction false} SkipFreeWhole(ordered: bool, window: nat, events: seq<Event>)
    requires window <= MAX_SPAN && SkipFree(window, events)
    ensures AllRecent(ordered, window, events)
    ensures Whole(ViewRun(ordered, window, events), ordered, window, Arrived(events))
  {
    if events != [] {
      var before, event := Init(events), Last(events);
      SkipFreeWhole(ordered, window, before);
      var v, arrived := ViewRun(ordered, window, before), Arrived(before);
      assert event.Arrive? ==> IsPrefix(arrived, v.current);
      StepWhole(v, ordered, window, arrived, event);
    }
  }

  lemma {:induction false} StepWhole(v: V.View, ordered: bool, window: nat, arrived: set<int>, event: Event)
    requires window <= MAX_SPAN && Whole(v, ordered, window, arrived)
    requires event.Arrive? ==> v.current - MAX_AGE <= event.n <= v.current + window
    ensures var n := if event.Arrive? && event.n >= 1 then {event.n} else {};
            Whole(ViewStep(ordered, window, v, event), ordered, window, arrived + n)
    ensures event.Arrive? ==> Recent(V.Skip(v, window), event.n)
  {
    match event {
      case Arrive(n) =>
        ReceiveWhole(v, ordered, window, arrived, n);
        assert n < 1 ==> arrived + {} == arrived;
      case Update =>
        PublishWhole(v, ordered, window, arrived);
        assert arrived + {} == arrived;
    }
  }

  /** The packets 1 to k. */
  function UpTo(k: nat): seq<int> {
    seq(k, i => i + 1)
  }

  lemma {:induction false} IncreasingUpTo(list: seq<int>, k: nat)
    requires Increasing(list)
    requires forall n :: n in list <==> 1 <= n <= k
    ensures list == UpTo(k)
  {
    if list != [] {
      var rest, x := Init(list), Last(list);
      assert x in list;
      assert k in list;
      var i :| 0 <= i < |list| && list[i] == k;
      assert x == k;
      forall n ensures n in rest <==> 1 <= n <= k - 1 {
        if n in rest { assert n in list; }
        if 1 <= n <= k - 1 { assert n in list; }
      }
      IncreasingUpTo(rest, k - 1);
    } else {
      assert 1 !in list;
    }
  }

  /** Without skips an ordered receiver has published exactly the longest prefix, in order. */
  lemma OrderedView(window: nat, events: seq<Event>)
    requires window <= MAX_SPAN && SkipFree(window, events)
    ensures var v := ViewRun(true, window, events);
            IsPrefix(Arrived(events), v.current) && v.delivered == UpTo(v.current)
  {
    SkipFreeWhole(true, window, events);
    var v := ViewRun(true, window, events);
    forall n ensures n in v.delivered <==> 1 <= n <= v.current {
      if n in v.delivered { assert n in Held(v); }
      if 1 <= n <= v.current { assert n in Held(v); }
    }
    IncreasingUpTo(v.delivered, v.current);
  }

  /** An ordered receiver is a reassembly queue: without skips, its current sequence ends the longest
      prefix of what arrived and it has published exactly that prefix. */
  lemma OrderedDelivery<P>(window: WindowSize, events: seq<Event>, pay: int -> P) returns (k: nat)
    requires window <= MAX_SPAN && SkipFree(window, events)
    ensures IsPrefix(Arrived(events), k)
    ensures var s := Run(true, window, events, pay);
            s.current == Wire(k) && s.published == seq(k, i => pay(i + 1))
  {
    OrderedView(window, events);
    SkipFreeWhole(true, window, events);
    RunSimulates(true, window, events, pay);
    k := ViewRun(true, window, events).current;
  }

  /** An unordered receiver is prompt: without skips, each packet that arrived has been published
      exactly once unless it is at least `window` ahead of the longest prefix. */
  lemma UnorderedDelivery<P>(window: WindowSize, events: seq<Event>, pay: int -> P)
    returns (k: nat, delivered: seq<int>)
    requires window <= MAX_SPAN && SkipFree(window, events)
    ensures IsPrefix(Arrived(events), k)
    ensures Run(false, window, events, pay).current == Wire(k)
    ensures Carries(Run(false, window, events, pay).published, delivered, pay)
    ensures NoDuplicates(delivered)
    ensures forall n :: n in delivered ==> n in Arrived(events)
    ensures forall n :: n in Arrived(events) && n < k + window ==> n in delivered
  {
    SkipFreeWhole(false, window, events);
    RunSimulates(false, window, events, pay);
    var v := ViewRun(false, window, events);
    k, delivered := v.current, v.delivered;
    forall n | n in Arrived(events) ensures n in Held(v) {}
  }

  /** No sequence is skipped in a skip-free run. */
  lemma {:induction false} NothingSkipped<P>(ordered: bool, window: WindowSize, events: seq<Event>, pay: int -> P)
    requires window <= MAX_SPAN && SkipFree(window, events)
    ensures Run(ordered, window, events, pay).skipped == 0
  {
    if events != [] {
      NothingSkipped(ordered, window, Init(events), pay);
      SkipFreeWhole(ordered, window, Init(events));
      RunSimulates(ordered, window, Init(events), pay);
      var s, v := Run(ordered, window, Init(events), pay), ViewRun(ordered, window, Init(events));
      SkipTestIsExact(v.current, v.last, window);
      match Last(events) {
        case Arrive(n) =>
          ReceiveSimulates(s, v, pay, n);
        case Update =>
          PublishSimulates(s, v, pay);
      }
    }
  }

  // ---- taking from the queue ----

  /** The receiver as if `prefix` had not been taken from its queue. */
  function Prefixed<P>(s: S.State<P>, prefix: seq<P>): S.State<P> {
    s.(published := prefix + s.published)
  }

  lemma {:induction false} PublishAppends<P>(s: S.State<P>, prefix: seq<P>, sequence: U16, step: bool, budget: nat)
    ensures S.PublishFrom(Prefixed(s, prefix), sequence, step, budget)
         == Prefixed(S.PublishFrom(s, sequence, step, budget), prefix)
    decreases budget
  {
    if budget > 0 {
      if Occupied(s.received, sequence) {
        var s' := S.PublishOne(s, sequence, step);
        match s.buffered[Slot(sequence)] {
          case Some(data) => assert (prefix + s.published) + [data] == prefix + (s.published + [data]);
          case None =>
        }
        assert S.PublishOne(Prefixed(s, prefix), sequence, step) == Prefixed(s', prefix);
        PublishAppends(s', prefix, Next(sequence), step, budget - 1);
      } else {
        PublishAppends(s, prefix, Next(sequence), false, budget - 1);
      }
    }
  }

  lemma ReceiveAppends<P>(s: S.State<P>, prefix: seq<P>, sequence: U16, data: P)
    ensures S.ReceivePacket(Prefixed(s, prefix), sequence, data).0
         == Prefixed(S.ReceivePacket(s, sequence, data).0, prefix)
  {
    var s1 := S.Admit(S.Skip(s), sequence);
    assert S.Admit(S.Skip(Prefixed(s, prefix)), sequence) == Prefixed(s1, prefix);
    PublishAppends(S.Store(s1, sequence, data), prefix, s1.current, true, s1.window);
  }

  /** What was taken from the queue makes no difference to what happens next. */
  lemma StepAppends<P>(s: S.State<P>, prefix: seq<P>, event: Event, pay: int -> P)
    ensures Step(Prefixed(s, prefix), event, pay) == Prefixed(Step(s, event, pay), prefix)
  {
    match event {
      case Arrive(n) => ReceiveAppends(s, prefix, Wire(n), pay(n));
      case Update => PublishAppends(s, prefix, s.current, true, s.window);
    }
  }

  /** What has been published stays published. */
  lemma DeliveredGrows(ordered: bool, window: nat, events: seq<Event>)
    requires events != []
    ensures ViewRun(ordered, window, Init(events)).delivered <= ViewRun(ordered, window, events).delivered
  {
    HeldArrived(ordered, window, Init(events));
    var v := ViewRun(ordered, window, Init(events));
    match Last(events) {
      case Arrive(n) => ReceiveSafe(v, ordered, window, n);
      case Update => PublishSafe(v, ordered, window);
    }
  }

  // ---- concrete runs ----

  /** `views` are the views that `events` pass through. */
  ghost predicate Replays(ordered: bool, window: nat, events: seq<Event>, views: seq<V.View>) {
    && |views| == |events| + 1 && views[0] == V.START
    && forall i :: 0 <= i < |events| ==>
         && views[i + 1] == ViewStep(ordered, window, views[i], events[i])
         && (events[i].Arrive? ==> Recent(V.Skip(views[i], window), events[i].n))
  }

  lemma {:induction false} Replay(ordered: bool, window: nat, events: seq<Event>, views: seq<V.View>)
    requires Replays(ordered, window, events, views)
    ensures ViewRun(ordered, window, events) == Last(views) && AllRecent(ordered, window, events)
    decreases events
  {
    if events != [] {
      Replay(ordered, window, Init(events), Init(views));
    }
  }

  /** The receiver's answer to each arrival of a run. */
  function Accepted<P>(ordered: bool, window: WindowSize, events: seq<Event>, pay: int -> P): seq<bool> {
    if events == [] then []
    else
      var before := Accepted(ordered, window, Init(events), pay);
      match Last(events)
      case Arrive(n) => before + [S.ReceivePacket(Run(ordered, window, Init(events), pay), Wire(n), pay(n)).1]
      case Update => before
  }

  /** An arrival is accepted exactly when the view holds it for new. */
  function NewOnes(window: nat, events: seq<Event>, views: seq<V.View>): seq<bool>
    requires |views| >= |events|
  {
    if events == [] then []
    else
      var before := NewOnes(window, Init(events), views);
      match Last(events)
      case Arrive(n) => before + [New(views[|events| - 1], window, n)]
      case Update => before
  }

  lemma {:induction false} ReplayAccepted<P>(ordered: bool, window: WindowSize, events: seq<Event>,
                                             views: seq<V.View>, pay: int -> P)
    requires window <= MAX_AGE && Replays(ordered, window, events, views)
    ensures Accepted(ordered, window, events, pay) == NewOnes(window, events, views)
    decreases events
  {
    if events != [] {
      var before := Init(events);
      ReplayAccepted(ordered, window, before, Init(views), pay);
      SameNewOnes(window, before, Init(views), views);
      Replay(ordered, window, before, Init(views));
      RunSimulates(ordered, window, before, pay);
      if Last(events).Arrive? {
        AcceptedExactly(Run(ordered, window, before, pay), views[|events| - 1], pay, Last(events).n);
      }
    }
  }

  lemma {:induction false} SameNewOnes(window: nat, events: seq<Event>, a: seq<V.View>, b: seq<V.View>)
    requires |events| <= |a| <= |b| && forall i :: 0 <= i < |events| ==> a[i] == b[i]
    ensures NewOnes(window, events, a) == NewOnes(window, events, b)
    decreases events
  {
    if events != [] { SameNewOnes(window, Init(events), a, b); }
  }

  /** After a skip a received packet can be lost: an ordered receiver with a window of 2 accepts
      packets 2 and 3, skips 1, refuses their resends, and then drops both when 4 arrives. */
  lemma SkipLosesReceivedPackets<P>(pay: int -> P)
    ensures var events := [Arrive(2), Arrive(3), Arrive(2), Arrive(3), Arrive(4)];
            && AllRecent(true, 2, events)
            && Accepted(true, 2, events, pay) == [true, true, false, false, true]
            && Run(true, 2, events, pay).published == [pay(4)]
            && Run(true, 2, events, pay).current == 4
  {
    var events := [Arrive(2), Arrive(3), Arrive(2), Arrive(3), Arrive(4)];
    var views := LosingViews();
    Replay(true, 2, events, views);
    RunSimulates(true, 2, events, pay);
    ReplayAccepted(true, 2, events, views, pay);
    LosingAnswers(views);
  }

  lemma LosingViews() returns (views: seq<V.View>)
    ensures views == [V.START, V.View(0, 2, {2}, {2}, []), V.View(0, 3, {2, 3}, {2, 3}, []),
                      V.View(2, 3, {2, 3}, {2, 3}, []), V.View(3, 3, {3}, {3}, []), V.View(4, 4, {}, {}, [4])]
    ensures Replays(true, 2, [Arrive(2), Arrive(3), Arrive(2), Arrive(3), Arrive(4)], views)
  {
    views := [V.START, V.View(0, 2, {2}, {2}, []), V.View(0, 3, {2, 3}, {2, 3}, []),
              V.View(2, 3, {2, 3}, {2, 3}, []), V.View(3, 3, {3}, {3}, []), V.View(4, 4, {}, {}, [4])];
    assert V.Receive(views[0], true, 2, 2) == views[1];
    assert V.Receive(views[1], true, 2, 3) == views[2];
    assert V.Receive(views[2], true, 2, 2) == views[3];
    assert V.Receive(views[3], true, 2, 3) == views[4];
    assert V.Receive(views[4], true, 2, 4) == views[5];
  }

  lemma LosingAnswers(views: seq<V.View>)
    requires views == [V.START, V.View(0, 2, {2}, {2}, []), V.View(0, 3, {2, 3}, {2, 3}, []),
                       V.View(2, 3, {2, 3}, {2, 3}, []), V.View(3, 3, {3}, {3}, []), V.View(4, 4, {}, {}, [4])]
    ensures NewOnes(2, [Arrive(2), Arrive(3), Arrive(2), Arrive(3), Arrive(4)], views) ==
            [true, true, false, false, true]
  {
    var events := [Arrive(2), Arrive(3), Arrive(2), Arrive(3), Arrive(4)];
    var e1, e2, e3, e4 := events[..1], events[..2], events[..3], events[..4];
    assert Init(events) == e4 && Init(e4) == e3 && Init(e3) == e2 && Init(e2) == e1 && Init(e1) == [];
    assert NewOnes(2, e1, views) == [true];
    assert NewOnes(2, e2, views) == [true, true];
    assert NewOnes(2, e3, views) == [true, true, false];
    assert NewOnes(2, e4, views) == [true, true, false, false];
  }
}
