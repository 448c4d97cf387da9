/** The repair loop at the receiver: nack what is missing, receive the resends, and the window closes. */
module Repair {
  import opened Lists
  import opened Sequence
  import opened ReassemblyProofs
  import opened ReceiverRefinement
  import opened ReceiverRuns
  import opened NackProofs
  import opened Nacks
  import S = ReceiverSpec
  import V = Reassembly

  function Arrivals(order: seq<int>): seq<Event> {
    seq(|order|, i requires 0 <= i < |order| => Arrive(order[i]))
  }

  function Elements(order: seq<int>): set<int> {
    set n | n in order
  }

  lemma ArrivalsSplit(events: seq<Event>, order: seq<int>)
    requires order != []
    ensures forall n :: n in Init(order) ==> n in order
    ensures Last(order) in order && Elements(order) == Elements(Init(order)) + {Last(order)}
    ensures var all := events + Arrivals(order);
            Init(all) == events + Arrivals(Init(order)) && Last(all) == Arrive(Last(order))
  {
    assert order == Init(order) + [Last(order)];
  }

  /** Arrivals of packets between `low` and the window's end extend a skip-free run. */
  lemma {:induction false} ArriveAll(window: nat, events: seq<Event>, order: seq<int>, low: int)
    requires window <= MAX_SPAN && SkipFree(window, events)
    requires forall k :: IsPrefix(Arrived(events), k) ==> low <= k
    requires forall n :: n in order ==> 1 <= n && low <= n <= low + window
    requires forall n :: n in Arrived(events) ==> n <= low + window
    ensures SkipFree(window, events + Arrivals(order))
    ensures Arrived(events + Arrivals(order)) == Arrived(events) + Elements(order)
  {
    var all := events + Arrivals(order);
    if order == [] {
      assert all == events;
    } else {
      ArrivalsSplit(events, order);
      ArriveAll(window, events, Init(order), low);
      var arrived := Arrived(Init(all));
      forall k | IsPrefix(arrived, k) ensures low <= k <= low + window {
        assert k >= 1 ==> k in arrived;
        PrefixGrows(Arrived(events), arrived, low, k);
      }
    }
  }

  /** With more packets the longest prefix does not get shorter. */
  lemma {:induction false} PrefixGrows(small: set<int>, large: set<int>, low: int, k: int)
    requires small <= large && IsPrefix(large, k)
    requires forall j :: IsPrefix(small, j) ==> low <= j
    ensures low <= k
  {
    var j := ShortPrefix(small, k);
  }

  lemma {:induction false} ShortPrefix(packets: set<int>, bound: int) returns (j: int)
    requires bound >= 0 && bound + 1 !in packets
    ensures IsPrefix(packets, j) && j <= bound
  {
    j := 0;
    while j + 1 in packets
      invariant 0 <= j <= bound
      invariant forall i :: 1 <= i <= j ==> i in packets
      decreases bound - j
    {
      j := j + 1;
    }
  }

  /** The received packets and the groups of 33 in the window fit the nack budget. */
  predicate NackBudget(v: V.View, window: WindowSize) {
    WithinBudget(v.received, v.current, v.last - 1, window / 32)
  }

  /** No gap lies at or below the floor of the nack walk. */
  predicate Covered(v: V.View, window: WindowSize) {
    forall n :: v.current < n <= NackFloor(v, window) && n < v.last ==> n in v.received
  }

  lemma BudgetCovers(v: V.View, window: WindowSize)
    requires NackBudget(v, window)
    ensures Covered(v, window)
  {
    BudgetSuffices(v.received, v.current, v.last - 1, window / 32);
  }

  /** One loss-free repair round.  After any skip-free run let every packet named by the nacks be received
      again, in any order and any number of times.  The window closes, so that current equals last, if and
      only if no gap lies at or below the floor of the nack walk; then all packets up to last have been
      published.  In any case what was published (`delivered`) was published once, and in order if the
      receiver is ordered. */
  lemma {:induction false} RepairRound<P>(ordered: bool, window: WindowSize, events: seq<Event>, pay: int -> P,
                                          order: seq<int>)
    returns (delivered: seq<int>)
    requires window <= MAX_SPAN && SkipFree(window, events)
    requires forall n :: n in order <==>
               n in Named(S.CreateNacks(Run(ordered, window, events, pay)).0, ViewRun(ordered, window, events).last)
    ensures var v, before := ViewRun(ordered, window, events), Run(ordered, window, events, pay);
            var after := Run(ordered, window, events + Arrivals(order), pay);
            && after.last == before.last && (after.current == after.last <==> Covered(v, window))
            && Carries(after.published, delivered, pay)
            && (Covered(v, window) ==> forall n :: n in delivered <==> 1 <= n <= v.last)
    ensures NoDuplicates(delivered) && (ordered ==> Increasing(delivered))
  {
    var v, all := ViewRun(ordered, window, events), events + Arrivals(order);
    NamesTheGaps(ordered, window, events, pay);
    RepairedWindow(ordered, window, events, order);
    RunShows(ordered, window, events, pay);
    RunShows(ordered, window, all, pay);
    var r := ViewRun(ordered, window, all);
    if Wire(r.current) == Wire(r.last) { WireInjective(r.current, r.last); }
    delivered := r.delivered;
  }

  lemma {:induction false} NamesTheGaps<P>(ordered: bool, window: WindowSize, events: seq<Event>, pay: int -> P)
    requires window <= MAX_SPAN && SkipFree(window, events)
    ensures var v := ViewRun(ordered, window, events);
            AllRecent(ordered, window, events) &&
            forall n :: n in Named(S.CreateNacks(Run(ordered, window, events, pay)).0, v.last) <==>
              Gap(v, n) && NackFloor(v, window) < n < v.last
  {
    SkipFreeWhole(ordered, window, events);
    RunSimulates(ordered, window, events, pay);
    var v := ViewRun(ordered, window, events);
    NamedAreTheGaps(Run(ordered, window, events, pay), v, pay, v.last);
  }

  /** What of a run's simulation can be read off the receiver. */
  lemma {:induction false} RunShows<P>(ordered: bool, window: WindowSize, events: seq<Event>, pay: int -> P)
    requires window <= MAX_AGE && AllRecent(ordered, window, events)
    ensures var s, v := Run(ordered, window, events, pay), ViewRun(ordered, window, events);
            && s.current == Wire(v.current) && s.last == Wire(v.last) && Carries(s.published, v.delivered, pay)
            && NoDuplicates(v.delivered) && (ordered ==> Increasing(v.delivered))
  {
    RunSimulates(ordered, window, events, pay);
  }

  /** The window `r` after the gaps of `v` above the floor have arrived. */
  ghost predicate Repaired(v: V.View, r: V.View, window: WindowSize) {
    && r.last == v.last && 0 <= r.last - r.current <= window
    && (r.current == r.last <==> Covered(v, window))
    && (Covered(v, window) ==> forall n :: n in r.delivered <==> 1 <= n <= v.last)
  }

  lemma {:induction false} RepairedWindow(ordered: bool, window: WindowSize, events: seq<Event>, order: seq<int>)
    requires window <= MAX_SPAN && SkipFree(window, events)
    requires var v := ViewRun(ordered, window, events);
             forall n :: n in order <==> Gap(v, n) && NackFloor(v, window) < n < v.last
    ensures var all := events + Arrivals(order);
            && AllRecent(ordered, window, all)
            && Repaired(ViewRun(ordered, window, events), ViewRun(ordered, window, all), window)
  {
    AnswersArrive(ordered, window, events, order);
    RepairedIs(ViewRun(ordered, window, events), ViewRun(ordered, window, events + Arrivals(order)), ordered, window,
               Arrived(events), order);
  }

  lemma {:induction false} RepairedIs(v: V.View, r: V.View, ordered: bool, window: WindowSize, arrived: set<int>,
                                      order: seq<int>)
    requires Whole(v, ordered, window, arrived) && Whole(r, ordered, window, arrived + Elements(order))
    requires forall n :: n in order <==> Gap(v, n) && NackFloor(v, window) < n < v.last
    ensures Repaired(v, r, window)
  {
    FloorBounds(v.received, v.current, v.last - 1, window / 32);
    WindowAfter(v, r, ordered, window, arrived, order, NackFloor(v, window));
  }

  /** Receiving packets between current and last keeps the run skip-free. */
  lemma {:induction false} AnswersArrive(ordered: bool, window: WindowSize, events: seq<Event>, order: seq<int>)
    requires window <= MAX_SPAN && SkipFree(window, events)
    requires var v := ViewRun(ordered, window, events); forall n :: n in order ==> v.current < n < v.last
    ensures var all := events + Arrivals(order);
            && AllRecent(ordered, window, all)
            && Whole(ViewRun(ordered, window, events), ordered, window, Arrived(events))
            && Whole(ViewRun(ordered, window, all), ordered, window, Arrived(events) + Elements(order))
  {
    var v := ViewRun(ordered, window, events);
    SkipFreeWhole(ordered, window, events);
    PrefixIsUnique(Arrived(events), v.current);
    ArriveAll(window, events, order, v.current);
    SkipFreeWhole(ordered, window, events + Arrivals(order));
  }

  /** The window after the packets of `order`, which are the gaps above `floor`. */
  lemma {:induction false} WindowAfter(v: V.View, r: V.View, ordered: bool, window: nat, arrived: set<int>,
                                       order: seq<int>, floor: int)
    requires Whole(v, ordered, window, arrived) && Whole(r, ordered, window, arrived + Elements(order))
    requires v.current <= floor && forall n :: n in order <==> Gap(v, n) && floor < n < v.last
    ensures r.last == v.last
    ensures var clear := forall n :: v.current < n <= floor && n < v.last ==> n in v.received;
            && (r.current == r.last <==> clear)
            && (clear ==> forall n :: n in r.delivered <==> 1 <= n <= v.last)
  {
    var all := arrived + Elements(order);
    forall n ensures n in all <==> n in arrived || (Gap(v, n) && floor < n < v.last) {}
    SameLast(v, r, ordered, window, arrived, all);
    if forall n :: v.current < n <= floor && n < v.last ==> n in v.received {
      forall n ensures n in all <==> 1 <= n <= v.last {
        if v.current < n <= v.last { assert n in v.received <==> n in arrived; }
      }
      AllArrived(r, ordered, window, all);
    } else {
      var n :| v.current < n <= floor && n < v.last && n !in v.received;
      assert n !in all;
      assert r.current == r.last ==> n in all;
    }
  }

  lemma {:induction false} SameLast(v: V.View, r: V.View, ordered: bool, window: nat, arrived: set<int>, all: set<int>)
    requires Whole(v, ordered, window, arrived) && Whole(r, ordered, window, all)
    requires arrived <= all && forall n :: n in all ==> n in arrived || v.current < n < v.last
    ensures r.last == v.last
  {
    assert v.last == 0 || v.last in all;
    assert r.last == 0 || r.last in all;
  }

  /** When everything up to last has arrived, all of it has been published and nothing is left. */
  lemma {:induction false} AllArrived(r: V.View, ordered: bool, window: nat, all: set<int>)
    requires Whole(r, ordered, window, all) && forall n :: n in all <==> 1 <= n <= r.last
    ensures r.current == r.last && forall n :: n in r.delivered <==> 1 <= n <= r.last
  {
    PrefixIsUnique(all, r.current);
    assert IsPrefix(all, r.last);
    forall n ensures n in r.delivered <==> n in all {
      assert n in all <==> n in Held(r);
      assert n !in r.received by { assert n in r.received <==> n in all && n > r.current; }
    }
  }

  // ---- the budget is needed ----

  /** Every gap is named exactly when none lies at or below the floor of the walk. */
  lemma NackCompleteness<P>(s: S.State<P>, v: V.View, pay: int -> P, newest: int)
    requires Rep(s, v, pay) && v.last <= newest <= v.current + MAX_AGE
    ensures (forall n :: Gap(v, n) && n < v.last ==> n in Named(S.CreateNacks(s).0, newest)) <==>
            Covered(v, s.window)
  {
    NamedAreTheGaps(s, v, pay, newest);
    var nacks, floor := S.CreateNacks(s).0, NackFloor(v, s.window);
    if forall n :: Gap(v, n) && n < v.last ==> n in Named(nacks, newest) {
      forall n | v.current < n <= floor && n < v.last ensures n in v.received {
        assert Gap(v, n) ==> n in Named(nacks, newest);
      }
    }
    if forall n :: v.current < n <= floor && n < v.last ==> n in v.received {
      forall n | Gap(v, n) && n < v.last ensures n in Named(nacks, newest) {}
    }
  }

  // ---- gaps that are never named ----

  /** Packets 2 up to one past the number of the walk's iterations. */
  function Blocking(window: WindowSize): seq<Event> {
    seq(window / 32 + 1, i => Arrive(i + 2))
  }

  lemma NoPrefix(packets: set<int>)
    requires 1 !in packets
    ensures forall k :: IsPrefix(packets, k) ==> k == 0
  {
  }

  lemma {:induction false} FirstMissing(window: nat, events: seq<Event>, high: nat)
    requires high <= window && forall e :: e in events ==> e.Update? || 2 <= e.n <= high
    ensures SkipFree(window, events) && forall n :: n in Arrived(events) ==> 2 <= n <= high
  {
    if events != [] {
      FirstMissing(window, Init(events), high);
      assert Last(events) in events;
      NoPrefix(Arrived(Init(events)));
    }
  }

  lemma {:induction false} FloorAmongReceived(received: set<int>, current: int, n: int, budget: nat)
    requires current < n - budget && forall m :: n - budget < m <= n ==> m in received
    ensures Floor(received, current, n, budget) == n - budget
    decreases budget
  {
    if budget > 0 { FloorAmongReceived(received, current, n - 1, budget - 1); }
  }

  lemma NothingExpanded(nacks: seq<Nack>)
    ensures Expand(nacks) == [] <==> nacks == []
  {
  }

  /** A gap can stay unnamed for ever.  For every window of at least 32: packet 1 is lost and the packets
      after it arrive, one more than the walk has iterations.  The received packets below `last` use up
      all iterations, so no nack is created; and however often the receiver is updated and whichever of
      these packets arrive again, that does not change. */
  lemma {:induction false} NackCanMissAGap<P>(ordered: bool, window: WindowSize, more: seq<Event>, pay: int -> P)
    requires 32 <= window <= MAX_SPAN
    requires forall e :: e in more ==> e.Update? || 2 <= e.n <= window / 32 + 2
    ensures var events := Blocking(window) + more; var s := Run(ordered, window, events, pay);
            && SkipFree(window, events) && 1 !in Arrived(events)
            && s.current == 0 && s.last == window / 32 + 2 && S.CreateNacks(s) == ([], 0)
  {
    var events, high := Blocking(window) + more, window / 32 + 2;
    FirstMissing(window, events, high);
    forall n | 2 <= n <= high ensures n in Arrived(events) {
      assert Blocking(window)[n - 2] == Arrive(n) && events[n - 2] == Arrive(n);
      ArrivedMembers(events, n);
    }
    BlockedWalk(ordered, window, events, pay);
  }

  lemma {:induction false} BlockedWalk<P>(ordered: bool, window: WindowSize, events: seq<Event>, pay: int -> P)
    requires 32 <= window <= MAX_SPAN && SkipFree(window, events)
    requires forall n :: n in Arrived(events) <==> 2 <= n <= window / 32 + 2
    ensures var s := Run(ordered, window, events, pay);
            s.current == 0 && s.last == window / 32 + 2 && S.CreateNacks(s) == ([], 0)
  {
    BlockedView(ordered, window, events);
    RunSimulates(ordered, window, events, pay);
    BlockedState(Run(ordered, window, events, pay), ViewRun(ordered, window, events), pay);
  }

  lemma {:induction false} BlockedState<P>(s: S.State<P>, v: V.View, pay: int -> P)
    requires Rep(s, v, pay) && v.current == 0 && v.last == s.window / 32 + 2
    requires forall n :: 2 <= n <= v.last ==> n in v.received
    ensures s.current == 0 && s.last == s.window / 32 + 2 && S.CreateNacks(s) == ([], 0)
  {
    RepSees(s, v, pay);
    BlockedNacks(s, v);
  }

  lemma {:induction false} BlockedView(ordered: bool, window: WindowSize, events: seq<Event>)
    requires window <= MAX_SPAN && SkipFree(window, events)
    requires forall n :: n in Arrived(events) <==> 2 <= n <= window / 32 + 2
    ensures var v := ViewRun(ordered, window, events);
            && AllRecent(ordered, window, events) && v.current == 0 && v.last == window / 32 + 2
            && forall n :: 2 <= n <= v.last ==> n in v.received
  {
    SkipFreeWhole(ordered, window, events);
    var v := ViewRun(ordered, window, events);
    NoPrefix(Arrived(events));
    assert window / 32 + 2 in Arrived(events);
  }

  lemma {:induction false} BlockedNacks<P>(s: S.State<P>, v: V.View)
    requires Sees(s, v) && v.current == 0 && v.last == s.window / 32 + 2
    requires forall n :: 2 <= n <= v.last ==> n in v.received
    ensures S.CreateNacks(s) == ([], 0)
  {
    FloorAmongReceived(v.received, 0, v.last - 1, s.window / 32);
    NoneMissing(v.received, 1, v.last - 1);
    NackList(s, v);
    NothingExpanded(S.CreateNacks(s).0);
  }

  lemma {:induction false} NoneMissing(received: set<int>, floor: int, n: int)
    requires forall m :: floor < m <= n ==> m in received
    ensures Missing(received, floor, n) == []
    decreases n - floor
  {
    if n > floor { NoneMissing(received, floor, n - 1); }
  }

  // ---- the two forms of the resend list ----

  /** In a skip-free run the packed and the simple form agree exactly when the walk names every gap. */
  lemma {:induction false} FormsAgreeWithoutSkips<P>(ordered: bool, window: WindowSize, events: seq<Event>,
                                                     pay: int -> P)
    requires window <= MAX_SPAN && SkipFree(window, events)
    ensures var s, v := Run(ordered, window, events, pay), ViewRun(ordered, window, events);
            && v.last - v.current != 1
            && (Expand(S.CreateNacks(s).0) == S.ResendList(s) <==>
                Covered(v, window))
  {
    SkipFreeWhole(ordered, window, events);
    RunSimulates(ordered, window, events, pay);
    var v := ViewRun(ordered, window, events);
    NeverOneBehind(v, ordered, window, Arrived(events));
    PackedIsSimple(Run(ordered, window, events, pay), v, pay);
  }

  /** Without skips the last packet is never the one right after `current`, and the simple form covers
      the window. */
  lemma NeverOneBehind(v: V.View, ordered: bool, window: WindowSize, arrived: set<int>)
    requires Whole(v, ordered, window, arrived)
    ensures v.last - v.current != 1
    ensures FormsAgree(v, window) <==> Covered(v, window)
  {
    FloorBounds(v.received, v.current, v.last - 1, window / 32);
  }

  /** After a skip they can differ: an ordered receiver with a window of 2 comes to stand one before its
      last packet; no nack is created and the simple form lists two packets already published. */
  lemma FormsDiffer<P>(pay: int -> P)
    ensures var events := [Arrive(2), Arrive(3), Arrive(4), Arrive(2), Update];
            var s := Run(true, 2, events, pay);
            && AllRecent(true, 2, events) && s.current == 3 && s.last == 4
            && S.CreateNacks(s) == ([], 0) && S.ResendList(s) != []
  {
    var events := [Arrive(2), Arrive(3), Arrive(4), Arrive(2), Update];
    var views := [V.START, V.View(0, 2, {2}, {2}, []), V.View(0, 3, {2, 3}, {2, 3}, []),
                  V.View(1, 4, {2, 3, 4}, {2, 3, 4}, []), V.View(2, 4, {2, 3, 4}, {2, 3, 4}, []),
                  V.View(3, 4, {4}, {4}, [2, 3])];
    assert V.Receive(views[0], true, 2, 2) == views[1];
    assert V.Receive(views[1], true, 2, 3) == views[2];
    assert V.Receive(views[2], true, 2, 4) == views[3];
    assert V.Receive(views[3], true, 2, 2) == views[4];
    PublishTwo(views[4], views[5]);
    Replay(true, 2, events, views);
    RunSimulates(true, 2, events, pay);
    GapOfOne(Run(true, 2, events, pay), views[5], pay);
  }

  lemma PublishTwo(v: V.View, r: V.View)
    requires v == V.View(2, 4, {2, 3, 4}, {2, 3, 4}, []) && r == V.View(3, 4, {4}, {4}, [2, 3])
    ensures V.Publish(v, true, 2) == r
  {
    var m := V.View(2, 4, {3, 4}, {3, 4}, [2]);
    assert V.PublishOne(v, 2, true) == m;
    assert V.PublishOne(m, 3, true) == r;
    assert V.PublishFrom(r, true, 4, true, 0) == r;
    assert V.PublishFrom(m, true, 3, true, 1) == r;
  }
}
