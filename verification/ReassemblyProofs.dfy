/** What receiving keeps, on unbounded packet numbers.  `Safe` holds in every run; `Whole` is the
    stronger invariant of runs in which no sequence is skipped. */
module ReassemblyProofs {
  import opened Lists
  import opened Reassembly

  predicate Increasing(list: seq<int>) {
    forall i, j :: 0 <= i < j < |list| ==> list[i] < list[j]
  }

  ghost predicate Safe(v: View, ordered: bool) {
    && v.current <= v.last
    && (forall n :: n in v.received ==> v.current <= n <= v.last)
    && v.waiting <= v.received
    && (forall n :: n in v.received ==> n in v.waiting || n in v.delivered)
    && NoDuplicates(v.delivered)
    && (forall n :: n in v.delivered ==> n !in v.waiting && (n <= v.current || n in v.received))
    && (ordered ==> v.received == v.waiting && Increasing(v.delivered))
    && (ordered ==> forall n :: n in v.delivered ==> n <= v.current)
  }

  /** Where the publishing walk may stand: everything flagged is still ahead, or some packet was missing. */
  ghost predicate WalkAt(v: View, n: int, step: bool) {
    && v.current <= n
    && if step then forall m :: m in v.received ==> m >= n else n > v.current
  }

  /** Packets that are waiting or were delivered: publishing neither loses nor invents one. */
  ghost function Held(v: View): set<int> {
    v.waiting + set n | n in v.delivered
  }

  lemma Appended(list: seq<int>, n: int)
    ensures forall m :: m in list + [n] <==> m in list || m == n
    ensures NoDuplicates(list) && n !in list ==> NoDuplicates(list + [n])
    ensures Increasing(list) && (forall m :: m in list ==> m < n) ==> Increasing(list + [n])
  {
    forall i | 0 <= i < |list| ensures list[i] in list {}
  }

  lemma PublishOneSafe(v: View, ordered: bool, n: int, step: bool)
    requires Safe(v, ordered) && WalkAt(v, n, step) && n in v.received && (ordered ==> step)
    ensures var r := PublishOne(v, n, step);
            && Safe(r, ordered) && Held(r) == Held(v) && r.last == v.last
            && r.received == (if step then v.received - {n} else v.received)
            && r.waiting == v.waiting - {n}
            && r.current == if step then n else v.current
  {
    Appended(v.delivered, n);
  }

  lemma {:induction false} PublishFromSafe(v: View, ordered: bool, n: int, step: bool, budget: nat)
    requires Safe(v, ordered) && WalkAt(v, n, step) && n <= v.last && (ordered ==> step)
    ensures var r := PublishFrom(v, ordered, n, step, budget);
            Safe(r, ordered) && Held(r) == Held(v) && v.delivered <= r.delivered && r.last == v.last
    decreases budget
  {
    if budget > 0 {
      if n in v.received {
        PublishOneSafe(v, ordered, n, step);
        if n < v.last { PublishFromSafe(PublishOne(v, n, step), ordered, n + 1, step, budget - 1); }
      } else if !ordered && n < v.last {
        PublishFromSafe(v, ordered, n + 1, false, budget - 1);
      }
    }
  }

  lemma PublishSafe(v: View, ordered: bool, window: nat)
    requires Safe(v, ordered)
    ensures var r := Publish(v, ordered, window);
            Safe(r, ordered) && Held(r) == Held(v) && v.delivered <= r.delivered && r.last == v.last
  {
    PublishFromSafe(v, ordered, v.current, true, window);
  }

  lemma StoredSafe(v: View, ordered: bool, n: int)
    requires Safe(v, ordered) && n > v.current && n !in Admit(v, n).received
    ensures var r, drops := Store(Admit(v, n), n), n == v.current + 1 && v.current in v.waiting;
            && Safe(r, ordered) && v.delivered == r.delivered
            && r.last == (if n > v.last then n else v.last)
            && r.current == (if n == v.current + 1 then n else v.current)
            && Held(r) == (if drops then Held(v) - {v.current} else Held(v)) + {n}
  {
  }

  /** Accepting an arrival keeps the invariant; the only packet it can drop is one still waiting at
      `current` when `current` moves on to the arrival. */
  lemma AcceptSafe(v: View, ordered: bool, window: nat, n: int)
    requires Safe(v, ordered)
    ensures var r, drops := Accept(v, ordered, window, n), n == v.current + 1 && v.current in v.waiting;
            && Safe(r, ordered) && v.delivered <= r.delivered
            && (n > v.current ==> Held(r) == (if drops then Held(v) - {v.current} else Held(v)) + {n})
            && (n <= v.current ==> r == v)
  {
    if n > v.current {
      var v1 := Admit(v, n);
      if n !in v1.received {
        StoredSafe(v, ordered, n);
        PublishSafe(Store(v1, n), ordered, window);
      }
    }
  }

  lemma SkipSafe(v: View, ordered: bool, window: nat)
    requires Safe(v, ordered)
    ensures var r, drops := Skip(v, window), v.last - v.current > window && v.current in v.waiting;
            && Safe(r, ordered) && v.delivered == r.delivered
            && Held(r) == (if drops then Held(v) - {v.current} else Held(v))
            && v.current <= r.current
  {
  }

  /** Receiving keeps the order and uniqueness of what is delivered, holds nothing but what it held
      before and the arrival, and takes nothing back. */
  lemma ReceiveSafe(v: View, ordered: bool, window: nat, n: int)
    requires Safe(v, ordered)
    ensures var r := Receive(v, ordered, window, n);
            Safe(r, ordered) && Held(r) <= Held(v) + {n} && v.delivered <= r.delivered
  {
    SkipSafe(v, ordered, window);
    AcceptSafe(Skip(v, window), ordered, window, n);
  }

  /** Receiving drops a packet it held exactly when `current` moves off a packet that still waits:
      by a skip, or because the next packet arrives. */
  lemma LossExactly(v: View, ordered: bool, window: nat, n: int)
    requires Safe(v, ordered)
    ensures Held(v) <= Held(Receive(v, ordered, window, n)) <==>
            !(v.last - v.current > window && v.current in v.waiting) &&
            (var v1 := Skip(v, window); !(n == v1.current + 1 && v1.current in v1.waiting))
  {
    var v1 := Skip(v, window);
    SkipSafe(v, ordered, window);
    AcceptSafe(v1, ordered, window, n);
    if v.last - v.current > window && v.current in v.waiting {
      assert v.current in Held(v) && v.current !in Held(v1) && n !in {v.current} * Held(Receive(v, ordered, window, n));
    } else if n == v1.current + 1 && v1.current in v1.waiting {
      assert v1.current in Held(v);
    }
  }

  // ---- runs without skips ----

  lemma ReceiveAdvances(v: View, ordered: bool, window: nat, n: int)
    requires Safe(v, ordered)
    ensures var r := Receive(v, ordered, window, n);
            v.current <= r.current && r.last == if n > v.last then n else v.last
  {
    var v1 := Skip(v, window);
    SkipSafe(v, ordered, window);
    if n > v1.current {
      var v2 := Admit(v1, n);
      if n !in v2.received {
        StoredSafe(v1, ordered, n);
        PublishSafe(Store(v2, n), ordered, window);
        PublishAdvances(Store(v2, n), ordered, v2.current, true, window);
      }
    }
  }

  lemma {:induction false} PublishAdvances(v: View, ordered: bool, n: int, step: bool, budget: nat)
    ensures v.current <= PublishFrom(v, ordered, n, step, budget).current
    decreases budget
  {
    if budget > 0 {
      var v' := if n in v.received then PublishOne(v, n, step) else v;
      PublishAdvances(v', ordered, n + 1, step && n in v.received, budget - 1);
    }
  }

  /** `k` ends the longest run of consecutive packets 1, 2, ... in `packets`. */
  ghost predicate IsPrefix(packets: set<int>, k: int) {
    k >= 0 && (forall i :: 1 <= i <= k ==> i in packets) && k + 1 !in packets
  }

  lemma PrefixIsUnique(packets: set<int>, k: int)
    requires IsPrefix(packets, k)
    ensures forall j :: IsPrefix(packets, j) ==> j == k
  {
  }

  /** The exact content of the window after the packets `arrived`: the current sequence ends the
      longest prefix, everything past it is flagged, and everything is held. */
  ghost predicate Exact(v: View, ordered: bool, window: nat, arrived: set<int>) {
    && Safe(v, ordered)
    && v.last <= v.current + window
    && IsPrefix(arrived, v.current)
    && (forall n :: n in arrived ==> 1 <= n <= v.last)
    && (v.last in arrived || v.last == 0)
    && (forall n :: n in v.received <==> n in arrived && n > v.current)
    && (forall n :: n in arrived <==> n in Held(v))
  }

  /** Also, an unordered receiver has delivered all it holds closer than the window's end. */
  ghost predicate Whole(v: View, ordered: bool, window: nat, arrived: set<int>) {
    && Exact(v, ordered, window, arrived)
    && (!ordered ==> forall n :: n in v.waiting ==> n >= v.current + window)
  }

  /** After a gap, an unordered walk publishes what it passes and moves nothing else. */
  lemma {:induction false} WalkPastGap(v: View, n: int, budget: nat)
    requires Safe(v, false) && WalkAt(v, n, false) && n <= v.last
    ensures var r := PublishFrom(v, false, n, false, budget);
            && r.current == v.current && r.received == v.received && r.last == v.last
            && forall m :: m in r.waiting <==> m in v.waiting && !(n <= m < n + budget)
    decreases budget
  {
    if budget > 0 {
      if n in v.received { PublishOneSafe(v, false, n, false); }
      if n < v.last {
        WalkPastGap(if n in v.received then PublishOne(v, n, false) else v, n + 1, budget - 1);
      }
    }
  }

  /** A walk with enough budget moves `current` to the end of the consecutive packets and, when
      unordered, publishes all that waits. */
  lemma {:induction false} WalkPrefix(v: View, ordered: bool, n: int, budget: nat)
    requires Safe(v, ordered) && WalkAt(v, n, true) && n <= v.last
    requires n == v.current + 1 || (n == v.current && n in v.received)
    requires budget > v.last - n
    ensures var r := PublishFrom(v, ordered, n, true, budget);
            && v.current <= r.current <= v.last
            && (forall i :: n <= i <= r.current ==> i in v.received)
            && r.current + 1 !in v.received
            && (forall m :: m in r.received <==> m in v.received && m > r.current)
            && (!ordered ==> r.waiting == {})
    decreases budget
  {
    var r := PublishFrom(v, ordered, n, true, budget);
    if n in v.received {
      PublishOneSafe(v, ordered, n, true);
      var v' := PublishOne(v, n, true);
      if n < v.last {
        WalkPrefix(v', ordered, n + 1, budget - 1);
        forall i | n <= i <= r.current ensures i in v.received {
          if i > n { assert i in v'.received; }
        }
      }
    } else if !ordered && n < v.last {
      WalkPastGap(v, n + 1, budget - 1);
      forall m ensures m !in r.waiting {
        if m in v.waiting { assert m in v.received && n < m <= v.last; }
      }
    }
  }

  lemma PublishWhole(v: View, ordered: bool, window: nat, arrived: set<int>)
    requires Exact(v, ordered, window, arrived)
    ensures Whole(Publish(v, ordered, window), ordered, window, arrived)
  {
    PublishSafe(v, ordered, window);
    if window > 0 && !ordered && v.current < v.last {
      WalkPastGap(v, v.current + 1, window - 1);
    }
  }

  lemma ReceiveWhole(v: View, ordered: bool, window: nat, arrived: set<int>, n: int)
    requires Whole(v, ordered, window, arrived)
    requires n <= v.current + window
    ensures Whole(Receive(v, ordered, window, n), ordered, window, if n >= 1 then arrived + {n} else arrived)
  {
    if n <= v.current || n in v.received {
      assert Receive(v, ordered, window, n) == v;
    } else if n == v.current + 1 {
      ReceiveNext(v, ordered, window, arrived, n);
    } else {
      ReceiveAhead(v, ordered, window, arrived, n);
    }
  }

  lemma ReceiveNext(v: View, ordered: bool, window: nat, arrived: set<int>, n: int)
    requires Whole(v, ordered, window, arrived)
    requires n == v.current + 1 && window > 0
    ensures Whole(Receive(v, ordered, window, n), ordered, window, arrived + {n})
  {
    var v1 := Store(Admit(v, n), n);
    assert v.current !in v.received && n !in v.received;
    StoredSafe(v, ordered, n);
    PublishSafe(v1, ordered, window);
    WalkPrefix(v1, ordered, n, window);
    NextWhole(v1, Publish(v1, ordered, window), ordered, window, arrived + {n});
  }

  lemma ReceiveAhead(v: View, ordered: bool, window: nat, arrived: set<int>, n: int)
    requires Whole(v, ordered, window, arrived)
    requires v.current + 1 < n <= v.current + window && n !in v.received
    ensures Whole(Receive(v, ordered, window, n), ordered, window, arrived + {n})
  {
    var v1 := Store(Admit(v, n), n);
    StoredSafe(v, ordered, n);
    assert Exact(v1, ordered, window, arrived + {n});
    PublishWhole(v1, ordered, window, arrived + {n});
  }

  /** The state `r` after a walk that started at the packet `v.current` just stored. */
  lemma NextWhole(v: View, r: View, ordered: bool, window: nat, arrived: set<int>)
    requires Safe(r, ordered) && Held(r) == Held(v) && r.last == v.last
    requires v.current <= r.current && v.last < v.current + window
    requires forall n :: n in arrived <==> n in Held(v)
    requires forall n :: n in arrived ==> 1 <= n <= v.last
    requires v.last in arrived
    requires forall i :: 1 <= i < v.current ==> i in arrived
    requires forall n :: n in v.received <==> n in arrived && n >= v.current
    requires forall i :: v.current <= i <= r.current ==> i in v.received
    requires r.current + 1 !in v.received && r.current >= 0
    requires forall m :: m in r.received <==> m in v.received && m > r.current
    requires !ordered ==> r.waiting == {}
    ensures Whole(r, ordered, window, arrived)
  {
  }
}
