/** The wire-level receiver simulates the view on unbounded packet numbers as long as each
    arrival is at most MAX_AGE behind and at most MAX_SPAN ahead of the current sequence. */
module ReceiverRefinement {
  import opened Sequence
  import opened SequenceBuffers
  import Views = ReassemblyProofs
  import S = ReceiverSpec
  import V = Reassembly

  /** The occupied slots are exactly those of the packets in `packets`. */
  ghost predicate Flags(ring: Ring<bool>, packets: set<int>) {
    && (forall n :: n in packets ==> ring[RingSlot(n)].Some?)
    && (forall i :: 0 <= i < RING_SIZE && ring[i].Some? ==> exists n :: n in packets && RingSlot(n) == i)
  }

  ghost predicate Buffers<P>(ring: Ring<P>, packets: set<int>, waiting: set<int>, pay: int -> P) {
    forall n :: n in packets ==> ring[RingSlot(n)] == if n in waiting then Some(pay(n)) else None
  }

  ghost predicate Near(packets: set<int>, n: int) {
    forall m :: m in packets ==> -MAX_SPAN <= m - n <= MAX_SPAN
  }

  /** `published` holds the payloads of the packets `delivered`, in that order. */
  ghost predicate Carries<P>(published: seq<P>, delivered: seq<int>, pay: int -> P) {
    |published| == |delivered| && forall i :: 0 <= i < |published| ==> published[i] == pay(delivered[i])
  }

  ghost predicate InWindow(v: V.View) {
    && v.current <= v.last <= v.current + MAX_SPAN
    && (forall n :: n in v.received ==> v.current <= n <= v.last)
    && v.waiting <= v.received
  }

  /** The receiver `s` is in the situation described by `v`, where packet `n` carries `pay(n)`. */
  ghost predicate Rep<P>(s: S.State<P>, v: V.View, pay: int -> P) {
    && InWindow(v)
    && s.current == Wire(v.current) && s.last == Wire(v.last)
    && Flags(s.received, v.received)
    && Buffers(s.buffered, v.received, v.waiting, pay)
    && Carries(s.published, v.delivered, pay)
  }

  // ---- ring slots as sets of packets ----

  lemma FlagRead(ring: Ring<bool>, packets: set<int>, n: int)
    requires Flags(ring, packets) && Near(packets, n)
    ensures Occupied(ring, Wire(n)) <==> n in packets
  {
    if Occupied(ring, Wire(n)) {
      var m :| m in packets && RingSlot(m) == RingSlot(n);
      SlotInjective(m, n);
    }
  }

  lemma FlagCleared(ring: Ring<bool>, packets: set<int>, n: int)
    requires Flags(ring, packets) && Near(packets, n)
    ensures Flags(Clear(ring, Wire(n)), packets - {n})
  {
    var ring' := Clear(ring, Wire(n));
    forall m | m in packets - {n} ensures ring'[RingSlot(m)].Some? {
      if RingSlot(m) == RingSlot(n) { SlotInjective(m, n); }
    }
    forall i | 0 <= i < RING_SIZE && ring'[i].Some? ensures exists m :: m in packets - {n} && RingSlot(m) == i {
      var m :| m in packets && RingSlot(m) == i;
      assert m in packets - {n};
    }
  }

  lemma FlagSet(ring: Ring<bool>, packets: set<int>, n: int)
    requires Flags(ring, packets) && Near(packets, n)
    ensures Flags(Put(ring, Wire(n), true), packets + {n})
  {
    var ring' := Put(ring, Wire(n), true);
    forall i | 0 <= i < RING_SIZE && ring'[i].Some? ensures exists m :: m in packets + {n} && RingSlot(m) == i {
      if i == RingSlot(n) {
        assert n in packets + {n};
      } else {
        var m :| m in packets && RingSlot(m) == i;
        assert m in packets + {n};
      }
    }
  }

  lemma BufferPut<P>(ring: Ring<P>, packets: set<int>, waiting: set<int>, pay: int -> P, n: int)
    requires Buffers(ring, packets, waiting, pay) && Near(packets, n) && n !in packets
    ensures Buffers(Put(ring, Wire(n), pay(n)), packets + {n}, waiting + {n}, pay)
  {
    forall m | m in packets && RingSlot(m) == RingSlot(n) ensures false {
      SlotInjective(m, n);
    }
  }

  lemma BufferTaken<P>(ring: Ring<P>, packets: set<int>, waiting: set<int>, pay: int -> P, n: int)
    requires Buffers(ring, packets, waiting, pay) && Near(packets, n) && n in packets
    ensures Buffers(Clear(ring, Wire(n)), packets, waiting - {n}, pay)
  {
    forall m | m in packets && RingSlot(m) == RingSlot(n) ensures m == n {
      SlotInjective(m, n);
    }
  }

  // ---- one call ----

  ghost predicate SameSetup<P>(s: S.State<P>, r: S.State<P>) {
    r.ordered == s.ordered && r.window == s.window && r.skipped == s.skipped
  }

  /** The skip test is exact: it fires when the gap exceeds the window. */
  lemma SkipTestIsExact(current: int, last: int, window: WindowSize)
    requires 0 <= last - current <= MAX_AGE && window <= MAX_AGE
    ensures S.ShouldIncrementCurrent(Wire(current), Wire(last), window) <==> last - current > window
  {
    OrderIsFaithful(last - window, current);
    WireBack(last, window);
    if Wire(current) == Wire(last) { WireInjective(current, last); }
  }

  /** The wire number `d` before that of `n`. */
  lemma WireBack(n: int, d: nat)
    requires d < MODULUS
    ensures Wire(n - d) == if Wire(n) < d then Wire(n) - d + MODULUS else Wire(n) - d
  {
    var q := n / MODULUS;
    assert n == q * MODULUS + Wire(n);
  }

  lemma SkipSimulates<P>(s: S.State<P>, v: V.View, pay: int -> P)
    requires Rep(s, v, pay) && s.window <= MAX_AGE
    ensures Rep(S.Skip(s), V.Skip(v, s.window), pay)
    ensures S.Skip(s).skipped == s.skipped + if v.last - v.current > s.window then 1 else 0
  {
    SkipTestIsExact(v.current, v.last, s.window);
    WireStep(v.current);
    FlagCleared(s.received, v.received, v.current);
  }

  lemma PublishOneSimulates<P>(s: S.State<P>, v: V.View, pay: int -> P, n: int, step: bool)
    requires Rep(s, v, pay) && n in v.received && Views.WalkAt(v, n, step)
    ensures Rep(S.PublishOne(s, Wire(n), step), V.PublishOne(v, n, step), pay)
    ensures SameSetup(s, S.PublishOne(s, Wire(n), step))
    ensures V.PublishOne(v, n, step).last == v.last
    ensures Views.WalkAt(V.PublishOne(v, n, step), n + 1, step)
  {
    if s.current == Wire(n) { WireInjective(v.current, n); }
    OrderIsFaithful(n, v.current);
    FlagCleared(s.received, v.received, n);
    BufferTaken(s.buffered, v.received, v.waiting, pay, n);
  }

  /** The walk's end test on wire numbers recognises the last packet. */
  lemma EndTestIsExact(n: int, last: int)
    requires -MAX_SPAN <= n - last <= MAX_SPAN
    ensures Next(Wire(n)) == Wire(n + 1)
    ensures Next(Wire(n)) == Next(Wire(last)) <==> n == last
  {
    WireStep(n);
    WireStep(last);
    if Wire(n + 1) == Wire(last + 1) { WireInjective(n + 1, last + 1); }
  }

  lemma {:induction false} PublishFromSimulates<P>(s: S.State<P>, v: V.View, pay: int -> P, n: int, step: bool,
                                                   budget: nat)
    requires Rep(s, v, pay) && Views.WalkAt(v, n, step) && n <= v.last
    ensures Rep(S.PublishFrom(s, Wire(n), step, budget), V.PublishFrom(v, s.ordered, n, step, budget), pay)
    ensures SameSetup(s, S.PublishFrom(s, Wire(n), step, budget))
    decreases budget
  {
    if budget > 0 {
      FlagRead(s.received, v.received, n);
      EndTestIsExact(n, v.last);
      if n in v.received {
        PublishOneSimulates(s, v, pay, n, step);
        var s', v' := S.PublishOne(s, Wire(n), step), V.PublishOne(v, n, step);
        if n < v.last {
          PublishFromSimulates(s', v', pay, n + 1, step, budget - 1);
        }
      } else if !s.ordered && n < v.last {
        PublishFromSimulates(s, v, pay, n + 1, false, budget - 1);
      }
    }
  }

  lemma PublishSimulates<P>(s: S.State<P>, v: V.View, pay: int -> P)
    requires Rep(s, v, pay)
    ensures Rep(S.Publish(s), V.Publish(v, s.ordered, s.window), pay)
    ensures SameSetup(s, S.Publish(s))
  {
    PublishFromSimulates(s, v, pay, v.current, true, s.window);
  }

  /** Arrivals whose wire number is unambiguous, seen from the current sequence. */
  ghost predicate Recent(v: V.View, n: int) {
    v.current - MAX_AGE <= n <= v.current + MAX_SPAN
  }

  /** Packet `n` is new: past `current` and not flagged as received. */
  predicate New(v: V.View, window: nat, n: int) {
    var v1 := V.Skip(v, window);
    n > v1.current && n !in V.Admit(v1, n).received
  }

  /** `receive_packet` returns true exactly for a packet past `current` that is not flagged as received. */
  lemma AcceptedExactly<P>(s: S.State<P>, v: V.View, pay: int -> P, n: int)
    requires Rep(s, v, pay) && s.window <= MAX_AGE
    requires Recent(V.Skip(v, s.window), n)
    ensures S.ReceivePacket(s, Wire(n), pay(n)).1 <==> New(v, s.window, n)
  {
    var s1, v1 := S.Skip(s), V.Skip(v, s.window);
    SkipSimulates(s, v, pay);
    OrderIsFaithful(n, v1.current);
    if n > v1.current {
      AdmitSimulates(s1, v1, pay, n);
      FlagRead(S.Admit(s1, Wire(n)).received, V.Admit(v1, n).received, n);
    }
  }

  lemma ReceiveSimulates<P>(s: S.State<P>, v: V.View, pay: int -> P, n: int)
    requires Rep(s, v, pay) && s.window <= MAX_AGE
    requires Recent(V.Skip(v, s.window), n)
    ensures Rep(S.ReceivePacket(s, Wire(n), pay(n)).0, V.Receive(v, s.ordered, s.window, n), pay)
    ensures SameSetup(S.Skip(s), S.ReceivePacket(s, Wire(n), pay(n)).0)
  {
    SkipSimulates(s, v, pay);
    AcceptSimulates(S.Skip(s), V.Skip(v, s.window), pay, n);
  }

  lemma AcceptSimulates<P>(s: S.State<P>, v: V.View, pay: int -> P, n: int)
    requires Rep(s, v, pay) && Recent(v, n)
    ensures Rep(S.Accept(s, Wire(n), pay(n)).0, V.Accept(v, s.ordered, s.window, n), pay)
    ensures SameSetup(s, S.Accept(s, Wire(n), pay(n)).0)
  {
    OrderIsFaithful(n, v.current);
    if n > v.current {
      AdmitSimulates(s, v, pay, n);
      var s1, v1 := S.Admit(s, Wire(n)), V.Admit(v, n);
      FlagRead(s1.received, v1.received, n);
      if n !in v1.received {
        StoreSimulates(s1, v1, pay, n);
        PublishSimulates(S.Store(s1, Wire(n), pay(n)), V.Store(v1, n), pay);
      }
    }
  }

  lemma AdmitSimulates<P>(s: S.State<P>, v: V.View, pay: int -> P, n: int)
    requires Rep(s, v, pay)
    requires v.current < n <= v.current + MAX_SPAN
    ensures Rep(S.Admit(s, Wire(n)), V.Admit(v, n), pay)
  {
    OrderIsFaithful(n, v.last);
    WireStep(v.current);
    if Wire(n) == Wire(v.current + 1) { WireInjective(n, v.current + 1); }
    FlagCleared(s.received, v.received, v.current);
  }

  lemma StoreSimulates<P>(s: S.State<P>, v: V.View, pay: int -> P, n: int)
    requires Rep(s, v, pay)
    requires v.current <= n <= v.last && n !in v.received
    ensures Rep(S.Store(s, Wire(n), pay(n)), V.Store(v, n), pay)
  {
    FlagSet(s.received, v.received, n);
    BufferPut(s.buffered, v.received, v.waiting, pay, n);
  }
}
