/** What a receiver nacks: the packed nack list names exactly the missing sequences of the part of
    the window that the walk covered, newest first. */
module NackProofs {
  import opened Sequence
  import opened SequenceBuffers
  import opened Nacks
  import opened ReceiverRefinement
  import S = ReceiverSpec
  import V = Reassembly

  /** The packets in (floor, n] that are not in `received`, newest first. */
  function Missing(received: set<int>, floor: int, n: int): seq<int>
    decreases n - floor
  {
    if n <= floor then []
    else (if n in received then [] else [n]) + Missing(received, floor, n - 1)
  }

  function Wires(packets: seq<int>): seq<U16> {
    if packets == [] then [] else [Wire(packets[0])] + Wires(packets[1..])
  }

  function Max(x: int, y: int): int {
    if x > y then x else y
  }

  /** How far down the outer walk gets from `n`: a missing head covers 33 packets, a received head
      uses up an iteration for itself alone. */
  function Floor(received: set<int>, current: int, n: int, budget: nat): int
    decreases budget
  {
    if n <= current then current
    else if budget == 0 then n
    else Floor(received, current, if n in received then n - 1 else n - 33, budget - 1)
  }

  lemma {:induction false} FloorBounds(received: set<int>, current: int, n: int, budget: nat)
    ensures current <= Floor(received, current, n, budget) <= Max(current, n)
    decreases budget
  {
    if n > current && budget > 0 {
      FloorBounds(received, current, if n in received then n - 1 else n - 33, budget - 1);
    }
  }

  /** The list is strictly descending, and holds exactly the unreceived packets of its range. */
  lemma {:induction false} MissingIsExact(received: set<int>, floor: int, n: int)
    ensures var list := Missing(received, floor, n);
            && (forall m :: m in list <==> floor < m <= n && m !in received)
            && (forall i, j :: 0 <= i < j < |list| ==> list[i] > list[j])
    decreases n - floor
  {
    if n > floor {
      MissingIsExact(received, floor, n - 1);
      var list, rest := Missing(received, floor, n), Missing(received, floor, n - 1);
      if n in received {
        assert list == rest;
      } else {
        assert list == [n] + rest;
        forall i, j | 0 <= i < j < |list| ensures list[i] > list[j] {
          assert rest[j - 1] in rest;
        }
      }
    }
  }

  lemma {:induction false} MissingSplit(received: set<int>, floor: int, mid: int, n: int)
    requires floor <= mid <= n
    ensures Missing(received, floor, n) == Missing(received, mid, n) + Missing(received, floor, mid)
    decreases n - mid
  {
    if mid < n {
      MissingSplit(received, floor, mid, n - 1);
      var here := if n in received then [] else [n];
      assert here + (Missing(received, mid, n - 1) + Missing(received, floor, mid))
          == (here + Missing(received, mid, n - 1)) + Missing(received, floor, mid);
    }
  }

  lemma {:induction false} WiresConcat(a: seq<int>, b: seq<int>)
    ensures Wires(a + b) == Wires(a) + Wires(b)
  {
    if a == [] {
      assert a + b == b;
    } else {
      assert (a + b)[1..] == a[1..] + b;
      WiresConcat(a[1..], b);
    }
  }

  lemma MissingStep(received: set<int>, floor: int, n: int)
    requires n > floor
    ensures var below := Missing(received, floor, n - 1);
            if n in received then Missing(received, floor, n) == below
            else Missing(received, floor, n) == [n] + below && Wires([n] + below) == [Wire(n)] + Wires(below)
  {
  }

  lemma {:induction false} WiresMembers(packets: seq<int>, s: U16)
    ensures |Wires(packets)| == |packets|
    ensures s in Wires(packets) <==> exists n :: n in packets && Wire(n) == s
  {
    if packets != [] {
      WiresMembers(packets[1..], s);
    }
  }

  // ---- what a walk sees ----

  ghost predicate SeesAt<P>(s: S.State<P>, v: V.View, n: int) {
    Occupied(s.received, Wire(n)) <==> n in v.received
  }

  /** The part of `Rep` that a nack walk reads. */
  ghost predicate Sees<P>(s: S.State<P>, v: V.View) {
    && v.current <= v.last <= v.current + MAX_SPAN
    && s.current == Wire(v.current) && s.last == Wire(v.last)
    && forall n :: v.current <= n <= v.last ==> SeesAt(s, v, n)
  }

  lemma RepSees<P>(s: S.State<P>, v: V.View, pay: int -> P)
    requires Rep(s, v, pay)
    ensures Sees(s, v)
  {
    forall n | v.current <= n <= v.last ensures SeesAt(s, v, n) {
      FlagRead(s.received, v.received, n);
    }
  }

  /** The tests of one step of a walk, on packet numbers. */
  lemma Look<P>(s: S.State<P>, v: V.View, n: int)
    requires Sees(s, v) && v.current - 33 <= n <= v.last
    ensures IsEqualToOrLessThan(Wire(n), s.current) <==> n <= v.current
    ensures n >= v.current ==> (Occupied(s.received, Wire(n)) <==> n in v.received)
    ensures Wire(n) == s.current <==> n == v.current
    ensures Previous(Wire(n)) == Wire(n - 1)
  {
    OrderIsFaithful(n, v.current);
    WireStep(n);
    if Wire(n) == Wire(v.current) { WireInjective(n, v.current); }
    assert n >= v.current ==> SeesAt(s, v, n);
  }

  // ---- one nack ----

  predicate Gap(v: V.View, m: int) {
    m > v.current && m !in v.received
  }

  /** The flags below `index` of a nack that starts at packet `head` mark the gaps before it. */
  ghost predicate MarksGaps(nack: Nack, v: V.View, head: int, index: nat) {
    && nack.start == Wire(head)
    && forall i: nat :: Bit(nack.flags, i) <==> i < index && Gap(v, head - 1 - i)
  }

  lemma {:induction false} FlagWalk<P>(s: S.State<P>, v: V.View, head: int, index: nat, nack: Nack, count: nat)
    returns (g: S.Group)
    requires Sees(s, v) && index <= FLAG_COUNT
    requires v.current < head - index && head <= v.last
    requires MarksGaps(nack, v, head, index)
    ensures g == S.NackFlags(s, Wire(head - index), index, nack, count)
    ensures MarksGaps(g.nack, v, head, FLAG_COUNT)
    ensures g.done <==> head - FLAG_COUNT <= v.current
    ensures !g.done ==> g.sequence == Wire(head - FLAG_COUNT)
    ensures g.count == count + |Missing(v.received, Max(v.current, head - 33), head - index - 1)|
    decreases FLAG_COUNT - index
  {
    g := S.NackFlags(s, Wire(head - index), index, nack, count);
    if index < FLAG_COUNT {
      var n := head - index - 1;
      Look(s, v, head - index);
      Look(s, v, n);
      if n > v.current {
        var nack', count' :=
          if n in v.received then nack else SetBits(nack, index, true).(nackedCount := count + 1),
          if n in v.received then count else count + 1;
        assert MarksGaps(nack', v, head, index + 1);
        g := FlagWalk(s, v, head, index + 1, nack', count');
      }
    }
  }

  lemma {:induction false} MarkedMissing(v: V.View, marks: seq<bool>, m: int)
    requires forall i :: 0 <= i < |marks| ==> marks[i] == Gap(v, m - i)
    ensures Marked(marks, Wire(m)) == Wires(Missing(v.received, Max(v.current, m - |marks|), m))
  {
    if marks != [] {
      var rest := marks[1..];
      assert forall i :: 0 <= i < |rest| ==> rest[i] == marks[i + 1] && m - (i + 1) == (m - 1) - i;
      MarkedMissing(v, rest, m - 1);
      WireStep(m);
      if m > v.current { MissingStep(v.received, Max(v.current, m - |marks|), m); }
    }
  }

  /** A finished nack names its head and every gap among the 32 packets before it. */
  lemma NackedMissing(nack: Nack, v: V.View, head: int)
    requires MarksGaps(nack, v, head, FLAG_COUNT) && Gap(v, head)
    ensures Nacked(nack) == Wires(Missing(v.received, Max(v.current, head - 33), head))
  {
    WireStep(head);
    MarkedMissing(v, Bits(nack.flags), head - 1);
  }

  // ---- the nack list ----

  lemma {:induction false} GroupWalk<P>(s: S.State<P>, v: V.View, n: int, budget: nat, nacks: seq<Nack>, count: nat)
    requires Sees(s, v) && v.current - 33 <= n <= v.last
    ensures Walked(S.NackGroups(s, Wire(n), budget, nacks, count), nacks, count,
                   Missing(v.received, Floor(v.received, v.current, n, budget), n), budget)
    decreases budget
  {
    Look(s, v, n);
    var floor := Floor(v.received, v.current, n, budget);
    if n <= v.current || budget == 0 {
      assert Missing(v.received, floor, n) == [];
      assert Expand(nacks) + Wires([]) == Expand(nacks);
    } else if n in v.received {
      Look(s, v, n - 1);
      FloorBounds(v.received, v.current, n - 1, budget - 1);
      MissingStep(v.received, floor, n);
      GroupWalk(s, v, n - 1, budget - 1, nacks, count);
    } else {
      HeadWalk(s, v, n, budget, nacks, count);
    }
  }

  lemma {:induction false} HeadWalk<P>(s: S.State<P>, v: V.View, n: int, budget: nat, nacks: seq<Nack>, count: nat)
    requires Sees(s, v) && Gap(v, n) && n <= v.last && budget > 0
    ensures Walked(S.NackGroups(s, Wire(n), budget, nacks, count), nacks, count,
                   Missing(v.received, Floor(v.received, v.current, n, budget), n), budget)
    decreases budget, 0
  {
    var nack, total := HeadStep(s, v, n, budget, nacks, count);
    var mid, floor := Max(v.current, n - 33), Floor(v.received, v.current, n, budget);
    FloorBounds(v.received, v.current, n - 33, budget - 1);
    if n - 32 > v.current {
      GroupWalk(s, v, n - 33, budget - 1, nacks + [nack], total);
    } else {
      LastWalked(nacks + [nack], total, v.received, floor, budget - 1);
    }
    var result := S.NackGroups(s, Wire(n), budget, nacks, count);
    WalkedMore(result, nacks, nack, count, total, v.received, floor, mid, n, budget);
  }

  /** A walk extended `nacks` and `count` by nacks for exactly the packets `missing`. */
  predicate Walked(result: (seq<Nack>, nat), nacks: seq<Nack>, count: nat, missing: seq<int>, budget: nat) {
    && Expand(result.0) == Expand(nacks) + Wires(missing)
    && result.1 == count + |missing| && |result.0| <= |nacks| + budget
  }

  lemma LastWalked(nacks: seq<Nack>, count: nat, received: set<int>, floor: int, budget: nat)
    ensures Walked((nacks, count), nacks, count, Missing(received, floor, floor), budget)
  {
    assert Wires(Missing(received, floor, floor)) == [];
  }

  lemma WalkedMore(result: (seq<Nack>, nat), nacks: seq<Nack>, nack: Nack, count: nat, total: nat,
                   received: set<int>, floor: int, mid: int, n: int, budget: nat)
    requires floor <= mid <= n && budget > 0 && Nacked(nack) == Wires(Missing(received, mid, n))
    requires total == count + |Missing(received, mid, n)|
    requires Walked(result, nacks + [nack], total, Missing(received, floor, mid), budget - 1)
    ensures Walked(result, nacks, count, Missing(received, floor, n), budget)
  {
    HeadAlgebra(received, floor, mid, n, nacks, nack);
  }

  /** One iteration of the outer walk at a missing sequence. */
  lemma HeadStep<P>(s: S.State<P>, v: V.View, n: int, budget: nat, nacks: seq<Nack>, count: nat)
    returns (nack: Nack, total: nat)
    requires Sees(s, v) && Gap(v, n) && n <= v.last && budget > 0
    ensures var missing := Missing(v.received, Max(v.current, n - 33), n);
            Nacked(nack) == Wires(missing) && total == count + |missing|
    ensures S.NackGroups(s, Wire(n), budget, nacks, count) ==
            if n - 32 <= v.current then (nacks + [nack], total)
            else S.NackGroups(s, Wire(n - 33), budget - 1, nacks + [nack], total)
  {
    Look(s, v, n);
    var head := DEFAULT_NACK.(start := Wire(n), nackedCount := count + 1);
    DefaultMarks(head, v, n);
    var g := FlagWalk(s, v, n, 0, head, count + 1);
    NackedMissing(g.nack, v, n);
    MissingStep(v.received, Max(v.current, n - 33), n);
    Look(s, v, n - 32);
    nack, total := g.nack, g.count;
  }

  lemma HeadAlgebra(received: set<int>, floor: int, mid: int, n: int, nacks: seq<Nack>, nack: Nack)
    requires floor <= mid <= n && Nacked(nack) == Wires(Missing(received, mid, n))
    ensures Expand(nacks + [nack]) + Wires(Missing(received, floor, mid))
         == Expand(nacks) + Wires(Missing(received, floor, n))
    ensures |Missing(received, floor, n)| == |Missing(received, mid, n)| + |Missing(received, floor, mid)|
  {
    var rest := Wires(Missing(received, floor, mid));
    ExpandAppend(nacks, nack);
    MissingSplit(received, floor, mid, n);
    WiresConcat(Missing(received, mid, n), Missing(received, floor, mid));
    assert (Expand(nacks) + Nacked(nack)) + rest == Expand(nacks) + (Nacked(nack) + rest);
  }

  lemma DefaultMarks(nack: Nack, v: V.View, head: int)
    requires nack.start == Wire(head) && nack.flags == 0
    ensures MarksGaps(nack, v, head, 0)
  {
    forall i: nat ensures !Bit(0, i) { NoBits(i); }
  }

  lemma {:induction false} NoBits(i: nat)
    ensures !Bit(0, i)
  {
    if i > 0 { NoBits(i - 1); }
  }

  /** The lowest packet that `create_nacks` looks at, less one. */
  function NackFloor(v: V.View, window: WindowSize): int {
    Floor(v.received, v.current, v.last - 1, window / 32)
  }

  lemma NackList<P>(s: S.State<P>, v: V.View)
    requires Sees(s, v)
    ensures var (nacks, count) := S.CreateNacks(s);
            var missing := Missing(v.received, NackFloor(v, s.window), v.last - 1);
            Expand(nacks) == Wires(missing) && count == |missing| && |nacks| <= s.window / 32
  {
    Look(s, v, v.last);
    Look(s, v, v.last - 1);
    GroupWalk(s, v, v.last - 1, s.window / 32, [], 0);
    var missing := Missing(v.received, NackFloor(v, s.window), v.last - 1);
    assert Expand([]) + Wires(missing) == Wires(missing);
  }

  /** Nack exactness: the flattened list is the missing sequences between the floor of the walk and
      `last`, newest first; the count is its length and there are at most window / 32 nacks. */
  lemma NackExactness<P>(s: S.State<P>, v: V.View, pay: int -> P)
    requires Rep(s, v, pay)
    ensures var (nacks, count) := S.CreateNacks(s);
            && Expand(nacks) == Wires(Missing(v.received, NackFloor(v, s.window), v.last - 1))
            && count == |Expand(nacks)|
            && |nacks| <= s.window / 32
  {
    RepSees(s, v, pay);
    NackList(s, v);
    WiresMembers(Missing(v.received, NackFloor(v, s.window), v.last - 1), 0);
  }

  /** Every sequence in the list stands for a packet strictly between current and last. */
  lemma {:induction false} NamedBetween<P>(s: S.State<P>, v: V.View, pay: int -> P, q: U16) returns (m: int)
    requires Rep(s, v, pay) && q in Expand(S.CreateNacks(s).0)
    ensures v.current < m < v.last && Wire(m) == q
  {
    var floor := NackFloor(v, s.window);
    NackExactness(s, v, pay);
    FloorBounds(v.received, v.current, v.last - 1, s.window / 32);
    MissingIsExact(v.received, floor, v.last - 1);
    var missing := Missing(v.received, floor, v.last - 1);
    WiresMembers(missing, q);
    m :| m in missing && Wire(m) == q;
  }

  /** The packets named by a nack list, as a sender whose newest packet is `newest` reads them. */
  function Named(nacks: seq<Nack>, newest: int): set<int> {
    set s | s in Expand(nacks) :: Unwire(newest, s)
  }

  /** No received sequence, nothing outside (current, last), and every gap above the floor is named. */
  lemma NamedAreTheGaps<P>(s: S.State<P>, v: V.View, pay: int -> P, newest: int)
    requires Rep(s, v, pay) && v.last <= newest <= v.current + MAX_AGE
    ensures forall n :: n in Named(S.CreateNacks(s).0, newest) <==> Gap(v, n) && NackFloor(v, s.window) < n < v.last
  {
    NackExactness(s, v, pay);
    var floor := NackFloor(v, s.window);
    FloorBounds(v.received, v.current, v.last - 1, s.window / 32);
    var missing, nacks := Missing(v.received, floor, v.last - 1), S.CreateNacks(s).0;
    MissingIsExact(v.received, floor, v.last - 1);
    forall n ensures n in Named(nacks, newest) <==> n in missing {
      if n in Named(nacks, newest) {
        var w :| w in Expand(nacks) && Unwire(newest, w) == n;
        WiresMembers(missing, w);
        var m :| m in missing && Wire(m) == w;
        UnwireRecent(newest, m);
      }
      if n in missing {
        WiresMembers(missing, Wire(n));
        UnwireRecent(newest, n);
      }
    }
  }

  // ---- the iteration budget ----

  /** The received packets in (current, n]. */
  function ReceivedBetween(received: set<int>, current: int, n: int): set<int> {
    set m | m in received && current < m <= n
  }

  predicate WithinBudget(received: set<int>, current: int, n: int, budget: nat) {
    n > current ==> |ReceivedBetween(received, current, n)| + (n - current + 32) / 33 <= budget
  }

  /** The walk covers the whole window when its received packets and its groups of 33 fit the budget. */
  lemma {:induction false} BudgetSuffices(received: set<int>, current: int, n: int, budget: nat)
    requires WithinBudget(received, current, n, budget)
    ensures Floor(received, current, n, budget) == current
    decreases budget
  {
    if n > current {
      assert (n - current + 32) / 33 >= 1;
      var here := ReceivedBetween(received, current, n);
      var n' := if n in received then n - 1 else n - 33;
      var below := ReceivedBetween(received, current, n');
      if n in received {
        assert here == below + {n};
      } else {
        SubsetSize(below, here);
      }
      BudgetSuffices(received, current, n', budget - 1);
    }
  }

  lemma {:induction false} SubsetSize(a: set<int>, b: set<int>)
    requires a <= b
    ensures |a| <= |b|
  {
    assert b == a + (b - a);
  }

  // ---- the simple form ----

  lemma {:induction false} ResendWalk<P>(s: S.State<P>, v: V.View, n: int, budget: nat, list: seq<U16>)
    requires Sees(s, v) && v.current < n <= v.last
    ensures S.ResendFrom(s, Wire(n), budget, list) == list + Wires(Missing(v.received, Max(v.current, n - budget), n))
    decreases budget
  {
    if budget == 0 {
      assert Wires(Missing(v.received, n, n)) == [];
    } else {
      var floor := Max(v.current, n - budget);
      Look(s, v, n);
      Look(s, v, n - 1);
      var list' := if n in v.received then list else list + [Wire(n)];
      if n - 1 > v.current {
        ResendWalk(s, v, n - 1, budget - 1, list');
      } else {
        assert Wires(Missing(v.received, floor, n - 1)) == [];
      }
      ListedStep(v.received, floor, n, list);
    }
  }

  /** Listing packet `n` if it is missing, and then those below it. */
  lemma {:induction false} ListedStep(received: set<int>, floor: int, n: int, list: seq<U16>)
    requires floor < n
    ensures (if n in received then list else list + [Wire(n)]) + Wires(Missing(received, floor, n - 1))
         == list + Wires(Missing(received, floor, n))
  {
    MissingStep(received, floor, n);
    var rest := Wires(Missing(received, floor, n - 1));
    assert (list + [Wire(n)]) + rest == list + ([Wire(n)] + rest);
  }

  lemma {:induction false} ResendKeepsList<P>(s: S.State<P>, sequence: U16, budget: nat, list: seq<U16>)
    ensures list <= S.ResendFrom(s, sequence, budget, list)
    decreases budget
  {
    if budget > 0 {
      ResendKeepsList(s, Previous(sequence), budget - 1,
                      if Occupied(s.received, sequence) then list else list + [sequence]);
    }
  }

  /** The lowest packet that `set_resend_list` looks at, less one. */
  function ResendFloor(v: V.View, window: WindowSize): int {
    Max(v.current, v.last - 1 - window)
  }

  /** Two walks down from `n` list the same exactly when nothing is missing between their floors. */
  lemma SameAbove(received: set<int>, low: int, high: int, n: int)
    requires low <= high <= n
    ensures Wires(Missing(received, low, n)) == Wires(Missing(received, high, n)) <==>
            forall m :: low < m <= high ==> m in received
  {
    MissingSplit(received, low, high, n);
    var above, between := Missing(received, high, n), Missing(received, low, high);
    WiresConcat(above, between);
    MissingIsExact(received, low, high);
    if between == [] {
      assert forall m :: m !in between;
    } else {
      assert between[0] in between;
    }
  }

  /** When the two forms agree: nothing is missing between the floors of the two walks, and for a gap of
      exactly one, where the simple form starts at `current` and goes on below it, it finds nothing. */
  predicate FormsAgree(v: V.View, window: WindowSize) {
    var f, g := NackFloor(v, window), ResendFloor(v, window);
    if v.last - v.current == 1 then window == 0 || (window == 1 && v.current in v.received)
    else (forall m :: f < m <= g ==> m in v.received) && (forall m :: g < m <= f && m < v.last ==> m in v.received)
  }

  /** The packed form refines the simple one: the expanded nack list equals the list built one sequence
      at a time, element for element, exactly when `FormsAgree`. */
  lemma {:induction false} PackedIsSimple<P>(s: S.State<P>, v: V.View, pay: int -> P)
    requires Rep(s, v, pay)
    ensures Expand(S.CreateNacks(s).0) == S.ResendList(s) <==> FormsAgree(v, s.window)
  {
    if v.last - v.current >= 2 {
      WideGap(s, v, pay);
    } else {
      RepSees(s, v, pay);
      NackList(s, v);
      FloorBounds(v.received, v.current, v.last - 1, s.window / 32);
      assert Missing(v.received, NackFloor(v, s.window), v.last - 1) == [];
      if v.last - v.current == 1 { GapOfOne(s, v, pay); }
    }
  }

  lemma {:induction false} WideGap<P>(s: S.State<P>, v: V.View, pay: int -> P)
    requires Rep(s, v, pay) && v.last - v.current >= 2
    ensures Expand(S.CreateNacks(s).0) == S.ResendList(s) <==> FormsAgree(v, s.window)
  {
    var f, g, n := NackFloor(v, s.window), ResendFloor(v, s.window), v.last - 1;
    ResendIs(s, v, pay);
    RepSees(s, v, pay);
    NackList(s, v);
    FloorBounds(v.received, v.current, n, s.window / 32);
    if f <= g { SameAbove(v.received, f, g, n); } else { SameAbove(v.received, g, f, n); }
  }

  lemma {:induction false} ResendIs<P>(s: S.State<P>, v: V.View, pay: int -> P)
    requires Rep(s, v, pay) && v.last - v.current >= 2
    ensures S.ResendList(s) == Wires(Missing(v.received, ResendFloor(v, s.window), v.last - 1))
  {
    RepSees(s, v, pay);
    Look(s, v, v.last);
    ResendWalk(s, v, v.last - 1, s.window, []);
  }

  /** With a gap of one the simple form walks past `current`. */
  lemma GapOfOne<P>(s: S.State<P>, v: V.View, pay: int -> P)
    requires Rep(s, v, pay) && v.last - v.current == 1
    ensures S.ResendList(s) == [] <==> s.window == 0 || (s.window == 1 && v.current in v.received)
  {
    RepSees(s, v, pay);
    Look(s, v, v.last);
    Look(s, v, v.current);
    var c, b := Wire(v.current), Wire(v.current - 1);
    FlagRead(s.received, v.received, v.current - 1);
    WireStep(v.current - 1);
    assert S.ResendList(s) == S.ResendFrom(s, c, s.window, []);
    if v.current !in v.received && s.window >= 1 {
      assert [] + [c] == [c];
      ResendKeepsList(s, b, s.window - 1, [c]);
      assert [c] <= S.ResendList(s);
    } else if s.window >= 2 {
      assert S.ResendList(s) == S.ResendFrom(s, b, s.window - 1, []);
      assert [] + [b] == [b];
      ResendKeepsList(s, Previous(b), s.window - 2, [b]);
      assert [b] <= S.ResendList(s);
    }
  }
}
